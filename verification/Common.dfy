/** Small helpers shared by the other modules. */
module Common {

  datatype Option<+T> = None | Some(value: T)

  function Min(a: nat, b: nat): nat { if b < a then b else a }

  function RealMin(a: real, b: real): real { if b < a then b else a }

  function RealMax(a: real, b: real): real { if b > a then b else a }
}

/** Parsing six-field expressions into bit sets. */
module CronParse {
  import opened Common
  import opened Cron
  import opened Words

  // Strings, as Go's strings and strconv packages treat them.

  function Split(s: string, sep: char): (parts: seq<string>)
    ensures |parts| > 0
  {
    if s == "" then [""]
    else
      var rest := Split(s[1..], sep);
      if s[0] == sep then [""] + rest else [[s[0]] + rest[0]] + rest[1..]
  }

  predicate IsDigit(c: char) { '0' <= c <= '9' }

  function Digits(s: string): Option<nat> {
    if s == "" then None
    else if !IsDigit(s[|s| - 1]) then None
    else
      var d := (s[|s| - 1] - '0') as nat;
      if |s| == 1 then Some(d)
      else
        match Digits(s[..|s| - 1])
        case None => None
        case Some(n) => Some(10 * n + d)
  }

  /** strconv.Atoi on a 64-bit int. */
  function Atoi(s: string): Option<int> {
    var negative := s != "" && s[0] == '-';
    var body := if s != "" && (s[0] == '-' || s[0] == '+') then s[1..] else s;
    match Digits(body)
    case None => None
    case Some(n) =>
      var v: int := if negative then -(n as int) else n;
      if -0x8000_0000_0000_0000 <= v < 0x8000_0000_0000_0000 then Some(v) else None
  }

  function Itoa(n: nat): (s: string)
    ensures |s| > 0 && forall c <- s :: IsDigit(c)
  {
    var last := ['0' + (n % 10) as char];
    if n < 10 then last else Itoa(n / 10) + last
  }

  function ToUpper(s: string): string {
    seq(|s|, i requires 0 <= i < |s| => if 'a' <= s[i] <= 'z' then s[i] - 'a' + 'A' else s[i])
  }

  /** strings.ReplaceAll; an empty name is found around every character. */
  function ReplaceAll(s: string, name: string, text: string): string {
    if name == "" then (if s == "" then text else text + [s[0]] + ReplaceAll(s[1..], name, text))
    else if s == "" then ""
    else if name <= s then text + ReplaceAll(s[|name|..], name, text)
    else [s[0]] + ReplaceAll(s[1..], name, text)
  }

  /** Names become their index in the table; "NIL" entries only pad it. */
  function ReplaceNames(field: string, names: seq<string>, i: nat): string
    requires i <= |names|
    decreases |names| - i
  {
    if i == |names| then field
    else if names[i] == "NIL" then ReplaceNames(field, names, i + 1)
    else ReplaceNames(ReplaceAll(field, names[i], Itoa(i)), names, i + 1)
  }

  function Substitute(field: string, names: seq<string>): string
  {
    if names == [] then field else ReplaceNames(ToUpper(field), names, 0)
  }

  /** parseRange: "*", a value, or "a-b", all within the field's bounds. */
  function ParseRange(field: string, minVal: int, maxVal: int): Option<(int, int)> {
    if field == "*" then Some((minVal, maxVal))
    else if '-' !in field then
      match Atoi(field)
      case None => None
      case Some(v) => if v < minVal || v > maxVal then None else Some((v, v))
    else
      var parts := Split(field, '-');
      if |parts| != 2 then None
      else
        match (Atoi(parts[0]), Atoi(parts[1]))
        case (Some(start), Some(end)) =>
          if start > end || start < minVal || end > maxVal then None else Some((start, end))
        case _ => None
  }

  /** Start, end and increment of one comma-separated part. */
  function ParsePart(part: string, minVal: int, maxVal: int): (r: Option<(int, int, int)>)
    ensures r.Some? ==> r.value.2 > 0
  {
    if '/' in part then
      var subparts := Split(part, '/');
      if |subparts| != 2 then None
      else
        match (ParseRange(subparts[0], minVal, maxVal), Atoi(subparts[1]))
        case (Some((start, end)), Some(delta)) =>
          if delta <= 0 then None
          else Some((start, if '-' in subparts[0] then end else maxVal, delta))
        case _ => None
    else
      match ParseRange(part, minVal, maxVal)
      case None => None
      case Some((start, end)) => Some((start, end, 1))
  }

  predicate Term(v: int, start: int, delta: int)
    requires delta > 0
  {
    start <= v && (v - start) % delta == 0
  }

  /** The terms start, start + delta, ... up to end. */
  function Progression(start: int, end: int, delta: int): set<int>
    requires delta > 0
  {
    set v | start <= v <= end && Term(v, start, delta)
  }

  /** The values a list of parts stands for, or None if one of them is malformed. */
  function PartsValues(parts: seq<string>, minVal: int, maxVal: int): Option<set<int>> {
    if parts == [] then Some({})
    else
      var n := |parts| - 1;
      match (PartsValues(parts[..n], minVal, maxVal), ParsePart(parts[n], minVal, maxVal))
      case (Some(vs), Some((start, end, delta))) => Some(vs + Progression(start, end, delta))
      case _ => None
  }

  function FieldValues(field: string, minVal: int, maxVal: int, names: seq<string>): Option<set<int>>
  {
    if field != "" && field[|field| - 1] == ',' then None
    else PartsValues(Split(Substitute(field, names), ','), minVal, maxVal)
  }

  /** The bits are exactly the values, counted from the field's minimum. */
  ghost predicate Represents(bits: nat, vs: set<int>, minVal: int) {
    && bits < Pow2(64)
    && forall j :: IsSet(bits, j) <==> 0 <= j < 64 && j + minVal in vs
  }

  /** 1 << uint(k) on a uint64. */
  function Mask(k: int): nat { if 0 <= k < 64 then Pow2(k) else 0 }

  lemma SetBit(bits: nat, k: int, j: int)
    requires bits < Pow2(64)
    ensures Or(bits, Mask(k)) < Pow2(64)
    ensures IsSet(Or(bits, Mask(k)), j) <==> IsSet(bits, j) || (j == k && 0 <= j < 64)
  {
    if 0 <= k < 64 {
      Pow2Monotone(k, 64);
    }
    OrBound(bits, Mask(k), 64);
    if 0 <= j < 64 {
      AndPow2(bits, j);
      AndPow2(Or(bits, Mask(k)), j);
      BitOr(bits, Mask(k), j);
      if 0 <= k < 64 {
        BitPow2(k, j);
      } else {
        BitOfZero(j);
      }
    }
  }

  /** The terms already visited when the loop variable stands at i. */
  ghost function Visited(start: int, end: int, delta: int, i: int): set<int>
    requires delta > 0
  {
    set v | start <= v <= end && v < i && Term(v, start, delta)
  }

  lemma VisitNext(start: int, end: int, delta: int, k: nat)
    requires delta > 0 && start + k * delta <= end
    ensures start <= start + k * delta
    ensures Visited(start, end, delta, start + (k + 1) * delta)
         == Visited(start, end, delta, start + k * delta) + {start + k * delta}
  {
    var i := start + k * delta;
    assert k * delta >= 0 && (k + 1) * delta == k * delta + delta;
    ModUnique(i - start, k, delta, 0);
    assert Term(i, start, delta);
    forall v | i < v < i + delta ensures !Term(v, start, delta) {
      ModUnique(v - start, k, delta, v - i);
    }
  }

  lemma RepresentsMore(bits: nat, vs: set<int>, v: int, minVal: int)
    requires Represents(bits, vs, minVal)
    ensures Represents(Or(bits, Mask(v - minVal)), vs + {v}, minVal)
  {
    var word := Or(bits, Mask(v - minVal));
    SetBit(bits, v - minVal, 0);
    forall j ensures IsSet(word, j) <==> 0 <= j < 64 && j + minVal in vs + {v} {
      SetBit(bits, v - minVal, j);
    }
  }

  /** The loop `for i := start; i <= end; i += delta`. */
  method SetProgression(bits: nat, ghost vs: set<int>, start: int, end: int, delta: int, minVal: int) returns (r: nat)
    requires delta > 0 && Represents(bits, vs, minVal)
    ensures Represents(r, vs + Progression(start, end, delta), minVal)
  {
    hide Represents;
    r := bits;
    var i := start;
    ghost var k := 0;
    assert vs + Visited(start, end, delta, start) == vs;
    while i <= end
      invariant k >= 0 && i == start + k * delta
      invariant Represents(r, vs + Visited(start, end, delta, i), minVal)
      decreases end - i
    {
      VisitNext(start, end, delta, k);
      RepresentsMore(r, vs + Visited(start, end, delta, i), i, minVal);
      assert vs + Visited(start, end, delta, i) + {i} == vs + (Visited(start, end, delta, i) + {i});
      r := Or(r, Mask(i - minVal));
      i := i + delta;
      k := k + 1;
      assert k * delta == (k - 1) * delta + delta;
    }
    assert Visited(start, end, delta, i) == Progression(start, end, delta);
  }

  method ParseField(field: string, minVal: int, maxVal: int, names: seq<string>) returns (r: Option<nat>)
    ensures match FieldValues(field, minVal, maxVal, names)
            case None => r == None
            case Some(vs) => r.Some? && Represents(r.value, vs, minVal)
  {
    hide ParsePart, Split, Substitute, Represents, Progression;
    if |field| > 0 && field[|field| - 1] == ',' {
      return None;
    }
    var bits := 0;
    var parts := Split(Substitute(field, names), ',');
    EmptyRepresents(minVal);
    ghost var vs := {};
    for p := 0 to |parts|
      invariant PartsValues(parts[..p], minVal, maxVal) == Some(vs)
      invariant Represents(bits, vs, minVal)
    {
      assert parts[..p + 1][..p] == parts[..p];
      match ParsePart(parts[p], minVal, maxVal) {
        case None =>
          MalformedPart(parts, p, |parts|, minVal, maxVal);
          assert parts[..|parts|] == parts;
          return None;
        case Some((start, end, delta)) =>
          bits := SetProgression(bits, vs, start, end, delta, minVal);
          vs := vs + Progression(start, end, delta);
      }
    }
    assert parts[..|parts|] == parts;
    return Some(bits);
  }

  lemma EmptyRepresents(minVal: int)
    ensures Represents(0, {}, minVal)
  {
    forall j ensures !IsSet(0, j) {
      assert And(0, if j >= 0 then Pow2(j) else 0) == 0;
    }
  }

  /** One malformed part spoils the field. */
  lemma {:induction false} MalformedPart(parts: seq<string>, p: nat, n: nat, minVal: int, maxVal: int)
    requires p < n <= |parts|
    requires ParsePart(parts[p], minVal, maxVal) == None
    ensures PartsValues(parts[..n], minVal, maxVal) == None
    decreases n
  {
    assert parts[..n][..n - 1] == parts[..n - 1];
    if p < n - 1 {
      MalformedPart(parts, p, n - 1, minVal, maxVal);
    }
  }

  lemma ParseRangeBounds(field: string, minVal: int, maxVal: int)
    requires minVal <= maxVal
    ensures ParseRange(field, minVal, maxVal).Some? ==>
              var (start, end) := ParseRange(field, minVal, maxVal).value;
              minVal <= start <= end <= maxVal
  {
  }

  /** A successful parse never yields an empty set or a value outside the field. */
  lemma {:induction false} PartsValuesInRange(parts: seq<string>, minVal: int, maxVal: int)
    requires minVal <= maxVal && PartsValues(parts, minVal, maxVal).Some?
    ensures var vs := PartsValues(parts, minVal, maxVal).value;
            && (parts != [] ==> vs != {})
            && forall v <- vs :: minVal <= v <= maxVal
  {
    if parts != [] {
      var n := |parts| - 1;
      PartsValuesInRange(parts[..n], minVal, maxVal);
      var (start, end, delta) := ParsePart(parts[n], minVal, maxVal).value;
      ParseRangeBounds(parts[n], minVal, maxVal);
      ParseRangeBounds(Split(parts[n], '/')[0], minVal, maxVal);
      assert minVal <= start <= end <= maxVal;
      assert Term(start, start, delta);
      assert start in Progression(start, end, delta);
    }
  }

  /** So the word has at least one bit, and none beyond the field's width. */
  lemma ParsedWord(field: string, minVal: int, maxVal: int, names: seq<string>, bits: nat)
    requires minVal <= maxVal < minVal + 64
    requires FieldValues(field, minVal, maxVal, names).Some?
    requires Represents(bits, FieldValues(field, minVal, maxVal, names).value, minVal)
    ensures 0 < bits < Pow2(maxVal - minVal + 1)
  {
    var vs := FieldValues(field, minVal, maxVal, names).value;
    PartsValuesInRange(Split(Substitute(field, names), ','), minVal, maxVal);
    var v :| v in vs;
    assert IsSet(bits, v - minVal);
    if bits == 0 { EmptyRepresents(minVal); }
    var width: nat := maxVal - minVal + 1;
    forall i: nat | width <= i ensures !Bit(bits, i) {
      if i < 64 {
        AndPow2(bits, i);
        assert IsSet(bits, i) <==> i + minVal in vs;
      } else {
        BelowPow2(bits, 64, i);
      }
    }
    BoundFromBits(bits, width);
  }

  predicate IsSpace(c: char) { c in " \t\n\r" || c == 11 as char || c == 12 as char }

  /** strings.Fields, on ASCII white space. */
  function Fields(s: string, word: string): seq<string> {
    var done := if word == "" then [] else [word];
    if s == "" then done
    else if IsSpace(s[0]) then done + Fields(s[1..], "")
    else Fields(s[1..], word + [s[0]])
  }

  /** "?" in a day field stands for "*". */
  function Wildcard(field: string): string { ReplaceAll(field, "?", "*") }

  /** The field texts with their bounds and name tables, in the order of the expression. */
  function FieldSpecs(fields: seq<string>, t: Traits): (specs: seq<(string, int, int, seq<string>)>)
    requires |fields| == 6
    ensures |specs| == 6
  {
    [(fields[0], t.minSeconds, t.maxSeconds, []),
     (fields[1], t.minMinutes, t.maxMinutes, []),
     (fields[2], t.minHours, t.maxHours, []),
     (Wildcard(fields[3]), t.minDOM, t.maxDOM, []),
     (fields[4], t.minMonths, t.maxMonths, t.months),
     (Wildcard(fields[5]), t.minDOW, t.maxDOW, t.days)]
  }

  function Word(c: CronExpr, k: nat): nat {
    [c.seconds, c.minutes, c.hours, c.daysOfMonth, c.months, c.daysOfWeek][if k < 6 then k else 0]
  }

  /** The outcome of parsing: every field well formed, or an error. */
  ghost predicate Parses(expr: string, t: Traits, c: CronExpr)
  {
    var fields := Fields(expr, "");
    && |fields| == 6
    && c.traits == t && c.expression == expr
    && forall k :: 0 <= k < 6 ==>
         var (text, lo, hi, names) := FieldSpecs(fields, t)[k];
         FieldValues(text, lo, hi, names).Some? && Represents(Word(c, k), FieldValues(text, lo, hi, names).value, lo)
  }

  method MakeCronWithTraits(expr: string, t: Traits) returns (r: Option<CronExpr>)
    ensures r.Some? ==> Parses(expr, t, r.value)
    ensures r.None? ==> forall c :: !Parses(expr, t, c)
  {
    hide FieldValues, Represents, Wildcard, Fields;
    var fields := Fields(expr, "");
    if |fields| != 6 {
      return None;
    }
    ghost var specs := FieldSpecs(fields, t);
    var seconds := ParseField(fields[0], t.minSeconds, t.maxSeconds, []);
    if seconds.None? {
      assert specs[0] == (fields[0], t.minSeconds, t.maxSeconds, []);
      return None;
    }
    var minutes := ParseField(fields[1], t.minMinutes, t.maxMinutes, []);
    if minutes.None? {
      assert specs[1] == (fields[1], t.minMinutes, t.maxMinutes, []);
      return None;
    }
    var hours := ParseField(fields[2], t.minHours, t.maxHours, []);
    if hours.None? {
      assert specs[2] == (fields[2], t.minHours, t.maxHours, []);
      return None;
    }
    var daysOfMonth := ParseField(Wildcard(fields[3]), t.minDOM, t.maxDOM, []);
    if daysOfMonth.None? {
      assert specs[3] == (Wildcard(fields[3]), t.minDOM, t.maxDOM, []);
      return None;
    }
    var months := ParseField(fields[4], t.minMonths, t.maxMonths, t.months);
    if months.None? {
      assert specs[4] == (fields[4], t.minMonths, t.maxMonths, t.months);
      return None;
    }
    var daysOfWeek := ParseField(Wildcard(fields[5]), t.minDOW, t.maxDOW, t.days);
    if daysOfWeek.None? {
      assert specs[5] == (Wildcard(fields[5]), t.minDOW, t.maxDOW, t.days);
      return None;
    }
    return Some(CronExpr(seconds.value, minutes.value, hours.value, daysOfMonth.value, months.value,
                         daysOfWeek.value, expr, t));
  }
}

/** Running mean and sum of squared deviations, one value at a time or by merging two accumulators. */
module Welford {
  import opened Common

  // What the accumulator stands for.

  datatype Moments = Moments(mean: real, m2: real, count: nat)

  function Total(f: real -> real, xs: seq<real>): real {
    if xs == [] then 0.0 else f(xs[0]) + Total(f, xs[1..])
  }

  function Same(): real -> real { x => x }

  function Square(d: real): real { d * d }

  function SquareFrom(c: real): real -> real { x => Square(x - c) }

  function Mean(xs: seq<real>): real {
    if xs == [] then 0.0 else Total(Same(), xs) / |xs| as real
  }

  /** The average, and the sum of squared distances from it. */
  function MomentsOf(xs: seq<real>): Moments {
    Moments(Mean(xs), Total(SquareFrom(Mean(xs)), xs), |xs|)
  }

  // What the code computes.

  function Updated(a: Moments, v: real): Moments {
    var n := (a.count + 1) as real;
    var delta := v - a.mean;
    var mean := a.mean + delta / n;
    Moments(mean, a.m2 + delta * (v - mean), a.count + 1)
  }

  /** How far a part of the weight pulls the mean. */
  function Pull(delta: real, part: real, whole: real): real
    requires whole != 0.0
  {
    delta * part / whole
  }

  /** What the distance between two means adds to the squared deviations. */
  function Between(delta: real, a: real, b: real, whole: real): real
    requires whole != 0.0
  {
    delta * delta * a * b / whole
  }

  function Combined(a: Moments, b: Moments): Moments {
    if b.count == 0 then a
    else
      var n := (a.count + b.count) as real;
      var delta := b.mean - a.mean;
      Moments(a.mean + Pull(delta, b.count as real, n),
              a.m2 + b.m2 + Between(delta, a.count as real, b.count as real, n),
              a.count + b.count)
  }

  class WelfordStdDev {
    var mean: real
    var M2: real
    var count: nat

    constructor ()
      ensures Value() == MomentsOf([])
    {
      mean, M2, count := 0.0, 0.0, 0;
    }

    function Value(): Moments
      reads this
    {
      Moments(mean, M2, count)
    }

    method Update(newValue: real)
      modifies this
      ensures Value() == Updated(old(Value()), newValue)
    {
      count := count + 1;
      var delta := newValue - mean;
      mean := mean + delta / count as real;
      var delta2 := newValue - mean;
      M2 := M2 + delta * delta2;
    }

    /** other may be this very accumulator. */
    method Combine(other: WelfordStdDev)
      modifies this
      ensures Value() == Combined(old(Value()), old(other.Value()))
    {
      hide Pull, Between;
      if other.count == 0 {
        return;
      }
      var newCount := count + other.count;
      var delta := other.mean - mean;
      var newMean := mean + Pull(delta, other.count as real, newCount as real);
      var newM2 := M2 + other.M2 + Between(delta, count as real, other.count as real, newCount as real);
      count := newCount;
      mean := newMean;
      M2 := newM2;
    }

    /** None where the source returns NaN. */
    function GetMean(): Option<real>
      reads this
    {
      if count > 0 then Some(mean) else None
    }

    function GetVariancePopulation(): Option<real>
      reads this
    {
      if count > 0 then Some(M2 / count as real) else None
    }

    function GetVarianceSample(): Option<real>
      reads this
    {
      if count > 1 then Some(M2 / (count - 1) as real) else None
    }
  }

  // Sums.

  lemma {:induction false} TotalAppend(f: real -> real, xs: seq<real>, ys: seq<real>)
    ensures Total(f, xs + ys) == Total(f, xs) + Total(f, ys)
  {
    if xs == [] {
      assert xs + ys == ys;
    } else {
      assert (xs + ys)[1..] == xs[1..] + ys;
      TotalAppend(f, xs[1..], ys);
    }
  }

  lemma TotalOfOne(f: real -> real, x: real)
    ensures Total(f, [x]) == f(x)
  {
    assert [x][1..] == [];
  }

  /** A sum does not depend on the order of its terms. */
  lemma {:induction false} TotalOfPermutation(f: real -> real, xs: seq<real>, ys: seq<real>)
    requires multiset(xs) == multiset(ys)
    ensures Total(f, xs) == Total(f, ys)
    decreases |xs|
  {
    if xs == [] {
      assert |multiset(ys)| == 0;
    } else {
      var x := xs[0];
      assert x in multiset(ys);
      var k :| 0 <= k < |ys| && ys[k] == x;
      var rest := ys[..k] + ys[k + 1..];
      assert xs == [x] + xs[1..];
      assert ys == ys[..k] + ([x] + ys[k + 1..]);
      assert multiset(xs[1..]) == multiset(xs) - multiset{x};
      assert multiset(rest) == multiset(ys) - multiset{x};
      TotalOfPermutation(f, xs[1..], rest);
      TotalAppend(f, ys[..k], ys[k + 1..]);
      TotalAppend(f, ys[..k], [x] + ys[k + 1..]);
      TotalAppend(f, [x], ys[k + 1..]);
      TotalOfOne(f, x);
    }
  }

  lemma MeanTimesCount(xs: seq<real>)
    ensures Total(Same(), xs) == Mean(xs) * |xs| as real
  {
  }

  /** What moving the centre from c to d adds to n squared distances, of values with sum s. */
  function Moved(c: real, d: real, s: real, n: real): real {
    2.0 * (c - d) * s + n * (d * d - c * c)
  }

  lemma {:induction false} Recentred(xs: seq<real>, c: real, d: real)
    ensures Total(SquareFrom(d), xs) == Total(SquareFrom(c), xs) + Moved(c, d, Total(Same(), xs), |xs| as real)
  {
    hide Same, SquareFrom, Moved;
    if xs == [] {
      MovedNothing(c, d);
    } else {
      Recentred(xs[1..], c, d);
      MovedOneMore(xs[0], Total(Same(), xs[1..]), (|xs| - 1) as real, c, d);
      assert |xs| as real == (|xs| - 1) as real + 1.0;
    }
  }

  lemma MovedNothing(c: real, d: real)
    ensures Moved(c, d, 0.0, 0.0) == 0.0
  {
  }

  lemma OneMoved(x: real, c: real, d: real)
    ensures Square(x - d) == Square(x - c) + 2.0 * (c - d) * x + (d * d - c * c)
  {
  }

  lemma MovedOneMore(x: real, s: real, n: real, c: real, d: real)
    ensures SquareFrom(d)(x) + Moved(c, d, s, n) == SquareFrom(c)(x) + Moved(c, d, Same()(x) + s, n + 1.0)
  {
    assert SquareFrom(c)(x) == Square(x - c) && SquareFrom(d)(x) == Square(x - d);
    OneMoved(x, c, d);
    assert 2.0 * (c - d) * (x + s) == 2.0 * (c - d) * x + 2.0 * (c - d) * s;
    assert (n + 1.0) * (d * d - c * c) == n * (d * d - c * c) + (d * d - c * c);
  }

  /** Squared distances from any point: those from the mean, plus the count times the squared distance of the mean. */
  lemma FromTheMean(xs: seq<real>, d: real)
    ensures var m := Mean(xs);
            Total(SquareFrom(d), xs) == Total(SquareFrom(m), xs) + |xs| as real * Square(m - d)
  {
    hide Total, Mean, SquareFrom, Same, Moved, Square;
    var m, n := Mean(xs), |xs| as real;
    Recentred(xs, m, d);
    MeanTimesCount(xs);
    CompleteSquare(m, n, Total(Same(), xs), d);
  }

  lemma CompleteSquare(m: real, n: real, s: real, d: real)
    requires s == m * n
    ensures Moved(m, d, s, n) == n * Square(m - d)
  {
    assert 2.0 * (m - d) * s == 2.0 * (m - d) * (m * n);
  }

  // Correctness.

  lemma MergedMean(p: real, q: real, a: real, b: real, n: real)
    requires n == a + b && n > 0.0
    ensures (p * a + q * b) / n == p + Pull(q - p, b, n)
  {
    assert p * a + q * b == p * n + (q - p) * b;
  }

  /** The cross term of a merge: a and b values whose means lie delta apart. */
  lemma MergedSquares(delta: real, a: real, b: real, n: real)
    requires n == a + b && n > 0.0
    ensures var shift := Pull(delta, b, n);
            a * Square(shift) + b * Square(delta - shift) == Between(delta, a, b, n)
  {
    var r := delta / n;
    assert delta == r * n;
    Cancel(r, b, n);
    Cancel(r * delta * a, b, n);
    assert delta * delta * a * b == r * delta * a * b * n;
    assert delta * b == r * b * n;
    assert delta - r * b == r * a;
    Cross(r, a, b);
  }

  lemma Cancel(x: real, y: real, n: real)
    requires n > 0.0
    ensures x * y * n / n == x * y
  {
  }

  lemma Cross(r: real, a: real, b: real)
    ensures a * ((r * b) * (r * b)) + b * ((r * a) * (r * a)) == r * (r * (a + b)) * a * b
  {
  }

  /** Merging the accumulators of two samples gives the accumulator of one followed by the other. */
  lemma CombinedIsExact(xs: seq<real>, ys: seq<real>)
    ensures Combined(MomentsOf(xs), MomentsOf(ys)) == MomentsOf(xs + ys)
  {
    if ys == [] {
      assert xs + ys == xs;
    } else {
      MergedMeanIsExact(xs, ys);
      MergedSquaresAreExact(xs, ys);
    }
  }

  lemma MergedMeanIsExact(xs: seq<real>, ys: seq<real>)
    requires ys != []
    ensures Mean(xs + ys) == Mean(xs) + Pull(Mean(ys) - Mean(xs), |ys| as real, |xs + ys| as real)
  {
    hide Total, Pull;
    TotalAppend(Same(), xs, ys);
    MeanTimesCount(xs);
    MeanTimesCount(ys);
    MergedMean(Mean(xs), Mean(ys), |xs| as real, |ys| as real, |xs + ys| as real);
  }

  lemma MergedSquaresAreExact(xs: seq<real>, ys: seq<real>)
    requires ys != []
    ensures var m := Mean(xs + ys);
            Total(SquareFrom(m), xs + ys) == Total(SquareFrom(Mean(xs)), xs) + Total(SquareFrom(Mean(ys)), ys)
              + Between(Mean(ys) - Mean(xs), |xs| as real, |ys| as real, |xs + ys| as real)
  {
    hide Total, Pull, Between, Mean, SquareFrom, Square;
    var a, b, n := |xs| as real, |ys| as real, |xs + ys| as real;
    var m, delta := Mean(xs + ys), Mean(ys) - Mean(xs);
    MergedMeanIsExact(xs, ys);
    TotalAppend(SquareFrom(m), xs, ys);
    FromTheMean(xs, m);
    FromTheMean(ys, m);
    MergedSquares(delta, a, b, n);
    var shift := Pull(delta, b, n);
    SquareOfNegative(Mean(xs) - m, shift);
    assert Mean(ys) - m == delta - shift;
  }

  lemma SquareOfNegative(x: real, y: real)
    requires x == -y
    ensures Square(x) == Square(y)
  {
  }

  lemma MomentsOfOne(v: real)
    ensures MomentsOf([v]) == Moments(v, 0.0, 1)
  {
    TotalOfOne(Same(), v);
    TotalOfOne(SquareFrom(v), v);
  }

  /** An update is a merge with an accumulator of one value. */
  lemma UpdateIsMerge(a: Moments, v: real)
    ensures Updated(a, v) == Combined(a, MomentsOf([v]))
  {
    MomentsOfOne(v);
    var n, delta := (a.count + 1) as real, v - a.mean;
    var r := delta / n;
    assert delta == r * n;
    Cancel(r * delta, a.count as real, n);
    assert delta - r == r * a.count as real;
  }

  lemma UpdatedIsExact(xs: seq<real>, v: real)
    ensures Updated(MomentsOf(xs), v) == MomentsOf(xs + [v])
  {
    UpdateIsMerge(MomentsOf(xs), v);
    CombinedIsExact(xs, [v]);
  }

  // Any way of splitting the work.

  datatype Plan = Start | Feed(plan: Plan, value: real) | Merge(left: Plan, right: Plan)

  /** What a plan of updates and merges computes. */
  function Carried(plan: Plan): Moments {
    match plan
    case Start => MomentsOf([])
    case Feed(p, v) => Updated(Carried(p), v)
    case Merge(l, r) => Combined(Carried(l), Carried(r))
  }

  function Values(plan: Plan): seq<real> {
    match plan
    case Start => []
    case Feed(p, v) => Values(p) + [v]
    case Merge(l, r) => Values(l) + Values(r)
  }

  lemma {:induction false} PlanIsExact(plan: Plan)
    ensures Carried(plan) == MomentsOf(Values(plan))
  {
    match plan
    case Start =>
    case Feed(p, v) =>
      PlanIsExact(p);
      UpdatedIsExact(Values(p), v);
    case Merge(l, r) =>
      PlanIsExact(l);
      PlanIsExact(r);
      CombinedIsExact(Values(l), Values(r));
  }

  /** However the same values are split, ordered and merged, the answer is the same. */
  lemma OneAnswer(p: Plan, q: Plan)
    requires multiset(Values(p)) == multiset(Values(q))
    ensures Carried(p) == Carried(q)
  {
    var xs, ys := Values(p), Values(q);
    PlanIsExact(p);
    PlanIsExact(q);
    assert |xs| == |multiset(xs)| == |ys|;
    TotalOfPermutation(Same(), xs, ys);
    TotalOfPermutation(SquareFrom(Mean(xs)), xs, ys);
  }

  lemma {:induction false} SquaresNonNegative(xs: seq<real>, c: real)
    ensures Total(SquareFrom(c), xs) >= 0.0
    ensures Total(SquareFrom(c), xs) == 0.0 <==> forall i :: 0 <= i < |xs| ==> xs[i] == c
  {
    hide SquareFrom;
    if xs != [] {
      SquaresNonNegative(xs[1..], c);
      SquareFromSign(xs[0], c);
      assert forall i :: 0 < i < |xs| ==> xs[i] == xs[1..][i - 1];
      if forall i :: 0 <= i < |xs| ==> xs[i] == c {
        assert Total(SquareFrom(c), xs[1..]) == 0.0;
      }
    }
  }

  lemma SquareFromSign(x: real, c: real)
    ensures SquareFrom(c)(x) >= 0.0
    ensures SquareFrom(c)(x) == 0.0 <==> x == c
  {
    assert SquareFrom(c)(x) == Square(x - c);
    SquareSign(x - c);
  }

  lemma SquareSign(d: real)
    ensures Square(d) >= 0.0
    ensures Square(d) == 0.0 <==> d == 0.0
  {
    if d < 0.0 {
      PositiveSquare(-d);
      SquareOfNegative(d, -d);
    } else if d > 0.0 {
      PositiveSquare(d);
    }
  }

  lemma PositiveSquare(d: real)
    requires d > 0.0
    ensures Square(d) > 0.0
  {
    var inverse := 1.0 / d;
    assert Square(d) * inverse == d;
  }

  /** The variance is never negative, and vanishes exactly when all values agree. */
  lemma SpreadVanishes(plan: Plan)
    ensures Carried(plan).m2 >= 0.0
    ensures Carried(plan).m2 == 0.0 <==> forall x, y :: x in Values(plan) && y in Values(plan) ==> x == y
  {
    hide Total, Mean, SquareFrom, Carried, Values;
    var xs := Values(plan);
    PlanIsExact(plan);
    SquaresNonNegative(xs, Mean(xs));
    if forall x, y :: x in xs && y in xs ==> x == y {
      AllEqual(xs);
    }
  }

  lemma AllEqual(xs: seq<real>)
    requires forall x, y :: x in xs && y in xs ==> x == y
    ensures Total(SquareFrom(Mean(xs)), xs) == 0.0
  {
    hide Total, Mean, SquareFrom, Square;
    var m := Mean(xs);
    SquaresNonNegative(xs, m);
    if xs != [] {
      forall i | 0 <= i < |xs| ensures xs[i] == xs[0] {
        assert xs[i] in xs && xs[0] in xs;
      }
      SquaresNonNegative(xs, xs[0]);
      FromTheMean(xs, xs[0]);
      NothingLeft(Total(SquareFrom(m), xs), |xs| as real, m - xs[0]);
    }
  }

  lemma NothingLeft(m2: real, n: real, d: real)
    requires n > 0.0 && m2 >= 0.0 && m2 + n * Square(d) == 0.0
    ensures m2 == 0.0
  {
    SquareSign(d);
    assert n * Square(d) >= 0.0;
  }

  /** What the getters return once a plan has been carried out: nothing without data, else the average, the average
      squared distance from it, and the sum of squared distances over one less than the count. */
  lemma GettersReport(w: WelfordStdDev, plan: Plan)
    requires w.Value() == Carried(plan)
    ensures var xs := Values(plan);
            var m := Mean(xs);
            && w.GetMean() == (if xs == [] then None else Some(Total(Same(), xs) / |xs| as real))
            && w.GetVariancePopulation()
               == (if xs == [] then None else Some(Total(SquareFrom(m), xs) / |xs| as real))
            && w.GetVarianceSample()
               == (if |xs| <= 1 then None else Some(Total(SquareFrom(m), xs) / (|xs| - 1) as real))
  {
    hide Total, SquareFrom;
    PlanIsExact(plan);
  }
}

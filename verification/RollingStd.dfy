/** Rolling standard deviation: recomputed for each window, and by sliding two running sums.
    Results are the radicands; the square root taken of each is the same in both forms. */
module RollingStd {
  import opened Common
  import opened Welford

  const SIZE_MAX := 0xFFFF_FFFF_FFFF_FFFF

  /** The mean squared distance from the mean. */
  function Variance(w: seq<real>): (v: real)
    requires w != []
    ensures v >= 0.0
  {
    hide Total, SquareFrom, Mean;
    SquaresNonNegative(w, Mean(w));
    Quotient(MomentsOf(w).m2, |w| as real);
    MomentsOf(w).m2 / |w| as real
  }

  lemma Quotient(a: real, n: real)
    requires a >= 0.0 && n > 0.0
    ensures a / n >= 0.0
  {
  }

  /** The window of a period ending at i. */
  function Window(data: seq<real>, period: nat, i: nat): (w: seq<real>)
    requires 1 <= period <= i + 1 <= |data|
    ensures |w| == period
  {
    data[i + 1 - period..i + 1]
  }

  /** What belongs at i when periods below `least` are refused. None stands for NaN. */
  function Entry(data: seq<real>, period: nat, least: nat, i: nat): Option<real>
    requires i < |data| && least >= 1
  {
    if least <= period <= i + 1 then Some(Variance(Window(data, period, i))) else None
  }

  /** The results of a form that refuses periods below `least`. */
  ghost predicate Filled(result: seq<Option<real>>, data: seq<real>, period: nat, least: nat)
    requires least >= 1
  {
    |result| == |data| && forall i :: 0 <= i < |data| ==> result[i] == Entry(data, period, least, i)
  }

  /** period - 1 wraps for period 0, which leaves nothing to fill. */
  method RollingStd(data: seq<real>, period: nat) returns (result: seq<Option<real>>)
    requires |data| < 0x1_0000_0000_0000_0000
    ensures Filled(result, data, period, 1)
  {
    hide Variance;
    var out := new Option<real>[|data|](_ => None);
    if |data| >= period {
      var i := if period == 0 then SIZE_MAX else period - 1;
      while i < |data|
        invariant period <= i + 1
        invariant period > 0 ==> i <= |data|
        invariant forall k :: 0 <= k < i && k < |data| ==> out[k] == Entry(data, period, 1, k)
        invariant forall k :: i <= k < |data| ==> out[k] == None
      {
        out[i] := Some(Variance(Window(data, period, i)));
        i := i + 1;
      }
    }
    result := out[..];
  }

  method RollingStdOptimized(data: seq<real>, period: nat) returns (result: seq<Option<real>>)
    ensures Filled(result, data, period, 2)
  {
    hide Variance, Total, Window, Radicand;
    var out := new Option<real>[|data|](_ => None);
    if |data| < period || period <= 1 {
      return out[..];
    }
    var sum, sumSq := 0.0, 0.0;
    NoneYet(data);
    for i := 0 to period
      invariant Sums(data[..i], sum, sumSq)
      invariant forall k :: 0 <= k < |data| ==> out[k] == None
    {
      Grown(data[..i], data[i], sum, sumSq);
      assert data[..i + 1] == data[..i] + [data[i]];
      sum := sum + data[i];
      sumSq := sumSq + data[i] * data[i];
    }
    FirstWindow(data, period);
    RadicandIsVariance(data[..period], sum, sumSq);
    out[period - 1] := Some(Radicand(sum, sumSq, period));
    for i := period to |data|
      invariant Sums(Window(data, period, i - 1), sum, sumSq)
      invariant forall k :: 0 <= k < i ==> out[k] == Entry(data, period, 2, k)
      invariant forall k :: i <= k < |data| ==> out[k] == None
    {
      Slid(data, period, i, sum, sumSq);
      sum := sum + (data[i] - data[i - period]);
      sumSq := sumSq + (data[i] * data[i] - data[i - period] * data[i - period]);
      RadicandIsVariance(Window(data, period, i), sum, sumSq);
      out[i] := Some(Radicand(sum, sumSq, period));
    }
    result := out[..];
  }

  /** What is under the root: mean := sum / period, then the mean of squares less the square of the mean. */
  function Radicand(sum: real, sumSq: real, period: nat): real
    requires period > 0
  {
    var mean := sum / period as real;
    (sumSq - sum * mean) / period as real
  }

  /** The two running sums over a window. */
  ghost predicate Sums(w: seq<real>, sum: real, sumSq: real) {
    sum == Total(Same(), w) && sumSq == Total(SquareFrom(0.0), w)
  }

  lemma NoneYet(data: seq<real>)
    ensures Sums(data[..0], 0.0, 0.0)
  {
  }

  lemma FirstWindow(data: seq<real>, period: nat)
    requires 1 <= period <= |data|
    ensures Window(data, period, period - 1) == data[..period]
  {
  }

  lemma TermsAt(x: real)
    ensures Same()(x) == x && SquareFrom(0.0)(x) == x * x
  {
    assert SquareFrom(0.0)(x) == Square(x - 0.0) == Square(x);
  }

  lemma Grown(w: seq<real>, x: real, sum: real, sumSq: real)
    requires Sums(w, sum, sumSq)
    ensures Sums(w + [x], sum + x, sumSq + x * x)
  {
    hide Total, Same, SquareFrom;
    TotalAppend(Same(), w, [x]);
    TotalAppend(SquareFrom(0.0), w, [x]);
    TotalOfOne(Same(), x);
    TotalOfOne(SquareFrom(0.0), x);
    TermsAt(x);
  }

  /** Sliding by one: the new value comes in, the oldest goes out. */
  lemma Slid(data: seq<real>, period: nat, i: nat, sum: real, sumSq: real)
    requires 1 <= period <= i < |data| && Sums(Window(data, period, i - 1), sum, sumSq)
    ensures Sums(Window(data, period, i), sum + (data[i] - data[i - period]),
                 sumSq + (data[i] * data[i] - data[i - period] * data[i - period]))
  {
    hide Total, Same, SquareFrom;
    var oldest, newest := data[i - period], data[i];
    var middle := data[i - period + 1..i];
    assert Window(data, period, i - 1) == [oldest] + middle;
    assert Window(data, period, i) == middle + [newest];
    TotalAppend(Same(), [oldest], middle);
    TotalAppend(SquareFrom(0.0), [oldest], middle);
    TotalOfOne(Same(), oldest);
    TotalOfOne(SquareFrom(0.0), oldest);
    TermsAt(oldest);
    Grown(middle, newest, sum - oldest, sumSq - oldest * oldest);
  }

  /** The radicand of the sliding form is the variance of its window. */
  lemma RadicandIsVariance(w: seq<real>, sum: real, sumSq: real)
    requires w != [] && Sums(w, sum, sumSq)
    ensures Radicand(sum, sumSq, |w|) == Variance(w)
  {
    hide Total, Same, SquareFrom, Mean;
    var m, n := Mean(w), |w| as real;
    MeanTimesCount(w);
    FromTheMean(w, 0.0);
    Root(sum, sumSq, m, n, MomentsOf(w).m2);
  }

  lemma Root(sum: real, sumSq: real, m: real, n: real, m2: real)
    requires n > 0.0 && sum == m * n && sumSq == m2 + n * Square(m - 0.0)
    ensures (sumSq - sum * (sum / n)) / n == m2 / n
  {
    assert sum / n == m;
    assert sum * m == n * (m * m);
  }

  /** The results of the two methods are the same exactly when the period is not 1 or there are no data: period 1
      only the plain form answers, with zeros. */
  lemma FormsAgree(data: seq<real>, period: nat, plain: seq<Option<real>>, sliding: seq<Option<real>>)
    requires Filled(plain, data, period, 1) && Filled(sliding, data, period, 2)
    ensures plain == sliding <==> period != 1 || data == []
  {
    if period == 1 && data != [] {
      assert plain[0].Some? && sliding[0].None?;
    }
  }

  lemma PeriodOne(data: seq<real>, i: nat)
    requires i < |data|
    ensures Entry(data, 1, 1, i) == Some(0.0)
  {
    hide Total, Mean, SquareFrom;
    assert Window(data, 1, i) == [data[i]];
    MomentsOfOne(data[i]);
  }

  /** A window has no spread exactly when all its values agree. */
  lemma ZeroEntry(data: seq<real>, period: nat, i: nat)
    requires 2 <= period <= i + 1 <= |data|
    ensures Entry(data, period, 2, i) == Some(0.0)
       <==> forall j, k :: i + 1 - period <= j <= i && i + 1 - period <= k <= i ==> data[j] == data[k]
  {
    hide Total, Mean, SquareFrom;
    var w := Window(data, period, i);
    SquaresNonNegative(w, Mean(w));
    ZeroQuotient(MomentsOf(w).m2, period as real);
    if Entry(data, period, 2, i) == Some(0.0) {
      forall j, k | i + 1 - period <= j <= i && i + 1 - period <= k <= i ensures data[j] == data[k] {
        assert data[j] == w[j - (i + 1 - period)] && data[k] == w[k - (i + 1 - period)];
      }
    } else if forall j, k :: i + 1 - period <= j <= i && i + 1 - period <= k <= i ==> data[j] == data[k] {
      AllEqual(w);
    }
  }

  lemma ZeroQuotient(a: real, n: real)
    requires n > 0.0
    ensures a / n == 0.0 <==> a == 0.0
  {
  }
}

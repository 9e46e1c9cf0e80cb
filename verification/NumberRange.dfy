/** A set of numbers kept as a sorted list of intervals with a parallel index of their starts. */
module NumberRange {
  import opened Common

  /** An interval with the inclusion flags of its ends. */
  datatype Interval = Interval(start: real, end: real, includeStart: bool, includeEnd: bool)

  predicate Contains(r: Interval, x: real) {
    && (x > r.start || (x == r.start && r.includeStart))
    && (x < r.end || (x == r.end && r.includeEnd))
  }

  predicate NonEmpty(r: Interval) {
    r.start < r.end || (r.start == r.end && r.includeStart && r.includeEnd)
  }

  ghost predicate Covers(rs: seq<Interval>, x: real) {
    exists i :: 0 <= i < |rs| && Contains(rs[i], x)
  }

  /** A nonempty interval of the given style, with at least one end included (the default is both). */
  predicate Style(r: Interval, includeStart: bool, includeEnd: bool) {
    && (includeStart || includeEnd)
    && r.includeStart == includeStart && r.includeEnd == includeEnd
    && (if includeStart && includeEnd then r.start <= r.end else r.start < r.end)
  }

  ghost predicate Styled(rs: seq<Interval>, includeStart: bool, includeEnd: bool) {
    (includeStart || includeEnd) && forall i :: 0 <= i < |rs| ==> Style(rs[i], includeStart, includeEnd)
  }

  /** Sorted, disjoint and separated by gaps. */
  ghost predicate Separated(rs: seq<Interval>) {
    forall i, j :: 0 <= i < j < |rs| ==> rs[i].end < rs[j].start
  }

  ghost predicate SortedByStart(rs: seq<Interval>) {
    forall i, j :: 0 <= i < j < |rs| ==> rs[i].start <= rs[j].start
  }

  function Starts(rs: seq<Interval>): (s: seq<real>)
    ensures |s| == |rs| && forall i :: 0 <= i < |rs| ==> s[i] == rs[i].start
  {
    seq(|rs|, i requires 0 <= i < |rs| => rs[i].start)
  }

  ghost predicate Sorted(a: seq<real>) {
    forall i, j :: 0 <= i < j < |a| ==> a[i] <= a[j]
  }

  /** bisect.bisect_left: the first position whose element is not below x. */
  function BisectLeft(a: seq<real>, x: real): (k: nat)
    ensures k <= |a|
    ensures Sorted(a) ==> (forall i :: 0 <= i < k ==> a[i] < x) && (forall i :: k <= i < |a| ==> x <= a[i])
  {
    if a == [] || x <= a[0] then 0 else 1 + BisectLeft(a[1..], x)
  }

  /** bisect.bisect_right: the first position whose element is above x. */
  function BisectRight(a: seq<real>, x: real): (k: nat)
    ensures k <= |a|
    ensures Sorted(a) ==> (forall i :: 0 <= i < k ==> a[i] <= x) && (forall i :: k <= i < |a| ==> x < a[i])
  {
    if a == [] || x < a[0] then 0 else 1 + BisectRight(a[1..], x)
  }

  /** The test that makes _merge_ranges join two neighbours. */
  predicate Joins(c: Interval, n: Interval) {
    c.end >= n.start || (c.end == n.start && (c.includeEnd || n.includeStart))
  }

  function Join(c: Interval, n: Interval): Interval {
    var newStart, newEnd := RealMin(c.start, n.start), RealMax(c.end, n.end);
    Interval(newStart, newEnd,
             if c.start == newStart then c.includeStart else n.includeStart,
             if c.end == newEnd then c.includeEnd else n.includeEnd)
  }

  /** _merge_ranges from left to right. */
  function Merge(current: Interval, rest: seq<Interval>): seq<Interval>
    decreases |rest|
  {
    if rest == [] then [current]
    else if Joins(current, rest[0]) then Merge(Join(current, rest[0]), rest[1..])
    else [current] + Merge(rest[0], rest[1..])
  }

  function Merged(rs: seq<Interval>): seq<Interval> {
    if |rs| <= 1 then rs else Merge(rs[0], rs[1..])
  }

  function Insert(rs: seq<Interval>, r: Interval): seq<Interval> {
    var k := BisectLeft(Starts(rs), r.start);
    rs[..k] + [r] + rs[k..]
  }

  /** The list after add_range; a one-point interval without both ends adds nothing. */
  function Added(rs: seq<Interval>, r: Interval): seq<Interval> {
    if r.start > r.end || (r.start == r.end && !(r.includeStart && r.includeEnd)) then rs
    else if rs == [] then [r]
    else Merged(Insert(rs, r))
  }

  /** Nonempty intervals, sorted and separated: what every list of the class is, whatever the flags. */
  ghost predicate Ordered(rs: seq<Interval>) {
    Separated(rs) && forall i :: 0 <= i < |rs| ==> NonEmpty(rs[i])
  }

  class NumberRange {
    var ranges: seq<Interval>
    var starts: seq<real>

    constructor ()
      ensures ranges == [] && Valid()
    {
      ranges, starts := [], [];
    }

    ghost predicate Valid()
      reads this
    {
      starts == Starts(ranges) && Ordered(ranges)
    }

    /** Returns false where the source raises ValueError. */
    method AddRange(start: real, end: real, includeStart: bool, includeEnd: bool) returns (ok: bool)
      requires Valid()
      modifies this
      ensures Valid() && (ok <==> start <= end)
      ensures ranges == Added(old(ranges), Interval(start, end, includeStart, includeEnd))
    {
      hide NonEmpty, Separated, Merged, BisectLeft;
      AddedOrdered(ranges, Interval(start, end, includeStart, includeEnd));
      if start > end {
        return false;
      }
      ok := true;
      if start == end && !(includeStart && includeEnd) {
        return;
      }
      var newRange := Interval(start, end, includeStart, includeEnd);
      if ranges == [] {
        ranges := ranges + [newRange];
        starts := starts + [start];
        assert ranges == [newRange] == Added([], newRange);
        return;
      }
      var idx := BisectLeft(starts, start);
      ranges := ranges[..idx] + [newRange] + ranges[idx..];
      starts := starts[..idx] + [start] + starts[idx..];
      MergeRanges();
    }

    method MergeRanges()
      requires starts == Starts(ranges)
      modifies this
      ensures starts == Starts(ranges) && ranges == Merged(old(ranges))
    {
      if |ranges| <= 1 {
        return;
      }
      hide Joins, Join, Starts;
      var merged: seq<Interval>, mergedStarts: seq<real> := [], [];
      var current := ranges[0];
      for i := 1 to |ranges|
        invariant ranges == old(ranges) && mergedStarts == Starts(merged)
        invariant merged + Merge(current, ranges[i..]) == Merged(ranges)
      {
        var next := ranges[i];
        assert ranges[i..] == [next] + ranges[i + 1..];
        if Joins(current, next) {
          current := Join(current, next);
        } else {
          assert (merged + [current]) + Merge(next, ranges[i + 1..]) == merged + ([current] + Merge(next, ranges[i + 1..]));
          merged := merged + [current];
          mergedStarts := mergedStarts + [current.start];
          current := next;
        }
      }
      merged := merged + [current];
      mergedStarts := mergedStarts + [current.start];
      ranges, starts := merged, mergedStarts;
    }

    /** `x in self`: binary search on the starts, then a short scan. */
    method In(x: real) returns (found: bool)
      requires Valid()
      ensures found <==> Covers(ranges, x)
    {
      if ranges == [] {
        return false;
      }
      StartsSorted(ranges);
      var idx := BisectRight(starts, x) - 1;
      forall k | 0 <= k < idx ensures !Contains(ranges[k], x) {
        assert ranges[k].end < ranges[idx].start;
      }
      if idx < 0 {
        return false;
      }
      for i := idx to |ranges|
        invariant forall k :: 0 <= k < i ==> !Contains(ranges[k], x)
      {
        if ranges[i].start > x {
          break;
        }
        if Contains(ranges[i], x) {
          return true;
        }
      }
      return false;
    }
  }

  lemma CoversAppend(rs: seq<Interval>, r: Interval)
    ensures forall x :: Covers(rs + [r], x) <==> Covers(rs, x) || Contains(r, x)
  {
    forall x ensures Covers(rs + [r], x) <==> Covers(rs, x) || Contains(r, x) {
      if Covers(rs, x) {
        var i :| 0 <= i < |rs| && Contains(rs[i], x);
        assert (rs + [r])[i] == rs[i];
      }
      if Contains(r, x) {
        assert (rs + [r])[|rs|] == r;
      }
    }
  }

  lemma InsertCovers(rs: seq<Interval>, k: nat, r: Interval)
    requires k <= |rs|
    ensures forall x :: Covers(rs[..k] + [r] + rs[k..], x) <==> Covers(rs, x) || Contains(r, x)
  {
    var n := rs[..k] + [r] + rs[k..];
    forall x ensures Covers(n, x) <==> Covers(rs, x) || Contains(r, x) {
      if Covers(rs, x) {
        var i :| 0 <= i < |rs| && Contains(rs[i], x);
        assert n[if i < k then i else i + 1] == rs[i];
      }
      if Contains(r, x) {
        assert n[k] == r;
      }
      if Covers(n, x) {
        var i :| 0 <= i < |n| && Contains(n[i], x);
        if i < k {
          assert n[i] == rs[i];
        } else if i > k {
          assert n[i] == rs[i - 1];
        }
      }
    }
  }

  lemma InsertSorted(rs: seq<Interval>, k: nat, r: Interval)
    requires k <= |rs| && SortedByStart(rs)
    requires (forall i :: 0 <= i < k ==> rs[i].start < r.start) && (forall i :: k <= i < |rs| ==> r.start <= rs[i].start)
    ensures SortedByStart(rs[..k] + [r] + rs[k..])
  {
    var n := rs[..k] + [r] + rs[k..];
    forall i, j | 0 <= i < j < |n| ensures n[i].start <= n[j].start {
      assert n[i] == if i < k then rs[i] else if i == k then r else rs[i - 1];
      assert n[j] == if j < k then rs[j] else if j == k then r else rs[j - 1];
    }
  }

  lemma InsertStyled(rs: seq<Interval>, k: nat, r: Interval, includeStart: bool, includeEnd: bool)
    requires k <= |rs| && Styled(rs, includeStart, includeEnd) && Style(r, includeStart, includeEnd)
    ensures Styled(rs[..k] + [r] + rs[k..], includeStart, includeEnd)
  {
    hide Style;
    var n := rs[..k] + [r] + rs[k..];
    forall i | 0 <= i < |n| ensures Style(n[i], includeStart, includeEnd) {
      assert n[i] == if i < k then rs[i] else if i == k then r else rs[i - 1];
    }
  }

  /** Inserting at the bisected position keeps the starts sorted and the index in step. */
  lemma InsertKeepsOrder(rs: seq<Interval>, r: Interval)
    requires SortedByStart(rs)
    ensures SortedByStart(Insert(rs, r))
  {
    var k := BisectLeft(Starts(rs), r.start);
    assert Sorted(Starts(rs));
    hide BisectLeft;
    forall i | 0 <= i < |rs| ensures if i < k then rs[i].start < r.start else r.start <= rs[i].start {
      assert Starts(rs)[i] == rs[i].start;
    }
    InsertSorted(rs, k, r);
  }

  lemma StartsSorted(rs: seq<Interval>)
    requires Ordered(rs)
    ensures Sorted(Starts(rs)) && SortedByStart(rs)
  {
    forall i, j | 0 <= i < j < |rs| ensures rs[i].start <= rs[j].start {
      assert rs[i].end < rs[j].start;
    }
  }

  /** Merging a list sorted by start leaves proper, separated intervals. */
  lemma {:induction false} MergeOrdered(c: Interval, rest: seq<Interval>)
    requires SortedByStart([c] + rest) && forall i :: 0 <= i < |rest| ==> NonEmpty(rest[i])
    requires NonEmpty(c)
    ensures Ordered(Merge(c, rest)) && Merge(c, rest) != []
    ensures var first := Merge(c, rest)[0]; first.start == c.start && first.includeStart == c.includeStart
    decreases |rest|
  {
    if rest != [] {
      var n, tail := rest[0], rest[1..];
      assert ([c] + rest)[0] == c && ([c] + rest)[1] == n;
      forall i, j | 0 <= i < j < |[n] + tail| ensures ([n] + tail)[i].start <= ([n] + tail)[j].start {
        assert ([c] + rest)[i + 1] == ([n] + tail)[i] && ([c] + rest)[j + 1] == ([n] + tail)[j];
      }
      if Joins(c, n) {
        var j := Join(c, n);
        forall i, k | 0 <= i < k < |[j] + tail| ensures ([j] + tail)[i].start <= ([j] + tail)[k].start {
          assert ([n] + tail)[k] == ([j] + tail)[k];
          assert ([c] + rest)[k + 1] == ([n] + tail)[k];
          assert j.start == c.start && ([c] + rest)[0].start <= ([c] + rest)[k + 1].start;
          if i > 0 { assert ([n] + tail)[i] == ([j] + tail)[i]; }
        }
        MergeOrdered(j, tail);
      } else {
        MergeOrdered(n, tail);
        var m := Merge(n, tail);
        forall i | 0 <= i < |m| ensures c.end < m[i].start {
          if i > 0 { assert m[0].end < m[i].start; }
        }
      }
    }
  }

  lemma AddedOrdered(rs: seq<Interval>, r: Interval)
    requires Ordered(rs)
    ensures Ordered(Added(rs, r))
  {
    StartsSorted(rs);
    InsertKeepsOrder(rs, r);
    var n := Insert(rs, r);
    if |n| > 1 && NonEmpty(r) {
      hide Merge, BisectLeft, Starts;
      forall i | 0 <= i < |n| ensures NonEmpty(n[i]) {
        var k := BisectLeft(Starts(rs), r.start);
        assert n[i] == if i < k then rs[i] else if i == k then r else rs[i - 1];
      }
      assert n == [n[0]] + n[1..];
      MergeOrdered(n[0], n[1..]);
    }
  }

  /** Joining two neighbours of one style with an included end loses and invents nothing. */
  lemma JoinCovers(c: Interval, n: Interval, includeStart: bool, includeEnd: bool)
    requires Style(c, includeStart, includeEnd) && Style(n, includeStart, includeEnd)
    requires c.start <= n.start && Joins(c, n)
    ensures Style(Join(c, n), includeStart, includeEnd)
    ensures Join(c, n).start == c.start
    ensures forall x :: Contains(Join(c, n), x) <==> Contains(c, x) || Contains(n, x)
  {
  }

  /** For one style of flags, merging keeps the style and the numbers covered. */
  lemma {:induction false} MergeCovers(c: Interval, rest: seq<Interval>, includeStart: bool, includeEnd: bool)
    requires SortedByStart([c] + rest) && Style(c, includeStart, includeEnd) && Styled(rest, includeStart, includeEnd)
    ensures Styled(Merge(c, rest), includeStart, includeEnd)
    ensures forall x :: Covers(Merge(c, rest), x) <==> Contains(c, x) || Covers(rest, x)
    decreases |rest|
  {
    if rest == [] {
      assert Merge(c, rest)[0] == c;
      assert forall x :: Covers([c], x) <==> Contains(c, x) by { CoversAppend([], c); assert [] + [c] == [c]; }
    } else {
      var n, tail := rest[0], rest[1..];
      assert ([c] + rest)[0] == c && ([c] + rest)[1] == n;
      assert Style(rest[0], includeStart, includeEnd);
      hide Style, Contains, Joins, Join;
      forall x ensures Covers(rest, x) <==> Contains(n, x) || Covers(tail, x) {
        CoversFirst(rest, x);
      }
      if Joins(c, n) {
        JoinCovers(c, n, includeStart, includeEnd);
        forall i, k | 0 <= i < k < |[Join(c, n)] + tail|
          ensures ([Join(c, n)] + tail)[i].start <= ([Join(c, n)] + tail)[k].start
        {
          assert ([c] + rest)[k + 1] == ([Join(c, n)] + tail)[k];
          if i > 0 { assert ([c] + rest)[i + 1] == ([Join(c, n)] + tail)[i]; }
        }
        MergeCovers(Join(c, n), tail, includeStart, includeEnd);
      } else {
        assert [n] + tail == ([c] + rest)[1..];
        MergeCovers(n, tail, includeStart, includeEnd);
        var m := Merge(n, tail);
        forall x ensures Covers([c] + m, x) <==> Contains(c, x) || Covers(m, x) {
          CoversFirst([c] + m, x);
          assert ([c] + m)[1..] == m;
        }
      }
    }
  }

  /** For one style of flags, add_range adds exactly the numbers of the new interval. */
  lemma AddedCovers(rs: seq<Interval>, r: Interval)
    requires Ordered(rs) && (r.includeStart || r.includeEnd) && Styled(rs, r.includeStart, r.includeEnd)
    ensures Styled(Added(rs, r), r.includeStart, r.includeEnd)
    ensures forall x :: Covers(Added(rs, r), x) <==> Covers(rs, x) || Contains(r, x)
  {
    if Style(r, r.includeStart, r.includeEnd) {
      StartsSorted(rs);
      InsertKeepsOrder(rs, r);
      var k := BisectLeft(Starts(rs), r.start);
      InsertStyled(rs, k, r, r.includeStart, r.includeEnd);
      InsertCovers(rs, k, r);
      CoversAppend([], r);
      assert [] + [r] == [r];
      hide Merge, BisectLeft, Contains, Style, Starts;
      var n := Insert(rs, r);
      if |n| > 1 {
        assert n == [n[0]] + n[1..];
        MergeCovers(n[0], n[1..], r.includeStart, r.includeEnd);
        forall x ensures Covers(n, x) <==> Contains(n[0], x) || Covers(n[1..], x) {
          CoversFirst(n, x);
        }
      }
    }
  }

  // The list is a canonical form.

  lemma {:induction false} CoversFirst(rs: seq<Interval>, x: real)
    ensures Covers(rs, x) <==> rs != [] && (Contains(rs[0], x) || Covers(rs[1..], x))
  {
    if rs != [] {
      if Covers(rs, x) {
        var i :| 0 <= i < |rs| && Contains(rs[i], x);
        if i > 0 { assert rs[1..][i - 1] == rs[i]; }
      }
      if Covers(rs[1..], x) {
        var i :| 0 <= i < |rs[1..]| && Contains(rs[1..][i], x);
        assert rs[i + 1] == rs[1..][i];
      }
      if Contains(rs[0], x) { assert 0 <= 0 < |rs|; }
    }
  }

  lemma StyledOrdered(rs: seq<Interval>, includeStart: bool, includeEnd: bool)
    requires Styled(rs, includeStart, includeEnd) && Separated(rs)
    ensures Ordered(rs)
  {
    forall i | 0 <= i < |rs| ensures rs[i].start <= rs[i].end {
      assert Style(rs[i], includeStart, includeEnd);
    }
  }

  lemma NothingBefore(a: seq<Interval>, x: real, includeStart: bool, includeEnd: bool)
    requires a != [] && Styled(a, includeStart, includeEnd) && Separated(a)
    requires x < a[0].start || (x == a[0].start && !includeStart)
    ensures !Covers(a, x)
  {
    StyledOrdered(a, includeStart, includeEnd);
    StartsSorted(a);
    forall i | 0 <= i < |a| ensures !Contains(a[i], x) {
      assert Style(a[i], includeStart, includeEnd) && a[0].start <= a[i].start;
    }
  }

  lemma NothingInGap(a: seq<Interval>, x: real, includeStart: bool, includeEnd: bool)
    requires a != [] && Styled(a, includeStart, includeEnd) && Separated(a)
    requires a[0].end < x && (|a| > 1 ==> x < a[1].start)
    ensures !Covers(a, x)
  {
    StyledOrdered(a, includeStart, includeEnd);
    StartsSorted(a);
    forall i | 0 <= i < |a| ensures !Contains(a[i], x) {
      if i >= 1 { assert a[1].start <= a[i].start; }
    }
  }

  lemma NothingTwice(a: seq<Interval>, x: real)
    requires a != [] && Separated(a) && Contains(a[0], x)
    ensures !Covers(a[1..], x)
  {
    forall i | 0 <= i < |a[1..]| ensures !Contains(a[1..][i], x) {
      assert a[1..][i] == a[i + 1] && a[0].end < a[i + 1].start;
    }
  }

  /** The first interval of b starts no earlier than a's: a would miss a point of it. */
  lemma FirstsAgree(a: seq<Interval>, b: seq<Interval>, includeStart: bool, includeEnd: bool)
    requires a != [] && b != []
    requires Styled(a, includeStart, includeEnd) && Separated(a) && Styled(b, includeStart, includeEnd) && Separated(b)
    requires forall x :: Covers(a, x) <==> Covers(b, x)
    ensures a[0].start <= b[0].start
  {
    if b[0].start < a[0].start {
      assert Style(b[0], includeStart, includeEnd);
      var x := if includeStart then b[0].start
               else if b[0].end <= a[0].start then b[0].end else (b[0].start + a[0].start) / 2.0;
      assert Covers(b, x) by { assert Contains(b[0], x); }
      NothingBefore(a, x, includeStart, includeEnd);
    }
  }

  /** Nor does a's first interval end later: b leaves a gap there. */
  lemma EndsAgree(a: seq<Interval>, b: seq<Interval>, includeStart: bool, includeEnd: bool)
    requires a != [] && b != []
    requires Styled(a, includeStart, includeEnd) && Separated(a) && Styled(b, includeStart, includeEnd) && Separated(b)
    requires forall x :: Covers(a, x) <==> Covers(b, x)
    requires a[0].start == b[0].start
    ensures a[0].end <= b[0].end
  {
    if b[0].end < a[0].end {
      assert Style(b[0], includeStart, includeEnd);
      var bound := if |b| > 1 then RealMin(a[0].end, b[1].start) else a[0].end;
      var x := (b[0].end + bound) / 2.0;
      assert Covers(a, x) by { assert Contains(a[0], x); }
      NothingInGap(b, x, includeStart, includeEnd);
    }
  }

  lemma RestsAgree(a: seq<Interval>, b: seq<Interval>)
    requires a != [] && b != [] && a[0] == b[0] && Separated(a) && Separated(b)
    requires forall x :: Covers(a, x) <==> Covers(b, x)
    ensures forall x :: Covers(a[1..], x) <==> Covers(b[1..], x)
  {
    forall x ensures Covers(a[1..], x) <==> Covers(b[1..], x) {
      CoversFirst(a, x);
      CoversFirst(b, x);
      if Contains(a[0], x) {
        NothingTwice(a, x);
        NothingTwice(b, x);
      }
    }
  }

  /** Two separated lists of one style that cover the same numbers are the same list. */
  lemma {:induction false} Canonical(a: seq<Interval>, b: seq<Interval>, includeStart: bool, includeEnd: bool)
    requires Styled(a, includeStart, includeEnd) && Separated(a) && Styled(b, includeStart, includeEnd) && Separated(b)
    requires forall x :: Covers(a, x) <==> Covers(b, x)
    ensures a == b
  {
    if a == [] && b == [] {
    } else if a == [] {
      SomethingCovered(b, includeStart, includeEnd);
    } else if b == [] {
      SomethingCovered(a, includeStart, includeEnd);
    } else {
      FirstsAgree(a, b, includeStart, includeEnd);
      FirstsAgree(b, a, includeStart, includeEnd);
      EndsAgree(a, b, includeStart, includeEnd);
      EndsAgree(b, a, includeStart, includeEnd);
      RestsAgree(a, b);
      assert Style(a[0], includeStart, includeEnd) && Style(b[0], includeStart, includeEnd);
      Canonical(a[1..], b[1..], includeStart, includeEnd);
      assert a == [a[0]] + a[1..] && b == [b[0]] + b[1..];
    }
  }

  lemma SomethingCovered(a: seq<Interval>, includeStart: bool, includeEnd: bool)
    requires a != [] && Styled(a, includeStart, includeEnd)
    ensures exists x :: Covers(a, x)
  {
    var x := if includeStart then a[0].start else a[0].end;
    assert Style(a[0], includeStart, includeEnd);
    assert Contains(a[0], x);
    assert Covers(a, x);
  }

  // Whole runs of add_range calls.

  /** The list after a run of calls on an empty set. */
  function Built(calls: seq<Interval>): seq<Interval> {
    if calls == [] then [] else Added(Built(calls[..|calls| - 1]), calls[|calls| - 1])
  }

  ghost predicate SameFlags(calls: seq<Interval>, includeStart: bool, includeEnd: bool) {
    (includeStart || includeEnd) &&
    forall i :: 0 <= i < |calls| ==> calls[i].includeStart == includeStart && calls[i].includeEnd == includeEnd
  }

  /** After any run with one style of flags, membership is the plain union of everything added. */
  lemma {:induction false} BuiltIsUnion(calls: seq<Interval>, includeStart: bool, includeEnd: bool)
    requires SameFlags(calls, includeStart, includeEnd)
    ensures Ordered(Built(calls)) && Styled(Built(calls), includeStart, includeEnd)
    ensures forall x :: Covers(Built(calls), x) <==> Covers(calls, x)
  {
    if calls != [] {
      var n := |calls| - 1;
      BuiltIsUnion(calls[..n], includeStart, includeEnd);
      hide Added, Contains;
      AddedOrdered(Built(calls[..n]), calls[n]);
      AddedCovers(Built(calls[..n]), calls[n]);
      CoversAppend(calls[..n], calls[n]);
      assert calls == calls[..n] + [calls[n]];
    }
  }

  /** The final list is the same for every order of the calls. */
  lemma OrderIrrelevant(calls: seq<Interval>, others: seq<Interval>, includeStart: bool, includeEnd: bool)
    requires SameFlags(calls, includeStart, includeEnd) && multiset(calls) == multiset(others)
    ensures Built(calls) == Built(others)
  {
    forall r ensures r in calls <==> r in others {
      assert r in multiset(calls) <==> r in multiset(others);
    }
    forall i | 0 <= i < |others|
      ensures others[i].includeStart == includeStart && others[i].includeEnd == includeEnd
    {
      assert others[i] in calls;
    }
    BuiltIsUnion(calls, includeStart, includeEnd);
    BuiltIsUnion(others, includeStart, includeEnd);
    SameMembersCover(calls, others);
    Canonical(Built(calls), Built(others), includeStart, includeEnd);
  }

  lemma SameMembersCover(a: seq<Interval>, b: seq<Interval>)
    requires forall r :: r in a <==> r in b
    ensures forall x :: Covers(a, x) <==> Covers(b, x)
  {
    forall x ensures Covers(a, x) <==> Covers(b, x) {
      if Covers(a, x) {
        var i :| 0 <= i < |a| && Contains(a[i], x);
        assert a[i] in b;
      }
      if Covers(b, x) {
        var i :| 0 <= i < |b| && Contains(b[i], x);
        assert b[i] in a;
      }
    }
  }

  /** Joining is exact precisely when the touching point and the shared ends are covered by a
      neighbour; for open intervals that touch it is not, and mixed flags can lose an end. */
  lemma JoinExact(c: Interval, n: Interval)
    requires NonEmpty(c) && NonEmpty(n) && c.start <= n.start && Joins(c, n)
    ensures (forall x :: Contains(Join(c, n), x) <==> Contains(c, x) || Contains(n, x)) <==>
              && (c.end == n.start ==> c.includeEnd || n.includeStart)
              && (c.start == n.start ==> n.includeStart ==> c.includeStart)
              && (c.end == n.end ==> n.includeEnd ==> c.includeEnd)
  {
    var j := Join(c, n);
    if forall x :: Contains(j, x) <==> Contains(c, x) || Contains(n, x) {
      assert Contains(j, n.start) <==> Contains(c, n.start) || Contains(n, n.start);
      assert Contains(j, n.end) <==> Contains(c, n.end) || Contains(n, n.end);
    }
  }
}

/** When add_range keeps exactly the numbers of the set and of the added range, whatever the flags. */
module NumberRangeExactness {
  import opened Common
  import opened NumberRange

  /** A list covers the numbers of another list and of one more interval, and no others. */
  ghost predicate Exact(result: seq<Interval>, rs: seq<Interval>, r: Interval) {
    forall x :: Covers(result, x) <==> Covers(rs, x) || Contains(r, x)
  }

  /** What joining c with a later interval n keeps: a touching point that one of them includes, and the ends
      they share, where the flags of c win. */
  predicate Fits(c: Interval, n: Interval) {
    && (c.end == n.start ==> c.includeEnd || n.includeStart)
    && (c.start == n.start ==> n.includeStart ==> c.includeStart)
    && (c.end == n.end ==> n.includeEnd ==> c.includeEnd)
  }

  ghost predicate FitsAll(c: Interval, rest: seq<Interval>) {
    forall i :: 0 <= i < |rest| ==> Fits(c, rest[i])
  }

  /** The new interval r against one of the list, sorted before it or, on an equal start, behind it. */
  predicate Compatible(own: Interval, r: Interval) {
    if own.start < r.start then Fits(own, r) else Fits(r, own)
  }

  /** Nothing is joined in a separated list. */
  lemma {:induction false} MergeSeparated(n: Interval, rest: seq<Interval>)
    requires Separated([n] + rest)
    ensures Merge(n, rest) == [n] + rest
    decreases |rest|
  {
    if rest != [] {
      assert ([n] + rest)[0] == n && ([n] + rest)[1] == rest[0];
      assert [rest[0]] + rest[1..] == rest;
      SeparatedTail([n] + rest);
      assert ([n] + rest)[1..] == rest;
      MergeSeparated(rest[0], rest[1..]);
    }
  }

  lemma SeparatedTail(rs: seq<Interval>)
    requires rs != [] && Separated(rs)
    ensures Separated(rs[1..])
    ensures forall i :: 0 <= i < |rs[1..]| ==> rs[0].end < rs[1..][i].start
  {
  }

  /** What is merged into an interval begins where the interval does. */
  lemma MergeFirst(c: Interval, rest: seq<Interval>, x: real)
    requires NonEmpty(c) && Ordered(rest) && (forall i :: 0 <= i < |rest| ==> c.start <= rest[i].start)
    requires x < c.start || (x == c.start && !c.includeStart)
    ensures !Covers(Merge(c, rest), x)
  {
    forall i, j | 0 <= i < j < |[c] + rest| ensures ([c] + rest)[i].start <= ([c] + rest)[j].start {
      if i > 0 { assert rest[i - 1].end < rest[j - 1].start; }
    }
    MergeOrdered(c, rest);
    var m := Merge(c, rest);
    forall i | 0 <= i < |m| ensures !Contains(m[i], x) {
      if i > 0 { assert m[0].end < m[i].start; }
    }
  }

  lemma CoversOne(c: Interval, rest: seq<Interval>, x: real)
    ensures Covers([c] + rest, x) <==> Contains(c, x) || Covers(rest, x)
  {
    CoversFirst([c] + rest, x);
    assert ([c] + rest)[1..] == rest;
  }

  /** Merging one interval into the separated ones behind it is exact if and only if it fits all of them. */
  lemma {:induction false} MergeExact(c: Interval, rest: seq<Interval>)
    requires NonEmpty(c) && Ordered(rest) && forall i :: 0 <= i < |rest| ==> c.start <= rest[i].start
    ensures Exact(Merge(c, rest), rest, c) <==> FitsAll(c, rest)
    ensures forall x :: c.start < x < c.end ==> Covers(Merge(c, rest), x)
    decreases |rest|
  {
    if rest == [] {
      forall x ensures Covers(Merge(c, rest), x) <==> Covers(rest, x) || Contains(c, x) {
        CoversOne(c, [], x);
        assert [c] + [] == [c];
      }
    } else {
      var n, tail := rest[0], rest[1..];
      SeparatedTail(rest);
      assert [n] + tail == rest;
      if c.end < n.start {
        MergeApart(c, rest);
      } else if n.end <= c.end {
        MergeExact(c, tail);
        MergeInside(c, rest);
      } else {
        MergeBeyond(c, rest);
      }
    }
  }

  /** The interval ends before the others begin. */
  lemma MergeApart(c: Interval, rest: seq<Interval>)
    requires NonEmpty(c) && Ordered(rest) && rest != [] && c.end < rest[0].start
    ensures Exact(Merge(c, rest), rest, c) && FitsAll(c, rest)
    ensures forall x :: c.start < x < c.end ==> Covers(Merge(c, rest), x)
  {
    assert [rest[0]] + rest[1..] == rest;
    MergeSeparated(rest[0], rest[1..]);
    assert Merge(c, rest) == [c] + rest;
    forall x ensures Covers([c] + rest, x) <==> Contains(c, x) || Covers(rest, x) {
      CoversOne(c, rest, x);
    }
    forall i | 0 <= i < |rest| ensures Fits(c, rest[i]) {
      if i > 0 { assert rest[0].end < rest[i].start; }
    }
  }

  /** The first of the others lies inside the interval. */
  lemma MergeInside(c: Interval, rest: seq<Interval>)
    requires NonEmpty(c) && Ordered(rest) && rest != [] && c.start <= rest[0].start && rest[0].end <= c.end
    requires Exact(Merge(c, rest[1..]), rest[1..], c) <==> FitsAll(c, rest[1..])
    requires forall x :: c.start < x < c.end ==> Covers(Merge(c, rest[1..]), x)
    ensures Merge(c, rest) == Merge(c, rest[1..])
    ensures Exact(Merge(c, rest), rest, c) <==> FitsAll(c, rest)
  {
    var n, tail := rest[0], rest[1..];
    SeparatedTail(rest);
    assert Join(c, n) == c && Joins(c, n);
    var m := Merge(c, tail);
    assert FitsAll(c, rest) <==> Fits(c, n) && FitsAll(c, tail) by { FitsFirst(c, rest); }
    forall x ensures Covers(rest, x) <==> Contains(n, x) || Covers(tail, x) {
      CoversFirst(rest, x);
    }
    if Fits(c, n) {
      assert forall x :: Contains(n, x) ==> Contains(c, x);
    } else {
      InsideMissed(c, rest);
    }
  }

  lemma FitsFirst(c: Interval, rest: seq<Interval>)
    requires rest != []
    ensures FitsAll(c, rest) <==> Fits(c, rest[0]) && FitsAll(c, rest[1..])
  {
    assert forall i :: 0 < i < |rest| ==> rest[i] == rest[1..][i - 1];
  }

  lemma InsideMissed(c: Interval, rest: seq<Interval>)
    requires NonEmpty(c) && Ordered(rest) && rest != [] && c.start <= rest[0].start && rest[0].end <= c.end
    requires !Fits(c, rest[0])
    ensures exists x :: Contains(rest[0], x) && !Covers(Merge(c, rest[1..]), x)
  {
    var n, tail := rest[0], rest[1..];
    SeparatedTail(rest);
    if c.start == n.start && n.includeStart && !c.includeStart {
      MergeFirst(c, tail, c.start);
      assert Contains(n, c.start);
    } else {
      var x := c.end;
      assert c.end == n.end && n.includeEnd && !c.includeEnd;
      assert Contains(n, x);
      NotBehind(c, tail, x);
    }
  }

  lemma NotBehind(c: Interval, tail: seq<Interval>, x: real)
    requires x == c.end && !c.includeEnd && Separated(tail) && forall i :: 0 <= i < |tail| ==> x < tail[i].start
    ensures !Covers(Merge(c, tail), x)
  {
    if tail == [] {
      CoversOne(c, [], x);
      assert [c] + [] == [c];
    } else {
      assert [tail[0]] + tail[1..] == tail;
      MergeSeparated(tail[0], tail[1..]);
      CoversOne(c, tail, x);
    }
  }

  /** The first of the others ends beyond the interval. */
  lemma MergeBeyond(c: Interval, rest: seq<Interval>)
    requires NonEmpty(c) && Ordered(rest) && rest != []
    requires c.start <= rest[0].start <= c.end < rest[0].end
    ensures Exact(Merge(c, rest), rest, c) <==> FitsAll(c, rest)
    ensures forall x :: c.start < x < c.end ==> Covers(Merge(c, rest), x)
  {
    var n, tail := rest[0], rest[1..];
    var j := Join(c, n);
    SeparatedTail(rest);
    if tail != [] {
      assert [tail[0]] + tail[1..] == tail;
      MergeSeparated(tail[0], tail[1..]);
    }
    assert Merge(c, rest) == [j] + tail;
    FitsFirst(c, rest);
    forall i | 0 <= i < |tail| ensures Fits(c, tail[i]) {}
    forall x
      ensures Covers([j] + tail, x) <==> Contains(j, x) || Covers(tail, x)
      ensures Covers(rest, x) <==> Contains(n, x) || Covers(tail, x)
    {
      CoversOne(j, tail, x);
      CoversFirst(rest, x);
    }
    if Fits(c, n) {
      assert forall x :: Contains(j, x) <==> Contains(c, x) || Contains(n, x);
    } else {
      var x := n.start;
      assert Contains(j, x) != (Contains(c, x) || Contains(n, x));
      forall i | 0 <= i < |tail| ensures !Contains(tail[i], x) {}
    }
  }

  /** Intervals that end before the next one begins pass through. */
  lemma {:induction false} MergePast(pre: seq<Interval>, p: Interval, rest: seq<Interval>)
    requires pre != [] && Separated(pre + [p])
    ensures Merge(pre[0], pre[1..] + ([p] + rest)) == pre + Merge(p, rest)
    decreases |pre|
  {
    var tail := pre[1..];
    assert (pre + [p])[0] == pre[0] && (pre + [p])[|pre|] == p;
    if tail == [] {
      assert [] + ([p] + rest) == [p] + rest && ([p] + rest)[1..] == rest;
      assert pre == [pre[0]];
    } else {
      assert (pre + [p])[1..] == tail + [p] && (pre + [p])[1] == tail[0];
      MergePast(tail, p, rest);
      var l := tail + ([p] + rest);
      assert l[0] == tail[0] && l[1..] == tail[1..] + ([p] + rest);
      assert [pre[0]] + (tail + Merge(p, rest)) == pre + Merge(p, rest);
    }
  }

  lemma MergedPast(pre: seq<Interval>, p: Interval, rest: seq<Interval>)
    requires Separated(pre + [p])
    ensures Merged(pre + ([p] + rest)) == pre + Merge(p, rest)
  {
    var l := pre + ([p] + rest);
    if pre == [] {
      assert l[0] == p && l[1..] == rest;
    } else {
      assert l[0] == pre[0] && l[1..] == pre[1..] + ([p] + rest);
      MergePast(pre, p, rest);
    }
  }

  lemma CoversBoth(a: seq<Interval>, b: seq<Interval>, x: real)
    ensures Covers(a + b, x) <==> Covers(a, x) || Covers(b, x)
  {
    if Covers(a, x) {
      var i :| 0 <= i < |a| && Contains(a[i], x);
      assert (a + b)[i] == a[i];
    }
    if Covers(b, x) {
      var i :| 0 <= i < |b| && Contains(b[i], x);
      assert (a + b)[|a| + i] == b[i];
    }
    if Covers(a + b, x) {
      var i :| 0 <= i < |a + b| && Contains((a + b)[i], x);
      if i < |a| { assert a[i] == (a + b)[i]; } else { assert b[i - |a|] == (a + b)[i]; }
    }
  }

  /** Numbers below everything new do not matter. */
  lemma PrefixExact(pre: seq<Interval>, m: seq<Interval>, rest: seq<Interval>, r: Interval)
    requires forall x :: Covers(pre, x) ==> !Covers(m, x) && !Covers(rest, x) && !Contains(r, x)
    ensures Exact(pre + m, pre + rest, r) <==> Exact(m, rest, r)
  {
    forall x
      ensures Covers(pre + m, x) <==> Covers(pre, x) || Covers(m, x)
      ensures Covers(pre + rest, x) <==> Covers(pre, x) || Covers(rest, x)
    {
      CoversBoth(pre, m, x);
      CoversBoth(pre, rest, x);
    }
    if !Exact(m, rest, r) {
      var x :| Covers(m, x) != (Covers(rest, x) || Contains(r, x));
      assert Covers(pre + m, x) != (Covers(pre + rest, x) || Contains(r, x));
    }
  }

  ghost predicate AllCompatible(rs: seq<Interval>, r: Interval) {
    forall i :: 0 <= i < |rs| ==> Compatible(rs[i], r)
  }

  /** All intervals end before x, or all begin at x or later. */
  ghost predicate Below(rs: seq<Interval>, x: real) { forall i :: 0 <= i < |rs| ==> rs[i].end < x }
  ghost predicate From(rs: seq<Interval>, x: real) { forall i :: 0 <= i < |rs| ==> x <= rs[i].start }

  lemma CompatibleBoth(a: seq<Interval>, b: seq<Interval>, r: Interval)
    ensures AllCompatible(a + b, r) <==> AllCompatible(a, r) && AllCompatible(b, r)
  {
    hide Compatible;
    if AllCompatible(a + b, r) {
      forall i | 0 <= i < |a| ensures Compatible(a[i], r) { assert (a + b)[i] == a[i]; }
      forall i | 0 <= i < |b| ensures Compatible(b[i], r) { assert (a + b)[|a| + i] == b[i]; }
    }
  }

  lemma CompatibleOne(p: Interval, r: Interval)
    ensures AllCompatible([p], r) <==> Compatible(p, r)
  {
    assert [p][0] == p;
  }

  /** Intervals below r, or above it and separated from it, are compatible with it. */
  lemma CompatibleApart(rs: seq<Interval>, r: Interval, x: real)
    requires NonEmpty(r) && forall i :: 0 <= i < |rs| ==> NonEmpty(rs[i])
    ensures Below(rs, r.start) ==> AllCompatible(rs, r)
    ensures From(rs, x) && x > r.end ==> AllCompatible(rs, r)
    ensures From(rs, r.start) ==> (AllCompatible(rs, r) <==> FitsAll(r, rs))
  {
  }

  lemma OrderedBoth(a: seq<Interval>, b: seq<Interval>)
    requires Ordered(a + b)
    ensures Ordered(a) && Ordered(b)
    ensures forall i, j :: 0 <= i < |a| && 0 <= j < |b| ==> a[i].end < b[j].start
  {
    hide NonEmpty;
    forall i | 0 <= i < |a| ensures a[i] == (a + b)[i] {}
    forall j | 0 <= j < |b| ensures b[j] == (a + b)[|a| + j] {}
  }

  lemma BelowMisses(pre: seq<Interval>, y: real, x: real)
    requires Below(pre, y) && Covers(pre, x)
    ensures x < y
  {
  }

  lemma FromMisses(rest: seq<Interval>, y: real, x: real)
    requires From(rest, y) && x < y
    ensures !Covers(rest, x)
  {
  }

  /** add_range is exact if and only if the new range is compatible with every range of the list; an empty range
      always is. */
  lemma AddedExact(rs: seq<Interval>, r: Interval)
    requires Ordered(rs)
    ensures Exact(Added(rs, r), rs, r) <==> (NonEmpty(r) ==> AllCompatible(rs, r))
  {
    if !NonEmpty(r) {
      assert Added(rs, r) == rs;
    } else if rs == [] {
      CoversNothing(r);
    } else {
      hide Merged, Exact, AllCompatible, NonEmpty;
      var pre, rest := AddedWhere(rs, r);
      if pre == [] || pre[|pre| - 1].end < r.start {
        AddedApart(pre, rest, r);
      } else {
        var k := |pre| - 1;
        assert pre == pre[..k] + [pre[k]];
        if r.end <= pre[k].end {
          AddedInside(pre[..k], pre[k], rest, r);
        } else {
          AddedBeyond(pre[..k], pre[k], rest, r);
        }
      }
    }
  }

  lemma CoversNothing(r: Interval)
    ensures Exact([r], [], r)
  {
    forall x ensures Covers([r], x) <==> Contains(r, x) {
      CoversOne(r, [], x);
      assert [r] + [] == [r];
    }
  }

  /** Where bisect_left puts the new interval. */
  lemma AddedWhere(rs: seq<Interval>, r: Interval) returns (pre: seq<Interval>, rest: seq<Interval>)
    requires Ordered(rs) && NonEmpty(r) && rs != []
    ensures rs == pre + rest && Added(rs, r) == Merged(pre + ([r] + rest))
    ensures From(rest, r.start) && forall i :: 0 <= i < |pre| ==> pre[i].start < r.start
  {
    hide Merged, NonEmpty, BisectLeft;
    StartsSorted(rs);
    var k := BisectLeft(Starts(rs), r.start);
    pre, rest := rs[..k], rs[k..];
    forall i | 0 <= i < k ensures pre[i].start < r.start { assert Starts(rs)[i] < r.start; }
    forall i | 0 <= i < |rest| ensures r.start <= rest[i].start { assert r.start <= Starts(rs)[k + i]; }
    assert pre + [r] + rest == pre + ([r] + rest);
    assert Added(rs, r) == Merged(Insert(rs, r)) by { NotEmpty(r); }
  }

  lemma NotEmpty(r: Interval)
    requires NonEmpty(r)
    ensures !(r.start > r.end || (r.start == r.end && !(r.includeStart && r.includeEnd)))
  {
  }

  /** The new interval reaches nothing before it. */
  lemma AddedApart(pre: seq<Interval>, rest: seq<Interval>, r: Interval)
    requires Ordered(pre + rest) && NonEmpty(r) && From(rest, r.start)
    requires pre == [] || pre[|pre| - 1].end < r.start
    ensures Exact(Merged(pre + ([r] + rest)), pre + rest, r) <==> AllCompatible(pre + rest, r)
  {
    OrderedBoth(pre, rest);
    EndsBelow(pre, r.start);
    forall i, j | 0 <= i < j < |pre + [r]| ensures (pre + [r])[i].end < (pre + [r])[j].start {}
    MergedPast(pre, r, rest);
    MergeExact(r, rest);
    CompatibleBoth(pre, rest, r);
    CompatibleApart(pre, r, r.end);
    CompatibleApart(rest, r, r.end);
    hide Merge, Merged, Compatible, Fits;
    forall x | Covers(pre, x) ensures !Covers(Merge(r, rest), x) && !Covers(rest, x) && !Contains(r, x) {
      BelowMisses(pre, r.start, x);
      FromMisses(rest, r.start, x);
      MergeFirst(r, rest, x);
    }
    PrefixExact(pre, Merge(r, rest), rest, r);
  }

  lemma EndsBelow(pre: seq<Interval>, x: real)
    requires Ordered(pre) && (pre == [] || pre[|pre| - 1].end < x)
    ensures Below(pre, x)
  {
    forall i | 0 <= i < |pre| ensures pre[i].end < x {
      if i < |pre| - 1 { assert pre[i].end < pre[|pre| - 1].start; }
    }
  }

  /** What the interval p that begins before r and reaches it is merged with. */
  lemma Reached(pre: seq<Interval>, p: Interval, rest: seq<Interval>, r: Interval)
    requires Ordered((pre + [p]) + rest) && NonEmpty(r) && p.start < r.start <= p.end
    ensures (pre + [p]) + rest == pre + ([p] + rest) && Ordered([p] + rest) && Ordered(rest)
    ensures Merged((pre + [p]) + ([r] + rest)) == pre + Merge(Join(p, r), rest)
    ensures NonEmpty(p) && Below(pre, p.start) && AllCompatible(pre, r)
    ensures forall i :: 0 <= i < |rest| ==> p.end < rest[i].start
  {
    hide Join, Joins, NonEmpty, Compatible, Merge, Merged, Separated, AllCompatible;
    assert (pre + [p]) + rest == pre + ([p] + rest);
    OrderedBoth(pre + [p], rest);
    OrderedBoth(pre, [p] + rest);
    OrderedBoth(pre, [p]);
    assert (pre + [p])[|pre|] == p && [p][0] == p && ([p] + rest)[0] == p;
    assert (pre + [p]) + ([r] + rest) == pre + ([p] + ([r] + rest));
    MergedPast(pre, p, [r] + rest);
    MergeReached(p, rest, r);
    CompatibleApart(pre, r, r.end);
  }

  lemma MergeReached(p: Interval, rest: seq<Interval>, r: Interval)
    requires p.end >= r.start
    ensures Merge(p, [r] + rest) == Merge(Join(p, r), rest)
  {
    assert ([r] + rest)[0] == r && ([r] + rest)[1..] == rest;
  }

  /** The new interval lies inside an old one. */
  lemma AddedInside(pre: seq<Interval>, p: Interval, rest: seq<Interval>, r: Interval)
    requires Ordered((pre + [p]) + rest) && NonEmpty(r) && p.start < r.start && r.end <= p.end
    ensures Exact(Merged((pre + [p]) + ([r] + rest)), (pre + [p]) + rest, r) <==> AllCompatible((pre + [p]) + rest, r)
  {
    var rs := (pre + [p]) + rest;
    Reached(pre, p, rest, r);
    assert Join(p, r) == p;
    MergeSeparated(p, rest);
    CompatibleBoth(pre + [p], rest, r);
    CompatibleBoth(pre, [p], r);
    CompatibleOne(p, r);
    assert AllCompatible(rest, r);
    forall x ensures Covers(rs, x) <==> Covers(pre, x) || Contains(p, x) || Covers(rest, x) {
      CoversBoth(pre, [p] + rest, x);
      CoversOne(p, rest, x);
    }
    hide Merge, Merged, AllCompatible;
    if Fits(p, r) {
      assert forall x :: Contains(r, x) ==> Contains(p, x);
    } else {
      var x := r.end;
      assert Contains(r, x) && !Contains(p, x);
      if Covers(pre, x) { BelowMisses(pre, p.start, x); }
      forall i | 0 <= i < |rest| ensures !Contains(rest[i], x) {}
    }
  }

  /** The new interval goes on beyond an old one. */
  lemma AddedBeyond(pre: seq<Interval>, p: Interval, rest: seq<Interval>, r: Interval)
    requires Ordered((pre + [p]) + rest) && NonEmpty(r) && p.start < r.start <= p.end < r.end && From(rest, r.start)
    ensures Exact(Merged((pre + [p]) + ([r] + rest)), (pre + [p]) + rest, r) <==> AllCompatible((pre + [p]) + rest, r)
  {
    Reached(pre, p, rest, r);
    var c := Join(p, r);
    assert c == Interval(p.start, r.end, p.includeStart, r.includeEnd);
    MergeExact(c, rest);
    CompatibleBoth(pre + [p], rest, r);
    CompatibleBoth(pre, [p], r);
    CompatibleOne(p, r);
    CompatibleApart(rest, r, r.end);
    assert FitsAll(c, rest) <==> FitsAll(r, rest);
    var m := Merge(c, rest);
    hide Merge, Merged, AllCompatible, FitsAll, Join;
    forall x | Covers(pre, x) ensures !Covers(m, x) && !Covers([p] + rest, x) && !Contains(r, x) {
      BelowMisses(pre, p.start, x);
      FromMisses(rest, r.start, x);
      MergeFirst(c, rest, x);
      CoversOne(p, rest, x);
    }
    PrefixExact(pre, m, [p] + rest, r);
    BeyondExact(p, rest, r, c, m);
  }

  lemma BeyondExact(p: Interval, rest: seq<Interval>, r: Interval, c: Interval, m: seq<Interval>)
    requires NonEmpty(p) && NonEmpty(r) && p.start < r.start <= p.end < r.end
    requires c == Interval(p.start, r.end, p.includeStart, r.includeEnd)
    requires forall i :: 0 <= i < |rest| ==> p.end < rest[i].start
    requires forall x :: c.start < x < c.end ==> Covers(m, x)
    ensures Exact(m, [p] + rest, r) <==> Fits(p, r) && Exact(m, rest, c)
  {
    forall x ensures Covers([p] + rest, x) <==> Contains(p, x) || Covers(rest, x) {
      CoversOne(p, rest, x);
    }
    if Fits(p, r) {
      assert forall x :: Contains(c, x) <==> Contains(p, x) || Contains(r, x);
    } else {
      var x := r.start;
      assert c.start < x < c.end && !Contains(p, x) && !Contains(r, x);
      forall i | 0 <= i < |rest| ensures !Contains(rest[i], x) {}
    }
  }

  // Over a whole run of calls.

  /** Every call is compatible with the list it meets. */
  ghost predicate AllFit(calls: seq<Interval>) {
    calls == [] ||
    var n := |calls| - 1;
    AllFit(calls[..n]) && (NonEmpty(calls[n]) ==> AllCompatible(Built(calls[..n]), calls[n]))
  }

  /** After every call, membership is the union of everything added so far. */
  ghost predicate UnionThroughout(calls: seq<Interval>) {
    Exactly(Built(calls), calls) && (calls == [] || UnionThroughout(calls[..|calls| - 1]))
  }

  ghost predicate Exactly(a: seq<Interval>, b: seq<Interval>) { forall x :: Covers(a, x) <==> Covers(b, x) }

  lemma {:induction false} BuiltOrdered(calls: seq<Interval>)
    ensures Ordered(Built(calls))
  {
    if calls != [] {
      hide Added;
      BuiltOrdered(calls[..|calls| - 1]);
      AddedOrdered(Built(calls[..|calls| - 1]), calls[|calls| - 1]);
    }
  }

  /** The set is the union of the added ranges throughout a run, of any flags, if and only if every call is
      compatible with the list it meets. */
  lemma {:induction false} UnionExactly(calls: seq<Interval>)
    ensures UnionThroughout(calls) <==> AllFit(calls)
  {
    hide Exactly, Exact, AllCompatible, NonEmpty;
    if calls == [] {
      NothingCovered();
    } else {
      var n := |calls| - 1;
      UnionExactly(calls[..n]);
      BuiltOrdered(calls[..n]);
      AddedExact(Built(calls[..n]), calls[n]);
      if Exactly(Built(calls[..n]), calls[..n]) {
        LastCall(calls[..n], calls[n]);
      }
      assert calls == calls[..n] + [calls[n]];
    }
  }

  lemma NothingCovered()
    ensures Exactly(Built([]), [])
  {
  }

  lemma LastCall(calls: seq<Interval>, r: Interval)
    requires Exactly(Built(calls), calls)
    ensures Exactly(Added(Built(calls), r), calls + [r]) <==> Exact(Added(Built(calls), r), Built(calls), r)
  {
    hide Added, Built, Contains;
    CoversAppend(calls, r);
  }

  /** Two open ranges that touch become one, with the point between them that neither contains. */
  lemma OpenRangesTouch(a: real, b: real, c: real)
    requires a < b < c
    ensures var calls := [Interval(a, b, false, false), Interval(b, c, false, false)];
            Built(calls) == [Interval(a, c, false, false)] && Covers(Built(calls), b) && !Covers(calls, b)
  {
    var first, second := Interval(a, b, false, false), Interval(b, c, false, false);
    var calls := [first, second];
    assert calls[..1] == [first] && [first][..0] == [];
    assert Built([first]) == [first];
    assert Starts([first])[1..] == [];
    assert BisectLeft(Starts([first]), b) == 1;
    assert [first][..1] + [second] + [first][1..] == [first, second];
    assert Merged([first, second]) == Merge(first, [second]) == Merge(Join(first, second), []);
    assert Contains(Built(calls)[0], b);
  }
}

/** What the update fan-outs share: splitting the instruments into chunks, and turning the rows
    that the workers collected, in whatever order, into the table that is written. */
module Aggregation {
  import opened Common

  /** A symbol with the values of its feature. */
  type Row = (string, seq<string>)

  datatype Chunk = Chunk(start: nat, end: nat)

  const USIZE_MAX := 0xFFFF_FFFF_FFFF_FFFF

  function ChunkSize(n: nat, numThreads: nat): nat
    requires numThreads > 0
  {
    (n + numThreads - 1) / numThreads
  }

  /** The nonempty chunks of threads t, t + 1, ..., numThreads - 1. */
  function ChunksFrom(n: nat, size: nat, t: nat, numThreads: nat): seq<Chunk>
    requires t <= numThreads
    decreases numThreads - t
  {
    if t == numThreads then []
    else
      var start, end := t * size, Min(t * size + size, n);
      (if start < end then [Chunk(start, end)] else []) + ChunksFrom(n, size, t + 1, numThreads)
  }

  function Chunks(n: nat, numThreads: nat): seq<Chunk>
    requires numThreads > 0
  {
    ChunksFrom(n, ChunkSize(n, numThreads), 0, numThreads)
  }

  /** The loop that builds the chunks. */
  method MakeChunks(n: nat, numThreads: nat) returns (chunks: seq<Chunk>)
    requires numThreads > 0
    ensures chunks == Chunks(n, numThreads)
  {
    hide ChunkSize, Min;
    var size := ChunkSize(n, numThreads);
    chunks := [];
    for t := 0 to numThreads
      invariant chunks + ChunksFrom(n, size, t, numThreads) == Chunks(n, numThreads)
    {
      var start := t * size;
      var end := Min(start + size, n);
      ghost var rest := ChunksFrom(n, size, t + 1, numThreads);
      if start >= end {
        assert [] + rest == rest;
        continue;
      }
      assert (chunks + [Chunk(start, end)]) + rest == chunks + ([Chunk(start, end)] + rest);
      chunks := chunks + [Chunk(start, end)];
    }
  }

  predicate Within(c: Chunk, i: nat) { c.start <= i < c.end }

  /** How many of the chunks contain i. */
  ghost function Times(chunks: seq<Chunk>, i: nat): nat {
    if chunks == [] then 0 else (if Within(chunks[0], i) then 1 else 0) + Times(chunks[1..], i)
  }

  lemma {:induction false} TimesUpdate(chunks: seq<Chunk>, t: nat, c: Chunk, i: nat)
    requires t < |chunks|
    ensures Times(chunks[t := c], i)
         == Times(chunks, i) - (if Within(chunks[t], i) then 1 else 0) + (if Within(c, i) then 1 else 0)
  {
    if t > 0 {
      assert chunks[t := c][1..] == chunks[1..][t - 1 := c];
      TimesUpdate(chunks[1..], t - 1, c, i);
    } else {
      assert chunks[0 := c][1..] == chunks[1..];
    }
  }

  lemma {:induction false} NothingTimes(chunks: seq<Chunk>, i: nat)
    requires forall t :: 0 <= t < |chunks| ==> chunks[t].start >= chunks[t].end
    ensures Times(chunks, i) == 0
  {
    if chunks != [] {
      NothingTimes(chunks[1..], i);
    }
  }

  lemma {:induction false} ChunksFromCover(n: nat, size: nat, t: nat, numThreads: nat, i: nat)
    requires t <= numThreads && numThreads * size >= n
    ensures t * size >= 0
    ensures Times(ChunksFrom(n, size, t, numThreads), i) == if t * size <= i < n then 1 else 0
    decreases numThreads - t
  {
    if t < numThreads {
      ChunksFromCover(n, size, t + 1, numThreads, i);
      assert (t + 1) * size == t * size + size;
      var start, end := t * size, Min(t * size + size, n);
      var rest := ChunksFrom(n, size, t + 1, numThreads);
      if start < end {
        assert ([Chunk(start, end)] + rest)[1..] == rest;
      } else {
        assert [] + rest == rest;
      }
    } else {
      assert t * size == numThreads * size;
    }
  }

  lemma CeilingCovers(n: nat, k: nat)
    requires k > 0
    ensures k * ((n + k - 1) / k) >= n
  {
    var q := (n + k - 1) / k;
    assert n + k - 1 == k * q + (n + k - 1) % k;
  }

  /** Every instrument lies in exactly one chunk. */
  lemma ChunksPartition(n: nat, numThreads: nat, i: nat)
    requires numThreads > 0
    ensures Times(Chunks(n, numThreads), i) == if i < n then 1 else 0
  {
    CeilingCovers(n, numThreads);
    ChunksFromCover(n, ChunkSize(n, numThreads), 0, numThreads, i);
  }

  lemma {:induction false} ChunkAt(n: nat, size: nat, t: nat, numThreads: nat, k: nat)
    requires t <= numThreads && k < |ChunksFrom(n, size, t, numThreads)|
    ensures var c := ChunksFrom(n, size, t, numThreads)[k];
            k < numThreads - t && c.start == (t + k) * size < n && c.end == if c.start + size < n then c.start + size else n
    decreases numThreads - t
  {
    var rest := ChunksFrom(n, size, t + 1, numThreads);
    if t * size >= n {
      assert (t + 1) * size == t * size + size;
      NoMoreChunks(n, size, t + 1, numThreads);
    } else if k > 0 && size > 0 {
      ChunkAt(n, size, t + 1, numThreads, k - 1);
    } else if size == 0 {
      assert t * size == 0 && [] + rest == rest;
      ChunkAt(n, size, t + 1, numThreads, k);
    }
  }

  lemma {:induction false} NoMoreChunks(n: nat, size: nat, t: nat, numThreads: nat)
    requires t <= numThreads && t * size >= n
    ensures ChunksFrom(n, size, t, numThreads) == []
    decreases numThreads - t
  {
    if t < numThreads {
      assert (t + 1) * size == t * size + size;
      NoMoreChunks(n, size, t + 1, numThreads);
    }
  }

  /** The work is spread evenly: at most one chunk a thread, in order and without gaps, all as long as the first one
      except perhaps the last, and none longer than a fair share rounded up. */
  lemma ChunksEven(n: nat, numThreads: nat, k: nat)
    requires numThreads > 0 && k < |Chunks(n, numThreads)|
    ensures var chunks := Chunks(n, numThreads);
            var c := chunks[k];
            && |chunks| <= numThreads
            && c.start == (if k == 0 then 0 else chunks[k - 1].end) < c.end
            && (c.end - c.start - 1) * numThreads < n
            && (k < |chunks| - 1 ==> c.end - c.start == chunks[0].end)
  {
    var size, chunks := ChunkSize(n, numThreads), Chunks(n, numThreads);
    ChunkAt(n, size, 0, numThreads, k);
    ChunkAt(n, size, 0, numThreads, 0);
    ChunkAt(n, size, 0, numThreads, |chunks| - 1);
    if k > 0 {
      ChunkAt(n, size, 0, numThreads, k - 1);
      assert k * size == (k - 1) * size + size;
    }
    if k < |chunks| - 1 {
      ChunkAt(n, size, 0, numThreads, k + 1);
      assert (k + 1) * size == k * size + size;
    }
    FairShare(n, numThreads, size, chunks[k].end - chunks[k].start);
  }

  lemma FairShare(n: nat, numThreads: nat, size: nat, length: int)
    requires numThreads > 0 && n > 0 && size == (n + numThreads - 1) / numThreads && length <= size
    ensures (length - 1) * numThreads < n
  {
    assert size * numThreads <= n + numThreads - 1;
    assert (length - 1) * numThreads <= (size - 1) * numThreads;
  }

  function Upto(n: nat): (s: seq<nat>)
    ensures |s| == n && forall i :: 0 <= i < n ==> s[i] == i
  {
    seq(n, i => i)
  }

  lemma {:induction false} CountUpto(n: nat, i: nat)
    ensures multiset(Upto(n))[i] == if i < n then 1 else 0
  {
    if n > 0 {
      CountUpto(n - 1, i);
      assert Upto(n) == Upto(n - 1) + [n - 1];
    } else {
      assert Upto(0) == [];
    }
  }

  /** What handling instrument i contributes: a row, if its feature has values. */
  function RowOf(symbols: seq<string>, values: seq<seq<string>>, i: nat): seq<Row> {
    if i < |symbols| && i < |values| && values[i] != [] then [(symbols[i], values[i])] else []
  }

  /** The rows collected by handling the instruments in the given order. */
  function RowsOf(symbols: seq<string>, values: seq<seq<string>>, handled: seq<nat>): seq<Row> {
    if handled == [] then []
    else RowsOf(symbols, values, handled[..|handled| - 1]) + RowOf(symbols, values, handled[|handled| - 1])
  }

  /** code_order: a later duplicate overwrites an earlier one. */
  function CodeOrder(symbols: seq<string>): map<string, nat> {
    if symbols == [] then map[] else CodeOrder(symbols[..|symbols| - 1])[symbols[|symbols| - 1] := |symbols| - 1]
  }

  function Key(order: map<string, nat>, row: Row): nat { if row.0 in order then order[row.0] else USIZE_MAX }

  /** What any sort by key, stable or not, guarantees. */
  ghost predicate SortOf(out: seq<Row>, rows: seq<Row>, order: map<string, nat>) {
    multiset(out) == multiset(rows) && forall i, j :: 0 <= i < j < |out| ==> Key(order, out[i]) <= Key(order, out[j])
  }

  /** The header followed by the rows; empty rows are skipped. */
  function Table(header: seq<string>, rows: seq<Row>): seq<seq<string>> {
    if rows == [] then [header]
    else Table(header, rows[..|rows| - 1]) + (if rows[|rows| - 1].1 != [] then [rows[|rows| - 1].1] else [])
  }

  ghost predicate Distinct(symbols: seq<string>) {
    forall i, j :: 0 <= i < j < |symbols| ==> symbols[i] != symbols[j]
  }

  lemma {:induction false} OrderOfSymbol(symbols: seq<string>, i: nat)
    requires Distinct(symbols) && i < |symbols|
    ensures symbols[i] in CodeOrder(symbols) && CodeOrder(symbols)[symbols[i]] == i
  {
    var n := |symbols| - 1;
    if i < n {
      OrderOfSymbol(symbols[..n], i);
    }
  }

  lemma {:induction false} RowsAppend(symbols: seq<string>, values: seq<seq<string>>, a: seq<nat>, b: seq<nat>)
    ensures RowsOf(symbols, values, a + b) == RowsOf(symbols, values, a) + RowsOf(symbols, values, b)
  {
    hide RowOf;
    if b == [] {
      assert a + b == a;
    } else {
      var n := |b| - 1;
      RowsAppend(symbols, values, a, b[..n]);
      assert (a + b)[..|a + b| - 1] == a + b[..n];
      var last := RowOf(symbols, values, b[n]);
      assert RowsOf(symbols, values, a + b) == RowsOf(symbols, values, a + b[..n]) + last;
      assert (RowsOf(symbols, values, a) + RowsOf(symbols, values, b[..n])) + last
          == RowsOf(symbols, values, a) + (RowsOf(symbols, values, b[..n]) + last);
    }
  }

  lemma CancelOne<T>(a: multiset<T>, b: multiset<T>, x: T)
    requires a + multiset{x} == b + multiset{x}
    ensures a == b
  {
    assert (a + multiset{x}) - multiset{x} == a;
    assert (b + multiset{x}) - multiset{x} == b;
  }

  /** Taking one handled instrument out of the list takes its row out of the collection. */
  lemma RowsWithout(symbols: seq<string>, values: seq<seq<string>>, b: seq<nat>, p: nat)
    requires p < |b|
    ensures multiset(b) == multiset(b[..p] + b[p + 1..]) + multiset{b[p]}
    ensures multiset(RowsOf(symbols, values, b))
         == multiset(RowsOf(symbols, values, b[..p] + b[p + 1..])) + multiset(RowOf(symbols, values, b[p]))
  {
    assert b == (b[..p] + [b[p]]) + b[p + 1..];
    RowsAppend(symbols, values, b[..p] + [b[p]], b[p + 1..]);
    RowsAppend(symbols, values, b[..p], b[p + 1..]);
    assert (b[..p] + [b[p]])[..p] == b[..p];
  }

  /** Handling the same instruments in another order collects the same rows. */
  lemma {:induction false} RowsPermute(symbols: seq<string>, values: seq<seq<string>>, a: seq<nat>, b: seq<nat>)
    requires multiset(a) == multiset(b)
    ensures multiset(RowsOf(symbols, values, a)) == multiset(RowsOf(symbols, values, b))
  {
    if a == [] {
      assert |multiset(b)| == 0;
    } else {
      var n := |a| - 1;
      var x := a[n];
      assert x in multiset(b);
      var p :| 0 <= p < |b| && b[p] == x;
      var rest := b[..p] + b[p + 1..];
      hide RowOf;
      RowsWithout(symbols, values, b, p);
      RowsWithout(symbols, values, a, n);
      assert a[..n] + a[n + 1..] == a[..n];
      CancelOne(multiset(a[..n]), multiset(rest), x);
      RowsPermute(symbols, values, a[..n], rest);
    }
  }

  /** Nonempty rows with strictly increasing keys below n. */
  ghost predicate InOrder(rows: seq<Row>, order: map<string, nat>, n: nat) {
    && (forall i, j :: 0 <= i < j < |rows| ==> Key(order, rows[i]) < Key(order, rows[j]))
    && (forall i :: 0 <= i < |rows| ==> rows[i].1 != [] && Key(order, rows[i]) < n)
  }

  lemma InOrderAppend(rows: seq<Row>, row: Row, order: map<string, nat>, n: nat)
    requires InOrder(rows, order, n) && row.1 != [] && Key(order, row) == n
    ensures InOrder(rows + [row], order, n + 1)
  {
    hide Key;
  }

  /** The rows in instrument order have increasing keys. */
  lemma {:induction false} RowsInOrder(symbols: seq<string>, values: seq<seq<string>>, n: nat)
    requires |symbols| == |values| && Distinct(symbols) && n <= |symbols|
    ensures InOrder(RowsOf(symbols, values, Upto(n)), CodeOrder(symbols), n)
  {
    hide Key, CodeOrder, InOrder, Upto;
    if n > 0 {
      RowsInOrder(symbols, values, n - 1);
      KeyOfSymbol(symbols, values, n - 1);
      RowsNext(symbols, values, n);
      if values[n - 1] != [] {
        InOrderAppend(RowsOf(symbols, values, Upto(n - 1)), (symbols[n - 1], values[n - 1]), CodeOrder(symbols), n - 1);
      } else {
        assert RowsOf(symbols, values, Upto(n - 1)) + [] == RowsOf(symbols, values, Upto(n - 1));
        InOrderStays(RowsOf(symbols, values, Upto(n - 1)), CodeOrder(symbols), n - 1);
      }
    } else {
      assert Upto(0) == [];
      InOrderNothing(CodeOrder(symbols));
    }
  }

  lemma KeyOfSymbol(symbols: seq<string>, values: seq<seq<string>>, i: nat)
    requires Distinct(symbols) && i < |symbols| == |values|
    ensures Key(CodeOrder(symbols), (symbols[i], values[i])) == i
  {
    OrderOfSymbol(symbols, i);
  }

  lemma InOrderStays(rows: seq<Row>, order: map<string, nat>, n: nat)
    requires InOrder(rows, order, n)
    ensures InOrder(rows, order, n + 1)
  {
    hide Key;
  }

  lemma InOrderNothing(order: map<string, nat>)
    ensures InOrder([], order, 0)
  {
  }

  /** A sorted permutation of a list with strictly increasing keys is that list. */
  lemma {:induction false} SortUnique(out: seq<Row>, rows: seq<Row>, order: map<string, nat>)
    requires SortOf(out, rows, order)
    requires forall i, j :: 0 <= i < j < |rows| ==> Key(order, rows[i]) < Key(order, rows[j])
    ensures out == rows
  {
    hide Key;
    if rows == [] {
      assert |multiset(out)| == 0;
    } else {
      SortedHeads(out, rows, order);
      DropHead(out);
      DropHead(rows);
      CancelOne(multiset(out[1..]), multiset(rows[1..]), out[0]);
      SortUnique(out[1..], rows[1..], order);
      assert out == [out[0]] + out[1..] && rows == [rows[0]] + rows[1..];
    }
  }

  lemma DropHead<T>(s: seq<T>)
    requires s != []
    ensures multiset(s) == multiset(s[1..]) + multiset{s[0]}
  {
    assert s == [s[0]] + s[1..];
  }

  lemma SortedHeads(out: seq<Row>, rows: seq<Row>, order: map<string, nat>)
    requires SortOf(out, rows, order) && rows != []
    requires forall i, j :: 0 <= i < j < |rows| ==> Key(order, rows[i]) < Key(order, rows[j])
    ensures out != [] && out[0] == rows[0]
  {
    hide Key;
    assert |multiset(out)| == |multiset(rows)|;
    assert rows[0] in multiset(out) && out[0] in multiset(rows);
    var p :| 0 <= p < |out| && out[p] == rows[0];
    var q :| 0 <= q < |rows| && rows[q] == out[0];
    assert Key(order, out[0]) <= Key(order, out[p]) == Key(order, rows[0]) <= Key(order, rows[q]);
  }

  /** Each of the n instruments was handled exactly once, and nothing else was. */
  ghost predicate HandledOnce(handled: seq<nat>, n: nat) {
    forall i: nat :: multiset(handled)[i] == if i < n then 1 else 0
  }

  /** The nonempty feature rows in instrument order. */
  function NonEmpty(values: seq<seq<string>>): seq<seq<string>> {
    if values == [] then []
    else NonEmpty(values[..|values| - 1]) + (if values[|values| - 1] != [] then [values[|values| - 1]] else [])
  }

  lemma TableAppend(header: seq<string>, rows: seq<Row>, row: Row)
    ensures Table(header, rows + [row]) == Table(header, rows) + (if row.1 != [] then [row.1] else [])
  {
    assert (rows + [row])[..|rows|] == rows;
  }

  lemma {:induction false} TableOfRows(header: seq<string>, symbols: seq<string>, values: seq<seq<string>>, n: nat)
    requires |symbols| == |values| && n <= |symbols|
    ensures Table(header, RowsOf(symbols, values, Upto(n))) == [header] + NonEmpty(values[..n])
  {
    hide Table, NonEmpty, RowsOf, Upto;
    if n == 0 {
      TableStart(header, symbols, values);
    } else {
      TableOfRows(header, symbols, values, n - 1);
      RowsNext(symbols, values, n);
      NonEmptyAppend(values, n);
      var before := RowsOf(symbols, values, Upto(n - 1));
      TableAppend(header, before, (symbols[n - 1], values[n - 1]));
      var ne := NonEmpty(values[..n - 1]);
      if values[n - 1] == [] {
        assert before + [] == before;
        assert ne + [] == ne;
      } else {
        assert ([header] + ne) + [values[n - 1]] == [header] + (ne + [values[n - 1]]);
      }
    }
  }

  lemma TableStart(header: seq<string>, symbols: seq<string>, values: seq<seq<string>>)
    ensures Table(header, RowsOf(symbols, values, Upto(0))) == [header] + NonEmpty(values[..0])
  {
    assert Upto(0) == [] && values[..0] == [];
  }

  lemma RowsNext(symbols: seq<string>, values: seq<seq<string>>, n: nat)
    requires n > 0
    ensures RowsOf(symbols, values, Upto(n)) == RowsOf(symbols, values, Upto(n - 1)) + RowOf(symbols, values, n - 1)
  {
    assert Upto(n)[..n - 1] == Upto(n - 1) && Upto(n)[n - 1] == n - 1;
  }

  lemma NonEmptyAppend(values: seq<seq<string>>, n: nat)
    requires 0 < n <= |values|
    ensures NonEmpty(values[..n]) == NonEmpty(values[..n - 1]) + (if values[n - 1] != [] then [values[n - 1]] else [])
  {
    assert values[..n][..n - 1] == values[..n - 1];
  }

  /** The result does not depend on the order of handling: if every instrument was handled exactly once,
      sorting the collected rows by code order gives the nonempty rows in instrument order. */
  lemma OutputDetermined(symbols: seq<string>, values: seq<seq<string>>, handled: seq<nat>, rows: seq<Row>,
                         out: seq<Row>, header: seq<string>)
    requires |symbols| == |values| && Distinct(symbols)
    requires HandledOnce(handled, |symbols|)
    requires multiset(rows) == multiset(RowsOf(symbols, values, handled)) && SortOf(out, rows, CodeOrder(symbols))
    ensures out == RowsOf(symbols, values, Upto(|symbols|))
    ensures Table(header, out) == [header] + NonEmpty(values)
  {
    hide Table, NonEmpty, RowsOf, CodeOrder, Key;
    TableOfRows(header, symbols, values, |symbols|);
    assert values[..|symbols|] == values;
    var n := |symbols|;
    forall i: nat ensures multiset(handled)[i] == multiset(Upto(n))[i] {
      CountUpto(n, i);
    }
    assert multiset(handled) == multiset(Upto(n));
    RowsPermute(symbols, values, handled, Upto(n));
    RowsInOrder(symbols, values, n);
    SortUnique(out, RowsOf(symbols, values, Upto(n)), CodeOrder(symbols));
  }
}

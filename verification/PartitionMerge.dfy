/**
 The parallel merge of a graph read (aggregateWithClosedSpans): partial groups
 are split by a hash of the key, merged part by part, concatenated and sorted.
 The result is that of one sequential scan, whatever the hash and the split.
 */
module PartitionMerge {
  import opened HourRollup
  import opened SumSets
  import opened Strings

  type Groups = map<PairKey, Full>

  function FullAt(m: Groups, k: PairKey): Full {
    if k in m then m[k] else NOTHING
  }

  function MergeGroups(a: Groups, b: Groups): Groups {
    map k | k in a.Keys + b.Keys :: MergeFull(FullAt(a, k), FullAt(b, k))
  }

  /** One map that absorbs every result in turn. */
  function Sequential(base: Groups, results: seq<Groups>): Groups {
    if results == [] then base else MergeGroups(Sequential(base, results[..|results| - 1]), results[|results| - 1])
  }

  function Absorb(m: Groups, k: PairKey, f: Full): Groups {
    m[k := MergeFull(FullAt(m, k), f)]
  }

  datatype Row = Row(key: PairKey, full: Full)

  /** A scan of rows into one map. */
  function Scan(rows: seq<Row>): Groups {
    if rows == [] then map[] else Absorb(Scan(rows[..|rows| - 1]), rows[|rows| - 1].key, rows[|rows| - 1].full)
  }

  function Concat(spans: seq<seq<Row>>): seq<Row> {
    if spans == [] then [] else Concat(spans[..|spans| - 1]) + spans[|spans| - 1]
  }

  function Scans(spans: seq<seq<Row>>): (results: seq<Groups>)
    ensures |results| == |spans|
  {
    seq(|spans|, i requires 0 <= i < |spans| => Scan(spans[i]))
  }

  lemma MergeGroupsEmpty(a: Groups)
    ensures MergeGroups(a, map[]) == a
  {
    hide MergeFull;
    assert MergeGroups(a, map[]).Keys == a.Keys;
    forall k | k in a
      ensures MergeGroups(a, map[])[k] == a[k]
    {
      MergeFullNothing(a[k]);
    }
  }

  /** Merging a scan is scanning its rows on. */
  lemma {:induction false} MergeScanRow(a: Groups, b: Groups, k: PairKey, f: Full)
    ensures MergeGroups(a, Absorb(b, k, f)) == Absorb(MergeGroups(a, b), k, f)
  {
    hide MergeFull;
    var l, r := MergeGroups(a, Absorb(b, k, f)), Absorb(MergeGroups(a, b), k, f);
    assert l.Keys == r.Keys;
    forall x | x in l
      ensures l[x] == r[x]
    {
      MergeFullAssoc(FullAt(a, x), FullAt(b, x), f);
      MergeFullNothing(NOTHING);
    }
  }

  lemma {:induction false} ScanConcat(a: seq<Row>, b: seq<Row>)
    ensures Scan(a + b) == MergeGroups(Scan(a), Scan(b))
  {
    hide MergeFull, MergeGroups, Absorb, Scan;
    if b == [] {
      assert a + b == a;
      assert Scan(b) == map[] by { NothingToScan(); }
      MergeGroupsEmpty(Scan(a));
    } else {
      var front, last := b[..|b| - 1], b[|b| - 1];
      ScanConcat(a, front);
      assert b == front + [last] && a + b == (a + front) + [last];
      ScanSnoc(front, last);
      ScanSnoc(a + front, last);
      MergeScanRow(Scan(a), Scan(front), last.key, last.full);
    }
  }

  lemma NothingToScan()
    ensures Scan([]) == map[]
  {
  }

  lemma ScanSnoc(rows: seq<Row>, row: Row)
    ensures Scan(rows + [row]) == Absorb(Scan(rows), row.key, row.full)
  {
    assert (rows + [row])[..|rows|] == rows;
  }

  /** However rows are split into spans, merging the spans' scans is scanning all rows. */
  lemma {:induction false} SpansScanAsOne(spans: seq<seq<Row>>)
    ensures Sequential(map[], Scans(spans)) == Scan(Concat(spans))
  {
    if spans != [] {
      var n := |spans| - 1;
      SpansScanAsOne(spans[..n]);
      assert Scans(spans)[..n] == Scans(spans[..n]);
      ScanConcat(Concat(spans[..n]), spans[n]);
    }
  }

  // ---- Partitions.

  /** The keys of one partition. */
  function Part(m: Groups, hash: PairKey -> nat, p: nat, parts: nat): Groups
    requires parts > 0
  {
    map k | k in m && hash(k) % parts == p :: m[k]
  }

  lemma PartOfMerge(a: Groups, b: Groups, hash: PairKey -> nat, p: nat, parts: nat)
    requires parts > 0
    ensures Part(MergeGroups(a, b), hash, p, parts) == MergeGroups(Part(a, hash, p, parts), Part(b, hash, p, parts))
  {
    hide MergeFull;
    var l, r := Part(MergeGroups(a, b), hash, p, parts), MergeGroups(Part(a, hash, p, parts), Part(b, hash, p, parts));
    forall k
      ensures k in l <==> k in r
      ensures k in l ==> l[k] == r[k]
    {
    }
    assert l.Keys == r.Keys;
  }

  /** One partition's worker: its part of the snapshot rows, then of every span in turn. */
  method MergePart(base: Groups, results: seq<Groups>, hash: PairKey -> nat, p: nat, parts: nat)
    returns (merged: Groups)
    requires parts > 0
    ensures merged == Part(Sequential(base, results), hash, p, parts)
  {
    merged := Part(base, hash, p, parts);
    var i := 0;
    assert results[..0] == [];
    while i < |results|
      invariant 0 <= i <= |results|
      invariant merged == Part(Sequential(base, results[..i]), hash, p, parts)
    {
      merged := MergeInto(merged, Part(results[i], hash, p, parts));
      assert results[..i + 1][..i] == results[..i];
      PartOfMerge(Sequential(base, results[..i]), results[i], hash, p, parts);
      i := i + 1;
    }
    assert results[..i] == results;
  }

  /** The partial groups of one span, in any order. */
  method MergeInto(into: Groups, more: Groups) returns (merged: Groups)
    ensures merged == MergeGroups(into, more)
  {
    merged := into;
    var left := more.Keys;
    assert more - left == map[];
    MergeGroupsEmpty(into);
    while left != {}
      invariant left <= more.Keys
      invariant merged == MergeGroups(into, more - left)
      decreases left
    {
      hide MergeFull, MergeGroups;
      var k :| k in left;
      MergeOneMore(into, more, left, k);
      merged := if k in merged then merged[k := MergeFull(merged[k], more[k])] else merged[k := more[k]];
      left := left - {k};
    }
    assert more - left == more;
  }

  lemma MergeOneMore(into: Groups, more: Groups, left: set<PairKey>, k: PairKey)
    requires k in left && left <= more.Keys
    ensures var m := MergeGroups(into, more - left);
            MergeGroups(into, more - (left - {k})) == if k in m then m[k := MergeFull(m[k], more[k])]
                else m[k := more[k]]
  {
    hide MergeFull;
    assert more - (left - {k}) == (more - left)[k := more[k]];
    MergeFullNothing(FullAt(into, k));
    MergeFullNothing(more[k]);
    var m := MergeGroups(into, more - left);
    var l := MergeGroups(into, more - (left - {k}));
    assert l.Keys == m.Keys + {k};
  }

  /** rows holds every group of m once. */
  ghost predicate Lists(rows: seq<Row>, m: Groups) {
    && (forall i, j :: 0 <= i < j < |rows| ==> rows[i].key != rows[j].key)
    && (forall r :: r in rows ==> r.key in m && m[r.key] == r.full)
    && (forall k :: k in m ==> Row(k, m[k]) in rows)
  }

  method ListGroups(m: Groups) returns (rows: seq<Row>)
    ensures Lists(rows, m)
  {
    rows := [];
    var left := m.Keys;
    while left != {}
      invariant left <= m.Keys
      invariant forall i, j :: 0 <= i < j < |rows| ==> rows[i].key != rows[j].key
      invariant forall r :: r in rows ==> r.key in m && r.key !in left && m[r.key] == r.full
      invariant forall k :: k in m && k !in left ==> Row(k, m[k]) in rows
      decreases left
    {
      var k :| k in left;
      left := left - {k};
      rows := rows + [Row(k, m[k])];
    }
  }

  /** The partitions before p. */
  function PartsBelow(m: Groups, hash: PairKey -> nat, p: nat, parts: nat): Groups
    requires parts > 0
  {
    map k | k in m && hash(k) % parts < p :: m[k]
  }

  lemma ListsConcat(a: seq<Row>, b: seq<Row>, m: Groups, hash: PairKey -> nat, p: nat, parts: nat)
    requires parts > 0
    requires Lists(a, PartsBelow(m, hash, p, parts)) && Lists(b, Part(m, hash, p, parts))
    ensures Lists(a + b, PartsBelow(m, hash, p + 1, parts))
  {
    forall i, j | 0 <= i < j < |a + b|
      ensures (a + b)[i].key != (a + b)[j].key
    {
      if i < |a| && j >= |a| {
        assert a[i] in a && b[j - |a|] in b;
      }
    }
    var next := PartsBelow(m, hash, p + 1, parts);
    forall k | k in next
      ensures Row(k, next[k]) in a + b
    {
      if hash(k) % parts < p {
        assert k in PartsBelow(m, hash, p, parts);
      } else {
        assert k in Part(m, hash, p, parts);
      }
    }
  }

  /** All workers, then the concatenation: every group of the sequential merge, once. */
  method AggregateParts(base: Groups, results: seq<Groups>, hash: PairKey -> nat, parts: nat) returns (all: seq<Row>)
    requires parts > 0
    ensures Lists(all, Sequential(base, results))
  {
    hide Lists, PartsBelow, Part, Sequential;
    all := [];
    var p := 0;
    ghost var m := Sequential(base, results);
    NoParts(m, hash, parts);
    while p < parts
      invariant 0 <= p <= parts
      invariant Lists(all, PartsBelow(m, hash, p, parts))
    {
      var merged := MergePart(base, results, hash, p, parts);
      var rows := ListGroups(merged);
      ListsConcat(all, rows, m, hash, p, parts);
      all := all + rows;
      p := p + 1;
    }
  }

  lemma NoParts(m: Groups, hash: PairKey -> nat, parts: nat)
    requires parts > 0
    ensures Lists([], PartsBelow(m, hash, 0, parts)) && PartsBelow(m, hash, parts, parts) == m
  {
    assert PartsBelow(m, hash, 0, parts) == map[];
  }

  // ---- The order.

  function BytesOf(f: Full): int {
    (if f.counters.tx.Num? then f.counters.tx.n else 0) + if f.counters.rx.Num? then f.counters.rx.n else 0
  }

  /** sortPairAggregates: most bytes first, then by key. */
  predicate Before(a: Row, b: Row) {
    if BytesOf(a.full) != BytesOf(b.full) then BytesOf(a.full) > BytesOf(b.full)
    else if a.key.src != b.key.src then StringLess(a.key.src, b.key.src)
    else if a.key.dst != b.key.dst then StringLess(a.key.dst, b.key.dst)
    else StringLess(a.key.traffic, b.key.traffic)
  }

  lemma BeforeIsTotal(a: Row, b: Row)
    ensures a.key != b.key ==> Before(a, b) || Before(b, a)
    ensures !(Before(a, b) && Before(b, a))
  {
    StringTrichotomy(a.key.src, b.key.src);
    StringTrichotomy(a.key.dst, b.key.dst);
    StringTrichotomy(a.key.traffic, b.key.traffic);
  }

  ghost predicate SortedRows(rows: seq<Row>) {
    forall i, j :: 0 <= i < j < |rows| ==> Before(rows[i], rows[j])
  }

  /** The order leaves no choice: a map of groups has one sorted listing. */
  lemma {:induction false} SortIsUnique(x: seq<Row>, y: seq<Row>, m: Groups)
    requires Lists(x, m) && Lists(y, m) && SortedRows(x) && SortedRows(y)
    ensures x == y
    decreases |x|
  {
    hide Before, Lists, SortedRows;
    if x == [] || y == [] {
      BothEmpty(x, y, m);
    } else {
      var a, b := x[|x| - 1], y[|y| - 1];
      SameLast(x, y, m);
      ListsFront(x, m);
      ListsFront(y, m);
      SortedFront(x);
      SortedFront(y);
      SortIsUnique(x[..|x| - 1], y[..|y| - 1], m - {a.key});
      assert x == x[..|x| - 1] + [a] && y == y[..|y| - 1] + [b];
    }
  }

  lemma BothEmpty(x: seq<Row>, y: seq<Row>, m: Groups)
    requires Lists(x, m) && Lists(y, m) && (x == [] || y == [])
    ensures x == y == []
  {
    assert forall r :: r in x <==> r in y;
    HasFirst(x);
    HasFirst(y);
  }

  lemma SortedFront(x: seq<Row>)
    requires SortedRows(x) && x != []
    ensures SortedRows(x[..|x| - 1])
  {
    hide Before;
  }

  lemma HasFirst(x: seq<Row>)
    ensures x != [] ==> exists r :: r in x
  {
    if x != [] {
      assert x[0] in x;
    }
  }

  lemma SameLast(x: seq<Row>, y: seq<Row>, m: Groups)
    requires Lists(x, m) && Lists(y, m) && SortedRows(x) && SortedRows(y) && x != [] && y != []
    ensures x[|x| - 1] == y[|y| - 1]
  {
    var a, b := x[|x| - 1], y[|y| - 1];
    assert a in x && b in y;
    assert Row(a.key, m[a.key]) in y && Row(b.key, m[b.key]) in x;
    var i :| 0 <= i < |y| && y[i] == a;
    var j :| 0 <= j < |x| && x[j] == b;
    hide Before, SortedRows;
    BeforeIsTotal(a, b);
    BeforeLast(y, i);
    BeforeLast(x, j);
  }

  lemma BeforeLast(rows: seq<Row>, i: nat)
    requires SortedRows(rows) && i < |rows|
    ensures i < |rows| - 1 ==> Before(rows[i], rows[|rows| - 1])
  {
  }

  lemma ListsFront(x: seq<Row>, m: Groups)
    requires Lists(x, m) && x != []
    ensures Lists(x[..|x| - 1], m - {x[|x| - 1].key})
  {
    var n := |x| - 1;
    var front, last, rest := x[..n], x[n], m - {x[n].key};
    assert x == front + [last];
    assert forall r :: r in x <==> r in front || r == last;
    forall r | r in front
      ensures r.key in rest && rest[r.key] == r.full
    {
      assert r in x;
      var i :| 0 <= i < n && front[i] == r;
      assert x[i].key != x[n].key;
    }
    forall k | k in rest
      ensures Row(k, rest[k]) in front
    {
      assert Row(k, m[k]) in x;
    }
  }

  /**
   The parallel result, sorted, is the sorted result of one sequential scan of
   all rows, for every hash, number of parts and split into spans.
   */
  lemma ParallelEqualsSequential(all: seq<Row>, sorted: seq<Row>, sequential: seq<Row>, spans: seq<seq<Row>>)
    requires Lists(all, Sequential(map[], Scans(spans)))
    requires multiset(sorted) == multiset(all) && SortedRows(sorted)
    requires Lists(sequential, Scan(Concat(spans))) && SortedRows(sequential)
    ensures sorted == sequential
  {
    hide Sequential, Scan, Before;
    SpansScanAsOne(spans);
    var m := Scan(Concat(spans));
    assert Lists(sorted, m) by { ListsPermuted(all, sorted, m); }
    SortIsUnique(sorted, sequential, m);
  }

  lemma ListsPermuted(a: seq<Row>, b: seq<Row>, m: Groups)
    requires Lists(a, m) && multiset(a) == multiset(b)
    ensures Lists(b, m)
  {
    forall r
      ensures r in a <==> r in b
    {
      assert r in multiset(a) <==> r in multiset(b);
    }
    forall i, j | 0 <= i < j < |b|
      ensures b[i].key != b[j].key
    {
      if b[i].key == b[j].key {
        assert b[i] in a && b[j] in a && b[i] == b[j];
        TwiceInMultiset(b, i, j);
        OnceInMultiset(a, b[i]);
      }
    }
  }

  lemma TwiceInMultiset<T>(s: seq<T>, i: nat, j: nat)
    requires i < j < |s| && s[i] == s[j]
    ensures multiset(s)[s[i]] >= 2
  {
    assert s == s[..j] + [s[j]] + s[j + 1..];
    assert s[..j][i] == s[i];
    assert multiset(s) == multiset(s[..j]) + multiset{s[j]} + multiset(s[j + 1..]);
  }

  lemma {:induction false} OnceInMultiset(s: seq<Row>, r: Row)
    requires forall i, j :: 0 <= i < j < |s| ==> s[i].key != s[j].key
    ensures multiset(s)[r] <= 1
  {
    if s != [] {
      var n := |s| - 1;
      OnceInMultiset(s[..n], r);
      assert s == s[..n] + [s[n]];
      forall x | x in s[..n]
        ensures x != s[n]
      {
        var i :| 0 <= i < n && s[..n][i] == x;
        assert s[i].key != s[n].key;
      }
    }
  }
}

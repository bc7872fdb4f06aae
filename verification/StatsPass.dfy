/**
 The single pass over rows (statsPass in stats_single_pass.go): checked 64-bit
 sums per bucket, interned node pairs counted by sorting, the split into TCP,
 UDP and other bytes, and the top ports.
 */
module StatsPass {
  import opened GoInts
  import opened PairGroups
  import opened HourRollup
  import opened Int64s
  import opened FiniteSums
  import opened StatsPlan
  import opened StatsPorts
  import PortsJson

  // ---- Rows.

  /**
   A row as the pass scans it. A number is None when it is NULL or the row
   holds a blob; protos is None when the strict parser refuses the column; ports
   is the text of its column.
   */
  datatype StatRow = StatRow(bucket: int, src: string, dst: string, traffic: string,
                             tx: Option<int>, rx: Option<int>, flows: Option<int>, protos: Option<map<int, int>>,
                             ports: string)

  /** Columns hold 64-bit numbers. */
  ghost predicate RowFits(r: StatRow) {
    && (r.tx.Some? ==> Int64(r.tx.value)) && (r.rx.Some? ==> Int64(r.rx.value))
        && (r.flows.Some? ==> Int64(r.flows.value))
    && (r.protos.Some? ==> forall k :: k in r.protos.value ==> Int64(r.protos.value[k]))
  }

  /** Physical rows count toward protocols only when asked for; otherwise their column is never parsed. */
  predicate CountsProtos(r: StatRow, countPhysical: bool) {
    r.traffic != "physical" || countPhysical
  }

  predicate Complete(r: StatRow, countPhysical: bool) {
    r.tx.Some? && r.rx.Some? && r.flows.Some? && (CountsProtos(r, countPhysical) ==> r.protos.Some?)
  }

  /** Physical rows never rank ports: their column is not parsed. */
  function PortsOfRow(r: StatRow): Option<seq<PortsJson.PortEntry>> {
    if r.traffic == "physical" then Some([]) else PortsOf(r.ports)
  }

  /** A row whose port list is readable and fits on top of the sums of its bucket. */
  ghost predicate TakesPorts(sums: map<Slot, int>, r: StatRow) {
    PortsOfRow(r).Some? && PortsFit(sums, PortsOfRow(r).value)
  }

  /** What a complete row adds to a measure; the same numbers as OfRow and OfHour. */
  function OfColumns(m: Measure, traffic: string, tx: int, rx: int, flows: int, protos: map<int, int>): int {
    if !Counts(m, PairKey("", "", traffic)) then 0
    else match m
      case Bytes(_) => tx + rx
      case Flows => flows
      case ProtoBytes(p, _) => IntAt(protos, p)
  }

  function OfStatRow(m: Measure, r: StatRow): int {
    if r.tx.Some? && r.rx.Some? && r.flows.Some?
    then OfColumns(m, r.traffic, r.tx.value, r.rx.value, r.flows.value,
        if r.protos.Some? then r.protos.value else map[])
    else 0
  }

  function ProtosOf(row: MinuteRow, share: MinuteRow -> map<int, int>): map<int, int> {
    if row.protocolBytes != map[] then row.protocolBytes else if row.protocols != {} then share(row) else map[]
  }

  /** The columns of a minute row carry its measure. */
  lemma MinuteColumns(m: Measure, share: MinuteRow -> map<int, int>, pair: PairKey, row: MinuteRow)
    ensures OfColumns(m, pair.traffic, row.tx, row.rx, row.flows, ProtosOf(row, share)) == OfRow(m, share, pair, row)
  {
  }

  function HourProtos(c: Counters): map<int, int> {
    map p | p in (set k | k in c.protocols && k.Proto? :: k.id) :: IntOf(SumAt(c.protocols, Proto(p)))
  }

  /** So do the columns of an hour row, without its null protocol key. */
  lemma HourColumns(m: Measure, pair: PairKey, c: Counters)
    ensures OfColumns(m, pair.traffic, IntOf(c.tx), IntOf(c.rx), IntOf(c.flows), HourProtos(c)) == OfHour(m, pair, c)
  {
    if m.ProtoBytes? {
      assert Proto(m.proto) in c.protocols ==> Proto(m.proto).id in HourProtos(c);
    }
  }

  // ---- The pass.

  datatype Acc = Acc(virtual: int, exit: int, subnet: int, physical: int, flows: int, pairs: seq<int>,
                     protos: map<int, int>, ports: map<Slot, int>)

  const NEW_ACC: Acc := Acc(0, 0, 0, 0, 0, [], map[], map[])

  function AccAt(buckets: map<int, Acc>, b: int): Acc {
    if b in buckets then buckets[b] else NEW_ACC
  }

  function AccMeasure(a: Acc, m: Measure): int {
    match m
    case Bytes(traffic) =>
      if traffic == "virtual" then a.virtual
      else if traffic == "exit" then a.exit
      else if traffic == "subnet" then a.subnet
      else if traffic == "physical" then a.physical
      else 0
    case Flows => a.flows
    case ProtoBytes(p, _) => IntAt(a.protos, p)
  }

  /** The measures the pass keeps. */
  predicate Kept(m: Measure, countPhysical: bool) {
    match m
    case Bytes(traffic) => traffic == "virtual" || traffic == "exit" || traffic == "subnet" || traffic == "physical"
    case Flows => true
    case ProtoBytes(_, c) => c == countPhysical
  }

  /** The sum of a measure over the rows of one bucket. */
  function RowsMeasure(rows: seq<StatRow>, bs: int, b: int, m: Measure): int
    requires bs > 0
  {
    if rows == [] then 0
    else
      RowsMeasure(rows[..|rows| - 1], bs, b, m)
      + if BucketOf(rows[|rows| - 1].bucket, bs) == b then OfStatRow(m, rows[|rows| - 1]) else 0
  }

  /** The port entries of one bucket's rows, in the order the pass meets them. */
  function RowsPorts(rows: seq<StatRow>, bs: int, b: int): seq<PortsJson.PortEntry>
    requires bs > 0
  {
    if rows == [] then []
    else
      var last := rows[|rows| - 1];
      RowsPorts(rows[..|rows| - 1], bs, b)
      + if BucketOf(last.bucket, bs) == b && PortsOfRow(last).Some? then PortsOfRow(last).value else []
  }

  ghost predicate AccFits(a: Acc) {
    && Int64(a.virtual) && Int64(a.exit) && Int64(a.subnet) && Int64(a.physical) && Int64(a.flows)
    && SumsAreInt64(a.ports)
    && forall k :: k in a.protos ==> Int64(a.protos[k])
  }

  /** Adds a total to the field of a traffic type; other types have none. */
  method AddBytesOf(a: Acc, traffic: string, total: int) returns (a': Acc, ok: bool)
    requires AccFits(a) && Int64(total)
    ensures ok <==> (Kept(Bytes(traffic), false) ==> Int64(AccMeasure(a, Bytes(traffic)) + total))
    ensures ok ==>
            AccFits(a')
            && a' == a.(virtual := a'.virtual, exit := a'.exit, subnet := a'.subnet, physical := a'.physical)
    ensures ok ==> forall t ::
            AccMeasure(a', Bytes(t))
            == AccMeasure(a, Bytes(t)) + if t == traffic && Kept(Bytes(t), false) then total else 0
  {
    a', ok := a, true;
    var sum := Some(0);
    AddInt64Exact(a.virtual, total);
    AddInt64Exact(a.exit, total);
    AddInt64Exact(a.subnet, total);
    AddInt64Exact(a.physical, total);
    hide AddInt64;
    if traffic == "virtual" {
      sum := AddInt64(a.virtual, total);
      a' := if sum.Some? then a.(virtual := sum.value) else a;
    } else if traffic == "exit" {
      sum := AddInt64(a.exit, total);
      a' := if sum.Some? then a.(exit := sum.value) else a;
    } else if traffic == "subnet" {
      sum := AddInt64(a.subnet, total);
      a' := if sum.Some? then a.(subnet := sum.value) else a;
    } else if traffic == "physical" {
      sum := AddInt64(a.physical, total);
      a' := if sum.Some? then a.(physical := sum.value) else a;
    }
    ok := sum.Some?;
  }

  /** Adds one row's protocol bytes, entry by entry. */
  method AddProtos(a: map<int, int>, more: map<int, int>) returns (sums: map<int, int>, ok: bool)
    requires forall k :: k in a ==> Int64(a[k])
    requires forall k :: k in more ==> Int64(more[k])
    ensures ok <==> forall k :: k in more ==> Int64(IntAt(a, k) + more[k])
    ensures ok ==> forall k :: k in sums ==> Int64(sums[k])
    ensures ok ==> forall k :: IntAt(sums, k) == IntAt(a, k) + IntAt(more, k)
  {
    hide AddInt64;
    sums, ok := a, true;
    var left := more.Keys;
    while left != {}
      invariant left <= more.Keys && ok
      invariant forall k :: k in sums ==> Int64(sums[k])
      invariant forall k :: IntAt(sums, k) == IntAt(a, k) + if k in left then 0 else IntAt(more, k)
      invariant forall k :: k in more && k !in left ==> Int64(IntAt(a, k) + more[k])
      decreases left
    {
      assert exists k :: k in left by { SomeIn(left); }
      var k :| k in left;
      left := left - {k};
      if k in sums {
        AddInt64Exact(sums[k], more[k]);
        var sum := AddInt64(sums[k], more[k]);
        if sum.None? {
          ok := false;
          return;
        }
        sums := sums[k := sum.value];
      } else {
        sums := sums[k := more[k]];
      }
    }
  }

  lemma SomeIn(s: set<int>)
    ensures s != {} ==> exists k :: k in s
  {
    if forall k :: k !in s {
      assert s == {};
    }
  }

  /** Every kept measure grew by that of the rows, bucket by bucket. */
  ghost predicate MeasuresGrew(before: map<int, Acc>, after: map<int, Acc>, rows: seq<StatRow>, bs: int,
                               countPhysical: bool)
    requires bs > 0
  {
    forall b, m :: Kept(m, countPhysical) ==>
      AccMeasure(AccAt(after, b), m) == AccMeasure(AccAt(before, b), m) + RowsMeasure(rows, bs, b, m)
  }

  /** Every bucket's port sums are those before and the rows' entries. */
  ghost predicate PortsGrew(before: map<int, Acc>, after: map<int, Acc>, rows: seq<StatRow>, bs: int)
    requires bs > 0
  {
    forall b :: AccAt(after, b).ports == PortTotals(AccAt(before, b).ports, RowsPorts(rows, bs, b))
  }

  ghost predicate EndsGrew(before: map<int, set<Ends>>, after: map<int, set<Ends>>, rows: seq<StatRow>, bs: int)
    requires bs > 0
  {
    forall b :: EndsAt(after, b) == EndsAt(before, b) + RowsEnds(rows, bs, b)
  }

  lemma GrewByNothing(buckets: map<int, Acc>, ends: map<int, set<Ends>>, bs: int, countPhysical: bool)
    requires bs > 0
    ensures MeasuresGrew(buckets, buckets, [], bs, countPhysical) && EndsGrew(ends, ends, [], bs)
    ensures PortsGrew(buckets, buckets, [], bs)
  {
    forall b
      ensures AccAt(buckets, b).ports == PortTotals(AccAt(buckets, b).ports, RowsPorts([], bs, b))
    {
      NoPorts(AccAt(buckets, b).ports);
    }
  }

  lemma PortsGrewTwice(a: map<int, Acc>, b: map<int, Acc>, c: map<int, Acc>, rows: seq<StatRow>, more: seq<StatRow>,
                       bs: int)
    requires bs > 0 && PortsGrew(a, b, rows, bs) && PortsGrew(b, c, more, bs)
    ensures PortsGrew(a, c, rows + more, bs)
  {
    hide AccAt, PortTotals;
    forall k
      ensures AccAt(c, k).ports == PortTotals(AccAt(a, k).ports, RowsPorts(rows + more, bs, k))
    {
      PortsJoin(rows, more, bs, k);
      assert AccAt(c, k).ports == PortTotals(AccAt(b, k).ports, RowsPorts(more, bs, k));
      TotalsJoin(AccAt(a, k).ports, RowsPorts(rows, bs, k), RowsPorts(more, bs, k));
    }
  }

  lemma NoRowsNoPorts(bs: int, b: int)
    requires bs > 0
    ensures RowsPorts([], bs, b) == []
  {
  }

  lemma PortsSnoc(rows: seq<StatRow>, r: StatRow, bs: int, b: int)
    requires bs > 0
    ensures RowsPorts(rows + [r], bs, b)
         == RowsPorts(rows, bs, b)
            + if BucketOf(r.bucket, bs) == b && PortsOfRow(r).Some? then PortsOfRow(r).value else []
  {
    assert (rows + [r])[..|rows|] == rows;
  }

  lemma {:induction false} PortsJoin(a: seq<StatRow>, b: seq<StatRow>, bs: int, k: int)
    requires bs > 0
    ensures RowsPorts(a + b, bs, k) == RowsPorts(a, bs, k) + RowsPorts(b, bs, k)
  {
    hide BucketOf, PortsOfRow, RowsPorts;
    if b == [] {
      assert RowsPorts([], bs, k) == [] by { NoRowsNoPorts(bs, k); }
      assert a + b == a;
    } else {
      var front, last := b[..|b| - 1], b[|b| - 1];
      PortsJoin(a, front, bs, k);
      PortsSnoc(a + front, last, bs, k);
      PortsSnoc(front, last, bs, k);
      assert a + b == a + front + [last] && b == front + [last];
    }
  }

  lemma GrewByOne(a: map<int, Acc>, b: map<int, Acc>, c: map<int, Acc>,
                  x: map<int, set<Ends>>, y: map<int, set<Ends>>, z: map<int, set<Ends>>,
                  rows: seq<StatRow>, r: StatRow, bs: int, countPhysical: bool)
    requires bs > 0
    requires MeasuresGrew(a, b, rows, bs, countPhysical) && MeasuresGrew(b, c, [r], bs, countPhysical)
    requires EndsGrew(x, y, rows, bs) && EndsGrew(y, z, [r], bs)
    ensures MeasuresGrew(a, c, rows + [r], bs, countPhysical) && EndsGrew(x, z, rows + [r], bs)
  {
    hide AccMeasure, OfStatRow, Kept, BucketOf, AccAt, EndsAt;
    assert (rows + [r])[..|rows|] == rows && [r][..0] == [];
    forall b0, m | Kept(m, countPhysical)
      ensures AccMeasure(AccAt(c, b0), m) == AccMeasure(AccAt(a, b0), m) + RowsMeasure(rows + [r], bs, b0, m)
    {
      assert RowsMeasure([], bs, b0, m) == 0;
    }
    forall b0
      ensures EndsAt(z, b0) == EndsAt(x, b0) + RowsEnds(rows + [r], bs, b0)
    {
      assert RowsEnds([], bs, b0) == {};
    }
  }

  class Pass {
    const bs: int
    const countPhysical: bool
    var buckets: map<int, Acc>
    var ids: map<string, nat>
    ghost var ends: map<int, set<Ends>>

    ghost predicate Valid()
      reads this
    {
      && bs > 0
      && (forall b :: b in buckets ==> AccFits(buckets[b]))
      && Interned(ids)
      && PairsCoded(buckets, ids, ends)
    }

    constructor (bs: int, countPhysical: bool)
      requires bs > 0
      ensures Valid() && this.bs == bs && this.countPhysical == countPhysical && buckets == map[] && ends == map[]
              && ids == map[]
    {
      this.bs, this.countPhysical := bs, countPhysical;
      buckets, ids, ends := map[], map[], map[];
    }

    method Intern(id: string) returns (n: nat)
      requires Interned(ids)
      modifies this`ids
      ensures Interned(ids) && id in ids && n == ids[id]
      ensures Grown(old(ids), ids) && ids.Keys == old(ids.Keys) + {id}
    {
      if id in ids {
        return ids[id];
      }
      n := |ids|;
      ids := ids[id := n];
    }

    /** The code of a pair: its two ids in one word. */
    method InternPair(e: Ends) returns (code: int)
      requires Interned(ids)
      modifies this`ids
      ensures Interned(ids) && Known(ids, e) && code == Code(ids, e)
      ensures Grown(old(ids), ids) && ids.Keys == old(ids.Keys) + {e.src, e.dst}
    {
      hide *;
      ghost var ids0 := ids;
      var src := Intern(e.src);
      ghost var ids1 := ids;
      var dst := Intern(e.dst);
      GrownTwice(ids0, ids1, ids, e);
      code := src * TWO32 + dst;
    }

    /**
     One row: every kept measure and port sum of its bucket grows by the row's, or the row needs the SQL path because
     it has to.
     */
    method ReadRow(r: StatRow) returns (ok: bool)
      requires Valid() && RowFits(r)
      modifies this
      ensures ok <==> Taken(old(buckets), r, bs, countPhysical)
      ensures ok ==> Valid()
      ensures ok ==> MeasuresGrew(old(buckets), buckets, [r], bs, countPhysical)
      ensures ok ==> PortsGrew(old(buckets), buckets, [r], bs) && EndsGrew(old(ends), ends, [r], bs)
      ensures ok ==>
              ids.Keys == old(ids.Keys) + {r.src, r.dst} && buckets.Keys == old(buckets.Keys) + {BucketOf(r.bucket, bs)}
    {
      hide AddInt64, BucketOf, PairsCoded, AccMeasure, OfStatRow, MeasuresGrew, EndsGrew, AccFits, RowFits, Interned,
          Code, SumsFit, Kept, OfColumns, Grown, Known, PortsGrew, TakesPorts, SumsAreInt64, PortTotals;
      ok := false;
      if !Complete(r, countPhysical) {
        return;
      }
      ColumnsFit(r);
      AddInt64Exact(r.tx.value, r.rx.value);
      var total := AddInt64(r.tx.value, r.rx.value);
      if total.None? {
        return;
      }
      var b := BucketOf(r.bucket, bs);
      var acc := AccAt(buckets, b);
      NewAccFits(buckets, b);
      var next, fits := AddColumns(acc, r, total.value, countPhysical);
      if !fits {
        return;
      }
      var ports, taken := AddRowPorts(acc, r);
      if !taken {
        return;
      }
      ghost var ids0 := ids;
      var code := InternPair(Ends(r.src, r.dst));
      PairAdded(buckets, ids0, ids, ends, b, next.(ports := ports), Ends(r.src, r.dst));
      PairsDoNotMatter(next, next.pairs + [code], ports);
      RowAdded(buckets, next, code, ports, ends, b, r, bs, countPhysical);
      buckets := buckets[b := next.(pairs := next.pairs + [code], ports := ports)];
      ends := ends[b := EndsAt(ends, b) + {Ends(r.src, r.dst)}];
      ok := true;
    }

    /** All rows of a statement, in the order they come. */
    method Read(rows: seq<StatRow>) returns (ok: bool)
      requires Valid() && forall r :: r in rows ==> RowFits(r)
      modifies this
      ensures ok <==> AcceptsRows(old(buckets), rows, bs, countPhysical)
      ensures ok ==>
              Valid() && ids.Keys == old(ids.Keys) + IdsOf(rows)
              && buckets.Keys == old(buckets.Keys) + BucketsOf(rows, bs)
      ensures ok ==> MeasuresGrew(old(buckets), buckets, rows, bs, countPhysical)
      ensures ok ==> PortsGrew(old(buckets), buckets, rows, bs) && EndsGrew(old(ends), ends, rows, bs)
    {
      hide MeasuresGrew, EndsGrew, RowFits, PairsCoded, AccFits, Interned, AcceptsRows, Taken, IdsOf, PortsGrew,
          Complete, BucketsOf, BucketOf;
      AcceptsNothing(buckets, bs, countPhysical);
      GrewByNothing(buckets, ends, bs, countPhysical);
      assert rows[..0] == [];
      var i := 0;
      while i < |rows|
        invariant 0 <= i <= |rows| && Valid()
        invariant MeasuresGrew(old(buckets), buckets, rows[..i], bs, countPhysical)
        invariant PortsGrew(old(buckets), buckets, rows[..i], bs) && EndsGrew(old(ends), ends, rows[..i], bs)
        invariant ids.Keys == old(ids.Keys) + IdsOf(rows[..i]) && buckets.Keys == old(buckets.Keys)
                  + BucketsOf(rows[..i], bs)
        invariant AcceptsRows(old(buckets), rows[..i], bs, countPhysical)
      {
        ghost var buckets0, ends0 := buckets, ends;
        var good := ReadRow(rows[i]);
        AcceptsOneMore(old(buckets), buckets0, rows, i, bs, countPhysical);
        if !good {
          return false;
        }
        GrewByOne(old(buckets), buckets0, buckets, old(ends), ends0, ends, rows[..i], rows[i], bs, countPhysical);
        PortsGrewTwice(old(buckets), buckets0, buckets, rows[..i], [rows[i]], bs);
        assert rows[..i + 1] == rows[..i] + [rows[i]];
        IdsGrow(rows, i, bs);
        i := i + 1;
      }
      assert rows[..i] == rows;
      ok := true;
    }

    /** results: each bucket's totals, its pairs counted by sorting, its protocol classes and its top ports. */
    method Results() returns (out: map<int, Stat>)
      requires Valid() && |ids| <= TWO32
      ensures out.Keys == buckets.Keys == ends.Keys
      ensures forall b :: b in out ==> out[b] == Summary(buckets[b], ends[b])
    {
      hide AccFits, Coded, Interned, Top;
      out := map[];
      var left := buckets.Keys;
      while left != {}
        invariant left <= buckets.Keys && out.Keys == buckets.Keys - left
        invariant forall b :: b in out ==> out[b] == Summary(buckets[b], ends[b])
        decreases left
      {
        assert exists b :: b in left by { SomeIn(left); }
        var b :| b in left;
        left := left - {b};
        var a := buckets[b];
        var sorted := SortCodes(a.pairs);
        var unique := CountUnique(sorted);
        CodesCountPairs(a.pairs, ids, ends[b]);
        var tcp, udp, other := Classes(a.protos);
        var top := RankPorts(a.ports);
        out := out[b := Stat(a.virtual, a.exit, a.subnet, a.physical, a.flows, unique, tcp, udp, other, top)];
      }
    }
  }

  /** A row the pass can take: complete, readable, its total fits, and so does every sum it adds to. */
  ghost predicate Taken(buckets: map<int, Acc>, r: StatRow, bs: int, countPhysical: bool)
    requires bs > 0
  {
    && Complete(r, countPhysical) && Int64(r.tx.value + r.rx.value)
    && SumsFit(AccAt(buckets, BucketOf(r.bucket, bs)), r, countPhysical)
    && TakesPorts(AccAt(buckets, BucketOf(r.bucket, bs)).ports, r)
  }

  ghost predicate SumsFit(a: Acc, r: StatRow, countPhysical: bool) {
    forall m :: Kept(m, countPhysical) ==> Int64(AccMeasure(a, m) + OfStatRow(m, r))
  }

  /** Every row is complete and readable and no sum leaves the 64-bit range on the way. */
  ghost predicate AcceptsRows(buckets: map<int, Acc>, rows: seq<StatRow>, bs: int, countPhysical: bool)
    requires bs > 0
  {
    forall i :: 0 <= i < |rows| ==> Running(buckets, rows, i, bs, countPhysical)
  }

  ghost predicate Running(buckets: map<int, Acc>, rows: seq<StatRow>, i: nat, bs: int, countPhysical: bool)
    requires bs > 0 && i < |rows|
  {
    && Complete(rows[i], countPhysical) && Int64(rows[i].tx.value + rows[i].rx.value)
    && PortsRun(buckets, rows, i, bs)
    && forall m :: Kept(m, countPhysical) ==>
         var b := BucketOf(rows[i].bucket, bs);
         Int64(AccMeasure(AccAt(buckets, b), m) + RowsMeasure(rows[..i + 1], bs, b, m))
  }

  ghost predicate PortsRun(buckets: map<int, Acc>, rows: seq<StatRow>, i: nat, bs: int)
    requires bs > 0 && i < |rows|
  {
    var b := BucketOf(rows[i].bucket, bs);
    TakesPorts(PortTotals(AccAt(buckets, b).ports, RowsPorts(rows[..i], bs, b)), rows[i])
  }

  lemma AcceptsNothing(buckets: map<int, Acc>, bs: int, countPhysical: bool)
    requires bs > 0
    ensures AcceptsRows(buckets, [], bs, countPhysical) && IdsOf([]) == {} && BucketsOf([], bs) == {}
  {
  }

  lemma AcceptsOneMore(before: map<int, Acc>, now: map<int, Acc>, rows: seq<StatRow>, i: nat, bs: int,
                       countPhysical: bool)
    requires bs > 0 && i < |rows| && AcceptsRows(before, rows[..i], bs, countPhysical)
    requires MeasuresGrew(before, now, rows[..i], bs, countPhysical) && PortsGrew(before, now, rows[..i], bs)
    ensures AcceptsRows(before, rows[..i + 1], bs, countPhysical) <==> Taken(now, rows[i], bs, countPhysical)
    ensures AcceptsRows(before, rows, bs, countPhysical) ==> Taken(now, rows[i], bs, countPhysical)
  {
    hide AccMeasure, OfStatRow, Kept, BucketOf, AccAt, Complete, TakesPorts, PortTotals, RowsPorts;
    assert rows[..i + 1][..i] == rows[..i];
    assert PortsRun(before, rows, i, bs) == TakesPorts(AccAt(now, BucketOf(rows[i].bucket, bs)).ports, rows[i]);
    hide PortsRun, PortsGrew;
    forall m | Kept(m, countPhysical)
      ensures var b := BucketOf(rows[i].bucket, bs);
              AccMeasure(AccAt(now, b), m) + OfStatRow(m, rows[i])
              == AccMeasure(AccAt(before, b), m) + RowsMeasure(rows[..i + 1], bs, b, m)
    {
    }
    assert Running(before, rows, i, bs, countPhysical) <==> Taken(now, rows[i], bs, countPhysical);
    RunningPrefix(before, rows, i + 1, bs, countPhysical);
    RunningPrefix(before, rows, i, bs, countPhysical);
    hide Running, Taken;
  }

  lemma RunningPrefix(before: map<int, Acc>, rows: seq<StatRow>, n: nat, bs: int, countPhysical: bool)
    requires bs > 0 && n <= |rows|
    ensures forall i :: 0 <= i < n ==>
              (Running(before, rows[..n], i, bs, countPhysical) <==> Running(before, rows, i, bs, countPhysical))
  {
    hide AccMeasure, Kept, BucketOf, AccAt, Complete, RowsMeasure, TakesPorts, PortTotals, RowsPorts;
    forall i | 0 <= i < n
      ensures Running(before, rows[..n], i, bs, countPhysical) <==> Running(before, rows, i, bs, countPhysical)
    {
      assert rows[..n][..i + 1] == rows[..i + 1] && rows[..n][..i] == rows[..i];
    }
  }

  function IdsOf(rows: seq<StatRow>): set<string> {
    (set r | r in rows :: r.src) + (set r | r in rows :: r.dst)
  }

  function BucketsOf(rows: seq<StatRow>, bs: int): set<int>
    requires bs > 0
  {
    set r | r in rows :: BucketOf(r.bucket, bs)
  }

  lemma IdsGrow(rows: seq<StatRow>, i: nat, bs: int)
    requires i < |rows| && bs > 0
    ensures BucketsOf(rows[..i + 1], bs) == BucketsOf(rows[..i], bs) + {BucketOf(rows[i].bucket, bs)}
    ensures IdsOf(rows[..i + 1]) == IdsOf(rows[..i]) + {rows[i].src, rows[i].dst}
  {
    assert rows[..i + 1] == rows[..i] + [rows[i]];
    hide BucketOf;
    assert rows[i] in rows[..i + 1];
    forall r | r in rows[..i]
      ensures r in rows[..i + 1]
    {
    }
  }

  lemma ColumnsFit(r: StatRow)
    requires RowFits(r)
    ensures (r.tx.Some? ==> Int64(r.tx.value)) && (r.rx.Some? ==> Int64(r.rx.value))
            && (r.flows.Some? ==> Int64(r.flows.value))
  {
  }

  lemma NewAccFits(buckets: map<int, Acc>, b: int)
    requires forall x :: x in buckets ==> AccFits(buckets[x])
    ensures AccFits(AccAt(buckets, b))
  {
    assert AccFits(NEW_ACC);
  }

  lemma PairsDoNotMatter(a: Acc, pairs: seq<int>, ports: map<Slot, int>)
    requires AccFits(a) && SumsAreInt64(ports)
    ensures AccFits(a.(pairs := pairs, ports := ports))
  {
  }

  lemma GrownTwice(a: map<string, nat>, b: map<string, nat>, c: map<string, nat>, e: Ends)
    requires Grown(a, b) && Grown(b, c) && e.src in b && e.dst in c
    ensures Grown(a, c) && Known(c, e) && Code(c, e) == b[e.src] * TWO32 + c[e.dst]
  {
  }

  /** One bucket's accumulator and pairs replaced: the rest is as before. */
  lemma RowAdded(buckets: map<int, Acc>, next: Acc, code: int, ports: map<Slot, int>, ends: map<int, set<Ends>>,
                 b: int, r: StatRow, bs: int, countPhysical: bool)
    requires bs > 0 && b == BucketOf(r.bucket, bs)
    requires PortsOfRow(r).Some? && ports == PortTotals(AccAt(buckets, b).ports, PortsOfRow(r).value)
    requires forall m :: Kept(m, countPhysical) ==>
             AccMeasure(next, m) == AccMeasure(AccAt(buckets, b), m) + OfStatRow(m, r)
    ensures var after := buckets[b := next.(pairs := next.pairs + [code], ports := ports)];
            MeasuresGrew(buckets, after, [r], bs, countPhysical) && PortsGrew(buckets, after, [r], bs)
    ensures EndsGrew(ends, ends[b := EndsAt(ends, b) + {Ends(r.src, r.dst)}], [r], bs)
  {
    hide OfStatRow, BucketOf, PortTotals, PortsOfRow;
    assert [r][..0] == [];
    var after := buckets[b := next.(pairs := next.pairs + [code], ports := ports)];
    forall x
      ensures AccAt(after, x).ports == PortTotals(AccAt(buckets, x).ports, RowsPorts([r], bs, x))
    {
      assert RowsPorts([], bs, x) == [];
      assert RowsPorts([r], bs, x) == if x == b then PortsOfRow(r).value else [];
      NoPorts(AccAt(buckets, x).ports);
    }
    forall x, m | Kept(m, countPhysical)
      ensures AccMeasure(AccAt(after, x), m) == AccMeasure(AccAt(buckets, x), m) + RowsMeasure([r], bs, x, m)
    {
      assert RowsMeasure([], bs, x, m) == 0;
    }
    forall x
      ensures EndsAt(ends[b := EndsAt(ends, b) + {Ends(r.src, r.dst)}], x) == EndsAt(ends, x) + RowsEnds([r], bs, x)
    {
      assert RowsEnds([], bs, x) == {};
    }
  }

  /** The port column of one row added to its bucket. */
  method AddRowPorts(a: Acc, r: StatRow) returns (ports: map<Slot, int>, ok: bool)
    requires AccFits(a)
    ensures ok <==> TakesPorts(a.ports, r)
    ensures ok ==>
            PortsOfRow(r).Some? && SumsAreInt64(ports) && ports == PortTotals(a.ports, PortsOfRow(r).value)
  {
    hide SumsAreInt64, PortTotals, PortsOf;
    if r.traffic == "physical" {
      NoPorts(a.ports);
      return a.ports, true;
    }
    hide PortsFit;
    ports, ok := AddPorts(a.ports, r.ports);
  }

  /** The columns of one row added to its bucket, except its ports: refused exactly when a kept sum would not fit. */
  method AddColumns(a: Acc, r: StatRow, total: int, countPhysical: bool) returns (a': Acc, ok: bool)
    requires AccFits(a) && RowFits(r) && Complete(r, countPhysical)
    requires total == r.tx.value + r.rx.value && Int64(total)
    ensures ok <==> SumsFit(a, r, countPhysical)
    ensures ok ==> AccFits(a') && a'.pairs == a.pairs && a'.ports == a.ports
    ensures ok ==> forall m :: Kept(m, countPhysical) ==> AccMeasure(a', m) == AccMeasure(a, m) + OfStatRow(m, r)
  {
    hide AddInt64;
    a', ok := AddBytesOf(a, r.traffic, total);
    if !ok {
      var m := Bytes(r.traffic);
      assert Kept(m, countPhysical) && OfStatRow(m, r) == total;
      return;
    }
    AddInt64Exact(a.flows, r.flows.value);
    var flows := AddInt64(a.flows, r.flows.value);
    if flows.None? {
      ok := false;
      assert Kept(Flows, countPhysical) && !Int64(AccMeasure(a, Flows) + OfStatRow(Flows, r));
      return;
    }
    var protos := a.protos;
    if CountsProtos(r, countPhysical) {
      protos, ok := AddProtos(a.protos, r.protos.value);
      if !ok {
        var k :| k in r.protos.value && !Int64(IntAt(a.protos, k) + r.protos.value[k]);
        var m := ProtoBytes(k, countPhysical);
        assert Kept(m, countPhysical) && !Int64(AccMeasure(a, m) + OfStatRow(m, r));
        return;
      }
    }
    a' := a'.(flows := flows.value, protos := protos);
    forall m | Kept(m, countPhysical)
      ensures AccMeasure(a', m) == AccMeasure(a, m) + OfStatRow(m, r) && Int64(AccMeasure(a', m))
    {
      assert AccFits(a');
    }
  }

  function EndsAt(ends: map<int, set<Ends>>, b: int): set<Ends> {
    if b in ends then ends[b] else {}
  }

  function RowsEnds(rows: seq<StatRow>, bs: int, b: int): set<Ends>
    requires bs > 0
  {
    if rows == [] then {}
    else
      RowsEnds(rows[..|rows| - 1], bs, b)
      + if BucketOf(rows[|rows| - 1].bucket, bs) == b then {Ends(rows[|rows| - 1].src, rows[|rows| - 1].dst)} else {}
  }

  /** Ids are handed out in order, one per string. */
  ghost predicate Interned(ids: map<string, nat>) {
    && (forall s :: s in ids ==> ids[s] < |ids|)
    && (forall s, t :: s in ids && t in ids && ids[s] == ids[t] ==> s == t)
  }

  ghost predicate Grown(before: map<string, nat>, after: map<string, nat>) {
    forall s :: s in before ==> s in after && after[s] == before[s]
  }

  predicate Known(ids: map<string, nat>, e: Ends) {
    e.src in ids && e.dst in ids
  }

  function Code(ids: map<string, nat>, e: Ends): int
    requires Known(ids, e)
  {
    ids[e.src] * TWO32 + ids[e.dst]
  }

  /** A bucket's codes are those of its pairs. */
  ghost predicate Coded(pairs: seq<int>, ids: map<string, nat>, ends: set<Ends>) {
    && (forall e :: e in ends ==> Known(ids, e) && Code(ids, e) in pairs)
    && (forall c :: c in pairs ==> exists e :: e in ends && Known(ids, e) && Code(ids, e) == c)
  }

  ghost predicate PairsCoded(buckets: map<int, Acc>, ids: map<string, nat>, ends: map<int, set<Ends>>) {
    buckets.Keys == ends.Keys && forall b :: b in buckets ==> Coded(buckets[b].pairs, ids, ends[b])
  }

  lemma CodedGrows(pairs: seq<int>, ids: map<string, nat>, ids': map<string, nat>, ends: set<Ends>)
    requires Coded(pairs, ids, ends) && Grown(ids, ids')
    ensures Coded(pairs, ids', ends)
  {
    forall e | Known(ids, e)
      ensures Known(ids', e) && Code(ids', e) == Code(ids, e)
    {
    }
    hide Code, Known, Grown;
    forall c | c in pairs
      ensures exists e :: e in ends && Known(ids', e) && Code(ids', e) == c
    {
      var e :| e in ends && Known(ids, e) && Code(ids, e) == c;
      assert Code(ids', e) == c;
    }
  }

  lemma CodedSnoc(pairs: seq<int>, ids: map<string, nat>, ends: set<Ends>, e: Ends)
    requires Coded(pairs, ids, ends) && Known(ids, e)
    ensures Coded(pairs + [Code(ids, e)], ids, ends + {e})
  {
    var next := pairs + [Code(ids, e)];
    assert next[|pairs|] == Code(ids, e);
    forall c | c in next
      ensures exists x :: x in ends + {e} && Known(ids, x) && Code(ids, x) == c
    {
      if c in pairs {
        var x :| x in ends && Known(ids, x) && Code(ids, x) == c;
        assert x in ends + {e};
      }
    }
  }

  lemma PairAdded(buckets: map<int, Acc>, ids: map<string, nat>, ids': map<string, nat>, ends: map<int, set<Ends>>,
                  b: int, next: Acc, e: Ends)
    requires PairsCoded(buckets, ids, ends) && Grown(ids, ids') && Known(ids', e)
    requires next.pairs == AccAt(buckets, b).pairs
    ensures PairsCoded(buckets[b := next.(pairs := next.pairs + [Code(ids', e)])], ids',
            ends[b := EndsAt(ends, b) + {e}])
  {
    hide Coded;
    forall x | x in buckets
      ensures Coded(buckets[x].pairs, ids', ends[x])
    {
      CodedGrows(buckets[x].pairs, ids, ids', ends[x]);
    }
    assert b !in buckets ==> Coded([], ids', {}) by { NothingCoded(ids'); }
    CodedSnoc(next.pairs, ids', EndsAt(ends, b), e);
  }

  lemma NothingCoded(ids: map<string, nat>)
    ensures Coded([], ids, {})
  {
  }

  // ---- Results.

  ghost predicate NonDecreasing(s: seq<int>) {
    forall i, j :: 0 <= i <= j < |s| ==> s[i] <= s[j]
  }

  function ValuesOf(s: seq<int>): set<int> {
    set c | c in s
  }

  /** Sort and count: how many different codes a sorted list holds. */
  method CountUnique(sorted: seq<int>) returns (n: nat)
    requires NonDecreasing(sorted)
    ensures n == |ValuesOf(sorted)|
  {
    n := 0;
    var i := 0;
    ghost var seen: set<int> := {};
    while i < |sorted|
      invariant 0 <= i <= |sorted|
      invariant seen == ValuesOf(sorted[..i])
      invariant n == |seen|
    {
      hide NonDecreasing;
      NewInSorted(sorted, i);
      if i == 0 || sorted[i] != sorted[i - 1] {
        n := n + 1;
      }
      seen := seen + {sorted[i]};
      i := i + 1;
    }
    assert sorted[..i] == sorted;
  }

  /** In a sorted list a value is new exactly when it differs from the one before it. */
  lemma NewInSorted(sorted: seq<int>, i: nat)
    requires NonDecreasing(sorted) && i < |sorted|
    ensures sorted[i] in ValuesOf(sorted[..i]) <==> !(i == 0 || sorted[i] != sorted[i - 1])
    ensures ValuesOf(sorted[..i + 1]) == ValuesOf(sorted[..i]) + {sorted[i]}
  {
    assert sorted[..i + 1] == sorted[..i] + [sorted[i]];
    if i > 0 {
      assert sorted[i - 1] in sorted[..i];
    }
    forall c | c in ValuesOf(sorted[..i])
      ensures c <= sorted[i - 1] <= sorted[i]
    {
      var j :| 0 <= j < i && sorted[..i][j] == c;
      assert sorted[j] <= sorted[i - 1] <= sorted[i];
    }
  }

  /** With fewer than 2^32 ids, different pairs have different codes. */
  lemma CodesDiffer(ids: map<string, nat>, d: Ends, e: Ends)
    requires Interned(ids) && |ids| <= TWO32 && Known(ids, d) && Known(ids, e) && Code(ids, d) == Code(ids, e)
    ensures d == e
  {
    assert ids[d.src] == Code(ids, d) / TWO32 && ids[d.dst] == Code(ids, d) % TWO32;
    assert ids[e.src] == Code(ids, e) / TWO32 && ids[e.dst] == Code(ids, e) % TWO32;
  }

  /** So counting codes is counting pairs. */
  lemma {:induction false} CodesCountPairs(pairs: seq<int>, ids: map<string, nat>, ends: set<Ends>)
    requires Interned(ids) && |ids| <= TWO32 && Coded(pairs, ids, ends)
    ensures |ValuesOf(pairs)| == |ends|
  {
    var codes := ValuesOf(pairs);
    assert codes == CodesOf(ids, ends) by {
      forall c | c in codes
        ensures c in CodesOf(ids, ends)
      {
        var e :| e in ends && Known(ids, e) && Code(ids, e) == c;
      }
    }
    CodesOfSize(ids, ends);
  }

  function CodesOf(ids: map<string, nat>, ends: set<Ends>): set<int>
    requires forall e :: e in ends ==> Known(ids, e)
  {
    set e | e in ends :: Code(ids, e)
  }

  lemma {:induction false} CodesOfSize(ids: map<string, nat>, ends: set<Ends>)
    requires Interned(ids) && |ids| <= TWO32 && forall e :: e in ends ==> Known(ids, e)
    ensures |CodesOf(ids, ends)| == |ends|
    decreases ends
  {
    if ends != {} {
      var e :| e in ends;
      var rest := ends - {e};
      CodesOfSize(ids, rest);
      if Code(ids, e) in CodesOf(ids, rest) {
        var d :| d in rest && Code(ids, d) == Code(ids, e);
        CodesDiffer(ids, d, e);
      }
      assert CodesOf(ids, ends) == CodesOf(ids, rest) + {Code(ids, e)};
    }
  }

  /** The protocol classes of one bucket; the sum over the other protocols is not checked and may wrap. */
  method Classes(protos: map<int, int>) returns (tcp: int, udp: int, other: int)
    ensures tcp == IntAt(protos, 6) && udp == IntAt(protos, 17)
    ensures other == Wrap(SumOver(protos.Keys - {6, 17}, k => IntAt(protos, k)))
    ensures Int64(SumOver(protos.Keys - {6, 17}, k => IntAt(protos, k))) ==>
              tcp + udp + other == SumOver(protos.Keys, k => IntAt(protos, k))
  {
    tcp, udp, other := 0, 0, 0;
    ghost var f := k => IntAt(protos, k);
    var left := protos.Keys;
    ghost var done: set<int> := {};
    while left != {}
      invariant left + done == protos.Keys && left !! done
      invariant tcp == (if 6 in done then IntAt(protos, 6) else 0) && udp == if 17 in done then IntAt(protos, 17) else 0
      invariant other == Wrap(SumOver(done - {6, 17}, f))
      invariant tcp + udp + SumOver(done - {6, 17}, f) == SumOver(done, f)
      decreases left
    {
      hide Wrap;
      assert exists k :: k in left by { SomeIn(left); }
      var k :| k in left;
      left := left - {k};
      ghost var next := done + {k};
      SumTake(next, f, k);
      assert next - {k} == done;
      if k == 6 {
        tcp := tcp + protos[k];
        assert next - {6, 17} == done - {6, 17};
      } else if k == 17 {
        udp := udp + protos[k];
        assert next - {6, 17} == done - {6, 17};
      } else {
        WrapAdds(SumOver(done - {6, 17}, f), protos[k]);
        other := Wrap(other + protos[k]);
        SumTake(next - {6, 17}, f, k);
        assert next - {6, 17} - {k} == done - {6, 17};
      }
      done := next;
    }
    assert done == protos.Keys;
    WrapFits(SumOver(protos.Keys - {6, 17}, f));
  }

  /** One sorted list of a bucket's codes. */
  method SortCodes(pairs: seq<int>) returns (sorted: seq<int>)
    ensures NonDecreasing(sorted) && ValuesOf(sorted) == ValuesOf(pairs)
  {
    hide NonDecreasing, ValuesOf;
    sorted := [];
    var i := 0;
    NoCodes();
    assert pairs[..0] == [];
    while i < |pairs|
      invariant 0 <= i <= |pairs|
      invariant NonDecreasing(sorted) && ValuesOf(sorted) == ValuesOf(pairs[..i])
    {
      InsertKeeps(sorted, pairs[i]);
      sorted := Insert(sorted, pairs[i]);
      ValuesSnoc(pairs, i);
      i := i + 1;
    }
    assert pairs[..i] == pairs;
  }

  function Insert(sorted: seq<int>, c: int): seq<int> {
    if sorted == [] || sorted[|sorted| - 1] <= c then sorted + [c]
    else Insert(sorted[..|sorted| - 1], c) + [sorted[|sorted| - 1]]
  }

  lemma NoCodes()
    ensures NonDecreasing([]) && ValuesOf([]) == {}
  {
  }

  lemma ValuesSnoc(pairs: seq<int>, i: nat)
    requires i < |pairs|
    ensures ValuesOf(pairs[..i + 1]) == ValuesOf(pairs[..i]) + {pairs[i]}
  {
    assert pairs[..i + 1] == pairs[..i] + [pairs[i]];
  }

  lemma {:induction false} InsertKeeps(sorted: seq<int>, c: int)
    requires NonDecreasing(sorted)
    ensures NonDecreasing(Insert(sorted, c)) && ValuesOf(Insert(sorted, c)) == ValuesOf(sorted) + {c}
  {
    if sorted != [] && sorted[|sorted| - 1] > c {
      var front, last := sorted[..|sorted| - 1], sorted[|sorted| - 1];
      InsertKeeps(front, c);
      assert sorted == front + [last];
      forall x | x in Insert(front, c)
        ensures x <= last
      {
        assert x in ValuesOf(Insert(front, c));
      }
      SortedSnoc(Insert(front, c), last);
    } else {
      assert forall x :: x in sorted ==> x <= c;
      SortedSnoc(sorted, c);
    }
  }

  lemma SortedSnoc(front: seq<int>, last: int)
    requires NonDecreasing(front) && forall x :: x in front ==> x <= last
    ensures NonDecreasing(front + [last]) && ValuesOf(front + [last]) == ValuesOf(front) + {last}
  {
    assert forall i :: 0 <= i < |front| ==> front[i] in front;
  }

  // ---- What the pass returns.

  datatype Stat = Stat(virtual: int, exit: int, subnet: int, physical: int, flows: int, uniquePairs: nat, tcp: int,
                       udp: int, other: int, topPorts: seq<PortsJson.PortEntry>)

  /** The stats of a bucket as its accumulator gives them. */
  ghost function Summary(a: Acc, ends: set<Ends>): Stat {
    Stat(a.virtual, a.exit, a.subnet, a.physical, a.flows, |ends|, IntAt(a.protos, 6), IntAt(a.protos, 17),
         Wrap(SumOver(a.protos.Keys - {6, 17}, k => IntAt(a.protos, k))), Top(a.ports))
  }

  /** Protocols of the rows of a bucket. */
  function RowsProtos(rows: seq<StatRow>, bs: int, b: int): set<int>
    requires bs > 0
  {
    if rows == [] then {}
    else
      var r := rows[|rows| - 1];
      RowsProtos(rows[..|rows| - 1], bs, b) + if BucketOf(r.bucket, bs) == b && r.protos.Some?
          then r.protos.value.Keys else {}
  }

  /** The stats of a bucket as its rows give them. */
  ghost function StatOf(rows: seq<StatRow>, bs: int, b: int, countPhysical: bool): Stat
    requires bs > 0
  {
    Stat(RowsMeasure(rows, bs, b, Bytes("virtual")), RowsMeasure(rows, bs, b, Bytes("exit")),
         RowsMeasure(rows, bs, b, Bytes("subnet")), RowsMeasure(rows, bs, b, Bytes("physical")),
         RowsMeasure(rows, bs, b, Flows), |RowsEnds(rows, bs, b)|,
         RowsMeasure(rows, bs, b, ProtoBytes(6, countPhysical)),
             RowsMeasure(rows, bs, b, ProtoBytes(17, countPhysical)),
         Wrap(SumOver(RowsProtos(rows, bs, b) - {6, 17}, p => RowsMeasure(rows, bs, b, ProtoBytes(p, countPhysical)))),
         Top(PortTotals(map[], RowsPorts(rows, bs, b))))
  }

  ghost function StatsOf(rows: seq<StatRow>, bs: int, countPhysical: bool): map<int, Stat>
    requires bs > 0
  {
    map b | b in BucketsOf(rows, bs) :: StatOf(rows, bs, b, countPhysical)
  }

  lemma {:induction false} NoProtoBytes(rows: seq<StatRow>, bs: int, b: int, p: int, countPhysical: bool)
    requires bs > 0 && p !in RowsProtos(rows, bs, b)
    ensures RowsMeasure(rows, bs, b, ProtoBytes(p, countPhysical)) == 0
  {
    hide BucketOf;
    if rows != [] {
      NoProtoBytes(rows[..|rows| - 1], bs, b, p, countPhysical);
    }
  }

  /** Sums over two sets of protocols agree when each covers whatever adds anything. */
  lemma OtherAgrees(s: set<int>, t: set<int>, f: int -> int, g: int -> int)
    requires forall p :: f(p) == g(p)
    requires forall p :: (p !in s ==> f(p) == 0) && (p !in t ==> g(p) == 0)
    ensures SumOver(s - {6, 17}, f) == SumOver(t - {6, 17}, g)
  {
    var all := s + t - {6, 17};
    forall p | p in all
      ensures f(p) == g(p) && (p !in s ==> f(p) == 0) && (p !in t ==> g(p) == 0)
    {
    }
    SumGrow(s - {6, 17}, all, f);
    SumGrow(t - {6, 17}, all, g);
    SumSame(all, f, g);
  }

  /** From an empty pass, a bucket's accumulator summarises its rows. */
  lemma SummaryIsStat(buckets: map<int, Acc>, ends: map<int, set<Ends>>, rows: seq<StatRow>, bs: int, b: int,
                      countPhysical: bool)
    requires bs > 0 && b in buckets && b in ends
    requires MeasuresGrew(map[], buckets, rows, bs, countPhysical) && EndsGrew(map[], ends, rows, bs)
    requires PortsGrew(map[], buckets, rows, bs)
    ensures Summary(buckets[b], ends[b]) == StatOf(rows, bs, b, countPhysical)
  {
    hide RowsMeasure, RowsEnds, RowsProtos, SumOver, Wrap, AccMeasure, MeasuresGrew, EndsGrew, PortsGrew, Top,
        RowsPorts, PortTotals;
    BucketIsRows(buckets, ends, rows, bs, b, countPhysical);
    KeptMeasures(buckets[b], rows, bs, b, countPhysical);
    OtherIsOther(buckets[b], rows, bs, b, countPhysical);
  }

  lemma KeptMeasures(a: Acc, rows: seq<StatRow>, bs: int, b: int, countPhysical: bool)
    requires bs > 0 && forall m :: Kept(m, countPhysical) ==> AccMeasure(a, m) == RowsMeasure(rows, bs, b, m)
    ensures a.virtual == RowsMeasure(rows, bs, b, Bytes("virtual")) && a.exit == RowsMeasure(rows, bs, b, Bytes("exit"))
    ensures a.subnet == RowsMeasure(rows, bs, b, Bytes("subnet")) && a.physical
            == RowsMeasure(rows, bs, b, Bytes("physical"))
    ensures a.flows == RowsMeasure(rows, bs, b, Flows)
    ensures forall p :: IntAt(a.protos, p) == RowsMeasure(rows, bs, b, ProtoBytes(p, countPhysical))
  {
    hide RowsMeasure;
    assert Kept(Bytes("virtual"), countPhysical) && Kept(Bytes("exit"), countPhysical)
        && Kept(Bytes("subnet"), countPhysical);
    assert Kept(Bytes("physical"), countPhysical) && Kept(Flows, countPhysical);
    forall p
      ensures IntAt(a.protos, p) == RowsMeasure(rows, bs, b, ProtoBytes(p, countPhysical))
    {
      assert Kept(ProtoBytes(p, countPhysical), countPhysical);
    }
  }

  lemma OtherIsOther(a: Acc, rows: seq<StatRow>, bs: int, b: int, countPhysical: bool)
    requires bs > 0 && forall p :: IntAt(a.protos, p) == RowsMeasure(rows, bs, b, ProtoBytes(p, countPhysical))
    ensures SumOver(a.protos.Keys - {6, 17}, k => IntAt(a.protos, k))
         == SumOver(RowsProtos(rows, bs, b) - {6, 17}, p => RowsMeasure(rows, bs, b, ProtoBytes(p, countPhysical)))
  {
    hide RowsMeasure, RowsProtos, SumOver;
    var f, g := k => IntAt(a.protos, k), p => RowsMeasure(rows, bs, b, ProtoBytes(p, countPhysical));
    forall p
      ensures f(p) == g(p) && (p !in a.protos.Keys ==> f(p) == 0) && (p !in RowsProtos(rows, bs, b) ==> g(p) == 0)
    {
      if p !in RowsProtos(rows, bs, b) {
        NoProtoBytes(rows, bs, b, p, countPhysical);
      }
    }
    OtherAgrees(a.protos.Keys, RowsProtos(rows, bs, b), f, g);
  }

  lemma BucketIsRows(buckets: map<int, Acc>, ends: map<int, set<Ends>>, rows: seq<StatRow>, bs: int, b: int,
                     countPhysical: bool)
    requires bs > 0 && b in buckets && b in ends
    requires MeasuresGrew(map[], buckets, rows, bs, countPhysical) && EndsGrew(map[], ends, rows, bs)
    requires PortsGrew(map[], buckets, rows, bs)
    ensures forall m :: Kept(m, countPhysical) ==> AccMeasure(buckets[b], m) == RowsMeasure(rows, bs, b, m)
    ensures ends[b] == RowsEnds(rows, bs, b)
    ensures buckets[b].ports == PortTotals(map[], RowsPorts(rows, bs, b))
  {
    hide RowsMeasure, RowsEnds, Kept, PortTotals, RowsPorts;
    assert AccAt(buckets, b).ports == PortTotals(AccAt(map[], b).ports, RowsPorts(rows, bs, b));
    assert AccAt(map[], b) == NEW_ACC && EndsAt(map[], b) == {};
    forall m | Kept(m, countPhysical)
      ensures AccMeasure(buckets[b], m) == RowsMeasure(rows, bs, b, m)
    {
      assert AccMeasure(AccAt(buckets, b), m) == AccMeasure(AccAt(map[], b), m) + RowsMeasure(rows, bs, b, m);
      assert AccMeasure(NEW_ACC, m) == 0;
    }
    assert EndsAt(ends, b) == EndsAt(map[], b) + RowsEnds(rows, bs, b);
  }

  /** singlePassMinuteStats: one statement, all or nothing. */
  method SinglePassMinuteStats(rows: seq<StatRow>, bs: int, countPhysical: bool) returns (out: Option<map<int, Stat>>)
    requires bs > 0 && (forall r :: r in rows ==> RowFits(r)) && |IdsOf(rows)| <= TWO32
    ensures out.Some? <==> AcceptsRows(map[], rows, bs, countPhysical)
    ensures out.Some? ==> out.value == StatsOf(rows, bs, countPhysical)
  {
    hide *;
    var pass := new Pass(bs, countPhysical);
    var ok := pass.Read(rows);
    if !ok {
      return None;
    }
    assert {} + IdsOf(rows) == IdsOf(rows) && {} + BucketsOf(rows, bs) == BucketsOf(rows, bs);
    var stats := ResultsOfRows(pass, rows);
    out := Some(stats);
  }

  /** The results of a pass that has read rows and nothing else. */
  method ResultsOfRows(pass: Pass, ghost rows: seq<StatRow>) returns (stats: map<int, Stat>)
    requires pass.Valid() && pass.ids.Keys == IdsOf(rows) && |IdsOf(rows)| <= TWO32
    requires pass.buckets.Keys == BucketsOf(rows, pass.bs)
    requires MeasuresGrew(map[], pass.buckets, rows, pass.bs, pass.countPhysical)
    requires PortsGrew(map[], pass.buckets, rows, pass.bs) && EndsGrew(map[], pass.ends, rows, pass.bs)
    ensures stats == StatsOf(rows, pass.bs, pass.countPhysical)
  {
    assert |pass.ids| == |pass.ids.Keys| && pass.bs > 0;
    hide *;
    stats := pass.Results();
    ResultsAre(pass.buckets, pass.ends, rows, pass.bs, pass.countPhysical, stats);
  }

  lemma ResultsAre(buckets: map<int, Acc>, ends: map<int, set<Ends>>, rows: seq<StatRow>, bs: int,
                   countPhysical: bool, stats: map<int, Stat>)
    requires bs > 0 && buckets.Keys == ends.Keys == BucketsOf(rows, bs) == stats.Keys
    requires MeasuresGrew(map[], buckets, rows, bs, countPhysical) && EndsGrew(map[], ends, rows, bs)
    requires PortsGrew(map[], buckets, rows, bs)
    requires forall b :: b in stats ==> stats[b] == Summary(buckets[b], ends[b])
    ensures stats == StatsOf(rows, bs, countPhysical)
  {
    hide Summary, StatOf, BucketsOf, MeasuresGrew, EndsGrew, PortsGrew;
    forall b | b in stats
      ensures stats[b] == StatOf(rows, bs, b, countPhysical)
    {
      SummaryIsStat(buckets, ends, rows, bs, b, countPhysical);
    }
  }

  /** singlePassRollupStats: the plan's minute edges, then its hour rows; a legacy plan is left to SQL. */
  method SinglePassRollupStats(edges: seq<StatRow>, hours: seq<StatRow>, legacy: bool, bs: int, countPhysical: bool)
    returns (out: Option<map<int, Stat>>)
    requires bs > 0 && (forall r :: r in edges + hours ==> RowFits(r)) && |IdsOf(edges + hours)| <= TWO32
    ensures out.Some? <==> !legacy && AcceptsRows(map[], edges + hours, bs, countPhysical)
    ensures out.Some? ==> out.value == StatsOf(edges + hours, bs, countPhysical)
  {
    if legacy {
      return None;
    }
    hide *;
    var pass := new Pass(bs, countPhysical);
    RowsJoin(edges, hours, bs);
    AcceptsJoin(map[], edges, hours, bs, countPhysical);
    var ok := pass.Read(edges);
    if !ok {
      return None;
    }
    ghost var buckets, ends := pass.buckets, pass.ends;
    ok := pass.Read(hours);
    AcceptsRest(map[], buckets, edges, hours, bs, countPhysical);
    if !ok {
      return None;
    }
    PortsGrewTwice(map[], buckets, pass.buckets, edges, hours, bs);
    GrewByMore(map[], buckets, pass.buckets, map[], ends, pass.ends, edges, hours, bs, countPhysical);
    var stats := ResultsOfRows(pass, edges + hours);
    out := Some(stats);
  }

  lemma RowsJoin(a: seq<StatRow>, b: seq<StatRow>, bs: int)
    requires bs > 0
    ensures {} + IdsOf(a) + IdsOf(b) == IdsOf(a + b) && {} + BucketsOf(a, bs) + BucketsOf(b, bs) == BucketsOf(a + b, bs)
    ensures (forall r :: r in a + b ==> RowFits(r)) ==>
              (forall r :: r in a ==> RowFits(r)) && forall r :: r in b ==> RowFits(r)
  {
    hide BucketOf, RowFits;
    assert forall r :: r in a + b <==> r in a || r in b;
  }

  lemma {:induction false} MeasureJoins(a: seq<StatRow>, b: seq<StatRow>, bs: int, k: int, m: Measure)
    requires bs > 0
    ensures RowsMeasure(a + b, bs, k, m) == RowsMeasure(a, bs, k, m) + RowsMeasure(b, bs, k, m)
    ensures RowsEnds(a + b, bs, k) == RowsEnds(a, bs, k) + RowsEnds(b, bs, k)
  {
    hide BucketOf, OfStatRow;
    if b == [] {
      assert a + b == a;
    } else {
      MeasureJoins(a, b[..|b| - 1], bs, k, m);
      assert (a + b)[..|a + b| - 1] == a + b[..|b| - 1];
    }
  }

  lemma GrewByMore(a: map<int, Acc>, b: map<int, Acc>, c: map<int, Acc>,
                   x: map<int, set<Ends>>, y: map<int, set<Ends>>, z: map<int, set<Ends>>,
                   rows: seq<StatRow>, more: seq<StatRow>, bs: int, countPhysical: bool)
    requires bs > 0
    requires MeasuresGrew(a, b, rows, bs, countPhysical) && MeasuresGrew(b, c, more, bs, countPhysical)
    requires EndsGrew(x, y, rows, bs) && EndsGrew(y, z, more, bs)
    ensures MeasuresGrew(a, c, rows + more, bs, countPhysical) && EndsGrew(x, z, rows + more, bs)
  {
    hide AccMeasure, Kept, RowsMeasure, RowsEnds, AccAt, EndsAt;
    forall k, m | Kept(m, countPhysical)
      ensures AccMeasure(AccAt(c, k), m) == AccMeasure(AccAt(a, k), m) + RowsMeasure(rows + more, bs, k, m)
    {
      MeasureJoins(rows, more, bs, k, m);
    }
    forall k
      ensures EndsAt(z, k) == EndsAt(x, k) + RowsEnds(rows + more, bs, k)
    {
      MeasureJoins(rows, more, bs, k, Flows);
    }
  }

  /** Rows in front of others are accepted when all are. */
  lemma AcceptsJoin(before: map<int, Acc>, a: seq<StatRow>, b: seq<StatRow>, bs: int, countPhysical: bool)
    requires bs > 0
    ensures AcceptsRows(before, a + b, bs, countPhysical) ==> AcceptsRows(before, a, bs, countPhysical)
  {
    assert (a + b)[..|a|] == a;
    RunningPrefix(before, a + b, |a|, bs, countPhysical);
  }

  lemma AcceptsRest(before: map<int, Acc>, now: map<int, Acc>, a: seq<StatRow>, b: seq<StatRow>, bs: int,
                    countPhysical: bool)
    requires bs > 0 && AcceptsRows(before, a, bs, countPhysical) && MeasuresGrew(before, now, a, bs, countPhysical)
    requires PortsGrew(before, now, a, bs)
    ensures AcceptsRows(before, a + b, bs, countPhysical) <==> AcceptsRows(now, b, bs, countPhysical)
  {
    hide AccMeasure, Kept, BucketOf, AccAt, Complete, RowsMeasure, TakesPorts, PortTotals, RowsPorts;
    assert (a + b)[..|a|] == a;
    RunningPrefix(before, a + b, |a|, bs, countPhysical);
    forall i | 0 <= i < |b|
      ensures Running(before, a + b, |a| + i, bs, countPhysical) <==> Running(now, b, i, bs, countPhysical)
    {
      assert (a + b)[|a| + i] == b[i] && (a + b)[..|a| + i + 1] == a + b[..i + 1];
      var k := BucketOf(b[i].bucket, bs);
      assert (a + b)[..|a| + i] == a + b[..i];
      PortsJoin(a, b[..i], bs, k);
      TotalsJoin(AccAt(before, k).ports, RowsPorts(a, bs, k), RowsPorts(b[..i], bs, k));
      forall m | Kept(m, countPhysical)
        ensures AccMeasure(AccAt(before, k), m) + RowsMeasure(a + b[..i + 1], bs, k, m)
             == AccMeasure(AccAt(now, k), m) + RowsMeasure(b[..i + 1], bs, k, m)
      {
        MeasureJoins(a, b[..i + 1], bs, k, m);
      }
    }
    hide Running;
    forall j | |a| <= j < |a + b|
      ensures Running(before, a + b, j, bs, countPhysical) <==> Running(now, b, j - |a|, bs, countPhysical)
    {
      var i := j - |a|;
      assert 0 <= i < |b|;
    }
  }
}

/**
 The single pass over a rollup plan against the one over the raw minutes
 (stats_single_pass.go): for rows that do not overflow both are accepted and return
 the same stats, whatever order the statements return their rows in.
 */
module StatsAgree {
  import opened GoInts
  import opened PairGroups
  import opened HourRollup
  import opened FiniteSums
  import opened RollupStore
  import opened WindowPlan
  import opened StatsPlan
  import opened StatsPass
  import opened Int64s
  import opened StatsPorts
  import PortsJson

  /** The keys of a list that fall in one bucket. */
  function KeysInBucket<K(!new)>(keys: seq<K>, at: K -> int, bs: int, b: int): set<K>
    requires bs > 0
  {
    set k | k in keys && BucketOf(at(k), bs) == b
  }

  /**
   However a statement orders its rows, what the pass adds up for a bucket is
   the sum over the set of rows that fall in it.
   */
  lemma {:induction false} RowsAreASet<K(!new)>(keys: seq<K>, rows: seq<StatRow>, at: K -> int, f: K -> int,
                                         m: Measure, bs: int, b: int)
    requires bs > 0 && |rows| == |keys|
    requires forall i, j :: 0 <= i < j < |keys| ==> keys[i] != keys[j]
    requires forall i :: 0 <= i < |keys| ==> rows[i].bucket == at(keys[i]) && OfStatRow(m, rows[i]) == f(keys[i])
    ensures RowsMeasure(rows, bs, b, m) == SumOver(KeysInBucket(keys, at, bs, b), f)
  {
    hide OfStatRow, BucketOf, SumOver;
    if keys == [] {
      assert KeysInBucket(keys, at, bs, b) == {};
      SumZero(KeysInBucket(keys, at, bs, b), f);
    } else {
      var n := |keys| - 1;
      var front, last := keys[..n], keys[n];
      RowsAreASet(front, rows[..n], at, f, m, bs, b);
      assert keys == front + [last];
      var all, rest := KeysInBucket(keys, at, bs, b), KeysInBucket(front, at, bs, b);
      assert last !in front by {
        forall k | k in front
          ensures k != last
        {
          var i :| 0 <= i < n && front[i] == k;
          assert keys[i] == k;
        }
      }
      if BucketOf(at(last), bs) == b {
        assert all == rest + {last};
        SumTake(all, f, last);
        assert all - {last} == rest;
      } else {
        assert all == rest;
      }
    }
  }

  // ---- The pass over a plan and over the raw minutes.

  /** The texts of the port columns. */
  datatype PortTexts = PortTexts(minute: MinuteKey -> string, hour: HourKey -> string)

  /** The rows of minute keys as a statement returns them. */
  function MinuteStatRows(minutes: Minutes, keys: seq<MinuteKey>,
                          share: MinuteRow -> map<int, int>, text: PortTexts): (rows: seq<StatRow>)
    requires forall mk :: mk in keys ==> mk in minutes
    ensures |rows| == |keys|
  {
    seq(|keys|, i requires 0 <= i < |keys| => MinuteStatRow(keys[i], minutes[keys[i]], share, text))
  }

  function MinuteStatRow(mk: MinuteKey, row: MinuteRow, share: MinuteRow -> map<int, int>, text: PortTexts): StatRow {
    StatRow(mk.bucket, mk.pair.src, mk.pair.dst, mk.pair.traffic, Some(row.tx), Some(row.rx), Some(row.flows),
        Some(ProtosOf(row, share)), text.minute(mk))
  }

  function ColumnOf(s: Sum): Option<int> {
    if s.Num? then Some(s.n) else None
  }

  /** An hour row is returned under its min_bucket. */
  function HourStatRow(hk: HourKey, c: Counters, text: PortTexts): StatRow {
    StatRow(if c.bucket.Some? then c.bucket.value else 0, hk.pair.src, hk.pair.dst, hk.pair.traffic,
            ColumnOf(c.tx), ColumnOf(c.rx), ColumnOf(c.flows), Some(HourProtos(c)), text.hour(hk))
  }

  function HourStatRows(hours: Hours, keys: seq<HourKey>, text: PortTexts): (rows: seq<StatRow>)
    requires forall hk :: hk in keys ==> hk in hours
    ensures |rows| == |keys|
  {
    seq(|keys|, i requires 0 <= i < |keys| => HourStatRow(keys[i], hours[keys[i]], text))
  }

  ghost predicate NoRepeats<K(!new)>(keys: seq<K>) {
    forall i, j :: 0 <= i < j < |keys| ==> keys[i] != keys[j]
  }

  /** The keys of the minute rows a statement over spans returns, in any order. */
  ghost predicate ReturnsMinutes(keys: seq<MinuteKey>, minutes: Minutes, spans: seq<Span>) {
    NoRepeats(keys) && forall mk :: mk in keys <==> mk in minutes && InSpans(spans, mk.bucket)
  }

  ghost predicate ReturnsHours(keys: seq<HourKey>, hours: Hours, spans: seq<Span>) {
    NoRepeats(keys) && forall hk :: hk in keys <==> hk in hours && InSpans(spans, hk.hour)
  }

  lemma {:induction false} FoldIsNumeric(minutes: Minutes, pair: PairKey, lo: int, hi: int)
    ensures var c := Fold(minutes, pair, lo, hi); c.bucket.Some? ==> c.tx.Num? && c.rx.Num? && c.flows.Num?
    decreases hi - lo
  {
    if lo < hi {
      FoldIsNumeric(minutes, pair, lo, hi - 1);
    }
  }

  lemma MinuteRowsMeasure(t: Tables, keys: seq<MinuteKey>, spans: seq<Span>, bs: int, b: int, m: Measure,
                          share: MinuteRow -> map<int, int>, text: PortTexts, f: MinuteKey -> int)
    requires bs > 0 && ReturnsMinutes(keys, t.minutes, spans)
    requires forall mk :: mk in t.minutes ==> f(mk) == OfRow(m, share, mk.pair, t.minutes[mk])
    ensures RowsMeasure(MinuteStatRows(t.minutes, keys, share, text), bs, b, m)
            == SumOver(MinuteRows(t.minutes, spans, bs, b), f)
  {
    hide OfRow, OfColumns, BucketOf, InSpans, ProtosOf;
    var rows := MinuteStatRows(t.minutes, keys, share, text);
    var at := (mk: MinuteKey) => mk.bucket;
    forall i | 0 <= i < |keys|
      ensures rows[i].bucket == at(keys[i]) && OfStatRow(m, rows[i]) == f(keys[i])
    {
      assert keys[i] in keys;
      MinuteColumns(m, share, keys[i].pair, t.minutes[keys[i]]);
    }
    RowsAreASet(keys, rows, at, f, m, bs, b);
    assert KeysInBucket(keys, at, bs, b) == MinuteRows(t.minutes, spans, bs, b);
  }

  lemma HourRowsMeasure(t: Tables, keys: seq<HourKey>, spans: seq<Span>, bs: int, b: int, m: Measure, text: PortTexts,
                        g: HourKey -> int)
    requires Consistent(t) && bs > 0 && ReturnsHours(keys, t.hours, spans)
    requires forall hk :: hk in t.hours ==> g(hk) == OfHour(m, hk.pair, t.hours[hk])
    ensures RowsMeasure(HourStatRows(t.hours, keys, text), bs, b, m) == SumOver(HourRows(t.hours, spans, bs, b), g)
  {
    hide OfHour, OfColumns, BucketOf, InSpans, HourProtos, Fold, Consistent;
    var rows := HourStatRows(t.hours, keys, text);
    var at := (hk: HourKey) => if hk in t.hours && t.hours[hk].bucket.Some? then t.hours[hk].bucket.value else 0;
    forall hk | hk in t.hours
      ensures t.hours[hk].bucket.Some?
      ensures OfStatRow(m, HourStatRow(hk, t.hours[hk], text)) == OfHour(m, hk.pair, t.hours[hk])
    {
      RowBucket(t, hk);
      FoldIsNumeric(t.minutes, hk.pair, hk.hour, RolledEnd(hk.hour + HOUR, t.mark));
      HourColumns(m, hk.pair, t.hours[hk]);
    }
    forall i | 0 <= i < |keys|
      ensures rows[i].bucket == at(keys[i]) && OfStatRow(m, rows[i]) == g(keys[i])
    {
      assert keys[i] in keys;
    }
    RowsAreASet(keys, rows, at, g, m, bs, b);
    assert KeysInBucket(keys, at, bs, b) == HourRows(t.hours, spans, bs, b);
  }

  /** Every total of every bucket is the same. */
  lemma MeasuresAgree(t: Tables, plan: HourPlan, ranges: seq<Span>, bs: int, b: int, m: Measure,
                      share: MinuteRow -> map<int, int>, text: PortTexts,
                      raw: seq<MinuteKey>, edges: seq<MinuteKey>, hours: seq<HourKey>)
    requires Consistent(t) && bs > 0 && bs % HOUR == 0 && LegacySound(t.minutes, t.mark, false)
             && Serves(plan, ranges, t.mark)
    requires ReturnsMinutes(raw, t.minutes, ranges) && ReturnsMinutes(edges, t.minutes, plan.minutes)
    requires ReturnsHours(hours, t.hours, plan.hours)
    ensures RowsMeasure(MinuteStatRows(t.minutes, raw, share, text), bs, b, m)
         == RowsMeasure(MinuteStatRows(t.minutes, edges, share, text) + HourStatRows(t.hours, hours, text), bs, b, m)
  {
    hide Consistent, OfRow, OfHour, LegacySound, Serves, RowsMeasure, MinuteStatRows, HourStatRows, MinuteRows,
        HourRows;
    var f := (mk: MinuteKey) => if mk in t.minutes then OfRow(m, share, mk.pair, t.minutes[mk]) else 0;
    var g := (hk: HourKey) => if hk in t.hours then OfHour(m, hk.pair, t.hours[hk]) else 0;
    MinuteRowsMeasure(t, raw, ranges, bs, b, m, share, text, f);
    MinuteRowsMeasure(t, edges, plan.minutes, bs, b, m, share, text, f);
    HourRowsMeasure(t, hours, plan.hours, bs, b, m, text, g);
    MeasureJoins(MinuteStatRows(t.minutes, edges, share, text), HourStatRows(t.hours, hours, text), bs, b, m);
    PlanTotalsAreMinuteTotals(t, plan, ranges, bs, b, m, share, f, g);
  }

  // ---- Distinct pairs.

  /** The endpoints a pass collects for a bucket are those of the keys that fall in it. */
  lemma {:induction false} EndsAreASet<K(!new)>(keys: seq<K>, rows: seq<StatRow>, at: K -> int, e: K -> Ends, bs: int,
                                         b: int)
    requires bs > 0 && |rows| == |keys|
    requires forall i :: 0 <= i < |keys| ==>
             rows[i].bucket == at(keys[i]) && Ends(rows[i].src, rows[i].dst) == e(keys[i])
    ensures RowsEnds(rows, bs, b) == set k | k in KeysInBucket(keys, at, bs, b) :: e(k)
  {
    hide BucketOf;
    if keys != [] {
      var n := |keys| - 1;
      EndsAreASet(keys[..n], rows[..n], at, e, bs, b);
      assert keys == keys[..n] + [keys[n]];
      var all, front := KeysInBucket(keys, at, bs, b), KeysInBucket(keys[..n], at, bs, b);
      assert all == front + if BucketOf(at(keys[n]), bs) == b then {keys[n]} else {};
    }
  }

  lemma EndsAgree(t: Tables, plan: HourPlan, ranges: seq<Span>, bs: int, b: int, share: MinuteRow -> map<int, int>,
                  text: PortTexts, raw: seq<MinuteKey>, edges: seq<MinuteKey>, hours: seq<HourKey>)
    requires Consistent(t) && bs > 0 && bs % HOUR == 0 && Serves(plan, ranges, t.mark)
    requires ReturnsMinutes(raw, t.minutes, ranges) && ReturnsMinutes(edges, t.minutes, plan.minutes)
    requires ReturnsHours(hours, t.hours, plan.hours)
    ensures RowsEnds(MinuteStatRows(t.minutes, raw, share, text), bs, b)
         == RowsEnds(MinuteStatRows(t.minutes, edges, share, text) + HourStatRows(t.hours, hours, text), bs, b)
  {
    hide Consistent, Serves, RowsEnds, MinuteStatRows, HourStatRows, MinuteRows, HourRows, MinuteEnds, HourEnds;
    MinuteRowsEnds(t.minutes, raw, ranges, bs, b, share, text);
    MinuteRowsEnds(t.minutes, edges, plan.minutes, bs, b, share, text);
    HourRowsEnds(t, hours, plan.hours, bs, b, text);
    PlanPairsAreMinutePairs(t, plan, ranges, bs, b);
    MeasureJoins(MinuteStatRows(t.minutes, edges, share, text), HourStatRows(t.hours, hours, text), bs, b, Flows);
  }

  lemma MinuteRowsEnds(minutes: Minutes, keys: seq<MinuteKey>, spans: seq<Span>, bs: int, b: int,
                       share: MinuteRow -> map<int, int>, text: PortTexts)
    requires bs > 0 && ReturnsMinutes(keys, minutes, spans)
    ensures RowsEnds(MinuteStatRows(minutes, keys, share, text), bs, b) == MinuteEnds(MinuteRows(minutes, spans, bs, b))
  {
    hide BucketOf, InSpans, ProtosOf, RowsEnds;
    var at, e := (mk: MinuteKey) => mk.bucket, (mk: MinuteKey) => EndsOf(mk.pair);
    assert forall i :: 0 <= i < |keys| ==> keys[i] in keys;
    EndsAreASet(keys, MinuteStatRows(minutes, keys, share, text), at, e, bs, b);
    assert KeysInBucket(keys, at, bs, b) == MinuteRows(minutes, spans, bs, b);
  }

  lemma HourRowsEnds(t: Tables, keys: seq<HourKey>, spans: seq<Span>, bs: int, b: int, text: PortTexts)
    requires Consistent(t) && bs > 0 && ReturnsHours(keys, t.hours, spans)
    ensures RowsEnds(HourStatRows(t.hours, keys, text), bs, b) == HourEnds(HourRows(t.hours, spans, bs, b))
  {
    hide BucketOf, InSpans, HourProtos, RowsEnds, Fold, Consistent;
    var at := (hk: HourKey) => if hk in t.hours && t.hours[hk].bucket.Some? then t.hours[hk].bucket.value else 0;
    var e := (hk: HourKey) => EndsOf(hk.pair);
    forall hk | hk in t.hours
      ensures t.hours[hk].bucket.Some?
    {
      RowBucket(t, hk);
    }
    assert forall i :: 0 <= i < |keys| ==> keys[i] in keys;
    EndsAreASet(keys, HourStatRows(t.hours, keys, text), at, e, bs, b);
    assert KeysInBucket(keys, at, bs, b) == HourRows(t.hours, spans, bs, b);
  }

  /** A pass has a bucket exactly when the bucket has pairs. */
  lemma {:induction false} BucketHasEnds(rows: seq<StatRow>, bs: int, b: int)
    requires bs > 0
    ensures b in BucketsOf(rows, bs) <==> RowsEnds(rows, bs, b) != {}
  {
    hide BucketOf;
    if rows != [] {
      var n := |rows| - 1;
      BucketHasEnds(rows[..n], bs, b);
      IdsGrow(rows, n, bs);
      assert rows[..n + 1] == rows;
    }
  }

  // ---- Acceptance.

  /** A complete row of numbers that are not negative. */
  ghost predicate NonNegative(r: StatRow) {
    && r.tx.Some? && r.rx.Some? && r.flows.Some? && r.protos.Some?
    && r.tx.value >= 0 && r.rx.value >= 0 && r.flows.value >= 0
    && forall p :: p in r.protos.value ==> r.protos.value[p] >= 0
  }

  /** No total of any bucket leaves the 64-bit range. */
  ghost predicate TotalsFit(rows: seq<StatRow>, bs: int, countPhysical: bool)
    requires bs > 0
  {
    forall b, m: Measure :: m.Bytes? || Kept(m, countPhysical) ==> Int64(RowsMeasure(rows, bs, b, m))
  }

  /** A port column that reads as a list without negative bytes, or is never parsed. */
  ghost predicate PlainPorts(r: StatRow) {
    PortsOfRow(r).Some? && forall e :: e in PortsOfRow(r).value ==> e.bytes >= 0
  }

  ghost predicate PortTotalsFit(rows: seq<StatRow>, bs: int)
    requires bs > 0
  {
    forall b, s :: Int64(ListBytes(RowsPorts(rows, bs, b), s))
  }

  lemma {:induction false} PlainBytes(rows: seq<StatRow>, bs: int, b: int)
    requires bs > 0 && forall r :: r in rows ==> PlainPorts(r)
    ensures forall e :: e in RowsPorts(rows, bs, b) ==> e.bytes >= 0
  {
    hide BucketOf, PortsOfRow;
    if rows != [] {
      PlainBytes(rows[..|rows| - 1], bs, b);
      assert PlainPorts(rows[|rows| - 1]);
    }
  }

  lemma {:induction false} BytesNotNegative(list: seq<PortsJson.PortEntry>, s: Slot)
    requires forall e :: e in list ==> e.bytes >= 0
    ensures ListBytes(list, s) >= 0
  {
    if list != [] {
      BytesNotNegative(list[..|list| - 1], s);
    }
  }

  lemma PrefixBytes(front: seq<PortsJson.PortEntry>, rest: seq<PortsJson.PortEntry>, s: Slot)
    requires forall e :: e in front + rest ==> e.bytes >= 0
    ensures 0 <= ListBytes(front, s) <= ListBytes(front + rest, s)
  {
    assert forall e :: e in front || e in rest ==> e in front + rest;
    BytesNotNegative(front, s);
    BytesNotNegative(rest, s);
    BytesJoin(front, rest, s);
  }

  /** Port sums that fit in the end fit all the way. */
  lemma PortsRunWhenTheyFit(rows: seq<StatRow>, i: nat, bs: int)
    requires bs > 0 && i < |rows| && PortTotalsFit(rows, bs) && forall r :: r in rows ==> PlainPorts(r)
    ensures PortsRun(map[], rows, i, bs)
  {
    hide BucketOf, PortsOfRow, PortTotals, ListBytes;
    var b := BucketOf(rows[i].bucket, bs);
    var front, all := RowsPorts(rows[..i], bs, b), RowsPorts(rows, bs, b);
    assert PlainPorts(rows[i]);
    var list := PortsOfRow(rows[i]).value;
    var rest := RowsPorts(rows[i + 1..], bs, b);
    assert all == front + list + rest by {
      assert rows[..i + 1][..i] == rows[..i] && rows[..i + 1] + rows[i + 1..] == rows;
      PortsJoin(rows[..i + 1], rows[i + 1..], bs, b);
    }
    PlainBytes(rows, bs, b);
    forall j | 0 <= j < |list|
      ensures Int64(BytesAt(PortTotals(map[], front), SlotOf(list[j])) + ListBytes(list[..j + 1], SlotOf(list[j])))
    {
      var s := SlotOf(list[j]);
      FromNothing(front, s);
      BytesJoin(front, list[..j + 1], s);
      assert front + list[..j + 1] + (list[j + 1..] + rest) == all;
      PrefixBytes(front + list[..j + 1], list[j + 1..] + rest, s);
    }
    assert AccAt(map[], b).ports == map[];
    assert PortsFit(PortTotals(map[], front), list);
  }

  lemma FromNothing(list: seq<PortsJson.PortEntry>, s: Slot)
    ensures BytesAt(PortTotals(map[], list), s) == ListBytes(list, s)
  {
    if s !in SlotsOf(list) {
      AbsentSlot(list, s);
    }
  }

  lemma NonNegativeMeasure(m: Measure, r: StatRow)
    requires NonNegative(r)
    ensures OfStatRow(m, r) >= 0
  {
  }

  lemma {:induction false} MeasureGrows(rows: seq<StatRow>, i: nat, bs: int, b: int, m: Measure)
    requires bs > 0 && i < |rows| && forall r :: r in rows ==> NonNegative(r)
    ensures 0 <= RowsMeasure(rows[..i], bs, b, m) <= RowsMeasure(rows[..i + 1], bs, b, m) <= RowsMeasure(rows, bs, b, m)
    ensures BucketOf(rows[i].bucket, bs) == b ==> OfStatRow(m, rows[i]) <= RowsMeasure(rows, bs, b, m)
    decreases |rows| - i
  {
    hide BucketOf, OfStatRow, NonNegative, RowsMeasure;
    NotNegative(rows[..i], bs, b, m);
    MeasureSnoc(rows, i, bs, b, m);
    assert rows[i] in rows;
    NonNegativeMeasure(m, rows[i]);
    if i + 1 < |rows| {
      MeasureGrows(rows, i + 1, bs, b, m);
    } else {
      assert rows[..i + 1] == rows;
    }
  }

  lemma MeasureSnoc(rows: seq<StatRow>, i: nat, bs: int, b: int, m: Measure)
    requires bs > 0 && i < |rows|
    ensures RowsMeasure(rows[..i + 1], bs, b, m)
         == RowsMeasure(rows[..i], bs, b, m) + if BucketOf(rows[i].bucket, bs) == b then OfStatRow(m, rows[i]) else 0
  {
    hide BucketOf, OfStatRow;
    assert rows[..i + 1][..i] == rows[..i];
  }

  lemma {:induction false} NotNegative(rows: seq<StatRow>, bs: int, b: int, m: Measure)
    requires bs > 0 && forall r :: r in rows ==> NonNegative(r)
    ensures RowsMeasure(rows, bs, b, m) >= 0
  {
    hide BucketOf, OfStatRow, NonNegative;
    if rows != [] {
      NotNegative(rows[..|rows| - 1], bs, b, m);
      NonNegativeMeasure(m, rows[|rows| - 1]);
    }
  }

  /** Rows without negative numbers are accepted as soon as their totals fit. */
  lemma TotalsFitAccepted(rows: seq<StatRow>, bs: int, countPhysical: bool)
    requires bs > 0 && TotalsFit(rows, bs, countPhysical) && PortTotalsFit(rows, bs)
    requires forall r :: r in rows ==> NonNegative(r) && PlainPorts(r)
    ensures AcceptsRows(map[], rows, bs, countPhysical)
  {
    hide BucketOf, RowsMeasure, PortTotalsFit, PlainPorts, PortsRun;
    forall i | 0 <= i < |rows|
      ensures Running(map[], rows, i, bs, countPhysical)
    {
      PortsRunWhenTheyFit(rows, i, bs);
      var r := rows[i];
      var b := BucketOf(r.bucket, bs);
      assert r in rows;
      MeasureGrows(rows, i, bs, b, Bytes(r.traffic));
      assert OfStatRow(Bytes(r.traffic), r) == r.tx.value + r.rx.value;
      hide OfStatRow;
      forall m | Kept(m, countPhysical)
        ensures Int64(AccMeasure(AccAt(map[], b), m) + RowsMeasure(rows[..i + 1], bs, b, m))
      {
        MeasureGrows(rows, i, bs, b, m);
        assert AccMeasure(NEW_ACC, m) == 0;
      }
    }
  }

  /** Stored minute rows without negative numbers. */
  ghost predicate NonNegativeMinutes(minutes: Minutes, share: MinuteRow -> map<int, int>) {
    forall mk :: mk in minutes ==>
      var row := minutes[mk];
      && row.tx >= 0 && row.rx >= 0 && row.flows >= 0
      && (forall p :: p in row.protocolBytes ==> row.protocolBytes[p] >= 0)
      && forall p :: p in share(row) ==> share(row)[p] >= 0
  }

  ghost predicate NonNegativeGroup(c: Counters) {
    && IntOf(c.tx) >= 0 && IntOf(c.rx) >= 0 && IntOf(c.flows) >= 0
    && forall k :: k in c.protocols ==> IntOf(c.protocols[k]) >= 0
  }

  lemma MergeNonNegative(a: Counters, b: Counters)
    requires NonNegativeGroup(a) && NonNegativeGroup(b)
    ensures NonNegativeGroup(Merge(a, b))
  {
  }

  lemma LiftNonNegative(b: int, row: MinuteRow)
    requires row.tx >= 0 && row.rx >= 0 && row.flows >= 0
    requires forall p :: p in row.protocolBytes ==> row.protocolBytes[p] >= 0
    ensures NonNegativeGroup(Lift(b, row))
  {
  }

  lemma {:induction false} FoldNonNegative(minutes: Minutes, share: MinuteRow -> map<int, int>, pair: PairKey,
                                           lo: int, hi: int)
    requires NonNegativeMinutes(minutes, share)
    ensures NonNegativeGroup(Fold(minutes, pair, lo, hi))
    decreases hi - lo
  {
    hide Merge, NonNegativeGroup, Lift;
    if lo < hi {
      FoldNonNegative(minutes, share, pair, lo, hi - 1);
      assert NonNegativeGroup(EMPTY) by { EmptyNonNegative(); }
      if hi - 1 >= 0 && MinuteKey(hi - 1, pair) in minutes {
        LiftNonNegative(hi - 1, minutes[MinuteKey(hi - 1, pair)]);
      }
      MergeNonNegative(Fold(minutes, pair, lo, hi - 1), MinuteAt(minutes, pair, hi - 1));
    } else {
      EmptyNonNegative();
    }
  }

  lemma EmptyNonNegative()
    ensures NonNegativeGroup(EMPTY)
  {
  }

  /** So the rows of both plans have no negative numbers. */
  lemma RowsNonNegative(t: Tables, share: MinuteRow -> map<int, int>, text: PortTexts, keys: seq<MinuteKey>,
                        hours: seq<HourKey>)
    requires Consistent(t) && NonNegativeMinutes(t.minutes, share)
    requires (forall mk :: mk in keys ==> mk in t.minutes) && (forall hk :: hk in hours ==> hk in t.hours)
    ensures forall r :: r in MinuteStatRows(t.minutes, keys, share, text) ==> NonNegative(r)
    ensures forall r :: r in HourStatRows(t.hours, hours, text) ==> NonNegative(r)
  {
    hide Fold, Consistent;
    forall i | 0 <= i < |keys|
      ensures NonNegative(MinuteStatRow(keys[i], t.minutes[keys[i]], share, text))
    {
      assert keys[i] in keys;
    }
    forall i | 0 <= i < |hours|
      ensures NonNegative(HourStatRow(hours[i], t.hours[hours[i]], text))
    {
      assert hours[i] in hours;
      HourNonNegative(t, share, text, hours[i]);
    }
  }

  lemma HourNonNegative(t: Tables, share: MinuteRow -> map<int, int>, text: PortTexts, hk: HourKey)
    requires Consistent(t) && NonNegativeMinutes(t.minutes, share) && hk in t.hours
    ensures NonNegative(HourStatRow(hk, t.hours[hk], text))
  {
    hide Fold, Consistent, NonNegativeMinutes;
    RowBucket(t, hk);
    FoldIsNumeric(t.minutes, hk.pair, hk.hour, RolledEnd(hk.hour + HOUR, t.mark));
    FoldNonNegative(t.minutes, share, hk.pair, hk.hour, RolledEnd(hk.hour + HOUR, t.mark));
  }

  /**
   The theorem: when no number is negative, port columns are lists, and no
   bucket total or port sum overflows, both passes accept their rows, and they
   return the same bytes per type, flows, TCP, UDP and other bytes and unique
   pairs for every bucket.
   */
  lemma SinglePassAgrees(t: Tables, plan: HourPlan, ranges: seq<Span>, bs: int, countPhysical: bool,
                         share: MinuteRow -> map<int, int>, text: PortTexts,
                         raw: seq<MinuteKey>, edges: seq<MinuteKey>, hours: seq<HourKey>)
    requires Consistent(t) && bs > 0 && bs % HOUR == 0 && LegacySound(t.minutes, t.mark, false)
             && Serves(plan, ranges, t.mark)
    requires ReturnsMinutes(raw, t.minutes, ranges) && ReturnsMinutes(edges, t.minutes, plan.minutes)
    requires ReturnsHours(hours, t.hours, plan.hours)
    requires NonNegativeMinutes(t.minutes, share)
    requires TotalsFit(MinuteStatRows(t.minutes, raw, share, text), bs, countPhysical)
    requires PlainTexts(t, text)
    requires PortTotalsFit(MinuteStatRows(t.minutes, raw, share, text), bs)
    requires PortTotalsFit(MinuteStatRows(t.minutes, edges, share, text) + HourStatRows(t.hours, hours, text), bs)
    ensures var minuteRows, planRows := MinuteStatRows(t.minutes, raw, share, text),
                MinuteStatRows(t.minutes, edges, share, text) + HourStatRows(t.hours, hours, text);
            && AcceptsRows(map[], minuteRows, bs, countPhysical) && AcceptsRows(map[], planRows, bs, countPhysical)
            && WithoutPorts(StatsOf(minuteRows, bs, countPhysical))
               == WithoutPorts(StatsOf(planRows, bs, countPhysical))
  {
    var a, b := MinuteStatRows(t.minutes, raw, share, text), MinuteStatRows(t.minutes, edges, share, text)
        + HourStatRows(t.hours, hours, text);
    RowsNonNegative(t, share, text, raw, hours);
    RowsNonNegative(t, share, text, edges, hours);
    hide *;
    forall k, m
      ensures RowsMeasure(a, bs, k, m) == RowsMeasure(b, bs, k, m)
    {
      MeasuresAgree(t, plan, ranges, bs, k, m, share, text, raw, edges, hours);
    }
    forall k
      ensures RowsEnds(a, bs, k) == RowsEnds(b, bs, k)
    {
      EndsAgree(t, plan, ranges, bs, k, share, text, raw, edges, hours);
    }
    RowsPlain(t, share, text, raw, hours);
    RowsPlain(t, share, text, edges, hours);
    assert forall r :: r in b ==> NonNegative(r) && PlainPorts(r);
    SameStats(a, b, bs, countPhysical);
    TotalsFitAccepted(a, bs, countPhysical);
    TotalsFitAccepted(b, bs, countPhysical);
  }

  /** Stored port columns that read as lists without negative bytes. */
  ghost predicate PlainTexts(t: Tables, text: PortTexts) {
    && (forall mk :: mk in t.minutes ==> PlainText(text.minute(mk)))
    && (forall hk :: hk in t.hours ==> PlainText(text.hour(hk)))
  }

  ghost predicate PlainText(text: string) {
    PortsOf(text).Some? && forall e :: e in PortsOf(text).value ==> e.bytes >= 0
  }

  lemma RowsPlain(t: Tables, share: MinuteRow -> map<int, int>, text: PortTexts, keys: seq<MinuteKey>,
                  hours: seq<HourKey>)
    requires PlainTexts(t, text)
    requires (forall mk :: mk in keys ==> mk in t.minutes) && (forall hk :: hk in hours ==> hk in t.hours)
    ensures forall r :: r in MinuteStatRows(t.minutes, keys, share, text) ==> PlainPorts(r)
    ensures forall r :: r in HourStatRows(t.hours, hours, text) ==> PlainPorts(r)
  {
    hide PortsOf;
    forall i | 0 <= i < |keys|
      ensures PlainPorts(MinuteStatRow(keys[i], t.minutes[keys[i]], share, text))
    {
      assert keys[i] in keys;
    }
    forall i | 0 <= i < |hours|
      ensures PlainPorts(HourStatRow(hours[i], t.hours[hours[i]], text))
    {
      assert hours[i] in hours;
    }
  }

  function WithoutPorts(stats: map<int, Stat>): map<int, Stat> {
    map b | b in stats :: stats[b].(topPorts := [])
  }

  /** Stats are told by the measures and the pairs of the buckets, and the top ports by the port sums. */
  lemma SameStats(a: seq<StatRow>, b: seq<StatRow>, bs: int, countPhysical: bool)
    requires bs > 0
    requires forall k, m :: RowsMeasure(a, bs, k, m) == RowsMeasure(b, bs, k, m)
    requires forall k :: RowsEnds(a, bs, k) == RowsEnds(b, bs, k)
    ensures WithoutPorts(StatsOf(a, bs, countPhysical)) == WithoutPorts(StatsOf(b, bs, countPhysical))
    ensures (forall k :: PortTotals(map[], RowsPorts(a, bs, k)) == PortTotals(map[], RowsPorts(b, bs, k))) ==>
              StatsOf(a, bs, countPhysical) == StatsOf(b, bs, countPhysical)
    ensures TotalsFit(a, bs, countPhysical) <==> TotalsFit(b, bs, countPhysical)
  {
    hide RowsMeasure, RowsEnds, BucketsOf, Wrap, SumOver, RowsProtos, RowsPorts, PortTotals, Top;
    forall k
      ensures k in BucketsOf(a, bs) <==> k in BucketsOf(b, bs)
    {
      BucketHasEnds(a, bs, k);
      BucketHasEnds(b, bs, k);
    }
    assert BucketsOf(a, bs) == BucketsOf(b, bs);
    forall k
      ensures var u, v := StatOf(a, bs, k, countPhysical), StatOf(b, bs, k, countPhysical);
              u == v.(topPorts := u.topPorts)
    {
      var f, g := p => RowsMeasure(a, bs, k, ProtoBytes(p, countPhysical)),
          p => RowsMeasure(b, bs, k, ProtoBytes(p, countPhysical));
      forall p
        ensures f(p) == g(p) && (p !in RowsProtos(a, bs, k) ==> f(p) == 0) && (p !in RowsProtos(b, bs, k) ==> g(p) == 0)
      {
        if p !in RowsProtos(a, bs, k) {
          NoProtoBytes(a, bs, k, p, countPhysical);
        }
        if p !in RowsProtos(b, bs, k) {
          NoProtoBytes(b, bs, k, p, countPhysical);
        }
      }
      OtherAgrees(RowsProtos(a, bs, k), RowsProtos(b, bs, k), f, g);
    }
  }

  // ---- Statements with a list of traffic types.

  /** The rows a statement with a type list sees. */
  function OfTypes(t: Tables, types: set<string>): Tables {
    Tables(map mk | mk in t.minutes && mk.pair.traffic in types :: t.minutes[mk],
           map hk | hk in t.hours && hk.pair.traffic in types :: t.hours[hk], t.mark)
  }

  /** They are tables that keep the rollup invariant themselves, so the theorem holds of them. */
  lemma OfTypesIsConsistent(t: Tables, types: set<string>)
    requires Consistent(t) && LegacySound(t.minutes, t.mark, false)
    ensures Consistent(OfTypes(t, types)) && LegacySound(OfTypes(t, types).minutes, t.mark, false)
  {
    hide HoursOf, Fold;
    var u := OfTypes(t, types);
    assert t.hours == HoursOf(t.minutes, t.mark);
    forall hk: HourKey
      ensures Rolled(u.minutes, t.mark, hk) == if hk.pair.traffic in types then Rolled(t.minutes, t.mark, hk) else EMPTY
      ensures hk in t.hours <==> hk.hour % HOUR == 0 && Rolled(t.minutes, t.mark, hk) != EMPTY
      ensures hk in t.hours ==> t.hours[hk] == Rolled(t.minutes, t.mark, hk)
    {
      HoursOfAt(t.minutes, t.mark, hk);
      var lo, hi := hk.hour, RolledEnd(hk.hour + HOUR, t.mark);
      if hk.pair.traffic in types {
        FoldSame(u.minutes, t.minutes, hk.pair, lo, hi);
      } else {
        FoldNone(u.minutes, hk.pair, lo, hi);
      }
    }
    hide Rolled;
    HoursOfIs(u.hours, u.minutes, t.mark);
  }
}

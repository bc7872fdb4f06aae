/**
 The top ports of the single pass over a rollup plan against those over the raw
 minutes (stats_single_pass.go): they agree when the port list of every hour
 row sums the lists of its minutes.
 */
module PortsAgree {
  import opened GoInts
  import opened HourRollup
  import opened FiniteSums
  import opened RollupStore
  import opened WindowPlan
  import opened SpanReads
  import opened StatsPlan
  import opened StatsPass
  import opened StatsPorts
  import opened StatsAgree
  import PortsJson

  /** What a row of a traffic type counts of its port column. */
  function Listed(traffic: string, column: string): seq<PortsJson.PortEntry> {
    if traffic == "physical" || PortsOf(column).None? then [] else PortsOf(column).value
  }

  function MinuteBytes(text: PortTexts, s: Slot): MinuteKey -> int {
    (mk: MinuteKey) => ListBytes(Listed(mk.pair.traffic, text.minute(mk)), s)
  }

  function HourBytes(text: PortTexts, s: Slot): HourKey -> int {
    (hk: HourKey) => ListBytes(Listed(hk.pair.traffic, text.hour(hk)), s)
  }

  predicate MinuteLists(text: PortTexts, s: Slot, mk: MinuteKey) {
    s in SlotsOf(Listed(mk.pair.traffic, text.minute(mk)))
  }

  predicate HourLists(text: PortTexts, s: Slot, hk: HourKey) {
    s in SlotsOf(Listed(hk.pair.traffic, text.hour(hk)))
  }

  ghost predicate SomeMinuteLists(rows: set<MinuteKey>, text: PortTexts, s: Slot) {
    exists mk :: mk in rows && MinuteLists(text, s, mk)
  }

  ghost predicate SomeHourLists(rows: set<HourKey>, text: PortTexts, s: Slot) {
    exists hk :: hk in rows && HourLists(text, s, hk)
  }

  /** The list of every hour row names the slots of its minutes, each with the sum of their bytes. */
  ghost predicate PortsRolled(t: Tables, text: PortTexts) {
    forall hk, s :: hk in t.hours ==>
      && HourBytes(text, s)(hk) == SumOver(MinutesOf(t, hk), MinuteBytes(text, s))
      && (HourLists(text, s, hk) <==> exists mk :: mk in MinutesOf(t, hk) && MinuteLists(text, s, mk))
  }

  // ---- The port sums of a bucket over the set of its rows.

  function ListOf(r: StatRow): seq<PortsJson.PortEntry> {
    if PortsOfRow(r).Some? then PortsOfRow(r).value else []
  }

  lemma BytesSnoc(rows: seq<StatRow>, bs: int, b: int, s: Slot)
    requires bs > 0 && rows != []
    ensures var n := |rows| - 1;
            && ListBytes(RowsPorts(rows, bs, b), s)
               == ListBytes(RowsPorts(rows[..n], bs, b), s)
                  + (if BucketOf(rows[n].bucket, bs) == b then ListBytes(ListOf(rows[n]), s) else 0)
            && (s in SlotsOf(RowsPorts(rows, bs, b))
                <==> s in SlotsOf(RowsPorts(rows[..n], bs, b))
                     || (BucketOf(rows[n].bucket, bs) == b && s in SlotsOf(ListOf(rows[n]))))
  {
    hide BucketOf, PortsOfRow, SlotOf;
    var n := |rows| - 1;
    var more := if BucketOf(rows[n].bucket, bs) == b then ListOf(rows[n]) else [];
    assert RowsPorts(rows, bs, b) == RowsPorts(rows[..n], bs, b) + more;
    BytesJoin(RowsPorts(rows[..n], bs, b), more, s);
    assert forall e :: e in RowsPorts(rows[..n], bs, b) + more <==> e in RowsPorts(rows[..n], bs, b) || e in more;
  }

  lemma {:induction false} PortsAreASet<K(!new)>(keys: seq<K>, rows: seq<StatRow>, at: K -> int, f: K -> int,
                                          s: Slot, bs: int, b: int)
    requires bs > 0 && |rows| == |keys| && NoRepeats(keys)
    requires forall i :: 0 <= i < |keys| ==>
               rows[i].bucket == at(keys[i]) && ListBytes(ListOf(rows[i]), s) == f(keys[i])
    ensures ListBytes(RowsPorts(rows, bs, b), s) == SumOver(KeysInBucket(keys, at, bs, b), f)
  {
    hide ListOf, BucketOf, SumOver, RowsPorts, ListBytes;
    var all := KeysInBucket(keys, at, bs, b);
    if keys == [] {
      assert all == {};
      SumZero(all, f);
      assert RowsPorts(rows, bs, b) == [] && ListBytes([], s) == 0 by { NoRows(rows, bs, b, s); }
    } else {
      var n := |keys| - 1;
      var front, last := keys[..n], keys[n];
      PortsAreASet(front, rows[..n], at, f, s, bs, b);
      BytesSnoc(rows, bs, b, s);
      assert keys == front + [last];
      var rest := KeysInBucket(front, at, bs, b);
      assert forall i :: 0 <= i < n ==> keys[i] != keys[n];
      assert last !in front;
      if BucketOf(at(last), bs) == b {
        assert all == rest + {last};
        SumTake(all, f, last);
        assert all - {last} == rest;
      } else {
        assert all == rest;
      }
    }
  }

  lemma NoRows(rows: seq<StatRow>, bs: int, b: int, s: Slot)
    requires bs > 0 && rows == []
    ensures RowsPorts(rows, bs, b) == [] && ListBytes([], s) == 0
  {
  }

  lemma {:induction false} SlotsAreASet<K(!new)>(keys: seq<K>, rows: seq<StatRow>, at: K -> int, lists: K -> bool,
                                          s: Slot, bs: int, b: int)
    requires bs > 0 && |rows| == |keys|
    requires forall i :: 0 <= i < |keys| ==>
               rows[i].bucket == at(keys[i]) && (s in SlotsOf(ListOf(rows[i])) <==> lists(keys[i]))
    ensures s in SlotsOf(RowsPorts(rows, bs, b)) <==> exists k :: k in KeysInBucket(keys, at, bs, b) && lists(k)
  {
    hide ListOf, BucketOf, SlotsOf, RowsPorts, ListBytes;
    if keys != [] {
      var n := |keys| - 1;
      SlotsAreASet(keys[..n], rows[..n], at, lists, s, bs, b);
      BytesSnoc(rows, bs, b, s);
      var all, front := KeysInBucket(keys, at, bs, b), KeysInBucket(keys[..n], at, bs, b);
      assert keys == keys[..n] + [keys[n]];
      assert all == front + if BucketOf(at(keys[n]), bs) == b then {keys[n]} else {};
      hide KeysInBucket;
    } else {
      assert s !in SlotsOf(RowsPorts(rows, bs, b)) by { NoSlots(rows, bs, b, s); }
    }
  }

  lemma NoSlots(rows: seq<StatRow>, bs: int, b: int, s: Slot)
    requires bs > 0 && rows == []
    ensures s !in SlotsOf(RowsPorts(rows, bs, b))
  {
  }

  lemma MinutePorts(t: Tables, keys: seq<MinuteKey>, spans: seq<Span>, bs: int, b: int, s: Slot,
                    share: MinuteRow -> map<int, int>, text: PortTexts)
    requires bs > 0 && ReturnsMinutes(keys, t.minutes, spans)
    ensures var list := RowsPorts(MinuteStatRows(t.minutes, keys, share, text), bs, b);
            && ListBytes(list, s) == SumOver(MinuteRows(t.minutes, spans, bs, b), MinuteBytes(text, s))
            && (s in SlotsOf(list) <==> SomeMinuteLists(MinuteRows(t.minutes, spans, bs, b), text, s))
  {
    hide BucketOf, InSpans, ProtosOf, RowsPorts, ListBytes, SlotsOf;
    var rows := MinuteStatRows(t.minutes, keys, share, text);
    var at, lists := (mk: MinuteKey) => mk.bucket, (mk: MinuteKey) => MinuteLists(text, s, mk);
    forall i | 0 <= i < |keys|
      ensures rows[i].bucket == at(keys[i]) && ListOf(rows[i]) == Listed(keys[i].pair.traffic, text.minute(keys[i]))
    {
      assert keys[i] in keys;
    }
    PortsAreASet(keys, rows, at, MinuteBytes(text, s), s, bs, b);
    SlotsAreASet(keys, rows, at, lists, s, bs, b);
    assert KeysInBucket(keys, at, bs, b) == MinuteRows(t.minutes, spans, bs, b);
  }

  lemma HourPorts(t: Tables, keys: seq<HourKey>, spans: seq<Span>, bs: int, b: int, s: Slot, text: PortTexts)
    requires Consistent(t) && bs > 0 && ReturnsHours(keys, t.hours, spans)
    ensures var list := RowsPorts(HourStatRows(t.hours, keys, text), bs, b);
            && ListBytes(list, s) == SumOver(HourRows(t.hours, spans, bs, b), HourBytes(text, s))
            && (s in SlotsOf(list) <==> SomeHourLists(HourRows(t.hours, spans, bs, b), text, s))
  {
    hide BucketOf, InSpans, HourProtos, Fold, Consistent, RowsPorts, ListBytes, SlotsOf;
    var rows := HourStatRows(t.hours, keys, text);
    var at := (hk: HourKey) => if hk in t.hours && t.hours[hk].bucket.Some? then t.hours[hk].bucket.value else 0;
    var lists := (hk: HourKey) => HourLists(text, s, hk);
    forall hk | hk in t.hours
      ensures t.hours[hk].bucket.Some?
    {
      RowBucket(t, hk);
    }
    forall i | 0 <= i < |keys|
      ensures rows[i].bucket == at(keys[i]) && ListOf(rows[i]) == Listed(keys[i].pair.traffic, text.hour(keys[i]))
    {
      assert keys[i] in keys;
    }
    PortsAreASet(keys, rows, at, HourBytes(text, s), s, bs, b);
    SlotsAreASet(keys, rows, at, lists, s, bs, b);
    assert KeysInBucket(keys, at, bs, b) == HourRows(t.hours, spans, bs, b);
  }

  // ---- Plan and minutes.

  /** Hour rows of a plan name the slots of the minutes in its hour ranges. */
  lemma HourSlots(t: Tables, spans: seq<Span>, bs: int, b: int, s: Slot, text: PortTexts)
    requires Consistent(t) && bs > 0 && bs % HOUR == 0 && PortsRolled(t, text)
    requires forall x :: x in spans ==> CoveredHours(x, t.mark)
    ensures SomeMinuteLists(MinuteRows(t.minutes, spans, bs, b), text, s)
       <==> SomeHourLists(HourRows(t.hours, spans, bs, b), text, s)
  {
    hide BucketOf, Fold, Consistent, CoveredHours, HourOf, MinuteLists, HourLists, SumOver;
    var rows, hours := MinuteRows(t.minutes, spans, bs, b), HourRows(t.hours, spans, bs, b);
    forall mk | mk in rows && MinuteLists(text, s, mk)
      ensures HourKeyOf(mk) in hours && HourLists(text, s, HourKeyOf(mk))
    {
      RowOfMinute(t, spans, bs, b, mk);
      MembersAreHour(t, spans, bs, b, HourKeyOf(mk));
      assert mk in MinutesOf(t, HourKeyOf(mk));
    }
    forall hk | hk in hours && HourLists(text, s, hk)
      ensures exists mk :: mk in rows && MinuteLists(text, s, mk)
    {
      MembersAreHour(t, spans, bs, b, hk);
      var mk :| mk in MinutesOf(t, hk) && MinuteLists(text, s, mk);
      assert mk in Members(rows, hk);
    }
  }

  lemma PlanSlots(t: Tables, plan: HourPlan, ranges: seq<Span>, bs: int, b: int, s: Slot, text: PortTexts)
    requires Consistent(t) && bs > 0 && bs % HOUR == 0 && Serves(plan, ranges, t.mark) && PortsRolled(t, text)
    ensures SomeMinuteLists(MinuteRows(t.minutes, ranges, bs, b), text, s)
       <==> SomeMinuteLists(MinuteRows(t.minutes, plan.minutes, bs, b), text, s)
            || SomeHourLists(HourRows(t.hours, plan.hours, bs, b), text, s)
  {
    hide *;
    ServesCovers(plan, ranges, t.mark);
    HourSlots(t, plan.hours, bs, b, s, text);
    SplitRows(t.minutes, plan, ranges, t.mark, bs, b);
    SomeOfUnion(MinuteRows(t.minutes, plan.minutes, bs, b), MinuteRows(t.minutes, plan.hours, bs, b), text, s);
  }

  lemma SomeOfUnion(a: set<MinuteKey>, b: set<MinuteKey>, text: PortTexts, s: Slot)
    ensures SomeMinuteLists(a + b, text, s) <==> SomeMinuteLists(a, text, s) || SomeMinuteLists(b, text, s)
  {
    hide MinuteLists;
  }

  lemma SlotsJoin(a: seq<PortsJson.PortEntry>, b: seq<PortsJson.PortEntry>)
    ensures SlotsOf(a + b) == SlotsOf(a) + SlotsOf(b)
  {
    hide SlotOf;
    assert forall e :: e in a + b <==> e in a || e in b;
  }

  lemma SlotAgrees(t: Tables, plan: HourPlan, ranges: seq<Span>, bs: int, b: int, s: Slot,
                   share: MinuteRow -> map<int, int>, text: PortTexts,
                   raw: seq<MinuteKey>, edges: seq<MinuteKey>, hours: seq<HourKey>)
    requires Consistent(t) && bs > 0 && bs % HOUR == 0 && Serves(plan, ranges, t.mark) && PortsRolled(t, text)
    requires ReturnsMinutes(raw, t.minutes, ranges) && ReturnsMinutes(edges, t.minutes, plan.minutes)
    requires ReturnsHours(hours, t.hours, plan.hours)
    ensures var minutePorts := RowsPorts(MinuteStatRows(t.minutes, raw, share, text), bs, b);
            var planPorts := RowsPorts(MinuteStatRows(t.minutes, edges, share, text)
                + HourStatRows(t.hours, hours, text), bs, b);
            && ListBytes(minutePorts, s) == ListBytes(planPorts, s)
            && (s in SlotsOf(minutePorts) <==> s in SlotsOf(planPorts))
  {
    var x, y := MinuteStatRows(t.minutes, edges, share, text), HourStatRows(t.hours, hours, text);
    hide *;
    PlanSlots(t, plan, ranges, bs, b, s, text);
    MinutePorts(t, raw, ranges, bs, b, s, share, text);
    MinutePorts(t, edges, plan.minutes, bs, b, s, share, text);
    HourPorts(t, hours, plan.hours, bs, b, s, text);
    RolledBytes(t, text, s);
    PlanSumsAreMinuteSums(t, plan, ranges, bs, b, MinuteBytes(text, s), HourBytes(text, s));
    PortsJoin(x, y, bs, b);
    BytesJoin(RowsPorts(x, bs, b), RowsPorts(y, bs, b), s);
    SlotsJoin(RowsPorts(x, bs, b), RowsPorts(y, bs, b));
  }

  lemma RolledBytes(t: Tables, text: PortTexts, s: Slot)
    requires PortsRolled(t, text)
    ensures forall hk :: hk in t.hours ==> HourBytes(text, s)(hk) == SumOver(MinutesOf(t, hk), MinuteBytes(text, s))
  {
    hide MinutesOf, SumOver, HourBytes, MinuteBytes;
  }

  lemma SameTotals(a: seq<PortsJson.PortEntry>, b: seq<PortsJson.PortEntry>)
    requires forall s :: ListBytes(a, s) == ListBytes(b, s) && (s in SlotsOf(a) <==> s in SlotsOf(b))
    ensures PortTotals(map[], a) == PortTotals(map[], b)
  {
    hide ListBytes, SlotsOf;
    assert SlotsOf(a) == SlotsOf(b);
  }

  /**
   When hour rows sum the port lists of their minutes, both passes accept their
   rows as soon as the totals of the minutes fit, and every stat they return is
   the same, top ports included.
   */
  lemma TopPortsAgree(t: Tables, plan: HourPlan, ranges: seq<Span>, bs: int, countPhysical: bool,
                      share: MinuteRow -> map<int, int>, text: PortTexts,
                      raw: seq<MinuteKey>, edges: seq<MinuteKey>, hours: seq<HourKey>)
    requires Consistent(t) && bs > 0 && bs % HOUR == 0 && LegacySound(t.minutes, t.mark, false)
             && Serves(plan, ranges, t.mark)
    requires ReturnsMinutes(raw, t.minutes, ranges) && ReturnsMinutes(edges, t.minutes, plan.minutes)
    requires ReturnsHours(hours, t.hours, plan.hours)
    requires NonNegativeMinutes(t.minutes, share) && PlainTexts(t, text) && PortsRolled(t, text)
    requires TotalsFit(MinuteStatRows(t.minutes, raw, share, text), bs, countPhysical)
    requires PortTotalsFit(MinuteStatRows(t.minutes, raw, share, text), bs)
    ensures var minuteRows, planRows := MinuteStatRows(t.minutes, raw, share, text),
                MinuteStatRows(t.minutes, edges, share, text) + HourStatRows(t.hours, hours, text);
            && AcceptsRows(map[], minuteRows, bs, countPhysical) && AcceptsRows(map[], planRows, bs, countPhysical)
            && StatsOf(minuteRows, bs, countPhysical) == StatsOf(planRows, bs, countPhysical)
  {
    var a, b := MinuteStatRows(t.minutes, raw, share, text),
        MinuteStatRows(t.minutes, edges, share, text) + HourStatRows(t.hours, hours, text);
    hide *;
    forall k
      ensures PortTotals(map[], RowsPorts(a, bs, k)) == PortTotals(map[], RowsPorts(b, bs, k))
      ensures forall s :: ListBytes(RowsPorts(a, bs, k), s) == ListBytes(RowsPorts(b, bs, k), s)
    {
      forall s
        ensures ListBytes(RowsPorts(a, bs, k), s) == ListBytes(RowsPorts(b, bs, k), s)
        ensures s in SlotsOf(RowsPorts(a, bs, k)) <==> s in SlotsOf(RowsPorts(b, bs, k))
      {
        SlotAgrees(t, plan, ranges, bs, k, s, share, text, raw, edges, hours);
      }
      SameTotals(RowsPorts(a, bs, k), RowsPorts(b, bs, k));
    }
    FitsAsWell(a, b, bs);
    SinglePassAgrees(t, plan, ranges, bs, countPhysical, share, text, raw, edges, hours);
    StatsWithPorts(a, b, bs, countPhysical);
  }

  lemma FitsAsWell(a: seq<StatRow>, b: seq<StatRow>, bs: int)
    requires bs > 0 && PortTotalsFit(a, bs)
    requires forall k, s :: ListBytes(RowsPorts(a, bs, k), s) == ListBytes(RowsPorts(b, bs, k), s)
    ensures PortTotalsFit(b, bs)
  {
    hide RowsPorts, ListBytes;
  }

  lemma StatsWithPorts(a: seq<StatRow>, b: seq<StatRow>, bs: int, countPhysical: bool)
    requires bs > 0
    requires WithoutPorts(StatsOf(a, bs, countPhysical)) == WithoutPorts(StatsOf(b, bs, countPhysical))
    requires forall k :: PortTotals(map[], RowsPorts(a, bs, k)) == PortTotals(map[], RowsPorts(b, bs, k))
    ensures StatsOf(a, bs, countPhysical) == StatsOf(b, bs, countPhysical)
  {
    hide RowsPorts, PortTotals, Top, BucketsOf, RowsMeasure, RowsEnds, RowsProtos;
    var u, v := StatsOf(a, bs, countPhysical), StatsOf(b, bs, countPhysical);
    assert u.Keys == WithoutPorts(u).Keys == WithoutPorts(v).Keys == v.Keys;
    forall k | k in u
      ensures u[k] == v[k]
    {
      assert u[k].(topPorts := []) == WithoutPorts(u)[k] == WithoutPorts(v)[k] == v[k].(topPorts := []);
      assert u[k].topPorts == v[k].topPorts;
    }
  }
}

/**
 Derived stats over a rollup plan (singlePassRollupStats in
 stats_single_pass.go): minute edges plus hour rows must give, bucket by
 bucket, the totals of the raw minutes of the window. Every total of a stats
 bucket is one additive measure of its rows, so one theorem covers them all.
 */
module StatsPlan {
  import opened GoInts
  import opened PairGroups
  import opened HourRollup
  import opened RollupStore
  import opened WindowPlan
  import opened SpanReads
  import opened FiniteSums
  import opened GraphPlan
  import MissingRanges

  /** A number the stats add up over rows. countPhysical: an explicit traffic list was given. */
  datatype Measure = Bytes(traffic: string) | Flows | ProtoBytes(proto: int, countPhysical: bool)

  function IntOf(s: Sum): int {
    if s.Num? then s.n else 0
  }

  /** Physical rows count toward protocols only when asked for. */
  predicate Counts(m: Measure, pair: PairKey) {
    match m
    case Bytes(traffic) => pair.traffic == traffic
    case Flows => true
    case ProtoBytes(_, countPhysical) => pair.traffic != "physical" || countPhysical
  }

  /** What a minute row adds. share stands for the protocol-list fallback of a row without protocol bytes. */
  function OfRow(m: Measure, share: MinuteRow -> map<int, int>, pair: PairKey, row: MinuteRow): int {
    if !Counts(m, pair) then 0
    else match m
      case Bytes(_) => row.tx + row.rx
      case Flows => row.flows
      case ProtoBytes(p, _) => IntAt(if row.protocolBytes != map[] then row.protocolBytes else
          if row.protocols != {} then share(row) else map[], p)
  }

  /** What an hour row adds: its null protocol key is dropped. */
  function OfHour(m: Measure, pair: PairKey, c: Counters): int {
    if !Counts(m, pair) then 0
    else match m
      case Bytes(_) => IntOf(c.tx) + IntOf(c.rx)
      case Flows => IntOf(c.flows)
      case ProtoBytes(p, _) => IntOf(SumAt(c.protocols, Proto(p)))
  }

  lemma OfHourAdds(m: Measure, pair: PairKey, a: Counters, b: Counters)
    ensures OfHour(m, pair, Merge(a, b)) == OfHour(m, pair, a) + OfHour(m, pair, b)
  {
    if m.ProtoBytes? {
      var k := Proto(m.proto);
      assert SumAt(MergeSums(a.protocols, b.protocols), k) == AddSum(SumAt(a.protocols, k), SumAt(b.protocols, k));
    }
  }

  lemma OfHourEmpty(m: Measure, pair: PairKey)
    ensures OfHour(m, pair, EMPTY) == 0
  {
  }

  /** A row with protocol bytes, or without protocols, adds the same as its lifted counters. */
  lemma OfHourLift(m: Measure, share: MinuteRow -> map<int, int>, pair: PairKey, b: int, row: MinuteRow)
    requires !NeedsFallback(row)
    ensures OfHour(m, pair, Lift(b, row)) == OfRow(m, share, pair, row)
  {
    if m.ProtoBytes? && Counts(m, pair) {
      var k := Proto(m.proto);
      var sums := ProtoSums(row.protocolBytes);
      assert k in sums <==> m.proto in row.protocolBytes;
    }
  }

  /** The fallback flag is exact: a row needs it exactly when its lifted counters can miss a measure. */
  lemma FallbackIsExact(b: int, row: MinuteRow)
    ensures NeedsFallback(row)
       <==> exists m, share, pair :: OfHour(m, pair, Lift(b, row)) != OfRow(m, share, pair, row)
  {
    if NeedsFallback(row) {
      var m, pair := ProtoBytes(0, true), PairKey("", "", "");
      var share := (r: MinuteRow) => map[0 := 1];
      assert OfHour(m, pair, Lift(b, row)) == 0 && OfRow(m, share, pair, row) == 1;
    } else {
      forall m, share, pair
        ensures OfHour(m, pair, Lift(b, row)) == OfRow(m, share, pair, row)
      {
        OfHourLift(m, share, pair, b, row);
      }
    }
  }

  /** A pair's minute rows in [lo, hi). */
  function KeysIn(minutes: Minutes, pair: PairKey, lo: int, hi: int): set<MinuteKey> {
    set mk | mk in minutes && mk.pair == pair && lo <= mk.bucket < hi
  }

  /** The measure of a fold is the sum over its rows. */
  lemma {:induction false} OfFold(m: Measure, share: MinuteRow -> map<int, int>, minutes: Minutes, pair: PairKey,
                                  lo: int, hi: int, f: MinuteKey -> int)
    requires forall mk :: mk in KeysIn(minutes, pair, lo, hi) ==>
             !NeedsFallback(minutes[mk]) && f(mk) == OfRow(m, share, pair, minutes[mk])
    ensures OfHour(m, pair, Fold(minutes, pair, lo, hi)) == SumOver(KeysIn(minutes, pair, lo, hi), f)
    decreases hi - lo
  {
    hide OfHour, OfRow, Merge, Lift, NeedsFallback;
    if hi <= lo {
      assert KeysIn(minutes, pair, lo, hi) == {};
      OfHourEmpty(m, pair);
    } else {
      var s, rest := KeysIn(minutes, pair, lo, hi), KeysIn(minutes, pair, lo, hi - 1);
      OfFold(m, share, minutes, pair, lo, hi - 1, f);
      OfHourAdds(m, pair, Fold(minutes, pair, lo, hi - 1), MinuteAt(minutes, pair, hi - 1));
      if hi - 1 >= 0 && MinuteKey(hi - 1, pair) in minutes {
        var mk := MinuteKey(hi - 1, pair);
        SumTake(s, f, mk);
        assert s - {mk} == rest;
        OfHourLift(m, share, pair, hi - 1, minutes[mk]);
      } else {
        OfHourEmpty(m, pair);
        assert s == rest by {
          forall mk | mk in s
            ensures mk in rest
          {
            assert MinuteKey(mk.bucket, pair) == mk;
          }
        }
      }
    }
  }

  /** (bucket / bs) * bs: the multiple of bs at or next to t on the side of 1970. */
  function BucketOf(t: int, bs: int): (b: int)
    requires bs > 0
    ensures b % bs == 0
    ensures t >= 0 ==> b <= t < b + bs
    ensures t < 0 ==> b - bs < t <= b <= 0
  {
    TruncToBounds(t, bs);
    TruncTo(t, bs)
  }

  /** All seconds of an hour fall in one bucket when buckets are whole hours. */
  lemma HourInBucket(h: nat, t: nat, bs: int)
    requires bs > 0 && bs % HOUR == 0 && h % HOUR == 0 && h <= t < h + HOUR
    ensures BucketOf(t, bs) == BucketOf(h, bs)
  {
    var k, j := bs / HOUR, h / HOUR;
    assert bs == k * HOUR && h == j * HOUR;
    var q, r := j / k, j % k;
    assert j == q * k + r;
    assert h == q * bs + r * HOUR by {
      assert (q * k) * HOUR == q * (k * HOUR);
    }
    assert r * HOUR + HOUR <= bs by {
      assert (k - r) * HOUR >= HOUR;
      assert (k - r) * HOUR == k * HOUR - r * HOUR;
    }
    QuotientUnique(h, bs, q, r * HOUR);
    QuotientUnique(t, bs, q, r * HOUR + (t - h));
  }

  /** The minute rows a statement over spans reads into bucket b. */
  function MinuteRows(minutes: Minutes, spans: seq<Span>, bs: int, b: int): set<MinuteKey>
    requires bs > 0
  {
    set mk | mk in minutes && InSpans(spans, mk.bucket) && BucketOf(mk.bucket, bs) == b
  }

  /** The hour rows: they are read by hour and grouped by min_bucket. */
  function HourRows(hours: Hours, spans: seq<Span>, bs: int, b: int): set<HourKey>
    requires bs > 0
  {
    set hk | hk in hours && InSpans(spans, hk.hour) && hours[hk].bucket.Some? && BucketOf(hours[hk].bucket.value, bs)
        == b
  }

  function HourKeyOf(mk: MinuteKey): HourKey {
    HourKey(HourOf(mk.bucket), mk.pair)
  }

  /** Summing groups is summing their members. */
  lemma {:induction false} GroupedSum(s: set<MinuteKey>, groups: set<HourKey>, f: MinuteKey -> int, g: HourKey -> int)
    requires forall mk :: mk in s ==> HourKeyOf(mk) in groups
    requires forall hk :: hk in groups ==> g(hk) == SumOver(Members(s, hk), f)
    ensures SumOver(s, f) == SumOver(groups, g)
    decreases groups
  {
    if groups == {} {
      assert s == {};
    } else {
      var hk :| hk in groups;
      var part := Members(s, hk);
      var rest := s - part;
      SumTake(groups, g, hk);
      forall x | x in groups - {hk}
        ensures g(x) == SumOver(Members(rest, x), f)
      {
        assert Members(rest, x) == Members(s, x);
      }
      GroupedSum(rest, groups - {hk}, f, g);
      SumUnion(rest, part, f);
      assert rest + part == s;
    }
  }

  function Members(s: set<MinuteKey>, hk: HourKey): set<MinuteKey> {
    set mk | mk in s && HourKeyOf(mk) == hk
  }

  // ---- One plan.

  /** A plan that reads every stored second of disjoint ranges once, with hour ranges the mark covers. */
  ghost predicate Serves(plan: HourPlan, ranges: seq<Span>, mark: int) {
    && (forall s: nat :: Hits(plan.minutes, s) + Hits(plan.hours, s) == Hits(ranges, s) <= 1)
    && (forall s :: s in plan.hours ==> CoveredHours(s, mark))
  }

  lemma InSpansIsHits(spans: seq<Span>, t: int)
    ensures InSpans(spans, t) <==> Hits(spans, t) > 0
  {
    if InSpans(spans, t) {
      var i :| 0 <= i < |spans| && Holds(spans[i], t);
      HitsMember(spans, i, t);
    }
    if Hits(spans, t) > 0 {
      var i := HitsSome(spans, t);
    }
  }

  /** A minute in a covered hour range is rolled, and its whole hour up to the mark is in the range. */
  lemma CoveredMinute(t: Tables, s: Span, mk: MinuteKey)
    requires Consistent(t) && CoveredHours(s, t.mark) && mk in t.minutes && Holds(s, mk.bucket)
    ensures mk.bucket <= t.mark && s.lo <= HourOf(mk.bucket) < s.hi
    ensures RolledEnd(HourOf(mk.bucket) + HOUR, t.mark) <= s.hi
  {
    hide HoursOf;
    HoursAreMinutes(s.hi);
    var h := HourOf(mk.bucket);
    WholeHourInside(h, mk.bucket, s.lo, s.hi);
    if mk.bucket > t.mark {
      MinuteGap(t.mark, mk.bucket, s.hi);
    }
  }

  lemma WholeHourInside(h: nat, t: nat, lo: int, hi: int)
    requires h == HourOf(t) && lo % HOUR == 0 && lo <= t < hi
    ensures lo <= h && (hi % HOUR == 0 ==> h + HOUR <= hi)
  {
  }

  lemma MinuteGap(mark: int, t: nat, hi: int)
    requires ValidMark(mark) && t % MINUTE == 0 && mark < t < hi
    ensures mark >= 0 ==> mark + MINUTE < hi
  {
  }

  /** The hour row of a rolled minute groups into the minute's own bucket. */
  lemma RowOfMinute(t: Tables, spans: seq<Span>, bs: int, b: int, mk: MinuteKey)
    requires Consistent(t) && bs > 0 && bs % HOUR == 0
    requires forall s :: s in spans ==> CoveredHours(s, t.mark)
    requires mk in MinuteRows(t.minutes, spans, bs, b)
    ensures HourKeyOf(mk) in HourRows(t.hours, spans, bs, b)
    ensures mk in KeysIn(t.minutes, mk.pair, HourOf(mk.bucket), RolledEnd(HourOf(mk.bucket) + HOUR, t.mark))
  {
    hide HoursOf, Fold, HourOf;
    var i :| 0 <= i < |spans| && Holds(spans[i], mk.bucket);
    assert spans[i] in spans;
    CoveredMinute(t, spans[i], mk);
    var hk := HourKeyOf(mk);
    assert t.hours == HoursOf(t.minutes, t.mark);
    RolledMinuteHasRow(t.minutes, t.mark, mk);
    assert Holds(spans[i], hk.hour);
    RowBucket(t, hk);
    HourInBucket(hk.hour, mk.bucket, bs);
    HourInBucket(hk.hour, t.hours[hk].bucket.value, bs);
  }

  lemma RowBucket(t: Tables, hk: HourKey)
    requires Consistent(t) && hk in t.hours
    ensures hk.hour % HOUR == 0 && t.hours[hk] == Fold(t.minutes, hk.pair, hk.hour, RolledEnd(hk.hour + HOUR, t.mark))
    ensures t.hours[hk].bucket.Some? && hk.hour <= t.hours[hk].bucket.value < hk.hour + HOUR
  {
    hide Fold, HoursOf;
    assert t.hours == HoursOf(t.minutes, t.mark);
    HoursOfAt(t.minutes, t.mark, hk);
    var end := RolledEnd(hk.hour + HOUR, t.mark);
    FoldEmpty(t.minutes, hk.pair, hk.hour, end);
    FoldEarliest(t.minutes, hk.pair, hk.hour, end);
  }

  /** The minutes an hour row stands for are exactly its members among the rows of the range. */
  lemma MembersAreHour(t: Tables, spans: seq<Span>, bs: int, b: int, hk: HourKey)
    requires Consistent(t) && bs > 0 && bs % HOUR == 0
    requires forall s :: s in spans ==> CoveredHours(s, t.mark)
    requires hk in HourRows(t.hours, spans, bs, b)
    ensures Members(MinuteRows(t.minutes, spans, bs, b), hk)
         == KeysIn(t.minutes, hk.pair, hk.hour, RolledEnd(hk.hour + HOUR, t.mark))
  {
    hide HoursOf, Fold, HourOf, BucketOf;
    RowBucket(t, hk);
    HourInBucket(hk.hour, t.hours[hk].bucket.value, bs);
    var i :| 0 <= i < |spans| && Holds(spans[i], hk.hour);
    assert spans[i] in spans;
    var rows := MinuteRows(t.minutes, spans, bs, b);
    var keys := KeysIn(t.minutes, hk.pair, hk.hour, RolledEnd(hk.hour + HOUR, t.mark));
    forall mk | mk in Members(rows, hk)
      ensures mk in keys
    {
      RowOfMinute(t, spans, bs, b, mk);
    }
    forall mk | mk in keys
      ensures mk in Members(rows, hk)
    {
      HourUnique(hk.hour, mk.bucket);
      HourInBucket(hk.hour, mk.bucket, bs);
      HourEndsInSpan(spans[i], t.mark, hk.hour, mk.bucket);
      assert Holds(spans[i], mk.bucket);
      assert HourKeyOf(mk) == hk;
    }
  }

  lemma HourEndsInSpan(s: Span, mark: int, h: nat, t: nat)
    requires CoveredHours(s, mark) && h % HOUR == 0 && Holds(s, h) && h <= t < RolledEnd(h + HOUR, mark)
    ensures Holds(s, t)
  {
    if s.hi % HOUR == 0 {
      WholeHourInside(h, h, s.lo, s.hi);
    }
  }

  /** The measure of hour rows is the measure of the minutes in their ranges. */
  lemma HourRowsAddUp(t: Tables, spans: seq<Span>, bs: int, b: int, m: Measure, share: MinuteRow -> map<int, int>,
                      f: MinuteKey -> int, g: HourKey -> int)
    requires Consistent(t) && bs > 0 && bs % HOUR == 0 && LegacySound(t.minutes, t.mark, false)
    requires forall s :: s in spans ==> CoveredHours(s, t.mark)
    requires forall mk :: mk in t.minutes ==> f(mk) == OfRow(m, share, mk.pair, t.minutes[mk])
    requires forall hk :: hk in t.hours ==> g(hk) == OfHour(m, hk.pair, t.hours[hk])
    ensures SumOver(MinuteRows(t.minutes, spans, bs, b), f) == SumOver(HourRows(t.hours, spans, bs, b), g)
  {
    hide Consistent, OfRow, OfHour, CoveredHours, NeedsFallback;
    forall hk | hk in t.hours
      ensures g(hk) == SumOver(MinutesOf(t, hk), f)
    {
      RowBucket(t, hk);
      OfFold(m, share, t.minutes, hk.pair, hk.hour, RolledEnd(hk.hour + HOUR, t.mark), f);
    }
    HourSumsAddUp(t, spans, bs, b, f, g);
  }

  /** The rolled minutes an hour row stands for. */
  function MinutesOf(t: Tables, hk: HourKey): set<MinuteKey> {
    KeysIn(t.minutes, hk.pair, hk.hour, RolledEnd(hk.hour + HOUR, t.mark))
  }

  /** Any number of hour rows that sums that of their minutes does so over the rows of a bucket. */
  lemma HourSumsAddUp(t: Tables, spans: seq<Span>, bs: int, b: int, f: MinuteKey -> int, g: HourKey -> int)
    requires Consistent(t) && bs > 0 && bs % HOUR == 0
    requires forall s :: s in spans ==> CoveredHours(s, t.mark)
    requires forall hk :: hk in t.hours ==> g(hk) == SumOver(MinutesOf(t, hk), f)
    ensures SumOver(MinuteRows(t.minutes, spans, bs, b), f) == SumOver(HourRows(t.hours, spans, bs, b), g)
  {
    hide Consistent, CoveredHours;
    var rows, hours := MinuteRows(t.minutes, spans, bs, b), HourRows(t.hours, spans, bs, b);
    forall mk | mk in rows
      ensures HourKeyOf(mk) in hours
    {
      RowOfMinute(t, spans, bs, b, mk);
    }
    forall hk | hk in hours
      ensures g(hk) == SumOver(Members(rows, hk), f)
    {
      MembersAreHour(t, spans, bs, b, hk);
    }
    GroupedSum(rows, hours, f, g);
  }

  /** And over a plan. */
  lemma PlanSumsAreMinuteSums(t: Tables, plan: HourPlan, ranges: seq<Span>, bs: int, b: int, f: MinuteKey -> int,
                              g: HourKey -> int)
    requires Consistent(t) && bs > 0 && bs % HOUR == 0 && Serves(plan, ranges, t.mark)
    requires forall hk :: hk in t.hours ==> g(hk) == SumOver(MinutesOf(t, hk), f)
    ensures SumOver(MinuteRows(t.minutes, ranges, bs, b), f)
         == SumOver(MinuteRows(t.minutes, plan.minutes, bs, b), f) + SumOver(HourRows(t.hours, plan.hours, bs, b), g)
  {
    SplitRows(t.minutes, plan, ranges, t.mark, bs, b);
    ServesCovers(plan, ranges, t.mark);
    hide Consistent, Serves, MinutesOf;
    HourSumsAddUp(t, plan.hours, bs, b, f, g);
    SumUnion(MinuteRows(t.minutes, plan.minutes, bs, b), MinuteRows(t.minutes, plan.hours, bs, b), f);
  }

  /**
   Every total of every bucket is the same over the plan and over the raw
   minutes, when buckets are whole hours and no rolled minute is legacy.
   */
  lemma PlanTotalsAreMinuteTotals(t: Tables, plan: HourPlan, ranges: seq<Span>, bs: int, b: int, m: Measure,
                                  share: MinuteRow -> map<int, int>, f: MinuteKey -> int, g: HourKey -> int)
    requires Consistent(t) && bs > 0 && bs % HOUR == 0 && LegacySound(t.minutes, t.mark, false)
    requires Serves(plan, ranges, t.mark)
    requires forall mk :: mk in t.minutes ==> f(mk) == OfRow(m, share, mk.pair, t.minutes[mk])
    requires forall hk :: hk in t.hours ==> g(hk) == OfHour(m, hk.pair, t.hours[hk])
    ensures SumOver(MinuteRows(t.minutes, ranges, bs, b), f)
         == SumOver(MinuteRows(t.minutes, plan.minutes, bs, b), f) + SumOver(HourRows(t.hours, plan.hours, bs, b), g)
  {
    SplitRows(t.minutes, plan, ranges, t.mark, bs, b);
    hide Consistent, OfRow, OfHour, LegacySound;
    HourRowsAddUp(t, plan.hours, bs, b, m, share, f, g);
    SumUnion(MinuteRows(t.minutes, plan.minutes, bs, b), MinuteRows(t.minutes, plan.hours, bs, b), f);
  }

  lemma SplitRows(minutes: Minutes, plan: HourPlan, ranges: seq<Span>, mark: int, bs: int, b: int)
    requires bs > 0 && Serves(plan, ranges, mark)
    ensures MinuteRows(minutes, ranges, bs, b)
         == MinuteRows(minutes, plan.minutes, bs, b) + MinuteRows(minutes, plan.hours, bs, b)
    ensures MinuteRows(minutes, plan.minutes, bs, b) !! MinuteRows(minutes, plan.hours, bs, b)
  {
    hide InSpans, Hits, BucketOf;
    forall mk | mk in minutes
      ensures InSpans(ranges, mk.bucket) <==> InSpans(plan.minutes, mk.bucket) || InSpans(plan.hours, mk.bucket)
      ensures !(InSpans(plan.minutes, mk.bucket) && InSpans(plan.hours, mk.bucket))
    {
      InSpansIsHits(ranges, mk.bucket);
      InSpansIsHits(plan.minutes, mk.bucket);
      InSpansIsHits(plan.hours, mk.bucket);
    }
  }

  datatype Ends = Ends(src: string, dst: string)

  function EndsOf(pair: PairKey): Ends {
    Ends(pair.src, pair.dst)
  }

  /** The distinct pairs of a bucket are the same over the plan and over the raw minutes. */
  lemma PlanPairsAreMinutePairs(t: Tables, plan: HourPlan, ranges: seq<Span>, bs: int, b: int)
    requires Consistent(t) && bs > 0 && bs % HOUR == 0 && Serves(plan, ranges, t.mark)
    ensures MinuteEnds(MinuteRows(t.minutes, ranges, bs, b))
         == MinuteEnds(MinuteRows(t.minutes, plan.minutes, bs, b)) + HourEnds(HourRows(t.hours, plan.hours, bs, b))
  {
    hide *;
    SplitRows(t.minutes, plan, ranges, t.mark, bs, b);
    ServesCovers(plan, ranges, t.mark);
    var k1, k2, h := MinuteRows(t.minutes, plan.minutes, bs, b), MinuteRows(t.minutes, plan.hours, bs, b),
        HourRows(t.hours, plan.hours, bs, b);
    HourRowsHaveEnds(t, plan.hours, bs, b);
    EndsUnion(k1, k2);
  }

  function MinuteEnds(rows: set<MinuteKey>): set<Ends> {
    set mk | mk in rows :: EndsOf(mk.pair)
  }

  function HourEnds(rows: set<HourKey>): set<Ends> {
    set hk | hk in rows :: EndsOf(hk.pair)
  }

  lemma EndsUnion(a: set<MinuteKey>, b: set<MinuteKey>)
    ensures MinuteEnds(a + b) == MinuteEnds(a) + MinuteEnds(b)
  {
  }

  /** Hour rows name the same endpoints as the minutes they stand for. */
  lemma HourRowsHaveEnds(t: Tables, spans: seq<Span>, bs: int, b: int)
    requires Consistent(t) && bs > 0 && bs % HOUR == 0 && forall s :: s in spans ==> CoveredHours(s, t.mark)
    ensures MinuteEnds(MinuteRows(t.minutes, spans, bs, b)) == HourEnds(HourRows(t.hours, spans, bs, b))
  {
    hide MinuteRows, HourRows, BucketOf, Fold, Consistent, CoveredHours, HourOf;
    var k, h := MinuteRows(t.minutes, spans, bs, b), HourRows(t.hours, spans, bs, b);
    forall mk | mk in k
      ensures EndsOf(mk.pair) in HourEnds(h)
    {
      RowOfMinute(t, spans, bs, b, mk);
      assert HourKeyOf(mk) in h && HourKeyOf(mk).pair == mk.pair;
    }
    forall hk | hk in h
      ensures EndsOf(hk.pair) in MinuteEnds(k)
    {
      MembersAreHour(t, spans, bs, b, hk);
      SomeMember(t, spans, bs, b, hk);
      var mk :| mk in Members(k, hk);
      assert mk in k && mk.pair == hk.pair;
    }
  }

  lemma ServesCovers(plan: HourPlan, ranges: seq<Span>, mark: int)
    requires Serves(plan, ranges, mark)
    ensures forall s :: s in plan.hours ==> CoveredHours(s, mark)
  {
  }

  lemma SomeMember(t: Tables, spans: seq<Span>, bs: int, b: int, hk: HourKey)
    requires Consistent(t) && bs > 0 && hk in HourRows(t.hours, spans, bs, b)
    ensures KeysIn(t.minutes, hk.pair, hk.hour, RolledEnd(hk.hour + HOUR, t.mark)) != {}
  {
    hide Fold, HoursOf;
    assert t.hours == HoursOf(t.minutes, t.mark);
    HoursOfAt(t.minutes, t.mark, hk);
    FoldEmpty(t.minutes, hk.pair, hk.hour, RolledEnd(hk.hour + HOUR, t.mark));
    var b0: nat :| hk.hour <= b0 < RolledEnd(hk.hour + HOUR, t.mark) && MinuteKey(b0, hk.pair) in t.minutes;
    assert MinuteKey(b0, hk.pair) in KeysIn(t.minutes, hk.pair, hk.hour, RolledEnd(hk.hour + HOUR, t.mark));
  }

  // ---- Where plans come from.

  lemma {:induction false} SeparateHits(ranges: seq<Span>, t: int)
    requires MissingRanges.Separate(ranges)
    ensures Hits(ranges, t) <= 1
    ensures ranges != [] && Hits(ranges, t) > 0 ==> t < ranges[|ranges| - 1].hi
  {
    if ranges != [] {
      var front, last := ranges[..|ranges| - 1], ranges[|ranges| - 1];
      SeparateHits(front, t);
      if front != [] {
        assert front[|front| - 1].hi < last.lo;
      }
    }
  }

  /** The combined plan of the gap finder's ranges serves them. */
  lemma GapPlanServes(plan: HourPlan, ranges: seq<Span>, mark: int)
    requires MissingRanges.Separate(ranges) && ValidMark(mark) && HoursAreRolled(plan, mark)
    requires forall t: nat :: Hits(plan.minutes, t) + Hits(plan.hours, t) == Hits(ranges, t)
    ensures Serves(plan, ranges, mark)
  {
    PlanHoursCovered(plan, mark);
    forall t: nat
      ensures Hits(ranges, t) <= 1
    {
      SeparateHits(ranges, t);
    }
  }
}

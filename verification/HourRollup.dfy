/**
 The minute table node_pairs, the hourly rollup node_pair_hours and its mark
 (hour_rollup.go). An hour row is to be the fold of the surviving minutes at or
 below the mark; HoursOf says that, and the lemmas say how it moves.
 */
module HourRollup {
  import opened GoInts
  import opened PairGroups

  datatype PairKey = PairKey(src: string, dst: string, traffic: string)
  datatype MinuteKey = MinuteKey(bucket: nat, pair: PairKey)
  datatype HourKey = HourKey(hour: nat, pair: PairKey)

  /** The integer and protocol columns of a node_pairs row. */
  datatype MinuteRow = MinuteRow(
    tx: int, rx: int, txPkts: int, rxPkts: int, flows: int,
    directional: bool,
    protocols: set<int>,
    protocolBytes: map<int, int>,
    txProto: map<int, int>,
    rxProto: map<int, int>)

  type Minutes = map<MinuteKey, MinuteRow>
  type Hours = map<HourKey, Counters>

  function IntAt(m: map<int, int>, k: int): int {
    if k in m then m[k] else 0
  }

  function AddBytes(a: map<int, int>, b: map<int, int>): map<int, int> {
    map k | k in a.Keys + b.Keys :: IntAt(a, k) + IntAt(b, k)
  }

  /** The ON CONFLICT branch of the node_pairs upsert. */
  function AddRow(a: MinuteRow, b: MinuteRow): MinuteRow {
    MinuteRow(
      a.tx + b.tx, a.rx + b.rx, a.txPkts + b.txPkts, a.rxPkts + b.rxPkts, a.flows + b.flows,
      a.directional && b.directional,
      a.protocols + b.protocols,
      AddBytes(a.protocolBytes, b.protocolBytes),
      AddBytes(a.txProto, b.txProto),
      AddBytes(a.rxProto, b.rxProto))
  }

  function Upsert(minutes: Minutes, key: MinuteKey, row: MinuteRow): Minutes {
    minutes[key := if key in minutes then AddRow(minutes[key], row) else row]
  }

  /** A protocol-bytes column as the sums a scan adds to a group. */
  function ProtoSums(m: map<int, int>): map<ProtoKey, Sum> {
    map k | k in (set p | p in m :: Proto(p)) :: Num(m[k.id])
  }

  /** One minute row as a scan adds it to a group (pairGroup.addRow). */
  function Lift(bucket: int, row: MinuteRow): Counters {
    Counters(
      Some(bucket),
      Num(row.tx), Num(row.rx), Num(row.txPkts), Num(row.rxPkts), Num(row.flows),
      Some(if row.directional then 1 else 0),
      ProtoSums(row.protocolBytes), ProtoSums(row.txProto), ProtoSums(row.rxProto))
  }

  lemma ProtoSumsAdd(a: map<int, int>, b: map<int, int>)
    ensures ProtoSums(AddBytes(a, b)) == MergeSums(ProtoSums(a), ProtoSums(b))
  {
    var l, r := ProtoSums(AddBytes(a, b)), MergeSums(ProtoSums(a), ProtoSums(b));
    forall k
      ensures k in l <==> k in r
    {
      if k in l { assert k.id in a || k.id in b; assert Proto(k.id) == k; }
    }
    assert l.Keys == r.Keys;
  }

  /** The SQL merge of two rows of a minute and the in-memory merge agree. */
  lemma LiftAdd(bucket: int, a: MinuteRow, b: MinuteRow)
    ensures Lift(bucket, AddRow(a, b)) == Merge(Lift(bucket, a), Lift(bucket, b))
  {
    ProtoSumsAdd(a.protocolBytes, b.protocolBytes);
    ProtoSumsAdd(a.txProto, b.txProto);
    ProtoSumsAdd(a.rxProto, b.rxProto);
  }

  /** What a scan of one minute adds for one pair. */
  function MinuteAt(minutes: Minutes, pair: PairKey, b: int): Counters {
    if b >= 0 && MinuteKey(b, pair) in minutes then Lift(b, minutes[MinuteKey(b, pair)]) else EMPTY
  }

  /** What a scan of the minutes in [lo, hi) adds up to for one pair. */
  function Fold(minutes: Minutes, pair: PairKey, lo: int, hi: int): Counters
    decreases hi - lo
  {
    if hi <= lo then EMPTY
    else Merge(Fold(minutes, pair, lo, hi - 1), MinuteAt(minutes, pair, hi - 1))
  }

  lemma {:induction false} FoldSplit(minutes: Minutes, pair: PairKey, lo: int, mid: int, hi: int)
    requires lo <= mid <= hi
    ensures Fold(minutes, pair, lo, hi) == Merge(Fold(minutes, pair, lo, mid), Fold(minutes, pair, mid, hi))
    decreases hi - mid
  {
    hide Merge;
    if mid == hi {
      MergeEmpty(Fold(minutes, pair, lo, mid));
    } else {
      FoldSplit(minutes, pair, lo, mid, hi - 1);
      MergeAssoc(Fold(minutes, pair, lo, mid), Fold(minutes, pair, mid, hi - 1), MinuteAt(minutes, pair, hi - 1));
    }
  }

  /** Fold looks at nothing but the pair's minutes inside the range. */
  lemma {:induction false} FoldSame(a: Minutes, b: Minutes, pair: PairKey, lo: int, hi: int)
    requires forall t :: lo <= t < hi ==> MinuteAt(a, pair, t) == MinuteAt(b, pair, t)
    ensures Fold(a, pair, lo, hi) == Fold(b, pair, lo, hi)
    decreases hi - lo
  {
    hide Merge;
    if lo < hi {
      FoldSame(a, b, pair, lo, hi - 1);
    }
  }

  /** Adding a delta to one minute adds it to exactly the ranges that hold the minute. */
  lemma {:induction false} FoldUpsert(minutes: Minutes, key: MinuteKey, row: MinuteRow, pair: PairKey, lo: int, hi: int)
    ensures Fold(Upsert(minutes, key, row), pair, lo, hi)
         == if pair == key.pair && lo <= key.bucket < hi
            then Merge(Fold(minutes, pair, lo, hi), Lift(key.bucket, row))
            else Fold(minutes, pair, lo, hi)
    decreases hi - lo
  {
    hide Merge, Lift, AddRow;
    var after := Upsert(minutes, key, row);
    if lo < hi {
      FoldUpsert(minutes, key, row, pair, lo, hi - 1);
      var rest, last, x := Fold(minutes, pair, lo, hi - 1), MinuteAt(minutes, pair, hi - 1), Lift(key.bucket, row);
      if pair == key.pair && hi - 1 == key.bucket {
        assert MinuteAt(after, pair, hi - 1) == Merge(last, x) by {
          if key in minutes {
            LiftAdd(key.bucket, minutes[key], row);
          } else {
            MergeEmpty(x);
          }
        }
        MergeAssoc(rest, last, x);
      } else {
        assert MinuteAt(after, pair, hi - 1) == last;
        MergeSwap(rest, last, x);
      }
    }
  }

  /** A fold is EMPTY exactly when the range holds no row of the pair. */
  lemma {:induction false} FoldEmpty(minutes: Minutes, pair: PairKey, lo: int, hi: int)
    ensures Fold(minutes, pair, lo, hi) == EMPTY
       <==> forall t: nat :: lo <= t < hi ==> MinuteKey(t, pair) !in minutes
    ensures Fold(minutes, pair, lo, hi) == EMPTY <==> Fold(minutes, pair, lo, hi).bucket.None?
    decreases hi - lo
  {
    if lo < hi {
      FoldEmpty(minutes, pair, lo, hi - 1);
      MergeEmpty(Fold(minutes, pair, lo, hi - 1));
      assert MinuteAt(minutes, pair, hi - 1) != EMPTY ==> MinuteAt(minutes, pair, hi - 1).bucket.Some?;
    }
  }

  /** The part of a window [lo, hi) that is at or below the mark. */
  function RolledEnd(hi: int, mark: int): int {
    if hi <= mark + 1 then hi else mark + 1
  }

  /** The fold an hour row has to equal: the hour's surviving minutes up to the mark. */
  function Rolled(minutes: Minutes, mark: int, hk: HourKey): Counters {
    Fold(minutes, hk.pair, hk.hour, RolledEnd(hk.hour + HOUR, mark))
  }

  function HourKeys(minutes: Minutes): set<HourKey> {
    set mk | mk in minutes :: HourKey(HourOf(mk.bucket), mk.pair)
  }

  /** The whole rollup table, from the minutes and the mark alone. */
  function HoursOf(minutes: Minutes, mark: int): Hours {
    map hk | hk in HourKeys(minutes) && Rolled(minutes, mark, hk) != EMPTY :: Rolled(minutes, mark, hk)
  }

  /** The rollup holds a row exactly where a minute at or below the mark survives. */
  lemma HoursOfAt(minutes: Minutes, mark: int, hk: HourKey)
    ensures hk in HoursOf(minutes, mark)
       <==> hk.hour % HOUR == 0 && Rolled(minutes, mark, hk) != EMPTY
    ensures hk in HoursOf(minutes, mark) ==> HoursOf(minutes, mark)[hk] == Rolled(minutes, mark, hk)
  {
    if hk.hour % HOUR == 0 && Rolled(minutes, mark, hk) != EMPTY {
      FoldEmpty(minutes, hk.pair, hk.hour, RolledEnd(hk.hour + HOUR, mark));
      var t: nat :| hk.hour <= t < RolledEnd(hk.hour + HOUR, mark) && MinuteKey(t, hk.pair) in minutes;
      HourUnique(hk.hour, t);
      assert HourKey(HourOf(t), MinuteKey(t, hk.pair).pair) in HourKeys(minutes);
    }
  }

  /** Two rollups agree as soon as their rows do. */
  lemma HoursOfIs(hours: Hours, minutes: Minutes, mark: int)
    requires forall hk :: hk in hours <==> hk.hour % HOUR == 0 && Rolled(minutes, mark, hk) != EMPTY
    requires forall hk :: hk in hours ==> hours[hk] == Rolled(minutes, mark, hk)
    ensures hours == HoursOf(minutes, mark)
  {
    hide HoursOf, Rolled;
    var want := HoursOf(minutes, mark);
    forall hk
      ensures hk in hours <==> hk in want
      ensures hk in hours ==> hours[hk] == want[hk]
    {
      HoursOfAt(minutes, mark, hk);
    }
    assert hours.Keys == want.Keys;
  }

  /** The row of an hour as a group merge sees it: EMPTY when there is none. */
  function HourAt(hours: Hours, hk: HourKey): Counters {
    if hk in hours then hours[hk] else EMPTY
  }

  lemma HourAtIsRolled(minutes: Minutes, mark: int, hk: HourKey)
    requires hk.hour % HOUR == 0
    ensures HourAt(HoursOf(minutes, mark), hk) == Rolled(minutes, mark, hk)
  {
    HoursOfAt(minutes, mark, hk);
  }

  // ---- The mark.

  function FloorMinute(unix: int): int {
    if unix <= 0 then 0 else (unix / MINUTE) * MINUTE
  }

  /** -1 while nothing is rolled, then the newest rolled minute. */
  predicate ValidMark(mark: int) {
    mark == -1 || (mark >= 0 && mark % MINUTE == 0)
  }

  ghost predicate AlignedMinutes(minutes: Minutes) {
    forall mk :: mk in minutes ==> mk.bucket % MINUTE == 0
  }

  ghost predicate Waiting(minutes: Minutes, mark: int, closedThrough: int) {
    exists mk :: mk in minutes && mark < mk.bucket < closedThrough
  }

  /** Where a roll up to closedThrough leaves the mark. */
  ghost function RolledMark(minutes: Minutes, mark: int, closedThrough: int): (m: int)
    requires ValidMark(mark)
    ensures ValidMark(m) && m >= mark
    ensures mark < 0 && !Waiting(minutes, mark, FloorMinute(closedThrough)) ==> m == mark
    ensures mark >= 0 || Waiting(minutes, mark, FloorMinute(closedThrough)) ==>
              m == if FloorMinute(closedThrough) - MINUTE > mark then FloorMinute(closedThrough) - MINUTE else mark
  {
    var c := FloorMinute(closedThrough);
    if c <= mark + MINUTE then mark
    else if mark < 0 && !Waiting(minutes, mark, c) then mark
    else c - MINUTE
  }

  // ---- How the rollup moves.

  /** A late delta moves its own hour row by the same delta. */
  lemma HoursAfterLateUpsert(minutes: Minutes, mark: int, key: MinuteKey, row: MinuteRow)
    requires key.bucket <= mark
    ensures var hk := HourKey(HourOf(key.bucket), key.pair);
            var hours := HoursOf(minutes, mark);
            HoursOf(Upsert(minutes, key, row), mark) == hours[hk := Merge(HourAt(hours, hk), Lift(key.bucket, row))]
  {
    hide Merge, Lift, AddRow;
    var after := Upsert(minutes, key, row);
    var hk := HourKey(HourOf(key.bucket), key.pair);
    var hours := HoursOf(minutes, mark);
    var got := hours[hk := Merge(HourAt(hours, hk), Lift(key.bucket, row))];
    forall x: HourKey
      ensures x in got <==> x.hour % HOUR == 0 && Rolled(after, mark, x) != EMPTY
      ensures x in got ==> got[x] == Rolled(after, mark, x)
    {
      HoursOfAt(minutes, mark, x);
      FoldUpsert(minutes, key, row, x.pair, x.hour, RolledEnd(x.hour + HOUR, mark));
      if x == hk {
        HourAtIsRolled(minutes, mark, x);
        FoldEmpty(after, x.pair, x.hour, RolledEnd(x.hour + HOUR, mark));
        assert key in after;
      } else if x.hour % HOUR == 0 && x.pair == key.pair && x.hour <= key.bucket < x.hour + HOUR {
        HourUnique(x.hour, key.bucket);
        assert false;
      }
    }
    HoursOfIs(got, after, mark);
  }

  /** A delta above the mark leaves the rollup alone. */
  lemma HoursAfterOpenUpsert(minutes: Minutes, mark: int, key: MinuteKey, row: MinuteRow)
    requires key.bucket > mark
    ensures HoursOf(Upsert(minutes, key, row), mark) == HoursOf(minutes, mark)
  {
    hide Merge, Lift, AddRow;
    var after := Upsert(minutes, key, row);
    forall x: HourKey
      ensures Rolled(after, mark, x) == Rolled(minutes, mark, x)
    {
      FoldUpsert(minutes, key, row, x.pair, x.hour, RolledEnd(x.hour + HOUR, mark));
    }
    forall x: HourKey
      ensures x in HoursOf(minutes, mark) <==> x.hour % HOUR == 0 && Rolled(after, mark, x) != EMPTY
      ensures x in HoursOf(minutes, mark) ==> HoursOf(minutes, mark)[x] == Rolled(after, mark, x)
    {
      HoursOfAt(minutes, mark, x);
    }
    HoursOfIs(HoursOf(minutes, mark), after, mark);
  }

  lemma FoldNone(minutes: Minutes, pair: PairKey, lo: int, hi: int)
    requires forall t: nat :: lo <= t < hi ==> MinuteKey(t, pair) !in minutes
    ensures Fold(minutes, pair, lo, hi) == EMPTY
  {
    FoldEmpty(minutes, pair, lo, hi);
  }

  /** Minutes that are not there do not count. */
  lemma FoldExtend(minutes: Minutes, pair: PairKey, lo: int, mid: int, hi: int)
    requires mid <= hi
    requires forall t: nat :: mid <= t < hi ==> MinuteKey(t, pair) !in minutes
    ensures Fold(minutes, pair, lo, hi) == Fold(minutes, pair, lo, mid)
  {
    hide Merge;
    if lo <= mid {
      FoldSplit(minutes, pair, lo, mid, hi);
      FoldNone(minutes, pair, mid, hi);
      MergeEmpty(Fold(minutes, pair, lo, mid));
    } else {
      FoldNone(minutes, pair, lo, hi);
    }
  }

  lemma FoldSkip(minutes: Minutes, pair: PairKey, lo: int, mid: int, hi: int)
    requires lo <= mid
    requires forall t: nat :: lo <= t < mid ==> MinuteKey(t, pair) !in minutes
    ensures Fold(minutes, pair, lo, hi) == Fold(minutes, pair, mid, hi)
  {
    hide Merge;
    if mid <= hi {
      FoldSplit(minutes, pair, lo, mid, hi);
      FoldNone(minutes, pair, lo, mid);
      MergeEmpty(Fold(minutes, pair, mid, hi));
    } else {
      FoldNone(minutes, pair, lo, hi);
    }
  }

  /** What mergeMinutesIntoHour leaves: the minutes in (from, to) added onto one hour's rows. */
  function MergedHours(hours: Hours, minutes: Minutes, hour: nat, from: int, until: int): Hours {
    map hk | hk in hours.Keys + (set mk | mk in minutes && from < mk.bucket < until :: HourKey(hour, mk.pair)) ::
      if hk.hour == hour then Merge(HourAt(hours, hk), Fold(minutes, hk.pair, from + 1, until)) else HourAt(hours, hk)
  }

  lemma MergedHoursAt(hours: Hours, minutes: Minutes, hour: nat, from: int, until: int, hk: HourKey)
    ensures hk in MergedHours(hours, minutes, hour, from, until)
       <==> hk in hours || (hk.hour == hour && Fold(minutes, hk.pair, from + 1, until) != EMPTY)
    ensures HourAt(MergedHours(hours, minutes, hour, from, until), hk)
         == if hk.hour == hour then Merge(HourAt(hours, hk), Fold(minutes, hk.pair, from + 1, until))
             else HourAt(hours, hk)
  {
    var got := MergedHours(hours, minutes, hour, from, until);
    FoldEmpty(minutes, hk.pair, from + 1, until);
    MergeEmpty(EMPTY);
    if hk.hour == hour && Fold(minutes, hk.pair, from + 1, until) != EMPTY {
      var t: nat :| from + 1 <= t < until && MinuteKey(t, hk.pair) in minutes;
      assert HourKey(hour, MinuteKey(t, hk.pair).pair) in got;
    }
  }

  /** A merge is EMPTY only when both sides are. */
  lemma MergeIsEmpty(minutes: Minutes, pair: PairKey, lo: int, hi: int, minutes': Minutes, pair': PairKey, lo': int,
                     hi': int)
    ensures var a, b := Fold(minutes, pair, lo, hi), Fold(minutes', pair', lo', hi');
            Merge(a, b) == EMPTY <==> a == EMPTY && b == EMPTY
  {
    FoldEmpty(minutes, pair, lo, hi);
    FoldEmpty(minutes', pair', lo', hi');
    MergeEmpty(EMPTY);
  }

  /** The fold of one hour after the mark has moved to the end of a chunk of that hour. */
  lemma RolledAfterChunk(minutes: Minutes, mark: int, hour: nat, chunkEnd: int, pair: PairKey)
    requires AlignedMinutes(minutes) && ValidMark(mark) && chunkEnd % MINUTE == 0
    requires mark + MINUTE < chunkEnd <= hour + HOUR && hour < chunkEnd
    requires forall t: nat :: mark < t < hour ==> MinuteKey(t, pair) !in minutes
    ensures Rolled(minutes, chunkEnd - MINUTE, HourKey(hour, pair))
         == Merge(Rolled(minutes, mark, HourKey(hour, pair)), Fold(minutes, pair, mark + 1, chunkEnd))
  {
    hide Merge;
    var newMark := chunkEnd - MINUTE;
    assert RolledEnd(hour + HOUR, newMark) == newMark + 1;
    FoldExtend(minutes, pair, hour, newMark + 1, chunkEnd);
    if hour <= mark + 1 {
      FoldSplit(minutes, pair, hour, mark + 1, chunkEnd);
    } else {
      FoldSkip(minutes, pair, mark + 1, hour, chunkEnd);
      MergeEmpty(Fold(minutes, pair, hour, chunkEnd));
    }
  }

  /** One chunk of rollNextHourChunk, seen from the whole table. */
  lemma HoursAfterChunk(minutes: Minutes, mark: int, hour: nat, chunkEnd: int)
    requires AlignedMinutes(minutes) && ValidMark(mark) && chunkEnd % MINUTE == 0 && hour % HOUR == 0
    requires mark + MINUTE < chunkEnd <= hour + HOUR && hour < chunkEnd
    requires forall mk :: mk in minutes && mark < mk.bucket ==> hour <= mk.bucket
    ensures MergedHours(HoursOf(minutes, mark), minutes, hour, mark, chunkEnd) == HoursOf(minutes, chunkEnd - MINUTE)
  {
    hide *;
    var newMark := chunkEnd - MINUTE;
    var got := MergedHours(HoursOf(minutes, mark), minutes, hour, mark, chunkEnd);
    forall hk: HourKey
      ensures hk in got <==> hk.hour % HOUR == 0 && Rolled(minutes, newMark, hk) != EMPTY
      ensures hk in got ==> got[hk] == Rolled(minutes, newMark, hk)
    {
      HourRowAfterChunk(minutes, mark, hour, chunkEnd, hk);
    }
    HoursOfIs(got, minutes, newMark);
  }

  lemma HourRowAfterChunk(minutes: Minutes, mark: int, hour: nat, chunkEnd: int, hk: HourKey)
    requires AlignedMinutes(minutes) && ValidMark(mark) && chunkEnd % MINUTE == 0 && hour % HOUR == 0
    requires mark + MINUTE < chunkEnd <= hour + HOUR && hour < chunkEnd
    requires forall mk :: mk in minutes && mark < mk.bucket ==> hour <= mk.bucket
    ensures var got := MergedHours(HoursOf(minutes, mark), minutes, hour, mark, chunkEnd);
            (hk in got <==> hk.hour % HOUR == 0 && Rolled(minutes, chunkEnd - MINUTE, hk) != EMPTY)
            && (hk in got ==> got[hk] == Rolled(minutes, chunkEnd - MINUTE, hk))
  {
    hide Merge, Fold, MergedHours, HoursOf, MinuteAt;
    HoursOfAt(minutes, mark, hk);
    MergedHoursAt(HoursOf(minutes, mark), minutes, hour, mark, chunkEnd, hk);
    if hk.hour == hour {
      RolledAfterChunk(minutes, mark, hour, chunkEnd, hk.pair);
      MergeIsEmpty(minutes, hk.pair, hk.hour, RolledEnd(hk.hour + HOUR, mark), minutes, hk.pair, mark + 1, chunkEnd);
    } else if hk.hour % HOUR == 0 {
      RolledAwayFromChunk(minutes, mark, chunkEnd - MINUTE, hour, hk);
    }
  }

  /** No other hour sees the mark move. */
  lemma RolledAwayFromChunk(minutes: Minutes, mark: int, newMark: int, hour: nat, hk: HourKey)
    requires hk.hour % HOUR == 0 && hour % HOUR == 0 && hk.hour != hour
    requires mark <= newMark < hour + HOUR
    requires forall mk :: mk in minutes && mark < mk.bucket ==> hour <= mk.bucket
    ensures Rolled(minutes, newMark, hk) == Rolled(minutes, mark, hk)
  {
    hide Merge, MinuteAt, Fold;
    if hk.hour < hour {
      HoursApart(hk.hour, hour);
      FoldExtend(minutes, hk.pair, hk.hour, RolledEnd(hk.hour + HOUR, mark), RolledEnd(hk.hour + HOUR, newMark));
    } else {
      HoursApart(hour, hk.hour);
      FoldNone(minutes, hk.pair, hk.hour, RolledEnd(hk.hour + HOUR, mark));
      FoldNone(minutes, hk.pair, hk.hour, RolledEnd(hk.hour + HOUR, newMark));
    }
  }

  /** A mark that moves over minutes that are not there changes no hour row. */
  lemma HoursAfterAdvance(minutes: Minutes, mark: int, newMark: int)
    requires mark <= newMark
    requires forall mk :: mk in minutes ==> !(mark < mk.bucket <= newMark)
    ensures HoursOf(minutes, newMark) == HoursOf(minutes, mark)
  {
    hide HoursOf, Merge, MinuteAt, Fold;
    var hours := HoursOf(minutes, mark);
    forall hk: HourKey
      ensures hk in hours <==> hk.hour % HOUR == 0 && Rolled(minutes, newMark, hk) != EMPTY
      ensures hk in hours ==> hours[hk] == Rolled(minutes, newMark, hk)
    {
      HoursOfAt(minutes, mark, hk);
      FoldExtend(minutes, hk.pair, hk.hour, RolledEnd(hk.hour + HOUR, mark), RolledEnd(hk.hour + HOUR, newMark));
    }
    HoursOfIs(hours, minutes, newMark);
  }

  // ---- Retention.

  /** DELETE FROM node_pairs WHERE bucket < cutoff. */
  function KeepFrom(minutes: Minutes, cutoff: int): Minutes {
    map mk | mk in minutes && cutoff <= mk.bucket :: minutes[mk]
  }

  /** DELETE FROM node_pair_hours WHERE bucket + 3600 <= cutoff. */
  function DropHoursBefore(hours: Hours, cutoff: int): Hours {
    map hk | hk in hours && cutoff < hk.hour + HOUR :: hours[hk]
  }

  function DropHour(hours: Hours, hour: int): Hours {
    map hk | hk in hours && hk.hour != hour :: hours[hk]
  }

  /** What survives of one hour. */
  lemma RolledAfterKeep(minutes: Minutes, cutoff: int, mark: int, hk: HourKey)
    ensures cutoff <= hk.hour ==> Rolled(KeepFrom(minutes, cutoff), mark, hk) == Rolled(minutes, mark, hk)
    ensures hk.hour + HOUR <= cutoff ==> Rolled(KeepFrom(minutes, cutoff), mark, hk) == EMPTY
  {
    var kept := KeepFrom(minutes, cutoff);
    if cutoff <= hk.hour {
      FoldSame(kept, minutes, hk.pair, hk.hour, RolledEnd(hk.hour + HOUR, mark));
    } else {
      if hk.hour + HOUR <= cutoff {
        FoldNone(kept, hk.pair, hk.hour, RolledEnd(hk.hour + HOUR, mark));
      }
    }
  }

  /** The hour-row deletes and the rebuild of pruneHourRollups, on the surviving minutes. */
  function PrunedHours(hours: Hours, kept: Minutes, mark: int, cutoff: int): Hours {
    var dropped := DropHoursBefore(hours, cutoff);
    var boundary := TruncTo(cutoff, HOUR);
    if cutoff <= boundary then dropped
    else SplitHour(dropped, kept, mark, cutoff, boundary)
  }

  /** The hour the cutoff splits is deleted, then rebuilt from what survives of it. */
  function SplitHour(dropped: Hours, kept: Minutes, mark: int, cutoff: int, boundary: int): Hours {
    var left := DropHour(dropped, boundary);
    if mark < cutoff || boundary < 0 then left
    else MergedHours(left, kept, boundary, cutoff - 1, SplitEnd(mark, boundary))
  }

  function SplitEnd(mark: int, boundary: int): int {
    if mark + MINUTE < boundary + HOUR then mark + MINUTE else boundary + HOUR
  }

  /** A cutoff that splits no hour: dropping whole hours is enough. */
  lemma HoursAfterWholeCutoff(minutes: Minutes, mark: int, cutoff: int)
    requires cutoff <= TruncTo(cutoff, HOUR)
    ensures DropHoursBefore(HoursOf(minutes, mark), cutoff) == HoursOf(KeepFrom(minutes, cutoff), mark)
  {
    TruncToBounds(cutoff, HOUR);
    var kept := KeepFrom(minutes, cutoff);
    var got := DropHoursBefore(HoursOf(minutes, mark), cutoff);
    forall hk: HourKey
      ensures hk in got <==> hk.hour % HOUR == 0 && Rolled(kept, mark, hk) != EMPTY
      ensures hk in got ==> got[hk] == Rolled(kept, mark, hk)
    {
      HoursOfAt(minutes, mark, hk);
      RolledAfterKeep(minutes, cutoff, mark, hk);
      if hk.hour % HOUR == 0 && hk.hour < cutoff < hk.hour + HOUR {
        HourUnique(hk.hour, cutoff);
        assert false;
      }
    }
    HoursOfIs(got, kept, mark);
  }

  /** A cutoff inside an hour: the rebuilt hour and the hours after it are the new rollup. */
  lemma HoursAfterSplitCutoff(minutes: Minutes, mark: int, cutoff: int, boundary: nat)
    requires AlignedMinutes(minutes) && ValidMark(mark)
    requires boundary % HOUR == 0 && boundary < cutoff < boundary + HOUR
    ensures SplitHour(DropHoursBefore(HoursOf(minutes, mark), cutoff), KeepFrom(minutes, cutoff), mark, cutoff,
            boundary)
         == HoursOf(KeepFrom(minutes, cutoff), mark)
  {
    hide *;
    var kept := KeepFrom(minutes, cutoff);
    var got := SplitHour(DropHoursBefore(HoursOf(minutes, mark), cutoff), kept, mark, cutoff, boundary);
    forall hk: HourKey
      ensures hk in got <==> hk.hour % HOUR == 0 && Rolled(kept, mark, hk) != EMPTY
      ensures hk in got ==> got[hk] == Rolled(kept, mark, hk)
    {
      if hk.hour == boundary {
        SplitHourRow(minutes, mark, cutoff, boundary, hk);
      } else {
        OtherHourRow(minutes, mark, cutoff, boundary, hk);
      }
    }
    HoursOfIs(got, kept, mark);
  }

  lemma OtherHourRow(minutes: Minutes, mark: int, cutoff: int, boundary: nat, hk: HourKey)
    requires boundary % HOUR == 0 && boundary < cutoff < boundary + HOUR && hk.hour != boundary
    ensures var kept := KeepFrom(minutes, cutoff);
            var got := SplitHour(DropHoursBefore(HoursOf(minutes, mark), cutoff), kept, mark, cutoff, boundary);
            (hk in got <==> hk.hour % HOUR == 0 && Rolled(kept, mark, hk) != EMPTY)
            && (hk in got ==> got[hk] == Rolled(kept, mark, hk))
  {
    var kept := KeepFrom(minutes, cutoff);
    var left := DropHour(DropHoursBefore(HoursOf(minutes, mark), cutoff), boundary);
    hide Merge, Fold, MinuteAt, MergedHours, HoursOf, Rolled, KeepFrom;
    HoursOfAt(minutes, mark, hk);
    MergedHoursAt(left, kept, boundary, cutoff - 1, SplitEnd(mark, boundary), hk);
    RolledAfterKeep(minutes, cutoff, mark, hk);
  }

  lemma SplitHourRow(minutes: Minutes, mark: int, cutoff: int, boundary: nat, hk: HourKey)
    requires AlignedMinutes(minutes) && ValidMark(mark)
    requires boundary % HOUR == 0 && boundary < cutoff < boundary + HOUR && hk.hour == boundary
    ensures var kept := KeepFrom(minutes, cutoff);
            var got := SplitHour(DropHoursBefore(HoursOf(minutes, mark), cutoff), kept, mark, cutoff, boundary);
            (hk in got <==> hk.hour % HOUR == 0 && Rolled(kept, mark, hk) != EMPTY)
            && (hk in got ==> got[hk] == Rolled(kept, mark, hk))
  {
    var kept := KeepFrom(minutes, cutoff);
    var left := DropHour(DropHoursBefore(HoursOf(minutes, mark), cutoff), boundary);
    hide Merge, Fold, MinuteAt, MergedHours, HoursOf, KeepFrom, DropHoursBefore;
    var end := RolledEnd(boundary + HOUR, mark);
    var chunkEnd := SplitEnd(mark, boundary);
    if mark < cutoff {
      assert forall t: nat :: boundary <= t < end ==>
          MinuteKey(t, hk.pair) !in kept by { SurvivorsOnly(minutes, cutoff); }
      FoldNone(kept, hk.pair, boundary, end);
    } else {
      MergedHoursAt(left, kept, boundary, cutoff - 1, chunkEnd, hk);
      MergeEmpty(Fold(kept, hk.pair, cutoff, chunkEnd));
      SurvivorFold(minutes, mark, cutoff, boundary, hk.pair);
    }
  }

  /** The surviving minutes of the split hour, counted from the cutoff or from the hour, are the same. */
  lemma SurvivorFold(minutes: Minutes, mark: int, cutoff: int, boundary: nat, pair: PairKey)
    requires AlignedMinutes(minutes) && ValidMark(mark) && mark >= cutoff
    requires boundary % HOUR == 0 && boundary < cutoff < boundary + HOUR
    ensures Fold(KeepFrom(minutes, cutoff), pair, cutoff, SplitEnd(mark, boundary))
         == Rolled(KeepFrom(minutes, cutoff), mark, HourKey(boundary, pair))
  {
    hide Merge, Fold, MinuteAt, KeepFrom;
    var kept := KeepFrom(minutes, cutoff);
    var end, chunkEnd := RolledEnd(boundary + HOUR, mark), SplitEnd(mark, boundary);
    SurvivorsOnly(minutes, cutoff);
    FoldSkip(kept, pair, boundary, cutoff, chunkEnd);
    forall b: nat | end <= b < chunkEnd
      ensures MinuteKey(b, pair) !in kept
    {
      if b % MINUTE == 0 {
        MinutesApart(mark, b);
      }
    }
    FoldExtend(kept, pair, boundary, end, chunkEnd);
  }

  lemma SurvivorsOnly(minutes: Minutes, cutoff: int)
    ensures forall mk :: mk in KeepFrom(minutes, cutoff) <==> mk in minutes && cutoff <= mk.bucket
  {
  }

  /** Retention leaves the rollup of exactly the surviving minutes, wherever the cutoff falls. */
  lemma PruneKeepsRollup(minutes: Minutes, mark: int, cutoff: int)
    requires AlignedMinutes(minutes) && ValidMark(mark)
    ensures PrunedHours(HoursOf(minutes, mark), KeepFrom(minutes, cutoff), mark, cutoff)
         == HoursOf(KeepFrom(minutes, cutoff), mark)
  {
    TruncToBounds(cutoff, HOUR);
    if cutoff <= TruncTo(cutoff, HOUR) {
      HoursAfterWholeCutoff(minutes, mark, cutoff);
    } else {
      HoursAfterSplitCutoff(minutes, mark, cutoff, TruncTo(cutoff, HOUR));
    }
  }
}

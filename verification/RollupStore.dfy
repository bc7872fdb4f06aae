/**
 The write transactions of one tailnet's store (hour_rollup.go,
 aggregate_queries.go, maintenance.go). Every public method keeps Valid: the
 rollup table is HoursOf the minute table and the mark, after every run of them.
 */
module RollupStore {
  import opened GoInts
  import opened PairGroups
  import opened HourRollup

  /** One incoming aggregate. Its bucket may be any second; the store floors it to a minute. */
  datatype Aggregate = Aggregate(bucket: nat, pair: PairKey, row: MinuteRow)

  function KeyOf(a: Aggregate): (k: MinuteKey)
    ensures k.bucket % MINUTE == 0 && k.bucket <= a.bucket < k.bucket + MINUTE
  {
    MinuteKey((a.bucket / MINUTE) * MINUTE, a.pair)
  }

  function UpsertAll(minutes: Minutes, aggs: seq<Aggregate>): Minutes {
    if aggs == [] then minutes
    else Upsert(UpsertAll(minutes, aggs[..|aggs| - 1]), KeyOf(aggs[|aggs| - 1]), aggs[|aggs| - 1].row)
  }

  /** The hours whose rollup rows a batch of aggregates changes directly. */
  function Touches(mark: int, aggs: seq<Aggregate>): set<nat> {
    set i | 0 <= i < |aggs| && KeyOf(aggs[i]).bucket <= mark :: HourOf(KeyOf(aggs[i]).bucket)
  }

  /** What one committed state of the pair tables shows a reader. */
  datatype Tables = Tables(minutes: Minutes, hours: Hours, mark: int)

  /** The rollup invariant: the hour table is the fold of the minutes at or below the mark. */
  ghost predicate Consistent(t: Tables) {
    ValidMark(t.mark) && AlignedMinutes(t.minutes) && t.hours == HoursOf(t.minutes, t.mark)
  }

  /** The write transactions: deltas with an optional roll, and retention. */
  datatype Write = Deltas(aggs: seq<Aggregate>, closedThrough: Option<int>) | Retention(cutoff: int)

  ghost function Apply(t: Tables, w: Write): (t': Tables)
    requires Consistent(t)
    ensures Consistent(t') && t'.mark >= t.mark
  {
    match w
    case Deltas(aggs, closedThrough) =>
      var minutes := UpsertAll(t.minutes, aggs);
      UpsertAllAligned(t.minutes, aggs);
      var mark := if closedThrough.Some? then RolledMark(minutes, t.mark, closedThrough.value) else t.mark;
      Tables(minutes, HoursOf(minutes, mark), mark)
    case Retention(cutoff) =>
      Tables(KeepFrom(t.minutes, cutoff), HoursOf(KeepFrom(t.minutes, cutoff), t.mark), t.mark)
  }

  /** No minute lies between the mark and the minute after it. */
  lemma NoneAfterMark(t: Tables, pair: PairKey, b: nat)
    requires Consistent(t) && t.mark >= 0 && t.mark < b < t.mark + MINUTE
    ensures MinuteKey(b, pair) !in t.minutes
  {
    hide HoursOf;
    if b % MINUTE == 0 {
      MinutesApart(t.mark, b);
    }
  }

  lemma {:induction false} UpsertAllAligned(minutes: Minutes, aggs: seq<Aggregate>)
    requires AlignedMinutes(minutes)
    ensures AlignedMinutes(UpsertAll(minutes, aggs))
  {
    if aggs != [] {
      UpsertAllAligned(minutes, aggs[..|aggs| - 1]);
    }
  }

  /** The state after a run of write transactions on an empty store. */
  ghost function Run(writes: seq<Write>): (t: Tables)
    ensures Consistent(t)
  {
    if writes == [] then
      EmptyRollup();
      Tables(map[], map[], -1)
    else Apply(Run(writes[..|writes| - 1]), writes[|writes| - 1])
  }

  lemma EmptyRollup()
    ensures Consistent(Tables(map[], map[], -1))
  {
    assert HoursOf(map[], -1) == map[];
  }

  /**
   The rollup invariant in every reachable state, row by row: an hour row is
   there exactly when a surviving minute of its pair and hour is at or below
   the mark, its min_bucket is the earliest such minute, and the row is the
   fold of exactly those minutes.
   */
  lemma RollupInvariant(writes: seq<Write>, hk: HourKey)
    requires hk.hour % HOUR == 0
    ensures var t := Run(writes);
            hk in t.hours <==> exists b: nat ::
                MinuteKey(b, hk.pair) in t.minutes && hk.hour == HourOf(b) && b <= t.mark
    ensures var t := Run(writes);
            hk in t.hours ==> t.hours[hk] == Fold(t.minutes, hk.pair, hk.hour, RolledEnd(hk.hour + HOUR, t.mark))
    ensures var t := Run(writes);
            hk in t.hours ==>
              exists b: nat ::
                t.hours[hk].bucket == Some(b) && MinuteKey(b, hk.pair) in t.minutes && hk.hour == HourOf(b) && b
                    <= t.mark
                && forall c: nat :: MinuteKey(c, hk.pair) in t.minutes && hk.hour == HourOf(c) && c <= t.mark ==> b <= c
  {
    var t := Run(writes);
    var end := RolledEnd(hk.hour + HOUR, t.mark);
    HoursOfAt(t.minutes, t.mark, hk);
    FoldEmpty(t.minutes, hk.pair, hk.hour, end);
    FoldEarliest(t.minutes, hk.pair, hk.hour, end);
    hide Fold, HoursOf;
    forall b: nat | MinuteKey(b, hk.pair) in t.minutes && hk.hour == HourOf(b) && b <= t.mark
      ensures hk.hour <= b < end
    {
    }
    forall b: nat | hk.hour <= b < end
      ensures hk.hour == HourOf(b) && b <= t.mark
    {
      HourUnique(hk.hour, b);
    }
  }

  /** The bucket of a fold is its earliest minute. */
  lemma {:induction false} FoldEarliest(minutes: Minutes, pair: PairKey, lo: int, hi: int)
    ensures var f := Fold(minutes, pair, lo, hi);
            f.bucket.Some? ==>
              lo <= f.bucket.value < hi && f.bucket.value >= 0 && MinuteKey(f.bucket.value, pair) in minutes
              && forall c: nat :: lo <= c < hi && MinuteKey(c, pair) in minutes ==> f.bucket.value <= c
    decreases hi - lo
  {
    if lo < hi {
      FoldEarliest(minutes, pair, lo, hi - 1);
      FoldEmpty(minutes, pair, lo, hi - 1);
    }
  }

  /** rowNeedsProtocolFallback: a protocol list without protocol bytes. */
  predicate NeedsFallback(row: MinuteRow) {
    row.protocols != {} && row.protocolBytes == map[]
  }

  /** Unless the legacy flag is up, no rolled minute needs the protocol-list fallback. */
  ghost predicate LegacySound(minutes: Minutes, mark: int, legacy: bool) {
    legacy || forall mk :: mk in minutes && mk.bucket <= mark ==> !NeedsFallback(minutes[mk])
  }

  /** Some of the rows needs the fallback. */
  ghost predicate SomeFallback(minutes: Minutes, rows: set<MinuteKey>)
    requires rows <= minutes.Keys
  {
    exists mk :: mk in rows && NeedsFallback(minutes[mk])
  }

  /** Some late aggregate of a batch needs the fallback. */
  ghost predicate LateFallback(mark: int, aggs: seq<Aggregate>) {
    exists i :: 0 <= i < |aggs| && KeyOf(aggs[i]).bucket <= mark && NeedsFallback(aggs[i].row)
  }

  /** Some minute the mark passed needs the fallback. */
  ghost predicate RolledFallback(minutes: Minutes, from: int, until: int) {
    exists mk :: mk in minutes && from < mk.bucket <= until && NeedsFallback(minutes[mk])
  }

  function GroupAt(grouped: map<PairKey, Counters>, pair: PairKey): Counters {
    if pair in grouped then grouped[pair] else EMPTY
  }

  /** The stored rows of one hour, by pair. */
  function Seeds(hours: Hours, hour: nat): map<PairKey, Counters> {
    map hk | hk in hours && hk.hour == hour :: hk.pair := hours[hk]
  }

  /** The minute rows strictly between two bounds. */
  function RowsBetween(minutes: Minutes, from: int, until: int): set<MinuteKey> {
    set mk | mk in minutes && from < mk.bucket < until
  }

  function PairsOf(rows: set<MinuteKey>): set<PairKey> {
    set mk | mk in rows :: mk.pair
  }

  /** The rows an upsert of the dirty groups writes. */
  function RowsFor(hour: nat, grouped: map<PairKey, Counters>, dirty: set<PairKey>): Hours
    requires dirty <= grouped.Keys
  {
    map p | p in dirty :: HourKey(hour, p) := grouped[p]
  }

  datatype Chunk = More | Done | Stuck

  class Store {
    var minutes: Minutes
    var hours: Hours
    var mark: int
    var legacy: bool
    var cursor: Option<int>
    var ingested: set<string>

    ghost function Snapshot(): Tables
      reads this
    {
      Tables(minutes, hours, mark)
    }

    ghost predicate Valid()
      reads this
    {
      && Consistent(Snapshot())
      && LegacySound(minutes, mark, legacy)
    }

    constructor ()
      ensures Valid()
      ensures Snapshot() == Tables(map[], map[], -1) && !legacy && cursor == None && ingested == {}
    {
      minutes, hours, mark, legacy, cursor, ingested := map[], map[], -1, false, None, {};
    }

    /** Adds the minute rows strictly between from and until onto one hour's rows. */
    method MergeMinutesIntoHour(hour: nat, from: int, until: int) returns (fallback: bool)
      modifies this`hours
      ensures hours == MergedHours(old(hours), minutes, hour, from, until)
      ensures fallback <==> SomeFallback(minutes, RowsBetween(minutes, from, until))
    {
      var grouped, dirty;
      grouped, dirty, fallback := ReadMinuteRows(minutes, from, from + 1, until, Seeds(hours, hour));
      WriteDirtyHourGroups(hour, grouped, dirty);
      MergedIsWritten(old(hours), minutes, hour, from, from + 1, until, grouped, dirty);
    }

    /** Upserts the groups that absorbed a minute; the clean ones are left as stored. */
    method WriteDirtyHourGroups(hour: nat, grouped: map<PairKey, Counters>, dirty: set<PairKey>)
      requires dirty <= grouped.Keys
      modifies this`hours
      ensures hours == old(hours) + RowsFor(hour, grouped, dirty)
    {
      var left := dirty;
      while left != {}
        invariant left <= dirty
        invariant hours == old(hours) + RowsFor(hour, grouped, dirty - left)
        decreases left
      {
        var p :| p in left;
        left := left - {p};
        hours := hours[HourKey(hour, p) := grouped[p]];
      }
      assert dirty - left == dirty;
    }

    /** Adds one late minute delta onto its hourly row. */
    method MergeHourDelta(bucket: nat, pair: PairKey, row: MinuteRow)
      modifies this`hours, this`legacy
      ensures var hk := HourKey(HourOf(bucket), pair);
              hours == old(hours)[hk := Merge(HourAt(old(hours), hk), Lift(bucket, row))]
      ensures legacy == (old(legacy) || NeedsFallback(row))
    {
      hide Merge, Lift;
      var hour := HourOf(bucket);
      var group := Merge(HourAt(hours, HourKey(hour, pair)), Lift(bucket, row));
      if NeedsFallback(row) {
        legacy := true;
      }
      WriteDirtyHourGroups(hour, map[pair := group], {pair});
      assert RowsFor(hour, map[pair := group], {pair}) == map[HourKey(hour, pair) := group];
    }

    /** upsertNodePairsTx: every delta goes to its minute, and a late one to its hour as well. */
    method UpsertNodePairs(aggs: seq<Aggregate>) returns (touches: set<nat>)
      requires Valid()
      modifies this`minutes, this`hours, this`legacy
      ensures Valid()
      ensures minutes == UpsertAll(old(minutes), aggs)
      ensures touches == Touches(mark, aggs)
      ensures legacy == (old(legacy) || LateFallback(mark, aggs))
    {
      touches := {};
      var i := 0;
      while i < |aggs|
        invariant 0 <= i <= |aggs|
        invariant Valid()
        invariant minutes == UpsertAll(old(minutes), aggs[..i])
        invariant touches == Touches(mark, aggs[..i])
        invariant legacy == (old(legacy) || LateFallback(mark, aggs[..i]))
      {
        hide NeedsFallback;
        var key := KeyOf(aggs[i]);
        UpsertMinute(key, aggs[i].row);
        assert aggs[..i + 1][..i] == aggs[..i];
        TouchesGrow(mark, aggs, i);
        LateFallbackGrows(mark, aggs, i);
        if key.bucket <= mark {
          touches := touches + {HourOf(key.bucket)};
        }
        i := i + 1;
      }
      assert aggs[..i] == aggs;
    }

    method UpsertMinute(key: MinuteKey, row: MinuteRow)
      requires Valid() && key.bucket % MINUTE == 0
      modifies this`minutes, this`hours, this`legacy
      ensures Valid()
      ensures minutes == Upsert(old(minutes), key, row)
      ensures legacy == (old(legacy) || (key.bucket <= mark && NeedsFallback(row)))
    {
      hide Merge, Lift, AddRow, HoursOf, NeedsFallback;
      minutes := Upsert(minutes, key, row);
      if key.bucket <= mark {
        HoursAfterLateUpsert(old(minutes), mark, key, row);
        MergeHourDelta(key.bucket, key.pair, row);
      } else {
        HoursAfterOpenUpsert(old(minutes), mark, key, row);
      }
      LegacyAfterUpsert(old(minutes), mark, old(legacy), key, row);
    }

    /** One step of the roll. Stuck stands for the two "did not advance" errors. */
    method RollNextHourChunk(closedThrough: int) returns (result: Chunk)
      requires Valid()
      modifies this`hours, this`mark, this`legacy
      ensures Valid()
      ensures result != Stuck
      ensures result == Done ==> mark == RolledMark(minutes, old(mark), closedThrough)
      ensures result == More ==>
                old(mark) < mark < FloorMinute(closedThrough)
                && RolledMark(minutes, mark, closedThrough) == RolledMark(minutes, old(mark), closedThrough)
      ensures mark >= old(mark) && legacy == (old(legacy) || RolledFallback(minutes, old(mark), mark))
      ensures result == More ==> mark == RolledMark(minutes, old(mark), mark + MINUTE)
    {
      hide Merge, HoursOf, MergedHours, NeedsFallback, LegacySound, RolledFallback, RolledMark, HourOf;
      var closed := FloorMinute(closedThrough);
      if closed <= 0 || closed <= mark + MINUTE {
        MarkStays(minutes, mark, closedThrough, legacy);
        return Done;
      }
      var next := OldestBetween(minutes, mark, closed);
      if next.None? {
        NothingWaiting(minutes, mark, closedThrough, legacy);
        if mark < 0 {
          return Done;
        }
        mark := closed - MINUTE;
        return Done;
      }
      result := RollChunk(next.value, closedThrough);
    }

    /** The chunk of the first waiting minute: the rest of its hour, as far as it is closed. */
    method RollChunk(next: nat, closedThrough: int) returns (result: Chunk)
      requires Valid() && mark + MINUTE < FloorMinute(closedThrough)
      requires exists mk :: mk in minutes && mark < mk.bucket < FloorMinute(closedThrough) && mk.bucket == next
      requires forall mk :: mk in minutes && mark < mk.bucket < FloorMinute(closedThrough) ==> next <= mk.bucket
      modifies this`hours, this`mark, this`legacy
      ensures Valid() && result != Stuck
      ensures result == Done ==> mark == RolledMark(minutes, old(mark), closedThrough)
      ensures result == More ==>
                mark < FloorMinute(closedThrough)
                && RolledMark(minutes, mark, closedThrough) == RolledMark(minutes, old(mark), closedThrough)
      ensures mark > old(mark) && legacy == (old(legacy) || RolledFallback(minutes, old(mark), mark))
      ensures mark == RolledMark(minutes, old(mark), mark + MINUTE)
    {
      hide Merge, HoursOf, MergedHours, NeedsFallback, LegacySound, RolledFallback, RolledMark, HourOf;
      var closed := FloorMinute(closedThrough);
      var hour: nat := HourOf(next);
      var chunkEnd := if hour + HOUR > closed then closed else hour + HOUR;
      ChunkFits(mark, closed, next);
      if chunkEnd <= next {
        return Stuck;
      }
      var fallback := MergeMinutesIntoHour(hour, mark, chunkEnd);
      var newMark := Larger(chunkEnd - MINUTE, next);
      if newMark <= mark {
        return Stuck;
      }
      HoursAfterChunk(minutes, mark, hour, chunkEnd);
      FallbackInChunk(minutes, mark, chunkEnd);
      MarkAfterChunk(minutes, mark, next, chunkEnd, closedThrough, legacy);
      mark := newMark;
      if fallback {
        legacy := true;
      }
      return if newMark + MINUTE >= closed then Done else More;
    }

    /** rollClosedMinutes terminates, never gets stuck, and leaves the mark exactly at RolledMark. */
    method RollClosedMinutes(closedThrough: int)
      requires Valid()
      modifies this`hours, this`mark, this`legacy
      ensures Valid()
      ensures mark == RolledMark(minutes, old(mark), closedThrough)
      ensures legacy == (old(legacy) || RolledFallback(minutes, old(mark), mark))
    {
      var result := More;
      while result == More
        invariant Valid() && result != Stuck
        invariant mark >= old(mark) && legacy == (old(legacy) || RolledFallback(minutes, old(mark), mark))
        invariant result == More ==>
                  RolledMark(minutes, mark, closedThrough) == RolledMark(minutes, old(mark), closedThrough)
        invariant result == Done ==> mark == RolledMark(minutes, old(mark), closedThrough)
        decreases result == More, FloorMinute(closedThrough) - mark
      {
        result := RollNextHourChunk(closedThrough);
      }
    }

    /** pruneHourRollups, after the minute rows below the cutoff are gone. */
    method PruneHourRollups(cutoff: int)
      modifies this`hours
      ensures hours == PrunedHours(old(hours), minutes, mark, cutoff)
    {
      hide MergedHours, TruncTo;
      hours := DropHoursBefore(hours, cutoff);
      var boundary := TruncTo(cutoff, HOUR);
      if cutoff <= boundary {
        return;
      }
      hours := DropHour(hours, boundary);
      if mark < cutoff || boundary < 0 {
        return;
      }
      var _ := MergeMinutesIntoHour(boundary, cutoff - 1, SplitEnd(mark, boundary));
    }

    /** The parts of Cleanup that touch the pair tables. below is the bound it hands to the cache. */
    method Cleanup(cutoff: int) returns (below: int)
      requires Valid()
      modifies this`minutes, this`hours
      ensures Valid()
      ensures Snapshot() == Apply(old(Snapshot()), Retention(cutoff))
      ensures below == TruncTo(cutoff, HOUR) + HOUR
    {
      hide PrunedHours, HoursOf;
      minutes := KeepFrom(minutes, cutoff);
      PruneHourRollups(cutoff);
      PruneKeepsRollup(old(minutes), mark, cutoff);
      below := TruncTo(cutoff, HOUR) + HOUR;
    }

    /** upsertPollCursor: forward only. */
    method UpsertPollCursor(pollEnd: int)
      modifies this`cursor
      ensures cursor == MaxCursor(old(cursor), pollEnd)
    {
      if cursor.None? || cursor.value < pollEnd {
        cursor := Some(pollEnd);
      }
    }

    /** CommitPollResults. A poll without an end leaves the roll alone and stores the zero time. */
    method CommitPollResults(aggs: seq<Aggregate>, pollEnd: Option<int>) returns (touches: set<nat>)
      requires Valid()
      modifies this`minutes, this`hours, this`mark, this`legacy, this`cursor
      ensures Valid()
      ensures Snapshot() == Apply(old(Snapshot()), Deltas(aggs, pollEnd))
      ensures touches == Touches(old(mark), aggs)
      ensures legacy == (old(legacy) || LateFallback(old(mark), aggs) || RolledFallback(minutes, old(mark), mark))
      ensures cursor == MaxCursor(old(cursor), if pollEnd.Some? then pollEnd.value else ZERO_TIME)
    {
      touches := UpsertNodePairs(aggs);
      UpsertPollCursor(if pollEnd.Some? then pollEnd.value else ZERO_TIME);
      if pollEnd.Some? {
        RollClosedMinutes(pollEnd.value);
      }
    }

    /** CommitObjectIngest: an object key that is already recorded applies nothing again. */
    method CommitObjectIngest(key: string, aggs: seq<Aggregate>, pollEnd: Option<int>) returns (touches: set<nat>)
      requires Valid()
      modifies this`minutes, this`hours, this`mark, this`legacy, this`cursor, this`ingested
      ensures Valid()
      ensures ingested == old(ingested) + {key}
      ensures key in old(ingested) ==>
                Snapshot() == old(Snapshot()) && touches == {} && legacy == old(legacy) && cursor == old(cursor)
      ensures key !in old(ingested) ==>
                Snapshot() == Apply(old(Snapshot()), Deltas(aggs, pollEnd))
                && touches == Touches(old(mark), aggs)
                && legacy == (old(legacy) || LateFallback(old(mark), aggs) || RolledFallback(minutes, old(mark), mark))
                && cursor == if pollEnd.Some? then MaxCursor(old(cursor), pollEnd.value) else old(cursor)
    {
      if key in ingested {
        return {};
      }
      ingested := ingested + {key};
      touches := UpsertNodePairs(aggs);
      if pollEnd.Some? {
        RollClosedMinutes(pollEnd.value);
        UpsertPollCursor(pollEnd.value);
      }
    }

    /** UpdatePollState: move the cursor, then close minutes up to the same point. */
    method UpdatePollState(lastPollEnd: Option<int>)
      requires Valid()
      modifies this`hours, this`mark, this`legacy, this`cursor
      ensures Valid()
      ensures Snapshot() == Apply(old(Snapshot()), Deltas([], lastPollEnd))
      ensures legacy == (old(legacy) || RolledFallback(minutes, old(mark), mark))
      ensures cursor == MaxCursor(old(cursor), if lastPollEnd.Some? then lastPollEnd.value else ZERO_TIME)
    {
      UpsertPollCursor(if lastPollEnd.Some? then lastPollEnd.value else ZERO_TIME);
      if lastPollEnd.Some? {
        RollClosedMinutes(lastPollEnd.value);
      }
    }

    /** UpsertNodePairAggregates: deltas first, then the roll up to the present minute. */
    method UpsertNodePairAggregates(aggs: seq<Aggregate>, now: int) returns (touches: set<nat>)
      requires Valid()
      modifies this`minutes, this`hours, this`mark, this`legacy
      ensures Valid()
      ensures Snapshot() == if aggs == [] then old(Snapshot()) else Apply(old(Snapshot()), Deltas(aggs, Some(now)))
      ensures touches == Touches(old(mark), aggs)
      ensures legacy == (old(legacy) || LateFallback(old(mark), aggs) || RolledFallback(minutes, old(mark), mark))
    {
      if aggs == [] {
        return {};
      }
      touches := UpsertNodePairs(aggs);
      RollClosedMinutes(now);
    }

    /**
     backfillHourRollupTailnet: the same chunks, each in a transaction of its
     own. versions are the states it commits, first to last; each is the one
     before it rolled up to some closed minute.
     */
    method BackfillHourRollups(now: int) returns (ghost versions: seq<Tables>)
      requires Valid()
      modifies this`hours, this`mark, this`legacy
      ensures Valid()
      ensures Snapshot() == Apply(old(Snapshot()), Deltas([], Some(FloorMinute(now))))
      ensures RollsUp(versions) && versions[0] == old(Snapshot()) && versions[|versions| - 1] == Snapshot()
      ensures legacy == (old(legacy) || RolledFallback(minutes, old(mark), mark))
    {
      hide LegacySound, RolledFallback, HoursOf, RollsUp, RollsTo, RolledMark;
      var result := More;
      versions := [Snapshot()];
      assert RollsUp(versions) by { RollsUpStart(Snapshot()); }
      FallbackJoins(minutes, mark, mark, mark);
      while result == More
        invariant Valid() && result != Stuck && mark >= old(mark)
        invariant versions != [] && RollsUp(versions)
        invariant versions[0] == old(Snapshot()) && versions[|versions| - 1] == Snapshot()
        invariant legacy == (old(legacy) || RolledFallback(minutes, old(mark), mark))
        invariant result == More ==>
                    RolledMark(minutes, mark, FloorMinute(now)) == RolledMark(minutes, old(mark), FloorMinute(now))
        invariant result == Done ==> mark == RolledMark(minutes, old(mark), FloorMinute(now))
        decreases result == More, FloorMinute(FloorMinute(now)) - mark
      {
        ghost var t := Snapshot();
        result := RollNextHourChunk(FloorMinute(now));
        FallbackJoins(minutes, old(mark), t.mark, mark);
        ChunkIsRoll(t, Snapshot(), if result == More then mark + MINUTE else FloorMinute(now));
        RollsUpSnoc(versions, Snapshot());
        versions := versions + [Snapshot()];
      }
      ChunkIsRoll(old(Snapshot()), Snapshot(), FloorMinute(now));
    }
  }

  /** Each state is the one before it with its minutes rolled up to some closed minute. */
  ghost predicate RollsUp(versions: seq<Tables>) {
    && versions != [] && (forall i :: 0 <= i < |versions| ==> Consistent(versions[i]))
    && forall i :: 0 <= i < |versions| - 1 ==> RollsTo(versions[i], versions[i + 1])
  }

  ghost predicate RollsTo(t: Tables, t': Tables)
    requires Consistent(t)
  {
    exists closed: int :: t' == Apply(t, Deltas([], Some(closed)))
  }

  /** Rolling twice rolls what lies between the marks, and standing still rolls nothing. */
  lemma FallbackJoins(minutes: Minutes, from: int, mid: int, until: int)
    requires from <= mid <= until
    ensures RolledFallback(minutes, from, mid) || RolledFallback(minutes, mid, until)
       <==> RolledFallback(minutes, from, until)
    ensures !RolledFallback(minutes, from, from)
  {
  }

  lemma RollsUpStart(t: Tables)
    requires Consistent(t)
    ensures RollsUp([t])
  {
  }

  lemma RollsUpSnoc(versions: seq<Tables>, t: Tables)
    requires RollsUp(versions) && Consistent(t) && RollsTo(versions[|versions| - 1], t)
    ensures RollsUp(versions + [t])
  {
  }

  lemma ChunkIsRoll(t: Tables, t': Tables, closed: int)
    requires Consistent(t) && Consistent(t')
    requires t'.minutes == t.minutes && t'.mark == RolledMark(t.minutes, t.mark, closed)
    ensures t' == Apply(t, Deltas([], Some(closed))) && RollsTo(t, t')
  {
    hide RolledMark;
    assert t' == Apply(t, Deltas([], Some(closed)));
  }

  /** A chunk that moves the mark rolls up exactly to the minute after it. */
  lemma MarkIsChunk(minutes: Minutes, mark: int, next: int, newMark: int)
    requires ValidMark(mark) && mark < next <= newMark && newMark % MINUTE == 0
    requires exists mk :: mk in minutes && mk.bucket == next
    ensures newMark == RolledMark(minutes, mark, newMark + MINUTE)
  {
    FloorBounds(newMark + MINUTE, MINUTE);
    assert FloorMinute(newMark + MINUTE) == newMark + MINUTE;
    if mark >= 0 {
      MinutesApart(mark, newMark);
    }
  }

  /** 0001-01-01T00:00:00Z, the time.Time zero value, in Unix seconds. */
  const ZERO_TIME: int := -62135596800

  function MaxCursor(cursor: Option<int>, pollEnd: int): Option<int> {
    if cursor.None? || cursor.value < pollEnd then Some(pollEnd) else cursor
  }

  /** SELECT MIN(bucket) over the rows strictly between two bounds. */
  method OldestBetween(minutes: Minutes, from: int, until: int) returns (next: Option<nat>)
    ensures next.None? <==> forall mk :: mk in minutes ==> !(from < mk.bucket < until)
    ensures next.Some? ==> exists mk :: mk in minutes && from < mk.bucket < until && mk.bucket == next.value
    ensures next.Some? ==> forall mk :: mk in minutes && from < mk.bucket < until ==> next.value <= mk.bucket
  {
    next := None;
    var pending := RowsBetween(minutes, from, until);
    while pending != {}
      invariant pending <= RowsBetween(minutes, from, until)
      invariant next.None? ==> pending == RowsBetween(minutes, from, until)
      invariant next.Some? ==> exists mk :: mk in minutes && from < mk.bucket < until && mk.bucket == next.value
      invariant next.Some? ==> forall mk :: mk in RowsBetween(minutes, from, until) - pending ==>
                next.value <= mk.bucket
      decreases pending
    {
      var mk :| mk in pending;
      pending := pending - {mk};
      if next.None? || mk.bucket < next.value {
        next := Some(mk.bucket);
      }
    }
    forall mk | mk in minutes && from < mk.bucket < until
      ensures next.Some? && next.value <= mk.bucket
    {
      assert mk in RowsBetween(minutes, from, until);
    }
  }

  lemma TouchesGrow(mark: int, aggs: seq<Aggregate>, i: nat)
    requires i < |aggs|
    ensures Touches(mark, aggs[..i + 1])
         == Touches(mark, aggs[..i]) + (if KeyOf(aggs[i]).bucket <= mark then {HourOf(KeyOf(aggs[i]).bucket)} else {})
  {
    var l := Touches(mark, aggs[..i + 1]);
    var r := Touches(mark, aggs[..i]) + (if KeyOf(aggs[i]).bucket <= mark then {HourOf(KeyOf(aggs[i]).bucket)} else {});
    forall h | h in r ensures h in l {
      if h in Touches(mark, aggs[..i]) {
        var j :| 0 <= j < i && KeyOf(aggs[..i][j]).bucket <= mark && HourOf(KeyOf(aggs[..i][j]).bucket) == h;
        assert aggs[..i + 1][j] == aggs[..i][j];
      } else {
        assert aggs[..i + 1][i] == aggs[i];
      }
    }
    forall h | h in l ensures h in r {
      var j :| 0 <= j < i + 1 && KeyOf(aggs[..i + 1][j]).bucket <= mark && HourOf(KeyOf(aggs[..i + 1][j]).bucket) == h;
      if j < i { assert aggs[..i][j] == aggs[..i + 1][j]; }
    }
  }

  lemma LateFallbackGrows(mark: int, aggs: seq<Aggregate>, i: nat)
    requires i < |aggs|
    ensures LateFallback(mark, aggs[..i + 1])
       <==> LateFallback(mark, aggs[..i]) || (KeyOf(aggs[i]).bucket <= mark && NeedsFallback(aggs[i].row))
  {
    if LateFallback(mark, aggs[..i]) {
      var j :| 0 <= j < i && KeyOf(aggs[..i][j]).bucket <= mark && NeedsFallback(aggs[..i][j].row);
      assert aggs[..i + 1][j] == aggs[..i][j];
    }
    if LateFallback(mark, aggs[..i + 1]) {
      var j :| 0 <= j < i + 1 && KeyOf(aggs[..i + 1][j]).bucket <= mark && NeedsFallback(aggs[..i + 1][j].row);
      assert j < i ==> aggs[..i][j] == aggs[..i + 1][j];
    }
    assert aggs[..i + 1][i] == aggs[i];
  }

  /** Adding rows that do not need the fallback gives a row that does not either. */
  lemma LegacyAfterUpsert(minutes: Minutes, mark: int, legacy: bool, key: MinuteKey, row: MinuteRow)
    requires LegacySound(minutes, mark, legacy)
    ensures LegacySound(Upsert(minutes, key, row), mark, legacy || (key.bucket <= mark && NeedsFallback(row)))
  {
    var after := Upsert(minutes, key, row);
    if !legacy && key.bucket <= mark && key in minutes && !NeedsFallback(row) {
      var a := minutes[key];
      var sum := AddBytes(a.protocolBytes, row.protocolBytes);
      assert sum.Keys == a.protocolBytes.Keys + row.protocolBytes.Keys;
      assert after[key] == AddRow(a, row);
      if a.protocols + row.protocols != {} {
        assert a.protocolBytes != map[] || row.protocolBytes != map[];
        assert sum.Keys != {} by {
          if a.protocolBytes != map[] { assert a.protocolBytes.Keys != {}; }
          if row.protocolBytes != map[] { assert row.protocolBytes.Keys != {}; }
        }
      }
    }
  }

  lemma MarkStays(minutes: Minutes, mark: int, closedThrough: int, legacy: bool)
    requires ValidMark(mark) && FloorMinute(closedThrough) <= mark + MINUTE
    ensures RolledMark(minutes, mark, closedThrough) == mark
    ensures !RolledFallback(minutes, mark, mark)
  {
  }

  /** With no minute waiting, an existing mark crosses the empty tail and nothing else moves. */
  lemma NothingWaiting(minutes: Minutes, mark: int, closedThrough: int, legacy: bool)
    requires ValidMark(mark) && mark + MINUTE < FloorMinute(closedThrough)
    requires LegacySound(minutes, mark, legacy)
    requires forall mk :: mk in minutes ==> !(mark < mk.bucket < FloorMinute(closedThrough))
    ensures var m := RolledMark(minutes, mark, closedThrough);
            m == (if mark < 0 then mark else FloorMinute(closedThrough) - MINUTE)
            && HoursOf(minutes, m) == HoursOf(minutes, mark)
            && LegacySound(minutes, m, legacy)
            && !RolledFallback(minutes, mark, m)
            && (mark < 0 ==> !RolledFallback(minutes, mark, mark))
  {
    hide HoursOf, NeedsFallback;
    HoursAfterAdvance(minutes, mark, RolledMark(minutes, mark, closedThrough));
  }

  lemma MarkAfterChunk(minutes: Minutes, mark: int, next: nat, chunkEnd: int, closedThrough: int, legacy: bool)
    requires ValidMark(mark) && chunkEnd % MINUTE == 0
    requires LegacySound(minutes, mark, legacy)
    requires mark < next <= chunkEnd - MINUTE && chunkEnd <= FloorMinute(closedThrough)
    requires exists mk :: mk in minutes && mark < mk.bucket < FloorMinute(closedThrough) && mk.bucket == next
    ensures var newMark := chunkEnd - MINUTE;
            ValidMark(newMark)
            && RolledMark(minutes, newMark, closedThrough) == RolledMark(minutes, mark, closedThrough)
            && (chunkEnd >= FloorMinute(closedThrough) ==> newMark == RolledMark(minutes, mark, closedThrough))
            && LegacySound(minutes, newMark, legacy || RolledFallback(minutes, mark, newMark))
            && newMark == RolledMark(minutes, mark, newMark + MINUTE)
  {
    hide NeedsFallback;
    MarkIsChunk(minutes, mark, next, chunkEnd - MINUTE);
  }

  /** A chunk always reaches past its first minute and past the mark. */
  lemma ChunkFits(mark: int, closed: int, next: nat)
    requires ValidMark(mark) && closed % MINUTE == 0 && next % MINUTE == 0
    requires mark < next < closed
    ensures var hour := HourOf(next);
            var chunkEnd := if hour + HOUR > closed then closed else hour + HOUR;
            chunkEnd % MINUTE == 0 && hour < chunkEnd && mark < next <= chunkEnd - MINUTE
  {
    var a, c, h := next / 60, closed / 60, next / 3600;
    assert next == 60 * a && closed == 60 * c && HourOf(next) == 3600 * h;
    var e := if 60 * h + 60 > c then c else 60 * h + 60;
    assert a < e;
  }

  /** No minute lies between the last minute of a chunk and its end. */
  lemma FallbackInChunk(minutes: Minutes, mark: int, chunkEnd: int)
    requires AlignedMinutes(minutes) && chunkEnd % MINUTE == 0
    ensures SomeFallback(minutes, RowsBetween(minutes, mark, chunkEnd))
       <==> RolledFallback(minutes, mark, chunkEnd - MINUTE)
  {
    forall mk | mk in minutes
      ensures mk in RowsBetween(minutes, mark, chunkEnd) <==> mark < mk.bucket <= chunkEnd - MINUTE
    {
    }
  }

  /** Scans the rows between two bounds, in whatever order they come, into the seeded groups. */
  method ReadMinuteRows(minutes: Minutes, from: int, ghost lo: int, until: int, seed: map<PairKey, Counters>)
    returns (grouped: map<PairKey, Counters>, dirty: set<PairKey>, fallback: bool)
    requires lo == from + 1
    ensures forall p :: GroupAt(grouped, p) == Merge(GroupAt(seed, p), Fold(minutes, p, lo, until))
    ensures dirty == PairsOf(RowsBetween(minutes, from, until))
    ensures grouped.Keys == seed.Keys + dirty
    ensures fallback <==> SomeFallback(minutes, RowsBetween(minutes, from, until))
  {
    hide *;
    grouped := seed;
    var pending := RowsBetween(minutes, from, until);
    dirty := {};
    ghost var scanned: Minutes := map[];
    fallback := false;
    ScanStarts(minutes, seed, pending, lo, until);
    while pending != {}
      invariant Scanning(minutes, pending, scanned, from, until)
      invariant ScanOf(minutes, scanned, seed, grouped, dirty, fallback, lo, until)
      decreases pending
    {
      assert exists mk :: mk in pending;
      var mk :| mk in pending;
      PendingRow(minutes, pending, scanned, mk, from, until);
      ScanRow(minutes, scanned, seed, grouped, dirty, fallback, mk, lo, until);
      var row := minutes[mk];
      pending := pending - {mk};
      if NeedsFallback(row) {
        fallback := true;
      }
      grouped := grouped[mk.pair := Merge(GroupAt(grouped, mk.pair), Lift(mk.bucket, row))];
      dirty := dirty + {mk.pair};
      scanned := scanned[mk := row];
    }
    ScanEnds(minutes, scanned, seed, grouped, dirty, fallback, from, lo, until);
  }

  /** The rows between two bounds are those still pending and those scanned. */
  ghost predicate Scanning(minutes: Minutes, pending: set<MinuteKey>, scanned: Minutes, from: int, until: int) {
    && pending !! scanned.Keys && pending + scanned.Keys == RowsBetween(minutes, from, until)
    && forall mk :: mk in scanned ==> mk in minutes && scanned[mk] == minutes[mk]
  }

  /** What the scan holds after the scanned rows. */
  ghost predicate ScanOf(minutes: Minutes, scanned: Minutes, seed: map<PairKey, Counters>,
                         grouped: map<PairKey, Counters>,
                         dirty: set<PairKey>, fallback: bool, lo: int, hi: int)
  {
    && (forall p :: GroupAt(grouped, p) == Merge(GroupAt(seed, p), Fold(scanned, p, lo, hi)))
    && dirty == PairsOf(scanned.Keys) && grouped.Keys == seed.Keys + dirty
    && (fallback <==> exists mk :: mk in scanned && NeedsFallback(scanned[mk]))
  }

  lemma ScanStarts(minutes: Minutes, seed: map<PairKey, Counters>, pending: set<MinuteKey>, lo: int, hi: int)
    requires pending == RowsBetween(minutes, lo - 1, hi)
    ensures ScanOf(minutes, map[], seed, seed, {}, false, lo, hi) && Scanning(minutes, pending, map[], lo - 1, hi)
  {
    hide Merge, Fold;
    NothingScanned(seed, lo, hi);
  }

  lemma PendingRow(minutes: Minutes, pending: set<MinuteKey>, scanned: Minutes, mk: MinuteKey, from: int, until: int)
    requires Scanning(minutes, pending, scanned, from, until) && mk in pending
    ensures mk in minutes && mk !in scanned && from < mk.bucket < until
    ensures Scanning(minutes, pending - {mk}, scanned[mk := minutes[mk]], from, until)
  {
    var rows := RowsBetween(minutes, from, until);
    assert mk in rows;
    assert pending - {mk} + scanned[mk := minutes[mk]].Keys == rows;
  }

  lemma ScanRow(minutes: Minutes, scanned: Minutes, seed: map<PairKey, Counters>, grouped: map<PairKey, Counters>,
                dirty: set<PairKey>, fallback: bool, mk: MinuteKey, lo: int, hi: int)
    requires ScanOf(minutes, scanned, seed, grouped, dirty, fallback, lo, hi)
    requires mk in minutes && mk !in scanned && lo <= mk.bucket < hi
    ensures var row := minutes[mk];
            ScanOf(minutes, scanned[mk := row], seed,
                grouped[mk.pair := Merge(GroupAt(grouped, mk.pair), Lift(mk.bucket, row))],
                   dirty + {mk.pair}, fallback || NeedsFallback(row), lo, hi)
  {
    hide Merge, Lift, Fold, GroupAt, NeedsFallback;
    var row := minutes[mk];
    var after := scanned[mk := row];
    GroupedAfterRow(grouped, seed, scanned, mk, row, lo, hi);
    assert after.Keys == scanned.Keys + {mk};
    assert forall x :: x in scanned ==> x in after && after[x] == scanned[x];
    assert after[mk] == row;
  }

  lemma ScanEnds(minutes: Minutes, scanned: Minutes, seed: map<PairKey, Counters>, grouped: map<PairKey, Counters>,
                 dirty: set<PairKey>, fallback: bool, from: int, lo: int, until: int)
    requires lo == from + 1 && Scanning(minutes, {}, scanned, from, until)
    requires ScanOf(minutes, scanned, seed, grouped, dirty, fallback, lo, until)
    ensures forall p :: GroupAt(grouped, p) == Merge(GroupAt(seed, p), Fold(minutes, p, lo, until))
    ensures dirty == PairsOf(RowsBetween(minutes, from, until)) && grouped.Keys == seed.Keys + dirty
    ensures fallback <==> SomeFallback(minutes, RowsBetween(minutes, from, until))
  {
    hide Merge, Fold, GroupAt, NeedsFallback;
    assert scanned.Keys == RowsBetween(minutes, from, until);
    ScannedAll(scanned, minutes, from, lo, until);
  }

  lemma NothingScanned(seed: map<PairKey, Counters>, lo: int, hi: int)
    ensures forall p :: GroupAt(seed, p) == Merge(GroupAt(seed, p), Fold(map[], p, lo, hi))
  {
    hide Merge, Fold;
    forall p ensures GroupAt(seed, p) == Merge(GroupAt(seed, p), Fold(map[], p, lo, hi)) {
      FoldNone(map[], p, lo, hi);
      MergeEmpty(GroupAt(seed, p));
    }
  }

  lemma GroupedAfterRow(grouped: map<PairKey, Counters>, seed: map<PairKey, Counters>, scanned: Minutes,
                        mk: MinuteKey, row: MinuteRow, lo: int, hi: int)
    requires mk !in scanned && lo <= mk.bucket < hi
    requires forall p :: GroupAt(grouped, p) == Merge(GroupAt(seed, p), Fold(scanned, p, lo, hi))
    ensures var next := grouped[mk.pair := Merge(GroupAt(grouped, mk.pair), Lift(mk.bucket, row))];
            forall p :: GroupAt(next, p) == Merge(GroupAt(seed, p), Fold(scanned[mk := row], p, lo, hi))
  {
    hide Merge, Lift, Fold;
    var next := grouped[mk.pair := Merge(GroupAt(grouped, mk.pair), Lift(mk.bucket, row))];
    forall p
      ensures GroupAt(next, p) == Merge(GroupAt(seed, p), Fold(scanned[mk := row], p, lo, hi))
    {
      FoldUpsert(scanned, mk, row, p, lo, hi);
      assert Upsert(scanned, mk, row) == scanned[mk := row];
      MergeAssoc(GroupAt(seed, p), Fold(scanned, p, lo, hi), Lift(mk.bucket, row));
    }
  }

  /** Every row between the bounds was scanned, so the scanned fold is the full fold. */
  lemma ScannedAll(scanned: Minutes, minutes: Minutes, from: int, lo: int, until: int)
    requires lo == from + 1
    requires scanned.Keys == RowsBetween(minutes, from, until)
    requires forall mk :: mk in scanned ==> mk in minutes && scanned[mk] == minutes[mk]
    ensures forall p :: Fold(scanned, p, lo, until) == Fold(minutes, p, lo, until)
  {
    hide Merge, Lift, Fold;
    forall p ensures Fold(scanned, p, lo, until) == Fold(minutes, p, lo, until) {
      forall t | lo <= t < until ensures MinuteAt(scanned, p, t) == MinuteAt(minutes, p, t) {
        if t >= 0 { assert MinuteKey(t, p) in minutes ==> MinuteKey(t, p) in scanned; }
      }
      FoldSame(scanned, minutes, p, lo, until);
    }
  }

  /** The written rows are MergedHours. */
  lemma MergedIsWritten(hours: Hours, minutes: Minutes, hour: nat, from: int, lo: int, until: int,
                        grouped: map<PairKey, Counters>, dirty: set<PairKey>)
    requires lo == from + 1
    requires dirty == PairsOf(RowsBetween(minutes, from, until))
    requires grouped.Keys == Seeds(hours, hour).Keys + dirty
    requires forall p :: GroupAt(grouped, p) == Merge(GroupAt(Seeds(hours, hour), p), Fold(minutes, p, lo, until))
    ensures hours + RowsFor(hour, grouped, dirty) == MergedHours(hours, minutes, hour, from, until)
  {
    hide *;
    var l, r := hours + RowsFor(hour, grouped, dirty), MergedHours(hours, minutes, hour, from, until);
    forall hk: HourKey
      ensures hk in l <==> hk in r
      ensures hk in l ==> l[hk] == r[hk]
    {
      if hk.hour == hour {
        WrittenRow(hours, minutes, hour, from, until, grouped, dirty, hk);
      } else {
        UnwrittenRow(hours, minutes, hour, from, until, grouped, dirty, hk);
      }
    }
    assert l.Keys == r.Keys;
  }

  lemma UnwrittenRow(hours: Hours, minutes: Minutes, hour: nat, from: int, until: int,
                     grouped: map<PairKey, Counters>, dirty: set<PairKey>, hk: HourKey)
    requires dirty <= grouped.Keys && hk.hour != hour
    ensures var l, r := hours + RowsFor(hour, grouped, dirty), MergedHours(hours, minutes, hour, from, until);
            (hk in l <==> hk in r) && (hk in l ==> l[hk] == r[hk])
  {
    hide Merge, Fold;
  }

  lemma WrittenRow(hours: Hours, minutes: Minutes, hour: nat, from: int, until: int,
                   grouped: map<PairKey, Counters>, dirty: set<PairKey>, hk: HourKey)
    requires dirty == PairsOf(RowsBetween(minutes, from, until))
    requires dirty <= grouped.Keys
    requires GroupAt(grouped, hk.pair)
             == Merge(GroupAt(Seeds(hours, hour), hk.pair), Fold(minutes, hk.pair, from + 1, until))
    requires hk.hour == hour
    ensures var l, r := hours + RowsFor(hour, grouped, dirty), MergedHours(hours, minutes, hour, from, until);
            (hk in l <==> hk in r) && (hk in l ==> l[hk] == r[hk])
  {
    var seed := Seeds(hours, hour);
    assert HourKey(hour, hk.pair) == hk;
    assert GroupAt(seed, hk.pair) == HourAt(hours, hk);
    assert hk.pair in dirty <==>
        Fold(minutes, hk.pair, from + 1, until) != EMPTY by { DirtyIsNonEmpty(minutes, hk.pair, from, until); }
    hide Merge, Fold, MergedHours, Seeds;
    MergedHoursAt(hours, minutes, hour, from, until, hk);
    if hk.pair !in dirty {
      MergeEmpty(GroupAt(seed, hk.pair));
    }
  }

  lemma DirtyIsNonEmpty(minutes: Minutes, pair: PairKey, from: int, until: int)
    ensures pair in PairsOf(RowsBetween(minutes, from, until)) <==> Fold(minutes, pair, from + 1, until) != EMPTY
  {
    FoldEmpty(minutes, pair, from + 1, until);
    hide Fold;
    if pair in PairsOf(RowsBetween(minutes, from, until)) {
      var mk :| mk in RowsBetween(minutes, from, until) && mk.pair == pair;
      assert MinuteKey(mk.bucket, pair) == mk;
    }
    if Fold(minutes, pair, from + 1, until) != EMPTY {
      var t: nat :| from + 1 <= t < until && MinuteKey(t, pair) in minutes;
      assert MinuteKey(t, pair) in RowsBetween(minutes, from, until);
    }
  }
}

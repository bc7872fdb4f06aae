/**
 An hour the mark has passed stays closed, and only a commit that reports it
 changes it: a late delta names it in its touches, and retention covers it by
 the bound it hands to the cache.
 */
module ClosedHours {
  import opened GoInts
  import opened PairGroups
  import opened HourRollup
  import opened RollupStore

  /** Every minute of the hour is at or below the mark. */
  predicate Closed(mark: int, hour: nat) {
    hour % HOUR == 0 && hour + HOUR <= mark + MINUTE
  }

  /** What a commit tells the cache to drop. */
  datatype Invalidation = Hours(hours: set<nat>) | BelowHour(below: int)

  function Reported(mark: int, w: Write): Invalidation {
    match w
    case Deltas(aggs, _) => Hours(Touches(mark, aggs))
    case Retention(cutoff) => BelowHour(TruncTo(cutoff, HOUR) + HOUR)
  }

  predicate Drops(i: Invalidation, hour: nat) {
    match i
    case Hours(hours) => hour in hours
    case BelowHour(below) => hour < below
  }

  /** A minute at or below the mark is changed only in a reported hour. */
  lemma RolledMinuteStable(t: Tables, w: Write, pair: PairKey, b: int)
    requires Consistent(t) && 0 <= b <= t.mark
    requires !Drops(Reported(t.mark, w), HourOf(b))
    ensures MinuteAt(Apply(t, w).minutes, pair, b) == MinuteAt(t.minutes, pair, b)
  {
    hide HoursOf, Lift, AddRow;
    match w
    case Deltas(aggs, _) =>
      UntouchedMinute(t.minutes, t.mark, aggs, pair, b);
    case Retention(cutoff) =>
      TruncToBounds(cutoff, HOUR);
  }

  lemma {:induction false} UntouchedMinute(minutes: Minutes, mark: int, aggs: seq<Aggregate>, pair: PairKey, b: nat)
    requires b <= mark && HourOf(b) !in Touches(mark, aggs)
    ensures MinuteAt(UpsertAll(minutes, aggs), pair, b) == MinuteAt(minutes, pair, b)
  {
    hide Lift, AddRow;
    if aggs != [] {
      var front, last := aggs[..|aggs| - 1], aggs[|aggs| - 1];
      forall i | 0 <= i < |front| && KeyOf(front[i]).bucket <= mark
        ensures HourOf(KeyOf(front[i]).bucket) in Touches(mark, aggs)
      {
        assert aggs[i] == front[i];
      }
      UntouchedMinute(minutes, mark, front, pair, b);
      assert KeyOf(last).bucket != b;
    }
  }

  lemma HoursAreRollup(t: Tables)
    requires Consistent(t)
    ensures t.hours == HoursOf(t.minutes, t.mark)
  {
  }

  /** A closed hour's row is the fold of the whole hour. */
  lemma ClosedRowIsFold(t: Tables, hour: nat, pair: PairKey)
    requires Consistent(t) && Closed(t.mark, hour)
    ensures HourAt(t.hours, HourKey(hour, pair)) == Fold(t.minutes, pair, hour, hour + HOUR)
    ensures HourKey(hour, pair) in t.hours <==> Fold(t.minutes, pair, hour, hour + HOUR) != EMPTY
  {
    hide Merge, HoursOf, Fold, Consistent;
    var hk := HourKey(hour, pair);
    HoursAreRollup(t);
    var end := RolledEnd(hour + HOUR, t.mark);
    forall b: nat | end <= b < hour + HOUR
      ensures MinuteKey(b, pair) !in t.minutes
    {
      NoneAfterMark(t, pair, b);
    }
    HourAtIsRolled(t.minutes, t.mark, hk);
    HoursOfAt(t.minutes, t.mark, hk);
    FoldExtend(t.minutes, pair, hour, end, hour + HOUR);
  }

  lemma ClosedHourStable(t: Tables, w: Write, hour: nat)
    requires Consistent(t) && Closed(t.mark, hour)
    ensures Closed(Apply(t, w).mark, hour)
    ensures !Drops(Reported(t.mark, w), hour) ==> Seeds(Apply(t, w).hours, hour) == Seeds(t.hours, hour)
  {
    hide HoursOf, Fold, MinuteAt, Apply;
    if !Drops(Reported(t.mark, w), hour) {
      var t' := Apply(t, w);
      forall pair
        ensures HourKey(hour, pair) in t'.hours <==> HourKey(hour, pair) in t.hours
        ensures HourAt(t'.hours, HourKey(hour, pair)) == HourAt(t.hours, HourKey(hour, pair))
      {
        ClosedRowStable(t, w, hour, pair);
      }
      SameSeeds(t.hours, t'.hours, hour);
    }
  }

  lemma ClosedRowStable(t: Tables, w: Write, hour: nat, pair: PairKey)
    requires Consistent(t) && Closed(t.mark, hour) && !Drops(Reported(t.mark, w), hour)
    ensures var hk := HourKey(hour, pair);
            (hk in Apply(t, w).hours <==> hk in t.hours) && HourAt(Apply(t, w).hours, hk) == HourAt(t.hours, hk)
  {
    hide HoursOf, Fold, MinuteAt, Apply;
    var t' := Apply(t, w);
    forall b | hour <= b < hour + HOUR
      ensures MinuteAt(t'.minutes, pair, b) == MinuteAt(t.minutes, pair, b)
    {
      HourUnique(hour, b);
      if b <= t.mark {
        RolledMinuteStable(t, w, pair, b);
      } else {
        NotAMinute(t, pair, b);
        NotAMinute(t', pair, b);
      }
    }
    FoldSame(t'.minutes, t.minutes, pair, hour, hour + HOUR);
    ClosedRowIsFold(t, hour, pair);
    ClosedRowIsFold(t', hour, pair);
  }

  lemma NotAMinute(t: Tables, pair: PairKey, b: nat)
    requires Consistent(t) && b % MINUTE != 0
    ensures MinuteAt(t.minutes, pair, b) == EMPTY
  {
  }

  lemma SameSeeds(a: Hours, b: Hours, hour: nat)
    requires forall pair :: HourKey(hour, pair) in a <==> HourKey(hour, pair) in b
    requires forall pair :: HourAt(a, HourKey(hour, pair)) == HourAt(b, HourKey(hour, pair))
    ensures Seeds(a, hour) == Seeds(b, hour)
  {
    forall pair
      ensures pair in Seeds(a, hour) <==> HourKey(hour, pair) in a
      ensures pair in Seeds(b, hour) <==> HourKey(hour, pair) in b
      ensures pair in Seeds(a, hour) ==> Seeds(a, hour)[pair] == HourAt(a, HourKey(hour, pair))
      ensures pair in Seeds(b, hour) ==> Seeds(b, hour)[pair] == HourAt(b, HourKey(hour, pair))
    {
      SeedAt(a, hour, pair);
      SeedAt(b, hour, pair);
    }
    assert Seeds(a, hour).Keys == Seeds(b, hour).Keys;
  }

  lemma SeedAt(hours: Hours, hour: nat, pair: PairKey)
    ensures pair in Seeds(hours, hour) <==> HourKey(hour, pair) in hours
    ensures GroupAt(Seeds(hours, hour), pair) == HourAt(hours, HourKey(hour, pair))
  {
    if HourKey(hour, pair) in hours {
      assert HourKey(hour, pair).pair == pair;
    }
  }
}

/**
 How a read splits its window between minute rows and hour rows, and the
 work items it cuts the two into (the planners of hour_rollup.go and the span
 splitters of node_pair_parallel.go). The claim of every step is the same: no
 second of the window is lost and none is read twice.
 */
module WindowPlan {
  import opened GoInts

  /** A half-open range of seconds. */
  datatype Span = Span(lo: int, hi: int)

  datatype HourPlan = HourPlan(minutes: seq<Span>, hours: seq<Span>)

  predicate Holds(s: Span, t: int) {
    s.lo <= t < s.hi
  }

  predicate InSpans(spans: seq<Span>, t: int) {
    exists i :: 0 <= i < |spans| && Holds(spans[i], t)
  }

  /** How many spans of a list hold a second. */
  function Hits(spans: seq<Span>, t: int): nat {
    if spans == [] then 0
    else Hits(spans[..|spans| - 1], t) + if Holds(spans[|spans| - 1], t) then 1 else 0
  }

  lemma {:induction false} HitsConcat(a: seq<Span>, b: seq<Span>, t: int)
    ensures Hits(a + b, t) == Hits(a, t) + Hits(b, t)
  {
    if b == [] {
      assert a + b == a;
    } else {
      HitsConcat(a, b[..|b| - 1], t);
      assert (a + b)[..|a + b| - 1] == a + b[..|b| - 1];
    }
  }

  /** The plan reads every second of [start, end) once and nothing else. */
  ghost predicate Partitions(plan: HourPlan, start: int, end: int) {
    forall t :: Hits(plan.minutes, t) + Hits(plan.hours, t) == if start <= t < end then 1 else 0
  }

  /** The first hour boundary planHours will start hours at. */
  function FirstHour(start: int): int {
    if Mod(start, HOUR) != 0 then (Div(start, HOUR) + 1) * HOUR else start
  }

  function RolledUntil(mark: int): int {
    if mark >= 0 then mark + MINUTE else 0
  }

  function LastHour(end: int, mark: int): int {
    if RolledUntil(mark) < TruncTo(end, HOUR) then TruncTo(RolledUntil(mark), HOUR) else TruncTo(end, HOUR)
  }

  function PlanHours(start: int, end: int, mark: int): HourPlan {
    if start >= end then HourPlan([], [])
    else
      var hourStart := FirstHour(start);
      var hourEnd := LastHour(end, mark);
      if hourStart >= hourEnd || hourEnd <= start || hourStart >= end then HourPlan([Span(start, end)], [])
      else
        HourPlan((if start < hourStart then [Span(start, hourStart)] else [])
                 + (if hourEnd < end then [Span(hourEnd, end)] else []),
                 [Span(hourStart, hourEnd)])
  }

  function PlanHoursThroughMark(start: int, end: int, mark: int): HourPlan {
    var plan := PlanHours(start, end, mark);
    if mark < 0 then plan
    else
      var rolledUntil := mark + MINUTE;
      if rolledUntil % HOUR == 0 || end < rolledUntil then plan
      else
        var filling := (rolledUntil / HOUR) * HOUR;
        if filling < start then plan
        else
          var hourStart := if |plan.hours| > 0 then plan.hours[0].lo else filling;
          HourPlan((if start < hourStart then [Span(start, hourStart)] else [])
                   + (if rolledUntil < end then [Span(rolledUntil, end)] else []),
                   [Span(hourStart, rolledUntil)])
  }

  /**
   A window that ends before 1970 off an hour boundary: the end is rounded
   toward zero, so up, and the hour range runs past the window.
   */
  predicate OverrunsEnd(start: int, end: int) {
    end < 0 && end % HOUR != 0 && FirstHour(start) < end
  }

  lemma FirstHourBounds(start: int)
    ensures FirstHour(start) % HOUR == 0 && start <= FirstHour(start)
  {
    TruncToBounds(start, HOUR);
    if start >= 0 {
      assert Mod(start, HOUR) == start - TruncTo(start, HOUR);
    }
    if Mod(start, HOUR) != 0 {
      assert FirstHour(start) == TruncTo(start, HOUR) + HOUR;
    }
  }

  lemma LastHourBounds(end: int, mark: int)
    ensures LastHour(end, mark) % HOUR == 0
    ensures mark >= 0 ==> LastHour(end, mark) <= RolledUntil(mark)
    ensures mark < 0 ==> LastHour(end, mark) <= 0
    ensures end >= 0 || end % HOUR == 0 ==> LastHour(end, mark) <= end
    ensures end < 0 ==> end <= LastHour(end, mark) == TruncTo(end, HOUR) <= 0
  {
    TruncToBounds(end, HOUR);
    TruncToBounds(RolledUntil(mark), HOUR);
    if end < 0 {
      assert TruncTo(end, HOUR) <= 0 by { assert (-end) / HOUR >= 0; }
    }
  }

  lemma PlanShape(start: int, end: int, mark: int)
    requires start < end
    ensures var plan := PlanHours(start, end, mark);
            plan == HourPlan([Span(start, end)], [])
            || (exists h0, h1 ::
                  start <= h0 < h1 && h0 < end && h0 % HOUR == 0 && h1 % HOUR == 0
                  && plan.hours == [Span(h0, h1)]
                  && plan.minutes == (if start < h0 then [Span(start, h0)] else [])
                      + (if h1 < end then [Span(h1, end)] else []))
  {
    FirstHourBounds(start);
    LastHourBounds(end, mark);
  }

  /** Three abutting spans hold each second of their union once. */
  lemma ThreePieces(a: int, b: int, c: int, d: int, plan: HourPlan)
    requires a <= b < c <= d
    requires plan.hours == [Span(b, c)]
    requires plan.minutes == (if a < b then [Span(a, b)] else []) + (if c < d then [Span(c, d)] else [])
    ensures Partitions(plan, a, d)
  {
    forall t
      ensures Hits(plan.minutes, t) + Hits(plan.hours, t) == if a <= t < d then 1 else 0
    {
      HitsConcat(if a < b then [Span(a, b)] else [], if c < d then [Span(c, d)] else [], t);
    }
  }

  /**
   planHours loses and repeats nothing, for every window and mark, exactly
   unless the window ends before 1970 off an hour boundary after its first
   whole hour.
   */
  lemma PlanHoursPartitions(start: int, end: int, mark: int)
    ensures Partitions(PlanHours(start, end, mark), start, end) <==> !(start < end && OverrunsEnd(start, end))
  {
    var plan := PlanHours(start, end, mark);
    if start < end {
      FirstHourBounds(start);
      LastHourBounds(end, mark);
      TruncToBounds(end, HOUR);
      var h0, h1 := FirstHour(start), LastHour(end, mark);
      if h0 >= h1 || h1 <= start || h0 >= end {
        assert Partitions(plan, start, end);
      } else if h1 <= end {
        ThreePieces(start, h0, h1, end, plan);
      } else {
        assert Hits(plan.hours, end) == 1;
        assert !Partitions(plan, start, end);
      }
    }
  }

  /** The failing family has members: planHours(-7200, -100, mark) also reads [-100, 0). */
  lemma PlanHoursOverrun(mark: int)
    ensures PlanHours(-7200, -100, mark) == HourPlan([], [Span(-7200, 0)])
    ensures !Partitions(PlanHours(-7200, -100, mark), -7200, -100)
  {
    assert Mod(-7200, HOUR) == 0 && FirstHour(-7200) == -7200;
    assert Div(-100, HOUR) == 0 && TruncTo(-100, HOUR) == 0;
    assert LastHour(-100, mark) == 0 by { LastHourBounds(-100, mark); }
    hide TruncTo, Div, Mod, LastHour, FirstHour;
    assert Hits(PlanHours(-7200, -100, mark).hours, -50) == 1;
  }

  /** An hour range starts on the hour, ends on the hour or with the mark's minute, and is rolled or before 1970. */
  predicate RolledRange(s: Span, mark: int) {
    s.lo % HOUR == 0 && s.lo < s.hi
    && ((mark >= 0 && s.hi <= mark + MINUTE) || s.hi <= 0)
    && (s.hi % HOUR == 0 || (mark >= 0 && s.hi == mark + MINUTE))
  }

  ghost predicate HoursAreRolled(plan: HourPlan, mark: int) {
    forall s :: s in plan.hours ==> RolledRange(s, mark)
  }

  /** Every minute of such a range is at or below the mark. */
  lemma RangeIsRolled(s: Span, mark: int, t: nat)
    requires RolledRange(s, mark) && (mark == -1 || (mark >= 0 && mark % MINUTE == 0))
    requires Holds(s, t) && t % MINUTE == 0
    ensures t <= mark
  {
    if t > mark {
      MinutesApart(mark, t);
    }
  }

  lemma PlanHoursAreRolled(start: int, end: int, mark: int)
    requires mark == -1 || (mark >= 0 && mark % MINUTE == 0)
    ensures HoursAreRolled(PlanHours(start, end, mark), mark)
  {
    FirstHourBounds(start);
    LastHourBounds(end, mark);
    hide FirstHour, LastHour;
  }

  /** The hour that is still filling starts below the rolled end. */
  lemma FillingHour(rolledUntil: nat)
    ensures var filling := (rolledUntil / HOUR) * HOUR;
            filling % HOUR == 0 && filling <= rolledUntil < filling + HOUR
            && (rolledUntil % HOUR != 0 ==> filling < rolledUntil)
  {
    FloorBounds(rolledUntil, HOUR);
  }

  lemma PlanThroughMarkPartitions(start: int, end: int, mark: int)
    requires mark == -1 || (mark >= 0 && mark % MINUTE == 0)
    ensures Partitions(PlanHoursThroughMark(start, end, mark), start, end) <==>
            !(start < end && OverrunsEnd(start, end))
    ensures HoursAreRolled(PlanHoursThroughMark(start, end, mark), mark)
    ensures |PlanHoursThroughMark(start, end, mark).hours| <= 1
  {
    PlanHoursPartitions(start, end, mark);
    PlanHoursAreRolled(start, end, mark);
    FewHours(start, end, mark);
    hide PlanHours, Partitions, FirstHour;
    var rolledUntil := mark + MINUTE;
    var filling := (rolledUntil / HOUR) * HOUR;
    if mark >= 0 && rolledUntil % HOUR != 0 && end >= rolledUntil && filling >= start {
      FillingHour(rolledUntil);
      var hourStart := FillingPlanStart(start, end, mark);
      ThreePieces(start, hourStart, rolledUntil, end, PlanHoursThroughMark(start, end, mark));
    }
  }

  lemma FewHours(start: int, end: int, mark: int)
    ensures |PlanHours(start, end, mark).hours| <= 1
  {
  }

  /** Where the hours of a plan that reaches into the filling hour start. */
  lemma FillingPlanStart(start: int, end: int, mark: int) returns (hourStart: int)
    requires mark >= 0 && start <= ((mark + MINUTE) / HOUR) * HOUR
    ensures var plan := PlanHours(start, end, mark);
            hourStart == if |plan.hours| > 0 then plan.hours[0].lo else ((mark + MINUTE) / HOUR) * HOUR
    ensures start <= hourStart <= ((mark + MINUTE) / HOUR) * HOUR && hourStart % HOUR == 0
  {
    FillingHour(mark + MINUTE);
    FirstHourBounds(start);
    LastHourBounds(end, mark);
    hide TruncTo, Div, Mod, FirstHour, LastHour;
    var plan := PlanHours(start, end, mark);
    var filling := ((mark + MINUTE) / HOUR) * HOUR;
    hourStart := if |plan.hours| > 0 then plan.hours[0].lo else filling;
    if |plan.hours| > 0 && filling < hourStart {
      HoursApart(filling, hourStart);
    }
  }

  /** For the seconds that can hold rows (none is stored before 1970), every plan is exact. */
  ghost predicate PartitionsStored(plan: HourPlan, start: int, end: int) {
    forall t: nat :: Hits(plan.minutes, t) + Hits(plan.hours, t) == if start <= t < end then 1 else 0
  }

  lemma PlanHoursStored(start: int, end: int, mark: int)
    ensures PartitionsStored(PlanHours(start, end, mark), start, end)
  {
    PlanHoursPartitions(start, end, mark);
    if start < end && OverrunsEnd(start, end) {
      FirstHourBounds(start);
      LastHourBounds(end, mark);
    }
  }

  lemma PlanThroughMarkStored(start: int, end: int, mark: int)
    requires mark == -1 || (mark >= 0 && mark % MINUTE == 0)
    ensures PartitionsStored(PlanHoursThroughMark(start, end, mark), start, end)
  {
    PlanThroughMarkPartitions(start, end, mark);
    PlanHoursStored(start, end, mark);
  }

  lemma PlanSpansForward(start: int, end: int, mark: int)
    ensures forall s :: s in PlanHoursThroughMark(start, end, mark).minutes ==> s.lo < s.hi
    ensures forall s :: s in PlanHours(start, end, mark).minutes ==> s.lo < s.hi
  {
    if start < end {
      PlanShape(start, end, mark);
    }
  }

  // ---- Which seconds are read from hour rows.

  /** The second's hour lies in the window and ends no later than the minute after the mark. */
  predicate InWholeHour(start: int, end: int, mark: int, t: nat) {
    var h := t - t % 3600;
    mark >= 0 && start <= h && h + 3600 <= end && h + 3600 <= mark + 60
  }

  /** The first hour after 1970 of a window that starts less than an hour before it: Go rounds past it. */
  predicate Skipped(start: int, t: nat) {
    -3600 < start < 0 && t < 3600
  }

  /** The mark's own hour, still filling, when the window reaches from its start to the mark's minute. */
  predicate InFillingHour(start: int, end: int, mark: int, t: nat) {
    var filling := mark + 60 - (mark + 60) % 3600;
    mark >= 0 && start <= filling <= t < mark + 60 <= end
  }

  ghost predicate SomeWholeHour(ranges: seq<Span>, mark: int, t: nat) {
    exists i :: 0 <= i < |ranges| && InWholeHour(ranges[i].lo, ranges[i].hi, mark, t) && !Skipped(ranges[i].lo, t)
  }

  lemma SomeSnoc(ranges: seq<Span>, n: nat, mark: int, t: nat)
    requires n < |ranges|
    ensures SomeWholeHour(ranges[..n + 1], mark, t)
       <==> SomeWholeHour(ranges[..n], mark, t)
            || (InWholeHour(ranges[n].lo, ranges[n].hi, mark, t) && !Skipped(ranges[n].lo, t))
  {
    hide InWholeHour, Skipped;
    var front, now := ranges[..n], ranges[..n + 1];
    assert now[n] == ranges[n];
    if SomeWholeHour(front, mark, t) {
      var i :| 0 <= i < n && InWholeHour(front[i].lo, front[i].hi, mark, t) && !Skipped(front[i].lo, t);
      assert now[i] == front[i];
    }
    if SomeWholeHour(now, mark, t) {
      var i :| 0 <= i <= n && InWholeHour(now[i].lo, now[i].hi, mark, t) && !Skipped(now[i].lo, t);
      if i < n {
        assert front[i] == now[i];
      }
    }
  }

  lemma OneSpan(lo: int, hi: int, t: int)
    ensures Hits([Span(lo, hi)], t) == if lo <= t < hi then 1 else 0
    ensures Hits([], t) == 0
  {
    assert [Span(lo, hi)][..0] == [];
  }

  /** A second is at or past an hour boundary exactly when its hour is. */
  lemma AtBoundary(t: nat, b: int)
    requires b % HOUR == 0
    ensures b <= t <==> b <= t - t % HOUR
    ensures t < b <==> t - t % HOUR + HOUR <= b
  {
    var q, c := t / HOUR, b / HOUR;
    assert t - t % HOUR == q * HOUR && b == c * HOUR;
    assert t < (q + 1) * HOUR;
    if b <= t {
      assert c <= q;
    } else {
      assert q < c;
    }
  }

  /** A whole hour ends by a time exactly when it ends by the hour the time is in. */
  lemma ByTheHour(b: int, x: int)
    requires b % HOUR == 0 && x >= 0
    ensures b <= TruncTo(x, HOUR) <==> b <= x
  {
    TruncToBounds(x, HOUR);
    var c, d := b / HOUR, TruncTo(x, HOUR) / HOUR;
    assert b == c * HOUR && TruncTo(x, HOUR) == d * HOUR;
    hide TruncTo;
    if d < c {
      assert (d + 1) * HOUR <= c * HOUR;
    }
  }

  /** The first whole hour at or after start, and one more when Go rounded a start before 1970 up. */
  lemma FromFirstHour(start: int, h: nat)
    requires h % HOUR == 0
    ensures FirstHour(start) <= h <==> start <= h && !(-HOUR < start < 0 && h == 0)
  {
    FirstHourBounds(start);
    TruncToBounds(start, HOUR);
    var first := FirstHour(start);
    if start % HOUR != 0 {
      assert first == TruncTo(start, HOUR) + HOUR;
      var c, k := first / HOUR, h / HOUR;
      assert first == c * HOUR && h == k * HOUR;
      hide TruncTo, FirstHour;
      if start >= 0 {
        assert start <= h ==> c - 1 < k;
      } else {
        assert first <= HOUR;
      }
    }
  }

  /** A stored second is read from hour rows exactly when its whole hour is in the window and rolled. */
  lemma PlanHoursReadsHours(start: int, end: int, mark: int, t: nat)
    requires mark == -1 || (mark >= 0 && mark % MINUTE == 0)
    ensures Hits(PlanHours(start, end, mark).hours, t) > 0
       <==> InWholeHour(start, end, mark, t) && !Skipped(start, t)
  {
    var h := t - t % HOUR;
    var h0, h1 := FirstHour(start), LastHour(end, mark);
    FirstHourBounds(start);
    LastHourBounds(end, mark);
    FromFirstHour(start, h);
    AtBoundary(t, h0);
    AtBoundary(t, h1);
    OneSpan(h0, h1, t);
    if end >= 0 {
      ByTheHour(h + HOUR, end);
      ByTheHour(h + HOUR, RolledUntil(mark));
    }
    hide TruncTo, Div, Mod, FirstHour, Hits;
  }

  /** With the mark's own hour, also what is rolled of that. */
  lemma PlanThroughMarkReadsHours(start: int, end: int, mark: int, t: nat)
    requires mark == -1 || (mark >= 0 && mark % MINUTE == 0)
    ensures Hits(PlanHoursThroughMark(start, end, mark).hours, t) > 0
       <==> (InWholeHour(start, end, mark, t) && !Skipped(start, t)) || InFillingHour(start, end, mark, t)
  {
    PlanHoursReadsHours(start, end, mark, t);
    var rolledUntil := mark + MINUTE;
    var filling := (rolledUntil / HOUR) * HOUR;
    if mark >= 0 && rolledUntil % HOUR != 0 && end >= rolledUntil && filling >= start {
      FillingHour(rolledUntil);
      AtBoundary(t, filling);
      PlanEndsFilling(start, end, mark);
      var plan := PlanHours(start, end, mark);
      var hourStart := FillingPlanStart(start, end, mark);
      hide PlanHours;
      OneSpan(hourStart, rolledUntil, t);
      OneSpan(hourStart, filling, t);
    }
  }

  /** When the window reaches the mark's minute, the whole hours of its plan end where the filling hour starts. */
  lemma PlanEndsFilling(start: int, end: int, mark: int)
    requires mark >= 0 && mark + MINUTE <= end && start <= ((mark + MINUTE) / HOUR) * HOUR
    ensures var plan, filling := PlanHours(start, end, mark), ((mark + MINUTE) / HOUR) * HOUR;
            plan.hours == [] || plan.hours == [Span(plan.hours[0].lo, filling)]
  {
    FillingHour(mark + MINUTE);
    ByTheHour(((mark + MINUTE) / HOUR) * HOUR, end);
    FirstHourBounds(start);
  }

  lemma RolledConcat(a: HourPlan, b: HourPlan, mark: int)
    requires HoursAreRolled(a, mark) && HoursAreRolled(b, mark)
    ensures HoursAreRolled(HourPlan(a.minutes + b.minutes, a.hours + b.hours), mark)
  {
  }

  lemma HitsPrefix(spans: seq<Span>, i: nat, t: int)
    requires i < |spans|
    ensures Hits(spans[..i + 1], t) == Hits(spans[..i], t) + if Holds(spans[i], t) then 1 else 0
  {
    assert spans[..i + 1][..|spans[..i + 1]| - 1] == spans[..i];
  }

  /**
   combineHourPlans: one plan for a list of ranges, which may come from the
   gap finder. A stored second is read as often as the ranges hold it.
   */
  method CombineHourPlans(ranges: seq<Span>, mark: int, allowHours: bool) returns (plan: HourPlan)
    requires mark == -1 || (mark >= 0 && mark % MINUTE == 0)
    ensures forall t: nat :: Hits(plan.minutes, t) + Hits(plan.hours, t) == Hits(ranges, t)
    ensures HoursAreRolled(plan, mark)
    ensures !allowHours ==> plan.hours == []
    ensures allowHours ==> forall t: nat :: Hits(plan.hours, t) > 0 <==> SomeWholeHour(ranges, mark, t)
  {
    if !allowHours {
      return HourPlan(ranges, []);
    }
    plan := HourPlan([], []);
    var i := 0;
    while i < |ranges|
      invariant 0 <= i <= |ranges|
      invariant forall t: nat :: Hits(plan.minutes, t) + Hits(plan.hours, t) == Hits(ranges[..i], t)
      invariant HoursAreRolled(plan, mark)
      invariant forall t: nat :: Hits(plan.hours, t) > 0 <==> SomeWholeHour(ranges[..i], mark, t)
    {
      hide PlanHours, Hits, RolledRange, HoursAreRolled, SomeWholeHour;
      var one := PlanHours(ranges[i].lo, ranges[i].hi, mark);
      ghost var before := plan;
      plan := HourPlan(plan.minutes + one.minutes, plan.hours + one.hours);
      PlanHoursAreRolled(ranges[i].lo, ranges[i].hi, mark);
      PlanHoursStored(ranges[i].lo, ranges[i].hi, mark);
      RolledConcat(before, one, mark);
      forall t: nat
        ensures Hits(plan.minutes, t) + Hits(plan.hours, t) == Hits(ranges[..i + 1], t)
      {
        HitsConcat(before.minutes, one.minutes, t);
        HitsConcat(before.hours, one.hours, t);
        HitsPrefix(ranges, i, t);
      }
      forall t: nat
        ensures Hits(plan.hours, t) > 0 <==> SomeWholeHour(ranges[..i + 1], mark, t)
      {
        HitsConcat(before.hours, one.hours, t);
        PlanHoursReadsHours(ranges[i].lo, ranges[i].hi, mark, t);
        SomeSnoc(ranges, i, mark, t);
      }
      i := i + 1;
    }
    assert ranges[..i] == ranges;
  }
}

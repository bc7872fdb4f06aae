/**
 The planning half of a graph read (readNodePairAggregates): on one snapshot
 it splits the plan into work items, skipping hours and trimming minute spans
 that hold no rows.
 */
module GraphPlan {
  import opened GoInts
  import opened PairGroups
  import opened HourRollup
  import opened RollupStore
  import opened WindowPlan
  import opened SpanSplit
  import opened SpanReads
  import opened ClosedHours

  /** Some hour row covers second t. */
  ghost predicate HourHasRows(hours: Hours, t: int) {
    t >= 0 && exists pair :: HourKey(HourOf(t), pair) in hours
  }

  ghost predicate MinuteHasRows(minutes: Minutes, t: int) {
    t >= 0 && exists pair :: MinuteKey(t, pair) in minutes
  }

  ghost predicate HourAligned(hours: Hours) {
    forall hk :: hk in hours ==> hk.hour % HOUR == 0
  }

  predicate WholeHours(s: Span) {
    s.lo % HOUR == 0 && s.hi % HOUR == 0
  }

  function HourSpan(h: nat): Span {
    Span(h, h + HOUR)
  }

  function HourSpans(found: seq<nat>): (spans: seq<Span>)
    ensures |spans| == |found|
    ensures forall i :: 0 <= i < |found| ==> spans[i] == HourSpan(found[i])
  {
    if found == [] then [] else HourSpans(found[..|found| - 1]) + [HourSpan(found[|found| - 1])]
  }

  /** SELECT MIN(bucket) over the hour rows of a range. */
  method SeekHour(hours: Hours, lo: int, hi: int) returns (next: Option<nat>)
    ensures next.None? ==> forall hk :: hk in hours ==> !(lo <= hk.hour < hi)
    ensures next.Some? ==> lo <= next.value < hi && exists hk :: hk in hours && hk.hour == next.value
    ensures next.Some? ==> forall hk :: hk in hours && lo <= hk.hour < hi ==> next.value <= hk.hour
  {
    next := None;
    var pending := hours.Keys;
    while pending != {}
      invariant pending <= hours.Keys
      invariant next.None? ==> forall hk :: hk in hours.Keys - pending ==> !(lo <= hk.hour < hi)
      invariant next.Some? ==> lo <= next.value < hi && exists hk :: hk in hours && hk.hour == next.value
      invariant next.Some? ==> forall hk :: hk in hours.Keys - pending && lo <= hk.hour < hi ==> next.value <= hk.hour
      decreases pending
    {
      var hk :| hk in pending;
      pending := pending - {hk};
      if lo <= hk.hour < hi && (next.None? || hk.hour < next.value) {
        next := Some(hk.hour);
      }
    }
  }

  /** The hours with rows are read exactly as often as the ranges hold them; the others are not read. */
  ghost predicate ListsHours(hours: Hours, ranges: seq<Span>, found: seq<nat>) {
    forall t :: Hits(HourSpans(found), t) == if HourHasRows(hours, t) then Hits(ranges, t) else 0
  }

  /** Every listed hour is a whole hour of a range. */
  ghost predicate Inside(found: seq<nat>, ranges: seq<Span>) {
    forall h :: h in found ==> h % HOUR == 0 && InsideSome(h, ranges)
  }

  ghost predicate InsideSome(h: nat, ranges: seq<Span>) {
    exists s :: s in ranges && s.lo <= h && h + HOUR <= s.hi
  }

  method ListRolledHours(hours: Hours, ranges: seq<Span>) returns (found: seq<nat>)
    requires HourAligned(hours) && forall s :: s in ranges ==> WholeHours(s)
    ensures ListsHours(hours, ranges, found)
    ensures Inside(found, ranges)
  {
    found := [];
    assert ListsHours(hours, ranges[..0], found);
    var i := 0;
    while i < |ranges|
      invariant 0 <= i <= |ranges|
      invariant ListsHours(hours, ranges[..i], found)
      invariant Inside(found, ranges)
    {
      hide ListsHours, Hits, HourHasRows;
      assert ranges[i] in ranges;
      var more := ListRange(hours, ranges[i]);
      assert Inside(more, ranges) by {
        assert forall h :: h in more ==> InsideSome(h, ranges);
      }
      ListsAppend(hours, ranges, i, found, more);
      found := found + more;
      i := i + 1;
    }
    assert ranges[..i] == ranges;
  }

  lemma {:induction false} HourSpansConcat(a: seq<nat>, b: seq<nat>)
    ensures HourSpans(a + b) == HourSpans(a) + HourSpans(b)
  {
    if b == [] {
      assert a + b == a;
    } else {
      HourSpansConcat(a, b[..|b| - 1]);
      assert (a + b)[..|a + b| - 1] == a + b[..|b| - 1];
    }
  }

  lemma ListsAppend(hours: Hours, ranges: seq<Span>, i: nat, found: seq<nat>, more: seq<nat>)
    requires i < |ranges|
    requires ListsHours(hours, ranges[..i], found)
    requires forall t :: Hits(HourSpans(more), t) == if HourHasRows(hours, t) && Holds(ranges[i], t) then 1 else 0
    ensures ListsHours(hours, ranges[..i + 1], found + more)
  {
    hide HourHasRows, Hits, HourSpans, Holds;
    HourSpansConcat(found, more);
    forall t
      ensures Hits(HourSpans(found + more), t) == if HourHasRows(hours, t) then Hits(ranges[..i + 1], t) else 0
    {
      HitsConcat(HourSpans(found), HourSpans(more), t);
      HitsPrefix(ranges, i, t);
    }
  }

  /** The seek loop over one range. */
  method ListRange(hours: Hours, span: Span) returns (found: seq<nat>)
    requires HourAligned(hours) && WholeHours(span)
    ensures forall t :: Hits(HourSpans(found), t) == if HourHasRows(hours, t) && Holds(span, t) then 1 else 0
    ensures forall h :: h in found ==> WholeHourOf(h, span)
  {
    found := [];
    var lo := span.lo;
    while lo < span.hi
      invariant span.lo <= lo && lo % HOUR == 0
      invariant forall t ::
                Hits(HourSpans(found), t) == if HourHasRows(hours, t) && span.lo <= t < lo && t < span.hi then 1 else 0
      invariant forall h :: h in found ==> WholeHourOf(h, span)
      decreases span.hi - lo
    {
      hide Hits, HourSpans, HourHasRows;
      var next := SeekHour(hours, lo, span.hi);
      if next.None? {
        NoRowsLeft(hours, lo, span.hi);
        return;
      }
      var hour: nat := (next.value / HOUR) * HOUR;
      FoundHour(hours, span, lo, next.value);
      OneMoreHour(hours, span, lo, hour, found);
      found := found + [hour];
      lo := hour + HOUR;
    }
  }

  /** A whole hour of a span. */
  predicate WholeHourOf(h: nat, span: Span) {
    h % HOUR == 0 && span.lo <= h && h + HOUR <= span.hi
  }

  lemma FoundHour(hours: Hours, span: Span, lo: int, next: nat)
    requires HourAligned(hours) && WholeHours(span) && span.lo <= lo <= next < span.hi
    requires exists hk :: hk in hours && hk.hour == next
    ensures (next / HOUR) * HOUR == next && next % HOUR == 0 && WholeHourOf(next, span)
    ensures (next + HOUR) % HOUR == 0
  {
    HoursApart(next, span.hi);
  }

  lemma NoRowsLeft(hours: Hours, lo: int, hi: int)
    requires lo % HOUR == 0 && hi % HOUR == 0
    requires forall hk :: hk in hours ==> !(lo <= hk.hour < hi)
    ensures forall t :: lo <= t < hi ==> !HourHasRows(hours, t)
  {
    forall t | lo <= t < hi && t >= 0
      ensures lo <= HourOf(t) < hi
    {
      HourInside(t, lo, hi);
    }
  }

  lemma HourInside(t: nat, lo: int, hi: int)
    requires lo % HOUR == 0 && hi % HOUR == 0 && lo <= t < hi
    ensures lo <= HourOf(t) && HourOf(t) + HOUR <= hi
  {
    var h := HourOf(t);
    if h < lo {
      HoursApart(h, lo);
    }
    HoursApart(h, hi);
  }

  lemma OneMoreHour(hours: Hours, span: Span, lo: int, hour: nat, found: seq<nat>)
    requires HourAligned(hours) && WholeHours(span) && lo % HOUR == 0 && hour % HOUR == 0
    requires span.lo <= lo <= hour < span.hi
    requires forall t :: Hits(HourSpans(found), t) == if HourHasRows(hours, t) && span.lo <= t < lo && t < span.hi
             then 1 else 0
    requires exists hk :: hk in hours && hk.hour == hour
    requires forall hk :: hk in hours && lo <= hk.hour < span.hi ==> hour <= hk.hour
    ensures forall t :: Hits(HourSpans(found + [hour]), t)
                     == if HourHasRows(hours, t) && span.lo <= t < hour + HOUR && t < span.hi then 1 else 0
  {
    NoRowsLeftBefore(hours, lo, hour, span.hi);
    WholeHourHasRows(hours, hour);
    HourInside(hour, span.lo, span.hi);
    HourSpansConcat(found, [hour]);
    assert HourSpans([hour]) == [HourSpan(hour)];
    hide HourHasRows, HourSpans, Hits;
    forall t
      ensures Hits(HourSpans(found + [hour]), t)
           == if HourHasRows(hours, t) && span.lo <= t < hour + HOUR && t < span.hi then 1 else 0
    {
      HitsSnoc(HourSpans(found), HourSpan(hour), t);
    }
  }

  lemma WholeHourHasRows(hours: Hours, hour: int)
    requires hour % HOUR == 0 && exists hk :: hk in hours && hk.hour == hour
    ensures forall t :: hour <= t < hour + HOUR ==> HourHasRows(hours, t)
  {
    var hk :| hk in hours && hk.hour == hour;
    forall t | hour <= t < hour + HOUR
      ensures HourHasRows(hours, t)
    {
      HourUnique(hour, t);
      assert HourKey(HourOf(t), hk.pair) == hk;
    }
  }

  lemma NoRowsLeftBefore(hours: Hours, lo: int, hour: int, hi: int)
    requires lo % HOUR == 0 && hour % HOUR == 0 && lo <= hour <= hi
    requires forall hk :: hk in hours && lo <= hk.hour < hi ==> hour <= hk.hour
    ensures forall t :: lo <= t < hour ==> !HourHasRows(hours, t)
  {
    NoRowsLeft(hours, lo, hour);
  }

  /** SELECT MIN(bucket) and MAX(bucket) over the minute rows of a span. */
  method SeekMinutes(minutes: Minutes, span: Span) returns (found: Option<Span>)
    ensures found.None? ==> forall t :: Holds(span, t) ==> !MinuteHasRows(minutes, t)
    ensures found.Some? ==>
              span.lo <= found.value.lo < found.value.hi <= span.hi
              && MinuteHasRows(minutes, found.value.lo) && MinuteHasRows(minutes, found.value.hi - 1)
              && forall t :: Holds(span, t) && MinuteHasRows(minutes, t) ==> Holds(found.value, t)
  {
    found := None;
    var pending := minutes.Keys;
    while pending != {}
      invariant pending <= minutes.Keys
      invariant found.None? ==> forall mk :: mk in minutes.Keys - pending ==> !Holds(span, mk.bucket)
      invariant found.Some? ==>
                  span.lo <= found.value.lo < found.value.hi <= span.hi
                  && MinuteHasRows(minutes, found.value.lo) && MinuteHasRows(minutes, found.value.hi - 1)
                  && forall mk :: mk in minutes.Keys - pending && Holds(span, mk.bucket) ==>
                      Holds(found.value, mk.bucket)
      decreases pending
    {
      var mk :| mk in pending;
      pending := pending - {mk};
      if Holds(span, mk.bucket) {
        assert MinuteKey(mk.bucket, mk.pair) == mk;
        if found.None? {
          found := Some(Span(mk.bucket, mk.bucket + 1));
        } else {
          found := Some(Span(Least(found.value.lo, mk.bucket), Larger(found.value.hi, mk.bucket + 1)));
        }
      }
    }
  }

  method ClampMinuteSpans(minutes: Minutes, spans: seq<Span>) returns (clamped: seq<Span>)
    ensures forall t :: Hits(clamped, t) <= Hits(spans, t)
    ensures forall t :: MinuteHasRows(minutes, t) ==> Hits(clamped, t) == Hits(spans, t)
    ensures Forward(clamped) && |clamped| <= |spans|
  {
    clamped := [];
    var i := 0;
    while i < |spans|
      invariant 0 <= i <= |spans|
      invariant forall t :: Hits(clamped, t) <= Hits(spans[..i], t)
      invariant forall t :: MinuteHasRows(minutes, t) ==> Hits(clamped, t) == Hits(spans[..i], t)
      invariant Forward(clamped) && |clamped| <= i
    {
      hide MinuteHasRows;
      var found := SeekMinutes(minutes, spans[i]);
      ghost var before := clamped;
      if found.Some? {
        clamped := clamped + [found.value];
      }
      forall t
        ensures Hits(clamped, t) <= Hits(spans[..i + 1], t)
        ensures MinuteHasRows(minutes, t) ==> Hits(clamped, t) == Hits(spans[..i + 1], t)
      {
        HitsPrefix(spans, i, t);
        if found.Some? {
          HitsSnoc(before, found.value, t);
        }
      }
      i := i + 1;
    }
    assert spans[..i] == spans;
  }

  // ---- The whole plan.

  function HourPiece(h: nat): Piece {
    Piece(HourSpan(h), true, false)
  }

  /** closedSpans: one item per listed hour, one per closed minute chunk. */
  function ClosedPieces(hours: seq<nat>, minutes: seq<Span>): (pieces: seq<Piece>)
    ensures |pieces| == |hours| + |minutes|
  {
    seq(|hours|, i requires 0 <= i < |hours| => HourPiece(hours[i]))
    + seq(|minutes|, i requires 0 <= i < |minutes| => Piece(minutes[i], false, false))
  }

  /** What collectPairGroups reads on the planning snapshot. */
  function SnapshotPieces(minutes: seq<Span>, hours: seq<Span>): (pieces: seq<Piece>)
    ensures |pieces| == |minutes| + |hours|
  {
    seq(|minutes|, i requires 0 <= i < |minutes| => Piece(minutes[i], false, true))
    + seq(|hours|, i requires 0 <= i < |hours| => Piece(hours[i], true, true))
  }

  /** A closed item is a whole closed hour, or minutes at or below the mark; an open hour item is covered by it. */
  predicate PieceFits(mark: int, p: Piece) {
    if p.hours && !p.open then
      p.span.lo >= 0 && p.span.hi == p.span.lo + HOUR && Closed(mark, p.span.lo)
    else if p.hours then
      CoveredHours(p.span, mark)
    else
      p.open || (mark >= 0 && p.span.hi <= mark + MINUTE)
  }

  /** The items hold every stored second of the window at most once, and every minute with rows exactly once. */
  ghost predicate Planned(t: Tables, start: int, end: int, pieces: seq<Piece>) {
    && (forall s: nat :: Hits(SpansOf(pieces), s) <= if start <= s < end then 1 else 0)
    && (forall s: nat :: start <= s < end && MinuteHasRows(t.minutes, s) ==> Hits(SpansOf(pieces), s) == 1)
    && (forall p :: p in pieces ==> PieceFits(t.mark, p))
  }

  lemma PlanHoursCovered(plan: HourPlan, mark: int)
    requires ValidMark(mark) && HoursAreRolled(plan, mark)
    ensures forall s :: s in plan.hours ==> CoveredHours(s, mark)
  {
    forall s | s in plan.hours
      ensures CoveredHours(s, mark)
    {
      assert RolledRange(s, mark);
    }
  }

  /** Closed ranges are whole hours below the mark, open hour spans are covered by it. */
  lemma SplitHoursFit(plan: HourPlan, mark: int, closed: seq<Span>, open: seq<Span>)
    requires ValidMark(mark) && HoursAreRolled(plan, mark)
    requires mark < 0 ==> closed == [] && open == plan.hours
    requires forall s :: s in closed ==> WholeRolledHours(s, mark + MINUTE) && StartsASpan(s, plan.hours)
    requires mark >= 0 ==> forall s :: s in open ==> NoRolledHour(s, mark + MINUTE) && EndsASpan(s, plan.hours)
    ensures forall s :: s in closed ==> WholeHours(s) && s.hi <= mark + MINUTE
    ensures forall s :: s in open ==> CoveredHours(s, mark)
  {
    PlanHoursCovered(plan, mark);
    forall s | s in closed
      ensures WholeHours(s)
    {
      ClosedFits(plan, mark, s);
    }
    if mark >= 0 {
      forall s | s in open
        ensures CoveredHours(s, mark)
      {
        OpenFits(plan, mark, s);
      }
    }
  }

  lemma ClosedFits(plan: HourPlan, mark: int, s: Span)
    requires forall p :: p in plan.hours ==> CoveredHours(p, mark)
    requires WholeRolledHours(s, mark + MINUTE) && StartsASpan(s, plan.hours)
    ensures WholeHours(s)
  {
    var p :| p in plan.hours && p.lo == s.lo && s.hi <= p.hi;
    assert CoveredHours(p, mark);
    WholeSum(s.lo, s.hi - s.lo);
  }

  lemma OpenFits(plan: HourPlan, mark: int, s: Span)
    requires forall p :: p in plan.hours ==> CoveredHours(p, mark)
    requires NoRolledHour(s, mark + MINUTE) && EndsASpan(s, plan.hours)
    ensures CoveredHours(s, mark)
  {
    var p :| p in plan.hours && p.hi == s.hi && p.lo <= s.lo && (s.lo - p.lo) % HOUR == 0;
    assert CoveredHours(p, mark);
    WholeSum(p.lo, s.lo - p.lo);
  }

  lemma WholeSum(a: int, b: int)
    requires a % HOUR == 0 && b % HOUR == 0
    ensures (a + b) % HOUR == 0
  {
  }

  lemma {:induction false} HitsSome(spans: seq<Span>, t: int) returns (i: nat)
    requires Hits(spans, t) > 0
    ensures i < |spans| && Holds(spans[i], t)
  {
    if Holds(spans[|spans| - 1], t) {
      i := |spans| - 1;
    } else {
      i := HitsSome(spans[..|spans| - 1], t);
    }
  }

  lemma {:induction false} HitsMember(spans: seq<Span>, i: nat, t: int)
    requires i < |spans| && Holds(spans[i], t)
    ensures Hits(spans, t) >= 1
    decreases |spans|
  {
    if i < |spans| - 1 {
      HitsMember(spans[..|spans| - 1], i, t);
    }
  }

  /** A closed range that holds a minute with rows has an hour row for it. */
  lemma ClosedRowsAreListed(t: Tables, closed: seq<Span>, found: seq<nat>, s: nat)
    requires Consistent(t) && ListsHours(t.hours, closed, found)
    requires forall c :: c in closed ==> WholeHours(c) && c.hi <= t.mark + MINUTE
    ensures Hits(HourSpans(found), s) <= Hits(closed, s)
    ensures MinuteHasRows(t.minutes, s) ==> Hits(HourSpans(found), s) == Hits(closed, s)
  {
    hide MinuteHasRows, HourHasRows, Consistent;
    if MinuteHasRows(t.minutes, s) && Hits(closed, s) > 0 {
      var i := HitsSome(closed, s);
      assert closed[i] in closed;
      RolledRowIsListed(t, s, closed[i].hi);
    }
  }

  lemma RolledRowIsListed(t: Tables, s: nat, hi: int)
    requires Consistent(t) && MinuteHasRows(t.minutes, s) && s < hi <= t.mark + MINUTE && hi % HOUR == 0
    ensures HourHasRows(t.hours, s)
  {
    hide Consistent, HourOf;
    var pair :| MinuteKey(s, pair) in t.minutes;
    MinuteBelowMark(t, MinuteKey(s, pair), hi);
    RolledMinuteHasRow(t.minutes, t.mark, MinuteKey(s, pair));
    assert t.hours == HoursOf(t.minutes, t.mark) by { ConsistentHours(t); }
  }

  lemma ConsistentHours(t: Tables)
    requires Consistent(t)
    ensures t.hours == HoursOf(t.minutes, t.mark)
  {
  }

  lemma RolledMinuteHasRow(minutes: Minutes, mark: int, mk: MinuteKey)
    requires mk in minutes && mk.bucket <= mark
    ensures HourKey(HourOf(mk.bucket), mk.pair) in HoursOf(minutes, mark)
  {
    hide Fold, HoursOf, MinuteAt;
    var h, end := HourOf(mk.bucket), RolledEnd(HourOf(mk.bucket) + HOUR, mark);
    FoldEmpty(minutes, mk.pair, h, end);
    assert h <= mk.bucket < end && MinuteKey(mk.bucket, mk.pair) == mk;
    HoursOfAt(minutes, mark, HourKey(h, mk.pair));
  }

  lemma MinuteBelowMark(t: Tables, mk: MinuteKey, hi: int)
    requires Consistent(t) && mk in t.minutes && mk.bucket < hi <= t.mark + MINUTE && hi % HOUR == 0
    ensures mk.bucket <= t.mark
  {
    hide HoursOf;
    HoursAreMinutes(hi);
    assert mk.bucket % MINUTE == 0;
    MinutesApart(mk.bucket, hi);
  }

  lemma {:induction false} SpansOfAt(pieces: seq<Piece>, i: nat)
    requires i < |pieces|
    ensures SpansOf(pieces)[i] == pieces[i].span
    decreases |pieces|
  {
    if i < |pieces| - 1 {
      SpansOfAt(pieces[..|pieces| - 1], i);
    }
  }

  lemma {:induction false} SpansAre(pieces: seq<Piece>, spans: seq<Span>)
    requires |pieces| == |spans|
    requires forall i :: 0 <= i < |spans| ==> pieces[i].span == spans[i]
    ensures SpansOf(pieces) == spans
  {
    forall i | 0 <= i < |spans|
      ensures SpansOf(pieces)[i] == spans[i]
    {
      SpansOfAt(pieces, i);
    }
  }

  lemma ClosedPieceHits(hours: seq<nat>, minutes: seq<Span>, t: int)
    ensures Hits(SpansOf(ClosedPieces(hours, minutes)), t) == Hits(HourSpans(hours), t) + Hits(minutes, t)
  {
    SpansAre(ClosedPieces(hours, minutes), HourSpans(hours) + minutes);
    HitsConcat(HourSpans(hours), minutes, t);
  }

  lemma SnapshotPieceHits(minutes: seq<Span>, hours: seq<Span>, t: int)
    ensures Hits(SpansOf(SnapshotPieces(minutes, hours)), t) == Hits(minutes, t) + Hits(hours, t)
  {
    SpansAre(SnapshotPieces(minutes, hours), minutes + hours);
    HitsConcat(minutes, hours, t);
  }

  lemma OpenPieceHits(hours: seq<Span>, cut: seq<Piece>, t: int)
    ensures Hits(SpansOf(HourPieces(hours) + cut), t) == Hits(hours, t) + Hits(SpansOf(cut), t)
  {
    SpansAre(HourPieces(hours), hours);
    SpansOfConcat(HourPieces(hours), cut);
    HitsConcat(hours, SpansOf(cut), t);
  }

  /** How the parts of a plan relate: later is what becomes of the open part. */
  lemma PlannedFromParts(t: Tables, start: int, end: int, plan: HourPlan,
                         closed: seq<Span>, openHours: seq<Span>, found: seq<nat>,
                         closedMinutes: seq<Span>, openMinutes: seq<Span>, later: seq<Piece>)
    requires Consistent(t) && PartitionsStored(plan, start, end)
    requires SameHits(closed, openHours, plan.hours) && SameHits(closedMinutes, openMinutes, plan.minutes)
    requires ListsHours(t.hours, closed, found) && Inside(found, closed)
    requires forall c :: c in closed ==> WholeHours(c) && c.hi <= t.mark + MINUTE
    requires forall m :: m in closedMinutes ==> t.mark >= 0 && m.hi <= t.mark + MINUTE
    requires forall p :: p in later ==> p.open && (p.hours ==> CoveredHours(p.span, t.mark))
    requires forall s :: Hits(SpansOf(later), s) <= Hits(openMinutes, s) + Hits(openHours, s)
    requires forall s :: MinuteHasRows(t.minutes, s) ==>
             Hits(SpansOf(later), s) == Hits(openMinutes, s) + Hits(openHours, s)
    ensures Planned(t, start, end, ClosedPieces(found, closedMinutes) + later)
  {
    var pieces := ClosedPieces(found, closedMinutes) + later;
    forall s: nat
      ensures Hits(SpansOf(pieces), s) <= if start <= s < end then 1 else 0
      ensures start <= s < end && MinuteHasRows(t.minutes, s) ==> Hits(SpansOf(pieces), s) == 1
    {
      hide Hits, SpansOf, ClosedPieces, HourSpans, ListsHours, MinuteHasRows, Consistent;
      SpansOfConcat(ClosedPieces(found, closedMinutes), later);
      HitsConcat(SpansOf(ClosedPieces(found, closedMinutes)), SpansOf(later), s);
      ClosedPieceHits(found, closedMinutes, s);
      ClosedRowsAreListed(t, closed, found, s);
    }
    forall p | p in pieces
      ensures PieceFits(t.mark, p)
    {
      hide Hits, SpansOf, HourSpans, ListsHours, MinuteHasRows, Consistent;
      if p !in later {
        var i :| 0 <= i < |ClosedPieces(found, closedMinutes)| && ClosedPieces(found, closedMinutes)[i] == p;
        if i < |found| {
          assert found[i] in found;
        } else {
          assert closedMinutes[i - |found|] in closedMinutes;
        }
      }
    }
  }

  /**
   readNodePairAggregates up to the end of its planning transaction: items
   are read later, rest is read on the planning snapshot.
   */
  method PlanGraphRead(t: Tables, start: int, end: int, parallelOpen: bool) returns (items: seq<Piece>,
                       rest: seq<Piece>)
    requires Consistent(t)
    ensures Planned(t, start, end, items + rest)
    ensures forall p :: p in rest ==> p.open
    ensures if parallelOpen then rest == [] else forall p :: p in items ==> !p.open
  {
    hide Consistent, PlanHoursThroughMark, HoursAreRolled, PartitionsStored, Planned, StartsASpan, EndsASpan,
        WholeRolledHours,
      NoRolledHour, CoveredHours, WholeHours, Hits, ListsHours, Inside, HoursOf, MinuteHasRows;
    TablesShape(t);
    var plan := PlanHoursThroughMark(start, end, t.mark);
    PlanThroughMarkPartitions(start, end, t.mark);
    PlanThroughMarkStored(start, end, t.mark);
    PlanSpansForward(start, end, t.mark);
    var closedRanges, openHours := SplitClosedHours(plan.hours, t.mark);
    SplitHoursFit(plan, t.mark, closedRanges, openHours);
    var found := ListRolledHours(t.hours, closedRanges);
    var closedMinutes, openMinutes := SplitClosedMinutes(plan.minutes, t.mark);
    items := ClosedPieces(found, closedMinutes);
    if parallelOpen {
      var clamped := ClampMinuteSpans(t.minutes, openMinutes);
      var open;
      ghost var cut;
      open, cut := OpenSpans(openHours, clamped);
      forall s
        ensures Hits(SpansOf(open), s) == Hits(openHours, s) + Hits(clamped, s)
      {
        OpenPieceHits(openHours, cut, s);
      }
      PlannedFromParts(t, start, end, plan, closedRanges, openHours, found, closedMinutes, openMinutes, open);
      items, rest := items + open, [];
      assert items + rest == items;
    } else {
      rest := SnapshotPieces(openMinutes, openHours);
      forall s
        ensures Hits(SpansOf(rest), s) == Hits(openMinutes, s) + Hits(openHours, s)
      {
        SnapshotPieceHits(openMinutes, openHours, s);
      }
      PlannedFromParts(t, start, end, plan, closedRanges, openHours, found, closedMinutes, openMinutes, rest);
    }
  }

  lemma TablesShape(t: Tables)
    requires Consistent(t)
    ensures ValidMark(t.mark) && HourAligned(t.hours)
  {
    forall hk | hk in t.hours
      ensures hk.hour % HOUR == 0
    {
      HoursOfAt(t.minutes, t.mark, hk);
    }
  }
}

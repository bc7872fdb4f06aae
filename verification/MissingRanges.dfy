/**
 The gap finder of the overview (missingAggregatedRanges in
 stats_overview.go): which parts of a window have no stored bucket.
 */
module MissingRanges {
  import opened GoInts
  import opened WindowPlan
  import opened PairGroups

  function ResolveBucketSize(rangeSeconds: int): (bs: int)
    ensures bs == 60 <==> rangeSeconds <= 7200
    ensures bs == 3600 <==> 7200 < rangeSeconds <= 172800
    ensures bs == 86400 <==> 172800 < rangeSeconds
  {
    if rangeSeconds <= 2 * HOUR then MINUTE
    else if rangeSeconds <= 48 * HOUR then HOUR
    else 24 * HOUR
  }

  /** Sorted, not empty, and with a gap between neighbours. */
  ghost predicate Separate(ranges: seq<Span>) {
    && (forall i :: 0 <= i < |ranges| ==> ranges[i].lo < ranges[i].hi)
    && (forall i, j :: 0 <= i < j < |ranges| ==> ranges[i].hi < ranges[j].lo)
  }

  /** Exactly the seconds whose aggregated bucket, as the queries group rows, is not covered. */
  ghost predicate ExactGaps(ranges: seq<Span>, covered: set<int>, start: int, end: int) {
    var bs := ResolveBucketSize(end - start);
    forall t :: InSpans(ranges, t) <==> start <= t < end && TruncTo(t, bs) !in covered
  }

  /** The segments of the loop: bucket b stands for [b, b + bs), from the first bucket on. */
  ghost predicate LoopGaps(ranges: seq<Span>, covered: set<int>, start: int, end: int) {
    var bs := ResolveBucketSize(end - start);
    && Separate(ranges)
    && forall t :: InSpans(ranges, t) <==> start <= t < end && TruncTo(start, bs) <= t && t - t % bs !in covered
  }

  method MissingAggregatedRanges(covered: set<int>, start: int, end: int) returns (ranges: seq<Span>)
    ensures LoopGaps(ranges, covered, start, end)
  {
    ranges := [];
    if start >= end {
      return;
    }
    var bs := ResolveBucketSize(end - start);
    var first, last := TruncTo(start, bs), TruncTo(end - 1, bs);
    TruncToBounds(start, bs);
    TruncToBounds(end - 1, bs);
    var open: Option<Span> := None;
    var b := first;
    hide TruncTo, GapsTo, LoopGaps, ResolveBucketSize;
    NoGapsYet(covered, start, end, first, bs);
    while b <= last
      invariant b % bs == 0 && first <= b
      invariant GapsTo(Closing(ranges, open), covered, start, end, first, b, bs)
      invariant open.None? ==> forall r :: r in ranges ==> r.hi < b
      invariant open.Some? ==> open.value.hi == Lower(b, end)
      decreases last - b
    {
      var segStart := if b < start then start else b;
      var segEnd := if b + bs > end then end else b + bs;
      if segStart < segEnd {
        if b in covered {
          NoGap(Closing(ranges, open), covered, start, end, first, b, bs);
          if open.Some? {
            ranges := ranges + [open.value];
            open := None;
          }
        } else if open.None? {
          NewGap(ranges, covered, start, end, first, b, bs);
          open := Some(Span(segStart, segEnd));
        } else {
          LongerGap(ranges, open.value, covered, start, end, first, b, bs);
          open := Some(Span(open.value.lo, segEnd));
        }
      } else {
        NoGap(Closing(ranges, open), covered, start, end, first, b, bs);
      }
      NextBucket(b, bs);
      b := b + bs;
    }
    if open.Some? {
      ranges := ranges + [open.value];
    }
    AllGaps(ranges, covered, start, end, b);
  }

  /** The ranges with the open one closed. */
  function Closing(ranges: seq<Span>, open: Option<Span>): seq<Span> {
    if open.Some? then ranges + [open.value] else ranges
  }

  function Lower(a: int, b: int): int {
    if a < b then a else b
  }

  /** The gaps of the segments before b. */
  ghost predicate GapsTo(ranges: seq<Span>, covered: set<int>, start: int, end: int, first: int, b: int, bs: int)
    requires bs > 0
  {
    && Separate(ranges)
    && (forall r :: r in ranges ==> r.hi <= b && r.hi <= end)
    && forall t :: InSpans(ranges, t) <==> start <= t < end && first <= t < b && t - t % bs !in covered
  }

  lemma NoGapsYet(covered: set<int>, start: int, end: int, first: int, bs: int)
    requires bs > 0
    ensures GapsTo(Closing([], None), covered, start, end, first, first, bs)
  {
  }

  lemma NextBucket(b: int, bs: int)
    requires bs > 0 && b % bs == 0
    ensures (b + bs) % bs == 0
  {
    QuotientUnique(b + bs, bs, b / bs + 1, 0);
  }

  /** Every second of a segment is in the segment's bucket. */
  lemma SegmentBucket(b: int, bs: int, t: int)
    requires bs > 0 && b % bs == 0 && b <= t < b + bs
    ensures t - t % bs == b
  {
    QuotientUnique(t, bs, b / bs, t - b);
  }

  lemma InSomeSnoc(ranges: seq<Span>, r: Span, t: int)
    ensures InSpans(ranges + [r], t) <==> InSpans(ranges, t) || Holds(r, t)
  {
    if InSpans(ranges, t) {
      var i :| 0 <= i < |ranges| && Holds(ranges[i], t);
      assert Holds((ranges + [r])[i], t);
    }
    if Holds(r, t) {
      assert Holds((ranges + [r])[|ranges|], t);
    }
  }

  /** A covered or empty segment adds nothing. */
  lemma NoGap(all: seq<Span>, covered: set<int>, start: int, end: int, first: int, b: int, bs: int)
    requires bs > 0 && b % bs == 0 && first <= b && GapsTo(all, covered, start, end, first, b, bs)
    requires b in covered || Larger(b, start) >= Lower(b + bs, end)
    ensures GapsTo(all, covered, start, end, first, b + bs, bs)
  {
    forall t | b <= t < b + bs
      ensures start <= t < end ==> t - t % bs in covered
    {
      SegmentBucket(b, bs, t);
    }
  }

  lemma NewGap(ranges: seq<Span>, covered: set<int>, start: int, end: int, first: int, b: int, bs: int)
    requires bs > 0 && b % bs == 0 && first <= b && GapsTo(ranges, covered, start, end, first, b, bs)
    requires b !in covered && Larger(b, start) < Lower(b + bs, end)
    requires forall r :: r in ranges ==> r.hi < b
    ensures GapsTo(ranges + [Span(Larger(b, start), Lower(b + bs, end))], covered, start, end, first, b + bs, bs)
  {
    var r := Span(Larger(b, start), Lower(b + bs, end));
    forall t
      ensures InSpans(ranges + [r], t) <==> start <= t < end && first <= t < b + bs && t - t % bs !in covered
    {
      InSomeSnoc(ranges, r, t);
      if b <= t < b + bs {
        SegmentBucket(b, bs, t);
      }
    }
    assert forall i :: 0 <= i < |ranges| ==> ranges[i] in ranges;
  }

  lemma LongerGap(ranges: seq<Span>, open: Span, covered: set<int>, start: int, end: int, first: int, b: int, bs: int)
    requires bs > 0 && b % bs == 0 && first <= b && GapsTo(ranges + [open], covered, start, end, first, b, bs)
    requires b !in covered && Larger(b, start) < Lower(b + bs, end) && open.hi == Lower(b, end)
    ensures GapsTo(ranges + [Span(open.lo, Lower(b + bs, end))], covered, start, end, first, b + bs, bs)
  {
    var all := ranges + [open];
    var r := Span(open.lo, Lower(b + bs, end));
    assert all[|ranges|] == open;
    assert open.lo < open.hi;
    InSomeSnoc(ranges, open, open.hi - 1);
    assert open.hi == b && start <= b;
    forall t
      ensures InSpans(ranges + [r], t) <==> start <= t < end && first <= t < b + bs && t - t % bs !in covered
    {
      InSomeSnoc(ranges, r, t);
      InSomeSnoc(ranges, open, t);
      if b <= t < b + bs {
        SegmentBucket(b, bs, t);
      }
    }
    var next := ranges + [r];
    forall i | 0 <= i < |next|
      ensures next[i].lo < next[i].hi <= b + bs && next[i].hi <= end
      ensures forall j :: i < j < |next| ==> next[i].hi < next[j].lo
    {
      assert all[i] in all;
      assert i < |ranges| ==> next[i] == all[i];
      forall j | i < j < |next|
        ensures next[i].hi < next[j].lo
      {
        assert all[i].hi < all[j].lo && all[j].lo == next[j].lo;
      }
    }
  }

  /** Past the last bucket every second of the window has been looked at. */
  lemma AllGaps(ranges: seq<Span>, covered: set<int>, start: int, end: int, b: int)
    requires start < end
    requires var bs := ResolveBucketSize(end - start);
             GapsTo(ranges, covered, start, end, TruncTo(start, bs), b, bs) && b > TruncTo(end - 1, bs) && b % bs == 0
    ensures LoopGaps(ranges, covered, start, end)
  {
    var bs := ResolveBucketSize(end - start);
    TruncToBounds(end - 1, bs);
    if end - 1 >= 0 {
      NextMultiple(TruncTo(end - 1, bs), b, bs);
    }
    assert b >= end;
  }

  lemma NextMultiple(a: int, b: int, bs: int)
    requires bs > 0 && a % bs == 0 && b % bs == 0 && a < b
    ensures a + bs <= b
  {
    var x, y := a / bs, b / bs;
    assert a == x * bs && b == y * bs;
    assert (y - x) * bs == y * bs - x * bs;
    GapIsAStep(y - x, bs);
  }

  // ---- Exactness.

  /**
   The answer is the exact set of seconds whose aggregated bucket is missing,
   whatever buckets are stored, exactly for windows that start at or after
   1970, and for a one-second window on a bucket boundary before it.
   */
  predicate ExactFor(start: int, end: int) {
    start >= 0 || (start % ResolveBucketSize(end - start) == 0 && end == start + 1)
  }

  lemma FromEpochIsExact(ranges: seq<Span>, covered: set<int>, start: int, end: int)
    requires start < end && ExactFor(start, end) && LoopGaps(ranges, covered, start, end)
    ensures ExactGaps(ranges, covered, start, end)
  {
    var bs := ResolveBucketSize(end - start);
    TruncToBounds(start, bs);
    forall t | start <= t < end
      ensures TruncTo(t, bs) == t - t % bs
    {
      if t >= 0 {
        FloorBounds(t, bs);
      } else {
        TruncToBounds(t, bs);
      }
    }
  }

  lemma BeforeEpochIsNot(start: int, end: int)
    requires start < end && !ExactFor(start, end)
    ensures exists covered: set<int>, ranges: seq<Span> ::
            LoopGaps(ranges, covered, start, end) && !ExactGaps(ranges, covered, start, end)
  {
    var bs := ResolveBucketSize(end - start);
    TruncToBounds(start, bs);
    var first := TruncTo(start, bs);
    if start % bs != 0 {
      var ranges := if first < end then [Span(first, end)] else [];
      assert !InSpans(ranges, start);
      forall t | first <= t < end
        ensures InSpans(ranges, t)
      {
        assert Holds(ranges[0], t);
      }
      assert LoopGaps(ranges, {}, start, end);
      assert !ExactGaps(ranges, {}, start, end);
    } else {
      OneCovered(start, end);
    }
  }

  /** Second start + 1 belongs to the bucket after start, but the loop looks start up for it. */
  lemma OneCovered(start: int, end: int)
    requires start < 0 && start + 1 < end && start % ResolveBucketSize(end - start) == 0
    ensures exists covered: set<int>, ranges: seq<Span> ::
            LoopGaps(ranges, covered, start, end) && !ExactGaps(ranges, covered, start, end)
  {
    var bs := ResolveBucketSize(end - start);
    var ranges := if start + bs < end then [Span(start + bs, end)] else [];
    TruncToBounds(start, bs);
    TruncToBounds(start + 1, bs);
    assert TruncTo(start + 1, bs) != start;
    assert !InSpans(ranges, start + 1);
    forall t | start <= t < end
      ensures t - t % bs == start <==> t < start + bs
    {
      if t < start + bs {
        SegmentBucket(start, bs, t);
      } else {
        assert 0 <= t % bs < bs;
      }
    }
    forall t
      ensures InSpans(ranges, t) <==> start <= t < end && start <= t && t - t % bs !in {start}
    {
      if start + bs <= t < end {
        assert Holds(ranges[0], t);
      }
    }
    assert LoopGaps(ranges, {start}, start, end);
    assert !ExactGaps(ranges, {start}, start, end);
  }

  lemma GapsExactExactlyWhen(start: int, end: int)
    requires start < end
    ensures ExactFor(start, end) <==>
            forall covered: set<int>, ranges: seq<Span> :: LoopGaps(ranges, covered, start, end) ==>
                ExactGaps(ranges, covered, start, end)
  {
    hide LoopGaps, ExactGaps;
    if ExactFor(start, end) {
      forall covered: set<int>, ranges: seq<Span> | LoopGaps(ranges, covered, start, end)
        ensures ExactGaps(ranges, covered, start, end)
      {
        FromEpochIsExact(ranges, covered, start, end);
      }
    } else {
      BeforeEpochIsNot(start, end);
    }
  }
}

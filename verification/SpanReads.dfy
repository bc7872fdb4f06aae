/**
 What the work items of a read add up to. Items may be read on different
 snapshots and in any order; as long as every second of the window is held by
 one item, the merged result is one scan of the minutes, each minute taken
 from the snapshot of the item that held it.
 */
module SpanReads {
  import opened GoInts
  import opened PairGroups
  import opened HourRollup
  import opened RollupStore
  import opened WindowPlan
  import opened SpanSplit

  /** The hour rows of a pair with bucket in [lo, hi), merged as scanned. */
  function HourScan(hours: Hours, pair: PairKey, lo: int, hi: int): Counters
    decreases hi - lo
  {
    if hi <= lo then EMPTY
    else Merge(HourScan(hours, pair, lo, hi - 1), if hi - 1 >= 0 then HourAt(hours, HourKey(hi - 1, pair)) else EMPTY)
  }

  lemma {:induction false} HourScanSplit(hours: Hours, pair: PairKey, lo: int, mid: int, hi: int)
    requires lo <= mid <= hi
    ensures HourScan(hours, pair, lo, hi) == Merge(HourScan(hours, pair, lo, mid), HourScan(hours, pair, mid, hi))
    decreases hi - mid
  {
    hide Merge;
    if mid == hi {
      MergeEmpty(HourScan(hours, pair, lo, mid));
    } else {
      HourScanSplit(hours, pair, lo, mid, hi - 1);
      MergeAssoc(HourScan(hours, pair, lo, mid), HourScan(hours, pair, mid, hi - 1),
                 if hi - 1 >= 0 then HourAt(hours, HourKey(hi - 1, pair)) else EMPTY);
    }
  }

  /** Only the row on the boundary counts inside one hour. */
  lemma {:induction false} HourScanOne(t: Tables, pair: PairKey, h: int, hi: int)
    requires Consistent(t) && h % HOUR == 0 && h < hi <= h + HOUR
    ensures HourScan(t.hours, pair, h, hi) == if h >= 0 then HourAt(t.hours, HourKey(h, pair)) else EMPTY
    decreases hi - h
  {
    hide Merge, HoursOf;
    if hi == h + 1 {
      MergeEmpty(if h >= 0 then HourAt(t.hours, HourKey(h, pair)) else EMPTY);
    } else {
      HourScanOne(t, pair, h, hi - 1);
      if hi - 1 >= 0 {
        HoursOfAt(t.minutes, t.mark, HourKey(hi - 1, pair));
      }
      MergeEmpty(HourScan(t.hours, pair, h, hi - 1));
    }
  }

  /** An hour range the mark covers: whole hours, or whole hours and the filling one up to the mark. */
  predicate CoveredHours(s: Span, mark: int) {
    s.lo % HOUR == 0 && s.lo <= s.hi
    && ((mark >= 0 && s.hi <= mark + MINUTE) || s.hi <= 0)
    && (s.hi % HOUR == 0 || (mark >= 0 && s.hi == mark + MINUTE))
  }

  /** Under the rollup invariant, scanning covered hour rows is scanning their minutes. */
  lemma {:induction false} HourScanIsFold(t: Tables, pair: PairKey, s: Span)
    requires Consistent(t) && CoveredHours(s, t.mark)
    ensures HourScan(t.hours, pair, s.lo, s.hi) == Fold(t.minutes, pair, s.lo, s.hi)
    decreases s.hi - s.lo
  {
    hide Merge, HoursOf, Fold, HourScan, CoveredHours, Consistent, LastHourOf;
    if s.lo < s.hi {
      LastHourCovered(s, t.mark);
      var h := LastHourOf(s.lo, s.hi);
      HourScanIsFold(t, pair, Span(s.lo, h));
      HourScanSplit(t.hours, pair, s.lo, h, s.hi);
      FoldSplit(t.minutes, pair, s.lo, h, s.hi);
      LastHourIsFold(t, pair, s, h);
    } else {
      EmptyScans(t, pair, s.lo, s.hi);
    }
  }

  /** What is left of a covered range before its last hour is covered, too. */
  lemma LastHourCovered(s: Span, mark: int)
    requires CoveredHours(s, mark) && s.lo < s.hi
    ensures var h := LastHourOf(s.lo, s.hi);
            s.lo % HOUR == 0 && h % HOUR == 0 && s.lo <= h < s.hi <= h + HOUR
            && CoveredHours(Span(s.lo, h), mark)
            && (s.hi == h + HOUR || s.hi == mark + MINUTE)
            && ((mark >= 0 && s.hi <= mark + MINUTE) || s.hi <= 0)
  {
    var h := LastHourOf(s.lo, s.hi);
    if s.hi % HOUR == 0 {
      HoursApart(h, s.hi);
    }
  }

  lemma LastHourIsFold(t: Tables, pair: PairKey, s: Span, h: int)
    requires Consistent(t) && h % HOUR == 0 && h < s.hi <= h + HOUR
    requires (t.mark >= 0 && s.hi <= t.mark + MINUTE) || s.hi <= 0
    requires s.hi == h + HOUR || s.hi == t.mark + MINUTE
    ensures HourScan(t.hours, pair, h, s.hi) == Fold(t.minutes, pair, h, s.hi)
  {
    hide Merge, HoursOf, Fold, HourScan;
    HourScanOne(t, pair, h, s.hi);
    if h >= 0 {
      HourAtIsRolled(t.minutes, t.mark, HourKey(h, pair));
      LastRowIsFold(t, pair, h, s.hi);
    } else {
      HoursApartFromZero(h);
      FoldNone(t.minutes, pair, h, s.hi);
    }
  }

  lemma HoursApartFromZero(h: int)
    requires h % HOUR == 0 && h < 0
    ensures h + HOUR <= 0
  {
    HoursApart(h, 0);
  }

  lemma EmptyScans(t: Tables, pair: PairKey, lo: int, hi: int)
    requires hi <= lo
    ensures HourScan(t.hours, pair, lo, hi) == EMPTY == Fold(t.minutes, pair, lo, hi)
  {
  }

  lemma LastRowIsFold(t: Tables, pair: PairKey, h: nat, hi: int)
    requires Consistent(t) && h % HOUR == 0 && h < hi <= h + HOUR && t.mark >= 0 && hi <= t.mark + MINUTE
    requires hi == h + HOUR || hi == t.mark + MINUTE
    ensures Rolled(t.minutes, t.mark, HourKey(h, pair)) == Fold(t.minutes, pair, h, hi)
  {
    hide Merge, HoursOf, Fold, Consistent;
    var end := RolledEnd(h + HOUR, t.mark);
    forall b: nat | end <= b < hi
      ensures MinuteKey(b, pair) !in t.minutes
    {
      NoneAfterMark(t, pair, b);
    }
    assert end <= hi;
    FoldExtend(t.minutes, pair, h, end, hi);
  }

  /** The start of the last, possibly partial, hour of a range. */
  function LastHourOf(lo: int, hi: int): (h: int)
    requires lo % HOUR == 0 && lo < hi
    ensures h % HOUR == 0 && lo <= h < hi <= h + HOUR
  {
    var d := hi - 1 - lo;
    lo + (d / HOUR) * HOUR
  }

  // ---- Adding up work items.

  function Times(n: nat, x: Counters): Counters {
    if n == 0 then EMPTY else Merge(Times(n - 1, x), x)
  }

  /** The minutes of [lo, hi), each counted once per span that holds it. */
  function Weighted(minutes: Minutes, pair: PairKey, lo: int, hi: int, spans: seq<Span>): Counters
    decreases hi - lo
  {
    if hi <= lo then EMPTY
    else Merge(Weighted(minutes, pair, lo, hi - 1, spans), Times(Hits(spans, hi - 1), MinuteAt(minutes, pair, hi - 1)))
  }

  function Least(a: int, b: int): int {
    if a < b then a else b
  }

  lemma Merge4(a: Counters, b: Counters, c: Counters, d: Counters)
    ensures Merge(Merge(a, b), Merge(c, d)) == Merge(Merge(a, c), Merge(b, d))
  {
    hide Merge;
    MergeAssoc(a, b, Merge(c, d));
    MergeAssoc(b, c, d);
    MergeComm(b, c);
    MergeAssoc(c, b, d);
    MergeAssoc(a, c, Merge(b, d));
  }

  lemma {:induction false} WeightedSnoc(minutes: Minutes, pair: PairKey, lo: int, hi: int, spans: seq<Span>, s: Span)
    requires lo <= s.lo
    ensures Weighted(minutes, pair, lo, hi, spans + [s])
         == Merge(Weighted(minutes, pair, lo, hi, spans), Fold(minutes, pair, s.lo, Least(hi, s.hi)))
    decreases hi - lo
  {
    hide Merge, Hits;
    if hi <= lo {
      FoldBeyond(minutes, pair, s.lo, Least(hi, s.hi));
      MergeEmpty(EMPTY);
    } else {
      WeightedSnoc(minutes, pair, lo, hi - 1, spans, s);
      HitsSnoc(spans, s, hi - 1);
      var w, x, n := Weighted(minutes, pair, lo, hi - 1, spans), MinuteAt(minutes, pair, hi - 1), Hits(spans, hi - 1);
      var f := Fold(minutes, pair, s.lo, Least(hi - 1, s.hi));
      if Holds(s, hi - 1) {
        assert Fold(minutes, pair, s.lo, hi) == Merge(f, x);
        Merge4(w, f, Times(n, x), x);
      } else {
        FoldSameEnd(minutes, pair, s, hi);
        MergeSwap(w, Times(n, x), f);
      }
    }
  }

  lemma FoldBeyond(minutes: Minutes, pair: PairKey, lo: int, hi: int)
    requires hi <= lo
    ensures Fold(minutes, pair, lo, hi) == EMPTY
  {
  }

  lemma FoldSameEnd(minutes: Minutes, pair: PairKey, s: Span, hi: int)
    requires !Holds(s, hi - 1)
    ensures Fold(minutes, pair, s.lo, Least(hi, s.hi)) == Fold(minutes, pair, s.lo, Least(hi - 1, s.hi))
  {
    if hi - 1 < s.lo {
      FoldBeyond(minutes, pair, s.lo, Least(hi, s.hi));
      FoldBeyond(minutes, pair, s.lo, Least(hi - 1, s.hi));
    }
  }

  /** Every stored minute of the window is held by one span, every other stored minute by none. */
  ghost predicate CountsOnce(minutes: Minutes, pair: PairKey, lo: int, hi: int, spans: seq<Span>) {
    forall t :: MinuteAt(minutes, pair, t) != EMPTY ==> Hits(spans, t) == if lo <= t < hi then 1 else 0
  }

  lemma {:induction false} TimesEmpty(n: nat)
    ensures Times(n, EMPTY) == EMPTY
  {
    if n > 0 {
      TimesEmpty(n - 1);
      MergeEmpty(EMPTY);
    }
  }

  lemma {:induction false} WeightedOnce(minutes: Minutes, pair: PairKey, wlo: int, whi: int, lo: int, hi: int,
                                        spans: seq<Span>)
    requires CountsOnce(minutes, pair, lo, hi, spans) && wlo <= lo
    ensures Weighted(minutes, pair, wlo, whi, spans) == Fold(minutes, pair, lo, Least(hi, whi))
    decreases whi - wlo
  {
    hide Merge, MinuteAt, Hits;
    if wlo < whi {
      WeightedOnce(minutes, pair, wlo, whi - 1, lo, hi, spans);
      var x, n := MinuteAt(minutes, pair, whi - 1), Hits(spans, whi - 1);
      var f := Fold(minutes, pair, lo, Least(hi, whi - 1));
      if lo <= whi - 1 < hi {
        assert Times(1, x) == Merge(Times(0, x), x);
        MergeEmpty(x);
        if x == EMPTY {
          TimesEmpty(n);
        }
      } else {
        FoldSameEnd(minutes, pair, Span(lo, hi), whi);
        if x == EMPTY {
          TimesEmpty(n);
        }
        MergeEmpty(f);
      }
    } else {
      FoldBeyond(minutes, pair, lo, Least(hi, whi));
    }
  }

  function MergeAll(values: seq<Counters>): Counters {
    if values == [] then EMPTY else Merge(MergeAll(values[..|values| - 1]), values[|values| - 1])
  }

  ghost predicate Within(spans: seq<Span>, lo: int, hi: int) {
    forall s :: s in spans && s.lo < s.hi ==> lo <= s.lo && s.hi <= hi
  }

  lemma {:induction false} FoldsAddUp(minutes: Minutes, pair: PairKey, lo: int, hi: int, spans: seq<Span>,
                                      values: seq<Counters>)
    requires |values| == |spans| && Within(spans, lo, hi)
    requires forall i :: 0 <= i < |spans| ==> values[i] == Fold(minutes, pair, spans[i].lo, spans[i].hi)
    ensures MergeAll(values) == Weighted(minutes, pair, lo, hi, spans)
    decreases |spans|
  {
    hide Merge, Fold, Weighted;
    if spans == [] {
      WeightedNone(minutes, pair, lo, hi);
    } else {
      var n := |spans| - 1;
      var s := spans[n];
      FoldsAddUp(minutes, pair, lo, hi, spans[..n], values[..n]);
      assert spans == spans[..n] + [s];
      if s.lo < s.hi {
        assert s in spans;
        WeightedSnoc(minutes, pair, lo, hi, spans[..n], s);
        assert Least(hi, s.hi) == s.hi;
      } else {
        WeightedSkip(minutes, pair, lo, hi, spans[..n], s);
        FoldBeyond(minutes, pair, s.lo, s.hi);
        MergeEmpty(MergeAll(values[..n]));
      }
    }
  }

  lemma {:induction false} WeightedNone(minutes: Minutes, pair: PairKey, lo: int, hi: int)
    ensures Weighted(minutes, pair, lo, hi, []) == EMPTY
    decreases hi - lo
  {
    hide Merge;
    MergeEmpty(EMPTY);
    if lo < hi {
      WeightedNone(minutes, pair, lo, hi - 1);
      assert Times(0, MinuteAt(minutes, pair, hi - 1)) == EMPTY;
    }
  }

  lemma {:induction false} WeightedSkip(minutes: Minutes, pair: PairKey, lo: int, hi: int, spans: seq<Span>, s: Span)
    requires s.hi <= s.lo
    ensures Weighted(minutes, pair, lo, hi, spans + [s]) == Weighted(minutes, pair, lo, hi, spans)
    decreases hi - lo
  {
    hide Merge, Hits;
    if lo < hi {
      WeightedSkip(minutes, pair, lo, hi - 1, spans, s);
      HitsSnoc(spans, s, hi - 1);
    }
  }

  function LowEnd(spans: seq<Span>, lo: int): (r: int)
    ensures r <= lo && forall s :: s in spans ==> r <= s.lo
  {
    if spans == [] then lo else Least(spans[|spans| - 1].lo, LowEnd(spans[..|spans| - 1], lo))
  }

  function HighEnd(spans: seq<Span>, hi: int): (r: int)
    ensures hi <= r && forall s :: s in spans ==> s.hi <= r
  {
    if spans == [] then hi else Larger(spans[|spans| - 1].hi, HighEnd(spans[..|spans| - 1], hi))
  }

  /** The items of one window, all read on one table of minutes, add up to one scan of it. */
  lemma PiecesAddUp(minutes: Minutes, pair: PairKey, lo: int, hi: int, spans: seq<Span>, values: seq<Counters>)
    requires |values| == |spans|
    requires forall i :: 0 <= i < |spans| ==> values[i] == Fold(minutes, pair, spans[i].lo, spans[i].hi)
    requires CountsOnce(minutes, pair, lo, hi, spans)
    ensures MergeAll(values) == Fold(minutes, pair, lo, hi)
  {
    hide Fold, Merge, Weighted;
    var from, until := LowEnd(spans, lo), HighEnd(spans, hi);
    FoldsAddUp(minutes, pair, from, until, spans, values);
    WeightedOnce(minutes, pair, from, until, lo, hi, spans);
    assert Least(hi, until) == hi;
  }
}

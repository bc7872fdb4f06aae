/**
 The concurrent graph read (GetNodePairAggregates) as a record over a history of
 the store: when it loaded the commit counters, when it planned, and when and from
 where it read each item, with commits, invalidations and fills in between.
 */
module GraphRead {
  import opened GoInts
  import opened PairGroups
  import opened HourRollup
  import opened RollupStore
  import opened WindowPlan
  import opened SpanSplit
  import opened SpanReads
  import opened ClosedHours
  import opened ClosedHourCache
  import opened CommitSeq
  import opened StoreWorld
  import opened GraphPlan

  /** One work item: read from the tables at moment `at`, or taken from the cache then. */
  datatype ItemRead = ItemRead(piece: Piece, at: nat, cached: bool)

  datatype Read = Read(
    tailnet: string, start: int, end: int,
    finishedAt: nat, startedAt: nat,   // the two loads of quiet()
    plannedAt: nat,                    // the planning snapshot
    items: seq<ItemRead>,
    checkedAt: nat,                    // unchangedSince, after every item
    parallel: bool)                    // open items are read in parallel, too

  function PiecesOf(items: seq<ItemRead>): (pieces: seq<Piece>)
    ensures |pieces| == |items|
    ensures forall i :: 0 <= i < |items| ==> pieces[i] == items[i].piece
  {
    seq(|items|, i requires 0 <= i < |items| => items[i].piece)
  }

  function KeyFor(tailnet: string, p: Piece): HourCacheKey {
    HourCacheKey(tailnet, if p.span.lo >= 0 then p.span.lo else 0)
  }

  /** The partial group one item contributes for one pair. */
  function ItemValue(w: World, tailnet: string, r: ItemRead, pair: PairKey): Counters {
    if r.cached then
      GroupAt(if KeyFor(tailnet, r.piece) in w.cache.entries then w.cache.entries[KeyFor(tailnet, r.piece)]
          else map[], pair)
    else if r.piece.hours then HourScan(Db(w, tailnet).hours, pair, r.piece.span.lo, r.piece.span.hi)
    else Fold(Db(w, tailnet).minutes, pair, r.piece.span.lo, r.piece.span.hi)
  }

  function ItemValues(ws: seq<World>, r: Read, pair: PairKey): (values: seq<Counters>)
    requires forall i :: 0 <= i < |r.items| ==> r.items[i].at < |ws|
    ensures |values| == |r.items|
  {
    seq(|r.items|, i requires 0 <= i < |r.items| => ItemValue(ws[r.items[i].at], r.tailnet, r.items[i], pair))
  }

  ghost predicate ItemFits(ws: seq<World>, r: Read, item: ItemRead) {
    && r.plannedAt <= item.at <= r.checkedAt < |ws|
    && (item.cached ==>
        item.piece.hours && !item.piece.open && KeyFor(r.tailnet, item.piece) in ws[item.at].cache.entries)
    && (item.piece.open && !r.parallel ==> item.at == r.plannedAt)
  }

  /** A read that finished without errSnapshotMoved. */
  ghost predicate IsRead(ws: seq<World>, r: Read) {
    && r.finishedAt <= r.startedAt <= r.plannedAt <= r.checkedAt < |ws|
    && Planned(Db(ws[r.plannedAt], r.tailnet), r.start, r.end, PiecesOf(r.items))
    && (forall i :: 0 <= i < |r.items| ==> ItemFits(ws, r, r.items[i]))
    && (r.parallel ==>
          SeqOf(ws[r.startedAt], r.tailnet).started == SeqOf(ws[r.finishedAt], r.tailnet).finished
          && SeqOf(ws[r.checkedAt], r.tailnet).started == SeqOf(ws[r.startedAt], r.tailnet).started)
  }

  // ---- A history, seen from one tailnet.

  lemma {:induction false} VersionsGrow(ws: seq<World>, hs: seq<Happening>, i: nat, j: nat, tailnet: string)
    requires IsHistory(ws, hs) && i <= j < |ws|
    ensures Versions(ws[i], tailnet) <= Versions(ws[j], tailnet)
    ensures Db(ws[i], tailnet).mark <= Db(ws[j], tailnet).mark
    decreases j - i
  {
    hide Does, Versions, Consistent, Apply;
    if i < j {
      VersionsGrow(ws, hs, i, j - 1, tailnet);
      OneStep(ws[j - 1], hs[j - 1], ws[j], tailnet);
    }
  }

  lemma OneStep(w: World, h: Happening, w': World, tailnet: string)
    requires Sound(w) && Does(w, h, w')
    ensures Versions(w, tailnet) <= Versions(w', tailnet)
    ensures Db(w, tailnet).mark <= Db(w', tailnet).mark
    ensures Next(SeqOf(w, tailnet), SeqOf(w', tailnet))
  {
    Landed(w, h, w', tailnet);
    assert Next(SeqOf(w, tailnet), SeqOf(w', tailnet)) by {
      if SeqOf(w', tailnet) != SeqOf(w, tailnet) {
        assert Possible(SeqOf(w, tailnet), h.step);
        assert Step(SeqOf(w, tailnet), h.step) == SeqOf(w', tailnet);
      }
    }
  }

  ghost function SeqRun(ws: seq<World>, tailnet: string): (run: seq<Seq>)
    ensures |run| == |ws| && forall i :: 0 <= i < |ws| ==> run[i] == SeqOf(ws[i], tailnet)
  {
    seq(|ws|, i requires 0 <= i < |ws| => SeqOf(ws[i], tailnet))
  }

  lemma SeqRunIsRun(ws: seq<World>, hs: seq<Happening>, tailnet: string)
    requires IsHistory(ws, hs)
    ensures IsRun(SeqRun(ws, tailnet))
  {
    var run := SeqRun(ws, tailnet);
    forall i | 0 <= i < |run| - 1
      ensures Next(run[i], run[i + 1])
    {
      hide Does, Next;
      assert Does(ws[i], hs[i], ws[i + 1]);
      OneStep(ws[i], hs[i], ws[i + 1], tailnet);
    }
  }

  /** A kept parallel read saw one version from the plan to the check. */
  lemma ParallelReadIsStable(ws: seq<World>, hs: seq<Happening>, r: Read, k: nat)
    requires IsHistory(ws, hs) && IsRead(ws, r) && r.parallel && r.plannedAt <= k <= r.checkedAt
    ensures Versions(ws[k], r.tailnet) == Versions(ws[r.plannedAt], r.tailnet)
    ensures Db(ws[k], r.tailnet) == Db(ws[r.plannedAt], r.tailnet)
  {
    var run := SeqRun(ws, r.tailnet);
    SeqRunIsRun(ws, hs, r.tailnet);
    QuietReadIsStable(run, r.finishedAt, r.startedAt, r.checkedAt);
    assert run[k].commits == run[r.plannedAt].commits;
    CommitsAreVersions(ws, hs, k, r.tailnet);
    CommitsAreVersions(ws, hs, r.plannedAt, r.tailnet);
    VersionsGrow(ws, hs, r.plannedAt, k, r.tailnet);
  }

  lemma CommitsAreVersions(ws: seq<World>, hs: seq<Happening>, i: nat, tailnet: string)
    requires IsHistory(ws, hs) && i < |ws|
    ensures SeqOf(ws[i], tailnet).commits == |Versions(ws[i], tailnet)| - 1
    ensures Sound(ws[i])
  {
    HistoryInv(ws, hs, i);
  }

  // ---- What one item shows.

  /** t is a committed version at moment k whose minutes are what the item shows, for every pair. */
  ghost predicate Shows(ws: seq<World>, k: nat, tailnet: string, item: ItemRead, t: Tables)
    requires k < |ws| && item.at < |ws|
  {
    && t in Versions(ws[k], tailnet)
    && forall pair :: ItemValue(ws[item.at], tailnet, item, pair)
        == Fold(t.minutes, pair, item.piece.span.lo, item.piece.span.hi)
  }

  lemma DbIsVersion(ws: seq<World>, hs: seq<Happening>, i: nat, k: nat, tailnet: string)
    requires IsHistory(ws, hs) && i <= k < |ws|
    ensures Db(ws[i], tailnet) in Versions(ws[k], tailnet) && Consistent(Db(ws[i], tailnet))
  {
    VersionsGrow(ws, hs, i, k, tailnet);
    CommitsAreVersions(ws, hs, i, tailnet);
    var v := |Versions(ws[i], tailnet)| - 1;
    assert Versions(ws[k], tailnet)[v] == Versions(ws[i], tailnet)[v];
  }

  lemma DatabaseItemShows(ws: seq<World>, hs: seq<Happening>, r: Read, item: ItemRead)
    requires IsHistory(ws, hs) && IsRead(ws, r) && item in r.items && !item.cached
    ensures Shows(ws, r.checkedAt, r.tailnet, item, Db(ws[item.at], r.tailnet))
  {
    hide IsHistory, Consistent, Planned, Versions, HourScan, Fold, Db;
    var t := Db(ws[item.at], r.tailnet);
    var i :| 0 <= i < |r.items| && r.items[i] == item;
    DbIsVersion(ws, hs, item.at, r.checkedAt, r.tailnet);
    VersionsGrow(ws, hs, r.plannedAt, item.at, r.tailnet);
    PlannedPieceFits(ws, r, i);
    if item.piece.hours {
      if item.piece.open && r.parallel {
        ParallelReadIsStable(ws, hs, r, item.at);
      }
      CoveredLater(Db(ws[r.plannedAt], r.tailnet), t, item.piece);
      forall pair
        ensures ItemValue(ws[item.at], r.tailnet, item, pair)
                == Fold(t.minutes, pair, item.piece.span.lo, item.piece.span.hi)
      {
        HourScanIsFold(t, pair, item.piece.span);
      }
    }
  }

  lemma PlannedPieceFits(ws: seq<World>, r: Read, i: nat)
    requires IsRead(ws, r) && i < |r.items|
    ensures PieceFits(Db(ws[r.plannedAt], r.tailnet).mark, r.items[i].piece)
  {
    assert PiecesOf(r.items)[i] in PiecesOf(r.items);
  }

  /** A closed hour is covered by every later mark. */
  lemma CoveredLater(planned: Tables, t: Tables, p: Piece)
    requires p.hours && PieceFits(planned.mark, p) && planned.mark <= t.mark
    requires p.open ==> t == planned
    ensures CoveredHours(p.span, t.mark)
  {
  }

  lemma CachedItemShows(ws: seq<World>, hs: seq<Happening>, r: Read, item: ItemRead) returns (t: Tables)
    requires IsHistory(ws, hs) && IsRead(ws, r) && item in r.items && item.cached
    ensures Shows(ws, r.checkedAt, r.tailnet, item, t)
    ensures !Covered(ws[item.at], KeyFor(r.tailnet, item.piece)) ==>
              Shows(ws, r.checkedAt, r.tailnet, item, Db(ws[item.at], r.tailnet))
  {
    hide IsHistory, Planned, HourScan, Fold, Versions, Covered, Consistent, Closed;
    var i :| 0 <= i < |r.items| && r.items[i] == item;
    PlannedPieceFits(ws, r, i);
    var key := KeyFor(r.tailnet, item.piece);
    CachedHoursAreCommitted(ws, hs, item.at, key);
    var rows := ws[item.at].cache.entries[key];
    var v: nat :| v < |Versions(ws[item.at], key.tailnet)|
      && Closed(Versions(ws[item.at], key.tailnet)[v].mark, key.hour)
      && rows == Seeds(Versions(ws[item.at], key.tailnet)[v].hours, key.hour);
    t := Versions(ws[item.at], key.tailnet)[v];
    CommitsAreVersions(ws, hs, item.at, r.tailnet);
    VersionsGrow(ws, hs, item.at, r.checkedAt, r.tailnet);
    assert Versions(ws[r.checkedAt], r.tailnet)[v] == t;
    CachedRowsAreFold(ws, r, item, key, t);
    if !Covered(ws[item.at], key) {
      DbIsVersion(ws, hs, item.at, r.checkedAt, r.tailnet);
      CachedRowsAreFold(ws, r, item, key, Db(ws[item.at], r.tailnet));
    }
  }

  lemma CachedRowsAreFold(ws: seq<World>, r: Read, item: ItemRead, key: HourCacheKey, t: Tables)
    requires item.at < |ws| && item.cached && key == KeyFor(r.tailnet, item.piece) && key in ws[item.at].cache.entries
    requires item.piece.span == HourSpan(key.hour)
    requires Consistent(t) && Closed(t.mark, key.hour) && ws[item.at].cache.entries[key] == Seeds(t.hours, key.hour)
    ensures forall pair :: ItemValue(ws[item.at], r.tailnet, item, pair)
                        == Fold(t.minutes, pair, item.piece.span.lo, item.piece.span.hi)
  {
    hide Consistent, Closed, Fold, Seeds, GroupAt, HourAt, Db;
    forall pair
      ensures ItemValue(ws[item.at], r.tailnet, item, pair)
              == Fold(t.minutes, pair, item.piece.span.lo, item.piece.span.hi)
    {
      SeedAt(t.hours, key.hour, pair);
      ClosedRowIsFold(t, key.hour, pair);
    }
  }

  // ---- The minutes a read adds up.

  function Restrict(minutes: Minutes, s: Span): Minutes {
    map mk | mk in minutes && Holds(s, mk.bucket) :: minutes[mk]
  }

  /** Each span's minutes, taken from that span's version. */
  function Composite(pieces: seq<Piece>, shown: seq<Tables>): Minutes
    requires |pieces| == |shown|
  {
    if pieces == [] then map[]
    else
      Composite(pieces[..|pieces| - 1], shown[..|pieces| - 1])
      + Restrict(shown[|pieces| - 1].minutes, pieces[|pieces| - 1].span)
  }

  lemma {:induction false} CompositeIsHeld(pieces: seq<Piece>, shown: seq<Tables>, mk: MinuteKey)
    requires |pieces| == |shown| && mk in Composite(pieces, shown)
    ensures Hits(SpansOf(pieces), mk.bucket) >= 1
  {
    if pieces != [] {
      var n := |pieces| - 1;
      HitsSnoc(SpansOf(pieces[..n]), pieces[n].span, mk.bucket);
      if !Holds(pieces[n].span, mk.bucket) {
        CompositeIsHeld(pieces[..n], shown[..n], mk);
      }
    }
  }

  /** The one span that holds a minute decides which version it comes from. */
  lemma {:induction false} CompositeAt(pieces: seq<Piece>, shown: seq<Tables>, i: nat, mk: MinuteKey)
    requires |pieces| == |shown| && i < |pieces|
    requires Holds(pieces[i].span, mk.bucket) && Hits(SpansOf(pieces), mk.bucket) <= 1
    ensures mk in Composite(pieces, shown) <==> mk in shown[i].minutes
    ensures mk in Composite(pieces, shown) ==> Composite(pieces, shown)[mk] == shown[i].minutes[mk]
    decreases |pieces|
  {
    var n := |pieces| - 1;
    HitsSnoc(SpansOf(pieces[..n]), pieces[n].span, mk.bucket);
    assert SpansOf(pieces) == SpansOf(pieces[..n]) + [pieces[n].span];
    hide Hits, SpansOf;
    if i < n {
      SpansOfAt(pieces[..n], i);
      HitsMember(SpansOf(pieces[..n]), i, mk.bucket);
      CompositeAt(pieces[..n], shown[..n], i, mk);
    } else if mk in Composite(pieces[..n], shown[..n]) {
      CompositeIsHeld(pieces[..n], shown[..n], mk);
    }
  }

  lemma CompositeFold(pieces: seq<Piece>, shown: seq<Tables>, i: nat, pair: PairKey)
    requires |pieces| == |shown| && i < |pieces|
    requires forall s: nat :: Hits(SpansOf(pieces), s) <= 1
    ensures Fold(Composite(pieces, shown), pair, pieces[i].span.lo, pieces[i].span.hi)
         == Fold(shown[i].minutes, pair, pieces[i].span.lo, pieces[i].span.hi)
  {
    var m := Composite(pieces, shown);
    forall s | pieces[i].span.lo <= s < pieces[i].span.hi
      ensures MinuteAt(m, pair, s) == MinuteAt(shown[i].minutes, pair, s)
    {
      if s >= 0 {
        CompositeAt(pieces, shown, i, MinuteKey(s, pair));
      }
    }
    FoldSame(m, shown[i].minutes, pair, pieces[i].span.lo, pieces[i].span.hi);
  }

  ghost predicate AllShow(ws: seq<World>, r: Read, shown: seq<Tables>) {
    && |shown| == |r.items|
    && r.checkedAt < |ws|
    && forall i :: 0 <= i < |r.items| ==>
        r.items[i].at < |ws| && Shows(ws, r.checkedAt, r.tailnet, r.items[i], shown[i])
  }

  /** Whatever versions the items show, the merged result is one scan of their composite. */
  lemma ItemsAddUp(ws: seq<World>, r: Read, shown: seq<Tables>, pair: PairKey)
    requires IsRead(ws, r) && AllShow(ws, r, shown)
    ensures MergeAll(ItemValues(ws, r, pair)) == Fold(Composite(PiecesOf(r.items), shown), pair, r.start, r.end)
  {
    hide Fold, Merge, Hits, Versions, ItemValue, Composite, SpansOf;
    var pieces := PiecesOf(r.items);
    var m := Composite(pieces, shown);
    var values := ItemValues(ws, r, pair);
    forall i | 0 <= i < |pieces|
      ensures values[i] == Fold(m, pair, SpansOf(pieces)[i].lo, SpansOf(pieces)[i].hi)
    {
      SpansOfAt(pieces, i);
      assert Shows(ws, r.checkedAt, r.tailnet, r.items[i], shown[i]);
      CompositeFold(pieces, shown, i, pair);
    }
    forall s | MinuteAt(m, pair, s) != EMPTY
      ensures Hits(SpansOf(pieces), s) == if r.start <= s < r.end then 1 else 0
    {
      CompositeIsHeld(pieces, shown, MinuteKey(s, pair));
    }
    PiecesAddUp(m, pair, r.start, r.end, SpansOf(pieces), values);
  }

  /**
   Every finished graph read, parallel or fallback, whatever interleaves with
   it: there is one committed version per work item, and the result is one
   scan of the window with each minute taken from the version of the one item
   that holds it.
   */
  lemma GraphReadCountsOnce(ws: seq<World>, hs: seq<Happening>, r: Read) returns (shown: seq<Tables>)
    requires IsHistory(ws, hs) && IsRead(ws, r)
    ensures AllShow(ws, r, shown)
    ensures forall pair ::
            MergeAll(ItemValues(ws, r, pair)) == Fold(Composite(PiecesOf(r.items), shown), pair, r.start, r.end)
  {
    hide Shows, IsHistory, ItemValues, Composite, MergeAll, Fold, Planned;
    shown := [];
    while |shown| < |r.items|
      invariant |shown| <= |r.items|
      invariant forall i :: 0 <= i < |shown| ==>
                r.items[i].at < |ws| && Shows(ws, r.checkedAt, r.tailnet, r.items[i], shown[i])
    {
      var item := r.items[|shown|];
      assert item in r.items;
      var t;
      if item.cached {
        t := CachedItemShows(ws, hs, r, item);
      } else {
        DatabaseItemShows(ws, hs, r, item);
        t := Db(ws[item.at], r.tailnet);
      }
      shown := shown + [t];
    }
    forall pair
      ensures MergeAll(ItemValues(ws, r, pair)) == Fold(Composite(PiecesOf(r.items), shown), pair, r.start, r.end)
    {
      ItemsAddUp(ws, r, shown, pair);
    }
  }

  // ---- A read nothing disturbs.

  /** No late delta and no retention of the tailnet lands between the plan and the check. */
  ghost predicate NoLateCommit(ws: seq<World>, hs: seq<Happening>, r: Read)
    requires |hs| + 1 == |ws| && r.plannedAt <= r.checkedAt < |ws|
  {
    forall i ::
      r.plannedAt <= i < r.checkedAt && hs[i].CommitStep? && hs[i].step.Land? && hs[i].tailnet == r.tailnet ==>
      hs[i].write.Deltas? && Touches(Db(ws[i], r.tailnet).mark, hs[i].write.aggs) == {}
  }

  /** No invalidation for a planned hour is owed when the read plans. */
  ghost predicate NoneOwed(ws: seq<World>, r: Read)
    requires r.plannedAt < |ws|
  {
    forall i :: 0 <= i < |r.items| ==> !Covered(ws[r.plannedAt], KeyFor(r.tailnet, r.items[i].piece))
  }

  /** The part of a window a tailnet's marks have passed does not change. */
  lemma {:induction false} RolledPartStable(ws: seq<World>, hs: seq<Happening>, r: Read, k: nat, pair: PairKey, b: int)
    requires IsHistory(ws, hs) && r.plannedAt <= k <= r.checkedAt < |ws| && NoLateCommit(ws, hs, r)
    requires 0 <= b <= Db(ws[r.plannedAt], r.tailnet).mark
    ensures MinuteAt(Db(ws[k], r.tailnet).minutes, pair, b) == MinuteAt(Db(ws[r.plannedAt], r.tailnet).minutes, pair, b)
    decreases k
  {
    hide Does, Consistent, Apply, MinuteAt, Versions, Db, Touches;
    if k > r.plannedAt {
      RolledPartStable(ws, hs, r, k - 1, pair, b);
      VersionsGrow(ws, hs, r.plannedAt, k - 1, r.tailnet);
      QuietStep(ws[k - 1], hs[k - 1], ws[k], r.tailnet, pair, b);
    }
  }

  lemma QuietStep(w: World, h: Happening, w': World, tailnet: string, pair: PairKey, b: int)
    requires Sound(w) && Does(w, h, w') && 0 <= b <= Db(w, tailnet).mark
    requires h.CommitStep? && h.step.Land? && h.tailnet == tailnet ==>
             h.write.Deltas? && Touches(Db(w, tailnet).mark, h.write.aggs) == {}
    ensures MinuteAt(Db(w', tailnet).minutes, pair, b) == MinuteAt(Db(w, tailnet).minutes, pair, b)
  {
    hide Does, Consistent, Apply, MinuteAt, Versions, Touches;
    Landed(w, h, w', tailnet);
    if Db(w', tailnet) != Db(w, tailnet) {
      OwnCommit(w, h, w', tailnet);
      RolledMinuteStable(Db(w, tailnet), h.write, pair, b);
    }
  }

  lemma OwnCommit(w: World, h: Happening, w': World, tailnet: string)
    requires Sound(w) && Does(w, h, w') && Db(w', tailnet) != Db(w, tailnet)
    ensures h.CommitStep? && h.step.Land? && h.tailnet == tailnet
  {
    hide Consistent, Apply;
    VersionsAfter(w, h, w', tailnet);
  }

  /** Polls that close minutes owe no invalidation of their own. */
  lemma {:induction false} NothingNewOwed(ws: seq<World>, hs: seq<Happening>, r: Read, k: nat, key: HourCacheKey)
    requires IsHistory(ws, hs) && r.plannedAt <= k <= r.checkedAt < |ws| && NoLateCommit(ws, hs, r)
    requires key.tailnet == r.tailnet && !Covered(ws[r.plannedAt], key)
    ensures !Covered(ws[k], key)
    decreases k
  {
    hide Does, Covered, NoLateCommit;
    if k > r.plannedAt {
      NothingNewOwed(ws, hs, r, k - 1, key);
      QuietOwed(ws, hs, r, k - 1, key);
    }
  }

  lemma QuietOwed(ws: seq<World>, hs: seq<Happening>, r: Read, k: nat, key: HourCacheKey)
    requires IsHistory(ws, hs) && r.plannedAt <= k < r.checkedAt < |ws| && NoLateCommit(ws, hs, r)
    requires key.tailnet == r.tailnet && !Covered(ws[k], key)
    ensures !Covered(ws[k + 1], key)
  {
    hide Touches, Apply, Consistent, Sound, Db, Versions;
    var w, h, w' := ws[k], hs[k], ws[k + 1];
    assert Does(w, h, w');
    forall ticket | ticket in w'.owed && w'.owed[ticket].tailnet == key.tailnet
      ensures !Drops(w'.owed[ticket].what, key.hour)
    {
      if !(ticket in w.owed && w.owed[ticket] == w'.owed[ticket]) {
        assert h.CommitStep? && h.step.Land? && h.tailnet == r.tailnet;
      }
    }
  }

  /** Undisturbed, an item shows the planning snapshot's minutes wherever its span reaches. */
  ghost predicate ShowsPlan(ws: seq<World>, r: Read, i: nat, t: Tables)
    requires i < |r.items| && r.plannedAt < |ws|
  {
    forall pair, b: nat :: Holds(r.items[i].piece.span, b) ==>
      MinuteAt(t.minutes, pair, b) == MinuteAt(Db(ws[r.plannedAt], r.tailnet).minutes, pair, b)
  }

  lemma ItemShowsPlan(ws: seq<World>, hs: seq<Happening>, r: Read, i: nat)
    requires IsHistory(ws, hs) && IsRead(ws, r) && i < |r.items| && r.items[i].at < |ws|
    requires NoLateCommit(ws, hs, r)
    ensures ShowsPlan(ws, r, i, Db(ws[r.items[i].at], r.tailnet))
  {
    hide IsHistory, Planned, MinuteAt, NoLateCommit, Versions;
    var item := r.items[i];
    PlannedPieceFits(ws, r, i);
    if item.piece.open {
      if r.parallel {
        ParallelReadIsStable(ws, hs, r, item.at);
      }
    } else {
      var planned, t := Db(ws[r.plannedAt], r.tailnet), Db(ws[item.at], r.tailnet);
      CommitsAreVersions(ws, hs, r.plannedAt, r.tailnet);
      CommitsAreVersions(ws, hs, item.at, r.tailnet);
      forall pair, b: nat | Holds(item.piece.span, b)
        ensures MinuteAt(t.minutes, pair, b) == MinuteAt(planned.minutes, pair, b)
      {
        if b <= planned.mark {
          RolledPartStable(ws, hs, r, item.at, pair, b);
        } else {
          PastTheMark(ws, r, item, b);
          NotAMinute(planned, pair, b);
          NotAMinute(t, pair, b);
        }
      }
    }
  }

  /** A closed item ends within a minute after the mark, so it holds no minute above it. */
  lemma PastTheMark(ws: seq<World>, r: Read, item: ItemRead, b: nat)
    requires r.plannedAt < |ws| && item.at < |ws| && Sound(ws[r.plannedAt]) && Sound(ws[item.at])
    requires !item.piece.open && PieceFits(Db(ws[r.plannedAt], r.tailnet).mark, item.piece)
    requires Holds(item.piece.span, b) && b > Db(ws[r.plannedAt], r.tailnet).mark
    ensures b % MINUTE != 0
    ensures Consistent(Db(ws[r.plannedAt], r.tailnet)) && Consistent(Db(ws[item.at], r.tailnet))
  {
    DbConsistent(ws[r.plannedAt], r.tailnet);
    DbConsistent(ws[item.at], r.tailnet);
    MarkIsNext(Db(ws[r.plannedAt], r.tailnet).mark, b);
  }

  lemma DbConsistent(w: World, tailnet: string)
    requires Sound(w)
    ensures Consistent(Db(w, tailnet)) && ValidMark(Db(w, tailnet).mark)
  {
    assert Consistent(Versions(w, tailnet)[|Versions(w, tailnet)| - 1]);
  }

  lemma MarkIsNext(mark: int, b: nat)
    requires ValidMark(mark) && mark < b < mark + MINUTE
    requires mark >= 0
    ensures b % MINUTE != 0
  {
  }

  /**
   When no late delta or retention of the tailnet lands during the read and no
   invalidation of a planned hour is owed at its start, the read is a plain
   minute scan of the planning snapshot, even while polls commit, the mark
   moves on and rows pass from minutes into hours.
   */
  lemma UndisturbedReadIsPlainScan(ws: seq<World>, hs: seq<Happening>, r: Read, pair: PairKey)
    requires IsHistory(ws, hs) && IsRead(ws, r)
    requires NoLateCommit(ws, hs, r) && NoneOwed(ws, r)
    ensures MergeAll(ItemValues(ws, r, pair)) == Fold(Db(ws[r.plannedAt], r.tailnet).minutes, pair, r.start, r.end)
  {
    hide IsHistory, ItemValues, Composite, MergeAll, Fold, NoLateCommit, NoneOwed;
    var shown := seq(|r.items|, i requires 0 <= i < |r.items| => AtItem(ws, r, i));
    forall i | 0 <= i < |r.items|
      ensures Shows(ws, r.checkedAt, r.tailnet, r.items[i], shown[i]) && ShowsPlan(ws, r, i, shown[i])
    {
      PlanShown(ws, hs, r, i);
    }
    ItemsAddUp(ws, r, shown, pair);
    CompositeIsPlan(ws, hs, r, shown, pair);
  }

  ghost function AtItem(ws: seq<World>, r: Read, i: nat): Tables
    requires IsRead(ws, r) && i < |r.items|
  {
    assert ItemFits(ws, r, r.items[i]);
    Db(ws[r.items[i].at], r.tailnet)
  }

  lemma PlanShown(ws: seq<World>, hs: seq<Happening>, r: Read, i: nat)
    requires IsHistory(ws, hs) && IsRead(ws, r) && NoLateCommit(ws, hs, r) && NoneOwed(ws, r)
    requires i < |r.items| && r.items[i].at < |ws|
    ensures Shows(ws, r.checkedAt, r.tailnet, r.items[i], Db(ws[r.items[i].at], r.tailnet))
    ensures ShowsPlan(ws, r, i, Db(ws[r.items[i].at], r.tailnet))
  {
    hide IsHistory, Shows, ShowsPlan, NoLateCommit, Planned, Covered, Versions;
    ItemShowsPlan(ws, hs, r, i);
    var item := r.items[i];
    assert item in r.items && ItemFits(ws, r, item);
    if item.cached {
      NothingNewOwed(ws, hs, r, item.at, KeyFor(r.tailnet, item.piece));
      var _ := CachedItemShows(ws, hs, r, item);
    } else {
      DatabaseItemShows(ws, hs, r, item);
    }
  }

  lemma CompositeIsPlan(ws: seq<World>, hs: seq<Happening>, r: Read, shown: seq<Tables>, pair: PairKey)
    requires IsHistory(ws, hs) && IsRead(ws, r) && |shown| == |r.items|
    requires forall i :: 0 <= i < |r.items| ==> ShowsPlan(ws, r, i, shown[i])
    ensures Fold(Composite(PiecesOf(r.items), shown), pair, r.start, r.end)
         == Fold(Db(ws[r.plannedAt], r.tailnet).minutes, pair, r.start, r.end)
  {
    hide IsHistory, Fold, Composite, Hits, SpansOf;
    var pieces := PiecesOf(r.items);
    var planned := Db(ws[r.plannedAt], r.tailnet).minutes;
    forall b | r.start <= b < r.end
      ensures MinuteAt(Composite(pieces, shown), pair, b) == MinuteAt(planned, pair, b)
    {
      if b >= 0 {
        MinuteIsPlan(ws, r, shown, pair, b);
      }
    }
    FoldSame(Composite(pieces, shown), planned, pair, r.start, r.end);
  }

  lemma MinuteIsPlan(ws: seq<World>, r: Read, shown: seq<Tables>, pair: PairKey, b: nat)
    requires IsRead(ws, r) && |shown| == |r.items| && r.start <= b < r.end
    requires forall i :: 0 <= i < |r.items| ==> ShowsPlan(ws, r, i, shown[i])
    ensures MinuteAt(Composite(PiecesOf(r.items), shown), pair, b)
            == MinuteAt(Db(ws[r.plannedAt], r.tailnet).minutes, pair, b)
  {
    hide Composite, Hits, SpansOf, Versions;
    var pieces := PiecesOf(r.items);
    if Hits(SpansOf(pieces), b) == 0 {
      if MinuteKey(b, pair) in Composite(pieces, shown) {
        CompositeIsHeld(pieces, shown, MinuteKey(b, pair));
      }
      assert !MinuteHasRows(Db(ws[r.plannedAt], r.tailnet).minutes, b);
    } else {
      var i := HitsSome(SpansOf(pieces), b);
      SpansOfAt(pieces, i);
      CompositeAt(pieces, shown, i, MinuteKey(b, pair));
      assert ShowsPlan(ws, r, i, shown[i]);
      assert MinuteAt(shown[i].minutes, pair, b) == MinuteAt(Db(ws[r.plannedAt], r.tailnet).minutes, pair, b);
    }
  }

  lemma LandAddsVersion(w: World, h: Happening, w': World, tailnet: string)
    requires Sound(w) && Does(w, h, w')
    ensures h.CommitStep? && h.step.Land? && h.tailnet == tailnet ==> Versions(w', tailnet) != Versions(w, tailnet)
  {
    hide Apply, Consistent;
    if h.CommitStep? && h.step.Land? && h.tailnet == tailnet {
      assert |Versions(w', tailnet)| == |Versions(w, tailnet)| + 1;
    }
  }

  /** A kept parallel read has no commit to fear: only owed invalidations can make it differ from the plan. */
  lemma KeptParallelReadIsPlainScan(ws: seq<World>, hs: seq<Happening>, r: Read, pair: PairKey)
    requires IsHistory(ws, hs) && IsRead(ws, r) && r.parallel && NoneOwed(ws, r)
    ensures MergeAll(ItemValues(ws, r, pair)) == Fold(Db(ws[r.plannedAt], r.tailnet).minutes, pair, r.start, r.end)
  {
    forall i | r.plannedAt <= i < r.checkedAt
      ensures !(hs[i].CommitStep? && hs[i].step.Land? && hs[i].tailnet == r.tailnet)
    {
      hide Sound, Does, Planned, Versions;
      ParallelReadIsStable(ws, hs, r, i);
      assert Does(ws[i], hs[i], ws[i + 1]);
      LandAddsVersion(ws[i], hs[i], ws[i + 1], r.tailnet);
      ParallelReadIsStable(ws, hs, r, i + 1);
    }
    hide *;
    assert NoLateCommit(ws, hs, r);
    UndisturbedReadIsPlainScan(ws, hs, r, pair);
  }
}

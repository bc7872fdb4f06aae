/**
 The store as its concurrent clients see it: every tailnet's committed
 versions and commit counter, the invalidations that commits still owe, the
 closed-hour cache, and the reads that are about to fill it. Events interleave
 in any order.
 */
module StoreWorld {
  import opened PairGroups
  import opened HourRollup
  import opened RollupStore
  import opened ClosedHours
  import opened ClosedHourCache
  import opened CommitSeq

  type Rows = map<PairKey, Counters>

  /** An invalidation whose commit has landed. */
  datatype Owed = Owed(tailnet: string, what: Invalidation)

  /** A cacheable read of one closed hour: it takes the epoch, then its snapshot, then puts. */
  datatype Fill = Fill(key: HourCacheKey, epoch: nat, rows: Option<Rows>)

  datatype World = World(
    log: map<string, seq<Tables>>,
    seqs: map<string, Seq>,
    owed: map<nat, Owed>,
    cache: CacheView<Rows>,
    fills: map<nat, Fill>)

  const NO_TABLES: Tables := Tables(map[], map[], -1)
  const START: World := World(map[], map[], map[], CacheView(0, map[], map[], map[]), map[])

  /** The committed versions of a tailnet, oldest first. */
  function Versions(w: World, tailnet: string): seq<Tables> {
    if tailnet in w.log && w.log[tailnet] != [] then w.log[tailnet] else [NO_TABLES]
  }

  function Db(w: World, tailnet: string): Tables {
    Versions(w, tailnet)[|Versions(w, tailnet)| - 1]
  }

  function SeqOf(w: World, tailnet: string): Seq {
    if tailnet in w.seqs then w.seqs[tailnet] else IDLE
  }

  function DbRows(w: World, key: HourCacheKey): Rows {
    Seeds(Db(w, key.tailnet).hours, key.hour)
  }

  datatype Happening =
    | CommitStep(tailnet: string, step: Event, write: Write, ticket: nat)
    | InvalidationRuns(ticket: nat)
    | FillStarts(id: nat, key: HourCacheKey)
    | FillReads(id: nat)
    | FillPuts(id: nat)
    | FillLeaves(id: nat)

  function RunOwed(cache: CacheView<Rows>, o: Owed): CacheView<Rows> {
    match o.what
    case Hours(hours) => Invalidated(cache, o.tailnet, hours)
    case BelowHour(below) => InvalidatedBelow(cache, o.tailnet, below)
  }

  /** One step of the store. A landing commit appends a version and owes its invalidation. */
  ghost predicate Does(w: World, h: Happening, w': World)
    requires Sound(w)
  {
    match h
    case CommitStep(tailnet, step, write, ticket) =>
      Possible(SeqOf(w, tailnet), step)
      && (if step.Land? then
            ticket !in w.owed
            && w' == w.(log := w.log[tailnet := Versions(w, tailnet) + [Apply(Db(w, tailnet), write)]],
                        seqs := w.seqs[tailnet := Step(SeqOf(w, tailnet), step)],
                        owed := w.owed[ticket := Owed(tailnet, Reported(Db(w, tailnet).mark, write))])
          else w' == w.(seqs := w.seqs[tailnet := Step(SeqOf(w, tailnet), step)]))
    case InvalidationRuns(ticket) =>
      ticket in w.owed
      && w' == w.(owed := w.owed - {ticket}, cache := RunOwed(w.cache, w.owed[ticket]))
    case FillStarts(id, key) =>
      id !in w.fills && Closed(Db(w, key.tailnet).mark, key.hour)
      && w' == w.(fills := w.fills[id := Fill(key, w.cache.epoch, None)])
    case FillReads(id) =>
      id in w.fills && w.fills[id].rows.None?
      && w' == w.(fills := w.fills[id := w.fills[id].(rows := Some(DbRows(w, w.fills[id].key)))])
    case FillPuts(id) =>
      id in w.fills && w.fills[id].rows.Some?
      && PutInto(w.cache, w.fills[id].key, w.fills[id].rows.value, w.fills[id].epoch, w'.cache)
      && w' == w.(cache := w'.cache, fills := w.fills - {id})
    case FillLeaves(id) =>
      id in w.fills && w' == w.(fills := w.fills - {id})
  }

  /** Every committed version of every tailnet is consistent. */
  ghost predicate Sound(w: World) {
    forall tailnet, v: nat :: v < |Versions(w, tailnet)| ==> Consistent(Versions(w, tailnet)[v])
  }

  ghost predicate EpochsBounded(cache: CacheView<Rows>) {
    && (forall k :: k in cache.touched ==> cache.touched[k] <= cache.epoch)
    && (forall t :: t in cache.floors ==> cache.floors[t].epoch <= cache.epoch)
  }

  /** Some landed commit that drops this hour has not run its invalidation. */
  ghost predicate Covered(w: World, key: HourCacheKey) {
    exists ticket :: ticket in w.owed && w.owed[ticket].tailnet == key.tailnet && Drops(w.owed[ticket].what, key.hour)
  }

  /** The rows are those of some committed version in which the hour was closed. */
  ghost predicate WasCommitted(w: World, key: HourCacheKey, rows: Rows) {
    exists v: nat :: v < |Versions(w, key.tailnet)|
      && Closed(Versions(w, key.tailnet)[v].mark, key.hour)
      && rows == Seeds(Versions(w, key.tailnet)[v].hours, key.hour)
  }

  ghost predicate Current(w: World, key: HourCacheKey, rows: Rows) {
    rows == DbRows(w, key) || Covered(w, key)
  }

  ghost predicate Provenance(w: World, key: HourCacheKey, rows: Rows) {
    Closed(Db(w, key.tailnet).mark, key.hour) && WasCommitted(w, key, rows)
  }

  ghost predicate CacheCoherent(w: World) {
    forall k :: k in w.cache.entries ==> Provenance(w, k, w.cache.entries[k]) && Current(w, k, w.cache.entries[k])
  }

  ghost predicate FillCoherent(w: World, f: Fill) {
    f.epoch <= w.cache.epoch
    && Closed(Db(w, f.key.tailnet).mark, f.key.hour)
    && (f.rows.Some? ==>
          Provenance(w, f.key, f.rows.value)
          && (Current(w, f.key, f.rows.value) || TouchedAt(w.cache.touched, w.cache.floors, f.key) > f.epoch))
  }

  ghost predicate Inv(w: World) {
    && Sound(w)
    && EpochsBounded(w.cache)
    && CacheCoherent(w)
    && (forall id :: id in w.fills ==> FillCoherent(w, w.fills[id]))
    && (forall t :: SeqOf(w, t).commits == |Versions(w, t)| - 1)
  }

  lemma StartInv()
    ensures Inv(START)
  {
    EmptyRollup();
  }

  // ---- What a step does to rows that somebody holds.

  /** Land appends one version of one tailnet. */
  lemma VersionsAfter(w: World, h: Happening, w': World, tailnet: string)
    requires Sound(w) && Does(w, h, w')
    ensures Versions(w', tailnet) == Versions(w, tailnet)
         || (h.CommitStep? && h.step.Land? && h.tailnet == tailnet
             && Versions(w', tailnet) == Versions(w, tailnet) + [Apply(Db(w, tailnet), h.write)])
    ensures |Versions(w', tailnet)| - |Versions(w, tailnet)| == SeqOf(w', tailnet).commits - SeqOf(w, tailnet).commits
  {
    hide Consistent, Apply, HoursOf;
  }

  lemma SoundAfter(w: World, h: Happening, w': World)
    requires Sound(w) && Does(w, h, w')
    ensures Sound(w')
  {
    forall tailnet, v: nat | v < |Versions(w', tailnet)|
      ensures Consistent(Versions(w', tailnet)[v])
    {
      VersionsAfter(w, h, w', tailnet);
      if v < |Versions(w, tailnet)| {
        assert Consistent(Versions(w, tailnet)[v]);
      } else {
        assert Consistent(Apply(Db(w, tailnet), h.write));
      }
    }
  }

  /** What a landing commit leaves, when it is the tailnet's own. */
  lemma Landed(w: World, h: Happening, w': World, tailnet: string)
    requires Sound(w) && Does(w, h, w')
    ensures Consistent(Db(w, tailnet))
    ensures Versions(w', tailnet) == Versions(w, tailnet)
         || (Db(w', tailnet) == Apply(Db(w, tailnet), h.write)
             && h.ticket in w'.owed && w'.owed[h.ticket] == Owed(tailnet, Reported(Db(w, tailnet).mark, h.write)))
    ensures Versions(w, tailnet) <= Versions(w', tailnet)
  {
    assert Consistent(Versions(w, tailnet)[|Versions(w, tailnet)| - 1]);
    hide Consistent, Apply, HoursOf, Sound, Reported;
    VersionsAfter(w, h, w', tailnet);
  }

  lemma ProvenanceKept(w: World, h: Happening, w': World, key: HourCacheKey, rows: Rows)
    requires Sound(w) && Does(w, h, w') && Closed(Db(w, key.tailnet).mark, key.hour)
    ensures Closed(Db(w', key.tailnet).mark, key.hour)
    ensures WasCommitted(w, key, rows) ==> WasCommitted(w', key, rows)
  {
    Landed(w, h, w', key.tailnet);
    hide Consistent, Apply, HoursOf, Does, Sound, Seeds, Closed, Reported, Versions;
    if Db(w', key.tailnet) != Db(w, key.tailnet) {
      ClosedHourStable(Db(w, key.tailnet), h.write, key.hour);
    }
    if WasCommitted(w, key, rows) {
      var v: nat :| v < |Versions(w, key.tailnet)| && Closed(Versions(w, key.tailnet)[v].mark, key.hour)
        && rows == Seeds(Versions(w, key.tailnet)[v].hours, key.hour);
      assert Versions(w', key.tailnet)[v] == Versions(w, key.tailnet)[v];
    }
  }

  /** A commit keeps rows current, or owes the invalidation that will drop them. */
  lemma CurrentAfterCommit(w: World, h: Happening, w': World, key: HourCacheKey, rows: Rows)
    requires Sound(w) && Does(w, h, w') && Closed(Db(w, key.tailnet).mark, key.hour) && Current(w, key, rows)
    requires h.CommitStep?
    ensures Current(w', key, rows)
  {
    hide Sound, Consistent, Apply, HoursOf, Seeds, Closed, Reported, Drops;
    assert forall ticket :: ticket in w.owed ==> ticket in w'.owed && w'.owed[ticket] == w.owed[ticket];
    if Covered(w, key) {
      StillCovered(w, w', key);
    } else {
      LandedRows(w, h, w', key);
    }
  }

  lemma StillCovered(w: World, w': World, key: HourCacheKey)
    requires Covered(w, key)
    requires forall ticket :: ticket in w.owed ==> ticket in w'.owed && w'.owed[ticket] == w.owed[ticket]
    ensures Covered(w', key)
  {
    var ticket :| ticket in w.owed && w.owed[ticket].tailnet == key.tailnet && Drops(w.owed[ticket].what, key.hour);
    assert w'.owed[ticket] == w.owed[ticket];
  }

  lemma LandedRows(w: World, h: Happening, w': World, key: HourCacheKey)
    requires Sound(w) && Does(w, h, w') && Closed(Db(w, key.tailnet).mark, key.hour)
    requires h.CommitStep?
    ensures DbRows(w', key) == DbRows(w, key) || Covered(w', key)
  {
    hide Does, Sound, Consistent, Apply, HoursOf, Seeds, Closed, Reported, Drops, Versions, Covered;
    Landed(w, h, w', key.tailnet);
    if Versions(w', key.tailnet) != Versions(w, key.tailnet) {
      var what := Reported(Db(w, key.tailnet).mark, h.write);
      if Drops(what, key.hour) {
        OwesIt(w', h.ticket, key, what);
      } else {
        ClosedHourStable(Db(w, key.tailnet), h.write, key.hour);
      }
    } else {
      assert Db(w', key.tailnet) == Db(w, key.tailnet);
    }
  }

  lemma OwesIt(w: World, ticket: nat, key: HourCacheKey, what: Invalidation)
    requires ticket in w.owed && w.owed[ticket] == Owed(key.tailnet, what) && Drops(what, key.hour)
    ensures Covered(w, key)
  {
  }

  /** A run invalidation leaves rows current, or marks the hour touched just now and drops its entry. */
  lemma CurrentAfterInvalidation(w: World, h: Happening, w': World, key: HourCacheKey, rows: Rows)
    requires Sound(w) && Does(w, h, w') && EpochsBounded(w.cache)
    requires h.InvalidationRuns? && Current(w, key, rows)
    ensures Current(w', key, rows)
            || (key !in w'.cache.entries && TouchedAt(w'.cache.touched, w'.cache.floors, key) > w.cache.epoch)
  {
    hide Sound, DbRows;
    assert DbRows(w', key) == DbRows(w, key) by { VersionsAfter(w, h, w', key.tailnet); SameDbRows(w, w', key); }
    if Covered(w, key) {
      var ticket :| ticket in w.owed && w.owed[ticket].tailnet == key.tailnet && Drops(w.owed[ticket].what, key.hour);
      if ticket == h.ticket {
        DropIsRecorded(w.cache, w.owed[ticket], key);
      } else {
        assert w'.owed[ticket] == w.owed[ticket];
      }
    }
  }

  lemma SameDbRows(w: World, w': World, key: HourCacheKey)
    requires w'.log == w.log
    ensures DbRows(w', key) == DbRows(w, key)
  {
  }

  lemma DropIsRecorded(cache: CacheView<Rows>, o: Owed, key: HourCacheKey)
    requires EpochsBounded(cache) && o.tailnet == key.tailnet && Drops(o.what, key.hour)
    ensures var after := RunOwed(cache, o);
            key !in after.entries && TouchedAt(after.touched, after.floors, key) > cache.epoch
  {
    match o.what
    case Hours(hours) =>
      assert key in KeysOf(o.tailnet, hours);
    case BelowHour(below) =>
      var f := FloorAfter(cache.floors, o.tailnet, below, cache.epoch + 1);
      assert below <= f.below;
  }

  /** The cache only ever records more: no touch is forgotten and the epoch grows. */
  lemma TouchesGrowOnly(cache: CacheView<Rows>, o: Owed, key: HourCacheKey)
    requires EpochsBounded(cache)
    ensures var after := RunOwed(cache, o);
            EpochsBounded(after)
            && after.epoch >= cache.epoch
            && TouchedAt(after.touched, after.floors, key) >= TouchedAt(cache.touched, cache.floors, key)
            && (forall k :: k in after.entries ==> k in cache.entries && after.entries[k] == cache.entries[k])
  {
  }

  lemma FillKept(w: World, h: Happening, w': World, f: Fill)
    requires Inv(w) && Does(w, h, w') && FillCoherent(w, f)
    ensures FillCoherent(w', f)
  {
    hide Does, Sound, CacheCoherent, TouchedAt, Current, WasCommitted, Closed, EpochsBounded;
    if f.rows.Some? {
      ProvenanceKept(w, h, w', f.key, f.rows.value);
    } else {
      ProvenanceKept(w, h, w', f.key, map[]);
    }
    CacheAfter(w, h, w', f.key);
    if f.rows.Some? && Current(w, f.key, f.rows.value) {
      CurrentAfter(w, h, w', f.key, f.rows.value);
    }
  }

  /** The cache's epochs and touches after any step. */
  lemma CacheAfter(w: World, h: Happening, w': World, key: HourCacheKey)
    requires Inv(w) && Does(w, h, w')
    ensures EpochsBounded(w'.cache) && w'.cache.epoch >= w.cache.epoch
    ensures TouchedAt(w'.cache.touched, w'.cache.floors, key) >= TouchedAt(w.cache.touched, w.cache.floors, key)
  {
    hide Sound, CacheCoherent, TouchedAt, RunOwed, FillCoherent;
    if h.InvalidationRuns? {
      TouchesGrowOnly(w.cache, w.owed[h.ticket], key);
    }
  }

  lemma CurrentAfter(w: World, h: Happening, w': World, key: HourCacheKey, rows: Rows)
    requires Inv(w) && Does(w, h, w') && Closed(Db(w, key.tailnet).mark, key.hour) && Current(w, key, rows)
    ensures Current(w', key, rows)
         || (h.InvalidationRuns? && key !in w'.cache.entries
             && TouchedAt(w'.cache.touched, w'.cache.floors, key) > w.cache.epoch)
  {
    if h.CommitStep? {
      CurrentAfterCommit(w, h, w', key, rows);
    } else if h.InvalidationRuns? {
      CurrentAfterInvalidation(w, h, w', key, rows);
    } else {
      hide DbRows;
      assert w'.log == w.log && w'.owed == w.owed;
      SameDbRows(w, w', key);
      assert Covered(w, key) ==> Covered(w', key);
    }
  }

  lemma EntryKept(w: World, h: Happening, w': World, k: HourCacheKey)
    requires Inv(w) && Does(w, h, w') && k in w'.cache.entries
    ensures Provenance(w', k, w'.cache.entries[k]) && Current(w', k, w'.cache.entries[k])
  {
    hide Current, WasCommitted, Closed, DbRows;
    var rows := w'.cache.entries[k];
    if k in w.cache.entries && w.cache.entries[k] == rows {
      CurrentAfter(w, h, w', k, rows);
      ProvenanceKept(w, h, w', k, rows);
    } else {
      EntryIsNew(w, h, w', k);
      assert FillCoherent(w, w.fills[h.id]);
      CurrentAfter(w, h, w', k, rows);
      ProvenanceKept(w, h, w', k, rows);
    }
  }

  lemma EntryIsNew(w: World, h: Happening, w': World, k: HourCacheKey)
    requires Inv(w) && Does(w, h, w') && k in w'.cache.entries
    requires !(k in w.cache.entries && w.cache.entries[k] == w'.cache.entries[k])
    ensures h.FillPuts? && h.id in w.fills && w.fills[h.id].key == k && w.fills[h.id].rows == Some(w'.cache.entries[k])
    ensures TouchedAt(w.cache.touched, w.cache.floors, k) <= w.fills[h.id].epoch
  {
    hide Sound, CacheCoherent, TouchedAt, FillCoherent, RunOwed;
    if h.InvalidationRuns? {
      TouchesGrowOnly(w.cache, w.owed[h.ticket], k);
    }
  }

  lemma FillIsNew(w: World, h: Happening, w': World, id: nat)
    requires Inv(w) && Does(w, h, w') && id in w'.fills
    requires !(id in w.fills && w.fills[id] == w'.fills[id])
    ensures FillCoherent(w', w'.fills[id])
  {
    hide Sound, CacheCoherent, TouchedAt, Closed, EpochsBounded, DbRows, Versions, Covered, WasCommitted;
    assert w'.log == w.log && w'.cache == w.cache;
    NothingLanded(w, w', w'.fills[id].key);
    if h.FillReads? {
      var key := w.fills[id].key;
      assert FillCoherent(w, w.fills[id]);
      NowCommitted(w', key);
    }
  }

  lemma NothingLanded(w: World, w': World, key: HourCacheKey)
    requires w'.log == w.log
    ensures DbRows(w', key) == DbRows(w, key) && Db(w', key.tailnet) == Db(w, key.tailnet)
  {
  }

  lemma NowCommitted(w: World, key: HourCacheKey)
    requires Closed(Db(w, key.tailnet).mark, key.hour)
    ensures WasCommitted(w, key, DbRows(w, key))
  {
    assert Versions(w, key.tailnet)[|Versions(w, key.tailnet)| - 1] == Db(w, key.tailnet);
  }

  lemma InvKept(w: World, h: Happening, w': World)
    requires Inv(w) && Does(w, h, w')
    ensures Inv(w')
  {
    hide Does, CacheCoherent, FillCoherent, EpochsBounded, Versions, SeqOf;
    CacheAfter(w, h, w', HourCacheKey("", 0));
    forall tailnet
      ensures SeqOf(w', tailnet).commits == |Versions(w', tailnet)| - 1
    {
      VersionsAfter(w, h, w', tailnet);
    }
    SoundAfter(w, h, w');
    assert CacheCoherent(w') by { AllEntriesKept(w, h, w'); }
    forall id | id in w'.fills
      ensures FillCoherent(w', w'.fills[id])
    {
      if id in w.fills && w.fills[id] == w'.fills[id] {
        FillKept(w, h, w', w.fills[id]);
      } else {
        FillIsNew(w, h, w', id);
      }
    }
  }

  lemma AllEntriesKept(w: World, h: Happening, w': World)
    requires Inv(w) && Does(w, h, w')
    ensures CacheCoherent(w')
  {
    hide Does, Inv, Provenance, Current;
    forall k | k in w'.cache.entries
      ensures Provenance(w', k, w'.cache.entries[k]) && Current(w', k, w'.cache.entries[k])
    {
      EntryKept(w, h, w', k);
    }
  }

  // ---- Runs.

  ghost predicate IsHistory(ws: seq<World>, hs: seq<Happening>) {
    && |ws| == |hs| + 1 && ws[0] == START
    && forall i :: 0 <= i < |hs| ==> Sound(ws[i]) && Does(ws[i], hs[i], ws[i + 1])
  }

  lemma {:induction false} HistoryInv(ws: seq<World>, hs: seq<Happening>, i: nat)
    requires IsHistory(ws, hs) && i < |ws|
    ensures Inv(ws[i])
  {
    hide Inv, Does;
    if i == 0 {
      StartInv();
    } else {
      HistoryInv(ws, hs, i - 1);
      InvKept(ws[i - 1], hs[i - 1], ws[i]);
    }
  }

  /**
   Cache coherence, over every interleaving: a cached hour equals the
   committed rows, unless a landed commit that drops it has its invalidation
   still to run.
   */
  lemma CachedHoursAreCommitted(ws: seq<World>, hs: seq<Happening>, i: nat, key: HourCacheKey)
    requires IsHistory(ws, hs) && i < |ws| && key in ws[i].cache.entries
    ensures ws[i].cache.entries[key] == DbRows(ws[i], key) || Covered(ws[i], key)
    ensures Closed(Db(ws[i], key.tailnet).mark, key.hour)
    ensures WasCommitted(ws[i], key, ws[i].cache.entries[key])
  {
    HistoryInv(ws, hs, i);
  }
}

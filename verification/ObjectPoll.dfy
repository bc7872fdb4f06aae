/**
 The object-store poll (object_store_source.go) and its cursor (poller.go). PollOf,
 AskedOf and Final say what an Input comes to. AskedExactly is the promise: the
 stored cursor passes no un-ingested object, except in two ways that it names.
 */
module ObjectPoll {
  import opened GoInts
  import opened PairGroups
  import opened RollupStore

  datatype FlowObject = FlowObject(key: string, logTime: int)

  /** What reading one object comes to. */
  datatype Outcome =
    | Flows(aggs: seq<Aggregate>)
    | Permanent     // gone, or content that cannot be decoded
    | Transient     // authorization, server or network trouble
    | Cancelled     // the context ended

  const MAX_READ_ATTEMPTS: nat := 5

  /** The result of Poll; failed stands for a non-nil error. */
  datatype Polled = Polled(objects: nat, last: int, failed: bool)

  /** listObjects sorts by log time; a key is listed once. */
  ghost predicate Listing(listed: seq<FlowObject>) {
    && (forall i, j :: 0 <= i < j < |listed| ==> listed[i].logTime <= listed[j].logTime)
    && (forall i, j :: 0 <= i < j < |listed| ==> listed[i].key != listed[j].key)
  }

  /** No log time is the time.Time zero value, which the code also reads as "none". */
  ghost predicate NoZeroTime(listed: seq<FlowObject>) {
    forall i :: 0 <= i < |listed| ==> listed[i].logTime != ZERO_TIME
  }

  /** The cursor passes no un-ingested object that it had not passed before. */
  ghost predicate Keeps(listed: seq<FlowObject>, start: int, ingested: set<string>, cursor: int) {
    forall i :: 0 <= i < |listed| && listed[i].key !in ingested ==> cursor <= Larger(start, listed[i].logTime)
  }

  /** The objects of a listing that are not ingested, in order. */
  function Fresh(listed: seq<FlowObject>, ingested: set<string>): (left: seq<FlowObject>)
    ensures forall o :: o in left <==> o in listed && o.key !in ingested
  {
    if listed == [] then []
    else
      var front := Fresh(listed[..|listed| - 1], ingested);
      var last := listed[|listed| - 1];
      assert listed == listed[..|listed| - 1] + [last];
      if last.key in ingested then front else front + [last]
  }

  /** The aggregates of one newly ingested object. */
  datatype Ingest = Ingest(key: string, aggs: seq<Aggregate>)

  ghost function Ingested(t: Tables, ingests: seq<Ingest>): (t': Tables)
    requires Consistent(t)
    ensures Consistent(t')
  {
    if ingests == [] then t
    else Apply(Ingested(t, ingests[..|ingests| - 1]), Deltas(ingests[|ingests| - 1].aggs, None))
  }

  function KeysOf(ingests: seq<Ingest>): set<string> {
    set i | 0 <= i < |ingests| :: ingests[i].key
  }

  ghost predicate OncePerKey(ingests: seq<Ingest>) {
    forall i, j :: 0 <= i < j < |ingests| ==> ingests[i].key != ingests[j].key
  }

  function FailuresOf(failures: map<string, nat>, key: string): nat {
    if key in failures then failures[key] else 0
  }

  // ---- What one poll depends on and comes to.

  /** What the poll meets outside. listed is None when the listing itself failed. */
  datatype Env = Env(listed: Option<seq<FlowObject>>, outcomes: map<string, Outcome>, guardFails: set<string>,
                     commitFails: set<string>)

  datatype Input = Input(env: Env, maxObjects: nat, failures: map<string, nat>, ingested: set<string>, start: int,
                         end: int)

  function Objects(x: Input): seq<FlowObject> {
    if x.env.listed.Some? then x.env.listed.value else []
  }

  /** Where the selection loop stops: at a guard that fails, or at an un-ingested object when the page is full. */
  function ScanFrom(x: Input, i: nat): (n: nat)
    requires i <= |Objects(x)|
    ensures i <= n <= |Objects(x)|
    decreases |Objects(x)| - i
  {
    var all := Objects(x);
    if i == |all| || all[i].key in x.env.guardFails then i
    else if all[i].key !in x.ingested && |Fresh(all[..i], x.ingested)| >= x.maxObjects then i
    else ScanFrom(x, i + 1)
  }

  function Scanned(x: Input): seq<FlowObject> {
    Objects(x)[..ScanFrom(x, 0)]
  }

  predicate GuardStops(x: Input) {
    var n := ScanFrom(x, 0);
    n < |Objects(x)| && Objects(x)[n].key in x.env.guardFails
  }

  /** The objects the poll reads. */
  function Page(x: Input): seq<FlowObject> {
    if GuardStops(x) then [] else Fresh(Scanned(x), x.ingested)
  }

  /** The newest ingested object of a list, or start. */
  function NewestSeen(listed: seq<FlowObject>, ingested: set<string>, start: int): int {
    if listed == [] then start
    else
      var rest, o := NewestSeen(listed[..|listed| - 1], ingested, start), listed[|listed| - 1];
      if o.key in ingested then Larger(rest, o.logTime) else rest
  }

  datatype Handling = Stored | GaveUp | Blocked | Halted

  /** The five ways of one object: its outcome, the failures counted for it and the store decide. */
  function HandlingOf(outcome: Outcome, failures: nat, commitFails: bool): (h: Handling)
    ensures h.Stored? ==> outcome.Flows?
    ensures outcome.Flows? ==> h.Stored? || h.Halted?
  {
    match outcome
    case Flows(_) => if commitFails then Halted else Stored
    case Permanent => if failures + 1 < MAX_READ_ATTEMPTS then Blocked else if commitFails then Halted else GaveUp
    case Transient => Blocked
    case Cancelled => Halted
  }

  function OutcomeOf(x: Input, o: FlowObject): Outcome {
    if o.key in x.env.outcomes then x.env.outcomes[o.key] else Transient
  }

  function Handle(x: Input, o: FlowObject): (h: Handling)
    ensures h.Stored? ==> OutcomeOf(x, o).Flows?
    ensures OutcomeOf(x, o).Flows? ==> h.Stored? || h.Halted?
  {
    HandlingOf(OutcomeOf(x, o), FailuresOf(x.failures, o.key), o.key in x.env.commitFails)
  }

  predicate Settles(h: Handling) {
    h.Stored? || h.GaveUp?
  }

  /** How far the read loop gets: past the first object that halts it. */
  function ReadEnd(x: Input, i: nat): (n: nat)
    requires i <= |Page(x)|
    ensures i <= n <= |Page(x)|
    decreases |Page(x)| - i
  {
    if i == |Page(x)| then i
    else if Handle(x, Page(x)[i]).Halted? then i + 1
    else ReadEnd(x, i + 1)
  }

  function Attempted(x: Input): seq<FlowObject> {
    Page(x)[..ReadEnd(x, 0)]
  }

  predicate CutShort(x: Input) {
    GuardStops(x) || exists o :: o in Page(x) && Handle(x, o).Halted?
  }

  /** The variables of the read loop. */
  datatype Reading = Reading(objects: nat, last: int, blockedAt: int, failed: bool, ingests: seq<Ingest>,
                             failures: map<string, nat>)

  /** A failure is counted before the budget is looked at, and cleared before a read object is committed. */
  function FailuresNext(failures: map<string, nat>, key: string, outcome: Outcome, h: Handling): map<string, nat> {
    if outcome.Flows? || h.GaveUp? then failures - {key}
    else if outcome.Permanent? then failures[key := FailuresOf(failures, key) + 1]
    else failures
  }

  function After(x: Input, r: Reading, o: FlowObject): Reading {
    var failures := FailuresNext(r.failures, o.key, OutcomeOf(x, o), Handle(x, o));
    match Handle(x, o)
    case Stored =>
      r.(objects := r.objects + 1, last := Larger(r.last, if o.logTime == ZERO_TIME then x.end else o.logTime),
         ingests := r.ingests + [Ingest(o.key, OutcomeOf(x, o).aggs)], failures := failures)
    case GaveUp => r.(last := Larger(r.last, o.logTime), ingests := r.ingests + [Ingest(o.key, [])],
        failures := failures)
    case Blocked =>
      r.(blockedAt := if r.blockedAt == ZERO_TIME || o.logTime < r.blockedAt then o.logTime else r.blockedAt,
         failed := true, failures := failures)
    case Halted => r.(failed := true, failures := failures)
  }

  function ReadingOf(x: Input, done: seq<FlowObject>): Reading {
    if done == [] then Reading(0, NewestSeen(Scanned(x), x.ingested, x.start), ZERO_TIME, false, [], x.failures)
    else After(x, ReadingOf(x, done[..|done| - 1]), done[|done| - 1])
  }

  function Final(x: Input): Reading {
    ReadingOf(x, Attempted(x))
  }

  function IngestedAfter(x: Input): set<string> {
    x.ingested + KeysOf(Final(x).ingests)
  }

  /** A poll that is not cut short steps back to its earliest unreadable object. */
  function PollOf(x: Input): Polled {
    var r := Final(x);
    if x.env.listed.None? then Polled(0, ZERO_TIME, true)
    else if Objects(x) == [] then Polled(0, x.end, false)
    else if CutShort(x) then Polled(r.objects, r.last, true)
    else Polled(r.objects, if r.blockedAt != ZERO_TIME && r.blockedAt < r.last then r.blockedAt else r.last, r.failed)
  }

  /**
   The cursor pollObjectStore stores: a poll that stored nothing and failed nothing moves it to the end of the
   window.
   */
  function AskedOf(x: Input): int {
    if PollOf(x).objects == 0 && !PollOf(x).failed then x.end else PollOf(x).last
  }

  /** What one poll and its cursor step leave behind. */
  ghost predicate PollEffect(x: Input, stateFails: bool, t: Tables, cursor: Option<int>,
                             t': Tables, cursor': Option<int>, ingested': set<string>, failures': map<string, nat>)
    requires Consistent(t)
  {
    && ingested' == IngestedAfter(x) && failures' == Final(x).failures
    && if AskedOf(x) == ZERO_TIME || stateFails
       then t' == Ingested(t, Final(x).ingests) && cursor' == cursor
       else
         && t' == Apply(Ingested(t, Final(x).ingests), Deltas([], Some(AskedOf(x))))
         && cursor' == MaxCursor(cursor, AskedOf(x))
  }

  // ---- The promise.

  /** Every object of a full page is given up on, and more objects wait behind it. */
  ghost predicate GivesUpOnPage(x: Input) {
    && x.start < x.end && !GuardStops(x) && |Fresh(Objects(x), x.ingested)| > x.maxObjects
    && forall o :: o in Page(x) ==> Handle(x, o).GaveUp?
  }

  /** The poll was to ingest the object and did not. */
  ghost predicate LeftBehind(x: Input, o: FlowObject) {
    o.key !in x.ingested && !(o in Attempted(x) && Settles(Handle(x, o)))
  }

  /** A poll cut short has seen or stored a newer object than one it leaves behind. */
  ghost predicate PassesOver(x: Input) {
    CutShort(x) && exists o, newer :: PassedBy(x, o, newer)
  }

  /**
   The cursor a poll asks for keeps every listed object it left un-ingested
   in reach, exactly unless it gave up on a whole page with more behind it, or
   was cut short with a newer object already behind it.
   */
  lemma AskedExactly(x: Input)
    requires Listing(Objects(x)) && NoZeroTime(Objects(x)) && x.env.listed.Some?
    requires forall o :: o in Objects(x) ==> o.logTime < x.end
    ensures Keeps(Objects(x), x.start, IngestedAfter(x), AskedOf(x)) <==> !GivesUpOnPage(x) && !PassesOver(x)
  {
    hide Listing, NoZeroTime, IngestedAfter, AskedOf, CutShort, GivesUpOnPage, PassesOver;
    if Objects(x) == [] {
      NothingListed(x);
    } else if CutShort(x) {
      CutShortExactly(x);
    } else {
      FinishedExactly(x);
    }
  }

  /**
   The object is left behind the lookback of the stored cursor: either the poll
   moved to the end of its window over a page given up on, or it was cut short
   past a newer object.
   */
  ghost predicate OutOfReach(x: Input, lookback: nat, o: FlowObject) {
    && o in Objects(x) && LeftBehind(x, o)
    && ((GivesUpOnPage(x) && o.logTime < x.end - lookback)
        || (CutShort(x) && exists newer :: PassedBy(x, o, newer) && o.logTime < newer.logTime - lookback))
  }

  /**
   The cursor asked for leaves an object of the window behind its lookback exactly when the object is out of
   reach.
   */
  lemma ReachExactly(x: Input, lookback: nat, o: FlowObject)
    requires Listing(Objects(x)) && NoZeroTime(Objects(x)) && x.env.listed.Some?
    requires forall p :: p in Objects(x) ==> p.logTime < x.end
    requires o in Objects(x) && LeftBehind(x, o) && x.start - lookback <= o.logTime
    ensures o.logTime < AskedOf(x) - lookback <==> OutOfReach(x, lookback, o)
  {
    hide Listing, NoZeroTime, IngestedAfter, AskedOf, CutShort, GivesUpOnPage, LeftBehind, Newest, PassedBy, Final;
    AskedExactly(x);
    LeftIsUningested(x, o);
    if GivesUpOnPage(x) {
      GivesUpAsks(x);
    } else if CutShort(x) {
      CutShortAsks(x);
      LastIsNewest(x);
      var last := Final(x).last;
      if o.logTime < last - lookback {
        PassedByNewest(x, last, o);
      }
      if newer :| PassedBy(x, o, newer) && o.logTime < newer.logTime - lookback {
        PassedIsNewer(x, last, o, newer);
      }
    } else {
      var i :| 0 <= i < |Objects(x)| && Objects(x)[i] == o;
      assert AskedOf(x) <= Larger(x.start, Objects(x)[i].logTime);
    }
  }

  lemma PassedIsNewer(x: Input, last: int, o: FlowObject, newer: FlowObject)
    requires Newest(x, last) && PassedBy(x, o, newer)
    ensures newer.logTime <= last
  {
  }

  /** A poll that gives up on its page moves to the end of its window. */
  lemma GivesUpAsks(x: Input)
    requires GivesUpOnPage(x)
    ensures AskedOf(x) == x.end && !CutShort(x)
  {
    FlagsAre(x);
    AllAttempted(x);
  }

  /** Before any object has been listed there is nothing to keep. */
  lemma NothingListed(x: Input)
    requires Objects(x) == []
    ensures Keeps(Objects(x), x.start, IngestedAfter(x), AskedOf(x)) && !GivesUpOnPage(x) && !PassesOver(x)
  {
    assert Fresh([], x.ingested) == [];
  }

  /** last is the newest scanned object that is not left behind, or start. */
  ghost predicate Newest(x: Input, last: int) {
    && x.start <= last
    && (forall o :: o in Scanned(x) && !LeftBehind(x, o) ==> o.logTime <= last)
    && (last == x.start || exists o :: o in Scanned(x) && !LeftBehind(x, o) && o.logTime == last)
  }

  ghost predicate PassedBy(x: Input, o: FlowObject, newer: FlowObject) {
    && o in Scanned(x) && newer in Scanned(x) && LeftBehind(x, o) && !LeftBehind(x, newer)
    && o.logTime < newer.logTime && x.start < newer.logTime
  }

  /** Only a scanned object with a newer settled one can be before last. */
  lemma PassedByNewest(x: Input, last: int, o: FlowObject)
    requires Listing(Objects(x)) && Newest(x, last) && o in Objects(x) && LeftBehind(x, o)
    requires last > Larger(x.start, o.logTime)
    ensures exists newer :: PassedBy(x, o, newer) && newer.logTime == last
  {
    hide Scanned, Listing, LeftBehind;
    var newer :| newer in Scanned(x) && !LeftBehind(x, newer) && newer.logTime == last;
    if o !in Scanned(x) {
      ScannedIsOlder(x, newer, o);
    }
    assert PassedBy(x, o, newer);
  }

  lemma NewestKeeps(x: Input, last: int)
    requires Listing(Objects(x)) && Newest(x, last)
    ensures Keeps(Objects(x), x.start, IngestedAfter(x), last) <==> !exists o, newer :: PassedBy(x, o, newer)
  {
    hide Scanned, Listing, LeftBehind, IngestedAfter, Newest;
    if o, newer :| PassedBy(x, o, newer) {
      ScannedIsListed(x, o);
      LeftIsUningested(x, o);
      NewestIsLater(x, last, newer);
      var i :| 0 <= i < |Objects(x)| && Objects(x)[i] == o;
      assert last > Larger(x.start, Objects(x)[i].logTime);
    } else {
      forall i | 0 <= i < |Objects(x)| && Objects(x)[i].key !in IngestedAfter(x)
        ensures last <= Larger(x.start, Objects(x)[i].logTime)
      {
        LeftIsUningested(x, Objects(x)[i]);
        if last > Larger(x.start, Objects(x)[i].logTime) {
          PassedByNewest(x, last, Objects(x)[i]);
        }
      }
    }
  }

  lemma NewestIsLater(x: Input, last: int, o: FlowObject)
    requires Newest(x, last) && o in Scanned(x) && !LeftBehind(x, o)
    ensures o.logTime <= last
  {
  }

  lemma CutShortExactly(x: Input)
    requires Listing(Objects(x)) && NoZeroTime(Objects(x)) && Objects(x) != [] && CutShort(x)
    ensures Keeps(Objects(x), x.start, IngestedAfter(x), AskedOf(x)) <==> !PassesOver(x)
    ensures !GivesUpOnPage(x)
  {
    LastIsNewest(x);
    NewestKeeps(x, Final(x).last);
    CutShortAsks(x);
    hide Listing, IngestedAfter, Newest, Keeps, Final, AskedOf, GivesUpOnPage, CutShort;
  }

  lemma CutShortAsks(x: Input)
    requires Objects(x) != [] && CutShort(x)
    ensures AskedOf(x) == Final(x).last && !GivesUpOnPage(x)
  {
    assert PollOf(x) == Polled(Final(x).objects, Final(x).last, true) by {
      assert x.env.listed.Some?;
    }
    if !GuardStops(x) {
      var o :| o in Page(x) && Handle(x, o).Halted?;
    }
  }

  lemma FinishedExactly(x: Input)
    requires Listing(Objects(x)) && NoZeroTime(Objects(x)) && Objects(x) != [] && !CutShort(x)
    requires forall o :: o in Objects(x) ==> o.logTime < x.end
    ensures Keeps(Objects(x), x.start, IngestedAfter(x), AskedOf(x)) <==> !GivesUpOnPage(x)
    ensures !PassesOver(x)
  {
    if PollOf(x).objects == 0 && !PollOf(x).failed {
      NothingMoved(x);
    } else {
      SteppedBack(x);
      FlagsAre(x);
      AllAttempted(x);
      hide Handle;
      assert GivesUpOnPage(x) ==> forall o :: o in Page(x) ==> Handle(x, o).GaveUp?;
    }
  }

  /** The cursor Poll itself returns keeps the promise whenever no object halts it. */
  lemma SteppedBack(x: Input)
    requires Listing(Objects(x)) && NoZeroTime(Objects(x)) && Objects(x) != [] && !CutShort(x)
    ensures Keeps(Objects(x), x.start, IngestedAfter(x), PollOf(x).last)
  {
    LastIsNewest(x);
    BlockedIsFirst(x);
    var r, last := Final(x), PollOf(x).last;
    assert x.env.listed.Some? && last <= r.last && (r.blockedAt != ZERO_TIME ==> last <= r.blockedAt);
    hide CutShort, Page, Handle, Final, PollOf, Listing, IngestedAfter, Attempted, Scanned, LeftBehind, NoZeroTime,
        Newest, PassedBy;
    forall i | 0 <= i < |Objects(x)| && Objects(x)[i].key !in IngestedAfter(x)
      ensures last <= Larger(x.start, Objects(x)[i].logTime)
    {
      var o := Objects(x)[i];
      LeftIsUningested(x, o);
      if r.last > Larger(x.start, o.logTime) {
        PassedByNewest(x, r.last, o);
        var newer :| PassedBy(x, o, newer);
        assert o in Scanned(x) by { PassedIsScanned(x, o, newer); }
      }
    }
  }

  lemma PassedIsScanned(x: Input, o: FlowObject, newer: FlowObject)
    requires PassedBy(x, o, newer)
    ensures o in Scanned(x)
  {
  }

  /** A poll that stored nothing and failed nothing gave up on every object of its page. */
  lemma NothingMoved(x: Input)
    requires Listing(Objects(x)) && Objects(x) != [] && !CutShort(x)
    requires PollOf(x).objects == 0 && !PollOf(x).failed
    requires forall o :: o in Objects(x) ==> o.logTime < x.end
    ensures Keeps(Objects(x), x.start, IngestedAfter(x), x.end) <==> !GivesUpOnPage(x)
  {
    FlagsAre(x);
    AllAttempted(x);
    assert forall o :: o in Page(x) ==> Handle(x, o).GaveUp?;
    assert !GuardStops(x);
    PageIsOldest(x);
    hide Handle, Final, PollOf, Listing, IngestedAfter, Attempted, Scanned, Fresh, Page, GuardStops, Keeps;
    if |Fresh(Objects(x), x.ingested)| <= x.maxObjects {
      AllGivenUp(x);
    } else {
      OneLeft(x);
    }
  }

  lemma AllGivenUp(x: Input)
    requires Listing(Objects(x)) && Page(x) == Attempted(x) == Fresh(Objects(x), x.ingested)
    requires forall o :: o in Page(x) ==> Handle(x, o).GaveUp?
    ensures Keeps(Objects(x), x.start, IngestedAfter(x), x.end)
  {
    hide Handle, Page, Fresh, Attempted, IngestedAfter;
    forall i | 0 <= i < |Objects(x)|
      ensures Objects(x)[i].key in IngestedAfter(x)
    {
      LeftIsUningested(x, Objects(x)[i]);
    }
  }

  lemma OneLeft(x: Input)
    requires Listing(Objects(x)) && !GuardStops(x) && |Fresh(Objects(x), x.ingested)| > x.maxObjects
    requires forall o :: o in Objects(x) ==> o.logTime < x.end
    ensures x.start < x.end ==> !Keeps(Objects(x), x.start, IngestedAfter(x), x.end)
    ensures x.start >= x.end ==> Keeps(Objects(x), x.start, IngestedAfter(x), x.end)
  {
    hide Page, IngestedAfter, Attempted, GuardStops;
    var o := Fresh(Objects(x), x.ingested)[x.maxObjects];
    assert o in Fresh(Objects(x), x.ingested) && o in Objects(x);
    LeftoverIsLeft(x);
    LeftIsUningested(x, o);
    var i :| 0 <= i < |Objects(x)| && Objects(x)[i] == o;
  }

  /** The first object behind a full page is left behind. */
  lemma LeftoverIsLeft(x: Input)
    requires Listing(Objects(x)) && !GuardStops(x) && |Fresh(Objects(x), x.ingested)| > x.maxObjects
    ensures LeftBehind(x, Fresh(Objects(x), x.ingested)[x.maxObjects])
  {
    var oldest := Fresh(Objects(x), x.ingested);
    var o := oldest[x.maxObjects];
    assert o in oldest;
    PageIsOldest(x);
    FreshIsListing(Objects(x), x.ingested);
    forall j | 0 <= j < |Attempted(x)|
      ensures Attempted(x)[j] != o
    {
      assert Attempted(x)[j] == oldest[j] && oldest[j].key != o.key;
    }
  }

  // ---- The selection loop.

  lemma {:induction false} ScanIs(x: Input, i: nat)
    requires i <= |Objects(x)| && |Fresh(Objects(x)[..i], x.ingested)| <= x.maxObjects
    requires forall j :: 0 <= j < i ==> Objects(x)[j].key !in x.env.guardFails
    ensures var all, n := Objects(x), ScanFrom(x, i);
            && |Fresh(all[..n], x.ingested)| <= x.maxObjects
            && (forall j :: 0 <= j < n ==> all[j].key !in x.env.guardFails)
            && (n < |all| && all[n].key !in x.env.guardFails ==>
                  all[n].key !in x.ingested && |Fresh(all[..n], x.ingested)| == x.maxObjects)
    decreases |Objects(x)| - i
  {
    var all := Objects(x);
    if ScanFrom(x, i) != i {
      FreshSnoc(all, i, x.ingested);
      ScanIs(x, i + 1);
    }
  }

  /** The poll stops in its selection exactly when a guard fails no later than the page is full. */
  lemma GuardStopsExactly(x: Input)
    ensures GuardStops(x) <==> exists i :: 0 <= i < |Objects(x)| && Objects(x)[i].key in x.env.guardFails
                                          && |Fresh(Objects(x)[..i], x.ingested)| <= x.maxObjects
  {
    var all, n := Objects(x), ScanFrom(x, 0);
    ScanIs(x, 0);
    if i :| 0 <= i < |all| && all[i].key in x.env.guardFails && |Fresh(all[..i], x.ingested)| <= x.maxObjects {
      if n < i && all[n].key !in x.env.guardFails {
        assert all[..i][..n] == all[..n] && all[..i][n] == all[n];
        FreshPrefix(all[..i], n, x.ingested);
        assert false;
      }
    }
  }

  lemma {:induction false} FreshPrefix(listed: seq<FlowObject>, n: nat, ingested: set<string>)
    requires n <= |listed|
    ensures Fresh(listed[..n], ingested) <= Fresh(listed, ingested)
    ensures n < |listed| && listed[n].key !in ingested ==> |Fresh(listed[..n], ingested)| < |Fresh(listed, ingested)|
    decreases |listed| - n
  {
    if n == |listed| {
      assert listed[..n] == listed;
    } else {
      FreshSnoc(listed, n, ingested);
      FreshPrefix(listed, n + 1, ingested);
    }
  }

  lemma FreshSnoc(listed: seq<FlowObject>, i: nat, ingested: set<string>)
    requires i < |listed|
    ensures Fresh(listed[..i + 1], ingested)
         == Fresh(listed[..i], ingested) + if listed[i].key in ingested then [] else [listed[i]]
  {
    assert listed[..i + 1][..i] == listed[..i];
  }

  /** The page of a listing one poll reads: its oldest un-ingested objects. */
  lemma PageIsOldest(x: Input)
    requires !GuardStops(x)
    ensures var oldest := Fresh(Objects(x), x.ingested);
            Page(x) == if |oldest| <= x.maxObjects then oldest else oldest[..x.maxObjects]
  {
    var all, n := Objects(x), ScanFrom(x, 0);
    ScanIs(x, 0);
    FreshPrefix(all, n, x.ingested);
    if n == |all| {
      assert all[..n] == all;
    }
  }

  lemma ScannedIsListed(x: Input, o: FlowObject)
    requires o in Scanned(x)
    ensures o in Objects(x)
  {
  }

  lemma ScannedIsOlder(x: Input, o: FlowObject, later: FlowObject)
    requires Listing(Objects(x)) && o in Scanned(x) && later in Objects(x) && later !in Scanned(x)
    ensures o.logTime <= later.logTime
  {
    var n := ScanFrom(x, 0);
    var i :| 0 <= i < n && Objects(x)[i] == o;
    var j :| 0 <= j < |Objects(x)| && Objects(x)[j] == later;
    assert Scanned(x) == Objects(x)[..n];
    assert n <= j by {
      assert forall k :: 0 <= k < n ==> Objects(x)[k] in Objects(x)[..n];
    }
  }

  /** The un-ingested objects keep the listing's order and keys. */
  lemma {:induction false} FreshIsListing(listed: seq<FlowObject>, ingested: set<string>)
    requires Listing(listed)
    ensures Listing(Fresh(listed, ingested))
  {
    if listed != [] {
      var front, last := listed[..|listed| - 1], listed[|listed| - 1];
      var left := Fresh(front, ingested);
      FrontIsListing(listed);
      FreshIsListing(front, ingested);
      FrontBefore(listed);
      assert Fresh(listed, ingested) == if last.key in ingested then left else left + [last];
      assert forall o :: o in left ==> o in front;
      hide Fresh, Listing;
      ListingSnoc(left, last);
    }
  }

  lemma ListingSnoc(front: seq<FlowObject>, last: FlowObject)
    requires Listing(front) && forall o :: o in front ==> o.key != last.key && o.logTime <= last.logTime
    ensures Listing(front + [last])
  {
    assert forall i :: 0 <= i < |front| ==> front[i] in front;
  }

  lemma FrontIsListing(listed: seq<FlowObject>)
    requires Listing(listed) && listed != []
    ensures Listing(listed[..|listed| - 1])
  {
  }

  lemma FrontBefore(listed: seq<FlowObject>)
    requires Listing(listed) && listed != []
    ensures var last := listed[|listed| - 1];
            forall o :: o in listed[..|listed| - 1] ==> o.key != last.key && o.logTime <= last.logTime
  {
    var front := listed[..|listed| - 1];
    forall o | o in front
      ensures o.key != listed[|listed| - 1].key && o.logTime <= listed[|listed| - 1].logTime
    {
      var i :| 0 <= i < |front| && front[i] == o;
      assert listed[i] == o;
    }
  }

  lemma PageIsListing(x: Input)
    requires Listing(Objects(x))
    ensures Listing(Page(x)) && forall o :: o in Page(x) ==> o in Scanned(x) && o.key !in x.ingested
  {
    FreshIsListing(Scanned(x), x.ingested);
  }

  // ---- The read loop.

  lemma {:induction false} ReadEndIs(x: Input, i: nat)
    requires i <= |Page(x)| && forall j :: 0 <= j < i ==> !Handle(x, Page(x)[j]).Halted?
    ensures var n := ReadEnd(x, i);
            && (forall j :: 0 <= j < n - 1 ==> !Handle(x, Page(x)[j]).Halted?)
            && (n < |Page(x)| ==> n > 0 && Handle(x, Page(x)[n - 1]).Halted?)
    decreases |Page(x)| - i
  {
    hide Page, Handle;
    if i < |Page(x)| && !Handle(x, Page(x)[i]).Halted? {
      ReadEndIs(x, i + 1);
    }
  }

  /** A poll that nothing halts attempts its whole page. */
  lemma AllAttempted(x: Input)
    requires !CutShort(x)
    ensures Attempted(x) == Page(x)
  {
    ReadEndIs(x, 0);
    assert Page(x)[..|Page(x)|] == Page(x);
  }

  /** A poll fails exactly when its listing fails, it is cut short, or an object of its page stays unreadable. */
  lemma FlagsAre(x: Input)
    ensures PollOf(x).failed <==> x.env.listed.None? || CutShort(x) || exists o :: o in Page(x) && Handle(x, o).Blocked?
    ensures PollOf(x).objects == 0 <==> forall o :: o in Attempted(x) ==> !Handle(x, o).Stored?
  {
    ReadingFlags(x, Attempted(x));
    if !CutShort(x) {
      AllAttempted(x);
    }
  }

  lemma {:induction false} ReadingFlags(x: Input, done: seq<FlowObject>)
    ensures ReadingOf(x, done).failed <==> exists o :: o in done && (Handle(x, o).Blocked? || Handle(x, o).Halted?)
    ensures ReadingOf(x, done).objects == 0 <==> forall o :: o in done ==> !Handle(x, o).Stored?
  {
    hide Handle, Scanned, OutcomeOf;
    if done != [] {
      var front, o := done[..|done| - 1], done[|done| - 1];
      ReadingFlags(x, front);
      AfterIs(x, ReadingOf(x, front), o);
      hide After;
      assert done == front + [o];
      assert o in done;
      assert forall p :: p in front ==> p in done;
    }
  }

  /** What the loop ingests are the objects that settle, each under its key. */
  lemma {:induction false} IngestsAre(x: Input, done: seq<FlowObject>)
    ensures var ingests := ReadingOf(x, done).ingests;
            && (forall o :: o in done && Settles(Handle(x, o)) ==> o.key in KeysOf(ingests))
            && (forall k :: k in KeysOf(ingests) ==> exists o :: o in done && Settles(Handle(x, o)) && o.key == k)
  {
    hide Handle, Scanned, OutcomeOf, KeysOf;
    if done == [] {
      assert KeysOf([]) == {} by { NoKeys(); }
    } else {
      var front, o := done[..|done| - 1], done[|done| - 1];
      IngestsAre(x, front);
      assert done == front + [o];
      var before, after := ReadingOf(x, front).ingests, ReadingOf(x, done).ingests;
      if Settles(Handle(x, o)) {
        KeysSnoc(before, after[|before|]);
        assert after == before + [after[|before|]];
      }
      forall k | k in KeysOf(after)
        ensures exists p :: p in done && Settles(Handle(x, p)) && p.key == k
      {
        if k in KeysOf(before) {
          var p :| p in front && Settles(Handle(x, p)) && p.key == k;
          assert p in done;
        } else {
          assert o in done;
        }
      }
    }
  }

  lemma NoKeys()
    ensures KeysOf([]) == {}
  {
  }

  lemma KeysSnoc(ingests: seq<Ingest>, i: Ingest)
    ensures KeysOf(ingests + [i]) == KeysOf(ingests) + {i.key}
  {
    KeysOfConcat(ingests, [i]);
    assert [i][0].key == i.key;
  }

  /** A listed object is un-ingested after the poll exactly when the poll left it behind. */
  lemma LeftIsUningested(x: Input, o: FlowObject)
    requires Listing(Objects(x)) && o in Objects(x)
    ensures o.key !in IngestedAfter(x) <==> LeftBehind(x, o)
  {
    IngestsAre(x, Attempted(x));
    PageIsListing(x);
    if o.key in KeysOf(Final(x).ingests) {
      var p :| p in Attempted(x) && Settles(Handle(x, p)) && p.key == o.key;
      assert p in Page(x) && p in Objects(x);
      SameKey(Objects(x), o, p);
    }
  }

  lemma SameKey(listed: seq<FlowObject>, o: FlowObject, p: FlowObject)
    requires Listing(listed) && o in listed && p in listed && o.key == p.key
    ensures o == p
  {
    var i :| 0 <= i < |listed| && listed[i] == o;
    var j :| 0 <= j < |listed| && listed[j] == p;
  }

  lemma {:induction false} NewestSeenIs(listed: seq<FlowObject>, ingested: set<string>, start: int)
    ensures var last := NewestSeen(listed, ingested, start);
            && start <= last
            && (forall o :: o in listed && o.key in ingested ==> o.logTime <= last)
            && (last == start || exists o :: o in listed && o.key in ingested && o.logTime == last)
  {
    if listed != [] {
      var front, o := listed[..|listed| - 1], listed[|listed| - 1];
      NewestSeenIs(front, ingested, start);
      assert listed == front + [o];
      var last := NewestSeen(listed, ingested, start);
      if last != start {
        if NewestSeen(front, ingested, start) == last {
          var p :| p in front && p.key in ingested && p.logTime == last;
          assert p in listed;
        } else {
          assert o in listed;
        }
      }
    }
  }

  lemma {:induction false} ReadingLast(x: Input, done: seq<FlowObject>)
    requires forall o :: o in done ==> o.logTime != ZERO_TIME
    ensures var last, seen := ReadingOf(x, done).last, NewestSeen(Scanned(x), x.ingested, x.start);
            && seen <= last
            && (forall o :: o in done && Settles(Handle(x, o)) ==> o.logTime <= last)
            && (last == seen || exists o :: o in done && Settles(Handle(x, o)) && o.logTime == last)
  {
    hide Handle, Scanned, OutcomeOf, NewestSeen;
    if done != [] {
      var front, o := done[..|done| - 1], done[|done| - 1];
      assert done == front + [o];
      assert forall p :: p in front ==> p in done;
      ReadingLast(x, front);
      var last := ReadingOf(x, done).last;
      if last == ReadingOf(x, front).last && last != NewestSeen(Scanned(x), x.ingested, x.start) {
        var p :| p in front && Settles(Handle(x, p)) && p.logTime == last;
        assert p in done;
      } else {
        assert o in done;
      }
    }
  }

  /** Before any step back, last is the newest scanned object that is not left behind, or start. */
  lemma LastIsNewest(x: Input)
    requires Listing(Objects(x)) && NoZeroTime(Objects(x))
    ensures Newest(x, Final(x).last)
  {
    hide Scanned, Page, Handle, Attempted, ReadingOf, NewestSeen, Listing, NoZeroTime;
    NewestSeenIs(Scanned(x), x.ingested, x.start);
    AttemptedAre(x);
    ReadingLast(x, Attempted(x));
    var last, seen := Final(x).last, NewestSeen(Scanned(x), x.ingested, x.start);
    if last != x.start {
      if last == seen {
        var o :| o in Scanned(x) && o.key in x.ingested && o.logTime == last;
        assert !LeftBehind(x, o);
      } else {
        var o :| o in Attempted(x) && Settles(Handle(x, o)) && o.logTime == last;
        assert o in Scanned(x) && !LeftBehind(x, o);
      }
    }
  }

  lemma AttemptedAre(x: Input)
    ensures forall o :: o in Attempted(x) ==> o in Page(x) && o in Scanned(x) && o.key !in x.ingested
    ensures NoZeroTime(Objects(x)) ==> forall o :: o in Attempted(x) ==> o.logTime != ZERO_TIME
  {
    hide Handle, ScanFrom, ReadEnd;
    assert forall o :: o in Attempted(x) ==> o in Page(x);
    forall o | o in Scanned(x)
      ensures o in Objects(x)
    {
      ScannedIsListed(x, o);
    }
  }

  lemma {:induction false} ReadingBlocked(x: Input, done: seq<FlowObject>)
    requires forall o :: o in done ==> o.logTime != ZERO_TIME
    ensures forall o :: o in done && Handle(x, o).Blocked? ==>
              ReadingOf(x, done).blockedAt != ZERO_TIME && ReadingOf(x, done).blockedAt <= o.logTime
  {
    hide Handle, Scanned, OutcomeOf, NewestSeen;
    if done != [] {
      var front, o := done[..|done| - 1], done[|done| - 1];
      assert done == front + [o];
      assert forall p :: p in front ==> p in done;
      assert o in done;
      ReadingBlocked(x, front);
    }
  }

  /** When nothing halts the poll, blockedAt is at or before every scanned object it leaves behind. */
  lemma BlockedIsFirst(x: Input)
    requires Listing(Objects(x)) && NoZeroTime(Objects(x)) && !CutShort(x)
    ensures forall o :: o in Scanned(x) && LeftBehind(x, o) ==>
              Final(x).blockedAt != ZERO_TIME && Final(x).blockedAt <= o.logTime
  {
    AllAttempted(x);
    AttemptedAre(x);
    ReadingBlocked(x, Attempted(x));
    forall o | o in Scanned(x) && LeftBehind(x, o)
      ensures o in Attempted(x) && Handle(x, o).Blocked?
    {
      assert o in Page(x);
      assert !Handle(x, o).Halted?;
    }
  }

  lemma KeysOfConcat(a: seq<Ingest>, b: seq<Ingest>)
    ensures KeysOf(a + b) == KeysOf(a) + KeysOf(b)
  {
    forall k | k in KeysOf(a) + KeysOf(b)
      ensures k in KeysOf(a + b)
    {
      if k in KeysOf(a) {
        var i :| 0 <= i < |a| && a[i].key == k;
        assert (a + b)[i].key == k;
      } else {
        var i :| 0 <= i < |b| && b[i].key == k;
        assert (a + b)[|a| + i].key == k;
      }
    }
  }

  /** Objects of one page are different, and none of them was ingested before. */
  lemma PageKeyIsNew(x: Input, k: nat)
    requires Listing(Objects(x)) && k < |Page(x)|
    ensures Page(x)[k].key !in x.ingested && Page(x)[k].key !in KeysOf(ReadingOf(x, Page(x)[..k]).ingests)
    ensures forall o :: o in Page(x)[..k] ==> o.key != Page(x)[k].key
  {
    hide Handle, ReadingOf, Scanned, KeysOf;
    var page := Page(x);
    PageIsListing(x);
    assert page[k] in page;
    forall o | o in page[..k]
      ensures o.key != page[k].key
    {
      var i :| 0 <= i < k && page[i] == o;
    }
    IngestsAre(x, page[..k]);
  }

  /** What one object does to the ingests and the failures of a reading. */
  lemma AfterIs(x: Input, r: Reading, o: FlowObject)
    ensures After(x, r, o).failures == FailuresNext(r.failures, o.key, OutcomeOf(x, o), Handle(x, o))
    ensures After(x, r, o).ingests
         == r.ingests + if Settles(Handle(x, o))
                        then [Ingest(o.key, if Handle(x, o).Stored? then OutcomeOf(x, o).aggs else [])]
                        else []
    ensures After(x, r, o).failed == (r.failed || Handle(x, o).Blocked? || Handle(x, o).Halted?)
    ensures After(x, r, o).objects == r.objects + if Handle(x, o).Stored? then 1 else 0
  {
    hide Handle, FailuresNext, OutcomeOf;
  }

  /** Failures of objects the loop did not get to stay as they were. */
  lemma {:induction false} OtherFailures(x: Input, done: seq<FlowObject>, key: string)
    requires forall o :: o in done ==> o.key != key
    ensures FailuresOf(ReadingOf(x, done).failures, key) == FailuresOf(x.failures, key)
  {
    hide Handle, Scanned, OutcomeOf;
    if done != [] {
      var front, o := done[..|done| - 1], done[|done| - 1];
      assert done == front + [o];
      assert o in done;
      OtherFailures(x, front, key);
      hide After, FailuresNext, FailuresOf;
      AfterIs(x, ReadingOf(x, front), o);
      NextFailures(ReadingOf(x, front).failures, o.key, OutcomeOf(x, o), Handle(x, o), key);
    }
  }

  /** Each attempted object's failures are counted or cleared as its handling says. */
  lemma {:induction false} FailuresAre(x: Input, n: nat, i: nat)
    requires Listing(Objects(x)) && i < n <= |Page(x)|
    ensures var o := Page(x)[i];
            FailuresOf(ReadingOf(x, Page(x)[..n]).failures, o.key)
            == FailuresTold(Handle(x, o), OutcomeOf(x, o), FailuresOf(x.failures, o.key))
    decreases n
  {
    hide Page, Handle, OutcomeOf, Scanned, FailuresOf, FailuresTold;
    var page := Page(x);
    PageKeyIsNew(x, n - 1);
    assert page[..n][..n - 1] == page[..n - 1];
    var o := page[n - 1];
    NextFailures(ReadingOf(x, page[..n - 1]).failures, o.key, OutcomeOf(x, o), Handle(x, o), page[i].key);
    if i == n - 1 {
      OtherFailures(x, page[..n - 1], page[i].key);
    } else {
      FailuresAre(x, n - 1, i);
      assert page[i] in page[..n - 1];
    }
  }

  /** The failures an object has after it was handled. */
  function FailuresTold(h: Handling, outcome: Outcome, failures: nat): nat {
    match h
    case Stored => 0
    case GaveUp => 0
    case Blocked => if outcome.Permanent? then failures + 1 else failures
    case Halted => if outcome.Flows? then 0 else if outcome.Permanent? then failures + 1 else failures
  }

  lemma NextFailures(failures: map<string, nat>, key: string, outcome: Outcome, h: Handling, other: string)
    requires (h.Stored? ==> outcome.Flows?) && (outcome.Flows? ==> h.Stored? || h.Halted?)
    ensures FailuresOf(FailuresNext(failures, key, outcome, h), other)
         == if other == key then FailuresTold(h, outcome, FailuresOf(failures, key)) else FailuresOf(failures, other)
  {
  }

  /**
   What one read object comes to: only permanent failures count, only the
   last of a full budget of them records an object without its flows, and
   nothing else than a failing commit keeps flows out of the store.
   */
  lemma ReadExactly(x: Input, o: FlowObject)
    requires Listing(Objects(x)) && o in Attempted(x)
    ensures var stored := o.key in IngestedAfter(x);
            var before, after := FailuresOf(x.failures, o.key), FailuresOf(Final(x).failures, o.key);
            match OutcomeOf(x, o)
            case Flows(aggs) =>
              && (stored <==> o.key !in x.env.commitFails) && after == 0
              && (stored ==> Ingest(o.key, aggs) in Final(x).ingests)
            case Permanent =>
              && (stored <==> before + 1 >= MAX_READ_ATTEMPTS && o.key !in x.env.commitFails)
              && after == (if stored then 0 else before + 1)
              && (stored ==> Ingest(o.key, []) in Final(x).ingests)
            case Transient => !stored && after == before
            case Cancelled => !stored && after == before
  {
    var n := ReadEnd(x, 0);
    var i :| 0 <= i < n && Page(x)[i] == o;
    FailuresAre(x, n, i);
    if Settles(Handle(x, o)) {
      IngestedAs(x, Attempted(x), o);
    }
    AttemptedAre(x);
    assert o in Objects(x) by { ScannedIsListed(x, o); }
    LeftIsUningested(x, o);
  }

  /** The objects a poll does not read keep their failures and stay out. */
  lemma UnreadStays(x: Input, key: string)
    requires Listing(Objects(x)) && forall o :: o in Attempted(x) ==> o.key != key
    ensures key in IngestedAfter(x) <==> key in x.ingested
    ensures FailuresOf(Final(x).failures, key) == FailuresOf(x.failures, key)
  {
    hide Attempted;
    OtherFailures(x, Attempted(x), key);
    IngestsAre(x, Attempted(x));
  }

  /** A read that ends the poll: the context is gone, or what it would commit does not commit. */
  predicate Ends(x: Input, o: FlowObject) {
    match OutcomeOf(x, o)
    case Flows(_) => o.key in x.env.commitFails
    case Permanent => FailuresOf(x.failures, o.key) + 1 >= MAX_READ_ATTEMPTS && o.key in x.env.commitFails
    case Transient => false
    case Cancelled => true
  }

  /** A poll reads its page in order, up to the first read that ends it. */
  lemma ReadsUntilTheEnd(x: Input)
    ensures Attempted(x) <= Page(x) && forall i :: 0 <= i < |Attempted(x)| - 1 ==> !Ends(x, Attempted(x)[i])
    ensures |Attempted(x)| < |Page(x)| ==> Attempted(x) != [] && Ends(x, Attempted(x)[|Attempted(x)| - 1])
  {
    hide Page;
    ReadEndIs(x, 0);
    assert forall o :: Handle(x, o).Halted? <==> Ends(x, o);
  }

  /** What is recorded for an object that settles. */
  lemma {:induction false} IngestedAs(x: Input, done: seq<FlowObject>, o: FlowObject)
    requires o in done && Settles(Handle(x, o))
    ensures Ingest(o.key, if Handle(x, o).Stored? then OutcomeOf(x, o).aggs else []) in ReadingOf(x, done).ingests
  {
    hide Handle, OutcomeOf;
    var front, last := done[..|done| - 1], done[|done| - 1];
    assert done == front + [last];
    hide After;
    AfterIs(x, ReadingOf(x, front), last);
    if o != last {
      IngestedAs(x, front, o);
    }
  }

  /** What one poll ingests is new, and each object is ingested once. */
  lemma {:induction false} IngestsAreNew(x: Input, n: nat)
    requires Listing(Objects(x)) && n <= |Page(x)|
    ensures OncePerKey(ReadingOf(x, Page(x)[..n]).ingests) && KeysOf(ReadingOf(x, Page(x)[..n]).ingests) !! x.ingested
  {
    hide Handle, OutcomeOf, KeysOf, Page, Scanned;
    if n == 0 {
      NoKeys();
    } else {
      var page := Page(x);
      var before, after := ReadingOf(x, page[..n - 1]).ingests, ReadingOf(x, page[..n]).ingests;
      PageKeyIsNew(x, n - 1);
      IngestsAreNew(x, n - 1);
      assert page[..n][..n - 1] == page[..n - 1];
      hide After;
      AfterIs(x, ReadingOf(x, page[..n - 1]), page[n - 1]);
      if Settles(Handle(x, page[n - 1])) {
        var i := after[|before|];
        KeysSnoc(before, i);
        DistinctSnoc(before, i);
      }
    }
  }

  lemma DistinctSnoc(ingests: seq<Ingest>, i: Ingest)
    requires OncePerKey(ingests) && i.key !in KeysOf(ingests)
    ensures OncePerKey(ingests + [i])
  {
    assert forall j :: 0 <= j < |ingests| ==> ingests[j].key in KeysOf(ingests);
  }

  lemma IngestedSnoc(t: Tables, ingests: seq<Ingest>, i: Ingest)
    requires Consistent(t)
    ensures Ingested(t, ingests + [i]) == Apply(Ingested(t, ingests), Deltas(i.aggs, None))
  {
    assert (ingests + [i])[..|ingests|] == ingests;
  }

  // ---- The source.

  class ObjectStoreSource {
    const maxObjects: nat
    var readFailures: map<string, nat>

    constructor (maxObjects: nat)
      ensures this.maxObjects == maxObjects && readFailures == map[]
    {
      this.maxObjects := maxObjects;
      readFailures := map[];
    }

    ghost function InputOf(store: Store, env: Env, start: int, end: int): Input
      reads this, store
    {
      Input(env, maxObjects, readFailures, store.ingested, start, end)
    }

    method RecordReadFailure(key: string) returns (attempts: nat)
      modifies this
      ensures attempts == FailuresOf(old(readFailures), key) + 1
      ensures readFailures == old(readFailures)[key := attempts]
    {
      attempts := FailuresOf(readFailures, key) + 1;
      readFailures := readFailures[key := attempts];
    }

    method ClearReadFailure(key: string)
      modifies this
      ensures readFailures == old(readFailures) - {key}
    {
      readFailures := readFailures - {key};
    }

    /** The selection loop: the oldest un-ingested objects, up to maxObjects, unless a guard fails first. */
    method Select(x: Input) returns (selected: seq<FlowObject>, last: int, stopped: bool)
      ensures selected == Fresh(Scanned(x), x.ingested) && |selected| <= x.maxObjects
      ensures last == NewestSeen(Scanned(x), x.ingested, x.start)
      ensures stopped <==> exists i :: 0 <= i < |Objects(x)| && Objects(x)[i].key in x.env.guardFails
                                       && |Fresh(Objects(x)[..i], x.ingested)| <= x.maxObjects
      ensures !stopped ==>
                selected == Page(x) && selected <= Fresh(Objects(x), x.ingested)
                && (selected == Fresh(Objects(x), x.ingested) || |selected| == x.maxObjects)
    {
      GuardStopsExactly(x);
      var objects := Objects(x);
      if !GuardStops(x) {
        PageIsOldest(x);
      }
      hide Fresh, GuardStops, NewestSeen;
      var scanned := 0;
      selected, last, stopped := [], x.start, false;
      NothingSelected(x);
      while scanned < |objects|
        invariant scanned <= |objects| && ScanFrom(x, 0) == ScanFrom(x, scanned)
        invariant selected == Fresh(objects[..scanned], x.ingested) && |selected| <= x.maxObjects
        invariant last == NewestSeen(objects[..scanned], x.ingested, x.start)
      {
        var obj := objects[scanned];
        if obj.key in x.env.guardFails {
          stopped := true;
          StopsAt(x, scanned);
          return;
        }
        ScannedOne(x, scanned);
        if obj.key in x.ingested {
          if obj.logTime > last {
            last := obj.logTime;
          }
        } else {
          if |selected| >= x.maxObjects {
            StopsAt(x, scanned);
            return;
          }
          selected := selected + [obj];
        }
        scanned := scanned + 1;
      }
      StopsAt(x, scanned);
    }

    /** CommitObjectIngest without a poll end, for a key that is not recorded yet. */
    method CommitIngest(store: Store, key: string, aggs: seq<Aggregate>)
      requires store.Valid() && key !in store.ingested
      modifies store
      ensures store.Valid() && store.cursor == old(store.cursor)
      ensures store.Snapshot() == Apply(old(store.Snapshot()), Deltas(aggs, None))
      ensures store.ingested == old(store.ingested) + {key}
    {
      var _ := store.CommitObjectIngest(key, aggs, None);
    }

    /** One object of the read loop. */
    method HandleObject(store: Store, obj: FlowObject, outcome: Outcome, commitFails: bool) returns (h: Handling)
      requires store.Valid() && obj.key !in store.ingested
      modifies this, store
      ensures store.Valid() && store.cursor == old(store.cursor)
      ensures h == HandlingOf(outcome, FailuresOf(old(readFailures), obj.key), commitFails)
      ensures readFailures == FailuresNext(old(readFailures), obj.key, outcome, h)
      ensures Settles(h) ==>
              store.Snapshot() == Apply(old(store.Snapshot()), Deltas(if h.Stored? then outcome.aggs else [], None))
      ensures store.ingested == old(store.ingested) + if Settles(h) then {obj.key} else {}
      ensures !Settles(h) ==> store.Snapshot() == old(store.Snapshot())
      ensures outcome.Transient? || outcome.Cancelled? ==>
                obj.key !in store.ingested && readFailures == old(readFailures)
      ensures outcome.Permanent? ==>
                (obj.key in store.ingested <==>
                 FailuresOf(old(readFailures), obj.key) + 1 >= MAX_READ_ATTEMPTS && !commitFails)
                && FailuresOf(readFailures, obj.key)
                   == if obj.key in store.ingested then 0 else FailuresOf(old(readFailures), obj.key) + 1
      ensures outcome.Flows? ==> (obj.key in store.ingested <==> !commitFails) && obj.key !in readFailures
    {
      hide Apply, Consistent, LegacySound;
      match outcome {
        case Cancelled =>
          h := Halted;
        case Transient =>
          h := Blocked;
        case Permanent =>
          var attempts := RecordReadFailure(obj.key);
          if attempts < MAX_READ_ATTEMPTS {
            h := Blocked;
          } else if commitFails {
            h := Halted;
          } else {
            CommitIngest(store, obj.key, []);
            ClearReadFailure(obj.key);
            h := GaveUp;
          }
        case Flows(aggs) =>
          ClearReadFailure(obj.key);
          if commitFails {
            h := Halted;
          } else {
            CommitIngest(store, obj.key, aggs);
            h := Stored;
          }
      }
    }

    /** The cursor bookkeeping of the read loop. */
    method NoteObject(obj: FlowObject, h: Handling, p0: Polled, blocked0: int, end: int) returns (p: Polled,
                      blockedAt: int)
      ensures p.failed == (p0.failed || !Settles(h))
      ensures p.objects == p0.objects + if h.Stored? then 1 else 0
      ensures p.last == match h
                        case Stored => Larger(p0.last, if obj.logTime == ZERO_TIME then end else obj.logTime)
                        case GaveUp => Larger(p0.last, obj.logTime)
                        case _ => p0.last
      ensures blockedAt == if h.Blocked? && (blocked0 == ZERO_TIME || obj.logTime < blocked0) then obj.logTime
              else blocked0
    {
      p, blockedAt := p0, blocked0;
      match h {
        case Halted =>
          p := p.(failed := true);
        case Blocked =>
          p := p.(failed := true);
          if blockedAt == ZERO_TIME || obj.logTime < blockedAt {
            blockedAt := obj.logTime;
          }
        case GaveUp =>
          if obj.logTime > p.last {
            p := p.(last := obj.logTime);
          }
        case Stored =>
          var pollEnd := if obj.logTime == ZERO_TIME then end else obj.logTime;
          p := p.(objects := p.objects + 1);
          if pollEnd > p.last {
            p := p.(last := pollEnd);
          }
      }
    }

    /**
     The read loop. blockedAt is the earliest unreadable object, or the zero
     time when there is none.
     */
    method ReadSelected(store: Store, x: Input, selected: seq<FlowObject>, scannedLast: int)
      returns (p: Polled, blockedAt: int, halted: bool)
      requires store.Valid() && Listing(Objects(x)) && !GuardStops(x)
      requires selected == Page(x) && scannedLast == NewestSeen(Scanned(x), x.ingested, x.start)
      requires x.ingested == store.ingested && x.failures == readFailures
      modifies this, store
      ensures store.Valid() && store.cursor == old(store.cursor)
      ensures store.Snapshot() == Ingested(old(store.Snapshot()), Final(x).ingests)
      ensures store.ingested == IngestedAfter(x) && readFailures == Final(x).failures
      ensures p == Polled(Final(x).objects, Final(x).last, Final(x).failed) && blockedAt == Final(x).blockedAt
      ensures halted == CutShort(x)
    {
      hide *;
      p, blockedAt, halted := Polled(0, scannedLast, false), ZERO_TIME, false;
      ghost var t := store.Snapshot();
      NothingYet(store, x, t, p);
      var k := 0;
      while k < |selected|
        invariant 0 <= k <= |selected|
        invariant store.Valid() && store.cursor == old(store.cursor)
        invariant ReadEnd(x, 0) == ReadEnd(x, k) && forall i :: 0 <= i < k ==> !Handle(x, selected[i]).Halted?
        invariant ReadThrough(store, x, k, t, p, blockedAt)
      {
        p, blockedAt, halted := ReadOne(store, x, selected, k, p, blockedAt, t);
        ReadEndNext(x, k);
        if halted {
          ReadTo(x, k + 1);
          ReadIsFinal(store, x, k + 1, t, p, blockedAt);
          return;
        }
        k := k + 1;
      }
      ReadTo(x, k);
      ReadIsFinal(store, x, k, t, p, blockedAt);
    }

    /** The loop's variables and the store are those of the reading of the first k objects. */
    ghost predicate ReadThrough(store: Store, x: Input, k: nat, t: Tables, p: Polled, blockedAt: int)
      requires Consistent(t) && k <= |Page(x)|
      reads this, store
    {
      var r := ReadingOf(x, Page(x)[..k]);
      && store.Snapshot() == Ingested(t, r.ingests)
      && store.ingested == x.ingested + KeysOf(r.ingests) && readFailures == r.failures
      && p == Polled(r.objects, r.last, r.failed) && blockedAt == r.blockedAt
    }

    lemma NothingYet(store: Store, x: Input, t: Tables, p: Polled)
      requires store.Valid() && t == store.Snapshot() && x.ingested == store.ingested && x.failures == readFailures
      requires p == Polled(0, NewestSeen(Scanned(x), x.ingested, x.start), false)
      ensures Consistent(t) && ReadThrough(store, x, 0, t, p, ZERO_TIME)
    {
      NoKeys();
      assert Page(x)[..0] == [];
    }

    lemma ReadIsFinal(store: Store, x: Input, k: nat, t: Tables, p: Polled, blockedAt: int)
      requires Consistent(t) && k <= |Page(x)| && ReadThrough(store, x, k, t, p, blockedAt)
      requires Final(x) == ReadingOf(x, Page(x)[..k])
      ensures store.Snapshot() == Ingested(t, Final(x).ingests)
      ensures store.ingested == IngestedAfter(x) && readFailures == Final(x).failures
      ensures p == Polled(Final(x).objects, Final(x).last, Final(x).failed) && blockedAt == Final(x).blockedAt
    {
    }

    /** One turn of the read loop. */
    method ReadOne(store: Store, x: Input, selected: seq<FlowObject>, k: nat, p0: Polled, blocked0: int,
                   ghost t: Tables)
      returns (p: Polled, blockedAt: int, halted: bool)
      requires store.Valid() && Consistent(t) && Listing(Objects(x)) && selected == Page(x) && k < |selected|
      requires ReadThrough(store, x, k, t, p0, blocked0)
      modifies this, store
      ensures store.Valid() && store.cursor == old(store.cursor)
      ensures ReadThrough(store, x, k + 1, t, p, blockedAt)
      ensures halted == Handle(x, selected[k]).Halted?
    {
      hide Apply, Consistent, LegacySound, Listing, Ingested, Page, HandlingOf, FailuresNext, KeysOf, ReadingOf,
          Handle, OutcomeOf;
      var obj := selected[k];
      BeforeObject(x, k);
      var h := HandleObject(store, obj, OutcomeOf(x, obj), obj.key in x.env.commitFails);
      p, blockedAt := NoteObject(obj, h, p0, blocked0, x.end);
      AfterObject(t, x, k);
      halted := h.Halted?;
    }

    /** Poll. listed is None when the listing itself failed. */
    method Poll(store: Store, env: Env, start: int, end: int) returns (p: Polled)
      requires store.Valid() && (env.listed.Some? ==> Listing(env.listed.value))
      modifies this, store
      ensures store.Valid() && store.cursor == old(store.cursor)
      ensures var x := old(InputOf(store, env, start, end));
              && p == PollOf(x) && store.Snapshot() == Ingested(old(store.Snapshot()), Final(x).ingests)
              && store.ingested == IngestedAfter(x) && readFailures == Final(x).failures
    {
      var x := Input(env, maxObjects, readFailures, store.ingested, start, end);
      if env.listed.None? || |env.listed.value| == 0 {
        NothingRead(x, store.Snapshot());
        return Polled(0, if env.listed.None? then ZERO_TIME else end, env.listed.None?);
      }
      GuardStopsExactly(x);
      var selected, last, stopped := Select(x);
      if stopped {
        NothingRead(x, store.Snapshot());
        return Polled(0, last, true);
      }
      var blockedAt, halted;
      p, blockedAt, halted := ReadSelected(store, x, selected, last);
      if halted {
        HaltedFails(x);
      }
      if !halted && blockedAt != ZERO_TIME && blockedAt < p.last {
        p := p.(last := blockedAt);
      }
    }

    /**
     pollObjectStore: a poll that stored nothing and failed nothing moves the
     cursor to the end of the window, and the cursor is stored whatever error
     the poll returned.
     */
    method PollObjectStore(store: Store, env: Env, start: int, end: int, stateFails: bool) returns (p: Polled,
                           asked: int)
      requires store.Valid() && (env.listed.Some? ==> Listing(env.listed.value))
      modifies this, store
      ensures store.Valid() && p == PollOf(old(InputOf(store, env, start, end)))
      ensures asked == AskedOf(old(InputOf(store, env, start, end)))
      ensures PollEffect(old(InputOf(store, env, start, end)), stateFails, old(store.Snapshot()), old(store.cursor),
                         store.Snapshot(), store.cursor, store.ingested, readFailures)
      ensures env.listed.Some? && NoZeroTime(env.listed.value)
              && (forall o :: o in env.listed.value ==> o.logTime < end) ==>
                var x := old(InputOf(store, env, start, end));
                Keeps(env.listed.value, start, store.ingested, asked) <==> !GivesUpOnPage(x) && !PassesOver(x)
    {
      ghost var x := InputOf(store, env, start, end);
      if env.listed.Some? && NoZeroTime(env.listed.value) && forall o :: o in env.listed.value ==> o.logTime < end {
        AskedExactly(x);
      }
      hide Apply, Consistent, Ingested, LegacySound, Listing, PollOf, Final, IngestedAfter, GivesUpOnPage, PassesOver,
          Keeps, NoZeroTime;
      p := Poll(store, env, start, end);
      asked := if p.objects == 0 && !p.failed then end else p.last;
      if asked != ZERO_TIME && !stateFails {
        store.UpdatePollState(Some(asked));
      }
    }
  }

  lemma NothingSelected(x: Input)
    ensures Fresh(Objects(x)[..0], x.ingested) == [] && NewestSeen(Objects(x)[..0], x.ingested, x.start) == x.start
  {
  }

  lemma StopsAt(x: Input, i: nat)
    requires i <= |Objects(x)| && ScanFrom(x, 0) == i
    ensures Scanned(x) == Objects(x)[..i]
    ensures GuardStops(x) <==> i < |Objects(x)| && Objects(x)[i].key in x.env.guardFails
  {
  }

  lemma ScannedOne(x: Input, i: nat)
    requires i < |Objects(x)|
    ensures var o := Objects(x)[i];
            && Fresh(Objects(x)[..i + 1], x.ingested) == Fresh(Objects(x)[..i], x.ingested)
                + (if o.key in x.ingested then [] else [o])
            && NewestSeen(Objects(x)[..i + 1], x.ingested, x.start)
               == if o.key in x.ingested then Larger(NewestSeen(Objects(x)[..i], x.ingested, x.start), o.logTime)
                  else NewestSeen(Objects(x)[..i], x.ingested, x.start)
  {
    FreshSnoc(Objects(x), i, x.ingested);
    assert Objects(x)[..i + 1][..i] == Objects(x)[..i];
  }

  /** A poll that lists nothing or is stopped in its selection leaves the store alone. */
  lemma NothingRead(x: Input, t: Tables)
    requires Consistent(t) && (Objects(x) == [] || GuardStops(x))
    ensures Final(x) == Reading(0, NewestSeen(Scanned(x), x.ingested, x.start), ZERO_TIME, false, [], x.failures)
    ensures IngestedAfter(x) == x.ingested && Ingested(t, []) == t
  {
    assert Page(x) == [];
  }

  /** What one object ingests, in the tables and in the set of keys. */
  lemma AfterIngests(t: Tables, x: Input, r: Reading, o: FlowObject)
    requires Consistent(t)
    ensures var h, next := Handle(x, o), After(x, r, o).ingests;
            && KeysOf(next) == KeysOf(r.ingests) + (if Settles(h) then {o.key} else {})
            && Ingested(t, next) == if Settles(h)
                then Apply(Ingested(t, r.ingests), Deltas(if h.Stored? then OutcomeOf(x, o).aggs else [], None))
                                    else Ingested(t, r.ingests)
  {
    hide Apply, Consistent, Ingested, KeysOf;
    var h, next := Handle(x, o), After(x, r, o).ingests;
    if Settles(h) {
      var i := Ingest(o.key, if h.Stored? then OutcomeOf(x, o).aggs else []);
      assert next == r.ingests + [i];
      KeysSnoc(r.ingests, i);
      IngestedSnoc(t, r.ingests, i);
    }
  }

  lemma HaltedFails(x: Input)
    requires CutShort(x) && !GuardStops(x)
    ensures Final(x).failed
  {
    ReadEndIs(x, 0);
    ReadingFlags(x, Attempted(x));
    var o :| o in Page(x) && Handle(x, o).Halted?;
    var j :| 0 <= j < |Page(x)| && Page(x)[j] == o;
    var n := ReadEnd(x, 0);
    if n < |Page(x)| {
      assert Attempted(x)[n - 1] in Attempted(x);
    } else {
      assert Attempted(x)[j] in Attempted(x);
    }
  }

  /** The next object of the page is new, and its failures are still those the poll began with. */
  lemma BeforeObject(x: Input, k: nat)
    requires Listing(Objects(x)) && k < |Page(x)|
    ensures var o, r := Page(x)[k], ReadingOf(x, Page(x)[..k]);
            && o.key !in x.ingested + KeysOf(r.ingests)
            && HandlingOf(OutcomeOf(x, o), FailuresOf(r.failures, o.key), o.key in x.env.commitFails) == Handle(x, o)
  {
    hide Page, ReadingOf, KeysOf;
    PageKeyIsNew(x, k);
    OtherFailures(x, Page(x)[..k], Page(x)[k].key);
  }

  /** The loop's variables after one more object. */
  lemma AfterObject(t: Tables, x: Input, k: nat)
    requires Consistent(t) && k < |Page(x)|
    ensures var o := Page(x)[k];
            var h, r, next := Handle(x, o), ReadingOf(x, Page(x)[..k]), ReadingOf(x, Page(x)[..k + 1]);
            && next.failed == (r.failed || !Settles(h))
            && next.objects == r.objects + (if h.Stored? then 1 else 0)
            && next.last == (match h
                             case Stored => Larger(r.last, if o.logTime == ZERO_TIME then x.end else o.logTime)
                             case GaveUp => Larger(r.last, o.logTime)
                             case _ => r.last)
            && next.blockedAt
                == (if h.Blocked? && (r.blockedAt == ZERO_TIME || o.logTime < r.blockedAt) then o.logTime
                else r.blockedAt)
            && next.failures == FailuresNext(r.failures, o.key, OutcomeOf(x, o), h)
            && KeysOf(next.ingests) == KeysOf(r.ingests) + (if Settles(h) then {o.key} else {})
            && Ingested(t, next.ingests) == if Settles(h)
                then Apply(Ingested(t, r.ingests), Deltas(if h.Stored? then OutcomeOf(x, o).aggs else [], None))
                                            else Ingested(t, r.ingests)
  {
    hide Page, Handle, OutcomeOf, Scanned, KeysOf, Ingested, Apply, Consistent, FailuresNext;
    assert Page(x)[..k + 1][..k] == Page(x)[..k];
    AfterIngests(t, x, ReadingOf(x, Page(x)[..k]), Page(x)[k]);
  }

  /** Where the loop ends is the final reading. */
  lemma ReadTo(x: Input, n: nat)
    requires n <= |Page(x)| && ReadEnd(x, 0) == n && !GuardStops(x)
    requires forall i :: 0 <= i < n - 1 ==> !Handle(x, Page(x)[i]).Halted?
    requires n == |Page(x)| || (n > 0 && Handle(x, Page(x)[n - 1]).Halted?)
    ensures Final(x) == ReadingOf(x, Page(x)[..n])
    ensures CutShort(x) <==> n > 0 && Handle(x, Page(x)[n - 1]).Halted?
  {
    hide Page, Handle, ReadingOf, ReadEnd;
    if n > 0 {
      assert Page(x)[n - 1] in Page(x);
    }
  }

  lemma ReadEndNext(x: Input, k: nat)
    requires k < |Page(x)|
    ensures ReadEnd(x, k) == if Handle(x, Page(x)[k]).Halted? then k + 1 else ReadEnd(x, k + 1)
  {
    hide Page, Handle;
  }

  /** The cursor asked for is no earlier than the start and the objects of the listing. */
  lemma AskedAtLeast(x: Input, low: int)
    requires x.env.listed.Some? && Listing(Objects(x)) && NoZeroTime(Objects(x)) && low <= x.start
    requires forall o :: o in Objects(x) ==> low <= o.logTime
    ensures AskedOf(x) >= low || AskedOf(x) == x.end
  {
    LastIsNewest(x);
    AttemptedAre(x);
    forall o | o in Attempted(x)
      ensures low <= o.logTime
    {
      ScannedIsListed(x, o);
    }
    BlockedAtLeast(x, Attempted(x), low);
  }

  lemma {:induction false} BlockedAtLeast(x: Input, done: seq<FlowObject>, low: int)
    requires forall o :: o in done ==> low <= o.logTime
    ensures ReadingOf(x, done).blockedAt == ZERO_TIME || ReadingOf(x, done).blockedAt >= low
  {
    hide Handle, Scanned, OutcomeOf;
    if done != [] {
      var front, o := done[..|done| - 1], done[|done| - 1];
      assert done == front + [o];
      assert o in done;
      BlockedAtLeast(x, front, low);
    }
  }

  /** Whatever a poll ingests it has listed. */
  lemma IngestIsListed(x: Input, key: string) returns (o: FlowObject)
    requires key in KeysOf(Final(x).ingests)
    ensures o in Objects(x) && o.key == key
  {
    IngestsAre(x, Attempted(x));
    AttemptedAre(x);
    o :| o in Attempted(x) && Settles(Handle(x, o)) && o.key == key;
    ScannedIsListed(x, o);
  }
}

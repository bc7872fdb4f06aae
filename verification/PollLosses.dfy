/**
 The ways a run of object-store polls does lose an object, each with a run
 from an empty store whose turns are safe up to the one that loses it: a page
 given up on, a guard that fails, a commit that fails, and a first cursor that
 is not stored.

 LostForGood says what follows: no later poll lists the object.
 */
module PollLosses {
  import opened PairGroups
  import opened HourRollup
  import opened RollupStore
  import opened ObjectPoll
  import opened PollRuns

  const NO_TABLES: Tables := Tables(map[], map[], -1)

  const FIRST: Progress := Progress(None, {}, map[], NO_TABLES, 0, {})

  lemma FirstIsConsistent()
    ensures Consistent(NO_TABLES)
  {
    assert HoursOf(map[], -1) == map[];
  }

  // ---- Small listings.

  lemma ThreeFresh(a: FlowObject, b: FlowObject, z: FlowObject, ingested: set<string>)
    ensures Fresh([], ingested) == []
    ensures Fresh([a], ingested) == if a.key in ingested then [] else [a]
    ensures Fresh([a, b], ingested) == Fresh([a], ingested) + if b.key in ingested then [] else [b]
    ensures Fresh([a, b, z], ingested) == Fresh([a, b], ingested) + if z.key in ingested then [] else [z]
  {
    assert [a][..0] == [] && [a, b][..1] == [a] && [a, b, z][..2] == [a, b];
  }

  /** A listing that fits the page and meets no failing guard is scanned to its end. */
  lemma AllScanned(x: Input)
    requires |Fresh(Objects(x), x.ingested)| <= x.maxObjects
    requires forall o :: o in Objects(x) ==> o.key !in x.env.guardFails
    ensures Scanned(x) == Objects(x) && !GuardStops(x) && Page(x) == Fresh(Objects(x), x.ingested)
  {
    var all, n := Objects(x), ScanFrom(x, 0);
    ScanIs(x, 0);
    FreshPrefix(all, n, x.ingested);
    assert forall i :: 0 <= i < |all| ==> all[i] in all;
    assert all[..|all|] == all;
  }

  lemma ReadingSnoc(x: Input, done: seq<FlowObject>, o: FlowObject)
    ensures ReadingOf(x, done + [o]) == After(x, ReadingOf(x, done), o)
  {
    assert (done + [o])[..|done|] == done;
  }

  /** A page read before anything of the listing is ingested begins at start. */
  lemma ReadingStarts(x: Input)
    requires forall o :: o in Scanned(x) ==> o.key !in x.ingested
    ensures ReadingOf(x, []) == Reading(0, x.start, ZERO_TIME, false, [], x.failures)
  {
    hide Scanned;
    NewestSeenIs(Scanned(x), x.ingested, x.start);
  }

  lemma OneTurn(c: Config, g: Progress, turn: Turn)
    requires Consistent(g.tables) && g.seen == {} && Takes(c, g, turn, TurnOf(c, g, turn))
    ensures IsPollRun(c, [g, TurnOf(c, g, turn)], [turn])
  {
  }

  lemma TwoTurns(c: Config, g: Progress, first: Turn, h: Progress, second: Turn)
    requires Consistent(g.tables) && g.seen == {} && Takes(c, g, first, h)
    requires Consistent(h.tables) && Takes(c, h, second, TurnOf(c, h, second))
    ensures IsPollRun(c, [g, h, TurnOf(c, h, second)], [first, second])
  {
    hide Takes;
  }

  /** The cursor and the ingested keys after a poll whose cursor is stored. */
  lemma StoredTurn(c: Config, g: Progress, env: Env, end: int)
    requires Consistent(g.tables) && AskedOf(InputAt(c, g, env, end)) != ZERO_TIME
    ensures var x, g' := InputAt(c, g, env, end), TurnOf(c, g, Polls(env, end, false));
            && g'.cursor == MaxCursor(g.cursor, AskedOf(x)) && g'.ingested == IngestedAfter(x)
            && g'.now == end && g'.seen == g.seen + set o | o in Objects(x)
  {
    hide AskedOf, IngestedAfter, Final, Ingested, Apply, Consistent;
  }

  // ---- A page given up on.

  const PAIR_CONFIG: Config := Config(100, 10, 1)
  const BAD: FlowObject := FlowObject("a", 5)
  const BEHIND: FlowObject := FlowObject("b", 6)
  const GIVE_UP: Env := Env(Some([BAD, BEHIND]), map["a" := Permanent], {}, {})

  /** One poll of a page that holds one object that cannot be decoded. */
  lemma OneBadPoll(g: Progress)
    requires StartOf(PAIR_CONFIG, g.cursor, 100) == 0 && g.ingested == {} && Consistent(g.tables)
    ensures var x := InputAt(PAIR_CONFIG, g, GIVE_UP, 100);
            && Page(x) == [BAD] && !GuardStops(x) && Fresh(Objects(x), x.ingested) == [BAD, BEHIND]
            && !CutShort(x)
            && Handle(x, BAD) == if FailuresOf(g.failures, "a") + 1 < MAX_READ_ATTEMPTS then Blocked else GaveUp
    ensures var g' := TurnOf(PAIR_CONFIG, g, Polls(GIVE_UP, 100, false));
            if FailuresOf(g.failures, "a") + 1 < MAX_READ_ATTEMPTS
            then
              && g'.cursor == MaxCursor(g.cursor, 0) && g'.ingested == {}
              && FailuresOf(g'.failures, "a") == FailuresOf(g.failures, "a") + 1
            else g'.cursor == MaxCursor(g.cursor, 100) && g'.ingested == {"a"}
    ensures Safe(PAIR_CONFIG, g, Polls(GIVE_UP, 100, false)) <==> FailuresOf(g.failures, "a") + 1 < MAX_READ_ATTEMPTS
  {
    var x := InputAt(PAIR_CONFIG, g, GIVE_UP, 100);
    OnePage(x, BAD, BEHIND);
    NoKeys();
    KeysSnoc([], Ingest("a", []));
    assert [] + [Ingest("a", [])] == [Ingest("a", [])];
    assert BAD in Page(x);
    hide Page, Handle, GuardStops, CutShort, Fresh, TurnOf;
    GivingUpIsUnsafe(x);
  }

  /** Giving up on the page leaves the object behind it out of reach; a failed poll leaves nothing. */
  lemma GivingUpIsUnsafe(x: Input)
    requires x.env == GIVE_UP && x.start < x.end == 100 && x.ingested == {} && x.maxObjects == 1
    requires Page(x) == [BAD] == Attempted(x) && !GuardStops(x) && !CutShort(x)
    requires Fresh(Objects(x), x.ingested) == [BAD, BEHIND]
    ensures (forall o :: o in Objects(x) ==> !OutOfReach(x, 10, o)) <==> !Handle(x, BAD).GaveUp?
  {
    hide Page, Handle, GuardStops, CutShort, Fresh, Attempted;
    if Handle(x, BAD).GaveUp? {
      assert BEHIND in Objects(x) && OutOfReach(x, 10, BEHIND);
    } else {
      assert BAD in Page(x);
    }
  }

  /** A poll that neither gives up on its page nor passes an object over is safe. */
  lemma KeepingIsSafe(c: Config, g: Progress, env: Env, end: int)
    requires !GivesUpOnPage(InputAt(c, g, env, end)) && !PassesOver(InputAt(c, g, env, end))
    ensures Safe(c, g, Polls(env, end, false))
  {
    hide GivesUpOnPage, CutShort, PassedBy;
  }

  /** A page of one object with another behind it. */
  lemma OnePage(x: Input, a: FlowObject, b: FlowObject)
    requires x.env.listed == Some([a, b]) && x.maxObjects == 1 && x.env.guardFails == {}
    requires a.key !in x.ingested && b.key !in x.ingested
    ensures Scanned(x) == [a] == Page(x) == Attempted(x) && !GuardStops(x) && Fresh(Objects(x), x.ingested) == [a, b]
    ensures Final(x) == After(x, Reading(0, x.start, ZERO_TIME, false, [], x.failures), a)
    ensures CutShort(x) <==> Handle(x, a).Halted?
  {
    ThreeFresh(a, b, b, x.ingested);
    var all := Objects(x);
    assert all[..0] == [] && all[..1] == [a] && all[..2] == [a, b] && all == [a, b];
    assert ScanFrom(x, 1) == 1;
    assert ScanFrom(x, 0) == 1;
    assert Page(x) == [a];
    assert ReadEnd(x, 0) == 1;
    assert Attempted(x) == [a][..1] == [a];
    assert [a][..0] == [];
    assert NewestSeen([], x.ingested, x.start) == x.start;
    assert NewestSeen([a], x.ingested, x.start) == x.start;
    hide Handle, After;
    assert ReadingOf(x, [a]) == After(x, ReadingOf(x, []), a);
    assert a in Page(x);
  }

  /** The state after n polls of the page. */
  ghost function GivingUp(n: nat): (g: Progress)
    ensures Consistent(g.tables)
    ensures n < MAX_READ_ATTEMPTS ==>
              g.cursor == (if n == 0 then None else Some(0)) && g.ingested == {} && FailuresOf(g.failures, "a") == n
    ensures n > 0 ==> g.now == 100 && g.seen == {BAD, BEHIND}
    ensures n == 0 ==> g == FIRST
  {
    FirstIsConsistent();
    if n == 0 then FIRST
    else
      var g := GivingUp(n - 1);
      if n <= MAX_READ_ATTEMPTS then
        OneBadPoll(g);
        TurnOf(PAIR_CONFIG, g, Polls(GIVE_UP, 100, false))
      else g
  }

  /** The fifth failure of the only object of a page loses the object behind it. */
  lemma GivingUpLoses() returns (run: seq<Progress>, turns: seq<Turn>)
    ensures IsPollRun(PAIR_CONFIG, run, turns) && |turns| == MAX_READ_ATTEMPTS
    ensures forall i :: 0 <= i < |turns| - 1 ==> Safe(PAIR_CONFIG, run[i], turns[i])
    ensures GivesUpOnPage(InputAt(PAIR_CONFIG, run[4], GIVE_UP, 100)) && turns[4] == Polls(GIVE_UP, 100, false)
    ensures !Safe(PAIR_CONFIG, run[4], turns[4]) && Lost(PAIR_CONFIG, run[5], BEHIND)
  {
    hide Takes, Safe, Lost, GivesUpOnPage, TurnOf;
    run := seq(6, i requires 0 <= i < 6 => GivingUp(i));
    turns := seq(5, i => Polls(GIVE_UP, 100, false));
    assert run[0] == FIRST;
    forall i | 0 <= i < 5
      ensures Takes(PAIR_CONFIG, run[i], turns[i], run[i + 1])
      ensures Safe(PAIR_CONFIG, run[i], turns[i]) <==> i < 4
    {
      GivingUpTakes(i);
    }
    FifthFailure();
  }

  lemma FifthFailure()
    ensures GivesUpOnPage(InputAt(PAIR_CONFIG, GivingUp(4), GIVE_UP, 100)) && Lost(PAIR_CONFIG, GivingUp(5), BEHIND)
  {
    OneBadPoll(GivingUp(4));
    hide Page, Handle, GuardStops, Fresh, Consistent, Safe, CutShort;
    assert GivingUp(5) == TurnOf(PAIR_CONFIG, GivingUp(4), Polls(GIVE_UP, 100, false));
  }

  lemma GivingUpTakes(i: nat)
    requires i < 5
    ensures Takes(PAIR_CONFIG, GivingUp(i), Polls(GIVE_UP, 100, false), GivingUp(i + 1))
    ensures Safe(PAIR_CONFIG, GivingUp(i), Polls(GIVE_UP, 100, false)) <==> i < 4
  {
    hide TurnOf, Safe, Page, Handle, GuardStops, Fresh, CutShort, Window, Consistent, FailuresOf;
    OneBadPoll(GivingUp(i));
    TwoListed(PAIR_CONFIG, GivingUp(i), GIVE_UP, 100, BAD, BEHIND);
  }

  lemma TwoListed(c: Config, g: Progress, env: Env, end: int, a: FlowObject, b: FlowObject)
    requires env.listed == Some([a, b]) && g.seen <= {a, b} && a.key != b.key && c.lookback == 10
    requires ZERO_TIME < StartOf(c, g.cursor, end) - 10 <= a.logTime <= b.logTime < end
    ensures Window(c, g, env, end)
  {
    assert Listing([a, b]);
  }

  lemma ThreeListed(c: Config, g: Progress, env: Env, end: int, a: FlowObject, b: FlowObject, z: FlowObject)
    requires env.listed == Some([a, b, z]) && g.seen <= {a, b, z} && a.key != b.key && a.key != z.key
             && b.key != z.key && c.lookback == 10
    requires ZERO_TIME < StartOf(c, g.cursor, end) - 10 <= a.logTime <= b.logTime <= z.logTime < end
    ensures Window(c, g, env, end)
  {
    assert Listing([a, b, z]);
  }

  // ---- A poll cut short.

  const CONFIG: Config := Config(100, 10, 10)
  const UNREAD: FlowObject := FlowObject("u", 5)
  const NEWER: FlowObject := FlowObject("s", 60)
  const LAST: FlowObject := FlowObject("x", 70)

  const READS: Env := Env(Some([UNREAD, NEWER]), map["s" := Flows([])], {}, {})
  const GUARD_FAILS: Env := Env(Some([UNREAD, NEWER, LAST]), map["s" := Flows([])], {"x"}, {})
  const COMMIT_FAILS: Env := Env(Some([UNREAD, NEWER, LAST]), map["s" := Flows([]), "x" := Flows([])], {}, {"x"})

  lemma ThreePage(x: Input, a: FlowObject, b: FlowObject, z: FlowObject)
    requires x.env.listed == Some([a, b, z]) && x.maxObjects == 10 && x.env.guardFails == {}
    requires a.key !in x.ingested && b.key !in x.ingested && z.key !in x.ingested
    ensures Scanned(x) == [a, b, z] == Page(x) && !GuardStops(x)
  {
    ThreeFresh(a, b, z, x.ingested);
    hide Fresh, Scanned, GuardStops, Page;
    AllScanned(x);
  }

  /** A commit error after a stored object leaves the cursor past an unreadable one. */
  lemma CommitErrorLoses() returns (run: seq<Progress>, turns: seq<Turn>)
    ensures IsPollRun(CONFIG, run, turns) && turns == [Polls(COMMIT_FAILS, 80, false)]
    ensures PassesOver(InputAt(CONFIG, run[0], COMMIT_FAILS, 80))
            && !GuardStops(InputAt(CONFIG, run[0], COMMIT_FAILS, 80))
    ensures !Safe(CONFIG, run[0], turns[0]) && Lost(CONFIG, run[1], UNREAD)
  {
    FirstIsConsistent();
    CommitErrorPoll();
    ThreeListed(CONFIG, FIRST, COMMIT_FAILS, 80, UNREAD, NEWER, LAST);
    hide Page, GuardStops, PassesOver, AskedOf, IngestedAfter, Final, Consistent, Window, TurnOf, IsPollRun;
    var turn := Polls(COMMIT_FAILS, 80, false);
    run, turns := [FIRST, TurnOf(CONFIG, FIRST, turn)], [turn];
    OneTurn(CONFIG, FIRST, turn);
    StoredTurn(CONFIG, FIRST, COMMIT_FAILS, 80);
    NothingSeen(CONFIG, FIRST);
    hide Safe, Takes;
    LosingIsUnsafe(CONFIG, FIRST, turn, run[1], UNREAD);
  }

  /** A turn after which an object is lost was not safe. */
  lemma LosingIsUnsafe(c: Config, g: Progress, turn: Turn, g': Progress, o: FlowObject)
    requires NoneLost(c, g) && Takes(c, g, turn, g') && Lost(c, g', o)
    ensures !Safe(c, g, turn)
  {
    UnsafeTurnLoses(c, g, turn, g');
  }

  lemma CommitErrorPoll()
    ensures var x := InputAt(CONFIG, FIRST, COMMIT_FAILS, 80);
            AskedOf(x) == 60 && IngestedAfter(x) == {"s"} && PassesOver(x) && !GuardStops(x)
  {
    var x := InputAt(CONFIG, FIRST, COMMIT_FAILS, 80);
    ThreePage(x, UNREAD, NEWER, LAST);
    ThreeReading(x, UNREAD, NEWER, LAST);
    hide Page, GuardStops, Attempted, Scanned, ReadingOf, CutShort;
    NoKeys();
    KeysSnoc([], Ingest("s", []));
    assert [] + [Ingest("s", [])] == [Ingest("s", [])];
    CutShortAsks(x);
    assert PassedBy(x, UNREAD, NEWER);
  }

  /** A page of an unreadable object, a stored one, and one whose commit fails. */
  lemma ThreeReading(x: Input, a: FlowObject, b: FlowObject, z: FlowObject)
    requires Page(x) == [a, b, z] == Scanned(x) && !GuardStops(x) && a.key !in x.ingested && b.key !in x.ingested
             && z.key !in x.ingested
    requires Handle(x, a).Blocked? && Handle(x, b).Stored? && Handle(x, z).Halted?
    ensures Attempted(x) == [a, b, z] && CutShort(x)
    ensures Final(x) == After(x, After(x, After(x, Reading(0, x.start, ZERO_TIME, false, [], x.failures), a), b), z)
  {
    hide Handle, After, Scanned, ReadingOf, GuardStops, Page, Attempted, Final, CutShort;
    LastHalts(x);
    ReadingStarts(x);
    ReadingSnoc(x, [], a);
    ReadingSnoc(x, [a], b);
    ReadingSnoc(x, [a, b], z);
    assert [] + [a] == [a] && [a] + [b] == [a, b] && [a, b] + [z] == [a, b, z];
  }

  /** When no object of a page but its last halts the poll, the whole page is attempted. */
  lemma LastHalts(x: Input)
    requires Page(x) != [] && !GuardStops(x)
    requires forall i :: 0 <= i < |Page(x)| - 1 ==> !Handle(x, Page(x)[i]).Halted?
    ensures Attempted(x) == Page(x) && Final(x) == ReadingOf(x, Page(x))
    ensures CutShort(x) <==> Handle(x, Page(x)[|Page(x)| - 1]).Halted?
  {
    hide Page, Handle, GuardStops, ReadingOf;
    ReadEndIs(x, 0);
    assert Page(x)[..|Page(x)|] == Page(x);
    assert Page(x)[|Page(x)| - 1] in Page(x);
  }

  /** A guard error behind a newer ingested object stores that object's time as the cursor. */
  lemma GuardErrorLoses() returns (run: seq<Progress>, turns: seq<Turn>)
    ensures IsPollRun(CONFIG, run, turns) && turns == [Polls(READS, 65, false), Polls(GUARD_FAILS, 80, false)]
    ensures Safe(CONFIG, run[0], turns[0])
    ensures PassesOver(InputAt(CONFIG, run[1], GUARD_FAILS, 80)) && GuardStops(InputAt(CONFIG, run[1], GUARD_FAILS, 80))
    ensures !Safe(CONFIG, run[1], turns[1]) && Lost(CONFIG, run[2], UNREAD)
  {
    FirstIsConsistent();
    var first, second := Polls(READS, 65, false), Polls(GUARD_FAILS, 80, false);
    var g := TurnOf(CONFIG, FIRST, first);
    FirstRead(g);
    GuardErrorPoll(g);
    TwoListed(CONFIG, FIRST, READS, 65, UNREAD, NEWER);
    ThreeListed(CONFIG, g, GUARD_FAILS, 80, UNREAD, NEWER, LAST);
    hide Page, GuardStops, PassesOver, AskedOf, IngestedAfter, Final, Consistent, Window, TurnOf, IsPollRun, Safe;
    run, turns := [FIRST, g, TurnOf(CONFIG, g, second)], [first, second];
    TwoTurns(CONFIG, FIRST, first, g, second);
    StoredTurn(CONFIG, g, GUARD_FAILS, 80);
    NothingSeen(CONFIG, FIRST);
    hide Takes;
    UnsafeTurnLoses(CONFIG, FIRST, first, g);
    LosingIsUnsafe(CONFIG, g, second, run[2], UNREAD);
  }

  /** The first poll stores the newer object and steps back to the unreadable one. */
  lemma FirstRead(g: Progress)
    requires Consistent(NO_TABLES) && g == TurnOf(CONFIG, FIRST, Polls(READS, 65, false))
    ensures g.cursor == Some(5) && g.ingested == {"s"} && g.seen == {UNREAD, NEWER} && g.now == 65
    ensures Safe(CONFIG, FIRST, Polls(READS, 65, false))
  {
    FirstReadPoll();
    KeepingIsSafe(CONFIG, FIRST, READS, 65);
    hide AskedOf, IngestedAfter, GivesUpOnPage, PassesOver, TurnOf, Safe;
    StoredTurn(CONFIG, FIRST, READS, 65);
  }

  lemma FirstReadPoll()
    ensures var x := InputAt(CONFIG, FIRST, READS, 65);
            AskedOf(x) == 5 && IngestedAfter(x) == {"s"} && !GivesUpOnPage(x) && !PassesOver(x)
  {
    var x := InputAt(CONFIG, FIRST, READS, 65);
    TwoPage(x, UNREAD, NEWER);
    hide Page, GuardStops, Attempted, Scanned, ReadingOf, CutShort;
    NoKeys();
    KeysSnoc([], Ingest("s", []));
    assert [] + [Ingest("s", [])] == [Ingest("s", [])];
    assert UNREAD in Page(x) && !Handle(x, UNREAD).GaveUp?;
  }

  /** A page of an unreadable object and a stored one. */
  lemma TwoPage(x: Input, a: FlowObject, b: FlowObject)
    requires x.env.listed == Some([a, b]) && x.maxObjects == 10 && x.env.guardFails == {} && a.key !in x.ingested
             && b.key !in x.ingested
    requires Handle(x, a).Blocked? && Handle(x, b).Stored?
    ensures Page(x) == [a, b] && !GuardStops(x) && !CutShort(x)
    ensures Final(x) == After(x, After(x, Reading(0, x.start, ZERO_TIME, false, [], x.failures), a), b)
  {
    BothOnPage(x, a, b);
    hide *;
    LastHalts(x);
    ReadingStarts(x);
    ReadingSnoc(x, [], a);
    ReadingSnoc(x, [a], b);
    assert [] + [a] == [a] && [a] + [b] == [a, b];
  }

  /** Two new objects fill a page of their own. */
  lemma BothOnPage(x: Input, a: FlowObject, b: FlowObject)
    requires x.env.listed == Some([a, b]) && x.maxObjects >= 2 && x.env.guardFails == {}
    requires a.key !in x.ingested && b.key !in x.ingested
    ensures Scanned(x) == Page(x) == [a, b] && !GuardStops(x)
  {
    ThreeFresh(a, b, b, x.ingested);
    hide Scanned, GuardStops, Page, Fresh;
    assert [a] + [b] == [a, b];
    AllScanned(x);
  }

  lemma GuardErrorPoll(g: Progress)
    requires g.cursor == Some(5) && g.ingested == {"s"}
    ensures var x := InputAt(CONFIG, g, GUARD_FAILS, 80);
            AskedOf(x) == 60 && IngestedAfter(x) == {"s"} && PassesOver(x) && GuardStops(x)
  {
    var x := InputAt(CONFIG, g, GUARD_FAILS, 80);
    StopsAtThird(x, UNREAD, NEWER, LAST);
    assert [UNREAD, NEWER][..1] == [UNREAD] && [UNREAD][..0] == [];
    assert NewestSeen([UNREAD], x.ingested, x.start) == 5;
    assert NewestSeen([UNREAD, NEWER], x.ingested, x.start) == 60;
    hide GuardStops, Scanned, NewestSeen, PassesOver, AskedOf, IngestedAfter;
    GuardStopped(x);
  }

  /** A scan past one object to read and one ingested, up to a guard that fails. */
  lemma StopsAtThird(x: Input, a: FlowObject, b: FlowObject, z: FlowObject)
    requires x.env.listed == Some([a, b, z]) && x.maxObjects == 10
    requires a.key !in x.ingested && b.key in x.ingested && z.key in x.env.guardFails
             && {a.key, b.key} !! x.env.guardFails
    ensures Scanned(x) == [a, b] && GuardStops(x)
  {
    ThreeFresh(a, b, z, x.ingested);
    var all := Objects(x);
    assert all[..0] == [] && all[..1] == [a] && all[..2] == [a, b];
    hide Fresh;
    assert ScanFrom(x, 2) == 2;
    assert ScanFrom(x, 1) == 2;
  }

  lemma GuardStopped(x: Input)
    requires x.ingested == {"s"} && x.start == 5 && x.env.listed.Some? && Objects(x) != [] && GuardStops(x)
    requires Scanned(x) == [UNREAD, NEWER] && NewestSeen(Scanned(x), x.ingested, x.start) == 60
    ensures AskedOf(x) == 60 && IngestedAfter(x) == {"s"} && PassesOver(x)
  {
    hide GuardStops, Scanned, NewestSeen, Attempted;
    FirstIsConsistent();
    NothingRead(x, NO_TABLES);
    CutShortAsks(x);
    assert PassedBy(x, UNREAD, NEWER);
  }

  // ---- A first cursor that is not stored.

  const UNSTORED: Env := Env(Some([UNREAD]), map[], {}, {})
  const NOTHING: Env := Env(Some([]), map[], {}, {})

  /** While no cursor is stored the window moves with the clock, and leaves an unread object behind. */
  lemma UnstoredCursorLoses() returns (run: seq<Progress>, turns: seq<Turn>)
    ensures IsPollRun(CONFIG, run, turns) && turns == [Polls(UNSTORED, 100, true), Polls(NOTHING, 300, false)]
    ensures !Safe(CONFIG, run[0], turns[0]) && Safe(CONFIG, run[1], turns[1])
    ensures Lost(CONFIG, run[2], UNREAD)
  {
    FirstIsConsistent();
    var first, second := Polls(UNSTORED, 100, true), Polls(NOTHING, 300, false);
    var g := TurnOf(CONFIG, FIRST, first);
    UnstoredPoll(g);
    EmptyPoll(g);
    SmallListed(g);
    hide Page, GuardStops, PassesOver, AskedOf, IngestedAfter, Final, Consistent, Window, TurnOf, IsPollRun, Safe;
    run, turns := [FIRST, g, TurnOf(CONFIG, g, second)], [first, second];
    TwoTurns(CONFIG, FIRST, first, g, second);
    StoredTurn(CONFIG, g, NOTHING, 300);
  }

  lemma UnstoredPoll(g: Progress)
    requires Consistent(NO_TABLES) && g == TurnOf(CONFIG, FIRST, Polls(UNSTORED, 100, true))
    ensures g.cursor == None && g.ingested == {} && g.seen == {UNREAD} && g.now == 100
    ensures !Safe(CONFIG, FIRST, Polls(UNSTORED, 100, true))
  {
    UnreadPage();
    var x := InputAt(CONFIG, FIRST, UNSTORED, 100);
    hide AskedOf, Final, Ingested, Apply, Consistent, LeftBehind, IngestedAfter;
    assert UNREAD in Objects(x);
  }

  lemma UnreadPage()
    ensures var x := InputAt(CONFIG, FIRST, UNSTORED, 100); LeftBehind(x, UNREAD) && IngestedAfter(x) == {}
  {
    var x := InputAt(CONFIG, FIRST, UNSTORED, 100);
    ThreeFresh(UNREAD, UNREAD, UNREAD, {});
    hide After, Scanned, ReadingOf, GuardStops, Page, Fresh, KeysOf;
    AllScanned(x);
    LastHalts(x);
    ReadingSnoc(x, [], UNREAD);
    assert [] + [UNREAD] == [UNREAD];
    ReadingStarts(x);
    UnreadIngests(x);
    NoKeys();
  }

  lemma UnreadIngests(x: Input)
    requires Handle(x, UNREAD).Blocked?
    ensures forall r :: After(x, r, UNREAD).ingests == r.ingests
  {
  }

  lemma EmptyPoll(g: Progress)
    requires g.cursor == None && g.ingested == {} && g.seen == {UNREAD}
    ensures var x := InputAt(CONFIG, g, NOTHING, 300); AskedOf(x) == 300 && IngestedAfter(x) == {}
    ensures Safe(CONFIG, g, Polls(NOTHING, 300, false))
  {
    var x := InputAt(CONFIG, g, NOTHING, 300);
    FirstIsConsistent();
    NothingRead(x, NO_TABLES);
    NothingListed(x);
    NoKeys();
  }

  lemma SmallListed(g: Progress)
    requires g.cursor == None && g.seen == {UNREAD}
    ensures Window(CONFIG, FIRST, UNSTORED, 100) && Window(CONFIG, g, NOTHING, 300)
  {
    assert Listing([UNREAD]) && Listing([]);
  }
}

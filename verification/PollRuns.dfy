/**
 Runs of object-store polls: no listed object falls out of the window before
 it is ingested, and what the store holds is the sum of the ingested objects'
 aggregates, each applied once, in whatever order they came.
 */
module PollRuns {
  import opened PairGroups
  import opened HourRollup
  import opened RollupStore
  import opened SpanReads
  import opened ObjectPoll

  datatype Config = Config(backfill: int, lookback: nat, maxObjects: nat)

  /** The stored state, the failures the process remembers, the time of the last poll, and every object ever listed. */
  datatype Progress = Progress(cursor: Option<int>, ingested: set<string>, failures: map<string, nat>, tables: Tables,
                               now: int, seen: set<FlowObject>)

  /** A poll, or a restart of the process, which forgets the failures counted so far. */
  datatype Turn = Restarts(now: int) | Polls(env: Env, end: int, stateFails: bool)

  /** Where a poll starts: at the stored cursor, or a backfill before its end when there is none. */
  function StartOf(c: Config, cursor: Option<int>, end: int): int {
    if cursor.None? then end - c.backfill else cursor.value
  }

  function InputAt(c: Config, g: Progress, env: Env, end: int): Input {
    Input(env, c.maxObjects, g.failures, g.ingested, StartOf(c, g.cursor, end), end)
  }

  /** The state after a turn. */
  ghost function TurnOf(c: Config, g: Progress, turn: Turn): (g': Progress)
    requires Consistent(g.tables)
    ensures Consistent(g'.tables)
  {
    match turn
    case Restarts(now) => g.(failures := map[], now := now)
    case Polls(env, end, stateFails) =>
      var x := InputAt(c, g, env, end);
      var stored := AskedOf(x) != ZERO_TIME && !stateFails;
      var tables := Ingested(g.tables, Final(x).ingests);
      Progress(if stored then MaxCursor(g.cursor, AskedOf(x)) else g.cursor, IngestedAfter(x), Final(x).failures,
               if stored then Apply(tables, Deltas([], Some(AskedOf(x)))) else tables,
               end, g.seen + set o | o in Objects(x))
  }

  /**
   A listing of a bucket that keeps its objects: what was ever listed is
   listed again while it is in the window, under the same key and time.
   */
  ghost predicate Window(c: Config, g: Progress, env: Env, end: int) {
    var start := StartOf(c, g.cursor, end);
    && ZERO_TIME < start - c.lookback && ZERO_TIME < end
    && (env.listed.Some? ==>
          && Listing(env.listed.value)
          && (forall o :: o in env.listed.value ==> start - c.lookback <= o.logTime < end)
          && (forall o :: o in g.seen && start - c.lookback <= o.logTime < end ==> o in env.listed.value)
          && (forall o, p :: o in env.listed.value && p in g.seen && o.key == p.key ==> o == p))
  }

  ghost predicate Takes(c: Config, g: Progress, turn: Turn, g': Progress) {
    && Consistent(g.tables) && g' == TurnOf(c, g, turn)
    && match turn
       case Restarts(now) => g.now <= now
       case Polls(env, end, _) => g.now <= end && Window(c, g, env, end)
  }

  ghost predicate IsPollRun(c: Config, run: seq<Progress>, turns: seq<Turn>) {
    && |run| == |turns| + 1 && run[0].seen == {}
    && forall i :: 0 <= i < |turns| ==> Takes(c, run[i], turns[i], run[i + 1])
  }

  ghost predicate Matches(g: Progress, source: ObjectStoreSource, store: Store)
    reads source, store
  {
    g.cursor == store.cursor && g.ingested == store.ingested && g.failures == source.readFailures && g.tables
        == store.Snapshot()
  }

  /** The poll of the program takes the turn of the model. */
  method PollOnce(c: Config, source: ObjectStoreSource, store: Store, env: Env, end: int, stateFails: bool,
                  ghost g: Progress)
    returns (p: Polled, ghost g': Progress)
    requires store.Valid() && source.maxObjects == c.maxObjects && Matches(g, source, store)
    requires g.now <= end && Window(c, g, env, end)
    modifies source, store
    ensures store.Valid() && Takes(c, g, Polls(env, end, stateFails), g') && Matches(g', source, store)
  {
    hide Apply, LegacySound, Listing, PollOf, Final, IngestedAfter, AskedOf, GivesUpOnPage, PassesOver, Keeps,
        Ingested, HoursOf;
    var start := StartOf(c, store.cursor, end);
    ghost var x := InputAt(c, g, env, end);
    assert source.InputOf(store, env, start, end) == x;
    var asked;
    p, asked := source.PollObjectStore(store, env, start, end, stateFails);
    g' := TurnOf(c, g, Polls(env, end, stateFails));
  }

  /** Every listed object that is still un-ingested is inside the next window. */
  ghost predicate NoneLost(c: Config, g: Progress) {
    forall o :: o in g.seen && o.key !in g.ingested ==>
      o.logTime < g.now && g.cursor.Some? && g.cursor.value - c.lookback <= o.logTime
  }

  /**
   A turn that leaves every un-ingested object in reach: the cursor it stores
   puts none behind the lookback, and a first cursor that cannot be stored
   leaves none to wait for.
   */
  ghost predicate Safe(c: Config, g: Progress, turn: Turn) {
    turn.Polls? && turn.env.listed.Some? ==>
      var x := InputAt(c, g, turn.env, turn.end);
      if turn.stateFails then g.cursor.Some? || forall o :: o in Objects(x) ==> !LeftBehind(x, o)
      else forall o :: o in Objects(x) ==> !OutOfReach(x, c.lookback, o)
  }

  /** Objects the turn leaves un-ingested are those of its listing that it leaves behind. */
  lemma LeftIsListed(c: Config, g: Progress, turn: Turn, g': Progress)
    requires NoneLost(c, g) && Takes(c, g, turn, g') && turn.Polls?
    ensures forall o :: o in g.seen && o.key !in g.ingested && turn.env.listed.Some? ==> o in turn.env.listed.value
    ensures forall o :: o in g'.seen && o.key !in g'.ingested ==>
              if turn.env.listed.Some? then o in turn.env.listed.value else o in g.seen && o.key !in g.ingested
    ensures turn.env.listed.None? ==> g'.cursor == g.cursor
  {
    hide Listing, Final, Consistent;
    var x := InputAt(c, g, turn.env, turn.end);
    assert g.ingested <= g'.ingested;
    if turn.env.listed.None? {
      assert PollOf(x) == Polled(0, ZERO_TIME, true) && AskedOf(x) == ZERO_TIME;
    }
  }

  /** What a window listing means for the reach of one poll's cursor. */
  lemma WindowReach(c: Config, g: Progress, env: Env, end: int)
    requires Window(c, g, env, end) && env.listed.Some?
    ensures AskedOf(InputAt(c, g, env, end)) != ZERO_TIME
    ensures var x := InputAt(c, g, env, end);
            forall o :: o in Objects(x) && LeftBehind(x, o) ==>
              (o.logTime < AskedOf(x) - c.lookback <==> OutOfReach(x, c.lookback, o))
  {
    var x := InputAt(c, g, env, end);
    assert NoZeroTime(Objects(x)) by {
      assert forall i :: 0 <= i < |Objects(x)| ==> Objects(x)[i] in Objects(x);
    }
    AskedAtLeast(x, x.start - c.lookback);
    forall o | o in Objects(x) && LeftBehind(x, o)
      ensures o.logTime < AskedOf(x) - c.lookback <==> OutOfReach(x, c.lookback, o)
    {
      ReachExactly(x, c.lookback, o);
    }
  }

  /** A turn whose listing failed, or a restart, leaves the window where it was. */
  lemma IdleTurnKeeps(c: Config, g: Progress, turn: Turn, g': Progress)
    requires NoneLost(c, g) && Takes(c, g, turn, g') && (turn.Restarts? || turn.env.listed.None?)
    ensures NoneLost(c, g') && Safe(c, g, turn)
  {
    hide Listing, Final, Consistent, IngestedAfter, AskedOf, Ingested, Apply;
    if turn.Polls? {
      LeftIsListed(c, g, turn, g');
    }
  }

  /** An unsafe turn loses an object, and only such a turn does. */
  lemma UnsafeTurnLoses(c: Config, g: Progress, turn: Turn, g': Progress)
    requires NoneLost(c, g) && Takes(c, g, turn, g')
    ensures NoneLost(c, g') <==> Safe(c, g, turn)
  {
    if turn.Restarts? || turn.env.listed.None? {
      IdleTurnKeeps(c, g, turn, g');
    } else {
      hide Listing, Final, Consistent, LeftBehind, OutOfReach, AskedOf, PollOf, IngestedAfter, Ingested, Apply;
      var x := InputAt(c, g, turn.env, turn.end);
      LeftIsListed(c, g, turn, g');
      WindowReach(c, g, turn.env, turn.end);
      forall o | o in Objects(x)
        ensures o.key !in g'.ingested <==> LeftBehind(x, o)
        ensures o in g'.seen && x.start - c.lookback <= o.logTime < g'.now
      {
        LeftIsUningested(x, o);
      }
      assert forall o :: OutOfReach(x, c.lookback, o) ==> LeftBehind(x, o) by { ReachIsLeft(x, c.lookback); }
    }
  }

  lemma ReachIsLeft(x: Input, lookback: nat)
    ensures forall o :: OutOfReach(x, lookback, o) ==> LeftBehind(x, o)
  {
  }

  /**
   Up to any moment a run has lost nothing exactly when all its turns were
   safe; and then every later poll lists again what is still un-ingested.
   */
  lemma {:induction false} RunLosesNothing(c: Config, run: seq<Progress>, turns: seq<Turn>, i: nat)
    requires IsPollRun(c, run, turns) && i < |run|
    ensures (forall j :: 0 <= j <= i ==> NoneLost(c, run[j])) <==> forall j :: 0 <= j < i ==> Safe(c, run[j], turns[j])
    ensures NoneLost(c, run[i]) && i < |turns| && turns[i].Polls? && turns[i].env.listed.Some? ==>
              forall o :: o in run[i].seen && o.key !in run[i].ingested ==> o in turns[i].env.listed.value
  {
    hide Takes, Safe, NoneLost;
    if i == 0 {
      NothingSeen(c, run[0]);
    } else {
      RunLosesNothing(c, run, turns, i - 1);
      if NoneLost(c, run[i - 1]) {
        UnsafeTurnLoses(c, run[i - 1], turns[i - 1], run[i]);
      }
    }
    if NoneLost(c, run[i]) && i < |turns| && turns[i].Polls? {
      LeftIsListed(c, run[i], turns[i], run[i + 1]);
    }
  }

  lemma NothingSeen(c: Config, g: Progress)
    requires g.seen == {}
    ensures NoneLost(c, g)
  {
  }

  /** Behind the lookback of a stored cursor, and not ingested. */
  ghost predicate Lost(c: Config, g: Progress, o: FlowObject) {
    o in g.seen && o.key !in g.ingested && g.cursor.Some? && o.logTime < g.cursor.value - c.lookback
  }

  /** A lost object is never listed again and never ingested. */
  lemma {:induction false} LostForGood(c: Config, run: seq<Progress>, turns: seq<Turn>, i: nat, j: nat, o: FlowObject)
    requires IsPollRun(c, run, turns) && i <= j < |run| && Lost(c, run[i], o)
    ensures Lost(c, run[j], o)
    ensures j < |turns| && turns[j].Polls? && turns[j].env.listed.Some? ==> o !in turns[j].env.listed.value
    decreases j
  {
    hide Takes, Lost;
    if i < j {
      LostForGood(c, run, turns, i, j - 1, o);
      LostStays(c, run[j - 1], turns[j - 1], run[j], o);
    }
    if j < |turns| {
      LostStays(c, run[j], turns[j], run[j + 1], o);
    }
  }

  lemma LostStays(c: Config, g: Progress, turn: Turn, g': Progress, o: FlowObject)
    requires Takes(c, g, turn, g') && Lost(c, g, o)
    ensures Lost(c, g', o)
    ensures turn.Polls? && turn.env.listed.Some? ==> o !in turn.env.listed.value
  {
    hide Listing, Consistent, Ingested, Apply, AskedOf, PollOf, Final, KeysOf;
    if turn.Polls? {
      var x := InputAt(c, g, turn.env, turn.end);
      if o.key in KeysOf(Final(x).ingests) {
        var _ := IngestIsListed(x, o.key);
      }
    }
  }

  // ---- The read budget.

  /** The turn reads the object of a key. */
  ghost predicate Reads(c: Config, g: Progress, turn: Turn, key: string) {
    turn.Polls? && exists o :: o in Attempted(InputAt(c, g, turn.env, turn.end)) && o.key == key
  }

  function OutcomeAt(env: Env, key: string): Outcome {
    if key in env.outcomes then env.outcomes[key] else Transient
  }

  /**
   The permanent failures an object has had since the process started or last
   read it. Failures of the network and of the server are none.
   */
  ghost function Strikes(c: Config, run: seq<Progress>, turns: seq<Turn>, i: nat, key: string): nat
    requires i <= |turns| < |run|
  {
    if i == 0 || turns[i - 1].Restarts? then 0
    else
      var before := Strikes(c, run, turns, i - 1, key);
      if !Reads(c, run[i - 1], turns[i - 1], key) then before
      else match OutcomeAt(turns[i - 1].env, key)
        case Flows(_) => 0
        case Permanent => before + 1
        case _ => before
  }

  /**
   Over all runs: an object that is read leaves the queue exactly when its
   flows are committed, or when it is recorded without them after a full
   budget of permanent failures.
   */
  lemma RecordedExactly(c: Config, run: seq<Progress>, turns: seq<Turn>, i: nat, key: string)
    requires IsPollRun(c, run, turns) && run[0].failures == map[] && i < |turns|
    requires Reads(c, run[i], turns[i], key)
    ensures key !in run[i].ingested
    ensures var env := turns[i].env;
            key in run[i + 1].ingested <==>
              key !in env.commitFails
              && (OutcomeAt(env, key).Flows?
                  || (OutcomeAt(env, key).Permanent? && Strikes(c, run, turns, i + 1, key) >= MAX_READ_ATTEMPTS))
  {
    assert Takes(c, run[i], turns[i], run[i + 1]);
    FailuresAreStrikes(c, run, turns, i, key);
    hide Takes, Reads, IsPollRun;
    TurnRecords(c, run[i], turns[i], run[i + 1], key);
  }

  lemma TurnRecords(c: Config, g: Progress, turn: Turn, g': Progress, key: string)
    requires Takes(c, g, turn, g') && Reads(c, g, turn, key)
    ensures turn.Polls? && key !in g.ingested
    ensures key in g'.ingested <==>
              key !in turn.env.commitFails
              && (OutcomeAt(turn.env, key).Flows?
                  || (OutcomeAt(turn.env, key).Permanent? && FailuresOf(g.failures, key) + 1 >= MAX_READ_ATTEMPTS))
  {
    var x := InputAt(c, g, turn.env, turn.end);
    hide InputAt, Takes, Attempted, IngestedAfter, Final, Listing, Page, Scanned, FailuresOf;
    TurnInputs(c, g, turn, g');
    var o :| o in Attempted(x) && o.key == key;
    InputIs(c, g, turn, o);
    AttemptedAre(x);
    ReadExactly(x, o);
    hide *;
  }

  lemma InputIs(c: Config, g: Progress, turn: Turn, o: FlowObject)
    requires turn.Polls?
    ensures var x := InputAt(c, g, turn.env, turn.end);
            x.env == turn.env && x.failures == g.failures && x.ingested == g.ingested
            && OutcomeOf(x, o) == OutcomeAt(turn.env, o.key)
  {
  }

  /** And an object no turn reads stays as it is. */
  lemma OnlyReadsRecord(c: Config, run: seq<Progress>, turns: seq<Turn>, i: nat, key: string)
    requires IsPollRun(c, run, turns) && i < |turns| && !Reads(c, run[i], turns[i], key)
    ensures key in run[i + 1].ingested <==> key in run[i].ingested
  {
    hide Attempted, Ingested, Apply, AskedOf;
    TurnInputs(c, run[i], turns[i], run[i + 1]);
    if turns[i].Polls? {
      UnreadStays(InputAt(c, run[i], turns[i].env, turns[i].end), key);
    }
  }

  lemma TurnInputs(c: Config, g: Progress, turn: Turn, g': Progress)
    requires Takes(c, g, turn, g')
    ensures turn.Restarts? ==> g'.ingested == g.ingested && g'.failures == map[]
    ensures turn.Polls? ==>
              var x := InputAt(c, g, turn.env, turn.end);
              Listing(Objects(x)) && g'.ingested == IngestedAfter(x) && g'.failures == Final(x).failures
  {
    hide Final, AskedOf, IngestedAfter, Ingested, Apply;
    NoListing();
  }

  lemma {:induction false} FailuresAreStrikes(c: Config, run: seq<Progress>, turns: seq<Turn>, i: nat, key: string)
    requires IsPollRun(c, run, turns) && run[0].failures == map[] && i < |run|
    ensures key !in run[i].ingested ==> FailuresOf(run[i].failures, key) == Strikes(c, run, turns, i, key)
  {
    hide Takes, Attempted;
    if i > 0 {
      var g, turn, g' := run[i - 1], turns[i - 1], run[i];
      FailuresAreStrikes(c, run, turns, i - 1, key);
      TurnInputs(c, g, turn, g');
      if turn.Polls? && key !in g'.ingested {
        var x := InputAt(c, g, turn.env, turn.end);
        if Reads(c, g, turn, key) {
          var o :| o in Attempted(x) && o.key == key;
          ReadExactly(x, o);
        } else {
          UnreadStays(x, key);
        }
      }
    }
  }

  // ---- Totals.

  /** What a batch of aggregates adds to one pair between two bounds. */
  function BatchTotal(aggs: seq<Aggregate>, pair: PairKey, lo: int, hi: int): Counters {
    if aggs == [] then EMPTY
    else
      var a := aggs[|aggs| - 1];
      var rest := BatchTotal(aggs[..|aggs| - 1], pair, lo, hi);
      if a.pair == pair && lo <= KeyOf(a).bucket < hi then Merge(rest, Lift(KeyOf(a).bucket, a.row)) else rest
  }

  /** Upserting a batch adds exactly its total to every window. */
  lemma {:induction false} UpsertAllAdds(minutes: Minutes, aggs: seq<Aggregate>, pair: PairKey, lo: int, hi: int)
    ensures Fold(UpsertAll(minutes, aggs), pair, lo, hi)
            == Merge(Fold(minutes, pair, lo, hi), BatchTotal(aggs, pair, lo, hi))
  {
    hide Merge, Lift, Fold;
    if aggs == [] {
      MergeEmpty(Fold(minutes, pair, lo, hi));
    } else {
      var front, a := aggs[..|aggs| - 1], aggs[|aggs| - 1];
      UpsertAllAdds(minutes, front, pair, lo, hi);
      FoldUpsert(UpsertAll(minutes, front), KeyOf(a), a.row, pair, lo, hi);
      MergeAssoc(Fold(minutes, pair, lo, hi), BatchTotal(front, pair, lo, hi), Lift(KeyOf(a).bucket, a.row));
    }
  }

  /** The totals of a list of ingests, one per ingested object. */
  function ObjectTotals(ingests: seq<Ingest>, pair: PairKey, lo: int, hi: int): (totals: seq<Counters>)
    ensures |totals| == |ingests|
  {
    seq(|ingests|, i requires 0 <= i < |ingests| => BatchTotal(ingests[i].aggs, pair, lo, hi))
  }

  /** Ingesting objects adds the total of each of them once. */
  lemma {:induction false} IngestsAddUp(t: Tables, ingests: seq<Ingest>, pair: PairKey, lo: int, hi: int)
    requires Consistent(t)
    ensures Fold(Ingested(t, ingests).minutes, pair, lo, hi)
         == Merge(Fold(t.minutes, pair, lo, hi), MergeAll(ObjectTotals(ingests, pair, lo, hi)))
  {
    hide Merge, Fold, BatchTotal, HoursOf;
    if ingests == [] {
      MergeEmpty(Fold(t.minutes, pair, lo, hi));
    } else {
      var n := |ingests| - 1;
      var totals := ObjectTotals(ingests, pair, lo, hi);
      IngestsAddUp(t, ingests[..n], pair, lo, hi);
      assert totals[..n] == ObjectTotals(ingests[..n], pair, lo, hi);
      UpsertAllAdds(Ingested(t, ingests[..n]).minutes, ingests[n].aggs, pair, lo, hi);
      MergeAssoc(Fold(t.minutes, pair, lo, hi), MergeAll(totals[..n]), totals[n]);
    }
  }

  /** What the turns of a run ingest, in order. */
  function TurnIngests(c: Config, g: Progress, turn: Turn): seq<Ingest> {
    if turn.Polls? then Final(InputAt(c, g, turn.env, turn.end)).ingests else []
  }

  function RunIngests(c: Config, run: seq<Progress>, turns: seq<Turn>, i: nat): seq<Ingest>
    requires i <= |turns| < |run|
  {
    if i == 0 then [] else RunIngests(c, run, turns, i - 1) + TurnIngests(c, run[i - 1], turns[i - 1])
  }

  /**
   Over a run of polls, retries and restarts, with the hour rolls of their
   cursors in between, the stored minutes are those at the start plus the
   total of each ingested object, and each is ingested once.
   */
  lemma {:induction false} RunAddsUp(c: Config, run: seq<Progress>, turns: seq<Turn>, i: nat, pair: PairKey, lo: int,
                                     hi: int)
    requires IsPollRun(c, run, turns) && i < |run| && Consistent(run[0].tables)
    ensures var all := RunIngests(c, run, turns, i);
            && Fold(run[i].tables.minutes, pair, lo, hi)
               == Merge(Fold(run[0].tables.minutes, pair, lo, hi), MergeAll(ObjectTotals(all, pair, lo, hi)))
            && run[i].ingested == run[0].ingested + KeysOf(all)
            && KeysOf(all) !! run[0].ingested && OncePerKey(all)
    ensures Consistent(run[i].tables)
  {
    hide Merge, Fold, Takes, Consistent, MergeAll, ObjectTotals, KeysOf, TurnIngests;
    if i == 0 {
      NoKeys();
      NoTotals(pair, lo, hi);
      MergeEmpty(Fold(run[0].tables.minutes, pair, lo, hi));
    } else {
      var before, more := RunIngests(c, run, turns, i - 1), TurnIngests(c, run[i - 1], turns[i - 1]);
      RunAddsUp(c, run, turns, i - 1, pair, lo, hi);
      TurnAddsUp(c, run[i - 1], turns[i - 1], run[i], pair, lo, hi);
      MergeAssoc(Fold(run[0].tables.minutes, pair, lo, hi), MergeAll(ObjectTotals(before, pair, lo, hi)),
                 MergeAll(ObjectTotals(more, pair, lo, hi)));
      MergeAllConcat(ObjectTotals(before, pair, lo, hi), ObjectTotals(more, pair, lo, hi));
      TotalsConcat(before, more, pair, lo, hi);
      KeysOfConcat(before, more);
      DistinctConcat(before, more);
    }
  }

  lemma NoTotals(pair: PairKey, lo: int, hi: int)
    ensures MergeAll(ObjectTotals([], pair, lo, hi)) == EMPTY
  {
  }

  lemma TotalsConcat(a: seq<Ingest>, b: seq<Ingest>, pair: PairKey, lo: int, hi: int)
    ensures ObjectTotals(a + b, pair, lo, hi) == ObjectTotals(a, pair, lo, hi) + ObjectTotals(b, pair, lo, hi)
  {
    hide BatchTotal;
  }

  lemma DistinctConcat(a: seq<Ingest>, b: seq<Ingest>)
    requires OncePerKey(a) && OncePerKey(b) && KeysOf(a) !! KeysOf(b)
    ensures OncePerKey(a + b)
  {
    forall x, y | 0 <= x < y < |a + b|
      ensures (a + b)[x].key != (a + b)[y].key
    {
      if x < |a| && y >= |a| {
        assert a[x].key in KeysOf(a) && b[y - |a|].key in KeysOf(b);
      }
    }
  }

  /** One turn adds the totals of what it ingests, each for the first time. */
  lemma TurnAddsUp(c: Config, g: Progress, turn: Turn, g': Progress, pair: PairKey, lo: int, hi: int)
    requires Takes(c, g, turn, g')
    ensures var more := TurnIngests(c, g, turn);
            && Fold(g'.tables.minutes, pair, lo, hi)
                == Merge(Fold(g.tables.minutes, pair, lo, hi), MergeAll(ObjectTotals(more, pair, lo, hi)))
            && g'.ingested == g.ingested + KeysOf(more) && KeysOf(more) !! g.ingested && OncePerKey(more)
    ensures Consistent(g'.tables)
  {
    hide Merge, Fold, MergeAll, ObjectTotals, KeysOf, HoursOf, ReadingOf, AskedOf, Page, Ingested, Listing,
        OncePerKey;
    var more := TurnIngests(c, g, turn);
    if turn.Polls? {
      var x := InputAt(c, g, turn.env, turn.end);
      IngestsAddUp(g.tables, more, pair, lo, hi);
      RollKeepsMinutes(Ingested(g.tables, more), AskedOf(x));
      assert Listing(Objects(x)) by { NoListing(); }
      IngestsAreNew(x, ReadEnd(x, 0));
    } else {
      NoKeys();
      NoTotals(pair, lo, hi);
      MergeEmpty(Fold(g.tables.minutes, pair, lo, hi));
      assert OncePerKey([]) by { NoListing(); }
    }
  }

  lemma NoListing()
    ensures Listing([]) && OncePerKey([])
  {
  }

  lemma RollKeepsMinutes(t: Tables, closed: int)
    requires Consistent(t)
    ensures Apply(t, Deltas([], Some(closed))).minutes == t.minutes
  {
  }

  lemma {:induction false} MergeAllConcat(a: seq<Counters>, b: seq<Counters>)
    ensures MergeAll(a + b) == Merge(MergeAll(a), MergeAll(b))
  {
    hide Merge;
    if b == [] {
      assert a + b == a;
      MergeEmpty(MergeAll(a));
    } else {
      MergeAllConcat(a, b[..|b| - 1]);
      assert (a + b)[..|a + b| - 1] == a + b[..|b| - 1];
      MergeAssoc(MergeAll(a), MergeAll(b[..|b| - 1]), b[|b| - 1]);
    }
  }

  lemma SameWithout<T>(a: seq<T>, b: seq<T>, n: nat, i: nat)
    requires multiset(a) == multiset(b) && n + 1 == |a| && i < |b| && a[n] == b[i]
    ensures multiset(a[..n]) == multiset(b[..i] + b[i + 1..])
  {
    assert a == a[..n] + [a[n]];
    assert b == b[..i] + [b[i]] + b[i + 1..];
    assert multiset(a) == multiset(a[..n]) + multiset{a[n]};
    assert multiset(b) == multiset(b[..i] + b[i + 1..]) + multiset{b[i]};
    assert multiset(a[..n]) == multiset(a) - multiset{a[n]};
    assert multiset(b[..i] + b[i + 1..]) == multiset(b) - multiset{b[i]};
  }

  /** Workers, spans and objects may finish in any order: the merge is the same. */
  lemma {:induction false} MergeAllPermutes(a: seq<Counters>, b: seq<Counters>)
    requires multiset(a) == multiset(b)
    ensures MergeAll(a) == MergeAll(b)
    decreases |a|
  {
    hide Merge;
    if a == [] {
      assert |multiset(b)| == 0;
    } else {
      var n := |a| - 1;
      var x := a[n];
      assert x in multiset(b);
      var i :| 0 <= i < |b| && b[i] == x;
      var rest := b[..i] + b[i + 1..];
      assert a == a[..n] + [x];
      assert b == b[..i] + [x] + b[i + 1..];
      SameWithout(a, b, n, i);
      MergeAllPermutes(a[..n], rest);
      MergeAllConcat(b[..i], b[i + 1..]);
      MergeAllConcat(b[..i] + [x], b[i + 1..]);
      assert (b[..i] + [x])[..|b[..i] + [x]| - 1] == b[..i];
      MergeSwap(MergeAll(b[..i]), MergeAll(b[i + 1..]), x);
    }
  }

  /** The same objects ingested in another order, over any retries, leave the same totals. */
  lemma IngestOrderIsFree(t: Tables, a: seq<Ingest>, b: seq<Ingest>, pair: PairKey, lo: int, hi: int)
    requires Consistent(t) && multiset(a) == multiset(b)
    ensures Fold(Ingested(t, a).minutes, pair, lo, hi) == Fold(Ingested(t, b).minutes, pair, lo, hi)
  {
    hide Merge, Fold, BatchTotal, HoursOf, Ingested;
    IngestsAddUp(t, a, pair, lo, hi);
    IngestsAddUp(t, b, pair, lo, hi);
    TotalsPermute(a, b, pair, lo, hi);
    MergeAllPermutes(ObjectTotals(a, pair, lo, hi), ObjectTotals(b, pair, lo, hi));
  }

  lemma {:induction false} TotalsPermute(a: seq<Ingest>, b: seq<Ingest>, pair: PairKey, lo: int, hi: int)
    requires multiset(a) == multiset(b)
    ensures multiset(ObjectTotals(a, pair, lo, hi)) == multiset(ObjectTotals(b, pair, lo, hi))
    decreases |a|
  {
    hide BatchTotal;
    if a == [] {
      assert |multiset(b)| == 0;
    } else {
      var n := |a| - 1;
      var x := a[n];
      assert x in multiset(b);
      var i :| 0 <= i < |b| && b[i] == x;
      var rest := b[..i] + b[i + 1..];
      assert a == a[..n] + [x];
      assert b == b[..i] + [x] + b[i + 1..];
      SameWithout(a, b, n, i);
      TotalsPermute(a[..n], rest, pair, lo, hi);
      TotalsAround(a, n, pair, lo, hi);
      TotalsAround(b, i, pair, lo, hi);
      assert a[..n] + a[n + 1..] == a[..n];
    }
  }

  /** The totals without one object. */
  lemma TotalsAround(s: seq<Ingest>, i: nat, pair: PairKey, lo: int, hi: int)
    requires i < |s|
    ensures multiset(ObjectTotals(s, pair, lo, hi))
         == multiset(ObjectTotals(s[..i] + s[i + 1..], pair, lo, hi)) + multiset{BatchTotal(s[i].aggs, pair, lo, hi)}
  {
    hide BatchTotal;
    var t := ObjectTotals(s, pair, lo, hi);
    assert t == t[..i] + [t[i]] + t[i + 1..];
    assert ObjectTotals(s[..i] + s[i + 1..], pair, lo, hi) == t[..i] + t[i + 1..];
  }
}

/**
 The per-bucket row counters and their background rebuild (bucket_rows.go). A
 tailnet is named by its place in the primary key's order, and 0 stands for the
 empty id, which every entry point refuses.
 */
module BucketRows {
  import opened GoInts
  import opened PairGroups
  import opened HourRollup

  datatype PairRow = PairRow(tailnet: nat, bucket: nat, pair: PairKey)
  datatype Slot = Slot(tailnet: nat, bucket: nat)

  /** Where BuildPairRowCounts is. */
  datatype Builder =
    | Idle
    | Listing(last: nat, found: seq<nat>)
    | Counting(todo: seq<nat>)
    | Chunking(tailnet: nat, from: nat, max: nat, todo: seq<nat>)

  /** stateReady: the ready flag of the state row, if there is such a row. */
  datatype Db = Db(rows: set<PairRow>, counters: map<Slot, nat>, trigger: bool, stateReady: Option<bool>,
                   builder: Builder)

  const FRESH: Db := Db({}, map[], false, None, Idle)

  function SlotOf(r: PairRow): Slot {
    Slot(r.tailnet, r.bucket)
  }

  function CounterAt(counters: map<Slot, nat>, slot: Slot): nat {
    if slot in counters then counters[slot] else 0
  }

  function RowsIn(rows: set<PairRow>, tailnet: nat, lo: int, hi: int): set<PairRow> {
    set r | r in rows && r.tailnet == tailnet && lo <= r.bucket < hi
  }

  function RowsAt(rows: set<PairRow>, slot: Slot): set<PairRow> {
    set r | r in rows && SlotOf(r) == slot
  }

  function RowsOf(rows: set<PairRow>, tailnet: nat): set<PairRow> {
    set r | r in rows && r.tailnet == tailnet
  }

  function RowsFrom(rows: set<PairRow>, tailnet: nat, from: int): set<PairRow> {
    set r | r in rows && r.tailnet == tailnet && from <= r.bucket
  }

  // ---- The transactions.

  /** One upsert. A merge into a stored pair takes the UPDATE path and fires no trigger. */
  function Inserted(d: Db, r: PairRow): Db {
    if r in d.rows then d
    else d.(rows := d.rows + {r},
            counters := if d.trigger then d.counters[SlotOf(r) := CounterAt(d.counters, SlotOf(r)) + 1] else d.counters)
  }

  function Retained(d: Db, tailnet: nat, cutoff: int): Db {
    d.(rows := (set r | r in d.rows && !(r.tailnet == tailnet && r.bucket < cutoff)),
       counters := map s | s in d.counters && !(s.tailnet == tailnet && s.bucket < cutoff) :: d.counters[s])
  }

  /** Some row of the slot's tailnet is stored at or before the slot. */
  predicate AtOrAboveOldest(rows: set<PairRow>, s: Slot) {
    exists r :: r in rows && r.tailnet == s.tailnet && r.bucket <= s.bucket
  }

  /** ensureBucketRowCounts at startup. */
  function SetUp(d: Db): Db {
    if d.trigger && d.stateReady.Some? then
      d.(counters := map s | s in d.counters && AtOrAboveOldest(d.rows, s) :: d.counters[s])
    else
      d.(counters := map[], trigger := true, stateReady := Some(d.rows == {}))
  }

  /** recountPairRows: clear the chunk's counters and count its rows again. */
  function Recounted(d: Db, tailnet: nat, from: int, until: int): Db {
    var chunk := RowsIn(d.rows, tailnet, from, until);
    d.(counters :=
         (map s | s in d.counters && !(s.tailnet == tailnet && from <= s.bucket < until) :: d.counters[s])
         + (map s | s in (set r | r in chunk :: SlotOf(r)) :: |RowsAt(d.rows, s)|))
  }

  /** bucketRowsReady */
  predicate Ready(d: Db) {
    d.trigger && d.stateReady.Some? && d.stateReady.value
  }

  /** The state row is there and says the backfill has not finished. */
  predicate Unready(d: Db) {
    d.stateReady.Some? && !d.stateReady.value
  }

  // ---- One step of the system.

  datatype Event =
    | Insert(row: PairRow)
    | Retain(tailnet: nat, cutoff: int)
    | Restart                              // crash, cancel or clean stop: the builder is gone
    | Rebuild                              // a migration rebuilds node_pairs and loses the trigger
    | Startup                              // ensureBucketRowCounts
    | BuildStarts
    | Lists(next: nat)
    | ListEnds
    | Ranges(min: nat, max: nat)
    | RangesNothing
    | Chunk
    | ChunksEnd
    | MarksReady

  predicate IsMin(rows: set<PairRow>, min: nat) {
    (exists r :: r in rows && r.bucket == min) && forall r :: r in rows ==> min <= r.bucket
  }

  predicate IsMax(rows: set<PairRow>, max: nat) {
    (exists r :: r in rows && r.bucket == max) && forall r :: r in rows ==> r.bucket <= max
  }

  predicate Can(d: Db, e: Event) {
    match e
    case Insert(row) => row.tailnet > 0
    case Retain(_, _) => true
    case Restart => true
    case Rebuild => d.builder == Idle
    case Startup => d.builder == Idle
    case BuildStarts => d.builder == Idle && d.trigger && d.stateReady.Some? && !Ready(d)
    case Lists(next) =>
      d.builder.Listing? && next > d.builder.last
      && (exists r :: r in d.rows && r.tailnet == next)
      && (forall r :: r in d.rows && r.tailnet > d.builder.last ==> next <= r.tailnet)
    case ListEnds => d.builder.Listing? && forall r :: r in d.rows ==> r.tailnet <= d.builder.last
    case Ranges(min, max) =>
      d.builder.Counting? && d.builder.todo != []
      && IsMin(RowsOf(d.rows, d.builder.todo[0]), min) && IsMax(RowsOf(d.rows, d.builder.todo[0]), max)
    case RangesNothing => d.builder.Counting? && d.builder.todo != [] && RowsOf(d.rows, d.builder.todo[0]) == {}
    case Chunk => d.builder.Chunking? && d.builder.from <= d.builder.max
    case ChunksEnd => d.builder.Chunking? && d.builder.from > d.builder.max
    case MarksReady => d.builder == Counting([])
  }

  function Step(d: Db, e: Event): Db
    requires Can(d, e)
  {
    match e
    case Insert(row) => Inserted(d, row)
    case Retain(tailnet, cutoff) => Retained(d, tailnet, cutoff)
    case Restart => d.(builder := Idle)
    case Rebuild => d.(trigger := false)
    case Startup => SetUp(d)
    case BuildStarts => d.(builder := Listing(0, []))
    case Lists(next) => d.(builder := Listing(next, d.builder.found + [next]))
    case ListEnds => d.(builder := Counting(d.builder.found))
    case Ranges(min, max) => d.(builder := Chunking(d.builder.todo[0], (min / HOUR) * HOUR, max, d.builder.todo[1..]))
    case RangesNothing => d.(builder := Counting(d.builder.todo[1..]))
    case Chunk => Recounted(d, d.builder.tailnet, d.builder.from, d.builder.from
        + HOUR).(builder := d.builder.(from := d.builder.from + HOUR))
    case ChunksEnd => d.(builder := Counting(d.builder.todo))
    case MarksReady => d.(builder := Idle, stateReady := Some(true))
  }

  // ---- The invariant.

  /** The builder has yet to recount this slot. */
  predicate Todo(b: Builder, s: Slot) {
    match b
    case Idle => true
    case Listing(last, found) => s.tailnet > last || s.tailnet in found
    case Counting(todo) => s.tailnet in todo
    case Chunking(tailnet, from, max, todo) => s.tailnet in todo || (s.tailnet == tailnet && from <= s.bucket <= max)
  }

  predicate Exact(d: Db, s: Slot) {
    CounterAt(d.counters, s) == |RowsAt(d.rows, s)|
  }

  /** A counter is exact, or the counters are not in use and the slot still holds rows the builder will recount. */
  predicate SlotOk(d: Db, s: Slot) {
    Exact(d, s) || (Unready(d) && RowsAt(d.rows, s) != {} && Todo(d.builder, s))
  }

  ghost predicate Inv(d: Db) {
    && (forall r :: r in d.rows ==> r.tailnet > 0)
    && (d.builder != Idle ==> d.trigger && Unready(d))
    && (d.trigger && d.stateReady.Some? ==> forall s :: SlotOk(d, s))
  }

  lemma RowsAtAfterInsert(rows: set<PairRow>, r: PairRow, s: Slot)
    requires r !in rows
    ensures |RowsAt(rows + {r}, s)| == |RowsAt(rows, s)| + if s == SlotOf(r) then 1 else 0
    ensures RowsAt(rows, s) != {} ==> RowsAt(rows + {r}, s) != {}
  {
    if s == SlotOf(r) {
      assert RowsAt(rows + {r}, s) == RowsAt(rows, s) + {r};
    } else {
      assert RowsAt(rows + {r}, s) == RowsAt(rows, s);
    }
  }

  lemma InsertKeepsSlot(d: Db, r: PairRow, s: Slot)
    requires d.trigger && SlotOk(d, s)
    ensures SlotOk(Inserted(d, r), s)
  {
    if r !in d.rows {
      RowsAtAfterInsert(d.rows, r, s);
    }
  }

  lemma RetainKeepsSlot(d: Db, tailnet: nat, cutoff: int, s: Slot)
    requires SlotOk(d, s)
    ensures SlotOk(Retained(d, tailnet, cutoff), s)
  {
    var after := Retained(d, tailnet, cutoff);
    if s.tailnet == tailnet && s.bucket < cutoff {
      assert RowsAt(after.rows, s) == {};
    } else {
      assert RowsAt(after.rows, s) == RowsAt(d.rows, s);
    }
  }

  lemma SetUpKeepsSlot(d: Db, s: Slot)
    requires d.builder == Idle
    requires d.trigger && d.stateReady.Some? ==> SlotOk(d, s)
    ensures SlotOk(SetUp(d), s)
  {
    if d.trigger && d.stateReady.Some? {
      if !AtOrAboveOldest(d.rows, s) {
        assert RowsAt(d.rows, s) == {};
      }
    } else if RowsAt(d.rows, s) != {} {
      assert d.rows != {};
    }
  }

  lemma RecountKeepsSlot(d: Db, tailnet: nat, from: int, until: int, s: Slot)
    ensures var after := Recounted(d, tailnet, from, until);
            if s.tailnet == tailnet && from <= s.bucket < until then Exact(after, s)
            else (Exact(after, s) <==> Exact(d, s))
  {
    var after := Recounted(d, tailnet, from, until);
    var slots := set r | r in RowsIn(d.rows, tailnet, from, until) :: SlotOf(r);
    if s.tailnet == tailnet && from <= s.bucket < until {
      var chunk := RowsIn(d.rows, tailnet, from, until);
      assert forall r :: r in chunk ==> SlotOf(r) in slots;
      assert RowsAt(d.rows, s) <= chunk;
      if s !in slots {
        assert RowsAt(d.rows, s) == {};
      }
    } else {
      assert s !in slots;
    }
  }

  /** The tailnets of the list are the ones that had rows; later rows are counted by the trigger. */
  lemma ListKeepsSlot(d: Db, e: Event, s: Slot)
    requires Can(d, e) && Inv(d) && SlotOk(d, s)
    requires e.BuildStarts? || e.Lists? || e.ListEnds?
    ensures SlotOk(Step(d, e), s)
  {
    if !Exact(d, s) {
      var r :| r in RowsAt(d.rows, s);
      assert r in d.rows && r.tailnet == s.tailnet;
    }
  }

  lemma RangeKeepsSlot(d: Db, e: Event, s: Slot)
    requires Can(d, e) && Inv(d) && SlotOk(d, s)
    requires e.Ranges? || e.RangesNothing? || e.ChunksEnd?
    ensures SlotOk(Step(d, e), s)
  {
    if !Exact(d, s) {
      var r :| r in RowsAt(d.rows, s);
      assert r in d.rows && r.tailnet == s.tailnet && r.bucket == s.bucket;
      if e.Ranges? && s.tailnet == d.builder.todo[0] {
        assert r in RowsOf(d.rows, d.builder.todo[0]);
        assert (e.min / HOUR) * HOUR <= e.min <= s.bucket <= e.max;
      }
      assert r in RowsOf(d.rows, s.tailnet);
    }
  }

  lemma ChunkKeepsSlot(d: Db, s: Slot)
    requires Can(d, Chunk) && Inv(d) && SlotOk(d, s)
    ensures SlotOk(Step(d, Chunk), s)
  {
    RecountKeepsSlot(d, d.builder.tailnet, d.builder.from, d.builder.from + HOUR, s);
  }

  lemma StepKeepsInv(d: Db, e: Event)
    requires Inv(d) && Can(d, e)
    ensures Inv(Step(d, e))
  {
    var d' := Step(d, e);
    hide SlotOk;
    StepKeepsRest(d, e);
    if d'.trigger && d'.stateReady.Some? {
      forall s
        ensures SlotOk(d', s)
      {
        StepKeepsSlot(d, e, s);
      }
    }
  }

  lemma StepKeepsRest(d: Db, e: Event)
    requires Inv(d) && Can(d, e)
    ensures forall r :: r in Step(d, e).rows ==> r.tailnet > 0
    ensures Step(d, e).builder != Idle ==> Step(d, e).trigger && Unready(Step(d, e))
  {
    hide SlotOk, Recounted;
    if e.Chunk? {
      RecountLeaves(d, d.builder.tailnet, d.builder.from, d.builder.from + HOUR);
    }
  }

  lemma RecountLeaves(d: Db, tailnet: nat, from: int, until: int)
    ensures Recounted(d, tailnet, from, until) == d.(counters := Recounted(d, tailnet, from, until).counters)
  {
  }

  lemma StepKeepsSlot(d: Db, e: Event, s: Slot)
    requires Inv(d) && Can(d, e)
    requires var d' := Step(d, e); d'.trigger && d'.stateReady.Some?
    ensures SlotOk(Step(d, e), s)
  {
    assert d.trigger && d.stateReady.Some? ==> SlotOk(d, s);
    match e
    case Insert(row) => InsertKeepsSlot(d, row, s);
    case Retain(tailnet, cutoff) => RetainKeepsSlot(d, tailnet, cutoff, s);
    case Restart =>
    case Rebuild =>
    case Startup => SetUpKeepsSlot(d, s);
    case BuildStarts => ListKeepsSlot(d, e, s);
    case Lists(_) => ListKeepsSlot(d, e, s);
    case ListEnds => ListKeepsSlot(d, e, s);
    case Ranges(_, _) => RangeKeepsSlot(d, e, s);
    case RangesNothing => RangeKeepsSlot(d, e, s);
    case Chunk => ChunkKeepsSlot(d, s);
    case ChunksEnd => RangeKeepsSlot(d, e, s);
    case MarksReady =>
  }

  ghost predicate IsRun(run: seq<Db>) {
    && |run| > 0 && run[0] == FRESH
    && forall i :: 0 <= i < |run| - 1 ==> Follows(run[i], run[i + 1])
  }

  ghost predicate Follows(d: Db, d': Db) {
    exists e :: Can(d, e) && d' == Step(d, e)
  }

  lemma {:induction false} RunInv(run: seq<Db>, i: nat)
    requires IsRun(run) && i < |run|
    ensures Inv(run[i])
  {
    hide Inv, Step, Can;
    if i > 0 {
      RunInv(run, i - 1);
      assert Follows(run[i - 1], run[i - 1 + 1]);
      var e :| Can(run[i - 1], e) && run[i] == Step(run[i - 1], e);
      StepKeepsInv(run[i - 1], e);
    } else {
      assert Inv(FRESH) by { FreshInv(); }
    }
  }

  lemma FreshInv()
    ensures Inv(FRESH)
  {
  }

  /** Whenever the counters are in use, every one of them is the number of stored rows. */
  lemma ReadyCountersAreExact(run: seq<Db>, i: nat, s: Slot)
    requires IsRun(run) && i < |run| && Ready(run[i])
    ensures CounterAt(run[i].counters, s) == |RowsAt(run[i].rows, s)|
  {
    RunInv(run, i);
    assert SlotOk(run[i], s);
  }

  // ---- What is stored, by the events.

  /** What each step does to the stored rows: inserts add theirs, retention takes a tailnet's old ones. */
  lemma StepOnRows(d: Db, e: Event, r: PairRow)
    requires Can(d, e)
    ensures r in Step(d, e).rows <==>
            if e.Insert? then r in d.rows || r == e.row
            else if e.Retain? then r in d.rows && (r.tailnet != e.tailnet || e.cutoff <= r.bucket)
            else r in d.rows
  {
    hide Recounted;
    if e.Chunk? {
      RecountLeaves(d, d.builder.tailnet, d.builder.from, d.builder.from + HOUR);
    }
  }

  /** And to the counters: with the trigger in place a new row counts once, and a stored one not again. */
  lemma StepOnCounters(d: Db, e: Event, s: Slot)
    requires Can(d, e) && !e.Startup? && !e.Chunk?
    ensures CounterAt(Step(d, e).counters, s)
         == if e.Insert? && d.trigger && e.row !in d.rows && s == Slot(e.row.tailnet, e.row.bucket)
            then CounterAt(d.counters, s) + 1
            else if e.Retain? && s.tailnet == e.tailnet && s.bucket < e.cutoff then 0
            else CounterAt(d.counters, s)
  {
  }

  /** Writers never wait for the builder, and each startup arms the trigger and leaves counters of stored minutes. */
  lemma AlwaysPossible(d: Db, r: PairRow, tailnet: nat, cutoff: int)
    ensures Can(d, Insert(r)) <==> r.tailnet > 0
    ensures Can(d, Retain(tailnet, cutoff)) && Can(d, Restart) && Can(Step(d, Restart), Startup)
    ensures var after := Step(Step(d, Restart), Startup);
            && after.trigger && after.builder == Idle && (Ready(d) || (d.rows == {} && !d.trigger) ==> Ready(after))
            && after.stateReady.Some?
            && forall s :: s in after.counters ==>
                 exists x :: x in d.rows && x.tailnet == s.tailnet && x.bucket <= s.bucket
  {
  }

  /** A run with the events that made it. */
  ghost predicate IsEventRun(run: seq<Db>, events: seq<Event>) {
    && |run| == |events| + 1 && run[0] == FRESH
    && forall i :: 0 <= i < |events| ==> Can(run[i], events[i]) && run[i + 1] == Step(run[i], events[i])
  }

  /** A row was inserted, and no retention of its tailnet has passed it since. */
  ghost predicate Stays(events: seq<Event>, r: PairRow) {
    exists j :: 0 <= j < |events| && events[j] == Insert(r) && Spared(events, j, r)
  }

  ghost predicate Spared(events: seq<Event>, j: nat, r: PairRow) {
    forall k :: j < k < |events| && events[k].Retain? && events[k].tailnet == r.tailnet ==> events[k].cutoff <= r.bucket
  }

  /** So the stored rows are those inserted and not since retained away. */
  lemma {:induction false} RowsAreInserts(run: seq<Db>, events: seq<Event>, i: nat, r: PairRow)
    requires IsEventRun(run, events) && i <= |events|
    ensures r in run[i].rows <==> Stays(events[..i], r)
  {
    if i > 0 {
      var n := i - 1;
      RowsAreInserts(run, events, n, r);
      hide Can, Step;
      StepOnRows(run[n], events[n], r);
      StaysSnoc(events[..n], events[n], r);
      assert events[..i] == events[..n] + [events[n]];
    }
  }

  lemma StaysSnoc(front: seq<Event>, e: Event, r: PairRow)
    ensures Stays(front + [e], r) <==>
            e == Insert(r)
            || (Stays(front, r) && !(e.Retain? && e.tailnet == r.tailnet && r.bucket < e.cutoff))
  {
    var all, n := front + [e], |front|;
    assert forall j :: 0 <= j < n ==> all[j] == front[j];
    forall j | 0 <= j < n && front[j] == Insert(r)
      ensures Spared(all, j, r) <==>
              Spared(front, j, r) && !(e.Retain? && e.tailnet == r.tailnet && r.bucket < e.cutoff)
    {
      if Spared(all, j, r) {
        assert all[n] == e;
        forall k | j < k < n && front[k].Retain? && front[k].tailnet == r.tailnet
          ensures front[k].cutoff <= r.bucket
        {
          assert all[k] == front[k];
        }
      }
    }
    if Stays(all, r) {
      var j :| 0 <= j < |all| && all[j] == Insert(r) && Spared(all, j, r);
      if j < n {
        assert front[j] == Insert(r) && Spared(front, j, r);
      }
    }
    if Stays(front, r) && !(e.Retain? && e.tailnet == r.tailnet && r.bucket < e.cutoff) {
      var j :| 0 <= j < n && front[j] == Insert(r) && Spared(front, j, r);
      assert all[j] == Insert(r) && Spared(all, j, r);
    }
    if e == Insert(r) {
      assert all[n] == Insert(r) && Spared(all, n, r);
    }
  }

  // ---- What readers report.

  /** SUM(rows) over the counters of [lo, hi). */
  function SumCounters(counters: map<Slot, nat>, tailnet: nat, lo: nat, hi: nat): nat
    decreases hi
  {
    if hi <= lo then 0
    else SumCounters(counters, tailnet, lo, hi - 1) + CounterAt(counters, Slot(tailnet, hi - 1))
  }

  lemma {:induction false} SumIsCount(d: Db, tailnet: nat, lo: nat, hi: nat)
    requires forall s :: Exact(d, s)
    ensures SumCounters(d.counters, tailnet, lo, hi) == |RowsIn(d.rows, tailnet, lo, hi)|
    decreases hi
  {
    if hi <= lo {
      assert RowsIn(d.rows, tailnet, lo, hi) == {};
    } else {
      SumIsCount(d, tailnet, lo, hi - 1);
      assert Exact(d, Slot(tailnet, hi - 1));
      assert RowsIn(d.rows, tailnet, lo, hi) == RowsIn(d.rows, tailnet, lo, hi - 1)
          + RowsAt(d.rows, Slot(tailnet, hi - 1));
    }
  }

  /** The oldest stored bucket of a tailnet. */
  method OldestBucket(rows: set<PairRow>, tailnet: nat) returns (min: Option<nat>)
    ensures min.None? <==> RowsOf(rows, tailnet) == {}
    ensures min.Some? ==> IsMin(RowsOf(rows, tailnet), min.value)
  {
    min := None;
    var left := RowsOf(rows, tailnet);
    ghost var all := left;
    while left != {}
      invariant left <= all
      invariant min.None? <==> left == all
      invariant min.Some? ==> IsMin(all - left, min.value)
      decreases left
    {
      var r :| r in left;
      ghost var seen := all - left;
      left := left - {r};
      assert all - left == seen + {r};
      min := if min.None? || r.bucket < min.value then Some(r.bucket) else min;
    }
    assert all - left == all;
  }

  /** countAllNodePairs: every stored pair row of a tailnet. horizon is past every bucket. */
  method CountAllNodePairs(d: Db, tailnet: nat, horizon: nat, counted: bool) returns (n: nat)
    requires forall r :: r in d.rows ==> r.bucket < horizon
    requires counted ==> Ready(d) && Inv(d)
    ensures n == |RowsOf(d.rows, tailnet)|
  {
    if !counted {
      return |RowsOf(d.rows, tailnet)|;
    }
    var min := OldestBucket(d.rows, tailnet);
    if min.None? {
      return 0;
    }
    forall s
      ensures Exact(d, s)
    {
      assert SlotOk(d, s);
    }
    SumIsCount(d, tailnet, min.value, horizon);
    assert forall r :: r in RowsOf(d.rows, tailnet) ==> r in d.rows;
    assert RowsIn(d.rows, tailnet, min.value, horizon) == RowsOf(d.rows, tailnet);
    return SumCounters(d.counters, tailnet, min.value, horizon);
  }

  /** Counted and uncounted reads from any bucket agree in every reachable state. */
  lemma CountedReadsAgree(run: seq<Db>, i: nat, tailnet: nat, from: nat, horizon: nat)
    requires IsRun(run) && i < |run| && Ready(run[i])
    requires forall r :: r in run[i].rows ==> r.bucket < horizon
    ensures SumCounters(run[i].counters, tailnet, from, horizon)
         == |RowsFrom(run[i].rows, tailnet, from)|
  {
    forall s
      ensures Exact(run[i], s)
    {
      ReadyCountersAreExact(run, i, s);
    }
    SumIsCount(run[i], tailnet, from, horizon);
    assert RowsIn(run[i].rows, tailnet, from, horizon) == RowsFrom(run[i].rows, tailnet, from);
  }

  /**
   Whenever the counters are in use, the counted read is the number of
   different rows that were inserted and not since retained away.
   */
  lemma CountedReadCountsInserts(run: seq<Db>, events: seq<Event>, i: nat, tailnet: nat, from: nat, horizon: nat,
                                 stored: set<PairRow>)
    requires IsEventRun(run, events) && i <= |events| && Ready(run[i])
    requires forall r :: r in stored <==> Stays(events[..i], r) && r.tailnet == tailnet && from <= r.bucket
    requires forall r :: Stays(events[..i], r) ==> r.bucket < horizon
    ensures SumCounters(run[i].counters, tailnet, from, horizon) == |stored|
  {
    hide Can, Step, Stays, SumCounters, Ready;
    forall r
      ensures r in run[i].rows <==> Stays(events[..i], r)
    {
      RowsAreInserts(run, events, i, r);
    }
    EventRunIsRun(run, events);
    CountedReadsAgree(run, i, tailnet, from, horizon);
    assert RowsFrom(run[i].rows, tailnet, from) == stored;
  }

  lemma EventRunIsRun(run: seq<Db>, events: seq<Event>)
    requires IsEventRun(run, events)
    ensures IsRun(run)
  {
    hide Step, Can, Follows;
    forall i | 0 <= i < |run| - 1
      ensures Follows(run[i], run[i + 1])
    {
      StepFollows(run[i], events[i]);
    }
  }

  lemma StepFollows(d: Db, e: Event)
    requires Can(d, e)
    ensures Follows(d, Step(d, e))
  {
  }

  // ---- The builder on its own.

  method NewestBucket(rows: set<PairRow>, tailnet: nat) returns (max: Option<nat>)
    ensures max.None? <==> RowsOf(rows, tailnet) == {}
    ensures max.Some? ==> IsMax(RowsOf(rows, tailnet), max.value)
  {
    max := None;
    var left := RowsOf(rows, tailnet);
    ghost var all := left;
    while left != {}
      invariant left <= all
      invariant max.None? <==> left == all
      invariant max.Some? ==> IsMax(all - left, max.value)
      decreases left
    {
      var r :| r in left;
      ghost var seen := all - left;
      left := left - {r};
      assert all - left == seen + {r};
      max := if max.None? || r.bucket > max.value then Some(r.bucket) else max;
    }
    assert all - left == all;
  }

  /** SELECT MIN(tailnet_id) FROM node_pairs WHERE tailnet_id > last */
  method NextTailnet(rows: set<PairRow>, last: nat) returns (next: Option<nat>)
    ensures next.None? ==> forall r :: r in rows ==> r.tailnet <= last
    ensures next.Some? ==> next.value > last && exists r :: r in rows && r.tailnet == next.value
    ensures next.Some? ==> forall r :: r in rows && r.tailnet > last ==> next.value <= r.tailnet
  {
    next := None;
    var left := rows;
    while left != {}
      invariant left <= rows
      invariant next.None? ==> forall r :: r in rows - left ==> r.tailnet <= last
      invariant next.Some? ==> next.value > last && exists r :: r in rows && r.tailnet == next.value
      invariant next.Some? ==> forall r :: r in rows - left && r.tailnet > last ==> next.value <= r.tailnet
      decreases left
    {
      var r :| r in left;
      left := left - {r};
      if r.tailnet > last && (next.None? || r.tailnet < next.value) {
        next := Some(r.tailnet);
      }
    }
  }

  /** The builder's own steps leave rows, trigger and the state row alone until the end. */
  predicate SameStore(d: Db, d0: Db) {
    d.rows == d0.rows && d.trigger == d0.trigger && d.stateReady == d0.stateReady
  }

  /** With nothing else running, BuildPairRowCounts finishes and the counters come into use. */
  method BuildPairRowCounts(d0: Db) returns (d: Db)
    requires Inv(d0) && d0.builder == Idle && d0.trigger && d0.stateReady.Some?
    ensures Inv(d) && Ready(d) && d.rows == d0.rows && d.builder == Idle
  {
    if Ready(d0) {
      return d0;
    }
    hide Inv, Can, Step, Recounted;
    d := Take(d0, BuildStarts);
    while d.builder.Listing?
      invariant Inv(d) && SameStore(d, d0) && (d.builder.Listing? || d.builder.Counting?)
      decreases d.builder.Listing?, if d.builder.Listing? then |(set r | r in d0.rows && r.tailnet > d.builder.last)|
          else 0
    {
      var next := NextTailnet(d.rows, d.builder.last);
      if next.None? {
        d := Take(d, ListEnds);
      } else {
        ghost var before := d.builder.last;
        FewerLeft(d0.rows, before, next.value);
        d := Take(d, Lists(next.value));
      }
    }
    while d.builder.todo != []
      invariant Inv(d) && SameStore(d, d0) && d.builder.Counting?
      decreases |d.builder.todo|
    {
      d := BuildTailnetPairRowCounts(d);
    }
    d := Take(d, MarksReady);
  }

  /** One step the builder is able to take. */
  method Take(d: Db, e: Event) returns (d': Db)
    requires Inv(d) && Can(d, e)
    ensures Inv(d') && d' == Step(d, e)
    ensures e.BuildStarts? ==> SameStore(d', d) && d'.builder == Listing(0, [])
    ensures e.Lists? ==> SameStore(d', d) && d'.builder == Listing(e.next, d.builder.found + [e.next])
    ensures e.ListEnds? ==> SameStore(d', d) && d'.builder == Counting(d.builder.found)
    ensures e.RangesNothing? ==> SameStore(d', d) && d'.builder == Counting(d.builder.todo[1..])
    ensures e.Ranges? ==>
            SameStore(d', d) && d'.builder.Chunking? && d'.builder.max == e.max
            && d'.builder.todo == d.builder.todo[1..]
    ensures e.Chunk? ==> SameStore(d', d) && d'.builder == d.builder.(from := d.builder.from + HOUR)
    ensures e.ChunksEnd? ==> SameStore(d', d) && d'.builder == Counting(d.builder.todo)
    ensures e.MarksReady? ==>
            d'.rows == d.rows && d'.trigger == d.trigger && d'.stateReady == Some(true) && d'.builder == Idle
  {
    StepKeepsInv(d, e);
    d' := Step(d, e);
  }

  lemma FewerLeft(rows: set<PairRow>, last: nat, next: nat)
    requires next > last && exists r :: r in rows && r.tailnet == next
    ensures |set r | r in rows && r.tailnet > next| < |set r | r in rows && r.tailnet > last|
  {
    var r0 :| r0 in rows && r0.tailnet == next;
    var a, b := set r | r in rows && r.tailnet > next, set r | r in rows && r.tailnet > last;
    assert a <= b - {r0};
    SubsetSize(a, b - {r0});
  }

  lemma {:induction false} SubsetSize<T>(a: set<T>, b: set<T>)
    requires a <= b
    ensures |a| <= |b|
  {
    if a != {} {
      var x :| x in a;
      SubsetSize(a - {x}, b - {x});
    }
  }

  /** buildTailnetPairRowCounts: one tailnet, an hour at a time. */
  method BuildTailnetPairRowCounts(d0: Db) returns (d: Db)
    requires Inv(d0) && d0.builder.Counting? && d0.builder.todo != []
    ensures Inv(d) && SameStore(d, d0) && d.builder == Counting(d0.builder.todo[1..])
  {
    hide Inv, Step, Recounted;
    d := d0;
    var min := OldestBucket(d.rows, d.builder.todo[0]);
    var max := NewestBucket(d.rows, d.builder.todo[0]);
    if min.None? || max.None? {
      d := Take(d, RangesNothing);
      return;
    }
    d := Take(d, Ranges(min.value, max.value));
    while d.builder.from <= d.builder.max
      invariant Inv(d) && SameStore(d, d0) && d.builder.Chunking?
      invariant d.builder.max == max.value && d.builder.todo == d0.builder.todo[1..]
      decreases d.builder.max + HOUR - d.builder.from
    {
      d := Take(d, Chunk);
    }
    d := Take(d, ChunksEnd);
  }
}

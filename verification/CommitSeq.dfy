/**
 The commit counter of one tailnet (store_lock.go). A writer bumps started,
 commits, then bumps finished; any number of writers may be in between. A
 reader loads finished, then started, and after its last snapshot loads
 started once more.
 */
module CommitSeq {

  /** waiting: started, commit not landed. landed: visible, finished not yet bumped. commits: the version. */
  datatype Seq = Seq(started: nat, finished: nat, waiting: nat, landed: nat, commits: nat)

  const IDLE: Seq := Seq(0, 0, 0, 0, 0)

  datatype Event =
    | Start
    | Land
    | Fail      // the commit fails and leaves the tables alone; its finished bump still comes
    | Finish

  predicate Possible(q: Seq, e: Event) {
    match e
    case Start => true
    case Land => q.waiting > 0
    case Fail => q.waiting > 0
    case Finish => q.landed > 0
  }

  function Step(q: Seq, e: Event): Seq
    requires Possible(q, e)
  {
    match e
    case Start => q.(started := q.started + 1, waiting := q.waiting + 1)
    case Land => q.(waiting := q.waiting - 1, landed := q.landed + 1, commits := q.commits + 1)
    case Fail => q.(waiting := q.waiting - 1, landed := q.landed + 1)
    case Finish => q.(landed := q.landed - 1, finished := q.finished + 1)
  }

  predicate Next(q: Seq, q': Seq) {
    q' == q || exists e: Event :: Possible(q, e) && Step(q, e) == q'
  }

  ghost predicate IsRun(run: seq<Seq>) {
    && |run| > 0 && run[0] == IDLE
    && forall i :: 0 <= i < |run| - 1 ==> Next(run[i], run[i + 1])
  }

  /** Every started commit is waiting, landed or finished. */
  predicate Balanced(q: Seq) {
    q.started == q.finished + q.waiting + q.landed
  }

  predicate InFlight(q: Seq) {
    q.waiting + q.landed > 0
  }

  lemma {:induction false} RunIsBalanced(run: seq<Seq>, i: nat)
    requires IsRun(run) && i < |run|
    ensures Balanced(run[i])
  {
    if i > 0 {
      RunIsBalanced(run, i - 1);
      assert Next(run[i - 1], run[i]);
    }
  }

  lemma {:induction false} CountersGrow(run: seq<Seq>, i: nat, j: nat)
    requires IsRun(run) && i <= j < |run|
    ensures run[i].started <= run[j].started && run[i].finished <= run[j].finished && run[i].commits <= run[j].commits
    decreases j - i
  {
    if i < j {
      CountersGrow(run, i, j - 1);
      assert Next(run[j - 1], run[j]);
    }
  }

  /** Idle at j and no start up to k: no version change up to k. */
  lemma {:induction false} IdleStays(run: seq<Seq>, j: nat, k: nat)
    requires IsRun(run) && j <= k < |run|
    requires !InFlight(run[j]) && run[k].started == run[j].started
    ensures !InFlight(run[k]) && run[k].commits == run[j].commits
    decreases k - j
  {
    if j < k {
      CountersGrow(run, j, k - 1);
      CountersGrow(run, k - 1, k);
      IdleStays(run, j, k - 1);
      RunIsBalanced(run, k);
      assert Next(run[k - 1], run[k]);
    }
  }

  /**
   quiet() with finished loaded at i and started at j reports no commit in
   flight exactly when none is in flight at j and none finished in between.
   */
  lemma QuietIsExact(run: seq<Seq>, i: nat, j: nat)
    requires IsRun(run) && i <= j < |run|
    ensures run[j].started == run[i].finished <==> !InFlight(run[j]) && run[j].finished == run[i].finished
  {
    RunIsBalanced(run, j);
    CountersGrow(run, i, j);
  }

  /** unchangedSince at k holds exactly when no commit started after j. */
  lemma UnchangedIsExact(run: seq<Seq>, j: nat, k: nat)
    requires IsRun(run) && j <= k < |run|
    ensures run[k].started == run[j].started
       <==> forall m :: j <= m < k ==> run[m].started == run[m + 1].started
  {
    if run[k].started == run[j].started {
      forall m | j <= m < k
        ensures run[m].started == run[m + 1].started
      {
        CountersGrow(run, j, m);
        CountersGrow(run, m, m + 1);
        CountersGrow(run, m + 1, k);
      }
    } else {
      var m := FirstRise(run, j, k);
    }
  }

  ghost function FirstRise(run: seq<Seq>, j: nat, k: nat): (m: nat)
    requires IsRun(run) && j <= k < |run| && run[k].started != run[j].started
    ensures j <= m < k && run[m].started != run[m + 1].started
    decreases k - j
  {
    if run[j].started != run[j + 1].started then j else FirstRise(run, j + 1, k)
  }

  /**
   The seqlock: quiet when the read begins and unchanged after its last
   snapshot, so every snapshot in between is of one version.
   */
  lemma QuietReadIsStable(run: seq<Seq>, i: nat, j: nat, k: nat)
    requires IsRun(run) && i <= j <= k < |run|
    requires run[j].started == run[i].finished
    requires run[k].started == run[j].started
    ensures forall m :: j <= m <= k ==> run[m].commits == run[j].commits && !InFlight(run[m])
  {
    QuietIsExact(run, i, j);
    forall m | j <= m <= k
      ensures run[m].commits == run[j].commits && !InFlight(run[m])
    {
      CountersGrow(run, j, m);
      CountersGrow(run, m, k);
      IdleStays(run, j, m);
    }
  }

  /** The other load order: quiet() alone could then report idle with a commit about to land. */
  lemma StartedFirstIsWrong() returns (run: seq<Seq>)
    ensures IsRun(run) && |run| == 7
    ensures run[1].started == run[5].finished
    ensures InFlight(run[5]) && run[6].commits != run[5].commits
  {
    hide IsRun;
    run := [IDLE];
    assert IsRun(run) by { FirstRun(); }
    run := OneMore(run, Start);
    run := OneMore(run, Land);
    run := OneMore(run, Start);
    run := OneMore(run, Finish);
    run := Again(run);
    run := OneMore(run, Land);
  }

  lemma FirstRun()
    ensures IsRun([IDLE])
  {
  }

  /** A run and one more step. */
  lemma OneMore(run: seq<Seq>, e: Event) returns (longer: seq<Seq>)
    requires IsRun(run) && Possible(run[|run| - 1], e)
    ensures IsRun(longer) && longer == run + [Step(run[|run| - 1], e)]
  {
    var last := run[|run| - 1];
    assert Next(last, Step(last, e));
    hide Next, Step, Possible;
    longer := run + [Step(last, e)];
  }

  lemma Again(run: seq<Seq>) returns (longer: seq<Seq>)
    requires IsRun(run)
    ensures IsRun(longer) && longer == run + [run[|run| - 1]]
  {
    var last := run[|run| - 1];
    assert Next(last, last);
    hide Next;
    longer := run + [last];
  }

  /**
   With the recheck against the started value that was loaded, the other
   order is caught as well: started at i, finished at j, started again at k.
   */
  lemma RecheckCoversOtherOrder(run: seq<Seq>, i: nat, j: nat, k: nat)
    requires IsRun(run) && i <= j <= k < |run|
    requires run[j].finished == run[i].started
    requires run[k].started == run[i].started
    ensures forall m :: j <= m <= k ==> run[m].commits == run[j].commits
  {
    CountersGrow(run, i, j);
    CountersGrow(run, j, k);
    RunIsBalanced(run, j);
    forall m | j <= m <= k
      ensures run[m].commits == run[j].commits
    {
      CountersGrow(run, j, m);
      CountersGrow(run, m, k);
      IdleStays(run, j, m);
    }
  }
}

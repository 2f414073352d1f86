// Which ending a job gets, by what happened to it: every run decides each verdict at
// one step, and that step is read off the actions alone.

module IngestOutcomes {
  import opened IngestProtocol
  import opened IngestSafety
  import opened IngestTheorems

  // -- Runs, step by step -------------------------------------------------------

  lemma {:induction false} LastStep(y: System, acts: seq<Action>, z: System) returns (x: System)
    requires acts != [] && Runs(y, acts, z)
    ensures Runs(y, acts[..|acts| - 1], x) && Enabled(x, acts[|acts| - 1]) && z == Next(x, acts[|acts| - 1])
    decreases |acts|
  {
    if |acts| == 1 {
      x := y;
      assert Runs(Next(y, acts[0]), acts[1..], z);
    } else {
      x := LastStep(Next(y, acts[0]), acts[1..], z);
      assert acts[..|acts| - 1][1..] == acts[1..][..|acts| - 2];
    }
  }

  lemma {:induction false} OneState(y: System, acts: seq<Action>, a: System, b: System)
    requires Runs(y, acts, a) && Runs(y, acts, b)
    ensures a == b
    decreases |acts|
  {
    if acts != [] {
      OneState(Next(y, acts[0]), acts[1..], a, b);
    }
  }

  // -- Events -------------------------------------------------------------------

  // What a step means for a job: it settles the verdict, or a stage of it is done.
  datatype Event = Settles(job: nat, verdict: Verdict) | Finishes(job: nat, stage: Stage)

  // COMMIT came back.
  predicate Commits(x: System, a: Action, k: nat) {
    x.worker == Storing(k) && a == WCommit(true)
  }

  // A call made for the job raised, or a checkpoint found the budget gone and the job
  // not cancelled.
  predicate Fails(x: System, a: Action, k: nat) {
    || (x.worker == Connecting(k) && a == WConnect(false))
    || (x.worker.Doing? && x.worker.job == k && a == WWork(Raised))
    || (x.worker == Beginning(k) && a == WBegin(false))
    || (x.worker == Storing(k) && a == WCommit(false))
    || (x.worker.Checking? && x.worker.job == k && a == WCheck
        && k < |x.s.jobs| && x.s.jobs[k].spent && !x.s.jobs[k].cancelled)
  }

  // A checkpoint, or the last one under the lock, found the job flagged.
  predicate Stops(x: System, a: Action, k: nat) {
    && ((x.worker.Checking? && x.worker.job == k && a == WCheck) || (x.worker == Marking(k) && a == WMark))
    && k < |x.s.jobs| && x.s.jobs[k].cancelled
  }

  predicate Is(e: Event, x: System, a: Action) {
    match e
    case Settles(k, Success) => Commits(x, a, k)
    case Settles(k, Broken) => Fails(x, a, k)
    case Settles(k, Stopped) => Stops(x, a, k)
    case Finishes(k, stage) => x.worker == Doing(k, stage) && a == WWork(Done)
  }

  ghost predicate OccursAt(acts: seq<Action>, n: nat, x: System, e: Event) {
    n < |acts| && Runs(Init, acts[..n], x) && Enabled(x, acts[n]) && Is(e, x, acts[n])
  }

  ghost predicate Occurs(acts: seq<Action>, e: Event) {
    exists n, x :: OccursAt(acts, n, x, e)
  }

  // An event of a run is one of its beginning or its last step.
  lemma OccursSplit(acts: seq<Action>, x: System, a: Action, e: Event)
    requires Runs(Init, acts, x) && Enabled(x, a)
    ensures Occurs(acts + [a], e) <==> Occurs(acts, e) || Is(e, x, a)
  {
    var more := acts + [a];
    assert more[..|acts|] == acts;
    if Is(e, x, a) {
      assert OccursAt(more, |acts|, x, e);
    }
    if Occurs(acts, e) {
      var n: nat, z :| OccursAt(acts, n, z, e);
      assert more[..n] == acts[..n];
      assert OccursAt(more, n, z, e);
    }
    if Occurs(more, e) {
      var n: nat, z :| OccursAt(more, n, z, e);
      if n == |acts| {
        OneState(Init, acts, x, z);
      } else {
        assert more[..n] == acts[..n];
        assert OccursAt(acts, n, z, e);
      }
    }
  }

  // -- The verdict on a job -----------------------------------------------------

  function VerdictIn(o: Outcome): Verdict {
    match o
    case Stored => Success
    case Failed => Broken
    case _ => Stopped
  }

  // The verdict on job k has been reached: it waits to be sent, or has been.
  ghost predicate Reached(y: System, k: nat, v: Verdict) {
    || (k < |y.endings| && VerdictIn(y.endings[k].1) == v)
    || y.worker == Replying(k, v)
  }

  // The next ending sent is that of the worker's own job.
  ghost predicate InTurn(y: System) {
    && (y.worker.Replying? ==> y.worker.job == |y.endings|)
    && (y.worker.Doing? ==> !y.worker.stage.Mark? && y.worker.stage != Extract(false))
    && (forall k :: 0 <= k < |y.endings| ==> y.endings[k].0 == k)
  }

  lemma RunsInTurn(acts: seq<Action>, y: System)
    requires Runs(Init, acts, y)
    ensures InTurn(y)
  {
    InitHolds();
    RunKeeps(Init, acts, y);
  }

  lemma StepReaches(y: System, a: Action, k: nat, v: Verdict)
    requires InTurn(y) && Enabled(y, a)
    ensures Reached(Next(y, a), k, v) <==> Reached(y, k, v) || Is(Settles(k, v), y, a)
  {
    OnlyRepliesEnd(y, a);
    if a == WReply {
      ReplyReaches(y, k, v);
    } else {
      OthersReach(y, a, k, v);
    }
  }

  // Sending a verdict settles nothing new.
  lemma ReplyReaches(y: System, k: nat, v: Verdict)
    requires InTurn(y) && Enabled(y, WReply)
    ensures Reached(Next(y, WReply), k, v) <==> Reached(y, k, v)
  {
  }

  lemma OthersReach(y: System, a: Action, k: nat, v: Verdict)
    requires InTurn(y) && Enabled(y, a) && a != WReply
    ensures Next(y, a).worker == Replying(k, v) <==> y.worker == Replying(k, v) || Is(Settles(k, v), y, a)
  {
  }

  lemma {:induction false} VerdictIsReached(acts: seq<Action>, y: System, k: nat, v: Verdict)
    requires Runs(Init, acts, y)
    ensures Reached(y, k, v) <==> Occurs(acts, Settles(k, v))
    decreases |acts|
  {
    if acts != [] {
      var before, a := acts[..|acts| - 1], acts[|acts| - 1];
      var x := LastStep(Init, acts, y);
      VerdictIsReached(before, x, k, v);
      RunsInTurn(before, x);
      StepReaches(x, a, k, v);
      OccursSplit(before, x, a, Settles(k, v));
      assert acts == before + [a];
    }
  }

  lemma EndingIsReached(acts: seq<Action>, y: System, k: nat, v: Verdict)
    requires Runs(Init, acts, y) && k < |y.endings|
    ensures y.endings[k].0 == k
    ensures VerdictIn(y.endings[k].1) == v <==> Occurs(acts, Settles(k, v))
  {
    RunsInTurn(acts, y);
    VerdictIsReached(acts, y, k, v);
  }

  // Over every run: job k's user is told it is stored exactly when its COMMIT came
  // back well.
  lemma StoredIffCommitted(acts: seq<Action>, y: System, k: nat)
    requires Runs(Init, acts, y) && k < |y.endings|
    ensures y.endings[k].0 == k
    ensures y.endings[k].1.Stored? <==>
            exists n: nat, x ::
              n < |acts| && Runs(Init, acts[..n], x) && x.worker == Storing(k) && acts[n] == WCommit(true)
  {
    EndingIsReached(acts, y, k, Success);
    CommitOccurs(acts, k);
  }

  lemma CommitOccurs(acts: seq<Action>, k: nat)
    ensures Occurs(acts, Settles(k, Success)) <==>
            exists n: nat, x ::
              n < |acts| && Runs(Init, acts[..n], x) && x.worker == Storing(k) && acts[n] == WCommit(true)
  {
    if Occurs(acts, Settles(k, Success)) {
      var n: nat, x :| OccursAt(acts, n, x, Settles(k, Success));
      assert Runs(Init, acts[..n], x) && x.worker == Storing(k);
    }
    if n: nat, x: System :| n < |acts| && Runs(Init, acts[..n], x) && x.worker == Storing(k) && acts[n] == WCommit(true) {
      assert OccursAt(acts, n, x, Settles(k, Success));
    }
  }

  // It is told of a failure exactly when a call made for the job failed, or a
  // checkpoint found the budget gone before it found the job cancelled.
  lemma FailedIffBroken(acts: seq<Action>, y: System, k: nat)
    requires Runs(Init, acts, y) && k < |y.endings|
    ensures y.endings[k].1.Failed? <==>
            exists n: nat, x :: n < |acts| && Runs(Init, acts[..n], x) && Enabled(x, acts[n]) && Fails(x, acts[n], k)
  {
    EndingIsReached(acts, y, k, Broken);
    if y.endings[k].1.Failed? {
      var n: nat, x :| OccursAt(acts, n, x, Settles(k, Broken));
      assert Runs(Init, acts[..n], x) && Fails(x, acts[n], k);
    }
    if n: nat, x: System :| n < |acts| && Runs(Init, acts[..n], x) && Enabled(x, acts[n]) && Fails(x, acts[n], k) {
      assert OccursAt(acts, n, x, Settles(k, Broken));
    }
  }

  // And that it was stopped, by its user or by `shutdown`, exactly when a checkpoint
  // found the job flagged.
  lemma StoppedIffFlagged(acts: seq<Action>, y: System, k: nat)
    requires Runs(Init, acts, y) && k < |y.endings|
    ensures y.endings[k].1.CancelledByUser? || y.endings[k].1.Interrupted? <==>
            exists n: nat, x :: n < |acts| && Runs(Init, acts[..n], x) && Enabled(x, acts[n]) && Stops(x, acts[n], k)
  {
    EndingIsReached(acts, y, k, Stopped);
    if VerdictIn(y.endings[k].1) == Stopped {
      var n: nat, x :| OccursAt(acts, n, x, Settles(k, Stopped));
      assert Runs(Init, acts[..n], x) && Stops(x, acts[n], k);
    }
    if n: nat, x: System :| n < |acts| && Runs(Init, acts[..n], x) && Enabled(x, acts[n]) && Stops(x, acts[n], k) {
      assert OccursAt(acts, n, x, Settles(k, Stopped));
    }
  }

  // -- The ordinary upload ------------------------------------------------------

  predicate Spent(y: System, k: nat) {
    k < |y.s.jobs| && y.s.jobs[k].spent
  }

  lemma StepSpends(y: System, a: Action, k: nat)
    requires Enabled(y, a)
    ensures Spent(Next(y, a), k) <==> Spent(y, k) || a == Tick(k)
  {
  }

  // Only the clock spends a job's budget.
  lemma {:induction false} SpentIffTicked(acts: seq<Action>, y: System, k: nat)
    requires Runs(Init, acts, y)
    ensures Spent(y, k) <==> Tick(k) in acts
    decreases |acts|
  {
    if acts != [] {
      var before, a := acts[..|acts| - 1], acts[|acts| - 1];
      var x := LastStep(Init, acts, y);
      SpentIffTicked(before, x, k);
      StepSpends(x, a, k);
      assert acts == before + [a];
    }
  }

  // No call made while the worker has job k comes back badly.
  ghost predicate CallsSucceed(acts: seq<Action>, k: nat) {
    forall n: nat, x :: n < |acts| && Runs(Init, acts[..n], x) && Busy(x.worker) && x.worker.job == k ==>
      acts[n] != WConnect(false) && acts[n] != WWork(Raised) && acts[n] != WBegin(false) && acts[n] != WCommit(false)
  }

  lemma EndedFairly(acts: seq<Action>, y: System, k: nat)
    requires Runs(Init, acts, y) && k < |y.endings|
    ensures y.endings[k].1.CancelledByUser? || y.endings[k].1.Interrupted? ==> k in y.acked + y.interrupted
  {
    InitHolds();
    RunKeeps(Init, acts, y);
  }

  lemma NothingFails(acts: seq<Action>, n: nat, x: System, k: nat)
    requires n < |acts| && Runs(Init, acts[..n], x) && Tick(k) !in acts && CallsSucceed(acts, k)
    ensures !Fails(x, acts[n], k)
  {
    SpentIffTicked(acts[..n], x, k);
  }

  // A job within its budget that nobody cancels or interrupts and whose calls all come
  // back well ends stored.
  lemma SmoothJobIsStored(acts: seq<Action>, y: System, k: nat)
    requires Runs(Init, acts, y) && k < |y.endings|
    requires k !in y.acked + y.interrupted && Tick(k) !in acts && CallsSucceed(acts, k)
    ensures y.endings[k] == (k, Stored)
  {
    EndedFairly(acts, y, k);
    EndingIsReached(acts, y, k, Broken);
    forall n: nat, x | OccursAt(acts, n, x, Settles(k, Broken)) ensures false {
      NothingFails(acts, n, x, k);
    }
  }

  // Once `shutdown` has drained the worker every such job has been stored.
  lemma SmoothJobsAreStored(acts: seq<Action>, y: System, k: nat)
    requires Runs(Init, acts, y) && y.worker.Exited? && k < |y.s.jobs|
    requires k !in y.acked + y.interrupted && Tick(k) !in acts && CallsSucceed(acts, k)
    ensures k < |y.endings| && y.endings[k] == (k, Stored)
  {
    InitHolds();
    RunKeeps(Init, acts, y);
    ExitedIsSettled(y);
    SmoothJobIsStored(acts, y, k);
  }

  // -- What users are answered --------------------------------------------------

  // User u's job j has been filed and its entry not yet popped.
  predicate Unended(y: System, u: int, j: nat) {
    j < |y.s.jobs| && y.s.jobs[j].owner == u && (if Busy(y.worker) then y.worker.job <= j else |y.endings| <= j)
  }

  lemma EntryIff(y: System, u: int)
    requires Reachable(y)
    ensures u in y.s.inFlight <==> y.loop == Holding(u) || exists j: nat :: Unended(y, u, j)
    ensures forall j: nat :: Unended(y, u, j) ==> u in y.s.inFlight && y.s.inFlight[u] == Filed(j)
  {
    ReachableInv(y);
    if u in y.s.inFlight && y.s.inFlight[u].Filed? {
      assert Unended(y, u, y.s.inFlight[u].job);
    }
    forall j: nat | Unended(y, u, j) ensures u in y.s.inFlight && y.s.inFlight[u] == Filed(j) {
      assert y.s.jobs[j].owner == u;
    }
  }

  // A document is taken exactly when its user has no reservation and no unended job and
  // fewer than four reservations and queued jobs are held; refused as "in flight"
  // exactly in the first case, as "full" otherwise.
  lemma AdmittedIff(y: System, u: int)
    requires Reachable(y)
    ensures Admit(y.s, u).InFlight? <==> y.loop == Holding(u) || exists j: nat :: Unended(y, u, j)
    ensures Admit(y.s, u).Granted? <==>
            !Admit(y.s, u).InFlight? && |HeldUsers(y.s)| + |QueuedJobs(y.s)| < INGEST_QUEUE_MAX
  {
    EntryIff(y, u);
    CapacityIsExact(y);
  }

  // `/cancel` finds nothing exactly when its user has no unended job; a job it finds it
  // flags, unless that job has begun to commit.
  lemma CancelAnsweredIff(y: System, u: int)
    requires Reachable(y) && WellNamed(y.s)
    ensures CancelAnswer(y.s, u).Nothing? <==> forall j: nat :: !Unended(y, u, j)
    ensures forall j: nat :: Unended(y, u, j) ==>
              CancelAnswer(y.s, u) == if y.s.jobs[j].phase.Committing? then Finishing else Cancelling
  {
    EntryIff(y, u);
    if u in y.s.inFlight && y.s.inFlight[u].Filed? {
      FiledIsUnended(y, u);
    }
  }

  lemma FiledIsUnended(y: System, u: int)
    requires Reachable(y) && u in y.s.inFlight && y.s.inFlight[u].Filed?
    ensures Unended(y, u, y.s.inFlight[u].job)
  {
    ReachableInv(y);
  }

  // -- What a stored document went through --------------------------------------

  function StageRank(stage: Stage): nat {
    match stage
    case GetFile => 0
    case Download => 1
    case Extract(_) => 2
    case Chunk => 3
    case Embed => 4
    case Mark => 5
  }

  // How many stages lie behind the worker's job.
  function Behind(w: WorkerPc): nat {
    match w
    case Checking(_, next) => StageRank(next)
    case Doing(_, stage) => StageRank(stage)
    case Marking(_) => 5
    case Beginning(_) => 5
    case Storing(_) => 5
    case Replying(_, Success) => 5
    case _ => 0
  }

  const STAGES: seq<Stage> := [GetFile, Download, Extract(true), Chunk, Embed]

  // Every stage behind the worker's job came back done, on data that was there; except
  // that a download cut short leads to the one check that will stop the job.
  ghost predicate Worked(acts: seq<Action>, y: System) {
    Busy(y.worker) ==>
      forall i :: 0 <= i < Behind(y.worker) && i < |STAGES| ==>
        || Occurs(acts, Finishes(y.worker.job, STAGES[i]))
        || (i == 1 && y.worker == Checking(y.worker.job, Extract(false)))
  }

  lemma StageWorks(before: seq<Action>, x: System, a: Action, i: nat)
    requires Runs(Init, before, x) && InTurn(x) && Enabled(x, a) && InTurn(Next(x, a)) && Worked(before, x)
    requires Busy(Next(x, a).worker) && i < Behind(Next(x, a).worker) && i < |STAGES|
    ensures var w := Next(x, a).worker;
            || Occurs(before + [a], Finishes(w.job, STAGES[i])) || (i == 1 && w == Checking(w.job, Extract(false)))
  {
    OccursSplit(before, x, a, Finishes(Next(x, a).worker.job, STAGES[i]));
  }

  lemma StepWorks(before: seq<Action>, x: System, a: Action)
    requires Runs(Init, before, x) && InTurn(x) && Enabled(x, a) && InTurn(Next(x, a)) && Worked(before, x)
    ensures Worked(before + [a], Next(x, a))
  {
    var y := Next(x, a);
    if Busy(y.worker) {
      forall i | 0 <= i < Behind(y.worker) && i < |STAGES|
        ensures || Occurs(before + [a], Finishes(y.worker.job, STAGES[i]))
                || (i == 1 && y.worker == Checking(y.worker.job, Extract(false)))
      {
        StageWorks(before, x, a, i);
      }
    }
  }

  lemma {:induction false} RunWorks(acts: seq<Action>, y: System)
    requires Runs(Init, acts, y)
    ensures Worked(acts, y)
    decreases |acts|
  {
    if acts != [] {
      var before, a := acts[..|acts| - 1], acts[|acts| - 1];
      var x := LastStep(Init, acts, y);
      RunWorks(before, x);
      RunsInTurn(before, x);
      RunsInTurn(acts, y);
      StepWorks(before, x, a);
      assert acts == before + [a];
    }
  }

  // The stages of a job come in the source's order: whenever the worker does one of
  // them, each earlier one has come back done in this run, extraction on whole data.
  lemma StagesInOrder(acts: seq<Action>, y: System, i: nat)
    requires Runs(Init, acts, y) && y.worker.Doing? && i < StageRank(y.worker.stage) && i < |STAGES|
    ensures Occurs(acts, Finishes(y.worker.job, STAGES[i]))
  {
    RunWorks(acts, y);
  }

  // A document reported stored was fetched, downloaded, extracted, chunked and embedded
  // before its COMMIT.
  lemma StoredWentThroughAll(acts: seq<Action>, y: System, k: nat) returns (n: nat, x: System)
    requires Runs(Init, acts, y) && k < |y.endings| && y.endings[k].1.Stored?
    ensures n < |acts| && Runs(Init, acts[..n], x) && Commits(x, acts[n], k)
    ensures forall i :: 0 <= i < |STAGES| ==> Occurs(acts[..n], Finishes(k, STAGES[i]))
  {
    EndingIsReached(acts, y, k, Success);
    var m: nat, z :| OccursAt(acts, m, z, Settles(k, Success));
    n, x := m, z;
    RunWorks(acts[..n], x);
  }
}

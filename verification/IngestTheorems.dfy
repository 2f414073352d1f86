// The promises of the ingest worker, for every reachable state and every run.

module IngestTheorems {
  import opened IngestProtocol
  import opened IngestSafety

  // "Cancelling" and "stored" exclude each other: a job `cancel` said True for,
  // or that `shutdown` flagged, never reaches BEGIN IMMEDIATE.
  lemma CancelExcludesCommit(y: System)
    requires Reachable(y)
    ensures (y.acked + y.interrupted) !! y.began
    ensures forall k :: 0 <= k < |y.endings| && y.endings[k].1.Stored? ==>
              y.endings[k].0 in y.began && y.endings[k].0 !in y.acked + y.interrupted
    ensures forall k :: 0 <= k < |y.endings| ==>
              && (y.endings[k].1.CancelledByUser? ==> y.endings[k].0 in y.acked)
              && (y.endings[k].1.Interrupted? ==> y.endings[k].0 in y.interrupted)
  {
    ReachableInv(y);
  }

  // A job cancelled while it was still queued never causes a Telegram file call.
  lemma QueuedCancelFetchesNothing(y: System)
    requires Reachable(y)
    ensures y.ackedQueued !! y.fetched
  {
    ReachableInv(y);
  }

  // index_document is never handed the None of a download that stopped early.
  lemma NeverIndexesMissingData(y: System)
    requires Reachable(y) && y.worker.Doing?
    ensures y.worker.stage != Extract(false)
  {
    ReachableInv(y);
  }

  // At a checkpoint cancel is read before the budget: a job that is both
  // cancelled and over budget is reported as cancelled, never as failed.
  lemma CancelWinsOverBudget(y: System)
    requires Reachable(y) && Enabled(y, WCheck) && y.s.jobs[y.worker.job].cancelled
    ensures Enabled(Next(y, WCheck), WReply)
    ensures var z := Next(Next(y, WCheck), WReply);
            && z.endings[..|y.endings|] == y.endings && |z.endings| == |y.endings| + 1
            && z.endings[|y.endings|] ==
               (y.worker.job, if y.worker.job in y.interrupted then Interrupted else CancelledByUser)
  {
    ReachableInv(y);
  }

  // -- What later steps cannot take back --------------------------------------

  ghost predicate Grows(y: System, z: System) {
    && y.acked <= z.acked && y.interrupted <= z.interrupted && y.began <= z.began && y.fetched <= z.fetched
    && |y.endings| <= |z.endings| && z.endings[..|y.endings|] == y.endings
    && |y.s.jobs| <= |z.s.jobs|
    && (forall i :: 0 <= i < |y.s.jobs| && y.s.jobs[i].phase.Committing? ==> z.s.jobs[i].phase.Committing?)
  }

  lemma StepGrows(y: System, a: Action)
    requires Inv(y) && Enabled(y, a)
    ensures Grows(y, Next(y, a))
  {
  }

  lemma {:induction false} RunGrows(y: System, acts: seq<Action>, z: System)
    requires Inv(y) && Runs(y, acts, z)
    ensures Inv(z) && Grows(y, z)
    decreases |acts|
  {
    if acts != [] {
      var x := Next(y, acts[0]);
      StepKeeps(y, acts[0]);
      StepGrows(y, acts[0]);
      RunGrows(x, acts[1..], z);
      assert z.endings[..|y.endings|] == z.endings[..|x.endings|][..|y.endings|];
    }
  }

  // Whatever `cancel` answered stays true for the rest of the run: after True
  // the job is never stored, after False it is never cancelled or interrupted.
  lemma CancelAnswerIsFinal(y: System, user: int, acts: seq<Action>, z: System)
    requires Reachable(y) && Enabled(y, LCancel(user)) && Runs(Next(y, LCancel(user)), acts, z)
    ensures CancelAnswer(y.s, user).Cancelling? ==>
              forall k :: 0 <= k < |z.endings| ==> z.endings[k] != (y.s.inFlight[user].job, Stored)
    ensures CancelAnswer(y.s, user).Finishing? ==>
              y.s.inFlight[user].job !in z.acked + z.interrupted
  {
    ReachableInv(y);
    StepKeeps(y, LCancel(user));
    RunGrows(Next(y, LCancel(user)), acts, z);
  }

  // -- Why a job was cancelled --------------------------------------------------

  // A job's reason is the last writer's: `shutdown` if it flagged the job, else
  // `cancel` if it said True. So it is what its first writer wrote exactly when not
  // both of them wrote it.
  lemma ReasonIsExact(y: System, id: nat)
    requires Reachable(y) && id < |y.s.jobs|
    ensures y.s.jobs[id].reason ==
            if id in y.interrupted then ByShutdown else if id in y.acked then ByUser else NoReason
  {
    ReachableInv(y);
  }

  // The moment ending k was sent.
  ghost predicate Sends(acts: seq<Action>, n: nat, x: System, y: System, k: nat) {
    && n < |acts| && acts[n] == WReply && Enabled(x, WReply)
    && k < |y.endings| && x.endings == y.endings[..k] && Next(x, WReply).endings == y.endings[..k + 1]
  }

  lemma OnlyRepliesEnd(y: System, a: Action)
    requires Enabled(y, a)
    ensures a != WReply ==> Next(y, a).endings == y.endings
    ensures a == WReply ==> |Next(y, a).endings| == |y.endings| + 1 && Next(y, a).endings[..|y.endings|] == y.endings
  {
  }

  lemma SendsNow(from: System, acts: seq<Action>, y: System, k: nat)
    requires Inv(from) && acts != [] && Enabled(from, acts[0]) && Runs(Next(from, acts[0]), acts[1..], y)
    requires |from.endings| == k < |Next(from, acts[0]).endings|
    ensures Sends(acts, 0, from, y, k)
  {
    OnlyRepliesEnd(from, acts[0]);
    StepKeeps(from, acts[0]);
    RunGrows(Next(from, acts[0]), acts[1..], y);
    SentNow(from, Next(from, acts[0]), y, k);
  }

  lemma SendsLater(from: System, acts: seq<Action>, n: nat, x: System, y: System, k: nat)
    requires acts != [] && Enabled(from, acts[0]) && Sends(acts[1..], n, x, y, k)
    requires Runs(Next(from, acts[0]), acts[1..][..n], x)
    ensures Sends(acts, n + 1, x, y, k) && Runs(from, acts[..n + 1], x)
  {
    assert acts[..n + 1][1..] == acts[1..][..n] && acts[..n + 1][0] == acts[0];
  }

  lemma {:induction false} EndingWasSent(from: System, acts: seq<Action>, y: System, k: nat)
      returns (n: nat, x: System)
    requires Inv(from) && Runs(from, acts, y) && |from.endings| <= k < |y.endings|
    ensures Sends(acts, n, x, y, k) && Runs(from, acts[..n], x)
    decreases |acts|
  {
    OnlyRepliesEnd(from, acts[0]);
    if k < |Next(from, acts[0]).endings| {
      n, x := 0, from;
      SendsNow(from, acts, y, k);
    } else {
      StepKeeps(from, acts[0]);
      n, x := EndingWasSent(Next(from, acts[0]), acts[1..], y, k);
      SendsLater(from, acts, n, x, y, k);
      n := n + 1;
    }
  }

  lemma SentNow(from: System, next: System, y: System, k: nat)
    requires |from.endings| == k && |next.endings| == k + 1 && next.endings[..k] == from.endings
    requires Grows(next, y)
    ensures y.endings[..k] == from.endings && y.endings[..k + 1] == next.endings
  {
    assert y.endings[..k] == y.endings[..k + 1][..k];
  }

  // What a job's user is told, by what had happened to it so far.
  ghost predicate FairEnding(x: System, outcome: Outcome)
    requires Enabled(x, WReply)
  {
    && (outcome.Failed? <==> x.worker.verdict.Broken?)
    && (x.worker.job in x.acked && !outcome.Failed? ==>
          outcome == if x.worker.job in x.interrupted then Interrupted else CancelledByUser)
  }

  lemma ReplyIsFair(x: System)
    requires Reachable(x) && Enabled(x, WReply)
    ensures var outcome := OutcomeOf(x.worker.verdict, x.s.jobs[x.worker.job]);
            FairEnding(x, outcome) && Next(x, WReply).endings == x.endings + [(x.worker.job, outcome)]
  {
    ReachableInv(x);
  }

  // Over every run: the ending of a job follows what had happened when its reply was
  // sent. A job `cancel` said True for is never stored; unless its processing had
  // failed first, its user is told "interrupted" if `shutdown` had flagged the job by
  // then, and "cancelled" otherwise.
  lemma AcknowledgedEnding(acts: seq<Action>, y: System, k: nat) returns (n: nat, x: System)
    requires Runs(Init, acts, y) && k < |y.endings|
    ensures Sends(acts, n, x, y, k) && Runs(Init, acts[..n], x)
    ensures y.endings[k].0 == x.worker.job && FairEnding(x, y.endings[k].1)
  {
    InitHolds();
    n, x := EndingWasSent(Init, acts, y, k);
    assert Reachable(x);
    ReplyIsFair(x);
    assert y.endings[..k + 1][k] == y.endings[k];
  }

  lemma InitHolds()
    ensures Inv(Init) && Init.endings == []
  {
    assert Runs(Init, [], Init);
    ReachableInv(Init);
  }

  // -- Capacity ---------------------------------------------------------------

  ghost function HeldUsers(s: Shared): set<int> {
    set u | u in s.inFlight && s.inFlight[u].Held?
  }

  ghost function QueuedJobs(s: Shared): set<int> {
    set i | 0 <= i < |s.jobs| && s.jobs[i].phase.Queued?
  }

  lemma {:induction false} RangeSize(lo: int, hi: int, r: set<int>)
    requires lo <= hi && forall i :: i in r <==> lo <= i < hi
    ensures |r| == hi - lo
    decreases hi - lo
  {
    if lo == hi {
      assert forall i :: i in r ==> false;
      assert r == {};
    } else {
      RangeSize(lo, hi - 1, r - {hi - 1});
    }
  }

  ghost function OwnersFrom(jobs: seq<Job>, lo: nat): (r: set<int>)
    requires lo <= |jobs|
    ensures |r| <= |jobs| - lo
    ensures forall i :: lo <= i < |jobs| ==> jobs[i].owner in r
    decreases |jobs| - lo
  {
    if lo == |jobs| then {} else {jobs[lo].owner} + OwnersFrom(jobs, lo + 1)
  }

  lemma SubsetSize(a: set<int>, b: set<int>)
    requires a <= b
    ensures |a| <= |b|
  {
    assert b == a + (b - a);
  }

  // `_tokens` counts exactly the reservations and the jobs still queued, and
  // never leaves 0..4; at most five users are in flight.
  lemma CapacityIsExact(y: System)
    requires Reachable(y)
    ensures y.s.tokens == |HeldUsers(y.s)| + |QueuedJobs(y.s)|
    ensures 0 <= y.s.tokens <= INGEST_QUEUE_MAX
    ensures |y.s.inFlight.Keys| <= INGEST_QUEUE_MAX + 1
    ensures |y.s.queue| <= QUEUE_SLOTS
  {
    ReachableInv(y);
    RangeSize(Unstarted(y), |y.s.jobs|, QueuedJobs(y.s));
    var held := if y.loop.Holding? then {y.loop.user} else {};
    forall u ensures u in HeldUsers(y.s) <==> u in held {
      if u in y.s.inFlight {
        assert y.s.inFlight[u].Held? ==> y.loop == Holding(u);
      }
    }
    assert HeldUsers(y.s) == held;
    var owners := OwnersFrom(y.s.jobs, Gone(y));
    forall u | u in y.s.inFlight.Keys ensures u in owners + HeldUsers(y.s) {
      if y.s.inFlight[u].Filed? {
        var j := y.s.inFlight[u].job;
        assert y.s.jobs[j].owner == u;
      }
    }
    SubsetSize(y.s.inFlight.Keys, owners + HeldUsers(y.s));
    assert |owners + HeldUsers(y.s)| <= |owners| + |HeldUsers(y.s)|;
  }

  // put_nowait never raises, for a job or for the sentinel; run_one only ever
  // pops its own job's entry; and no two jobs are past `queued` at once.
  lemma QueueNeverOverflows(y: System)
    requires Reachable(y)
    ensures y.loop.Filing? || y.loop.Closing? ==> Roomy(y.s)
    ensures y.worker.Popping? ==>
              && y.worker.job < |y.s.jobs|
              && var owner := y.s.jobs[y.worker.job].owner;
                 owner in y.s.inFlight && y.s.inFlight[owner] == Filed(y.worker.job)
    ensures forall u, v :: u in y.s.inFlight && v in y.s.inFlight && u != v
                           && y.s.inFlight[u].Filed? && y.s.inFlight[v].Filed?
                           && y.s.inFlight[u].job < |y.s.jobs| && y.s.inFlight[v].job < |y.s.jobs| ==>
              y.s.jobs[y.s.inFlight[u].job].phase.Queued? || y.s.jobs[y.s.inFlight[v].job].phase.Queued?
  {
    ReachableInv(y);
  }

  // -- Endings and the drain --------------------------------------------------

  // Jobs end in admission order, each at most once.
  lemma EndingsInOrder(y: System)
    requires Reachable(y)
    ensures |y.endings| <= |y.s.jobs|
    ensures forall k :: 0 <= k < |y.endings| ==> y.endings[k].0 == k
  {
    ReachableInv(y);
  }

  ghost predicate Settled(y: System) {
    && |y.endings| == |y.s.jobs|
    && (forall k :: 0 <= k < |y.endings| ==> y.endings[k].0 == k)
    && y.s.inFlight == map[] && y.s.tokens == 0 && y.s.queue == []
  }

  predicate IsWorkerStep(a: Action) {
    !(a.LReserve? || a.LRelease? || a.LFile? || a.LPut? || a.LCancel? || a.LShutdown? || a.LSentinel? || a.Tick?)
  }

  function StepsLeft(w: WorkerPc): nat {
    match w
    case Ready => 0
    case Fetched(_) => 5
    case Connecting(_) => 4
    case Checking(_, _) => 3
    case Doing(_, _) => 4
    case Marking(_) => 3
    case Beginning(_) => 4
    case Storing(_) => 3
    case Replying(_, _) => 2
    case Popping(_) => 1
    case Exited => 0
  }

  ghost function DrainRank(y: System): int {
    StepsLeft(y.worker) + 6 * (|y.s.jobs| - y.taken) + (if y.s.drained then 0 else 1)
  }

  function Turns(acts: seq<Action>): nat {
    if acts == [] then 0
    else (if IsWorkerStep(acts[0]) then 1 else 0) + Turns(acts[1..])
  }

  lemma DrainStep(y: System, a: Action)
    requires Inv(y) && y.loop.Closed? && Enabled(y, a)
    ensures Next(y, a).loop.Closed?
    ensures IsWorkerStep(a) ==> DrainRank(Next(y, a)) < DrainRank(y)
    ensures !IsWorkerStep(a) ==> DrainRank(Next(y, a)) == DrainRank(y)
  {
  }

  lemma {:induction false} DrainRun(y: System, acts: seq<Action>, z: System)
    requires Inv(y) && y.loop.Closed? && Runs(y, acts, z)
    ensures Inv(z) && z.loop.Closed?
    ensures Turns(acts) + DrainRank(z) <= DrainRank(y)
    decreases |acts|
  {
    if acts != [] {
      StepKeeps(y, acts[0]);
      DrainStep(y, acts[0]);
      DrainRun(Next(y, acts[0]), acts[1..], z);
    }
  }

  // A worker that has not exited always has a step to take.
  lemma NeverStuck(y: System)
    requires Inv(y) && y.loop.Closed? && !y.worker.Exited?
    ensures exists a :: IsWorkerStep(a) && Enabled(y, a)
  {
    var a := match y.worker
      case Ready => WTake
      case Fetched(_) => WStart
      case Connecting(_) => WConnect(true)
      case Checking(_, _) => WCheck
      case Doing(_, _) => WWork(Raised)
      case Marking(_) => WMark
      case Beginning(_) => WBegin(true)
      case Storing(_) => WCommit(true)
      case Replying(_, _) => WReply
      case _ => WPop;
    assert IsWorkerStep(a) && Enabled(y, a);
  }

  lemma RankIsSmall(y: System)
    requires Inv(y) && y.loop.Closed?
    ensures 0 <= DrainRank(y) <= 29
  {
    assert y.s.tokens == |y.s.jobs| - Unstarted(y);
  }

  lemma ExitedIsSettled(y: System)
    requires Inv(y) && y.worker.Exited?
    ensures Settled(y)
  {
    forall u: int ensures u !in y.s.inFlight {
      assert Table(y);
    }
    assert y.s.inFlight == map[];
  }

  // After `shutdown` the `_run` loop takes at most 29 more steps whatever the
  // clock and the outside calls do, can always take one until it has exited,
  // and then every admitted job has had exactly one ending and nothing is held.
  lemma ShutdownDrains(y: System, acts: seq<Action>, z: System)
    requires Reachable(y) && y.loop.Closed? && Runs(y, acts, z)
    ensures Turns(acts) <= 29
    ensures !z.worker.Exited? ==> exists a :: IsWorkerStep(a) && Enabled(z, a)
    ensures z.worker.Exited? ==> Settled(z)
  {
    ReachableInv(y);
    DrainRun(y, acts, z);
    RankIsSmall(y);
    RankIsSmall(z);
    if z.worker.Exited? {
      ExitedIsSettled(z);
    } else {
      NeverStuck(z);
    }
  }

  // -- A gap between the code and its comment ---------------------------------

  lemma {:induction false} RunsAppend(y: System, acts: seq<Action>, z: System, a: Action)
    requires Runs(y, acts, z) && Enabled(z, a)
    ensures Runs(y, acts + [a], Next(z, a))
    decreases |acts|
  {
    if acts == [] {
      assert Runs(Next(z, a), ([] + [a])[1..], Next(z, a));
    } else {
      RunsAppend(Next(y, acts[0]), acts[1..], z, a);
      assert (acts + [a])[1..] == acts[1..] + [a];
    }
  }

  lemma ReachNext(y: System, a: Action)
    requires Reachable(y) && Enabled(y, a)
    ensures Reachable(Next(y, a))
  {
    var acts :| Runs(Init, acts, y);
    RunsAppend(Init, acts, y, a);
  }

  // User 7's document is queued.
  lemma OneQueued() returns (y: System)
    ensures Reachable(y)
    ensures y == System(Shared([Job(7, Queued, false, NoReason, false)], map[7 := Filed(0)], 1, [Work(0)], false, false),
                        Free, Ready, 0, {}, {}, {}, {}, {}, [])
  {
    assert Runs(Init, [], Init);
    ReachNext(Init, LReserve(7));
    y := Next(Init, LReserve(7));
    ReachNext(y, LFile);
    y := Next(y, LFile);
    ReachNext(y, LPut);
    y := Next(y, LPut);
  }

  // It is cancelled by the user
  lemma OneCancelled() returns (y: System)
    ensures Reachable(y)
    ensures y == System(Shared([Job(7, Queued, true, ByUser, false)], map[7 := Filed(0)], 1, [Work(0)], false, false),
                        Free, Ready, 0, {0}, {0}, {}, {}, {}, [])
  {
    var x := OneQueued();
    assert CancelAnswer(x.s, 7).Cancelling? && Enabled(x, LCancel(7));
    ReachNext(x, LCancel(7));
    y := Next(x, LCancel(7));
  }

  // and then flagged by shutdown.
  lemma OneFlaggedTwice() returns (y: System)
    ensures Reachable(y)
    ensures y == System(Shared([Job(7, Queued, true, ByShutdown, false)], map[7 := Filed(0)], 1, [Work(0)], true, false),
                        Closing, Ready, 0, {0}, {0}, {0}, {}, {}, [])
  {
    var x := OneCancelled();
    ReachNext(x, LShutdown);
    assert x.s.inFlight[7] == Filed(0);
    assert Filed(0) in x.s.inFlight.Values;
    y := Next(x, LShutdown);
  }

  // The worker dequeues it and stops at the first checkpoint.
  lemma OneStopped() returns (y: System)
    ensures Reachable(y) && y.acked == {0} && y.endings == []
    ensures y.worker == Replying(0, Stopped) && |y.s.jobs| == 1 && y.s.jobs[0].reason.ByShutdown?
  {
    y := OneFlaggedTwice();
    ReachNext(y, WTake);
    y := Next(y, WTake);
    ReachNext(y, WStart);
    y := Next(y, WStart);
    ReachNext(y, WConnect(true));
    y := Next(y, WConnect(true));
    ReachNext(y, WCheck);
    y := Next(y, WCheck);
  }

  // IngestJob's comment says every writer sets `cancel_reason` once.  A user's
  // /cancel followed by `shutdown` writes it twice, and the user is then told
  // the job was interrupted.
  lemma ReasonIsOverwritten()
    ensures exists y :: Reachable(y) && 0 in y.acked && y.endings == [(0, Interrupted)]
  {
    var y := OneStopped();
    ReachNext(y, WReply);
    y := Next(y, WReply);
  }
}

// What holds in every state the two threads of IngestProtocol can reach, under
// every interleaving, and what follows from it about whole runs.

module IngestSafety {
  import opened IngestProtocol

  // -- The invariant ----------------------------------------------------------

  // Jobs below this number have left `_in_flight`.
  ghost function Gone(y: System): int {
    if Busy(y.worker) then y.taken - 1 else y.taken
  }

  // Jobs from this number on still hold their capacity token.
  ghost function Unstarted(y: System): int {
    if y.worker.Fetched? then y.taken - 1 else y.taken
  }

  // Jobs below this number have been put on the queue.
  ghost function PutSoFar(y: System): int {
    if y.loop.Filing? then |y.s.jobs| - 1 else |y.s.jobs|
  }

  ghost function Works(lo: nat, hi: nat): (r: seq<Item>)
    requires lo <= hi
    ensures |r| == hi - lo
  {
    seq(hi - lo, i requires 0 <= i < hi - lo => Work(lo + i))
  }

  // First in, first out: the queue is a run of consecutive admission numbers,
  // with the sentinel behind all of them.
  ghost predicate Shape(y: System) {
    && 0 <= y.taken <= PutSoFar(y)
    && (Busy(y.worker) ==> 0 < y.taken && y.worker.job == y.taken - 1)
    && (y.loop.Filing? ==> y.loop.job == |y.s.jobs| - 1)
    && y.s.queue == Works(y.taken, PutSoFar(y)) + (if y.loop.Closed? && !y.s.drained then [Sentinel] else [])
    && (y.s.drained <==> y.worker.Exited?)
    && (y.s.drained ==> y.loop.Closed? && y.taken == |y.s.jobs|)
    && (y.s.shutdownCalled <==> y.loop.Closing? || y.loop.Closed?)
  }

  ghost predicate Phases(y: System) {
    && (forall i :: 0 <= i < |y.s.jobs| ==> (y.s.jobs[i].phase.Queued? <==> Unstarted(y) <= i))
    && (Busy(y.worker) && 0 <= y.worker.job < |y.s.jobs| ==>
          match y.worker
          case Connecting(id) => y.s.jobs[id].phase.Running?
          case Checking(id, _) => y.s.jobs[id].phase.Running?
          case Doing(id, _) => y.s.jobs[id].phase.Running?
          case Marking(id) => y.s.jobs[id].phase.Running?
          case Beginning(id) => y.s.jobs[id].phase.Committing?
          case Storing(id) => y.s.jobs[id].phase.Committing? && id in y.began
          case Replying(id, v) => (v.Success? ==> id in y.began) && (v.Stopped? ==> y.s.jobs[id].cancelled)
          case _ => true)
  }

  ghost predicate Table(y: System) {
    && (forall i {:trigger y.s.jobs[i]} :: 0 <= i < |y.s.jobs| && Gone(y) <= i ==>
          y.s.jobs[i].owner in y.s.inFlight && y.s.inFlight[y.s.jobs[i].owner] == Filed(i))
    && (forall u :: u in y.s.inFlight ==>
          match y.s.inFlight[u]
          case Held => y.loop == Holding(u)
          case Filed(j) => Gone(y) <= j < |y.s.jobs| && y.s.jobs[j].owner == u)
    && (y.loop.Holding? ==> y.loop.user in y.s.inFlight && y.s.inFlight[y.loop.user] == Held)
  }

  ghost predicate Tokens(y: System) {
    && y.s.tokens == |y.s.jobs| - Unstarted(y) + (if y.loop.Holding? then 1 else 0)
    && y.s.tokens <= INGEST_QUEUE_MAX
  }

  ghost predicate Flags(y: System) {
    && (forall i :: i in y.began + y.fetched ==> i < |y.s.jobs|)
    && (forall i :: 0 <= i < |y.s.jobs| ==>
          && (y.s.jobs[i].cancelled <==> i in y.acked + y.interrupted)
          && (y.s.jobs[i].phase.Committing? ==> !y.s.jobs[i].cancelled)
          && (i in y.began ==> y.s.jobs[i].phase.Committing?)
          && (i in y.fetched ==> !y.s.jobs[i].phase.Queued?)
          && (y.s.jobs[i].reason.ByShutdown? <==> i in y.interrupted)
          && (y.s.jobs[i].reason.NoReason? <==> !y.s.jobs[i].cancelled)
          && (y.s.shutdownCalled && Gone(y) <= i ==> y.s.jobs[i].cancelled || y.s.jobs[i].phase.Committing?))
    && (forall i :: i in y.acked + y.interrupted ==> i < |y.s.jobs|)
    && (!y.s.shutdownCalled ==> y.interrupted == {})
    && y.ackedQueued <= y.acked
    && y.ackedQueued !! y.fetched
  }

  // A download that stopped early is only ever followed by a failing check.
  ghost predicate NoMissingData(y: System) {
    && (y.worker.Checking? && y.worker.next == Extract(false) && y.worker.job < |y.s.jobs| ==>
          y.s.jobs[y.worker.job].cancelled || y.s.jobs[y.worker.job].spent)
    && (y.worker.Doing? ==> !y.worker.stage.Mark? && y.worker.stage != Extract(false))
  }

  ghost predicate Endings(y: System) {
    && |y.endings| == (if y.worker.Popping? then y.taken else Gone(y))
    && (forall k :: 0 <= k < |y.endings| ==>
          && y.endings[k].0 == k
          && (y.endings[k].1.Stored? ==> k in y.began)
          && (y.endings[k].1.CancelledByUser? ==> k in y.acked)
          && (y.endings[k].1.Interrupted? ==> k in y.interrupted))
  }

  ghost predicate Inv(y: System) {
    && Shape(y) && Phases(y) && Table(y) && Tokens(y) && Flags(y) && NoMissingData(y) && Endings(y)
  }

  // -- Every step keeps it ----------------------------------------------------

  // Cancelling, flagging and the clock touch neither thread's bookkeeping.
  lemma OnlyFlagsChange(y: System, z: System)
    requires Inv(y) && |z.s.jobs| == |y.s.jobs|
    requires z.s == y.s.(jobs := z.s.jobs, shutdownCalled := z.s.shutdownCalled)
    requires z.worker == y.worker && z.taken == y.taken && z.endings == y.endings && z.began == y.began
    requires z.loop == y.loop || (y.loop.Free? && z.loop.Closing?)
    requires z.s.shutdownCalled <==> z.loop.Closing? || z.loop.Closed?
    requires y.acked <= z.acked && y.interrupted <= z.interrupted
    requires forall i :: 0 <= i < |y.s.jobs| ==>
               && z.s.jobs[i].owner == y.s.jobs[i].owner && z.s.jobs[i].phase == y.s.jobs[i].phase
               && (y.s.jobs[i].cancelled ==> z.s.jobs[i].cancelled) && (y.s.jobs[i].spent ==> z.s.jobs[i].spent)
    ensures Shape(z) && Phases(z) && Table(z) && Tokens(z) && NoMissingData(z) && Endings(z)
  {
    assert PutSoFar(z) == PutSoFar(y) && Gone(z) == Gone(y) && Unstarted(z) == Unstarted(y);
  }

  lemma ReserveKeeps(y: System, user: int)
    requires Inv(y) && Enabled(y, LReserve(user))
    ensures Inv(Next(y, LReserve(user)))
  {
    var z := Next(y, LReserve(user));
    assert Works(z.taken, PutSoFar(z)) == Works(y.taken, PutSoFar(y));
  }

  lemma ReleaseKeeps(y: System)
    requires Inv(y) && Enabled(y, LRelease)
    ensures Inv(Next(y, LRelease))
  {
    var z := Next(y, LRelease);
    assert Works(z.taken, PutSoFar(z)) == Works(y.taken, PutSoFar(y));
  }

  lemma FileKeeps(y: System)
    requires Inv(y) && Enabled(y, LFile)
    ensures Inv(Next(y, LFile))
  {
    var z := Next(y, LFile);
    assert PutSoFar(z) == PutSoFar(y);
    assert forall i :: 0 <= i < |y.s.jobs| ==> z.s.jobs[i] == y.s.jobs[i];
  }

  lemma PutKeeps(y: System)
    requires Inv(y) && Enabled(y, LPut)
    ensures Inv(Next(y, LPut)) && Roomy(y.s)
  {
    var z := Next(y, LPut);
    assert z.s.queue == Works(y.taken, PutSoFar(z));
  }

  lemma CancelKeeps(y: System, user: int)
    requires Inv(y) && Enabled(y, LCancel(user))
    ensures Inv(Next(y, LCancel(user)))
  {
    var z := Next(y, LCancel(user));
    OnlyFlagsChange(y, z);
    assert Flags(z);
  }

  // What shutdown's lock section does to each job.
  lemma ShutdownEffect(y: System, i: nat)
    requires Inv(y) && Enabled(y, LShutdown) && i < |y.s.jobs|
    ensures var z := Next(y, LShutdown);
            && |z.s.jobs| == |y.s.jobs|
            && (i in z.interrupted <==> Interruptible(y.s, i))
            && (Gone(y) <= i ==> (Interruptible(y.s, i) <==> !y.s.jobs[i].phase.Committing?))
            && z.s.jobs[i] == (if Interruptible(y.s, i) then Flagged(y.s.jobs[i], ByShutdown) else y.s.jobs[i])
  {
    if Gone(y) <= i {
      assert y.s.inFlight[y.s.jobs[i].owner] == Filed(i);
      assert Filed(i) in y.s.inFlight.Values;
    }
  }

  lemma ShutdownKeeps(y: System)
    requires Inv(y) && Enabled(y, LShutdown)
    ensures Inv(Next(y, LShutdown))
  {
    var z := Next(y, LShutdown);
    forall i: nat | i < |y.s.jobs|
      ensures && (i in z.interrupted <==> Interruptible(y.s, i))
              && (Gone(y) <= i ==> (Interruptible(y.s, i) <==> !y.s.jobs[i].phase.Committing?))
              && z.s.jobs[i] == (if Interruptible(y.s, i) then Flagged(y.s.jobs[i], ByShutdown) else y.s.jobs[i])
    {
      ShutdownEffect(y, i);
    }
    assert z.acked == y.acked && forall i :: i in z.interrupted ==> i < |y.s.jobs|;
    OnlyFlagsChange(y, z);
    assert Flags(z);
  }

  lemma SentinelKeeps(y: System)
    requires Inv(y) && Enabled(y, LSentinel)
    ensures Inv(Next(y, LSentinel)) && Roomy(y.s)
  {
  }

  lemma TakeKeeps(y: System)
    requires Inv(y) && Enabled(y, WTake)
    ensures Inv(Next(y, WTake))
  {
    var z := Next(y, WTake);
    if y.taken < PutSoFar(y) {
      assert y.s.queue[0] == Work(y.taken);
      assert y.s.queue[1..] == Works(z.taken, PutSoFar(z)) + (if z.loop.Closed? && !z.s.drained then [Sentinel] else []);
    }
  }

  lemma StartKeeps(y: System)
    requires Inv(y) && Enabled(y, WStart)
    ensures Inv(Next(y, WStart))
  {
    var z := Next(y, WStart);
    assert PutSoFar(z) == PutSoFar(y);
  }

  lemma ConnectKeeps(y: System, ok: bool)
    requires Inv(y) && Enabled(y, WConnect(ok))
    ensures Inv(Next(y, WConnect(ok)))
  {
    var z := Next(y, WConnect(ok));
    assert PutSoFar(z) == PutSoFar(y);
  }

  lemma CheckKeeps(y: System)
    requires Inv(y) && Enabled(y, WCheck)
    ensures Inv(Next(y, WCheck))
  {
    var z := Next(y, WCheck);
    assert PutSoFar(z) == PutSoFar(y);
  }

  lemma WorkKeeps(y: System, result: Result)
    requires Inv(y) && Enabled(y, WWork(result))
    ensures Inv(Next(y, WWork(result)))
  {
    var z := Next(y, WWork(result));
    assert PutSoFar(z) == PutSoFar(y);
  }

  lemma MarkKeeps(y: System)
    requires Inv(y) && Enabled(y, WMark)
    ensures Inv(Next(y, WMark))
  {
    var z := Next(y, WMark);
    assert PutSoFar(z) == PutSoFar(y);
  }

  lemma BeginKeeps(y: System, ok: bool)
    requires Inv(y) && Enabled(y, WBegin(ok))
    ensures Inv(Next(y, WBegin(ok)))
  {
    var z := Next(y, WBegin(ok));
    assert PutSoFar(z) == PutSoFar(y);
  }

  lemma CommitKeeps(y: System, ok: bool)
    requires Inv(y) && Enabled(y, WCommit(ok))
    ensures Inv(Next(y, WCommit(ok)))
  {
    var z := Next(y, WCommit(ok));
    assert PutSoFar(z) == PutSoFar(y);
  }

  lemma ReplyKeeps(y: System)
    requires Inv(y) && Enabled(y, WReply)
    ensures Inv(Next(y, WReply))
  {
    var z := Next(y, WReply);
    assert PutSoFar(z) == PutSoFar(y);
  }

  lemma PopKeeps(y: System)
    requires Inv(y) && Enabled(y, WPop)
    ensures Inv(Next(y, WPop))
  {
    var z := Next(y, WPop);
    var id := y.worker.job;
    forall i | 0 <= i < |y.s.jobs| && Gone(z) <= i
      ensures y.s.jobs[i].owner in z.s.inFlight && z.s.inFlight[y.s.jobs[i].owner] == Filed(i)
    {
      assert y.s.inFlight[y.s.jobs[i].owner] == Filed(i);
    }
  }

  lemma TickKeeps(y: System, id: nat)
    requires Inv(y) && Enabled(y, Tick(id))
    ensures Inv(Next(y, Tick(id)))
  {
    OnlyFlagsChange(y, Next(y, Tick(id)));
  }

  lemma StepKeeps(y: System, a: Action)
    requires Inv(y) && Enabled(y, a)
    ensures Inv(Next(y, a))
  {
    match a
    case LReserve(u) => ReserveKeeps(y, u);
    case LRelease => ReleaseKeeps(y);
    case LFile => FileKeeps(y);
    case LPut => PutKeeps(y);
    case LCancel(u) => CancelKeeps(y, u);
    case LShutdown => ShutdownKeeps(y);
    case LSentinel => SentinelKeeps(y);
    case Tick(id) => TickKeeps(y, id);
    case WTake => TakeKeeps(y);
    case WPop => PopKeeps(y);
    case WStart => StartKeeps(y);
    case WConnect(ok) => ConnectKeeps(y, ok);
    case WCheck => CheckKeeps(y);
    case WWork(r) => WorkKeeps(y, r);
    case WMark => MarkKeeps(y);
    case WBegin(ok) => BeginKeeps(y, ok);
    case WCommit(ok) => CommitKeeps(y, ok);
    case WReply => ReplyKeeps(y);
  }

  lemma {:induction false} RunKeeps(y: System, acts: seq<Action>, z: System)
    requires Inv(y) && Runs(y, acts, z)
    ensures Inv(z)
    decreases |acts|
  {
    if acts != [] {
      StepKeeps(y, acts[0]);
      RunKeeps(Next(y, acts[0]), acts[1..], z);
    }
  }

  lemma ReachableInv(y: System)
    requires Reachable(y)
    ensures Inv(y)
  {
    var acts :| Runs(Init, acts, y);
    RunKeeps(Init, acts, y);
  }
}

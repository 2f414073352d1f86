// The ingest worker of bot.py: two threads, one lock, four capacity tokens, a
// five-slot FIFO and a job phase machine.  This module holds the specification:
// every lock section, put_nowait, get and checkpoint is one atomic function on
// the shared state, and the two threads interleave freely.

module IngestProtocol {

  const INGEST_QUEUE_MAX: nat := 4
  const QUEUE_SLOTS: nat := INGEST_QUEUE_MAX + 1

  datatype Phase = Queued | Running | Committing

  datatype Reason = NoReason | ByUser | ByShutdown

  // `spent` is the clock's doing: once the 1800 s budget is gone it stays gone.
  datatype Job = Job(owner: int, phase: Phase, cancelled: bool, reason: Reason, spent: bool)

  // What `_in_flight` maps a user to: a bare reservation, or an admitted job.
  datatype Entry = Held | Filed(job: nat)

  datatype Item = Work(job: nat) | Sentinel

  // Everything both threads touch.  Jobs are named by their admission number.
  datatype Shared = Shared(
    jobs: seq<Job>,
    inFlight: map<int, Entry>,
    tokens: int,
    queue: seq<Item>,
    shutdownCalled: bool,
    drained: bool)

  datatype Admission = Granted | InFlight | Full

  datatype Answer = Nothing | Cancelling | Finishing

  // -- The lock sections ------------------------------------------------------

  function Admit(s: Shared, user: int): Admission {
    if user in s.inFlight then InFlight
    else if s.tokens >= INGEST_QUEUE_MAX then Full
    else Granted
  }

  function Reserve(s: Shared, user: int): Shared {
    if Admit(s, user).Granted? then
      s.(tokens := s.tokens + 1, inFlight := s.inFlight[user := Held])
    else s
  }

  function Release(s: Shared, user: int): Shared {
    s.(tokens := s.tokens - 1, inFlight := s.inFlight - {user})
  }

  // enqueue's lock section: the reservation becomes a job.
  function File(s: Shared, user: int): Shared {
    s.(jobs := s.jobs + [Job(user, Queued, false, NoReason, false)],
       inFlight := s.inFlight[user := Filed(|s.jobs|)])
  }

  // put_nowait raises queue.Full when every slot is taken.
  predicate Roomy(s: Shared) {
    |s.queue| < QUEUE_SLOTS
  }

  function Put(s: Shared, item: Item): Shared {
    if Roomy(s) then s.(queue := s.queue + [item]) else s
  }

  function Flagged(j: Job, reason: Reason): Job {
    j.(cancelled := true, reason := reason)
  }

  // cancel: None, True or False.
  function CancelAnswer(s: Shared, user: int): Answer
    requires WellNamed(s)
  {
    if user !in s.inFlight || s.inFlight[user].Held? then Nothing
    else if s.jobs[s.inFlight[user].job].phase.Committing? then Finishing
    else Cancelling
  }

  function Cancel(s: Shared, user: int): Shared
    requires WellNamed(s)
  {
    if CancelAnswer(s, user).Cancelling? then
      var id := s.inFlight[user].job;
      s.(jobs := s.jobs[id := Flagged(s.jobs[id], ByUser)])
    else s
  }

  function Take(s: Shared): Shared
    requires s.queue != []
  {
    s.(queue := s.queue[1..], drained := s.drained || s.queue[0].Sentinel?)
  }

  function Start(s: Shared, id: nat): Shared
    requires id < |s.jobs|
  {
    s.(jobs := s.jobs[id := s.jobs[id].(phase := Running)], tokens := s.tokens - 1)
  }

  function MarkCommitting(s: Shared, id: nat): Shared
    requires id < |s.jobs|
  {
    if s.jobs[id].cancelled then s
    else s.(jobs := s.jobs[id := s.jobs[id].(phase := Committing)])
  }

  function Pop(s: Shared, id: nat): Shared
    requires id < |s.jobs|
  {
    s.(inFlight := s.inFlight - {s.jobs[id].owner})
  }

  // shutdown's lock section visits the jobs in flight that are not committing.
  predicate Interruptible(s: Shared, id: nat)
    requires id < |s.jobs|
  {
    Filed(id) in s.inFlight.Values && !s.jobs[id].phase.Committing?
  }

  function InterruptibleJobs(s: Shared): set<nat> {
    set i: nat | i < |s.jobs| && Interruptible(s, i)
  }

  function ShutdownFlag(s: Shared): Shared {
    if s.shutdownCalled then s
    else s.(shutdownCalled := true,
            jobs := seq(|s.jobs|, i requires 0 <= i < |s.jobs| =>
                          if Interruptible(s, i) then Flagged(s.jobs[i], ByShutdown) else s.jobs[i]))
  }

  // Every job `_in_flight` names exists.
  predicate WellNamed(s: Shared) {
    forall u :: u in s.inFlight && s.inFlight[u].Filed? ==> s.inFlight[u].job < |s.jobs|
  }

  // -- The two threads --------------------------------------------------------

  // The loop thread: `_handle_document` holds a reservation while the status
  // message is sent; `enqueue` files the job and then puts it; `main` calls
  // `shutdown` (flag, then sentinel) once the poll loop has returned.
  datatype LoopPc = Free | Holding(user: int) | Filing(job: nat) | Closing | Closed

  // What the worker is about to do to a job; a checkpoint precedes each one.
  // `hasData` is false when download_file stopped early and returned None.
  datatype Stage = GetFile | Download | Extract(hasData: bool) | Chunk | Embed | Mark

  datatype Verdict = Success | Stopped | Broken

  // The ending the user sees.
  datatype Outcome = Stored | CancelledByUser | Interrupted | Failed

  datatype WorkerPc =
    | Ready
    | Fetched(job: nat)
    | Connecting(job: nat)
    | Checking(job: nat, next: Stage)
    | Doing(job: nat, stage: Stage)
    | Marking(job: nat)
    | Beginning(job: nat)
    | Storing(job: nat)
    | Replying(job: nat, verdict: Verdict)
    | Popping(job: nat)
    | Exited

  // How a call to Telegram, a parser or the embedder came back.
  datatype Result = Raised | Cut | More | Done

  // `taken` counts the jobs dequeued so far.  The last six fields are history:
  // what `cancel` and `shutdown` promised, which jobs touched Telegram's file
  // API or the database, and the endings sent, in order.
  datatype System = System(
    s: Shared,
    loop: LoopPc,
    worker: WorkerPc,
    taken: nat,
    acked: set<nat>,
    ackedQueued: set<nat>,
    interrupted: set<nat>,
    fetched: set<nat>,
    began: set<nat>,
    endings: seq<(nat, Outcome)>)

  datatype Action =
    | LReserve(user: int) | LRelease | LFile | LPut | LCancel(user: int) | LShutdown | LSentinel
    | Tick(job: nat)
    | WTake | WStart | WConnect(ok: bool) | WCheck | WWork(result: Result)
    | WMark | WBegin(ok: bool) | WCommit(ok: bool) | WReply | WPop

  const Init: System :=
    System(Shared([], map[], 0, [], false, false), Free, Ready, 0, {}, {}, {}, {}, {}, [])

  predicate Busy(w: WorkerPc) {
    !w.Ready? && !w.Exited?
  }

  // A result a stage can produce: only the download is ever cut short (and only
  // when should_stop is true); only extraction and embedding repeat.
  predicate Possible(j: Job, stage: Stage, r: Result) {
    match r
    case Raised => true
    case Cut => stage.Download? && (j.cancelled || j.spent)
    case More => stage.Extract? || stage.Embed?
    case Done => true
  }

  predicate Enabled(y: System, a: Action) {
    var w := y.worker;
    match a
    case LReserve(_) => y.loop.Free?
    case LRelease => y.loop.Holding?
    case LFile => y.loop.Holding?
    case LPut => y.loop.Filing?
    case LCancel(_) => y.loop.Free? && WellNamed(y.s)
    case LShutdown => y.loop.Free?
    case LSentinel => y.loop.Closing?
    case Tick(id) => id < |y.s.jobs|
    case WTake => w.Ready? && y.s.queue != []
    case WStart => w.Fetched? && w.job < |y.s.jobs|
    case WConnect(_) => w.Connecting?
    case WCheck => w.Checking? && w.job < |y.s.jobs|
    case WWork(r) => w.Doing? && w.job < |y.s.jobs| && !w.stage.Mark? && Possible(y.s.jobs[w.job], w.stage, r)
    case WMark => w.Marking? && w.job < |y.s.jobs|
    case WBegin(_) => w.Beginning?
    case WCommit(_) => w.Storing?
    case WReply => w.Replying? && w.job < |y.s.jobs|
    case WPop => w.Popping? && w.job < |y.s.jobs|
  }

  // `_check_cancel_budget` / `_check_budget`: cancel is tested before the budget.
  function AfterCheck(j: Job, id: nat, next: Stage): WorkerPc {
    if j.cancelled then Replying(id, Stopped)
    else if j.spent then Replying(id, Broken)
    else if next.Mark? then Marking(id)
    else Doing(id, next)
  }

  function AfterWork(id: nat, stage: Stage, r: Result): WorkerPc
    requires !stage.Mark?
  {
    if r.Raised? then Replying(id, Broken)
    else if r.More? then Checking(id, stage)
    else match stage
      case GetFile => Checking(id, Download)
      case Download => Checking(id, Extract(!r.Cut?))
      case Extract(_) => Checking(id, Chunk)
      case Chunk => Checking(id, Embed)
      case Embed => Checking(id, Mark)
  }

  // `_cancel_ending_reply` reads the reason when the ending is sent.
  function OutcomeOf(v: Verdict, j: Job): Outcome {
    match v
    case Success => Stored
    case Broken => Failed
    case Stopped => if j.reason.ByShutdown? then Interrupted else CancelledByUser
  }

  function Next(y: System, a: Action): System
    requires Enabled(y, a)
  {
    var s := y.s;
    var w := y.worker;
    match a
    case LReserve(u) =>
      y.(s := Reserve(s, u), loop := if Admit(s, u).Granted? then Holding(u) else Free)
    case LRelease => y.(s := Release(s, y.loop.user), loop := Free)
    case LFile => y.(s := File(s, y.loop.user), loop := Filing(|s.jobs|))
    case LPut => y.(s := Put(s, Work(y.loop.job)), loop := Free)
    case LCancel(u) =>
      if CancelAnswer(s, u).Cancelling? then
        var id := s.inFlight[u].job;
        y.(s := Cancel(s, u),
           acked := y.acked + {id},
           ackedQueued := if s.jobs[id].phase.Queued? then y.ackedQueued + {id} else y.ackedQueued)
      else y
    case LShutdown =>
      y.(s := ShutdownFlag(s), loop := Closing,
         interrupted := if s.shutdownCalled then y.interrupted else y.interrupted + InterruptibleJobs(s))
    case LSentinel => y.(s := Put(s, Sentinel), loop := Closed)
    case Tick(id) => y.(s := s.(jobs := s.jobs[id := s.jobs[id].(spent := true)]))
    case WTake =>
      y.(s := Take(s),
         worker := if s.queue[0].Sentinel? then Exited else Fetched(s.queue[0].job),
         taken := if s.queue[0].Sentinel? then y.taken else y.taken + 1)
    case WStart => y.(s := Start(s, w.job), worker := Connecting(w.job))
    case WConnect(ok) =>
      y.(worker := if ok then Checking(w.job, GetFile) else Replying(w.job, Broken))
    case WCheck =>
      var after := AfterCheck(s.jobs[w.job], w.job, w.next);
      y.(worker := after,
         fetched := if after.Doing? && (w.next.GetFile? || w.next.Download?) then y.fetched + {w.job} else y.fetched)
    case WWork(r) => y.(worker := AfterWork(w.job, w.stage, r))
    case WMark =>
      y.(s := MarkCommitting(s, w.job),
         worker := if s.jobs[w.job].cancelled then Replying(w.job, Stopped) else Beginning(w.job))
    case WBegin(ok) =>
      y.(worker := if ok then Storing(w.job) else Replying(w.job, Broken), began := y.began + {w.job})
    case WCommit(ok) => y.(worker := Replying(w.job, if ok then Success else Broken))
    case WReply =>
      y.(worker := Popping(w.job), endings := y.endings + [(w.job, OutcomeOf(w.verdict, s.jobs[w.job]))])
    case WPop => y.(s := Pop(s, w.job), worker := Ready)
  }

  // -- Runs -------------------------------------------------------------------

  ghost predicate Runs(y: System, acts: seq<Action>, z: System)
    decreases |acts|
  {
    if acts == [] then y == z
    else Enabled(y, acts[0]) && Runs(Next(y, acts[0]), acts[1..], z)
  }

  ghost predicate Reachable(y: System) {
    exists acts :: Runs(Init, acts, y)
  }
}

// The ingest worker as the object bot.py makes it: fields updated in place, one
// method per atomic section, each proved to be the matching function of
// IngestProtocol on the abstract state.

module IngestWorkers {
  import P = IngestProtocol

  // One admitted upload.  `number` is its place in the admission order and
  // `spent` says whether the clock has passed the budget.
  class IngestJob {
    const owner: int
    ghost const number: nat
    var phase: P.Phase
    var cancelled: bool
    var reason: P.Reason
    ghost var spent: bool

    constructor (owner: int, ghost number: nat)
      ensures this.number == number && View() == P.Job(owner, P.Queued, false, P.NoReason, false)
    {
      this.owner := owner;
      this.number := number;
      phase := P.Queued;
      cancelled := false;
      reason := P.NoReason;
      spent := false;
    }

    ghost function View(): P.Job
      reads this
    {
      P.Job(owner, phase, cancelled, reason, spent)
    }
  }

  datatype Slot = Reserved | Admitted(job: IngestJob)

  datatype Ticket = Task(job: IngestJob) | Stop

  lemma HasMember(users: set<int>)
    requires users != {}
    ensures exists u :: u in users
  {
    assert (forall u :: u !in users) ==> users == {};
  }

  lemma HasKey(table: map<int, P.Entry>, entry: P.Entry)
    requires entry in table.Values
    ensures exists u :: u in table && table[u] == entry
  {
    assert (forall u :: u in table ==> table[u] != entry) ==> entry !in table.Values;
  }

  class IngestWorker {
    var inFlight: map<int, Slot>
    var tokens: int
    var queue: seq<Ticket>
    var shutdownCalled: bool
    var drained: bool
    ghost var jobs: seq<IngestJob>

    ghost predicate Known(job: IngestJob)
      reads this
    {
      job.number < |jobs| && jobs[job.number] == job
    }

    ghost predicate Valid()
      reads this
    {
      && (forall i :: 0 <= i < |jobs| ==> jobs[i].number == i)
      && (forall u :: u in inFlight && inFlight[u].Admitted? ==> Known(inFlight[u].job))
      && (forall i :: 0 <= i < |queue| && queue[i].Task? ==> Known(queue[i].job))
    }

    ghost function EntryOf(slot: Slot): P.Entry {
      match slot
      case Reserved => P.Held
      case Admitted(job) => P.Filed(job.number)
    }

    ghost function ItemOf(ticket: Ticket): P.Item {
      match ticket
      case Task(job) => P.Work(job.number)
      case Stop => P.Sentinel
    }

    ghost function View(): P.Shared
      reads this, jobs
    {
      P.Shared(
        seq(|jobs|, i requires 0 <= i < |jobs| reads this, jobs => jobs[i].View()),
        map u | u in inFlight :: EntryOf(inFlight[u]),
        tokens,
        seq(|queue|, i requires 0 <= i < |queue| reads this => ItemOf(queue[i])),
        shutdownCalled,
        drained)
    }

    constructor ()
      ensures Valid() && View() == P.Init.s
    {
      inFlight := map[];
      tokens := 0;
      queue := [];
      shutdownCalled := false;
      drained := false;
      jobs := [];
    }

    method Reserve(user: int) returns (admission: P.Admission)
      requires Valid()
      modifies this
      ensures Valid() && jobs == old(jobs)
      ensures admission == P.Admit(old(View()), user)
      ensures View() == P.Reserve(old(View()), user)
    {
      if user in inFlight {
        return P.InFlight;
      }
      if tokens >= P.INGEST_QUEUE_MAX {
        return P.Full;
      }
      tokens := tokens + 1;
      inFlight := inFlight[user := Reserved];
      admission := P.Granted;
    }

    // enqueue, first half: the lock section.
    method FileJob(user: int) returns (job: IngestJob)
      requires Valid()
      modifies this
      ensures Valid() && fresh(job) && jobs == old(jobs) + [job]
      ensures View() == P.File(old(View()), user)
    {
      job := new IngestJob(user, |jobs|);
      jobs := jobs + [job];
      inFlight := inFlight[user := Admitted(job)];
    }

    // enqueue and shutdown, second half: put_nowait.
    method PutNowait(ticket: Ticket) returns (ok: bool)
      requires Valid() && (ticket.Task? ==> Known(ticket.job))
      modifies this
      ensures Valid() && jobs == old(jobs)
      ensures ok == P.Roomy(old(View()))
      ensures View() == P.Put(old(View()), ItemOf(ticket))
    {
      if |queue| >= P.QUEUE_SLOTS {
        return false;
      }
      queue := queue + [ticket];
      ok := true;
    }

    method Release(user: int)
      requires Valid()
      modifies this
      ensures Valid() && jobs == old(jobs)
      ensures View() == P.Release(old(View()), user)
    {
      inFlight := inFlight - {user};
      tokens := tokens - 1;
    }

    method Cancel(user: int) returns (answer: P.Answer)
      requires Valid()
      modifies this, jobs
      ensures Valid() && jobs == old(jobs)
      ensures P.WellNamed(old(View())) && answer == P.CancelAnswer(old(View()), user)
      ensures View() == P.Cancel(old(View()), user)
    {
      if user !in inFlight || inFlight[user].Reserved? {
        return P.Nothing;
      }
      var job := inFlight[user].job;
      if job.phase.Committing? {
        return P.Finishing;
      }
      ghost var was := View();
      job.reason := P.ByUser;
      job.cancelled := true;
      answer := P.Cancelling;
      assert View().jobs == P.Cancel(was, user).jobs;
    }

    // queue.get blocks until there is an item.
    method Get() returns (ticket: Ticket)
      requires Valid() && queue != []
      modifies this
      ensures Valid() && jobs == old(jobs)
      ensures ItemOf(ticket) == old(View()).queue[0] && (ticket.Task? ==> Known(ticket.job))
      ensures View() == P.Take(old(View()))
    {
      ticket := queue[0];
      queue := queue[1..];
      if ticket.Stop? {
        drained := true;
      }
    }

    method StartJob(job: IngestJob)
      requires Valid() && Known(job)
      modifies this, job
      ensures Valid() && jobs == old(jobs)
      ensures View() == P.Start(old(View()), job.number)
    {
      ghost var was := View();
      job.phase := P.Running;
      tokens := tokens - 1;
      assert View().jobs == P.Start(was, job.number).jobs;
    }

    // Returns false where the source raises IndexCancelled.
    method MarkCommitting(job: IngestJob) returns (ok: bool)
      requires Valid() && Known(job)
      modifies job
      ensures Valid() && jobs == old(jobs)
      ensures ok == !old(job.cancelled)
      ensures View() == P.MarkCommitting(old(View()), job.number)
    {
      if job.cancelled {
        return false;
      }
      ghost var was := View();
      job.phase := P.Committing;
      ok := true;
      assert View().jobs == P.MarkCommitting(was, job.number).jobs;
    }

    method PopEntry(job: IngestJob)
      requires Valid() && Known(job)
      modifies this
      ensures Valid() && jobs == old(jobs)
      ensures View() == P.Pop(old(View()), job.number)
    {
      inFlight := inFlight - {job.owner};
    }

    // shutdown's lock section; `first` is false for the calls that do nothing.
    method ShutdownFlag() returns (first: bool)
      requires Valid()
      modifies this, jobs
      ensures Valid() && jobs == old(jobs)
      ensures first == !old(shutdownCalled)
      ensures View() == P.ShutdownFlag(old(View()))
    {
      if shutdownCalled {
        return false;
      }
      ghost var was := View();
      shutdownCalled := true;
      var users: set<int> := inFlight.Keys;
      ghost var seen: set<int> := {};
      while users != {}
        invariant users <= inFlight.Keys && seen == inFlight.Keys - users
        invariant Valid() && jobs == old(jobs) && inFlight == old(inFlight)
        invariant tokens == old(tokens) && queue == old(queue) && drained == old(drained) && shutdownCalled
        invariant forall i :: 0 <= i < |jobs| ==>
                    jobs[i].View() ==
                    if (exists u :: u in seen && inFlight[u] == Admitted(jobs[i])) && !was.jobs[i].phase.Committing?
                    then P.Flagged(was.jobs[i], P.ByShutdown) else was.jobs[i]
        decreases users
      {
        HasMember(users);
        var u :| u in users;
        var entry := inFlight[u];
        if entry.Admitted? && !entry.job.phase.Committing? {
          entry.job.reason := P.ByShutdown;
          entry.job.cancelled := true;
        }
        users := users - {u};
        seen := seen + {u};
      }
      first := true;
      forall i | 0 <= i < |jobs|
        ensures (P.Filed(i) in was.inFlight.Values) <==> exists u :: u in seen && inFlight[u] == Admitted(jobs[i])
      {
        if P.Filed(i) in was.inFlight.Values {
          HasKey(was.inFlight, P.Filed(i));
          var u :| u in was.inFlight && was.inFlight[u] == P.Filed(i);
          assert inFlight[u] == Admitted(jobs[i]);
        }
        if u :| u in seen && inFlight[u] == Admitted(jobs[i]) {
          assert was.inFlight[u] == P.Filed(i);
        }
      }
      assert View().jobs == P.ShutdownFlag(was).jobs;
    }
  }
}

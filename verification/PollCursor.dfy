// The polling loop and its persisted cursor, across crashes and restarts.

module PollCursor {
  import opened Common

  // An update, or an entry without a usable id.
  type Batch = seq<Option<int>>

  // Where the process stands: down, about to poll with an offset, at entry i of a
  // batch, or with entry i's cursor just written.
  datatype Pc =
    | Down
    | Polling(offset: Option<int>)
    | Handling(offset: Option<int>, batch: Batch, i: nat)
    | Persisted(offset: Option<int>, batch: Batch, i: nat)

  // `last` is durable; `dispatched` is every update whose handling has begun.
  datatype State = State(pc: Pc, last: Option<int>, dispatched: seq<int>)

  const BOOT: State := State(Down, None, [])

  // What the service returns for an offset: usable ids from it on, ascending.
  ghost predicate Ascending(batch: Batch, offset: Option<int>) {
    && (forall i :: 0 <= i < |batch| && batch[i].Some? && offset.Some? ==> batch[i].value >= offset.value)
    && (forall i, j :: 0 <= i < j < |batch| && batch[i].Some? && batch[j].Some? ==> batch[i].value < batch[j].value)
  }

  datatype Step = Start | Fetched(batch: Batch) | FetchFailed | Skip | Persist | Dispatch | BatchDone | Crash

  ghost predicate Enabled(s: State, step: Step) {
    match step
    case Start => s.pc.Down?
    case Fetched(batch) => s.pc.Polling? && Ascending(batch, s.pc.offset)
    case FetchFailed => s.pc.Polling?
    case Skip => s.pc.Handling? && s.pc.i < |s.pc.batch| && s.pc.batch[s.pc.i].None?
    case Persist => s.pc.Handling? && s.pc.i < |s.pc.batch| && s.pc.batch[s.pc.i].Some?
    case Dispatch => s.pc.Persisted? && s.pc.i < |s.pc.batch| && s.pc.batch[s.pc.i].Some?
    case BatchDone => s.pc.Handling? && s.pc.i == |s.pc.batch|
    case Crash => true
  }

  function OffsetAfter(last: Option<int>): Option<int> {
    if last.Some? then Some(last.value + 1) else None
  }

  ghost function Apply(s: State, step: Step): State
    requires Enabled(s, step)
  {
    match step
    case Start => s.(pc := Polling(OffsetAfter(s.last)))
    case Fetched(batch) => s.(pc := Handling(s.pc.offset, batch, 0))
    case FetchFailed => s
    case Skip => s.(pc := Handling(s.pc.offset, s.pc.batch, s.pc.i + 1))
    case Persist => s.(pc := Persisted(s.pc.offset, s.pc.batch, s.pc.i), last := s.pc.batch[s.pc.i])
    case Dispatch =>
      var id := s.pc.batch[s.pc.i].value;
      s.(pc := Handling(Some(id + 1), s.pc.batch, s.pc.i + 1), dispatched := s.dispatched + [id])
    case BatchDone => s.(pc := Polling(s.pc.offset))
    case Crash => s.(pc := Down)
  }

  ghost predicate Runs(s: State, steps: seq<Step>, t: State)
    decreases |steps|
  {
    if steps == [] then s == t else Enabled(s, steps[0]) && Runs(Apply(s, steps[0]), steps[1..], t)
  }

  ghost predicate Increasing(ids: seq<int>) {
    forall i, j :: 0 <= i < j < |ids| ==> ids[i] < ids[j]
  }

  ghost predicate Below(ids: seq<int>, bound: int) {
    forall i :: 0 <= i < |ids| ==> ids[i] < bound
  }

  // Everything dispatched lies at or below the durable cursor.
  ghost predicate Covered(s: State) {
    s.dispatched != [] ==> s.last.Some? && Below(s.dispatched, s.last.value + 1)
  }

  ghost predicate RestAbove(batch: Batch, i: nat, last: Option<int>) {
    forall j :: i <= j < |batch| && batch[j].Some? && last.Some? ==> batch[j].value > last.value
  }

  ghost predicate Inv(s: State) {
    && Increasing(s.dispatched) && Covered(s)
    && match s.pc
       case Down => true
       case Polling(offset) => offset == OffsetAfter(s.last)
       case Handling(offset, batch, i) =>
         && i <= |batch| && Ascending(batch, None) && offset == OffsetAfter(s.last) && RestAbove(batch, i, s.last)
       case Persisted(offset, batch, i) =>
         && i < |batch| && batch[i].Some? && Ascending(batch, None)
         && s.last == batch[i] && Below(s.dispatched, s.last.value)
  }

  lemma StepKeeps(s: State, step: Step)
    requires Inv(s) && Enabled(s, step)
    ensures Inv(Apply(s, step))
    ensures s.dispatched <= Apply(s, step).dispatched
  {
  }

  lemma {:induction false} RunKeeps(s: State, steps: seq<Step>, t: State)
    requires Inv(s) && Runs(s, steps, t)
    ensures Inv(t) && s.dispatched <= t.dispatched
    decreases |steps|
  {
    if steps != [] {
      StepKeeps(s, steps[0]);
      RunKeeps(Apply(s, steps[0]), steps[1..], t);
    }
  }

  // Whatever crashes and restarts happen: ids are dispatched in increasing order,
  // so none twice, and the durable cursor has reached every one of them.
  lemma AtMostOnce(steps: seq<Step>, t: State, i: nat, j: nat)
    requires Runs(BOOT, steps, t) && i < |t.dispatched| && j < |t.dispatched|
    ensures t.dispatched[i] == t.dispatched[j] <==> i == j
    ensures i < j ==> t.dispatched[i] < t.dispatched[j]
    ensures t.last.Some? && t.dispatched[i] <= t.last.value
  {
    RunKeeps(BOOT, steps, t);
  }

  // The price of at-most-once: a crash between the cursor write and the dispatch
  // loses that update for good.
  lemma CrashLosesAnUpdate(id: int, steps: seq<Step>, t: State)
    requires Runs(State(Down, Some(id), []), steps, t)
    ensures id !in t.dispatched
    ensures Runs(BOOT, [Start, Fetched([Some(id)]), Persist, Crash], State(Down, Some(id), []))
  {
    OnlyLater(id, State(Down, Some(id), []), steps, t);
    var a := Apply(BOOT, Start);
    var b := Apply(a, Fetched([Some(id)]));
    var c := Apply(b, Persist);
    assert Runs(c, [Crash], State(Down, Some(id), [])) by {
      assert [Crash][1..] == [];
    }
    assert [Persist, Crash][1..] == [Crash];
    assert [Fetched([Some(id)]), Persist, Crash][1..] == [Persist, Crash];
    assert [Start, Fetched([Some(id)]), Persist, Crash][1..] == [Fetched([Some(id)]), Persist, Crash];
  }

  ghost predicate Past(id: int, s: State) {
    && s.last.Some? && s.last.value >= id && id !in s.dispatched
    && (s.pc.Persisted? ==> s.last.value > id)
  }

  lemma {:induction false} OnlyLater(id: int, s: State, steps: seq<Step>, t: State)
    requires Inv(s) && Past(id, s) && Runs(s, steps, t)
    ensures id !in t.dispatched
    decreases |steps|
  {
    if steps != [] {
      StepKeeps(s, steps[0]);
      OnlyLater(id, Apply(s, steps[0]), steps[1..], t);
    }
  }

  // -- Nothing is skipped ---------------------------------------------------------------

  // The usable ids of the first n entries of a batch, in order.
  function IdsTo(batch: Batch, n: nat): seq<int>
    requires n <= |batch|
  {
    if n == 0 then [] else IdsTo(batch, n - 1) + if batch[n - 1].Some? then [batch[n - 1].value] else []
  }

  function Ids(batch: Batch): seq<int> {
    IdsTo(batch, |batch|)
  }

  // Those from entry i on.
  function IdsFrom(batch: Batch, i: nat): seq<int>
    requires i <= |batch|
    decreases |batch| - i
  {
    if i == |batch| then []
    else (if batch[i].Some? then [batch[i].value] else []) + IdsFrom(batch, i + 1)
  }

  lemma {:induction false} IdsSplit(batch: Batch, i: nat)
    requires i <= |batch|
    ensures Ids(batch) == IdsTo(batch, i) + IdsFrom(batch, i)
    decreases |batch| - i
  {
    if i == |batch| {
      assert IdsTo(batch, i) + [] == IdsTo(batch, i);
    } else {
      IdsSplit(batch, i + 1);
      var one := if batch[i].Some? then [batch[i].value] else [];
      assert (IdsTo(batch, i) + one) + IdsFrom(batch, i + 1) == IdsTo(batch, i) + (one + IdsFrom(batch, i + 1));
    }
  }

  // What the process has still to dispatch of the batch it is at.
  function Rest(pc: Pc): seq<int> {
    match pc
    case Handling(_, batch, i) => if i <= |batch| then IdsFrom(batch, i) else []
    case Persisted(_, batch, i) => if i <= |batch| then IdsFrom(batch, i) else []
    case _ => []
  }

  lemma RestStep(s: State, step: Step)
    requires Enabled(s, step) && !step.Crash? && !step.Fetched?
    ensures Apply(s, step).dispatched + Rest(Apply(s, step).pc) == s.dispatched + Rest(s.pc)
  {
    match step
    case Dispatch =>
      MoveOne(s.dispatched, s.pc.batch[s.pc.i].value, IdsFrom(s.pc.batch, s.pc.i + 1));
    case _ =>
  }

  lemma MoveOne(a: seq<int>, id: int, b: seq<int>)
    ensures (a + [id]) + b == a + ([id] + b)
  {
  }

  // From a fetched batch to the next poll, without a crash: every update of the batch is
  // dispatched, in its order.
  lemma {:induction false} WholeBatchIsDispatched(s: State, steps: seq<Step>, t: State)
    requires Runs(s, steps, t) && t.pc.Polling?
    requires forall step <- steps :: !step.Crash? && !step.Fetched?
    ensures t.dispatched == s.dispatched + Rest(s.pc)
    decreases |steps|
  {
    if steps != [] {
      assert steps[0] in steps;
      RestStep(s, steps[0]);
      assert forall step <- steps[1..] :: step in steps;
      WholeBatchIsDispatched(Apply(s, steps[0]), steps[1..], t);
    }
  }

  lemma FetchedRest(s: State, batch: Batch)
    requires Enabled(s, Fetched(batch))
    ensures Rest(Apply(s, Fetched(batch)).pc) == Ids(batch)
  {
    IdsSplit(batch, 0);
  }

  function Last(ids: seq<int>, before: Option<int>): Option<int> {
    if ids == [] then before else Some(ids[|ids| - 1])
  }

  // The ids a process that never dies is given from poll n on.
  ghost function Given(service: (nat, Option<int>) -> Fetch, n: nat, rounds: nat, last: Option<int>): seq<int>
    requires n <= rounds
    decreases rounds - n
  {
    if n == rounds then []
    else match service(n, OffsetAfter(last))
      case Fatal => []
      case Failed => Given(service, n + 1, rounds, last)
      case Updates(batch) => Ids(batch) + Given(service, n + 1, rounds, Last(Ids(batch), last))
  }

  function Top(ids: seq<int>, k: nat): seq<int> {
    if |ids| <= k then ids else ids[..k]
  }

  // The process that dies at entry i has dispatched as many as its effects allow.
  lemma DiedAt(batch: Batch, i: nat, k: nat)
    requires i < |batch| && batch[i].Some? && |IdsTo(batch, i)| == k
    ensures Top(Ids(batch), k) == IdsTo(batch, i) && k < |Ids(batch)|
  {
    IdsSplit(batch, i);
  }

  lemma DueAfter(before: seq<int>, ids: seq<int>, later: seq<int>, k: nat, due: seq<int>)
    requires before + Top(ids + later, k) == due
    ensures |ids| <= k ==> (before + ids) + Top(later, k - |ids|) == due
    ensures |ids| > k ==> before + Top(ids, k) == due
  {
    if |ids| <= k {
      assert Top(ids + later, k) == ids + Top(later, k - |ids|);
    } else {
      assert Top(ids + later, k) == Top(ids, k);
    }
  }

  // -- The loop -----------------------------------------------------------------------

  datatype Fetch = Fatal | Failed | Updates(batch: Batch)

  class Bot {
    // Durable across crashes, like the dispatched updates themselves.
    var last: Option<int>
    var dispatched: seq<int>

    ghost predicate Safe()
      reads this
    {
      Inv(State(Down, last, dispatched))
    }

    constructor ()
      ensures Safe() && dispatched == []
    {
      last, dispatched := None, [];
    }

    // One update: its cursor is written, then it is dispatched.
    method HandleUpdate(batch: Batch, i: nat, offset: Option<int>, effects: nat)
      returns (died: bool, offset': Option<int>, left: nat)
      requires i < |batch| && batch[i].Some? && Inv(State(Handling(offset, batch, i), last, dispatched))
      modifies this
      ensures Safe() && (died <==> effects < 2)
      ensures dispatched == if died then old(dispatched) else old(dispatched) + [batch[i].value]
      ensures !died ==>
                && left == effects - 2 && last == batch[i]
                && Inv(State(Handling(offset', batch, i + 1), last, dispatched))
    {
      died, offset', left := true, offset, 0;
      if effects == 0 {
        return;
      }
      last := batch[i];
      if effects == 1 {
        return;
      }
      dispatched := dispatched + [batch[i].value];
      died, offset', left := false, Some(batch[i].value + 1), effects - 2;
    }

    // The updates of one batch, unless the process dies at one of their effects.
    method HandleBatch(batch: Batch, offset: Option<int>, effects: nat)
      returns (died: bool, offset': Option<int>, left: nat)
      requires Inv(State(Handling(offset, batch, 0), last, dispatched))
      modifies this
      ensures Safe()
      ensures dispatched == old(dispatched) + Top(Ids(batch), effects / 2)
      ensures died <==> effects < 2 * |Ids(batch)|
      ensures !died ==>
                && left == effects - 2 * |Ids(batch)|
                && last == Last(Ids(batch), old(last)) && offset' == OffsetAfter(last)
    {
      died, offset', left := false, offset, effects;
      for i := 0 to |batch|
        invariant Inv(State(Handling(offset', batch, i), last, dispatched)) && !died
        invariant dispatched == old(dispatched) + IdsTo(batch, i) && left == effects - 2 * |IdsTo(batch, i)|
        invariant last == Last(IdsTo(batch, i), old(last))
      {
        if batch[i].Some? {
          died, offset', left := HandleUpdate(batch, i, offset', left);
          if died {
            DiedAt(batch, i, effects / 2);
            return;
          }
          assert old(dispatched) + IdsTo(batch, i) + [batch[i].value] == old(dispatched) + IdsTo(batch, i + 1);
        }
      }
    }

    // One life of the process: `rounds` polls unless a fatal reply ends it, `effects`
    // how many durable effects happen before it dies. Each update given takes two, the
    // cursor write and the dispatch, so exactly as many as that allows are dispatched,
    // in order: all of them when it does not die.
    method PollLoop(service: (nat, Option<int>) -> Fetch, rounds: nat, effects: nat)
      requires Safe() && Honest(service)
      modifies this
      ensures Safe()
      ensures dispatched == old(dispatched) + Top(Given(service, 0, rounds, old(last)), effects / 2)
    {
      var offset := OffsetAfter(last);
      var left := effects;
      ghost var due := dispatched + Top(Given(service, 0, rounds, last), effects / 2);
      for n := 0 to rounds
        invariant Safe() && offset == OffsetAfter(last)
        invariant dispatched + Top(Given(service, n, rounds, last), left / 2) == due
      {
        var reply := service(n, offset);
        if reply.Fatal? {
          return;
        }
        if reply.Updates? {
          ghost var ids := Ids(reply.batch);
          DueAfter(dispatched, ids, Given(service, n + 1, rounds, Last(ids, last)), left / 2, due);
          var died;
          died, offset, left := HandleBatch(reply.batch, offset, left);
          if died {
            return;
          }
        }
      }
    }
  }

  // The service answers any offset with an ascending batch from it on.
  ghost predicate Honest(service: (nat, Option<int>) -> Fetch) {
    forall n: nat, offset: Option<int> ::
      service(n, offset).Updates? ==> Ascending(service(n, offset).batch, offset)
  }
}

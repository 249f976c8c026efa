/** The provider's task lifecycle: the states, the machine that holds the records, and what no operation does. */
module Tasks {
  import opened Wrappers

  datatype TaskState = Submitted | Working | Delivered | Failed | Cancelled

  predicate IsTerminal(s: TaskState) {
    s.Delivered? || s.Failed? || s.Cancelled?
  }

  /** The one task state in which the provider still owes the chain a call. */
  predicate OwesSubmit(s: TaskState) {
    s.Delivered?
  }

  predicate IsDisposable(s: TaskState) {
    IsTerminal(s) && !OwesSubmit(s)
  }

  datatype Params = Params(taskId: string, capability: string, input: string, callerDid: string, jobId: string)

  datatype TaskRecord = TaskRecord(
    params: Params,
    state: TaskState,
    deliverable: Option<string>,
    reference: Option<string>,
    reason: Option<string>,
    updatedAt: int)

  type Records = map<string, TaskRecord>

  datatype Operation =
    | Create(params: Params)
    | Accept(id: string)
    | Deliver(id: string, deliverable: string, reference: Option<string>)
    | Fail(id: string, reason: string)
    | Cancel(id: string)
    | Forget(id: string)
    | Sweep(before: int)

  /** The operation does not throw. */
  predicate Accepted(tasks: Records, op: Operation) {
    match op
    case Create(params) => params.taskId !in tasks
    case Accept(id) => id in tasks && tasks[id].state.Submitted?
    case Deliver(id, deliverable, _) => deliverable != "" && id in tasks && tasks[id].state.Working?
    case Fail(id, _) => id in tasks && (tasks[id].state.Submitted? || tasks[id].state.Working?)
    case Cancel(id) => id in tasks && tasks[id].state.Submitted?
    case Forget(id) => id in tasks && IsTerminal(tasks[id].state)
    case Sweep(_) => true
  }

  predicate Sweepable(record: TaskRecord, before: int) {
    IsDisposable(record.state) && record.updatedAt < before
  }

  function Performed(tasks: Records, op: Operation, now: int): Records {
    if !Accepted(tasks, op) then tasks
    else
      match op
      case Create(params) => tasks[params.taskId := TaskRecord(params, Submitted, None, None, None, now)]
      case Accept(id) => tasks[id := tasks[id].(state := Working, updatedAt := now)]
      case Deliver(id, deliverable, reference) =>
        tasks[id := tasks[id].(state := Delivered, updatedAt := now, deliverable := Some(deliverable),
                               reference := if reference.Some? then reference else tasks[id].reference)]
      case Fail(id, reason) => tasks[id := tasks[id].(state := Failed, updatedAt := now, reason := Some(reason))]
      case Cancel(id) => tasks[id := tasks[id].(state := Cancelled, updatedAt := now)]
      case Forget(id) => tasks - {id}
      case Sweep(before) => map id | id in tasks && !Sweepable(tasks[id], before) :: tasks[id]
  }

  class TaskMachine {
    var tasks: Records

    constructor ()
      ensures tasks == map[]
    {
      tasks := map[];
    }

    /** The shared body of accept, deliver, fail and cancel. */
    method Transition(id: string, from: set<TaskState>, to: TaskState, now: int,
                      deliverable: Option<string>, reference: Option<string>, reason: Option<string>)
      returns (ok: bool)
      modifies this
      ensures ok == (id in old(tasks) && old(tasks)[id].state in from)
      ensures !ok ==> tasks == old(tasks)
      ensures ok ==>
                var was := old(tasks)[id];
                tasks == old(tasks)[id := was.(
                  state := to, updatedAt := now,
                  deliverable := if deliverable.Some? then deliverable else was.deliverable,
                  reference := if reference.Some? then reference else was.reference,
                  reason := if reason.Some? then reason else was.reason)]
    {
      if id !in tasks || tasks[id].state !in from { return false; }
      var task := tasks[id].(state := to, updatedAt := now);
      if deliverable.Some? { task := task.(deliverable := deliverable); }
      if reference.Some? { task := task.(reference := reference); }
      if reason.Some? { task := task.(reason := reason); }
      tasks := tasks[id := task];
      return true;
    }

    method CreateTask(params: Params, now: int) returns (ok: bool)
      modifies this
      ensures ok == (params.taskId !in old(tasks))
      ensures ok ==> tasks == old(tasks)[params.taskId := TaskRecord(params, Submitted, None, None, None, now)]
      ensures ok == Accepted(old(tasks), Create(params)) && tasks == Performed(old(tasks), Create(params), now)
    {
      if params.taskId in tasks { return false; }
      tasks := tasks[params.taskId := TaskRecord(params, Submitted, None, None, None, now)];
      return true;
    }

    method AcceptTask(id: string, now: int) returns (ok: bool)
      modifies this
      ensures ok == (id in old(tasks) && old(tasks)[id].state.Submitted?)
      ensures ok ==> tasks == old(tasks)[id := old(tasks)[id].(state := Working, updatedAt := now)]
      ensures ok == Accepted(old(tasks), Accept(id)) && tasks == Performed(old(tasks), Accept(id), now)
    {
      ok := Transition(id, {Submitted}, Working, now, None, None, None);
    }

    method DeliverTask(id: string, deliverable: string, reference: Option<string>, now: int) returns (ok: bool)
      modifies this
      ensures ok == (deliverable != "" && id in old(tasks) && old(tasks)[id].state.Working?)
      ensures ok ==>
                && tasks.Keys == old(tasks).Keys
                && tasks[id].state.Delivered? && tasks[id].deliverable == Some(deliverable)
                && (reference.Some? ==> tasks[id].reference == reference) && tasks[id].updatedAt == now
                && tasks == old(tasks)[id := tasks[id]] && tasks[id].params == old(tasks)[id].params
      ensures ok == Accepted(old(tasks), Deliver(id, deliverable, reference))
      ensures tasks == Performed(old(tasks), Deliver(id, deliverable, reference), now)
    {
      if deliverable == "" { return false; }
      ok := Transition(id, {Working}, Delivered, now, Some(deliverable), reference, None);
    }

    method FailTask(id: string, reason: string, now: int) returns (ok: bool)
      modifies this
      ensures ok == (id in old(tasks) && (old(tasks)[id].state.Submitted? || old(tasks)[id].state.Working?))
      ensures ok ==>
                tasks == old(tasks)[id := old(tasks)[id].(state := Failed, updatedAt := now, reason := Some(reason))]
      ensures ok == Accepted(old(tasks), Fail(id, reason)) && tasks == Performed(old(tasks), Fail(id, reason), now)
    {
      ok := Transition(id, {Submitted, Working}, Failed, now, None, None, Some(reason));
    }

    method CancelTask(id: string, now: int) returns (ok: bool)
      modifies this
      ensures ok == (id in old(tasks) && old(tasks)[id].state.Submitted?)
      ensures ok ==> tasks == old(tasks)[id := old(tasks)[id].(state := Cancelled, updatedAt := now)]
      ensures ok == Accepted(old(tasks), Cancel(id)) && tasks == Performed(old(tasks), Cancel(id), now)
    {
      ok := Transition(id, {Submitted}, Cancelled, now, None, None, None);
    }

    method ForgetTask(id: string, now: int) returns (ok: bool)
      modifies this
      ensures ok == (id in old(tasks) && old(tasks)[id].state in {Delivered, Failed, Cancelled})
      ensures ok ==> tasks == old(tasks) - {id}
      ensures ok == Accepted(old(tasks), Forget(id)) && tasks == Performed(old(tasks), Forget(id), now)
    {
      if id !in tasks || !IsTerminal(tasks[id].state) { return false; }
      tasks := tasks - {id};
      return true;
    }

    method SweepTasks(before: int, now: int) returns (removed: nat)
      modifies this
      ensures forall id :: id in tasks <==>
                && id in old(tasks)
                && !(old(tasks)[id].state in {Failed, Cancelled} && old(tasks)[id].updatedAt < before)
      ensures forall id :: id in tasks ==> tasks[id] == old(tasks)[id]
      ensures tasks == Performed(old(tasks), Sweep(before), now)
      ensures removed == |old(tasks)| - |tasks|
    {
      removed := 0;
      var left := tasks.Keys;
      while left != {}
        invariant left <= tasks.Keys <= old(tasks).Keys
        invariant forall id :: id in tasks ==> tasks[id] == old(tasks)[id]
        invariant forall id :: id in old(tasks) && id !in left ==>
                    (id in tasks <==> !Sweepable(old(tasks)[id], before))
        invariant removed == |old(tasks)| - |tasks|
        decreases left
      {
        var id :| id in left;
        left := left - {id};
        if IsDisposable(tasks[id].state) && tasks[id].updatedAt < before {
          assert (tasks - {id}).Keys == tasks.Keys - {id};
          assert |(tasks - {id}).Keys| == |tasks.Keys| - 1;
          tasks := tasks - {id};
          removed := removed + 1;
        }
      }
      assert tasks == Performed(old(tasks), Sweep(before), now);
    }
  }

  /** The arrows of the lifecycle. */
  predicate Arrow(from: TaskState, to: TaskState) {
    || (from.Submitted? && (to.Working? || to.Failed? || to.Cancelled?))
    || (from.Working? && (to.Delivered? || to.Failed?))
  }

  /** What one operation may do to one record: nothing, one arrow of the lifecycle, or drop a finished task. */
  ghost predicate LegalChange(before: Records, after: Records, id: string, op: Operation) {
    || (id !in before && id !in after)
    || (id !in before && id in after && after[id].state.Submitted? && op.Create?)
    || (id in before && id in after && after[id] == before[id])
    || (id in before && id in after && after[id].params == before[id].params
        && Arrow(before[id].state, after[id].state)
        && (after[id].deliverable.Some? ==> after[id].state.Delivered?)
        && (after[id].state.Delivered? ==> after[id].deliverable.Some? && after[id].deliverable.value != "")
        && (after[id].state.Failed? ==> after[id].reason.Some?))
    || (id in before && id !in after && IsTerminal(before[id].state)
        && (before[id].state.Delivered? ==> op == Forget(id)))
  }

  /** A deliverable is there exactly when the record is DELIVERED. */
  ghost predicate WellFormed(tasks: Records) {
    forall id :: id in tasks ==>
      && tasks[id].params.taskId == id
      && (tasks[id].state.Delivered? <==> tasks[id].deliverable.Some?)
      && (tasks[id].deliverable.Some? ==> tasks[id].deliverable.value != "")
  }

  /** No operation, accepted or refused, does anything else to any record. */
  lemma OperationsAreLegal(tasks: Records, op: Operation, now: int, id: string)
    requires WellFormed(tasks)
    ensures WellFormed(Performed(tasks, op, now))
    ensures LegalChange(tasks, Performed(tasks, op, now), id, op)
  {
    var after := Performed(tasks, op, now);
    assert op.Sweep? && id in tasks && id !in after ==> Sweepable(tasks[id], op.before);
  }

  function Operated(tasks: Records, ops: seq<(Operation, int)>): Records
    decreases |ops|
  {
    if ops == [] then tasks
    else Operated(Performed(tasks, ops[0].0, ops[0].1), ops[1..])
  }

  /** Over any history that does not forget it, a DELIVERED record stays, with the same deliverable. */
  lemma {:induction false} DeliveredStays(tasks: Records, ops: seq<(Operation, int)>, id: string)
    requires WellFormed(tasks) && id in tasks && tasks[id].state.Delivered?
    requires forall k :: 0 <= k < |ops| ==> ops[k].0 != Forget(id)
    ensures id in Operated(tasks, ops) && Operated(tasks, ops)[id] == tasks[id]
    decreases |ops|
  {
    if ops != [] {
      assert ops[0].0 != Forget(id);
      OperationsAreLegal(tasks, ops[0].0, ops[0].1, id);
      DeliveredStays(Performed(tasks, ops[0].0, ops[0].1), ops[1..], id);
    }
  }
}

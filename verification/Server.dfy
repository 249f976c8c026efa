/**
 * The task server over the task machine, as a step relation. An event is one uninterrupted
 * stretch of the server between two awaits: a create up to its admission question, the answer
 * to it, a handler settling, its deadline, the settlement answering. Records are also dropped
 * by the host, with `forget` and `sweep`; nobody else moves them.
 *
 * The history the results are about is `journal`, and in each run what its handler resolved with,
 * the settlement calls made for it and what they returned. The server keeps none of it.
 */
module Server {
  import opened Tasks
  import opened Wrappers

  type CallId = nat
  type RunId = nat

  datatype Config = Config(
    offered: set<string>,
    inherited: set<string>,   // names the record of handlers has from its prototype, "constructor" for one
    maxConcurrent: nat,
    timeout: bool,            // handlerTimeoutMs is set
    settlement: bool)         // a settlement is set

  datatype Answer =
    | Acknowledged(taskId: string, state: TaskState, acceptedAt: int)
    | InvalidParams
    | TaskIdInUse
    | CapabilityNotOffered
    | Busy
    | JobNotFunded
    | Thrown              // the admission promise rejected

  datatype Call = Admitting(params: Params) | Answered(answer: Answer)

  datatype RunState =
    | Handling
    | Delivering(output: string)
    | Ended(outcome: Outcome)

  datatype Outcome =
    | DeliveredAs(deliverable: string, reference: Option<string>)
    | FailedBecause(reason: string)

  datatype Run = Run(
    params: Params,
    at: RunState,
    output: Option<string>,
    delivers: seq<(string, string)>,
    returned: seq<(string, Option<string>)>,
    deadlineWon: bool)

  datatype Note = Started(run: RunId, taskId: string) | Dropped(taskId: string)

  datatype State = State(
    clock: int,
    tasks: Records,
    running: int,
    calls: map<CallId, Call>,
    runs: seq<Run>,
    owner: map<string, RunId>,   // the run of each kept record
    journal: seq<Note>)

  datatype Event =
    | Tick(now: int)
    | Request(call: CallId, params: Params, authenticated: Option<string>)
    | Admit(call: CallId, ok: bool)
    | AdmitThrows(call: CallId)
    | Resolve(run: RunId, output: string)
    | Reject(run: RunId, reason: string)
    | Expire(run: RunId, message: string)
    | DeliverResolves(run: RunId, deliverable: string, reference: Option<string>)
    | DeliverRejects(run: RunId, reason: string)
    | HostForget(taskId: string)
    | HostSweep(before: int)

  function Initial(): State {
    State(0, map[], 0, map[], [], map[], [])
  }

  predicate Active(run: Run) {
    !run.at.Ended?
  }

  predicate Enabled(c: Config, s: State, e: Event) {
    match e
    case Tick(now) => s.clock <= now
    case Request(call, _, _) => call !in s.calls
    case Admit(call, _) => call in s.calls && s.calls[call].Admitting?
    case AdmitThrows(call) => call in s.calls && s.calls[call].Admitting?
    case Resolve(run, _) => run < |s.runs| && s.runs[run].at.Handling?
    case Reject(run, _) => run < |s.runs| && s.runs[run].at.Handling?
    case Expire(run, _) => c.timeout && run < |s.runs| && s.runs[run].at.Handling?
    case DeliverResolves(run, _, _) => run < |s.runs| && s.runs[run].at.Delivering?
    case DeliverRejects(run, _) => run < |s.runs| && s.runs[run].at.Delivering?
    case HostForget(id) => Accepted(s.tasks, Forget(id))
    case HostSweep(_) => true
  }

  /** The lookup of a handler finds one. */
  predicate Offered(c: Config, capability: string) {
    capability in c.offered || capability in c.inherited
  }

  /** The refusals before the chain is asked, in the order they are given; None lets the create go on. */
  function Refusal(c: Config, s: State, params: Params, authenticated: Option<string>): Option<Answer> {
    if params.taskId == "" || params.capability == "" || params.input == ""
       || params.callerDid == "" || params.jobId == "" then
      Some(InvalidParams)
    else if authenticated.Some? && params.callerDid != authenticated.value then
      Some(InvalidParams)
    else if params.taskId in s.tasks then
      var record := s.tasks[params.taskId];
      if record.params != params then Some(TaskIdInUse)
      else Some(Acknowledged(params.taskId, record.state, record.updatedAt))
    else if !Offered(c, params.capability) then Some(CapabilityNotOffered)
    else if s.running >= c.maxConcurrent then Some(Busy)
    else None
  }

  function Reply(s: State, call: CallId, answer: Answer): State {
    s.(calls := s.calls[call := Answered(answer)])
  }

  function NewRun(params: Params): Run {
    Run(params, Handling, None, [], [], false)
  }

  /** Create and accept the record, start the run, acknowledge. The id may have been taken while the chain was asked. */
  function Launch(s: State, call: CallId, params: Params): State {
    if params.taskId in s.tasks then Reply(s, call, InvalidParams)
    else
      var created := Performed(s.tasks, Create(params), s.clock);
      var accepted := Performed(created, Accept(params.taskId), s.clock);
      Reply(s.(tasks := accepted,
               running := s.running + 1,
               runs := s.runs + [NewRun(params)],
               owner := s.owner[params.taskId := |s.runs|],
               journal := s.journal + [Started(|s.runs|, params.taskId)]),
            call, Acknowledged(params.taskId, Working, s.clock))
  }

  /** The run is over: the record says how, and the slot is given back. */
  function Finish(s: State, run: RunId, outcome: Outcome): State
    requires run < |s.runs|
  {
    var id := s.runs[run].params.taskId;
    var op := match outcome
              case DeliveredAs(deliverable, reference) => Deliver(id, deliverable, reference)
              case FailedBecause(reason) => Fail(id, reason);
    s.(tasks := Performed(s.tasks, op, s.clock),
       running := s.running - 1,
       runs := s.runs[run := s.runs[run].(at := Ended(outcome))])
  }

  /** `machine.deliver` throws on an empty deliverable, and what it threw becomes the failure. */
  const EMPTY: string := "deliver (empty deliverable)"

  function FinishDelivered(s: State, run: RunId, deliverable: string, reference: Option<string>): State
    requires run < |s.runs|
  {
    if deliverable == "" then Finish(s, run, FailedBecause(EMPTY))
    else Finish(s, run, DeliveredAs(deliverable, reference))
  }

  function Change(s: State, run: RunId, r: Run): State
    requires run < |s.runs|
  {
    s.(runs := s.runs[run := r])
  }

  /** The host drops records; a drop is noted for each. */
  function Drop(s: State, kept: Records, dropped: seq<string>): State {
    s.(tasks := kept,
       owner := map id | id in s.owner && id in kept :: s.owner[id],
       journal := s.journal + Drops(dropped))
  }

  function Drops(ids: seq<string>): (notes: seq<Note>)
    ensures |notes| == |ids| && forall i :: 0 <= i < |ids| ==> notes[i] == Dropped(ids[i])
  {
    seq(|ids|, i requires 0 <= i < |ids| => Dropped(ids[i]))
  }

  ghost function InSomeOrder(ids: set<string>): (r: seq<string>)
    ensures forall id :: id in r <==> id in ids
  {
    if ids == {} then [] else var id :| id in ids; [id] + InSomeOrder(ids - {id})
  }

  ghost function Apply(c: Config, s: State, e: Event): State
    requires Enabled(c, s, e)
  {
    match e
    case Tick(now) => s.(clock := now)
    case Request(call, params, authenticated) =>
      var refusal := Refusal(c, s, params, authenticated);
      if refusal.Some? then Reply(s, call, refusal.value)
      else if c.settlement then s.(calls := s.calls[call := Admitting(params)])
      else Launch(s, call, params)
    case Admit(call, ok) =>
      if ok then Launch(s, call, s.calls[call].params) else Reply(s, call, JobNotFunded)
    case AdmitThrows(call) => Reply(s, call, Thrown)
    case Resolve(run, output) =>
      var r := s.runs[run].(output := Some(output));
      if c.settlement then
        Change(s, run, r.(at := Delivering(output), delivers := r.delivers + [(r.params.jobId, output)]))
      else FinishDelivered(Change(s, run, r), run, output, None)
    case Reject(run, reason) => Finish(s, run, FailedBecause(reason))
    case Expire(run, message) =>
      Finish(Change(s, run, s.runs[run].(deadlineWon := true)), run, FailedBecause(message))
    case DeliverResolves(run, deliverable, reference) =>
      var r := s.runs[run];
      FinishDelivered(Change(s, run, r.(returned := r.returned + [(deliverable, reference)])), run,
                      deliverable, reference)
    case DeliverRejects(run, reason) => Finish(s, run, FailedBecause(reason))
    case HostForget(id) => Drop(s, Performed(s.tasks, Forget(id), s.clock), [id])
    case HostSweep(before) =>
      var kept := Performed(s.tasks, Sweep(before), s.clock);
      Drop(s, kept, InSomeOrder(s.tasks.Keys - kept.Keys))
  }

  ghost function Execute(c: Config, events: seq<Event>): Option<State> {
    if events == [] then Some(Initial())
    else
      var before := Execute(c, events[..|events| - 1]);
      var e := events[|events| - 1];
      if before.Some? && Enabled(c, before.value, e) then Some(Apply(c, before.value, e)) else None
  }

  // ----- what every step keeps

  /** The runs that have not ended. */
  function ActiveCount(runs: seq<Run>): nat {
    if runs == [] then 0 else (if Active(runs[|runs| - 1]) then 1 else 0) + ActiveCount(runs[..|runs| - 1])
  }

  lemma {:induction false} ActiveCountUpdate(runs: seq<Run>, run: RunId, r: Run)
    requires run < |runs| && Active(runs[run])
    ensures ActiveCount(runs[run := r]) == ActiveCount(runs) - (if Active(r) then 0 else 1)
  {
    var last := |runs| - 1;
    var updated := runs[run := r];
    if run < last {
      ActiveCountUpdate(runs[..last], run, r);
      assert updated[..last] == runs[..last][run := r];
    } else {
      assert updated[..last] == runs[..last];
    }
  }

  /** What a record says, given how its run stands. */
  ghost predicate RecordMatches(record: TaskRecord, run: Run) {
    && record.params == run.params
    && match run.at
       case Handling => record.state.Working?
       case Delivering(_) => record.state.Working?
       case Ended(DeliveredAs(deliverable, reference)) =>
         record.state.Delivered? && record.deliverable == Some(deliverable) && record.reference == reference
       case Ended(FailedBecause(reason)) => record.state.Failed? && record.reason == Some(reason)
  }

  /** A kept record is owned by one run, and says how that run stands; a run without a record has ended. */
  ghost predicate OwnersOk(s: State) {
    && s.owner.Keys == s.tasks.Keys
    && (forall id :: id in s.tasks ==>
          && s.owner[id] < |s.runs|
          && s.runs[s.owner[id]].params.taskId == id
          && RecordMatches(s.tasks[id], s.runs[s.owner[id]])
          && (s.tasks[id].state.Working? ==> s.tasks[id].reference.None?))
    && (forall r :: 0 <= r < |s.runs| && Active(s.runs[r]) ==>
          s.runs[r].params.taskId in s.owner && s.owner[s.runs[r].params.taskId] == r)
  }

  ghost predicate SlotsOk(c: Config, s: State) {
    && s.running == ActiveCount(s.runs)
    && (!c.settlement ==> s.running <= c.maxConcurrent)
  }

  lemma LaunchedRecord(s: State, call: CallId, params: Params)
    requires params.taskId !in s.tasks
    ensures var t := Launch(s, call, params);
            t.tasks == s.tasks[params.taskId := TaskRecord(params, Working, None, None, None, s.clock)]
  {
  }

  lemma LaunchKeepsOwners(s: State, call: CallId, params: Params)
    requires OwnersOk(s)
    ensures OwnersOk(Launch(s, call, params))
  {
    if params.taskId in s.tasks {
      OwnersFrame(s, Launch(s, call, params));
    } else {
      LaunchedRecord(s, call, params);
      var record := TaskRecord(params, Working, None, None, None, s.clock);
      OneMoreOwner(s, record);
      OwnersFrame(s.(tasks := s.tasks[params.taskId := record],
                     owner := s.owner[params.taskId := |s.runs|],
                     runs := s.runs + [NewRun(params)]), Launch(s, call, params));
    }
  }

  lemma OneMoreOwner(s: State, record: TaskRecord)
    requires OwnersOk(s) && record.params.taskId !in s.tasks && record.state.Working? && record.reference.None?
    ensures OwnersOk(s.(tasks := s.tasks[record.params.taskId := record],
                        owner := s.owner[record.params.taskId := |s.runs|],
                        runs := s.runs + [NewRun(record.params)]))
  {
    var runs := s.runs + [NewRun(record.params)];
    assert forall r :: 0 <= r < |s.runs| ==> runs[r] == s.runs[r];
  }

  /** The finished task's record matches the finished run; the others are as they were. */
  lemma FinishedRecord(s: State, run: RunId, outcome: Outcome)
    requires OwnersOk(s) && run < |s.runs| && Active(s.runs[run])
    requires outcome.DeliveredAs? ==> outcome.deliverable != ""
    ensures var t := Finish(s, run, outcome);
            var id := s.runs[run].params.taskId;
            && id in s.tasks && s.owner[id] == run && t.tasks.Keys == s.tasks.Keys
            && RecordMatches(t.tasks[id], t.runs[run]) && !t.tasks[id].state.Working?
            && forall other :: other in s.tasks && other != id ==> t.tasks[other] == s.tasks[other]
  {
  }

  /** `t` is `s` with one run ended, and its record saying how. */
  ghost predicate EndsRun(s: State, t: State, run: RunId)
    requires run < |s.runs|
  {
    var id := s.runs[run].params.taskId;
    && t.owner == s.owner && t.tasks.Keys == s.tasks.Keys && |t.runs| == |s.runs|
    && id in s.tasks && id in s.owner && s.owner[id] == run
    && t.runs[run].params == s.runs[run].params && !Active(t.runs[run])
    && RecordMatches(t.tasks[id], t.runs[run]) && !t.tasks[id].state.Working?
    && (forall r :: 0 <= r < |s.runs| && r != run ==> t.runs[r] == s.runs[r])
    && (forall other :: other in s.tasks && other != id ==> t.tasks[other] == s.tasks[other])
  }

  lemma EndedRunKeepsOwners(s: State, t: State, run: RunId)
    requires OwnersOk(s) && run < |s.runs| && EndsRun(s, t, run)
    ensures OwnersOk(t)
  {
    var id := s.runs[run].params.taskId;
    forall other | other in t.tasks && other != id ensures t.runs[t.owner[other]] == s.runs[s.owner[other]] {
      assert s.runs[s.owner[other]].params.taskId == other;
    }
  }

  lemma FinishKeepsOwners(s: State, run: RunId, outcome: Outcome)
    requires OwnersOk(s) && run < |s.runs| && Active(s.runs[run])
    requires outcome.DeliveredAs? ==> outcome.deliverable != ""
    ensures OwnersOk(Finish(s, run, outcome))
  {
    FinishedRecord(s, run, outcome);
    EndedRunKeepsOwners(s, Finish(s, run, outcome), run);
  }

  lemma ChangeKeepsOwners(s: State, run: RunId, r: Run)
    requires OwnersOk(s) && run < |s.runs| && Active(s.runs[run])
    requires r.params == s.runs[run].params && Active(r)
    ensures OwnersOk(Change(s, run, r))
  {
  }

  lemma DropKeepsOwners(s: State, kept: Records, dropped: seq<string>)
    requires OwnersOk(s)
    requires forall id :: id in kept ==> id in s.tasks && kept[id] == s.tasks[id]
    requires forall id :: id in s.tasks && id !in kept ==> IsTerminal(s.tasks[id].state)
    ensures OwnersOk(Drop(s, kept, dropped))
  {
    var t := Drop(s, kept, dropped);
    assert t.owner.Keys == t.tasks.Keys;
    forall r | 0 <= r < |t.runs| && Active(t.runs[r])
      ensures t.runs[r].params.taskId in t.owner && t.owner[t.runs[r].params.taskId] == r
    {
      var id := s.runs[r].params.taskId;
      assert RecordMatches(s.tasks[id], s.runs[r]);
    }
  }

  lemma OwnersFrame(s: State, t: State)
    requires OwnersOk(s) && t.tasks == s.tasks && t.owner == s.owner && t.runs == s.runs
    ensures OwnersOk(t)
  {
  }

  predicate OfARun(e: Event) {
    e.Resolve? || e.Reject? || e.Expire? || e.DeliverResolves? || e.DeliverRejects?
  }

  lemma RunEventKeepsOwners(c: Config, s: State, e: Event)
    requires OwnersOk(s) && Enabled(c, s, e) && OfARun(e)
    ensures OwnersOk(Apply(c, s, e))
  {
    match e
    case Resolve(run, output) =>
      var r := s.runs[run].(output := Some(output));
      if c.settlement {
        ChangeKeepsOwners(s, run, r.(at := Delivering(output), delivers := r.delivers + [(r.params.jobId, output)]));
      } else {
        ChangeKeepsOwners(s, run, r);
        FinishDeliveredKeepsOwners(Change(s, run, r), run, output, None);
      }
    case Reject(run, reason) => FinishKeepsOwners(s, run, FailedBecause(reason));
    case Expire(run, message) =>
      var r := s.runs[run].(deadlineWon := true);
      ChangeKeepsOwners(s, run, r);
      FinishKeepsOwners(Change(s, run, r), run, FailedBecause(message));
    case DeliverResolves(run, deliverable, reference) =>
      var r := s.runs[run].(returned := s.runs[run].returned + [(deliverable, reference)]);
      ChangeKeepsOwners(s, run, r);
      FinishDeliveredKeepsOwners(Change(s, run, r), run, deliverable, reference);
    case DeliverRejects(run, reason) => FinishKeepsOwners(s, run, FailedBecause(reason));
  }

  lemma OwnersStep(c: Config, s: State, e: Event)
    requires OwnersOk(s) && Enabled(c, s, e)
    ensures OwnersOk(Apply(c, s, e))
  {
    match e
    case Tick(_) => OwnersFrame(s, Apply(c, s, e));
    case Request(call, params, authenticated) =>
      LaunchKeepsOwners(s, call, params);
      if Refusal(c, s, params, authenticated).Some? || c.settlement { OwnersFrame(s, Apply(c, s, e)); }
    case Admit(call, ok) =>
      if ok { LaunchKeepsOwners(s, call, s.calls[call].params); } else { OwnersFrame(s, Apply(c, s, e)); }
    case AdmitThrows(_) => OwnersFrame(s, Apply(c, s, e));
    case HostForget(id) => DropKeepsOwners(s, Performed(s.tasks, Forget(id), s.clock), [id]);
    case HostSweep(before) =>
      var kept := Performed(s.tasks, Sweep(before), s.clock);
      DropKeepsOwners(s, kept, InSomeOrder(s.tasks.Keys - kept.Keys));
    case _ => RunEventKeepsOwners(c, s, e);
  }

  lemma FinishDeliveredKeepsOwners(s: State, run: RunId, deliverable: string, reference: Option<string>)
    requires OwnersOk(s) && run < |s.runs| && Active(s.runs[run])
    ensures OwnersOk(FinishDelivered(s, run, deliverable, reference))
  {
    if deliverable == "" {
      FinishKeepsOwners(s, run, FailedBecause(EMPTY));
    } else {
      FinishKeepsOwners(s, run, DeliveredAs(deliverable, reference));
    }
  }

  lemma LaunchKeepsSlots(c: Config, s: State, call: CallId, params: Params)
    requires SlotsOk(c, s) && (c.settlement || s.running < c.maxConcurrent)
    ensures SlotsOk(c, Launch(s, call, params))
  {
    assert (s.runs + [NewRun(params)])[..|s.runs|] == s.runs;
  }

  lemma ChangeKeepsSlots(c: Config, s: State, run: RunId, r: Run)
    requires SlotsOk(c, s) && run < |s.runs| && Active(s.runs[run]) && Active(r)
    ensures SlotsOk(c, Change(s, run, r))
  {
    ActiveCountUpdate(s.runs, run, r);
  }

  lemma FinishKeepsSlots(c: Config, s: State, run: RunId, outcome: Outcome)
    requires SlotsOk(c, s) && run < |s.runs| && Active(s.runs[run])
    ensures SlotsOk(c, Finish(s, run, outcome))
  {
    ActiveCountUpdate(s.runs, run, s.runs[run].(at := Ended(outcome)));
  }

  lemma SlotsFrame(c: Config, s: State, t: State)
    requires SlotsOk(c, s) && t.running == s.running && t.runs == s.runs
    ensures SlotsOk(c, t)
  {
  }

  lemma SlotsStep(c: Config, s: State, e: Event)
    requires SlotsOk(c, s) && CallsOk(c, s) && Enabled(c, s, e)
    ensures SlotsOk(c, Apply(c, s, e))
  {
    match e
    case Request(call, params, authenticated) =>
      if Refusal(c, s, params, authenticated).Some? || c.settlement {
        SlotsFrame(c, s, Apply(c, s, e));
      } else {
        LaunchKeepsSlots(c, s, call, params);
      }
    case Admit(call, ok) =>
      if ok { LaunchKeepsSlots(c, s, call, s.calls[call].params); } else { SlotsFrame(c, s, Apply(c, s, e)); }
    case Resolve(run, output) =>
      var r := s.runs[run].(output := Some(output));
      if c.settlement {
        ChangeKeepsSlots(c, s, run, r.(at := Delivering(output), delivers := r.delivers + [(r.params.jobId, output)]));
      } else {
        ChangeKeepsSlots(c, s, run, r);
        FinishKeepsSlots(c, Change(s, run, r), run,
                         if output == "" then FailedBecause(EMPTY) else DeliveredAs(output, None));
      }
    case Reject(run, reason) => FinishKeepsSlots(c, s, run, FailedBecause(reason));
    case Expire(run, message) =>
      var r := s.runs[run].(deadlineWon := true);
      ChangeKeepsSlots(c, s, run, r);
      FinishKeepsSlots(c, Change(s, run, r), run, FailedBecause(message));
    case DeliverResolves(run, deliverable, reference) =>
      var r := s.runs[run].(returned := s.runs[run].returned + [(deliverable, reference)]);
      ChangeKeepsSlots(c, s, run, r);
      FinishKeepsSlots(c, Change(s, run, r), run,
                       if deliverable == "" then FailedBecause(EMPTY) else DeliveredAs(deliverable, reference));
    case DeliverRejects(run, reason) => FinishKeepsSlots(c, s, run, FailedBecause(reason));
    case _ => SlotsFrame(c, s, Apply(c, s, e));
  }

  /** What the settlement was asked for a run, and what became of it. */
  ghost predicate RunOk(c: Config, r: Run) {
    && (c.settlement ==> |r.delivers| <= 1 && |r.returned| <= |r.delivers|)
    && (!c.settlement ==> r.delivers == [] && r.returned == [])
    && (r.delivers != [] ==> r.output.Some? && r.delivers == [(r.params.jobId, r.output.value)])
    && (r.deadlineWon ==> r.delivers == [] && r.at.Ended? && r.at.outcome.FailedBecause? && c.timeout)
    && match r.at
       case Handling => r.delivers == [] && r.output.None?
       case Delivering(output) => c.settlement && r.delivers != [] && r.returned == [] && r.output == Some(output)
       case Ended(DeliveredAs(deliverable, reference)) =>
         && deliverable != ""
         && (c.settlement ==> r.returned == [(deliverable, reference)])
         && (!c.settlement ==> r.output == Some(deliverable) && reference.None?)
       case Ended(FailedBecause(_)) => r.returned != [] ==> r.returned[0].0 == ""
  }

  ghost predicate RunsOk(c: Config, s: State) {
    forall r :: 0 <= r < |s.runs| ==> RunOk(c, s.runs[r])
  }

  lemma LaunchKeepsRuns(c: Config, s: State, call: CallId, params: Params)
    requires RunsOk(c, s)
    ensures RunsOk(c, Launch(s, call, params))
  {
    var t := Launch(s, call, params);
    forall r | 0 <= r < |t.runs| ensures RunOk(c, t.runs[r]) {
      if r < |s.runs| { assert t.runs[r] == s.runs[r]; }
    }
  }

  lemma ResolvedRun(c: Config, s: State, run: RunId, output: string)
    requires RunsOk(c, s) && Enabled(c, s, Resolve(run, output))
    ensures var t := Apply(c, s, Resolve(run, output));
            t.runs == s.runs[run := t.runs[run]] && RunOk(c, t.runs[run])
  {
    assert RunOk(c, s.runs[run]);
  }

  lemma FailedRun(c: Config, s: State, e: Event)
    requires RunsOk(c, s) && Enabled(c, s, e) && (e.Reject? || e.Expire? || e.DeliverRejects?)
    ensures var t := Apply(c, s, e);
            t.runs == s.runs[e.run := t.runs[e.run]] && RunOk(c, t.runs[e.run])
  {
    assert RunOk(c, s.runs[e.run]);
  }

  lemma LandedRun(c: Config, s: State, run: RunId, deliverable: string, reference: Option<string>)
    requires RunsOk(c, s) && Enabled(c, s, DeliverResolves(run, deliverable, reference))
    ensures var t := Apply(c, s, DeliverResolves(run, deliverable, reference));
            t.runs == s.runs[run := t.runs[run]] && RunOk(c, t.runs[run])
  {
    assert RunOk(c, s.runs[run]);
  }

  lemma RunsStep(c: Config, s: State, e: Event)
    requires RunsOk(c, s) && Enabled(c, s, e)
    ensures RunsOk(c, Apply(c, s, e))
  {
    match e
    case Request(call, params, _) => LaunchKeepsRuns(c, s, call, params);
    case Admit(call, _) => LaunchKeepsRuns(c, s, call, s.calls[call].params);
    case Resolve(run, output) => ResolvedRun(c, s, run, output);
    case Reject(_, _) => FailedRun(c, s, e);
    case Expire(_, _) => FailedRun(c, s, e);
    case DeliverRejects(_, _) => FailedRun(c, s, e);
    case DeliverResolves(run, deliverable, reference) => LandedRun(c, s, run, deliverable, reference);
    case _ =>
  }

  /** A question to the chain is only out when there is a chain. */
  ghost predicate CallsOk(c: Config, s: State) {
    !c.settlement ==> forall call :: call in s.calls ==> !s.calls[call].Admitting?
  }

  /** Starts and drops of an id, from the journal's point of view. */
  ghost predicate StartsOk(s: State) {
    && (forall i :: 0 <= i < |s.journal| && s.journal[i].Started? && s.journal[i].taskId !in s.tasks ==>
          DroppedBetween(s.journal, i, |s.journal|))
    && (forall i, j :: 0 <= i < j < |s.journal| && s.journal[i].Started? && s.journal[j].Started?
                       && s.journal[i].taskId == s.journal[j].taskId ==>
          DroppedBetween(s.journal, i, j))
    && (forall r :: 0 <= r < |s.runs| ==> StartNoted(s.journal, r, s.runs[r].params.taskId))
    && (forall i, j :: 0 <= i < j < |s.journal| && s.journal[i].Started? && s.journal[j].Started? ==>
          s.journal[i].run != s.journal[j].run)
    && (forall i :: 0 <= i < |s.journal| && s.journal[i].Started? ==> s.journal[i].run < |s.runs|)
  }

  ghost predicate DroppedBetween(journal: seq<Note>, i: nat, j: nat)
    requires i < j <= |journal| && journal[i].Started?
  {
    exists k :: i < k < j && journal[k] == Dropped(journal[i].taskId)
  }

  ghost predicate StartNoted(journal: seq<Note>, run: RunId, taskId: string) {
    exists i :: 0 <= i < |journal| && journal[i] == Started(run, taskId)
  }

  /** A kept record's run is the one started last for it, and the record was not dropped since. */
  ghost predicate OwnersStarted(s: State) {
    forall id :: id in s.owner ==> StartedSince(s.journal, s.owner[id], id)
  }

  ghost predicate StartedSince(journal: seq<Note>, run: RunId, id: string) {
    exists i :: StartedAt(journal, run, id, i)
  }

  ghost predicate StartedAt(journal: seq<Note>, run: RunId, id: string, i: int) {
    && 0 <= i < |journal| && journal[i] == Started(run, id)
    && forall k :: i < k < |journal| ==> journal[k].taskId != id
  }

  lemma StartedSinceStays(journal: seq<Note>, more: seq<Note>, run: RunId, id: string)
    requires StartedSince(journal, run, id) && forall k :: 0 <= k < |more| ==> more[k].taskId != id
    ensures StartedSince(journal + more, run, id)
  {
    var i :| StartedAt(journal, run, id, i);
    assert StartedAt(journal + more, run, id, i);
  }

  lemma LaunchKeepsStarted(s: State, call: CallId, params: Params)
    requires OwnersStarted(s)
    ensures OwnersStarted(Launch(s, call, params))
  {
    var t := Launch(s, call, params);
    if params.taskId !in s.tasks {
      var more := [Started(|s.runs|, params.taskId)];
      forall id | id in t.owner ensures StartedSince(t.journal, t.owner[id], id) {
        if id == params.taskId {
          assert StartedAt(t.journal, |s.runs|, id, |s.journal|);
        } else {
          StartedSinceStays(s.journal, more, s.owner[id], id);
        }
      }
    }
  }

  lemma DropKeepsStarted(s: State, kept: Records, dropped: seq<string>)
    requires OwnersStarted(s) && forall id :: id in kept ==> id !in dropped
    ensures OwnersStarted(Drop(s, kept, dropped))
  {
    var t := Drop(s, kept, dropped);
    forall id | id in t.owner ensures StartedSince(t.journal, t.owner[id], id) {
      StartedSinceStays(s.journal, Drops(dropped), s.owner[id], id);
    }
  }

  lemma StartedStep(c: Config, s: State, e: Event)
    requires OwnersStarted(s) && Enabled(c, s, e)
    ensures OwnersStarted(Apply(c, s, e))
  {
    match e
    case Request(call, params, _) => LaunchKeepsStarted(s, call, params);
    case Admit(call, _) => LaunchKeepsStarted(s, call, s.calls[call].params);
    case HostForget(id) => DropKeepsStarted(s, Performed(s.tasks, Forget(id), s.clock), [id]);
    case HostSweep(before) =>
      var kept := Performed(s.tasks, Sweep(before), s.clock);
      DropKeepsStarted(s, kept, InSomeOrder(s.tasks.Keys - kept.Keys));
    case _ =>
  }

  lemma StartNotedStays(journal: seq<Note>, more: seq<Note>, run: RunId, taskId: string)
    requires StartNoted(journal, run, taskId)
    ensures StartNoted(journal + more, run, taskId)
  {
    var i :| 0 <= i < |journal| && journal[i] == Started(run, taskId);
    assert (journal + more)[i] == Started(run, taskId);
  }

  lemma DroppedStays(journal: seq<Note>, more: seq<Note>, i: nat, j: nat)
    requires i < j <= |journal| && journal[i].Started? && DroppedBetween(journal, i, j)
    ensures DroppedBetween(journal + more, i, j)
    ensures DroppedBetween(journal + more, i, |journal + more|)
  {
    var k :| i < k < j && journal[k] == Dropped(journal[i].taskId);
    assert (journal + more)[k] == journal[k];
  }

  lemma LaunchKeepsStarts(s: State, call: CallId, params: Params)
    requires StartsOk(s)
    ensures StartsOk(Launch(s, call, params))
  {
    var t := Launch(s, call, params);
    if params.taskId !in s.tasks {
      var n := |s.journal|;
      var more := [Started(|s.runs|, params.taskId)];
      assert t.journal == s.journal + more;
      forall i | 0 <= i < n && t.journal[i].Started? && t.journal[i].taskId !in s.tasks
        ensures DroppedBetween(t.journal, i, n + 1) && DroppedBetween(t.journal, i, n)
      {
        assert t.journal[i] == s.journal[i];
        DroppedStays(s.journal, more, i, n);
      }
      forall i, j | 0 <= i < j < n + 1 && t.journal[i].Started? && t.journal[j].Started?
                    && t.journal[i].taskId == t.journal[j].taskId
        ensures DroppedBetween(t.journal, i, j)
      {
        if j < n {
          assert t.journal[i] == s.journal[i] && t.journal[j] == s.journal[j];
          DroppedStays(s.journal, more, i, j);
        }
      }
      forall r | 0 <= r < |t.runs| ensures StartNoted(t.journal, r, t.runs[r].params.taskId) {
        if r < |s.runs| {
          StartNotedStays(s.journal, more, r, s.runs[r].params.taskId);
        } else {
          assert t.journal[n] == Started(r, t.runs[r].params.taskId);
        }
      }
    }
  }

  lemma DropKeepsStarts(s: State, kept: Records, dropped: seq<string>)
    requires StartsOk(s)
    requires forall id :: id in kept ==> id in s.tasks
    requires forall id :: id in s.tasks && id !in kept ==> id in dropped
    ensures StartsOk(Drop(s, kept, dropped))
  {
    var t := Drop(s, kept, dropped);
    var n := |s.journal|;
    var more := Drops(dropped);
    assert forall i :: n <= i < |t.journal| ==> t.journal[i] == more[i - n];
    forall i | 0 <= i < |t.journal| && t.journal[i].Started? ensures i < n && t.journal[i] == s.journal[i] {
    }
    forall i | 0 <= i < |t.journal| && t.journal[i].Started? && t.journal[i].taskId !in t.tasks
      ensures DroppedBetween(t.journal, i, |t.journal|)
    {
      var id := s.journal[i].taskId;
      if id in s.tasks {
        var k :| 0 <= k < |dropped| && dropped[k] == id;
        assert t.journal[n + k] == more[k];
      } else {
        DroppedStays(s.journal, more, i, n);
      }
    }
    forall i, j | 0 <= i < j < |t.journal| && t.journal[i].Started? && t.journal[j].Started?
                  && t.journal[i].taskId == t.journal[j].taskId
      ensures DroppedBetween(t.journal, i, j)
    {
      DroppedStays(s.journal, more, i, j);
    }
    forall r | 0 <= r < |t.runs| ensures StartNoted(t.journal, r, t.runs[r].params.taskId) {
      StartNotedStays(s.journal, more, r, s.runs[r].params.taskId);
    }
  }

  lemma StartsFrame(s: State, t: State)
    requires StartsOk(s) && t.journal == s.journal && t.tasks.Keys == s.tasks.Keys && |t.runs| == |s.runs|
    requires forall r :: 0 <= r < |s.runs| ==> t.runs[r].params == s.runs[r].params
    ensures StartsOk(t)
  {
  }

  lemma StartsStep(c: Config, s: State, e: Event)
    requires StartsOk(s) && Enabled(c, s, e)
    ensures StartsOk(Apply(c, s, e))
  {
    match e
    case Request(call, params, authenticated) =>
      if Refusal(c, s, params, authenticated).Some? || c.settlement {
        StartsFrame(s, Apply(c, s, e));
      } else {
        LaunchKeepsStarts(s, call, params);
      }
    case Admit(call, ok) =>
      if ok { LaunchKeepsStarts(s, call, s.calls[call].params); } else { StartsFrame(s, Apply(c, s, e)); }
    case HostForget(id) => DropKeepsStarts(s, Performed(s.tasks, Forget(id), s.clock), [id]);
    case HostSweep(before) =>
      var kept := Performed(s.tasks, Sweep(before), s.clock);
      DropKeepsStarts(s, kept, InSomeOrder(s.tasks.Keys - kept.Keys));
    case Tick(_) => StartsFrame(s, Apply(c, s, e));
    case AdmitThrows(_) => StartsFrame(s, Apply(c, s, e));
    case _ => RunEventKeepsStarts(c, s, e);
  }

  ghost predicate SameShape(s: State, t: State) {
    && t.journal == s.journal && t.tasks.Keys == s.tasks.Keys && |t.runs| == |s.runs|
    && forall r :: 0 <= r < |s.runs| ==> t.runs[r].params == s.runs[r].params
  }

  lemma FinishShape(s: State, run: RunId, outcome: Outcome)
    requires run < |s.runs|
    ensures SameShape(s, Finish(s, run, outcome))
  {
  }

  lemma ChangeFinishShape(s: State, run: RunId, r: Run, outcome: Outcome)
    requires run < |s.runs| && r.params == s.runs[run].params
    ensures SameShape(s, Finish(Change(s, run, r), run, outcome))
  {
    FinishShape(Change(s, run, r), run, outcome);
  }

  lemma RunEventKeepsStarts(c: Config, s: State, e: Event)
    requires StartsOk(s) && Enabled(c, s, e)
    requires OfARun(e)
    ensures StartsOk(Apply(c, s, e))
  {
    match e {
      case Resolve(run, output) =>
        ChangeFinishShape(s, run, s.runs[run].(output := Some(output)),
                          if output == "" then FailedBecause(EMPTY) else DeliveredAs(output, None));
      case Reject(run, reason) => FinishShape(s, run, FailedBecause(reason));
      case Expire(run, message) =>
        ChangeFinishShape(s, run, s.runs[run].(deadlineWon := true), FailedBecause(message));
      case DeliverResolves(run, deliverable, reference) =>
        ChangeFinishShape(s, run, s.runs[run].(returned := s.runs[run].returned + [(deliverable, reference)]),
                          if deliverable == "" then FailedBecause(EMPTY) else DeliveredAs(deliverable, reference));
      case DeliverRejects(run, reason) => FinishShape(s, run, FailedBecause(reason));
    }
    StartsFrame(s, Apply(c, s, e));
  }

  lemma CallsStep(c: Config, s: State, e: Event)
    requires CallsOk(c, s) && Enabled(c, s, e)
    ensures CallsOk(c, Apply(c, s, e))
  {
  }

  ghost predicate Inv(c: Config, s: State) {
    OwnersOk(s) && SlotsOk(c, s) && RunsOk(c, s) && CallsOk(c, s) && StartsOk(s) && OwnersStarted(s)
  }

  lemma {:induction false} Invariant(c: Config, events: seq<Event>)
    requires Execute(c, events).Some?
    ensures Inv(c, Execute(c, events).value)
  {
    if events != [] {
      var front, e := events[..|events| - 1], events[|events| - 1];
      Invariant(c, front);
      var s := Execute(c, front).value;
      OwnersStep(c, s, e);
      SlotsStep(c, s, e);
      RunsStep(c, s, e);
      StartsStep(c, s, e);
      CallsStep(c, s, e);
      StartedStep(c, s, e);
    }
  }

  // ----- the results, for every run of events

  /** While its record is kept, a task's handler is started once. */
  lemma OneStartPerRecord(c: Config, events: seq<Event>, i: nat, j: nat)
    requires Execute(c, events).Some?
    requires var journal := Execute(c, events).value.journal;
             i < j < |journal| && journal[i].Started? && journal[j].Started? && journal[i].taskId == journal[j].taskId
    ensures var journal := Execute(c, events).value.journal;
            exists k :: i < k < j && journal[k] == Dropped(journal[i].taskId)
  {
    Invariant(c, events);
    assert DroppedBetween(Execute(c, events).value.journal, i, j);
  }

  /**
   * A run asks the settlement to deliver at most once, its handler's output for its own job, and
   * never when its deadline won.
   */
  lemma DeliverAtMostOnce(c: Config, events: seq<Event>, r: RunId)
    requires Execute(c, events).Some? && r < |Execute(c, events).value.runs|
    ensures var run := Execute(c, events).value.runs[r];
            && |run.delivers| <= 1
            && (run.delivers != [] ==>
                  c.settlement && run.output.Some? && run.delivers[0] == (run.params.jobId, run.output.value)
                  && !run.deadlineWon)
            && (run.deadlineWon ==> run.delivers == [] && run.at.Ended? && run.at.outcome.FailedBecause?)
  {
    Invariant(c, events);
    assert RunOk(c, Execute(c, events).value.runs[r]);
  }

  /**
   * A DELIVERED record carries exactly what the settlement returned for its own run, the one started
   * last for its id, or without a settlement what the handler of that run returned.
   */
  lemma DeliveredCarriesWhatLanded(c: Config, events: seq<Event>, id: string)
    requires Execute(c, events).Some? && id in Execute(c, events).value.tasks
    requires Execute(c, events).value.tasks[id].state.Delivered?
    ensures var s := Execute(c, events).value;
            && id in s.owner && StartedSince(s.journal, s.owner[id], id) && s.owner[id] < |s.runs|
            && var run, record := s.runs[s.owner[id]], s.tasks[id];
               && run.params == record.params && record.deliverable.Some?
               && (if c.settlement
                   then run.returned == [(record.deliverable.value, record.reference)] && |run.delivers| == 1
                   else run.output == record.deliverable)
  {
    Invariant(c, events);
    var s := Execute(c, events).value;
    assert RunOk(c, s.runs[s.owner[id]]);
  }

  /** The slot counter is the number of unfinished runs, within the limit when admission is immediate. */
  lemma SlotsAreCounted(c: Config, events: seq<Event>)
    requires Execute(c, events).Some?
    ensures var s := Execute(c, events).value;
            s.running == ActiveCount(s.runs) && (!c.settlement ==> s.running <= c.maxConcurrent)
  {
    Invariant(c, events);
  }

  /** Every unfinished run has its record, WORKING, so nothing the host may drop is still running. */
  lemma UnfinishedRunsHaveRecords(c: Config, events: seq<Event>, r: RunId)
    requires Execute(c, events).Some? && r < |Execute(c, events).value.runs|
    requires Active(Execute(c, events).value.runs[r])
    ensures var s := Execute(c, events).value;
            var id := s.runs[r].params.taskId;
            id in s.tasks && s.tasks[id].state.Working? && s.tasks[id].params == s.runs[r].params
  {
    Invariant(c, events);
  }

  // ----- capacity, when the chain is asked between the check and the start

  lemma SlotsAndCalls(c: Config, events: seq<Event>)
    requires Execute(c, events).Some?
    ensures SlotsOk(c, Execute(c, events).value) && CallsOk(c, Execute(c, events).value)
  {
    Invariant(c, events);
  }

  /** Only a run started makes `running` go up. */
  lemma RunningGoesUp(c: Config, s: State, e: Event)
    requires CallsOk(c, s) && Enabled(c, s, e)
    ensures Apply(c, s, e).running > s.running <==>
            (e.Admit? && e.ok && s.calls[e.call].params.taskId !in s.tasks)
            || (e.Request? && !c.settlement && Refusal(c, s, e.params, e.authenticated).None?)
    ensures Apply(c, s, e).running <= s.running + 1
  {
  }

  /** The limit is passed exactly when the chain's yes arrives with every slot already taken. */
  lemma LimitPassedExactly(c: Config, events: seq<Event>, e: Event)
    requires Execute(c, events).Some? && Enabled(c, Execute(c, events).value, e)
    requires Execute(c, events).value.running <= c.maxConcurrent
    ensures var s := Execute(c, events).value;
            Apply(c, s, e).running > c.maxConcurrent <==>
            e.Admit? && e.ok && s.calls[e.call].params.taskId !in s.tasks && s.running == c.maxConcurrent
  {
    SlotsAndCalls(c, events);
    RunningGoesUp(c, Execute(c, events).value, e);
  }

  ghost predicate OneAtATime(c: Config, events: seq<Event>) {
    forall k :: 0 <= k < |events| && events[k].Request? && Execute(c, events[..k]).Some? ==>
      NothingPending(Execute(c, events[..k]).value)
  }

  ghost predicate NothingPending(s: State) {
    forall call :: call in s.calls ==> !s.calls[call].Admitting?
  }

  ghost predicate OnePending(c: Config, s: State) {
    && s.running <= c.maxConcurrent
    && (forall x, y :: x in s.calls && y in s.calls && s.calls[x].Admitting? && s.calls[y].Admitting? ==> x == y)
    && (s.running == c.maxConcurrent ==> NothingPending(s))
  }

  lemma RunEventGivesBack(c: Config, s: State, e: Event)
    requires Enabled(c, s, e) && OfARun(e)
    ensures Apply(c, s, e).calls == s.calls && Apply(c, s, e).running <= s.running
  {
  }

  lemma OnePendingStep(c: Config, s: State, e: Event)
    requires OnePending(c, s) && CallsOk(c, s) && Enabled(c, s, e) && (e.Request? ==> NothingPending(s))
    ensures OnePending(c, Apply(c, s, e))
  {
    if OfARun(e) { RunEventGivesBack(c, s, e); } else { CallEventKeepsOnePending(c, s, e); }
  }

  lemma CallEventKeepsOnePending(c: Config, s: State, e: Event)
    requires OnePending(c, s) && CallsOk(c, s) && Enabled(c, s, e) && (e.Request? ==> NothingPending(s)) && !OfARun(e)
    ensures OnePending(c, Apply(c, s, e))
  {
  }

  /** A host that lets one create be asked about at a time keeps the limit with a settlement too. */
  lemma {:induction false} OneAtATimeKeepsLimit(c: Config, events: seq<Event>)
    requires Execute(c, events).Some? && OneAtATime(c, events)
    ensures OnePending(c, Execute(c, events).value)
  {
    if events != [] {
      var n := |events| - 1;
      assert forall k :: 0 <= k < n ==> events[..n][..k] == events[..k];
      OneAtATimeKeepsLimit(c, events[..n]);
      Invariant(c, events[..n]);
      OnePendingStep(c, Execute(c, events[..n]).value, events[n]);
    }
  }

  lemma Extend(c: Config, events: seq<Event>, s: State, e: Event) returns (t: State)
    requires Execute(c, events) == Some(s) && Enabled(c, s, e)
    ensures Execute(c, events + [e]) == Some(t) && t == Apply(c, s, e)
  {
    t := Apply(c, s, e);
    assert (events + [e])[..|events|] == events;
  }

  /** Two creates asked about together: one slot, two runs. */
  lemma LimitCanBePassed()
    ensures exists c: Config, events ::
              c.maxConcurrent == 1 && Execute(c, events).Some? && Execute(c, events).value.running == 2
  {
    var c := Config({"cap"}, {}, 1, false, true);
    var p, q := Params("a", "cap", "x", "did", "1"), Params("b", "cap", "x", "did", "2");
    var s1 := Extend(c, [], Initial(), Request(1, p, None));
    var s2 := Extend(c, [] + [Request(1, p, None)], s1, Request(2, q, None));
    var e2 := [] + [Request(1, p, None)] + [Request(2, q, None)];
    assert s2.calls == map[1 := Admitting(p), 2 := Admitting(q)] && s2.tasks == map[];
    var s3 := Extend(c, e2, s2, Admit(1, true));
    assert "a" in s3.tasks && "b" !in s3.tasks && s3.running == 1;
    var s4 := Extend(c, e2 + [Admit(1, true)], s3, Admit(2, true));
    assert s4.running == 2;
  }
}

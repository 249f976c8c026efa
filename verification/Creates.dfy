/**
 * What the task server answers to a create, and what the end of a run writes: in every history, in
 * terms of the request, the records and the slots alone.
 */
module Creates {
  import opened Capabilities
  import opened Server
  import opened Tasks
  import opened Wrappers

  /** The create is answered, and nothing else happens. */
  ghost predicate OnlyAnswers(s: State, t: State, call: CallId, answer: Answer) {
    t == s.(calls := s.calls[call := Answered(answer)])
  }

  /** The create is answered with a run started: one WORKING record, one slot, one handler. */
  ghost predicate OnlyStarts(s: State, t: State, call: CallId, params: Params) {
    && t.calls == s.calls[call := Answered(Acknowledged(params.taskId, Working, s.clock))]
    && t.tasks == s.tasks[params.taskId := TaskRecord(params, Working, None, None, None, s.clock)]
    && t.runs == s.runs + [Run(params, Handling, None, [], [], false)]
    && t.owner == s.owner[params.taskId := |s.runs|]
    && t.journal == s.journal + [Started(|s.runs|, params.taskId)]
    && t.running == s.running + 1 && t.clock == s.clock
  }

  ghost predicate Complete(params: Params) {
    && params.taskId != "" && params.capability != "" && params.input != ""
    && params.callerDid != "" && params.jobId != ""
  }

  /** The server knows who calls, and it is someone else. */
  ghost predicate InAnothersName(params: Params, authenticated: Option<string>) {
    authenticated.Some? && authenticated.value != params.callerDid
  }

  lemma BadCreateIsRefused(
    c: Config, events: seq<Event>, call: CallId, params: Params, authenticated: Option<string>)
    requires Execute(c, events).Some? && call !in Execute(c, events).value.calls
    requires !Complete(params) || InAnothersName(params, authenticated)
    ensures var s := Execute(c, events).value;
            OnlyAnswers(s, Apply(c, s, Request(call, params, authenticated)), call, InvalidParams)
  {
  }

  /** A create with a used id is given the task as it stands when it repeats it, and is refused when not. */
  lemma RepeatedCreateIsAcknowledged(
    c: Config, events: seq<Event>, call: CallId, params: Params, authenticated: Option<string>)
    requires Execute(c, events).Some? && call !in Execute(c, events).value.calls
    requires Complete(params) && !InAnothersName(params, authenticated)
    requires params.taskId in Execute(c, events).value.tasks
    ensures var s := Execute(c, events).value;
            var record := s.tasks[params.taskId];
            var answer := if params == record.params
                          then Acknowledged(params.taskId, record.state, record.updatedAt) else TaskIdInUse;
            OnlyAnswers(s, Apply(c, s, Request(call, params, authenticated)), call, answer)
  {
  }

  /** A new task is refused for its capability, then for want of a slot; else the chain is asked, or it starts. */
  lemma NewCreateIsDecided(
    c: Config, events: seq<Event>, call: CallId, params: Params, authenticated: Option<string>)
    requires Execute(c, events).Some? && call !in Execute(c, events).value.calls
    requires Complete(params) && !InAnothersName(params, authenticated)
    requires params.taskId !in Execute(c, events).value.tasks
    ensures var s := Execute(c, events).value;
            var t := Apply(c, s, Request(call, params, authenticated));
            if params.capability !in c.offered + c.inherited then OnlyAnswers(s, t, call, CapabilityNotOffered)
            else if s.running >= c.maxConcurrent then OnlyAnswers(s, t, call, Busy)
            else if c.settlement then t == s.(calls := s.calls[call := Admitting(params)])
            else OnlyStarts(s, t, call, params)
  {
    LaunchedRecord(Execute(c, events).value, call, params);
  }

  /** The chain's no and a failing question end the create; its yes starts the run, if the id is still free. */
  lemma AdmissionDecides(c: Config, events: seq<Event>, e: Event)
    requires Execute(c, events).Some? && Enabled(c, Execute(c, events).value, e) && (e.Admit? || e.AdmitThrows?)
    ensures var s := Execute(c, events).value;
            var t := Apply(c, s, e);
            && e.call in s.calls && s.calls[e.call].Admitting?
            && var params := s.calls[e.call].params;
               if e.AdmitThrows? then OnlyAnswers(s, t, e.call, Thrown)
               else if !e.ok then OnlyAnswers(s, t, e.call, JobNotFunded)
               else if params.taskId in s.tasks then OnlyAnswers(s, t, e.call, InvalidParams)
               else OnlyStarts(s, t, e.call, params)
  {
    var s := Execute(c, events).value;
    if s.calls[e.call].params.taskId !in s.tasks { LaunchedRecord(s, e.call, s.calls[e.call].params); }
  }

  // ----- who asked for what runs

  /** A create that carries these parameters, all of them, and nobody else's name. */
  ghost predicate Asks(e: Event, params: Params) {
    e.Request? && e.params == params && Complete(params) && !InAnothersName(params, e.authenticated)
  }

  ghost predicate Asked(events: seq<Event>, params: Params) {
    exists k :: 0 <= k < |events| && Asks(events[k], params)
  }

  ghost predicate AllAsked(events: seq<Event>, s: State) {
    && (forall r :: 0 <= r < |s.runs| ==> Asked(events, s.runs[r].params))
    && (forall call :: call in s.calls && s.calls[call].Admitting? ==> Asked(events, s.calls[call].params))
  }

  lemma AskedStays(events: seq<Event>, e: Event, params: Params)
    requires Asked(events, params) || Asks(e, params)
    ensures Asked(events + [e], params)
  {
    if Asks(e, params) {
      assert (events + [e])[|events|] == e;
    } else {
      var k :| 0 <= k < |events| && Asks(events[k], params);
      assert (events + [e])[k] == events[k];
    }
  }

  /** Every run a step leaves was there before, or was waiting, or is asked for by the step. */
  ghost predicate FromBefore(s: State, t: State, e: Event) {
    && (forall r :: 0 <= r < |t.runs| ==>
          || (r < |s.runs| && t.runs[r].params == s.runs[r].params)
          || (e.Admit? && e.call in s.calls && s.calls[e.call].Admitting? && t.runs[r].params == s.calls[e.call].params)
          || Asks(e, t.runs[r].params))
    && (forall call :: call in t.calls && t.calls[call].Admitting? ==>
          (call in s.calls && s.calls[call] == t.calls[call]) || Asks(e, t.calls[call].params))
  }

  lemma StepFromBefore(c: Config, s: State, e: Event)
    requires Enabled(c, s, e)
    ensures FromBefore(s, Apply(c, s, e), e)
  {
    if OfARun(e) { RunEventKeepsParams(c, s, e); } else { CallFromBefore(c, s, e); }
  }

  lemma CallFromBefore(c: Config, s: State, e: Event)
    requires Enabled(c, s, e) && !OfARun(e)
    ensures FromBefore(s, Apply(c, s, e), e)
  {
  }

  lemma AskedStep(events: seq<Event>, s: State, t: State, e: Event)
    requires AllAsked(events, s) && FromBefore(s, t, e)
    ensures AllAsked(events + [e], t)
  {
    forall r | 0 <= r < |t.runs| ensures Asked(events + [e], t.runs[r].params) {
      AskedStays(events, e, t.runs[r].params);
    }
    forall call | call in t.calls && t.calls[call].Admitting? ensures Asked(events + [e], t.calls[call].params) {
      AskedStays(events, e, t.calls[call].params);
    }
  }

  /** Whatever runs was asked for by a complete create in the caller's own name. */
  lemma {:induction false} RunsWereAskedFor(c: Config, events: seq<Event>)
    requires Execute(c, events).Some?
    ensures AllAsked(events, Execute(c, events).value)
  {
    if events != [] {
      var front, e := events[..|events| - 1], events[|events| - 1];
      RunsWereAskedFor(c, front);
      StepFromBefore(c, Execute(c, front).value, e);
      AskedStep(front, Execute(c, front).value, Execute(c, events).value, e);
      assert front + [e] == events;
    }
  }

  // ----- how a run ends

  /** The run ends, its slot is given back, and its record alone changes: to `state`, with what it carries. */
  ghost predicate OnlyEnds(
    s: State, t: State, run: RunId, state: TaskState,
    deliverable: Option<string>, reference: Option<string>, reason: Option<string>)
    requires run < |s.runs|
  {
    var params := s.runs[run].params;
    && t.tasks == s.tasks[params.taskId := TaskRecord(params, state, deliverable, reference, reason, s.clock)]
    && t.running == s.running - 1
    && |t.runs| == |s.runs| && t.runs[run].at.Ended?
    && (forall r :: 0 <= r < |s.runs| && r != run ==> t.runs[r] == s.runs[r])
    && t.calls == s.calls && t.journal == s.journal && t.owner == s.owner && t.clock == s.clock
  }

  /** An empty deliverable is refused by the machine, and its refusal fails the task. */
  ghost predicate OnlyDelivers(s: State, t: State, run: RunId, deliverable: string, reference: Option<string>)
    requires run < |s.runs|
  {
    if deliverable == ""
    then OnlyEnds(s, t, run, Failed, None, None, Some("deliver (empty deliverable)"))
    else OnlyEnds(s, t, run, Delivered, Some(deliverable), reference, None)
  }

  /** The record of a run that has not ended says nothing yet. */
  lemma UnfinishedRecord(c: Config, events: seq<Event>, run: RunId)
    requires Execute(c, events).Some? && run < |Execute(c, events).value.runs|
    requires Active(Execute(c, events).value.runs[run])
    ensures var s := Execute(c, events).value;
            var params := s.runs[run].params;
            && params.taskId in s.tasks
            && s.tasks[params.taskId] == TaskRecord(params, Working, None, None, None, s.tasks[params.taskId].updatedAt)
  {
    Invariant(c, events);
    RecordsAreBare(c, events);
  }

  /** A WORKING record carries nothing. */
  ghost predicate Bare(s: State) {
    forall id :: id in s.tasks && s.tasks[id].state.Working? ==>
      s.tasks[id].deliverable.None? && s.tasks[id].reference.None? && s.tasks[id].reason.None?
  }

  lemma BareStep(c: Config, s: State, e: Event)
    requires Bare(s) && Enabled(c, s, e)
    ensures Bare(Apply(c, s, e))
  {
    if OfARun(e) { RunEventKeepsBare(c, s, e); } else { CallKeepsBare(c, s, e); }
  }

  lemma CallKeepsBare(c: Config, s: State, e: Event)
    requires Bare(s) && Enabled(c, s, e) && !OfARun(e)
    ensures Bare(Apply(c, s, e))
  {
  }

  lemma FinishKeepsBare(s: State, run: RunId, outcome: Outcome)
    requires Bare(s) && run < |s.runs|
    ensures Bare(Finish(s, run, outcome))
  {
  }

  lemma RunEventKeepsBare(c: Config, s: State, e: Event)
    requires Bare(s) && Enabled(c, s, e) && OfARun(e)
    ensures Bare(Apply(c, s, e))
  {
    match e
    case Resolve(run, output) =>
      var t := Change(s, run, s.runs[run].(output := Some(output)));
      DeliveryKeepsBare(t, run, output, None);
    case Reject(run, reason) => FinishKeepsBare(s, run, FailedBecause(reason));
    case Expire(run, message) =>
      FinishKeepsBare(Change(s, run, s.runs[run].(deadlineWon := true)), run, FailedBecause(message));
    case DeliverResolves(run, deliverable, reference) =>
      var r := s.runs[run].(returned := s.runs[run].returned + [(deliverable, reference)]);
      DeliveryKeepsBare(Change(s, run, r), run, deliverable, reference);
    case DeliverRejects(run, reason) => FinishKeepsBare(s, run, FailedBecause(reason));
  }

  lemma DeliveryKeepsBare(s: State, run: RunId, deliverable: string, reference: Option<string>)
    requires Bare(s) && run < |s.runs|
    ensures Bare(FinishDelivered(s, run, deliverable, reference))
  {
    FinishKeepsBare(s, run, FailedBecause(EMPTY));
    FinishKeepsBare(s, run, DeliveredAs(deliverable, reference));
  }

  lemma {:induction false} RecordsAreBare(c: Config, events: seq<Event>)
    requires Execute(c, events).Some?
    ensures Bare(Execute(c, events).value)
  {
    if events != [] {
      RecordsAreBare(c, events[..|events| - 1]);
      BareStep(c, Execute(c, events[..|events| - 1]).value, events[|events| - 1]);
    }
  }

  lemma FailureIsRecorded(c: Config, events: seq<Event>, e: Event)
    requires Execute(c, events).Some? && Enabled(c, Execute(c, events).value, e)
    requires e.Reject? || e.DeliverRejects? || e.Expire?
    ensures var s := Execute(c, events).value;
            OnlyEnds(s, Apply(c, s, e), e.run, Failed, None, None, Some(if e.Expire? then e.message else e.reason))
  {
    UnfinishedRecord(c, events, e.run);
  }

  /** Without a settlement the handler's output is delivered; with one the settlement is asked to deliver it. */
  lemma OutputIsDelivered(c: Config, events: seq<Event>, run: RunId, output: string)
    requires Execute(c, events).Some? && Enabled(c, Execute(c, events).value, Resolve(run, output))
    ensures var s := Execute(c, events).value;
            var t := Apply(c, s, Resolve(run, output));
            if c.settlement
            then t == s.(runs := s.runs[run := s.runs[run].(
                   at := Delivering(output), output := Some(output),
                   delivers := s.runs[run].delivers + [(s.runs[run].params.jobId, output)])])
            else OnlyDelivers(s, t, run, output, None)
  {
    UnfinishedRecord(c, events, run);
  }

  lemma WhatLandedIsDelivered(
    c: Config, events: seq<Event>, run: RunId, deliverable: string, reference: Option<string>)
    requires Execute(c, events).Some?
    requires Enabled(c, Execute(c, events).value, DeliverResolves(run, deliverable, reference))
    ensures var s := Execute(c, events).value;
            OnlyDelivers(s, Apply(c, s, DeliverResolves(run, deliverable, reference)), run, deliverable, reference)
  {
    UnfinishedRecord(c, events, run);
  }

  // ----- what the host drops

  /** `forget` drops one finished record; `sweep` drops the old ones that owe the chain nothing. */
  lemma HostDropsOnly(c: Config, events: seq<Event>, e: Event)
    requires Execute(c, events).Some? && Enabled(c, Execute(c, events).value, e) && (e.HostForget? || e.HostSweep?)
    ensures var s := Execute(c, events).value;
            var t := Apply(c, s, e);
            && (forall id :: id in t.tasks ==> id in s.tasks && t.tasks[id] == s.tasks[id])
            && (forall id :: id in s.tasks ==> (id !in t.tasks <==>
                  if e.HostForget? then id == e.taskId && s.tasks[id].state in {Delivered, Failed, Cancelled}
                  else s.tasks[id].state in {Failed, Cancelled} && s.tasks[id].updatedAt < e.before))
            && t.running == s.running && t.runs == s.runs && t.calls == s.calls
  {
  }
}

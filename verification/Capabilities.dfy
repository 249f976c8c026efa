/**
 * Which capabilities the task server runs: those that a lookup in the record of handlers finds, the
 * ones it offers and the ones it inherits.
 */
module Capabilities {
  import opened Server
  import opened Tasks
  import opened Wrappers

  predicate Servable(c: Config, params: Params) {
    params.capability != "" && Offered(c, params.capability)
  }

  ghost predicate OnlyServable(c: Config, s: State) {
    && (forall r :: 0 <= r < |s.runs| ==> Servable(c, s.runs[r].params))
    && (forall call :: call in s.calls && s.calls[call].Admitting? ==> Servable(c, s.calls[call].params))
  }

  lemma LaunchKeepsServable(c: Config, s: State, call: CallId, params: Params)
    requires OnlyServable(c, s) && Servable(c, params)
    ensures OnlyServable(c, Launch(s, call, params))
  {
  }

  lemma RunEventKeepsParams(c: Config, s: State, e: Event)
    requires Enabled(c, s, e) && OfARun(e)
    ensures var t := Apply(c, s, e);
            && t.calls == s.calls && |t.runs| == |s.runs|
            && forall r :: 0 <= r < |s.runs| ==> t.runs[r].params == s.runs[r].params
  {
  }

  lemma ServableStep(c: Config, s: State, e: Event)
    requires OnlyServable(c, s) && Enabled(c, s, e)
    ensures OnlyServable(c, Apply(c, s, e))
  {
    match e
    case Request(call, params, authenticated) =>
      if Refusal(c, s, params, authenticated).None? { LaunchKeepsServable(c, s, call, params); }
    case Admit(call, _) => LaunchKeepsServable(c, s, call, s.calls[call].params);
    case Tick(_) =>
    case AdmitThrows(_) =>
    case HostForget(_) =>
    case HostSweep(_) =>
    case _ => RunEventKeepsParams(c, s, e);
  }

  /** Whatever runs, a lookup in the record of handlers found: it is offered, or inherited. */
  lemma {:induction false} OnlyOfferedRuns(c: Config, events: seq<Event>)
    requires Execute(c, events).Some?
    ensures OnlyServable(c, Execute(c, events).value)
  {
    if events != [] {
      var front := events[..|events| - 1];
      OnlyOfferedRuns(c, front);
      ServableStep(c, Execute(c, front).value, events[|events| - 1]);
    }
  }

  /** Some number is not among finitely many. */
  lemma FreshCall(calls: set<CallId>) returns (call: CallId)
    ensures call !in calls
  {
    call := 0;
    var rest := calls;
    while rest != {}
      invariant rest <= calls
      invariant forall x :: x in calls && x !in rest ==> x < call
      decreases |rest|
    {
      var x :| x in rest;
      if x >= call { call := x + 1; }
      rest := rest - {x};
    }
  }

  /** The history goes on, and the run of such a task is started. */
  ghost predicate Starts(c: Config, events: seq<Event>, more: seq<Event>, params: Params)
    requires Execute(c, events).Some?
  {
    && Execute(c, events + more).Some?
    && Execute(c, events + more).value.runs == Execute(c, events).value.runs + [NewRun(params)]
  }

  /**
   * From any history with a free slot and an unused id, whatever the lookup finds can be started: an
   * inherited name as well as an offered one.
   */
  lemma OfferedCanStart(c: Config, events: seq<Event>, params: Params)
    requires Execute(c, events).Some? && Execute(c, events).value.running < c.maxConcurrent
    requires params.taskId !in Execute(c, events).value.tasks
    requires params.taskId != "" && params.input != "" && params.callerDid != "" && params.jobId != ""
    requires Servable(c, params)
    ensures exists more :: Starts(c, events, more, params)
  {
    var s := Execute(c, events).value;
    var call := FreshCall(s.calls.Keys);
    var request := Request(call, params, None);
    var t := Extend(c, events, s, request);
    if c.settlement {
      var u := Extend(c, events + [request], t, Admit(call, true));
      assert events + [request] + [Admit(call, true)] == events + [request, Admit(call, true)];
      assert Starts(c, events, [request, Admit(call, true)], params);
    } else {
      assert Starts(c, events, [request], params);
    }
  }

  ghost predicate NothingUnofferedRuns(c: Config) {
    forall events, r :: Execute(c, events).Some? && 0 <= r < |Execute(c, events).value.runs| ==>
      Execute(c, events).value.runs[r].params.capability in c.offered
  }

  lemma {:induction false} NothingRunsWithoutSlots(c: Config, events: seq<Event>)
    requires Execute(c, events).Some? && c.maxConcurrent == 0
    ensures var s := Execute(c, events).value;
            s.runs == [] && s.running == 0 && forall call :: call in s.calls ==> !s.calls[call].Admitting?
  {
    if events != [] { NothingRunsWithoutSlots(c, events[..|events| - 1]); }
  }

  /** Nothing runs that is not offered, exactly when every name the record of handlers inherits is. */
  lemma UnofferedRunsExactly(c: Config)
    ensures NothingUnofferedRuns(c) <==>
            c.maxConcurrent == 0 || forall name :: name in c.inherited && name != "" ==> name in c.offered
  {
    if c.maxConcurrent == 0 {
      forall events | Execute(c, events).Some? ensures Execute(c, events).value.runs == [] {
        NothingRunsWithoutSlots(c, events);
      }
    } else if name :| name in c.inherited && name != "" && name !in c.offered {
      UnofferedRuns(c, name);
    } else {
      forall events, r | Execute(c, events).Some? && 0 <= r < |Execute(c, events).value.runs|
        ensures Execute(c, events).value.runs[r].params.capability in c.offered
      {
        OnlyOfferedRuns(c, events);
        assert Servable(c, Execute(c, events).value.runs[r].params);
      }
    }
  }

  lemma UnofferedRuns(c: Config, name: string)
    requires c.maxConcurrent > 0 && name in c.inherited && name != "" && name !in c.offered
    ensures !NothingUnofferedRuns(c)
  {
    var params := Params("a", name, "x", "did", "1");
    assert Execute(c, []).Some? && Execute(c, []).value == Initial();
    OfferedCanStart(c, [], params);
    var more :| Starts(c, [], more, params);
    assert Execute(c, [] + more).value.runs[0].params.capability == name;
  }
}

/**
 * The failover transport: endpoints tried in order, cooled down after failures in a row, with any
 * number of requests in flight. A step is what one request does between two awaits.
 */
module Failover {
  import opened Wrappers

  datatype Config = Config(threshold: nat, base: nat, maxBackoff: nat, count: nat) {
    predicate Valid() { threshold >= 1 && count >= 1 }
  }

  datatype Endpoint = Endpoint(failures: nat, cooldownUntil: Option<int>)

  function Backoff(c: Config, k: nat): nat {
    if c.base * Pow2(k) < c.maxBackoff then c.base * Pow2(k) else c.maxBackoff
  }

  predicate Cooling(e: Endpoint, now: int) {
    e.cooldownUntil.Some? && e.cooldownUntil.value > now
  }

  /**
   * Endpoint `i` is passed over: it cools, and one that follows does not. The clock is read for each
   * endpoint asked about, `clock[k]` for endpoint `i + k`.
   */
  predicate Skips(endpoints: seq<Endpoint>, i: nat, clock: seq<int>)
    requires i < |endpoints| && |clock| == |endpoints| - i
  {
    Cooling(endpoints[i], clock[0]) && exists k :: 1 <= k < |clock| && !Cooling(endpoints[i + k], clock[k])
  }

  function Failed(c: Config, e: Endpoint, now: int): Endpoint {
    var failures := e.failures + 1;
    Endpoint(failures, if failures < c.threshold then e.cooldownUntil
                       else Some(now + Backoff(c, failures - c.threshold)))
  }

  // ----- the two records

  /** What one request carries from endpoint to endpoint. */
  class AttemptTrail {
    var counted: set<nat>

    constructor ()
      ensures counted == {}
    {
      counted := {};
    }
  }

  class Ledger {
    const config: Config
    var endpoints: seq<Endpoint>

    constructor (config: Config)
      ensures this.config == config && |endpoints| == config.count
      ensures forall i :: 0 <= i < |endpoints| ==> endpoints[i] == Endpoint(0, None)
    {
      this.config := config;
      endpoints := seq(config.count, i => Endpoint(0, None));
    }

    method RecordSuccess(attempt: AttemptTrail?, i: nat)
      requires i < |endpoints|
      modifies this, attempt
      ensures endpoints == old(endpoints)[i := Endpoint(0, None)]
      ensures attempt != null ==> attempt.counted == old(attempt.counted) - {i}
    {
      endpoints := endpoints[i := endpoints[i].(failures := 0)];
      endpoints := endpoints[i := endpoints[i].(cooldownUntil := None)];
      if attempt != null { attempt.counted := attempt.counted - {i}; }
    }

    method RecordFailure(attempt: AttemptTrail?, i: nat, now: int)
      requires i < |endpoints| && config.Valid()
      modifies this, attempt
      ensures attempt != null ==> attempt.counted == old(attempt.counted) + {i}
      ensures endpoints ==
              if attempt != null && i in old(attempt.counted) then old(endpoints)
              else old(endpoints)[i := Failed(config, old(endpoints)[i], now)]
    {
      if attempt != null {
        if i in attempt.counted { return; }
        attempt.counted := attempt.counted + {i};
      }
      endpoints := endpoints[i := endpoints[i].(failures := endpoints[i].failures + 1)];
      if endpoints[i].failures < config.threshold { return; }
      var exponent := endpoints[i].failures - config.threshold;
      endpoints := endpoints[i := endpoints[i].(cooldownUntil := Some(now + Backoff(config, exponent)))];
    }
  }

  // ----- requests in flight

  datatype Phase = Trying(i: nat) | Waiting(i: nat) | Answered | Threw

  datatype Request = Request(phase: Phase, counted: set<nat>, lastFailure: Option<nat>, pass: nat)

  datatype Event =
    | Started(r: nat)
    | Skipped(r: nat, i: nat, clock: seq<int>)
    | Called(r: nat, i: nat, clock: seq<int>, pass: nat, from: Option<nat>)
    | Succeeded(r: nat, i: nat)
    | Faulted(r: nat, i: nat, now: int)   // every error that is the endpoint's fault, counted or not

  datatype State = State(now: int, endpoints: seq<Endpoint>, requests: map<nat, Request>, log: seq<Event>)

  datatype Step =
    | Start(r: nat)
    | Skip(r: nat, clock: seq<int>)
    | Call(r: nat, clock: seq<int>)
    | Success(r: nat)
    /** `endpointsFault`: the error counts; `movesOn`: the fallback tries the next endpoint */
    | Failure(r: nat, endpointsFault: bool, now: int, movesOn: bool)
    /** the caller asked for retries: the list again, under the same trail */
    | Retry(r: nat)

  function Initial(c: Config): State {
    State(0, seq(c.count, i => Endpoint(0, None)), map[], [])
  }

  predicate Readings(s: State, i: nat, clock: seq<int>) {
    && i < |s.endpoints| && |clock| == |s.endpoints| - i
    && s.now <= clock[0] && forall k :: 1 <= k < |clock| ==> clock[0] <= clock[k]
  }

  predicate Enabled(c: Config, s: State, step: Step) {
    match step
    case Start(r) => r !in s.requests
    case Skip(r, clock) =>
      r in s.requests && s.requests[r].phase.Trying?
      && Readings(s, s.requests[r].phase.i, clock) && Skips(s.endpoints, s.requests[r].phase.i, clock)
    case Call(r, clock) =>
      r in s.requests && s.requests[r].phase.Trying?
      && Readings(s, s.requests[r].phase.i, clock) && !Skips(s.endpoints, s.requests[r].phase.i, clock)
    case Success(r) => r in s.requests && s.requests[r].phase.Waiting? && s.requests[r].phase.i < |s.endpoints|
    case Failure(r, _, now, movesOn) =>
      r in s.requests && s.requests[r].phase.Waiting? && s.requests[r].phase.i < |s.endpoints| && s.now <= now
      && (movesOn ==> s.requests[r].phase.i + 1 < |s.endpoints|)
    case Retry(r) => r in s.requests && s.requests[r].phase.Threw?
  }

  /** What the request that takes the step becomes. */
  function RequestAfter(c: Config, s: State, step: Step): Request
    requires Enabled(c, s, step)
  {
    if step.Start? then Request(Trying(0), {}, None, 0)
    else
      var q := s.requests[step.r];
      match step
      case Skip(_, _) => q.(phase := Trying(q.phase.i + 1))
      case Call(_, _) => q.(phase := Waiting(q.phase.i), lastFailure := None)
      case Success(_) => q.(phase := Answered, counted := q.counted - {q.phase.i})
      case Failure(_, endpointsFault, _, movesOn) =>
        var phase := if movesOn then Trying(q.phase.i + 1) else Threw;
        if endpointsFault then q.(phase := phase, counted := q.counted + {q.phase.i}, lastFailure := Some(q.phase.i))
        else q.(phase := phase)
      case Retry(_) => q.(phase := Trying(0), pass := q.pass + 1)
  }

  /** What the step is logged as; an error that is not the endpoint's fault is not. */
  function EventOf(c: Config, s: State, step: Step): (e: Option<Event>)
    requires Enabled(c, s, step)
    ensures e.Some? ==> e.value.r == step.r
  {
    match step
    case Start(r) => Some(Started(r))
    case Skip(r, clock) => Some(Skipped(r, s.requests[r].phase.i, clock))
    case Call(r, clock) =>
      Some(Called(r, s.requests[r].phase.i, clock, s.requests[r].pass, s.requests[r].lastFailure))
    case Success(r) => Some(Succeeded(r, s.requests[r].phase.i))
    case Failure(r, endpointsFault, now, _) =>
      if endpointsFault then Some(Faulted(r, s.requests[r].phase.i, now)) else None
    case Retry(r) => Some(Started(r))
  }

  function EndpointsAfter(c: Config, s: State, step: Step): seq<Endpoint>
    requires Enabled(c, s, step)
  {
    match step
    case Success(r) => s.endpoints[s.requests[r].phase.i := Endpoint(0, None)]
    case Failure(r, endpointsFault, now, _) =>
      var q := s.requests[r];
      if !endpointsFault || q.phase.i in q.counted then s.endpoints
      else s.endpoints[q.phase.i := Failed(c, s.endpoints[q.phase.i], now)]
    case _ => s.endpoints
  }

  function NowAfter(c: Config, s: State, step: Step): int
    requires Enabled(c, s, step)
  {
    match step
    case Skip(_, clock) => clock[0]
    case Call(_, clock) => clock[0]
    case Failure(_, _, now, _) => now
    case _ => s.now
  }

  function Logged(log: seq<Event>, e: Option<Event>): seq<Event> {
    if e.Some? then log + [e.value] else log
  }

  function Next(c: Config, s: State, step: Step): State
    requires Enabled(c, s, step)
  {
    State(NowAfter(c, s, step), EndpointsAfter(c, s, step), s.requests[step.r := RequestAfter(c, s, step)],
          Logged(s.log, EventOf(c, s, step)))
  }

  /** The state after the steps; None when one of them was not enabled. */
  function After(c: Config, steps: seq<Step>): Option<State> {
    if steps == [] then Some(Initial(c))
    else
      var before := After(c, steps[..|steps| - 1]);
      if before.Some? && Enabled(c, before.value, steps[|steps| - 1])
      then Some(Next(c, before.value, steps[|steps| - 1])) else None
  }

  ghost predicate Run(c: Config, steps: seq<Step>, s: State) {
    After(c, steps) == Some(s)
  }

  // ----- what a log says

  datatype Miss = Miss(r: nat, now: int)

  /** The requests that endpoint `i` failed and has not answered since. */
  function Outstanding(log: seq<Event>, i: nat): set<nat> {
    if log == [] then {}
    else
      var before, e := Outstanding(log[..|log| - 1], i), log[|log| - 1];
      if e.Succeeded? && e.i == i then before - {e.r}
      else if e.Faulted? && e.i == i then before + {e.r}
      else before
  }

  /**
   * Since anyone last had an answer from endpoint `i`: the failures of requests that had none
   * outstanding there.
   */
  function Streak(log: seq<Event>, i: nat): seq<Miss> {
    if log == [] then []
    else
      var front, e := log[..|log| - 1], log[|log| - 1];
      if e.Succeeded? && e.i == i then []
      else if e.Faulted? && e.i == i && e.r !in Outstanding(front, i) then Streak(front, i) + [Miss(e.r, e.now)]
      else Streak(front, i)
  }

  /** The requests that endpoint `i` failed since anyone last had an answer from it. */
  function Faulters(log: seq<Event>, i: nat): set<nat> {
    if log == [] then {}
    else
      var before, e := Faulters(log[..|log| - 1], i), log[|log| - 1];
      if e.Succeeded? && e.i == i then {}
      else if e.Faulted? && e.i == i then before + {e.r}
      else before
  }

  /** Those that had a failure outstanding when endpoint `i` last answered another. */
  function Excused(log: seq<Event>, i: nat): set<nat> {
    if log == [] then {}
    else
      var e := log[|log| - 1];
      if e.Succeeded? && e.i == i then Outstanding(log, i) else Excused(log[..|log| - 1], i)
  }

  function Requests(streak: seq<Miss>): set<nat> {
    if streak == [] then {} else Requests(streak[..|streak| - 1]) + {streak[|streak| - 1].r}
  }

  lemma OneMoreRequest(streak: seq<Miss>, miss: Miss)
    ensures Requests(streak + [miss]) == Requests(streak) + {miss.r}
  {
    assert (streak + [miss])[..|streak|] == streak;
  }

  /** A streak has one failure of each request that failed since the last answer and is not excused. */
  lemma {:induction false} StreakCounts(log: seq<Event>, i: nat)
    ensures Outstanding(log, i) == Faulters(log, i) + Excused(log, i)
    ensures Requests(Streak(log, i)) == Faulters(log, i) - Excused(log, i)
    ensures |Requests(Streak(log, i))| == |Streak(log, i)|
  {
    if log != [] {
      var front, e := log[..|log| - 1], log[|log| - 1];
      StreakCounts(front, i);
      if e.Faulted? && e.i == i {
        OneMoreRequest(Streak(front, i), Miss(e.r, e.now));
        OneMoreFaulter(Faulters(front, i), Excused(front, i), e.r);
      }
    }
  }

  lemma OneMoreFaulter(faulters: set<nat>, excused: set<nat>, r: nat)
    ensures if r in faulters + excused then faulters + {r} - excused == faulters - excused
            else faulters + {r} - excused == faulters - excused + {r} && r !in faulters - excused
  {
  }

  datatype Visit = Visit(i: nat, called: bool)

  /** The endpoints request `r` came to in its present pass over the list. */
  function Visits(log: seq<Event>, r: nat): seq<Visit> {
    if log == [] then []
    else
      var before, e := Visits(log[..|log| - 1], r), log[|log| - 1];
      if e.r != r then before
      else match e
           case Started(_) => []
           case Skipped(_, i, _) => before + [Visit(i, false)]
           case Called(_, i, _, _, _) => before + [Visit(i, true)]
           case _ => before
  }

  /** The health an endpoint has after a streak of failures: a closed form, with no step in it. */
  function HealthOf(c: Config, streak: seq<Miss>): Endpoint {
    Endpoint(|streak|, if |streak| < c.threshold || streak == [] then None
                       else Some(streak[|streak| - 1].now + Backoff(c, |streak| - c.threshold)))
  }

  function HealthsOf(c: Config, log: seq<Event>): seq<Endpoint> {
    seq(c.count, i requires 0 <= i => HealthOf(c, Streak(log, i)))
  }

  lemma Appended(log: seq<Event>, e: Option<Event>)
    requires e.Some?
    ensures var more := Logged(log, e);
            |more| == |log| + 1 && more[..|log|] == log && more[|log|] == e.value
  {
  }

  // ----- endpoints

  ghost predicate EndpointsFollow(c: Config, s: State) {
    s.endpoints == HealthsOf(c, s.log)
  }

  lemma EndpointsStep(c: Config, s: State, step: Step)
    requires c.Valid() && EndpointsFollow(c, s) && CountedIsOutstanding(s) && Enabled(c, s, step)
    ensures EndpointsFollow(c, Next(c, s, step))
  {
    var t := Next(c, s, step);
    if EventOf(c, s, step).Some? {
      Appended(s.log, EventOf(c, s, step));
      forall i: nat | i < c.count ensures t.endpoints[i] == HealthOf(c, Streak(t.log, i)) {
        assert s.endpoints[i] == HealthOf(c, Streak(s.log, i));
      }
      assert |t.endpoints| == c.count;
    }
  }

  // ----- streaks

  /** Each failure of the streak is another request's, and none is later than now. */
  ghost predicate StreakFits(streak: seq<Miss>, requests: map<nat, Request>, i: nat, now: int) {
    && (forall k :: 0 <= k < |streak| ==>
          streak[k].r in requests && i in requests[streak[k].r].counted && streak[k].now <= now)
    && (forall j, k :: 0 <= j < k < |streak| ==> streak[j].r != streak[k].r && streak[j].now <= streak[k].now)
  }

  ghost predicate StreaksFit(s: State) {
    forall i: nat :: StreakFits(Streak(s.log, i), s.requests, i, s.now)
  }

  /** Nobody uncounts a failure of endpoint `i`, and time does not go back. */
  ghost predicate Kept(s: State, t: State, i: nat) {
    && s.now <= t.now
    && forall r :: r in s.requests ==>
         r in t.requests && (i in s.requests[r].counted ==> i in t.requests[r].counted)
  }

  /** A step ends the streak, adds the failure of a request not in it, or leaves it. */
  lemma StreakMoves(c: Config, s: State, step: Step, i: nat)
    requires CountedIsOutstanding(s) && Enabled(c, s, step)
    ensures var t := Next(c, s, step);
            var was, now := Streak(s.log, i), Streak(t.log, i);
            || now == []
            || (Kept(s, t, i) && now == was)
            || (Kept(s, t, i) && now == was + [Miss(step.r, t.now)] && step.r in s.requests
                && i !in s.requests[step.r].counted && i in t.requests[step.r].counted)
  {
    var t := Next(c, s, step);
    if EventOf(c, s, step).Some? { Appended(s.log, EventOf(c, s, step)); }
  }

  lemma KeptStreakFits(s: State, t: State, streak: seq<Miss>, i: nat)
    requires StreakFits(streak, s.requests, i, s.now) && Kept(s, t, i)
    ensures StreakFits(streak, t.requests, i, t.now)
  {
  }

  lemma LongerStreakFits(streak: seq<Miss>, requests: map<nat, Request>, i: nat, r: nat, now: int)
    requires StreakFits(streak, requests, i, now)
    requires r in requests && i in requests[r].counted && forall k :: 0 <= k < |streak| ==> streak[k].r != r
    ensures StreakFits(streak + [Miss(r, now)], requests, i, now)
  {
  }

  lemma StreakStep(c: Config, s: State, step: Step, i: nat)
    requires StreakFits(Streak(s.log, i), s.requests, i, s.now) && CountedIsOutstanding(s) && Enabled(c, s, step)
    ensures var t := Next(c, s, step);
            StreakFits(Streak(t.log, i), t.requests, i, t.now)
  {
    var t := Next(c, s, step);
    var was, now := Streak(s.log, i), Streak(t.log, i);
    StreakMoves(c, s, step, i);
    if now != [] {
      KeptStreakFits(s, t, was, i);
      if now != was { LongerStreakFits(was, t.requests, i, step.r, t.now); }
    }
  }

  lemma StreaksStep(c: Config, s: State, step: Step)
    requires StreaksFit(s) && CountedIsOutstanding(s) && Enabled(c, s, step)
    ensures StreaksFit(Next(c, s, step))
  {
    var t := Next(c, s, step);
    forall i: nat ensures StreakFits(Streak(t.log, i), t.requests, i, t.now) {
      StreakStep(c, s, step, i);
    }
  }

  // ----- one failure for a request

  /** A request's trail holds the endpoints that failed it and have not answered it since. */
  ghost predicate CountedIsOutstanding(s: State) {
    forall r: nat, i: nat :: r in Outstanding(s.log, i) <==> r in s.requests && i in s.requests[r].counted
  }

  lemma CountedStep(c: Config, s: State, step: Step)
    requires CountedIsOutstanding(s) && Enabled(c, s, step)
    ensures CountedIsOutstanding(Next(c, s, step))
  {
    var t := Next(c, s, step);
    forall r: nat, i: nat ensures r in Outstanding(t.log, i) <==> r in t.requests && i in t.requests[r].counted {
      assert r in Outstanding(s.log, i) <==> r in s.requests && i in s.requests[r].counted;
      if EventOf(c, s, step).Some? { Appended(s.log, EventOf(c, s, step)); }
    }
  }

  /** A failure stays outstanding until the request has its own answer. */
  lemma {:induction false} StillOutstanding(log: seq<Event>, j: nat, k: nat)
    requires j < k <= |log| && log[j].Faulted?
    requires forall m :: j < m < k ==> log[m] != Succeeded(log[j].r, log[j].i)
    ensures log[j].r in Outstanding(log[..k], log[j].i)
    decreases k
  {
    assert log[..k][..k - 1] == log[..k - 1];
    if j < k - 1 { StillOutstanding(log, j, k - 1); }
  }

  // ----- passes over the list

  predicate InOrder(visits: seq<Visit>) {
    forall k :: 0 <= k < |visits| ==> visits[k].i == k
  }

  /** Where a request is in the list; once the pass is over, it ended with a call. */
  predicate PassFits(q: Request, visits: seq<Visit>, count: nat) {
    && InOrder(visits) && |visits| <= count
    && match q.phase
       case Trying(i) => i < count && |visits| == i
       case Waiting(i) => |visits| == i + 1 && visits[i].called
       case _ => visits != [] && visits[|visits| - 1].called
  }

  /** In the first pass, the failure a request carries is of an endpoint before the one it is at. */
  predicate Carries(q: Request) {
    && (q.phase.Waiting? ==> q.lastFailure.None?)
    && (q.phase.Trying? && q.pass == 0 && q.lastFailure.Some? ==> q.lastFailure.value < q.phase.i)
  }

  ghost predicate PassesFit(c: Config, s: State) {
    && |s.endpoints| == c.count
    && forall r :: r in s.requests ==> PassFits(s.requests[r], Visits(s.log, r), c.count) && Carries(s.requests[r])
  }

  lemma PassStep(c: Config, s: State, step: Step)
    requires c.Valid() && |s.endpoints| == c.count && Enabled(c, s, step)
    requires step.r in s.requests ==>
               PassFits(s.requests[step.r], Visits(s.log, step.r), c.count) && Carries(s.requests[step.r])
    ensures var t := Next(c, s, step);
            && step.r in t.requests && |t.endpoints| == c.count
            && PassFits(t.requests[step.r], Visits(t.log, step.r), c.count) && Carries(t.requests[step.r])
  {
    var t := Next(c, s, step);
    if EventOf(c, s, step).Some? { Appended(s.log, EventOf(c, s, step)); }
  }

  lemma OthersStep(c: Config, s: State, step: Step, r: nat)
    requires Enabled(c, s, step) && r != step.r
    ensures var t := Next(c, s, step);
            && Visits(t.log, r) == Visits(s.log, r)
            && (r in t.requests <==> r in s.requests) && (r in s.requests ==> t.requests[r] == s.requests[r])
  {
    var t := Next(c, s, step);
    if EventOf(c, s, step).Some? { Appended(s.log, EventOf(c, s, step)); }
  }

  lemma PassesStep(c: Config, s: State, step: Step)
    requires c.Valid() && PassesFit(c, s) && Enabled(c, s, step)
    ensures PassesFit(c, Next(c, s, step))
  {
    var t := Next(c, s, step);
    PassStep(c, s, step);
    forall r | r in t.requests ensures PassFits(t.requests[r], Visits(t.log, r), c.count) && Carries(t.requests[r]) {
      if r != step.r { OthersStep(c, s, step, r); }
    }
  }

  // ----- decisions

  /**
   * By the failures logged, endpoint `i` is cooling: there were enough of them, and since the last of
   * them neither base * 2^(n - threshold) nor the longest backoff has gone by.
   */
  ghost predicate CoolsBy(c: Config, log: seq<Event>, i: nat, now: int) {
    var streak := Streak(log, i);
    && streak != [] && |streak| >= c.threshold
    && var since := now - streak[|streak| - 1].now;
       since < c.maxBackoff && since < c.base * Pow2(|streak| - c.threshold)
  }

  /** By the failures logged, endpoint `i` is cooling and one that follows is not. */
  ghost predicate PassedOver(c: Config, log: seq<Event>, i: nat, clock: seq<int>)
    requires clock != []
  {
    CoolsBy(c, log, i, clock[0]) && exists k :: 1 <= k < |clock| && !CoolsBy(c, log, i + k, clock[k])
  }

  lemma HealthCools(c: Config, log: seq<Event>, i: nat, now: int)
    requires c.Valid()
    ensures Cooling(HealthOf(c, Streak(log, i)), now) <==> CoolsBy(c, log, i, now)
  {
  }

  lemma SkipsPassedOver(c: Config, log: seq<Event>, i: nat, clock: seq<int>)
    requires c.Valid() && i < c.count && |clock| == c.count - i
    ensures Skips(HealthsOf(c, log), i, clock) <==> PassedOver(c, log, i, clock)
  {
    var health := HealthsOf(c, log);
    forall k | 0 <= k < |clock| ensures Cooling(health[i + k], clock[k]) <==> CoolsBy(c, log, i + k, clock[k]) {
      HealthCools(c, log, i + k, clock[k]);
    }
    assert health[i + 0] == health[i];
  }

  /** The endpoint that failed request `r` last, unless it has called one since. */
  function LastFault(log: seq<Event>, r: nat): Option<nat> {
    if log == [] then None
    else
      var before, e := LastFault(log[..|log| - 1], r), log[|log| - 1];
      if e.r != r then before
      else if e.Called? then None
      else if e.Faulted? then Some(e.i)
      else before
  }

  ghost predicate CarriesLastFault(s: State) {
    forall r: nat :: LastFault(s.log, r) == if r in s.requests then s.requests[r].lastFailure else None
  }

  lemma LastFaultStep(c: Config, s: State, step: Step)
    requires CarriesLastFault(s) && Enabled(c, s, step)
    ensures CarriesLastFault(Next(c, s, step))
  {
    var t := Next(c, s, step);
    forall r: nat ensures LastFault(t.log, r) == if r in t.requests then t.requests[r].lastFailure else None {
      LastFaultOf(c, s, step, r);
    }
  }

  lemma LastFaultOf(c: Config, s: State, step: Step, r: nat)
    requires LastFault(s.log, r) == if r in s.requests then s.requests[r].lastFailure else None
    requires Enabled(c, s, step)
    ensures var t := Next(c, s, step);
            LastFault(t.log, r) == if r in t.requests then t.requests[r].lastFailure else None
  {
    if EventOf(c, s, step).Some? { Appended(s.log, EventOf(c, s, step)); }
  }

  /** Event `k` skipped or called its endpoint as the failures before it say, and reported the last of them. */
  ghost predicate Decided(c: Config, log: seq<Event>, k: nat)
    requires k < |log|
  {
    match log[k]
    case Skipped(_, i, clock) => i < c.count && |clock| == c.count - i && PassedOver(c, log[..k], i, clock)
    case Called(r, i, clock, pass, from) =>
      && i < c.count && |clock| == c.count - i && !PassedOver(c, log[..k], i, clock)
      && from == LastFault(log[..k], r)
      && (pass == 0 && from.Some? ==> from.value < i)
    case _ => true
  }

  ghost predicate AllDecided(c: Config, log: seq<Event>) {
    forall k :: 0 <= k < |log| ==> Decided(c, log, k)
  }

  lemma DecisionsStep(c: Config, s: State, step: Step)
    requires c.Valid() && EndpointsFollow(c, s) && PassesFit(c, s) && CarriesLastFault(s)
    requires AllDecided(c, s.log) && Enabled(c, s, step)
    ensures AllDecided(c, Next(c, s, step).log)
  {
    var t := Next(c, s, step);
    if step.Skip? || step.Call? { SkipsPassedOver(c, s.log, s.requests[step.r].phase.i, step.clock); }
    if t.log != s.log {
      forall k | 0 <= k < |t.log| ensures Decided(c, t.log, k) {
        if k < |s.log| {
          assert t.log[..k] == s.log[..k];
          assert Decided(c, s.log, k);
        } else {
          assert t.log[..k] == s.log;
        }
      }
    }
  }

  // ----- over every run

  ghost predicate Invariant(c: Config, s: State) {
    && EndpointsFollow(c, s) && StreaksFit(s) && CountedIsOutstanding(s)
    && PassesFit(c, s) && CarriesLastFault(s) && AllDecided(c, s.log)
  }

  lemma {:induction false} RunKeepsInvariant(c: Config, steps: seq<Step>, s: State)
    requires c.Valid() && Run(c, steps, s)
    ensures Invariant(c, s)
    decreases |steps|
  {
    if steps == [] {
      assert EndpointsFollow(c, s);
    } else {
      var n := |steps| - 1;
      var before := After(c, steps[..n]).value;
      RunKeepsInvariant(c, steps[..n], before);
      EndpointsStep(c, before, steps[n]);
      StreaksStep(c, before, steps[n]);
      CountedStep(c, before, steps[n]);
      PassesStep(c, before, steps[n]);
      LastFaultStep(c, before, steps[n]);
      DecisionsStep(c, before, steps[n]);
    }
  }

  /**
   * An endpoint's failures number the requests that failed on it since its last answer and had no
   * failure outstanding there when it gave that answer to another; its cooldown ends
   * base * 2^(n - threshold), capped, after the last of them.
   */
  lemma HealthIsTheStreak(c: Config, steps: seq<Step>, s: State, i: nat)
    requires c.Valid() && Run(c, steps, s) && i < c.count
    ensures |s.endpoints| == c.count
    ensures forall now :: Cooling(s.endpoints[i], now) <==> CoolsBy(c, s.log, i, now)
    ensures s.endpoints[i].failures == |Faulters(s.log, i) - Excused(s.log, i)|
    ensures var streak := Streak(s.log, i);
            && (forall j, k :: 0 <= j < k < |streak| ==> streak[j].r != streak[k].r && streak[j].now <= streak[k].now)
            && (streak != [] ==> streak[|streak| - 1].now <= s.now)
    ensures s.endpoints[i] == HealthOf(c, Streak(s.log, i))
  {
    RunKeepsInvariant(c, steps, s);
    forall now ensures Cooling(s.endpoints[i], now) <==> CoolsBy(c, s.log, i, now) { HealthCools(c, s.log, i, now); }
    StreakCounts(s.log, i);
    assert StreakFits(Streak(s.log, i), s.requests, i, s.now);
  }

  /**
   * A request adds a failure to an endpoint only when it has none outstanding there: after the first,
   * only once the endpoint has answered it.
   */
  lemma OneFailurePerRequest(c: Config, steps: seq<Step>, s: State, r: nat, now: int, movesOn: bool, j: nat)
    requires c.Valid() && Run(c, steps, s) && Enabled(c, s, Failure(r, true, now, movesOn))
    ensures var i, t := s.requests[r].phase.i, Next(c, s, Failure(r, true, now, movesOn));
            && t.endpoints[i].failures == s.endpoints[i].failures + (if r in Outstanding(s.log, i) then 0 else 1)
            && (j < |s.log| && s.log[j].Faulted? && s.log[j].r == r && s.log[j].i == i
                && t.endpoints[i].failures != s.endpoints[i].failures ==>
                  exists m :: j < m < |s.log| && s.log[m] == Succeeded(r, i))
  {
    RunKeepsInvariant(c, steps, s);
    var i := s.requests[r].phase.i;
    assert r in Outstanding(s.log, i) <==> r in s.requests && i in s.requests[r].counted;
    if j < |s.log| && s.log[j].Faulted? && s.log[j].r == r && s.log[j].i == i && r !in Outstanding(s.log, i) {
      assert s.log[..|s.log|] == s.log;
      if forall m :: j < m < |s.log| ==> s.log[m] != Succeeded(r, i) { StillOutstanding(s.log, j, |s.log|); }
    }
  }

  /** Only an answer, which clears it, and a failure that is its fault touch an endpoint's health. */
  lemma HealthMovesOnAnswers(c: Config, s: State, step: Step, i: nat)
    requires Enabled(c, s, step) && i < |s.endpoints|
    ensures var t := Next(c, s, step);
            && |t.endpoints| == |s.endpoints|
            && (step.Success? && s.requests[step.r].phase.i == i ==> t.endpoints[i] == Endpoint(0, None))
            && (t.endpoints[i] != s.endpoints[i] ==>
                  && (step.Success? || (step.Failure? && step.endpointsFault))
                  && s.requests[step.r].phase == Waiting(i))
  {
  }

  /** A request ends with its first answer, and goes on after a failure while the fallback does. */
  lemma RequestGoesOn(c: Config, s: State, step: Step)
    requires Enabled(c, s, step) && step.r in s.requests
    ensures var q, phase := s.requests[step.r], Next(c, s, step).requests[step.r].phase;
            match step
            case Skip(_, _) => q.phase.Trying? && phase == Trying(q.phase.i + 1)
            case Call(_, _) => q.phase.Trying? && phase == Waiting(q.phase.i)
            case Success(_) => q.phase.Waiting? && phase == Answered
            case Failure(_, _, _, movesOn) =>
              q.phase.Waiting? && phase == if movesOn then Trying(q.phase.i + 1) else Threw
            case Retry(_) => q.phase.Threw? && phase == Trying(0)
            case Start(_) => false
    ensures forall r :: r in s.requests && r != step.r ==> Next(c, s, step).requests[r] == s.requests[r]
  {
  }

  lemma PassOf(c: Config, steps: seq<Step>, s: State, r: nat)
    requires c.Valid() && Run(c, steps, s) && r in s.requests
    ensures PassFits(s.requests[r], Visits(s.log, r), c.count)
  {
    RunKeepsInvariant(c, steps, s);
  }

  lemma PassShape(q: Request, visits: seq<Visit>, count: nat)
    requires count >= 1 && PassFits(q, visits, count)
    ensures q.phase.Answered? || q.phase.Threw? || |visits| == count ==> visits != [] && visits[|visits| - 1].called
  {
  }

  /** A pass comes to the endpoints in order, each once, and never ends before it called one. */
  lemma EveryPassReachesAnEndpoint(c: Config, steps: seq<Step>, s: State, r: nat)
    requires c.Valid() && Run(c, steps, s) && r in s.requests
    ensures var visits := Visits(s.log, r);
            && InOrder(visits) && |visits| <= c.count
            && (s.requests[r].phase.Answered? || s.requests[r].phase.Threw? || |visits| == c.count ==>
                  visits != [] && visits[|visits| - 1].called)
  {
    PassOf(c, steps, s, r);
    PassShape(s.requests[r], Visits(s.log, r), c.count);
  }

  /**
   * An endpoint is passed over exactly when, by the failures so far, it cools and one that follows does
   * not; the last never is. A failover is reported from the endpoint that failed the request last, and in
   * its first pass to a later one.
   */
  lemma DecisionsFollowTheFailures(c: Config, steps: seq<Step>, s: State, k: nat)
    requires c.Valid() && Run(c, steps, s) && k < |s.log|
    ensures Decided(c, s.log, k)
    ensures s.log[k].Skipped? ==> s.log[k].i + 1 < c.count
  {
    RunKeepsInvariant(c, steps, s);
    assert Decided(c, s.log, k);
  }

  lemma {:induction false} BackoffGrows(c: Config, j: nat, k: nat)
    requires j <= k
    ensures Backoff(c, j) <= Backoff(c, k)
    decreases k - j
  {
    if j < k {
      assert c.base * Pow2(j + 1) == 2 * (c.base * Pow2(j));
      BackoffGrows(c, j + 1, k);
    }
  }

  /** One more failure, no earlier than those of the streak, puts the end of a cooldown no nearer. */
  lemma OneMoreFailure(c: Config, streak: seq<Miss>, now: int)
    requires c.Valid() && |streak| >= c.threshold && streak[|streak| - 1].now <= now
    ensures var before, after := HealthOf(c, streak), Failed(c, HealthOf(c, streak), now);
            after.cooldownUntil.Some? && after.cooldownUntil.value >= before.cooldownUntil.value
  {
    BackoffGrows(c, |streak| - c.threshold, |streak| + 1 - c.threshold);
  }

  lemma StepOnEndpoint(c: Config, s: State, step: Step, i: nat)
    requires Enabled(c, s, step) && i < |s.endpoints|
    requires !(step.Success? && s.requests[step.r].phase.i == i)
    ensures var t := Next(c, s, step);
            && |t.endpoints| == |s.endpoints|
            && (t.endpoints[i] == s.endpoints[i]
                || exists now :: s.now <= now && t.endpoints[i] == Failed(c, s.endpoints[i], now))
  {
  }

  /** Until an endpoint answers, nothing any request does brings the end of its cooldown nearer. */
  lemma CooldownOnlyExtends(c: Config, steps: seq<Step>, s: State, step: Step, i: nat)
    requires c.Valid() && Run(c, steps, s) && Enabled(c, s, step) && i < c.count == |s.endpoints|
    requires s.endpoints[i].cooldownUntil.Some? && !(step.Success? && s.requests[step.r].phase.i == i)
    ensures var t := Next(c, s, step);
            && |t.endpoints| == c.count && t.endpoints[i].cooldownUntil.Some?
            && t.endpoints[i].cooldownUntil.value >= s.endpoints[i].cooldownUntil.value
  {
    HealthIsTheStreak(c, steps, s, i);
    StepOnEndpoint(c, s, step, i);
    var after := Next(c, s, step).endpoints[i];
    if after != s.endpoints[i] {
      var now :| s.now <= now && after == Failed(c, s.endpoints[i], now);
      OneMoreFailure(c, Streak(s.log, i), now);
    }
  }

  // ----- what a failover is reported between

  predicate Retries(steps: seq<Step>) {
    exists k :: 0 <= k < |steps| && steps[k].Retry?
  }

  /** Without a retry every request is in its first pass. */
  lemma {:induction false} OnlyFirstPasses(c: Config, steps: seq<Step>, s: State)
    requires Run(c, steps, s) && !Retries(steps)
    ensures forall r :: r in s.requests ==> s.requests[r].pass == 0
    ensures forall k :: 0 <= k < |s.log| && s.log[k].Called? ==> s.log[k].pass == 0
    decreases |steps|
  {
    if steps != [] {
      var n := |steps| - 1;
      assert forall k :: 0 <= k < n ==> steps[..n][k] == steps[k];
      OnlyFirstPasses(c, steps[..n], After(c, steps[..n]).value);
    }
  }

  /** Unless the caller asks for retries, every failover reported is to a later endpoint. */
  lemma FailoverGoesForward(c: Config, steps: seq<Step>, s: State, k: nat)
    requires c.Valid() && Run(c, steps, s) && !Retries(steps)
    requires k < |s.log| && s.log[k].Called? && s.log[k].from.Some?
    ensures s.log[k].from.value < s.log[k].i
  {
    OnlyFirstPasses(c, steps, s);
    DecisionsFollowTheFailures(c, steps, s, k);
  }

  /** Without a retry a request has failed only on endpoints before the one it is at. */
  ghost predicate FaultsBehind(s: State) {
    forall r :: r in s.requests ==>
      match s.requests[r].phase
      case Trying(k) => forall i :: i in s.requests[r].counted ==> i < k
      case Waiting(k) => forall i :: i in s.requests[r].counted ==> i < k
      case _ => true
  }

  /** So no failure is excused. */
  ghost predicate NoneExcused(s: State) {
    forall i: nat :: Faulters(s.log, i) !! Excused(s.log, i)
  }

  lemma NoneExcusedStep(c: Config, s: State, step: Step)
    requires CountedIsOutstanding(s) && FaultsBehind(s) && NoneExcused(s) && Enabled(c, s, step) && !step.Retry?
    ensures FaultsBehind(Next(c, s, step)) && NoneExcused(Next(c, s, step))
  {
    var t := Next(c, s, step);
    forall i: nat ensures Faulters(t.log, i) !! Excused(t.log, i) {
      StreakCounts(s.log, i);
      assert Faulters(s.log, i) !! Excused(s.log, i);
      if EventOf(c, s, step).Some? { Appended(s.log, EventOf(c, s, step)); }
    }
  }

  lemma {:induction false} NothingIsExcused(c: Config, steps: seq<Step>, s: State)
    requires c.Valid() && Run(c, steps, s) && !Retries(steps)
    ensures FaultsBehind(s) && NoneExcused(s)
    decreases |steps|
  {
    if steps != [] {
      var n := |steps| - 1;
      var before := After(c, steps[..n]).value;
      assert forall k :: 0 <= k < n ==> steps[..n][k] == steps[k];
      NothingIsExcused(c, steps[..n], before);
      RunKeepsInvariant(c, steps[..n], before);
      NoneExcusedStep(c, before, steps[n]);
    }
  }

  /** Unless the caller asks for retries, an endpoint's failures number all that failed since its last answer. */
  lemma FailuresInARow(c: Config, steps: seq<Step>, s: State, i: nat)
    requires c.Valid() && Run(c, steps, s) && !Retries(steps) && i < c.count
    ensures |s.endpoints| == c.count && s.endpoints[i].failures == |Faulters(s.log, i)|
  {
    HealthIsTheStreak(c, steps, s, i);
    NothingIsExcused(c, steps, s);
    assert Faulters(s.log, i) - Excused(s.log, i) == Faulters(s.log, i);
  }

  /** Each endpoint's clock reading is the same. */
  function Readout(c: Config, now: int): seq<int> {
    seq(c.count, i => now)
  }

  /**
   * With a retry, whatever the configuration and however many endpoints, a failover from an endpoint
   * to itself is reported in some run.
   */
  lemma FailoverToItself(c: Config)
    requires c.Valid()
    ensures exists steps, s, k :: Run(c, steps, s) && Retries(steps) && 0 <= k < |s.log|
              && s.log[k].Called? && s.log[k].from == Some(s.log[k].i)
  {
    var steps, s := OneFault(c);
    RetriedPass(c, steps, s);
  }

  /** A first request fails on the first endpoint, and gives up. */
  lemma OneFault(c: Config) returns (steps: seq<Step>, s: State)
    requires c.Valid()
    ensures Run(c, steps, s) && s.now == 0 && |s.endpoints| == c.count && !Cooling(s.endpoints[0], c.maxBackoff)
    ensures s.requests.Keys == {0} && s.requests[0] == Request(Threw, {0}, Some(0), 0)
  {
    var s1 := Next(c, Initial(c), Start(0));
    var call := Call(0, Readout(c, 0));
    var s2 := Next(c, s1, call);
    var fails := Failure(0, true, 0, false);
    var p1 := [] + [Start(0)];
    var p2 := p1 + [call];
    Extend(c, [], Initial(c), Start(0));
    Extend(c, p1, s1, call);
    Extend(c, p2, s2, fails);
    steps, s := p2 + [fails], Next(c, s2, fails);
    assert s.endpoints[0] == Failed(c, Endpoint(0, None), 0);
  }

  lemma RetriedPass(c: Config, steps: seq<Step>, s: State)
    requires c.Valid() && Run(c, steps, s) && s.now == 0 && |s.endpoints| == c.count
    requires !Cooling(s.endpoints[0], c.maxBackoff)
    requires 0 in s.requests && s.requests[0].phase.Threw? && s.requests[0].lastFailure == Some(0)
    ensures exists steps, s, k :: Run(c, steps, s) && Retries(steps) && 0 <= k < |s.log|
              && s.log[k].Called? && s.log[k].from == Some(s.log[k].i)
  {
    var s4 := Next(c, s, Retry(0));
    var call := Call(0, Readout(c, c.maxBackoff));
    assert s4.requests[0].phase == Trying(0) && s4.requests[0].lastFailure == Some(0);
    var s5 := Next(c, s4, call);
    Extend(c, steps, s, Retry(0));
    var more := steps + [Retry(0)];
    Extend(c, more, s4, call);
    assert (more + [call])[|steps|] == Retry(0);
    assert s5.log[|s4.log|] == Called(0, 0, Readout(c, c.maxBackoff), s4.requests[0].pass, Some(0));
  }

  // ----- failures that do not count

  /** A second request is answered by the first endpoint. */
  lemma ThenAnAnswer(c: Config, steps: seq<Step>, s: State) returns (more: seq<Step>, t: State)
    requires c.Valid() && Run(c, steps, s) && s.now == 0 && |s.endpoints| == c.count
    requires !Cooling(s.endpoints[0], c.maxBackoff) && 0 in s.requests && 1 !in s.requests
    ensures Run(c, more, t) && t.now == c.maxBackoff && |t.endpoints| == c.count && t.endpoints[0] == Endpoint(0, None)
    ensures 0 in t.requests && t.requests[0] == s.requests[0]
  {
    var s1 := Next(c, s, Start(1));
    var call := Call(1, Readout(c, c.maxBackoff));
    var s2 := Next(c, s1, call);
    var p1 := steps + [Start(1)];
    var p2 := p1 + [call];
    Extend(c, steps, s, Start(1));
    Extend(c, p1, s1, call);
    Extend(c, p2, s2, Success(1));
    more, t := p2 + [Success(1)], Next(c, s2, Success(1));
  }

  /** The first request is tried again, and fails there once more. */
  lemma ThenAnotherFault(c: Config, steps: seq<Step>, s: State) returns (more: seq<Step>, t: State)
    requires c.Valid() && Run(c, steps, s) && s.now == c.maxBackoff && |s.endpoints| == c.count
    requires s.endpoints[0] == Endpoint(0, None) && 0 in s.requests
    requires s.requests[0].phase.Threw? && 0 in s.requests[0].counted
    ensures Run(c, more, t) && |t.endpoints| == c.count && t.endpoints[0] == Endpoint(0, None)
    ensures 0 in Faulters(t.log, 0)
  {
    var s1 := Next(c, s, Retry(0));
    var call := Call(0, Readout(c, c.maxBackoff));
    var s2 := Next(c, s1, call);
    var fails := Failure(0, true, c.maxBackoff, false);
    var p1 := steps + [Retry(0)];
    var p2 := p1 + [call];
    Extend(c, steps, s, Retry(0));
    Extend(c, p1, s1, call);
    Extend(c, p2, s2, fails);
    more, t := p2 + [fails], Next(c, s2, fails);
    Appended(s2.log, Some(Faulted(0, 0, c.maxBackoff)));
  }

  /**
   * With a retry a request can fail on an endpoint after its last answer and not count: whatever the
   * threshold, one of 1 included, there is a run in which the endpoint is failing and its health says nothing.
   */
  lemma AFailureThatDoesNotCount(c: Config)
    requires c.Valid()
    ensures exists steps, s :: Run(c, steps, s) && |s.endpoints| == c.count
              && s.endpoints[0] == Endpoint(0, None) && Faulters(s.log, 0) != {}
  {
    var steps, s := OneFault(c);
    var steps', s' := ThenAnAnswer(c, steps, s);
    var steps'', s'' := ThenAnotherFault(c, steps', s');
    assert 0 in Faulters(s''.log, 0);
  }

  lemma Extend(c: Config, steps: seq<Step>, s: State, step: Step)
    requires Run(c, steps, s) && Enabled(c, s, step)
    ensures Run(c, steps + [step], Next(c, s, step))
  {
    assert (steps + [step])[..|steps|] == steps;
  }
}

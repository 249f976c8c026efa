/**
 * Alerting: each rule turns verdicts into a queue of firing and resolved alerts, delivered in
 * order and at least once. `TrackedRule` is the object; the step relation adds the awaits of the
 * notifier, during which other `evaluate` calls arrive and are skipped.
 */
module Alerts {
  import opened Wrappers

  datatype Kind = Firing | Resolved
  datatype Alert = Alert(kind: Kind, at: int, since: int, heldForSeconds: real, detail: string)

  /** What a rule's evaluator answered, or that it threw. */
  datatype Verdict = Bad(detail: string) | Good(detail: string) | Threw

  /** Milliseconds. */
  datatype Observation = Observation(at: int, verdict: Verdict)

  function Held(now: int, since: int): real {
    (now - since) as real / 1000.0
  }

  function MakeAlert(kind: Kind, now: int, since: int, detail: string): Alert {
    Alert(kind, now, since, Held(now, since), detail)
  }

  // ----- one rule

  datatype Rule = Rule(
    firing: bool,
    since: Option<int>,
    firedAt: Option<int>,
    detail: Option<string>,
    outbox: seq<Alert>)

  function Fresh(): Rule {
    Rule(false, None, None, None, [])
  }

  function Stepped(r: Rule, forSeconds: real, o: Observation): Rule {
    match o.verdict
    case Threw => r
    case Bad(detail) =>
      var since := if r.since.Some? then r.since.value else o.at;
      var s := r.(since := Some(since), detail := Some(detail));
      if !r.firing && Held(o.at, since) >= forSeconds
      then s.(firing := true, firedAt := Some(o.at), outbox := s.outbox + [MakeAlert(Firing, o.at, since, detail)])
      else s
    case Good(detail) =>
      var outbox :=
        if r.firing && r.since.Some? then r.outbox + [MakeAlert(Resolved, o.at, r.since.value, detail)] else r.outbox;
      Rule(false, None, None, None, outbox)
  }

  class TrackedRule {
    const forSeconds: real
    var firing: bool
    var since: Option<int>
    var firedAt: Option<int>
    var detail: Option<string>
    var outbox: seq<Alert>

    constructor (forSeconds: real)
      ensures View() == Fresh() && this.forSeconds == forSeconds
    {
      this.forSeconds := forSeconds;
      firing, since, firedAt, detail, outbox := false, None, None, None, [];
    }

    function View(): Rule
      reads this
    {
      Rule(firing, since, firedAt, detail, outbox)
    }

    method Step(verdict: Verdict, now: int)
      modifies this
      ensures View() == Stepped(old(View()), forSeconds, Observation(now, verdict))
    {
      if verdict.Threw? { return; }
      if verdict.Bad? {
        if since.None? { since := Some(now); }
        detail := Some(verdict.detail);
        if !firing && Held(now, since.value) >= forSeconds {
          firing := true;
          firedAt := Some(now);
          outbox := outbox + [MakeAlert(Firing, now, since.value, verdict.detail)];
        }
        return;
      }
      if firing && since.Some? {
        outbox := outbox + [MakeAlert(Resolved, now, since.value, verdict.detail)];
      }
      firing, since, firedAt, detail := false, None, None, None;
    }

    /** Deliver from the front until the notifier first fails; `resolves(k)` is its k-th answer. */
    method Flush(resolves: nat -> bool) returns (notified: seq<Alert>)
      modifies this
      ensures View() == old(View()).(outbox := outbox)
      ensures notified + outbox == old(outbox)
      ensures forall k :: 0 <= k < |notified| ==> resolves(k)
      ensures outbox != [] ==> !resolves(|notified|)
    {
      notified := [];
      while outbox != []
        invariant View() == old(View()).(outbox := outbox)
        invariant notified + outbox == old(outbox)
        invariant forall k :: 0 <= k < |notified| ==> resolves(k)
        decreases |outbox|
      {
        if !resolves(|notified|) { return; }
        MoveFirst(notified, outbox);
        notified := notified + [outbox[0]];
        outbox := outbox[1..];
      }
    }
  }

  lemma MoveFirst(done: seq<Alert>, rest: seq<Alert>)
    requires rest != []
    ensures done + [rest[0]] + rest[1..] == done + rest
  {
  }

  // ----- one rule against its history

  /** `enqueued`, `delivered` and `history` are what happened to the rule so far. */
  datatype Tracked = Tracked(
    forSeconds: real, rule: Rule, enqueued: seq<Alert>, delivered: seq<Alert>, history: seq<Observation>)

  function Observed(t: Tracked, o: Observation): Tracked {
    var rule := Stepped(t.rule, t.forSeconds, o);
    var sent := if |rule.outbox| > |t.rule.outbox| then rule.outbox[|t.rule.outbox|..] else [];
    t.(rule := rule, enqueued := t.enqueued + sent, history := t.history + [o])
  }

  /** The notifier took `next`: the front of the outbox, whatever it is by now, is shifted off. */
  function Delivered(t: Tracked, next: Alert): Tracked
    requires t.rule.outbox != []
  {
    t.(rule := t.rule.(outbox := t.rule.outbox[1..]), delivered := t.delivered + [next])
  }

  /** `a` begins the streak that is unbroken through `b`: bad at `a`, nothing good up to `b`, nothing bad before it. */
  ghost predicate Streak(h: seq<Observation>, a: int, b: int) {
    && 0 <= a <= b < |h|
    && h[a].verdict.Bad?
    && (forall k :: a <= k <= b ==> !h[k].verdict.Good?)
    && BeginsStreak(h, a)
  }

  /** Before `a`, back to the last good verdict, the evaluator only threw. */
  ghost predicate BeginsStreak(h: seq<Observation>, a: int) {
    exists g :: LastGood(h, g, a)
  }

  /** The last good verdict before `a`, or -1, with nothing but throws in between. */
  ghost predicate LastGood(h: seq<Observation>, g: int, a: int) {
    && -1 <= g < a <= |h|
    && (g >= 0 ==> h[g].verdict.Good?)
    && forall k :: g < k < a ==> h[k].verdict.Threw?
  }

  ghost predicate LongEnough(h: seq<Observation>, a: int, b: int, forSeconds: real) {
    Streak(h, a, b) && h[b].verdict.Bad? && (h[b].at - h[a].at) as real >= 1000.0 * forSeconds
  }

  /** It says how long the streak had gone on, and what the verdict it was sent at said. */
  ghost predicate SentAt(alert: Alert, a: Observation, o: Observation) {
    && alert.since == a.at && alert.at == o.at
    && 1000.0 * alert.heldForSeconds == (o.at - a.at) as real
    && !o.verdict.Threw? && alert.detail == o.verdict.detail
  }

  /** A streak from `a` ends with the good verdict at `g`. */
  ghost predicate EndsAt(h: seq<Observation>, a: int, g: int) {
    0 < g < |h| && h[g].verdict.Good? && Streak(h, a, g - 1)
  }

  /** A firing alert was sent at a bad verdict `forSeconds` into a streak, a resolved one at the streak's end. */
  ghost predicate AlertOk(alert: Alert, h: seq<Observation>, forSeconds: real) {
    match alert.kind
    case Firing => exists a, b :: LongEnough(h, a, b, forSeconds) && SentAt(alert, h[a], h[b])
    case Resolved => exists a, g :: EndsAt(h, a, g) && SentAt(alert, h[a], h[g])
  }

  ghost predicate Alternates(alerts: seq<Alert>) {
    forall i :: 0 <= i < |alerts| ==>
      && alerts[i].kind == (if i % 2 == 0 then Firing else Resolved)
      && (i % 2 == 1 ==> alerts[i].since == alerts[i - 1].since)
  }

  ghost predicate FiringNow(t: Tracked) {
    exists a, b :: LongEnough(t.history, a, b, t.forSeconds) && Streak(t.history, a, |t.history| - 1)
  }

  ghost predicate SinceOk(since: Option<int>, h: seq<Observation>) {
    if since.Some? then exists a :: Streak(h, a, |h| - 1) && h[a].at == since.value
    else BeginsStreak(h, |h|)
  }

  /** The detail kept is that of the last bad verdict of the streak. */
  ghost predicate DetailOk(detail: Option<string>, h: seq<Observation>) {
    if detail.Some? then exists b :: LastBad(h, b) && h[b].verdict.detail == detail.value
    else BeginsStreak(h, |h|)
  }

  ghost predicate LastBad(h: seq<Observation>, b: int) {
    0 <= b < |h| && h[b].verdict.Bad? && forall k :: b < k < |h| ==> h[k].verdict.Threw?
  }

  lemma DetailStep(t: Tracked, o: Observation)
    requires DetailOk(t.rule.detail, t.history)
    ensures DetailOk(Observed(t, o).rule.detail, t.history + [o])
  {
    var h := t.history;
    match o.verdict
    case Bad(_) => assert LastBad(h + [o], |h|);
    case Good(_) => assert LastGood(h + [o], |h|, |h| + 1);
    case Threw =>
      if t.rule.detail.Some? {
        var b :| LastBad(h, b) && h[b].verdict.detail == t.rule.detail.value;
        assert LastBad(h + [o], b);
      } else {
        var g :| LastGood(h, g, |h|);
        assert LastGood(h + [o], g, |h| + 1);
      }
  }

  ghost predicate AlertsOk(alerts: seq<Alert>, h: seq<Observation>, forSeconds: real) {
    forall i :: 0 <= i < |alerts| ==> AlertOk(alerts[i], h, forSeconds)
  }

  ghost predicate QueueOk(t: Tracked) {
    && t.delivered + t.rule.outbox == t.enqueued
    && Alternates(t.enqueued)
    && (t.rule.firing <==> |t.enqueued| % 2 == 1)
    && (t.rule.firing ==> t.rule.since == Some(t.enqueued[|t.enqueued| - 1].since))
    && t.rule.firedAt == if t.rule.firing then Some(t.enqueued[|t.enqueued| - 1].at) else None
  }

  ghost predicate TrackedOk(t: Tracked) {
    && QueueOk(t)
    && SinceOk(t.rule.since, t.history)
    && AlertsOk(t.enqueued, t.history, t.forSeconds)
    && (t.rule.firing <==> FiringNow(t))
    && DetailOk(t.rule.detail, t.history)
  }

  // ----- streaks and one more observation

  lemma StreakStays(h: seq<Observation>, o: Observation, a: int, b: int)
    requires Streak(h, a, b)
    ensures Streak(h + [o], a, b)
  {
    BeginsStays(h, o, a);
  }

  lemma BeginsStays(h: seq<Observation>, o: Observation, a: int)
    requires BeginsStreak(h, a)
    ensures BeginsStreak(h + [o], a)
  {
    var g :| LastGood(h, g, a);
    assert LastGood(h + [o], g, a);
  }

  lemma BeginsBefore(h: seq<Observation>, o: Observation, a: int)
    requires BeginsStreak(h + [o], a) && a <= |h|
    ensures BeginsStreak(h, a)
  {
    var t := h + [o];
    var g :| LastGood(t, g, a);
    assert forall k :: 0 <= k < |h| ==> t[k] == h[k];
    assert LastGood(h, g, a);
  }

  lemma StreakGoesOn(h: seq<Observation>, o: Observation, a: int)
    requires !o.verdict.Good?
    requires Streak(h, a, |h| - 1)
    ensures Streak(h + [o], a, |h|)
  {
    BeginsStays(h, o, a);
  }

  lemma StreakBefore(h: seq<Observation>, o: Observation, a: int, b: int)
    requires Streak(h + [o], a, b) && a < |h|
    ensures Streak(h, a, if b < |h| then b else |h| - 1)
  {
    BeginsBefore(h, o, a);
    assert forall k :: 0 <= k < |h| ==> (h + [o])[k] == h[k];
  }

  /** Two streaks that reach the same observation began at the same one. */
  lemma OneStart(h: seq<Observation>, a: int, a': int, e: int)
    requires Streak(h, a, e) && Streak(h, a', e)
    ensures a == a'
  {
    StartNotEarlier(h, a, a', e);
    StartNotEarlier(h, a', a, e);
  }

  lemma StartNotEarlier(h: seq<Observation>, a: int, a': int, e: int)
    requires Streak(h, a, e) && Streak(h, a', e)
    ensures a >= a'
  {
    var g :| LastGood(h, g, a');
    assert g < a;
  }

  lemma AlertsStay(alerts: seq<Alert>, h: seq<Observation>, o: Observation, forSeconds: real)
    requires AlertsOk(alerts, h, forSeconds)
    ensures AlertsOk(alerts, h + [o], forSeconds)
  {
    forall i | 0 <= i < |alerts| ensures AlertOk(alerts[i], h + [o], forSeconds) {
      if alerts[i].kind.Firing? {
        var a, b :| LongEnough(h, a, b, forSeconds) && SentAt(alerts[i], h[a], h[b]);
        StreakStays(h, o, a, b);
        assert LongEnough(h + [o], a, b, forSeconds);
      } else {
        var a, g :| EndsAt(h, a, g) && SentAt(alerts[i], h[a], h[g]);
        StreakStays(h, o, a, g - 1);
        assert EndsAt(h + [o], a, g);
      }
    }
  }

  /** Still firing while nothing good is seen. */
  lemma FiringGoesOn(t: Tracked, o: Observation)
    requires FiringNow(t) && !o.verdict.Good?
    ensures FiringNow(Observed(t, o))
  {
    var h := t.history;
    var a, b :| LongEnough(h, a, b, t.forSeconds) && Streak(h, a, |h| - 1);
    StreakStays(h, o, a, b);
    StreakGoesOn(h, o, a);
    assert LongEnough(h + [o], a, b, t.forSeconds);
  }

  /** Firing after an observation: it was before, or this one makes the streak long enough. */
  lemma FiringSince(t: Tracked, o: Observation)
    requires FiringNow(Observed(t, o))
    ensures !o.verdict.Good?
    ensures FiringNow(t) || exists a :: LongEnough(t.history + [o], a, |t.history|, t.forSeconds)
  {
    var h := t.history + [o];
    var a, b :| LongEnough(h, a, b, t.forSeconds) && Streak(h, a, |h| - 1);
    assert h[|t.history|] == o;
    if b < |t.history| {
      StreakBefore(t.history, o, a, b);
      StreakBefore(t.history, o, a, |t.history|);
      assert LongEnough(t.history, a, b, t.forSeconds);
    }
  }

  lemma ThrewStep(t: Tracked, o: Observation)
    requires TrackedOk(t) && o.verdict.Threw?
    ensures TrackedOk(Observed(t, o))
  {
    DetailStep(t, o);
    var h := t.history;
    AlertsStay(t.enqueued, h, o, t.forSeconds);
    if t.rule.since.Some? {
      var a :| Streak(h, a, |h| - 1) && h[a].at == t.rule.since.value;
      StreakGoesOn(h, o, a);
    } else {
      var g :| LastGood(h, g, |h|);
      assert LastGood(h + [o], g, |h| + 1);
    }
    if FiringNow(t) { FiringGoesOn(t, o); }
    if FiringNow(Observed(t, o)) { FiringSince(t, o); }
  }

  /** What a good verdict puts in the queue: the end of what was firing, or nothing. */
  lemma GoodQueue(t: Tracked, o: Observation)
    requires QueueOk(t) && o.verdict.Good?
    ensures var u := Observed(t, o);
            && QueueOk(u) && !u.rule.firing && u.rule.since.None?
            && u.enqueued == (if t.rule.firing
                              then t.enqueued + [MakeAlert(Resolved, o.at, t.rule.since.value, o.verdict.detail)]
                              else t.enqueued)
  {
    var u := Observed(t, o);
    if t.rule.firing {
      var sent := MakeAlert(Resolved, o.at, t.rule.since.value, o.verdict.detail);
      assert u.rule.outbox == t.rule.outbox + [sent];
      assert u.enqueued == t.enqueued + [sent];
    }
  }

  lemma ResolvedOk(h: seq<Observation>, o: Observation, a: int, forSeconds: real)
    requires o.verdict.Good? && Streak(h, a, |h| - 1)
    ensures AlertOk(MakeAlert(Resolved, o.at, h[a].at, o.verdict.detail), h + [o], forSeconds)
  {
    var more := h + [o];
    StreakStays(h, o, a, |h| - 1);
    assert more[|h|] == o && more[a] == h[a];
    assert EndsAt(more, a, |h|);
  }

  lemma OneMoreAlert(alerts: seq<Alert>, alert: Alert, h: seq<Observation>, forSeconds: real)
    requires AlertsOk(alerts, h, forSeconds) && AlertOk(alert, h, forSeconds)
    ensures AlertsOk(alerts + [alert], h, forSeconds)
  {
  }

  /** What is sent for the end of a streak says so. */
  lemma GoodAlerts(t: Tracked, o: Observation)
    requires QueueOk(t) && SinceOk(t.rule.since, t.history) && AlertsOk(t.enqueued, t.history, t.forSeconds)
    requires o.verdict.Good?
    ensures AlertsOk(Observed(t, o).enqueued, t.history + [o], t.forSeconds)
  {
    var h := t.history;
    GoodQueue(t, o);
    AlertsStay(t.enqueued, h, o, t.forSeconds);
    if t.rule.firing {
      var a :| Streak(h, a, |h| - 1) && h[a].at == t.rule.since.value;
      ResolvedOk(h, o, a, t.forSeconds);
      OneMoreAlert(t.enqueued, MakeAlert(Resolved, o.at, h[a].at, o.verdict.detail), h + [o], t.forSeconds);
    }
  }

  lemma GoodStep(t: Tracked, o: Observation)
    requires TrackedOk(t) && o.verdict.Good?
    ensures TrackedOk(Observed(t, o))
  {
    DetailStep(t, o);
    var h := t.history;
    var u := Observed(t, o);
    GoodQueue(t, o);
    GoodAlerts(t, o);
    assert (h + [o])[|h|] == o;
    assert LastGood(h + [o], |h|, |h| + 1);
    if FiringNow(u) { FiringSince(t, o); }
  }

  /** Where the streak of a bad verdict began, and that `since` says so. */
  lemma BadSince(t: Tracked, o: Observation) returns (a: int)
    requires TrackedOk(t) && o.verdict.Bad?
    ensures var h := t.history + [o];
            && Streak(h, a, |t.history|)
            && h[a].at == (if t.rule.since.Some? then t.rule.since.value else o.at)
  {
    var h := t.history;
    if t.rule.since.Some? {
      a :| Streak(h, a, |h| - 1) && h[a].at == t.rule.since.value;
      StreakGoesOn(h, o, a);
    } else {
      a := |h|;
      BeginsStays(h, o, a);
    }
  }

  /** What a bad verdict puts in the queue: a firing alert for the streak, or nothing. */
  lemma BadQueue(t: Tracked, o: Observation)
    requires QueueOk(t) && o.verdict.Bad?
    ensures var u := Observed(t, o);
            && QueueOk(u)
            && u.enqueued == (if u.rule.firing && !t.rule.firing
                              then t.enqueued + [MakeAlert(Firing, o.at, u.rule.since.value, o.verdict.detail)]
                              else t.enqueued)
  {
    var u := Observed(t, o);
    if u.rule.firing && !t.rule.firing {
      var sent := MakeAlert(Firing, o.at, u.rule.since.value, o.verdict.detail);
      assert u.rule.outbox == t.rule.outbox + [sent];
      assert u.enqueued == t.enqueued + [sent];
    }
  }

  lemma BadFiring(t: Tracked, o: Observation, a: int)
    requires TrackedOk(t) && o.verdict.Bad?
    requires Streak(t.history + [o], a, |t.history|)
    requires (t.history + [o])[a].at == Observed(t, o).rule.since.value
    ensures Observed(t, o).rule.firing <==> FiringNow(Observed(t, o))
  {
    var h := t.history + [o];
    var n := |t.history|;
    assert h[n] == o;
    if FiringNow(t) { FiringGoesOn(t, o); }
    if FiringNow(Observed(t, o)) && !FiringNow(t) {
      FiringSince(t, o);
      var a' :| LongEnough(h, a', n, t.forSeconds);
      OneStart(h, a, a', n);
    }
    if Observed(t, o).rule.firing && !t.rule.firing { assert LongEnough(h, a, n, t.forSeconds); }
  }

  lemma FiringOk(h: seq<Observation>, a: int, forSeconds: real, detail: string)
    requires h != [] && LongEnough(h, a, |h| - 1, forSeconds) && h[|h| - 1].verdict.detail == detail
    ensures AlertOk(MakeAlert(Firing, h[|h| - 1].at, h[a].at, detail), h, forSeconds)
  {
    assert SentAt(MakeAlert(Firing, h[|h| - 1].at, h[a].at, detail), h[a], h[|h| - 1]);
  }

  lemma LongEnoughNow(t: Tracked, o: Observation, a: int)
    requires o.verdict.Bad? && Streak(t.history + [o], a, |t.history|)
    requires (t.history + [o])[a].at == Observed(t, o).rule.since.value
    requires Observed(t, o).rule.firing && !t.rule.firing
    ensures LongEnough(t.history + [o], a, |t.history|, t.forSeconds)
  {
    assert (t.history + [o])[|t.history|] == o;
  }

  /** What is sent for a streak gone on long enough says so. */
  lemma BadAlerts(t: Tracked, o: Observation, a: int)
    requires QueueOk(t) && AlertsOk(t.enqueued, t.history, t.forSeconds)
    requires o.verdict.Bad? && Streak(t.history + [o], a, |t.history|)
    requires (t.history + [o])[a].at == Observed(t, o).rule.since.value
    ensures AlertsOk(Observed(t, o).enqueued, t.history + [o], t.forSeconds)
  {
    var h := t.history + [o];
    assert h[|t.history|] == o;
    BadQueue(t, o);
    AlertsStay(t.enqueued, t.history, o, t.forSeconds);
    if Observed(t, o).rule.firing && !t.rule.firing {
      LongEnoughNow(t, o, a);
      FiringOk(h, a, t.forSeconds, o.verdict.detail);
      OneMoreAlert(t.enqueued, MakeAlert(Firing, o.at, h[a].at, o.verdict.detail), h, t.forSeconds);
    }
  }

  lemma BadStep(t: Tracked, o: Observation)
    requires TrackedOk(t) && o.verdict.Bad?
    ensures TrackedOk(Observed(t, o))
  {
    DetailStep(t, o);
    var a := BadSince(t, o);
    BadQueue(t, o);
    BadAlerts(t, o, a);
    BadFiring(t, o, a);
  }

  lemma ObservedStep(t: Tracked, o: Observation)
    requires TrackedOk(t)
    ensures TrackedOk(Observed(t, o))
  {
    match o.verdict
    case Threw => ThrewStep(t, o);
    case Good(_) => GoodStep(t, o);
    case Bad(_) => BadStep(t, o);
  }

  lemma DeliveredStep(t: Tracked)
    requires TrackedOk(t) && t.rule.outbox != []
    ensures TrackedOk(Delivered(t, t.rule.outbox[0]))
  {
    MoveFirst(t.delivered, t.rule.outbox);
    var u := Delivered(t, t.rule.outbox[0]);
    assert QueueOk(u);
    assert FiringNow(u) <==> FiringNow(t);
  }

  // ----- all the rules, and the notifier's awaits

  datatype Phase = Idle | Notifying(rule: nat, next: Alert)    // notify(next) is out, for that rule

  datatype State = State(rules: seq<Tracked>, phase: Phase)

  datatype Event =
    | Evaluate(now: int, verdicts: seq<Verdict>)
    | NotifyResolves
    | NotifyRejects

  /** Go on to the next rule with something to deliver, from `k` on; the call is over when there is none. */
  function FlushFrom(rules: seq<Tracked>, k: nat): Phase
    requires k <= |rules|
    decreases |rules| - k
  {
    if k == |rules| then Idle
    else if rules[k].rule.outbox != [] then Notifying(k, rules[k].rule.outbox[0])
    else FlushFrom(rules, k + 1)
  }

  predicate Enabled(s: State, e: Event) {
    match e
    case Evaluate(_, verdicts) => |verdicts| == |s.rules|
    case NotifyResolves => s.phase.Notifying?
    case NotifyRejects => s.phase.Notifying?
  }

  /** While a call awaits the notifier its alert stays at the front. */
  predicate WellPlaced(s: State) {
    s.phase.Notifying? ==>
      && s.phase.rule < |s.rules|
      && s.rules[s.phase.rule].rule.outbox != []
      && s.rules[s.phase.rule].rule.outbox[0] == s.phase.next
  }

  function StepAll(rules: seq<Tracked>, now: int, verdicts: seq<Verdict>): seq<Tracked>
    requires |verdicts| == |rules|
  {
    seq(|rules|, k requires 0 <= k < |rules| => Observed(rules[k], Observation(now, verdicts[k])))
  }

  function Apply(s: State, e: Event): State
    requires Enabled(s, e) && WellPlaced(s)
  {
    match e
    case Evaluate(now, verdicts) =>
      if s.phase.Notifying? then s       // overlapping calls are skipped
      else
        var rules := StepAll(s.rules, now, verdicts);
        State(rules, FlushFrom(rules, 0))
    case NotifyResolves =>
      var k := s.phase.rule;
      var rules := s.rules[k := Delivered(s.rules[k], s.phase.next)];
      State(rules, FlushFrom(rules, k))
    case NotifyRejects => State(s.rules, FlushFrom(s.rules, s.phase.rule + 1))
  }

  lemma {:induction false} FlushFromPlaces(rules: seq<Tracked>, k: nat)
    requires k <= |rules|
    ensures WellPlaced(State(rules, FlushFrom(rules, k)))
    decreases |rules| - k
  {
    if k < |rules| && rules[k].rule.outbox == [] { FlushFromPlaces(rules, k + 1); }
  }

  function Initial(forSeconds: seq<real>): State {
    State(seq(|forSeconds|, k requires 0 <= k < |forSeconds| => Tracked(forSeconds[k], Fresh(), [], [], [])), Idle)
  }

  function Run(forSeconds: seq<real>, events: seq<Event>): (r: Option<State>)
    ensures r.Some? ==> WellPlaced(r.value)
  {
    if events == [] then Some(Initial(forSeconds))
    else
      var before := Run(forSeconds, events[..|events| - 1]);
      var e := events[|events| - 1];
      if before.Some? && Enabled(before.value, e) then
        ApplyPlaces(before.value, e);
        Some(Apply(before.value, e))
      else None
  }

  lemma ApplyPlaces(s: State, e: Event)
    requires Enabled(s, e) && WellPlaced(s)
    ensures WellPlaced(Apply(s, e))
  {
    match e
    case Evaluate(now, verdicts) => FlushFromPlaces(StepAll(s.rules, now, verdicts), 0);
    case NotifyResolves =>
      FlushFromPlaces(s.rules[s.phase.rule := Delivered(s.rules[s.phase.rule], s.phase.next)], s.phase.rule);
    case NotifyRejects => FlushFromPlaces(s.rules, s.phase.rule + 1);
  }

  lemma InitialOk(forSeconds: real)
    ensures TrackedOk(Tracked(forSeconds, Fresh(), [], [], []))
  {
    assert LastGood([], -1, 0);
  }

  lemma {:induction false} Invariant(forSeconds: seq<real>, events: seq<Event>, k: nat)
    requires Run(forSeconds, events).Some? && k < |Run(forSeconds, events).value.rules|
    ensures TrackedOk(Run(forSeconds, events).value.rules[k])
    decreases |events|
  {
    if events == [] {
      InitialOk(forSeconds[k]);
      assert Run(forSeconds, events).value.rules[k] == Tracked(forSeconds[k], Fresh(), [], [], []);
    } else {
      var front, e := events[..|events| - 1], events[|events| - 1];
      var s := Run(forSeconds, front).value;
      assert |s.rules| == |Apply(s, e).rules|;
      Invariant(forSeconds, front, k);
      if e.Evaluate? && s.phase.Idle? {
        ObservedStep(s.rules[k], Observation(e.now, e.verdicts[k]));
      } else if e.NotifyResolves? && k == s.phase.rule {
        DeliveredStep(s.rules[k]);
      }
    }
  }

  /**
   * For each rule, whatever throws, fails or overlaps: alerts alternate firing and resolved, starting
   * with firing, a resolved one naming the streak of the firing one before it; what was delivered,
   * then the outbox, is what was enqueued, in order; and the rule is firing exactly when the last
   * alert is, which is exactly when the current streak was once seen bad `forSeconds` after it began.
   */
  lemma AlertsAreOrderly(forSeconds: seq<real>, events: seq<Event>, k: nat)
    requires Run(forSeconds, events).Some? && k < |Run(forSeconds, events).value.rules|
    ensures var t := Run(forSeconds, events).value.rules[k];
            && Alternates(t.enqueued)
            && t.delivered + t.rule.outbox == t.enqueued
            && (t.rule.firing <==> t.enqueued != [] && t.enqueued[|t.enqueued| - 1].kind.Firing?)
            && (t.rule.firing <==> FiringNow(t))
  {
    Invariant(forSeconds, events, k);
    LastAlert(Run(forSeconds, events).value.rules[k].enqueued);
  }

  lemma LastAlert(alerts: seq<Alert>)
    requires Alternates(alerts)
    ensures |alerts| % 2 == 1 <==> alerts != [] && alerts[|alerts| - 1].kind.Firing?
  {
    if alerts != [] { assert (|alerts| - 1) % 2 == 0 <==> |alerts| % 2 == 1; }
  }

  /** A firing alert is sent only at a bad verdict, `forSeconds` into a streak without a good one. */
  lemma FiringOnlyAfterForSeconds(forSeconds: seq<real>, events: seq<Event>, k: nat, i: nat)
    requires Run(forSeconds, events).Some? && k < |Run(forSeconds, events).value.rules|
    requires var t := Run(forSeconds, events).value.rules[k]; i < |t.enqueued| && t.enqueued[i].kind.Firing?
    ensures var t := Run(forSeconds, events).value.rules[k];
            exists a, b ::
              && 0 <= a <= b < |t.history| && t.history[a].verdict.Bad? && t.history[b].verdict.Bad?
              && (forall m :: a <= m <= b ==> !t.history[m].verdict.Good?)
              && SentAt(t.enqueued[i], t.history[a], t.history[b])
              && (t.history[b].at - t.history[a].at) as real >= 1000.0 * t.forSeconds
  {
    Invariant(forSeconds, events, k);
    var t := Run(forSeconds, events).value.rules[k];
    assert AlertOk(t.enqueued[i], t.history, t.forSeconds);
    var a, b :| LongEnough(t.history, a, b, t.forSeconds) && SentAt(t.enqueued[i], t.history[a], t.history[b]);
    assert Streak(t.history, a, b);
  }

  /** A resolved alert is sent only at the good verdict that ends a streak. */
  lemma ResolvedAtTheEnd(forSeconds: seq<real>, events: seq<Event>, k: nat, i: nat)
    requires Run(forSeconds, events).Some? && k < |Run(forSeconds, events).value.rules|
    requires var t := Run(forSeconds, events).value.rules[k]; i < |t.enqueued| && t.enqueued[i].kind.Resolved?
    ensures var t := Run(forSeconds, events).value.rules[k];
            exists a, g ::
              && 0 <= a < g < |t.history| && t.history[a].verdict.Bad? && t.history[g].verdict.Good?
              && (forall m :: a <= m < g ==> !t.history[m].verdict.Good?)
              && SentAt(t.enqueued[i], t.history[a], t.history[g])
  {
    Invariant(forSeconds, events, k);
    var t := Run(forSeconds, events).value.rules[k];
    assert AlertOk(t.enqueued[i], t.history, t.forSeconds);
    var a, g :| EndsAt(t.history, a, g) && SentAt(t.enqueued[i], t.history[a], t.history[g]);
    assert Streak(t.history, a, g - 1);
  }

  /** The notifier is called for the first rule from `k` on that has something to deliver, or for none. */
  ghost predicate NextUp(rules: seq<Tracked>, k: nat, phase: Phase) {
    match phase
    case Idle => forall j :: k <= j < |rules| ==> rules[j].rule.outbox == []
    case Notifying(i, next) =>
      && k <= i < |rules| && rules[i].rule.outbox != [] && next == rules[i].rule.outbox[0]
      && forall j :: k <= j < i ==> rules[j].rule.outbox == []
  }

  lemma {:induction false} FlushFindsNextUp(rules: seq<Tracked>, k: nat)
    requires k <= |rules|
    ensures NextUp(rules, k, FlushFrom(rules, k))
    decreases |rules| - k
  {
    if k < |rules| && rules[k].rule.outbox == [] { FlushFindsNextUp(rules, k + 1); }
  }

  /**
   * After an evaluation every rule's outbox is delivered in turn: a rule's next alert when one was
   * taken, the next rule when one was refused.
   */
  lemma NotifiesInTurn(forSeconds: seq<real>, events: seq<Event>, e: Event)
    requires Run(forSeconds, events).Some? && Enabled(Run(forSeconds, events).value, e)
    ensures var s := Run(forSeconds, events).value;
            var t := Apply(s, e);
            if s.phase.Idle? then NextUp(t.rules, 0, t.phase)
            else match e
                 case Evaluate(_, _) => t == s
                 case NotifyResolves => NextUp(t.rules, s.phase.rule, t.phase)
                 case NotifyRejects => t.rules == s.rules && NextUp(t.rules, s.phase.rule + 1, t.phase)
  {
    var s := Run(forSeconds, events).value;
    var t := Apply(s, e);
    if s.phase.Idle? {
      FlushFindsNextUp(t.rules, 0);
    } else if e.NotifyResolves? {
      FlushFindsNextUp(t.rules, s.phase.rule);
    } else if e.NotifyRejects? {
      FlushFindsNextUp(t.rules, s.phase.rule + 1);
    }
  }

  /** What an event adds to the record of rule `k`; a call that overlaps another adds nothing. */
  lemma EventsAreRecorded(forSeconds: seq<real>, events: seq<Event>, e: Event, k: nat)
    requires Run(forSeconds, events).Some? && Enabled(Run(forSeconds, events).value, e)
    requires k < |Run(forSeconds, events).value.rules|
    ensures var s := Run(forSeconds, events).value;
            var t := Apply(s, e);
            && |t.rules| == |s.rules|
            && t.rules[k].history
               == s.rules[k].history
                  + (if e.Evaluate? && s.phase.Idle? then [Observation(e.now, e.verdicts[k])] else [])
            && t.rules[k].delivered
               == s.rules[k].delivered
                  + (if e.NotifyResolves? && k == s.phase.rule then [s.phase.next] else [])
  {
  }
}

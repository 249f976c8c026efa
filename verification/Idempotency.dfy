/**
 * Idempotent execution: any number of processes, each with its in-flight table, over one shared
 * store in which the first writer wins.
 *
 * The store is `MemoryStore`, proved against `Lookup` and `Swept`. The executor is a step
 * relation: an event is one uninterrupted stretch of the program between two awaits.
 */
module Idempotency {
  import opened Decimal
  import opened Wrappers

  // ----- names

  datatype Slot = Slot(scope: string, key: string)

  function EntryId(slot: Slot): string {
    ToDecimal(|slot.scope|) + ":" + slot.scope + ":" + slot.key
  }

  lemma {:induction false} SplitAtColon(a: string, b: string, x: string, y: string)
    requires AllDigits(a) && AllDigits(b)
    requires a + ":" + x == b + ":" + y
    ensures a == b && x == y
  {
    var left, right := a + ":" + x, b + ":" + y;
    assert left[|a|] == ':' && right[|b|] == ':';
    assert forall i :: 0 <= i < |a| ==> left[i] == a[i] && a[i] != ':';
    assert forall i :: 0 <= i < |b| ==> right[i] == b[i] && b[i] != ':';
    assert left[..|a|] == a && right[..|b|] == b;
    assert left[|a| + 1..] == x && right[|b| + 1..] == y;
  }

  /** The length prefix makes the joined text name one scope and one key, whatever they contain. */
  lemma EntryIdInjective(a: Slot, b: Slot)
    requires EntryId(a) == EntryId(b)
    ensures a == b
  {
    var x, y := a.scope + ":" + a.key, b.scope + ":" + b.key;
    assert EntryId(a) == ToDecimal(|a.scope|) + ":" + x;
    assert EntryId(b) == ToDecimal(|b.scope|) + ":" + y;
    SplitAtColon(ToDecimal(|a.scope|), ToDecimal(|b.scope|), x, y);
    ToDecimalInjective(|a.scope|, |b.scope|);
    assert x[..|a.scope|] == a.scope && y[..|b.scope|] == b.scope;
    assert x[|a.scope| + 1..] == a.key && y[|b.scope| + 1..] == b.key;
  }

  // ----- the store

  datatype Response = Response(status: int, body: string, transient: bool)
  datatype Stored = Stored(requestHash: string, status: int, body: string, expiresAt: int)
  type Entries = map<Slot, Stored>

  function Lookup(entries: Entries, slot: Slot, now: int): Option<Stored> {
    if slot in entries && entries[slot].expiresAt > now then Some(entries[slot]) else None
  }

  /** A lookup drops the entry it finds expired. */
  function Swept(entries: Entries, slot: Slot, now: int): Entries {
    if Lookup(entries, slot, now).None? then entries - {slot} else entries
  }

  class MemoryStore {
    var entries: map<string, Stored>
    ghost var contents: Entries

    ghost predicate Valid()
      reads this
    {
      && (forall slot :: slot in contents <==> EntryId(slot) in entries)
      && (forall slot :: slot in contents ==> entries[EntryId(slot)] == contents[slot])
    }

    constructor ()
      ensures Valid() && contents == map[]
    {
      entries, contents := map[], map[];
    }

    method Get(scope: string, key: string, now: int) returns (found: Option<Stored>)
      requires Valid()
      modifies this
      ensures Valid()
      ensures found == Lookup(old(contents), Slot(scope, key), now)
      ensures contents == Swept(old(contents), Slot(scope, key), now)
    {
      ghost var slot := Slot(scope, key);
      var id := EntryId(Slot(scope, key));
      if id !in entries {
        assert contents - {slot} == contents;
        return None;
      }
      if entries[id].expiresAt <= now {
        entries := entries - {id};
        contents := contents - {slot};
        forall other: Slot ensures other in contents <==> EntryId(other) in entries {
          if EntryId(other) == id { EntryIdInjective(other, slot); }
        }
        return None;
      }
      return Some(entries[id]);
    }

    /** `later` is the second reading of the clock, taken when the entry is written. */
    method PutIfAbsent(scope: string, key: string, requestHash: string, response: Response,
                       ttlMs: int, now: int, later: int)
      returns (existing: Option<Stored>)
      requires Valid()
      modifies this
      ensures Valid()
      ensures existing == Lookup(old(contents), Slot(scope, key), now)
      ensures contents == if existing.Some? then old(contents)
                          else old(contents)[Slot(scope, key) :=
                                 Stored(requestHash, response.status, response.body, later + ttlMs)]
    {
      ghost var slot := Slot(scope, key);
      existing := Get(scope, key, now);
      if existing.None? {
        var stored := Stored(requestHash, response.status, response.body, later + ttlMs);
        entries := entries[EntryId(Slot(scope, key)) := stored];
        contents := contents[slot := stored];
        forall other: Slot ensures EntryId(other) == EntryId(slot) <==> other == slot {
          if EntryId(other) == EntryId(slot) { EntryIdInjective(other, slot); }
        }
        assert contents == old(contents)[slot := stored];
      }
    }
  }

  // ----- the executor

  datatype Outcome =
    | Handler(status: int, body: string)
    | Replay(status: int, body: string)
    | Conflict

  function OutcomeFromStored(stored: Stored, requestHash: string): Outcome {
    if stored.requestHash != requestHash then Conflict else Replay(stored.status, stored.body)
  }

  type ProcessId = nat
  type RequestId = nat

  datatype Phase =
    | Waiting(owner: RequestId)      // awaiting another run of this process
    | Asked                          // store.get is out
    | Missed(seen: nat)         // it found nothing; `seen` entries had been written by then
    | Handling
    | Putting(response: Response)    // store.putIfAbsent is out
    | Settled(outcome: Option<Outcome>, decision: Option<nat>)   // None: rejected; still in the table
    | Answered(outcome: Option<Outcome>, decision: Option<nat>)

  datatype Request = Request(process: ProcessId, slot: Slot, hash: string, phase: Phase)

  /** An entry as it was written, kept after the store dropped it. */
  datatype Written = Written(slot: Slot, stored: Stored, at: int, process: ProcessId)

  /** An answer taken from an entry or stored into one, with the time of that store operation. */
  datatype Decision = Decision(slot: Slot, hash: string, at: int, outcome: Outcome)

  datatype Config = Config(ttlMs: int, shouldStore: Response -> bool)

  datatype State = State(
    clock: int,
    entries: Entries,
    inFlight: map<(ProcessId, string), RequestId>,
    requests: map<RequestId, Request>,
    written: seq<Written>,
    decisions: seq<Decision>)

  datatype Event =
    | Tick(now: int)
    | Call(r: RequestId, process: ProcessId, slot: Slot, hash: string)
    | Wake(r: RequestId)
    | Get(r: RequestId)
    | Start(r: RequestId)
    | Finish(r: RequestId, response: Response)
    | Put(r: RequestId, later: int)
    | PutLost(r: RequestId, later: int)   // the write landed, its answer did not
    | Fail(r: RequestId)                  // the store or the handler threw
    | Clear(r: RequestId)                 // `finally`: leave the in-flight table

  function Initial(): State {
    State(0, map[], map[], map[], [], [])
  }

  /** Owns the in-flight entry of its process and slot. */
  predicate Owns(phase: Phase) {
    !phase.Waiting? && !phase.Answered?
  }

  predicate Enabled(s: State, e: Event) {
    match e
    case Tick(now) => s.clock <= now
    case Call(r, _, _, _) => r !in s.requests
    case Wake(r) =>
      && r in s.requests && s.requests[r].phase.Waiting?
      && s.requests[r].phase.owner in s.requests
      && var owner := s.requests[s.requests[r].phase.owner].phase; (owner.Settled? || owner.Answered?)
    case Get(r) => r in s.requests && s.requests[r].phase.Asked?
    case Start(r) => r in s.requests && s.requests[r].phase.Missed?
    case Finish(r, _) => r in s.requests && s.requests[r].phase.Handling?
    case Put(r, later) => r in s.requests && s.requests[r].phase.Putting? && s.clock <= later
    case PutLost(r, later) => r in s.requests && s.requests[r].phase.Putting? && s.clock <= later
    case Fail(r) =>
      && r in s.requests
      && (s.requests[r].phase.Asked? || s.requests[r].phase.Handling? || s.requests[r].phase.Putting?)
    case Clear(r) => r in s.requests && s.requests[r].phase.Settled?
  }

  function Key(q: Request): (ProcessId, string) {
    (q.process, EntryId(q.slot))
  }

  function Move(s: State, r: RequestId, phase: Phase): State
    requires r in s.requests
  {
    s.(requests := s.requests[r := s.requests[r].(phase := phase)])
  }

  /** The head of `execute`: wait for the run in flight, or become it. */
  function Enter(s: State, r: RequestId, q: Request): State {
    if Key(q) in s.inFlight then
      s.(requests := s.requests[r := q.(phase := Waiting(s.inFlight[Key(q)]))])
    else
      s.(requests := s.requests[r := q.(phase := Asked)], inFlight := s.inFlight[Key(q) := r])
  }

  function Decide(s: State, r: RequestId, outcome: Outcome): State
    requires r in s.requests
  {
    var q := s.requests[r];
    var t := s.(decisions := s.decisions + [Decision(q.slot, q.hash, s.clock, outcome)]);
    Move(t, r, Settled(Some(outcome), Some(|s.decisions|)))
  }

  /** `putIfAbsent` writing at `later`. */
  function Write(c: Config, s: State, q: Request, later: int): State
    requires q.phase.Putting?
  {
    var stored := Stored(q.hash, q.phase.response.status, q.phase.response.body, later + c.ttlMs);
    s.(clock := later,
       entries := s.entries[q.slot := stored],
       written := s.written + [Written(q.slot, stored, later, q.process)])
  }

  function Apply(c: Config, s: State, e: Event): State
    requires Enabled(s, e)
  {
    match e
    case Tick(now) => s.(clock := now)
    case Call(r, process, slot, hash) => Enter(s, r, Request(process, slot, hash, Asked))
    case Wake(r) => Enter(s, r, s.requests[r])
    case Get(r) =>
      var q := s.requests[r];
      var t := s.(entries := Swept(s.entries, q.slot, s.clock));
      var found := Lookup(s.entries, q.slot, s.clock);
      if found.None? then Move(t, r, Missed(|s.written|)) else Decide(t, r, OutcomeFromStored(found.value, q.hash))
    case Start(r) => Move(s, r, Handling)
    case Finish(r, response) =>
      if response.transient || !c.shouldStore(response) then
        Move(s, r, Settled(Some(Handler(response.status, response.body)), None))
      else
        Move(s, r, Putting(response))
    case Put(r, later) =>
      var q := s.requests[r];
      var found := Lookup(s.entries, q.slot, s.clock);
      if found.Some? then Decide(s, r, OutcomeFromStored(found.value, q.hash))
      else Decide(Write(c, s, q, later), r, Handler(q.phase.response.status, q.phase.response.body))
    case PutLost(r, later) =>
      var q := s.requests[r];
      var t := if Lookup(s.entries, q.slot, s.clock).Some? then s else Write(c, s, q, later);
      Move(t, r, Settled(None, None))
    case Fail(r) => Move(s, r, Settled(None, None))
    case Clear(r) =>
      var q := s.requests[r];
      Move(s.(inFlight := s.inFlight - {Key(q)}), r, Answered(q.phase.outcome, q.phase.decision))
  }

  /** The state a run of events reaches, if every one of them was possible. */
  function Run(c: Config, events: seq<Event>): Option<State> {
    if events == [] then Some(Initial())
    else
      var before := Run(c, events[..|events| - 1]);
      var e := events[|events| - 1];
      if before.Some? && Enabled(before.value, e) then Some(Apply(c, before.value, e)) else None
  }

  // ----- what every step keeps

  ghost predicate TableOk(s: State) {
    && (forall k :: k in s.inFlight ==>
          && s.inFlight[k] in s.requests
          && Owns(s.requests[s.inFlight[k]].phase)
          && Key(s.requests[s.inFlight[k]]) == k)
    && (forall r :: r in s.requests && Owns(s.requests[r].phase) ==>
          Key(s.requests[r]) in s.inFlight && s.inFlight[Key(s.requests[r])] == r)
  }

  ghost predicate LiveAt(w: Written, now: int) {
    w.at <= now < w.stored.expiresAt
  }

  ghost predicate HasSource(s: State, slot: Slot)
    requires slot in s.entries
  {
    exists i :: 0 <= i < |s.written| && s.written[i].slot == slot && s.written[i].stored == s.entries[slot]
  }

  ghost predicate StoreOk(c: Config, s: State) {
    && (forall i :: 0 <= i < |s.written| ==>
          s.written[i].at <= s.clock && s.written[i].stored.expiresAt == s.written[i].at + c.ttlMs)
    && (forall i, j :: 0 <= i < j < |s.written| && s.written[i].slot == s.written[j].slot ==>
          s.written[i].stored.expiresAt <= s.written[j].at)
    && (forall slot :: slot in s.entries ==> HasSource(s, slot))
    && (forall i :: 0 <= i < |s.written| && LiveAt(s.written[i], s.clock) ==>
          s.written[i].slot in s.entries && s.entries[s.written[i].slot] == s.written[i].stored)
  }

  /** What an entry says to a request of that hash. */
  ghost predicate Carries(outcome: Outcome, stored: Stored, hash: string) {
    if hash == stored.requestHash
    then !outcome.Conflict? && outcome.status == stored.status && outcome.body == stored.body
    else outcome == Conflict
  }

  ghost predicate DecisionsOk(c: Config, s: State) {
    forall k :: 0 <= k < |s.decisions| ==> DecisionOk(c, s, s.decisions[k])
  }

  /** It has a source among the entries live then, and says what every entry live then says. */
  ghost predicate DecisionOk(c: Config, s: State, d: Decision) {
    && d.at <= s.clock
    && (c.ttlMs > 0 ==> exists i :: Speaks(s, i, d))
    && forall i :: Speaks(s, i, d) ==> Carries(d.outcome, s.written[i].stored, d.hash)
  }

  ghost predicate Speaks(s: State, i: int, d: Decision) {
    0 <= i < |s.written| && s.written[i].slot == d.slot && LiveAt(s.written[i], d.at)
  }

  /** A settled answer is the decision it points at, or was not for storing. */
  ghost predicate AnswersOk(c: Config, s: State) {
    forall r :: r in s.requests && (s.requests[r].phase.Settled? || s.requests[r].phase.Answered?) ==>
      AnswerOk(c, s.decisions, s.requests[r])
  }

  ghost predicate AnswerOk(c: Config, decisions: seq<Decision>, q: Request)
    requires q.phase.Settled? || q.phase.Answered?
  {
    match q.phase.decision
    case Some(k) =>
      && k < |decisions| && q.phase.outcome == Some(decisions[k].outcome)
      && decisions[k].slot == q.slot && decisions[k].hash == q.hash
    case None =>
      q.phase.outcome.Some? ==> exists response: Response ::
        && q.phase.outcome.value == Handler(response.status, response.body)
        && (response.transient || !c.shouldStore(response))
  }

  /** A request that found nothing: whatever is written there since came from another process. */
  ghost predicate MissedOk(s: State) {
    forall r :: r in s.requests && s.requests[r].phase.Missed? ==>
      MissOk(s, s.requests[r], s.requests[r].phase.seen)
  }

  ghost predicate MissOk(s: State, q: Request, seen: nat) {
    && seen <= |s.written|
    && (forall i :: 0 <= i < seen && s.written[i].slot == q.slot ==> s.written[i].stored.expiresAt <= s.clock)
    && (forall i :: seen <= i < |s.written| && s.written[i].slot == q.slot ==> s.written[i].process != q.process)
  }

  ghost predicate Storable(c: Config, response: Response) {
    !response.transient && c.shouldStore(response)
  }

  /** What waits to be written, and what was, is for storing. */
  ghost predicate OnlyStorable(c: Config, s: State) {
    && (forall r :: r in s.requests && s.requests[r].phase.Putting? ==> Storable(c, s.requests[r].phase.response))
    && (forall i :: 0 <= i < |s.written| ==> FromStorable(c, s.written[i].stored))
  }

  ghost predicate FromStorable(c: Config, stored: Stored) {
    exists response: Response ::
      Storable(c, response) && stored.status == response.status && stored.body == response.body
  }

  ghost predicate Inv(c: Config, s: State) {
    TableOk(s) && StoreOk(c, s) && DecisionsOk(c, s) && AnswersOk(c, s) && MissedOk(s) && OnlyStorable(c, s)
  }

  lemma MoveKeepsTable(s: State, r: RequestId, phase: Phase)
    requires TableOk(s) && r in s.requests && Owns(s.requests[r].phase) && Owns(phase)
    ensures TableOk(Move(s, r, phase))
  {
  }

  /** A request that owns nothing waits for the run in flight. */
  lemma WaitKeepsTable(s: State, r: RequestId, q: Request)
    requires TableOk(s) && q.phase.Waiting?
    requires r in s.requests ==> !Owns(s.requests[r].phase)
    ensures TableOk(s.(requests := s.requests[r := q]))
  {
    forall k | k in s.inFlight ensures s.inFlight[k] != r {}
  }

  /** Or becomes it. */
  lemma OwnKeepsTable(s: State, r: RequestId, q: Request)
    requires TableOk(s) && q.phase.Asked? && Key(q) !in s.inFlight
    requires r in s.requests ==> !Owns(s.requests[r].phase)
    ensures TableOk(s.(requests := s.requests[r := q], inFlight := s.inFlight[Key(q) := r]))
  {
    forall k | k in s.inFlight ensures s.inFlight[k] != r {}
  }

  lemma EnterKeepsTable(s: State, r: RequestId, q: Request)
    requires TableOk(s)
    requires r in s.requests ==> !Owns(s.requests[r].phase)
    ensures TableOk(Enter(s, r, q))
  {
    if Key(q) in s.inFlight {
      WaitKeepsTable(s, r, q.(phase := Waiting(s.inFlight[Key(q)])));
    } else {
      OwnKeepsTable(s, r, q.(phase := Asked));
    }
  }

  lemma ClearKeepsTable(c: Config, s: State, r: RequestId)
    requires TableOk(s) && Enabled(s, Clear(r))
    ensures TableOk(Apply(c, s, Clear(r)))
  {
  }

  lemma TableFrame(s: State, t: State)
    requires TableOk(s) && t.inFlight == s.inFlight && t.requests == s.requests
    ensures TableOk(t)
  {
  }

  lemma TableStep(c: Config, s: State, e: Event)
    requires TableOk(s) && Enabled(s, e)
    ensures TableOk(Apply(c, s, e))
  {
    match e
    case Tick(_) => TableFrame(s, Apply(c, s, e));
    case Call(r, process, slot, hash) => EnterKeepsTable(s, r, Request(process, slot, hash, Asked));
    case Wake(r) => EnterKeepsTable(s, r, s.requests[r]);
    case Clear(r) => ClearKeepsTable(c, s, r);
    case Get(r) => MoveStepKeepsTable(c, s, e, r);
    case Start(r) => MoveStepKeepsTable(c, s, e, r);
    case Finish(r, _) => MoveStepKeepsTable(c, s, e, r);
    case Put(r, _) => MoveStepKeepsTable(c, s, e, r);
    case PutLost(r, _) => MoveStepKeepsTable(c, s, e, r);
    case Fail(r) => MoveStepKeepsTable(c, s, e, r);
  }

  /** The other events move one request that owns its slot, and leave it owning it. */
  lemma MoveStepShape(c: Config, s: State, e: Event, r: RequestId)
    requires Enabled(s, e) && !e.Tick? && !e.Call? && !e.Wake? && !e.Clear? && e.r == r
    ensures var t := Apply(c, s, e);
            && t.inFlight == s.inFlight && r in s.requests && r in t.requests
            && t.requests == s.requests[r := s.requests[r].(phase := t.requests[r].phase)]
            && Owns(s.requests[r].phase) && Owns(t.requests[r].phase)
  {
  }

  lemma MoveStepKeepsTable(c: Config, s: State, e: Event, r: RequestId)
    requires TableOk(s) && Enabled(s, e) && !e.Tick? && !e.Call? && !e.Wake? && !e.Clear? && e.r == r
    ensures TableOk(Apply(c, s, e))
  {
    var t := Apply(c, s, e);
    MoveStepShape(c, s, e, r);
    MoveKeepsTable(s, r, t.requests[r].phase);
    TableFrame(Move(s, r, t.requests[r].phase), t);
  }

  lemma NothingLiveAfterMiss(c: Config, s: State, slot: Slot)
    requires StoreOk(c, s) && Lookup(s.entries, slot, s.clock).None?
    ensures forall i :: 0 <= i < |s.written| && s.written[i].slot == slot ==> s.written[i].stored.expiresAt <= s.clock
  {
    forall i | 0 <= i < |s.written| && s.written[i].slot == slot ensures s.written[i].stored.expiresAt <= s.clock {
      assert !LiveAt(s.written[i], s.clock);
    }
  }

  lemma WriteKeepsSources(c: Config, s: State, q: Request, later: int)
    requires StoreOk(c, s) && q.phase.Putting?
    ensures var t := Write(c, s, q, later); forall slot :: slot in t.entries ==> HasSource(t, slot)
  {
    var t := Write(c, s, q, later);
    forall slot | slot in t.entries ensures HasSource(t, slot) {
      if slot == q.slot {
        assert t.written[|s.written|].slot == slot;
      } else {
        assert HasSource(s, slot);
        var i :| 0 <= i < |s.written| && s.written[i].slot == slot && s.written[i].stored == s.entries[slot];
        assert t.written[i] == s.written[i];
      }
    }
  }

  lemma WriteKeepsStore(c: Config, s: State, q: Request, later: int)
    requires StoreOk(c, s) && q.phase.Putting? && s.clock <= later
    requires Lookup(s.entries, q.slot, s.clock).None?
    ensures StoreOk(c, Write(c, s, q, later))
  {
    var t := Write(c, s, q, later);
    var n := |s.written|;
    NothingLiveAfterMiss(c, s, q.slot);
    WriteKeepsSources(c, s, q, later);
    forall i | 0 <= i < n + 1 && LiveAt(t.written[i], t.clock)
      ensures t.written[i].slot in t.entries && t.entries[t.written[i].slot] == t.written[i].stored
    {
      if i < n { assert t.written[i] == s.written[i] && LiveAt(s.written[i], s.clock); }
    }
  }

  /** The clock moves on and what is expired may be dropped. */
  lemma StoreFrame(c: Config, s: State, t: State)
    requires StoreOk(c, s) && s.clock <= t.clock && t.written == s.written
    requires forall slot :: slot in t.entries ==> slot in s.entries && t.entries[slot] == s.entries[slot]
    requires forall slot :: slot in s.entries && slot !in t.entries ==> s.entries[slot].expiresAt <= t.clock
    ensures StoreOk(c, t)
  {
    forall slot | slot in t.entries ensures HasSource(t, slot) {
      assert HasSource(s, slot);
    }
    forall i | 0 <= i < |t.written| && LiveAt(t.written[i], t.clock)
      ensures t.written[i].slot in t.entries && t.entries[t.written[i].slot] == t.written[i].stored
    {
      assert LiveAt(s.written[i], s.clock);
    }
  }

  lemma StoreStep(c: Config, s: State, e: Event)
    requires StoreOk(c, s) && Enabled(s, e)
    ensures StoreOk(c, Apply(c, s, e))
  {
    if (e.Put? || e.PutLost?) && Lookup(s.entries, s.requests[e.r].slot, s.clock).None? {
      WriteKeepsStore(c, s, s.requests[e.r], e.later);
      StoreFrame(c, Write(c, s, s.requests[e.r], e.later), Apply(c, s, e));
    } else {
      StoreFrame(c, s, Apply(c, s, e));
    }
  }

  /** Answering from the store: the entry found is the only one live then. */
  lemma FoundDecides(c: Config, s: State, slot: Slot, hash: string)
    requires StoreOk(c, s) && Lookup(s.entries, slot, s.clock).Some?
    ensures DecisionOk(c, s, Decision(slot, hash, s.clock, OutcomeFromStored(s.entries[slot], hash)))
  {
    var d := Decision(slot, hash, s.clock, OutcomeFromStored(s.entries[slot], hash));
    assert HasSource(s, slot);
    var i :| 0 <= i < |s.written| && s.written[i].slot == slot && s.written[i].stored == s.entries[slot];
    assert Speaks(s, i, d);
  }

  /** A new entry is written after every decision, or at the same moment with nothing live before it. */
  lemma WriteKeepsDecision(c: Config, s: State, q: Request, later: int, d: Decision)
    requires StoreOk(c, s) && DecisionOk(c, s, d) && q.phase.Putting? && s.clock <= later
    requires Lookup(s.entries, q.slot, s.clock).None?
    ensures DecisionOk(c, Write(c, s, q, later), d)
  {
    var t := Write(c, s, q, later);
    if c.ttlMs > 0 {
      var k :| Speaks(s, k, d);
      assert d.slot == q.slot ==> !LiveAt(s.written[k], s.clock);
    }
    forall i ensures Speaks(t, i, d) <==> Speaks(s, i, d) {}
  }

  lemma DecisionFrame(c: Config, s: State, t: State, d: Decision)
    requires DecisionOk(c, s, d) && t.written == s.written && s.clock <= t.clock
    ensures DecisionOk(c, t, d)
  {
    forall i ensures Speaks(t, i, d) <==> Speaks(s, i, d) {}
  }

  /** Writing an entry decides for its writer. */
  lemma WriteDecides(c: Config, s: State, q: Request, later: int)
    requires StoreOk(c, s) && q.phase.Putting? && s.clock <= later
    requires Lookup(s.entries, q.slot, s.clock).None?
    ensures DecisionOk(c, Write(c, s, q, later),
                       Decision(q.slot, q.hash, later, Handler(q.phase.response.status, q.phase.response.body)))
  {
    var t := Write(c, s, q, later);
    var d := Decision(q.slot, q.hash, later, Handler(q.phase.response.status, q.phase.response.body));
    WriteKeepsStore(c, s, q, later);
    assert c.ttlMs > 0 ==> Speaks(t, |s.written|, d);
  }

  /** The event writes an entry. */
  predicate Writes(s: State, e: Event)
    requires Enabled(s, e)
  {
    (e.Put? || e.PutLost?) && Lookup(s.entries, s.requests[e.r].slot, s.clock).None?
  }

  lemma WrittenByStep(c: Config, s: State, e: Event)
    requires Enabled(s, e)
    ensures var t := Apply(c, s, e);
            var w := if Writes(s, e) then Write(c, s, s.requests[e.r], e.later) else s;
            && t.written == w.written && w.clock <= t.clock
            && s.decisions <= t.decisions && |t.decisions| <= |s.decisions| + 1
  {
  }

  lemma OldDecisionStays(c: Config, s: State, e: Event, d: Decision)
    requires StoreOk(c, s) && DecisionOk(c, s, d) && Enabled(s, e)
    ensures DecisionOk(c, Apply(c, s, e), d)
  {
    var t := Apply(c, s, e);
    WrittenByStep(c, s, e);
    if Writes(s, e) {
      WriteKeepsDecision(c, s, s.requests[e.r], e.later, d);
      DecisionFrame(c, Write(c, s, s.requests[e.r], e.later), t, d);
    } else {
      DecisionFrame(c, s, t, d);
    }
  }

  lemma NewDecision(c: Config, s: State, e: Event)
    requires StoreOk(c, s) && Enabled(s, e) && |Apply(c, s, e).decisions| > |s.decisions|
    ensures DecisionOk(c, Apply(c, s, e), Apply(c, s, e).decisions[|s.decisions|])
  {
    var t := Apply(c, s, e);
    var d := t.decisions[|s.decisions|];
    var q := s.requests[e.r];
    WrittenByStep(c, s, e);
    if Writes(s, e) {
      WriteDecides(c, s, q, e.later);
      DecisionFrame(c, Write(c, s, q, e.later), t, d);
    } else {
      FoundDecides(c, s, q.slot, q.hash);
      DecisionFrame(c, s, t, d);
    }
  }

  lemma DecisionsStep(c: Config, s: State, e: Event)
    requires StoreOk(c, s) && DecisionsOk(c, s) && Enabled(s, e)
    ensures DecisionsOk(c, Apply(c, s, e))
  {
    var t := Apply(c, s, e);
    WrittenByStep(c, s, e);
    forall k | 0 <= k < |t.decisions| ensures DecisionOk(c, t, t.decisions[k]) {
      if k < |s.decisions| { OldDecisionStays(c, s, e, s.decisions[k]); } else { NewDecision(c, s, e); }
    }
  }

  lemma AnswerFrame(c: Config, before: seq<Decision>, after: seq<Decision>, q: Request)
    requires q.phase.Settled? || q.phase.Answered?
    requires AnswerOk(c, before, q) && before <= after
    ensures AnswerOk(c, after, q)
  {
  }

  lemma AnswerStep(c: Config, s: State, e: Event, r: RequestId)
    requires AnswersOk(c, s) && Enabled(s, e) && r in Apply(c, s, e).requests
    requires var phase := Apply(c, s, e).requests[r].phase; phase.Settled? || phase.Answered?
    ensures AnswerOk(c, Apply(c, s, e).decisions, Apply(c, s, e).requests[r])
  {
    var t := Apply(c, s, e);
    if r in s.requests && t.requests[r] == s.requests[r] {
      WrittenByStep(c, s, e);
      AnswerFrame(c, s.decisions, t.decisions, s.requests[r]);
    } else if e.Clear? {
      assert AnswerOk(c, s.decisions, s.requests[r]);
    }
  }

  lemma AnswersStep(c: Config, s: State, e: Event)
    requires AnswersOk(c, s) && Enabled(s, e)
    ensures AnswersOk(c, Apply(c, s, e))
  {
    var t := Apply(c, s, e);
    forall r | r in t.requests && (t.requests[r].phase.Settled? || t.requests[r].phase.Answered?)
      ensures AnswerOk(c, t.decisions, t.requests[r])
    {
      AnswerStep(c, s, e, r);
    }
  }

  lemma MissFrame(s: State, t: State, q: Request, seen: nat)
    requires MissOk(s, q, seen) && s.written == t.written && s.clock <= t.clock
    ensures MissOk(t, q, seen)
  {
  }

  /** Of one process and slot one run is in flight, so whoever writes there is of another process. */
  lemma WriteKeepsMiss(c: Config, s: State, writer: Request, later: int, q: Request, seen: nat)
    requires MissOk(s, q, seen) && writer.phase.Putting? && s.clock <= later
    requires writer.slot == q.slot ==> writer.process != q.process
    ensures MissOk(Write(c, s, writer, later), q, seen)
  {
  }

  lemma NothingLiveMisses(c: Config, s: State, q: Request)
    requires StoreOk(c, s) && Lookup(s.entries, q.slot, s.clock).None?
    ensures MissOk(s, q, |s.written|)
  {
    NothingLiveAfterMiss(c, s, q.slot);
  }

  lemma MissedStep(c: Config, s: State, e: Event)
    requires TableOk(s) && StoreOk(c, s) && MissedOk(s) && Enabled(s, e)
    ensures MissedOk(Apply(c, s, e))
  {
    var t := Apply(c, s, e);
    forall r | r in t.requests && t.requests[r].phase.Missed?
      ensures MissOk(t, t.requests[r], t.requests[r].phase.seen)
    {
      if e.Get? && e.r == r {
        JustMissed(c, s, r);
      } else {
        MissedWasMissed(c, s, e, r);
        StillMissed(c, s, e, r);
      }
    }
  }

  lemma JustMissed(c: Config, s: State, r: RequestId)
    requires StoreOk(c, s) && Enabled(s, Get(r)) && Apply(c, s, Get(r)).requests[r].phase.Missed?
    ensures var t := Apply(c, s, Get(r)); MissOk(t, t.requests[r], t.requests[r].phase.seen)
  {
    var t := Apply(c, s, Get(r));
    NothingLiveMisses(c, s, t.requests[r]);
    MissFrame(s, t, t.requests[r], |s.written|);
  }

  lemma MissedWasMissed(c: Config, s: State, e: Event, r: RequestId)
    requires Enabled(s, e) && !(e.Get? && e.r == r)
    requires r in Apply(c, s, e).requests && Apply(c, s, e).requests[r].phase.Missed?
    ensures r in s.requests && s.requests[r] == Apply(c, s, e).requests[r]
  {
  }

  lemma StillMissed(c: Config, s: State, e: Event, r: RequestId)
    requires TableOk(s) && MissedOk(s) && Enabled(s, e)
    requires r in s.requests && s.requests[r].phase.Missed?
    ensures MissOk(Apply(c, s, e), s.requests[r], s.requests[r].phase.seen)
  {
    var q := s.requests[r];
    var t := Apply(c, s, e);
    if (e.Put? || e.PutLost?) && Lookup(s.entries, s.requests[e.r].slot, s.clock).None? {
      var writer := s.requests[e.r];
      assert writer.slot == q.slot && writer.process == q.process ==> Key(writer) == Key(q);
      WriteKeepsMiss(c, s, writer, e.later, q, q.phase.seen);
      MissFrame(Write(c, s, writer, e.later), t, q, q.phase.seen);
    } else {
      MissFrame(s, t, q, q.phase.seen);
    }
  }

  lemma StorableStep(c: Config, s: State, e: Event)
    requires OnlyStorable(c, s) && Enabled(s, e)
    ensures OnlyStorable(c, Apply(c, s, e))
  {
    var t := Apply(c, s, e);
    forall i | 0 <= i < |t.written| ensures FromStorable(c, t.written[i].stored) {
      if i < |s.written| {
        assert t.written[i] == s.written[i];
      } else {
        assert Storable(c, s.requests[e.r].phase.response);
      }
    }
  }

  lemma {:induction false} Invariant(c: Config, events: seq<Event>)
    requires Run(c, events).Some?
    ensures Inv(c, Run(c, events).value)
  {
    if events != [] {
      var front, e := events[..|events| - 1], events[|events| - 1];
      Invariant(c, front);
      var s := Run(c, front).value;
      TableStep(c, s, e);
      StoreStep(c, s, e);
      DecisionsStep(c, s, e);
      AnswersStep(c, s, e);
      MissedStep(c, s, e);
      StorableStep(c, s, e);
    }
  }

  // ----- what each request is answered, for every run

  /** `written[i]` is a live entry of the request's slot. */
  ghost predicate LiveFor(s: State, r: RequestId, i: int) {
    && r in s.requests && 0 <= i < |s.written|
    && s.written[i].slot == s.requests[r].slot && LiveAt(s.written[i], s.clock)
  }

  /** A request of the process in flight for the slot. */
  ghost predicate InFlight(s: State, owner: RequestId, process: ProcessId, slot: Slot) {
    && owner in s.requests && Owns(s.requests[owner].phase)
    && s.requests[owner].process == process && s.requests[owner].slot == slot
  }

  /** A request coming in or waking up waits for the one in flight, or looks up if there is none. */
  lemma WaitsOrLooksUp(c: Config, events: seq<Event>, e: Event)
    requires Run(c, events).Some? && Enabled(Run(c, events).value, e) && (e.Call? || e.Wake?)
    ensures var s := Run(c, events).value;
            var t := Apply(c, s, e);
            && e.r in t.requests
            && var q := t.requests[e.r];
               && (e.Call? ==> q.process == e.process && q.slot == e.slot && q.hash == e.hash)
               && (e.Wake? ==>
                     && q == s.requests[e.r].(phase := q.phase)
                     && s.requests[e.r].phase.Waiting? && s.requests[e.r].phase.owner in s.requests
                     && var owner := s.requests[s.requests[e.r].phase.owner].phase;
                        owner.Settled? || owner.Answered?)
               && (q.phase.Asked? || q.phase.Waiting?)
               && (q.phase.Waiting? ==> InFlight(s, q.phase.owner, q.process, q.slot))
               && (q.phase.Asked? ==> forall owner :: !InFlight(s, owner, q.process, q.slot))
  {
    Invariant(c, events);
    var s := Run(c, events).value;
    var q := Apply(c, s, e).requests[e.r];
    if q.phase.Waiting? { EntryIdInjective(q.slot, s.requests[q.phase.owner].slot); }
  }

  ghost predicate Ends(phase: Phase, outcome: Option<Outcome>, decision: Option<nat>) {
    phase == Settled(outcome, decision) || phase == Answered(outcome, decision)
  }

  lemma SettledStep(c: Config, s: State, e: Event, r: RequestId)
    requires Enabled(s, e) && r in s.requests && (s.requests[r].phase.Settled? || s.requests[r].phase.Answered?)
    ensures r in Apply(c, s, e).requests
    ensures Ends(Apply(c, s, e).requests[r].phase, s.requests[r].phase.outcome, s.requests[r].phase.decision)
  {
  }

  /** What a request settled with is what it is answered, whatever happens in between. */
  lemma {:induction false} SettledIsHandedOut(c: Config, events: seq<Event>, more: seq<Event>, r: RequestId)
    requires Run(c, events).Some? && Run(c, events + more).Some? && r in Run(c, events).value.requests
    requires var phase := Run(c, events).value.requests[r].phase; phase.Settled? || phase.Answered?
    ensures r in Run(c, events + more).value.requests
    ensures var phase := Run(c, events).value.requests[r].phase;
            Ends(Run(c, events + more).value.requests[r].phase, phase.outcome, phase.decision)
  {
    if more == [] {
      assert events + more == events;
    } else {
      assert (events + more)[..|events + more| - 1] == events + more[..|more| - 1];
      SettledIsHandedOut(c, events, more[..|more| - 1], r);
      SettledStep(c, Run(c, events + more[..|more| - 1]).value, more[|more| - 1], r);
    }
  }

  /** Leaving the table answers the request with what it settled with, and frees its slot. */
  lemma ClearAnswers(c: Config, events: seq<Event>, r: RequestId)
    requires Run(c, events).Some? && Enabled(Run(c, events).value, Clear(r))
    ensures var s := Run(c, events).value;
            var t := Apply(c, s, Clear(r));
            var phase := s.requests[r].phase;
            && t.requests == s.requests[r := s.requests[r].(phase := Answered(phase.outcome, phase.decision))]
            && Key(s.requests[r]) in s.inFlight && Key(s.requests[r]) !in t.inFlight
            && t.written == s.written && t.entries == s.entries
  {
    Invariant(c, events);
  }

  lemma LiveIsFound(c: Config, s: State, r: RequestId, i: int)
    requires StoreOk(c, s) && LiveFor(s, r, i)
    ensures Lookup(s.entries, s.requests[r].slot, s.clock) == Some(s.written[i].stored)
  {
  }

  /**
   * A lookup, or a write, that comes to a live entry of its slot has the request answered by that
   * entry: its status and body to the hash it was written for, the conflict to any other.
   */
  lemma LiveEntryIsReplayed(c: Config, events: seq<Event>, e: Event, i: nat, more: seq<Event>)
    requires Run(c, events).Some? && Enabled(Run(c, events).value, e) && (e.Get? || e.Put?)
    requires LiveFor(Run(c, events).value, e.r, i) && Run(c, events + [e] + more).Some?
    ensures e.r in Run(c, events + [e] + more).value.requests
    ensures var s := Run(c, events).value;
            var w := s.written[i].stored;
            var phase := Run(c, events + [e] + more).value.requests[e.r].phase;
            && (phase.Settled? || phase.Answered?)
            && phase.outcome
               == Some(if s.requests[e.r].hash == w.requestHash then Replay(w.status, w.body) else Conflict)
  {
    Invariant(c, events);
    LiveIsFound(c, Run(c, events).value, e.r, i);
    var _ := Extend(c, events, Run(c, events).value, e);
    SettledIsHandedOut(c, events + [e], more, e.r);
  }

  lemma NothingLiveIsMissed(c: Config, s: State, slot: Slot)
    requires StoreOk(c, s) && !EntryLive(s, slot)
    ensures Lookup(s.entries, slot, s.clock).None?
  {
    if slot in s.entries {
      assert HasSource(s, slot);
      var i :| 0 <= i < |s.written| && s.written[i].slot == slot && s.written[i].stored == s.entries[slot];
      assert !LiveAt(s.written[i], s.clock);
    }
  }

  /** With nothing live the lookup sends the request on to its handler. */
  lemma NothingLiveRunsHandler(c: Config, events: seq<Event>, r: RequestId)
    requires Run(c, events).Some? && Enabled(Run(c, events).value, Get(r))
    requires !EntryLive(Run(c, events).value, Run(c, events).value.requests[r].slot)
    ensures var s := Run(c, events).value;
            var t := Apply(c, s, Get(r));
            && t.requests == s.requests[r := s.requests[r].(phase := Missed(|s.written|))]
            && Enabled(t, Start(r))
            && Apply(c, t, Start(r)).requests == s.requests[r := s.requests[r].(phase := Handling)]
            && t.written == s.written
  {
    Invariant(c, events);
    NothingLiveIsMissed(c, Run(c, events).value, Run(c, events).value.requests[r].slot);
  }

  /** A response that may be stored goes to the store; any other is the answer at once. */
  lemma ResponseIsStoredOrAnswered(c: Config, events: seq<Event>, r: RequestId, response: Response, more: seq<Event>)
    requires Run(c, events).Some? && Enabled(Run(c, events).value, Finish(r, response))
    requires Run(c, events + [Finish(r, response)] + more).Some?
    ensures var s := Run(c, events).value;
            var t := Apply(c, s, Finish(r, response));
            && (!response.transient && c.shouldStore(response) <==> Enabled(t, Put(r, s.clock)))
            && (!response.transient && c.shouldStore(response) ==> t.requests[r].phase == Putting(response))
            && t.entries == s.entries && t.written == s.written
    ensures response.transient || !c.shouldStore(response) ==>
              && r in Run(c, events + [Finish(r, response)] + more).value.requests
              && Ends(Run(c, events + [Finish(r, response)] + more).value.requests[r].phase,
                      Some(Handler(response.status, response.body)), None)
  {
    var t := Extend(c, events, Run(c, events).value, Finish(r, response));
    if t.requests[r].phase.Settled? {
      SettledIsHandedOut(c, events + [Finish(r, response)], more, r);
    }
  }

  lemma WriteLands(c: Config, s: State, e: Event)
    requires Enabled(s, e) && (e.Put? || e.PutLost?) && Lookup(s.entries, s.requests[e.r].slot, s.clock).None?
    ensures var t := Apply(c, s, e);
            var q := s.requests[e.r];
            var stored := Stored(q.hash, q.phase.response.status, q.phase.response.body, e.later + c.ttlMs);
            && t.clock == e.later && t.entries == s.entries[q.slot := stored]
            && t.written == s.written + [Written(q.slot, stored, e.later, q.process)]
            && e.r in t.requests && t.requests[e.r].phase.Settled?
            && (e.Put? ==> t.requests[e.r].phase.outcome
                           == Some(Handler(q.phase.response.status, q.phase.response.body)))
  {
  }

  /**
   * With nothing live a write lands, whether or not its answer does: one more entry, of the handler's
   * response and for the request's hash, good for `ttlMs` from then on.
   */
  lemma NothingLiveIsWritten(c: Config, events: seq<Event>, e: Event)
    requires Run(c, events).Some? && Enabled(Run(c, events).value, e) && (e.Put? || e.PutLost?)
    requires !EntryLive(Run(c, events).value, Run(c, events).value.requests[e.r].slot)
    ensures var s := Run(c, events).value;
            var t := Apply(c, s, e);
            var q := s.requests[e.r];
            var stored := Stored(q.hash, q.phase.response.status, q.phase.response.body, e.later + c.ttlMs);
            && t.clock == e.later && t.entries == s.entries[q.slot := stored]
            && t.written == s.written + [Written(q.slot, stored, e.later, q.process)]
            && e.r in t.requests && t.requests[e.r].phase.Settled?
            && (e.Put? ==> t.requests[e.r].phase.outcome
                           == Some(Handler(q.phase.response.status, q.phase.response.body)))
  {
    Invariant(c, events);
    NothingLiveIsMissed(c, Run(c, events).value, Run(c, events).value.requests[e.r].slot);
    WriteLands(c, Run(c, events).value, e);
  }

  /** The store or the handler threw in the run of that request. */
  predicate Failing(e: Event, r: RequestId) {
    (e.Fail? || e.PutLost?) && e.r == r
  }

  predicate Rejected(s: State, r: RequestId) {
    && r in s.requests && (s.requests[r].phase.Settled? || s.requests[r].phase.Answered?)
    && s.requests[r].phase.outcome.None?
  }

  lemma RejectedStep(c: Config, s: State, e: Event, r: RequestId)
    requires Enabled(s, e)
    ensures Rejected(Apply(c, s, e), r) <==> Rejected(s, r) || Failing(e, r)
  {
  }

  /** A request is rejected exactly when the store or the handler threw in its own run. */
  lemma {:induction false} OnlyFailuresReject(c: Config, events: seq<Event>, r: RequestId)
    requires Run(c, events).Some?
    ensures Rejected(Run(c, events).value, r) <==> exists k :: 0 <= k < |events| && Failing(events[k], r)
  {
    if events != [] {
      var n := |events| - 1;
      OnlyFailuresReject(c, events[..n], r);
      RejectedStep(c, Run(c, events[..n]).value, events[n], r);
      if k :| 0 <= k < n && Failing(events[k], r) { assert Failing(events[..n][k], r); }
    }
  }

  // ----- the results, for every run

  ghost predicate AnsweredBy(s: State, r: RequestId, d: Decision) {
    && r in s.requests
    && s.requests[r].phase.Answered? && s.requests[r].phase.decision.Some?
    && s.requests[r].phase.decision.value < |s.decisions|
    && d == s.decisions[s.requests[r].phase.decision.value]
  }

  /**
   * Every answer taken from an entry or stored into one says what each entry live at that moment
   * says: its status and body to the hash it was written for, the conflict to any other. And there
   * is such an entry. Hence two answers decided in the life of one entry agree.
   */
  lemma AnswersAgree(c: Config, events: seq<Event>, r1: RequestId, d1: Decision, r2: RequestId, d2: Decision, i: nat)
    requires Run(c, events).Some?
    requires var s := Run(c, events).value;
             && AnsweredBy(s, r1, d1) && AnsweredBy(s, r2, d2)
             && Speaks(s, i, d1) && Speaks(s, i, d2)
    ensures var s := Run(c, events).value;
            && s.requests[r1].phase.outcome == Some(d1.outcome) && s.requests[r1].hash == d1.hash
            && Carries(d1.outcome, s.written[i].stored, d1.hash)
            && Carries(d2.outcome, s.written[i].stored, d2.hash)
            && (d1.hash == d2.hash && !d1.outcome.Conflict? ==>
                  !d2.outcome.Conflict? && d1.outcome.status == d2.outcome.status && d1.outcome.body == d2.outcome.body)
    ensures c.ttlMs > 0 ==> exists k :: Speaks(Run(c, events).value, k, d1)
    ensures FromStorable(c, Run(c, events).value.written[i].stored)
  {
    Invariant(c, events);
    var s := Run(c, events).value;
    assert AnswerOk(c, s.decisions, s.requests[r1]);
    assert DecisionOk(c, s, d1) && DecisionOk(c, s, d2);
  }

  /** An answer that no entry backs is a rejection, or a response not for storing. */
  lemma UnbackedAnswer(c: Config, events: seq<Event>, r: RequestId)
    requires Run(c, events).Some? && r in Run(c, events).value.requests
    requires var p := Run(c, events).value.requests[r].phase; p.Answered? && p.decision.None? && p.outcome.Some?
    ensures exists response: Response ::
              && Run(c, events).value.requests[r].phase.outcome.value == Handler(response.status, response.body)
              && !Storable(c, response)
  {
    Invariant(c, events);
    var s := Run(c, events).value;
    assert AnswerOk(c, s.decisions, s.requests[r]);
    var response: Response :| s.requests[r].phase.outcome.value == Handler(response.status, response.body)
                              && (response.transient || !c.shouldStore(response));
    assert !Storable(c, response);
  }

  /** Within one process at most one run of a slot is in flight. */
  lemma SingleFlight(c: Config, events: seq<Event>, r1: RequestId, r2: RequestId)
    requires Run(c, events).Some?
    requires var s := Run(c, events).value;
             && r1 in s.requests && r2 in s.requests
             && Owns(s.requests[r1].phase) && Owns(s.requests[r2].phase)
             && s.requests[r1].process == s.requests[r2].process
    ensures var s := Run(c, events).value; s.requests[r1].slot == s.requests[r2].slot ==> r1 == r2
  {
    Invariant(c, events);
  }

  ghost predicate EntryLive(s: State, slot: Slot) {
    exists i :: 0 <= i < |s.written| && s.written[i].slot == slot && LiveAt(s.written[i], s.clock)
  }

  /**
   * A handler about to start over a live entry does so because another process wrote it after this
   * run's lookup.
   */
  lemma HandlerOverLiveEntry(c: Config, events: seq<Event>, r: RequestId)
    requires Run(c, events).Some? && Enabled(Run(c, events).value, Start(r))
    ensures var s := Run(c, events).value;
            var q := s.requests[r];
            EntryLive(s, q.slot) ==>
            exists i :: q.phase.seen <= i < |s.written| && s.written[i].slot == q.slot
                        && s.written[i].process != q.process && LiveAt(s.written[i], s.clock)
  {
    Invariant(c, events);
    var s := Run(c, events).value;
    assert MissOk(s, s.requests[r], s.requests[r].phase.seen);
  }

  ghost predicate ServedBy(events: seq<Event>, slot: Slot, process: ProcessId) {
    forall k :: 0 <= k < |events| && events[k].Call? && events[k].slot == slot ==> events[k].process == process
  }

  ghost predicate OnlyFrom(s: State, slot: Slot, process: ProcessId) {
    && (forall r :: r in s.requests && s.requests[r].slot == slot ==> s.requests[r].process == process)
    && (forall i :: 0 <= i < |s.written| && s.written[i].slot == slot ==> s.written[i].process == process)
  }

  lemma OnlyFromStep(c: Config, s: State, e: Event, slot: Slot, process: ProcessId)
    requires OnlyFrom(s, slot, process) && Enabled(s, e)
    requires e.Call? && e.slot == slot ==> e.process == process
    ensures OnlyFrom(Apply(c, s, e), slot, process)
  {
    var t := Apply(c, s, e);
    forall r | r in t.requests && t.requests[r].slot == slot ensures t.requests[r].process == process {
      assert r in s.requests ==> t.requests[r].(phase := Asked) == s.requests[r].(phase := Asked);
    }
    forall i | 0 <= i < |t.written| && t.written[i].slot == slot ensures t.written[i].process == process {
      if i < |s.written| { assert t.written[i] == s.written[i]; } else { assert e.r in s.requests; }
    }
  }

  lemma {:induction false} ServedByKeepsProcess(c: Config, events: seq<Event>, slot: Slot, process: ProcessId)
    requires Run(c, events).Some? && ServedBy(events, slot, process)
    ensures OnlyFrom(Run(c, events).value, slot, process)
  {
    if events != [] {
      var front, e := events[..|events| - 1], events[|events| - 1];
      ServedByKeepsProcess(c, front, slot, process);
      OnlyFromStep(c, Run(c, front).value, e, slot, process);
    }
  }

  /** One process alone never starts a handler over a live entry. */
  lemma AloneNeverOverLiveEntry(c: Config, events: seq<Event>, r: RequestId)
    requires Run(c, events).Some? && Enabled(Run(c, events).value, Start(r))
    requires var q := Run(c, events).value.requests[r]; ServedBy(events, q.slot, q.process)
    ensures !EntryLive(Run(c, events).value, Run(c, events).value.requests[r].slot)
  {
    HandlerOverLiveEntry(c, events, r);
    var q := Run(c, events).value.requests[r];
    ServedByKeepsProcess(c, events, q.slot, q.process);
  }

  /** Two processes: both look up, one runs and stores, and the other's handler starts all the same. */
  lemma TwoProcessesMayBothRun(c: Config)
    requires c.ttlMs > 0 && c.shouldStore(Response(200, "a", false))
    ensures exists events, r ::
              && Run(c, events).Some? && Enabled(Run(c, events).value, Start(r))
              && EntryLive(Run(c, events).value, Run(c, events).value.requests[r].slot)
  {
    var slot := Slot("s", "k");
    var response := Response(200, "a", false);
    var e2, s2 := BothLookUp(c, slot);
    var s3 := Extend(c, e2, s2, Start(1));
    var s4 := Extend(c, e2 + [Start(1)], s3, Finish(1, response));
    var s5 := Extend(c, e2 + [Start(1)] + [Finish(1, response)], s4, Put(1, 0));
    assert LiveAt(s5.written[0], s5.clock) && s5.written[0].slot == slot;
    assert EntryLive(s5, slot);
    assert Enabled(s5, Start(2)) && s5.requests[2].slot == slot;
  }

  lemma Extend(c: Config, events: seq<Event>, s: State, e: Event) returns (t: State)
    requires Run(c, events) == Some(s) && Enabled(s, e)
    ensures Run(c, events + [e]) == Some(t) && t == Apply(c, s, e)
  {
    t := Apply(c, s, e);
    assert (events + [e])[..|events|] == events;
  }

  lemma BothLookUp(c: Config, slot: Slot) returns (events: seq<Event>, s: State)
    ensures Run(c, events) == Some(s)
    ensures s.clock == 0 && s.entries == map[] && s.written == []
    ensures s.requests == map[1 := Request(1, slot, "h", Missed(0)), 2 := Request(2, slot, "h", Missed(0))]
  {
    var s1 := Extend(c, [], Initial(), Call(1, 1, slot, "h"));
    var s2 := Extend(c, [] + [Call(1, 1, slot, "h")], s1, Call(2, 2, slot, "h"));
    events := [] + [Call(1, 1, slot, "h")] + [Call(2, 2, slot, "h")];
    assert s2.requests == map[1 := Request(1, slot, "h", Asked), 2 := Request(2, slot, "h", Asked)];
    var s3 := Extend(c, events, s2, Get(1));
    s := Extend(c, events + [Get(1)], s3, Get(2));
    events := events + [Get(1)] + [Get(2)];
    assert Swept(map[], slot, 0) == map[];
  }
}

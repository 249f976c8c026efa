/**
 * Signed actions: the checks of `verifyAction` and the nonce store it ends in. The store prunes;
 * it answers exactly as one that never does, and so the results about replays are about the
 * unpruned one.
 */
module Nonces {
  import opened Wrappers

  type Address = string
  type Nonce = int
  type Key = (Address, Nonce)     // the actor in lower case

  /** Every nonce ever consumed, with the expiry of the last message it was consumed for. */
  type Consumed = map<Key, int>

  predicate Fresh(consumed: Consumed, key: Key, now: int) {
    key in consumed ==> consumed[key] <= now
  }

  function Consume(consumed: Consumed, key: Key, expiresAt: int, now: int): Consumed {
    if Fresh(consumed, key, now) then consumed[key := expiresAt] else consumed
  }

  type Nested = map<Address, map<Nonce, int>>

  predicate Holds(used: Nested, key: Key) {
    key.0 in used && key.1 in used[key.0]
  }

  /** What is kept is as consumed, and what is not kept has expired. */
  ghost predicate Represents(used: Nested, consumed: Consumed, now: int) {
    && (forall key: Key :: Holds(used, key) ==> key in consumed && used[key.0][key.1] == consumed[key])
    && (forall key :: key in consumed && !Holds(used, key) ==> consumed[key] <= now)
  }

  class NonceStore {
    const pruneInterval: nat
    var used: Nested
    var lastPrunedAt: int
    ghost var consumed: Consumed
    ghost var clock: int

    ghost predicate Valid()
      reads this
    {
      && Represents(used, consumed, clock)
      && lastPrunedAt <= clock
      && NoneEmpty(used)
    }

    constructor (requestedInterval: int, now: int)
      ensures Valid() && consumed == map[] && clock == now
    {
      pruneInterval := if requestedInterval < 0 then 0 else requestedInterval;
      used, lastPrunedAt, consumed, clock := map[], now, map[], now;
    }

    method PruneAt(current: int) returns (droppedActors: nat)
      requires Valid() && clock <= current
      modifies this
      ensures Valid() && consumed == old(consumed) && clock == current
      ensures forall a :: a in used ==> AllAfter(used[a], current)
      ensures droppedActors == |old(used)| - |used|
    {
      used, droppedActors := PruneAll(used, consumed, current);
      clock, lastPrunedAt := current, current;
    }

    method TryConsume(actorKey: Address, nonce: Nonce, expiresAt: int, current: int) returns (fresh': bool)
      requires Valid() && clock <= current
      modifies this
      ensures Valid() && clock == current
      ensures fresh' == Fresh(old(consumed), (actorKey, nonce), current)
      ensures consumed == Consume(old(consumed), (actorKey, nonce), expiresAt, current)
    {
      if current - lastPrunedAt >= pruneInterval { var _ := PruneAt(current); }
      clock := current;
      var nonces := if actorKey in used then used[actorKey] else map[];
      ConsumedKey(used, consumed, (actorKey, nonce), expiresAt, current);
      if nonce in nonces && nonces[nonce] > current { return false; }
      used := used[actorKey := nonces[nonce := expiresAt]];
      consumed := consumed[(actorKey, nonce) := expiresAt];
      return true;
    }
  }

  ghost predicate NoneEmpty(used: Nested) {
    forall a :: a in used ==> used[a] != map[]
  }

  /** Each actor's expired nonces go, and each actor left with none. */
  method PruneAll(before: Nested, ghost consumed: Consumed, current: int) returns (used: Nested, droppedActors: nat)
    requires Represents(before, consumed, current) && NoneEmpty(before)
    ensures Represents(used, consumed, current) && NoneEmpty(used)
    ensures forall a :: a in used ==> AllAfter(used[a], current)
    ensures droppedActors == |before| - |used|
  {
    used, droppedActors := before, 0;
    var actors := used.Keys;
    while actors != {}
      invariant actors <= used.Keys
      invariant Represents(used, consumed, current) && NoneEmpty(used)
      invariant forall a :: a in used && a !in actors ==> AllAfter(used[a], current)
      invariant droppedActors == |before| - |used|
      decreases actors
    {
      var actor :| actor in actors;
      actors := actors - {actor};
      var kept := Unexpired(used[actor], current);
      PruneActor(used, consumed, actor, kept, current);
      Sizes(used, actor, kept);
      if kept == map[] {
        used := used - {actor};
        droppedActors := droppedActors + 1;
      } else {
        used := used[actor := kept];
      }
    }
  }

  lemma Sizes(used: Nested, actor: Address, kept: map<Nonce, int>)
    requires actor in used
    ensures |used - {actor}| == |used| - 1 && |used[actor := kept]| == |used|
  {
    assert (used - {actor}).Keys == used.Keys - {actor};
    assert |(used - {actor}).Keys| == |used.Keys| - 1;
    assert used[actor := kept].Keys == used.Keys;
    assert |used[actor := kept].Keys| == |used.Keys|;
  }

  ghost predicate AllAfter(nonces: map<Nonce, int>, current: int) {
    forall n :: n in nonces ==> nonces[n] > current
  }

  function Unexpired(nonces: map<Nonce, int>, current: int): map<Nonce, int> {
    map n | n in nonces && nonces[n] > current :: nonces[n]
  }

  lemma PruneActor(used: Nested, consumed: Consumed, actor: Address, kept: map<Nonce, int>, current: int)
    requires Represents(used, consumed, current) && actor in used && kept == Unexpired(used[actor], current)
    ensures Represents(used[actor := kept], consumed, current)
    ensures kept == map[] ==> Represents(used - {actor}, consumed, current)
  {
    forall key: Key | Holds(used[actor := kept], key)
      ensures key in consumed && used[actor := kept][key.0][key.1] == consumed[key]
    {
      assert Holds(used, key);
    }
    forall key | key in consumed && !Holds(used[actor := kept], key) ensures consumed[key] <= current {
      assert Holds(used, key) ==> used[key.0][key.1] == consumed[key];
    }
    if kept == map[] {
      forall key: Key ensures Holds(used - {actor}, key) <==> Holds(used[actor := kept], key) {}
    }
  }

  lemma ConsumedKey(used: Nested, consumed: Consumed, key: Key, expiresAt: int, current: int)
    requires Represents(used, consumed, current)
    ensures var nonces := if key.0 in used then used[key.0] else map[];
            && Represents(used[key.0 := nonces[key.1 := expiresAt]], consumed[key := expiresAt], current)
            && (Fresh(consumed, key, current) <==> !(key.1 in nonces && nonces[key.1] > current))
  {
    var nonces := if key.0 in used then used[key.0] else map[];
    var after := used[key.0 := nonces[key.1 := expiresAt]];
    forall other: Key ensures Holds(after, other) <==> Holds(used, other) || other == key {}
    assert key.1 in nonces <==> Holds(used, key);
  }

  // ----- verifying a signed action

  datatype Message = Message(
    actor: Address, action: string, resource: string, nonce: Nonce, issuedAt: int, expiresAt: int, chainId: int)

  datatype Failure =
    | MalformedMessage
    | MissingExpectedChainId
    | ChainMismatch
    | InvalidSignature
    | ActorMismatch
    | UnexpectedActor
    | NotYetValid
    | Expired
    | NonceReused

  /** `now` is the verifier's reading of the clock, `at` the store's when the nonce is consumed. */
  datatype Attempt = Attempt(
    message: Message, signature: string, expectedActor: Address, expectedChainId: Option<int>,
    maxLifetime: int, now: int, at: int)

  /** Addresses and signature recovery, which are the chain library's. */
  datatype Library = Library(
    isAddress: string -> bool,
    lower: string -> string,
    recover: (Message, string) -> Option<Address>)

  function Refusal(lib: Library, a: Attempt): Option<Failure> {
    var m := a.message;
    if !lib.isAddress(m.actor) || !lib.isAddress(a.expectedActor) then Some(MalformedMessage)
    else if m.expiresAt <= m.issuedAt || m.expiresAt - m.issuedAt > a.maxLifetime then Some(MalformedMessage)
    else if a.expectedChainId.None? then Some(MissingExpectedChainId)
    else if a.expectedChainId.value != m.chainId then Some(ChainMismatch)
    else
      var recovered := lib.recover(m, a.signature);
      if recovered.None? then Some(InvalidSignature)
      else if lib.lower(recovered.value) != lib.lower(m.actor) then Some(ActorMismatch)
      else if lib.lower(recovered.value) != lib.lower(a.expectedActor) then Some(UnexpectedActor)
      else if a.now < m.issuedAt then Some(NotYetValid)
      else if a.now >= m.expiresAt then Some(Expired)
      else None
  }

  function KeyOf(lib: Library, a: Attempt): Key {
    (lib.lower(a.message.actor), a.message.nonce)
  }

  predicate Accepted(lib: Library, consumed: Consumed, a: Attempt) {
    Refusal(lib, a).None? && Fresh(consumed, KeyOf(lib, a), a.at)
  }

  function After(lib: Library, consumed: Consumed, a: Attempt): Consumed {
    if Refusal(lib, a).None? then Consume(consumed, KeyOf(lib, a), a.message.expiresAt, a.at) else consumed
  }

  ghost predicate WellFormed(lib: Library, a: Attempt) {
    && lib.isAddress(a.message.actor) && lib.isAddress(a.expectedActor)
    && 0 < a.message.expiresAt - a.message.issuedAt <= a.maxLifetime
  }

  ghost predicate ForThisChain(a: Attempt) {
    a.expectedChainId == Some(a.message.chainId)
  }

  /** The signature is that of `signer`, letter case aside. */
  ghost predicate SignedBy(lib: Library, a: Attempt, signer: Address) {
    var recovered := lib.recover(a.message, a.signature);
    recovered.Some? && lib.lower(recovered.value) == lib.lower(signer)
  }

  /** Everything but the nonce. */
  ghost predicate Genuine(lib: Library, a: Attempt) {
    && WellFormed(lib, a) && ForThisChain(a)
    && SignedBy(lib, a, a.message.actor) && SignedBy(lib, a, a.expectedActor)
    && a.message.issuedAt <= a.now < a.message.expiresAt
  }

  /** The reason for which an attempt that is not genuine is refused: the first check it fails. */
  ghost predicate FailsFirst(lib: Library, a: Attempt, failure: Failure) {
    var recovered := lib.recover(a.message, a.signature);
    match failure
    case MalformedMessage => !WellFormed(lib, a)
    case MissingExpectedChainId => WellFormed(lib, a) && a.expectedChainId.None?
    case ChainMismatch => WellFormed(lib, a) && a.expectedChainId.Some? && !ForThisChain(a)
    case InvalidSignature => WellFormed(lib, a) && ForThisChain(a) && recovered.None?
    case ActorMismatch =>
      WellFormed(lib, a) && ForThisChain(a) && recovered.Some? && !SignedBy(lib, a, a.message.actor)
    case UnexpectedActor =>
      && WellFormed(lib, a) && ForThisChain(a)
      && SignedBy(lib, a, a.message.actor) && !SignedBy(lib, a, a.expectedActor)
    case NotYetValid =>
      && WellFormed(lib, a) && ForThisChain(a)
      && SignedBy(lib, a, a.message.actor) && SignedBy(lib, a, a.expectedActor)
      && a.now < a.message.issuedAt
    case Expired =>
      && WellFormed(lib, a) && ForThisChain(a)
      && SignedBy(lib, a, a.message.actor) && SignedBy(lib, a, a.expectedActor)
      && a.message.issuedAt < a.message.expiresAt <= a.now
    case NonceReused => false
  }

  lemma RefusalIsTheFirstFailure(lib: Library, a: Attempt)
    ensures Refusal(lib, a).None? <==> Genuine(lib, a)
    ensures forall f :: Refusal(lib, a) == Some(f) <==> FailsFirst(lib, a, f)
  {
  }

  /**
   * Accepted exactly when genuine and nothing unexpired is held for the nonce, and only then is the
   * nonce consumed; otherwise the first check that fails is the reason.
   */
  method VerifyAction(lib: Library, store: NonceStore, a: Attempt) returns (failure: Option<Failure>)
    requires store.Valid() && store.clock <= a.at
    modifies store
    ensures store.Valid() && store.clock <= a.at
    ensures var key := (lib.lower(a.message.actor), a.message.nonce);
            var held := key in old(store.consumed) && old(store.consumed)[key] > a.at;
            && (failure.None? <==> Genuine(lib, a) && !held)
            && (failure == Some(NonceReused) <==> Genuine(lib, a) && held)
            && (failure.Some? && failure.value != NonceReused ==> FailsFirst(lib, a, failure.value))
            && store.consumed
               == if failure.None? then old(store.consumed)[key := a.message.expiresAt] else old(store.consumed)
    ensures failure.None? <==> Accepted(lib, old(store.consumed), a)
    ensures store.consumed == After(lib, old(store.consumed), a)
  {
    RefusalIsTheFirstFailure(lib, a);
    failure := Refusal(lib, a);
    if failure.Some? { return; }
    var isFresh := store.TryConsume(lib.lower(a.message.actor), a.message.nonce, a.message.expiresAt, a.at);
    if !isFresh { failure := Some(NonceReused); }
  }

  // ----- whole histories

  function History(lib: Library, attempts: seq<Attempt>): Consumed {
    if attempts == [] then map[]
    else After(lib, History(lib, attempts[..|attempts| - 1]), attempts[|attempts| - 1])
  }

  predicate AcceptedAt(lib: Library, attempts: seq<Attempt>, i: nat)
    requires i < |attempts|
  {
    Accepted(lib, History(lib, attempts[..i]), attempts[i])
  }

  /** The store's clock does not go back, and the verifier reads its own before the store does. */
  ghost predicate Clocked(attempts: seq<Attempt>) {
    && (forall i, j :: 0 <= i < j < |attempts| ==> attempts[i].at <= attempts[j].at)
    && (forall i :: 0 <= i < |attempts| ==> attempts[i].now <= attempts[i].at)
  }

  /** An accepted message's nonce is remembered until the message expires. */
  lemma {:induction false} Remembered(lib: Library, attempts: seq<Attempt>, i: nat)
    requires Clocked(attempts) && i < |attempts| && AcceptedAt(lib, attempts, i)
    ensures var key := KeyOf(lib, attempts[i]);
            var consumed := History(lib, attempts);
            key in consumed && (consumed[key] >= attempts[i].message.expiresAt
                                || attempts[|attempts| - 1].at >= attempts[i].message.expiresAt)
    decreases |attempts|
  {
    var n := |attempts| - 1;
    if i < n {
      assert attempts[..n][..i] == attempts[..i];
      Remembered(lib, attempts[..n], i);
    }
  }

  /**
   * A nonce is accepted again for the same actor only once the store's clock has reached the expiry
   * of the message it was accepted for.
   */
  lemma AcceptedAgainOnlyAfterExpiry(lib: Library, attempts: seq<Attempt>, i: nat, j: nat)
    requires Clocked(attempts) && i < j < |attempts|
    requires AcceptedAt(lib, attempts, i) && AcceptedAt(lib, attempts, j)
    requires KeyOf(lib, attempts[i]) == KeyOf(lib, attempts[j])
    ensures attempts[j].at >= attempts[i].message.expiresAt
  {
    assert attempts[..j][..i] == attempts[..i];
    Remembered(lib, attempts[..j], i);
  }

  /** With one reading of the clock for each verification, no message is accepted twice. */
  lemma NoMessageTwice(lib: Library, attempts: seq<Attempt>, i: nat, j: nat)
    requires Clocked(attempts) && i < j < |attempts|
    requires forall k :: 0 <= k < |attempts| ==> attempts[k].now == attempts[k].at
    requires AcceptedAt(lib, attempts, i)
    ensures attempts[j].message == attempts[i].message ==> !AcceptedAt(lib, attempts, j)
  {
    if attempts[j].message == attempts[i].message && AcceptedAt(lib, attempts, j) {
      AcceptedAgainOnlyAfterExpiry(lib, attempts, i, j);
    }
  }

  /** Nothing with the key of attempt `i` is accepted after it and before `j`. */
  ghost predicate NoneBetween(lib: Library, attempts: seq<Attempt>, i: nat, j: nat)
    requires i < j <= |attempts|
  {
    forall k :: i < k < j && KeyOf(lib, attempts[k]) == KeyOf(lib, attempts[i]) ==> !AcceptedAt(lib, attempts, k)
  }

  /** Until it is accepted again, an accepted nonce is held with the expiry it was accepted with. */
  lemma {:induction false} HeldUntilAccepted(lib: Library, attempts: seq<Attempt>, i: nat, j: nat)
    requires i < j <= |attempts| && AcceptedAt(lib, attempts, i) && NoneBetween(lib, attempts, i, j)
    ensures var key, consumed := KeyOf(lib, attempts[i]), History(lib, attempts[..j]);
            key in consumed && consumed[key] == attempts[i].message.expiresAt
    decreases j
  {
    assert attempts[..j][..j - 1] == attempts[..j - 1];
    if i < j - 1 {
      HeldUntilAccepted(lib, attempts, i, j - 1);
      if KeyOf(lib, attempts[j - 1]) == KeyOf(lib, attempts[i]) { assert !AcceptedAt(lib, attempts, j - 1); }
    }
  }

  /**
   * Whatever other attempts come between: a nonce last accepted at `i` is accepted at `j` exactly when
   * every check passes and the store's clock has reached the expiry it was accepted with. So the same
   * message is accepted again exactly when its expiry falls between the two readings of the clock.
   */
  lemma AcceptedTwiceExactly(lib: Library, attempts: seq<Attempt>, i: nat, j: nat)
    requires i < j < |attempts| && AcceptedAt(lib, attempts, i) && NoneBetween(lib, attempts, i, j)
    requires KeyOf(lib, attempts[j]) == KeyOf(lib, attempts[i])
    ensures AcceptedAt(lib, attempts, j)
            <==> Genuine(lib, attempts[j]) && attempts[i].message.expiresAt <= attempts[j].at
    ensures attempts[j].message == attempts[i].message && AcceptedAt(lib, attempts, j) ==>
              attempts[j].now < attempts[i].message.expiresAt <= attempts[j].at
  {
    HeldUntilAccepted(lib, attempts, i, j);
    RefusalIsTheFirstFailure(lib, attempts[j]);
  }

  lemma {:induction false} NeverAcceptedIsNotHeld(lib: Library, attempts: seq<Attempt>, key: Key)
    requires forall k :: 0 <= k < |attempts| && KeyOf(lib, attempts[k]) == key ==> !AcceptedAt(lib, attempts, k)
    ensures key !in History(lib, attempts)
  {
    if attempts != [] {
      var front := attempts[..|attempts| - 1];
      forall k | 0 <= k < |front| && KeyOf(lib, front[k]) == key ensures !AcceptedAt(lib, front, k) {
        assert front[..k] == attempts[..k];
        assert !AcceptedAt(lib, attempts, k);
      }
      NeverAcceptedIsNotHeld(lib, front, key);
      if KeyOf(lib, attempts[|front|]) == key { assert !AcceptedAt(lib, attempts, |front|); }
    }
  }

  /** A nonce not accepted before is accepted with any genuine attempt, whatever was refused meanwhile. */
  lemma FirstUseIsAccepted(lib: Library, attempts: seq<Attempt>, j: nat)
    requires j < |attempts|
    requires forall k :: 0 <= k < j && KeyOf(lib, attempts[k]) == KeyOf(lib, attempts[j]) ==>
               !AcceptedAt(lib, attempts, k)
    ensures AcceptedAt(lib, attempts, j) <==> Genuine(lib, attempts[j])
  {
    forall k | 0 <= k < j && KeyOf(lib, attempts[k]) == KeyOf(lib, attempts[j])
      ensures !AcceptedAt(lib, attempts[..j], k)
    {
      assert attempts[..j][..k] == attempts[..k];
      assert !AcceptedAt(lib, attempts, k);
    }
    NeverAcceptedIsNotHeld(lib, attempts[..j], KeyOf(lib, attempts[j]));
    RefusalIsTheFirstFailure(lib, attempts[j]);
  }

  /** Such a run exists: accepted at 10, and again when the clock goes from 11 to 12 in between. */
  lemma AcceptedTwiceAcrossExpiry()
    ensures exists lib: Library, attempts: seq<Attempt> ::
              && Clocked(attempts) && |attempts| == 2
              && attempts[0].message == attempts[1].message
              && AcceptedAt(lib, attempts, 0) && AcceptedAt(lib, attempts, 1)
  {
    var lib := Library(s => true, s => s, (m: Message, s) => Some(m.actor));
    var m := Message("a", "act", "res", 1, 0, 12, 1);
    var first := Attempt(m, "sig", "a", Some(1), 300, 10, 10);
    var again := first.(now := 11, at := 12);
    var attempts := [first, again];
    assert Refusal(lib, first).None? && Refusal(lib, again).None?;
    assert attempts[..0] == [] && AcceptedAt(lib, attempts, 0);
    assert NoneBetween(lib, attempts, 0, 1);
    AcceptedTwiceExactly(lib, attempts, 0, 1);
  }
}

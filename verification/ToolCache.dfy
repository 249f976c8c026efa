/**
 * The tool-result cache, bounded and with a time to live, against the unbounded map of what was
 * last set. A hit is never stale or wrong, and what was used recently enough always hits.
 */
module ToolCache {
  import opened Lru
  import opened Wrappers

  type Key = string

  datatype Entry = Entry(result: string, expiresAt: int)

  type Entries = seq<(Key, Entry)>

  datatype Operation =
    | Get(key: Key, now: int)
    | Set(key: Key, ok: bool, result: string, now: int)
    | Clear

  datatype Config = Config(ttlMs: int, maxEntries: nat)

  /** A live entry. */
  function Find(entries: Entries, key: Key, now: int): Option<string> {
    var found := Lookup(entries, key);
    if found.Some? && found.value.expiresAt > now then Some(found.value.result) else None
  }

  function After(c: Config, entries: Entries, op: Operation): Entries {
    match op
    case Get(key, now) =>
      var found := Lookup(entries, key);
      if found.None? then entries
      else if found.value.expiresAt <= now then Without(entries, key)
      else Touched(entries, key, found.value)
    case Set(key, ok, result, now) =>
      if ok then Bounded(Touched(entries, key, Entry(result, now + c.ttlMs)), c.maxEntries) else entries
    case Clear => []
  }

  class ToolResultCache {
    const ttlMs: int
    const maxEntries: nat
    var entries: Entries

    constructor (ttlMs: int, maxEntries: nat)
      requires maxEntries >= 1
      ensures entries == [] && this.ttlMs == ttlMs && this.maxEntries == maxEntries
    {
      this.ttlMs, this.maxEntries := ttlMs, maxEntries;
      entries := [];
    }

    method GetResult(key: Key, now: int) returns (result: Option<string>)
      modifies this
      ensures result == Find(old(entries), key, now)
      ensures entries == After(Config(ttlMs, maxEntries), old(entries), Get(key, now))
    {
      var entry := Lookup(entries, key);
      if entry.None? { return None; }
      if entry.value.expiresAt <= now {
        entries := Without(entries, key);
        return None;
      }
      entries := Without(entries, key);
      entries := entries + [(key, entry.value)];
      return Some(entry.value.result);
    }

    method SetResult(key: Key, ok: bool, result: string, now: int)
      modifies this
      ensures entries == After(Config(ttlMs, maxEntries), old(entries), Set(key, ok, result, now))
    {
      if !ok { return; }
      entries := Without(entries, key);
      entries := entries + [(key, Entry(result, now + ttlMs))];
      entries := Evict(entries, maxEntries);
    }

    method ClearAll()
      modifies this
      ensures entries == After(Config(ttlMs, maxEntries), old(entries), Clear)
    {
      entries := [];
    }
  }

  // ----- whole histories

  function Run(c: Config, ops: seq<Operation>): Entries {
    if ops == [] then [] else After(c, Run(c, ops[..|ops| - 1]), ops[|ops| - 1])
  }

  /** The unbounded map: the last successful set of each key since the last clear, expired or not. */
  function LastSet(c: Config, ops: seq<Operation>): map<Key, Entry> {
    if ops == [] then map[]
    else
      var before := LastSet(c, ops[..|ops| - 1]);
      match ops[|ops| - 1]
      case Get(_, _) => before
      case Set(key, ok, result, now) => if ok then before[key := Entry(result, now + c.ttlMs)] else before
      case Clear => map[]
  }

  /** Operation `k` is the last successful set of the key, and no clear follows it. */
  ghost predicate SetLastAt(ops: seq<Operation>, key: Key, k: int) {
    && 0 <= k < |ops| && ops[k].Set? && ops[k].ok && ops[k].key == key
    && forall i :: k < i < |ops| ==> !ops[i].Clear? && !(ops[i].Set? && ops[i].ok && ops[i].key == key)
  }

  /** A key is mapped to what it was last set to, good for `ttlMs` from then, and is not mapped without a set. */
  lemma {:induction false} LastSetExactly(c: Config, ops: seq<Operation>, key: Key)
    ensures key in LastSet(c, ops) <==> exists k :: SetLastAt(ops, key, k)
    ensures forall k :: SetLastAt(ops, key, k) ==>
              && key in LastSet(c, ops)
              && LastSet(c, ops)[key] == Entry(ops[k].result, ops[k].now + c.ttlMs)
  {
    if ops != [] {
      var n := |ops| - 1;
      LastSetExactly(c, ops[..n], key);
      forall k | 0 <= k < n ensures SetLastAt(ops, key, k) <==>
                                    SetLastAt(ops[..n], key, k) && !ops[n].Clear?
                                    && !(ops[n].Set? && ops[n].ok && ops[n].key == key) {
        assert ops[..n][k] == ops[k];
        assert forall i :: k < i < n ==> ops[..n][i] == ops[i];
      }
      if k :| SetLastAt(ops[..n], key, k) { assert 0 <= k < n; }
      if key in LastSet(c, ops) && !(ops[n].Set? && ops[n].ok && ops[n].key == key) {
        var k :| SetLastAt(ops[..n], key, k);
        assert SetLastAt(ops, key, k);
      } else if key in LastSet(c, ops) {
        assert SetLastAt(ops, key, n);
      }
    }
  }

  ghost predicate Refines(c: Config, entries: Entries, last: map<Key, Entry>) {
    && Distinct(entries)
    && |entries| <= c.maxEntries
    && forall i :: 0 <= i < |entries| ==> entries[i].0 in last && last[entries[i].0] == entries[i].1
  }

  lemma BoundedRefines(c: Config, entries: Entries, last: map<Key, Entry>)
    requires Distinct(entries)
    requires forall i :: 0 <= i < |entries| ==> entries[i].0 in last && last[entries[i].0] == entries[i].1
    ensures Refines(c, Bounded(entries, c.maxEntries), last)
  {
    var b := Bounded(entries, c.maxEntries);
    var off := |entries| - |b|;
    assert forall i :: 0 <= i < |b| ==> b[i] == entries[off + i];
  }

  lemma GetRefines(c: Config, entries: Entries, last: map<Key, Entry>, key: Key, now: int)
    requires Refines(c, entries, last)
    ensures Refines(c, After(c, entries, Get(key, now)), last)
  {
    var found := Lookup(entries, key);
    if found.Some? {
      SizeOfWithout(entries, key);
      WithoutKeeps(entries, key);
      TouchedDistinct(entries, key, found.value);
    }
  }

  lemma SetRefines(c: Config, entries: Entries, last: map<Key, Entry>, key: Key, e: Entry)
    requires Refines(c, entries, last)
    ensures Refines(c, Bounded(Touched(entries, key, e), c.maxEntries), last[key := e])
  {
    TouchedDistinct(entries, key, e);
    BoundedRefines(c, Touched(entries, key, e), last[key := e]);
  }

  lemma {:induction false} RunRefines(c: Config, ops: seq<Operation>)
    ensures Refines(c, Run(c, ops), LastSet(c, ops))
  {
    if ops != [] {
      var front := ops[..|ops| - 1];
      RunRefines(c, front);
      match ops[|ops| - 1]
      case Get(key, now) => GetRefines(c, Run(c, front), LastSet(c, front), key, now);
      case Set(key, ok, result, now) =>
        if ok { SetRefines(c, Run(c, front), LastSet(c, front), key, Entry(result, now + c.ttlMs)); }
      case Clear =>
    }
  }

  /** A hit is the last successful set of that key, and it has not expired; the size never passes the bound. */
  lemma HitsAreTheLastSet(c: Config, ops: seq<Operation>, key: Key, now: int)
    ensures |Run(c, ops)| <= c.maxEntries
    ensures Find(Run(c, ops), key, now).Some? ==>
              && key in LastSet(c, ops)
              && LastSet(c, ops)[key].expiresAt > now
              && Find(Run(c, ops), key, now).value == LastSet(c, ops)[key].result
  {
    RunRefines(c, ops);
  }

  /** After a clear a key misses until it is set again, successfully. */
  lemma {:induction false} ClearForgets(c: Config, before: seq<Operation>, since: seq<Operation>, key: Key, now: int)
    requires forall i :: 0 <= i < |since| ==> !(since[i].Set? && since[i].ok && since[i].key == key)
    ensures key !in LastSet(c, before + [Clear] + since)
    ensures Find(Run(c, before + [Clear] + since), key, now).None?
  {
    var ops := before + [Clear] + since;
    if since != [] {
      var front := since[..|since| - 1];
      assert ops[..|ops| - 1] == before + [Clear] + front;
      ClearForgets(c, before, front, key, now);
    }
    HitsAreTheLastSet(c, ops, key, now);
  }

  // ----- what is still there

  /** The operation touches the key: finds it live, or sets it. */
  predicate Touches(entries: Entries, op: Operation, key: Key) {
    match op
    case Get(k, now) => k == key && Find(entries, k, now).Some?
    case Set(k, ok, _, _) => k == key && ok
    case Clear => false
  }

  /** The entry a touched key has afterwards. */
  function TouchedEntry(c: Config, entries: Entries, op: Operation, key: Key): Entry
    requires Touches(entries, op, key)
  {
    if op.Get? then Lookup(entries, key).value else Entry(op.result, op.now + c.ttlMs)
  }

  lemma AfterTouch(c: Config, entries: Entries, op: Operation, key: Key)
    requires Touches(entries, op, key) && Distinct(entries) && |entries| <= c.maxEntries
    ensures After(c, entries, op) == Bounded(Touched(entries, key, TouchedEntry(c, entries, op, key)), c.maxEntries)
  {
    if op.Get? { SizeOfWithout(entries, key); }
  }

  lemma AfterOther(c: Config, entries: Entries, op: Operation)
    requires !op.Clear? && !Touches(entries, op, op.key)
    ensures After(c, entries, op) == entries || After(c, entries, op) == Without(entries, op.key)
  {
  }

  function TouchedBy(entries: Entries, op: Operation): set<Key> {
    if !op.Clear? && Touches(entries, op, op.key) then {op.key} else {}
  }

  function Continue(c: Config, entries: Entries, ops: seq<Operation>): Entries {
    if ops == [] then entries else After(c, Continue(c, entries, ops[..|ops| - 1]), ops[|ops| - 1])
  }

  /** The keys that operations after `entries` touch. */
  function TouchedSince(c: Config, entries: Entries, ops: seq<Operation>): set<Key> {
    if ops == [] then {}
    else
      var front := ops[..|ops| - 1];
      TouchedSince(c, entries, front) + TouchedBy(Continue(c, entries, front), ops[|ops| - 1])
  }

  lemma {:induction false} RunContinues(c: Config, before: seq<Operation>, ops: seq<Operation>)
    ensures Run(c, before + ops) == Continue(c, Run(c, before), ops)
  {
    if ops == [] {
      assert before + ops == before;
    } else {
      assert (before + ops)[..|before + ops| - 1] == before + ops[..|ops| - 1];
      RunContinues(c, before, ops[..|ops| - 1]);
    }
  }

  lemma OtherOperationKeeps(c: Config, entries: Entries, op: Operation, key: Key, e: Entry, since: set<Key>)
    requires Distinct(entries) && |entries| <= c.maxEntries && Kept(entries, key, e, since)
    requires LeavesAlone(op, key)
    requires |since + TouchedBy(entries, op)| < c.maxEntries
    ensures Kept(After(c, entries, op), key, e, since + TouchedBy(entries, op))
  {
    if op.key == key {
      assert After(c, entries, op) == entries && since + {} == since;
    } else if Touches(entries, op, op.key) {
      AfterTouch(c, entries, op, op.key);
      TouchOther(entries, key, e, since, op.key, TouchedEntry(c, entries, op, op.key), c.maxEntries);
    } else {
      AfterOther(c, entries, op);
      WithoutOther(entries, key, e, since, op.key);
      assert since + {} == since;
    }
  }

  lemma Smaller(a: set<Key>, b: set<Key>)
    ensures |a| <= |a + b|
  {
    var rest := b - a;
    assert a + b == a + rest;
  }

  /** It neither touches the key, nor reads it when it has expired, nor clears the cache. */
  predicate LeavesAlone(op: Operation, key: Key) {
    !op.Clear? && (op.key == key ==> op.Set? && !op.ok)
  }

  /** Operation `at` touches the key, and those after it leave it alone. */
  ghost predicate LastTouch(c: Config, ops: seq<Operation>, at: nat, key: Key) {
    && at < |ops|
    && Touches(Run(c, ops[..at]), ops[at], key)
    && forall i :: at < i < |ops| ==> LeavesAlone(ops[i], key)
  }

  ghost predicate Sound(c: Config, entries: Entries) {
    Distinct(entries) && |entries| <= c.maxEntries
  }

  lemma AfterSound(c: Config, entries: Entries, op: Operation)
    requires Sound(c, entries)
    ensures Sound(c, After(c, entries, op))
  {
    match op
    case Get(key, now) =>
      var found := Lookup(entries, key);
      if found.Some? {
        SizeOfWithout(entries, key);
        WithoutKeeps(entries, key);
        TouchedDistinct(entries, key, found.value);
      }
    case Set(key, _, result, now) =>
      TouchedDistinct(entries, key, Entry(result, now + c.ttlMs));
      BoundedDistinct(Touched(entries, key, Entry(result, now + c.ttlMs)), c.maxEntries);
    case Clear =>
  }

  /** What is kept is kept on, with the keys touched since. */
  lemma {:induction false} KeptThrough(c: Config, entries: Entries, ops: seq<Operation>, key: Key, e: Entry)
    requires Sound(c, entries) && Kept(entries, key, e, {})
    requires forall i :: 0 <= i < |ops| ==> LeavesAlone(ops[i], key)
    requires |TouchedSince(c, entries, ops)| < c.maxEntries
    ensures var t := Continue(c, entries, ops); Sound(c, t) && Kept(t, key, e, TouchedSince(c, entries, ops))
  {
    if ops != [] {
      var front, op := ops[..|ops| - 1], ops[|ops| - 1];
      var before, since := Continue(c, entries, front), TouchedSince(c, entries, front);
      Smaller(since, TouchedBy(before, op));
      KeptThrough(c, entries, front, key, e);
      OtherOperationKeeps(c, before, op, key, e, since);
      AfterSound(c, before, op);
    }
  }

  lemma JustTouched(c: Config, entries: Entries, op: Operation, key: Key)
    requires Sound(c, entries) && Touches(entries, op, key) && c.maxEntries > 0
    ensures Kept(After(c, entries, op), key, TouchedEntry(c, entries, op, key), {})
  {
    AfterTouch(c, entries, op, key);
    TouchSelf(entries, key, TouchedEntry(c, entries, op, key), c.maxEntries);
  }

  /** What is touched is found as long as fewer than `maxEntries` others are touched after it. */
  lemma TouchedIsFound(c: Config, entries: Entries, op: Operation, ops: seq<Operation>, key: Key)
    requires Sound(c, entries) && Touches(entries, op, key)
    requires forall i :: 0 <= i < |ops| ==> LeavesAlone(ops[i], key)
    requires |TouchedSince(c, After(c, entries, op), ops)| < c.maxEntries
    ensures Lookup(Continue(c, After(c, entries, op), ops), key) == Some(TouchedEntry(c, entries, op, key))
  {
    var after, e := After(c, entries, op), TouchedEntry(c, entries, op, key);
    JustTouched(c, entries, op, key);
    AfterSound(c, entries, op);
    KeptThrough(c, after, ops, key, e);
    KeptIsFound(Continue(c, after, ops), key, e, TouchedSince(c, after, ops));
  }

  /**
   * A key that was set, or hit, still hits as long as it has not expired and fewer than `maxEntries`
   * other keys were touched since.
   */
  lemma RecentlyTouchedHits(c: Config, ops: seq<Operation>, at: nat, key: Key, now: int)
    requires LastTouch(c, ops, at, key)
    requires |TouchedSince(c, Run(c, ops[..at + 1]), ops[at + 1..])| < c.maxEntries
    requires key in LastSet(c, ops) && LastSet(c, ops)[key].expiresAt > now
    ensures Find(Run(c, ops), key, now) == Some(LastSet(c, ops)[key].result)
  {
    var since := ops[at + 1..];
    RunAt(c, ops, at);
    RunRefines(c, ops[..at]);
    TouchedIsFound(c, Run(c, ops[..at]), ops[at], since, key);
    RunRefines(c, ops);
    HitIsLastSet(Run(c, ops), LastSet(c, ops), c, key);
  }

  lemma RunAt(c: Config, ops: seq<Operation>, at: nat)
    requires at < |ops|
    ensures Run(c, ops[..at + 1]) == After(c, Run(c, ops[..at]), ops[at])
    ensures Run(c, ops) == Continue(c, Run(c, ops[..at + 1]), ops[at + 1..])
  {
    assert ops[..at + 1][..at] == ops[..at];
    assert ops == ops[..at + 1] + ops[at + 1..];
    RunContinues(c, ops[..at + 1], ops[at + 1..]);
  }

  lemma HitIsLastSet(entries: Entries, last: map<Key, Entry>, c: Config, key: Key)
    requires Refines(c, entries, last) && Lookup(entries, key).Some?
    ensures key in last && last[key] == Lookup(entries, key).value
  {
  }

  /** The keys counted are other keys. */
  lemma {:induction false} TouchedSinceAreOthers(c: Config, entries: Entries, ops: seq<Operation>, key: Key)
    requires forall i :: 0 <= i < |ops| ==> LeavesAlone(ops[i], key)
    ensures key !in TouchedSince(c, entries, ops)
  {
    if ops != [] { TouchedSinceAreOthers(c, entries, ops[..|ops| - 1], key); }
  }
}

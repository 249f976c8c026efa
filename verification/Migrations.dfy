/**
 * Migrations: `migrateUp` and `migrateDown` over the table of recorded names, and any number of
 * `migrateUp` runners racing, each migration in its own transaction that first takes the table
 * lock and looks again.
 */
module Migrations {
  import opened JsStrings
  import opened Wrappers

  type Name = JsString

  ghost predicate Sorted(names: seq<Name>) {
    forall i, j :: 0 <= i < j < |names| ==> Less(names[i], names[j])
  }

  lemma SortedDistinct(names: seq<Name>, i: nat, j: nat)
    requires Sorted(names) && i < |names| && j < |names| && names[i] == names[j]
    ensures i == j
  {
    if i < j { LessIrreflexive(names[i]); }
    if j < i { LessIrreflexive(names[i]); }
  }

  // ----- one runner alone

  function Pending(available: seq<Name>, recorded: set<Name>): (pending: seq<Name>)
    ensures forall n :: n in pending <==> n in available && n !in recorded
  {
    if available == [] then []
    else
      var rest := Pending(available[1..], recorded);
      if available[0] in recorded then rest else [available[0]] + rest
  }

  /** The recorded names, in order, when all of them are available. */
  function Applied(available: seq<Name>, recorded: set<Name>): (applied: seq<Name>)
    ensures forall n :: n in applied <==> n in available && n in recorded
  {
    if available == [] then []
    else
      var rest := Applied(available[1..], recorded);
      if available[0] in recorded then [available[0]] + rest else rest
  }

  datatype Failure = MissingScript | SqlFailed(name: Name)

  /** slice(0, steps) */
  function First(names: seq<Name>, steps: Option<nat>): seq<Name> {
    if steps.None? || steps.value >= |names| then names else names[..steps.value]
  }

  /** slice(-steps) */
  function Last(names: seq<Name>, steps: nat): seq<Name> {
    if steps >= |names| then names else names[|names| - steps..]
  }

  /** A beginning of them: as many as asked for, or all. */
  lemma FirstIsPrefix(names: seq<Name>, steps: Option<nat>)
    ensures First(names, steps) <= names
    ensures steps.None? ==> First(names, steps) == names
    ensures steps.Some? ==> |First(names, steps)| == if steps.value < |names| then steps.value else |names|
  {
  }

  /** An end of them, as many as asked for, or all. */
  lemma LastIsSuffix(names: seq<Name>, steps: nat)
    ensures var last := Last(names, steps);
            && |last| == (if steps < |names| then steps else |names|)
            && forall i :: 0 <= i < |last| ==> last[i] == names[|names| - |last| + i]
  {
  }

  class Database {
    var recorded: set<Name>

    /** `succeeds` says whether a migration's own SQL does. The first that does not stops the run, and is undone. */
    method MigrateUp(available: seq<Name>, steps: Option<nat>, succeeds: Name -> bool)
      returns (applied: seq<Name>, failed: Option<Name>)
      requires Sorted(available)
      modifies this
      ensures var selected := First(Pending(available, old(recorded)), steps);
              && |applied| <= |selected| && applied == selected[..|applied|]
              && recorded == old(recorded) + Names(applied)
              && (forall n :: n in applied ==> succeeds(n))
              && (if failed.None? then applied == selected
                  else |applied| < |selected| && failed.value == selected[|applied|] && !succeeds(failed.value))
      ensures failed.None? ==>
                && (steps.Some? ==> |applied| <= steps.value)
                && (steps.None? || |applied| < steps.value ==> Names(available) <= recorded)
    {
      var selected := First(Pending(available, recorded), steps);
      FirstIsPrefix(Pending(available, recorded), steps);
      applied := [];
      PendingSorted(available, recorded);
      for i := 0 to |selected|
        invariant applied == selected[..i]
        invariant recorded == old(recorded) + Names(applied)
        invariant forall n :: n in applied ==> succeeds(n)
      {
        var name := selected[i];
        FirstStaysSorted(Pending(available, old(recorded)), steps);
        assert name !in Names(applied) by {
          if name in applied {
            var k :| 0 <= k < i && selected[k] == name;
            SortedDistinct(selected, k, i);
          }
        }
        assert name in Pending(available, old(recorded));
        if name !in recorded {
          if !succeeds(name) { return applied, Some(name); }
          recorded := recorded + {name};
          applied := applied + [name];
        }
      }
      return applied, None;
    }

    /**
     * `rows` is what the table answers in name order, `scripts` the names with a down file. Every file
     * is read before any SQL is run; then the newest goes first, and the first to fail stops the run.
     */
    method MigrateDown(rows: seq<Name>, scripts: set<Name>, steps: nat, succeeds: Name -> bool)
      returns (reverted: seq<Name>, failed: Option<Failure>)
      requires Sorted(rows) && Names(rows) == recorded && steps >= 1
      modifies this
      ensures var selected := Last(rows, steps);
              && (failed == Some(MissingScript) <==> exists n :: n in selected && n !in scripts)
              && (failed == Some(MissingScript) ==> reverted == [])
              && |reverted| <= |selected|
              && (forall i :: 0 <= i < |reverted| ==>
                    reverted[i] == selected[|selected| - 1 - i] && succeeds(reverted[i]))
              && recorded == old(recorded) - Names(reverted)
              && (failed.None? ==> |reverted| == |selected|)
              && (failed.Some? && failed.value.SqlFailed? ==>
                    |reverted| < |selected| && failed.value.name == selected[|selected| - 1 - |reverted|]
                    && !succeeds(failed.value.name))
    {
      var selected := Last(rows, steps);
      reverted := [];
      if i :| 0 <= i < |selected| && selected[i] !in scripts { return reverted, Some(MissingScript); }
      var i := |selected|;
      while i > 0
        invariant 0 <= i <= |selected|
        invariant |reverted| == |selected| - i
        invariant forall k :: 0 <= k < |reverted| ==>
                    reverted[k] == selected[|selected| - 1 - k] && succeeds(reverted[k])
        invariant recorded == old(recorded) - Names(reverted)
      {
        i := i - 1;
        if !succeeds(selected[i]) { return reverted, Some(SqlFailed(selected[i])); }
        recorded := recorded - {selected[i]};
        reverted := reverted + [selected[i]];
      }
      return reverted, None;
    }
  }

  ghost function Names(names: seq<Name>): set<Name> {
    set n | n in names
  }

  lemma {:induction false} PendingSorted(available: seq<Name>, recorded: set<Name>)
    requires Sorted(available)
    ensures Sorted(Pending(available, recorded))
  {
    if available != [] {
      PendingSorted(available[1..], recorded);
      var rest := Pending(available[1..], recorded);
      forall j | 0 <= j < |rest| ensures Less(available[0], rest[j]) {
        assert rest[j] in available[1..];
      }
    }
  }

  lemma FirstStaysSorted(names: seq<Name>, steps: Option<nat>)
    requires Sorted(names)
    ensures Sorted(First(names, steps))
  {
  }

  // ----- up, then down

  lemma ShiftPrefix(names: seq<Name>, p: nat)
    requires names != [] && p <= |names|
    ensures p > 0 ==> names[1..][p - 1..] == names[p..] && names[..p] == [names[0]] + names[1..][..p - 1]
    ensures p == 0 ==> names[p..] == [names[0]] + names[1..] && names[..p] == [] && names[1..][..0] == []
    ensures names[1..][0..] == names[1..]
  {
  }

  lemma {:induction false} PendingOfPrefix(available: seq<Name>, recorded: set<Name>, p: nat)
    requires Sorted(available) && p <= |available|
    requires forall k :: 0 <= k < |available| ==> (available[k] in recorded <==> k < p)
    ensures Pending(available, recorded) == available[p..]
    ensures Applied(available, recorded) == available[..p]
  {
    if available != [] {
      var rest := available[1..];
      assert forall k :: 0 <= k < |rest| ==> rest[k] == available[k + 1];
      PendingOfPrefix(rest, recorded, if p > 0 then p - 1 else 0);
      ShiftPrefix(available, p);
    }
  }

  lemma PrefixMembers(available: seq<Name>, p: nat)
    requires Sorted(available) && p <= |available|
    ensures forall k :: 0 <= k < |available| ==> (available[k] in Names(available[..p]) <==> k < p)
  {
    forall k | 0 <= k < |available| ensures available[k] in Names(available[..p]) <==> k < p {
      if available[k] in available[..p] {
        var j :| 0 <= j < p && available[j] == available[k];
        SortedDistinct(available, j, k);
      }
      if k < p { assert available[..p][k] == available[k]; }
    }
  }

  lemma {:induction false} AppliedSorted(available: seq<Name>, recorded: set<Name>)
    requires Sorted(available)
    ensures Sorted(Applied(available, recorded))
  {
    if available != [] {
      AppliedSorted(available[1..], recorded);
      var rest := Applied(available[1..], recorded);
      forall j | 0 <= j < |rest| ensures Less(available[0], rest[j]) {
        assert rest[j] in available[1..];
      }
    }
  }

  lemma TailMembers(a: seq<Name>, n: Name)
    requires Sorted(a) && a != []
    ensures n in a[1..] <==> n in a && n != a[0]
  {
    if n in a[1..] {
      var k :| 1 <= k < |a| && a[k] == n;
      if a[0] == n { SortedDistinct(a, 0, k); }
    }
    if n in a && n != a[0] {
      var k :| 0 <= k < |a| && a[k] == n;
      assert a[1..][k - 1] == n;
    }
  }

  lemma SameFirst(a: seq<Name>, b: seq<Name>)
    requires Sorted(a) && Sorted(b) && a != [] && b != [] && a[0] in b && b[0] in a
    ensures a[0] == b[0]
  {
    var j :| 0 <= j < |b| && b[j] == a[0];
    var k :| 0 <= k < |a| && a[k] == b[0];
    if j > 0 && k > 0 { LessAsymmetric(a[0], b[0]); }
  }

  lemma {:induction false} SortedUnique(a: seq<Name>, b: seq<Name>)
    requires Sorted(a) && Sorted(b) && forall n :: n in a <==> n in b
    ensures a == b
  {
    if b != [] { assert b[0] in a; }
    if a != [] {
      assert a[0] in b;
      SameFirst(a, b);
      forall n ensures n in a[1..] <==> n in b[1..] {
        TailMembers(a, n);
        TailMembers(b, n);
      }
      SortedUnique(a[1..], b[1..]);
      assert a == [a[0]] + a[1..] && b == [b[0]] + b[1..];
    }
  }

  /** In name order the table has one answer: that of the available names which are recorded. */
  lemma RowsAreApplied(available: seq<Name>, rows: seq<Name>)
    requires Sorted(available) && Sorted(rows) && forall n :: n in rows ==> n in available
    ensures rows == Applied(available, Names(rows))
  {
    AppliedSorted(available, Names(rows));
    SortedUnique(rows, Applied(available, Names(rows)));
  }

  /** What up `k` and then down `k` leave recorded, both succeeding. */
  ghost function UpDown(available: seq<Name>, recorded: set<Name>, k: nat): set<Name> {
    var up := recorded + Names(First(Pending(available, recorded), Some(k)));
    up - Names(Last(Applied(available, up), k))
  }

  lemma TakeFirst(names: seq<Name>, p: nat, k: nat)
    requires p <= |names|
    ensures First(names[p..], Some(k)) == names[p..if p + k <= |names| then p + k else |names|]
  {
  }

  lemma TakeLast(names: seq<Name>, q: nat, k: nat)
    requires q <= |names|
    ensures Last(names[..q], k) == names[(if k <= q then q - k else 0)..q]
  {
  }

  lemma NamesConcat(names: seq<Name>, i: nat, j: nat)
    requires i <= j <= |names|
    ensures Names(names[..j]) == Names(names[..i]) + Names(names[i..j])
  {
    assert names[..j] == names[..i] + names[i..j];
  }

  lemma UpFromPrefix(available: seq<Name>, p: nat, k: nat)
    requires Sorted(available) && p <= |available|
    ensures var q := if p + k <= |available| then p + k else |available|;
            var recorded := Names(available[..p]);
            recorded + Names(First(Pending(available, recorded), Some(k))) == Names(available[..q])
  {
    PrefixMembers(available, p);
    PendingOfPrefix(available, Names(available[..p]), p);
    TakeFirst(available, p, k);
    NamesConcat(available, p, if p + k <= |available| then p + k else |available|);
  }

  lemma DownFromPrefix(available: seq<Name>, q: nat, k: nat)
    requires Sorted(available) && q <= |available|
    ensures var back := if k <= q then q - k else 0;
            var recorded := Names(available[..q]);
            recorded - Names(Last(Applied(available, recorded), k)) == Names(available[..back])
  {
    var back := if k <= q then q - k else 0;
    PrefixMembers(available, q);
    PendingOfPrefix(available, Names(available[..q]), q);
    TakeLast(available, q, k);
    NamesConcat(available, back, q);
    PartsDisjoint(available, back, q);
  }

  lemma PartsDisjoint(available: seq<Name>, back: nat, q: nat)
    requires Sorted(available) && back <= q <= |available|
    ensures Names(available[..back]) !! Names(available[back..q])
  {
    forall x | x in available[..back] ensures x !in available[back..q] {
      if x in available[back..q] {
        var i :| 0 <= i < back && available[..back][i] == x;
        var j :| 0 <= j < q - back && available[back..q][j] == x;
        SortedDistinct(available, i, back + j);
      }
    }
  }

  lemma SamePrefix(available: seq<Name>, a: nat, b: nat)
    requires Sorted(available) && a <= |available| && b <= |available|
    ensures Names(available[..a]) == Names(available[..b]) <==> a == b
  {
    PrefixMembers(available, a);
    PrefixMembers(available, b);
    if a < b { assert available[a] in Names(available[..b]); }
    if b < a { assert available[b] in Names(available[..a]); }
  }

  /** From a prefix, up k then down k restores it exactly when k migrations were pending, or none had been applied. */
  lemma UpDownRestoresExactly(available: seq<Name>, p: nat, k: nat)
    requires Sorted(available) && p <= |available| && k >= 1
    ensures UpDown(available, Names(available[..p]), k) == Names(available[..p])
            <==> p + k <= |available| || p == 0
  {
    var q := if p + k <= |available| then p + k else |available|;
    var back := if k <= q then q - k else 0;
    UpFromPrefix(available, p, k);
    DownFromPrefix(available, q, k);
    SamePrefix(available, back, p);
  }

  // ----- runners racing

  type RunnerId = nat

  datatype Runner =
    | Running(selected: seq<Name>, applied: seq<Name>)
    | Finished(applied: seq<Name>)
    | Threw(applied: seq<Name>)      // what it had applied is recorded, and never reported

  /** `log`: the migrations whose SQL was committed, in order, with the runner. */
  datatype State = State(recorded: set<Name>, runners: map<RunnerId, Runner>, log: seq<(RunnerId, Name)>)

  datatype Event =
    | Select(r: RunnerId, steps: Option<nat>)    // reads the table and picks what is pending
    | Transact(r: RunnerId, succeeds: bool)      // one transaction: lock, look again, run, record

  predicate Enabled(s: State, e: Event) {
    match e
    case Select(r, _) => r !in s.runners
    case Transact(r, _) => r in s.runners && s.runners[r].Running?
  }

  function Apply(available: seq<Name>, s: State, e: Event): State
    requires Enabled(s, e)
  {
    match e
    case Select(r, steps) =>
      s.(runners := s.runners[r := Running(First(Pending(available, s.recorded), steps), [])])
    case Transact(r, succeeds) =>
      var Running(selected, applied) := s.runners[r];
      if selected == [] then s.(runners := s.runners[r := Finished(applied)])
      else if selected[0] in s.recorded then s.(runners := s.runners[r := Running(selected[1..], applied)])
      else if !succeeds then s.(runners := s.runners[r := Threw(applied)])
      else State(s.recorded + {selected[0]},
                 s.runners[r := Running(selected[1..], applied + [selected[0]])],
                 s.log + [(r, selected[0])])
  }

  function Run(available: seq<Name>, initial: set<Name>, events: seq<Event>): Option<State> {
    if events == [] then Some(State(initial, map[], []))
    else
      var before := Run(available, initial, events[..|events| - 1]);
      var e := events[|events| - 1];
      if before.Some? && Enabled(before.value, e) then Some(Apply(available, before.value, e)) else None
  }

  ghost predicate Committed(log: seq<(RunnerId, Name)>, n: Name) {
    exists i :: 0 <= i < |log| && log[i].1 == n
  }

  /** Recorded is what was there and what ran; nothing ran twice, or although it was there. */
  ghost predicate LogOk(initial: set<Name>, s: State) {
    && (forall n :: n in s.recorded <==> n in initial || Committed(s.log, n))
    && (forall i :: 0 <= i < |s.log| ==> s.log[i].1 !in initial)
    && (forall i, j :: 0 <= i < j < |s.log| ==> s.log[i].1 != s.log[j].1)
  }

  /** When a migration ran, every earlier one available had been recorded. */
  ghost predicate InOrder(available: seq<Name>, initial: set<Name>, log: seq<(RunnerId, Name)>) {
    forall i, n :: 0 <= i < |log| && n in available && Less(n, log[i].1) ==> n in initial || Committed(log[..i], n)
  }

  /** Whatever comes before a migration still to do is recorded, or to be done first. */
  ghost predicate QueueOk(available: seq<Name>, recorded: set<Name>, selected: seq<Name>) {
    && Sorted(selected)
    && (forall n :: n in selected ==> n in available)
    && forall k, n :: 0 <= k < |selected| && n in available && Less(n, selected[k]) ==>
         n in recorded || n in selected[..k]
  }

  ghost predicate RunnersOk(available: seq<Name>, s: State) {
    forall r :: r in s.runners ==>
      && s.runners[r].applied == By(s.log, r)
      && (s.runners[r].Running? ==> QueueOk(available, s.recorded, s.runners[r].selected))
  }

  /** What one runner committed. */
  function By(log: seq<(RunnerId, Name)>, r: RunnerId): seq<Name> {
    if log == [] then []
    else
      var last := log[|log| - 1];
      if last.0 == r then By(log[..|log| - 1], r) + [last.1] else By(log[..|log| - 1], r)
  }

  ghost predicate Inv(available: seq<Name>, initial: set<Name>, s: State) {
    && LogOk(initial, s) && InOrder(available, initial, s.log) && RunnersOk(available, s)
    && forall i :: 0 <= i < |s.log| ==> s.log[i].0 in s.runners && s.log[i].1 in available
  }

  lemma SelectedIsQueue(available: seq<Name>, recorded: set<Name>, steps: Option<nat>)
    requires Sorted(available)
    ensures QueueOk(available, recorded, First(Pending(available, recorded), steps))
  {
    var pending := Pending(available, recorded);
    var selected := First(pending, steps);
    PendingSorted(available, recorded);
    forall k, n | 0 <= k < |selected| && n in available && Less(n, selected[k])
      ensures n in recorded || n in selected[..k]
    {
      if n !in recorded {
        var j :| 0 <= j < |pending| && pending[j] == n;
        if j >= k {
          assert pending[k] == selected[k];
          LessAsymmetric(n, selected[k]);
        }
        assert selected[..k][j] == n;
      }
    }
  }

  lemma QueueAdvances(available: seq<Name>, recorded: set<Name>, selected: seq<Name>)
    requires QueueOk(available, recorded, selected) && selected != [] && selected[0] in recorded
    ensures QueueOk(available, recorded, selected[1..])
  {
    forall k, n | 0 <= k < |selected| - 1 && n in available && Less(n, selected[1..][k])
      ensures n in recorded || n in selected[1..][..k]
    {
      assert selected[1..][k] == selected[k + 1];
      if n !in recorded {
        var j :| 0 <= j < k + 1 && selected[j] == n;
        assert selected[1..][..k][j - 1] == n;
      }
    }
  }

  lemma QueueStays(available: seq<Name>, recorded: set<Name>, more: set<Name>, selected: seq<Name>)
    requires QueueOk(available, recorded, selected) && recorded <= more
    ensures QueueOk(available, more, selected)
  {
  }

  lemma CommitStep(initial: set<Name>, available: seq<Name>, s: State, r: RunnerId, n: Name)
    requires LogOk(initial, s) && InOrder(available, initial, s.log) && n !in s.recorded
    requires forall m :: m in available && Less(m, n) ==> m in s.recorded
    ensures var t := s.(recorded := s.recorded + {n}, log := s.log + [(r, n)]);
            LogOk(initial, t) && InOrder(available, initial, t.log)
  {
    var t := s.(recorded := s.recorded + {n}, log := s.log + [(r, n)]);
    var len := |s.log|;
    forall m ensures Committed(t.log, m) <==> Committed(s.log, m) || m == n {
      if Committed(s.log, m) {
        var i :| 0 <= i < len && s.log[i].1 == m;
        assert t.log[i].1 == m;
      }
      assert t.log[len].1 == n;
    }
    forall i, m | 0 <= i < |t.log| && m in available && Less(m, t.log[i].1)
      ensures m in initial || Committed(t.log[..i], m)
    {
      assert t.log[..len] == s.log;
      if i < len { assert t.log[..i] == s.log[..i]; }
    }
  }

  lemma ByStep(log: seq<(RunnerId, Name)>, r: RunnerId, n: Name)
    ensures forall q :: By(log + [(r, n)], q) == (if q == r then By(log, q) + [n] else By(log, q))
  {
    assert (log + [(r, n)])[..|log|] == log;
  }

  lemma TransactStep(available: seq<Name>, initial: set<Name>, s: State, r: RunnerId, succeeds: bool)
    requires Inv(available, initial, s) && Enabled(s, Transact(r, succeeds))
    ensures Inv(available, initial, Apply(available, s, Transact(r, succeeds)))
  {
    var selected := s.runners[r].selected;
    if selected != [] {
      if selected[0] in s.recorded {
        QueueAdvances(available, s.recorded, selected);
      } else if succeeds {
        var n := selected[0];
        assert forall m :: m in available && Less(m, n) ==> m in s.recorded by {
          assert selected[..0] == [];
        }
        CommitStep(initial, available, s, r, n);
        ByStep(s.log, r, n);
        var recorded := s.recorded + {n};
        forall q | q in s.runners && s.runners[q].Running? ensures QueueOk(available, recorded, s.runners[q].selected) {
          QueueStays(available, s.recorded, recorded, s.runners[q].selected);
        }
        QueueAdvances(available, recorded, selected);
      }
    }
  }

  lemma {:induction false} NothingBy(log: seq<(RunnerId, Name)>, r: RunnerId)
    requires forall i :: 0 <= i < |log| ==> log[i].0 != r
    ensures By(log, r) == []
  {
    if log != [] { NothingBy(log[..|log| - 1], r); }
  }

  lemma SelectStep(available: seq<Name>, initial: set<Name>, s: State, r: RunnerId, steps: Option<nat>)
    requires Sorted(available) && Inv(available, initial, s) && Enabled(s, Select(r, steps))
    ensures Inv(available, initial, Apply(available, s, Select(r, steps)))
  {
    SelectedIsQueue(available, s.recorded, steps);
    NothingBy(s.log, r);
  }

  lemma {:induction false} Invariant(available: seq<Name>, initial: set<Name>, events: seq<Event>)
    requires Sorted(available) && Run(available, initial, events).Some?
    ensures Inv(available, initial, Run(available, initial, events).value)
  {
    if events != [] {
      var front, e := events[..|events| - 1], events[|events| - 1];
      Invariant(available, initial, front);
      var s := Run(available, initial, front).value;
      match e
      case Select(r, steps) => SelectStep(available, initial, s, r, steps);
      case Transact(r, succeeds) => TransactStep(available, initial, s, r, succeeds);
    }
  }

  /**
   * However runners race: a migration's SQL is committed at most once, never if it was recorded
   * before, and only after every earlier available one is recorded.
   */
  lemma EachRunsOnceInOrder(available: seq<Name>, initial: set<Name>, events: seq<Event>, i: nat)
    requires Sorted(available) && Run(available, initial, events).Some?
    requires i < |Run(available, initial, events).value.log|
    ensures var s := Run(available, initial, events).value;
            var name := s.log[i].1;
            && name !in initial && name in s.recorded && name in available
            && (forall j :: 0 <= j < |s.log| && s.log[j].1 == name ==> j == i)
            && forall n :: n in available && Less(n, name) ==> n in initial || Committed(s.log[..i], n)
  {
    Invariant(available, initial, events);
    var s := Run(available, initial, events).value;
    assert Committed(s.log, s.log[i].1);
  }

  /**
   * Every name recorded since is in the list of exactly one runner. That runner reports it if it
   * finishes; one that throws reports nothing.
   */
  lemma ExactlyOneRunnerApplied(available: seq<Name>, initial: set<Name>, events: seq<Event>, n: Name)
    requires Sorted(available) && Run(available, initial, events).Some?
    requires n in Run(available, initial, events).value.recorded && n !in initial
    ensures var s := Run(available, initial, events).value;
            exists r :: r in s.runners && n in s.runners[r].applied
                        && forall q :: q in s.runners && n in s.runners[q].applied ==> q == r
  {
    Invariant(available, initial, events);
    var s := Run(available, initial, events).value;
    var i :| 0 <= i < |s.log| && s.log[i].1 == n;
    var r := s.log[i].0;
    ByMembers(s.log, r, n);
    assert n in s.runners[r].applied;
    forall q | q in s.runners && n in s.runners[q].applied ensures q == r {
      ByMembers(s.log, q, n);
      var j :| 0 <= j < |s.log| && s.log[j] == (q, n);
      assert i == j;
    }
  }

  lemma {:induction false} ByMembers(log: seq<(RunnerId, Name)>, r: RunnerId, n: Name)
    ensures n in By(log, r) <==> exists i :: 0 <= i < |log| && log[i] == (r, n)
  {
    if log != [] {
      var front := log[..|log| - 1];
      ByMembers(front, r, n);
      if i :| 0 <= i < |front| && front[i] == (r, n) { assert log[i] == (r, n); }
      if i :| 0 <= i < |log| && log[i] == (r, n) { assert i < |front| ==> front[i] == (r, n); }
    }
  }

  /** Started from a prefix of the available migrations, the recorded ones are always a prefix. */
  lemma PrefixStaysPrefix(available: seq<Name>, p: nat, events: seq<Event>)
    requires Sorted(available) && p <= |available|
    requires Run(available, Names(available[..p]), events).Some?
    ensures var s := Run(available, Names(available[..p]), events).value;
            forall i, j :: 0 <= i < j < |available| && available[j] in s.recorded ==> available[i] in s.recorded
  {
    var initial := Names(available[..p]);
    Invariant(available, initial, events);
    PrefixMembers(available, p);
    var s := Run(available, initial, events).value;
    forall i, j | 0 <= i < j < |available| && available[j] in s.recorded ensures available[i] in s.recorded {
      if available[j] !in initial {
        var k :| 0 <= k < |s.log| && s.log[k].1 == available[j];
        if Committed(s.log[..k], available[i]) {
          var m :| 0 <= m < k && s.log[..k][m].1 == available[i];
          assert s.log[m].1 == available[i];
        }
      }
    }
  }

  // ----- what a runner that finishes has seen to

  ghost predicate Selects(events: seq<Event>, r: RunnerId, steps: Option<nat>) {
    exists k :: 0 <= k < |events| && events[k] == Select(r, steps)
  }

  /** What the runner has still to do; nothing once it finished or threw. */
  function Todo(runner: Runner): seq<Name> {
    if runner.Running? then runner.selected else []
  }

  /** Unless it threw, what it was to do is recorded or still to do; and it does no more than it was asked. */
  ghost predicate SeesTo(available: seq<Name>, recorded: set<Name>, runner: Runner, steps: Option<nat>) {
    && (steps.None? && !runner.Threw? ==> forall n :: n in available ==> n in recorded || n in Todo(runner))
    && (steps.Some? ==> |runner.applied| + |Todo(runner)| <= steps.value)
  }

  ghost predicate AllSeeTo(available: seq<Name>, s: State, events: seq<Event>) {
    forall r, steps :: Selects(events, r, steps) ==>
      r in s.runners && SeesTo(available, s.recorded, s.runners[r], steps)
  }

  lemma SeesToStep(available: seq<Name>, s: State, e: Event, r: RunnerId, steps: Option<nat>)
    requires Enabled(s, e) && r in s.runners && SeesTo(available, s.recorded, s.runners[r], steps)
    ensures var t := Apply(available, s, e); r in t.runners && SeesTo(available, t.recorded, t.runners[r], steps)
  {
    if e == Transact(r, true) || e == Transact(r, false) {
      var selected := s.runners[r].selected;
      assert selected != [] ==> forall n :: n in selected ==> n == selected[0] || n in selected[1..];
    }
  }

  lemma SelectSeesTo(available: seq<Name>, s: State, r: RunnerId, steps: Option<nat>)
    requires Enabled(s, Select(r, steps))
    ensures var t := Apply(available, s, Select(r, steps)); SeesTo(available, t.recorded, t.runners[r], steps)
  {
    FirstIsPrefix(Pending(available, s.recorded), steps);
  }

  lemma {:induction false} RunnersSeeTo(available: seq<Name>, initial: set<Name>, events: seq<Event>)
    requires Run(available, initial, events).Some?
    ensures AllSeeTo(available, Run(available, initial, events).value, events)
  {
    if events != [] {
      var n := |events| - 1;
      var s := Run(available, initial, events[..n]).value;
      RunnersSeeTo(available, initial, events[..n]);
      forall r, steps | Selects(events, r, steps)
        ensures r in Run(available, initial, events).value.runners
        ensures SeesTo(available, Run(available, initial, events).value.recorded,
                       Run(available, initial, events).value.runners[r], steps)
      {
        var k :| 0 <= k < |events| && events[k] == Select(r, steps);
        if k < n {
          assert events[..n][k] == Select(r, steps);
          assert Selects(events[..n], r, steps);
          SeesToStep(available, s, events[n], r, steps);
        } else {
          SelectSeesTo(available, s, r, steps);
        }
      }
    }
  }

  /**
   * However runners race, one that was asked for everything and finishes leaves nothing unrecorded, and
   * one that was asked for so many applies no more; only a migration whose SQL fails makes one throw.
   */
  lemma FinishedMeansUpToDate(
    available: seq<Name>, initial: set<Name>, events: seq<Event>, r: RunnerId, steps: Option<nat>)
    requires Run(available, initial, events).Some? && Selects(events, r, steps)
    ensures var s := Run(available, initial, events).value;
            && r in s.runners
            && (steps.None? && s.runners[r].Finished? ==> forall n :: n in available ==> n in s.recorded)
            && (steps.Some? ==> |s.runners[r].applied| <= steps.value)
            && (s.runners[r].Threw? ==> Transact(r, false) in events)
  {
    RunnersSeeTo(available, initial, events);
    OnlyFailureThrows(available, initial, events, r);
  }

  lemma {:induction false} OnlyFailureThrows(
    available: seq<Name>, initial: set<Name>, events: seq<Event>, r: RunnerId)
    requires Run(available, initial, events).Some?
    ensures var s := Run(available, initial, events).value;
            r in s.runners && s.runners[r].Threw? ==> Transact(r, false) in events
  {
    if events != [] {
      var n := |events| - 1;
      OnlyFailureThrows(available, initial, events[..n], r);
      assert forall e :: e in events[..n] ==> e in events;
      assert events[n] in events;
    }
  }
}

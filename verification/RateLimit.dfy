/**
 * The rate limiter over the in-memory store, which keeps one window for each bucket and evicts the
 * bucket used longest ago. Against the plain count of increments of a bucket in a window.
 */
module RateLimit {
  import opened Lru
  import opened Wrappers

  type Bucket = string

  datatype Window = Window(start: int, count: nat)

  type Windows = seq<(Bucket, Window)>

  datatype Operation =
    | Increment(bucket: Bucket, start: int)
    | Prune(olderThan: int)

  function Pruned(windows: Windows, olderThan: int): (r: Windows)
    ensures |r| <= |windows| && forall i :: 0 <= i < |r| ==> r[i] in windows && r[i].1.start >= olderThan
  {
    if windows == [] then []
    else if windows[0].1.start < olderThan then Pruned(windows[1..], olderThan)
    else [windows[0]] + Pruned(windows[1..], olderThan)
  }

  /** The window a bucket has after one more increment. */
  function Incremented(windows: Windows, bucket: Bucket, start: int): Window {
    var current := Lookup(windows, bucket);
    if current.Some? && current.value.start == start then Window(start, current.value.count + 1) else Window(start, 1)
  }

  function After(maxEntries: nat, windows: Windows, op: Operation): Windows {
    match op
    case Increment(bucket, start) =>
      Bounded(Touched(windows, bucket, Incremented(windows, bucket, start)), maxEntries)
    case Prune(olderThan) => Pruned(windows, olderThan)
  }

  class RateLimitStore {
    const maxEntries: nat
    var windows: Windows

    ghost predicate Valid()
      reads this
    {
      maxEntries >= 1 && |windows| <= maxEntries
    }

    constructor (requested: int)
      ensures Valid() && windows == [] && maxEntries == (if requested < 1 then 1 else requested)
    {
      maxEntries := if requested < 1 then 1 else requested;
      windows := [];
    }

    method Increment(bucket: Bucket, start: int) returns (count: nat)
      requires Valid()
      modifies this
      ensures Valid()
      ensures windows == After(maxEntries, old(windows), Operation.Increment(bucket, start))
      ensures count == Incremented(old(windows), bucket, start).count
    {
      var current := Lookup(windows, bucket);
      if current.Some? && current.value.start == start {
        // an existing window is touched and nothing is evicted: there is nothing over the bound
        SizeOfWithout(windows, bucket);
        count := current.value.count + 1;
        windows := Touched(windows, bucket, Window(start, count));
        return;
      }
      windows := Touched(windows, bucket, Window(start, 1));
      windows := Evict(windows, maxEntries);
      return 1;
    }

    method PruneOlder(olderThan: int)
      requires Valid()
      modifies this
      ensures Valid() && windows == After(maxEntries, old(windows), Prune(olderThan))
    {
      var kept: Windows := [];
      var i := 0;
      while i < |windows|
        invariant 0 <= i <= |windows| && windows == old(windows)
        invariant kept + Pruned(windows[i..], olderThan) == Pruned(windows, olderThan)
      {
        assert windows[i..][1..] == windows[i + 1..];
        if windows[i].1.start >= olderThan { kept := kept + [windows[i]]; }
        i := i + 1;
      }
      windows := kept;
    }
  }

  datatype Decision = Decision(allowed: bool, limit: int, remaining: int, resetAt: int, count: nat)

  /** Rounded down to a window boundary; `now` may be negative, and `Math.floor` is Dafny's division then too. */
  function WindowStart(now: int, windowMs: int): int
    requires windowMs > 0
  {
    now / windowMs * windowMs
  }

  method Check(store: RateLimitStore, bucket: Bucket, limit: int, windowMs: int, now: int) returns (d: Decision)
    requires store.Valid() && limit > 0 && windowMs > 0
    modifies store
    ensures store.Valid()
    ensures d.resetAt % windowMs == 0 && d.resetAt - windowMs <= now < d.resetAt
    ensures store.windows == After(store.maxEntries, old(store.windows), Increment(bucket, d.resetAt - windowMs))
    ensures d.count == CountIn(old(store.windows), bucket, d.resetAt - windowMs) + 1
    ensures d.limit == limit && d.allowed == (d.count <= limit)
    ensures d.remaining == if d.allowed then limit - d.count else 0
  {
    var start := WindowStart(now, windowMs);
    var count := store.Increment(bucket, start);
    d := Decision(count <= limit, limit, if limit > count then limit - count else 0, start + windowMs, count);
    WindowOfNow(now, windowMs, now / windowMs);
    assert d.resetAt == (now / windowMs + 1) * windowMs;
    MultipleOf(now / windowMs + 1, windowMs);
  }

  lemma AtLeastOne(d: int, windowMs: int)
    requires windowMs > 0
    ensures d >= 1 ==> d * windowMs >= windowMs
    ensures d <= -1 ==> d * windowMs <= -windowMs
  {
    if d >= 1 { assert (d - 1) * windowMs >= 0; }
    if d <= -1 { assert (-d - 1) * windowMs >= 0; }
  }

  lemma NothingLeft(d: int, windowMs: int, r: int)
    requires d * windowMs == r && 0 <= r < windowMs
    ensures r == 0
  {
    AtLeastOne(d, windowMs);
  }

  lemma MultipleOf(k: int, windowMs: int)
    requires windowMs > 0
    ensures k * windowMs % windowMs == 0
  {
    var x := k * windowMs;
    assert x == x / windowMs * windowMs + x % windowMs;
    NothingLeft(k - x / windowMs, windowMs, x % windowMs);
  }

  /** Readings share a start exactly when they fall in the same window. */
  lemma WindowOfNow(now: int, windowMs: int, k: int)
    requires windowMs > 0
    ensures WindowStart(now, windowMs) == k * windowMs <==> k * windowMs <= now < (k + 1) * windowMs
  {
    var q := now / windowMs;
    assert now == q * windowMs + now % windowMs;
    if q < k { assert (q + 1) * windowMs <= k * windowMs; }
    if q > k { assert (k + 1) * windowMs <= q * windowMs; }
  }

  // ----- whole histories

  function Run(max: nat, ops: seq<Operation>): Windows {
    if ops == [] then [] else After(max, Run(max, ops[..|ops| - 1]), ops[|ops| - 1])
  }

  /** Every increment of the bucket in the window. */
  function Increments(ops: seq<Operation>, bucket: Bucket, start: int): nat {
    if ops == [] then 0
    else Increments(ops[..|ops| - 1], bucket, start)
         + (if ops[|ops| - 1] == Increment(bucket, start) then 1 else 0)
  }

  /** The count the store has for the bucket in the window. */
  function CountIn(windows: Windows, bucket: Bucket, start: int): nat {
    var current := Lookup(windows, bucket);
    if current.Some? && current.value.start == start then current.value.count else 0
  }

  /** What the store forgot: the counts it had for the window when it dropped or replaced it. */
  function Forgotten(max: nat, ops: seq<Operation>, bucket: Bucket, start: int): nat {
    if ops == [] then 0
    else
      var front := ops[..|ops| - 1];
      var before, after := CountIn(Run(max, front), bucket, start), CountIn(Run(max, ops), bucket, start);
      Forgotten(max, front, bucket, start) + (if after == 0 then before else 0)
  }

  ghost predicate Sound(max: nat, windows: Windows) {
    && Distinct(windows) && |windows| <= max
    && forall i :: 0 <= i < |windows| ==> windows[i].1.count >= 1
  }

  lemma {:induction false} PrunedDistinct(windows: Windows, olderThan: int)
    requires Distinct(windows)
    ensures Distinct(Pruned(windows, olderThan))
  {
    if windows != [] {
      var rest := Pruned(windows[1..], olderThan);
      PrunedDistinct(windows[1..], olderThan);
      forall i | 0 <= i < |rest| ensures rest[i].0 != windows[0].0 {
        assert rest[i] in windows[1..];
      }
    }
  }

  lemma TouchedCounts(windows: Windows, bucket: Bucket, w: Window)
    requires w.count >= 1 && forall i :: 0 <= i < |windows| ==> windows[i].1.count >= 1
    ensures forall e :: e in Touched(windows, bucket, w) ==> e.1.count >= 1
  {
    forall e | e in Without(windows, bucket) ensures e in windows {}
  }

  lemma IncrementedPositive(max: nat, windows: Windows, bucket: Bucket, start: int)
    requires Sound(max, windows)
    ensures Sound(max, Bounded(Touched(windows, bucket, Incremented(windows, bucket, start)), max))
  {
    var w := Incremented(windows, bucket, start);
    TouchedDistinct(windows, bucket, w);
    TouchedCounts(windows, bucket, w);
    BoundedDistinct(Touched(windows, bucket, w), max);
  }

  lemma {:induction false} RunIsSound(max: nat, ops: seq<Operation>)
    ensures Sound(max, Run(max, ops))
  {
    if ops != [] {
      var front, op := ops[..|ops| - 1], ops[|ops| - 1];
      RunIsSound(max, front);
      match op
      case Increment(bucket, start) => IncrementedPositive(max, Run(max, front), bucket, start);
      case Prune(olderThan) => PrunedDistinct(Run(max, front), olderThan);
    }
  }

  /** Whatever is still there for another bucket, or after a prune, is as it was. */
  lemma OthersKeepTheirCount(max: nat, windows: Windows, op: Operation, bucket: Bucket, start: int)
    requires Sound(max, windows) && op != Increment(bucket, start)
    ensures var after := CountIn(After(max, windows, op), bucket, start);
            after == 0 || after == CountIn(windows, bucket, start)
  {
    var after := After(max, windows, op);
    var found := Lookup(after, bucket);
    if found.Some? && found.value.start == start {
      assert (bucket, found.value) in after;
      match op
      case Increment(other, s) =>
        var t := Touched(windows, other, Incremented(windows, other, s));
        assert (bucket, found.value) in t;
        if other != bucket {
          assert (bucket, found.value) in windows;
          FoundInDistinct(windows, bucket, found.value);
        } else {
          TouchedIsNew(windows, bucket, Incremented(windows, other, s), found.value);
        }
      case Prune(_) => FoundInDistinct(windows, bucket, found.value);
    }
  }

  /** What was just touched is there once. */
  lemma TouchedIsNew(windows: Windows, bucket: Bucket, w: Window, found: Window)
    requires Distinct(windows) && (bucket, found) in Touched(windows, bucket, w)
    ensures found == w
  {
    var t := Touched(windows, bucket, w);
    TouchedDistinct(windows, bucket, w);
    assert t[|t| - 1] == (bucket, w);
    FoundInDistinct(t, bucket, found);
    LookupDistinct(t, |t| - 1);
  }

  lemma FoundInDistinct(windows: Windows, bucket: Bucket, w: Window)
    requires Distinct(windows) && (bucket, w) in windows
    ensures Lookup(windows, bucket) == Some(w)
  {
    var i :| 0 <= i < |windows| && windows[i] == (bucket, w);
    LookupDistinct(windows, i);
  }

  lemma OwnIncrementCounts(max: nat, windows: Windows, bucket: Bucket, start: int)
    requires max > 0 && Sound(max, windows)
    ensures CountIn(After(max, windows, Increment(bucket, start)), bucket, start)
            == CountIn(windows, bucket, start) + 1
            == Incremented(windows, bucket, start).count
  {
    var w := Incremented(windows, bucket, start);
    TouchSelf(windows, bucket, w, max);
    IncrementedPositive(max, windows, bucket, start);
    KeptIsFound(After(max, windows, Increment(bucket, start)), bucket, w, {});
  }

  /** The store's count is the number of increments, less exactly what it forgot. */
  lemma {:induction false} CountIsExactLessForgotten(max: nat, ops: seq<Operation>, bucket: Bucket, start: int)
    requires max > 0
    ensures CountIn(Run(max, ops), bucket, start) + Forgotten(max, ops, bucket, start) == Increments(ops, bucket, start)
  {
    if ops != [] {
      var front, op := ops[..|ops| - 1], ops[|ops| - 1];
      CountIsExactLessForgotten(max, front, bucket, start);
      RunIsSound(max, front);
      if op == Increment(bucket, start) {
        OwnIncrementCounts(max, Run(max, front), bucket, start);
      } else {
        OthersKeepTheirCount(max, Run(max, front), op, bucket, start);
      }
    }
  }

  /**
   * A check passes exactly when fewer than `limit` increments of its bucket and window came before
   * it, not counting those forgotten.
   */
  lemma CheckPassesExactly(max: nat, ops: seq<Operation>, bucket: Bucket, start: int, limit: int)
    requires max > 0
    ensures Incremented(Run(max, ops), bucket, start).count <= limit
            <==> Increments(ops, bucket, start) - Forgotten(max, ops, bucket, start) < limit
  {
    CountIsExactLessForgotten(max, ops, bucket, start);
    RunIsSound(max, ops);
    OwnIncrementCounts(max, Run(max, ops), bucket, start);
  }

  // ----- how many checks pass

  /** The checks of the bucket in the window that were allowed. */
  function Passes(max: nat, ops: seq<Operation>, bucket: Bucket, start: int, limit: nat): nat {
    if ops == [] then 0
    else
      var front, op := ops[..|ops| - 1], ops[|ops| - 1];
      var allowed := op == Increment(bucket, start) && Incremented(Run(max, front), bucket, start).count <= limit;
      Passes(max, front, bucket, start, limit) + if allowed then 1 else 0
  }

  function Min(a: nat, b: nat): nat {
    if a < b then a else b
  }

  /** Over every history no more than `limit` checks pass, but for those whose count was forgotten. */
  lemma {:induction false} PassesAreLimited(max: nat, ops: seq<Operation>, bucket: Bucket, start: int, limit: nat)
    requires max > 0
    ensures Passes(max, ops, bucket, start, limit)
            <= Forgotten(max, ops, bucket, start) + Min(CountIn(Run(max, ops), bucket, start), limit)
  {
    if ops != [] {
      var front, op := ops[..|ops| - 1], ops[|ops| - 1];
      PassesAreLimited(max, front, bucket, start, limit);
      RunIsSound(max, front);
      if op == Increment(bucket, start) {
        OwnIncrementCounts(max, Run(max, front), bucket, start);
      } else {
        OthersKeepTheirCount(max, Run(max, front), op, bucket, start);
      }
    }
  }

  /** While nothing is forgotten exactly the first `limit` pass. */
  lemma {:induction false} FirstLimitPass(max: nat, ops: seq<Operation>, bucket: Bucket, start: int, limit: nat)
    requires max > 0 && Forgotten(max, ops, bucket, start) == 0
    ensures Passes(max, ops, bucket, start, limit) == Min(Increments(ops, bucket, start), limit)
  {
    if ops != [] {
      var front := ops[..|ops| - 1];
      FirstLimitPass(max, front, bucket, start, limit);
      CountIsExactLessForgotten(max, front, bucket, start);
      RunIsSound(max, front);
      OwnIncrementCounts(max, Run(max, front), bucket, start);
    }
  }

  // ----- when nothing is forgotten

  function BucketsIn(ops: seq<Operation>): set<Bucket> {
    if ops == [] then {}
    else
      var op := ops[|ops| - 1];
      BucketsIn(ops[..|ops| - 1]) + (if op.Increment? then {op.bucket} else {})
  }

  lemma {:induction false} PrunedKeeps(windows: Windows, bucket: Bucket, w: Window, since: set<Bucket>, olderThan: int)
    requires Kept(windows, bucket, w, since) && w.start >= olderThan
    ensures Kept(Pruned(windows, olderThan), bucket, w, since)
  {
    var p :| KeptAt(windows, bucket, w, since, p);
    var r := Pruned(windows[1..], olderThan);
    if p > 0 {
      assert KeptAt(windows[1..], bucket, w, since, p - 1);
      PrunedKeeps(windows[1..], bucket, w, since, olderThan);
      var q :| KeptAt(r, bucket, w, since, q);
      if windows[0].1.start >= olderThan { assert KeptAt([windows[0]] + r, bucket, w, since, q + 1); }
    } else {
      forall q | 0 <= q < |r| ensures r[q].0 in since {
        var m :| 0 <= m < |windows[1..]| && windows[1..][m] == r[q];
        assert windows[m + 1] == r[q];
      }
      assert KeptAt([windows[0]] + r, bucket, w, since, 0);
    }
  }

  /** Operations on other buckets, and prunes of older windows. */
  ghost predicate Spares(ops: seq<Operation>, bucket: Bucket, start: int) {
    forall i :: 0 <= i < |ops| ==> match ops[i]
      case Increment(other, _) => other != bucket
      case Prune(olderThan) => olderThan <= start
  }

  lemma {:induction false} KeptThrough(max: nat, windows: Windows, ops: seq<Operation>, bucket: Bucket, w: Window)
    requires Sound(max, windows) && Kept(windows, bucket, w, {})
    requires Spares(ops, bucket, w.start) && |BucketsIn(ops)| < max
    ensures var after := Continue(max, windows, ops);
            Sound(max, after) && Kept(after, bucket, w, BucketsIn(ops))
  {
    if ops != [] {
      var front, op := ops[..|ops| - 1], ops[|ops| - 1];
      assert op in ops;
      FewerBuckets(front, op);
      assert front + [op] == ops;
      KeptThrough(max, windows, front, bucket, w);
      var before := Continue(max, windows, front);
      match op
      case Increment(other, s) =>
        IncrementedPositive(max, before, other, s);
        TouchOther(before, bucket, w, BucketsIn(front), other, Incremented(before, other, s), max);
      case Prune(olderThan) =>
        PrunedDistinct(before, olderThan);
        PrunedKeeps(before, bucket, w, BucketsIn(front), olderThan);
        assert BucketsIn(front) + {} == BucketsIn(front);
    }
  }

  lemma FewerBuckets(ops: seq<Operation>, op: Operation)
    ensures |BucketsIn(ops)| <= |BucketsIn(ops + [op])|
  {
    assert (ops + [op])[..|ops|] == ops;
    var all := BucketsIn(ops + [op]);
    assert all == BucketsIn(ops) + (all - BucketsIn(ops));
  }

  function Continue(max: nat, windows: Windows, ops: seq<Operation>): Windows {
    if ops == [] then windows else After(max, Continue(max, windows, ops[..|ops| - 1]), ops[|ops| - 1])
  }

  /**
   * Between two increments of a bucket in one window the count is kept, when fewer than `max` other
   * buckets are used and nothing as recent is pruned.
   */
  lemma CountKeptBetween(max: nat, before: seq<Operation>, bucket: Bucket, start: int, ops: seq<Operation>)
    requires max > 0 && Spares(ops, bucket, start) && |BucketsIn(ops)| < max
    ensures CountIn(Continue(max, Run(max, before + [Increment(bucket, start)]), ops), bucket, start)
            == CountIn(Run(max, before), bucket, start) + 1
  {
    assert (before + [Increment(bucket, start)])[..|before|] == before;
    RunIsSound(max, before);
    RunIsSound(max, before + [Increment(bucket, start)]);
    OwnIncrementCounts(max, Run(max, before), bucket, start);
    var w := Incremented(Run(max, before), bucket, start);
    TouchSelf(Run(max, before), bucket, w, max);
    KeptThrough(max, Run(max, before + [Increment(bucket, start)]), ops, bucket, w);
    KeptIsFound(Continue(max, Run(max, before + [Increment(bucket, start)]), ops), bucket, w, BucketsIn(ops));
  }

  // ----- whole histories in which nothing is forgotten

  lemma {:induction false} RunContinues(max: nat, before: seq<Operation>, ops: seq<Operation>)
    ensures Run(max, before + ops) == Continue(max, Run(max, before), ops)
  {
    if ops == [] {
      assert before + ops == before;
    } else {
      assert (before + ops)[..|before + ops| - 1] == before + ops[..|ops| - 1];
      RunContinues(max, before, ops[..|ops| - 1]);
    }
  }

  lemma {:induction false} NoIncrements(before: seq<Operation>, ops: seq<Operation>, bucket: Bucket, start: int)
    requires forall k :: 0 <= k < |ops| ==> ops[k] != Increment(bucket, start)
    ensures Increments(before + ops, bucket, start) == Increments(before, bucket, start)
  {
    if ops == [] {
      assert before + ops == before;
    } else {
      assert (before + ops)[..|before + ops| - 1] == before + ops[..|ops| - 1];
      NoIncrements(before, ops[..|ops| - 1], bucket, start);
    }
  }

  /** `ops[i]` and `ops[j]` are increments of the bucket in the window, and none between them is. */
  ghost predicate Gap(ops: seq<Operation>, bucket: Bucket, start: int, i: nat, j: nat) {
    && i < j < |ops| && ops[i] == ops[j] == Increment(bucket, start)
    && forall k :: i < k < j ==> ops[k] != Increment(bucket, start)
  }

  /**
   * What a caller can see: between two increments of the bucket in the window, nothing as recent is
   * pruned, the bucket is in no other window, and fewer than `max` other buckets are used.
   */
  ghost predicate Gentle(max: nat, ops: seq<Operation>, bucket: Bucket, start: int) {
    forall i: nat, j: nat :: Gap(ops, bucket, start, i, j) ==>
      Spares(ops[i + 1..j], bucket, start) && |BucketsIn(ops[i + 1..j])| < max
  }

  lemma OwnIncrementForgetsNothing(max: nat, ops: seq<Operation>, bucket: Bucket, start: int)
    requires max > 0 && Forgotten(max, ops, bucket, start) == 0
    ensures Forgotten(max, ops + [Increment(bucket, start)], bucket, start) == 0
  {
    assert (ops + [Increment(bucket, start)])[..|ops|] == ops;
    CountAfterOne(max, ops, bucket, start);
  }

  lemma NothingToForget(max: nat, ops: seq<Operation>, bucket: Bucket, start: int)
    requires max > 0 && forall k :: 0 <= k < |ops| ==> ops[k] != Increment(bucket, start)
    ensures Forgotten(max, ops, bucket, start) == 0
  {
    CountIsExactLessForgotten(max, ops, bucket, start);
    NoIncrements([], ops, bucket, start);
    assert [] + ops == ops;
  }

  ghost predicate IncrementedBefore(ops: seq<Operation>, bucket: Bucket, start: int, n: nat)
    requires n <= |ops|
  {
    exists k :: 0 <= k < n && ops[k] == Increment(bucket, start)
  }

  lemma NothingBefore(max: nat, ops: seq<Operation>, bucket: Bucket, start: int, n: nat)
    requires max > 0 && n <= |ops| && !IncrementedBefore(ops, bucket, start, n)
    ensures Forgotten(max, ops[..n], bucket, start) == 0
  {
    NothingToForget(max, ops[..n], bucket, start);
  }

  lemma ForgottenBefore(max: nat, ops: seq<Operation>, bucket: Bucket, start: int, n: nat)
    requires max > 0 && Gentle(max, ops, bucket, start) && n < |ops| && ops[n] == Increment(bucket, start)
    requires IncrementedBefore(ops, bucket, start, n)
    ensures Forgotten(max, ops[..n], bucket, start) == 0
    decreases n, 0
  {
    var p := Before(ops, bucket, start, n);
    NothingForgotten(max, ops, bucket, start, p);
    AcrossTheGap(max, ops, bucket, start, p, n);
  }

  /** Nothing is forgotten up to an increment of the bucket in the window. */
  lemma {:induction false} NothingForgotten(max: nat, ops: seq<Operation>, bucket: Bucket, start: int, n: nat)
    requires max > 0 && Gentle(max, ops, bucket, start) && n < |ops| && ops[n] == Increment(bucket, start)
    ensures Forgotten(max, ops[..n + 1], bucket, start) == 0
    decreases n, 1
  {
    if IncrementedBefore(ops, bucket, start, n) {
      ForgottenBefore(max, ops, bucket, start, n);
    } else {
      NothingBefore(max, ops, bucket, start, n);
    }
    OneMoreForgetsNothing(max, ops, bucket, start, n);
  }

  lemma OneLonger(ops: seq<Operation>, n: nat)
    requires n < |ops|
    ensures ops[..n + 1] == ops[..n] + [ops[n]]
  {
  }

  lemma OneMoreForgetsNothing(max: nat, ops: seq<Operation>, bucket: Bucket, start: int, n: nat)
    requires max > 0 && n < |ops| && ops[n] == Increment(bucket, start)
    requires Forgotten(max, ops[..n], bucket, start) == 0
    ensures Forgotten(max, ops[..n + 1], bucket, start) == 0
  {
    OwnIncrementForgetsNothing(max, ops[..n], bucket, start);
    OneLonger(ops, n);
  }

  /** The last increment before `n`. */
  lemma {:induction false} Before(ops: seq<Operation>, bucket: Bucket, start: int, n: nat) returns (p: nat)
    requires n <= |ops| && IncrementedBefore(ops, bucket, start, n)
    ensures p < n && ops[p] == Increment(bucket, start)
    ensures forall k :: p < k < n ==> ops[k] != Increment(bucket, start)
  {
    p := n - 1;
    if ops[p] != Increment(bucket, start) { p := Before(ops, bucket, start, n - 1); }
  }

  lemma SplitGap(max: nat, ops: seq<Operation>, bucket: Bucket, start: int, p: nat, n: nat)
    returns (before: seq<Operation>, between: seq<Operation>)
    requires Gentle(max, ops, bucket, start) && Gap(ops, bucket, start, p, n)
    ensures before + [Increment(bucket, start)] == ops[..p + 1]
    ensures before + [Increment(bucket, start)] + between == ops[..n]
    ensures Spares(between, bucket, start) && |BucketsIn(between)| < max
  {
    before, between := ops[..p], ops[p + 1..n];
  }

  lemma AcrossTheGap(max: nat, ops: seq<Operation>, bucket: Bucket, start: int, p: nat, n: nat)
    requires max > 0 && Gentle(max, ops, bucket, start) && Gap(ops, bucket, start, p, n)
    requires Forgotten(max, ops[..p + 1], bucket, start) == 0
    ensures Forgotten(max, ops[..n], bucket, start) == 0
  {
    var before, between := SplitGap(max, ops, bucket, start, p, n);
    NothingForgottenAfter(max, before, bucket, start, between);
  }

  lemma NothingForgottenAfter(
    max: nat, before: seq<Operation>, bucket: Bucket, start: int, between: seq<Operation>)
    requires max > 0 && Spares(between, bucket, start) && |BucketsIn(between)| < max
    requires Forgotten(max, before + [Increment(bucket, start)], bucket, start) == 0
    ensures Forgotten(max, before + [Increment(bucket, start)] + between, bucket, start) == 0
  {
    var first := before + [Increment(bucket, start)];
    CountKeptBetween(max, before, bucket, start, between);
    RunContinues(max, first, between);
    NoIncrements(first, between, bucket, start);
    CountAfterOne(max, before, bucket, start);
    CountIsExactLessForgotten(max, first, bucket, start);
    CountIsExactLessForgotten(max, first + between, bucket, start);
  }

  lemma CountAfterOne(max: nat, before: seq<Operation>, bucket: Bucket, start: int)
    requires max > 0
    ensures CountIn(Run(max, before + [Increment(bucket, start)]), bucket, start)
            == CountIn(Run(max, before), bucket, start) + 1
  {
    assert (before + [Increment(bucket, start)])[..|before|] == before;
    RunIsSound(max, before);
    OwnIncrementCounts(max, Run(max, before), bucket, start);
  }

  lemma {:induction false} NoMorePasses(
    max: nat, before: seq<Operation>, ops: seq<Operation>, bucket: Bucket, start: int, limit: nat)
    requires forall k :: 0 <= k < |ops| ==> ops[k] != Increment(bucket, start)
    ensures Passes(max, before + ops, bucket, start, limit) == Passes(max, before, bucket, start, limit)
  {
    if ops == [] {
      assert before + ops == before;
    } else {
      assert (before + ops)[..|before + ops| - 1] == before + ops[..|ops| - 1];
      NoMorePasses(max, before, ops[..|ops| - 1], bucket, start, limit);
    }
  }

  lemma NothingAfterTheLast(
    max: nat, upTo: seq<Operation>, rest: seq<Operation>, bucket: Bucket, start: int, limit: nat)
    requires max > 0 && Forgotten(max, upTo, bucket, start) == 0
    requires forall k :: 0 <= k < |rest| ==> rest[k] != Increment(bucket, start)
    ensures Passes(max, upTo + rest, bucket, start, limit) == Min(Increments(upTo + rest, bucket, start), limit)
  {
    FirstLimitPass(max, upTo, bucket, start, limit);
    NoIncrements(upTo, rest, bucket, start);
    NoMorePasses(max, upTo, rest, bucket, start, limit);
  }

  lemma SplitAfter(ops: seq<Operation>, bucket: Bucket, start: int, p: nat)
    returns (upTo: seq<Operation>, rest: seq<Operation>)
    requires p < |ops| && forall k :: p < k < |ops| ==> ops[k] != Increment(bucket, start)
    ensures ops == upTo + rest && upTo == ops[..p + 1]
    ensures forall k :: 0 <= k < |rest| ==> rest[k] != Increment(bucket, start)
  {
    upTo, rest := ops[..p + 1], ops[p + 1..];
    forall k | 0 <= k < |rest| ensures rest[k] != Increment(bucket, start) { assert rest[k] == ops[p + 1 + k]; }
  }

  lemma SplitAtLast(max: nat, ops: seq<Operation>, bucket: Bucket, start: int)
    returns (upTo: seq<Operation>, rest: seq<Operation>)
    requires max > 0 && Gentle(max, ops, bucket, start)
    ensures ops == upTo + rest && Forgotten(max, upTo, bucket, start) == 0
    ensures forall k :: 0 <= k < |rest| ==> rest[k] != Increment(bucket, start)
  {
    if !IncrementedBefore(ops, bucket, start, |ops|) {
      upTo, rest := [], ops;
    } else {
      var p := Before(ops, bucket, start, |ops|);
      NothingForgotten(max, ops, bucket, start, p);
      upTo, rest := SplitAfter(ops, bucket, start, p);
    }
  }

  /** Then of all the checks of the bucket in the window exactly the first `limit` pass. */
  lemma ExactlyTheLimitPass(max: nat, ops: seq<Operation>, bucket: Bucket, start: int, limit: nat)
    requires max > 0 && Gentle(max, ops, bucket, start)
    ensures Passes(max, ops, bucket, start, limit) == Min(Increments(ops, bucket, start), limit)
  {
    var upTo, rest := SplitAtLast(max, ops, bucket, start);
    NothingAfterTheLast(max, upTo, rest, bucket, start, limit);
  }

  // ----- checks by the clock

  datatype Reading =
    | CheckAt(bucket: Bucket, now: int)
    | PruneBefore(olderThan: int)

  /** What the readings do to the store, the start of a check being the one `Check` uses. */
  function Operations(readings: seq<Reading>, windowMs: int): (r: seq<Operation>)
    requires windowMs > 0
    ensures |r| == |readings|
  {
    if readings == [] then []
    else
      var last := readings[|readings| - 1];
      Operations(readings[..|readings| - 1], windowMs)
      + [match last
         case CheckAt(bucket, now) => Increment(bucket, WindowStart(now, windowMs))
         case PruneBefore(olderThan) => Prune(olderThan)]
  }

  /** A check of the bucket within the `k`-th window of the clock. */
  predicate ChecksIn(r: Reading, bucket: Bucket, windowMs: int, k: int) {
    r.CheckAt? && r.bucket == bucket && k * windowMs <= r.now < (k + 1) * windowMs
  }

  function CheckCount(readings: seq<Reading>, bucket: Bucket, windowMs: int, k: int): nat {
    if readings == [] then 0
    else
      CheckCount(readings[..|readings| - 1], bucket, windowMs, k)
      + if ChecksIn(readings[|readings| - 1], bucket, windowMs, k) then 1 else 0
  }

  /** How many of them were allowed, each by the count `Check` gives it. */
  function PassCount(max: nat, readings: seq<Reading>, bucket: Bucket, windowMs: int, k: int, limit: nat): nat
    requires windowMs > 0
  {
    if readings == [] then 0
    else
      var front, last := readings[..|readings| - 1], readings[|readings| - 1];
      PassCount(max, front, bucket, windowMs, k, limit)
      + if ChecksIn(last, bucket, windowMs, k)
           && CountIn(Run(max, Operations(front, windowMs)), bucket, WindowStart(last.now, windowMs)) + 1 <= limit
        then 1 else 0
  }

  /** The checks of one window of the clock are the increments of one start. */
  lemma {:induction false} CountedByWindow(
    max: nat, readings: seq<Reading>, bucket: Bucket, windowMs: int, k: int, limit: nat)
    requires windowMs > 0
    ensures var ops := Operations(readings, windowMs);
            && CheckCount(readings, bucket, windowMs, k) == Increments(ops, bucket, k * windowMs)
            && PassCount(max, readings, bucket, windowMs, k, limit) == Passes(max, ops, bucket, k * windowMs, limit)
  {
    if readings != [] {
      var front, last := readings[..|readings| - 1], readings[|readings| - 1];
      CountedByWindow(max, front, bucket, windowMs, k, limit);
      var ops := Operations(readings, windowMs);
      assert ops[..|ops| - 1] == Operations(front, windowMs);
      if last.CheckAt? { WindowOfNow(last.now, windowMs, k); }
    }
  }

  /**
   * In every history of readings, in whatever order the clock gives them, the checks of a bucket that
   * pass in one window of the clock are no more than `limit`, but for those whose count was forgotten.
   */
  lemma WindowIsLimited(max: nat, readings: seq<Reading>, bucket: Bucket, windowMs: int, k: int, limit: nat)
    requires max > 0 && windowMs > 0
    ensures PassCount(max, readings, bucket, windowMs, k, limit)
            <= limit + Forgotten(max, Operations(readings, windowMs), bucket, k * windowMs)
  {
    CountedByWindow(max, readings, bucket, windowMs, k, limit);
    PassesAreLimited(max, Operations(readings, windowMs), bucket, k * windowMs, limit);
  }

  /** And when nothing is, exactly the first `limit` of them pass. */
  lemma WindowPassesExactly(max: nat, readings: seq<Reading>, bucket: Bucket, windowMs: int, k: int, limit: nat)
    requires max > 0 && windowMs > 0 && Gentle(max, Operations(readings, windowMs), bucket, k * windowMs)
    ensures PassCount(max, readings, bucket, windowMs, k, limit)
            == Min(CheckCount(readings, bucket, windowMs, k), limit)
  {
    CountedByWindow(max, readings, bucket, windowMs, k, limit);
    ExactlyTheLimitPass(max, Operations(readings, windowMs), bucket, k * windowMs, limit);
  }
}

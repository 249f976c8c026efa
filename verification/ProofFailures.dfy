/**
 * The proof-failure rate over a sliding window of counter samples. The rule keeps a pruned list;
 * it answers as the whole history since the last counter reset would.
 */
module ProofFailures {

  datatype Sample = Sample(at: int, attempts: int, failures: int)

  datatype Options = Options(maxRatio: real, windowMs: int, minAttempts: int)

  /** What happened between the baseline and now. */
  datatype Window = Window(failures: int, attempts: int)

  function Max(a: int, b: int): int {
    if a > b then a else b
  }

  function Since(baseline: Sample, now: Sample): Window {
    var failures := now.failures - baseline.failures;
    Window(failures, Max(now.attempts - baseline.attempts, failures))
  }

  /** `minAttempts` below one counts as one. */
  function Fires(o: Options, w: Window): bool {
    w.attempts >= Max(1, o.minAttempts) && w.failures as real / w.attempts as real > o.maxRatio
  }

  predicate Resets(last: Sample, now: Sample) {
    now.attempts < last.attempts || now.failures < last.failures
  }

  // ----- the reference: every sample since the last reset

  function Extended(h: seq<Sample>, now: Sample): seq<Sample> {
    if h != [] && Resets(h[|h| - 1], now) then [now] else h + [now]
  }

  /** The samples since the counters last went down. */
  function History(samples: seq<Sample>): seq<Sample> {
    if samples == [] then [] else Extended(History(samples[..|samples| - 1]), samples[|samples| - 1])
  }

  /** The latest sample at or before the cutoff, else the oldest. */
  ghost predicate IsBaseline(h: seq<Sample>, cutoff: int, b: int) {
    && 0 <= b < |h|
    && (forall k :: b < k < |h| ==> h[k].at > cutoff)
    && (b > 0 ==> h[b].at <= cutoff)
  }

  /** The window of a history that ends now. */
  ghost predicate IsWindow(o: Options, h: seq<Sample>, w: Window) {
    && h != []
    && var now := h[|h| - 1];
       exists b :: IsBaseline(h, now.at - o.windowMs, b) && IsSince(h[b], now, w)
  }

  /** The failures since the baseline, and as many attempts, but no fewer than failed. */
  ghost predicate IsSince(baseline: Sample, now: Sample, w: Window) {
    && w.failures == now.failures - baseline.failures
    && w.attempts >= now.attempts - baseline.attempts && w.attempts >= w.failures
    && (w.attempts == now.attempts - baseline.attempts || w.attempts == w.failures)
  }

  /** A counter went down. */
  ghost predicate DropsAt(samples: seq<Sample>, k: int)
    requires 0 < k < |samples|
  {
    samples[k].attempts < samples[k - 1].attempts || samples[k].failures < samples[k - 1].failures
  }

  /** A counter last went down at `r`; with none before, `r` is the first sample. */
  ghost predicate ResetAt(samples: seq<Sample>, r: int) {
    && 0 <= r < |samples|
    && (r > 0 ==> DropsAt(samples, r))
    && forall k :: r < k < |samples| ==> !DropsAt(samples, k)
  }

  /** `h` is the samples from `r` on. */
  ghost predicate From(samples: seq<Sample>, r: nat, h: seq<Sample>) {
    r < |samples| && |h| == |samples| - r && forall k :: 0 <= k < |h| ==> h[k] == samples[r + k]
  }

  lemma OldDrops(samples: seq<Sample>, now: Sample, k: int)
    requires 0 < k < |samples|
    ensures DropsAt(samples + [now], k) <==> DropsAt(samples, k)
  {
  }

  lemma ResetStays(samples: seq<Sample>, r: nat, h: seq<Sample>, now: Sample)
    requires ResetAt(samples, r) && From(samples, r, h) && !DropsAt(samples + [now], |samples|)
    ensures ResetAt(samples + [now], r) && From(samples + [now], r, h + [now])
  {
    if r > 0 { OldDrops(samples, now, r); }
    forall k | r < k < |samples| ensures !DropsAt(samples + [now], k) { OldDrops(samples, now, k); }
  }

  lemma ResetsByLast(samples: seq<Sample>, r: nat, h: seq<Sample>, now: Sample)
    requires From(samples, r, h)
    ensures h != [] && (Resets(h[|h| - 1], now) <==> DropsAt(samples + [now], |samples|))
  {
    assert h[|h| - 1] == samples[r + (|h| - 1)];
  }

  /** The history is what was sampled from the last reset on. */
  lemma {:induction false} HistoryBeginsAtReset(samples: seq<Sample>) returns (r: nat)
    requires samples != []
    ensures ResetAt(samples, r) && From(samples, r, History(samples))
  {
    var n := |samples| - 1;
    var front, now := samples[..n], samples[n];
    assert samples == front + [now];
    if n == 0 {
      r := 0;
    } else {
      r := HistoryBeginsAtReset(front);
      var h := History(front);
      ResetsByLast(front, r, h, now);
      if Resets(h[|h| - 1], now) { r := n; } else { ResetStays(front, r, h, now); }
    }
  }

  // ----- the rule

  ghost predicate Ordered(samples: seq<Sample>) {
    forall i, j :: 0 <= i < j < |samples| ==> samples[i].at <= samples[j].at
  }

  /** The kept samples end the history; what was dropped is older than one no later than any cutoff to come. */
  ghost predicate KeptOf(o: Options, kept: seq<Sample>, h: seq<Sample>) {
    && |kept| <= |h|
    && (forall k :: 0 <= k < |kept| ==> kept[k] == h[|h| - |kept| + k])
    && (h != [] ==> kept != [])
    && (|kept| < |h| ==> kept[0].at <= h[|h| - 1].at - o.windowMs)
  }

  /** One more sample, at a time not before the last. */
  lemma SampleStep(o: Options, kept: seq<Sample>, h: seq<Sample>, now: Sample)
    requires KeptOf(o, kept, h) && (h != [] ==> h[|h| - 1].at <= now.at)
    ensures KeptOf(o, Extended(kept, now), Extended(h, now))
  {
    if h != [] { assert kept[|kept| - 1] == h[|h| - 1]; }
  }

  /** The baseline found among the kept samples is the baseline of the history. */
  lemma ShiftBaseline(o: Options, kept: seq<Sample>, h: seq<Sample>, b: nat)
    requires KeptOf(o, kept, h) && h != [] && IsBaseline(kept, h[|h| - 1].at - o.windowMs, b)
    ensures IsBaseline(h, h[|h| - 1].at - o.windowMs, |h| - |kept| + b)
    ensures IsWindow(o, h, Since(kept[b], h[|h| - 1]))
  {
    var off := |h| - |kept|;
    forall k | off + b < k < |h| ensures h[k].at > h[|h| - 1].at - o.windowMs {
      assert h[k] == kept[k - off];
    }
    assert h[off + b] == kept[b];
  }

  /** Dropping what is before the baseline drops nothing a later evaluation needs. */
  lemma PruneStep(o: Options, kept: seq<Sample>, h: seq<Sample>, b: nat)
    requires KeptOf(o, kept, h) && h != [] && IsBaseline(kept, h[|h| - 1].at - o.windowMs, b)
    ensures KeptOf(o, kept[b..], h)
  {
  }

  lemma PruneToBaseline(o: Options, kept: seq<Sample>, h: seq<Sample>, now: Sample, b: nat)
    requires KeptOf(o, kept, h) && h != [] && h[|h| - 1] == now && IsBaseline(kept, now.at - o.windowMs, b)
    ensures KeptOf(o, kept[b..], h) && IsWindow(o, h, Since(kept[b], now))
  {
    ShiftBaseline(o, kept, h, b);
    PruneStep(o, kept, h, b);
  }

  lemma LastIsNow(h: seq<Sample>, now: Sample)
    ensures var more := Extended(h, now); more != [] && more[|more| - 1] == now
  {
  }

  class FailureRule {
    const options: Options
    var samples: seq<Sample>
    ghost var all: seq<Sample>

    ghost predicate Valid()
      reads this
    {
      KeptOf(options, samples, History(all))
    }

    constructor (options: Options)
      ensures Valid() && all == [] && this.options == options
    {
      this.options := options;
      samples, all := [], [];
    }

    /** One evaluation with both counters present; without them nothing is sampled. */
    method Evaluate(now: Sample) returns (firing: bool, ghost w: Window)
      requires Valid() && Ordered(all + [now])
      modifies this
      ensures Valid() && all == old(all) + [now]
      ensures IsWindow(options, History(all), w)
      ensures firing <==> TooMany(options, w)
    {
      HistoryStep(all, now);
      var window := Slide(now, History(all));
      w := window;
      all := all + [now];
      firing := Fires(options, window);
      FiresAboveRatio(options, window);
    }

    method Slide(now: Sample, ghost h: seq<Sample>) returns (w: Window)
      requires KeptOf(options, samples, h) && (h != [] ==> h[|h| - 1].at <= now.at)
      modifies this`samples
      ensures KeptOf(options, samples, Extended(h, now))
      ensures IsWindow(options, Extended(h, now), w)
    {
      ghost var kept := samples;
      var last := |samples|;
      if last > 0 && Resets(samples[last - 1], now) { samples := []; }
      samples := samples + [now];
      var baselineIndex := FindBaseline(samples, now.at - options.windowMs);
      SampleStep(options, kept, h, now);
      LastIsNow(h, now);
      PruneToBaseline(options, samples, Extended(h, now), now, baselineIndex);
      if baselineIndex > 0 { samples := samples[baselineIndex..]; }
      w := Since(samples[0], now);
    }
  }

  /** Searched from the newest sample back. */
  method FindBaseline(samples: seq<Sample>, cutoff: int) returns (baselineIndex: nat)
    requires samples != []
    ensures IsBaseline(samples, cutoff, baselineIndex)
  {
    baselineIndex := 0;
    var i := |samples| - 1;
    while i >= 0
      invariant -1 <= i < |samples|
      invariant forall k :: i < k < |samples| ==> samples[k].at > cutoff
    {
      if samples[i].at <= cutoff { return i; }
      i := i - 1;
    }
  }

  lemma RatioAbove(failures: real, attempts: real, limit: real)
    requires attempts > 0.0
    ensures failures / attempts > limit <==> failures > limit * attempts
  {
    var ratio := failures / attempts;
    assert failures == ratio * attempts;
    if ratio > limit { assert (ratio - limit) * attempts > 0.0; }
    if ratio <= limit { assert (limit - ratio) * attempts >= 0.0; }
  }

  /** Enough attempts, and a greater share of them failed than `maxRatio`. */
  ghost predicate TooMany(o: Options, w: Window) {
    && w.attempts >= 1 && w.attempts >= o.minAttempts
    && w.failures as real > o.maxRatio * w.attempts as real
  }

  lemma FiresAboveRatio(o: Options, w: Window)
    ensures Fires(o, w) <==> TooMany(o, w)
  {
    if w.attempts >= 1 { RatioAbove(w.failures as real, w.attempts as real, o.maxRatio); }
  }

  lemma HistoryStep(all: seq<Sample>, now: Sample)
    requires Ordered(all + [now])
    ensures History(all + [now]) == Extended(History(all), now)
    ensures History(all) != [] ==> History(all)[|History(all)| - 1].at <= now.at
  {
    assert (all + [now])[..|all|] == all;
    if all != [] {
      assert History(all)[|History(all)| - 1] == all[|all| - 1];
      assert (all + [now])[|all| - 1] == all[|all| - 1] && (all + [now])[|all|] == now;
    }
  }

  // ----- the window is one, and its ratio is a ratio

  lemma {:induction false} HistoryGrows(samples: seq<Sample>, i: nat, j: nat)
    requires i <= j < |History(samples)|
    ensures History(samples)[i].attempts <= History(samples)[j].attempts
    ensures History(samples)[i].failures <= History(samples)[j].failures
    decreases |samples|
  {
    var before := History(samples[..|samples| - 1]);
    if i < j {
      if j < |before| {
        HistoryGrows(samples[..|samples| - 1], i, j);
      } else {
        HistoryGrows(samples[..|samples| - 1], i, |before| - 1);
      }
    }
  }

  lemma OneBaseline(h: seq<Sample>, cutoff: int, b: int, b': int)
    requires IsBaseline(h, cutoff, b) && IsBaseline(h, cutoff, b')
    ensures b == b'
  {
  }

  lemma OneSince(baseline: Sample, now: Sample, v: Window, w: Window)
    requires IsSince(baseline, now, v) && IsSince(baseline, now, w)
    requires baseline.attempts <= now.attempts && baseline.failures <= now.failures
    ensures v == w && 0 <= v.failures <= v.attempts
  {
  }

  /** A history has exactly one window, and in it no more fail than are attempted. */
  lemma WindowIsUnique(o: Options, samples: seq<Sample>, v: Window, w: Window)
    requires IsWindow(o, History(samples), v) && IsWindow(o, History(samples), w)
    ensures v == w
    ensures 0 <= v.failures <= v.attempts
  {
    var h := History(samples);
    var now := h[|h| - 1];
    var cutoff := now.at - o.windowMs;
    var b :| IsBaseline(h, cutoff, b) && IsSince(h[b], now, v);
    var b' :| IsBaseline(h, cutoff, b') && IsSince(h[b'], now, w);
    OneBaseline(h, cutoff, b, b');
    HistoryGrows(samples, b, |h| - 1);
    OneSince(h[b], now, v, w);
  }

  /** The rule compares a ratio between zero and one. */
  lemma RatioIsARatio(o: Options, samples: seq<Sample>, w: Window)
    requires IsWindow(o, History(samples), w) && w.attempts >= 1
    ensures 0.0 <= w.failures as real / w.attempts as real <= 1.0
    ensures o.maxRatio >= 1.0 ==> !TooMany(o, w)
  {
    WindowIsUnique(o, samples, w, w);
    AtMostOne(w.failures as real, w.attempts as real);
    FiresAboveRatio(o, w);
  }

  lemma AtMostOne(failures: real, attempts: real)
    requires 0.0 <= failures <= attempts && attempts > 0.0
    ensures 0.0 <= failures / attempts <= 1.0
  {
  }
}

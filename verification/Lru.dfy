/**
 * A JavaScript `Map` kept in use order: touching a key deletes and reinserts it, so iteration order
 * is from the least to the most recently touched, and eviction takes the first.
 */
module Lru {
  import opened Wrappers

  ghost predicate Distinct<K, V>(entries: seq<(K, V)>) {
    forall i, j :: 0 <= i < j < |entries| ==> entries[i].0 != entries[j].0
  }

  function Lookup<K(==), V>(entries: seq<(K, V)>, k: K): (r: Option<V>)
    ensures r.Some? ==> (k, r.value) in entries
    ensures r.None? ==> forall i :: 0 <= i < |entries| ==> entries[i].0 != k
  {
    if entries == [] then None
    else if entries[0].0 == k then Some(entries[0].1)
    else Lookup(entries[1..], k)
  }

  function Without<K(==), V>(entries: seq<(K, V)>, k: K): (r: seq<(K, V)>)
    ensures |r| <= |entries|
    ensures forall i :: 0 <= i < |r| ==> r[i].0 != k && r[i] in entries
  {
    if entries == [] then []
    else if entries[0].0 == k then Without(entries[1..], k)
    else [entries[0]] + Without(entries[1..], k)
  }

  function Touched<K(==), V>(entries: seq<(K, V)>, k: K, v: V): seq<(K, V)> {
    Without(entries, k) + [(k, v)]
  }

  function Bounded<K, V>(entries: seq<(K, V)>, max: nat): seq<(K, V)> {
    if |entries| > max then entries[|entries| - max..] else entries
  }

  /** `while (size > max) delete the first` */
  method Evict<K, V>(entries: seq<(K, V)>, max: nat) returns (r: seq<(K, V)>)
    ensures r == Bounded(entries, max)
  {
    r := entries;
    while |r| > max
      invariant |r| <= |entries| && r == entries[|entries| - |r|..]
      invariant |entries| > max ==> |r| >= max
      invariant |entries| <= max ==> r == entries
    {
      r := r[1..];
    }
  }

  lemma {:induction false} SizeOfWithout<K, V>(entries: seq<(K, V)>, k: K)
    requires Lookup(entries, k).Some?
    ensures |Without(entries, k)| < |entries|
  {
    if entries[0].0 != k { SizeOfWithout(entries[1..], k); }
  }

  lemma {:induction false} WithoutKeeps<K, V>(entries: seq<(K, V)>, k: K)
    requires Distinct(entries)
    ensures Distinct(Without(entries, k))
    ensures forall e :: e in entries && e.0 != k ==> e in Without(entries, k)
  {
    if entries != [] {
      WithoutKeeps(entries[1..], k);
      var rest := Without(entries[1..], k);
      forall i | 0 <= i < |rest| ensures rest[i].0 != entries[0].0 {
        assert rest[i] in entries[1..];
      }
      assert entries == [entries[0]] + entries[1..];
    }
  }

  lemma TouchedDistinct<K, V>(entries: seq<(K, V)>, k: K, v: V)
    requires Distinct(entries)
    ensures Distinct(Touched(entries, k, v))
  {
    WithoutKeeps(entries, k);
  }

  lemma BoundedDistinct<K, V>(entries: seq<(K, V)>, max: nat)
    requires Distinct(entries)
    ensures Distinct(Bounded(entries, max)) && |Bounded(entries, max)| <= max
    ensures forall e :: e in Bounded(entries, max) ==> e in entries
  {
    var b := Bounded(entries, max);
    var off := |entries| - |b|;
    assert forall i :: 0 <= i < |b| ==> b[i] == entries[off + i];
  }

  lemma LookupDistinct<K, V>(entries: seq<(K, V)>, i: nat)
    requires Distinct(entries) && i < |entries|
    ensures Lookup(entries, entries[i].0) == Some(entries[i].1)
  {
    var found := Lookup(entries, entries[i].0);
    assert entries[i].0 == entries[i].0;
    var j :| 0 <= j < |entries| && entries[j] == (entries[i].0, found.value);
    assert i == j;
  }

  // ----- how long an entry stays

  /** The entry is there, and everything touched after it is in `since`. */
  ghost predicate Kept<K, V>(entries: seq<(K, V)>, k: K, v: V, since: set<K>) {
    exists p :: KeptAt(entries, k, v, since, p)
  }

  ghost predicate KeptAt<K, V>(entries: seq<(K, V)>, k: K, v: V, since: set<K>, p: int) {
    0 <= p < |entries| && entries[p] == (k, v) && forall q :: p < q < |entries| ==> entries[q].0 in since
  }

  /** The keys after `p` in an arrangement without repeats are as many as there are places. */
  lemma {:induction false} CountAfter<K, V>(entries: seq<(K, V)>, p: nat, since: set<K>)
    requires Distinct(entries) && p < |entries|
    requires forall q :: p < q < |entries| ==> entries[q].0 in since
    ensures |entries| - 1 - p <= |since|
    decreases |entries|
  {
    var n := |entries| - 1;
    if p < n {
      CountAfter(entries[..n], p, since - {entries[n].0});
    }
  }

  lemma KeptIsFound<K, V>(entries: seq<(K, V)>, k: K, v: V, since: set<K>)
    requires Distinct(entries) && Kept(entries, k, v, since)
    ensures Lookup(entries, k) == Some(v)
  {
    var p :| KeptAt(entries, k, v, since, p);
    LookupDistinct(entries, p);
  }

  lemma {:induction false} WithoutOther<K, V>(entries: seq<(K, V)>, k: K, v: V, since: set<K>, other: K)
    requires Kept(entries, k, v, since) && other != k
    ensures Kept(Without(entries, other), k, v, since)
  {
    var p :| KeptAt(entries, k, v, since, p);
    var r := Without(entries[1..], other);
    if p > 0 {
      assert KeptAt(entries[1..], k, v, since, p - 1);
      WithoutOther(entries[1..], k, v, since, other);
      var q :| KeptAt(r, k, v, since, q);
      if entries[0].0 != other { assert KeptAt([entries[0]] + r, k, v, since, q + 1); }
    } else {
      forall q | 0 <= q < |r| ensures r[q].0 in since {
        var m :| 0 <= m < |entries[1..]| && entries[1..][m] == r[q];
        assert entries[m + 1] == r[q];
      }
      assert KeptAt([entries[0]] + r, k, v, since, 0);
    }
  }

  /** Touching another key keeps the entry, until as many others were touched as the bound allows entries. */
  lemma TouchOther<K, V>(entries: seq<(K, V)>, k: K, v: V, since: set<K>, other: K, w: V, max: nat)
    requires Distinct(entries) && Kept(entries, k, v, since) && other != k
    requires |since + {other}| < max
    ensures Kept(Bounded(Touched(entries, other, w), max), k, v, since + {other})
  {
    WithoutOther(entries, k, v, since, other);
    var rest := Without(entries, other);
    var p :| KeptAt(rest, k, v, since, p);
    var t := Touched(entries, other, w);
    assert KeptAt(t, k, v, since + {other}, p);
    TouchedDistinct(entries, other, w);
    CountAfter(t, p, since + {other});
    if |t| > max {
      var off := |t| - max;
      var b := Bounded(t, max);
      assert forall q :: 0 <= q < |b| ==> b[q] == t[q + off];
      assert KeptAt(b, k, v, since + {other}, p - off);
    }
  }

  /** What was just touched is last. */
  lemma TouchSelf<K, V>(entries: seq<(K, V)>, k: K, v: V, max: nat)
    requires max > 0
    ensures Kept(Bounded(Touched(entries, k, v), max), k, v, {})
  {
    var b := Bounded(Touched(entries, k, v), max);
    assert KeptAt(b, k, v, {}, |b| - 1);
  }
}

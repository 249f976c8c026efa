/**
 * The approved-buyer list: a Merkle tree over salted leaves, its paths, and what the market
 * accepts, which is any salt and path that fold from the buyer's leaf to the published root.
 *
 * Hashes are free constructors. A leaf is hashed twice over another preimage, so no leaf is a
 * node. `rank` is the 256-bit number of a hash, by which pairs and leaves are ordered; the
 * results assume that it is injective, which is what collision resistance means here.
 */
module Buyers {
  import opened Wrappers

  type Address = nat

  datatype Hash = Leaf(buyer: Address, salt: nat) | Node(first: Hash, second: Hash)

  ghost predicate Injective(rank: Hash -> int) {
    forall a, b :: rank(a) == rank(b) ==> a == b
  }

  function HashPair(rank: Hash -> int, a: Hash, b: Hash): Hash {
    if rank(a) < rank(b) then Node(a, b) else Node(b, a)
  }

  // ----- what the chain does with a path

  function Fold(rank: Hash -> int, node: Hash, path: seq<Hash>): Hash {
    if path == [] then node
    else HashPair(rank, Fold(rank, node, path[..|path| - 1]), path[|path| - 1])
  }

  // ----- the tree

  function Parent(rank: Hash -> int, level: seq<Hash>, j: nat): Hash
    requires 2 * j < |level|
  {
    if 2 * j + 1 < |level| then HashPair(rank, level[2 * j], level[2 * j + 1]) else level[2 * j]
  }

  function Parents(rank: Hash -> int, level: seq<Hash>): seq<Hash> {
    seq((|level| + 1) / 2, j requires 0 <= j < (|level| + 1) / 2 => Parent(rank, level, j))
  }

  function Levels(rank: Hash -> int, level: seq<Hash>): (levels: seq<seq<Hash>>)
    ensures |levels| > 0 && levels[0] == level
    decreases |level|
  {
    if |level| <= 1 then [level] else [level] + Levels(rank, Parents(rank, level))
  }

  function Root(rank: Hash -> int, level: seq<Hash>): Hash
    requires level != []
    decreases |level|
  {
    if |level| == 1 then level[0] else Root(rank, Parents(rank, level))
  }

  /** index ^ 1 */
  function Flip(index: nat): nat {
    if index % 2 == 0 then index + 1 else index - 1
  }

  function SiblingOf(level: seq<Hash>, index: nat): seq<Hash> {
    if Flip(index) < |level| then [level[Flip(index)]] else []
  }

  function PathIn(levels: seq<seq<Hash>>, index: nat): seq<Hash> {
    if |levels| <= 1 then [] else SiblingOf(levels[0], index) + PathIn(levels[1..], index / 2)
  }

  method LevelsOf(rank: Hash -> int, leaves: seq<Hash>) returns (levels: seq<seq<Hash>>)
    requires leaves != []
    ensures levels == Levels(rank, leaves)
    ensures levels[|levels| - 1] == [Root(rank, leaves)]
  {
    levels := [leaves];
    while |levels[|levels| - 1]| > 1
      invariant |levels| > 0 && levels[|levels| - 1] != []
      invariant levels[..|levels| - 1] + Levels(rank, levels[|levels| - 1]) == Levels(rank, leaves)
      invariant Root(rank, levels[|levels| - 1]) == Root(rank, leaves)
      decreases |levels[|levels| - 1]|
    {
      var level := levels[|levels| - 1];
      var next: seq<Hash> := [];
      var i := 0;
      while i < |level|
        invariant i % 2 == 0 && i <= |level| + 1
        invariant |next| == i / 2
        invariant forall j :: 0 <= j < |next| ==> next[j] == Parent(rank, level, j)
      {
        next := next + [if i + 1 < |level| then HashPair(rank, level[i], level[i + 1]) else level[i]];
        i := i + 2;
      }
      assert next == Parents(rank, level);
      ghost var done := levels;
      levels := levels + [next];
      assert levels[..|levels| - 1] == done;
      OneMoreLevel(rank, done);
    }
    assert levels == levels[..|levels| - 1] + [levels[|levels| - 1]];
  }

  lemma OneMoreLevel(rank: Hash -> int, done: seq<seq<Hash>>)
    requires done != [] && |done[|done| - 1]| > 1
    ensures var level := done[|done| - 1];
            done + Levels(rank, Parents(rank, level)) == done[..|done| - 1] + Levels(rank, level)
  {
    assert done == done[..|done| - 1] + [done[|done| - 1]];
  }

  method PathOf(levels: seq<seq<Hash>>, leafIndex: nat) returns (path: seq<Hash>)
    requires levels != []
    ensures path == PathIn(levels, leafIndex)
  {
    path := [];
    var index := leafIndex;
    for depth := 0 to |levels| - 1
      invariant path + PathIn(levels[depth..], index) == PathIn(levels, leafIndex)
    {
      var level := levels[depth];
      var sibling := Flip(index);
      PathStep(path, levels, depth, index);
      ghost var before := path;
      if sibling < |level| { path := path + [level[sibling]]; }
      assert path == before + SiblingOf(level, index);
      index := index / 2;
    }
  }

  lemma PathStep(path: seq<Hash>, levels: seq<seq<Hash>>, depth: nat, index: nat)
    requires depth < |levels| - 1
    ensures path + PathIn(levels[depth..], index)
            == path + SiblingOf(levels[depth], index) + PathIn(levels[depth + 1..], index / 2)
  {
    assert levels[depth..][1..] == levels[depth + 1..];
  }

  // ----- the leaves under a hash

  ghost function Leaves(h: Hash): multiset<(Address, nat)> {
    match h
    case Leaf(buyer, salt) => multiset{(buyer, salt)}
    case Node(first, second) => Leaves(first) + Leaves(second)
  }

  ghost function LeavesOf(level: seq<Hash>): multiset<(Address, nat)> {
    if level == [] then multiset{} else Leaves(level[0]) + LeavesOf(level[1..])
  }

  lemma ParentsStep(rank: Hash -> int, level: seq<Hash>)
    requires |level| >= 2
    ensures Parents(rank, level) == [HashPair(rank, level[0], level[1])] + Parents(rank, level[2..])
  {
    var rest := level[2..];
    assert |Parents(rank, level)| == 1 + |Parents(rank, rest)|;
    forall j: nat | j < |Parents(rank, rest)| ensures Parents(rank, level)[j + 1] == Parents(rank, rest)[j] {
      assert Parent(rank, level, j + 1) == Parent(rank, rest, j);
    }
  }

  lemma {:induction false} ParentsKeepLeaves(rank: Hash -> int, level: seq<Hash>)
    ensures LeavesOf(Parents(rank, level)) == LeavesOf(level)
    decreases |level|
  {
    if |level| >= 2 {
      var rest := level[2..];
      ParentsKeepLeaves(rank, rest);
      ParentsStep(rank, level);
      var first := HashPair(rank, level[0], level[1]);
      assert ([first] + Parents(rank, rest))[1..] == Parents(rank, rest);
      assert level[1..][1..] == rest;
      assert LeavesOf(level) == Leaves(level[0]) + (Leaves(level[1]) + LeavesOf(rest));
    } else if |level| == 1 {
      assert Parents(rank, level) == level;
    }
  }

  /** The root of a tree holds exactly the leaves it was built from. */
  lemma {:induction false} RootKeepsLeaves(rank: Hash -> int, level: seq<Hash>)
    requires level != []
    ensures Leaves(Root(rank, level)) == LeavesOf(level)
    decreases |level|
  {
    if |level| == 1 {
      assert level[1..] == [];
    } else {
      ParentsKeepLeaves(rank, level);
      RootKeepsLeaves(rank, Parents(rank, level));
    }
  }

  lemma {:induction false} FoldKeepsLeaves(rank: Hash -> int, node: Hash, path: seq<Hash>)
    ensures Leaves(node) <= Leaves(Fold(rank, node, path))
  {
    if path != [] { FoldKeepsLeaves(rank, node, path[..|path| - 1]); }
  }

  // ----- every issued path verifies

  lemma {:induction false} FoldFromFront(rank: Hash -> int, node: Hash, path: seq<Hash>)
    requires path != []
    ensures Fold(rank, node, path) == Fold(rank, HashPair(rank, node, path[0]), path[1..])
  {
    var front := path[..|path| - 1];
    if front != [] {
      FoldFromFront(rank, node, front);
      assert path[1..][..|path| - 2] == front[1..];
    } else {
      assert Fold(rank, node, path) == HashPair(rank, Fold(rank, node, front), path[0]);
    }
  }

  /** A pair is the node over the two, the smaller first. */
  lemma HashPairPutsSmallerFirst(rank: Hash -> int, a: Hash, b: Hash)
    ensures var pair := HashPair(rank, a, b);
            pair.Node? && multiset{pair.first, pair.second} == multiset{a, b} && rank(pair.first) <= rank(pair.second)
  {
  }

  lemma HashPairCommutes(rank: Hash -> int, a: Hash, b: Hash)
    requires Injective(rank)
    ensures HashPair(rank, a, b) == HashPair(rank, b, a)
  {
  }

  lemma ParentOf(rank: Hash -> int, level: seq<Hash>, index: nat)
    requires Injective(rank) && index < |level|
    ensures var sibling := SiblingOf(level, index);
            Parents(rank, level)[index / 2] ==
            if sibling == [] then level[index] else HashPair(rank, level[index], sibling[0])
  {
    assert Parents(rank, level)[index / 2] == Parent(rank, level, index / 2);
    if index % 2 == 0 {
      assert 2 * (index / 2) == index;
    } else {
      assert 2 * (index / 2) == index - 1;
      HashPairCommutes(rank, level[index], level[index - 1]);
    }
  }

  /** A path read off the levels folds to the root, at even and odd levels alike. */
  lemma {:induction false} IssuedPathFolds(rank: Hash -> int, level: seq<Hash>, index: nat)
    requires Injective(rank) && index < |level|
    ensures Fold(rank, level[index], PathIn(Levels(rank, level), index)) == Root(rank, level)
    decreases |level|
  {
    if |level| > 1 {
      var above := Parents(rank, level);
      IssuedPathFolds(rank, above, index / 2);
      assert Levels(rank, level)[1..] == Levels(rank, above);
      var path := PathIn(Levels(rank, level), index);
      var rest := PathIn(Levels(rank, above), index / 2);
      var sibling := SiblingOf(level, index);
      assert path == sibling + rest;
      ParentOf(rank, level, index);
      if sibling == [] {
        assert path == rest;
      } else {
        FoldFromFront(rank, level[index], path);
        assert path[1..] == rest;
      }
    }
  }

  /** The path is no longer than the base-2 logarithm of the number of leaves, rounded up. */
  lemma {:induction false} PathLength(rank: Hash -> int, level: seq<Hash>, index: nat, k: nat)
    requires index < |level| <= Pow2(k)
    ensures |PathIn(Levels(rank, level), index)| <= k
    decreases k
  {
    if |level| > 1 {
      PathLength(rank, Parents(rank, level), index / 2, k - 1);
      assert Levels(rank, level)[1..] == Levels(rank, Parents(rank, level));
    }
  }

  // ----- no other path does

  /** Were the two children swapped between the folds, the leaf would be under the node twice. */
  lemma SameStep(rank: Hash -> int, a: Hash, x: Hash, b: Hash, y: Hash, pair: (Address, nat))
    requires HashPair(rank, a, x) == HashPair(rank, b, y)
    requires pair in Leaves(a) && pair in Leaves(b)
    requires Leaves(HashPair(rank, a, x))[pair] == 1
    ensures a == b && x == y && Leaves(a)[pair] == 1
  {
    assert Leaves(HashPair(rank, a, x)) == Leaves(a) + Leaves(x);
  }

  lemma SameByParts(p: seq<Hash>, q: seq<Hash>)
    requires p != [] && q != [] && p[..|p| - 1] == q[..|q| - 1] && p[|p| - 1] == q[|q| - 1]
    ensures p == q
  {
    assert p == p[..|p| - 1] + [p[|p| - 1]] && q == q[..|q| - 1] + [q[|q| - 1]];
  }

  lemma {:induction false} OnePathPerLeaf(rank: Hash -> int, leaf: Hash, p: seq<Hash>, q: seq<Hash>)
    requires leaf.Leaf?
    requires Fold(rank, leaf, p) == Fold(rank, leaf, q)
    requires Leaves(Fold(rank, leaf, p))[(leaf.buyer, leaf.salt)] == 1
    ensures p == q
    decreases |p|
  {
    if p != [] && q != [] {
      var p', q' := p[..|p| - 1], q[..|q| - 1];
      SameLastStep(rank, leaf, p', p[|p| - 1], q', q[|q| - 1]);
      OnePathPerLeaf(rank, leaf, p', q');
      SameByParts(p, q);
    }
  }

  lemma SameLastStep(rank: Hash -> int, leaf: Hash, p: seq<Hash>, x: Hash, q: seq<Hash>, y: Hash)
    requires leaf.Leaf?
    requires HashPair(rank, Fold(rank, leaf, p), x) == HashPair(rank, Fold(rank, leaf, q), y)
    requires Leaves(HashPair(rank, Fold(rank, leaf, p), x))[(leaf.buyer, leaf.salt)] == 1
    ensures Fold(rank, leaf, p) == Fold(rank, leaf, q) && x == y
    ensures Leaves(Fold(rank, leaf, p))[(leaf.buyer, leaf.salt)] == 1
  {
    FoldKeepsLeaves(rank, leaf, p);
    FoldKeepsLeaves(rank, leaf, q);
    assert Leaves(leaf)[(leaf.buyer, leaf.salt)] == 1;
    SameStep(rank, Fold(rank, leaf, p), x, Fold(rank, leaf, q), y, (leaf.buyer, leaf.salt));
  }

  // ----- the list

  datatype Entry = Entry(buyer: Address, salt: nat)

  function LeafOf(entry: Entry): Hash {
    Leaf(entry.buyer, entry.salt)
  }

  function LeafLevel(entries: seq<Entry>): seq<Hash> {
    seq(|entries|, i requires 0 <= i < |entries| => LeafOf(entries[i]))
  }

  ghost predicate SortedByLeaf(rank: Hash -> int, entries: seq<Entry>) {
    forall i, j :: 0 <= i < j < |entries| ==> rank(LeafOf(entries[i])) <= rank(LeafOf(entries[j]))
  }

  function Insert(rank: Hash -> int, entry: Entry, sorted: seq<Entry>): (r: seq<Entry>)
    ensures multiset(r) == multiset{entry} + multiset(sorted)
  {
    if sorted == [] then [entry]
    else
      assert sorted == [sorted[0]] + sorted[1..];
      if rank(LeafOf(entry)) < rank(LeafOf(sorted[0])) then [entry] + sorted
      else [sorted[0]] + Insert(rank, entry, sorted[1..])
  }

  lemma {:induction false} InsertKeepsSorted(rank: Hash -> int, entry: Entry, sorted: seq<Entry>)
    requires SortedByLeaf(rank, sorted)
    ensures SortedByLeaf(rank, Insert(rank, entry, sorted))
  {
    if sorted != [] && rank(LeafOf(entry)) >= rank(LeafOf(sorted[0])) {
      var rest := Insert(rank, entry, sorted[1..]);
      InsertKeepsSorted(rank, entry, sorted[1..]);
      forall e | e in rest ensures rank(LeafOf(sorted[0])) <= rank(LeafOf(e)) {
        assert e in multiset(rest);
        assert e == entry || e in multiset(sorted[1..]);
      }
    }
  }

  function Sort(rank: Hash -> int, entries: seq<Entry>): (r: seq<Entry>)
    ensures multiset(r) == multiset(entries)
    ensures |r| == |entries|
    ensures SortedByLeaf(rank, r)
  {
    if entries == [] then []
    else
      var sorted := Sort(rank, entries[1..]);
      InsertKeepsSorted(rank, entries[0], sorted);
      assert entries == [entries[0]] + entries[1..];
      assert |multiset(Insert(rank, entries[0], sorted))| == |multiset(entries)|;
      Insert(rank, entries[0], sorted)
  }

  /** There is one sorted arrangement, so sorting forgets the order the entries were given in. */
  lemma {:induction false} SortedIsUnique(rank: Hash -> int, a: seq<Entry>, b: seq<Entry>)
    requires Injective(rank)
    requires SortedByLeaf(rank, a) && SortedByLeaf(rank, b) && multiset(a) == multiset(b)
    ensures a == b
  {
    assert |multiset(a)| == |multiset(b)|;
    if a != [] {
      SameHead(rank, a, b);
      SortedIsUnique(rank, a[1..], b[1..]);
      assert a == [a[0]] + a[1..] && b == [b[0]] + b[1..];
    }
  }

  lemma SameHead(rank: Hash -> int, a: seq<Entry>, b: seq<Entry>)
    requires Injective(rank) && a != [] && b != []
    requires SortedByLeaf(rank, a) && SortedByLeaf(rank, b) && multiset(a) == multiset(b)
    ensures a[0] == b[0] && multiset(a[1..]) == multiset(b[1..])
  {
    LeastFirst(rank, a, b);
    LeastFirst(rank, b, a);
    TailEntries(a);
    TailEntries(b);
  }

  lemma TailEntries(entries: seq<Entry>)
    requires entries != []
    ensures multiset(entries[1..]) == multiset(entries) - multiset{entries[0]}
  {
    assert entries == [entries[0]] + entries[1..];
  }

  lemma LeastFirst(rank: Hash -> int, a: seq<Entry>, b: seq<Entry>)
    requires a != [] && b != []
    requires SortedByLeaf(rank, a) && multiset(a) == multiset(b)
    ensures rank(LeafOf(a[0])) <= rank(LeafOf(b[0]))
  {
    assert b[0] in multiset(b);
    assert b[0] in a;
  }

  ghost function Pairs(entries: seq<Entry>): multiset<(Address, nat)> {
    if entries == [] then multiset{} else multiset{(entries[0].buyer, entries[0].salt)} + Pairs(entries[1..])
  }

  lemma {:induction false} LeafLevelLeaves(entries: seq<Entry>)
    ensures LeavesOf(LeafLevel(entries)) == Pairs(entries)
  {
    if entries != [] {
      LeafLevelLeaves(entries[1..]);
      assert LeafLevel(entries)[1..] == LeafLevel(entries[1..]);
    }
  }

  lemma {:induction false} PairsCount(entries: seq<Entry>, e: Entry)
    ensures Pairs(entries)[(e.buyer, e.salt)] == multiset(entries)[e]
  {
    if entries != [] {
      PairsCount(entries[1..], e);
      assert entries == [entries[0]] + entries[1..];
    }
  }

  function PublishedRoot(rank: Hash -> int, entries: seq<Entry>): Hash
    requires entries != []
  {
    Root(rank, LeafLevel(Sort(rank, entries)))
  }

  lemma RootHolds(rank: Hash -> int, entries: seq<Entry>, e: Entry)
    requires entries != []
    ensures Leaves(PublishedRoot(rank, entries))[(e.buyer, e.salt)] == multiset(entries)[e]
  {
    var ordered := Sort(rank, entries);
    RootKeepsLeaves(rank, LeafLevel(ordered));
    LeafLevelLeaves(ordered);
    PairsCount(ordered, e);
  }

  /** Two lists publish the same root exactly when they approve the same entries, in whatever order. */
  lemma RootIdentifiesEntries(rank: Hash -> int, a: seq<Entry>, b: seq<Entry>)
    requires Injective(rank) && a != [] && b != []
    ensures PublishedRoot(rank, a) == PublishedRoot(rank, b) <==> multiset(a) == multiset(b)
  {
    if multiset(a) == multiset(b) {
      SortedIsUnique(rank, Sort(rank, a), Sort(rank, b));
    }
    if PublishedRoot(rank, a) == PublishedRoot(rank, b) {
      forall e: Entry ensures multiset(a)[e] == multiset(b)[e] {
        RootHolds(rank, a, e);
        RootHolds(rank, b, e);
      }
    }
  }

  /** Soundness and completeness of the market's check: some path folds exactly for an approved entry. */
  lemma VerifiesExactlyEntries(rank: Hash -> int, entries: seq<Entry>, e: Entry)
    requires Injective(rank) && entries != []
    ensures (exists path :: Fold(rank, LeafOf(e), path) == PublishedRoot(rank, entries)) <==> e in entries
  {
    var ordered := Sort(rank, entries);
    RootHolds(rank, entries, e);
    if path :| Fold(rank, LeafOf(e), path) == PublishedRoot(rank, entries) {
      FoldKeepsLeaves(rank, LeafOf(e), path);
      assert (e.buyer, e.salt) in Leaves(LeafOf(e));
      assert e in multiset(entries);
    }
    if e in entries {
      assert e in multiset(ordered);
      var i :| 0 <= i < |ordered| && ordered[i] == e;
      IssuedPathFolds(rank, LeafLevel(ordered), i);
      assert LeafLevel(ordered)[i] == LeafOf(e);
    }
  }

  // ----- building a list from what the poster kept

  datatype SaltText = NotBytes32 | Bytes32(value: nat)
  datatype RawEntry = RawEntry(buyer: string, salt: SaltText)
  datatype Problem = EmptyList | NotAnAddress | OnTheListTwice | SaltNotBytes32 | SaltBelowFloor
  datatype BuyerList = BuyerList(root: Hash, entries: seq<Entry>, ordered: seq<Entry>, levels: seq<seq<Hash>>)
  datatype Built = Built(list: BuyerList) | Refused(problem: Problem, at: nat)

  const BUYER_SALT_FLOOR: nat := 0x1_0000_0000_0000_0000_0000_0000_0000_0000

  /** `checksum` stands for `isAddress` and `getAddress`: the one address a text names, if it names one. */
  ghost predicate Approvable(checksum: string -> Option<Address>, raw: RawEntry, e: Entry) {
    && checksum(raw.buyer) == Some(e.buyer)
    && raw.salt == Bytes32(e.salt)
    && e.salt >= BUYER_SALT_FLOOR
  }

  ghost predicate AllApprovable(checksum: string -> Option<Address>, raw: seq<RawEntry>, entries: seq<Entry>) {
    && |raw| == |entries|
    && (forall i :: 0 <= i < |raw| ==> Approvable(checksum, raw[i], entries[i]))
    && forall i, j :: 0 <= i < j < |entries| ==> entries[i].buyer != entries[j].buyer
  }

  ghost predicate NewBuyer(checksum: string -> Option<Address>, raw: RawEntry, entries: seq<Entry>) {
    && checksum(raw.buyer).Some?
    && forall i :: 0 <= i < |entries| ==> entries[i].buyer != checksum(raw.buyer).value
  }

  /** What is wrong with one more entry after `entries`. */
  ghost predicate IsProblem(
    checksum: string -> Option<Address>, raw: RawEntry, entries: seq<Entry>, problem: Problem)
  {
    match problem
    case EmptyList => false
    case NotAnAddress => checksum(raw.buyer).None?
    case OnTheListTwice => exists i :: 0 <= i < |entries| && checksum(raw.buyer) == Some(entries[i].buyer)
    case SaltNotBytes32 => NewBuyer(checksum, raw, entries) && raw.salt.NotBytes32?
    case SaltBelowFloor =>
      NewBuyer(checksum, raw, entries) && raw.salt.Bytes32? && raw.salt.value < BUYER_SALT_FLOOR
  }

  ghost predicate ValidList(rank: Hash -> int, list: BuyerList) {
    && list.entries != []
    && (forall i, j :: 0 <= i < j < |list.entries| ==> list.entries[i].buyer != list.entries[j].buyer)
    && list.root == PublishedRoot(rank, list.entries)
    && list.ordered == Sort(rank, list.entries)
    && list.levels == Levels(rank, LeafLevel(list.ordered))
  }

  method BuyerListFrom(rank: Hash -> int, checksum: string -> Option<Address>, raw: seq<RawEntry>)
    returns (result: Built)
    ensures result.Built? ==>
              && ValidList(rank, result.list)
              && AllApprovable(checksum, raw, result.list.entries)
    ensures result.Refused? && result.problem.EmptyList? <==> raw == []
    ensures result.Refused? && !result.problem.EmptyList? ==>
              exists entries ::
                && result.at < |raw|
                && AllApprovable(checksum, raw[..result.at], entries)
                && IsProblem(checksum, raw[result.at], entries, result.problem)
  {
    if raw == [] { return Refused(EmptyList, 0); }
    var seen: set<Address> := {};
    var entries: seq<Entry> := [];
    for i := 0 to |raw|
      invariant AllApprovable(checksum, raw[..i], entries)
      invariant forall a :: a in seen <==> exists k :: 0 <= k < |entries| && entries[k].buyer == a
    {
      var buyer := checksum(raw[i].buyer);
      if buyer.None? { return Refused(NotAnAddress, i); }
      if buyer.value in seen { return Refused(OnTheListTwice, i); }
      seen := seen + {buyer.value};
      if raw[i].salt.NotBytes32? { return Refused(SaltNotBytes32, i); }
      if raw[i].salt.value < BUYER_SALT_FLOOR { return Refused(SaltBelowFloor, i); }
      ghost var before := entries;
      entries := entries + [Entry(buyer.value, raw[i].salt.value)];
      forall a ensures a in seen <==> exists k :: 0 <= k < |entries| && entries[k].buyer == a {
        if a in seen && a != buyer.value {
          var k :| 0 <= k < |before| && before[k].buyer == a;
          assert entries[k].buyer == a;
        }
        assert entries[|before|].buyer == buyer.value;
      }
    }
    assert raw[..|raw|] == raw;
    var ordered := Sort(rank, entries);
    var levels := LevelsOf(rank, LeafLevel(ordered));
    return Built(BuyerList(levels[|levels| - 1][0], entries, ordered, levels));
  }

  datatype Eligibility = Eligibility(salt: nat, proof: seq<Hash>)

  /**
   * What a listed buyer is handed: its salt and the one path that the market accepts with it,
   * no longer than the logarithm of the list.
   */
  method EligibilityOf(rank: Hash -> int, checksum: string -> Option<Address>, list: BuyerList, buyer: string)
    returns (result: Option<Eligibility>)
    requires ValidList(rank, list) && Injective(rank)
    ensures result.None? <==>
            forall e :: e in list.entries ==> checksum(buyer) != Some(e.buyer)
    ensures result.Some? ==>
              var Eligibility(salt, proof) := result.value;
              && checksum(buyer).Some?
              && Entry(checksum(buyer).value, salt) in list.entries
              && (forall path :: Fold(rank, Leaf(checksum(buyer).value, salt), path) == list.root <==> path == proof)
              && (forall k :: |list.entries| <= Pow2(k) ==> |proof| <= k)
  {
    var key := checksum(buyer);
    var i := 0;
    while i < |list.ordered| && key != Some(list.ordered[i].buyer)
      invariant 0 <= i <= |list.ordered|
      invariant forall k :: 0 <= k < i ==> key != Some(list.ordered[k].buyer)
    {
      i := i + 1;
    }
    SameMembers(list.entries, list.ordered);
    if i == |list.ordered| { return None; }
    var e := list.ordered[i];
    var proof := PathOf(list.levels, i);
    result := Some(Eligibility(e.salt, proof));
    OnlyIssuedPath(rank, list, i);
    forall k: nat | |list.entries| <= Pow2(k) ensures |proof| <= k {
      PathLength(rank, LeafLevel(list.ordered), i, k);
    }
  }

  lemma SameMembers(a: seq<Entry>, b: seq<Entry>)
    requires multiset(a) == multiset(b)
    ensures forall e :: e in a <==> e in b
  {
    forall e ensures e in a <==> e in b {
      assert e in a <==> e in multiset(a);
      assert e in b <==> e in multiset(b);
    }
  }

  lemma OnlyIssuedPath(rank: Hash -> int, list: BuyerList, i: nat)
    requires ValidList(rank, list) && Injective(rank) && i < |list.ordered|
    ensures forall path :: Fold(rank, LeafOf(list.ordered[i]), path) == list.root <==> path == PathIn(list.levels, i)
  {
    var e := list.ordered[i];
    var issued := PathIn(list.levels, i);
    IssuedPathFolds(rank, LeafLevel(list.ordered), i);
    RootHolds(rank, list.entries, e);
    assert e in multiset(list.ordered);
    DistinctCount(list.entries, e);
    forall path | Fold(rank, LeafOf(e), path) == list.root ensures path == issued {
      OnePathPerLeaf(rank, LeafOf(e), path, issued);
    }
  }

  lemma {:induction false} DistinctCount(entries: seq<Entry>, e: Entry)
    requires forall i, j :: 0 <= i < j < |entries| ==> entries[i].buyer != entries[j].buyer
    ensures multiset(entries)[e] <= 1
  {
    if entries != [] {
      DistinctCount(entries[1..], e);
      assert entries == [entries[0]] + entries[1..];
      if entries[0] == e { assert e !in entries[1..]; }
    }
  }
}

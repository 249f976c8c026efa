/**
 * Which values a job's specification may be: the walk over an object graph, in which nodes may be
 * shared and may form cycles, against the finite tree that the graph unfolds to from the root.
 */
module SpecData {

  type Ref = nat

  datatype Value =
    | Text
    | Boolean
    | Number(finite: bool)
    | Null
    | Undefined
    | Other                // a function, a symbol or a bigint
    | Object(ref: Ref)

  /** `Hole` is an index a sparse array does not have. */
  datatype Item = Hole | Item(value: Value)

  datatype Node =
    | List(items: seq<Item>)
    | Plain(members: seq<(string, Value)>)
    | Exotic               // a Date, a Map, a class instance

  type Graph = map<Ref, Node>

  /** Every object the graph refers to is in it. */
  ghost predicate Closed(g: Graph) {
    forall r :: r in g ==> forall v :: v in Kids(g[r]) && v.Object? ==> v.ref in g
  }

  // ----- the reference: the unfolding

  datatype Tree = Leaf | Branch(children: seq<Tree>)

  /** The values below a node, in order: holes and undefined members are passed over. */
  function Kids(node: Node): seq<Value> {
    match node
    case List(items) => ListKids(items)
    case Plain(members) => MemberKids(members)
    case Exotic => []
  }

  function ListKids(items: seq<Item>): seq<Value> {
    if items == [] then []
    else if items[0].Hole? then ListKids(items[1..])
    else [items[0].value] + ListKids(items[1..])
  }

  function MemberKids(members: seq<(string, Value)>): seq<Value> {
    if members == [] then []
    else if members[0].1.Undefined? then MemberKids(members[1..])
    else [members[0].1] + MemberKids(members[1..])
  }

  /** `t` is the whole unfolding of `v`, and all of it is JSON data. An undefined array item is not. */
  ghost predicate Unfolds(g: Graph, v: Value, t: Tree)
    decreases t
  {
    match v
    case Text => t.Leaf?
    case Boolean => t.Leaf?
    case Number(finite) => finite && t.Leaf?
    case Null => t.Leaf?
    case Undefined => false
    case Other => false
    case Object(r) =>
      && r in g && !g[r].Exotic?
      && t.Branch? && |t.children| == |Kids(g[r])|
      && forall i :: 0 <= i < |t.children| ==> Unfolds(g, Kids(g[r])[i], t.children[i])
  }

  ghost predicate IsJsonData(g: Graph, v: Value) {
    exists t :: Unfolds(g, v, t)
  }

  ghost function Size(t: Tree): nat {
    match t
    case Leaf => 1
    case Branch(children) => 1 + SizeOf(children)
  }

  ghost function SizeOf(ts: seq<Tree>): nat {
    if ts == [] then 0 else Size(ts[0]) + SizeOf(ts[1..])
  }

  lemma {:induction false} ChildIsSmaller(ts: seq<Tree>, i: nat)
    requires i < |ts|
    ensures Size(ts[i]) <= SizeOf(ts)
  {
    if i > 0 { ChildIsSmaller(ts[1..], i - 1); }
  }

  lemma {:induction false} UnfoldingIsUnique(g: Graph, v: Value, t: Tree, u: Tree)
    requires Unfolds(g, v, t) && Unfolds(g, v, u)
    ensures t == u
    decreases t
  {
    if v.Object? {
      forall i | 0 <= i < |t.children| ensures t.children[i] == u.children[i] {
        UnfoldingIsUnique(g, Kids(g[v.ref])[i], t.children[i], u.children[i]);
      }
      assert t.children == u.children;
    }
  }

  // ----- what is JSON data, value by value

  lemma {:induction false} ListKidsAre(items: seq<Item>, v: Value)
    ensures v in ListKids(items) <==> Item(v) in items
  {
    if items != [] {
      ListKidsAre(items[1..], v);
      assert items == [items[0]] + items[1..];
    }
  }

  lemma {:induction false} MemberKidsAre(members: seq<(string, Value)>, v: Value)
    ensures v in MemberKids(members) <==> !v.Undefined? && exists i :: 0 <= i < |members| && members[i].1 == v
  {
    if members != [] {
      MemberKidsAre(members[1..], v);
      assert forall i :: 1 <= i < |members| ==> members[i] == members[1..][i - 1];
      if i :| 0 <= i < |members| - 1 && members[1..][i].1 == v { assert members[i + 1].1 == v; }
    }
  }

  lemma {:induction false} TreesOf(g: Graph, kids: seq<Value>) returns (trees: seq<Tree>)
    requires forall v :: v in kids ==> IsJsonData(g, v)
    ensures |trees| == |kids| && forall i :: 0 <= i < |kids| ==> Unfolds(g, kids[i], trees[i])
  {
    if kids == [] {
      trees := [];
    } else {
      assert kids[0] in kids;
      var t :| Unfolds(g, kids[0], t);
      var rest := TreesOf(g, kids[1..]);
      trees := [t] + rest;
      forall i | 0 <= i < |kids| ensures Unfolds(g, kids[i], trees[i]) {
        if i > 0 { assert kids[i] == kids[1..][i - 1]; }
      }
    }
  }

  lemma DataByKids(g: Graph, r: Ref)
    requires r in g
    ensures IsJsonData(g, Object(r)) <==> !g[r].Exotic? && forall v :: v in Kids(g[r]) ==> IsJsonData(g, v)
  {
    if t :| Unfolds(g, Object(r), t) {
      forall v | v in Kids(g[r]) ensures IsJsonData(g, v) {
        var i :| 0 <= i < |Kids(g[r])| && Kids(g[r])[i] == v;
        assert Unfolds(g, v, t.children[i]);
      }
    }
    if !g[r].Exotic? && forall v :: v in Kids(g[r]) ==> IsJsonData(g, v) {
      var trees := TreesOf(g, Kids(g[r]));
      KidsUnfold(g, r, trees);
    }
  }

  /**
   * Texts, booleans, null and finite numbers are JSON data; an array is when each of its items is, holes
   * aside, and a plain object when each of its defined members is; nothing else is.
   */
  lemma DataExactly(g: Graph, v: Value)
    requires v.Object? ==> v.ref in g
    ensures IsJsonData(g, v) <==>
            match v
            case Text => true
            case Boolean => true
            case Null => true
            case Number(finite) => finite
            case Undefined => false
            case Other => false
            case Object(r) =>
              match g[r]
              case List(items) => forall i :: 0 <= i < |items| && items[i].Item? ==> IsJsonData(g, items[i].value)
              case Plain(members) =>
                forall i :: 0 <= i < |members| && !members[i].1.Undefined? ==> IsJsonData(g, members[i].1)
              case Exotic => false
  {
    if v.Object? {
      var r := v.ref;
      DataByKids(g, r);
      match g[r]
      case List(items) =>
        forall u ensures u in Kids(g[r]) <==> Item(u) in items { ListKidsAre(items, u); }
        forall i | 0 <= i < |items| && items[i].Item? ensures items[i].value in Kids(g[r]) {
          assert items[i] == Item(items[i].value);
        }
      case Plain(members) =>
        forall u ensures u in Kids(g[r])
                         <==> !u.Undefined? && exists i :: 0 <= i < |members| && members[i].1 == u {
          MemberKidsAre(members, u);
        }
      case Exotic =>
    } else {
      ScalarData(g, v);
    }
  }

  lemma ScalarData(g: Graph, v: Value)
    requires !v.Object?
    ensures IsJsonData(g, v) <==> v.Text? || v.Boolean? || v.Null? || (v.Number? && v.finite)
  {
    if v.Text? || v.Boolean? || v.Null? || (v.Number? && v.finite) { assert Unfolds(g, v, Leaf); }
  }

  // ----- paths and cycles

  ghost predicate Below(g: Graph, r: Ref, v: Value) {
    r in g && v in Kids(g[r])
  }

  /** `v` is below the last of `path`, and each of `path` below the one before it. */
  ghost predicate Path(g: Graph, path: seq<Ref>, v: Value) {
    && (forall k :: 0 <= k < |path| - 1 ==> Below(g, path[k], Object(path[k + 1])))
    && (path != [] ==> Below(g, path[|path| - 1], v))
  }

  lemma PathTail(g: Graph, path: seq<Ref>, v: Value, i: nat)
    requires Path(g, path, v) && i < |path|
    ensures Path(g, path[i..], v)
  {
    var rest := path[i..];
    forall k | 0 <= k < |rest| - 1 ensures Below(g, rest[k], Object(rest[k + 1])) {
      assert rest[k] == path[i + k] && rest[k + 1] == path[(i + k) + 1];
    }
  }

  /** Going down a path, unfoldings get strictly smaller. */
  lemma {:induction false} PathShrinks(g: Graph, path: seq<Ref>, v: Value, t: Tree) returns (below: Tree)
    requires path != [] && Path(g, path, v) && Unfolds(g, Object(path[0]), t)
    ensures Unfolds(g, v, below) && Size(below) < Size(t)
    decreases |path|
  {
    var next := if |path| == 1 then v else Object(path[1]);
    assert Below(g, path[0], next);
    var i :| 0 <= i < |Kids(g[path[0]])| && Kids(g[path[0]])[i] == next;
    ChildIsSmaller(t.children, i);
    below := t.children[i];
    if |path| > 1 {
      var rest := path[1..];
      PathTail(g, path, v, 1);
      below := PathShrinks(g, rest, v, below);
    }
  }

  /** Nothing that leads back to itself, at any distance, is JSON data. */
  lemma CycleIsRefused(g: Graph, path: seq<Ref>)
    requires path != [] && Path(g, path, Object(path[0]))
    ensures !IsJsonData(g, Object(path[0]))
  {
    if t :| Unfolds(g, Object(path[0]), t) {
      var below := PathShrinks(g, path, Object(path[0]), t);
      UnfoldingIsUnique(g, Object(path[0]), t, below);
    }
  }

  /** Nor is anything that leads to something that is not. */
  lemma LeadingToBadIsRefused(g: Graph, path: seq<Ref>, v: Value)
    requires path != [] && Path(g, path, v) && !IsJsonData(g, v)
    ensures !IsJsonData(g, Object(path[0]))
  {
    if t :| Unfolds(g, Object(path[0]), t) {
      var _ := PathShrinks(g, path, v, t);
    }
  }

  // ----- the walk

  ghost function Members(path: seq<Ref>): set<Ref> {
    set r | r in path
  }

  class Walk {
    const graph: Graph
    var seen: set<Ref>     // the objects on the path from the root

    constructor (graph: Graph)
      ensures this.graph == graph && seen == {}
    {
      this.graph := graph;
      seen := {};
    }

    /** Accepts exactly what unfolds to a finite tree of JSON data, and always comes to an end. */
    method AssertJsonData(v: Value, ghost path: seq<Ref>) returns (ok: bool, ghost t: Tree)
      requires Closed(graph) && (v.Object? ==> v.ref in graph)
      requires seen == Members(path) && seen <= graph.Keys && Path(graph, path, v)
      modifies this
      ensures ok ==> Unfolds(graph, v, t) && seen == old(seen)
      ensures ok <==> IsJsonData(graph, v)
      decreases |graph.Keys - seen|, 1
    {
      t := Leaf;
      if !v.Object? {
        ok := v.Text? || v.Boolean? || v.Null? || (v.Number? && v.finite);
        assert ok ==> Unfolds(graph, v, t);
        return;
      }
      if v.ref in seen {
        SeenIsCycle(graph, path, v.ref);
        return false, t;
      }
      ghost var below := path + [v.ref];
      PathDown(graph, path, v.ref);
      SmallerRest(graph, seen, v.ref);
      seen := seen + {v.ref};
      assert Members(below) == seen;
      var node := graph[v.ref];
      if node.Exotic? {
        ok := false;
      } else if node.List? {
        ok, t := WalkItems(v.ref, below);
      } else {
        ok, t := WalkMembers(v.ref, below);
      }
      if ok { seen := seen - {v.ref}; }
    }

    /** `forEach` over an array: holes are passed over, an undefined item is refused. */
    method WalkItems(r: Ref, ghost path: seq<Ref>) returns (ok: bool, ghost t: Tree)
      requires Closed(graph) && r in graph && graph[r].List?
      requires seen == Members(path) && seen <= graph.Keys
      requires forall v :: v in Kids(graph[r]) ==> Path(graph, path, v)
      modifies this
      ensures ok ==> Unfolds(graph, Object(r), t) && seen == old(seen)
      ensures ok <==> IsJsonData(graph, Object(r))
      decreases |graph.Keys - seen|, 2
    {
      var items := graph[r].items;
      ghost var kids := Kids(graph[r]);
      ghost var trees: seq<Tree> := [];
      t := Leaf;
      for i := 0 to |items|
        invariant seen == old(seen)
        invariant |trees| <= |kids| && kids[|trees|..] == ListKids(items[i..])
        invariant forall k :: 0 <= k < |trees| ==> Unfolds(graph, kids[k], trees[k])
      {
        NextItem(kids, |trees|, items, i);
        if items[i].Hole? { continue; }
        var value := items[i].value;
        if value.Undefined? {
          UndefinedIsRefused(graph, r, |trees|);
          return false, t;
        }
        var item, u := AssertJsonData(value, path);
        if !item {
          BadKidIsRefused(graph, r, |trees|);
          return false, t;
        }
        trees := trees + [u];
      }
      t := Branch(trees);
      KidsUnfold(graph, r, trees);
      return true, t;
    }

    /** The loop over an object's entries: undefined ones are passed over. */
    method WalkMembers(r: Ref, ghost path: seq<Ref>) returns (ok: bool, ghost t: Tree)
      requires Closed(graph) && r in graph && graph[r].Plain?
      requires seen == Members(path) && seen <= graph.Keys
      requires forall v :: v in Kids(graph[r]) ==> Path(graph, path, v)
      modifies this
      ensures ok ==> Unfolds(graph, Object(r), t) && seen == old(seen)
      ensures ok <==> IsJsonData(graph, Object(r))
      decreases |graph.Keys - seen|, 2
    {
      var members := graph[r].members;
      ghost var kids := Kids(graph[r]);
      ghost var trees: seq<Tree> := [];
      t := Leaf;
      for i := 0 to |members|
        invariant seen == old(seen)
        invariant |trees| <= |kids| && kids[|trees|..] == MemberKids(members[i..])
        invariant forall k :: 0 <= k < |trees| ==> Unfolds(graph, kids[k], trees[k])
      {
        NextMember(kids, |trees|, members, i);
        var value := members[i].1;
        if value.Undefined? { continue; }
        var item, u := AssertJsonData(value, path);
        if !item {
          BadKidIsRefused(graph, r, |trees|);
          return false, t;
        }
        trees := trees + [u];
      }
      t := Branch(trees);
      KidsUnfold(graph, r, trees);
      return true, t;
    }
  }

  lemma NextItem(kids: seq<Value>, n: nat, items: seq<Item>, i: nat)
    requires n <= |kids| && i < |items| && kids[n..] == ListKids(items[i..])
    ensures if items[i].Hole? then kids[n..] == ListKids(items[i + 1..])
            else n < |kids| && kids[n] == items[i].value && kids[n + 1..] == ListKids(items[i + 1..])
  {
    assert items[i..][1..] == items[i + 1..];
    if !items[i].Hole? { TailOf(kids, n, items[i].value, ListKids(items[i + 1..])); }
  }

  lemma NextMember(kids: seq<Value>, n: nat, members: seq<(string, Value)>, i: nat)
    requires n <= |kids| && i < |members| && kids[n..] == MemberKids(members[i..])
    ensures if members[i].1.Undefined? then kids[n..] == MemberKids(members[i + 1..])
            else n < |kids| && kids[n] == members[i].1 && kids[n + 1..] == MemberKids(members[i + 1..])
  {
    assert members[i..][1..] == members[i + 1..];
    if !members[i].1.Undefined? { TailOf(kids, n, members[i].1, MemberKids(members[i + 1..])); }
  }

  lemma TailOf(kids: seq<Value>, n: nat, first: Value, rest: seq<Value>)
    requires n <= |kids| && kids[n..] == [first] + rest
    ensures n < |kids| && kids[n] == first && kids[n + 1..] == rest
  {
    assert kids[n + 1..] == kids[n..][1..];
  }

  lemma BadKidIsRefused(g: Graph, r: Ref, i: nat)
    requires r in g && i < |Kids(g[r])| && !IsJsonData(g, Kids(g[r])[i])
    ensures !IsJsonData(g, Object(r))
  {
    LeadingToBadIsRefused(g, [r], Kids(g[r])[i]);
  }

  lemma UndefinedIsRefused(g: Graph, r: Ref, i: nat)
    requires r in g && i < |Kids(g[r])| && Kids(g[r])[i].Undefined?
    ensures !IsJsonData(g, Object(r))
  {
    BadKidIsRefused(g, r, i);
  }

  lemma KidsUnfold(g: Graph, r: Ref, trees: seq<Tree>)
    requires r in g && !g[r].Exotic? && |trees| == |Kids(g[r])|
    requires forall i :: 0 <= i < |trees| ==> Unfolds(g, Kids(g[r])[i], trees[i])
    ensures Unfolds(g, Object(r), Branch(trees))
  {
  }

  lemma SeenIsCycle(g: Graph, path: seq<Ref>, r: Ref)
    requires Path(g, path, Object(r)) && r in path
    ensures !IsJsonData(g, Object(r))
  {
    var i :| 0 <= i < |path| && path[i] == r;
    var rest := path[i..];
    PathTail(g, path, Object(r), i);
    CycleIsRefused(g, rest);
  }

  lemma PathDown(g: Graph, path: seq<Ref>, r: Ref)
    requires Path(g, path, Object(r)) && r in g
    ensures forall v :: v in Kids(g[r]) ==> Path(g, path + [r], v)
  {
  }

  lemma SmallerRest(g: Graph, seen: set<Ref>, r: Ref)
    requires r in g && r !in seen
    ensures |g.Keys - (seen + {r})| < |g.Keys - seen|
  {
    assert g.Keys - seen == (g.Keys - (seen + {r})) + {r};
  }

  /** From a root: the whole check. */
  method IsSpecification(g: Graph, root: Value) returns (ok: bool)
    requires Closed(g) && (root.Object? ==> root.ref in g)
    ensures ok <==> IsJsonData(g, root)
  {
    var walk := new Walk(g);
    ghost var t: Tree;
    ok, t := walk.AssertJsonData(root, []);
  }
}

/**
 * The log redactor: a walk over an object graph that keeps allowlisted keys only, cuts strings and
 * arrays, and stops at a fixed depth. What is held under any other key does not reach the line.
 */
module Redaction {
  import opened Wrappers

  const MAX_DEPTH: nat := 8
  const MAX_ARRAY_LENGTH: nat := 256
  const MAX_SAFE: int := 0x1F_FFFF_FFFF_FFFF

  const RESERVED: set<string> := {"ts", "level", "service", "version", "event", "dropped_fields", "truncated"}

  type Ref = nat

  datatype Value =
    | Null
    | Text(s: string)
    | Number(n: real)
    | Boolean(b: bool)
    | BigInt(i: int)
    | Undefined
    | Callable                 // a function or a symbol
    | Date(iso: string)        // empty when invalid
    | Object(ref: Ref)

  datatype Node =
    | List(items: seq<Value>)
    | Fields(members: seq<(string, Value)>)
    | Failure(name: string, message: string, stack: Option<string>, cause: Value)   // an Error

  type Graph = map<Ref, Node>

  ghost predicate Closed(g: Graph) {
    forall r :: r in g ==>
      match g[r]
      case List(items) => forall i :: 0 <= i < |items| && items[i].Object? ==> items[i].ref in g
      case Fields(members) => forall i :: 0 <= i < |members| && members[i].1.Object? ==> members[i].1.ref in g
      case Failure(_, _, _, cause) => cause.Object? ==> cause.ref in g
  }

  predicate IsFailure(g: Graph, v: Value) {
    v.Object? && v.ref in g && g[v.ref].Failure?
  }

  datatype Output =
    | ONull
    | OText(s: string)
    | ODate(iso: string)
    | ONumber(n: real)
    | OBoolean(b: bool)
    | OInteger(i: int)         // a bigint that fits a number
    | ODigits(i: int)          // a bigint that does not, as text
    | OList(items: seq<Output>)
    | OFields(fields: seq<Field>)
    | OError(name: string, message: string, stack: Option<string>, cause: Option<Output>, truncated: bool)

  datatype Field = Field(key: string, value: Output)

  datatype Sanitized = Sanitized(kept: Option<Output>, dropped: nat, truncated: bool)

  datatype Config = Config(allow: set<string>, maxLength: nat)

  predicate Shown(c: Config, key: string) {
    key in c.allow && key !in RESERVED
  }

  // ----- the walk

  function Keep(o: Output, truncated: bool): Sanitized {
    Sanitized(Some(o), 0, truncated)
  }

  function Cut(text: string, maxLength: nat): string {
    if |text| <= maxLength then text else text[..maxLength]
  }

  /** Everything that is not an object or an array. */
  function Scalar(c: Config, v: Value): Sanitized
    requires !v.Object?
  {
    match v
    case Null => Keep(ONull, false)
    case Text(s) => Keep(OText(Cut(s, c.maxLength)), |s| > c.maxLength)
    case Number(n) => Keep(ONumber(n), false)
    case Boolean(b) => Keep(OBoolean(b), false)
    case BigInt(i) => Keep(if -MAX_SAFE <= i <= MAX_SAFE then OInteger(i) else ODigits(i), false)
    case Undefined => Sanitized(None, 0, false)
    case Callable => Sanitized(None, 1, false)
    case Date(iso) => Keep(if iso == "" then ONull else ODate(iso), false)
  }

  /** An Error and its chain of causes, down to the depth bound. */
  function SerializeError(g: Graph, c: Config, r: Ref, depth: nat): Output
    requires Closed(g) && r in g && g[r].Failure? && depth <= MAX_DEPTH
    decreases MAX_DEPTH - depth
  {
    var Failure(name, message, stack, cause) := g[r];
    OError(name, Cut(message, c.maxLength),
           if stack.Some? then Some(Cut(stack.value, c.maxLength)) else None,
           if IsFailure(g, cause) && depth < MAX_DEPTH then Some(SerializeError(g, c, cause.ref, depth + 1)) else None,
           |message| > c.maxLength || (stack.Some? && |stack.value| > c.maxLength))
  }

  function Sanitize(g: Graph, c: Config, v: Value, depth: nat): Sanitized
    requires Closed(g) && (v.Object? ==> v.ref in g) && depth <= MAX_DEPTH
    decreases MAX_DEPTH - depth, 1, 0
  {
    if !v.Object? then Scalar(c, v)
    else if IsFailure(g, v) then Keep(SerializeError(g, c, v.ref, depth), false)
    else if depth >= MAX_DEPTH then Sanitized(None, 1, false)
    else
      match g[v.ref]
      case List(items) =>
        var limit := if |items| < MAX_ARRAY_LENGTH then |items| else MAX_ARRAY_LENGTH;
        var r := ListUpTo(g, c, v.ref, limit, depth);
        Sanitized(Some(OList(r.out)), r.dropped, r.truncated || |items| > MAX_ARRAY_LENGTH)
      case Fields(members) =>
        var r := FieldsUpTo(g, c, v.ref, |members|, depth);
        Sanitized(Some(OFields(Marked(r))), r.dropped, false)
  }

  datatype Listed = Listed(out: seq<Output>, dropped: nat, truncated: bool)

  /** The first `n` items of a list. */
  function ListUpTo(g: Graph, c: Config, r: Ref, n: nat, depth: nat): Listed
    requires Closed(g) && r in g && g[r].List? && n <= |g[r].items| && depth < MAX_DEPTH
    decreases MAX_DEPTH - depth, 0, n
  {
    if n == 0 then Listed([], 0, false)
    else
      var before := ListUpTo(g, c, r, n - 1, depth);
      AddItem(before, g[r].items[n - 1], Sanitize(g, c, g[r].items[n - 1], depth + 1))
  }

  function AddItem(before: Listed, raw: Value, item: Sanitized): Listed {
    if item.kept.None? then
      Listed(if raw.Undefined? then before.out + [ONull] else before.out,
             before.dropped + item.dropped, before.truncated)
    else
      Listed(before.out + [item.kept.value], before.dropped + item.dropped,
                  before.truncated || item.truncated)
  }

  datatype Filtered = Filtered(out: seq<Field>, dropped: nat, truncated: bool)

  /** The first `n` members of an object. */
  function FieldsUpTo(g: Graph, c: Config, r: Ref, n: nat, depth: nat): Filtered
    requires Closed(g) && r in g && g[r].Fields? && n <= |g[r].members| && depth < MAX_DEPTH
    decreases MAX_DEPTH - depth, 0, n
  {
    if n == 0 then Filtered([], 0, false)
    else
      var before := FieldsUpTo(g, c, r, n - 1, depth);
      var (key, raw) := g[r].members[n - 1];
      if raw.Undefined? then before
      else if !Shown(c, key) then before.(dropped := before.dropped + 1)
      else AddField(before, key, Sanitize(g, c, raw, depth + 1))
  }

  function AddField(before: Filtered, key: string, item: Sanitized): Filtered {
    if item.kept.None? then before.(dropped := before.dropped + item.dropped)
    else Filtered(before.out + [Field(key, item.kept.value)], before.dropped + item.dropped,
                  before.truncated || item.truncated)
  }

  function Marked(r: Filtered): seq<Field> {
    if r.truncated then r.out + [Field("truncated", OBoolean(true))] else r.out
  }

  datatype Redacted = Redacted(fields: seq<Field>, dropped: nat)

  /** `filterObject` on the fields of one log call. */
  function Redact(g: Graph, c: Config, root: Ref): Redacted
    requires Closed(g) && root in g && g[root].Fields?
  {
    var r := FieldsUpTo(g, c, root, |g[root].members|, 0);
    Redacted(Marked(r), r.dropped)
  }

  // ----- the loops

  method SanitizeValue(g: Graph, c: Config, v: Value, depth: nat) returns (result: Sanitized)
    requires Closed(g) && (v.Object? ==> v.ref in g) && depth <= MAX_DEPTH
    ensures result == Sanitize(g, c, v, depth)
    decreases MAX_DEPTH - depth, 1
  {
    if !v.Object? { return Scalar(c, v); }
    if IsFailure(g, v) {
      var o := SerializeFailure(g, c, v.ref, depth);
      return Keep(o, false);
    }
    if depth >= MAX_DEPTH { return Sanitized(None, 1, false); }
    match g[v.ref]
    case List(items) => result := SanitizeArray(g, c, v.ref, depth);
    case Fields(_) =>
      var nested := FilterObject(g, c, v.ref, depth);
      result := Sanitized(Some(OFields(nested.fields)), nested.dropped, false);
  }

  method SerializeFailure(g: Graph, c: Config, r: Ref, depth: nat) returns (out: Output)
    requires Closed(g) && r in g && g[r].Failure? && depth <= MAX_DEPTH
    ensures out == SerializeError(g, c, r, depth)
    decreases MAX_DEPTH - depth
  {
    var Failure(name, message, stack, cause) := g[r];
    out := OError(name, Cut(message, c.maxLength), None, None, false);
    var truncated := |message| > c.maxLength;
    if stack.Some? {
      out := out.(stack := Some(Cut(stack.value, c.maxLength)));
      truncated := truncated || |stack.value| > c.maxLength;
    }
    if IsFailure(g, cause) && depth < MAX_DEPTH {
      var below := SerializeFailure(g, c, cause.ref, depth + 1);
      out := out.(cause := Some(below));
    }
    if truncated { out := out.(truncated := true); }
  }

  method SanitizeArray(g: Graph, c: Config, r: Ref, depth: nat) returns (result: Sanitized)
    requires Closed(g) && r in g && g[r].List? && depth < MAX_DEPTH
    ensures result == Sanitize(g, c, Object(r), depth)
    decreases MAX_DEPTH - depth, 0
  {
    var items := g[r].items;
    var out: seq<Output> := [];
    var dropped: nat := 0;
    var truncated := |items| > MAX_ARRAY_LENGTH;
    var limit := if |items| < MAX_ARRAY_LENGTH then |items| else MAX_ARRAY_LENGTH;
    for i := 0 to limit
      invariant var s := ListUpTo(g, c, r, i, depth);
                out == s.out && dropped == s.dropped && truncated == (s.truncated || |items| > MAX_ARRAY_LENGTH)
    {
      var item := SanitizeValue(g, c, items[i], depth + 1);
      dropped := dropped + item.dropped;
      if item.kept.None? {
        if items[i].Undefined? { out := out + [ONull]; }
      } else {
        if item.truncated { truncated := true; }
        out := out + [item.kept.value];
      }
    }
    return Sanitized(Some(OList(out)), dropped, truncated);
  }

  method FilterObject(g: Graph, c: Config, r: Ref, depth: nat) returns (result: Redacted)
    requires Closed(g) && r in g && g[r].Fields? && depth < MAX_DEPTH
    ensures var s := FieldsUpTo(g, c, r, |g[r].members|, depth); result == Redacted(Marked(s), s.dropped)
    decreases MAX_DEPTH - depth, 0
  {
    var members := g[r].members;
    var fields: seq<Field> := [];
    var dropped: nat := 0;
    var truncated := false;
    for i := 0 to |members|
      invariant FieldsUpTo(g, c, r, i, depth) == Filtered(fields, dropped, truncated)
    {
      var (key, raw) := members[i];
      if raw.Undefined? { continue; }
      if key in RESERVED || key !in c.allow {
        dropped := dropped + 1;
        continue;
      }
      var item := SanitizeValue(g, c, raw, depth + 1);
      dropped := dropped + item.dropped;
      if item.kept.None? { continue; }
      if item.truncated { truncated := true; }
      fields := fields + [Field(key, item.kept.value)];
    }
    if truncated { fields := fields + [Field("truncated", OBoolean(true))]; }
    return Redacted(fields, dropped);
  }

  // ----- what can come out

  /**
   * Every key at every level is on the list and not reserved, or `truncated`, outside the fixed fields of
   * an Error, and no text but an Error's name is longer than the limit.
   */
  ghost predicate Clean(c: Config, o: Output)
    decreases o
  {
    match o
    case OText(s) => |s| <= c.maxLength
    case OList(items) => forall i :: 0 <= i < |items| ==> Clean(c, items[i])
    case OFields(fields) => forall i :: 0 <= i < |fields| ==> AllowedKey(c, fields[i].key) && Clean(c, fields[i].value)
    case OError(_, message, stack, cause, _) =>
      && |message| <= c.maxLength && (stack.Some? ==> |stack.value| <= c.maxLength)
      && (cause.Some? ==> cause.value.OError? && Clean(c, cause.value))
    case _ => true
  }

  predicate AllowedKey(c: Config, key: string) {
    (key in c.allow && key !in RESERVED) || key == "truncated"
  }

  lemma {:induction false} OnlyAllowedKeys(g: Graph, c: Config, v: Value, depth: nat)
    requires Closed(g) && (v.Object? ==> v.ref in g) && depth <= MAX_DEPTH
    ensures var r := Sanitize(g, c, v, depth); r.kept.Some? ==> Clean(c, r.kept.value)
    decreases MAX_DEPTH - depth, 1, 0
  {
    if IsFailure(g, v) {
      CleanError(g, c, v.ref, depth);
    } else if v.Object? && depth < MAX_DEPTH {
      match g[v.ref]
      case List(items) =>
        CleanItems(g, c, v.ref, if |items| < MAX_ARRAY_LENGTH then |items| else MAX_ARRAY_LENGTH, depth);
      case Fields(members) =>
        CleanFields(g, c, v.ref, |members|, depth);
        MarkedIsClean(c, FieldsUpTo(g, c, v.ref, |members|, depth));
    }
  }

  lemma {:induction false} CleanError(g: Graph, c: Config, r: Ref, depth: nat)
    requires Closed(g) && r in g && g[r].Failure? && depth <= MAX_DEPTH
    ensures Clean(c, SerializeError(g, c, r, depth))
    decreases MAX_DEPTH - depth
  {
    if IsFailure(g, g[r].cause) && depth < MAX_DEPTH { CleanError(g, c, g[r].cause.ref, depth + 1); }
  }

  ghost predicate AllClean(c: Config, fields: seq<Field>) {
    forall i :: 0 <= i < |fields| ==> AllowedKey(c, fields[i].key) && Clean(c, fields[i].value)
  }

  lemma MarkedIsClean(c: Config, r: Filtered)
    requires AllClean(c, r.out)
    ensures Clean(c, OFields(Marked(r)))
  {
  }

  lemma AddedIsClean(c: Config, before: Filtered, key: string, item: Sanitized)
    requires AllClean(c, before.out)
    requires Shown(c, key) && (item.kept.Some? ==> Clean(c, item.kept.value))
    ensures AllClean(c, AddField(before, key, item).out)
  {
  }

  lemma {:induction false} CleanItems(g: Graph, c: Config, r: Ref, n: nat, depth: nat)
    requires Closed(g) && r in g && g[r].List? && n <= |g[r].items| && depth < MAX_DEPTH
    ensures forall i :: 0 <= i < |ListUpTo(g, c, r, n, depth).out| ==> Clean(c, ListUpTo(g, c, r, n, depth).out[i])
    decreases MAX_DEPTH - depth, 0, n
  {
    if n > 0 {
      CleanItems(g, c, r, n - 1, depth);
      OnlyAllowedKeys(g, c, g[r].items[n - 1], depth + 1);
    }
  }

  lemma {:induction false} CleanFields(g: Graph, c: Config, r: Ref, n: nat, depth: nat)
    requires Closed(g) && r in g && g[r].Fields? && n <= |g[r].members| && depth < MAX_DEPTH
    ensures AllClean(c, FieldsUpTo(g, c, r, n, depth).out)
    decreases MAX_DEPTH - depth, 0, n
  {
    if n > 0 {
      CleanFields(g, c, r, n - 1, depth);
      var (key, raw) := g[r].members[n - 1];
      if !raw.Undefined? && Shown(c, key) {
        OnlyAllowedKeys(g, c, raw, depth + 1);
        AddedIsClean(c, FieldsUpTo(g, c, r, n - 1, depth), key, Sanitize(g, c, raw, depth + 1));
      }
    }
  }

  // ----- noninterference

  /** The members that are looked into: defined, under a key on the list and not reserved. */
  function Visible(c: Config, members: seq<(string, Value)>, n: nat): seq<(string, Value)>
    requires n <= |members|
  {
    if n == 0 then []
    else
      var (key, raw) := members[n - 1];
      if !raw.Undefined? && key in c.allow && key !in RESERVED then Visible(c, members, n - 1) + [members[n - 1]]
      else Visible(c, members, n - 1)
  }

  /** How many defined members are not. */
  function Hidden(c: Config, members: seq<(string, Value)>, n: nat): nat
    requires n <= |members|
  {
    if n == 0 then 0
    else
      var (key, raw) := members[n - 1];
      Hidden(c, members, n - 1) + if !raw.Undefined? && !(key in c.allow && key !in RESERVED) then 1 else 0
  }

  type Relation = iset<(Ref, Ref)>

  ghost predicate Alike(rel: Relation, v: Value, w: Value) {
    if v.Object? && w.Object? then (v.ref, w.ref) in rel else v == w
  }

  /**
   * Related objects look the same wherever the walk looks: the same shown keys in the same order
   * over alike values, and as many defined members that are not shown, whatever these hold and
   * whatever they are called. Cycles are no matter, and need not even correspond one to one.
   */
  ghost predicate LooksAlike(c: Config, g: Graph, h: Graph, rel: Relation) {
    forall a, b :: (a, b) in rel ==>
      && a in g && b in h
      && match (g[a], h[b])
         case (List(xs), List(ys)) => |xs| == |ys| && forall i :: 0 <= i < |xs| ==> Alike(rel, xs[i], ys[i])
         case (Fields(ms), Fields(ns)) =>
           var xs, ys := Visible(c, ms, |ms|), Visible(c, ns, |ns|);
           && Hidden(c, ms, |ms|) == Hidden(c, ns, |ns|)
           && |xs| == |ys|
           && forall i :: 0 <= i < |xs| ==> xs[i].0 == ys[i].0 && Alike(rel, xs[i].1, ys[i].1)
         case (Failure(n, m, s, x), Failure(n', m', s', y)) =>
           && n == n' && m == m' && s == s'
           && IsFailure(g, x) == IsFailure(h, y) && (IsFailure(g, x) ==> Alike(rel, x, y))
         case _ => false
  }

  /** Filtering an object, told by its visible members alone. */
  function OverVisible(g: Graph, c: Config, members: seq<(string, Value)>, n: nat, depth: nat): Filtered
    requires Closed(g) && n <= |members| && depth < MAX_DEPTH
    requires forall i :: 0 <= i < |members| && members[i].1.Object? ==> members[i].1.ref in g
    decreases n
  {
    if n == 0 then Filtered([], 0, false)
    else
      AddField(OverVisible(g, c, members, n - 1, depth), members[n - 1].0, Sanitize(g, c, members[n - 1].1, depth + 1))
  }

  lemma {:induction false} VisibleAreMembers(c: Config, members: seq<(string, Value)>, n: nat)
    requires n <= |members|
    ensures forall m :: m in Visible(c, members, n) ==> m in members
  {
    if n > 0 { VisibleAreMembers(c, members, n - 1); }
  }

  lemma OverVisibleSnoc(g: Graph, c: Config, xs: seq<(string, Value)>, x: (string, Value), n: nat, depth: nat)
    requires Closed(g) && n <= |xs| && depth < MAX_DEPTH
    requires forall i :: 0 <= i < |xs| && xs[i].1.Object? ==> xs[i].1.ref in g
    requires x.1.Object? ==> x.1.ref in g
    ensures OverVisible(g, c, xs + [x], n, depth) == OverVisible(g, c, xs, n, depth)
    decreases n
  {
    if n > 0 {
      OverVisibleSnoc(g, c, xs, x, n - 1, depth);
      assert (xs + [x])[n - 1] == xs[n - 1];
    }
  }

  /** The hidden members add one each to the dropped count, and nothing else. */
  lemma {:induction false} HiddenOnlyCount(g: Graph, c: Config, r: Ref, n: nat, depth: nat)
    requires Closed(g) && r in g && g[r].Fields? && n <= |g[r].members| && depth < MAX_DEPTH
    ensures var xs := Visible(c, g[r].members, n);
            && (forall i :: 0 <= i < |xs| && xs[i].1.Object? ==> xs[i].1.ref in g)
            && var f, v := FieldsUpTo(g, c, r, n, depth), OverVisible(g, c, xs, |xs|, depth);
               f.out == v.out && f.truncated == v.truncated && f.dropped == v.dropped + Hidden(c, g[r].members, n)
    decreases n
  {
    VisibleAreMembers(c, g[r].members, n);
    if n > 0 {
      HiddenOnlyCount(g, c, r, n - 1, depth);
      var x := g[r].members[n - 1];
      if !x.1.Undefined? && Shown(c, x.0) {
        var xs := Visible(c, g[r].members, n - 1);
        OverVisibleSnoc(g, c, xs, x, |xs|, depth);
      }
    }
  }

  lemma {:induction false} AlikeSanitize(
    c: Config, g: Graph, h: Graph, rel: Relation, v: Value, w: Value, depth: nat)
    requires Closed(g) && Closed(h) && LooksAlike(c, g, h, rel) && depth <= MAX_DEPTH
    requires Alike(rel, v, w) && (v.Object? ==> v.ref in g) && (w.Object? ==> w.ref in h)
    ensures Sanitize(g, c, v, depth) == Sanitize(h, c, w, depth)
    decreases MAX_DEPTH - depth, 3, 0
  {
    if v.Object? && w.Object? {
      assert (v.ref, w.ref) in rel;
      if IsFailure(g, v) {
        AlikeErrors(c, g, h, rel, v.ref, w.ref, depth);
      } else if depth < MAX_DEPTH {
        AlikeObjects(c, g, h, rel, v, w, depth);
      }
    }
  }

  lemma {:induction false} AlikeErrors(
    c: Config, g: Graph, h: Graph, rel: Relation, a: Ref, b: Ref, depth: nat)
    requires Closed(g) && Closed(h) && LooksAlike(c, g, h, rel) && depth <= MAX_DEPTH
    requires (a, b) in rel && g[a].Failure?
    ensures h[b].Failure? && SerializeError(g, c, a, depth) == SerializeError(h, c, b, depth)
    decreases MAX_DEPTH - depth
  {
    if IsFailure(g, g[a].cause) && depth < MAX_DEPTH {
      AlikeErrors(c, g, h, rel, g[a].cause.ref, h[b].cause.ref, depth + 1);
    }
  }

  lemma {:induction false} AlikeObjects(
    c: Config, g: Graph, h: Graph, rel: Relation, v: Value, w: Value, depth: nat)
    requires Closed(g) && Closed(h) && LooksAlike(c, g, h, rel) && depth < MAX_DEPTH
    requires v.Object? && w.Object? && (v.ref, w.ref) in rel && !IsFailure(g, v)
    ensures Sanitize(g, c, v, depth) == Sanitize(h, c, w, depth)
    decreases MAX_DEPTH - depth, 2, 0
  {
    match g[v.ref]
    case List(items) =>
      AlikeLists(c, g, h, rel, v.ref, w.ref, if |items| < MAX_ARRAY_LENGTH then |items| else MAX_ARRAY_LENGTH, depth);
    case Fields(_) => AlikeFields(c, g, h, rel, v.ref, w.ref, depth);
  }

  lemma {:induction false} AlikeLists(
    c: Config, g: Graph, h: Graph, rel: Relation, a: Ref, b: Ref, n: nat, depth: nat)
    requires Closed(g) && Closed(h) && LooksAlike(c, g, h, rel) && depth < MAX_DEPTH
    requires (a, b) in rel && g[a].List? && n <= |g[a].items|
    ensures ListUpTo(g, c, a, n, depth) == ListUpTo(h, c, b, n, depth)
    decreases MAX_DEPTH - depth, 1, n
  {
    if n > 0 {
      AlikeLists(c, g, h, rel, a, b, n - 1, depth);
      AlikeSanitize(c, g, h, rel, g[a].items[n - 1], h[b].items[n - 1], depth + 1);
    }
  }

  lemma {:induction false} AlikeFields(c: Config, g: Graph, h: Graph, rel: Relation, a: Ref, b: Ref, depth: nat)
    requires Closed(g) && Closed(h) && LooksAlike(c, g, h, rel) && depth < MAX_DEPTH
    requires (a, b) in rel && g[a].Fields?
    ensures h[b].Fields?
    ensures FieldsUpTo(g, c, a, |g[a].members|, depth) == FieldsUpTo(h, c, b, |h[b].members|, depth)
    decreases MAX_DEPTH - depth, 1, 0
  {
    HiddenOnlyCount(g, c, a, |g[a].members|, depth);
    HiddenOnlyCount(h, c, b, |h[b].members|, depth);
    var xs, ys := Visible(c, g[a].members, |g[a].members|), Visible(c, h[b].members, |h[b].members|);
    AlikeVisible(c, g, h, rel, xs, ys, |xs|, depth);
  }

  lemma {:induction false} AlikeVisible(
    c: Config, g: Graph, h: Graph, rel: Relation,
    xs: seq<(string, Value)>, ys: seq<(string, Value)>, n: nat, depth: nat)
    requires Closed(g) && Closed(h) && LooksAlike(c, g, h, rel) && depth < MAX_DEPTH
    requires n <= |xs| == |ys|
    requires forall i :: 0 <= i < |xs| && xs[i].1.Object? ==> xs[i].1.ref in g
    requires forall i :: 0 <= i < |ys| && ys[i].1.Object? ==> ys[i].1.ref in h
    requires forall i :: 0 <= i < |xs| ==> xs[i].0 == ys[i].0 && Alike(rel, xs[i].1, ys[i].1)
    ensures OverVisible(g, c, xs, n, depth) == OverVisible(h, c, ys, n, depth)
    decreases MAX_DEPTH - depth, 0, n
  {
    if n > 0 {
      AlikeVisible(c, g, h, rel, xs, ys, n - 1, depth);
      AlikeSanitize(c, g, h, rel, xs[n - 1].1, ys[n - 1].1, depth + 1);
    }
  }

  /** Two calls whose fields look alike write the same fields and the same dropped count. */
  lemma RedactionIsNoninterfering(c: Config, g: Graph, h: Graph, rel: Relation, a: Ref, b: Ref)
    requires Closed(g) && Closed(h) && LooksAlike(c, g, h, rel)
    requires (a, b) in rel && g[a].Fields?
    ensures h[b].Fields? && Redact(g, c, a) == Redact(h, c, b)
  {
    AlikeFields(c, g, h, rel, a, b, 0);
  }

  /** Every output key, at every depth, is allowlisted and not reserved, or is `truncated`. */
  lemma RedactedKeysAreAllowed(g: Graph, c: Config, root: Ref)
    requires Closed(g) && root in g && g[root].Fields?
    ensures Clean(c, OFields(Redact(g, c, root).fields))
  {
    CleanFields(g, c, root, |g[root].members|, 0);
    MarkedIsClean(c, FieldsUpTo(g, c, root, |g[root].members|, 0));
  }

  // ----- what does come out

  /** The members' keys are on the list and not reserved. */
  ghost predicate AllListed(c: Config, members: seq<(string, Value)>) {
    forall i :: 0 <= i < |members| ==> members[i].0 in c.allow && members[i].0 !in RESERVED
  }

  /**
   * `o` is the value itself, an undefined item as null: nothing in it is cut, dropped or under a key
   * not listed, and nothing but an Error lies as deep as the bound.
   */
  ghost predicate Whole(g: Graph, c: Config, v: Value, o: Output, depth: nat)
    decreases o
  {
    match o
    case ONull => v.Null? || v == Date("")
    case OText(s) => v == Text(s) && |s| <= c.maxLength
    case ODate(iso) => v == Date(iso) && iso != ""
    case ONumber(n) => v == Number(n)
    case OBoolean(b) => v == Boolean(b)
    case OInteger(i) => v == BigInt(i) && -0x1F_FFFF_FFFF_FFFF <= i <= 0x1F_FFFF_FFFF_FFFF
    case ODigits(i) => v == BigInt(i) && !(-0x1F_FFFF_FFFF_FFFF <= i <= 0x1F_FFFF_FFFF_FFFF)
    case OList(items) =>
      && v.Object? && v.ref in g && g[v.ref].List? && depth < MAX_DEPTH
      && |items| == |g[v.ref].items| <= MAX_ARRAY_LENGTH
      && forall i :: 0 <= i < |items| ==>
           || Whole(g, c, g[v.ref].items[i], items[i], depth + 1)
           || (g[v.ref].items[i].Undefined? && items[i] == ONull)
    case OFields(fields) =>
      && v.Object? && v.ref in g && g[v.ref].Fields? && depth < MAX_DEPTH
      && |fields| == |g[v.ref].members| && AllListed(c, g[v.ref].members)
      && forall i :: 0 <= i < |fields| ==>
           fields[i].key == g[v.ref].members[i].0 && Whole(g, c, g[v.ref].members[i].1, fields[i].value, depth + 1)
    case OError(name, message, stack, cause, truncated) =>
      && v.Object? && v.ref in g && g[v.ref].Failure? && !truncated && depth <= MAX_DEPTH
      && g[v.ref].name == name && g[v.ref].message == message && |message| <= c.maxLength
      && g[v.ref].stack == stack && (stack.Some? ==> |stack.value| <= c.maxLength)
      && (cause.Some? <==> IsFailure(g, g[v.ref].cause) && depth < MAX_DEPTH)
      && (cause.Some? ==> Whole(g, c, g[v.ref].cause, cause.value, depth + 1))
  }

  /** What fits comes out as it is, at every depth, with nothing dropped and no mark. */
  lemma {:induction false} WhatFitsComesOutWhole(g: Graph, c: Config, v: Value, o: Output, depth: nat)
    requires Closed(g) && (v.Object? ==> v.ref in g) && depth <= MAX_DEPTH
    requires Whole(g, c, v, o, depth)
    ensures Sanitize(g, c, v, depth) == Sanitized(Some(o), 0, false)
    decreases o, 1
  {
    match o
    case OList(items) =>
      WholeItems(g, c, v.ref, o, |items|, depth);
      assert ListUpTo(g, c, v.ref, |items|, depth).out == items;
    case OFields(fields) =>
      WholeFields(g, c, v.ref, o, |fields|, depth);
      assert FieldsUpTo(g, c, v.ref, |fields|, depth).out == fields;
    case OError(_, _, _, cause, _) =>
      if cause.Some? { WhatFitsComesOutWhole(g, c, g[v.ref].cause, cause.value, depth + 1); }
    case _ =>
  }

  ghost predicate AgreeTo<T(!new)>(out: seq<T>, all: seq<T>, n: nat) {
    |out| == n <= |all| && forall i :: 0 <= i < n ==> out[i] == all[i]
  }

  lemma OneMoreItem(g: Graph, c: Config, r: Ref, items: seq<Output>, n: nat, depth: nat)
    requires Closed(g) && r in g && g[r].List? && 0 < n <= |g[r].items| == |items| && depth < MAX_DEPTH
    requires || Sanitize(g, c, g[r].items[n - 1], depth + 1) == Sanitized(Some(items[n - 1]), 0, false)
             || (g[r].items[n - 1].Undefined? && items[n - 1] == ONull)
    requires var l := ListUpTo(g, c, r, n - 1, depth); AgreeTo(l.out, items, n - 1) && l.dropped == 0 && !l.truncated
    ensures var l := ListUpTo(g, c, r, n, depth); AgreeTo(l.out, items, n) && l.dropped == 0 && !l.truncated
  {
  }

  lemma {:induction false} WholeItems(g: Graph, c: Config, r: Ref, o: Output, n: nat, depth: nat)
    requires Closed(g) && r in g && depth < MAX_DEPTH
    requires o.OList? && Whole(g, c, Object(r), o, depth) && n <= |o.items|
    ensures var l := ListUpTo(g, c, r, n, depth); AgreeTo(l.out, o.items, n) && l.dropped == 0 && !l.truncated
    decreases o, 0, n
  {
    if n > 0 {
      WholeItems(g, c, r, o, n - 1, depth);
      ItemIsWhole(g, c, r, o, n - 1, depth);
      if !g[r].items[n - 1].Undefined? {
        WhatFitsComesOutWhole(g, c, g[r].items[n - 1], o.items[n - 1], depth + 1);
      }
      OneMoreItem(g, c, r, o.items, n, depth);
    }
  }

  lemma ItemIsWhole(g: Graph, c: Config, r: Ref, o: Output, i: nat, depth: nat)
    requires r in g && o.OList? && Whole(g, c, Object(r), o, depth) && i < |o.items|
    ensures g[r].List? && |g[r].items| == |o.items|
    ensures || Whole(g, c, g[r].items[i], o.items[i], depth + 1)
            || (g[r].items[i].Undefined? && o.items[i] == ONull)
  {
  }

  lemma OneMoreField(g: Graph, c: Config, r: Ref, fields: seq<Field>, n: nat, depth: nat)
    requires Closed(g) && r in g && g[r].Fields? && 0 < n <= |g[r].members| == |fields| && depth < MAX_DEPTH
    requires g[r].members[n - 1].0 == fields[n - 1].key
    requires fields[n - 1].key in c.allow && fields[n - 1].key !in RESERVED
    requires Sanitize(g, c, g[r].members[n - 1].1, depth + 1) == Sanitized(Some(fields[n - 1].value), 0, false)
    requires var f := FieldsUpTo(g, c, r, n - 1, depth); AgreeTo(f.out, fields, n - 1) && f.dropped == 0 && !f.truncated
    ensures var f := FieldsUpTo(g, c, r, n, depth); AgreeTo(f.out, fields, n) && f.dropped == 0 && !f.truncated
  {
  }

  lemma FieldIsWhole(g: Graph, c: Config, r: Ref, o: Output, i: nat, depth: nat)
    requires r in g && o.OFields? && Whole(g, c, Object(r), o, depth) && i < |o.fields|
    ensures o.fields[i].key == g[r].members[i].0 && o.fields[i].key in c.allow && o.fields[i].key !in RESERVED
    ensures Whole(g, c, g[r].members[i].1, o.fields[i].value, depth + 1)
    ensures |g[r].members| == |o.fields| && o.fields[i].value < o
  {
    assert o.fields[i] in o.fields;
  }

  lemma {:induction false} WholeFields(g: Graph, c: Config, r: Ref, o: Output, n: nat, depth: nat)
    requires Closed(g) && r in g && depth < MAX_DEPTH
    requires o.OFields? && Whole(g, c, Object(r), o, depth) && n <= |o.fields|
    ensures var f := FieldsUpTo(g, c, r, n, depth); AgreeTo(f.out, o.fields, n) && f.dropped == 0 && !f.truncated
    decreases o, 0, n
  {
    if n > 0 {
      WholeFields(g, c, r, o, n - 1, depth);
      FieldIsWhole(g, c, r, o, n - 1, depth);
      var raw, value := g[r].members[n - 1].1, o.fields[n - 1].value;
      WhatFitsComesOutWhole(g, c, raw, value, depth + 1);
      OneMoreField(g, c, r, o.fields, n, depth);
    }
  }

  /** A defined scalar, cut at the limit; a function or symbol has none. */
  ghost predicate CutTo(c: Config, v: Value, o: Output) {
    match v
    case Null => o == ONull
    case Text(s) => o.OText? && o.s <= s && |o.s| == if |s| <= c.maxLength then |s| else c.maxLength
    case Number(n) => o == ONumber(n)
    case Boolean(b) => o == OBoolean(b)
    case BigInt(i) => o == if -0x1F_FFFF_FFFF_FFFF <= i <= 0x1F_FFFF_FFFF_FFFF then OInteger(i) else ODigits(i)
    case Date(iso) => o == if iso == "" then ONull else ODate(iso)
    case _ => false
  }

  /** An Error says so itself when its message or its stack was cut. */
  lemma CutErrorsAreMarked(g: Graph, c: Config, v: Value, depth: nat)
    requires Closed(g) && IsFailure(g, v) && depth <= MAX_DEPTH
    ensures var Failure(name, message, stack, _) := g[v.ref];
            var out := Sanitize(g, c, v, depth).kept;
            && out.Some? && out.value.OError? && out.value.name == name
            && CutTo(c, Text(message), OText(out.value.message))
            && out.value.stack.Some? == stack.Some?
            && (stack.Some? ==> CutTo(c, Text(stack.value), OText(out.value.stack.value)))
            && (out.value.truncated <==> |message| > c.maxLength || (stack.Some? && |stack.value| > c.maxLength))
  {
    ScalarIsCut(c, Text(g[v.ref].message));
    if g[v.ref].stack.Some? { ScalarIsCut(c, Text(g[v.ref].stack.value)); }
  }

  ghost predicate ComesOut(c: Config, key: string, v: Value, fields: seq<Field>) {
    exists j :: 0 <= j < |fields| && fields[j].key == key && CutTo(c, v, fields[j].value)
  }

  lemma ScalarIsCut(c: Config, v: Value)
    requires !v.Object? && !v.Undefined? && !v.Callable?
    ensures Scalar(c, v).kept.Some? && CutTo(c, v, Scalar(c, v).kept.value)
    ensures v.Text? && |v.s| > c.maxLength ==> Scalar(c, v).truncated
  {
  }

  lemma AddedComesOut(c: Config, before: Filtered, key: string, v: Value, item: Sanitized)
    requires item.kept.Some? && CutTo(c, v, item.kept.value)
    ensures ComesOut(c, key, v, AddField(before, key, item).out)
  {
    var out := AddField(before, key, item).out;
    assert out[|before.out|] == Field(key, item.kept.value);
  }

  lemma {:induction false} ListedScalarIsKept(g: Graph, c: Config, r: Ref, n: nat, k: nat, depth: nat)
    requires Closed(g) && r in g && g[r].Fields? && k < n <= |g[r].members| && depth < MAX_DEPTH
    requires g[r].members[k].0 in c.allow && g[r].members[k].0 !in RESERVED
    requires var v := g[r].members[k].1; !v.Object? && !v.Undefined? && !v.Callable?
    ensures var f := FieldsUpTo(g, c, r, n, depth);
            var (key, v) := g[r].members[k];
            ComesOut(c, key, v, f.out) && (v.Text? && |v.s| > c.maxLength ==> f.truncated)
    decreases n
  {
    var before := FieldsUpTo(g, c, r, n - 1, depth);
    var f := FieldsUpTo(g, c, r, n, depth);
    var (key, v) := g[r].members[k];
    if k < n - 1 {
      ListedScalarIsKept(g, c, r, n - 1, k, depth);
      var j :| 0 <= j < |before.out| && before.out[j].key == key && CutTo(c, v, before.out[j].value);
      assert f.out[j] == before.out[j];
    } else {
      ScalarIsCut(c, v);
      AddedComesOut(c, before, key, v, Sanitize(g, c, v, depth + 1));
    }
  }

  /**
   * At every depth short of the bound an allowlisted, unreserved and defined scalar comes out under its
   * key with its own value, cut at the limit, and a cut text leaves the mark.
   */
  lemma ListedScalarsComeOut(g: Graph, c: Config, r: Ref, k: nat, depth: nat)
    requires Closed(g) && r in g && g[r].Fields? && k < |g[r].members| && depth < MAX_DEPTH
    requires g[r].members[k].0 in c.allow && g[r].members[k].0 !in RESERVED
    requires var v := g[r].members[k].1; !v.Object? && !v.Undefined? && !v.Callable?
    ensures var (key, v) := g[r].members[k];
            var out := Sanitize(g, c, Object(r), depth).kept;
            && out.Some? && out.value.OFields? && ComesOut(c, key, v, out.value.fields)
            && (v.Text? && |v.s| > c.maxLength ==> Field("truncated", OBoolean(true)) in out.value.fields)
    ensures var (key, v) := g[r].members[k]; depth == 0 ==> ComesOut(c, key, v, Redact(g, c, r).fields)
  {
    var n := |g[r].members|;
    ListedScalarIsKept(g, c, r, n, k, depth);
    var f := FieldsUpTo(g, c, r, n, depth);
    var (key, v) := g[r].members[k];
    var j :| 0 <= j < |f.out| && f.out[j].key == key && CutTo(c, v, f.out[j].value);
    assert Marked(f)[j] == f.out[j];
  }

  // ----- what is counted as dropped

  /** Everything the walk comes to and leaves out: functions, objects too deep, members under other keys. */
  function LeftOut(g: Graph, c: Config, v: Value, depth: nat): nat
    requires Closed(g) && (v.Object? ==> v.ref in g) && depth <= MAX_DEPTH
    decreases MAX_DEPTH - depth, 1, 0
  {
    if v.Callable? then 1
    else if !v.Object? || IsFailure(g, v) then 0
    else if depth == MAX_DEPTH then 1
    else if g[v.ref].List? then
      LeftOutItems(g, c, v.ref, if |g[v.ref].items| < 256 then |g[v.ref].items| else 256, depth)
    else LeftOutMembers(g, c, v.ref, |g[v.ref].members|, depth)
  }

  function LeftOutItems(g: Graph, c: Config, r: Ref, n: nat, depth: nat): nat
    requires Closed(g) && r in g && g[r].List? && n <= |g[r].items| && depth < MAX_DEPTH
    decreases MAX_DEPTH - depth, 0, n
  {
    if n == 0 then 0 else LeftOutItems(g, c, r, n - 1, depth) + LeftOut(g, c, g[r].items[n - 1], depth + 1)
  }

  function LeftOutMembers(g: Graph, c: Config, r: Ref, n: nat, depth: nat): nat
    requires Closed(g) && r in g && g[r].Fields? && n <= |g[r].members| && depth < MAX_DEPTH
    decreases MAX_DEPTH - depth, 0, n
  {
    if n == 0 then 0
    else
      var (key, v) := g[r].members[n - 1];
      LeftOutMembers(g, c, r, n - 1, depth)
      + if v.Undefined? then 0
        else if key in c.allow && key !in RESERVED then LeftOut(g, c, v, depth + 1)
        else 1
  }

  /** The dropped count is the number of things left out, at every depth. */
  lemma {:induction false} DroppedIsLeftOut(g: Graph, c: Config, v: Value, depth: nat)
    requires Closed(g) && (v.Object? ==> v.ref in g) && depth <= MAX_DEPTH
    ensures Sanitize(g, c, v, depth).dropped == LeftOut(g, c, v, depth)
    decreases MAX_DEPTH - depth, 1, 0
  {
    if v.Object? && !IsFailure(g, v) && depth < MAX_DEPTH {
      match g[v.ref]
      case List(items) => DroppedItems(g, c, v.ref, if |items| < 256 then |items| else 256, depth);
      case Fields(members) => DroppedMembers(g, c, v.ref, |members|, depth);
    }
  }

  lemma {:induction false} DroppedItems(g: Graph, c: Config, r: Ref, n: nat, depth: nat)
    requires Closed(g) && r in g && g[r].List? && n <= |g[r].items| && depth < MAX_DEPTH
    ensures ListUpTo(g, c, r, n, depth).dropped == LeftOutItems(g, c, r, n, depth)
    decreases MAX_DEPTH - depth, 0, n
  {
    if n > 0 {
      DroppedItems(g, c, r, n - 1, depth);
      DroppedIsLeftOut(g, c, g[r].items[n - 1], depth + 1);
    }
  }

  lemma {:induction false} DroppedMembers(g: Graph, c: Config, r: Ref, n: nat, depth: nat)
    requires Closed(g) && r in g && g[r].Fields? && n <= |g[r].members| && depth < MAX_DEPTH
    ensures FieldsUpTo(g, c, r, n, depth).dropped == LeftOutMembers(g, c, r, n, depth)
    decreases MAX_DEPTH - depth, 0, n
  {
    if n > 0 {
      DroppedMembers(g, c, r, n - 1, depth);
      DroppedIsLeftOut(g, c, g[r].members[n - 1].1, depth + 1);
    }
  }

  /** And so of a whole log call. */
  lemma RedactedCountsLeftOut(g: Graph, c: Config, root: Ref)
    requires Closed(g) && root in g && g[root].Fields?
    ensures Redact(g, c, root).dropped == LeftOut(g, c, Object(root), 0)
  {
    DroppedIsLeftOut(g, c, Object(root), 0);
  }
}

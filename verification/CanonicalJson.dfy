/**
 * The canonical text of a JSON value: members in code-unit order at every depth (section 3.2.3
 * of RFC 8785), strings escaped as in section 7 of RFC 8259 with lone surrogates escaped too,
 * undefined members dropped, undefined array items printed as null and holes as nothing.
 *
 * `Meaning` is what a value says once those are forgotten. A parser undoes the printer, so two
 * values print the same text exactly when they mean the same.
 */
module CanonicalJson {
  import opened JsStrings
  import opened Wrappers

  type Text = JsString

  /** Number tokens are the shortest decimal texts JavaScript prints; equal numbers have equal texts. */
  predicate IsNumberUnit(c: CodeUnit) {
    48 <= c <= 57 || c == 45 || c == 43 || c == 46 || c == 101
  }

  predicate IsNumberText(t: Text) {
    t != [] && forall i :: 0 <= i < |t| ==> IsNumberUnit(t[i])
  }

  type NumberText = t: Text | IsNumberText(t) witness [48]

  /**
   * `Undefined` also stands for functions and symbols, `Hole` for an index that a sparse array does not
   * have, `Unrepresentable` for what makes the printer throw.
   */
  datatype Value =
    | Null
    | Bool(b: bool)
    | Num(text: NumberText)
    | Str(s: JsString)
    | Arr(items: seq<Value>)
    | Obj(members: seq<Member>)
    | Undefined
    | Hole
    | Unrepresentable

  /** Members in insertion order. */
  datatype Member = Member(key: JsString, value: Value)

  /** There is nothing to print: at the top that is an error, under a key the member is dropped. */
  predicate Absent(v: Value) {
    v.Undefined? || v.Hole?
  }

  /** An object has one member per key, at every depth; only arrays have holes. */
  ghost predicate WellFormed(v: Value)
    decreases v, 0
  {
    match v
    case Arr(items) => forall i :: 0 <= i < |items| ==> WellFormedItem(items[i])
    case Hole => false
    case Obj(members) =>
      && DistinctKeys(members)
      && forall i :: 0 <= i < |members| ==> WellFormed(members[i].value)
    case _ => true
  }

  ghost predicate WellFormedItem(v: Value)
    decreases v, 1
  {
    v.Hole? || WellFormed(v)
  }

  ghost predicate DistinctKeys(members: seq<Member>) {
    forall i, j :: 0 <= i < j < |members| ==> members[i].key != members[j].key
  }

  // ----- strings

  predicate IsHighSurrogate(c: CodeUnit) { 0xD800 <= c <= 0xDBFF }

  predicate IsLowSurrogate(c: CodeUnit) { 0xDC00 <= c <= 0xDFFF }

  function HexDigit(d: nat): CodeUnit
    requires d < 16
  {
    if d < 10 then 48 + d else 87 + d
  }

  function HexValue(c: CodeUnit): (d: nat)
    ensures d < 16
  {
    if 48 <= c <= 57 then c - 48 else if 97 <= c <= 102 then c - 87 else 0
  }

  function Hex4(c: CodeUnit): Text {
    [HexDigit(c / 4096), HexDigit(c / 256 % 16), HexDigit(c / 16 % 16), HexDigit(c % 16)]
  }

  function UnitOfHex(a: CodeUnit, b: CodeUnit, c: CodeUnit, d: CodeUnit): CodeUnit {
    4096 * HexValue(a) + 256 * HexValue(b) + 16 * HexValue(c) + HexValue(d)
  }

  /** The two-unit escapes: the letter after the backslash, or 0. */
  function ShortEscape(c: CodeUnit): CodeUnit {
    if c == 34 || c == 92 then c
    else if c == 8 then 98
    else if c == 12 then 102
    else if c == 10 then 110
    else if c == 13 then 114
    else if c == 9 then 116
    else 0
  }

  function EscapeUnit(c: CodeUnit): Text {
    if ShortEscape(c) != 0 then [92, ShortEscape(c)]
    else if c < 32 || IsHighSurrogate(c) || IsLowSurrogate(c) then [92, 117] + Hex4(c)
    else [c]
  }

  predicate StartsWithPair(s: JsString) {
    |s| > 1 && IsHighSurrogate(s[0]) && IsLowSurrogate(s[1])
  }

  function Escape(s: JsString): Text {
    if s == [] then []
    else if StartsWithPair(s) then s[..2] + Escape(s[2..])
    else EscapeUnit(s[0]) + Escape(s[1..])
  }

  function Quote(s: JsString): Text {
    [34] + Escape(s) + [34]
  }

  /**
   * The quote, the backslash and five controls have the two-unit escape of JSON; other controls and
   * lone surrogates have six units; every other unit stands for itself.
   */
  lemma EscapedExactly(c: CodeUnit)
    ensures EscapeUnit(34) == [92, 34] && EscapeUnit(92) == [92, 92] && EscapeUnit(8) == [92, 98]
    ensures EscapeUnit(12) == [92, 102] && EscapeUnit(10) == [92, 110] && EscapeUnit(13) == [92, 114]
    ensures EscapeUnit(9) == [92, 116]
    ensures c !in {34, 92, 8, 12, 10, 13, 9} ==>
              if c < 32 || 0xD800 <= c <= 0xDFFF then |EscapeUnit(c)| == 6 && EscapeUnit(c)[..2] == [92, 117]
              else EscapeUnit(c) == [c]
  {
  }

  /** Neither quote, backslash nor control, and a surrogate only as half of a pair. */
  ghost predicate Plain(s: JsString, i: int)
    requires 0 <= i < |s|
  {
    && s[i] >= 32 && s[i] != 34 && s[i] != 92
    && (0xD800 <= s[i] <= 0xDBFF ==> i + 1 < |s| && 0xDC00 <= s[i + 1] <= 0xDFFF)
    && (0xDC00 <= s[i] <= 0xDFFF ==> i > 0 && 0xD800 <= s[i - 1] <= 0xDBFF)
  }

  ghost predicate AllPlain(s: JsString) {
    forall i :: 0 <= i < |s| ==> Plain(s, i)
  }

  lemma PlainRest(s: JsString, n: nat)
    requires AllPlain(s) && n <= |s| && (0 < n < |s| ==> !(0xD800 <= s[n - 1] <= 0xDBFF))
    ensures AllPlain(s[n..])
  {
    var rest := s[n..];
    forall i | 0 <= i < |rest| ensures Plain(rest, i) {
      assert Plain(s, n + i) && rest[i] == s[n + i];
      assert i > 0 ==> rest[i - 1] == s[n + i - 1];
      assert i + 1 < |rest| ==> rest[i + 1] == s[n + i + 1];
      if i == 0 && n > 0 { assert Plain(s, n - 1); }
    }
  }

  /** A string without any of those, whole surrogate pairs included, is printed as it is. */
  lemma {:induction false} PlainTextIsItself(s: JsString)
    requires AllPlain(s)
    ensures Escape(s) == s && Quote(s) == [34] + s + [34]
    decreases |s|
  {
    if s != [] {
      assert Plain(s, 0);
      if StartsWithPair(s) {
        PlainRest(s, 2);
        PlainTextIsItself(s[2..]);
        assert s == s[..2] + s[2..];
      } else {
        EscapedExactly(s[0]);
        PlainRest(s, 1);
        PlainTextIsItself(s[1..]);
        assert s == [s[0]] + s[1..];
      }
    }
  }

  // ----- the printer

  /** The printer visits every item and every member, and throws on what it cannot represent. */
  predicate Throws(v: Value) {
    match v
    case Arr(items) => exists i :: 0 <= i < |items| && Throws(items[i])
    case Obj(members) => exists i :: 0 <= i < |members| && Throws(members[i].value)
    case Unrepresentable => true
    case _ => false
  }

  /** What a value holds down a path of positions. */
  function At(v: Value, path: seq<nat>): Option<Value>
    decreases path
  {
    if path == [] then Some(v)
    else if v.Arr? && path[0] < |v.items| then At(v.items[path[0]], path[1..])
    else if v.Obj? && path[0] < |v.members| then At(v.members[path[0]].value, path[1..])
    else None
  }

  lemma AtStep(v: Value, k: nat, path: seq<nat>)
    ensures At(v, [k] + path) == if v.Arr? && k < |v.items| then At(v.items[k], path)
                                 else if v.Obj? && k < |v.members| then At(v.members[k].value, path)
                                 else None
  {
    assert ([k] + path)[1..] == path;
  }

  lemma {:induction false} ThrowsBelow(v: Value) returns (path: seq<nat>)
    requires Throws(v)
    ensures At(v, path) == Some(Unrepresentable)
    decreases v
  {
    path := [];
    match v
    case Arr(items) =>
      var k: nat :| k < |items| && Throws(items[k]);
      path := ThrowsBelow(items[k]);
      AtStep(v, k, path);
      path := [k] + path;
    case Obj(members) =>
      var k: nat :| k < |members| && Throws(members[k].value);
      assert members[k] in members;
      path := ThrowsBelow(members[k].value);
      AtStep(v, k, path);
      path := [k] + path;
    case _ =>
  }

  lemma {:induction false} ThrowsAbove(v: Value, path: seq<nat>)
    requires At(v, path) == Some(Unrepresentable)
    ensures Throws(v)
    decreases |path|
  {
    if path != [] { ThrowsAbove(if v.Arr? then v.items[path[0]] else v.members[path[0]].value, path[1..]); }
  }

  /** The printer throws exactly on a value that holds somewhere what cannot be represented. */
  lemma ThrowsExactly(v: Value)
    ensures Throws(v) <==> exists path :: At(v, path) == Some(Unrepresentable)
  {
    if Throws(v) { var path := ThrowsBelow(v); }
    if path :| At(v, path) == Some(Unrepresentable) { ThrowsAbove(v, path); }
  }

  function InsertByKey(m: Member, sorted: seq<Member>): (r: seq<Member>)
    ensures multiset(r) == multiset{m} + multiset(sorted)
  {
    if sorted == [] then [m]
    else
      assert sorted == [sorted[0]] + sorted[1..];
      if Less(sorted[0].key, m.key) then [sorted[0]] + InsertByKey(m, sorted[1..]) else [m] + sorted
  }

  function SortByKey(members: seq<Member>): (r: seq<Member>)
    ensures multiset(r) == multiset(members)
  {
    if members == [] then []
    else
      assert members == [members[0]] + members[1..];
      InsertByKey(members[0], SortByKey(members[1..]))
  }

  function Join(parts: seq<Text>): Text {
    if parts == [] then []
    else if |parts| == 1 then parts[0]
    else parts[0] + [44] + Join(parts[1..])
  }

  ghost predicate Within(context: Value, members: seq<Member>) {
    forall i :: 0 <= i < |members| ==> members[i].value < context && !Throws(members[i].value)
  }

  lemma SortedWithin(v: Value)
    requires v.Obj? && !Throws(v)
    ensures Within(v, SortByKey(v.members))
  {
    var sorted := SortByKey(v.members);
    forall i | 0 <= i < |sorted| ensures sorted[i].value < v && !Throws(sorted[i].value) {
      assert sorted[i] in multiset(v.members);
      assert sorted[i] in v.members;
    }
  }

  const NULL: Text := [110, 117, 108, 108]
  const TRUE: Text := [116, 114, 117, 101]
  const FALSE: Text := [102, 97, 108, 115, 101]

  function Print(v: Value): Text
    requires !Throws(v) && !Absent(v)
    decreases v, 1, 0
  {
    match v
    case Null => NULL
    case Bool(b) => if b then TRUE else FALSE
    case Num(text) => text
    case Str(s) => Quote(s)
    case Arr(items) => [91] + Join(PrintItems(v, items)) + [93]
    case Obj(members) => SortedWithin(v); [123] + Join(PrintMembers(v, SortByKey(members))) + [125]
  }

  function PrintItems(ghost context: Value, items: seq<Value>): (texts: seq<Text>)
    requires forall i :: 0 <= i < |items| ==> items[i] < context && !Throws(items[i])
    ensures |texts| == |items|
    decreases context, 0, |items|
  {
    if items == [] then []
    else [PrintItem(items[0])] + PrintItems(context, items[1..])
  }

  /** An undefined item prints as null, and `join` prints a hole as nothing. */
  function PrintItem(v: Value): Text
    requires !Throws(v)
    decreases v, 2, 0
  {
    if v.Hole? then [] else if v.Undefined? then NULL else Print(v)
  }

  function PrintMembers(ghost context: Value, members: seq<Member>): seq<Text>
    requires Within(context, members)
    decreases context, 0, |members|
  {
    if members == [] then []
    else
      var rest := PrintMembers(context, members[1..]);
      if Absent(members[0].value) then rest
      else [Quote(members[0].key) + [58] + Print(members[0].value)] + rest
  }

  datatype Printed = Printed(text: Text) | TypeError

  function Canonical(v: Value): Printed {
    if Throws(v) || Absent(v) then TypeError else Printed(Print(v))
  }

  // ----- meaning

  datatype Json =
    | JNull
    | JBool(b: bool)
    | JNum(text: NumberText)
    | JStr(s: JsString)
    | JArr(items: seq<Json>)
    | JObj(members: map<JsString, Json>)
    | JHole      // of an array

  function Meaning(v: Value): (j: Json)
    requires !Throws(v) && !Absent(v)
    ensures !j.JHole?
    decreases v, 1, 0
  {
    match v
    case Null => JNull
    case Bool(b) => JBool(b)
    case Num(text) => JNum(text)
    case Str(s) => JStr(s)
    case Arr(items) => JArr(ArrayMeaning(ItemsMeaning(v, items)))
    case Obj(members) => JObj(MembersMeaning(v, members))
  }

  function ItemsMeaning(ghost context: Value, items: seq<Value>): (meanings: seq<Json>)
    requires forall i :: 0 <= i < |items| ==> items[i] < context && !Throws(items[i])
    ensures |meanings| == |items|
    decreases context, 0, |items|
  {
    if items == [] then []
    else [ItemMeaning(items[0])] + ItemsMeaning(context, items[1..])
  }

  function ItemMeaning(v: Value): Json
    requires !Throws(v)
    decreases v, 2, 0
  {
    if v.Hole? then JHole else if v.Undefined? then JNull else Meaning(v)
  }

  /** An array of one hole is not told from the empty one. */
  function ArrayMeaning(items: seq<Json>): seq<Json> {
    if items == [JHole] then [] else items
  }

  function MembersMeaning(ghost context: Value, members: seq<Member>): map<JsString, Json>
    requires Within(context, members)
    decreases context, 0, |members|
  {
    if members == [] then map[]
    else
      var rest := MembersMeaning(context, members[1..]);
      if Absent(members[0].value) then rest else rest[members[0].key := Meaning(members[0].value)]
  }

  // ----- the parser

  datatype Parsed<T> = Failed | Parsed(value: T, rest: Text)

  /** The body of a string and its closing quote. */
  function ParseString(t: Text): (r: Parsed<JsString>)
    ensures r.Parsed? ==> |r.rest| < |t|
    decreases |t|
  {
    if t == [] then Failed
    else if t[0] == 34 then Parsed([], t[1..])
    else
      var unit :=
        if t[0] != 92 then Parsed(t[0], t[1..])
        else if |t| >= 6 && t[1] == 117 then Parsed(UnitOfHex(t[2], t[3], t[4], t[5]), t[6..])
        else if |t| < 2 then Failed
        else if t[1] == 34 || t[1] == 92 then Parsed(t[1], t[2..])
        else if t[1] == 98 then Parsed(8, t[2..])
        else if t[1] == 102 then Parsed(12, t[2..])
        else if t[1] == 110 then Parsed(10, t[2..])
        else if t[1] == 114 then Parsed(13, t[2..])
        else if t[1] == 116 then Parsed(9, t[2..])
        else Failed;
      if unit.Failed? then Failed
      else
        var more := ParseString(unit.rest);
        if more.Failed? then Failed else Parsed([unit.value] + more.value, more.rest)
  }

  function NumberLength(t: Text): (n: nat)
    ensures n <= |t|
    ensures forall i :: 0 <= i < n ==> IsNumberUnit(t[i])
  {
    if t == [] || !IsNumberUnit(t[0]) then 0 else 1 + NumberLength(t[1..])
  }

  function ParseValue(t: Text): (r: Parsed<Json>)
    ensures r.Parsed? ==> |r.rest| < |t|
    decreases |t|, 0
  {
    if NULL <= t then Parsed(JNull, t[4..])
    else if TRUE <= t then Parsed(JBool(true), t[4..])
    else if FALSE <= t then Parsed(JBool(false), t[5..])
    else if t == [] then Failed
    else if t[0] == 34 then
      var s := ParseString(t[1..]);
      if s.Failed? then Failed else Parsed(JStr(s.value), s.rest)
    else if t[0] == 91 then
      if |t| > 1 && t[1] == 93 then Parsed(JArr([]), t[2..])
      else
        var items := ParseItems(t[1..]);
        if items.Failed? then Failed else Parsed(JArr(items.value), items.rest)
    else if t[0] == 123 then
      if |t| > 1 && t[1] == 125 then Parsed(JObj(map[]), t[2..])
      else
        var members := ParseMembers(t[1..]);
        if members.Failed? then Failed else Parsed(JObj(members.value), members.rest)
    else
      var n := NumberLength(t);
      if n == 0 then Failed else Parsed(JNum(t[..n]), t[n..])
  }

  /** A value, or nothing before the next comma or the closing bracket. */
  function ParseItem(t: Text): (r: Parsed<Json>)
    ensures r.Parsed? ==> |r.rest| <= |t|
    decreases |t|, 1
  {
    if t != [] && (t[0] == 44 || t[0] == 93) then Parsed(JHole, t) else ParseValue(t)
  }

  /** One or more items and the closing bracket. */
  function ParseItems(t: Text): (r: Parsed<seq<Json>>)
    ensures r.Parsed? ==> |r.rest| < |t|
    decreases |t|, 2
  {
    var item := ParseItem(t);
    if item.Failed? || item.rest == [] then Failed
    else if item.rest[0] == 93 then Parsed([item.value], item.rest[1..])
    else if item.rest[0] != 44 then Failed
    else
      var more := ParseItems(item.rest[1..]);
      if more.Failed? then Failed else Parsed([item.value] + more.value, more.rest)
  }

  /** One or more members and the closing brace. */
  function ParseMembers(t: Text): (r: Parsed<map<JsString, Json>>)
    ensures r.Parsed? ==> |r.rest| < |t|
    decreases |t|, 1
  {
    if t == [] || t[0] != 34 then Failed
    else
      var key := ParseString(t[1..]);
      if key.Failed? || key.rest == [] || key.rest[0] != 58 then Failed
      else
        var item := ParseValue(key.rest[1..]);
        if item.Failed? || item.rest == [] then Failed
        else if item.rest[0] == 125 then Parsed(map[key.value := item.value], item.rest[1..])
        else if item.rest[0] != 44 then Failed
        else
          var more := ParseMembers(item.rest[1..]);
          if more.Failed? then Failed else Parsed(more.value[key.value := item.value], more.rest)
  }

  // ----- the parser undoes the printer

  lemma HexDigitRoundTrip(d: nat)
    requires d < 16
    ensures HexValue(HexDigit(d)) == d
  {
  }

  lemma HexRoundTrip(c: CodeUnit)
    ensures UnitOfHex(Hex4(c)[0], Hex4(c)[1], Hex4(c)[2], Hex4(c)[3]) == c
  {
    var a, b, d := c / 16, c / 256, c / 4096;
    assert b == a / 16 && d == b / 16;
    HexDigitRoundTrip(d);
    HexDigitRoundTrip(b % 16);
    HexDigitRoundTrip(a % 16);
    HexDigitRoundTrip(c % 16);
  }

  /** `s` read in front of what `more` reads. */
  function Before(s: JsString, more: Parsed<JsString>): Parsed<JsString> {
    if more.Failed? then Failed else Parsed(s + more.value, more.rest)
  }

  lemma BeforeAppend(a: JsString, b: JsString, more: Parsed<JsString>)
    ensures Before(a, Before(b, more)) == Before(a + b, more)
  {
    if more.Parsed? { assert a + (b + more.value) == (a + b) + more.value; }
  }

  lemma UnitRoundTrip(c: CodeUnit, rest: Text)
    ensures ParseString(EscapeUnit(c) + rest) == Before([c], ParseString(rest))
  {
    var t := EscapeUnit(c) + rest;
    if ShortEscape(c) != 0 {
      assert t[2..] == rest && t[0] == 92 && t[1] == ShortEscape(c);
    } else if c < 32 || IsHighSurrogate(c) || IsLowSurrogate(c) {
      HexRoundTrip(c);
      assert t[6..] == rest && t[0] == 92 && t[1] == 117;
      assert [t[2], t[3], t[4], t[5]] == Hex4(c);
    } else {
      assert t[1..] == rest && t[0] == c;
    }
  }

  lemma PlainUnitRoundTrip(c: CodeUnit, rest: Text)
    requires c != 34 && c != 92
    ensures ParseString([c] + rest) == Before([c], ParseString(rest))
  {
    assert ([c] + rest)[1..] == rest;
  }

  lemma PairRoundTrip(a: CodeUnit, b: CodeUnit, rest: Text)
    requires a != 34 && a != 92 && b != 34 && b != 92
    ensures ParseString([a, b] + rest) == Before([a, b], ParseString(rest))
  {
    PlainUnitRoundTrip(b, rest);
    PlainUnitRoundTrip(a, [b] + rest);
    BeforeAppend([a], [b], ParseString(rest));
    assert [a, b] + rest == [a] + ([b] + rest);
    assert [a] + [b] == [a, b];
  }

  lemma ClosingQuote(rest: Text)
    ensures ParseString([34] + rest) == Parsed([], rest)
  {
    assert ([34] + rest)[1..] == rest;
  }

  lemma AppendAssociates(a: Text, b: Text, c: Text)
    ensures (a + b) + c == a + (b + c)
  {
  }

  lemma EscapeStep(s: JsString, tail: Text)
    requires s != []
    ensures StartsWithPair(s) ==> Escape(s) + tail == [s[0], s[1]] + (Escape(s[2..]) + tail)
    ensures !StartsWithPair(s) ==> Escape(s) + tail == EscapeUnit(s[0]) + (Escape(s[1..]) + tail)
  {
    if StartsWithPair(s) {
      assert s[..2] == [s[0], s[1]];
      AppendAssociates(s[..2], Escape(s[2..]), tail);
    } else {
      AppendAssociates(EscapeUnit(s[0]), Escape(s[1..]), tail);
    }
  }

  lemma {:induction false} EscapedRoundTrip(s: JsString, tail: Text)
    ensures ParseString(Escape(s) + tail) == Before(s, ParseString(tail))
    decreases |s|
  {
    if s == [] {
      assert Escape(s) + tail == tail;
      if ParseString(tail).Parsed? { assert s + ParseString(tail).value == ParseString(tail).value; }
    } else if StartsWithPair(s) {
      EscapedRoundTrip(s[2..], tail);
      PairRoundTrip(s[0], s[1], Escape(s[2..]) + tail);
      BeforeAppend([s[0], s[1]], s[2..], ParseString(tail));
      assert s == [s[0], s[1]] + s[2..];
      EscapeStep(s, tail);
    } else {
      EscapedRoundTrip(s[1..], tail);
      UnitRoundTrip(s[0], Escape(s[1..]) + tail);
      BeforeAppend([s[0]], s[1..], ParseString(tail));
      assert s == [s[0]] + s[1..];
      EscapeStep(s, tail);
    }
  }

  lemma StringRoundTrip(s: JsString, rest: Text)
    ensures ParseString(Escape(s) + [34] + rest) == Parsed(s, rest)
  {
    ClosingQuote(rest);
    EscapedRoundTrip(s, [34] + rest);
    assert Escape(s) + ([34] + rest) == Escape(s) + [34] + rest;
    assert s + [] == s;
  }

  /** What may follow a value without becoming part of it. */
  predicate Delimited(rest: Text) {
    rest == [] || !IsNumberUnit(rest[0])
  }

  lemma {:induction false} NumberRoundTrip(text: Text, rest: Text)
    requires forall i :: 0 <= i < |text| ==> IsNumberUnit(text[i])
    requires Delimited(rest)
    ensures NumberLength(text + rest) == |text|
  {
    if text == [] {
      assert text + rest == rest;
    } else {
      NumberRoundTrip(text[1..], rest);
      assert (text + rest)[1..] == text[1..] + rest;
    }
  }

  lemma PrintStarts(v: Value)
    requires !Throws(v) && !Absent(v)
    ensures Print(v) != [] && Print(v)[0] != 93 && Print(v)[0] != 44
  {
  }

  lemma LiteralsRead(rest: Text)
    ensures ParseValue(NULL + rest) == Parsed(JNull, rest)
    ensures ParseValue(TRUE + rest) == Parsed(JBool(true), rest)
    ensures ParseValue(FALSE + rest) == Parsed(JBool(false), rest)
  {
    assert (NULL + rest)[4..] == rest;
    assert (TRUE + rest)[4..] == rest && (TRUE + rest)[0] == 116;
    assert (FALSE + rest)[5..] == rest && (FALSE + rest)[0] == 102;
  }

  lemma NumberReads(text: NumberText, rest: Text)
    requires Delimited(rest)
    ensures ParseValue(text + rest) == Parsed(JNum(text), rest)
  {
    NumberRoundTrip(text, rest);
    assert (text + rest)[0] == text[0];
  }

  lemma StringReads(s: JsString, rest: Text)
    ensures ParseValue(Quote(s) + rest) == Parsed(JStr(s), rest)
  {
    StringRoundTrip(s, rest);
    Bracketed(34, Escape(s), 34, rest);
    var inner := Escape(s) + [34] + rest;
    assert ([34] + inner)[1..] == inner;
  }

  lemma EmptyReads(rest: Text)
    ensures ParseValue([91, 93] + rest) == Parsed(JArr([]), rest)
    ensures ParseValue([123, 125] + rest) == Parsed(JObj(map[]), rest)
  {
    var t, u := [91, 93] + rest, [123, 125] + rest;
    NotALiteral(t);
    NotALiteral(u);
    assert t[0] == 91 && t[1] == 93 && t[2..] == rest;
    assert u[0] == 123 && u[1] == 125 && u[2..] == rest;
  }

  lemma Bracketed(open: CodeUnit, inside: Text, close: CodeUnit, rest: Text)
    ensures ([open] + inside + [close]) + rest == [open] + (inside + [close] + rest)
  {
  }

  lemma {:induction false} ValueRoundTrip(v: Value, rest: Text)
    requires WellFormed(v) && !Throws(v) && !Absent(v) && Delimited(rest)
    ensures ParseValue(Print(v) + rest) == Parsed(Meaning(v), rest)
    decreases v, 2
  {
    match v
    case Null => LiteralsRead(rest);
    case Bool(b) => LiteralsRead(rest);
    case Num(text) => NumberReads(text, rest);
    case Str(s) => StringReads(s, rest);
    case Arr(items) => ArrayRoundTrip(v, rest);
    case Obj(members) => ObjectRoundTrip(v, rest);
  }

  lemma {:induction false} ArrayRoundTrip(v: Value, rest: Text)
    requires v.Arr? && WellFormed(v) && !Throws(v)
    ensures ParseValue(Print(v) + rest) == Parsed(Meaning(v), rest)
    decreases v, 1
  {
    if v.items == [] || v.items == [Hole] {
      EmptyReads(rest);
      EmptyArray(v);
    } else {
      var texts := PrintItems(v, v.items);
      ItemsRoundTrip(v, v.items, rest);
      ItemsStart(v, v.items);
      ArrayStep(Join(texts) + [93] + rest);
      Bracketed(91, Join(texts), 93, rest);
      ItemsMeaningIsArray(v);
    }
  }

  lemma EmptyArray(v: Value)
    requires v.Arr? && (v.items == [] || v.items == [Hole])
    ensures !Throws(v) && Print(v) == [91, 93] && Meaning(v) == JArr([])
  {
    if v.items != [] {
      assert v.items[1..] == [] && v.items[0] == Hole;
      assert PrintItems(v, v.items) == [[]];
      assert ItemsMeaning(v, v.items) == [JHole];
    }
  }

  lemma ItemsMeaningIsArray(v: Value)
    requires v.Arr? && !Throws(v) && v.items != [Hole]
    ensures Meaning(v) == JArr(ItemsMeaning(v, v.items))
  {
    if |v.items| == 1 {
      assert v.items == [v.items[0]];
      assert ItemsMeaning(v, v.items)[0] == ItemMeaning(v.items[0]);
    }
  }

  lemma {:induction false} ObjectRoundTrip(v: Value, rest: Text)
    requires v.Obj? && WellFormed(v) && !Throws(v)
    ensures ParseValue(Print(v) + rest) == Parsed(Meaning(v), rest)
    decreases v, 1
  {
    SortedWithin(v);
    var sorted := SortByKey(v.members);
    SortedMeaning(v);
    var texts := PrintMembers(v, sorted);
    if texts == [] {
      NothingPrinted(v, sorted);
      EmptyReads(rest);
      assert Print(v) == [123, 125];
    } else {
      SortedWellFormed(v);
      MembersRoundTrip(v, sorted, rest);
      MembersStart(v, sorted);
      BracedReads(Join(texts), MembersMeaning(v, sorted), rest);
    }
  }

  lemma NotALiteral(t: Text)
    requires t != [] && t[0] != 110 && t[0] != 116 && t[0] != 102
    ensures !(NULL <= t) && !(TRUE <= t) && !(FALSE <= t)
  {
    assert NULL[0] == 110 && TRUE[0] == 116 && FALSE[0] == 102;
  }

  lemma ArrayStep(inner: Text)
    requires inner != [] && inner[0] != 93
    ensures ParseValue([91] + inner) ==
            var items := ParseItems(inner);
            if items.Failed? then Failed else Parsed(JArr(items.value), items.rest)
  {
    NotALiteral([91] + inner);
    assert ([91] + inner)[1..] == inner;
  }

  lemma ObjectStep(inner: Text)
    requires inner != [] && inner[0] != 125
    ensures ParseValue([123] + inner) ==
            var members := ParseMembers(inner);
            if members.Failed? then Failed else Parsed(JObj(members.value), members.rest)
  {
    NotALiteral([123] + inner);
    assert ([123] + inner)[1..] == inner;
  }

  lemma BracedReads(inside: Text, m: map<JsString, Json>, rest: Text)
    requires inside != [] && inside[0] == 34
    requires ParseMembers(inside + [125] + rest) == Parsed(m, rest)
    ensures ParseValue([123] + inside + [125] + rest) == Parsed(JObj(m), rest)
  {
    Bracketed(123, inside, 125, rest);
    ObjectStep(inside + [125] + rest);
  }

  lemma ItemsStart(context: Value, items: seq<Value>)
    requires items != [] && items != [Hole]
    requires forall i :: 0 <= i < |items| ==> items[i] < context && !Throws(items[i])
    ensures Join(PrintItems(context, items)) != [] && Join(PrintItems(context, items))[0] != 93
  {
    if !Absent(items[0]) { PrintStarts(items[0]); }
    if |items| == 1 { assert items == [items[0]]; }
  }

  lemma {:induction false} MembersStart(context: Value, members: seq<Member>)
    requires Within(context, members) && PrintMembers(context, members) != []
    ensures Join(PrintMembers(context, members)) != [] && Join(PrintMembers(context, members))[0] == 34
  {
    if Absent(members[0].value) { MembersStart(context, members[1..]); }
  }

  lemma {:induction false} NothingPrinted(context: Value, members: seq<Member>)
    requires Within(context, members) && PrintMembers(context, members) == []
    ensures MembersMeaning(context, members) == map[]
  {
    if members != [] { NothingPrinted(context, members[1..]); }
  }

  /** What follows the first of several joined texts, up to the closing unit and beyond. */
  function AfterFirst(texts: seq<Text>, close: CodeUnit, rest: Text): (tail: Text)
    requires texts != []
    ensures tail != []
  {
    if |texts| == 1 then [close] + rest else [44] + (Join(texts[1..]) + [close] + rest)
  }

  lemma Regroup(first: Text, comma: CodeUnit, more: Text, close: CodeUnit, rest: Text)
    ensures first + [comma] + more + [close] + rest == first + ([comma] + (more + [close] + rest))
  {
  }

  lemma JoinSplit(texts: seq<Text>, close: CodeUnit, rest: Text)
    requires texts != []
    ensures var tail := AfterFirst(texts, close, rest);
            && Join(texts) + [close] + rest == texts[0] + tail
            && tail[0] == (if |texts| == 1 then close else 44)
            && tail[1..] == (if |texts| == 1 then rest else Join(texts[1..]) + [close] + rest)
  {
    if |texts| > 1 { Regroup(texts[0], 44, Join(texts[1..]), close, rest); }
  }

  lemma LastItem(item: Json, t: Text, tail: Text)
    requires tail != [] && tail[0] == 93 && ParseItem(t) == Parsed(item, tail)
    ensures ParseItems(t) == Parsed([item], tail[1..])
  {
  }

  lemma OneMoreItem(item: Json, t: Text, tail: Text)
    requires tail != [] && tail[0] == 44 && ParseItem(t) == Parsed(item, tail) && ParseItems(tail[1..]).Parsed?
    ensures ParseItems(t) == Parsed([item] + ParseItems(tail[1..]).value, ParseItems(tail[1..]).rest)
  {
  }

  lemma {:induction false} ItemRoundTrip(v: Value, tail: Text)
    requires !Throws(v) && WellFormedItem(v) && tail != [] && (tail[0] == 44 || tail[0] == 93)
    ensures ParseItem(PrintItem(v) + tail) == Parsed(ItemMeaning(v), tail)
    decreases v, 3
  {
    if v.Hole? {
      assert PrintItem(v) + tail == tail;
    } else if v.Undefined? {
      LiteralsRead(tail);
    } else {
      PrintStarts(v);
      ValueRoundTrip(v, tail);
    }
  }

  lemma {:induction false} ItemsRoundTrip(context: Value, items: seq<Value>, rest: Text)
    requires items != []
    requires forall i :: 0 <= i < |items| ==> items[i] < context && !Throws(items[i]) && WellFormedItem(items[i])
    ensures ParseItems(Join(PrintItems(context, items)) + [93] + rest) == Parsed(ItemsMeaning(context, items), rest)
    decreases context, 0, |items|
  {
    var texts := PrintItems(context, items);
    var item := ItemMeaning(items[0]);
    var tail := AfterFirst(texts, 93, rest);
    JoinSplit(texts, 93, rest);
    ItemRoundTrip(items[0], tail);
    if |items| == 1 {
      LastItem(item, texts[0] + tail, tail);
      assert ItemsMeaning(context, items) == [item];
    } else {
      ItemsRoundTrip(context, items[1..], rest);
      assert texts[1..] == PrintItems(context, items[1..]);
      OneMoreItem(item, texts[0] + tail, tail);
    }
  }

  function MemberText(key: JsString, text: Text): Text {
    Quote(key) + [58] + text
  }

  lemma QuotedThenText(escaped: Text, text: Text, tail: Text)
    ensures ([34] + escaped + [34] + [58] + text + tail)[1..] == escaped + [34] + ([58] + (text + tail))
  {
  }

  lemma MemberReads(key: JsString, text: Text, tail: Text)
    ensures var t := MemberText(key, text) + tail;
            && t != [] && t[0] == 34
            && ParseString(t[1..]) == Parsed(key, [58] + (text + tail))
            && ([58] + (text + tail))[1..] == text + tail
  {
    var t := MemberText(key, text) + tail;
    StringRoundTrip(key, [58] + (text + tail));
    QuotedThenText(Escape(key), text, tail);
  }

  lemma LastMember(key: JsString, item: Json, t: Text, after: Text, tail: Text)
    requires t != [] && t[0] == 34 && ParseString(t[1..]) == Parsed(key, after)
    requires after != [] && after[0] == 58 && ParseValue(after[1..]) == Parsed(item, tail)
    requires tail != [] && tail[0] == 125
    ensures ParseMembers(t) == Parsed(map[key := item], tail[1..])
  {
  }

  lemma OneMoreMember(key: JsString, item: Json, t: Text, after: Text, tail: Text)
    requires t != [] && t[0] == 34 && ParseString(t[1..]) == Parsed(key, after)
    requires after != [] && after[0] == 58 && ParseValue(after[1..]) == Parsed(item, tail)
    requires tail != [] && tail[0] == 44 && ParseMembers(tail[1..]).Parsed?
    ensures ParseMembers(t) == Parsed(ParseMembers(tail[1..]).value[key := item], ParseMembers(tail[1..]).rest)
  {
  }

  lemma {:induction false} MembersRoundTrip(context: Value, members: seq<Member>, rest: Text)
    requires Within(context, members) && PrintMembers(context, members) != []
    requires forall i :: 0 <= i < |members| ==> WellFormed(members[i].value)
    ensures ParseMembers(Join(PrintMembers(context, members)) + [125] + rest) ==
            Parsed(MembersMeaning(context, members), rest)
    decreases context, 0, |members|
  {
    if Absent(members[0].value) {
      MembersRoundTrip(context, members[1..], rest);
    } else {
      var Member(key, value) := members[0];
      var texts := PrintMembers(context, members);
      var more := PrintMembers(context, members[1..]);
      assert texts[0] == MemberText(key, Print(value)) && texts[1..] == more;
      var tail := AfterFirst(texts, 125, rest);
      JoinSplit(texts, 125, rest);
      ValueRoundTrip(value, tail);
      MemberReads(key, Print(value), tail);
      var after := [58] + (Print(value) + tail);
      if more == [] {
        NothingPrinted(context, members[1..]);
        LastMember(key, Meaning(value), texts[0] + tail, after, tail);
      } else {
        MembersRoundTrip(context, members[1..], rest);
        OneMoreMember(key, Meaning(value), texts[0] + tail, after, tail);
      }
    }
  }

  // ----- sorting members keeps the meaning

  ghost predicate HasDefined(members: seq<Member>, k: JsString) {
    exists i :: 0 <= i < |members| && members[i].key == k && !Absent(members[i].value)
  }

  lemma HasDefinedTail(members: seq<Member>, k: JsString)
    requires members != [] && HasDefined(members[1..], k)
    ensures HasDefined(members, k)
  {
    var rest := members[1..];
    var i :| 0 <= i < |rest| && rest[i].key == k && !Absent(rest[i].value);
    assert members[i + 1] == rest[i];
  }

  lemma {:induction false} MembersMeaningAt(context: Value, members: seq<Member>)
    requires Within(context, members) && DistinctKeys(members)
    ensures var m := MembersMeaning(context, members);
            && (forall i :: 0 <= i < |members| && !Absent(members[i].value) ==>
                  members[i].key in m && m[members[i].key] == Meaning(members[i].value))
            && forall k :: k in m ==> HasDefined(members, k)
    decreases |members|
  {
    if members != [] {
      var rest := members[1..];
      MembersMeaningAt(context, rest);
      var m, m1 := MembersMeaning(context, members), MembersMeaning(context, rest);
      forall k | k in m ensures HasDefined(members, k) {
        if k in m1 { HasDefinedTail(members, k); }
      }
      forall i | 0 <= i < |members| && !Absent(members[i].value)
        ensures members[i].key in m && m[members[i].key] == Meaning(members[i].value)
      {
        if i > 0 { assert rest[i - 1] == members[i]; }
      }
    }
  }

  lemma {:induction false} InsertKeepsDistinct(m: Member, sorted: seq<Member>)
    requires DistinctKeys(sorted)
    requires forall i :: 0 <= i < |sorted| ==> sorted[i].key != m.key
    ensures DistinctKeys(InsertByKey(m, sorted))
  {
    if sorted != [] && Less(sorted[0].key, m.key) {
      var rest := InsertByKey(m, sorted[1..]);
      InsertKeepsDistinct(m, sorted[1..]);
      forall x | x in rest ensures x.key != sorted[0].key {
        assert x in multiset(rest);
        assert x == m || x in multiset(sorted[1..]);
      }
    }
  }

  lemma {:induction false} SortKeepsDistinct(members: seq<Member>)
    requires DistinctKeys(members)
    ensures DistinctKeys(SortByKey(members))
  {
    if members != [] {
      var sorted := SortByKey(members[1..]);
      SortKeepsDistinct(members[1..]);
      forall i | 0 <= i < |sorted| ensures sorted[i].key != members[0].key {
        assert sorted[i] in multiset(members[1..]);
        assert sorted[i] in members[1..];
      }
      InsertKeepsDistinct(members[0], sorted);
    }
  }

  lemma SortedWellFormed(v: Value)
    requires v.Obj? && WellFormed(v)
    ensures var sorted := SortByKey(v.members);
            DistinctKeys(sorted) && forall i :: 0 <= i < |sorted| ==> WellFormed(sorted[i].value)
  {
    var sorted := SortByKey(v.members);
    SortKeepsDistinct(v.members);
    forall i | 0 <= i < |sorted| ensures WellFormed(sorted[i].value) {
      assert sorted[i] in multiset(v.members);
      assert sorted[i] in v.members;
    }
  }

  lemma SameMembersSameMeaning(context: Value, a: seq<Member>, b: seq<Member>)
    requires Within(context, a) && DistinctKeys(a) && Within(context, b) && DistinctKeys(b)
    requires multiset(a) == multiset(b)
    ensures MembersMeaning(context, a) == MembersMeaning(context, b)
  {
    MembersMeaningAt(context, a);
    MembersMeaningAt(context, b);
    MeaningWithin(context, a, b);
    MeaningWithin(context, b, a);
  }

  lemma MeaningWithin(context: Value, a: seq<Member>, b: seq<Member>)
    requires Within(context, a) && DistinctKeys(a) && Within(context, b) && DistinctKeys(b)
    requires multiset(a) == multiset(b)
    ensures var m, n := MembersMeaning(context, a), MembersMeaning(context, b);
            forall k :: k in m ==> k in n && n[k] == m[k]
  {
    MembersMeaningAt(context, a);
    MembersMeaningAt(context, b);
    var m := MembersMeaning(context, a);
    forall k | k in m ensures k in MembersMeaning(context, b) && MembersMeaning(context, b)[k] == m[k] {
      assert HasDefined(a, k);
      var i :| 0 <= i < |a| && a[i].key == k && !Absent(a[i].value);
      assert a[i] in multiset(b);
      assert a[i] in b;
    }
  }

  lemma SortedMeaning(v: Value)
    requires v.Obj? && WellFormed(v) && !Throws(v)
    ensures Within(v, SortByKey(v.members))
    ensures MembersMeaning(v, SortByKey(v.members)) == MembersMeaning(v, v.members)
  {
    SortedWithin(v);
    SortedWellFormed(v);
    SameMembersSameMeaning(v, SortByKey(v.members), v.members);
  }

  // ----- equal meanings print the same text

  ghost predicate SortedKeys(members: seq<Member>) {
    forall i, j :: 0 <= i < j < |members| ==> Less(members[i].key, members[j].key)
  }

  lemma InsertedMember(m: Member, sorted: seq<Member>, x: Member)
    requires x in InsertByKey(m, sorted)
    ensures x == m || x in sorted
  {
    assert x in multiset(InsertByKey(m, sorted));
    assert x == m || x in multiset(sorted);
  }

  lemma {:induction false} InsertKeepsSorted(m: Member, sorted: seq<Member>)
    requires SortedKeys(sorted)
    requires forall i :: 0 <= i < |sorted| ==> sorted[i].key != m.key
    ensures SortedKeys(InsertByKey(m, sorted))
  {
    if sorted != [] {
      LessTotal(sorted[0].key, m.key);
      if Less(sorted[0].key, m.key) {
        InsertKeepsSorted(m, sorted[1..]);
        forall x | x in InsertByKey(m, sorted[1..]) ensures Less(sorted[0].key, x.key) {
          InsertedMember(m, sorted[1..], x);
        }
      } else {
        forall i | 0 <= i < |sorted| ensures Less(m.key, sorted[i].key) {
          if i > 0 { LessTransitive(m.key, sorted[0].key, sorted[i].key); }
        }
      }
    }
  }

  lemma {:induction false} SortSorts(members: seq<Member>)
    requires DistinctKeys(members)
    ensures SortedKeys(SortByKey(members))
  {
    if members != [] {
      var sorted := SortByKey(members[1..]);
      SortSorts(members[1..]);
      forall i | 0 <= i < |sorted| ensures sorted[i].key != members[0].key {
        assert sorted[i] in multiset(members[1..]);
        assert sorted[i] in members[1..];
      }
      InsertKeepsSorted(members[0], sorted);
    }
  }

  lemma SortedDistinct(members: seq<Member>)
    requires SortedKeys(members)
    ensures DistinctKeys(members)
  {
    forall i, j | 0 <= i < j < |members| ensures members[i].key != members[j].key {
      LessAsymmetric(members[i].key, members[j].key);
    }
  }

  /** The first member is not among the meanings of the later ones. */
  lemma FirstKeyNotLater(context: Value, members: seq<Member>)
    requires Within(context, members) && members != [] && SortedKeys(members)
    ensures members[0].key !in MembersMeaning(context, members[1..])
  {
    SortedDistinct(members);
    MembersMeaningAt(context, members[1..]);
    assert !HasDefined(members[1..], members[0].key);
  }

  /** With the same keys defined, the least defined key comes first in both. */
  lemma SameFirstKey(v: Value, a: seq<Member>, w: Value, b: seq<Member>)
    requires Within(v, a) && Within(w, b) && SortedKeys(a) && SortedKeys(b)
    requires a != [] && b != [] && !Absent(a[0].value) && !Absent(b[0].value)
    requires MembersMeaning(v, a).Keys == MembersMeaning(w, b).Keys
    ensures a[0].key == b[0].key
  {
    SortedDistinct(a);
    SortedDistinct(b);
    MembersMeaningAt(v, a);
    MembersMeaningAt(w, b);
    LeastKey(v, a, b[0].key);
    LeastKey(w, b, a[0].key);
    if a[0].key != b[0].key { LessAsymmetric(a[0].key, b[0].key); }
  }

  lemma LeastKey(v: Value, a: seq<Member>, k: JsString)
    requires Within(v, a) && SortedKeys(a) && DistinctKeys(a) && a != [] && k in MembersMeaning(v, a)
    ensures k == a[0].key || Less(a[0].key, k)
  {
    MembersMeaningAt(v, a);
    assert HasDefined(a, k);
  }

  lemma {:induction false} SameMeaningSameText(v: Value, w: Value)
    requires WellFormed(v) && !Throws(v) && !Absent(v)
    requires WellFormed(w) && !Throws(w) && !Absent(w)
    requires Meaning(v) == Meaning(w)
    ensures Print(v) == Print(w)
    decreases v
  {
    match v
    case Arr(items) =>
      if items == [Hole] || w.items == [Hole] {
        OnlyEmpty(v, w);
      } else {
        ItemsMeaningIsArray(v);
        ItemsMeaningIsArray(w);
        SameItemsSameTexts(v, items, w, w.items);
      }
    case Obj(members) =>
      SortedMeaning(v);
      SortedMeaning(w);
      SortSorts(v.members);
      SortSorts(w.members);
      SortedWellFormed(v);
      SortedWellFormed(w);
      SameMembersSameTexts(v, SortByKey(members), w, SortByKey(w.members));
    case _ =>
  }

  /** What means the same as an array of one hole is that or the empty array. */
  lemma OnlyEmpty(v: Value, w: Value)
    requires v.Arr? && !Throws(v) && w.Arr? && !Throws(w) && Meaning(v) == Meaning(w)
    requires v.items == [Hole] || w.items == [Hole]
    ensures Print(v) == Print(w) == [91, 93]
  {
    var u := if v.items == [Hole] then w else v;
    EmptyArray(if v.items == [Hole] then v else w);
    if u.items != [Hole] {
      ItemsMeaningIsArray(u);
      assert |u.items| == 0;
    }
    EmptyArray(u);
  }

  lemma {:induction false} SameItemsSameTexts(v: Value, a: seq<Value>, w: Value, b: seq<Value>)
    requires forall i :: 0 <= i < |a| ==> a[i] < v && !Throws(a[i]) && WellFormedItem(a[i])
    requires forall i :: 0 <= i < |b| ==> b[i] < w && !Throws(b[i]) && WellFormedItem(b[i])
    requires ItemsMeaning(v, a) == ItemsMeaning(w, b)
    ensures PrintItems(v, a) == PrintItems(w, b)
    decreases v, |a|
  {
    assert |a| == |b|;
    if a != [] {
      var m, n := ItemsMeaning(v, a), ItemsMeaning(w, b);
      assert m[0] == n[0] && m[1..] == ItemsMeaning(v, a[1..]) && n[1..] == ItemsMeaning(w, b[1..]);
      SameItemsSameTexts(v, a[1..], w, b[1..]);
      SameItemText(v, a[0], b[0]);
    }
  }

  lemma {:induction false} SameItemText(v: Value, a: Value, b: Value)
    requires a < v && !Throws(a) && WellFormedItem(a) && !Throws(b) && WellFormedItem(b)
    requires ItemMeaning(a) == ItemMeaning(b)
    ensures PrintItem(a) == PrintItem(b)
    decreases v, 0
  {
    if !Absent(a) && !Absent(b) { SameMeaningSameText(a, b); }
  }

  lemma {:induction false} SameMembersSameTexts(v: Value, a: seq<Member>, w: Value, b: seq<Member>)
    requires Within(v, a) && SortedKeys(a) && forall i :: 0 <= i < |a| ==> WellFormed(a[i].value)
    requires Within(w, b) && SortedKeys(b) && forall i :: 0 <= i < |b| ==> WellFormed(b[i].value)
    requires MembersMeaning(v, a) == MembersMeaning(w, b)
    ensures PrintMembers(v, a) == PrintMembers(w, b)
    decreases v, |a| + |b|
  {
    if a != [] && Absent(a[0].value) {
      SameMembersSameTexts(v, a[1..], w, b);
    } else if b != [] && Absent(b[0].value) {
      SameMembersSameTexts(v, a, w, b[1..]);
    } else if a != [] && b != [] {
      SameHeads(v, a, w, b);
      SameMeaningSameText(a[0].value, b[0].value);
      SameMembersSameTexts(v, a[1..], w, b[1..]);
      FirstMemberText(v, a);
      FirstMemberText(w, b);
    } else if a != [] {
      RestMeaning(v, a);
    } else if b != [] {
      RestMeaning(w, b);
    }
  }

  lemma FirstMemberText(v: Value, a: seq<Member>)
    requires Within(v, a) && a != [] && !Absent(a[0].value)
    ensures PrintMembers(v, a) == [Quote(a[0].key) + [58] + Print(a[0].value)] + PrintMembers(v, a[1..])
  {
  }

  lemma SameHeads(v: Value, a: seq<Member>, w: Value, b: seq<Member>)
    requires Within(v, a) && SortedKeys(a) && a != [] && !Absent(a[0].value)
    requires Within(w, b) && SortedKeys(b) && b != [] && !Absent(b[0].value)
    requires MembersMeaning(v, a) == MembersMeaning(w, b)
    ensures a[0].key == b[0].key && Meaning(a[0].value) == Meaning(b[0].value)
    ensures MembersMeaning(v, a[1..]) == MembersMeaning(w, b[1..])
  {
    SameFirstKey(v, a, w, b);
    RestMeaning(v, a);
    RestMeaning(w, b);
  }

  lemma RestMeaning(v: Value, a: seq<Member>)
    requires Within(v, a) && SortedKeys(a) && a != [] && !Absent(a[0].value)
    ensures var m := MembersMeaning(v, a);
            && a[0].key in m && m[a[0].key] == Meaning(a[0].value)
            && MembersMeaning(v, a[1..]) == m - {a[0].key}
  {
    FirstKeyNotLater(v, a);
  }

  /** Two values print the same text exactly when they mean the same. */
  lemma CanonicalIsInjectiveUpToMeaning(v: Value, w: Value)
    requires WellFormed(v) && WellFormed(w)
    requires Canonical(v).Printed? && Canonical(w).Printed?
    ensures Canonical(v) == Canonical(w) <==> Meaning(v) == Meaning(w)
    ensures ParseValue(Canonical(v).text) == Parsed(Meaning(v), [])
  {
    ValueRoundTrip(v, []);
    ValueRoundTrip(w, []);
    assert Print(v) + [] == Print(v) && Print(w) + [] == Print(w);
    if Meaning(v) == Meaning(w) { SameMeaningSameText(v, w); }
  }

  // ----- what a request is identified by

  /** `verb` is the method, already in upper case; an absent actor or body counts as null. */
  datatype Fingerprint = Fingerprint(actor: Value, body: Value, verb: JsString, path: JsString)

  const ACTOR: JsString := [97, 99, 116, 111, 114]
  const BODY: JsString := [98, 111, 100, 121]
  const METHOD: JsString := [109, 101, 116, 104, 111, 100]
  const PATH: JsString := [112, 97, 116, 104]

  function OrNull(v: Value): Value {
    if v.Undefined? then Null else v
  }

  /** The text `hashRequest` hashes. */
  function Preimage(f: Fingerprint): Printed {
    Canonical(FingerprintObject(f))
  }

  ghost predicate IsFingerprint(f: Fingerprint) {
    && (f.actor.Null? || f.actor.Undefined? || f.actor.Str?)
    && WellFormed(f.body)
  }

  ghost predicate SameRequest(f: Fingerprint, g: Fingerprint)
    requires IsFingerprint(f) && IsFingerprint(g) && !Throws(f.body) && !Throws(g.body)
  {
    && OrNull(f.actor) == OrNull(g.actor)
    && Meaning(OrNull(f.body)) == Meaning(OrNull(g.body))
    && f.verb == g.verb && f.path == g.path
  }

  /** The preimage exists exactly for a printable body, and names the actor, body, method and path. */
  lemma PreimageIdentifiesRequest(f: Fingerprint, g: Fingerprint)
    requires IsFingerprint(f) && IsFingerprint(g)
    ensures Preimage(f).Printed? <==> !Throws(f.body)
    ensures !Throws(f.body) && !Throws(g.body) ==> (Preimage(f) == Preimage(g) <==> SameRequest(f, g))
  {
    FingerprintPrints(f);
    FingerprintPrints(g);
    if !Throws(f.body) && !Throws(g.body) {
      CanonicalIsInjectiveUpToMeaning(FingerprintObject(f), FingerprintObject(g));
      SameFingerprintMeaning(f, g);
    }
  }

  lemma FingerprintPrints(f: Fingerprint)
    requires IsFingerprint(f)
    ensures WellFormed(FingerprintObject(f))
    ensures Throws(FingerprintObject(f)) <==> Throws(f.body)
    ensures Preimage(f).Printed? <==> !Throws(f.body)
  {
    FingerprintMeaning(f);
  }

  lemma SameFingerprintMeaning(f: Fingerprint, g: Fingerprint)
    requires IsFingerprint(f) && IsFingerprint(g) && !Throws(f.body) && !Throws(g.body)
    requires !Throws(FingerprintObject(f)) && !Throws(FingerprintObject(g))
    ensures Meaning(FingerprintObject(f)) == Meaning(FingerprintObject(g)) <==> SameRequest(f, g)
  {
    FingerprintMeaning(f);
    FingerprintMeaning(g);
    FingerprintMapInjective(f.verb, f.path, Meaning(OrNull(f.actor)), Meaning(OrNull(f.body)),
                            g.verb, g.path, Meaning(OrNull(g.actor)), Meaning(OrNull(g.body)));
    ActorMeaning(f.actor, g.actor);
  }

  lemma ActorMeaning(a: Value, b: Value)
    requires (a.Null? || a.Undefined? || a.Str?) && (b.Null? || b.Undefined? || b.Str?)
    ensures Meaning(OrNull(a)) == Meaning(OrNull(b)) <==> OrNull(a) == OrNull(b)
  {
  }

  lemma FingerprintMapInjective(v: JsString, p: JsString, a: Json, b: Json,
                                v': JsString, p': JsString, a': Json, b': Json)
    ensures FingerprintMap(v, p, a, b) == FingerprintMap(v', p', a', b') <==> v == v' && p == p' && a == a' && b == b'
  {
    KeysDiffer();
    var m, n := FingerprintMap(v, p, a, b), FingerprintMap(v', p', a', b');
    if m == n {
      assert m[ACTOR] == n[ACTOR] && m[BODY] == n[BODY] && m[METHOD] == n[METHOD] && m[PATH] == n[PATH];
    }
  }

  function FingerprintMap(verb: JsString, path: JsString, actor: Json, body: Json): map<JsString, Json> {
    map[ACTOR := actor, BODY := body, METHOD := JStr(verb), PATH := JStr(path)]
  }

  lemma KeysDiffer()
    ensures ACTOR != BODY && ACTOR != METHOD && ACTOR != PATH && BODY != METHOD && BODY != PATH && METHOD != PATH
  {
    assert ACTOR[0] == 97 && BODY[0] == 98 && METHOD[0] == 109 && PATH[0] == 112;
  }

  lemma FourMembers(v: Value, ms: seq<Member>)
    requires Within(v, ms) && |ms| == 4 && DistinctKeys(ms)
    requires forall i :: 0 <= i < 4 ==> !Absent(ms[i].value)
    ensures MembersMeaning(v, ms) ==
            map[ms[0].key := Meaning(ms[0].value), ms[1].key := Meaning(ms[1].value),
                ms[2].key := Meaning(ms[2].value), ms[3].key := Meaning(ms[3].value)]
  {
    MembersMeaningAt(v, ms);
    var m := MembersMeaning(v, ms);
    forall k | k in m ensures k in {ms[0].key, ms[1].key, ms[2].key, ms[3].key} {
      assert HasDefined(ms, k);
    }
  }

  function FingerprintObject(f: Fingerprint): Value {
    Obj([Member(ACTOR, OrNull(f.actor)), Member(BODY, OrNull(f.body)),
         Member(METHOD, Str(f.verb)), Member(PATH, Str(f.path))])
  }

  lemma FingerprintMeaning(f: Fingerprint)
    requires IsFingerprint(f)
    ensures var v := FingerprintObject(f);
            && WellFormed(v) && (Throws(v) <==> Throws(f.body))
            && (!Throws(f.body) ==>
                  Meaning(v).members ==
                  FingerprintMap(f.verb, f.path, Meaning(OrNull(f.actor)), Meaning(OrNull(f.body))))
  {
    var v := FingerprintObject(f);
    KeysDiffer();
    assert v.members[1].value == OrNull(f.body);
    assert DistinctKeys(v.members);
    if !Throws(f.body) { FourMembers(v, v.members); }
  }
}

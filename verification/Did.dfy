/**
 * did:aip identifiers: parsing and formatting undo each other on version 2, and so the
 * cross-registrations of a file name each agent at most once.
 */
module Did {
  import opened Decimal
  import opened Wrappers

  const MAX_SAFE: nat := 0x1F_FFFF_FFFF_FFFF

  // ----- segments

  /** `split(":")` */
  function Split(s: string): (parts: seq<string>)
    ensures |parts| >= 1
    ensures forall i :: 0 <= i < |parts| ==> ':' !in parts[i]
    ensures Join(parts) == s
  {
    if s == "" then [""]
    else
      var rest := Split(s[1..]);
      assert s == [s[0]] + s[1..];
      if s[0] == ':' then [""] + rest
      else
        assert [[s[0]] + rest[0]] + rest[1..] != [];
        [[s[0]] + rest[0]] + rest[1..]
  }

  function Join(parts: seq<string>): string {
    if parts == [] then ""
    else if |parts| == 1 then parts[0]
    else parts[0] + ":" + Join(parts[1..])
  }

  lemma {:induction false} SplitPlain(s: string)
    requires ':' !in s
    ensures Split(s) == [s]
  {
    if s != "" {
      SplitPlain(s[1..]);
      assert s == [s[0]] + s[1..];
    }
  }

  /** One more character in front. */
  lemma SplitCons(c: char, t: string)
    ensures var rest := Split(t);
            Split([c] + t) == if c == ':' then [""] + rest else [[c] + rest[0]] + rest[1..]
  {
    assert ([c] + t)[1..] == t;
  }

  lemma {:induction false} SplitFirst(a: string, rest: string)
    requires ':' !in a
    ensures Split(a + ":" + rest) == [a] + Split(rest)
  {
    if a == "" {
      assert a + ":" + rest == [':'] + rest;
      SplitCons(':', rest);
    } else {
      var tail := a[1..] + ":" + rest;
      assert a + ":" + rest == [a[0]] + tail && a == [a[0]] + a[1..];
      SplitFirst(a[1..], rest);
      SplitCons(a[0], tail);
      FirstGrows(a[0], a[1..], Split(rest));
    }
  }

  lemma FirstGrows(c: char, first: string, rest: seq<string>)
    ensures var parts := [first] + rest;
            [[c] + parts[0]] + parts[1..] == [[c] + first] + rest
  {
  }

  // ----- version 2 and version 1 identifiers

  const PREFIX: string := "did:aip:"

  datatype Reason =
    | NotOurs
    | EmptyIdentifier
    | SegmentCount
    | OwnerNotBase58
    | BadSlug
    | BadNamespace
    | BadChainId
    | ChainIdTooLarge
    | BadRegistry
    | BadAgentId

  datatype Parsed =
    | V1(did: string, owner: string, slug: string)
    | V2(did: string, chainId: nat, registry: string, agentId: nat, agentRegistry: string)
    | Invalid(reason: Reason)

  predicate LowerHex(c: char) {
    '0' <= c <= '9' || 'a' <= c <= 'f'
  }

  /** /^0x[0-9a-f]{40}$/ */
  predicate IsRegistry(s: string) {
    |s| == 42 && s[0] == '0' && s[1] == 'x' && forall i :: 2 <= i < 42 ==> LowerHex(s[i])
  }

  predicate Base58Char(c: char) {
    || '1' <= c <= '9'
    || ('A' <= c <= 'Z' && c != 'I' && c != 'O')
    || ('a' <= c <= 'z' && c != 'l')
  }

  predicate SlugChar(c: char) {
    'A' <= c <= 'Z' || 'a' <= c <= 'z' || '0' <= c <= '9' || c == '_' || c == '-'
  }

  function ParseV1(did: string, owner: string, slug: string): Parsed {
    if !(32 <= |owner| <= 44 && forall i :: 0 <= i < |owner| ==> Base58Char(owner[i])) then Invalid(OwnerNotBase58)
    else if !(1 <= |slug| <= 32 && forall i :: 0 <= i < |slug| ==> SlugChar(slug[i])) then Invalid(BadSlug)
    else V1(did, owner, slug)
  }

  function ParseV2(did: string, namespace: string, chainId: string, registry: string, agentId: string): Parsed {
    if namespace != "eip155" then Invalid(BadNamespace)
    else if !IsDecimal(chainId) || chainId == "0" then Invalid(BadChainId)
    else if Value(chainId) > MAX_SAFE then Invalid(ChainIdTooLarge)
    else if !IsRegistry(registry) then Invalid(BadRegistry)
    else if !IsDecimal(agentId) then Invalid(BadAgentId)
    else V2(did, Value(chainId), registry, Value(agentId), namespace + ":" + chainId + ":" + registry)
  }

  function Parse(did: string): Parsed {
    if !(PREFIX <= did) then Invalid(NotOurs)
    else if did == PREFIX then Invalid(EmptyIdentifier)
    else
      var seg := Split(did[|PREFIX|..]);
      if |seg| == 2 then ParseV1(did, seg[0], seg[1])
      else if |seg| == 4 then ParseV2(did, seg[0], seg[1], seg[2], seg[3])
      else Invalid(SegmentCount)
  }

  function LowerChar(c: char): char {
    if 'A' <= c <= 'Z' then 'a' + (c - 'A') else c
  }

  /** `toLowerCase()`; beyond ASCII no character becomes a hexadecimal digit or an x. */
  function Lower(s: string): (r: string)
    ensures |r| == |s| && forall i :: 0 <= i < |s| ==> r[i] == LowerChar(s[i])
  {
    if s == "" then "" else [LowerChar(s[0])] + Lower(s[1..])
  }

  function Assemble(chainId: string, registry: string, agentId: string): string {
    PREFIX + ("eip155" + ":" + (chainId + ":" + (registry + ":" + agentId)))
  }

  /**
   * A number or bigint and its text. `Whole` prints plain digits: its own, but for a number above
   * 2^53 - 1, which may print those of a rounder one. What is not printed in plain digits has a sign, a
   * point, an exponent or a name.
   */
  datatype Number = Whole(n: nat, printed: nat) | NotWhole(text: string) {
    predicate Valid() {
      match this
      case Whole(n, printed) => if n <= MAX_SAFE then printed == n else printed > MAX_SAFE
      case NotWhole(text) => !IsDecimal(text) && ':' !in text
    }

    function Printed(): string {
      match this
      case Whole(_, printed) => ToDecimal(printed)
      case NotWhole(text) => text
    }
  }

  function Exactly(n: nat): Number {
    Whole(n, n)
  }

  function Format(chainId: Number, registry: string, agentId: Number): string {
    Assemble(chainId.Printed(), Lower(registry), agentId.Printed())
  }

  lemma NoColonInDecimal(s: string)
    requires AllDigits(s)
    ensures ':' !in s
  {
  }

  /** An assembled identifier has its four segments when no part has a colon, and more otherwise. */
  lemma AssembledSegments(chainId: string, registry: string, agentId: string)
    requires ':' !in chainId && ':' !in agentId
    ensures var did := Assemble(chainId, registry, agentId);
            && PREFIX <= did && did != PREFIX
            && var seg := Split(did[|PREFIX|..]);
               && (':' !in registry ==> seg == ["eip155", chainId, registry, agentId])
               && (':' in registry ==> |seg| > 4)
  {
    var tail := registry + ":" + agentId;
    var rest := "eip155" + ":" + (chainId + ":" + tail);
    assert Assemble(chainId, registry, agentId)[|PREFIX|..] == rest;
    SplitFirst("eip155", chainId + ":" + tail);
    SplitFirst(chainId, tail);
    if ':' !in registry {
      SplitFirst(registry, agentId);
      SplitPlain(agentId);
    } else {
      SplitMany(registry, agentId);
    }
  }

  /** A text with a colon in it and one after it has at least three segments. */
  lemma {:induction false} SplitMany(a: string, rest: string)
    requires ':' in a
    ensures |Split(a + ":" + rest)| >= 3
  {
    var s := a + ":" + rest;
    assert s[1..] == a[1..] + ":" + rest;
    if a[0] == ':' {
      SplitSome(a[1..], rest);
    } else {
      SplitMany(a[1..], rest);
    }
  }

  lemma {:induction false} SplitSome(a: string, rest: string)
    ensures |Split(a + ":" + rest)| >= 2
  {
    var s := a + ":" + rest;
    if a == "" {
      assert s[1..] == rest;
    } else {
      assert s[1..] == a[1..] + ":" + rest;
      SplitSome(a[1..], rest);
    }
  }

  /**
   * What a formatted identifier parses to: its parts, the registry in lower case, exactly when these are
   * in range. The agent id is that of its digits, which are the id's own if and only if it prints them.
   */
  lemma ParseOfFormat(chainId: Number, registry: string, agentId: Number)
    requires chainId.Valid() && agentId.Valid()
    ensures var did := Format(chainId, registry, agentId);
            Parse(did) ==
              (if ':' in registry then Invalid(SegmentCount)
               else if !chainId.Whole? || chainId.n == 0 then Invalid(BadChainId)
               else if chainId.n > MAX_SAFE then Invalid(ChainIdTooLarge)
               else if !IsRegistry(Lower(registry)) then Invalid(BadRegistry)
               else if !agentId.Whole? then Invalid(BadAgentId)
               else V2(did, chainId.n, Lower(registry), agentId.printed,
                       "eip155" + ":" + ToDecimal(chainId.n) + ":" + Lower(registry)))
    ensures var p := Parse(Format(chainId, registry, agentId));
            p.V2? ==> (p.agentId == agentId.n <==> agentId.printed == agentId.n)
  {
    PrintedNumber(chainId);
    PrintedNumber(agentId);
    LowerKeepsColons(registry);
    AssembledSegments(chainId.Printed(), Lower(registry), agentId.Printed());
  }

  lemma PrintedNumber(x: Number)
    requires x.Valid()
    ensures ':' !in x.Printed() && (IsDecimal(x.Printed()) <==> x.Whole?)
    ensures x.Whole? ==> Value(x.Printed()) == x.printed && (x.Printed() == "0" <==> x.n == 0)
  {
    if x.Whole? {
      NoColonInDecimal(ToDecimal(x.printed));
      ValueOfToDecimal(x.printed);
      assert x.printed == 0 ==> ToDecimal(x.printed) == "0";
    }
  }

  /** The agent id 2^69 given as a number prints rounded digits, and another agent is named. */
  lemma RoundedAgentId(registry: string)
    requires IsRegistry(Lower(registry)) && ':' !in registry
    ensures var id := Whole(0x20_0000_0000_0000_0000, 590295810358705700000);
            var p := Parse(Format(Exactly(1), registry, id));
            id.Valid() && p.V2? && p.agentId != id.n
  {
    ParseOfFormat(Exactly(1), registry, Whole(0x20_0000_0000_0000_0000, 590295810358705700000));
  }

  lemma LowerKeepsColons(s: string)
    ensures ':' in Lower(s) <==> ':' in s
  {
    if ':' in s {
      var i :| 0 <= i < |s| && s[i] == ':';
      assert Lower(s)[i] == ':';
    }
  }

  lemma LowerOfRegistry(s: string)
    requires IsRegistry(s)
    ensures Lower(s) == s
  {
  }

  /** Formatting what an identifier parsed to gives the identifier back. */
  lemma FormatOfParse(did: string)
    requires Parse(did).V2?
    ensures var p := Parse(did);
            p.did == did && Format(Exactly(p.chainId), p.registry, Exactly(p.agentId)) == did
            && 1 <= p.chainId <= MAX_SAFE && IsRegistry(p.registry)
  {
    var seg := Split(did[|PREFIX|..]);
    var chainId, registry, agentId := seg[1], seg[2], seg[3];
    ToDecimalOfValue(chainId);
    ToDecimalOfValue(agentId);
    LowerOfRegistry(registry);
    assert seg[1..][1..][1..] == [agentId];
    assert Join(seg[1..][1..]) == registry + ":" + agentId;
    assert Join(seg[1..]) == chainId + ":" + (registry + ":" + agentId);
    assert Join(seg) == "eip155" + ":" + (chainId + ":" + (registry + ":" + agentId));
    assert did == PREFIX + did[|PREFIX|..];
  }

  /** Two accepted version 2 identifiers name the same agent only when they are the same text. */
  lemma OneTextPerAgent(a: string, b: string)
    requires Parse(a).V2? && Parse(b).V2? && AgentOf(Parse(a)) == AgentOf(Parse(b))
    ensures a == b
  {
    FormatOfParse(a);
    FormatOfParse(b);
  }

  function AgentOf(p: Parsed): (nat, string, nat)
    requires p.V2?
  {
    (p.chainId, p.registry, p.agentId)
  }

  // ----- cross-registrations

  datatype IdField = NumberField(safeInteger: bool, n: int) | TextField(s: string) | OtherField
  datatype Registration = Registration(agentId: IdField, agentRegistry: Option<string>)

  function DidOfRegistration(entry: Registration): Option<string> {
    if entry.agentRegistry.None? then None
    else
      var parts := Split(entry.agentRegistry.value);
      if |parts| != 3 || parts[0] != "eip155" then None
      else
        var id := match entry.agentId
                  case NumberField(safe, n) => if !safe || n < 0 then None else Some(ToDecimal(n))
                  case TextField(s) => Some(s)
                  case OtherField => None;
        if id.None? then None
        else
          var did := Assemble(parts[1], Lower(parts[2]), id.value);
          if Parse(did).V2? then Some(did) else None
  }

  /** An owner and a slug of version 1. */
  ghost predicate OwnerAndSlug(owner: string, slug: string) {
    && 32 <= |owner| <= 44 && (forall i :: 0 <= i < |owner| ==> Base58Char(owner[i]))
    && 1 <= |slug| <= 32 && (forall i :: 0 <= i < |slug| ==> SlugChar(slug[i]))
  }

  /** Version 1 is exactly an owner and a slug. */
  lemma V1Exactly(did: string)
    ensures Parse(did).V1? <==>
            exists owner, slug :: did == PREFIX + (owner + ":" + slug) && OwnerAndSlug(owner, slug)
  {
    if Parse(did).V1? {
      var seg := Split(did[|PREFIX|..]);
      assert Join(seg[1..]) == seg[1] && Join(seg) == seg[0] + ":" + seg[1];
      assert did == PREFIX + did[|PREFIX|..];
      assert OwnerAndSlug(seg[0], seg[1]);
    }
    if owner, slug :| did == PREFIX + (owner + ":" + slug) && OwnerAndSlug(owner, slug) { V1Parses(owner, slug); }
  }

  lemma V1Parses(owner: string, slug: string)
    requires OwnerAndSlug(owner, slug)
    ensures Parse(PREFIX + (owner + ":" + slug)).V1?
  {
    var did := PREFIX + (owner + ":" + slug);
    assert did[|PREFIX|..] == owner + ":" + slug;
    assert forall i :: 0 <= i < |owner| ==> owner[i] != ':';
    assert forall i :: 0 <= i < |slug| ==> slug[i] != ':';
    SplitFirst(owner, slug);
    SplitPlain(slug);
  }

  /** Version 2 is exactly a chain id from 1 to 2^53 - 1, a registry in lower case and an agent id. */
  lemma V2Exactly(did: string)
    ensures Parse(did).V2? <==>
            exists chainId, registry, id ::
              did == Assemble(chainId, registry, id) && InRange(chainId, registry, id) && IsRegistry(registry)
  {
    if Parse(did).V2? {
      FormatOfParse(did);
      var p := Parse(did);
      var chainId, id := ToDecimal(p.chainId), ToDecimal(p.agentId);
      LowerOfRegistry(p.registry);
      ParseOfFormat(Exactly(p.chainId), p.registry, Exactly(p.agentId));
      PrintedNumber(Exactly(p.chainId));
      PrintedNumber(Exactly(p.agentId));
      assert InRange(chainId, p.registry, id);
    }
    if chainId, registry, id :| did == Assemble(chainId, registry, id)
                                && InRange(chainId, registry, id) && IsRegistry(registry) {
      LowerOfRegistry(registry);
      assert ':' !in chainId && ':' !in registry;
      ParseOfParts(chainId, registry, id);
    }
  }

  /** The text an entry gives for its agent's id. */
  ghost predicate IdText(id: IdField, text: string) {
    match id
    case NumberField(safeInteger, n) => safeInteger && n >= 0 && text == ToDecimal(n)
    case TextField(s) => text == s
    case OtherField => false
  }

  /** The entry's registry is `chainId` and `registry` under eip155, and its agent `id` there. */
  ghost predicate Refers(entry: Registration, chainId: string, registry: string, id: string) {
    && entry.agentRegistry == Some("eip155" + ":" + (chainId + ":" + registry))
    && ':' !in chainId && ':' !in registry && IdText(entry.agentId, id)
  }

  /** All three are in range: the chain id, the registry in lower case, the agent id. */
  ghost predicate InRange(chainId: string, registry: string, id: string) {
    && IsDecimal(chainId) && 1 <= Value(chainId) <= MAX_SAFE && IsRegistry(Lower(registry)) && IsDecimal(id)
  }

  lemma SplitOfThree(text: string, chainId: string, registry: string)
    requires ':' !in chainId && ':' !in registry
    ensures Split(text) == ["eip155", chainId, registry] <==> text == "eip155" + ":" + (chainId + ":" + registry)
  {
    var parts := ["eip155", chainId, registry];
    assert parts[1..][1..] == [registry] && Join([registry]) == registry;
    assert Join(parts[1..]) == chainId + ":" + registry;
    assert Join(parts) == "eip155" + ":" + (chainId + ":" + registry);
    SplitFirst("eip155", chainId + ":" + registry);
    SplitFirst(chainId, registry);
    SplitPlain(registry);
    assert ["eip155"] + ([chainId] + [registry]) == parts;
  }

  lemma ParsesAsFour(chainId: string, registry: string, id: string)
    requires ':' !in chainId && ':' !in registry && ':' !in id
    ensures var did := Assemble(chainId, registry, id);
            Parse(did) == ParseV2(did, "eip155", chainId, registry, id)
  {
    AssembledSegments(chainId, registry, id);
  }

  lemma ZeroText(text: string)
    requires IsDecimal(text)
    ensures text == "0" <==> Value(text) == 0
  {
    ToDecimalOfValue(text);
  }

  lemma ParseOfParts(chainId: string, registry: string, id: string)
    requires ':' !in chainId && ':' !in registry
    ensures Parse(Assemble(chainId, Lower(registry), id)).V2? <==> InRange(chainId, registry, id)
  {
    LowerKeepsColons(registry);
    if ':' !in id {
      ParsesAsFour(chainId, Lower(registry), id);
      if IsDecimal(chainId) { ZeroText(chainId); }
    } else {
      ColonInId(chainId, Lower(registry), id);
    }
  }

  lemma SplitOfOne(s: string)
    ensures |Split(s)| == 1 <==> ':' !in s
  {
    var parts := Split(s);
    assert |parts| == 1 ==> Join(parts) == parts[0];
    if ':' !in s { SplitPlain(s); }
  }

  lemma ColonInId(chainId: string, registry: string, id: string)
    requires ':' !in chainId && ':' !in registry && ':' in id
    ensures !Parse(Assemble(chainId, registry, id)).V2? && !IsDecimal(id)
  {
    var tail := registry + ":" + id;
    assert Assemble(chainId, registry, id)[|PREFIX|..] == "eip155" + ":" + (chainId + ":" + tail);
    SplitFirst("eip155", chainId + ":" + tail);
    SplitFirst(chainId, tail);
    SplitFirst(registry, id);
    SplitOfOne(id);
  }

  /** An entry names an identifier exactly when it refers to an agent in range, and names that agent's. */
  lemma RegistrationNamesExactly(entry: Registration, did: string)
    ensures DidOfRegistration(entry) == Some(did) <==>
            exists chainId, registry, id ::
              && Refers(entry, chainId, registry, id) && InRange(chainId, registry, id)
              && did == Assemble(chainId, Lower(registry), id)
  {
    if DidOfRegistration(entry) == Some(did) {
      var parts := Split(entry.agentRegistry.value);
      assert parts == ["eip155", parts[1], parts[2]];
      var id := match entry.agentId case NumberField(_, n) => ToDecimal(n) case TextField(s) => s case OtherField => "";
      SplitOfThree(entry.agentRegistry.value, parts[1], parts[2]);
      ParseOfParts(parts[1], parts[2], id);
      assert Refers(entry, parts[1], parts[2], id);
    }
    if chainId, registry, id :| && Refers(entry, chainId, registry, id) && InRange(chainId, registry, id)
                                && did == Assemble(chainId, Lower(registry), id) {
      SplitOfThree(entry.agentRegistry.value, chainId, registry);
      ParseOfParts(chainId, registry, id);
    }
  }

  /** What each entry names, in order; None for one that is malformed. */
  function Named(entries: seq<Registration>): (r: seq<Option<string>>)
    ensures |r| == |entries| && forall i :: 0 <= i < |r| ==> r[i] == DidOfRegistration(entries[i])
  {
    if entries == [] then [] else [DidOfRegistration(entries[0])] + Named(entries[1..])
  }

  /** The identifiers named, in order of first mention, without `self`. */
  function Claimed(named: seq<Option<string>>, self: string): seq<string> {
    if named == [] then []
    else
      var before := Claimed(named[..|named| - 1], self);
      var did := named[|named| - 1];
      if did.None? || did.value == self || did.value in before then before else before + [did.value]
  }

  function Malformed(named: seq<Option<string>>): nat {
    if named == [] then 0
    else Malformed(named[..|named| - 1]) + if named[|named| - 1].None? then 1 else 0
  }

  method ClaimedCrossRegistrations(entries: seq<Registration>, self: string)
    returns (dids: seq<string>, malformed: nat)
    ensures dids == Claimed(Named(entries), self) && malformed == Malformed(Named(entries))
  {
    dids, malformed := [], 0;
    ghost var named := Named(entries);
    for i := 0 to |entries|
      invariant dids == Claimed(named[..i], self) && malformed == Malformed(named[..i])
    {
      assert named[..i + 1][..i] == named[..i];
      var did := DidOfRegistration(entries[i]);
      assert named[..i + 1][i] == did;
      if did.None? {
        malformed := malformed + 1;
        continue;
      }
      if did.value == self || did.value in dids { continue; }
      dids := dids + [did.value];
    }
    assert named[..|entries|] == named;
  }

  predicate Distinct(s: seq<string>) {
    forall i, j :: 0 <= i < j < |s| ==> s[i] != s[j]
  }

  /** Claimed are exactly the identifiers some entry names, other than `self`, each once. */
  lemma {:induction false} ClaimedMembers(named: seq<Option<string>>, self: string)
    ensures forall did :: did in Claimed(named, self) <==> did != self && Some(did) in named
    ensures Distinct(Claimed(named, self))
  {
    if named != [] {
      var n := |named| - 1;
      ClaimedMembers(named[..n], self);
      assert named == named[..n] + [named[n]];
      var before := Claimed(named[..n], self);
      assert forall did :: did in before <==> did != self && Some(did) in named[..n];
    }
  }

  /** No entry is lost: each is malformed or names an identifier that is `self` or claimed. */
  lemma {:induction false} MalformedCounts(named: seq<Option<string>>)
    ensures Malformed(named) == multiset(named)[None]
  {
    if named != [] {
      var n := |named| - 1;
      MalformedCounts(named[..n]);
      assert named == named[..n] + [named[n]];
    }
  }

  /** A claimed identifier is of version 2 and not the resolved one. */
  lemma ClaimedParses(entries: seq<Registration>, self: string, did: string)
    requires did in Claimed(Named(entries), self)
    ensures did != self && Parse(did).V2?
  {
    ClaimedMembers(Named(entries), self);
    var i :| 0 <= i < |entries| && Named(entries)[i] == Some(did);
    AcceptedParses(entries[i]);
  }

  lemma AcceptedParses(entry: Registration)
    ensures var did := DidOfRegistration(entry);
            did.Some? ==> Parse(did.value).V2?
  {
  }

  lemma DifferentAgents(a: string, b: string)
    requires Parse(a).V2? && Parse(b).V2? && a != b
    ensures AgentOf(Parse(a)) != AgentOf(Parse(b))
  {
    if AgentOf(Parse(a)) == AgentOf(Parse(b)) { OneTextPerAgent(a, b); }
  }

  /** The claimed identifiers name each agent once, and never the agent being resolved. */
  lemma EachAgentOnce(entries: seq<Registration>, self: string, i: nat, j: nat)
    requires i < |Claimed(Named(entries), self)| && j < |Claimed(Named(entries), self)|
    ensures var dids := Claimed(Named(entries), self);
            && Parse(dids[i]).V2? && Parse(dids[j]).V2?
            && (i != j ==> AgentOf(Parse(dids[i])) != AgentOf(Parse(dids[j])))
            && (Parse(self).V2? ==> AgentOf(Parse(dids[i])) != AgentOf(Parse(self)))
  {
    ClaimedMembers(Named(entries), self);
    var a, b := Claimed(Named(entries), self)[i], Claimed(Named(entries), self)[j];
    ClaimedParses(entries, self, a);
    ClaimedParses(entries, self, b);
    if i != j { DifferentAgents(a, b); }
    if Parse(self).V2? { DifferentAgents(a, self); }
  }
}

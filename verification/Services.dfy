/**
 * Service entries of a DID document: ids made unique against the ids already given, whatever
 * names the file's owner chose.
 */
module Services {
  import opened Decimal
  import opened Wrappers

  /** A `services[]` entry; a field that is not a string reads as empty. */
  datatype Raw = NotAnObject | Entry(name: string, endpoint: string)

  datatype Service = Service(fragment: string, name: string, endpoint: string)

  /** The platform's string functions and URL parser. */
  datatype Platform = Platform(
    trim: string -> string,
    lower: string -> string,
    upper: string -> string,
    isUri: string -> bool)

  predicate SlugChar(c: char) {
    'a' <= c <= 'z' || '0' <= c <= '9'
  }

  function Dashed(s: string): (r: string)
    ensures |r| == |s| && forall i :: 0 <= i < |s| ==> r[i] == (if SlugChar(s[i]) then s[i] else '-')
  {
    if s == "" then "" else [if SlugChar(s[0]) then s[0] else '-'] + Dashed(s[1..])
  }

  function TrimDashes(s: string): (r: string)
    ensures r != "" ==> r[0] != '-' && r[|r| - 1] != '-'
    ensures forall i :: 0 <= i < |r| ==> r[i] in s
    decreases |s|
  {
    if s == "" then ""
    else if s[0] == '-' then TrimDashes(s[1..])
    else if s[|s| - 1] == '-' then TrimDashes(s[..|s| - 1])
    else s
  }

  /** A fragment-safe slug: never empty, letters, digits and inner dashes only. */
  function Slugify(p: Platform, name: string): (r: string)
    ensures r != "" && r[0] != '-' && r[|r| - 1] != '-'
    ensures forall i :: 0 <= i < |r| ==> SlugChar(r[i]) || r[i] == '-'
  {
    var trimmed := TrimDashes(Dashed(p.lower(name)));
    if trimmed == "" then "service" else trimmed
  }

  /** `r` is the part of `s` between `i` and `j`, with a dash for what is neither letter nor digit. */
  ghost predicate SlugOfPart(s: string, i: nat, j: nat, r: string) {
    && i <= j <= |s| && |r| == j - i
    && forall k :: 0 <= k < |r| ==> r[k] == if SlugChar(s[i + k]) then s[i + k] else '-'
  }

  /** From the first letter or digit of `s` to the last. */
  ghost predicate Spans(s: string, i: nat, j: nat) {
    && i < j <= |s| && SlugChar(s[i]) && SlugChar(s[j - 1])
    && (forall k :: 0 <= k < i ==> !SlugChar(s[k])) && (forall k :: j <= k < |s| ==> !SlugChar(s[k]))
  }

  /** `r` is `s` from `i` to `j`, and the rest of `s` is dashes. */
  ghost predicate TrimmedTo(s: string, i: nat, j: nat, r: string) {
    && i <= j <= |s| && |r| == j - i
    && (forall m :: 0 <= m < |r| ==> r[m] == s[i + m])
    && forall k :: 0 <= k < i || j <= k < |s| ==> s[k] == '-'
  }

  lemma DashInFront(s: string, i: nat, j: nat, r: string)
    requires s != "" && s[0] == '-' && TrimmedTo(s[1..], i, j, r)
    ensures TrimmedTo(s, i + 1, j + 1, r)
  {
    var t := s[1..];
    forall m | 0 <= m < |r| ensures r[m] == s[i + 1 + m] { assert r[m] == t[i + m]; }
    forall k | 0 <= k < i + 1 || j + 1 <= k < |s| ensures s[k] == '-' {
      if k > 0 { assert s[k] == t[k - 1]; }
    }
  }

  lemma DashBehind(s: string, i: nat, j: nat, r: string)
    requires s != "" && s[|s| - 1] == '-' && TrimmedTo(s[..|s| - 1], i, j, r)
    ensures TrimmedTo(s, i, j, r)
  {
    var t := s[..|s| - 1];
    assert forall k :: 0 <= k < |t| ==> t[k] == s[k];
  }

  lemma {:induction false} TrimmedPart(s: string) returns (i: nat, j: nat)
    ensures TrimmedTo(s, i, j, TrimDashes(s))
    decreases |s|
  {
    if s == "" {
      i, j := 0, 0;
    } else if s[0] == '-' {
      i, j := TrimmedPart(s[1..]);
      DashInFront(s, i, j, TrimDashes(s));
      i, j := i + 1, j + 1;
    } else if s[|s| - 1] == '-' {
      i, j := TrimmedPart(s[..|s| - 1]);
      DashBehind(s, i, j, TrimDashes(s));
    } else {
      i, j := 0, |s|;
    }
  }

  lemma PartOfDashed(s: string, i: nat, j: nat, r: string)
    requires TrimmedTo(Dashed(s), i, j, r) && r != "" && r[0] != '-' && r[|r| - 1] != '-'
    ensures Spans(s, i, j) && SlugOfPart(s, i, j, r)
  {
    var d := Dashed(s);
    assert r[0] == d[i + 0] && r[|r| - 1] == d[i + (|r| - 1)];
    forall k | 0 <= k < |r| ensures r[k] == if SlugChar(s[i + k]) then s[i + k] else '-' {
      assert r[k] == d[i + k];
    }
  }

  /** The slug runs from the first letter or digit of the lower-cased name to the last; with none it is "service". */
  lemma SlugifyExactly(p: Platform, name: string)
    ensures var lower := p.lower(name);
            || (exists i: nat, j: nat :: Spans(lower, i, j) && SlugOfPart(lower, i, j, Slugify(p, name)))
            || (Slugify(p, name) == "service" && forall k :: 0 <= k < |lower| ==> !SlugChar(lower[k]))
  {
    var lower := p.lower(name);
    var trimmed := TrimDashes(Dashed(lower));
    var i, j := TrimmedPart(Dashed(lower));
    if trimmed == "" {
      forall k | 0 <= k < |lower| ensures !SlugChar(lower[k]) { assert Dashed(lower)[k] == '-'; }
    } else {
      PartOfDashed(lower, i, j, trimmed);
    }
  }

  // ----- which entries count, and the fragment each gets

  /** An entry that counts, with the slug of its name. */
  datatype Wanted = Wanted(name: string, endpoint: string, slug: string)

  /** What an entry asks for; None when it is dropped. */
  function Usable(p: Platform, did: string, raw: Raw): Option<Wanted> {
    if raw.NotAnObject? then None
    else
      var name, endpoint := p.trim(raw.name), p.trim(raw.endpoint);
      if name == "" || endpoint == "" || !p.isUri(endpoint) then None
      else if p.upper(name) == "DID" && endpoint == did then None
      else Some(Wanted(name, endpoint, Slugify(p, name)))
  }

  /**
   * An entry counts exactly when it is an object with a name and a URI for its endpoint, spaces around
   * them aside, and does not point back at the identifier being resolved.
   */
  lemma CountsExactly(p: Platform, did: string, raw: Raw)
    ensures Usable(p, did, raw).Some? <==>
            && raw.Entry? && p.trim(raw.name) != "" && p.trim(raw.endpoint) != "" && p.isUri(p.trim(raw.endpoint))
            && !(p.upper(p.trim(raw.name)) == "DID" && p.trim(raw.endpoint) == did)
    ensures Usable(p, did, raw).Some? ==>
              var w := Usable(p, did, raw).value;
              w.name == p.trim(raw.name) && w.endpoint == p.trim(raw.endpoint) && w.slug == Slugify(p, w.name)
  {
  }

  function AllUsable(p: Platform, did: string, raws: seq<Raw>): seq<Wanted> {
    if raws == [] then []
    else
      var last := Usable(p, did, raws[|raws| - 1]);
      AllUsable(p, did, raws[..|raws| - 1]) + if last.Some? then [last.value] else []
  }

  /** base, base-2, base-3, ... */
  function Candidate(base: string, n: nat): string
    requires n >= 1
  {
    if n == 1 then base else base + "-" + ToDecimal(n)
  }

  lemma CandidatesDiffer(base: string, m: nat, n: nat)
    requires 1 <= m && 1 <= n && Candidate(base, m) == Candidate(base, n)
    ensures m == n
  {
    if m > 1 && n > 1 {
      assert Candidate(base, m)[|base| + 1..] == ToDecimal(m);
      assert Candidate(base, n)[|base| + 1..] == ToDecimal(n);
      ToDecimalInjective(m, n);
    }
  }

  /** The first candidate that is free. */
  ghost predicate FirstFree(used: set<string>, base: string, fragment: string) {
    exists n :: n >= 1 && fragment == Candidate(base, n) && fragment !in used && AllTaken(used, base, n)
  }

  ghost predicate AllTaken(used: set<string>, base: string, n: nat) {
    forall m :: 1 <= m < n ==> Candidate(base, m) in used
  }

  /** The candidates from `n` on that are taken: finitely many, and one fewer each time one is passed over. */
  ghost function TakenFrom(used: set<string>, base: string, n: nat): set<string> {
    set f | f in used && exists m :: m >= n && m >= 1 && f == Candidate(base, m)
  }

  method FreeFragment(used: set<string>, base: string) returns (fragment: string)
    ensures fragment !in used && FirstFree(used, base, fragment)
  {
    fragment := base;
    var n := 2;
    while fragment in used
      invariant n >= 2 && fragment == Candidate(base, n - 1)
      invariant AllTaken(used, base, n - 1)
      decreases TakenFrom(used, base, n - 1)
    {
      ghost var k := n - 1;
      forall f | f in TakenFrom(used, base, n) ensures f in TakenFrom(used, base, k) && f != fragment {
        var m :| m >= n && m >= 1 && f == Candidate(base, m);
        if f == fragment { CandidatesDiffer(base, m, k); }
      }
      assert fragment in TakenFrom(used, base, k);
      assert fragment !in TakenFrom(used, base, n);
      fragment := base + "-" + ToDecimal(n);
      n := n + 1;
    }
  }

  ghost function Fragments(out: seq<Service>): set<string> {
    set i | 0 <= i < |out| :: out[i].fragment
  }

  /** `s` is the usable input, under the first form of its slug that is free after `before`. */
  ghost predicate DescribesOne(before: seq<Service>, s: Service, usable: Wanted) {
    && s.name == usable.name && s.endpoint == usable.endpoint
    && FirstFree(Fragments(before), usable.slug, s.fragment)
  }

  /** Output `i` describes usable input `i`. */
  ghost predicate Describes(out: seq<Service>, usable: seq<Wanted>) {
    && |out| == |usable|
    && forall i {:trigger usable[i]} :: 0 <= i < |out| ==> DescribesOne(out[..i], out[i], usable[i])
  }

  ghost predicate Unique(out: seq<Service>) {
    forall i, j :: 0 <= i < j < |out| ==> out[i].fragment != out[j].fragment
  }

  method BuildServices(p: Platform, did: string, raws: seq<Raw>) returns (out: seq<Service>)
    ensures Describes(out, AllUsable(p, did, raws))
    ensures Unique(out)
  {
    out := [];
    var used: set<string> := {};
    for i := 0 to |raws|
      invariant used == Fragments(out)
      invariant Describes(out, AllUsable(p, did, raws[..i]))
      invariant Unique(out)
    {
      assert raws[..i + 1][..i] == raws[..i];
      var usable := Usable(p, did, raws[i]);
      if usable.None? { continue; }
      var wanted := usable.value;
      var fragment := FreeFragment(used, wanted.slug);
      OneMoreService(out, AllUsable(p, did, raws[..i]), wanted, fragment);
      used := used + {fragment};
      out := out + [Service(fragment, wanted.name, wanted.endpoint)];
    }
    assert raws[..|raws|] == raws;
  }

  lemma OneMoreService(out: seq<Service>, usable: seq<Wanted>, wanted: Wanted, fragment: string)
    requires Describes(out, usable) && Unique(out)
    requires FirstFree(Fragments(out), wanted.slug, fragment)
    ensures var s := Service(fragment, wanted.name, wanted.endpoint);
            && Describes(out + [s], usable + [wanted]) && Unique(out + [s])
            && Fragments(out + [s]) == Fragments(out) + {fragment}
  {
    var s := Service(fragment, wanted.name, wanted.endpoint);
    var more, more' := out + [s], usable + [wanted];
    forall i | 0 <= i < |more| ensures DescribesOne(more[..i], more[i], more'[i]) {
      if i < |out| {
        assert more[..i] == out[..i];
        assert DescribesOne(out[..i], out[i], usable[i]);
      } else {
        assert more[..i] == out;
      }
    }
    forall f ensures f in Fragments(more) <==> f in Fragments(out) + {s.fragment} {
      if f in Fragments(out) {
        var i :| 0 <= i < |out| && out[i].fragment == f;
        assert more[i].fragment == f;
      }
      assert more[|out|].fragment == s.fragment;
    }
    assert s.fragment !in Fragments(out);
  }

  lemma SameOne(before: seq<Service>, a: Service, b: Service, usable: Wanted)
    requires DescribesOne(before, a, usable) && DescribesOne(before, b, usable)
    ensures a == b
  {
    FirstFreeIsUnique(Fragments(before), usable.slug, a.fragment, b.fragment);
  }

  /** The first free form is one fragment, so the usable entries and their order determine the ids. */
  lemma IdsAreDetermined(a: seq<Service>, b: seq<Service>, usable: seq<Wanted>)
    requires Describes(a, usable) && Describes(b, usable)
    ensures a == b
  {
    for i := 0 to |usable|
      invariant a[..i] == b[..i]
    {
      SameOne(a[..i], a[i], b[i], usable[i]);
      assert a[..i + 1] == a[..i] + [a[i]] && b[..i + 1] == b[..i] + [b[i]];
    }
    assert a[..|usable|] == a && b[..|usable|] == b;
  }

  lemma FirstFreeIsUnique(used: set<string>, base: string, f: string, g: string)
    requires FirstFree(used, base, f) && FirstFree(used, base, g)
    ensures f == g
  {
    var m :| m >= 1 && f == Candidate(base, m) && f !in used && AllTaken(used, base, m);
    var n :| n >= 1 && g == Candidate(base, n) && g !in used && AllTaken(used, base, n);
    assert m == n;
  }

  // ----- ids within the document

  const OWNER: string := "owner"
  const AGENT_WALLET: string := "agent-wallet"

  /** The fragments of the document's ids: its verification methods, then its services. */
  function DocumentFragments(hasWallet: bool, out: seq<Service>): seq<string> {
    [OWNER] + (if hasWallet then [AGENT_WALLET] else []) + ServiceFragments(out)
  }

  function ServiceFragments(out: seq<Service>): (r: seq<string>)
    ensures |r| == |out| && forall i :: 0 <= i < |out| ==> r[i] == out[i].fragment
  {
    seq(|out|, i requires 0 <= i < |out| => out[i].fragment)
  }

  ghost predicate AllDifferent(s: seq<string>) {
    forall i, j :: 0 <= i < j < |s| ==> s[i] != s[j]
  }

  lemma LaterFormEndsInDigit(base: string, n: nat)
    requires n > 1
    ensures var form := Candidate(base, n); form != "" && '0' <= form[|form| - 1] <= '9'
  {
    var form, digits := Candidate(base, n), ToDecimal(n);
    assert form[|form| - 1] == digits[|digits| - 1];
  }

  /** A name that does not end in a digit is no later form of any slug. */
  lemma PlainCandidate(base: string, n: nat, name: string)
    requires n >= 1 && Candidate(base, n) == name && name != "" && !('0' <= name[|name| - 1] <= '9')
    ensures base == name
  {
    if n > 1 { LaterFormEndsInDigit(base, n); }
  }

  /** Such a fragment is given out exactly when a usable entry has it as its slug. */
  lemma GivenExactly(out: seq<Service>, usable: seq<Wanted>, name: string)
    requires Describes(out, usable) && name != "" && !('0' <= name[|name| - 1] <= '9')
    ensures name in Fragments(out) <==> exists i :: 0 <= i < |usable| && usable[i].slug == name
  {
    if name in Fragments(out) {
      var i :| 0 <= i < |out| && out[i].fragment == name;
      SlugOfFragment(out[..i], out[i], usable[i], name);
    }
    if i :| 0 <= i < |usable| && usable[i].slug == name { FragmentOfSlug(out, usable, i); }
  }

  lemma SlugOfFragment(before: seq<Service>, s: Service, wanted: Wanted, name: string)
    requires DescribesOne(before, s, wanted) && s.fragment == name
    requires name != "" && !('0' <= name[|name| - 1] <= '9')
    ensures wanted.slug == name
  {
    var n :| n >= 1 && s.fragment == Candidate(wanted.slug, n);
    PlainCandidate(wanted.slug, n, name);
  }

  lemma FragmentOfSlug(out: seq<Service>, usable: seq<Wanted>, i: nat)
    requires Describes(out, usable) && i < |usable|
    ensures usable[i].slug in Fragments(out)
  {
    var slug := usable[i].slug;
    assert DescribesOne(out[..i], out[i], usable[i]);
    var n :| n >= 1 && out[i].fragment == Candidate(slug, n) && AllTaken(Fragments(out[..i]), slug, n);
    if n > 1 {
      assert Candidate(slug, 1) in Fragments(out[..i]);
      var k :| 0 <= k < i && out[..i][k].fragment == slug;
      assert out[k].fragment == slug;
    }
  }

  /**
   * The ids of the whole document are pairwise different exactly when no usable entry has the slug
   * "owner", nor "agent-wallet" when the agent has a wallet.
   */
  lemma DocumentIdsDiffer(out: seq<Service>, usable: seq<Wanted>, hasWallet: bool)
    requires Describes(out, usable) && Unique(out)
    ensures AllDifferent(DocumentFragments(hasWallet, out)) <==>
            forall i :: 0 <= i < |usable| ==>
              usable[i].slug != OWNER && (hasWallet ==> usable[i].slug != AGENT_WALLET)
  {
    GivenExactly(out, usable, OWNER);
    GivenExactly(out, usable, AGENT_WALLET);
    ClashExactly(out, hasWallet);
  }

  lemma ClashExactly(out: seq<Service>, hasWallet: bool)
    requires Unique(out)
    ensures AllDifferent(DocumentFragments(hasWallet, out)) <==>
            OWNER !in Fragments(out) && (hasWallet ==> AGENT_WALLET !in Fragments(out))
  {
    var all := DocumentFragments(hasWallet, out);
    var m := if hasWallet then 2 else 1;
    assert forall k :: m <= k < |all| ==> all[k] == out[k - m].fragment;
    assert all[0] == OWNER && (hasWallet ==> all[1] == AGENT_WALLET);
    assert OWNER != AGENT_WALLET by { assert |OWNER| != |AGENT_WALLET|; }
    if OWNER in Fragments(out) {
      var i :| 0 <= i < |out| && out[i].fragment == OWNER;
      assert all[i + m] == all[0];
    }
    if hasWallet && AGENT_WALLET in Fragments(out) {
      var i :| 0 <= i < |out| && out[i].fragment == AGENT_WALLET;
      assert all[i + m] == all[1];
    }
  }

  /** One service with the slug "owner" is enough: it gets the id of the owner's verification method. */
  lemma ServiceCalledOwner(wanted: Wanted, out: seq<Service>)
    requires wanted.slug == OWNER && Describes(out, [wanted]) && Unique(out)
    ensures !AllDifferent(DocumentFragments(false, out))
  {
    DocumentIdsDiffer(out, [wanted], false);
    assert [wanted][0].slug == OWNER;
  }

  /** And one called "owner" has that slug. */
  lemma SlugOfOwner(p: Platform)
    requires p.lower(OWNER) == OWNER
    ensures Slugify(p, OWNER) == OWNER
  {
    assert Dashed(OWNER) == OWNER;
    assert TrimDashes(OWNER) == OWNER;
  }
}

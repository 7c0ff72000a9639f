/** Registration entries, who owns them, and the canonical key that identifies a job on a node. */
module Entries {
  import opened Wrappers
  import opened Text
  import opened Sorting

  datatype SpiffeID = SpiffeID(trustDomain: string, path: string)

  datatype Selector = Selector(kind: string, value: string)

  datatype Entry = Entry(
    id: string,
    spiffeID: Option<SpiffeID>,
    parentID: Option<SpiffeID>,
    selectors: seq<Selector>,
    x509TTL: int,
    jwtTTL: int,
    hint: string)

  /** One registration entry implied by a running job on a node. */
  datatype Desired = Desired(
    parentID: Option<SpiffeID>,
    spiffeID: Option<SpiffeID>,
    selectors: seq<Selector>,
    x509TTL: int,
    jwtTTL: int,
    node: string,
    jobKey: string)

  /** The ownership rule; Everyone stands for a missing predicate. */
  datatype Ownership = Everyone | Marked(prefix: string, hint: string) {
    predicate Owns(e: Entry) {
      Marked? ==> HasPrefix(e.id, prefix) && e.hint == hint
    }
  }

  /** The entries this ownership rule accepts, in order. */
  function Owned(store: seq<Entry>, owns: Ownership): seq<Entry> {
    if store == [] then []
    else if owns.Owns(store[0]) then [store[0]] + Owned(store[1..], owns)
    else Owned(store[1..], owns)
  }

  const SCHEME: string := "spiffe://"

  function IDString(id: Option<SpiffeID>): string {
    match id
    case None => ""
    case Some(i) => SCHEME + i.trustDomain + i.path
  }

  // ----- keys

  function SelectorText(s: Selector): string {
    s.kind + ":" + s.value
  }

  function SelectorTexts(selectors: seq<Selector>): (r: seq<string>)
    ensures |r| == |selectors|
  {
    if selectors == [] then [] else [SelectorText(selectors[0])] + SelectorTexts(selectors[1..])
  }

  function SelectorsKey(selectors: seq<Selector>): string {
    Join(SortStrings(SelectorTexts(selectors)), "\0")
  }

  method ComputeSelectorsKey(selectors: seq<Selector>) returns (key: string)
    ensures key == SelectorsKey(selectors)
  {
    var parts: seq<string> := [];
    var i := 0;
    while i < |selectors|
      invariant 0 <= i <= |selectors|
      invariant parts + SelectorTexts(selectors[i..]) == SelectorTexts(selectors)
    {
      assert selectors[i..][1..] == selectors[i + 1..];
      parts := parts + [SelectorText(selectors[i])];
      i := i + 1;
    }
    assert parts + [] == parts;
    key := Join(SortStrings(parts), "\0");
  }

  /** How a parent and a selector list are turned into a match key. */
  type KeyFunction = (Option<SpiffeID>, seq<Selector>) -> string

  /** The key function in use: the parent, a NUL, and the sorted type:value texts joined by NULs. */
  function Key(parentID: Option<SpiffeID>, selectors: seq<Selector>): string {
    IDString(parentID) + "\0" + SelectorsKey(selectors)
  }

  // ----- what a key means

  predicate NulFree(s: string) {
    '\0' !in s
  }

  predicate CleanID(id: Option<SpiffeID>) {
    id.Some? ==> NulFree(id.value.trustDomain) && NulFree(id.value.path)
  }

  ghost predicate CleanSelectors(selectors: seq<Selector>) {
    forall s | s in selectors :: NulFree(s.kind) && NulFree(s.value)
  }

  /**
   * Shaped as a SPIFFE ID: characters that sections 2.1 and 2.2 of the SPIFFE-ID specification allow, a trust domain
   * without slashes, and a path that is empty or rooted.
   */
  ghost predicate Shaped(id: Option<SpiffeID>) {
    id.Some? ==>
      && (forall c | c in id.value.trustDomain :: IsNameChar(c))
      && (forall c | c in id.value.path :: IsNameChar(c) || c == '/')
      && (id.value.path == "" || id.value.path[0] == '/')
  }

  /** Selector types without colons, which is what makes type:value readable back. */
  ghost predicate PlainKinds(selectors: seq<Selector>) {
    forall s | s in selectors :: ':' !in s.kind
  }

  function Kinds(selectors: seq<Selector>): set<string> {
    set s | s in selectors :: s.kind
  }

  /** No selector type of the set is another one cut off before a colon. */
  ghost predicate Separable(kinds: set<string>) {
    forall k, l | k in kinds && l in kinds && k != l :: !HasPrefix(l, k + ":")
  }

  lemma CleanIDString(id: Option<SpiffeID>)
    requires CleanID(id)
    ensures NulFree(IDString(id))
  {
  }

  lemma SelectorTextsAt(selectors: seq<Selector>, i: nat)
    requires i < |selectors|
    ensures SelectorTexts(selectors)[i] == SelectorText(selectors[i])
  {
    if i > 0 { SelectorTextsAt(selectors[1..], i - 1); }
  }

  /** Every text is non-empty and NUL-free, so the NUL join can be taken apart. */
  lemma SelectorTextsClean(selectors: seq<Selector>)
    requires CleanSelectors(selectors)
    ensures forall t | t in SelectorTexts(selectors) :: NulFree(t) && t != ""
  {
    var texts := SelectorTexts(selectors);
    forall t | t in texts ensures NulFree(t) && t != "" {
      var i :| 0 <= i < |texts| && texts[i] == t;
      SelectorTextsAt(selectors, i);
      assert selectors[i] in selectors;
    }
  }

  lemma JoinInjective(a: seq<string>, b: seq<string>)
    requires forall t | t in a :: NulFree(t) && t != ""
    requires forall t | t in b :: NulFree(t) && t != ""
    requires Join(a, "\0") == Join(b, "\0")
    ensures a == b
  {
    if a == [] {
      JoinNonEmpty(b);
    } else if b == [] {
      JoinNonEmpty(a);
    } else {
      SplitJoin(a, '\0');
      SplitJoin(b, '\0');
      assert "\0" == ['\0'];
    }
  }

  lemma JoinNonEmpty(a: seq<string>)
    requires forall t | t in a :: t != ""
    ensures a != [] ==> Join(a, "\0") != ""
  {
    if a != [] { assert a[0] in a; }
  }

  lemma CutAtNul(a: string, x: string, b: string, y: string)
    requires NulFree(a) && NulFree(b)
    requires a + "\0" + x == b + "\0" + y
    ensures a == b && x == y
  {
    assert a + "\0" + x == a + ['\0'] + x;
    assert b + "\0" + y == b + ['\0'] + y;
    IndexOfAfter(a, '\0', x);
    IndexOfAfter(b, '\0', y);
    assert (a + "\0" + x)[..|a|] == a;
    assert (b + "\0" + y)[..|b|] == b;
    assert (a + "\0" + x)[|a| + 1..] == x;
    assert (b + "\0" + y)[|b| + 1..] == y;
  }

  /** For NUL-free text a key is exactly the parent's string with the multiset of selector texts. */
  lemma KeyMeaning(p: Option<SpiffeID>, s: seq<Selector>, q: Option<SpiffeID>, t: seq<Selector>)
    requires CleanID(p) && CleanID(q) && CleanSelectors(s) && CleanSelectors(t)
    ensures Key(p, s) == Key(q, t) <==>
      IDString(p) == IDString(q) && multiset(SelectorTexts(s)) == multiset(SelectorTexts(t))
  {
    var a, b := SelectorTexts(s), SelectorTexts(t);
    SortCanonical(a, b);
    if Key(p, s) == Key(q, t) {
      CleanIDString(p);
      CleanIDString(q);
      CutAtNul(IDString(p), SelectorsKey(s), IDString(q), SelectorsKey(t));
      SelectorTextsClean(s);
      SelectorTextsClean(t);
      SortedMembers(a);
      SortedMembers(b);
      JoinInjective(SortStrings(a), SortStrings(b));
    }
  }

  lemma SortedMembers(a: seq<string>)
    ensures forall t :: t in SortStrings(a) <==> t in a
  {
    SortStringsSorts(a);
    forall t ensures t in SortStrings(a) <==> t in a {
      assert t in SortStrings(a) <==> t in multiset(SortStrings(a));
      assert t in a <==> t in multiset(a);
    }
  }

  lemma IDStringInjective(p: Option<SpiffeID>, q: Option<SpiffeID>)
    requires Shaped(p) && Shaped(q)
    requires IDString(p) == IDString(q)
    ensures p == q
  {
    if p.Some? && q.Some? {
      var a, b := p.value, q.value;
      assert IDString(p)[9..] == a.trustDomain + a.path;
      assert IDString(q)[9..] == b.trustDomain + b.path;
      DomainEnds(a);
      DomainEnds(b);
    }
  }

  /** The first slash after the scheme is where the path starts. */
  lemma DomainEnds(a: SpiffeID)
    requires Shaped(Some(a))
    ensures var x := a.trustDomain + a.path;
      && IndexOf(x, '/') == (if a.path == "" then -1 else |a.trustDomain|)
      && x[..|a.trustDomain|] == a.trustDomain && x[|a.trustDomain|..] == a.path
  {
    var x := a.trustDomain + a.path;
    if a.path == "" {
      assert x == a.trustDomain;
      IndexOfFirst(x, '/');
    } else {
      assert a.path == ['/'] + a.path[1..];
      assert x == a.trustDomain + ['/'] + a.path[1..];
      IndexOfAfter(a.trustDomain, '/', a.path[1..]);
    }
  }

  /** Of two types that both start a text before a colon, the shorter is the longer cut off before a colon. */
  lemma KindsNested(k: string, v: string, l: string, w: string)
    requires k + ":" + v == l + ":" + w && |k| <= |l|
    ensures if |k| == |l| then k == l && v == w else HasPrefix(l, k + ":")
  {
    var x, y := k + ":" + v, l + ":" + w;
    assert k == x[..|k|] && l == y[..|l|];
    assert v == x[|k| + 1..] && w == y[|l| + 1..];
    if |k| < |l| {
      assert k + ":" == x[..|k| + 1];
      assert l[..|k| + 1] == y[..|k| + 1];
    }
  }

  lemma SelectorTextInjective(x: Selector, y: Selector, kinds: set<string>)
    requires Separable(kinds) && x.kind in kinds && y.kind in kinds
    requires SelectorText(x) == SelectorText(y)
    ensures x == y
  {
    if |x.kind| <= |y.kind| {
      KindsNested(x.kind, x.value, y.kind, y.value);
    } else {
      KindsNested(y.kind, y.value, x.kind, x.value);
    }
  }

  /** Two selectors with one text, for a type that is another one cut off before a colon. */
  lemma TextCollision(k: string, l: string)
    requires k != l && HasPrefix(l, k + ":")
    ensures SelectorText(Selector(l, "")) == SelectorText(Selector(k, l[|k| + 1..] + ":"))
  {
    assert l == k + ":" + l[|k| + 1..];
  }

  lemma {:induction false} SelectorCount(s: seq<Selector>, x: Selector, kinds: set<string>)
    requires Separable(kinds) && Kinds(s) <= kinds && x.kind in kinds
    ensures multiset(SelectorTexts(s))[SelectorText(x)] == multiset(s)[x]
  {
    if s != [] {
      assert s == [s[0]] + s[1..];
      assert s[0] in s;
      SelectorCount(s[1..], x, kinds);
      if SelectorText(s[0]) == SelectorText(x) {
        SelectorTextInjective(s[0], x, kinds);
      }
      assert multiset(s) == multiset{s[0]} + multiset(s[1..]);
      assert multiset(SelectorTexts(s)) == multiset{SelectorText(s[0])} + multiset(SelectorTexts(s[1..]));
    }
  }

  /** The texts agree as multisets exactly when the selectors do. */
  lemma SelectorMultisets(s: seq<Selector>, t: seq<Selector>, kinds: set<string>)
    requires Separable(kinds) && Kinds(s) <= kinds && Kinds(t) <= kinds
    ensures multiset(SelectorTexts(s)) == multiset(SelectorTexts(t)) <==> multiset(s) == multiset(t)
  {
    if multiset(s) == multiset(t) {
      SelectorTextsOrder(s, t);
    }
    if multiset(SelectorTexts(s)) == multiset(SelectorTexts(t)) {
      forall x ensures multiset(s)[x] == multiset(t)[x] {
        if x in s || x in t {
          SelectorCount(s, x, kinds);
          SelectorCount(t, x, kinds);
        }
      }
    }
  }

  lemma {:induction false} SelectorTextsAppend(s: seq<Selector>, t: seq<Selector>)
    ensures SelectorTexts(s + t) == SelectorTexts(s) + SelectorTexts(t)
  {
    if s == [] {
      assert s + t == t;
    } else {
      assert (s + t)[1..] == s[1..] + t;
      SelectorTextsAppend(s[1..], t);
    }
  }

  lemma SelectorTextsPick(t: seq<Selector>, j: nat)
    requires j < |t|
    ensures multiset(SelectorTexts(t)) == multiset(SelectorTexts(t[..j] + t[j + 1..])) + multiset{SelectorText(t[j])}
  {
    assert t == t[..j] + t[j..];
    assert t[j..][1..] == t[j + 1..];
    SelectorTextsAppend(t[..j], t[j..]);
    SelectorTextsAppend(t[..j], t[j + 1..]);
  }

  lemma WithoutOne(t: seq<Selector>, j: nat)
    requires j < |t|
    ensures multiset(t[..j] + t[j + 1..]) == multiset(t) - multiset{t[j]}
  {
    assert t == t[..j] + [t[j]] + t[j + 1..];
  }

  lemma {:induction false} SelectorTextsOrder(s: seq<Selector>, t: seq<Selector>)
    requires multiset(s) == multiset(t)
    ensures multiset(SelectorTexts(s)) == multiset(SelectorTexts(t))
  {
    if s == [] {
      assert |multiset(t)| == 0;
    } else {
      assert s[0] in multiset(t);
      var j :| 0 <= j < |t| && t[j] == s[0];
      assert s[..0] + s[1..] == s[1..];
      WithoutOne(s, 0);
      WithoutOne(t, j);
      SelectorTextsOrder(s[1..], t[..j] + t[j + 1..]);
      SelectorTextsPick(s, 0);
      SelectorTextsPick(t, j);
    }
  }

  /** Reordering the selectors never changes a key, whatever the text. */
  lemma KeyIgnoresOrder(p: Option<SpiffeID>, s: seq<Selector>, t: seq<Selector>)
    requires multiset(s) == multiset(t)
    ensures Key(p, s) == Key(p, t)
  {
    SelectorTextsOrder(s, t);
    SortCanonical(SelectorTexts(s), SelectorTexts(t));
  }

  lemma ShapedIsClean(id: Option<SpiffeID>)
    requires Shaped(id)
    ensures CleanID(id)
  {
  }

  /** What canonicality asks of a parent and a selector list. */
  ghost predicate Readable(p: Option<SpiffeID>, s: seq<Selector>) {
    Shaped(p) && CleanSelectors(s) && PlainKinds(s)
  }

  /**
   * Canonicality, for selector types of any separable set: two keys are the same exactly when the
   * parents are the same SPIFFE ID and the selectors are the same multiset.
   */
  lemma KeyCanonicalFor(
    p: Option<SpiffeID>, s: seq<Selector>, q: Option<SpiffeID>, t: seq<Selector>, kinds: set<string>)
    requires Separable(kinds) && Kinds(s) <= kinds && Kinds(t) <= kinds
    requires Shaped(p) && Shaped(q) && CleanSelectors(s) && CleanSelectors(t)
    ensures Key(p, s) == Key(q, t) <==> p == q && multiset(s) == multiset(t)
  {
    ShapedIsClean(p);
    ShapedIsClean(q);
    KeyMeaning(p, s, q, t);
    SelectorMultisets(s, t, kinds);
    if IDString(p) == IDString(q) {
      IDStringInjective(p, q);
    }
  }

  /** Types without colons are separable. */
  lemma PlainSeparable(kinds: set<string>)
    requires forall k | k in kinds :: ':' !in k
    ensures Separable(kinds)
  {
    forall k, l | k in kinds && l in kinds && k != l ensures !HasPrefix(l, k + ":") {
      assert (k + ":")[|k|] == ':';
      assert |k| < |l| ==> l[|k|] in l;
    }
  }

  /** Canonicality for colon-free selector types, such as the one the syncer uses. */
  lemma KeyCanonical(p: Option<SpiffeID>, s: seq<Selector>, q: Option<SpiffeID>, t: seq<Selector>)
    requires Readable(p, s) && Readable(q, t)
    ensures Key(p, s) == Key(q, t) <==> p == q && multiset(s) == multiset(t)
  {
    var kinds := Kinds(s) + Kinds(t);
    PlainSeparable(kinds);
    KeyCanonicalFor(p, s, q, t, kinds);
  }

  /** Keys tell apart all NUL-free selector lists with types of this set. */
  ghost predicate KeysTell(kinds: set<string>) {
    forall p, s, q, t | Shaped(p) && Shaped(q) && CleanSelectors(s) && CleanSelectors(t)
      && Kinds(s) <= kinds && Kinds(t) <= kinds && Key(p, s) == Key(q, t) ::
      p == q && multiset(s) == multiset(t)
  }

  lemma KeyCollision(kinds: set<string>, k: string, l: string)
    requires k in kinds && l in kinds && k != l && HasPrefix(l, k + ":") && NulFree(l)
    ensures !KeysTell(kinds)
  {
    var x, y := Selector(l, ""), Selector(k, l[|k| + 1..] + ":");
    TextCollision(k, l);
    assert forall c | c in k :: c in l by { assert k == l[..|k|]; }
    assert SelectorTexts([x]) == [SelectorText(x)] == SelectorTexts([y]);
    assert x in multiset([x]) && x !in multiset([y]);
    assert Key(None, [x]) == Key(None, [y]);
  }

  /**
   * The exact condition on selector types: keys tell apart everything if and only if no type of the set
   * is another one cut off before a colon.
   */
  lemma KindsExactly(kinds: set<string>)
    requires forall k | k in kinds :: NulFree(k)
    ensures KeysTell(kinds) <==> Separable(kinds)
  {
    if Separable(kinds) {
      forall p, s, q, t | Shaped(p) && Shaped(q) && CleanSelectors(s) && CleanSelectors(t)
        && Kinds(s) <= kinds && Kinds(t) <= kinds && Key(p, s) == Key(q, t)
        ensures p == q && multiset(s) == multiset(t)
      {
        KeyCanonicalFor(p, s, q, t, kinds);
      }
    }
    forall k, l | k in kinds && l in kinds && k != l && HasPrefix(l, k + ":") ensures !KeysTell(kinds) {
      KeyCollision(kinds, k, l);
    }
  }

  /** The smallest case: two different selectors that share every key. */
  lemma ColonCollision(p: Option<SpiffeID>)
    ensures Key(p, [Selector("a:b", "c")]) == Key(p, [Selector("a", "b:c")])
    ensures multiset([Selector("a:b", "c")]) != multiset([Selector("a", "b:c")])
  {
    var x, y := Selector("a:b", "c"), Selector("a", "b:c");
    assert SelectorText(x) == "a:b:c" == SelectorText(y);
    assert SelectorTexts([x]) == ["a:b:c"] == SelectorTexts([y]);
    assert x in multiset([x]) && x !in multiset([y]);
  }
}

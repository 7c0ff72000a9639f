/**
 * Hostlists as syntax trees. Printing a tree and expanding the text gives back the
 * names the tree denotes; the range laws are consequences of that round trip.
 */
module HostListSyntax {
  import opened Wrappers
  import opened Text
  import opened Decimal
  import opened HostList
  import opened HostListSplit

  /** One component of a bracket group, with its numerals as written. */
  datatype Part = Single(text: string) | Range(low: string, high: string)

  datatype Element = Plain(name: string) | Group(prefix: string, parts: seq<Part>, suffix: string)

  // ----- well-formed trees, their text and their meaning

  predicate IsUint64(text: string) {
    ParseUint(text).Some?
  }

  predicate WfPart(p: Part) {
    match p
    case Single(text) => IsUint64(text)
    case Range(low, high) => IsUint64(low) && IsUint64(high) && Value(low) <= Value(high)
  }

  /** Free text of an element: no brackets and no commas. */
  predicate IsBare(s: string) {
    '[' !in s && ']' !in s && ',' !in s
  }

  predicate WfElement(el: Element) {
    match el
    case Plain(name) =>
      name != "" && IsBare(name) && !IsSpace(name[0]) && !IsSpace(name[|name| - 1])
    case Group(prefix, parts, suffix) =>
      && IsBare(prefix) && IsBare(suffix)
      && (prefix != "" ==> !IsSpace(prefix[0]))
      && (suffix != "" ==> !IsSpace(suffix[|suffix| - 1]))
      && parts != []
      && forall p | p in parts :: WfPart(p)
  }

  predicate WellFormed(tree: seq<Element>) {
    forall el | el in tree :: WfElement(el)
  }

  function PartText(p: Part): string {
    match p
    case Single(text) => text
    case Range(low, high) => low + "-" + high
  }

  function PartTexts(parts: seq<Part>): (r: seq<string>)
    ensures |r| == |parts|
    ensures forall i | 0 <= i < |r| :: r[i] == PartText(parts[i])
  {
    if parts == [] then [] else [PartText(parts[0])] + PartTexts(parts[1..])
  }

  function ElementText(el: Element): string {
    match el
    case Plain(name) => name
    case Group(prefix, parts, suffix) => Bracketed(prefix, Inner(parts), suffix)
  }

  /** The text between the brackets. */
  function Inner(parts: seq<Part>): string {
    Join(PartTexts(parts), ",")
  }

  function Bracketed(prefix: string, inner: string, suffix: string): string {
    prefix + ("[" + (inner + ("]" + suffix)))
  }

  function ElementTexts(tree: seq<Element>): seq<string> {
    if tree == [] then [] else [ElementText(tree[0])] + ElementTexts(tree[1..])
  }

  /** The hostlist text of a tree. */
  function Print(tree: seq<Element>): string {
    Join(ElementTexts(tree), ",")
  }

  function PartNames(prefix: string, p: Part, suffix: string): seq<string>
    requires WfPart(p)
  {
    match p
    case Single(text) => [prefix + text + suffix]
    case Range(low, high) => RangeNames(prefix, |low|, Value(low), Value(high), suffix)
  }

  function GroupNames(prefix: string, parts: seq<Part>, suffix: string): seq<string>
    requires forall p | p in parts :: WfPart(p)
  {
    if parts == [] then []
    else PartNames(prefix, parts[0], suffix) + GroupNames(prefix, parts[1..], suffix)
  }

  function ElementNames(el: Element): seq<string>
    requires WfElement(el)
  {
    match el
    case Plain(name) => [name]
    case Group(prefix, parts, suffix) => GroupNames(prefix, parts, suffix)
  }

  /** The names a tree denotes, in order. */
  function Denote(tree: seq<Element>): seq<string>
    requires WellFormed(tree)
  {
    if tree == [] then [] else ElementNames(tree[0]) + Denote(tree[1..])
  }

  /** A range ending at 2^64 - 1 that the size guard lets through. */
  predicate Runaway(p: Part)
    requires WfPart(p)
  {
    && p.Range?
    && Value(p.high) == MAX_UINT64
    && (Value(p.low) == 0 || MAX_UINT64 - Value(p.low) < MAX_EXPANDED_HOSTS)
  }

  /** How many names a component denotes. */
  function PartCount(p: Part): nat
    requires WfPart(p)
  {
    match p
    case Single(_) => 1
    case Range(low, high) => Value(high) - Value(low) + 1
  }

  function GroupCount(parts: seq<Part>): nat
    requires forall p | p in parts :: WfPart(p)
  {
    if parts == [] then 0 else PartCount(parts[0]) + GroupCount(parts[1..])
  }

  function ElementCount(el: Element): nat
    requires WfElement(el)
  {
    match el
    case Plain(_) => 1
    case Group(_, parts, _) => GroupCount(parts)
  }

  /** A runaway with nothing in front of it that is over the cap by itself. */
  predicate Stuck(parts: seq<Part>)
    requires forall p | p in parts :: WfPart(p)
  {
    parts != [] && (Runaway(parts[0]) || (PartCount(parts[0]) <= MAX_EXPANDED_HOSTS && Stuck(parts[1..])))
  }

  predicate StuckElement(el: Element)
    requires WfElement(el)
  {
    el.Group? && Stuck(el.parts)
  }

  /** A stuck element that is reached before the names, of which there are used already, exceed the cap. */
  predicate StuckTree(tree: seq<Element>, used: nat)
    requires WellFormed(tree)
  {
    tree != [] &&
    (|| StuckElement(tree[0])
     || (used + ElementCount(tree[0]) <= MAX_EXPANDED_HOSTS && StuckTree(tree[1..], used + ElementCount(tree[0]))))
  }

  predicate NoRunawayElement(el: Element)
    requires WfElement(el)
  {
    el.Group? ==> forall p | p in el.parts :: !Runaway(p)
  }

  predicate NoRunaway(tree: seq<Element>)
    requires WellFormed(tree)
  {
    forall el | el in tree :: NoRunawayElement(el)
  }

  // ----- one part

  lemma DigitsAreBare(s: string)
    requires AllDigits(s)
    ensures IsBare(s) && '-' !in s
    ensures s != "" ==> !IsSpace(s[0]) && !IsSpace(s[|s| - 1])
  {
  }

  lemma PartTextShape(p: Part)
    requires WfPart(p)
    ensures IsBare(PartText(p)) && PartText(p) != "" && Trim(PartText(p)) == PartText(p)
    ensures !IsSpace(PartText(p)[0])
  {
    match p
    case Single(text) =>
      DigitsAreBare(text);
    case Range(low, high) =>
      DigitsAreBare(low);
      DigitsAreBare(high);
  }

  /**
   * One range meets its promise, the names low to high within the cap and an error
   * beyond it, exactly when it is not a runaway; a runaway never returns.
   */
  lemma RangeExact(prefix: string, p: Part, suffix: string)
    requires WfPart(p) && p.Range?
    ensures ExpandPart(prefix, PartText(p), suffix) ==
      if Runaway(p) then Diverges
      else if |PartNames(prefix, p, suffix)| > MAX_EXPANDED_HOSTS then Failed(TooMany)
      else Names(PartNames(prefix, p, suffix))
  {
    PartTextShape(p);
    var text := PartText(p);
    DigitsAreBare(p.low);
    IndexOfFirst(text, '-');
    assert text == p.low + ['-'] + p.high;
    IndexOfAfter(p.low, '-', p.high);
    assert text[..|p.low|] == p.low;
    assert text[|p.low| + 1..] == p.high;
  }

  lemma PartExact(prefix: string, p: Part, suffix: string)
    requires WfPart(p)
    ensures ExpandPart(prefix, PartText(p), suffix) ==
      if Runaway(p) then Diverges
      else if |PartNames(prefix, p, suffix)| > MAX_EXPANDED_HOSTS then Failed(TooMany)
      else Names(PartNames(prefix, p, suffix))
  {
    if p.Range? {
      RangeExact(prefix, p, suffix);
    } else {
      PartTextShape(p);
      DigitsAreBare(p.text);
      IndexOfFirst(p.text, '-');
    }
  }

  // ----- one element

  lemma {:induction false} GroupNamesCount(prefix: string, parts: seq<Part>, suffix: string)
    requires forall p | p in parts :: WfPart(p)
    ensures |GroupNames(prefix, parts, suffix)| == GroupCount(parts)
  {
    if parts != [] {
      assert parts[0] in parts;
      GroupNamesCount(prefix, parts[1..], suffix);
    }
  }

  lemma ElementNamesCount(el: Element)
    requires WfElement(el)
    ensures |ElementNames(el)| == ElementCount(el)
  {
    if el.Group? { GroupNamesCount(el.prefix, el.parts, el.suffix); }
  }

  /** What expanding anything that denotes names gives; only names over the cap may already be refused. */
  ghost predicate Meets(r: Expansion, names: seq<string>, stuck: bool) {
    if stuck then r == Diverges
    else r == Names(names) || (r == Failed(TooMany) && |names| > MAX_EXPANDED_HOSTS)
  }

  lemma ExtendMeets(xs: seq<string>, r: Expansion, names: seq<string>, stuck: bool)
    requires Meets(r, names, stuck)
    ensures Meets(Extend(xs, r), xs + names, stuck)
  {
  }

  lemma {:induction false} PartsMeet(prefix: string, parts: seq<Part>, suffix: string)
    requires forall p | p in parts :: WfPart(p)
    ensures Meets(ExpandParts(prefix, PartTexts(parts), suffix), GroupNames(prefix, parts, suffix), Stuck(parts))
  {
    if parts != [] {
      var p, more := parts[0], parts[1..];
      assert p in parts;
      PartExact(prefix, p, suffix);
      PartsMeet(prefix, more, suffix);
      assert PartTexts(parts)[1..] == PartTexts(more);
      ExtendMeets(
        PartNames(prefix, p, suffix), ExpandParts(prefix, PartTexts(more), suffix),
        GroupNames(prefix, more, suffix), Stuck(more));
    }
  }

  lemma {:induction false} JoinBare(texts: seq<string>)
    requires forall t | t in texts :: '[' !in t && ']' !in t
    ensures '[' !in Join(texts, ",") && ']' !in Join(texts, ",")
  {
    if |texts| > 1 {
      assert texts[0] in texts;
      JoinBare(texts[1..]);
    } else if |texts| == 1 {
      assert texts[0] in texts;
    }
  }

  lemma InnerShape(parts: seq<Part>)
    requires parts != [] && forall p | p in parts :: WfPart(p)
    ensures '[' !in Inner(parts) && ']' !in Inner(parts)
    ensures Trim(Inner(parts)) != ""
    ensures Split(Inner(parts), ',') == PartTexts(parts)
  {
    var texts := PartTexts(parts);
    forall t | t in texts ensures IsBare(t) && t != "" && !IsSpace(t[0]) {
      var i :| 0 <= i < |texts| && texts[i] == t;
      assert parts[i] in parts;
      PartTextShape(parts[i]);
    }
    JoinBare(texts);
    SplitJoin(texts, ',');
    assert texts[0] in texts;
    assert Inner(parts) != "" && Inner(parts)[0] == texts[0][0];
    assert Inner(parts)[0] in Inner(parts);
    TrimmedEmpty(Inner(parts));
  }

  lemma BracketIndices(prefix: string, inner: string, suffix: string)
    requires '[' !in prefix && ']' !in prefix && '[' !in inner && ']' !in inner
    ensures IndexOf(Bracketed(prefix, inner, suffix), '[') == |prefix|
    ensures IndexOf(Bracketed(prefix, inner, suffix), ']') == |prefix| + 1 + |inner|
  {
    var text := Bracketed(prefix, inner, suffix);
    assert text == prefix + ['['] + (inner + ("]" + suffix));
    IndexOfAfter(prefix, '[', inner + ("]" + suffix));
    var front := prefix + "[" + inner;
    assert text == front + [']'] + suffix;
    IndexOfAfter(front, ']', suffix);
  }

  lemma BracketSlices(prefix: string, inner: string, suffix: string)
    ensures var text := Bracketed(prefix, inner, suffix);
      && |text| == |prefix| + |inner| + |suffix| + 2
      && text[..|prefix|] == prefix
      && text[|prefix| + 1..|prefix| + 1 + |inner|] == inner
      && text[|prefix| + 1 + |inner| + 1..] == suffix
  {
  }

  lemma CutBracketed(prefix: string, inner: string, suffix: string)
    requires '[' !in prefix && ']' !in prefix && '[' !in inner && ']' !in inner
    ensures CutGroup(Bracketed(prefix, inner, suffix)) == Around(prefix, inner, suffix)
  {
    BracketIndices(prefix, inner, suffix);
    BracketSlices(prefix, inner, suffix);
  }

  lemma BracketedExpansion(prefix: string, inner: string, suffix: string)
    requires '[' !in prefix && ']' !in prefix && '[' !in inner && ']' !in inner
    ensures Expand(Bracketed(prefix, inner, suffix)) == ExpandGroup(prefix, inner, suffix)
  {
    CutBracketed(prefix, inner, suffix);
  }

  lemma GroupExpansion(el: Element)
    requires WfElement(el) && el.Group?
    ensures Expand(ElementText(el)) == ExpandParts(el.prefix, PartTexts(el.parts), el.suffix)
  {
    InnerShape(el.parts);
    BracketedExpansion(el.prefix, Inner(el.parts), el.suffix);
  }

  lemma ElementMeets(el: Element)
    requires WfElement(el)
    ensures Meets(Expand(ElementText(el)), ElementNames(el), StuckElement(el))
  {
    if el.Plain? {
      IndexOfFirst(el.name, '[');
      IndexOfFirst(el.name, ']');
    } else {
      GroupExpansion(el);
      PartsMeet(el.prefix, el.parts, el.suffix);
    }
  }

  // ----- the whole tree

  lemma ScanSuffix(suffix: string, current: string)
    requires IsBare(suffix)
    ensures Scan("]" + suffix, 1, current) == Success([current + ("]" + suffix)])
  {
    assert ("]" + suffix)[1..] == suffix == suffix + "";
    ScanThrough(suffix, "", 0, current + "]");
    assert current + "]" + suffix == current + ("]" + suffix);
  }

  lemma ScanInner(inner: string, suffix: string, current: string)
    requires '[' !in inner && ']' !in inner && IsBare(suffix)
    ensures Scan("[" + (inner + ("]" + suffix)), 0, current) == Success([current + ("[" + (inner + ("]" + suffix)))])
  {
    var tail := "]" + suffix;
    assert ("[" + (inner + tail))[1..] == inner + tail;
    ScanThrough(inner, tail, 1, current + "[");
    ScanSuffix(suffix, current + "[" + inner);
    assert current + "[" + inner + tail == current + ("[" + (inner + tail));
  }

  lemma BareScan(s: string)
    requires IsBare(s)
    ensures Scan(s, 0, "") == Success([s])
  {
    assert s + "" == s == "" + s;
    ScanThrough(s, "", 0, "");
  }

  lemma BracketedScan(prefix: string, inner: string, suffix: string)
    requires IsBare(prefix) && IsBare(suffix) && '[' !in inner && ']' !in inner
    ensures Scan(Bracketed(prefix, inner, suffix), 0, "") == Success([Bracketed(prefix, inner, suffix)])
  {
    assert "" + prefix == prefix;
    ScanThrough(prefix, "[" + (inner + ("]" + suffix)), 0, "");
    ScanInner(inner, suffix, prefix);
  }

  lemma ElementScan(el: Element)
    requires WfElement(el)
    ensures Scan(ElementText(el), 0, "") == Success([ElementText(el)])
  {
    match el
    case Plain(name) => BareScan(name);
    case Group(prefix, parts, suffix) =>
      InnerShape(parts);
      BracketedScan(prefix, Inner(parts), suffix);
  }

  /** Texts that each scan to themselves, joined, scan to their list. */
  lemma {:induction false} JoinScan(texts: seq<string>)
    requires texts != [] && forall t | t in texts :: Scan(t, 0, "") == Success([t])
    ensures Scan(Join(texts, ","), 0, "") == Success(texts)
  {
    assert texts[0] in texts;
    if |texts| > 1 {
      JoinScan(texts[1..]);
      ScanAppend(texts[0], Join(texts[1..], ","), 0, "");
      assert [texts[0]] + texts[1..] == texts;
    } else {
      assert texts == [texts[0]];
    }
  }

  lemma ElementTrimmed(el: Element)
    requires WfElement(el)
    ensures ElementText(el) != "" && Trim(ElementText(el)) == ElementText(el)
  {
    if el.Group? {
      var text := ElementText(el);
      assert text[0] == if el.prefix == "" then '[' else el.prefix[0];
      assert text[|text| - 1] == if el.suffix == "" then ']' else el.suffix[|el.suffix| - 1];
    }
    TrimIdentity(ElementText(el));
  }

  lemma {:induction false} ElementTextsFacts(tree: seq<Element>)
    requires WellFormed(tree)
    ensures forall t | t in ElementTexts(tree) :: Scan(t, 0, "") == Success([t])
    ensures Keep(ElementTexts(tree)) == ElementTexts(tree)
  {
    if tree != [] {
      assert tree[0] in tree;
      ElementScan(tree[0]);
      ElementTrimmed(tree[0]);
      ElementTextsFacts(tree[1..]);
      assert ElementTexts(tree)[1..] == ElementTexts(tree[1..]);
    }
  }

  lemma PrintElements(tree: seq<Element>)
    requires WellFormed(tree) && tree != []
    ensures Scan(Print(tree), 0, "") == Success(ElementTexts(tree))
    ensures Keep(ElementTexts(tree)) == ElementTexts(tree)
  {
    ElementTextsFacts(tree);
    JoinScan(ElementTexts(tree));
  }

  lemma TreeCons(tree: seq<Element>)
    requires WellFormed(tree) && tree != []
    ensures WfElement(tree[0]) && WellFormed(tree[1..])
    ensures Denote(tree) == ElementNames(tree[0]) + Denote(tree[1..])
    ensures ElementTexts(tree)[0] == ElementText(tree[0])
    ensures ElementTexts(tree)[1..] == ElementTexts(tree[1..])
  {
    assert tree[0] in tree;
    assert forall x | x in tree :: x == tree[0] || x in tree[1..];
  }

  /** The names, or the size error when there are more of them than the cap. */
  function Capped(names: seq<string>): Expansion {
    if |names| <= MAX_EXPANDED_HOSTS then Names(names) else Failed(TooMany)
  }

  /** What an element contributes: its names, unless it is stuck. */
  datatype Yield = Yield(names: seq<string>, stuck: bool)

  function Yields(tree: seq<Element>): seq<Yield>
    requires WellFormed(tree)
  {
    if tree == [] then [] else [Yield(ElementNames(tree[0]), StuckElement(tree[0]))] + Yields(tree[1..])
  }

  function AllNames(ys: seq<Yield>): seq<string> {
    if ys == [] then [] else ys[0].names + AllNames(ys[1..])
  }

  /** A stuck element is reached while at most the cap of names is used. */
  predicate StuckAfter(ys: seq<Yield>, used: nat) {
    ys != [] &&
    (ys[0].stuck || (used + |ys[0].names| <= MAX_EXPANDED_HOSTS && StuckAfter(ys[1..], used + |ys[0].names|)))
  }

  /** Each expansion is what its element contributes. */
  ghost predicate AllMeet(ys: seq<Yield>, all: seq<Expansion>)
    decreases |ys|
  {
    if ys == [] then all == []
    else all != [] && Meets(all[0], ys[0].names, ys[0].stuck) && AllMeet(ys[1..], all[1..])
  }

  lemma {:induction false} TreeMeets(tree: seq<Element>)
    requires WellFormed(tree)
    ensures AllMeet(Yields(tree), Expansions(ElementTexts(tree)))
    decreases |tree|
  {
    if tree != [] {
      TreeCons(tree);
      ElementMeets(tree[0]);
      TreeMeets(tree[1..]);
      YieldsCons(tree);
      ExpansionsCons(ElementTexts(tree));
      MeetCons(
        Yield(ElementNames(tree[0]), StuckElement(tree[0])), Yields(tree[1..]),
        Expand(ElementText(tree[0])), Expansions(ElementTexts(tree[1..])));
    }
  }

  lemma YieldsCons(tree: seq<Element>)
    requires WellFormed(tree) && tree != []
    ensures Yields(tree) == [Yield(ElementNames(tree[0]), StuckElement(tree[0]))] + Yields(tree[1..])
  {
  }

  lemma ExpansionsCons(texts: seq<string>)
    requires texts != []
    ensures Expansions(texts) == [Expand(texts[0])] + Expansions(texts[1..])
  {
  }

  lemma MeetCons(y: Yield, ys: seq<Yield>, e: Expansion, all: seq<Expansion>)
    requires Meets(e, y.names, y.stuck) && AllMeet(ys, all)
    ensures AllMeet([y] + ys, [e] + all)
  {
    assert ([y] + ys)[1..] == ys && ([e] + all)[1..] == all;
  }

  lemma {:induction false} YieldNames(tree: seq<Element>)
    requires WellFormed(tree)
    ensures AllNames(Yields(tree)) == Denote(tree)
    decreases |tree|
  {
    if tree != [] {
      YieldsCons(tree);
      YieldNames(tree[1..]);
      AllNamesCons(Yield(ElementNames(tree[0]), StuckElement(tree[0])), Yields(tree[1..]));
    }
  }

  lemma AllNamesCons(y: Yield, ys: seq<Yield>)
    ensures AllNames([y] + ys) == y.names + AllNames(ys)
  {
    assert ([y] + ys)[1..] == ys;
  }

  lemma StuckAfterCons(y: Yield, ys: seq<Yield>, used: nat)
    ensures StuckAfter([y] + ys, used) <==>
      y.stuck || (used + |y.names| <= MAX_EXPANDED_HOSTS && StuckAfter(ys, used + |y.names|))
  {
    assert ([y] + ys)[1..] == ys;
  }

  lemma {:induction false} YieldStuck(tree: seq<Element>, used: nat)
    requires WellFormed(tree)
    ensures StuckAfter(Yields(tree), used) <==> StuckTree(tree, used)
    decreases |tree|
  {
    if tree != [] {
      YieldsCons(tree);
      ElementNamesCount(tree[0]);
      YieldStuck(tree[1..], used + ElementCount(tree[0]));
      StuckAfterCons(Yield(ElementNames(tree[0]), StuckElement(tree[0])), Yields(tree[1..]), used);
    }
  }

  /** The tree's own terms say the same as its contributions. */
  lemma YieldsExact(tree: seq<Element>, used: nat)
    requires WellFormed(tree)
    ensures AllNames(Yields(tree)) == Denote(tree)
    ensures StuckAfter(Yields(tree), used) <==> StuckTree(tree, used)
  {
    YieldNames(tree);
    YieldStuck(tree, used);
  }

  /** The collecting loop over what the elements contribute. */
  lemma {:induction false} CollectYields(ys: seq<Yield>, all: seq<Expansion>, out: seq<string>)
    requires |out| <= MAX_EXPANDED_HOSTS && AllMeet(ys, all)
    ensures Collect(all, out) == if StuckAfter(ys, |out|) then Diverges else Capped(out + AllNames(ys))
    decreases |ys|
  {
    if ys == [] {
      assert out + AllNames(ys) == out;
    } else {
      var hosts := ys[0].names;
      assert out + hosts + AllNames(ys[1..]) == out + (hosts + AllNames(ys[1..]));
      if |out| + |hosts| <= MAX_EXPANDED_HOSTS {
        CollectYields(ys[1..], all[1..], out + hosts);
      }
    }
  }

  /**
   * The round trip, with its exact boundary: printing any well-formed tree and expanding the text
   * gives the denoted names, or the size error when there are more than 2^20 of them, if and only if the
   * expander does not come to a range that never ends before it has seen too many names.
   */
  lemma PrintExpandRoundTrip(tree: seq<Element>)
    requires WellFormed(tree)
    ensures ExpandedList(Print(tree)) == if StuckTree(tree, 0) then Diverges else Capped(Denote(tree))
    ensures ExpandedList(Print(tree)) == Capped(Denote(tree)) <==> !StuckTree(tree, 0)
  {
    TrimmingImmaterial(Print(tree));
    if tree == [] {
      assert Scan("", 0, "") == Success([""]);
      assert [""][1..] == [];
      assert Keep([""]) == [];
    } else {
      PrintElements(tree);
      TreeMeets(tree);
      YieldsExact(tree, 0);
      CollectYields(Yields(tree), Expansions(ElementTexts(tree)), []);
      assert [] + Denote(tree) == Denote(tree);
    }
  }

  lemma {:induction false} NoRunawayNotStuck(parts: seq<Part>)
    requires forall p | p in parts :: WfPart(p) && !Runaway(p)
    ensures !Stuck(parts)
  {
    if parts != [] {
      assert parts[0] in parts;
      NoRunawayNotStuck(parts[1..]);
    }
  }

  /** Without any runaway nothing is stuck. */
  lemma {:induction false} NoRunawayReturns(tree: seq<Element>, used: nat)
    requires WellFormed(tree) && NoRunaway(tree)
    ensures !StuckTree(tree, used)
  {
    if tree != [] {
      assert tree[0] in tree;
      if tree[0].Group? { NoRunawayNotStuck(tree[0].parts); }
      NoRunawayReturns(tree[1..], used + ElementCount(tree[0]));
    }
  }

  lemma {:induction false} RunawayStuck(parts: seq<Part>, p: Part)
    requires forall q | q in parts :: WfPart(q)
    requires GroupCount(parts) <= MAX_EXPANDED_HOSTS && p in parts && Runaway(p)
    ensures Stuck(parts)
  {
    if parts[0] != p {
      assert parts[0] in parts;
      RunawayStuck(parts[1..], p);
    }
  }

  lemma {:induction false} YieldIn(tree: seq<Element>, el: Element)
    requires WellFormed(tree) && el in tree
    ensures Yield(ElementNames(el), StuckElement(el)) in Yields(tree)
  {
    YieldsCons(tree);
    if tree[0] != el {
      YieldIn(tree[1..], el);
    }
  }

  lemma {:induction false} StuckWithinCap(ys: seq<Yield>, used: nat, y: Yield)
    requires used + |AllNames(ys)| <= MAX_EXPANDED_HOSTS && y in ys
    ensures |y.names| <= MAX_EXPANDED_HOSTS
    ensures y.stuck ==> StuckAfter(ys, used)
  {
    if ys[0] != y {
      StuckWithinCap(ys[1..], used + |ys[0].names|, y);
    }
  }

  /** A tree within the cap is stuck as soon as it holds a runaway anywhere. */
  lemma WithinCapStuck(tree: seq<Element>, el: Element)
    requires WellFormed(tree) && |Denote(tree)| <= MAX_EXPANDED_HOSTS
    requires el in tree && !NoRunawayElement(el)
    ensures StuckTree(tree, 0)
  {
    YieldIn(tree, el);
    YieldsExact(tree, 0);
    StuckWithinCap(Yields(tree), 0, Yield(ElementNames(el), StuckElement(el)));
    ElementNamesCount(el);
    var p :| p in el.parts && Runaway(p);
    RunawayStuck(el.parts, p);
  }

  /** Within the cap, the names come back exactly when there is no runaway; otherwise nothing does. */
  lemma RoundTripWithinCap(tree: seq<Element>)
    requires WellFormed(tree) && |Denote(tree)| <= MAX_EXPANDED_HOSTS
    ensures ExpandedList(Print(tree)) == if NoRunaway(tree) then Names(Denote(tree)) else Diverges
  {
    PrintExpandRoundTrip(tree);
    if NoRunaway(tree) {
      NoRunawayReturns(tree, 0);
    } else {
      var el :| el in tree && !NoRunawayElement(el);
      WithinCapStuck(tree, el);
    }
  }

  /** When every bound written is below 2^64 - 1 there is no runaway, and the round trip is complete. */
  lemma BoundsBelowMax(tree: seq<Element>)
    requires WellFormed(tree)
    requires forall el | el in tree && el.Group? ::
      forall p | p in el.parts && p.Range? :: Value(p.high) < MAX_UINT64
    ensures ExpandedList(Print(tree)) == Capped(Denote(tree))
  {
    forall el | el in tree ensures NoRunawayElement(el) {
    }
    NoRunawayReturns(tree, 0);
    PrintExpandRoundTrip(tree);
  }

  /** The same for a single bracket group. */
  lemma GroupRoundTrip(prefix: string, parts: seq<Part>, suffix: string)
    requires WfElement(Group(prefix, parts, suffix))
    requires forall p | p in parts && p.Range? :: Value(p.high) < MAX_UINT64
    ensures var names := GroupNames(prefix, parts, suffix);
      ExpandedList(Print([Group(prefix, parts, suffix)])) ==
        if |names| <= MAX_EXPANDED_HOSTS then Names(names) else Failed(TooMany)
  {
    var el := Group(prefix, parts, suffix);
    BoundsBelowMax([el]);
    TreeCons([el]);
    assert [el][1..] == [];
    assert Denote([el]) == GroupNames(prefix, parts, suffix);
  }

  /** A list of one runaway range never returns, whether or not its size is within the cap. */
  lemma RunawayDiverges(prefix: string, p: Part, suffix: string)
    requires WfElement(Group(prefix, [p], suffix)) && Runaway(p)
    ensures ExpandedList(Print([Group(prefix, [p], suffix)])) == Diverges
  {
    var el := Group(prefix, [p], suffix);
    assert StuckElement(el);
    PrintExpandRoundTrip([el]);
  }

  /** 2^64 - 1 as written in decimal. */
  const TOP: string := "18446744073709551615"

  /** The value of the first n digits. */
  lemma TopPrefix(n: nat, v: nat)
    requires n < |TOP| && AllDigits(TOP[..n]) && Value(TOP[..n]) == v
    ensures AllDigits(TOP[..n + 1]) && Value(TOP[..n + 1]) == 10 * v + DigitValue(TOP[n])
  {
    assert TOP[..n + 1][..n] == TOP[..n];
  }

  lemma TopTo5()
    ensures AllDigits(TOP[..5]) && Value(TOP[..5]) == 18446
  {
    assert TOP[..0] == "";
    TopPrefix(0, 0);
    TopPrefix(1, 1);
    TopPrefix(2, 18);
    TopPrefix(3, 184);
    TopPrefix(4, 1844);
  }

  lemma TopTo10()
    ensures AllDigits(TOP[..10]) && Value(TOP[..10]) == 1844674407
  {
    TopTo5();
    TopPrefix(5, 18446);
    TopPrefix(6, 184467);
    TopPrefix(7, 1844674);
    TopPrefix(8, 18446744);
    TopPrefix(9, 184467440);
  }

  lemma TopTo15()
    ensures AllDigits(TOP[..15]) && Value(TOP[..15]) == 184467440737095
  {
    TopTo10();
    TopPrefix(10, 1844674407);
    TopPrefix(11, 18446744073);
    TopPrefix(12, 184467440737);
    TopPrefix(13, 1844674407370);
    TopPrefix(14, 18446744073709);
  }

  lemma TopValue()
    ensures ParseUint(TOP) == Some(MAX_UINT64)
  {
    TopTo15();
    TopPrefix(15, 184467440737095);
    TopPrefix(16, 1844674407370955);
    TopPrefix(17, 18446744073709551);
    TopPrefix(18, 184467440737095516);
    TopPrefix(19, 1844674407370955161);
    assert TOP[..|TOP|] == TOP;
  }

  lemma RangeToDiverges(top: string)
    requires ParseUint(top) == Some(MAX_UINT64)
    ensures ExpandedList("node[0-" + top + "]") == Diverges
  {
    ZeroValue();
    FullRangeText(top);
    RunawayDiverges("node", Range("0", top), "");
  }

  lemma FullRangeLiteral()
    ensures "node[0-" + TOP + "]" == "node[0-18446744073709551615]"
  {
  }

  /** The concrete case: the size guard wraps around to zero and lets the whole 64-bit range through. */
  lemma FullRangeDiverges()
    ensures ExpandedList("node[0-18446744073709551615]") == Diverges
  {
    TopValue();
    RangeToDiverges(TOP);
    FullRangeLiteral();
  }

  lemma ZeroValue()
    ensures ParseUint("0") == Some(0)
  {
    assert "0"[..0] == "";
  }

  lemma FullRangeText(top: string)
    ensures var el := Group("node", [Range("0", top)], "");
      && PartTexts(el.parts) == ["0-" + top]
      && ElementTexts([el]) == [ElementText(el)]
      && Print([el]) == "node[0-" + top + "]"
  {
    var el := Group("node", [Range("0", top)], "");
    assert [Range("0", top)][1..] == [];
    assert PartTexts([]) == [];
    assert "0" + "-" + top == "0-" + top;
    assert PartTexts(el.parts) == ["0-" + top];
    assert [el][1..] == [];
    assert ElementTexts([el]) == [ElementText(el)];
    assert "node" + ("[" + (("0-" + top) + ("]" + ""))) == "node[0-" + top + "]";
  }

  // ----- range laws

  lemma NameInjective(prefix: string, width: nat, m: nat, n: nat, suffix: string)
    requires Name(prefix, width, m, suffix) == Name(prefix, width, n, suffix)
    ensures m == n
  {
    var x, y := Pad(width, m), Pad(width, n);
    PadValue(width, m);
    PadValue(width, n);
    assert |prefix + x + suffix| == |prefix + y + suffix|;
    assert x == (prefix + x + suffix)[|prefix|..|prefix| + |x|];
    assert y == (prefix + y + suffix)[|prefix|..|prefix| + |y|];
  }

  lemma {:induction false} SeriesAt(name: nat -> string, low: nat, high: int, i: nat)
    requires low + i <= high
    ensures Series(name, low, high)[i] == name(low + i)
    decreases high
  {
    if low + i < high { SeriesAt(name, low, high - 1, i); }
  }

  lemma RangeNamesAt(prefix: string, width: nat, low: nat, high: int, suffix: string, i: nat)
    requires low + i <= high
    ensures RangeNames(prefix, width, low, high, suffix)[i] == Name(prefix, width, low + i, suffix)
  {
    SeriesAt((n: nat) => Name(prefix, width, n, suffix), low, high, i);
  }

  lemma Between(prefix: string, t: string, suffix: string)
    ensures var name := prefix + t + suffix;
      |prefix| + |suffix| <= |name| && name[|prefix|..|name| - |suffix|] == t
  {
  }

  /** What a name consists of: its number, zero-padded to the width, between prefix and suffix. */
  lemma NameShape(prefix: string, width: nat, n: nat, suffix: string)
    requires width > 0
    ensures Numbered(Name(prefix, width, n, suffix), prefix, width, n, suffix)
  {
    PadShape(width, n);
    Between(prefix, Pad(width, n), suffix);
  }

  predicate Numbered(name: string, prefix: string, width: nat, n: nat, suffix: string) {
    |prefix| + |suffix| <= |name| &&
    var t := name[|prefix|..|name| - |suffix|];
    && name == prefix + t + suffix
    && AllDigits(t) && Value(t) == n
    && |t| >= width && (|t| > width ==> t[0] != '0')
  }

  /** The name at each position of a range. */
  lemma RangeNumbered(prefix: string, width: nat, low: nat, high: int, suffix: string, i: nat)
    requires width > 0 && low + i <= high
    ensures Numbered(RangeNames(prefix, width, low, high, suffix)[i], prefix, width, low + i, suffix)
  {
    RangeNamesAt(prefix, width, low, high, suffix, i);
    NameShape(prefix, width, low + i, suffix);
  }

  lemma NamesApart(prefix: string, width: nat, m: nat, n: nat, suffix: string)
    requires m != n
    ensures Name(prefix, width, m, suffix) != Name(prefix, width, n, suffix)
  {
    if Name(prefix, width, m, suffix) == Name(prefix, width, n, suffix) {
      NameInjective(prefix, width, m, n, suffix);
    }
  }

  lemma RangeNamesApart(
    prefix: string, width: nat, low: nat, high: nat, suffix: string, i: nat, j: nat)
    requires i < j && low + j <= high
    ensures RangeNames(prefix, width, low, high, suffix)[i] != RangeNames(prefix, width, low, high, suffix)[j]
  {
    RangeNamesAt(prefix, width, low, high, suffix, i);
    RangeNamesAt(prefix, width, low, high, suffix, j);
    NamesApart(prefix, width, low + i, low + j, suffix);
  }

  /** The names of one range are pairwise distinct, as many as it has numbers. */
  lemma RangeNamesDistinct(prefix: string, width: nat, low: nat, high: nat, suffix: string)
    requires low <= high
    ensures var names := RangeNames(prefix, width, low, high, suffix);
      && |names| == high - low + 1
      && forall i, j | 0 <= i < j < |names| :: names[i] != names[j]
  {
    var names := RangeNames(prefix, width, low, high, suffix);
    forall i, j | 0 <= i < j < |names| ensures names[i] != names[j] {
      RangeNamesApart(prefix, width, low, high, suffix, i, j);
    }
  }

  /**
   * Every pair of texts the range code accepts: it returns names only for bounds below 2^64 - 1,
   * and then exactly high - low + 1 of them, at most 2^20, all different.
   */
  lemma RangeArithmetic(prefix: string, lowText: string, highText: string, suffix: string)
    ensures var r := ExpandRange(prefix, lowText, highText, suffix);
      && (r.Names? ==>
        && IsUint64(lowText) && IsUint64(highText)
        && Value(highText) < MAX_UINT64
        && |r.names| == Value(highText) - Value(lowText) + 1 <= MAX_EXPANDED_HOSTS
        && forall i, j | 0 <= i < j < |r.names| :: r.names[i] != r.names[j])
      && (r.Diverges? <==>
        && IsUint64(lowText) && IsUint64(highText)
        && Value(lowText) <= Value(highText) == MAX_UINT64
        && (Value(lowText) == 0 || MAX_UINT64 - Value(lowText) < MAX_EXPANDED_HOSTS))
  {
    if ExpandRange(prefix, lowText, highText, suffix).Names? {
      RangeNamesDistinct(prefix, |lowText|, Value(lowText), Value(highText), suffix);
    }
  }

  /** A series cut in two, when the names of its second part may also be formed in another way. */
  lemma {:induction false} SeriesSplit(name: nat -> string, wider: nat -> string, low: nat, mid: nat, high: nat)
    requires low <= mid <= high
    requires forall n: nat | mid < n <= high :: wider(n) == name(n)
    ensures Series(name, low, high) == Series(name, low, mid) + Series(wider, mid + 1, high)
    decreases high
  {
    if mid == high {
      assert Series(wider, mid + 1, high) == [];
    } else {
      SeriesSplit(name, wider, low, mid, high - 1);
    }
  }

  lemma RangeNamesSplit(prefix: string, width: nat, low: nat, mid: nat, high: nat, suffix: string, wide: nat)
    requires low <= mid <= high && wide == |Pad(width, mid + 1)|
    ensures RangeNames(prefix, width, low, high, suffix)
         == RangeNames(prefix, width, low, mid, suffix) + RangeNames(prefix, wide, mid + 1, high, suffix)
  {
    forall n: nat | mid < n <= high ensures Name(prefix, wide, n, suffix) == Name(prefix, width, n, suffix) {
      PadWidthStable(width, mid + 1, n);
    }
    SeriesSplit(
      (n: nat) => Name(prefix, width, n, suffix), (n: nat) => Name(prefix, wide, n, suffix), low, mid, high);
  }

  lemma GroupNamesTwo(prefix: string, p: Part, q: Part, suffix: string)
    requires WfPart(p) && WfPart(q)
    ensures GroupNames(prefix, [p], suffix) == PartNames(prefix, p, suffix)
    ensures GroupNames(prefix, [p, q], suffix) == PartNames(prefix, p, suffix) + PartNames(prefix, q, suffix)
  {
    assert [p][1..] == [] && [q][1..] == [];
    assert [p, q][1..] == [q];
  }

  /** p is the number behind m, padded to the width of a. */
  predicate Follows(a: string, m: string, p: string)
    requires IsUint64(m)
  {
    p == Pad(|a|, Value(m) + 1)
  }

  lemma FollowsValue(a: string, m: string, p: string)
    requires IsUint64(m) && Value(m) < MAX_UINT64 && Follows(a, m, p)
    ensures IsUint64(p) && Value(p) == Value(m) + 1
  {
    PadValue(|a|, Value(m) + 1);
  }

  lemma SplitNames(prefix: string, a: string, m: string, p: string, b: string, suffix: string)
    requires IsUint64(a) && IsUint64(m) && IsUint64(b) && IsUint64(p)
    requires Value(a) <= Value(m) < Value(b) && Value(p) == Value(m) + 1 && Follows(a, m, p)
    ensures PartNames(prefix, Range(a, b), suffix)
         == PartNames(prefix, Range(a, m), suffix) + PartNames(prefix, Range(p, b), suffix)
  {
    RangeNamesSplit(prefix, |a|, Value(a), Value(m), Value(b), suffix, |p|);
  }

  /** [a-b] and [a-m,p-b] denote the same names, where p is m + 1 padded to the width of a. */
  lemma SplitGroups(prefix: string, a: string, m: string, p: string, b: string, suffix: string)
    requires IsUint64(a) && IsUint64(m) && IsUint64(b)
    requires Value(a) <= Value(m) < Value(b) && Follows(a, m, p)
    ensures var whole, left, right := Range(a, b), Range(a, m), Range(p, b);
      && WfPart(whole) && WfPart(left) && WfPart(right)
      && GroupNames(prefix, [whole], suffix) == GroupNames(prefix, [left, right], suffix)
  {
    var whole, left, right := Range(a, b), Range(a, m), Range(p, b);
    FollowsValue(a, m, p);
    SplitNames(prefix, a, m, p, b, suffix);
    GroupNamesTwo(prefix, whole, whole, suffix);
    GroupNamesTwo(prefix, left, right, suffix);
  }

  /** A printable group none of whose ranges ends at the largest 64-bit number. */
  ghost predicate Returns(prefix: string, parts: seq<Part>, suffix: string) {
    && WfElement(Group(prefix, parts, suffix))
    && forall p | p in parts && p.Range? :: Value(p.high) < MAX_UINT64
  }

  /** Groups that denote the same names expand alike. */
  lemma SameNames(prefix: string, ps: seq<Part>, qs: seq<Part>, suffix: string)
    requires Returns(prefix, ps, suffix) && Returns(prefix, qs, suffix)
    requires GroupNames(prefix, ps, suffix) == GroupNames(prefix, qs, suffix)
    ensures ExpandedList(Print([Group(prefix, ps, suffix)])) == ExpandedList(Print([Group(prefix, qs, suffix)]))
  {
    GroupRoundTrip(prefix, ps, suffix);
    GroupRoundTrip(prefix, qs, suffix);
  }

  lemma TwoReturn(prefix: string, whole: Part, left: Part, right: Part, suffix: string)
    requires Returns(prefix, [whole], suffix) && WfPart(left) && WfPart(right)
    requires left.Range? ==> Value(left.high) < MAX_UINT64
    requires right.Range? ==> Value(right.high) < MAX_UINT64
    ensures Returns(prefix, [left, right], suffix)
  {
  }

  lemma WholeReturns(prefix: string, whole: Part, suffix: string)
    requires WfElement(Group(prefix, [whole], suffix)) && WfPart(whole)
    requires whole.Range? && Value(whole.high) < MAX_UINT64
    ensures Returns(prefix, [whole], suffix)
  {
  }

  /** One range and two that denote the same names, all of them below the largest number. */
  ghost predicate Splits(prefix: string, whole: Part, left: Part, right: Part, suffix: string) {
    && whole.Range? && left.Range? && right.Range? && WfPart(whole) && WfPart(left) && WfPart(right)
    && Value(whole.high) < MAX_UINT64 && Value(left.high) < MAX_UINT64 && Value(right.high) < MAX_UINT64
    && GroupNames(prefix, [whole], suffix) == GroupNames(prefix, [left, right], suffix)
  }

  lemma SplitAlike(prefix: string, whole: Part, left: Part, right: Part, suffix: string)
    requires WfElement(Group(prefix, [whole], suffix)) && Splits(prefix, whole, left, right, suffix)
    ensures ExpandedList(Print([Group(prefix, [whole], suffix)]))
         == ExpandedList(Print([Group(prefix, [left, right], suffix)]))
  {
    WholeReturns(prefix, whole, suffix);
    TwoReturn(prefix, whole, left, right, suffix);
    SameNames(prefix, [whole], [left, right], suffix);
  }

  lemma SplitReady(prefix: string, a: string, m: string, p: string, b: string, suffix: string)
    requires IsUint64(a) && IsUint64(m) && IsUint64(b)
    requires Value(a) <= Value(m) < Value(b) < MAX_UINT64 && Follows(a, m, p)
    ensures Splits(prefix, Range(a, b), Range(a, m), Range(p, b), suffix)
  {
    SplitGroups(prefix, a, m, p, b, suffix);
  }

  /** The range splitting law, for the expander itself: same names, or the same size error. */
  lemma RangeSplitting(prefix: string, a: string, m: string, p: string, b: string, suffix: string)
    requires IsUint64(a) && IsUint64(m) && IsUint64(b)
    requires Value(a) <= Value(m) < Value(b) < MAX_UINT64 && Follows(a, m, p)
    requires WfElement(Group(prefix, [Range(a, b)], suffix))
    ensures ExpandedList(Print([Group(prefix, [Range(a, b)], suffix)]))
         == ExpandedList(Print([Group(prefix, [Range(a, m), Range(p, b)], suffix)]))
  {
    SplitReady(prefix, a, m, p, b, suffix);
    SplitAlike(prefix, Range(a, b), Range(a, m), Range(p, b), suffix);
  }

  /** [x] and [x-x] expand alike, leading zeros included. */
  lemma SingletonIsRange(prefix: string, x: string, suffix: string)
    requires IsUint64(x) && Value(x) < MAX_UINT64
    requires WfElement(Group(prefix, [Single(x)], suffix))
    ensures ExpandedList(Print([Group(prefix, [Single(x)], suffix)]))
         == ExpandedList(Print([Group(prefix, [Range(x, x)], suffix)]))
  {
    var single, range := Single(x), Range(x, x);
    assert WfPart(range);
    ValuePad(x);
    assert RangeNames(prefix, |x|, Value(x), Value(x), suffix) == [Name(prefix, |x|, Value(x), suffix)];
    GroupNamesTwo(prefix, single, range, suffix);
    GroupNamesTwo(prefix, range, range, suffix);
    SameNames(prefix, [single], [range], suffix);
  }
}

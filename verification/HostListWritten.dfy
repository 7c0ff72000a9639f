/**
 * Hostlists as they are written: names of letters, digits, dots, dashes and underscores, blanks around components
 * and elements, and elements left empty. What they expand to is stated with literal characters and numbers only.
 */
module HostListWritten {
  import opened Wrappers
  import opened Text
  import opened Decimal
  import opened HostList
  import opened HostListSplit
  import opened HostListSyntax

  /** Something with blanks before and after it. */
  datatype Spaced<T> = Spaced(before: string, item: T, after: string)

  /** What can stand between two commas: nothing, a name, or a bracket group. */
  datatype Piece = Nothing | Host(name: string) | Brackets(prefix: string, parts: seq<Spaced<Part>>, suffix: string)

  predicate Blank(s: string) {
    forall c | c in s :: c == ' ' || c == '\t' || c == '\n' || c == '\r'
  }

  // ----- the text

  function ShownParts(parts: seq<Spaced<Part>>): (r: seq<string>)
    ensures |r| == |parts|
    ensures forall i | 0 <= i < |r| :: r[i] == parts[i].before + PartText(parts[i].item) + parts[i].after
  {
    if parts == [] then []
    else [parts[0].before + PartText(parts[0].item) + parts[0].after] + ShownParts(parts[1..])
  }

  function ShownPiece(p: Piece): string {
    match p
    case Nothing => ""
    case Host(name) => name
    case Brackets(prefix, parts, suffix) => Bracketed(prefix, Join(ShownParts(parts), ","), suffix)
  }

  function ShownPieces(list: seq<Spaced<Piece>>): seq<string> {
    if list == [] then []
    else [list[0].before + ShownPiece(list[0].item) + list[0].after] + ShownPieces(list[1..])
  }

  function Show(list: seq<Spaced<Piece>>): string {
    Join(ShownPieces(list), ",")
  }

  // ----- without the blanks

  function BareParts(parts: seq<Spaced<Part>>): (r: seq<Part>)
    ensures |r| == |parts|
    ensures forall i | 0 <= i < |r| :: r[i] == parts[i].item
  {
    if parts == [] then [] else [parts[0].item] + BareParts(parts[1..])
  }

  function BarePiece(p: Piece): seq<Element> {
    match p
    case Nothing => []
    case Host(name) => [Plain(name)]
    case Brackets(prefix, parts, suffix) => [Group(prefix, BareParts(parts), suffix)]
  }

  /** The syntax tree of the list. */
  function Tree(list: seq<Spaced<Piece>>): seq<Element> {
    if list == [] then [] else BarePiece(list[0].item) + Tree(list[1..])
  }

  predicate BlankPart(x: Spaced<Part>) {
    Blank(x.before) && Blank(x.after)
  }

  predicate BlankPiece(x: Spaced<Piece>) {
    Blank(x.before) && Blank(x.after) && (x.item.Brackets? ==> forall p | p in x.item.parts :: BlankPart(p))
  }

  ghost predicate BlankList(list: seq<Spaced<Piece>>) {
    forall x | x in list :: BlankPiece(x)
  }

  // ----- one bracket group

  lemma BlankFacts(s: string)
    requires Blank(s)
    ensures AllSpace(s) && IsBare(s)
  {
  }

  lemma PartTrimmed(x: Spaced<Part>)
    requires BlankPart(x) && WfPart(x.item)
    ensures var text := x.before + PartText(x.item) + x.after;
      IsBare(text) && Trim(text) == PartText(x.item)
  {
    BlankFacts(x.before);
    BlankFacts(x.after);
    PartTextShape(x.item);
    PartTextEnds(x.item);
    TrimExactly(x.before, PartText(x.item), x.after);
  }

  lemma PartTextEnds(p: Part)
    requires WfPart(p)
    ensures var text := PartText(p); text != "" && !IsSpace(text[0]) && !IsSpace(text[|text| - 1])
  {
    match p
    case Single(text) =>
      DigitsAreBare(text);
    case Range(low, high) =>
      DigitsAreBare(low);
      DigitsAreBare(high);
  }

  lemma PartAlike(prefix: string, x: Spaced<Part>, suffix: string)
    requires BlankPart(x) && WfPart(x.item)
    ensures ExpandPart(prefix, x.before + PartText(x.item) + x.after, suffix)
         == ExpandPart(prefix, PartText(x.item), suffix)
  {
    PartTrimmed(x);
    PartTextShape(x.item);
  }

  /** One component more in front, in two readings that expand alike. */
  lemma PartsStep(prefix: string, a: string, b: string, xs: seq<string>, ys: seq<string>, suffix: string)
    requires ExpandPart(prefix, a, suffix) == ExpandPart(prefix, b, suffix)
    requires ExpandParts(prefix, xs, suffix) == ExpandParts(prefix, ys, suffix)
    ensures ExpandParts(prefix, [a] + xs, suffix) == ExpandParts(prefix, [b] + ys, suffix)
  {
    assert ([a] + xs)[1..] == xs && ([b] + ys)[1..] == ys;
  }

  /** A component is looked at only after trimming. */
  lemma {:induction false} PartsTrimmed(prefix: string, parts: seq<Spaced<Part>>, suffix: string)
    requires forall x | x in parts :: BlankPart(x) && WfPart(x.item)
    ensures ExpandParts(prefix, ShownParts(parts), suffix) == ExpandParts(prefix, PartTexts(BareParts(parts)), suffix)
  {
    if parts != [] {
      var x := parts[0];
      assert x in parts;
      PartAlike(prefix, x, suffix);
      PartsTrimmed(prefix, parts[1..], suffix);
      assert BareParts(parts)[1..] == BareParts(parts[1..]);
      PartsStep(
        prefix, x.before + PartText(x.item) + x.after, PartText(x.item), ShownParts(parts[1..]),
        PartTexts(BareParts(parts[1..])), suffix);
    }
  }

  lemma JoinHolds(texts: seq<string>, c: char)
    requires texts != [] && c in texts[0]
    ensures c in Join(texts, ",")
  {
  }

  lemma ShownShape(parts: seq<Spaced<Part>>)
    requires parts != [] && forall x | x in parts :: BlankPart(x) && WfPart(x.item)
    ensures var inner := Join(ShownParts(parts), ",");
      && '[' !in inner && ']' !in inner && Trim(inner) != ""
      && Split(inner, ',') == ShownParts(parts)
  {
    var texts := ShownParts(parts);
    forall t | t in texts ensures IsBare(t) {
      var i :| 0 <= i < |texts| && texts[i] == t;
      assert parts[i] in parts;
      PartTrimmed(parts[i]);
    }
    JoinBare(texts);
    SplitJoin(texts, ',');
    assert parts[0] in parts;
    PartTextEnds(parts[0].item);
    var c := PartText(parts[0].item)[0];
    assert texts[0][|parts[0].before|] == c;
    JoinHolds(texts, c);
    TrimmedEmpty(Join(texts, ","));
  }

  // ----- one piece

  predicate WfPiece(p: Piece) {
    forall el | el in BarePiece(p) :: WfElement(el)
  }

  lemma BracketsParts(p: Piece)
    requires p.Brackets? && WfPiece(p)
    ensures WfElement(Group(p.prefix, BareParts(p.parts), p.suffix))
    ensures p.parts != [] && forall x | x in p.parts :: WfPart(x.item)
  {
    var parts := BareParts(p.parts);
    assert Group(p.prefix, parts, p.suffix) in BarePiece(p);
    forall x | x in p.parts ensures WfPart(x.item) {
      var i :| 0 <= i < |p.parts| && p.parts[i] == x;
      assert parts[i] in parts;
    }
  }

  /** The group expands as it does without blanks. */
  lemma BracketsExpansion(p: Piece)
    requires p.Brackets? && WfPiece(p) && forall x | x in p.parts :: BlankPart(x)
    ensures Expand(ShownPiece(p)) == Expand(ElementText(Group(p.prefix, BareParts(p.parts), p.suffix)))
  {
    BracketsParts(p);
    ShownShape(p.parts);
    BracketedExpansion(p.prefix, Join(ShownParts(p.parts), ","), p.suffix);
    PartsTrimmed(p.prefix, p.parts, p.suffix);
    GroupExpansion(Group(p.prefix, BareParts(p.parts), p.suffix));
  }

  lemma BracketedEnds(prefix: string, inner: string, suffix: string)
    requires prefix != "" ==> !IsSpace(prefix[0])
    requires suffix != "" ==> !IsSpace(suffix[|suffix| - 1])
    ensures var text := Bracketed(prefix, inner, suffix);
      text != "" && !IsSpace(text[0]) && !IsSpace(text[|text| - 1])
  {
    var text := Bracketed(prefix, inner, suffix);
    assert text[0] == if prefix == "" then '[' else prefix[0];
    assert text[|text| - 1] == if suffix == "" then ']' else suffix[|suffix| - 1];
  }

  lemma BracketedSpaced(before: string, prefix: string, inner: string, suffix: string, after: string)
    ensures before + Bracketed(prefix, inner, suffix) + after == Bracketed(before + prefix, inner, suffix + after)
  {
    assert before + (prefix + ("[" + (inner + ("]" + suffix)))) + after
        == before + prefix + ("[" + (inner + ("]" + (suffix + after))));
  }

  /** What the splitter makes of one piece: itself, and trimmed of its blanks. */
  lemma PieceScan(x: Spaced<Piece>)
    requires BlankPiece(x) && WfPiece(x.item)
    ensures var text := x.before + ShownPiece(x.item) + x.after;
      && Scan(text, 0, "") == Success([text])
      && Trim(text) == ShownPiece(x.item)
      && (ShownPiece(x.item) == "" <==> x.item.Nothing?)
  {
    BlankFacts(x.before);
    BlankFacts(x.after);
    match x.item
    case Nothing =>
      BareScan(x.before + "" + x.after);
      TrimExactly(x.before, "", x.after);
    case Host(name) =>
      assert Plain(name) in BarePiece(x.item);
      BareScan(x.before + name + x.after);
      TrimExactly(x.before, name, x.after);
    case Brackets(prefix, parts, suffix) =>
      BracketsParts(x.item);
      ShownShape(parts);
      var inner := Join(ShownParts(parts), ",");
      BracketedEnds(prefix, inner, suffix);
      TrimExactly(x.before, Bracketed(prefix, inner, suffix), x.after);
      BracketedSpaced(x.before, prefix, inner, suffix, x.after);
      BracketedScan(x.before + prefix, inner, suffix + x.after);
  }

  // ----- the whole list

  lemma ListCons(list: seq<Spaced<Piece>>)
    requires list != [] && WellFormed(Tree(list))
    ensures WfPiece(list[0].item) && WellFormed(Tree(list[1..]))
  {
    forall el | el in BarePiece(list[0].item) ensures WfElement(el) {
      assert el in Tree(list);
    }
  }

  lemma {:induction false} ListScan(list: seq<Spaced<Piece>>)
    requires WellFormed(Tree(list)) && BlankList(list)
    ensures forall t | t in ShownPieces(list) :: Scan(t, 0, "") == Success([t])
  {
    if list != [] {
      assert list[0] in list;
      ListCons(list);
      PieceScan(list[0]);
      ListScan(list[1..]);
    }
  }

  /** One piece more in front, which the splitter drops or keeps trimmed. */
  lemma KeepCons(text: string, rest: seq<string>)
    ensures Keep([text] + rest) == if Trim(text) == "" then Keep(rest) else [Trim(text)] + Keep(rest)
  {
    assert ([text] + rest)[1..] == rest;
    assert [] + Keep(rest) == Keep(rest);
  }

  lemma ExpansionsStep(a: string, b: string, xs: seq<string>, ys: seq<string>)
    requires Expand(a) == Expand(b) && Expansions(xs) == Expansions(ys)
    ensures Expansions([a] + xs) == Expansions([b] + ys)
  {
    assert ([a] + xs)[1..] == xs && ([b] + ys)[1..] == ys;
  }

  lemma ElementTextsCons(el: Element, rest: seq<Element>)
    ensures ElementTexts([el] + rest) == [ElementText(el)] + ElementTexts(rest)
  {
    assert ([el] + rest)[1..] == rest;
  }

  lemma PieceExpansion(x: Spaced<Piece>)
    requires BlankPiece(x) && WfPiece(x.item) && !x.item.Nothing?
    ensures Expand(ShownPiece(x.item)) == Expand(ElementText(BarePiece(x.item)[0]))
  {
    if x.item.Brackets? { BracketsExpansion(x.item); }
  }

  /** The pieces that survive trimming expand as the elements of the tree do. */
  lemma {:induction false} ListExpansions(list: seq<Spaced<Piece>>)
    requires WellFormed(Tree(list)) && BlankList(list)
    ensures Expansions(Keep(ShownPieces(list))) == Expansions(ElementTexts(Tree(list)))
  {
    if list != [] {
      var x, rest := list[0], list[1..];
      assert x in list;
      ListCons(list);
      PieceScan(x);
      ListExpansions(rest);
      KeepCons(x.before + ShownPiece(x.item) + x.after, ShownPieces(rest));
      if x.item.Nothing? {
        assert [] + Tree(rest) == Tree(rest);
      } else {
        var el := BarePiece(x.item)[0];
        PieceExpansion(x);
        ElementTextsCons(el, Tree(rest));
        ExpansionsStep(ShownPiece(x.item), ElementText(el), Keep(ShownPieces(rest)), ElementTexts(Tree(rest)));
      }
    }
  }

  /** Blanks around components and elements, and empty elements, change nothing. */
  lemma BlanksImmaterial(list: seq<Spaced<Piece>>)
    requires WellFormed(Tree(list)) && BlankList(list)
    ensures ExpandedList(Show(list)) == ExpandedList(Print(Tree(list)))
  {
    TrimmingImmaterial(Show(list));
    TrimmingImmaterial(Print(Tree(list)));
    ListExpansions(list);
    ListElements(list);
    TreeElements(Tree(list));
  }

  lemma NoElements()
    ensures Elements("") == Success([])
  {
    assert Scan("", 0, "") == Success([""]);
    assert Trim("") == "";
    assert [""][1..] == [];
    assert Keep([""]) == [];
  }

  lemma ElementsFrom(texts: seq<string>)
    requires texts != [] && forall t | t in texts :: Scan(t, 0, "") == Success([t])
    ensures Elements(Join(texts, ",")) == Success(Keep(texts))
  {
    JoinScan(texts);
  }

  lemma ListElements(list: seq<Spaced<Piece>>)
    requires WellFormed(Tree(list)) && BlankList(list)
    ensures Elements(Show(list)) == Success(Keep(ShownPieces(list)))
  {
    if list == [] {
      NoElements();
    } else {
      ListScan(list);
      ElementsFrom(ShownPieces(list));
    }
  }

  lemma TreeElements(tree: seq<Element>)
    requires WellFormed(tree)
    ensures Elements(Print(tree)) == Success(ElementTexts(tree))
  {
    if tree == [] {
      NoElements();
    } else {
      PrintElements(tree);
    }
  }

  // ----- node lists, in literal terms

  /** Letters, digits, dots, dashes and underscores. */
  predicate NodeText(s: string) {
    forall c | c in s :: IsNameChar(c)
  }

  predicate NodePart(p: Part) {
    match p
    case Single(text) => NumeralTo(text, 18446744073709551615)
    case Range(low, high) =>
      NumeralTo(low, 18446744073709551614) && NumeralTo(high, 18446744073709551614) && Value(low) <= Value(high)
  }

  predicate NodeElement(el: Element) {
    match el
    case Plain(name) => name != "" && NodeText(name)
    case Group(prefix, parts, suffix) =>
      NodeText(prefix) && NodeText(suffix) && parts != [] && forall p | p in parts :: NodePart(p)
  }

  lemma NodeElementFacts(el: Element)
    requires NodeElement(el)
    ensures WfElement(el)
    ensures el.Group? ==> forall p | p in el.parts && p.Range? :: Value(p.high) < MAX_UINT64
  {
    if el.Group? {
      NodeTextBare(el.prefix);
      NodeTextBare(el.suffix);
      assert el.prefix != "" ==> el.prefix[0] in el.prefix;
      assert el.suffix != "" ==> el.suffix[|el.suffix| - 1] in el.suffix;
      forall p | p in el.parts ensures WfPart(p) && (p.Range? ==> Value(p.high) < MAX_UINT64) {
        NodePartFacts(p);
      }
    } else {
      NodeTextBare(el.name);
      assert el.name[0] in el.name && el.name[|el.name| - 1] in el.name;
    }
  }

  lemma NodeTextBare(s: string)
    requires NodeText(s)
    ensures IsBare(s) && forall c | c in s :: !IsSpace(c)
  {
  }

  lemma NodePartFacts(p: Part)
    requires NodePart(p)
    ensures WfPart(p) && (p.Range? ==> Value(p.high) < MAX_UINT64)
  {
  }

  /**
   * Node lists as Slurm writes them, blanks and empty elements included: the names in order when there are at most
   * 1048576 of them, and the size error otherwise.
   */
  lemma WrittenRoundTrip(list: seq<Spaced<Piece>>)
    requires BlankList(list) && forall el | el in Tree(list) :: NodeElement(el)
    ensures WellFormed(Tree(list))
    ensures ExpandedList(Show(list)) ==
      if |Denote(Tree(list))| <= 1048576 then Names(Denote(Tree(list))) else Failed(TooMany)
  {
    forall el | el in Tree(list) ensures WfElement(el) {
      NodeElementFacts(el);
    }
    forall el | el in Tree(list) && el.Group?
      ensures forall p | p in el.parts && p.Range? :: Value(p.high) < MAX_UINT64
    {
      NodeElementFacts(el);
    }
    BlanksImmaterial(list);
    BoundsBelowMax(Tree(list));
  }
}

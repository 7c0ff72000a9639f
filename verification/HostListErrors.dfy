/** Which error a bracket group gives: for every text of its components, in literal numbers. */
module HostListErrors {
  import opened Wrappers
  import opened Text
  import opened HostList
  import opened HostListSplit
  import opened HostListOutcome
  import opened HostListSyntax
  import opened HostListWritten

  /** A list of one element. */
  lemma OneElement(text: string)
    requires Scan(text, 0, "") == Success([text]) && Trim(text) == text != ""
    ensures var e := Expand(text);
      ExpandedList(text) == if e.Names? && |e.names| > 1048576 then Failed(TooMany) else e
  {
    TrimmingImmaterial(text);
    assert [text][1..] == [];
    assert Keep([text]) == [text];
    assert Expansions([text]) == [Expand(text)];
    assert [Expand(text)][1..] == [];
    if Expand(text).Names? { assert [] + Expand(text).names == Expand(text).names; }
  }

  lemma NodeTrimmed(prefix: string, inner: string, suffix: string)
    requires NodeText(prefix) && (suffix != "" ==> !IsSpace(suffix[|suffix| - 1]))
    ensures Trim(Bracketed(prefix, inner, suffix)) == Bracketed(prefix, inner, suffix) != ""
  {
    NodeTextBare(prefix);
    assert prefix != "" ==> prefix[0] in prefix;
    BracketedEnds(prefix, inner, suffix);
    TrimIdentity(Bracketed(prefix, inner, suffix));
  }

  lemma OneGroup(prefix: string, inner: string, suffix: string)
    requires NodeText(prefix) && NodeText(suffix) && '[' !in inner && ']' !in inner
    ensures var e := ExpandGroup(prefix, inner, suffix);
      ExpandedList(Bracketed(prefix, inner, suffix)) ==
        if e.Names? && |e.names| > 1048576 then Failed(TooMany) else e
  {
    NodeTextBare(prefix);
    NodeTextBare(suffix);
    assert suffix != "" ==> suffix[|suffix| - 1] in suffix;
    NodeTrimmed(prefix, inner, suffix);
    BracketedScan(prefix, inner, suffix);
    BracketedExpansion(prefix, inner, suffix);
    OneElement(Bracketed(prefix, inner, suffix));
  }

  lemma SeveralScan(prefix: string, inner: string, mid: string, inner2: string, suffix: string)
    requires IsBare(prefix) && IsBare(mid) && IsBare(suffix)
    requires '[' !in inner && ']' !in inner && '[' !in inner2 && ']' !in inner2
    ensures var text := Bracketed(prefix, inner, Bracketed(mid, inner2, suffix));
      Scan(text, 0, "") == Success([text])
  {
    var last := "[" + (inner2 + ("]" + suffix));
    var first := "[" + (inner + ("]" + (mid + last)));
    assert "" + prefix == prefix;
    ScanThrough(prefix, first, 0, "");
    assert first[1..] == inner + ("]" + (mid + last));
    ScanThrough(inner, "]" + (mid + last), 1, prefix + "[");
    assert ("]" + (mid + last))[1..] == mid + last;
    ScanThrough(mid, last, 0, prefix + "[" + inner + "]");
    ScanInner(inner2, suffix, prefix + "[" + inner + "]" + mid);
    assert prefix + "[" + inner + "]" + mid + last == prefix + first;
  }

  /** Two bracket groups in one element, whatever is in them. */
  lemma SeveralGroupsRefused(prefix: string, inner: string, mid: string, inner2: string, suffix: string)
    requires NodeText(prefix) && NodeText(mid) && NodeText(suffix)
    requires '[' !in inner && ']' !in inner && '[' !in inner2 && ']' !in inner2
    ensures ExpandedList(Bracketed(prefix, inner, Bracketed(mid, inner2, suffix))) == Failed(SeveralGroups)
  {
    var second := Bracketed(mid, inner2, suffix);
    NodeTextBare(prefix);
    NodeTextBare(mid);
    NodeTextBare(suffix);
    assert suffix != "" ==> suffix[|suffix| - 1] in suffix;
    BracketedEnds(mid, inner2, suffix);
    NodeTrimmed(prefix, inner, second);
    SeveralScan(prefix, inner, mid, inner2, suffix);
    assert second[|mid|] == '[';
    BracketedExpansion(prefix, inner, second);
    OneElement(Bracketed(prefix, inner, second));
  }

  /**
   * Every list of one bracket group, whatever the text of its components: an error if there is nothing but white
   * space between the brackets, else the error of the first component that is refused, its names, or no return.
   */
  lemma GroupOutcome(prefix: string, parts: seq<string>, suffix: string)
    requires NodeText(prefix) && NodeText(suffix) && parts != []
    requires forall t | t in parts :: IsBare(t)
    ensures var inner := Join(parts, ",");
      var r := ExpandedList(Bracketed(prefix, inner, suffix));
      if AllSpace(inner) then r == Failed(EmptyGroup)
      else
        match PartsWorth(parts)
        case Fine(count) => if count <= 1048576 then r.Names? && |r.names| == count else r == Failed(TooMany)
        case Refused(error) => r == Failed(error)
        case Endless => r == Diverges
  {
    JoinBare(parts);
    SplitJoin(parts, ',');
    TrimmedEmpty(Join(parts, ","));
    PartsShow(prefix, parts, suffix);
    NodeTextBare(suffix);
    OneGroup(prefix, Join(parts, ","), suffix);
  }
}

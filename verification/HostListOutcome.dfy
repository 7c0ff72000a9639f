/** What the expander does with every text: names and how many, which error, or no return at all. */
module HostListOutcome {
  import opened Text
  import opened Decimal
  import opened HostList
  import opened HostListSplit

  /** What a piece of text is worth: so many names, a refusal, or an expansion without end. */
  datatype Worth = Fine(count: nat) | Refused(error: Error) | Endless

  /** A range is at most 1048576 long, unless it is all of the 64-bit numbers, whose size wraps around to zero. */
  function RangeWorth(low: string, high: string): Worth {
    if !NumeralTo(low, 18446744073709551615) || !NumeralTo(high, 18446744073709551615) then Refused(NotANumber)
    else if Value(high) < Value(low) then Refused(Inverted)
    else if Value(low) == 0 && Value(high) == 18446744073709551615 then Endless
    else if Value(high) - Value(low) >= 1048576 then Refused(TooMany)
    else if Value(high) == 18446744073709551615 then Endless
    else Fine(Value(high) - Value(low) + 1)
  }

  /** One component, trimmed. */
  function PartWorth(text: string): Worth {
    if text == "" then Refused(EmptyComponent)
    else
      var dash := IndexOf(text, '-');
      if dash >= 0 then RangeWorth(text[..dash], text[dash + 1..])
      else if NumeralTo(text, 18446744073709551615) then Fine(1)
      else Refused(NotANumber)
  }

  /** Components together: the first that is not fine decides. */
  function PartsWorth(parts: seq<string>): Worth {
    if parts == [] then Fine(0)
    else
      match PartWorth(Trim(parts[0]))
      case Fine(m) => (match PartsWorth(parts[1..]) case Fine(n) => Fine(m + n) case w => w)
      case w => w
  }

  function ElementWorth(el: string): Worth {
    match CutGroup(el)
    case Bare => Fine(1)
    case Broken(error) => Refused(error)
    case Around(_, inner, suffix) =>
      if '[' in suffix || ']' in suffix then Refused(SeveralGroups)
      else if AllSpace(inner) then Refused(EmptyGroup)
      else PartsWorth(Split(inner, ','))
  }

  /** Elements together, behind so many names: the first that is not fine, or that exceeds the cap, decides. */
  function ElementsWorth(elements: seq<string>, used: nat): Worth {
    if elements == [] then Fine(used)
    else
      match ElementWorth(elements[0])
      case Fine(n) =>
        if used + n > 1048576 then Refused(TooMany) else ElementsWorth(elements[1..], used + n)
      case w => w
  }

  /** The whole list: its brackets first. */
  ghost function ListWorth(list: string): Worth {
    if !NeverNegative(list) then Refused(UnmatchedClose)
    else if Depth(list) > 0 then Refused(UnmatchedOpen)
    else if Elements(list).Failure? then Refused(Elements(list).error)
    else ElementsWorth(Elements(list).value, 0)
  }

  /** The texts on which the expander never returns. */
  ghost predicate NeverReturns(list: string) {
    ListWorth(list) == Endless
  }

  /** The expansion is what the text is worth. */
  predicate Shows(e: Expansion, w: Worth) {
    match w
    case Fine(count) => e.Names? && |e.names| == count
    case Refused(error) => e == Failed(error)
    case Endless => e == Diverges
  }

  // ----- the outcome is exact

  /** The branch taken on a range is the one its counting loop forces: not returning is never leaving the loop. */
  lemma RangeShows(prefix: string, low: string, high: string, suffix: string)
    ensures var e := ExpandRange(prefix, low, high, suffix);
      && Shows(e, RangeWorth(low, high))
      && (e.Names? || e.Diverges? ==> ParseUint(low).Some? && ParseUint(high).Some?)
      && (e.Diverges? ==> !exists k: nat :: LoopEndsAt(ParseUint(low).value, ParseUint(high).value, k))
      && (e.Names? ==> exists k: nat :: LoopEndsAt(ParseUint(low).value, ParseUint(high).value, k))
  {
    ParseExactly(low);
    ParseExactly(high);
    if ParseUint(low).Some? && ParseUint(high).Some? && Value(low) <= Value(high) {
      RangeLoopStops(Value(low), Value(high));
    }
  }

  lemma PartShows(prefix: string, raw: string, suffix: string)
    ensures Shows(ExpandPart(prefix, raw, suffix), PartWorth(Trim(raw)))
  {
    var text := Trim(raw);
    var dash := IndexOf(text, '-');
    ParseExactly(text);
    if dash >= 0 { RangeShows(prefix, text[..dash], text[dash + 1..], suffix); }
  }

  lemma {:induction false} PartsShow(prefix: string, parts: seq<string>, suffix: string)
    ensures Shows(ExpandParts(prefix, parts, suffix), PartsWorth(parts))
  {
    if parts != [] {
      PartShows(prefix, parts[0], suffix);
      PartsShow(prefix, parts[1..], suffix);
    }
  }

  lemma ElementShows(el: string)
    ensures Shows(Expand(el), ElementWorth(el))
  {
    match CutGroup(el)
    case Bare =>
    case Broken(_) =>
    case Around(prefix, inner, suffix) =>
      TrimmedEmpty(inner);
      PartsShow(prefix, Split(inner, ','), suffix);
  }

  /** One element of the collecting loop. */
  lemma CollectStep(e: Expansion, more: seq<Expansion>, out: seq<string>)
    ensures Collect([e] + more, out) ==
      if !e.Names? then e
      else if |out| + |e.names| > 1048576 then Failed(TooMany)
      else Collect(more, out + e.names)
  {
    assert ([e] + more)[1..] == more;
  }

  lemma {:induction false} ElementsShow(elements: seq<string>, out: seq<string>)
    ensures Shows(Collect(Expansions(elements), out), ElementsWorth(elements, |out|))
    decreases |elements|
  {
    if elements != [] {
      var e, more := Expand(elements[0]), Expansions(elements[1..]);
      ElementShows(elements[0]);
      CollectStep(e, more, out);
      if e.Names? { ElementsShow(elements[1..], out + e.names); }
    }
  }

  /** Every text whatever: names, and how many, or which error, or no return, exactly as the text is worth. */
  lemma OutcomeExactly(list: string)
    ensures Shows(ExpandedList(list), ListWorth(list))
  {
    TrimmingImmaterial(list);
    ElementsOutcome(list);
    if Elements(list).Success? { ElementsShow(Elements(list).value, []); }
  }

  /** In particular, not returning is a condition on the text. */
  lemma NeverReturnsExactly(list: string)
    ensures ExpandedList(list).Diverges? <==> NeverReturns(list)
  {
    OutcomeExactly(list);
  }
}

/** The Slurm hostlist expander: each loop is proved against a recursive specification. */
module HostList {
  import opened Wrappers
  import opened Text
  import opened Decimal

  const MAX_EXPANDED_HOSTS: nat := 0x10_0000

  datatype Error =
    | UnmatchedClose
    | UnmatchedOpen
    | ElementUnmatchedClose
    | ElementUnmatchedOpen
    | SeveralGroups
    | EmptyGroup
    | EmptyComponent
    | NotANumber
    | Inverted
    | TooMany

  /** What a call does: return names, return an error, or never return. */
  datatype Expansion = Names(names: seq<string>) | Failed(error: Error) | Diverges

  /** Go's unsigned 64-bit wrap-around of a sum of two 64-bit values. */
  function Wrap(x: nat): (w: nat)
    requires x <= 2 * MAX_UINT64
    ensures w <= MAX_UINT64
  {
    if x <= MAX_UINT64 then x else x - MAX_UINT64 - 1
  }

  // ----- splitting at the top level

  function Prepend(pieces: seq<string>, r: Result<seq<string>, Error>): Result<seq<string>, Error> {
    match r
    case Success(more) => Success(pieces + more)
    case Failure(_) => r
  }

  /** The untrimmed pieces of s, read with the given bracket depth and piece in progress. */
  function Scan(s: string, depth: nat, current: string): (r: Result<seq<string>, Error>)
    ensures r.Success? ==> r.value != []
  {
    if s == "" then
      if depth != 0 then Failure(UnmatchedOpen) else Success([current])
    else if s[0] == '[' then Scan(s[1..], depth + 1, current + [s[0]])
    else if s[0] == ']' then
      if depth == 0 then Failure(UnmatchedClose) else Scan(s[1..], depth - 1, current + [s[0]])
    else if s[0] == ',' && depth == 0 then Prepend([current], Scan(s[1..], 0, ""))
    else Scan(s[1..], depth, current + [s[0]])
  }

  /** The pieces that survive trimming. */
  function Keep(pieces: seq<string>): seq<string> {
    if pieces == [] then []
    else (if Trim(pieces[0]) == "" then [] else [Trim(pieces[0])]) + Keep(pieces[1..])
  }

  function Elements(s: string): Result<seq<string>, Error> {
    match Scan(s, 0, "")
    case Success(pieces) => Success(Keep(pieces))
    case Failure(e) => Failure(e)
  }

  method SplitTopLevel(list: string) returns (r: Result<seq<string>, Error>)
    ensures r == Elements(list)
  {
    var elements: seq<string> := [];
    var current, depth := "", 0;
    var i := 0;
    assert list[0..] == list;
    assert Scan(list, 0, "").Success? ==> [] + Scan(list, 0, "").value == Scan(list, 0, "").value;
    while i < |list|
      invariant 0 <= i <= |list|
      invariant depth >= 0
      invariant Scan(list, 0, "") == Prepend(elements, Scan(list[i..], depth, current))
    {
      var c := list[i];
      assert list[i..][1..] == list[i + 1..];
      if c == '[' {
        depth := depth + 1;
        current := current + [c];
      } else if c == ']' {
        depth := depth - 1;
        if depth < 0 {
          return Failure(UnmatchedClose);
        }
        current := current + [c];
      } else if c == ',' {
        if depth == 0 {
          PrependTwice(elements, current, Scan(list[i + 1..], 0, ""));
          elements := elements + [current];
          current := "";
        } else {
          current := current + [c];
        }
      } else {
        current := current + [c];
      }
      i := i + 1;
    }
    if depth != 0 {
      return Failure(UnmatchedOpen);
    }
    elements := elements + [current];
    assert Scan(list, 0, "") == Success(elements);

    var out := KeepNonEmpty(elements);
    return Success(out);
  }

  lemma {:induction false} KeepAppend(a: seq<string>, b: seq<string>)
    ensures Keep(a + b) == Keep(a) + Keep(b)
  {
    if a == [] {
      assert a + b == b;
    } else {
      assert (a + b)[1..] == a[1..] + b;
      KeepAppend(a[1..], b);
    }
  }

  lemma KeepNext(elements: seq<string>, j: nat)
    requires j < |elements|
    ensures var el := Trim(elements[j]);
      Keep(elements[..j + 1]) == Keep(elements[..j]) + if el == "" then [] else [el]
  {
    assert elements[..j + 1] == elements[..j] + [elements[j]];
    KeepAppend(elements[..j], [elements[j]]);
    assert [elements[j]][1..] == [];
  }

  /** The closing loop of the splitter. */
  method KeepNonEmpty(elements: seq<string>) returns (out: seq<string>)
    ensures out == Keep(elements)
  {
    out := [];
    var j := 0;
    while j < |elements|
      invariant 0 <= j <= |elements|
      invariant out == Keep(elements[..j])
    {
      KeepNext(elements, j);
      var el := Trim(elements[j]);
      if el != "" {
        out := out + [el];
      }
      j := j + 1;
    }
    assert elements[..j] == elements;
  }

  lemma PrependTwice(xs: seq<string>, y: string, r: Result<seq<string>, Error>)
    ensures Prepend(xs, Prepend([y], r)) == Prepend(xs + [y], r)
  {
    if r.Success? {
      assert xs + ([y] + r.value) == xs + [y] + r.value;
    }
  }

  // ----- expanding one element

  function Name(prefix: string, width: nat, n: nat, suffix: string): string {
    prefix + Pad(width, n) + suffix
  }

  /** What name gives for low to high, in order. */
  function Series(name: nat -> string, low: nat, high: int): (r: seq<string>)
    requires low <= high + 1
    ensures |r| == high + 1 - low
    decreases high + 1 - low
  {
    if high < low then [] else Series(name, low, high - 1) + [name(high)]
  }

  /** The names numbered low to high, in order. */
  function RangeNames(prefix: string, width: nat, low: nat, high: int, suffix: string): (r: seq<string>)
    requires low <= high + 1
    ensures |r| == high + 1 - low
  {
    Series((n: nat) => Name(prefix, width, n, suffix), low, high)
  }

  /** One comma-separated component of a bracket group. */
  function ExpandPart(prefix: string, raw: string, suffix: string): Expansion {
    var part := Trim(raw);
    var dash := IndexOf(part, '-');
    if part == "" then Failed(EmptyComponent)
    else if dash < 0 then
      if ParseUint(part).None? then Failed(NotANumber) else Names([prefix + part + suffix])
    else
      ExpandRange(prefix, part[..dash], part[dash + 1..], suffix)
  }

  function ExpandRange(prefix: string, lowText: string, highText: string, suffix: string): Expansion {
    match (ParseUint(lowText), ParseUint(highText))
    case (None, _) => Failed(NotANumber)
    case (_, None) => Failed(NotANumber)
    case (Some(low), Some(high)) =>
      if high < low then Failed(Inverted)
      else if Wrap(high - low + 1) > MAX_EXPANDED_HOSTS then Failed(TooMany)
      else if high == MAX_UINT64 then Diverges
      else Names(RangeNames(prefix, |lowText|, low, high, suffix))
  }

  function ExpandParts(prefix: string, parts: seq<string>, suffix: string): Expansion {
    if parts == [] then Names([])
    else
      match ExpandPart(prefix, parts[0], suffix)
      case Names(xs) => Extend(xs, ExpandParts(prefix, parts[1..], suffix))
      case other => other
  }

  function Extend(xs: seq<string>, e: Expansion): Expansion {
    match e
    case Names(ys) => Names(xs + ys)
    case _ => e
  }

  /** How an element divides around its bracket group. */
  datatype Cut = Bare | Broken(error: Error) | Around(prefix: string, inner: string, suffix: string)

  function CutGroup(el: string): Cut {
    var open := IndexOf(el, '[');
    var close := IndexOf(el, ']');
    if open < 0 then
      if close >= 0 then Broken(ElementUnmatchedClose) else Bare
    else if close < open then Broken(ElementUnmatchedOpen)
    else Around(el[..open], el[open + 1..close], el[close + 1..])
  }

  function Expand(el: string): Expansion {
    match CutGroup(el)
    case Bare => Names([el])
    case Broken(e) => Failed(e)
    case Around(prefix, inner, suffix) => ExpandGroup(prefix, inner, suffix)
  }

  function ExpandGroup(prefix: string, inner: string, suffix: string): Expansion {
    if '[' in suffix || ']' in suffix then Failed(SeveralGroups)
    else if Trim(inner) == "" then Failed(EmptyGroup)
    else ExpandParts(prefix, Split(inner, ','), suffix)
  }

  /** The value of the loop counter after k increments from low. */
  function Counter(low: nat, k: nat): (n: nat)
    requires low <= MAX_UINT64
    ensures n <= MAX_UINT64
  {
    if k == 0 then low else Wrap(Counter(low, k - 1) + 1)
  }

  /** The guard n <= high is false after k increments. */
  predicate LoopEndsAt(low: nat, high: nat, k: nat)
    requires low <= MAX_UINT64
  {
    Counter(low, k) > high
  }

  /**
   * The range loop's guard n <= high, over a wrapping 64-bit n, fails at some iteration
   * exactly when high is below 2^64 - 1; the first failure is then after high - low + 1 rounds.
   */
  lemma RangeLoopStops(low: nat, high: nat)
    requires low <= high <= MAX_UINT64
    ensures (exists k: nat :: LoopEndsAt(low, high, k)) <==> high < MAX_UINT64
    ensures high < MAX_UINT64 ==>
      && Counter(low, high - low + 1) > high
      && forall k: nat | k <= high - low :: Counter(low, k) == low + k <= high
  {
    if high < MAX_UINT64 {
      forall k: nat | k <= high - low + 1 ensures Counter(low, k) == low + k {
        CounterBelow(low, k);
      }
      var rounds: nat := high - low + 1;
      assert LoopEndsAt(low, high, rounds);
    }
  }

  lemma {:induction false} CounterBelow(low: nat, k: nat)
    requires low + k <= MAX_UINT64
    ensures Counter(low, k) == low + k
  {
    if k > 0 { CounterBelow(low, k - 1); }
  }

  /** The body of the component loop: what one component appends to the names so far. */
  method ExpandComponent(prefix: string, raw: string, suffix: string, out: seq<string>) returns (r: Expansion)
    ensures r == Extend(out, ExpandPart(prefix, raw, suffix))
  {
    var part := Trim(raw);
    if part == "" {
      return Failed(EmptyComponent);
    }
    var dash := IndexOf(part, '-');
    if dash < 0 {
      if ParseUint(part).None? {
        return Failed(NotANumber);
      }
      return Names(out + [prefix + part + suffix]);
    }
    var lowText, highText := part[..dash], part[dash + 1..];
    var parsedLow := ParseUint(lowText);
    if parsedLow.None? {
      return Failed(NotANumber);
    }
    var parsedHigh := ParseUint(highText);
    if parsedHigh.None? {
      return Failed(NotANumber);
    }
    var low, high := parsedLow.value, parsedHigh.value;
    if high < low {
      return Failed(Inverted);
    }
    if Wrap(high - low + 1) > MAX_EXPANDED_HOSTS {
      return Failed(TooMany);
    }
    if high == MAX_UINT64 {
      RangeLoopStops(low, high);
      assert !exists k: nat :: LoopEndsAt(low, high, k);
      return Diverges;
    }
    var names := AppendRange(prefix, |lowText|, low, high, suffix, out);
    return Names(names);
  }

  /** The counting loop over one range. */
  method AppendRange(prefix: string, width: nat, low: nat, high: nat, suffix: string, out: seq<string>)
    returns (names: seq<string>)
    requires low <= high < MAX_UINT64
    ensures names == out + RangeNames(prefix, width, low, high, suffix)
  {
    names := out;
    var n: int := low;
    while n <= high
      invariant low <= n <= high + 1
      invariant names == out + RangeNames(prefix, width, low, n - 1, suffix)
      decreases high + 1 - n
    {
      names := names + [Name(prefix, width, n, suffix)];
      n := Wrap(n + 1);
    }
  }

  method ExpandElement(el: string) returns (r: Expansion)
    ensures r == Expand(el)
  {
    var open := IndexOf(el, '[');
    if open < 0 {
      if IndexOf(el, ']') >= 0 {
        return Failed(ElementUnmatchedClose);
      }
      return Names([el]);
    }
    var close := IndexOf(el, ']');
    if close < open {
      return Failed(ElementUnmatchedOpen);
    }
    var prefix, inner, suffix := el[..open], el[open + 1..close], el[close + 1..];
    assert CutGroup(el) == Around(prefix, inner, suffix);
    r := ExpandBrackets(prefix, inner, suffix);
  }

  /** The checks on one bracket group. */
  method ExpandBrackets(prefix: string, inner: string, suffix: string) returns (r: Expansion)
    ensures r == ExpandGroup(prefix, inner, suffix)
  {
    if '[' in suffix || ']' in suffix {
      return Failed(SeveralGroups);
    }
    if Trim(inner) == "" {
      return Failed(EmptyGroup);
    }

    r := ExpandComponents(prefix, Split(inner, ','), suffix);
  }

  /** The loop over the components of a bracket group. */
  method ExpandComponents(prefix: string, parts: seq<string>, suffix: string) returns (r: Expansion)
    ensures r == ExpandParts(prefix, parts, suffix)
  {
    var out: seq<string> := [];
    var i := 0;
    while i < |parts|
      invariant 0 <= i <= |parts|
      invariant Extend(out, ExpandParts(prefix, parts[i..], suffix)) == ExpandParts(prefix, parts, suffix)
    {
      assert parts[i..][1..] == parts[i + 1..];
      var component := ExpandComponent(prefix, parts[i], suffix, out);
      if !component.Names? {
        return component;
      }
      ExtendTwice(out, ExpandPart(prefix, parts[i], suffix).names, ExpandParts(prefix, parts[i + 1..], suffix));
      out := component.names;
      i := i + 1;
    }
    return Names(out);
  }

  lemma ExtendTwice(xs: seq<string>, ys: seq<string>, e: Expansion)
    ensures Extend(xs, Extend(ys, e)) == Extend(xs + ys, e)
  {
    if e.Names? {
      assert xs + (ys + e.names) == xs + ys + e.names;
    }
  }

  // ----- the whole list

  /** What each element expands to, on its own. */
  function Expansions(elements: seq<string>): (r: seq<Expansion>)
    ensures |r| == |elements|
  {
    if elements == [] then [] else [Expand(elements[0])] + Expansions(elements[1..])
  }

  lemma {:induction false} ExpansionsAt(elements: seq<string>, i: nat)
    requires i < |elements|
    ensures Expansions(elements)[i] == Expand(elements[i])
  {
    if i > 0 { ExpansionsAt(elements[1..], i - 1); }
  }

  /** The names so far extended by one expansion after another, up to the cap. */
  function Collect(expansions: seq<Expansion>, out: seq<string>): Expansion {
    if expansions == [] then Names(out)
    else
      match expansions[0]
      case Names(hosts) =>
        if |out| + |hosts| > MAX_EXPANDED_HOSTS then Failed(TooMany)
        else Collect(expansions[1..], out + hosts)
      case other => other
  }

  function ExpandedList(list: string): Expansion {
    if Trim(list) == "" then Names([])
    else
      match Elements(Trim(list))
      case Success(elements) => Collect(Expansions(elements), [])
      case Failure(e) => Failed(e)
  }

  method ExpandHostList(list: string) returns (r: Expansion)
    ensures r == ExpandedList(list)
  {
    var trimmed := Trim(list);
    if trimmed == "" {
      return Names([]);
    }
    var split := SplitTopLevel(trimmed);
    match split
    case Failure(e) =>
      return Failed(e);
    case Success(elements) =>
      r := ExpandElements(elements);
  }

  /** The loop over the elements. */
  method ExpandElements(elements: seq<string>) returns (r: Expansion)
    ensures r == Collect(Expansions(elements), [])
  {
    ghost var all := Expansions(elements);
    var out: seq<string> := [];
    var i := 0;
    while i < |elements|
      invariant 0 <= i <= |elements|
      invariant Collect(all[i..], out) == Collect(all, [])
    {
      assert all[i..][1..] == all[i + 1..];
      ExpansionsAt(elements, i);
      var hosts := ExpandElement(elements[i]);
      if !hosts.Names? {
        return hosts;
      }
      if |out| + |hosts.names| > MAX_EXPANDED_HOSTS {
        return Failed(TooMany);
      }
      out := out + hosts.names;
      i := i + 1;
    }
    return Names(out);
  }
}

/** Laws of the top-level splitter: what the pieces are, and that concatenation of lists splits piecewise. */
module HostListSplit {
  import opened Wrappers
  import opened Text
  import opened HostList

  // ----- the pieces rebuild the input and are balanced

  /** Opening minus closing brackets. */
  function Depth(s: string): int {
    if s == "" then 0
    else
      var c := s[|s| - 1];
      Depth(s[..|s| - 1]) + (if c == '[' then 1 else if c == ']' then -1 else 0)
  }

  ghost predicate NeverNegative(s: string) {
    forall i | 0 <= i <= |s| :: Depth(s[..i]) >= 0
  }

  ghost predicate Balanced(s: string) {
    NeverNegative(s) && Depth(s) == 0
  }

  lemma DepthSnoc(s: string, c: char)
    ensures Depth(s + [c]) == Depth(s) + (if c == '[' then 1 else if c == ']' then -1 else 0)
    ensures NeverNegative(s) && Depth(s + [c]) >= 0 ==> NeverNegative(s + [c])
  {
    var t := s + [c];
    assert t[..|t| - 1] == s;
    forall i | 0 <= i <= |t| && NeverNegative(s) && Depth(t) >= 0 ensures Depth(t[..i]) >= 0 {
      if i <= |s| {
        assert t[..i] == s[..i];
      } else {
        assert t[..i] == t;
      }
    }
  }

  lemma {:induction false} ScanInvariant(s: string, depth: nat, current: string)
    requires NeverNegative(current) && Depth(current) == depth
    ensures var r := Scan(s, depth, current);
      r.Success? ==>
        && Join(r.value, ",") == current + s
        && forall p | p in r.value :: Balanced(p)
  {
    if s == "" {
      assert current + s == current;
    } else {
      var c, rest := s[0], s[1..];
      assert s == [c] + rest;
      assert current + s == current + [c] + rest;
      DepthSnoc(current, c);
      if c == '[' {
        ScanInvariant(rest, depth + 1, current + [c]);
      } else if c == ']' {
        if depth > 0 {
          ScanInvariant(rest, depth - 1, current + [c]);
        }
      } else if c == ',' && depth == 0 {
        assert Depth("") == 0;
        assert NeverNegative("");
        ScanInvariant(rest, 0, "");
        var tail := Scan(rest, 0, "");
        if tail.Success? {
          assert ([current] + tail.value)[1..] == tail.value;
          assert "" + rest == rest;
        }
      } else {
        ScanInvariant(rest, depth, current + [c]);
      }
    }
  }

  /** On success the untrimmed pieces, joined by commas, are the input; every element kept is balanced. */
  lemma SplitterInvariant(list: string)
    ensures var r := Scan(list, 0, "");
      r.Success? ==> Join(r.value, ",") == list && forall p | p in r.value :: Balanced(p)
    ensures var r := Elements(list);
      r.Success? ==> forall el | el in r.value :: Balanced(el) && el != ""
  {
    assert Depth("") == 0;
    assert NeverNegative("");
    ScanInvariant(list, 0, "");
    assert "" + list == list;
    var r := Scan(list, 0, "");
    if r.Success? {
      KeepBalanced(r.value);
    }
  }

  lemma {:induction false} KeepBalanced(pieces: seq<string>)
    requires forall p | p in pieces :: Balanced(p)
    ensures forall el | el in Keep(pieces) :: Balanced(el) && el != ""
  {
    if pieces != [] {
      KeepBalanced(pieces[1..]);
      TrimLeftBalanced(pieces[0]);
      TrimRightBalanced(TrimLeft(pieces[0]));
    }
  }

  lemma {:induction false} DepthCons(c: char, s: string)
    requires c != '[' && c != ']'
    ensures Depth([c] + s) == Depth(s)
  {
    var t := [c] + s;
    if s == "" {
      assert t[..|t| - 1] == "";
    } else {
      assert t[..|t| - 1] == [c] + s[..|s| - 1];
      DepthCons(c, s[..|s| - 1]);
    }
  }

  lemma {:induction false} TrimLeftBalanced(s: string)
    requires Balanced(s)
    ensures Balanced(TrimLeft(s))
  {
    if s != "" && IsSpace(s[0]) {
      var t := s[1..];
      assert s == [s[0]] + t;
      DepthCons(s[0], t);
      forall i | 0 <= i <= |t| ensures Depth(t[..i]) >= 0 {
        assert s[..i + 1] == [s[0]] + t[..i];
        DepthCons(s[0], t[..i]);
      }
      TrimLeftBalanced(t);
    }
  }

  lemma {:induction false} TrimRightBalanced(s: string)
    requires Balanced(s)
    ensures Balanced(TrimRight(s))
  {
    if s != "" && IsSpace(s[|s| - 1]) {
      var t := s[..|s| - 1];
      forall i | 0 <= i <= |t| ensures Depth(t[..i]) >= 0 {
        assert t[..i] == s[..i];
      }
      TrimRightBalanced(t);
    }
  }

  lemma {:induction false} DepthWithout(s: string, c: char)
    requires c == '[' || c == ']'
    requires c !in s
    ensures if c == '[' then Depth(s) <= 0 else Depth(s) >= 0
  {
    if s != "" { DepthWithout(s[..|s| - 1], c); }
  }

  /** No complaint about brackets that do not pair up. */
  predicate NoUnmatched(e: Expansion) {
    e.Failed? ==> e.error !in {UnmatchedClose, UnmatchedOpen, ElementUnmatchedClose, ElementUnmatchedOpen}
  }

  lemma {:induction false} PartErrors(prefix: string, parts: seq<string>, suffix: string)
    ensures NoUnmatched(ExpandParts(prefix, parts, suffix))
  {
    if parts != [] { PartErrors(prefix, parts[1..], suffix); }
  }

  /** Text cut off behind a closing bracket has as many opening ones, so one of them comes first. */
  lemma CloseNeedsOpen(el: string, close: nat)
    requires Balanced(el) && close < |el| && el[close] == ']' && ']' !in el[..close]
    ensures '[' in el[..close]
  {
    assert Depth(el[..close + 1]) >= 0;
    assert el[..close + 1] == el[..close] + [']'];
    DepthSnoc(el[..close], ']');
    if '[' !in el[..close] { DepthWithout(el[..close], '['); }
  }

  lemma OpenNeedsClose(el: string, open: nat)
    requires Balanced(el) && open < |el| && el[open] == '['
    ensures ']' in el
  {
    if ']' !in el {
      DepthSnoc(el[..open], '[');
      assert el[..open + 1] == el[..open] + ['['];
      DepthWithout(el[..open], ']');
      DepthGrows(el, open + 1);
    }
  }

  /** In a balanced element a first bracket of either kind comes with a later first bracket of the other. */
  lemma BalancedBrackets(el: string)
    requires Balanced(el)
    ensures var open, close := IndexOf(el, '['), IndexOf(el, ']');
      (open < 0 && close < 0) || 0 <= open < close
  {
    var open, close := IndexOf(el, '['), IndexOf(el, ']');
    IndexOfFirst(el, '[');
    IndexOfFirst(el, ']');
    if close >= 0 {
      CloseNeedsOpen(el, close);
      FirstBefore(el, open, close);
    }
    if open >= 0 { OpenNeedsClose(el, open); }
  }

  lemma FirstBefore(el: string, open: int, close: nat)
    requires close < |el| && '[' in el[..close]
    requires open == IndexOf(el, '[')
    ensures 0 <= open < close
  {
    var i :| 0 <= i < close && el[..close][i] == '[';
    IndexOfAtMost(el, '[', i);
  }

  /** A balanced element has no unmatched bracket. */
  lemma BalancedCut(el: string)
    requires Balanced(el)
    ensures !CutGroup(el).Broken?
  {
    BalancedBrackets(el);
  }

  /** Both unmatched-bracket errors of a single element are dead code behind the splitter. */
  lemma ElementErrorsUnreachable(el: string)
    requires Balanced(el)
    ensures NoUnmatched(Expand(el))
  {
    BalancedCut(el);
    match CutGroup(el)
    case Bare =>
    case Broken(_) =>
    case Around(prefix, inner, suffix) => GroupErrors(prefix, inner, suffix);
  }

  lemma GroupErrors(prefix: string, inner: string, suffix: string)
    ensures NoUnmatched(ExpandGroup(prefix, inner, suffix))
  {
    PartErrors(prefix, Split(inner, ','), suffix);
  }

  lemma {:induction false} DepthGrows(s: string, i: nat)
    requires i <= |s| && ']' !in s
    ensures Depth(s[..i]) <= Depth(s)
  {
    if i < |s| {
      assert s[..|s| - 1][..i] == s[..i];
      DepthGrows(s[..|s| - 1], i);
    } else {
      assert s[..i] == s;
    }
  }

  lemma {:induction false} CollectErrors(expansions: seq<Expansion>, out: seq<string>)
    requires forall i | 0 <= i < |expansions| :: NoUnmatched(expansions[i])
    ensures NoUnmatched(Collect(expansions, out))
  {
    if expansions != [] {
      match expansions[0]
      case Names(hosts) => CollectErrors(expansions[1..], out + hosts);
      case _ =>
    }
  }

  /** No bracket closes one too many; said of what has been read and what is still to be read. */
  lemma {:induction false} ScanOutcome(read: string, s: string, depth: nat, current: string)
    requires NeverNegative(read) && Depth(read) == depth
    ensures var r := Scan(s, depth, current);
      if !NeverNegative(read + s) then r == Failure(UnmatchedClose)
      else if Depth(read + s) > 0 then r == Failure(UnmatchedOpen)
      else r.Success?
    decreases |s|
  {
    assert read[..|read|] == read;
    if s == "" {
      assert read + s == read;
    } else {
      var c, rest := s[0], s[1..];
      assert read + s == read + [c] + rest;
      DepthSnoc(read, c);
      if Depth(read + [c]) < 0 {
        assert (read + s)[..|read| + 1] == read + [c];
      } else {
        ScanOutcome(read + [c], rest, Depth(read + [c]), if c == ',' && depth == 0 then "" else current + [c]);
      }
    }
  }

  /** How the splitter ends: with the complaint the brackets of the list call for, or without one. */
  lemma ElementsOutcome(list: string)
    ensures if !NeverNegative(list) then Elements(list) == Failure(UnmatchedClose)
      else if Depth(list) > 0 then Elements(list) == Failure(UnmatchedOpen)
      else Elements(list).Success?
  {
    assert Depth("") == 0 && NeverNegative("");
    assert "" + list == list;
    ScanOutcome("", list, 0, "");
  }

  lemma ElementsNoUnmatched(elements: seq<string>)
    requires forall el | el in elements :: Balanced(el)
    ensures NoUnmatched(Collect(Expansions(elements), []))
  {
    forall i | 0 <= i < |elements| ensures NoUnmatched(Expansions(elements)[i]) {
      ExpansionsAt(elements, i);
      ElementErrorsUnreachable(elements[i]);
    }
    CollectErrors(Expansions(elements), []);
  }

  /**
   * The bracket errors, for every input: one closing bracket too many at some point gives the one error, and
   * otherwise an opening bracket that stays open gives the other; nothing else gives either, and no input
   * whatever makes the expander report an unmatched bracket of a single element.
   */
  lemma UnmatchedExactly(list: string)
    ensures ExpandedList(list) == Failed(UnmatchedClose) <==> !NeverNegative(list)
    ensures ExpandedList(list) == Failed(UnmatchedOpen) <==> NeverNegative(list) && Depth(list) > 0
    ensures ExpandedList(list) != Failed(ElementUnmatchedClose)
    ensures ExpandedList(list) != Failed(ElementUnmatchedOpen)
  {
    TrimmingImmaterial(list);
    ElementsOutcome(list);
    if Elements(list).Success? {
      SplitterInvariant(list);
      ElementsNoUnmatched(Elements(list).value);
    }
  }

  // ----- splitting a concatenation

  /** Text without brackets, and without commas unless inside a group, is swallowed whole. */
  lemma {:induction false} ScanThrough(t: string, rest: string, depth: nat, current: string)
    requires '[' !in t && ']' !in t
    requires depth == 0 ==> ',' !in t
    ensures Scan(t + rest, depth, current) == Scan(rest, depth, current + t)
  {
    if t == "" {
      assert t + rest == rest;
      assert current + t == current;
    } else {
      assert (t + rest)[1..] == t[1..] + rest;
      assert current + [t[0]] + t[1..] == current + t;
      ScanThrough(t[1..], rest, depth, current + [t[0]]);
    }
  }

  lemma {:induction false} ScanAppend(a: string, b: string, depth: nat, current: string)
    requires Scan(a, depth, current).Success?
    ensures Scan(a + "," + b, depth, current) == Prepend(Scan(a, depth, current).value, Scan(b, 0, ""))
  {
    var s := a + "," + b;
    if a == "" {
      assert s[1..] == b;
    } else {
      var c := a[0];
      assert s[0] == c;
      assert s[1..] == a[1..] + "," + b;
      if c == '[' {
        ScanAppend(a[1..], b, depth + 1, current + [c]);
      } else if c == ']' {
        ScanAppend(a[1..], b, depth - 1, current + [c]);
      } else if c == ',' && depth == 0 {
        ScanAppend(a[1..], b, 0, "");
        var later := Scan(b, 0, "");
        if later.Success? {
          assert [current] + (Scan(a[1..], 0, "").value + later.value)
              == [current] + Scan(a[1..], 0, "").value + later.value;
        }
      } else {
        ScanAppend(a[1..], b, depth, current + [c]);
      }
    }
  }

  function PrefixFirst(t: string, r: Result<seq<string>, Error>): Result<seq<string>, Error>
    requires r.Success? ==> r.value != []
  {
    match r
    case Success(pieces) => Success([t + pieces[0]] + pieces[1..])
    case Failure(_) => r
  }

  lemma {:induction false} ScanCurrent(s: string, depth: nat, t: string, current: string)
    ensures Scan(s, depth, t + current) == PrefixFirst(t, Scan(s, depth, current))
  {
    if s == "" {
      assert [current][1..] == [];
      assert [t + current] + [] == [t + current];
    } else {
      var c := s[0];
      assert t + current + [c] == t + (current + [c]);
      if c == '[' {
        ScanCurrent(s[1..], depth + 1, t, current + [c]);
      } else if c == ']' {
        if depth > 0 { ScanCurrent(s[1..], depth - 1, t, current + [c]); }
      } else if c == ',' && depth == 0 {
        var r := Scan(s[1..], 0, "");
        if r.Success? { assert ([current] + r.value)[1..] == r.value; }
      } else {
        ScanCurrent(s[1..], depth, t, current + [c]);
      }
    }
  }

  lemma {:induction false} ScanTrailingSpace(s: string, space: char, depth: nat, current: string)
    requires IsSpace(space)
    ensures var r, r' := Scan(s, depth, current), Scan(s + [space], depth, current);
      && r'.Success? == r.Success?
      && (r.Failure? ==> r' == r)
      && (r.Success? ==> Keep(r'.value) == Keep(r.value))
  {
    var s' := s + [space];
    if s == "" {
      assert s'[1..] == "";
      if depth == 0 {
        TrimRightSpace(current, space);
        assert Scan(s', depth, current) == Success([current + [space]]);
        assert [current + [space]][1..] == [] == [current][1..];
      }
    } else {
      var c := s[0];
      assert s'[1..] == s[1..] + [space];
      if c == '[' {
        ScanTrailingSpace(s[1..], space, depth + 1, current + [c]);
      } else if c == ']' {
        if depth > 0 { ScanTrailingSpace(s[1..], space, depth - 1, current + [c]); }
      } else if c == ',' && depth == 0 {
        ScanTrailingSpace(s[1..], space, 0, "");
        var r, r' := Scan(s[1..], 0, ""), Scan(s[1..] + [space], 0, "");
        if r.Success? {
          assert ([current] + r.value)[1..] == r.value;
          assert ([current] + r'.value)[1..] == r'.value;
        }
      } else {
        ScanTrailingSpace(s[1..], space, depth, current + [c]);
      }
    }
  }

  lemma ElementsLeadingSpace(space: char, s: string)
    requires IsSpace(space)
    ensures Elements([space] + s) == Elements(s)
  {
    var s' := [space] + s;
    assert s'[1..] == s;
    assert "" + [space] == [space] + "";
    ScanCurrent(s, 0, [space], "");
    assert Scan(s', 0, "") == Scan(s, 0, [space] + "");
    var r := Scan(s, 0, "");
    if r.Success? {
      var p := r.value;
      TrimLeftSpace(space, p[0]);
      assert ([[space] + p[0]] + p[1..])[1..] == p[1..];
    }
  }

  lemma {:induction false} ElementsTrimLeft(s: string)
    ensures Elements(TrimLeft(s)) == Elements(s)
  {
    if s != "" && IsSpace(s[0]) {
      assert s == [s[0]] + s[1..];
      ElementsLeadingSpace(s[0], s[1..]);
      ElementsTrimLeft(s[1..]);
    }
  }

  lemma {:induction false} ElementsTrimRight(s: string)
    ensures Elements(TrimRight(s)) == Elements(s)
  {
    if s != "" && IsSpace(s[|s| - 1]) {
      assert s == s[..|s| - 1] + [s[|s| - 1]];
      ScanTrailingSpace(s[..|s| - 1], s[|s| - 1], 0, "");
      ElementsTrimRight(s[..|s| - 1]);
    }
  }

  /** The expander's outer trimming never changes the elements, so it can be dropped. */
  lemma TrimmingImmaterial(list: string)
    ensures Elements(Trim(list)) == Elements(list)
    ensures ExpandedList(list) ==
      match Elements(list)
      case Success(elements) => Collect(Expansions(elements), [])
      case Failure(e) => Failed(e)
  {
    ElementsTrimLeft(list);
    ElementsTrimRight(TrimLeft(list));
    if Trim(list) == "" {
      assert Scan("", 0, "") == Success([""]);
      assert Trim("") == "";
      assert [""][1..] == [];
      assert Keep([""]) == [];
    }
  }

  lemma {:induction false} CollectExtends(xs: seq<Expansion>, out: seq<string>)
    ensures Collect(xs, out).Names? ==> out <= Collect(xs, out).names
  {
    if xs != [] && xs[0].Names? {
      CollectExtends(xs[1..], out + xs[0].names);
    }
  }

  /** Starting from other names changes nothing but the names in front, as long as the cap holds. */
  lemma {:induction false} CollectFrom(xs: seq<Expansion>, out: seq<string>, front: seq<string>)
    requires Collect(xs, out).Names?
    requires |front| + |Collect(xs, out).names| <= MAX_EXPANDED_HOSTS
    ensures Collect(xs, front + out) == Names(front + Collect(xs, out).names)
  {
    if xs != [] {
      var hosts := xs[0].names;
      CollectExtends(xs[1..], out + hosts);
      assert front + out + hosts == front + (out + hosts);
      CollectFrom(xs[1..], out + hosts, front);
    }
  }

  lemma {:induction false} CollectAppend(xs: seq<Expansion>, ys: seq<Expansion>, out: seq<string>)
    requires Collect(xs, out).Names?
    ensures Collect(xs + ys, out) == Collect(ys, Collect(xs, out).names)
  {
    if xs == [] {
      assert xs + ys == ys;
    } else {
      assert (xs + ys)[1..] == xs[1..] + ys;
      CollectAppend(xs[1..], ys, out + xs[0].names);
    }
  }

  lemma {:induction false} ExpansionsAppend(xs: seq<string>, ys: seq<string>)
    ensures Expansions(xs + ys) == Expansions(xs) + Expansions(ys)
  {
    if xs == [] {
      assert xs + ys == ys;
    } else {
      assert (xs + ys)[1..] == xs[1..] + ys;
      ExpansionsAppend(xs[1..], ys);
    }
  }

  /** Two lists that expand within the cap together expand, comma-joined, to the concatenation. */
  lemma ConcatenationHomomorphism(a: string, b: string)
    requires ExpandedList(a).Names? && ExpandedList(b).Names?
    requires |ExpandedList(a).names| + |ExpandedList(b).names| <= MAX_EXPANDED_HOSTS
    ensures ExpandedList(a + "," + b) == Names(ExpandedList(a).names + ExpandedList(b).names)
  {
    TrimmingImmaterial(a);
    TrimmingImmaterial(b);
    TrimmingImmaterial(a + "," + b);
    ScanAppend(a, b, 0, "");
    KeepAppend(Scan(a, 0, "").value, Scan(b, 0, "").value);
    var xs, ys := Elements(a).value, Elements(b).value;
    ExpansionsAppend(xs, ys);
    CollectAppend(Expansions(xs), Expansions(ys), []);
    var front := Collect(Expansions(xs), []).names;
    assert front + [] == front;
    CollectFrom(Expansions(ys), [], front);
  }
}

/** The parts of Go's strings package that the syncer relies on. */
module Text {

  /** The code points for which unicode.IsSpace answers true. */
  predicate IsSpace(c: char) {
    || '\t' <= c <= '\r'
    || c == ' '
    || c == '\U{0085}'
    || c == '\U{00A0}'
    || c == '\U{1680}'
    || '\U{2000}' <= c <= '\U{200A}'
    || c == '\U{2028}'
    || c == '\U{2029}'
    || c == '\U{202F}'
    || c == '\U{205F}'
    || c == '\U{3000}'
  }

  /** Letters, digits, dots, dashes and underscores. */
  predicate IsNameChar(c: char) {
    'a' <= c <= 'z' || 'A' <= c <= 'Z' || '0' <= c <= '9' || c == '.' || c == '-' || c == '_'
  }

  function TrimLeft(s: string): string {
    if s != "" && IsSpace(s[0]) then TrimLeft(s[1..]) else s
  }

  function TrimRight(s: string): string {
    if s != "" && IsSpace(s[|s| - 1]) then TrimRight(s[..|s| - 1]) else s
  }

  /** strings.TrimSpace. */
  function Trim(s: string): string {
    TrimRight(TrimLeft(s))
  }

  predicate HasPrefix(s: string, prefix: string) {
    prefix <= s
  }

  /** strings.IndexByte: the first position of c, or -1. */
  function IndexOf(s: string, c: char): (i: int)
    ensures -1 <= i < |s|
    ensures i >= 0 ==> s[i] == c
  {
    if s == "" then -1
    else if s[0] == c then 0
    else
      var rest := IndexOf(s[1..], c);
      if rest < 0 then -1 else rest + 1
  }

  /** strings.Split on one character. */
  function Split(s: string, sep: char): (parts: seq<string>)
    ensures |parts| > 0
  {
    var i := IndexOf(s, sep);
    if i < 0 then [s] else [s[..i]] + Split(s[i + 1..], sep)
  }

  /** strings.Join. */
  function Join(parts: seq<string>, sep: string): string {
    if parts == [] then ""
    else if |parts| == 1 then parts[0]
    else parts[0] + sep + Join(parts[1..], sep)
  }

  /** A string whose ends are not white space is its own trimming. */
  lemma TrimIdentity(s: string)
    requires s == "" || (!IsSpace(s[0]) && !IsSpace(s[|s| - 1]))
    ensures Trim(s) == s
  {
  }

  lemma IndexOfFirst(s: string, c: char)
    ensures IndexOf(s, c) == -1 <==> c !in s
    ensures IndexOf(s, c) >= 0 ==> s[IndexOf(s, c)] == c && c !in s[..IndexOf(s, c)]
  {
    if s != "" && s[0] != c {
      IndexOfFirst(s[1..], c);
      var i := IndexOf(s[1..], c);
      if i >= 0 {
        assert s[..i + 1] == [s[0]] + s[1..][..i];
      }
    }
  }

  /** The first position is at or before any other. */
  lemma {:induction false} IndexOfAtMost(s: string, c: char, i: nat)
    requires i < |s| && s[i] == c
    ensures 0 <= IndexOf(s, c) <= i
  {
    if i > 0 && s[0] != c { IndexOfAtMost(s[1..], c, i - 1); }
  }

  lemma IndexOfAfter(before: string, c: char, after: string)
    requires c !in before
    ensures IndexOf(before + [c] + after, c) == |before|
  {
    var s := before + [c] + after;
    IndexOfFirst(s, c);
    assert s[|before|] == c;
    assert s[..|before|] == before;
  }

  /** Splitting undoes joining when no part holds the separator. */
  lemma SplitJoin(parts: seq<string>, sep: char)
    requires parts != []
    requires forall p | p in parts :: sep !in p
    ensures Split(Join(parts, [sep]), sep) == parts
  {
    if |parts| == 1 {
      assert parts[0] in parts;
      IndexOfFirst(parts[0], sep);
      assert parts == [parts[0]];
    } else {
      var rest := Join(parts[1..], [sep]);
      assert parts[0] in parts;
      IndexOfAfter(parts[0], sep, rest);
      var s := parts[0] + [sep] + rest;
      assert s[..|parts[0]|] == parts[0];
      assert s[|parts[0]| + 1..] == rest;
      SplitJoin(parts[1..], sep);
    }
  }

  lemma TrimLeftSpace(c: char, s: string)
    requires IsSpace(c)
    ensures Trim([c] + s) == Trim(s)
  {
    assert ([c] + s)[1..] == s;
  }

  lemma {:induction false} TrimRightSpace(s: string, c: char)
    requires IsSpace(c)
    ensures Trim(s + [c]) == Trim(s)
  {
    if s == "" {
      assert s + [c] == [c];
      assert [c][1..] == "";
    } else if IsSpace(s[0]) {
      assert (s + [c])[1..] == s[1..] + [c];
      TrimRightSpace(s[1..], c);
    } else {
      assert (s + [c])[..|s|] == s;
    }
  }

  /** The 25 code points that Unicode calls white space, by number. */
  lemma SpaceExactly(c: char)
    ensures IsSpace(c) <==> c as int in {
      9, 10, 11, 12, 13, 32, 133, 160, 5760, 8192, 8193, 8194, 8195, 8196, 8197, 8198, 8199, 8200, 8201, 8202, 8232,
      8233, 8239, 8287, 12288}
  {
  }

  predicate AllSpace(s: string) {
    forall c | c in s :: IsSpace(c)
  }

  lemma {:induction false} TrimLeftBlanks(before: string, s: string)
    requires AllSpace(before)
    ensures Trim(before + s) == Trim(s)
  {
    if before == "" {
      assert before + s == s;
    } else {
      assert before[0] in before;
      assert before + s == [before[0]] + (before[1..] + s);
      TrimLeftSpace(before[0], before[1..] + s);
      TrimLeftBlanks(before[1..], s);
    }
  }

  lemma {:induction false} TrimRightBlanks(s: string, after: string)
    requires AllSpace(after)
    ensures Trim(s + after) == Trim(s)
  {
    if after == "" {
      assert s + after == s;
    } else {
      var more, last := after[..|after| - 1], after[|after| - 1];
      assert last in after;
      assert s + after == s + more + [last];
      TrimRightSpace(s + more, last);
      TrimRightBlanks(s, more);
    }
  }

  /** What trimming leaves, for any text: its middle, when the middle has no white space at its ends. */
  lemma TrimExactly(before: string, middle: string, after: string)
    requires AllSpace(before) && AllSpace(after)
    requires middle == "" || (!IsSpace(middle[0]) && !IsSpace(middle[|middle| - 1]))
    ensures Trim(before + middle + after) == middle
  {
    TrimRightBlanks(before + middle, after);
    TrimLeftBlanks(before, middle);
    TrimIdentity(middle);
  }

  /** Nothing is left exactly of white space alone. */
  lemma {:induction false} TrimmedEmpty(s: string)
    ensures Trim(s) == "" <==> AllSpace(s)
  {
    if s != "" {
      assert s == [s[0]] + s[1..];
      if IsSpace(s[0]) {
        TrimLeftSpace(s[0], s[1..]);
        TrimmedEmpty(s[1..]);
      } else {
        TrimRightKeeps(s);
      }
    }
  }

  lemma {:induction false} TrimRightKeeps(s: string)
    requires s != "" && !IsSpace(s[0])
    ensures TrimRight(s) != ""
  {
    if IsSpace(s[|s| - 1]) { TrimRightKeeps(s[..|s| - 1]); }
  }
}

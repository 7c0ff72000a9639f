/** Go's byte-wise string order and sort.Strings, with the uniqueness of its result. */
module Sorting {

  predicate Leq(a: string, b: string) {
    if a == "" then true
    else if b == "" then false
    else a[0] < b[0] || (a[0] == b[0] && Leq(a[1..], b[1..]))
  }

  /** The texts agree up to position k, and there a has the smaller character. */
  predicate FirstDiffers(a: string, b: string, k: nat) {
    k < |a| && k < |b| && a[..k] == b[..k] && a[k] < b[k]
  }

  lemma DiffersLater(a: string, b: string, k: nat)
    requires a != "" && b != "" && a[0] == b[0]
    ensures FirstDiffers(a, b, k + 1) <==> FirstDiffers(a[1..], b[1..], k)
  {
    if k < |a[1..]| && k < |b[1..]| {
      assert a[..k + 1] == [a[0]] + a[1..][..k];
      assert b[..k + 1] == [b[0]] + b[1..][..k];
    }
  }

  lemma DiffersAtOnce(a: string, b: string, k: nat)
    requires a != "" && b != "" && a[0] != b[0]
    ensures FirstDiffers(a, b, k) ==> k == 0
  {
    if 0 < k < |a| && k < |b| {
      assert a[..k][0] == a[0] && b[..k][0] == b[0];
    }
  }

  lemma PrefixLater(a: string, b: string)
    requires a != "" && b != ""
    ensures a <= b <==> a[0] == b[0] && a[1..] <= b[1..]
  {
  }

  /** The order of dictionaries: a prefix comes first, and otherwise the first character that differs decides. */
  lemma {:induction false} LeqExactly(a: string, b: string)
    ensures Leq(a, b) <==> a <= b || exists k: nat :: FirstDiffers(a, b, k)
  {
    if a != "" && b != "" {
      PrefixLater(a, b);
      if a[0] == b[0] {
        LeqExactly(a[1..], b[1..]);
        forall k: nat ensures FirstDiffers(a, b, k + 1) <==> FirstDiffers(a[1..], b[1..], k) {
          DiffersLater(a, b, k);
        }
        assert !FirstDiffers(a, b, 0);
        if k: nat :| FirstDiffers(a, b, k) { assert FirstDiffers(a[1..], b[1..], k - 1); }
        if k: nat :| FirstDiffers(a[1..], b[1..], k) { assert FirstDiffers(a, b, k + 1); }
      } else {
        assert a[0] < b[0] ==> FirstDiffers(a, b, 0);
        forall k: nat ensures FirstDiffers(a, b, k) ==> k == 0 {
          DiffersAtOnce(a, b, k);
        }
      }
    }
  }

  lemma {:induction a, b} LeqTotal(a: string, b: string)
    ensures Leq(a, b) || Leq(b, a)
  {
  }

  lemma LeqReflexive(a: string)
    ensures Leq(a, a)
  {
  }

  lemma {:induction false} LeqAntisymmetric(a: string, b: string)
    requires Leq(a, b) && Leq(b, a)
    ensures a == b
  {
    if a != "" && b != "" {
      LeqAntisymmetric(a[1..], b[1..]);
      assert a == [a[0]] + a[1..];
      assert b == [b[0]] + b[1..];
    }
  }

  lemma {:induction false} LeqTransitive(a: string, b: string, c: string)
    requires Leq(a, b) && Leq(b, c)
    ensures Leq(a, c)
  {
    if a != "" && b != "" && c != "" && a[0] == b[0] == c[0] {
      LeqTransitive(a[1..], b[1..], c[1..]);
    }
  }

  ghost predicate Sorted(s: seq<string>) {
    forall i, j | 0 <= i < j < |s| :: Leq(s[i], s[j])
  }

  function Insert(x: string, s: seq<string>): seq<string> {
    if s == [] then [x]
    else if Leq(x, s[0]) then [x] + s
    else [s[0]] + Insert(x, s[1..])
  }

  /** sort.Strings, as a value. */
  function SortStrings(s: seq<string>): seq<string> {
    if s == [] then [] else Insert(s[0], SortStrings(s[1..]))
  }

  lemma ConsSorted(x: string, s: seq<string>)
    requires Sorted(s) && forall y | y in s :: Leq(x, y)
    ensures Sorted([x] + s)
  {
  }

  lemma HeadBelow(x: string, s: seq<string>)
    requires Sorted(s) && s != [] && Leq(x, s[0])
    ensures forall y | y in s :: Leq(x, y)
  {
    forall y | y in s ensures Leq(x, y) {
      HeadLeast(s, y);
      LeqTransitive(x, s[0], y);
    }
  }

  lemma {:induction false} InsertMultiset(x: string, s: seq<string>)
    ensures multiset(Insert(x, s)) == multiset(s) + multiset{x}
  {
    if s != [] && !Leq(x, s[0]) {
      assert s == [s[0]] + s[1..];
      InsertMultiset(x, s[1..]);
    }
  }

  lemma InsertMembers(x: string, s: seq<string>)
    ensures forall y | y in Insert(x, s) :: y == x || y in s
  {
    InsertMultiset(x, s);
    forall y | y in Insert(x, s) ensures y == x || y in s {
      assert y in multiset(Insert(x, s));
    }
  }

  lemma {:induction false} InsertSorts(x: string, s: seq<string>)
    requires Sorted(s)
    ensures Sorted(Insert(x, s))
    ensures multiset(Insert(x, s)) == multiset(s) + multiset{x}
  {
    InsertMultiset(x, s);
    if s != [] {
      if Leq(x, s[0]) {
        HeadBelow(x, s);
        ConsSorted(x, s);
      } else {
        LeqTotal(x, s[0]);
        InsertSorts(x, s[1..]);
        InsertMembers(x, s[1..]);
        LeqReflexive(s[0]);
        HeadBelow(s[0], s);
        ConsSorted(s[0], Insert(x, s[1..]));
      }
    }
  }

  /** The result is sorted and a permutation. */
  lemma {:induction false} SortStringsSorts(s: seq<string>)
    ensures Sorted(SortStrings(s))
    ensures multiset(SortStrings(s)) == multiset(s)
  {
    if s != [] {
      assert s == [s[0]] + s[1..];
      SortStringsSorts(s[1..]);
      InsertSorts(s[0], SortStrings(s[1..]));
    }
  }

  lemma NonEmptySame(a: seq<string>, b: seq<string>)
    requires multiset(a) == multiset(b)
    ensures a == [] <==> b == []
  {
    assert |multiset(a)| == |a| && |multiset(b)| == |b|;
  }

  /** Equal multisets, both sorted: the heads are equal. */
  lemma SameHead(a: seq<string>, b: seq<string>)
    requires Sorted(a) && Sorted(b) && multiset(a) == multiset(b) && a != [] && b != []
    ensures a[0] == b[0]
  {
    assert a[0] in multiset(b) && b[0] in multiset(a);
    HeadLeast(a, b[0]);
    HeadLeast(b, a[0]);
    LeqAntisymmetric(a[0], b[0]);
  }

  lemma TailMultiset(a: seq<string>)
    requires a != []
    ensures multiset(a[1..]) == multiset(a) - multiset{a[0]}
  {
    assert a == [a[0]] + a[1..];
  }

  /** A multiset of strings has one sorted arrangement only. */
  lemma {:induction false} SortedUnique(a: seq<string>, b: seq<string>)
    requires Sorted(a) && Sorted(b)
    requires multiset(a) == multiset(b)
    ensures a == b
  {
    NonEmptySame(a, b);
    if a != [] {
      SameHead(a, b);
      TailMultiset(a);
      TailMultiset(b);
      SortedUnique(a[1..], b[1..]);
      assert a == [a[0]] + a[1..] && b == [b[0]] + b[1..];
    }
  }

  lemma HeadLeast(s: seq<string>, x: string)
    requires Sorted(s) && x in s
    ensures Leq(s[0], x)
  {
    LeqReflexive(s[0]);
  }

  /** Sorting forgets exactly the order. */
  lemma SortCanonical(a: seq<string>, b: seq<string>)
    ensures SortStrings(a) == SortStrings(b) <==> multiset(a) == multiset(b)
  {
    SortStringsSorts(a);
    SortStringsSorts(b);
    if multiset(a) == multiset(b) {
      SortedUnique(SortStrings(a), SortStrings(b));
    }
  }
}

/** Unsigned decimal numerals: strconv.ParseUint, strconv.Itoa and fmt's zero padding. */
module Decimal {
  import opened Wrappers

  const MAX_UINT64: nat := 0xFFFF_FFFF_FFFF_FFFF

  predicate IsDigit(c: char) {
    '0' <= c <= '9'
  }

  predicate AllDigits(s: string) {
    forall i | 0 <= i < |s| :: IsDigit(s[i])
  }

  function DigitValue(c: char): (d: nat)
    requires IsDigit(c)
    ensures d < 10
  {
    (c - '0') as nat
  }

  function DigitChar(d: nat): (c: char)
    requires d < 10
    ensures IsDigit(c) && DigitValue(c) == d
  {
    '0' + d as char
  }

  /** The number a digit string denotes. */
  function Value(s: string): nat
    requires AllDigits(s)
  {
    if s == "" then 0 else 10 * Value(s[..|s| - 1]) + DigitValue(s[|s| - 1])
  }

  /** strconv.ParseUint(s, 10, 64). */
  function ParseUint(s: string): Option<nat> {
    if s != "" && AllDigits(s) && Value(s) <= MAX_UINT64 then Some(Value(s)) else None
  }

  /** A numeral of at most max: one decimal digit or more. */
  predicate NumeralTo(s: string, max: nat) {
    s != "" && (forall i | 0 <= i < |s| :: '0' <= s[i] <= '9') && Value(s) <= max
  }

  /** What parses as an unsigned 64-bit number. */
  lemma ParseExactly(s: string)
    ensures ParseUint(s) == if NumeralTo(s, 18446744073709551615) then Some(Value(s)) else None
  {
  }

  /** The shortest numeral of n. */
  function Numeral(n: nat): (s: string)
    ensures s != ""
  {
    if n < 10 then [DigitChar(n)] else Numeral(n / 10) + [DigitChar(n % 10)]
  }

  lemma NumeralValue(n: nat)
    ensures AllDigits(Numeral(n)) && Value(Numeral(n)) == n
  {
    if n < 10 {
      assert Numeral(n)[..0] == "";
    } else {
      NumeralValue(n / 10);
      var s := Numeral(n);
      assert s[..|s| - 1] == Numeral(n / 10);
    }
  }

  function Zeros(k: nat): (s: string)
    ensures |s| == k
  {
    if k == 0 then "" else Zeros(k - 1) + "0"
  }

  /** fmt's %0*d: at least width digits, zero filled, never truncated. */
  function Pad(width: nat, n: nat): (s: string)
    ensures s != ""
    ensures |s| == if |Numeral(n)| < width then width else |Numeral(n)|
  {
    var digits := Numeral(n);
    if |digits| < width then Zeros(width - |digits|) + digits else digits
  }

  lemma ValueSnoc(s: string, c: char)
    requires AllDigits(s) && IsDigit(c)
    ensures AllDigits(s + [c]) && Value(s + [c]) == 10 * Value(s) + DigitValue(c)
  {
    assert (s + [c])[..|s|] == s;
  }

  lemma {:induction false} ZerosValue(k: nat)
    ensures AllDigits(Zeros(k)) && Value(Zeros(k)) == 0
  {
    if k > 0 {
      ZerosValue(k - 1);
      ValueSnoc(Zeros(k - 1), '0');
      assert "0" == ['0'];
    }
  }

  /** Leading zeros do not change a value. */
  lemma {:induction false} ZerosIgnored(k: nat, s: string)
    requires AllDigits(s)
    ensures AllDigits(Zeros(k) + s) && Value(Zeros(k) + s) == Value(s)
  {
    if s == "" {
      ZerosValue(k);
      assert Zeros(k) + s == Zeros(k);
    } else {
      var t, c := s[..|s| - 1], s[|s| - 1];
      ZerosIgnored(k, t);
      ValueSnoc(Zeros(k) + t, c);
      assert Zeros(k) + s == Zeros(k) + t + [c];
    }
  }

  /** Padding is undone by parsing, so it is injective. */
  lemma PadValue(width: nat, n: nat)
    ensures AllDigits(Pad(width, n)) && Value(Pad(width, n)) == n
  {
    var digits := Numeral(n);
    NumeralValue(n);
    if |digits| < width {
      ZerosIgnored(width - |digits|, digits);
    }
  }

  lemma {:induction false} NumeralLead(n: nat)
    requires n > 0
    ensures Numeral(n)[0] != '0'
  {
    if n >= 10 {
      NumeralLead(n / 10);
      assert Numeral(n)[0] == Numeral(n / 10)[0];
    }
  }

  /** What %0*d writes: the number, in at least width digits, and in more of them only without a leading zero. */
  lemma PadShape(width: nat, n: nat)
    requires width > 0
    ensures var t := Pad(width, n);
      AllDigits(t) && Value(t) == n && |t| >= width && (|t| > width ==> t[0] != '0')
  {
    PadValue(width, n);
    if n > 0 { NumeralLead(n); }
  }

  /** Parsing is undone by padding to the written width. */
  lemma {:induction false} ValuePad(x: string)
    requires x != "" && AllDigits(x)
    ensures |Numeral(Value(x))| <= |x|
    ensures Pad(|x|, Value(x)) == x
  {
    var y, c := x[..|x| - 1], x[|x| - 1];
    assert x == y + [c];
    assert DigitChar(DigitValue(c)) == c;
    if y == "" {
      assert x == [c];
    } else {
      ValuePad(y);
      if Value(x) < 10 {
        assert Value(y) == 0;
        assert Numeral(0) == "0";
        assert y == Zeros(|y| - 1) + "0" == Zeros(|y|);
        assert Numeral(Value(x)) == [c];
      } else {
        assert Value(x) / 10 == Value(y);
        assert Numeral(Value(x)) == Numeral(Value(y)) + [c];
      }
    }
  }

  lemma {:induction false} NumeralMonotone(m: nat, n: nat)
    requires m <= n
    ensures |Numeral(m)| <= |Numeral(n)|
  {
    if m >= 10 {
      NumeralMonotone(m / 10, n / 10);
    }
  }

  /** Padding to the width of an already padded smaller number changes nothing. */
  lemma PadWidthStable(width: nat, m: nat, n: nat)
    requires m <= n
    ensures Pad(|Pad(width, m)|, n) == Pad(width, n)
  {
    NumeralMonotone(m, n);
  }
}

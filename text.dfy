/**
 * The string helpers the engine relies on: decimal rendering of numbers
 * (JavaScript's template-literal conversion), the two-digit padding
 * `('0' + n).slice(-2)`, `String.prototype.split` on one separator
 * character, and `<` on strings (lexicographic by character code).
 */
module Text {

  import opened Wrappers

  predicate IsDigit(c: char)
  {
    '0' <= c <= '9'
  }

  predicate AllDigits(s: string)
  {
    forall i :: 0 <= i < |s| ==> IsDigit(s[i])
  }

  function DigitValue(c: char): (v: nat)
    requires IsDigit(c)
    ensures v < 10
  {
    c as int - '0' as int
  }

  function DigitChar(d: nat): (c: char)
    requires d < 10
    ensures IsDigit(c) && DigitValue(c) == d
  {
    (d + '0' as int) as char
  }

  /** Decimal rendering of a non-negative integer, most significant digit first. */
  function NatToDecimal(n: nat): (s: string)
    ensures |s| >= 1 && AllDigits(s)
    ensures s[|s| - 1] == DigitChar(n % 10)
    ensures n < 10 <==> |s| == 1
  {
    if n < 10 then [DigitChar(n)] else NatToDecimal(n / 10) + [DigitChar(n % 10)]
  }

  /** Value of a string of decimal digits (`Number(s)` for such a string; the empty string is 0). */
  function ParseDecimal(s: string): nat
    requires AllDigits(s)
  {
    if s == [] then 0 else ParseDecimal(s[..|s| - 1]) * 10 + DigitValue(s[|s| - 1])
  }

  /** Reading back a rendered number gives the number. */
  lemma {:induction false} ParseNatToDecimal(n: nat)
    ensures ParseDecimal(NatToDecimal(n)) == n
  {
    if n >= 10 {
      var s := NatToDecimal(n);
      assert s[..|s| - 1] == NatToDecimal(n / 10);
      ParseNatToDecimal(n / 10);
    }
  }

  /** Rendering of a possibly negative integer: a minus sign, then the digits of its magnitude. */
  function IntToDecimal(i: int): (s: string)
    ensures |s| >= 1
    ensures s[0] == '-' <==> i < 0
  {
    if i < 0 then "-" + NatToDecimal(-i) else NatToDecimal(i)
  }

  /** Inverse of IntToDecimal on its image: an optional minus sign followed by at least one digit. */
  function ParseInt(s: string): (r: Option<int>)
  {
    if |s| == 0 then None
    else if s[0] == '-' then
      (var m := s[1..]; if |m| >= 1 && AllDigits(m) then Some(0 - ParseDecimal(m)) else None)
    else if AllDigits(s) then Some(ParseDecimal(s))
    else None
  }

  lemma ParseIntOfNonNegative(i: nat)
    ensures ParseInt(IntToDecimal(i)) == Some(i)
  {
    var d := NatToDecimal(i);
    ParseNatToDecimal(i);
    assert IsDigit(d[0]);
  }

  lemma ParseIntOfNegated(d: string, n: nat)
    requires |d| >= 1 && AllDigits(d) && ParseDecimal(d) == n
    ensures ParseInt("-" + d) == Some(0 - n)
  {
    assert ("-" + d)[1..] == d;
  }

  lemma ParseIntOfNegative(n: nat)
    requires n > 0
    ensures ParseInt(IntToDecimal(0 - n)) == Some(0 - n)
  {
    var d := NatToDecimal(n);
    ParseNatToDecimal(n);
    ParseIntOfNegated(d, n);
  }

  /** Reading back a rendered integer, sign included, gives the integer. */
  lemma ParseIntToDecimal(i: int)
    ensures ParseInt(IntToDecimal(i)) == Some(i)
  {
    if i < 0 {
      ParseIntOfNegative(-i);
    } else {
      ParseIntOfNonNegative(i);
    }
  }

  /** The tens and units digits of n: `('0' + n).slice(-2)`, as Pad2IsSlice shows. */
  function Pad2(n: nat): (s: string)
    ensures |s| == 2 && AllDigits(s)
  {
    [DigitChar(n / 10 % 10), DigitChar(n % 10)]
  }

  /** Pad2 is the last two characters of n's decimal digits with a leading zero prepended. */
  lemma Pad2IsSlice(n: nat)
    ensures var t := "0" + NatToDecimal(n); Pad2(n) == t[|t| - 2..]
  {
    if n >= 10 {
      Pad2IsSliceOfWide(n);
    } else {
      assert "0" + NatToDecimal(n) == [DigitChar(0), DigitChar(n)];
    }
  }

  lemma Pad2IsSliceOfWide(n: nat)
    requires n >= 10
    ensures var t := "0" + NatToDecimal(n); Pad2(n) == t[|t| - 2..]
  {
    var u, c := NatToDecimal(n / 10), DigitChar(n % 10);
    assert u[|u| - 1] == DigitChar(n / 10 % 10);
    assert NatToDecimal(n) == u + [c];
    LastTwoAfterZero(u, c);
  }

  lemma LastTwoAfterZero(u: string, c: char)
    requires |u| >= 1
    ensures var t := "0" + (u + [c]); t[|t| - 2..] == [u[|u| - 1], c]
  {
    var t := "0" + (u + [c]);
    assert t[|t| - 2] == u[|u| - 1];
  }

  /** The padding keeps the value modulo 100: exact below 100, the last two digits above. */
  lemma Pad2Value(n: nat)
    ensures ParseDecimal(Pad2(n)) == n % 100
  {
    var s := Pad2(n);
    var tens, units := n / 10 % 10, n % 10;
    assert s[..1] == [DigitChar(tens)];
    assert s[..1][..0] == [];
    assert ParseDecimal(s[..1]) == ParseDecimal(s[..1][..0]) * 10 + tens;
    assert ParseDecimal(s) == ParseDecimal(s[..1]) * 10 + units;
    assert n == (n / 100) * 100 + tens * 10 + units;
  }

  lemma Pad2Small(n: nat)
    requires n < 100
    ensures ParseDecimal(Pad2(n)) == n
  {
    Pad2Value(n);
  }

  /**
   * `s.split(sep)`: the maximal runs between separators, in order; a string
   * without the separator gives one part, the empty string gives `[""]`.
   */
  function Split(s: string, sep: char): (parts: seq<string>)
    ensures |parts| >= 1
  {
    if s == [] then [""]
    else if s[0] == sep then [""] + Split(s[1..], sep)
    else
      var rest := Split(s[1..], sep);
      [[s[0]] + rest[0]] + rest[1..]
  }

  lemma {:induction false} SplitNoSeparator(a: string, sep: char)
    requires sep !in a
    ensures Split(a, sep) == [a]
  {
    if a != [] {
      assert sep !in a[1..];
      SplitNoSeparator(a[1..], sep);
      assert [a[0]] + a[1..] == a;
    }
  }

  /** Splitting `a + sep + b`, where `a` has no separator, gives `a` and then the parts of `b`. */
  lemma {:induction false} SplitAtSeparator(a: string, sep: char, b: string)
    requires sep !in a
    ensures Split(a + [sep] + b, sep) == [a] + Split(b, sep)
  {
    if a == [] {
      assert a + [sep] + b == [sep] + b;
      assert ([sep] + b)[1..] == b;
    } else {
      assert (a + [sep] + b)[1..] == a[1..] + [sep] + b;
      SplitAtSeparator(a[1..], sep, b);
      assert [a[0]] + a[1..] == a;
    }
  }

  lemma DigitsHaveNoColon(s: string)
    requires AllDigits(s)
    ensures ':' !in s && '-' !in s
  {
    forall i | 0 <= i < |s|
      ensures s[i] != ':' && s[i] != '-'
    {
      assert IsDigit(s[i]);
    }
  }

  /**
   * JavaScript's `a < b` on strings: lexicographic order on characters.
   * Here a character is a Unicode scalar value, where JavaScript compares
   * UTF-16 code units; the two orders differ only between U+E000..U+FFFF
   * and characters beyond U+FFFF, and agree on the digit strings compared
   * at script.js:46.
   */
  predicate LexLess(a: string, b: string)
  {
    if a == [] then b != []
    else if b == [] then false
    else if a[0] != b[0] then a[0] < b[0]
    else LexLess(a[1..], b[1..])
  }

  /** No string is below itself. */
  lemma {:induction false} LexLessIrreflexive(a: string)
    ensures !LexLess(a, a)
  {
    if a != [] {
      LexLessIrreflexive(a[1..]);
    }
  }

  /** String order is transitive. */
  lemma {:induction false} LexLessTransitive(a: string, b: string, c: string)
    requires LexLess(a, b) && LexLess(b, c)
    ensures LexLess(a, c)
  {
    if a != [] && b != [] && c != [] && a[0] == b[0] && b[0] == c[0] {
      LexLessTransitive(a[1..], b[1..], c[1..]);
    }
  }

  /** Any two different strings are ordered one way or the other. */
  lemma {:induction false} LexLessTotal(a: string, b: string)
    requires a != b
    ensures LexLess(a, b) || LexLess(b, a)
  {
    if a != [] && b != [] && a[0] == b[0] {
      assert a == [a[0]] + a[1..] && b == [b[0]] + b[1..];
      LexLessTotal(a[1..], b[1..]);
    }
  }

  /** Two-character strings compare by their first characters, then their second. */
  lemma TwoCharOrder(c1: char, c2: char, d1: char, d2: char)
    ensures LexLess([c1, c2], [d1, d2]) <==> c1 < d1 || (c1 == d1 && c2 < d2)
  {
    var a, b := [c1, c2], [d1, d2];
    assert a[1..] == [c2] && b[1..] == [d2];
    assert a[1..][1..] == [] && b[1..][1..] == [];
    assert LexLess(a[1..], b[1..]) <==> c2 < d2;
  }

  /** Below 100, numeric order is the order of (tens, units). */
  lemma TensUnitsOrder(a: nat, b: nat)
    requires a < 100 && b < 100
    ensures a < b <==> a / 10 % 10 < b / 10 % 10 || (a / 10 % 10 == b / 10 % 10 && a % 10 < b % 10)
  {
    assert a / 10 % 10 == a / 10 && b / 10 % 10 == b / 10;
    assert a == a / 10 * 10 + a % 10 && b == b / 10 * 10 + b % 10;
  }

  /** On two-digit padded numbers below 100, string order is numeric order. */
  lemma Pad2Order(a: nat, b: nat)
    requires a < 100 && b < 100
    ensures LexLess(Pad2(a), Pad2(b)) <==> a < b
  {
    TwoCharOrder(DigitChar(a / 10 % 10), DigitChar(a % 10), DigitChar(b / 10 % 10), DigitChar(b % 10));
    TensUnitsOrder(a, b);
  }
}

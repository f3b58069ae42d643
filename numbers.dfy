/**
 * Decimal text for integers: Python's `str(n)` and `int(text)` on the
 * citation numbers that the language model copies out of the context.
 */
module Numbers {
  import opened Wrappers
  import Text

  predicate IsDigit(c: char) { '0' <= c <= '9' }

  predicate AllDigits(s: string) { forall i :: 0 <= i < |s| ==> IsDigit(s[i]) }

  function DigitChar(d: nat): (c: char)
    requires d < 10
    ensures IsDigit(c) && c as int - '0' as int == d
  {
    ('0' as int + d) as char
  }

  /** `str(n)` for a natural number: its decimal digits, without leading zeros. */
  function NatToString(n: nat): (s: string)
    ensures |s| > 0 && AllDigits(s)
  {
    if n < 10 then [DigitChar(n)] else NatToString(n / 10) + [DigitChar(n % 10)]
  }

  /** `str(i)` for an integer. */
  function IntToString(i: int): (s: string)
    ensures |s| > 0 && !Text.IsSpace(s[0]) && !Text.IsSpace(s[|s| - 1])
  {
    if i < 0 then "-" + NatToString(-i) else NatToString(i)
  }

  /**
   * A decimal digit as Python's `int()` reads it: an ASCII digit or its
   * full-width form U+FF10..U+FF19.
   */
  predicate IsDecimal(c: char) { IsDigit(c) || '\U{ff10}' <= c <= '\U{ff19}' }

  function DecimalValue(c: char): (d: nat)
    requires IsDecimal(c)
    ensures d < 10
  {
    if IsDigit(c) then c as int - '0' as int else c as int - '\U{ff10}' as int
  }

  /** Digits with single underscores between them, as `int()` accepts them after the sign. */
  predicate Underscored(s: string) {
    && |s| > 0 && IsDecimal(s[0]) && IsDecimal(s[|s| - 1])
    && (forall i :: 0 <= i < |s| ==> IsDecimal(s[i]) || s[i] == '_')
    && (forall i, j :: 0 <= i < |s| && 0 <= j < |s| && j == i + 1 ==> !(s[i] == '_' && s[j] == '_'))
  }

  /** The value of the digits of `s`, in order; underscores are skipped and leading zeros allowed. */
  function DigitsValue(s: string): nat
    requires forall i :: 0 <= i < |s| ==> IsDecimal(s[i]) || s[i] == '_'
  {
    if s == [] then 0
    else if s[|s| - 1] == '_' then DigitsValue(s[..|s| - 1])
    else DigitsValue(s[..|s| - 1]) * 10 + DecimalValue(s[|s| - 1])
  }

  /**
   * Python's `int(text)` on a string: surrounding whitespace is ignored, then
   * one optional sign, then decimal digits (ASCII or full-width) with single
   * underscores allowed between them. Anything else is the `ValueError`
   * case, here `None`.
   */
  function ParseInt(text: string): Option<int> {
    var t := Text.Strip(text);
    var neg := |t| > 0 && t[0] == '-';
    var body := if |t| > 0 && (t[0] == '-' || t[0] == '+') then t[1..] else t;
    if Underscored(body) then
      var v: int := DigitsValue(body);
      Some(if neg then -v else v)
    else None
  }

  lemma {:induction false} DigitsValueOfNatToString(n: nat)
    ensures DigitsValue(NatToString(n)) == n
  {
    if n >= 10 {
      DigitsValueOfNatToString(n / 10);
      var s := NatToString(n);
      assert s[..|s| - 1] == NatToString(n / 10);
    }
  }

  /** Reading back the decimal text of an integer gives the integer. */
  lemma ParseIntOfIntToString(i: int)
    ensures ParseInt(IntToString(i)) == Some(i)
  {
    if i < 0 {
      NatToStringUnderscored(-i);
      DigitsValueOfNatToString(-i);
      ParseIntNegative(NatToString(-i));
      assert IntToString(i) == "-" + NatToString(-i);
    } else {
      NatToStringUnderscored(i);
      DigitsValueOfNatToString(i);
      ParseIntOfUnderscored(NatToString(i));
    }
  }

  lemma NatToStringUnderscored(n: nat)
    ensures Underscored(NatToString(n))
  {
  }

  /** The full-width form of a string of ASCII digits. */
  function Wide(s: string): (r: string)
    requires AllDigits(s)
    ensures |r| == |s|
    ensures forall i :: 0 <= i < |r| ==> '\U{ff10}' <= r[i] <= '\U{ff19}'
  {
    if s == [] then [] else Wide(s[..|s| - 1]) + [(s[|s| - 1] as int - '0' as int + '\U{ff10}' as int) as char]
  }

  lemma {:induction false} DigitsValueOfWide(s: string)
    requires AllDigits(s)
    ensures DigitsValue(Wide(s)) == DigitsValue(s)
  {
    if s != [] {
      var w := Wide(s);
      assert w[..|w| - 1] == Wide(s[..|s| - 1]);
      DigitsValueOfWide(s[..|s| - 1]);
    }
  }

  /** A string with whitespace at neither end strips to itself. */
  lemma StripUnchanged(s: string)
    requires s == [] || (!Text.IsSpace(s[0]) && !Text.IsSpace(s[|s| - 1]))
    ensures Text.Strip(s) == s
  {
    assert Text.TrimLeft(s) == s;
    assert Text.TrimRight(s) == s;
  }

  /** Without whitespace at its ends or a leading sign, `int()` reads a string as its digits, or fails. */
  lemma ParseIntUnsigned(b: string)
    requires b != [] && !Text.IsSpace(b[0]) && !Text.IsSpace(b[|b| - 1]) && b[0] != '-' && b[0] != '+'
    ensures Underscored(b) ==> ParseInt(b) == Some(DigitsValue(b))
    ensures !Underscored(b) ==> ParseInt(b) == None
  {
    StripUnchanged(b);
  }

  /** After a minus sign, the digits read negated. */
  lemma ParseIntNegative(b: string)
    requires Underscored(b)
    ensures ParseInt("-" + b) == Some(-(DigitsValue(b) as int))
  {
    var t := "-" + b;
    assert t[0] == '-' && t[|t| - 1] == b[|b| - 1] && t[1..] == b;
    StripUnchanged(t);
  }

  /** Well-formed digits with no sign read as their value. */
  lemma ParseIntOfUnderscored(b: string)
    requires Underscored(b)
    ensures ParseInt(b) == Some(DigitsValue(b))
  {
    ParseIntUnsigned(b);
  }

  lemma WideUnderscored(s: string)
    requires |s| > 0 && AllDigits(s)
    ensures Underscored(Wide(s))
  {
  }

  /** A number written in full-width digits reads back as the number. */
  lemma ParseIntOfWide(n: nat)
    ensures ParseInt(Wide(NatToString(n))) == Some(n)
  {
    WideUnderscored(NatToString(n));
    ParseIntOfUnderscored(Wide(NatToString(n)));
    DigitsValueOfNatToString(n);
    DigitsValueOfWide(NatToString(n));
  }

  /** An underscore between two digit groups does not change their value. */
  lemma {:induction false} DigitsValueSkip(a: string, b: string)
    requires forall i :: 0 <= i < |a| ==> IsDecimal(a[i]) || a[i] == '_'
    requires forall i :: 0 <= i < |b| ==> IsDecimal(b[i]) || b[i] == '_'
    ensures var u := a + "_" + b;
      (forall i :: 0 <= i < |u| ==> IsDecimal(u[i]) || u[i] == '_') && DigitsValue(u) == DigitsValue(a + b)
    decreases |b|
  {
    var u := a + "_" + b;
    assert forall i :: 0 <= i < |u| ==> u[i] == (if i < |a| then a[i] else if i == |a| then '_' else b[i - |a| - 1]);
    if b == [] {
      assert u[..|u| - 1] == a && a + b == a;
    } else {
      var b' := b[..|b| - 1];
      DigitsValueSkip(a, b');
      assert u[..|u| - 1] == a + "_" + b' && u[|u| - 1] == b[|b| - 1];
      assert (a + b)[..|a + b| - 1] == a + b' && (a + b)[|a + b| - 1] == b[|b| - 1];
    }
  }

  /**
   * `int()` ignores an underscore between two groups of digits:
   * `int("1_000") == int("1000")`.
   */
  lemma ParseIntIgnoresUnderscore(a: string, b: string)
    requires Underscored(a) && Underscored(b)
    ensures ParseInt(a + "_" + b) == ParseInt(a + b) == Some(DigitsValue(a + b))
  {
    DigitsValueSkip(a, b);
    UnderscoredJoin(a, b);
    ParseIntOfUnderscored(a + "_" + b);
    ParseIntOfUnderscored(a + b);
  }

  lemma UnderscoredJoin(a: string, b: string)
    requires Underscored(a) && Underscored(b)
    ensures Underscored(a + "_" + b) && Underscored(a + b)
  {
    var u := a + "_" + b;
    assert forall i :: 0 <= i < |u| ==> u[i] == (if i < |a| then a[i] else if i == |a| then '_' else b[i - |a| - 1]);
    assert forall i :: 0 <= i < |a + b| ==> (a + b)[i] == (if i < |a| then a[i] else b[i - |a|]);
  }

  /** An underscore before the first digit, after the last, or next to another makes `int()` fail. */
  lemma ParseIntRejectsStrayUnderscore(a: string, b: string)
    requires Underscored(a) && Underscored(b)
    ensures ParseInt("_" + a) == None && ParseInt(a + "_") == None
    ensures ParseInt(a + "__" + b) == None
  {
    ParseIntUnsigned("_" + a);
    ParseIntUnsigned(a + "_");
    var u := a + "__" + b;
    assert u[|a|] == '_' && u[|a| + 1] == '_';
    ParseIntUnsigned(u);
  }
}

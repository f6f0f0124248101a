/** The pieces of Python's string handling that the to-do interpreter relies
    on, restricted to ASCII: the whitespace and digit classes shared by
    `str.isspace`, `str.isdecimal` and the `\s` / `\d` regex classes,
    `str.strip()`, `str.lower()`, `int(m)` on a decimal string and the
    decimal formatting of an `int` inside an f-string. */
module Text {

  /** ASCII characters for which `str.isspace()` holds; the regex class `\s`
      and `str.strip()` use the same set. */
  predicate IsSpace(c: char) {
    c == ' ' || c == '\t' || c == '\n' || c == '\r' || c == '\U{000B}' || c == '\U{000C}'
    || ('\U{001C}' <= c <= '\U{001F}')
  }

  predicate IsDigit(c: char) {
    '0' <= c <= '9'
  }

  predicate IsUpper(c: char) {
    'A' <= c <= 'Z'
  }

  predicate All(s: string, f: char -> bool) {
    forall k :: 0 <= k < |s| ==> f(s[k])
  }

  /** `s.isdecimal()`: non-empty and made of decimal digits only. */
  predicate IsDecimal(s: string) {
    |s| > 0 && All(s, IsDigit)
  }

  /** A string with no whitespace at either end, as `str.strip()` leaves it. */
  predicate IsStripped(s: string) {
    s == [] || (!IsSpace(s[0]) && !IsSpace(s[|s| - 1]))
  }

  /** Splits `s` into its longest prefix of characters satisfying `f` and
      the rest: the greedy repetition `[class]*` of a regex. */
  function Split(s: string, f: char -> bool): (r: (string, string))
    ensures r.0 + r.1 == s
    ensures All(r.0, f)
    ensures r.1 == [] || !f(r.1[0])
  {
    if s != [] && f(s[0]) then
      var (run, rest) := Split(s[1..], f);
      ([s[0]] + run, rest)
    else
      ([], s)
  }

  /** A run of class `f` followed by the end of the string or by a character
      outside the class is exactly how `Split` divides their concatenation. */
  lemma {:induction false} SplitExact(run: string, rest: string, f: char -> bool)
    requires All(run, f)
    requires rest == [] || !f(rest[0])
    ensures Split(run + rest, f) == (run, rest)
  {
    var s := run + rest;
    if run == [] {
      assert s == rest;
    } else {
      assert s[0] == run[0] && f(s[0]);
      assert s[1..] == run[1..] + rest;
      SplitExact(run[1..], rest, f);
      assert [run[0]] + run[1..] == run;
    }
  }

  /** Drops the whitespace at the end of `s`. */
  function TrimEnd(s: string): (r: string)
    ensures r <= s
    ensures forall k :: |r| <= k < |s| ==> IsSpace(s[k])
    ensures r == [] || !IsSpace(r[|r| - 1])
  {
    if s != [] && IsSpace(s[|s| - 1]) then TrimEnd(s[..|s| - 1]) else s
  }

  lemma {:induction false} TrimEndExact(m: string, post: string)
    requires m == [] || !IsSpace(m[|m| - 1])
    requires All(post, IsSpace)
    ensures TrimEnd(m + post) == m
    decreases |post|
  {
    if post == [] {
      assert m + post == m;
    } else {
      var s := m + post;
      assert IsSpace(s[|s| - 1]);
      assert s[..|s| - 1] == m + post[..|post| - 1];
      TrimEndExact(m, post[..|post| - 1]);
    }
  }

  /** `s.strip()`: `s` is the result framed by whitespace on both sides, and
      the result itself has no whitespace at either end. */
  function Strip(s: string): (r: string)
    ensures IsStripped(r)
    ensures exists pre, post :: s == pre + r + post && All(pre, IsSpace) && All(post, IsSpace)
  {
    var (pre, rest) := Split(s, IsSpace);
    var r := TrimEnd(rest);
    var post := rest[|r|..];
    assert rest == r + post;
    assert All(post, IsSpace);
    assert r == [] || !IsSpace(r[0]) by {
      if r != [] {
        assert r[0] == rest[0];
      }
    }
    assert s == pre + r + post;
    r
  }

  /** The converse of `Strip`'s contract: whatever stripped text is framed by
      whitespace is what `Strip` returns, so the contract fixes the result. */
  lemma StripExact(pre: string, m: string, post: string)
    requires All(pre, IsSpace) && All(post, IsSpace) && IsStripped(m)
    ensures Strip(pre + m + post) == m
  {
    if m == [] {
      assert pre + m + post == (pre + post) + [];
      SplitExact(pre + post, [], IsSpace);
    } else {
      assert pre + m + post == pre + (m + post);
      SplitExact(pre, m + post, IsSpace);
      TrimEndExact(m, post);
    }
  }

  /** ASCII lower-casing of one character. */
  function LowerChar(c: char): char {
    if IsUpper(c) then (c as int + 32) as char else c
  }

  /** `s.lower()` on ASCII text. */
  function Lower(s: string): (r: string)
    ensures |r| == |s|
    ensures forall k :: 0 <= k < |s| ==> r[k] == LowerChar(s[k])
  {
    seq(|s|, k requires 0 <= k < |s| => LowerChar(s[k]))
  }

  lemma LowerAppend(a: string, b: string)
    ensures Lower(a + b) == Lower(a) + Lower(b)
  {
  }

  /** Lower-casing leaves text without upper-case letters as it is. */
  lemma LowerNoUpper(s: string)
    requires forall k :: 0 <= k < |s| ==> !IsUpper(s[k])
    ensures Lower(s) == s
  {
  }

  /** Lower-casing turns no letter into a digit and no digit into anything else. */
  lemma LowerDecimal(s: string)
    ensures IsDecimal(Lower(s)) <==> IsDecimal(s)
  {
    var r := Lower(s);
    assert forall k :: 0 <= k < |s| ==> (IsDigit(r[k]) <==> IsDigit(s[k]));
  }

  function DigitValue(c: char): (d: nat)
    requires IsDigit(c)
    ensures d < 10
  {
    c as int - '0' as int
  }

  function DigitChar(d: nat): (c: char)
    requires d < 10
    ensures IsDigit(c) && DigitValue(c) == d
  {
    (d + '0' as int) as char
  }

  function Pow10(n: nat): (p: nat)
    ensures p > 0
  {
    if n == 0 then 1 else 10 * Pow10(n - 1)
  }

  /** `int(m)` for a string of decimal digits (leading zeros allowed): a
      number below `10` to the power of the number of digits. */
  function DecimalValue(s: string): (v: nat)
    requires All(s, IsDigit)
    ensures v < Pow10(|s|)
  {
    if s == [] then 0 else DecimalValue(s[..|s| - 1]) * 10 + DigitValue(s[|s| - 1])
  }

  /** `int()` ignores a leading zero: `int("0" + m) == int(m)`. */
  lemma {:induction false} DecimalValueLeadingZero(s: string)
    requires All(s, IsDigit)
    ensures DecimalValue("0" + s) == DecimalValue(s)
    decreases |s|
  {
    var z := "0" + s;
    if s == [] {
      assert z[..|z| - 1] == [];
    } else {
      var f := s[..|s| - 1];
      assert z[..|z| - 1] == "0" + f;
      assert z[|z| - 1] == s[|s| - 1];
      DecimalValueLeadingZero(f);
    }
  }

  /** Printing the value of a digit string without a leading zero gives the
      string back, so with `DecimalValueLeadingZero` the value of every digit
      string is fixed. */
  lemma {:induction false} DecimalValueCanonical(s: string)
    requires IsDecimal(s) && (|s| == 1 || s[0] != '0')
    ensures NatToDecimal(DecimalValue(s)) == s
    decreases |s|
  {
    var v := DecimalValue(s);
    var d := DigitValue(s[|s| - 1]);
    if |s| == 1 {
      assert s[..0] == [];
      assert v == d;
      assert DigitChar(d) == s[0];
    } else {
      var f := s[..|s| - 1];
      assert f[0] == s[0];
      DecimalValueCanonical(f);
      assert DecimalValue(f) > 0 by {
        assert NatToDecimal(0) == "0";
      }
      assert v == DecimalValue(f) * 10 + d;
      assert v / 10 == DecimalValue(f);
      assert v % 10 == d;
      assert DigitChar(d) == s[|s| - 1];
      assert s == f + [s[|s| - 1]];
    }
  }

  /** The digits of `n` as an f-string prints them: decimal digits, no leading zero. */
  function NatToDecimal(n: nat): (s: string)
    ensures IsDecimal(s)
    ensures |s| > 1 ==> s[0] != '0'
  {
    if n < 10 then [DigitChar(n)] else NatToDecimal(n / 10) + [DigitChar(n % 10)]
  }

  /** Reading back the printed digits of `n` gives `n`. */
  lemma {:induction false} DecimalRoundTrip(n: nat)
    ensures DecimalValue(NatToDecimal(n)) == n
  {
    var s := NatToDecimal(n);
    if n < 10 {
      assert s[..|s| - 1] == [];
    } else {
      assert s[..|s| - 1] == NatToDecimal(n / 10);
      DecimalRoundTrip(n / 10);
    }
  }

  /** `f"{i}"` for a Python `int`. */
  function IntToString(i: int): (s: string)
    ensures |s| > 0
    ensures s[0] == '-' <==> i < 0
  {
    if i < 0 then "-" + NatToDecimal(-i) else NatToDecimal(i)
  }

  /** A printed integer is a minus sign or a digit, followed by digits only. */
  lemma IntToStringShape(i: int)
    ensures var s := IntToString(i);
      (s[0] == '-' || IsDigit(s[0])) && forall k :: 0 < k < |s| ==> IsDigit(s[k])
  {
  }

  /** The reading of a printed integer: an optional minus sign, then digits. */
  function SignedValue(s: string): int
    requires (|s| > 0 && s[0] == '-' && All(s[1..], IsDigit)) || All(s, IsDigit)
  {
    if |s| > 0 && s[0] == '-' then -(DecimalValue(s[1..]) as int) else DecimalValue(s)
  }

  /** A printed integer names exactly that integer, so messages that embed
      `IntToString(i)` tell different indices apart. */
  lemma IntToStringRoundTrip(i: int)
    ensures var s := IntToString(i);
      ((|s| > 0 && s[0] == '-' && All(s[1..], IsDigit)) || All(s, IsDigit)) && SignedValue(s) == i
  {
    var s := IntToString(i);
    if i < 0 {
      assert s[1..] == NatToDecimal(-i);
      DecimalRoundTrip(-i);
    } else {
      DecimalRoundTrip(i);
    }
  }

  /** Where two splittings of one string differ in length, the part after
      the shorter prefix starts inside the longer one. */
  lemma CharAfterPrefix(x: string, b: string, y: string, d: string)
    requires x + b == y + d && |x| < |y|
    ensures b != [] && b[0] == y[|x|]
  {
    assert (x + b)[|x|] == (y + d)[|x|];
  }

  /** A printed integer followed by text that starts with neither a digit nor
      a minus sign can be read off unambiguously: both the integer and the
      text after it are determined. */
  lemma {:induction false} IntToStringPrefix(i: int, j: int, b: string, d: string)
    requires IntToString(i) + b == IntToString(j) + d
    requires b != [] && !IsDigit(b[0]) && b[0] != '-'
    requires d != [] && !IsDigit(d[0]) && d[0] != '-'
    ensures i == j && b == d
  {
    var x, y := IntToString(i), IntToString(j);
    IntToStringShape(i);
    IntToStringShape(j);
    if |x| < |y| {
      CharAfterPrefix(x, b, y, d);
      assert false;
    } else if |y| < |x| {
      CharAfterPrefix(y, d, x, b);
      assert false;
    } else {
      assert x == (x + b)[..|x|];
      assert y == (y + d)[..|y|];
      assert b == (x + b)[|x|..];
      assert d == (y + d)[|y|..];
      IntToStringInjective(i, j);
    }
  }

  lemma IntToStringInjective(i: int, j: int)
    requires IntToString(i) == IntToString(j)
    ensures i == j
  {
    IntToStringRoundTrip(i);
    IntToStringRoundTrip(j);
  }
}

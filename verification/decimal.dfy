/** Decimal text as the driver produces and consumes it: `%d` formatting of an
    int (the command encoders) and the C library's `atoi` (ISO C11 section
    7.22.1.2), used on every telemetry field. */
module Decimal {

  predicate IsDigit(c: char) { '0' <= c <= '9' }

  /** The characters C's `isspace` accepts in the "C" locale. */
  predicate IsSpace(c: char) {
    c == ' ' || c == '\t' || c == '\n' || c == '\r' || c as int == 11 || c as int == 12
  }

  predicate AllDigits(s: string) {
    forall i :: 0 <= i < |s| ==> IsDigit(s[i])
  }

  function DigitChar(d: nat): (c: char)
    requires d < 10
    ensures IsDigit(c)
  {
    ('0' as int + d) as char
  }

  function DigitValue(c: char): (d: nat)
    requires IsDigit(c)
    ensures d < 10 && DigitChar(d) == c
  {
    c as int - '0' as int
  }

  /** Value of a string of decimal digits, most significant first. */
  function DigitsValue(s: string): nat
    requires AllDigits(s)
  {
    if s == [] then 0 else DigitsValue(s[..|s| - 1]) * 10 + DigitValue(s[|s| - 1])
  }

  /** The digits `printf` writes for a non-negative number: no sign, no leading zero. */
  function NatToDigits(n: nat): (s: string)
    ensures |s| > 0 && AllDigits(s)
    ensures n > 0 ==> s[0] != '0'
  {
    if n < 10 then [DigitChar(n)] else NatToDigits(n / 10) + [DigitChar(n % 10)]
  }

  /** `%d` (and `%u` for non-negative values): a minus sign for negative numbers, then the digits. */
  function FormatInt(n: int): string
  {
    if n < 0 then "-" + NatToDigits(-n) else NatToDigits(n)
  }

  /** The longest prefix of `s` made of decimal digits. */
  function DigitPrefix(s: string): (p: string)
    ensures AllDigits(p)
  {
    if s != [] && IsDigit(s[0]) then [s[0]] + DigitPrefix(s[1..]) else []
  }

  /** `s` with its leading white space removed. */
  function SkipSpace(s: string): string
  {
    if s != [] && IsSpace(s[0]) then SkipSpace(s[1..]) else s
  }

  /** The digit prefix is a prefix of `s`, and the character after it (if
      any) is not a digit: it is the longest run of digits `s` starts with. */
  lemma {:induction false} DigitPrefixIsLongest(s: string)
    ensures var p := DigitPrefix(s);
            |p| <= |s| && p == s[..|p|] && (|p| < |s| ==> !IsDigit(s[|p|]))
  {
    if s != [] && IsDigit(s[0]) {
      DigitPrefixIsLongest(s[1..]);
      assert s == [s[0]] + s[1..];
    }
  }

  /** What `SkipSpace` drops is white space, and what it keeps is the rest
      of `s`, starting with a character that is not white space. */
  lemma {:induction false} SkipSpaceDropsSpace(s: string)
    ensures var t := SkipSpace(s);
            && |t| <= |s| && t == s[|s| - |t|..]
            && (t != [] ==> !IsSpace(t[0]))
            && (forall i :: 0 <= i < |s| - |t| ==> IsSpace(s[i]))
  {
    if s != [] && IsSpace(s[0]) {
      SkipSpaceDropsSpace(s[1..]);
    }
  }

  /** `atoi`: skip white space, take an optional sign and the longest run of
      digits after it; no digits gives 0. Values outside the range of `int`
      are undefined behaviour in C; here they are the exact value. */
  function Atoi(s: string): int
  {
    var t := SkipSpace(s);
    if t != [] && t[0] == '-' then -(DigitsValue(DigitPrefix(t[1..])) as int)
    else if t != [] && t[0] == '+' then DigitsValue(DigitPrefix(t[1..]))
    else DigitsValue(DigitPrefix(t))
  }

  /** What ends a number for `atoi`: the end of the string or a non-digit. */
  predicate EndsNumber(rest: string) { rest == [] || !IsDigit(rest[0]) }

  lemma {:induction false} DigitsValueOfNatToDigits(n: nat)
    ensures DigitsValue(NatToDigits(n)) == n
  {
    if n >= 10 {
      DigitsValueOfNatToDigits(n / 10);
      var s := NatToDigits(n / 10) + [DigitChar(n % 10)];
      assert s[..|s| - 1] == NatToDigits(n / 10);
    }
  }

  /** A run of digits followed by something that is not a digit is exactly the digit prefix. */
  lemma {:induction false} DigitPrefixOfDigits(d: string, rest: string)
    requires AllDigits(d) && EndsNumber(rest)
    ensures DigitPrefix(d + rest) == d
  {
    if d != [] {
      assert (d + rest)[1..] == d[1..] + rest;
      DigitPrefixOfDigits(d[1..], rest);
    }
  }

  /** A run of digits, then something that is not a digit, reads as the run's value. */
  lemma AtoiOfDigits(d: string, rest: string)
    requires d != [] && AllDigits(d) && EndsNumber(rest)
    ensures Atoi(d + rest) == DigitsValue(d)
  {
    DigitPrefixOfDigits(d, rest);
    var s := d + rest;
    assert s[0] == d[0];
    assert SkipSpace(s) == s;
  }

  /** The same run after a minus sign reads as the negated value. */
  lemma AtoiOfNegatedDigits(d: string, rest: string)
    requires d != [] && AllDigits(d) && EndsNumber(rest)
    ensures Atoi(['-'] + (d + rest)) == -(DigitsValue(d) as int)
  {
    DigitPrefixOfDigits(d, rest);
    var s := ['-'] + (d + rest);
    assert SkipSpace(s) == s;
    assert s[1..] == d + rest;
  }

  /** `atoi` reads back what `%d` wrote, whatever non-digit text follows it. */
  lemma AtoiOfFormatInt(n: int, rest: string)
    requires EndsNumber(rest)
    ensures Atoi(FormatInt(n) + rest) == n
  {
    var m: nat := if n < 0 then -n else n;
    var d := NatToDigits(m);
    DigitsValueOfNatToDigits(m);
    if n < 0 {
      assert FormatInt(n) + rest == ['-'] + (d + rest);
      AtoiOfNegatedDigits(d, rest);
    } else {
      AtoiOfDigits(d, rest);
    }
  }

  /** A field with no digits where the number should start reads as 0. */
  lemma AtoiWithoutDigits(s: string)
    requires forall i :: 0 <= i < |s| ==> !IsDigit(s[i])
    ensures Atoi(s) == 0
  {
    var t := SkipSpace(s);
    SkipSpaceDropsSpace(s);
    if t != [] && (t[0] == '-' || t[0] == '+') {
      assert t[1..] != [] ==> t[1..][0] == s[|s| - |t| + 1];
    } else {
      assert t != [] ==> t[0] == s[|s| - |t|];
    }
  }
}

/**
 * String helpers with the meaning the .NET string methods used by the mod give
 * them: Trim, ToUpper/ToLower, StartsWith, Split with RemoveEmptyEntries, and the
 * decimal digits that integer and float ToString/Parse write and read.
 */
module Text {
  import opened Wrappers

  /** Whitespace as String.Trim sees it (the characters a config file can hold). */
  predicate IsWhiteSpace(c: char)
  {
    c == ' ' || c == '\t' || c == '\n' || c == '\r' || c == '\U{B}' || c == '\U{C}' || c == '\U{A0}'
  }

  function TrimStart(s: string): (r: string)
    ensures |r| <= |s| && r == s[|s| - |r|..]
    ensures forall i :: 0 <= i < |s| - |r| ==> IsWhiteSpace(s[i])
    ensures r != [] ==> !IsWhiteSpace(r[0])
  {
    if s != [] && IsWhiteSpace(s[0]) then TrimStart(s[1..]) else s
  }

  function TrimEnd(s: string): (r: string)
    ensures |r| <= |s| && r == s[..|r|]
    ensures forall i :: |r| <= i < |s| ==> IsWhiteSpace(s[i])
    ensures r != [] ==> !IsWhiteSpace(r[|r| - 1])
  {
    if s != [] && IsWhiteSpace(s[|s| - 1]) then TrimEnd(s[..|s| - 1]) else s
  }

  /** String.Trim: drops leading and trailing whitespace and nothing else. */
  function Trim(s: string): (r: string)
    ensures |r| <= |s|
    ensures r != [] ==> !IsWhiteSpace(r[0]) && !IsWhiteSpace(r[|r| - 1])
  {
    TrimEnd(TrimStart(s))
  }

  /** Text that neither starts nor ends with whitespace is its own trim. */
  lemma TrimUnpadded(s: string)
    requires s != [] ==> !IsWhiteSpace(s[0]) && !IsWhiteSpace(s[|s| - 1])
    ensures Trim(s) == s
  {
  }

  function UpperChar(c: char): char
  {
    if 'a' <= c <= 'z' then (c as int - 32) as char else c
  }

  function LowerChar(c: char): char
  {
    if 'A' <= c <= 'Z' then (c as int + 32) as char else c
  }

  /** String.ToUpper on the letters a config file uses (ASCII). */
  function ToUpper(s: string): (r: string)
    ensures |r| == |s| && forall i :: 0 <= i < |s| ==> r[i] == UpperChar(s[i])
  {
    seq(|s|, i requires 0 <= i < |s| => UpperChar(s[i]))
  }

  /** String.ToLower on ASCII letters. */
  function ToLower(s: string): (r: string)
    ensures |r| == |s| && forall i :: 0 <= i < |s| ==> r[i] == LowerChar(s[i])
  {
    seq(|s|, i requires 0 <= i < |s| => LowerChar(s[i]))
  }

  predicate StartsWith(s: string, prefix: string)
  {
    |prefix| <= |s| && s[..|prefix|] == prefix
  }

  /** Length of the run of characters before the first `sep` (or the whole string). */
  function SegmentLength(s: string, sep: char): (k: nat)
    ensures k <= |s|
    ensures forall i :: 0 <= i < k ==> s[i] != sep
    ensures k < |s| ==> s[k] == sep
  {
    if s == [] || s[0] == sep then 0 else 1 + SegmentLength(s[1..], sep)
  }

  /** String.Split(new char[] { sep }, StringSplitOptions.RemoveEmptyEntries). */
  function SplitNonEmpty(s: string, sep: char): (parts: seq<string>)
    ensures forall i :: 0 <= i < |parts| ==> parts[i] != [] && sep !in parts[i]
    decreases |s|
  {
    if s == [] then []
    else if s[0] == sep then SplitNonEmpty(s[1..], sep)
    else
      var k := SegmentLength(s, sep);
      [s[..k]] + SplitNonEmpty(s[k..], sep)
  }

  lemma {:induction false} SegmentLengthOfPrefix(a: string, rest: string, sep: char)
    requires sep !in a
    requires rest == [] || rest[0] == sep
    ensures SegmentLength(a + rest, sep) == |a|
  {
    if a != [] {
      assert (a + rest)[1..] == a[1..] + rest;
      SegmentLengthOfPrefix(a[1..], rest, sep);
    }
  }

  /** A separator-free segment in front of a separator (or the end) is one entry of the split. */
  lemma SplitSegment(a: string, rest: string, sep: char)
    requires a != [] && sep !in a
    requires rest == [] || rest[0] == sep
    ensures SplitNonEmpty(a + rest, sep) == [a] + SplitNonEmpty(rest, sep)
  {
    SegmentLengthOfPrefix(a, rest, sep);
    assert (a + rest)[..|a|] == a;
    assert (a + rest)[|a|..] == rest;
  }

  /** Separators in a row produce no empty entries. */
  lemma {:induction false} SplitSkipsSeparators(run: string, rest: string, sep: char)
    requires forall i :: 0 <= i < |run| ==> run[i] == sep
    ensures SplitNonEmpty(run + rest, sep) == SplitNonEmpty(rest, sep)
  {
    if run != [] {
      assert (run + rest)[0] == sep;
      assert (run + rest)[1..] == run[1..] + rest;
      SplitSkipsSeparators(run[1..], rest, sep);
    } else {
      assert run + rest == rest;
    }
  }

  /** Two separator-free pieces with a run of separators between them split into those two pieces. */
  lemma SplitPair(a: string, run: string, b: string, sep: char)
    requires a != [] && sep !in a && b != [] && sep !in b
    requires run != [] && forall i :: 0 <= i < |run| ==> run[i] == sep
    ensures SplitNonEmpty(a + run + b, sep) == [a, b]
  {
    assert SplitNonEmpty(b, sep) == [b] by {
      SplitSegment(b, [], sep);
      assert b + [] == b;
    }
    assert SplitNonEmpty(run + b, sep) == [b] by {
      SplitSkipsSeparators(run, b, sep);
    }
    assert (run + b)[0] == sep;
    SplitSegment(a, run + b, sep);
    assert a + run + b == a + (run + b);
  }

  predicate IsDigit(c: char)
  {
    '0' <= c <= '9'
  }

  predicate AllDigits(s: string)
  {
    forall i :: 0 <= i < |s| ==> IsDigit(s[i])
  }

  function DigitValue(c: char): (d: nat)
    requires IsDigit(c)
    ensures d < 10
  {
    c as int - '0' as int
  }

  function DigitChar(d: nat): (c: char)
    requires d < 10
    ensures IsDigit(c) && DigitValue(c) == d
  {
    ('0' as int + d) as char
  }

  /** The value of a run of decimal digits, most significant first. */
  function DigitsValue(s: string): nat
    requires AllDigits(s)
  {
    if s == [] then 0 else 10 * DigitsValue(s[..|s| - 1]) + DigitValue(s[|s| - 1])
  }

  /** Decimal text of a natural number, as int.ToString writes it (no leading zeros). */
  function NatText(n: nat): (r: string)
    ensures r != [] && AllDigits(r)
    ensures DigitsValue(r) == n
    ensures r[0] == '0' ==> n == 0
  {
    if n < 10 then [DigitChar(n)]
    else
      var r := NatText(n / 10) + [DigitChar(n % 10)];
      assert r[..|r| - 1] == NatText(n / 10);
      r
  }

  /** int.ToString: a minus sign for negative values, then the digits. */
  function IntText(n: int): (r: string)
    ensures r != [] && (r[0] == '-' <==> n < 0)
  {
    if n < 0 then "-" + NatText(-n) else NatText(n)
  }

  /**
   * The integer Int32.Parse reads (NumberStyles.Integer): surrounding whitespace,
   * an optional sign and at least one decimal digit. The range check is the caller's.
   */
  function ParseInteger(s: string): (r: Option<int>)
  {
    var t := Trim(s);
    if t == [] then None
    else if (t[0] == '-' || t[0] == '+') && t[1..] != [] && AllDigits(t[1..]) then
      Some(if t[0] == '-' then 0 - DigitsValue(t[1..]) as int else DigitsValue(t[1..]))
    else if AllDigits(t) then Some(DigitsValue(t))
    else None
  }

  lemma IntTextRoundTrip(n: int)
    ensures ParseInteger(IntText(n)) == Some(n)
  {
    var r := IntText(n);
    TrimUnpadded(r);
    if n < 0 {
      assert r[1..] == NatText(-n);
    }
  }

  /** The decimal value of digits written after a decimal point. */
  function FractionValue(digits: string): (v: real)
    requires AllDigits(digits)
    ensures 0.0 <= v <= 1.0
  {
    if digits == [] then 0.0 else (DigitValue(digits[0]) as real + FractionValue(digits[1..])) / 10.0
  }

  /** Digits, an optional decimal point and digits, with at least one digit in all. */
  function UnsignedDecimal(t: string): (r: Option<real>)
    ensures r.Some? ==> r.value >= 0.0
  {
    var k := SegmentLength(t, '.');
    var whole := t[..k];
    var frac := if k < |t| then t[k + 1..] else [];
    if AllDigits(whole) && AllDigits(frac) && (whole != [] || frac != []) then
      Some(DigitsValue(whole) as real + FractionValue(frac))
    else None
  }

  /** The decimal number float.Parse reads in its plain form: whitespace, sign, digits and point. */
  function ParseDecimal(s: string): (r: Option<real>)
  {
    var t := Trim(s);
    if t != [] && (t[0] == '-' || t[0] == '+') then
      match UnsignedDecimal(t[1..])
      case Some(v) => Some(if t[0] == '-' then -v else v)
      case None => None
    else UnsignedDecimal(t)
  }

  /** Up to `n` digits of a fraction in [0, 1), stopping once nothing is left. */
  function FractionDigits(f: real, n: nat): (r: string)
    requires 0.0 <= f < 1.0
    ensures AllDigits(r) && |r| <= n
    decreases n
  {
    if n == 0 || f == 0.0 then []
    else
      var d := (f * 10.0).Floor;
      assert 0 <= d < 10;
      [DigitChar(d)] + FractionDigits(f * 10.0 - d as real, n - 1)
  }

  /** Decimal text of a float: integral values as integers, others with up to seven decimals. */
  function RealText(r: real): (t: string)
    ensures t != []
  {
    var m := if r < 0.0 then -r else r;
    var whole := m.Floor;
    var frac := FractionDigits(m - whole as real, 7);
    (if r < 0.0 then "-" else "") + NatText(whole) + (if frac == [] then "" else "." + frac)
  }

  /** A digit run holds no separator, so its first segment is all of it. */
  lemma {:induction false} SegmentLengthOfDigits(s: string, sep: char)
    requires AllDigits(s) && !IsDigit(sep)
    ensures SegmentLength(s, sep) == |s|
  {
    if s != [] {
      SegmentLengthOfDigits(s[1..], sep);
    }
  }

  /** A run of digits is read as its value. */
  lemma UnsignedDigits(digits: string)
    requires digits != [] && AllDigits(digits)
    ensures UnsignedDecimal(digits) == Some(DigitsValue(digits) as real)
  {
    SegmentLengthOfDigits(digits, '.');
    assert digits[..|digits|] == digits;
  }

  /** A whole number is written without a fraction. */
  lemma RealTextWhole(n: int)
    ensures RealText(n as real) == (if n < 0 then "-" else "") + NatText(if n < 0 then -n else n)
  {
    var r := n as real;
    var k: nat := if n < 0 then -n else n;
    assert (if r < 0.0 then -r else r) == k as real;
    assert (k as real).Floor == k;
  }

  /** The text of a whole number reads back as that number. */
  lemma WholeRealTextRoundTrip(n: int)
    ensures ParseDecimal(RealText(n as real)) == Some(n as real)
  {
    var k: nat := if n < 0 then -n else n;
    RealTextWhole(n);
    NatTextUnsigned(k);
    if n < 0 {
      MinusParse(NatText(k), k as real);
    } else {
      assert "" + NatText(k) == NatText(k);
      UnsignedParse(NatText(k), k as real);
    }
  }

  /** The digits of a natural number read back as an unsigned decimal, and begin and end with a digit. */
  lemma NatTextUnsigned(k: nat)
    ensures UnsignedDecimal(NatText(k)) == Some(k as real)
    ensures IsDigit(NatText(k)[0]) && IsDigit(NatText(k)[|NatText(k)| - 1])
  {
    UnsignedDigits(NatText(k));
  }

  /** Unsigned decimal text that starts and ends with a digit is read as is. */
  lemma UnsignedParse(u: string, v: real)
    requires u != [] && IsDigit(u[0]) && IsDigit(u[|u| - 1]) && UnsignedDecimal(u) == Some(v)
    ensures ParseDecimal(u) == Some(v)
  {
    assert Trim(u) == u by { TrimUnpadded(u); }
  }

  /** A minus sign before unsigned decimal text that ends with a digit negates its value. */
  lemma MinusParse(u: string, v: real)
    requires u != [] && IsDigit(u[|u| - 1]) && UnsignedDecimal(u) == Some(v)
    ensures ParseDecimal("-" + u) == Some(-v)
  {
    var t := "-" + u;
    assert t[0] == '-' && t[1..] == u;
    assert Trim(t) == t by {
      assert t[|t| - 1] == u[|u| - 1];
      TrimUnpadded(t);
    }
  }

  /** Text written as two digits at least, as ToString("00") does. */
  function Pad2(n: nat): (r: string)
    ensures |r| >= 2 && AllDigits(r) && DigitsValue(r) == n
    ensures n < 100 ==> |r| == 2
  {
    if n < 10 then
      var r := ['0', DigitChar(n)];
      assert r[..1] == ['0'] && r[..1][..0] == [];
      assert DigitsValue(r[..1]) == 0;
      r
    else
      assert n < 100 ==> NatText(n) == NatText(n / 10) + [DigitChar(n % 10)];
      NatText(n)
  }

  /** The text a StringBuilder holds after AppendLine of each line in turn. */
  function JoinLines(lines: seq<string>): (r: string)
    ensures |r| >= |lines|
  {
    if lines == [] then "" else JoinLines(lines[..|lines| - 1]) + lines[|lines| - 1] + "\n"
  }
}

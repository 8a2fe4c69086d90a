/**
 * Unsigned decimal text, as the collector reads and writes it through
 * strconv.ParseUint(s, 10, 64) and strconv.FormatUint(n, 10).
 */
module Decimal {
  import opened Wrappers

  /** 2^64: a uint64 holds the values below it and arithmetic wraps modulo it. */
  const Uint64Modulus: nat := 0x1_0000_0000_0000_0000

  predicate IsDigit(c: char) {
    '0' <= c <= '9'
  }

  predicate AllDigits(s: string) {
    forall i :: 0 <= i < |s| ==> IsDigit(s[i])
  }

  function DigitValue(c: char): nat
    requires IsDigit(c)
  {
    (c as int - '0' as int) as nat
  }

  function DigitChar(d: nat): char
    requires d < 10
  {
    ('0' as int + d) as char
  }

  /** The number a string of decimal digits denotes (leading zeros allowed). */
  function ValueOf(s: string): nat
    requires AllDigits(s)
  {
    if s == [] then 0 else ValueOf(s[..|s| - 1]) * 10 + DigitValue(s[|s| - 1])
  }

  /**
   * ParseUint(s, 10, 64): base 10 is explicit, so no sign, no prefix and no
   * underscores are accepted; the empty string is a syntax error and a value
   * of 2^64 or more is a range error. The caller discards which error it was.
   */
  function ParseUint64(s: string): (r: Option<nat>)
    ensures r.Some? ==> r.value < Uint64Modulus
    ensures s == [] ==> r == None
  {
    if s != [] && AllDigits(s) && ValueOf(s) < Uint64Modulus then Some(ValueOf(s)) else None
  }

  predicate IsUint64(s: string) {
    ParseUint64(s).Some?
  }

  /** FormatUint(n, 10): shortest decimal form, "0" for zero. */
  function FormatUint(n: nat): (r: string)
    ensures r != [] && AllDigits(r)
    ensures n < 10 <==> |r| == 1
  {
    if n < 10 then [DigitChar(n)] else FormatUint(n / 10) + [DigitChar(n % 10)]
  }

  /** A canonical decimal: digits only, and no leading zero unless it is "0". */
  predicate IsCanonical(s: string) {
    s != [] && AllDigits(s) && (s[0] == '0' ==> |s| == 1)
  }

  lemma {:induction false} ValueOfSnoc(s: string, c: char)
    requires AllDigits(s) && IsDigit(c)
    ensures AllDigits(s + [c]) && ValueOf(s + [c]) == ValueOf(s) * 10 + DigitValue(c)
  {
    assert (s + [c])[..|s|] == s;
  }

  /** FormatUint produces a canonical decimal that denotes n. */
  lemma {:induction false} FormatUintDenotes(n: nat)
    ensures IsCanonical(FormatUint(n))
    ensures ValueOf(FormatUint(n)) == n
    decreases n
  {
    if n >= 10 {
      FormatUintDenotes(n / 10);
      var p := FormatUint(n / 10);
      ValueOfSnoc(p, DigitChar(n % 10));
      assert FormatUint(n)[0] == p[0];
    }
  }

  /** Formatting then parsing gives back every uint64. */
  lemma FormatParseRoundTrip(n: nat)
    requires n < Uint64Modulus
    ensures ParseUint64(FormatUint(n)) == Some(n)
  {
    FormatUintDenotes(n);
  }

  /** A string of zeros denotes 0, so a positive value has a nonzero digit. */
  lemma {:induction false} ValueOfZeroLeading(s: string)
    requires AllDigits(s) && s != [] && s[0] != '0'
    ensures ValueOf(s) >= 1
    decreases |s|
  {
    if |s| > 1 {
      ValueOfZeroLeading(s[..|s| - 1]);
    }
  }

  /** Parsing then formatting gives back every canonical decimal. */
  lemma {:induction false} ParseFormatRoundTrip(s: string)
    requires IsCanonical(s)
    ensures FormatUint(ValueOf(s)) == s
    decreases |s|
  {
    if |s| > 1 {
      var p := s[..|s| - 1];
      assert p[0] == s[0];
      ValueOfZeroLeading(p);
      ParseFormatRoundTrip(p);
      assert s == p + [s[|s| - 1]];
    }
  }
}

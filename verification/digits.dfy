/** Decimal numbers in the bot: Python's `int(token)` on the issue token of a
    `summarize` command, the `str(n)` that renders an issue number in the
    thread header, and the `isdigit()` test that guards the conversion. */
module Digits {

  predicate IsAsciiDigit(c: char)
  {
    '0' <= c <= '9'
  }

  /** A non-empty run of ASCII decimal digits: what `int()` accepts here. */
  predicate IsDecimal(s: string)
  {
    |s| > 0 && forall i :: 0 <= i < |s| ==> IsAsciiDigit(s[i])
  }

  function DigitValue(c: char): (d: nat)
    requires IsAsciiDigit(c)
    ensures d < 10
  {
    c as int - '0' as int
  }

  function DigitChar(d: nat): (c: char)
    requires d < 10
    ensures IsAsciiDigit(c) && DigitValue(c) == d
  {
    ('0' as int + d) as char
  }

  /** Python's `int(s)` on a string of ASCII digits (leading zeros allowed). */
  function ParseNat(s: string): nat
    requires forall i :: 0 <= i < |s| ==> IsAsciiDigit(s[i])
    decreases |s|
  {
    if |s| == 0 then 0 else ParseNat(s[..|s| - 1]) * 10 + DigitValue(s[|s| - 1])
  }

  /** Python's `str(n)`: the canonical decimal rendering, no leading zero. */
  function NatToString(n: nat): (s: string)
    ensures IsDecimal(s)
    ensures |s| > 1 ==> s[0] != '0'
    decreases n
  {
    if n < 10 then [DigitChar(n)] else NatToString(n / 10) + [DigitChar(n % 10)]
  }

  /** `int(str(n)) == n`. */
  lemma {:induction false} ParseNatToString(n: nat)
    ensures ParseNat(NatToString(n)) == n
    decreases n
  {
    var s := NatToString(n);
    if n >= 10 {
      ParseNatToString(n / 10);
      assert s[..|s| - 1] == NatToString(n / 10);
    }
  }

  /** Python's `str.isdigit()` on one character. Besides the decimal digits
      it accepts the superscript and subscript digits, which `int()` rejects.
      (Other Unicode digit characters are not part of this model.) */
  predicate IsPyDigit(c: char)
  {
    || IsAsciiDigit(c)
    || c == '\U{b2}' || c == '\U{b3}' || c == '\U{b9}'
    || c == '\U{2070}' || '\U{2074}' <= c <= '\U{2079}'
    || '\U{2080}' <= c <= '\U{2089}'
  }

  /** Python's default limit on the digits `int()` converts from a string
      (`sys.int_info.default_max_str_digits`); a longer decimal string makes
      it raise `ValueError`. */
  const MaxIntDigits: nat := 4300

  /** A token `int()` converts to an issue number: decimal, and within the
      digit limit. */
  predicate IsIssueNumber(tok: string)
  {
    IsDecimal(tok) && |tok| <= MaxIntDigits
  }

  /** Python's `str.isdigit()` on a whole string. */
  predicate IsPyDigits(tok: string)
  {
    |tok| > 0 && forall i :: 0 <= i < |tok| ==> IsPyDigit(tok[i])
  }

  /** What the fourth token of `summarize <owner/repo> issue <token>` turns
      into: an issue number, no number (so the latest issue is summarized),
      or an uncaught `ValueError`. */
  datatype IssueToken = IssueNumber(n: nat) | NotANumber | Raises

  /** The token test as the webhook writes it: `tok.isdigit()` and then
      `int(tok)`. A decimal token within the digit limit is read as its
      value; any other token passing `isdigit()` makes the conversion raise,
      and the rest are no number. */
  function IssueTokenAsWritten(tok: string): (r: IssueToken)
    ensures r.IssueNumber? <==> IsIssueNumber(tok)
    ensures r.IssueNumber? ==> r.n == ParseNat(tok)
    ensures r.Raises? <==> IsPyDigits(tok) && !IsIssueNumber(tok)
    ensures r.NotANumber? <==> !IsPyDigits(tok)
  {
    if IsPyDigits(tok) then
      if IsIssueNumber(tok) then IssueNumber(ParseNat(tok)) else Raises
    else NotANumber
  }

  /** The superscript two passes `isdigit()` and then makes `int()` raise. */
  lemma SuperscriptRaises()
    ensures IssueTokenAsWritten("\U{b2}") == Raises
  {
    assert !IsDecimal("\U{b2}") by {
      assert !IsAsciiDigit("\U{b2}"[0]);
    }
  }

  /** A decimal token longer than the digit limit passes `isdigit()` and
      then makes `int()` raise; the corrected test reads it as no number. */
  lemma LongDecimalRaises(tok: string)
    requires IsDecimal(tok) && |tok| > MaxIntDigits
    ensures IssueTokenAsWritten(tok) == Raises
    ensures IssueTokenOf(tok) == NotANumber
  {
    assert IsPyDigits(tok) by {
      forall i | 0 <= i < |tok|
        ensures IsPyDigit(tok[i])
      {
        assert IsAsciiDigit(tok[i]);
      }
    }
  }

  /** The token test with the guard `int()` actually needs (`isdecimal()`
      and the digit limit): a token is an issue number exactly when `int()`
      converts it, and the conversion never raises. */
  function IssueTokenOf(tok: string): (r: IssueToken)
    ensures !r.Raises?
    ensures r.IssueNumber? <==> IsIssueNumber(tok)
    ensures r.IssueNumber? ==> r.n == ParseNat(tok)
  {
    if IsIssueNumber(tok) then IssueNumber(ParseNat(tok)) else NotANumber
  }

  /** The corrected test agrees with the written one wherever that one does
      not raise. */
  lemma IssueTokenAgrees()
    ensures forall tok :: !IssueTokenAsWritten(tok).Raises? ==> IssueTokenOf(tok) == IssueTokenAsWritten(tok)
  {
  }

  /** Every issue number whose decimal form is within the digit limit reads
      back as itself. */
  lemma IssueTokenRoundTrip(n: nat)
    ensures |NatToString(n)| <= MaxIntDigits ==> IssueTokenOf(NatToString(n)) == IssueNumber(n)
    ensures |NatToString(n)| <= MaxIntDigits ==> IssueTokenAsWritten(NatToString(n)) == IssueNumber(n)
  {
    ParseNatToString(n);
  }
}

/** Decimal text of integers, as a standard output stream prints them. */
module Decimal {

  predicate IsDigit(c: char)
  {
    '0' <= c <= '9'
  }

  predicate AllDigits(s: seq<char>)
  {
    forall i :: 0 <= i < |s| ==> IsDigit(s[i])
  }

  function DigitChar(d: nat): (c: char)
    requires d < 10
    ensures IsDigit(c) && c as int - '0' as int == d
  {
    ('0' as int + d) as char
  }

  /** The number a string of digits denotes, most significant digit first. */
  function Value(s: seq<char>): nat
    requires AllDigits(s)
  {
    if s == [] then 0 else Value(s[..|s| - 1]) * 10 + (s[|s| - 1] as int - '0' as int)
  }

  /** The digits of a natural number, without leading zeros. */
  function NatText(n: nat): (s: seq<char>)
    ensures |s| >= 1 && AllDigits(s)
    ensures Value(s) == n
    ensures s[0] == '0' ==> s == "0"
  {
    if n < 10 then [DigitChar(n)]
    else
      var prefix := NatText(n / 10);
      var s := prefix + [DigitChar(n % 10)];
      assert s[..|s| - 1] == prefix;
      s
  }

  /** Ten to the power `k`. */
  function Power10(k: nat): (p: nat)
    ensures p >= 1
  {
    if k == 0 then 1 else 10 * Power10(k - 1)
  }

  /** A number from 10^(k-1) up to but excluding 10^k has exactly k digits. */
  lemma {:induction false} NatTextLength(n: nat, k: nat)
    requires 1 <= k && Power10(k - 1) <= n < Power10(k)
    ensures |NatText(n)| == k
  {
    if k > 1 {
      NatTextLength(n / 10, k - 1);
    }
  }

  /** A year of the common era from 1000 to 9999 prints as four digits. */
  lemma FourDigits(n: nat)
    requires 1000 <= n < 10000
    ensures |NatText(n)| == 4
  {
    assert Power10(3) == 1000 by {
      assert Power10(2) == 100;
    }
    NatTextLength(n, 4);
  }

  /** The text of an integer: a minus sign before the digits of a negative value. */
  function IntText(i: int): (s: seq<char>)
    ensures |s| >= 1
    ensures i >= 0 ==> s == NatText(i)
    ensures i < 0 ==> s == ['-'] + NatText(-i)
  {
    if i < 0 then "-" + NatText(-i) else NatText(i)
  }

  /** The reading a client gives to the text of an integer. */
  function ParseInt(s: seq<char>): (r: int)
    requires |s| >= 1
    requires (s[0] == '-' && AllDigits(s[1..])) || AllDigits(s)
  {
    if s[0] == '-' then 0 - Value(s[1..]) else Value(s)
  }

  /** Printing then reading an integer gives it back. */
  lemma IntTextRoundTrip(i: int)
    ensures var s := IntText(i); ((s[0] == '-' && AllDigits(s[1..])) || AllDigits(s)) && ParseInt(s) == i
  {
    if i < 0 {
      assert IntText(i)[1..] == NatText(-i);
    }
  }

  /** A digit string is never empty and never starts with '-', so the text
      of a non-negative integer is told apart from that of a negative one. */
  lemma IntTextSign(i: int)
    ensures IntText(i)[0] == '-' <==> i < 0
  {
  }
}

/** Decimal rendering of integers (`toString()` on a bigint or an integral
    number) and `BigInt(text)` parsing, with the round trip between them. */
module Decimal {
  import opened Wrappers
  import Text

  predicate IsDigit(c: char)
  {
    '0' <= c <= '9'
  }

  predicate AllDigits(s: string)
  {
    forall i :: 0 <= i < |s| ==> IsDigit(s[i])
  }

  function DigitChar(d: nat): char
    requires d < 10
  {
    ('0' as int + d) as char
  }

  /** `n.toString()` for a non-negative integer. */
  function NatToString(n: nat): (r: string)
    ensures r != [] && AllDigits(r)
    ensures r[0] == '0' ==> n == 0 && r == "0"
  {
    if n < 10 then [DigitChar(n)] else NatToString(n / 10) + [DigitChar(n % 10)]
  }

  /** `i.toString()` for any integer. */
  function IntToString(i: int): (r: string)
    ensures r != []
    ensures i < 0 <==> r[0] == '-'
  {
    if i < 0 then "-" + NatToString(-i) else NatToString(i)
  }

  /** The value of a digit in the given base, if it is one. */
  function DigitValue(c: char, base: nat): Option<nat>
  {
    var v :=
      if '0' <= c <= '9' then c as int - '0' as int
      else if 'a' <= c <= 'z' then c as int - 'a' as int + 10
      else if 'A' <= c <= 'Z' then c as int - 'A' as int + 10
      else 36;
    if v < base then Some(v) else None
  }

  predicate AllDigitsIn(s: string, base: nat)
  {
    forall i :: 0 <= i < |s| ==> DigitValue(s[i], base).Some?
  }

  /** The value of a non-empty run of digits, most significant first. */
  function DigitsValue(s: string, base: nat): nat
    requires AllDigitsIn(s, base)
  {
    if s == [] then 0
    else DigitsValue(s[..|s| - 1], base) * base + DigitValue(s[|s| - 1], base).value
  }

  /** `BigInt(text)` (StringToBigInt of ECMAScript): surrounding white space
      is ignored, the empty string is zero, a decimal literal may carry a
      sign, and `0x`/`0o`/`0b` literals may not. `None` is the SyntaxError. */
  function ParseBigInt(text: string): Option<int>
  {
    ParseLiteral(Text.Trim(text))
  }

  /** `BigInt` of text already trimmed. */
  function ParseLiteral(t: string): Option<int>
  {
    if t == [] then Some(0)
    else if |t| > 2 && t[0] == '0' && t[1] in "xX" && AllDigitsIn(t[2..], 16) then
      Some(DigitsValue(t[2..], 16))
    else if |t| > 2 && t[0] == '0' && t[1] in "oO" && AllDigitsIn(t[2..], 8) then
      Some(DigitsValue(t[2..], 8))
    else if |t| > 2 && t[0] == '0' && t[1] in "bB" && AllDigitsIn(t[2..], 2) then
      Some(DigitsValue(t[2..], 2))
    else if t[0] == '-' && |t| > 1 && AllDigitsIn(t[1..], 10) then
      Some(-(DigitsValue(t[1..], 10) as int))
    else if t[0] == '+' && |t| > 1 && AllDigitsIn(t[1..], 10) then
      Some(DigitsValue(t[1..], 10))
    else if AllDigitsIn(t, 10) then
      Some(DigitsValue(t, 10))
    else None
  }

  lemma {:induction false} DigitsValueOfNatToString(n: nat)
    ensures AllDigitsIn(NatToString(n), 10)
    ensures DigitsValue(NatToString(n), 10) == n
  {
    var r := NatToString(n);
    if n >= 10 {
      DigitsValueOfNatToString(n / 10);
      assert r[..|r| - 1] == NatToString(n / 10);
    }
  }

  /** Rendering an integer and parsing it back with `BigInt` is the identity,
      for both signs. */
  lemma ParseIntToString(i: int)
    ensures Text.Trim(IntToString(i)) == IntToString(i)
    ensures ParseBigInt(IntToString(i)) == Some(i)
  {
    var r := IntToString(i);
    assert Text.IsTrimmed(r);
    Text.TrimFixesTrimmed(r);
    LiteralOfIntToString(i);
  }

  lemma LiteralOfIntToString(i: int)
    ensures ParseLiteral(IntToString(i)) == Some(i)
  {
    var r := IntToString(i);
    var m: nat := if i < 0 then -i else i;
    DigitsValueOfNatToString(m);
    var d := NatToString(m);
    if i < 0 {
      assert r[1..] == d;
    } else {
      assert |r| > 2 ==> r[1] !in "xXoObB";
    }
  }

  /** `BigInt` trims its argument itself, so trimming first changes nothing. */
  lemma ParseTrimmed(text: string)
    ensures ParseBigInt(Text.Trim(text)) == ParseBigInt(text)
  {
    Text.TrimIdempotent(text);
  }

  /** Distinct integers render to distinct strings, so keying a record by
      `id.toString()` is the same as keying it by `id`. */
  lemma IntToStringInjective(a: int, b: int)
    ensures IntToString(a) == IntToString(b) <==> a == b
  {
    ParseIntToString(a);
    ParseIntToString(b);
  }

  lemma NatToStringInjective(a: nat, b: nat)
    ensures NatToString(a) == NatToString(b) <==> a == b
  {
    IntToStringInjective(a, b);
  }
}

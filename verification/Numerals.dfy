/**
 * Decimal numerals: how `std::to_string` and stream output write a number and how
 * `boost::lexical_cast` to a signed integer type reads one back.
 */
module Numerals {
  import opened Base

  predicate IsDigit(c: char) { '0' <= c <= '9' }

  /** White space in the C locale. */
  predicate IsSpace(c: char) { c == ' ' || c == '\t' || c == '\n' || c == '\r' || c as int == 11 || c as int == 12 }

  /** The six characters of the C locale that are white space, by their codes. */
  lemma SpaceCodes(c: char)
    ensures IsSpace(c) <==> c as int == 32 || 9 <= c as int <= 13
  {
  }

  predicate AllDigits(s: string) { forall i :: 0 <= i < |s| ==> IsDigit(s[i]) }

  function DigitChar(d: nat): (c: char)
    requires d < 10
    ensures IsDigit(c) && DigitValue(c) == d
  {
    '0' + d as char
  }

  function DigitValue(c: char): (d: nat)
    requires IsDigit(c)
    ensures d < 10
  {
    c as int - '0' as int
  }

  /** The value of a run of digits, most significant first. */
  function DigitsValue(s: string): nat
    requires AllDigits(s)
  {
    if s == [] then 0 else DigitsValue(s[..|s|-1]) * 10 + DigitValue(s[|s|-1])
  }

  /** The canonical numeral of a natural number. */
  function ShowNat(n: nat): (s: string)
    ensures s != [] && AllDigits(s)
  {
    if n < 10 then [DigitChar(n)] else ShowNat(n / 10) + [DigitChar(n % 10)]
  }

  function ShowInt(n: int): string {
    if n < 0 then "-" + ShowNat(-n) else ShowNat(n)
  }

  lemma {:induction false} ShowNatValue(n: nat)
    ensures DigitsValue(ShowNat(n)) == n
  {
    if n >= 10 {
      ShowNatValue(n / 10);
      var s := ShowNat(n);
      assert s[..|s|-1] == ShowNat(n / 10);
      assert s[|s|-1] == DigitChar(n % 10);
    } else {
      var s := ShowNat(n);
      assert s[..|s|-1] == [];
    }
  }

  /** The digits, in the order of their values. */
  const DIGITS := "0123456789"

  lemma DigitsInOrder(i: nat)
    requires i < 10
    ensures IsDigit(DIGITS[i]) && DigitValue(DIGITS[i]) == i && DigitChar(i) == DIGITS[i]
  {
  }

  function Pow10(n: nat): nat { if n == 0 then 1 else 10 * Pow10(n - 1) }

  /** Positional notation: putting digits behind others shifts these by as many decimal places. */
  lemma {:induction false} DigitsValueConcat(a: string, b: string)
    requires AllDigits(a) && AllDigits(b) && AllDigits(a + b)
    ensures DigitsValue(a + b) == DigitsValue(a) * Pow10(|b|) + DigitsValue(b)
  {
    if b == [] {
      assert a + b == a;
    } else {
      var n := |b| - 1;
      assert (a + b)[..|a + b| - 1] == a + b[..n] && (a + b)[|a + b| - 1] == b[n];
      DigitsValueConcat(a, b[..n]);
      Shift(DigitsValue(a), Pow10(n), DigitsValue(b[..n]), DigitValue(b[n]));
    }
  }

  lemma Shift(a: nat, p: nat, b: nat, d: nat)
    ensures (a * p + b) * 10 + d == a * (10 * p) + (b * 10 + d)
  {
  }

  /** A signed integer key type, given by its two limits. */
  datatype IntType = IntType(min: int, max: int) {
    predicate Valid() { min < 0 < max }
    predicate Contains(n: int) { min <= n <= max }
  }

  const INT64: IntType := IntType(-P63, P63 - 1)

  function Magnitude(s: string): Option<nat> {
    if s != [] && AllDigits(s) then Some(DigitsValue(s)) else None
  }

  /** `lexical_cast<T>(s)` for a signed integer type: an optional sign, digits, and the value in range. */
  function LexicalCast(t: IntType, s: string): Option<int> {
    if s == [] then None
    else
      var body := if s[0] == '-' || s[0] == '+' then s[1..] else s;
      match Magnitude(body)
      case None => None
      case Some(m) =>
        var n := if s[0] == '-' then 0 - m else m as int;
        if t.Contains(n) then Some(n) else None
  }

  /** What a numeral denotes: its digits in positional notation, negated after a minus sign, if the type has that value. */
  lemma CastReads(t: IntType, digits: string)
    requires digits != "" && AllDigits(digits)
    ensures LexicalCast(t, digits) == (if t.Contains(DigitsValue(digits)) then Some(DigitsValue(digits)) else None)
    ensures LexicalCast(t, "+" + digits) == LexicalCast(t, digits)
    ensures LexicalCast(t, "-" + digits) == (if t.Contains(0 - DigitsValue(digits)) then Some(0 - DigitsValue(digits)) else None)
  {
    assert IsDigit(digits[0]);
    assert ("+" + digits)[1..] == digits && ("-" + digits)[1..] == digits;
  }

  /** A one-digit numeral denotes the place of its digit among the ten. */
  lemma CastDigit(t: IntType, i: nat)
    requires i < 10 && t.Valid() && t.Contains(i)
    ensures LexicalCast(t, [DIGITS[i]]) == Some(i)
  {
    var s := [DIGITS[i]];
    DigitsInOrder(i);
    assert s[..0] == [] && DigitsValue(s) == i;
    CastReads(t, s);
  }

  /** And nothing else is one: a text with any other character, or none at all, does not read as a number. */
  lemma CastRefuses(t: IntType, s: string)
    ensures LexicalCast(t, s).Some? ==>
              var body := if s != "" && s[0] in {'-', '+'} then s[1..] else s;
              body != "" && forall i :: 0 <= i < |body| ==> body[i] in DIGITS
  {
    if LexicalCast(t, s).Some? {
      var body := if s[0] == '-' || s[0] == '+' then s[1..] else s;
      assert AllDigits(body);
      forall i | 0 <= i < |body| ensures body[i] in DIGITS {
        assert DIGITS[DigitValue(body[i])] == body[i];
      }
    }
  }

  /** Reading back what was written: the round trip the RPC layer relies on for keys and object ids. */
  lemma CastShow(t: IntType, n: int)
    requires t.Contains(n)
    ensures LexicalCast(t, ShowInt(n)) == Some(n)
  {
    var s := ShowInt(n);
    if n < 0 {
      assert s[1..] == ShowNat(-n);
      ShowNatValue(-n);
    } else {
      ShowNatValue(n);
      assert IsDigit(s[0]);
    }
  }
}

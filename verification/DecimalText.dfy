/**
 * Decimal text of integers, and the `BigInt(text)` conversion of the host language
 * (StringToBigInt, ECMA-262 section 7.1.14).
 */
module DecimalText {

  import opened Sequences

  function DigitChar(d: nat): char
    requires d < 10
  {
    "0123456789"[d]
  }

  predicate IsDigit(c: char) {
    '0' <= c <= '9'
  }

  function DigitValue(c: char): (d: nat)
    requires IsDigit(c)
    ensures d < 10 && DigitChar(d) == c
  {
    (c as int) - ('0' as int)
  }

  predicate AllDigits(s: string) {
    forall i | 0 <= i < |s| :: IsDigit(s[i])
  }

  function Pow10(k: nat): (r: nat)
    ensures r >= 1
  {
    if k == 0 then 1 else 10 * Pow10(k - 1)
  }

  function Power(base: nat, k: nat): nat {
    if k == 0 then 1 else base * Power(base, k - 1)
  }

  function Zeros(k: nat): (r: string)
    ensures |r| == k && forall i | 0 <= i < k :: r[i] == '0'
  {
    if k == 0 then "" else "0" + Zeros(k - 1)
  }

  /** The number written by a string of digits; the empty string writes 0. */
  function NatValue(s: string): nat
    requires AllDigits(s)
  {
    if s == "" then 0 else 10 * NatValue(s[..|s| - 1]) + DigitValue(s[|s| - 1])
  }

  /** `n.toString()` for a non-negative integer. */
  function NatText(n: nat): (s: string)
    ensures s != "" && AllDigits(s)
    ensures s[0] == '0' ==> s == "0"
    ensures n > 0 ==> s[0] != '0'
    ensures NatValue(s) == n
  {
    if n < 10 then [DigitChar(n)]
    else
      var front := NatText(n / 10);
      var s := front + [DigitChar(n % 10)];
      assert s[..|s| - 1] == front;
      s
  }

  /** `v.toString()` for an integer. */
  function IntText(v: int): string {
    if v < 0 then "-" + NatText(-v) else NatText(v)
  }

  lemma {:induction false} NatValueConcat(a: string, b: string)
    requires AllDigits(a) && AllDigits(b)
    ensures AllDigits(a + b)
    ensures NatValue(a + b) == NatValue(a) * Pow10(|b|) + NatValue(b)
  {
    if b == "" {
      assert a + b == a;
    } else {
      var front, d := b[..|b| - 1], DigitValue(b[|b| - 1]);
      NatValueConcat(a, front);
      assert (a + b)[..|a + b| - 1] == a + front;
      assert (a + b)[|a + b| - 1] == b[|b| - 1];
      ShiftDigit(NatValue(a), Pow10(|front|), NatValue(front), d);
    }
  }

  lemma ShiftDigit(x: nat, p: nat, y: nat, d: nat)
    ensures 10 * (x * p + y) + d == x * (10 * p) + (10 * y + d)
  {
  }

  lemma {:induction false} ZerosValue(k: nat)
    ensures AllDigits(Zeros(k)) && NatValue(Zeros(k)) == 0
  {
    if k > 0 {
      ZerosValue(k - 1);
      NatValueConcat("0", Zeros(k - 1));
      assert NatValue("0") == 0 by { assert "0"[..0] == ""; }
    }
  }

  /** Leading zeros do not change the number. */
  lemma LeadingZeros(k: nat, s: string)
    requires AllDigits(s)
    ensures AllDigits(Zeros(k) + s) && NatValue(Zeros(k) + s) == NatValue(s)
  {
    ZerosValue(k);
    NatValueConcat(Zeros(k), s);
  }

  /** A digit string is below the power of ten of its length. */
  lemma {:induction false} NatValueBound(s: string)
    requires AllDigits(s)
    ensures NatValue(s) < Pow10(|s|)
  {
    if s != "" {
      NatValueBound(s[..|s| - 1]);
    }
  }

  /** Digit strings without leading zeros are determined by their number. */
  lemma {:induction false} NatTextUnique(s: string)
    requires s != "" && AllDigits(s) && (s[0] == '0' ==> |s| == 1)
    ensures NatText(NatValue(s)) == s
  {
    var front, d := s[..|s| - 1], DigitValue(s[|s| - 1]);
    assert s == front + [DigitChar(d)];
    if front == "" {
      assert NatValue(s) == d;
    } else {
      NatTextUnique(front);
      var n := NatValue(front);
      assert n > 0 by {
        assert NatText(n)[0] == s[0] != '0';
        assert n == 0 ==> NatText(n) == "0";
      }
      assert NatValue(s) / 10 == n && NatValue(s) % 10 == d;
    }
  }

  lemma IntTextInjective(a: int, b: int)
    requires IntText(a) == IntText(b)
    ensures a == b
  {
    assert (a < 0) == (IntText(a)[0] == '-') && (b < 0) == (IntText(b)[0] == '-');
    if a < 0 {
      assert IntText(a)[1..] == NatText(-a) && IntText(b)[1..] == NatText(-b);
    }
  }

  /** The texts that integers print as: no leading zeros, no `-0`. */
  predicate IsIntText(s: string) {
    var t := if s != "" && s[0] == '-' then s[1..] else s;
    t != "" && AllDigits(t) && (t[0] == '0' ==> s == "0")
  }

  lemma IntTextIsIntText(v: int)
    ensures IsIntText(IntText(v))
  {
    var n: nat := if v < 0 then -v else v;
    assert v < 0 ==> IntText(v)[1..] == NatText(n);
  }

  lemma NatTextOf(t: string) returns (n: nat)
    requires t != "" && AllDigits(t) && (t[0] == '0' ==> |t| == 1)
    ensures NatText(n) == t && (n == 0 ==> t == "0")
  {
    NatTextUnique(t);
    n := NatValue(t);
  }

  lemma NegativeOf(t: string) returns (v: int)
    requires t != "" && AllDigits(t) && t[0] != '0'
    ensures IntText(v) == "-" + t
  {
    var n: int := NatTextOf(t);
    v := -n;
  }

  lemma IntTextOf(s: string) returns (v: int)
    requires IsIntText(s)
    ensures IntText(v) == s
  {
    if s[0] == '-' {
      v := NegativeOf(s[1..]);
      assert s == "-" + s[1..];
    } else {
      v := NatTextOf(s);
    }
  }

  // ----- BigInt(text) ---------------------------------------------------------

  /** White space and line terminators of the host language. */
  predicate IsSpace(c: char) {
    c in "\t\n\r " || c == '\U{000B}' || c == '\U{000C}' || c == '\U{00A0}' || c == '\U{1680}' ||
    '\U{2000}' <= c <= '\U{200A}' || c == '\U{2028}' || c == '\U{2029}' || c == '\U{202F}' ||
    c == '\U{205F}' || c == '\U{3000}' || c == '\U{FEFF}'
  }

  function TrimLeft(s: string): string {
    if s != "" && IsSpace(s[0]) then TrimLeft(s[1..]) else s
  }

  function TrimRight(s: string): string {
    if s != "" && IsSpace(s[|s| - 1]) then TrimRight(s[..|s| - 1]) else s
  }

  function Trim(s: string): string {
    TrimRight(TrimLeft(s))
  }

  /** The value of a digit in any radix up to 16; anything else is out of every radix. */
  function RadixDigit(c: char): nat {
    if '0' <= c <= '9' then (c as int) - ('0' as int)
    else if 'a' <= c <= 'f' then (c as int) - ('a' as int) + 10
    else if 'A' <= c <= 'F' then (c as int) - ('A' as int) + 10
    else 16
  }

  function RadixValue(s: string, radix: nat): Option<nat> {
    if s == "" then Some(0)
    else
      match RadixValue(s[..|s| - 1], radix)
      case None => None
      case Some(front) =>
        var d := RadixDigit(s[|s| - 1]);
        if d < radix then Some(radix * front + d) else None
  }

  /** The radix announced by a `0x`, `0o` or `0b` prefix. */
  function PrefixRadix(t: string): Option<nat> {
    if |t| < 2 || t[0] != '0' then None
    else if t[1] in "xX" then Some(16)
    else if t[1] in "oO" then Some(8)
    else if t[1] in "bB" then Some(2)
    else None
  }

  function Signed(negative: bool, n: int): int {
    if negative then -n else n
  }

  /** Digits with an optional sign. */
  function SignedValue(t: string): Option<int> {
    if t == "" then None
    else if t[0] in "+-" then
      var digits := t[1..];
      if digits == "" || !AllDigits(digits) then None
      else Some(Signed(t[0] == '-', NatValue(digits)))
    else if AllDigits(t) then Some(NatValue(t))
    else None
  }

  /** `BigInt(s)`; `None` stands for the SyntaxError it throws. */
  function BigIntOf(s: string): Option<int> {
    var t := Trim(s);
    if t == "" then Some(0)
    else
      match PrefixRadix(t)
      case Some(radix) => if |t| == 2 then None else RadixValue(t[2..], radix)
      case None => SignedValue(t)
  }

  /** `-` or digits at both ends leave nothing to trim. */
  lemma TrimKeeps(s: string)
    requires s != "" && !IsSpace(s[0]) && !IsSpace(s[|s| - 1])
    ensures Trim(s) == s
  {
  }

  /** On plain signed decimal text, `BigInt` is the ordinary reading. */
  lemma BigIntOfDigits(sign: string, digits: string)
    requires sign == "" || sign == "-"
    requires digits != "" && AllDigits(digits)
    ensures BigIntOf(sign + digits) == Some(Signed(sign == "-", NatValue(digits)))
  {
    DigitEnds(sign, digits);
    TrimKeeps(sign + digits);
    if sign == "-" {
      assert (sign + digits)[1..] == digits;
      MinusDigits(sign + digits, digits);
    } else {
      assert sign + digits == digits;
      PlainDigits(digits);
    }
  }

  lemma MinusDigits(t: string, digits: string)
    requires t != "" && t[0] == '-' && t[1..] == digits && Trim(t) == t
    requires digits != "" && AllDigits(digits)
    ensures BigIntOf(t) == Some(Signed(true, NatValue(digits)))
  {
  }

  lemma PlainDigits(digits: string)
    requires digits != "" && AllDigits(digits) && Trim(digits) == digits
    ensures BigIntOf(digits) == Some(NatValue(digits))
  {
    DigitsHaveNoPrefix(digits);
    assert IsDigit(digits[0]);
  }

  lemma DigitEnds(sign: string, digits: string)
    requires sign == "" || sign == "-"
    requires digits != "" && AllDigits(digits)
    ensures var t := sign + digits; !IsSpace(t[0]) && !IsSpace(t[|t| - 1])
  {
    var t := sign + digits;
    assert t[|t| - 1] == digits[|digits| - 1];
    assert t[0] == '-' || t[0] == digits[0];
  }

  lemma DigitsHaveNoPrefix(digits: string)
    requires AllDigits(digits)
    ensures PrefixRadix(digits).None?
  {
    assert |digits| > 1 ==> IsDigit(digits[1]);
  }

  /** `BigInt(v.toString()) === v`. */
  lemma BigIntOfIntText(v: int)
    ensures BigIntOf(IntText(v)) == Some(v)
  {
    if v < 0 {
      BigIntOfDigits("-", NatText(-v));
    } else {
      BigIntOfDigits("", NatText(v));
      assert "" + NatText(v) == NatText(v);
    }
  }
}

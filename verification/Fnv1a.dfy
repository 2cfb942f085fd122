/** The 32-bit FNV-1a hash over UTF-16 code units that names notifications and archives. */
module Fnv1a {

  import opened DecimalText

  const OFFSET_BASIS: bv32 := 2166136261
  const PRIME: bv32 := 16777619

  /** The UTF-16 code units of a character. */
  function CodeUnits(c: char): (u: seq<bv32>)
    ensures 1 <= |u| <= 2
  {
    var n := c as int;
    if n < 0x10000 then [n as bv32]
    else [(0xD800 + (n - 0x10000) / 0x400) as bv32, (0xDC00 + (n - 0x10000) % 0x400) as bv32]
  }

  function Encode(s: string): seq<bv32> {
    if s == "" then [] else CodeUnits(s[0]) + Encode(s[1..])
  }

  /** One round: xor with the code unit, then multiply modulo 2^32. */
  function Round(hash: bv32, unit: bv32): bv32 {
    (hash ^ unit) * PRIME
  }

  function Hash(units: seq<bv32>): bv32 {
    if units == [] then OFFSET_BASIS else Round(Hash(units[..|units| - 1]), units[|units| - 1])
  }

  lemma HashSnoc(units: seq<bv32>, i: nat)
    requires i < |units|
    ensures Hash(units[..i + 1]) == Round(Hash(units[..i]), units[i])
  {
    var front := units[..i + 1];
    assert front[..|front| - 1] == units[..i];
  }

  /** The loop over `charCodeAt(i)`. */
  method ComputeHash(input: string) returns (hash: bv32)
    ensures hash == Hash(Encode(input))
  {
    var units := Encode(input);
    hash := OFFSET_BASIS;
    for i := 0 to |units|
      invariant hash == Hash(units[..i])
    {
      HashSnoc(units, i);
      hash := Round(hash, units[i]);
    }
    assert units[..|units|] == units;
  }

  function BaseDigit(d: nat): char
    requires d < 36
  {
    "0123456789abcdefghijklmnopqrstuvwxyz"[d]
  }

  /** `n.toString(base)`. */
  function TextInBase(n: nat, base: nat): (s: string)
    requires 2 <= base <= 36
    ensures s != ""
    decreases n
  {
    if n < base then [BaseDigit(n)] else TextInBase(n / base, base) + [BaseDigit(n % base)]
  }

  /** A number below base^k prints with at most k digits. */
  lemma {:induction false} TextLength(n: nat, base: nat, k: nat)
    requires 2 <= base <= 36 && k > 0 && n < Power(base, k)
    ensures |TextInBase(n, base)| <= k
    decreases k
  {
    if n >= base {
      assert k > 1 by {
        assert Power(base, 1) == base * Power(base, 0) == base;
      }
      QuotientBelow(n, base, Power(base, k - 1));
      TextLength(n / base, base, k - 1);
    }
  }

  lemma QuotientBelow(n: nat, base: nat, p: nat)
    requires base > 0 && n < base * p
    ensures n / base < p
  {
    var q := n / base;
    assert q * base <= n;
    if q >= p {
      Monotone(p, q, base);
    }
  }

  lemma Monotone(a: nat, b: nat, d: nat)
    requires a <= b
    ensures d * a <= d * b
  {
  }

  /** `computeArchiveProofHash(input)`: eight hexadecimal digits. */
  function HexHash(input: string): string {
    var text := TextInBase(Hash(Encode(input)) as int, 16);
    if |text| < 8 then Zeros(8 - |text|) + text else text
  }

  /** `hashString(input)`: the hash in base 36. */
  function ShortHash(input: string): string {
    TextInBase(Hash(Encode(input)) as int, 36)
  }

  predicate HexDigit(c: char) {
    '0' <= c <= '9' || 'a' <= c <= 'f'
  }

  lemma {:induction false} HexDigitsOnly(n: nat)
    ensures forall i | 0 <= i < |TextInBase(n, 16)| :: HexDigit(TextInBase(n, 16)[i])
    decreases n
  {
    if n >= 16 {
      HexDigitsOnly(n / 16);
    }
  }

  /** The archive hash always has the form `/^[0-9a-f]{8}$/`. */
  lemma HexHashForm(input: string)
    ensures |HexHash(input)| == 8 && forall i | 0 <= i < 8 :: HexDigit(HexHash(input)[i])
  {
    var n := Hash(Encode(input)) as int;
    HexDigitsOnly(n);
    SixteenToTheEighth();
    TextLength(n, 16, 8);
    PaddedHex(TextInBase(n, 16));
  }

  lemma PaddedHex(text: string)
    requires |text| <= 8 && forall i | 0 <= i < |text| :: HexDigit(text[i])
    ensures var r := if |text| < 8 then Zeros(8 - |text|) + text else text;
            |r| == 8 && forall i | 0 <= i < 8 :: HexDigit(r[i])
  {
  }

  lemma SixteenToTheEighth()
    ensures Power(16, 8) == 0x1_0000_0000
  {
    assert Power(16, 2) == 256;
    assert Power(16, 4) == 65536;
    assert Power(16, 6) == 0x100_0000;
  }
}

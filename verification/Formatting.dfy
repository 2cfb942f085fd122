/** `parseAssetAmount`, the lenient amount parser of the interface. */
module Formatting {

  import opened Sequences
  import opened DecimalText
  import opened SafeAmount

  const DEFAULT_DECIMALS := 6

  /** `ASSET_DECIMALS`, looked up by the upper-case symbol. */
  function AssetDecimals(symbol: string): nat {
    if symbol == "XLM" then 7
    else if symbol == "USDC" then 6
    else if symbol == "USDT" then 6
    else if symbol == "ETH" then 18
    else if symbol == "SOL" then 9
    else if symbol == "BTC" then 8
    else DEFAULT_DECIMALS
  }

  // ----- Number(text), as far as whether it is NaN (ECMA-262 section 7.1.4.1) ----------------

  function IndexOf(s: string, chars: string): nat
    ensures IndexOf(s, chars) <= |s|
  {
    if s == "" || s[0] in chars then 0 else 1 + IndexOf(s[1..], chars)
  }

  function Unsigned(s: string): string {
    if s != "" && s[0] in "+-" then s[1..] else s
  }

  /** Digits with at most one point among them, and at least one digit. */
  predicate Mantissa(s: string) {
    var dot := IndexOf(s, ".");
    var after := if dot < |s| then s[dot + 1..] else "";
    AllDigits(s[..dot]) && AllDigits(after) && dot + |after| > 0
  }

  predicate Exponent(s: string) {
    Unsigned(s) != "" && AllDigits(Unsigned(s))
  }

  /** A decimal literal with an optional sign and exponent, or a signed Infinity. */
  predicate DecimalLiteral(s: string) {
    var t := Unsigned(s);
    var e := IndexOf(t, "eE");
    t == "Infinity" || (Mantissa(t[..e]) && (e < |t| ==> Exponent(t[e + 1..])))
  }

  /** `!isNaN(Number(s))`. */
  predicate IsNumeric(s: string) {
    var t := Trim(s);
    || t == ""
    || DecimalLiteral(t)
    || (|t| > 2 && PrefixRadix(t).Some? && RadixValue(t[2..], PrefixRadix(t).value).Some?)
  }

  /** `parseAssetAmount(value, symbol)` with an upper-case symbol; `Err` is the SyntaxError of `BigInt`. */
  function ParseAssetAmount(value: string, symbol: string): Result<int, string> {
    ParseScaled(value, AssetDecimals(symbol))
  }

  function ParseScaled(value: string, decimals: nat): Result<int, string> {
    if value == "" || !IsNumeric(value) then Ok(0)
    else
      var parts := Split(value, '.');
      var integerPart := parts[0];
      var fractionalPart := if |parts| > 1 then parts[1] else "";
      var padded := PadEnd(Take(fractionalPart, decimals), decimals);
      match BigIntOf(integerPart + padded)
      case Some(v) => Ok(v)
      case None => Err("SyntaxError")
  }
}

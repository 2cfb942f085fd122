/** The lenient parser of the interface against the exact one. */
module AmountParsers {

  import opened Sequences
  import opened DecimalText
  import opened SafeAmount
  import opened Formatting
  import opened NumericText
  import opened ParseOutcome

  /** The decimal text of the exact parser is one form of number. */
  function DecimalLiteralOf(negative: bool, whole: string, frac: string): Literal {
    Finite(Minus(negative), whole, frac != "", frac, "")
  }

  lemma DecimalWrites(negative: bool, whole: string, frac: string)
    requires DecimalParts(whole, frac)
    ensures Writes(Decimal(negative, whole, frac), "", DecimalLiteralOf(negative, whole, frac), "")
  {
    var text := whole + PointPart(frac != "", frac);
    assert text + "" == text;
    assert "" + ((Minus(negative) + text) + "") == Minus(negative) + text;
  }

  /** Every text the exact parser knows is a number to the host language. */
  lemma {:induction false} DecimalIsNumeric(negative: bool, whole: string, frac: string)
    requires DecimalParts(whole, frac)
    ensures IsNumeric(Decimal(negative, whole, frac))
  {
    DecimalWrites(negative, whole, frac);
    LiteralIsNumeric(Decimal(negative, whole, frac), "", DecimalLiteralOf(negative, whole, frac), "");
  }

  lemma {:induction false} ParseShort(negative: bool, whole: string, frac: string, d: nat)
    requires DecimalParts(whole, frac) && |frac| <= d
    ensures ParseScaled(Decimal(negative, whole, frac), d) == Ok(Scaled(negative, whole + frac, d - |frac|))
  {
    DecimalWrites(negative, whole, frac);
    ParsesExactly(Decimal(negative, whole, frac), "", DecimalLiteralOf(negative, whole, frac), "", d);
    ShortOutcome(negative, whole, frac, d);
  }

  lemma ShortOutcome(negative: bool, whole: string, frac: string, d: nat)
    requires DecimalParts(whole, frac) && |frac| <= d && LiteralOk(DecimalLiteralOf(negative, whole, frac))
    ensures Outcome(DecimalLiteralOf(negative, whole, frac), "", d) == Ok(Scaled(negative, whole + frac, d - |frac|))
  {
    if frac == "" {
      assert whole + frac == whole;
    } else if |frac| == d {
      assert frac[..d] == frac;
      NoScaling(negative, whole + frac);
    }
  }

  lemma NoScaling(negative: bool, digits: string)
    requires AllDigits(digits)
    ensures Scaled(negative, digits, 0) == Signed(negative, NatValue(digits))
  {
    assert Pow10(0) == 1;
  }

  lemma {:induction false} ParseLong(negative: bool, whole: string, frac: string, d: nat)
    requires DecimalParts(whole, frac) && |frac| > d
    ensures ParseScaled(Decimal(negative, whole, frac), d) == Ok(Signed(negative, NatValue(whole + frac[..d])))
  {
    DecimalWrites(negative, whole, frac);
    ParsesExactly(Decimal(negative, whole, frac), "", DecimalLiteralOf(negative, whole, frac), "", d);
  }

  lemma {:induction false} ScaledParsersAgree(human: string, d: nat)
    requires ExactAmount.FromHuman(human, d).Ok?
    ensures ParseScaled(human, d) == Ok(ExactAmount.FromHuman(human, d).value.value)
  {
    var negative, whole, frac := FromHumanAcceptsOnly(human, d);
    FromHumanValue(negative, whole, frac, d);
    ParseShort(negative, whole, frac, d);
  }

  /** Whatever the exact parser accepts at an asset's decimals, the lenient one reads alike. */
  lemma ParsersAgree(human: string, symbol: string)
    requires ExactAmount.FromHuman(human, AssetDecimals(symbol)).Ok?
    ensures ParseAssetAmount(human, symbol) == Ok(ExactAmount.FromHuman(human, AssetDecimals(symbol)).value.value)
  {
    ScaledParsersAgree(human, AssetDecimals(symbol));
  }

  /**
   * `v` is the amount n / 10^k, with the given sign, cut off after `d` decimals: it is not beyond the
   * exact scaled value, and less than one minor unit short of it.
   */
  predicate Truncates(v: int, negative: bool, n: nat, k: nat, d: nat) {
    && (negative ==> v <= 0) && (!negative ==> v >= 0)
    && CutOffAt(Abs(v), n, k, d)
  }

  /** `v` minor units are at most n / 10^k with `d` decimals, and one more would be too many. */
  predicate CutOffAt(v: nat, n: nat, k: nat, d: nat) {
    v * Pow10(k) <= n * Pow10(d) < (v + 1) * Pow10(k)
  }

  lemma CutOff(whole: string, frac: string, d: nat)
    requires AllDigits(whole) && AllDigits(frac) && |frac| >= d
    ensures CutOffAt(NatValue(whole + frac[..d]), NatValue(whole + frac), |frac|, d)
  {
    var kept, dropped := whole + frac[..d], frac[d..];
    assert whole + frac == kept + dropped;
    CutOffBehind(kept, dropped, d);
  }

  lemma CutOffBehind(kept: string, dropped: string, d: nat)
    requires AllDigits(kept) && AllDigits(dropped)
    ensures CutOffAt(NatValue(kept), NatValue(kept + dropped), |dropped| + d, d)
  {
    NatValueConcat(kept, dropped);
    NatValueBound(dropped);
    Pow10Add(|dropped|, d);
    TruncationBounds(NatValue(kept), NatValue(dropped), Pow10(|dropped|), Pow10(d));
  }

  lemma {:induction false} ScaledTruncates(negative: bool, whole: string, frac: string, d: nat)
    requires DecimalParts(whole, frac) && |frac| > d
    ensures var r := ParseScaled(Decimal(negative, whole, frac), d);
            r.Ok? && Truncates(r.value, negative, NatValue(whole + frac), |frac|, d)
  {
    ParseLong(negative, whole, frac, d);
    CutOffTruncates(negative, whole, frac, d);
  }

  lemma CutOffTruncates(negative: bool, whole: string, frac: string, d: nat)
    requires AllDigits(whole) && AllDigits(frac) && |frac| >= d
    ensures Truncates(Signed(negative, NatValue(whole + frac[..d])), negative, NatValue(whole + frac), |frac|, d)
  {
    CutOff(whole, frac, d);
    SignedTruncates(negative, NatValue(whole + frac[..d]), NatValue(whole + frac), |frac|, d);
  }

  lemma SignedTruncates(negative: bool, v: nat, n: nat, k: nat, d: nat)
    requires CutOffAt(v, n, k, d)
    ensures Truncates(Signed(negative, v), negative, n, k, d)
  {
    assert Abs(Signed(negative, v)) == v;
  }

  /** Decimal text with a longer fraction than the asset has decimals is truncated toward zero. */
  lemma {:induction false} LongFractionsTruncate(negative: bool, whole: string, frac: string, symbol: string)
    requires DecimalParts(whole, frac) && |frac| > AssetDecimals(symbol)
    ensures
      var r := ParseAssetAmount(Decimal(negative, whole, frac), symbol);
      r.Ok? && Truncates(r.value, negative, NatValue(whole + frac), |frac|, AssetDecimals(symbol))
  {
    ScaledTruncates(negative, whole, frac, AssetDecimals(symbol));
  }

  lemma TruncationBounds(v: nat, rest: nat, p: nat, q: nat)
    requires rest < p && q >= 1
    ensures v * (p * q) <= (v * p + rest) * q < (v + 1) * (p * q)
  {
    assert (v * p + rest) * q == v * (p * q) + rest * q;
    assert (v + 1) * (p * q) == v * (p * q) + p * q;
    assert rest * q < p * q;
  }

  // ----- What the accepted forms are read as ---------------------------------------------------------

  lemma ScaledTruncatesExactly(negative: bool, digits: string, k: nat, d: nat)
    requires AllDigits(digits) && k <= d
    ensures Truncates(Scaled(negative, digits, d - k), negative, NatValue(digits), k, d)
  {
    Pow10Add(d - k, k);
    ExactProduct(NatValue(digits), Pow10(d - k), Pow10(k));
    SignedTruncates(negative, NatValue(digits) * Pow10(d - k), NatValue(digits), k, d);
  }

  lemma ExactProduct(n: nat, p: nat, q: nat)
    requires q >= 1
    ensures (n * p) * q == n * (p * q) < (n * p + 1) * q
  {
  }

  /** Digits read without the zeros they lack are right only if they are all zero. */
  lemma UnscaledTruncates(negative: bool, n: nat, k: nat, d: nat)
    requires k < d
    ensures Truncates(Signed(negative, n), negative, n, k, d) <==> n == 0
  {
    Pow10Add(d - k, k);
    assert Pow10(d - k) >= 10;
    assert Abs(Signed(negative, n)) == n;
    TooSmall(n, Pow10(d - k), Pow10(k));
  }

  lemma TooSmall(n: nat, p: nat, q: nat)
    requires p >= 10 && q >= 1
    ensures n * (p * q) < (n + 1) * q <==> n == 0
    ensures n * q <= n * (p * q)
  {
    assert n * (p * q) == (n * p) * q;
    if n > 0 {
      Ordered(n + 1, n * p, q);
    }
    Ordered(n, n * p, q);
  }

  lemma Ordered(a: nat, b: nat, q: nat)
    requires a <= b
    ensures a * q <= b * q
  {
  }

  /**
   * A plain number that is accepted is read as its digits truncated after `d` decimals, with any exponent
   * ignored, exactly unless white space has taken the place of missing decimals of a number other than 0.
   */
  lemma {:induction false} AcceptedReads(l: Literal, after: string, d: nat)
    requires LiteralOk(l) && l.Finite? && Outcome(l, after, d).Ok?
    ensures Truncates(Outcome(l, after, d).value, l.sign == "-", NatValue(l.whole + l.frac), |l.frac|, d) <==>
            !(l.point && |l.frac| < d && after != "" && NatValue(l.whole + l.frac) > 0)
  {
    if !l.point {
      assert l.whole + l.frac == l.whole;
      ScaledTruncatesExactly(l.sign == "-", l.whole, 0, d);
    } else if |l.frac| >= d {
      CutOffTruncates(l.sign == "-", l.whole, l.frac, d);
    } else if after == "" {
      ScaledTruncatesExactly(l.sign == "-", l.whole + l.frac, |l.frac|, d);
    } else {
      UnscaledTruncates(l.sign == "-", NatValue(l.whole + l.frac), |l.frac|, d);
    }
  }

  lemma {:induction false} PowersDiffer(radix: nat, d: nat)
    requires (radix == 16 || radix == 8 || radix == 2) && d > 0
    ensures if radix == 16 then Power(radix, d) > Pow10(d) else Power(radix, d) < Pow10(d)
  {
    assert Power(radix, 0) == 1 && Pow10(0) == 1;
    if d > 1 {
      PowersDiffer(radix, d - 1);
    }
  }

  lemma DifferentProducts(n: nat, p: nat, q: nat)
    requires p != q
    ensures n * p == n * q <==> n == 0
  {
    if p < q {
      assert n * q == n * p + n * (q - p);
    } else {
      assert n * p == n * q + n * (p - q);
    }
  }

  /**
   * A prefixed number that is accepted is scaled in its own radix, so it is right only if it is 0 or
   * without decimals.
   */
  lemma {:induction false} PrefixedReads(prefix: string, digits: string, after: string, d: nat)
    requires LiteralOk(Radix(prefix, digits)) && Outcome(Radix(prefix, digits), after, d).Ok?
    ensures Outcome(Radix(prefix, digits), after, d).value == RadixNumber(prefix, digits, 0) * Pow10(d) <==>
            d == 0 || RadixNumber(prefix, digits, 0) == 0
  {
    var radix := PrefixRadix(prefix).value;
    var n := RadixValue(digits, radix).value;
    assert Power(radix, 0) == 1 && RadixNumber(prefix, digits, 0) == n;
    if d > 0 {
      PowersDiffer(radix, d);
      DifferentProducts(n, Power(radix, d), Pow10(d));
    }
  }

  // ----- Inputs that throw ------------------------------------------------------------------------------

  lemma ThrowsOn(value: string, l: Literal, after: string, symbol: string)
    requires Writes(value, "", l, after) && Throws(l, after, AssetDecimals(symbol))
    ensures ParseAssetAmount(value, symbol).Err?
  {
    ParsesExactly(value, "", l, after, AssetDecimals(symbol));
  }

  /** Whole numbers in exponent notation throw, for every asset. */
  lemma ExponentThrows(whole: string, exponent: string, symbol: string)
    requires whole != "" && AllDigits(whole) && exponent != "" && AllDigits(exponent)
    ensures ParseAssetAmount(whole + ("e" + exponent), symbol).Err?
  {
    var l := Finite("", whole, false, "", "e" + exponent);
    assert IsDigit(exponent[0]) && ("e" + exponent)[1..] == exponent && Unsigned(exponent) == exponent;
    assert whole + "" == whole;
    assert "" + (("" + (whole + ("e" + exponent))) + "") == whole + ("e" + exponent);
    ThrowsOn(whole + ("e" + exponent), l, "", symbol);
  }

  /** So do whole numbers with a space behind them. */
  lemma TrailingSpaceThrows(whole: string, symbol: string)
    requires whole != "" && AllDigits(whole)
    ensures ParseAssetAmount(whole + " ", symbol).Err?
  {
    var l := Finite("", whole, false, "", "");
    assert (whole + "") + "" == whole;
    assert "" + (("" + whole) + " ") == whole + " ";
    ThrowsOn(whole + " ", l, " ", symbol);
  }
}

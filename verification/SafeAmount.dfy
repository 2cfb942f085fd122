/** Exact token amounts: decimal text in, scaled integers inside, decimal text out. */
module SafeAmount {

  import opened Sequences
  import opened DecimalText

  // ----- String operations of the host language ------------------------------------------

  /** `s.split(sep)` for a one-character separator. */
  function Split(s: string, sep: char): (parts: seq<string>)
    ensures parts != []
  {
    if s == "" then [""]
    else
      var rest := Split(s[1..], sep);
      if s[0] == sep then [""] + rest else [[s[0]] + rest[0]] + rest[1..]
  }

  function PadEnd(s: string, width: nat): string {
    if |s| < width then s + Zeros(width - |s|) else s
  }

  function PadStart(s: string, width: nat): string {
    if |s| < width then Zeros(width - |s|) + s else s
  }

  function Take(s: string, n: nat): string {
    if n < |s| then s[..n] else s
  }

  lemma {:induction false} SplitNone(s: string, sep: char)
    requires sep !in s
    ensures Split(s, sep) == [s]
  {
    if s != "" {
      SplitNone(s[1..], sep);
      assert s == [s[0]] + s[1..];
    }
  }

  lemma {:induction false} SplitFirst(a: string, b: string, sep: char)
    requires sep !in a
    ensures Split(a + [sep] + b, sep) == [a] + Split(b, sep)
  {
    var s := a + [sep] + b;
    if a == "" {
      assert s[0] == sep && s[1..] == b;
    } else {
      SplitFirst(a[1..], b, sep);
      assert s[1..] == a[1..] + [sep] + b;
      assert a == [a[0]] + a[1..];
    }
  }

  lemma DigitsHaveNo(s: string, c: char)
    requires AllDigits(s) && !IsDigit(c)
    ensures c !in s
  {
  }

  // ----- Decimal text ----------------------------------------------------------------------

  function Minus(negative: bool): string {
    if negative then "-" else ""
  }

  function Fraction(frac: string): string {
    if frac == "" then "" else "." + frac
  }

  /** The text of a decimal number: sign, integer digits, fraction digits. */
  function Decimal(negative: bool, whole: string, frac: string): string {
    Minus(negative) + (whole + Fraction(frac))
  }

  predicate DecimalParts(whole: string, frac: string) {
    whole != "" && AllDigits(whole) && AllDigits(frac)
  }

  /** `/^-?\d+(\.\d+)?$/.test(s)`. */
  predicate HumanSyntax(s: string) {
    var t := if s != "" && s[0] == '-' then s[1..] else s;
    var parts := Split(t, '.');
    && 1 <= |parts| <= 2
    && forall i | 0 <= i < |parts| :: parts[i] != "" && AllDigits(parts[i])
  }

  lemma {:induction false} SplitJoins(s: string, sep: char)
    ensures |Split(s, sep)| == 1 ==> s == Split(s, sep)[0]
    ensures |Split(s, sep)| == 2 ==> s == Split(s, sep)[0] + [sep] + Split(s, sep)[1]
  {
    if s != "" {
      SplitJoins(s[1..], sep);
      assert s == [s[0]] + s[1..];
      SplitHead(s, sep);
    }
  }

  lemma SplitHead(s: string, sep: char)
    requires s != ""
    ensures var rest := Split(s[1..], sep);
            if s[0] == sep then |Split(s, sep)| == |rest| + 1 && Split(s, sep)[0] == "" && Split(s, sep)[1..] == rest
            else |Split(s, sep)| == |rest| && Split(s, sep)[0] == [s[0]] + rest[0] && Split(s, sep)[1..] == rest[1..]
  {
  }

  lemma DottedParts(t: string) returns (whole: string, frac: string)
    requires 1 <= |Split(t, '.')| <= 2
    requires forall i | 0 <= i < |Split(t, '.')| :: Split(t, '.')[i] != "" && AllDigits(Split(t, '.')[i])
    ensures DecimalParts(whole, frac) && t == whole + Fraction(frac)
  {
    var parts := Split(t, '.');
    SplitJoins(t, '.');
    whole := parts[0];
    frac := if |parts| == 2 then parts[1] else "";
    assert |parts| == 1 ==> whole + "" == whole;
  }

  /** The accepted strings are exactly the texts of decimal numbers. */
  lemma HumanSyntaxParts(s: string) returns (negative: bool, whole: string, frac: string)
    requires HumanSyntax(s)
    ensures DecimalParts(whole, frac) && s == Decimal(negative, whole, frac)
  {
    negative := s != "" && s[0] == '-';
    var t := if negative then s[1..] else s;
    assert s == Minus(negative) + t;
    whole, frac := DottedParts(t);
  }

  lemma SplitDecimal(whole: string, frac: string)
    requires DecimalParts(whole, frac)
    ensures Split(whole + Fraction(frac), '.') == if frac == "" then [whole] else [whole, frac]
  {
    DigitsHaveNo(whole, '.');
    DigitsHaveNo(frac, '.');
    if frac == "" {
      SplitNone(whole, '.');
      assert whole + "" == whole;
    } else {
      SplitFirst(whole, frac, '.');
      SplitNone(frac, '.');
      assert whole + ("." + frac) == whole + ['.'] + frac;
    }
  }

  lemma DecimalIsHuman(negative: bool, whole: string, frac: string)
    requires DecimalParts(whole, frac)
    ensures HumanSyntax(Decimal(negative, whole, frac))
  {
    SplitDecimal(whole, frac);
    var t := whole + Fraction(frac);
    var s := Decimal(negative, whole, frac);
    if negative {
      assert s[0] == '-' && s[1..] == t;
    } else {
      assert s == t && s[0] == whole[0] && IsDigit(s[0]);
    }
  }

  // ----- ExactAmount ---------------------------------------------------------------------------

  datatype AmountError = InvalidSyntax | TooManyFractionDigits | BigIntError

  datatype ExactAmount = ExactAmount(value: int) {

    /** `ExactAmount.fromHuman(human, decimals)`. */
    static function FromHuman(human: string, decimals: nat): Result<ExactAmount, AmountError> {
      if !HumanSyntax(human) then Err(InvalidSyntax)
      else
        var parts := Split(human, '.');
        var intPart := parts[0];
        var fracPart := if |parts| > 1 then parts[1] else "";
        var fracPadded := Take(PadEnd(fracPart, decimals), decimals);
        if |fracPart| > decimals then Err(TooManyFractionDigits)
        else
          var sign := Minus(StartsNegative(intPart));
          var absInt := if StartsNegative(intPart) then intPart[1..] else intPart;
          match BigIntOf(sign + (absInt + fracPadded))
          case Some(v) => Ok(ExactAmount(v))
          case None => Err(BigIntError)
    }

    /** `toDisplay(decimals)`. */
    function ToDisplay(decimals: nat): string {
      var sign := Minus(value < 0);
      var digits := PadStart(NatText(Abs(value)), decimals + 1);
      var intPart := digits[..|digits| - decimals];
      var fracPart := digits[|digits| - decimals..];
      if decimals == 0 then sign + intPart else sign + intPart + "." + fracPart
    }
  }

  predicate StartsNegative(s: string) {
    s != "" && s[0] == '-'
  }

  function Abs(v: int): nat {
    if v < 0 then -v else v
  }

  lemma {:induction false} Pow10Add(a: nat, b: nat)
    ensures Pow10(a + b) == Pow10(a) * Pow10(b)
  {
    if a > 0 {
      Pow10Add(a - 1, b);
      assert 10 * (Pow10(a - 1) * Pow10(b)) == (10 * Pow10(a - 1)) * Pow10(b);
    }
  }

  lemma SplitHuman(negative: bool, whole: string, frac: string)
    requires DecimalParts(whole, frac)
    ensures Split(Decimal(negative, whole, frac), '.') ==
            if frac == "" then [Minus(negative) + whole] else [Minus(negative) + whole, frac]
  {
    var intPart := Minus(negative) + whole;
    DigitsHaveNo(whole, '.');
    DigitsHaveNo(frac, '.');
    assert '.' !in intPart;
    if frac == "" {
      assert Decimal(negative, whole, frac) == intPart;
      SplitNone(intPart, '.');
    } else {
      assert Decimal(negative, whole, frac) == intPart + ['.'] + frac;
      SplitFirst(intPart, frac, '.');
      SplitNone(frac, '.');
    }
  }

  lemma SignOf(negative: bool, whole: string)
    requires whole != "" && AllDigits(whole)
    ensures StartsNegative(Minus(negative) + whole) == negative
    ensures negative ==> (Minus(negative) + whole)[1..] == whole
    ensures !negative ==> Minus(negative) + whole == whole
  {
    assert IsDigit(whole[0]);
  }

  lemma PaddedFraction(frac: string, decimals: nat)
    requires |frac| <= decimals
    ensures Take(PadEnd(frac, decimals), decimals) == frac + Zeros(decimals - |frac|)
  {
  }

  lemma ScaledDigits(whole: string, frac: string, k: nat)
    requires DecimalParts(whole, frac)
    ensures var digits := whole + (frac + Zeros(k));
            digits != "" && AllDigits(digits) && NatValue(digits) == NatValue(whole + frac) * Pow10(k)
  {
    ZerosValue(k);
    NatValueConcat(whole, frac);
    NatValueConcat(whole + frac, Zeros(k));
    assert whole + (frac + Zeros(k)) == (whole + frac) + Zeros(k);
  }

  /** The number written by the digits, scaled by 10^k, with its sign. */
  function Scaled(negative: bool, digits: string, k: nat): int
    requires AllDigits(digits)
  {
    Signed(negative, NatValue(digits) * Pow10(k))
  }

  /** `fromHuman` on decimal text: the digits of integer and fraction, filled up with zeros. */
  lemma FromHumanValue(negative: bool, whole: string, frac: string, decimals: nat)
    requires DecimalParts(whole, frac)
    ensures |frac| > decimals ==>
              ExactAmount.FromHuman(Decimal(negative, whole, frac), decimals) == Err(TooManyFractionDigits)
    ensures |frac| <= decimals ==>
              ExactAmount.FromHuman(Decimal(negative, whole, frac), decimals) ==
              Ok(ExactAmount(Scaled(negative, whole + frac, decimals - |frac|)))
  {
    if |frac| > decimals {
      HumanTooLong(negative, whole, frac, decimals);
    } else {
      ReadDigits(negative, whole, frac, decimals - |frac|);
      HumanReads(negative, whole, frac, decimals, Scaled(negative, whole + frac, decimals - |frac|));
    }
  }

  lemma ReadDigits(negative: bool, whole: string, frac: string, k: nat)
    requires DecimalParts(whole, frac)
    ensures BigIntOf(Minus(negative) + (whole + (frac + Zeros(k)))) == Some(Scaled(negative, whole + frac, k))
  {
    ScaledDigits(whole, frac, k);
    BigIntOfDigits(Minus(negative), whole + (frac + Zeros(k)));
  }

  /** The digits of decimal text are handed to `BigInt`, and what it reads is the amount. */
  lemma HumanReads(negative: bool, whole: string, frac: string, decimals: nat, v: int)
    requires DecimalParts(whole, frac) && |frac| <= decimals
    requires BigIntOf(Minus(negative) + (whole + (frac + Zeros(decimals - |frac|)))) == Some(v)
    ensures ExactAmount.FromHuman(Decimal(negative, whole, frac), decimals) == Ok(ExactAmount(v))
  {
    DecimalIsHuman(negative, whole, frac);
    SplitHuman(negative, whole, frac);
    SignOf(negative, whole);
    PaddedFraction(frac, decimals);
  }

  lemma HumanTooLong(negative: bool, whole: string, frac: string, decimals: nat)
    requires DecimalParts(whole, frac) && |frac| > decimals
    ensures ExactAmount.FromHuman(Decimal(negative, whole, frac), decimals) == Err(TooManyFractionDigits)
  {
    DecimalIsHuman(negative, whole, frac);
    SplitHuman(negative, whole, frac);
  }

  /**
   * `fromHuman` rejects a decimal text exactly when it has more than `decimals` fraction digits, and
   * otherwise returns the number written, scaled by 10^decimals: with k fraction digits the text
   * writes n / 10^k, and the result v satisfies v * 10^k == n * 10^decimals.
   */
  lemma FromHumanExact(negative: bool, whole: string, frac: string, decimals: nat)
    requires DecimalParts(whole, frac)
    ensures var r := ExactAmount.FromHuman(Decimal(negative, whole, frac), decimals);
            && (r.Ok? <==> |frac| <= decimals)
            && (r.Err? <==> r == Err(TooManyFractionDigits))
            && (r.Ok? ==> r.value.value * Pow10(|frac|) == Signed(negative, NatValue(whole + frac)) * Pow10(decimals))
  {
    FromHumanValue(negative, whole, frac, decimals);
    if |frac| <= decimals {
      ScaledPower(negative, NatValue(whole + frac), |frac|, decimals);
    }
  }

  lemma ScaledPower(negative: bool, n: nat, k: nat, decimals: nat)
    requires k <= decimals
    ensures Signed(negative, n * Pow10(decimals - k)) * Pow10(k) == Signed(negative, n) * Pow10(decimals)
  {
    Pow10Add(decimals - k, k);
    ScaledBack(negative, n, Pow10(decimals - k), Pow10(k));
  }

  /** Everything else is rejected: an accepted string is a decimal text with at most `decimals` fraction digits. */
  lemma FromHumanAcceptsOnly(human: string, decimals: nat) returns (negative: bool, whole: string, frac: string)
    requires ExactAmount.FromHuman(human, decimals).Ok?
    ensures DecimalParts(whole, frac) && |frac| <= decimals && human == Decimal(negative, whole, frac)
  {
    negative, whole, frac := HumanSyntaxParts(human);
    FromHumanExact(negative, whole, frac, decimals);
  }

  lemma ScaledBack(negative: bool, n: nat, p: nat, q: nat)
    ensures Signed(negative, n * p) * q == Signed(negative, n) * (p * q)
  {
  }

  /** `toDisplay` prints decimal text with exactly `decimals` fraction digits. */
  lemma ToDisplayParts(v: int, decimals: nat) returns (whole: string, frac: string)
    ensures DecimalParts(whole, frac) && |frac| == decimals
    ensures ExactAmount(v).ToDisplay(decimals) == Decimal(v < 0, whole, frac)
    ensures NatValue(whole + frac) == Abs(v)
  {
    var digits := PadStart(NatText(Abs(v)), decimals + 1);
    PaddedDigits(Abs(v), decimals + 1);
    whole := digits[..|digits| - decimals];
    frac := digits[|digits| - decimals..];
    assert whole + frac == digits;
    PointBetween(Minus(v < 0), whole, frac);
  }

  lemma PointBetween(sign: string, whole: string, frac: string)
    ensures sign + whole + "." + frac == sign + (whole + ("." + frac))
    ensures sign + whole == sign + (whole + "")
  {
  }

  lemma PaddedDigits(n: nat, width: nat)
    ensures var digits := PadStart(NatText(n), width);
            AllDigits(digits) && |digits| >= width && NatValue(digits) == n
  {
    var text := NatText(n);
    if |text| < width {
      LeadingZeros(width - |text|, text);
    }
  }

  /** Decimal round trip, for every integer and every number of decimals. */
  lemma DisplayRoundTrip(v: int, decimals: nat)
    ensures ExactAmount.FromHuman(ExactAmount(v).ToDisplay(decimals), decimals) == Ok(ExactAmount(v))
  {
    var whole, frac := ToDisplayParts(v, decimals);
    FromHumanValue(v < 0, whole, frac, decimals);
    assert Pow10(0) == 1;
  }
}

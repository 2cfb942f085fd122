/** Quest accounting amounts: validated minor units that never mix assets. */
module BackendAmount {

  import opened Sequences
  import opened DecimalText
  import SafeAmount

  /** The `amount` field of an action payload; a number comes as the text it prints. */
  datatype Payload = NoPayload | OtherType | Written(text: string)

  datatype AmountError =
    | MissingPayload | NotStringOrNumber | EmptyAmount | NotInteger | NegativeAmount | MissingAsset
    | MixedAssets(left: string, right: string)

  datatype Amount = Amount(raw: int, assetCode: string, decimals: nat) {

    static function Zero(assetCode: string, decimals: nat): Amount {
      Amount(0, assetCode, decimals)
    }

    /** `Amount.fromPayload`. */
    static function FromPayload(payload: Payload, poolAssetCode: string, decimals: nat): Result<Amount, AmountError> {
      match payload
      case NoPayload => Err(MissingPayload)
      case OtherType => Err(NotStringOrNumber)
      case Written(text) =>
        var normalized := Trim(text);
        if normalized == "" then Err(EmptyAmount)
        else if !IntegerSyntax(normalized) then Err(NotInteger)
        else
          match BigIntOf(normalized)
          case None => Err(NotInteger)
          case Some(v) =>
            if v < 0 then Err(NegativeAmount)
            else if poolAssetCode == "" then Err(MissingAsset)
            else Ok(Amount(v, poolAssetCode, decimals))
    }

    function Add(other: Amount): Result<Amount, AmountError> {
      if assetCode != other.assetCode then Err(MixedAssets(assetCode, other.assetCode))
      else Ok(Amount(raw + other.raw, assetCode, decimals))
    }

    /** `toDisplayString()`. */
    function ToDisplayString(): string {
      var padded := SafeAmount.PadStart(NatText(SafeAmount.Abs(raw)), decimals + 1);
      var head := padded[..|padded| - decimals];
      var wholePart := if head != "" then head else "0";
      var fractionalPart := if decimals > 0 then padded[|padded| - decimals..] else "";
      var sign := SafeAmount.Minus(raw < 0);
      if fractionalPart != "" then sign + wholePart + "." + fractionalPart else sign + wholePart
    }
  }

  /** `/^-?\d+$/.test(s)`. */
  predicate IntegerSyntax(s: string) {
    var t := if s != "" && s[0] == '-' then s[1..] else s;
    t != "" && AllDigits(t)
  }

  /** `amounts.reduce((total, a) => total.add(a), total)`. */
  function SumFrom(total: Amount, amounts: seq<Amount>): Result<Amount, AmountError>
    decreases amounts
  {
    if amounts == [] then Ok(total)
    else
      match total.Add(amounts[0])
      case Err(e) => Err(e)
      case Ok(next) => SumFrom(next, amounts[1..])
  }

  /** `Amount.sum(amounts, assetCode, decimals)`. */
  function SumOf(amounts: seq<Amount>, assetCode: string, decimals: nat): Result<Amount, AmountError> {
    SumFrom(Amount.Zero(assetCode, decimals), amounts)
  }

  function Raws(amounts: seq<Amount>): seq<int> {
    Map((a: Amount) => a.raw, amounts)
  }

  /** The two printers of amounts, written independently, print the same text. */
  lemma PrintersAgree(a: Amount)
    ensures a.ToDisplayString() == SafeAmount.ExactAmount(a.raw).ToDisplay(a.decimals)
  {
    var padded := SafeAmount.PadStart(NatText(SafeAmount.Abs(a.raw)), a.decimals + 1);
    assert |padded| > a.decimals;
    assert padded[..|padded| - a.decimals] != "";
    assert a.decimals > 0 ==> padded[|padded| - a.decimals..] != "";
  }

  /**
   * A payload is accepted exactly when, without surrounding white space, it is an integer that is not
   * negative and the pool has an asset; the amount is that integer.
   */
  lemma FromPayloadExact(payload: Payload, asset: string, decimals: nat, v: int)
    ensures Amount.FromPayload(payload, asset, decimals) == Ok(Amount(v, asset, decimals)) <==>
      && asset != "" && v >= 0 && payload.Written?
      && exists negative, digits :: WritesInteger(Trim(payload.text), negative, digits, v)
  {
    if payload.Written? {
      var t := Trim(payload.text);
      if IntegerSyntax(t) {
        var negative := t[0] == '-';
        var digits := if negative then t[1..] else t;
        BigIntOfDigits(SafeAmount.Minus(negative), digits);
        assert t == SafeAmount.Minus(negative) + digits;
        assert WritesInteger(t, negative, digits, Signed(negative, NatValue(digits)));
      }
      forall negative, digits | WritesInteger(t, negative, digits, v)
        ensures IntegerSyntax(t) && BigIntOf(t) == Some(v)
      {
        BigIntOfDigits(SafeAmount.Minus(negative), digits);
        SafeAmount.SignOf(negative, digits);
      }
    }
  }

  predicate WritesInteger(t: string, negative: bool, digits: string, v: int) {
    && digits != "" && AllDigits(digits)
    && t == SafeAmount.Minus(negative) + digits
    && v == Signed(negative, NatValue(digits))
  }

  /** A sum exists exactly when every amount is of the asset summed; it is then the sum of the minor units. */
  lemma {:induction false} SumExact(total: Amount, amounts: seq<Amount>)
    ensures SumFrom(total, amounts).Ok? <==> forall a | a in amounts :: a.assetCode == total.assetCode
    ensures SumFrom(total, amounts).Ok? ==>
              SumFrom(total, amounts).value == Amount(total.raw + Sum(Raws(amounts)), total.assetCode, total.decimals)
    decreases amounts
  {
    if amounts != [] {
      var next := total.Add(amounts[0]);
      assert Raws(amounts)[1..] == Raws(amounts[1..]);
      if next.Ok? {
        SumExact(next.value, amounts[1..]);
      } else {
        assert amounts[0] in amounts;
      }
    }
  }

  /** Whether a sum exists, and its value, do not depend on the order of the amounts. */
  lemma SumForgetsOrder(a: seq<Amount>, b: seq<Amount>, assetCode: string, decimals: nat)
    requires multiset(a) == multiset(b)
    ensures SumOf(a, assetCode, decimals).Ok? == SumOf(b, assetCode, decimals).Ok?
    ensures SumOf(a, assetCode, decimals).Ok? ==> SumOf(a, assetCode, decimals) == SumOf(b, assetCode, decimals)
  {
    SumExact(Amount.Zero(assetCode, decimals), a);
    SumExact(Amount.Zero(assetCode, decimals), b);
    MapPermutation((x: Amount) => x.raw, a, b);
    SumPermutation(Raws(a), Raws(b));
    assert forall x :: x in a <==> x in multiset(a);
    assert forall x :: x in b <==> x in multiset(b);
  }
}

/** What `parseAssetAmount` returns for every string that is a number, and for which it throws. */
module ParseOutcome {

  import opened Sequences
  import opened DecimalText
  import opened SafeAmount
  import opened Formatting
  import opened NumericText

  // ----- What BigInt makes of the text it is handed ------------------------------------------------

  lemma BigIntSurrounded(before: string, core: string, after: string)
    requires Spaces(before) && Spaces(after)
    requires core != "" && !IsSpace(core[0]) && !IsSpace(core[|core| - 1])
    ensures BigIntOf(before + (core + after)) == BigIntOf(core)
  {
    TrimSurrounded(before, core, after);
    TrimKeeps(core);
  }

  lemma BigIntBlank(before: string, after: string)
    requires Spaces(before) && Spaces(after)
    ensures BigIntOf(before + after) == Some(0)
  {
    TrimBlank(before, after);
  }

  lemma BigIntOfSigned(sign: string, digits: string)
    requires Sign(sign) && digits != "" && AllDigits(digits)
    ensures BigIntOf(sign + digits) == Some(Signed(sign == "-", NatValue(digits)))
  {
    if sign == "+" {
      var t := sign + digits;
      assert IsDigit(digits[|digits| - 1]) && t[|t| - 1] == digits[|digits| - 1];
      TrimKeeps(t);
      assert t[0] == '+' && t[1..] == digits;
    } else {
      BigIntOfDigits(sign, digits);
    }
  }

  lemma SignedSurrounded(before: string, sign: string, digits: string, after: string)
    requires Spaces(before) && Spaces(after) && Sign(sign) && digits != "" && AllDigits(digits)
    ensures BigIntOf(before + ((sign + digits) + after)) == Some(Signed(sign == "-", NatValue(digits)))
  {
    var core := sign + digits;
    assert IsDigit(digits[0]) && IsDigit(digits[|digits| - 1]);
    assert core[|core| - 1] == digits[|digits| - 1];
    assert core[0] == digits[0] || core[0] == sign[0];
    BigIntSurrounded(before, core, after);
    BigIntOfSigned(sign, digits);
  }

  /** A character that is no digit, behind the first place, makes decimal text unreadable. */
  lemma NoInteger(s: string, t: string, i: nat)
    requires Trim(s) == t && 1 <= i < |t| && !IsDigit(t[i]) && PrefixRadix(t).None?
    ensures BigIntOf(s) == None
  {
    assert t[1..][i - 1] == t[i];
  }

  /** What stands before the offending character: anything but white space, then digits. */
  predicate Head(head: string) {
    head != "" && !IsSpace(head[0]) && forall i | 1 <= i < |head| :: IsDigit(head[i])
  }

  predicate Offends(c: char) {
    !IsDigit(c) && c !in "xXoObB"
  }

  lemma HeadHasNoRadix(head: string, c: char, tail: string)
    requires Head(head) && Offends(c)
    ensures PrefixRadix(head + ([c] + tail)).None?
  {
    var t := head + ([c] + tail);
    if |head| == 1 {
      assert t[1] == c;
    } else {
      assert t[1] == head[1] && IsDigit(head[1]);
    }
  }

  lemma BadMiddle(before: string, head: string, c: char, tail: string)
    requires Spaces(before) && Head(head) && Offends(c) && !IsSpace(c)
    ensures BigIntOf(before + (head + ([c] + tail))) == None
  {
    var s := before + (head + ([c] + tail));
    TrimLeftSpaces(before, head + ([c] + tail));
    Associate(head, [c], tail);
    var kept := TrimRightKeeps(head + [c], tail);
    Associate(head, [c], kept);
    assert (head + ([c] + tail))[0] == head[0];
    HeadHasNoRadix(head, c, kept);
    NoInteger(s, head + ([c] + kept), |head|);
  }

  lemma SpaceInside(before: string, head: string, after: string, d: nat)
    requires Spaces(before) && Head(head) && NoSpace(head) && Spaces(after) && after != "" && d > 0
    ensures BigIntOf(before + (head + (after + Zeros(d)))) == None
  {
    var core := head + (after + Zeros(d));
    assert IsSpace(after[0]);
    assert core[0] == head[0] && core[|core| - 1] == '0';
    assert core + "" == core;
    TrimSurrounded(before, core, "");
    assert after + Zeros(d) == [after[0]] + (after[1..] + Zeros(d));
    HeadHasNoRadix(head, after[0], after[1..] + Zeros(d));
    assert core[|head|] == after[0];
    NoInteger(before + core, core, |head|);
  }

  lemma {:induction false} RadixBad(s: string, radix: nat, i: nat)
    requires i < |s| && RadixDigit(s[i]) >= radix
    ensures RadixValue(s, radix) == None
  {
    if i < |s| - 1 {
      RadixBad(s[..|s| - 1], radix, i);
    }
  }

  lemma {:induction false} RadixScaled(digits: string, radix: nat, d: nat)
    requires RadixValue(digits, radix).Some? && radix > 0
    ensures RadixValue(digits + Zeros(d), radix) == Some(RadixValue(digits, radix).value * Power(radix, d))
  {
    if d == 0 {
      assert digits + Zeros(0) == digits;
    } else {
      RadixScaled(digits, radix, d - 1);
      var s := digits + Zeros(d);
      assert s[|s| - 1] == '0' && s[..|s| - 1] == digits + Zeros(d - 1) by {
        assert forall i | 0 <= i < d - 1 :: Zeros(d)[i] == Zeros(d - 1)[i];
      }
      Reorder(radix, RadixValue(digits, radix).value, Power(radix, d - 1));
    }
  }

  lemma Reorder(a: nat, b: nat, c: nat)
    ensures a * (b * c) == b * (a * c)
  {
  }

  // ----- The outcome ---------------------------------------------------------------------------------

  function RadixNumber(prefix: string, digits: string, d: nat): int
    requires |prefix| == 2 && PrefixRadix(prefix).Some? && RadixValue(digits, PrefixRadix(prefix).value).Some?
  {
    RadixValue(digits, PrefixRadix(prefix).value).value * Power(PrefixRadix(prefix).value, d)
  }

  /**
   * What a literal with this white space behind it is read as. With a prefix the zeros count in that
   * radix. Behind a point, `d` digits suffice and the rest, an exponent included, is dropped; with fewer
   * digits an exponent throws, and white space throws or, if long enough, takes the place of the zeros.
   */
  function Outcome(l: Literal, after: string, d: nat): Result<int, string>
    requires LiteralOk(l)
  {
    match l
    case Blank => Ok(0)
    case Infinite(_) => Err("SyntaxError")
    case Radix(prefix, digits) =>
      if after == "" || d == 0 then Ok(RadixNumber(prefix, digits, d)) else Err("SyntaxError")
    case Finite(sign, whole, point, frac, exponent) =>
      if !point then
        if exponent == "" && (after == "" || d == 0) then Ok(Scaled(sign == "-", whole, d)) else Err("SyntaxError")
      else if |frac| >= d then
        if whole == "" && d == 0 && sign != "" then Err("SyntaxError")
        else Ok(Signed(sign == "-", NatValue(whole + frac[..d])))
      else if exponent == "" && after == "" then Ok(Scaled(sign == "-", whole + frac, d - |frac|))
      else if exponent == "" && |after| >= d - |frac| then Ok(Signed(sign == "-", NatValue(whole + frac)))
      else Err("SyntaxError")
  }

  function AsAmount(v: Option<int>): Result<int, string> {
    match v
    case Some(n) => Ok(n)
    case None => Err("SyntaxError")
  }

  lemma SpacesHaveNoPoint(s: string)
    requires Spaces(s)
    ensures '.' !in s
  {
  }

  /** Without a point, all of the text is handed to `BigInt`, with zeros behind it. */
  lemma WholeIsRead(value: string, d: nat)
    requires IsNumeric(value) && value != "" && '.' !in value
    ensures ParseScaled(value, d) == AsAmount(BigIntOf(value + Zeros(d)))
  {
    SplitNone(value, '.');
    assert PadEnd(Take("", d), d) == Zeros(d) by {
      assert "" + Zeros(d) == Zeros(d);
    }
  }

  /** With a point, the text before it and `d` characters from behind it. */
  lemma PointIsRead(value: string, left: string, right: string, d: nat)
    requires IsNumeric(value) && value == left + ['.'] + right && '.' !in left && '.' !in right
    ensures ParseScaled(value, d) == AsAmount(BigIntOf(left + PadEnd(Take(right, d), d)))
  {
    SplitFirst(left, right, '.');
    SplitNone(right, '.');
  }

  // ----- The forms without a point -------------------------------------------------------------------

  lemma BlankOutcome(before: string, after: string, d: nat)
    requires Spaces(before) && Spaces(after)
    ensures BigIntOf((before + ("" + after)) + Zeros(d)) == Some(0)
  {
    var s := before + after;
    assert "" + after == after;
    if d == 0 {
      assert s + Zeros(0) == s;
      BigIntBlank(before, after);
    } else {
      ZerosValue(d);
      assert "" + Zeros(d) == Zeros(d) && Zeros(d) + "" == Zeros(d);
      SignedSurrounded(s, "", Zeros(d), "");
    }
  }

  lemma InfiniteOutcome(before: string, sign: string, after: string, d: nat)
    requires Spaces(before) && Sign(sign)
    ensures BigIntOf((before + ((sign + "Infinity") + after)) + Zeros(d)) == None
  {
    var s := (before + ((sign + "Infinity") + after)) + Zeros(d);
    if sign == "" {
      var tail := "finity" + after + Zeros(d);
      assert s == before + ("I" + (['n'] + tail));
      BadMiddle(before, "I", 'n', tail);
    } else {
      var tail := "nfinity" + after + Zeros(d);
      assert s == before + (sign + (['I'] + tail));
      BadMiddle(before, sign, 'I', tail);
    }
  }

  lemma RadixOutcome(before: string, prefix: string, digits: string, after: string, d: nat)
    requires Spaces(before) && Spaces(after) && LiteralOk(Radix(prefix, digits))
    ensures AsAmount(BigIntOf((before + ((prefix + digits) + after)) + Zeros(d))) == Outcome(Radix(prefix,
              digits), after, d)
  {
    var radix := PrefixRadix(prefix).value;
    RadixDigits(digits, radix);
    if after == "" {
      RadixScaled(digits, radix, d);
      RadixRead(before, prefix, digits + Zeros(d), "");
      RegroupEnd(before, prefix, digits, Zeros(d));
    } else if d == 0 {
      RadixScaled(digits, radix, 0);
      assert digits + Zeros(0) == digits;
      RadixRead(before, prefix, digits, after);
      assert (before + ((prefix + digits) + after)) + Zeros(0) == before + ((prefix + digits) + after);
    } else {
      var all := digits + (after + Zeros(d));
      RadixRead(before, prefix, all, "");
      assert all[|digits|] == after[0] && IsSpace(after[0]);
      RadixBad(all, radix, |digits|);
      RegroupMiddle(before, prefix, digits, after, Zeros(d));
    }
  }

  lemma RegroupEnd(before: string, prefix: string, digits: string, zeros: string)
    ensures (before + ((prefix + digits) + "")) + zeros == before + ((prefix + (digits + zeros)) + "")
  {
  }

  lemma RegroupMiddle(before: string, prefix: string, digits: string, after: string, zeros: string)
    ensures (before + ((prefix + digits) + after)) + zeros == before + ((prefix + (digits + (after + zeros))) + "")
  {
  }

  lemma RadixRead(before: string, prefix: string, rest: string, after: string)
    requires Spaces(before) && Spaces(after) && |prefix| == 2 && PrefixRadix(prefix).Some?
    requires rest != "" && !IsSpace(rest[|rest| - 1])
    ensures BigIntOf(before + ((prefix + rest) + after)) == RadixValue(rest, PrefixRadix(prefix).value)
  {
    var core := prefix + rest;
    assert core[0] == prefix[0] == '0' && core[|core| - 1] == rest[|rest| - 1];
    BigIntSurrounded(before, core, after);
    TrimKeeps(core);
    RadixText(prefix, rest);
  }

  lemma SignedHead(sign: string, digits: string)
    requires Sign(sign) && AllDigits(digits) && digits != ""
    ensures Head(sign + digits) && NoSpace(sign + digits)
  {
    DigitsNoSpace(digits);
    NoSpaceConcat(sign, digits);
    forall i | 1 <= i < |sign + digits| ensures IsDigit((sign + digits)[i]) {
      assert (sign + digits)[i] == digits[i - |sign|];
    }
  }

  lemma IntegerOutcome(before: string, sign: string, whole: string, exponent: string, after: string, d: nat)
    requires Spaces(before) && Spaces(after) && LiteralOk(Finite(sign, whole, false, "", exponent))
    ensures AsAmount(BigIntOf((before + ((sign + (whole + exponent)) + after)) + Zeros(d)))
         == Outcome(Finite(sign, whole, false, "", exponent), after, d)
  {
    if exponent != "" {
      ExponentBehind(before, sign, whole, exponent, after, d);
    } else {
      assert whole + "" == whole;
      IntegerThenSpaces(before, sign, whole, after, d);
    }
  }

  lemma ExponentBehind(before: string, sign: string, whole: string, exponent: string, after: string, d: nat)
    requires Spaces(before) && Sign(sign) && AllDigits(whole) && whole != ""
    requires exponent != "" && exponent[0] in "eE"
    ensures BigIntOf((before + ((sign + (whole + exponent)) + after)) + Zeros(d)) == None
  {
    SignedHead(sign, whole);
    RegroupExponent(before, sign, whole, exponent, after, Zeros(d));
    BadMiddle(before, sign + whole, exponent[0], exponent[1..] + after + Zeros(d));
  }

  lemma IntegerThenSpaces(before: string, sign: string, whole: string, after: string, d: nat)
    requires Spaces(before) && Spaces(after) && Sign(sign) && AllDigits(whole) && whole != ""
    ensures BigIntOf((before + ((sign + whole) + after)) + Zeros(d)) ==
            if after == "" || d == 0 then Some(Scaled(sign == "-", whole, d)) else None
  {
    Associate(before, (sign + whole) + after, Zeros(d));
    Associate(sign + whole, after, Zeros(d));
    if after == "" {
      assert after + Zeros(d) == Zeros(d);
      ZerosFillIn(before, sign, whole, d);
    } else if d == 0 {
      assert after + Zeros(0) == after;
      ZerosBehind(whole, 0);
      assert whole + Zeros(0) == whole;
      SignedSurrounded(before, sign, whole, after);
    } else {
      SignedHead(sign, whole);
      SpaceInside(before, sign + whole, after, d);
    }
  }

  lemma RegroupExponent(before: string, sign: string, whole: string, exponent: string, after: string, zeros: string)
    requires exponent != ""
    ensures (before + ((sign + (whole + exponent)) + after)) + zeros
         == before + ((sign + whole) + ([exponent[0]] + (exponent[1..] + after + zeros)))
  {
    assert exponent == [exponent[0]] + exponent[1..];
  }

  lemma ZerosBehind(digits: string, k: nat)
    requires AllDigits(digits)
    ensures AllDigits(digits + Zeros(k)) && NatValue(digits + Zeros(k)) == NatValue(digits) * Pow10(k)
  {
    ZerosValue(k);
    NatValueConcat(digits, Zeros(k));
  }

  // ----- The forms with a point ----------------------------------------------------------------------

  /** The digits behind the point are enough: what follows them is not looked at. */
  lemma EnoughDigits(before: string, sign: string, whole: string, frac: string, rest: string, d: nat)
    requires Spaces(before) && Sign(sign) && AllDigits(whole) && AllDigits(frac) && |frac| >= d
    requires whole != "" || frac != ""
    ensures BigIntOf((before + (sign + whole)) + PadEnd(Take(frac + rest, d), d))
         == if whole == "" && d == 0 && sign != "" then None else Some(Signed(sign == "-", NatValue(whole + frac[..d])))
  {
    TakeEnough(frac, rest, d);
    NothingBehind(before, sign, whole, frac[..d]);
    SignedOrNothing(before, sign, whole + frac[..d]);
  }

  lemma TakeEnough(frac: string, rest: string, d: nat)
    requires |frac| >= d
    ensures PadEnd(Take(frac + rest, d), d) == frac[..d]
  {
  }

  lemma NothingBehind(before: string, sign: string, whole: string, kept: string)
    ensures (before + (sign + whole)) + kept == before + ((sign + (whole + kept)) + "")
  {
  }

  /** Digits, or nothing, behind a sign: a sign alone is no integer, and no text at all is 0. */
  lemma SignedOrNothing(before: string, sign: string, digits: string)
    requires Spaces(before) && Sign(sign) && AllDigits(digits)
    ensures BigIntOf(before + ((sign + digits) + ""))
         == if digits == "" && sign != "" then None else Some(Signed(sign == "-", NatValue(digits)))
  {
    if digits != "" {
      SignedSurrounded(before, sign, digits, "");
    } else if sign == "" {
      BigIntBlank(before, "");
      assert before + ((sign + digits) + "") == before + "";
    } else {
      TrimSurrounded(before, sign, "");
      assert sign + digits == sign && sign[1..] == "";
    }
  }

  /** Too few digits, and nothing behind them: zeros are filled in. */
  lemma ZerosFillIn(before: string, sign: string, digits: string, k: nat)
    requires Spaces(before) && Sign(sign) && AllDigits(digits) && digits != ""
    ensures BigIntOf(before + ((sign + digits) + Zeros(k))) == Some(Scaled(sign == "-", digits, k))
  {
    ZerosBehind(digits, k);
    SignedSurrounded(before, sign, digits + Zeros(k), "");
    assert before + ((sign + digits) + Zeros(k)) == before + ((sign + (digits + Zeros(k))) + "");
  }

  lemma FewDigits(before: string, sign: string, whole: string, frac: string, exponent: string, after: string, d: nat)
    requires Spaces(before) && Spaces(after) && LiteralOk(Finite(sign, whole, true, frac, exponent)) && |frac| < d
    ensures AsAmount(BigIntOf((before + (sign + whole)) + PadEnd(Take(frac + (exponent + after), d), d)))
         == Outcome(Finite(sign, whole, true, frac, exponent), after, d)
  {
    FewDigitsText(before + (sign + whole), frac, exponent + after, d);
    RegroupPoint(before, sign, whole, frac, PadEnd(Take(exponent + after, d - |frac|), d - |frac|));
    FewDigitsRead(before, sign, whole, frac, exponent, after, d);
  }

  lemma FewDigitsText(left: string, frac: string, rest: string, d: nat)
    requires |frac| < d
    ensures left + PadEnd(Take(frac + rest, d), d) == left + (frac + PadEnd(Take(rest, d - |frac|), d - |frac|))
  {
    FractionThenRest(frac, rest, d);
  }

  lemma FewDigitsRead(before: string, sign: string, whole: string, frac: string, exponent: string,
      after: string, d: nat)
    requires Spaces(before) && Spaces(after) && LiteralOk(Finite(sign, whole, true, frac, exponent)) && |frac| < d
    ensures AsAmount(BigIntOf(before + ((sign + (whole + frac)) + PadEnd(Take(exponent + after, d - |frac|),
              d - |frac|))))
         == Outcome(Finite(sign, whole, true, frac, exponent), after, d)
  {
    if exponent != "" {
      MarkBehindPoint(before, sign, whole + frac, exponent, after, d - |frac|);
    } else {
      assert exponent + after == after;
      SpacesFillIn(before, sign, whole + frac, after, d - |frac|);
    }
  }

  lemma MarkBehindPoint(before: string, sign: string, digits: string, exponent: string, after: string, k: nat)
    requires Spaces(before) && Sign(sign) && AllDigits(digits) && digits != "" && k > 0
    requires exponent != "" && exponent[0] in "eE"
    ensures BigIntOf(before + ((sign + digits) + PadEnd(Take(exponent + after, k), k))) == None
  {
    SignedHead(sign, digits);
    MarkKept(exponent, after, k);
    BadMiddle(before, sign + digits, exponent[0], PadEnd(Take(exponent + after, k), k)[1..]);
  }

  lemma MarkKept(exponent: string, after: string, k: nat)
    requires exponent != "" && k > 0
    ensures var tail := PadEnd(Take(exponent + after, k), k); tail != "" && tail == [exponent[0]] + tail[1..]
  {
    var tail := PadEnd(Take(exponent + after, k), k);
    assert tail[0] == exponent[0];
    HeadTail(tail);
  }

  lemma SpacesFillIn(before: string, sign: string, digits: string, after: string, k: nat)
    requires Spaces(before) && Spaces(after) && Sign(sign) && AllDigits(digits) && digits != "" && k > 0
    ensures BigIntOf(before + ((sign + digits) + PadEnd(Take(after, k), k))) ==
            if after == "" then Some(Scaled(sign == "-", digits, k))
            else if |after| >= k then Some(Signed(sign == "-", NatValue(digits)))
            else None
  {
    if after == "" {
      assert PadEnd(Take(after, k), k) == Zeros(k) by {
        assert "" + Zeros(k) == Zeros(k);
      }
      ZerosFillIn(before, sign, digits, k);
    } else if |after| >= k {
      assert PadEnd(Take(after, k), k) == after[..k];
      SignedSurrounded(before, sign, digits, after[..k]);
    } else {
      SignedHead(sign, digits);
      SpaceInside(before, sign + digits, after, k - |after|);
    }
  }

  lemma FractionThenRest(frac: string, rest: string, d: nat)
    requires |frac| < d
    ensures PadEnd(Take(frac + rest, d), d) == frac + PadEnd(Take(rest, d - |frac|), d - |frac|)
  {
    var k := d - |frac|;
    assert Take(frac + rest, d) == frac + Take(rest, k);
  }

  lemma RegroupPoint(before: string, sign: string, whole: string, frac: string, tail: string)
    ensures (before + (sign + whole)) + (frac + tail) == before + ((sign + (whole + frac)) + tail)
  {
  }

  lemma PointOutcome(before: string, l: Literal, after: string, d: nat)
    requires Spaces(before) && Spaces(after) && LiteralOk(l) && l.Finite? && l.point
    ensures ParseScaled(Written(before, l, after), d) == Outcome(l, after, d)
  {
    var left, right := before + (l.sign + l.whole), l.frac + (l.exponent + after);
    PointText(before, l, after);
    SidesHaveNoPoint(before, l, after);
    LiteralIsNumeric(Written(before, l, after), before, l, after);
    PointIsRead(Written(before, l, after), left, right, d);
    if |l.frac| >= d {
      EnoughDigits(before, l.sign, l.whole, l.frac, l.exponent + after, d);
    } else {
      FewDigits(before, l.sign, l.whole, l.frac, l.exponent, after, d);
    }
  }

  lemma PointText(before: string, l: Literal, after: string)
    requires l.Finite? && l.point
    ensures Written(before, l, after) == (before + (l.sign + l.whole)) + ['.'] + (l.frac + (l.exponent + after))
  {
  }

  lemma SidesHaveNoPoint(before: string, l: Literal, after: string)
    requires Spaces(before) && Spaces(after) && LiteralOk(l) && l.Finite?
    ensures '.' !in before + (l.sign + l.whole) && '.' !in l.frac + (l.exponent + after)
  {
    SpacesHaveNoPoint(before);
    SpacesHaveNoPoint(after);
    DigitsHaveNo(l.whole, '.');
    DigitsHaveNo(l.frac, '.');
    ExponentNoSpace(l.exponent);
  }

  // ----- Main results ----------------------------------------------------------------------------------

  lemma NoPointOutcome(before: string, l: Literal, after: string, d: nat)
    requires Spaces(before) && Spaces(after) && LiteralOk(l) && (l.Finite? ==> !l.point)
    requires Written(before, l, after) != ""
    ensures ParseScaled(Written(before, l, after), d) == Outcome(l, after, d)
  {
    var value := Written(before, l, after);
    LiteralIsNumeric(value, before, l, after);
    NoPointInside(before, l, after);
    WholeIsRead(value, d);
    match l
    case Blank => BlankOutcome(before, after, d);
    case Infinite(sign) => InfiniteOutcome(before, sign, after, d);
    case Radix(prefix, digits) => RadixOutcome(before, prefix, digits, after, d);
    case Finite(sign, whole, _, _, exponent) =>
      assert whole + PointPart(false, "") == whole;
      IntegerOutcome(before, sign, whole, exponent, after, d);
  }

  lemma NoPointInside(before: string, l: Literal, after: string)
    requires Spaces(before) && Spaces(after) && LiteralOk(l) && (l.Finite? ==> !l.point)
    ensures '.' !in Written(before, l, after)
  {
    SpacesHaveNoPoint(before);
    SpacesHaveNoPoint(after);
    match l
    case Blank =>
    case Infinite(sign) =>
    case Radix(prefix, digits) => RadixDigits(digits, PrefixRadix(prefix).value);
    case Finite(sign, whole, _, _, exponent) =>
      DigitsHaveNo(whole, '.');
      ExponentNoSpace(exponent);
  }

  /** What `parseAssetAmount` returns for every string that is a number, in every one of its forms. */
  lemma {:induction false} ParsesExactly(value: string, before: string, l: Literal, after: string, d: nat)
    requires Writes(value, before, l, after)
    ensures ParseScaled(value, d) == Outcome(l, after, d)
  {
    if l.Finite? && l.point {
      PointOutcome(before, l, after, d);
    } else if value != "" {
      NoPointOutcome(before, l, after, d);
    } else {
      LiteralNoSpace(l);
      assert l == Blank;
    }
  }

  /**
   * The literals that throw: an infinity; white space behind a prefixed or a plain integer; an exponent
   * that is not hidden behind `d` decimals; and white space that fills up part of the missing decimals.
   */
  predicate Throws(l: Literal, after: string, d: nat) {
    match l
    case Blank => false
    case Infinite(_) => true
    case Radix(_, _) => after != ""
    case Finite(_, _, point, frac, exponent) =>
      if !point then exponent != "" || after != ""
      else |frac| < d && (exponent != "" || 0 < |after| < d - |frac|)
  }

  /**
   * For every string and every asset: `parseAssetAmount` throws exactly on these literals, and reads 0 from
   * what is no number.
   */
  lemma {:induction false} ThrowsExactly(value: string, symbol: string)
    ensures ParseAssetAmount(value, symbol).Err? <==>
            exists before, l, after :: Writes(value, before, l, after) && Throws(l, after, AssetDecimals(symbol))
    ensures !IsNumeric(value) ==> ParseAssetAmount(value, symbol) == Ok(0)
  {
    var d := AssetDecimals(symbol);
    if ParseAssetAmount(value, symbol).Err? {
      var before, l, after := NumericIsLiteral(value);
      ParsesExactly(value, before, l, after, d);
      assert Throws(l, after, d);
    }
    if before, l, after :| Writes(value, before, l, after) && Throws(l, after, d) {
      ParsesExactly(value, before, l, after, d);
    }
  }
}

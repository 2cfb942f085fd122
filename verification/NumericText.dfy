/**
 * The syntax of the strings that are numbers to the host language (StringNumericLiteral, ECMA-262
 * section 7.1.4.1), and a proof that `Formatting.IsNumeric` accepts exactly those.
 */
module NumericText {

  import opened Sequences
  import opened DecimalText
  import opened SafeAmount
  import opened Formatting

  // ----- The syntax --------------------------------------------------------------------------

  /** A number without the white space around it. */
  datatype Literal =
    | Blank
    | Infinite(sign: string)
    | Radix(prefix: string, digits: string)
    | Finite(sign: string, whole: string, point: bool, frac: string, exponent: string)

  predicate Sign(s: string) {
    s == "" || s == "+" || s == "-"
  }

  /** Nothing, or an exponent mark, an optional sign and digits. */
  predicate ExponentPart(s: string) {
    s == "" || (s[0] in "eE" && Exponent(s[1..]))
  }

  predicate LiteralOk(l: Literal) {
    match l
    case Blank => true
    case Infinite(sign) => Sign(sign)
    case Radix(prefix, digits) =>
      |prefix| == 2 && PrefixRadix(prefix).Some? && digits != "" && RadixValue(digits, PrefixRadix(prefix).value).Some?
    case Finite(sign, whole, point, frac, exponent) =>
      && Sign(sign) && AllDigits(whole) && AllDigits(frac) && ExponentPart(exponent)
      && (whole != "" || frac != "") && (!point ==> frac == "")
  }

  function PointPart(point: bool, frac: string): string {
    if point then "." + frac else ""
  }

  function LiteralText(l: Literal): string {
    match l
    case Blank => ""
    case Infinite(sign) => sign + "Infinity"
    case Radix(prefix, digits) => prefix + digits
    case Finite(sign, whole, point, frac, exponent) => sign + ((whole + PointPart(point, frac)) + exponent)
  }

  predicate Spaces(s: string) {
    forall i | 0 <= i < |s| :: IsSpace(s[i])
  }

  predicate NoSpace(s: string) {
    forall i | 0 <= i < |s| :: !IsSpace(s[i])
  }

  /** A literal between white space. */
  function Written(before: string, l: Literal, after: string): string {
    before + (LiteralText(l) + after)
  }

  predicate Writes(value: string, before: string, l: Literal, after: string) {
    Spaces(before) && Spaces(after) && LiteralOk(l) && value == Written(before, l, after)
  }

  // ----- Trimming ----------------------------------------------------------------------------

  lemma {:induction false} TrimLeftSpaces(before: string, rest: string)
    requires Spaces(before)
    ensures TrimLeft(before + rest) == TrimLeft(rest)
  {
    if before == "" {
      assert before + rest == rest;
    } else {
      assert IsSpace(before[0]);
      TrimLeftSpaces(before[1..], rest);
      assert (before + rest)[1..] == before[1..] + rest;
    }
  }

  lemma {:induction false} TrimRightSpaces(rest: string, after: string)
    requires Spaces(after)
    ensures TrimRight(rest + after) == TrimRight(rest)
  {
    if after == "" {
      assert rest + after == rest;
    } else {
      var n := |after| - 1;
      assert IsSpace(after[n]);
      TrimRightSpaces(rest, after[..n]);
      assert (rest + after)[..|rest + after| - 1] == rest + after[..n];
    }
  }

  lemma TrimSurrounded(before: string, core: string, after: string)
    requires Spaces(before) && Spaces(after)
    requires core != "" && !IsSpace(core[0]) && !IsSpace(core[|core| - 1])
    ensures Trim(before + (core + after)) == core
  {
    TrimLeftSpaces(before, core + after);
    assert (core + after)[0] == core[0];
    TrimRightSpaces(core, after);
  }

  lemma TrimBlank(before: string, after: string)
    requires Spaces(before) && Spaces(after)
    ensures Trim(before + after) == ""
  {
    TrimLeftSpaces(before, after);
    TrimLeftSpaces(after, "");
    assert after + "" == after;
  }

  lemma {:induction false} TrimLeftParts(s: string) returns (before: string)
    ensures Spaces(before) && s == before + TrimLeft(s)
  {
    if s != "" && IsSpace(s[0]) {
      var rest := TrimLeftParts(s[1..]);
      before := [s[0]] + rest;
      HeadTail(s);
      ConsConcat(s[0], rest, TrimLeft(s[1..]));
      SpacesConcat([s[0]], rest);
    } else {
      before := "";
    }
  }

  lemma SpacesConcat(a: string, b: string)
    requires Spaces(a) && Spaces(b)
    ensures Spaces(a + b)
  {
  }

  lemma {:induction false} TrimRightParts(s: string) returns (after: string)
    ensures Spaces(after) && s == TrimRight(s) + after
  {
    if s != "" && IsSpace(s[|s| - 1]) {
      var front, last := s[..|s| - 1], s[|s| - 1];
      var rest := TrimRightParts(front);
      after := rest + [last];
      assert s == front + [last];
      Associate(TrimRight(front), rest, [last]);
      SpacesConcat(rest, [last]);
    } else {
      after := "";
    }
  }

  lemma TrimParts(s: string) returns (before: string, after: string)
    ensures Spaces(before) && Spaces(after) && s == before + (Trim(s) + after)
  {
    before := TrimLeftParts(s);
    after := TrimRightParts(TrimLeft(s));
  }

  /** Trimming on the right never reaches into a text that ends in something else than white space. */
  lemma {:induction false} TrimRightKeeps(head: string, tail: string) returns (kept: string)
    requires head != "" && !IsSpace(head[|head| - 1])
    ensures TrimRight(head + tail) == head + kept
  {
    if tail == "" {
      assert head + tail == head;
      kept := "";
    } else if IsSpace(tail[|tail| - 1]) {
      var s := head + tail;
      kept := TrimRightKeeps(head, tail[..|tail| - 1]);
      assert s[..|s| - 1] == head + tail[..|tail| - 1];
    } else {
      kept := tail;
    }
  }

  // ----- The syntax is exact -------------------------------------------------------------------

  lemma IndexOfFound(s: string, chars: string)
    ensures var i := IndexOf(s, chars);
            i <= |s| && (i < |s| ==> s[i] in chars) && forall k | 0 <= k < i :: s[k] !in chars
  {
  }

  lemma {:induction false} IndexOfSkips(a: string, b: string, chars: string)
    requires forall i | 0 <= i < |a| :: a[i] !in chars
    ensures IndexOf(a + b, chars) == |a| + IndexOf(b, chars)
  {
    if a == "" {
      assert a + b == b;
    } else {
      IndexOfSkips(a[1..], b, chars);
      assert (a + b)[1..] == a[1..] + b;
    }
  }

  lemma DigitsHaveNone(s: string, chars: string)
    requires AllDigits(s) && forall c | c in chars :: !IsDigit(c)
    ensures forall i | 0 <= i < |s| :: s[i] !in chars
  {
    forall i | 0 <= i < |s| ensures s[i] !in chars {
      assert IsDigit(s[i]);
    }
  }

  lemma MantissaText(whole: string, point: bool, frac: string)
    requires AllDigits(whole) && AllDigits(frac) && (whole != "" || frac != "") && (!point ==> frac == "")
    ensures Mantissa(whole + PointPart(point, frac))
    ensures forall i | 0 <= i < |whole + PointPart(point, frac)| :: (whole + PointPart(point, frac))[i] !in "eE"
  {
    var m := whole + PointPart(point, frac);
    DigitsHaveNone(whole, ".");
    IndexOfSkips(whole, PointPart(point, frac), ".");
    assert m[..|whole|] == whole;
    assert point ==> m[|whole| + 1..] == frac;
    MantissaHasNoMark(whole, point, frac);
  }

  lemma MantissaHasNoMark(whole: string, point: bool, frac: string)
    requires AllDigits(whole) && AllDigits(frac)
    ensures forall i | 0 <= i < |whole + PointPart(point, frac)| :: (whole + PointPart(point, frac))[i] !in "eE"
  {
    DigitsHaveNone(whole, "eE");
    DigitsHaveNone(frac, "eE");
  }

  lemma MantissaParts(m: string) returns (whole: string, point: bool, frac: string)
    requires Mantissa(m)
    ensures m == whole + PointPart(point, frac)
    ensures AllDigits(whole) && AllDigits(frac) && (whole != "" || frac != "") && (!point ==> frac == "")
  {
    var dot := IndexOf(m, ".");
    IndexOfFound(m, ".");
    whole, point := m[..dot], dot < |m|;
    if point {
      frac := m[dot + 1..];
      CutAtPoint(m, dot);
    } else {
      frac := "";
      assert whole == m && whole + "" == m;
    }
  }

  lemma CutAtPoint(m: string, dot: nat)
    requires dot < |m| && m[dot] == '.'
    ensures m == m[..dot] + ("." + m[dot + 1..])
  {
  }

  /** A mantissa followed by an exponent is found again. */
  lemma BodyIsDecimal(m: string, exponent: string)
    requires Mantissa(m) && ExponentPart(exponent) && forall i | 0 <= i < |m| :: m[i] !in "eE"
    ensures var t := m + exponent; var e := IndexOf(t, "eE");
            e == |m| && t[..e] == m && (e < |t| ==> Exponent(t[e + 1..]))
  {
    IndexOfSkips(m, exponent, "eE");
    var t := m + exponent;
    assert t[..|m|] == m;
    if exponent != "" {
      assert IndexOf(exponent, "eE") == 0;
      assert t[|m| + 1..] == exponent[1..];
    }
  }

  lemma UnsignedText(sign: string, body: string)
    requires Sign(sign) && body != "" && body[0] !in "+-"
    ensures Unsigned(sign + body) == body
  {
    if sign == "" {
      assert sign + body == body;
    } else {
      assert (sign + body)[1..] == body;
    }
  }

  lemma UnsignedParts(t: string) returns (sign: string)
    ensures Sign(sign) && t == sign + Unsigned(t)
  {
    if t != "" && t[0] in "+-" {
      sign := [t[0]];
      assert t == [t[0]] + t[1..];
    } else {
      sign := "";
    }
  }

  lemma FiniteIsDecimal(l: Literal)
    requires LiteralOk(l) && l.Finite?
    ensures DecimalLiteral(LiteralText(l))
  {
    var m := l.whole + PointPart(l.point, l.frac);
    MantissaText(l.whole, l.point, l.frac);
    BodyIsDecimal(m, l.exponent);
    FiniteBody(l);
    UnsignedText(l.sign, m + l.exponent);
  }

  lemma FiniteBody(l: Literal)
    requires LiteralOk(l) && l.Finite?
    ensures var m := l.whole + PointPart(l.point, l.frac);
            m != "" && m[0] !in "+-" && (m + l.exponent) != "" && (m + l.exponent)[0] == m[0]
  {
    var m := l.whole + PointPart(l.point, l.frac);
    if l.whole != "" {
      assert IsDigit(l.whole[0]) && m[0] == l.whole[0];
    } else {
      assert m[0] == '.';
    }
  }

  lemma BodyParts(sign: string, body: string) returns (l: Literal)
    requires Sign(sign)
    requires var e := IndexOf(body, "eE"); Mantissa(body[..e]) && (e < |body| ==> Exponent(body[e + 1..]))
    ensures LiteralOk(l) && LiteralText(l) == sign + body
  {
    var e := IndexOf(body, "eE");
    IndexOfFound(body, "eE");
    var whole, point, frac := MantissaParts(body[..e]);
    var exponent := body[e..];
    CutBody(body, e);
    l := Finite(sign, whole, point, frac, exponent);
  }

  lemma CutBody(body: string, e: nat)
    requires e <= |body|
    ensures body == body[..e] + body[e..] && (e < |body| ==> body[e..][1..] == body[e + 1..])
  {
  }

  lemma DecimalIsLiteral(t: string) returns (l: Literal)
    requires DecimalLiteral(t)
    ensures LiteralOk(l) && LiteralText(l) == t
  {
    var sign := UnsignedParts(t);
    if Unsigned(t) == "Infinity" {
      l := Infinite(sign);
    } else {
      l := BodyParts(sign, Unsigned(t));
    }
  }

  // ----- No white space inside a literal ----------------------------------------------------------

  lemma NoSpaceConcat(a: string, b: string)
    requires NoSpace(a) && NoSpace(b)
    ensures NoSpace(a + b)
  {
  }

  lemma DigitsNoSpace(s: string)
    requires AllDigits(s)
    ensures NoSpace(s)
  {
    forall i | 0 <= i < |s| ensures !IsSpace(s[i]) {
      assert IsDigit(s[i]);
    }
  }

  lemma ExponentNoSpace(s: string)
    requires ExponentPart(s)
    ensures NoSpace(s) && '.' !in s
  {
    if s != "" {
      var digits := Unsigned(s[1..]);
      var sign := UnsignedParts(s[1..]);
      HeadTail(s);
      DigitsNoSpace(digits);
      DigitsHaveNo(digits, '.');
      NoSpaceConcat(sign, digits);
      NoSpaceConcat([s[0]], sign + digits);
    }
  }

  lemma {:induction false} RadixDigits(s: string, radix: nat)
    requires radix <= 16 && RadixValue(s, radix).Some?
    ensures NoSpace(s) && '.' !in s
    ensures forall i | 0 <= i < |s| :: RadixDigit(s[i]) < radix
  {
    if s != "" {
      RadixDigits(s[..|s| - 1], radix);
      assert s == s[..|s| - 1] + [s[|s| - 1]];
    }
  }

  lemma FiniteNoSpace(l: Literal)
    requires LiteralOk(l) && l.Finite?
    ensures NoSpace(LiteralText(l)) && LiteralText(l) != ""
  {
    var m := l.whole + PointPart(l.point, l.frac);
    DigitsNoSpace(l.whole);
    DigitsNoSpace(l.frac);
    ExponentNoSpace(l.exponent);
    NoSpaceConcat(".", l.frac);
    NoSpaceConcat(l.whole, PointPart(l.point, l.frac));
    NoSpaceConcat(m, l.exponent);
    NoSpaceConcat(l.sign, m + l.exponent);
    FiniteBody(l);
  }

  lemma LiteralNoSpace(l: Literal)
    requires LiteralOk(l)
    ensures NoSpace(LiteralText(l)) && (l != Blank ==> LiteralText(l) != "")
  {
    match l
    case Blank =>
    case Infinite(sign) => NoSpaceConcat(sign, "Infinity");
    case Radix(prefix, digits) =>
      RadixDigits(digits, PrefixRadix(prefix).value);
      NoSpaceConcat(prefix, digits);
    case Finite(_, _, _, _, _) => FiniteNoSpace(l);
  }

  lemma TrimWritten(before: string, l: Literal, after: string)
    requires Spaces(before) && Spaces(after) && LiteralOk(l)
    ensures Trim(Written(before, l, after)) == LiteralText(l)
  {
    LiteralNoSpace(l);
    if l == Blank {
      assert "" + after == after;
      TrimBlank(before, after);
    } else {
      TrimSurrounded(before, LiteralText(l), after);
    }
  }

  lemma LiteralIsNumeric(value: string, before: string, l: Literal, after: string)
    requires Writes(value, before, l, after)
    ensures IsNumeric(value)
  {
    TrimWritten(before, l, after);
    match l
    case Blank =>
    case Infinite(sign) => UnsignedText(sign, "Infinity");
    case Radix(prefix, digits) => RadixText(prefix, digits);
    case Finite(_, _, _, _, _) => FiniteIsDecimal(l);
  }

  lemma RadixText(prefix: string, digits: string)
    requires |prefix| == 2
    ensures PrefixRadix(prefix + digits) == PrefixRadix(prefix) && (prefix + digits)[2..] == digits
  {
    var t := prefix + digits;
    assert t[0] == prefix[0] && t[1] == prefix[1];
  }

  lemma NumericIsLiteral(value: string) returns (before: string, l: Literal, after: string)
    requires IsNumeric(value)
    ensures Writes(value, before, l, after)
  {
    var t := Trim(value);
    before, after := TrimParts(value);
    if t == "" {
      l := Blank;
    } else if DecimalLiteral(t) {
      l := DecimalIsLiteral(t);
    } else {
      l := Radix(t[..2], t[2..]);
      assert t == t[..2] + t[2..];
      RadixText(t[..2], t[2..]);
    }
  }

  /** The strings that are not NaN to `Number` are exactly the literals between white space. */
  lemma {:induction false} NumericExactly(value: string)
    ensures IsNumeric(value) <==> exists before, l, after :: Writes(value, before, l, after)
  {
    if IsNumeric(value) {
      var before, l, after := NumericIsLiteral(value);
    }
    if before, l, after :| Writes(value, before, l, after) {
      LiteralIsNumeric(value, before, l, after);
    }
  }
}

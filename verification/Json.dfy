/**
 * JSON values, the text `JSON.stringify` prints for them, and a reader of compact JSON text
 * (RFC 8259, sections 3 to 7).
 */
module Json {

  import opened Sequences

  /** A number is kept as the text it prints; a member whose value is undefined is not a member. */
  datatype Json =
    | JNull
    | JBool(b: bool)
    | JNumber(text: string)
    | JString(s: string)
    | JArray(items: seq<Json>)
    | JObject(members: seq<Member>)

  /** Members stand in the order in which the object enumerates its own keys. */
  datatype Member = Member(key: string, value: Json)

  predicate NumberChar(c: char) {
    '0' <= c <= '9' || c in "-+.eE"
  }

  predicate NumberText(t: string) {
    t != "" && forall i | 0 <= i < |t| :: NumberChar(t[i])
  }

  predicate UniqueKeys(ms: seq<Member>) {
    forall i, j | 0 <= i < j < |ms| :: ms[i].key != ms[j].key
  }

  /** What every value of the host language satisfies: printable numbers and unique keys. */
  predicate WellFormed(v: Json) {
    match v
    case JNumber(t) => NumberText(t)
    case JArray(items) => forall x | x in items :: WellFormed(x)
    case JObject(ms) => UniqueKeys(ms) && forall m | m in ms :: WellFormed(m.value)
    case _ => true
  }

  // ----- Printing -------------------------------------------------------------

  function HexChar(d: nat): char
    requires d < 16
  {
    "0123456789abcdef"[d]
  }

  /** One character inside a quoted string (RFC 8259, section 7). */
  function EscapeChar(c: char): string {
    if c == '\"' then "\\\""
    else if c == '\\' then "\\\\"
    else if c == '\U{0008}' then "\\b"
    else if c == '\U{0009}' then "\\t"
    else if c == '\U{000A}' then "\\n"
    else if c == '\U{000C}' then "\\f"
    else if c == '\U{000D}' then "\\r"
    else if c < ' ' then "\\u00" + [HexChar((c as int) / 16), HexChar((c as int) % 16)]
    else [c]
  }

  function Escape(s: string): string {
    if s == "" then "" else EscapeChar(s[0]) + Escape(s[1..])
  }

  function Quote(s: string): string {
    "\"" + Escape(s) + "\""
  }

  /** `JSON.stringify(v)`. */
  function Stringify(v: Json): string
    decreases v, 1
  {
    match v
    case JNull => "null"
    case JBool(b) => if b then "true" else "false"
    case JNumber(t) => t
    case JString(s) => Quote(s)
    case JArray(items) => "[" + StringifyItems(items) + "]"
    case JObject(ms) => "{" + StringifyMembers(ms) + "}"
  }

  function StringifyItems(items: seq<Json>): string
    decreases items, 0
  {
    if items == [] then ""
    else if |items| == 1 then Stringify(items[0])
    else Stringify(items[0]) + "," + StringifyItems(items[1..])
  }

  function StringifyMembers(ms: seq<Member>): string
    decreases ms, 0
  {
    if ms == [] then ""
    else if |ms| == 1 then Quote(ms[0].key) + ":" + Stringify(ms[0].value)
    else Quote(ms[0].key) + ":" + Stringify(ms[0].value) + "," + StringifyMembers(ms[1..])
  }

  // ----- Reading --------------------------------------------------------------

  datatype Read<+T> = Bad | Got(value: T, rest: string)

  function HexDigit(c: char): Option<nat> {
    if '0' <= c <= '9' then Some((c as int) - ('0' as int))
    else if 'a' <= c <= 'f' then Some((c as int) - ('a' as int) + 10)
    else if 'A' <= c <= 'F' then Some((c as int) - ('A' as int) + 10)
    else None
  }

  function HexValue(s: string): Option<nat> {
    if s == "" then Some(0)
    else
      match (HexValue(s[..|s| - 1]), HexDigit(s[|s| - 1]))
      case (Some(front), Some(d)) => Some(16 * front + d)
      case _ => None
  }

  /** One possibly escaped character; escaped surrogates are not read. */
  function ReadChar(s: string): (r: Read<char>)
    ensures r.Got? ==> |r.rest| < |s|
  {
    if s == "" || s[0] < ' ' || s[0] == '\"' then Bad
    else if s[0] != '\\' then Got(s[0], s[1..])
    else if |s| < 2 then Bad
    else
      match s[1]
      case '\"' => Got('\"', s[2..])
      case '\\' => Got('\\', s[2..])
      case '/' => Got('/', s[2..])
      case 'b' => Got('\U{0008}', s[2..])
      case 't' => Got('\U{0009}', s[2..])
      case 'n' => Got('\U{000A}', s[2..])
      case 'f' => Got('\U{000C}', s[2..])
      case 'r' => Got('\U{000D}', s[2..])
      case 'u' =>
        if |s| < 6 then Bad
        else (
          match HexValue(s[2..6])
          case Some(n) => if n < 0xD800 || 0xE000 <= n < 0x10000 then Got(n as char, s[6..]) else Bad
          case None => Bad)
      case _ => Bad
  }

  /** The rest of a string after its opening quote. */
  function ReadString(s: string): (r: Read<string>)
    ensures r.Got? ==> |r.rest| < |s|
    decreases |s|
  {
    if s != "" && s[0] == '\"' then Got("", s[1..])
    else
      match ReadChar(s)
      case Bad => Bad
      case Got(c, rest) =>
        match ReadString(rest)
        case Bad => Bad
        case Got(t, rest') => Got([c] + t, rest')
  }

  function NumberSpan(s: string): (n: nat)
    ensures n <= |s| && forall i | 0 <= i < n :: NumberChar(s[i])
  {
    if s != "" && NumberChar(s[0]) then 1 + NumberSpan(s[1..]) else 0
  }

  function ReadValue(s: string): (r: Read<Json>)
    ensures r.Got? ==> |r.rest| < |s|
    decreases |s|, 0
  {
    if s == "" then Bad
    else if "null" <= s then Got(JNull, s[4..])
    else if "true" <= s then Got(JBool(true), s[4..])
    else if "false" <= s then Got(JBool(false), s[5..])
    else if s[0] == '\"' then
      (match ReadString(s[1..])
       case Bad => Bad
       case Got(t, rest) => Got(JString(t), rest))
    else if "[]" <= s then Got(JArray([]), s[2..])
    else if s[0] == '[' then
      (match ReadItems(s[1..])
       case Bad => Bad
       case Got(items, rest) => Got(JArray(items), rest))
    else if "{}" <= s then Got(JObject([]), s[2..])
    else if s[0] == '{' then
      (match ReadMembers(s[1..])
       case Bad => Bad
       case Got(ms, rest) => Got(JObject(ms), rest))
    else
      var n := NumberSpan(s);
      if n == 0 then Bad else Got(JNumber(s[..n]), s[n..])
  }

  /** One or more items, up to and including the closing bracket. */
  function ReadItems(s: string): (r: Read<seq<Json>>)
    ensures r.Got? ==> |r.rest| < |s|
    decreases |s|, 1
  {
    match ReadValue(s)
    case Bad => Bad
    case Got(v, rest) =>
      if rest != "" && rest[0] == ']' then Got([v], rest[1..])
      else if rest != "" && rest[0] == ',' then
        match ReadItems(rest[1..])
        case Bad => Bad
        case Got(vs, rest') => Got([v] + vs, rest')
      else Bad
  }

  /** One `"key":value` member. */
  function ReadMember(s: string): (r: Read<Member>)
    ensures r.Got? ==> |r.rest| < |s|
    decreases |s|, 1
  {
    if s == "" || s[0] != '\"' then Bad
    else
      match ReadString(s[1..])
      case Bad => Bad
      case Got(k, rest) =>
        if rest == "" || rest[0] != ':' then Bad
        else
          match ReadValue(rest[1..])
          case Bad => Bad
          case Got(v, rest') => Got(Member(k, v), rest')
  }

  /** One or more members, up to and including the closing brace. */
  function ReadMembers(s: string): (r: Read<seq<Member>>)
    ensures r.Got? ==> |r.rest| < |s|
    decreases |s|, 2
  {
    match ReadMember(s)
    case Bad => Bad
    case Got(m, rest) =>
      if rest != "" && rest[0] == '}' then Got([m], rest[1..])
      else if rest != "" && rest[0] == ',' then
        match ReadMembers(rest[1..])
        case Bad => Bad
        case Got(ms, rest') => Got([m] + ms, rest')
      else Bad
  }

  // ----- Reading back what was printed ------------------------------------------

  lemma ReadEscapedChar(c: char, rest: string)
    ensures ReadChar(EscapeChar(c) + rest) == Got(c, rest)
  {
    var e := EscapeChar(c);
    var s := e + rest;
    if |e| == 1 {
      assert s[1..] == rest;
    } else if |e| == 2 {
      assert s[0] == '\\' && s[1] == e[1] && s[2..] == rest;
    } else {
      ReadEscapedControl(c, rest);
    }
  }

  /** Control characters without a short escape go through their hexadecimal code. */
  lemma ReadEscapedControl(c: char, rest: string)
    requires |EscapeChar(c)| > 2
    ensures ReadChar(EscapeChar(c) + rest) == Got(c, rest)
  {
    var s := EscapeChar(c) + rest;
    var n := c as int;
    var h, l := HexChar(n / 16), HexChar(n % 16);
    assert s == ['\\', 'u', '0', '0', h, l] + rest;
    assert s[2..6] == ['0', '0', h, l] && s[6..] == rest;
    assert HexDigit(h) == Some(n / 16) && HexDigit(l) == Some(n % 16);
    HexOfFour('0', '0', h, l);
    assert HexValue(s[2..6]) == Some(n);
  }

  lemma HexOfFour(a: char, b: char, c: char, d: char)
    requires HexDigit(a).Some? && HexDigit(b).Some? && HexDigit(c).Some? && HexDigit(d).Some?
    ensures HexValue([a, b, c, d]) ==
            Some(16 * (16 * (16 * HexDigit(a).value + HexDigit(b).value) + HexDigit(c).value) + HexDigit(d).value)
  {
    assert [a, b, c, d][..3] == [a, b, c] && [a, b, c][..2] == [a, b] && [a, b][..1] == [a] && [a][..0] == [];
    assert HexValue([a]) == Some(HexDigit(a).value);
    assert HexValue([a, b]) == Some(16 * HexDigit(a).value + HexDigit(b).value);
    assert HexValue([a, b, c]) == Some(16 * (16 * HexDigit(a).value + HexDigit(b).value) + HexDigit(c).value);
  }

  lemma {:induction false} ReadEscaped(s: string, rest: string)
    ensures ReadString(Escape(s) + "\"" + rest) == Got(s, rest)
  {
    if s == "" {
      assert Escape(s) + "\"" + rest == "\"" + rest;
    } else {
      ReadEscaped(s[1..], rest);
      HeadTail(s);
      Associate(EscapeChar(s[0]), Escape(s[1..]), "\"");
      Associate(EscapeChar(s[0]), Escape(s[1..]) + "\"", rest);
      ReadCharThen(s[0], s[1..], Escape(s[1..]) + "\"" + rest, rest);
    }
  }

  lemma ReadCharThen(c: char, s: string, tail: string, rest: string)
    requires ReadString(tail) == Got(s, rest)
    ensures ReadString(EscapeChar(c) + tail) == Got([c] + s, rest)
  {
    ReadEscapedChar(c, tail);
    assert (EscapeChar(c) + tail)[0] == EscapeChar(c)[0] != '\"';
  }

  lemma {:induction false} NumberSpanStops(t: string, rest: string)
    requires forall i | 0 <= i < |t| :: NumberChar(t[i])
    requires rest != "" ==> !NumberChar(rest[0])
    ensures NumberSpan(t + rest) == |t|
  {
    if t == "" {
      assert t + rest == rest;
    } else {
      NumberSpanStops(t[1..], rest);
      assert (t + rest)[1..] == t[1..] + rest;
    }
  }

  /** The first character of printed text tells the kind of value. */
  lemma PrintedHead(v: Json)
    requires WellFormed(v)
    ensures Stringify(v) != ""
    ensures Stringify(v)[0] != ']' && Stringify(v)[0] != '}'
  {
  }

  lemma ReadLiteral(v: Json, rest: string)
    requires v.JNull? || v.JBool?
    ensures ReadValue(Stringify(v) + rest) == Got(v, rest)
  {
    var t := Stringify(v);
    var s := t + rest;
    assert s[..|t|] == t && s[|t|..] == rest && s[0] == t[0];
  }

  lemma ReadNumber(t: string, rest: string)
    requires NumberText(t)
    requires rest != "" ==> !NumberChar(rest[0])
    ensures ReadValue(t + rest) == Got(JNumber(t), rest)
  {
    var s := t + rest;
    NumberSpanStops(t, rest);
    assert s[..|t|] == t && s[|t|..] == rest;
    assert NumberChar(s[0]);
  }

  lemma ReadBracketed(items: seq<Json>, body: string, rest: string)
    requires ReadItems(body) == Got(items, rest)
    requires body != "" && body[0] != ']'
    ensures ReadValue("[" + body) == Got(JArray(items), rest)
  {
    var s := "[" + body;
    assert s[0] == '[' && s[1] == body[0] && s[1..] == body;
  }

  lemma ReadBraced(ms: seq<Member>, body: string, rest: string)
    requires ReadMembers(body) == Got(ms, rest)
    requires body != "" && body[0] != '}'
    ensures ReadValue("{" + body) == Got(JObject(ms), rest)
  {
    var s := "{" + body;
    assert s[0] == '{' && s[1] == body[0] && s[1..] == body;
  }

  /** The reader inverts the printer in front of any text a number could not run into. */
  lemma {:induction false} ReadStringified(v: Json, rest: string)
    requires WellFormed(v)
    requires rest != "" ==> !NumberChar(rest[0])
    ensures ReadValue(Stringify(v) + rest) == Got(v, rest)
    decreases v, 1
  {
    match v
    case JNull => ReadLiteral(v, rest);
    case JBool(_) => ReadLiteral(v, rest);
    case JNumber(t) => ReadNumber(t, rest);
    case JString(t) => ReadQuoted(t, rest);
    case JArray(items) => ReadStringifiedArray(items, rest);
    case JObject(ms) => ReadStringifiedObject(ms, rest);
  }

  lemma ReadQuoted(t: string, rest: string)
    ensures ReadValue(Quote(t) + rest) == Got(JString(t), rest)
  {
    ReadEscaped(t, rest);
    Associate("\"", Escape(t), "\"");
    Associate("\"", Escape(t) + "\"", rest);
    ReadAfterQuote(Escape(t) + "\"" + rest);
  }

  lemma ReadAfterQuote(s: string)
    ensures ReadValue("\"" + s) ==
            match ReadString(s)
            case Bad => Bad
            case Got(t, rest) => Got(JString(t), rest)
  {
    var q := "\"" + s;
    assert q[0] == '\"' && q[1..] == s;
  }

  lemma {:induction false} ReadStringifiedArray(items: seq<Json>, rest: string)
    requires forall x | x in items :: WellFormed(x)
    ensures ReadValue("[" + StringifyItems(items) + "]" + rest) == Got(JArray(items), rest)
    decreases items, 1
  {
    if items == [] {
      var s := "[" + StringifyItems(items) + "]" + rest;
      assert s[0] == '[' && s[..2] == "[]" && s[2..] == rest;
    } else {
      var body := StringifyItems(items) + "]" + rest;
      ReadStringifiedItems(items, rest);
      PrintedItemsHead(items);
      ReadBracketed(items, body, rest);
      assert "[" + StringifyItems(items) + "]" + rest == "[" + body;
    }
  }

  lemma {:induction false} ReadStringifiedObject(ms: seq<Member>, rest: string)
    requires forall m | m in ms :: WellFormed(m.value)
    ensures ReadValue("{" + StringifyMembers(ms) + "}" + rest) == Got(JObject(ms), rest)
    decreases ms, 1
  {
    if ms == [] {
      var s := "{" + StringifyMembers(ms) + "}" + rest;
      assert s[0] == '{' && s[..2] == "{}" && s[2..] == rest;
    } else {
      var body := StringifyMembers(ms) + "}" + rest;
      ReadStringifiedMembers(ms, rest);
      ReadBraced(ms, body, rest);
      assert "{" + StringifyMembers(ms) + "}" + rest == "{" + body;
    }
  }

  lemma PrintedItemsHead(items: seq<Json>)
    requires items != [] && WellFormed(items[0])
    ensures StringifyItems(items) != "" && StringifyItems(items)[0] != ']'
  {
    PrintedHead(items[0]);
  }

  lemma {:induction false} ReadStringifiedItems(items: seq<Json>, rest: string)
    requires items != [] && forall x | x in items :: WellFormed(x)
    ensures ReadItems(StringifyItems(items) + "]" + rest) == Got(items, rest)
    decreases items, 0
  {
    var head := Stringify(items[0]);
    if |items| == 1 {
      ReadStringified(items[0], "]" + rest);
      Associate(head, "]", rest);
      LastItem(items[0], head, rest);
      assert items == [items[0]];
    } else {
      ReadStringified(items[0], "," + (StringifyItems(items[1..]) + "]" + rest));
      ReadStringifiedItems(items[1..], rest);
      MoreItems(items[0], head, items[1..], StringifyItems(items[1..]) + "]" + rest, rest);
      RegroupTail(head, StringifyItems(items[1..]), "]", rest);
      HeadTail(items);
    }
  }

  lemma LastItem(v: Json, head: string, rest: string)
    requires ReadValue(head + ("]" + rest)) == Got(v, "]" + rest)
    ensures ReadItems(head + ("]" + rest)) == Got([v], rest)
  {
    assert ("]" + rest)[1..] == rest;
  }

  lemma MoreItems(v: Json, head: string, items: seq<Json>, tail: string, rest: string)
    requires ReadValue(head + ("," + tail)) == Got(v, "," + tail)
    requires ReadItems(tail) == Got(items, rest)
    ensures ReadItems(head + ("," + tail)) == Got([v] + items, rest)
  {
    assert ("," + tail)[1..] == tail;
  }

  lemma {:induction false} ReadStringifiedMember(m: Member, rest: string)
    requires WellFormed(m.value)
    requires rest != "" ==> !NumberChar(rest[0])
    ensures ReadMember(Quote(m.key) + ":" + Stringify(m.value) + rest) == Got(m, rest)
    decreases m, 2
  {
    var value := Stringify(m.value) + rest;
    var after := ":" + value;
    ReadEscaped(m.key, after);
    ReadStringified(m.value, rest);
    ReadMemberParts(m, Escape(m.key) + "\"" + after, value, rest);
    Regroup(Escape(m.key), Stringify(m.value), rest);
  }

  lemma Regroup(key: string, value: string, rest: string)
    ensures ("\"" + key + "\"") + ":" + value + rest == "\"" + (key + "\"" + (":" + (value + rest)))
  {
  }

  lemma ReadMemberParts(m: Member, quoted: string, value: string, rest: string)
    requires ReadString(quoted) == Got(m.key, ":" + value)
    requires ReadValue(value) == Got(m.value, rest)
    ensures ReadMember("\"" + quoted) == Got(m, rest)
  {
    var s := "\"" + quoted;
    assert s[1..] == quoted;
    var after := ":" + value;
    assert after[1..] == value;
  }

  lemma {:induction false} ReadStringifiedMembers(ms: seq<Member>, rest: string)
    requires ms != [] && forall m | m in ms :: WellFormed(m.value)
    ensures ReadMembers(StringifyMembers(ms) + "}" + rest) == Got(ms, rest)
    decreases ms, 0
  {
    var head := Quote(ms[0].key) + ":" + Stringify(ms[0].value);
    if |ms| == 1 {
      ReadStringifiedMember(ms[0], "}" + rest);
      Associate(head, "}", rest);
      LastMember(ms[0], head, rest);
      assert ms == [ms[0]];
    } else {
      ReadStringifiedMember(ms[0], "," + (StringifyMembers(ms[1..]) + "}" + rest));
      ReadStringifiedMembers(ms[1..], rest);
      MoreMembers(ms[0], head, ms[1..], StringifyMembers(ms[1..]) + "}" + rest, rest);
      RegroupTail(head, StringifyMembers(ms[1..]), "}", rest);
      HeadTail(ms);
    }
  }

  lemma LastMember(m: Member, head: string, rest: string)
    requires ReadMember(head + ("}" + rest)) == Got(m, "}" + rest)
    ensures ReadMembers(head + ("}" + rest)) == Got([m], rest)
  {
    assert ("}" + rest)[1..] == rest;
  }

  lemma MoreMembers(m: Member, head: string, ms: seq<Member>, tail: string, rest: string)
    requires ReadMember(head + ("," + tail)) == Got(m, "," + tail)
    requires ReadMembers(tail) == Got(ms, rest)
    ensures ReadMembers(head + ("," + tail)) == Got([m] + ms, rest)
  {
    assert ("," + tail)[1..] == tail;
  }

  lemma RegroupTail(head: string, tail: string, closing: string, rest: string)
    ensures (head + "," + tail) + closing + rest == head + ("," + (tail + closing + rest))
  {
  }

  /** Different values print different texts. */
  lemma StringifyInjective(v: Json, w: Json)
    requires WellFormed(v) && WellFormed(w)
    requires Stringify(v) == Stringify(w)
    ensures v == w
  {
    ReadStringified(v, "");
    ReadStringified(w, "");
    assert Stringify(v) + "" == Stringify(v) && Stringify(w) + "" == Stringify(w);
  }
}

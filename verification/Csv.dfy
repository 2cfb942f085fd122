/** Writing comma-separated records, and a reader of RFC 4180 (section 2) that also takes LF line breaks. */
module Csv {

  import opened Sequences

  // ----- Writing --------------------------------------------------------------------------

  /** `/[",\n\r]/.test(s)`. */
  predicate NeedsQuotes(s: string) {
    exists i | 0 <= i < |s| :: Special(s[i])
  }

  predicate Special(c: char) {
    c == '\"' || c == ',' || c == '\n' || c == '\r'
  }

  /** `s.replace(/"/g, '""')`. */
  function DoubleQuotes(s: string): string {
    if s == "" then "" else (if s[0] == '\"' then "\"\"" else [s[0]]) + DoubleQuotes(s[1..])
  }

  /** One cell, quoted when it has to be. */
  function Cell(s: string): string {
    if NeedsQuotes(s) then "\"" + DoubleQuotes(s) + "\"" else s
  }

  /** `parts.join(sep)`. */
  function Join(parts: seq<string>, sep: string): string {
    if parts == [] then ""
    else if |parts| == 1 then parts[0]
    else parts[0] + sep + Join(parts[1..], sep)
  }

  function Line(fields: seq<string>): string {
    Join(Map(Cell, fields), ",")
  }

  /** Each record on a line of its own, every line ended by `eol`. */
  function Lines(records: seq<seq<string>>, eol: string): string {
    if records == [] then "" else Line(records[0]) + eol + Lines(records[1..], eol)
  }

  // ----- Reading --------------------------------------------------------------------------

  datatype Read<+T> = Bad | Got(value: T, rest: string)

  /** The rest of a quoted field; a doubled quote stands for one. */
  function ReadQuoted(s: string): (r: Read<string>)
    ensures r.Got? ==> |r.rest| < |s|
  {
    if s == "" then Bad
    else if s[0] == '\"' then
      if |s| > 1 && s[1] == '\"' then
        match ReadQuoted(s[2..])
        case Bad => Bad
        case Got(t, rest) => Got("\"" + t, rest)
      else Got("", s[1..])
    else
      match ReadQuoted(s[1..])
      case Bad => Bad
      case Got(t, rest) => Got([s[0]] + t, rest)
  }

  /** A field without quotes: everything up to the next special character. */
  function ReadBare(s: string): (r: (string, string))
    ensures |r.1| <= |s|
  {
    if s == "" || Special(s[0]) then ("", s)
    else
      var (t, rest) := ReadBare(s[1..]);
      ([s[0]] + t, rest)
  }

  function ReadField(s: string): (r: Read<string>)
    ensures r.Got? ==> |r.rest| <= |s|
  {
    if s != "" && s[0] == '\"' then ReadQuoted(s[1..])
    else
      var (t, rest) := ReadBare(s);
      Got(t, rest)
  }

  /** The length of the line break a text begins with, 0 if there is none. */
  function BreakLength(s: string): (n: nat)
    ensures n <= |s|
  {
    if "\r\n" <= s then 2 else if "\n" <= s then 1 else 0
  }

  /** One record with its line break; the last record of a file may lack it. */
  function ReadRecord(s: string): (r: Read<seq<string>>)
    ensures r.Got? ==> |r.rest| <= |s|
    ensures r.Got? && s != "" ==> |r.rest| < |s|
    decreases |s|
  {
    match ReadField(s)
    case Bad => Bad
    case Got(field, rest) =>
      if rest == "" then Got([field], "")
      else if BreakLength(rest) > 0 then Got([field], rest[BreakLength(rest)..])
      else if rest[0] == ',' then
        match ReadRecord(rest[1..])
        case Bad => Bad
        case Got(fields, rest') => Got([field] + fields, rest')
      else Bad
  }

  /** A whole file of records. */
  function ReadFile(s: string): Option<seq<seq<string>>>
    decreases |s|
  {
    if s == "" then Some([])
    else
      match ReadRecord(s)
      case Bad => None
      case Got(record, rest) =>
        match ReadFile(rest)
        case None => None
        case Some(records) => Some([record] + records)
  }

  // ----- Reading back what was written ----------------------------------------------------------

  /** What may follow a field: the end, a comma, or a line break. */
  predicate Delimits(rest: string) {
    rest == "" || rest[0] == ',' || rest[0] == '\n' || rest[0] == '\r'
  }

  lemma {:induction false} ReadDoubled(s: string, rest: string)
    requires rest == "" || rest[0] != '\"'
    ensures ReadQuoted(DoubleQuotes(s) + "\"" + rest) == Got(s, rest)
  {
    var text := DoubleQuotes(s) + "\"" + rest;
    if s == "" {
      assert text == "\"" + rest && text[1..] == rest;
    } else {
      var tail := DoubleQuotes(s[1..]) + "\"" + rest;
      ReadDoubled(s[1..], rest);
      assert s == [s[0]] + s[1..];
      if s[0] == '\"' {
        assert text == "\"\"" + tail && text[2..] == tail;
      } else {
        assert text == [s[0]] + tail && text[1..] == tail;
      }
    }
  }

  lemma {:induction false} ReadPlain(s: string, rest: string)
    requires !NeedsQuotes(s) && Delimits(rest)
    ensures ReadBare(s + rest) == (s, rest)
  {
    if s == "" {
      assert s + rest == rest;
    } else {
      assert !Special(s[0]);
      assert !NeedsQuotes(s[1..]) by {
        forall i | 0 <= i < |s[1..]| ensures !Special(s[1..][i]) {
          assert s[1..][i] == s[i + 1];
        }
      }
      ReadPlain(s[1..], rest);
      assert (s + rest)[1..] == s[1..] + rest;
      assert s == [s[0]] + s[1..];
    }
  }

  /** A written cell reads back, whatever quotes, commas and line breaks it contains. */
  lemma ReadCell(s: string, rest: string)
    requires Delimits(rest)
    ensures ReadField(Cell(s) + rest) == Got(s, rest)
  {
    if NeedsQuotes(s) {
      ReadDoubled(s, rest);
      assert (Cell(s) + rest)[0] == '\"';
      assert (Cell(s) + rest)[1..] == DoubleQuotes(s) + "\"" + rest;
    } else {
      ReadPlain(s, rest);
      if s == "" {
        assert Cell(s) + rest == rest;
      } else {
        assert !Special(s[0]) && (Cell(s) + rest)[0] == s[0];
      }
    }
  }

  predicate LineBreak(eol: string) {
    eol == "\n" || eol == "\r\n"
  }

  lemma BreakIs(eol: string, rest: string)
    requires LineBreak(eol)
    ensures Delimits(eol + rest) && BreakLength(eol + rest) == |eol| && (eol + rest)[|eol|..] == rest &&
              eol + rest != ""
  {
    var s := eol + rest;
    assert s[..|eol|] == eol && s[0] == eol[0];
  }

  lemma {:induction false} ReadLine(fields: seq<string>, eol: string, rest: string)
    requires fields != [] && LineBreak(eol)
    ensures ReadRecord(Line(fields) + eol + rest) == Got(fields, rest)
  {
    HeadTail(fields);
    if |fields| == 1 {
      BreakIs(eol, rest);
      LineOne(fields[0]);
      Associate(Cell(fields[0]), eol, rest);
      ReadCell(fields[0], eol + rest);
      assert fields == [fields[0]];
    } else {
      var tail := Line(fields[1..]) + eol + rest;
      LineCons(fields[0], fields[1..]);
      AfterComma(Cell(fields[0]), Line(fields[1..]), eol, rest);
      ReadLine(fields[1..], eol, rest);
      ReadFieldThen(fields[0], fields[1..], tail, rest);
    }
  }

  lemma AfterComma(cell: string, line: string, eol: string, rest: string)
    ensures (cell + "," + line) + eol + rest == cell + ("," + (line + eol + rest))
  {
  }

  lemma ReadFieldThen(field: string, fields: seq<string>, tail: string, rest: string)
    requires ReadRecord(tail) == Got(fields, rest)
    ensures ReadRecord(Cell(field) + ("," + tail)) == Got([field] + fields, rest)
  {
    ReadCell(field, "," + tail);
    assert ("," + tail)[1..] == tail && BreakLength("," + tail) == 0;
  }

  /** A written file reads back as exactly the records that were written. */
  lemma {:induction false} ReadLines(records: seq<seq<string>>, eol: string)
    requires LineBreak(eol) && forall i | 0 <= i < |records| :: records[i] != []
    ensures ReadFile(Lines(records, eol)) == Some(records)
  {
    if records != [] {
      ReadLine(records[0], eol, Lines(records[1..], eol));
      ReadLines(records[1..], eol);
      assert records == [records[0]] + records[1..];
      assert Lines(records, eol) != "";
    }
  }

  lemma {:induction false} LinesConcat(a: seq<seq<string>>, b: seq<seq<string>>, eol: string)
    ensures Lines(a + b, eol) == Lines(a, eol) + Lines(b, eol)
  {
    if a == [] {
      assert a + b == b;
    } else {
      LinesConcat(a[1..], b, eol);
      HeadTail(a);
      ConsConcat(a[0], a[1..], b);
      LinesCons(a[0], a[1..], eol);
      LinesCons(a[0], a[1..] + b, eol);
      Associate(Line(a[0]) + eol, Lines(a[1..], eol), Lines(b, eol));
    }
  }

  lemma LinesCons(record: seq<string>, tail: seq<seq<string>>, eol: string)
    ensures Lines([record] + tail, eol) == Line(record) + eol + Lines(tail, eol)
  {
    assert ([record] + tail)[1..] == tail;
  }

  lemma LineCons(field: string, tail: seq<string>)
    requires tail != []
    ensures Line([field] + tail) == Cell(field) + "," + Line(tail)
  {
    MapCons(Cell, field, tail);
    assert ([Cell(field)] + Map(Cell, tail))[1..] == Map(Cell, tail);
  }

  lemma LineOne(field: string)
    ensures Line([field]) == Cell(field)
  {
    assert Map(Cell, [field]) == [Cell(field)];
  }

  /** Joining lines and ending the text with one more break ends every line with a break. */
  lemma {:induction false} JoinedLines(records: seq<seq<string>>, eol: string)
    requires records != []
    ensures Join(Map(Line, records), eol) + eol == Lines(records, eol)
  {
    if |records| == 1 {
      assert Map(Line, records) == [Line(records[0])];
      assert Lines(records[1..], eol) == "";
    } else {
      JoinedLines(records[1..], eol);
      assert Map(Line, records)[1..] == Map(Line, records[1..]);
      var tail := Join(Map(Line, records[1..]), eol);
      assert (Line(records[0]) + eol + tail) + eol == Line(records[0]) + eol + (tail + eol);
    }
  }
}

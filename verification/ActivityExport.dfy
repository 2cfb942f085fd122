/** The paged export of a wallet's activity: one CSV or one record list, built page by page. */
module ActivityExport {

  import opened Sequences
  import opened DecimalText
  import Csv

  datatype Payload = Payload(vaultId: Option<string>, poolId: Option<string>, token: Option<string>,
                             asset: Option<string>, amount: Option<string>)

  /** A row of the actions API; absent values stand for null and undefined. */
  datatype Row = Row(
    id: Option<string>, createdAt: Option<string>, actionType: Option<string>, payload: Option<Payload>,
    status: Option<string>, txHash: Option<string>, errorCode: Option<string>,
    submittedAt: Option<string>, confirmedAt: Option<string>)

  datatype Record = Record(
    id: string, date: string, actionType: string, poolId: string, asset: string, amount: string,
    status: string, txHash: string, errorCode: string, submittedAt: string, confirmedAt: string)

  /** `a ?? b`. */
  function Else(a: Option<string>, b: Option<string>): Option<string> {
    if a.Some? then a else b
  }

  function MapRecord(row: Row): Record {
    var p := row.payload.GetOr(Payload(None, None, None, None, None));
    Record(row.id.GetOr(""), row.createdAt.GetOr(""), row.actionType.GetOr(""),
           Else(p.vaultId, p.poolId).GetOr(""), Else(p.token, p.asset).GetOr(""), p.amount.GetOr(""),
           row.status.GetOr(""), row.txHash.GetOr(""), row.errorCode.GetOr(""),
           row.submittedAt.GetOr(""), row.confirmedAt.GetOr(""))
  }

  const FIELDS: seq<string> := [
    "id", "date", "action_type", "pool_id", "asset", "amount", "status", "tx_hash", "error_code",
    "submitted_at", "confirmed_at"]

  /** `FIELDS.map(f => record[f])`. */
  function FieldsOf(r: Record): (fields: seq<string>)
    ensures |fields| == 11
  {
    [r.id, r.date, r.actionType, r.poolId, r.asset, r.amount, r.status, r.txHash, r.errorCode, r.submittedAt,
        r.confirmedAt]
  }

  function RowFields(row: Row): (fields: seq<string>)
    ensures |fields| == 11
  {
    FieldsOf(MapRecord(row))
  }

  // ----- The API ----------------------------------------------------------------------------

  /** What one request is answered; an empty cursor counts as none. */
  datatype Response =
    | Page(items: seq<Row>, nextCursor: Option<string>)
    | HttpError(status: int)
    | Broken(message: string)  // the request is rejected, or its body is not JSON
    | Aborted

  predicate Continues(r: Response) {
    r.Page? && r.nextCursor.Some? && r.nextCursor.value != ""
  }

  /**
   * The responses met by following cursors from `cursor`, starting with request `n`; the last one ends the
   * export. Two requests may be answered differently even if their cursors are the same.
   */
  predicate Chain(fetch: (nat, Option<string>) -> Response, n: nat, cursor: Option<string>, chain: seq<Response>)
    decreases chain
  {
    && chain != [] && chain[0] == fetch(n, cursor)
    && if Continues(chain[0]) then Chain(fetch, n + 1, chain[0].nextCursor, chain[1..]) else |chain| == 1
  }

  function Items(r: Response): seq<Row> {
    if r.Page? then r.items else []
  }

  function AllItems(chain: seq<Response>): seq<Row> {
    if chain == [] then [] else Items(chain[0]) + AllItems(chain[1..])
  }

  // ----- The export ---------------------------------------------------------------------------

  datatype Format = CsvFormat | JsonFormat

  datatype Content = CsvText(text: string) | JsonRecords(records: seq<Record>)

  datatype Outcome = Success(content: Content, rows: nat, pages: nat) | Failed(message: string) | Cancelled |
      NoWallet | NoFetch

  /** `FIELDS.join(",") + "\r\n"`. */
  function Header(): string {
    Csv.Join(FIELDS, ",") + "\r\n"
  }

  /** The export of a whole history at once. */
  function Batch(header: string, rows: seq<Row>, format: Format): Content {
    match format
    case CsvFormat => CsvText(header + Csv.Lines(Map(RowFields, rows), "\r\n"))
    case JsonFormat => JsonRecords(Map(MapRecord, rows))
  }

  function HttpMessage(status: int): string {
    "Export failed (HTTP " + IntText(status) + ")"
  }

  /** What an export over a chain of responses ends with. */
  function Result(header: string, chain: seq<Response>, format: Format): Outcome
    requires chain != []
  {
    match chain[|chain| - 1]
    case Page(_, _) => Success(Batch(header, AllItems(chain), format), |AllItems(chain)|, |chain|)
    case HttpError(status) => Failed(HttpMessage(status))
    case Broken(message) => Failed(if message == "" then "Export failed. Please try again." else message)
    case Aborted => Cancelled
  }

  lemma {:induction false} AllItemsSnoc(chain: seq<Response>, r: Response)
    ensures AllItems(chain + [r]) == AllItems(chain) + Items(r)
  {
    if chain == [] {
      assert [] + [r] == [r] && [r][1..] == [];
    } else {
      AllItemsSnoc(chain[1..], r);
      HeadTail(chain);
      ConsConcat(chain[0], chain[1..], [r]);
      AllItemsCons(chain[0], chain[1..] + [r]);
      Associate(Items(chain[0]), AllItems(chain[1..]), Items(r));
    }
  }

  lemma AllItemsCons(r: Response, chain: seq<Response>)
    ensures AllItems([r] + chain) == Items(r) + AllItems(chain)
  {
    assert ([r] + chain)[1..] == chain;
  }

  lemma MapSnoc<A, B>(f: A -> B, a: seq<A>, x: A)
    ensures Map(f, a + [x]) == Map(f, a) + [f(x)]
  {
  }

  lemma LinesSnoc(records: seq<seq<string>>, fields: seq<string>, eol: string)
    ensures Csv.Lines(records + [fields], eol) == Csv.Lines(records, eol) + (Csv.Line(fields) + eol)
  {
    Csv.LinesConcat(records, [fields], eol);
    assert [fields][1..] == [];
    assert Csv.Lines([fields], eol) == Csv.Line(fields) + eol + "";
  }

  function AppendRow(content: Content, row: Row): Content {
    match content
    case CsvText(text) => CsvText(text + (Csv.Line(RowFields(row)) + "\r\n"))
    case JsonRecords(records) => JsonRecords(records + [MapRecord(row)])
  }

  /** One more row at the end of a batch. */
  lemma BatchSnoc(header: string, rows: seq<Row>, row: Row, format: Format)
    ensures Batch(header, rows + [row], format) == AppendRow(Batch(header, rows, format), row)
  {
    MapSnoc(RowFields, rows, row);
    MapSnoc(MapRecord, rows, row);
    LinesSnoc(Map(RowFields, rows), RowFields(row), "\r\n");
    Associate(header, Csv.Lines(Map(RowFields, rows), "\r\n"), Csv.Line(RowFields(row)) + "\r\n");
  }

  /** The rows of one page appended to what was built before. */
  method AppendPage(header: string, format: Format, before: Content, count: nat, items: seq<Row>, ghost done: seq<Row>)
    returns (content: Content, rows: nat)
    requires before == Batch(header, done, format) && count == |done|
    ensures content == Batch(header, done + items, format) && rows == |done + items|
  {
    content, rows := before, count;
    assert done + items[..0] == done;
    for i := 0 to |items|
      invariant content == Batch(header, done + items[..i], format)
      invariant rows == |done| + i
    {
      BatchSnoc(header, done + items[..i], items[i], format);
      assert (done + items[..i]) + [items[i]] == done + items[..i + 1];
      content := AppendRow(content, items[i]);
      rows := rows + 1;
    }
    assert items[..|items|] == items;
  }

  /**
   * Paged export equals batch export: for every finite chain of responses, the loop that appends each
   * page as it arrives ends with the export of all pages' rows at once, and counts them.
   */
  method Export(fetch: (nat, Option<string>) -> Response, header: string, format: Format, ghost chain: seq<Response>)
    returns (outcome: Outcome)
    requires Chain(fetch, 0, None, chain)
    ensures outcome == Result(header, chain, format)
  {
    var cursor: Option<string> := None;
    var rowsTotal, pages := 0, 0;
    var content := if format.CsvFormat? then CsvText(header) else JsonRecords([]);
    EmptyBatch(header, format);
    while true
      invariant pages < |chain| && Chain(fetch, pages, cursor, chain[pages..])
      invariant content == Batch(header, AllItems(chain[..pages]), format)
      invariant rowsTotal == |AllItems(chain[..pages])|
      decreases |chain| - pages
    {
      var res := fetch(pages, cursor);
      ChainHead(fetch, cursor, chain, pages);
      if res.HttpError? {
        return Failed(HttpMessage(res.status));
      }
      if res.Broken? {
        return Failed(if res.message == "" then "Export failed. Please try again." else res.message);
      }
      if res.Aborted? {
        return Cancelled;
      }
      content, rowsTotal := AppendPage(header, format, content, rowsTotal, res.items, AllItems(chain[..pages]));
      AllItemsSnoc(chain[..pages], res);
      assert chain[..pages + 1] == chain[..pages] + [res];
      pages := pages + 1;
      if !Continues(res) {
        assert chain[..pages] == chain;
        return Success(content, rowsTotal, pages);
      }
      cursor := res.nextCursor;
    }
  }

  /** `handleExport()`: the wallet and the fetch implementation may be missing. */
  method HandleExport(wallet: string, fetch: Option<(nat, Option<string>) -> Response>, format: Format,
      ghost chain: seq<Response>)
    returns (outcome: Outcome)
    requires fetch.Some? ==> Chain(fetch.value, 0, None, chain)
    ensures outcome ==
            if wallet == "" then NoWallet else if fetch.None? then NoFetch else Result(Header(), chain, format)
  {
    if wallet == "" {
      return NoWallet;
    }
    if fetch.None? {
      return NoFetch;
    }
    outcome := Export(fetch.value, Header(), format, chain);
  }

  lemma EmptyBatch(header: string, format: Format)
    ensures Batch(header, [], format) == if format.CsvFormat? then CsvText(header) else JsonRecords([])
  {
    assert Map(RowFields, []) == [] && Map(MapRecord, []) == [];
    assert header + "" == header;
  }

  /** The next response of a chain: it continues, or it is the last. */
  lemma ChainHead(fetch: (nat, Option<string>) -> Response, cursor: Option<string>, chain: seq<Response>, pages: nat)
    requires pages < |chain| && Chain(fetch, pages, cursor, chain[pages..])
    ensures fetch(pages, cursor) == chain[pages]
    ensures
      if Continues(chain[pages]) then
        pages + 1 < |chain| && Chain(fetch, pages + 1, chain[pages].nextCursor, chain[pages + 1..])
      else
        pages + 1 == |chain|
  {
    assert chain[pages..][0] == chain[pages] && chain[pages..][1..] == chain[pages + 1..];
  }

  predicate Plain(word: string) {
    forall k | 0 <= k < |word| :: 'a' <= word[k] <= 'z' || word[k] == '_'
  }

  lemma PlainLine(fields: seq<string>)
    requires forall i | 0 <= i < |fields| :: Plain(fields[i])
    ensures Csv.Line(fields) == Csv.Join(fields, ",")
  {
    forall i | 0 <= i < |fields| ensures Csv.Cell(fields[i]) == fields[i] {
      PlainCell(fields[i]);
    }
    MapIdentity(Csv.Cell, fields);
  }

  lemma PlainCell(word: string)
    requires Plain(word)
    ensures Csv.Cell(word) == word
  {
    assert forall k | 0 <= k < |word| :: !Csv.Special(word[k]);
  }

  lemma FieldNamesPlain()
    ensures Plain("id") && Plain("date") && Plain("action_type") && Plain("pool_id") && Plain("asset")
    ensures Plain("amount") && Plain("status") && Plain("tx_hash") && Plain("error_code")
    ensures Plain("submitted_at") && Plain("confirmed_at")
  {
  }

  /** None of the column names needs quotes. */
  lemma {:induction false} HeaderIsLine()
    ensures Csv.Line(FIELDS) + "\r\n" == Header()
  {
    FieldNamesPlain();
    PlainLine(FIELDS);
  }

  lemma NoneEmpty(fields: seq<string>, rows: seq<seq<string>>)
    requires fields != [] && forall i | 0 <= i < |rows| :: rows[i] != []
    ensures var all := [fields] + rows; forall i | 0 <= i < |all| :: all[i] != []
  {
  }

  lemma {:induction false} FirstLine(fields: seq<string>, rows: seq<seq<string>>)
    requires fields != [] && forall i | 0 <= i < |rows| :: rows[i] != []
    ensures Csv.ReadFile((Csv.Line(fields) + "\r\n") + Csv.Lines(rows, "\r\n")) == Some([fields] + rows)
  {
    Csv.LinesCons(fields, rows, "\r\n");
    NoneEmpty(fields, rows);
    Csv.ReadLines([fields] + rows, "\r\n");
  }

  lemma {:induction false} ReadsBackUnder(fields: seq<string>, chain: seq<Response>)
    requires fields != [] && chain != [] && chain[|chain| - 1].Page?
    ensures Csv.ReadFile(Result(Csv.Line(fields) + "\r\n", chain, CsvFormat).content.text)
         == Some([fields] + Map(RowFields, AllItems(chain)))
  {
    RowsNotEmpty(AllItems(chain));
    FirstLine(fields, Map(RowFields, AllItems(chain)));
  }

  lemma RowsNotEmpty(rows: seq<Row>)
    ensures forall i | 0 <= i < |Map(RowFields, rows)| :: Map(RowFields, rows)[i] != []
  {
    forall i | 0 <= i < |Map(RowFields, rows)| ensures Map(RowFields, rows)[i] != [] {
      assert |RowFields(rows[i])| == 11;
    }
  }

  /** The exported CSV reads back as the header and the mapped fields of every row, in order. */
  lemma {:induction false} ExportReadsBack(chain: seq<Response>)
    requires chain != [] && chain[|chain| - 1].Page?
    ensures Csv.ReadFile(Result(Header(), chain, CsvFormat).content.text) == Some([FIELDS] + Map(RowFields,
              AllItems(chain)))
  {
    HeaderIsLine();
    ReadsBackUnder(FIELDS, chain);
  }

  /**
   * How a history is split into pages makes no difference to what is exported. Nothing else is lost:
   * two histories export the same CSV exactly when their rows map to the same fields, in the same order.
   */
  lemma {:induction false} PagingIsInvisible(a: seq<Response>, b: seq<Response>)
    requires a != [] && b != [] && a[|a| - 1].Page? && b[|b| - 1].Page?
    ensures AllItems(a) == AllItems(b) ==>
              forall format :: Result(Header(), a, format).content == Result(Header(), b, format).content
                            && Result(Header(), a, format).rows == Result(Header(), b, format).rows
    ensures Result(Header(), a, CsvFormat).content == Result(Header(), b, CsvFormat).content <==>
            Map(RowFields, AllItems(a)) == Map(RowFields, AllItems(b))
  {
    ExportReadsBack(a);
    ExportReadsBack(b);
    SameTail(FIELDS, Map(RowFields, AllItems(a)), Map(RowFields, AllItems(b)));
  }

  lemma SameTail<A>(x: A, a: seq<A>, b: seq<A>)
    ensures [x] + a == [x] + b <==> a == b
  {
    assert ([x] + a)[1..] == a && ([x] + b)[1..] == b;
  }
}

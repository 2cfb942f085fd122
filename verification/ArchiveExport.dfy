/**
 * The round archive: normalised records in canonical order, their hash, redacted winners, CSV,
 * filters and totals. Locale comparison, the printed win rate and lower-casing are parameters.
 */
module ArchiveExport {

  import opened Sequences
  import opened DecimalText
  import opened TextOrder
  import opened Locale
  import Csv
  import Fnv1a
  import Sorting

  /** `compare` is localeCompare; `rate(w, p)` prints `Number((w / p).toFixed(4))`. */
  datatype Host = Host(compare: (string, string) -> int, rate: (int, int) -> string, lower: string -> string)

  datatype Winner = Winner(rank: Option<int>, walletAddress: Option<string>, amount: int)

  datatype Round = Round(
    id: string, vaultId: string, vaultName: string, asset: string, network: string, startDate: string,
    endDate: string, participants: int, totalDeposits: int, eligibleDeposits: Option<int>,
    yieldGenerated: int, prizePayout: int, winnerCount: Option<int>, winners: Option<seq<Winner>>,
    proofHash: Option<string>, claimStatus: Option<string>)

  datatype Record = Record(
    id: string, vaultId: string, vaultName: string, asset: string, network: string, startDate: string,
    endDate: string, participants: int, totalDeposits: int, eligibleDeposits: int, yieldGenerated: int,
    prizePayout: int, winnerCount: int, winRate: string, claimStatus: string, proofHash: string)

  datatype WinnerRecord = WinnerRecord(roundId: string, rank: int, walletAddress: Option<string>, amount: int)

  datatype Document = Document(
    id: string, source: string, generatedAt: string, count: nat, redacted: bool,
    records: seq<Record>, winners: seq<WinnerRecord>, proofHash: string)

  datatype Options = Options(generatedAt: Option<string>, source: Option<string>, id: Option<string>,
      redact: Option<bool>)

  // ----- Records --------------------------------------------------------------------------

  /** `normalizeArchiveRecord(round)`. */
  function Normalize(host: Host, r: Round): Record {
    var winnerCount := r.winnerCount.GetOr(if r.winners.Some? then |r.winners.value| else 0);
    var participants := if r.participants > 0 then r.participants else 0;
    Record(r.id, r.vaultId, r.vaultName, r.asset, r.network, r.startDate, r.endDate, participants,
           r.totalDeposits, r.eligibleDeposits.GetOr(r.totalDeposits), r.yieldGenerated, r.prizePayout, winnerCount,
           if participants > 0 then host.rate(winnerCount, participants) else "0",
           r.claimStatus.GetOr("claimed"), r.proofHash.GetOr(Fnv1a.HexHash(r.id)))
  }

  function Normalizer(host: Host): Round -> Record {
    (r: Round) => Normalize(host, r)
  }

  /** Newest first, then by id. */
  function ArchiveOrder(compare: (string, string) -> int): (Record, Record) -> bool {
    (a: Record, b: Record) =>
      var byDate := compare(b.endDate, a.endDate);
      (if byDate != 0 then byDate else compare(a.id, b.id)) <= 0
  }

  const COLUMNS: seq<string> := [
    "id", "vaultId", "vaultName", "asset", "network", "startDate", "endDate", "participants",
    "totalDeposits", "eligibleDeposits", "yieldGenerated", "prizePayout", "winnerCount", "winRate",
    "claimStatus", "proofHash"]

  /** `CSV_COLUMNS.map(col => String(r[col]))`. */
  function Fields(r: Record): (fields: seq<string>)
    ensures |fields| == |COLUMNS|
  {
    [r.id, r.vaultId, r.vaultName, r.asset, r.network, r.startDate, r.endDate, IntText(r.participants),
     IntText(r.totalDeposits), IntText(r.eligibleDeposits), IntText(r.yieldGenerated), IntText(r.prizePayout),
     IntText(r.winnerCount), r.winRate, r.claimStatus, r.proofHash]
  }

  function CanonicalRow(r: Record): string {
    Csv.Join(Fields(r), "|")
  }

  function CanonicalRows(records: seq<Record>): string {
    Csv.Join(Map(CanonicalRow, records), "\n")
  }

  // ----- Winners ----------------------------------------------------------------------------

  function WinnersOf(r: Round): seq<Winner> {
    r.winners.GetOr([])
  }

  /** A winner as exported from position `k`: its own rank, or the position counted from 1. */
  function Export(roundId: string, w: Winner, k: nat, redacted: bool): WinnerRecord {
    var address := if !redacted && w.walletAddress.Some? && w.walletAddress.value != "" then w.walletAddress else None;
    WinnerRecord(roundId, w.rank.GetOr(k + 1), address, w.amount)
  }

  /** The winners of one round, numbered from position `k`. */
  function ExportRound(roundId: string, ws: seq<Winner>, k: nat, redacted: bool): seq<WinnerRecord> {
    if ws == [] then [] else [Export(roundId, ws[0], k, redacted)] + ExportRound(roundId, ws[1..], k + 1, redacted)
  }

  function ExportRounds(rounds: seq<Round>, k: nat, redacted: bool): seq<WinnerRecord> {
    if rounds == [] then []
    else
      ExportRound(rounds[0].id, WinnersOf(rounds[0]), k, redacted) +
      ExportRounds(rounds[1..], k + |WinnersOf(rounds[0])|, redacted)
  }

  lemma {:induction false} ExportRoundLength(roundId: string, ws: seq<Winner>, k: nat, redacted: bool)
    ensures |ExportRound(roundId, ws, k, redacted)| == |ws|
  {
    if ws != [] {
      ExportRoundLength(roundId, ws[1..], k + 1, redacted);
    }
  }

  /** The loop over the rounds and their winners. */
  method CollectWinners(rounds: seq<Round>, redacted: bool) returns (winners: seq<WinnerRecord>)
    ensures winners == ExportRounds(rounds, 0, redacted)
  {
    winners := [];
    for i := 0 to |rounds|
      invariant winners + ExportRounds(rounds[i..], |winners|, redacted) == ExportRounds(rounds, 0, redacted)
    {
      ghost var before, round := winners, ExportRound(rounds[i].id, WinnersOf(rounds[i]), |winners|, redacted);
      ExportRoundLength(rounds[i].id, WinnersOf(rounds[i]), |before|, redacted);
      winners := AppendRound(rounds[i].id, WinnersOf(rounds[i]), redacted, winners);
      assert rounds[i..][1..] == rounds[i + 1..];
      Associate(before, round, ExportRounds(rounds[i + 1..], |winners|, redacted));
    }
  }

  /** The inner loop: one round's winners at the end of the list. */
  method AppendRound(roundId: string, ws: seq<Winner>, redacted: bool, before: seq<WinnerRecord>)
    returns (winners: seq<WinnerRecord>)
    ensures winners == before + ExportRound(roundId, ws, |before|, redacted)
  {
    winners := before;
    for j := 0 to |ws|
      invariant |winners| == |before| + j
      invariant winners + ExportRound(roundId, ws[j..], |winners|, redacted) == before + ExportRound(roundId,
          ws, |before|, redacted)
    {
      var next := Export(roundId, ws[j], |winners|, redacted);
      assert ws[j..][1..] == ws[j + 1..];
      Associate(winners, [next], ExportRound(roundId, ws[j + 1..], |winners| + 1, redacted));
      winners := winners + [next];
    }
  }

  // ----- The document -------------------------------------------------------------------------

  function SortedRecords(host: Host, rounds: seq<Round>): seq<Record> {
    Sorting.Sort(ArchiveOrder(host.compare), Map(Normalizer(host), rounds))
  }

  /** `createArchiveExport(rounds, options)`; `now` is the clock reading used without an explicit timestamp. */
  method CreateArchiveExport(host: Host, rounds: seq<Round>, options: Options, now: string) returns (d: Document)
    ensures d.records == SortedRecords(host, rounds) && d.count == |rounds|
    ensures d.winners == ExportRounds(rounds, 0, d.redacted)
    ensures d.redacted <==> options.redact != Some(false)
    ensures d.proofHash == Fnv1a.HexHash(CanonicalRows(d.records))
    ensures d.generatedAt == options.generatedAt.GetOr(now) && d.id == options.id.GetOr("archive-" + d.generatedAt)
    ensures d.source == options.source.GetOr("vaultquest.mock")
  {
    var redacted := options.redact != Some(false);
    var generatedAt := options.generatedAt.GetOr(now);
    var records := Sorting.Sort(ArchiveOrder(host.compare), Map(Normalizer(host), rounds));
    Sorting.SortPermutes(ArchiveOrder(host.compare), Map(Normalizer(host), rounds));
    var winners := CollectWinners(rounds, redacted);
    d := Document(options.id.GetOr("archive-" + generatedAt), options.source.GetOr("vaultquest.mock"), generatedAt,
                  |records|, redacted, records, winners, Fnv1a.HexHash(CanonicalRows(records)));
  }

  // ----- Canonical order ------------------------------------------------------------------------

  lemma ArchiveOrderTotal(compare: (string, string) -> int)
    requires LocaleOrder(compare)
    ensures Sorting.TotalPreorder(ArchiveOrder(compare))
  {
    var le := ArchiveOrder(compare);
    forall a: Record, b: Record, c: Record | le(a, b) && le(b, c) ensures le(a, c) {
      assert compare(c.endDate, b.endDate) <= 0 && compare(b.endDate, a.endDate) <= 0;
      assert compare(c.endDate, a.endDate) <= 0;
      if compare(c.endDate, a.endDate) == 0 {
        assert compare(a.endDate, b.endDate) <= 0;
        assert compare(b.endDate, a.endDate) == 0 && compare(c.endDate, b.endDate) == 0;
      }
    }
    forall a: Record, b: Record ensures le(a, b) || le(b, a) {
      assert compare(b.endDate, a.endDate) <= 0 <==> compare(a.endDate, b.endDate) >= 0;
    }
  }

  /** The records are the normalised rounds, newest end date first and ids ascending among equal dates. */
  lemma {:induction false} RecordsInCanonicalOrder(host: Host, rounds: seq<Round>)
    requires LocaleOrder(host.compare)
    ensures var rs := SortedRecords(host, rounds);
            && multiset(rs) == multiset(Map(Normalizer(host), rounds))
            && forall i, j | 0 <= i < j < |rs| ::
                 && host.compare(rs[j].endDate, rs[i].endDate) <= 0
                 && (rs[i].endDate == rs[j].endDate ==> host.compare(rs[i].id, rs[j].id) <= 0)
  {
    var le := ArchiveOrder(host.compare);
    var rs := SortedRecords(host, rounds);
    ArchiveOrderTotal(host.compare);
    Sorting.SortSorted(le, Map(Normalizer(host), rounds));
    Sorting.SortPermutes(le, Map(Normalizer(host), rounds));
    forall i, j | 0 <= i < j < |rs|
      ensures && host.compare(rs[j].endDate, rs[i].endDate) <= 0
              && (rs[i].endDate == rs[j].endDate ==> host.compare(rs[i].id, rs[j].id) <= 0)
    {
      assert le(rs[i], rs[j]);
      CompareSelf(host.compare, rs[i].endDate);
    }
  }

  /** Rounds that tie in end date and id normalise to the same record. */
  predicate TiedAlike(host: Host, rounds: seq<Round>) {
    forall i, j | 0 <= i < j < |rounds| && rounds[i].endDate == rounds[j].endDate && rounds[i].id == rounds[j].id ::
      Normalize(host, rounds[i]) == Normalize(host, rounds[j])
  }

  lemma TiedRecords(compare: (string, string) -> int, x: Record, y: Record)
    requires LocaleOrder(compare)
    ensures ArchiveOrder(compare)(x, y) && ArchiveOrder(compare)(y, x) <==> x.endDate == y.endDate && x.id == y.id
  {
    CompareSelf(compare, x.endDate);
    CompareSelf(compare, x.id);
    assert compare(y.endDate, x.endDate) <= 0 <==> compare(x.endDate, y.endDate) >= 0;
    assert compare(x.endDate, y.endDate) <= 0 <==> compare(y.endDate, x.endDate) >= 0;
    assert compare(x.id, y.id) <= 0 <==> compare(y.id, x.id) >= 0;
    assert compare(y.id, x.id) <= 0 <==> compare(x.id, y.id) >= 0;
  }

  lemma AlikeHasNoTies(host: Host, rounds: seq<Round>)
    requires LocaleOrder(host.compare) && TiedAlike(host, rounds)
    ensures Sorting.NoTies(ArchiveOrder(host.compare), Map(Normalizer(host), rounds))
  {
    var le, rs := ArchiveOrder(host.compare), Map(Normalizer(host), rounds);
    forall x, y | x in rs && y in rs && le(x, y) && le(y, x) ensures x == y {
      TiedRecords(host.compare, x, y);
      var i := RoundOf(host, rounds, x);
      var j := RoundOf(host, rounds, y);
    }
  }

  lemma RoundOf(host: Host, rounds: seq<Round>, x: Record) returns (i: nat)
    requires x in Map(Normalizer(host), rounds)
    ensures i < |rounds| && Normalize(host, rounds[i]) == x && x.id == rounds[i].id && x.endDate == rounds[i].endDate
  {
    i :| 0 <= i < |rounds| && Map(Normalizer(host), rounds)[i] == x;
  }

  lemma {:induction false} UnlikeHasTie(host: Host, rounds: seq<Round>, i: nat, j: nat)
    requires LocaleOrder(host.compare) && i < |rounds| && j < |rounds|
    requires rounds[i].endDate == rounds[j].endDate && rounds[i].id == rounds[j].id
    requires Normalize(host, rounds[i]) != Normalize(host, rounds[j])
    ensures !Sorting.NoTies(ArchiveOrder(host.compare), Map(Normalizer(host), rounds))
  {
    var rs := Map(Normalizer(host), rounds);
    TiedRecords(host.compare, rs[i], rs[j]);
    assert rs[i] in rs && rs[j] in rs;
  }

  ghost predicate RecordsForgetOrder(host: Host, a: seq<Round>) {
    forall b | multiset(b) == multiset(a) :: SortedRecords(host, b) == SortedRecords(host, a)
  }

  lemma ForgetsIsMapped(host: Host, a: seq<Round>)
    ensures RecordsForgetOrder(host, a) <==> Sorting.MappedForgets(ArchiveOrder(host.compare), Normalizer(host), a)
  {
    forall b: seq<Round>
      ensures SortedRecords(host, b) == Sorting.Sort(ArchiveOrder(host.compare), Map(Normalizer(host), b))
    {
    }
  }

  /** The records do not depend on the order of the input exactly when tied rounds have equal records. */
  lemma {:induction false} RecordsForgetOrderExactly(host: Host, a: seq<Round>)
    requires LocaleOrder(host.compare)
    ensures RecordsForgetOrder(host, a) <==> TiedAlike(host, a)
  {
    ArchiveOrderTotal(host.compare);
    ForgetsIsMapped(host, a);
    Sorting.MappedForgetsOrderExactly(ArchiveOrder(host.compare), Normalizer(host), a);
    if TiedAlike(host, a) {
      AlikeHasNoTies(host, a);
    } else {
      var i, j := UnlikePair(host, a);
      UnlikeHasTie(host, a, i, j);
    }
  }

  lemma UnlikePair(host: Host, a: seq<Round>) returns (i: nat, j: nat)
    requires !TiedAlike(host, a)
    ensures i < |a| && j < |a| && a[i].endDate == a[j].endDate && a[i].id == a[j].id
    ensures Normalize(host, a[i]) != Normalize(host, a[j])
  {
    i, j :| 0 <= i < j < |a| && a[i].endDate == a[j].endDate && a[i].id == a[j].id
            && Normalize(host, a[i]) != Normalize(host, a[j]);
  }

  ghost predicate DistinctRounds(rounds: seq<Round>) {
    forall i, j | 0 <= i < j < |rounds| :: rounds[i].endDate != rounds[j].endDate || rounds[i].id != rounds[j].id
  }

  /** With distinct (endDate, id) pairs the records and the hash do not depend on the order of the input. */
  lemma {:induction false} ExportForgetsOrder(host: Host, a: seq<Round>, b: seq<Round>)
    requires LocaleOrder(host.compare) && DistinctRounds(a) && multiset(a) == multiset(b)
    ensures SortedRecords(host, a) == SortedRecords(host, b)
    ensures Fnv1a.HexHash(CanonicalRows(SortedRecords(host, a))) == Fnv1a.HexHash(CanonicalRows(SortedRecords(host, b)))
  {
    RecordsForgetOrderExactly(host, a);
  }

  // ----- The winners depend on the order of the rounds -----------------------------------------

  ghost predicate DistinctIds(rounds: seq<Round>) {
    forall i, j | 0 <= i < j < |rounds| :: rounds[i].id != rounds[j].id
  }

  predicate AtMostOneHasWinners(rounds: seq<Round>) {
    forall i, j | 0 <= i < j < |rounds| :: WinnersOf(rounds[i]) == [] || WinnersOf(rounds[j]) == []
  }

  lemma {:induction false} NoWinners(rounds: seq<Round>, k: nat, redacted: bool)
    requires forall r | r in rounds :: WinnersOf(r) == []
    ensures ExportRounds(rounds, k, redacted) == []
  {
    if rounds != [] {
      NoWinners(rounds[1..], k, redacted);
    }
  }

  /** Where one round alone can have winners, they are exported as if it were the only round. */
  lemma {:induction false} OnlyWinners(rounds: seq<Round>, i: nat, k: nat, redacted: bool)
    requires i < |rounds| && forall j | 0 <= j < |rounds| && j != i :: WinnersOf(rounds[j]) == []
    ensures ExportRounds(rounds, k, redacted) == ExportRound(rounds[i].id, WinnersOf(rounds[i]), k, redacted)
  {
    if i == 0 {
      NoWinners(rounds[1..], k + |WinnersOf(rounds[0])|, redacted);
    } else {
      OnlyWinners(rounds[1..], i - 1, k, redacted);
    }
  }

  lemma OneRoundForgetsOrder(a: seq<Round>, b: seq<Round>, redacted: bool)
    requires DistinctIds(a) && AtMostOneHasWinners(a) && multiset(a) == multiset(b)
    ensures ExportRounds(a, 0, redacted) == ExportRounds(b, 0, redacted)
  {
    forall r ensures r in a <==> r in b {
      assert r in multiset(a) <==> r in multiset(b);
    }
    if i :| 0 <= i < |a| && WinnersOf(a[i]) != [] {
      assert a[i] in b;
      var j :| 0 <= j < |b| && b[j] == a[i];
      OthersWithout(a, b, i, j);
      OnlyWinners(a, i, 0, redacted);
      OnlyWinners(b, j, 0, redacted);
    } else {
      NoWinners(a, 0, redacted);
      NoWinners(b, 0, redacted);
    }
  }

  lemma OthersWithout(a: seq<Round>, b: seq<Round>, i: nat, j: nat)
    requires DistinctIds(a) && AtMostOneHasWinners(a) && multiset(a) == multiset(b)
    requires i < |a| && j < |b| && b[j] == a[i] && WinnersOf(a[i]) != []
    ensures forall k | 0 <= k < |b| && k != j :: WinnersOf(b[k]) == []
  {
    assert Distinct(a);
    DistinctPermutation(a, b);
    forall k | 0 <= k < |b| && k != j ensures WinnersOf(b[k]) == [] {
      assert b[k] in multiset(b);
      assert b[k] in a && b[k] != b[j];
    }
  }

  /** The first exported winner is the first winner of the round in front. */
  lemma FirstExported(r: Round, rest: seq<Round>, redacted: bool)
    requires WinnersOf(r) != []
    ensures ExportRounds([r] + rest, 0, redacted) != [] && ExportRounds([r] + rest, 0, redacted)[0].roundId == r.id
  {
    assert ([r] + rest)[0] == r && ([r] + rest)[1..] == rest;
    var exported := ExportRound(r.id, WinnersOf(r), 0, redacted);
    assert exported[0] == Export(r.id, WinnersOf(r)[0], 0, redacted);
  }

  /**
   * With distinct round ids, the exported winners do not depend on the order of the rounds exactly when
   * at most one round has winners, redacted or not.
   */
  lemma {:induction false} WinnersForgetOrderExactly(a: seq<Round>, redacted: bool)
    requires DistinctIds(a)
    ensures (forall b | multiset(b) == multiset(a) :: ExportRounds(b, 0, redacted) == ExportRounds(a, 0, redacted))
       <==> AtMostOneHasWinners(a)
  {
    if AtMostOneHasWinners(a) {
      forall b | multiset(b) == multiset(a) ensures ExportRounds(b, 0, redacted) == ExportRounds(a, 0, redacted) {
        OneRoundForgetsOrder(a, b, redacted);
      }
    } else {
      var i, j :| 0 <= i < j < |a| && WinnersOf(a[i]) != [] && WinnersOf(a[j]) != [];
      FirstExported(a[i], a[..i] + a[i + 1..], redacted);
      FirstExported(a[j], a[..j] + a[j + 1..], redacted);
      assert ExportRounds(Fronted(a, i), 0, redacted) != ExportRounds(Fronted(a, j), 0, redacted);
    }
  }

  /** A redacted export carries no wallet address, whatever the input. */
  lemma {:induction false} RedactedWinners(rounds: seq<Round>, k: nat)
    ensures forall w | w in ExportRounds(rounds, k, true) :: w.walletAddress == None
  {
    if rounds != [] {
      RedactedRound(rounds[0].id, WinnersOf(rounds[0]), k);
      RedactedWinners(rounds[1..], k + |WinnersOf(rounds[0])|);
    }
  }

  lemma {:induction false} RedactedRound(roundId: string, ws: seq<Winner>, k: nat)
    ensures forall w | w in ExportRound(roundId, ws, k, true) :: w.walletAddress == None
  {
    if ws != [] {
      RedactedRound(roundId, ws[1..], k + 1);
    }
  }

  // ----- CSV ----------------------------------------------------------------------------------------

  /** `archiveToCSV(records)`. */
  function ArchiveToCsv(records: seq<Record>): string {
    Csv.Join([Csv.Line(COLUMNS)] + Map(RecordLine, records), "\n") + "\n"
  }

  function RecordLine(r: Record): string {
    Csv.Line(Fields(r))
  }

  /** CSV round trip: reading the export back gives the header and every record's field strings. */
  lemma {:induction false} CsvRoundTrip(records: seq<Record>)
    ensures Csv.ReadFile(ArchiveToCsv(records)) == Some([COLUMNS] + Map(Fields, records))
  {
    TableRoundTrip(COLUMNS, records);
  }

  lemma TableRoundTrip(columns: seq<string>, records: seq<Record>)
    requires columns != []
    ensures Csv.ReadFile(Csv.Join([Csv.Line(columns)] + Map(RecordLine, records), "\n") + "\n")
         == Some([columns] + Map(Fields, records))
  {
    var rows := [columns] + Map(Fields, records);
    MapCons(Csv.Line, columns, Map(Fields, records));
    assert Map(Csv.Line, Map(Fields, records)) == Map(RecordLine, records);
    Csv.JoinedLines(rows, "\n");
    RowsNotEmpty(columns, records);
    Csv.ReadLines(rows, "\n");
  }

  lemma RowsNotEmpty(columns: seq<string>, records: seq<Record>)
    requires columns != []
    ensures var rows := [columns] + Map(Fields, records); forall i | 0 <= i < |rows| :: rows[i] != []
  {
    var rows := [columns] + Map(Fields, records);
    forall i | 0 <= i < |rows| ensures rows[i] != [] {
      assert i > 0 ==> rows[i] == Fields(records[i - 1]);
    }
  }

  // ----- Filters and totals ---------------------------------------------------------------------------

  datatype ArchiveFilter = ArchiveFilter(fromDate: Option<string>, toDate: Option<string>,
                                         network: Option<string>, vaultId: Option<string>)

  predicate Given(s: Option<string>) {
    s.Some? && s.value != ""
  }

  predicate Passes(host: Host, f: ArchiveFilter, r: Record) {
    if Given(f.fromDate) && TextLess(r.endDate, f.fromDate.value) then false
    else if Given(f.toDate) && TextLess(f.toDate.value, r.endDate) then false
    else if Given(f.network) && host.lower(r.network) != host.lower(f.network.value) then false
    else if f.vaultId.Some? && r.vaultId != f.vaultId.value then false
    else true
  }

  function Keeps(host: Host, f: ArchiveFilter): Record -> bool {
    (r: Record) => Passes(host, f, r)
  }

  function Drops(host: Host, f: ArchiveFilter): Record -> bool {
    (r: Record) => !Passes(host, f, r)
  }

  /** `filterArchiveRecords(records, filter)`. */
  function FilterRecords(host: Host, f: ArchiveFilter, records: seq<Record>): seq<Record> {
    Filter(Keeps(host, f), records)
  }

  datatype Summary = Summary(rounds: int, participants: int, eligibleDeposits: int, deposits: int,
                             prizesPaid: int, winners: int)

  const NOTHING := Summary(0, 0, 0, 0, 0, 0)

  function Plus(a: Summary, b: Summary): Summary {
    Summary(a.rounds + b.rounds, a.participants + b.participants, a.eligibleDeposits + b.eligibleDeposits,
            a.deposits + b.deposits, a.prizesPaid + b.prizesPaid, a.winners + b.winners)
  }

  function Count(acc: Summary, r: Record): Summary {
    Summary(acc.rounds + 1, acc.participants + r.participants, acc.eligibleDeposits + r.eligibleDeposits,
            acc.deposits + r.totalDeposits, acc.prizesPaid + r.prizePayout, acc.winners + r.winnerCount)
  }

  function SummarizeFrom(acc: Summary, records: seq<Record>): Summary
    decreases records
  {
    if records == [] then acc else SummarizeFrom(Count(acc, records[0]), records[1..])
  }

  /** `summarizeArchive(records)`. */
  function Summarize(records: seq<Record>): Summary {
    SummarizeFrom(NOTHING, records)
  }

  lemma {:induction false} SummaryShifts(acc: Summary, records: seq<Record>)
    ensures SummarizeFrom(acc, records) == Plus(acc, Summarize(records))
    decreases records
  {
    if records != [] {
      SummaryShifts(Count(acc, records[0]), records[1..]);
      SummaryShifts(Count(NOTHING, records[0]), records[1..]);
    }
  }

  lemma SummaryCons(r: Record, tail: seq<Record>)
    ensures Summarize([r] + tail) == Plus(Count(NOTHING, r), Summarize(tail))
  {
    assert ([r] + tail)[1..] == tail;
    SummaryShifts(Count(NOTHING, r), tail);
  }

  /** Totals of a concatenation are the sums of the totals. */
  lemma {:induction false} SummaryAdditive(a: seq<Record>, b: seq<Record>)
    ensures Summarize(a + b) == Plus(Summarize(a), Summarize(b))
  {
    if a == [] {
      assert a + b == b;
    } else {
      SummaryAdditive(a[1..], b);
      HeadTail(a);
      ConsConcat(a[0], a[1..], b);
      AdditiveCons(a[0], a[1..], b);
    }
  }

  lemma {:induction false} AdditiveCons(r: Record, a: seq<Record>, b: seq<Record>)
    requires Summarize(a + b) == Plus(Summarize(a), Summarize(b))
    ensures Summarize([r] + (a + b)) == Plus(Summarize([r] + a), Summarize(b))
  {
    SummaryCons(r, a + b);
    SummaryCons(r, a);
  }

  lemma {:induction false} PartitionTotals(keep: Record -> bool, drop: Record -> bool, records: seq<Record>)
    requires forall r :: drop(r) == !keep(r)
    ensures Summarize(records) == Plus(Summarize(Filter(keep, records)), Summarize(Filter(drop, records)))
  {
    if records == [] {
      NothingLeft(keep, drop);
    } else {
      PartitionTotals(keep, drop, records[1..]);
      PartitionStep(keep, drop, records[0], records[1..]);
      HeadTail(records);
    }
  }

  lemma NothingLeft(keep: Record -> bool, drop: Record -> bool)
    ensures Summarize([]) == Plus(Summarize(Filter(keep, [])), Summarize(Filter(drop, [])))
  {
  }

  lemma {:induction false} PartitionStep(keep: Record -> bool, drop: Record -> bool, r: Record, tail: seq<Record>)
    requires drop(r) == !keep(r)
    requires Summarize(tail) == Plus(Summarize(Filter(keep, tail)), Summarize(Filter(drop, tail)))
    ensures Summarize([r] + tail) == Plus(Summarize(Filter(keep, [r] + tail)), Summarize(Filter(drop, [r] + tail)))
  {
    FilterHead(keep, r, tail);
    FilterHead(drop, r, tail);
    if keep(r) {
      KeptCons(r, tail, Filter(keep, tail), Filter(drop, tail));
    } else {
      DroppedCons(r, tail, Filter(keep, tail), Filter(drop, tail));
    }
  }

  /** The totals of what a filter keeps and of what it drops add up to the totals of everything. */
  lemma {:induction false} FilterPartitionsTotals(host: Host, f: ArchiveFilter, records: seq<Record>)
    ensures Summarize(records) == Plus(Summarize(FilterRecords(host, f, records)),
                                       Summarize(Filter(Drops(host, f), records)))
  {
    PartitionTotals(Keeps(host, f), Drops(host, f), records);
  }

  lemma FilterHead(p: Record -> bool, r: Record, tail: seq<Record>)
    ensures Filter(p, [r] + tail) == if p(r) then [r] + Filter(p, tail) else Filter(p, tail)
  {
    assert ([r] + tail)[1..] == tail;
  }

  lemma {:induction false} KeptCons(r: Record, all: seq<Record>, kept: seq<Record>, dropped: seq<Record>)
    requires Summarize(all) == Plus(Summarize(kept), Summarize(dropped))
    ensures Summarize([r] + all) == Plus(Summarize([r] + kept), Summarize(dropped))
  {
    SummaryCons(r, all);
    SummaryCons(r, kept);
  }

  lemma {:induction false} DroppedCons(r: Record, all: seq<Record>, kept: seq<Record>, dropped: seq<Record>)
    requires Summarize(all) == Plus(Summarize(kept), Summarize(dropped))
    ensures Summarize([r] + all) == Plus(Summarize(kept), Summarize([r] + dropped))
  {
    SummaryCons(r, all);
    SummaryCons(r, dropped);
  }
}

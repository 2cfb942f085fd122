/** The assembled proof does not depend on the order in which participants are listed. */
module DrawOrder {

  import opened Sequences
  import opened DecimalText
  import opened Json
  import opened DrawProof
  import opened DrawProofBinding
  import opened Locale
  import Sorting

  ghost predicate DistinctAddresses(ps: seq<Participant>) {
    forall i, j | 0 <= i < j < |ps| :: ps[i].address != ps[j].address
  }

  lemma AddressOrder(compare: (string, string) -> int)
    requires LocaleOrder(compare)
    ensures Sorting.TotalPreorder(ByAddress(compare)) && Sorting.TotalPreorder(ByTicketAddress(compare))
  {
    forall x: Participant, y: Participant, z: Participant | ByAddress(compare)(x, y) && ByAddress(compare)(y, z)
      ensures ByAddress(compare)(x, z)
    {
      assert compare(x.address, y.address) <= 0 && compare(y.address, z.address) <= 0;
    }
    forall x: TicketWeight, y: TicketWeight, z: TicketWeight
      | ByTicketAddress(compare)(x, y) && ByTicketAddress(compare)(y, z)
      ensures ByTicketAddress(compare)(x, z)
    {
      assert compare(x.address, y.address) <= 0 && compare(y.address, z.address) <= 0;
    }
  }

  lemma ParticipantsHashForgetsOrder(p: Primitives, ps: seq<Participant>, qs: seq<Participant>)
    requires LocaleOrder(p.compare) && DistinctAddresses(ps) && multiset(ps) == multiset(qs)
    ensures ParticipantsHash(p, ps) == ParticipantsHash(p, qs)
  {
    TiedHashesForgetOrder(p, ps, qs);
  }

  // ----- Hashes over rows in address order -----------------------------------------------------

  function RowAddress(row: Json): string {
    if row.JArray? && row.items != [] && row.items[0].JString? then row.items[0].s else ""
  }

  function RowOrder(compare: (string, string) -> int): (Json, Json) -> bool {
    (a: Json, b: Json) => compare(RowAddress(a), RowAddress(b)) <= 0
  }

  /** Each participant is printed as a row that begins with its address. */
  ghost predicate PrintsAddress(row: Participant -> Json) {
    forall e :: RowAddress(row(e)) == e.address
  }

  /** Participants that share an address print the same row. */
  predicate TiedPrintAlike(row: Participant -> Json, ps: seq<Participant>) {
    forall i, j | 0 <= i < j < |ps| && ps[i].address == ps[j].address :: row(ps[i]) == row(ps[j])
  }

  function RowsHash(p: Primitives, row: Participant -> Json, ps: seq<Participant>): string {
    p.sha256(Stringify(JArray(SortedRows(p.compare, row, ps))))
  }

  function SortedRows(compare: (string, string) -> int, row: Participant -> Json, ps: seq<Participant>): seq<Json> {
    Sorting.Sort(RowOrder(compare), Map(row, ps))
  }

  lemma RowOrderTotal(compare: (string, string) -> int)
    requires LocaleOrder(compare)
    ensures Sorting.TotalPreorder(RowOrder(compare))
  {
    var le := RowOrder(compare);
    forall a: Json, b: Json ensures le(a, b) || le(b, a) {
      assert compare(RowAddress(a), RowAddress(b)) <= 0 <==> compare(RowAddress(b), RowAddress(a)) >= 0;
    }
    forall a: Json, b: Json, c: Json | le(a, b) && le(b, c) ensures le(a, c) {
      assert compare(RowAddress(a), RowAddress(b)) <= 0 && compare(RowAddress(b), RowAddress(c)) <= 0;
    }
  }

  lemma RowOf(row: Participant -> Json, ps: seq<Participant>, r: Json) returns (i: nat)
    requires PrintsAddress(row) && r in Map(row, ps)
    ensures i < |ps| && r == row(ps[i]) && RowAddress(r) == ps[i].address
  {
    i :| 0 <= i < |ps| && Map(row, ps)[i] == r;
  }

  lemma {:induction false} AlikeRowsHaveNoTies(
      compare: (string, string) -> int, row: Participant -> Json, ps: seq<Participant>)
    requires LocaleOrder(compare) && PrintsAddress(row) && TiedPrintAlike(row, ps)
    ensures Sorting.NoTies(RowOrder(compare), Map(row, ps))
  {
    var le, rows := RowOrder(compare), Map(row, ps);
    forall x, y | x in rows && y in rows && le(x, y) && le(y, x) ensures x == y {
      var i := RowOf(row, ps, x);
      var j := RowOf(row, ps, y);
      CompareTied(compare, RowAddress(x), RowAddress(y));
    }
  }

  lemma {:induction false} UnlikeRowsTie(
      compare: (string, string) -> int, row: Participant -> Json, ps: seq<Participant>, i: nat, j: nat)
    requires LocaleOrder(compare) && PrintsAddress(row) && i < |ps| && j < |ps| && ps[i].address == ps[j].address
    requires row(ps[i]) != row(ps[j])
    ensures !Sorting.NoTies(RowOrder(compare), Map(row, ps))
  {
    var le, rows := RowOrder(compare), Map(row, ps);
    CompareSelf(compare, ps[i].address);
    assert rows[i] in rows && rows[j] in rows && le(rows[i], rows[j]) && le(rows[j], rows[i]);
  }

  lemma {:induction false} RowTies(compare: (string, string) -> int, row: Participant -> Json, ps: seq<Participant>)
    requires LocaleOrder(compare) && PrintsAddress(row)
    ensures Sorting.NoTies(RowOrder(compare), Map(row, ps)) <==> TiedPrintAlike(row, ps)
  {
    if TiedPrintAlike(row, ps) {
      AlikeRowsHaveNoTies(compare, row, ps);
    } else {
      var i, j := UnlikeRows(row, ps);
      UnlikeRowsTie(compare, row, ps, i, j);
    }
  }

  lemma UnlikeRows(row: Participant -> Json, ps: seq<Participant>) returns (i: nat, j: nat)
    requires !TiedPrintAlike(row, ps)
    ensures i < |ps| && j < |ps| && ps[i].address == ps[j].address && row(ps[i]) != row(ps[j])
  {
    i, j :| 0 <= i < j < |ps| && ps[i].address == ps[j].address && row(ps[i]) != row(ps[j]);
  }

  lemma RowsWellFormed(compare: (string, string) -> int, row: Participant -> Json, ps: seq<Participant>)
    requires forall e | e in ps :: WellFormed(row(e))
    ensures WellFormed(JArray(SortedRows(compare, row, ps)))
  {
    var rows := Map(row, ps);
    Sorting.SortPermutes(RowOrder(compare), rows);
    forall r | r in SortedRows(compare, row, ps) ensures WellFormed(r) {
      assert r in multiset(SortedRows(compare, row, ps));
      assert r in rows;
      var i :| 0 <= i < |rows| && rows[i] == r;
      assert ps[i] in ps;
    }
  }

  lemma {:induction false} SameHashSameRows(
      p: Primitives, row: Participant -> Json, ps: seq<Participant>, qs: seq<Participant>)
    requires Injective(p.sha256) && multiset(ps) == multiset(qs) && forall e | e in ps :: WellFormed(row(e))
    ensures RowsHash(p, row, ps) == RowsHash(p, row, qs) <==>
            SortedRows(p.compare, row, ps) == SortedRows(p.compare, row, qs)
  {
    forall e | e in qs ensures e in ps {
      assert e in multiset(qs);
    }
    RowsWellFormed(p.compare, row, ps);
    RowsWellFormed(p.compare, row, qs);
    if RowsHash(p, row, ps) == RowsHash(p, row, qs) {
      StringifyInjective(JArray(SortedRows(p.compare, row, ps)), JArray(SortedRows(p.compare, row, qs)));
    }
  }

  ghost predicate HashForgetsOrder(p: Primitives, row: Participant -> Json, ps: seq<Participant>) {
    forall qs | multiset(qs) == multiset(ps) :: RowsHash(p, row, qs) == RowsHash(p, row, ps)
  }

  lemma {:induction false} HashForgetsIsMapped(p: Primitives, row: Participant -> Json, ps: seq<Participant>)
    requires Injective(p.sha256) && forall e | e in ps :: WellFormed(row(e))
    ensures HashForgetsOrder(p, row, ps) <==> Sorting.MappedForgets(RowOrder(p.compare), row, ps)
  {
    forall qs | multiset(qs) == multiset(ps)
      ensures RowsHash(p, row, qs) == RowsHash(p, row, ps) <==>
              Sorting.Sort(RowOrder(p.compare), Map(row, qs)) == Sorting.Sort(RowOrder(p.compare), Map(row, ps))
    {
      SameHashSameRows(p, row, ps, qs);
    }
  }

  /** A collision-free hash of rows in address order forgets the input order exactly when ties print alike. */
  lemma {:induction false} RowsHashForgetsExactly(p: Primitives, row: Participant -> Json, ps: seq<Participant>)
    requires LocaleOrder(p.compare) && Injective(p.sha256) && PrintsAddress(row)
    requires forall e | e in ps :: WellFormed(row(e))
    ensures HashForgetsOrder(p, row, ps) <==> TiedPrintAlike(row, ps)
  {
    RowOrderTotal(p.compare);
    RowTies(p.compare, row, ps);
    HashForgetsIsMapped(p, row, ps);
    Sorting.MappedForgetsOrderExactly(RowOrder(p.compare), row, ps);
  }

  // ----- Participants and tickets ----------------------------------------------------------------

  /** Every multiplier prints as a number. */
  predicate NumbersPrint(ps: seq<Participant>) {
    forall e | e in ps :: NumberText(MultiplierText(e.lockupMultiplier))
  }

  lemma ParticipantRowFits(e: Participant)
    ensures RowAddress(ParticipantRow(e)) == e.address
    ensures NumberText(MultiplierText(e.lockupMultiplier)) ==> WellFormed(ParticipantRow(e))
  {
  }

  lemma ParticipantsHashIs(p: Primitives, ps: seq<Participant>)
    ensures ParticipantsHash(p, ps) == RowsHash(p, ParticipantRow, ps)
  {
    forall x, y ensures ByAddress(p.compare)(x, y) <==> RowOrder(p.compare)(ParticipantRow(x), ParticipantRow(y)) {
      ParticipantRowFits(x);
      ParticipantRowFits(y);
    }
    Sorting.MapSort(ByAddress(p.compare), RowOrder(p.compare), ParticipantRow, ps);
  }

  /**
   * For a hash without collisions: the participants' hash does not depend on the order of the list exactly
   * when participants that share an address print the same row.
   */
  lemma {:induction false} ParticipantsHashForgetsExactly(p: Primitives, ps: seq<Participant>)
    requires LocaleOrder(p.compare) && Injective(p.sha256) && NumbersPrint(ps)
    ensures (forall qs | multiset(qs) == multiset(ps) :: ParticipantsHash(p, qs) == ParticipantsHash(p, ps))
       <==> TiedPrintAlike(ParticipantRow, ps)
  {
    forall e ensures RowAddress(ParticipantRow(e)) == e.address && (e in ps ==> WellFormed(ParticipantRow(e))) {
      ParticipantRowFits(e);
    }
    RowsHashForgetsExactly(p, ParticipantRow, ps);
    forall qs ensures ParticipantsHash(p, qs) == RowsHash(p, ParticipantRow, qs) {
      ParticipantsHashIs(p, qs);
    }
  }

  function TicketRow(e: Participant): Json {
    WeightRow(TicketOf(e))
  }

  lemma TicketRowFits(e: Participant)
    ensures RowAddress(TicketRow(e)) == e.address && WellFormed(TicketRow(e))
  {
  }

  lemma WeightRowFits(w: TicketWeight)
    ensures RowAddress(WeightRow(w)) == w.address
  {
  }

  lemma {:induction false} TicketRows(ps: seq<Participant>)
    ensures Map(WeightRow, Map(TicketOf, ps)) == Map(TicketRow, ps)
  {
    if ps != [] {
      TicketRows(ps[1..]);
      MapCons(WeightRow, TicketOf(ps[0]), Map(TicketOf, ps[1..]));
    }
  }

  lemma TicketsHashIs(p: Primitives, ps: seq<Participant>)
    ensures TicketWeightsHash(p, Map(TicketOf, ps)) == RowsHash(p, TicketRow, ps)
  {
    forall x, y ensures ByTicketAddress(p.compare)(x, y) <==> RowOrder(p.compare)(WeightRow(x), WeightRow(y)) {
      WeightRowFits(x);
      WeightRowFits(y);
    }
    Sorting.MapSort(ByTicketAddress(p.compare), RowOrder(p.compare), WeightRow, Map(TicketOf, ps));
    TicketRows(ps);
  }

  /** Participants that share an address weigh the same. */
  predicate TiedWeighAlike(ps: seq<Participant>) {
    forall i, j | 0 <= i < j < |ps| && ps[i].address == ps[j].address :: WeightOf(ps[i]) == WeightOf(ps[j])
  }

  lemma TicketsTied(ps: seq<Participant>)
    ensures TiedPrintAlike(TicketRow, ps) <==> TiedWeighAlike(ps)
  {
    forall i, j | 0 <= i < j < |ps| && ps[i].address == ps[j].address
      ensures TicketRow(ps[i]) == TicketRow(ps[j]) <==> WeightOf(ps[i]) == WeightOf(ps[j])
    {
      SameTicket(ps[i], ps[j]);
    }
  }

  ghost predicate TicketsForgetOrder(p: Primitives, ps: seq<Participant>) {
    forall qs | multiset(qs) == multiset(ps) ::
      TicketWeightsHash(p, Map(TicketOf, qs)) == TicketWeightsHash(p, Map(TicketOf, ps))
  }

  lemma {:induction false} TicketsForgetIs(p: Primitives, ps: seq<Participant>)
    ensures TicketsForgetOrder(p, ps) <==> HashForgetsOrder(p, TicketRow, ps)
  {
    forall qs ensures TicketWeightsHash(p, Map(TicketOf, qs)) == RowsHash(p, TicketRow, qs) {
      TicketsHashIs(p, qs);
    }
  }

  /** The same for the tickets: exactly when participants that share an address weigh the same. */
  lemma {:induction false} TicketWeightsHashForgetsExactly(p: Primitives, ps: seq<Participant>)
    requires LocaleOrder(p.compare) && Injective(p.sha256)
    ensures TicketsForgetOrder(p, ps) <==> TiedWeighAlike(ps)
  {
    forall e ensures RowAddress(TicketRow(e)) == e.address && WellFormed(TicketRow(e)) {
      TicketRowFits(e);
    }
    RowsHashForgetsExactly(p, TicketRow, ps);
    TicketsForgetIs(p, ps);
    TicketsTied(ps);
  }

  lemma SameTicket(x: Participant, y: Participant)
    requires x.address == y.address
    ensures TicketRow(x) == TicketRow(y) <==> WeightOf(x) == WeightOf(y)
  {
    if TicketRow(x) == TicketRow(y) {
      assert TicketRow(x).items[1] == TicketRow(y).items[1];
      IntTextInjective(WeightOf(x), WeightOf(y));
    }
  }

  lemma {:induction false} TicketWeightsHashForgetsOrder(p: Primitives, ps: seq<Participant>, qs: seq<Participant>)
    requires LocaleOrder(p.compare) && DistinctAddresses(ps) && multiset(ps) == multiset(qs)
    ensures TicketWeightsHash(p, Map(TicketOf, ps)) == TicketWeightsHash(p, Map(TicketOf, qs))
  {
    TiedHashesForgetOrder(p, ps, qs);
  }

  lemma TicketAt(ps: seq<Participant>, x: TicketWeight) returns (i: nat)
    requires x in Map(TicketOf, ps)
    ensures i < |ps| && x == TicketOf(ps[i]) && x.address == ps[i].address
  {
    i :| 0 <= i < |ps| && Map(TicketOf, ps)[i] == x;
  }

  lemma CompareTied(compare: (string, string) -> int, x: string, y: string)
    requires LocaleOrder(compare) && compare(x, y) <= 0 && compare(y, x) <= 0
    ensures x == y
  {
    assert compare(y, x) <= 0 <==> compare(x, y) >= 0;
  }

  /** The two totals of a draw are sums over the participants, in any order. */
  lemma {:induction false} TotalsForgetOrder(ps: seq<Participant>, qs: seq<Participant>)
    requires multiset(ps) == multiset(qs)
    ensures Sum(Map(DepositOf, ps)) == Sum(Map(DepositOf, qs))
    ensures Sum(Map(TicketValue, Map(TicketOf, ps))) == Sum(Map(TicketValue, Map(TicketOf, qs)))
  {
    MapPermutation(DepositOf, ps, qs);
    SumPermutation(Map(DepositOf, ps), Map(DepositOf, qs));
    MapPermutation(TicketOf, ps, qs);
    MapPermutation(TicketValue, Map(TicketOf, ps), Map(TicketOf, qs));
    SumPermutation(Map(TicketValue, Map(TicketOf, ps)), Map(TicketValue, Map(TicketOf, qs)));
  }

  lemma ReadableForgetsOrder(ps: seq<Participant>, qs: seq<Participant>)
    requires multiset(ps) == multiset(qs)
    ensures DepositsReadable(ps) == DepositsReadable(qs) && MultipliersWhole(ps) == MultipliersWhole(qs)
  {
    assert forall e :: e in ps <==> e in multiset(ps);
    assert forall e :: e in qs <==> e in multiset(qs);
  }

  /** Permuting participants with distinct addresses changes nothing in the assembled proof, signature included. */
  lemma {:induction false} AssembleForgetsOrder(p: Primitives, input: Input, qs: seq<Participant>,
      secret: Option<string>,
                             closeTime: string, createdAt: string)
    requires LocaleOrder(p.compare)
    requires DistinctAddresses(input.participants) && multiset(input.participants) == multiset(qs)
    ensures Assemble(p, input.(participants := qs), secret, closeTime, createdAt)
         == Assemble(p, input, secret, closeTime, createdAt)
  {
    TiedAssemblyForgets(p, input, qs, secret, closeTime, createdAt);
  }

  /** The printed weights read back as deposit times multiplier, so the total weight is their exact sum. */
  lemma {:induction false} TotalWeightIsExact(ps: seq<Participant>)
    ensures Map(TicketValue, Map(TicketOf, ps)) == Map(WeightOf, ps)
  {
    forall i | 0 <= i < |ps| ensures Map(TicketValue, Map(TicketOf, ps))[i] == WeightOf(ps[i]) {
      BigIntOfIntText(WeightOf(ps[i]));
    }
  }

  lemma {:induction false} TermAtMostSum(s: seq<int>, i: nat)
    requires i < |s| && forall k | 0 <= k < |s| :: s[k] >= 0
    ensures 0 <= s[i] <= Sum(s)
  {
    if i == 0 {
      if |s| > 1 {
        TermAtMostSum(s[1..], 0);
      }
    } else {
      TermAtMostSum(s[1..], i - 1);
    }
  }

  /**
   * With non-negative weights the recorded winner weight, read back as a number, lies between 0 and
   * the recorded total weight; for an address that does not take part it is 0.
   */
  lemma {:induction false} WinnerWeightBounded(p: Primitives, input: Input, closeTime: string, createdAt: string)
    requires forall e | e in input.participants :: WeightOf(e) >= 0
    ensures
      var w := Draft(p, input, closeTime, createdAt).winnerSelection;
      var winning, total := BigIntOf(w.winnerWeight), BigIntOf(w.totalWeight);
      && winning.Some? && total.Some? && 0 <= winning.value <= total.value
      && total.value == Sum(Map(WeightOf, input.participants))
      && ((forall e | e in input.participants :: e.address != input.winnerAddress) ==> winning.value == 0)
  {
    var ps := input.participants;
    TotalWeightIsExact(ps);
    BigIntOfIntText(Sum(Map(WeightOf, ps)));
    WinnerWeightBound(ps, input.winnerAddress);
  }

  lemma {:induction false} WinnerWeightBound(ps: seq<Participant>, winner: string)
    requires forall e | e in ps :: WeightOf(e) >= 0
    ensures var w := BigIntOf(WinnerWeight(Map(TicketOf, ps), winner));
            && w.Some? && 0 <= w.value <= Sum(Map(WeightOf, ps))
            && ((forall e | e in ps :: e.address != winner) ==> w.value == 0)
  {
    if ps == [] {
      BigIntOfIntText(0);
      assert IntText(0) == "0";
    } else {
      WinnerWeightBound(ps[1..], winner);
      assert Map(TicketOf, ps)[1..] == Map(TicketOf, ps[1..]);
      assert Map(WeightOf, ps)[1..] == Map(WeightOf, ps[1..]);
      BigIntOfIntText(WeightOf(ps[0]));
      assert ps[0] in ps;
      forall e | e in ps[1..] ensures e in ps {
      }
      if ps[0].address == winner {
        TermAtMostSum(Map(WeightOf, ps), 0);
      }
    }
  }

  // ----- The exact condition for the whole proof -----------------------------------------------------

  predicate TiedEqual(ps: seq<Participant>) {
    forall i, j | 0 <= i < j < |ps| && ps[i].address == ps[j].address :: ps[i] == ps[j]
  }

  /** Participants with whole multipliers print the same row only if they are the same. */
  lemma SameRowSameParticipant(x: Participant, y: Participant)
    requires x.lockupMultiplier.Whole? && y.lockupMultiplier.Whole? && ParticipantRow(x) == ParticipantRow(y)
    ensures x == y
  {
    var a, b := ParticipantRow(x).items, ParticipantRow(y).items;
    assert a[0] == b[0] && a[1] == b[1] && a[2] == b[2];
    IntTextInjective(x.lockupMultiplier.n, y.lockupMultiplier.n);
  }

  lemma WholePrints(ps: seq<Participant>)
    requires MultipliersWhole(ps)
    ensures NumbersPrint(ps)
    ensures TiedPrintAlike(ParticipantRow, ps) <==> TiedEqual(ps)
  {
    forall e | e in ps ensures NumberText(MultiplierText(e.lockupMultiplier)) {
      IntTextPrints(e.lockupMultiplier.n);
    }
    forall i, j | 0 <= i < j < |ps| && ParticipantRow(ps[i]) == ParticipantRow(ps[j]) ensures ps[i] == ps[j] {
      SameRowSameParticipant(ps[i], ps[j]);
    }
  }

  lemma IntTextPrints(n: int)
    ensures NumberText(IntText(n))
  {
  }

  lemma {:induction false} WeightOfTied(ps: seq<Participant>, e: Participant)
    requires TiedEqual(ps) && e in ps
    ensures WinnerWeight(Map(TicketOf, ps), e.address) == IntText(WeightOf(e))
  {
    assert Map(TicketOf, ps)[1..] == Map(TicketOf, ps[1..]);
    if ps[0].address != e.address {
      WeightOfTied(ps[1..], e);
    } else {
      var i :| 0 <= i < |ps| && ps[i] == e;
      assert i > 0 ==> ps[0] == ps[i];
    }
  }

  lemma {:induction false} WeightOfStranger(ps: seq<Participant>, winner: string)
    requires forall e | e in ps :: e.address != winner
    ensures WinnerWeight(Map(TicketOf, ps), winner) == "0"
  {
    if ps != [] {
      assert Map(TicketOf, ps)[1..] == Map(TicketOf, ps[1..]);
      assert ps[0] in ps;
      WeightOfStranger(ps[1..], winner);
    }
  }

  lemma TiedEqualPermutes(ps: seq<Participant>, qs: seq<Participant>)
    requires TiedEqual(ps) && multiset(ps) == multiset(qs)
    ensures TiedEqual(qs) && forall e :: e in ps <==> e in qs
  {
    forall e ensures e in ps <==> e in qs {
      assert e in multiset(ps) <==> e in multiset(qs);
    }
    forall i, j | 0 <= i < j < |qs| && qs[i].address == qs[j].address ensures qs[i] == qs[j] {
      assert qs[i] in ps && qs[j] in ps;
    }
  }

  lemma TiedWeightForgetsOrder(ps: seq<Participant>, qs: seq<Participant>, winner: string)
    requires TiedEqual(ps) && multiset(ps) == multiset(qs)
    ensures WinnerWeight(Map(TicketOf, ps), winner) == WinnerWeight(Map(TicketOf, qs), winner)
  {
    TiedEqualPermutes(ps, qs);
    if e :| e in ps && e.address == winner {
      WeightOfTied(ps, e);
      WeightOfTied(qs, e);
    } else {
      WeightOfStranger(ps, winner);
      WeightOfStranger(qs, winner);
    }
  }

  lemma {:induction false} TiedDraftForgetsOrder(
      p: Primitives, input: Input, qs: seq<Participant>, closeTime: string, createdAt: string)
    requires LocaleOrder(p.compare) && TiedEqual(input.participants) && multiset(input.participants) == multiset(qs)
    ensures Draft(p, input.(participants := qs), closeTime, createdAt) == Draft(p, input, closeTime, createdAt)
  {
    var ps := input.participants;
    TiedHashesForgetOrder(p, ps, qs);
    TiedWeightForgetsOrder(ps, qs, input.winnerAddress);
    TotalsForgetOrder(ps, qs);
    assert |multiset(ps)| == |ps| && |multiset(qs)| == |qs|;
  }

  /** Equal ties make both hashes independent of order, whatever the hash function. */
  lemma {:induction false} TiedHashesForgetOrder(p: Primitives, ps: seq<Participant>, qs: seq<Participant>)
    requires LocaleOrder(p.compare) && TiedEqual(ps) && multiset(ps) == multiset(qs)
    ensures ParticipantsHash(p, ps) == ParticipantsHash(p, qs)
    ensures TicketWeightsHash(p, Map(TicketOf, ps)) == TicketWeightsHash(p, Map(TicketOf, qs))
  {
    AddressOrder(p.compare);
    TiedHaveNoTies(p.compare, ps);
    Sorting.SortForgetsOrder(ByAddress(p.compare), ps, qs);
    MapPermutation(TicketOf, ps, qs);
    Sorting.SortForgetsOrder(ByTicketAddress(p.compare), Map(TicketOf, ps), Map(TicketOf, qs));
  }

  lemma {:induction false} TiedHaveNoTies(compare: (string, string) -> int, ps: seq<Participant>)
    requires LocaleOrder(compare) && TiedEqual(ps)
    ensures Sorting.NoTies(ByAddress(compare), ps) && Sorting.NoTies(ByTicketAddress(compare), Map(TicketOf, ps))
  {
    var le, le' := ByAddress(compare), ByTicketAddress(compare);
    forall x, y | x in ps && y in ps && le(x, y) && le(y, x) ensures x == y {
      CompareTied(compare, x.address, y.address);
    }
    var ws := Map(TicketOf, ps);
    forall x, y | x in ws && y in ws && le'(x, y) && le'(y, x) ensures x == y {
      var i := TicketAt(ps, x);
      var j := TicketAt(ps, y);
      CompareTied(compare, x.address, y.address);
    }
  }

  ghost predicate AssemblyForgetsOrder(
    p: Primitives, input: Input, secret: Option<string>, closeTime: string, createdAt: string)
  {
    forall qs | multiset(qs) == multiset(input.participants) ::
      Assemble(p, input.(participants := qs), secret, closeTime, createdAt)
        == Assemble(p, input, secret, closeTime, createdAt)
  }

  lemma {:induction false} AssembledHash(
      p: Primitives, input: Input, qs: seq<Participant>, secret: Option<string>, closeTime: string, createdAt: string)
    requires DepositsReadable(input.participants) && MultipliersWhole(input.participants)
    requires multiset(qs) == multiset(input.participants)
    requires Assemble(p, input.(participants := qs), secret, closeTime, createdAt)
          == Assemble(p, input, secret, closeTime, createdAt)
    ensures ParticipantsHash(p, qs) == ParticipantsHash(p, input.participants)
  {
    ReadableForgetsOrder(input.participants, qs);
    var a := Assemble(p, input.(participants := qs), secret, closeTime, createdAt).value.body;
    var b := Assemble(p, input, secret, closeTime, createdAt).value.body;
    assert a.snapshot.participantsHash == b.snapshot.participantsHash;
  }

  lemma {:induction false} TiedAssemblyForgets(
      p: Primitives, input: Input, qs: seq<Participant>, secret: Option<string>, closeTime: string, createdAt: string)
    requires LocaleOrder(p.compare) && multiset(qs) == multiset(input.participants)
    requires DepositsReadable(input.participants) && MultipliersWhole(input.participants) ==>
               TiedEqual(input.participants)
    ensures Assemble(p, input.(participants := qs), secret, closeTime, createdAt)
         == Assemble(p, input, secret, closeTime, createdAt)
  {
    ReadableForgetsOrder(input.participants, qs);
    if DepositsReadable(input.participants) && MultipliersWhole(input.participants) {
      TiedDraftForgetsOrder(p, input, qs, closeTime, createdAt);
    }
  }

  /**
   * For a hash without collisions: permuting the participants never changes what is assembled, signature
   * and errors included, exactly when no two different participants share an address, or a deposit or
   * multiplier cannot be read.
   */
  lemma {:induction false} AssembleForgetsExactly(
      p: Primitives, input: Input, secret: Option<string>, closeTime: string, createdAt: string)
    requires LocaleOrder(p.compare) && Injective(p.sha256)
    ensures AssemblyForgetsOrder(p, input, secret, closeTime, createdAt) <==>
            (DepositsReadable(input.participants) && MultipliersWhole(input.participants) ==>
               TiedEqual(input.participants))
  {
    var ps := input.participants;
    if DepositsReadable(ps) && MultipliersWhole(ps) ==> TiedEqual(ps) {
      forall qs | multiset(qs) == multiset(ps)
        ensures Assemble(p, input.(participants := qs), secret, closeTime, createdAt)
             == Assemble(p, input, secret, closeTime, createdAt)
      {
        TiedAssemblyForgets(p, input, qs, secret, closeTime, createdAt);
      }
    }
    if AssemblyForgetsOrder(p, input, secret, closeTime, createdAt) && DepositsReadable(ps) && MultipliersWhole(ps) {
      WholePrints(ps);
      forall qs | multiset(qs) == multiset(ps) ensures ParticipantsHash(p, qs) == ParticipantsHash(p, ps) {
        AssembledHash(p, input, qs, secret, closeTime, createdAt);
      }
      ParticipantsHashForgetsExactly(p, ps);
    }
  }
}

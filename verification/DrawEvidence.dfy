/** The winner proof hash: which contract and round a piece of evidence can be used for. */
module DrawEvidence {

  import opened DecimalText
  import opened Joins
  import opened DrawProof
  import opened DrawProofBinding

  lemma IntTextIsFree(v: int)
    ensures Free(IntText(v), ':')
  {
    var digits := NatText(if v < 0 then -v else v);
    forall i | 0 <= i < |digits| ensures digits[i] != ':' {
      assert IsDigit(digits[i]);
    }
  }

  // ----- Contracts without colons ---------------------------------------------------------

  /**
   * When neither contract id contains a colon, the hash determines contract and round, whatever the
   * winner and the seed hash are: evidence of another round or contract cannot reproduce it. It
   * determines the rest as well as far as that is free of colons.
   */
  lemma {:induction false} WinnerProofBinds(
      p: Primitives, contract: string, round: int, winner: string, seedHash: string, parts: string,
      contract': string, round': int, winner': string, seedHash': string, parts': string)
    requires Injective(p.sha256)
    requires Free(contract, ':') && Free(contract', ':')
    requires WinnerProofHash(p, contract, round, winner, seedHash, parts)
          == WinnerProofHash(p, contract', round', winner', seedHash', parts')
    ensures contract == contract' && round == round'
    ensures Free(winner, ':') && Free(winner', ':') ==> winner == winner'
    ensures Free(winner, ':') && Free(winner', ':') && Free(seedHash, ':') && Free(seedHash', ':') ==>
              seedHash == seedHash' && parts == parts'
  {
    var c, c' := seedHash + ":" + parts, seedHash' + ":" + parts';
    var b, b' := winner + ":" + c, winner' + ":" + c';
    JoinSplits(contract, IntText(round) + ":" + b, contract', IntText(round') + ":" + b', ':');
    SameRound(round, b, round', b');
    if Free(winner, ':') && Free(winner', ':') {
      JoinSplits(winner, c, winner', c', ':');
      if Free(seedHash, ':') && Free(seedHash', ':') {
        JoinSplits(seedHash, parts, seedHash', parts', ':');
      }
    }
  }

  lemma SameRound(round: int, b: string, round': int, b': string)
    requires IntText(round) + ":" + b == IntText(round') + ":" + b'
    ensures round == round' && b == b'
  {
    IntTextIsFree(round);
    IntTextIsFree(round');
    JoinSplits(IntText(round), b, IntText(round'), b', ':');
    IntTextInjective(round, round');
  }

  // ----- All contracts --------------------------------------------------------------------

  /** A colon at which a contract id could end: an integer follows, then at least three more parts. */
  predicate RoundSlot(text: string, i: int) {
    && 0 <= i < |text| && text[i] == ':'
    && IsIntText(UpTo(text[i + 1..], ':'))
    && Seps(text[i + 1..], ':') >= 3
  }

  lemma PartsMakeSlot(contract: string, round: int, winner: string, seedHash: string, parts: string)
    ensures RoundSlot(WinnerProofText(contract, round, winner, seedHash, parts), |contract|)
  {
    var c := seedHash + ":" + parts;
    var b := winner + ":" + c;
    var tail := IntText(round) + ":" + b;
    var text := WinnerProofText(contract, round, winner, seedHash, parts);
    assert text == contract + ":" + tail;
    assert text[|contract|] == ':' && text[|contract| + 1..] == tail;
    IntTextIsFree(round);
    IntTextIsIntText(round);
    UpToJoin(IntText(round), b, ':');
    SepsJoin(IntText(round), b, ':');
    SepsJoin(winner, c, ':');
    SepsJoin(seedHash, parts, ':');
  }

  lemma SlotMakesParts(text: string, i: nat)
    returns (contract: string, round: int, winner: string, seedHash: string, parts: string)
    requires RoundSlot(text, i)
    ensures |contract| == i && WinnerProofText(contract, round, winner, seedHash, parts) == text
  {
    contract := text[..i];
    CutAt(text, i);
    round, winner, seedHash, parts := TailMakesParts(text[i + 1..]);
  }

  lemma CutAt(text: string, i: nat)
    requires i < |text| && text[i] == ':'
    ensures text == text[..i] + ":" + text[i + 1..]
  {
  }

  lemma TailMakesParts(tail: string) returns (round: int, winner: string, seedHash: string, parts: string)
    requires IsIntText(UpTo(tail, ':')) && Seps(tail, ':') >= 3
    ensures tail == IntText(round) + ":" + (winner + ":" + (seedHash + ":" + parts))
  {
    var b := CutAtFirst(tail, ':');
    round := IntTextOf(UpTo(tail, ':'));
    var c := CutAtFirst(b, ':');
    winner := UpTo(b, ':');
    parts := CutAtFirst(c, ':');
    seedHash := UpTo(c, ':');
  }

  /** Texts whose contract ids have the same length name the same contract and round. */
  lemma SameContractLength(contract: string, round: int, winner: string, seedHash: string, parts: string,
                           contract': string, round': int, winner': string, seedHash': string, parts': string)
    requires |contract| == |contract'|
    requires WinnerProofText(contract, round, winner, seedHash, parts)
          == WinnerProofText(contract', round', winner', seedHash', parts')
    ensures contract == contract' && round == round'
  {
    var b, b' := winner + ":" + (seedHash + ":" + parts), winner' + ":" + (seedHash' + ":" + parts');
    var a, a' := IntText(round) + ":" + b, IntText(round') + ":" + b';
    var text := WinnerProofText(contract, round, winner, seedHash, parts);
    assert text == contract + ":" + a == contract' + ":" + a';
    assert contract == text[..|contract|] == contract';
    assert a == text[|contract| + 1..] == a';
    SameRound(round, b, round', b');
  }

  /** Another contract or another round has the same text. */
  ghost predicate Reproduced(contract: string, round: int, winner: string, seedHash: string, parts: string) {
    exists contract', round', winner', seedHash', parts' ::
      && WinnerProofText(contract', round', winner', seedHash', parts')
         == WinnerProofText(contract, round, winner, seedHash, parts)
      && (contract' != contract || round' != round)
  }

  /** For every evidence: it can be reproduced exactly when its text has a second slot for the round. */
  lemma {:induction false} ReproducedExactly(contract: string, round: int, winner: string, seedHash: string,
      parts: string)
    ensures Reproduced(contract, round, winner, seedHash, parts) <==>
            exists i :: i != |contract| && RoundSlot(WinnerProofText(contract, round, winner, seedHash, parts), i)
  {
    var text := WinnerProofText(contract, round, winner, seedHash, parts);
    if Reproduced(contract, round, winner, seedHash, parts) {
      var contract', round', winner', seedHash', parts' :|
        && WinnerProofText(contract', round', winner', seedHash', parts') == text
        && (contract' != contract || round' != round);
      PartsMakeSlot(contract', round', winner', seedHash', parts');
      if |contract'| == |contract| {
        SameContractLength(contract, round, winner, seedHash, parts, contract', round', winner', seedHash', parts');
      }
    }
    if i :| i != |contract| && RoundSlot(text, i) {
      var contract', round', winner', seedHash', parts' := SlotMakesParts(text, i);
    }
  }

  /** Some colon of the contract id is followed by an integer, up to the next colon or the end. */
  predicate HasIntegerSegment(contract: string) {
    exists i :: 0 <= i < |contract| && contract[i] == ':' && IsIntText(UpTo(contract[i + 1..], ':'))
  }

  /** Inside the contract id, slots are its integer segments; behind it there is none but the round's own. */
  lemma SlotsOfContract(contract: string, round: int, winner: string, seedHash: string, parts: string, i: int)
    requires Free(winner, ':') && Free(seedHash, ':') && Free(parts, ':')
    requires i != |contract|
    ensures RoundSlot(WinnerProofText(contract, round, winner, seedHash, parts), i) <==>
            0 <= i < |contract| && contract[i] == ':' && IsIntText(UpTo(contract[i + 1..], ':'))
  {
    TailHasThree(round, winner, seedHash, parts);
    SlotsBefore(contract, IntText(round) + ":" + (winner + ":" + (seedHash + ":" + parts)), i);
  }

  lemma SlotsBefore(contract: string, tail: string, i: int)
    requires Seps(tail, ':') == 3 && i != |contract|
    ensures RoundSlot(contract + ":" + tail, i) <==>
            0 <= i < |contract| && contract[i] == ':' && IsIntText(UpTo(contract[i + 1..], ':'))
  {
    var text := contract + ":" + tail;
    if 0 <= i < |contract| {
      SlotInside(contract, tail, i);
    } else if |contract| < i < |text| && text[i] == ':' {
      var k := i - |contract| - 1;
      assert text[i + 1..] == tail[k + 1..] && tail[k] == ':';
      FewerBehind(tail, k);
    }
  }

  lemma SlotInside(contract: string, tail: string, i: nat)
    requires Seps(tail, ':') == 3 && i < |contract|
    ensures RoundSlot(contract + ":" + tail, i) <==> contract[i] == ':' && IsIntText(UpTo(contract[i + 1..], ':'))
  {
    var text := contract + ":" + tail;
    assert text[i] == contract[i] && text[i + 1..] == contract[i + 1..] + [':'] + tail;
    UpToPrefix(contract[i + 1..], tail, ':');
    SepsJoin(contract[i + 1..], tail, ':');
  }

  lemma FewerBehind(tail: string, k: nat)
    requires k < |tail| && tail[k] == ':'
    ensures Seps(tail[k + 1..], ':') < Seps(tail, ':')
  {
    assert tail == tail[..k] + [':'] + tail[k + 1..];
    SepsJoin(tail[..k], tail[k + 1..], ':');
  }

  lemma TailHasThree(round: int, winner: string, seedHash: string, parts: string)
    requires Free(winner, ':') && Free(seedHash, ':') && Free(parts, ':')
    ensures Seps(IntText(round) + ":" + (winner + ":" + (seedHash + ":" + parts)), ':') == 3
  {
    IntTextIsFree(round);
    FreeHasNone(IntText(round), ':');
    FreeHasNone(winner, ':');
    FreeHasNone(seedHash, ':');
    FreeHasNone(parts, ':');
    SepsJoin(seedHash, parts, ':');
    SepsJoin(winner, seedHash + ":" + parts, ':');
    SepsJoin(IntText(round), winner + ":" + (seedHash + ":" + parts), ':');
  }

  /**
   * For a winner and hashes without colons, another contract or round reproduces the hash exactly when
   * the contract id has an integer among its segments after the first colon.
   */
  lemma {:induction false} EvidenceReproducedExactly(
      p: Primitives, contract: string, round: int, winner: string, seedHash: string, parts: string)
    requires Injective(p.sha256)
    requires Free(winner, ':') && Free(seedHash, ':') && Free(parts, ':')
    ensures (exists contract', round', winner', seedHash', parts' ::
               && WinnerProofHash(p, contract', round', winner', seedHash', parts')
                  == WinnerProofHash(p, contract, round, winner, seedHash, parts)
               && (contract' != contract || round' != round))
       <==> HasIntegerSegment(contract)
  {
    ReproducedExactly(contract, round, winner, seedHash, parts);
    var text := WinnerProofText(contract, round, winner, seedHash, parts);
    forall i | i != |contract|
      ensures RoundSlot(text, i) <==>
              0 <= i < |contract| && contract[i] == ':' && IsIntText(UpTo(contract[i + 1..], ':'))
    {
      SlotsOfContract(contract, round, winner, seedHash, parts, i);
    }
    SameHashSameText(p, contract, round, winner, seedHash, parts);
  }

  lemma SameHashSameText(p: Primitives, contract: string, round: int, winner: string, seedHash: string, parts: string)
    requires Injective(p.sha256)
    ensures (exists contract', round', winner', seedHash', parts' ::
               && WinnerProofHash(p, contract', round', winner', seedHash', parts')
                  == WinnerProofHash(p, contract, round, winner, seedHash, parts)
               && (contract' != contract || round' != round))
       <==> Reproduced(contract, round, winner, seedHash, parts)
  {
    var text := WinnerProofText(contract, round, winner, seedHash, parts);
    if c', r', w', s', q' :| WinnerProofHash(p, c', r', w', s', q') == WinnerProofHash(p, contract, round,
        winner, seedHash, parts)
                             && (c' != contract || r' != round) {
      assert WinnerProofText(c', r', w', s', q') == text;
    }
    if c', r', w', s', q' :| WinnerProofText(c', r', w', s', q') == text && (c' != contract || r' != round) {
      assert WinnerProofHash(p, c', r', w', s', q') == p.sha256(text);
    }
  }

  lemma LeftGrouped(c: string, r: string, w: string, s: string, q: string)
    ensures c + ":" + (r + ":" + (w + ":" + (s + ":" + q))) == (((c + ":" + r) + ":" + w) + ":" + s) + ":" + q
  {
  }

  /**
   * Evidence whose winner and hashes are free of colons on both sides binds every field, whatever the
   * contract ids are: only evidence with a colon in its other fields can be confused with it.
   */
  lemma {:induction false} ColonFreeEvidenceBinds(
      p: Primitives, contract: string, round: int, winner: string, seedHash: string, parts: string,
      contract': string, round': int, winner': string, seedHash': string, parts': string)
    requires Injective(p.sha256)
    requires Free(winner, ':') && Free(seedHash, ':') && Free(parts, ':')
    requires Free(winner', ':') && Free(seedHash', ':') && Free(parts', ':')
    ensures WinnerProofHash(p, contract, round, winner, seedHash, parts)
         == WinnerProofHash(p, contract', round', winner', seedHash', parts')
       <==> contract == contract' && round == round' && winner == winner' && seedHash == seedHash' && parts == parts'
  {
    var r, r' := IntText(round), IntText(round');
    LeftGrouped(contract, r, winner, seedHash, parts);
    LeftGrouped(contract', r', winner', seedHash', parts');
    if WinnerProofHash(p, contract, round, winner, seedHash, parts)
       == WinnerProofHash(p, contract', round', winner', seedHash', parts') {
      SameParts(contract, r, winner, seedHash, parts, contract', r', winner', seedHash', parts');
      IntTextInjective(round, round');
    }
  }

  lemma SameParts(c: string, r: string, w: string, s: string, q: string,
                  c': string, r': string, w': string, s': string, q': string)
    requires Free(w, ':') && Free(s, ':') && Free(q, ':') && Free(w', ':') && Free(s', ':') && Free(q', ':')
    requires exists v, v' :: r == IntText(v) && r' == IntText(v')
    requires (((c + ":" + r) + ":" + w) + ":" + s) + ":" + q == (((c' + ":" + r') + ":" + w') + ":" + s') + ":" + q'
    ensures c == c' && r == r' && w == w' && s == s' && q == q'
  {
    var v, v' :| r == IntText(v) && r' == IntText(v');
    IntTextIsFree(v);
    IntTextIsFree(v');
    JoinSplitsLast(((c + ":" + r) + ":" + w) + ":" + s, q, ((c' + ":" + r') + ":" + w') + ":" + s', q', ':');
    JoinSplitsLast((c + ":" + r) + ":" + w, s, (c' + ":" + r') + ":" + w', s', ':');
    JoinSplitsLast(c + ":" + r, w, c' + ":" + r', w', ':');
    JoinSplitsLast(c, r, c', r', ':');
  }

  /** The smallest example: round 2 of contract `C:1` passes for round 1 of contract `C`. */
  lemma WinnerProofAmbiguous(p: Primitives)
    ensures WinnerProofHash(p, "C:1", 2, "w", "s", "q") == WinnerProofHash(p, "C", 1, "2:w", "s", "q")
    ensures HasIntegerSegment("C:1")
  {
    assert IntText(1) == "1" && IntText(2) == "2";
    assert WinnerProofText("C:1", 2, "w", "s", "q") == "C:1:2:w:s:q";
    assert WinnerProofText("C", 1, "2:w", "s", "q") == "C:1:2:w:s:q";
    var c := "C:1";
    IntTextIsIntText(1);
    assert c[2..] == "1" && UpTo("1", ':') == "1" by {
      assert "1"[1..] == "";
    }
    assert c[1] == ':' && IsIntText(UpTo(c[1 + 1..], ':'));
  }
}

/**
 * The browser-side verdict on a draw proof: document checks followed by four on-chain checks,
 * whose RPC answers are inputs, and the reconciliation of a reward entry.
 */
module DrawVerifier {

  import opened Sequences
  import opened DrawProof
  import Results = DrawProofResults

  datatype LedgerAnswer = LedgerError | NoLedger | Ledger(sequence: int)

  datatype TxAnswer = TxError | NoTx | Tx(successful: bool, ledger: int)

  /** The text of the round's principal snapshot in contract storage, empty when the field is missing. */
  datatype RoundAnswer = RoundError | RoundText(snapshot: string)

  /** What the RPC client answers to the four questions of one verification. */
  datatype Answers = Answers(ledger: LedgerAnswer, payoutTx: TxAnswer, revealTx: TxAnswer, round: RoundAnswer)

  // ----- Field verifiers ------------------------------------------------------------

  function VerifyRandomnessReveal(b: Body, tx: TxAnswer): Field {
    match tx
    case TxError => Field(RandomnessReveal, Unverified)
    case NoTx => Field(RandomnessReveal, Fail)
    case Tx(successful, ledger) =>
      if !successful then Field(RandomnessReveal, Fail)
      else if ledger < b.randomness.commitmentLedgerSeq then Field(RandomnessReveal, Fail)
      else Field(RandomnessReveal, Pass)
  }

  function VerifyPayoutTransaction(b: Body, tx: TxAnswer): Field {
    match tx
    case TxError => Field(PayoutTx, Unverified)
    case NoTx => Field(PayoutTx, Fail)
    case Tx(successful, ledger) =>
      if !successful then Field(PayoutTx, Fail)
      else if ledger != b.payout.ledgerSeq then Field(PayoutTx, Fail)
      else Field(PayoutTx, Pass)
  }

  function VerifySnapshotLedger(b: Body, answer: LedgerAnswer): Field {
    match answer
    case LedgerError => Field(SnapshotLedger, Unverified)
    case NoLedger => Field(SnapshotLedger, Fail)
    case Ledger(sequence) =>
      if sequence != b.snapshot.ledgerSeq then Field(SnapshotLedger, Fail) else Field(SnapshotLedger, Pass)
  }

  function VerifyRoundSnapshot(b: Body, answer: RoundAnswer): Field {
    if !Truthy(b.snapshot.roundPrincipalSnapshot) then Field(RoundSnapshot, Unverified)
    else
      match answer
      case RoundError => Field(RoundSnapshot, Unverified)
      case RoundText(onChain) =>
        if onChain == "" then Field(RoundSnapshot, Unverified)
        else if onChain != b.snapshot.roundPrincipalSnapshot.value then Field(RoundSnapshot, Fail)
        else Field(RoundSnapshot, Pass)
  }

  // ----- The verdict ------------------------------------------------------------------

  function ChainFields(b: Body, rpc: Option<Answers>): seq<Field> {
    match rpc
    case Some(a) => [VerifySnapshotLedger(b, a.ledger), VerifyPayoutTransaction(b, a.payoutTx),
                     VerifyRandomnessReveal(b, a.revealTx), VerifyRoundSnapshot(b, a.round)]
    case None => [Field(SnapshotLedger, Unverified), Field(PayoutTx, Unverified),
                  Field(RandomnessReveal, Unverified), Field(RoundSnapshot, Unverified)]
  }

  function ClientFields(p: Primitives, proof: DrawProof, rpc: Option<Answers>): seq<Field> {
    IntegrityFields(p, proof, None) + ChainFields(proof.body, rpc)
  }

  function Count(fields: seq<Field>, status: Status): nat {
    if fields == [] then 0 else (if fields[0].status == status then 1 else 0) + Count(fields[1..], status)
  }

  function Find(fields: seq<Field>, name: CheckName): Option<Field> {
    if fields == [] then None
    else if fields[0].name == name then Some(fields[0])
    else Find(fields[1..], name)
  }

  predicate RevealPassed(fields: seq<Field>) {
    var f := Find(fields, RandomnessReveal);
    f.Some? && f.value.status == Pass
  }

  datatype ClientReport = ClientReport(verified: bool, fields: seq<Field>, rpcVerified: bool)

  /** `verifyDrawProofClient(proof, rpc)`. */
  function Verdict(p: Primitives, proof: DrawProof, rpc: Option<Answers>): ClientReport {
    var fields := ClientFields(p, proof, rpc);
    ClientReport(Count(fields, Fail) == 0 && Count(fields, Pass) >= 3 && RevealPassed(fields), fields, rpc.Some?)
  }

  /** The verdict as it is computed, pushing the forwarded fields and then the four on-chain ones. */
  method VerifyDrawProofClient(p: Primitives, proof: DrawProof, rpc: Option<Answers>) returns (r: ClientReport)
    ensures r == Verdict(p, proof, rpc)
  {
    var integrity := VerifyProofIntegrity(p, proof, None);
    var fields := integrity.fields;
    if rpc.Some? {
      fields := fields + [VerifySnapshotLedger(proof.body, rpc.value.ledger)];
      fields := fields + [VerifyPayoutTransaction(proof.body, rpc.value.payoutTx)];
      fields := fields + [VerifyRandomnessReveal(proof.body, rpc.value.revealTx)];
      fields := fields + [VerifyRoundSnapshot(proof.body, rpc.value.round)];
    } else {
      fields := fields + [Field(SnapshotLedger, Unverified)];
      fields := fields + [Field(PayoutTx, Unverified)];
      fields := fields + [Field(RandomnessReveal, Unverified)];
      fields := fields + [Field(RoundSnapshot, Unverified)];
    }
    assert fields == ClientFields(p, proof, rpc);
    var allPass := Count(fields, Fail) == 0 && Count(fields, Pass) >= 3 && RevealPassed(fields);
    r := ClientReport(allPass, fields, rpc.Some?);
  }

  lemma {:induction false} CountConcat(a: seq<Field>, b: seq<Field>, status: Status)
    ensures Count(a + b, status) == Count(a, status) + Count(b, status)
  {
    if a == [] {
      assert a + b == b;
    } else {
      CountConcat(a[1..], b, status);
      assert (a + b)[1..] == a[1..] + b;
    }
  }

  lemma {:induction false} CountFour(w: Field, x: Field, y: Field, z: Field, status: Status)
    ensures Count([w, x, y, z], status) ==
            (if w.status == status then 1 else 0) + (if x.status == status then 1 else 0) +
            (if y.status == status then 1 else 0) + (if z.status == status then 1 else 0)
  {
    assert [w, x, y, z][1..] == [x, y, z] && [x, y, z][1..] == [y, z] && [y, z][1..] == [z] && [z][1..] == [];
    assert Count([z], status) == if z.status == status then 1 else 0;
    assert Count([y, z], status) == (if y.status == status then 1 else 0) + Count([z], status);
    assert Count([x, y, z], status) == (if x.status == status then 1 else 0) + Count([y, z], status);
  }

  lemma {:induction false} FindSkips(a: seq<Field>, b: seq<Field>, name: CheckName)
    requires forall f | f in a :: f.name != name
    ensures Find(a + b, name) == Find(b, name)
  {
    if a == [] {
      assert a + b == b;
    } else {
      FindSkips(a[1..], b, name);
      assert (a + b)[1..] == a[1..] + b;
    }
  }

  /** Where the reveal verdict comes from: the third on-chain check. */
  lemma RevealField(p: Primitives, proof: DrawProof, rpc: Option<Answers>)
    ensures RevealPassed(ClientFields(p, proof, rpc)) <==>
            rpc.Some? && VerifyRandomnessReveal(proof.body, rpc.value.revealTx).status == Pass
  {
    NoRevealInDocument(p, proof);
    FindSkips(IntegrityFields(p, proof, None), ChainFields(proof.body, rpc), RandomnessReveal);
    RevealOnChain(proof.body, rpc);
  }

  lemma NoRevealInDocument(p: Primitives, proof: DrawProof)
    ensures forall f | f in IntegrityFields(p, proof, None) :: f.name != RandomnessReveal
  {
  }

  lemma RevealOnChain(b: Body, rpc: Option<Answers>)
    ensures RevealPassed(ChainFields(b, rpc)) <==>
            rpc.Some? && VerifyRandomnessReveal(b, rpc.value.revealTx).status == Pass
  {
    var c := ChainFields(b, rpc);
    assert c == c[..2] + c[2..];
    FindSkips(c[..2], c[2..], RandomnessReveal);
  }

  /** The checks on the document that fail, as conditions on the document. */
  predicate DocumentConsistent(p: Primitives, proof: DrawProof) {
    var b := proof.body;
    && SchemaOk(p, b)
    && Results.ChainHolds(p, b)
    && (b.version == "1.0.0" && Truthy(proof.signature) ==> proof.signature.value == ProofHash(p, b))
    && (b.metadata.auditSnapshotHash.Some? ==> b.metadata.auditSnapshotHash.value == AuditSnapshotHash(p, b))
  }

  /** The reveal succeeded on chain, at or after the commitment; nothing else on chain contradicts the document. */
  predicate ChainConsistent(b: Body, a: Answers) {
    && a.revealTx.Tx? && a.revealTx.successful && a.revealTx.ledger >= b.randomness.commitmentLedgerSeq
    && (a.payoutTx == TxError || a.payoutTx == Tx(true, b.payout.ledgerSeq))
    && (a.ledger == LedgerError || a.ledger == Ledger(b.snapshot.ledgerSeq))
    && (Truthy(b.snapshot.roundPrincipalSnapshot) && a.round.RoundText? && a.round.snapshot != ""
        ==> a.round.snapshot == b.snapshot.roundPrincipalSnapshot.value)
  }

  lemma CountFive(fields: seq<Field>, status: Status)
    requires |fields| == 5
    ensures Count(fields, status) ==
            (if fields[0].status == status then 1 else 0) + Count(fields[1..], status)
    ensures Count(fields[1..], status) ==
            (if fields[1].status == status then 1 else 0) + (if fields[2].status == status then 1 else 0) +
            (if fields[3].status == status then 1 else 0) + (if fields[4].status == status then 1 else 0)
  {
    assert fields[1..] == [fields[1], fields[2], fields[3], fields[4]];
    CountFour(fields[1], fields[2], fields[3], fields[4], status);
  }

  /** No document check fails exactly when the document is consistent; then three of them pass. */
  lemma DocumentFailures(p: Primitives, proof: DrawProof)
    ensures Count(IntegrityFields(p, proof, None), Fail) == 0 <==> DocumentConsistent(p, proof)
    ensures DocumentConsistent(p, proof) ==> Count(IntegrityFields(p, proof, None), Pass) >= 3
  {
    if SchemaOk(p, proof.body) {
      var fields := CheckedFields(p, proof, None);
      CountFive(fields, Fail);
      CountFive(fields, Pass);
      Results.ChainExact(p, proof.body);
      Results.SchemaAudit(p, proof.body);
      ThreeDecided(p, proof);
      SignatureFails(p, proof);
      AuditFails(p, proof.body);
    } else {
      var fields := [Field(RandomnessEvidence, Fail)];
      assert fields[1..] == [];
      assert Count(fields, Fail) == 1;
    }
  }

  lemma ThreeDecided(p: Primitives, proof: DrawProof)
    ensures var fields := CheckedFields(p, proof, None);
            && |fields| == 5
            && fields[0] == DocumentCheck(p, proof, None) && fields[1] == WinnerCheck(p, proof.body)
            && fields[2] == AuditCheck(p, proof.body) && fields[3] == SeedCheck(p, proof.body.randomness)
            && fields[4] == CommitmentCheck(p, proof.body.randomness)
            && fields[1].status != Unverified && fields[3].status != Unverified && fields[4].status != Unverified
  {
  }

  lemma SignatureFails(p: Primitives, proof: DrawProof)
    ensures DocumentCheck(p, proof, None).status == Fail <==>
            proof.body.version == "1.0.0" && Truthy(proof.signature) &&
                proof.signature.value != ProofHash(p, proof.body)
  {
  }

  lemma AuditFails(p: Primitives, b: Body)
    requires PresentIfAny(b.metadata.auditSnapshotHash)
    ensures AuditCheck(p, b).status == Fail <==>
            b.metadata.auditSnapshotHash.Some? && b.metadata.auditSnapshotHash.value != AuditSnapshotHash(p, b)
  {
  }

  lemma ChainFailures(b: Body, a: Answers)
    ensures Count(ChainFields(b, Some(a)), Fail) == 0 && VerifyRandomnessReveal(b, a.revealTx).status == Pass
       <==> ChainConsistent(b, a)
    ensures ChainConsistent(b, a) ==> Count(ChainFields(b, Some(a)), Pass) >= 1
  {
    CountFour(VerifySnapshotLedger(b, a.ledger), VerifyPayoutTransaction(b, a.payoutTx),
              VerifyRandomnessReveal(b, a.revealTx), VerifyRoundSnapshot(b, a.round), Fail);
    CountFour(VerifySnapshotLedger(b, a.ledger), VerifyPayoutTransaction(b, a.payoutTx),
              VerifyRandomnessReveal(b, a.revealTx), VerifyRoundSnapshot(b, a.round), Pass);
  }

  /**
   * The client verdict, for every proof and all RPC answers: verified exactly when an RPC client
   * confirmed the reveal at or after the commitment ledger, the schema holds, the seed hashes to both
   * seedHash and commitment, and no other check contradicts the document.
   */
  lemma VerdictExact(p: Primitives, proof: DrawProof, rpc: Option<Answers>)
    ensures Verdict(p, proof, rpc).verified <==>
            rpc.Some? && DocumentConsistent(p, proof) && ChainConsistent(proof.body, rpc.value)
  {
    RevealField(p, proof, rpc);
    DocumentFailures(p, proof);
    CountConcat(IntegrityFields(p, proof, None), ChainFields(proof.body, rpc), Fail);
    CountConcat(IntegrityFields(p, proof, None), ChainFields(proof.body, rpc), Pass);
    if rpc.Some? {
      ChainFailures(proof.body, rpc.value);
    }
  }

  /** Whenever no field fails and the reveal passes, at least four fields pass: asking for three adds nothing. */
  lemma {:induction false} FourFieldsPass(p: Primitives, proof: DrawProof, rpc: Option<Answers>)
    ensures Count(ClientFields(p, proof, rpc), Fail) == 0 && RevealPassed(ClientFields(p, proof, rpc)) ==>
              Count(ClientFields(p, proof, rpc), Pass) >= 4
    ensures Verdict(p, proof, rpc).verified <==>
              Count(ClientFields(p, proof, rpc), Fail) == 0 && RevealPassed(ClientFields(p, proof, rpc))
  {
    RevealField(p, proof, rpc);
    if Count(ClientFields(p, proof, rpc), Fail) == 0 && RevealPassed(ClientFields(p, proof, rpc)) {
      DocumentFailures(p, proof);
      CountConcat(IntegrityFields(p, proof, None), ChainFields(proof.body, rpc), Fail);
      CountConcat(IntegrityFields(p, proof, None), ChainFields(proof.body, rpc), Pass);
      ChainFailures(proof.body, rpc.value);
    }
  }

  /** The client holds no secret: on version 1.1.0 documents its verdict is the same whatever the signature. */
  lemma VerdictIgnoresSignature(p: Primitives, proof: DrawProof, signature: Option<string>, rpc: Option<Answers>)
    requires proof.body.version == "1.1.0"
    ensures Verdict(p, proof.(signature := signature), rpc).verified == Verdict(p, proof, rpc).verified
  {
    VerdictExact(p, proof, rpc);
    VerdictExact(p, proof.(signature := signature), rpc);
    assert "1.1.0"[2] != "1.0.0"[2];
  }

  // ----- Reward entries -----------------------------------------------------------------

  datatype ProofStatus = Verified | Tampered | Missing | Pending | NotVerified

  datatype ClaimStatus = Claimed | ClaimPending | Unclaimed | Failed

  datatype Reconciliation = Reconciliation(proofStatus: ProofStatus, claimStatus: ClaimStatus)

  /** `reconcileRewardEntry(input)`; `txSuccessful` is `None` while the claim transaction could not be read. */
  method ReconcileRewardEntry(p: Primitives, roundId: int, proof: Option<DrawProof>, isWon: bool,
                              claimTxHash: Option<string>, txSuccessful: Option<bool>)
    returns (r: Reconciliation)
    ensures r.proofStatus == Verified <==>
            proof.Some? && proof.value.body.roundId == roundId && Integrity(p, proof.value, None).verified
    ensures r.proofStatus == Tampered <==>
            proof.Some? && (proof.value.body.roundId != roundId ||
                            Count(IntegrityFields(p, proof.value, None), Fail) > 0)
    ensures r.proofStatus in {Missing, Pending} <==> proof.None?
    ensures proof.Some? && proof.value.body.version == "1.1.0" ==> r.proofStatus in {Tampered, NotVerified}
    ensures proof.None? ==> (r.proofStatus == Missing <==> isWon)
    ensures r.claimStatus == Claimed <==> isWon && Truthy(claimTxHash) && txSuccessful == Some(true)
    ensures r.claimStatus == Failed <==> isWon && Truthy(claimTxHash) && txSuccessful == Some(false)
    ensures r.claimStatus == Unclaimed <==> !isWon || !Truthy(claimTxHash)
  {
    var proofStatus: ProofStatus;
    if proof.None? {
      proofStatus := if isWon then Missing else Pending;
    } else if proof.value.body.roundId != roundId {
      proofStatus := Tampered;
    } else {
      var result := VerifyProofIntegrity(p, proof.value, None);
      if proof.value.body.version == "1.1.0" {
        Results.NeverVerifiedWithoutSecret(p, proof.value);
      }
      CountZero(result.fields, Fail);
      if exists f :: f in result.fields && f.status == Fail {
        proofStatus := Tampered;
      } else if exists f :: f in result.fields && f.status == Unverified {
        proofStatus := NotVerified;
      } else {
        proofStatus := Verified;
      }
    }
    var claimStatus: ClaimStatus;
    if !isWon {
      claimStatus := Unclaimed;
    } else if !Truthy(claimTxHash) {
      claimStatus := Unclaimed;
    } else if txSuccessful.None? {
      claimStatus := ClaimPending;
    } else if txSuccessful.value {
      claimStatus := Claimed;
    } else {
      claimStatus := Failed;
    }
    r := Reconciliation(proofStatus, claimStatus);
  }

  lemma {:induction false} CountZero(fields: seq<Field>, status: Status)
    ensures Count(fields, status) == 0 <==> forall f | f in fields :: f.status != status
  {
    if fields != [] {
      CountZero(fields[1..], status);
    }
  }
}

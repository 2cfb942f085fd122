/** What holds of assembled and checked draw proofs. */
module DrawProofResults {

  import opened Sequences
  import opened DecimalText
  import opened DrawProof

  // ----- The producer and the checker agree --------------------------------------

  /** SHA-256 and HMAC produce digests, never the empty string. */
  ghost predicate Digests(p: Primitives) {
    && (forall s :: p.sha256(s) != "")
    && (forall k, s :: p.hmac(k, s) != "")
  }

  /** What the schema asks of the values that the caller supplies. */
  predicate InputOk(p: Primitives, input: Input, closeTime: string, createdAt: string) {
    && input.roundId >= 0 && Present(input.contractId)
    && p.isDateTime(closeTime) && p.isDateTime(createdAt)
    && PresentIfAny(input.roundPrincipalSnapshot)
    && input.randomnessSource in {"soroban_prng", "external_beacon"}
    && Present(input.randomnessSeed) && Present(input.randomnessCommitment)
    && input.commitmentLedgerSeq > 0 && Present(input.revealTxHash) && input.drawnAtLedger > 0
    && Present(input.winnerAddress)
    && Present(input.payoutAmount) && Present(input.payoutAsset) && Present(input.payoutTxHash)
    && input.payoutLedgerSeq > 0 && Present(input.contractSpecHash)
  }

  lemma IntTextPresent(v: int)
    ensures IntText(v) != ""
  {
  }

  lemma WinnerWeightPresent(ps: seq<Participant>, winner: string)
    ensures WinnerWeight(Map(TicketOf, ps), winner) != ""
  {
    if ps != [] {
      IntTextPresent(WeightOf(ps[0]));
      WinnerWeightPresent(ps[1..], winner);
      assert Map(TicketOf, ps)[1..] == Map(TicketOf, ps[1..]);
    }
  }

  lemma AssembledSnapshot(p: Primitives, input: Input, closeTime: string, createdAt: string)
    requires Digests(p)
    ensures SnapshotOk(p, Draft(p, input, closeTime, createdAt).snapshot) <==>
            input.drawnAtLedger > 0 && p.isDateTime(closeTime) && PresentIfAny(input.roundPrincipalSnapshot)
  {
    IntTextPresent(Sum(Map(DepositOf, input.participants)));
  }

  lemma AssembledRandomness(p: Primitives, input: Input, closeTime: string, createdAt: string)
    requires Digests(p)
    ensures RandomnessOk(Draft(p, input, closeTime, createdAt).randomness) <==>
      && input.randomnessSource in {"soroban_prng", "external_beacon"}
      && Present(input.randomnessSeed) && Present(input.randomnessCommitment)
      && input.commitmentLedgerSeq > 0 && Present(input.revealTxHash) && input.drawnAtLedger > 0
  {
  }

  lemma {:induction false} AssembledWinner(p: Primitives, input: Input, closeTime: string, createdAt: string)
    requires Digests(p)
    ensures WinnerOk(Draft(p, input, closeTime, createdAt).winnerSelection) <==> Present(input.winnerAddress)
  {
    WinnerWeightPresent(input.participants, input.winnerAddress);
    IntTextPresent(Sum(Map(TicketValue, Map(TicketOf, input.participants))));
  }

  lemma AssembledHeader(p: Primitives, input: Input, closeTime: string, createdAt: string)
    requires Digests(p)
    ensures var d := Draft(p, input, closeTime, createdAt);
            && d.version == "1.1.0" && Present(d.drawId) && d.roundId == input.roundId
            && d.contractId == input.contractId && d.payout == Payout(input.payoutAmount, input.payoutAsset,
                 input.payoutTxHash, input.payoutLedgerSeq, input.payoutConfirmed)
            && d.metadata == Metadata(createdAt, "1.0.0", input.contractSpecHash, None)
  {
    assert Draft(p, input, closeTime, createdAt).drawId[0] == 'd';
  }

  /** The assembled document passes the schema exactly when the caller's values do. */
  lemma {:induction false} AssembledSchema(p: Primitives, input: Input, closeTime: string, createdAt: string)
    requires Digests(p)
    ensures SchemaOk(p, WithAuditHash(p, Draft(p, input, closeTime, createdAt)))
       <==> InputOk(p, input, closeTime, createdAt)
  {
    AssembledSnapshot(p, input, closeTime, createdAt);
    AssembledRandomness(p, input, closeTime, createdAt);
    AssembledWinner(p, input, closeTime, createdAt);
    AssembledHeader(p, input, closeTime, createdAt);
    SchemaByParts(p, Draft(p, input, closeTime, createdAt));
  }

  lemma SchemaByParts(p: Primitives, d: Body)
    requires Digests(p) && d.version == "1.1.0" && Present(d.drawId)
    requires d.metadata.engineVersion == "1.0.0"
    ensures SchemaOk(p, WithAuditHash(p, d)) <==>
      && d.roundId >= 0 && Present(d.contractId) && SnapshotOk(p, d.snapshot) && RandomnessOk(d.randomness)
      && WinnerOk(d.winnerSelection) && PayoutOk(d.payout)
      && p.isDateTime(d.metadata.createdAt) && Present(d.metadata.contractSpecHash)
  {
    assert Present("1.0.0");
  }

  /** The audit hash covers neither the metadata nor the signature. */
  lemma AuditIgnoresMetadata(p: Primitives, b: Body, m: Metadata)
    ensures AuditSnapshotHash(p, b.(metadata := m)) == AuditSnapshotHash(p, b)
  {
  }

  /**
   * Producer and checker: for every input whose deposits and multipliers are readable and every pair of secrets, the
   * assembled proof verifies exactly when the input passes the schema, the commitment is the hash
   * of the seed and was recorded no later than the draw, and both secrets sign alike.
   */
  lemma {:induction false} AssembledVerifies(p: Primitives, input: Input, closeTime: string, createdAt: string,
                          signing: string, checking: string)
    requires Digests(p) && signing != "" && checking != ""
    requires DepositsReadable(input.participants) && MultipliersWhole(input.participants)
    ensures
      var proof := Assemble(p, input, Some(signing), closeTime, createdAt).value;
      Integrity(p, proof, Some(checking)).verified <==>
        && InputOk(p, input, closeTime, createdAt)
        && input.randomnessCommitment == p.sha256(input.randomnessSeed)
        && input.commitmentLedgerSeq <= input.drawnAtLedger
        && SignProof(p, proof.body, checking) == SignProof(p, proof.body, signing)
  {
    var d := Draft(p, input, closeTime, createdAt);
    var proof := DrawProof(WithAuditHash(p, d), Some(SignProof(p, WithAuditHash(p, d), signing)));
    assert Assemble(p, input, Some(signing), closeTime, createdAt) == Ok(proof);
    AssembledSchema(p, input, closeTime, createdAt);
    AuditIgnoresMetadata(p, d, proof.body.metadata);
    IntegrityExact(p, proof, Some(checking));
    AssembledChain(p, input, closeTime, createdAt);
    AssembledHeader(p, input, closeTime, createdAt);
    SignatureOfAssembled(p, proof, signing, checking);
  }

  lemma SignatureOfAssembled(p: Primitives, proof: DrawProof, signing: string, checking: string)
    requires Digests(p) && checking != ""
    requires proof.body.version == "1.1.0" && proof.signature == Some(SignProof(p, proof.body, signing))
    ensures SignatureMatches(p, proof, Some(checking)) <==>
            SignProof(p, proof.body, checking) == SignProof(p, proof.body, signing)
  {
    assert "1.1.0"[2] != "1.0.0"[2];
  }

  lemma AssembledChain(p: Primitives, input: Input, closeTime: string, createdAt: string)
    ensures ChainHolds(p, WithAuditHash(p, Draft(p, input, closeTime, createdAt))) <==>
      input.randomnessCommitment == p.sha256(input.randomnessSeed) && input.commitmentLedgerSeq <= input.drawnAtLedger
  {
  }

  /** With the secret it was signed with, an assembled proof verifies exactly under the commitment rules. */
  lemma {:induction false} ProducerCheckerRoundTrip(p: Primitives, input: Input, closeTime: string,
      createdAt: string, secret: string)
    requires Digests(p) && secret != ""
    requires DepositsReadable(input.participants) && MultipliersWhole(input.participants)
    requires InputOk(p, input, closeTime, createdAt)
    ensures
      var proof := Assemble(p, input, Some(secret), closeTime, createdAt).value;
      Integrity(p, proof, Some(secret)).verified <==>
        && input.randomnessCommitment == p.sha256(input.randomnessSeed)
        && input.commitmentLedgerSeq <= input.drawnAtLedger
  {
    AssembledVerifies(p, input, closeTime, createdAt, secret, secret);
  }

  // ----- What a verified verdict means ---------------------------------------------

  /** The signature is the document hash (1.0.0) or the HMAC under a supplied secret (1.1.0). */
  predicate SignatureMatches(p: Primitives, proof: DrawProof, secret: Option<string>) {
    && Truthy(proof.signature)
    && if proof.body.version == "1.0.0" then proof.signature.value == ProofHash(p, proof.body)
       else Truthy(secret) && proof.signature.value == SignProof(p, proof.body, secret.value)
  }

  /** The hashes inside the document reproduce, and the seed was committed to in time. */
  predicate ChainHolds(p: Primitives, b: Body) {
    && b.winnerSelection.proofHash ==
       WinnerProofHash(p, b.contractId, b.roundId, b.winnerSelection.winnerAddress, b.randomness.seedHash,
                       b.snapshot.participantsHash)
    && b.randomness.seedHash == p.sha256(b.randomness.seed)
    && b.randomness.commitment == b.randomness.seedHash
    && b.randomness.commitmentLedgerSeq <= b.randomness.drawnAtLedger
  }

  /** What a verified verdict means, in both directions: schema, signature, hash chain and audit hash. */
  lemma {:induction false} IntegrityExact(p: Primitives, proof: DrawProof, secret: Option<string>)
    ensures Integrity(p, proof, secret).verified <==>
      && SchemaOk(p, proof.body)
      && SignatureMatches(p, proof, secret)
      && ChainHolds(p, proof.body)
      && proof.body.metadata.auditSnapshotHash == Some(AuditSnapshotHash(p, proof.body))
  {
    if SchemaOk(p, proof.body) {
      SchemaAudit(p, proof.body);
      CheckedExact(p, proof, secret);
    } else {
      assert Field(RandomnessEvidence, Fail) in IntegrityFields(p, proof, secret);
    }
  }

  lemma SchemaAudit(p: Primitives, b: Body)
    requires SchemaOk(p, b)
    ensures PresentIfAny(b.metadata.auditSnapshotHash)
  {
  }

  /** All fields of the checked list pass exactly when the five checks do. */
  lemma CheckedPass(p: Primitives, proof: DrawProof, secret: Option<string>)
    ensures AllPass(CheckedFields(p, proof, secret)) <==>
      && DocumentCheck(p, proof, secret).status == Pass
      && WinnerCheck(p, proof.body).status == Pass
      && AuditCheck(p, proof.body).status == Pass
      && SeedCheck(p, proof.body.randomness).status == Pass
      && CommitmentCheck(p, proof.body.randomness).status == Pass
  {
    AllFive(DocumentCheck(p, proof, secret), WinnerCheck(p, proof.body), AuditCheck(p, proof.body),
            SeedCheck(p, proof.body.randomness), CommitmentCheck(p, proof.body.randomness));
  }

  lemma {:induction false} CheckedExact(p: Primitives, proof: DrawProof, secret: Option<string>)
    requires PresentIfAny(proof.body.metadata.auditSnapshotHash)
    ensures AllPass(CheckedFields(p, proof, secret)) <==>
      && SignatureMatches(p, proof, secret)
      && ChainHolds(p, proof.body)
      && proof.body.metadata.auditSnapshotHash == Some(AuditSnapshotHash(p, proof.body))
  {
    CheckedPass(p, proof, secret);
    DocumentExact(p, proof, secret);
    ChainExact(p, proof.body);
    AuditExact(p, proof.body);
  }

  lemma DocumentExact(p: Primitives, proof: DrawProof, secret: Option<string>)
    ensures DocumentCheck(p, proof, secret).status == Pass <==> SignatureMatches(p, proof, secret)
  {
  }

  lemma AuditExact(p: Primitives, b: Body)
    requires PresentIfAny(b.metadata.auditSnapshotHash)
    ensures AuditCheck(p, b).status == Pass <==> b.metadata.auditSnapshotHash == Some(AuditSnapshotHash(p, b))
  {
  }

  lemma ChainExact(p: Primitives, b: Body)
    ensures (&& WinnerCheck(p, b).status == Pass
             && SeedCheck(p, b.randomness).status == Pass
             && CommitmentCheck(p, b.randomness).status == Pass) <==> ChainHolds(p, b)
  {
  }

  lemma AllFive(a: Field, b: Field, c: Field, d: Field, e: Field)
    ensures AllPass([a, b, c, d, e]) <==>
            a.status == Pass && b.status == Pass && c.status == Pass && d.status == Pass && e.status == Pass
  {
    var fields := [a, b, c, d, e];
    assert a == fields[0] && b == fields[1] && c == fields[2] && d == fields[3] && e == fields[4];
    assert a in fields && b in fields && c in fields && d in fields && e in fields;
  }

  /** Without a secret no proof of version 1.1.0 is ever marked verified, signed or not. */
  lemma NeverVerifiedWithoutSecret(p: Primitives, proof: DrawProof)
    requires proof.body.version == "1.1.0"
    ensures !Integrity(p, proof, None).verified
  {
    IntegrityExact(p, proof, None);
    assert "1.1.0"[2] != "1.0.0"[2];
  }
}

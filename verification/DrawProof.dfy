/**
 * Draw proofs: how a proof document is assembled, hashed, signed and checked.
 * SHA-256 (FIPS 180-4), HMAC-SHA-256 (RFC 2104), locale comparison and the date-time syntax
 * of the schema are parameters.
 */
module DrawProof {

  import opened Sequences
  import opened DecimalText
  import opened Json
  import opened Canonical
  import Sorting

  /** The host functions the module calls. `hmac(secret, data)`; `compare` is localeCompare. */
  datatype Primitives = Primitives(
    sha256: string -> string,
    hmac: (string, string) -> string,
    compare: (string, string) -> int,
    isDateTime: string -> bool)

  // ----- The document ---------------------------------------------------------

  datatype Snapshot = Snapshot(
    ledgerSeq: int, ledgerCloseTime: string, participantsHash: string, participantCount: int,
    totalDeposits: string, poolHash: string, roundPrincipalSnapshot: Option<string>)

  datatype Randomness = Randomness(
    source: string, seed: string, seedHash: string, commitment: string,
    commitmentLedgerSeq: int, revealTxHash: string, drawnAtLedger: int)

  datatype WinnerSelection = WinnerSelection(
    selection: string, ticketWeightsHash: string, winnerAddress: string,
    winnerWeight: string, totalWeight: string, proofHash: string)

  datatype Payout = Payout(amount: string, asset: string, txHash: string, ledgerSeq: int, recipientConfirmed: bool)

  datatype Metadata = Metadata(
    createdAt: string, engineVersion: string, contractSpecHash: string, auditSnapshotHash: Option<string>)

  /** A proof without its signature. */
  datatype Body = Body(
    version: string, drawId: string, roundId: int, contractId: string, snapshot: Snapshot,
    randomness: Randomness, winnerSelection: WinnerSelection, payout: Payout, metadata: Metadata)

  datatype DrawProof = DrawProof(body: Body, signature: Option<string>)

  predicate Present(s: string) {
    s != ""
  }

  predicate PresentIfAny(s: Option<string>) {
    s.Some? ==> s.value != ""
  }

  /** `DrawProofSchema.safeParse(proof).success`. */
  predicate SchemaOk(p: Primitives, b: Body) {
    && b.version in {"1.0.0", "1.1.0"}
    && Present(b.drawId) && b.roundId >= 0 && Present(b.contractId)
    && SnapshotOk(p, b.snapshot)
    && RandomnessOk(b.randomness)
    && WinnerOk(b.winnerSelection)
    && PayoutOk(b.payout)
    && p.isDateTime(b.metadata.createdAt) && Present(b.metadata.engineVersion)
    && Present(b.metadata.contractSpecHash) && PresentIfAny(b.metadata.auditSnapshotHash)
  }

  predicate SnapshotOk(p: Primitives, s: Snapshot) {
    && s.ledgerSeq > 0 && p.isDateTime(s.ledgerCloseTime)
    && Present(s.participantsHash) && s.participantCount >= 0
    && Present(s.totalDeposits) && Present(s.poolHash) && PresentIfAny(s.roundPrincipalSnapshot)
  }

  predicate RandomnessOk(r: Randomness) {
    && r.source in {"soroban_prng", "external_beacon"}
    && Present(r.seed) && Present(r.seedHash) && Present(r.commitment)
    && r.commitmentLedgerSeq > 0 && Present(r.revealTxHash) && r.drawnAtLedger > 0
  }

  predicate WinnerOk(w: WinnerSelection) {
    && w.selection == "weighted_random"
    && Present(w.ticketWeightsHash) && Present(w.winnerAddress)
    && Present(w.winnerWeight) && Present(w.totalWeight) && Present(w.proofHash)
  }

  predicate PayoutOk(y: Payout) {
    Present(y.amount) && Present(y.asset) && Present(y.txHash) && y.ledgerSeq > 0
  }

  // ----- The document as JSON ---------------------------------------------------

  function Text(key: string, s: string): Member {
    Member(key, JString(s))
  }

  function Number(key: string, n: int): Member {
    Member(key, JNumber(IntText(n)))
  }

  function TextIfAny(key: string, s: Option<string>): seq<Member> {
    if s.Some? then [Text(key, s.value)] else []
  }

  function SnapshotMembers(s: Snapshot): seq<Member> {
    [Number("ledgerSeq", s.ledgerSeq), Text("ledgerCloseTime", s.ledgerCloseTime),
     Text("participantsHash", s.participantsHash), Number("participantCount", s.participantCount),
     Text("totalDeposits", s.totalDeposits), Text("poolHash", s.poolHash)]
  }

  function SnapshotJson(s: Snapshot): Json {
    JObject(SnapshotMembers(s) + TextIfAny("roundPrincipalSnapshot", s.roundPrincipalSnapshot))
  }

  function RandomnessJson(r: Randomness): Json {
    JObject([Text("source", r.source), Text("seed", r.seed), Text("seedHash", r.seedHash),
             Text("commitment", r.commitment), Number("commitmentLedgerSeq", r.commitmentLedgerSeq),
             Text("revealTxHash", r.revealTxHash), Number("drawnAtLedger", r.drawnAtLedger)])
  }

  function WinnerJson(w: WinnerSelection): Json {
    JObject([Text("method", w.selection), Text("ticketWeightsHash", w.ticketWeightsHash),
             Text("winnerAddress", w.winnerAddress), Text("winnerWeight", w.winnerWeight),
             Text("totalWeight", w.totalWeight), Text("proofHash", w.proofHash)])
  }

  function PayoutJson(y: Payout): Json {
    JObject([Text("amount", y.amount), Text("asset", y.asset), Text("txHash", y.txHash),
             Number("ledgerSeq", y.ledgerSeq), Member("recipientConfirmed", JBool(y.recipientConfirmed))])
  }

  function MetadataMembers(m: Metadata): seq<Member> {
    [Text("createdAt", m.createdAt), Text("engineVersion", m.engineVersion),
     Text("contractSpecHash", m.contractSpecHash)]
  }

  function MetadataJson(m: Metadata): Json {
    JObject(MetadataMembers(m) + TextIfAny("auditSnapshotHash", m.auditSnapshotHash))
  }

  function BodyRecord(b: Body, snapshot: Json, randomness: Json, winner: Json, payout: Json, metadata: Json)
    : seq<Member>
  {
    [Text("version", b.version), Text("drawId", b.drawId), Number("roundId", b.roundId),
     Text("contractId", b.contractId), Member("snapshot", snapshot), Member("randomness", randomness),
     Member("winnerSelection", winner), Member("payout", payout), Member("metadata", metadata)]
  }

  function BodyMembers(b: Body): seq<Member> {
    BodyRecord(b, SnapshotJson(b.snapshot), RandomnessJson(b.randomness), WinnerJson(b.winnerSelection),
               PayoutJson(b.payout), MetadataJson(b.metadata))
  }

  /** `canonicalize(proof)`. */
  function BodyText(b: Body): string {
    Canonicalize(BodyMembers(b))
  }

  /** `computeProofHash(proof)`. */
  function ProofHash(p: Primitives, b: Body): string {
    p.sha256(BodyText(b))
  }

  /** `signProof(proof, secret)`. */
  function SignProof(p: Primitives, b: Body, secret: string): string {
    p.hmac(secret, BodyText(b))
  }

  // ----- Chained hashes -----------------------------------------------------------

  /** A number by its use: `BigInt` takes a whole one and throws on any other, which still prints as JSON. */
  datatype Multiplier = Whole(n: int) | NotWhole(text: string)

  datatype Participant = Participant(address: string, deposit: string, lockupMultiplier: Multiplier)

  datatype TicketWeight = TicketWeight(address: string, weight: string)

  function ByAddress(compare: (string, string) -> int): (Participant, Participant) -> bool {
    (a: Participant, b: Participant) => compare(a.address, b.address) <= 0
  }

  function ByTicketAddress(compare: (string, string) -> int): (TicketWeight, TicketWeight) -> bool {
    (a: TicketWeight, b: TicketWeight) => compare(a.address, b.address) <= 0
  }

  function ParticipantsHash(p: Primitives, ps: seq<Participant>): string {
    var sorted := Sorting.Sort(ByAddress(p.compare), ps);
    p.sha256(Stringify(JArray(Map(ParticipantRow, sorted))))
  }

  function ParticipantRow(e: Participant): Json {
    JArray([JString(e.address), JString(e.deposit), JNumber(MultiplierText(e.lockupMultiplier))])
  }

  function MultiplierText(m: Multiplier): string {
    match m
    case Whole(n) => IntText(n)
    case NotWhole(text) => text
  }

  function TicketWeightsHash(p: Primitives, ws: seq<TicketWeight>): string {
    var sorted := Sorting.Sort(ByTicketAddress(p.compare), ws);
    p.sha256(Stringify(JArray(Map(WeightRow, sorted))))
  }

  function WeightRow(w: TicketWeight): Json {
    JArray([JString(w.address), JString(w.weight)])
  }

  function PoolHash(p: Primitives, pool: seq<Member>): string {
    p.sha256(CanonicalText(JObject(pool)))
  }

  function DrawId(p: Primitives, contractId: string, roundId: int, ledger: int): string {
    var hash := p.sha256(contractId + ":" + IntText(roundId) + ":" + IntText(ledger));
    "draw-" + if |hash| < 16 then hash else hash[..16]
  }

  function WinnerProofText(contractId: string, roundId: int, winner: string, seedHash: string, participantsHash: string)
    : string
  {
    contractId + ":" + (IntText(roundId) + ":" + (winner + ":" + (seedHash + ":" + participantsHash)))
  }

  /** `computeWinnerProofHash`. */
  function WinnerProofHash(p: Primitives, contractId: string, roundId: int, winner: string, seedHash: string,
                           participantsHash: string): string {
    p.sha256(WinnerProofText(contractId, roundId, winner, seedHash, participantsHash))
  }

  /** `buildDrawAuditSnapshot(proof)`, as the JSON that is hashed. */
  function AuditSnapshot(b: Body): Json {
    JObject(AuditMembers(b, AuditRandomness(b.randomness), AuditWinner(b.winnerSelection), PayoutJson(b.payout)))
  }

  function AuditMembers(b: Body, randomness: Json, winner: Json, payout: Json): seq<Member> {
    [Number("roundId", b.roundId), Text("contractId", b.contractId),
     Number("ledgerSeq", b.snapshot.ledgerSeq), Text("participantsHash", b.snapshot.participantsHash),
     Number("participantCount", b.snapshot.participantCount),
     Text("totalDeposits", b.snapshot.totalDeposits), Text("poolHash", b.snapshot.poolHash),
     Text("ticketWeightsHash", b.winnerSelection.ticketWeightsHash),
     Member("randomness", randomness), Member("winner", winner), Member("payout", payout)]
  }

  function AuditRandomness(r: Randomness): Json {
    JObject([Text("source", r.source), Text("seedHash", r.seedHash), Text("commitment", r.commitment),
             Number("commitmentLedgerSeq", r.commitmentLedgerSeq), Text("revealTxHash", r.revealTxHash),
             Number("drawnAtLedger", r.drawnAtLedger)])
  }

  function AuditWinner(w: WinnerSelection): Json {
    JObject([Text("address", w.winnerAddress), Text("weight", w.winnerWeight), Text("totalWeight", w.totalWeight)])
  }

  /** `computeDrawAuditSnapshotHash(proof)`. */
  function AuditSnapshotHash(p: Primitives, b: Body): string {
    p.sha256(CanonicalText(AuditSnapshot(b)))
  }

  // ----- Checking -------------------------------------------------------------------

  datatype Status = Pass | Fail | Unverified

  /** The names of the checks, those of the on-chain verifier included. */
  datatype CheckName =
    | RandomnessEvidence | DocumentIntegrity | WinnerProof | AuditHash | SeedHash | RandomnessCommitment
    | SnapshotLedger | PayoutTx | RandomnessReveal | RoundSnapshot

  datatype Field = Field(name: CheckName, status: Status)

  datatype Report = Report(verified: bool, fields: seq<Field>)

  function Check(name: CheckName, ok: bool): Field {
    Field(name, if ok then Pass else Fail)
  }

  /** A string that JavaScript treats as true: present and not empty. */
  predicate Truthy(s: Option<string>) {
    s.Some? && s.value != ""
  }

  function DocumentCheck(p: Primitives, proof: DrawProof, secret: Option<string>): Field {
    if !Truthy(proof.signature) then
      Field(DocumentIntegrity, Unverified)
    else if proof.body.version == "1.0.0" then
      Check(DocumentIntegrity, ProofHash(p, proof.body) == proof.signature.value)
    else if !Truthy(secret) then
      Field(DocumentIntegrity, Unverified)
    else
      Check(DocumentIntegrity, SignProof(p, proof.body, secret.value) == proof.signature.value)
  }

  function WinnerCheck(p: Primitives, b: Body): Field {
    Check(WinnerProof,
          WinnerProofHash(p, b.contractId, b.roundId, b.winnerSelection.winnerAddress, b.randomness.seedHash,
                          b.snapshot.participantsHash) == b.winnerSelection.proofHash)
  }

  function AuditCheck(p: Primitives, b: Body): Field {
    if Truthy(b.metadata.auditSnapshotHash) then
      Check(AuditHash, AuditSnapshotHash(p, b) == b.metadata.auditSnapshotHash.value)
    else
      Field(AuditHash, Unverified)
  }

  function SeedCheck(p: Primitives, r: Randomness): Field {
    Check(SeedHash, p.sha256(r.seed) == r.seedHash)
  }

  function CommitmentCheck(p: Primitives, r: Randomness): Field {
    Check(RandomnessCommitment, p.sha256(r.seed) == r.commitment && r.commitmentLedgerSeq <= r.drawnAtLedger)
  }

  function CheckedFields(p: Primitives, proof: DrawProof, secret: Option<string>): seq<Field> {
    [DocumentCheck(p, proof, secret), WinnerCheck(p, proof.body), AuditCheck(p, proof.body),
     SeedCheck(p, proof.body.randomness), CommitmentCheck(p, proof.body.randomness)]
  }

  function IntegrityFields(p: Primitives, proof: DrawProof, secret: Option<string>): seq<Field> {
    if !SchemaOk(p, proof.body) then [Field(RandomnessEvidence, Fail)]
    else CheckedFields(p, proof, secret)
  }

  predicate AllPass(fields: seq<Field>) {
    forall f | f in fields :: f.status == Pass
  }

  /** `verifyProofIntegrity(proof, {signatureSecret})`. */
  function Integrity(p: Primitives, proof: DrawProof, secret: Option<string>): Report {
    var fields := IntegrityFields(p, proof, secret);
    Report(AllPass(fields), fields)
  }

  /** The check as it runs, one field pushed at a time. */
  method VerifyProofIntegrity(p: Primitives, proof: DrawProof, secret: Option<string>) returns (r: Report)
    ensures r == Integrity(p, proof, secret)
  {
    if !SchemaOk(p, proof.body) {
      var fields := [Field(RandomnessEvidence, Fail)];
      return Report(false, fields);
    }
    var fields := CheckFields(p, proof, secret);
    var allPass := AllPass(fields);
    var anyFail := exists f :: f in fields && f.status == Fail;
    r := Report(allPass && !anyFail, fields);
  }

  method CheckFields(p: Primitives, proof: DrawProof, secret: Option<string>) returns (fields: seq<Field>)
    ensures fields == CheckedFields(p, proof, secret)
  {
    fields := [];
    var document := CheckDocument(p, proof, secret);
    fields := fields + [document];
    var winner := CheckWinner(p, proof.body);
    fields := fields + [winner];
    var audit := CheckAudit(p, proof.body);
    fields := fields + [audit];
    var seed, commitment := CheckRandomness(p, proof.body.randomness);
    fields := fields + [seed];
    fields := fields + [commitment];
  }

  method CheckWinner(p: Primitives, b: Body) returns (f: Field)
    ensures f == WinnerCheck(p, b)
  {
    var expected := WinnerProofHash(p, b.contractId, b.roundId, b.winnerSelection.winnerAddress,
                                    b.randomness.seedHash, b.snapshot.participantsHash);
    f := Check(WinnerProof, expected == b.winnerSelection.proofHash);
  }

  method CheckAudit(p: Primitives, b: Body) returns (f: Field)
    ensures f == AuditCheck(p, b)
  {
    f := Field(AuditHash, Unverified);
    if Truthy(b.metadata.auditSnapshotHash) {
      var recomputed := AuditSnapshotHash(p, b);
      f := Check(AuditHash, recomputed == b.metadata.auditSnapshotHash.value);
    }
  }

  method CheckRandomness(p: Primitives, r: Randomness) returns (seed: Field, commitment: Field)
    ensures seed == SeedCheck(p, r) && commitment == CommitmentCheck(p, r)
  {
    var recomputed := p.sha256(r.seed);
    seed := Check(SeedHash, recomputed == r.seedHash);
    commitment := Field(RandomnessCommitment, Pass);
    if recomputed != r.commitment {
      commitment := Field(RandomnessCommitment, Fail);
    } else if r.commitmentLedgerSeq > r.drawnAtLedger {
      commitment := Field(RandomnessCommitment, Fail);
    }
  }

  method CheckDocument(p: Primitives, proof: DrawProof, secret: Option<string>) returns (f: Field)
    ensures f == DocumentCheck(p, proof, secret)
  {
    var expectedDocHash := ProofHash(p, proof.body);
    if !Truthy(proof.signature) {
      f := Field(DocumentIntegrity, Unverified);
    } else if proof.body.version == "1.0.0" {
      f := Check(DocumentIntegrity, expectedDocHash == proof.signature.value);
    } else if !Truthy(secret) {
      f := Field(DocumentIntegrity, Unverified);
    } else {
      var expectedSignature := SignProof(p, proof.body, secret.value);
      f := Check(DocumentIntegrity, expectedSignature == proof.signature.value);
    }
  }

  // ----- Assembling -----------------------------------------------------------------

  datatype Input = Input(
    roundId: int, contractId: string, participants: seq<Participant>, poolState: seq<Member>,
    randomnessSource: string, randomnessSeed: string, randomnessCommitment: string,
    commitmentLedgerSeq: int, revealTxHash: string, drawnAtLedger: int, winnerAddress: string,
    payoutTxHash: string, payoutLedgerSeq: int, payoutAmount: string, payoutAsset: string,
    payoutConfirmed: bool, contractSpecHash: string, roundPrincipalSnapshot: Option<string>)

  /** `BigInt(p.deposit)` does not throw for any participant. */
  predicate DepositsReadable(ps: seq<Participant>) {
    forall e | e in ps :: BigIntOf(e.deposit).Some?
  }

  /** `BigInt(p.lockupMultiplier)` does not throw for any participant. */
  predicate MultipliersWhole(ps: seq<Participant>) {
    forall e | e in ps :: e.lockupMultiplier.Whole?
  }

  function DepositOf(e: Participant): int {
    BigIntOf(e.deposit).GetOr(0)
  }

  function WeightOf(e: Participant): int {
    match e.lockupMultiplier
    case Whole(n) => DepositOf(e) * n
    case NotWhole(_) => 0
  }

  function TicketOf(e: Participant): TicketWeight {
    TicketWeight(e.address, IntText(WeightOf(e)))
  }

  function TicketValue(w: TicketWeight): int {
    BigIntOf(w.weight).GetOr(0)
  }

  /** `weights.find(w => w.address === winner)?.weight ?? "0"`. */
  function WinnerWeight(ws: seq<TicketWeight>, winner: string): string {
    if ws == [] then "0"
    else if ws[0].address == winner then ws[0].weight
    else WinnerWeight(ws[1..], winner)
  }

  /** The document before the audit hash is added; `closeTime` and `createdAt` are the two clock readings. */
  function Draft(p: Primitives, input: Input, closeTime: string, createdAt: string): Body {
    var participantsHash := ParticipantsHash(p, input.participants);
    var seedHash := p.sha256(input.randomnessSeed);
    var weights := Map(TicketOf, input.participants);
    Body(
      "1.1.0", DrawId(p, input.contractId, input.roundId, input.drawnAtLedger), input.roundId, input.contractId,
      Snapshot(input.drawnAtLedger, closeTime, participantsHash, |input.participants|,
               IntText(Sum(Map(DepositOf, input.participants))), PoolHash(p, input.poolState),
               input.roundPrincipalSnapshot),
      Randomness(input.randomnessSource, input.randomnessSeed, seedHash, input.randomnessCommitment,
                 input.commitmentLedgerSeq, input.revealTxHash, input.drawnAtLedger),
      WinnerSelection("weighted_random", TicketWeightsHash(p, weights), input.winnerAddress,
                      WinnerWeight(weights, input.winnerAddress), IntText(Sum(Map(TicketValue, weights))),
                      WinnerProofHash(p, input.contractId, input.roundId, input.winnerAddress, seedHash,
                          participantsHash)),
      Payout(input.payoutAmount, input.payoutAsset, input.payoutTxHash, input.payoutLedgerSeq, input.payoutConfirmed),
      Metadata(createdAt, "1.0.0", input.contractSpecHash, None))
  }

  /** `proof.metadata.auditSnapshotHash = computeDrawAuditSnapshotHash(proof)`. */
  function WithAuditHash(p: Primitives, b: Body): Body {
    b.(metadata := b.metadata.(auditSnapshotHash := Some(AuditSnapshotHash(p, b))))
  }

  /** `assembleDrawProof(input, {signatureSecret})`; `Err` names what an unreadable deposit or multiplier throws. */
  function Assemble(p: Primitives, input: Input, secret: Option<string>, closeTime: string, createdAt: string)
    : Result<DrawProof, string>
  {
    if !DepositsReadable(input.participants) then Err("SyntaxError")
    else if !MultipliersWhole(input.participants) then Err("RangeError")
    else
      var body := WithAuditHash(p, Draft(p, input, closeTime, createdAt));
      Ok(DrawProof(body, if Truthy(secret) then Some(SignProof(p, body, secret.value)) else None))
  }

  /** Assembling as it runs: the audit hash is written into the finished draft, then the document is signed. */
  method AssembleDrawProof(p: Primitives, input: Input, secret: Option<string>, closeTime: string, createdAt: string)
    returns (r: Result<DrawProof, string>)
    ensures r == Assemble(p, input, secret, closeTime, createdAt)
  {
    if !DepositsReadable(input.participants) {
      return Err("SyntaxError");
    }
    if !MultipliersWhole(input.participants) {
      return Err("RangeError");
    }
    var body := Draft(p, input, closeTime, createdAt);
    var auditHash := AuditSnapshotHash(p, body);
    body := body.(metadata := body.metadata.(auditSnapshotHash := Some(auditHash)));
    var signature := None;
    if Truthy(secret) {
      signature := Some(SignProof(p, body, secret.value));
    }
    r := Ok(DrawProof(body, signature));
  }
}

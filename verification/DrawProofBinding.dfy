/** A hash or signature over the canonical text pins down every field of the document. */
module DrawProofBinding {

  import opened Sequences
  import opened DecimalText
  import opened Json
  import opened Canonical
  import opened DrawProof
  import Results = DrawProofResults

  // ----- Records: objects with fixed keys -------------------------------------------

  /** What tells the keys of a record apart. */
  datatype Outline = Outline(length: nat, first: char, last: char)

  predicate HasOutline(key: string, o: Outline) {
    key != "" && |key| == o.length && key[0] == o.first != '_' && key[|key| - 1] == o.last
  }

  predicate HasOutlines(ms: seq<Member>, os: seq<Outline>) {
    |ms| == |os| && forall i | 0 <= i < |ms| :: HasOutline(ms[i].key, os[i])
  }

  predicate Sound(v: Json) {
    WellFormed(v) && NoProto(v)
  }

  predicate SoundValues(ms: seq<Member>) {
    forall i | 0 <= i < |ms| :: Sound(ms[i].value)
  }

  /** A record whose keys have different outlines is an object, without a member called `__proto__`. */
  lemma PlainRecord(ms: seq<Member>, os: seq<Outline>)
    requires HasOutlines(ms, os) && Distinct(os) && SoundValues(ms)
    ensures Sound(JObject(ms))
  {
    forall i, j | 0 <= i < j < |ms| ensures ms[i].key != ms[j].key {
      assert HasOutline(ms[i].key, os[i]) && HasOutline(ms[j].key, os[j]) && os[i] != os[j];
    }
    forall m | m in ms ensures m.key != PROTO && Sound(m.value) {
      var i :| 0 <= i < |ms| && ms[i] == m;
      assert HasOutline(ms[i].key, os[i]);
      assert PROTO[0] == '_';
    }
  }

  /** Same structure and the same keys in the same places; the texts and numbers may differ. */
  predicate SameShape(v: Json, w: Json) {
    match v
    case JArray(items) => w.JArray? && |items| == |w.items| && forall i | 0 <= i < |items| ::
      SameShape(items[i], w.items[i])
    case JObject(ms) =>
      && w.JObject? && |ms| == |w.members|
      && forall i | 0 <= i < |ms| :: ms[i].key == w.members[i].key && SameShape(ms[i].value, w.members[i].value)
    case _ => true
  }

  /** Values of the same shape with the same meaning are the same value. */
  lemma {:induction false} ShapeDetermines(v: Json, w: Json)
    requires WellFormed(v) && WellFormed(w) && SameShape(v, w)
    requires MeaningOf(v) == MeaningOf(w)
    ensures v == w
    decreases v
  {
    match v
    case JArray(items) =>
      MeaningAt(items);
      MeaningAt(w.items);
      forall i | 0 <= i < |items| ensures items[i] == w.items[i] {
        assert MeaningOfItems(items)[i] == MeaningOfItems(w.items)[i];
        ShapeDetermines(items[i], w.items[i]);
      }
    case JObject(ms) =>
      forall i | 0 <= i < |ms| ensures ms[i] == w.members[i] {
        SameRecord(ms, w.members, i);
        ShapeDetermines(ms[i].value, w.members[i].value);
      }
    case _ =>
  }

  lemma {:induction false} MeaningAt(items: seq<Json>)
    ensures |MeaningOfItems(items)| == |items|
    ensures forall i | 0 <= i < |items| :: MeaningOfItems(items)[i] == MeaningOf(items[i])
  {
    if items != [] {
      MeaningAt(items[1..]);
    }
  }

  /** In records with the same keys and the same meaning, each member means the same. */
  lemma SameRecord(ms: seq<Member>, ns: seq<Member>, i: nat)
    requires |ms| == |ns| && UniqueKeys(ms) && UniqueKeys(ns)
    requires i < |ms| && ms[i].key == ns[i].key
    requires MeaningOfMembers(ms) == MeaningOfMembers(ns)
    ensures MeaningOf(ms[i].value) == MeaningOf(ns[i].value)
  {
    MeaningKeys(ms);
    MeaningKeys(ns);
    assert ms[i] in ms && ns[i] in ns;
  }

  /** An optional last member is present exactly when it has a value. */
  lemma OptionalKey(ms: seq<Member>, os: seq<Outline>, key: string, o: Outline, s: Option<string>)
    requires HasOutlines(ms, os) && HasOutline(key, o) && o !in os
    ensures key in MeaningOfMembers(ms + TextIfAny(key, s)) <==> s.Some?
  {
    var all := ms + TextIfAny(key, s);
    MeaningKeys(all);
    forall i | 0 <= i < |ms| ensures all[i].key != key {
      assert HasOutline(ms[i].key, os[i]) && os[i] != o;
    }
    if s.Some? {
      assert all[|ms|] == Text(key, s.value);
      assert all[|ms|] in all;
    }
  }

  /** Adding an optional last member to a plain record. */
  lemma OptionalPlain(ms: seq<Member>, os: seq<Outline>, key: string, o: Outline, s: Option<string>)
    requires HasOutlines(ms, os) && HasOutline(key, o) && Distinct(os + [o]) && SoundValues(ms)
    ensures Sound(JObject(ms + TextIfAny(key, s)))
    ensures key in MeaningOfMembers(ms + TextIfAny(key, s)) <==> s.Some?
  {
    assert (os + [o])[|os|] == o;
    forall i | 0 <= i < |os| ensures os[i] != o {
      assert (os + [o])[i] == os[i];
    }
    OptionalKey(ms, os, key, o, s);
    if s.Some? {
      PlainRecord(ms + [Text(key, s.value)], os + [o]);
    } else {
      DistinctPrefix(os, o);
      PlainRecord(ms, os);
      assert ms + [] == ms;
    }
  }

  lemma DistinctPrefix<A>(s: seq<A>, x: A)
    requires Distinct(s + [x])
    ensures Distinct(s)
  {
    assert forall i | 0 <= i < |s| :: s[i] == (s + [x])[i];
  }

  lemma NumberSound(key: string, n: int)
    ensures Sound(Number(key, n).value)
  {
  }

  // ----- The key outlines of each record ------------------------------------------------

  const SNAPSHOT_OUTLINES: seq<Outline> := [
    Outline(9, 'l', 'q'), Outline(15, 'l', 'e'), Outline(16, 'p', 'h'), Outline(16, 'p', 't'),
    Outline(13, 't', 's'), Outline(8, 'p', 'h')]

  const METADATA_OUTLINES: seq<Outline> := [Outline(9, 'c', 't'), Outline(13, 'e', 'n'), Outline(16, 'c', 'h')]

  const RANDOMNESS_OUTLINES: seq<Outline> := [
    Outline(6, 's', 'e'), Outline(4, 's', 'd'), Outline(8, 's', 'h'), Outline(10, 'c', 't'),
    Outline(19, 'c', 'q'), Outline(12, 'r', 'h'), Outline(13, 'd', 'r')]

  const WINNER_OUTLINES: seq<Outline> := [
    Outline(6, 'm', 'd'), Outline(17, 't', 'h'), Outline(13, 'w', 's'), Outline(12, 'w', 't'),
    Outline(11, 't', 't'), Outline(9, 'p', 'h')]

  const PAYOUT_OUTLINES: seq<Outline> := [
    Outline(6, 'a', 't'), Outline(5, 'a', 't'), Outline(6, 't', 'h'), Outline(9, 'l', 'q'),
    Outline(18, 'r', 'd')]

  const BODY_OUTLINES: seq<Outline> := [
    Outline(7, 'v', 'n'), Outline(6, 'd', 'd'), Outline(7, 'r', 'd'), Outline(10, 'c', 'd'),
    Outline(8, 's', 't'), Outline(10, 'r', 's'), Outline(15, 'w', 'n'), Outline(6, 'p', 't'),
    Outline(8, 'm', 'a')]

  const AUDIT_RANDOMNESS_OUTLINES: seq<Outline> := [
    Outline(6, 's', 'e'), Outline(8, 's', 'h'), Outline(10, 'c', 't'), Outline(19, 'c', 'q'),
    Outline(12, 'r', 'h'), Outline(13, 'd', 'r')]

  const AUDIT_WINNER_OUTLINES: seq<Outline> := [
    Outline(7, 'a', 's'), Outline(6, 'w', 't'), Outline(11, 't', 't')]

  const AUDIT_OUTLINES: seq<Outline> := [
    Outline(7, 'r', 'd'), Outline(10, 'c', 'd'), Outline(9, 'l', 'q'), Outline(16, 'p', 'h'),
    Outline(16, 'p', 't'), Outline(13, 't', 's'), Outline(8, 'p', 'h'), Outline(17, 't', 'h'),
    Outline(10, 'r', 's'), Outline(6, 'w', 'r'), Outline(6, 'p', 't')]

  lemma OutlinesDiffer()
    ensures Distinct(RANDOMNESS_OUTLINES)
    ensures Distinct(WINNER_OUTLINES)
    ensures Distinct(PAYOUT_OUTLINES)
    ensures Distinct(BODY_OUTLINES)
    ensures Distinct(AUDIT_RANDOMNESS_OUTLINES)
    ensures Distinct(AUDIT_WINNER_OUTLINES)
    ensures Distinct(AUDIT_OUTLINES)
  {
  }

  /** The keys that come last and may be missing differ from the others too. */
  lemma OptionalOutlinesDiffer()
    ensures Distinct(SNAPSHOT_OUTLINES + [Outline(22, 'r', 't')])
    ensures Distinct(METADATA_OUTLINES + [Outline(17, 'a', 'h')])
  {
  }

  // ----- The parts of a document ------------------------------------------------------

  lemma SnapshotPlain(s: Snapshot)
    ensures Sound(SnapshotJson(s))
    ensures "roundPrincipalSnapshot" in MeaningOfMembers(SnapshotJson(s).members) <==> s.roundPrincipalSnapshot.Some?
  {
    OptionalOutlinesDiffer();
    SnapshotOutlines(s);
    OptionalPlain(SnapshotMembers(s), SNAPSHOT_OUTLINES, "roundPrincipalSnapshot", Outline(22, 'r', 't'),
                  s.roundPrincipalSnapshot);
  }

  lemma SnapshotOutlines(s: Snapshot)
    ensures HasOutlines(SnapshotMembers(s), SNAPSHOT_OUTLINES)
    ensures SoundValues(SnapshotMembers(s))
  {
    NumberSound("ledgerSeq", s.ledgerSeq);
    NumberSound("participantCount", s.participantCount);
  }

  lemma SnapshotBinds(a: Snapshot, b: Snapshot)
    requires SnapshotJson(a) == SnapshotJson(b)
    ensures a == b
  {
    var ms, ns := SnapshotJson(a).members, SnapshotJson(b).members;
    assert ms[0] == ns[0] && ms[1] == ns[1] && ms[2] == ns[2] && ms[3] == ns[3] && ms[4] == ns[4] && ms[5] == ns[5];
    assert |ms| == |ns|;
    if a.roundPrincipalSnapshot.Some? {
      assert ms[6] == ns[6];
    }
    IntTextInjective(a.ledgerSeq, b.ledgerSeq);
    IntTextInjective(a.participantCount, b.participantCount);
  }

  lemma {:induction false} RandomnessPlain(r: Randomness)
    ensures Sound(RandomnessJson(r))
  {
    OutlinesDiffer();
    RandomnessOutlines(r);
    PlainRecord(RandomnessJson(r).members, RANDOMNESS_OUTLINES);
  }

  lemma RandomnessOutlines(r: Randomness)
    ensures HasOutlines(RandomnessJson(r).members, RANDOMNESS_OUTLINES)
    ensures SoundValues(RandomnessJson(r).members)
  {
    NumberSound("commitmentLedgerSeq", r.commitmentLedgerSeq);
    NumberSound("drawnAtLedger", r.drawnAtLedger);
  }

  lemma RandomnessBinds(a: Randomness, b: Randomness)
    requires RandomnessJson(a) == RandomnessJson(b)
    ensures a == b
  {
    var ms, ns := RandomnessJson(a).members, RandomnessJson(b).members;
    assert ms[0] == ns[0] && ms[1] == ns[1] && ms[2] == ns[2] && ms[3] == ns[3];
    assert ms[4] == ns[4] && ms[5] == ns[5] && ms[6] == ns[6];
    IntTextInjective(a.commitmentLedgerSeq, b.commitmentLedgerSeq);
    IntTextInjective(a.drawnAtLedger, b.drawnAtLedger);
  }

  lemma WinnerPlain(w: WinnerSelection)
    ensures Sound(WinnerJson(w))
  {
    OutlinesDiffer();
    WinnerOutlines(w);
    PlainRecord(WinnerJson(w).members, WINNER_OUTLINES);
  }

  lemma WinnerOutlines(w: WinnerSelection)
    ensures HasOutlines(WinnerJson(w).members, WINNER_OUTLINES)
    ensures SoundValues(WinnerJson(w).members)
  {
  }

  lemma WinnerBinds(a: WinnerSelection, b: WinnerSelection)
    requires WinnerJson(a) == WinnerJson(b)
    ensures a == b
  {
    var ms, ns := WinnerJson(a).members, WinnerJson(b).members;
    assert ms[0] == ns[0] && ms[1] == ns[1] && ms[2] == ns[2] && ms[3] == ns[3] && ms[4] == ns[4] && ms[5] == ns[5];
  }

  lemma PayoutPlain(y: Payout)
    ensures Sound(PayoutJson(y))
  {
    OutlinesDiffer();
    PayoutOutlines(y);
    PlainRecord(PayoutJson(y).members, PAYOUT_OUTLINES);
  }

  lemma PayoutOutlines(y: Payout)
    ensures HasOutlines(PayoutJson(y).members, PAYOUT_OUTLINES)
    ensures SoundValues(PayoutJson(y).members)
  {
    NumberSound("ledgerSeq", y.ledgerSeq);
  }

  lemma PayoutBinds(a: Payout, b: Payout)
    requires PayoutJson(a) == PayoutJson(b)
    ensures a == b
  {
    var ms, ns := PayoutJson(a).members, PayoutJson(b).members;
    assert ms[0] == ns[0] && ms[1] == ns[1] && ms[2] == ns[2] && ms[3] == ns[3] && ms[4] == ns[4];
    IntTextInjective(a.ledgerSeq, b.ledgerSeq);
  }

  lemma MetadataPlain(m: Metadata)
    ensures Sound(MetadataJson(m))
    ensures "auditSnapshotHash" in MeaningOfMembers(MetadataJson(m).members) <==> m.auditSnapshotHash.Some?
  {
    OptionalOutlinesDiffer();
    OptionalPlain(MetadataMembers(m), METADATA_OUTLINES, "auditSnapshotHash", Outline(17, 'a', 'h'),
                  m.auditSnapshotHash);
  }

  lemma MetadataBinds(a: Metadata, b: Metadata)
    requires MetadataJson(a) == MetadataJson(b)
    ensures a == b
  {
    var ms, ns := MetadataJson(a).members, MetadataJson(b).members;
    assert ms[0] == ns[0] && ms[1] == ns[1] && ms[2] == ns[2];
    assert |ms| == |ns|;
    if a.auditSnapshotHash.Some? {
      assert ms[3] == ns[3];
    }
  }

  // ----- The whole document -------------------------------------------------------------

  lemma {:induction false} RecordPlain(b: Body, snapshot: Json, randomness: Json, winner: Json, payout: Json,
      metadata: Json)
    requires Sound(snapshot) && Sound(randomness) && Sound(winner) && Sound(payout) && Sound(metadata)
    ensures Sound(JObject(BodyRecord(b, snapshot, randomness, winner, payout, metadata)))
  {
    OutlinesDiffer();
    RecordOutlines(b, snapshot, randomness, winner, payout, metadata);
    PlainRecord(BodyRecord(b, snapshot, randomness, winner, payout, metadata), BODY_OUTLINES);
  }

  lemma RecordOutlines(b: Body, snapshot: Json, randomness: Json, winner: Json, payout: Json, metadata: Json)
    requires Sound(snapshot) && Sound(randomness) && Sound(winner) && Sound(payout) && Sound(metadata)
    ensures HasOutlines(BodyRecord(b, snapshot, randomness, winner, payout, metadata), BODY_OUTLINES)
    ensures SoundValues(BodyRecord(b, snapshot, randomness, winner, payout, metadata))
  {
    NumberSound("roundId", b.roundId);
  }

  lemma {:induction false} BodyPlain(b: Body)
    ensures Sound(JObject(BodyMembers(b)))
  {
    SnapshotPlain(b.snapshot);
    RandomnessPlain(b.randomness);
    WinnerPlain(b.winnerSelection);
    PayoutPlain(b.payout);
    MetadataPlain(b.metadata);
    RecordPlain(b, SnapshotJson(b.snapshot), RandomnessJson(b.randomness), WinnerJson(b.winnerSelection),
                PayoutJson(b.payout), MetadataJson(b.metadata));
  }

  lemma {:induction false} BodyBinds(a: Body, b: Body)
    requires BodyMembers(a) == BodyMembers(b)
    ensures a == b
  {
    var ms, ns := BodyMembers(a), BodyMembers(b);
    assert ms[0] == ns[0] && ms[1] == ns[1] && ms[2] == ns[2] && ms[3] == ns[3] && ms[4] == ns[4];
    assert ms[5] == ns[5] && ms[6] == ns[6] && ms[7] == ns[7] && ms[8] == ns[8];
    IntTextInjective(a.roundId, b.roundId);
    SnapshotBinds(a.snapshot, b.snapshot);
    RandomnessBinds(a.randomness, b.randomness);
    WinnerBinds(a.winnerSelection, b.winnerSelection);
    PayoutBinds(a.payout, b.payout);
    MetadataBinds(a.metadata, b.metadata);
  }

  lemma SnapshotShape(a: Snapshot, b: Snapshot)
    requires a.roundPrincipalSnapshot.Some? == b.roundPrincipalSnapshot.Some?
    ensures SameShape(SnapshotJson(a), SnapshotJson(b))
  {
  }

  lemma MetadataShape(a: Metadata, b: Metadata)
    requires a.auditSnapshotHash.Some? == b.auditSnapshotHash.Some?
    ensures SameShape(MetadataJson(a), MetadataJson(b))
  {
  }

  lemma RecordShape(a: Body, b: Body, s: Json, s': Json, r: Json, r': Json, w: Json, w': Json, p: Json, p': Json,
                    m: Json, m': Json)
    requires SameShape(s, s') && SameShape(r, r') && SameShape(w, w') && SameShape(p, p') && SameShape(m, m')
    ensures SameShape(JObject(BodyRecord(a, s, r, w, p, m)), JObject(BodyRecord(b, s', r', w', p', m')))
  {
  }

  lemma RandomnessShape(a: Randomness, b: Randomness)
    ensures SameShape(RandomnessJson(a), RandomnessJson(b))
  {
  }

  lemma WinnerShape(a: WinnerSelection, b: WinnerSelection)
    ensures SameShape(WinnerJson(a), WinnerJson(b))
  {
  }

  lemma PayoutShape(a: Payout, b: Payout)
    ensures SameShape(PayoutJson(a), PayoutJson(b))
  {
  }

  lemma {:induction false} BodyShape(a: Body, b: Body)
    requires a.snapshot.roundPrincipalSnapshot.Some? == b.snapshot.roundPrincipalSnapshot.Some?
    requires a.metadata.auditSnapshotHash.Some? == b.metadata.auditSnapshotHash.Some?
    ensures SameShape(JObject(BodyMembers(a)), JObject(BodyMembers(b)))
  {
    SnapshotShape(a.snapshot, b.snapshot);
    RandomnessShape(a.randomness, b.randomness);
    WinnerShape(a.winnerSelection, b.winnerSelection);
    PayoutShape(a.payout, b.payout);
    MetadataShape(a.metadata, b.metadata);
    RecordShape(a, b, SnapshotJson(a.snapshot), SnapshotJson(b.snapshot),
                RandomnessJson(a.randomness), RandomnessJson(b.randomness),
                WinnerJson(a.winnerSelection), WinnerJson(b.winnerSelection),
                PayoutJson(a.payout), PayoutJson(b.payout), MetadataJson(a.metadata), MetadataJson(b.metadata));
  }

  lemma {:induction false} WithoutNothing(ms: seq<Member>, key: string)
    requires forall i | 0 <= i < |ms| :: ms[i].key != key
    ensures Without(ms, key) == ms
  {
    if ms != [] {
      WithoutNothing(ms[1..], key);
    }
  }

  lemma BodyHasNoSignature(b: Body)
    ensures BodyText(b) == CanonicalText(JObject(BodyMembers(b)))
  {
    var ms := BodyMembers(b);
    assert |"signature"| == 9;
    WithoutNothing(ms, "signature");
  }

  /** The text that is hashed and signed determines the whole document. */
  lemma {:induction false} BodyTextBinds(a: Body, b: Body)
    ensures BodyText(a) == BodyText(b) <==> a == b
  {
    if BodyText(a) == BodyText(b) {
      BodyHasNoSignature(a);
      BodyHasNoSignature(b);
      BodyPlain(a);
      BodyPlain(b);
      CanonicalTextFaithful(JObject(BodyMembers(a)), JObject(BodyMembers(b)));
      OptionsAgree(a, b);
      BodyShape(a, b);
      ShapeDetermines(JObject(BodyMembers(a)), JObject(BodyMembers(b)));
      BodyBinds(a, b);
    }
  }

  lemma NestedParts(b: Body)
    ensures |BodyMembers(b)| == 9
    ensures BodyMembers(b)[4] == Member("snapshot", SnapshotJson(b.snapshot))
    ensures BodyMembers(b)[8] == Member("metadata", MetadataJson(b.metadata))
  {
  }

  /** Documents with the same meaning have the same optional fields. */
  lemma OptionsAgree(a: Body, b: Body)
    requires MeaningOfMembers(BodyMembers(a)) == MeaningOfMembers(BodyMembers(b))
    ensures a.snapshot.roundPrincipalSnapshot.Some? == b.snapshot.roundPrincipalSnapshot.Some?
    ensures a.metadata.auditSnapshotHash.Some? == b.metadata.auditSnapshotHash.Some?
  {
    BodyPlain(a);
    BodyPlain(b);
    NestedParts(a);
    NestedParts(b);
    SameRecord(BodyMembers(a), BodyMembers(b), 4);
    SameRecord(BodyMembers(a), BodyMembers(b), 8);
    SnapshotPlain(a.snapshot);
    SnapshotPlain(b.snapshot);
    MetadataPlain(a.metadata);
    MetadataPlain(b.metadata);
  }

  /** A hash function without collisions. */
  ghost predicate Injective(h: string -> string) {
    forall s, t | h(s) == h(t) :: s == t
  }

  /**
   * Two proofs that verify under the same secret and carry the same signature are the same document,
   * as long as the hash that signs their version has no collisions.
   */
  lemma {:induction false} VerifiedSignatureBinds(p: Primitives, a: DrawProof, b: DrawProof, secret: Option<string>)
    requires Integrity(p, a, secret).verified && Integrity(p, b, secret).verified
    requires a.signature == b.signature && a.body.version == b.body.version
    requires if a.body.version == "1.0.0" then Injective(p.sha256)
             else secret.Some? ==> Injective(s => p.hmac(secret.value, s))
    ensures a == b
  {
    Results.IntegrityExact(p, a, secret);
    Results.IntegrityExact(p, b, secret);
    if a.body.version != "1.0.0" {
      var h := s => p.hmac(secret.value, s);
      assert h(BodyText(a.body)) == h(BodyText(b.body));
    }
    BodyTextBinds(a.body, b.body);
  }

  // ----- The audit snapshot ---------------------------------------------------------------

  lemma AuditRandomnessPlain(r: Randomness)
    ensures Sound(AuditRandomness(r))
  {
    OutlinesDiffer();
    AuditRandomnessOutlines(r);
    PlainRecord(AuditRandomness(r).members, AUDIT_RANDOMNESS_OUTLINES);
  }

  lemma AuditRandomnessOutlines(r: Randomness)
    ensures HasOutlines(AuditRandomness(r).members, AUDIT_RANDOMNESS_OUTLINES)
    ensures SoundValues(AuditRandomness(r).members)
  {
    NumberSound("commitmentLedgerSeq", r.commitmentLedgerSeq);
    NumberSound("drawnAtLedger", r.drawnAtLedger);
  }

  lemma AuditWinnerPlain(w: WinnerSelection)
    ensures Sound(AuditWinner(w))
  {
    OutlinesDiffer();
    AuditWinnerOutlines(w);
    PlainRecord(AuditWinner(w).members, AUDIT_WINNER_OUTLINES);
  }

  lemma AuditWinnerOutlines(w: WinnerSelection)
    ensures HasOutlines(AuditWinner(w).members, AUDIT_WINNER_OUTLINES)
    ensures SoundValues(AuditWinner(w).members)
  {
  }

  lemma {:induction false} AuditMembersPlain(b: Body, randomness: Json, winner: Json, payout: Json)
    requires Sound(randomness) && Sound(winner) && Sound(payout)
    ensures Sound(JObject(AuditMembers(b, randomness, winner, payout)))
  {
    AuditOutlines(b, randomness, winner, payout);
    OutlinesDiffer();
    AuditValues(b, randomness, winner, payout);
    PlainRecord(AuditMembers(b, randomness, winner, payout), AUDIT_OUTLINES);
  }

  lemma AuditOutlines(b: Body, randomness: Json, winner: Json, payout: Json)
    ensures HasOutlines(AuditMembers(b, randomness, winner, payout), AUDIT_OUTLINES)
  {
  }

  lemma AuditValues(b: Body, randomness: Json, winner: Json, payout: Json)
    requires Sound(randomness) && Sound(winner) && Sound(payout)
    ensures SoundValues(AuditMembers(b, randomness, winner, payout))
  {
    NumberSound("roundId", b.roundId);
    NumberSound("ledgerSeq", b.snapshot.ledgerSeq);
    NumberSound("participantCount", b.snapshot.participantCount);
  }

  lemma {:induction false} AuditPlain(b: Body)
    ensures Sound(AuditSnapshot(b))
  {
    AuditRandomnessPlain(b.randomness);
    AuditWinnerPlain(b.winnerSelection);
    PayoutPlain(b.payout);
    AuditMembersPlain(b, AuditRandomness(b.randomness), AuditWinner(b.winnerSelection), PayoutJson(b.payout));
  }

  lemma AuditRandomnessShape(a: Randomness, b: Randomness)
    ensures SameShape(AuditRandomness(a), AuditRandomness(b))
  {
  }

  lemma AuditWinnerShape(a: WinnerSelection, b: WinnerSelection)
    ensures SameShape(AuditWinner(a), AuditWinner(b))
  {
  }

  /** The audit hash covers the whole replayable snapshot: any change to it changes the hashed text. */
  lemma AuditHashBinds(p: Primitives, a: Body, b: Body)
    requires Injective(p.sha256)
    requires AuditSnapshotHash(p, a) == AuditSnapshotHash(p, b)
    ensures AuditSnapshot(a) == AuditSnapshot(b) && a.payout == b.payout && a.roundId == b.roundId
    ensures a.winnerSelection.ticketWeightsHash == b.winnerSelection.ticketWeightsHash
    ensures a.snapshot.participantsHash == b.snapshot.participantsHash
    ensures a.randomness.revealTxHash == b.randomness.revealTxHash
  {
    AuditPlain(a);
    AuditPlain(b);
    CanonicalTextFaithful(AuditSnapshot(a), AuditSnapshot(b));
    AuditShape(a, b);
    ShapeDetermines(AuditSnapshot(a), AuditSnapshot(b));
    AuditFields(a, b);
  }

  lemma AuditMembersShape(a: Body, b: Body, r: Json, r': Json, w: Json, w': Json, p: Json, p': Json)
    requires SameShape(r, r') && SameShape(w, w') && SameShape(p, p')
    ensures SameShape(JObject(AuditMembers(a, r, w, p)), JObject(AuditMembers(b, r', w', p')))
  {
  }

  lemma {:induction false} AuditShape(a: Body, b: Body)
    ensures SameShape(AuditSnapshot(a), AuditSnapshot(b))
  {
    AuditRandomnessShape(a.randomness, b.randomness);
    AuditWinnerShape(a.winnerSelection, b.winnerSelection);
    PayoutShape(a.payout, b.payout);
    AuditMembersShape(a, b, AuditRandomness(a.randomness), AuditRandomness(b.randomness),
                      AuditWinner(a.winnerSelection), AuditWinner(b.winnerSelection),
                      PayoutJson(a.payout), PayoutJson(b.payout));
  }

  lemma AuditFields(a: Body, b: Body)
    requires AuditSnapshot(a) == AuditSnapshot(b)
    ensures a.payout == b.payout && a.roundId == b.roundId
    ensures a.winnerSelection.ticketWeightsHash == b.winnerSelection.ticketWeightsHash
    ensures a.snapshot.participantsHash == b.snapshot.participantsHash
    ensures a.randomness.revealTxHash == b.randomness.revealTxHash
  {
    var ms, ns := AuditSnapshot(a).members, AuditSnapshot(b).members;
    assert ms[0] == ns[0] && ms[3] == ns[3] && ms[7] == ns[7] && ms[8] == ns[8] && ms[10] == ns[10];
    IntTextInjective(a.roundId, b.roundId);
    PayoutBinds(a.payout, b.payout);
    AuditRandomnessFields(a.randomness, b.randomness);
  }

  lemma AuditRandomnessFields(a: Randomness, b: Randomness)
    requires AuditRandomness(a) == AuditRandomness(b)
    ensures a.revealTxHash == b.revealTxHash
  {
    assert AuditRandomness(a).members[4] == AuditRandomness(b).members[4];
  }
}

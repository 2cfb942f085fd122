# VaultQuest: a verified model of its draw proofs, leases, amounts, exports and bookkeeping

VaultQuest is a prize-savings application on Stellar. This project models the parts of it in which a mistake would be
hard to see, and proves what they promise. One module stands for one component:

- **Draw proofs.** `Json` (values, printer, reader), `Canonical` (`sortKeys`, `canonicalize`), `DrawProof` (assembling
  and checking a document), `DrawProofResults`, `DrawProofBinding`, `DrawEvidence`, `DrawOrder` (what follows), `DrawVerifier` (the
  browser's verdict).
- **Job leases.** `JobLease` (the lease row, its four statements, one tick), `LeaseProtocol` (any number of workers as
  a state machine over single statements), `LeaseSafety`, `LeaseExclusion`, `LeaseScenarios`,
  `Heartbeat`.
- **Exact amounts.** `DecimalText`, `SafeAmount`, `ProRata`, `BackendAmount`, `Formatting`
  (`parseAssetAmount`), `NumericText` (the strings that are numbers), `ParseOutcome` (what becomes of
  each), `AmountParsers` (against the exact parser).
- **Exports.** `Csv` (writer and RFC 4180 reader), `ArchiveExport`, `ActivityExport`, `Fnv1a`.
- **Bookkeeping.** `Savings` with its reference `Conformance`, `Notifications`, `Portfolio`.
- **Shared.** `Sequences`, `Sorting`, `TextOrder`, `Locale`, `Joins`.

Code that updates state is a method or a class (`JobLease.LeaseService`, `Savings.Participation`), proved against a
function of its inputs and its old state; the results are lemmas about those functions.

Inputs of the model rather than parts of it: SHA-256 (FIPS 180-4), HMAC (RFC 2104), `localeCompare`, `toLowerCase`,
`Date.parse`, the date-time syntax of the schema, the printed win rate, RPC and HTTP answers, what other workers do to
the lease row, and every clock reading. That a hash has no collisions, or that a comparison is a total order, is
assumed only where a lemma says so in its `requires`. JSON text is read in its compact form (RFC 8259, sections 4
and 7).

## What the code does not keep

Each of these is proved, with the exact condition where there is one.

- Fencing tokens restart at 1 after a release deletes the row (`LeaseSafety.TokensIncreaseExactly`,
  `LeaseScenarios.TokenRestarts`). So `isFencingTokenCurrent` does not mean that nobody has taken over: it passes for
  the holder and for exactly the ticks of an earlier life of the row with the same token, other workers' included
  (`LeaseSafety.FencingCheckExact`, `LeaseScenarios.StaleTokenPassesCheck`).
- A worker whose tick outlives its lease can acquire again while that tick still runs. It can then match, and release,
  the row of another of its ticks (`LeaseSafety.MatchExact`, `LeaseScenarios.ReleasesAnotherTick`). The results about
  workers that *acquire one tick at a time* assume that this does not happen; attempts that find the row taken, as when
  the schedule fires during a slow tick, are always allowed (`LeaseScenarios.SkippedAttempt`).
- Leases do not exclude each other even if workers acquire one tick at a time: a renewal that a tick sent before it
  released can be granted on the row of the worker's next tick and cut its lease short, so that another worker takes
  over inside it (`LeaseScenarios.LateRenewalCutsNextLease`, `LeaseScenarios.TwoLeasesAtOnce`). A renewal is granted
  exactly to the holder and to ended former selves of the holder (`LeaseExclusion.RenewedExactly`). Exclusion is at
  risk exactly from granted renewals that cut a row short of what its live holder was granted
  (`LeaseExclusion.ExclusionLostExactly`), and there are none when workers also wait for the answers to their renewals
  before they acquire again (`LeaseExclusion.MutualExclusion`).
- `renewJobLease` promises that an expired lease is never revived. It is, exactly when a matching tick sends a clock
  reading older than the expiry (`LeaseSafety.LapsedRenewedExactly`, `LeaseScenarios.StaleReadingRevives`).
- Whether a tick releases is decided when its body returns: a renewal refused after that goes unseen
  (`LeaseSafety.ReleasesExactlyUnrefused`, `LeaseScenarios.LateFailureStillReleases`).
- "Up to two missed heartbeats of slack" holds exactly for TTLs not divisible by 3. The TTLs in use, five minutes and
  one hour, are divisible by 3 (`Heartbeat.TwoMissesExact`, `Heartbeat.JobTtlsSurviveOneMissOnly`).
- `sortKeys` loses members called `__proto__` (`Canonical.CanonicalTextExact`, `Canonical.CanonicalTextLosesProto`).
- The winner proof hash is said never to reproduce for another round or contract. Evidence whose winner and hashes are
  free of colons is reproduced by some other evidence exactly if some colon of its contract id is followed by an
  integer segment, as in `C:1` (`DrawEvidence.EvidenceReproducedExactly`; for arbitrary fields,
  `DrawEvidence.ReproducedExactly`). That other evidence then has colons in its winner or hashes: without them on
  either side the hash determines every field (`DrawEvidence.ColonFreeEvidenceBinds`).
- The browser's verdict on a 1.1.0 document does not depend on its signature (`DrawVerifier.VerdictIgnoresSignature`).
- `proRataShare` documents a floor and truncates (`ProRata.ShareIsFloor`).
- `parseAssetAmount` is meant to return 0 for what it cannot read. On strings that are numbers to the host language
  it throws exactly for infinities, for white space behind a prefixed or plain integer, for an exponent not hidden
  behind all the decimals of the asset, and for white space that fills part of the missing decimals
  (`ParseOutcome.ThrowsExactly`). What it accepts it can misread: a hidden exponent is dropped, white space may stand
  in for missing zeros, and a prefixed number is scaled in its own radix (`AmountParsers.AcceptedReads`,
  `AmountParsers.PrefixedReads`).
- With distinct round ids the winners of an archive export are independent of the order of the rounds exactly when at
  most one round has winners (`ArchiveExport.WinnersForgetOrderExactly`), and its records exactly when rounds that tie
  in end date and id normalise alike (`ArchiveExport.RecordsForgetOrderExactly`).
- A changed alert can be dropped as a duplicate exactly when its title, message or date contains a bar
  (`Notifications.UpdateLostExactly`).
- `unlockMilestone` completes a slot and leaves its milestone as it was, for good: a milestone ends a run marked
  exactly if it started so or a deposit reached its target while the slot was open (`Savings.MarkedExactly`,
  `Savings.UnlockedMilestoneStaysUnmarked`).

## Model

| member | source | states |
|---|---|---|
| Json.ReadStringified | lib/draw-proof.ts:164-168 | a reader of JSON text gives back every value that was printed, in front of any text a number cannot run into |
| Json.StringifyInjective | lib/draw-proof.ts:164-168 | different values print different texts |
| Canonical.SortKeysLoop | lib/draw-proof.ts:154-162 | the recursive key-sorting loop, which assigns keys one by one to a new object, builds the sorted value: array items in place, keys in enumeration order |
| Canonical.FillSorted | lib/draw-proof.ts:157-161 | the loop over the sorted key list fills an object that is the sorted object, array-index keys and `__proto__` included |
| Canonical.SortKeysMeaning | lib/draw-proof.ts:154-162 | sorting keys changes nothing but order, except that `__proto__` members are lost |
| Canonical.NormalUnique | lib/draw-proof.ts:154-162 | two values with ordered keys and the same meaning are the same value |
| Canonical.SortKeysIdempotent | lib/draw-proof.ts:154-162 | sorting a sorted value changes nothing |
| Canonical.CanonicalTextExact | lib/draw-proof.ts:154-168 | two values have the same canonical text if and only if they are equal up to key order at every depth once `__proto__` members are left out |
| Canonical.CanonicalTextFaithful | lib/draw-proof.ts:154-168 | without `__proto__` members: same canonical text if and only if equal up to key order at every depth |
| Canonical.CanonicalTextLosesProto | lib/draw-proof.ts:157-161 | two different values, one with a `__proto__` member, with the same canonical text |
| Canonical.CanonicalizeExact | lib/draw-proof.ts:164-168 | canonicalize agrees on two documents if and only if all members other than the signature agree up to key order |
| DrawProof.VerifyProofIntegrity | lib/draw-proof.ts:316-416 | the check, pushing one field at a time, gives the specified report: schema gate, then the five checks in order, verified when all pass |
| DrawProof.AssembleDrawProof | lib/draw-proof.ts:454-549 | assembling writes the audit hash into the draft and then signs, or fails on an unreadable deposit or a multiplier that is not whole |
| DrawProofResults.IntegrityExact | lib/draw-proof.ts:326-416 | verified if and only if the schema holds, the signature is the hash or HMAC of its version, the hash chain and commitment hold and the audit hash reproduces |
| DrawProofResults.AssembledVerifies | lib/draw-proof.ts:454-549 | for every input and any two secrets, the assembled proof verifies if and only if the input satisfies the schema, the commitment is the seed's hash made no later than the draw, and both secrets sign alike |
| DrawProofResults.ProducerCheckerRoundTrip | lib/draw-proof.ts:316-416 | with its own secret a well-formed assembled proof verifies exactly when the commitment equals the seed's hash and was made at or before the draw |
| DrawProofResults.AssembledSchema | lib/draw-proof.ts:496-541 | the assembled document passes the schema exactly when the caller's values do |
| DrawProofResults.AuditIgnoresMetadata | lib/draw-proof.ts:233-264 | the audit hash does not depend on the metadata it is later stored in |
| DrawProofResults.NeverVerifiedWithoutSecret | lib/draw-proof.ts:334-351 | without a secret no 1.1.0 proof is marked verified |
| DrawProofBinding.BodyTextBinds | lib/draw-proof.ts:164-168 | two documents have the same hashed and signed text if and only if they agree in every field, optional ones included |
| DrawProofBinding.VerifiedSignatureBinds | lib/draw-proof.ts:332-351 | two verified proofs with the same signature and version are the same document, if the signing hash has no collisions |
| DrawProofBinding.AuditHashBinds | lib/draw-proof.ts:233-264 | equal audit hashes mean equal replay snapshots, payout, hashes and reveal, if SHA-256 has no collisions |
| DrawEvidence.WinnerProofBinds | lib/draw-proof.ts:268-284 | when neither contract id has a colon, the hash determines contract and round, whatever winner and seed hash are, and the rest as far as that is free of colons |
| DrawEvidence.ReproducedExactly | lib/draw-proof.ts:268-284 | for arbitrary fields: another contract or round has the same text if and only if the text has a second place for the round, an integer between colons with three more parts behind it |
| DrawEvidence.EvidenceReproducedExactly | lib/draw-proof.ts:268-284 | for evidence whose winner and hashes have no colons: some evidence of another contract or round, colons allowed, reproduces the hash if and only if a colon of the contract id is followed by an integer segment |
| DrawEvidence.ColonFreeEvidenceBinds | lib/draw-proof.ts:268-284 | winners and hashes without colons on both sides: equal hashes if and only if all five fields are equal, whatever the contract ids are |
| DrawEvidence.WinnerProofAmbiguous | lib/draw-proof.ts:275-284 | the smallest example of that |
| DrawOrder.ParticipantsHashForgetsOrder | lib/draw-proof.ts:205-213 | permuting participants with distinct addresses does not change participantsHash |
| DrawOrder.ParticipantsHashForgetsExactly | lib/draw-proof.ts:205-213 | if SHA-256 has no collisions: the hash is the same in every order if and only if participants that share an address print the same row |
| DrawOrder.TicketWeightsHashForgetsOrder | lib/draw-proof.ts:220-226 | nor ticketWeightsHash |
| DrawOrder.TicketWeightsHashForgetsExactly | lib/draw-proof.ts:220-226 | if SHA-256 has no collisions: the tickets' hash is the same in every order of the participants if and only if participants that share an address weigh the same |
| DrawOrder.TotalsForgetOrder | lib/draw-proof.ts:462-475 | total deposits and total weight are the same in any order, repeated addresses included |
| DrawOrder.AssembleForgetsOrder | lib/draw-proof.ts:454-549 | permuting participants changes nothing in the assembled proof, signature included |
| DrawOrder.AssembleForgetsExactly | lib/draw-proof.ts:454-549 | if SHA-256 has no collisions: no permutation changes what is assembled, signature and errors included, if and only if no two different participants share an address or some deposit or multiplier cannot be read |
| DrawOrder.TotalWeightIsExact | lib/draw-proof.ts:466-475 | printed weights read back as deposit times multiplier |
| DrawOrder.WinnerWeightBounded | lib/draw-proof.ts:473-478 | with non-negative weights 0 <= winnerWeight <= totalWeight, the exact weighted sum; 0 for a non-participant |
| DrawVerifier.VerifyDrawProofClient | lib/draw-proof-verifier.ts:190-232 | the verdict as computed is the specified one, fields in order |
| DrawVerifier.VerdictExact | lib/draw-proof-verifier.ts:190-232 | verified if and only if RPC confirmed a successful reveal at or after the commitment ledger, the schema holds, the seed hashes to seedHash and commitment, and nothing contradicts the document |
| DrawVerifier.RevealField | lib/draw-proof-verifier.ts:50-75 | the reveal counts as passed exactly when an RPC client is there and its reveal check passes |
| DrawVerifier.FourFieldsPass | lib/draw-proof-verifier.ts:220-223 | verified if and only if no field fails and the reveal passed, and then at least four fields pass: the threshold of three adds nothing |
| DrawVerifier.VerdictIgnoresSignature | lib/draw-proof-verifier.ts:202-223 | on 1.1.0 documents the verdict is the same whatever the signature |
| DrawVerifier.ReconcileRewardEntry | lib/draw-proof-verifier.ts:270-320 | exactly when an entry is verified, tampered, missing or pending, and exactly when its claim is claimed, failed or unclaimed; an entry with a 1.1.0 document is never verified |
| JobLease.LeaseService.AcquireJobLease | backend/src/services/leaseService.ts:42-77 | acquires exactly when there is no row (token 1) or an expired one (token + 1), otherwise leaves the row alone |
| JobLease.LeaseService.RenewJobLease | backend/src/services/leaseService.ts:98-111 | renews exactly with matching worker and token and an expiry after now, and keeps both |
| JobLease.LeaseService.ReleaseJobLease | backend/src/services/leaseService.ts:119-121 | deletes the row of that worker, whatever its token |
| JobLease.WithJobLease | backend/src/cron.ts:47-106 | for any interference between heartbeats: released exactly when the body returned and every heartbeat renewed; a tick that threw, lost its lease or never acquired leaves the row as it finds it |
| LeaseProtocol.StepKeepsInv | backend/src/services/leaseService.ts:42-121 | every statement and event, in any interleaving, keeps: tokens count up within one life of the row, and the row belongs to the tick that acquired last |
| LeaseProtocol.ReachableInv | backend/src/services/leaseService.ts:42-121 | the invariant holds after every run |
| LeaseSafety.TokensIncreaseExactly | backend/src/services/leaseService.ts:46-75 | over every run tokens of successive holders strictly increase if and only if no acquisition follows a release |
| LeaseSafety.GrantsGrow | backend/src/services/leaseService.ts:60-68 | the pair of row life and token strictly increases from each holder to every later one |
| LeaseSafety.MatchExact | backend/src/services/leaseService.ts:106-109 | a tick matches the stored row if and only if it is the holder, or an earlier-life tick of the same worker with the same token |
| LeaseSafety.HolderAloneBeforeRelease | backend/src/services/leaseService.ts:106-109 | before the first release only the holder matches, whatever ticks workers run at once |
| LeaseSafety.FencingCheckExact | backend/src/services/leaseService.ts:123-133 | the check passes for a tick that acquired if and only if it is the holder, or acquired in an earlier life of the row with the same token |
| LeaseSafety.FencingCheckBeforeRelease | backend/src/services/leaseService.ts:123-133 | over every run up to the first deletion the check means what it promises: nobody has taken over since |
| LeaseSafety.LapsedRenewedExactly | backend/src/services/leaseService.ts:84-109 | over every run in which nobody acquires, a lapsed lease is renewed if and only if a matching tick sends a clock reading older than the expiry; otherwise the row stays until deleted |
| LeaseSafety.LostExactly | backend/src/cron.ts:60-77 | over every run the lost flag is set exactly by a refused or failed renewal of that tick |
| LeaseSafety.ReleasesExactlyUnrefused | backend/src/cron.ts:87-99 | for every run and tick: from the return of its body on, the release can run if and only if no renewal of the tick was refused before that return |
| LeaseSafety.HeartbeatAgrees | backend/src/cron.ts:62-82 | one heartbeat of the tick as written and of the protocol leave the same row and the same lost flag |
| LeaseSafety.BarredNeverReleases | backend/src/cron.ts:87-105 | over every run the lost flag stays set, and a tick that threw, crashed or lost its lease while running never deletes the row |
| LeaseSafety.HolderAlone | backend/src/cron.ts:47-106 | if workers acquire one tick at a time, an unfinished tick matches the row if and only if it is the holder, and a release deletes only the releasing tick's own row |
| LeaseExclusion.RenewedExactly | backend/src/cron.ts:62-83 | in every state reached by workers that acquire one tick at a time: a renewal under way is granted if and only if the row is unexpired at its reading and its tick is the holder, or an ended tick of an earlier life of the row with the holder's worker and token |
| LeaseExclusion.OnlyHolderRenews | backend/src/cron.ts:78-89 | if a worker acquires only after the ticks with which it acquired before have ended and their renewals are answered, only the holder's renewals are granted, ended ticks included |
| LeaseExclusion.ExclusiveUnlessShortened | backend/src/cron.ts:26-33 | if workers acquire one tick at a time, and as long as no granted renewal cuts a row short of what its live holder was granted, at most one unfinished tick has its last granted expiry still to come |
| LeaseExclusion.ExclusionLostExactly | backend/src/cron.ts:26-33 | at every state that satisfies the invariants and for every step: exclusion holds in all continuations without further shortening if and only if the step is not a granted renewal that cuts the row short of what its live holder was granted |
| LeaseExclusion.MutualExclusion | backend/src/cron.ts:26-33 | if a worker acquires only after the ticks with which it acquired before have ended and their renewals are answered, in every state reached at most one unfinished tick has its last granted expiry still to come |
| LeaseExclusion.InTimeKeepsLease | backend/src/cron.ts:35-38 | whatever any worker does, the holder's own included: while the holder runs and its renewals are read less than one TTL apart, nobody else acquires, no renewal that reaches the database is refused, and the row runs one TTL from the last reading |
| LeaseScenarios.TokenRestarts | backend/src/services/leaseService.ts:119-121 | a run in which two successive holders both have token 1 |
| LeaseScenarios.TwoRunningTicksMatch | backend/src/cron.ts:14-17 | a run in which two running ticks of one worker both match the row |
| LeaseScenarios.SkippedAttempt | backend/src/cron.ts:26-31 | the ordinary run: the schedule fires during a worker's own tick, the attempt is skipped, and the tick's heartbeat renews |
| LeaseScenarios.StaleTokenPassesCheck | backend/src/services/leaseService.ts:123-133 | a run of three workers with one tick each, in which the check passes for a running tick that was replaced twice |
| LeaseScenarios.LateRenewalCutsNextLease | backend/src/cron.ts:87-99 | a run of workers that acquire one tick at a time, in which the renewal of a released tick cuts the lease of the worker's next tick short |
| LeaseScenarios.TwoLeasesAtOnce | backend/src/cron.ts:87-99 | its continuation: two running ticks inside their granted leases, both with the lost flag clear |
| LeaseScenarios.ReleasesAnotherTick | backend/src/cron.ts:99 | a run in which a release deletes the unexpired row of another running tick |
| LeaseScenarios.LateFailureStillReleases | backend/src/cron.ts:87-99 | a run in which a renewal fails after the body returned and the tick releases |
| LeaseScenarios.StaleReadingRevives | backend/src/services/leaseService.ts:104-110 | a run in which a lapsed lease is renewed |
| Heartbeat.SlackExact | backend/src/cron.ts:60-83 | runs with at most m missed heartbeats in a row keep the lease if and only if m + 1 intervals are shorter than the TTL |
| Heartbeat.TwoMissesExact | backend/src/cron.ts:19-24 | from three seconds on, two misses are survived if and only if 3 does not divide the TTL; one always is |
| Heartbeat.JobTtlsSurviveOneMissOnly | backend/src/cron.ts:120 | with the TTLs of the jobs the heartbeat after two misses comes too late |
| Heartbeat.NeverPastExpiryWithTwoMisses | backend/src/cron.ts:60-83 | while at most two renewals in a row fail, missed or refused, the clock at a heartbeat is never past the expiry |
| SafeAmount.FromHumanExact | lib/safe-amount.ts:41-59 | on decimal text: rejected exactly when there are more than d fraction digits, otherwise exact scaling by 10^d |
| SafeAmount.FromHumanAcceptsOnly | lib/safe-amount.ts:41-54 | whatever is accepted is decimal text with at most d fraction digits |
| SafeAmount.ToDisplayParts | lib/safe-amount.ts:67-77 | the printed text is sign, integer digits and exactly d fraction digits of the value |
| SafeAmount.DisplayRoundTrip | lib/safe-amount.ts:41-77 | fromHuman(toDisplay(v, d), d) = v for every integer v and every d |
| ProRata.ShareBounds | lib/safe-amount.ts:150-158 | the share is the largest amount whose multiple by the whole fits |
| ProRata.SharesNeverOverDistribute | lib/safe-amount.ts:142-158 | shares add up to at most the total; when the parts make up the whole the dust is less than the number of parts |
| ProRata.ShareMonotone | lib/safe-amount.ts:150-158 | a larger part never gets a smaller share |
| ProRata.ShareIsFloor | lib/safe-amount.ts:146-158 | the share is the documented floor if and only if the product is non-negative or leaves no remainder |
| BackendAmount.FromPayloadExact | backend/src/amount.ts:45-102 | a payload is accepted as v if and only if its trimmed text writes the non-negative integer v and the pool has an asset |
| BackendAmount.PrintersAgree | backend/src/amount.ts:140-161 | toDisplayString prints the same text as ExactAmount.toDisplay |
| BackendAmount.SumExact | backend/src/amount.ts:178-187 | a sum exists if and only if all amounts are of the asset, and is the sum of their minor units |
| BackendAmount.SumForgetsOrder | backend/src/amount.ts:178-187 | whether a sum exists and its value do not depend on order |
| NumericText.NumericExactly | lib/formatting.ts:107 | the strings that pass the NaN guard are exactly the literals (blank, infinite, prefixed, decimal with optional point and exponent) between white space |
| ParseOutcome.ParsesExactly | lib/formatting.ts:105-111 | what the parser returns for every such string at every number of decimals, form by form, errors included |
| ParseOutcome.ThrowsExactly | lib/formatting.ts:105-111 | for every string and asset: it throws if and only if the string is one of the throwing literals; what is no number reads as 0 |
| AmountParsers.AcceptedReads | lib/formatting.ts:107-110 | an accepted decimal is read as its digits truncated, any exponent ignored, if and only if no white space took the place of missing decimals of a non-zero number |
| AmountParsers.PrefixedReads | lib/formatting.ts:107-110 | an accepted prefixed number is read as its value scaled by 10^d if and only if it is 0 or d is 0 |
| AmountParsers.ExponentThrows | lib/formatting.ts:107-110 | every whole number in exponent notation throws, for every asset |
| AmountParsers.TrailingSpaceThrows | lib/formatting.ts:107-110 | every whole number with a space behind it throws, for every asset |
| AmountParsers.DecimalIsNumeric | lib/formatting.ts:107 | all text of the exact parser's syntax passes the NaN guard |
| AmountParsers.ParsersAgree | lib/formatting.ts:105-111 | parseAssetAmount returns what fromHuman returns, on every string fromHuman accepts at the asset's decimals |
| AmountParsers.LongFractionsTruncate | lib/formatting.ts:105-111 | longer fractions are truncated toward zero, with an error below one minor unit |
| Csv.ReadCell | lib/archive-export.ts:197-200 | a written cell reads back, whatever quotes, commas and line breaks it holds |
| Csv.ReadLine | lib/archive-export.ts:203-207 | a written record and its line break read back as the record and the rest of the file |
| Csv.ReadLines | lib/archive-export.ts:203-207 | a written file reads back as exactly its records, with LF or CRLF |
| Fnv1a.ComputeHash | lib/archive-export.ts:112-119 | the loop over UTF-16 code units computes FNV-1a modulo 2^32 |
| Fnv1a.HexHashForm | lib/archive-export.ts:118 | the archive hash is always eight lower-case hexadecimal digits |
| ArchiveExport.CreateArchiveExport | lib/archive-export.ts:154-194 | what every field of the document is, defaults included |
| ArchiveExport.CollectWinners | lib/archive-export.ts:165-178 | the nested loops list all winners in input order, numbered across rounds |
| ArchiveExport.RecordsInCanonicalOrder | lib/archive-export.ts:161-163 | the records are a permutation of the normalised rounds, end date descending and id ascending |
| ArchiveExport.RecordsForgetOrderExactly | lib/archive-export.ts:161-163 | the records do not depend on input order if and only if rounds that tie in end date and id normalise to equal records |
| ArchiveExport.ExportForgetsOrder | lib/archive-export.ts:161-181 | with distinct (endDate, id) pairs records and proof hash do not depend on input order |
| ArchiveExport.WinnersForgetOrderExactly | lib/archive-export.ts:165-178 | with distinct round ids, redacted or not: every permutation of the rounds gives the same winners if and only if at most one round has winners |
| ArchiveExport.RedactedWinners | lib/archive-export.ts:173-175 | a redacted export holds no wallet address |
| ArchiveExport.CsvRoundTrip | lib/archive-export.ts:203-207 | reading the CSV back gives the header and every record's field strings |
| ArchiveExport.SummaryAdditive | lib/archive-export.ts:233-247 | the totals of a concatenation are the sums of the totals |
| ArchiveExport.FilterPartitionsTotals | lib/archive-export.ts:222-247 | the totals of what a filter keeps and drops add up to the totals of everything |
| ActivityExport.Export | components/app/VaultActivityExport.jsx:107-163 | for every finite cursor chain the page loop ends with the export of all rows at once and counts rows and pages, or with the error, its message included, or the cancellation it met |
| ActivityExport.AppendPage | components/app/VaultActivityExport.jsx:133-141 | appending a page's rows one by one extends the batch export by exactly that page |
| ActivityExport.HandleExport | components/app/VaultActivityExport.jsx:89-163 | without a wallet or a fetch implementation nothing is fetched; otherwise the export under the activity header |
| ActivityExport.BatchSnoc | components/app/VaultActivityExport.jsx:133-141 | one appended row is one more row of the batch, in both formats |
| ActivityExport.PagingIsInvisible | components/app/VaultActivityExport.jsx:116-147 | content and row count are the same however the history is split into pages; two histories export the same CSV if and only if their rows map to the same fields in the same order |
| ActivityExport.ExportReadsBack | components/app/VaultActivityExport.jsx:39-60 | the exported CSV reads back as the header and the mapped fields of every row, in order |
| Savings.Participation.TrackDeposit | services/savingsService.ts:123-150 | the whole new state of the participation and the milestones, which is one step of the quest, or an error and no change |
| Savings.Participation.CreditReward | services/savingsService.ts:157-162 | positive credits accrue, others are rejected without change |
| Savings.Participation.ClaimReward | services/savingsService.ts:164-175 | pays what is unclaimed, 0 if nothing is, an error after the deadline |
| Savings.Participation.UnlockMilestone | services/savingsService.ts:181-186 | completes the first open slot, or reports that there is none |
| Savings.ClaimsConserved | services/savingsService.ts:157-175 | over any run: total paid equals the growth of claimedReward, which never shrinks, credits add up, and claims backed at the start stay backed |
| Savings.EverythingPaidOnce | services/savingsService.ts:157-175 | a run that ends with a claim in time has paid exactly the unclaimed start plus all credits |
| Savings.RepeatedClaimChangesNothing | services/savingsService.ts:152-175 | repeating an accepted claim, anywhere in any run, changes neither the final state nor the total paid |
| Savings.RunMatchesReference | lib/conformance-spec.ts:75-82 | over any run the service and the canonical evaluator stay in the same state and pay the same, and quote, claim and evaluator agree in every state reached at every instant |
| Savings.MilestonesOverRuns | services/savingsService.ts:123-150 | over any run: balance is start plus accepted deposits, completed slots keep their time, and after a deposit every reached slot is complete and stays so |
| Savings.FillFirstOpen | services/savingsService.ts:182-185 | an unlock closes exactly one open slot, and is refused exactly when none is open |
| Savings.UnlocksCountOpenSlots | services/savingsService.ts:181-186 | of any unlocks in a row, at whatever instants, exactly as many succeed as there are open slots |
| Savings.SlotsAccounted | services/savingsService.ts:123-186 | over any run: the slots open at the start are those open at the end plus one for each successful unlock and each slot a deposit completed |
| Savings.NextUnlockExactly | services/savingsService.ts:181-186 | after any run an unlock succeeds if and only if unlocks and deposits have left a slot open |
| Savings.QuestRunIsRun | services/savingsService.ts:137-144 | milestones that change along a run give the same accounts as their targets held fixed, and no target changes |
| Savings.MarkedExactly | services/savingsService.ts:137-144 | over any run a milestone ends marked if and only if it started marked or an accepted deposit reached its target while its slot was open |
| Savings.UnlockedMilestoneStaysUnmarked | services/savingsService.ts:140-185 | over any run that starts with the unlock of a slot, whatever is deposited later, its milestone ends as it started |
| Notifications.IdentityKeyExact | lib/notification-dedup.ts:62-69 | two alerts share a key if and only if type, scope and subject agree |
| Notifications.SignatureFaithful | lib/notification-dedup.ts:71-74 | without bars in title and message, equal signatures mean equal content |
| Notifications.SignatureExact | lib/notification-dedup.ts:71-74 | a content is told apart from every other content if and only if title, message and date are free of bars |
| Notifications.UpdateLostExactly | lib/notification-dedup.ts:126-139 | some valid list drops the alert as a duplicate of different content if and only if one of its three fields contains a bar |
| Notifications.DuplicateExactly | lib/notification-dedup.ts:126-139 | in any list, an alert without bars is a duplicate if and only if the listed content is the same |
| Notifications.StepKeepsInv | lib/notification-dedup.ts:126-200 | every operation keeps identity keys unique and each id the hash of its key |
| Notifications.RunKeepsInv | lib/notification-dedup.ts:90-200 | any sequence of operations keeps it |
| Notifications.UpsertIdempotent | lib/notification-dedup.ts:126-153 | upserting an alert twice is upserting it once |
| Notifications.AlertUnreadCount | lib/notification-dedup.ts:126-153 | exactly how an alert changes the unread count; updating a dismissed alert never does |
| Notifications.StepOnOne | lib/notification-dedup.ts:141-148 | a surviving alert stays dismissed and its version grows by one exactly when it is updated |
| Notifications.RunOnOne | lib/notification-dedup.ts:115-183 | over any run an unpruned alert stays dismissed, and its version has grown by exactly the number of updates |
| Notifications.PruneSelects | lib/notification-dedup.ts:186-192 | pruning keeps exactly the unexpired alerts |
| Notifications.SortForgetsOrder | lib/notification-dedup.ts:194-200 | with readable dates the displayed order is newest first, then by key, and does not depend on the list's order |
| Portfolio.SummarizeAccountPositions | lib/demo-portfolio.js:39-73 | one position per pool in first-seen order with its own balance and pending count; the totals are the folds over all pooled transactions |
| Portfolio.PoolsListed | lib/demo-portfolio.js:42-50 | a pool is listed, once, if and only if some transaction belongs to it |
| Portfolio.TotalsAgree | lib/demo-portfolio.js:67-72 | the positions add up to the folds over all pooled transactions |
| Portfolio.BalanceForgetsOrder | lib/demo-portfolio.js:52-56 | a pool's balance does not depend on transaction order |

## Left out

- Detail texts and timestamps of verification reports.
- Document keys beyond the schema, and the safe-integer limit of the schema's numbers.
- NaN, -0 and numbers from 10^21 on, which print in exponent form, in JSON; lone surrogates and escaped surrogate pairs in strings; white space between JSON tokens.
- Floating-point amounts in the savings service, the archive and the portfolio: they are integers here, so neither rounding nor the finiteness test of `validateDepositAmount` is modelled.
- JobLease.WithJobLease: is about one tick whose heartbeats run one after another and have all been answered before the body returns; `LeaseProtocol` has overlapping and late renewals.
- LeaseProtocol.StepKeepsInv: has no step of its own for a statement that takes effect while its answer is lost. Such a renewal stands as one that lands and one that fails, such an insert as `Start` and `Crash`, such a delete as `DeleteRow`.
- LeaseSafety.HolderAlone: needs that workers acquire one tick at a time, and is about unfinished ticks; `LeaseScenarios.ReleasesAnotherTick` and `LeaseScenarios.LateRenewalCutsNextLease` show why.
- LeaseExclusion.MutualExclusion: needs that workers wait for their renewals; `LeaseScenarios.TwoLeasesAtOnce` shows why.
- LeaseSafety.TokensIncreaseExactly: promises strictly increasing tokens only up to the first acquisition after a release, because a release deletes the counter.
- Heartbeat.TwoMissesExact: is about ideal timing; delays of timer and database are not modelled.
- Clocks of different workers that disagree.
- Notifications.SortForgetsOrder: needs readable dates, because the comparator is not an order otherwise and the language leaves the result open.
- ArchiveExport.ExportForgetsOrder: the hash is treated one way only, because different records can have the same 32-bit hash.
- DrawEvidence.WinnerProofBinds: needs contract ids without colons; `DrawEvidence.EvidenceReproducedExactly` says exactly when one with colons fails.
- Notifications.SignatureFaithful: needs texts without bars; `Notifications.UpdateLostExactly` says exactly when bars matter.
- Savings.Participation.TrackDeposit: takes integer amounts, so neither rounding nor the finiteness test of the amount is modelled; one clock reading stands for the several of one deposit.
- Savings.MarkedExactly: is about one participation; several participations of a quest mark the same milestones.
- Savings.MilestonesOverRuns: takes the slots of a participation as distinct objects, as the service creates them.
- Arithmetic of `ExactAmount` beyond pro-rata shares, `Amount.subtract` and `Amount.compare`: one-line wrappers of integer operations.
- `formatAssetAmount` and the other formatters, `archiveToJSON`, upper-casing of asset symbols, the file download.
- Row values of the activity export that are neither text nor absent; an export whose cursors never end.
- SHA-256 and HMAC internals, and collisions of the 32-bit FNV-1a hash.
- React rendering, RPC and HTTP clients, Prisma, cron scheduling, settlement, the indexer and backups.
- Action transition tables, quests, locale and manifest checks: table look-ups and single-branch validations.

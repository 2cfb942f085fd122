/**
 * The savings service: one participation in one quest, updated in place by deposits, credits, claims
 * and milestone unlocks. Amounts are integers and clock readings are inputs.
 */
module Savings {

  import opened Sequences
  import opened Conformance

  /** A milestone of the quest; progress slots belong to the participation and hold a completion time. */
  datatype Milestone = Milestone(targetAmount: int, isCompleted: bool)

  /** The fields of a participation that the service reads or writes. */
  datatype Account = Account(
    balance: int, streakDays: int, lastDepositAt: Option<int>, yieldAccrued: int, prize: int, claimedReward: int,
    claimDeadline: Option<int>, slots: seq<Option<int>>, eligible: bool, updatedAt: Option<int>)

  // ----- What each operation does to the account ---------------------------------------------

  /** The slots after a deposit: open ones whose target the balance has reached are completed now. */
  function CompleteSlots(milestones: seq<Milestone>, slots: seq<Option<int>>, balance: int,
      now: int): (r: seq<Option<int>>)
    ensures |r| == |slots|
    ensures forall i | 0 <= i < |slots| ::
              r[i] == if i < |milestones| && balance >= milestones[i].targetAmount && slots[i].None?
                      then Some(now) else slots[i]
  {
    seq(|slots|, i requires 0 <= i < |slots| =>
      if i < |milestones| && balance >= milestones[i].targetAmount && slots[i].None? then Some(now) else slots[i])
  }

  /** The milestones after a deposit: those whose slot it completed are marked. */
  function MarkMilestones(milestones: seq<Milestone>, slots: seq<Option<int>>, balance: int): (r: seq<Milestone>)
    ensures |r| == |milestones|
    ensures forall i | 0 <= i < |milestones| ::
              r[i] == if i < |slots| && balance >= milestones[i].targetAmount && slots[i].None?
                      then milestones[i].(isCompleted := true) else milestones[i]
  {
    seq(|milestones|, i requires 0 <= i < |milestones| =>
      if i < |slots| && balance >= milestones[i].targetAmount && slots[i].None?
      then milestones[i].(isCompleted := true) else milestones[i])
  }

  function AfterDeposit(a: Account, milestones: seq<Milestone>, amount: int, now: int): Account {
    if ValidateDepositAmount(amount).Some? then a
    else
      a.(balance := a.balance + amount, streakDays := a.streakDays + 1, lastDepositAt := Some(now),
         slots := CompleteSlots(milestones, a.slots, a.balance + amount, now),
         eligible := a.balance + amount > 0, updatedAt := Some(now))
  }

  function AfterCredit(a: Account, amount: int): Account {
    if ValidateDepositAmount(amount).Some? then a else a.(yieldAccrued := a.yieldAccrued + amount)
  }

  /** What a claim pays; `Err` when the deadline has passed. */
  function ClaimPays(a: Account, now: int): Result<int, BehaviorError> {
    var err := ValidateClaimDeadline(a.claimDeadline, now);
    if err.Some? then Err(err.value)
    else
      var available := ClaimableTotal(a.yieldAccrued, a.prize, a.claimedReward);
      Ok(if available <= 0 then 0 else available)
  }

  function AfterClaim(a: Account, now: int): Account {
    match ClaimPays(a, now)
    case Ok(paid) => a.(claimedReward := a.claimedReward + paid)
    case Err(_) => a
  }

  /** `claimable(participation, now)`. */
  function Claimable(a: Account, now: int): Result<int, BehaviorError> {
    var err := ValidateClaimDeadline(a.claimDeadline, now);
    if err.Some? then Err(err.value)
    else
      var available := ClaimableTotal(a.yieldAccrued, a.prize, a.claimedReward);
      Ok(if available > 0 then available else 0)
  }

  /** The first slot that is not completed, or the number of slots. */
  function FirstOpen(slots: seq<Option<int>>): (i: nat)
    ensures i <= |slots|
    ensures i < |slots| ==> slots[i].None?
    ensures forall k | 0 <= k < i :: slots[k].Some?
  {
    if slots == [] || slots[0].None? then 0 else 1 + FirstOpen(slots[1..])
  }

  function AfterUnlock(a: Account, now: int): Account {
    var i := FirstOpen(a.slots);
    if i < |a.slots| then a.(slots := a.slots[i := Some(now)]) else a
  }

  // ----- The service ---------------------------------------------------------------------------

  /** A quest and one user's participation in it, as the mutable objects the service works on. */
  class Participation {
    var milestones: seq<Milestone>
    var currentBalance: int
    var streakDays: int
    var lastDepositAt: Option<int>
    var yieldAccrued: int
    var prize: int
    var claimedReward: int
    const claimDeadline: Option<int>
    var milestoneProgress: seq<Option<int>>
    var isEligibleForReward: bool
    var updatedAt: Option<int>

    constructor (milestones: seq<Milestone>, start: Account)
      ensures this.milestones == milestones && State() == start
    {
      this.milestones := milestones;
      currentBalance, streakDays, lastDepositAt := start.balance, start.streakDays, start.lastDepositAt;
      yieldAccrued, prize, claimedReward := start.yieldAccrued, start.prize, start.claimedReward;
      claimDeadline, milestoneProgress := start.claimDeadline, start.slots;
      isEligibleForReward, updatedAt := start.eligible, start.updatedAt;
    }

    ghost function State(): Account
      reads this
    {
      Account(currentBalance, streakDays, lastDepositAt, yieldAccrued, prize, claimedReward, claimDeadline,
              milestoneProgress, isEligibleForReward, updatedAt)
    }

    /** `trackDeposit(quest, participation, amount)`. */
    method TrackDeposit(amount: int, now: int) returns (error: Option<BehaviorError>)
      modifies this
      ensures error == ValidateDepositAmount(amount)
      ensures State() == AfterDeposit(old(State()), old(milestones), amount, now)
      ensures milestones == if error.Some? then old(milestones)
                            else MarkMilestones(old(milestones), old(milestoneProgress), old(currentBalance) + amount)
      ensures Quest(milestones, State()) == QuestStep(Quest(old(milestones), old(State())), Deposit(amount, now))
    {
      error := ValidateDepositAmount(amount);
      if error.Some? {
        return;
      }
      ghost var slots, marks := milestoneProgress, milestones;
      currentBalance := currentBalance + amount;
      streakDays := streakDays + 1;
      lastDepositAt := Some(now);
      ghost var completed := CompleteSlots(marks, slots, currentBalance, now);
      ghost var marked := MarkMilestones(marks, slots, currentBalance);
      for index := 0 to |milestones|
        modifies `milestoneProgress, `milestones
        invariant |milestones| == |marks| && |milestoneProgress| == |slots|
        invariant forall k | 0 <= k < |slots| :: milestoneProgress[k] == if k < index then completed[k] else slots[k]
        invariant forall k | 0 <= k < |marks| :: milestones[k] == if k < index then marked[k] else marks[k]
      {
        if index < |milestoneProgress| {
          if currentBalance >= milestones[index].targetAmount && milestoneProgress[index] == None {
            milestoneProgress := milestoneProgress[index := Some(now)];
            milestones := milestones[index := milestones[index].(isCompleted := true)];
          }
        }
      }
      assert milestoneProgress == completed;
      assert milestones == marked;
      isEligibleForReward := currentBalance > 0;
      updatedAt := Some(now);
    }

    /** `creditReward(participation, amount)`. */
    method CreditReward(amount: int) returns (r: Result<int, BehaviorError>)
      modifies `yieldAccrued
      ensures State() == AfterCredit(old(State()), amount)
      ensures r == if amount <= 0 then Err(InvalidAmount) else Ok(yieldAccrued)
    {
      var err := ValidateDepositAmount(amount);
      if err.Some? {
        return Err(err.value);
      }
      yieldAccrued := yieldAccrued + amount;
      r := Ok(yieldAccrued);
    }

    /** `claimReward(participation, now)`. */
    method ClaimReward(now: int) returns (r: Result<int, BehaviorError>)
      modifies `claimedReward
      ensures r == ClaimPays(old(State()), now)
      ensures State() == AfterClaim(old(State()), now)
    {
      var deadlineErr := ValidateClaimDeadline(claimDeadline, now);
      if deadlineErr.Some? {
        return Err(deadlineErr.value);
      }
      var available := ClaimableTotal(yieldAccrued, prize, claimedReward);
      if available <= 0 {
        return Ok(0);
      }
      claimedReward := claimedReward + available;
      r := Ok(available);
    }

    /** `unlockMilestone(participation, id)`; `None` stands for its error. */
    method UnlockMilestone(now: int) returns (slot: Option<nat>)
      modifies `milestoneProgress
      ensures State() == AfterUnlock(old(State()), now)
      ensures slot == var i := FirstOpen(old(milestoneProgress)); if i < |old(milestoneProgress)| then Some(i) else None
    {
      var i := FirstOpen(milestoneProgress);
      if i == |milestoneProgress| {
        return None;
      }
      milestoneProgress := milestoneProgress[i := Some(now)];
      slot := Some(i);
    }
  }

  // ----- Runs --------------------------------------------------------------------------------------

  datatype Op = Deposit(amount: int, now: int) | Credit(amount: int) | Claim(now: int) | Unlock(now: int)

  /** One operation; of the milestones, only the targets matter and they never change (`QuestRunIsRun`). */
  function Step(a: Account, targets: seq<Milestone>, op: Op): Account {
    match op
    case Deposit(amount, now) => AfterDeposit(a, targets, amount, now)
    case Credit(amount) => AfterCredit(a, amount)
    case Claim(now) => AfterClaim(a, now)
    case Unlock(now) => AfterUnlock(a, now)
  }

  function Run(a: Account, targets: seq<Milestone>, ops: seq<Op>): Account
    decreases ops
  {
    if ops == [] then a else Run(Step(a, targets, ops[0]), targets, ops[1..])
  }

  /** What an operation pays out. */
  function Pays(a: Account, op: Op): int {
    match op
    case Claim(now) => (match ClaimPays(a, now) case Ok(paid) => paid case Err(_) => 0)
    case _ => 0
  }

  function TotalPaid(a: Account, targets: seq<Milestone>, ops: seq<Op>): int
    decreases ops
  {
    if ops == [] then 0 else Pays(a, ops[0]) + TotalPaid(Step(a, targets, ops[0]), targets, ops[1..])
  }

  /** What deposits and credits bring in over a run; the operation rejects amounts that are not positive. */
  function Accepted(amount: int): int {
    if amount > 0 then amount else 0
  }

  function TotalDeposited(ops: seq<Op>): int {
    if ops == [] then 0 else (if ops[0].Deposit? then Accepted(ops[0].amount) else 0) + TotalDeposited(ops[1..])
  }

  function TotalCredited(ops: seq<Op>): int {
    if ops == [] then 0 else (if ops[0].Credit? then Accepted(ops[0].amount) else 0) + TotalCredited(ops[1..])
  }

  /** Claims never exceed what was credited. */
  predicate Backed(a: Account) {
    a.claimedReward <= a.yieldAccrued + a.prize
  }

  /**
   * Claim conservation over any run: what is paid out is exactly the growth of the claimed reward,
   * which never shrinks; credits add up; the prize and the deadline do not change; and an account
   * whose claims were backed stays backed.
   */
  lemma {:induction false} ClaimsConserved(a: Account, targets: seq<Milestone>, ops: seq<Op>)
    ensures var z := Run(a, targets, ops);
            && z.claimedReward == a.claimedReward + TotalPaid(a, targets, ops) && TotalPaid(a, targets, ops) >= 0
            && z.yieldAccrued == a.yieldAccrued + TotalCredited(ops)
            && z.prize == a.prize && z.claimDeadline == a.claimDeadline
            && (Backed(a) ==> Backed(z))
    decreases ops
  {
    if ops != [] {
      ClaimsConserved(Step(a, targets, ops[0]), targets, ops[1..]);
    }
  }

  /**
   * Nothing is lost and nothing is paid twice: when a backed account ends a run with a claim in time,
   * the payments of the whole run are exactly what was unclaimed at the start plus all credits.
   */
  lemma EverythingPaidOnce(a: Account, targets: seq<Milestone>, ops: seq<Op>, now: int)
    requires Backed(a) && ValidateClaimDeadline(a.claimDeadline, now).None?
    ensures TotalPaid(a, targets, ops + [Claim(now)])
         == a.yieldAccrued + a.prize - a.claimedReward + TotalCredited(ops)
  {
    ClaimsConserved(a, targets, ops);
    RunConcat(a, targets, ops, [Claim(now)]);
    assert [Claim(now)][1..] == [];
  }

  lemma {:induction false} RunConcat(a: Account, targets: seq<Milestone>, before: seq<Op>, after: seq<Op>)
    ensures Run(a, targets, before + after) == Run(Run(a, targets, before), targets, after)
    ensures TotalPaid(a, targets, before + after)
         == TotalPaid(a, targets, before) + TotalPaid(Run(a, targets, before), targets, after)
    decreases before
  {
    if before == [] {
      assert before + after == after;
    } else {
      RunConcat(Step(a, targets, before[0]), targets, before[1..], after);
      assert (before + after)[0] == before[0] && (before + after)[1..] == before[1..] + after;
    }
  }

  /** A claim right after one within the deadline pays 0 or is rejected, and changes nothing. */
  lemma SecondClaimPaysNothing(a: Account, first: int, second: int)
    requires ClaimPays(a, first).Ok?
    ensures Pays(AfterClaim(a, first), Claim(second)) == 0
    ensures AfterClaim(AfterClaim(a, first), second) == AfterClaim(a, first)
  {
  }

  /** Repeating an accepted claim, anywhere in any run, changes neither what the run ends with nor what it pays. */
  lemma {:induction false} RepeatedClaimChangesNothing(
      a: Account, targets: seq<Milestone>, before: seq<Op>, first: int, second: int, after: seq<Op>)
    requires ClaimPays(Run(a, targets, before), first).Ok?
    ensures Run(a, targets, before + ([Claim(first), Claim(second)] + after))
         == Run(a, targets, before + ([Claim(first)] + after))
    ensures TotalPaid(a, targets, before + ([Claim(first), Claim(second)] + after))
         == TotalPaid(a, targets, before + ([Claim(first)] + after))
  {
    var twice, once := [Claim(first), Claim(second)] + after, [Claim(first)] + after;
    RunConcat(a, targets, before, twice);
    RunConcat(a, targets, before, once);
    SecondClaimPaysNothing(Run(a, targets, before), first, second);
    assert once[1..] == after && twice[1..] == [Claim(second)] + after && twice[1..][1..] == after;
  }

  // ----- The canonical evaluator over runs -----------------------------------------------------

  /** What the canonical evaluator looks at. */
  datatype Reference = Reference(yieldAccrued: int, prize: int, claimedReward: int, deadline: Option<int>)

  function ReferenceOf(a: Account): Reference {
    Reference(a.yieldAccrued, a.prize, a.claimedReward, a.claimDeadline)
  }

  function ReferenceClaim(r: Reference, now: int): Evaluation {
    CanonicalClaim(r.yieldAccrued, r.prize, r.claimedReward, r.deadline, now)
  }

  /** What a claim is worth to the evaluator: nothing if it is rejected or a no-op. */
  function Worth(e: Evaluation): int {
    if e.Done? then e.value else 0
  }

  function ReferenceStep(r: Reference, op: Op): Reference {
    match op
    case Credit(amount) =>
      if ValidateDepositAmount(amount).None? then r.(yieldAccrued := r.yieldAccrued + amount) else r
    case Claim(now) => r.(claimedReward := r.claimedReward + Worth(ReferenceClaim(r, now)))
    case _ => r
  }

  function ReferenceRun(r: Reference, ops: seq<Op>): Reference
    decreases ops
  {
    if ops == [] then r else ReferenceRun(ReferenceStep(r, ops[0]), ops[1..])
  }

  function ReferencePaid(r: Reference, ops: seq<Op>): int
    decreases ops
  {
    if ops == [] then 0
    else
      (if ops[0].Claim? then Worth(ReferenceClaim(r, ops[0].now)) else 0) + ReferencePaid(ReferenceStep(r,
          ops[0]), ops[1..])
  }

  /** The quote, the claim and the evaluator agree on this account at this instant. */
  predicate ClaimAgrees(a: Account, now: int) {
    && Claimable(a, now) == ClaimPays(a, now)
    && match ReferenceClaim(ReferenceOf(a), now)
       case Rejected(e) => ClaimPays(a, now) == Err(e) && AfterClaim(a, now) == a
       case Noop(v) => v == 0 && ClaimPays(a, now) == Ok(0) && AfterClaim(a, now) == a
       case Done(v) =>
         v > 0 && ClaimPays(a, now) == Ok(v) && AfterClaim(a, now).claimedReward == a.yieldAccrued + a.prize
  }

  lemma ClaimMatchesReference(a: Account, now: int)
    ensures ClaimAgrees(a, now)
  {
  }

  lemma StepMatchesReference(a: Account, targets: seq<Milestone>, op: Op)
    ensures ReferenceOf(Step(a, targets, op)) == ReferenceStep(ReferenceOf(a), op)
    ensures Pays(a, op) == if op.Claim? then Worth(ReferenceClaim(ReferenceOf(a), op.now)) else 0
  {
    if op.Claim? {
      ClaimMatchesReference(a, op.now);
    }
  }

  /**
   * Over any run the service and the canonical evaluator, fed with the same operations, stay in the same
   * state and pay the same, and in the state reached quote, claim and evaluator agree at every instant.
   */
  lemma {:induction false} RunMatchesReference(a: Account, targets: seq<Milestone>, ops: seq<Op>)
    ensures ReferenceOf(Run(a, targets, ops)) == ReferenceRun(ReferenceOf(a), ops)
    ensures TotalPaid(a, targets, ops) == ReferencePaid(ReferenceOf(a), ops)
    ensures forall now :: ClaimAgrees(Run(a, targets, ops), now)
    decreases ops
  {
    if ops == [] {
      forall now ensures ClaimAgrees(a, now) {
        ClaimMatchesReference(a, now);
      }
    } else {
      StepMatchesReference(a, targets, ops[0]);
      RunMatchesReference(Step(a, targets, ops[0]), targets, ops[1..]);
    }
  }

  // ----- Milestones ----------------------------------------------------------------------------------

  /** Every slot that stands beside a milestone with a target within the balance is complete. */
  predicate ReachedAreComplete(a: Account, targets: seq<Milestone>) {
    forall i | 0 <= i < |a.slots| && i < |targets| && targets[i].targetAmount <= a.balance :: a.slots[i].Some?
  }

  /** Completed slots keep their completion time. */
  predicate NeverReopened(before: seq<Option<int>>, after: seq<Option<int>>) {
    |before| == |after| && forall i | 0 <= i < |before| && before[i].Some? :: after[i] == before[i]
  }

  /**
   * Over any run the balance is the start plus the accepted deposits, and completed slots never reopen
   * or change their time; once every reached target is complete, as after any accepted deposit, that
   * stays so.
   */
  lemma {:induction false} MilestonesOverRuns(a: Account, targets: seq<Milestone>, ops: seq<Op>)
    ensures var z := Run(a, targets, ops);
            && z.balance == a.balance + TotalDeposited(ops)
            && NeverReopened(a.slots, z.slots)
            && (ReachedAreComplete(a, targets) ==> ReachedAreComplete(z, targets))
            && ((exists op :: op in ops && op.Deposit? && op.amount > 0) ==> ReachedAreComplete(z, targets))
    decreases ops
  {
    if ops != [] {
      var b := Step(a, targets, ops[0]);
      StepOnSlots(a, targets, ops[0]);
      MilestonesOverRuns(b, targets, ops[1..]);
      assert forall op :: op in ops <==> op == ops[0] || op in ops[1..];
    }
  }

  lemma StepOnSlots(a: Account, targets: seq<Milestone>, op: Op)
    ensures var b := Step(a, targets, op);
            && b.balance == a.balance + (if op.Deposit? then Accepted(op.amount) else 0)
            && NeverReopened(a.slots, b.slots)
            && (ReachedAreComplete(a, targets) ==> ReachedAreComplete(b, targets))
            && (op.Deposit? && op.amount > 0 ==> ReachedAreComplete(b, targets))
  {
  }

  function OpenSlots(slots: seq<Option<int>>): nat {
    if slots == [] then 0 else (if slots[0].None? then 1 else 0) + OpenSlots(slots[1..])
  }

  lemma {:induction false} FillFirstOpen(slots: seq<Option<int>>, now: int)
    ensures FirstOpen(slots) == |slots| <==> OpenSlots(slots) == 0
    ensures FirstOpen(slots) < |slots| ==> OpenSlots(slots[FirstOpen(slots) := Some(now)]) == OpenSlots(slots) - 1
  {
    if slots != [] && slots[0].Some? {
      FillFirstOpen(slots[1..], now);
      var i := FirstOpen(slots[1..]);
      if i < |slots[1..]| {
        assert slots[i + 1 := Some(now)][1..] == slots[1..][i := Some(now)];
      }
    } else if slots != [] {
      assert slots[0 := Some(now)][1..] == slots[1..];
    }
  }

  /** How many of the unlocks of a run find an open slot. */
  function Unlocked(a: Account, targets: seq<Milestone>, ops: seq<Op>): nat
    decreases ops
  {
    if ops == [] then 0
    else (if ops[0].Unlock? && FirstOpen(a.slots) < |a.slots| then 1 else 0) +
         Unlocked(Step(a, targets, ops[0]), targets, ops[1..])
  }

  /** How many slots the deposits of a run complete. */
  function Completed(a: Account, targets: seq<Milestone>, ops: seq<Op>): nat
    decreases ops
  {
    if ops == [] then 0
    else
      (if ops[0].Deposit? && ops[0].amount > 0 then Reachable(targets, a.slots, a.balance + ops[0].amount) else 0) +
      Completed(Step(a, targets, ops[0]), targets, ops[1..])
  }

  /** The open slots whose milestone has a target within the balance. */
  function Reachable(targets: seq<Milestone>, slots: seq<Option<int>>, balance: int): nat {
    if slots == [] || targets == [] then 0
    else
      (if slots[0].None? && balance >= targets[0].targetAmount then 1 else 0) +
      Reachable(targets[1..], slots[1..], balance)
  }

  lemma {:induction false} CompleteSlotsCounts(targets: seq<Milestone>, slots: seq<Option<int>>, balance: int, now: int)
    ensures OpenSlots(CompleteSlots(targets, slots, balance, now)) + Reachable(targets, slots, balance)
         == OpenSlots(slots)
  {
    var r := CompleteSlots(targets, slots, balance, now);
    if slots == [] || targets == [] {
      assert r == slots;
    } else {
      CompleteSlotsCounts(targets[1..], slots[1..], balance, now);
      assert r[1..] == CompleteSlots(targets[1..], slots[1..], balance, now);
    }
  }

  /**
   * Slots are accounted for over any run of deposits, credits, claims and unlocks at any instants: every
   * slot open at the start is open at the end, or was completed by one unlock or one deposit.
   */
  lemma {:induction false} SlotsAccounted(a: Account, targets: seq<Milestone>, ops: seq<Op>)
    ensures OpenSlots(a.slots) ==
            OpenSlots(Run(a, targets, ops).slots) + Unlocked(a, targets, ops) + Completed(a, targets, ops)
    decreases ops
  {
    if ops != [] {
      SlotsAccounted(Step(a, targets, ops[0]), targets, ops[1..]);
      match ops[0]
      case Deposit(amount, now) => CompleteSlotsCounts(targets, a.slots, a.balance + amount, now);
      case Unlock(now) => FillFirstOpen(a.slots, now);
      case _ =>
    }
  }

  /** Over any run: an unlock at the end finds a slot exactly if unlocks and deposits have left one open. */
  lemma {:induction false} NextUnlockExactly(a: Account, targets: seq<Milestone>, ops: seq<Op>)
    ensures var z := Run(a, targets, ops);
            FirstOpen(z.slots) < |z.slots| <==>
            Unlocked(a, targets, ops) + Completed(a, targets, ops) < OpenSlots(a.slots)
  {
    SlotsAccounted(a, targets, ops);
    FillFirstOpen(Run(a, targets, ops).slots, 0);
  }

  function Unlocks(instants: seq<int>): seq<Op> {
    if instants == [] then [] else [Unlock(instants[0])] + Unlocks(instants[1..])
  }

  /** Of any unlocks in a row, at whatever instants, as many succeed as there are open slots. */
  lemma {:induction false} UnlocksCountOpenSlots(a: Account, targets: seq<Milestone>, instants: seq<int>)
    ensures Unlocked(a, targets, Unlocks(instants)) ==
            if |instants| < OpenSlots(a.slots) then |instants| else OpenSlots(a.slots)
    ensures OpenSlots(Run(a, targets, Unlocks(instants)).slots)
         == OpenSlots(a.slots) - Unlocked(a, targets, Unlocks(instants))
    decreases instants
  {
    if instants != [] {
      FillFirstOpen(a.slots, instants[0]);
      assert Unlocks(instants)[1..] == Unlocks(instants[1..]);
      UnlocksCountOpenSlots(AfterUnlock(a, instants[0]), targets, instants[1..]);
    }
  }

  // ----- Milestones and slots together -----------------------------------------------------------------

  predicate SameTargets(a: seq<Milestone>, b: seq<Milestone>) {
    |a| == |b| && forall i | 0 <= i < |a| :: a[i].targetAmount == b[i].targetAmount
  }

  /** A deposit keeps every target, and what it does to the account depends on the targets alone. */
  lemma DepositReadsTargets(a: Account, ms: seq<Milestone>, ns: seq<Milestone>, amount: int, now: int)
    requires SameTargets(ms, ns)
    ensures SameTargets(ms, MarkMilestones(ns, a.slots, a.balance + amount))
    ensures AfterDeposit(a, ms, amount, now) == AfterDeposit(a, ns, amount, now)
  {
  }

  /** A quest's milestones and one participation, as the service changes them together. */
  datatype Quest = Quest(milestones: seq<Milestone>, account: Account)

  function QuestStep(q: Quest, op: Op): Quest {
    var milestones :=
      if op.Deposit? && op.amount > 0 then MarkMilestones(q.milestones, q.account.slots, q.account.balance + op.amount)
      else q.milestones;
    Quest(milestones, Step(q.account, q.milestones, op))
  }

  function QuestRun(q: Quest, ops: seq<Op>): Quest
    decreases ops
  {
    if ops == [] then q else QuestRun(QuestStep(q, ops[0]), ops[1..])
  }

  /** Running with the targets fixed at the start is what the service does with milestones that change. */
  lemma {:induction false} QuestRunIsRun(q: Quest, targets: seq<Milestone>, ops: seq<Op>)
    requires SameTargets(targets, q.milestones)
    ensures QuestRun(q, ops).account == Run(q.account, targets, ops)
    ensures SameTargets(targets, QuestRun(q, ops).milestones)
    decreases ops
  {
    if ops != [] {
      QuestStepIsStep(q, targets, ops[0]);
      QuestRunIsRun(QuestStep(q, ops[0]), targets, ops[1..]);
    }
  }

  lemma QuestStepIsStep(q: Quest, targets: seq<Milestone>, op: Op)
    requires SameTargets(targets, q.milestones)
    ensures QuestStep(q, op).account == Step(q.account, targets, op)
    ensures SameTargets(targets, QuestStep(q, op).milestones)
  {
    if op.Deposit? {
      DepositReadsTargets(q.account, targets, q.milestones, op.amount, op.now);
    }
  }

  /** An accepted deposit that reaches the target of milestone `i` while its slot is open. */
  predicate Reaches(a: Account, targets: seq<Milestone>, op: Op, i: nat) {
    && op.Deposit? && op.amount > 0
    && i < |targets| && i < |a.slots| && a.slots[i].None? && a.balance + op.amount >= targets[i].targetAmount
  }

  predicate ReachedIn(a: Account, targets: seq<Milestone>, ops: seq<Op>, i: nat)
    decreases ops
  {
    ops != [] && (Reaches(a, targets, ops[0], i) || ReachedIn(Step(a, targets, ops[0]), targets, ops[1..], i))
  }

  predicate Marked(q: Quest, i: nat) {
    i < |q.milestones| && q.milestones[i].isCompleted
  }

  lemma StepMarks(q: Quest, targets: seq<Milestone>, op: Op, i: nat)
    requires SameTargets(targets, q.milestones)
    ensures Marked(QuestStep(q, op), i) <==> Marked(q, i) || Reaches(q.account, targets, op, i)
  {
  }

  /**
   * Over any run of deposits, credits, claims and unlocks a milestone ends marked exactly if it was
   * marked at the start or an accepted deposit reached its target while its slot was open.
   */
  lemma {:induction false} MarkedExactly(q: Quest, targets: seq<Milestone>, ops: seq<Op>, i: nat)
    requires SameTargets(targets, q.milestones)
    ensures Marked(QuestRun(q, ops), i) <==> Marked(q, i) || ReachedIn(q.account, targets, ops, i)
    decreases ops
  {
    if ops != [] {
      StepMarks(q, targets, ops[0], i);
      QuestStepIsStep(q, targets, ops[0]);
      MarkedExactly(QuestStep(q, ops[0]), targets, ops[1..], i);
    }
  }

  /** A slot that is complete, by an unlock or otherwise, is never again open to a deposit. */
  lemma {:induction false} CompleteSlotNeverReached(a: Account, targets: seq<Milestone>, ops: seq<Op>, i: nat)
    requires i < |a.slots| && a.slots[i].Some?
    ensures !ReachedIn(a, targets, ops, i)
    decreases ops
  {
    if ops != [] {
      StepOnSlots(a, targets, ops[0]);
      CompleteSlotNeverReached(Step(a, targets, ops[0]), targets, ops[1..], i);
    }
  }

  /**
   * Unlocking completes a slot and leaves its milestone as it is, for good: over any run that starts with
   * the unlock of slot `i`, whatever is deposited afterwards, the milestone ends as it started.
   */
  lemma {:induction false} UnlockedMilestoneStaysUnmarked(q: Quest, now: int, ops: seq<Op>)
    requires FirstOpen(q.account.slots) < |q.account.slots|
    ensures var i := FirstOpen(q.account.slots);
            Marked(QuestRun(q, [Unlock(now)] + ops), i) <==> Marked(q, i)
  {
    var i := FirstOpen(q.account.slots);
    var all := [Unlock(now)] + ops;
    assert all[0] == Unlock(now) && all[1..] == ops;
    MarkedExactly(q, q.milestones, all, i);
    CompleteSlotNeverReached(AfterUnlock(q.account, now), q.milestones, ops, i);
  }
}

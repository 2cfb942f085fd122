/** The behavioural reference that the savings service has to reproduce. */
module Conformance {

  import opened Sequences

  datatype BehaviorError = InvalidAmount | LockupActive | InvalidAction | ClaimDeadlinePassed

  function ValidateDepositAmount(amount: int): Option<BehaviorError> {
    if amount <= 0 then Some(InvalidAmount) else None
  }

  function ValidateClaimDeadline(deadline: Option<int>, now: int): Option<BehaviorError> {
    if deadline.None? then None
    else if now > deadline.value then Some(ClaimDeadlinePassed)
    else None
  }

  function ClaimableTotal(yieldAccrued: int, prize: int, claimedReward: int): int {
    yieldAccrued + prize - claimedReward
  }

  datatype Evaluation = Done(value: int) | Noop(value: int) | Rejected(error: BehaviorError)

  /** The `claim` case of `runCanonicalCase`. */
  function CanonicalClaim(yieldAccrued: int, prize: int, claimedReward: int, deadline: Option<int>,
      now: int): Evaluation {
    var err := ValidateClaimDeadline(deadline, now);
    if err.Some? then Rejected(err.value)
    else
      var available := ClaimableTotal(yieldAccrued, prize, claimedReward);
      if available <= 0 then Noop(0) else Done(available)
  }
}

/**
 * The job lease table and the four statements the lease service runs on it. There is one row per
 * job; this model is about one job. Clock readings are inputs: `now` is what the caller read before
 * it sent the statement.
 */
module JobLease {

  import opened Sequences

  datatype Row = Row(worker: string, token: nat, expiresAt: int)

  /** `create`: fails on the unique job name when a row exists. New rows start at token 1. */
  function Insert(row: Option<Row>, worker: string, expiresAt: int): Option<Row> {
    if row.None? then Some(Row(worker, 1, expiresAt)) else None
  }

  /** The conditional update: takes over an expired row and increments its token. */
  function TakeOver(row: Option<Row>, worker: string, now: int, expiresAt: int): Option<Row> {
    if row.Some? && row.value.expiresAt <= now then Some(Row(worker, row.value.token + 1, expiresAt)) else None
  }

  predicate Holds(row: Option<Row>, worker: string, token: nat) {
    row.Some? && row.value.worker == worker && row.value.token == token
  }

  /** What a fencing check compares: the stored token alone. */
  predicate CarriesToken(row: Option<Row>, token: nat) {
    row.Some? && row.value.token == token
  }

  /** `updateMany` guarded by worker, token and an expiry strictly after `now`. */
  function Renew(row: Option<Row>, worker: string, token: nat, now: int, expiresAt: int): Option<Row> {
    if Holds(row, worker, token) && row.value.expiresAt > now then Some(row.value.(expiresAt := expiresAt)) else None
  }

  /** `deleteMany` by worker id alone. */
  function Delete(row: Option<Row>, worker: string): Option<Row> {
    if row.Some? && row.value.worker == worker then None else row
  }

  /** One row of the job lease table and the service methods that change it. */
  class LeaseService {
    var row: Option<Row>

    constructor ()
      ensures row == None
    {
      row := None;
    }

    /** Inserts, or on a conflict takes over an expired row; the handle is the fencing token. */
    method AcquireJobLease(worker: string, ttl: int, issuedAt: int, now: int) returns (handle: Option<nat>)
      modifies this
      ensures old(row) == None ==> handle == Some(1) && row == Some(Row(worker, 1, issuedAt + ttl))
      ensures old(row).Some? && old(row).value.expiresAt <= now ==>
                handle == Some(old(row).value.token + 1) && row == Some(Row(worker, handle.value, issuedAt + ttl))
      ensures old(row).Some? && old(row).value.expiresAt > now ==> handle == None && row == old(row)
    {
      var created := Insert(row, worker, issuedAt + ttl);
      if created.Some? {
        row := created;
        return Some(created.value.token);
      }
      var taken := TakeOver(row, worker, now, issuedAt + ttl);
      if taken.None? {
        return None;
      }
      row := taken;
      handle := Some(taken.value.token);
    }

    method RenewJobLease(worker: string, token: nat, ttl: int, now: int) returns (renewed: bool)
      modifies this
      ensures renewed <==> Holds(old(row), worker, token) && old(row).value.expiresAt > now
      ensures row == if renewed then Some(Row(worker, token, now + ttl)) else old(row)
    {
      var updated := Renew(row, worker, token, now, now + ttl);
      renewed := updated.Some?;
      if renewed {
        row := updated;
      }
    }

    method ReleaseJobLease(worker: string)
      modifies this
      ensures row == if old(row).Some? && old(row).value.worker == worker then None else old(row)
    {
      row := Delete(row, worker);
    }

    /** Compares the stored token alone; `LeaseSafety.FencingCheckExact` says for which ticks it passes. */
    method IsFencingTokenCurrent(token: nat) returns (current: bool)
      ensures current <==> CarriesToken(row, token)
    {
      current := row.Some? && row.value.token == token;
    }
  }

  /** One heartbeat: what other workers left in the row, when it runs, and whether the database answers. */
  datatype Beat = Beat(row: Option<Row>, now: int, answers: bool)

  datatype TickOutcome = NotAcquired | LostNotReleased | ReleasedAtEnd | Rethrown

  /** A heartbeat renews exactly when the database answers and the row is still this tick's and unexpired. */
  predicate Renews(beat: Beat, worker: string, token: nat) {
    beat.answers && Holds(beat.row, worker, token) && beat.row.value.expiresAt > beat.now
  }

  /**
   * One tick of a job as it runs: acquire, heartbeats while the job body runs, then release.
   * The row is released only if the body returned and every heartbeat renewed; one failed renewal
   * is enough for the tick to keep its hands off the row.
   */
  method WithJobLease(leases: LeaseService, worker: string, ttl: int, issuedAt: int, now: int,
                      beats: seq<Beat>, last: Option<Row>, bodyThrows: bool)
    returns (outcome: TickOutcome, ghost token: nat)
    modifies leases
    ensures outcome == NotAcquired <==> old(leases.row).Some? && old(leases.row).value.expiresAt > now
    ensures outcome == NotAcquired ==> leases.row == old(leases.row)
    ensures outcome != NotAcquired ==>
              && token == (if old(leases.row).None? then 1 else old(leases.row).value.token + 1)
              && (outcome == Rethrown <==> bodyThrows)
              && (outcome == ReleasedAtEnd <==>
                  !bodyThrows && forall k | 0 <= k < |beats| :: Renews(beats[k], worker, token))
              && leases.row == (if outcome == ReleasedAtEnd then Delete(last, worker) else last)
  {
    token := 0;
    var handle := leases.AcquireJobLease(worker, ttl, issuedAt, now);
    if handle.None? {
      return NotAcquired, token;
    }
    var fencingToken := handle.value;
    token := fencingToken;
    var lostLease := false;
    for i := 0 to |beats|
      invariant lostLease <==> exists k :: 0 <= k < i && !Renews(beats[k], worker, fencingToken)
    {
      leases.row := beats[i].row;
      var renewed := false;
      if beats[i].answers {
        renewed := leases.RenewJobLease(worker, fencingToken, ttl, beats[i].now);
      }
      if !renewed {
        if !lostLease {
          lostLease := true;
        }
      }
    }
    leases.row := last;
    if bodyThrows {
      return Rethrown, token;
    }
    if lostLease {
      return LostNotReleased, token;
    }
    leases.ReleaseJobLease(worker);
    outcome := ReleasedAtEnd;
  }
}

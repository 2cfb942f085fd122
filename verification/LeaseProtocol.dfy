/**
 * Any number of workers running ticks of one job against the shared lease row, as a state machine
 * whose steps are single database statements and local events, interleaved in any order. A clock
 * reading may be older than the statement that carries it.
 */
module LeaseProtocol {

  import opened Sequences
  import opened JobLease

  datatype Phase =
    | TakingOver(expiresAt: int)  // the insert met an existing row; the conditional update is still to run
    | Skipped                     // another worker holds the lease
    | Running                     // the job body and the heartbeat timer run
    | Releasing                   // the body returned with the lost flag clear; the delete is still to run
    | Released
    | Kept                        // the body returned with the lost flag set
    | Threw
    | Crashed

  /**
   * `rounds` counts the row deletions before this tick acquired, `inFlight` its renewals under way;
   * `granted` is the expiry last granted to it.
   */
  datatype Tick = Tick(worker: string, ttl: int, phase: Phase, token: nat, lost: bool, inFlight: nat, rounds: nat,
                       granted: Option<int>)

  /** Ticks are numbered as they start; `issued` lists those that acquired, in that order. */
  datatype State = State(clock: int, row: Option<Row>, ticks: seq<Tick>, issued: seq<nat>, deletions: nat)

  datatype Step =
    | Advance(ms: nat)
    | Start(worker: string, ttl: int, issuedAt: int)   // acquireJobLease: the insert
    | Conditional(id: nat, now: int)                   // acquireJobLease: the conditional update
    | Fire(id: nat)                                    // the heartbeat timer fires
    | Land(id: nat, now: int, later: int)              // its renewal runs
    | Error(id: nat)                                   // its renewal is answered by an error
    | Return(id: nat)                                  // the job body returns
    | Throw(id: nat)                                   // the job body, or the release, throws
    | Crash(id: nat)
    | DeleteRow(id: nat)                               // releaseJobLease

  const INITIAL := State(0, None, [], [], 0)

  predicate Ended(phase: Phase) {
    phase in {Skipped, Released, Kept, Threw, Crashed}
  }

  predicate Enabled(s: State, e: Step) {
    match e
    case Advance(_) => true
    case Start(_, _, issuedAt) => issuedAt <= s.clock
    case Conditional(id, now) => id < |s.ticks| && s.ticks[id].phase.TakingOver? && now <= s.clock
    case Fire(id) => id < |s.ticks| && s.ticks[id].phase == Running
    case Land(id, now, later) => id < |s.ticks| && s.ticks[id].inFlight > 0 && now <= later <= s.clock
    case Error(id) => id < |s.ticks| && s.ticks[id].inFlight > 0
    case Return(id) => id < |s.ticks| && s.ticks[id].phase == Running
    case Throw(id) => id < |s.ticks| && s.ticks[id].phase in {Running, Releasing}
    case Crash(id) => id < |s.ticks| && !Ended(s.ticks[id].phase)
    case DeleteRow(id) => id < |s.ticks| && s.ticks[id].phase == Releasing
  }

  function Set(s: State, id: nat, t: Tick): State
    requires id < |s.ticks|
  {
    s.(ticks := s.ticks[id := t])
  }

  /** The tick becomes the last one to acquire. */
  function Acquired(s: State, id: nat, t: Tick, row: Row): State
    requires id < |s.ticks|
  {
    var acquired := t.(phase := Running, token := row.token, rounds := s.deletions, granted := Some(row.expiresAt));
    Set(s, id, acquired).(row := Some(row), issued := s.issued + [id])
  }

  function Begun(worker: string, ttl: int, issuedAt: int): Tick {
    Tick(worker, ttl, TakingOver(issuedAt + ttl), 0, false, 0, 0, None)
  }

  function Apply(s: State, e: Step): State
    requires Enabled(s, e)
  {
    match e
    case Advance(ms) => s.(clock := s.clock + ms)
    case Start(worker, ttl, issuedAt) =>
      var begun := Begun(worker, ttl, issuedAt);
      var started := s.(ticks := s.ticks + [begun]);
      (match Insert(s.row, worker, issuedAt + ttl)
       case Some(row) => Acquired(started, |s.ticks|, begun, row)
       case None => started)
    case Conditional(id, now) =>
      var t := s.ticks[id];
      (match JobLease.TakeOver(s.row, t.worker, now, t.phase.expiresAt)
       case Some(row) => Acquired(s, id, t, row)
       case None => Set(s, id, t.(phase := Skipped)))
    case Fire(id) => Set(s, id, s.ticks[id].(inFlight := s.ticks[id].inFlight + 1))
    case Land(id, now, later) =>
      var t := s.ticks[id].(inFlight := s.ticks[id].inFlight - 1);
      (match JobLease.Renew(s.row, t.worker, t.token, now, later + t.ttl)
       case Some(row) => Set(s, id, t.(granted := Some(row.expiresAt))).(row := Some(row))
       case None => Set(s, id, t.(lost := true)))
    case Error(id) => Set(s, id, s.ticks[id].(inFlight := s.ticks[id].inFlight - 1, lost := true))
    case Return(id) => Set(s, id, s.ticks[id].(phase := if s.ticks[id].lost then Kept else Releasing))
    case Throw(id) => Set(s, id, s.ticks[id].(phase := Threw))
    case Crash(id) => Set(s, id, s.ticks[id].(phase := Crashed))
    case DeleteRow(id) =>
      var row := Delete(s.row, s.ticks[id].worker);
      Set(s, id, s.ticks[id].(phase := Released)).(
        row := row, deletions := if row == s.row then s.deletions else s.deletions + 1)
  }

  predicate Run(s: State, es: seq<Step>)
    decreases es
  {
    es == [] || (Enabled(s, es[0]) && Run(Apply(s, es[0]), es[1..]))
  }

  function After(s: State, es: seq<Step>): State
    requires Run(s, es)
    decreases es
  {
    if es == [] then s else After(Apply(s, es[0]), es[1..])
  }

  // ----- The invariant ------------------------------------------------------------------

  /** `a` acquired just before `b`: within one life of the row tokens count up, a new row starts again at 1. */
  predicate Succeeds(a: Tick, b: Tick) {
    if a.rounds == b.rounds then b.token == a.token + 1 else a.rounds < b.rounds && b.token == 1
  }

  ghost predicate Inv(s: State) {
    IssuedInv(s) && RowInv(s)
  }

  ghost predicate IssuedInv(s: State) {
    && Distinct(s.issued)
    && (forall k {:trigger s.issued[k]} | 0 <= k < |s.issued| :: IssuedOk(s, s.issued[k]))
    && (forall i | 0 <= i < |s.ticks| :: Waiting(s.ticks[i]) ==> i !in s.issued)
    && (forall k | 0 < k < |s.issued| :: Succeeds(s.ticks[s.issued[k - 1]], s.ticks[s.issued[k]]))
    && (s.issued != [] ==> s.ticks[s.issued[0]].token == 1)
  }

  predicate Waiting(t: Tick) {
    t.phase.TakingOver? || t.phase == Skipped
  }

  predicate IssuedOk(s: State, id: nat) {
    id < |s.ticks| && s.ticks[id].token >= 1 && s.ticks[id].rounds <= s.deletions
  }

  /** The row belongs to the last tick that acquired, in the current life of the row. */
  ghost predicate RowInv(s: State)
    requires forall k | 0 <= k < |s.issued| :: s.issued[k] < |s.ticks|
  {
    match s.row
    case None => forall k | 0 <= k < |s.issued| :: s.ticks[s.issued[k]].rounds < s.deletions
    case Some(row) =>
      && s.issued != []
      && var h := s.ticks[s.issued[|s.issued| - 1]];
         h.worker == row.worker && h.token == row.token && h.rounds == s.deletions
  }

  /** A tick changes only in its phase, lost flag and heartbeats. */
  predicate SameGrant(a: Tick, b: Tick) {
    a.worker == b.worker && a.token == b.token && a.rounds == b.rounds && a.ttl == b.ttl
  }

  lemma SetKeepsInv(s: State, id: nat, t: Tick)
    requires Inv(s) && id < |s.ticks| && SameGrant(s.ticks[id], t)
    requires Waiting(t) ==> id !in s.issued
    ensures Inv(Set(s, id, t))
  {
  }

  lemma RenewedKeepsInv(s: State, row: Row)
    requires Inv(s) && s.row.Some? && row.worker == s.row.value.worker && row.token == s.row.value.token
    ensures Inv(s.(row := Some(row)))
  {
  }

  lemma DeletedKeepsInv(s: State)
    requires Inv(s)
    ensures Inv(s.(row := None, deletions := s.deletions + 1))
  {
    var s' := s.(row := None, deletions := s.deletions + 1);
    assert forall k {:trigger s.issued[k]} | 0 <= k < |s.issued| :: IssuedOk(s, s.issued[k]) ==>
           IssuedOk(s', s.issued[k]);
  }

  lemma AcquiredKeepsInv(s: State, id: nat, t: Tick, row: Row)
    requires Inv(s) && id < |s.ticks| && id !in s.issued && s.ticks[id] == t
    requires row.worker == t.worker
    requires if s.row.None? then row.token == 1 else row.token == s.row.value.token + 1
    ensures Inv(Acquired(s, id, t, row))
  {
    var s' := Acquired(s, id, t, row);
    var n := |s.issued|;
    assert forall k | 0 <= k < n :: s'.issued[k] == s.issued[k] && s'.ticks[s.issued[k]] == s.ticks[s.issued[k]];
    assert s'.issued[n] == id;
    forall k | 0 < k <= n ensures Succeeds(s'.ticks[s'.issued[k - 1]], s'.ticks[s'.issued[k]]) {
      if k < n {
        assert Succeeds(s.ticks[s.issued[k - 1]], s.ticks[s.issued[k]]);
      }
    }
  }

  lemma BegunKeepsInv(s: State, t: Tick)
    requires Inv(s) && t.phase.TakingOver?
    ensures Inv(s.(ticks := s.ticks + [t]))
  {
    var s' := s.(ticks := s.ticks + [t]);
    forall k | 0 <= k < |s.issued| ensures s'.ticks[s.issued[k]] == s.ticks[s.issued[k]] && IssuedOk(s', s.issued[k]) {
      assert IssuedOk(s, s.issued[k]);
    }
    assert forall i | 0 <= i < |s.ticks| :: s'.ticks[i] == s.ticks[i];
    assert |s.ticks| !in s.issued;
  }

  lemma StartKeepsInv(s: State, e: Step)
    requires Inv(s) && e.Start? && Enabled(s, e)
    ensures Inv(Apply(s, e))
  {
    var begun := Begun(e.worker, e.ttl, e.issuedAt);
    BegunKeepsInv(s, begun);
    assert forall k {:trigger s.issued[k]} | 0 <= k < |s.issued| :: IssuedOk(s, s.issued[k]);
    match Insert(s.row, e.worker, e.issuedAt + e.ttl)
    case Some(row) => AcquiredKeepsInv(s.(ticks := s.ticks + [begun]), |s.ticks|, begun, row);
    case None =>
  }

  lemma {:induction false} ConditionalKeepsInv(s: State, e: Step)
    requires Inv(s) && e.Conditional? && Enabled(s, e)
    ensures Inv(Apply(s, e))
  {
    var t := s.ticks[e.id];
    assert Waiting(t);
    match JobLease.TakeOver(s.row, t.worker, e.now, t.phase.expiresAt)
    case Some(row) => AcquiredKeepsInv(s, e.id, t, row);
    case None => SetKeepsInv(s, e.id, t.(phase := Skipped));
  }

  lemma LandKeepsInv(s: State, e: Step)
    requires Inv(s) && e.Land? && Enabled(s, e)
    ensures Inv(Apply(s, e))
  {
    var t := Apply(s, e).ticks[e.id];
    LandStep(s, e);
    SetKeepsInv(s, e.id, t);
    if Apply(s, e).row != s.row {
      RenewedKeepsInv(Set(s, e.id, t), Apply(s, e).row.value);
    }
  }

  lemma LandStep(s: State, e: Step)
    requires e.Land? && Enabled(s, e)
    ensures var s' := Apply(s, e);
            && e.id < |s'.ticks| && s' == Set(s, e.id, s'.ticks[e.id]).(row := s'.row)
            && SameGrant(s.ticks[e.id], s'.ticks[e.id]) && s'.ticks[e.id].phase == s.ticks[e.id].phase
            && (s'.row != s.row ==>
                  && s.row.Some? && s'.row.Some?
                  && s'.row.value.worker == s.row.value.worker && s'.row.value.token == s.row.value.token)
  {
  }

  lemma DeleteKeepsInv(s: State, e: Step)
    requires Inv(s) && e.DeleteRow? && Enabled(s, e)
    ensures Inv(Apply(s, e))
  {
    var t := s.ticks[e.id].(phase := Released);
    SetKeepsInv(s, e.id, t);
    if Delete(s.row, t.worker) != s.row {
      DeletedKeepsInv(Set(s, e.id, t));
    }
  }

  lemma LocalKeepsInv(s: State, e: Step)
    requires Inv(s) && (e.Fire? || e.Error? || e.Return? || e.Throw? || e.Crash?) && Enabled(s, e)
    ensures Inv(Apply(s, e))
  {
    LocalStep(s, e);
    SetKeepsInv(s, e.id, Apply(s, e).ticks[e.id]);
  }

  lemma LocalStep(s: State, e: Step)
    requires (e.Fire? || e.Error? || e.Return? || e.Throw? || e.Crash?) && Enabled(s, e)
    ensures var s' := Apply(s, e);
            && e.id < |s'.ticks| && s' == Set(s, e.id, s'.ticks[e.id]) && SameGrant(s.ticks[e.id], s'.ticks[e.id])
            && (Waiting(s'.ticks[e.id]) ==> Waiting(s.ticks[e.id]))
  {
  }

  lemma {:induction false} StepKeepsInv(s: State, e: Step)
    requires Inv(s) && Enabled(s, e)
    ensures Inv(Apply(s, e))
  {
    match e
    case Advance(_) =>
    case Start(_, _, _) => StartKeepsInv(s, e);
    case Conditional(_, _) => ConditionalKeepsInv(s, e);
    case Land(_, _, _) => LandKeepsInv(s, e);
    case DeleteRow(_) => DeleteKeepsInv(s, e);
    case _ => LocalKeepsInv(s, e);
  }

  lemma {:induction false} RunKeepsInv(s: State, es: seq<Step>)
    requires Inv(s) && Run(s, es)
    ensures Inv(After(s, es))
    decreases es
  {
    if es != [] {
      StepKeepsInv(s, es[0]);
      RunKeepsInv(Apply(s, es[0]), es[1..]);
    }
  }

  lemma ReachableInv(es: seq<Step>)
    requires Run(INITIAL, es)
    ensures Inv(After(INITIAL, es))
  {
    RunKeepsInv(INITIAL, es);
  }
}

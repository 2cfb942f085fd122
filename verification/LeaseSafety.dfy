/** Safety of the job lease over every interleaving, and where it stops. */
module LeaseSafety {

  import opened Sequences
  import opened JobLease
  import opened LeaseProtocol

  // ----- Fencing tokens -----------------------------------------------------------------

  function TokenAt(s: State, k: nat): nat
    requires k < |s.issued| && s.issued[k] < |s.ticks|
  {
    s.ticks[s.issued[k]].token
  }

  function LifeAt(s: State, k: nat): nat
    requires k < |s.issued| && s.issued[k] < |s.ticks|
  {
    s.ticks[s.issued[k]].rounds
  }

  /** Pairs of row life and token grow from each acquisition to every later one. */
  lemma {:induction false} GrantsGrow(s: State, i: nat, j: nat)
    requires Inv(s) && i < j < |s.issued|
    ensures LifeAt(s, i) <= LifeAt(s, j)
    ensures LifeAt(s, i) == LifeAt(s, j) ==> TokenAt(s, i) < TokenAt(s, j)
    decreases j
  {
    assert Succeeds(s.ticks[s.issued[j - 1]], s.ticks[s.issued[j]]);
    if i < j - 1 {
      GrantsGrow(s, i, j - 1);
    }
  }

  ghost predicate TokensIncrease(s: State)
    requires Inv(s)
  {
    forall i, j | 0 <= i < j < |s.issued| :: TokenAt(s, i) < TokenAt(s, j)
  }

  /** No tick acquired after a release had deleted the row of an earlier one. */
  ghost predicate OneLife(s: State)
    requires Inv(s)
  {
    forall i, j | 0 <= i < j < |s.issued| :: LifeAt(s, i) == LifeAt(s, j)
  }

  /**
   * Fencing tokens of successive holders strictly increase exactly as long as no acquisition
   * follows a release: the deleted row takes its counter with it.
   */
  lemma TokensIncreaseExactly(es: seq<Step>)
    requires Run(INITIAL, es)
    ensures Inv(After(INITIAL, es))
    ensures TokensIncrease(After(INITIAL, es)) <==> OneLife(After(INITIAL, es))
  {
    ReachableInv(es);
    var s := After(INITIAL, es);
    if OneLife(s) {
      forall i, j | 0 <= i < j < |s.issued| ensures TokenAt(s, i) < TokenAt(s, j) {
        GrantsGrow(s, i, j);
      }
    } else {
      var i, j :| 0 <= i < j < |s.issued| && LifeAt(s, i) != LifeAt(s, j);
      var k := NewLifeBetween(s, i, j);
      assert IssuedOk(s, s.issued[k - 1]);
      assert TokenAt(s, k - 1) >= TokenAt(s, k);
    }
  }

  lemma {:induction false} NewLifeBetween(s: State, i: nat, j: nat) returns (k: nat)
    requires Inv(s) && i < j < |s.issued| && LifeAt(s, i) != LifeAt(s, j)
    ensures i < k <= j && TokenAt(s, k) == 1
    decreases j
  {
    assert Succeeds(s.ticks[s.issued[j - 1]], s.ticks[s.issued[j]]);
    if LifeAt(s, j - 1) != LifeAt(s, j) {
      k := j;
    } else {
      k := NewLifeBetween(s, i, j - 1);
    }
  }

  // ----- Who matches the stored row --------------------------------------------------------

  /** The tick that acquired last. */
  function Holder(s: State): nat
    requires s.issued != []
  {
    s.issued[|s.issued| - 1]
  }

  /** The stored row carries the tick's worker and token, so the guards of the service accept it. */
  predicate Matches(s: State, id: nat) {
    id < |s.ticks| && Holds(s.row, s.ticks[id].worker, s.ticks[id].token)
  }

  /**
   * Besides the holder, a tick matches the stored row only if it acquired in an earlier life of the
   * row, for the same worker and with the same token.
   */
  lemma MatchExact(s: State, id: nat)
    requires Inv(s) && id in s.issued
    ensures id < |s.ticks|
    ensures Matches(s, id) <==>
      && s.row.Some?
      && var h := s.ticks[Holder(s)];
         || id == Holder(s)
         || (s.ticks[id].rounds < s.deletions && s.ticks[id].worker == h.worker && s.ticks[id].token == h.token)
  {
    var k :| 0 <= k < |s.issued| && s.issued[k] == id;
    assert IssuedOk(s, s.issued[k]);
    if id != Holder(s) {
      GrantsGrow(s, k, |s.issued| - 1);
    }
  }

  /** While no row has been deleted, the holder alone matches, whatever the workers do. */
  lemma HolderAloneBeforeRelease(s: State, id: nat)
    requires Inv(s) && s.deletions == 0 && id in s.issued
    ensures Matches(s, id) <==> s.row.Some? && id == Holder(s)
  {
    MatchExact(s, id);
  }

  // ----- The fencing check ------------------------------------------------------------------

  /** What `isFencingTokenCurrent` finds for the token of this tick. */
  predicate TokenCurrent(s: State, id: nat) {
    id < |s.ticks| && CarriesToken(s.row, s.ticks[id].token)
  }

  /**
   * The check passes for the holder, and for exactly those ticks of an earlier life of the row that were
   * issued the same token, whoever their worker is: after a takeover and a release it can pass for a
   * tick that has long been replaced.
   */
  lemma {:induction false} FencingCheckExact(s: State, id: nat)
    requires Inv(s) && id in s.issued
    ensures id < |s.ticks|
    ensures TokenCurrent(s, id) <==>
      && s.row.Some?
      && (id == Holder(s) || (s.ticks[id].rounds < s.deletions && s.ticks[id].token == s.ticks[Holder(s)].token))
  {
    var k :| 0 <= k < |s.issued| && s.issued[k] == id;
    assert IssuedOk(s, s.issued[k]);
    if id != Holder(s) {
      GrantsGrow(s, k, |s.issued| - 1);
    }
  }

  /**
   * Until a first row is deleted the check means what it promises: nobody has taken over since the token
   * was issued.
   */
  lemma {:induction false} FencingCheckBeforeRelease(es: seq<Step>, id: nat)
    requires Run(INITIAL, es) && After(INITIAL, es).deletions == 0 && id in After(INITIAL, es).issued
    ensures TokenCurrent(After(INITIAL, es), id) <==>
            After(INITIAL, es).row.Some? && id == Holder(After(INITIAL, es))
  {
    ReachableInv(es);
    FencingCheckExact(After(INITIAL, es), id);
  }

  // ----- Steps on the row --------------------------------------------------------------------

  /** A renewal that the service grants. */
  predicate Granted(s: State, e: Step) {
    e.Land? && Matches(s, e.id) && s.row.value.expiresAt > e.now
  }

  predicate GrantedIn(s: State, es: seq<Step>)
    requires Run(s, es)
    decreases es
  {
    es != [] && (Granted(s, es[0]) || GrantedIn(Apply(s, es[0]), es[1..]))
  }

  /** A renewal of a matching tick whose clock reading is older than an expiry that has passed. */
  predicate Stale(s: State, e: Step) {
    e.Land? && Matches(s, e.id) && e.now < s.row.value.expiresAt <= s.clock
  }

  predicate StaleIn(s: State, es: seq<Step>)
    requires Run(s, es)
    decreases es
  {
    es != [] && (Stale(s, es[0]) || StaleIn(Apply(s, es[0]), es[1..]))
  }

  predicate NobodyAcquires(s: State, es: seq<Step>)
    requires Run(s, es)
    decreases es
  {
    es == [] || (Apply(s, es[0]).issued == s.issued && NobodyAcquires(Apply(s, es[0]), es[1..]))
  }

  lemma StepOnLapsed(s: State, e: Step)
    requires Enabled(s, e) && Apply(s, e).issued == s.issued
    requires s.row.Some? ==> s.row.value.expiresAt <= s.clock
    ensures Granted(s, e) <==> Stale(s, e)
    ensures !Granted(s, e) ==> Apply(s, e).row == s.row || Apply(s, e).row == None
    ensures !Granted(s, e) && Apply(s, e).row.Some? ==> Apply(s, e).row.value.expiresAt <= Apply(s, e).clock
  {
  }

  /**
   * A lapsed lease that nobody acquires is renewed in a run exactly when a matching tick sends a clock
   * reading older than the expiry; without such a reading the row stays as it is until it is deleted.
   */
  lemma {:induction false} LapsedRenewedExactly(s: State, es: seq<Step>)
    requires Run(s, es) && NobodyAcquires(s, es)
    requires s.row.Some? ==> s.row.value.expiresAt <= s.clock
    ensures GrantedIn(s, es) <==> StaleIn(s, es)
    ensures !StaleIn(s, es) ==> After(s, es).row == s.row || After(s, es).row == None
    decreases es
  {
    if es != [] {
      StepOnLapsed(s, es[0]);
      if !Granted(s, es[0]) {
        LapsedRenewedExactly(Apply(s, es[0]), es[1..]);
      }
    }
  }

  /**
   * The release deletes exactly a row of the releasing worker; it is the tick's own row exactly when the
   * tick is the holder.
   */
  lemma ReleaseExact(s: State, id: nat)
    requires Inv(s) && Enabled(s, DeleteRow(id))
    ensures Apply(s, DeleteRow(id)).row != s.row <==>
            s.row.Some? && s.ticks[Holder(s)].worker == s.ticks[id].worker
  {
  }

  // ----- The lost flag ------------------------------------------------------------------------

  /** States from which a tick can no longer release: it gave up the lease, or will when its body returns. */
  predicate Barred(t: Tick) {
    t.phase in {Kept, Threw, Crashed} || (t.phase == Running && t.lost)
  }

  lemma StepKeepsTick(s: State, e: Step, id: nat)
    requires Enabled(s, e) && id < |s.ticks|
    ensures id < |Apply(s, e).ticks|
    ensures s.ticks[id].lost ==> Apply(s, e).ticks[id].lost
    ensures Ended(s.ticks[id].phase) ==> Apply(s, e).ticks[id].phase == s.ticks[id].phase
    ensures Barred(s.ticks[id]) ==> Barred(Apply(s, e).ticks[id]) && e != DeleteRow(id)
  {
  }

  /**
   * Over any run the lost flag stays set, and a tick that threw, crashed, or whose renewal failed
   * while its body was running never deletes the row.
   */
  lemma {:induction false} BarredNeverReleases(s: State, es: seq<Step>, id: nat)
    requires Run(s, es) && id < |s.ticks|
    ensures id < |After(s, es).ticks|
    ensures s.ticks[id].lost ==> After(s, es).ticks[id].lost
    ensures Barred(s.ticks[id]) ==> Barred(After(s, es).ticks[id]) && DeleteRow(id) !in es
    decreases es
  {
    if es != [] {
      StepKeepsTick(s, es[0], id);
      BarredNeverReleases(Apply(s, es[0]), es[1..], id);
      assert es == [es[0]] + es[1..];
    }
  }

  /** This step is a renewal of the tick that is not granted. */
  predicate Refused(s: State, e: Step, id: nat) {
    || e == Error(id)
    || (e.Land? && e.id == id && !(Matches(s, id) && s.row.value.expiresAt > e.now))
  }

  predicate RefusedIn(s: State, es: seq<Step>, id: nat)
    requires Run(s, es)
    decreases es
  {
    es != [] && (Refused(s, es[0], id) || RefusedIn(Apply(s, es[0]), es[1..], id))
  }

  predicate Lost(s: State, id: nat) {
    id < |s.ticks| && s.ticks[id].lost
  }

  lemma StepSetsLost(s: State, e: Step, id: nat)
    requires Enabled(s, e)
    ensures Lost(Apply(s, e), id) <==> Lost(s, id) || Refused(s, e, id)
  {
  }

  /** Over any run the lost flag is set exactly by a refused renewal of the tick, and by nothing any other tick does. */
  lemma {:induction false} LostExactly(s: State, es: seq<Step>, id: nat)
    requires Run(s, es)
    ensures Lost(After(s, es), id) <==> Lost(s, id) || RefusedIn(s, es, id)
    decreases es
  {
    if es != [] {
      StepSetsLost(s, es[0], id);
      LostExactly(Apply(s, es[0]), es[1..], id);
    }
  }

  /** Nothing but the tick's own delete, an exception or a crash ends the time between its return and its release. */
  predicate Undisturbed(es: seq<Step>, id: nat) {
    DeleteRow(id) !in es && Throw(id) !in es && Crash(id) !in es
  }

  predicate Decided(t: Tick) {
    t.phase == Releasing || t.phase == Kept
  }

  lemma StepKeepsDecision(s: State, e: Step, id: nat)
    requires Enabled(s, e) && id < |s.ticks| && Decided(s.ticks[id]) && Undisturbed([e], id)
    ensures id < |Apply(s, e).ticks| && Apply(s, e).ticks[id].phase == s.ticks[id].phase
  {
    assert e in [e];
  }

  lemma {:induction false} DecisionStands(s: State, es: seq<Step>, id: nat)
    requires Run(s, es) && id < |s.ticks| && Decided(s.ticks[id]) && Undisturbed(es, id)
    ensures id < |After(s, es).ticks| && After(s, es).ticks[id].phase == s.ticks[id].phase
    decreases es
  {
    if es != [] {
      assert es == [es[0]] + es[1..];
      StepKeepsDecision(s, es[0], id);
      DecisionStands(Apply(s, es[0]), es[1..], id);
    }
  }

  /**
   * The release is decided when the body returns, for every run and every tick: from then on the delete
   * can run exactly if no renewal of the tick was refused before. Renewals refused later change nothing.
   */
  lemma {:induction false} ReleasesExactlyUnrefused(es: seq<Step>, id: nat, later: seq<Step>)
    requires Run(INITIAL, es) && Enabled(After(INITIAL, es), Return(id))
    requires Run(Apply(After(INITIAL, es), Return(id)), later) && Undisturbed(later, id)
    ensures Enabled(After(Apply(After(INITIAL, es), Return(id)), later), DeleteRow(id)) <==> !RefusedIn(INITIAL, es, id)
  {
    LostExactly(INITIAL, es, id);
    DecisionStands(Apply(After(INITIAL, es), Return(id)), later, id);
  }

  /** One heartbeat of the tick as it is written and as the protocol has it: same row, same lost flag. */
  lemma HeartbeatAgrees(s: State, id: nat, beat: Beat)
    requires id < |s.ticks| && s.ticks[id].phase == Running
    requires beat.row == s.row && beat.now <= s.clock
    ensures
      var t, fired := s.ticks[id], Apply(s, Fire(id));
      var e := if beat.answers then Land(id, beat.now, beat.now) else Error(id);
      && Enabled(fired, e)
      && (Apply(fired, e).ticks[id].lost <==> t.lost || !Renews(beat, t.worker, t.token))
      && Apply(fired, e).row == (if Renews(beat, t.worker, t.token) then Some(Row(t.worker, t.token, beat.now + t.ttl))
                                 else s.row)
  {
  }

  // ----- Workers that acquire one tick at a time ------------------------------------------------

  /** The worker whose tick this step could let acquire. */
  function Acquirer(s: State, e: Step): string
    requires Enabled(s, e)
  {
    match e
    case Start(worker, _, _) => worker
    case Conditional(id, _) => s.ticks[id].worker
    case _ => ""
  }

  /**
   * A worker acquires only when all its ticks that acquired before have ended. Attempts that find the
   * row taken, by another worker or by a tick of its own that still runs, are always allowed.
   */
  predicate Disciplined(s: State, e: Step)
    requires Enabled(s, e)
  {
    Apply(s, e).issued != s.issued ==>
      forall k | 0 <= k < |s.issued| && s.issued[k] < |s.ticks| && s.ticks[s.issued[k]].worker == Acquirer(s, e) ::
        Ended(s.ticks[s.issued[k]].phase)
  }

  predicate DisciplinedRun(s: State, es: seq<Step>)
    requires Run(s, es)
    decreases es
  {
    es == [] || (Disciplined(s, es[0]) && DisciplinedRun(Apply(s, es[0]), es[1..]))
  }

  /** Of the ticks with which a worker acquired, all but the last have ended. */
  predicate OneAtATime(s: State) {
    && (forall k | 0 <= k < |s.issued| :: s.issued[k] < |s.ticks|)
    && (forall k, l | 0 <= k < l < |s.issued| && s.ticks[s.issued[k]].worker == s.ticks[s.issued[l]].worker ::
          Ended(s.ticks[s.issued[k]].phase))
  }

  lemma WorkersStay(s: State, e: Step)
    requires Enabled(s, e)
    ensures |s.ticks| <= |Apply(s, e).ticks|
    ensures forall i | 0 <= i < |s.ticks| :: Apply(s, e).ticks[i].worker == s.ticks[i].worker
  {
  }

  /** A step lets at most one tick acquire, one of its acquirer. */
  lemma IssuedGrows(s: State, e: Step)
    requires Enabled(s, e)
    ensures var s' := Apply(s, e);
            s'.issued == s.issued ||
            exists id: nat :: s'.issued == s.issued + [id] && id < |s'.ticks| && s'.ticks[id].worker == Acquirer(s, e)
  {
    var s' := Apply(s, e);
    match e
    case Start(_, _, _) => assert s'.issued != s.issued ==> s'.issued == s.issued + [|s.ticks|];
    case Conditional(id, _) => assert s'.issued != s.issued ==> s'.issued == s.issued + [id];
    case _ =>
  }

  lemma {:induction false} StepKeepsDiscipline(s: State, e: Step)
    requires Inv(s) && OneAtATime(s) && Enabled(s, e) && Disciplined(s, e)
    ensures Inv(Apply(s, e)) && OneAtATime(Apply(s, e))
  {
    var s' := Apply(s, e);
    StepKeepsInv(s, e);
    IssuedGrows(s, e);
    WorkersStay(s, e);
    forall k | 0 <= k < |s'.issued| ensures s'.issued[k] < |s'.ticks| {
      assert IssuedOk(s', s'.issued[k]);
    }
    forall k, l | 0 <= k < l < |s'.issued| && s'.ticks[s'.issued[k]].worker == s'.ticks[s'.issued[l]].worker
      ensures Ended(s'.ticks[s'.issued[k]].phase)
    {
      assert s'.issued[k] == s.issued[k];
      assert Ended(s.ticks[s.issued[k]].phase);
      StepKeepsTick(s, e, s.issued[k]);
    }
  }

  lemma {:induction false} DisciplineKept(s: State, es: seq<Step>)
    requires Inv(s) && OneAtATime(s) && Run(s, es) && DisciplinedRun(s, es)
    ensures Inv(After(s, es)) && OneAtATime(After(s, es))
    decreases es
  {
    if es != [] {
      StepKeepsDiscipline(s, es[0]);
      DisciplineKept(Apply(s, es[0]), es[1..]);
    }
  }

  /** An unfinished tick that matches the row is the holder. */
  lemma UnfinishedMatchIsHolder(s: State, id: nat)
    requires Inv(s) && OneAtATime(s) && id in s.issued && id < |s.ticks| && !Ended(s.ticks[id].phase)
    requires s.row.Some? && s.ticks[Holder(s)].worker == s.ticks[id].worker
    ensures id == Holder(s)
  {
    var k :| 0 <= k < |s.issued| && s.issued[k] == id;
    var last := |s.issued| - 1;
    assert IssuedOk(s, s.issued[last]);
    var own, holder := s.ticks[s.issued[k]], s.ticks[s.issued[last]];
    assert own.worker == holder.worker;
  }

  predicate Unfinished(s: State, id: nat) {
    id in s.issued && id < |s.ticks| && !Ended(s.ticks[id].phase)
  }

  lemma HolderAloneIn(s: State, id: nat)
    requires Inv(s) && OneAtATime(s) && Unfinished(s, id)
    ensures Matches(s, id) <==> s.row.Some? && id == Holder(s)
    ensures Enabled(s, DeleteRow(id)) ==>
              (Apply(s, DeleteRow(id)).row != s.row <==> s.row.Some? && id == Holder(s))
  {
    MatchExact(s, id);
    if s.row.Some? && s.ticks[Holder(s)].worker == s.ticks[id].worker {
      UnfinishedMatchIsHolder(s, id);
    }
    if Enabled(s, DeleteRow(id)) {
      ReleaseExact(s, id);
    }
  }

  /**
   * If no worker acquires while an earlier tick of it that acquired is unfinished, then in every reachable
   * state at most one unfinished tick, the holder, matches the stored row, and a release can only delete
   * the releasing tick's own row. Ended ticks are another matter: a renewal they sent may still be under
   * way.
   */
  lemma HolderAlone(es: seq<Step>, id: nat)
    requires Run(INITIAL, es) && DisciplinedRun(INITIAL, es)
    requires Unfinished(After(INITIAL, es), id)
    ensures
      var s := After(INITIAL, es);
      && (Matches(s, id) <==> s.row.Some? && id == Holder(s))
      && (Enabled(s, DeleteRow(id)) ==>
            (Apply(s, DeleteRow(id)).row != s.row <==> s.row.Some? && id == Holder(s)))
  {
    DisciplineKept(INITIAL, es);
    HolderAloneIn(After(INITIAL, es), id);
  }

  /** The holder is running and its lease has not expired. */
  predicate Alive(s: State, id: nat) {
    && s.issued != [] && id == Holder(s) && id < |s.ticks| && s.ticks[id].phase == Running
    && s.row.Some? && s.clock < s.row.value.expiresAt
  }
}

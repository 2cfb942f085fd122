/**
 * Mutual exclusion by leases, and who can renew, when workers acquire one tick at a time: what holds in
 * general, and what it takes that renewals still under way do no harm.
 */
module LeaseExclusion {

  import opened Sequences
  import opened JobLease
  import opened LeaseProtocol
  import opened LeaseSafety

  // ----- The discipline, with renewals ----------------------------------------------------

  /** Only ticks that acquired run, release or have renewals under way. */
  ghost predicate OnlyIssuedAct(s: State) {
    forall i | 0 <= i < |s.ticks| && (s.ticks[i].inFlight > 0 || s.ticks[i].phase in {Running, Releasing}) ::
        i in s.issued
  }

  lemma SetKeepsActing(s: State, id: nat, t: Tick)
    requires OnlyIssuedAct(s) && id < |s.ticks|
    requires t.inFlight > 0 || t.phase in {Running, Releasing} ==> id in s.issued
    ensures OnlyIssuedAct(Set(s, id, t))
  {
  }

  lemma StepKeepsActing(s: State, e: Step)
    requires OnlyIssuedAct(s) && Enabled(s, e)
    ensures OnlyIssuedAct(Apply(s, e))
  {
    match e
    case Advance(_) =>
    case Start(worker, ttl, issuedAt) =>
      forall i | 0 <= i < |s.ticks| ensures Apply(s, e).ticks[i] == s.ticks[i] {
      }
    case Conditional(id, now) =>
      forall i | 0 <= i < |s.ticks| && i != id ensures Apply(s, e).ticks[i] == s.ticks[i] {
      }
    case _ => SetKeepsActing(s, e.id, Apply(s, e).ticks[e.id]);
  }

  /** What every disciplined run keeps. */
  ghost predicate Orderly(s: State) {
    Inv(s) && OneAtATime(s) && OnlyIssuedAct(s)
  }

  lemma StepKeepsOrder(s: State, e: Step)
    requires Orderly(s) && Enabled(s, e) && Disciplined(s, e)
    ensures Orderly(Apply(s, e))
  {
    StepKeepsDiscipline(s, e);
    StepKeepsActing(s, e);
  }

  lemma {:induction false} OrderKept(s: State, es: seq<Step>)
    requires Orderly(s) && Run(s, es) && DisciplinedRun(s, es)
    ensures Orderly(After(s, es))
    decreases es
  {
    if es != [] {
      StepKeepsOrder(s, es[0]);
      OrderKept(Apply(s, es[0]), es[1..]);
    }
  }

  lemma {:induction false} OrderReached(es: seq<Step>)
    requires Run(INITIAL, es) && DisciplinedRun(INITIAL, es)
    ensures Orderly(After(INITIAL, es))
  {
    OrderKept(INITIAL, es);
  }

  // ----- Whose renewals are granted --------------------------------------------------------

  /** An ended tick of an earlier life of the row, of the holder's worker and with the holder's token. */
  predicate FormerSelf(s: State, id: nat)
    requires s.issued != [] && Holder(s) < |s.ticks| && id < |s.ticks|
  {
    var h := s.ticks[Holder(s)];
    && Ended(s.ticks[id].phase) && s.ticks[id].rounds < s.deletions
    && s.ticks[id].worker == h.worker && s.ticks[id].token == h.token
  }

  lemma HolderIsTick(s: State)
    requires Inv(s) && s.row.Some?
    ensures s.issued != [] && Holder(s) < |s.ticks|
  {
    assert IssuedOk(s, s.issued[|s.issued| - 1]);
  }

  lemma MatchesExactly(s: State, id: nat)
    requires Orderly(s) && id in s.issued && s.row.Some?
    ensures s.issued != [] && Holder(s) < |s.ticks| && id < |s.ticks|
    ensures Matches(s, id) <==> id == Holder(s) || FormerSelf(s, id)
  {
    HolderIsTick(s);
    MatchExact(s, id);
    if Matches(s, id) && id != Holder(s) && !Ended(s.ticks[id].phase) {
      UnfinishedMatchIsHolder(s, id);
    }
  }

  /**
   * In every state reached by workers that acquire one tick at a time, for every renewal under way: it is
   * granted exactly if the row is unexpired at its reading and its tick is the holder or an ended former
   * self of the holder.
   */
  lemma {:induction false} RenewedExactly(es: seq<Step>, id: nat, now: int, later: int)
    requires Run(INITIAL, es) && DisciplinedRun(INITIAL, es)
    requires Enabled(After(INITIAL, es), Land(id, now, later))
    ensures var s := After(INITIAL, es);
            && (s.row.Some? ==> s.issued != [] && Holder(s) < |s.ticks|)
            && (Granted(s, Land(id, now, later)) <==>
                s.row.Some? && now < s.row.value.expiresAt && (id == Holder(s) || FormerSelf(s, id)))
  {
    OrderReached(es);
    LandExactly(After(INITIAL, es), id, now, later);
  }

  lemma LandExactly(s: State, id: nat, now: int, later: int)
    requires Orderly(s) && Enabled(s, Land(id, now, later))
    ensures s.row.Some? ==> s.issued != [] && Holder(s) < |s.ticks|
    ensures Granted(s, Land(id, now, later)) <==>
            s.row.Some? && now < s.row.value.expiresAt && (id == Holder(s) || FormerSelf(s, id))
  {
    if s.row.Some? {
      MatchesExactly(s, id);
    }
  }

  // ----- Mutual exclusion ---------------------------------------------------------------------

  /** The tick is unfinished, and the expiry last granted to it is still to come. */
  predicate Live(s: State, id: nat) {
    id < |s.ticks| && !Ended(s.ticks[id].phase) && s.ticks[id].granted.Some? && s.clock < s.ticks[id].granted.value
  }

  ghost predicate Exclusive(s: State) {
    forall i, j | Live(s, i) && Live(s, j) :: i == j
  }

  /** A live tick is the holder of a stored row, and the row runs at least as long as it was granted. */
  ghost predicate Guarded(s: State)
    requires Inv(s)
  {
    && (forall i | Live(s, i) :: s.row.Some? && s.issued != [] && i == Holder(s))
    && (s.row.Some? ==> Promised(s))
  }

  predicate Promised(s: State) {
    && s.row.Some? && s.issued != [] && Holder(s) < |s.ticks|
    && (Live(s, Holder(s)) ==> s.ticks[Holder(s)].granted.value <= s.row.value.expiresAt)
  }

  /** The renewal of another tick is granted, and cuts the row short of what its live holder was granted. */
  predicate Shortens(s: State, e: Step) {
    && Granted(s, e) && s.issued != [] && e.id != Holder(s) && Live(s, Holder(s))
    && e.later + s.ticks[e.id].ttl < s.ticks[Holder(s)].granted.value
  }

  /** Ticks that are live after a step that grants nothing were live before. */
  ghost predicate NoNewLife(s: State, s': State) {
    forall i | Live(s', i) :: Live(s, i)
  }

  lemma SetNoNewLife(s: State, id: nat, t: Tick)
    requires id < |s.ticks| && t.granted == s.ticks[id].granted
    requires Ended(s.ticks[id].phase) ==> Ended(t.phase)
    ensures NoNewLife(s, Set(s, id, t))
    ensures Ended(t.phase) ==> !Live(Set(s, id, t), id)
  {
  }

  lemma AcquiredGuarded(s: State, id: nat, t: Tick, row: Row)
    requires id < |s.ticks| && t == s.ticks[id] && Inv(Acquired(s, id, t, row))
    requires forall i: nat :: !Live(s, i)
    ensures Guarded(Acquired(s, id, t, row))
  {
    OthersLiveBefore(s, id, t, row);
    assert Holder(Acquired(s, id, t, row)) == id;
  }

  lemma OthersLiveBefore(s: State, id: nat, t: Tick, row: Row)
    requires id < |s.ticks|
    ensures forall i: nat | i != id && Live(Acquired(s, id, t, row), i) :: Live(s, i)
  {
  }

  lemma StartGuarded(s: State, e: Step)
    requires Orderly(s) && Guarded(s) && e.Start? && Enabled(s, e) && Inv(Apply(s, e))
    ensures Guarded(Apply(s, e))
  {
    var begun := Begun(e.worker, e.ttl, e.issuedAt);
    var started := s.(ticks := s.ticks + [begun]);
    BegunKeepsInv(s, begun);
    forall i | Live(started, i) ensures Live(s, i) {
    }
    if s.row.None? {
      AcquiredGuarded(started, |s.ticks|, begun, Insert(s.row, e.worker, e.issuedAt + e.ttl).value);
    } else {
      assert Apply(s, e) == started;
    }
  }

  lemma ConditionalGuarded(s: State, e: Step)
    requires Orderly(s) && Guarded(s) && e.Conditional? && Enabled(s, e) && Inv(Apply(s, e))
    ensures Guarded(Apply(s, e))
  {
    var t := s.ticks[e.id];
    match JobLease.TakeOver(s.row, t.worker, e.now, t.phase.expiresAt)
    case Some(row) =>
      assert forall i: nat :: !Live(s, i);
      AcquiredGuarded(s, e.id, t, row);
    case None =>
      SetNoNewLife(s, e.id, t.(phase := Skipped));
      SetKeepsPromise(s, e.id, t.(phase := Skipped));
  }

  lemma SetKeepsPromise(s: State, id: nat, t: Tick)
    requires id < |s.ticks| && t.granted == s.ticks[id].granted
    requires Ended(s.ticks[id].phase) ==> Ended(t.phase)
    ensures Promised(s) ==> Promised(Set(s, id, t))
  {
  }

  lemma LandGuarded(s: State, e: Step)
    requires Orderly(s) && Guarded(s) && e.Land? && Enabled(s, e) && Inv(Apply(s, e)) && !Shortens(s, e)
    ensures Guarded(Apply(s, e))
  {
    var s' := Apply(s, e);
    if Granted(s, e) {
      MatchesExactly(s, e.id);
      assert s'.issued == s.issued;
      forall i: nat | Live(s', i) ensures i == Holder(s) {
        assert i != e.id ==> s'.ticks[i] == s.ticks[i] && Live(s, i);
      }
    } else {
      var t := s.ticks[e.id].(inFlight := s.ticks[e.id].inFlight - 1, lost := true);
      assert s' == Set(s, e.id, t);
      SetNoNewLife(s, e.id, t);
      SetKeepsPromise(s, e.id, t);
    }
  }

  lemma ReleaseIsOwn(s: State, id: nat)
    requires Orderly(s) && Enabled(s, DeleteRow(id))
    ensures
      || Apply(s, DeleteRow(id)).row == s.row
      || (Apply(s, DeleteRow(id)).row == None && s.issued != [] && id == Holder(s))
  {
    if s.row.Some? {
      HolderIsTick(s);
      if s.ticks[Holder(s)].worker == s.ticks[id].worker {
        UnfinishedMatchIsHolder(s, id);
      }
    }
  }

  lemma DeleteGuarded(s: State, e: Step)
    requires Orderly(s) && Guarded(s) && e.DeleteRow? && Enabled(s, e) && Inv(Apply(s, e))
    ensures Guarded(Apply(s, e))
  {
    var t := s.ticks[e.id].(phase := Released);
    ReleaseIsOwn(s, e.id);
    SetNoNewLife(s, e.id, t);
    SetKeepsPromise(s, e.id, t);
    forall i | Live(Apply(s, e), i) ensures Live(s, i) && i != e.id {
      assert Live(Set(s, e.id, t), i);
    }
  }

  lemma LocalGuarded(s: State, e: Step)
    requires Orderly(s) && Guarded(s) && Enabled(s, e) && Inv(Apply(s, e))
    requires e.Fire? || e.Error? || e.Return? || e.Throw? || e.Crash?
    ensures Guarded(Apply(s, e))
  {
    var t := Apply(s, e).ticks[e.id];
    assert Apply(s, e) == Set(s, e.id, t);
    SetNoNewLife(s, e.id, t);
    SetKeepsPromise(s, e.id, t);
  }

  lemma StepKeepsGuard(s: State, e: Step)
    requires Orderly(s) && Guarded(s) && Enabled(s, e) && Disciplined(s, e) && !Shortens(s, e)
    ensures Inv(Apply(s, e)) && Guarded(Apply(s, e))
  {
    StepKeepsInv(s, e);
    match e
    case Advance(_) => AdvanceGuarded(s, e);
    case Start(_, _, _) => StartGuarded(s, e);
    case Conditional(_, _) => ConditionalGuarded(s, e);
    case Land(_, _, _) => LandGuarded(s, e);
    case DeleteRow(_) => DeleteGuarded(s, e);
    case _ => LocalGuarded(s, e);
  }

  lemma AdvanceGuarded(s: State, e: Step)
    requires Inv(s) && Guarded(s) && e.Advance? && Enabled(s, e) && Inv(Apply(s, e))
    ensures Guarded(Apply(s, e))
  {
    forall i | Live(Apply(s, e), i) ensures Live(s, i) {
    }
  }

  /** No renewal of the run cuts a row short of what its live holder was granted. */
  predicate NeverShortened(s: State, es: seq<Step>)
    requires Run(s, es)
    decreases es
  {
    es == [] || (!Shortens(s, es[0]) && NeverShortened(Apply(s, es[0]), es[1..]))
  }

  lemma {:induction false} GuardKept(s: State, es: seq<Step>)
    requires Orderly(s) && Guarded(s) && Run(s, es) && DisciplinedRun(s, es) && NeverShortened(s, es)
    ensures Orderly(After(s, es)) && Guarded(After(s, es))
    decreases es
  {
    if es != [] {
      StepKeepsOrder(s, es[0]);
      StepKeepsGuard(s, es[0]);
      GuardKept(Apply(s, es[0]), es[1..]);
    }
  }

  /**
   * Mutual exclusion: in every state that a run reaches in which workers acquire one tick at a time and no
   * granted renewal cuts a row short of what its live holder was granted, at most one unfinished tick has
   * its last granted expiry still to come.
   */
  lemma {:induction false} ExclusiveUnlessShortened(es: seq<Step>)
    requires Run(INITIAL, es) && DisciplinedRun(INITIAL, es) && NeverShortened(INITIAL, es)
    ensures Exclusive(After(INITIAL, es))
  {
    GuardKept(INITIAL, es);
  }

  // ----- One shortened row is enough -------------------------------------------------------------

  function LongerThanAll(ticks: seq<Tick>): (worker: string)
    ensures forall t | t in ticks :: |t.worker| < |worker|
  {
    if ticks == [] then ""
    else
      var rest := LongerThanAll(ticks[1..]);
      (if |ticks[0].worker| < |rest| then rest else ticks[0].worker) + "+"
  }

  /** The steps with which a new worker takes over a row at its expiry. */
  function Takeover(s: State): seq<Step>
    requires s.row.Some?
  {
    var expiry := s.row.value.expiresAt;
    var wait: nat := if s.clock < expiry then expiry - s.clock else 0;
    [Advance(wait), Start(LongerThanAll(s.ticks), 1, s.clock + wait), Conditional(|s.ticks|, s.clock + wait)]
  }

  /** The state after such a takeover. */
  function TakenOver(s: State): State
    requires s.row.Some?
  {
    var expiry := s.row.value.expiresAt;
    var clock := if s.clock < expiry then expiry else s.clock;
    var worker, row := LongerThanAll(s.ticks), Row(LongerThanAll(s.ticks), s.row.value.token + 1, clock + 1);
    var begun := Begun(worker, 1, clock);
    Acquired(s.(clock := clock, ticks := s.ticks + [begun]), |s.ticks|, begun, row)
  }

  /** A run of one step, and a step in front of a run. */
  lemma {:induction false} RunOne(s: State, e: Step)
    requires Enabled(s, e) && Disciplined(s, e) && !Shortens(s, e)
    ensures Run(s, [e]) && After(s, [e]) == Apply(s, e) && DisciplinedRun(s, [e]) && NeverShortened(s, [e])
  {
    assert [e][1..] == [];
  }

  lemma {:induction false} RunCons(s: State, e: Step, es: seq<Step>)
    requires Enabled(s, e) && Disciplined(s, e) && !Shortens(s, e)
    requires Run(Apply(s, e), es) && DisciplinedRun(Apply(s, e), es) && NeverShortened(Apply(s, e), es)
    ensures Run(s, [e] + es) && After(s, [e] + es) == After(Apply(s, e), es)
    ensures DisciplinedRun(s, [e] + es) && NeverShortened(s, [e] + es)
  {
    assert ([e] + es)[1..] == es;
  }

  lemma {:induction false} TakeoverRuns(s: State)
    requires s.row.Some? && forall k | 0 <= k < |s.issued| :: s.issued[k] < |s.ticks|
    ensures Run(s, Takeover(s)) && After(s, Takeover(s)) == TakenOver(s)
    ensures DisciplinedRun(s, Takeover(s)) && NeverShortened(s, Takeover(s))
  {
    var es := Takeover(s);
    var waited := Apply(s, es[0]);
    var started := Apply(waited, es[1]);
    TakeoverSteps(s);
    RunOne(started, es[2]);
    RunCons(waited, es[1], [es[2]]);
    RunCons(s, es[0], [es[1]] + [es[2]]);
    assert es == [es[0]] + ([es[1]] + [es[2]]);
  }

  lemma {:induction false} TakeoverSteps(s: State)
    requires s.row.Some? && forall k | 0 <= k < |s.issued| :: s.issued[k] < |s.ticks|
    ensures Enabled(s, Takeover(s)[0]) && Disciplined(s, Takeover(s)[0])
    ensures var es, waited := Takeover(s), Apply(s, Takeover(s)[0]);
            Enabled(waited, es[1]) && Disciplined(waited, es[1])
    ensures var es, started := Takeover(s), Apply(Apply(s, Takeover(s)[0]), Takeover(s)[1]);
            Enabled(started, es[2]) && Disciplined(started, es[2]) && Apply(started, es[2]) == TakenOver(s)
  {
    var es := Takeover(s);
    var waited := Apply(s, es[0]);
    var started := Apply(waited, es[1]);
    var begun := Begun(LongerThanAll(s.ticks), 1, waited.clock);
    assert started == s.(clock := waited.clock, ticks := s.ticks + [begun]);
    forall k | 0 <= k < |s.issued| ensures started.ticks[s.issued[k]].worker != LongerThanAll(s.ticks) {
      assert s.ticks[s.issued[k]] in s.ticks;
    }
  }

  /** A row that ends before a live tick's last granted expiry leads to two live ticks. */
  lemma TakeoverMeetsLive(s: State, id: nat)
    requires s.row.Some? && Live(s, id) && s.row.value.expiresAt < s.ticks[id].granted.value
    ensures !Exclusive(TakenOver(s))
  {
    assert Live(TakenOver(s), id) && Live(TakenOver(s), |s.ticks|) && id != |s.ticks|;
  }

  lemma ShorteningLeavesLive(s: State, e: Step)
    requires Inv(s) && Enabled(s, e) && Shortens(s, e)
    ensures var s' := Apply(s, e);
            && s'.row.Some? && Live(s', Holder(s))
            && s'.row.value.expiresAt < s'.ticks[Holder(s)].granted.value
  {
  }

  /** However the run goes on, as long as workers acquire one tick at a time and no further row is cut short. */
  ghost predicate StaysExclusive(s: State) {
    forall es | Run(s, es) && DisciplinedRun(s, es) && NeverShortened(s, es) :: Exclusive(After(s, es))
  }

  /**
   * Exactly the renewals that cut a row short of what its live holder was granted put exclusion at risk:
   * after any other step it holds in every continuation, and after such a renewal a new worker can take
   * over while the holder still runs inside its lease.
   */
  lemma {:induction false} ExclusionLostExactly(s: State, e: Step)
    requires Orderly(s) && Guarded(s) && Enabled(s, e) && Disciplined(s, e)
    ensures StaysExclusive(Apply(s, e)) <==> !Shortens(s, e)
  {
    StepKeepsOrder(s, e);
    var s' := Apply(s, e);
    if Shortens(s, e) {
      ShorteningLeavesLive(s, e);
      TakeoverRuns(s');
      TakeoverMeetsLive(s', Holder(s));
      assert Run(s', Takeover(s'));
    } else {
      StepKeepsGuard(s, e);
      forall es | Run(s', es) && DisciplinedRun(s', es) && NeverShortened(s', es) ensures Exclusive(After(s', es)) {
        GuardKept(s', es);
      }
    }
  }

  // ----- Workers that wait for their renewals --------------------------------------------------

  /** A worker acquires only when all its ticks that acquired before have ended and their renewals are answered. */
  predicate Settled(s: State, e: Step)
    requires Enabled(s, e)
  {
    Apply(s, e).issued != s.issued ==>
      forall k | 0 <= k < |s.issued| && s.issued[k] < |s.ticks| && s.ticks[s.issued[k]].worker == Acquirer(s, e) ::
        Quiet(s.ticks[s.issued[k]])
  }

  predicate Quiet(t: Tick) {
    Ended(t.phase) && t.inFlight == 0
  }

  predicate SettledRun(s: State, es: seq<Step>)
    requires Run(s, es)
    decreases es
  {
    es == [] || (Settled(s, es[0]) && SettledRun(Apply(s, es[0]), es[1..]))
  }

  /** Of the ticks with which a worker acquired, all but the last have ended and have nothing under way. */
  predicate EarlierQuiet(s: State) {
    && (forall k | 0 <= k < |s.issued| :: s.issued[k] < |s.ticks|)
    && (forall k, l | 0 <= k < l < |s.issued| && s.ticks[s.issued[k]].worker == s.ticks[s.issued[l]].worker ::
          Quiet(s.ticks[s.issued[k]]))
  }

  lemma QuietStays(s: State, e: Step, i: nat)
    requires Enabled(s, e) && i < |s.ticks| && Quiet(s.ticks[i])
    ensures i < |Apply(s, e).ticks| && Quiet(Apply(s, e).ticks[i])
  {
  }

  lemma {:induction false} StepKeepsQuiet(s: State, e: Step)
    requires EarlierQuiet(s) && Enabled(s, e) && Settled(s, e)
    ensures EarlierQuiet(Apply(s, e))
  {
    var s' := Apply(s, e);
    IssuedGrows(s, e);
    WorkersStay(s, e);
    forall k, l | 0 <= k < l < |s'.issued| && s'.ticks[s'.issued[k]].worker == s'.ticks[s'.issued[l]].worker
      ensures Quiet(s'.ticks[s'.issued[k]])
    {
      assert s'.issued[k] == s.issued[k];
      assert Quiet(s.ticks[s.issued[k]]);
      QuietStays(s, e, s.issued[k]);
    }
  }

  lemma {:induction false} SettledIsDisciplined(s: State, es: seq<Step>)
    requires Run(s, es) && SettledRun(s, es)
    ensures DisciplinedRun(s, es)
    decreases es
  {
    if es != [] {
      SettledIsDisciplined(Apply(s, es[0]), es[1..]);
    }
  }

  /** Then only the holder's renewals are granted, those of ended ticks included. */
  lemma GrantedIsHolder(s: State, e: Step)
    requires Orderly(s) && EarlierQuiet(s) && Enabled(s, e) && Granted(s, e)
    ensures s.issued != [] && e.id == Holder(s)
  {
    MatchesExactly(s, e.id);
    if FormerSelf(s, e.id) {
      FormerIsQuiet(s, e.id);
    }
  }

  lemma FormerIsQuiet(s: State, id: nat)
    requires Orderly(s) && EarlierQuiet(s) && id in s.issued && s.row.Some?
    requires Holder(s) < |s.ticks| && id < |s.ticks| && s.ticks[id].worker == s.ticks[Holder(s)].worker
    ensures id == Holder(s) || Quiet(s.ticks[id])
  {
    var k :| 0 <= k < |s.issued| && s.issued[k] == id;
    var last := |s.issued| - 1;
    assert k < last ==> s.ticks[s.issued[k]].worker == s.ticks[s.issued[last]].worker;
  }

  lemma {:induction false} SettledKept(s: State, es: seq<Step>)
    requires Orderly(s) && EarlierQuiet(s) && Run(s, es) && SettledRun(s, es)
    ensures Orderly(After(s, es)) && EarlierQuiet(After(s, es)) && NeverShortened(s, es)
    decreases es
  {
    if es != [] {
      if Shortens(s, es[0]) {
        GrantedIsHolder(s, es[0]);
      }
      StepKeepsOrder(s, es[0]);
      StepKeepsQuiet(s, es[0]);
      SettledKept(Apply(s, es[0]), es[1..]);
    }
  }

  /** What every state reached by workers that wait satisfies. */
  lemma {:induction false} SettledReached(es: seq<Step>)
    requires Run(INITIAL, es) && SettledRun(INITIAL, es)
    ensures Orderly(After(INITIAL, es)) && EarlierQuiet(After(INITIAL, es)) && NeverShortened(INITIAL, es)
  {
    SettledKept(INITIAL, es);
  }

  lemma GrantedOnlyToHolder(s: State, e: Step)
    requires Orderly(s) && EarlierQuiet(s) && Enabled(s, e)
    ensures Granted(s, e) ==> s.issued != [] && e.id == Holder(s)
  {
    if Granted(s, e) {
      GrantedIsHolder(s, e);
    }
  }

  /**
   * If no worker acquires before its earlier acquiring ticks have ended and their renewals are answered,
   * then in every state that a run reaches a renewal is granted only to the holder, whether its tick has
   * ended or not.
   */
  lemma {:induction false} OnlyHolderRenews(es: seq<Step>, e: Step)
    requires Run(INITIAL, es) && SettledRun(INITIAL, es) && Enabled(After(INITIAL, es), e)
    ensures Granted(After(INITIAL, es), e) ==> After(INITIAL, es).issued != [] && e.id == Holder(After(INITIAL, es))
  {
    SettledReached(es);
    GrantedOnlyToHolder(After(INITIAL, es), e);
  }

  /** And at most one unfinished tick has its last granted expiry still to come. */
  lemma {:induction false} MutualExclusion(es: seq<Step>)
    requires Run(INITIAL, es) && SettledRun(INITIAL, es)
    ensures Exclusive(After(INITIAL, es))
  {
    SettledKept(INITIAL, es);
    SettledIsDisciplined(INITIAL, es);
    ExclusiveUnlessShortened(es);
  }

  // ----- A tick that renews in time keeps its lease ---------------------------------------------

  /** The reading of the tick's last renewal, after this step. */
  function NextReading(e: Step, id: nat, last: int): int {
    if e.Land? && e.id == id then e.later else last
  }

  function LastReading(es: seq<Step>, id: nat, last: int): int {
    if es == [] then last else LastReading(es[1..], id, NextReading(es[0], id, last))
  }

  /** Before every step the tick is running, and less than one TTL has passed since its last renewal was read. */
  predicate RenewsInTime(s: State, es: seq<Step>, id: nat, last: int)
    requires Run(s, es)
    decreases es
  {
    es == [] ||
    (&& id < |s.ticks| && s.ticks[id].phase == Running && s.clock < last + s.ticks[id].ttl
     && RenewsInTime(Apply(s, es[0]), es[1..], id, NextReading(es[0], id, last)))
  }

  /** The tick holds the row, until one TTL after its last reading. */
  predicate HoldsUntil(s: State, id: nat, last: int) {
    && s.issued != [] && id == Holder(s) && id < |s.ticks|
    && s.row == Some(Row(s.ticks[id].worker, s.ticks[id].token, last + s.ticks[id].ttl))
  }

  /** Every renewal of the tick that reaches the database is granted. */
  predicate NoneRefused(s: State, es: seq<Step>, id: nat)
    requires Run(s, es)
    decreases es
  {
    es == [] ||
    ((es[0].Land? && es[0].id == id ==> Granted(s, es[0])) && NoneRefused(Apply(s, es[0]), es[1..], id))
  }

  lemma StepInTime(s: State, e: Step, id: nat, last: int)
    requires Orderly(s) && EarlierQuiet(s) && Enabled(s, e) && HoldsUntil(s, id, last)
    requires s.ticks[id].phase == Running && s.clock < last + s.ticks[id].ttl
    ensures Apply(s, e).issued == s.issued && HoldsUntil(Apply(s, e), id, NextReading(e, id, last))
    ensures e.Land? && e.id == id ==> Granted(s, e)
  {
    match e
    case Land(other, _, _) =>
      if Granted(s, e) {
        GrantedIsHolder(s, e);
      }
    case DeleteRow(other) => ReleaseIsOwn(s, other);
    case _ =>
  }

  /**
   * Whatever all workers do, the holder's own included: while the holder runs and renews with readings less
   * than one TTL apart, nobody else acquires, every renewal of it that reaches the database is granted, and
   * the row runs until one TTL after the last reading.
   */
  lemma {:induction false} InTimeKeepsLease(s: State, es: seq<Step>, id: nat, last: int)
    requires Orderly(s) && EarlierQuiet(s) && Run(s, es)
    requires HoldsUntil(s, id, last) && RenewsInTime(s, es, id, last)
    ensures After(s, es).issued == s.issued && HoldsUntil(After(s, es), id, LastReading(es, id, last))
    ensures NoneRefused(s, es, id)
    decreases es
  {
    if es != [] {
      StepInTime(s, es[0], id, last);
      StepKeepsOrder(s, es[0]);
      StepKeepsQuiet(s, es[0]);
      InTimeKeepsLease(Apply(s, es[0]), es[1..], id, NextReading(es[0], id, last));
    }
  }
}

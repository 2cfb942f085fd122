/** Runs that show where the guarantees of the job lease end. */
module LeaseScenarios {

  import opened Sequences
  import opened JobLease
  import opened LeaseProtocol
  import opened LeaseSafety
  import opened LeaseExclusion

  /** Running one more step at the end of a run. */
  lemma {:induction false} Extend(s: State, es: seq<Step>, e: Step)
    requires Run(s, es) && Enabled(After(s, es), e)
    ensures Run(s, es + [e]) && After(s, es + [e]) == Apply(After(s, es), e)
    decreases es
  {
    if es == [] {
      assert [] + [e] == [e] && [e][1..] == [];
    } else {
      Extend(Apply(s, es[0]), es[1..], e);
      assert (es + [e])[0] == es[0] && (es + [e])[1..] == es[1..] + [e];
    }
  }

  /** After a release the next acquisition is issued token 1 again: tokens do not increase over the run. */
  lemma TokenRestarts() returns (es: seq<Step>)
    ensures Run(INITIAL, es)
    ensures var s := After(INITIAL, es);
            s.issued == [0, 1] && |s.ticks| == 2 && s.ticks[0].token == s.ticks[1].token == 1
  {
    es := [];
    Extend(INITIAL, es, Start("a", 10, 0));
    es := es + [Start("a", 10, 0)];
    Extend(INITIAL, es, Return(0));
    es := es + [Return(0)];
    Extend(INITIAL, es, DeleteRow(0));
    es := es + [DeleteRow(0)];
    Extend(INITIAL, es, Start("b", 10, 0));
    es := es + [Start("b", 10, 0)];
  }

  /**
   * A worker that acquires again while its tick still runs: the older tick outlives its lease, another
   * worker takes over and releases, and the worker's next tick is issued the old token. Both running ticks
   * now match the row.
   */
  lemma TwoRunningTicksMatch() returns (es: seq<Step>)
    ensures Run(INITIAL, es)
    ensures var s := After(INITIAL, es);
            && |s.ticks| == 3 && s.ticks[0].phase == Running && s.ticks[2].phase == Running
            && Matches(s, 0) && Matches(s, 2)
  {
    es := [];
    Extend(INITIAL, es, Start("w", 10, 0));
    es := es + [Start("w", 10, 0)];
    Extend(INITIAL, es, Advance(10));
    es := es + [Advance(10)];
    Extend(INITIAL, es, Start("v", 10, 10));
    es := es + [Start("v", 10, 10)];
    Extend(INITIAL, es, Conditional(1, 10));
    es := es + [Conditional(1, 10)];
    Extend(INITIAL, es, Return(1));
    es := es + [Return(1)];
    Extend(INITIAL, es, DeleteRow(1));
    es := es + [DeleteRow(1)];
    Extend(INITIAL, es, Start("w", 10, 10));
    es := es + [Start("w", 10, 10)];
  }

  /** A worker that acquires again while its tick still runs can release the unexpired row of the later tick. */
  lemma ReleasesAnotherTick() returns (es: seq<Step>)
    ensures Run(INITIAL, es)
    ensures var s := After(INITIAL, es);
            && s.issued == [0, 1] && |s.ticks| == 2 && s.ticks[0].phase == Releasing && Alive(s, 1)
            && Enabled(s, DeleteRow(0)) && Apply(s, DeleteRow(0)).row == None
  {
    es := [];
    Extend(INITIAL, es, Start("w", 10, 0));
    es := es + [Start("w", 10, 0)];
    Extend(INITIAL, es, Advance(10));
    es := es + [Advance(10)];
    Extend(INITIAL, es, Start("w", 10, 10));
    es := es + [Start("w", 10, 10)];
    Extend(INITIAL, es, Conditional(1, 10));
    es := es + [Conditional(1, 10)];
    Extend(INITIAL, es, Return(0));
    es := es + [Return(0)];
  }

  lemma {:induction false} ExtendDisciplined(s: State, es: seq<Step>, e: Step)
    requires Run(s, es) && DisciplinedRun(s, es) && Enabled(After(s, es), e) && Disciplined(After(s, es), e)
    ensures Run(s, es + [e]) && DisciplinedRun(s, es + [e]) && After(s, es + [e]) == Apply(After(s, es), e)
    decreases es
  {
    Extend(s, es, e);
    if es == [] {
      assert [] + [e] == [e] && [e][1..] == [];
    } else {
      ExtendDisciplined(Apply(s, es[0]), es[1..], e);
      assert (es + [e])[0] == es[0] && (es + [e])[1..] == es[1..] + [e];
    }
  }

  /**
   * An ordinary run: the schedule of a worker fires again while its tick is running, the attempt finds the
   * unexpired row and is skipped, and the running tick's next heartbeat renews its lease.
   */
  lemma SkippedAttempt() returns (es: seq<Step>)
    ensures Run(INITIAL, es) && SettledRun(INITIAL, es)
    ensures var s := After(INITIAL, es);
            && |s.ticks| == 2 && s.issued == [0] && s.ticks[1].phase == Skipped
            && Alive(s, 0) && !s.ticks[0].lost && s.row == Some(Row("w", 1, 400))
  {
    es := [];
    ExtendSettled(INITIAL, es, Start("w", 300, 0));
    es := es + [Start("w", 300, 0)];
    ExtendSettled(INITIAL, es, Advance(60));
    es := es + [Advance(60)];
    ExtendSettled(INITIAL, es, Start("w", 300, 60));
    es := es + [Start("w", 300, 60)];
    ExtendSettled(INITIAL, es, Conditional(1, 60));
    es := es + [Conditional(1, 60)];
    ExtendSettled(INITIAL, es, Advance(40));
    es := es + [Advance(40)];
    ExtendSettled(INITIAL, es, Fire(0));
    es := es + [Fire(0)];
    ExtendSettled(INITIAL, es, Land(0, 100, 100));
    es := es + [Land(0, 100, 100)];
  }

  lemma {:induction false} ExtendSettled(s: State, es: seq<Step>, e: Step)
    requires Run(s, es) && SettledRun(s, es) && Enabled(After(s, es), e) && Settled(After(s, es), e)
    ensures Run(s, es + [e]) && SettledRun(s, es + [e]) && After(s, es + [e]) == Apply(After(s, es), e)
    decreases es
  {
    Extend(s, es, e);
    if es == [] {
      assert [] + [e] == [e] && [e][1..] == [];
    } else {
      ExtendSettled(Apply(s, es[0]), es[1..], e);
      assert (es + [e])[0] == es[0] && (es + [e])[1..] == es[1..] + [e];
    }
  }

  /**
   * Three workers, one tick each: the first outlives its lease, the second takes over and releases, the
   * third acquires. The fencing check still passes for the first, which is running.
   */
  lemma StaleTokenPassesCheck() returns (es: seq<Step>)
    ensures Run(INITIAL, es) && DisciplinedRun(INITIAL, es)
    ensures var s := After(INITIAL, es);
            && |s.ticks| == 3 && s.issued == [0, 1, 2] && s.ticks[0].worker != s.ticks[2].worker
            && s.ticks[0].phase == Running && TokenCurrent(s, 0) && !Matches(s, 0) && Alive(s, 2)
  {
    es := [];
    ExtendDisciplined(INITIAL, es, Start("a", 10, 0));
    es := es + [Start("a", 10, 0)];
    ExtendDisciplined(INITIAL, es, Advance(10));
    es := es + [Advance(10)];
    ExtendDisciplined(INITIAL, es, Start("b", 10, 10));
    es := es + [Start("b", 10, 10)];
    ExtendDisciplined(INITIAL, es, Conditional(1, 10));
    es := es + [Conditional(1, 10)];
    ExtendDisciplined(INITIAL, es, Return(1));
    es := es + [Return(1)];
    ExtendDisciplined(INITIAL, es, DeleteRow(1));
    es := es + [DeleteRow(1)];
    ExtendDisciplined(INITIAL, es, Start("c", 10, 10));
    es := es + [Start("c", 10, 10)];
  }

  /**
   * A renewal still under way when the body returns may fail after the lost flag was read: the tick
   * releases all the same.
   */
  lemma LateFailureStillReleases() returns (es: seq<Step>)
    ensures Run(INITIAL, es)
    ensures var s := After(INITIAL, es);
            && |s.ticks| == 1 && s.ticks[0].lost && s.ticks[0].phase == Releasing
            && Enabled(s, DeleteRow(0)) && s.row.Some? && Apply(s, DeleteRow(0)).row == None
  {
    es := [];
    Extend(INITIAL, es, Start("w", 10, 0));
    es := es + [Start("w", 10, 0)];
    Extend(INITIAL, es, Fire(0));
    es := es + [Fire(0)];
    Extend(INITIAL, es, Return(0));
    es := es + [Return(0)];
    Extend(INITIAL, es, Error(0));
    es := es + [Error(0)];
  }

  /** A renewal that carries an old clock reading brings a lapsed lease back. */
  lemma StaleReadingRevives() returns (es: seq<Step>)
    ensures Run(INITIAL, es)
    ensures var s := After(INITIAL, es);
            && s.row.Some? && s.row.value.expiresAt <= s.clock
            && Enabled(s, Land(0, 5, 5)) && Apply(s, Land(0, 5, 5)).row == Some(Row("w", 1, 15))
  {
    es := [];
    Extend(INITIAL, es, Start("w", 10, 0));
    es := es + [Start("w", 10, 0)];
    Extend(INITIAL, es, Fire(0));
    es := es + [Fire(0)];
    Extend(INITIAL, es, Advance(12));
    es := es + [Advance(12)];
  }

  /**
   * No worker acquires while an earlier tick of it is unfinished. A renewal sent by a tick that has ended
   * and released is granted on the row of the worker's next tick, and cuts its lease short.
   */
  lemma LateRenewalCutsNextLease() returns (es: seq<Step>)
    ensures Run(INITIAL, es) && DisciplinedRun(INITIAL, es)
    ensures var s := After(INITIAL, es);
            && |s.ticks| == 2 && s.issued == [0, 1] && s.ticks[0].phase == Released && Alive(s, 1)
            && s.ticks[0].worker == s.ticks[1].worker == "w" && s.ticks[1].granted == Some(30) && !s.ticks[1].lost
            && Enabled(s, Land(0, 5, 5)) && Granted(s, Land(0, 5, 5)) && Shortens(s, Land(0, 5, 5))
            && s.clock == 20 && s.row == Some(Row("w", 1, 30)) && Apply(s, Land(0, 5, 5)).row == Some(Row("w", 1, 15))
  {
    es := [];
    ExtendDisciplined(INITIAL, es, Start("w", 10, 0));
    es := es + [Start("w", 10, 0)];
    ExtendDisciplined(INITIAL, es, Fire(0));
    es := es + [Fire(0)];
    ExtendDisciplined(INITIAL, es, Return(0));
    es := es + [Return(0)];
    ExtendDisciplined(INITIAL, es, DeleteRow(0));
    es := es + [DeleteRow(0)];
    ExtendDisciplined(INITIAL, es, Advance(20));
    es := es + [Advance(20)];
    ExtendDisciplined(INITIAL, es, Start("w", 10, 20));
    es := es + [Start("w", 10, 20)];
  }

  /** Then another worker takes over: two ticks run inside the leases granted to them, neither knowing of a loss. */
  lemma TwoLeasesAtOnce() returns (es: seq<Step>)
    ensures Run(INITIAL, es) && DisciplinedRun(INITIAL, es)
    ensures var s := After(INITIAL, es);
            && |s.ticks| == 3 && Live(s, 1) && Live(s, 2)
            && s.ticks[1].phase == Running && s.ticks[2].phase == Running && !s.ticks[1].lost && !s.ticks[2].lost
  {
    es := LateRenewalCutsNextLease();
    ExtendDisciplined(INITIAL, es, Land(0, 5, 5));
    es := es + [Land(0, 5, 5)];
    ExtendDisciplined(INITIAL, es, Start("v", 10, 20));
    es := es + [Start("v", 10, 20)];
    ExtendDisciplined(INITIAL, es, Conditional(2, 20));
    es := es + [Conditional(2, 20)];
  }
}

/**
 * How many missed heartbeats a lease survives under ideal timing: acquired at time 0, with
 * heartbeats at every multiple of the interval, each either missed or answered at its instant.
 */
module Heartbeat {

  import opened Sequences
  import opened JobLease

  /** `Math.max(1000, Math.floor(ttlMs / 3))`. */
  function Interval(ttl: nat): (h: nat)
    ensures h >= 1000
    ensures ttl >= 3000 ==> 3 * h <= ttl < 3 * (h + 1)
  {
    if ttl / 3 > 1000 then ttl / 3 else 1000
  }

  /** The instant of the k-th heartbeat. */
  function BeatAt(ttl: nat, k: nat): nat {
    k * Interval(ttl)
  }

  /** The row after the heartbeats of `reached`; `false` is a heartbeat that never got to the database. */
  function RowAfter(worker: string, ttl: nat, reached: seq<bool>): Row {
    if reached == [] then Row(worker, 1, ttl)
    else
      var row := RowAfter(worker, ttl, reached[..|reached| - 1]);
      var now := BeatAt(ttl, |reached|);
      if reached[|reached| - 1] then Renew(Some(row), worker, 1, now, now + ttl).GetOr(row) else row
  }

  /** The heartbeats missed since the last one that got through. */
  function Trailing(reached: seq<bool>): (m: nat)
    ensures m <= |reached|
  {
    if reached == [] || reached[|reached| - 1] then 0 else 1 + Trailing(reached[..|reached| - 1])
  }

  /** Never more than `m` heartbeats in a row are missed. */
  predicate AtMostMissed(reached: seq<bool>, m: nat) {
    forall k | 0 <= k <= |reached| :: Trailing(reached[..k]) <= m
  }

  /** Every heartbeat that got to the database renewed the lease. */
  predicate AllRenew(worker: string, ttl: nat, reached: seq<bool>) {
    forall k | 0 <= k < |reached| && reached[k] :: BeatAt(ttl, k + 1) < RowAfter(worker, ttl, reached[..k]).expiresAt
  }

  /** At every heartbeat the clock has not gone past the expiry. */
  predicate NeverPastExpiry(worker: string, ttl: nat, reached: seq<bool>) {
    forall k | 0 <= k < |reached| :: BeatAt(ttl, k + 1) <= RowAfter(worker, ttl, reached[..k]).expiresAt
  }

  /** While renewals succeed, the lease runs for one TTL from the last heartbeat that got through. */
  lemma {:induction false} ExpiryAfter(worker: string, ttl: nat, reached: seq<bool>)
    requires AllRenew(worker, ttl, reached)
    ensures var row := RowAfter(worker, ttl, reached);
            && row.worker == worker && row.token == 1
            && row.expiresAt == BeatAt(ttl, |reached| - Trailing(reached)) + ttl
  {
    if reached != [] {
      var n := |reached| - 1;
      var front := reached[..n];
      assert forall k | 0 <= k <= n :: front[..k] == reached[..k];
      ExpiryAfter(worker, ttl, front);
      if reached[n] {
        assert BeatAt(ttl, n + 1) < RowAfter(worker, ttl, front).expiresAt;
      }
    }
  }

  lemma Multiples(a: nat, b: nat, h: nat)
    requires a <= b
    ensures a * h <= b * h
  {
  }

  /** If `m` misses leave time before the expiry, runs with at most `m` misses in a row renew throughout. */
  lemma {:induction false} SlackSuffices(worker: string, ttl: nat, m: nat, reached: seq<bool>)
    requires (m + 1) * Interval(ttl) < ttl
    requires AtMostMissed(reached, m)
    ensures AllRenew(worker, ttl, reached)
  {
    if reached != [] {
      var n := |reached| - 1;
      var front := reached[..n];
      assert forall k | 0 <= k <= n :: front[..k] == reached[..k];
      SlackSuffices(worker, ttl, m, front);
      ExpiryAfter(worker, ttl, front);
      var t := Trailing(front);
      assert t <= m by {
        assert reached[..n] == front;
      }
      NextBeat(ttl, n, t);
      Multiples(t + 1, m + 1, Interval(ttl));
      forall k | 0 <= k < |reached| && reached[k]
        ensures BeatAt(ttl, k + 1) < RowAfter(worker, ttl, reached[..k]).expiresAt
      {
        if k < n {
          assert front[k] && front[..k] == reached[..k];
        } else {
          assert reached[..k] == front;
        }
      }
    }
  }

  lemma NextBeat(ttl: nat, n: nat, t: nat)
    requires t <= n
    ensures BeatAt(ttl, n + 1) == BeatAt(ttl, n - t) + (t + 1) * Interval(ttl)
  {
  }

  function Missed(m: nat): (r: seq<bool>)
    ensures |r| == m && forall k | 0 <= k < m :: !r[k]
  {
    if m == 0 then [] else Missed(m - 1) + [false]
  }

  /** Otherwise missing the first `m` heartbeats is enough: the next one comes when the lease has lapsed. */
  lemma SlackNecessary(worker: string, ttl: nat, m: nat)
    requires (m + 1) * Interval(ttl) >= ttl
    ensures AtMostMissed(Missed(m) + [true], m) && !AllRenew(worker, ttl, Missed(m) + [true])
  {
    MissedAtMost(m);
    var r := Missed(m) + [true];
    assert r[..m] == Missed(m) && r[m];
    MissedExpiry(worker, ttl, m);
    assert !(BeatAt(ttl, m + 1) < RowAfter(worker, ttl, r[..m]).expiresAt);
  }

  lemma MissedAtMost(m: nat)
    ensures AtMostMissed(Missed(m) + [true], m)
  {
    var r := Missed(m) + [true];
    forall k | 0 <= k <= |r| ensures Trailing(r[..k]) <= m {
      if k <= m {
        assert r[..k] == Missed(m)[..k];
      } else {
        assert r[..k] == r;
      }
    }
  }

  lemma {:induction false} MissedExpiry(worker: string, ttl: nat, m: nat)
    ensures RowAfter(worker, ttl, Missed(m)) == Row(worker, 1, ttl)
  {
    if m > 0 {
      assert Missed(m)[..m - 1] == Missed(m - 1);
      MissedExpiry(worker, ttl, m - 1);
    }
  }

  /**
   * Runs with at most `m` heartbeats missed in a row keep their lease exactly when m + 1 intervals are
   * shorter than the TTL.
   */
  lemma SlackExact(worker: string, ttl: nat, m: nat)
    ensures (forall reached | AtMostMissed(reached, m) :: AllRenew(worker, ttl, reached)) <==>
              (m + 1) * Interval(ttl) < ttl
  {
    if (m + 1) * Interval(ttl) < ttl {
      forall reached | AtMostMissed(reached, m) ensures AllRenew(worker, ttl, reached) {
        SlackSuffices(worker, ttl, m, reached);
      }
    } else {
      SlackNecessary(worker, ttl, m);
    }
  }

  /**
   * Two missed heartbeats of slack, as the constant promises: with a TTL of at least three seconds they
   * are survived exactly when 3 does not divide the TTL. One missed heartbeat is always survived.
   */
  lemma {:induction false} TwoMissesExact(worker: string, ttl: nat)
    requires ttl >= 3000
    ensures (forall reached | AtMostMissed(reached, 2) :: AllRenew(worker, ttl, reached)) <==> ttl % 3 != 0
    ensures forall reached | AtMostMissed(reached, 1) :: AllRenew(worker, ttl, reached)
  {
    SlackExact(worker, ttl, 2);
    SlackExact(worker, ttl, 1);
  }

  /** Five minutes and one hour, the TTLs the jobs use, are divisible by 3: their third heartbeat comes too late. */
  lemma JobTtlsSurviveOneMissOnly(worker: string)
    ensures !AllRenew(worker, 5 * 60 * 1000, [false, false, true])
    ensures !AllRenew(worker, 60 * 60 * 1000, [false, false, true])
  {
    SlackNecessary(worker, 5 * 60 * 1000, 2);
    SlackNecessary(worker, 60 * 60 * 1000, 2);
    assert Missed(2) + [true] == [false, false, true];
  }

  /** The heartbeats that renewed the lease: those that got to the database in time. */
  function Renewed(worker: string, ttl: nat, reached: seq<bool>): (r: seq<bool>)
    ensures |r| == |reached|
  {
    if reached == [] then []
    else
      var n := |reached| - 1;
      var inTime := BeatAt(ttl, n + 1) < RowAfter(worker, ttl, reached[..n]).expiresAt;
      Renewed(worker, ttl, reached[..n]) + [reached[n] && inTime]
  }

  lemma {:induction false} RowIsOurs(worker: string, ttl: nat, reached: seq<bool>)
    ensures RowAfter(worker, ttl, reached).worker == worker && RowAfter(worker, ttl, reached).token == 1
  {
    if reached != [] {
      RowIsOurs(worker, ttl, reached[..|reached| - 1]);
    }
  }

  /** A heartbeat that comes too late might as well not have been sent. */
  lemma {:induction false} SameRow(worker: string, ttl: nat, reached: seq<bool>)
    ensures RowAfter(worker, ttl, Renewed(worker, ttl, reached)) == RowAfter(worker, ttl, reached)
  {
    if reached != [] {
      var n := |reached| - 1;
      SameRow(worker, ttl, reached[..n]);
      RowIsOurs(worker, ttl, reached[..n]);
      assert Renewed(worker, ttl, reached)[..n] == Renewed(worker, ttl, reached[..n]);
    }
  }

  /** Those that do renew are in time. */
  lemma RenewedAllRenew(worker: string, ttl: nat, reached: seq<bool>)
    ensures AllRenew(worker, ttl, Renewed(worker, ttl, reached))
  {
    var r := Renewed(worker, ttl, reached);
    RenewedPrefixes(worker, ttl, reached);
    forall k | 0 <= k < |r| && r[k] ensures BeatAt(ttl, k + 1) < RowAfter(worker, ttl, r[..k]).expiresAt {
      SameRow(worker, ttl, reached[..k]);
      RenewedAt(worker, ttl, reached, k);
    }
  }

  lemma RenewedAt(worker: string, ttl: nat, reached: seq<bool>, k: nat)
    requires k < |reached|
    ensures Renewed(worker, ttl, reached)[k] ==
            (reached[k] && BeatAt(ttl, k + 1) < RowAfter(worker, ttl, reached[..k]).expiresAt)
  {
    RenewedPrefixes(worker, ttl, reached);
    var front := reached[..k + 1];
    assert front[..k] == reached[..k];
    assert Renewed(worker, ttl, reached)[k] == Renewed(worker, ttl, reached)[..k + 1][k] == Renewed(worker, ttl,
           front)[k];
  }

  lemma {:induction false} RenewedPrefixes(worker: string, ttl: nat, reached: seq<bool>)
    ensures forall k | 0 <= k <= |reached| :: Renewed(worker, ttl, reached)[..k] == Renewed(worker, ttl, reached[..k])
  {
    if reached != [] {
      var n := |reached| - 1;
      var front, r := reached[..n], Renewed(worker, ttl, reached);
      RenewedPrefixes(worker, ttl, front);
      forall k | 0 <= k <= |reached| ensures r[..k] == Renewed(worker, ttl, reached[..k]) {
        if k <= n {
          assert reached[..k] == front[..k] && r[..k] == Renewed(worker, ttl, front)[..k];
        } else {
          assert reached[..k] == reached && r[..k] == r;
        }
      }
    }
  }

  lemma NeverPastExpiryAmong(worker: string, ttl: nat, reached: seq<bool>)
    requires ttl >= 3000
    requires AtMostMissed(reached, 2) && AllRenew(worker, ttl, reached)
    ensures NeverPastExpiry(worker, ttl, reached)
  {
    forall k | 0 <= k < |reached| ensures BeatAt(ttl, k + 1) <= RowAfter(worker, ttl, reached[..k]).expiresAt {
      var front := reached[..k];
      assert forall i | 0 <= i <= k :: front[..i] == reached[..i];
      assert AllRenew(worker, ttl, front);
      ExpiryAfter(worker, ttl, front);
      var t := Trailing(front);
      NextBeat(ttl, k, t);
      Multiples(t + 1, 3, Interval(ttl));
    }
  }

  /**
   * Even so, while no more than two renewals in a row fail to happen, missed or refused, the clock at a
   * heartbeat is never past the expiry.
   */
  lemma {:induction false} NeverPastExpiryWithTwoMisses(worker: string, ttl: nat, reached: seq<bool>)
    requires ttl >= 3000 && AtMostMissed(Renewed(worker, ttl, reached), 2)
    ensures NeverPastExpiry(worker, ttl, reached)
  {
    RenewedAllRenew(worker, ttl, reached);
    RenewedPrefixes(worker, ttl, reached);
    NeverPastExpiryAmong(worker, ttl, Renewed(worker, ttl, reached));
    forall k | 0 <= k < |reached| ensures BeatAt(ttl, k + 1) <= RowAfter(worker, ttl, reached[..k]).expiresAt {
      SameRow(worker, ttl, reached[..k]);
    }
  }
}

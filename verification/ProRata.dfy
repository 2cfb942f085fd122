/** Pro-rata shares of an exact amount by integer division. */
module ProRata {

  import opened Sequences

  /** BigInt division, which rounds toward zero. */
  function TruncDiv(a: int, b: int): int
    requires b > 0
  {
    if a < 0 then -((-a) / b) else a / b
  }

  /** `proRataShare(total, part, whole)`. */
  function ProRataShare(total: int, part: int, whole: int): int {
    if whole == 0 || whole < 0 || part < 0 then 0 else TruncDiv(total * part, whole)
  }

  function Shares(total: int, parts: seq<int>, whole: int): seq<int> {
    if parts == [] then [] else [ProRataShare(total, parts[0], whole)] + Shares(total, parts[1..], whole)
  }

  lemma MulMonotone(a: int, b: int, d: int)
    requires a <= b && d >= 0
    ensures a * d <= b * d
  {
  }

  lemma DivBounds(a: int, d: int)
    requires d > 0
    ensures (a / d) * d <= a <= (a / d) * d + (d - 1)
  {
  }

  lemma CancelFactor(a: int, b: int, d: int)
    requires d > 0 && a * d < (b + 1) * d
    ensures a <= b
  {
    if a > b {
      MulMonotone(b + 1, a, d);
    }
  }

  /** What the share is, without division: the largest amount whose multiple by the whole fits. */
  lemma {:induction false} ShareBounds(total: int, part: int, whole: int)
    requires total >= 0 && part >= 0 && whole > 0
    ensures var s := ProRataShare(total, part, whole);
            s >= 0 && s * whole <= total * part <= s * whole + (whole - 1)
  {
    var a := total * part;
    MulMonotone(0, total, part);
    DivBounds(a, whole);
    CancelFactor(0, a / whole, whole);
  }

  /** Scaled by the whole, the shares miss the exact amount by less than one whole per part. */
  lemma {:induction false} SharesScaled(total: int, parts: seq<int>, whole: int)
    requires total >= 0 && whole > 0 && forall i | 0 <= i < |parts| :: parts[i] >= 0
    ensures Sum(Shares(total, parts, whole)) * whole <= total * Sum(parts)
    ensures total * Sum(parts) <= Sum(Shares(total, parts, whole)) * whole + |parts| * (whole - 1)
  {
    if parts != [] {
      SharesScaled(total, parts[1..], whole);
      ShareBounds(total, parts[0], whole);
      var share, rest := ProRataShare(total, parts[0], whole), Sum(Shares(total, parts[1..], whole));
      assert Shares(total, parts, whole)[1..] == Shares(total, parts[1..], whole);
      AddScaled(share, rest, parts[0], Sum(parts[1..]), |parts| - 1, total, whole);
    }
  }

  lemma AddScaled(share: int, rest: int, part: int, tail: int, n: int, total: int, whole: int)
    requires share * whole <= total * part <= share * whole + (whole - 1)
    requires rest * whole <= total * tail <= rest * whole + n * (whole - 1)
    ensures (share + rest) * whole <= total * (part + tail) <= (share + rest) * whole + (n + 1) * (whole - 1)
  {
    Distribute(share, rest, whole);
    Distribute(part, tail, total);
    Distribute(n, 1, whole - 1);
  }

  lemma Distribute(a: int, b: int, d: int)
    ensures (a + b) * d == a * d + b * d
  {
  }

  /**
   * Pro-rata shares never add up to more than the total; when the parts make up the whole, what is
   * left undistributed is less than the number of parts.
   */
  lemma SharesNeverOverDistribute(total: int, parts: seq<int>, whole: int)
    requires total >= 0 && whole > 0 && forall i | 0 <= i < |parts| :: parts[i] >= 0
    requires Sum(parts) <= whole
    ensures Sum(Shares(total, parts, whole)) <= total
    ensures Sum(parts) == whole ==> total - Sum(Shares(total, parts, whole)) < |parts|
  {
    SharesScaled(total, parts, whole);
    var given := Sum(Shares(total, parts, whole));
    MulMonotone(Sum(parts), whole, total);
    Distribute(total, 1, whole);
    CancelFactor(given, total, whole);
    if Sum(parts) == whole {
      DustBelowParts(total, given, |parts|, whole);
    }
  }

  lemma DustBelowParts(total: int, given: int, n: nat, whole: int)
    requires whole > 0 && total * whole <= given * whole + n * (whole - 1)
    requires n > 0
    ensures total - given < n
  {
    var dust := total - given;
    Distribute(given, dust, whole);
    Distribute(dust, 1, whole);
    assert dust * whole <= n * (whole - 1) == n * whole - n;
    CancelFactor(dust, n - 1, whole);
  }

  /** A larger part never gets a smaller share. */
  lemma {:induction false} ShareMonotone(total: int, small: int, large: int, whole: int)
    requires total >= 0 && small <= large
    ensures ProRataShare(total, small, whole) <= ProRataShare(total, large, whole)
  {
    if whole > 0 && large >= 0 {
      ShareBounds(total, large, whole);
      if small >= 0 {
        ShareBounds(total, small, whole);
        MulMonotone(small, large, total);
        var s, l := ProRataShare(total, small, whole), ProRataShare(total, large, whole);
        Distribute(l, 1, whole);
        CancelFactor(s, l, whole);
      }
    }
  }

  /** The documented formula is the floor; it is what the code computes unless a negative product leaves a remainder. */
  lemma {:induction false} ShareIsFloor(total: int, part: int, whole: int)
    requires whole > 0 && part >= 0
    ensures ProRataShare(total, part, whole) == (total * part) / whole <==>
            total * part >= 0 || (total * part) % whole == 0
  {
    var a := total * part;
    if a < 0 {
      var q, r := (-a) / whole, (-a) % whole;
      assert a == (-q) * whole - r;
      if r == 0 {
        QuotientIs(a, whole, -q, 0);
      } else {
        assert a == (-q - 1) * whole + (whole - r) by {
          Distribute(-q - 1, 1, whole);
        }
        QuotientIs(a, whole, -q - 1, whole - r);
      }
    }
  }

  lemma {:induction false} QuotientIs(a: int, d: int, q: int, r: int)
    requires 0 <= r < d && a == q * d + r
    ensures a / d == q && a % d == r
  {
    DivBounds(a, d);
    Distribute(a / d, 1, d);
    Distribute(q, 1, d);
    CancelFactor(q, a / d, d);
    CancelFactor(a / d, q, d);
  }
}

/** Per-pool positions summed up from raw account activity. */
module Portfolio {

  import opened Sequences

  datatype TxType = Deposit | Reward | Withdraw | OtherType

  /** A transaction; system messages have no pool. */
  datatype Tx = Tx(kind: TxType, pool: Option<string>, asset: string, amount: int, pending: bool)

  datatype Position = Position(pool: string, asset: string, balance: int, pendingCount: int)

  datatype Positions = Positions(positions: seq<Position>, totalJoinedVaults: nat, totalBalance: int,
      pendingActionsCount: int)

  predicate Pooled(tx: Tx) {
    tx.pool.Some? && tx.pool.value != ""
  }

  /** What a transaction adds to the balance of its pool. */
  function Delta(tx: Tx): int {
    if tx.kind == Deposit || tx.kind == Reward then tx.amount
    else if tx.kind == Withdraw then -tx.amount
    else 0
  }

  function PendingOf(tx: Tx): int {
    if tx.pending then 1 else 0
  }

  predicate InPool(tx: Tx, pool: string) {
    Pooled(tx) && tx.pool.value == pool
  }

  // ----- The specification: pools in first-seen order, each with its own folds ------------------

  function BalanceIn(txs: seq<Tx>, pool: string): int {
    if txs == [] then 0 else (if InPool(txs[0], pool) then Delta(txs[0]) else 0) + BalanceIn(txs[1..], pool)
  }

  function PendingIn(txs: seq<Tx>, pool: string): int {
    if txs == [] then 0 else (if InPool(txs[0], pool) then PendingOf(txs[0]) else 0) + PendingIn(txs[1..], pool)
  }

  /** The pools in the order of their first transaction. */
  function Pools(txs: seq<Tx>): seq<string> {
    if txs == [] then []
    else
      var before := Pools(txs[..|txs| - 1]);
      var tx := txs[|txs| - 1];
      if Pooled(tx) && tx.pool.value !in before then before + [tx.pool.value] else before
  }

  /** The asset of the pool's first transaction. */
  function FirstAsset(txs: seq<Tx>, pool: string): string {
    if txs == [] then "" else if InPool(txs[0], pool) then txs[0].asset else FirstAsset(txs[1..], pool)
  }

  function PositionIn(txs: seq<Tx>, pool: string): Position {
    Position(pool, FirstAsset(txs, pool), BalanceIn(txs, pool), PendingIn(txs, pool))
  }

  // ----- The loop ---------------------------------------------------------------------------------

  /** The entries of the map in insertion order. */
  function Find(entries: seq<Position>, pool: string): (i: nat)
    ensures i <= |entries|
    ensures i < |entries| ==> entries[i].pool == pool
    ensures forall k | 0 <= k < i :: entries[k].pool != pool
  {
    if entries == [] || entries[0].pool == pool then 0 else 1 + Find(entries[1..], pool)
  }

  ghost predicate Summarizes(entries: seq<Position>, txs: seq<Tx>) {
    && |entries| == |Pools(txs)|
    && forall i | 0 <= i < |entries| :: entries[i] == PositionIn(txs, Pools(txs)[i])
  }

  lemma {:induction false} FoldSnoc(txs: seq<Tx>, tx: Tx, pool: string)
    ensures BalanceIn(txs + [tx], pool) == BalanceIn(txs, pool) + (if InPool(tx, pool) then Delta(tx) else 0)
    ensures PendingIn(txs + [tx], pool) == PendingIn(txs, pool) + (if InPool(tx, pool) then PendingOf(tx) else 0)
  {
    if txs == [] {
      assert [] + [tx] == [tx] && [tx][1..] == [];
    } else {
      FoldSnoc(txs[1..], tx, pool);
      assert (txs + [tx])[1..] == txs[1..] + [tx];
    }
  }

  /** A pool is listed exactly when some transaction belongs to it; before that nothing counts for it. */
  lemma {:induction false} PoolsListed(txs: seq<Tx>, pool: string)
    ensures pool in Pools(txs) <==> exists i :: 0 <= i < |txs| && InPool(txs[i], pool)
    ensures pool !in Pools(txs) ==> BalanceIn(txs, pool) == 0 && PendingIn(txs, pool) == 0
    ensures Distinct(Pools(txs))
  {
    if txs != [] {
      var n := |txs| - 1;
      var front := txs[..n];
      PoolsListed(front, pool);
      assert txs == front + [txs[n]];
      FoldSnoc(front, txs[n], pool);
      assert (exists i :: 0 <= i < |txs| && InPool(txs[i], pool)) <==>
             (exists i :: 0 <= i < |front| && InPool(front[i], pool)) || InPool(txs[n], pool) by {
        if i :| 0 <= i < |front| && InPool(front[i], pool) {
          assert InPool(txs[i], pool);
        }
        if i :| 0 <= i < |txs| && InPool(txs[i], pool) {
          assert i < n ==> front[i] == txs[i];
        }
      }
    }
  }

  lemma {:induction false} FirstAssetSnoc(txs: seq<Tx>, tx: Tx, pool: string)
    ensures FirstAsset(txs + [tx], pool) ==
            if exists i :: 0 <= i < |txs| && InPool(txs[i], pool) then FirstAsset(txs, pool)
            else if InPool(tx, pool) then tx.asset else ""
  {
    if txs == [] {
      assert [] + [tx] == [tx] && [tx][1..] == [];
    } else {
      FirstAssetSnoc(txs[1..], tx, pool);
      assert (txs + [tx])[1..] == txs[1..] + [tx];
      if i :| 0 <= i < |txs| && InPool(txs[i], pool) {
        assert i > 0 ==> txs[1..][i - 1] == txs[i];
      }
      if i :| 0 <= i < |txs[1..]| && InPool(txs[1..][i], pool) {
        assert txs[i + 1] == txs[1..][i];
      }
    }
  }

  /** A transaction outside a pool leaves the pool's position alone. */
  lemma OtherPoolUnchanged(txs: seq<Tx>, tx: Tx, pool: string)
    requires !InPool(tx, pool) && pool in Pools(txs)
    ensures PositionIn(txs + [tx], pool) == PositionIn(txs, pool)
  {
    FoldSnoc(txs, tx, pool);
    FirstAssetSnoc(txs, tx, pool);
    PoolsListed(txs, pool);
  }

  /** What the loop does with one pooled transaction. */
  function Enter(entries: seq<Position>, tx: Tx): seq<Position>
    requires Pooled(tx)
  {
    var i := Find(entries, tx.pool.value);
    var entry := if i < |entries| then entries[i] else Position(tx.pool.value, tx.asset, 0, 0);
    var updated := entry.(balance := entry.balance + Delta(tx), pendingCount := entry.pendingCount + PendingOf(tx));
    if i < |entries| then entries[i := updated] else entries + [updated]
  }

  lemma EnterKnown(entries: seq<Position>, txs: seq<Tx>, tx: Tx)
    requires Summarizes(entries, txs) && Pooled(tx) && tx.pool.value in Pools(txs)
    ensures Summarizes(Enter(entries, tx), txs + [tx])
  {
    var pool := tx.pool.value;
    var pools := Pools(txs);
    var i := Find(entries, pool);
    assert (txs + [tx])[..|txs|] == txs;
    assert Pools(txs + [tx]) == pools;
    assert i < |entries| by {
      var j :| 0 <= j < |pools| && pools[j] == pool;
      assert entries[j].pool == pool;
    }
    assert pools[i] == pool;
    FoldSnoc(txs, tx, pool);
    FirstAssetSnoc(txs, tx, pool);
    PoolsListed(txs, pool);
    forall k | 0 <= k < |entries| ensures Enter(entries, tx)[k] == PositionIn(txs + [tx], pools[k]) {
      if k != i {
        assert pools[k] != pool;
        OtherPoolUnchanged(txs, tx, pools[k]);
      }
    }
  }

  lemma EnterNew(entries: seq<Position>, txs: seq<Tx>, tx: Tx)
    requires Summarizes(entries, txs) && Pooled(tx) && tx.pool.value !in Pools(txs)
    ensures Summarizes(Enter(entries, tx), txs + [tx])
  {
    var pool := tx.pool.value;
    var pools := Pools(txs);
    assert (txs + [tx])[..|txs|] == txs;
    assert Pools(txs + [tx]) == pools + [pool];
    assert Find(entries, pool) == |entries| by {
      assert forall k | 0 <= k < |entries| :: entries[k].pool == pools[k] && pools[k] in pools;
    }
    FoldSnoc(txs, tx, pool);
    FirstAssetSnoc(txs, tx, pool);
    PoolsListed(txs, pool);
    forall k | 0 <= k < |entries| ensures PositionIn(txs + [tx], pools[k]) == PositionIn(txs, pools[k]) {
      assert pools[k] in pools;
      OtherPoolUnchanged(txs, tx, pools[k]);
    }
  }

  lemma SkipUnpooled(entries: seq<Position>, txs: seq<Tx>, tx: Tx)
    requires Summarizes(entries, txs) && !Pooled(tx)
    ensures Summarizes(entries, txs + [tx])
  {
    assert (txs + [tx])[..|txs|] == txs;
    forall k | 0 <= k < |entries| ensures PositionIn(txs + [tx], Pools(txs)[k]) == entries[k] {
      assert Pools(txs)[k] in Pools(txs);
      OtherPoolUnchanged(txs, tx, Pools(txs)[k]);
    }
  }

  lemma EnterKeeps(entries: seq<Position>, txs: seq<Tx>, tx: Tx)
    requires Summarizes(entries, txs) && Pooled(tx)
    ensures Summarizes(Enter(entries, tx), txs + [tx])
  {
    if tx.pool.value in Pools(txs) {
      EnterKnown(entries, txs, tx);
    } else {
      EnterNew(entries, txs, tx);
    }
  }

  /** The loop body: fetch or create the entry of the pool, update it, and store it. */
  method Record(before: seq<Position>, tx: Tx) returns (entries: seq<Position>)
    requires Pooled(tx)
    ensures entries == Enter(before, tx)
  {
    var i := Find(before, tx.pool.value);
    var entry := if i < |before| then before[i] else Position(tx.pool.value, tx.asset, 0, 0);
    if tx.kind == Deposit || tx.kind == Reward {
      entry := entry.(balance := entry.balance + tx.amount);
    } else if tx.kind == Withdraw {
      entry := entry.(balance := entry.balance - tx.amount);
    }
    if tx.pending {
      entry := entry.(pendingCount := entry.pendingCount + 1);
    }
    entries := if i < |before| then before[i := entry] else before + [entry];
  }

  function Balances(entries: seq<Position>): seq<int> {
    Map((p: Position) => p.balance, entries)
  }

  function PendingCounts(entries: seq<Position>): seq<int> {
    Map((p: Position) => p.pendingCount, entries)
  }

  /**
   * `summarizeAccountPositions(transactions)`: one position per distinct pool in first-seen order, its
   * balance deposits plus rewards minus withdrawals; the totals are those of all pooled transactions.
   */
  method SummarizeAccountPositions(txs: seq<Tx>) returns (r: Positions)
    ensures Summarizes(r.positions, txs) && r.totalJoinedVaults == |Pools(txs)|
    ensures r.totalBalance == PooledBalance(txs) && r.pendingActionsCount == PooledPending(txs)
  {
    var entries: seq<Position> := [];
    for n := 0 to |txs|
      invariant Summarizes(entries, txs[..n])
    {
      var tx := txs[n];
      assert txs[..n + 1] == txs[..n] + [tx];
      if !Pooled(tx) {
        SkipUnpooled(entries, txs[..n], tx);
        continue;
      }
      EnterKeeps(entries, txs[..n], tx);
      entries := Record(entries, tx);
    }
    assert txs[..|txs|] == txs;
    TotalsAgree(entries, txs);
    r := Positions(entries, |entries|, Sum(Balances(entries)), Sum(PendingCounts(entries)));
  }

  // ----- Totals -------------------------------------------------------------------------------------

  function PooledBalance(txs: seq<Tx>): int {
    if txs == [] then 0 else (if Pooled(txs[0]) then Delta(txs[0]) else 0) + PooledBalance(txs[1..])
  }

  function PooledPending(txs: seq<Tx>): int {
    if txs == [] then 0 else (if Pooled(txs[0]) then PendingOf(txs[0]) else 0) + PooledPending(txs[1..])
  }

  /** Sums over a list of pools. */
  function SumBalances(txs: seq<Tx>, pools: seq<string>): int {
    if pools == [] then 0 else BalanceIn(txs, pools[0]) + SumBalances(txs, pools[1..])
  }

  function SumPending(txs: seq<Tx>, pools: seq<string>): int {
    if pools == [] then 0 else PendingIn(txs, pools[0]) + SumPending(txs, pools[1..])
  }

  lemma {:induction false} SumsOfOne(tx: Tx, txs: seq<Tx>, pools: seq<string>)
    requires Distinct(pools)
    ensures SumBalances([tx] + txs, pools) == SumBalances(txs, pools) +
              (if Pooled(tx) && tx.pool.value in pools then Delta(tx) else 0)
    ensures SumPending([tx] + txs, pools) == SumPending(txs, pools) +
              (if Pooled(tx) && tx.pool.value in pools then PendingOf(tx) else 0)
  {
    if pools != [] {
      SumsOfOne(tx, txs, pools[1..]);
      assert ([tx] + txs)[1..] == txs;
      assert forall p :: p in pools <==> p == pools[0] || p in pools[1..];
      assert pools[0] !in pools[1..];
    }
  }

  lemma {:induction false} SumsOverPools(txs: seq<Tx>, pools: seq<string>)
    requires Distinct(pools)
    requires forall i | 0 <= i < |txs| && Pooled(txs[i]) :: txs[i].pool.value in pools
    ensures SumBalances(txs, pools) == PooledBalance(txs) && SumPending(txs, pools) == PooledPending(txs)
  {
    if txs == [] {
      NothingToSum(pools);
    } else {
      SumsOverPools(txs[1..], pools);
      SumsOfOne(txs[0], txs[1..], pools);
      assert [txs[0]] + txs[1..] == txs;
    }
  }

  lemma {:induction false} NothingToSum(pools: seq<string>)
    ensures SumBalances([], pools) == 0 && SumPending([], pools) == 0
  {
    if pools != [] {
      NothingToSum(pools[1..]);
    }
  }

  lemma {:induction false} EntrySums(entries: seq<Position>, txs: seq<Tx>, pools: seq<string>)
    requires |entries| == |pools| && forall i | 0 <= i < |entries| :: entries[i] == PositionIn(txs, pools[i])
    ensures Sum(Balances(entries)) == SumBalances(txs, pools) && Sum(PendingCounts(entries)) == SumPending(txs, pools)
  {
    if entries != [] {
      EntrySums(entries[1..], txs, pools[1..]);
      assert Balances(entries)[1..] == Balances(entries[1..]);
      assert PendingCounts(entries)[1..] == PendingCounts(entries[1..]);
    }
  }

  /** The positions add up to the folds over all pooled transactions: nothing is lost or counted twice. */
  lemma TotalsAgree(entries: seq<Position>, txs: seq<Tx>)
    requires Summarizes(entries, txs)
    ensures Sum(Balances(entries)) == PooledBalance(txs) && Sum(PendingCounts(entries)) == PooledPending(txs)
  {
    var pools := Pools(txs);
    EntrySums(entries, txs, pools);
    PoolsListed(txs, "");
    forall i | 0 <= i < |txs| && Pooled(txs[i]) ensures txs[i].pool.value in pools {
      PoolsListed(txs, txs[i].pool.value);
      assert InPool(txs[i], txs[i].pool.value);
    }
    SumsOverPools(txs, pools);
  }

  function DeltaIn(pool: string): Tx -> int {
    (tx: Tx) => if InPool(tx, pool) then Delta(tx) else 0
  }

  lemma {:induction false} BalanceIsSum(txs: seq<Tx>, pool: string)
    ensures BalanceIn(txs, pool) == Sum(Map(DeltaIn(pool), txs))
  {
    if txs != [] {
      BalanceIsSum(txs[1..], pool);
      assert Map(DeltaIn(pool), txs)[1..] == Map(DeltaIn(pool), txs[1..]);
    }
  }

  /** The balance of a pool does not depend on the order of the transactions. */
  lemma BalanceForgetsOrder(a: seq<Tx>, b: seq<Tx>, pool: string)
    requires multiset(a) == multiset(b)
    ensures BalanceIn(a, pool) == BalanceIn(b, pool)
    ensures pool in Pools(a) <==> pool in Pools(b)
  {
    BalanceIsSum(a, pool);
    BalanceIsSum(b, pool);
    MapPermutation(DeltaIn(pool), a, b);
    SumPermutation(Map(DeltaIn(pool), a), Map(DeltaIn(pool), b));
    PoolsListed(a, pool);
    PoolsListed(b, pool);
    SamePools(a, b, pool);
    SamePools(b, a, pool);
  }

  lemma SamePools(a: seq<Tx>, b: seq<Tx>, pool: string)
    requires multiset(a) == multiset(b)
    ensures (exists i :: 0 <= i < |a| && InPool(a[i], pool)) ==> exists i :: 0 <= i < |b| && InPool(b[i], pool)
  {
    if i :| 0 <= i < |a| && InPool(a[i], pool) {
      assert a[i] in multiset(b);
      var j :| 0 <= j < |b| && b[j] == a[i];
      assert InPool(b[j], pool);
    }
  }
}

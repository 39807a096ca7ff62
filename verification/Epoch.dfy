/** The epoch accumulator, its exact pro-rata settlement, and the settlement transaction. */
module Epoch {
  import opened Canonical
  import opened Collections
  import opened Utxo
  import Emission

  const BLOCKS_PER_EPOCH: nat := 144
  const MAX_LOCKTIME: nat := 0xffff_ffff

  datatype Contribution = Contribution(miner: Bytes, task: Bytes, tflops: int)
  type Weights = map<Bytes, nat>

  /** The value of an epoch accumulator. */
  datatype EpochData = EpochData(startHeight: nat, blockIndex: nat, total: nat, weights: Weights, pool: int)

  // ---------- Accumulating ----------

  function InitEpoch(start: nat): Option<EpochData> {
    if start % BLOCKS_PER_EPOCH != 0 then None else Some(EpochData(start, 0, 0, map[], 0))
  }

  /** The uint check and the safe-integer check on one contribution. */
  predicate Fits(total: nat, tflops: int) {
    0 <= tflops <= MAX_SAFE_INTEGER && total + tflops <= MAX_SAFE_INTEGER
  }

  function AddWeight(e: EpochData, c: Contribution): EpochData
    requires c.tflops >= 0
  {
    var existing := if c.miner in e.weights then e.weights[c.miner] else 0;
    e.(total := e.total + c.tflops, weights := e.weights[c.miner := existing + c.tflops])
  }

  /** Adds contributions until one does not fit; the flag says whether all did. */
  function AddWeights(e: EpochData, cs: seq<Contribution>): (EpochData, bool)
    decreases cs
  {
    if cs == [] then (e, true)
    else if !Fits(e.total, cs[0].tflops) then (e, false)
    else AddWeights(AddWeight(e, cs[0]), cs[1..])
  }

  /** The whole transition. A false flag is a thrown error; what was written before it stays. */
  function ApplyBlock(e: EpochData, cs: seq<Contribution>, height: nat, fees: int): (EpochData, bool) {
    if height % BLOCKS_PER_EPOCH != e.blockIndex then (e, false)
    else
      var funded := e.(pool := e.pool + Emission.BlockReward(height) + fees);
      var (added, ok) := AddWeights(funded, cs);
      if ok then (added.(blockIndex := added.blockIndex + 1), true) else (added, false)
  }

  class EpochState {
    var startHeight: nat
    var blockIndex: nat
    var total: nat
    var weights: Weights
    var pool: int

    function Data(): EpochData
      reads this
    {
      EpochData(startHeight, blockIndex, total, weights, pool)
    }

    constructor (data: EpochData)
      ensures Data() == data
    {
      startHeight, blockIndex := data.startHeight, data.blockIndex;
      total, weights, pool := data.total, data.weights, data.pool;
    }

    method ApplyBlockToEpoch(contributions: seq<Contribution>, height: nat, fees: int) returns (ok: bool)
      modifies this
      ensures (Data(), ok) == ApplyBlock(old(Data()), contributions, height, fees)
    {
      if height % BLOCKS_PER_EPOCH != blockIndex {
        return false;
      }
      var subsidy := Emission.GetBlockReward(height);
      pool := pool + (subsidy + fees);
      ghost var funded := Data();
      var i := 0;
      while i < |contributions|
        invariant i <= |contributions|
        invariant AddWeights(funded, contributions) == AddWeights(Data(), contributions[i..])
      {
        var c := contributions[i];
        assert contributions[i..][0] == c && contributions[i..][1..] == contributions[i + 1..];
        if !(0 <= c.tflops <= MAX_SAFE_INTEGER) || total + c.tflops > MAX_SAFE_INTEGER {
          return false;
        }
        total := total + c.tflops;
        var existing := if c.miner in weights then weights[c.miner] else 0;
        weights := weights[c.miner := existing + c.tflops];
        i := i + 1;
      }
      blockIndex := blockIndex + 1;
      ok := true;
    }
  }

  // ---------- What accumulating keeps ----------

  /** The recorded total is the sum of the map, and stays a safe integer. */
  ghost predicate Consistent(e: EpochData) {
    e.total == SumOf(e.weights) <= MAX_SAFE_INTEGER
  }

  function WorkSum(cs: seq<Contribution>): int {
    if cs == [] then 0 else cs[0].tflops + WorkSum(cs[1..])
  }

  lemma {:induction false} AddWeightsKeeps(e: EpochData, cs: seq<Contribution>)
    requires Consistent(e)
    ensures Consistent(AddWeights(e, cs).0)
    ensures AddWeights(e, cs).1 ==> AddWeights(e, cs).0.total == e.total + WorkSum(cs)
    ensures AddWeights(e, cs).0 == e.(total := AddWeights(e, cs).0.total, weights := AddWeights(e, cs).0.weights)
    ensures (forall c | c in cs :: c.tflops >= 0) ==>
              (AddWeights(e, cs).1 <==> e.total + WorkSum(cs) <= MAX_SAFE_INTEGER)
    decreases cs
  {
    if cs != [] && Fits(e.total, cs[0].tflops) {
      var c := cs[0];
      SumOfUpdate(e.weights, c.miner, c.tflops);
      AddWeightsKeeps(AddWeight(e, c), cs[1..]);
    } else if cs != [] {
      WorkSumNonNegative(cs[1..]);
    }
  }

  lemma {:induction false} WorkSumNonNegative(cs: seq<Contribution>)
    ensures (forall c | c in cs :: c.tflops >= 0) ==> WorkSum(cs) >= 0
  {
    if cs != [] {
      WorkSumNonNegative(cs[1..]);
    }
  }

  /** One block moves subsidy and fees into the pool, keeps the map sum exact, and advances the slot.
      With non-negative work it throws exactly when the epoch's work leaves the safe range. */
  lemma ApplyBlockKeeps(e: EpochData, cs: seq<Contribution>, height: nat, fees: int)
    requires Consistent(e) && height % BLOCKS_PER_EPOCH == e.blockIndex
    ensures var (after, ok) := ApplyBlock(e, cs, height, fees);
            && Consistent(after)
            && after.pool == e.pool + Emission.BlockReward(height) + fees
            && after.startHeight == e.startHeight
            && (ok ==> after.blockIndex == e.blockIndex + 1 && after.total == e.total + WorkSum(cs))
            && ((forall c | c in cs :: c.tflops >= 0) ==> (ok <==> e.total + WorkSum(cs) <= MAX_SAFE_INTEGER))
  {
    AddWeightsKeeps(e.(pool := e.pool + Emission.BlockReward(height) + fees), cs);
  }

  // ---------- Settling ----------

  type Share = (Bytes, nat)

  datatype Payout = Payout(miner: Bytes, amount: int, tflops: nat)
  datatype Settlement = Settlement(epochIndex: nat, startHeight: nat, endHeight: int, pool: int, total: nat,
                                   payouts: seq<Payout>)

  /** BigInt division rounds toward zero. */
  function DivideTowardZero(n: int, d: nat): int
    requires d > 0
  {
    if n >= 0 then n / d else -((-n) / d)
  }

  function FloorShare(pool: int, tflops: nat, total: nat): int
    requires total > 0
  {
    DivideTowardZero(pool * tflops, total)
  }

  function FloorSum(s: seq<Share>, pool: int, total: nat): int
    requires total > 0
  {
    if s == [] then 0 else FloorSum(s[..|s| - 1], pool, total) + FloorShare(pool, s[|s| - 1].1, total)
  }

  /** Everyone but the last gets the floor share; the last gets what is left. */
  function PayoutsOf(s: seq<Share>, pool: int, total: nat): (r: seq<Payout>)
    requires total > 0
    ensures |r| == |s|
  {
    seq(|s|, i requires 0 <= i < |s| =>
      Payout(s[i].0, if i == |s| - 1 then pool - FloorSum(s[..i], pool, total) else FloorShare(pool, s[i].1, total),
             s[i].1))
  }

  /** What a settlement must be, for one particular iteration order of the map. */
  function SettlementOf(e: EpochData, epochIndex: nat, entries: seq<Share>): Option<Settlement> {
    if e.blockIndex != BLOCKS_PER_EPOCH then None
    else
      var end := e.startHeight + BLOCKS_PER_EPOCH - 1;
      if e.total == 0 || e.weights == map[]
      then Some(Settlement(epochIndex, e.startHeight, end, e.pool, 0, []))
      else Some(Settlement(epochIndex, e.startHeight, end, e.pool, e.total,
                           PayoutsOf(Sort(HighestFirst, entries), e.pool, e.total)))
  }

  /** The result is the settlement of every iteration order of the accumulator map. */
  method ComputeEpochSettlement(state: EpochState, epochIndex: nat) returns (r: Option<Settlement>)
    ensures forall entries | IsEnumeration(state.weights, entries) ::
              r == SettlementOf(state.Data(), epochIndex, entries)
  {
    if state.blockIndex != BLOCKS_PER_EPOCH {
      return None;
    }
    var pool, total := state.pool, state.total;
    var end := state.startHeight + BLOCKS_PER_EPOCH - 1;
    if total == 0 || |state.weights| == 0 {
      return Some(Settlement(epochIndex, state.startHeight, end, pool, 0, []));
    }
    var entries := MapEntries(state.weights);
    var sorted := Sort(HighestFirst, entries);
    var payouts: seq<Payout> := [];
    var distributed := 0;
    var i := 0;
    while i < |sorted|
      invariant i <= |sorted|
      invariant payouts == PayoutsOf(sorted, pool, total)[..i]
      invariant i < |sorted| ==> distributed == FloorSum(sorted[..i], pool, total)
    {
      var (miner, tflops) := sorted[i];
      var amount;
      if i == |sorted| - 1 {
        amount := pool - distributed;
      } else {
        amount := DivideTowardZero(pool * tflops, total);
        assert sorted[..i + 1][..i] == sorted[..i];
      }
      distributed := distributed + amount;
      payouts := payouts + [Payout(miner, amount, tflops)];
      i := i + 1;
    }
    assert payouts == PayoutsOf(sorted, pool, total);
    assert state.weights != map[];
    r := Some(Settlement(epochIndex, state.startHeight, end, pool, total, payouts));
    forall other | IsEnumeration(state.weights, other)
      ensures r == SettlementOf(state.Data(), epochIndex, other)
    {
      RankingForgetsOrder(entries, other);
    }
  }

  // ---------- Exactness ----------

  function WeightSum(s: seq<Share>): nat {
    if s == [] then 0 else WeightSum(s[..|s| - 1]) + s[|s| - 1].1
  }

  lemma {:induction false} WeightSumOfMap(m: Weights, s: seq<Share>)
    requires IsEnumeration(m, s)
    ensures WeightSum(s) == SumOf(m)
  {
    if s == [] {
      NoItems(m);
    } else {
      var n := |s| - 1;
      var (k, w) := s[n];
      assert s == s[..n] + [s[n]];
      assert s[n] in multiset(m.Items);
      var rest := m - {k};
      SplitItem(m, k);
      assert multiset(s[..n]) == multiset(s) - multiset{s[n]};
      WeightSumOfMap(rest, s[..n]);
      SumOfRemove(m, k);
    }
  }

  function AmountSum(p: seq<Payout>): int {
    if p == [] then 0 else AmountSum(p[..|p| - 1]) + p[|p| - 1].amount
  }

  lemma {:induction false} FloorPrefixPaid(s: seq<Share>, pool: int, total: nat, n: nat)
    requires total > 0 && n < |s|
    ensures AmountSum(PayoutsOf(s, pool, total)[..n]) == FloorSum(s[..n], pool, total)
  {
    if n > 0 {
      FloorPrefixPaid(s, pool, total, n - 1);
      assert PayoutsOf(s, pool, total)[..n][..n - 1] == PayoutsOf(s, pool, total)[..n - 1];
      assert s[..n][..n - 1] == s[..n - 1];
    }
  }

  /** No base unit is lost or created: the payouts sum to the pool. */
  lemma PayoutsSumToPool(s: seq<Share>, pool: int, total: nat)
    requires total > 0 && s != []
    ensures AmountSum(PayoutsOf(s, pool, total)) == pool
  {
    var n := |s| - 1;
    FloorPrefixPaid(s, pool, total, n);
    assert PayoutsOf(s, pool, total)[..n + 1] == PayoutsOf(s, pool, total);
  }

  /** Scaled by the total, the floors fall short of the exact shares by less than one unit each. */
  lemma {:induction false} FloorShortfall(s: seq<Share>, pool: nat, total: nat)
    requires total > 0
    ensures FloorSum(s, pool, total) >= 0
    ensures total * FloorSum(s, pool, total) <= pool * WeightSum(s)
    ensures pool * WeightSum(s) <= total * FloorSum(s, pool, total) + |s| * (total - 1)
  {
    if s != [] {
      var n := |s| - 1;
      FloorShortfall(s[..n], pool, total);
      OneFloor(pool, s[n].1, total);
      ShortfallStep(pool, WeightSum(s[..n]), s[n].1, total, FloorSum(s[..n], pool, total),
                    FloorShare(pool, s[n].1, total), n);
    }
  }

  lemma OneFloor(pool: nat, w: nat, total: nat)
    requires total > 0
    ensures var f := FloorShare(pool, w, total);
            f >= 0 && total * f <= pool * w <= total * f + (total - 1)
  {
    var n := pool * w;
    assert n >= 0;
    assert n == total * (n / total) + n % total;
  }

  lemma ShortfallStep(pool: nat, ws: nat, w: nat, total: nat, fs: int, f: int, n: nat)
    requires total > 0
    requires total * fs <= pool * ws <= total * fs + n * (total - 1)
    requires total * f <= pool * w <= total * f + (total - 1)
    ensures total * (fs + f) <= pool * (ws + w) <= total * (fs + f) + (n + 1) * (total - 1)
  {
    assert pool * (ws + w) == pool * ws + pool * w;
    assert total * (fs + f) == total * fs + total * f;
    assert (n + 1) * (total - 1) == n * (total - 1) + (total - 1);
  }

  /** The settlement theorem for a consistent accumulator: nobody is paid a negative amount,
      all but the last get exactly the floor share, and the last gets its floor share
      plus at most one base unit per other miner. */
  lemma SharesAreFair(e: EpochData, s: seq<Share>, i: nat)
    requires Consistent(e) && e.total > 0 && e.pool >= 0
    requires multiset(s) == multiset(e.weights.Items) && i < |s|
    ensures var paid := PayoutsOf(s, e.pool, e.total)[i].amount;
            var floor := FloorShare(e.pool, s[i].1, e.total);
            && 0 <= floor <= paid
            && (i < |s| - 1 ==> paid == floor)
            && paid <= floor + |s| - 1
  {
    WeightSumOfMap(e.weights, s);
    OneFloor(e.pool, s[i].1, e.total);
    if i == |s| - 1 {
      FloorShortfall(s, e.pool, e.total);
      Residual(e.pool, e.total, FloorSum(s, e.pool, e.total), |s|);
    }
  }

  lemma Residual(pool: nat, total: nat, floors: int, n: nat)
    requires total > 0 && n > 0
    requires total * floors <= pool * total <= total * floors + n * (total - 1)
    ensures floors <= pool <= floors + n - 1
  {
    assert total * (pool - floors) == pool * total - total * floors;
    NotBelow(total, pool - floors, n);
  }

  lemma NotBelow(total: nat, gap: int, n: nat)
    requires total > 0 && n > 0 && 0 <= total * gap <= n * (total - 1)
    ensures 0 <= gap < n
  {
    if gap < 0 {
      Scale(total, -1, gap);
    } else if gap >= n {
      Scale(total, gap, n);
    }
  }

  lemma Scale(a: nat, b: int, c: int)
    requires b >= c
    ensures a * b >= a * c
  {
  }

  // ---------- The settlement transaction ----------

  function SettlementOutputs(crypto: Crypto, payouts: seq<Payout>): (r: seq<TxOutput>)
    ensures |r| == |payouts|
  {
    seq(|payouts|, i requires 0 <= i < |payouts| =>
      TxOutput(payouts[i].amount, crypto.payoutScript(payouts[i].miner)))
  }

  /** None stands for a height outside the locktime, or more payouts than an array can hold. */
  function CreateSettlementTransaction(crypto: Crypto, settlement: Settlement, height: nat): Option<Transaction> {
    if height > MAX_LOCKTIME || |settlement.payouts| > MAX_ARRAY then None
    else Some(Transaction(1, [], SettlementOutputs(crypto, settlement.payouts), height, None))
  }

  /** Accepts exactly the transactions without inputs whose outputs and locktime are the canonical ones;
      None stands for a thrown error. */
  method ValidateCoinbaseTx(crypto: Crypto, tx: Transaction, state: EpochState, epochIndex: nat, height: nat)
    returns (r: Option<bool>)
    ensures forall entries | IsEnumeration(state.weights, entries) ::
              r == CoinbaseVerdict(crypto, tx, state.Data(), epochIndex, height, entries)
  {
    var maybe := ComputeEpochSettlement(state, epochIndex);
    if maybe.None? {
      return None;
    }
    var settlement := maybe.value;
    var created := CreateSettlementTransaction(crypto, settlement, height);
    if created.None? {
      return None;
    }
    var expected := created.value;
    if |tx.inputs| != 0 {
      return Some(false);
    }
    if tx.locktime != expected.locktime {
      return Some(false);
    }
    if |tx.outputs| != |settlement.payouts| {
      return Some(false);
    }
    var i := 0;
    while i < |settlement.payouts|
      invariant i <= |settlement.payouts|
      invariant tx.outputs[..i] == expected.outputs[..i]
    {
      if tx.outputs[i].scriptPubKey != expected.outputs[i].scriptPubKey {
        return Some(false);
      }
      if tx.outputs[i].value != expected.outputs[i].value {
        return Some(false);
      }
      i := i + 1;
    }
    assert tx.outputs == tx.outputs[..i] && expected.outputs == expected.outputs[..i];
    r := Some(true);
  }

  function CoinbaseVerdict(crypto: Crypto, tx: Transaction, e: EpochData, epochIndex: nat, height: nat,
                           entries: seq<Share>): Option<bool> {
    match SettlementOf(e, epochIndex, entries)
    case None => None
    case Some(settlement) =>
      match CreateSettlementTransaction(crypto, settlement, height)
      case None => None
      case Some(expected) =>
        Some(tx.inputs == [] && tx.locktime == expected.locktime && tx.outputs == expected.outputs)
  }

  lemma {:induction false} OutputsPayAmounts(crypto: Crypto, payouts: seq<Payout>)
    ensures OutputSum(SettlementOutputs(crypto, payouts)) == AmountSum(payouts)
  {
    if payouts != [] {
      var n := |payouts| - 1;
      OutputsPayAmounts(crypto, payouts[..n]);
      assert SettlementOutputs(crypto, payouts)[..n] == SettlementOutputs(crypto, payouts[..n]);
    }
  }
}

/** Block validation against the ledger, and the state transition of an accepted block. */
module Validation {
  import opened Canonical
  import opened Collections
  import opened Utxo
  import opened Epoch
  import Emission

  const DIFFICULTY_SCALE: nat := 1_000_000

  datatype Block = Block(transactions: seq<Transaction>, proofs: seq<Contribution>)

  /** The ledger part of a node's chain state; tip is the height of the last block. */
  datatype Ledger = Ledger(coins: Coins, epoch: EpochData, tip: nat)

  /** What block validation takes from outside the ledger: cryptography, the difficulty target in
      force at a height, and every check that does not concern value (header fields, commitments,
      audit evidence, contribution signatures, proof verification). */
  datatype Rules = Rules(crypto: Crypto, target: nat -> nat, otherChecks: (Block, nat) -> bool)

  // ---------- Transactions ----------

  /** Stateless shape of a transaction. */
  predicate ShapeOk(tx: Transaction, isCoinbase: bool) {
    && (!isCoinbase ==> tx.inputs != [] && Distinct(PrevOuts(tx)))
    && tx.outputs != []
    && (forall i | 0 <= i < |tx.outputs| :: tx.outputs[i].value >= 0)
    && OutputSum(tx.outputs) <= Emission.HARD_CAP
  }

  /** The shape, field by field. */
  lemma ShapeMeans(tx: Transaction, isCoinbase: bool)
    ensures ShapeOk(tx, isCoinbase) <==>
              && (!isCoinbase ==> |tx.inputs| > 0)
              && (!isCoinbase ==>
                    forall i, j | 0 <= i < j < |tx.inputs| :: tx.inputs[i].prevOut != tx.inputs[j].prevOut)
              && |tx.outputs| > 0
              && (forall i | 0 <= i < |tx.outputs| :: tx.outputs[i].value >= 0)
              && OutputSum(tx.outputs) <= 210_000_000_000_000_000_000_000
  {
    if Distinct(PrevOuts(tx)) {
      forall i, j | 0 <= i < j < |tx.inputs|
        ensures tx.inputs[i].prevOut != tx.inputs[j].prevOut
      {
        assert PrevOuts(tx)[i] != PrevOuts(tx)[j];
      }
    }
  }

  method ValidateTransaction(tx: Transaction, isCoinbase: bool) returns (ok: bool)
    ensures ok <==> ShapeOk(tx, isCoinbase)
  {
    if !isCoinbase && |tx.inputs| == 0 {
      return false;
    }
    if |tx.outputs| == 0 {
      return false;
    }
    var totalOut := 0;
    var i := 0;
    while i < |tx.outputs|
      invariant i <= |tx.outputs|
      invariant forall k | 0 <= k < i :: tx.outputs[k].value >= 0
      invariant totalOut == OutputSum(tx.outputs[..i]) <= Emission.HARD_CAP
    {
      var value := tx.outputs[i].value;
      if value < 0 {
        return false;
      }
      OutputPrefix(tx.outputs, i);
      if value > Emission.HARD_CAP {
        return false;
      }
      totalOut := totalOut + value;
      if totalOut > Emission.HARD_CAP {
        return false;
      }
      assert tx.outputs[..i + 1] == tx.outputs[..i] + [tx.outputs[i]];
      i := i + 1;
    }
    assert tx.outputs[..i] == tx.outputs;
    if !isCoinbase {
      ghost var outs := PrevOuts(tx);
      var seen: set<OutPoint> := {};
      i := 0;
      while i < |tx.inputs|
        invariant i <= |tx.inputs|
        invariant seen == Elements(outs[..i]) && Distinct(outs[..i])
      {
        if tx.inputs[i].prevOut in seen {
          assert exists k :: 0 <= k < i && outs[k] == outs[i];
          return false;
        }
        seen := seen + {tx.inputs[i].prevOut};
        assert outs[..i + 1] == outs[..i] + [tx.inputs[i].prevOut];
        i := i + 1;
      }
      assert outs[..i] == outs;
    }
    ok := true;
  }

  /** The first transaction of a block is its coinbase. */
  predicate ShapeAt(txs: seq<Transaction>, i: nat)
    requires i < |txs|
  {
    ShapeOk(txs[i], i == 0)
  }

  predicate ShapesOk(txs: seq<Transaction>) {
    forall i {:trigger ShapeAt(txs, i)} | 0 <= i < |txs| :: ShapeAt(txs, i)
  }

  method ValidateShapes(txs: seq<Transaction>) returns (ok: bool)
    ensures ok <==> ShapesOk(txs)
  {
    var i := 0;
    while i < |txs|
      invariant i <= |txs| && forall k {:trigger ShapeAt(txs, k)} | 0 <= k < i :: ShapeAt(txs, k)
    {
      ok := ValidateTransaction(txs[i], i == 0);
      assert ok <==> ShapeAt(txs, i);
      if !ok {
        return;
      }
      i := i + 1;
    }
    ok := true;
  }

  /** With non-negative values a sum never exceeds a longer one, nor does a single output. */
  lemma {:induction false} OutputPrefix(outputs: seq<TxOutput>, i: nat)
    requires i < |outputs|
    ensures (forall k | 0 <= k < |outputs| :: outputs[k].value >= 0) ==>
              0 <= OutputSum(outputs[..i]) + outputs[i].value <= OutputSum(outputs)
              && 0 <= OutputSum(outputs[..i])
  {
    var n := |outputs| - 1;
    if i < n {
      OutputPrefix(outputs[..n], i);
      assert outputs[..n][..i] == outputs[..i];
    } else if i > 0 {
      OutputPrefix(outputs[..n], i - 1);
      assert outputs[..n][..i - 1] == outputs[..i - 1];
      assert outputs[..i] == outputs[..n];
    }
  }

  // ---------- Spends in block order ----------

  predicate SpendsOk(crypto: Crypto, txs: seq<Transaction>, coins: Coins, height: int) {
    txs == [] ||
    (SpendOk(crypto, txs[0], coins, height)
     && SpendsOk(crypto, txs[1..], Applied(crypto, coins, txs[0], height, false), height))
  }

  function CoinsAfter(crypto: Crypto, txs: seq<Transaction>, coins: Coins, height: int): Coins {
    if txs == [] then coins
    else CoinsAfter(crypto, txs[1..], Applied(crypto, coins, txs[0], height, false), height)
  }

  /** Fees as validation sees them: one spend fee per transaction. */
  function SpendFees(crypto: Crypto, txs: seq<Transaction>, coins: Coins, height: int): int {
    if txs == [] then 0
    else SpendFee(txs[0], coins) +
         SpendFees(crypto, txs[1..], Applied(crypto, coins, txs[0], height, false), height)
  }

  predicate Resolved(tx: Transaction, coins: Coins) {
    forall i | 0 <= i < |tx.inputs| :: tx.inputs[i].prevOut in coins
  }

  /** Fees as the node computes them before validating: unresolvable transactions count as zero. */
  function NodeFees(crypto: Crypto, txs: seq<Transaction>, coins: Coins, height: int): int {
    if txs == [] then 0
    else (if Resolved(txs[0], coins) then SpendFee(txs[0], coins) else 0) +
         NodeFees(crypto, txs[1..], Applied(crypto, coins, txs[0], height, false), height)
  }

  lemma {:induction false} NodeFeesAreSpendFees(crypto: Crypto, txs: seq<Transaction>, coins: Coins, height: int)
    requires SpendsOk(crypto, txs, coins, height)
    ensures NodeFees(crypto, txs, coins, height) == SpendFees(crypto, txs, coins, height)
  {
    if txs != [] {
      assert Resolved(txs[0], coins) by {
        forall i | 0 <= i < |txs[0].inputs|
          ensures txs[0].inputs[i].prevOut in coins
        {
          assert InputOk(crypto, txs[0], coins, height, i);
        }
      }
      NodeFeesAreSpendFees(crypto, txs[1..], Applied(crypto, coins, txs[0], height, false), height);
    }
  }

  method ResolveInputs(tx: Transaction, view: UTXOSet) returns (resolved: bool, inSum: int)
    ensures resolved <==> Resolved(tx, view.coins)
    ensures resolved ==> inSum == InputSum(view.coins, PrevOuts(tx))
  {
    ghost var outs := PrevOuts(tx);
    inSum := 0;
    var i := 0;
    while i < |tx.inputs|
      invariant i <= |tx.inputs|
      invariant forall k | 0 <= k < i :: tx.inputs[k].prevOut in view.coins
      invariant inSum == InputSum(view.coins, outs[..i])
    {
      if tx.inputs[i].prevOut !in view.coins {
        return false, inSum;
      }
      inSum := inSum + view.coins[tx.inputs[i].prevOut].value;
      assert outs[..i + 1] == outs[..i] + [tx.inputs[i].prevOut];
      i := i + 1;
    }
    assert outs[..i] == outs;
    resolved := true;
  }

  method CalculateTransactionFees(crypto: Crypto, txs: seq<Transaction>, height: int, utxo: UTXOSet)
    returns (fees: int)
    ensures fees == NodeFees(crypto, txs, utxo.coins, height)
  {
    var view := utxo.Clone();
    fees := 0;
    var n := 0;
    while n < |txs|
      invariant n <= |txs| && fresh(view)
      invariant fees + NodeFees(crypto, txs[n..], view.coins, height) == NodeFees(crypto, txs, utxo.coins, height)
    {
      var tx := txs[n];
      assert txs[n..][0] == tx && txs[n..][1..] == txs[n + 1..];
      var resolved, inSum := ResolveInputs(tx, view);
      var outSum := SumOutputs(tx.outputs);
      view.ApplyTransaction(crypto, tx, height, false);
      if resolved {
        fees := fees + (inSum - outSum);
      }
      n := n + 1;
    }
  }

  /** Validates spends in order, exposing each transaction's outputs to the later ones. */
  method CheckSpends(crypto: Crypto, txs: seq<Transaction>, height: int, view: UTXOSet) returns (ok: bool)
    modifies view
    ensures ok <==> SpendsOk(crypto, txs, old(view.coins), height)
  {
    var i := 0;
    while i < |txs|
      invariant i <= |txs|
      invariant SpendsOk(crypto, txs, old(view.coins), height) <==> SpendsOk(crypto, txs[i..], view.coins, height)
    {
      assert txs[i..][0] == txs[i] && txs[i..][1..] == txs[i + 1..];
      var spend := ValidateSpend(crypto, txs[i], view, height);
      if spend.Rejected? {
        return false;
      }
      view.ApplyTransaction(crypto, txs[i], height, false);
      i := i + 1;
    }
    ok := true;
  }

  method ApplySpends(crypto: Crypto, txs: seq<Transaction>, height: int, utxo: UTXOSet)
    modifies utxo
    ensures utxo.coins == CoinsAfter(crypto, txs, old(utxo.coins), height)
  {
    var i := 0;
    while i < |txs|
      invariant i <= |txs|
      invariant CoinsAfter(crypto, txs, old(utxo.coins), height) == CoinsAfter(crypto, txs[i..], utxo.coins, height)
    {
      assert txs[i..][0] == txs[i] && txs[i..][1..] == txs[i + 1..];
      utxo.ApplyTransaction(crypto, txs[i], height, false);
      i := i + 1;
    }
  }

  method SumOutputs(outputs: seq<TxOutput>) returns (sum: int)
    ensures sum == OutputSum(outputs)
  {
    sum := 0;
    var i := 0;
    while i < |outputs|
      invariant i <= |outputs| && sum == OutputSum(outputs[..i])
    {
      assert outputs[..i + 1] == outputs[..i] + [outputs[i]];
      sum := sum + outputs[i].value;
      i := i + 1;
    }
    assert outputs[..i] == outputs;
  }

  // ---------- Compute proofs ----------

  predicate ProofsOk(proofs: seq<Contribution>, target: nat) {
    && proofs != []
    && (forall i, j {:trigger Unrelated(proofs[i], proofs[j])} | 0 <= i < j < |proofs| ::
          Unrelated(proofs[i], proofs[j]))
    && (forall i {:trigger ProofOk(proofs[i], target)} | 0 <= i < |proofs| :: ProofOk(proofs[i], target))
    && WorkSum(proofs) <= MAX_SAFE_INTEGER
    && WorkSum(proofs) * DIFFICULTY_SCALE >= target
  }

  predicate Unrelated(a: Contribution, b: Contribution) {
    a.miner != b.miner && a.task != b.task
  }

  predicate ProofOk(c: Contribution, target: nat) {
    0 <= c.tflops <= MAX_SAFE_INTEGER && c.tflops * DIFFICULTY_SCALE >= (target + 9) / 10
  }

  lemma {:induction false} WorkSumExtends(proofs: seq<Contribution>, i: nat)
    requires i < |proofs|
    ensures WorkSum(proofs[..i + 1]) == WorkSum(proofs[..i]) + proofs[i].tflops
  {
    if i > 0 {
      WorkSumExtends(proofs[1..], i - 1);
      assert proofs[..i + 1][1..] == proofs[1..][..i] && proofs[..i][1..] == proofs[1..][..i - 1];
    } else {
      assert proofs[..1][1..] == [] && proofs[..0] == [];
    }
  }

  method ValidateComputeProofs(proofs: seq<Contribution>, target: nat) returns (ok: bool)
    ensures ok <==> ProofsOk(proofs, target)
  {
    if |proofs| == 0 {
      return false;
    }
    var seenMiners: set<Bytes>, seenTasks: set<Bytes> := {}, {};
    var i := 0;
    while i < |proofs|
      invariant i <= |proofs|
      invariant seenMiners == set k | 0 <= k < i :: proofs[k].miner
      invariant seenTasks == set k | 0 <= k < i :: proofs[k].task
      invariant forall a, b | 0 <= a < b < i :: Unrelated(proofs[a], proofs[b])
    {
      if proofs[i].miner in seenMiners || proofs[i].task in seenTasks {
        assert exists k :: 0 <= k < i && !Unrelated(proofs[k], proofs[i]);
        return false;
      }
      seenMiners := seenMiners + {proofs[i].miner};
      seenTasks := seenTasks + {proofs[i].task};
      i := i + 1;
    }
    var total := 0;
    i := 0;
    while i < |proofs|
      invariant i <= |proofs|
      invariant forall k | 0 <= k < i :: ProofOk(proofs[k], target)
      invariant total == WorkSum(proofs[..i])
    {
      if !ProofOk(proofs[i], target) {
        return false;
      }
      WorkSumExtends(proofs, i);
      total := total + proofs[i].tflops;
      i := i + 1;
    }
    assert proofs[..i] == proofs;
    WorkSumNonNegative(proofs);
    ok := total <= MAX_SAFE_INTEGER && total * DIFFICULTY_SCALE >= target;
  }

  // ---------- Blocks ----------

  predicate IsBoundary(height: nat) {
    height % BLOCKS_PER_EPOCH == BLOCKS_PER_EPOCH - 1
  }

  predicate OverwritesNothing(crypto: Crypto, tx: Transaction, coins: Coins) {
    forall vout | 0 <= vout < |tx.outputs| ::
      tx.outputs[vout].value > 0 ==> OutPoint(crypto.txid(tx), vout) !in coins
  }

  /** tx is the canonical settlement of the completed epoch e. */
  ghost predicate Settles(crypto: Crypto, tx: Transaction, e: EpochData, height: nat) {
    exists entries ::
      IsEnumeration(e.weights, entries)
      && CoinbaseVerdict(crypto, tx, e, height / BLOCKS_PER_EPOCH, height, entries) == Some(true)
  }

  /** A verdict that holds of every listing says whether tx settles the epoch. */
  lemma SettlesByVerdict(crypto: Crypto, tx: Transaction, e: EpochData, height: nat, verdict: Option<bool>)
    requires forall entries | IsEnumeration(e.weights, entries) ::
               verdict == CoinbaseVerdict(crypto, tx, e, height / BLOCKS_PER_EPOCH, height, entries)
    ensures verdict == Some(true) <==> Settles(crypto, tx, e, height)
  {
    hide CoinbaseVerdict;
    ListExists(e.weights.Items);
    var some :| Lists(e.weights.Items, some);
    assert IsEnumeration(e.weights, some);
  }

  ghost predicate CoinbaseOk(crypto: Crypto, tx: Transaction, block: Block, ledger: Ledger, fees: int) {
    var height := ledger.tip + 1;
    if IsBoundary(height) then
      var (settled, ok) := ApplyBlock(ledger.epoch, block.proofs, height, fees);
      ok && Settles(crypto, tx, settled, height)
    else OutputSum(tx.outputs) <= 0
  }

  /** Everything before the coinbase check. */
  predicate BodyOk(rules: Rules, ledger: Ledger, block: Block) {
    && block.transactions != []
    && ShapesOk(block.transactions)
    && OverwritesNothing(rules.crypto, block.transactions[0], ledger.coins)
    && SpendsOk(rules.crypto, block.transactions[1..], ledger.coins, ledger.tip + 1)
    && ProofsOk(block.proofs, rules.target(ledger.tip + 1))
  }

  /** Everything a block must meet to be accepted on top of a ledger. */
  ghost predicate BlockOk(rules: Rules, ledger: Ledger, block: Block) {
    && rules.otherChecks(block, ledger.tip + 1)
    && rules.target(ledger.tip + 1) > 0
    && BodyOk(rules, ledger, block)
    && CoinbaseOk(rules.crypto, block.transactions[0], block, ledger, BlockFees(rules.crypto, block, ledger))
  }

  function BlockFees(crypto: Crypto, block: Block, ledger: Ledger): int
    requires block.transactions != []
  {
    NodeFees(crypto, block.transactions[1..], ledger.coins, ledger.tip + 1)
  }

  /** The accumulator after a block: a fresh one follows a boundary. */
  function NextEpoch(e: EpochData, proofs: seq<Contribution>, height: nat, fees: int): (EpochData, bool) {
    var (applied, ok) := ApplyBlock(e, proofs, height, fees);
    if ok && IsBoundary(height) then (InitEpoch(height + 1).value, true) else (applied, ok)
  }

  function CoinsAfterBlock(crypto: Crypto, ledger: Ledger, block: Block): Coins
    requires block.transactions != []
  {
    var height, txs := ledger.tip + 1, block.transactions;
    CoinsAfter(crypto, txs[1..], Applied(crypto, ledger.coins, txs[0], height, true), height)
  }

  /** The transition of applyBlockState; a false flag is the error applyBlockToEpoch throws. */
  function ApplyToLedger(crypto: Crypto, ledger: Ledger, block: Block): (Ledger, bool)
    requires block.transactions != []
  {
    var next := NextEpoch(ledger.epoch, block.proofs, ledger.tip + 1, BlockFees(crypto, block, ledger));
    (Ledger(CoinsAfterBlock(crypto, ledger, block), next.0, ledger.tip + 1), next.1)
  }

  /** Genesis: its outputs carry no value, and its subsidy opens the first epoch's pool. */
  function Genesis(): Ledger {
    Ledger(map[], EpochData(0, 1, 0, map[], Emission.BlockReward(0)), 0)
  }

  class ChainState {
    var utxos: UTXOSet
    var epochState: EpochState
    var tip: nat

    function Value(): Ledger
      reads this, utxos, epochState
    {
      Ledger(utxos.coins, epochState.Data(), tip)
    }

    constructor ()
      ensures Value() == Genesis() && fresh(utxos) && fresh(epochState)
    {
      utxos := new UTXOSet();
      epochState := new EpochState(InitEpoch(0).value);
      tip := 0;
      new;
      var ok := epochState.ApplyBlockToEpoch([], 0, 0);
    }

    method ValidateBlock(rules: Rules, block: Block) returns (valid: bool)
      ensures valid <==> BlockOk(rules, Value(), block)
    {
      ghost var ledger := Value();
      if !rules.otherChecks(block, tip + 1) || rules.target(tip + 1) == 0 {
        return false;
      }
      var bodyOk := ValidateBody(rules, block);
      assert Value() == ledger && bodyOk == BodyOk(rules, ledger, block);
      if !bodyOk {
        return false;
      }
      valid := ValidateCoinbase(rules.crypto, block, tip + 1);
      assert Value() == ledger;
    }

    method ValidateBody(rules: Rules, block: Block) returns (ok: bool)
      ensures ok <==> BodyOk(rules, Value(), block)
    {
      if |block.transactions| == 0 {
        return false;
      }
      ok := ValidateShapes(block.transactions);
      if !ok {
        return;
      }
      ok := ValidateSpends(rules.crypto, block.transactions, tip + 1);
      if !ok {
        return;
      }
      ok := ValidateComputeProofs(block.proofs, rules.target(tip + 1));
    }

    /** Step 2b: overwrite check, then every spend against a scratch view. */
    method ValidateSpends(crypto: Crypto, txs: seq<Transaction>, height: nat) returns (ok: bool)
      requires txs != []
      ensures ok <==> OverwritesNothing(crypto, txs[0], utxos.coins) && SpendsOk(crypto, txs[1..], utxos.coins, height)
    {
      var view := utxos.Clone();
      var coinbase := txs[0];
      var id := crypto.txid(coinbase);
      var vout := 0;
      while vout < |coinbase.outputs|
        invariant vout <= |coinbase.outputs|
        invariant forall k | 0 <= k < vout :: coinbase.outputs[k].value > 0 ==> OutPoint(id, k) !in view.coins
      {
        if coinbase.outputs[vout].value > 0 && OutPoint(id, vout) in view.coins {
          return false;
        }
        vout := vout + 1;
      }
      ok := CheckSpends(crypto, txs[1..], height, view);
    }

    /** Step 7: the settlement of the epoch as it will be with this block, or no minting at all. */
    method ValidateCoinbase(crypto: Crypto, block: Block, height: nat) returns (ok: bool)
      requires block.transactions != [] && height == tip + 1
      ensures ok <==> CoinbaseOk(crypto, block.transactions[0], block, Value(), BlockFees(crypto, block, Value()))
    {
      hide CoinbaseVerdict, Settles, ApplyBlock, NodeFees, IsEnumeration, Consistent, Applied;
      var coinbase := block.transactions[0];
      if IsBoundary(height) {
        var fees := CalculateTransactionFees(crypto, block.transactions[1..], height, utxos);
        var settled := new EpochState(epochState.Data());
        var applied := settled.ApplyBlockToEpoch(block.proofs, height, fees);
        if !applied {
          return false;
        }
        var verdict := ValidateCoinbaseTx(crypto, coinbase, settled, height / BLOCKS_PER_EPOCH, height);
        SettlesByVerdict(crypto, coinbase, settled.Data(), height, verdict);
        ok := verdict == Some(true);
      } else {
        var minted := SumOutputs(coinbase.outputs);
        ok := !(minted > 0);
      }
    }

    /** Validates and, if valid, applies. When applying throws, the flag is false. */
    method AcceptBlock(rules: Rules, block: Block) returns (accepted: bool)
      modifies this, utxos, epochState
      ensures accepted <==> BlockOk(rules, old(Value()), block) && ApplyToLedger(rules.crypto, old(Value()), block).1
      ensures accepted ==> Value() == ApplyToLedger(rules.crypto, old(Value()), block).0
      ensures !BlockOk(rules, old(Value()), block) ==> Value() == old(Value())
      ensures utxos == old(utxos) && (epochState == old(epochState) || fresh(epochState))
    {
      var valid := ValidateBlock(rules, block);
      if !valid {
        return false;
      }
      accepted := ApplyBlockState(rules.crypto, block);
    }

    method ApplyBlockState(crypto: Crypto, block: Block) returns (ok: bool)
      requires block.transactions != []
      modifies this, utxos, epochState
      ensures (Value(), ok) == ApplyToLedger(crypto, old(Value()), block)
      ensures utxos == old(utxos) && (epochState == old(epochState) || fresh(epochState))
    {
      hide Applied, NextEpoch;
      var height, txs := tip + 1, block.transactions;
      tip := height;
      var fees := CalculateTransactionFees(crypto, txs[1..], height, utxos);
      utxos.ApplyTransaction(crypto, txs[0], height, true);
      ApplySpends(crypto, txs[1..], height, utxos);
      ok := AdvanceEpoch(block.proofs, height, fees);
    }

    /** Applies the block to the accumulator and opens a fresh one after a boundary. */
    method AdvanceEpoch(proofs: seq<Contribution>, height: nat, fees: int) returns (ok: bool)
      modifies this, epochState
      ensures utxos == old(utxos) && tip == old(tip)
      ensures epochState == old(epochState) || fresh(epochState)
      ensures (epochState.Data(), ok) == NextEpoch(old(epochState.Data()), proofs, height, fees)
    {
      ok := epochState.ApplyBlockToEpoch(proofs, height, fees);
      if ok && height % BLOCKS_PER_EPOCH == BLOCKS_PER_EPOCH - 1 {
        epochState := new EpochState(InitEpoch(height + 1).value);
      }
    }
  }
}

/** What every accepted chain keeps: exact supply and outpoints that are created and spent once. */
module Chain {
  import opened Canonical
  import opened Collections
  import opened Utxo
  import opened Epoch
  import opened Validation
  import Emission

  // ---------- History ----------

  /** One applied transaction. */
  datatype Record = Record(tx: Transaction, height: nat, isCoinbase: bool)
  type History = seq<Record>

  function Outs(crypto: Crypto, r: Record): Coins {
    CreatedBy(crypto, r.tx, r.height, r.isCoinbase)
  }

  function Ins(r: Record): set<OutPoint> {
    if r.isCoinbase then {} else Elements(PrevOuts(r.tx))
  }

  function EverCreated(crypto: Crypto, hist: History): Coins {
    if hist == [] then map[] else EverCreated(crypto, hist[..|hist| - 1]) + Outs(crypto, hist[|hist| - 1])
  }

  function EverSpent(hist: History): set<OutPoint> {
    if hist == [] then {} else EverSpent(hist[..|hist| - 1]) + Ins(hist[|hist| - 1])
  }

  lemma {:induction false} CreatedBySome(crypto: Crypto, hist: History, o: OutPoint) returns (i: nat)
    requires o in EverCreated(crypto, hist)
    ensures i < |hist| && o in Outs(crypto, hist[i])
  {
    var n := |hist| - 1;
    if o in Outs(crypto, hist[n]) {
      i := n;
    } else {
      i := CreatedBySome(crypto, hist[..n], o);
    }
  }

  lemma {:induction false} CreatedEver(crypto: Crypto, hist: History, i: nat)
    requires i < |hist|
    ensures Outs(crypto, hist[i]).Keys <= EverCreated(crypto, hist).Keys && Ins(hist[i]) <= EverSpent(hist)
  {
    var n := |hist| - 1;
    if i < n {
      CreatedEver(crypto, hist[..n], i);
    }
  }

  // ---------- The invariant of the coin set ----------

  /** A coinbase that creates value spends nothing and names its height in its locktime. */
  ghost predicate Marked(crypto: Crypto, r: Record) {
    r.isCoinbase && Outs(crypto, r) != map[] ==> r.tx.inputs == [] && r.tx.locktime == r.height <= MAX_LOCKTIME
  }

  predicate SpendsSomething(r: Record) {
    !r.isCoinbase ==> r.tx.inputs != []
  }

  predicate Apart(crypto: Crypto, a: Record, b: Record) {
    Outs(crypto, a).Keys !! Outs(crypto, b).Keys && Ins(a) !! Ins(b)
  }

  /** No outpoint is created by two records or spent by two records. */
  ghost predicate UsedOnce(crypto: Crypto, hist: History) {
    forall i, j {:trigger Apart(crypto, hist[i], hist[j])} | 0 <= i < j < |hist| :: Apart(crypto, hist[i], hist[j])
  }

  ghost predicate WellFormed(crypto: Crypto, hist: History) {
    && (forall i {:trigger SpendsSomething(hist[i])} | 0 <= i < |hist| :: SpendsSomething(hist[i]))
    && (forall i {:trigger Marked(crypto, hist[i])} | 0 <= i < |hist| :: Marked(crypto, hist[i]))
  }

  ghost predicate CoinsInv(crypto: Crypto, coins: Coins, hist: History) {
    && EverSpent(hist) <= EverCreated(crypto, hist).Keys
    && coins == EverCreated(crypto, hist) - EverSpent(hist)
    && WellFormed(crypto, hist)
    && UsedOnce(crypto, hist)
  }

  ghost predicate AllBelow(hist: History, height: nat) {
    forall i {:trigger hist[i].height} | 0 <= i < |hist| :: hist[i].height < height
  }

  /** An id that differs from every value-creating record's creates only new outpoints. */
  lemma NewIdIsFresh(crypto: Crypto, hist: History, tx: Transaction, height: nat, isCoinbase: bool)
    requires forall i | 0 <= i < |hist| :: Outs(crypto, hist[i]) == map[] || crypto.txid(hist[i].tx) != crypto.txid(tx)
    ensures EverCreated(crypto, hist).Keys !! CreatedBy(crypto, tx, height, isCoinbase).Keys
  {
    forall o | o in EverCreated(crypto, hist)
      ensures o !in CreatedBy(crypto, tx, height, isCoinbase)
    {
      var i := CreatedBySome(crypto, hist, o);
    }
  }

  lemma SpentInputsKnown(crypto: Crypto, coins: Coins, tx: Transaction, height: nat)
    requires SpendOk(crypto, tx, coins, height)
    ensures forall o | o in PrevOuts(tx) :: o in coins
  {
    forall o | o in PrevOuts(tx)
      ensures o in coins
    {
      var i :| 0 <= i < |tx.inputs| && PrevOuts(tx)[i] == o;
      assert InputOk(crypto, tx, coins, height, i);
    }
  }

  /** What was created sits at a position a 32-bit field can name. */
  lemma CreatedInRange(crypto: Crypto, hist: History, o: OutPoint)
    requires o in EverCreated(crypto, hist)
    ensures o.vout < UINT32
  {
    var i := CreatedBySome(crypto, hist, o);
  }

  lemma SameFirstInput(a: Transaction, b: Transaction)
    requires Alike(a, b) && b.inputs != [] && PrevOuts(b)[0].vout < UINT32
    ensures a.inputs != [] && (PrevOuts(a)[0].vout < UINT32 ==> PrevOuts(a)[0] == PrevOuts(b)[0])
  {
    assert a.inputs[0].prevOut.txid == b.inputs[0].prevOut.txid;
  }

  /** An earlier transaction with the id of a spend would have spent the same inputs, and those are gone. */
  lemma SpendIdDiffers(crypto: Crypto, coins: Coins, hist: History, tx: Transaction, i: nat)
    requires CollisionFree(crypto) && CoinsInv(crypto, coins, hist) && i < |hist|
    requires tx.inputs != [] && PrevOuts(tx)[0] in coins
    ensures Outs(crypto, hist[i]) == map[] || crypto.txid(hist[i].tx) != crypto.txid(tx)
  {
    hide UsedOnce, Alike, Outs;
    var past := hist[i].tx;
    CreatedInRange(crypto, hist, PrevOuts(tx)[0]);
    assert Marked(crypto, hist[i]) && SpendsSomething(hist[i]);
    if crypto.txid(past) == crypto.txid(tx) && Outs(crypto, hist[i]) != map[] {
      assert Alike(past, tx);
      SameFirstInput(past, tx);
      CreatedEver(crypto, hist, i);
      assert PrevOuts(past)[0] in Ins(hist[i]);
      CreatedInRange(crypto, hist, PrevOuts(past)[0]);
      assert false;
    }
  }

  /** An accepted spend never repeats an id, so it creates only new outpoints. */
  lemma SpendIsFresh(crypto: Crypto, coins: Coins, hist: History, tx: Transaction, height: nat)
    requires CollisionFree(crypto) && CoinsInv(crypto, coins, hist)
    requires SpendOk(crypto, tx, coins, height) && tx.inputs != []
    ensures EverCreated(crypto, hist).Keys !! CreatedBy(crypto, tx, height, false).Keys
  {
    hide CollisionFree, CoinsInv, Outs;
    SpentInputsKnown(crypto, coins, tx, height);
    assert PrevOuts(tx)[0] in coins;
    forall i | 0 <= i < |hist|
      ensures Outs(crypto, hist[i]) == map[] || crypto.txid(hist[i].tx) != crypto.txid(tx)
    {
      SpendIdDiffers(crypto, coins, hist, tx, i);
    }
    NewIdIsFresh(crypto, hist, tx, height, false);
  }

  /** Spends have inputs, and earlier value-creating coinbases name lower heights. */
  lemma CoinbaseIdDiffers(crypto: Crypto, coins: Coins, hist: History, tx: Transaction, height: nat, i: nat)
    requires CollisionFree(crypto) && CoinsInv(crypto, coins, hist) && AllBelow(hist, height) && i < |hist|
    requires tx.inputs == [] && tx.locktime == height <= MAX_LOCKTIME
    ensures Outs(crypto, hist[i]) == map[] || crypto.txid(hist[i].tx) != crypto.txid(tx)
  {
    hide UsedOnce, Outs;
    assert Marked(crypto, hist[i]) && SpendsSomething(hist[i]) && hist[i].height < height;
    if crypto.txid(hist[i].tx) == crypto.txid(tx) {
      assert Alike(hist[i].tx, tx);
    }
  }

  /** A coinbase that creates value never repeats an id either. */
  lemma CoinbaseIsFresh(crypto: Crypto, coins: Coins, hist: History, tx: Transaction, height: nat)
    requires CollisionFree(crypto) && CoinsInv(crypto, coins, hist) && AllBelow(hist, height)
    requires Marked(crypto, Record(tx, height, true))
    ensures EverCreated(crypto, hist).Keys !! CreatedBy(crypto, tx, height, true).Keys
  {
    hide CollisionFree, CoinsInv, AllBelow;
    if CreatedBy(crypto, tx, height, true) != map[] {
      assert Outs(crypto, Record(tx, height, true)) != map[];
      forall i | 0 <= i < |hist|
        ensures Outs(crypto, hist[i]) == map[] || crypto.txid(hist[i].tx) != crypto.txid(tx)
      {
        CoinbaseIdDiffers(crypto, coins, hist, tx, height, i);
      }
      NewIdIsFresh(crypto, hist, tx, height, true);
    }
  }

  /** Appending a fresh record keeps the invariant. */
  lemma AppendKeeps(crypto: Crypto, coins: Coins, hist: History, r: Record)
    requires CoinsInv(crypto, coins, hist) && Marked(crypto, r)
    requires EverCreated(crypto, hist).Keys !! Outs(crypto, r).Keys
    requires Ins(r) <= coins.Keys && (!r.isCoinbase ==> r.tx.inputs != [])
    ensures CoinsInv(crypto, Applied(crypto, coins, r.tx, r.height, r.isCoinbase), hist + [r])
  {
    var after := hist + [r];
    assert after[..|after| - 1] == hist;
    assert EverCreated(crypto, after) == EverCreated(crypto, hist) + Outs(crypto, r);
    assert EverSpent(after) == EverSpent(hist) + Ins(r);
    assert UsedOnce(crypto, after) by {
      forall i, j | 0 <= i < j < |after|
        ensures Apart(crypto, after[i], after[j])
      {
        CreatedEver(crypto, hist, i);
        assert j < |hist| ==> Apart(crypto, hist[i], hist[j]);
      }
    }
    AppendWellFormed(crypto, hist, r);
    MapAlgebra(EverCreated(crypto, hist), EverSpent(hist), Outs(crypto, r), Ins(r));
  }

  lemma AppendWellFormed(crypto: Crypto, hist: History, r: Record)
    requires WellFormed(crypto, hist) && SpendsSomething(r) && Marked(crypto, r)
    ensures WellFormed(crypto, hist + [r])
  {
    var after := hist + [r];
    forall i | 0 <= i < |after|
      ensures SpendsSomething(after[i]) && Marked(crypto, after[i])
    {
      assert i < |hist| ==> SpendsSomething(hist[i]) && Marked(crypto, hist[i]);
    }
  }

  lemma MapAlgebra(created: Coins, spent: set<OutPoint>, outs: Coins, ins: set<OutPoint>)
    requires created.Keys !! outs.Keys && spent <= created.Keys && ins <= (created - spent).Keys
    ensures (created + outs) - (spent + ins) == (created - spent - ins) + outs
    ensures ins == {} ==> created - spent - ins == created - spent
  {
  }

  // ---------- One block ----------

  function Spends(txs: seq<Transaction>, height: nat): History {
    seq(|txs|, i requires 0 <= i < |txs| => Record(txs[i], height, false))
  }

  /** A block applies its coinbase first, then its spends in order. */
  function Extended(hist: History, block: Block, height: nat): History
    requires block.transactions != []
  {
    hist + [Record(block.transactions[0], height, true)] + Spends(block.transactions[1..], height)
  }

  lemma SpendKeeps(crypto: Crypto, coins: Coins, hist: History, tx: Transaction, height: nat)
    requires CollisionFree(crypto) && CoinsInv(crypto, coins, hist)
    requires SpendOk(crypto, tx, coins, height) && tx.inputs != []
    ensures var after := Applied(crypto, coins, tx, height, false);
            && CoinsInv(crypto, after, hist + [Record(tx, height, false)])
            && Total(after) + SpendFee(tx, coins) == Total(coins)
            && SpendFee(tx, coins) >= 0
  {
    SpendIsFresh(crypto, coins, hist, tx, height);
    SpendConserves(crypto, tx, coins, height);
    SpentInputsKnown(crypto, coins, tx, height);
    AppendKeeps(crypto, coins, hist, Record(tx, height, false));
  }

  /** Spends accepted one after the other keep the coin invariant and move value only into fees. */
  lemma {:induction false} SpendsKeep(crypto: Crypto, coins: Coins, hist: History, txs: seq<Transaction>, height: nat)
    requires CollisionFree(crypto) && CoinsInv(crypto, coins, hist)
    requires SpendsOk(crypto, txs, coins, height) && AllSpend(txs)
    ensures CoinsInv(crypto, CoinsAfter(crypto, txs, coins, height), hist + Spends(txs, height))
    ensures Total(CoinsAfter(crypto, txs, coins, height)) + SpendFees(crypto, txs, coins, height) == Total(coins)
    ensures SpendFees(crypto, txs, coins, height) >= 0
    decreases txs
  {
    if txs == [] {
      assert hist + Spends(txs, height) == hist;
    } else {
      var r := Record(txs[0], height, false);
      SpendKeeps(crypto, coins, hist, txs[0], height);
      SpendsKeep(crypto, Applied(crypto, coins, txs[0], height, false), hist + [r], txs[1..], height);
      SpendsFirst(hist, txs, height);
    }
  }

  lemma SpendsFirst(hist: History, txs: seq<Transaction>, height: nat)
    requires txs != []
    ensures hist + [Record(txs[0], height, false)] + Spends(txs[1..], height) == hist + Spends(txs, height)
  {
  }

  /** One spend, with and without coins it cannot name. */
  lemma SpendIgnores(crypto: Crypto, view: Coins, extra: Coins, tx: Transaction, height: nat)
    requires SpendOk(crypto, tx, view, height) && view.Keys !! extra.Keys
    requires CreatedBy(crypto, tx, height, false).Keys !! extra.Keys
    ensures SpendOk(crypto, tx, view + extra, height)
    ensures SpendFee(tx, view + extra) == SpendFee(tx, view)
    ensures var next := Applied(crypto, view, tx, height, false);
            next.Keys !! extra.Keys && Applied(crypto, view + extra, tx, height, false) == next + extra
  {
    SpentInputsKnown(crypto, view, tx, height);
    forall i | 0 <= i < |tx.inputs|
      ensures InputOk(crypto, tx, view + extra, height, i)
    {
      assert InputOk(crypto, tx, view, height, i);
    }
    SameInputSum(view, extra, PrevOuts(tx));
    AppliedBeside(view, extra, Elements(PrevOuts(tx)), CreatedBy(crypto, tx, height, false));
  }

  lemma AppliedBeside(view: Coins, extra: Coins, ins: set<OutPoint>, outs: Coins)
    requires view.Keys !! extra.Keys && outs.Keys !! extra.Keys && ins <= view.Keys
    ensures ((view - ins) + outs).Keys !! extra.Keys
    ensures ((view + extra) - ins) + outs == ((view - ins) + outs) + extra
  {
  }

  /** Validation runs the spends without the block's coinbase outputs, the transition runs them with.
      As long as nothing can name those outputs, both succeed alike, with the same fees. */
  lemma {:induction false} SpendsIgnoreCoinbase(crypto: Crypto, view: Coins, extra: Coins, id: Hash,
                                                txs: seq<Transaction>, height: nat)
    requires SpendsOk(crypto, txs, view, height) && view.Keys !! extra.Keys
    requires forall o | o in extra :: o.txid == id
    requires extra == map[] || forall i | 0 <= i < |txs| :: crypto.txid(txs[i]) != id
    ensures SpendsOk(crypto, txs, view + extra, height)
    ensures SpendFees(crypto, txs, view + extra, height) == SpendFees(crypto, txs, view, height)
    decreases txs
  {
    if txs != [] {
      SpendIgnores(crypto, view, extra, txs[0], height);
      SpendsIgnoreCoinbase(crypto, Applied(crypto, view, txs[0], height, false), extra, id, txs[1..], height);
    }
  }

  lemma {:induction false} SameInputSum(view: Coins, extra: Coins, outs: seq<OutPoint>)
    requires view.Keys !! extra.Keys && forall i | 0 <= i < |outs| :: outs[i] in view
    ensures InputSum(view + extra, outs) == InputSum(view, outs)
  {
    if outs != [] {
      SameInputSum(view, extra, outs[..|outs| - 1]);
    }
  }

  // ---------- The invariant of the ledger ----------

  ghost predicate LedgerInv(crypto: Crypto, ledger: Ledger, hist: History) {
    && CoinsInv(crypto, ledger.coins, hist)
    && AllBelow(hist, ledger.tip + 1)
    && Consistent(ledger.epoch)
    && ledger.epoch.blockIndex == (ledger.tip + 1) % BLOCKS_PER_EPOCH
    && ledger.epoch.pool >= 0 && (ledger.epoch.blockIndex == 0 ==> ledger.epoch.pool == 0)
    && Total(ledger.coins) + ledger.epoch.pool == Emission.Supply(ledger.tip + 1)
  }

  lemma GenesisInv(crypto: Crypto)
    ensures LedgerInv(crypto, Genesis(), [])
  {
    assert Emission.Supply(1) == Emission.Supply(0) + Emission.BlockReward(0);
    assert SumOf<Bytes>(map[]) == 0;
  }

  /** At a boundary the completed epoch is full, consistent, and has work in it. */
  lemma BoundaryEpoch(rules: Rules, ledger: Ledger, block: Block)
    requires BodyOk(rules, ledger, block) && rules.target(ledger.tip + 1) > 0
    requires Consistent(ledger.epoch) && IsBoundary(ledger.tip + 1)
    requires ledger.epoch.blockIndex == (ledger.tip + 1) % BLOCKS_PER_EPOCH
    ensures var fees := BlockFees(rules.crypto, block, ledger);
            var (settled, ok) := ApplyBlock(ledger.epoch, block.proofs, ledger.tip + 1, fees);
            && Consistent(settled)
            && settled.pool == ledger.epoch.pool + Emission.BlockReward(ledger.tip + 1) + fees
            && (ok ==> settled.blockIndex == BLOCKS_PER_EPOCH && settled.total > 0)
  {
    ApplyBlockKeeps(ledger.epoch, block.proofs, ledger.tip + 1, BlockFees(rules.crypto, block, ledger));
    assert WorkSum(block.proofs) * DIFFICULTY_SCALE > 0;
  }

  /** What a coinbase may create: the whole pool at a boundary, otherwise nothing. */
  function Released(ledger: Ledger, fees: int): int {
    if IsBoundary(ledger.tip + 1) then ledger.epoch.pool + Emission.BlockReward(ledger.tip + 1) + fees else 0
  }

  /** A transaction that settles an epoch with work in it pays out exactly the pool. */
  lemma SettlesPaysPool(crypto: Crypto, tx: Transaction, e: EpochData, height: nat)
    requires Consistent(e) && e.blockIndex == BLOCKS_PER_EPOCH && e.total > 0 && Settles(crypto, tx, e, height)
    ensures tx.inputs == [] && tx.locktime == height <= MAX_LOCKTIME && OutputSum(tx.outputs) == e.pool
  {
    var entries :| IsEnumeration(e.weights, entries)
      && CoinbaseVerdict(crypto, tx, e, height / BLOCKS_PER_EPOCH, height, entries) == Some(true);
    SettlementPaysPool(crypto, e, height, entries);
  }

  lemma BoundaryCoinbase(rules: Rules, ledger: Ledger, block: Block)
    requires BlockOk(rules, ledger, block) && IsBoundary(ledger.tip + 1) && Consistent(ledger.epoch)
    requires ledger.epoch.blockIndex == (ledger.tip + 1) % BLOCKS_PER_EPOCH
    ensures var tx := block.transactions[0];
            && tx.inputs == [] && tx.locktime == ledger.tip + 1 <= MAX_LOCKTIME
            && OutputSum(tx.outputs) == Released(ledger, BlockFees(rules.crypto, block, ledger))
  {
    hide ShapesOk, SpendsOk, ProofsOk, OverwritesNothing, ApplyBlock, Settles, NodeFees, Consistent,
         Emission.BlockReward;
    var fees := BlockFees(rules.crypto, block, ledger);
    BoundaryEpoch(rules, ledger, block);
    SettlesPaysPool(rules.crypto, block.transactions[0],
                    ApplyBlock(ledger.epoch, block.proofs, ledger.tip + 1, fees).0, ledger.tip + 1);
  }

  /** The coinbase of an accepted block is marked and creates exactly what leaves the pool. */
  lemma CoinbaseCreates(rules: Rules, ledger: Ledger, block: Block)
    requires BlockOk(rules, ledger, block) && Consistent(ledger.epoch)
    requires ledger.epoch.blockIndex == (ledger.tip + 1) % BLOCKS_PER_EPOCH
    ensures var tx, height := block.transactions[0], ledger.tip + 1;
            && Marked(rules.crypto, Record(tx, height, true))
            && OutputSum(tx.outputs) == Released(ledger, BlockFees(rules.crypto, block, ledger))
  {
    hide SpendsOk, ProofsOk, OverwritesNothing, Consistent, ApplyBlock, Settles;
    if IsBoundary(ledger.tip + 1) {
      BoundaryCoinbase(rules, ledger, block);
    } else {
      assert ShapeAt(block.transactions, 0);
      NothingMinted(block.transactions[0].outputs);
    }
  }

  /** With work in the epoch, the settlement outputs sum to the pool. */
  lemma SettlementPaysPool(crypto: Crypto, e: EpochData, height: nat, entries: seq<Share>)
    requires Consistent(e) && IsEnumeration(e.weights, entries)
    requires e.blockIndex == BLOCKS_PER_EPOCH && e.total > 0
    ensures var settlement := SettlementOf(e, height / BLOCKS_PER_EPOCH, entries).value;
            && settlement.payouts == PayoutsOf(Sort(HighestFirst, entries), e.pool, e.total)
            && settlement.payouts != []
            && OutputSum(SettlementOutputs(crypto, settlement.payouts)) == e.pool
  {
    var sorted := Sort(HighestFirst, entries);
    SortPermutes(HighestFirst, entries);
    WeightSumOfMap(e.weights, sorted);
    assert sorted != [];
    PayoutsSumToPool(sorted, e.pool, e.total);
    OutputsPayAmounts(crypto, PayoutsOf(sorted, e.pool, e.total));
  }

  lemma {:induction false} NothingMinted(outputs: seq<TxOutput>)
    requires OutputSum(outputs) <= 0 && forall i | 0 <= i < |outputs| :: outputs[i].value >= 0
    ensures OutputSum(outputs) == 0 && forall i | 0 <= i < |outputs| :: outputs[i].value == 0
  {
    if outputs != [] {
      var n := |outputs| - 1;
      OutputPrefix(outputs, n);
      NothingMinted(outputs[..n]);
    }
  }

  /** The coinbase outputs join the coins first. */
  lemma CoinbaseJoins(crypto: Crypto, coins: Coins, hist: History, tx: Transaction, height: nat)
    requires CollisionFree(crypto) && CoinsInv(crypto, coins, hist) && AllBelow(hist, height)
    requires Marked(crypto, Record(tx, height, true)) && ShapeOk(tx, true)
    ensures coins.Keys !! CreatedBy(crypto, tx, height, true).Keys
    ensures CoinsInv(crypto, coins + CreatedBy(crypto, tx, height, true), hist + [Record(tx, height, true)])
    ensures Total(coins + CreatedBy(crypto, tx, height, true)) == Total(coins) + OutputSum(tx.outputs)
  {
    CoinbaseIsFresh(crypto, coins, hist, tx, height);
    AppendKeeps(crypto, coins, hist, Record(tx, height, true));
    CoinbaseAdds(crypto, coins, tx, height);
  }

  ghost predicate AllSpend(txs: seq<Transaction>) {
    forall i {:trigger txs[i].inputs} | 0 <= i < |txs| :: txs[i].inputs != []
  }

  lemma SpendsHaveInputs(txs: seq<Transaction>)
    requires txs != [] && forall i {:trigger ShapeAt(txs, i)} | 1 <= i < |txs| :: ShapeAt(txs, i)
    ensures AllSpend(txs[1..])
  {
    forall i | 0 <= i < |txs[1..]|
      ensures txs[1..][i].inputs != []
    {
      assert ShapeAt(txs, i + 1);
    }
  }

  /** The fees of accepted spends lie between nothing and everything unspent. */
  lemma FeesAreBounded(crypto: Crypto, coins: Coins, hist: History, txs: seq<Transaction>, height: nat)
    requires CollisionFree(crypto) && CoinsInv(crypto, coins, hist)
    requires SpendsOk(crypto, txs, coins, height) && AllSpend(txs)
    ensures 0 <= NodeFees(crypto, txs, coins, height) == SpendFees(crypto, txs, coins, height) <= Total(coins)
  {
    NodeFeesAreSpendFees(crypto, txs, coins, height);
    SpendsKeep(crypto, coins, hist, txs, height);
    TotalNonNegative(crypto, CoinsAfter(crypto, txs, coins, height), hist + Spends(txs, height));
  }

  /** Then the spends run on the joined coins as they ran in validation. */
  lemma SpendsAfterCoinbase(crypto: Crypto, coins: Coins, hist: History, tx: Transaction,
                            rest: seq<Transaction>, height: nat)
    requires CollisionFree(crypto) && SpendsOk(crypto, rest, coins, height) && AllSpend(rest)
    requires Marked(crypto, Record(tx, height, true))
    requires coins.Keys !! CreatedBy(crypto, tx, height, true).Keys
    requires CoinsInv(crypto, coins + CreatedBy(crypto, tx, height, true), hist)
    ensures var joined := coins + CreatedBy(crypto, tx, height, true);
            && CoinsInv(crypto, CoinsAfter(crypto, rest, joined, height), hist + Spends(rest, height))
            && Total(CoinsAfter(crypto, rest, joined, height)) + SpendFees(crypto, rest, coins, height)
               == Total(joined)
  {
    var extra := CreatedBy(crypto, tx, height, true);
    OtherIds(crypto, tx, rest, height);
    SpendsIgnoreCoinbase(crypto, coins, extra, crypto.txid(tx), rest, height);
    SpendsKeep(crypto, coins + extra, hist, rest, height);
  }

  /** The coins after an accepted block: the coinbase adds what left the pool, the spends move the
      rest into fees; and nothing in the block reuses an outpoint. */
  lemma CoinsStep(crypto: Crypto, coins: Coins, hist: History, tx: Transaction, rest: seq<Transaction>, height: nat,
                  after: Coins, fees: int, minted: int)
    requires CollisionFree(crypto) && CoinsInv(crypto, coins, hist) && AllBelow(hist, height)
    requires Marked(crypto, Record(tx, height, true)) && ShapeOk(tx, true)
    requires SpendsOk(crypto, rest, coins, height) && AllSpend(rest)
    requires after == CoinsAfter(crypto, rest, Applied(crypto, coins, tx, height, true), height)
    requires fees == NodeFees(crypto, rest, coins, height) && minted == OutputSum(tx.outputs)
    ensures CoinsInv(crypto, after, hist + [Record(tx, height, true)] + Spends(rest, height))
    ensures Total(after) == Total(coins) - fees + minted && 0 <= fees <= Total(coins)
  {
    CoinbaseJoins(crypto, coins, hist, tx, height);
    SpendsAfterCoinbase(crypto, coins, hist + [Record(tx, height, true)], tx, rest, height);
    FeesAreBounded(crypto, coins, hist, rest, height);
  }

  lemma CoinbaseAdds(crypto: Crypto, coins: Coins, tx: Transaction, height: nat)
    requires ShapeOk(tx, true) && coins.Keys !! CreatedBy(crypto, tx, height, true).Keys
    ensures Applied(crypto, coins, tx, height, true) == coins + CreatedBy(crypto, tx, height, true)
    ensures Total(Applied(crypto, coins, tx, height, true)) == Total(coins) + OutputSum(tx.outputs)
  {
    TotalCreate(coins, crypto.txid(tx), tx.outputs, |tx.outputs|, height, true);
    assert tx.outputs[..|tx.outputs|] == tx.outputs;
  }

  /** A value-creating coinbase has no inputs, so it never shares an id with a spend. */
  lemma OtherIds(crypto: Crypto, tx: Transaction, rest: seq<Transaction>, height: nat)
    requires CollisionFree(crypto) && Marked(crypto, Record(tx, height, true))
    requires AllSpend(rest)
    ensures CreatedBy(crypto, tx, height, true) == map[]
            || forall i | 0 <= i < |rest| :: crypto.txid(rest[i]) != crypto.txid(tx)
  {
    if CreatedBy(crypto, tx, height, true) != map[] {
      assert Outs(crypto, Record(tx, height, true)) != map[];
      forall i | 0 <= i < |rest|
        ensures crypto.txid(rest[i]) != crypto.txid(tx)
      {
        assert |PrevOuts(tx)| == 0 && |PrevOuts(rest[i])| != 0;
      }
    }
  }

  /** Tracked coins carry positive value. */
  lemma {:induction false} TotalNonNegative(crypto: Crypto, coins: Coins, hist: History)
    requires CoinsInv(crypto, coins, hist)
    ensures Total(coins) >= 0
  {
    forall o | o in coins
      ensures coins[o].value > 0
    {
      CreatedPositive(crypto, hist, o);
    }
    PositiveTotal(coins);
  }

  lemma {:induction false} CreatedPositive(crypto: Crypto, hist: History, o: OutPoint)
    requires o in EverCreated(crypto, hist)
    ensures EverCreated(crypto, hist)[o].value > 0
  {
    var n := |hist| - 1;
    var r := hist[n];
    if o in Outs(crypto, r) {
      CreatedValue(crypto.txid(r.tx), r.tx.outputs, |r.tx.outputs|, r.height, r.isCoinbase, o);
    } else {
      CreatedPositive(crypto, hist[..n], o);
    }
  }

  lemma {:induction false} CreatedValue(id: Hash, outputs: seq<TxOutput>, n: nat, height: int, isCoinbase: bool, o: OutPoint)
    requires n <= |outputs| && o in Created(id, outputs, n, height, isCoinbase)
    ensures Created(id, outputs, n, height, isCoinbase)[o].value > 0
  {
    if n > 0 && o != OutPoint(id, n - 1) {
      CreatedValue(id, outputs, n - 1, height, isCoinbase, o);
    }
  }

  lemma {:induction false} PositiveTotal(coins: Coins)
    requires forall o | o in coins :: coins[o].value > 0
    ensures Total(coins) >= 0
    decreases |coins|
  {
    if coins != map[] {
      var o :| o in coins && Total(coins) == coins[o].value + Total(coins - {o});
      PositiveTotal(coins - {o});
    }
  }

  /** The epoch after an accepted block: what the coinbase released has left the pool. */
  lemma EpochStep(ledger: Ledger, proofs: seq<Contribution>, fees: int)
    requires Consistent(ledger.epoch)
    requires ledger.epoch.blockIndex == (ledger.tip + 1) % BLOCKS_PER_EPOCH
    ensures var height := ledger.tip + 1;
            var (next, ok) := NextEpoch(ledger.epoch, proofs, height, fees);
            && Consistent(next)
            && (ok ==> next.blockIndex == (height + 1) % BLOCKS_PER_EPOCH)
            && (ok ==> next.pool + Released(ledger, fees) == ledger.epoch.pool + Emission.BlockReward(height) + fees)
            && (ok && IsBoundary(height) ==> next.pool == 0) && (ok && next.blockIndex == 0 ==> next.pool == 0)
            && (ledger.epoch.pool >= 0 && fees >= 0 && ok ==> next.pool >= 0)
  {
    var height := ledger.tip + 1;
    ApplyBlockKeeps(ledger.epoch, proofs, height, fees);
    NextSlot(height);
    assert SumOf<Bytes>(map[]) == 0;
  }

  lemma RecordsBelow(hist: History, block: Block, height: nat)
    requires block.transactions != [] && AllBelow(hist, height)
    ensures AllBelow(Extended(hist, block, height), height + 1)
  {
  }

  /** What the coin half of the step needs from validation. */
  ghost predicate CoinPremises(crypto: Crypto, ledger: Ledger, block: Block) {
    && block.transactions != []
    && Marked(crypto, Record(block.transactions[0], ledger.tip + 1, true))
    && ShapeOk(block.transactions[0], true)
    && SpendsOk(crypto, block.transactions[1..], ledger.coins, ledger.tip + 1)
    && AllSpend(block.transactions[1..])
  }

  lemma AcceptedPremises(rules: Rules, ledger: Ledger, block: Block)
    requires BlockOk(rules, ledger, block) && Consistent(ledger.epoch)
    requires ledger.epoch.blockIndex == (ledger.tip + 1) % BLOCKS_PER_EPOCH
    ensures CoinPremises(rules.crypto, ledger, block)
    ensures OutputSum(block.transactions[0].outputs) == Released(ledger, BlockFees(rules.crypto, block, ledger))
  {
    assert ShapeAt(block.transactions, 0);
    SpendsHaveInputs(block.transactions);
    CoinbaseCreates(rules, ledger, block);
  }

  /** The coin half of an accepted block; after, fees and minted name the parts of the transition. */
  lemma BlockKeepsCoins(crypto: Crypto, ledger: Ledger, hist: History, block: Block, after: Coins)
    requires CollisionFree(crypto) && CoinsInv(crypto, ledger.coins, hist) && AllBelow(hist, ledger.tip + 1)
    requires CoinPremises(crypto, ledger, block) && after == CoinsAfterBlock(crypto, ledger, block)
    ensures CoinsInv(crypto, after, Extended(hist, block, ledger.tip + 1))
  {
    hide CoinsInv, CollisionFree, AllBelow, Marked, ShapeOk, SpendsOk, AllSpend, Applied, CoinsAfter, NodeFees, Spends;
    var height, txs := ledger.tip + 1, block.transactions;
    CoinsStep(crypto, ledger.coins, hist, txs[0], txs[1..], height, after,
              NodeFees(crypto, txs[1..], ledger.coins, height), OutputSum(txs[0].outputs));
  }

  lemma BlockMovesValue(crypto: Crypto, ledger: Ledger, hist: History, block: Block,
                        after: Coins, fees: int, minted: int)
    requires CollisionFree(crypto) && CoinsInv(crypto, ledger.coins, hist) && AllBelow(hist, ledger.tip + 1)
    requires CoinPremises(crypto, ledger, block) && after == CoinsAfterBlock(crypto, ledger, block)
    requires fees == BlockFees(crypto, block, ledger) && minted == OutputSum(block.transactions[0].outputs)
    ensures Total(after) == Total(ledger.coins) - fees + minted && 0 <= fees <= Total(ledger.coins)
  {
    hide CoinsInv, CollisionFree, AllBelow, Marked, ShapeOk, SpendsOk, AllSpend, Applied, CoinsAfter, NodeFees, Spends;
    var height, txs := ledger.tip + 1, block.transactions;
    CoinsStep(crypto, ledger.coins, hist, txs[0], txs[1..], height, after, fees, minted);
  }

  /** Every accepted block that applies keeps the whole ledger invariant. */
  lemma BlockKeeps(rules: Rules, ledger: Ledger, hist: History, block: Block)
    requires CollisionFree(rules.crypto) && LedgerInv(rules.crypto, ledger, hist)
    requires BlockOk(rules, ledger, block) && ApplyToLedger(rules.crypto, ledger, block).1
    ensures LedgerInv(rules.crypto, ApplyToLedger(rules.crypto, ledger, block).0,
                      Extended(hist, block, ledger.tip + 1))
  {
    hide CoinsInv, CollisionFree, ShapesOk, SpendsOk, ProofsOk, CoinbaseOk, NextEpoch, Marked, ShapeOk;
    var minted := OutputSum(block.transactions[0].outputs);
    AcceptedPremises(rules, ledger, block);
    PremisesKeep(rules.crypto, ledger, hist, block, CoinsAfterBlock(rules.crypto, ledger, block),
                 BlockFees(rules.crypto, block, ledger), minted,
                 NextEpoch(ledger.epoch, block.proofs, ledger.tip + 1, BlockFees(rules.crypto, block, ledger)).0);
  }

  lemma PremisesKeep(crypto: Crypto, ledger: Ledger, hist: History, block: Block,
                     after: Coins, fees: int, minted: int, next: EpochData)
    requires CollisionFree(crypto) && LedgerInv(crypto, ledger, hist) && CoinPremises(crypto, ledger, block)
    requires after == CoinsAfterBlock(crypto, ledger, block)
    requires fees == BlockFees(crypto, block, ledger)
    requires minted == OutputSum(block.transactions[0].outputs) == Released(ledger, fees)
    requires NextEpoch(ledger.epoch, block.proofs, ledger.tip + 1, fees) == (next, true)
    ensures LedgerInv(crypto, Ledger(after, next, ledger.tip + 1), Extended(hist, block, ledger.tip + 1))
  {
    hide CoinsInv, CollisionFree, AllBelow, Marked, ShapeOk, CoinsAfterBlock, BlockFees, Extended, NextEpoch, IsBoundary,
         Released, Consistent, Emission.Supply, Emission.BlockReward;
    BlockKeepsCoins(crypto, ledger, hist, block, after);
    BlockMovesValue(crypto, ledger, hist, block, after, fees, minted);
    EpochStep(ledger, block.proofs, fees);
    RecordsBelow(hist, block, ledger.tip + 1);
    OneMoreReward(ledger.tip + 1);
  }

  lemma OneMoreReward(height: nat)
    ensures Emission.Supply(height + 1) == Emission.Supply(height) + Emission.BlockReward(height)
  {
  }

  lemma NextSlot(height: nat)
    ensures (height + 1) % BLOCKS_PER_EPOCH == if IsBoundary(height) then 0 else height % BLOCKS_PER_EPOCH + 1
  {
  }

  // ---------- Every run ----------

  /** The ledger after accepting every block in turn from genesis; None if one is refused. */
  ghost function Replay(rules: Rules, blocks: seq<Block>): Option<Ledger> {
    if blocks == [] then Some(Genesis())
    else
      var n := |blocks| - 1;
      match Replay(rules, blocks[..n])
      case None => None
      case Some(ledger) =>
        if !BlockOk(rules, ledger, blocks[n]) then None
        else
          var (next, ok) := ApplyToLedger(rules.crypto, ledger, blocks[n]);
          if ok then Some(next) else None
  }

  /** Every transaction the chain applied, in order. */
  function HistoryOf(blocks: seq<Block>): History {
    if blocks == [] then []
    else
      var n := |blocks| - 1;
      var hist := HistoryOf(blocks[..n]);
      if blocks[n].transactions == [] then hist else Extended(hist, blocks[n], n + 1)
  }

  lemma {:induction false} ReplayKeeps(rules: Rules, blocks: seq<Block>)
    requires CollisionFree(rules.crypto) && Replay(rules, blocks).Some?
    ensures LedgerInv(rules.crypto, Replay(rules, blocks).value, HistoryOf(blocks))
    ensures Replay(rules, blocks).value.tip == |blocks|
  {
    if blocks == [] {
      GenesisInv(rules.crypto);
    } else {
      var n := |blocks| - 1;
      ReplayKeeps(rules, blocks[..n]);
      BlockKeeps(rules, Replay(rules, blocks[..n]).value, HistoryOf(blocks[..n]), blocks[n]);
    }
  }

  /** Supply conservation: on every accepted chain the unspent values and the pending pool
      together are exactly the rewards of all heights up to the tip, and never pass the cap. */
  lemma SupplyConserved(rules: Rules, blocks: seq<Block>)
    requires CollisionFree(rules.crypto) && Replay(rules, blocks).Some?
    ensures var ledger := Replay(rules, blocks).value;
            Total(ledger.coins) + ledger.epoch.pool == Emission.Supply(|blocks| + 1) <= Emission.HARD_CAP
  {
    ReplayKeeps(rules, blocks);
    Emission.SupplyBelowCap(|blocks| + 1);
  }

  /** Whenever the tip closes an epoch the pool has been paid out in full: everything ever emitted is
      unspent output. */
  lemma EpochPaidOut(rules: Rules, blocks: seq<Block>)
    requires CollisionFree(rules.crypto) && Replay(rules, blocks).Some? && IsBoundary(|blocks|)
    ensures var ledger := Replay(rules, blocks).value;
            ledger.epoch.pool == 0 && Total(ledger.coins) == Emission.Supply(|blocks| + 1)
  {
    ReplayKeeps(rules, blocks);
    NextSlot(|blocks|);
  }

  /** Over a whole chain no outpoint is created twice and none is spent twice. */
  lemma OutpointsUsedOnce(rules: Rules, blocks: seq<Block>)
    requires CollisionFree(rules.crypto) && Replay(rules, blocks).Some?
    ensures UsedOnce(rules.crypto, HistoryOf(blocks))
  {
    ReplayKeeps(rules, blocks);
  }

  lemma {:induction false} HistoryGrows(blocks: seq<Block>, k: nat)
    requires k <= |blocks|
    ensures EverSpent(HistoryOf(blocks[..k])) <= EverSpent(HistoryOf(blocks))
  {
    hide EverSpent;
    if k < |blocks| {
      var n := |blocks| - 1;
      HistoryGrows(blocks[..n], k);
      assert blocks[..n][..k] == blocks[..k];
      var hist := HistoryOf(blocks[..n]);
      if blocks[n].transactions != [] {
        var r := Record(blocks[n].transactions[0], n + 1, true);
        SpentGrows(hist, [r]);
        SpentGrows(hist + [r], Spends(blocks[n].transactions[1..], n + 1));
      }
    } else {
      assert blocks[..k] == blocks;
    }
  }

  lemma {:induction false} SpentGrows(hist: History, more: History)
    ensures EverSpent(hist) <= EverSpent(hist + more)
  {
    if more == [] {
      assert hist + more == hist;
    } else {
      var n := |more| - 1;
      SpentGrows(hist, more[..n]);
      assert (hist + more)[..|hist + more| - 1] == hist + more[..n];
    }
  }

  /** What the chain spent by some height is not spendable at any later one. */
  lemma SpentStaysSpent(rules: Rules, blocks: seq<Block>, k: nat, o: OutPoint)
    requires CollisionFree(rules.crypto) && Replay(rules, blocks).Some? && k <= |blocks|
    requires o in EverSpent(HistoryOf(blocks[..k]))
    ensures o !in Replay(rules, blocks).value.coins
  {
    ReplayKeeps(rules, blocks);
    HistoryGrows(blocks, k);
  }

  // ---------- The canonical settlement is always acceptable ----------

  /** A block that closes an epoch: everything but its coinbase is valid, the epoch's work stays in
      the safe range, and the coinbase is the settlement built from some order of the map. */
  ghost predicate ClosesEpoch(rules: Rules, ledger: Ledger, block: Block, entries: seq<Share>) {
    var height, txs := ledger.tip + 1, block.transactions;
    && IsBoundary(height) && height <= MAX_LOCKTIME && txs != []
    && rules.otherChecks(block, height) && rules.target(height) > 0
    && (forall i {:trigger ShapeAt(txs, i)} | 1 <= i < |txs| :: ShapeAt(txs, i))
    && SpendsOk(rules.crypto, txs[1..], ledger.coins, height)
    && ProofsOk(block.proofs, rules.target(height))
    && ledger.epoch.total + WorkSum(block.proofs) <= MAX_SAFE_INTEGER
    && var e := ApplyBlock(ledger.epoch, block.proofs, height, BlockFees(rules.crypto, block, ledger)).0;
       && IsEnumeration(e.weights, entries)
       && SettlementOf(e, height / BLOCKS_PER_EPOCH, entries).Some?
       && Some(txs[0]) == CreateSettlementTransaction(rules.crypto, SettlementOf(e, height / BLOCKS_PER_EPOCH, entries).value, height)
  }

  lemma PositiveProofs(proofs: seq<Contribution>, target: nat)
    requires ProofsOk(proofs, target)
    ensures forall c | c in proofs :: c.tflops >= 0
  {
    forall c | c in proofs
      ensures c.tflops >= 0
    {
      var i :| 0 <= i < |proofs| && proofs[i] == c;
      assert ProofOk(proofs[i], target);
    }
  }

  /** The outputs of a settlement of a pool within the cap have a valid shape. */
  lemma SettlementShape(crypto: Crypto, tx: Transaction, e: EpochData, height: nat, entries: seq<Share>)
    requires Consistent(e) && e.blockIndex == BLOCKS_PER_EPOCH && e.total > 0 && 0 <= e.pool <= Emission.HARD_CAP
    requires IsEnumeration(e.weights, entries)
    requires Some(tx) == CreateSettlementTransaction(crypto, SettlementOf(e, height / BLOCKS_PER_EPOCH, entries).value, height)
    ensures ShapeOk(tx, true) && tx.inputs == [] && tx.locktime == height
  {
    var sorted := Sort(HighestFirst, entries);
    SettlementPaysPool(crypto, e, height, entries);
    SortPermutes(HighestFirst, entries);
    forall i | 0 <= i < |tx.outputs|
      ensures tx.outputs[i].value >= 0
    {
      SharesAreFair(e, sorted, i);
    }
  }

  lemma FreshOverwritesNothing(crypto: Crypto, tx: Transaction, coins: Coins, height: nat)
    requires coins.Keys !! CreatedBy(crypto, tx, height, true).Keys
    ensures OverwritesNothing(crypto, tx, coins)
  {
    forall vout | 0 <= vout < |tx.outputs| && tx.outputs[vout].value > 0
      ensures OutPoint(crypto.txid(tx), vout) !in coins
    {
      assert OutPoint(crypto.txid(tx), vout) in CreatedBy(crypto, tx, height, true);
    }
  }

  lemma PoolWithinCap(unspent: int, pool: int, fees: int, height: nat)
    requires unspent + pool == Emission.Supply(height) && 0 <= fees <= unspent && pool >= 0
    ensures 0 <= pool + Emission.BlockReward(height) + fees <= Emission.HARD_CAP
  {
    OneMoreReward(height);
    Emission.SupplyBelowCap(height + 1);
  }

  /** The pool that a closing block settles never exceeds the cap. */
  lemma ClosingPool(rules: Rules, ledger: Ledger, hist: History, block: Block, entries: seq<Share>)
    requires CollisionFree(rules.crypto) && LedgerInv(rules.crypto, ledger, hist)
    requires ClosesEpoch(rules, ledger, block, entries)
    ensures var (e, ok) := ApplyBlock(ledger.epoch, block.proofs, ledger.tip + 1, BlockFees(rules.crypto, block, ledger));
            && ok && Consistent(e) && e.blockIndex == BLOCKS_PER_EPOCH && e.total > 0
            && 0 <= e.pool <= Emission.HARD_CAP
  {
    var height, txs := ledger.tip + 1, block.transactions;
    var fees := BlockFees(rules.crypto, block, ledger);
    PositiveProofs(block.proofs, rules.target(height));
    assert WorkSum(block.proofs) * DIFFICULTY_SCALE > 0;
    hide CoinsInv, CollisionFree, AllBelow, ShapeAt, SpendsOk, ProofsOk, SettlementOf, CreateSettlementTransaction, NodeFees;
    SpendsHaveInputs(txs);
    FeesAreBounded(rules.crypto, ledger.coins, hist, txs[1..], height);
    PoolWithinCap(Total(ledger.coins), ledger.epoch.pool, fees, height);
    hide Emission.Supply, Emission.BlockReward;
    ApplyBlockKeeps(ledger.epoch, block.proofs, height, fees);
  }

  /** The coinbase of a closing block is well-shaped, overwrites nothing, and settles the epoch. */
  lemma ClosingCoinbase(rules: Rules, ledger: Ledger, hist: History, block: Block, entries: seq<Share>)
    requires CollisionFree(rules.crypto) && LedgerInv(rules.crypto, ledger, hist)
    requires ClosesEpoch(rules, ledger, block, entries)
    ensures ShapesOk(block.transactions)
    ensures OverwritesNothing(rules.crypto, block.transactions[0], ledger.coins)
    ensures var fees := BlockFees(rules.crypto, block, ledger);
            CoinbaseOk(rules.crypto, block.transactions[0], block, ledger, fees)
  {
    var height, tx := ledger.tip + 1, block.transactions[0];
    ClosingPool(rules, ledger, hist, block, entries);
    hide CoinsInv, CollisionFree, AllBelow, ShapeOk, SpendsOk, ProofsOk, ApplyBlock, OverwritesNothing;
    var e := ApplyBlock(ledger.epoch, block.proofs, height, BlockFees(rules.crypto, block, ledger)).0;
    SettlementShape(rules.crypto, tx, e, height, entries);
    assert ShapesOk(block.transactions) by {
      assert ShapeAt(block.transactions, 0);
    }
    CoinbaseIsFresh(rules.crypto, ledger.coins, hist, tx, height);
    FreshOverwritesNothing(rules.crypto, tx, ledger.coins, height);
  }

  /** In every reachable ledger the settlement that the block producer builds is accepted, in
      whatever order the map was read, and the block applies. */
  lemma SettlementIsAccepted(rules: Rules, ledger: Ledger, hist: History, block: Block, entries: seq<Share>)
    requires CollisionFree(rules.crypto) && LedgerInv(rules.crypto, ledger, hist)
    requires ClosesEpoch(rules, ledger, block, entries)
    ensures BlockOk(rules, ledger, block) && ApplyToLedger(rules.crypto, ledger, block).1
  {
    ClosingCoinbase(rules, ledger, hist, block, entries);
    hide LedgerInv, CollisionFree, ShapesOk, SpendsOk, ProofsOk, OverwritesNothing, Settles, ApplyBlock, SettlementOf;
  }

  /** A valid block can still fail to apply: inside an epoch exactly when the work would leave the
      safe integer range, at a boundary never. */
  lemma ValidBlockApplies(rules: Rules, ledger: Ledger, block: Block)
    requires BlockOk(rules, ledger, block) && Consistent(ledger.epoch)
    requires ledger.epoch.blockIndex == (ledger.tip + 1) % BLOCKS_PER_EPOCH
    ensures ApplyToLedger(rules.crypto, ledger, block).1
            <==> ledger.epoch.total + WorkSum(block.proofs) <= MAX_SAFE_INTEGER
    ensures IsBoundary(ledger.tip + 1) ==> ApplyToLedger(rules.crypto, ledger, block).1
  {
    PositiveProofs(block.proofs, rules.target(ledger.tip + 1));
    ApplyBlockKeeps(ledger.epoch, block.proofs, ledger.tip + 1, BlockFees(rules.crypto, block, ledger));
  }

  // ---------- A valid block that does not apply ----------

  /** A coinbase that creates nothing, and one contribution. */
  function LoneProof(tflops: int): Block {
    Block([Transaction(1, [], [TxOutput(0, [])], 0, None)], [Contribution([1], [2], tflops)])
  }

  /** Without a cap on one contribution's work the case is reachable: a first block may bring the epoch to
      the greatest safe integer, and then a second one is valid but does not apply. */
  lemma ValidBlockThrows(rules: Rules)
    requires rules.target(1) == rules.target(2) == 1
    requires forall n, height :: rules.otherChecks(LoneProof(n), height)
    ensures var first, second := LoneProof(MAX_SAFE_INTEGER), LoneProof(1);
            && Replay(rules, [first]).Some? && BlockOk(rules, Replay(rules, [first]).value, second)
            && Replay(rules, [first, second]) == None
  {
    var first, second := LoneProof(MAX_SAFE_INTEGER), LoneProof(1);
    LoneProofIsValid(rules, Genesis(), MAX_SAFE_INTEGER);
    assert [first][..0] == [] && [first, second][..1] == [first];
    var ledger := ApplyToLedger(rules.crypto, Genesis(), first).0;
    LoneProofIsValid(rules, ledger, 1);
  }

  lemma LoneProofIsValid(rules: Rules, ledger: Ledger, tflops: int)
    requires rules.target(ledger.tip + 1) == 1 && !IsBoundary(ledger.tip + 1) && 1 <= tflops <= MAX_SAFE_INTEGER
    requires rules.otherChecks(LoneProof(tflops), ledger.tip + 1)
    requires Consistent(ledger.epoch) && ledger.epoch.blockIndex == (ledger.tip + 1) % BLOCKS_PER_EPOCH
    ensures BlockOk(rules, ledger, LoneProof(tflops))
    ensures var (next, ok) := ApplyToLedger(rules.crypto, ledger, LoneProof(tflops));
            && (ok <==> ledger.epoch.total + tflops <= MAX_SAFE_INTEGER)
            && next.tip == ledger.tip + 1 && Consistent(next.epoch)
            && (ok ==> next.epoch.total == ledger.epoch.total + tflops)
            && (ok ==> next.epoch.blockIndex == (ledger.tip + 2) % BLOCKS_PER_EPOCH)
  {
    var block := LoneProof(tflops);
    assert OutputSum(block.transactions[0].outputs) == 0;
    assert WorkSum(block.proofs) == tflops + WorkSum([]);
    assert ShapeAt(block.transactions, 0);
    assert BlockOk(rules, ledger, block);
    ValidBlockApplies(rules, ledger, block);
    ApplyBlockKeeps(ledger.epoch, block.proofs, ledger.tip + 1, BlockFees(rules.crypto, block, ledger));
    NextSlot(ledger.tip + 1);
  }

  /** The most work the built-in circuits let one proof claim. */
  const MAX_PROOF_WORK: nat := 50_000_000

  lemma {:induction false} CappedWork(proofs: seq<Contribution>)
    requires forall c | c in proofs :: c.tflops <= MAX_PROOF_WORK
    ensures WorkSum(proofs) <= MAX_PROOF_WORK * |proofs|
  {
    if proofs != [] {
      CappedWork(proofs[1..]);
    }
  }

  /** Under that cap every valid block applies as long as the epoch, this block included, holds at most
      180,143,985 proofs. */
  lemma CappedBlockApplies(rules: Rules, ledger: Ledger, block: Block, earlier: nat)
    requires BlockOk(rules, ledger, block) && Consistent(ledger.epoch)
    requires ledger.epoch.blockIndex == (ledger.tip + 1) % BLOCKS_PER_EPOCH
    requires ledger.epoch.total <= MAX_PROOF_WORK * earlier && earlier + |block.proofs| <= 180_143_985
    requires forall c | c in block.proofs :: c.tflops <= MAX_PROOF_WORK
    ensures ApplyToLedger(rules.crypto, ledger, block).1
  {
    hide BlockOk, ApplyToLedger;
    CappedWork(block.proofs);
    ValidBlockApplies(rules, ledger, block);
  }
}

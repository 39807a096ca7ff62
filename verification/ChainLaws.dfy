/** Accepted chains in terms of their transactions and contributions alone: who may spend what, and who is paid
    for which work. */
module ChainLaws {
  import opened Canonical
  import opened Collections
  import opened Utxo
  import opened Epoch
  import opened Validation
  import opened Chain
  import Emission

  // ---------- Spends are authorized ----------

  /** Input k of transaction j names an output that transaction i created earlier and nobody spent since; the
      transaction is authorized against that output's script; and a coinbase output has matured. */
  ghost predicate JustifiedBy(crypto: Crypto, hist: History, j: nat, k: nat, i: nat)
    requires j < |hist| && k < |hist[j].tx.inputs|
  {
    var input := hist[j].tx.inputs[k];
    var o := input.prevOut;
    && i < j && o.txid == crypto.txid(hist[i].tx)
    && o.vout < |hist[i].tx.outputs| && hist[i].tx.outputs[o.vout].value > 0
    && crypto.authorized(hist[j].tx, input, hist[i].tx.outputs[o.vout].scriptPubKey)
    && (hist[i].isCoinbase ==> hist[j].height - hist[i].height >= 100)
  }

  /** No earlier transaction, and no other input of this one, names the same output. */
  ghost predicate FirstToSpend(hist: History, j: nat, k: nat)
    requires j < |hist| && k < |hist[j].tx.inputs|
  {
    && (forall m, n | 0 <= m < j && !hist[m].isCoinbase && 0 <= n < |hist[m].tx.inputs| ::
          hist[m].tx.inputs[n].prevOut != hist[j].tx.inputs[k].prevOut)
    && (forall n | 0 <= n < |hist[j].tx.inputs| && n != k ::
          hist[j].tx.inputs[n].prevOut != hist[j].tx.inputs[k].prevOut)
  }

  ghost predicate Justified(crypto: Crypto, hist: History, j: nat, k: nat)
    requires j < |hist| && k < |hist[j].tx.inputs|
  {
    FirstToSpend(hist, j, k) && exists i: nat :: JustifiedBy(crypto, hist, j, k, i)
  }

  ghost predicate AllJustified(crypto: Crypto, hist: History) {
    forall j, k {:trigger Justified(crypto, hist, j, k)} |
      0 <= j < |hist| && !hist[j].isCoinbase && 0 <= k < |hist[j].tx.inputs| :: Justified(crypto, hist, j, k)
  }

  lemma {:induction false} CreatedEntry(id: Hash, outputs: seq<TxOutput>, n: nat, height: int, isCoinbase: bool, o: OutPoint)
    requires n <= |outputs| && o in Created(id, outputs, n, height, isCoinbase)
    ensures o.txid == id && o.vout < n && outputs[o.vout].value > 0
    ensures Created(id, outputs, n, height, isCoinbase)[o]
            == Entry(outputs[o.vout].value, outputs[o.vout].scriptPubKey, height, isCoinbase)
  {
    if n > 0 && o != OutPoint(id, n - 1) {
      CreatedEntry(id, outputs, n - 1, height, isCoinbase, o);
    }
  }

  /** Every entry ever created is an output of some record. */
  lemma {:induction false} EntryOf(crypto: Crypto, hist: History, o: OutPoint) returns (i: nat)
    requires o in EverCreated(crypto, hist)
    ensures i < |hist| && o.txid == crypto.txid(hist[i].tx) && o.vout < |hist[i].tx.outputs|
    ensures hist[i].tx.outputs[o.vout].value > 0
    ensures EverCreated(crypto, hist)[o]
            == Entry(hist[i].tx.outputs[o.vout].value, hist[i].tx.outputs[o.vout].scriptPubKey,
                     hist[i].height, hist[i].isCoinbase)
  {
    var n := |hist| - 1;
    var r := hist[n];
    if o in Outs(crypto, r) {
      i := n;
      CreatedEntry(crypto.txid(r.tx), r.tx.outputs, |r.tx.outputs|, r.height, r.isCoinbase, o);
    } else {
      i := EntryOf(crypto, hist[..n], o);
    }
  }

  lemma {:induction false} SpentInput(hist: History, m: nat, n: nat)
    requires m < |hist| && !hist[m].isCoinbase && n < |hist[m].tx.inputs|
    ensures hist[m].tx.inputs[n].prevOut in EverSpent(hist)
  {
    var last := |hist| - 1;
    if m < last {
      SpentInput(hist[..last], m, n);
    } else {
      assert PrevOuts(hist[m].tx)[n] in Ins(hist[m]);
    }
  }

  /** An accepted spend is justified where it joins the history. */
  lemma SpendJustified(crypto: Crypto, coins: Coins, hist: History, tx: Transaction, height: nat, k: nat)
    requires CoinsInv(crypto, coins, hist) && SpendOk(crypto, tx, coins, height) && k < |tx.inputs|
    ensures Justified(crypto, hist + [Record(tx, height, false)], |hist|, k)
  {
    hide UsedOnce, WellFormed;
    var all := hist + [Record(tx, height, false)];
    var j, o := |hist|, tx.inputs[k].prevOut;
    assert all[j] == Record(tx, height, false);
    assert InputOk(crypto, tx, coins, height, k);
    assert coins[o] == EverCreated(crypto, hist)[o];
    var i := EntryOf(crypto, hist, o);
    assert all[i] == hist[i];
    assert JustifiedBy(crypto, all, j, k, i);
    forall m, n | 0 <= m < j && !all[m].isCoinbase && 0 <= n < |all[m].tx.inputs|
      ensures all[m].tx.inputs[n].prevOut != o
    {
      assert all[m] == hist[m];
      SpentInput(hist, m, n);
    }
    forall n | 0 <= n < |tx.inputs| && n != k
      ensures tx.inputs[n].prevOut != o
    {
      assert PrevOuts(tx)[n] != PrevOuts(tx)[k];
    }
  }

  /** What was justified stays justified: it only speaks of the past. */
  lemma StaysJustified(crypto: Crypto, hist: History, more: History)
    requires AllJustified(crypto, hist)
    ensures forall j, k | 0 <= j < |hist| && !hist[j].isCoinbase && 0 <= k < |hist[j].tx.inputs| ::
              Justified(crypto, hist + more, j, k)
  {
    var all := hist + more;
    forall j, k | 0 <= j < |hist| && !hist[j].isCoinbase && 0 <= k < |hist[j].tx.inputs|
      ensures Justified(crypto, all, j, k)
    {
      assert Justified(crypto, hist, j, k) && all[j] == hist[j];
      var i: nat :| JustifiedBy(crypto, hist, j, k, i);
      assert all[i] == hist[i];
      assert JustifiedBy(crypto, all, j, k, i);
      forall m, n | 0 <= m < j && !all[m].isCoinbase && 0 <= n < |all[m].tx.inputs|
        ensures all[m].tx.inputs[n].prevOut != all[j].tx.inputs[k].prevOut
      {
        assert all[m] == hist[m];
      }
    }
  }

  lemma OneMoreJustified(crypto: Crypto, coins: Coins, hist: History, tx: Transaction, height: nat)
    requires AllJustified(crypto, hist) && CoinsInv(crypto, coins, hist) && SpendOk(crypto, tx, coins, height)
    ensures AllJustified(crypto, hist + [Record(tx, height, false)])
  {
    hide CoinsInv, SpendOk, Justified;
    var all := hist + [Record(tx, height, false)];
    StaysJustified(crypto, hist, [Record(tx, height, false)]);
    forall j, k | 0 <= j < |all| && !all[j].isCoinbase && 0 <= k < |all[j].tx.inputs|
      ensures Justified(crypto, all, j, k)
    {
      if j == |hist| {
        SpendJustified(crypto, coins, hist, tx, height, k);
      } else {
        assert all[j] == hist[j];
      }
    }
  }

  lemma CoinbaseJustified(crypto: Crypto, hist: History, tx: Transaction, height: nat)
    requires AllJustified(crypto, hist)
    ensures AllJustified(crypto, hist + [Record(tx, height, true)])
  {
    hide Justified;
    var all := hist + [Record(tx, height, true)];
    StaysJustified(crypto, hist, [Record(tx, height, true)]);
    forall j, k | 0 <= j < |all| && !all[j].isCoinbase && 0 <= k < |all[j].tx.inputs|
      ensures Justified(crypto, all, j, k)
    {
      assert all[j] == hist[j];
    }
  }

  lemma {:induction false} SpendsJustified(crypto: Crypto, coins: Coins, hist: History, txs: seq<Transaction>, height: nat)
    requires CollisionFree(crypto) && CoinsInv(crypto, coins, hist)
    requires SpendsOk(crypto, txs, coins, height) && AllSpend(txs) && AllJustified(crypto, hist)
    ensures AllJustified(crypto, hist + Spends(txs, height))
    decreases txs
  {
    hide CollisionFree, CoinsInv, SpendOk, AllJustified, Applied;
    if txs == [] {
      assert hist + Spends(txs, height) == hist;
    } else {
      var r := Record(txs[0], height, false);
      SpendKeeps(crypto, coins, hist, txs[0], height);
      OneMoreJustified(crypto, coins, hist, txs[0], height);
      SpendsJustified(crypto, Applied(crypto, coins, txs[0], height, false), hist + [r], txs[1..], height);
      SpendsFirst(hist, txs, height);
    }
  }

  lemma TransactionsJustified(crypto: Crypto, coins: Coins, hist: History, tx: Transaction, rest: seq<Transaction>, height: nat)
    requires CollisionFree(crypto) && CoinsInv(crypto, coins, hist) && AllBelow(hist, height)
    requires Marked(crypto, Record(tx, height, true)) && ShapeOk(tx, true)
    requires SpendsOk(crypto, rest, coins, height) && AllSpend(rest) && AllJustified(crypto, hist)
    ensures AllJustified(crypto, hist + [Record(tx, height, true)] + Spends(rest, height))
  {
    hide CollisionFree, CoinsInv, AllJustified, AllBelow, Marked, ShapeOk, Spends, SpendsOk, AllSpend, Applied, CreatedBy;
    var extra := CreatedBy(crypto, tx, height, true);
    CoinbaseJoins(crypto, coins, hist, tx, height);
    CoinbaseJustified(crypto, hist, tx, height);
    OwnIds(crypto, tx, height);
    OtherIds(crypto, tx, rest, height);
    SpendsIgnoreCoinbase(crypto, coins, extra, crypto.txid(tx), rest, height);
    SpendsJustified(crypto, coins + extra, hist + [Record(tx, height, true)], rest, height);
  }

  lemma BlockJustified(rules: Rules, ledger: Ledger, hist: History, block: Block)
    requires CollisionFree(rules.crypto) && LedgerInv(rules.crypto, ledger, hist)
    requires BlockOk(rules, ledger, block) && AllJustified(rules.crypto, hist)
    ensures block.transactions != [] && AllJustified(rules.crypto, Extended(hist, block, ledger.tip + 1))
  {
    hide CollisionFree, CoinsInv, BlockOk, AllJustified, AllBelow, Marked, ShapeOk, SpendsOk, AllSpend, Spends;
    AcceptedPremises(rules, ledger, block);
    TransactionsJustified(rules.crypto, ledger.coins, hist, block.transactions[0], block.transactions[1..], ledger.tip + 1);
  }

  lemma OwnIds(crypto: Crypto, tx: Transaction, height: nat)
    ensures forall o | o in CreatedBy(crypto, tx, height, true) :: o.txid == crypto.txid(tx)
  {
  }

  lemma {:induction false} ChainJustified(rules: Rules, blocks: seq<Block>)
    requires CollisionFree(rules.crypto) && Replay(rules, blocks).Some?
    ensures AllJustified(rules.crypto, HistoryOf(blocks))
  {
    if blocks != [] {
      hide CollisionFree, LedgerInv, BlockOk, AllJustified, Extended;
      var n := |blocks| - 1;
      ReplayKeeps(rules, blocks[..n]);
      ChainJustified(rules, blocks[..n]);
      BlockJustified(rules, Replay(rules, blocks[..n]).value, HistoryOf(blocks[..n]), blocks[n]);
    }
  }

  lemma NotEmpty(rules: Rules, ledger: Ledger, block: Block)
    requires BlockOk(rules, ledger, block)
    ensures block.transactions != []
  {
  }

  /** On every accepted chain, every input of every spend names an output that an earlier transaction created
      and nothing spent before; the spend is authorized against that output's script; and if a coinbase
      created it, at least 100 heights lie between. */
  lemma SpendsAreAuthorized(rules: Rules, blocks: seq<Block>, j: nat, k: nat) returns (i: nat)
    requires CollisionFree(rules.crypto) && Replay(rules, blocks).Some?
    requires j < |HistoryOf(blocks)| && !HistoryOf(blocks)[j].isCoinbase && k < |HistoryOf(blocks)[j].tx.inputs|
    ensures i < j
    ensures var hist := HistoryOf(blocks);
            var input, made := hist[j].tx.inputs[k], hist[i].tx;
            && input.prevOut.txid == rules.crypto.txid(made)
            && input.prevOut.vout < |made.outputs| && made.outputs[input.prevOut.vout].value > 0
            && rules.crypto.authorized(hist[j].tx, input, made.outputs[input.prevOut.vout].scriptPubKey)
            && (hist[i].isCoinbase ==> hist[j].height - hist[i].height >= 100)
            && (forall m, n | 0 <= m < j && !hist[m].isCoinbase && 0 <= n < |hist[m].tx.inputs| ::
                  hist[m].tx.inputs[n].prevOut != input.prevOut)
            && (forall n | 0 <= n < |hist[j].tx.inputs| && n != k :: hist[j].tx.inputs[n].prevOut != input.prevOut)
  {
    ChainJustified(rules, blocks);
    assert Justified(rules.crypto, HistoryOf(blocks), j, k);
    i :| JustifiedBy(rules.crypto, HistoryOf(blocks), j, k, i);
  }

  /** A record that has output o, with a value. */
  predicate Makes(crypto: Crypto, r: Record, o: OutPoint) {
    o.txid == crypto.txid(r.tx) && o.vout < |r.tx.outputs| && r.tx.outputs[o.vout].value > 0
  }

  /** A spend with an input that names output o. */
  predicate Names(r: Record, o: OutPoint) {
    !r.isCoinbase && exists n :: 0 <= n < |r.tx.inputs| && r.tx.inputs[n].prevOut == o
  }

  /** Record r made output o as the entry describes it. */
  predicate MadeAs(r: Record, o: OutPoint, entry: Entry)
    requires o.vout < |r.tx.outputs|
  {
    var output := r.tx.outputs[o.vout];
    entry == Entry(output.value, output.scriptPubKey, r.height, r.isCoinbase)
  }

  /** What is unspent after an accepted chain: exactly the outputs with a value that some transaction made and no
      spend names, each with the value, script and height it was made with. */
  lemma UnspentExactly(rules: Rules, blocks: seq<Block>, o: OutPoint)
    requires CollisionFree(rules.crypto) && Replay(rules, blocks).Some?
    ensures var coins, hist := Replay(rules, blocks).value.coins, HistoryOf(blocks);
            && (o in coins <==>
                  && (exists i :: 0 <= i < |hist| && Makes(rules.crypto, hist[i], o))
                  && forall j | 0 <= j < |hist| :: !Names(hist[j], o))
            && (o in coins ==> exists i :: 0 <= i < |hist| && Makes(rules.crypto, hist[i], o) && MadeAs(hist[i], o, coins[o]))
  {
    hide CollisionFree, CoinsInv, Replay, HistoryOf, Makes, Names, MadeAs;
    ReplayedCoins(rules, blocks);
    UnspentOf(rules.crypto, Replay(rules, blocks).value.coins, HistoryOf(blocks), o);
  }

  lemma ReplayedCoins(rules: Rules, blocks: seq<Block>)
    requires CollisionFree(rules.crypto) && Replay(rules, blocks).Some?
    ensures CoinsInv(rules.crypto, Replay(rules, blocks).value.coins, HistoryOf(blocks))
  {
    hide CollisionFree, CoinsInv, Replay, HistoryOf;
    ReplayKeeps(rules, blocks);
  }

  lemma UnspentOf(crypto: Crypto, coins: Coins, hist: History, o: OutPoint)
    requires CoinsInv(crypto, coins, hist)
    ensures o in coins <==>
              && (exists i :: 0 <= i < |hist| && Makes(crypto, hist[i], o))
              && forall j | 0 <= j < |hist| :: !Names(hist[j], o)
    ensures o in coins ==> exists i :: 0 <= i < |hist| && Makes(crypto, hist[i], o) && MadeAs(hist[i], o, coins[o])
  {
    hide EverCreated, EverSpent, Makes, Names, MadeAs, UsedOnce, WellFormed;
    SpentExactly(hist, o);
    MadeExactly(crypto, hist, o);
  }

  lemma MadeExactly(crypto: Crypto, hist: History, o: OutPoint)
    ensures o in EverCreated(crypto, hist) <==> exists i :: 0 <= i < |hist| && Makes(crypto, hist[i], o)
    ensures o in EverCreated(crypto, hist) ==>
              exists i :: 0 <= i < |hist| && Makes(crypto, hist[i], o) && MadeAs(hist[i], o, EverCreated(crypto, hist)[o])
  {
    if o in EverCreated(crypto, hist) {
      var i := EntryOf(crypto, hist, o);
      assert Makes(crypto, hist[i], o) && MadeAs(hist[i], o, EverCreated(crypto, hist)[o]);
    }
    if i :| 0 <= i < |hist| && Makes(crypto, hist[i], o) {
      CreatedEver(crypto, hist, i);
      assert o in Outs(crypto, hist[i]).Keys;
    }
  }

  lemma SpentExactly(hist: History, o: OutPoint)
    ensures o in EverSpent(hist) <==> exists j :: 0 <= j < |hist| && Names(hist[j], o)
  {
    if o in EverSpent(hist) {
      var j := SpentBySome(hist, o);
    }
    if j :| 0 <= j < |hist| && Names(hist[j], o) {
      var n :| 0 <= n < |hist[j].tx.inputs| && hist[j].tx.inputs[n].prevOut == o;
      SpentInput(hist, j, n);
    }
  }

  lemma {:induction false} SpentBySome(hist: History, o: OutPoint) returns (j: nat)
    requires o in EverSpent(hist)
    ensures j < |hist| && Names(hist[j], o)
  {
    var last := |hist| - 1;
    if o in Ins(hist[last]) {
      j := last;
      var n :| 0 <= n < |PrevOuts(hist[last].tx)| && PrevOuts(hist[last].tx)[n] == o;
      assert hist[last].tx.inputs[n].prevOut == o;
    } else {
      j := SpentBySome(hist[..last], o);
    }
  }

  // ---------- Work is credited to who did it ----------

  /** The work that a list of contributions holds for one miner. */
  function WorkOf(cs: seq<Contribution>, miner: Bytes): int {
    if cs == [] then 0
    else WorkOf(cs[..|cs| - 1], miner) + if cs[|cs| - 1].miner == miner then cs[|cs| - 1].tflops else 0
  }

  predicate Contributed(cs: seq<Contribution>, miner: Bytes) {
    exists i :: 0 <= i < |cs| && cs[i].miner == miner
  }

  /** The map holds exactly the miners of the contributions, each with its own work. */
  ghost predicate Credits(weights: Weights, cs: seq<Contribution>) {
    && (forall m :: m in weights <==> Contributed(cs, m))
    && (forall m | m in weights :: weights[m] == WorkOf(cs, m))
  }

  lemma OneMoreContribution(cs: seq<Contribution>, c: Contribution, m: Bytes)
    ensures WorkOf(cs + [c], m) == WorkOf(cs, m) + if c.miner == m then c.tflops else 0
    ensures Contributed(cs + [c], m) <==> Contributed(cs, m) || c.miner == m
    ensures !Contributed(cs, m) ==> WorkOf(cs, m) == 0
  {
    var more := cs + [c];
    assert more[..|cs|] == cs && more[|cs|] == c;
    if i :| 0 <= i < |cs| && cs[i].miner == m {
      assert more[i].miner == m;
    } else {
      NoWork(cs, m);
    }
  }

  lemma {:induction false} NoWork(cs: seq<Contribution>, m: Bytes)
    requires !Contributed(cs, m)
    ensures WorkOf(cs, m) == 0
  {
    if cs != [] {
      var n := |cs| - 1;
      forall i | 0 <= i < n
        ensures cs[..n][i].miner != m
      {
        assert cs[..n][i] == cs[i];
      }
      NoWork(cs[..n], m);
    }
  }

  lemma CreditOne(e: EpochData, c: Contribution, cs: seq<Contribution>)
    requires Credits(e.weights, cs) && c.tflops >= 0
    ensures Credits(AddWeight(e, c).weights, cs + [c])
  {
    hide WorkOf, Contributed;
    forall m
      ensures m in AddWeight(e, c).weights <==> Contributed(cs + [c], m)
      ensures m in AddWeight(e, c).weights ==> AddWeight(e, c).weights[m] == WorkOf(cs + [c], m)
    {
      OneMoreContribution(cs, c, m);
    }
  }

  lemma {:induction false} CreditAll(e: EpochData, more: seq<Contribution>, cs: seq<Contribution>)
    requires Credits(e.weights, cs) && AddWeights(e, more).1
    ensures Credits(AddWeights(e, more).0.weights, cs + more)
    decreases more
  {
    hide Credits, AddWeight;
    if more == [] {
      assert cs + more == cs;
    } else {
      CreditOne(e, more[0], cs);
      CreditAll(AddWeight(e, more[0]), more[1..], cs + [more[0]]);
      assert cs + [more[0]] + more[1..] == cs + more;
    }
  }

  lemma {:induction false} WorkSumConcat(a: seq<Contribution>, b: seq<Contribution>)
    ensures WorkSum(a + b) == WorkSum(a) + WorkSum(b)
  {
    if a == [] {
      assert a + b == b;
    } else {
      WorkSumConcat(a[1..], b);
      assert (a + b)[1..] == a[1..] + b;
    }
  }

  /** The contributions of the epoch that the last block belongs to, block after block. Block n of a chain has
      height n + 1, and epochs begin at multiples of 144. */
  function EpochProofs(blocks: seq<Block>): seq<Contribution> {
    if blocks == [] then []
    else
      var n := |blocks| - 1;
      (if (n + 1) % 144 == 0 then [] else EpochProofs(blocks[..n])) + blocks[n].proofs
  }

  /** An accumulator that credits these contributions and nothing else. */
  ghost predicate Holds(e: EpochData, cs: seq<Contribution>) {
    Credits(e.weights, cs) && e.total == WorkSum(cs)
  }

  lemma BlockCredits(e: EpochData, cs: seq<Contribution>, more: seq<Contribution>, height: nat, fees: int)
    requires Consistent(e) && height % BLOCKS_PER_EPOCH == e.blockIndex
    requires Holds(e, cs) && ApplyBlock(e, more, height, fees).1
    ensures Holds(ApplyBlock(e, more, height, fees).0, cs + more)
  {
    hide Credits, AddWeights;
    ApplyBlockKeeps(e, more, height, fees);
    CreditAll(e.(pool := e.pool + Emission.BlockReward(height) + fees), more, cs);
    WorkSumConcat(cs, more);
  }

  /** What a new block's contributions join: those of its epoch so far. */
  function EarlierProofs(blocks: seq<Block>): seq<Contribution> {
    if (|blocks| + 1) % 144 == 0 then [] else EpochProofs(blocks)
  }

  lemma NextCredits(rules: Rules, ledger: Ledger, hist: History, block: Block, cs: seq<Contribution>)
    requires LedgerInv(rules.crypto, ledger, hist) && Holds(ledger.epoch, cs) && block.transactions != []
    requires ApplyToLedger(rules.crypto, ledger, block).1
    ensures Holds(ApplyToLedger(rules.crypto, ledger, block).0.epoch,
                  if (ledger.tip + 2) % 144 == 0 then [] else cs + block.proofs)
  {
    hide Holds, ApplyBlock, CoinsAfterBlock, NodeFees, CoinsInv, Consistent;
    var height := ledger.tip + 1;
    EpochReady(rules.crypto, ledger, hist);
    BlockCredits(ledger.epoch, cs, block.proofs, height, BlockFees(rules.crypto, block, ledger));
    NobodyYet();
  }

  /** On every accepted chain the accumulator credits exactly the contributions of the running epoch. */
  lemma {:induction false} ChainCredits(rules: Rules, blocks: seq<Block>)
    requires CollisionFree(rules.crypto) && Replay(rules, blocks).Some?
    ensures Holds(Replay(rules, blocks).value.epoch, EarlierProofs(blocks))
  {
    hide CollisionFree, LedgerInv, BlockOk, Holds, ApplyToLedger;
    if blocks == [] {
      NobodyYet();
    } else {
      var n := |blocks| - 1;
      var ledger := Replay(rules, blocks[..n]).value;
      ReplayKeeps(rules, blocks[..n]);
      ChainCredits(rules, blocks[..n]);
      NotEmpty(rules, ledger, blocks[n]);
      NextCredits(rules, ledger, HistoryOf(blocks[..n]), blocks[n], EarlierProofs(blocks[..n]));
    }
  }

  lemma EpochReady(crypto: Crypto, ledger: Ledger, hist: History)
    requires LedgerInv(crypto, ledger, hist)
    ensures Consistent(ledger.epoch) && ledger.epoch.blockIndex == (ledger.tip + 1) % BLOCKS_PER_EPOCH
  {
    hide CoinsInv;
  }

  lemma NobodyYet()
    ensures forall start, index, pool :: Holds(EpochData(start, index, 0, map[], pool), [])
  {
  }

  // ---------- And paid to who did it ----------

  function MinersOf(shares: seq<Share>): (r: seq<Bytes>)
    ensures |r| == |shares| && forall i | 0 <= i < |r| :: r[i] == shares[i].0
  {
    seq(|shares|, i requires 0 <= i < |shares| => shares[i].0)
  }

  /** Every contributor once, by falling work and then by name. */
  ghost predicate ListsContributors(cs: seq<Contribution>, miners: seq<Bytes>) {
    && (forall m :: m in miners <==> Contributed(cs, m))
    && (forall i, j | 0 <= i < j < |miners| ::
          WorkOf(cs, miners[i]) > WorkOf(cs, miners[j])
          || (WorkOf(cs, miners[i]) == WorkOf(cs, miners[j]) && Compare(miners[i], miners[j]) < 0))
  }

  /** The payout list of an epoch with these contributions: one output per miner, to the miner's own script; all
      but the last exactly the floor of the miner's share of what is paid, and the last that floor and at most
      one unit per other miner. */
  ghost predicate PaysInShare(crypto: Crypto, outputs: seq<TxOutput>, cs: seq<Contribution>, miners: seq<Bytes>) {
    var pool, total := OutputSum(outputs), WorkSum(cs);
    && total > 0 && |miners| == |outputs|
    && (forall i | 0 <= i < |miners| :: outputs[i].scriptPubKey == crypto.payoutScript(miners[i]))
    && (forall i | 0 <= i < |miners| ::
          var floor := pool * WorkOf(cs, miners[i]) / total;
          if i < |miners| - 1 then outputs[i].value == floor else floor <= outputs[i].value <= floor + |miners| - 1)
  }

  ghost predicate PaysContributors(crypto: Crypto, outputs: seq<TxOutput>, cs: seq<Contribution>, miners: seq<Bytes>) {
    ListsContributors(cs, miners) && PaysInShare(crypto, outputs, cs, miners)
  }

  /** Entries of a map that credits the contributions: each contributor once, with its work. */
  lemma EntriesCredit(weights: Weights, cs: seq<Contribution>, shares: seq<Share>)
    requires Credits(weights, cs) && IsEnumeration(weights, shares)
    ensures forall i | 0 <= i < |shares| :: shares[i].1 == WorkOf(cs, shares[i].0) && Contributed(cs, shares[i].0)
    ensures forall m | Contributed(cs, m) :: exists i :: 0 <= i < |shares| && shares[i].0 == m
    ensures forall i, j | 0 <= i < j < |shares| :: shares[i].0 != shares[j].0
  {
    hide WorkOf, Contributed;
    forall i | 0 <= i < |shares|
      ensures shares[i].0 in weights && shares[i].1 == weights[shares[i].0]
    {
      assert shares[i] in multiset(shares);
      assert shares[i] in weights.Items;
    }
    forall m | Contributed(cs, m)
      ensures exists i :: 0 <= i < |shares| && shares[i].0 == m
    {
      assert (m, weights[m]) in weights.Items;
      assert (m, weights[m]) in multiset(shares);
      var i :| 0 <= i < |shares| && shares[i] == (m, weights[m]);
      assert shares[i].0 == m;
    }
    forall i, j | 0 <= i < j < |shares|
      ensures shares[i].0 != shares[j].0
    {
      ListedOnce(weights.Items, shares, i, j);
    }
  }

  lemma RankedOrder(shares: seq<Share>, i: nat, j: nat)
    requires SortedBy(HighestFirst, shares) && i < j < |shares| && shares[i].0 != shares[j].0
    ensures shares[i].1 > shares[j].1 || (shares[i].1 == shares[j].1 && Compare(shares[i].0, shares[j].0) < 0)
  {
    BeforeIsStrictOrder();
    assert HighestFirst(shares[i], shares[j]);
  }

  lemma MinersListed(cs: seq<Contribution>, weights: Weights, sorted: seq<Share>)
    requires Credits(weights, cs) && IsEnumeration(weights, sorted) && SortedBy(HighestFirst, sorted)
    ensures ListsContributors(cs, MinersOf(sorted))
  {
    hide WorkOf, Contributed, Compare, HighestFirst;
    EntriesCredit(weights, cs, sorted);
    var miners := MinersOf(sorted);
    forall i, j | 0 <= i < j < |miners|
      ensures WorkOf(cs, miners[i]) > WorkOf(cs, miners[j])
              || (WorkOf(cs, miners[i]) == WorkOf(cs, miners[j]) && Compare(miners[i], miners[j]) < 0)
    {
      RankedOrder(sorted, i, j);
    }
    forall m
      ensures m in miners <==> Contributed(cs, m)
    {
      if m in miners {
        var i :| 0 <= i < |miners| && miners[i] == m;
        assert sorted[i].0 == m;
      }
      if Contributed(cs, m) {
        var i :| 0 <= i < |sorted| && sorted[i].0 == m;
        assert miners[i] == m;
      }
    }
  }

  lemma SharePaid(e: EpochData, s: seq<Share>, i: nat)
    requires Consistent(e) && e.total > 0 && e.pool >= 0
    requires multiset(s) == multiset(e.weights.Items) && i < |s|
    ensures var paid, floor := PayoutsOf(s, e.pool, e.total)[i].amount, e.pool * s[i].1 / e.total;
            if i < |s| - 1 then paid == floor else floor <= paid <= floor + |s| - 1
  {
    hide PayoutsOf, FloorShare;
    SharesAreFair(e, s, i);
    FloorIsQuotient(e.pool, s[i].1, e.total);
  }

  lemma AmountsPaid(crypto: Crypto, e: EpochData, cs: seq<Contribution>, sorted: seq<Share>, outputs: seq<TxOutput>)
    requires Consistent(e) && e.total > 0 && e.pool >= 0 && Holds(e, cs) && IsEnumeration(e.weights, sorted)
    requires outputs == SettlementOutputs(crypto, PayoutsOf(sorted, e.pool, e.total)) && OutputSum(outputs) == e.pool
    ensures PaysInShare(crypto, outputs, cs, MinersOf(sorted))
  {
    hide WorkOf, Contributed, WorkSum, OutputSum, FloorShare, FloorSum, Consistent;
    EntriesCredit(e.weights, cs, sorted);
    var miners := MinersOf(sorted);
    forall i | 0 <= i < |miners|
      ensures outputs[i].scriptPubKey == crypto.payoutScript(miners[i])
      ensures var floor := e.pool * WorkOf(cs, miners[i]) / e.total;
              if i < |miners| - 1 then outputs[i].value == floor else floor <= outputs[i].value <= floor + |miners| - 1
    {
      SharePaid(e, sorted, i);
    }
  }

  lemma SettlementPays(crypto: Crypto, e: EpochData, cs: seq<Contribution>, height: nat, entries: seq<Share>)
    returns (miners: seq<Bytes>)
    requires Consistent(e) && e.blockIndex == BLOCKS_PER_EPOCH && e.total > 0 && e.pool >= 0
    requires Holds(e, cs) && IsEnumeration(e.weights, entries)
    ensures var outputs := SettlementOutputs(crypto, SettlementOf(e, height / BLOCKS_PER_EPOCH, entries).value.payouts);
            PaysContributors(crypto, outputs, cs, miners)
  {
    hide Consistent, ListsContributors, PaysInShare, OutputSum, PayoutsOf, SettlementOutputs, Sort;
    var sorted := Sort(HighestFirst, entries);
    SettlementPaysPool(crypto, e, height, entries);
    SortPermutes(HighestFirst, entries);
    RankingOrders(Elements(entries));
    SortSorts(HighestFirst, entries);
    miners := MinersOf(sorted);
    MinersListed(cs, e.weights, sorted);
    AmountsPaid(crypto, e, cs, sorted, SettlementOutputs(crypto, PayoutsOf(sorted, e.pool, e.total)));
  }

  lemma FloorIsQuotient(pool: nat, tflops: nat, total: nat)
    requires total > 0
    ensures FloorShare(pool, tflops, total) == pool * tflops / total
  {
    assert pool * tflops >= 0;
  }

  lemma SettledFrom(crypto: Crypto, tx: Transaction, e: EpochData, height: nat) returns (entries: seq<Share>)
    requires Settles(crypto, tx, e, height)
    ensures IsEnumeration(e.weights, entries) && SettlementOf(e, height / BLOCKS_PER_EPOCH, entries).Some?
    ensures tx.outputs
            == SettlementOutputs(crypto, SettlementOf(e, height / BLOCKS_PER_EPOCH, entries).value.payouts)
  {
    entries :| IsEnumeration(e.weights, entries)
      && CoinbaseVerdict(crypto, tx, e, height / BLOCKS_PER_EPOCH, height, entries) == Some(true);
  }

  lemma {:induction false} OutputsNonNegative(outputs: seq<TxOutput>)
    requires forall i | 0 <= i < |outputs| :: outputs[i].value >= 0
    ensures OutputSum(outputs) >= 0
  {
    if outputs != [] {
      OutputsNonNegative(outputs[..|outputs| - 1]);
    }
  }

  lemma CoinbaseSettles(rules: Rules, ledger: Ledger, block: Block)
    requires BlockOk(rules, ledger, block) && IsBoundary(ledger.tip + 1)
    ensures block.transactions != [] && BodyOk(rules, ledger, block) && OutputSum(block.transactions[0].outputs) >= 0
    ensures var (e, ok) := ApplyBlock(ledger.epoch, block.proofs, ledger.tip + 1, BlockFees(rules.crypto, block, ledger));
            ok && Settles(rules.crypto, block.transactions[0], e, ledger.tip + 1)
  {
    hide SpendsOk, ProofsOk, OverwritesNothing, ApplyBlock, Settles, NodeFees, OutputSum;
    assert ShapeAt(block.transactions, 0);
    OutputsNonNegative(block.transactions[0].outputs);
  }

  /** The coinbase of an accepted boundary block pays the epoch's contributors. */
  lemma BoundaryPays(rules: Rules, ledger: Ledger, block: Block, cs: seq<Contribution>) returns (miners: seq<Bytes>)
    requires BlockOk(rules, ledger, block) && rules.target(ledger.tip + 1) > 0 && IsBoundary(ledger.tip + 1)
    requires Consistent(ledger.epoch) && ledger.epoch.blockIndex == (ledger.tip + 1) % BLOCKS_PER_EPOCH
    requires Holds(ledger.epoch, cs)
    ensures block.transactions != []
    ensures PaysContributors(rules.crypto, block.transactions[0].outputs, cs + block.proofs, miners)
  {
    hide BlockOk, BodyOk, ApplyBlock, Settles, NodeFees, PaysContributors, Holds, Consistent, SettlementOf, IsEnumeration,
         OutputSum, Emission.BlockReward;
    CoinbaseSettles(rules, ledger, block);
    var height, tx := ledger.tip + 1, block.transactions[0];
    var fees := BlockFees(rules.crypto, block, ledger);
    BoundaryEpoch(rules, ledger, block);
    BlockCredits(ledger.epoch, cs, block.proofs, height, fees);
    var e := ApplyBlock(ledger.epoch, block.proofs, height, fees).0;
    SettlesPaysPool(rules.crypto, tx, e, height);
    var entries := SettledFrom(rules.crypto, tx, e, height);
    miners := SettlementPays(rules.crypto, e, cs + block.proofs, height, entries);
  }

  /** Whenever an accepted chain closes an epoch, its last coinbase pays exactly the contributors of that epoch,
      each to the script of its own name and in proportion to its own work. */
  lemma ContributorsArePaid(rules: Rules, blocks: seq<Block>) returns (miners: seq<Bytes>)
    requires CollisionFree(rules.crypto) && Replay(rules, blocks).Some? && |blocks| % 144 == 143
    ensures blocks[|blocks| - 1].transactions != []
    ensures PaysContributors(rules.crypto, blocks[|blocks| - 1].transactions[0].outputs, EpochProofs(blocks), miners)
  {
    hide CollisionFree, LedgerInv, BlockOk, Holds, ApplyToLedger, PaysContributors, Consistent;
    var n := |blocks| - 1;
    var ledger := Replay(rules, blocks[..n]).value;
    ReplayKeeps(rules, blocks[..n]);
    EpochReady(rules.crypto, ledger, HistoryOf(blocks[..n]));
    ChainCredits(rules, blocks[..n]);
    TargetPositive(rules, ledger, blocks[n]);
    miners := BoundaryPays(rules, ledger, blocks[n], EarlierProofs(blocks[..n]));
    assert EpochProofs(blocks) == EarlierProofs(blocks[..n]) + blocks[n].proofs;
  }

  lemma TargetPositive(rules: Rules, ledger: Ledger, block: Block)
    requires BlockOk(rules, ledger, block)
    ensures rules.target(ledger.tip + 1) > 0
  {
  }

  lemma {:induction false} TipIsLength(rules: Rules, blocks: seq<Block>)
    requires Replay(rules, blocks).Some?
    ensures Replay(rules, blocks).value.tip == |blocks|
  {
    hide BlockOk, CoinsAfterBlock, NextEpoch;
    if blocks != [] {
      TipIsLength(rules, blocks[..|blocks| - 1]);
    }
  }

  lemma {:induction false} PrefixAccepted(rules: Rules, blocks: seq<Block>, n: nat)
    requires Replay(rules, blocks).Some? && n <= |blocks|
    ensures Replay(rules, blocks[..n]).Some?
  {
    hide BlockOk, ApplyToLedger;
    if n == |blocks| {
      assert blocks[..n] == blocks;
    } else {
      var last := |blocks| - 1;
      PrefixAccepted(rules, blocks[..last], n);
      assert blocks[..last][..n] == blocks[..n];
    }
  }

  /** Every block of an accepted chain was accepted on top of those before it. */
  lemma AcceptedOn(rules: Rules, blocks: seq<Block>, n: nat)
    requires Replay(rules, blocks).Some? && n < |blocks|
    ensures var before := Replay(rules, blocks[..n]);
            before.Some? && before.value.tip == n && BlockOk(rules, before.value, blocks[n])
  {
    hide BlockOk, ApplyToLedger;
    PrefixAccepted(rules, blocks, n + 1);
    assert blocks[..n + 1][..n] == blocks[..n];
    TipIsLength(rules, blocks[..n]);
  }

  /** The first transaction of a block at a height: none of its outputs has a value, unless the height closes an
      epoch; then it spends nothing and its locktime is the height. */
  predicate CoinbaseForm(block: Block, height: nat) {
    && block.transactions != []
    && var tx := block.transactions[0];
       if (height + 1) % 144 == 0 then tx.inputs == [] && tx.locktime == height
       else forall i | 0 <= i < |tx.outputs| :: tx.outputs[i].value == 0
  }

  lemma {:induction false} NoValue(outputs: seq<TxOutput>)
    requires (forall i | 0 <= i < |outputs| :: outputs[i].value >= 0) && OutputSum(outputs) <= 0
    ensures forall i | 0 <= i < |outputs| :: outputs[i].value == 0
  {
    if outputs != [] {
      OutputsNonNegative(outputs[..|outputs| - 1]);
      NoValue(outputs[..|outputs| - 1]);
    }
  }

  lemma BlockForm(rules: Rules, ledger: Ledger, block: Block)
    requires BlockOk(rules, ledger, block)
    ensures CoinbaseForm(block, ledger.tip + 1)
  {
    hide SpendsOk, ProofsOk, OverwritesNothing, ApplyBlock, Settles, NodeFees, OutputSum;
    var tx, height := block.transactions[0], ledger.tip + 1;
    assert ShapeAt(block.transactions, 0);
    if IsBoundary(height) {
      CoinbaseSettles(rules, ledger, block);
      var e := ApplyBlock(ledger.epoch, block.proofs, height, BlockFees(rules.crypto, block, ledger)).0;
      SettledForm(rules.crypto, tx, e, height);
    } else {
      NoValue(tx.outputs);
    }
  }

  lemma SettledForm(crypto: Crypto, tx: Transaction, e: EpochData, height: nat)
    requires Settles(crypto, tx, e, height)
    ensures tx.inputs == [] && tx.locktime == height
  {
    hide SettlementOf, SettlementOutputs;
  }

  /** On every accepted chain value enters only where an epoch closes, in a transaction that spends nothing. */
  lemma CoinbasesMint(rules: Rules, blocks: seq<Block>, n: nat)
    requires Replay(rules, blocks).Some? && n < |blocks|
    ensures CoinbaseForm(blocks[n], n + 1)
  {
    hide Replay, BlockOk, CoinbaseForm;
    AcceptedOn(rules, blocks, n);
    BlockForm(rules, Replay(rules, blocks[..n]).value, blocks[n]);
  }

  // ---------- Every block does enough work ----------

  /** Contributions by different miners for different tasks, each at least a tenth of the target in micro-units,
      together at least the target, all within the safe integers. */
  predicate EnoughWork(proofs: seq<Contribution>, target: nat) {
    && target > 0 && |proofs| > 0
    && (forall i, j | 0 <= i < j < |proofs| :: proofs[i].miner != proofs[j].miner && proofs[i].task != proofs[j].task)
    && (forall i | 0 <= i < |proofs| ::
          0 <= proofs[i].tflops <= 9_007_199_254_740_991 && proofs[i].tflops * 10_000_000 >= target)
    && target <= WorkSum(proofs) * 1_000_000 && WorkSum(proofs) <= 9_007_199_254_740_991
  }

  lemma WorkMeans(proofs: seq<Contribution>, target: nat)
    requires target > 0
    ensures ProofsOk(proofs, target) <==> EnoughWork(proofs, target)
  {
    hide WorkSum;
    if ProofsOk(proofs, target) {
      forall i, j | 0 <= i < j < |proofs|
        ensures proofs[i].miner != proofs[j].miner && proofs[i].task != proofs[j].task
      {
        assert Unrelated(proofs[i], proofs[j]);
      }
      forall i | 0 <= i < |proofs|
        ensures 0 <= proofs[i].tflops <= 9_007_199_254_740_991 && proofs[i].tflops * 10_000_000 >= target
      {
        assert ProofOk(proofs[i], target);
      }
    }
  }

  /** Every block of an accepted chain brings enough work for the target in force at its height. */
  lemma BlocksWork(rules: Rules, blocks: seq<Block>, n: nat)
    requires Replay(rules, blocks).Some? && n < |blocks|
    ensures EnoughWork(blocks[n].proofs, rules.target(n + 1))
  {
    hide Replay, BlockOk, EnoughWork;
    AcceptedOn(rules, blocks, n);
    BlockWorks(rules, Replay(rules, blocks[..n]).value, blocks[n]);
  }

  lemma BlockWorks(rules: Rules, ledger: Ledger, block: Block)
    requires BlockOk(rules, ledger, block)
    ensures EnoughWork(block.proofs, rules.target(ledger.tip + 1))
  {
    hide ShapesOk, SpendsOk, OverwritesNothing, CoinbaseOk, ProofsOk, EnoughWork;
    WorkMeans(block.proofs, rules.target(ledger.tip + 1));
  }
}

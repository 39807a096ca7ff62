/** The unspent-output set and spend validation. */
module Utxo {
  import opened Canonical
  import opened Collections

  const COINBASE_MATURITY: nat := 100
  const UINT32: nat := 0x1_0000_0000

  type Hash = Bytes

  datatype OutPoint = OutPoint(txid: Hash, vout: nat)
  datatype TxInput = TxInput(prevOut: OutPoint, scriptSig: Bytes, sequence: nat)
  datatype TxOutput = TxOutput(value: int, scriptPubKey: Bytes)

  /** No array of the source holds more elements. */
  const MAX_ARRAY: nat := 0xffff_ffff
  type Outputs = s: seq<TxOutput> | |s| <= MAX_ARRAY

  datatype Transaction = Transaction(
    version: nat, inputs: seq<TxInput>, outputs: Outputs, locktime: nat, brokerTaskRef: Option<Bytes>)

  datatype Entry = Entry(value: int, scriptPubKey: Bytes, height: int, isCoinbase: bool)
  type Coins = map<OutPoint, Entry>

  /** What the ledger needs from cryptography: transaction ids, the check that an input's
      signature authorizes spending an output script, and the payout script of an address. */
  datatype Crypto = Crypto(
    txid: Transaction -> Hash,
    authorized: (Transaction, TxInput, Bytes) -> bool,
    payoutScript: Bytes -> Bytes)

  function PrevOuts(tx: Transaction): (r: seq<OutPoint>)
    ensures |r| == |tx.inputs|
    ensures forall i | 0 <= i < |r| :: r[i] == tx.inputs[i].prevOut
  {
    seq(|tx.inputs|, i requires 0 <= i < |tx.inputs| => tx.inputs[i].prevOut)
  }

  /** Equal outputs; equal inputs and locktimes, as far as their 32-bit fields can tell. */
  predicate Alike(a: Transaction, b: Transaction) {
    && a.outputs == b.outputs && a.locktime % UINT32 == b.locktime % UINT32
    && |a.inputs| == |b.inputs|
    && forall i | 0 <= i < |a.inputs| ::
         && a.inputs[i].prevOut.txid == b.inputs[i].prevOut.txid
         && a.inputs[i].prevOut.vout % UINT32 == b.inputs[i].prevOut.vout % UINT32
  }

  /** A transaction id commits to what is spent, what is created and the locktime. */
  ghost predicate CollisionFree(crypto: Crypto) {
    forall a, b | crypto.txid(a) == crypto.txid(b) :: Alike(a, b)
  }

  // ---------- State functions ----------

  /** The coins a transaction's first n outputs create; zero-value outputs are not tracked. */
  function Created(id: Hash, outputs: seq<TxOutput>, n: nat, height: int, isCoinbase: bool): (r: Coins)
    requires n <= |outputs|
    ensures forall o :: o in r <==> o.txid == id && o.vout < n && outputs[o.vout].value > 0
  {
    if n == 0 then map[]
    else
      var out := outputs[n - 1];
      var rest := Created(id, outputs, n - 1, height, isCoinbase);
      if out.value > 0
      then rest[OutPoint(id, n - 1) := Entry(out.value, out.scriptPubKey, height, isCoinbase)]
      else rest
  }

  function CreatedBy(crypto: Crypto, tx: Transaction, height: int, isCoinbase: bool): Coins {
    Created(crypto.txid(tx), tx.outputs, |tx.outputs|, height, isCoinbase)
  }

  function WithoutInputs(coins: Coins, tx: Transaction): Coins {
    coins - Elements(PrevOuts(tx))
  }

  function Applied(crypto: Crypto, coins: Coins, tx: Transaction, height: int, isCoinbase: bool): Coins {
    (if isCoinbase then coins else WithoutInputs(coins, tx)) + CreatedBy(crypto, tx, height, isCoinbase)
  }

  lemma NothingCreated(coins: Coins, id: Hash, outputs: seq<TxOutput>, height: int, isCoinbase: bool)
    ensures coins + Created(id, outputs, 0, height, isCoinbase) == coins
  {
  }

  lemma CreatedNext(coins: Coins, id: Hash, outputs: seq<TxOutput>, n: nat, height: int, isCoinbase: bool)
    requires n < |outputs|
    ensures var out, before := outputs[n], coins + Created(id, outputs, n, height, isCoinbase);
            coins + Created(id, outputs, n + 1, height, isCoinbase)
            == if out.value > 0
               then before[OutPoint(id, n) := Entry(out.value, out.scriptPubKey, height, isCoinbase)]
               else before
  {
    var out := outputs[n];
    AddLater(coins, Created(id, outputs, n, height, isCoinbase), OutPoint(id, n),
             Entry(out.value, out.scriptPubKey, height, isCoinbase));
  }

  // ---------- The mutable set ----------

  class UTXOSet {
    var coins: Coins

    constructor ()
      ensures coins == map[]
    {
      coins := map[];
    }

    method Add(id: Hash, vout: nat, entry: Entry)
      modifies this
      ensures coins == old(coins)[OutPoint(id, vout) := entry]
    {
      coins := coins[OutPoint(id, vout) := entry];
    }

    /** Removes and returns an output; an unknown one leaves the set as it was. */
    method Spend(id: Hash, vout: nat) returns (found: bool, entry: Entry)
      modifies this
      ensures found <==> OutPoint(id, vout) in old(coins)
      ensures found ==> entry == old(coins)[OutPoint(id, vout)]
      ensures coins == old(coins) - {OutPoint(id, vout)}
    {
      var key := OutPoint(id, vout);
      found := key in coins;
      entry := if found then coins[key] else Entry(0, [], 0, false);
      coins := coins - {key};
    }

    method AddTransactionOutputs(crypto: Crypto, tx: Transaction, height: int, isCoinbase: bool)
      modifies this
      ensures coins == old(coins) + CreatedBy(crypto, tx, height, isCoinbase)
    {
      hide Created;
      var id := crypto.txid(tx);
      var vout := 0;
      NothingCreated(old(coins), id, tx.outputs, height, isCoinbase);
      while vout < |tx.outputs|
        invariant vout <= |tx.outputs|
        invariant coins == old(coins) + Created(id, tx.outputs, vout, height, isCoinbase)
      {
        var o := tx.outputs[vout];
        if o.value > 0 {
          Add(id, vout, Entry(o.value, o.scriptPubKey, height, isCoinbase));
        }
        CreatedNext(old(coins), id, tx.outputs, vout, height, isCoinbase);
        vout := vout + 1;
      }
    }

    method ApplyTransaction(crypto: Crypto, tx: Transaction, height: int, isCoinbase: bool)
      modifies this
      ensures coins == Applied(crypto, old(coins), tx, height, isCoinbase)
    {
      if !isCoinbase {
        var i := 0;
        while i < |tx.inputs|
          invariant i <= |tx.inputs|
          invariant coins == old(coins) - Elements(PrevOuts(tx)[..i])
        {
          var prev := tx.inputs[i].prevOut;
          var found, entry := Spend(prev.txid, prev.vout);
          assert PrevOuts(tx)[..i + 1] == PrevOuts(tx)[..i] + [prev];
          i := i + 1;
        }
        assert PrevOuts(tx)[..i] == PrevOuts(tx);
      }
      AddTransactionOutputs(crypto, tx, height, isCoinbase);
    }

    method Clone() returns (copy: UTXOSet)
      ensures fresh(copy) && copy.coins == coins
    {
      copy := new UTXOSet();
      copy.coins := coins;
    }
  }

  // ---------- Spend validation ----------

  datatype SpendError =
    | DuplicateInput | UnknownInput | ImmatureCoinbase | BadSignature | NegativeOutput | Overspend
  datatype SpendResult = Fee(fee: int) | Rejected(error: SpendError)
  datatype Checked = Passed | Failed(error: SpendError)

  predicate Mature(entry: Entry, height: int) {
    entry.isCoinbase ==> height - entry.height >= COINBASE_MATURITY
  }

  /** The three conditions every input must meet, against the coins before the transaction. */
  predicate InputOk(crypto: Crypto, tx: Transaction, coins: Coins, height: int, i: nat)
    requires i < |tx.inputs|
  {
    var input := tx.inputs[i];
    input.prevOut in coins
    && Mature(coins[input.prevOut], height)
    && crypto.authorized(tx, input, coins[input.prevOut].scriptPubKey)
  }

  function InputSum(coins: Coins, outs: seq<OutPoint>): int {
    if outs == [] then 0
    else InputSum(coins, outs[..|outs| - 1]) +
         (if outs[|outs| - 1] in coins then coins[outs[|outs| - 1]].value else 0)
  }

  function OutputSum(outputs: seq<TxOutput>): int {
    if outputs == [] then 0 else OutputSum(outputs[..|outputs| - 1]) + outputs[|outputs| - 1].value
  }

  predicate InputsOk(crypto: Crypto, tx: Transaction, coins: Coins, height: int) {
    Distinct(PrevOuts(tx)) && forall i | 0 <= i < |tx.inputs| :: InputOk(crypto, tx, coins, height, i)
  }

  /** The documented acceptance rule of a spend. */
  predicate SpendOk(crypto: Crypto, tx: Transaction, coins: Coins, height: int) {
    && InputsOk(crypto, tx, coins, height)
    && (forall i | 0 <= i < |tx.outputs| :: tx.outputs[i].value >= 0)
    && OutputSum(tx.outputs) <= InputSum(coins, PrevOuts(tx))
  }

  function SpendFee(tx: Transaction, coins: Coins): int {
    InputSum(coins, PrevOuts(tx)) - OutputSum(tx.outputs)
  }

  /** The input loop: distinct, known, mature and authorized inputs, and their sum. */
  method CheckInputs(crypto: Crypto, tx: Transaction, utxo: UTXOSet, height: int) returns (r: Checked, inSum: int)
    ensures r.Passed? <==> InputsOk(crypto, tx, utxo.coins, height)
    ensures r.Passed? ==> inSum == InputSum(utxo.coins, PrevOuts(tx))
  {
    ghost var outs := PrevOuts(tx);
    inSum := 0;
    var seen: set<OutPoint> := {};
    var i := 0;
    while i < |tx.inputs|
      invariant i <= |tx.inputs|
      invariant seen == Elements(outs[..i]) && Distinct(outs[..i])
      invariant forall k | 0 <= k < i :: InputOk(crypto, tx, utxo.coins, height, k)
      invariant inSum == InputSum(utxo.coins, outs[..i])
    {
      var input := tx.inputs[i];
      if input.prevOut in seen {
        assert exists k :: 0 <= k < i && outs[k] == outs[i];
        return Failed(DuplicateInput), inSum;
      }
      seen := seen + {input.prevOut};
      r := CheckInput(crypto, tx, utxo, height, i);
      if r.Failed? {
        return;
      }
      inSum := inSum + utxo.coins[input.prevOut].value;
      assert outs[..i + 1] == outs[..i] + [input.prevOut];
      i := i + 1;
    }
    assert outs[..i] == outs;
    r := Passed;
  }

  method CheckInput(crypto: Crypto, tx: Transaction, utxo: UTXOSet, height: int, i: nat) returns (r: Checked)
    requires i < |tx.inputs|
    ensures r.Passed? <==> InputOk(crypto, tx, utxo.coins, height, i)
    ensures var o := tx.inputs[i].prevOut;
            r == if o !in utxo.coins then Failed(UnknownInput)
                 else if utxo.coins[o].isCoinbase && height - utxo.coins[o].height < 100 then Failed(ImmatureCoinbase)
                 else if !crypto.authorized(tx, tx.inputs[i], utxo.coins[o].scriptPubKey) then Failed(BadSignature)
                 else Passed
  {
    var input := tx.inputs[i];
    if input.prevOut !in utxo.coins {
      return Failed(UnknownInput);
    }
    var entry := utxo.coins[input.prevOut];
    if entry.isCoinbase && height - entry.height < COINBASE_MATURITY {
      return Failed(ImmatureCoinbase);
    }
    r := if crypto.authorized(tx, input, entry.scriptPubKey) then Passed else Failed(BadSignature);
  }

  /** Succeeds exactly on the documented rule, with the exact fee. */
  method ValidateSpend(crypto: Crypto, tx: Transaction, utxo: UTXOSet, height: int) returns (r: SpendResult)
    ensures r.Fee? <==> SpendOk(crypto, tx, utxo.coins, height)
    ensures r.Fee? ==> r.fee == SpendFee(tx, utxo.coins)
  {
    var checked, inSum := CheckInputs(crypto, tx, utxo, height);
    if checked.Failed? {
      return Rejected(checked.error);
    }
    var outSum := 0;
    var j := 0;
    while j < |tx.outputs|
      invariant j <= |tx.outputs|
      invariant forall k | 0 <= k < j :: tx.outputs[k].value >= 0
      invariant outSum == OutputSum(tx.outputs[..j])
    {
      if tx.outputs[j].value < 0 {
        return Rejected(NegativeOutput);
      }
      outSum := outSum + tx.outputs[j].value;
      assert tx.outputs[..j + 1] == tx.outputs[..j] + [tx.outputs[j]];
      j := j + 1;
    }
    assert tx.outputs[..j] == tx.outputs;
    if outSum > inSum {
      return Rejected(Overspend);
    }
    r := Fee(inSum - outSum);
  }

  /** The rule, field by field: different, known, matured and authorized inputs, no negative output, and no
      more paid than taken. */
  lemma SpendMeans(crypto: Crypto, tx: Transaction, coins: Coins, height: int)
    ensures SpendOk(crypto, tx, coins, height) <==>
              && (forall i, j | 0 <= i < j < |tx.inputs| :: tx.inputs[i].prevOut != tx.inputs[j].prevOut)
              && (forall i | 0 <= i < |tx.inputs| ::
                    && tx.inputs[i].prevOut in coins
                    && (coins[tx.inputs[i].prevOut].isCoinbase ==> height - coins[tx.inputs[i].prevOut].height >= 100)
                    && crypto.authorized(tx, tx.inputs[i], coins[tx.inputs[i].prevOut].scriptPubKey))
              && (forall i | 0 <= i < |tx.outputs| :: tx.outputs[i].value >= 0)
              && OutputSum(tx.outputs) <= InputSum(coins, PrevOuts(tx))
  {
    assert Distinct(PrevOuts(tx)) <==>
             forall i, j | 0 <= i < j < |tx.inputs| :: tx.inputs[i].prevOut != tx.inputs[j].prevOut by {
      if Distinct(PrevOuts(tx)) {
        forall i, j | 0 <= i < j < |tx.inputs|
          ensures tx.inputs[i].prevOut != tx.inputs[j].prevOut
        {
          assert PrevOuts(tx)[i] != PrevOuts(tx)[j];
        }
      }
    }
    if InputsOk(crypto, tx, coins, height) {
      forall i | 0 <= i < |tx.inputs|
        ensures tx.inputs[i].prevOut in coins
        ensures coins[tx.inputs[i].prevOut].isCoinbase ==> height - coins[tx.inputs[i].prevOut].height >= 100
        ensures crypto.authorized(tx, tx.inputs[i], coins[tx.inputs[i].prevOut].scriptPubKey)
      {
        assert InputOk(crypto, tx, coins, height, i);
      }
    }
  }

  // ---------- Value ----------

  /** Sum of every unspent value. */
  ghost function Total(coins: Coins): int {
    if coins == map[] then 0
    else
      var o :| o in coins;
      coins[o].value + Total(coins - {o})
  }

  lemma {:induction false} TotalRemove(coins: Coins, o: OutPoint)
    requires o in coins
    ensures Total(coins) == coins[o].value + Total(coins - {o})
    decreases |coins|
  {
    var p :| p in coins && Total(coins) == coins[p].value + Total(coins - {p});
    if p != o {
      TotalRemove(coins - {p}, o);
      TotalRemove(coins - {o}, p);
      assert coins - {p} - {o} == coins - {o} - {p};
    }
  }

  lemma TotalAdd(coins: Coins, o: OutPoint, entry: Entry)
    requires o !in coins
    ensures Total(coins[o := entry]) == Total(coins) + entry.value
  {
    TotalRemove(coins[o := entry], o);
    assert coins[o := entry] - {o} == coins;
  }

  /** Spending distinct known outputs lowers the total by their values. */
  lemma {:induction false} TotalSpend(coins: Coins, outs: seq<OutPoint>)
    requires Distinct(outs) && forall o | o in outs :: o in coins
    ensures Total(coins - Elements(outs)) == Total(coins) - InputSum(coins, outs)
  {
    if outs == [] {
      assert coins - Elements(outs) == coins;
    } else {
      var n := |outs| - 1;
      var rest := outs[..n];
      TotalSpend(coins, rest);
      assert outs[n] in outs && outs[n] !in rest;
      TotalRemove(coins - Elements(rest), outs[n]);
      assert coins - Elements(rest) - {outs[n]} == coins - Elements(outs);
    }
  }

  /** Creating outputs under a fresh id raises the total by the output sum. */
  lemma {:induction false} TotalCreate(coins: Coins, id: Hash, outputs: seq<TxOutput>, n: nat,
                                       height: int, isCoinbase: bool)
    requires n <= |outputs| && forall i | 0 <= i < n :: outputs[i].value >= 0
    requires coins.Keys !! Created(id, outputs, n, height, isCoinbase).Keys
    ensures Total(coins + Created(id, outputs, n, height, isCoinbase)) == Total(coins) + OutputSum(outputs[..n])
  {
    if n == 0 {
      assert coins + map[] == coins;
    } else {
      var before := Created(id, outputs, n - 1, height, isCoinbase);
      var after := Created(id, outputs, n, height, isCoinbase);
      var out, o := outputs[n - 1], OutPoint(id, n - 1);
      assert before.Keys <= after.Keys;
      TotalCreate(coins, id, outputs, n - 1, height, isCoinbase);
      assert outputs[..n] == outputs[..n - 1] + [out];
      if out.value > 0 {
        var entry := Entry(out.value, out.scriptPubKey, height, isCoinbase);
        assert o in after.Keys && o !in (coins + before).Keys;
        TotalAdd(coins + before, o, entry);
        AddLater(coins, before, o, entry);
      }
    }
  }

  /** A valid spend under a fresh id moves value into the fee and nowhere else. */
  lemma SpendConserves(crypto: Crypto, tx: Transaction, coins: Coins, height: int)
    requires SpendOk(crypto, tx, coins, height)
    requires coins.Keys !! CreatedBy(crypto, tx, height, false).Keys
    ensures Total(Applied(crypto, coins, tx, height, false)) + SpendFee(tx, coins) == Total(coins)
    ensures SpendFee(tx, coins) >= 0
  {
    var outs := PrevOuts(tx);
    forall o | o in outs
      ensures o in coins
    {
      var i :| 0 <= i < |outs| && outs[i] == o;
      assert InputOk(crypto, tx, coins, height, i);
    }
    TotalSpend(coins, outs);
    assert tx.outputs[..|tx.outputs|] == tx.outputs;
    TotalCreate(WithoutInputs(coins, tx), crypto.txid(tx), tx.outputs, |tx.outputs|, height, false);
  }
}

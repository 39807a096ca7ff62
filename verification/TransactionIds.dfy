/** A transaction id is the hash of the transaction's wire bytes; what those bytes tell apart. */
module TransactionIds {
  import opened Canonical
  import opened Collections
  import opened Codec
  import Utxo

  /** A ledger transaction as it is written. */
  function WireIn(i: Utxo.TxInput): In {
    In(i.prevOut.txid, i.prevOut.vout, i.scriptSig, i.sequence)
  }

  function WireIns(s: seq<Utxo.TxInput>): (r: seq<In>)
    ensures |r| == |s| && forall i | 0 <= i < |s| :: r[i] == WireIn(s[i])
  {
    seq(|s|, i requires 0 <= i < |s| => WireIn(s[i]))
  }

  function WireOuts(s: seq<Utxo.TxOutput>): (r: seq<Out>)
    ensures |r| == |s| && forall i | 0 <= i < |s| :: r[i] == Out(s[i].value, s[i].scriptPubKey)
  {
    seq(|s|, i requires 0 <= i < |s| => Out(s[i].value, s[i].scriptPubKey))
  }

  function Wire(tx: Utxo.Transaction): Tx {
    Tx(tx.version, WireIns(tx.inputs), WireOuts(tx.outputs), tx.locktime, tx.brokerTaskRef)
  }

  lemma U32Truncates(n: nat)
    ensures U32(n % UINT32) == U32(n)
  {
    hide LE;
  }

  lemma {:induction false} TruncatedInsBytes(s: seq<In>)
    ensures InsBytes(TruncatedIns(s)) == InsBytes(s)
  {
    hide U32, WithLength;
    if s != [] {
      TruncatedInsBytes(s[1..]);
      assert TruncatedIns(s)[1..] == TruncatedIns(s[1..]);
      U32Truncates(s[0].vout);
      U32Truncates(s[0].sequence);
    }
  }

  lemma TruncatedBytes(tx: Tx)
    ensures Serialized(Truncated(tx)) == Serialized(tx)
  {
    hide U32, VarInt, InsBytes, TruncatedIns, RefBytes, OutsBytes;
    TruncatedInsBytes(tx.inputs);
    U32Truncates(tx.version);
    U32Truncates(tx.locktime);
  }

  /** Two transactions are written alike exactly when they agree once their 32-bit fields are truncated. */
  lemma WrittenAlike(a: Utxo.Transaction, b: Utxo.Transaction)
    requires Fits(Wire(a)) && Fits(Wire(b))
    ensures Serialized(Wire(a)) == Serialized(Wire(b)) <==> Truncated(Wire(a)) == Truncated(Wire(b))
  {
    hide ReadTx, Serialized, Fits, Truncated;
    TransactionRoundTrip(Wire(a), []);
    TransactionRoundTrip(Wire(b), []);
    TruncatedBytes(Wire(a));
    TruncatedBytes(Wire(b));
  }

  lemma TruncatedAlike(a: Utxo.Transaction, b: Utxo.Transaction)
    requires Truncated(Wire(a)) == Truncated(Wire(b))
    ensures Utxo.Alike(a, b)
  {
    var x, y := Wire(a), Wire(b);
    assert TruncatedIns(x.inputs) == TruncatedIns(y.inputs) && x.outputs == y.outputs;
    forall i | 0 <= i < |a.inputs|
      ensures a.inputs[i].prevOut.txid == b.inputs[i].prevOut.txid
      ensures a.inputs[i].prevOut.vout % UINT32 == b.inputs[i].prevOut.vout % UINT32
    {
      assert TruncatedIns(x.inputs)[i] == TruncatedIns(y.inputs)[i];
    }
    forall i | 0 <= i < |a.outputs|
      ensures a.outputs[i] == b.outputs[i]
    {
      assert x.outputs[i] == y.outputs[i];
    }
  }

  /** What the ledger assumes of ids is what the hash gives: transactions with one id are alike, or their
      bytes are a collision of the hash. */
  lemma AlikeOrCollision(hash: Bytes -> Bytes, a: Utxo.Transaction, b: Utxo.Transaction)
    requires Fits(Wire(a)) && Fits(Wire(b))
    requires hash(Serialized(Wire(a)).value) == hash(Serialized(Wire(b)).value)
    ensures Utxo.Alike(a, b) || Serialized(Wire(a)).value != Serialized(Wire(b)).value
  {
    hide Truncated, VarInt, U32, InsBytes, OutsBytes, RefBytes;
    if Serialized(Wire(a)).value == Serialized(Wire(b)).value {
      TransactionRoundTrip(Wire(a), []);
      TransactionRoundTrip(Wire(b), []);
      WrittenAlike(a, b);
      TruncatedAlike(a, b);
    }
  }
}

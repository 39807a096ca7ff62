/** The binary wire format of transactions and block headers. */
module Codec {
  import opened Canonical
  import opened Collections
  import opened Difficulty

  const UINT32: nat := 0x1_0000_0000
  const UINT128: nat := 0x1_00000000_00000000_00000000_00000000
  const HEADER_SIZE: nat := 192

  datatype In = In(txid: Bytes, vout: nat, scriptSig: Bytes, sequence: nat)
  datatype Out = Out(value: int, scriptPubKey: Bytes)
  datatype Tx = Tx(version: nat, inputs: seq<In>, outputs: seq<Out>, locktime: nat, brokerTaskRef: Option<Bytes>)

  datatype Header = Header(
    version: int, prevHash: Bytes, merkleRoot: Bytes, computeRoot: Bytes, epochRoot: Bytes, auditRoot: Bytes,
    timestamp: int, difficultyBits: int, nonce: int, height: int)

  // ---------- Little-endian integers ----------

  function LE(n: nat, width: nat): (b: Bytes)
    ensures |b| == width
  {
    if width == 0 then [] else [(n % 256) as byte] + LE(n / 256, width - 1)
  }

  function FromLE(b: Bytes): nat {
    if b == [] then 0 else b[0] as nat + 256 * FromLE(b[1..])
  }

  lemma {:induction false} FromLEUndoesLE(n: nat, width: nat)
    requires n < Pow256(width)
    ensures FromLE(LE(n, width)) == n
  {
    if width > 0 {
      FromLEUndoesLE(n / 256, width - 1);
      assert LE(n, width)[1..] == LE(n / 256, width - 1);
    }
  }

  lemma {:induction false} LEUndoesFromLE(b: Bytes)
    ensures FromLE(b) < Pow256(|b|) && LE(FromLE(b), |b|) == b
  {
    if b != [] {
      LEUndoesFromLE(b[1..]);
      assert b == [b[0]] + b[1..];
      var rest := FromLE(b[1..]);
      assert (b[0] as nat + 256 * rest) % 256 == b[0] as nat && (b[0] as nat + 256 * rest) / 256 == rest;
    }
  }

  lemma Widths()
    ensures Pow256(1) == 256 && Pow256(2) == 0x1_0000 && Pow256(4) == UINT32
    ensures Pow256(8) == UINT32 * UINT32 && Pow256(16) == UINT128
  {
    assert Pow256(3) == 256 * Pow256(2) && Pow256(5) == 256 * Pow256(4) && Pow256(6) == 256 * Pow256(5);
    assert Pow256(7) == 256 * Pow256(6) && Pow256(9) == 256 * Pow256(8) && Pow256(10) == 256 * Pow256(9);
    assert Pow256(11) == 256 * Pow256(10) && Pow256(12) == 256 * Pow256(11) && Pow256(13) == 256 * Pow256(12);
    assert Pow256(14) == 256 * Pow256(13) && Pow256(15) == 256 * Pow256(14);
  }

  // ---------- Writing ----------

  /** An unsigned shift by zero keeps the low 32 bits. */
  function U32(n: nat): Bytes {
    LE(n % UINT32, 4)
  }

  function VarInt(n: nat): Bytes {
    if n < 0xfd then [n as byte]
    else if n <= 0xffff then [0xfd] + LE(n, 2)
    else if n <= 0xffff_ffff then [0xfe] + LE(n, 4)
    else [0xff] + LE(n, 8)
  }

  function WithLength(b: Bytes): Bytes {
    VarInt(|b|) + b
  }

  function InBytes(i: In): Bytes {
    i.txid + (U32(i.vout) + (WithLength(i.scriptSig) + U32(i.sequence)))
  }

  function OutBytes(o: Out): Bytes
    requires 0 <= o.value < UINT128
  {
    LE(o.value, 16) + WithLength(o.scriptPubKey)
  }

  function InsBytes(s: seq<In>): Bytes {
    if s == [] then [] else InBytes(s[0]) + InsBytes(s[1..])
  }

  predicate Payable(s: seq<Out>) {
    forall o | o in s :: 0 <= o.value < UINT128
  }

  function OutsBytes(s: seq<Out>): Bytes
    requires Payable(s)
  {
    if s == [] then [] else OutBytes(s[0]) + OutsBytes(s[1..])
  }

  function RefBytes(r: Option<Bytes>): Bytes {
    if r.None? then [0] else [1] + WithLength(r.value)
  }

  /** None stands for the RangeError of an amount outside u128. */
  function Serialized(tx: Tx): Option<Bytes> {
    if !Payable(tx.outputs) then None
    else Some(U32(tx.version) + (VarInt(|tx.inputs|) + (InsBytes(tx.inputs)
              + (VarInt(|tx.outputs|) + (OutsBytes(tx.outputs) + (U32(tx.locktime) + RefBytes(tx.brokerTaskRef)))))))
  }

  method SerializeTransaction(tx: Tx) returns (r: Option<Bytes>)
    ensures r == Serialized(tx)
  {
    var bytes := U32(tx.version) + VarInt(|tx.inputs|);
    ghost var prefix := bytes;
    var i := 0;
    while i < |tx.inputs|
      invariant i <= |tx.inputs| && bytes + InsBytes(tx.inputs[i..]) == prefix + InsBytes(tx.inputs)
    {
      assert tx.inputs[i..][1..] == tx.inputs[i + 1..];
      var p := tx.inputs[i];
      var part := p.txid + (U32(p.vout) + (WithLength(p.scriptSig) + U32(p.sequence)));
      Assoc(bytes, part, InsBytes(tx.inputs[i + 1..]));
      bytes := bytes + part;
      i := i + 1;
    }
    assert InsBytes(tx.inputs[i..]) == [] && bytes == prefix + InsBytes(tx.inputs);
    bytes := bytes + VarInt(|tx.outputs|);
    prefix := bytes;
    i := 0;
    while i < |tx.outputs|
      invariant i <= |tx.outputs| && Payable(tx.outputs[..i])
      invariant Payable(tx.outputs) ==> bytes + OutsBytes(tx.outputs[i..]) == prefix + OutsBytes(tx.outputs)
    {
      var o := tx.outputs[i];
      if o.value < 0 || o.value >= UINT128 {
        return None;
      }
      assert tx.outputs[..i + 1] == tx.outputs[..i] + [o];
      assert tx.outputs[i..][1..] == tx.outputs[i + 1..];
      var part := LE(o.value, 16) + WithLength(o.scriptPubKey);
      if Payable(tx.outputs) {
        Assoc(bytes, part, OutsBytes(tx.outputs[i + 1..]));
      }
      bytes := bytes + part;
      i := i + 1;
    }
    assert tx.outputs[..i] == tx.outputs;
    assert OutsBytes(tx.outputs[i..]) == [] && bytes == prefix + OutsBytes(tx.outputs);
    bytes := bytes + U32(tx.locktime);
    bytes := bytes + if tx.brokerTaskRef.Some? then [1] + WithLength(tx.brokerTaskRef.value) else [0];
    Flatten(U32(tx.version), VarInt(|tx.inputs|), InsBytes(tx.inputs), VarInt(|tx.outputs|), OutsBytes(tx.outputs),
            U32(tx.locktime), RefBytes(tx.brokerTaskRef));
    r := Some(bytes);
  }

  lemma Assoc(a: Bytes, b: Bytes, c: Bytes)
    ensures (a + b) + c == a + (b + c)
  {
  }

  lemma Flatten(a: Bytes, b: Bytes, c: Bytes, d: Bytes, e: Bytes, f: Bytes, g: Bytes)
    ensures (((((a + b) + c) + d) + e) + f) + g == a + (b + (c + (d + (e + (f + g)))))
  {
    Assoc(a, b, c);
    Assoc(a, b + c, d);
    Assoc(a, (b + c) + d, e);
    Assoc(a, ((b + c) + d) + e, f);
    Assoc(a, (((b + c) + d) + e) + f, g);
    Assoc(b, c, d);
    Assoc(b, c + d, e);
    Assoc(b, (c + d) + e, f);
    Assoc(b, ((c + d) + e) + f, g);
    Assoc(c, d, e);
    Assoc(c, d + e, f);
    Assoc(c, (d + e) + f, g);
    Assoc(d, e, f);
    Assoc(d, e + f, g);
    Assoc(e, f, g);
  }

  // ---------- Reading ----------

  /** What a reader found, what is left, and whether a writer would have written those bytes. */
  datatype Found<+T> = Found(value: T, rest: Bytes, canonical: bool)

  /** None stands for the RangeError of a truncated buffer. */
  function ReadBytes(b: Bytes, n: nat): Option<Found<Bytes>> {
    if n > |b| then None else Some(Found(b[..n], b[n..], true))
  }

  function ReadLE(b: Bytes, width: nat): Option<Found<nat>> {
    if width > |b| then None else Some(Found(FromLE(b[..width]), b[width..], true))
  }

  function ReadVarInt(b: Bytes): Option<Found<nat>> {
    if b == [] then None
    else if b[0] < 0xfd then Some(Found(b[0] as nat, b[1..], true))
    else
      var width, least := if b[0] == 0xfd then 2 else if b[0] == 0xfe then 4 else 8,
                          if b[0] == 0xfd then 0xfd else if b[0] == 0xfe then 0x1_0000 else UINT32;
      match ReadLE(b[1..], width)
      case None => None
      case Some(f) => Some(f.(canonical := f.value >= least))
  }

  function ReadWithLength(b: Bytes): Option<Found<Bytes>> {
    match ReadVarInt(b)
    case None => None
    case Some(n) =>
      match ReadBytes(n.rest, n.value)
      case None => None
      case Some(f) => Some(f.(canonical := n.canonical))
  }

  function ReadIn(b: Bytes): Option<Found<In>> {
    match ReadBytes(b, 32)
    case None => None
    case Some(txid) =>
      match ReadLE(txid.rest, 4)
      case None => None
      case Some(vout) =>
        match ReadWithLength(vout.rest)
        case None => None
        case Some(script) =>
          match ReadLE(script.rest, 4)
          case None => None
          case Some(sequence) =>
            Some(Found(In(txid.value, vout.value, script.value, sequence.value), sequence.rest, script.canonical))
  }

  function ReadOut(b: Bytes): Option<Found<Out>> {
    match ReadLE(b, 16)
    case None => None
    case Some(value) =>
      match ReadWithLength(value.rest)
      case None => None
      case Some(script) => Some(Found(Out(value.value, script.value), script.rest, script.canonical))
  }

  function ReadIns(b: Bytes, n: nat): Option<Found<seq<In>>> {
    if n == 0 then Some(Found([], b, true))
    else
      match ReadIn(b)
      case None => None
      case Some(head) =>
        match ReadIns(head.rest, n - 1)
        case None => None
        case Some(tail) => Some(Found([head.value] + tail.value, tail.rest, head.canonical && tail.canonical))
  }

  function ReadOuts(b: Bytes, n: nat): Option<Found<seq<Out>>> {
    if n == 0 then Some(Found([], b, true))
    else
      match ReadOut(b)
      case None => None
      case Some(head) =>
        match ReadOuts(head.rest, n - 1)
        case None => None
        case Some(tail) => Some(Found([head.value] + tail.value, tail.rest, head.canonical && tail.canonical))
  }

  /** Any flag but 1 means that no reference follows. */
  function ReadRef(b: Bytes): Option<Found<Option<Bytes>>> {
    if b == [] then None
    else if b[0] != 1 then Some(Found(None, b[1..], b[0] == 0))
    else
      match ReadWithLength(b[1..])
      case None => None
      case Some(f) => Some(Found(Some(f.value), f.rest, f.canonical))
  }

  function ReadTx(b: Bytes): Option<Found<Tx>> {
    match ReadLE(b, 4)
    case None => None
    case Some(version) =>
      match ReadVarInt(version.rest)
      case None => None
      case Some(m) =>
        match ReadIns(m.rest, m.value)
        case None => None
        case Some(ins) =>
          match ReadVarInt(ins.rest)
          case None => None
          case Some(n) =>
            match ReadOuts(n.rest, n.value)
            case None => None
            case Some(outs) =>
              match ReadLE(outs.rest, 4)
              case None => None
              case Some(locktime) =>
                match ReadRef(locktime.rest)
                case None => None
                case Some(broker) =>
                  Some(Found(Tx(version.value, ins.value, outs.value, locktime.value, broker.value), broker.rest,
                             m.canonical && ins.canonical && n.canonical && outs.canonical && broker.canonical))
  }

  // ---------- Reading undoes writing ----------

  lemma LERoundTrip(n: nat, width: nat, tail: Bytes)
    requires n < Pow256(width)
    ensures ReadLE(LE(n, width) + tail, width) == Some(Found(n, tail, true))
  {
    FromLEUndoesLE(n, width);
    assert (LE(n, width) + tail)[..width] == LE(n, width) && (LE(n, width) + tail)[width..] == tail;
  }

  lemma U32RoundTrip(n: nat, tail: Bytes)
    ensures ReadLE(U32(n) + tail, 4) == Some(Found(n % UINT32, tail, true))
  {
    Widths();
    LERoundTrip(n % UINT32, 4, tail);
  }

  lemma VarIntRoundTrip(n: nat, tail: Bytes)
    requires n < UINT32 * UINT32
    ensures ReadVarInt(VarInt(n) + tail) == Some(Found(n, tail, true))
  {
    Widths();
    hide LE, FromLE, Pow256;
    if n >= 0xfd {
      var width := if n <= 0xffff then 2 else if n <= 0xffff_ffff then 4 else 8;
      assert (VarInt(n) + tail)[1..] == LE(n, width) + tail;
      LERoundTrip(n, width, tail);
    } else {
      assert (VarInt(n) + tail)[1..] == tail;
    }
  }

  lemma WithLengthRoundTrip(b: Bytes, tail: Bytes)
    requires |b| < UINT32 * UINT32
    ensures ReadWithLength(WithLength(b) + tail) == Some(Found(b, tail, true))
  {
    hide ReadVarInt, VarInt;
    Assoc(VarInt(|b|), b, tail);
    VarIntRoundTrip(|b|, b + tail);
    assert (b + tail)[..|b|] == b && (b + tail)[|b|..] == tail;
  }

  /** The field widths of the format; integers outside 32 bits are truncated, not refused. */
  predicate InFits(i: In) {
    |i.txid| == 32 && |i.scriptSig| < UINT32 * UINT32
  }

  predicate Fits(tx: Tx) {
    && (forall i | i in tx.inputs :: InFits(i)) && |tx.inputs| < UINT32 * UINT32
    && (forall o | o in tx.outputs :: 0 <= o.value < UINT128 && |o.scriptPubKey| < UINT32 * UINT32)
    && |tx.outputs| < UINT32 * UINT32
    && (tx.brokerTaskRef.Some? ==> |tx.brokerTaskRef.value| < UINT32 * UINT32)
  }

  function TruncatedIn(i: In): In {
    i.(vout := i.vout % UINT32, sequence := i.sequence % UINT32)
  }

  function Truncated(tx: Tx): Tx {
    tx.(version := tx.version % UINT32, locktime := tx.locktime % UINT32,
        inputs := TruncatedIns(tx.inputs))
  }

  function TruncatedIns(s: seq<In>): (r: seq<In>)
    ensures |r| == |s|
  {
    seq(|s|, i requires 0 <= i < |s| => TruncatedIn(s[i]))
  }

  lemma InRoundTrip(i: In, tail: Bytes)
    requires InFits(i)
    ensures ReadIn(InBytes(i) + tail) == Some(Found(TruncatedIn(i), tail, true))
  {
    hide ReadLE, U32, WithLength, ReadWithLength;
    var c := U32(i.sequence) + tail;
    var b := WithLength(i.scriptSig) + c;
    var a := U32(i.vout) + b;
    Assoc(i.txid, U32(i.vout) + (WithLength(i.scriptSig) + U32(i.sequence)), tail);
    Assoc(U32(i.vout), WithLength(i.scriptSig) + U32(i.sequence), tail);
    Assoc(WithLength(i.scriptSig), U32(i.sequence), tail);
    assert InBytes(i) + tail == i.txid + a;
    assert (i.txid + a)[..32] == i.txid && (i.txid + a)[32..] == a;
    U32RoundTrip(i.vout, b);
    WithLengthRoundTrip(i.scriptSig, c);
    U32RoundTrip(i.sequence, tail);
  }

  lemma OutRoundTrip(o: Out, tail: Bytes)
    requires 0 <= o.value < UINT128 && |o.scriptPubKey| < UINT32 * UINT32
    ensures ReadOut(OutBytes(o) + tail) == Some(Found(o, tail, true))
  {
    Widths();
    hide ReadLE, LE, WithLength, ReadWithLength, Pow256;
    Assoc(LE(o.value, 16), WithLength(o.scriptPubKey), tail);
    LERoundTrip(o.value, 16, WithLength(o.scriptPubKey) + tail);
    WithLengthRoundTrip(o.scriptPubKey, tail);
  }

  lemma {:induction false} InsRoundTrip(s: seq<In>, tail: Bytes)
    requires forall i | i in s :: InFits(i)
    ensures ReadIns(InsBytes(s) + tail, |s|)
            == Some(Found(TruncatedIns(s), tail, true))
  {
    hide ReadIn, InBytes, InFits;
    if s == [] {
      assert InsBytes(s) + tail == tail;
    } else {
      Assoc(InBytes(s[0]), InsBytes(s[1..]), tail);
      InRoundTrip(s[0], InsBytes(s[1..]) + tail);
      InsRoundTrip(s[1..], tail);
      assert [TruncatedIn(s[0])] + TruncatedIns(s[1..]) == TruncatedIns(s);
    }
  }

  lemma {:induction false} OutsRoundTrip(s: seq<Out>, tail: Bytes)
    requires forall o | o in s :: 0 <= o.value < UINT128 && |o.scriptPubKey| < UINT32 * UINT32
    ensures ReadOuts(OutsBytes(s) + tail, |s|) == Some(Found(s, tail, true))
  {
    hide ReadOut, OutBytes;
    if s == [] {
      assert OutsBytes(s) + tail == tail;
    } else {
      Assoc(OutBytes(s[0]), OutsBytes(s[1..]), tail);
      OutRoundTrip(s[0], OutsBytes(s[1..]) + tail);
      OutsRoundTrip(s[1..], tail);
      assert [s[0]] + s[1..] == s;
    }
  }

  lemma RefRoundTrip(r: Option<Bytes>, tail: Bytes)
    requires r.Some? ==> |r.value| < UINT32 * UINT32
    ensures ReadRef(RefBytes(r) + tail) == Some(Found(r, tail, true))
  {
    hide WithLength, ReadWithLength;
    if r.Some? {
      assert (RefBytes(r) + tail)[1..] == WithLength(r.value) + tail;
      WithLengthRoundTrip(r.value, tail);
    } else {
      assert (RefBytes(r) + tail)[1..] == tail;
    }
  }

  /** Reading a written transaction, whatever follows it, gives the transaction with its 32-bit
      fields truncated, and leaves exactly what followed. */
  lemma TransactionRoundTrip(tx: Tx, tail: Bytes)
    requires Fits(tx)
    ensures Serialized(tx).Some?
    ensures ReadTx(Serialized(tx).value + tail) == Some(Found(Truncated(tx), tail, true))
  {
    hide ReadLE, U32, VarInt, ReadVarInt, ReadIns, ReadOuts, InsBytes, OutsBytes, ReadRef, RefBytes, TruncatedIns;
    var a, b, c := U32(tx.version), VarInt(|tx.inputs|), InsBytes(tx.inputs);
    var d, e, f, g := VarInt(|tx.outputs|), OutsBytes(tx.outputs), U32(tx.locktime), RefBytes(tx.brokerTaskRef);
    Nest(a, b, c, d, e, f, g, tail);
    U32RoundTrip(tx.version, b + (c + (d + (e + (f + (g + tail))))));
    VarIntRoundTrip(|tx.inputs|, c + (d + (e + (f + (g + tail)))));
    InsRoundTrip(tx.inputs, d + (e + (f + (g + tail))));
    VarIntRoundTrip(|tx.outputs|, e + (f + (g + tail)));
    OutsRoundTrip(tx.outputs, f + (g + tail));
    U32RoundTrip(tx.locktime, g + tail);
    RefRoundTrip(tx.brokerTaskRef, tail);
  }

  lemma Nest(a: Bytes, b: Bytes, c: Bytes, d: Bytes, e: Bytes, f: Bytes, g: Bytes, t: Bytes)
    ensures (a + (b + (c + (d + (e + (f + g)))))) + t == a + (b + (c + (d + (e + (f + (g + t))))))
  {
    Assoc(a, b + (c + (d + (e + (f + g)))), t);
    Assoc(b, c + (d + (e + (f + g))), t);
    Assoc(c, d + (e + (f + g)), t);
    Assoc(d, e + (f + g), t);
    Assoc(e, f + g, t);
    Assoc(f, g, t);
  }

  /** In range: nothing is truncated. */
  predicate InRange(tx: Tx) {
    Fits(tx) && Truncated(tx) == tx
  }

  /** The encoding is prefix-free, hence injective: a transaction's bytes determine it even inside a
      longer stream. */
  lemma PrefixFree(x: Tx, y: Tx, s: Bytes, t: Bytes)
    requires InRange(x) && InRange(y) && Serialized(x).value + s == Serialized(y).value + t
    ensures x == y && s == t
  {
    hide ReadTx, Serialized, Fits;
    TransactionRoundTrip(x, s);
    TransactionRoundTrip(y, t);
  }

  // ---------- Writing undoes reading ----------

  lemma LERewrites(b: Bytes, width: nat)
    requires ReadLE(b, width).Some?
    ensures var f := ReadLE(b, width).value;
            f.value < Pow256(width) && b == LE(f.value, width) + f.rest
  {
    LEUndoesFromLE(b[..width]);
    assert b == b[..width] + b[width..];
  }

  lemma U32Rewrites(b: Bytes)
    requires ReadLE(b, 4).Some?
    ensures var f := ReadLE(b, 4).value;
            f.value < UINT32 && b == U32(f.value) + f.rest
  {
    Widths();
    LERewrites(b, 4);
  }

  lemma VarIntRewrites(b: Bytes)
    requires ReadVarInt(b).Some?
    ensures var f := ReadVarInt(b).value;
            f.value < UINT32 * UINT32 && (f.canonical ==> b == VarInt(f.value) + f.rest)
  {
    Widths();
    assert b == [b[0]] + b[1..];
    if b[0] >= 0xfd {
      var width := if b[0] == 0xfd then 2 else if b[0] == 0xfe then 4 else 8;
      LERewrites(b[1..], width);
      hide LE, FromLE, Pow256;
      var f := ReadLE(b[1..], width).value;
      Assoc([b[0]], LE(f.value, width), f.rest);
    }
  }

  lemma WithLengthRewrites(b: Bytes)
    requires ReadWithLength(b).Some?
    ensures var f := ReadWithLength(b).value;
            |f.value| < UINT32 * UINT32 && (f.canonical ==> b == WithLength(f.value) + f.rest)
  {
    VarIntRewrites(b);
    hide ReadVarInt, VarInt;
    var n := ReadVarInt(b).value;
    assert n.rest == n.rest[..n.value] + n.rest[n.value..];
    Assoc(VarInt(n.value), n.rest[..n.value], n.rest[n.value..]);
  }

  lemma InRewrites(b: Bytes)
    requires ReadIn(b).Some?
    ensures var f := ReadIn(b).value;
            InFits(f.value) && TruncatedIn(f.value) == f.value && (f.canonical ==> b == InBytes(f.value) + f.rest)
  {
    hide ReadLE, U32, WithLength, ReadWithLength;
    var txid := ReadBytes(b, 32).value;
    var vout := ReadLE(txid.rest, 4).value;
    var script := ReadWithLength(vout.rest).value;
    var sequence := ReadLE(script.rest, 4).value;
    assert b == b[..32] + b[32..];
    U32Rewrites(txid.rest);
    WithLengthRewrites(vout.rest);
    U32Rewrites(script.rest);
    var x, y, z, t := U32(vout.value), WithLength(script.value), U32(sequence.value), sequence.rest;
    Assoc(y, z, t);
    Assoc(x, y + z, t);
    Assoc(txid.value, x + (y + z), t);
  }

  lemma OutRewrites(b: Bytes)
    requires ReadOut(b).Some?
    ensures var f := ReadOut(b).value;
            && 0 <= f.value.value < UINT128 && |f.value.scriptPubKey| < UINT32 * UINT32
            && (f.canonical ==> b == OutBytes(f.value) + f.rest)
  {
    Widths();
    LERewrites(b, 16);
    hide ReadLE, LE, WithLength, ReadWithLength, Pow256;
    var value := ReadLE(b, 16).value;
    WithLengthRewrites(value.rest);
    var script := ReadWithLength(value.rest).value;
    Assoc(LE(value.value, 16), WithLength(script.value), script.rest);
  }

  lemma {:induction false} InsRewrite(b: Bytes, n: nat)
    requires ReadIns(b, n).Some?
    ensures var f := ReadIns(b, n).value;
            && |f.value| == n && (forall i | 0 <= i < n :: InFits(f.value[i]) && TruncatedIn(f.value[i]) == f.value[i])
            && (f.canonical ==> b == InsBytes(f.value) + f.rest)
    decreases n
  {
    hide ReadIn, InBytes, InFits, TruncatedIn;
    if n == 0 {
      assert b == [] + b;
    } else {
      var head := ReadIn(b).value;
      var tail := ReadIns(head.rest, n - 1).value;
      InRewrites(b);
      InsRewrite(head.rest, n - 1);
      assert ([head.value] + tail.value)[1..] == tail.value;
      Assoc(InBytes(head.value), InsBytes(tail.value), tail.rest);
    }
  }

  lemma {:induction false} OutsRewrite(b: Bytes, n: nat)
    requires ReadOuts(b, n).Some?
    ensures var f := ReadOuts(b, n).value;
            && |f.value| == n
            && (forall i | 0 <= i < n :: 0 <= f.value[i].value < UINT128 && |f.value[i].scriptPubKey| < UINT32 * UINT32)
            && Payable(f.value)
            && (f.canonical ==> b == OutsBytes(f.value) + f.rest)
    decreases n
  {
    hide ReadOut, OutBytes;
    if n == 0 {
      assert b == [] + b;
    } else {
      var head := ReadOut(b).value;
      var tail := ReadOuts(head.rest, n - 1).value;
      OutRewrites(b);
      OutsRewrite(head.rest, n - 1);
      assert ([head.value] + tail.value)[1..] == tail.value;
      Assoc(OutBytes(head.value), OutsBytes(tail.value), tail.rest);
    }
  }

  lemma RefRewrites(b: Bytes)
    requires ReadRef(b).Some?
    ensures var f := ReadRef(b).value;
            && (f.value.Some? ==> |f.value.value| < UINT32 * UINT32)
            && (f.canonical ==> b == RefBytes(f.value) + f.rest)
  {
    hide WithLength, ReadWithLength;
    assert b == [b[0]] + b[1..];
    if b[0] == 1 {
      WithLengthRewrites(b[1..]);
      var f := ReadWithLength(b[1..]).value;
      Assoc([1], WithLength(f.value), f.rest);
    }
  }

  /** Whatever parses is in range; and writing it gives back the bytes that were read exactly when the
      reader met only shortest varints and a broker flag of 0 or 1. */
  lemma TransactionRewrites(b: Bytes)
    requires ReadTx(b).Some?
    ensures var f := ReadTx(b).value;
            InRange(f.value) && (f.canonical <==> b == Serialized(f.value).value + f.rest)
  {
    var f := ReadTx(b).value;
    ReadIsInRange(b);
    if f.canonical {
      CanonicalRewrites(b);
    }
    if b == Serialized(f.value).value + f.rest {
      TransactionRoundTrip(f.value, f.rest);
    }
    hide ReadTx, Serialized, Fits;
  }

  lemma ReadIsInRange(b: Bytes)
    requires ReadTx(b).Some?
    ensures InRange(ReadTx(b).value.value)
  {
    hide ReadLE, U32, VarInt, ReadVarInt, ReadIns, ReadOuts, InsBytes, OutsBytes, ReadRef, RefBytes, TruncatedIn, InFits;
    var version := ReadLE(b, 4).value;
    var m := ReadVarInt(version.rest).value;
    var ins := ReadIns(m.rest, m.value).value;
    var n := ReadVarInt(ins.rest).value;
    var outs := ReadOuts(n.rest, n.value).value;
    var locktime := ReadLE(outs.rest, 4).value;
    U32Rewrites(b);
    VarIntRewrites(version.rest);
    InsRewrite(m.rest, m.value);
    VarIntRewrites(ins.rest);
    OutsRewrite(n.rest, n.value);
    U32Rewrites(outs.rest);
    RefRewrites(locktime.rest);
    assert Truncated(ReadTx(b).value.value).inputs == ins.value;
  }

  lemma CanonicalRewrites(b: Bytes)
    requires ReadTx(b).Some? && ReadTx(b).value.canonical
    ensures var f := ReadTx(b).value;
            Serialized(f.value).Some? && b == Serialized(f.value).value + f.rest
  {
    hide ReadLE, U32, VarInt, ReadVarInt, ReadIns, ReadOuts, InsBytes, OutsBytes, ReadRef, RefBytes, Truncated;
    var version := ReadLE(b, 4).value;
    var m := ReadVarInt(version.rest).value;
    var ins := ReadIns(m.rest, m.value).value;
    var n := ReadVarInt(ins.rest).value;
    var outs := ReadOuts(n.rest, n.value).value;
    var locktime := ReadLE(outs.rest, 4).value;
    var broker := ReadRef(locktime.rest).value;
    U32Rewrites(b);
    VarIntRewrites(version.rest);
    InsRewrite(m.rest, m.value);
    VarIntRewrites(ins.rest);
    OutsRewrite(n.rest, n.value);
    U32Rewrites(outs.rest);
    RefRewrites(locktime.rest);
    Nest(U32(version.value), VarInt(m.value), InsBytes(ins.value), VarInt(n.value), OutsBytes(outs.value),
         U32(locktime.value), RefBytes(broker.value), broker.rest);
  }

  // ---------- The parser ----------

  /** A buffer and an offset that every read advances; a failed read leaves the parse to be abandoned. */
  class Reader {
    const buf: Bytes
    var off: nat

    predicate Valid()
      reads this
    {
      off <= |buf|
    }

    function Rest(): Bytes
      reads this
      requires Valid()
    {
      buf[off..]
    }

    constructor (buf: Bytes)
      ensures Valid() && Rest() == buf
    {
      this.buf, off := buf, 0;
    }

    method Take(n: nat) returns (r: Option<Bytes>)
      requires Valid()
      modifies this
      ensures Valid() && Advances(r, ReadBytes(old(Rest()), n), Rest())
    {
      if off + n > |buf| {
        return None;
      }
      r := Some(buf[off..off + n]);
      off := off + n;
      assert old(Rest())[..n] == r.value && old(Rest())[n..] == Rest();
    }

    method UInt(width: nat) returns (r: Option<nat>)
      requires Valid()
      modifies this
      ensures Valid() && Advances(r, ReadLE(old(Rest()), width), Rest())
    {
      if off + width > |buf| {
        return None;
      }
      r := Some(FromLE(buf[off..off + width]));
      assert old(Rest())[..width] == buf[off..off + width];
      off := off + width;
    }

    method VInt() returns (r: Option<nat>)
      requires Valid()
      modifies this
      ensures Valid() && Advances(r, ReadVarInt(old(Rest())), Rest())
    {
      if off + 1 > |buf| {
        return None;
      }
      var first := buf[off];
      off := off + 1;
      assert old(Rest())[1..] == Rest();
      if first < 0xfd {
        return Some(first as nat);
      }
      var width := if first == 0xfd then 2 else if first == 0xfe then 4 else 8;
      VarIntTail(old(Rest()), width);
      r := UInt(width);
    }

    method TakeWithLength() returns (r: Option<Bytes>)
      requires Valid()
      modifies this
      ensures Valid() && Advances(r, ReadWithLength(old(Rest())), Rest())
    {
      hide ReadVarInt;
      var n := VInt();
      if n.None? {
        return None;
      }
      r := Take(n.value);
    }

    method Input() returns (r: Option<In>)
      requires Valid()
      modifies this
      ensures Valid() && Advances(r, ReadIn(old(Rest())), Rest())
    {
      hide ReadLE, ReadBytes, ReadWithLength;
      var txid := Take(32);
      if txid.None? {
        return None;
      }
      var vout := UInt(4);
      if vout.None? {
        return None;
      }
      var script := TakeWithLength();
      if script.None? {
        return None;
      }
      var sequence := UInt(4);
      if sequence.None? {
        return None;
      }
      r := Some(In(txid.value, vout.value, script.value, sequence.value));
    }

    method Output() returns (r: Option<Out>)
      requires Valid()
      modifies this
      ensures Valid() && Advances(r, ReadOut(old(Rest())), Rest())
    {
      hide ReadLE, ReadWithLength;
      var value := UInt(16);
      if value.None? {
        return None;
      }
      var script := TakeWithLength();
      if script.None? {
        return None;
      }
      r := Some(Out(value.value, script.value));
    }

    method Inputs(count: nat) returns (r: Option<seq<In>>)
      requires Valid()
      modifies this
      ensures Valid() && Advances(r, ReadIns(old(Rest()), count), Rest())
    {
      hide ReadIn;
      var found: seq<In> := [];
      var i := 0;
      while i < count
        invariant Valid() && i <= count
        invariant Prepends(found, ReadIns(Rest(), count - i), ReadIns(old(Rest()), count))
      {
        var input := Input();
        if input.None? {
          return None;
        }
        found := found + [input.value];
        i := i + 1;
      }
      assert found + [] == found;
      r := Some(found);
    }

    method Outputs(count: nat) returns (r: Option<seq<Out>>)
      requires Valid()
      modifies this
      ensures Valid() && Advances(r, ReadOuts(old(Rest()), count), Rest())
    {
      hide ReadOut;
      var found: seq<Out> := [];
      var i := 0;
      while i < count
        invariant Valid() && i <= count
        invariant Prepends(found, ReadOuts(Rest(), count - i), ReadOuts(old(Rest()), count))
      {
        var output := Output();
        if output.None? {
          return None;
        }
        found := found + [output.value];
        i := i + 1;
      }
      assert found + [] == found;
      r := Some(found);
    }

    method BrokerRef() returns (r: Option<Option<Bytes>>)
      requires Valid()
      modifies this
      ensures Valid() && Advances(r, ReadRef(old(Rest())), Rest())
    {
      hide ReadWithLength;
      if off + 1 > |buf| {
        return None;
      }
      var flag := buf[off];
      off := off + 1;
      if flag == 1 {
        var ref := TakeWithLength();
        if ref.None? {
          return None;
        }
        return Some(Some(ref.value));
      }
      r := Some(None);
    }
  }

  lemma VarIntTail(b: Bytes, width: nat)
    requires b != [] && b[0] >= 0xfd && width == if b[0] == 0xfd then 2 else if b[0] == 0xfe then 4 else 8
    ensures match ReadLE(b[1..], width)
            case None => ReadVarInt(b).None?
            case Some(f) => ReadVarInt(b).Some? && ReadVarInt(b).value.value == f.value && ReadVarInt(b).value.rest == f.rest
  {
  }

  /** The value found and the bytes left are those of the specification, or both failed. */
  predicate Advances<T(==)>(r: Option<T>, f: Option<Found<T>>, rest: Bytes) {
    match f
    case None => r.None?
    case Some(found) => r == Some(found.value) && rest == found.rest
  }

  /** Reading the remaining items after those found amounts to reading them all. */
  predicate Prepends<T(==)>(found: seq<T>, rest: Option<Found<seq<T>>>, all: Option<Found<seq<T>>>) {
    match rest
    case None => all.None?
    case Some(f) => all.Some? && all.value.value == found + f.value && all.value.rest == f.rest
  }

  /** None stands for the RangeError of a truncated buffer; trailing bytes are ignored. */
  method DeserializeTransaction(buf: Bytes) returns (r: Option<Tx>)
    ensures r == match ReadTx(buf) case None => None case Some(f) => Some(f.value)
  {
    hide ReadLE, ReadVarInt, ReadIns, ReadOuts, ReadRef;
    var reader := new Reader(buf);
    var version := reader.UInt(4);
    if version.None? {
      return None;
    }
    var m := reader.VInt();
    if m.None? {
      return None;
    }
    var inputs := reader.Inputs(m.value);
    if inputs.None? {
      return None;
    }
    var n := reader.VInt();
    if n.None? {
      return None;
    }
    var outputs := reader.Outputs(n.value);
    if outputs.None? {
      return None;
    }
    var locktime := reader.UInt(4);
    if locktime.None? {
      return None;
    }
    var broker := reader.BrokerRef();
    if broker.None? {
      return None;
    }
    r := Some(Tx(version.value, inputs.value, outputs.value, locktime.value, broker.value));
  }

  // ---------- Headers ----------

  predicate IsUInt32(n: int) {
    0 <= n < UINT32
  }

  predicate IsSafeUInt(n: int) {
    0 <= n <= MAX_SAFE_INTEGER
  }

  predicate HeaderOk(h: Header) {
    && IsUInt32(h.version) && IsUInt32(h.difficultyBits) && IsUInt32(h.nonce)
    && IsSafeUInt(h.timestamp) && IsSafeUInt(h.height)
    && |h.prevHash| == |h.merkleRoot| == |h.computeRoot| == |h.epochRoot| == |h.auditRoot| == 32
  }

  /** None stands for the RangeError of a field out of range. */
  function SerializeBlockHeader(h: Header): (r: Option<Bytes>)
    ensures r.Some? ==> |r.value| == HEADER_SIZE
  {
    if !HeaderOk(h) then None
    else Some(LE(h.version, 4) + (h.prevHash + (h.merkleRoot + (h.computeRoot + (h.epochRoot + (h.auditRoot
              + (LE(h.timestamp, 8) + (LE(h.difficultyBits, 4) + (LE(h.nonce, 4) + (LE(h.height, 8) + LE(0, 4)))))))))))
  }

  function DeserializeBlockHeader(b: Bytes): Option<Header> {
    if |b| != HEADER_SIZE then None
    else
      var timestamp, height := FromLE(b[164..172]), FromLE(b[180..188]);
      if FromLE(b[188..192]) != 0 || !IsSafeUInt(timestamp) || !IsSafeUInt(height) then None
      else Some(Header(FromLE(b[0..4]), b[4..36], b[36..68], b[68..100], b[100..132], b[132..164],
                       timestamp, FromLE(b[172..176]), FromLE(b[176..180]), height))
  }

  lemma HeaderFields(h: Header)
    requires HeaderOk(h)
    ensures var b := SerializeBlockHeader(h).value;
            && b[0..4] == LE(h.version, 4) && b[4..36] == h.prevHash && b[36..68] == h.merkleRoot
            && b[68..100] == h.computeRoot && b[100..132] == h.epochRoot && b[132..164] == h.auditRoot
            && b[164..172] == LE(h.timestamp, 8) && b[172..176] == LE(h.difficultyBits, 4)
            && b[176..180] == LE(h.nonce, 4) && b[180..188] == LE(h.height, 8) && b[188..192] == LE(0, 4)
  {
    var k := LE(h.height, 8) + LE(0, 4);
    var j := LE(h.nonce, 4) + k;
    var i := LE(h.difficultyBits, 4) + j;
    var g := LE(h.timestamp, 8) + i;
    var f := h.auditRoot + g;
    var e := h.epochRoot + f;
    var d := h.computeRoot + e;
    var c := h.merkleRoot + d;
    var b := LE(h.version, 4) + (h.prevHash + c);
    assert SerializeBlockHeader(h).value == b && b[0..] == b;
    hide LE, SerializeBlockHeader;
    NextField(b, 0, LE(h.version, 4), h.prevHash + c);
    NextField(b, 4, h.prevHash, c);
    NextField(b, 36, h.merkleRoot, d);
    NextField(b, 68, h.computeRoot, e);
    NextField(b, 100, h.epochRoot, f);
    NextField(b, 132, h.auditRoot, g);
    NextField(b, 164, LE(h.timestamp, 8), i);
    NextField(b, 172, LE(h.difficultyBits, 4), j);
    NextField(b, 176, LE(h.nonce, 4), k);
    NextField(b, 180, LE(h.height, 8), LE(0, 4));
    assert b[188..192] == b[188..];
  }

  lemma NextField(b: Bytes, at: nat, field: Bytes, rest: Bytes)
    requires at <= |b| && b[at..] == field + rest
    ensures at + |field| <= |b| && b[at..at + |field|] == field && b[at + |field|..] == rest
  {
    assert |b[at..]| == |field| + |rest|;
    assert b[at..at + |field|] == b[at..][..|field|] && b[at + |field|..] == b[at..][|field|..];
  }

  /** A valid header reads back from its 192 bytes. */
  lemma HeaderRoundTrip(h: Header)
    requires HeaderOk(h)
    ensures DeserializeBlockHeader(SerializeBlockHeader(h).value) == Some(h)
  {
    Widths();
    HeaderFields(h);
    hide LE, FromLE, Pow256, SerializeBlockHeader;
    FromLEUndoesLE(h.version, 4);
    FromLEUndoesLE(h.timestamp, 8);
    FromLEUndoesLE(h.difficultyBits, 4);
    FromLEUndoesLE(h.nonce, 4);
    FromLEUndoesLE(h.height, 8);
    FromLEUndoesLE(0, 4);
  }

  /** Every accepted buffer is the one serialization of the header it gives. */
  lemma HeaderRewrites(b: Bytes)
    requires DeserializeBlockHeader(b).Some?
    ensures SerializeBlockHeader(DeserializeBlockHeader(b).value) == Some(b)
  {
    Widths();
    hide LE, FromLE, Pow256;
    LEUndoesFromLE(b[0..4]);
    LEUndoesFromLE(b[164..172]);
    LEUndoesFromLE(b[172..176]);
    LEUndoesFromLE(b[176..180]);
    LEUndoesFromLE(b[180..188]);
    LEUndoesFromLE(b[188..192]);
    Cut(b, 180, 188);
    Cut(b, 176, 180);
    Cut(b, 172, 176);
    Cut(b, 164, 172);
    Cut(b, 132, 164);
    Cut(b, 100, 132);
    Cut(b, 68, 100);
    Cut(b, 36, 68);
    Cut(b, 4, 36);
    Cut(b, 0, 4);
    assert b[188..192] == b[188..] && b[0..] == b;
  }

  lemma Cut(b: Bytes, i: nat, j: nat)
    requires i <= j <= |b|
    ensures b[i..] == b[i..j] + b[j..]
  {
  }
}

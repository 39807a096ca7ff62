/** Where every byte of the wire formats lies, digit by digit. */
module WireLayout {
  import opened Canonical
  import opened Collections
  import opened Difficulty
  import Codec
  import Emission
  import EpochRoot
  import ValidatorBonds
  import opened Epoch

  // ---------- Integers ----------

  lemma {:induction false} LaterDigit(n: nat, k: nat)
    ensures n / 256 / Pow256(k) == n / Pow256(k + 1)
  {
    var p := Pow256(k);
    assert Pow256(k + 1) == 256 * p;
    hide Pow256;
    DivideTwice(n, p);
  }

  lemma DivideTwice(n: nat, p: nat)
    requires p > 0
    ensures n / 256 / p == n / (256 * p)
  {
    var q, r := n / 256 / p, n / 256 % p;
    assert n == 256 * (p * q + r) + n % 256;
    assert 256 * (p * q + r) == (256 * p) * q + 256 * r;
    Emission.QuotientIs(n, 256 * p, q);
  }

  /** Little-endian: digit k of a number to base 256 is at position k. */
  lemma {:induction false} LittleEndian(n: nat, width: nat, k: nat)
    requires k < width
    ensures Codec.LE(n, width)[k] as nat == n / Pow256(k) % 256
  {
    if k > 0 {
      LittleEndian(n / 256, width - 1, k - 1);
      LaterDigit(n, k - 1);
    }
  }

  /** Big-endian: digit k of a number to base 256 is k positions before the last. */
  lemma {:induction false} BigEndian(n: nat, width: nat, k: nat)
    requires k < width
    ensures EpochRoot.BE(n, width)[width - 1 - k] as nat == n / Pow256(k) % 256
  {
    if k > 0 {
      BigEndian(n / 256, width - 1, k - 1);
      LaterDigit(n, k - 1);
    }
  }

  /** A count below 253 is one byte; a larger one a marker and as few of 2, 4 or 8 bytes as hold it. */
  lemma VarIntLayout(n: nat)
    ensures n <= 252 ==> Codec.VarInt(n) == [n as byte]
    ensures 253 <= n <= 65_535 ==> Codec.VarInt(n) == [253] + Codec.LE(n, 2)
    ensures 65_536 <= n <= 4_294_967_295 ==> Codec.VarInt(n) == [254] + Codec.LE(n, 4)
    ensures 4_294_967_296 <= n ==> Codec.VarInt(n) == [255] + Codec.LE(n, 8)
  {
    hide Codec.LE;
  }

  // ---------- Transactions ----------

  /** What follows the locktime. */
  function Reference(r: Option<Bytes>): Bytes
    requires r.Some? ==> |r.value| <= 252
  {
    match r
    case None => [0]
    case Some(name) => [1, |name| as byte] + name
  }

  /** A transaction of one input and one output with scripts below 253 bytes, part after part. */
  lemma OneSpendLayout(tx: Codec.Tx, input: Codec.In, output: Codec.Out)
    requires tx.inputs == [input] && tx.outputs == [output]
    requires |input.scriptSig| <= 252 && |output.scriptPubKey| <= 252
    requires 0 <= output.value < 0x1_00000000_00000000_00000000_00000000
    requires tx.brokerTaskRef.Some? ==> |tx.brokerTaskRef.value| <= 252
    ensures Codec.Serialized(tx)
            == Some(Codec.LE(tx.version % 4_294_967_296, 4)
                    + ([1] + (input.txid + (Codec.LE(input.vout % 4_294_967_296, 4)
                    + ([|input.scriptSig| as byte] + (input.scriptSig + (Codec.LE(input.sequence % 4_294_967_296, 4)
                    + ([1] + (Codec.LE(output.value, 16)
                    + ([|output.scriptPubKey| as byte] + (output.scriptPubKey
                    + (Codec.LE(tx.locktime % 4_294_967_296, 4) + Reference(tx.brokerTaskRef)))))))))))))
  {
    var i, o := [|input.scriptSig| as byte], [|output.scriptPubKey| as byte];
    var vout, sequence := Codec.U32(input.vout), Codec.U32(input.sequence);
    var end := Codec.U32(tx.locktime) + Reference(tx.brokerTaskRef);
    var paid := Codec.LE(output.value, 16);
    var rest := [1] + (paid + (o + (output.scriptPubKey + end)));
    OneEach(input, output);
    assert Codec.RefBytes(tx.brokerTaskRef) == Reference(tx.brokerTaskRef);
    hide Codec.LE, Codec.U32, Reference, Codec.InsBytes, Codec.OutsBytes, Codec.RefBytes;
    Codec.Assoc(input.txid, vout + ((i + input.scriptSig) + sequence), rest);
    Codec.Assoc(vout, (i + input.scriptSig) + sequence, rest);
    Codec.Assoc(i + input.scriptSig, sequence, rest);
    Codec.Assoc(i, input.scriptSig, sequence + rest);
    Codec.Assoc(paid, o + output.scriptPubKey, end);
    Codec.Assoc(o, output.scriptPubKey, end);
    assert Codec.VarInt(1) == [1];
    hide Codec.VarInt;
  }

  lemma OneEach(input: Codec.In, output: Codec.Out)
    requires |input.scriptSig| <= 252 && |output.scriptPubKey| <= 252 && 0 <= output.value < Codec.UINT128
    ensures Codec.InsBytes([input])
            == input.txid + (Codec.U32(input.vout)
               + (([|input.scriptSig| as byte] + input.scriptSig) + Codec.U32(input.sequence)))
    ensures Codec.Payable([output])
    ensures Codec.OutsBytes([output])
            == Codec.LE(output.value, 16) + ([|output.scriptPubKey| as byte] + output.scriptPubKey)
  {
    hide Codec.LE;
    assert Codec.InsBytes([]) == [] && Codec.InsBytes([input]) == Codec.InBytes(input) + [];
    assert Codec.OutsBytes([]) == [] && Codec.OutsBytes([output]) == Codec.OutBytes(output) + [];
  }

  /** Inputs and outputs are written in order, one after the other. */
  lemma {:induction false} InOrder(a: seq<Codec.In>, b: seq<Codec.In>)
    ensures Codec.InsBytes(a + b) == Codec.InsBytes(a) + Codec.InsBytes(b)
  {
    hide Codec.InBytes;
    if a == [] {
      assert a + b == b;
    } else {
      assert (a + b)[1..] == a[1..] + b;
      InOrder(a[1..], b);
    }
  }

  lemma {:induction false} OutInOrder(a: seq<Codec.Out>, b: seq<Codec.Out>)
    requires Codec.Payable(a + b)
    ensures Codec.Payable(a) && Codec.Payable(b)
    ensures Codec.OutsBytes(a + b) == Codec.OutsBytes(a) + Codec.OutsBytes(b)
  {
    hide Codec.OutBytes;
    assert (forall o | o in a :: o in a + b) && forall o | o in b :: o in a + b;
    if a == [] {
      assert a + b == b;
    } else {
      assert (a + b)[1..] == a[1..] + b;
      OutInOrder(a[1..], b);
    }
  }

  // ---------- The epoch root ----------

  const DOMAIN_LENGTH: Bytes := [0, 0, 0, 18]

  /** The bytes under the epoch root: the domain's name, the heights and totals, the number of miners, and then
      every miner once in ascending order, each with its work. */
  lemma EpochLayout(e: EpochData)
    requires EpochRoot.EpochWritable(e)
    ensures e.startHeight >= 0 && e.blockIndex >= 0 && e.total >= 0 && e.pool >= 0
    ensures EpochRoot.AllBytes(EpochRoot.EpochFields(e))
            == [0, 0, 0, 18] + ([74, 71, 67, 47, 69, 80, 79, 67, 72, 45, 83, 84, 65, 84, 69, 47, 86, 49]
               + (EpochRoot.BE(e.startHeight, 8) + (EpochRoot.BE(e.blockIndex, 4) + (EpochRoot.BE(e.total, 8)
               + (EpochRoot.BE(e.pool, 16) + (EpochRoot.BE(|e.weights|, 4)
               + Miners(EpochRoot.SortedEntries(e.weights))))))))
  {
    var entries := EpochRoot.SortedEntries(e.weights);
    var f := EpochRoot.HeadFields(e, |entries|);
    EntriesMeans(e.weights);
    EpochRoot.SplitBytes(f, EpochRoot.EntryFields(entries));
    MinersWritten(entries);
    HeadWritten(e, |entries|);
    var miners := Miners(entries);
    hide EpochRoot.BE, Miners, EpochRoot.AllBytes, EpochRoot.SortedEntries, EpochRoot.EntryFields, EpochRoot.Writable;
    Regroup(DOMAIN_LENGTH, EpochRoot.DOMAIN, EpochRoot.BE(e.startHeight, 8), EpochRoot.BE(e.blockIndex, 4),
            EpochRoot.BE(e.total, 8), EpochRoot.BE(e.pool, 16), EpochRoot.BE(|entries|, 4), miners);
  }

  lemma Regroup(a: Bytes, b: Bytes, c: Bytes, d: Bytes, e: Bytes, f: Bytes, g: Bytes, h: Bytes)
    ensures (a + (b + (c + (d + (e + (f + g)))))) + h == a + (b + (c + (d + (e + (f + (g + h))))))
  {
    Codec.Assoc(a, b + (c + (d + (e + (f + g)))), h);
    Codec.Assoc(b, c + (d + (e + (f + g))), h);
    Codec.Assoc(c, d + (e + (f + g)), h);
    Codec.Assoc(d, e + (f + g), h);
    Codec.Assoc(e, f + g, h);
    Codec.Assoc(f, g, h);
  }

  lemma FieldFirst(f: EpochRoot.Field, rest: seq<EpochRoot.Field>)
    requires forall g | g in [f] + rest :: EpochRoot.Writable(g)
    ensures EpochRoot.Writable(f) && (forall g | g in rest :: EpochRoot.Writable(g))
    ensures EpochRoot.AllBytes([f] + rest) == EpochRoot.FieldBytes(f) + EpochRoot.AllBytes(rest)
  {
    hide EpochRoot.Writable, EpochRoot.FieldBytes;
    assert ([f] + rest)[0] == f && ([f] + rest)[1..] == rest;
    assert forall g | g in rest :: g in [f] + rest;
    assert f in [f] + rest;
  }

  lemma HeadWritten(e: EpochData, count: nat)
    requires forall f | f in EpochRoot.HeadFields(e, count) :: EpochRoot.Writable(f)
    ensures e.startHeight >= 0 && e.blockIndex >= 0 && e.total >= 0 && e.pool >= 0
    ensures EpochRoot.AllBytes(EpochRoot.HeadFields(e, count))
            == DOMAIN_LENGTH + (EpochRoot.DOMAIN + (EpochRoot.BE(e.startHeight, 8) + (EpochRoot.BE(e.blockIndex, 4)
               + (EpochRoot.BE(e.total, 8) + (EpochRoot.BE(e.pool, 16) + EpochRoot.BE(count, 4))))))
  {
    HeadNumbers(e, count);
    var f := EpochRoot.HeadFields(e, count);
    hide EpochRoot.BE, EpochRoot.AllBytes, EpochRoot.FieldBytes, EpochRoot.Writable;
    SixFields(f[0], f[1], f[2], f[3], f[4], f[5]);
    assert f == [f[0], f[1], f[2], f[3], f[4], f[5]];
    hide EpochRoot.HeadFields;
    Seven(DOMAIN_LENGTH, EpochRoot.DOMAIN, EpochRoot.BE(e.startHeight, 8), EpochRoot.BE(e.blockIndex, 4),
          EpochRoot.BE(e.total, 8), EpochRoot.BE(e.pool, 16), EpochRoot.BE(count, 4));
  }

  lemma Seven(a: Bytes, b: Bytes, c: Bytes, d: Bytes, e: Bytes, f: Bytes, g: Bytes)
    ensures ((a + b) + (c + d)) + (e + (f + g)) == a + (b + (c + (d + (e + (f + g)))))
  {
    Codec.Assoc(a + b, c + d, e + (f + g));
    Codec.Assoc(c, d, e + (f + g));
    Codec.Assoc(a, b, c + (d + (e + (f + g))));
  }

  lemma SixFields(a: EpochRoot.Field, b: EpochRoot.Field, c: EpochRoot.Field, d: EpochRoot.Field,
                  e: EpochRoot.Field, f: EpochRoot.Field)
    requires forall x | x in [a, b, c, d, e, f] :: EpochRoot.Writable(x)
    ensures EpochRoot.AllBytes([a, b, c, d, e, f])
            == (EpochRoot.FieldBytes(a) + (EpochRoot.FieldBytes(b) + EpochRoot.FieldBytes(c)))
               + (EpochRoot.FieldBytes(d) + (EpochRoot.FieldBytes(e) + EpochRoot.FieldBytes(f)))
  {
    hide EpochRoot.AllBytes, EpochRoot.FieldBytes, EpochRoot.Writable;
    ThreeFields(a, b, c);
    ThreeFields(d, e, f);
    assert [a, b, c, d, e, f] == [a, b, c] + [d, e, f];
    EpochRoot.SplitBytes([a, b, c], [d, e, f]);
  }

  lemma HeadNumbers(e: EpochData, count: nat)
    requires forall f | f in EpochRoot.HeadFields(e, count) :: EpochRoot.Writable(f)
    ensures e.startHeight >= 0 && e.blockIndex >= 0 && e.total >= 0 && e.pool >= 0
    ensures var f := EpochRoot.HeadFields(e, count);
            && EpochRoot.Writable(f[0]) && EpochRoot.FieldBytes(f[0]) == DOMAIN_LENGTH + EpochRoot.DOMAIN
            && EpochRoot.Writable(f[1]) && EpochRoot.FieldBytes(f[1]) == EpochRoot.BE(e.startHeight, 8)
            && EpochRoot.Writable(f[2]) && EpochRoot.FieldBytes(f[2]) == EpochRoot.BE(e.blockIndex, 4)
            && EpochRoot.Writable(f[3]) && EpochRoot.FieldBytes(f[3]) == EpochRoot.BE(e.total, 8)
            && EpochRoot.Writable(f[4]) && EpochRoot.FieldBytes(f[4]) == EpochRoot.BE(e.pool, 16)
            && EpochRoot.Writable(f[5]) && EpochRoot.FieldBytes(f[5]) == EpochRoot.BE(count, 4)
  {
    var f := EpochRoot.HeadFields(e, count);
    assert f[0] in f && f[1] in f && f[2] in f && f[3] in f && f[4] in f && f[5] in f;
    DomainLength();
    hide EpochRoot.BE, EpochRoot.Writable;
    NumberWritten(f[1]);
    NumberWritten(f[2]);
    NumberWritten(f[3]);
    NumberWritten(f[4]);
    NumberWritten(f[5]);
  }

  lemma NumberWritten(f: EpochRoot.Field)
    requires EpochRoot.Writable(f) && !f.Str?
    ensures f.n >= 0 && EpochRoot.FieldBytes(f) == EpochRoot.BE(f.n, EpochRoot.Width(f))
  {
  }

  lemma ThreeFields(a: EpochRoot.Field, b: EpochRoot.Field, c: EpochRoot.Field)
    requires EpochRoot.Writable(a) && EpochRoot.Writable(b) && EpochRoot.Writable(c)
    ensures EpochRoot.AllBytes([a, b, c])
            == EpochRoot.FieldBytes(a) + (EpochRoot.FieldBytes(b) + EpochRoot.FieldBytes(c))
  {
    hide EpochRoot.Writable, EpochRoot.FieldBytes;
    FieldFirst(c, []);
    FieldFirst(b, [c]);
    FieldFirst(a, [b, c]);
    assert [c] + [] == [c] && [b] + [c] == [b, c] && [a] + [b, c] == [a, b, c];
    assert EpochRoot.AllBytes([]) == [];
    hide EpochRoot.AllBytes;
  }

  lemma DomainLength()
    ensures EpochRoot.BE(18, 4) == DOMAIN_LENGTH
  {
    assert EpochRoot.BE(0, 0) == [] && EpochRoot.BE(0, 1) == [0] && EpochRoot.BE(0, 2) == [0, 0];
    assert EpochRoot.BE(0, 3) == [0, 0, 0];
  }

  lemma {:induction false} MinersWritten(entries: seq<(Bytes, nat)>)
    requires forall f | f in EpochRoot.EntryFields(entries) :: EpochRoot.Writable(f)
    ensures EpochRoot.AllBytes(EpochRoot.EntryFields(entries)) == Miners(entries)
  {
    if entries != [] {
      var n := |entries| - 1;
      var name, work := EpochRoot.Str(entries[n].0), EpochRoot.Safe(entries[n].1);
      EpochRoot.SplitBytes(EpochRoot.EntryFields(entries[..n]), [name, work]);
      MinersWritten(entries[..n]);
      EntryWritten(name, work);
      hide EpochRoot.AllBytes, EpochRoot.BE;
      Codec.Assoc(EpochRoot.BE(|name.bytes|, 4), name.bytes, EpochRoot.BE(work.n, 8));
    }
  }

  lemma EntryWritten(name: EpochRoot.Field, work: EpochRoot.Field)
    requires forall f | f in [name, work] :: EpochRoot.Writable(f)
    ensures EpochRoot.Writable(name) && EpochRoot.Writable(work)
    ensures EpochRoot.AllBytes([name, work]) == EpochRoot.FieldBytes(name) + EpochRoot.FieldBytes(work)
  {
    hide EpochRoot.Writable, EpochRoot.FieldBytes;
    assert name in [name, work] && work in [name, work];
    assert [name] + [work] == [name, work] && [work] + [] == [work];
    FieldFirst(work, []);
    FieldFirst(name, [work]);
    assert EpochRoot.AllBytes([]) == [];
    hide EpochRoot.AllBytes;
  }

  /** Each miner's name after its length, and its work. */
  function Miners(entries: seq<(Bytes, nat)>): Bytes {
    if entries == [] then []
    else
      var (name, work) := entries[|entries| - 1];
      Miners(entries[..|entries| - 1]) + (EpochRoot.BE(|name|, 4) + (name + EpochRoot.BE(work, 8)))
  }

  /** The entries are every miner of the map once with its own work, names ascending byte by byte. */
  lemma EntriesMeans(m: Weights)
    ensures var e := EpochRoot.SortedEntries(m);
            && |e| == |m|
            && (forall i | 0 <= i < |e| :: e[i].0 in m && m[e[i].0] == e[i].1)
            && (forall k | k in m :: exists i :: 0 <= i < |e| && e[i].0 == k)
            && forall i, j | 0 <= i < j < |e| :: Compare(e[i].0, e[j].0) < 0
  {
    var e := EpochRoot.SortedEntries(m);
    EpochRoot.ListedByEntries(m);
    ListedElements(m.Items, e);
    ItemsCount(m);
    EntriesSorted(m);
    hide Compare;
    forall i | 0 <= i < |e|
      ensures e[i].0 in m && m[e[i].0] == e[i].1
    {
      assert e[i] in Elements(e);
    }
    forall k | k in m
      ensures exists i :: 0 <= i < |e| && e[i].0 == k
    {
      assert (k, m[k]) in m.Items;
      assert (k, m[k]) in Elements(e);
      var i :| 0 <= i < |e| && e[i] == (k, m[k]);
      assert e[i].0 == k;
    }
  }

  lemma EntriesSorted(m: Weights)
    ensures var e := EpochRoot.SortedEntries(m);
            forall i, j | 0 <= i < j < |e| :: Compare(e[i].0, e[j].0) < 0
  {
    ListExists(m.Items);
    var f :| Lists(m.Items, f) && EpochRoot.SortedEntries(m) == Sort(EpochRoot.ByAddress, f);
    var e := EpochRoot.SortedEntries(m);
    ListedElements(m.Items, f);
    AtMostIsTotalOrder();
    BeforeIsStrictOrder();
    SortPermutes(EpochRoot.ByAddress, f);
    SortSorts(EpochRoot.ByAddress, f);
    forall i, j | 0 <= i < j < |e|
      ensures Before(e[i].0, e[j].0)
    {
      ListedOnce(m.Items, e, i, j);
      ListedElements(m.Items, e);
      assert e[i] in Elements(e) && e[j] in Elements(e);
      assert EpochRoot.ByAddress(e[i], e[j]);
    }
  }

  lemma {:induction false} ItemsCount(m: Weights)
    ensures |m.Items| == |m|
    decreases |m|
  {
    if k :| k in m {
      var rest := m - {k};
      ItemsCount(rest);
      forall x
        ensures x in m.Items <==> x in rest.Items || x == (k, m[k])
      {
        assert x in rest.Items <==> x.0 in rest && rest[x.0] == x.1;
      }
      assert m.Items == rest.Items + {(k, m[k])};
      assert m.Keys == rest.Keys + {k};
    } else {
      assert m.Items == {};
    }
  }
}

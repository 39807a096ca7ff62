/** The canonical field writer, and why the epoch root commits to the whole accumulator. */
module EpochRoot {
  import opened Canonical
  import opened Collections
  import opened Epoch
  import opened Difficulty

  const DOMAIN: Bytes :=
    [74, 71, 67, 47, 69, 80, 79, 67, 72, 45, 83, 84, 65, 84, 69, 47, 86, 49]

  /** What a caller writes. Safe is a u64 given as a number, which must be a safe integer; U64 one given as a
      big integer. */
  datatype Field = U32(n: int) | Safe(n: int) | U64(n: int) | U128(n: int) | Str(bytes: Bytes)

  // ---------- The writer ----------

  function BE(n: nat, width: nat): (b: Bytes)
    ensures |b| == width
  {
    if width == 0 then [] else BE(n / 256, width - 1) + [(n % 256) as byte]
  }

  function Width(f: Field): nat {
    match f case U32(_) => 4 case Safe(_) => 8 case U64(_) => 8 case U128(_) => 16 case Str(_) => 4
  }

  function Number(f: Field): int {
    if f.Str? then |f.bytes| else f.n
  }

  /** A field that the writer accepts instead of throwing a RangeError. */
  predicate Writable(f: Field) {
    0 <= Number(f) < Pow256(Width(f)) && (f.Safe? ==> f.n <= MAX_SAFE_INTEGER)
  }

  function FieldBytes(f: Field): Bytes
    requires Writable(f)
  {
    BE(Number(f), Width(f)) + if f.Str? then f.bytes else []
  }

  function AllBytes(fs: seq<Field>): Bytes
    requires forall f | f in fs :: Writable(f)
  {
    if fs == [] then [] else FieldBytes(fs[0]) + AllBytes(fs[1..])
  }

  class CanonicalWriter {
    var chunks: seq<Bytes>

    constructor ()
      ensures chunks == []
    {
      chunks := [];
    }

    method Put(f: Field) returns (ok: bool)
      modifies this
      ensures ok <==> Writable(f)
      ensures Joined(chunks) == if ok then Joined(old(chunks)) + FieldBytes(f) else Joined(old(chunks))
    {
      ok := 0 <= Number(f) < Pow256(Width(f)) && (f.Safe? ==> f.n <= MAX_SAFE_INTEGER);
      if ok {
        JoinedMore(chunks, BE(Number(f), Width(f)));
        chunks := chunks + [BE(Number(f), Width(f))];
        if f.Str? {
          JoinedMore(chunks, f.bytes);
          chunks := chunks + [f.bytes];
        }
      }
    }

    method PutAll(fs: seq<Field>) returns (ok: bool)
      modifies this
      ensures ok <==> forall f | f in fs :: Writable(f)
      ensures ok ==> Joined(chunks) == Joined(old(chunks)) + AllBytes(fs)
    {
      hide Writable, FieldBytes;
      var i := 0;
      while i < |fs|
        invariant i <= |fs| && forall f | f in fs[..i] :: Writable(f)
        invariant (forall f | f in fs :: Writable(f)) ==>
                    Joined(chunks) + AllBytes(fs[i..]) == Joined(old(chunks)) + AllBytes(fs)
      {
        assert fs[..i + 1] == fs[..i] + [fs[i]] && fs[i..][1..] == fs[i + 1..];
        ok := Put(fs[i]);
        if !ok {
          return;
        }
        i := i + 1;
      }
      assert fs[..i] == fs && fs[i..] == [];
      ok := true;
    }
  }

  function Joined(chunks: seq<Bytes>): Bytes {
    if chunks == [] then [] else Joined(chunks[..|chunks| - 1]) + chunks[|chunks| - 1]
  }

  lemma JoinedMore(chunks: seq<Bytes>, b: Bytes)
    ensures Joined(chunks + [b]) == Joined(chunks) + b
  {
    assert (chunks + [b])[..|chunks|] == chunks;
  }

  // ---------- The writer is prefix-free ----------

  lemma {:induction false} BEInjective(m: nat, n: nat, width: nat)
    requires m < Pow256(width) && n < Pow256(width) && BE(m, width) == BE(n, width)
    ensures m == n
  {
    if width > 0 {
      var a, b := BE(m, width), BE(n, width);
      assert a[..width - 1] == BE(m / 256, width - 1) && b[..width - 1] == BE(n / 256, width - 1);
      assert a[width - 1] == b[width - 1];
      BEInjective(m / 256, n / 256, width - 1);
    }
  }

  lemma FieldPrefixFree(f: Field, g: Field, s: Bytes, t: Bytes)
    requires Writable(f) && Writable(g) && Width(f) == Width(g) && f.Str? == g.Str?
    requires FieldBytes(f) + s == FieldBytes(g) + t
    ensures Number(f) == Number(g) && (f.Str? ==> f == g) && s == t
  {
    var w := Width(f);
    var x, y := FieldBytes(f) + s, FieldBytes(g) + t;
    assert x[..w] == BE(Number(f), w) && y[..w] == BE(Number(g), w);
    BEInjective(Number(f), Number(g), w);
    if f.Str? {
      var n := |f.bytes|;
      assert x[w..w + n] == f.bytes && y[w..w + n] == g.bytes;
      assert x[w + n..] == s && y[w + n..] == t;
    } else {
      assert x[w..] == s && y[w..] == t;
    }
  }

  predicate SameKind(f: Field, g: Field) {
    f.U32? == g.U32? && f.Safe? == g.Safe? && f.U64? == g.U64? && f.U128? == g.U128? && f.Str? == g.Str?
  }

  /** Lists of the same field kinds: the written bytes determine every field and where they end. */
  lemma {:induction false} WriterPrefixFree(fs: seq<Field>, gs: seq<Field>, s: Bytes, t: Bytes)
    requires |fs| == |gs| && forall i | 0 <= i < |fs| :: SameKind(fs[i], gs[i])
    requires (forall f | f in fs :: Writable(f)) && forall g | g in gs :: Writable(g)
    requires AllBytes(fs) + s == AllBytes(gs) + t
    ensures fs == gs && s == t
  {
    hide Writable, FieldBytes;
    if fs != [] {
      Assoc(FieldBytes(fs[0]), AllBytes(fs[1..]), s);
      Assoc(FieldBytes(gs[0]), AllBytes(gs[1..]), t);
      FieldPrefixFree(fs[0], gs[0], AllBytes(fs[1..]) + s, AllBytes(gs[1..]) + t);
      assert SameKind(fs[0], gs[0]);
      WriterPrefixFree(fs[1..], gs[1..], s, t);
      assert fs == [fs[0]] + fs[1..] && gs == [gs[0]] + gs[1..];
    } else {
      assert AllBytes(fs) + s == s && AllBytes(gs) + t == t;
    }
  }

  lemma Assoc(a: Bytes, b: Bytes, c: Bytes)
    ensures (a + b) + c == a + (b + c)
  {
  }

  // ---------- The epoch root ----------

  predicate ByAddress(a: (Bytes, nat), b: (Bytes, nat)) {
    AtMost(a.0, b.0)
  }

  /** The contributions in canonical address order. */
  ghost function SortedEntries(m: Weights): seq<(Bytes, nat)> {
    ListExists(m.Items);
    var e :| Lists(m.Items, e);
    Sort(ByAddress, e)
  }

  function EntryFields(entries: seq<(Bytes, nat)>): (r: seq<Field>)
    ensures |r| == 2 * |entries|
    ensures forall i | 0 <= i < |entries| :: r[2 * i] == Str(entries[i].0) && r[2 * i + 1] == Safe(entries[i].1)
    ensures forall i | 0 <= i < |r| :: if i % 2 == 0 then r[i].Str? else r[i].Safe?
  {
    if entries == [] then []
    else EntryFields(entries[..|entries| - 1]) + [Str(entries[|entries| - 1].0), Safe(entries[|entries| - 1].1)]
  }

  function HeadFields(e: EpochData, count: nat): seq<Field> {
    [Str(DOMAIN), Safe(e.startHeight), U32(e.blockIndex), Safe(e.total), U128(e.pool), U32(count)]
  }

  ghost function EpochFields(e: EpochData): seq<Field> {
    var entries := SortedEntries(e.weights);
    HeadFields(e, |entries|) + EntryFields(entries)
  }

  ghost predicate EpochWritable(e: EpochData) {
    forall f | f in EpochFields(e) :: Writable(f)
  }

  lemma EntriesAre(m: Weights, e: seq<(Bytes, nat)>)
    requires IsEnumeration(m, e)
    ensures Sort(ByAddress, e) == SortedEntries(m)
  {
    ListExists(m.Items);
    var f :| Lists(m.Items, f) && SortedEntries(m) == Sort(ByAddress, f);
    SamePopulation(e, f);
    AtMostIsTotalOrder();
    assert Orders(ByAddress, Elements(e)) by {
      forall x, y | x in Elements(e) && y in Elements(e) && x.0 == y.0
        ensures x == y
      {
        assert x in multiset(e) && y in multiset(e);
        assert x in m.Items && y in m.Items;
      }
    }
    SortForgetsOrder(ByAddress, e, f);
  }

  /** The digest of the state, whatever the order in which miners entered the map. */
  method ComputeEpochRoot(hash: Bytes -> Bytes, state: EpochState) returns (root: Option<Bytes>)
    ensures root == if EpochWritable(state.Data()) then Some(hash(AllBytes(EpochFields(state.Data())))) else None
  {
    hide Writable;
    var entries := MapEntries(state.weights);
    EntriesAre(state.weights, entries);
    var sorted := Sort(ByAddress, entries);
    var fields := HeadFields(state.Data(), |sorted|) + EntryFields(sorted);
    assert fields == EpochFields(state.Data());
    var writer := new CanonicalWriter();
    var ok := writer.PutAll(fields);
    if !ok {
      return None;
    }
    assert Joined([]) + AllBytes(fields) == AllBytes(fields);
    root := Some(hash(Joined(writer.chunks)));
  }

  lemma EntriesDetermineMap(a: Weights, b: Weights)
    requires SortedEntries(a) == SortedEntries(b)
    ensures a == b
  {
    ListedByEntries(a);
    ListedByEntries(b);
    assert multiset(a.Items) == multiset(b.Items);
    forall k
      ensures k in a <==> k in b
      ensures k in a ==> a[k] == b[k]
    {
      if k in a {
        assert (k, a[k]) in a.Items && (k, a[k]) in multiset(b.Items);
      }
      if k in b {
        assert (k, b[k]) in b.Items && (k, b[k]) in multiset(a.Items);
      }
    }
  }

  lemma ListedByEntries(m: Weights)
    ensures Lists(m.Items, SortedEntries(m))
  {
    ListExists(m.Items);
    var e :| Lists(m.Items, e) && SortedEntries(m) == Sort(ByAddress, e);
    SortPermutes(ByAddress, e);
  }

  /** The bytes under the epoch root determine the accumulator: heights, totals, pool and every
      miner's contribution. */
  lemma EpochBytesCommit(a: EpochData, b: EpochData)
    requires EpochWritable(a) && EpochWritable(b) && AllBytes(EpochFields(a)) == AllBytes(EpochFields(b))
    ensures a == b
  {
    hide Writable, SortedEntries, EntryFields;
    var x, y := SortedEntries(a.weights), SortedEntries(b.weights);
    var p, q := HeadFields(a, |x|), HeadFields(b, |y|);
    SplitBytes(p, EntryFields(x));
    SplitBytes(q, EntryFields(y));
    WriterPrefixFree(p, q, AllBytes(EntryFields(x)), AllBytes(EntryFields(y)));
    assert p[5] == q[5] && p[1] == q[1] && p[2] == q[2] && p[3] == q[3] && p[4] == q[4];
    assert AllBytes(EntryFields(x)) + [] == AllBytes(EntryFields(x)) && AllBytes(EntryFields(y)) + [] == AllBytes(EntryFields(y));
    WriterPrefixFree(EntryFields(x), EntryFields(y), [], []);
    SameEntries(x, y);
    EntriesDetermineMap(a.weights, b.weights);
  }

  lemma SameEntries(x: seq<(Bytes, nat)>, y: seq<(Bytes, nat)>)
    requires |x| == |y| && EntryFields(x) == EntryFields(y)
    ensures x == y
  {
    forall i | 0 <= i < |x|
      ensures x[i] == y[i]
    {
      assert EntryFields(x)[2 * i] == EntryFields(y)[2 * i] && EntryFields(x)[2 * i + 1] == EntryFields(y)[2 * i + 1];
      assert Str(x[i].0) == Str(y[i].0) && Safe(x[i].1) == Safe(y[i].1);
    }
  }

  lemma {:induction false} SplitBytes(p: seq<Field>, q: seq<Field>)
    requires forall f | f in p + q :: Writable(f)
    ensures (forall f | f in p :: Writable(f)) && (forall f | f in q :: Writable(f))
    ensures AllBytes(p + q) == AllBytes(p) + AllBytes(q)
  {
    hide Writable, FieldBytes;
    assert (forall f | f in p :: f in p + q) && (forall f | f in q :: f in p + q);
    if p == [] {
      assert p + q == q;
    } else {
      assert (p + q)[1..] == p[1..] + q;
      SplitBytes(p[1..], q);
      Assoc(FieldBytes(p[0]), AllBytes(p[1..]), AllBytes(q));
    }
  }
}

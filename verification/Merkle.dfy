/** Merkle trees with their stored rows, inclusion proofs, and what a root commits to. */
module Merkle {
  import opened Canonical
  import opened Collections

  type Hash = Bytes
  type Combine = (Hash, Hash) -> Hash

  const HASH_SIZE: nat := 32

  function ZeroHash(): Hash {
    seq(HASH_SIZE, _ => 0)
  }

  /** The hash of two byte strings one after the other; nothing separates them. */
  function CombinePair(hash: Bytes -> Hash): Combine {
    (left, right) => hash(left + right)
  }

  // ---------- The tree as a function of its leaves ----------

  /** An odd row repeats its last hash. */
  function Padded(row: seq<Hash>): (r: seq<Hash>)
    ensures |r| % 2 == 0 && row <= r && |r| <= |row| + 1
    ensures forall h :: h in r <==> h in row
  {
    if |row| % 2 != 0 then row + [row[|row| - 1]] else row
  }

  function Parents(c: Combine, row: seq<Hash>): (r: seq<Hash>)
    requires |row| % 2 == 0
    ensures |r| == |row| / 2
  {
    seq(|row| / 2, i requires 0 <= i < |row| / 2 => c(row[2 * i], row[2 * i + 1]))
  }

  function Root(c: Combine, leaves: seq<Hash>): Hash
    decreases |leaves|
  {
    if |leaves| == 0 then ZeroHash()
    else if |leaves| == 1 then leaves[0]
    else Root(c, Parents(c, Padded(leaves)))
  }

  /** The rows as they are stored: every row but the root has been padded in place. */
  function Rows(c: Combine, leaves: seq<Hash>): (r: seq<seq<Hash>>)
    ensures r != []
    decreases |leaves|
  {
    if |leaves| <= 1 then [leaves] else [Padded(leaves)] + Rows(c, Parents(c, Padded(leaves)))
  }

  // ---------- Building ----------

  class Row {
    var items: seq<Hash>

    constructor (items: seq<Hash>)
      ensures this.items == items
    {
      this.items := items;
    }
  }

  /** A finished tree: nothing changes a stored row any more. */
  datatype Tree = Tree(layers: seq<seq<Hash>>, root: Hash)

  function Contents(layers: seq<Row>): (r: seq<seq<Hash>>)
    reads layers
    decreases |layers|
    ensures |r| == |layers| && forall i | 0 <= i < |r| :: r[i] == layers[i].items
  {
    if layers == [] then [] else Contents(layers[..|layers| - 1]) + [layers[|layers| - 1].items]
  }

  /** Pads the current row after it was stored, so the stored row changes with it. */
  method BuildMerkleTree(c: Combine, leaves: seq<Hash>) returns (tree: Tree)
    ensures tree == Tree(Rows(c, leaves), Root(c, leaves))
  {
    var current := new Row(leaves);
    if |leaves| == 0 {
      return Tree([current.items], ZeroHash());
    }
    var layers := [current];
    ghost var closed: seq<Row> := [];
    ghost var done: seq<seq<Hash>> := [];
    while |current.items| > 1
      invariant layers == closed + [current] && current.items != [] && fresh(current)
      invariant current !in closed && |closed| == |done| && forall i | 0 <= i < |closed| :: closed[i].items == done[i]
      invariant done + Rows(c, current.items) == Rows(c, leaves) && Root(c, current.items) == Root(c, leaves)
      decreases |current.items|
    {
      ghost var row := current.items;
      if |current.items| % 2 != 0 {
        current.items := current.items + [current.items[|current.items| - 1]];
      }
      assert current.items == Padded(row);
      var parents := CombineRow(c, current.items);
      RowsStep(c, row, done);
      closed, done := closed + [current], done + [current.items];
      current := new Row(parents);
      layers := layers + [current];
    }
    tree := Tree(Contents(layers), current.items[0]);
    assert tree.layers == done + [current.items];
  }

  lemma RowsStep(c: Combine, row: seq<Hash>, done: seq<seq<Hash>>)
    requires |row| > 1
    ensures var parents := Parents(c, Padded(row));
            && parents != [] && |parents| < |row| && Root(c, parents) == Root(c, row)
            && (done + [Padded(row)]) + Rows(c, parents) == done + Rows(c, row)
  {
  }

  method CombineRow(c: Combine, row: seq<Hash>) returns (next: seq<Hash>)
    requires |row| % 2 == 0
    ensures next == Parents(c, row)
  {
    next := [];
    var i := 0;
    while i < |row|
      invariant i <= |row| && i % 2 == 0 && next == Parents(c, row)[..i / 2]
    {
      next := next + [c(row[i], row[i + 1])];
      i := i + 2;
    }
  }

  // ---------- Proofs ----------

  datatype Proof = Proof(leafIndex: nat, leafHash: Hash, siblings: seq<Hash>, siblingOnLeft: seq<bool>, root: Hash)

  function Sibling(row: seq<Hash>, i: nat): Hash
    requires i < |Padded(row)|
  {
    Padded(row)[if i % 2 == 1 then i - 1 else i + 1]
  }

  /** Every row is at least wide enough for the ancestors of index i. */
  predicate Covers(rows: seq<seq<Hash>>, i: nat)
    decreases |rows|
  {
    |rows| <= 1 || (i < |Padded(rows[0])| && Covers(rows[1..], i / 2))
  }

  predicate AllCovered(rows: seq<seq<Hash>>) {
    rows != [] && forall i | 0 <= i < |rows[0]| :: Covers(rows, i)
  }

  /** The siblings of the path from index i of the first row to the root row. */
  function Siblings(rows: seq<seq<Hash>>, i: nat): seq<Hash>
    requires Covers(rows, i)
    decreases |rows|
  {
    if |rows| <= 1 then [] else [Sibling(rows[0], i)] + Siblings(rows[1..], i / 2)
  }

  function Sides(n: nat, i: nat): seq<bool> {
    if n <= 1 then [] else [i % 2 == 1] + Sides(n - 1, i / 2)
  }

  /** A missing direction reads as right; directions beyond the siblings are not read. */
  predicate FirstSide(onLeft: seq<bool>) {
    onLeft != [] && onLeft[0]
  }

  function LaterSides(onLeft: seq<bool>): seq<bool> {
    if onLeft == [] then [] else onLeft[1..]
  }

  function Climb(c: Combine, h: Hash, siblings: seq<Hash>, onLeft: seq<bool>): Hash
    decreases |siblings|
  {
    if siblings == [] then h
    else Climb(c, Joined(c, h, siblings[0], FirstSide(onLeft)), siblings[1..], LaterSides(onLeft))
  }

  function Joined(c: Combine, h: Hash, sibling: Hash, onLeft: bool): Hash {
    if onLeft then c(sibling, h) else c(h, sibling)
  }

  lemma ClimbFirst(c: Combine, h: Hash, sibling: Hash, left: bool, siblings: seq<Hash>, onLeft: seq<bool>)
    ensures Climb(c, h, [sibling] + siblings, [left] + onLeft) == Climb(c, Joined(c, h, sibling, left), siblings, onLeft)
  {
    assert ([sibling] + siblings)[1..] == siblings && ([left] + onLeft)[1..] == onLeft;
  }

  lemma PathStep(rows: seq<seq<Hash>>, level: nat, i: nat)
    requires level < |rows| - 1 && Covers(rows[level..], i)
    ensures i < |Padded(rows[level])| && Covers(rows[level + 1..], i / 2)
    ensures Siblings(rows[level..], i) == [Sibling(rows[level], i)] + Siblings(rows[level + 1..], i / 2)
  {
    assert rows[level..][0] == rows[level] && rows[level..][1..] == rows[level + 1..];
  }

  method GetSibling(layer: seq<Hash>, idx: nat) returns (sibling: Hash)
    requires idx < |Padded(layer)|
    ensures sibling == Sibling(layer, idx)
  {
    var effective := if |layer| % 2 != 0 then layer + [layer[|layer| - 1]] else layer;
    sibling := effective[if idx % 2 == 1 then idx - 1 else idx + 1];
  }

  /** None stands for the RangeError on the stored, possibly padded, first row. */
  method GetMerkleProof(tree: Tree, leafIndex: int) returns (r: Option<Proof>)
    requires AllCovered(tree.layers)
    ensures r.Some? <==> 0 <= leafIndex < |tree.layers[0]|
    ensures r.Some? ==> r.value == Proof(leafIndex, tree.layers[0][leafIndex], Siblings(tree.layers, leafIndex),
                                         Sides(|tree.layers|, leafIndex), tree.root)
  {
    var rows := tree.layers;
    var leaves := rows[0];
    if leafIndex < 0 || leafIndex >= |leaves| {
      return None;
    }
    var siblings: seq<Hash> := [];
    var onLeft: seq<bool> := [];
    var idx: nat := leafIndex;
    var level := 0;
    while level < |rows| - 1
      invariant OnPath(rows, leafIndex, level, idx, siblings, onLeft)
    {
      OnPathStep(rows, leafIndex, level, idx, siblings, onLeft);
      hide OnPath;
      var sibling := GetSibling(rows[level], idx);
      siblings := siblings + [sibling];
      onLeft := onLeft + [idx % 2 == 1];
      idx := idx / 2;
      level := level + 1;
    }
    r := Some(Proof(leafIndex, leaves[leafIndex], siblings, onLeft, tree.root));
  }

  /** The proof so far, and the rest of the path, make up the whole proof. */
  ghost predicate OnPath(rows: seq<seq<Hash>>, leafIndex: nat, level: nat, idx: nat, siblings: seq<Hash>, onLeft: seq<bool>) {
    && level < |rows| && Covers(rows, leafIndex) && Covers(rows[level..], idx)
    && siblings + Siblings(rows[level..], idx) == Siblings(rows, leafIndex)
    && onLeft + Sides(|rows| - level, idx) == Sides(|rows|, leafIndex)
  }

  lemma OnPathStep(rows: seq<seq<Hash>>, leafIndex: nat, level: nat, idx: nat, siblings: seq<Hash>, onLeft: seq<bool>)
    requires OnPath(rows, leafIndex, level, idx, siblings, onLeft) && level < |rows| - 1
    ensures idx < |Padded(rows[level])|
    ensures OnPath(rows, leafIndex, level + 1, idx / 2, siblings + [Sibling(rows[level], idx)], onLeft + [idx % 2 == 1])
  {
    hide Siblings, Sides, Covers, Padded, Sibling;
    PathStep(rows, level, idx);
    SidesStep(|rows| - level - 1, idx);
    Regroup(siblings, Sibling(rows[level], idx), Siblings(rows[level + 1..], idx / 2));
    Regroup(onLeft, idx % 2 == 1, Sides(|rows| - level - 1, idx / 2));
  }

  lemma Regroup<T>(a: seq<T>, x: T, b: seq<T>)
    ensures (a + [x]) + b == a + ([x] + b)
  {
  }

  method VerifyMerkleProof(c: Combine, proof: Proof) returns (ok: bool)
    ensures ok <==> Climb(c, proof.leafHash, proof.siblings, proof.siblingOnLeft) == proof.root
  {
    var computed := proof.leafHash;
    var i := 0;
    while i < |proof.siblings|
      invariant i <= |proof.siblings|
      invariant Climb(c, computed, proof.siblings[i..], SidesFrom(proof.siblingOnLeft, i))
             == Climb(c, proof.leafHash, proof.siblings, proof.siblingOnLeft)
    {
      var sibling := proof.siblings[i];
      assert proof.siblings[i..][1..] == proof.siblings[i + 1..];
      SidesNext(proof.siblingOnLeft, i);
      if i < |proof.siblingOnLeft| && proof.siblingOnLeft[i] {
        computed := c(sibling, computed);
      } else {
        computed := c(computed, sibling);
      }
      i := i + 1;
    }
    ok := computed == proof.root;
  }

  function SidesFrom(onLeft: seq<bool>, i: nat): seq<bool> {
    if i < |onLeft| then onLeft[i..] else []
  }

  lemma SidesNext(onLeft: seq<bool>, i: nat)
    ensures FirstSide(SidesFrom(onLeft, i)) <==> i < |onLeft| && onLeft[i]
    ensures LaterSides(SidesFrom(onLeft, i)) == SidesFrom(onLeft, i + 1)
  {
  }

  lemma {:induction false} SidesMatch(rows: seq<seq<Hash>>, i: nat)
    requires Covers(rows, i) && rows != []
    ensures |Siblings(rows, i)| == |Sides(|rows|, i)| == |rows| - 1
    decreases |rows|
  {
    if |rows| > 1 {
      SidesMatch(rows[1..], i / 2);
    }
  }

  lemma {:induction false} RowsCover(c: Combine, leaves: seq<Hash>, i: nat)
    requires i < |Padded(leaves)|
    ensures Covers(Rows(c, leaves), i)
    decreases |leaves|
  {
    if |leaves| > 1 {
      var parents := Parents(c, Padded(leaves));
      assert Rows(c, leaves)[1..] == Rows(c, parents);
      RowsCover(c, parents, i / 2);
    }
  }

  lemma RowsShape(c: Combine, leaves: seq<Hash>)
    requires |leaves| > 1
    ensures Rows(c, leaves) == [Padded(leaves)] + Rows(c, Parents(c, Padded(leaves)))
    ensures Root(c, leaves) == Root(c, Parents(c, Padded(leaves)))
    ensures Parents(c, Padded(leaves)) != [] && |Parents(c, Padded(leaves))| < |leaves|
  {
    hide Padded;
  }

  lemma FirstRow(c: Combine, leaves: seq<Hash>)
    ensures leaves <= Rows(c, leaves)[0] <= Padded(leaves)
  {
  }

  lemma ParentIs(c: Combine, row: seq<Hash>, i: nat)
    requires |row| % 2 == 0 && i < |row|
    ensures Padded(row) == row && Parents(c, row)[i / 2] == Joined(c, row[i], Sibling(row, i), i % 2 == 1)
  {
    assert i == 2 * (i / 2) + i % 2;
  }

  lemma SidesStep(n: nat, i: nat)
    requires n > 0
    ensures Sides(n + 1, i) == [i % 2 == 1] + Sides(n, i / 2)
  {
  }

  /** Completeness: the proof of every index of the stored first row climbs to the root. */
  lemma {:induction false} ProofVerifies(c: Combine, leaves: seq<Hash>, i: nat)
    requires i < |Rows(c, leaves)[0]|
    ensures Covers(Rows(c, leaves), i) && |Siblings(Rows(c, leaves), i)| == |Sides(|Rows(c, leaves)|, i)|
    ensures Climb(c, Rows(c, leaves)[0][i], Siblings(Rows(c, leaves), i), Sides(|Rows(c, leaves)|, i)) == Root(c, leaves)
    decreases |leaves|
  {
    FirstRow(c, leaves);
    RowsCover(c, leaves, i);
    SidesMatch(Rows(c, leaves), i);
    if |leaves| > 1 {
      hide Rows, Root, Climb, Siblings, Sides, Covers, Padded, Parents, Joined;
      RowsShape(c, leaves);
      ProofClimbs(c, leaves, i);
    }
  }

  lemma {:induction false} ProofClimbs(c: Combine, leaves: seq<Hash>, i: nat)
    requires |leaves| > 1 && i < |Padded(leaves)|
    requires Covers(Rows(c, leaves), i) && |Siblings(Rows(c, leaves), i)| == |Sides(|Rows(c, leaves)|, i)|
    ensures Climb(c, Padded(leaves)[i], Siblings(Rows(c, leaves), i), Sides(|Rows(c, leaves)|, i)) == Root(c, leaves)
    decreases |leaves|, 0
  {
    hide Rows, Root, Climb, Siblings, Sides, Covers, Padded, Parents, Joined, Sibling;
    var row := Padded(leaves);
    var parents := Parents(c, row);
    var rows := Rows(c, parents);
    RowsShape(c, leaves);
    FirstRow(c, parents);
    ParentIs(c, row, i);
    ProofVerifies(c, parents, i / 2);
    assert Rows(c, leaves)[0..] == Rows(c, leaves) && Rows(c, leaves)[1..] == rows;
    PathStep(Rows(c, leaves), 0, i);
    SidesStep(|rows|, i);
    ClimbFirst(c, row[i], Sibling(row, i), i % 2 == 1, Siblings(rows, i / 2), Sides(|rows|, i / 2));
  }

  // ---------- What a root is ----------

  function Power2(k: nat): (r: nat)
    ensures r > 0
  {
    if k == 0 then 1 else 2 * Power2(k - 1)
  }

  lemma ParentsConcat(c: Combine, a: seq<Hash>, b: seq<Hash>)
    requires |a| % 2 == 0 && |b| % 2 == 0
    ensures |a + b| % 2 == 0 && Parents(c, a + b) == Parents(c, a) + Parents(c, b)
  {
    var all := a + b;
    forall i | 0 <= i < |all| / 2
      ensures Parents(c, all)[i] == (Parents(c, a) + Parents(c, b))[i]
    {
      if 2 * i < |a| {
        assert all[2 * i] == a[2 * i] && all[2 * i + 1] == a[2 * i + 1];
      } else {
        var k := i - |a| / 2;
        assert all[2 * i] == b[2 * k] && all[2 * i + 1] == b[2 * k + 1];
      }
    }
  }

  lemma EvenRoot(c: Combine, leaves: seq<Hash>)
    requires |leaves| % 2 == 0 && leaves != []
    ensures Root(c, leaves) == Root(c, Parents(c, leaves))
  {
    assert Padded(leaves) == leaves;
  }

  lemma {:induction false} EvenPower(k: nat)
    requires k > 0
    ensures Power2(k) % 2 == 0 && Power2(k) / 2 == Power2(k - 1)
  {
    var half := Power2(k - 1);
    assert Power2(k) == 2 * half;
    hide Power2;
  }

  /** The root over two halves of 2^k leaves each is the combination of the left root with the right root. */
  lemma {:induction false} RootOfHalves(c: Combine, a: seq<Hash>, b: seq<Hash>, k: nat)
    requires |a| == |b| == Power2(k)
    ensures Root(c, a + b) == c(Root(c, a), Root(c, b))
    decreases k
  {
    if k == 0 {
      TwoLeaves(c, a[0], b[0]);
      assert a + b == [a[0], b[0]] && a == [a[0]] && b == [b[0]];
    } else {
      EvenPower(k);
      hide Root, Parents, Power2;
      ParentsConcat(c, a, b);
      RootOfHalves(c, Parents(c, a), Parents(c, b), k - 1);
      EvenRoot(c, a);
      EvenRoot(c, b);
      EvenRoot(c, a + b);
    }
  }

  lemma OneLeaf(c: Combine, x: Hash)
    ensures Root(c, [x]) == x
  {
  }

  lemma TwoLeaves(c: Combine, x: Hash, y: Hash)
    ensures Root(c, [x]) == x && Root(c, [y]) == y && Root(c, [x, y]) == c(x, y)
  {
    OneLeaf(c, c(x, y));
    EvenRoot(c, [x, y]);
    assert Parents(c, [x, y]) == [c(x, y)];
  }

  /** No leaf gives thirty-two zero bytes, one leaf itself, and three leaves repeat the last. */
  lemma SmallRoots(c: Combine, x: Hash, y: Hash, z: Hash)
    ensures |Root(c, [])| == 32 && forall i | 0 <= i < 32 :: Root(c, [])[i] == 0
    ensures Root(c, [x]) == x && Root(c, [x, y]) == c(x, y)
    ensures Root(c, [x, y, z]) == c(c(x, y), c(z, z))
  {
    assert Root(c, []) == ZeroHash();
    hide Root;
    OneLeaf(c, x);
    TwoLeaves(c, x, y);
    TwoLeaves(c, c(x, y), c(z, z));
    EvenRoot(c, [x, y, z, z]);
    RepeatedLastSameRoot(c, [x, y, z]);
    assert [x, y, z] + [z] == [x, y, z, z];
    assert Parents(c, [x, y, z, z]) == [c(x, y), c(z, z)];
  }

  /** One step of a path: a sibling marked left is combined from the left, any other from the right. */
  lemma PathMeans(c: Combine, h: Hash, siblings: seq<Hash>, onLeft: seq<bool>)
    ensures siblings == [] ==> Climb(c, h, siblings, onLeft) == h
    ensures siblings != [] && onLeft != [] ==>
              Climb(c, h, siblings, onLeft)
              == Climb(c, if onLeft[0] then c(siblings[0], h) else c(h, siblings[0]), siblings[1..], onLeft[1..])
  {
  }

  /** The padding is visible to the prover: exactly an odd list longer than one stores a row longer than
      itself, and then has a proof for the index after its last. */
  lemma PhantomLeaf(c: Combine, leaves: seq<Hash>)
    ensures |Rows(c, leaves)[0]| == |leaves| <==> |leaves| % 2 == 0 || |leaves| == 1
    ensures |Rows(c, leaves)[0]| != |leaves| ==>
              |Rows(c, leaves)[0]| == |leaves| + 1 && Rows(c, leaves)[0][|leaves|] == leaves[|leaves| - 1]
  {
  }

  // ---------- What a root commits to ----------

  /** What building a tree hashes. */
  function TreeBlocks(c: Combine, leaves: seq<Hash>): set<Bytes>
    decreases |leaves|
  {
    if |leaves| <= 1 then {} else PairsOf(Padded(leaves)) + TreeBlocks(c, Parents(c, Padded(leaves)))
  }

  function PairsOf(row: seq<Hash>): set<Bytes>
    requires |row| % 2 == 0
  {
    set i | 0 <= i < |row| / 2 :: row[2 * i] + row[2 * i + 1]
  }

  function Block(h: Hash, sibling: Hash, onLeft: bool): Bytes {
    if onLeft then sibling + h else h + sibling
  }

  /** What verifying a path hashes. */
  function PathBlocks(c: Combine, h: Hash, siblings: seq<Hash>, onLeft: seq<bool>): set<Bytes>
    decreases |siblings|
  {
    if siblings == [] then {}
    else
      var left := FirstSide(onLeft);
      {Block(h, siblings[0], left)} + PathBlocks(c, Joined(c, h, siblings[0], left), siblings[1..], LaterSides(onLeft))
  }

  /** No two of these strings collide. */
  ghost predicate NoCollision(hash: Bytes -> Hash, blocks: set<Bytes>) {
    forall x, y {:trigger hash(x), hash(y)} | x in blocks && y in blocks && hash(x) == hash(y) :: x == y
  }

  predicate AllSized(row: seq<Hash>) {
    forall i | 0 <= i < |row| :: |row[i]| == HASH_SIZE
  }

  ghost predicate Sized(hash: Bytes -> Hash) {
    forall x :: |hash(x)| == HASH_SIZE
  }

  lemma ParentsSized(hash: Bytes -> Hash, row: seq<Hash>)
    requires Sized(hash) && AllSized(row) && |row| > 1
    ensures AllSized(Padded(row)) && AllSized(Parents(CombinePair(hash), Padded(row)))
  {
  }

  /** Two strings of one size can be told apart in front of two others. */
  lemma SplitPair(a: Bytes, b: Bytes, x: Bytes, y: Bytes)
    requires |a| == |x| && a + b == x + y
    ensures a == x && b == y
  {
    assert (a + b)[..|a|] == a && (x + y)[..|a|] == x;
    assert (a + b)[|a|..] == b && (x + y)[|a|..] == y;
  }

  lemma SameParents(hash: Bytes -> Hash, a: seq<Hash>, b: seq<Hash>)
    requires AllSized(a) && AllSized(b) && |a| == |b| && |a| % 2 == 0
    requires NoCollision(hash, PairsOf(a) + PairsOf(b))
    requires Parents(CombinePair(hash), a) == Parents(CombinePair(hash), b)
    ensures a == b
  {
    forall i | 0 <= i < |a|
      ensures a[i] == b[i]
    {
      var k := i / 2;
      assert Parents(CombinePair(hash), a)[k] == Parents(CombinePair(hash), b)[k];
      assert a[2 * k] + a[2 * k + 1] in PairsOf(a) && b[2 * k] + b[2 * k + 1] in PairsOf(b);
      SplitPair(a[2 * k], a[2 * k + 1], b[2 * k], b[2 * k + 1]);
    }
  }

  /** Binding: lists of one length with one root are the same list, unless building their trees hashed
      a collision. */
  lemma {:induction false} RootCommits(hash: Bytes -> Hash, a: seq<Hash>, b: seq<Hash>)
    requires Sized(hash) && AllSized(a) && AllSized(b) && |a| == |b|
    requires NoCollision(hash, TreeBlocks(CombinePair(hash), a) + TreeBlocks(CombinePair(hash), b))
    requires Root(CombinePair(hash), a) == Root(CombinePair(hash), b)
    ensures a == b
    decreases |a|
  {
    if |a| > 1 {
      var c := CombinePair(hash);
      ParentsSized(hash, a);
      ParentsSized(hash, b);
      RootCommits(hash, Parents(c, Padded(a)), Parents(c, Padded(b)));
      SameParents(hash, Padded(a), Padded(b));
    }
  }

  /** The length matters: repeating the last leaf of an odd list does not change the root. */
  lemma RepeatedLastSameRoot(c: Combine, leaves: seq<Hash>)
    requires |leaves| % 2 == 1 && |leaves| > 1
    ensures Root(c, leaves) == Root(c, leaves + [leaves[|leaves| - 1]])
  {
    var longer := leaves + [leaves[|leaves| - 1]];
    assert Padded(leaves) == longer == Padded(longer);
  }

  /** Soundness for strings of the hash's size: a path of full depth that climbs to the root started at a
      leaf, unless the tree and the path hashed a collision. */
  lemma {:induction false} ProofSound(hash: Bytes -> Hash, leaves: seq<Hash>, h: Hash, siblings: seq<Hash>, onLeft: seq<bool>)
    requires Sized(hash) && leaves != [] && AllSized(leaves) && |h| == HASH_SIZE && AllSized(siblings)
    requires |siblings| == |Rows(CombinePair(hash), leaves)| - 1
    requires NoCollision(hash, TreeBlocks(CombinePair(hash), leaves) + PathBlocks(CombinePair(hash), h, siblings, onLeft))
    requires Climb(CombinePair(hash), h, siblings, onLeft) == Root(CombinePair(hash), leaves)
    ensures h in leaves
    decreases |leaves|
  {
    if |leaves| > 1 {
      var c := CombinePair(hash);
      var row, left := Padded(leaves), FirstSide(onLeft);
      var up := Joined(c, h, siblings[0], left);
      RowsShape(c, leaves);
      ParentsSized(hash, leaves);
      assert |up| == HASH_SIZE;
      ProofSound(hash, Parents(c, row), up, siblings[1..], LaterSides(onLeft));
      ChildInRow(hash, row, h, siblings[0], left);
    }
  }

  lemma ChildInRow(hash: Bytes -> Hash, row: seq<Hash>, h: Hash, sibling: Hash, onLeft: bool)
    requires |row| % 2 == 0 && AllSized(row) && |h| == |sibling| == HASH_SIZE
    requires NoCollision(hash, PairsOf(row) + {Block(h, sibling, onLeft)})
    requires Joined(CombinePair(hash), h, sibling, onLeft) in Parents(CombinePair(hash), row)
    ensures h in row
  {
    var parents := Parents(CombinePair(hash), row);
    var k :| 0 <= k < |parents| && parents[k] == Joined(CombinePair(hash), h, sibling, onLeft);
    assert row[2 * k] + row[2 * k + 1] in PairsOf(row);
    assert row[2 * k] in row && row[2 * k + 1] in row;
    if onLeft {
      SplitPair(row[2 * k], row[2 * k + 1], sibling, h);
    } else {
      SplitPair(row[2 * k], row[2 * k + 1], h, sibling);
    }
  }

  /** Whatever path of full depth climbs to the root, whatever its strings' sizes, started at a leaf. */
  ghost predicate SoundUnchecked(c: Combine, leaves: seq<Hash>) {
    forall h, siblings, onLeft {:trigger Climb(c, h, siblings, onLeft)} |
      |siblings| == |Rows(c, leaves)| - 1 && Climb(c, h, siblings, onLeft) == Root(c, leaves) :: h in leaves
  }

  /** The verifier checks no sizes: moving a byte from the first sibling to the leaf leaves the hashed
      string as it is, so the path of a string that is no leaf is accepted. */
  lemma ForgedLeaf(hash: Bytes -> Hash, leaves: seq<Hash>)
    returns (h: Hash, siblings: seq<Hash>, onLeft: seq<bool>)
    requires AllSized(leaves) && |leaves| > 1
    ensures |siblings| == |onLeft| == |Rows(CombinePair(hash), leaves)| - 1
    ensures Climb(CombinePair(hash), h, siblings, onLeft) == Root(CombinePair(hash), leaves)
    ensures |h| == HASH_SIZE + 1 && h !in leaves
  {
    var c := CombinePair(hash);
    var rows := Rows(c, leaves);
    FirstRow(c, leaves);
    ProofVerifies(c, leaves, 0);
    SidesMatch(rows, 0);
    var first, path, sides := rows[0][0], Siblings(rows, 0), Sides(|rows|, 0);
    var sibling := path[0];
    assert sibling == Padded(rows[0])[1] == leaves[1];
    h := first + sibling[..1];
    siblings, onLeft := [sibling[1..]] + path[1..], sides;
    assert h + sibling[1..] == first + sibling;
    assert siblings[1..] == path[1..];
  }

  /** Without the size checks soundness holds for exactly the trees of one leaf. */
  lemma SoundOnlyForOneLeaf(hash: Bytes -> Hash, leaves: seq<Hash>)
    requires leaves != [] && AllSized(leaves)
    ensures SoundUnchecked(CombinePair(hash), leaves) <==> |leaves| == 1
  {
    if |leaves| > 1 {
      var h, siblings, onLeft := ForgedLeaf(hash, leaves);
    }
  }

  // ---------- Inclusion of a contribution ----------

  method IndexOf(leaves: seq<Hash>, target: Hash) returns (i: int)
    ensures i == -1 <==> target !in leaves
    ensures i != -1 ==> 0 <= i < |leaves| && leaves[i] == target
  {
    i := 0;
    while i < |leaves|
      invariant 0 <= i <= |leaves| && target !in leaves[..i]
    {
      if leaves[i] == target {
        return;
      }
      i := i + 1;
    }
    i := -1;
  }

  /** True exactly when the contribution is listed and the given root is the root of the list. */
  method VerifyComputeProofInclusion<T>(c: Combine, hash: T -> Hash, contribution: T, blockRoot: Hash, all: seq<T>)
    returns (included: bool)
    ensures included <==> hash(contribution) in Leaves(hash, all) && blockRoot == Root(c, Leaves(hash, all))
  {
    var leaves := Leaves(hash, all);
    var tree := BuildMerkleTree(c, leaves);
    var i := IndexOf(leaves, hash(contribution));
    if i == -1 {
      return false;
    }
    forall k | 0 <= k < |Rows(c, leaves)[0]|
      ensures Covers(Rows(c, leaves), k)
    {
      ProofVerifies(c, leaves, k);
    }
    var proof := GetMerkleProof(tree, i);
    ProofVerifies(c, leaves, i);
    included := VerifyMerkleProof(c, proof.value.(root := blockRoot));
  }

  function Leaves<T>(hash: T -> Hash, all: seq<T>): (r: seq<Hash>)
    ensures |r| == |all| && forall i | 0 <= i < |r| :: r[i] == hash(all[i])
  {
    seq(|all|, i requires 0 <= i < |all| => hash(all[i]))
  }
}

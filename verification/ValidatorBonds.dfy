/** Bond scripts, and the stake snapshot derived from the unspent outputs alone. */
module ValidatorBonds {
  import opened Canonical
  import opened Collections
  import opened Utxo

  const BOND_PREFIX: Bytes := [74, 71, 67, 66, 79, 78, 68, 1]
  const MAX_ID: nat := 4096

  datatype Bond = Bond(validatorId: Bytes, bondedStake: int, outpoints: seq<OutPoint>)
  datatype Snapshot = Snapshot(height: int, root: Hash, validators: seq<Bond>)
  datatype Parsed = Parsed(validatorId: Bytes, ownerScript: Bytes)

  /** Decoding UTF-8 and encoding it again: the identity on well-formed bytes. */
  type Normalize = Bytes -> Bytes

  // ---------- Scripts ----------

  function Length16(n: nat): Bytes
    requires n < 0x1_0000
  {
    [(n / 256) as byte, (n % 256) as byte]
  }

  function BondScript(id: Bytes, owner: Bytes): Option<Bytes> {
    if |id| == 0 || |id| > MAX_ID then None else Some(BOND_PREFIX + (Length16(|id|) + (id + owner)))
  }

  function ParseBondScript(normalize: Normalize, script: Bytes): Option<Parsed> {
    if |script| < 11 || script[..8] != BOND_PREFIX then None
    else
      var length := script[8] as nat * 256 + script[9] as nat;
      var start := 10 + length;
      if length == 0 || start >= |script| then None
      else
        var id := normalize(script[10..start]);
        if |id| != length then None else Some(Parsed(id, script[start..]))
  }

  /** A bond script: eight marker bytes, the id's length in two bytes, the id, and the owner's script. It exists
      exactly for ids of one to 4096 bytes. */
  lemma BondLayout(id: Bytes, owner: Bytes)
    ensures BondScript(id, owner).Some? <==> 1 <= |id| <= 4096
    ensures BondScript(id, owner).Some? ==>
              var script := BondScript(id, owner).value;
              && |script| == 10 + |id| + |owner|
              && script[..8] == [74, 71, 67, 66, 79, 78, 68, 1]
              && script[8] as nat * 256 + script[9] as nat == |id|
              && script[10..10 + |id|] == id && script[10 + |id|..] == owner
  {
    if 1 <= |id| <= MAX_ID {
      var script := BondScript(id, owner).value;
      assert script[8..10] == Length16(|id|) && script[8] == script[8..10][0] && script[9] == script[8..10][1];
      assert script[10..] == id + owner;
      assert script[10..10 + |id|] == script[10..][..|id|] && script[10 + |id|..] == script[10..][|id|..];
    }
  }

  /** Parsing inverts building for every well-formed id exactly when there is an owner script. */
  lemma ParseInvertsBuild(normalize: Normalize, id: Bytes, owner: Bytes)
    requires 1 <= |id| <= MAX_ID && normalize(id) == id
    ensures ParseBondScript(normalize, BondScript(id, owner).value)
            == if owner != [] then Some(Parsed(id, owner)) else None
  {
    var script := BondScript(id, owner).value;
    assert script[..8] == BOND_PREFIX && script[8..10] == Length16(|id|);
    assert script[8] == script[8..10][0] && script[9] == script[8..10][1];
    assert script[10..] == id + owner;
    assert script[10..10 + |id|] == script[10..][..|id|] == id;
    assert script[10 + |id|..] == script[10..][|id|..] == owner;
  }

  /** Whatever parses with an id that decodes to itself was built from that id and owner. */
  lemma BuildInvertsParse(normalize: Normalize, script: Bytes)
    requires ParseBondScript(normalize, script).Some?
    ensures var p := ParseBondScript(normalize, script).value;
            && p.ownerScript != []
            && (p.validatorId == script[10..10 + |p.validatorId|] && |p.validatorId| <= MAX_ID ==>
                  BondScript(p.validatorId, p.ownerScript) == Some(script))
  {
    var length := script[8] as nat * 256 + script[9] as nat;
    assert script == script[..8] + (script[8..10] + (script[10..10 + length] + script[10 + length..]));
    assert script[8..10] == [script[8], script[9]];
    assert length / 256 == script[8] as nat && length % 256 == script[9] as nat;
  }

  // ---------- The snapshot ----------

  function IdOf(normalize: Normalize, e: Entry): Option<Bytes> {
    var p := ParseBondScript(normalize, e.scriptPubKey);
    if p.Some? then Some(p.value.validatorId) else None
  }

  /** The unspent outputs bonded to one validator. */
  function BondsOf(normalize: Normalize, coins: Coins, id: Bytes): Coins {
    map o | o in coins && IdOf(normalize, coins[o]) == Some(id) :: coins[o]
  }

  predicate ById(a: Bond, b: Bond) {
    AtMost(a.validatorId, b.validatorId)
  }

  predicate ByOutpoint(a: OutPoint, b: OutPoint) {
    Before(a.txid, b.txid) || (a.txid == b.txid && a.vout <= b.vout)
  }

  lemma OutpointOrder(s: set<OutPoint>)
    ensures Orders(ByOutpoint, s)
  {
    AtMostIsTotalOrder();
    BeforeIsStrictOrder();
  }

  /** A validator's stake is the sum of its bonds, and its outpoints are exactly those bonds in order. */
  ghost predicate IsBond(normalize: Normalize, coins: Coins, b: Bond) {
    var mine := BondsOf(normalize, coins, b.validatorId);
    mine != map[] && b.bondedStake == Total(mine) && Lists(mine.Keys, b.outpoints)
  }

  ghost predicate Roster(normalize: Normalize, coins: Coins, bonds: seq<Bond>) {
    && (forall i | 0 <= i < |bonds| :: IsBond(normalize, coins, bonds[i]) && SortedBy(ByOutpoint, bonds[i].outpoints))
    && (forall i, j | 0 <= i < j < |bonds| :: Before(bonds[i].validatorId, bonds[j].validatorId))
    && forall o | o in coins && IdOf(normalize, coins[o]).Some? ::
         exists i :: 0 <= i < |bonds| && Some(bonds[i].validatorId) == IdOf(normalize, coins[o])
  }

  lemma SameBond(normalize: Normalize, coins: Coins, a: Bond, b: Bond)
    requires IsBond(normalize, coins, a) && IsBond(normalize, coins, b) && a.validatorId == b.validatorId
    requires SortedBy(ByOutpoint, a.outpoints) && SortedBy(ByOutpoint, b.outpoints)
    ensures a == b
  {
    var mine := BondsOf(normalize, coins, a.validatorId);
    ListedElements(mine.Keys, a.outpoints);
    OutpointOrder(mine.Keys);
    SortedUnique(ByOutpoint, a.outpoints, b.outpoints);
  }

  lemma InOther(normalize: Normalize, coins: Coins, a: seq<Bond>, b: seq<Bond>, x: Bond)
    requires Roster(normalize, coins, a) && Roster(normalize, coins, b) && x in a
    ensures x in b
  {
    var i :| 0 <= i < |a| && a[i] == x;
    var o :| o in BondsOf(normalize, coins, x.validatorId);
    var j :| 0 <= j < |b| && Some(b[j].validatorId) == IdOf(normalize, coins[o]);
    SameBond(normalize, coins, a[i], b[j]);
  }

  /** The coins alone determine the roster: no iteration order, no history. */
  lemma RosterUnique(normalize: Normalize, coins: Coins, a: seq<Bond>, b: seq<Bond>)
    requires Roster(normalize, coins, a) && Roster(normalize, coins, b)
    ensures a == b
  {
    forall x
      ensures x in a <==> x in b
    {
      if x in a {
        InOther(normalize, coins, a, b, x);
      }
      if x in b {
        InOther(normalize, coins, b, a, x);
      }
    }
    RosterSorted(normalize, coins, a);
    RosterSorted(normalize, coins, b);
    ListsElements(a);
    ListsElements(b);
    assert Elements(a) == Elements(b);
    SortedUnique(ById, a, b);
  }

  lemma RosterSorted(normalize: Normalize, coins: Coins, a: seq<Bond>)
    requires Roster(normalize, coins, a)
    ensures SortedBy(ById, a) && Distinct(a) && Orders(ById, Elements(a))
  {
    hide IsBond, IdOf;
    BeforeIsStrictOrder();
    AtMostIsTotalOrder();
    forall x, y | x in Elements(a) && y in Elements(a) && x.validatorId == y.validatorId
      ensures x == y
    {
      var i :| 0 <= i < |a| && a[i] == x;
      var j :| 0 <= j < |a| && a[j] == y;
      assert !Before(a[i].validatorId, a[j].validatorId) && !Before(a[j].validatorId, a[i].validatorId);
    }
  }

  /** One more coin changes the bonds of its validator only. */
  lemma BondsNext(normalize: Normalize, done: Coins, o: OutPoint, e: Entry, id: Bytes)
    requires o !in done
    ensures var before, after := BondsOf(normalize, done, id), BondsOf(normalize, done[o := e], id);
            && o !in before
            && after == (if IdOf(normalize, e) == Some(id) then before[o := e] else before)
            && Total(after) == Total(before) + if IdOf(normalize, e) == Some(id) then e.value else 0
  {
    hide IdOf;
    var before := BondsOf(normalize, done, id);
    assert BondsOf(normalize, done[o := e], id) == if IdOf(normalize, e) == Some(id) then before[o := e] else before;
    if IdOf(normalize, e) == Some(id) {
      TotalAdd(before, o, e);
    }
  }

  /** byId holds the bonds found among the coins looked at so far. */
  ghost predicate Gathered(normalize: Normalize, done: Coins, byId: map<Bytes, Bond>) {
    && (forall id | id in byId :: byId[id].validatorId == id && IsBond(normalize, done, byId[id]))
    && (forall id | id !in byId :: BondsOf(normalize, done, id) == map[])
  }

  lemma OtherBond(normalize: Normalize, done: Coins, next: Coins, b: Bond)
    requires IsBond(normalize, done, b)
    requires BondsOf(normalize, next, b.validatorId) == BondsOf(normalize, done, b.validatorId)
    ensures IsBond(normalize, next, b)
  {
  }

  lemma OwnBond(normalize: Normalize, done: Coins, byId: map<Bytes, Bond>, id: Bytes, o: OutPoint, e: Entry)
    requires Gathered(normalize, done, byId) && o !in done && IdOf(normalize, e) == Some(id)
    ensures var b := if id in byId then byId[id] else Bond(id, 0, []);
            IsBond(normalize, done[o := e], Bond(id, b.bondedStake + e.value, b.outpoints + [o]))
  {
    hide IdOf, BondsOf;
    BondsNext(normalize, done, o, e, id);
    assert Total(map[]) == 0;
    OneMoreListed(BondsOf(normalize, done, id), o, e, if id in byId then byId[id].outpoints else []);
  }

  lemma GatherOne(normalize: Normalize, done: Coins, byId: map<Bytes, Bond>, o: OutPoint, e: Entry)
    requires Gathered(normalize, done, byId) && o !in done
    ensures Gathered(normalize, done[o := e], WithBond(byId, IdOf(normalize, e), o, e))
  {
    hide IdOf, BondsOf, IsBond;
    var next := WithBond(byId, IdOf(normalize, e), o, e);
    forall id
      ensures id in next ==> next[id].validatorId == id && IsBond(normalize, done[o := e], next[id])
      ensures id !in next ==> BondsOf(normalize, done[o := e], id) == map[]
    {
      BondsNext(normalize, done, o, e, id);
      if IdOf(normalize, e) == Some(id) {
        OwnBond(normalize, done, byId, id, o, e);
      } else if id in byId {
        OtherBond(normalize, done, done[o := e], byId[id]);
      }
    }
  }

  function WithBond(byId: map<Bytes, Bond>, id: Option<Bytes>, o: OutPoint, e: Entry): map<Bytes, Bond> {
    if id.None? then byId
    else
      var b := if id.value in byId then byId[id.value] else Bond(id.value, 0, []);
      byId[id.value := Bond(id.value, b.bondedStake + e.value, b.outpoints + [o])]
  }

  lemma OneMoreListed(m: Coins, o: OutPoint, e: Entry, listed: seq<OutPoint>)
    requires o !in m && Lists(m.Keys, listed)
    ensures Lists(m[o := e].Keys, listed + [o]) && m[o := e] != map[]
  {
    assert m[o := e].Keys == m.Keys + {o};
    assert o in m[o := e];
  }

  method AddBond(normalize: Normalize, byId: map<Bytes, Bond>, o: OutPoint, e: Entry) returns (next: map<Bytes, Bond>)
    ensures next == WithBond(byId, IdOf(normalize, e), o, e)
  {
    var parsed := ParseBondScript(normalize, e.scriptPubKey);
    if parsed.None? {
      return byId;
    }
    var id := parsed.value.validatorId;
    var bond := if id in byId then byId[id] else Bond(id, 0, []);
    next := byId[id := Bond(id, bond.bondedStake + e.value, bond.outpoints + [o])];
  }

  /** The loop over the unspent outputs, in whatever order they come. */
  method GatherBonds(normalize: Normalize, utxos: UTXOSet) returns (byId: map<Bytes, Bond>)
    ensures Gathered(normalize, utxos.coins, byId)
  {
    hide Gathered, IdOf, WithBond;
    byId := map[];
    ghost var done: Coins := map[];
    NothingGathered(normalize);
    var rest := utxos.coins;
    while rest.Keys != {}
      invariant done + rest == utxos.coins && done.Keys !! rest.Keys
      invariant Gathered(normalize, done, byId)
      decreases |rest|
    {
      var o :| o in rest.Keys;
      var e := rest[o];
      GatherOne(normalize, done, byId, o, e);
      byId := AddBond(normalize, byId, o, e);
      MoveOne(done, rest, o);
      done, rest := done[o := e], rest - {o};
    }
    assert done == utxos.coins;
  }

  lemma NothingGathered(normalize: Normalize)
    ensures Gathered(normalize, map[], map[])
  {
  }

  lemma MoveOne(done: Coins, rest: Coins, o: OutPoint)
    requires done.Keys !! rest.Keys && o in rest
    ensures done[o := rest[o]] + (rest - {o}) == done + rest && done[o := rest[o]].Keys !! (rest - {o}).Keys
  {
  }

  /** The roster in canonical order, and its digest. */
  method ValidatorStakeSnapshot(normalize: Normalize, digest: (int, seq<Bond>) -> Hash, utxos: UTXOSet, height: int)
    returns (s: Snapshot)
    ensures Roster(normalize, utxos.coins, s.validators)
    ensures s.height == height && s.root == digest(height, s.validators)
  {
    var byId := GatherBonds(normalize, utxos);
    InjectiveBonds(normalize, utxos.coins, byId);
    var found := MapValues(byId);
    var sorted := Sort(ById, found);
    SortedIds(normalize, utxos.coins, byId, found);
    hide Gathered, SortedRoster, Roster, Lists, Injective;
    var validators := SortOutpoints(sorted);
    OutpointsSorted(normalize, utxos.coins, sorted, validators);
    s := Snapshot(height, digest(height, validators), validators);
  }

  method SortOutpoints(bonds: seq<Bond>) returns (r: seq<Bond>)
    ensures |r| == |bonds|
    ensures forall k | 0 <= k < |bonds| :: r[k] == bonds[k].(outpoints := Sort(ByOutpoint, bonds[k].outpoints))
  {
    r := [];
    var i := 0;
    while i < |bonds|
      invariant i <= |bonds| && |r| == i
      invariant forall k | 0 <= k < i :: r[k] == bonds[k].(outpoints := Sort(ByOutpoint, bonds[k].outpoints))
    {
      r := r + [bonds[i].(outpoints := Sort(ByOutpoint, bonds[i].outpoints))];
      i := i + 1;
    }
  }

  lemma InjectiveBonds(normalize: Normalize, coins: Coins, byId: map<Bytes, Bond>)
    requires Gathered(normalize, coins, byId)
    ensures Injective(byId)
  {
    hide IsBond;
  }

  ghost predicate SortedRoster(normalize: Normalize, coins: Coins, sorted: seq<Bond>) {
    && (forall i | 0 <= i < |sorted| :: IsBond(normalize, coins, sorted[i]))
    && (forall i, j | 0 <= i < j < |sorted| :: Before(sorted[i].validatorId, sorted[j].validatorId))
    && forall id | BondsOf(normalize, coins, id) != map[] :: exists i :: 0 <= i < |sorted| && sorted[i].validatorId == id
  }

  lemma SortedIds(normalize: Normalize, coins: Coins, byId: map<Bytes, Bond>, found: seq<Bond>)
    requires Gathered(normalize, coins, byId) && Lists(byId.Values, found)
    ensures SortedRoster(normalize, coins, Sort(ById, found))
  {
    hide IsBond, BondsOf;
    var sorted := Sort(ById, found);
    ListedElements(byId.Values, found);
    AtMostIsTotalOrder();
    BeforeIsStrictOrder();
    SortPermutes(ById, found);
    SortSorts(ById, found);
    forall i | 0 <= i < |sorted|
      ensures IsBond(normalize, coins, sorted[i]) && sorted[i].validatorId in byId
    {
      assert sorted[i] in Elements(sorted);
    }
    forall i, j | 0 <= i < j < |sorted|
      ensures Before(sorted[i].validatorId, sorted[j].validatorId)
    {
      ListedOnce(byId.Values, sorted, i, j);
      assert ById(sorted[i], sorted[j]) && sorted[i] in Elements(sorted) && sorted[j] in Elements(sorted);
    }
    forall id | BondsOf(normalize, coins, id) != map[]
      ensures exists i :: 0 <= i < |sorted| && sorted[i].validatorId == id
    {
      assert byId[id] in Elements(sorted);
    }
  }

  lemma OutpointsSorted(normalize: Normalize, coins: Coins, sorted: seq<Bond>, validators: seq<Bond>)
    requires SortedRoster(normalize, coins, sorted) && |validators| == |sorted|
    requires forall k | 0 <= k < |sorted| :: validators[k] == sorted[k].(outpoints := Sort(ByOutpoint, sorted[k].outpoints))
    ensures Roster(normalize, coins, validators)
  {
    hide IdOf;
    forall i | 0 <= i < |validators|
      ensures IsBond(normalize, coins, validators[i]) && SortedBy(ByOutpoint, validators[i].outpoints)
    {
      assert IsBond(normalize, coins, sorted[i]);
      OutpointOrder(Elements(sorted[i].outpoints));
      SortPermutes(ByOutpoint, sorted[i].outpoints);
      SortSorts(ByOutpoint, sorted[i].outpoints);
    }
    forall o | o in coins && IdOf(normalize, coins[o]).Some?
      ensures exists i :: 0 <= i < |validators| && Some(validators[i].validatorId) == IdOf(normalize, coins[o])
    {
      assert o in BondsOf(normalize, coins, IdOf(normalize, coins[o]).value);
      var i :| 0 <= i < |sorted| && sorted[i].validatorId == IdOf(normalize, coins[o]).value;
      assert validators[i].validatorId == sorted[i].validatorId;
    }
  }
}

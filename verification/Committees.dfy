/** How a committee is written into a digest: sorted and joined with commas. */
module Committees {
  import opened Canonical
  import opened Collections

  const COMMA: byte := 44

  function Join(ids: seq<Bytes>): Bytes {
    if ids == [] then []
    else if |ids| == 1 then ids[0]
    else ids[0] + [COMMA] + Join(ids[1..])
  }

  /** What the digests cover of a committee. */
  function Joined(ids: seq<Bytes>): Bytes {
    Join(Sort(AtMostUnits, ids))
  }

  predicate CommaFree(ids: seq<Bytes>) {
    forall i | 0 <= i < |ids| :: COMMA !in ids[i]
  }

  // ---------- Splitting at commas ----------

  /** A comma opens a new piece; any other byte belongs to the first one. */
  function Grow(c: byte, rest: seq<Bytes>): (r: seq<Bytes>)
    requires rest != []
    ensures |r| == |rest| + if c == COMMA then 1 else 0
  {
    if c == COMMA then [[]] + rest else [[c] + rest[0]] + rest[1..]
  }

  function Split(b: Bytes): (r: seq<Bytes>)
    ensures r != []
  {
    if b == [] then [[]] else Grow(b[0], Split(b[1..]))
  }

  /** What the members of a list fall into at their own commas. */
  function Pieces(ids: seq<Bytes>): seq<Bytes> {
    if ids == [] then [] else Split(ids[0]) + Pieces(ids[1..])
  }

  lemma {:induction false} SplitWhole(b: Bytes)
    ensures |Split(b)| == 1 <==> COMMA !in b
    ensures COMMA !in b ==> Split(b) == [b]
  {
    if b != [] {
      SplitWhole(b[1..]);
      assert b == [b[0]] + b[1..];
    }
  }

  lemma GrowConcat(c: byte, a: seq<Bytes>, b: seq<Bytes>)
    requires a != []
    ensures Grow(c, a + b) == Grow(c, a) + b
  {
    assert (a + b)[1..] == a[1..] + b;
  }

  lemma GrowComma(rest: seq<Bytes>)
    requires rest != []
    ensures Grow(COMMA, rest) == [[]] + rest
  {
  }

  lemma {:induction false} SplitConcat(x: Bytes, tail: Bytes)
    ensures Split(x + [COMMA] + tail) == Split(x) + Split(tail)
  {
    hide Grow;
    var b := x + [COMMA] + tail;
    if x == [] {
      assert b[1..] == tail;
      GrowComma(Split(tail));
    } else {
      SplitConcat(x[1..], tail);
      assert b[1..] == x[1..] + [COMMA] + tail;
      GrowConcat(x[0], Split(x[1..]), Split(tail));
    }
  }

  lemma {:induction false} SplitJoin(ids: seq<Bytes>)
    requires ids != []
    ensures Split(Join(ids)) == Pieces(ids)
  {
    if |ids| == 1 {
      assert ids[1..] == [] && Pieces(ids) == Split(ids[0]) + [];
    } else {
      SplitConcat(ids[0], Join(ids[1..]));
      SplitJoin(ids[1..]);
    }
  }

  /** There are at least as many pieces as members, and as many only without commas. */
  lemma {:induction false} PiecesCount(ids: seq<Bytes>)
    ensures |Pieces(ids)| >= |ids|
    ensures |Pieces(ids)| == |ids| <==> CommaFree(ids)
    ensures CommaFree(ids) ==> Pieces(ids) == ids
  {
    if ids != [] {
      PiecesCount(ids[1..]);
      SplitWhole(ids[0]);
      assert ids == [ids[0]] + ids[1..];
      if CommaFree(ids[1..]) && COMMA !in ids[0] {
        assert forall i | 0 < i < |ids| :: ids[i] == ids[1..][i - 1];
      }
    }
  }

  /** A member without commas is a piece. */
  lemma {:induction false} PieceOf(ids: seq<Bytes>, id: Bytes)
    requires id in ids && COMMA !in id
    ensures id in Pieces(ids)
  {
    if ids[0] == id {
      SplitWhole(id);
      assert Pieces(ids)[0] == id;
    } else {
      assert ids == [ids[0]] + ids[1..];
      PieceOf(ids[1..], id);
    }
  }

  lemma CommaFreeAnyOrder(a: seq<Bytes>, b: seq<Bytes>)
    requires multiset(a) == multiset(b) && CommaFree(a)
    ensures CommaFree(b)
  {
    SamePopulation(a, b);
    forall i | 0 <= i < |b|
      ensures COMMA !in b[i]
    {
      assert b[i] in Elements(a);
    }
  }

  lemma SortedCommaFree(ids: seq<Bytes>)
    ensures multiset(Sort(AtMostUnits, ids)) == multiset(ids) && |Sort(AtMostUnits, ids)| == |ids|
    ensures CommaFree(Sort(AtMostUnits, ids)) <==> CommaFree(ids)
  {
    SortPermutes(AtMostUnits, ids);
    if CommaFree(ids) {
      CommaFreeAnyOrder(ids, Sort(AtMostUnits, ids));
    }
    if CommaFree(Sort(AtMostUnits, ids)) {
      CommaFreeAnyOrder(Sort(AtMostUnits, ids), ids);
    }
  }

  /** Against a comma-free committee, equal writing means equal members exactly when the sizes agree;
      members without commas are common in any case. */
  lemma JoinedCommits(a: seq<Bytes>, b: seq<Bytes>)
    requires a != [] && b != [] && CommaFree(a) && Joined(a) == Joined(b)
    ensures |b| <= |a|
    ensures multiset(a) == multiset(b) <==> |a| == |b|
    ensures CommaFree(b) <==> |a| == |b|
    ensures forall id | id in b && COMMA !in id :: id in a
  {
    hide Join, Sort, Split, Pieces, CommaFree;
    var s, t := Sort(AtMostUnits, a), Sort(AtMostUnits, b);
    SortedCommaFree(a);
    SortedCommaFree(b);
    SplitJoin(s);
    SplitJoin(t);
    PiecesCount(s);
    PiecesCount(t);
    assert |multiset(a)| == |a| && |multiset(b)| == |b|;
    SamePopulation(a, s);
    SamePopulation(b, t);
    forall id | id in b && COMMA !in id
      ensures id in a
    {
      assert id in Elements(t);
      PieceOf(t, id);
      assert id in Elements(s);
    }
  }

  /** Listing order is not written. */
  lemma JoinedForgetsOrder(a: seq<Bytes>, b: seq<Bytes>)
    requires multiset(a) == multiset(b)
    ensures Joined(a) == Joined(b)
  {
    UnitsOrder(Elements(a));
    SortForgetsOrder(AtMostUnits, a, b);
  }

  // ---------- Other committees with the same writing ----------

  /** The members from the k-th on run together into one. */
  function Lumped(ids: seq<Bytes>, k: nat): (r: seq<Bytes>)
    requires k + 2 <= |ids|
    ensures |r| == k + 1
  {
    ids[..k] + [Join(ids[k..])]
  }

  lemma {:induction false} LumpedJoins(ids: seq<Bytes>, k: nat)
    requires k + 2 <= |ids|
    ensures Join(Lumped(ids, k)) == Join(ids)
  {
    if k == 0 {
      assert ids[0..] == ids;
    } else {
      LumpedJoins(ids[1..], k - 1);
      assert ids[1..][k - 1..] == ids[k..] && ids[1..][..k - 1] == ids[1..k];
      assert Lumped(ids, k)[0] == ids[0] && Lumped(ids, k)[1..] == Lumped(ids[1..], k - 1);
    }
  }

  lemma LumpedSorted(ids: seq<Bytes>, k: nat)
    requires k + 2 <= |ids| && SortedBy(AtMostUnits, ids)
    ensures SortedBy(AtMostUnits, Lumped(ids, k))
  {
    hide AtMostUnits;
    var m, tail := Lumped(ids, k), [COMMA] + Join(ids[k..][1..]);
    UnitsOrder(Elements(ids) + {m[k]});
    assert m[k] == ids[k] + tail;
    PrefixAtMostUnits(ids[k], tail);
    assert ids[k] in Elements(ids);
    forall i, j | 0 <= i < j < |m|
      ensures AtMostUnits(m[i], m[j])
    {
      assert m[i] == ids[i] && ids[i] in Elements(ids);
      if j == k {
        assert AtMostUnits(ids[i], ids[k]);
      } else {
        assert m[j] == ids[j];
      }
    }
  }

  lemma LumpedDistinct(ids: seq<Bytes>, k: nat)
    requires k + 2 <= |ids| && CommaFree(ids) && Distinct(ids)
    ensures Distinct(Lumped(ids, k)) && COMMA in Lumped(ids, k)[k]
  {
    var m := Lumped(ids, k);
    assert m[k][|ids[k]|] == COMMA;
    forall i, j | 0 <= i < j < |m|
      ensures m[i] != m[j]
    {
      assert m[i] == ids[i];
      assert j < k ==> m[j] == ids[j];
    }
  }

  lemma SortSorted(ids: seq<Bytes>)
    requires SortedBy(AtMostUnits, ids)
    ensures Sort(AtMostUnits, ids) == ids
  {
    UnitsOrder(Elements(ids));
    SortPermutes(AtMostUnits, ids);
    SortSorts(AtMostUnits, ids);
    SortedUnique(AtMostUnits, Sort(AtMostUnits, ids), ids);
  }


  /** A comma-free committee is written like one of any smaller size above one. */
  lemma OtherCommittee(ids: seq<Bytes>, k: nat) returns (sorted: seq<Bytes>, other: seq<Bytes>)
    requires k + 2 <= |ids| && CommaFree(ids) && Distinct(ids)
    ensures multiset(sorted) == multiset(ids) && |sorted| == |ids| && Distinct(sorted)
    ensures other == Lumped(sorted, k) && Distinct(other) && Joined(other) == Joined(ids)
    ensures COMMA in other[k] && forall i | 0 <= i < k :: other[i] == sorted[i] && other[i] in ids
  {
    hide Sort, Join, AtMostUnits, Ranks, SortedBy, CommaFree;
    sorted := Sort(AtMostUnits, ids);
    SortedCommaFree(ids);
    UnitsOrder(Elements(ids));
    SortSorts(AtMostUnits, ids);
    SamePopulation(ids, sorted);
    DistinctPopulation(ids, sorted);
    other := Lumped(sorted, k);
    LumpedJoins(sorted, k);
    LumpedSorted(sorted, k);
    LumpedDistinct(sorted, k);
    SortSorted(other);
    assert forall i | 0 <= i < k :: sorted[i] in Elements(sorted);
  }

  /** No member's id begins another's; ids of one length are like that. */
  ghost predicate NoPrefixes(ids: seq<Bytes>) {
    forall x, y | x in ids && y in ids && x <= y :: x == y
  }

  /** The first k members run together into one. */
  function Fronted(ids: seq<Bytes>, k: nat): (r: seq<Bytes>)
    requires 2 <= k <= |ids|
    ensures |r| == |ids| - k + 1
  {
    [Join(ids[..k])] + ids[k..]
  }

  lemma {:induction false} JoinConcat(a: seq<Bytes>, b: seq<Bytes>)
    requires a != [] && b != []
    ensures Join(a + b) == Join(a) + [COMMA] + Join(b)
  {
    if |a| == 1 {
      assert (a + b)[1..] == b;
    } else {
      JoinConcat(a[1..], b);
      assert (a + b)[1..] == a[1..] + b;
    }
  }

  lemma FrontedJoins(ids: seq<Bytes>, k: nat)
    requires 2 <= k < |ids|
    ensures Join(Fronted(ids, k)) == Join(ids)
  {
    assert ids == ids[..k] + ids[k..];
    JoinConcat(ids[..k], ids[k..]);
    JoinConcat([Join(ids[..k])], ids[k..]);
  }

  lemma FrontedSorted(ids: seq<Bytes>, k: nat)
    requires 2 <= k < |ids| && SortedBy(AtMostUnits, ids) && NoPrefixes(ids) && Distinct(ids)
    ensures SortedBy(AtMostUnits, Fronted(ids, k))
  {
    hide AtMostUnits;
    var m, tail := Fronted(ids, k), [COMMA] + Join(ids[..k][1..]);
    assert m[0] == ids[0] + tail;
    forall i, j | 0 <= i < j < |m|
      ensures AtMostUnits(m[i], m[j])
    {
      assert m[j] == ids[k + j - 1];
      if i == 0 {
        assert ids[0] in ids && ids[k + j - 1] in ids && ids[0] != ids[k + j - 1];
        assert AtMostUnits(ids[0], ids[k + j - 1]) && !(ids[0] <= ids[k + j - 1]);
        ExtendedAtMostUnits(ids[0], ids[k + j - 1], tail);
      } else {
        assert m[i] == ids[k + i - 1];
      }
    }
  }

  lemma FrontedDistinct(ids: seq<Bytes>, k: nat)
    requires 2 <= k < |ids| && CommaFree(ids) && Distinct(ids)
    ensures Distinct(Fronted(ids, k)) && COMMA in Fronted(ids, k)[0]
  {
    var m := Fronted(ids, k);
    assert m[0][|ids[0]|] == COMMA;
    forall i, j | 0 <= i < j < |m|
      ensures m[i] != m[j]
    {
      assert m[j] == ids[k + j - 1];
      assert i > 0 ==> m[i] == ids[k + i - 1];
    }
  }

  /** Two committees of three written like a comma-free one of four or more: one names its first two members,
      the other its last two. */
  lemma OppositeCommittees(ids: seq<Bytes>) returns (sorted: seq<Bytes>, head: seq<Bytes>, tail: seq<Bytes>)
    requires |ids| >= 4 && CommaFree(ids) && Distinct(ids) && NoPrefixes(ids)
    ensures multiset(sorted) == multiset(ids) && |sorted| == |ids| && Distinct(sorted)
    ensures |head| == |tail| == 3 && Distinct(head) && Distinct(tail)
    ensures Joined(head) == Joined(tail) == Joined(ids)
    ensures head == [sorted[0], sorted[1], head[2]] && tail == [tail[0], sorted[|ids| - 2], sorted[|ids| - 1]]
    ensures COMMA in head[2] && COMMA in tail[0]
  {
    hide Sort, Join, AtMostUnits, Ranks, SortedBy, CommaFree;
    var n := |ids|;
    sorted := Sort(AtMostUnits, ids);
    SortedCommaFree(ids);
    UnitsOrder(Elements(ids));
    SortSorts(AtMostUnits, ids);
    SamePopulation(ids, sorted);
    DistinctPopulation(ids, sorted);
    SamePrefixes(ids, sorted);
    head := Lumped(sorted, 2);
    LumpedJoins(sorted, 2);
    LumpedSorted(sorted, 2);
    LumpedDistinct(sorted, 2);
    SortSorted(head);
    tail := Fronted(sorted, n - 2);
    FrontedJoins(sorted, n - 2);
    FrontedSorted(sorted, n - 2);
    FrontedDistinct(sorted, n - 2);
    SortSorted(tail);
  }

  lemma SamePrefixes(a: seq<Bytes>, b: seq<Bytes>)
    requires NoPrefixes(a) && Elements(a) == Elements(b)
    ensures NoPrefixes(b)
  {
    forall x, y | x in b && y in b && x <= y
      ensures x == y
    {
      assert x in Elements(b) && y in Elements(b);
    }
  }

  lemma DistinctPopulation<T>(a: seq<T>, b: seq<T>)
    requires Distinct(a) && multiset(a) == multiset(b)
    ensures Distinct(b)
  {
    ListsElements(a);
    forall i, j | 0 <= i < j < |b|
      ensures b[i] != b[j]
    {
      ListedOnce(Elements(a), b, i, j);
    }
  }
}

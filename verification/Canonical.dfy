/** Canonical byte order and canonical sorting, used wherever consensus orders strings. */
module Canonical {
  import opened Collections

  const MAX_SAFE_INTEGER: nat := 9_007_199_254_740_991

  newtype byte = x: int | 0 <= x < 256
  type Bytes = seq<byte>

  // ---------- Byte order ----------

  /** Buffer.compare: the first differing byte decides, then the length. */
  function Compare(a: Bytes, b: Bytes): int {
    if a == [] && b == [] then 0
    else if a == [] then -1
    else if b == [] then 1
    else if a[0] < b[0] then -1
    else if a[0] > b[0] then 1
    else Compare(a[1..], b[1..])
  }

  predicate AtMost(a: Bytes, b: Bytes) {
    Compare(a, b) <= 0
  }

  lemma {:induction false} CompareAntisymmetric(a: Bytes, b: Bytes)
    ensures Compare(a, b) == -Compare(b, a)
    ensures Compare(a, b) == 0 <==> a == b
  {
    if a != [] && b != [] && a[0] == b[0] {
      CompareAntisymmetric(a[1..], b[1..]);
      assert a == [a[0]] + a[1..] && b == [b[0]] + b[1..];
    }
  }

  predicate Before(a: Bytes, b: Bytes) {
    Compare(a, b) < 0
  }

  /** Strict order: irreflexive, transitive, and total on different strings. */
  lemma BeforeIsStrictOrder()
    ensures forall a, b :: Before(a, b) <==> AtMost(a, b) && a != b
    ensures forall a, b :: a != b ==> Before(a, b) || Before(b, a)
    ensures forall a, b, c :: Before(a, b) && Before(b, c) ==> Before(a, c)
  {
    AtMostIsTotalOrder();
    forall a, b
      ensures Before(a, b) <==> AtMost(a, b) && a != b
    {
      CompareAntisymmetric(a, b);
    }
  }

  lemma {:induction false} CompareTransitive(a: Bytes, b: Bytes, c: Bytes)
    requires AtMost(a, b) && AtMost(b, c)
    ensures AtMost(a, c)
  {
    if a != [] && b != [] && c != [] && a[0] == b[0] == c[0] {
      CompareTransitive(a[1..], b[1..], c[1..]);
    }
  }

  /** Canonical byte order is a total order. */
  lemma AtMostIsTotalOrder()
    ensures forall a, b :: AtMost(a, b) || AtMost(b, a)
    ensures forall a, b :: AtMost(a, b) && AtMost(b, a) ==> a == b
    ensures forall a, b, c :: AtMost(a, b) && AtMost(b, c) ==> AtMost(a, c)
  {
    forall a, b
      ensures AtMost(a, b) || AtMost(b, a)
      ensures AtMost(a, b) && AtMost(b, a) ==> a == b
    {
      CompareAntisymmetric(a, b);
    }
    forall a, b, c | AtMost(a, b) && AtMost(b, c)
      ensures AtMost(a, c)
    {
      CompareTransitive(a, b, c);
    }
  }

  /** a comes before b: it is a proper prefix, or holds the smaller byte where they first differ. */
  lemma {:induction false} BeforeMeans(a: Bytes, b: Bytes)
    ensures Before(a, b) <==>
              a < b || exists k :: 0 <= k < |a| && k < |b| && a[..k] == b[..k] && a[k] < b[k]
  {
    if a != [] && b != [] && a[0] == b[0] {
      var x, y := a[1..], b[1..];
      BeforeMeans(x, y);
      assert a == [a[0]] + x && b == [b[0]] + y;
      if k :| 0 <= k < |x| && k < |y| && x[..k] == y[..k] && x[k] < y[k] {
        assert a[..k + 1] == [a[0]] + x[..k] && b[..k + 1] == [b[0]] + y[..k];
        assert a[k + 1] < b[k + 1];
      }
      if k :| 0 <= k < |a| && k < |b| && a[..k] == b[..k] && a[k] < b[k] {
        assert x[..k - 1] == a[..k][1..] && y[..k - 1] == b[..k][1..];
        assert x[k - 1] < y[k - 1];
      }
    } else if a != [] && b != [] {
      assert a[..0] == b[..0];
      if k :| 0 <= k < |a| && k < |b| && a[..k] == b[..k] && a[k] < b[k] {
        assert k > 0 ==> a[..k][0] == b[..k][0];
      }
    }
  }

  // ---------- Default string order ----------

  /** UTF-16 puts four-byte characters before those whose UTF-8 starts with EE or EF; otherwise the
      order of lead bytes is that of the characters. */
  function UnitRank(b: byte): byte {
    if b < 0xEE then b else if b < 0xF0 then b + 0x10 else b - 2
  }

  function UnitRanks(a: Bytes): (r: Bytes)
    ensures |r| == |a|
  {
    seq(|a|, i requires 0 <= i < |a| => UnitRank(a[i]))
  }

  /** The order of a sort without a comparator: by UTF-16 code units. */
  predicate AtMostUnits(a: Bytes, b: Bytes) {
    AtMost(UnitRanks(a), UnitRanks(b))
  }

  lemma UnitRanksInjective(a: Bytes, b: Bytes)
    requires UnitRanks(a) == UnitRanks(b)
    ensures a == b
  {
    forall i | 0 <= i < |a|
      ensures a[i] == b[i]
    {
      assert UnitRanks(a)[i] == UnitRanks(b)[i];
    }
  }

  // ---------- Sorting ----------

  /** le ranks the elements of s: total and transitive. */
  ghost predicate Ranks<T>(le: (T, T) -> bool, s: set<T>) {
    && (forall x, y | x in s && y in s :: le(x, y) || le(y, x))
    && (forall x, y, z | x in s && y in s && z in s && le(x, y) && le(y, z) :: le(x, z))
  }

  /** le orders the elements of s: it ranks them, and only equal elements tie. */
  ghost predicate Orders<T>(le: (T, T) -> bool, s: set<T>) {
    Ranks(le, s) && forall x, y | x in s && y in s && le(x, y) && le(y, x) :: x == y
  }

  ghost predicate SortedBy<T>(le: (T, T) -> bool, s: seq<T>) {
    forall i, j | 0 <= i < j < |s| :: le(s[i], s[j])
  }

  function Insert<T>(le: (T, T) -> bool, x: T, s: seq<T>): seq<T> {
    if s == [] then [x]
    else if le(x, s[0]) then [x] + s
    else [s[0]] + Insert(le, x, s[1..])
  }

  function Sort<T>(le: (T, T) -> bool, s: seq<T>): seq<T> {
    if s == [] then [] else Insert(le, s[0], Sort(le, s[1..]))
  }

  lemma {:induction false} InsertPermutes<T>(le: (T, T) -> bool, x: T, s: seq<T>)
    ensures multiset(Insert(le, x, s)) == multiset(s) + multiset{x}
  {
    if s != [] {
      assert s == [s[0]] + s[1..];
      if !le(x, s[0]) {
        var rest := Insert(le, x, s[1..]);
        InsertPermutes(le, x, s[1..]);
        assert multiset([s[0]] + rest) == multiset{s[0]} + multiset(rest);
      }
    }
  }

  lemma OrdersSubset<T>(le: (T, T) -> bool, s: set<T>, t: set<T>)
    requires t <= s
    ensures Ranks(le, s) ==> Ranks(le, t)
    ensures Orders(le, s) ==> Orders(le, t)
  {
  }

  ghost predicate BelowAll<T>(le: (T, T) -> bool, x: T, s: seq<T>) {
    forall j | 0 <= j < |s| :: le(x, s[j])
  }

  lemma PrependSorted<T>(le: (T, T) -> bool, x: T, s: seq<T>)
    requires SortedBy(le, s) && BelowAll(le, x, s)
    ensures SortedBy(le, [x] + s)
  {
  }

  /** The smaller of a sorted list's head and x is below everything in the list. */
  lemma BelowSorted<T>(le: (T, T) -> bool, x: T, s: seq<T>)
    requires s != [] && SortedBy(le, s) && Ranks(le, Elements(s) + {x}) && le(x, s[0])
    ensures BelowAll(le, x, s)
  {
    var all := Elements(s) + {x};
    assert s[0] in all && x in all;
    forall j | 0 <= j < |s|
      ensures le(x, s[j])
    {
      assert s[j] in all;
      assert j == 0 || le(s[0], s[j]);
    }
  }

  lemma {:induction false} InsertSorts<T>(le: (T, T) -> bool, x: T, s: seq<T>)
    requires Ranks(le, Elements(s) + {x}) && SortedBy(le, s)
    ensures SortedBy(le, Insert(le, x, s))
  {
    if s != [] {
      if le(x, s[0]) {
        BelowSorted(le, x, s);
        PrependSorted(le, x, s);
      } else {
        OrdersSubset(le, Elements(s) + {x}, Elements(s[1..]) + {x});
        InsertSorts(le, x, s[1..]);
        InsertedBelow(le, x, s);
        PrependSorted(le, s[0], Insert(le, x, s[1..]));
      }
    }
  }

  lemma InsertedBelow<T>(le: (T, T) -> bool, x: T, s: seq<T>)
    requires s != [] && SortedBy(le, s) && Ranks(le, Elements(s) + {x}) && !le(x, s[0])
    ensures BelowAll(le, s[0], Insert(le, x, s[1..]))
  {
    var rest := Insert(le, x, s[1..]);
    InsertPermutes(le, x, s[1..]);
    assert x in Elements(s) + {x} && s[0] in Elements(s) + {x};
    forall j | 0 <= j < |rest|
      ensures le(s[0], rest[j])
    {
      assert rest[j] in multiset(rest);
      if rest[j] != x {
        assert rest[j] in s[1..];
        var i :| 0 <= i < |s[1..]| && s[1..][i] == rest[j];
        assert le(s[0], s[i + 1]);
      }
    }
  }

  lemma {:induction false} SortPermutes<T>(le: (T, T) -> bool, s: seq<T>)
    ensures multiset(Sort(le, s)) == multiset(s)
    ensures Elements(Sort(le, s)) == Elements(s)
    ensures |Sort(le, s)| == |s|
  {
    if s != [] {
      SortPermutes(le, s[1..]);
      InsertPermutes(le, s[0], Sort(le, s[1..]));
      assert s == [s[0]] + s[1..];
    }
    SamePopulation(Sort(le, s), s);
  }

  lemma SamePopulation<T>(a: seq<T>, b: seq<T>)
    requires multiset(a) == multiset(b)
    ensures Elements(a) == Elements(b) && |a| == |b|
  {
    forall x
      ensures x in Elements(a) <==> x in Elements(b)
    {
      assert x in a <==> x in multiset(a);
      assert x in b <==> x in multiset(b);
    }
    assert |multiset(a)| == |a| && |multiset(b)| == |b|;
  }

  lemma {:induction false} SortSorts<T>(le: (T, T) -> bool, s: seq<T>)
    requires Ranks(le, Elements(s))
    ensures SortedBy(le, Sort(le, s))
  {
    if s != [] {
      assert Elements(s[1..]) <= Elements(s);
      SortSorts(le, s[1..]);
      SortPermutes(le, s[1..]);
      assert Elements(Sort(le, s[1..])) + {s[0]} <= Elements(s);
      InsertSorts(le, s[0], Sort(le, s[1..]));
    }
  }

  /** Both heads are the least element. */
  lemma SameHead<T>(le: (T, T) -> bool, a: seq<T>, b: seq<T>)
    requires a != [] && b != [] && Elements(a) == Elements(b)
    requires SortedBy(le, a) && SortedBy(le, b) && Orders(le, Elements(a))
    ensures a[0] == b[0]
  {
    assert a[0] in Elements(b) && b[0] in Elements(a);
    var i :| 0 <= i < |b| && b[i] == a[0];
    var j :| 0 <= j < |a| && a[j] == b[0];
    if i != 0 && j != 0 {
      assert le(b[0], b[i]) && le(a[0], a[j]);
    }
  }

  /** A strict order leaves one sorted arrangement of a population. */
  lemma {:induction false} SortedUnique<T>(le: (T, T) -> bool, a: seq<T>, b: seq<T>)
    requires multiset(a) == multiset(b) && SortedBy(le, a) && SortedBy(le, b) && Orders(le, Elements(a))
    ensures a == b
  {
    SamePopulation(a, b);
    if a != [] {
      SameHead(le, a, b);
      SameTails(a, b);
      OrdersSubset(le, Elements(a), Elements(a[1..]));
      TailSorted(le, a);
      TailSorted(le, b);
      SortedUnique(le, a[1..], b[1..]);
      assert a == [a[0]] + a[1..] && b == [b[0]] + b[1..];
    }
  }

  lemma SameTails<T>(a: seq<T>, b: seq<T>)
    requires a != [] && b != [] && a[0] == b[0] && multiset(a) == multiset(b)
    ensures multiset(a[1..]) == multiset(b[1..])
  {
    assert a == [a[0]] + a[1..] && b == [b[0]] + b[1..];
    assert multiset(a[1..]) == multiset(a) - multiset{a[0]};
    assert multiset(b[1..]) == multiset(b) - multiset{b[0]};
  }

  lemma TailSorted<T>(le: (T, T) -> bool, s: seq<T>)
    requires s != [] && SortedBy(le, s)
    ensures SortedBy(le, s[1..])
  {
  }

  /** Canonical sorting forgets the arrival order. */
  lemma SortForgetsOrder<T>(le: (T, T) -> bool, a: seq<T>, b: seq<T>)
    requires multiset(a) == multiset(b) && Orders(le, Elements(a))
    ensures Sort(le, a) == Sort(le, b)
  {
    SamePopulation(a, b);
    SortPermutes(le, a);
    SortPermutes(le, b);
    SortSorts(le, a);
    SortSorts(le, b);
    SortedUnique(le, Sort(le, a), Sort(le, b));
  }

  lemma UnitsOrder(s: set<Bytes>)
    ensures Orders(AtMostUnits, s)
  {
    AtMostIsTotalOrder();
    forall x, y | x in s && y in s && AtMostUnits(x, y) && AtMostUnits(y, x)
      ensures x == y
    {
      UnitRanksInjective(x, y);
    }
  }

  /** A string comes before its extensions. */
  lemma {:induction false} PrefixAtMost(a: Bytes, tail: Bytes)
    ensures AtMost(a, a + tail)
  {
    if a != [] {
      assert (a + tail)[1..] == a[1..] + tail;
      PrefixAtMost(a[1..], tail);
    }
  }

  lemma PrefixAtMostUnits(a: Bytes, tail: Bytes)
    ensures AtMostUnits(a, a + tail)
  {
    assert UnitRanks(a + tail) == UnitRanks(a) + UnitRanks(tail);
    PrefixAtMost(UnitRanks(a), UnitRanks(tail));
  }

  /** Extending the smaller of two strings keeps it smaller, unless it is a prefix of the other. */
  lemma {:induction false} ExtendedAtMost(a: Bytes, b: Bytes, tail: Bytes)
    requires AtMost(a, b) && !(a <= b)
    ensures AtMost(a + tail, b)
  {
    if a != [] && b != [] && a[0] == b[0] {
      assert (a + tail)[1..] == a[1..] + tail;
      assert a == [a[0]] + a[1..] && b == [b[0]] + b[1..];
      ExtendedAtMost(a[1..], b[1..], tail);
    }
  }

  lemma ExtendedAtMostUnits(a: Bytes, b: Bytes, tail: Bytes)
    requires AtMostUnits(a, b) && !(a <= b)
    ensures AtMostUnits(a + tail, b)
  {
    assert UnitRanks(a + tail) == UnitRanks(a) + UnitRanks(tail);
    if UnitRanks(a) <= UnitRanks(b) {
      assert UnitRanks(b)[..|a|] == UnitRanks(b[..|a|]);
      UnitRanksInjective(a, b[..|a|]);
      assert false;
    }
    ExtendedAtMost(UnitRanks(a), UnitRanks(b), UnitRanks(tail));
  }

  // ---------- Ranking ----------

  /** Descending count, ties by canonical byte order. */
  predicate HighestFirst(a: (Bytes, nat), b: (Bytes, nat)) {
    a.1 > b.1 || (a.1 == b.1 && AtMost(a.0, b.0))
  }

  /** A ranking does not depend on the order entries left the map. */
  lemma RankingForgetsOrder(a: seq<(Bytes, nat)>, b: seq<(Bytes, nat)>)
    requires multiset(a) == multiset(b)
    ensures Sort(HighestFirst, a) == Sort(HighestFirst, b)
  {
    RankingOrders(Elements(a));
    SortForgetsOrder(HighestFirst, a, b);
  }

  lemma RankingOrders(s: set<(Bytes, nat)>)
    ensures Orders(HighestFirst, s)
  {
    AtMostIsTotalOrder();
  }
}

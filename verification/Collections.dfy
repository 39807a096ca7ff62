/** Options, lists without repeats, and the entries and sums of finite maps. */
module Collections {

  datatype Option<+T> = None | Some(value: T)

  predicate Distinct<T(==)>(s: seq<T>) {
    forall i, j | 0 <= i < j < |s| :: s[i] != s[j]
  }

  function Elements<T>(s: seq<T>): set<T> {
    set x | x in s
  }

  lemma OneMoreElement<T>(s: seq<T>, x: T)
    ensures Elements(s + [x]) == Elements(s) + {x}
  {
  }

  // ---------- Map entries ----------

  /** e lists the elements of s once each. */
  ghost predicate Lists<T>(s: set<T>, e: seq<T>) {
    multiset(e) == multiset(s)
  }

  /** s lists the entries of m once each, in some iteration order. */
  ghost predicate IsEnumeration<K, V>(m: map<K, V>, s: seq<(K, V)>) {
    Lists(m.Items, s)
  }

  /** Every entry once, in an order the caller cannot rely on. */
  method MapEntries<K(==), V(==)>(m: map<K, V>) returns (s: seq<(K, V)>)
    ensures IsEnumeration(m, s)
  {
    s := [];
    var rest := m;
    while rest.Keys != {}
      invariant multiset(s) + multiset(rest.Items) == multiset(m.Items)
      decreases |rest|
    {
      var k :| k in rest.Keys;
      SplitItem(rest, k);
      s := s + [(k, rest[k])];
      rest := rest - {k};
    }
    NoItems(rest);
  }

  lemma SplitItem<K, V>(m: map<K, V>, k: K)
    requires k in m
    ensures (k, m[k]) !in (m - {k}).Items && m.Items == (m - {k}).Items + {(k, m[k])}
  {
    var rest := m - {k};
    var all := rest.Items + {(k, m[k])};
    forall x | x in m.Items
      ensures x in all
    {
      if x.0 != k {
        assert x.0 in rest && rest[x.0] == x.1;
      }
    }
    forall x | x in all
      ensures x in m.Items
    {
      assert x == (x.0, x.1);
    }
    assert all <= m.Items <= all;
  }

  lemma NoItems<K, V>(m: map<K, V>)
    ensures m.Items == {} ==> m == map[]
    ensures m == map[] ==> m.Items == {}
  {
    if k :| k in m {
      assert m != map[] && (k, m[k]) in m.Items;
    } else {
      assert m == map[];
    }
  }

  /** Every finite set can be listed. */
  lemma {:induction false} ListExists<T>(s: set<T>)
    ensures exists e :: Lists(s, e)
  {
    if s == {} {
      assert Lists(s, []);
    } else {
      var x :| x in s;
      ListExists(s - {x});
      var e :| Lists(s - {x}, e);
      assert Lists(s, e + [x]);
    }
  }

  lemma ListedElements<T>(s: set<T>, e: seq<T>)
    requires Lists(s, e)
    ensures Elements(e) == s && |e| == |s|
  {
    assert forall x :: x in e <==> x in multiset(e);
    assert |multiset(e)| == |multiset(s)|;
  }

  lemma ListedOnce<T>(s: set<T>, e: seq<T>, i: nat, j: nat)
    requires Lists(s, e) && i < j < |e|
    ensures e[i] != e[j]
  {
    var before := e[..j];
    assert e == before + [e[j]] + e[j + 1..];
    assert multiset(e)[e[j]] <= 1;
    assert multiset(before)[e[j]] == 0;
    assert before[i] in multiset(before);
  }

  lemma {:induction false} DistinctOnce<T>(s: seq<T>, x: T)
    requires Distinct(s)
    ensures multiset(s)[x] == if x in s then 1 else 0
  {
    if s != [] {
      var n := |s| - 1;
      DistinctOnce(s[..n], x);
      assert s == s[..n] + [s[n]];
    }
  }

  lemma ListsElements<T>(s: seq<T>)
    requires Distinct(s)
    ensures Lists(Elements(s), s)
  {
    forall x
      ensures multiset(s)[x] == multiset(Elements(s))[x]
    {
      DistinctOnce(s, x);
    }
  }

  // ---------- Map values ----------

  ghost predicate Injective<K, V>(m: map<K, V>) {
    forall k, l | k in m && l in m && m[k] == m[l] :: k == l
  }

  /** Every value once, when no value has two keys. */
  method MapValues<K(==), V(==)>(m: map<K, V>) returns (s: seq<V>)
    requires Injective(m)
    ensures Lists(m.Values, s)
  {
    s := [];
    var rest := m;
    while rest.Keys != {}
      invariant Injective(rest)
      invariant multiset(s) + multiset(rest.Values) == multiset(m.Values)
      decreases |rest|
    {
      var k :| k in rest.Keys;
      SplitValue(rest, k);
      s := s + [rest[k]];
      rest := rest - {k};
    }
    assert rest.Values == {};
  }

  lemma SplitValue<K, V>(m: map<K, V>, k: K)
    requires k in m && Injective(m)
    ensures m[k] !in (m - {k}).Values && m.Values == (m - {k}).Values + {m[k]}
  {
    var rest := m - {k};
    var all := rest.Values + {m[k]};
    forall v | v in m.Values
      ensures v in all
    {
      var l :| l in m && m[l] == v;
      assert l != k ==> l in rest && rest[l] == v;
    }
    assert all <= m.Values <= all;
  }

  lemma {:induction false} ValuesCount<K, V>(m: map<K, V>)
    requires Injective(m)
    ensures |m.Values| == |m|
    decreases |m|
  {
    if k :| k in m {
      SplitValue(m, k);
      ValuesCount(m - {k});
    } else {
      assert m.Values == {};
    }
  }

  lemma AddLater<K, V>(m: map<K, V>, n: map<K, V>, k: K, v: V)
    ensures m + n[k := v] == (m + n)[k := v]
  {
  }

  lemma PutTwice<K, V>(m: map<K, V>, k: K, u: V, v: V)
    ensures m[k := u][k := v] == m[k := v]
  {
  }

  // ---------- Sums ----------

  ghost function SumOf<K>(m: map<K, nat>): nat {
    if m == map[] then 0
    else
      var k :| k in m;
      m[k] + SumOf(m - {k})
  }

  lemma {:induction false} SumOfRemove<K>(m: map<K, nat>, k: K)
    requires k in m
    ensures SumOf(m) == m[k] + SumOf(m - {k})
    decreases |m|
  {
    var p :| p in m && SumOf(m) == m[p] + SumOf(m - {p});
    if p != k {
      SumOfRemove(m - {p}, k);
      SumOfRemove(m - {k}, p);
      assert m - {p} - {k} == m - {k} - {p};
    }
  }

  lemma SumOfPut<K>(m: map<K, nat>, k: K, v: nat)
    ensures SumOf(m[k := v]) + (if k in m then m[k] else 0) == SumOf(m) + v
  {
    var n := m[k := v];
    SumOfRemove(n, k);
    assert n - {k} == m - {k};
    if k in m {
      SumOfRemove(m, k);
    } else {
      assert m - {k} == m;
    }
  }

  lemma SumOfUpdate<K>(m: map<K, nat>, k: K, extra: nat)
    ensures SumOf(m[k := (if k in m then m[k] else 0) + extra]) == SumOf(m) + extra
  {
    SumOfPut(m, k, (if k in m then m[k] else 0) + extra);
  }
}

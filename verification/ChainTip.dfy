/** The choice between competing chain tips. */
module ChainTip {
  import opened Canonical
  import opened Collections

  datatype Tip = Tip(work: int, hash: Bytes)

  /** More work wins; on the unlaunched main network the lower header hash breaks a tie. */
  predicate Prefers(mainNetwork: bool, candidate: Tip, tip: Tip) {
    candidate.work > tip.work || (mainNetwork && candidate.work == tip.work && Before(candidate.hash, tip.hash))
  }

  /** The tip a node holds after seeing candidates in this order. */
  function Settled(mainNetwork: bool, first: Tip, seen: seq<Tip>): Tip {
    if seen == [] then first
    else
      var tip := Settled(mainNetwork, first, seen[..|seen| - 1]);
      if Prefers(mainNetwork, seen[|seen| - 1], tip) then seen[|seen| - 1] else tip
  }

  /** On the main network nothing that was seen is preferred to the tip. */
  lemma {:induction false} SettledIsBest(first: Tip, seen: seq<Tip>)
    ensures Settled(true, first, seen) == first || Settled(true, first, seen) in seen
    ensures !Prefers(true, first, Settled(true, first, seen))
    ensures forall t | t in seen :: !Prefers(true, t, Settled(true, first, seen))
  {
    BeforeIsStrictOrder();
    if seen != [] {
      var n := |seen| - 1;
      SettledIsBest(first, seen[..n]);
      assert seen == seen[..n] + [seen[n]];
    }
  }

  /** Nodes that saw the same candidates, in whatever order and from whatever first tip among them,
      agree on the tip. */
  lemma TipForgetsArrival(a: Tip, b: Tip, x: seq<Tip>, y: seq<Tip>)
    requires forall t :: t == a || t in x <==> t == b || t in y
    ensures Settled(true, a, x) == Settled(true, b, y)
  {
    SettledIsBest(a, x);
    SettledIsBest(b, y);
    BeforeIsStrictOrder();
    var p, q := Settled(true, a, x), Settled(true, b, y);
    assert !Prefers(true, p, q) && !Prefers(true, q, p);
  }

  /** Tip k has the most work of all. On the main network it has the lowest hash among those with as much;
      elsewhere it is the first of them. */
  predicate IsBest(mainNetwork: bool, all: seq<Tip>, k: nat)
    requires k < |all|
  {
    && (forall i | 0 <= i < |all| :: all[i].work <= all[k].work)
    && (if mainNetwork
        then forall i | 0 <= i < |all| && all[i].work == all[k].work :: Compare(all[k].hash, all[i].hash) <= 0
        else forall i | 0 <= i < k :: all[i].work < all[k].work)
  }

  lemma {:induction false} SettledMeans(mainNetwork: bool, first: Tip, seen: seq<Tip>) returns (k: nat)
    ensures k < |[first] + seen| && IsBest(mainNetwork, [first] + seen, k)
    ensures Settled(mainNetwork, first, seen) == ([first] + seen)[k]
  {
    if seen == [] {
      k := 0;
      CompareAntisymmetric(first.hash, first.hash);
    } else {
      var n := |seen| - 1;
      var all := [first] + seen;
      assert all[..n + 1] == [first] + seen[..n];
      k := SettledMeans(mainNetwork, first, seen[..n]);
      NextBest(mainNetwork, all, k);
      hide IsBest, Prefers;
      if Prefers(mainNetwork, seen[n], all[k]) {
        k := n + 1;
      }
    }
  }

  /** The best of all is the last tip if that is preferred to the best of those before it, and else that one. */
  lemma NextBest(mainNetwork: bool, all: seq<Tip>, k: nat)
    requires k < |all| - 1 && IsBest(mainNetwork, all[..|all| - 1], k)
    ensures IsBest(mainNetwork, all, if Prefers(mainNetwork, all[|all| - 1], all[k]) then |all| - 1 else k)
  {
    BeforeIsStrictOrder();
    AtMostIsTotalOrder();
    hide Compare;
    var n := |all| - 1;
    forall i | 0 <= i < n
      ensures all[i].work <= all[k].work
      ensures mainNetwork && all[i].work == all[k].work ==> AtMost(all[k].hash, all[i].hash)
      ensures !mainNetwork && i < k ==> all[i].work < all[k].work
    {
      assert all[..n][i] == all[i] && all[..n][k] == all[k];
    }
    CompareAntisymmetric(all[n].hash, all[n].hash);
    CompareAntisymmetric(all[n].hash, all[k].hash);
    forall i | 0 <= i < n && AtMost(all[n].hash, all[k].hash) && AtMost(all[k].hash, all[i].hash)
      ensures AtMost(all[n].hash, all[i].hash)
    {
    }
  }

  /** Elsewhere the first tip seen keeps a tie, so nodes may disagree. */
  lemma FirstSeenKeepsTies(a: Tip, b: Tip)
    requires a.work == b.work
    ensures Settled(false, a, [b]) == a && Settled(false, b, [a]) == b
  {
    assert [b][..0] == [] && [a][..0] == [];
  }
}

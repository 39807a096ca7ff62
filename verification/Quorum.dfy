/** The replay quorum: a plurality tally whose ties fall to the commitment that was seen first. */
module Quorum {
  import opened Canonical
  import opened Collections

  datatype Outcome = Pass | Slash | Inconclusive

  datatype Tally = Tally(outcome: Outcome, total: nat, top: Option<Bytes>, topCount: nat)

  function Count(votes: seq<Bytes>, c: Bytes): nat {
    if votes == [] then 0
    else Count(votes[..|votes| - 1], c) + if votes[|votes| - 1] == c then 1 else 0
  }

  /** The keys of an insertion-ordered map. */
  function FirstSeen(votes: seq<Bytes>): seq<Bytes> {
    if votes == [] then []
    else
      var keys, v := FirstSeen(votes[..|votes| - 1]), votes[|votes| - 1];
      if v in keys then keys else keys + [v]
  }

  /** The first key with strictly more votes than every earlier one. */
  function Leading(keys: seq<Bytes>, votes: seq<Bytes>): (Option<Bytes>, nat) {
    if keys == [] then (None, 0)
    else
      var (top, n) := Leading(keys[..|keys| - 1], votes);
      var c := keys[|keys| - 1];
      if Count(votes, c) > n then (Some(c), Count(votes, c)) else (top, n)
  }

  function OutcomeOf(claim: Bytes, total: nat, top: Option<Bytes>, topCount: nat, threshold: real, minQuorum: int): Outcome {
    if total < minQuorum || top.None? || (if total > 0 then topCount as real / total as real else 0.0) < threshold
    then Inconclusive
    else if top.value == claim then Pass
    else Slash
  }

  function TallyOf(claim: Bytes, votes: seq<Bytes>, threshold: real, minQuorum: int): Tally {
    var (top, n) := Leading(FirstSeen(votes), votes);
    Tally(OutcomeOf(claim, |votes|, top, n, threshold, minQuorum), |votes|, top, n)
  }

  lemma {:induction false} SeenOnceCounted(votes: seq<Bytes>)
    ensures forall c :: c in FirstSeen(votes) <==> Count(votes, c) > 0
  {
    if votes != [] {
      SeenOnceCounted(votes[..|votes| - 1]);
    }
  }

  method TallyQuorum(claim: Bytes, votes: seq<Bytes>, threshold: real, minQuorum: int) returns (r: Tally)
    ensures r == TallyOf(claim, votes, threshold, minQuorum)
  {
    var total := |votes|;
    var keys: seq<Bytes> := [];
    var counts: map<Bytes, nat> := map[];
    var i := 0;
    while i < total
      invariant i <= total && keys == FirstSeen(votes[..i])
      invariant forall c :: c in counts <==> c in keys
      invariant forall c | c in counts :: counts[c] == Count(votes[..i], c)
    {
      var v := votes[i];
      assert votes[..i + 1][..i] == votes[..i];
      SeenOnceCounted(votes[..i]);
      keys := if v in counts then keys else keys + [v];
      counts := counts[v := (if v in counts then counts[v] else 0) + 1];
      i := i + 1;
    }
    assert votes[..i] == votes;
    var top, topCount := None, 0;
    var k := 0;
    while k < |keys|
      invariant k <= |keys| && (top, topCount) == Leading(keys[..k], votes)
    {
      assert keys[..k + 1][..k] == keys[..k];
      if counts[keys[k]] > topCount {
        top, topCount := Some(keys[k]), counts[keys[k]];
      }
      k := k + 1;
    }
    assert keys[..k] == keys;
    r := Tally(OutcomeOf(claim, total, top, topCount, threshold, minQuorum), total, top, topCount);
  }

  // ---------- Order ----------

  /** The leader has the most votes. */
  lemma {:induction false} LeadingIsMost(keys: seq<Bytes>, votes: seq<Bytes>)
    ensures var (top, n) := Leading(keys, votes);
            && (top.Some? ==> n == Count(votes, top.value) > 0)
            && (top.None? ==> n == 0)
            && forall c | c in keys :: Count(votes, c) <= n
  {
    if keys != [] {
      LeadingIsMost(keys[..|keys| - 1], votes);
      assert keys == keys[..|keys| - 1] + [keys[|keys| - 1]];
    }
  }

  lemma {:induction false} TwoCounts(votes: seq<Bytes>, c: Bytes, d: Bytes)
    requires c != d
    ensures Count(votes, c) + Count(votes, d) <= |votes|
  {
    if votes != [] {
      TwoCounts(votes[..|votes| - 1], c, d);
    }
  }

  lemma {:induction false} CountIsMultiplicity(votes: seq<Bytes>, c: Bytes)
    ensures Count(votes, c) == multiset(votes)[c]
  {
    if votes != [] {
      CountIsMultiplicity(votes[..|votes| - 1], c);
      assert votes == votes[..|votes| - 1] + [votes[|votes| - 1]];
    }
  }

  lemma MostVotes(votes: seq<Bytes>)
    ensures var (top, n) := Leading(FirstSeen(votes), votes);
            && (forall c :: Count(votes, c) <= n)
            && (top.Some? ==> n == Count(votes, top.value) > 0) && (top.None? ==> n == 0)
  {
    LeadingIsMost(FirstSeen(votes), votes);
    SeenOnceCounted(votes);
  }

  /** Above one half, ties cannot decide: the outcome does not depend on the order of the votes. */
  lemma OrderIsIrrelevantAboveHalf(claim: Bytes, a: seq<Bytes>, b: seq<Bytes>, threshold: real, minQuorum: int)
    requires multiset(a) == multiset(b) && threshold > 0.5
    ensures TallyOf(claim, a, threshold, minQuorum).outcome == TallyOf(claim, b, threshold, minQuorum).outcome
    ensures TallyOf(claim, a, threshold, minQuorum).topCount == TallyOf(claim, b, threshold, minQuorum).topCount
  {
    SamePopulation(a, b);
    forall c
      ensures Count(a, c) == Count(b, c)
    {
      CountIsMultiplicity(a, c);
      CountIsMultiplicity(b, c);
    }
    MostVotes(a);
    MostVotes(b);
    var (c, n) := Leading(FirstSeen(a), a);
    var (d, m) := Leading(FirstSeen(b), b);
    assert n == m by {
      if c.Some? {
        assert Count(b, c.value) <= m;
      }
      if d.Some? {
        assert Count(a, d.value) <= n;
      }
    }
    if c.Some? && d.Some? && c != d {
      TwoCounts(a, c.value, d.value);
      AtMostHalf(n, |a|);
    }
  }

  lemma AtMostHalf(n: nat, total: nat)
    requires 2 * n <= total && total > 0
    ensures n as real / total as real <= 0.5
  {
  }

  /** c's share of the votes reaches the threshold. */
  predicate Carries(votes: seq<Bytes>, c: Bytes, threshold: real) {
    votes != [] && multiset(votes)[c] as real >= threshold * |votes| as real
  }

  /** For any threshold above one half: too few votes decide nothing; otherwise the claim passes exactly when its
      own share of the votes reaches the threshold, and is slashed exactly when another commitment's does. */
  lemma OutcomeMeans(claim: Bytes, votes: seq<Bytes>, threshold: real, minQuorum: int)
    requires threshold > 0.5
    ensures var outcome := TallyOf(claim, votes, threshold, minQuorum).outcome;
            && (outcome == Pass <==> |votes| >= minQuorum && Carries(votes, claim, threshold))
            && (outcome == Slash <==>
                  |votes| >= minQuorum && exists c {:trigger Carries(votes, c, threshold)} ::
                    c != claim && Carries(votes, c, threshold))
  {
    hide Leading, FirstSeen, Count, Carries, OutcomeOf;
    var (top, n) := Leading(FirstSeen(votes), votes);
    MostVotes(votes);
    OutcomeOfLeader(claim, votes, top, n, threshold, minQuorum);
    forall c | Carries(votes, c, threshold)
      ensures top == Some(c)
    {
      CarriesLeads(votes, c, threshold);
    }
  }

  lemma OutcomeOfLeader(claim: Bytes, votes: seq<Bytes>, top: Option<Bytes>, n: nat, threshold: real, minQuorum: int)
    requires top.Some? ==> n == Count(votes, top.value) > 0
    ensures OutcomeOf(claim, |votes|, top, n, threshold, minQuorum)
            == if |votes| < minQuorum || top.None? || !Carries(votes, top.value, threshold) then Inconclusive
               else if top.value == claim then Pass else Slash
  {
    if top.Some? {
      assert votes != [];
      CountIsMultiplicity(votes, top.value);
      CarriesShare(votes, top.value, threshold);
      hide Count, Carries;
    }
  }

  lemma CarriesShare(votes: seq<Bytes>, c: Bytes, threshold: real)
    requires votes != []
    ensures Carries(votes, c, threshold) <==> !(multiset(votes)[c] as real / |votes| as real < threshold)
  {
    Reaches(multiset(votes)[c], |votes|, threshold);
  }

  /** More than half of the votes lead. */
  lemma CarriesLeads(votes: seq<Bytes>, c: Bytes, threshold: real)
    requires threshold > 0.5 && Carries(votes, c, threshold)
    ensures Leading(FirstSeen(votes), votes).0 == Some(c)
  {
    hide Leading, FirstSeen, Carries, Count;
    var (top, n) := Leading(FirstSeen(votes), votes);
    MostVotes(votes);
    CountIsMultiplicity(votes, c);
    CarriesHalf(votes, c, threshold);
    if top.Some? && top.value != c {
      TwoCounts(votes, c, top.value);
    }
  }

  lemma CarriesHalf(votes: seq<Bytes>, c: Bytes, threshold: real)
    requires threshold > 0.5 && Carries(votes, c, threshold)
    ensures 2 * multiset(votes)[c] > |votes| > 0
  {
    var all := |votes| as real;
    GrowsWith(0.5, threshold, all);
    hide Carries;
  }

  lemma GrowsWith(a: real, b: real, x: real)
    requires a < b && x > 0.0
    ensures a * x < b * x
  {
    assert (b - a) * x > 0.0;
  }

  lemma Reaches(n: nat, total: nat, threshold: real)
    requires total > 0
    ensures n as real / total as real < threshold <==> (n as real) < threshold * total as real
  {
    var share, all := n as real / total as real, total as real;
    assert n as real == share * all;
    if share < threshold {
      GrowsWith(share, threshold, all);
    } else if threshold < share {
      GrowsWith(threshold, share, all);
    }
  }

  /** a's votes, then as many of b's. */
  function Halves(a: Bytes, b: Bytes, k: nat, j: nat): seq<Bytes> {
    seq(k, _ => a) + seq(j, _ => b)
  }

  /** At one half or below the order decides between pass and slash, however many votes are demanded. */
  lemma OrderDecidesAtHalf(claim: Bytes, other: Bytes, threshold: real, minQuorum: int)
    returns (votes: seq<Bytes>, reordered: seq<Bytes>)
    requires claim != other && threshold <= 0.5
    ensures multiset(votes) == multiset(reordered)
    ensures TallyOf(claim, votes, threshold, minQuorum).outcome == Pass
    ensures TallyOf(claim, reordered, threshold, minQuorum).outcome == Slash
  {
    var k := if minQuorum < 1 then 1 else minQuorum;
    votes, reordered := Halves(claim, other, k, k), Halves(other, claim, k, k);
    assert multiset(votes) == multiset(seq(k, _ => claim)) + multiset(seq(k, _ => other));
    assert multiset(reordered) == multiset(seq(k, _ => other)) + multiset(seq(k, _ => claim));
    FirstLeads(claim, other, k);
    FirstLeads(other, claim, k);
    HalfOf(k);
  }

  lemma HalfOf(k: nat)
    requires k > 0
    ensures k as real / (2 * k) as real == 0.5
  {
  }

  lemma OneMoreVote(votes: seq<Bytes>, v: Bytes)
    ensures forall c :: Count(votes + [v], c) == Count(votes, c) + if v == c then 1 else 0
    ensures FirstSeen(votes + [v]) == if v in FirstSeen(votes) then FirstSeen(votes) else FirstSeen(votes) + [v]
  {
    assert (votes + [v])[..|votes|] == votes;
  }

  lemma HalvesMore(a: Bytes, b: Bytes, k: nat)
    ensures forall j: nat | j > 0 :: Halves(a, b, k, j) == Halves(a, b, k, j - 1) + [b]
    ensures k > 0 ==> Halves(a, b, k, 0) == Halves(a, b, k - 1, 0) + [a]
    ensures Halves(a, b, 0, 0) == []
  {
  }

  lemma {:induction false} HalvesSeen(a: Bytes, b: Bytes, k: nat, j: nat)
    requires a != b
    ensures Count(Halves(a, b, k, j), a) == k && Count(Halves(a, b, k, j), b) == j
    ensures k > 0 ==> FirstSeen(Halves(a, b, k, j)) == if j == 0 then [a] else [a, b]
    ensures k == 0 && j == 0 ==> FirstSeen(Halves(a, b, k, j)) == []
    decreases k + j
  {
    HalvesMore(a, b, k);
    hide Halves, Count, FirstSeen;
    if j > 0 {
      HalvesSeen(a, b, k, j - 1);
      OneMoreVote(Halves(a, b, k, j - 1), b);
    } else if k > 0 {
      HalvesSeen(a, b, k - 1, 0);
      OneMoreVote(Halves(a, b, k - 1, 0), a);
    } else {
      NoVotes(a);
      NoVotes(b);
    }
  }

  lemma NoVotes(c: Bytes)
    ensures Count([], c) == 0 && FirstSeen([]) == []
  {
  }

  /** Of two commitments with equally many votes, the first seen leads. */
  lemma FirstLeads(a: Bytes, b: Bytes, k: nat)
    requires a != b && k > 0
    ensures Leading(FirstSeen(Halves(a, b, k, k)), Halves(a, b, k, k)) == (Some(a), k)
  {
    var votes := Halves(a, b, k, k);
    HalvesSeen(a, b, k, k);
    assert [a, b][..1] == [a] && [a][..0] == [];
    assert Leading([a], votes) == (Some(a), k);
  }
}

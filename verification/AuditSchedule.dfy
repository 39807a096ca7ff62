/** Deterministic audit scheduling: one covered claim per claimant, and an independent committee each. */
module AuditSchedule {
  import opened Canonical
  import opened Collections
  import Audit

  datatype Claim = Claim(claimId: Bytes, claimantId: Bytes, commitment: Bytes, blockHeight: int)
  datatype Validator = Validator(validatorId: Bytes, bondedStake: int, active: bool)
  datatype Window = Window(index: int, startHeight: int, endHeight: int, beaconHeight: int)

  datatype Policy = Policy(
    windowSize: int, beaconDelay: int, committeeSize: int, minimumBond: int, extraProbability: real)

  datatype Reason = Coverage | RandomSample
  datatype Assignment = Assignment(
    windowIndex: int, claim: Claim, beaconHeight: int, beaconHash: Bytes, committee: seq<Bytes>, reason: Reason)
  datatype Schedule = Schedule(window: Window, assignments: seq<Assignment>, uncovered: seq<Bytes>)

  /** The beacon block and the draws it seeds: a rank of claims per claimant, a rank of validators per
      commitment, and a number per commitment. */
  datatype Beacon = Beacon(
    height: int, hash: Bytes,
    claimRank: (Bytes, Bytes) -> Bytes,
    validatorRank: (Bytes, Bytes) -> Bytes,
    draw: Bytes -> real)

  predicate PolicyOk(p: Policy) {
    p.windowSize > 0 && p.beaconDelay > 0 && p.committeeSize > 0 && p.minimumBond >= 0 && 0.0 <= p.extraProbability <= 1.0
  }

  // ---------- Windows ----------

  function AuditWindow(p: Policy, index: int): Option<Window> {
    if !PolicyOk(p) || index < 0 then None
    else
      var start := index * p.windowSize + 1;
      var end := start + p.windowSize - 1;
      Some(Window(index, start, end, end + p.beaconDelay))
  }

  predicate Contains(w: Window, height: int) {
    w.startHeight <= height <= w.endHeight
  }

  /** Every height after genesis lies in exactly one window, and its beacon comes later. */
  lemma WindowsPartition(p: Policy, height: int) returns (index: nat)
    requires PolicyOk(p) && height >= 1
    ensures Contains(AuditWindow(p, index).value, height) && height < AuditWindow(p, index).value.beaconHeight
    ensures forall k {:trigger AuditWindow(p, k)} | k >= 0 && Contains(AuditWindow(p, k).value, height) :: k == index
  {
    index := (height - 1) / p.windowSize;
    Quotient(height - 1, p.windowSize, index);
    forall k | k >= 0 && Contains(AuditWindow(p, k).value, height)
      ensures k == index
    {
      SameQuotient(height - 1, p.windowSize, index, k);
    }
  }

  lemma Quotient(n: nat, d: nat, q: nat)
    requires d > 0 && q == n / d
    ensures q * d <= n < q * d + d
  {
  }

  lemma SameQuotient(n: nat, d: nat, q: nat, k: nat)
    requires q * d <= n < q * d + d && k * d <= n < k * d + d
    ensures q == k
  {
    if q < k {
      Larger(q + 1, k, d);
    } else if k < q {
      Larger(k + 1, q, d);
    }
  }

  lemma Larger(a: nat, b: nat, d: nat)
    requires a <= b
    ensures a * d <= b * d
  {
  }

  // ---------- Ranking by draw ----------

  /** By digest, ties by the ranked name itself. */
  predicate RankBefore(rank: Bytes -> Bytes, a: Bytes, b: Bytes) {
    Before(rank(a), rank(b)) || (rank(a) == rank(b) && AtMost(a, b))
  }

  lemma RankIsTotalOrder(rank: Bytes -> Bytes)
    ensures forall a, b :: RankBefore(rank, a, b) || RankBefore(rank, b, a)
    ensures forall a, b :: RankBefore(rank, a, b) && RankBefore(rank, b, a) ==> a == b
    ensures forall a, b, c :: RankBefore(rank, a, b) && RankBefore(rank, b, c) ==> RankBefore(rank, a, c)
  {
    AtMostIsTotalOrder();
    BeforeIsStrictOrder();
  }

  function ByRank(rank: Bytes -> Bytes): (Bytes, Bytes) -> bool {
    (a, b) => RankBefore(rank, a, b)
  }

  function ClaimsByRank(rank: Bytes -> Bytes): (Claim, Claim) -> bool {
    (a: Claim, b: Claim) => RankBefore(rank, a.claimId, b.claimId)
  }

  function RankOfClaims(beacon: Beacon, claimant: Bytes): Bytes -> Bytes {
    id => beacon.claimRank(claimant, id)
  }

  function RankOfValidators(beacon: Beacon, commitment: Bytes): Bytes -> Bytes {
    id => beacon.validatorRank(commitment, id)
  }

  // ---------- What a schedule must be ----------

  /** The inputs as sets: nothing below depends on the order in which they were listed. */
  datatype Round = Round(window: Window, beacon: Beacon, policy: Policy, claims: set<Claim>, validators: set<Validator>)

  ghost predicate IdsDiffer(r: Round) {
    && (forall c, d | c in r.claims && d in r.claims && c.claimId == d.claimId :: c == d)
    && (forall v, u | v in r.validators && u in r.validators && v.validatorId == u.validatorId :: v == u)
  }

  predicate InRound(r: Round, c: Claim) {
    c in r.claims && Contains(r.window, c.blockHeight)
  }

  /** The claimant's best-ranked claim in the window. */
  ghost predicate IsCoverage(r: Round, c: Claim) {
    && InRound(r, c)
    && forall d | InRound(r, d) && d.claimantId == c.claimantId ::
         RankBefore(RankOfClaims(r.beacon, c.claimantId), c.claimId, d.claimId)
  }

  ghost predicate IsSelected(r: Round, c: Claim) {
    InRound(r, c) && (IsCoverage(r, c) || r.beacon.draw(c.commitment) < r.policy.extraProbability)
  }

  predicate Eligible(policy: Policy, claim: Claim, v: Validator) {
    v.active && v.bondedStake >= policy.minimumBond && v.validatorId != claim.claimantId
  }

  ghost function EligibleIds(r: Round, c: Claim): set<Bytes> {
    set v | v in r.validators && Eligible(r.policy, c, v) :: v.validatorId
  }

  function Prefix<T>(s: seq<T>, n: int): seq<T> {
    if 0 <= n <= |s| then s[..n] else s
  }

  /** The best-ranked eligible validators, at most committeeSize of them. */
  ghost function CommitteeOf(r: Round, c: Claim): seq<Bytes> {
    ListExists(EligibleIds(r, c));
    var ids :| Lists(EligibleIds(r, c), ids);
    Prefix(Sort(ByRank(RankOfValidators(r.beacon, c.commitment)), ids), r.policy.committeeSize)
  }

  ghost predicate IsStaffed(r: Round, c: Claim) {
    |CommitteeOf(r, c)| >= r.policy.committeeSize
  }

  ghost function AssignmentOf(r: Round, c: Claim): Assignment {
    Assignment(r.window.index, c, r.beacon.height, Audit.Lower(r.beacon.hash), CommitteeOf(r, c),
               if IsCoverage(r, c) then Coverage else RandomSample)
  }

  ghost predicate Assigned(r: Round, a: Assignment) {
    IsSelected(r, a.claim) && IsStaffed(r, a.claim) && a == AssignmentOf(r, a.claim)
  }

  ghost predicate Uncovered(r: Round, claimant: Bytes) {
    exists c :: IsCoverage(r, c) && !IsStaffed(r, c) && c.claimantId == claimant
  }

  predicate ByClaim(a: Assignment, b: Assignment) {
    AtMost(a.claim.claimId, b.claim.claimId)
  }

  ghost predicate IsSchedule(r: Round, s: Schedule) {
    && s.window == r.window
    && SortedBy(ByClaim, s.assignments) && Distinct(s.assignments)
    && (forall a :: a in s.assignments <==> Assigned(r, a))
    && SortedBy(AtMostUnits, s.uncovered) && Distinct(s.uncovered)
    && (forall id :: id in s.uncovered <==> Uncovered(r, id))
  }

  /** One round has one schedule: in whatever order claims and validators arrived. */
  lemma ScheduleUnique(r: Round, a: Schedule, b: Schedule)
    requires IdsDiffer(r) && IsSchedule(r, a) && IsSchedule(r, b)
    ensures a == b
  {
    AtMostIsTotalOrder();
    DistinctListing(a.assignments, b.assignments);
    DistinctListing(a.uncovered, b.uncovered);
    forall x, y | x in Elements(a.assignments) && y in Elements(a.assignments) && x.claim.claimId == y.claim.claimId
      ensures x == y
    {
      assert Assigned(r, x) && Assigned(r, y);
    }
    SortedUnique(ByClaim, a.assignments, b.assignments);
    UnitsOrder(Elements(a.uncovered));
    SortedUnique(AtMostUnits, a.uncovered, b.uncovered);
  }

  /** Lists without repeats and with the same elements are the same population. */
  lemma DistinctListing<T>(a: seq<T>, b: seq<T>)
    requires Distinct(a) && Distinct(b) && forall x :: x in a <==> x in b
    ensures multiset(a) == multiset(b) && Elements(a) == Elements(b)
  {
    assert Elements(a) == Elements(b);
    ListsElements(a);
    ListsElements(b);
  }

  // ---------- What a schedule guarantees ----------

  lemma CommitteeFacts(r: Round, c: Claim)
    ensures Distinct(CommitteeOf(r, c)) && forall id | id in CommitteeOf(r, c) :: id in EligibleIds(r, c)
    ensures forall id, other | id in CommitteeOf(r, c) && other in EligibleIds(r, c) && other !in CommitteeOf(r, c) ::
              RankBefore(RankOfValidators(r.beacon, c.commitment), id, other)
    ensures r.policy.committeeSize >= 0 ==>
              |CommitteeOf(r, c)| == if |EligibleIds(r, c)| >= r.policy.committeeSize then r.policy.committeeSize
                                     else |EligibleIds(r, c)|
  {
    var rank := RankOfValidators(r.beacon, c.commitment);
    ListExists(EligibleIds(r, c));
    var ids :| Lists(EligibleIds(r, c), ids)
      && CommitteeOf(r, c) == Prefix(Sort(ByRank(rank), ids), r.policy.committeeSize);
    SortedRanking(rank, EligibleIds(r, c), ids);
    PrefixRanked(rank, Sort(ByRank(rank), ids), r.policy.committeeSize);
  }

  lemma SortedRanking(rank: Bytes -> Bytes, all: set<Bytes>, ids: seq<Bytes>)
    requires Lists(all, ids)
    ensures var sorted := Sort(ByRank(rank), ids);
            && SortedBy(ByRank(rank), sorted) && Distinct(sorted) && Elements(sorted) == all && |sorted| == |all|
  {
    var sorted := Sort(ByRank(rank), ids);
    RankIsTotalOrder(rank);
    SortPermutes(ByRank(rank), ids);
    SortSorts(ByRank(rank), ids);
    assert Lists(all, sorted);
    ListedElements(all, sorted);
    forall i, j | 0 <= i < j < |sorted|
      ensures sorted[i] != sorted[j]
    {
      ListedOnce(all, sorted, i, j);
    }
  }

  lemma PrefixRanked(rank: Bytes -> Bytes, sorted: seq<Bytes>, n: int)
    requires SortedBy(ByRank(rank), sorted) && Distinct(sorted)
    ensures Distinct(Prefix(sorted, n)) && forall id | id in Prefix(sorted, n) :: id in sorted
    ensures forall id, other | id in Prefix(sorted, n) && other in sorted && other !in Prefix(sorted, n) ::
              RankBefore(rank, id, other)
  {
    forall id, other | id in Prefix(sorted, n) && other in sorted && other !in Prefix(sorted, n)
      ensures RankBefore(rank, id, other)
    {
      var i :| 0 <= i < |Prefix(sorted, n)| && Prefix(sorted, n)[i] == id;
      var j :| 0 <= j < |sorted| && sorted[j] == other;
      assert ByRank(rank)(sorted[i], sorted[j]);
    }
  }

  /** Drawn earlier: the smaller digest, or for equal digests the name that does not come later. */
  predicate DrawnFirst(rankA: Bytes, rankB: Bytes, a: Bytes, b: Bytes) {
    Compare(rankA, rankB) < 0 || (rankA == rankB && Compare(a, b) <= 0)
  }

  /** Every committee has exactly committeeSize different members, in the order of their draw for the claim's
      commitment; each is an active validator with the minimum bond, none is the claimant; and no other active,
      sufficiently bonded validator was drawn before a member. */
  lemma CommitteesAreIndependent(r: Round, s: Schedule, a: Assignment)
    requires IsSchedule(r, s) && PolicyOk(r.policy) && a in s.assignments
    ensures |a.committee| == r.policy.committeeSize
    ensures forall i, j | 0 <= i < j < |a.committee| :: a.committee[i] != a.committee[j]
    ensures forall id | id in a.committee ::
              exists v :: v in r.validators && v.validatorId == id && v.active && v.bondedStake >= r.policy.minimumBond
    ensures a.claim.claimantId !in a.committee
    ensures forall i, j | 0 <= i < j < |a.committee| ::
              DrawnFirst(r.beacon.validatorRank(a.claim.commitment, a.committee[i]),
                         r.beacon.validatorRank(a.claim.commitment, a.committee[j]), a.committee[i], a.committee[j])
    ensures forall id, v | id in a.committee && v in r.validators && v.active && v.bondedStake >= r.policy.minimumBond
                           && v.validatorId != a.claim.claimantId && v.validatorId !in a.committee ::
              DrawnFirst(r.beacon.validatorRank(a.claim.commitment, id),
                         r.beacon.validatorRank(a.claim.commitment, v.validatorId), id, v.validatorId)
    ensures a.windowIndex == r.window.index && a.beaconHeight == r.beacon.height
    ensures a.beaconHash == Audit.Lower(r.beacon.hash)
  {
    assert Assigned(r, a);
    CommitteeFacts(r, a.claim);
    CommitteeOrder(r, a.claim);
    forall id, v | id in a.committee && v in r.validators && v.active && v.bondedStake >= r.policy.minimumBond
                   && v.validatorId != a.claim.claimantId && v.validatorId !in a.committee
      ensures RankBefore(RankOfValidators(r.beacon, a.claim.commitment), id, v.validatorId)
    {
      assert Eligible(r.policy, a.claim, v);
      assert v.validatorId in EligibleIds(r, a.claim);
    }
  }

  lemma CommitteeOrder(r: Round, c: Claim)
    ensures SortedBy(ByRank(RankOfValidators(r.beacon, c.commitment)), CommitteeOf(r, c))
  {
    var rank := RankOfValidators(r.beacon, c.commitment);
    ListExists(EligibleIds(r, c));
    var ids :| Lists(EligibleIds(r, c), ids)
      && CommitteeOf(r, c) == Prefix(Sort(ByRank(rank), ids), r.policy.committeeSize);
    SortedRanking(rank, EligibleIds(r, c), ids);
    hide ByRank, Sort, EligibleIds, Distinct;
    PrefixSorted(ByRank(rank), Sort(ByRank(rank), ids), r.policy.committeeSize);
  }

  lemma PrefixSorted<T>(le: (T, T) -> bool, s: seq<T>, n: int)
    requires SortedBy(le, s)
    ensures SortedBy(le, Prefix(s, n))
  {
  }

  /** In the window, by height. */
  predicate Within(r: Round, c: Claim) {
    c in r.claims && r.window.startHeight <= c.blockHeight <= r.window.endHeight
  }

  /** The claimant's first drawn claim of the window. */
  ghost predicate FirstDrawn(r: Round, c: Claim) {
    forall d | Within(r, d) && d.claimantId == c.claimantId ::
      DrawnFirst(r.beacon.claimRank(c.claimantId, c.claimId), r.beacon.claimRank(c.claimantId, d.claimId), c.claimId, d.claimId)
  }

  ghost function Auditors(r: Round, c: Claim): set<Bytes> {
    set v | v in r.validators && v.active && v.bondedStake >= r.policy.minimumBond && v.validatorId != c.claimantId
      :: v.validatorId
  }

  /** Exactly these claims are audited: those of the window that were drawn first for their claimant or fell
      under the extra probability, where enough validators can audit them; the first drawn as coverage, the
      others as samples. A claimant is uncovered exactly when its first drawn claim lacks auditors. */
  lemma AuditedExactly(r: Round, s: Schedule, c: Claim)
    requires IsSchedule(r, s) && PolicyOk(r.policy)
    ensures (exists a :: a in s.assignments && a.claim == c)
            <==> Within(r, c) && (FirstDrawn(r, c) || r.beacon.draw(c.commitment) < r.policy.extraProbability)
                 && |Auditors(r, c)| >= r.policy.committeeSize
    ensures forall a | a in s.assignments && a.claim == c :: a.reason == if FirstDrawn(r, c) then Coverage else RandomSample
    ensures Within(r, c) && FirstDrawn(r, c) && |Auditors(r, c)| < r.policy.committeeSize ==> c.claimantId in s.uncovered
  {
    DrawnMeans(r, c);
    CommitteeFacts(r, c);
    assert Auditors(r, c) == EligibleIds(r, c);
    hide IsCoverage, FirstDrawn, CommitteeOf, Auditors, EligibleIds;
    if IsSelected(r, c) && IsStaffed(r, c) {
      assert Assigned(r, AssignmentOf(r, c));
      assert AssignmentOf(r, c) in s.assignments && AssignmentOf(r, c).claim == c;
    }
    forall a | a in s.assignments && a.claim == c
      ensures IsSelected(r, c) && IsStaffed(r, c) && a == AssignmentOf(r, c)
    {
      assert Assigned(r, a);
    }
    if IsCoverage(r, c) && !IsStaffed(r, c) {
      assert Uncovered(r, c.claimantId);
    }
  }

  lemma DrawnMeans(r: Round, c: Claim)
    ensures InRound(r, c) <==> Within(r, c)
    ensures IsCoverage(r, c) <==> Within(r, c) && FirstDrawn(r, c)
  {
    forall d
      ensures InRound(r, d) <==> Within(r, d)
      ensures RankBefore(RankOfClaims(r.beacon, c.claimantId), c.claimId, d.claimId)
              <==> DrawnFirst(r.beacon.claimRank(c.claimantId, c.claimId), r.beacon.claimRank(c.claimantId, d.claimId),
                              c.claimId, d.claimId)
    {
    }
  }

  /** The best-ranked claim of every claimant exists and is unique. */
  lemma CoverageExists(r: Round, c: Claim) returns (best: Claim)
    requires IdsDiffer(r) && InRound(r, c)
    ensures IsCoverage(r, best) && best.claimantId == c.claimantId
    ensures forall d | IsCoverage(r, d) && d.claimantId == c.claimantId :: d == best
  {
    var rank := RankOfClaims(r.beacon, c.claimantId);
    var group := set d | d in r.claims && InRound(r, d) && d.claimantId == c.claimantId;
    best := LeastRanked(rank, group, c);
    RankIsTotalOrder(rank);
  }

  lemma {:induction false} LeastRanked(rank: Bytes -> Bytes, group: set<Claim>, c: Claim) returns (best: Claim)
    requires c in group
    ensures best in group && forall d | d in group :: RankBefore(rank, best.claimId, d.claimId)
    decreases |group|
  {
    RankIsTotalOrder(rank);
    if d :| d in group && d != c {
      best := LeastRanked(rank, group - {c}, d);
      if RankBefore(rank, c.claimId, best.claimId) {
        best := c;
      }
    } else {
      best := c;
    }
  }

  /** The coverage floor: every claimant of the window has exactly one coverage assignment, or is
      listed as uncovered; never both. */
  lemma CoverageFloor(r: Round, s: Schedule, c: Claim)
    requires IdsDiffer(r) && IsSchedule(r, s) && InRound(r, c)
    ensures var covered := exists a :: a in s.assignments && a.reason == Coverage && a.claim.claimantId == c.claimantId;
            covered <==> c.claimantId !in s.uncovered
    ensures forall a, b | a in s.assignments && b in s.assignments && a.reason == b.reason == Coverage
                          && a.claim.claimantId == b.claim.claimantId == c.claimantId :: a == b
  {
    var best := CoverageExists(r, c);
    forall a | a in s.assignments && a.reason == Coverage && a.claim.claimantId == c.claimantId
      ensures a == AssignmentOf(r, best) && IsStaffed(r, best)
    {
      assert Assigned(r, a) && IsCoverage(r, a.claim);
    }
    if IsStaffed(r, best) {
      assert Assigned(r, AssignmentOf(r, best));
      assert AssignmentOf(r, best) in s.assignments;
      assert !Uncovered(r, c.claimantId);
    } else {
      assert Uncovered(r, c.claimantId);
    }
  }

  /** The schedules of two windows never audit one claim. */
  lemma AuditedInOneWindow(p: Policy, r: Round, q: Round, s: Schedule, t: Schedule, a: Assignment, b: Assignment)
    requires IsSchedule(r, s) && IsSchedule(q, t) && a in s.assignments && b in t.assignments && a.claim == b.claim
    requires AuditWindow(p, r.window.index) == Some(r.window) && AuditWindow(p, q.window.index) == Some(q.window)
    ensures r.window == q.window
  {
    hide Assigned, CommitteeOf, AuditWindow, Distinct, SortedBy, Uncovered;
    assert Assigned(r, a) && Assigned(q, b);
    AssignedInWindow(r, a);
    AssignedInWindow(q, b);
    OneWindow(p, r.window, q.window, a.claim.blockHeight);
  }

  lemma AssignedInWindow(r: Round, a: Assignment)
    requires Assigned(r, a)
    ensures Contains(r.window, a.claim.blockHeight)
  {
    hide IsCoverage, IsStaffed, AssignmentOf;
  }

  lemma OneWindow(p: Policy, w: Window, v: Window, height: int)
    requires AuditWindow(p, w.index) == Some(w) && AuditWindow(p, v.index) == Some(v)
    requires Contains(w, height) && Contains(v, height)
    ensures w == v
  {
    Products(w.index, p.windowSize);
    SameQuotient(height - 1, p.windowSize, w.index, v.index);
  }

  lemma Products(index: nat, size: nat)
    ensures index * size >= 0
  {
  }

  // ---------- Building it ----------

  function ClaimIds(claims: seq<Claim>): (r: seq<Bytes>)
    ensures |r| == |claims| && forall i | 0 <= i < |r| :: r[i] == claims[i].claimId
  {
    seq(|claims|, i requires 0 <= i < |claims| => claims[i].claimId)
  }

  function ValidatorIds(validators: seq<Validator>): (r: seq<Bytes>)
    ensures |r| == |validators| && forall i | 0 <= i < |r| :: r[i] == validators[i].validatorId
  {
    seq(|validators|, i requires 0 <= i < |validators| => validators[i].validatorId)
  }

  predicate IdsOk(ids: seq<Bytes>) {
    Distinct(ids) && [] !in ids
  }

  method CheckIds(ids: seq<Bytes>) returns (ok: bool)
    ensures ok <==> IdsOk(ids)
  {
    var seen: set<Bytes> := {};
    var i := 0;
    while i < |ids|
      invariant i <= |ids| && seen == Elements(ids[..i]) && IdsOk(ids[..i])
    {
      if ids[i] == [] || ids[i] in seen {
        assert ids[i] in seen ==> exists k :: 0 <= k < i && ids[k] == ids[i];
        return false;
      }
      assert ids[..i + 1] == ids[..i] + [ids[i]];
      seen := seen + {ids[i]};
      i := i + 1;
    }
    assert ids[..i] == ids;
    ok := true;
  }

  method InWindow(r: Window, claims: seq<Claim>) returns (found: seq<Claim>)
    ensures forall c :: c in found <==> c in claims && Contains(r, c.blockHeight)
  {
    found := [];
    var i := 0;
    while i < |claims|
      invariant i <= |claims| && forall c :: c in found <==> c in claims[..i] && Contains(r, c.blockHeight)
    {
      assert claims[..i + 1] == claims[..i] + [claims[i]];
      if claims[i].blockHeight >= r.startHeight && claims[i].blockHeight <= r.endHeight {
        found := found + [claims[i]];
      }
      i := i + 1;
    }
    assert claims[..i] == claims;
  }

  ghost predicate IsGroup(claims: seq<Claim>, claimant: Bytes, group: seq<Claim>) {
    forall c :: c in group <==> c in claims && c.claimantId == claimant
  }

  function Claimants(claims: seq<Claim>): set<Bytes> {
    set c | c in claims :: c.claimantId
  }

  method GroupByClaimant(claims: seq<Claim>) returns (groups: map<Bytes, seq<Claim>>)
    ensures groups.Keys == Claimants(claims)
    ensures forall k | k in groups :: IsGroup(claims, k, groups[k])
  {
    groups := map[];
    var i := 0;
    while i < |claims|
      invariant i <= |claims| && groups.Keys == Claimants(claims[..i])
      invariant forall k | k in groups :: IsGroup(claims[..i], k, groups[k])
    {
      var c := claims[i];
      assert claims[..i + 1] == claims[..i] + [c];
      var group := if c.claimantId in groups then groups[c.claimantId] else [];
      assert IsGroup(claims[..i], c.claimantId, group);
      groups := groups[c.claimantId := group + [c]];
      i := i + 1;
    }
    assert claims[..i] == claims;
  }

  ghost predicate IsWindow(r: Round, inWindow: seq<Claim>) {
    forall c :: c in inWindow <==> InRound(r, c)
  }

  /** The best-ranked claim of one group. */
  method CoverageOf(ghost r: Round, ghost inWindow: seq<Claim>, beacon: Beacon, claimant: Bytes, group: seq<Claim>)
    returns (best: Claim)
    requires IdsDiffer(r) && beacon == r.beacon && claimant in Claimants(inWindow)
    requires IsWindow(r, inWindow) && IsGroup(inWindow, claimant, group)
    ensures IsCoverage(r, best) && best.claimantId == claimant
  {
    var rank := RankOfClaims(beacon, claimant);
    var ranked := Sort(ClaimsByRank(rank), group);
    RankIsTotalOrder(rank);
    SortPermutes(ClaimsByRank(rank), group);
    assert exists c :: c in inWindow && c.claimantId == claimant && c in group;
    assert Orders(ClaimsByRank(rank), Elements(group));
    SortSorts(ClaimsByRank(rank), group);
    best := ranked[0];
    assert best in Elements(ranked);
    forall d | InRound(r, d) && d.claimantId == claimant
      ensures RankBefore(rank, best.claimId, d.claimId)
    {
      assert d in Elements(ranked);
      var k :| 0 <= k < |ranked| && ranked[k] == d;
      assert k > 0 ==> ClaimsByRank(rank)(ranked[0], ranked[k]);
    }
  }

  /** The selected claims by id, each with its reason. */
  ghost predicate Selects(r: Round, selected: map<Bytes, (Claim, Reason)>) {
    && (forall id | id in selected :: selected[id].0.claimId == id && IsSelected(r, selected[id].0)
          && selected[id].1 == if IsCoverage(r, selected[id].0) then Coverage else RandomSample)
  }

  lemma SelectsPut(r: Round, selected: map<Bytes, (Claim, Reason)>, c: Claim, reason: Reason)
    requires Selects(r, selected) && IsSelected(r, c) && reason == if IsCoverage(r, c) then Coverage else RandomSample
    ensures Selects(r, selected[c.claimId := (c, reason)])
  {
  }

  method SelectCoverage(ghost r: Round, beacon: Beacon, inWindow: seq<Claim>)
    returns (selected: map<Bytes, (Claim, Reason)>)
    requires IdsDiffer(r) && beacon == r.beacon && IsWindow(r, inWindow)
    ensures Selects(r, selected) && forall c | IsCoverage(r, c) :: c.claimId in selected
  {
    var groups := GroupByClaimant(inWindow);
    selected := map[];
    var rest := groups.Keys;
    while rest != {}
      invariant rest <= groups.Keys && Selects(r, selected)
      invariant forall c | IsCoverage(r, c) && c.claimantId !in rest :: c.claimId in selected
      decreases |rest|
    {
      hide Selects, IsSelected, IsCoverage, IsGroup, IsWindow, Claimants;
      var claimant :| claimant in rest;
      var best := CoverageOf(r, inWindow, beacon, claimant, groups[claimant]);
      OneCoverage(r, best);
      SelectsPut(r, selected, best, Coverage);
      selected := selected[best.claimId := (best, Coverage)];
      rest := rest - {claimant};
    }
    forall c | IsCoverage(r, c)
      ensures c.claimantId in Claimants(inWindow)
    {
      assert c in inWindow;
    }
  }

  lemma OneCoverage(r: Round, best: Claim)
    requires IdsDiffer(r) && IsCoverage(r, best)
    ensures IsSelected(r, best)
    ensures forall c | IsCoverage(r, c) && c.claimantId == best.claimantId :: c == best
  {
    RankIsTotalOrder(RankOfClaims(r.beacon, best.claimantId));
  }

  method SelectClaims(ghost r: Round, beacon: Beacon, policy: Policy, inWindow: seq<Claim>)
    returns (selected: map<Bytes, (Claim, Reason)>)
    requires IdsDiffer(r) && beacon == r.beacon && policy == r.policy
    requires IsWindow(r, inWindow)
    ensures Selects(r, selected) && forall c | IsSelected(r, c) :: c.claimId in selected
  {
    selected := SelectCoverage(r, beacon, inWindow);
    var i := 0;
    while i < |inWindow|
      invariant i <= |inWindow| && Selects(r, selected)
      invariant forall c | IsCoverage(r, c) :: c.claimId in selected
      invariant Caught(r, inWindow[..i], selected)
    {
      hide Selects, IsCoverage, Caught, IsWindow;
      var c := inWindow[i];
      CaughtNext(r, policy, inWindow, i, selected);
      if c.claimId !in selected && beacon.draw(c.commitment) < policy.extraProbability {
        SelectsPut(r, selected, c, RandomSample);
        selected := selected[c.claimId := (c, RandomSample)];
      }
      i := i + 1;
    }
    assert inWindow[..i] == inWindow;
  }

  ghost predicate Caught(r: Round, some: seq<Claim>, selected: map<Bytes, (Claim, Reason)>) {
    forall c | c in some && IsSelected(r, c) :: c.claimId in selected
  }

  lemma CaughtNext(r: Round, policy: Policy, inWindow: seq<Claim>, i: nat, selected: map<Bytes, (Claim, Reason)>)
    requires i < |inWindow| && IsWindow(r, inWindow) && policy == r.policy
    requires Caught(r, inWindow[..i], selected) && forall c | IsCoverage(r, c) :: c.claimId in selected
    ensures InRound(r, inWindow[i])
    ensures var c := inWindow[i];
            if c.claimId !in selected && r.beacon.draw(c.commitment) < policy.extraProbability
            then Caught(r, inWindow[..i + 1], selected[c.claimId := (c, RandomSample)]) && IsSelected(r, c) && !IsCoverage(r, c)
            else Caught(r, inWindow[..i + 1], selected)
  {
    hide IsCoverage;
    var c := inWindow[i];
    assert inWindow[..i + 1] == inWindow[..i] + [c] && c in inWindow;
  }

  method SelectCommittee(ghost r: Round, beacon: Beacon, policy: Policy, claim: Claim, validators: seq<Validator>)
    returns (committee: seq<Bytes>)
    requires IdsDiffer(r) && beacon == r.beacon && policy == r.policy && PolicyOk(policy)
    requires Elements(validators) == r.validators && Distinct(ValidatorIds(validators))
    ensures committee == CommitteeOf(r, claim)
  {
    var eligible: seq<Bytes> := [];
    var i := 0;
    while i < |validators|
      invariant i <= |validators| && Distinct(eligible)
      invariant forall id :: id in eligible <==>
                  exists v :: v in validators[..i] && Eligible(policy, claim, v) && v.validatorId == id
    {
      var v := validators[i];
      assert validators[..i + 1] == validators[..i] + [v];
      if Eligible(policy, claim, v) {
        assert forall u | u in validators[..i] :: u.validatorId != v.validatorId by {
          assert ValidatorIds(validators)[i] == v.validatorId;
        }
        assert v.validatorId !in eligible;
        eligible := eligible + [v.validatorId];
      }
      i := i + 1;
    }
    assert validators[..i] == validators;
    EligibleListed(r, claim, validators, eligible);
    var rank := RankOfValidators(beacon, claim.commitment);
    var ranked := Sort(ByRank(rank), eligible);
    committee := if policy.committeeSize <= |ranked| then ranked[..policy.committeeSize] else ranked;
  }

  lemma EligibleListed(r: Round, c: Claim, validators: seq<Validator>, eligible: seq<Bytes>)
    requires Elements(validators) == r.validators && Distinct(eligible)
    requires forall id :: id in eligible <==>
               exists v :: v in validators && Eligible(r.policy, c, v) && v.validatorId == id
    ensures Prefix(Sort(ByRank(RankOfValidators(r.beacon, c.commitment)), eligible), r.policy.committeeSize) == CommitteeOf(r, c)
  {
    var rank := RankOfValidators(r.beacon, c.commitment);
    assert forall v :: v in validators <==> v in r.validators by {
      assert forall v :: v in validators <==> v in Elements(validators);
    }
    assert Elements(eligible) == EligibleIds(r, c);
    ListsElements(eligible);
    ListExists(EligibleIds(r, c));
    var ids :| Lists(EligibleIds(r, c), ids)
      && CommitteeOf(r, c) == Prefix(Sort(ByRank(rank), ids), r.policy.committeeSize);
    RankIsTotalOrder(rank);
    SortForgetsOrder(ByRank(rank), eligible, ids);
  }

  /** The assignments and uncovered claimants of the claims that are not left to look at. */
  ghost predicate Worked(r: Round, rest: set<Bytes>, assignments: seq<Assignment>, uncovered: set<Bytes>) {
    && Distinct(assignments)
    && (forall a :: a in assignments <==> Assigned(r, a) && a.claim.claimId !in rest)
    && forall id :: id in uncovered <==> UncoveredBut(r, id, rest)
  }

  ghost predicate UncoveredBut(r: Round, claimant: Bytes, rest: set<Bytes>) {
    exists c :: IsCoverage(r, c) && !IsStaffed(r, c) && c.claimantId == claimant && c.claimId !in rest
  }

  lemma WorkOne(r: Round, selected: map<Bytes, (Claim, Reason)>, rest: set<Bytes>, id: Bytes,
                assignments: seq<Assignment>, uncovered: set<Bytes>)
    requires IdsDiffer(r) && Selects(r, selected) && id in selected && id in rest
    requires Worked(r, rest, assignments, uncovered)
    ensures var c, reason := selected[id].0, selected[id].1;
            if !IsStaffed(r, c)
            then Worked(r, rest - {id}, assignments, if reason == Coverage then uncovered + {c.claimantId} else uncovered)
            else AssignmentOf(r, c).reason == reason && Worked(r, rest - {id}, assignments + [AssignmentOf(r, c)], uncovered)
  {
    hide CommitteeOf, IsCoverage, IsSelected;
    SelectedClaim(r, selected, id);
    hide Selects;
    var c, reason := selected[id].0, selected[id].1;
    UncoveredNext(r, rest, id, c, reason);
    hide UncoveredBut;
    forall a
      ensures Assigned(r, a) && a.claim.claimId !in rest - {id}
              <==> (Assigned(r, a) && a.claim.claimId !in rest) || (IsStaffed(r, c) && a == AssignmentOf(r, c))
    {
    }
  }

  lemma UncoveredNext(r: Round, rest: set<Bytes>, id: Bytes, c: Claim, reason: Reason)
    requires id in rest && c.claimId == id && (reason == Coverage <==> IsCoverage(r, c))
    requires forall d | IsCoverage(r, d) && d.claimId == id :: d == c
    ensures forall x :: UncoveredBut(r, x, rest - {id})
              <==> UncoveredBut(r, x, rest) || (!IsStaffed(r, c) && reason == Coverage && x == c.claimantId)
  {
    hide IsCoverage, IsStaffed;
  }

  /** Assignments and uncovered claimants of the selected claims, in no particular order. */
  method Assign(ghost r: Round, window: Window, beacon: Beacon, policy: Policy,
                selected: map<Bytes, (Claim, Reason)>, validators: seq<Validator>)
    returns (assignments: seq<Assignment>, uncovered: set<Bytes>)
    requires IdsDiffer(r) && r.window == window && beacon == r.beacon && policy == r.policy && PolicyOk(policy)
    requires Elements(validators) == r.validators && Distinct(ValidatorIds(validators))
    requires Selects(r, selected) && forall c | IsSelected(r, c) :: c.claimId in selected
    ensures Distinct(assignments) && forall a :: a in assignments <==> Assigned(r, a)
    ensures forall id :: id in uncovered <==> Uncovered(r, id)
  {
    hide CommitteeOf, IsCoverage, IsSelected, Selects, IdsDiffer;
    assignments, uncovered := [], {};
    var rest := selected.Keys;
    NothingWorked(r, selected);
    while rest != {}
      invariant rest <= selected.Keys && Worked(r, rest, assignments, uncovered)
      decreases |rest|
    {
      hide Worked, ValidatorIds, Elements, PolicyOk;
      var id :| id in rest;
      var (claim, reason) := selected[id];
      var committee := SelectCommittee(r, beacon, policy, claim, validators);
      WorkOne(r, selected, rest, id, assignments, uncovered);
      rest := rest - {id};
      if |committee| < policy.committeeSize {
        if reason == Coverage {
          uncovered := uncovered + {claim.claimantId};
        }
      } else {
        assignments := assignments
          + [Assignment(window.index, claim, beacon.height, Audit.Lower(beacon.hash), committee, reason)];
      }
    }
  }

  lemma NothingWorked(r: Round, selected: map<Bytes, (Claim, Reason)>)
    requires forall c | IsSelected(r, c) :: c.claimId in selected
    ensures Worked(r, selected.Keys, [], {})
  {
    hide CommitteeOf;
    assert forall c | IsCoverage(r, c) :: IsSelected(r, c);
  }

  lemma SelectedClaim(r: Round, selected: map<Bytes, (Claim, Reason)>, id: Bytes)
    requires IdsDiffer(r) && Selects(r, selected) && id in selected
    ensures IsSelected(r, selected[id].0) && selected[id].0.claimId == id
    ensures selected[id].1 == Coverage <==> IsCoverage(r, selected[id].0)
    ensures forall c | IsSelected(r, c) && c.claimId == id :: c == selected[id].0
    ensures forall c | IsCoverage(r, c) :: IsSelected(r, c)
  {
  }

  /** None stands for a thrown error. Otherwise the one schedule of the round. */
  method BuildAuditSchedule(window: Window, beacon: Beacon, claims: seq<Claim>, validators: seq<Validator>, policy: Policy)
    returns (s: Option<Schedule>)
    ensures s.Some? <==> PolicyOk(policy) && beacon.height == window.beaconHeight && Audit.IsHex64(beacon.hash)
                         && IdsOk(ClaimIds(claims)) && IdsOk(ValidatorIds(validators))
    ensures s.Some? ==> var r := Round(window, beacon, policy, Elements(claims), Elements(validators));
                        IdsDiffer(r) && IsSchedule(r, s.value)
  {
    if !PolicyOk(policy) || beacon.height != window.beaconHeight || !Audit.IsHex64(beacon.hash) {
      return None;
    }
    var ok := CheckIds(ClaimIds(claims));
    if !ok {
      return None;
    }
    ok := CheckIds(ValidatorIds(validators));
    if !ok {
      return None;
    }
    ghost var r := Round(window, beacon, policy, Elements(claims), Elements(validators));
    DistinctIds(claims, validators, r);
    var inWindow := InWindow(window, claims);
    var selected := SelectClaims(r, beacon, policy, inWindow);
    var assignments, uncovered := Assign(r, window, beacon, policy, selected, validators);
    var claimants := SetValues(uncovered);
    SortedSchedule(r, assignments, uncovered, claimants);
    s := Some(Schedule(window, Sort(ByClaim, assignments), Sort(AtMostUnits, claimants)));
  }

  lemma DistinctIds(claims: seq<Claim>, validators: seq<Validator>, r: Round)
    requires IdsOk(ClaimIds(claims)) && IdsOk(ValidatorIds(validators))
    requires r.claims == Elements(claims) && r.validators == Elements(validators)
    ensures IdsDiffer(r)
  {
    forall c, d | c in r.claims && d in r.claims && c.claimId == d.claimId
      ensures c == d
    {
      var i :| 0 <= i < |claims| && claims[i] == c;
      var j :| 0 <= j < |claims| && claims[j] == d;
      assert ClaimIds(claims)[i] == ClaimIds(claims)[j];
    }
    forall v, u | v in r.validators && u in r.validators && v.validatorId == u.validatorId
      ensures v == u
    {
      var i :| 0 <= i < |validators| && validators[i] == v;
      var j :| 0 <= j < |validators| && validators[j] == u;
      assert ValidatorIds(validators)[i] == ValidatorIds(validators)[j];
    }
  }

  method SetValues(s: set<Bytes>) returns (e: seq<Bytes>)
    ensures Distinct(e) && Elements(e) == s
  {
    e := [];
    var rest := s;
    while rest != {}
      invariant rest <= s && Distinct(e) && Elements(e) == s - rest
      decreases |rest|
    {
      var x :| x in rest;
      OneMoreElement(e, x);
      assert x !in Elements(e);
      e := e + [x];
      rest := rest - {x};
    }
  }

  lemma SortedSchedule(r: Round, assignments: seq<Assignment>, uncovered: set<Bytes>, claimants: seq<Bytes>)
    requires IdsDiffer(r)
    requires Distinct(assignments) && forall a :: a in assignments <==> Assigned(r, a)
    requires Distinct(claimants) && Elements(claimants) == uncovered
    requires forall id :: id in uncovered <==> Uncovered(r, id)
    ensures IsSchedule(r, Schedule(r.window, Sort(ByClaim, assignments), Sort(AtMostUnits, claimants)))
  {
    hide CommitteeOf, IsCoverage, Uncovered;
    AtMostIsTotalOrder();
    forall x, y | x in Elements(assignments) && y in Elements(assignments) && x.claim.claimId == y.claim.claimId
      ensures x == y
    {
      assert Assigned(r, x) && Assigned(r, y);
      SelectedInRound(r, x.claim);
      SelectedInRound(r, y.claim);
    }
    hide Assigned;
    SortedDistinct(ByClaim, assignments);
    UnitsOrder(Elements(claimants));
    SortedDistinct(AtMostUnits, claimants);
    assert forall x :: x in claimants <==> x in Elements(claimants);
  }

  lemma SelectedInRound(r: Round, c: Claim)
    requires IsSelected(r, c)
    ensures c in r.claims
  {
  }

  lemma SortedDistinct<T>(le: (T, T) -> bool, s: seq<T>)
    requires Distinct(s) && Orders(le, Elements(s))
    ensures SortedBy(le, Sort(le, s)) && Distinct(Sort(le, s)) && forall x :: x in Sort(le, s) <==> x in s
  {
    ListsElements(s);
    SortPermutes(le, s);
    SortSorts(le, s);
    assert Lists(Elements(s), Sort(le, s));
    forall i, j | 0 <= i < j < |Sort(le, s)|
      ensures Sort(le, s)[i] != Sort(le, s)[j]
    {
      ListedOnce(Elements(s), Sort(le, s), i, j);
    }
    forall x
      ensures x in Sort(le, s) <==> x in s
    {
      assert x in Sort(le, s) <==> x in Elements(Sort(le, s));
      assert x in s <==> x in Elements(s);
    }
  }
}

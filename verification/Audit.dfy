/** Audit requests, signed votes, and the verdict a set of votes supports. */
module Audit {
  import opened Canonical
  import opened Collections
  import opened Committees

  datatype Assignment = Assignment(
    windowIndex: int, claimId: Bytes, claimantId: Bytes, commitment: Bytes, claimHeight: int,
    beaconHeight: int, beaconHash: Bytes, committee: seq<Bytes>, reason: Bytes)

  datatype Request = Request(auditId: Bytes, assignment: Assignment, deadline: int)

  datatype Vote = Vote(
    auditId: Bytes, validator: Bytes, publicKey: Bytes, observed: Bytes, submittedAt: int, signature: Bytes)

  datatype Kind = Pass | Fraud | Inconclusive

  datatype Summary = Summary(kind: Kind, top: Option<Bytes>, topCount: nat, required: nat, size: nat)

  datatype Record = Record(
    auditId: Bytes, request: Request, claimId: Bytes, claimantId: Bytes, claimed: Bytes,
    summary: Summary, finalizedAt: int, evidence: seq<Vote>)

  /** Settings, and what the protocol takes from cryptography: the digest of an audit id's fields, the
      check that a vote's key belongs to its validator and signed it, and the digest of a verdict's fields. */
  datatype Protocol = Protocol(
    maxOpen: nat, maxResponse: int,
    auditDigest: (Assignment, int) -> Bytes,
    signed: Vote -> bool,
    verdictDigest: Record -> Bytes)

  // ---------- Hexadecimal ----------

  function Lower(b: Bytes): (r: Bytes)
    ensures |r| == |b|
  {
    seq(|b|, i requires 0 <= i < |b| => if 65 <= b[i] <= 90 then b[i] + 32 else b[i])
  }

  lemma LowerIdempotent(b: Bytes)
    ensures Lower(Lower(b)) == Lower(b)
  {
  }

  predicate IsHex64(b: Bytes) {
    |b| == 64 && forall i | 0 <= i < 64 :: 48 <= b[i] <= 57 || 65 <= b[i] <= 70 || 97 <= b[i] <= 102
  }

  predicate IsSafeInteger(n: int) {
    -(MAX_SAFE_INTEGER as int) <= n <= MAX_SAFE_INTEGER
  }

  // ---------- Well-formed requests and votes ----------

  /** The fields an audit id covers: the committee as one joined string, and not the reason. */
  function IdFields(a: Assignment): Assignment {
    a.(beaconHash := Lower(a.beaconHash), committee := [Joined(a.committee)], reason := [])
  }

  function AuditId(p: Protocol, a: Assignment, deadline: int): Bytes {
    p.auditDigest(IdFields(a), deadline)
  }

  predicate ShapeOk(p: Protocol, request: Request) {
    var a := request.assignment;
    && request.auditId == AuditId(p, a, request.deadline)
    && IsHex64(a.commitment) && IsHex64(a.beaconHash)
    && a.claimId != [] && a.claimantId != []
    && IsSafeInteger(a.beaconHeight) && IsSafeInteger(a.claimHeight)
    && a.claimHeight <= a.beaconHeight
    && |a.committee| >= 3 && Distinct(a.committee)
    && a.claimantId !in a.committee
    && 0 < request.deadline - a.beaconHeight <= p.maxResponse
  }

  /** The id of a well-formed request commits to the fields it covers. */
  ghost predicate IdsCommit(p: Protocol) {
    forall a, b {:trigger ShapeOk(p, a), ShapeOk(p, b)} | ShapeOk(p, a) && ShapeOk(p, b) && a.auditId == b.auditId ::
      a.deadline == b.deadline && IdFields(a.assignment) == IdFields(b.assignment)
  }

  predicate VoteOk(p: Protocol, vote: Vote) {
    && IsHex64(vote.auditId) && IsHex64(vote.observed)
    && 0 <= vote.submittedAt <= MAX_SAFE_INTEGER
    && p.signed(vote)
  }

  // ---------- Counting ----------

  /** How many votes report commitment c, whatever their letter case. */
  function CountOf(e: seq<Vote>, c: Bytes): nat {
    if e == [] then 0
    else CountOf(e[..|e| - 1], c) + if Lower(e[|e| - 1].observed) == c then 1 else 0
  }

  /** c has the most votes, and is least in byte order among those that do. */
  ghost predicate Leads(e: seq<Vote>, c: Bytes) {
    CountOf(e, c) > 0
    && forall d {:trigger CountOf(e, d)} ::
         CountOf(e, d) <= CountOf(e, c) && (CountOf(e, d) == CountOf(e, c) ==> AtMost(c, d))
  }

  ghost predicate Counts(tally: map<Bytes, nat>, e: seq<Vote>) {
    && (forall c :: c in tally <==> CountOf(e, c) > 0)
    && (forall c | c in tally :: tally[c] == CountOf(e, c))
  }

  lemma OneLeader(e: seq<Vote>, c: Bytes, d: Bytes)
    requires Leads(e, c) && Leads(e, d)
    ensures c == d
  {
    AtMostIsTotalOrder();
  }

  lemma TallyStep(tally: map<Bytes, nat>, e: seq<Vote>, i: nat)
    requires i < |e| && Counts(tally, e[..i])
    ensures var c := Lower(e[i].observed);
            Counts(tally[c := (if c in tally then tally[c] else 0) + 1], e[..i + 1])
  {
    assert e[..i + 1][..i] == e[..i];
  }

  /** The first entry of a ranked tally leads. */
  lemma FirstRankedLeads(tally: map<Bytes, nat>, e: seq<Vote>, entries: seq<(Bytes, nat)>)
    requires Counts(tally, e) && IsEnumeration(tally, entries) && entries != []
    ensures |Sort(HighestFirst, entries)| == |entries|
    ensures var (c, n) := Sort(HighestFirst, entries)[0];
            Leads(e, c) && n == CountOf(e, c)
  {
    var ranked := Sort(HighestFirst, entries);
    SortPermutes(HighestFirst, entries);
    RankingOrders(Elements(entries));
    SortSorts(HighestFirst, entries);
    EntriesCount(tally, e, ranked);
    var (c, n) := ranked[0];
    forall d
      ensures CountOf(e, d) <= n && (CountOf(e, d) == n ==> AtMost(c, d))
    {
      if CountOf(e, d) > 0 {
        var k :| 0 <= k < |ranked| && ranked[k] == (d, CountOf(e, d));
        if k > 0 {
          assert HighestFirst(ranked[0], ranked[k]);
        } else {
          AtMostIsTotalOrder();
        }
      }
    }
  }

  lemma EntriesCount(tally: map<Bytes, nat>, e: seq<Vote>, entries: seq<(Bytes, nat)>)
    requires Counts(tally, e) && IsEnumeration(tally, entries)
    ensures forall k | 0 <= k < |entries| :: entries[k].1 == CountOf(e, entries[k].0) > 0
    ensures forall c | CountOf(e, c) > 0 :: (c, CountOf(e, c)) in entries
  {
    forall k | 0 <= k < |entries|
      ensures entries[k].1 == CountOf(e, entries[k].0) > 0
    {
      assert entries[k] in multiset(entries);
      assert entries[k] in tally.Items;
    }
    forall c | CountOf(e, c) > 0
      ensures (c, CountOf(e, c)) in entries
    {
      assert (c, tally[c]) in tally.Items;
      assert (c, tally[c]) in multiset(entries);
    }
  }

  lemma {:induction false} TallyExists(e: seq<Vote>) returns (tally: map<Bytes, nat>)
    ensures Counts(tally, e)
  {
    if e == [] {
      tally := map[];
    } else {
      var n := |e| - 1;
      var before := TallyExists(e[..n]);
      var c := Lower(e[n].observed);
      TallyStep(before, e, n);
      assert e[..n + 1] == e;
      tally := before[c := (if c in before then before[c] else 0) + 1];
    }
  }

  lemma LeaderExists(e: seq<Vote>)
    requires e != []
    ensures exists c :: Leads(e, c)
  {
    var tally := TallyExists(e);
    ListExists(tally.Items);
    var entries :| Lists(tally.Items, entries);
    EntriesCount(tally, e, entries);
    assert CountOf(e, Lower(e[|e| - 1].observed)) > 0;
    FirstRankedLeads(tally, e, entries);
  }

  ghost function Leader(e: seq<Vote>): Option<Bytes> {
    if e == [] then None
    else
      LeaderExists(e);
      var c :| Leads(e, c);
      Some(c)
  }

  // ---------- The verdict ----------

  /** Two thirds of the committee, rounded up. */
  function Required(committee: seq<Bytes>): nat {
    (|committee| * 2 + 2) / 3
  }

  function KindOf(a: Assignment, top: Option<Bytes>, topCount: nat): Kind {
    if top.None? || topCount < Required(a.committee) then Inconclusive
    else if top.value == Lower(a.commitment) then Pass
    else Fraud
  }

  ghost function SummaryOf(a: Assignment, e: seq<Vote>): Summary {
    var top := Leader(e);
    var topCount := if top.None? then 0 else CountOf(e, top.value);
    Summary(KindOf(a, top, topCount), top, topCount, Required(a.committee), |a.committee|)
  }

  method DeriveVerdictSummary(request: Request, e: seq<Vote>) returns (r: Summary)
    ensures r == SummaryOf(request.assignment, e)
  {
    var a := request.assignment;
    var required := (|a.committee| * 2 + 2) / 3;
    var tally: map<Bytes, nat> := map[];
    var i := 0;
    while i < |e|
      invariant i <= |e| && Counts(tally, e[..i])
    {
      var c := Lower(e[i].observed);
      TallyStep(tally, e, i);
      tally := tally[c := (if c in tally then tally[c] else 0) + 1];
      i := i + 1;
    }
    assert e[..i] == e;
    var entries := MapEntries(tally);
    var ranked := Sort(HighestFirst, entries);
    EntriesCount(tally, e, entries);
    SortPermutes(HighestFirst, entries);
    if |ranked| == 0 {
      assert e != [] ==> CountOf(e, Lower(e[|e| - 1].observed)) > 0;
      return Summary(Inconclusive, None, 0, required, |a.committee|);
    }
    FirstRankedLeads(tally, e, entries);
    var (top, topCount) := ranked[0];
    OneLeader(e, top, Leader(e).value);
    var kind := Inconclusive;
    if topCount >= required {
      kind := if top == Lower(a.commitment) then Pass else Fraud;
    }
    r := Summary(kind, Some(top), topCount, required, |a.committee|);
  }

  /** Arrival order never changes a verdict. */
  lemma OrderIndependent(a: Assignment, e: seq<Vote>, f: seq<Vote>)
    requires multiset(e) == multiset(f)
    ensures SummaryOf(a, e) == SummaryOf(a, f)
  {
    forall c
      ensures CountOf(e, c) == CountOf(f, c)
    {
      SameCount(e, f, c);
    }
    SamePopulation(e, f);
    if e != [] {
      assert Leads(f, Leader(e).value);
      OneLeader(f, Leader(e).value, Leader(f).value);
    }
  }

  lemma {:induction false} SameCount(e: seq<Vote>, f: seq<Vote>, c: Bytes)
    requires multiset(e) == multiset(f)
    ensures CountOf(e, c) == CountOf(f, c)
  {
    SamePopulation(e, f);
    if e != [] {
      var n := |e| - 1;
      var k := MatchLast(e, f);
      SameCount(e[..n], f[..k] + f[k + 1..], c);
      CountRemove(f, k, c);
    }
  }

  /** Taking one occurrence of e's last vote out of both leaves equal populations. */
  lemma MatchLast(e: seq<Vote>, f: seq<Vote>) returns (k: nat)
    requires e != [] && multiset(e) == multiset(f)
    ensures k < |f| && f[k] == e[|e| - 1]
    ensures multiset(e[..|e| - 1]) == multiset(f[..k] + f[k + 1..])
  {
    var n := |e| - 1;
    assert e == e[..n] + [e[n]];
    SamePopulation(e, f);
    assert e[n] in Elements(f);
    k :| 0 <= k < |f| && f[k] == e[n];
    assert f == f[..k] + [f[k]] + f[k + 1..];
    assert multiset(f[..k] + f[k + 1..]) == multiset(f) - multiset{f[k]};
    assert multiset(e[..n]) == multiset(e) - multiset{e[n]};
  }

  lemma {:induction false} CountRemove(f: seq<Vote>, k: nat, c: Bytes)
    requires k < |f|
    ensures CountOf(f, c) == CountOf(f[..k] + f[k + 1..], c) + if Lower(f[k].observed) == c then 1 else 0
  {
    var n := |f| - 1;
    if k < n {
      CountRemove(f[..n], k, c);
      assert (f[..k] + f[k + 1..])[..n - 1] == f[..n][..k] + f[..n][k + 1..];
    } else {
      assert f[..k] + f[k + 1..] == f[..n];
    }
  }

  // ---------- Independent validation of a record ----------

  /** One piece of evidence, taken alone. */
  predicate VoteFits(p: Protocol, request: Request, finalizedAt: int, vote: Vote) {
    && vote.auditId == request.auditId
    && vote.validator in request.assignment.committee
    && request.assignment.beaconHeight <= vote.submittedAt <= request.deadline
    && vote.submittedAt <= finalizedAt
    && VoteOk(p, vote)
  }

  ghost predicate Ascending(e: seq<Vote>) {
    forall i, j {:trigger e[i], e[j]} | 0 <= i < j < |e| :: Before(e[i].validator, e[j].validator)
  }

  predicate Identified(r: Record) {
    && r.auditId == r.request.auditId
    && r.claimId == r.request.assignment.claimId
    && r.claimantId == r.request.assignment.claimantId
    && Lower(r.claimed) == Lower(r.request.assignment.commitment)
  }

  /** Finalized after the beacon, and not before the deadline unless everybody voted. */
  predicate Timely(r: Record) {
    var n := |r.request.assignment.committee|;
    && IsSafeInteger(r.finalizedAt) && r.finalizedAt >= r.request.assignment.beaconHeight
    && |r.evidence| <= n
    && (r.finalizedAt <= r.request.deadline ==> |r.evidence| >= n)
  }

  ghost predicate EvidenceOk(p: Protocol, r: Record) {
    Ascending(r.evidence)
    && forall i {:trigger VoteFits(p, r.request, r.finalizedAt, r.evidence[i])} | 0 <= i < |r.evidence| ::
         VoteFits(p, r.request, r.finalizedAt, r.evidence[i])
  }

  function Lowered(s: Summary): Summary {
    if s.top.None? then s else s.(top := Some(Lower(s.top.value)))
  }

  /** What anybody can check of a verdict from the record and its signatures alone. */
  ghost predicate ValidRecord(p: Protocol, r: Record) {
    && ShapeOk(p, r.request) && Identified(r) && Timely(r) && EvidenceOk(p, r)
    && Lowered(r.summary) == SummaryOf(r.request.assignment, r.evidence)
  }

  method ValidateEvidence(p: Protocol, r: Record) returns (ok: bool)
    requires r.auditId == r.request.auditId
    ensures ok <==> EvidenceOk(p, r)
  {
    BeforeIsStrictOrder();
    var seen: set<Bytes> := {};
    var previous: Bytes := [];
    var i := 0;
    while i < |r.evidence|
      invariant i <= |r.evidence|
      invariant Ascending(r.evidence[..i])
      invariant forall k {:trigger VoteFits(p, r.request, r.finalizedAt, r.evidence[k])} | 0 <= k < i ::
                  VoteFits(p, r.request, r.finalizedAt, r.evidence[k])
      invariant forall v :: v in seen <==> exists k :: 0 <= k < i && r.evidence[k].validator == v
      invariant previous == if i == 0 then [] else r.evidence[i - 1].validator
    {
      var vote := r.evidence[i];
      if vote.validator in seen || (previous != [] && !Before(previous, vote.validator)) {
        return false;
      }
      if !VoteFits(p, r.request, r.finalizedAt, vote) {
        return false;
      }
      NextAscends(r.evidence, i);
      seen := seen + {vote.validator};
      previous := vote.validator;
      i := i + 1;
    }
    assert r.evidence[..i] == r.evidence;
    ok := true;
  }

  /** Comparing with the previous validator is enough; an empty previous name needs the seen-set. */
  lemma NextAscends(e: seq<Vote>, i: nat)
    requires i < |e| && Ascending(e[..i])
    requires forall k | 0 <= k < i :: e[k].validator != e[i].validator
    requires i == 0 || e[i - 1].validator == [] || Before(e[i - 1].validator, e[i].validator)
    ensures Ascending(e[..i + 1])
  {
    BeforeIsStrictOrder();
    var before, after := e[..i], e[..i + 1];
    forall a, b | 0 <= a < b < i + 1
      ensures Before(after[a].validator, after[b].validator)
    {
      if b < i {
        assert Before(before[a].validator, before[b].validator);
      } else if a < i - 1 {
        assert Before(before[a].validator, before[i - 1].validator);
      }
    }
  }

  method ValidateAuditVerdictRecord(p: Protocol, r: Record) returns (ok: bool)
    ensures ok <==> ValidRecord(p, r)
  {
    if !ShapeOk(p, r.request) || !Identified(r) || !Timely(r) {
      return false;
    }
    ok := ValidateEvidence(p, r);
    if !ok {
      return;
    }
    var derived := DeriveVerdictSummary(r.request, r.evidence);
    ok := Lowered(r.summary) == derived;
  }

  // ---------- Sizes ----------

  lemma {:induction false} DistinctSize(s: seq<Bytes>)
    requires Distinct(s)
    ensures |Elements(s)| == |s|
  {
    if s != [] {
      var n := |s| - 1;
      DistinctSize(s[..n]);
      assert s == s[..n] + [s[n]];
      assert s[n] !in s[..n];
      assert Elements(s) == Elements(s[..n]) + {s[n]};
    }
  }

  lemma {:induction false} Subset(x: set<Bytes>, y: set<Bytes>)
    requires x <= y
    ensures |x| <= |y|
  {
    if x != {} {
      var v :| v in x;
      Subset(x - {v}, y - {v});
    }
  }
}

/** What two contradicting verdicts on one audit prove about their signers. */
module AuditQuorum {
  import opened Canonical
  import opened Collections
  import opened Committees
  import opened Audit
  import opened AuditTransitions

  // ---------- Which committee an audit id names ----------

  /** Requests under one id agree on everything but letter case, the reason and how the committee's
      writing splits into members. */
  lemma SameId(p: Protocol, a: Request, b: Request)
    requires IdsCommit(p) && ShapeOk(p, a) && ShapeOk(p, b) && a.auditId == b.auditId
    ensures Joined(a.assignment.committee) == Joined(b.assignment.committee)
    ensures a.assignment.commitment == b.assignment.commitment && a.deadline == b.deadline
  {
    assert IdFields(a.assignment).committee == IdFields(b.assignment).committee;
    assert IdFields(a.assignment).commitment == IdFields(b.assignment).commitment;
  }

  /** Under one id, a request has the members of a comma-free one exactly when it has as many of them,
      which is exactly when it is comma-free itself. */
  lemma SameCommittee(p: Protocol, a: Request, b: Request)
    requires IdsCommit(p) && ShapeOk(p, a) && ShapeOk(p, b) && a.auditId == b.auditId
    requires CommaFree(a.assignment.committee)
    ensures var c, d := a.assignment.committee, b.assignment.committee;
            && (multiset(c) == multiset(d) <==> |c| == |d|)
            && (CommaFree(d) <==> |c| == |d|)
  {
    SameId(p, a, b);
    JoinedCommits(a.assignment.committee, b.assignment.committee);
  }

  /** The same audit with its committee written differently. */
  function WithCommittee(r: Request, committee: seq<Bytes>): Request {
    r.(assignment := r.assignment.(committee := committee))
  }

  /** The id of a comma-free request fixes its committee exactly when that has the least size allowed. */
  lemma IdFixesCommittee(p: Protocol, r: Request)
    requires IdsCommit(p) && ShapeOk(p, r)
    requires CommaFree(r.assignment.committee) && COMMA !in r.assignment.claimantId
    ensures (forall q | ShapeOk(p, q) && q.auditId == r.auditId ::
               multiset(q.assignment.committee) == multiset(r.assignment.committee))
            <==> |r.assignment.committee| == 3
  {
    var committee := r.assignment.committee;
    if |committee| == 3 {
      forall q | ShapeOk(p, q) && q.auditId == r.auditId
        ensures multiset(q.assignment.committee) == multiset(committee)
      {
        SameId(p, r, q);
        JoinedCommits(committee, q.assignment.committee);
        SameCommittee(p, r, q);
      }
    } else {
      var sorted, other := OtherCommittee(committee, |committee| - 2);
      var q := WithCommittee(r, other);
      assert IdFields(q.assignment) == IdFields(r.assignment);
      assert ShapeOk(p, q) && q.auditId == r.auditId;
      assert |multiset(other)| == |other| && |multiset(committee)| == |committee|;
    }
  }

  // ---------- Reporters ----------

  /** Who reported commitment c. */
  function Reporters(e: seq<Vote>, c: Bytes): set<Bytes> {
    set i | 0 <= i < |e| && Lower(e[i].observed) == c :: e[i].validator
  }

  lemma {:induction false} ReportersCount(e: seq<Vote>, c: Bytes)
    requires Ascending(e)
    ensures |Reporters(e, c)| == CountOf(e, c)
  {
    if e != [] {
      var n := |e| - 1;
      ReportersCount(e[..n], c);
      LastIsNew(e);
      var before := Reporters(e[..n], c);
      forall v
        ensures v in Reporters(e, c) <==> v in before || (Lower(e[n].observed) == c && v == e[n].validator)
      {
        ReportersSplit(e, c, v);
      }
      if Lower(e[n].observed) == c {
        assert Reporters(e, c) == before + {e[n].validator};
      } else {
        assert Reporters(e, c) == before;
      }
    }
  }

  lemma LastIsNew(e: seq<Vote>)
    requires Ascending(e) && e != []
    ensures forall i | 0 <= i < |e| - 1 :: e[i].validator != e[|e| - 1].validator
  {
    BeforeIsStrictOrder();
  }

  lemma ReportersSplit(e: seq<Vote>, c: Bytes, v: Bytes)
    requires e != []
    ensures var n := |e| - 1;
            v in Reporters(e, c) <==>
              v in Reporters(e[..n], c) || (Lower(e[n].observed) == c && v == e[n].validator)
  {
    var n := |e| - 1;
    if i :| 0 <= i < |e| && Lower(e[i].observed) == c && e[i].validator == v {
      assert i < n ==> e[..n][i] == e[i];
    }
    if i :| 0 <= i < n && Lower(e[..n][i].observed) == c && e[..n][i].validator == v {
      assert e[i] == e[..n][i];
    }
  }

  /** A decisive record: the reporters of its leader are a quorum of the committee. */
  lemma DecisiveQuorum(p: Protocol, r: Record)
    requires ValidRecord(p, r) && r.summary.kind != Inconclusive
    ensures Leader(r.evidence).Some?
    ensures Reporters(r.evidence, Leader(r.evidence).value) <= Elements(r.request.assignment.committee)
    ensures |Reporters(r.evidence, Leader(r.evidence).value)| >= Required(r.request.assignment.committee)
    ensures r.summary.kind == Pass <==> Leader(r.evidence).value == Lower(r.request.assignment.commitment)
  {
    var c := Leader(r.evidence).value;
    ReportersCount(r.evidence, c);
    forall v | v in Reporters(r.evidence, c)
      ensures v in Elements(r.request.assignment.committee)
    {
      var i :| 0 <= i < |r.evidence| && r.evidence[i].validator == v;
      assert VoteFits(p, r.request, r.finalizedAt, r.evidence[i]);
    }
  }

  lemma Overlap(x: set<Bytes>, y: set<Bytes>, all: set<Bytes>)
    requires x <= all && y <= all
    ensures |x * y| >= |x| + |y| - |all|
  {
    Subset(x + y, all);
    assert |x + y| + |x * y| == |x| + |y|;
  }

  // ---------- Contradicting verdicts ----------

  /** One record says pass and the other fraud. */
  predicate Contradict(a: Record, b: Record) {
    a.summary.kind != Inconclusive && b.summary.kind != Inconclusive && a.summary.kind != b.summary.kind
  }

  /** A validator whose valid votes in the two records contradict each other. */
  ghost predicate VotedTwice(p: Protocol, a: Record, b: Record, v: Bytes) {
    exists x, y ::
      && x in a.evidence && y in b.evidence && x.validator == y.validator == v
      && x.auditId == y.auditId && Lower(x.observed) != Lower(y.observed)
      && VoteOk(p, x) && VoteOk(p, y)
  }

  /** A vote verifies only under the address of its key, and addresses hold no comma. */
  ghost predicate AddressesCommaFree(p: Protocol) {
    forall v | p.signed(v) :: COMMA !in v.validator
  }

  lemma ReporterVoted(p: Protocol, r: Record, c: Bytes, v: Bytes) returns (x: Vote)
    requires ValidRecord(p, r) && v in Reporters(r.evidence, c)
    ensures x in r.evidence && x.validator == v && Lower(x.observed) == c
    ensures VoteFits(p, r.request, r.finalizedAt, x)
  {
    hide ShapeOk, Timely, SummaryOf, VoteOk;
    var i :| 0 <= i < |r.evidence| && Lower(r.evidence[i].observed) == c && r.evidence[i].validator == v;
    x := r.evidence[i];
    assert VoteFits(p, r.request, r.finalizedAt, r.evidence[i]);
  }

  /** Reporters of different commitments under one id voted twice. */
  lemma BothReported(p: Protocol, a: Record, b: Record, c: Bytes, d: Bytes, v: Bytes)
    requires ValidRecord(p, a) && ValidRecord(p, b) && a.auditId == b.auditId && c != d
    requires v in Reporters(a.evidence, c) && v in Reporters(b.evidence, d)
    ensures VotedTwice(p, a, b, v)
  {
    var x := ReporterVoted(p, a, c, v);
    var y := ReporterVoted(p, b, d, v);
    hide ShapeOk, Timely, SummaryOf, EvidenceOk, VoteOk;
  }

  /** Reporters sit in every comma-free committee with the same writing. */
  lemma ReportersBelong(p: Protocol, r: Record, c: Bytes, committee: seq<Bytes>)
    requires ValidRecord(p, r) && AddressesCommaFree(p)
    requires forall id | id in r.request.assignment.committee && COMMA !in id :: id in committee
    ensures Reporters(r.evidence, c) <= Elements(committee)
  {
    forall v | v in Reporters(r.evidence, c)
      ensures v in committee
    {
      var x := ReporterVoted(p, r, c, v);
    }
  }

  /** Whatever the ids of the members look like: two contradicting valid verdicts on one audit overlap as far
      as all members together force their quorums to, and everybody in the overlap signed twice. */
  lemma QuorumsOverlap(p: Protocol, a: Record, b: Record) returns (both: set<Bytes>)
    requires IdsCommit(p) && ValidRecord(p, a) && ValidRecord(p, b) && a.auditId == b.auditId && Contradict(a, b)
    ensures var c, d := a.request.assignment.committee, b.request.assignment.committee;
            && both <= Elements(c) * Elements(d)
            && |both| >= Required(c) + Required(d) - |Elements(c) + Elements(d)|
    ensures forall v | v in both :: VotedTwice(p, a, b, v)
  {
    DecisiveQuorum(p, a);
    DecisiveQuorum(p, b);
    var c, d := Leader(a.evidence).value, Leader(b.evidence).value;
    SameId(p, a.request, b.request);
    both := Reporters(a.evidence, c) * Reporters(b.evidence, d);
    Overlap(Reporters(a.evidence, c), Reporters(b.evidence, d),
            Elements(a.request.assignment.committee) + Elements(b.request.assignment.committee));
    forall v | v in both
      ensures VotedTwice(p, a, b, v)
    {
      BothReported(p, a, b, c, d, v);
    }
  }

  /** Two valid verdicts on one audit that contradict each other, one of them by a comma-free committee
      of n members: the other names m <= n members, and at least ceil(2n/3) + ceil(2m/3) - n of the n
      signed two different votes. That is somebody whenever n <= 5, and whenever m = n, when both
      committees are the same. */
  lemma QuorumIntersection(p: Protocol, a: Record, b: Record) returns (both: set<Bytes>)
    requires IdsCommit(p) && AddressesCommaFree(p)
    requires ValidRecord(p, a) && ValidRecord(p, b) && a.auditId == b.auditId && Contradict(a, b)
    requires CommaFree(a.request.assignment.committee)
    ensures var c, d := a.request.assignment.committee, b.request.assignment.committee;
            && both <= Elements(c) && |d| <= |c| && (multiset(c) == multiset(d) <==> |c| == |d|)
            && |both| >= Required(c) + Required(d) - |c|
            && (|c| <= 5 || |d| == |c| ==> both != {})
    ensures forall v | v in both :: VotedTwice(p, a, b, v)
  {
    var committee := a.request.assignment.committee;
    DecisiveQuorum(p, a);
    DecisiveQuorum(p, b);
    var c, d := Leader(a.evidence).value, Leader(b.evidence).value;
    SameId(p, a.request, b.request);
    JoinedCommits(committee, b.request.assignment.committee);
    ReportersBelong(p, a, c, committee);
    ReportersBelong(p, b, d, committee);
    DistinctSize(committee);
    both := Reporters(a.evidence, c) * Reporters(b.evidence, d);
    Overlap(Reporters(a.evidence, c), Reporters(b.evidence, d), Elements(committee));
    forall v | v in both
      ensures VotedTwice(p, a, b, v)
    {
      BothReported(p, a, b, c, d, v);
    }
  }

  // ---------- Verdicts without a common signer ----------

  /** Every member of the request's committee can sign any report. */
  ghost predicate AllCanVote(p: Protocol, r: Request, ballot: (Bytes, Bytes) -> Vote) {
    forall v, c {:trigger ballot(v, c)} | v in r.assignment.committee && IsHex64(c) ::
      var x := ballot(v, c);
      && x.validator == v && x.auditId == r.auditId && x.observed == c
      && x.submittedAt == r.assignment.beaconHeight && VoteOk(p, x)
  }

  function VotesOf(ballot: (Bytes, Bytes) -> Vote, voters: set<Bytes>, c: Bytes): map<Bytes, Vote> {
    map v | v in voters :: ballot(v, c)
  }

  /** What the voters' common report makes of the audit after its deadline. */
  ghost function VerdictOf(r: Request, ballot: (Bytes, Bytes) -> Vote, voters: set<Bytes>, c: Bytes): Record {
    RecordOf(OpenAudit(r, VotesOf(ballot, voters, c)), r.deadline + 1)
  }

  lemma {:induction false} UniformCount(e: seq<Vote>, c: Bytes, d: Bytes)
    requires forall i | 0 <= i < |e| :: Lower(e[i].observed) == c
    ensures CountOf(e, d) == if d == c then |e| else 0
  {
    if e != [] {
      UniformCount(e[..|e| - 1], c, d);
    }
  }

  lemma UniformLeader(e: seq<Vote>, c: Bytes)
    requires e != [] && forall i | 0 <= i < |e| :: Lower(e[i].observed) == c
    ensures Leader(e) == Some(c) && CountOf(e, c) == |e|
  {
    forall d
      ensures CountOf(e, d) == if d == c then |e| else 0
    {
      UniformCount(e, c, d);
    }
    AtMostIsTotalOrder();
    assert Leads(e, c);
    OneLeader(e, c, Leader(e).value);
  }

  /** A quorum with one report makes a valid, decisive verdict. */
  lemma QuorumDecides(p: Protocol, r: Request, ballot: (Bytes, Bytes) -> Vote, voters: set<Bytes>, c: Bytes)
    requires ShapeOk(p, r) && IsSafeInteger(r.deadline + 1) && IsHex64(c)
    requires forall v | v in voters :: v in r.assignment.committee
    requires forall v | v in voters :: var x := ballot(v, c);
               && x.validator == v && x.auditId == r.auditId && x.observed == c
               && x.submittedAt == r.assignment.beaconHeight && VoteOk(p, x)
    requires |voters| >= Required(r.assignment.committee)
    ensures var record := VerdictOf(r, ballot, voters, c);
            && ValidRecord(p, record) && record.auditId == r.auditId && record.request == r
            && record.summary.kind == (if Lower(c) == Lower(r.assignment.commitment) then Pass else Fraud)
            && forall x | x in record.evidence :: x.validator in voters
  {
    hide AuditId, Joined, Leader, CountOf, ValidRecord, Sort;
    var votes := VotesOf(ballot, voters, c);
    var audit, height := OpenAudit(r, votes), r.deadline + 1;
    var e := EvidenceOf(votes);
    forall v | v in votes
      ensures VoteFits(p, r, height, votes[v])
    {
    }
    FinalizedRecordValid(p, audit, r.auditId, height, height);
    EvidenceSorted(votes, r.auditId);
    assert votes.Keys == voters;
    forall x | x in e
      ensures x.validator in voters && x.observed == c
    {
      assert x in Elements(e);
    }
    UniformLeader(e, Lower(c));
  }

  /** A committee written like the request's leaves its id as it is. */
  lemma SameWriting(p: Protocol, r: Request, committee: seq<Bytes>)
    requires ShapeOk(p, r) && |committee| >= 3 && Distinct(committee) && COMMA !in r.assignment.claimantId
    requires Joined(committee) == Joined(r.assignment.committee)
    requires forall id | id in committee :: id in r.assignment.committee || COMMA in id
    ensures ShapeOk(p, WithCommittee(r, committee)) && WithCommittee(r, committee).auditId == r.auditId
  {
    hide Joined;
    assert IdFields(WithCommittee(r, committee).assignment) == IdFields(r.assignment);
  }

  // ----- Against the comma-free committee itself -----

  /** With one record by the comma-free committee itself, six members are enough for two contradicting
      verdicts that nobody signed twice: four of a to f against the two of a, b and the one string "c,d,e,f". */
  lemma NobodyTwiceBeside(p: Protocol, r: Request, ballot: (Bytes, Bytes) -> Vote, c: Bytes, d: Bytes)
    returns (a: Record, b: Record)
    requires ShapeOk(p, r) && IsSafeInteger(r.deadline + 1) && AllCanVote(p, r, ballot)
    requires CommaFree(r.assignment.committee) && COMMA !in r.assignment.claimantId
    requires |r.assignment.committee| >= 6
    requires IsHex64(c) && IsHex64(d) && Lower(c) == Lower(r.assignment.commitment) != Lower(d)
    ensures ValidRecord(p, a) && ValidRecord(p, b) && a.auditId == b.auditId == r.auditId && a.request == r
    ensures a.summary.kind == Pass && b.summary.kind == Fraud
    ensures forall v :: !VotedTwice(p, a, b, v)
  {
    var committee := r.assignment.committee;
    var sorted, other := OtherCommittee(committee, 2);
    var q := WithCommittee(r, other);
    SameWriting(p, r, other);
    SamePopulation(sorted, committee);
    DistinctSize(sorted);
    var few := {sorted[0], sorted[1]};
    var many := Elements(sorted) - few;
    assert forall v | v in Elements(sorted) :: v in committee;
    assert |many| == |committee| - 2;
    QuorumDecides(p, r, ballot, many, c);
    QuorumDecides(p, q, ballot, few, d);
    a, b := VerdictOf(r, ballot, many, c), VerdictOf(q, ballot, few, d);
  }

  /** With everybody able to vote: two contradicting verdicts under one id, one of them by a comma-free
      committee itself, force somebody to sign twice exactly when that committee has at most five members. */
  lemma ForcedBesideUpToFive(p: Protocol, r: Request, ballot: (Bytes, Bytes) -> Vote, d: Bytes)
    requires IdsCommit(p) && AddressesCommaFree(p)
    requires ShapeOk(p, r) && IsSafeInteger(r.deadline + 1) && AllCanVote(p, r, ballot)
    requires CommaFree(r.assignment.committee) && COMMA !in r.assignment.claimantId
    requires IsHex64(d) && Lower(r.assignment.commitment) != Lower(d)
    ensures (forall a, b {:trigger ValidRecord(p, a), ValidRecord(p, b)} |
               && ValidRecord(p, a) && ValidRecord(p, b) && Contradict(a, b)
               && a.auditId == b.auditId == r.auditId && a.request == r ::
               exists v :: VotedTwice(p, a, b, v))
            <==> |r.assignment.committee| <= 5
  {
    hide ValidRecord, VotedTwice, IdsCommit, AddressesCommaFree;
    if |r.assignment.committee| <= 5 {
      forall a, b | && ValidRecord(p, a) && ValidRecord(p, b) && Contradict(a, b)
                    && a.auditId == b.auditId == r.auditId && a.request == r
        ensures exists v :: VotedTwice(p, a, b, v)
      {
        var both := QuorumIntersection(p, a, b);
        var v :| v in both;
      }
    } else {
      var a, b := NobodyTwiceBeside(p, r, ballot, r.assignment.commitment, d);
    }
  }

  // ----- Under its id -----

  lemma OneOfThree(ids: seq<Bytes>)
    requires |ids| == 3
    ensures forall id :: id in ids <==> id == ids[0] || id == ids[1] || id == ids[2]
  {
  }

  lemma MembersDiffer(p: Protocol, r: Request)
    requires ShapeOk(p, r)
    ensures Distinct(r.assignment.committee)
  {
  }

  /** Two members of a committee of three that is written like the request's decide it. */
  lemma TwoDecide(p: Protocol, r: Request, ballot: (Bytes, Bytes) -> Vote, committee: seq<Bytes>, x: Bytes, y: Bytes, c: Bytes)
    requires ShapeOk(p, r) && IsSafeInteger(r.deadline + 1) && AllCanVote(p, r, ballot) && IsHex64(c)
    requires |committee| == 3 && Distinct(committee) && COMMA !in r.assignment.claimantId
    requires Joined(committee) == Joined(r.assignment.committee)
    requires forall id | id in committee :: id in r.assignment.committee || COMMA in id
    requires x in committee && y in committee && x != y
    requires x in r.assignment.committee && y in r.assignment.committee
    ensures var record := VerdictOf(WithCommittee(r, committee), ballot, {x, y}, c);
            && ValidRecord(p, record) && record.auditId == r.auditId
            && record.summary.kind == (if Lower(c) == Lower(r.assignment.commitment) then Pass else Fraud)
            && forall v | v in record.evidence :: v.validator in {x, y}
  {
    hide ShapeOk, Joined, VoteOk, ValidRecord, VerdictOf, Distinct;
    SameWriting(p, r, committee);
    QuorumDecides(p, WithCommittee(r, committee), ballot, {x, y}, c);
  }

  /** Under the id of a comma-free committee of four already, nobody needs to sign twice: two of a, b and the
      one string "c,d" against two of the one string "a,b" and c, d. */
  lemma NobodyTwice(p: Protocol, r: Request, ballot: (Bytes, Bytes) -> Vote, c: Bytes, d: Bytes)
    returns (a: Record, b: Record)
    requires ShapeOk(p, r) && IsSafeInteger(r.deadline + 1) && AllCanVote(p, r, ballot)
    requires CommaFree(r.assignment.committee) && NoPrefixes(r.assignment.committee)
    requires |r.assignment.committee| >= 4 && COMMA !in r.assignment.claimantId
    requires IsHex64(c) && IsHex64(d) && Lower(c) == Lower(r.assignment.commitment) != Lower(d)
    ensures ValidRecord(p, a) && ValidRecord(p, b) && a.auditId == b.auditId == r.auditId
    ensures a.summary.kind == Pass && b.summary.kind == Fraud
    ensures forall v :: !VotedTwice(p, a, b, v)
  {
    hide ShapeOk, Joined, CommaFree, NoPrefixes, AllCanVote, ValidRecord, VerdictOf;
    var committee := r.assignment.committee;
    var n := |committee|;
    MembersDiffer(p, r);
    var sorted, head, tail := OppositeCommittees(committee);
    SamePopulation(sorted, committee);
    forall i | 0 <= i < n
      ensures sorted[i] in committee
    {
      assert sorted[i] in Elements(sorted);
    }
    OneOfThree(head);
    OneOfThree(tail);
    TwoDecide(p, r, ballot, head, sorted[0], sorted[1], c);
    TwoDecide(p, r, ballot, tail, sorted[n - 2], sorted[n - 1], d);
    a := VerdictOf(WithCommittee(r, head), ballot, {sorted[0], sorted[1]}, c);
    b := VerdictOf(WithCommittee(r, tail), ballot, {sorted[n - 2], sorted[n - 1]}, d);
  }

  /** Under the id of a comma-free committee of three every valid record names three comma-free members. */
  lemma ThreeAreFixed(p: Protocol, r: Request, a: Record)
    requires IdsCommit(p) && ShapeOk(p, r) && ValidRecord(p, a) && a.auditId == r.auditId
    requires CommaFree(r.assignment.committee) && COMMA !in r.assignment.claimantId && |r.assignment.committee| == 3
    ensures CommaFree(a.request.assignment.committee) && |a.request.assignment.committee| == 3
  {
    IdFixesCommittee(p, r);
    RecordShape(p, a);
    SamePopulation(r.assignment.committee, a.request.assignment.committee);
    CommaFreeAnyOrder(r.assignment.committee, a.request.assignment.committee);
  }

  /** With everybody able to vote and no member's id beginning another's: two contradicting verdicts under the
      id of a comma-free committee, whatever committees they name, force somebody to sign twice exactly when
      that committee has three members. */
  lemma ForcedOnlyForThree(p: Protocol, r: Request, ballot: (Bytes, Bytes) -> Vote, d: Bytes)
    requires IdsCommit(p) && AddressesCommaFree(p)
    requires ShapeOk(p, r) && IsSafeInteger(r.deadline + 1) && AllCanVote(p, r, ballot)
    requires CommaFree(r.assignment.committee) && NoPrefixes(r.assignment.committee)
    requires COMMA !in r.assignment.claimantId
    requires IsHex64(d) && Lower(r.assignment.commitment) != Lower(d)
    ensures (forall a, b {:trigger ValidRecord(p, a), ValidRecord(p, b)} |
               && ValidRecord(p, a) && ValidRecord(p, b) && Contradict(a, b)
               && a.auditId == b.auditId == r.auditId ::
               exists v :: VotedTwice(p, a, b, v))
            <==> |r.assignment.committee| == 3
  {
    hide ValidRecord, VotedTwice, IdsCommit, AddressesCommaFree, CommaFree, NoPrefixes;
    if |r.assignment.committee| == 3 {
      forall a, b | && ValidRecord(p, a) && ValidRecord(p, b) && Contradict(a, b)
                    && a.auditId == b.auditId == r.auditId
        ensures exists v :: VotedTwice(p, a, b, v)
      {
        ThreeAreFixed(p, r, a);
        var both := QuorumIntersection(p, a, b);
        var v :| v in both;
      }
    } else {
      var a, b := NobodyTwice(p, r, ballot, r.assignment.commitment, d);
    }
  }
}

/** The transitions of the audit lifecycle and the invariant they keep. */
module AuditTransitions {
  import opened Canonical
  import opened Collections
  import opened Committees
  import opened Audit

  datatype OpenAudit = OpenAudit(request: Request, votes: map<Bytes, Vote>)

  datatype State = State(
    open: map<Bytes, OpenAudit>,
    requests: map<Bytes, Request>,
    verdicts: map<Bytes, Record>)

  // ---------- Evidence in canonical order ----------

  predicate ByValidator(a: Vote, b: Vote) {
    AtMost(a.validator, b.validator)
  }

  ghost predicate KeyedVotes(votes: map<Bytes, Vote>, id: Bytes) {
    forall v | v in votes :: votes[v].validator == v && votes[v].auditId == id
  }

  /** The votes of an audit sorted by validator. */
  ghost function EvidenceOf(votes: map<Bytes, Vote>): seq<Vote> {
    ListExists(votes.Values);
    var e :| Lists(votes.Values, e);
    Sort(ByValidator, e)
  }

  lemma EvidenceIs(votes: map<Bytes, Vote>, id: Bytes, e: seq<Vote>)
    requires KeyedVotes(votes, id) && Lists(votes.Values, e)
    ensures Sort(ByValidator, e) == EvidenceOf(votes)
  {
    ListExists(votes.Values);
    var f :| Lists(votes.Values, f) && EvidenceOf(votes) == Sort(ByValidator, f);
    ListedElements(votes.Values, e);
    VoteOrder(votes, id);
    SortForgetsOrder(ByValidator, e, f);
  }

  lemma VoteOrder(votes: map<Bytes, Vote>, id: Bytes)
    requires KeyedVotes(votes, id)
    ensures Orders(ByValidator, votes.Values) && Injective(votes)
  {
    AtMostIsTotalOrder();
  }

  /** The evidence is every vote once, in strictly ascending order. */
  lemma EvidenceSorted(votes: map<Bytes, Vote>, id: Bytes)
    requires KeyedVotes(votes, id)
    ensures Ascending(EvidenceOf(votes)) && Lists(votes.Values, EvidenceOf(votes))
    ensures Elements(EvidenceOf(votes)) == votes.Values && |EvidenceOf(votes)| == |votes|
  {
    ListExists(votes.Values);
    var e :| Lists(votes.Values, e) && EvidenceOf(votes) == Sort(ByValidator, e);
    var sorted := EvidenceOf(votes);
    ListedElements(votes.Values, e);
    VoteOrder(votes, id);
    SortPermutes(ByValidator, e);
    SortSorts(ByValidator, e);
    ListedElements(votes.Values, sorted);
    SortedAscends(votes, id, sorted);
    ValuesCount(votes);
  }

  lemma SortedAscends(votes: map<Bytes, Vote>, id: Bytes, e: seq<Vote>)
    requires KeyedVotes(votes, id) && Lists(votes.Values, e) && SortedBy(ByValidator, e)
    ensures Ascending(e)
  {
    BeforeIsStrictOrder();
    ListedElements(votes.Values, e);
    forall i, j | 0 <= i < j < |e|
      ensures Before(e[i].validator, e[j].validator)
    {
      ListedOnce(votes.Values, e, i, j);
      assert e[i] in votes.Values && e[j] in votes.Values;
      assert ByValidator(e[i], e[j]);
    }
  }

  /** What finalizing an audit at a height records. */
  ghost function RecordOf(audit: OpenAudit, height: int): Record {
    RecordFrom(audit.request, EvidenceOf(audit.votes), height)
  }

  ghost function RecordFrom(request: Request, evidence: seq<Vote>, height: int): Record {
    var a := request.assignment;
    Record(request.auditId, request, a.claimId, a.claimantId, a.commitment, SummaryOf(a, evidence), height, evidence)
  }

  // ---------- The digest a block commits to ----------

  function NormalVote(v: Vote): Vote {
    v.(publicKey := Lower(v.publicKey), observed := Lower(v.observed), signature := Lower(v.signature))
  }

  function NormalVotes(e: seq<Vote>): (r: seq<Vote>)
    ensures |r| == |e|
  {
    seq(|e|, i requires 0 <= i < |e| => NormalVote(e[i]))
  }

  function NormalRequest(request: Request): Request {
    var a := request.assignment;
    Request([], a.(commitment := Lower(a.commitment), beaconHash := Lower(a.beaconHash),
                   committee := [Joined(a.committee)]), request.deadline)
  }

  /** The fields the digest covers: letter case and listing order are erased, the committee is one string. */
  function Normal(r: Record): Record {
    var top := if r.summary.top.None? then [] else Lower(r.summary.top.value);
    r.(request := NormalRequest(r.request), claimed := Lower(r.claimed),
       summary := r.summary.(top := Some(top)), evidence := NormalVotes(Sort(ByValidator, r.evidence)))
  }

  function Commitment(p: Protocol, r: Record): Bytes {
    p.verdictDigest(Normal(r))
  }

  /** A record whose request, votes and summary are in order, whether or not its heights are. */
  ghost predicate Orderly(p: Protocol, r: Record) {
    && ShapeOk(p, r.request) && Identified(r)
    && (forall v | v in r.evidence :: VoteOk(p, v))
    && Lowered(r.summary) == SummaryOf(r.request.assignment, r.evidence)
  }

  /** The digest of an orderly record commits to the fields it covers. */
  ghost predicate DigestsCommit(p: Protocol) {
    forall a, b {:trigger Orderly(p, a), Orderly(p, b)} |
      Orderly(p, a) && Orderly(p, b) && Commitment(p, a) == Commitment(p, b) :: Normal(a) == Normal(b)
  }

  lemma ValidIsOrderly(p: Protocol, r: Record)
    requires ValidRecord(p, r)
    ensures Orderly(p, r)
  {
    hide ShapeOk, Timely, SummaryOf;
    forall v | v in r.evidence
      ensures VoteOk(p, v)
    {
      var i :| 0 <= i < |r.evidence| && r.evidence[i] == v;
      assert VoteFits(p, r.request, r.finalizedAt, r.evidence[i]);
    }
  }

  /** So is whatever a well-formed request and verifying votes make. */
  lemma RecordIsOrderly(p: Protocol, request: Request, evidence: seq<Vote>, height: int)
    requires ShapeOk(p, request) && forall v | v in evidence :: VoteOk(p, v)
    ensures Orderly(p, RecordFrom(request, evidence, height))
  {
    hide ShapeOk, Leads;
    SummaryIsLowered(request.assignment, evidence);
  }

  lemma SameNormal(p: Protocol, a: Record, b: Record)
    requires DigestsCommit(p) && Orderly(p, a) && Orderly(p, b) && Commitment(p, a) == Commitment(p, b)
    ensures Normal(a) == Normal(b)
  {
    hide Orderly, Normal;
  }

  // ---------- Transitions ----------

  predicate CanRegister(p: Protocol, s: State, request: Request, height: int) {
    && ShapeOk(p, request)
    && request.assignment.beaconHeight <= height <= request.deadline
    && request.auditId !in s.verdicts && request.auditId !in s.open
    && |s.open| < p.maxOpen
  }

  function Registered(s: State, request: Request): State {
    s.(open := s.open[request.auditId := OpenAudit(request, map[])],
       requests := s.requests[request.auditId := request])
  }

  function Register(p: Protocol, s: State, request: Request, height: int): (State, bool) {
    if CanRegister(p, s, request, height) then (Registered(s, request), true) else (s, false)
  }

  predicate CanVote(p: Protocol, s: State, vote: Vote, height: int) {
    && vote.auditId in s.open
    && var audit := s.open[vote.auditId];
       && vote.validator in audit.request.assignment.committee
       && vote.validator !in audit.votes
       && audit.request.assignment.beaconHeight <= vote.submittedAt <= audit.request.deadline
       && vote.submittedAt <= height
       && VoteOk(p, vote)
  }

  function Submit(p: Protocol, s: State, vote: Vote, height: int): (State, bool) {
    if CanVote(p, s, vote, height) then
      var audit := s.open[vote.auditId];
      (s.(open := s.open[vote.auditId := audit.(votes := audit.votes[vote.validator := vote])]), true)
    else (s, false)
  }

  predicate Ripe(audit: OpenAudit, height: int) {
    height > audit.request.deadline || |audit.votes| >= |audit.request.assignment.committee|
  }

  predicate Due(audit: OpenAudit, height: int) {
    |audit.votes| == |audit.request.assignment.committee| || height > audit.request.deadline
  }

  ghost function Finalize(s: State, id: Bytes, height: int): (State, Option<Record>) {
    if id !in s.open then (s, if id in s.verdicts then Some(s.verdicts[id]) else None)
    else if !Ripe(s.open[id], height) then (s, None)
    else
      var record := RecordOf(s.open[id], height);
      (s.(open := s.open - {id}, verdicts := s.verdicts[id := record]), Some(record))
  }

  /** Finalizes every due audit; the order does not matter. */
  ghost function FinalizeDue(s: State, height: int): State {
    s.(open := map id | id in s.open && !Due(s.open[id], height) :: s.open[id],
       verdicts := s.verdicts + DueRecords(s, height))
  }

  ghost function DueRecords(s: State, height: int): map<Bytes, Record> {
    map id | id in s.open && Due(s.open[id], height) :: RecordOf(s.open[id], height)
  }

  ghost function Index(p: Protocol, s: State, r: Record): (State, bool) {
    if !ValidRecord(p, r) then (s, false)
    else
      var same := r.auditId in s.verdicts && Commitment(p, s.verdicts[r.auditId]) == Commitment(p, r);
      (State(s.open - {r.auditId}, s.requests[r.auditId := r.request],
             if same then s.verdicts else s.verdicts[r.auditId := r]), true)
  }

  /** The requests that left the active chain. */
  function Stale(s: State, chainBound: Request -> bool): set<Bytes> {
    set id | id in s.requests && !chainBound(s.requests[id])
  }

  /** Forgets everything about stale requests. */
  function Pruned(s: State, chainBound: Request -> bool): State {
    var stale := Stale(s, chainBound);
    State(s.open - stale, s.requests - stale, s.verdicts - stale)
  }

  ghost function Reconcile(s: State, height: int, chainBound: Request -> bool): State {
    FinalizeDue(Pruned(s, chainBound), height)
  }

  // ---------- The invariant ----------

  /** Every map is keyed by what its values say. */
  ghost predicate Keyed(s: State) {
    && (forall id | id in s.requests :: s.requests[id].auditId == id)
    && (forall id | id in s.verdicts :: s.verdicts[id].auditId == id)
    && (forall id | id in s.open :: s.open[id].request.auditId == id && KeyedVotes(s.open[id].votes, id))
  }

  /** An open audit: at most one valid, in-window vote from each member of its committee. */
  ghost predicate OpenOk(p: Protocol, s: State, id: Bytes, height: int)
    requires id in s.open
  {
    var audit := s.open[id];
    && id in s.requests && audit.request == s.requests[id]
    && KeyedVotes(audit.votes, id)
    && forall v {:trigger audit.votes[v]} | v in audit.votes :: VoteFits(p, audit.request, height, audit.votes[v])
  }

  /** A stored verdict passes the independent validator and belongs to the registered request. */
  ghost predicate VerdictOk(p: Protocol, s: State, id: Bytes)
    requires id in s.verdicts
  {
    var r := s.verdicts[id];
    && id in s.requests && id !in s.open
    && r.auditId == id && ValidRecord(p, r)
    && NormalRequest(r.request) == NormalRequest(s.requests[id])
  }

  ghost predicate RequestsOk(p: Protocol, s: State) {
    forall id | id in s.requests :: s.requests[id].auditId == id && ShapeOk(p, s.requests[id])
  }

  ghost predicate OpensOk(p: Protocol, s: State, height: int) {
    forall id {:trigger OpenOk(p, s, id, height)} | id in s.open :: OpenOk(p, s, id, height)
  }

  ghost predicate VerdictsOk(p: Protocol, s: State) {
    forall id {:trigger VerdictOk(p, s, id)} | id in s.verdicts :: VerdictOk(p, s, id)
  }

  ghost predicate Inv(p: Protocol, s: State, height: int) {
    |s.open| <= p.maxOpen && RequestsOk(p, s) && OpensOk(p, s, height) && VerdictsOk(p, s)
  }

  lemma InvIsKeyed(p: Protocol, s: State, height: int)
    requires Inv(p, s, height)
    ensures Keyed(s)
  {
    forall id | id in s.open
      ensures s.open[id].request.auditId == id && KeyedVotes(s.open[id].votes, id)
    {
      assert OpenOk(p, s, id, height);
    }
    forall id | id in s.verdicts
      ensures s.verdicts[id].auditId == id
    {
      assert VerdictOk(p, s, id);
    }
  }

  /** An audit is never open and finalized at once, and both kinds are registered requests. */
  lemma NeverBoth(p: Protocol, s: State, height: int)
    requires Inv(p, s, height)
    ensures s.open.Keys !! s.verdicts.Keys && s.open.Keys + s.verdicts.Keys <= s.requests.Keys
  {
    hide ShapeOk, ValidRecord, VoteFits, NormalRequest, KeyedVotes;
    forall id | id in s.verdicts
      ensures id !in s.open && id in s.requests
    {
      assert VerdictOk(p, s, id);
    }
    forall id | id in s.open
      ensures id in s.requests
    {
      assert OpenOk(p, s, id, height);
    }
  }

  /** The votes of a well-formed open audit fit in its committee. */
  lemma VotesBounded(p: Protocol, audit: OpenAudit, id: Bytes, height: int)
    requires ShapeOk(p, audit.request) && KeyedVotes(audit.votes, id)
    requires forall v | v in audit.votes :: VoteFits(p, audit.request, height, audit.votes[v])
    ensures |audit.votes| <= |audit.request.assignment.committee|
  {
    var committee := audit.request.assignment.committee;
    DistinctSize(committee);
    assert audit.votes.Keys <= Elements(committee);
    Subset(audit.votes.Keys, Elements(committee));
  }

  /** Finalize and the independent validator agree: the record of a ripe audit is valid exactly when
      no vote claims a height after the finalization. */
  lemma FinalizedRecordValid(p: Protocol, audit: OpenAudit, id: Bytes, height: int, bound: int)
    requires ShapeOk(p, audit.request) && audit.request.auditId == id && KeyedVotes(audit.votes, id)
    requires forall v | v in audit.votes :: VoteFits(p, audit.request, bound, audit.votes[v])
    requires Ripe(audit, height) && IsSafeInteger(height)
    ensures ValidRecord(p, RecordOf(audit, height))
            <==> forall v | v in audit.votes :: audit.votes[v].submittedAt <= height
  {
    var r := RecordOf(audit, height);
    EvidenceSorted(audit.votes, id);
    VotesBounded(p, audit, id, bound);
    if forall v | v in audit.votes :: audit.votes[v].submittedAt <= height {
      EvidenceFits(p, audit, id, height);
      SummaryIsLowered(audit.request.assignment, r.evidence);
      FullAfterBeacon(p, audit, id, height);
    } else {
      var v :| v in audit.votes && audit.votes[v].submittedAt > height;
      assert audit.votes[v] in Elements(r.evidence);
      var i :| 0 <= i < |r.evidence| && r.evidence[i] == audit.votes[v];
      assert !VoteFits(p, r.request, r.finalizedAt, r.evidence[i]);
    }
  }

  lemma EvidenceFits(p: Protocol, audit: OpenAudit, id: Bytes, height: int)
    requires KeyedVotes(audit.votes, id)
    requires forall v | v in audit.votes :: VoteFits(p, audit.request, height, audit.votes[v])
    ensures EvidenceOk(p, RecordOf(audit, height))
  {
    var r := RecordOf(audit, height);
    EvidenceSorted(audit.votes, id);
    forall i | 0 <= i < |r.evidence|
      ensures VoteFits(p, r.request, r.finalizedAt, r.evidence[i])
    {
      assert r.evidence[i] in Elements(r.evidence);
    }
  }

  /** With at least one vote in, the height has reached the beacon. */
  lemma FullAfterBeacon(p: Protocol, audit: OpenAudit, id: Bytes, height: int)
    requires ShapeOk(p, audit.request) && Ripe(audit, height)
    requires forall v | v in audit.votes :: VoteFits(p, audit.request, height, audit.votes[v])
    ensures height >= audit.request.assignment.beaconHeight
  {
    if height <= audit.request.deadline {
      assert audit.votes != map[];
      var v :| v in audit.votes;
      assert VoteFits(p, audit.request, height, audit.votes[v]);
    }
  }

  lemma SummaryIsLowered(a: Assignment, e: seq<Vote>)
    ensures Lowered(SummaryOf(a, e)) == SummaryOf(a, e)
  {
    if e != [] {
      LeaderIsLower(e, Leader(e).value);
    }
  }

  lemma {:induction false} LeaderIsLower(e: seq<Vote>, c: Bytes)
    requires CountOf(e, c) > 0
    ensures Lower(c) == c
  {
    var n := |e| - 1;
    LowerIdempotent(e[n].observed);
    if Lower(e[n].observed) != c {
      LeaderIsLower(e[..n], c);
    }
  }

  // ---------- Every transition keeps the invariant ----------

  lemma TimePasses(p: Protocol, s: State, height: int, later: int)
    requires Inv(p, s, height) && height <= later
    ensures Inv(p, s, later)
  {
    forall id | id in s.open
      ensures OpenOk(p, s, id, later)
    {
      assert OpenOk(p, s, id, height);
    }
  }

  lemma OneMore<K, V>(m: map<K, V>, k: K, v: V)
    requires k !in m
    ensures |m[k := v]| == |m| + 1
  {
    assert m[k := v].Keys == m.Keys + {k};
  }

  lemma Fewer<K, V>(m: map<K, V>, ks: set<K>)
    ensures |m - ks| <= |m|
    decreases |m|
  {
    if k :| k in m && k in ks {
      Fewer(m - {k}, ks);
      assert (m - {k}).Keys == m.Keys - {k};
      assert m - {k} - ks == m - ks;
    } else {
      assert m - ks == m;
    }
  }

  ghost predicate SameElsewhere<K(!new), V>(m: map<K, V>, n: map<K, V>, k: K) {
    forall x | x != k :: (x in m <==> x in n) && (x in m ==> m[x] == n[x])
  }

  /** Closing one audit and rewriting its request and verdict leaves every other audit as it was. */
  lemma ReplaceKeeps(p: Protocol, s: State, t: State, id: Bytes, height: int)
    requires Inv(p, s, height)
    requires t.open == s.open - {id}
    requires id in t.requests && t.requests[id].auditId == id && ShapeOk(p, t.requests[id])
    requires SameElsewhere(s.requests, t.requests, id) && SameElsewhere(s.verdicts, t.verdicts, id)
    requires id in t.verdicts ==> VerdictOk(p, t, id)
    ensures Inv(p, t, height)
  {
    hide ShapeOk, VerdictOk, OpensOk, VerdictsOk, RequestsOk;
    Fewer(s.open, {id});
    RequestsStay(p, s, t, id);
    OpensStay(p, s, t, id, height);
    VerdictsStay(p, s, t, id);
  }

  lemma RequestsStay(p: Protocol, s: State, t: State, id: Bytes)
    requires RequestsOk(p, s) && SameElsewhere(s.requests, t.requests, id)
    requires id in t.requests ==> t.requests[id].auditId == id && ShapeOk(p, t.requests[id])
    ensures RequestsOk(p, t)
  {
    hide ShapeOk;
  }

  lemma OpensStay(p: Protocol, s: State, t: State, id: Bytes, height: int)
    requires OpensOk(p, s, height) && t.open == s.open - {id}
    requires forall x | x != id && x in s.requests :: x in t.requests && s.requests[x] == t.requests[x]
    ensures OpensOk(p, t, height)
  {
    forall x | x in t.open
      ensures OpenOk(p, t, x, height)
    {
      assert OpenOk(p, s, x, height);
    }
  }

  lemma VerdictsStay(p: Protocol, s: State, t: State, id: Bytes)
    requires VerdictsOk(p, s) && t.open == s.open - {id}
    requires forall x | x != id && x in s.requests :: x in t.requests && s.requests[x] == t.requests[x]
    requires forall x | x != id && x in t.verdicts :: x in s.verdicts && s.verdicts[x] == t.verdicts[x]
    requires id in t.verdicts ==> VerdictOk(p, t, id)
    ensures VerdictsOk(p, t)
  {
    forall x | x in t.verdicts
      ensures VerdictOk(p, t, x)
    {
      assert x != id ==> VerdictOk(p, s, x);
    }
  }

  lemma RegisterKeeps(p: Protocol, s: State, request: Request, height: int)
    requires Inv(p, s, height)
    ensures Inv(p, Register(p, s, request, height).0, height)
  {
    hide ShapeOk, VoteFits, ValidRecord, NormalRequest;
    if CanRegister(p, s, request, height) {
      var t := Registered(s, request);
      OneMore(s.open, request.auditId, OpenAudit(request, map[]));
      forall id | id in t.open
        ensures OpenOk(p, t, id, height)
      {
        assert id != request.auditId ==> OpenOk(p, s, id, height);
      }
      forall id | id in t.verdicts
        ensures VerdictOk(p, t, id)
      {
        assert VerdictOk(p, s, id);
      }
    }
  }

  lemma SubmitKeeps(p: Protocol, s: State, vote: Vote, height: int)
    requires Inv(p, s, height)
    ensures Inv(p, Submit(p, s, vote, height).0, height)
  {
    hide ShapeOk, ValidRecord, NormalRequest;
    if CanVote(p, s, vote, height) {
      var t := Submit(p, s, vote, height).0;
      assert t.open.Keys == s.open.Keys;
      forall id | id in t.open
        ensures OpenOk(p, t, id, height)
      {
        assert OpenOk(p, s, id, height);
      }
      forall id | id in t.verdicts
        ensures VerdictOk(p, t, id)
      {
        assert VerdictOk(p, s, id);
      }
    }
  }

  lemma RipeRecordOk(p: Protocol, s: State, id: Bytes, height: int)
    requires Inv(p, s, height) && IsSafeInteger(height) && id in s.open && Ripe(s.open[id], height)
    ensures id in s.requests
    ensures ValidRecord(p, RecordOf(s.open[id], height)) && RecordOf(s.open[id], height).request == s.requests[id]
  {
    assert OpenOk(p, s, id, height);
    assert ShapeOk(p, s.requests[id]);
    FinalizedRecordValid(p, s.open[id], id, height, height);
  }

  lemma DueIsRipe(p: Protocol, s: State, id: Bytes, height: int)
    requires Inv(p, s, height) && id in s.open
    ensures Due(s.open[id], height) <==> Ripe(s.open[id], height)
  {
    assert OpenOk(p, s, id, height);
    assert ShapeOk(p, s.requests[id]);
    VotesBounded(p, s.open[id], id, height);
  }

  lemma FinalizeKeeps(p: Protocol, s: State, id: Bytes, height: int)
    requires Inv(p, s, height) && IsSafeInteger(height)
    ensures Inv(p, Finalize(s, id, height).0, height)
  {
    if id in s.open && Ripe(s.open[id], height) {
      RipeRecordOk(p, s, id, height);
      assert OpenOk(p, s, id, height);
      ReplaceKeeps(p, s, Finalize(s, id, height).0, id, height);
      hide Inv, ValidRecord;
    }
  }

  lemma FinalizeDueKeeps(p: Protocol, s: State, height: int)
    requires Inv(p, s, height) && IsSafeInteger(height)
    ensures Inv(p, FinalizeDue(s, height), height)
  {
    var t := FinalizeDue(s, height);
    assert t.open.Keys <= s.open.Keys;
    Subset(t.open.Keys, s.open.Keys);
    forall x | x in t.open
      ensures OpenOk(p, t, x, height)
    {
      assert OpenOk(p, s, x, height);
    }
    forall x | x in t.verdicts
      ensures VerdictOk(p, t, x)
    {
      if x in DueRecords(s, height) {
        assert OpenOk(p, s, x, height);
        DueIsRipe(p, s, x, height);
        RipeRecordOk(p, s, x, height);
      } else {
        assert VerdictOk(p, s, x);
      }
    }
  }

  /** An indexed verdict, or the equal one it found, belongs to the request it brought. */
  lemma IndexedVerdictOk(p: Protocol, s: State, r: Record, height: int)
    requires Inv(p, s, height) && DigestsCommit(p) && ValidRecord(p, r)
    ensures VerdictOk(p, Index(p, s, r).0, r.auditId)
  {
    hide ShapeOk, EvidenceOk, SummaryOf, Timely, NormalRequest, NormalVotes, Lower, OpenOk, KeyedVotes, DigestsCommit, Orderly;
    ValidIsOrderly(p, r);
    if r.auditId in s.verdicts {
      assert VerdictOk(p, s, r.auditId);
      ValidIsOrderly(p, s.verdicts[r.auditId]);
      if Commitment(p, s.verdicts[r.auditId]) == Commitment(p, r) {
        SameNormal(p, s.verdicts[r.auditId], r);
      }
    }
  }

  lemma RecordShape(p: Protocol, r: Record)
    requires ValidRecord(p, r)
    ensures r.auditId == r.request.auditId && ShapeOk(p, r.request)
  {
    hide ShapeOk, Timely, EvidenceOk, SummaryOf;
  }

  lemma IndexKeeps(p: Protocol, s: State, r: Record, height: int)
    requires Inv(p, s, height) && DigestsCommit(p)
    ensures Inv(p, Index(p, s, r).0, height)
  {
    hide Inv, DigestsCommit, ValidRecord, ShapeOk, VerdictOk, Commitment;
    if ValidRecord(p, r) {
      IndexedVerdictOk(p, s, r, height);
      RecordShape(p, r);
      ReplaceKeeps(p, s, Index(p, s, r).0, r.auditId, height);
    }
  }

  lemma PruneKeeps(p: Protocol, s: State, chainBound: Request -> bool, height: int)
    requires Inv(p, s, height)
    ensures Inv(p, Pruned(s, chainBound), height)
  {
    var t := Pruned(s, chainBound);
    Subset(t.open.Keys, s.open.Keys);
    forall x | x in t.open
      ensures OpenOk(p, t, x, height)
    {
      assert OpenOk(p, s, x, height);
    }
    forall x | x in t.verdicts
      ensures VerdictOk(p, t, x)
    {
      assert VerdictOk(p, s, x);
    }
  }
}

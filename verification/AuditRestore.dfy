/** Persisting the audit lifecycle: snapshots, restoring by re-validation, and why the one undoes the other. */
module AuditRestore {
  import opened Canonical
  import opened Collections
  import opened Committees
  import opened Audit
  import opened AuditTransitions

  datatype Snapshot = Snapshot(requests: seq<Request>, openVotes: seq<Vote>, verdicts: seq<Record>)

  // ---------- Snapshots ----------

  predicate ByRequest(a: Request, b: Request) {
    AtMost(a.auditId, b.auditId)
  }

  predicate ByRecord(a: Record, b: Record) {
    AtMost(a.auditId, b.auditId)
  }

  predicate ByVote(a: Vote, b: Vote) {
    Before(a.auditId, b.auditId) || (a.auditId == b.auditId && AtMost(a.validator, b.validator))
  }

  ghost function OpenVotes(s: State): set<Vote> {
    set id, v | id in s.open && v in s.open[id].votes :: s.open[id].votes[v]
  }

  /** Every request, open vote and verdict once, in canonical order. */
  ghost predicate IsSnapshot(s: State, snap: Snapshot) {
    && Lists(s.requests.Values, snap.requests) && SortedBy(ByRequest, snap.requests)
    && Lists(OpenVotes(s), snap.openVotes) && SortedBy(ByVote, snap.openVotes)
    && Lists(s.verdicts.Values, snap.verdicts) && SortedBy(ByRecord, snap.verdicts)
  }

  /** A state has one snapshot. */
  lemma SnapshotUnique(s: State, a: Snapshot, b: Snapshot)
    requires Keyed(s) && IsSnapshot(s, a) && IsSnapshot(s, b)
    ensures a == b
  {
    SnapshotOrders(s);
    ListedElements(s.requests.Values, a.requests);
    ListedElements(OpenVotes(s), a.openVotes);
    ListedElements(s.verdicts.Values, a.verdicts);
    SortedUnique(ByRequest, a.requests, b.requests);
    SortedUnique(ByVote, a.openVotes, b.openVotes);
    SortedUnique(ByRecord, a.verdicts, b.verdicts);
  }

  lemma SnapshotOrders(s: State)
    requires Keyed(s)
    ensures Orders(ByRequest, s.requests.Values) && Injective(s.requests)
    ensures Orders(ByRecord, s.verdicts.Values) && Injective(s.verdicts)
    ensures Orders(ByVote, OpenVotes(s))
  {
    AtMostIsTotalOrder();
    BeforeIsStrictOrder();
  }

  // ---------- Restoring ----------

  const EMPTY_STATE: State := State(map[], map[], map[])

  predicate CanRestore(p: Protocol, chainBound: Request -> bool, s: State, r: Request) {
    |s.requests| < p.maxOpen && ShapeOk(p, r) && chainBound(r) && r.auditId !in s.requests
  }

  /** Re-validated requests, and how many were dropped. */
  function AfterRequests(p: Protocol, chainBound: Request -> bool, rs: seq<Request>): (State, nat) {
    if rs == [] then (EMPTY_STATE, 0)
    else
      var n := |rs| - 1;
      var (s, dropped) := AfterRequests(p, chainBound, rs[..n]);
      if CanRestore(p, chainBound, s, rs[n]) then (Registered(s, rs[n]), dropped) else (s, dropped + 1)
  }

  /** Every vote submitted in turn, and how many were refused. */
  function AfterVotes(p: Protocol, s: State, votes: seq<Vote>, height: int): (State, nat) {
    if votes == [] then (s, 0)
    else
      var n := |votes| - 1;
      var (t, dropped) := AfterVotes(p, s, votes[..n], height);
      var (u, accepted) := Submit(p, t, votes[n], height);
      (u, if accepted then dropped else dropped + 1)
  }

  /** Evidence submitted until a vote is refused. */
  function AfterEvidence(p: Protocol, s: State, votes: seq<Vote>, height: int): (State, bool) {
    if votes == [] then (s, true)
    else
      var n := |votes| - 1;
      var (t, ok) := AfterEvidence(p, s, votes[..n], height);
      if ok then Submit(p, t, votes[n], height) else (t, false)
  }

  /** Rebuilds a verdict from its evidence, and keeps it only if it commits to what was stored. */
  ghost function RestoreVerdict(p: Protocol, s: State, r: Record, height: int): (State, bool) {
    if r.auditId !in s.open || r.request.auditId != s.open[r.auditId].request.auditId || !ValidRecord(p, r)
    then (s, false)
    else
      var (t, ok) := AfterEvidence(p, s, r.evidence, height);
      if ok then FinalizeStored(p, t, r) else (t, false)
  }

  ghost function FinalizeStored(p: Protocol, s: State, r: Record): (State, bool) {
    var (t, derived) := Finalize(s, r.auditId, r.finalizedAt);
    if derived.Some? && Commitment(p, derived.value) == Commitment(p, r) then (t, true)
    else (t.(verdicts := t.verdicts - {r.auditId}), false)
  }

  ghost function AfterVerdicts(p: Protocol, s: State, rs: seq<Record>, height: int): (State, nat) {
    if rs == [] then (s, 0)
    else
      var n := |rs| - 1;
      var (t, dropped) := AfterVerdicts(p, s, rs[..n], height);
      var (u, restored) := RestoreVerdict(p, t, rs[n], height);
      (u, if restored then dropped else dropped + 1)
  }

  /** Everything loaded again, before due audits are finalized, and how much was dropped. */
  ghost function Loaded(p: Protocol, snap: Snapshot, height: int, chainBound: Request -> bool): (State, nat) {
    var (s, d) := AfterRequests(p, chainBound, snap.requests);
    var (t, e) := AfterVotes(p, s, snap.openVotes, height);
    var (u, f) := AfterVerdicts(p, t, snap.verdicts, height);
    (u, d + e + f)
  }

  ghost function Restore(p: Protocol, snap: Snapshot, height: int, chainBound: Request -> bool): (State, nat) {
    var (s, dropped) := Loaded(p, snap, height, chainBound);
    (FinalizeDue(s, height), dropped)
  }

  /** Nothing is dropped exactly when no part of the restoration drops anything. */
  lemma RestoreParts(p: Protocol, snap: Snapshot, height: int, chainBound: Request -> bool)
    ensures var s := AfterRequests(p, chainBound, snap.requests);
            var t := AfterVotes(p, s.0, snap.openVotes, height);
            var u := AfterVerdicts(p, t.0, snap.verdicts, height);
            && Restore(p, snap, height, chainBound).0 == FinalizeDue(u.0, height)
            && (Restore(p, snap, height, chainBound).1 == 0 <==> s.1 == 0 && t.1 == 0 && u.1 == 0)
  {
    hide AfterRequests, AfterVotes, AfterVerdicts, FinalizeDue;
  }

  // ---------- Any snapshot restores into the invariant ----------

  lemma {:induction false} AfterRequestsKeeps(p: Protocol, chainBound: Request -> bool, rs: seq<Request>, height: int)
    ensures var s := AfterRequests(p, chainBound, rs).0;
            Inv(p, s, height) && s.open.Keys == s.requests.Keys && s.verdicts == map[] && |s.requests| <= p.maxOpen
  {
    if rs != [] {
      var n := |rs| - 1;
      AfterRequestsKeeps(p, chainBound, rs[..n], height);
      var s := AfterRequests(p, chainBound, rs[..n]).0;
      if CanRestore(p, chainBound, s, rs[n]) {
        RegisteredKeeps(p, s, rs[n], height);
      }
    }
  }

  lemma RegisteredKeeps(p: Protocol, s: State, r: Request, height: int)
    requires Inv(p, s, height) && s.open.Keys == s.requests.Keys && s.verdicts == map[]
    requires |s.requests| < p.maxOpen && ShapeOk(p, r) && r.auditId !in s.requests
    ensures var t := Registered(s, r);
            Inv(p, t, height) && t.open.Keys == t.requests.Keys && t.verdicts == map[] && |t.requests| <= p.maxOpen
  {
    var t := Registered(s, r);
    OneMore(s.requests, r.auditId, r);
    assert t.open.Keys == t.requests.Keys;
    assert |t.open| == |t.open.Keys| && |t.requests| == |t.requests.Keys|;
    forall id | id in t.open
      ensures OpenOk(p, t, id, height)
    {
      assert id != r.auditId ==> OpenOk(p, s, id, height);
    }
  }

  lemma {:induction false} AfterVotesKeeps(p: Protocol, s: State, votes: seq<Vote>, height: int)
    requires Inv(p, s, height)
    ensures Inv(p, AfterVotes(p, s, votes, height).0, height)
    ensures Inv(p, AfterEvidence(p, s, votes, height).0, height)
  {
    if votes != [] {
      var n := |votes| - 1;
      AfterVotesKeeps(p, s, votes[..n], height);
      SubmitKeeps(p, AfterVotes(p, s, votes[..n], height).0, votes[n], height);
      SubmitKeeps(p, AfterEvidence(p, s, votes[..n], height).0, votes[n], height);
      hide Inv, Submit;
    }
  }

  /** Equal commitments mean the votes agree on everything but letter case. */
  lemma SameHeights(a: Record, b: Record, x: Vote)
    requires Normal(a) == Normal(b) && x in a.evidence
    ensures exists y :: y in b.evidence && y.submittedAt == x.submittedAt
  {
    var s, t := Sort(ByValidator, a.evidence), Sort(ByValidator, b.evidence);
    SortPermutes(ByValidator, a.evidence);
    SortPermutes(ByValidator, b.evidence);
    assert x in Elements(s);
    var i :| 0 <= i < |s| && s[i] == x;
    assert NormalVotes(s) == NormalVotes(t);
    assert NormalVotes(s)[i] == NormalVotes(t)[i];
    assert t[i] in Elements(t);
  }

  /** Whatever an open audit is finalized to is orderly. */
  lemma AuditIsOrderly(p: Protocol, s: State, id: Bytes, finalizedAt: int, height: int)
    requires Inv(p, s, height) && id in s.open
    ensures Orderly(p, RecordOf(s.open[id], finalizedAt))
  {
    hide ShapeOk, VerdictsOk, SummaryOf, VoteOk;
    var audit := s.open[id];
    assert OpenOk(p, s, id, height) && ShapeOk(p, s.requests[id]);
    EvidenceSorted(audit.votes, id);
    var e := EvidenceOf(audit.votes);
    forall v | v in e
      ensures VoteOk(p, v)
    {
      assert v in Elements(e);
      var k :| k in audit.votes && audit.votes[k] == v;
      assert VoteFits(p, audit.request, height, audit.votes[k]);
    }
    RecordIsOrderly(p, audit.request, e, finalizedAt);
  }

  /** A verdict that commits to a valid stored one is itself valid. */
  lemma CommittedRecordValid(p: Protocol, s: State, r: Record, height: int)
    requires DigestsCommit(p) && Inv(p, s, height) && ValidRecord(p, r)
    requires r.auditId in s.open && Ripe(s.open[r.auditId], r.finalizedAt)
    requires Commitment(p, RecordOf(s.open[r.auditId], r.finalizedAt)) == Commitment(p, r)
    ensures ValidRecord(p, RecordOf(s.open[r.auditId], r.finalizedAt))
  {
    var audit := s.open[r.auditId];
    var derived := RecordOf(audit, r.finalizedAt);
    assert OpenOk(p, s, r.auditId, height);
    assert ShapeOk(p, audit.request);
    EvidenceSorted(audit.votes, r.auditId);
    AuditIsOrderly(p, s, r.auditId, r.finalizedAt, height);
    ValidIsOrderly(p, r);
    SameNormal(p, derived, r);
    forall v | v in audit.votes
      ensures audit.votes[v].submittedAt <= r.finalizedAt
    {
      assert audit.votes[v] in Elements(derived.evidence);
      SameHeights(derived, r, audit.votes[v]);
      var y :| y in r.evidence && y.submittedAt == audit.votes[v].submittedAt;
      var i :| 0 <= i < |r.evidence| && r.evidence[i] == y;
      assert VoteFits(p, r.request, r.finalizedAt, r.evidence[i]);
    }
    FinalizedRecordValid(p, audit, r.auditId, r.finalizedAt, height);
  }

  lemma RestoreVerdictKeeps(p: Protocol, s: State, r: Record, height: int)
    requires DigestsCommit(p) && Inv(p, s, height)
    ensures Inv(p, RestoreVerdict(p, s, r, height).0, height)
  {
    if r.auditId in s.open && ValidRecord(p, r) {
      var t := AfterEvidence(p, s, r.evidence, height).0;
      AfterVotesKeeps(p, s, r.evidence, height);
      EvidenceFrame(p, s, r.evidence, height);
      FinalizeStoredKeeps(p, t, r, height);
      hide Inv, ValidRecord, FinalizeStored, AfterEvidence;
    }
  }

  lemma FinalizeStoredKeeps(p: Protocol, t: State, r: Record, height: int)
    requires DigestsCommit(p) && Inv(p, t, height) && ValidRecord(p, r) && r.auditId in t.open
    ensures Inv(p, FinalizeStored(p, t, r).0, height)
  {
    hide DigestsCommit, Inv, ValidRecord, RecordOf, Commitment;
    var id := r.auditId;
    NeverBoth(p, t, height);
    if Ripe(t.open[id], r.finalizedAt) {
      RipeStoredKeeps(p, t, r, height);
    } else {
      assert t.verdicts - {id} == t.verdicts;
    }
  }

  lemma RipeStoredKeeps(p: Protocol, t: State, r: Record, height: int)
    requires DigestsCommit(p) && Inv(p, t, height) && ValidRecord(p, r)
    requires r.auditId in t.open && Ripe(t.open[r.auditId], r.finalizedAt) && r.auditId !in t.verdicts
    ensures Inv(p, FinalizeStored(p, t, r).0, height)
  {
    hide DigestsCommit, ValidRecord, EvidenceOf, SummaryOf;
    var id, derived := r.auditId, RecordOf(t.open[r.auditId], r.finalizedAt);
    assert OpenOk(p, t, id, height) && ShapeOk(p, t.requests[id]);
    if Commitment(p, derived) == Commitment(p, r) {
      CommittedRecordValid(p, t, r, height);
      hide RequestsOk, OpensOk, VerdictsOk, ShapeOk;
      ReplaceKeeps(p, t, t.(open := t.open - {id}, verdicts := t.verdicts[id := derived]), id, height);
    } else {
      assert t.verdicts[id := derived] - {id} == t.verdicts;
      hide RequestsOk, OpensOk, VerdictsOk, ShapeOk, RecordOf;
      ReplaceKeeps(p, t, t.(open := t.open - {id}), id, height);
    }
  }

  /** Submitting evidence adds votes to open audits and does nothing else. */
  lemma {:induction false} EvidenceFrame(p: Protocol, s: State, votes: seq<Vote>, height: int)
    ensures var t := AfterEvidence(p, s, votes, height).0;
            && t.requests == s.requests && t.verdicts == s.verdicts && t.open.Keys == s.open.Keys
            && forall id | id in s.open :: t.open[id].request == s.open[id].request
  {
    if votes != [] {
      EvidenceFrame(p, s, votes[..|votes| - 1], height);
    }
  }

  lemma {:induction false} AfterVerdictsKeeps(p: Protocol, s: State, rs: seq<Record>, height: int)
    requires DigestsCommit(p) && Inv(p, s, height)
    ensures Inv(p, AfterVerdicts(p, s, rs, height).0, height)
  {
    if rs != [] {
      var n := |rs| - 1;
      AfterVerdictsKeeps(p, s, rs[..n], height);
      RestoreVerdictKeeps(p, AfterVerdicts(p, s, rs[..n], height).0, rs[n], height);
      hide Inv, RestoreVerdict;
    }
  }

  /** Whatever was persisted, restoring lands in the invariant. */
  lemma RestoreKeeps(p: Protocol, snap: Snapshot, height: int, chainBound: Request -> bool)
    requires DigestsCommit(p) && IsSafeInteger(height)
    ensures Inv(p, Restore(p, snap, height, chainBound).0, height)
  {
    var s := AfterRequests(p, chainBound, snap.requests).0;
    var t := AfterVotes(p, s, snap.openVotes, height).0;
    AfterRequestsKeeps(p, chainBound, snap.requests, height);
    AfterVotesKeeps(p, s, snap.openVotes, height);
    AfterVerdictsKeeps(p, t, snap.verdicts, height);
    FinalizeDueKeeps(p, AfterVerdicts(p, t, snap.verdicts, height).0, height);
    hide Inv, FinalizeDue;
  }

  // ---------- Restoring a snapshot gives back the state ----------

  /** A verdict that the registered request's committee can be credited with: as many members, every
      voter among them, and no vote from the future. */
  predicate Recountable(r: Record, request: Request, height: int) {
    && |r.request.assignment.committee| == |request.assignment.committee|
    && forall v | v in r.evidence :: v.validator in request.assignment.committee && v.submittedAt <= height
  }

  /** No open vote is from the future. */
  ghost predicate VotesPast(s: State, height: int) {
    forall id, v | id in s.open && v in s.open[id].votes :: s.open[id].votes[v].submittedAt <= height
  }

  /** What a restart needs to drop nothing: room for every request, every request still on the chain, no
      vote from the future, and every verdict countable on its registered request. */
  ghost predicate Keepable(p: Protocol, s: State, height: int, chainBound: Request -> bool) {
    && |s.requests| <= p.maxOpen
    && (forall id | id in s.requests :: chainBound(s.requests[id]))
    && VotesPast(s, height)
    && forall id | id in s.verdicts && id in s.requests :: Recountable(s.verdicts[id], s.requests[id], height)
  }

  /** And to add nothing: every request is open or finalized. */
  ghost predicate Restorable(p: Protocol, s: State, height: int, chainBound: Request -> bool) {
    Keepable(p, s, height, chainBound) && s.requests.Keys <= s.open.Keys + s.verdicts.Keys
  }

  /** A verdict as its evidence rebuilds it on the registered request. */
  ghost function RebuiltRecord(s: State, r: Record): Record
    requires r.auditId in s.requests
  {
    RecordFrom(s.requests[r.auditId], r.evidence, r.finalizedAt)
  }

  ghost function Rebuilt(s: State): State
    requires Keyed(s) && s.verdicts.Keys <= s.requests.Keys
  {
    s.(verdicts := map id | id in s.verdicts :: RebuiltRecord(s, s.verdicts[id]))
  }

  // ----- Requests -----

  function ById(rs: seq<Request>): map<Bytes, Request> {
    if rs == [] then map[] else ById(rs[..|rs| - 1])[rs[|rs| - 1].auditId := rs[|rs| - 1]]
  }

  function Opened(requests: map<Bytes, Request>): map<Bytes, OpenAudit> {
    map id | id in requests :: OpenAudit(requests[id], map[])
  }

  ghost predicate OneEach(rs: seq<Request>) {
    forall i, j | 0 <= i < j < |rs| :: rs[i].auditId != rs[j].auditId
  }

  lemma {:induction false} RequestsReturn(p: Protocol, chainBound: Request -> bool, rs: seq<Request>)
    requires |rs| <= p.maxOpen && OneEach(rs)
    requires forall i | 0 <= i < |rs| :: ShapeOk(p, rs[i]) && chainBound(rs[i])
    ensures AfterRequests(p, chainBound, rs) == (State(Opened(ById(rs)), ById(rs), map[]), 0)
    ensures |ById(rs)| == |rs|
  {
    hide ShapeOk;
    if rs != [] {
      var n := |rs| - 1;
      RequestsReturn(p, chainBound, rs[..n]);
      var before, r := ById(rs[..n]), rs[n];
      ByIdKeys(rs);
      OneMore(before, r.auditId, r);
      OpenedNext(before, r);
    }
  }

  lemma OpenedNext(requests: map<Bytes, Request>, r: Request)
    ensures Opened(requests[r.auditId := r]) == Opened(requests)[r.auditId := OpenAudit(r, map[])]
  {
  }

  lemma {:induction false} ByIdKeys(rs: seq<Request>)
    ensures ById(rs).Keys == set r | r in rs :: r.auditId
    ensures OneEach(rs) && rs != [] ==> rs[|rs| - 1].auditId !in ById(rs[..|rs| - 1])
  {
    if rs != [] {
      var n := |rs| - 1;
      ByIdKeys(rs[..n]);
      assert rs == rs[..n] + [rs[n]];
      assert forall r :: r in rs <==> r in rs[..n] || r == rs[n];
    }
  }

  lemma {:induction false} ByIdFinds(rs: seq<Request>, i: nat)
    requires OneEach(rs) && i < |rs|
    ensures rs[i].auditId in ById(rs) && ById(rs)[rs[i].auditId] == rs[i]
  {
    var n := |rs| - 1;
    if i < n {
      ByIdFinds(rs[..n], i);
      assert rs[..n][i] == rs[i];
    }
  }

  /** The listed requests are the map. */
  lemma ListedRequests(requests: map<Bytes, Request>, rs: seq<Request>)
    requires (forall id | id in requests :: requests[id].auditId == id) && Lists(requests.Values, rs)
    ensures OneEach(rs) && |rs| == |requests|
    ensures forall i | 0 <= i < |rs| :: rs[i].auditId in requests && requests[rs[i].auditId] == rs[i]
    ensures forall id | id in requests :: exists i :: 0 <= i < |rs| && rs[i] == requests[id]
  {
    ListedElements(requests.Values, rs);
    forall i | 0 <= i < |rs|
      ensures rs[i].auditId in requests && requests[rs[i].auditId] == rs[i]
    {
      assert rs[i] in Elements(rs);
    }
    forall id | id in requests
      ensures exists i :: 0 <= i < |rs| && rs[i] == requests[id]
    {
      assert requests[id] in Elements(rs);
    }
    forall i, j | 0 <= i < j < |rs|
      ensures rs[i].auditId != rs[j].auditId
    {
      ListedOnce(requests.Values, rs, i, j);
    }
    ValuesCount(requests);
  }

  lemma SnapshotRequestsReturn(p: Protocol, s: State, snap: Snapshot, height: int, chainBound: Request -> bool)
    requires Inv(p, s, height) && IsSnapshot(s, snap) && |s.requests| <= p.maxOpen
    requires forall id | id in s.requests :: chainBound(s.requests[id])
    ensures AfterRequests(p, chainBound, snap.requests) == (State(Opened(s.requests), s.requests, map[]), 0)
  {
    hide OpensOk, VerdictsOk, ShapeOk;
    var rs := snap.requests;
    ListedRequests(s.requests, rs);
    RequestsReturn(p, chainBound, rs);
    ByIdIsMap(s.requests, rs);
  }

  lemma ByIdIsMap(requests: map<Bytes, Request>, rs: seq<Request>)
    requires (forall id | id in requests :: requests[id].auditId == id) && Lists(requests.Values, rs)
    ensures ById(rs) == requests
  {
    ListedRequests(requests, rs);
    forall id | id in requests
      ensures id in ById(rs) && ById(rs)[id] == requests[id]
    {
      var i :| 0 <= i < |rs| && rs[i] == requests[id];
      ByIdFinds(rs, i);
    }
    ByIdKeys(rs);
    assert ById(rs).Keys <= requests.Keys;
  }

  // ----- Open votes -----

  /** t is s with exactly the listed votes on its audits. */
  ghost predicate Holds(t: State, s: State, votes: seq<Vote>) {
    && t.requests == s.requests && t.verdicts == s.verdicts && t.open.Keys == s.open.Keys
    && forall id {:trigger HoldsAt(t, s, votes, id)} | id in s.open :: HoldsAt(t, s, votes, id)
  }

  ghost predicate HoldsAt(t: State, s: State, votes: seq<Vote>, id: Bytes)
    requires id in s.open && t.open.Keys == s.open.Keys
  {
    && t.open[id].request == s.open[id].request
    && KeyedVotes(t.open[id].votes, id)
    && forall v :: v in t.open[id].votes.Values <==> v in s.open[id].votes.Values || (v in votes && v.auditId == id)
  }

  /** No two of the votes come from one validator of one audit. */
  ghost predicate OneVoteEach(votes: seq<Vote>) {
    forall i, j {:trigger votes[i], votes[j]} | 0 <= i < j < |votes| ::
      votes[i].auditId != votes[j].auditId || votes[i].validator != votes[j].validator
  }

  /** Accepted by an audit of s that has no vote yet. */
  predicate Welcome(p: Protocol, s: State, vote: Vote, height: int) {
    && vote.auditId in s.open && s.open[vote.auditId].votes == map[]
    && var request := s.open[vote.auditId].request;
       request.auditId == vote.auditId && VoteFits(p, request, height, vote)
  }

  lemma HoldsNext(p: Protocol, t: State, s: State, votes: seq<Vote>, vote: Vote, height: int)
    requires Holds(t, s, votes) && OneVoteEach(votes + [vote]) && Welcome(p, s, vote, height)
    ensures Submit(p, t, vote, height).1 && Holds(Submit(p, t, vote, height).0, s, votes + [vote])
  {
    hide VoteOk;
    var id := vote.auditId;
    var before := t.open[id].votes;
    assert HoldsAt(t, s, votes, id);
    assert vote.validator !in before by {
      forall v | v in before
        ensures v != vote.validator
      {
        assert before[v] in before.Values;
        var i :| 0 <= i < |votes| && votes[i] == before[v];
        assert (votes + [vote])[i] == votes[i] && (votes + [vote])[|votes|] == vote;
      }
    }
    var u := Submit(p, t, vote, height).0;
    PutValue(before, vote.validator, vote);
    assert u.open.Keys == s.open.Keys;
    forall x | x in s.open
      ensures HoldsAt(u, s, votes + [vote], x)
    {
      assert HoldsAt(t, s, votes, x);
    }
  }

  lemma PutValue<K, V>(m: map<K, V>, k: K, v: V)
    requires k !in m
    ensures m[k := v].Values == m.Values + {v}
  {
    var n := m[k := v];
    forall x | x in m.Values
      ensures x in n.Values
    {
      var l :| l in m && m[l] == x;
      assert n[l] == x;
    }
    assert n[k] == v;
  }

  lemma {:induction false} VotesReturn(p: Protocol, s: State, votes: seq<Vote>, height: int)
    requires OneVoteEach(votes) && forall i | 0 <= i < |votes| :: Welcome(p, s, votes[i], height)
    requires forall id | id in s.open :: KeyedVotes(s.open[id].votes, id)
    ensures Holds(AfterVotes(p, s, votes, height).0, s, votes) && AfterVotes(p, s, votes, height).1 == 0
    ensures Holds(AfterEvidence(p, s, votes, height).0, s, votes) && AfterEvidence(p, s, votes, height).1
  {
    hide Welcome, Submit, KeyedVotes;
    if votes == [] {
      assert forall id | id in s.open :: HoldsAt(s, s, [], id);
    } else {
      var n := |votes| - 1;
      assert OneVoteEach(votes[..n]);
      VotesReturn(p, s, votes[..n], height);
      assert votes[..n] + [votes[n]] == votes;
      HoldsNext(p, AfterVotes(p, s, votes[..n], height).0, s, votes[..n], votes[n], height);
      HoldsNext(p, AfterEvidence(p, s, votes[..n], height).0, s, votes[..n], votes[n], height);
      hide Holds;
    }
  }

  /** Maps keyed by what their values say are equal when their values are. */
  lemma KeyedVotesEqual(a: map<Bytes, Vote>, b: map<Bytes, Vote>, id: Bytes)
    requires KeyedVotes(a, id) && KeyedVotes(b, id) && forall v :: v in a.Values <==> v in b.Values
    ensures a == b
  {
    forall k
      ensures k in a <==> k in b
    {
      if k in a {
        assert a[k] in b.Values;
      }
      if k in b {
        assert b[k] in a.Values;
      }
    }
    forall k | k in a
      ensures a[k] == b[k]
    {
      assert a[k] in b.Values;
    }
  }

  function VotesFor(s: State, id: Bytes): map<Bytes, Vote> {
    if id in s.open then s.open[id].votes else map[]
  }

  /** Every request open again, with the votes its open audit held. */
  function Reopened(s: State): State {
    State(map id | id in s.requests :: OpenAudit(s.requests[id], VotesFor(s, id)), s.requests, map[])
  }

  lemma OpenVotesWelcome(p: Protocol, s: State, vote: Vote, height: int)
    requires Inv(p, s, height) && vote in OpenVotes(s)
    ensures Welcome(p, State(Opened(s.requests), s.requests, map[]), vote, height)
    ensures vote.auditId in s.open && vote.validator in s.open[vote.auditId].votes
    ensures s.open[vote.auditId].votes[vote.validator] == vote
  {
    hide VoteFits, ShapeOk, VerdictsOk;
    var id, v :| id in s.open && v in s.open[id].votes && s.open[id].votes[v] == vote;
    assert OpenOk(p, s, id, height);
  }

  lemma ListedVotesDiffer(p: Protocol, s: State, votes: seq<Vote>, height: int)
    requires Inv(p, s, height) && Lists(OpenVotes(s), votes)
    ensures OneVoteEach(votes)
  {
    hide Inv;
    ListedElements(OpenVotes(s), votes);
    forall i, j | 0 <= i < j < |votes|
      ensures votes[i].auditId != votes[j].auditId || votes[i].validator != votes[j].validator
    {
      assert votes[i] in Elements(votes) && votes[j] in Elements(votes);
      ListedOnce(OpenVotes(s), votes, i, j);
      OpenVotesWelcome(p, s, votes[i], height);
      OpenVotesWelcome(p, s, votes[j], height);
    }
  }

  lemma SnapshotVotesReturn(p: Protocol, s: State, snap: Snapshot, height: int)
    requires Inv(p, s, height) && IsSnapshot(s, snap)
    ensures AfterVotes(p, State(Opened(s.requests), s.requests, map[]), snap.openVotes, height) == (Reopened(s), 0)
  {
    hide Inv, Welcome;
    var blank := State(Opened(s.requests), s.requests, map[]);
    var votes := snap.openVotes;
    ListedElements(OpenVotes(s), votes);
    ListedVotesDiffer(p, s, votes, height);
    forall i | 0 <= i < |votes|
      ensures Welcome(p, blank, votes[i], height)
    {
      assert votes[i] in Elements(votes);
      OpenVotesWelcome(p, s, votes[i], height);
    }
    VotesReturn(p, blank, votes, height);
    HoldingIsReopened(p, s, AfterVotes(p, blank, votes, height).0, votes, height);
  }

  lemma HoldingIsReopened(p: Protocol, s: State, t: State, votes: seq<Vote>, height: int)
    requires Inv(p, s, height) && Elements(votes) == OpenVotes(s)
    requires Holds(t, State(Opened(s.requests), s.requests, map[]), votes)
    ensures t == Reopened(s)
  {
    hide RequestsOk, VerdictsOk, VoteFits;
    var blank := State(Opened(s.requests), s.requests, map[]);
    forall id | id in s.requests
      ensures t.open[id] == OpenAudit(s.requests[id], VotesFor(s, id))
    {
      assert HoldsAt(t, blank, votes, id);
      VotesAreBack(p, s, votes, id, t.open[id].votes, height);
    }
    assert t.open == Reopened(s).open;
  }

  lemma VotesAreBack(p: Protocol, s: State, votes: seq<Vote>, id: Bytes, back: map<Bytes, Vote>, height: int)
    requires Inv(p, s, height) && Elements(votes) == OpenVotes(s) && KeyedVotes(back, id)
    requires forall v :: v in back.Values <==> v in votes && v.auditId == id
    ensures back == VotesFor(s, id)
  {
    hide RequestsOk, VerdictsOk, VoteFits;
    if id in s.open {
      assert OpenOk(p, s, id, height);
    }
    forall v
      ensures v in back.Values <==> v in VotesFor(s, id).Values
    {
      if v in back.Values {
        assert v in Elements(votes);
        OpenVotesWelcome(p, s, v, height);
      }
      if v in VotesFor(s, id).Values {
        var k :| k in s.open[id].votes && s.open[id].votes[k] == v;
        assert v in OpenVotes(s);
        assert v in Elements(votes);
      }
    }
    KeyedVotesEqual(back, VotesFor(s, id), id);
  }

  // ----- Verdicts -----

  /** Requests that look alike to the digest have the same claim, window and committee writing. */
  lemma AlikeRequests(a: Request, b: Request)
    requires NormalRequest(a) == NormalRequest(b)
    ensures Joined(a.assignment.committee) == Joined(b.assignment.committee)
    ensures Lower(a.assignment.commitment) == Lower(b.assignment.commitment)
    ensures a.deadline == b.deadline && a.assignment.beaconHeight == b.assignment.beaconHeight
    ensures a.assignment.claimId == b.assignment.claimId && a.assignment.claimantId == b.assignment.claimantId
  {
    hide Joined, Lower;
    assert NormalRequest(a).assignment.committee == NormalRequest(b).assignment.committee;
    assert NormalRequest(a).assignment.commitment == NormalRequest(b).assignment.commitment;
    assert NormalRequest(a).assignment.claimId == NormalRequest(b).assignment.claimId;
  }

  /** Rebuilding a valid record on an alike request keeps what it commits to when the committees are of
      one size. */
  lemma RebuiltCommitsAlike(p: Protocol, r: Record, request: Request)
    requires ValidRecord(p, r) && request.auditId == r.auditId && NormalRequest(r.request) == NormalRequest(request)
    ensures var rebuilt := RecordFrom(request, r.evidence, r.finalizedAt);
            Normal(rebuilt) == Normal(r)
            <==> |r.request.assignment.committee| == |request.assignment.committee|
  {
    hide ShapeOk, EvidenceOk, Leads, NormalRequest;
    AlikeRequests(r.request, request);
    SummaryIsLowered(request.assignment, r.evidence);
    var rebuilt := RecordFrom(request, r.evidence, r.finalizedAt);
    if |r.request.assignment.committee| == |request.assignment.committee| {
      assert SummaryOf(r.request.assignment, r.evidence) == SummaryOf(request.assignment, r.evidence);
    } else {
      assert Normal(rebuilt).summary.size != Normal(r).summary.size;
    }
  }

  /** Committees whose ids hold no comma are written alike only when they have the same members. */
  lemma CommaFreeRecounts(p: Protocol, r: Record, request: Request, height: int)
    requires ValidRecord(p, r) && NormalRequest(r.request) == NormalRequest(request)
    requires CommaFree(r.request.assignment.committee) && CommaFree(request.assignment.committee)
    requires request.assignment.committee != [] && forall v | v in r.evidence :: v.submittedAt <= height
    ensures Recountable(r, request, height)
  {
    hide ShapeOk, Timely, SummaryOf, NormalRequest, VoteOk;
    var a, b := r.request.assignment.committee, request.assignment.committee;
    AlikeRequests(r.request, request);
    RecordShape(p, r);
    CommitteeNotEmpty(p, r.request);
    JoinedCommits(b, a);
    forall v | v in r.evidence
      ensures v.validator in b
    {
      var i :| 0 <= i < |r.evidence| && r.evidence[i] == v;
      assert VoteFits(p, r.request, r.finalizedAt, r.evidence[i]);
      var k :| 0 <= k < |a| && a[k] == v.validator;
    }
  }

  lemma CommitteeNotEmpty(p: Protocol, request: Request)
    requires ShapeOk(p, request)
    ensures |request.assignment.committee| >= 3
  {
  }

  lemma AscendingIsEvidence(votes: map<Bytes, Vote>, id: Bytes, e: seq<Vote>)
    requires KeyedVotes(votes, id) && Ascending(e) && forall v :: v in votes.Values <==> v in e
    ensures EvidenceOf(votes) == e && |votes| == |e|
  {
    BeforeIsStrictOrder();
    ListsElements(e);
    assert Elements(e) == votes.Values;
    VoteOrder(votes, id);
    EvidenceIs(votes, id, e);
    AscendingSorted(e);
    SortPermutes(ByValidator, e);
    SortSorts(ByValidator, e);
    SortedUnique(ByValidator, Sort(ByValidator, e), e);
    ValuesCount(votes);
    ListedElements(votes.Values, e);
  }

  lemma AscendingSorted(e: seq<Vote>)
    requires Ascending(e)
    ensures SortedBy(ByValidator, e)
  {
    BeforeIsStrictOrder();
  }

  /** An open audit without votes that a valid record belongs to. */
  ghost predicate Awaits(p: Protocol, t: State, r: Record, height: int) {
    && r.auditId in t.open && t.open[r.auditId].votes == map[]
    && t.open[r.auditId].request.auditId == r.auditId
    && NormalRequest(r.request) == NormalRequest(t.open[r.auditId].request)
    && ValidRecord(p, r)
    && Recountable(r, t.open[r.auditId].request, height)
  }

  lemma EvidenceWelcome(p: Protocol, t: State, r: Record, i: nat, height: int)
    requires Awaits(p, t, r, height) && i < |r.evidence|
    ensures Welcome(p, t, r.evidence[i], height)
  {
    hide ShapeOk, NormalRequest, VoteOk, Ascending;
    AlikeRequests(r.request, t.open[r.auditId].request);
    assert VoteFits(p, r.request, r.finalizedAt, r.evidence[i]);
    assert r.evidence[i] in r.evidence;
  }

  lemma VerdictReturns(p: Protocol, t: State, r: Record, height: int)
    requires Awaits(p, t, r, height) && forall x | x in t.open :: KeyedVotes(t.open[x].votes, x)
    ensures RestoreVerdict(p, t, r, height)
            == (State(t.open - {r.auditId}, t.requests,
                      t.verdicts[r.auditId := RecordFrom(t.open[r.auditId].request, r.evidence, r.finalizedAt)]), true)
  {
    hide Welcome, NormalRequest, ShapeOk, Normal, SummaryOf;
    var id, request := r.auditId, t.open[r.auditId].request;
    forall i | 0 <= i < |r.evidence|
      ensures Welcome(p, t, r.evidence[i], height)
    {
      EvidenceWelcome(p, t, r, i, height);
    }
    BeforeIsStrictOrder();
    OwnEvidence(p, r);
    VotesReturn(p, t, r.evidence, height);
    var u := AfterEvidence(p, t, r.evidence, height).0;
    OthersUntouched(t, u, r);
    EvidenceIsIn(p, t, u, r, height);
    RebuiltCommitsAlike(p, r, request);
  }

  lemma OthersUntouched(t: State, u: State, r: Record)
    requires Holds(u, t, r.evidence) && forall x | x in t.open :: KeyedVotes(t.open[x].votes, x)
    requires forall v | v in r.evidence :: v.auditId == r.auditId
    ensures u.open - {r.auditId} == t.open - {r.auditId}
  {
    forall x | x in t.open && x != r.auditId
      ensures u.open[x] == t.open[x]
    {
      assert HoldsAt(u, t, r.evidence, x);
      KeyedVotesEqual(u.open[x].votes, t.open[x].votes, x);
    }
  }

  lemma EvidenceIsIn(p: Protocol, t: State, u: State, r: Record, height: int)
    requires Awaits(p, t, r, height) && Holds(u, t, r.evidence)
    requires forall v | v in r.evidence :: v.auditId == r.auditId
    ensures u.open[r.auditId].request == t.open[r.auditId].request
    ensures EvidenceOf(u.open[r.auditId].votes) == r.evidence && Ripe(u.open[r.auditId], r.finalizedAt)
  {
    hide ShapeOk, NormalRequest, VoteFits, SummaryOf, Lowered;
    var id := r.auditId;
    assert HoldsAt(u, t, r.evidence, id);
    AscendingIsEvidence(u.open[id].votes, id, r.evidence);
    AlikeRequests(r.request, t.open[id].request);
  }

  lemma OwnEvidence(p: Protocol, r: Record)
    requires ValidRecord(p, r)
    ensures forall v | v in r.evidence :: v.auditId == r.auditId
  {
    hide ShapeOk, Timely, SummaryOf;
    forall v | v in r.evidence
      ensures v.auditId == r.auditId
    {
      var i :| 0 <= i < |r.evidence| && r.evidence[i] == v;
      assert VoteFits(p, r.request, r.finalizedAt, r.evidence[i]);
    }
  }

  function RecordIds(rs: seq<Record>): set<Bytes> {
    set r | r in rs :: r.auditId
  }

  /** The records are verdicts of s, none listed twice. */
  ghost predicate ListsSome(s: State, rs: seq<Record>) {
    && (forall i | 0 <= i < |rs| :: rs[i].auditId in s.verdicts && s.verdicts[rs[i].auditId] == rs[i])
    && (forall i, j | 0 <= i < j < |rs| :: rs[i].auditId != rs[j].auditId)
  }

  /** Restoring halfway: the listed verdicts are rebuilt, the other audits are open. */
  ghost function Halfway(s: State, rs: seq<Record>): State
    requires Keyed(s) && s.verdicts.Keys <= s.requests.Keys
  {
    State(Reopened(s).open - RecordIds(rs), s.requests,
          map id | id in s.verdicts && id in RecordIds(rs) :: RebuiltRecord(s, s.verdicts[id]))
  }

  lemma NextAwaits(p: Protocol, s: State, rs: seq<Record>, r: Record, height: int)
    requires Inv(p, s, height) && Keyed(s) && s.verdicts.Keys <= s.requests.Keys
    requires r.auditId in s.verdicts && s.verdicts[r.auditId] == r && r.auditId !in RecordIds(rs)
    requires Recountable(r, s.requests[r.auditId], height)
    ensures Awaits(p, Halfway(s, rs), r, height)
  {
    hide ShapeOk, ValidRecord, NormalRequest, VoteFits, RecordIds, RecordFrom, Recountable;
    NeverBoth(p, s, height);
    assert VerdictOk(p, s, r.auditId);
  }

  lemma HalfwayKeyed(s: State, rs: seq<Record>)
    requires Keyed(s) && s.verdicts.Keys <= s.requests.Keys
    ensures forall x | x in Halfway(s, rs).open :: KeyedVotes(Halfway(s, rs).open[x].votes, x)
  {
  }

  lemma HalfwayNext(s: State, rs: seq<Record>, r: Record)
    requires Keyed(s) && s.verdicts.Keys <= s.requests.Keys
    requires r.auditId in s.verdicts && s.verdicts[r.auditId] == r && r.auditId !in RecordIds(rs)
    ensures var t := Halfway(s, rs);
            && r.auditId in t.open
            && Halfway(s, rs + [r]) == State(t.open - {r.auditId}, t.requests,
                 t.verdicts[r.auditId := RecordFrom(t.open[r.auditId].request, r.evidence, r.finalizedAt)])
  {
    hide RecordFrom;
    assert RecordIds(rs + [r]) == RecordIds(rs) + {r.auditId};
  }

  lemma {:induction false} VerdictsReturn(p: Protocol, s: State, rs: seq<Record>, height: int)
    requires Inv(p, s, height) && ListsSome(s, rs)
    requires Keyed(s) && s.verdicts.Keys <= s.requests.Keys
    requires forall i | 0 <= i < |rs| :: Recountable(rs[i], s.requests[rs[i].auditId], height)
    ensures AfterVerdicts(p, Reopened(s), rs, height) == (Halfway(s, rs), 0)
  {
    hide Inv, Keyed, Reopened, RestoreVerdict, Awaits, Recountable;
    if rs == [] {
      assert Halfway(s, rs) == Reopened(s) by {
        NothingYet(s);
      }
    } else {
      var n := |rs| - 1;
      VerdictsReturn(p, s, rs[..n], height);
      assert rs[n].auditId !in RecordIds(rs[..n]);
      NextAwaits(p, s, rs[..n], rs[n], height);
      HalfwayKeyed(s, rs[..n]);
      VerdictReturns(p, Halfway(s, rs[..n]), rs[n], height);
      HalfwayNext(s, rs[..n], rs[n]);
      assert rs[..n] + [rs[n]] == rs;
    }
  }

  lemma NothingYet(s: State)
    requires Keyed(s) && s.verdicts.Keys <= s.requests.Keys
    ensures Halfway(s, []) == Reopened(s)
  {
    assert RecordIds([]) == {};
  }

  lemma ListedVerdicts(s: State, rs: seq<Record>)
    requires Keyed(s) && Lists(s.verdicts.Values, rs)
    ensures ListsSome(s, rs) && RecordIds(rs) == s.verdicts.Keys
  {
    ListedElements(s.verdicts.Values, rs);
    forall i | 0 <= i < |rs|
      ensures rs[i].auditId in s.verdicts && s.verdicts[rs[i].auditId] == rs[i]
    {
      assert rs[i] in Elements(rs);
    }
    forall i, j | 0 <= i < j < |rs|
      ensures rs[i].auditId != rs[j].auditId
    {
      ListedOnce(s.verdicts.Values, rs, i, j);
    }
    forall id | id in s.verdicts
      ensures id in RecordIds(rs)
    {
      assert s.verdicts[id] in Elements(rs);
    }
  }

  lemma AllTheWay(s: State, rs: seq<Record>)
    requires Keyed(s) && s.verdicts.Keys <= s.requests.Keys && RecordIds(rs) == s.verdicts.Keys
    requires Reopened(s).open - s.verdicts.Keys == s.open
    ensures Halfway(s, rs) == Rebuilt(s)
  {
    hide Keyed, Reopened, RecordIds, RebuiltRecord;
    assert Halfway(s, rs).verdicts == Rebuilt(s).verdicts;
  }

  lemma StillOpen(p: Protocol, s: State, height: int)
    requires Inv(p, s, height) && s.requests.Keys == s.open.Keys + s.verdicts.Keys && s.open.Keys !! s.verdicts.Keys
    ensures Reopened(s).open - s.verdicts.Keys == s.open
  {
    hide RequestsOk, VerdictsOk, KeyedVotes, VoteFits;
    forall id | id in s.open
      ensures Reopened(s).open[id] == s.open[id]
    {
      assert OpenOk(p, s, id, height);
    }
  }

  // ----- Dropping nothing -----

  /** The invariant at another height, when no vote is later than that. */
  lemma InvAt(p: Protocol, s: State, bound: int, height: int)
    requires Inv(p, s, bound) && VotesPast(s, height)
    ensures Inv(p, s, height)
  {
    hide ShapeOk, ValidRecord, NormalRequest;
    forall id | id in s.open
      ensures OpenOk(p, s, id, height)
    {
      assert OpenOk(p, s, id, bound);
    }
  }

  /** With nothing dropped so far, a restored request or vote was acceptable. */
  lemma {:induction false} RequestsKept(p: Protocol, chainBound: Request -> bool, rs: seq<Request>)
    requires AfterRequests(p, chainBound, rs).1 == 0
    ensures |AfterRequests(p, chainBound, rs).0.requests| == |rs| <= p.maxOpen
    ensures forall i | 0 <= i < |rs| :: chainBound(rs[i])
  {
    hide ShapeOk;
    if rs != [] {
      var n := |rs| - 1;
      RequestsKept(p, chainBound, rs[..n]);
      OneMore(AfterRequests(p, chainBound, rs[..n]).0.requests, rs[n].auditId, rs[n]);
      assert forall i | 0 <= i < n :: rs[..n][i] == rs[i];
    }
  }

  lemma {:induction false} VotesKept(p: Protocol, s: State, votes: seq<Vote>, height: int)
    ensures AfterVotes(p, s, votes, height).1 == 0 ==> forall v | v in votes :: v.submittedAt <= height
    ensures AfterEvidence(p, s, votes, height).1 ==>
              forall v | v in votes :: v.submittedAt <= height
                && v.auditId in s.open && v.validator in s.open[v.auditId].request.assignment.committee
  {
    hide VoteOk;
    if votes != [] {
      var n := |votes| - 1;
      VotesKept(p, s, votes[..n], height);
      EvidenceFrame(p, s, votes[..n], height);
      assert votes == votes[..n] + [votes[n]];
    }
  }

  /** A verdict that came back was countable on the request it came back to. */
  lemma VerdictKept(p: Protocol, t: State, r: Record, height: int)
    requires DigestsCommit(p) && Inv(p, t, height) && RestoreVerdict(p, t, r, height).1
    ensures r.auditId in t.open && Recountable(r, t.open[r.auditId].request, height)
  {
    hide Inv, DigestsCommit, Orderly, ShapeOk, VoteFits, Timely, NormalRequest, NormalVotes;
    VotesKept(p, t, r.evidence, height);
    EvidenceFrame(p, t, r.evidence, height);
    OwnEvidence(p, r);
    AfterVotesKeeps(p, t, r.evidence, height);
    var u := AfterEvidence(p, t, r.evidence, height).0;
    var derived := Finalize(u, r.auditId, r.finalizedAt).1.value;
    assert derived == RecordOf(u.open[r.auditId], r.finalizedAt) && Commitment(p, derived) == Commitment(p, r);
    AuditIsOrderly(p, u, r.auditId, r.finalizedAt, height);
    ValidIsOrderly(p, r);
    SameNormal(p, derived, r);
    assert Normal(derived).summary.size == Normal(r).summary.size;
  }

  lemma {:induction false} VerdictsKept(p: Protocol, s: State, rs: seq<Record>, height: int)
    requires DigestsCommit(p) && Inv(p, s, height) && Inv(p, Reopened(s), height) && ListsSome(s, rs)
    requires Keyed(s) && s.verdicts.Keys <= s.requests.Keys
    requires AfterVerdicts(p, Reopened(s), rs, height).1 == 0
    ensures forall i | 0 <= i < |rs| :: Recountable(rs[i], s.requests[rs[i].auditId], height)
  {
    hide DigestsCommit, Inv, Keyed, RestoreVerdict, Recountable;
    if rs != [] {
      var n := |rs| - 1;
      VerdictsKept(p, s, rs[..n], height);
      VerdictsReturn(p, s, rs[..n], height);
      AfterVerdictsKeeps(p, Reopened(s), rs[..n], height);
      VerdictKept(p, Halfway(s, rs[..n]), rs[n], height);
      assert forall i | 0 <= i < n :: rs[..n][i] == rs[i];
    }
  }

  /** Restoring a snapshot drops nothing exactly when the state is keepable; every request then comes
      back, with its verdict or open. */
  lemma NothingDropped(p: Protocol, s: State, snap: Snapshot, bound: int, height: int, chainBound: Request -> bool)
    requires DigestsCommit(p) && Inv(p, s, bound) && IsSnapshot(s, snap)
    ensures Keyed(s) && s.verdicts.Keys <= s.requests.Keys
    ensures Restore(p, snap, height, chainBound).1 == 0 <==> Keepable(p, s, height, chainBound)
    ensures Keepable(p, s, height, chainBound) ==>
              Restore(p, snap, height, chainBound).0 == FinalizeDue(Halfway(s, snap.verdicts), height)
  {
    InvIsKeyed(p, s, bound);
    NeverBoth(p, s, bound);
    ListedVerdicts(s, snap.verdicts);
    hide DigestsCommit, Inv, Keyed, FinalizeDue, Reopened, Halfway, IsSnapshot, Restore, ListsSome, RecordIds, Opened;
    RestoreParts(p, snap, height, chainBound);
    if Keepable(p, s, height, chainBound) {
      InvAt(p, s, bound, height);
      SnapshotRequestsReturn(p, s, snap, height, chainBound);
      SnapshotVotesReturn(p, s, snap, height);
      RecountableListed(s, snap.verdicts, height);
      VerdictsReturn(p, s, snap.verdicts, height);
    } else if Restore(p, snap, height, chainBound).1 == 0 {
      Kept(p, s, snap, bound, height, chainBound);
    }
  }

  lemma RecountableListed(s: State, rs: seq<Record>, height: int)
    requires Keyed(s) && s.verdicts.Keys <= s.requests.Keys && ListsSome(s, rs)
    requires forall id | id in s.verdicts && id in s.requests :: Recountable(s.verdicts[id], s.requests[id], height)
    ensures forall i | 0 <= i < |rs| :: Recountable(rs[i], s.requests[rs[i].auditId], height)
  {
    hide Recountable;
  }

  lemma Kept(p: Protocol, s: State, snap: Snapshot, bound: int, height: int, chainBound: Request -> bool)
    requires DigestsCommit(p) && Inv(p, s, bound) && IsSnapshot(s, snap)
    requires Keyed(s) && s.verdicts.Keys <= s.requests.Keys
    requires Restore(p, snap, height, chainBound).1 == 0
    ensures Keepable(p, s, height, chainBound)
  {
    hide DigestsCommit, Inv, IsSnapshot, FinalizeDue, Reopened, Recountable, AfterVotes, AfterVerdicts, AfterRequests,
         Restore, Opened, Keyed, VotesPast;
    RestoreParts(p, snap, height, chainBound);
    RequestsAreKept(p, s, snap, bound, chainBound);
    VotesAreKept(p, s, snap, bound, height, chainBound);
    VerdictsAreKept(p, s, snap, height);
  }

  lemma RequestsAreKept(p: Protocol, s: State, snap: Snapshot, bound: int, chainBound: Request -> bool)
    requires Inv(p, s, bound) && IsSnapshot(s, snap) && AfterRequests(p, chainBound, snap.requests).1 == 0
    ensures |s.requests| <= p.maxOpen && forall id | id in s.requests :: chainBound(s.requests[id])
    ensures AfterRequests(p, chainBound, snap.requests) == (State(Opened(s.requests), s.requests, map[]), 0)
  {
    InvIsKeyed(p, s, bound);
    hide Inv, AfterRequests, Opened;
    ListedRequests(s.requests, snap.requests);
    RequestsKept(p, chainBound, snap.requests);
    SnapshotRequestsReturn(p, s, snap, bound, chainBound);
  }

  /** With every vote back, the state is as open as it was, at any height no vote is later than. */
  lemma VotesAreKept(p: Protocol, s: State, snap: Snapshot, bound: int, height: int, chainBound: Request -> bool)
    requires Inv(p, s, bound) && IsSnapshot(s, snap)
    requires AfterRequests(p, chainBound, snap.requests) == (State(Opened(s.requests), s.requests, map[]), 0)
    requires AfterVotes(p, State(Opened(s.requests), s.requests, map[]), snap.openVotes, height).1 == 0
    ensures VotesPast(s, height) && Inv(p, s, height) && Inv(p, Reopened(s), height)
    ensures AfterVotes(p, State(Opened(s.requests), s.requests, map[]), snap.openVotes, height) == (Reopened(s), 0)
  {
    hide Inv, AfterVotes, AfterRequests, Opened, Reopened, VotesPast;
    var blank := State(Opened(s.requests), s.requests, map[]);
    VotesKept(p, blank, snap.openVotes, height);
    OpenVotesListed(s, snap.openVotes, height);
    InvAt(p, s, bound, height);
    SnapshotVotesReturn(p, s, snap, height);
    AfterRequestsKeeps(p, chainBound, snap.requests, height);
    AfterVotesKeeps(p, blank, snap.openVotes, height);
  }

  lemma VerdictsAreKept(p: Protocol, s: State, snap: Snapshot, height: int)
    requires DigestsCommit(p) && Inv(p, s, height) && Inv(p, Reopened(s), height) && IsSnapshot(s, snap)
    requires Keyed(s) && s.verdicts.Keys <= s.requests.Keys
    requires AfterVerdicts(p, Reopened(s), snap.verdicts, height).1 == 0
    ensures forall id | id in s.verdicts && id in s.requests :: Recountable(s.verdicts[id], s.requests[id], height)
  {
    hide DigestsCommit, Inv, Reopened, Recountable, AfterVerdicts, Keyed;
    ListedVerdicts(s, snap.verdicts);
    VerdictsKept(p, s, snap.verdicts, height);
    VerdictsListed(s, snap.verdicts, height);
  }

  lemma OpenVotesListed(s: State, votes: seq<Vote>, height: int)
    requires Lists(OpenVotes(s), votes) && forall v | v in votes :: v.submittedAt <= height
    ensures VotesPast(s, height)
  {
    ListedElements(OpenVotes(s), votes);
    forall id, v | id in s.open && v in s.open[id].votes
      ensures s.open[id].votes[v].submittedAt <= height
    {
      assert s.open[id].votes[v] in OpenVotes(s);
      assert s.open[id].votes[v] in Elements(votes);
    }
  }

  lemma VerdictsListed(s: State, rs: seq<Record>, height: int)
    requires Keyed(s) && s.verdicts.Keys <= s.requests.Keys && Lists(s.verdicts.Values, rs) && ListsSome(s, rs)
    requires forall i | 0 <= i < |rs| :: Recountable(rs[i], s.requests[rs[i].auditId], height)
    ensures forall id | id in s.verdicts && id in s.requests :: Recountable(s.verdicts[id], s.requests[id], height)
  {
    hide Recountable;
    ListedElements(s.verdicts.Values, rs);
    forall id | id in s.verdicts
      ensures Recountable(s.verdicts[id], s.requests[id], height)
    {
      assert s.verdicts[id] in Elements(rs);
      var i :| 0 <= i < |rs| && rs[i] == s.verdicts[id];
    }
  }

  // ----- Restoring exactly -----

  lemma DueKeys(s: State, height: int)
    ensures FinalizeDue(s, height).open.Keys + FinalizeDue(s, height).verdicts.Keys == s.open.Keys + s.verdicts.Keys
  {
    hide Due, RecordOf;
  }

  lemma HalfwayKeys(s: State, rs: seq<Record>)
    requires Keyed(s) && s.verdicts.Keys <= s.requests.Keys && RecordIds(rs) == s.verdicts.Keys
    ensures Halfway(s, rs).open.Keys + Halfway(s, rs).verdicts.Keys == s.requests.Keys
  {
    hide Keyed, RecordIds, RebuiltRecord;
  }

  /** Where every request comes back, the result says which requests were accounted for. */
  lemma ReturnsRestorable(p: Protocol, s: State, rs: seq<Record>, height: int)
    requires Keyed(s) && s.verdicts.Keys <= s.requests.Keys && RecordIds(rs) == s.verdicts.Keys
    requires FinalizeDue(Halfway(s, rs), height) == FinalizeDue(Rebuilt(s), height)
    ensures s.requests.Keys == s.open.Keys + s.verdicts.Keys
  {
    hide Keyed, FinalizeDue, Halfway, Rebuilt, RecordIds;
    HalfwayKeys(s, rs);
    DueKeys(Halfway(s, rs), height);
    DueKeys(Rebuilt(s), height);
    RebuiltKeys(s);
  }

  /** Where every request is accounted for, the rebuilt verdicts leave the open audits as they were. */
  lemma RestorableReturns(p: Protocol, s: State, rs: seq<Record>, bound: int)
    requires Inv(p, s, bound) && Keyed(s) && s.verdicts.Keys <= s.requests.Keys && RecordIds(rs) == s.verdicts.Keys
    requires s.requests.Keys <= s.open.Keys + s.verdicts.Keys
    ensures Halfway(s, rs) == Rebuilt(s)
  {
    hide Inv, Keyed, Halfway, Rebuilt, RecordIds, Reopened;
    NeverBoth(p, s, bound);
    StillOpen(p, s, bound);
    AllTheWay(s, rs);
  }

  /** Restoring a snapshot gives back the state it was taken of, nothing dropped and its due audits
      finalized, exactly when the state is restorable; verdicts come back as their evidence rebuilds them. */
  lemma RestoreUndoesSnapshot(p: Protocol, s: State, snap: Snapshot, bound: int, height: int, chainBound: Request -> bool)
    requires DigestsCommit(p) && Inv(p, s, bound) && IsSnapshot(s, snap)
    ensures Keyed(s) && s.verdicts.Keys <= s.requests.Keys
    ensures Restore(p, snap, height, chainBound) == (FinalizeDue(Rebuilt(s), height), 0)
            <==> Restorable(p, s, height, chainBound)
  {
    NothingDropped(p, s, snap, bound, height, chainBound);
    ListedVerdicts(s, snap.verdicts);
    hide DigestsCommit, Inv, Rebuilt, FinalizeDue, Restore, Keyed, Halfway, Keepable, IsSnapshot, ListsSome, RecordIds;
    if Restorable(p, s, height, chainBound) {
      RestorableReturns(p, s, snap.verdicts, bound);
    } else if Restore(p, snap, height, chainBound) == (FinalizeDue(Rebuilt(s), height), 0) {
      ReturnsRestorable(p, s, snap.verdicts, height);
    }
  }

  lemma RebuiltKeys(s: State)
    requires Keyed(s) && s.verdicts.Keys <= s.requests.Keys
    ensures Rebuilt(s).open == s.open && Rebuilt(s).verdicts.Keys == s.verdicts.Keys
  {
    hide RebuiltRecord, Keyed;
  }

  function OnlyRequest(request: Request): State {
    State(map[], map[request.auditId := request], map[])
  }

  lemma OnlyRequestKeeps(p: Protocol, request: Request, height: int)
    requires ShapeOk(p, request)
    ensures Inv(p, OnlyRequest(request), height)
    ensures IsSnapshot(OnlyRequest(request), Snapshot([request], [], []))
  {
    hide ShapeOk;
    var s := OnlyRequest(request);
    assert s.requests[request.auditId] == request && request in s.requests.Values;
    assert s.requests.Values == {request};
    assert forall id :: id !in s.open && id !in s.verdicts;
    assert OpenVotes(s) == {};
    assert s.verdicts.Values == {};
  }

  /** A request whose verdict was dropped stays registered. Such a state keeps the invariant, but a
      restart, which drops nothing, opens the audit again. */
  lemma OrphanReturns(p: Protocol, request: Request, height: int, chainBound: Request -> bool)
    requires DigestsCommit(p) && ShapeOk(p, request) && p.maxOpen > 0 && chainBound(request)
    ensures var s := OnlyRequest(request);
            var (t, dropped) := Restore(p, Snapshot([request], [], []), height, chainBound);
            && Inv(p, s, height) && IsSnapshot(s, Snapshot([request], [], [])) && s.open == map[] && s.verdicts == map[]
            && dropped == 0 && t.open.Keys + t.verdicts.Keys == {request.auditId}
  {
    hide DigestsCommit, Inv, ShapeOk, IsSnapshot, FinalizeDue, Halfway, Restore;
    var s, snap := OnlyRequest(request), Snapshot([request], [], []);
    OnlyRequestKeeps(p, request, height);
    assert |s.requests| == 1;
    NothingDropped(p, s, snap, height, height, chainBound);
    HalfwayKeys(s, []);
    DueKeys(Halfway(s, []), height);
  }

  lemma VotesOfOrderly(p: Protocol, r: Record)
    requires Orderly(p, r)
    ensures forall v | v in r.evidence :: VoteOk(p, v)
  {
    hide ShapeOk, SummaryOf, VoteOk;
  }

  /** Rebuilding a verdict keeps its commitment exactly when the registered committee is of its size, and
      changes nothing at all in one that this node finalized on the registered request. */
  lemma RebuiltVerdicts(p: Protocol, s: State, id: Bytes, height: int)
    requires Inv(p, s, height) && id in s.verdicts && DigestsCommit(p)
    ensures Keyed(s) && s.verdicts.Keys <= s.requests.Keys
    ensures Commitment(p, Rebuilt(s).verdicts[id]) == Commitment(p, s.verdicts[id])
            <==> |s.verdicts[id].request.assignment.committee| == |s.requests[id].assignment.committee|
    ensures forall audit, h | s.verdicts[id] == RecordOf(audit, h) && audit.request == s.requests[id] ::
              Rebuilt(s).verdicts[id] == s.verdicts[id]
  {
    InvIsKeyed(p, s, height);
    NeverBoth(p, s, height);
    assert VerdictOk(p, s, id);
    assert ShapeOk(p, s.requests[id]);
    hide OpensOk, ShapeOk, ValidRecord, NormalRequest, Normal, RecordFrom, DigestsCommit, Orderly;
    var r := s.verdicts[id];
    RebuiltCommitsAlike(p, r, s.requests[id]);
    ValidIsOrderly(p, r);
    VotesOfOrderly(p, r);
    RecordIsOrderly(p, s.requests[id], r.evidence, r.finalizedAt);
    if Commitment(p, Rebuilt(s).verdicts[id]) == Commitment(p, r) {
      SameNormal(p, Rebuilt(s).verdicts[id], r);
    }
  }
}

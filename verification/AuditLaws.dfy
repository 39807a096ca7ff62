/** What the audits of every run say about the signed votes behind them, counted vote by vote. */
module AuditLaws {
  import opened Canonical
  import opened Collections
  import opened Committees
  import opened Audit
  import opened AuditTransitions
  import opened AuditRestore
  import opened AuditLifecycle
  import AuditQuorum

  // ---------- What a verdict means ----------

  /** Who reported commitment c, whatever the letter case. */
  function Voters(e: seq<Vote>, c: Bytes): set<Bytes> {
    set i | 0 <= i < |e| && Lower(e[i].observed) == Lower(c) :: e[i].validator
  }

  /** The voters make up two thirds of the committee. */
  predicate TwoThirds(voters: set<Bytes>, committee: seq<Bytes>) {
    3 * |voters| >= 2 * |committee|
  }

  /** Letter case is all that Lower forgets. */
  lemma LowerMeans(a: Bytes, b: Bytes)
    ensures Lower(a) == Lower(b) <==>
              && |a| == |b|
              && forall i | 0 <= i < |a| ::
                   a[i] == b[i] || (65 <= a[i] <= 90 && b[i] == a[i] + 32) || (65 <= b[i] <= 90 && a[i] == b[i] + 32)
  {
    if Lower(a) == Lower(b) {
      assert |Lower(a)| == |a| && |Lower(b)| == |b|;
      forall i | 0 <= i < |a|
        ensures a[i] == b[i] || (65 <= a[i] <= 90 && b[i] == a[i] + 32) || (65 <= b[i] <= 90 && a[i] == b[i] + 32)
      {
        assert Lower(a)[i] == Lower(b)[i];
      }
    }
  }

  /** Sixty-four hexadecimal digits of either case. */
  lemma HexMeans(b: Bytes)
    ensures IsHex64(b) <==> |b| == 64 && forall i | 0 <= i < 64 :: 48 <= Lower(b)[i] <= 57 || 97 <= Lower(b)[i] <= 102
  {
    if |b| == 64 {
      forall i | 0 <= i < 64
        ensures 48 <= b[i] <= 57 || 65 <= b[i] <= 70 || 97 <= b[i] <= 102
                <==> 48 <= Lower(b)[i] <= 57 || 97 <= Lower(b)[i] <= 102
      {
      }
    }
  }

  /** A vote that counts for a request: signed for it by a member of its committee, between the beacon and
      the deadline, and not later than the height. */
  ghost predicate Genuine(p: Protocol, request: Request, height: int, vote: Vote) {
    && p.signed(vote)
    && vote.auditId == request.auditId
    && vote.validator in request.assignment.committee
    && request.assignment.beaconHeight <= vote.submittedAt <= request.deadline
    && 0 <= vote.submittedAt <= height && vote.submittedAt <= 9_007_199_254_740_991
    && IsHex64(vote.auditId) && IsHex64(vote.observed)
  }

  /** A request under its own id, by a committee of three or more distinct members without the claimant,
      with time to answer after the beacon, which came no earlier than the claim. */
  ghost predicate Proper(p: Protocol, request: Request) {
    var a := request.assignment;
    && request.auditId == p.auditDigest(a.(beaconHash := Lower(a.beaconHash), committee := [Joined(a.committee)],
                                           reason := []), request.deadline)
    && |a.committee| >= 3
    && (forall i, j | 0 <= i < j < |a.committee| :: a.committee[i] != a.committee[j])
    && a.claimantId !in a.committee && a.claimantId != [] && a.claimId != []
    && a.claimHeight <= a.beaconHeight < request.deadline <= a.beaconHeight + p.maxResponse
    && -9_007_199_254_740_991 <= a.claimHeight && a.beaconHeight <= 9_007_199_254_740_991
    && IsHex64(a.commitment) && IsHex64(a.beaconHash)
  }

  lemma ShapeIsProper(p: Protocol, request: Request)
    ensures ShapeOk(p, request) <==> Proper(p, request)
  {
  }

  lemma FittingIsGenuine(p: Protocol, request: Request, height: int, vote: Vote)
    ensures VoteFits(p, request, height, vote) <==> Genuine(p, request, height, vote)
  {
  }

  lemma VotersCount(e: seq<Vote>, c: Bytes)
    requires Ascending(e)
    ensures |Voters(e, c)| == CountOf(e, Lower(c))
  {
    AuditQuorum.ReportersCount(e, Lower(c));
    assert Voters(e, c) == AuditQuorum.Reporters(e, Lower(c));
  }

  /** Two commitments cannot both have two thirds of the committee behind them. */
  lemma OneQuorum(committee: seq<Bytes>, e: seq<Vote>, c: Bytes, d: Bytes)
    requires committee != [] && Distinct(committee) && Ascending(e) && forall i | 0 <= i < |e| :: e[i].validator in committee
    requires TwoThirds(Voters(e, c), committee) && TwoThirds(Voters(e, d), committee)
    ensures Lower(c) == Lower(d)
  {
    if Lower(c) != Lower(d) {
      BeforeIsStrictOrder();
      var x, y := Voters(e, c), Voters(e, d);
      forall v | v in x
        ensures v !in y
      {
        var i :| 0 <= i < |e| && Lower(e[i].observed) == Lower(c) && e[i].validator == v;
        forall j | 0 <= j < |e| && Lower(e[j].observed) == Lower(d)
          ensures e[j].validator != v
        {
          assert if i < j then Before(e[i].validator, e[j].validator) else Before(e[j].validator, e[i].validator);
        }
      }
      assert |x + y| == |x| + |y| - |x * y| && x * y == {};
      Subset(x + y, Elements(committee));
      DistinctSize(committee);
    }
  }

  /** A verdict as its votes alone decide it: all of them genuine and from different members; a pass exactly
      when two thirds of the committee reported the claimed commitment, a fraud exactly when two thirds
      reported one other; and before the deadline only if every member voted. */
  ghost predicate Decided(p: Protocol, r: Record) {
    var a, e := r.request.assignment, r.evidence;
    && Proper(p, r.request) && r.auditId == r.request.auditId
    && (forall i | 0 <= i < |e| :: Genuine(p, r.request, r.finalizedAt, e[i]))
    && (forall i, j | 0 <= i < j < |e| :: e[i].validator != e[j].validator)
    && (r.summary.kind == Pass <==> TwoThirds(Voters(e, a.commitment), a.committee))
    && (r.summary.kind == Fraud <==>
          exists c {:trigger Voters(e, c)} ::
            Lower(c) != Lower(a.commitment) && TwoThirds(Voters(e, c), a.committee))
    && (r.finalizedAt <= r.request.deadline ==>
          forall m | m in a.committee :: exists i :: 0 <= i < |e| && e[i].validator == m)
  }

  lemma VerdictMeans(p: Protocol, r: Record)
    requires ValidRecord(p, r)
    ensures Decided(p, r)
  {
    ShapeIsProper(p, r.request);
    EvidenceIsGenuine(p, r);
    KindMeans(p, r);
    if r.finalizedAt <= r.request.deadline {
      EverybodyVoted(p, r);
    }
    hide ShapeOk, Proper, EvidenceOk, Genuine, SummaryOf, TwoThirds, Voters, Lower, Timely;
  }

  lemma EvidenceIsGenuine(p: Protocol, r: Record)
    requires EvidenceOk(p, r)
    ensures forall i | 0 <= i < |r.evidence| :: Genuine(p, r.request, r.finalizedAt, r.evidence[i])
    ensures forall i, j | 0 <= i < j < |r.evidence| :: r.evidence[i].validator != r.evidence[j].validator
  {
    hide VoteFits;
    forall i | 0 <= i < |r.evidence|
      ensures Genuine(p, r.request, r.finalizedAt, r.evidence[i])
    {
      assert VoteFits(p, r.request, r.finalizedAt, r.evidence[i]);
      FittingIsGenuine(p, r.request, r.finalizedAt, r.evidence[i]);
    }
    BeforeIsStrictOrder();
  }

  lemma KindMeans(p: Protocol, r: Record)
    requires ValidRecord(p, r)
    ensures var a := r.request.assignment;
            && (r.summary.kind == Pass <==> TwoThirds(Voters(r.evidence, a.commitment), a.committee))
            && (r.summary.kind == Fraud <==>
                  exists c {:trigger Voters(r.evidence, c)} ::
                    Lower(c) != Lower(a.commitment) && TwoThirds(Voters(r.evidence, c), a.committee))
  {
    var a, e := r.request.assignment, r.evidence;
    var kind := r.summary.kind;
    assert kind == SummaryOf(a, e).kind;
    EvidenceIsGenuine(p, r);
    hide ShapeOk, ValidRecord, EvidenceOk, Lower, Genuine;
    forall c | TwoThirds(Voters(e, c), a.committee)
      ensures kind == if Lower(c) == Lower(a.commitment) then Pass else Fraud
    {
      VotersCount(e, c);
      var top := Leader(e).value;
      LeaderIsLower(e, top);
      VotersCount(e, top);
      assert CountOf(e, Lower(c)) <= CountOf(e, top);
      OneQuorum(a.committee, e, c, top);
    }
    if kind != Inconclusive {
      var top := Leader(e).value;
      LeaderIsLower(e, top);
      VotersCount(e, top);
      assert TwoThirds(Voters(e, top), a.committee);
    }
  }

  lemma EverybodyVoted(p: Protocol, r: Record)
    requires ValidRecord(p, r) && r.finalizedAt <= r.request.deadline
    ensures forall m | m in r.request.assignment.committee ::
              exists i :: 0 <= i < |r.evidence| && r.evidence[i].validator == m
  {
    var committee, e := r.request.assignment.committee, r.evidence;
    EvidenceIsGenuine(p, r);
    hide ShapeOk, EvidenceOk, SummaryOf;
    var voters := seq(|e|, i requires 0 <= i < |e| => e[i].validator);
    DistinctSize(voters);
    DistinctSize(committee);
    forall m | m in committee
      ensures exists i :: 0 <= i < |e| && e[i].validator == m
    {
      if m !in voters {
        Subset(Elements(voters) + {m}, Elements(committee));
      }
    }
  }

  // ---------- Every run ----------

  /** In every reachable state: each request is proper; an open audit holds, under each member's name, one
      genuine vote of that member; a verdict is what its votes decide, on a request that is no longer open. */
  lemma ReachedAudits(p: Protocol, ops: seq<Op>, height: int)
    requires DigestsCommit(p) && Forward(ops)
    requires forall i | 0 <= i < |ops| :: ops[i].height <= height
    ensures var s := After(p, ops);
            && |s.open| <= p.maxOpen
            && (forall id | id in s.requests :: s.requests[id].auditId == id && Proper(p, s.requests[id]))
            && (forall id | id in s.open :: id in s.requests && s.open[id].request == s.requests[id])
            && (forall id, v | id in s.open && v in s.open[id].votes ::
                  s.open[id].votes[v].validator == v && Genuine(p, s.requests[id], height, s.open[id].votes[v]))
            && (forall id | id in s.verdicts ::
                  && id in s.requests && id !in s.open
                  && s.verdicts[id].auditId == id && Decided(p, s.verdicts[id]))
  {
    ReachableStates(p, ops, height);
    var s := After(p, ops);
    hide After, ShapeOk, ValidRecord, Decided, VoteFits, Genuine, Proper, NormalRequest;
    forall id | id in s.requests
      ensures s.requests[id].auditId == id && Proper(p, s.requests[id])
    {
      ShapeIsProper(p, s.requests[id]);
    }
    forall id | id in s.open
      ensures id in s.requests && s.open[id].request == s.requests[id]
      ensures forall v | v in s.open[id].votes ::
                s.open[id].votes[v].validator == v && Genuine(p, s.requests[id], height, s.open[id].votes[v])
    {
      assert OpenOk(p, s, id, height);
      forall v | v in s.open[id].votes
        ensures s.open[id].votes[v].validator == v && Genuine(p, s.requests[id], height, s.open[id].votes[v])
      {
        FittingIsGenuine(p, s.requests[id], height, s.open[id].votes[v]);
      }
    }
    forall id | id in s.verdicts
      ensures id in s.requests && id !in s.open && s.verdicts[id].auditId == id && Decided(p, s.verdicts[id])
    {
      assert VerdictOk(p, s, id);
      VerdictMeans(p, s.verdicts[id]);
    }
  }

  // ---------- What a verdict's digest covers ----------

  /** Requests that the digest cannot tell apart; a request's own id is not covered. */
  predicate SameRequest(a: Request, b: Request) {
    var x, y := a.assignment, b.assignment;
    && a.deadline == b.deadline && x.windowIndex == y.windowIndex && x.reason == y.reason
    && x.claimId == y.claimId && x.claimantId == y.claimantId
    && x.claimHeight == y.claimHeight && x.beaconHeight == y.beaconHeight
    && Lower(x.commitment) == Lower(y.commitment) && Lower(x.beaconHash) == Lower(y.beaconHash)
    && Joined(x.committee) == Joined(y.committee)
  }

  predicate SameVote(a: Vote, b: Vote) {
    && a.auditId == b.auditId && a.validator == b.validator && a.submittedAt == b.submittedAt
    && Lower(a.publicKey) == Lower(b.publicKey) && Lower(a.observed) == Lower(b.observed)
    && Lower(a.signature) == Lower(b.signature)
  }

  /** The leading commitment as it is written: nothing when there is none. */
  function Written(top: Option<Bytes>): Bytes {
    if top.None? then [] else Lower(top.value)
  }

  predicate SameSummary(a: Summary, b: Summary) {
    && a.kind == b.kind && a.topCount == b.topCount && a.required == b.required && a.size == b.size
    && Written(a.top) == Written(b.top)
  }

  /** The digest covers every field of a verdict and every vote, up to letter case and the committee's writing. */
  lemma DigestCovers(a: Record, b: Record)
    requires Ascending(a.evidence) && Ascending(b.evidence)
    ensures Normal(a) == Normal(b) <==>
              && a.auditId == b.auditId && a.claimId == b.claimId && a.claimantId == b.claimantId
              && Lower(a.claimed) == Lower(b.claimed) && a.finalizedAt == b.finalizedAt
              && SameRequest(a.request, b.request) && SameSummary(a.summary, b.summary)
              && |a.evidence| == |b.evidence|
              && forall i | 0 <= i < |a.evidence| :: SameVote(a.evidence[i], b.evidence[i])
  {
    AscendingStays(a.evidence);
    AscendingStays(b.evidence);
    VotesAlike(a.evidence, b.evidence);
    assert NormalRequest(a.request) == NormalRequest(b.request) <==> SameRequest(a.request, b.request) by {
      assert [Joined(a.request.assignment.committee)] == [Joined(b.request.assignment.committee)] <==>
               Joined(a.request.assignment.committee) == Joined(b.request.assignment.committee);
    }
    hide Lower, Joined, NormalVotes, SameVote, SameRequest, NormalRequest, Sort, Ascending;
  }

  lemma AscendingDiffer(e: seq<Vote>)
    requires Ascending(e)
    ensures forall i, j | 0 <= i < |e| && 0 <= j < |e| && i != j :: e[i].validator != e[j].validator
  {
    BeforeIsStrictOrder();
    forall i, j | 0 <= i < j < |e|
      ensures e[i].validator != e[j].validator
    {
      assert Before(e[i].validator, e[j].validator);
    }
  }

  lemma AscendingStays(e: seq<Vote>)
    requires Ascending(e)
    ensures Sort(ByValidator, e) == e
  {
    AtMostIsTotalOrder();
    AscendingDiffer(e);
    forall x, y | x in Elements(e) && y in Elements(e) && x.validator == y.validator
      ensures x == y
    {
      var i :| 0 <= i < |e| && e[i] == x;
      var j :| 0 <= j < |e| && e[j] == y;
    }
    AscendingSorted(e);
    SortPermutes(ByValidator, e);
    SortSorts(ByValidator, e);
    SortedUnique(ByValidator, Sort(ByValidator, e), e);
  }

  lemma VotesAlike(e: seq<Vote>, f: seq<Vote>)
    ensures NormalVotes(e) == NormalVotes(f) <==>
              |e| == |f| && forall i | 0 <= i < |e| :: SameVote(e[i], f[i])
  {
    hide Lower;
    if NormalVotes(e) == NormalVotes(f) {
      assert |NormalVotes(e)| == |e| && |NormalVotes(f)| == |f|;
      forall i | 0 <= i < |e|
        ensures SameVote(e[i], f[i])
      {
        assert NormalVotes(e)[i] == NormalVotes(f)[i];
      }
    }
  }

  // ---------- Every step ----------

  /** A request opens an audit exactly when it is proper, the height is in its window, its id is new and
      there is room; nothing else changes, and a refused request changes nothing. */
  lemma RegisterExactly(p: Protocol, s: State, request: Request, height: int)
    ensures var (t, accepted) := Register(p, s, request, height);
            && (accepted <==>
                  && Proper(p, request)
                  && request.assignment.beaconHeight <= height <= request.deadline
                  && request.auditId !in s.open && request.auditId !in s.verdicts && |s.open| < p.maxOpen)
            && (!accepted ==> t == s)
            && (accepted ==>
                  && t.verdicts == s.verdicts
                  && t.requests == s.requests[request.auditId := request]
                  && t.open == s.open[request.auditId := OpenAudit(request, map[])])
  {
    ShapeIsProper(p, request);
  }

  /** A vote is recorded exactly when its audit is open, the vote is genuine and its validator has not voted
      yet; then the audit has that vote more, and a refused vote changes nothing. */
  lemma VoteExactly(p: Protocol, s: State, vote: Vote, height: int)
    requires Keyed(s)
    ensures var (t, accepted) := Submit(p, s, vote, height);
            && (accepted <==>
                  && vote.auditId in s.open
                  && Genuine(p, s.open[vote.auditId].request, height, vote)
                  && vote.validator !in s.open[vote.auditId].votes)
            && (!accepted ==> t == s)
            && (accepted ==>
                  var before := s.open[vote.auditId];
                  && t.verdicts == s.verdicts && t.requests == s.requests
                  && t.open == s.open[vote.auditId := OpenAudit(before.request, before.votes[vote.validator := vote])])
  {
    if vote.auditId in s.open {
      FittingIsGenuine(p, s.open[vote.auditId].request, height, vote);
    }
  }

  /** Some member of the committee has not voted. */
  predicate Waiting(audit: OpenAudit) {
    exists m :: m in audit.request.assignment.committee && m !in audit.votes
  }

  lemma WaitingMeans(p: Protocol, s: State, id: Bytes, height: int)
    requires Inv(p, s, height) && id in s.open
    ensures var audit := s.open[id];
            && (Ripe(audit, height) <==> height > audit.request.deadline || !Waiting(audit))
            && (Due(audit, height) <==> height > audit.request.deadline || !Waiting(audit))
            && KeyedVotes(audit.votes, id)
  {
    var audit := s.open[id];
    var committee := audit.request.assignment.committee;
    assert OpenOk(p, s, id, height);
    assert ShapeOk(p, s.requests[id]);
    DueIsRipe(p, s, id, height);
    VotesBounded(p, audit, id, height);
    DistinctSize(committee);
    assert audit.votes.Keys <= Elements(committee);
    if Waiting(audit) {
      var m :| m in committee && m !in audit.votes;
      Subset(audit.votes.Keys + {m}, Elements(committee));
    } else {
      assert audit.votes.Keys == Elements(committee);
    }
  }

  /** The record of an audit sealed at a height: its request, and every vote exactly once. */
  ghost predicate Seals(audit: OpenAudit, height: int, r: Record) {
    && r.request == audit.request && r.finalizedAt == height
    && Elements(r.evidence) == audit.votes.Values && |r.evidence| == |audit.votes|
  }

  lemma RecordSeals(audit: OpenAudit, id: Bytes, height: int)
    requires KeyedVotes(audit.votes, id)
    ensures Seals(audit, height, RecordOf(audit, height))
  {
    EvidenceSorted(audit.votes, id);
  }

  /** One audit is sealed exactly when it is open and either its deadline has passed or nobody is missing. A
      finalized audit answers its record again. Nothing else changes. */
  lemma SealExactly(p: Protocol, s: State, id: Bytes, height: int)
    requires Inv(p, s, height) && IsSafeInteger(height)
    ensures var (t, r) := Finalize(s, id, height);
            && t.requests == s.requests
            && (r.Some? <==> id in s.verdicts || (id in s.open && (height > s.open[id].request.deadline || !Waiting(s.open[id]))))
            && (r.None? || id in s.verdicts ==> t == s && (r.Some? ==> r.value == s.verdicts[id]))
            && (r.Some? && id in s.open ==>
                  && Seals(s.open[id], height, r.value) && ValidRecord(p, r.value)
                  && t.open == s.open - {id} && t.verdicts == s.verdicts[id := r.value])
  {
    hide ValidRecord, ShapeOk, Seals;
    if id in s.open {
      WaitingMeans(p, s, id, height);
      RecordSeals(s.open[id], id, height);
      NeverBoth(p, s, height);
      if Ripe(s.open[id], height) {
        RipeRecordOk(p, s, id, height);
      }
      hide Inv, Waiting, KeyedVotes;
    }
  }

  /** Sealing what is due leaves open exactly the audits in time with a member missing, as they were, keeps
      every verdict, and adds a valid record with all votes of each audit that it closed. */
  lemma SealDueExactly(p: Protocol, s: State, height: int)
    requires Inv(p, s, height) && IsSafeInteger(height)
    ensures var t := FinalizeDue(s, height);
            && t.requests == s.requests
            && (forall id :: id in t.open <==> id in s.open && height <= s.open[id].request.deadline && Waiting(s.open[id]))
            && (forall id | id in t.open :: t.open[id] == s.open[id])
            && (forall id :: id in t.verdicts <==> id in s.verdicts || (id in s.open && id !in t.open))
            && (forall id | id in s.verdicts :: t.verdicts[id] == s.verdicts[id])
            && (forall id | id in s.open && id !in t.open ::
                  Seals(s.open[id], height, t.verdicts[id]) && ValidRecord(p, t.verdicts[id]))
  {
    hide ValidRecord, ShapeOk, Seals, Inv, Waiting, KeyedVotes, VerdictOk, Due, Ripe, RecordOf;
    var t := FinalizeDue(s, height);
    NeverBoth(p, s, height);
    forall id | id in s.open
      ensures id in t.open <==> height <= s.open[id].request.deadline && Waiting(s.open[id])
      ensures id !in t.open ==>
                id in t.verdicts && Seals(s.open[id], height, t.verdicts[id]) && ValidRecord(p, t.verdicts[id])
    {
      WaitingMeans(p, s, id, height);
      RecordSeals(s.open[id], id, height);
      if Due(s.open[id], height) {
        DueIsRipe(p, s, id, height);
        RipeRecordOk(p, s, id, height);
      }
    }
  }

  /** A committed verdict closes its audit and brings its request; an earlier record with the same digest is
      kept in its place, and any other is replaced. An invalid record changes nothing. */
  lemma IndexExactly(p: Protocol, s: State, r: Record)
    ensures var (t, accepted) := Index(p, s, r);
            && (accepted <==> ValidRecord(p, r))
            && (!accepted ==> t == s)
            && (accepted ==>
                  && t.open == s.open - {r.auditId} && t.requests == s.requests[r.auditId := r.request]
                  && r.auditId in t.verdicts
                  && p.verdictDigest(Normal(t.verdicts[r.auditId])) == p.verdictDigest(Normal(r))
                  && t.verdicts == s.verdicts[r.auditId := t.verdicts[r.auditId]]
                  && (t.verdicts[r.auditId] == r || (r.auditId in s.verdicts && t.verdicts == s.verdicts)))
  {
    hide ValidRecord, Normal;
    if r.auditId in s.verdicts {
      assert s.verdicts == s.verdicts[r.auditId := s.verdicts[r.auditId]];
    }
  }

  /** What is left of a map by audit id when only the bound requests' entries are kept. */
  ghost predicate KeepsBound<V>(before: map<Bytes, V>, after: map<Bytes, V>, requests: map<Bytes, Request>,
                                chainBound: Request -> bool)
    requires before.Keys <= requests.Keys
  {
    && (forall id :: id in after <==> id in before && chainBound(requests[id]))
    && (forall id | id in after :: after[id] == before[id])
  }

  /** Reconciling with the chain forgets exactly the requests that left it, with their audits and verdicts. */
  lemma ForgetExactly(p: Protocol, s: State, chainBound: Request -> bool, height: int)
    requires Inv(p, s, height)
    ensures s.open.Keys <= s.requests.Keys && s.verdicts.Keys <= s.requests.Keys
    ensures var t := Pruned(s, chainBound);
            && KeepsBound(s.requests, t.requests, s.requests, chainBound)
            && KeepsBound(s.open, t.open, s.requests, chainBound)
            && KeepsBound(s.verdicts, t.verdicts, s.requests, chainBound)
  {
    NeverBoth(p, s, height);
    hide Inv, KeepsBound;
    StaleLeaves(s.requests, s, chainBound);
    StaleLeaves(s.open, s, chainBound);
    StaleLeaves(s.verdicts, s, chainBound);
  }

  lemma StaleLeaves<V>(m: map<Bytes, V>, s: State, chainBound: Request -> bool)
    requires m.Keys <= s.requests.Keys
    ensures KeepsBound(m, m - Stale(s, chainBound), s.requests, chainBound)
  {
  }

  /** A restart takes over only proper requests of the snapshot that the chain still binds. */
  lemma RestoredRequests(p: Protocol, snap: Snapshot, height: int, chainBound: Request -> bool)
    ensures var t := Restore(p, snap, height, chainBound).0;
            forall id | id in t.requests ::
              t.requests[id] in snap.requests && chainBound(t.requests[id]) && Proper(p, t.requests[id])
  {
    var s := AfterRequests(p, chainBound, snap.requests).0;
    var t := AfterVotes(p, s, snap.openVotes, height).0;
    RequestsTaken(p, chainBound, snap.requests);
    VotesKeepRequests(p, s, snap.openVotes, height);
    VerdictsKeepRequests(p, t, snap.verdicts, height);
    RestoreParts(p, snap, height, chainBound);
    hide AfterRequests, AfterVotes, AfterVerdicts, Restore, ShapeOk, Proper;
    forall id | id in s.requests
      ensures Proper(p, s.requests[id])
    {
      ShapeIsProper(p, s.requests[id]);
    }
  }

  lemma {:induction false} RequestsTaken(p: Protocol, chainBound: Request -> bool, rs: seq<Request>)
    ensures Taken(p, chainBound, AfterRequests(p, chainBound, rs).0, rs)
  {
    if rs != [] {
      var n := |rs| - 1;
      hide ShapeOk, CanRestore, Registered, AfterRequests, Taken;
      RequestsTaken(p, chainBound, rs[..n]);
      NextRequest(p, chainBound, rs);
      TakenNext(p, chainBound, AfterRequests(p, chainBound, rs[..n]).0, rs);
    }
  }

  lemma NextRequest(p: Protocol, chainBound: Request -> bool, rs: seq<Request>)
    requires rs != []
    ensures var s := AfterRequests(p, chainBound, rs[..|rs| - 1]).0;
            AfterRequests(p, chainBound, rs).0
            == if CanRestore(p, chainBound, s, rs[|rs| - 1]) then Registered(s, rs[|rs| - 1]) else s
  {
    hide CanRestore, Registered;
  }

  ghost predicate Taken(p: Protocol, chainBound: Request -> bool, s: State, rs: seq<Request>) {
    forall id | id in s.requests :: s.requests[id] in rs && chainBound(s.requests[id]) && ShapeOk(p, s.requests[id])
  }

  lemma TakenNext(p: Protocol, chainBound: Request -> bool, s: State, rs: seq<Request>)
    requires rs != [] && Taken(p, chainBound, s, rs[..|rs| - 1])
    ensures Taken(p, chainBound, s, rs)
    ensures CanRestore(p, chainBound, s, rs[|rs| - 1]) ==> Taken(p, chainBound, Registered(s, rs[|rs| - 1]), rs)
  {
    hide ShapeOk;
  }

  lemma {:induction false} VotesKeepRequests(p: Protocol, s: State, votes: seq<Vote>, height: int)
    ensures AfterVotes(p, s, votes, height).0.requests == s.requests
  {
    hide CanVote;
    if votes != [] {
      VotesKeepRequests(p, s, votes[..|votes| - 1], height);
    }
  }

  lemma {:induction false} VerdictsKeepRequests(p: Protocol, s: State, rs: seq<Record>, height: int)
    ensures AfterVerdicts(p, s, rs, height).0.requests == s.requests
  {
    hide ValidRecord, Ripe, RecordOf, Commitment, AfterEvidence;
    if rs != [] {
      var n := |rs| - 1;
      VerdictsKeepRequests(p, s, rs[..n], height);
      var t := AfterVerdicts(p, s, rs[..n], height).0;
      EvidenceFrame(p, t, rs[n].evidence, height);
    }
  }
}

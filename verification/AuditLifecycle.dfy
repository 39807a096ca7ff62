/** The lifecycle object that a node keeps, and what holds in every state it can reach. */
module AuditLifecycle {
  import opened Canonical
  import opened Collections
  import opened Audit
  import opened AuditTransitions
  import opened AuditRestore

  class AuditLifecycle {
    const p: Protocol
    var open: map<Bytes, OpenAudit>
    var requests: map<Bytes, Request>
    var verdicts: map<Bytes, Record>

    function Value(): State
      reads this
    {
      State(open, requests, verdicts)
    }

    constructor (p: Protocol)
      ensures this.p == p && Value() == EMPTY_STATE && Keyed(Value())
    {
      this.p := p;
      open, requests, verdicts := map[], map[], map[];
    }

    method RegisterRequest(request: Request, height: int) returns (accepted: bool)
      requires Keyed(Value())
      modifies this
      ensures (Value(), accepted) == Register(p, old(Value()), request, height) && Keyed(Value())
    {
      if !ShapeOk(p, request)
         || height < request.assignment.beaconHeight || height > request.deadline {
        return false;
      }
      if request.auditId in verdicts || request.auditId in open || |open| >= p.maxOpen {
        return false;
      }
      requests := requests[request.auditId := request];
      open := open[request.auditId := OpenAudit(request, map[])];
      accepted := true;
    }

    method SubmitVote(vote: Vote, height: int) returns (accepted: bool)
      requires Keyed(Value())
      modifies this`open
      ensures (Value(), accepted) == Submit(p, old(Value()), vote, height) && Keyed(Value())
    {
      if vote.auditId !in open {
        return false;
      }
      var audit := open[vote.auditId];
      if vote.validator !in audit.request.assignment.committee || vote.validator in audit.votes {
        return false;
      }
      if vote.submittedAt < audit.request.assignment.beaconHeight
         || vote.submittedAt > audit.request.deadline || vote.submittedAt > height {
        return false;
      }
      if !VoteOk(p, vote) {
        return false;
      }
      open := open[vote.auditId := audit.(votes := audit.votes[vote.validator := vote])];
      accepted := true;
    }

    /** Seals an audit that everybody voted on or whose deadline has passed. */
    method FinalizeAudit(id: Bytes, height: int) returns (record: Option<Record>)
      requires Keyed(Value())
      modifies this`open, this`verdicts
      ensures (Value(), record) == Finalize(old(Value()), id, height) && Keyed(Value())
    {
      if id !in open {
        return if id in verdicts then Some(verdicts[id]) else None;
      }
      var audit := open[id];
      var a := audit.request.assignment;
      if height <= audit.request.deadline && |audit.votes| < |a.committee| {
        return None;
      }
      VoteOrder(audit.votes, id);
      var votes := MapValues(audit.votes);
      var evidence := Sort(ByValidator, votes);
      EvidenceIs(audit.votes, id, votes);
      var summary := DeriveVerdictSummary(audit.request, evidence);
      var sealed := Record(id, audit.request, a.claimId, a.claimantId, a.commitment, summary, height, evidence);
      open := open - {id};
      verdicts := verdicts[id := sealed];
      record := Some(sealed);
    }

    method FinalizeDueAudits(height: int) returns (finalized: seq<Record>)
      requires Keyed(Value())
      modifies this`open, this`verdicts
      ensures Value() == FinalizeDue(old(Value()), height) && Keyed(Value())
      ensures Elements(finalized) == DueRecords(old(Value()), height).Values
    {
      ghost var before := Value();
      finalized := [];
      var pending := open.Keys;
      NothingSealed(before, height);
      while pending != {}
        invariant Keyed(Value()) && pending <= before.open.Keys
        invariant Value() == Halted(before, pending, height)
        invariant Elements(finalized) == Sealed(before, pending, height).Values
        decreases |pending|
      {
        hide Halted, Sealed, Due, Finalize, RecordOf, Keyed;
        var id :| id in pending;
        HaltedNext(before, pending, id, height);
        pending := pending - {id};
        var audit := open[id];
        if |audit.votes| == |audit.request.assignment.committee| || height > audit.request.deadline {
          assert Due(audit, height) by {
            DueMeans(audit, height);
          }
          var record := FinalizeAudit(id, height);
          OneMoreElement(finalized, record.value);
          finalized := finalized + [record.value];
        } else {
          assert !Due(audit, height) by {
            DueMeans(audit, height);
          }
        }
      }
      AllSealed(before, height);
    }

    /** Takes over a verdict that an active-chain block has committed. */
    method IndexCommittedVerdict(r: Record) returns (accepted: bool)
      requires Keyed(Value())
      modifies this
      ensures (Value(), accepted) == Index(p, old(Value()), r) && Keyed(Value())
    {
      var valid := ValidateAuditVerdictRecord(p, r);
      if !valid {
        return false;
      }
      if r.auditId !in verdicts || Commitment(p, verdicts[r.auditId]) != Commitment(p, r) {
        verdicts := verdicts[r.auditId := r];
      }
      requests := requests[r.auditId := r.request];
      open := open - {r.auditId};
      accepted := true;
    }

    method ReconcileState(height: int, chainBound: Request -> bool) returns (dropped: nat, finalized: seq<Record>)
      requires Keyed(Value())
      modifies this
      ensures Value() == Reconcile(old(Value()), height, chainBound) && Keyed(Value())
      ensures dropped == |Stale(old(Value()), chainBound)|
      ensures Elements(finalized) == DueRecords(Pruned(old(Value()), chainBound), height).Values
    {
      hide Stale, Pruned, PrunedBut, FinalizeDue, DueRecords, Keyed;
      ghost var before := Value();
      PruneOrder(before, chainBound);
      var pending := requests.Keys;
      dropped := 0;
      while pending != {}
        invariant pending <= before.requests.Keys && Value() == PrunedBut(before, pending, chainBound)
        invariant dropped == |Stale(before, chainBound) - pending|
        decreases |pending|
      {
        var id :| id in pending;
        PruneNext(before, pending, id, chainBound);
        pending := pending - {id};
        if !chainBound(requests[id]) {
          requests := requests - {id};
          open := open - {id};
          verdicts := verdicts - {id};
          dropped := dropped + 1;
        }
      }
      PruneOrder(before, chainBound);
      PrunedKeyed(before, chainBound);
      finalized := FinalizeDueAudits(height);
    }

    // ---------- Persistence ----------

    method SnapshotState() returns (snap: Snapshot)
      requires Keyed(Value())
      ensures IsSnapshot(Value(), snap)
    {
      SnapshotOrders(Value());
      var rs := MapValues(requests);
      var vs := MapValues(verdicts);
      var votes := CollectVotes();
      SortedListing(ByRequest, requests.Values, rs);
      SortedListing(ByRecord, verdicts.Values, vs);
      SortedListing(ByVote, OpenVotes(Value()), votes);
      snap := Snapshot(Sort(ByRequest, rs), Sort(ByVote, votes), Sort(ByRecord, vs));
    }

    method CollectVotes() returns (votes: seq<Vote>)
      requires Keyed(Value())
      ensures Lists(OpenVotes(Value()), votes)
    {
      votes := [];
      var rest := open;
      while rest.Keys != {}
        invariant rest.Keys <= open.Keys && forall id | id in rest :: rest[id] == open[id]
        invariant Lists(OpenVotes(Value()) - OpenVotes(State(rest, map[], map[])), votes)
        decreases |rest|
      {
        var id :| id in rest.Keys;
        VoteOrder(rest[id].votes, id);
        var more := MapValues(rest[id].votes);
        VotesBut(Value(), rest, id);
        votes := votes + more;
        rest := rest - {id};
      }
      assert OpenVotes(Value()) - OpenVotes(State(rest, map[], map[])) == OpenVotes(Value());
    }

    method RestoreState(snap: Snapshot, height: int, chainBound: Request -> bool)
      returns (restored: nat, dropped: nat, finalized: seq<Record>)
      modifies this
      ensures (Value(), dropped) == Restore(p, snap, height, chainBound) && Keyed(Value())
      ensures restored == |requests|
      ensures Elements(finalized) == DueRecords(Loaded(p, snap, height, chainBound).0, height).Values
    {
      hide AfterRequests, AfterVotes, AfterVerdicts, FinalizeDue, DueRecords, Keyed;
      var d := RestoreRequests(snap.requests, chainBound);
      var e := RestoreVotes(snap.openVotes, height);
      var f := RestoreVerdicts(snap.verdicts, height);
      finalized := FinalizeDueAudits(height);
      restored, dropped := |requests|, d + e + f;
    }

    method RestoreVotes(votes: seq<Vote>, height: int) returns (dropped: nat)
      requires Keyed(Value())
      modifies this`open
      ensures (Value(), dropped) == AfterVotes(p, old(Value()), votes, height) && Keyed(Value())
    {
      hide Keyed, Submit;
      ghost var s := Value();
      dropped := 0;
      var i := 0;
      while i < |votes|
        invariant i <= |votes| && Keyed(Value())
        invariant (Value(), dropped) == AfterVotes(p, s, votes[..i], height)
      {
        assert votes[..i + 1][..i] == votes[..i];
        var accepted := SubmitVote(votes[i], height);
        if !accepted {
          dropped := dropped + 1;
        }
        i := i + 1;
      }
      assert votes[..i] == votes;
    }

    method RestoreVerdicts(rs: seq<Record>, height: int) returns (dropped: nat)
      requires Keyed(Value())
      modifies this`open, this`verdicts
      ensures (Value(), dropped) == AfterVerdicts(p, old(Value()), rs, height) && Keyed(Value())
    {
      hide Keyed, RestoreVerdict;
      ghost var s := Value();
      dropped := 0;
      var i := 0;
      while i < |rs|
        invariant i <= |rs| && Keyed(Value())
        invariant (Value(), dropped) == AfterVerdicts(p, s, rs[..i], height)
      {
        assert rs[..i + 1][..i] == rs[..i];
        var restored := RestoreStored(rs[i], height);
        if !restored {
          dropped := dropped + 1;
        }
        i := i + 1;
      }
      assert rs[..i] == rs;
    }

    method RestoreRequests(rs: seq<Request>, chainBound: Request -> bool) returns (dropped: nat)
      modifies this
      ensures (Value(), dropped) == AfterRequests(p, chainBound, rs) && Keyed(Value())
    {
      hide ShapeOk, Keyed;
      open, requests, verdicts := map[], map[], map[];
      NothingKeyed();
      dropped := 0;
      var i := 0;
      while i < |rs|
        invariant i <= |rs| && Keyed(Value())
        invariant (Value(), dropped) == AfterRequests(p, chainBound, rs[..i])
      {
        assert rs[..i + 1][..i] == rs[..i];
        var r := rs[i];
        if |requests| >= p.maxOpen || !ShapeOk(p, r) || !chainBound(r) || r.auditId in requests {
          dropped := dropped + 1;
        } else {
          RegisteredKeyed(Value(), r);
          requests := requests[r.auditId := r];
          open := open[r.auditId := OpenAudit(r, map[])];
        }
        i := i + 1;
      }
      assert rs[..i] == rs;
    }

    method RestoreStored(r: Record, height: int) returns (restored: bool)
      requires Keyed(Value())
      modifies this`open, this`verdicts
      ensures (Value(), restored) == RestoreVerdict(p, old(Value()), r, height) && Keyed(Value())
    {
      if r.auditId !in open || r.request.auditId != open[r.auditId].request.auditId {
        return false;
      }
      var valid := ValidateAuditVerdictRecord(p, r);
      if !valid {
        return false;
      }
      ghost var s := Value();
      var i := 0;
      while i < |r.evidence|
        invariant i <= |r.evidence| && Keyed(Value())
        invariant (Value(), true) == AfterEvidence(p, s, r.evidence[..i], height)
      {
        assert r.evidence[..i + 1][..i] == r.evidence[..i];
        var accepted := SubmitVote(r.evidence[i], height);
        if !accepted {
          EvidenceRefused(p, s, r.evidence, i, height);
          return false;
        }
        i := i + 1;
      }
      assert r.evidence[..i] == r.evidence;
      var derived := FinalizeAudit(r.auditId, r.finalizedAt);
      if derived.None? || Commitment(p, derived.value) != Commitment(p, r) {
        verdicts := verdicts - {r.auditId};
        return false;
      }
      restored := true;
    }
  }

  // ---------- Steps of the loops ----------

  lemma NothingKeyed()
    ensures Keyed(EMPTY_STATE)
  {
  }

  lemma RegisteredKeyed(s: State, r: Request)
    requires Keyed(s)
    ensures Keyed(Registered(s, r))
  {
  }

  ghost function Sealed(s: State, pending: set<Bytes>, height: int): map<Bytes, Record> {
    map id | id in s.open && id !in pending && Due(s.open[id], height) :: RecordOf(s.open[id], height)
  }

  /** Finalizing due audits, with some still to be looked at. */
  ghost function Halted(s: State, pending: set<Bytes>, height: int): State {
    s.(open := NotSealed(s, pending, height), verdicts := s.verdicts + Sealed(s, pending, height))
  }

  lemma NothingSealed(s: State, height: int)
    ensures Halted(s, s.open.Keys, height) == s && Sealed(s, s.open.Keys, height) == map[]
  {
    assert Sealed(s, s.open.Keys, height) == map[];
    assert Halted(s, s.open.Keys, height).open == s.open;
  }

  lemma AllSealed(s: State, height: int)
    ensures Halted(s, {}, height) == FinalizeDue(s, height) && Sealed(s, {}, height) == DueRecords(s, height)
  {
    assert Sealed(s, {}, height) == DueRecords(s, height);
  }

  lemma DueMeans(audit: OpenAudit, height: int)
    ensures Due(audit, height)
            <==> |audit.votes| == |audit.request.assignment.committee| || height > audit.request.deadline
    ensures Due(audit, height) ==> Ripe(audit, height)
  {
  }

  lemma HaltedNext(s: State, pending: set<Bytes>, id: Bytes, height: int)
    requires id in pending && pending <= s.open.Keys
    ensures var t, u := Halted(s, pending, height), Halted(s, pending - {id}, height);
            && id in t.open && t.open[id] == s.open[id]
            && var sealed := RecordOf(s.open[id], height);
               if Due(s.open[id], height)
               then Finalize(t, id, height) == (u, Some(sealed))
                    && Sealed(s, pending - {id}, height).Values == Sealed(s, pending, height).Values + {sealed}
               else u == t && Sealed(s, pending - {id}, height) == Sealed(s, pending, height)
  {
    DueMeans(s.open[id], height);
    SealedNext(s, pending, id, height);
    StillHeld(s, pending, id, height);
    if Due(s.open[id], height) {
      PutValue(Sealed(s, pending, height), id, RecordOf(s.open[id], height));
      AddLater(s.verdicts, Sealed(s, pending, height), id, RecordOf(s.open[id], height));
    }
    hide RecordOf, Due, Ripe, Sealed, NotSealed;
  }

  function NotSealed(s: State, pending: set<Bytes>, height: int): map<Bytes, OpenAudit> {
    map id | id in s.open && (id in pending || !Due(s.open[id], height)) :: s.open[id]
  }

  lemma StillHeld(s: State, pending: set<Bytes>, id: Bytes, height: int)
    requires id in pending && id in s.open
    ensures id in NotSealed(s, pending, height) && NotSealed(s, pending, height)[id] == s.open[id]
    ensures NotSealed(s, pending - {id}, height)
            == if Due(s.open[id], height) then NotSealed(s, pending, height) - {id} else NotSealed(s, pending, height)
  {
    hide Due;
  }

  lemma SealedNext(s: State, pending: set<Bytes>, id: Bytes, height: int)
    requires id in pending && id in s.open
    ensures id !in Sealed(s, pending, height)
    ensures Sealed(s, pending - {id}, height)
            == if Due(s.open[id], height) then Sealed(s, pending, height)[id := RecordOf(s.open[id], height)]
               else Sealed(s, pending, height)
  {
    hide RecordOf, Due;
  }

  function PrunedBut(s: State, pending: set<Bytes>, chainBound: Request -> bool): State {
    var stale := Stale(s, chainBound) - pending;
    State(s.open - stale, s.requests - stale, s.verdicts - stale)
  }

  lemma PruneOrder(s: State, chainBound: Request -> bool)
    ensures PrunedBut(s, s.requests.Keys, chainBound) == s
    ensures PrunedBut(s, {}, chainBound) == Pruned(s, chainBound)
    ensures Stale(s, chainBound) - s.requests.Keys == {} && Stale(s, chainBound) - {} == Stale(s, chainBound)
  {
    assert forall id :: id !in Stale(s, chainBound) - s.requests.Keys;
    assert PrunedBut(s, s.requests.Keys, chainBound).open == s.open;
    assert Stale(s, chainBound) - {} == Stale(s, chainBound);
  }

  lemma PrunedKeyed(s: State, chainBound: Request -> bool)
    requires Keyed(s)
    ensures Keyed(Pruned(s, chainBound))
  {
    hide Stale, KeyedVotes;
  }

  lemma PruneNext(s: State, pending: set<Bytes>, id: Bytes, chainBound: Request -> bool)
    requires id in pending && pending <= s.requests.Keys
    ensures var t, u := PrunedBut(s, pending, chainBound), PrunedBut(s, pending - {id}, chainBound);
            && id in t.requests && t.requests[id] == s.requests[id]
            && u == if chainBound(s.requests[id]) then t
                    else State(t.open - {id}, t.requests - {id}, t.verdicts - {id})
    ensures |Stale(s, chainBound) - (pending - {id})|
            == |Stale(s, chainBound) - pending| + if chainBound(s.requests[id]) then 0 else 1
  {
    var stale := Stale(s, chainBound) - pending;
    assert Stale(s, chainBound) - (pending - {id}) == if chainBound(s.requests[id]) then stale else stale + {id};
    DropBoth(s.open, stale, id);
    DropBoth(s.requests, stale, id);
    DropBoth(s.verdicts, stale, id);
  }

  lemma DropBoth<K, V>(m: map<K, V>, ks: set<K>, k: K)
    ensures m - (ks + {k}) == m - ks - {k}
  {
  }

  lemma SortedListing<T>(le: (T, T) -> bool, s: set<T>, e: seq<T>)
    requires Lists(s, e) && Orders(le, s)
    ensures Lists(s, Sort(le, e)) && SortedBy(le, Sort(le, e))
  {
    ListedElements(s, e);
    SortPermutes(le, e);
    SortSorts(le, e);
  }

  /** Setting one audit aside sets its votes aside. */
  lemma VotesBut(s: State, rest: map<Bytes, OpenAudit>, id: Bytes)
    requires Keyed(s) && rest.Keys <= s.open.Keys && (forall x | x in rest :: rest[x] == s.open[x]) && id in rest
    ensures var all := OpenVotes(s);
            var before := all - OpenVotes(State(rest, map[], map[]));
            && all - OpenVotes(State(rest - {id}, map[], map[])) == before + rest[id].votes.Values
            && before !! rest[id].votes.Values
  {
    var some, fewer := OpenVotes(State(rest, map[], map[])), OpenVotes(State(rest - {id}, map[], map[]));
    forall v
      ensures v in some <==> v in fewer || v in rest[id].votes.Values
      ensures v in fewer ==> v !in rest[id].votes.Values
      ensures v in rest[id].votes.Values ==> v in OpenVotes(s)
    {
      if v in some {
        var x, k :| x in rest && k in rest[x].votes && rest[x].votes[k] == v;
        assert x != id ==> x in rest - {id};
      }
      if v in fewer {
        var x, k :| x in rest - {id} && k in rest[x].votes && rest[x].votes[k] == v;
        assert v.auditId == x;
      }
      if v in rest[id].votes.Values {
        var k :| k in rest[id].votes && rest[id].votes[k] == v;
      }
    }
  }

  /** A refused vote ends the replay of the evidence where it stands. */
  lemma {:induction false} EvidenceRefused(p: Protocol, s: State, votes: seq<Vote>, i: nat, height: int)
    requires i < |votes| && AfterEvidence(p, s, votes[..i], height).1
    requires !Submit(p, AfterEvidence(p, s, votes[..i], height).0, votes[i], height).1
    ensures AfterEvidence(p, s, votes, height) == (AfterEvidence(p, s, votes[..i], height).0, false)
  {
    var n := |votes| - 1;
    if i < n {
      assert votes[..n][..i] == votes[..i];
      EvidenceRefused(p, s, votes[..n], i, height);
    }
  }

  // ---------- Every run ----------

  datatype Op =
    | Registering(request: Request, height: int)
    | Voting(vote: Vote, height: int)
    | Finalizing(id: Bytes, height: int)
    | FinalizingDue(height: int)
    | Indexing(record: Record, height: int)
    | Reconciling(chainBound: Request -> bool, height: int)
    | Restarting(snapshot: Snapshot, chainBound: Request -> bool, height: int)

  ghost function Step(p: Protocol, s: State, op: Op): State {
    match op
    case Registering(request, height) => Register(p, s, request, height).0
    case Voting(vote, height) => Submit(p, s, vote, height).0
    case Finalizing(id, height) => Finalize(s, id, height).0
    case FinalizingDue(height) => FinalizeDue(s, height)
    case Indexing(record, _) => Index(p, s, record).0
    case Reconciling(chainBound, height) => Reconcile(s, height, chainBound)
    case Restarting(snapshot, chainBound, height) => Restore(p, snapshot, height, chainBound).0
  }

  ghost function After(p: Protocol, ops: seq<Op>): State {
    if ops == [] then EMPTY_STATE else Step(p, After(p, ops[..|ops| - 1]), ops[|ops| - 1])
  }

  /** Heights are safe integers and never go back. */
  ghost predicate Forward(ops: seq<Op>) {
    && (forall i | 0 <= i < |ops| :: IsSafeInteger(ops[i].height))
    && (forall i, j | 0 <= i < j < |ops| :: ops[i].height <= ops[j].height)
  }

  lemma StepKeeps(p: Protocol, s: State, op: Op)
    requires DigestsCommit(p) && Inv(p, s, op.height) && IsSafeInteger(op.height)
    ensures Inv(p, Step(p, s, op), op.height)
  {
    hide Inv, DigestsCommit;
    match op
    case Registering(request, height) => RegisterKeeps(p, s, request, height);
    case Voting(vote, height) => SubmitKeeps(p, s, vote, height);
    case Finalizing(id, height) => FinalizeKeeps(p, s, id, height);
    case FinalizingDue(height) => FinalizeDueKeeps(p, s, height);
    case Indexing(record, height) => IndexKeeps(p, s, record, height);
    case Reconciling(chainBound, height) =>
      PruneKeeps(p, s, chainBound, height);
      FinalizeDueKeeps(p, Pruned(s, chainBound), height);
    case Restarting(snapshot, chainBound, height) => RestoreKeeps(p, snapshot, height, chainBound);
  }

  lemma NothingYetKeeps(p: Protocol, height: int)
    ensures Inv(p, EMPTY_STATE, height)
  {
  }

  /** Every reachable state: open audits within the limit, each with at most one valid in-window vote
      per committee member; no audit both open and finalized; every verdict valid on its own. */
  lemma {:induction false} ReachableStates(p: Protocol, ops: seq<Op>, height: int)
    requires DigestsCommit(p) && Forward(ops)
    requires forall i | 0 <= i < |ops| :: ops[i].height <= height
    ensures Inv(p, After(p, ops), height)
  {
    hide Inv, DigestsCommit, Step;
    if ops == [] {
      NothingYetKeeps(p, height);
    } else {
      var n := |ops| - 1;
      ReachableStates(p, ops[..n], ops[n].height);
      StepKeeps(p, After(p, ops[..n]), ops[n]);
      TimePasses(p, After(p, ops), ops[n].height, height);
    }
  }
}

/** The escrow journal as its list of events alone describes it: who owns what, the state of every job, and
    which event may come next. */
module AssignedWorkLaws {
  import opened Canonical
  import opened Collections
  import opened AssignedWork

  // ---------- Reading the event list ----------

  /** The event that created a job. */
  function Creation(events: seq<Event>, id: Bytes): (r: Option<Event>)
    ensures r.Some? ==> r.value.Create? && r.value.jobId == id
  {
    if events == [] then None
    else
      var e := events[|events| - 1];
      if e.Create? && e.jobId == id then Some(e) else Creation(events[..|events| - 1], id)
  }

  /** The event that completed a job. */
  function Completion(events: seq<Event>, id: Bytes): (r: Option<Event>)
    ensures r.Some? ==> r.value.Complete? && r.value.jobId == id
  {
    if events == [] then None
    else
      var e := events[|events| - 1];
      if e.Complete? && e.jobId == id then Some(e) else Completion(events[..|events| - 1], id)
  }

  predicate WasRefunded(events: seq<Event>, id: Bytes) {
    exists i :: 0 <= i < |events| && events[i].Refund? && events[i].jobId == id
  }

  predicate WasCredited(events: seq<Event>, id: Bytes) {
    exists i :: 0 <= i < |events| && events[i].Credit? && events[i].jobId == id
  }

  function FundingOf(events: seq<Event>, id: Bytes): Option<Funding> {
    match Creation(events, id)
    case None => None
    case Some(e) => e.funding
  }

  function Worth(funding: Option<Funding>): nat {
    if funding.None? then 0 else Units(funding.value.amount)
  }

  // ---------- Sums over the event list ----------

  function CreditedTo(events: seq<Event>, a: Bytes): nat {
    if events == [] then 0
    else
      var e := events[|events| - 1];
      CreditedTo(events[..|events| - 1], a) + if e.Credit? && e.buyer == a then Units(e.amount) else 0
  }

  function FundedBy(events: seq<Event>, a: Bytes): nat {
    if events == [] then 0
    else
      var e := events[|events| - 1];
      FundedBy(events[..|events| - 1], a)
      + if e.Create? && e.funding.Some? && e.funding.value.buyer == a then Units(e.funding.value.amount) else 0
  }

  /** What refunds gave back to the account that had funded the refunded jobs. */
  function RefundedTo(events: seq<Event>, a: Bytes): nat {
    if events == [] then 0
    else
      var before, e := events[..|events| - 1], events[|events| - 1];
      var funding := FundingOf(before, e.jobId);
      RefundedTo(before, a) + if e.Refund? && funding.Some? && funding.value.buyer == a then Worth(funding) else 0
  }

  /** What completing funded jobs earned the account named as their worker. */
  function EarnedBy(events: seq<Event>, a: Bytes): nat {
    if events == [] then 0
    else
      var before, e := events[..|events| - 1], events[|events| - 1];
      EarnedBy(before, a) + if e.Complete? && e.miner == a then Worth(FundingOf(before, e.jobId)) else 0
  }

  // ---------- The books, from the events ----------

  function LastOf(leases: seq<Lease>): Option<Lease> {
    if leases == [] then None else Some(leases[|leases| - 1])
  }

  /** A created job: its inputs as created, its last lease, the output of its completion, and a reservation
      that is paid when complete, refunded when refunded, and otherwise held. */
  function JobOf(o: Office, events: seq<Event>, id: Bytes): Option<Job> {
    var created, done := Creation(events, id), Completion(events, id);
    if created.None? then None
    else
      var c := created.value;
      var status := if done.Some? then Paid else if WasRefunded(events, id) then Refunded else Reserved;
      Some(Job(id, o.network, c.epoch, o.inputDigest(c.left, c.right), c.left, c.right, LastOf(LeasesOf(events, id)),
               if done.Some? then Some(Outcome(done.value.output, done.value.commitment)) else None,
               if c.funding.Some? then Some(Reservation(c.funding.value, status)) else None))
  }

  /** No event is about the job yet. */
  predicate Untouched(events: seq<Event>, id: Bytes) {
    Creation(events, id).None? && Completion(events, id).None? && !WasRefunded(events, id) && LeasesOf(events, id) == []
  }

  ghost predicate JobsAre(o: Office, events: seq<Event>, s: Books) {
    && (forall id :: id in s.jobs <==> JobOf(o, events, id).Some?)
    && (forall id | id in s.jobs :: JobOf(o, events, id) == Some(s.jobs[id]))
    && (forall id | id !in s.jobs :: Untouched(events, id))
    && (forall id | id in s.jobs && WasRefunded(events, id) :: FundingOf(events, id).Some?)
  }

  ghost predicate CreditsAre(events: seq<Event>, s: Books) {
    forall id :: id in s.credits <==> WasCredited(events, id)
  }

  /** The balance of an account: what it was credited, refunded and paid, less what it put into jobs. */
  ghost predicate AccountsAre(events: seq<Event>, s: Books) {
    forall a {:trigger CreditedTo(events, a)} ::
      (if a in s.balances then s.balances[a] else 0) + FundedBy(events, a)
      == CreditedTo(events, a) + RefundedTo(events, a) + EarnedBy(events, a)
  }

  // ---------- One more event ----------

  lemma OneMoreEvent(events: seq<Event>, e: Event, id: Bytes)
    ensures var more := events + [e];
            && more[..|more| - 1] == events && more[|more| - 1] == e
            && (WasRefunded(more, id) <==> WasRefunded(events, id) || (e.Refund? && e.jobId == id))
            && (WasCredited(more, id) <==> WasCredited(events, id) || (e.Credit? && e.jobId == id))
  {
    var more := events + [e];
    assert more[|events|] == e;
    if i :| 0 <= i < |events| && events[i].Refund? && events[i].jobId == id {
      assert more[i] == events[i];
    }
    if i :| 0 <= i < |events| && events[i].Credit? && events[i].jobId == id {
      assert more[i] == events[i];
    }
  }

  lemma OtherJob(o: Office, events: seq<Event>, e: Event, id: Bytes)
    requires e.jobId != id || e.Credit?
    ensures JobOf(o, events + [e], id) == JobOf(o, events, id)
    ensures Untouched(events + [e], id) <==> Untouched(events, id)
    ensures WasRefunded(events + [e], id) <==> WasRefunded(events, id)
    ensures FundingOf(events + [e], id) == FundingOf(events, id)
  {
    hide WasRefunded, WasCredited;
    OneMoreEvent(events, e, id);
  }

  lemma JobsStep(o: Office, events: seq<Event>, s: Books, e: Event)
    requires JobsAre(o, events, s) && Transition(o, s, e).Some?
    ensures JobsAre(o, events + [e], Transition(o, s, e).value)
  {
    hide VectorsOk, IsIdentifier, IsWorkKey, IsAmount, SignatureOk, Printed, JobOf, Untouched, FundingOf, WasRefunded;
    var t := Transition(o, s, e).value;
    OwnJob(o, events, s, e);
    forall id
      ensures id in t.jobs <==> JobOf(o, events + [e], id).Some?
      ensures if id in t.jobs then JobOf(o, events + [e], id) == Some(t.jobs[id]) else Untouched(events + [e], id)
      ensures id in t.jobs && WasRefunded(events + [e], id) ==> FundingOf(events + [e], id).Some?
    {
      if id != e.jobId || e.Credit? {
        OtherJob(o, events, e, id);
        SameJob(o, s, e, id);
      }
    }
  }

  lemma SameJob(o: Office, s: Books, e: Event, id: Bytes)
    requires Transition(o, s, e).Some? && (id != e.jobId || e.Credit?)
    requires forall x | x in s.jobs :: s.jobs[x].jobId == x
    ensures id in Transition(o, s, e).value.jobs <==> id in s.jobs
    ensures id in s.jobs ==> Transition(o, s, e).value.jobs[id] == s.jobs[id]
  {
    hide VectorsOk, IsIdentifier, IsWorkKey, IsAmount, SignatureOk, Printed;
  }

  lemma OwnJob(o: Office, events: seq<Event>, s: Books, e: Event)
    requires JobsAre(o, events, s) && Transition(o, s, e).Some?
    ensures forall x | x in s.jobs :: s.jobs[x].jobId == x
    ensures !e.Credit? ==> e.jobId in Transition(o, s, e).value.jobs
                           && JobOf(o, events + [e], e.jobId) == Some(Transition(o, s, e).value.jobs[e.jobId])
                           && (WasRefunded(events + [e], e.jobId) ==> FundingOf(events + [e], e.jobId).Some?)
  {
    hide VectorsOk, IsIdentifier, IsWorkKey, IsAmount, SignatureOk, Printed, WasRefunded, WasCredited;
    OneMoreEvent(events, e, e.jobId);
    if e.Create? {
      assert Untouched(events, e.jobId);
    } else if !e.Credit? {
      assert JobOf(o, events, e.jobId) == Some(s.jobs[e.jobId]);
      var more := events + [e];
      if e.Leasing? {
        assert LeasesOf(more, e.jobId) == LeasesOf(events, e.jobId) + [Lease(e.leaseId, e.miner, e.now, e.deadline)];
      }
    }
  }

  /** What one event does to one account. */
  lemma AccountStep(o: Office, events: seq<Event>, s: Books, e: Event, a: Bytes)
    requires JobsAre(o, events, s) && Transition(o, s, e).Some?
    ensures var t := Transition(o, s, e).value;
            var held := FundingOf(events, e.jobId);
            Balance(t, a) == Balance(s, a)
              + (if e.Credit? && e.buyer == a then Units(e.amount) else 0)
              + (if e.Refund? && held.Some? && held.value.buyer == a then Worth(held) else 0)
              + (if e.Complete? && e.miner == a then Worth(held) else 0)
              - (if e.Create? && e.funding.Some? && e.funding.value.buyer == a then Units(e.funding.value.amount) else 0)
  {
    hide VectorsOk, IsIdentifier, IsWorkKey, IsAmount, SignatureOk, Printed, Units, LeasesOf, WasRefunded, WasCredited;
    if e.jobId in s.jobs {
      assert JobOf(o, events, e.jobId) == Some(s.jobs[e.jobId]);
    }
  }

  lemma AccountsStep(o: Office, events: seq<Event>, s: Books, e: Event)
    requires JobsAre(o, events, s) && AccountsAre(events, s) && Transition(o, s, e).Some?
    ensures AccountsAre(events + [e], Transition(o, s, e).value)
  {
    hide JobsAre, Transition, FundingOf, Worth, Units;
    var more := events + [e];
    assert more[..|more| - 1] == events && more[|more| - 1] == e;
    forall a {:trigger CreditedTo(more, a)}
      ensures Balance(Transition(o, s, e).value, a) + FundedBy(more, a)
              == CreditedTo(more, a) + RefundedTo(more, a) + EarnedBy(more, a)
    {
      AccountStep(o, events, s, e, a);
      assert CreditedTo(events, a) >= 0;
    }
  }

  lemma CreditsStep(o: Office, events: seq<Event>, s: Books, e: Event)
    requires CreditsAre(events, s) && Transition(o, s, e).Some?
    ensures CreditsAre(events + [e], Transition(o, s, e).value)
  {
    hide VectorsOk, IsIdentifier, IsWorkKey, IsAmount, SignatureOk, Printed, WasCredited;
    forall id
      ensures id in Transition(o, s, e).value.credits <==> WasCredited(events + [e], id)
    {
      OneMoreEvent(events, e, id);
    }
  }

  // ---------- Every replay ----------

  /** The books after any replay are those that the events describe: each job with its inputs, last lease,
      result and the fate of its reservation; and the balance of each account, who was credited, who paid,
      who was refunded and who earned. */
  lemma {:induction false} BooksFromEvents(o: Office, events: seq<Event>)
    requires Replay(o, events).Some?
    ensures JobsAre(o, events, Replay(o, events).value)
    ensures CreditsAre(events, Replay(o, events).value)
    ensures AccountsAre(events, Replay(o, events).value)
  {
    hide Transition, JobsAre, CreditsAre, AccountsAre;
    if events == [] {
      NoEvents(o);
    } else {
      var n := |events| - 1;
      var s := Replay(o, events[..n]).value;
      BooksFromEvents(o, events[..n]);
      JobsStep(o, events[..n], s, events[n]);
      CreditsStep(o, events[..n], s, events[n]);
      AccountsStep(o, events[..n], s, events[n]);
      assert events[..n] + [events[n]] == events;
    }
  }

  lemma NoEvents(o: Office)
    ensures JobsAre(o, [], EMPTY_BOOKS) && CreditsAre([], EMPTY_BOOKS) && AccountsAre([], EMPTY_BOOKS)
  {
  }

  /** Account by account: after every replay the balance is what was credited, plus the refunds of jobs the
      account funded, plus the pay of jobs it completed, less the funding of jobs it created. */
  lemma AccountLaw(o: Office, events: seq<Event>, a: Bytes)
    requires Replay(o, events).Some?
    ensures var balances := Replay(o, events).value.balances;
            (if a in balances then balances[a] else 0)
            == CreditedTo(events, a) + RefundedTo(events, a) + EarnedBy(events, a) - FundedBy(events, a)
  {
    BooksFromEvents(o, events);
    assert CreditedTo(events, a) >= 0;
  }

  // ---------- Which event may come next ----------

  predicate Integer(n: int) {
    0 <= n <= 9_007_199_254_740_991
  }

  /** Letters, digits, colon, dot, underscore and hyphen, at most 128 of them. */
  predicate Name(b: Bytes) {
    1 <= |b| <= 128 && forall i | 0 <= i < |b| ::
      || '0' as int <= b[i] as int <= '9' as int || 'A' as int <= b[i] as int <= 'Z' as int
      || 'a' as int <= b[i] as int <= 'z' as int
      || b[i] as int == ':' as int || b[i] as int == '.' as int || b[i] as int == '_' as int || b[i] as int == '-' as int
  }

  /** A decimal number of at most thirty digits without a leading zero. */
  predicate Amount(b: Bytes) {
    1 <= |b| <= 30 && b[0] as int != '0' as int && forall i | 0 <= i < |b| :: '0' as int <= b[i] as int <= '9' as int
  }

  predicate Vector(v: seq<int>) {
    1 <= |v| <= 4096 && forall i | 0 <= i < |v| :: -2_147_483_648 <= v[i] <= 2_147_483_647
  }

  /** "workkey:" and sixty-four lower-case hexadecimal digits. */
  predicate WorkKey(b: Bytes) {
    && |b| == 72 && WorkKeyName(b)
    && forall i | 8 <= i < 72 ::
         '0' as int <= b[i] as int <= '9' as int || 'a' as int <= b[i] as int <= 'f' as int
  }

  predicate WorkKeyName(b: Bytes) {
    |b| >= 8 && forall i | 0 <= i < 8 :: b[i] as int == "workkey:"[i] as int
  }

  predicate LeaseEnded(events: seq<Event>, id: Bytes, now: int) {
    var last := LastOf(LeasesOf(events, id));
    last.Some? ==> now >= last.value.deadline
  }

  /** The sum of the products of the two vectors. */
  function DotProduct(left: seq<int>, right: seq<int>): int {
    if left == [] || right == [] then 0 else left[0] * right[0] + DotProduct(left[1..], right[1..])
  }

  ghost predicate CreateAllowed(o: Office, events: seq<Event>, e: Event)
    requires e.Create?
  {
    && e.network == o.network && Creation(events, e.jobId).None? && Integer(e.epoch)
    && Vector(e.left) && Vector(e.right) && |e.left| == |e.right|
    && (e.funding.Some? ==>
          var f := e.funding.value;
          && Name(f.buyer) && Amount(f.amount) && Integer(e.now) && Integer(f.expiresAt) && f.expiresAt > e.now
          && CreditedTo(events, f.buyer) + RefundedTo(events, f.buyer) + EarnedBy(events, f.buyer)
             >= FundedBy(events, f.buyer) + Units(f.amount))
  }

  ghost predicate LeaseAllowed(events: seq<Event>, e: Event)
    requires e.Leasing?
  {
    var funding, last := FundingOf(events, e.jobId), LastOf(LeasesOf(events, e.jobId));
    && Name(e.miner) && Name(e.leaseId) && Integer(e.deadline) && e.now < e.deadline && e.deadline - e.now <= 3600
    && (funding.Some? ==> e.deadline <= funding.value.expiresAt && e.now < funding.value.expiresAt && WorkKey(e.miner))
    && LeaseEnded(events, e.jobId, e.now)
    && (last.Some? ==> last.value.leaseId != e.leaseId)
  }

  /** By the worker of the running lease, before it and the reservation end, with the exact product of the
      created vectors, a commitment to the whole context, and a signature wherever a worker key or any
      signature is named. */
  ghost predicate CompleteAllowed(o: Office, events: seq<Event>, e: Event)
    requires e.Complete?
  {
    var created, last := Creation(events, e.jobId), LastOf(LeasesOf(events, e.jobId));
    && Name(e.miner) && Name(e.leaseId) && created.Some? && last.Some?
    && (created.value.funding.Some? ==> e.now < created.value.funding.value.expiresAt)
    && last.value.leaseId == e.leaseId && last.value.miner == e.miner
    && last.value.startedAt <= e.now < last.value.deadline
    && |e.output| <= 64 && e.output == Printed(DotProduct(created.value.left, created.value.right))
    && e.commitment == o.resultDigest(
         Context(o.network, created.value.epoch, e.jobId, o.inputDigest(created.value.left, created.value.right),
                 |created.value.left|, last.value, e.output, created.value.funding))
    && (WorkKeyName(e.miner) || e.publicKey.Some? || e.signature.Some? ==>
          && e.publicKey.Some? && e.signature.Some?
          && o.workerSigned(e.publicKey.value, e.signature.value, e.miner, e.commitment))
  }

  ghost predicate RefundAllowed(events: seq<Event>, e: Event)
    requires e.Refund?
  {
    var funding := FundingOf(events, e.jobId);
    funding.Some? && funding.value.buyer == e.buyer && LeaseEnded(events, e.jobId, e.now)
  }

  /** A job that was created and neither completed nor refunded. */
  predicate StillOpen(events: seq<Event>, id: Bytes) {
    Creation(events, id).Some? && Completion(events, id).None? && !WasRefunded(events, id)
  }

  ghost predicate Allowed(o: Office, events: seq<Event>, e: Event) {
    && Name(e.jobId)
    && (e.Credit? ==> Name(e.buyer) && Amount(e.amount) && !WasCredited(events, e.jobId))
    && (e.Create? ==> CreateAllowed(o, events, e))
    && (e.Refund? || e.Leasing? || e.Complete? ==> StillOpen(events, e.jobId) && Integer(e.now))
    && (e.Refund? ==> RefundAllowed(events, e))
    && (e.Leasing? ==> LeaseAllowed(events, e))
    && (e.Complete? ==> CompleteAllowed(o, events, e))
  }

  lemma {:induction false} DotFromBothEnds(left: seq<int>, right: seq<int>)
    requires |left| == |right|
    ensures DotProduct(left, right) == Dot(left, right)
  {
    if left != [] {
      DotProductLast(left, right);
      DotFromBothEnds(left[..|left| - 1], right[..|left| - 1]);
    }
  }

  lemma {:induction false} DotProductLast(left: seq<int>, right: seq<int>)
    requires |left| == |right| > 0
    ensures var n := |left| - 1;
            DotProduct(left, right) == DotProduct(left[..n], right[..n]) + left[n] * right[n]
  {
    var n := |left| - 1;
    if n > 0 {
      DotProductLast(left[1..], right[1..]);
      assert left[..n][1..] == left[1..][..n - 1] && right[..n][1..] == right[1..][..n - 1];
      assert left[1..][n - 1] == left[n] && right[1..][n - 1] == right[n];
    } else {
      assert left[1..] == [] && left[..0] == [];
    }
  }

  lemma WorkKeyMeans(b: Bytes)
    ensures WORK_KEY <= b <==> WorkKeyName(b)
    ensures IsWorkKey(b) <==> WorkKey(b)
  {
    if |b| >= 8 && WorkKeyName(b) {
      assert forall i | 0 <= i < 8 :: b[..8][i] == WORK_KEY[i];
      assert b[..8] == WORK_KEY;
    }
    if WORK_KEY <= b {
      assert forall i | 0 <= i < 8 :: b[i] == WORK_KEY[i];
    }
  }

  lemma FieldsMean(b: Bytes)
    ensures IsIdentifier(b) <==> Name(b)
    ensures IsAmount(b) <==> Amount(b)
  {
  }

  lemma CreateMeans(o: Office, events: seq<Event>, s: Books, e: Event)
    requires JobsAre(o, events, s) && AccountsAre(events, s) && e.Create?
    ensures CanCreate(o, s, e) <==> CreateAllowed(o, events, e)
  {
    hide Units, LeasesOf, WasRefunded, Completion, IsIdentifier, IsAmount, Name, Amount, CreditedTo, RefundedTo, EarnedBy,
         FundedBy, Untouched;
    assert e.jobId in s.jobs <==> Creation(events, e.jobId).Some?;
    if e.funding.Some? {
      FieldsMean(e.funding.value.buyer);
      FieldsMean(e.funding.value.amount);
      assert CreditedTo(events, e.funding.value.buyer) >= 0;
    }
  }

  lemma OnJobMeans(o: Office, events: seq<Event>, s: Books, e: Event)
    requires JobsAre(o, events, s) && OnJob(e) && e.jobId in s.jobs && StillOpen(events, e.jobId)
    requires VectorsOk(s.jobs[e.jobId].left, s.jobs[e.jobId].right)
    ensures e.Refund? ==> (CanRefund(s.jobs[e.jobId], e) <==> RefundAllowed(events, e))
    ensures e.Leasing? ==> (CanLease(s.jobs[e.jobId], e) <==> LeaseAllowed(events, e))
    ensures e.Complete? ==> (CanComplete(o, s.jobs[e.jobId], e) <==> CompleteAllowed(o, events, e))
  {
    hide VectorsOk, IsIdentifier, Name, IsWorkKey, WorkKey, WorkKeyName, Printed, Dot, DotProduct, LeasesOf, Creation, Completion,
         WasRefunded;
    var job := s.jobs[e.jobId];
    assert JobOf(o, events, e.jobId) == Some(job);
    if e.Leasing? {
      FieldsMean(e.miner);
      FieldsMean(e.leaseId);
      WorkKeyMeans(e.miner);
    } else if e.Complete? {
      FieldsMean(e.miner);
      FieldsMean(e.leaseId);
      WorkKeyMeans(e.miner);
      SameLengths(job.left, job.right);
      DotFromBothEnds(job.left, job.right);
    }
  }

  lemma SameLengths(left: seq<int>, right: seq<int>)
    requires VectorsOk(left, right)
    ensures |left| == |right|
  {
  }

  /** After any replay exactly the allowed events are accepted, where what is allowed is read off the events
      that came before. */
  lemma AcceptedExactly(o: Office, events: seq<Event>, e: Event)
    requires Replay(o, events).Some?
    ensures Replay(o, events + [e]).Some? <==> Allowed(o, events, e)
  {
    hide JobsAre, AccountsAre, CreditsAre, CreateAllowed, RefundAllowed, LeaseAllowed, CompleteAllowed, WasCredited, WasRefunded,
         CanCreate, CanRefund, CanLease, CanComplete, IsIdentifier, IsAmount, Name, Amount, JobOk, Completed, Settled, Created,
         Paying;
    var s := Replay(o, events).value;
    assert (events + [e])[..|events|] == events;
    BooksFromEvents(o, events);
    FieldsMean(e.jobId);
    if e.Credit? {
      FieldsMean(e.buyer);
      FieldsMean(e.amount);
      CreditKnown(events, s, e.jobId);
    } else if e.Create? {
      CreateMeans(o, events, s, e);
    } else {
      JobKnown(o, events, s, e.jobId);
      if e.jobId in s.jobs && StillOpen(events, e.jobId) {
        VectorsKnown(o, events, e.jobId);
        OnJobMeans(o, events, s, e);
      }
    }
  }

  lemma CreditKnown(events: seq<Event>, s: Books, id: Bytes)
    requires CreditsAre(events, s)
    ensures id in s.credits <==> WasCredited(events, id)
  {
    hide WasCredited;
  }

  lemma JobKnown(o: Office, events: seq<Event>, s: Books, id: Bytes)
    requires JobsAre(o, events, s)
    ensures id in s.jobs <==> Creation(events, id).Some?
    ensures id in s.jobs ==>
              (StillOpen(events, id) <==> s.jobs[id].result.None? && !IsRefunded(s.jobs[id]))
  {
    hide WasRefunded;
    assert id in s.jobs ==> JobOf(o, events, id) == Some(s.jobs[id]);
  }

  lemma VectorsKnown(o: Office, events: seq<Event>, id: Bytes)
    requires Replay(o, events).Some? && id in Replay(o, events).value.jobs
    ensures VectorsOk(Replay(o, events).value.jobs[id].left, Replay(o, events).value.jobs[id].right)
  {
    CreditsConserved(o, events);
  }

  // ---------- Which journals are read ----------

  /** A journal reads back exactly when it has at most 10,000 entries, the first names the network's own digest,
      every later one the checksum before it, each checksum links that to the entry's event, and each event is
      allowed after those before it. */
  lemma ReadableExactly(o: Office, entries: seq<Entry>)
    ensures Readable(o, entries) <==>
              && |entries| <= 10_000
              && (forall i | 0 <= i < |entries| ::
                    && entries[i].previous == (if i == 0 then o.genesis else entries[i - 1].checksum)
                    && entries[i].checksum == o.link(entries[i].previous, entries[i].event))
              && forall i | 0 <= i < |entries| :: Allowed(o, EventsOf(entries)[..i], entries[i].event)
  {
    hide Replay, Allowed;
    assert |EventsOf(entries)| == |entries|;
    forall i | 0 <= i < |entries|
      ensures Tip(o, entries[..i]) == if i == 0 then o.genesis else entries[i - 1].checksum
    {
    }
    AllAllowed(o, EventsOf(entries));
    assert forall i | 0 <= i < |entries| :: EventsOf(entries)[i] == entries[i].event;
  }

  lemma {:induction false} AllAllowed(o: Office, events: seq<Event>)
    ensures Replay(o, events).Some? <==> forall i | 0 <= i < |events| :: Allowed(o, events[..i], events[i])
  {
    hide Allowed, Transition;
    if events != [] {
      var n := |events| - 1;
      AllAllowed(o, events[..n]);
      assert events == events[..n] + [events[n]];
      if Replay(o, events[..n]).Some? {
        AcceptedExactly(o, events[..n], events[n]);
      }
      assert forall i | 0 <= i < n :: events[..n][..i] == events[..i] && events[..n][i] == events[i];
    }
  }
}

/** The assigned-work journal: an escrow of credits, leases and exact results, rebuilt by replay. */
module AssignedWork {
  import opened Canonical
  import opened Collections

  const MAX_TERMS: nat := 4096
  const MAX_EVENTS: nat := 10000
  const MAX_LEASE: nat := 3600
  const WORK_KEY: Bytes := [119, 111, 114, 107, 107, 101, 121, 58]

  datatype Lease = Lease(leaseId: Bytes, miner: Bytes, startedAt: int, deadline: int)
  datatype Outcome = Outcome(output: Bytes, commitment: Bytes)
  datatype Status = Reserved | Paid | Refunded
  datatype Funding = Funding(buyer: Bytes, amount: Bytes, expiresAt: int)
  datatype Reservation = Reservation(funding: Funding, status: Status)

  datatype Job = Job(
    jobId: Bytes, network: Bytes, epoch: int, inputCommitment: Bytes, left: seq<int>, right: seq<int>,
    lease: Option<Lease>, result: Option<Outcome>, reservation: Option<Reservation>)

  datatype Event =
    | Credit(jobId: Bytes, buyer: Bytes, amount: Bytes)
    | Create(jobId: Bytes, network: Bytes, epoch: int, left: seq<int>, right: seq<int>, funding: Option<Funding>, now: int)
    | Refund(jobId: Bytes, buyer: Bytes, now: int)
    | Leasing(jobId: Bytes, leaseId: Bytes, miner: Bytes, deadline: int, now: int)
    | Complete(jobId: Bytes, leaseId: Bytes, miner: Bytes, output: Bytes, commitment: Bytes, now: int,
               publicKey: Option<Bytes>, signature: Option<Bytes>)

  /** Everything a result commitment covers besides the fixed program digest. */
  datatype Context = Context(
    network: Bytes, epoch: int, jobId: Bytes, inputCommitment: Bytes, resourceUnits: nat, lease: Lease,
    output: Bytes, funding: Option<Funding>)

  /** The journal's network and hashes, and the check of a worker's key and signature. */
  datatype Office = Office(
    network: Bytes,
    inputDigest: (seq<int>, seq<int>) -> Bytes,
    resultDigest: Context -> Bytes,
    workerSigned: (Bytes, Bytes, Bytes, Bytes) -> bool,
    genesis: Bytes,
    link: (Bytes, Event) -> Bytes)

  datatype Books = Books(jobs: map<Bytes, Job>, balances: map<Bytes, nat>, credits: set<Bytes>)

  // ---------- Field checks ----------

  predicate IsIdentifier(b: Bytes) {
    1 <= |b| <= 128 && forall i | 0 <= i < |b| ::
      48 <= b[i] <= 58 || 65 <= b[i] <= 90 || 97 <= b[i] <= 122 || b[i] in {45, 46, 95}
  }

  predicate IsInteger(n: int) {
    0 <= n <= MAX_SAFE_INTEGER
  }

  predicate IsInt32(n: int) {
    -0x8000_0000 <= n <= 0x7fff_ffff
  }

  predicate VectorsOk(left: seq<int>, right: seq<int>) {
    1 <= |left| <= MAX_TERMS && |left| == |right|
    && (forall i | 0 <= i < |left| :: IsInt32(left[i])) && forall i | 0 <= i < |right| :: IsInt32(right[i])
  }

  predicate IsAmount(b: Bytes) {
    1 <= |b| <= 30 && b[0] != 48 && forall i | 0 <= i < |b| :: 48 <= b[i] <= 57
  }

  function Digits(b: Bytes): nat
    requires forall i | 0 <= i < |b| :: 48 <= b[i] <= 57
  {
    if b == [] then 0 else Digits(b[..|b| - 1]) * 10 + (b[|b| - 1] - 48) as int
  }

  function Units(amount: Bytes): nat {
    if IsAmount(amount) then Digits(amount) else 0
  }

  predicate IsWorkKey(b: Bytes) {
    |b| == 72 && WORK_KEY <= b && forall i | 8 <= i < 72 :: 48 <= b[i] <= 57 || 97 <= b[i] <= 102
  }

  // ---------- The computation ----------

  function Dot(left: seq<int>, right: seq<int>): int
    requires |left| == |right|
  {
    if left == [] then 0 else Dot(left[..|left| - 1], right[..|left| - 1]) + left[|left| - 1] * right[|left| - 1]
  }

  function Decimal(n: nat): (b: Bytes)
    ensures b != [] && forall i | 0 <= i < |b| :: 48 <= b[i] <= 57
  {
    if n < 10 then [(48 + n) as byte] else Decimal(n / 10) + [(48 + n % 10) as byte]
  }

  function Printed(n: int): Bytes {
    if n < 0 then [45] + Decimal(-n) else Decimal(n)
  }

  method ExecuteVectorDot(left: seq<int>, right: seq<int>) returns (r: Option<Bytes>)
    ensures r == if VectorsOk(left, right) then Some(Printed(Dot(left, right))) else None
  {
    if !VectorsOk(left, right) {
      return None;
    }
    var sum := 0;
    var i := 0;
    while i < |left|
      invariant i <= |left| && sum == Dot(left[..i], right[..i])
    {
      assert left[..i + 1][..i] == left[..i] && right[..i + 1][..i] == right[..i];
      sum := sum + left[i] * right[i];
      i := i + 1;
    }
    assert left[..i] == left && right[..i] == right;
    r := Some(Printed(sum));
  }

  lemma {:induction false} DigitsOfDecimal(n: nat)
    ensures Digits(Decimal(n)) == n
  {
    if n >= 10 {
      DigitsOfDecimal(n / 10);
      var d := Decimal(n);
      assert d[..|d| - 1] == Decimal(n / 10);
    }
  }

  /** The printed output identifies the number. */
  lemma PrintedIsExact(m: int, n: int)
    requires Printed(m) == Printed(n)
    ensures m == n
  {
    DigitsOfDecimal(if m < 0 then -m else m);
    DigitsOfDecimal(if n < 0 then -n else n);
    SignShows(m);
    SignShows(n);
    if m < 0 {
      assert Decimal(-m) == Printed(m)[1..] == Printed(n)[1..] == Decimal(-n);
    }
  }

  lemma SignShows(n: int)
    ensures Printed(n) != [] && (Printed(n)[0] == 45 <==> n < 0)
  {
    if n >= 0 {
      assert Decimal(n)[0] >= 48;
    }
  }

  // ---------- Transitions ----------

  function Balance(s: Books, account: Bytes): nat {
    if account in s.balances then s.balances[account] else 0
  }

  function Paying(s: Books, account: Bytes, units: nat): Books {
    s.(balances := s.balances[account := Balance(s, account) + units])
  }

  function ContextOf(job: Job, lease: Lease, output: Bytes): Context {
    Context(job.network, job.epoch, job.jobId, job.inputCommitment, |job.left|, lease, output,
            if job.reservation.Some? then Some(job.reservation.value.funding) else None)
  }

  predicate FundingOk(s: Books, f: Funding, now: int) {
    && IsIdentifier(f.buyer) && IsAmount(f.amount) && IsInteger(now) && IsInteger(f.expiresAt)
    && f.expiresAt > now && Balance(s, f.buyer) >= Units(f.amount)
  }

  predicate CanCreate(o: Office, s: Books, e: Event)
    requires e.Create?
  {
    && e.network == o.network && e.jobId !in s.jobs && IsInteger(e.epoch) && VectorsOk(e.left, e.right)
    && (e.funding.Some? ==> FundingOk(s, e.funding.value, e.now))
  }

  function Created(o: Office, s: Books, e: Event): Books
    requires e.Create? && CanCreate(o, s, e)
  {
    var reservation := if e.funding.Some? then Some(Reservation(e.funding.value, Reserved)) else None;
    var job := Job(e.jobId, o.network, e.epoch, o.inputDigest(e.left, e.right), e.left, e.right, None, None, reservation);
    var debited := if e.funding.Some?
      then s.balances[e.funding.value.buyer := Balance(s, e.funding.value.buyer) - Units(e.funding.value.amount)]
      else s.balances;
    s.(jobs := s.jobs[e.jobId := job], balances := debited)
  }

  predicate IsRefunded(job: Job) {
    job.reservation.Some? && job.reservation.value.status == Refunded
  }

  predicate LeaseOver(job: Job, now: int) {
    job.lease.Some? ==> now >= job.lease.value.deadline
  }

  predicate CanRefund(job: Job, e: Event)
    requires e.Refund?
  {
    job.reservation.Some? && e.buyer == job.reservation.value.funding.buyer && LeaseOver(job, e.now)
  }

  predicate CanLease(job: Job, e: Event)
    requires e.Leasing?
  {
    && IsIdentifier(e.miner) && IsIdentifier(e.leaseId) && IsInteger(e.deadline)
    && e.now < e.deadline <= e.now + MAX_LEASE
    && (job.reservation.Some? ==>
          e.now < job.reservation.value.funding.expiresAt && e.deadline <= job.reservation.value.funding.expiresAt
          && IsWorkKey(e.miner))
    && LeaseOver(job, e.now)
    && (job.lease.Some? ==> job.lease.value.leaseId != e.leaseId)
  }

  predicate SignatureOk(o: Office, e: Event)
    requires e.Complete?
  {
    WORK_KEY <= e.miner || e.publicKey.Some? || e.signature.Some? ==>
      e.publicKey.Some? && e.signature.Some?
      && o.workerSigned(e.publicKey.value, e.signature.value, e.miner, e.commitment)
  }

  predicate CanComplete(o: Office, job: Job, e: Event)
    requires e.Complete?
  {
    && IsIdentifier(e.miner) && IsIdentifier(e.leaseId)
    && (job.reservation.Some? ==> e.now < job.reservation.value.funding.expiresAt)
    && job.lease.Some?
    && var lease := job.lease.value;
       && lease.leaseId == e.leaseId && lease.miner == e.miner && lease.startedAt <= e.now < lease.deadline
       && |e.output| <= 64 && VectorsOk(job.left, job.right) && e.output == Printed(Dot(job.left, job.right))
       && e.commitment == o.resultDigest(ContextOf(job, lease, e.output))
       && SignatureOk(o, e)
  }

  function Settled(s: Books, job: Job, account: Bytes, status: Status): Books
    requires job.reservation.Some?
  {
    var r := job.reservation.value;
    Paying(s.(jobs := s.jobs[job.jobId := job.(reservation := Some(r.(status := status)))]), account, Units(r.funding.amount))
  }

  function Completed(s: Books, job: Job, e: Event): Books
    requires e.Complete?
  {
    var done := job.(result := Some(Outcome(e.output, e.commitment)));
    if job.reservation.Some? then Settled(s, done, e.miner, Paid) else s.(jobs := s.jobs[job.jobId := done])
  }

  predicate OnJob(e: Event) {
    e.Refund? || e.Leasing? || e.Complete?
  }

  /** Refunds, leases and completions of a known, open job. */
  function JobTransition(o: Office, s: Books, job: Job, e: Event): Option<Books>
    requires OnJob(e)
  {
    if e.Refund? then
      if CanRefund(job, e) then Some(Settled(s, job, e.buyer, Refunded)) else None
    else if e.Leasing? then
      if CanLease(job, e)
      then Some(s.(jobs := s.jobs[job.jobId := job.(lease := Some(Lease(e.leaseId, e.miner, e.now, e.deadline)))]))
      else None
    else if CanComplete(o, job, e) then Some(Completed(s, job, e)) else None
  }

  /** None stands for a thrown error; nothing is written then. */
  function Transition(o: Office, s: Books, e: Event): Option<Books> {
    if !IsIdentifier(e.jobId) then None
    else if e.Credit? then
      if !IsIdentifier(e.buyer) || !IsAmount(e.amount) || e.jobId in s.credits then None
      else Some(Paying(s, e.buyer, Units(e.amount)).(credits := s.credits + {e.jobId}))
    else if e.Create? then
      if CanCreate(o, s, e) then Some(Created(o, s, e)) else None
    else if e.jobId !in s.jobs || s.jobs[e.jobId].result.Some? || !IsInteger(e.now) || IsRefunded(s.jobs[e.jobId]) then None
    else JobTransition(o, s, s.jobs[e.jobId], e)
  }

  const EMPTY_BOOKS: Books := Books(map[], map[], {})

  function Replay(o: Office, events: seq<Event>): Option<Books> {
    if events == [] then Some(EMPTY_BOOKS)
    else
      var before := Replay(o, events[..|events| - 1]);
      if before.None? then None else Transition(o, before.value, events[|events| - 1])
  }

  // ---------- What every replay keeps ----------

  function Held(job: Job): nat {
    if job.reservation.Some? && job.reservation.value.status == Reserved
    then Units(job.reservation.value.funding.amount) else 0
  }

  function HeldMap(jobs: map<Bytes, Job>): map<Bytes, nat> {
    map id | id in jobs :: Held(jobs[id])
  }

  function CreditOf(e: Event): nat {
    if e.Credit? then Units(e.amount) else 0
  }

  function TotalCredited(events: seq<Event>): nat {
    if events == [] then 0 else TotalCredited(events[..|events| - 1]) + CreditOf(events[|events| - 1])
  }

  /** A job's own record: filed under its id, its result exact and bound to its lease, and paid
      exactly when it is complete. */
  ghost predicate JobOk(o: Office, id: Bytes, job: Job) {
    && job.jobId == id && VectorsOk(job.left, job.right)
    && (job.reservation.Some? ==> IsAmount(job.reservation.value.funding.amount))
    && (job.reservation.Some? ==> (job.result.Some? <==> job.reservation.value.status == Paid))
    && (job.result.Some? ==>
          && job.lease.Some?
          && job.result.value.output == Printed(Dot(job.left, job.right))
          && job.result.value.commitment == o.resultDigest(ContextOf(job, job.lease.value, job.result.value.output)))
  }

  ghost predicate BooksOk(o: Office, s: Books, credited: nat) {
    && (forall id | id in s.jobs :: JobOk(o, id, s.jobs[id]))
    && SumOf(s.balances) + SumOf(HeldMap(s.jobs)) == credited
  }

  lemma HeldMapPut(jobs: map<Bytes, Job>, id: Bytes, job: Job)
    ensures SumOf(HeldMap(jobs[id := job])) + (if id in jobs then Held(jobs[id]) else 0) == SumOf(HeldMap(jobs)) + Held(job)
  {
    assert HeldMap(jobs[id := job]) == HeldMap(jobs)[id := Held(job)];
    SumOfPut(HeldMap(jobs), id, Held(job));
  }

  lemma PayingAdds(s: Books, account: Bytes, units: nat)
    ensures SumOf(Paying(s, account, units).balances) == SumOf(s.balances) + units
  {
    SumOfPut(s.balances, account, Balance(s, account) + units);
  }

  lemma CreateKeeps(o: Office, s: Books, e: Event, credited: nat)
    requires BooksOk(o, s, credited) && e.Create? && CanCreate(o, s, e)
    ensures BooksOk(o, Created(o, s, e), credited)
  {
    var t := Created(o, s, e);
    HeldMapPut(s.jobs, e.jobId, t.jobs[e.jobId]);
    if e.funding.Some? {
      var f := e.funding.value;
      SumOfPut(s.balances, f.buyer, Balance(s, f.buyer) - Units(f.amount));
    }
  }

  lemma SettleKeeps(o: Office, s: Books, job: Job, account: Bytes, status: Status, credited: nat)
    requires BooksOk(o, s, credited) && job.jobId in s.jobs && job.reservation.Some? && status != Reserved
    requires Held(s.jobs[job.jobId]) == Units(job.reservation.value.funding.amount)
    requires JobOk(o, job.jobId, job.(reservation := Some(job.reservation.value.(status := status))))
    ensures BooksOk(o, Settled(s, job, account, status), credited)
  {
    var r := job.reservation.value;
    var done := job.(reservation := Some(r.(status := status)));
    HeldMapPut(s.jobs, job.jobId, done);
    PayingAdds(s.(jobs := s.jobs[job.jobId := done]), account, Units(r.funding.amount));
  }

  lemma ChangeKeeps(o: Office, s: Books, job: Job, credited: nat)
    requires BooksOk(o, s, credited) && job.jobId in s.jobs
    requires Held(s.jobs[job.jobId]) == Held(job) && JobOk(o, job.jobId, job)
    ensures BooksOk(o, s.(jobs := s.jobs[job.jobId := job]), credited)
  {
    HeldMapPut(s.jobs, job.jobId, job);
  }

  lemma TransitionKeeps(o: Office, s: Books, e: Event, credited: nat)
    requires BooksOk(o, s, credited) && Transition(o, s, e).Some?
    ensures BooksOk(o, Transition(o, s, e).value, credited + CreditOf(e))
  {
    hide VectorsOk, IsIdentifier, IsWorkKey, IsAmount, SignatureOk;
    match e
    case Credit(id, buyer, amount) => PayingAdds(s, buyer, Units(amount));
    case Create(_, _, _, _, _, _, _) => CreateKeeps(o, s, e, credited);
    case Refund(id, buyer, _) => SettleKeeps(o, s, s.jobs[id], buyer, Refunded, credited);
    case Leasing(id, leaseId, miner, deadline, now) =>
      ChangeKeeps(o, s, s.jobs[id].(lease := Some(Lease(leaseId, miner, now, deadline))), credited);
    case Complete(id, _, miner, output, commitment, _, _, _) =>
      var done := s.jobs[id].(result := Some(Outcome(output, commitment)));
      if done.reservation.Some? {
        SettleKeeps(o, s, done, miner, Paid, credited);
      } else {
        ChangeKeeps(o, s, done, credited);
      }
  }

  /** After every replay: the balances and what is still reserved add up to everything credited, and
      a result is present only if it is the exact dot product under the job's lease. */
  lemma {:induction false} CreditsConserved(o: Office, events: seq<Event>)
    requires Replay(o, events).Some?
    ensures var s := Replay(o, events).value;
            && SumOf(s.balances) + SumOf(HeldMap(s.jobs)) == TotalCredited(events)
            && forall id | id in s.jobs :: JobOk(o, id, s.jobs[id])
  {
    if events == [] {
      assert HeldMap(map[]) == map[];
    } else {
      var n := |events| - 1;
      CreditsConserved(o, events[..n]);
      TransitionKeeps(o, Replay(o, events[..n]).value, events[n], TotalCredited(events[..n]));
    }
  }

  // ---------- Leaving the reservation ----------

  predicate IsFinal(job: Job) {
    job.result.Some? || IsRefunded(job)
  }

  lemma FinalStays(o: Office, s: Books, e: Event, id: Bytes)
    requires Transition(o, s, e).Some? && id in s.jobs && (forall x | x in s.jobs :: s.jobs[x].jobId == x)
    ensures id in Transition(o, s, e).value.jobs
    ensures IsFinal(s.jobs[id]) ==> Transition(o, s, e).value.jobs[id] == s.jobs[id]
    ensures s.jobs[id].reservation.None? <==> Transition(o, s, e).value.jobs[id].reservation.None?
  {
    hide VectorsOk, IsIdentifier, IsWorkKey, IsAmount, SignatureOk, Printed;
  }

  /** A job that was paid or refunded stays exactly as it is: a reservation is left at most once. */
  lemma {:induction false} ReservationLeftOnce(o: Office, events: seq<Event>, k: nat, id: Bytes)
    requires k <= |events| && Replay(o, events).Some?
    ensures Replay(o, events[..k]).Some?
    ensures id in Replay(o, events[..k]).value.jobs && IsFinal(Replay(o, events[..k]).value.jobs[id]) ==>
              id in Replay(o, events).value.jobs
              && Replay(o, events).value.jobs[id] == Replay(o, events[..k]).value.jobs[id]
  {
    var n := |events| - 1;
    if k < |events| {
      ReservationLeftOnce(o, events[..n], k, id);
      assert events[..n][..k] == events[..k];
      CreditsConserved(o, events[..n]);
      var s := Replay(o, events[..n]).value;
      if id in s.jobs {
        FinalStays(o, s, events[n], id);
      }
    } else {
      assert events[..k] == events;
    }
  }

  // ---------- Lease windows ----------

  /** The leases granted on one job, in order. */
  function LeasesOf(events: seq<Event>, id: Bytes): seq<Lease> {
    if events == [] then []
    else
      var e := events[|events| - 1];
      var rest := LeasesOf(events[..|events| - 1], id);
      if e.Leasing? && e.jobId == id then rest + [Lease(e.leaseId, e.miner, e.now, e.deadline)] else rest
  }

  ghost predicate Disjoint(leases: seq<Lease>) {
    && (forall i | 0 <= i < |leases| :: leases[i].startedAt < leases[i].deadline)
    && (forall i, j | 0 <= i < j < |leases| :: leases[i].deadline <= leases[j].startedAt)
  }

  /** The job's current lease is the last one granted. */
  ghost predicate LastLease(s: Books, id: Bytes, leases: seq<Lease>) {
    && (id !in s.jobs ==> leases == [])
    && (id in s.jobs ==> s.jobs[id].lease == if leases == [] then None else Some(leases[|leases| - 1]))
  }

  lemma LeaseStep(o: Office, s: Books, e: Event, id: Bytes, leases: seq<Lease>)
    requires Transition(o, s, e).Some? && (forall x | x in s.jobs :: s.jobs[x].jobId == x)
    requires LastLease(s, id, leases) && Disjoint(leases)
    ensures var more := if e.Leasing? && e.jobId == id then leases + [Lease(e.leaseId, e.miner, e.now, e.deadline)] else leases;
            LastLease(Transition(o, s, e).value, id, more) && Disjoint(more)
  {
    hide VectorsOk, IsIdentifier, IsWorkKey, IsAmount, SignatureOk, Printed;
  }

  /** Whatever the clock did, the lease windows of a job never overlap and only move forward. */
  lemma {:induction false} LeaseWindowsDisjoint(o: Office, events: seq<Event>, id: Bytes)
    requires Replay(o, events).Some?
    ensures Disjoint(LeasesOf(events, id)) && LastLease(Replay(o, events).value, id, LeasesOf(events, id))
  {
    if events != [] {
      var n := |events| - 1;
      LeaseWindowsDisjoint(o, events[..n], id);
      CreditsConserved(o, events[..n]);
      LeaseStep(o, Replay(o, events[..n]).value, events[n], id, LeasesOf(events[..n], id));
    }
  }

  // ---------- The journal ----------

  datatype Entry = Entry(previous: Bytes, event: Event, checksum: Bytes)

  /** The books while they are being rebuilt. */
  class Ledger {
    const o: Office
    var jobs: map<Bytes, Job>
    var balances: map<Bytes, nat>
    var credits: set<Bytes>

    function Value(): Books
      reads this
    {
      Books(jobs, balances, credits)
    }

    constructor (o: Office)
      ensures this.o == o && Value() == EMPTY_BOOKS
    {
      this.o := o;
      jobs, balances, credits := map[], map[], {};
    }

    method Pay(account: Bytes, units: nat)
      modifies this`balances
      ensures Value() == Paying(old(Value()), account, units)
    {
      balances := balances[account := (if account in balances then balances[account] else 0) + units];
    }

    method Apply(e: Event) returns (ok: bool)
      requires forall id | id in jobs :: jobs[id].jobId == id
      modifies this
      ensures ok <==> Transition(o, old(Value()), e).Some?
      ensures Value() == if ok then Transition(o, old(Value()), e).value else old(Value())
    {
      hide VectorsOk, IsIdentifier, IsWorkKey, IsAmount, SignatureOk, Printed;
      if !IsIdentifier(e.jobId) {
        return false;
      }
      if e.Credit? {
        if !IsIdentifier(e.buyer) || !IsAmount(e.amount) || e.jobId in credits {
          return false;
        }
        credits := credits + {e.jobId};
        Pay(e.buyer, Units(e.amount));
        return true;
      }
      if e.Create? {
        ok := CreateJob(e);
        return;
      }
      if e.jobId !in jobs || jobs[e.jobId].result.Some? || !IsInteger(e.now) || IsRefunded(jobs[e.jobId]) {
        return false;
      }
      ok := ApplyToJob(jobs[e.jobId], e);
    }

    method CreateJob(e: Event) returns (ok: bool)
      requires e.Create?
      modifies this`jobs, this`balances
      ensures ok <==> CanCreate(o, old(Value()), e)
      ensures Value() == if ok then Created(o, old(Value()), e) else old(Value())
    {
      if !CanCreate(o, Value(), e) {
        return false;
      }
      var reservation := None;
      if e.funding.Some? {
        var f := e.funding.value;
        balances := balances[f.buyer := Balance(Value(), f.buyer) - Units(f.amount)];
        reservation := Some(Reservation(f, Reserved));
      }
      jobs := jobs[e.jobId := Job(e.jobId, o.network, e.epoch, o.inputDigest(e.left, e.right), e.left, e.right,
                                  None, None, reservation)];
      ok := true;
    }

    method ApplyToJob(job: Job, e: Event) returns (ok: bool)
      requires OnJob(e)
      modifies this`jobs, this`balances
      ensures ok <==> JobTransition(o, old(Value()), job, e).Some?
      ensures Value() == if ok then JobTransition(o, old(Value()), job, e).value else old(Value())
    {
      hide VectorsOk, IsIdentifier, IsWorkKey, IsAmount, SignatureOk, Printed;
      if e.Refund? {
        if !CanRefund(job, e) {
          return false;
        }
        var r := job.reservation.value;
        jobs := jobs[job.jobId := job.(reservation := Some(r.(status := Refunded)))];
        Pay(e.buyer, Units(r.funding.amount));
      } else if e.Leasing? {
        if !CanLease(job, e) {
          return false;
        }
        jobs := jobs[job.jobId := job.(lease := Some(Lease(e.leaseId, e.miner, e.now, e.deadline)))];
      } else {
        if !CanComplete(o, job, e) {
          return false;
        }
        var done := job.(result := Some(Outcome(e.output, e.commitment)));
        if job.reservation.Some? {
          var r := job.reservation.value;
          jobs := jobs[job.jobId := done.(reservation := Some(r.(status := Paid)))];
          Pay(e.miner, Units(r.funding.amount));
        } else {
          jobs := jobs[job.jobId := done];
        }
      }
      ok := true;
    }
  }

  function EventsOf(entries: seq<Entry>): (r: seq<Event>)
    ensures |r| == |entries|
  {
    seq(|entries|, i requires 0 <= i < |entries| => entries[i].event)
  }

  /** The digest the next entry must name. */
  function Tip(o: Office, entries: seq<Entry>): Bytes {
    if entries == [] then o.genesis else entries[|entries| - 1].checksum
  }

  ghost predicate Linked(o: Office, entries: seq<Entry>) {
    forall i {:trigger entries[i]} | 0 <= i < |entries| ::
      entries[i].previous == Tip(o, entries[..i]) && entries[i].checksum == o.link(entries[i].previous, entries[i].event)
  }

  /** A journal that reads back: within capacity, linked, and every event allowed in turn. */
  ghost predicate Readable(o: Office, entries: seq<Entry>) {
    |entries| <= MAX_EVENTS && Linked(o, entries) && Replay(o, EventsOf(entries)).Some?
  }

  class AssignedWorkJournal {
    const o: Office
    var entries: seq<Entry>

    constructor (o: Office)
      ensures this.o == o && entries == []
    {
      this.o := o;
      entries := [];
    }

    method Read() returns (ok: bool, ledger: Ledger, previous: Bytes)
      ensures fresh(ledger) && ledger.o == o
      ensures ok <==> Readable(o, entries)
      ensures ok ==> Some(ledger.Value()) == Replay(o, EventsOf(entries)) && previous == Tip(o, entries)
    {
      hide Replay, Transition, Linked, Tip, EventsOf, JobOk;
      ledger := new Ledger(o);
      previous := o.genesis;
      NothingRead(o, entries);
      if |entries| > MAX_EVENTS {
        return false, ledger, previous;
      }
      var i := 0;
      while i < |entries|
        invariant i <= |entries| && fresh(ledger) && ledger.o == o
        invariant previous == Tip(o, entries[..i]) && Linked(o, entries[..i])
        invariant Replay(o, EventsOf(entries)[..i]) == Some(ledger.Value())
      {
        var entry := entries[i];
        ReadStep(o, entries, i);
        EventAt(entries, i);
        ReplayStep(o, EventsOf(entries), i);
        if entry.previous != previous || entry.checksum != o.link(previous, entry.event) {
          return false, ledger, previous;
        }
        JobsKeyed(o, EventsOf(entries)[..i]);
        var applied := ledger.Apply(entry.event);
        if !applied {
          return false, ledger, previous;
        }
        previous := entry.checksum;
        i := i + 1;
      }
      assert entries[..i] == entries && EventsOf(entries)[..i] == EventsOf(entries);
      ok := true;
    }

    /** Prepares the next entry; its position is where it will be written. */
    method Prepare(e: Event) returns (r: Option<(nat, Entry)>)
      ensures r.Some? <==> Readable(o, entries) && |entries| < MAX_EVENTS && Replay(o, EventsOf(entries) + [e]).Some?
      ensures r.Some? ==> r.value == (|entries|, Entry(Tip(o, entries), e, o.link(Tip(o, entries), e)))
    {
      var ok, ledger, previous := Read();
      if !ok || |entries| >= MAX_EVENTS {
        return None;
      }
      CreditsConserved(o, EventsOf(entries));
      assert (EventsOf(entries) + [e])[..|entries|] == EventsOf(entries);
      var applied := ledger.Apply(e);
      if !applied {
        return None;
      }
      r := Some((|entries|, Entry(previous, e, o.link(previous, e))));
    }

    /** Creating a file that exists already fails: a writer with a stale revision changes nothing. */
    method Write(position: nat, entry: Entry) returns (written: bool)
      requires position <= |entries|
      modifies this`entries
      ensures written <==> position == old(|entries|)
      ensures entries == if written then old(entries) + [entry] else old(entries)
    {
      written := position == |entries|;
      if written {
        entries := entries + [entry];
      }
    }

    /** Without a competing writer: appends exactly the events the books allow, and the journal then
        reads back as the transitioned books. */
    method Append(e: Event) returns (ok: bool)
      modifies this`entries
      ensures ok <==> old(Readable(o, entries)) && old(|entries|) < MAX_EVENTS
                      && Replay(o, EventsOf(old(entries)) + [e]).Some?
      ensures !ok ==> entries == old(entries)
      ensures ok ==> Readable(o, entries) && EventsOf(entries) == EventsOf(old(entries)) + [e]
    {
      var prepared := Prepare(e);
      if prepared.None? {
        return false;
      }
      ghost var before := entries;
      ok := Write(prepared.value.0, prepared.value.1);
      AppendLinks(o, before, prepared.value.1);
      assert EventsOf(entries) == EventsOf(before) + [e];
    }
  }

  lemma AppendLinks(o: Office, entries: seq<Entry>, entry: Entry)
    requires Linked(o, entries) && entry.previous == Tip(o, entries) && entry.checksum == o.link(entry.previous, entry.event)
    ensures Linked(o, entries + [entry])
  {
    var more := entries + [entry];
    forall i | 0 <= i < |more|
      ensures more[i].previous == Tip(o, more[..i]) && more[i].checksum == o.link(more[i].previous, more[i].event)
    {
      assert i < |entries| ==> more[..i] == entries[..i] && more[i] == entries[i];
      assert i == |entries| ==> more[..i] == entries;
    }
  }

  /** One more entry: what linking and replaying it mean. */
  lemma NothingRead(o: Office, entries: seq<Entry>)
    ensures Tip(o, entries[..0]) == o.genesis && Linked(o, entries[..0])
    ensures |EventsOf(entries)| == |entries| && Replay(o, EventsOf(entries)[..0]) == Some(EMPTY_BOOKS)
  {
  }

  lemma EventAt(entries: seq<Entry>, i: nat)
    requires i < |entries|
    ensures |EventsOf(entries)| == |entries| && EventsOf(entries)[i] == entries[i].event
  {
  }

  lemma JobsKeyed(o: Office, events: seq<Event>)
    requires Replay(o, events).Some?
    ensures forall id | id in Replay(o, events).value.jobs :: Replay(o, events).value.jobs[id].jobId == id
  {
    CreditsConserved(o, events);
  }

  lemma ReplayStep(o: Office, events: seq<Event>, i: nat)
    requires i < |events| && Replay(o, events[..i]).Some?
    ensures Replay(o, events[..i + 1]) == Transition(o, Replay(o, events[..i]).value, events[i])
  {
    hide Transition;
    assert events[..i + 1][..i] == events[..i];
  }

  lemma ReadStep(o: Office, entries: seq<Entry>, i: nat)
    requires i < |entries| && Linked(o, entries[..i]) && Replay(o, EventsOf(entries)[..i]).Some?
    ensures Tip(o, entries[..i + 1]) == entries[i].checksum
    ensures entries[i].previous == Tip(o, entries[..i]) && entries[i].checksum == o.link(entries[i].previous, entries[i].event)
            <==> Linked(o, entries[..i + 1])
    ensures Linked(o, entries) ==> Linked(o, entries[..i + 1])
    ensures Replay(o, EventsOf(entries)).Some? ==> Replay(o, EventsOf(entries)[..i + 1]).Some?
  {
    hide Replay;
    var before, after := entries[..i], entries[..i + 1];
    assert after == before + [entries[i]] && after[..i] == before;
    if entries[i].previous == Tip(o, before) && entries[i].checksum == o.link(entries[i].previous, entries[i].event) {
      AppendLinks(o, before, entries[i]);
    }
    if Linked(o, after) {
      assert after[i] == entries[i];
    }
    if Linked(o, entries) {
      forall k | 0 <= k < |after|
        ensures after[k].previous == Tip(o, after[..k]) && after[k].checksum == o.link(after[k].previous, after[k].event)
      {
        assert after[..k] == entries[..k] && after[k] == entries[k];
      }
    }
    if Replay(o, EventsOf(entries)).Some? {
      ReservationLeftOnce(o, EventsOf(entries), i + 1, []);
    }
  }

  // ---------- Tamper evidence ----------

  ghost predicate LinksCommit(o: Office) {
    && (forall a, e, b, f {:trigger o.link(a, e), o.link(b, f)} | o.link(a, e) == o.link(b, f) :: a == b && e == f)
    && (forall a, e {:trigger o.link(a, e)} :: o.link(a, e) != o.genesis)
  }

  /** The last checksum pins down the whole journal: no entry can be altered, dropped or reordered. */
  lemma {:induction false} TipCommits(o: Office, a: seq<Entry>, b: seq<Entry>)
    requires LinksCommit(o) && Linked(o, a) && Linked(o, b) && Tip(o, a) == Tip(o, b)
    ensures a == b
    decreases |a|
  {
    TipIsGenesis(o, a);
    TipIsGenesis(o, b);
    if a != [] {
      var m, n := |a| - 1, |b| - 1;
      assert a[m].checksum == o.link(a[m].previous, a[m].event) == o.link(b[n].previous, b[n].event);
      ShorterLinked(o, a);
      ShorterLinked(o, b);
      TipCommits(o, a[..m], b[..n]);
      assert a == a[..m] + [a[m]] && b == b[..n] + [b[n]];
    }
  }

  lemma TipIsGenesis(o: Office, a: seq<Entry>)
    requires LinksCommit(o) && Linked(o, a)
    ensures Tip(o, a) == o.genesis <==> a == []
  {
    if a != [] {
      assert a[|a| - 1].checksum == o.link(a[|a| - 1].previous, a[|a| - 1].event);
    }
  }

  lemma ShorterLinked(o: Office, a: seq<Entry>)
    requires Linked(o, a) && a != []
    ensures Linked(o, a[..|a| - 1]) && a[|a| - 1].previous == Tip(o, a[..|a| - 1])
  {
    var n := |a| - 1;
    forall i | 0 <= i < n
      ensures a[..n][i].previous == Tip(o, a[..n][..i]) && a[..n][i].checksum == o.link(a[..n][i].previous, a[..n][i].event)
    {
      assert a[..n][..i] == a[..i] && a[..n][i] == a[i];
    }
  }
}

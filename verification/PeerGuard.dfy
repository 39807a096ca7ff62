/** Bounded peer admission, bans and message buckets. */
module PeerGuard {
  import opened Canonical
  import opened Collections

  const MAX_HOSTS: nat := 4096

  datatype Policy = Policy(maxInboundPerHost: nat, messagesPerWindow: nat, messageWindow: int, banScore: int, banDuration: nat)
  datatype Violation = MalformedFrame | MessageFlood | InvalidData

  /** A ban ends at bannedUntil; 0 means none. */
  datatype Host = Host(inbound: nat, connections: nat, lastSeen: int, score: int, bannedUntil: int)
  datatype Bucket = Bucket(startedAt: int, count: nat)
  datatype Guard = Guard(hosts: map<Bytes, Host>, buckets: map<Bytes, Bucket>)

  function Penalty(v: Violation): int {
    match v case MalformedFrame => 20 case MessageFlood => 50 case InvalidData => 10
  }

  // ---------- Host states ----------

  predicate Evictable(p: Policy, h: Host, now: int) {
    h.connections == 0 && h.bannedUntil <= now && now - h.lastSeen >= p.banDuration
  }

  function Kept(p: Policy, hosts: map<Bytes, Host>, now: int): map<Bytes, Host> {
    map k | k in hosts && !Evictable(p, hosts[k], now) :: hosts[k]
  }

  /** Finds or makes room for a host. The flag is false when the table stays full: then nothing is
      recorded for the host, which counts as banned forever. */
  function Touched(p: Policy, hosts: map<Bytes, Host>, host: Bytes, now: int): (map<Bytes, Host>, bool) {
    if host in hosts then (hosts[host := hosts[host].(lastSeen := now)], true)
    else
      var room := if |hosts| >= MAX_HOSTS then Kept(p, hosts, now) else hosts;
      if |room| >= MAX_HOSTS then (room, false) else (room[host := Host(0, 0, now, 0, 0)], true)
  }

  function Expired(h: Host, now: int): Host {
    if h.bannedUntil != 0 && h.bannedUntil <= now then h.(bannedUntil := 0, score := 0) else h
  }

  function Admitted(h: Host, inbound: bool): Host {
    h.(inbound := if inbound then h.inbound + 1 else h.inbound, connections := h.connections + 1)
  }

  function Released(h: Host, inbound: bool): Host {
    h.(inbound := if inbound && h.inbound > 0 then h.inbound - 1 else h.inbound,
       connections := if h.connections > 0 then h.connections - 1 else 0)
  }

  function Penalized(p: Policy, h: Host, v: Violation, now: int): Host {
    var score := h.score + Penalty(v);
    if score < p.banScore then h.(score := score) else h.(bannedUntil := now + p.banDuration, score := 0)
  }

  predicate CanAdmit(p: Policy, h: Host, inbound: bool, now: int) {
    h.bannedUntil <= now && (inbound ==> h.inbound < p.maxInboundPerHost)
  }

  function NextBucket(p: Policy, buckets: map<Bytes, Bucket>, peer: Bytes, now: int): Bucket {
    if peer !in buckets || now - buckets[peer].startedAt >= p.messageWindow then Bucket(now, 1)
    else buckets[peer].(count := buckets[peer].count + 1)
  }

  // ---------- Transitions; one clock reading each ----------

  function Admit(p: Policy, g: Guard, host: Bytes, inbound: bool, now: int): (Guard, bool) {
    var (hosts, tracked) := Touched(p, g.hosts, host, now);
    if !tracked then (g.(hosts := hosts), false)
    else
      var h := Expired(hosts[host], now);
      if CanAdmit(p, h, inbound, now) then (g.(hosts := hosts[host := Admitted(h, inbound)]), true)
      else (g.(hosts := hosts[host := h]), false)
  }

  function Release(p: Policy, g: Guard, host: Bytes, inbound: bool, now: int): Guard {
    var (hosts, tracked) := Touched(p, g.hosts, host, now);
    g.(hosts := if tracked then hosts[host := Released(hosts[host], inbound)] else hosts)
  }

  function Penalize(p: Policy, g: Guard, host: Bytes, v: Violation, now: int): (Guard, bool) {
    var (hosts, tracked) := Touched(p, g.hosts, host, now);
    if !tracked then (g.(hosts := hosts), Penalty(v) >= p.banScore)
    else
      var h := Expired(hosts[host], now);
      (g.(hosts := hosts[host := Penalized(p, h, v, now)]), h.score + Penalty(v) >= p.banScore)
  }

  function AllowMessage(p: Policy, g: Guard, peer: Bytes, host: Bytes, now: int): (Guard, bool) {
    var (hosts, tracked) := Touched(p, g.hosts, host, now);
    if !tracked then (g.(hosts := hosts), false)
    else
      var h := Expired(hosts[host], now);
      var seen := g.(hosts := hosts[host := h]);
      if h.bannedUntil > now then (seen, false)
      else
        var bucket := NextBucket(p, g.buckets, peer, now);
        var counted := seen.(buckets := g.buckets[peer := bucket]);
        if bucket.count <= p.messagesPerWindow then (counted, true)
        else (Penalize(p, counted, host, MessageFlood, now).0, false)
  }

  function IsBanned(p: Policy, g: Guard, host: Bytes, now: int): (Guard, bool) {
    var (hosts, tracked) := Touched(p, g.hosts, host, now);
    if !tracked then (g.(hosts := hosts), true)
    else
      var h := Expired(hosts[host], now);
      (g.(hosts := hosts[host := h]), h.bannedUntil > now)
  }

  class PeerGuard {
    const policy: Policy
    const hostOf: Bytes -> Bytes
    var hosts: map<Bytes, Host>
    var buckets: map<Bytes, Bucket>

    function Value(): Guard
      reads this
    {
      Guard(hosts, buckets)
    }

    constructor (policy: Policy, hostOf: Bytes -> Bytes)
      ensures this.policy == policy && this.hostOf == hostOf && Value() == Guard(map[], map[])
    {
      this.policy, this.hostOf := policy, hostOf;
      hosts, buckets := map[], map[];
    }

    method State(host: Bytes, now: int) returns (tracked: bool)
      modifies this`hosts
      ensures (hosts, tracked) == Touched(policy, old(hosts), host, now) && (tracked ==> host in hosts)
    {
      if host !in hosts {
        if |hosts| >= MAX_HOSTS {
          Evict(now);
          if |hosts| >= MAX_HOSTS {
            return false;
          }
        }
        PutTwice(hosts, host, Host(0, 0, now, 0, 0), Host(0, 0, now, 0, 0));
        hosts := hosts[host := Host(0, 0, now, 0, 0)];
      }
      hosts := hosts[host := hosts[host].(lastSeen := now)];
      tracked := true;
    }

    method Evict(now: int)
      modifies this`hosts
      ensures hosts == Kept(policy, old(hosts), now)
    {
      var pending := hosts.Keys;
      while pending != {}
        invariant pending <= hosts.Keys
        invariant hosts == map k | k in old(hosts) && (k in pending || !Evictable(policy, old(hosts)[k], now)) :: old(hosts)[k]
        decreases |pending|
      {
        hide Evictable;
        var key :| key in pending;
        pending := pending - {key};
        if Evictable(policy, hosts[key], now) {
          hosts := hosts - {key};
        }
      }
    }

    method AdmitPeer(address: Bytes, inbound: bool, now: int) returns (ok: bool)
      modifies this`hosts
      ensures (Value(), ok) == Admit(policy, old(Value()), hostOf(address), inbound, now)
    {
      hide Touched;
      var host := hostOf(address);
      var tracked := State(host, now);
      if !tracked {
        return false;
      }
      PutTwice(hosts, host, Expired(hosts[host], now), Admitted(Expired(hosts[host], now), inbound));
      hosts := hosts[host := Expired(hosts[host], now)];
      if hosts[host].bannedUntil > now || (inbound && hosts[host].inbound >= policy.maxInboundPerHost) {
        return false;
      }
      var h := hosts[host];
      hosts := hosts[host := h.(inbound := if inbound then h.inbound + 1 else h.inbound, connections := h.connections + 1)];
      ok := true;
    }

    method ReleasePeer(address: Bytes, inbound: bool, now: int)
      modifies this`hosts
      ensures Value() == Release(policy, old(Value()), hostOf(address), inbound, now)
    {
      hide Touched;
      var host := hostOf(address);
      var tracked := State(host, now);
      if tracked {
        hosts := hosts[host := Released(hosts[host], inbound)];
      }
    }

    method PenalizePeer(address: Bytes, v: Violation, now: int) returns (banned: bool)
      modifies this`hosts
      ensures (Value(), banned) == Penalize(policy, old(Value()), hostOf(address), v, now)
    {
      hide Touched;
      var host := hostOf(address);
      var tracked := State(host, now);
      if !tracked {
        return Penalty(v) >= policy.banScore;
      }
      var h := Expired(hosts[host], now);
      h := h.(score := h.score + Penalty(v));
      banned := h.score >= policy.banScore;
      if banned {
        h := h.(bannedUntil := now + policy.banDuration, score := 0);
      }
      hosts := hosts[host := h];
    }

    method AllowPeerMessage(peer: Bytes, address: Bytes, now: int) returns (ok: bool)
      modifies this
      ensures (Value(), ok) == AllowMessage(policy, old(Value()), peer, hostOf(address), now)
    {
      hide Touched, Penalize;
      var host := hostOf(address);
      var tracked := State(host, now);
      if !tracked {
        return false;
      }
      hosts := hosts[host := Expired(hosts[host], now)];
      if hosts[host].bannedUntil > now {
        return false;
      }
      PutTwice(buckets, peer, Bucket(now, 0), NextBucket(policy, buckets, peer, now));
      if peer !in buckets || now - buckets[peer].startedAt >= policy.messageWindow {
        buckets := buckets[peer := Bucket(now, 0)];
      }
      buckets := buckets[peer := buckets[peer].(count := buckets[peer].count + 1)];
      if buckets[peer].count <= policy.messagesPerWindow {
        return true;
      }
      var banned := PenalizePeer(address, MessageFlood, now);
      ok := false;
    }

    method ForgetPeer(peer: Bytes)
      modifies this`buckets
      ensures Value() == old(Value()).(buckets := old(buckets) - {peer})
    {
      buckets := buckets - {peer};
    }

    method IsPeerBanned(address: Bytes, now: int) returns (banned: bool)
      modifies this`hosts
      ensures (Value(), banned) == IsBanned(policy, old(Value()), hostOf(address), now)
    {
      hide Touched;
      var host := hostOf(address);
      var tracked := State(host, now);
      if !tracked {
        return true;
      }
      hosts := hosts[host := Expired(hosts[host], now)];
      banned := hosts[host].bannedUntil > now;
    }
  }

  // ---------- Runs ----------

  /** The guard beside what it is meant to account for: the live connections, and how many messages
      each peer's current bucket has let through. */
  datatype World = World(guard: Guard, live: multiset<(Bytes, bool)>, passed: map<Bytes, nat>)

  datatype Op =
    | Admitting(host: Bytes, inbound: bool, now: int)
    | Releasing(host: Bytes, inbound: bool, now: int)
    | Message(peer: Bytes, host: Bytes, now: int)
    | Punishing(host: Bytes, violation: Violation, now: int)
    | Forgetting(peer: Bytes, now: int)
    | Asking(host: Bytes, now: int)

  /** Only connections that were admitted and not yet released are released. */
  predicate Bracketed(w: World, op: Op) {
    op.Releasing? ==> w.live[(op.host, op.inbound)] > 0
  }

  /** A message of this host is counted: the host is tracked and not banned. */
  predicate Counted(p: Policy, g: Guard, host: Bytes, now: int) {
    var (hosts, tracked) := Touched(p, g.hosts, host, now);
    tracked && host in hosts && Expired(hosts[host], now).bannedUntil <= now
  }

  predicate Restarts(p: Policy, buckets: map<Bytes, Bucket>, peer: Bytes, now: int) {
    peer !in buckets || now - buckets[peer].startedAt >= p.messageWindow
  }

  function Passed(p: Policy, w: World, peer: Bytes, host: Bytes, now: int): map<Bytes, nat> {
    if !Counted(p, w.guard, host, now) then w.passed
    else
      var before := if Restarts(p, w.guard.buckets, peer, now) || peer !in w.passed then 0 else w.passed[peer];
      w.passed[peer := if AllowMessage(p, w.guard, peer, host, now).1 then before + 1 else before]
  }

  function Step(p: Policy, w: World, op: Op): World {
    match op
    case Admitting(host, inbound, now) =>
      var (g, ok) := Admit(p, w.guard, host, inbound, now);
      w.(guard := g, live := if ok then w.live + multiset{(host, inbound)} else w.live)
    case Releasing(host, inbound, now) =>
      w.(guard := Release(p, w.guard, host, inbound, now), live := w.live - multiset{(host, inbound)})
    case Message(peer, host, now) =>
      w.(guard := AllowMessage(p, w.guard, peer, host, now).0, passed := Passed(p, w, peer, host, now))
    case Punishing(host, violation, now) => w.(guard := Penalize(p, w.guard, host, violation, now).0)
    case Forgetting(peer, _) =>
      w.(guard := w.guard.(buckets := w.guard.buckets - {peer}), passed := w.passed - {peer})
    case Asking(host, now) => w.(guard := IsBanned(p, w.guard, host, now).0)
  }

  // ---------- Invariants ----------

  /** The counters are the live connections, within the inbound limit; bans lie at most one ban
      duration ahead. */
  predicate HostOk(p: Policy, live: multiset<(Bytes, bool)>, k: Bytes, h: Host, now: int) {
    && h.inbound == live[(k, true)] <= p.maxInboundPerHost
    && h.connections == live[(k, true)] + live[(k, false)]
    && h.bannedUntil <= now + p.banDuration
  }

  ghost predicate HostsOk(p: Policy, live: multiset<(Bytes, bool)>, hosts: map<Bytes, Host>, now: int) {
    && |hosts| <= MAX_HOSTS
    && (forall k | k in hosts :: HostOk(p, live, k, hosts[k], now))
    && (forall k, b | k !in hosts :: live[(k, b)] == 0)
  }

  ghost predicate BucketsOk(p: Policy, buckets: map<Bytes, Bucket>, passed: map<Bytes, nat>) {
    && passed.Keys == buckets.Keys
    && forall k | k in buckets :: passed[k] <= buckets[k].count && passed[k] <= p.messagesPerWindow
  }

  ghost predicate WorldOk(p: Policy, w: World, now: int) {
    HostsOk(p, w.live, w.guard.hosts, now) && BucketsOk(p, w.guard.buckets, w.passed)
  }

  lemma {:induction false} Fewer(m: map<Bytes, Host>, n: map<Bytes, Host>)
    requires n.Keys <= m.Keys
    ensures |n| <= |m|
    decreases |n|
  {
    if k :| k in n {
      Fewer(m - {k}, n - {k});
      assert (m - {k}).Keys == m.Keys - {k} && (n - {k}).Keys == n.Keys - {k};
    }
  }

  /** Making room loses no live host, and a newcomer starts with nothing. */
  lemma TouchedKeeps(p: Policy, live: multiset<(Bytes, bool)>, hosts: map<Bytes, Host>, host: Bytes, then_: int, now: int)
    requires HostsOk(p, live, hosts, then_) && then_ <= now && 0 <= now
    ensures HostsOk(p, live, Touched(p, hosts, host, now).0, now)
    ensures Touched(p, hosts, host, now).1 ==> host in Touched(p, hosts, host, now).0
  {
    KeptKeeps(p, live, hosts, then_, now);
    var room := if |hosts| >= MAX_HOSTS then Kept(p, hosts, now) else hosts;
    assert HostsOk(p, live, room, now);
    hide Kept;
    if host in hosts {
      PutKeeps(p, live, live, hosts, host, hosts[host].(lastSeen := now), now);
    } else if |room| < MAX_HOSTS {
      NewcomerKeeps(p, live, room, host, now);
    }
  }

  lemma KeptKeeps(p: Policy, live: multiset<(Bytes, bool)>, hosts: map<Bytes, Host>, then_: int, now: int)
    requires HostsOk(p, live, hosts, then_) && then_ <= now
    ensures HostsOk(p, live, Kept(p, hosts, now), now) && HostsOk(p, live, hosts, now)
    ensures Kept(p, hosts, now).Keys <= hosts.Keys
  {
    Fewer(hosts, Kept(p, hosts, now));
  }

  lemma NewcomerKeeps(p: Policy, live: multiset<(Bytes, bool)>, hosts: map<Bytes, Host>, host: Bytes, now: int)
    requires HostsOk(p, live, hosts, now) && host !in hosts && |hosts| < MAX_HOSTS && 0 <= now
    ensures HostsOk(p, live, hosts[host := Host(0, 0, now, 0, 0)], now)
  {
    assert hosts[host := Host(0, 0, now, 0, 0)].Keys == hosts.Keys + {host};
  }

  /** Rewriting one host's state and its live connections. */
  lemma PutKeeps(p: Policy, live: multiset<(Bytes, bool)>, more: multiset<(Bytes, bool)>, hosts: map<Bytes, Host>,
                 host: Bytes, h: Host, now: int)
    requires HostsOk(p, live, hosts, now) && host in hosts && HostOk(p, more, host, h, now)
    requires forall k, b | k != host :: more[(k, b)] == live[(k, b)]
    ensures HostsOk(p, more, hosts[host := h], now)
  {
    assert hosts[host := h].Keys == hosts.Keys;
  }

  lemma AdmitKeeps(p: Policy, w: World, host: Bytes, inbound: bool, then_: int, now: int)
    requires WorldOk(p, w, then_) && then_ <= now && 0 <= now
    ensures WorldOk(p, Step(p, w, Admitting(host, inbound, now)), now)
  {
    var (hosts, tracked) := Touched(p, w.guard.hosts, host, now);
    TouchedKeeps(p, w.live, w.guard.hosts, host, then_, now);
    hide Touched;
    if tracked {
      var h := Expired(hosts[host], now);
      if CanAdmit(p, h, inbound, now) {
        PutKeeps(p, w.live, w.live + multiset{(host, inbound)}, hosts, host, Admitted(h, inbound), now);
      } else {
        PutKeeps(p, w.live, w.live, hosts, host, h, now);
      }
    }
  }

  lemma ReleaseKeeps(p: Policy, w: World, host: Bytes, inbound: bool, then_: int, now: int)
    requires WorldOk(p, w, then_) && then_ <= now && 0 <= now && w.live[(host, inbound)] > 0
    ensures WorldOk(p, Step(p, w, Releasing(host, inbound, now)), now)
  {
    assert host in w.guard.hosts;
    var hosts := Touched(p, w.guard.hosts, host, now).0;
    TouchedKeeps(p, w.live, w.guard.hosts, host, then_, now);
    assert HostOk(p, w.live, host, w.guard.hosts[host], then_);
    PutKeeps(p, w.live, w.live - multiset{(host, inbound)}, hosts, host, Released(hosts[host], inbound), now);
  }

  lemma PenalizeKeeps(p: Policy, live: multiset<(Bytes, bool)>, g: Guard, host: Bytes, v: Violation, then_: int, now: int)
    requires HostsOk(p, live, g.hosts, then_) && then_ <= now && 0 <= now
    ensures HostsOk(p, live, Penalize(p, g, host, v, now).0.hosts, now)
    ensures Penalize(p, g, host, v, now).0.buckets == g.buckets
  {
    var (hosts, tracked) := Touched(p, g.hosts, host, now);
    TouchedKeeps(p, live, g.hosts, host, then_, now);
    hide Touched;
    if tracked {
      PutKeeps(p, live, live, hosts, host, Penalized(p, Expired(hosts[host], now), v, now), now);
    }
  }

  lemma MessageKeeps(p: Policy, w: World, peer: Bytes, host: Bytes, then_: int, now: int)
    requires WorldOk(p, w, then_) && then_ <= now && 0 <= now
    ensures WorldOk(p, Step(p, w, Message(peer, host, now)), now)
  {
    MessageHosts(p, w, peer, host, then_, now);
    MessageBuckets(p, w, peer, host, now);
    hide HostsOk, BucketsOk, AllowMessage, Passed;
  }

  lemma MessageHosts(p: Policy, w: World, peer: Bytes, host: Bytes, then_: int, now: int)
    requires HostsOk(p, w.live, w.guard.hosts, then_) && then_ <= now && 0 <= now
    ensures HostsOk(p, w.live, AllowMessage(p, w.guard, peer, host, now).0.hosts, now)
  {
    hide HostsOk, Touched, Penalize;
    var (hosts, tracked) := Touched(p, w.guard.hosts, host, now);
    TouchedKeeps(p, w.live, w.guard.hosts, host, then_, now);
    if tracked {
      var h := Expired(hosts[host], now);
      ExpiredKeeps(p, w.live, hosts, host, now);
      var seen := w.guard.(hosts := hosts[host := h]);
      var counted := seen.(buckets := seen.buckets[peer := NextBucket(p, seen.buckets, peer, now)]);
      PenalizeKeeps(p, w.live, counted, host, MessageFlood, now, now);
    }
  }

  lemma ExpiredKeeps(p: Policy, live: multiset<(Bytes, bool)>, hosts: map<Bytes, Host>, host: Bytes, now: int)
    requires HostsOk(p, live, hosts, now) && host in hosts && 0 <= now
    ensures HostsOk(p, live, hosts[host := Expired(hosts[host], now)], now)
  {
    PutKeeps(p, live, live, hosts, host, Expired(hosts[host], now), now);
  }

  lemma MessageBuckets(p: Policy, w: World, peer: Bytes, host: Bytes, now: int)
    requires BucketsOk(p, w.guard.buckets, w.passed)
    ensures BucketsOk(p, AllowMessage(p, w.guard, peer, host, now).0.buckets, Passed(p, w, peer, host, now))
  {
    TouchedHas(p, w.guard.hosts, host, now);
    hide Touched, Expired, Penalized;
    if Counted(p, w.guard, host, now) {
      var bucket := NextBucket(p, w.guard.buckets, peer, now);
      assert AllowMessage(p, w.guard, peer, host, now).0.buckets == w.guard.buckets[peer := bucket];
      assert AllowMessage(p, w.guard, peer, host, now).1 <==> bucket.count <= p.messagesPerWindow;
      hide AllowMessage, Counted;
    }
  }

  lemma AskKeeps(p: Policy, w: World, host: Bytes, then_: int, now: int)
    requires WorldOk(p, w, then_) && then_ <= now && 0 <= now
    ensures WorldOk(p, Step(p, w, Asking(host, now)), now)
  {
    var (hosts, tracked) := Touched(p, w.guard.hosts, host, now);
    TouchedKeeps(p, w.live, w.guard.hosts, host, then_, now);
    hide Touched;
    if tracked {
      PutKeeps(p, w.live, w.live, hosts, host, Expired(hosts[host], now), now);
    }
  }

  lemma StepKeeps(p: Policy, w: World, op: Op, then_: int)
    requires WorldOk(p, w, then_) && then_ <= op.now && 0 <= op.now && Bracketed(w, op)
    ensures WorldOk(p, Step(p, w, op), op.now)
  {
    hide WorldOk, Touched;
    match op
    case Admitting(host, inbound, now) => AdmitKeeps(p, w, host, inbound, then_, now);
    case Releasing(host, inbound, now) => ReleaseKeeps(p, w, host, inbound, then_, now);
    case Message(peer, host, now) => MessageKeeps(p, w, peer, host, then_, now);
    case Punishing(host, violation, now) => PunishKeeps(p, w, host, violation, then_, now);
    case Forgetting(peer, now) => ForgetKeeps(p, w, peer, then_, now);
    case Asking(host, now) => AskKeeps(p, w, host, then_, now);
  }

  lemma PunishKeeps(p: Policy, w: World, host: Bytes, v: Violation, then_: int, now: int)
    requires WorldOk(p, w, then_) && then_ <= now && 0 <= now
    ensures WorldOk(p, Step(p, w, Punishing(host, v, now)), now)
  {
    PenalizeKeeps(p, w.live, w.guard, host, v, then_, now);
    hide HostsOk, Penalize;
  }

  lemma ForgetKeeps(p: Policy, w: World, peer: Bytes, then_: int, now: int)
    requires WorldOk(p, w, then_) && then_ <= now
    ensures WorldOk(p, Step(p, w, Forgetting(peer, now)), now)
  {
  }

  ghost function After(p: Policy, ops: seq<Op>): World {
    if ops == [] then World(Guard(map[], map[]), multiset{}, map[])
    else Step(p, After(p, ops[..|ops| - 1]), ops[|ops| - 1])
  }

  ghost predicate WellBracketed(p: Policy, ops: seq<Op>) {
    ops == [] ||
    (WellBracketed(p, ops[..|ops| - 1]) && Bracketed(After(p, ops[..|ops| - 1]), ops[|ops| - 1]))
  }

  ghost predicate Forward(ops: seq<Op>) {
    && (forall i | 0 <= i < |ops| :: 0 <= ops[i].now)
    && forall i, j | 0 <= i < j < |ops| :: ops[i].now <= ops[j].now
  }

  /** Over every well-bracketed run: at most 4096 tracked hosts; each host's counters are exactly its
      admitted and unreleased connections, inbound within the limit; an untracked host has none;
      and no bucket lets through more than its limit. */
  lemma {:induction false} RunsKeepWorld(p: Policy, ops: seq<Op>, now: int)
    requires WellBracketed(p, ops) && Forward(ops) && 0 <= now && forall i | 0 <= i < |ops| :: ops[i].now <= now
    ensures WorldOk(p, After(p, ops), now)
  {
    if ops != [] {
      hide Step, Bracketed;
      var n := |ops| - 1;
      RunsKeepWorld(p, ops[..n], ops[n].now);
      StepKeeps(p, After(p, ops[..n]), ops[n], ops[n].now);
      Later(p, After(p, ops), ops[n].now, now);
    }
  }

  lemma Later(p: Policy, w: World, then_: int, now: int)
    requires WorldOk(p, w, then_) && then_ <= now
    ensures WorldOk(p, w, now)
  {
  }

  lemma TouchedRemembers(p: Policy, hosts: map<Bytes, Host>, host: Bytes, k: Bytes, now: int)
    requires k in hosts && (hosts[k].connections > 0 || hosts[k].bannedUntil > now)
    ensures k in Touched(p, hosts, host, now).0 && Touched(p, hosts, host, now).0[k].bannedUntil == hosts[k].bannedUntil
    ensures Touched(p, hosts, host, now).1 ==> host in Touched(p, hosts, host, now).0
  {
  }

  /** What a penalty may do to a host that is live or banned: it stays, and its ban with it. */
  lemma PenaltyRemembers(p: Policy, g: Guard, host: Bytes, v: Violation, k: Bytes, now: int)
    requires k in g.hosts && (g.hosts[k].connections > 0 || g.hosts[k].bannedUntil > now)
    requires g.hosts[k].bannedUntil <= now + p.banDuration
    ensures var t := Penalize(p, g, host, v, now).0;
            k in t.hosts && (g.hosts[k].bannedUntil > now ==> t.hosts[k].bannedUntil >= g.hosts[k].bannedUntil)
  {
    TouchedRemembers(p, g.hosts, host, k, now);
    hide Touched;
  }

  lemma MessageRemembers(p: Policy, g: Guard, peer: Bytes, host: Bytes, k: Bytes, now: int)
    requires k in g.hosts && (g.hosts[k].connections > 0 || g.hosts[k].bannedUntil > now)
    requires g.hosts[k].bannedUntil <= now + p.banDuration
    ensures var t := AllowMessage(p, g, peer, host, now).0;
            k in t.hosts && (g.hosts[k].bannedUntil > now ==> t.hosts[k].bannedUntil >= g.hosts[k].bannedUntil)
  {
    TouchedRemembers(p, g.hosts, host, k, now);
    TouchedLive(p, g.hosts, host, k, now);
    hide Touched, Penalize;
    var (hosts, tracked) := Touched(p, g.hosts, host, now);
    if tracked && Expired(hosts[host], now).bannedUntil <= now {
      var counted := Guard(hosts[host := Expired(hosts[host], now)], g.buckets[peer := NextBucket(p, g.buckets, peer, now)]);
      PenaltyRemembers(p, counted, host, MessageFlood, k, now);
    }
  }

  lemma TouchedLive(p: Policy, hosts: map<Bytes, Host>, host: Bytes, k: Bytes, now: int)
    requires k in hosts && (hosts[k].connections > 0 || hosts[k].bannedUntil > now)
    ensures k in Touched(p, hosts, host, now).0 && Touched(p, hosts, host, now).0[k].connections == hosts[k].connections
  {
  }

  ghost predicate Remembers(g: Guard, t: Guard, k: Bytes, now: int)
    requires k in g.hosts
  {
    k in t.hosts && (g.hosts[k].bannedUntil > now ==> t.hosts[k].bannedUntil >= g.hosts[k].bannedUntil)
  }

  lemma OthersRemember(p: Policy, g: Guard, host: Bytes, inbound: bool, k: Bytes, now: int)
    requires k in g.hosts && (g.hosts[k].connections > 0 || g.hosts[k].bannedUntil > now)
    ensures Remembers(g, Admit(p, g, host, inbound, now).0, k, now)
    ensures Remembers(g, Release(p, g, host, inbound, now), k, now)
    ensures Remembers(g, IsBanned(p, g, host, now).0, k, now)
  {
    TouchedRemembers(p, g.hosts, host, k, now);
    hide Touched;
  }

  /** No step evicts a host with a live connection or an active ban, or shortens a ban. */
  lemma NeverForgotten(p: Policy, w: World, op: Op, then_: int, k: Bytes)
    requires WorldOk(p, w, then_) && then_ <= op.now && k in w.guard.hosts
    requires w.guard.hosts[k].connections > 0 || w.guard.hosts[k].bannedUntil > op.now
    ensures k in Step(p, w, op).guard.hosts
    ensures w.guard.hosts[k].bannedUntil > op.now ==>
              Step(p, w, op).guard.hosts[k].bannedUntil >= w.guard.hosts[k].bannedUntil
  {
    assert HostOk(p, w.live, k, w.guard.hosts[k], then_);
    hide WorldOk, Touched, Admit, Release, IsBanned, Penalize, AllowMessage, Passed;
    match op
    case Admitting(host, inbound, now) => OthersRemember(p, w.guard, host, inbound, k, now);
    case Releasing(host, inbound, now) => OthersRemember(p, w.guard, host, inbound, k, now);
    case Message(peer, host, now) => MessageRemembers(p, w.guard, peer, host, k, now);
    case Punishing(host, violation, now) => PenaltyRemembers(p, w.guard, host, violation, k, now);
    case Forgetting(_, _) =>
    case Asking(host, now) => OthersRemember(p, w.guard, host, false, k, now);
  }

  lemma TouchedHas(p: Policy, hosts: map<Bytes, Host>, host: Bytes, now: int)
    ensures Touched(p, hosts, host, now).1 ==> host in Touched(p, hosts, host, now).0
  {
  }

  // ---------- What each answer means ----------

  /** A host that may be dropped for another: no connection, no active ban, unseen for a ban's length. */
  predicate Idle(p: Policy, h: Host, now: int) {
    h.connections == 0 && !(h.bannedUntil > now) && h.lastSeen <= now - p.banDuration
  }

  /** Room for a newcomer: the table is not full, or holds a host that may be dropped. */
  ghost predicate HasRoom(p: Policy, hosts: map<Bytes, Host>, now: int) {
    |hosts| < 4096 || exists k :: k in hosts && Idle(p, hosts[k], now)
  }

  lemma RoomMeans(p: Policy, hosts: map<Bytes, Host>, host: Bytes, now: int)
    requires |hosts| <= 4096
    ensures Touched(p, hosts, host, now).1 <==> host in hosts || HasRoom(p, hosts, now)
    ensures Touched(p, hosts, host, now).1 ==>
              && host in Touched(p, hosts, host, now).0
              && Touched(p, hosts, host, now).0[host]
                 == (if host in hosts then hosts[host].(lastSeen := now) else Host(0, 0, now, 0, 0))
  {
    var kept := Kept(p, hosts, now);
    if k :| k in hosts && Idle(p, hosts[k], now) {
      assert k !in kept;
      Fewer(hosts - {k}, kept);
      assert (hosts - {k}).Keys == hosts.Keys - {k};
    } else {
      assert kept == hosts;
    }
  }

  /** A host is admitted exactly when it has room, the table shows no active ban of it, and it stays within
      the inbound limit; its counters then grow by this connection. */
  lemma AdmitMeans(p: Policy, g: Guard, host: Bytes, inbound: bool, now: int)
    requires |g.hosts| <= 4096 && 0 <= now
    ensures var (t, ok) := Admit(p, g, host, inbound, now);
            && (ok <==> if host in g.hosts
                        then !(g.hosts[host].bannedUntil > now) && (inbound ==> g.hosts[host].inbound < p.maxInboundPerHost)
                        else HasRoom(p, g.hosts, now) && (inbound ==> 0 < p.maxInboundPerHost))
            && t.buckets == g.buckets
            && (ok ==>
                  && host in t.hosts
                  && (var before := if host in g.hosts then g.hosts[host] else Host(0, 0, now, 0, 0);
                      && t.hosts[host].connections == before.connections + 1
                      && t.hosts[host].inbound == before.inbound + (if inbound then 1 else 0)))
            && (!ok && host in g.hosts ==>
                  && host in t.hosts
                  && t.hosts[host].connections == g.hosts[host].connections
                  && t.hosts[host].inbound == g.hosts[host].inbound)
  {
    RoomMeans(p, g.hosts, host, now);
    hide Touched, HasRoom;
  }

  /** What is held against a host: its score, unless a ban of it has ended. */
  function ScoreAt(h: Host, now: int): int {
    if h.bannedUntil != 0 && now >= h.bannedUntil then 0 else h.score
  }

  /** A violation adds 20, 50 or 10; reaching the ban score bans the host for the whole duration and clears the
      score. */
  lemma PenaltyMeans(p: Policy, g: Guard, host: Bytes, v: Violation, now: int)
    requires host in g.hosts
    ensures var (t, banned) := Penalize(p, g, host, v, now);
            var score := ScoreAt(g.hosts[host], now)
                         + (if v == MalformedFrame then 20 else if v == MessageFlood then 50 else 10);
            && host in t.hosts && (banned <==> score >= p.banScore)
            && (if banned then t.hosts[host].bannedUntil == now + p.banDuration && t.hosts[host].score == 0
                else t.hosts[host].score == score)
            && t.hosts[host].connections == g.hosts[host].connections && t.hosts[host].inbound == g.hosts[host].inbound
            && t.buckets == g.buckets
  {
  }

  /** Messages counted for the peer in its running window. */
  function CountedSoFar(p: Policy, g: Guard, peer: Bytes, now: int): nat {
    if peer in g.buckets && now < g.buckets[peer].startedAt + p.messageWindow then g.buckets[peer].count else 0
  }

  /** A message of a known host passes exactly when the host is not banned and the peer's window has room; it is
      counted in any case, and one too many counts as a flood. */
  lemma MessageMeans(p: Policy, g: Guard, peer: Bytes, host: Bytes, now: int)
    requires host in g.hosts
    ensures var (t, ok) := AllowMessage(p, g, peer, host, now);
            var banned, count := g.hosts[host].bannedUntil > now, CountedSoFar(p, g, peer, now);
            && (0 <= now ==> (ok <==> !banned && count + 1 <= p.messagesPerWindow))
            && (0 <= now && banned ==> t.buckets == g.buckets)
            && (0 <= now && !banned ==> peer in t.buckets && t.buckets[peer].count == count + 1)
            && (0 <= now && !banned && !ok ==>
                  && host in t.hosts
                  && (ScoreAt(g.hosts[host], now) + 50 >= p.banScore ==>
                        t.hosts[host].bannedUntil == now + p.banDuration))
  {
  }

  lemma BannedMeans(p: Policy, g: Guard, host: Bytes, now: int)
    requires |g.hosts| <= 4096 && 0 <= now
    ensures IsBanned(p, g, host, now).1
            <==> if host in g.hosts then g.hosts[host].bannedUntil > now else !HasRoom(p, g.hosts, now)
  {
    RoomMeans(p, g.hosts, host, now);
    hide Touched, HasRoom;
  }

  /** Over every run: a host is not admitted, and no message of it passes, before a ban of it has ended. */
  lemma BannedStaysOut(p: Policy, ops: seq<Op>, host: Bytes, peer: Bytes, inbound: bool, now: int)
    requires WellBracketed(p, ops) && Forward(ops) && 0 <= now && forall i | 0 <= i < |ops| :: ops[i].now <= now
    requires host in After(p, ops).guard.hosts && After(p, ops).guard.hosts[host].bannedUntil > now
    ensures !Admit(p, After(p, ops).guard, host, inbound, now).1
    ensures !AllowMessage(p, After(p, ops).guard, peer, host, now).1
  {
    RunsKeepWorld(p, ops, now);
    AdmitMeans(p, After(p, ops).guard, host, inbound, now);
    MessageMeans(p, After(p, ops).guard, peer, host, now);
    hide Admit, AllowMessage;
  }
}

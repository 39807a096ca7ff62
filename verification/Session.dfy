/** The authenticated peer session: challenge handshake, then strictly sequenced messages. */
module Session {
  import opened Canonical
  import opened Collections

  datatype Kind = Version | Verack | Other(tag: nat)

  /** A message payload; an object's fields that the session reads are spelled out. */
  datatype Json =
    | Scalar(raw: Bytes)
    | Object(authNonce: Option<Bytes>, sessionId: Option<Bytes>, sequence: Option<int>, body: Option<Json>, rest: Bytes)

  datatype Unsigned = Unsigned(kind: Kind, payload: Json, timestamp: int, sender: Bytes)
  datatype Message = Message(unsigned: Unsigned, signature: Bytes)

  datatype Party = Party(key: Bytes, nonce: Bytes)

  /** The session's view of cryptography: signing for a key's owner, checking a key and signature
      over a message and the network magic, and the session digest of two ordered parties. */
  datatype Suite = Suite(
    magic: int,
    sign: (int, Unsigned) -> Bytes,
    verifies: (int, Unsigned, Bytes) -> bool,
    digest: (int, seq<Party>) -> Bytes)

  datatype Session = Session(
    key: Bytes, nonce: Bytes, remoteKey: Option<Bytes>, sessionId: Option<Bytes>,
    sent: nat, received: nat, ready: bool)

  const MAX_AGE: int := 900
  const MAX_SKEW: int := 120

  predicate IsNonce(b: Bytes) {
    |b| == 64 && forall i | 0 <= i < 64 :: 48 <= b[i] <= 57 || 97 <= b[i] <= 102
  }

  predicate Fresh(timestamp: int, now: int) {
    && -(MAX_SAFE_INTEGER as int) <= timestamp <= MAX_SAFE_INTEGER
    && -(MAX_SAFE_INTEGER as int) <= now <= MAX_SAFE_INTEGER
    && now - MAX_AGE <= timestamp <= now + MAX_SKEW
  }

  function InOrder(a: Party, b: Party): seq<Party> {
    if AtMost(a.key, b.key) then [a, b] else [b, a]
  }

  function IdOf(p: Suite, a: Party, b: Party): Bytes {
    p.digest(p.magic, InOrder(a, b))
  }

  ghost predicate CollisionFree(p: Suite) {
    forall m, a, n, b {:trigger p.digest(m, a), p.digest(n, b)} | p.digest(m, a) == p.digest(n, b) :: m == n && a == b
  }

  // ---------- Sealing and opening ----------

  datatype Sealing = Dropped | Exhausted | Sealed(message: Message)

  function Sign(p: Suite, s: Session, kind: Kind, payload: Json, now: int): Message {
    var u := Unsigned(kind, payload, now, s.key);
    Message(u, p.sign(p.magic, u))
  }

  function Challenge(s: Session, payload: Json): Json {
    if payload.Object? then payload.(authNonce := Some(s.nonce)) else Object(Some(s.nonce), None, None, None, [])
  }

  function Sequenced(id: Bytes, sequence: int, body: Json): Json {
    Object(None, Some(id), Some(sequence), Some(body), [])
  }

  function Seal(p: Suite, s: Session, kind: Kind, payload: Json, now: int): (Session, Sealing) {
    if kind == Version then (s, Sealed(Sign(p, s, kind, Challenge(s, payload), now)))
    else if s.sessionId.None? || (!s.ready && kind != Verack) then (s, Dropped)
    else if s.sent + 1 > MAX_SAFE_INTEGER then (s, Exhausted)
    else (s.(sent := s.sent + 1),
          Sealed(Sign(p, s, kind, Sequenced(s.sessionId.value, s.sent + 1, payload), now)))
  }

  predicate IsChallenge(s: Session, u: Unsigned) {
    && u.kind == Version && u.payload.Object?
    && s.remoteKey.None? && u.sender != s.key
    && u.payload.authNonce.Some? && IsNonce(u.payload.authNonce.value) && u.payload.authNonce.value != s.nonce
  }

  predicate IsNext(s: Session, u: Unsigned) {
    && u.kind != Version && u.payload.Object?
    && s.sessionId.Some? && Some(u.sender) == s.remoteKey
    && u.payload.sessionId == s.sessionId
    && u.payload.sequence == Some(s.received + 1) && s.received + 1 <= MAX_SAFE_INTEGER
    && u.payload.body.Some?
    && (s.ready <==> u.kind != Verack)
  }

  predicate Authentic(p: Suite, m: Message, now: int) {
    Fresh(m.unsigned.timestamp, now) && p.verifies(p.magic, m.unsigned, m.signature)
  }

  function Challenged(p: Suite, s: Session, u: Unsigned): Session
    requires IsChallenge(s, u)
  {
    s.(remoteKey := Some(u.sender),
       sessionId := Some(IdOf(p, Party(s.key, s.nonce), Party(u.sender, u.payload.authNonce.value))))
  }

  function Advanced(s: Session, u: Unsigned): Session {
    s.(received := s.received + 1, ready := s.ready || u.kind == Verack)
  }

  /** None stands for a thrown error, which leaves the session unchanged. */
  function Open(p: Suite, s: Session, m: Message, now: int): (Session, Option<Json>) {
    if !Authentic(p, m, now) then (s, None)
    else if IsChallenge(s, m.unsigned) then (Challenged(p, s, m.unsigned), Some(m.unsigned.payload))
    else if IsNext(s, m.unsigned) then (Advanced(s, m.unsigned), m.unsigned.payload.body)
    else (s, None)
  }

  class AuthSession {
    const p: Suite
    const publicKey: Bytes
    const nonce: Bytes
    var remoteKey: Option<Bytes>
    var sessionId: Option<Bytes>
    var sent: nat
    var received: nat
    var ready: bool

    function Value(): Session
      reads this
    {
      Session(publicKey, nonce, remoteKey, sessionId, sent, received, ready)
    }

    constructor (p: Suite, publicKey: Bytes, nonce: Bytes)
      ensures this.p == p && Value() == Session(publicKey, nonce, None, None, 0, 0, false)
    {
      this.p, this.publicKey, this.nonce := p, publicKey, nonce;
      remoteKey, sessionId := None, None;
      sent, received, ready := 0, 0, false;
    }

    method SealMessage(kind: Kind, payload: Json, now: int) returns (r: Sealing)
      modifies this`sent
      ensures (Value(), r) == Seal(p, old(Value()), kind, payload, now)
    {
      var sealed;
      if kind == Version {
        sealed := Challenge(Value(), payload);
      } else {
        if sessionId.None? || (!ready && kind != Verack) {
          return Dropped;
        }
        if sent + 1 > MAX_SAFE_INTEGER {
          return Exhausted;
        }
        sent := sent + 1;
        sealed := Sequenced(sessionId.value, sent, payload);
      }
      var unsigned := Unsigned(kind, sealed, now, publicKey);
      r := Sealed(Message(unsigned, p.sign(p.magic, unsigned)));
    }

    method OpenMessage(m: Message, now: int) returns (r: Option<Json>)
      modifies this
      ensures (Value(), r) == Open(p, old(Value()), m, now)
      ensures r.Some? ==> p.verifies(p.magic, m.unsigned, m.signature) && now - 900 <= m.unsigned.timestamp <= now + 120
    {
      if !Fresh(m.unsigned.timestamp, now) || !p.verifies(p.magic, m.unsigned, m.signature) {
        return None;
      }
      var u := m.unsigned;
      if u.payload.Scalar? {
        return None;
      }
      if u.kind == Version {
        if remoteKey.Some? || u.sender == publicKey || u.payload.authNonce.None?
           || !IsNonce(u.payload.authNonce.value) || u.payload.authNonce.value == nonce {
          return None;
        }
        remoteKey := Some(u.sender);
        sessionId := Some(IdOf(p, Party(publicKey, nonce), Party(u.sender, u.payload.authNonce.value)));
        return Some(u.payload);
      }
      if sessionId.None? || Some(u.sender) != remoteKey
         || u.payload.sessionId != sessionId || u.payload.sequence.None? || u.payload.sequence.value > MAX_SAFE_INTEGER
         || u.payload.sequence.value != received + 1 || u.payload.body.None?
         || (!ready && u.kind != Verack) || (ready && u.kind == Verack) {
        return None;
      }
      received := u.payload.sequence.value;
      if u.kind == Verack {
        ready := true;
      }
      r := u.payload.body;
    }
  }

  /** What a session accepts, field by field: a signed, recent message that is either the first challenge of
      another party or the next message of the challenger. */
  ghost predicate Acceptable(p: Suite, s: Session, m: Message, now: int) {
    var u := m.unsigned;
    && p.verifies(p.magic, u, m.signature)
    && now - 900 <= u.timestamp <= now + 120
    && -9_007_199_254_740_991 <= u.timestamp <= 9_007_199_254_740_991
    && -9_007_199_254_740_991 <= now <= 9_007_199_254_740_991
    && u.payload.Object?
    && if u.kind == Version then
         && s.remoteKey == None && u.sender != s.key
         && u.payload.authNonce.Some? && u.payload.authNonce != Some(s.nonce)
         && |u.payload.authNonce.value| == 64
         && (forall i | 0 <= i < 64 :: 48 <= u.payload.authNonce.value[i] <= 57 || 97 <= u.payload.authNonce.value[i] <= 102)
       else
         && s.sessionId.Some? && u.payload.sessionId == s.sessionId && s.remoteKey == Some(u.sender)
         && u.payload.sequence == Some(s.received + 1) && s.received < 9_007_199_254_740_991
         && u.payload.body.Some? && (u.kind == Verack <==> !s.ready)
  }

  /** Exactly those are accepted; a challenge fixes the peer and the id over both parties, a next message
      advances the count and makes the session ready; anything else changes nothing. */
  lemma OpenMeans(p: Suite, s: Session, m: Message, now: int)
    ensures var (t, r) := Open(p, s, m, now);
            && (r.Some? <==> Acceptable(p, s, m, now))
            && (r == None ==> t == s)
            && (r.Some? && m.unsigned.kind == Version ==>
                  && r == Some(m.unsigned.payload)
                  && t.remoteKey == Some(m.unsigned.sender)
                  && (var a, b := Party(s.key, s.nonce), Party(m.unsigned.sender, m.unsigned.payload.authNonce.value);
                      t.sessionId == Some(p.digest(p.magic, if Compare(a.key, b.key) <= 0 then [a, b] else [b, a])))
                  && t.(remoteKey := s.remoteKey, sessionId := s.sessionId) == s)
            && (r.Some? && m.unsigned.kind != Version ==>
                  && r == m.unsigned.payload.body
                  && t.received == s.received + 1 && t.ready && t.(received := s.received, ready := s.ready) == s)
  {
  }

  /** What a session sends: a signed challenge with its nonce, or the next sequenced message of its id, which
      before readiness can only be the VERACK. */
  lemma SealMeans(p: Suite, s: Session, kind: Kind, payload: Json, now: int)
    ensures var (t, r) := Seal(p, s, kind, payload, now);
            && (r.Sealed? ==>
                  && r.message.signature == p.sign(p.magic, r.message.unsigned)
                  && r.message.unsigned.kind == kind && r.message.unsigned.sender == s.key
                  && r.message.unsigned.timestamp == now && r.message.unsigned.payload.Object?)
            && (kind == Version ==> t == s && r.Sealed? && r.message.unsigned.payload.authNonce == Some(s.nonce))
            && (kind != Version ==>
                  && (r.Sealed? <==> s.sessionId.Some? && (s.ready || kind == Verack) && s.sent < 9_007_199_254_740_991)
                  && (r == Exhausted <==> s.sessionId.Some? && (s.ready || kind == Verack) && s.sent >= 9_007_199_254_740_991)
                  && (r.Sealed? ==>
                        && r.message.unsigned.payload.sessionId == s.sessionId
                        && r.message.unsigned.payload.sequence == Some(s.sent + 1)
                        && r.message.unsigned.payload.body == Some(payload)
                        && t.sent == s.sent + 1 && t.(sent := s.sent) == s)
                  && (!r.Sealed? ==> t == s))
  {
  }

  // ---------- Many sessions and a hostile network ----------

  /** A delivered or sealed application message. */
  type Item = (Kind, Json)

  /** One honest session with its record: the nonce it was challenged with, everything it ever signed,
      and the sequenced messages it sealed and accepted, in order. */
  datatype Node = Node(
    session: Session, peerNonce: Option<Bytes>, signed: seq<Unsigned>, sealed: seq<Item>, accepted: seq<Item>)

  type World = seq<Node>

  datatype Event =
    | Starting(key: Bytes, nonce: Bytes)
    | SealingAt(i: nat, kind: Kind, payload: Json, now: int)
    | OpeningAt(i: nat, message: Message, now: int)

  ghost predicate SignedBy(w: World, key: Bytes, u: Unsigned) {
    exists j :: 0 <= j < |w| && w[j].session.key == key && u in w[j].signed
  }

  /** The network may deliver anything, any number of times, in any order. It cannot make a signature that
      verifies under an honest key over something no session of that key signed, and honest nonces do not
      repeat. Nothing is assumed about what a session accepts. */
  ghost predicate Possible(p: Suite, honest: set<Bytes>, w: World, e: Event) {
    match e
    case Starting(key, nonce) => key in honest && forall j | 0 <= j < |w| :: w[j].session.nonce != nonce
    case SealingAt(i, _, _, _) => i < |w|
    case OpeningAt(i, m, now) =>
      && i < |w|
      && (p.verifies(p.magic, m.unsigned, m.signature) && m.unsigned.sender in honest ==>
            SignedBy(w, m.unsigned.sender, m.unsigned))
  }

  function SealNode(p: Suite, n: Node, kind: Kind, payload: Json, now: int): Node {
    var (s, r) := Seal(p, n.session, kind, payload, now);
    if !r.Sealed? then n
    else
      n.(session := s, signed := n.signed + [r.message.unsigned],
         sealed := if kind == Version then n.sealed else n.sealed + [(kind, payload)])
  }

  function OpenNode(p: Suite, n: Node, m: Message, now: int): Node {
    var (s, r) := Open(p, n.session, m, now);
    if r.None? then n
    else if m.unsigned.kind == Version then n.(session := s, peerNonce := m.unsigned.payload.authNonce)
    else n.(session := s, accepted := n.accepted + [(m.unsigned.kind, r.value)])
  }

  function Step(p: Suite, w: World, e: Event): World {
    match e
    case Starting(key, nonce) => w + [Node(Session(key, nonce, None, None, 0, 0, false), None, [], [], [])]
    case SealingAt(i, kind, payload, now) => if i < |w| then w[i := SealNode(p, w[i], kind, payload, now)] else w
    case OpeningAt(i, m, now) => if i < |w| then w[i := OpenNode(p, w[i], m, now)] else w
  }

  ghost predicate IsRun(p: Suite, honest: set<Bytes>, events: seq<Event>) {
    events == [] ||
    (IsRun(p, honest, events[..|events| - 1])
     && Possible(p, honest, After(p, events[..|events| - 1]), events[|events| - 1]))
  }

  function After(p: Suite, events: seq<Event>): World {
    if events == [] then [] else Step(p, After(p, events[..|events| - 1]), events[|events| - 1])
  }

  // ---------- Safety ----------

  /** Two sessions over the same two keys and nonces. */
  predicate Paired(a: Node, b: Node) {
    && a.session.remoteKey == Some(b.session.key) && b.session.remoteKey == Some(a.session.key)
    && a.peerNonce == Some(b.session.nonce) && b.peerNonce == Some(a.session.nonce)
    && a.session.sessionId == b.session.sessionId && a.session.sessionId.Some?
  }

  /** A sequenced message that a session signed carries its session id and its place in the order. */
  predicate InPlace(n: Node, u: Unsigned) {
    && u.sender == n.session.key
    && (u.kind != Version ==>
          && u.payload.Object? && n.session.sessionId.Some? && u.payload.sessionId == n.session.sessionId
          && u.payload.sequence.Some? && u.payload.body.Some?
          && 1 <= u.payload.sequence.value <= |n.sealed|
          && n.sealed[u.payload.sequence.value - 1] == (u.kind, u.payload.body.value))
  }

  /** A challenged session's id is the digest of its own party and its peer's. */
  predicate Bound(p: Suite, n: Node) {
    && n.session.remoteKey.Some? && n.session.sessionId.Some? && n.peerNonce.Some?
    && n.session.remoteKey.value != n.session.key
    && n.session.sessionId.value
       == IdOf(p, Party(n.session.key, n.session.nonce), Party(n.session.remoteKey.value, n.peerNonce.value))
  }

  ghost predicate NodeOk(p: Suite, n: Node) {
    && n.session.sent == |n.sealed| && n.session.received == |n.accepted|
    && (if n.session.remoteKey.Some? then Bound(p, n) else n.session.sessionId.None? && n.peerNonce.None?)
    && (n.session.ready <==> n.accepted != [])
    && (n.accepted != [] ==> n.session.remoteKey.Some? && n.accepted[0].0 == Verack)
    && forall u | u in n.signed :: InPlace(n, u)
  }

  /** What the session accepted came, in order and without repeats, from one paired session. */
  ghost predicate Follows(honest: set<Bytes>, w: World, i: nat)
    requires i < |w|
  {
    w[i].accepted != [] && w[i].session.remoteKey.Some? && w[i].session.remoteKey.value in honest ==>
      exists j :: 0 <= j < |w| && Paired(w[i], w[j]) && w[i].accepted <= w[j].sealed
  }

  ghost predicate Distinctly(w: World) {
    forall i, j | 0 <= i < j < |w| :: w[i].session.nonce != w[j].session.nonce
  }

  ghost predicate WorldOk(p: Suite, honest: set<Bytes>, w: World) {
    && Distinctly(w)
    && (forall i {:trigger NodeOk(p, w[i])} | 0 <= i < |w| :: NodeOk(p, w[i]))
    && (forall i {:trigger Follows(honest, w, i)} | 0 <= i < |w| :: Follows(honest, w, i))
  }

  lemma SealNodeKeeps(p: Suite, n: Node, kind: Kind, payload: Json, now: int)
    requires NodeOk(p, n)
    ensures var m := SealNode(p, n, kind, payload, now);
            && NodeOk(p, m) && n.sealed <= m.sealed && m.accepted == n.accepted && m.peerNonce == n.peerNonce
            && m.session.(sent := n.session.sent) == n.session
  {
    var m := SealNode(p, n, kind, payload, now);
    forall u | u in m.signed
      ensures InPlace(m, u)
    {
      assert u in n.signed ==> InPlace(n, u);
    }
  }

  lemma OpenNodeKeeps(p: Suite, n: Node, m: Message, now: int)
    requires NodeOk(p, n)
    ensures NodeOk(p, OpenNode(p, n, m, now))
  {
    var o := OpenNode(p, n, m, now);
    forall u | u in o.signed
      ensures InPlace(o, u)
    {
      assert InPlace(n, u);
    }
  }

  /** The digest pins down both parties: equal session ids mean paired sessions. */
  lemma SameIdPairs(p: Suite, a: Node, b: Node)
    requires CollisionFree(p) && NodeOk(p, a) && NodeOk(p, b)
    requires a.session.remoteKey == Some(b.session.key) && b.session.sessionId.Some?
    requires a.session.sessionId == b.session.sessionId
    ensures Paired(a, b)
  {
    var x, y := Party(a.session.key, a.session.nonce), Party(a.session.remoteKey.value, a.peerNonce.value);
    var u, v := Party(b.session.key, b.session.nonce), Party(b.session.remoteKey.value, b.peerNonce.value);
    assert InOrder(x, y) == InOrder(u, v);
    assert InOrder(x, y)[0] == InOrder(u, v)[0] && InOrder(x, y)[1] == InOrder(u, v)[1];
  }

  /** Accepting one more message keeps following the same session. */
  lemma OpenFollows(p: Suite, honest: set<Bytes>, w: World, i: nat, m: Message, now: int)
    requires CollisionFree(p) && WorldOk(p, honest, w)
    requires Possible(p, honest, w, OpeningAt(i, m, now))
    ensures Follows(honest, Step(p, w, OpeningAt(i, m, now)), i)
  {
    var n := w[i];
    var next := OpenNode(p, n, m, now);
    var v := w[i := next];
    assert NodeOk(p, n) && Follows(honest, w, i);
    if Authentic(p, m, now) && IsNext(n.session, m.unsigned) && m.unsigned.sender in honest {
      var j :| 0 <= j < |w| && w[j].session.key == m.unsigned.sender && m.unsigned in w[j].signed;
      assert NodeOk(p, w[j]) && InPlace(w[j], m.unsigned);
      SameIdPairs(p, n, w[j]);
      if n.accepted != [] {
        var k :| 0 <= k < |w| && Paired(n, w[k]) && n.accepted <= w[k].sealed;
        assert w[k].session.nonce == w[j].session.nonce;
        assert k == j;
      }
      assert next.accepted <= w[j].sealed;
      assert v[j] == w[j] && Paired(v[i], v[j]);
    } else if n.accepted != [] && !(Authentic(p, m, now) && IsNext(n.session, m.unsigned)) {
      assert next == n && v == w;
    }
  }

  /** A session that keeps its keys and only grows stays a peer of those that follow it. */
  lemma OthersFollow(honest: set<Bytes>, w: World, v: World, i: nat, x: nat)
    requires i < |w| == |v| && x < |w| && x != i && Follows(honest, w, x)
    requires forall y | 0 <= y < |w| && y != i :: v[y] == w[y]
    requires w[i].sealed <= v[i].sealed
    requires w[i].session.remoteKey.Some? ==>
               && v[i].session.remoteKey == w[i].session.remoteKey && v[i].session.sessionId == w[i].session.sessionId
               && v[i].peerNonce == w[i].peerNonce
    requires v[i].session.key == w[i].session.key && v[i].session.nonce == w[i].session.nonce
    ensures Follows(honest, v, x)
  {
    if w[x].accepted != [] && w[x].session.remoteKey.Some? && w[x].session.remoteKey.value in honest {
      var j :| 0 <= j < |w| && Paired(w[x], w[j]) && w[x].accepted <= w[j].sealed;
      assert Paired(v[x], v[j]) && v[x].accepted <= v[j].sealed;
    }
  }

  lemma StartKeeps(p: Suite, honest: set<Bytes>, w: World, key: Bytes, nonce: Bytes)
    requires WorldOk(p, honest, w) && Possible(p, honest, w, Starting(key, nonce))
    ensures WorldOk(p, honest, Step(p, w, Starting(key, nonce)))
  {
    var v := Step(p, w, Starting(key, nonce));
    forall x | 0 <= x < |v|
      ensures NodeOk(p, v[x]) && Follows(honest, v, x)
    {
      if x < |w| {
        assert v[x] == w[x] && NodeOk(p, w[x]) && Follows(honest, w, x);
        if w[x].accepted != [] && w[x].session.remoteKey.Some? && w[x].session.remoteKey.value in honest {
          var j :| 0 <= j < |w| && Paired(w[x], w[j]) && w[x].accepted <= w[j].sealed;
          assert v[j] == w[j];
        }
      }
    }
  }

  lemma SealKeeps(p: Suite, honest: set<Bytes>, w: World, i: nat, kind: Kind, payload: Json, now: int)
    requires WorldOk(p, honest, w) && i < |w|
    ensures WorldOk(p, honest, Step(p, w, SealingAt(i, kind, payload, now)))
  {
    hide Seal, Bound, InPlace;
    var v := Step(p, w, SealingAt(i, kind, payload, now));
    assert NodeOk(p, w[i]);
    SealNodeKeeps(p, w[i], kind, payload, now);
    hide SealNode;
    forall x | 0 <= x < |v|
      ensures NodeOk(p, v[x]) && Follows(honest, v, x)
    {
      assert Follows(honest, w, x) && NodeOk(p, w[x]);
      if x != i {
        OthersFollow(honest, w, v, i, x);
      } else if w[x].accepted != [] && w[x].session.remoteKey.Some? && w[x].session.remoteKey.value in honest {
        var j :| 0 <= j < |w| && Paired(w[x], w[j]) && w[x].accepted <= w[j].sealed;
        assert Paired(v[x], v[j]) && v[x].accepted <= v[j].sealed;
      }
    }
  }

  lemma OpenKeeps(p: Suite, honest: set<Bytes>, w: World, i: nat, m: Message, now: int)
    requires CollisionFree(p) && WorldOk(p, honest, w)
    requires Possible(p, honest, w, OpeningAt(i, m, now))
    ensures WorldOk(p, honest, Step(p, w, OpeningAt(i, m, now)))
  {
    hide Bound, InPlace, SignedBy;
    var v := Step(p, w, OpeningAt(i, m, now));
    assert NodeOk(p, w[i]);
    OpenNodeKeeps(p, w[i], m, now);
    OpenFollows(p, honest, w, i, m, now);
    forall x | 0 <= x < |v|
      ensures NodeOk(p, v[x]) && Follows(honest, v, x)
    {
      assert Follows(honest, w, x) && NodeOk(p, w[x]);
      if x != i {
        OthersFollow(honest, w, v, i, x);
      }
    }
  }

  lemma {:induction false} RunKeeps(p: Suite, honest: set<Bytes>, events: seq<Event>)
    requires CollisionFree(p) && IsRun(p, honest, events)
    ensures WorldOk(p, honest, After(p, events))
  {
    hide WorldOk, CollisionFree, Step;
    if events == [] {
      assert WorldOk(p, honest, []) by {
        EmptyWorld(p, honest);
      }
    } else {
      var n := |events| - 1;
      RunKeeps(p, honest, events[..n]);
      match events[n]
      case Starting(key, nonce) => StartKeeps(p, honest, After(p, events[..n]), key, nonce);
      case SealingAt(i, kind, payload, now) => SealKeeps(p, honest, After(p, events[..n]), i, kind, payload, now);
      case OpeningAt(i, m, now) => OpenKeeps(p, honest, After(p, events[..n]), i, m, now);
    }
  }

  lemma EmptyWorld(p: Suite, honest: set<Bytes>)
    ensures WorldOk(p, honest, [])
  {
  }

  /** Whenever a session is ready for an honest peer key, that key's owner runs exactly one session
      over the same keys and nonces, with the same id, and what was accepted is a prefix of what
      that session sealed: nothing lost in between, reordered, repeated or foreign. */
  lemma SessionSafety(p: Suite, honest: set<Bytes>, events: seq<Event>, i: nat) returns (j: nat)
    requires CollisionFree(p) && IsRun(p, honest, events)
    requires i < |After(p, events)| && After(p, events)[i].session.ready
    requires After(p, events)[i].session.remoteKey.Some?
    requires After(p, events)[i].session.remoteKey.value in honest
    ensures var w := After(p, events);
            && j < |w| && j != i && Paired(w[i], w[j])
            && w[i].accepted <= w[j].sealed && w[i].accepted != [] && w[i].accepted[0].0 == Verack
            && forall k | 0 <= k < |w| && Paired(w[i], w[k]) :: k == j
  {
    RunKeeps(p, honest, events);
    var w := After(p, events);
    assert NodeOk(p, w[i]) && Follows(honest, w, i);
    j :| 0 <= j < |w| && Paired(w[i], w[j]) && w[i].accepted <= w[j].sealed;
  }

  // ---------- Without interference the session works ----------

  /** Signatures that a key's owner makes verify. */
  ghost predicate SignsCorrectly(p: Suite) {
    forall u {:trigger p.sign(p.magic, u)} :: p.verifies(p.magic, u, p.sign(p.magic, u))
  }

  predicate SafeTime(now: int) {
    0 <= now <= MAX_SAFE_INTEGER
  }

  /** The receiver has everything the sender sealed, and expects the next. */
  predicate InStep(from: Session, to: Session) {
    from.sessionId.Some? && from.sessionId == to.sessionId && to.remoteKey == Some(from.key) && from.sent == to.received
  }

  /** Opening undoes sealing: the next message arrives as it was sent. A second VERACK never does. */
  lemma OpenUndoesSeal(p: Suite, from: Session, to: Session, kind: Kind, payload: Json, now: int)
    requires SignsCorrectly(p) && InStep(from, to) && SafeTime(now) && from.sent < MAX_SAFE_INTEGER
    requires kind != Version && (from.ready || kind == Verack)
    ensures var (f, r) := Seal(p, from, kind, payload, now);
            r.Sealed? &&
            var (t, got) := Open(p, to, r.message, now);
            && (got == Some(payload) <==> (to.ready <==> kind != Verack))
            && (got.Some? ==> InStep(f, t) && t.ready)
            && (got.None? ==> t == to)
  {
    var u := Sign(p, from, kind, Sequenced(from.sessionId.value, from.sent + 1, payload), now).unsigned;
    assert p.verifies(p.magic, u, p.sign(p.magic, u));
  }

  lemma ChallengeArrives(p: Suite, from: Session, to: Session, payload: Json, now: int)
    requires SignsCorrectly(p) && SafeTime(now)
    requires to.remoteKey.None? && from.key != to.key && from.nonce != to.nonce && IsNonce(from.nonce)
    ensures var m := Seal(p, from, Version, payload, now).1.message;
            Open(p, to, m, now) == (to.(remoteKey := Some(from.key),
                                        sessionId := Some(IdOf(p, Party(to.key, to.nonce), Party(from.key, from.nonce)))),
                                    Some(Challenge(from, payload)))
  {
    var u := Sign(p, from, Version, Challenge(from, payload), now).unsigned;
    assert p.verifies(p.magic, u, p.sign(p.magic, u));
  }

  /** Both sides of an exchange of challenges compute the same session id, ready for VERACKs. */
  lemma HandshakeAgrees(p: Suite, a: Session, b: Session, x: Json, y: Json, now: int)
    requires SignsCorrectly(p) && SafeTime(now)
    requires a == Session(a.key, a.nonce, None, None, 0, 0, false) && b == Session(b.key, b.nonce, None, None, 0, 0, false)
    requires a.key != b.key && a.nonce != b.nonce && IsNonce(a.nonce) && IsNonce(b.nonce)
    ensures var a1 := Open(p, a, Seal(p, b, Version, y, now).1.message, now).0;
            var b1 := Open(p, b, Seal(p, a, Version, x, now).1.message, now).0;
            InStep(a1, b1) && InStep(b1, a1) && !a1.ready && !b1.ready
  {
    hide Open, SignsCorrectly;
    ChallengeArrives(p, a, b, x, now);
    ChallengeArrives(p, b, a, y, now);
    SameIdEitherWay(p, Party(a.key, a.nonce), Party(b.key, b.nonce));
  }

  lemma SameIdEitherWay(p: Suite, a: Party, b: Party)
    requires a.key != b.key
    ensures IdOf(p, a, b) == IdOf(p, b, a)
  {
    AtMostIsTotalOrder();
  }
}

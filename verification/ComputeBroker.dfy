/** The broker's allocation cycle: internal tasks, then commercial bids by price, then fallback work. */
module ComputeBroker {
  import opened Canonical
  import opened Collections

  datatype Node = Node(total: real, consensus: real, jgCluster: real, broker: real, idle: real, types: set<Bytes>, heartbeat: int)
  datatype Bid = Bid(bidId: Bytes, taskType: Bytes, price: int, minTflops: real, totalTflops: real, expiresAt: int, isFallback: bool)
  datatype Task = Task(taskId: Bytes, taskType: Bytes, required: real)
  datatype Slice = Slice(bidId: Bytes, node: Bytes, tflops: real)

  type Nodes = map<Bytes, Node>

  const JG_INTERNAL: Bytes := [106, 103, 95, 105, 110, 116, 101, 114, 110, 97, 108, 95]

  // ---------- Capacity ----------

  predicate Balanced(n: Node) {
    n.consensus + n.jgCluster + n.broker + n.idle == n.total
  }

  function Registered(n: Node): Node {
    var free := n.total - n.consensus - n.jgCluster - n.broker;
    n.(idle := if free > 0.0 then free else 0.0)
  }

  /** Registration balances exactly the nodes that have not promised more than they have. */
  lemma RegisteredBalance(n: Node)
    ensures Registered(n).idle >= 0.0
    ensures Balanced(Registered(n)) <==> n.consensus + n.jgCluster + n.broker <= n.total
  {
  }

  /** What the slices take from one node. */
  function TakenFrom(slices: seq<Slice>, node: Bytes): real {
    if slices == [] then 0.0
    else TakenFrom(slices[..|slices| - 1], node)
         + if slices[|slices| - 1].node == node then slices[|slices| - 1].tflops else 0.0
  }

  function Amount(slices: seq<Slice>): real {
    if slices == [] then 0.0 else Amount(slices[..|slices| - 1]) + slices[|slices| - 1].tflops
  }

  /** The nodes after the slices moved capacity from idle to the internal cluster, or to the broker. */
  function Drawn(nodes: Nodes, slices: seq<Slice>, internal: bool): Nodes {
    map k | k in nodes ::
      if internal then nodes[k].(jgCluster := nodes[k].jgCluster + TakenFrom(slices, k), idle := nodes[k].idle - TakenFrom(slices, k))
      else nodes[k].(broker := nodes[k].broker + TakenFrom(slices, k), idle := nodes[k].idle - TakenFrom(slices, k))
  }

  predicate NoNegativeIdle(nodes: Nodes) {
    forall k | k in nodes :: nodes[k].idle >= 0.0
  }

  /** Moving capacity keeps the equation on every node where it held. */
  lemma DrawnBalanced(nodes: Nodes, slices: seq<Slice>, internal: bool, k: Bytes)
    requires k in nodes
    ensures Balanced(Drawn(nodes, slices, internal)[k]) <==> Balanced(nodes[k])
    ensures Drawn(nodes, slices, internal)[k].total == nodes[k].total
    ensures Drawn(nodes, slices, internal)[k].consensus == nodes[k].consensus
  {
  }

  lemma DrawnNothing(nodes: Nodes, internal: bool)
    ensures Drawn(nodes, [], internal) == nodes
  {
  }

  lemma DrawnMore(nodes: Nodes, slices: seq<Slice>, s: Slice, internal: bool)
    requires s.node in nodes
    ensures var before := Drawn(nodes, slices, internal);
            var n := before[s.node];
            Drawn(nodes, slices + [s], internal)
            == before[s.node := if internal then n.(jgCluster := n.jgCluster + s.tflops, idle := n.idle - s.tflops)
                                else n.(broker := n.broker + s.tflops, idle := n.idle - s.tflops)]
  {
    assert (slices + [s])[..|slices|] == slices;
    assert forall k :: TakenFrom(slices + [s], k) == TakenFrom(slices, k) + if s.node == k then s.tflops else 0.0;
  }

  lemma {:induction false} TakenConcat(a: seq<Slice>, b: seq<Slice>, k: Bytes)
    ensures TakenFrom(a + b, k) == TakenFrom(a, k) + TakenFrom(b, k)
  {
    if b == [] {
      assert a + b == a;
    } else {
      assert (a + b)[..|a + b| - 1] == a + b[..|b| - 1];
      TakenConcat(a, b[..|b| - 1], k);
    }
  }

  lemma DrawnConcat(nodes: Nodes, a: seq<Slice>, b: seq<Slice>, internal: bool)
    ensures Drawn(Drawn(nodes, a, internal), b, internal) == Drawn(nodes, a + b, internal)
  {
    forall k | k in nodes
      ensures Drawn(Drawn(nodes, a, internal), b, internal)[k] == Drawn(nodes, a + b, internal)[k]
    {
      TakenConcat(a, b, k);
    }
  }

  // ---------- Choosing a node ----------

  /** A fresh node with spare capacity of the right kind. */
  predicate CanServe(n: Node, min: real, taskType: Bytes, now: int) {
    n.heartbeat >= now - 60 && n.idle > 0.0 && n.idle >= min && taskType in n.types
  }

  ghost predicate NobodyServes(nodes: Nodes, min: real, taskType: Bytes, now: int) {
    forall k | k in nodes :: !CanServe(nodes[k], min, taskType, now)
  }

  ghost predicate IsBest(nodes: Nodes, min: real, taskType: Bytes, now: int, best: Option<Bytes>) {
    if best.None? then NobodyServes(nodes, min, taskType, now)
    else
      && best.value in nodes && CanServe(nodes[best.value], min, taskType, now)
      && forall k | k in nodes && CanServe(nodes[k], min, taskType, now) :: nodes[k].idle <= nodes[best.value].idle
  }

  /** The best node: seen within the last minute, able to do the work, with some idle capacity and at least the
      minimum, and no other such node has more idle; none exactly when there is no such node. */
  lemma BestMeans(nodes: Nodes, min: real, taskType: Bytes, now: int, best: Option<Bytes>)
    requires IsBest(nodes, min, taskType, now, best)
    ensures forall k | k in nodes ::
              var fits := nodes[k].heartbeat >= now - 60 && nodes[k].idle > 0.0 && nodes[k].idle >= min
                          && taskType in nodes[k].types;
              && (fits ==> best.Some? && best.value in nodes && nodes[best.value].idle >= nodes[k].idle)
              && (best == Some(k) ==> fits)
    ensures best.Some? ==> best.value in nodes
  {
  }

  function Least(a: real, b: real): real {
    if a < b then a else b
  }

  /** Slice i of a bid, when the earlier ones are taken: from the best node then, as much as that has idle or the
      bid still lacks. */
  ghost predicate TakenAt(before: Nodes, slices: seq<Slice>, bid: Bid, now: int, i: nat)
    requires i < |slices|
  {
    var at, s := Drawn(before, slices[..i], false), slices[i];
    && IsBest(at, bid.minTflops, bid.taskType, now, Some(s.node))
    && s.tflops == Least(at[s.node].idle, bid.totalTflops - Amount(slices[..i]))
  }

  ghost predicate TakesBest(before: Nodes, slices: seq<Slice>, bid: Bid, now: int) {
    forall i {:trigger slices[i]} | 0 <= i < |slices| :: TakenAt(before, slices, bid, now, i)
  }

  lemma TakesMore(before: Nodes, slices: seq<Slice>, s: Slice, bid: Bid, now: int)
    requires TakesBest(before, slices, bid, now)
    requires var at := Drawn(before, slices, false);
             && IsBest(at, bid.minTflops, bid.taskType, now, Some(s.node))
             && s.tflops == Least(at[s.node].idle, bid.totalTflops - Amount(slices))
    ensures TakesBest(before, slices + [s], bid, now)
  {
    hide IsBest, Drawn, Amount;
    var more := slices + [s];
    forall i | 0 <= i < |more|
      ensures TakenAt(before, more, bid, now, i)
    {
      if i < |slices| {
        assert more[..i] == slices[..i] && more[i] == slices[i];
        assert TakenAt(before, slices, bid, now, i);
      } else {
        assert more[..i] == slices;
      }
    }
  }

  /** Bid after bid, each from what the earlier bids left. */
  ghost predicate PartsTakeBest(before: Nodes, bids: seq<Bid>, parts: seq<seq<Slice>>, now: int) {
    && |parts| <= |bids|
    && forall i {:trigger parts[i]} | 0 <= i < |parts| :: TakesBest(Drawn(before, Flat(parts[..i]), false), parts[i], bids[i], now)
  }

  lemma PartsTakeMore(before: Nodes, bids: seq<Bid>, parts: seq<seq<Slice>>, slices: seq<Slice>, now: int)
    requires PartsTakeBest(before, bids, parts, now) && |parts| < |bids|
    requires TakesBest(Drawn(before, Flat(parts), false), slices, bids[|parts|], now)
    ensures PartsTakeBest(before, bids, parts + [slices], now)
  {
    hide TakesBest, Drawn, Flat;
    var more := parts + [slices];
    assert more[..|parts|] == parts;
    assert forall i | 0 <= i < |parts| :: more[..i] == parts[..i] && more[i] == parts[i];
  }

  /** Fallback work: a live fallback bid takes all that a node seen less than a minute ago had idle, one unit or
      more, and no node twice. */
  ghost predicate FallsBack(before: Nodes, book: map<Bytes, Bid>, slices: seq<Slice>, now: int) {
    && (forall s | s in slices ::
          && s.node in before && before[s.node].heartbeat > now - 60
          && s.tflops == before[s.node].idle >= 1.0
          && exists b :: b in book.Values && b.isFallback && b.expiresAt > now && b.bidId == s.bidId)
    && forall i, j | 0 <= i < j < |slices| :: slices[i].node != slices[j].node
  }

  lemma FallsMore(before: Nodes, book: map<Bytes, Bid>, slices: seq<Slice>, s: Slice, b: Bid, now: int)
    requires FallsBack(before, book, slices, now) && forall t | t in slices :: t.node != s.node
    requires s.node in before && before[s.node].heartbeat > now - 60 && s.tflops == before[s.node].idle >= 1.0
    requires b in book.Values && b.isFallback && b.expiresAt > now && b.bidId == s.bidId
    ensures FallsBack(before, book, slices + [s], now)
  {
  }

  /** Between two nodes of the fallback phase: nothing was taken yet from the pending ones, and the fresh ones that
      are done have no whole unit idle. */
  ghost predicate FallbackSoFar(before: Nodes, nodes: Nodes, pending: set<Bytes>, slices: seq<Slice>,
                                book: map<Bytes, Bid>, now: int) {
    && nodes == Drawn(before, slices, false) && NoNegativeIdle(nodes) && FallsBack(before, book, slices, now)
    && nodes.Keys == before.Keys && pending <= nodes.Keys
    && (forall k | k in pending :: nodes[k].idle == before[k].idle && before[k].heartbeat > now - 60)
    && (forall s | s in slices :: s.node !in pending)
    && (forall k | k in nodes :: nodes[k].heartbeat == before[k].heartbeat)
    && (forall k | k in nodes && k !in pending && nodes[k].heartbeat > now - 60 :: nodes[k].idle < 1.0)
  }

  lemma FallbackStart(nodes: Nodes, pending: set<Bytes>, book: map<Bytes, Bid>, now: int)
    requires NoNegativeIdle(nodes)
    requires pending == set k | k in nodes && nodes[k].idle > 0.0 && nodes[k].heartbeat > now - 60
    ensures FallbackSoFar(nodes, nodes, pending, [], book, now)
  {
    DrawnNothing(nodes, false);
    hide Drawn;
  }

  lemma FallbackNext(before: Nodes, nodes: Nodes, pending: set<Bytes>, slices: seq<Slice>, book: map<Bytes, Bid>, now: int,
                     k: Bytes, b: Bid)
    requires FallbackSoFar(before, nodes, pending, slices, book, now) && k in pending
    requires b in book.Values && b.isFallback && b.expiresAt > now
    ensures k in nodes
    ensures var s := Slice(b.bidId, k, nodes[k].idle);
            if nodes[k].idle >= 1.0
            then FallbackSoFar(before, Drawn(nodes, [s], false), pending - {k}, slices + [s], book, now)
            else FallbackSoFar(before, nodes, pending - {k}, slices, book, now)
  {
    hide Drawn, FallsBack;
    if nodes[k].idle >= 1.0 {
      var s := Slice(b.bidId, k, nodes[k].idle);
      DrawnConcat(before, slices, [s], false);
      DrawnIdle(nodes, s, false);
      DrawnKeepsFresh(nodes, s);
      FallsMore(before, book, slices, s, b, now);
    }
  }

  lemma FallbackDone(before: Nodes, nodes: Nodes, slices: seq<Slice>, book: map<Bytes, Bid>, now: int)
    requires FallbackSoFar(before, nodes, {}, slices, book, now)
    ensures nodes == Drawn(before, slices, false) && NoNegativeIdle(nodes) && FallsBack(before, book, slices, now)
    ensures forall k | k in nodes && nodes[k].heartbeat > now - 60 :: nodes[k].idle < 1.0
  {
    hide Drawn, FallsBack;
  }

  lemma FallbackPositive(before: Nodes, book: map<Bytes, Bid>, slices: seq<Slice>, now: int)
    requires FallsBack(before, book, slices, now)
    ensures forall s | s in slices :: s.tflops >= 0.0
  {
  }

  /** Slice i of the queue: its task's demand, from the best node once the earlier slices are taken. */
  ghost predicate TasksTakeBest(before: Nodes, slices: seq<Slice>, queue: seq<Task>, now: int) {
    && |slices| <= |queue|
    && forall i {:trigger slices[i]} | 0 <= i < |slices| ::
         && slices[i].bidId == JG_INTERNAL + queue[i].taskId && slices[i].tflops == queue[i].required
         && IsBest(Drawn(before, slices[..i], true), queue[i].required, queue[i].taskType, now, Some(slices[i].node))
  }

  lemma TasksTakeMore(before: Nodes, slices: seq<Slice>, s: Slice, queue: seq<Task>, now: int)
    requires TasksTakeBest(before, slices, queue, now) && |slices| < |queue|
    requires var task := queue[|slices|];
             && s.bidId == JG_INTERNAL + task.taskId && s.tflops == task.required
             && IsBest(Drawn(before, slices, true), task.required, task.taskType, now, Some(s.node))
    ensures TasksTakeBest(before, slices + [s], queue, now)
  {
    hide IsBest, Drawn;
    var more := slices + [s];
    assert more[..|slices|] == slices;
    assert forall i | 0 <= i < |slices| :: more[..i] == slices[..i] && more[i] == slices[i];
  }

  /** Capacity only shrinks, so whoever could not serve still cannot. */
  predicate Shrunk(before: Nodes, after: Nodes) {
    before.Keys == after.Keys
    && forall k | k in before ::
         after[k].idle <= before[k].idle && after[k].types == before[k].types && after[k].heartbeat == before[k].heartbeat
  }

  lemma StillNobody(before: Nodes, after: Nodes, min: real, taskType: Bytes, now: int)
    requires Shrunk(before, after) && NobodyServes(before, min, taskType, now)
    ensures NobodyServes(after, min, taskType, now)
  {
  }

  lemma {:induction false} TakenNonNegative(slices: seq<Slice>, k: Bytes)
    requires forall s | s in slices :: s.tflops >= 0.0
    ensures TakenFrom(slices, k) >= 0.0
  {
    if slices != [] {
      assert slices[|slices| - 1] in slices;
      TakenNonNegative(slices[..|slices| - 1], k);
    }
  }

  lemma DrawnShrinks(nodes: Nodes, slices: seq<Slice>, internal: bool)
    requires forall s | s in slices :: s.tflops >= 0.0
    ensures Shrunk(nodes, Drawn(nodes, slices, internal))
  {
    forall k | k in nodes
      ensures TakenFrom(slices, k) >= 0.0
    {
      TakenNonNegative(slices, k);
    }
  }

  /** One bid's slices: all its own, positive, at most one per node, never more than it asked for. */
  ghost predicate OnePerNode(slices: seq<Slice>, bid: Bid) {
    && (forall i | 0 <= i < |slices| :: slices[i].bidId == bid.bidId && slices[i].tflops > 0.0)
    && (forall i, j | 0 <= i < j < |slices| :: slices[i].node != slices[j].node)
    && (slices != [] ==> Amount(slices) <= bid.totalTflops)
  }

  /** The bid got everything it asked for, or nobody could serve it any more. */
  ghost predicate Exhausted(slices: seq<Slice>, bid: Bid, nodes: Nodes, now: int) {
    Amount(slices) >= bid.totalTflops || NobodyServes(nodes, bid.minTflops, bid.taskType, now)
  }

  /** Every slice left its node nothing idle, but for a last one that completed the bid. */
  ghost predicate Drains(slices: seq<Slice>, bid: Bid, nodes: Nodes) {
    forall i | 0 <= i < |slices| ::
      && slices[i].node in nodes
      && (nodes[slices[i].node].idle == 0.0 || (i == |slices| - 1 && Amount(slices) == bid.totalTflops))
  }

  function Busy(nodes: Nodes): set<Bytes> {
    set k | k in nodes && nodes[k].idle > 0.0
  }

  /** What accepted bids satisfy. */
  predicate BidOk(b: Bid) {
    b.price > 0 && b.totalTflops > 0.0 && b.minTflops > 0.0
  }

  predicate IsCommercial(b: Bid, now: int) {
    !b.isFallback && b.expiresAt > now
  }

  predicate IsFallback(b: Bid, now: int) {
    b.isFallback && b.expiresAt > now
  }

  predicate PricierFirst(a: Bid, b: Bid) {
    a.price >= b.price
  }

  /** Slices of several bids, bid after bid. */
  ghost predicate PerBid(bids: seq<Bid>, parts: seq<seq<Slice>>) {
    |parts| == |bids| && forall i | 0 <= i < |bids| :: OnePerNode(parts[i], bids[i])
  }

  function Flat(parts: seq<seq<Slice>>): seq<Slice> {
    if parts == [] then [] else Flat(parts[..|parts| - 1]) + parts[|parts| - 1]
  }

  // ---------- The broker ----------

  class ComputeBroker {
    var nodes: Nodes
    var orderBook: map<Bytes, Bid>
    var queue: seq<Task>
    var assignments: seq<Slice>

    constructor ()
      ensures nodes == map[] && orderBook == map[] && queue == [] && assignments == []
    {
      nodes, orderBook, queue, assignments := map[], map[], [], [];
    }

    method RegisterNode(key: Bytes, capacity: Node)
      modifies this`nodes
      ensures nodes == old(nodes)[key := Registered(capacity)]
    {
      var free := capacity.total - capacity.consensus - capacity.jgCluster - capacity.broker;
      nodes := nodes[key := capacity.(idle := if free > 0.0 then free else 0.0)];
    }

    method FindBestNodeForTask(min: real, taskType: Bytes, now: int) returns (best: Option<Bytes>)
      ensures IsBest(nodes, min, taskType, now, best)
    {
      best := None;
      var rest := nodes.Keys;
      while rest != {}
        invariant rest <= nodes.Keys && IsBest(nodes - rest, min, taskType, now, best)
        decreases |rest|
      {
        var key :| key in rest;
        var node := nodes[key];
        BestNext(nodes, rest, key, min, taskType, now, best);
        rest := rest - {key};
        if node.heartbeat >= now - 60 && node.idle > 0.0 && node.idle >= min && taskType in node.types {
          if best.None? || node.idle > nodes[best.value].idle {
            best := Some(key);
          }
        }
      }
      assert nodes - rest == nodes;
    }

    method Assign(bidId: Bytes, node: Bytes, tflops: real, internal: bool)
      requires node in nodes && tflops <= nodes[node].idle
      modifies this`nodes, this`assignments
      ensures assignments == old(assignments) + [Slice(bidId, node, tflops)]
      ensures nodes == Drawn(old(nodes), [Slice(bidId, node, tflops)], internal)
    {
      assignments := assignments + [Slice(bidId, node, tflops)];
      var n := nodes[node];
      var left := n.idle - tflops;
      n := n.(idle := if left > 0.0 then left else 0.0);
      n := if internal then n.(jgCluster := n.jgCluster + tflops) else n.(broker := n.broker + tflops);
      DrawnNothing(nodes, internal);
      DrawnMore(nodes, [], Slice(bidId, node, tflops), internal);
      assert [] + [Slice(bidId, node, tflops)] == [Slice(bidId, node, tflops)];
      nodes := nodes[node := n];
    }

    /** Phase 1: tasks in queue order, until the head of the queue fits nowhere. */
    method AllocateJGClusterTasks(now: int) returns (ghost slices: seq<Slice>)
      requires NoNegativeIdle(nodes)
      modifies this`nodes, this`assignments, this`queue
      ensures assignments == old(assignments) + slices && nodes == Drawn(old(nodes), slices, true) && NoNegativeIdle(nodes)
      ensures TasksTakeBest(old(nodes), slices, old(queue), now) && queue == old(queue)[|slices|..]
      ensures queue != [] ==> NobodyServes(nodes, queue[0].required, queue[0].taskType, now)
    {
      slices := [];
      DrawnNothing(nodes, true);
      while |queue| > 0
        invariant assignments == old(assignments) + slices && nodes == Drawn(old(nodes), slices, true) && NoNegativeIdle(nodes)
        invariant TasksTakeBest(old(nodes), slices, old(queue), now) && queue == old(queue)[|slices|..]
        decreases |queue|
      {
        var task := queue[0];
        var best := FindBestNodeForTask(task.required, task.taskType, now);
        if best.None? {
          return;
        }
        ghost var s := Slice(JG_INTERNAL + task.taskId, best.value, task.required);
        DrawnConcat(old(nodes), slices, [s], true);
        DrawnIdle(nodes, s, true);
        TasksTakeMore(old(nodes), slices, s, old(queue), now);
        Assign(JG_INTERNAL + task.taskId, best.value, task.required, true);
        slices := slices + [s];
        queue := queue[1..];
      }
    }

    /** The slices of one bid: each but the last exhausts its node, and the last its node or the bid. */
    method AllocateBid(bid: Bid, now: int) returns (ghost slices: seq<Slice>)
      requires NoNegativeIdle(nodes) && BidOk(bid)
      modifies this`nodes, this`assignments
      ensures assignments == old(assignments) + slices && nodes == Drawn(old(nodes), slices, false) && NoNegativeIdle(nodes)
      ensures OnePerNode(slices, bid) && Exhausted(slices, bid, nodes, now) && Drains(slices, bid, nodes)
      ensures TakesBest(old(nodes), slices, bid, now)
    {
      hide BidSoFar, NoNegativeIdle, Drawn, Busy, OnePerNode, Exhausted, Drains, TakesBest, NobodyServes;
      slices := [];
      BidStart(nodes, bid, now);
      var remaining := bid.totalTflops;
      while remaining > 0.0
        invariant assignments == old(assignments) + slices
        invariant BidSoFar(old(nodes), nodes, slices, bid, now, remaining)
        decreases remaining > 0.0, |Busy(nodes)|
      {
        var best := FindBestNodeForTask(bid.minTflops, bid.taskType, now);
        if best.None? {
          BidDone(old(nodes), nodes, slices, bid, now, remaining);
          return;
        }
        var idle := nodes[best.value].idle;
        var share := if idle < remaining then idle else remaining;
        BidNext(old(nodes), nodes, slices, bid, now, remaining, best.value);
        Assign(bid.bidId, best.value, share, false);
        slices := slices + [Slice(bid.bidId, best.value, share)];
        remaining := remaining - share;
      }
      BidDone(old(nodes), nodes, slices, bid, now, remaining);
    }

    /** Phase 2: bids in falling price, each after the other. */
    method AllocateCommercialBids(bids: seq<Bid>, now: int) returns (ghost parts: seq<seq<Slice>>)
      requires NoNegativeIdle(nodes) && forall b | b in bids :: BidOk(b)
      modifies this`nodes, this`assignments
      ensures assignments == old(assignments) + Flat(parts) && nodes == Drawn(old(nodes), Flat(parts), false)
      ensures NoNegativeIdle(nodes) && |parts| == |bids| && PerBid(bids, parts)
      ensures PartsTakeBest(old(nodes), bids, parts, now)
      ensures forall i | 0 <= i < |bids| :: Exhausted(parts[i], bids[i], nodes, now) && Drains(parts[i], bids[i], nodes)
    {
      hide Drawn, NoNegativeIdle, OnePerNode, Exhausted, Drains, BidOk, Flat, TakesBest, PartsTakeBest;
      parts := [];
      DrawnNothing(nodes, false);
      FlatNothing(nodes, bids, now);
      var n := 0;
      while n < |bids|
        invariant n <= |bids| && |parts| == n && PartsTakeBest(old(nodes), bids, parts, now)
        invariant assignments == old(assignments) + Flat(parts) && nodes == Drawn(old(nodes), Flat(parts), false)
        invariant NoNegativeIdle(nodes) && forall i | 0 <= i < n :: OnePerNode(parts[i], bids[i])
        invariant forall i | 0 <= i < n :: Exhausted(parts[i], bids[i], nodes, now) && Drains(parts[i], bids[i], nodes)
      {
        ghost var before := nodes;
        var slices := AllocateBid(bids[n], now);
        StillExhausted(before, slices, bids[n], bids[..n], parts, now);
        DrawnConcat(old(nodes), Flat(parts), slices, false);
        PartsTakeMore(old(nodes), bids, parts, slices, now);
        FlatMore(parts, slices);
        parts := parts + [slices];
        n := n + 1;
      }
    }

    /** Phase 3: what is left idle on a fresh node goes to a fallback task chosen at random. */
    method AllocateScientificFallback(random: nat -> nat, now: int) returns (ghost slices: seq<Slice>)
      requires NoNegativeIdle(nodes) && Injective(orderBook)
      modifies this`nodes, this`assignments
      ensures assignments == old(assignments) + slices && nodes == Drawn(old(nodes), slices, false) && NoNegativeIdle(nodes)
      ensures FallsBack(old(nodes), orderBook, slices, now)
      ensures (forall b | b in orderBook.Values :: !IsFallback(b, now)) ==> slices == []
      ensures (exists b :: b in orderBook.Values && IsFallback(b, now)) ==>
                forall k | k in nodes && nodes[k].heartbeat > now - 60 :: nodes[k].idle < 1.0
    {
      hide Drawn, NoNegativeIdle;
      slices := [];
      DrawnNothing(nodes, false);
      assert FallsBack(nodes, orderBook, slices, now);
      hide FallsBack, Injective;
      var fallbacks := FallbackBids(now);
      if |fallbacks| == 0 {
        return;
      }
      assert fallbacks[0] in fallbacks;
      var pending := set k | k in nodes && nodes[k].idle > 0.0 && nodes[k].heartbeat > now - 60;
      FallbackStart(nodes, pending, orderBook, now);
      hide FallbackSoFar;
      var round := 0;
      while pending != {}
        invariant assignments == old(assignments) + slices
        invariant FallbackSoFar(old(nodes), nodes, pending, slices, orderBook, now)
        decreases |pending|
      {
        var k :| k in pending;
        var fallback := fallbacks[random(round) % |fallbacks|];
        round := round + 1;
        FallbackNext(old(nodes), nodes, pending, slices, orderBook, now, k, fallback);
        pending := pending - {k};
        if nodes[k].idle >= 1.0 {
          slices := slices + [Slice(fallback.bidId, k, nodes[k].idle)];
          Assign(fallback.bidId, k, nodes[k].idle, false);
        }
      }
      FallbackDone(old(nodes), nodes, slices, orderBook, now);
    }

    method FallbackBids(now: int) returns (bids: seq<Bid>)
      requires Injective(orderBook)
      ensures forall b :: b in bids <==> b in orderBook.Values && IsFallback(b, now)
    {
      var all := MapValues(orderBook);
      ListedElements(orderBook.Values, all);
      bids := [];
      var i := 0;
      while i < |all|
        invariant i <= |all| && forall b :: b in bids <==> b in all[..i] && IsFallback(b, now)
      {
        assert all[..i + 1] == all[..i] + [all[i]];
        if IsFallback(all[i], now) {
          bids := bids + [all[i]];
        }
        i := i + 1;
      }
      assert all[..i] == all;
      assert forall b :: b in all <==> b in Elements(all);
    }

    /** The commercial bids of the order book, by falling price. */
    method SortedBids(now: int) returns (bids: seq<Bid>)
      requires Injective(orderBook)
      ensures forall b :: b in bids <==> b in orderBook.Values && IsCommercial(b, now)
      ensures SortedBy(PricierFirst, bids)
    {
      var all := MapValues(orderBook);
      ListedElements(orderBook.Values, all);
      bids := [];
      var i := 0;
      while i < |all|
        invariant i <= |all| && forall b :: b in bids <==> b in all[..i] && IsCommercial(b, now)
      {
        assert all[..i + 1] == all[..i] + [all[i]];
        if IsCommercial(all[i], now) {
          bids := bids + [all[i]];
        }
        i := i + 1;
      }
      assert all[..i] == all;
      assert forall b :: b in all <==> b in Elements(all);
      PriceSorted(bids);
      bids := Sort(PricierFirst, bids);
    }

    /** One cycle over fresh nodes and live bids. Capacity moves and is never lost; the queue is served
        first; bids are served by price, each at most once per node and draining every node it takes but
        for the one that completes it; whoever is left waiting could not be served by anybody, then or
        after the cycle; and no fresh node keeps a whole idle unit when a fallback task exists. */
    method RunAllocationCycle(random: nat -> nat, now: int)
      returns (ghost internal: seq<Slice>, bids: seq<Bid>, ghost parts: seq<seq<Slice>>, ghost fallback: seq<Slice>)
      requires NoNegativeIdle(nodes) && Injective(orderBook) && forall b | b in orderBook.Values :: BidOk(b)
      modifies this`nodes, this`assignments, this`queue
      ensures assignments == old(assignments) + internal + Flat(parts) + fallback
      ensures nodes == Drawn(Drawn(old(nodes), internal, true), Flat(parts) + fallback, false)
      ensures NoNegativeIdle(nodes)
      ensures PerBid(bids, parts) && forall b :: b in bids <==> b in orderBook.Values && !b.isFallback && b.expiresAt > now
      ensures forall i, j | 0 <= i < j < |bids| :: bids[i].price >= bids[j].price
      ensures TasksTakeBest(old(nodes), internal, old(queue), now) && queue == old(queue)[|internal|..]
      ensures PartsTakeBest(Drawn(old(nodes), internal, true), bids, parts, now)
      ensures FallsBack(Drawn(Drawn(old(nodes), internal, true), Flat(parts), false), orderBook, fallback, now)
      ensures queue != [] ==> NobodyServes(nodes, queue[0].required, queue[0].taskType, now)
      ensures forall i | 0 <= i < |bids| :: Exhausted(parts[i], bids[i], nodes, now) && Drains(parts[i], bids[i], nodes)
      ensures (exists b :: b in orderBook.Values && IsFallback(b, now)) ==>
                forall k | k in nodes && nodes[k].heartbeat > now - 60 :: nodes[k].idle < 1.0
    {
      hide Drawn, NoNegativeIdle, NobodyServes, Exhausted, Drains, PerBid, OnePerNode, TakesBest, PartsTakeBest, FallsBack,
           TasksTakeBest;
      internal := AllocateJGClusterTasks(now);
      ghost var first := nodes;
      bids := SortedBids(now);
      parts := AllocateCommercialBids(bids, now);
      ghost var second := nodes;
      fallback := AllocateScientificFallback(random, now);
      DrawnConcat(Drawn(old(nodes), internal, true), Flat(parts), fallback, false);
      FlatPositive(bids, parts);
      DrawnShrinks(first, Flat(parts), false);
      FallbackPositive(second, orderBook, fallback, now);
      DrawnShrinks(second, fallback, false);
      if queue != [] {
        StillNobody(first, second, queue[0].required, queue[0].taskType, now);
        StillNobody(second, nodes, queue[0].required, queue[0].taskType, now);
      }
      StillAllExhausted(second, nodes, bids, parts, now);
    }
  }

  // ---------- Steps of the loops ----------

  /** Looking at one more node. */
  lemma BestNext(nodes: Nodes, rest: set<Bytes>, key: Bytes, min: real, taskType: Bytes, now: int, best: Option<Bytes>)
    requires key in rest && rest <= nodes.Keys && IsBest(nodes - rest, min, taskType, now, best)
    ensures var seen := nodes - (rest - {key});
            if CanServe(nodes[key], min, taskType, now) && (best.None? || nodes[key].idle > nodes[best.value].idle)
            then IsBest(seen, min, taskType, now, Some(key)) else IsBest(seen, min, taskType, now, best)
  {
    hide CanServe;
    var before, seen := nodes - rest, nodes - (rest - {key});
    assert forall k :: k in seen <==> k in before || k == key;
  }

  /** A slice within a node's idle capacity leaves nobody with negative idle capacity. */
  lemma DrawnIdle(nodes: Nodes, s: Slice, internal: bool)
    requires NoNegativeIdle(nodes) && s.node in nodes && s.tflops <= nodes[s.node].idle
    ensures var after := Drawn(nodes, [s], internal);
            && NoNegativeIdle(after) && after.Keys == nodes.Keys
            && after[s.node].idle == nodes[s.node].idle - s.tflops
            && (forall k | k in nodes && k != s.node :: after[k] == nodes[k])
            && (s.tflops == nodes[s.node].idle && s.tflops > 0.0 ==> |Busy(after)| < |Busy(nodes)|)
  {
    DrawnNothing(nodes, internal);
    DrawnMore(nodes, [], s, internal);
    assert [] + [s] == [s];
    var after := Drawn(nodes, [s], internal);
    if s.tflops == nodes[s.node].idle && s.tflops > 0.0 {
      assert Busy(nodes) == Busy(after) + {s.node} && s.node !in Busy(after);
    }
  }

  /** Between two slices of a bid. */
  ghost predicate BidSoFar(before: Nodes, nodes: Nodes, slices: seq<Slice>, bid: Bid, now: int, remaining: real) {
    && nodes == Drawn(before, slices, false) && NoNegativeIdle(nodes)
    && remaining == bid.totalTflops - Amount(slices) && remaining >= 0.0
    && OnePerNode(slices, bid) && TakesBest(before, slices, bid, now) && Drained(nodes, slices, remaining)
  }

  /** Every slice left its node nothing idle, unless it was the last and nothing remains to be served. */
  ghost predicate Drained(nodes: Nodes, slices: seq<Slice>, remaining: real) {
    forall i | 0 <= i < |slices| ::
      && slices[i].node in nodes
      && (nodes[slices[i].node].idle == 0.0 || (i == |slices| - 1 && remaining == 0.0))
  }

  lemma DrainedNext(nodes: Nodes, after: Nodes, slices: seq<Slice>, s: Slice, remaining: real)
    requires Drained(nodes, slices, remaining) && remaining > 0.0
    requires s.node in nodes && nodes[s.node].idle > 0.0 && s.tflops == Least(nodes[s.node].idle, remaining)
    requires after.Keys == nodes.Keys && after[s.node].idle == nodes[s.node].idle - s.tflops
    requires forall k | k in nodes && k != s.node :: after[k] == nodes[k]
    ensures Drained(after, slices + [s], remaining - s.tflops)
    ensures forall i | 0 <= i < |slices| :: slices[i].node != s.node
  {
  }

  lemma BidStart(nodes: Nodes, bid: Bid, now: int)
    requires NoNegativeIdle(nodes) && BidOk(bid)
    ensures BidSoFar(nodes, nodes, [], bid, now, bid.totalTflops)
  {
    DrawnNothing(nodes, false);
    hide Drawn, NoNegativeIdle;
  }

  lemma BidNext(before: Nodes, nodes: Nodes, slices: seq<Slice>, bid: Bid, now: int, remaining: real, best: Bytes)
    requires BidSoFar(before, nodes, slices, bid, now, remaining) && remaining > 0.0
    requires IsBest(nodes, bid.minTflops, bid.taskType, now, Some(best))
    ensures best in nodes && nodes[best].idle > 0.0
    ensures var share := Least(nodes[best].idle, remaining);
            var s := Slice(bid.bidId, best, share);
            var after := Drawn(nodes, [s], false);
            && BidSoFar(before, after, slices + [s], bid, now, remaining - share)
            && (remaining - share > 0.0 ==> |Busy(after)| < |Busy(nodes)|)
  {
    hide Drawn, TakesBest, Busy, NoNegativeIdle, Amount, OnePerNode, Drained;
    assert CanServe(nodes[best], bid.minTflops, bid.taskType, now);
    var s := Slice(bid.bidId, best, Least(nodes[best].idle, remaining));
    hide IsBest;
    DrawnConcat(before, slices, [s], false);
    DrawnIdle(nodes, s, false);
    DrainedNext(nodes, Drawn(nodes, [s], false), slices, s, remaining);
    SliceMore(slices, s, bid);
    TakesMore(before, slices, s, bid, now);
  }

  lemma BidDone(before: Nodes, nodes: Nodes, slices: seq<Slice>, bid: Bid, now: int, remaining: real)
    requires BidSoFar(before, nodes, slices, bid, now, remaining)
    requires remaining <= 0.0 || NobodyServes(nodes, bid.minTflops, bid.taskType, now)
    ensures nodes == Drawn(before, slices, false) && NoNegativeIdle(nodes) && TakesBest(before, slices, bid, now)
    ensures OnePerNode(slices, bid) && Exhausted(slices, bid, nodes, now) && Drains(slices, bid, nodes)
  {
    hide Drawn, OnePerNode, TakesBest, NobodyServes, NoNegativeIdle, Amount;
  }

  lemma SliceMore(slices: seq<Slice>, s: Slice, bid: Bid)
    requires OnePerNode(slices, bid) && s.bidId == bid.bidId && s.tflops > 0.0
    requires forall i | 0 <= i < |slices| :: slices[i].node != s.node
    requires Amount(slices) + s.tflops <= bid.totalTflops
    ensures OnePerNode(slices + [s], bid) && Amount(slices + [s]) == Amount(slices) + s.tflops
  {
    assert (slices + [s])[..|slices|] == slices;
  }

  lemma FlatNothing(nodes: Nodes, bids: seq<Bid>, now: int)
    ensures Flat([]) == [] && PartsTakeBest(nodes, bids, [], now)
  {
  }

  lemma FlatMore(parts: seq<seq<Slice>>, slices: seq<Slice>)
    ensures Flat(parts + [slices]) == Flat(parts) + slices
  {
    assert (parts + [slices])[..|parts|] == parts;
  }

  lemma DrawnKeepsFresh(nodes: Nodes, s: Slice)
    requires s.node in nodes
    ensures forall k | k in nodes :: Drawn(nodes, [s], false)[k].heartbeat == nodes[k].heartbeat
  {
  }

  /** Later slices only shrink capacity, so bids that nobody could serve stay unserved. */
  lemma StillAllExhausted(before: Nodes, after: Nodes, bids: seq<Bid>, parts: seq<seq<Slice>>, now: int)
    requires Shrunk(before, after) && NoNegativeIdle(after) && |parts| == |bids|
    requires forall i | 0 <= i < |bids| :: Exhausted(parts[i], bids[i], before, now) && Drains(parts[i], bids[i], before)
    ensures forall i | 0 <= i < |bids| :: Exhausted(parts[i], bids[i], after, now) && Drains(parts[i], bids[i], after)
  {
    hide Shrunk, NobodyServes, NoNegativeIdle, Drains;
    forall i | 0 <= i < |bids|
      ensures Exhausted(parts[i], bids[i], after, now) && Drains(parts[i], bids[i], after)
    {
      StillDrained(before, after, bids[i], parts[i]);
      if NobodyServes(before, bids[i].minTflops, bids[i].taskType, now) {
        StillNobody(before, after, bids[i].minTflops, bids[i].taskType, now);
      }
    }
  }

  /** What is drained cannot shrink any further. */
  lemma StillDrained(before: Nodes, after: Nodes, bid: Bid, slices: seq<Slice>)
    requires Shrunk(before, after) && NoNegativeIdle(after) && Drains(slices, bid, before)
    ensures Drains(slices, bid, after)
  {
  }

  lemma StillExhausted(before: Nodes, slices: seq<Slice>, bid: Bid, bids: seq<Bid>, parts: seq<seq<Slice>>, now: int)
    requires OnePerNode(slices, bid) && |parts| == |bids| && NoNegativeIdle(Drawn(before, slices, false))
    requires forall i | 0 <= i < |bids| :: Exhausted(parts[i], bids[i], before, now) && Drains(parts[i], bids[i], before)
    ensures forall i | 0 <= i < |bids| ::
              && Exhausted(parts[i], bids[i], Drawn(before, slices, false), now)
              && Drains(parts[i], bids[i], Drawn(before, slices, false))
  {
    hide Drawn, Exhausted, Drains, NoNegativeIdle;
    DrawnShrinks(before, slices, false);
    StillAllExhausted(before, Drawn(before, slices, false), bids, parts, now);
  }

  lemma {:induction false} FlatPositive(bids: seq<Bid>, parts: seq<seq<Slice>>)
    requires PerBid(bids, parts)
    ensures forall s | s in Flat(parts) :: s.tflops >= 0.0
  {
    if parts != [] {
      var n := |parts| - 1;
      FlatPositive(bids[..n], parts[..n]);
      assert OnePerNode(parts[n], bids[n]);
    }
  }

  lemma PriceSorted(bids: seq<Bid>)
    ensures forall b :: b in Sort(PricierFirst, bids) <==> b in bids
    ensures SortedBy(PricierFirst, Sort(PricierFirst, bids))
  {
    SortPermutes(PricierFirst, bids);
    SortSorts(PricierFirst, bids);
    forall b
      ensures b in Sort(PricierFirst, bids) <==> b in bids
    {
      assert b in Sort(PricierFirst, bids) <==> b in Elements(Sort(PricierFirst, bids));
      assert b in bids <==> b in Elements(bids);
    }
  }
}

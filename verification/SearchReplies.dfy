/** What the search makes of each answer, said of the network itself: which nodes it takes in, which
    it prunes, which it marks and which peers it finds. */
module SearchReplies {
  import opened U160s
  import opened NodeInfos
  import opened Chains
  import opened Searches
  import opened SearchResults

  /** The reply names the node: as one of the nearest, or beside peers if those are searched for. */
  predicate Names(findPeers: bool, reply: Reply, n: NodeInfo) {
    || (reply.KNearest? && n in reply.nodes)
    || (findPeers && reply.PeerList? && reply.closer.Some? && n in reply.closer.value)
  }

  /** The reply is none that this search can use. */
  predicate Useless(findPeers: bool, reply: Reply) {
    reply.NoAnswer? || reply.OtherKind? || (reply.PeerList? && !findPeers)
  }

  /** Query number `i` went to `n`, and the network replied. */
  predicate Replied(log: seq<Completion>, net: (nat, NodeInfo) -> Reply, i: nat, n: NodeInfo, reply: Reply) {
    i < |log| && log[i].task == Ask(n) && net(i, n) == reply
  }

  lemma {:induction false} ReportedParts(log: seq<Completion>, x: NodeInfo)
    ensures x in Reported(log) <==> exists i :: 0 <= i < |log| && x in NodesOf(log[i].result)
  {
    if log != [] {
      var init := log[..|log| - 1];
      ReportedParts(init, x);
      if x in Reported(init) {
        var i :| 0 <= i < |init| && x in NodesOf(init[i].result);
        assert x in NodesOf(log[i].result);
      }
      if i :| 0 <= i < |log| && x in NodesOf(log[i].result) {
        assert i < |init| ==> x in NodesOf(init[i].result);
      }
    }
  }

  /** The nodes reported to a search are the starting nodes and those that the replies to its queries
      name, and no others. */
  lemma ReportedExactlyWhenNamed(log: seq<Completion>, nodes: seq<NodeInfo>, findPeers: bool, net: (nat, NodeInfo) -> Reply,
                                 x: NodeInfo)
    requires Answers(log, nodes, findPeers, net)
    ensures x in Reported(log) <==>
      || (log != [] && log[0].task == Initial(nodes) && x in nodes)
      || exists i: nat, n, reply :: Replied(log, net, i, n, reply) && Names(findPeers, reply, x)
  {
    ReportedParts(log, x);
    if i :| 0 <= i < |log| && x in NodesOf(log[i].result) {
      assert AnsweredBy(log[i], i, nodes, findPeers, net);
      if log[i].task.Ask? {
        assert Replied(log, net, i, log[i].task.node, net(i, log[i].task.node));
      }
    }
    forall i: nat, n, reply | Replied(log, net, i, n, reply) && Names(findPeers, reply, x) ensures x in Reported(log) {
      assert AnsweredBy(log[i], i, nodes, findPeers, net);
      assert x in NodesOf(log[i].result);
    }
    if log != [] { assert AnsweredBy(log[0], 0, nodes, findPeers, net); }
  }

  /** No answer is thrown away: every node that a reply names is seen, up to its address, or 17 seen
      nodes are nearer; so is every starting node. */
  lemma NamedIsTakenIn(dist: U160 -> nat, valid: NodeInfo -> bool, findPeers: bool, nodes: seq<NodeInfo>,
                       net: (nat, NodeInfo) -> Reply, seen: seq<NodeInfo>, log: seq<Completion>, tasks: seq<Task>,
                       ignore: set<NodeInfo>, peers: set<SocketAddr>, i: nat, n: NodeInfo, x: NodeInfo)
    requires Between(dist, valid, findPeers, nodes, net, seen, log, tasks, ignore, peers)
    requires i < |log|
    requires log[i].task == Initial(nodes) ==> x in nodes
    requires log[i].task.Ask? ==> log[i].task == Ask(n) && Names(findPeers, net(i, n), x)
    ensures HasId(seen, x.id) || (|seen| >= 17 && forall j :: 0 <= j < 17 ==> dist(seen[j].id) < dist(x.id))
  {
    assert AnsweredBy(log[i], i, nodes, findPeers, net);
    ReportedParts(log, x);
    assert x in NodesOf(log[i].result);
    assert KeptOrBeaten(dist, seen, x);
  }

  /** A node is marked exactly when its reply was none, of another kind, or peers in a search for
      nodes. */
  lemma MarkedExactlyWhen(log: seq<Completion>, nodes: seq<NodeInfo>, findPeers: bool, net: (nat, NodeInfo) -> Reply, n: NodeInfo)
    requires Answers(log, nodes, findPeers, net)
    ensures n in Unresponsive(log) <==>
      exists i: nat, reply :: Replied(log, net, i, n, reply) && Useless(findPeers, reply)
  {
    if n in Unresponsive(log) {
      var i :| 0 <= i < |log| && log[i].result.RemoveOne? && log[i].result.node == n;
      assert AnsweredBy(log[i], i, nodes, findPeers, net);
      assert Replied(log, net, i, n, net(i, n));
    }
    forall i: nat, reply | Replied(log, net, i, n, reply) && Useless(findPeers, reply) ensures n in Unresponsive(log) {
      assert AnsweredBy(log[i], i, nodes, findPeers, net);
    }
  }

  lemma {:induction false} PeerParts(log: seq<Completion>, p: SocketAddr)
    ensures p in AllPeers(log) <==> exists i :: 0 <= i < |log| && p in PeersOf(log[i].result)
  {
    if log != [] {
      var init := log[..|log| - 1];
      PeerParts(init, p);
      if p in AllPeers(init) {
        var i :| 0 <= i < |init| && p in PeersOf(init[i].result);
        assert p in PeersOf(log[i].result);
      }
      if i :| 0 <= i < |log| && p in PeersOf(log[i].result) {
        assert i < |init| ==> p in PeersOf(init[i].result);
      }
    }
  }

  /** The peers found are exactly those of the replies, in a search for peers. */
  lemma FoundExactlyWhenReplied(log: seq<Completion>, nodes: seq<NodeInfo>, findPeers: bool, net: (nat, NodeInfo) -> Reply,
                                p: SocketAddr)
    requires Answers(log, nodes, findPeers, net)
    ensures p in AllPeers(log) <==>
      exists i: nat, n, reply :: Replied(log, net, i, n, reply) && findPeers && reply.PeerList? && p in reply.peers
  {
    PeerParts(log, p);
    if i :| 0 <= i < |log| && p in PeersOf(log[i].result) {
      assert AnsweredBy(log[i], i, nodes, findPeers, net);
      assert Replied(log, net, i, log[i].task.node, net(i, log[i].task.node));
    }
    forall i: nat, n, reply | Replied(log, net, i, n, reply) && findPeers && reply.PeerList? && p in reply.peers
      ensures p in AllPeers(log)
    {
      assert AnsweredBy(log[i], i, nodes, findPeers, net);
      assert p in PeersOf(log[i].result);
    }
  }

  // ----- pruning -----

  /** The seen nodes that are strictly nearer than one. */
  function NearerSeen(dist: U160 -> nat, seen: seq<NodeInfo>, n: NodeInfo): set<NodeInfo> {
    set m | m in seen && dist(m.id) < dist(n.id)
  }

  lemma NearerGrows(dist: U160 -> nat, seen: seq<NodeInfo>, last: NodeInfo, n: NodeInfo)
    requires Sorted(dist, seen + [last])
    ensures |NearerSeen(dist, seen + [last], n)|
         == |NearerSeen(dist, seen, n)| + if dist(last.id) < dist(n.id) then 1 else 0
  {
    var longer, before := seen + [last], NearerSeen(dist, seen, n);
    forall i | 0 <= i < |seen| ensures seen[i] != last {
      assert dist(longer[i].id) < dist(longer[|seen|].id);
    }
    assert last !in before;
    assert NearerSeen(dist, longer, n) == if dist(last.id) < dist(n.id) then before + {last} else before;
  }

  lemma {:induction false} PositionCounts(dist: U160 -> nat, seen: seq<NodeInfo>, n: NodeInfo)
    requires Sorted(dist, seen)
    ensures |NearerSeen(dist, seen, n)| == Position(dist, seen, n)
  {
    if seen == [] {
      assert NearerSeen(dist, seen, n) == {};
    } else {
      var init, last := seen[..|seen| - 1], seen[|seen| - 1];
      assert seen == init + [last];
      PositionCounts(dist, init, n);
      NearerGrows(dist, init, last, n);
      if dist(last.id) < dist(n.id) { AllNearer(dist, init, n); }
    }
  }

  lemma AllNearer(dist: U160 -> nat, seen: seq<NodeInfo>, n: NodeInfo)
    requires forall i :: 0 <= i < |seen| ==> dist(seen[i].id) < dist(n.id)
    ensures Position(dist, seen, n) == |seen|
  {
  }

  lemma {:induction false} SeenIsSorted(dist: U160 -> nat, reported: seq<NodeInfo>)
    ensures Sorted(dist, SeenFrom(dist, reported))
  {
    if reported != [] {
      var seen, n := SeenFrom(dist, reported[..|reported| - 1]), reported[|reported| - 1];
      SeenIsSorted(dist, reported[..|reported| - 1]);
      if !Occupied(dist, seen, n) { InsertSorts(dist, seen, n); }
    }
  }

  /** Pruning, exactly: a reported node is taken in when its identifier is new and at most 16 seen
      nodes are nearer; otherwise nothing changes. */
  lemma TakenInExactlyWhen(dist: U160 -> nat, reported: seq<NodeInfo>, n: NodeInfo)
    requires Separates(dist)
    ensures var seen, after := SeenFrom(dist, reported), SeenFrom(dist, reported + [n]);
      multiset(after) == multiset(seen)
        + if !HasId(seen, n.id) && |NearerSeen(dist, seen, n)| <= 16 then multiset{n} else multiset{}
  {
    var seen := SeenFrom(dist, reported);
    assert (reported + [n])[..|reported|] == reported;
    SeenIsSorted(dist, reported);
    OccupiedMeansSeen(dist, seen, n);
    PositionCounts(dist, seen, n);
    if !Occupied(dist, seen, n) { InsertCounts(dist, seen, n); }
    if |seen| > BOUND && Position(dist, seen, n) > 16 {
      assert dist(seen[16].id) <= dist(seen[Position(dist, seen, n) - 1].id);
    }
  }

  /** The node was taken in when it was reported as number `i`. */
  ghost predicate TakenInAt(dist: U160 -> nat, reported: seq<NodeInfo>, i: nat, n: NodeInfo) {
    && i < |reported| && reported[i] == n
    && !HasId(SeenFrom(dist, reported[..i]), n.id) && |NearerSeen(dist, SeenFrom(dist, reported[..i]), n)| <= 16
  }

  lemma {:induction false} SeenExactlyWhenTakenIn(dist: U160 -> nat, reported: seq<NodeInfo>, n: NodeInfo)
    requires Separates(dist)
    ensures n in SeenFrom(dist, reported) <==> exists i: nat :: TakenInAt(dist, reported, i, n)
  {
    if reported != [] {
      var init, last := reported[..|reported| - 1], reported[|reported| - 1];
      assert reported == init + [last];
      SeenExactlyWhenTakenIn(dist, init, n);
      TakenInExactlyWhen(dist, init, last);
      forall i: nat | i < |init| ensures TakenInAt(dist, init, i, n) <==> TakenInAt(dist, reported, i, n) {
        assert init[..i] == reported[..i];
      }
      assert n in SeenFrom(dist, reported) <==> n in multiset(SeenFrom(dist, reported));
      assert n in SeenFrom(dist, init) <==> n in multiset(SeenFrom(dist, init));
      assert TakenInAt(dist, reported, |init|, n) <==>
        last == n && !HasId(SeenFrom(dist, init), n.id) && |NearerSeen(dist, SeenFrom(dist, init), n)| <= 16;
    }
  }

  /** A node was queried exactly when its identifier is valid and, at some time that it was reported,
      new, with at most 16 nearer nodes seen by then. */
  lemma QueriedExactlyWhen(dist: U160 -> nat, valid: NodeInfo -> bool, findPeers: bool, nodes: seq<NodeInfo>,
                           net: (nat, NodeInfo) -> Reply, seen: seq<NodeInfo>, log: seq<Completion>,
                           ignore: set<NodeInfo>, peers: set<SocketAddr>, n: NodeInfo)
    requires Separates(dist) && Between(dist, valid, findPeers, nodes, net, seen, log, [], ignore, peers)
    ensures n in Asked(log) <==> valid(n) && exists i: nat :: TakenInAt(dist, Reported(log), i, n)
  {
    AskedExactlyWhenSeen(dist, valid, findPeers, nodes, net, seen, log, ignore, peers, n);
    SeenExactlyWhenTakenIn(dist, Reported(log), n);
  }
}

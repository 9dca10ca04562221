/** What the iterative search guarantees, whatever the network answers and in whatever order. */
module SearchResults {
  import opened U160s
  import opened NodeInfos
  import opened Chains
  import opened Searches

  function Ids(nodes: seq<NodeInfo>): set<U160> {
    set n | n in nodes :: n.id
  }

  function IdsOf(nodes: set<NodeInfo>): set<U160> {
    set n | n in nodes :: n.id
  }

  // ----- the reference: the nearest of a set of identifiers -----

  ghost predicate Nearer(dist: U160 -> nat, s: seq<NodeInfo>, id: U160) {
    forall n :: n in s ==> dist(n.id) < dist(id)
  }

  /** `s` lists nodes for the `m` nearest of `ids`, or for all if there are fewer, by increasing
      distance. */
  ghost predicate NearestOf(dist: U160 -> nat, s: seq<NodeInfo>, ids: set<U160>, m: nat) {
    && Sorted(dist, s)
    && Ids(s) <= ids
    && |s| == (if m <= |ids| then m else |ids|)
    && (forall id :: id in ids && id !in Ids(s) ==> Nearer(dist, s, id))
  }

  /** The last identifier occurs once. */
  lemma LastIsNew(dist: U160 -> nat, s: seq<NodeInfo>)
    requires Sorted(dist, s) && s != []
    ensures var init, last := s[..|s| - 1], s[|s| - 1];
      Sorted(dist, init) && last.id !in Ids(init) && Ids(s) == Ids(init) + {last.id}
  {
    var init, last := s[..|s| - 1], s[|s| - 1];
    forall n | n in init ensures n.id != last.id {
      var i :| 0 <= i < |init| && init[i] == n;
      assert dist(s[i].id) < dist(s[|s| - 1].id);
    }
    assert s == init + [last];
  }

  lemma {:induction false} DistinctIdsCount(dist: U160 -> nat, s: seq<NodeInfo>)
    requires Sorted(dist, s)
    ensures |Ids(s)| == |s|
  {
    if s == [] {
      assert Ids(s) == {};
    } else {
      LastIsNew(dist, s);
      DistinctIdsCount(dist, s[..|s| - 1]);
    }
  }

  lemma SortedEnds(dist: U160 -> nat, s: seq<NodeInfo>, n: NodeInfo)
    requires Sorted(dist, s) && n in s
    ensures dist(n.id) <= dist(s[|s| - 1].id)
  {
    var i :| 0 <= i < |s| && s[i] == n;
  }

  lemma SameLast(dist: U160 -> nat, s: seq<NodeInfo>, t: seq<NodeInfo>)
    requires Separates(dist) && Sorted(dist, s) && Sorted(dist, t) && Ids(s) == Ids(t) && s != [] && t != []
    ensures s[|s| - 1].id == t[|t| - 1].id
  {
    var a, b := s[|s| - 1], t[|t| - 1];
    assert a.id in Ids(t) && b.id in Ids(s);
    var n :| n in t && n.id == a.id;
    var m :| m in s && m.id == b.id;
    SortedEnds(dist, t, n);
    SortedEnds(dist, s, m);
  }

  lemma {:induction false} SortedByIds(dist: U160 -> nat, s: seq<NodeInfo>, t: seq<NodeInfo>)
    requires Separates(dist) && Sorted(dist, s) && Sorted(dist, t) && Ids(s) == Ids(t)
    ensures |s| == |t| && forall i :: 0 <= i < |s| ==> s[i].id == t[i].id
  {
    assert |s| == |t| by { DistinctIdsCount(dist, s); DistinctIdsCount(dist, t); }
    if s != [] {
      var s0, t0 := s[..|s| - 1], t[..|t| - 1];
      SameLast(dist, s, t);
      assert Ids(s0) == Ids(t0) by { LastIsNew(dist, s); LastIsNew(dist, t); }
      SortedByIds(dist, s0, t0);
      forall i | 0 <= i < |s| ensures s[i].id == t[i].id {
        if i < |s| - 1 { assert s0[i].id == t0[i].id; }
      }
    }
  }

  /** The reference is exact: it fixes every identifier and its place. */
  lemma NearestIsUnique(dist: U160 -> nat, s: seq<NodeInfo>, t: seq<NodeInfo>, ids: set<U160>, m: nat)
    requires Separates(dist) && NearestOf(dist, s, ids, m) && NearestOf(dist, t, ids, m)
    ensures |s| == |t| && forall i :: 0 <= i < |s| ==> s[i].id == t[i].id
  {
    DistinctIdsCount(dist, s);
    DistinctIdsCount(dist, t);
    forall a, b | a in Ids(s) && a !in Ids(t) && b in Ids(t) ensures b in Ids(s) {
      assert Nearer(dist, t, a);
      assert b !in Ids(s) ==> Nearer(dist, s, b);
    }
    EqualBySize(Ids(s), Ids(t));
    SortedByIds(dist, s, t);
  }

  lemma EqualBySize(x: set<U160>, y: set<U160>)
    requires |x| == |y| && forall a, b :: a in x && a !in y && b in y ==> b in x
    ensures x == y
  {
    if a :| a in x && a !in y {
      SubsetSize(y, x);
    } else {
      SubsetSize(x, y);
    }
  }

  // ----- at every point of the search -----

  /** Pruning loses nothing among the first 17: whatever has been reported so far, they are the
      17 nearest identifiers reported. */
  lemma TopIsNearestReported(dist: U160 -> nat, valid: NodeInfo -> bool, seen: seq<NodeInfo>, reported: seq<NodeInfo>,
                             asked: multiset<NodeInfo>, waiting: multiset<Task>)
    requires Separates(dist) && Consistent(dist, valid, seen, reported, asked, waiting)
    ensures NearestOf(dist, if |seen| > BOUND then seen[..BOUND + 1] else seen, Ids(reported), BOUND + 1)
  {
    var s := if |seen| > BOUND then seen[..BOUND + 1] else seen;
    DistinctIdsCount(dist, s);
    SubsetSize(Ids(s), Ids(reported));
    forall id | id in Ids(reported) && id !in Ids(s) ensures |seen| > BOUND && Nearer(dist, s, id) {
      var r :| r in reported && r.id == id;
      assert KeptOrBeaten(dist, seen, r);
      TopIsNearer(dist, seen, r);
    }
    if |seen| <= BOUND {
      assert Ids(reported) == Ids(s);
    }
  }

  lemma TopIsNearer(dist: U160 -> nat, seen: seq<NodeInfo>, r: NodeInfo)
    requires Sorted(dist, seen) && KeptOrBeaten(dist, seen, r)
    requires r.id !in Ids(if |seen| > BOUND then seen[..BOUND + 1] else seen)
    ensures |seen| > BOUND && Nearer(dist, seen[..BOUND + 1], r.id)
  {
    var top := if |seen| > BOUND then seen[..BOUND + 1] else seen;
    assert forall i :: 0 <= i < |top| ==> top[i] in top && top[i] == seen[i];
  }

  // ----- when it is over -----

  /** Each valid seen node was queried exactly once, no other node ever was, and no identifier was
      queried twice; a node is queried only after it was reported. */
  lemma QueriedOnce(dist: U160 -> nat, valid: NodeInfo -> bool, findPeers: bool, nodes: seq<NodeInfo>,
                    net: (nat, NodeInfo) -> Reply, seen: seq<NodeInfo>, log: seq<Completion>,
                    ignore: set<NodeInfo>, peers: set<SocketAddr>)
    requires Separates(dist) && Between(dist, valid, findPeers, nodes, net, seen, log, [], ignore, peers)
    ensures forall n :: multiset(Asked(log))[n] == if n in seen && valid(n) then 1 else 0
    ensures forall i, j :: 0 <= i < j < |Asked(log)| ==> Asked(log)[i].id != Asked(log)[j].id
    ensures forall i :: 0 <= i < |log| && log[i].task.Ask? ==> log[i].task.node in Reported(log[..i])
  {
    var none: seq<Task> := [];
    forall n ensures multiset(Asked(log))[n] == if n in seen && valid(n) then 1 else 0 {
      assert multiset(Asked(log))[n] + multiset(none)[Ask(n)] == if n in seen && valid(n) then 1 else 0;
    }
    AskedApart(dist, valid, seen, Asked(log));
  }

  /** The queried nodes are the valid seen ones. */
  lemma AskedExactlyWhenSeen(dist: U160 -> nat, valid: NodeInfo -> bool, findPeers: bool, nodes: seq<NodeInfo>,
                             net: (nat, NodeInfo) -> Reply, seen: seq<NodeInfo>, log: seq<Completion>,
                             ignore: set<NodeInfo>, peers: set<SocketAddr>, n: NodeInfo)
    requires Between(dist, valid, findPeers, nodes, net, seen, log, [], ignore, peers)
    ensures n in Asked(log) <==> n in seen && valid(n)
  {
    var none: seq<Task> := [];
    assert multiset(Asked(log))[n] + multiset(none)[Ask(n)] == if n in seen && valid(n) then 1 else 0;
    assert n in Asked(log) <==> multiset(Asked(log))[n] > 0;
  }

  lemma TwiceIsTwo(s: seq<NodeInfo>, i: nat, j: nat)
    requires i < j < |s|
    ensures s[i] == s[j] ==> multiset(s)[s[i]] >= 2
  {
    assert s == s[..i] + [s[i]] + s[i + 1..j] + [s[j]] + s[j + 1..];
  }

  lemma AskedApart(dist: U160 -> nat, valid: NodeInfo -> bool, seen: seq<NodeInfo>, asked: seq<NodeInfo>)
    requires Sorted(dist, seen) && forall n :: multiset(asked)[n] == if n in seen && valid(n) then 1 else 0
    ensures forall i, j :: 0 <= i < j < |asked| ==> asked[i].id != asked[j].id
  {
    forall i, j | 0 <= i < j < |asked| ensures asked[i].id != asked[j].id {
      var a, b := asked[i], asked[j];
      TwiceIsTwo(asked, i, j);
      assert a in multiset(asked) && b in multiset(asked);
      var x :| 0 <= x < |seen| && seen[x] == a;
      var y :| 0 <= y < |seen| && seen[y] == b;
    }
  }

  lemma {:induction false} InAsked(log: seq<Completion>, i: nat)
    requires i < |log| && log[i].task.Ask?
    ensures log[i].task.node in Asked(log)
  {
    if i < |log| - 1 {
      InAsked(log[..|log| - 1], i);
    }
  }

  lemma IdOfUnmarked(dist: U160 -> nat, seen: seq<NodeInfo>, ignore: set<NodeInfo>, n: NodeInfo)
    requires Sorted(dist, seen) && n in seen && forall m :: m in ignore ==> m in seen
    ensures n.id in IdsOf(ignore) <==> n in ignore
  {
    if n.id in IdsOf(ignore) {
      var m :| m in ignore && m.id == n.id;
      var i :| 0 <= i < |seen| && seen[i] == n;
      var j :| 0 <= j < |seen| && seen[j] == m;
    }
  }

  /** `c` holds unmarked nodes of `seen`, in order, passing over none that is nearer. */
  ghost predicate Picked(dist: U160 -> nat, seen: seq<NodeInfo>, ignore: set<NodeInfo>, k: nat, c: seq<NodeInfo>) {
    && Sorted(dist, c) && |c| <= k
    && (forall n :: n in c ==> n in seen && n !in ignore)
    && (forall n :: n in seen && n !in ignore && n !in c ==> |c| == k && Nearer(dist, c, n.id))
  }

  lemma TailIsFarther(dist: U160 -> nat, seen: seq<NodeInfo>)
    requires Sorted(dist, seen) && seen != []
    ensures Sorted(dist, seen[1..])
    ensures forall n :: n in seen[1..] ==> dist(seen[0].id) < dist(n.id)
    ensures forall n :: n in seen ==> n == seen[0] || n in seen[1..]
  {
  }

  lemma SortedWithHead(dist: U160 -> nat, head: NodeInfo, rest: seq<NodeInfo>)
    requires Sorted(dist, rest) && forall n :: n in rest ==> dist(head.id) < dist(n.id)
    ensures Sorted(dist, [head] + rest)
  {
    var c := [head] + rest;
    forall i, j | 0 <= i < j < |c| ensures dist(c[i].id) < dist(c[j].id) {
      assert c[j] == rest[j - 1] && rest[j - 1] in rest;
    }
  }

  lemma PickHead(dist: U160 -> nat, seen: seq<NodeInfo>, ignore: set<NodeInfo>, k: nat, rest: seq<NodeInfo>)
    requires Sorted(dist, seen) && seen != [] && k > 0 && seen[0] !in ignore
    requires Picked(dist, seen[1..], ignore, k - 1, rest)
    ensures Picked(dist, seen, ignore, k, [seen[0]] + rest)
  {
    var head, tail := seen[0], seen[1..];
    var c := [head] + rest;
    TailIsFarther(dist, seen);
    SortedWithHead(dist, head, rest);
    forall n | n in seen && n !in ignore && n !in c ensures |c| == k && Nearer(dist, c, n.id) {
      assert n in tail && n !in rest && Nearer(dist, rest, n.id);
    }
  }

  lemma {:induction false} ClosestPicks(dist: U160 -> nat, seen: seq<NodeInfo>, ignore: set<NodeInfo>, k: nat)
    requires Sorted(dist, seen)
    ensures Picked(dist, seen, ignore, k, Closest(seen, ignore, k))
  {
    if seen != [] && k > 0 {
      assert Sorted(dist, seen[1..]);
      if seen[0] in ignore {
        ClosestPicks(dist, seen[1..], ignore, k);
        assert forall n :: n in seen ==> n == seen[0] || n in seen[1..];
      } else {
        ClosestPicks(dist, seen[1..], ignore, k - 1);
        PickHead(dist, seen, ignore, k, Closest(seen[1..], ignore, k - 1));
      }
    }
  }

  /** A long enough prefix decides what `Closest` picks. */
  lemma {:induction false} ClosestOfPrefix(seen: seq<NodeInfo>, ignore: set<NodeInfo>, k: nat, m: nat)
    requires m <= |seen| && |Closest(seen[..m], ignore, k)| == k
    ensures Closest(seen, ignore, k) == Closest(seen[..m], ignore, k)
  {
    if seen != [] && k > 0 {
      if m == 0 {
        assert false;
      } else {
        assert seen[..m][1..] == seen[1..][..m - 1];
        ClosestOfPrefix(seen[1..], ignore, if seen[0] in ignore then k else k - 1, m - 1);
      }
    }
  }

  /** The answer never omits a nearer unmarked node that it has seen. */
  lemma AnswerIsNearestSeen(dist: U160 -> nat, seen: seq<NodeInfo>, ignore: set<NodeInfo>, k: nat)
    requires Separates(dist) && Sorted(dist, seen) && forall m :: m in ignore ==> m in seen
    ensures NearestOf(dist, Closest(seen, ignore, k), Ids(seen) - IdsOf(ignore), k)
  {
    var c := Closest(seen, ignore, k);
    var ids := Ids(seen) - IdsOf(ignore);
    ClosestPicks(dist, seen, ignore, k);
    DistinctIdsCount(dist, c);
    forall n | n in seen ensures n.id in ids <==> n !in ignore {
      IdOfUnmarked(dist, seen, ignore, n);
    }
    SubsetSize(Ids(c), ids);
    forall id | id in ids && id !in Ids(c) ensures |c| == k && Nearer(dist, c, id) {
      var n :| n in seen && n.id == id;
    }
    if |c| < k {
      assert ids == Ids(c);
    }
  }

  lemma MarkedIsAsked(log: seq<Completion>, nodes: seq<NodeInfo>, findPeers: bool, net: (nat, NodeInfo) -> Reply)
    requires Answers(log, nodes, findPeers, net)
    ensures forall n :: n in Unresponsive(log) ==> n in Asked(log)
  {
    forall n | n in Unresponsive(log) ensures n in Asked(log) {
      var i :| 0 <= i < |log| && log[i].result.RemoveOne? && log[i].result.node == n;
      assert AnsweredBy(log[i], i, nodes, findPeers, net);
      InAsked(log, i);
    }
  }

  lemma MarkedIsSeen(dist: U160 -> nat, valid: NodeInfo -> bool, findPeers: bool, nodes: seq<NodeInfo>,
                     net: (nat, NodeInfo) -> Reply, seen: seq<NodeInfo>, log: seq<Completion>)
    requires Answers(log, nodes, findPeers, net)
    requires Consistent(dist, valid, seen, Reported(log), multiset(Asked(log)), multiset{})
    ensures forall n :: n in Unresponsive(log) ==> n in seen && valid(n)
  {
    MarkedIsAsked(log, nodes, findPeers, net);
    forall n | n in Unresponsive(log) ensures n in seen && valid(n) {
      assert n in multiset(Asked(log));
    }
  }

  lemma IdsAreIds(seen: seq<NodeInfo>, id: U160)
    ensures id in Ids(seen) <==> HasId(seen, id)
  {
    if i :| 0 <= i < |seen| && seen[i].id == id {
      assert seen[i] in seen;
    }
  }

  lemma NearestAmongAll(dist: U160 -> nat, seen: seq<NodeInfo>, reported: seq<NodeInfo>, ignore: set<NodeInfo>, k: nat)
    requires Separates(dist) && Sorted(dist, seen) && forall m :: m in ignore ==> m in seen
    requires (forall n :: n in seen ==> n in reported) && (forall r :: r in reported ==> KeptOrBeaten(dist, seen, r))
    requires |seen| <= BOUND || |Closest(seen[..BOUND + 1], ignore, k)| == k
    ensures NearestOf(dist, Closest(seen, ignore, k), Ids(reported) - IdsOf(ignore), k)
  {
    var c := Closest(seen, ignore, k);
    var some, all := Ids(seen) - IdsOf(ignore), Ids(reported) - IdsOf(ignore);
    AnswerIsNearestSeen(dist, seen, ignore, k);
    assert some <= all;
    SubsetSize(some, all);
    forall id | id in all && id !in some ensures |c| == k && Nearer(dist, c, id) {
      var r :| r in reported && r.id == id;
      IdsAreIds(seen, id);
      BeatenByAnswer(dist, seen, ignore, k, r);
    }
    if |c| < k {
      assert all == some;
    }
  }

  /** When enough of the 17 nearest answered, or no more than 16 nodes were seen, the answer is
      exactly the `k` nearest identifiers among all that were ever reported and not marked. */
  lemma AnswerIsNearestReported(dist: U160 -> nat, valid: NodeInfo -> bool, findPeers: bool, k: nat, nodes: seq<NodeInfo>,
                                net: (nat, NodeInfo) -> Reply, seen: seq<NodeInfo>, log: seq<Completion>,
                                ignore: set<NodeInfo>, peers: set<SocketAddr>)
    requires Separates(dist) && Between(dist, valid, findPeers, nodes, net, seen, log, [], ignore, peers)
    requires |seen| <= BOUND || |Closest(seen[..BOUND + 1], ignore, k)| == k
    ensures NearestOf(dist, Closest(seen, ignore, k), Ids(Reported(log)) - IdsOf(ignore), k)
  {
    MarkedIsSeen(dist, valid, findPeers, nodes, net, seen, log);
    NearestAmongAll(dist, seen, Reported(log), ignore, k);
  }

  lemma {:induction false} FewerOfClosest(seen: seq<NodeInfo>, ignore: set<NodeInfo>, k: nat, m: nat)
    requires m <= |Closest(seen, ignore, k)|
    ensures Closest(seen, ignore, m) == Closest(seen, ignore, k)[..m]
  {
    if seen == [] || k == 0 || m == 0 {
    } else if seen[0] in ignore {
      FewerOfClosest(seen[1..], ignore, k, m);
    } else {
      FewerOfClosest(seen[1..], ignore, k - 1, m - 1);
    }
  }

  lemma {:induction false} PrefixHasFewer(seen: seq<NodeInfo>, ignore: set<NodeInfo>, k: nat, n: nat)
    requires n <= |seen|
    ensures |Closest(seen[..n], ignore, k)| <= |Closest(seen, ignore, k)|
  {
    if n > 0 && k > 0 {
      assert seen[..n][1..] == seen[1..][..n - 1];
      PrefixHasFewer(seen[1..], ignore, if seen[0] in ignore then k else k - 1, n - 1);
    }
  }

  /** However many nodes failed: the answer begins with the nearest identifiers ever reported and
      not marked, as many of them as answered among the first 17. */
  lemma AnswerStartsNearest(dist: U160 -> nat, valid: NodeInfo -> bool, findPeers: bool, k: nat, nodes: seq<NodeInfo>,
                            net: (nat, NodeInfo) -> Reply, seen: seq<NodeInfo>, log: seq<Completion>,
                            ignore: set<NodeInfo>, peers: set<SocketAddr>)
    requires Separates(dist) && Between(dist, valid, findPeers, nodes, net, seen, log, [], ignore, peers)
    requires |seen| > BOUND
    ensures var m := |Closest(seen[..BOUND + 1], ignore, k)|;
      && m <= |Closest(seen, ignore, k)|
      && NearestOf(dist, Closest(seen, ignore, k)[..m], Ids(Reported(log)) - IdsOf(ignore), m)
  {
    var top := seen[..BOUND + 1];
    var m := |Closest(top, ignore, k)|;
    PrefixHasFewer(seen, ignore, k, BOUND + 1);
    FewerOfClosest(top, ignore, k, m);
    FewerOfClosest(seen, ignore, k, m);
    AnswerIsNearestReported(dist, valid, findPeers, m, nodes, net, seen, log, ignore, peers);
  }

  lemma BeatenByAnswer(dist: U160 -> nat, seen: seq<NodeInfo>, ignore: set<NodeInfo>, k: nat, r: NodeInfo)
    requires Sorted(dist, seen) && KeptOrBeaten(dist, seen, r) && !HasId(seen, r.id)
    requires |seen| <= BOUND || |Closest(seen[..BOUND + 1], ignore, k)| == k
    ensures var c := Closest(seen, ignore, k); |c| == k && Nearer(dist, c, r.id)
  {
    var top := seen[..BOUND + 1];
    ClosestOfPrefix(seen, ignore, k, BOUND + 1);
    ClosestPicks(dist, top, ignore, k);
    forall n | n in Closest(top, ignore, k) ensures dist(n.id) < dist(r.id) {
      SortedEnds(dist, top, n);
    }
  }

  /** A search for nodes never collects a peer. */
  lemma {:induction false} NoPeersForNodes(log: seq<Completion>, nodes: seq<NodeInfo>, net: (nat, NodeInfo) -> Reply)
    requires Answers(log, nodes, false, net)
    ensures AllPeers(log) == {}
  {
    if log != [] {
      NoPeersForNodes(log[..|log| - 1], nodes, net);
      assert AnsweredBy(log[|log| - 1], |log| - 1, nodes, false, net);
    }
  }

  /** The unmarked seen nodes that are nearer than one. */
  function NearerUnmarked(dist: U160 -> nat, seen: seq<NodeInfo>, ignore: set<NodeInfo>, n: NodeInfo): set<NodeInfo> {
    set m | m in seen && m !in ignore && dist(m.id) < dist(n.id)
  }

  lemma NearerInTail(dist: U160 -> nat, seen: seq<NodeInfo>, ignore: set<NodeInfo>, n: NodeInfo)
    requires Sorted(dist, seen) && seen != [] && n in seen[1..]
    ensures NearerUnmarked(dist, seen, ignore, n)
         == NearerUnmarked(dist, seen[1..], ignore, n) + if seen[0] in ignore then {} else {seen[0]}
    ensures seen[0] !in NearerUnmarked(dist, seen[1..], ignore, n)
  {
    TailIsFarther(dist, seen);
    assert seen[0] in seen;
  }

  /** An unmarked seen node is in the answer exactly when fewer than `k` unmarked ones are nearer. */
  lemma {:induction false} InAnswerExactlyWhen(dist: U160 -> nat, seen: seq<NodeInfo>, ignore: set<NodeInfo>, k: nat, n: NodeInfo)
    requires Sorted(dist, seen) && n in seen && n !in ignore
    ensures n in Closest(seen, ignore, k) <==> |NearerUnmarked(dist, seen, ignore, n)| < k
  {
    TailIsFarther(dist, seen);
    ClosestPicks(dist, seen[1..], ignore, if k == 0 || seen[0] in ignore then k else k - 1);
    if n == seen[0] {
      assert NearerUnmarked(dist, seen, ignore, n) == {};
    } else {
      NearerInTail(dist, seen, ignore, n);
      InAnswerExactlyWhen(dist, seen[1..], ignore, if k == 0 || seen[0] in ignore then k else k - 1, n);
    }
  }

  /** A node whose identifier is invalid is never queried and never marked, yet once seen it is in
      the answer like any other: exactly when fewer than `k` unmarked seen nodes are nearer. */
  lemma InvalidIsReturned(dist: U160 -> nat, valid: NodeInfo -> bool, findPeers: bool, k: nat, nodes: seq<NodeInfo>,
                          net: (nat, NodeInfo) -> Reply, seen: seq<NodeInfo>, log: seq<Completion>,
                          ignore: set<NodeInfo>, peers: set<SocketAddr>, bad: NodeInfo)
    requires Separates(dist) && Between(dist, valid, findPeers, nodes, net, seen, log, [], ignore, peers)
    requires !valid(bad) && bad in seen
    ensures bad !in Asked(log) && bad !in ignore
    ensures bad in Closest(seen, ignore, k) <==> |NearerUnmarked(dist, seen, ignore, bad)| < k
  {
    QueriedOnce(dist, valid, findPeers, nodes, net, seen, log, ignore, peers);
    assert bad !in multiset(Asked(log));
    MarkedIsSeen(dist, valid, findPeers, nodes, net, seen, log);
    InAnswerExactlyWhen(dist, seen, ignore, k, bad);
  }

  lemma {:induction false} OnlyTheStart(valid: NodeInfo -> bool, bad: NodeInfo, net: (nat, NodeInfo) -> Reply, log: seq<Completion>)
    requires Answers(log, [bad], false, net) && Caused(log) && log != []
    requires !valid(bad) && forall n :: n in Asked(log) ==> valid(n)
    ensures log == [Completion(Initial([bad]), FoundSome([bad]))]
  {
    assert AnsweredBy(log[0], 0, [bad], false, net);
    assert log[..1] == [log[0]] && log[..1][..0] == [];
    assert Reported(log[..1]) == [bad];
    if |log| > 1 {
      assert AnsweredBy(log[1], 1, [bad], false, net);
      InAsked(log, 1);
    }
  }

  lemma OneCompletion(n: NodeInfo)
    ensures var log := [Completion(Initial([n]), FoundSome([n]))];
      Reported(log) == [n] && Asked(log) == [] && Unresponsive(log) == {}
  {
    var log := [Completion(Initial([n]), FoundSome([n]))];
    assert log[..0] == [];
  }

  lemma OnlyCompletion(dist: U160 -> nat, valid: NodeInfo -> bool, bad: NodeInfo, net: (nat, NodeInfo) -> Reply,
                       seen: seq<NodeInfo>, log: seq<Completion>, ignore: set<NodeInfo>, peers: set<SocketAddr>)
    requires !valid(bad) && Between(dist, valid, false, [bad], net, seen, log, [], ignore, peers)
    ensures Asked(log) == [] && ignore == {} && Reported(log) == [bad]
  {
    forall n | n in Asked(log) ensures valid(n) {
      AskedExactlyWhenSeen(dist, valid, false, [bad], net, seen, log, ignore, peers, n);
    }
    OnlyTheStart(valid, bad, net, log);
    OneCompletion(bad);
  }

  /** A starting node with an invalid identifier is never queried, yet it is the answer. */
  lemma InvalidNodeIsReturned(dist: U160 -> nat, valid: NodeInfo -> bool, k: nat, bad: NodeInfo, net: (nat, NodeInfo) -> Reply,
                              seen: seq<NodeInfo>, log: seq<Completion>, ignore: set<NodeInfo>, peers: set<SocketAddr>)
    requires Separates(dist) && !valid(bad) && k > 0
    requires Between(dist, valid, false, [bad], net, seen, log, [], ignore, peers)
    ensures Asked(log) == [] && Closest(seen, ignore, k) == [bad]
  {
    OnlyCompletion(dist, valid, bad, net, seen, log, ignore, peers);
    OneNodeSeen(dist, valid, seen, bad, multiset(Asked(log)), multiset{});
    assert Closest([bad], {}, k) == [bad] + Closest([], {}, k - 1);
  }

  lemma OneNodeSeen(dist: U160 -> nat, valid: NodeInfo -> bool, seen: seq<NodeInfo>, n: NodeInfo,
                    asked: multiset<NodeInfo>, waiting: multiset<Task>)
    requires Consistent(dist, valid, seen, [n], asked, waiting)
    ensures seen == [n]
  {
    forall i | 0 <= i < |seen| ensures seen[i] == n {
      assert seen[i] in seen;
    }
    assert |seen| > 1 ==> dist(seen[0].id) < dist(seen[1].id);
    assert KeptOrBeaten(dist, seen, n);
  }

  /** The search for nodes from given starting nodes: it always answers with nodes. */
  method FindNNodesStartingAt(target: U160, n: nat, nodes: seq<NodeInfo>, valid: NodeInfo -> bool,
                              net: (nat, NodeInfo) -> Reply, order: nat -> nat)
    returns (closest: seq<NodeInfo>, seen: seq<NodeInfo>, log: seq<Completion>)
    ensures Between(Metric(target), valid, false, nodes, net, seen, log, [], Unresponsive(log), {})
    ensures NearestOf(Metric(target), closest, Ids(seen) - IdsOf(Unresponsive(log)), n)
    ensures |seen| <= BOUND || |Closest(seen[..BOUND + 1], Unresponsive(log), n)| == n ==>
      NearestOf(Metric(target), closest, Ids(Reported(log)) - IdsOf(Unresponsive(log)), n)
  {
    var found;
    found, seen, log := FindNStartingAt(target, false, n, nodes, valid, net, order);
    NoPeersForNodes(log, nodes, net);
    match found {
      case KClosest(c) => closest := c;
      case FoundPeers(_) => assert false;
    }
    MetricIsProper(target);
    MarkedIsSeen(Metric(target), valid, false, nodes, net, seen, log);
    AnswerIsNearestSeen(Metric(target), seen, Unresponsive(log), n);
    if |seen| <= BOUND || |Closest(seen[..BOUND + 1], Unresponsive(log), n)| == n {
      AnswerIsNearestReported(Metric(target), valid, false, n, nodes, net, seen, log, Unresponsive(log), {});
    }
  }
}

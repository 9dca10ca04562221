/** The iterative search for the nodes nearest to a target, against an arbitrary network: any
    pending query may finish next, with any answer. */
module Searches {
  import opened U160s
  import opened NodeInfos
  import opened Wrappers
  import opened Chains

  const K_SIZE: nat := 8

  /** What the network does with one query. */
  datatype Reply =
    | KNearest(nodes: seq<NodeInfo>)
    | PeerList(peers: seq<SocketAddr>, closer: Option<seq<NodeInfo>>)
    | OtherKind
    | NoAnswer

  datatype OneResult =
    | FoundSome(nodes: seq<NodeInfo>)
    | RemoveOne(node: NodeInfo)
    | Peers(peers: seq<SocketAddr>, closer: Option<seq<NodeInfo>>)

  datatype Task = Initial(nodes: seq<NodeInfo>) | Ask(node: NodeInfo)

  datatype Completion = Completion(task: Task, result: OneResult)

  datatype Found = KClosest(nodes: seq<NodeInfo>) | FoundPeers(peers: set<SocketAddr>)

  function SendFind(to: NodeInfo, reply: Reply, findPeers: bool): OneResult {
    match reply
    case KNearest(nodes) => FoundSome(nodes)
    case PeerList(peers, closer) => if findPeers then Peers(peers, closer) else RemoveOne(to)
    case OtherKind => RemoveOne(to)
    case NoAnswer => RemoveOne(to)
  }

  // ----- the ordered set of seen nodes -----

  /** The distance from the target, as a number. */
  function Metric(target: U160): (d: U160 -> nat)
    ensures forall id :: d(id) == target.Distance(id).Nat()
  {
    id => target.Distance(id).Nat()
  }

  ghost predicate Separates(dist: U160 -> nat) {
    && (forall a, b :: dist(a) == dist(b) ==> a == b)
    && (forall a :: dist(a) < TWO_160)
  }

  /** What the search needs to know of the numbers by which it reasons about distances: they
      separate identifiers, are bounded, and order them as the program's comparison does. */
  ghost predicate Proper(dist: U160 -> nat, target: U160) {
    && Separates(dist)
    && (forall a, b :: dist(a) < dist(b) <==> target.Distance(a).Less(target.Distance(b)))
  }

  lemma MetricIsProper(target: U160)
    ensures Proper(Metric(target), target)
  {
    forall a, b ensures Metric(target)(a) < Metric(target)(b) <==> target.Distance(a).Less(target.Distance(b)) {
      LessIsNumeric(target.Distance(a), target.Distance(b));
    }
    forall a, b | Metric(target)(a) == Metric(target)(b) ensures a == b {
      NatInjective(target.Distance(a), target.Distance(b));
      DistanceInjective(target, a, b);
    }
  }

  ghost predicate Sorted(dist: U160 -> nat, seen: seq<NodeInfo>) {
    forall i, j :: 0 <= i < j < |seen| ==> dist(seen[i].id) < dist(seen[j].id)
  }

  /** How many seen nodes are strictly closer than `n`. */
  function Position(dist: U160 -> nat, seen: seq<NodeInfo>, n: NodeInfo): (p: nat)
    ensures p <= |seen|
    ensures p > 0 ==> dist(seen[p - 1].id) < dist(n.id)
    ensures p < |seen| ==> dist(n.id) <= dist(seen[p].id)
  {
    if seen == [] then 0
    else if dist(seen[|seen| - 1].id) < dist(n.id) then |seen|
    else Position(dist, seen[..|seen| - 1], n)
  }

  predicate Occupied(dist: U160 -> nat, seen: seq<NodeInfo>, n: NodeInfo) {
    var p := Position(dist, seen, n);
    p < |seen| && dist(seen[p].id) == dist(n.id)
  }

  /** Insertion into a set ordered by distance: a node at an occupied distance is not taken. */
  function Insert(dist: U160 -> nat, seen: seq<NodeInfo>, n: NodeInfo): seq<NodeInfo> {
    var p := Position(dist, seen, n);
    if Occupied(dist, seen, n) then seen else seen[..p] + [n] + seen[p..]
  }

  /** The entry that bounds the search: the 17th nearest seen node. */
  const BOUND: nat := K_SIZE * 2

  predicate Within(dist: U160 -> nat, seen: seq<NodeInfo>, n: NodeInfo) {
    |seen| > BOUND ==> dist(n.id) < dist(seen[BOUND].id)
  }

  /** The test as the program makes it, on identifiers. */
  predicate CloserThanBound(target: U160, seen: seq<NodeInfo>, n: NodeInfo) {
    |seen| > BOUND ==> target.Distance(n.id).Less(target.Distance(seen[BOUND].id))
  }

  /** What the search has seen once these nodes have been reported, in this order: each is taken in
      unless 17 seen nodes are at least as near or its identifier is known. */
  function SeenFrom(dist: U160 -> nat, reported: seq<NodeInfo>): seq<NodeInfo> {
    if reported == [] then []
    else
      var seen, n := SeenFrom(dist, reported[..|reported| - 1]), reported[|reported| - 1];
      if Within(dist, seen, n) && !Occupied(dist, seen, n) then Insert(dist, seen, n) else seen
  }

  // ----- what a log of completions says -----

  function NodesOf(r: OneResult): seq<NodeInfo> {
    match r
    case FoundSome(nodes) => nodes
    case Peers(_, Some(nodes)) => nodes
    case _ => []
  }

  function PeersOf(r: OneResult): set<SocketAddr> {
    if r.Peers? then set p | p in r.peers else {}
  }

  /** Every node reported so far, in the order the search consumed them. */
  function Reported(log: seq<Completion>): seq<NodeInfo> {
    if log == [] then [] else Reported(log[..|log| - 1]) + NodesOf(log[|log| - 1].result)
  }

  function Asked(log: seq<Completion>): seq<NodeInfo> {
    if log == [] then []
    else Asked(log[..|log| - 1]) + if log[|log| - 1].task.Ask? then [log[|log| - 1].task.node] else []
  }

  function Unresponsive(log: seq<Completion>): set<NodeInfo> {
    set i | 0 <= i < |log| && log[i].result.RemoveOne? :: log[i].result.node
  }

  function AllPeers(log: seq<Completion>): set<SocketAddr> {
    if log == [] then {} else AllPeers(log[..|log| - 1]) + PeersOf(log[|log| - 1].result)
  }

  predicate AnsweredBy(c: Completion, i: nat, nodes: seq<NodeInfo>, findPeers: bool, net: (nat, NodeInfo) -> Reply) {
    match c.task
    case Initial(ns) => i == 0 && ns == nodes && c.result == FoundSome(nodes)
    case Ask(n) => i > 0 && c.result == SendFind(n, net(i, n), findPeers)
  }

  /** The completions are those of the starting nodes and of queries, as the network answers. */
  predicate Answers(log: seq<Completion>, nodes: seq<NodeInfo>, findPeers: bool, net: (nat, NodeInfo) -> Reply) {
    forall i :: 0 <= i < |log| ==> AnsweredBy(log[i], i, nodes, findPeers, net)
  }

  /** A node is queried only after somebody reported it. */
  predicate Caused(log: seq<Completion>) {
    forall i :: 0 <= i < |log| && log[i].task.Ask? ==> log[i].task.node in Reported(log[..i])
  }

  // ----- lemmas about the ordered set -----

  lemma BoundIsNumeric(dist: U160 -> nat, target: U160, seen: seq<NodeInfo>, n: NodeInfo)
    requires Proper(dist, target)
    ensures CloserThanBound(target, seen, n) <==> Within(dist, seen, n)
  {
  }

  lemma OccupiedMeansSeen(dist: U160 -> nat, seen: seq<NodeInfo>, n: NodeInfo)
    requires Separates(dist) && Sorted(dist, seen)
    ensures Occupied(dist, seen, n) <==> HasId(seen, n.id)
  {
    var p := Position(dist, seen, n);
    if HasId(seen, n.id) {
      var i :| 0 <= i < |seen| && seen[i].id == n.id;
      assert !(i < p - 1) && i != p - 1;
      assert !(p < i);
    }
  }

  lemma InsertSorts(dist: U160 -> nat, seen: seq<NodeInfo>, n: NodeInfo)
    requires Sorted(dist, seen) && !Occupied(dist, seen, n)
    ensures Sorted(dist, Insert(dist, seen, n))
  {
    var p := Position(dist, seen, n);
    var r := Insert(dist, seen, n);
    forall i, j | 0 <= i < j < |r| ensures dist(r[i].id) < dist(r[j].id) {
      assert r[i] == if i < p then seen[i] else if i == p then n else seen[i - 1];
      assert r[j] == if j < p then seen[j] else if j == p then n else seen[j - 1];
      if i < p <= j {
        assert dist(seen[i].id) <= dist(seen[p - 1].id);
      }
      if i <= p < j {
        assert dist(seen[p].id) <= dist(seen[j - 1].id);
      }
    }
  }

  lemma InsertCounts(dist: U160 -> nat, seen: seq<NodeInfo>, n: NodeInfo)
    requires !Occupied(dist, seen, n)
    ensures var r := Insert(dist, seen, n);
      |r| == |seen| + 1 && multiset(r) == multiset(seen) + multiset{n}
  {
    var p := Position(dist, seen, n);
    assert seen == seen[..p] + seen[p..];
  }

  /** The bound never moves away from the target. */
  lemma BoundShrinks(dist: U160 -> nat, seen: seq<NodeInfo>, n: NodeInfo)
    requires Sorted(dist, seen) && !Occupied(dist, seen, n) && |seen| > BOUND
    ensures |Insert(dist, seen, n)| > BOUND
    ensures dist(Insert(dist, seen, n)[BOUND].id) <= dist(seen[BOUND].id)
  {
    var p := Position(dist, seen, n);
    var r := Insert(dist, seen, n);
    assert r[BOUND] == if BOUND < p then seen[BOUND] else if BOUND == p then n else seen[BOUND - 1];
  }

  lemma {:induction false} SortedIsShort(dist: U160 -> nat, seen: seq<NodeInfo>, bound: nat)
    requires Sorted(dist, seen) && forall i :: 0 <= i < |seen| ==> dist(seen[i].id) < bound
    ensures |seen| <= bound
  {
    if seen != [] { SortedIsShort(dist, seen[..|seen| - 1], dist(seen[|seen| - 1].id)); }
  }

  lemma SeenIsBounded(dist: U160 -> nat, seen: seq<NodeInfo>)
    requires Separates(dist) && Sorted(dist, seen)
    ensures |seen| <= TWO_160
  {
    SortedIsShort(dist, seen, TWO_160);
  }

  // ----- the invariant -----

  /** A reported node is seen, up to its address, or at least 17 seen nodes are closer. */
  predicate KeptOrBeaten(dist: U160 -> nat, seen: seq<NodeInfo>, r: NodeInfo) {
    HasId(seen, r.id) || (|seen| > BOUND && dist(seen[BOUND].id) < dist(r.id))
  }

  /** The seen set is ordered, holds only reported nodes, has lost nothing that matters, and each
      of its valid members, and nothing else, has been started exactly once. */
  ghost predicate Consistent(dist: U160 -> nat, valid: NodeInfo -> bool, seen: seq<NodeInfo>, reported: seq<NodeInfo>, asked: multiset<NodeInfo>, waiting: multiset<Task>) {
    && Sorted(dist, seen)
    && (forall n :: n in seen ==> n in reported)
    && (forall r :: r in reported ==> KeptOrBeaten(dist, seen, r))
    && (forall n :: asked[n] + waiting[Ask(n)] == if n in seen && valid(n) then 1 else 0)
  }

  lemma IdsSurviveInsert(dist: U160 -> nat, seen: seq<NodeInfo>, n: NodeInfo, id: U160)
    requires !Occupied(dist, seen, n) && HasId(seen, id)
    ensures HasId(Insert(dist, seen, n), id)
  {
    var p := Position(dist, seen, n);
    var i :| 0 <= i < |seen| && seen[i].id == id;
    assert Insert(dist, seen, n)[if i < p then i else i + 1] == seen[i];
  }

  lemma KeptStaysKept(dist: U160 -> nat, seen: seq<NodeInfo>, n: NodeInfo, r: NodeInfo)
    requires Sorted(dist, seen) && !Occupied(dist, seen, n) && KeptOrBeaten(dist, seen, r)
    ensures KeptOrBeaten(dist, Insert(dist, seen, n), r)
  {
    if HasId(seen, r.id) {
      IdsSurviveInsert(dist, seen, n, r.id);
    } else {
      BoundShrinks(dist, seen, n);
    }
  }

  lemma InsertMembers(dist: U160 -> nat, seen: seq<NodeInfo>, n: NodeInfo)
    requires !Occupied(dist, seen, n)
    ensures forall m :: m in Insert(dist, seen, n) <==> m in seen || m == n
  {
    InsertCounts(dist, seen, n);
    forall m ensures m in Insert(dist, seen, n) <==> m in seen || m == n {
      assert m in multiset(Insert(dist, seen, n)) <==> m in multiset(seen) + multiset{n};
    }
  }

  lemma TakeIn(dist: U160 -> nat, valid: NodeInfo -> bool, seen: seq<NodeInfo>, reported: seq<NodeInfo>, asked: multiset<NodeInfo>, waiting: multiset<Task>, n: NodeInfo)
    requires Separates(dist) && Consistent(dist, valid, seen, reported, asked, waiting) && !Occupied(dist, seen, n)
    ensures Consistent(dist, valid, Insert(dist, seen, n), reported + [n],
                       asked, if valid(n) then waiting + multiset{Ask(n)} else waiting)
  {
    var r := Insert(dist, seen, n);
    InsertSorts(dist, seen, n);
    InsertMembers(dist, seen, n);
    assert n !in seen by { OccupiedMeansSeen(dist, seen, n); }
    forall q | q in reported + [n] ensures KeptOrBeaten(dist, r, q) {
      if q in reported {
        KeptStaysKept(dist, seen, n, q);
      } else {
        var i :| 0 <= i < |r| && r[i] == n;
      }
    }
  }

  lemma PassOver(dist: U160 -> nat, valid: NodeInfo -> bool, seen: seq<NodeInfo>, reported: seq<NodeInfo>, asked: multiset<NodeInfo>, waiting: multiset<Task>, n: NodeInfo)
    requires Separates(dist) && Consistent(dist, valid, seen, reported, asked, waiting)
    requires !Within(dist, seen, n) || Occupied(dist, seen, n)
    ensures Consistent(dist, valid, seen, reported + [n], asked, waiting)
  {
    OccupiedMeansSeen(dist, seen, n);
  }

  // ----- the search -----

  predicate AllAsk(tasks: seq<Task>) {
    forall t :: 0 <= t < |tasks| ==> tasks[t].Ask?
  }

  /** Before the first completion only the starting nodes are pending, afterwards only queries. */
  predicate Staged(first: bool, nodes: seq<NodeInfo>, tasks: seq<Task>) {
    if first then tasks == [Initial(nodes)] else AllAsk(tasks)
  }

  /** The first `k` seen nodes that were not marked. */
  function Closest(seen: seq<NodeInfo>, ignore: set<NodeInfo>, k: nat): seq<NodeInfo> {
    if seen == [] || k == 0 then []
    else if seen[0] in ignore then Closest(seen[1..], ignore, k)
    else [seen[0]] + Closest(seen[1..], ignore, k - 1)
  }

  /** What the search does with one reported node: it is taken in unless it is pruned or known,
      and queried if it is also valid. */
  function Visit(target: U160, dist: U160 -> nat, valid: NodeInfo -> bool, seen: seq<NodeInfo>, tasks: seq<Task>, n: NodeInfo): (seq<NodeInfo>, seq<Task>) {
    if CloserThanBound(target, seen, n) && !Occupied(dist, seen, n) then
      (Insert(dist, seen, n), if valid(n) then tasks + [Ask(n)] else tasks)
    else (seen, tasks)
  }

  lemma VisitKeeps(target: U160, dist: U160 -> nat, valid: NodeInfo -> bool, seen: seq<NodeInfo>, tasks: seq<Task>, n: NodeInfo,
                   reported: seq<NodeInfo>, asked: multiset<NodeInfo>)
    requires Proper(dist, target) && AllAsk(tasks) && Consistent(dist, valid, seen, reported, asked, multiset(tasks))
    ensures var (seen', tasks') := Visit(target, dist, valid, seen, tasks, n);
      && AllAsk(tasks') && Consistent(dist, valid, seen', reported + [n], asked, multiset(tasks'))
      && |seen| <= |seen'| && (|seen'| == |seen| ==> tasks' == tasks)
      && (seen == SeenFrom(dist, reported) ==> seen' == SeenFrom(dist, reported + [n]))
  {
    assert (reported + [n])[..|reported|] == reported;
    BoundIsNumeric(dist, target, seen, n);
    if CloserThanBound(target, seen, n) && !Occupied(dist, seen, n) {
      TakeIn(dist, valid, seen, reported, asked, multiset(tasks), n);
      InsertCounts(dist, seen, n);
      assert multiset(tasks + [Ask(n)]) == multiset(tasks) + multiset{Ask(n)};
    } else {
      PassOver(dist, valid, seen, reported, asked, multiset(tasks), n);
    }
  }

  /** One batch of reported nodes, in order. */
  method Consume(target: U160, dist: U160 -> nat, valid: NodeInfo -> bool, foundNodes: seq<NodeInfo>,
                 seen0: seq<NodeInfo>, tasks0: seq<Task>, ghost reported: seq<NodeInfo>, ghost asked: multiset<NodeInfo>)
    returns (seen: seq<NodeInfo>, tasks: seq<Task>)
    requires Proper(dist, target) && AllAsk(tasks0)
    requires Consistent(dist, valid, seen0, reported, asked, multiset(tasks0)) && seen0 == SeenFrom(dist, reported)
    ensures seen == SeenFrom(dist, reported + foundNodes)
    ensures AllAsk(tasks) && Consistent(dist, valid, seen, reported + foundNodes, asked, multiset(tasks))
    ensures |seen0| <= |seen| <= TWO_160 && (|seen| == |seen0| ==> tasks == tasks0)
  {
    seen, tasks := seen0, tasks0;
    assert reported + foundNodes[..0] == reported;
    for f := 0 to |foundNodes|
      invariant AllAsk(tasks) && Consistent(dist, valid, seen, reported + foundNodes[..f], asked, multiset(tasks))
      invariant |seen| >= |seen0| && (|seen| == |seen0| ==> tasks == tasks0)
      invariant seen == SeenFrom(dist, reported + foundNodes[..f])
    {
      PrefixStep(reported, foundNodes, f);
      VisitKeeps(target, dist, valid, seen, tasks, foundNodes[f], reported + foundNodes[..f], asked);
      var visited := Visit(target, dist, valid, seen, tasks, foundNodes[f]);
      seen, tasks := visited.0, visited.1;
    }
    SeenIsBounded(dist, seen);
    assert foundNodes[..|foundNodes|] == foundNodes;
  }

  lemma PrefixStep(a: seq<NodeInfo>, b: seq<NodeInfo>, f: nat)
    requires f < |b|
    ensures a + b[..f] + [b[f]] == a + b[..f + 1]
  {
  }

  lemma LogPush(log: seq<Completion>, c: Completion)
    ensures Reported(log + [c]) == Reported(log) + NodesOf(c.result)
    ensures multiset(Asked(log + [c])) == multiset(Asked(log)) + AsMultiset(c.task)
    ensures AllPeers(log + [c]) == AllPeers(log) + PeersOf(c.result)
    ensures Unresponsive(log + [c]) == Unresponsive(log) + if c.result.RemoveOne? then {c.result.node} else {}
  {
    var longer := log + [c];
    assert longer[..|longer| - 1] == log;
    forall x ensures x in Unresponsive(longer) <==> x in Unresponsive(log) || (c.result.RemoveOne? && x == c.result.node) {
      if x in Unresponsive(log) {
        var i :| 0 <= i < |log| && log[i].result.RemoveOne? && log[i].result.node == x;
        assert longer[i] == log[i];
      }
      if c.result.RemoveOne? && x == c.result.node {
        assert longer[|log|] == c;
      }
    }
  }

  lemma WithoutOne(tasks: seq<Task>, i: nat)
    requires i < |tasks|
    ensures multiset(tasks) == multiset(tasks[..i] + tasks[i + 1..]) + multiset{tasks[i]}
  {
    assert tasks == tasks[..i] + [tasks[i]] + tasks[i + 1..];
  }

  function AsMultiset(task: Task): multiset<NodeInfo> {
    if task.Ask? then multiset{task.node} else multiset{}
  }

  /** Completing a pending query moves it from the waiting to the asked. */
  lemma Complete(dist: U160 -> nat, valid: NodeInfo -> bool, seen: seq<NodeInfo>, reported: seq<NodeInfo>,
                 asked: multiset<NodeInfo>, waiting: multiset<Task>, task: Task)
    requires Consistent(dist, valid, seen, reported, asked, waiting + multiset{task})
    ensures Consistent(dist, valid, seen, reported, asked + AsMultiset(task), waiting)
  {
  }

  /** The result of a finished task; `net` answers the query that finishes as number `i`. */
  function ResultOf(task: Task, i: nat, findPeers: bool, net: (nat, NodeInfo) -> Reply): OneResult {
    match task
    case Initial(nodes) => FoundSome(nodes)
    case Ask(n) => SendFind(n, net(i, n), findPeers)
  }

  lemma AnswersPush(log: seq<Completion>, task: Task, nodes: seq<NodeInfo>, findPeers: bool, net: (nat, NodeInfo) -> Reply)
    requires Answers(log, nodes, findPeers, net)
    requires if log == [] then task == Initial(nodes) else task.Ask?
    ensures Answers(log + [Completion(task, ResultOf(task, |log|, findPeers, net))], nodes, findPeers, net)
  {
  }

  /** The pending task that finishes, and the others. */
  method GetNextResult(tasks: seq<Task>, i: nat) returns (task: Task, rest: seq<Task>)
    requires tasks != []
    ensures task in tasks && |rest| == |tasks| - 1
    ensures multiset(tasks) == multiset(rest) + multiset{task}
    ensures forall x :: x in rest ==> x in tasks
    ensures |tasks| == 1 ==> rest == []
  {
    var finished := i % |tasks|;
    WithoutOne(tasks, finished);
    return tasks[finished], tasks[..finished] + tasks[finished + 1..];
  }

  /** What holds between two rounds of the search. */
  ghost predicate Between(dist: U160 -> nat, valid: NodeInfo -> bool, findPeers: bool, nodes: seq<NodeInfo>,
                          net: (nat, NodeInfo) -> Reply, seen: seq<NodeInfo>, log: seq<Completion>,
                          tasks: seq<Task>, ignore: set<NodeInfo>, peers: set<SocketAddr>) {
    && Answers(log, nodes, findPeers, net) && Caused(log)
    && Staged(log == [], nodes, tasks)
    && Consistent(dist, valid, seen, Reported(log), multiset(Asked(log)), multiset(tasks))
    && seen == SeenFrom(dist, Reported(log))
    && ignore == Unresponsive(log) && peers == AllPeers(log)
  }

  lemma StagedMembers(first: bool, nodes: seq<NodeInfo>, tasks: seq<Task>, task: Task, rest: seq<Task>)
    requires Staged(first, nodes, tasks) && task in tasks
    requires (forall x :: x in rest ==> x in tasks) && (|tasks| == 1 ==> rest == [])
    ensures (if first then task == Initial(nodes) else task.Ask?) && AllAsk(rest)
  {
    forall t | 0 <= t < |rest| ensures rest[t].Ask? {
      assert rest[t] in tasks;
    }
  }

  lemma CausedPush(log: seq<Completion>, c: Completion)
    requires Caused(log) && (c.task.Ask? ==> c.task.node in Reported(log))
    ensures Caused(log + [c])
  {
    var longer := log + [c];
    forall i | 0 <= i < |longer| && longer[i].task.Ask? ensures longer[i].task.node in Reported(longer[..i]) {
      assert longer[..i] == log[..i];
      assert log[..|log|] == log;
    }
  }

  lemma WaitingIsReported(dist: U160 -> nat, valid: NodeInfo -> bool, seen: seq<NodeInfo>, reported: seq<NodeInfo>,
                          asked: multiset<NodeInfo>, waiting: multiset<Task>, task: Task)
    requires Consistent(dist, valid, seen, reported, asked, waiting) && task in waiting && task.Ask?
    ensures task.node in reported
  {
    assert waiting[Ask(task.node)] > 0;
  }

  lemma RoundBegins(dist: U160 -> nat, valid: NodeInfo -> bool, findPeers: bool, nodes: seq<NodeInfo>,
                    net: (nat, NodeInfo) -> Reply, seen: seq<NodeInfo>, log: seq<Completion>, tasks: seq<Task>,
                    ignore: set<NodeInfo>, peers: set<SocketAddr>, task: Task, rest: seq<Task>)
    requires Between(dist, valid, findPeers, nodes, net, seen, log, tasks, ignore, peers)
    requires task in tasks && multiset(tasks) == multiset(rest) + multiset{task}
    requires (forall x :: x in rest ==> x in tasks) && (|tasks| == 1 ==> rest == [])
    ensures AllAsk(rest)
    ensures Consistent(dist, valid, seen, Reported(log), multiset(Asked(log)) + AsMultiset(task), multiset(rest))
    ensures Answers(log + [Completion(task, ResultOf(task, |log|, findPeers, net))], nodes, findPeers, net)
    ensures Caused(log + [Completion(task, ResultOf(task, |log|, findPeers, net))])
  {
    assert Caused(log + [Completion(task, ResultOf(task, |log|, findPeers, net))]) by {
      if task.Ask? {
        WaitingIsReported(dist, valid, seen, Reported(log), multiset(Asked(log)), multiset(tasks), task);
      }
      CausedPush(log, Completion(task, ResultOf(task, |log|, findPeers, net)));
    }
    assert AllAsk(rest) && if log == [] then task == Initial(nodes) else task.Ask? by {
      StagedMembers(log == [], nodes, tasks, task, rest);
    }
    assert Consistent(dist, valid, seen, Reported(log), multiset(Asked(log)) + AsMultiset(task), multiset(rest)) by {
      Complete(dist, valid, seen, Reported(log), multiset(Asked(log)), multiset(rest), task);
    }
    AnswersPush(log, task, nodes, findPeers, net);
  }

  lemma RoundEnds(dist: U160 -> nat, valid: NodeInfo -> bool, findPeers: bool, nodes: seq<NodeInfo>,
                  net: (nat, NodeInfo) -> Reply, seen: seq<NodeInfo>, log: seq<Completion>, tasks: seq<Task>,
                  c: Completion)
    requires Answers(log + [c], nodes, findPeers, net) && Caused(log + [c]) && AllAsk(tasks)
    requires Consistent(dist, valid, seen, Reported(log) + NodesOf(c.result), multiset(Asked(log)) + AsMultiset(c.task), multiset(tasks))
    requires seen == SeenFrom(dist, Reported(log) + NodesOf(c.result))
    ensures Between(dist, valid, findPeers, nodes, net, seen, log + [c], tasks,
                    Unresponsive(log) + (if c.result.RemoveOne? then {c.result.node} else {}),
                    AllPeers(log) + PeersOf(c.result))
  {
    LogPush(log, c);
  }

  lemma InitiallyBetween(dist: U160 -> nat, valid: NodeInfo -> bool, findPeers: bool, nodes: seq<NodeInfo>, net: (nat, NodeInfo) -> Reply)
    ensures Between(dist, valid, findPeers, nodes, net, [], [], [Initial(nodes)], {}, {})
  {
  }

  /** One round: a pending task finishes and its result is consumed. */
  method Round(target: U160, dist: U160 -> nat, findPeers: bool, ghost nodes: seq<NodeInfo>,
               valid: NodeInfo -> bool, net: (nat, NodeInfo) -> Reply, finishing: nat,
               seen0: seq<NodeInfo>, log0: seq<Completion>, tasks0: seq<Task>, ignore0: set<NodeInfo>, peers0: set<SocketAddr>)
    returns (seen: seq<NodeInfo>, log: seq<Completion>, tasks: seq<Task>, ignore: set<NodeInfo>, peers: set<SocketAddr>)
    requires Proper(dist, target) && tasks0 != []
    requires Between(dist, valid, findPeers, nodes, net, seen0, log0, tasks0, ignore0, peers0)
    ensures Between(dist, valid, findPeers, nodes, net, seen, log, tasks, ignore, peers)
    ensures |seen0| <= |seen| <= TWO_160 && (|seen| == |seen0| ==> |tasks| < |tasks0|)
  {
    var task, rest := GetNextResult(tasks0, finishing);
    var result := ResultOf(task, |log0|, findPeers, net);
    RoundBegins(dist, valid, findPeers, nodes, net, seen0, log0, tasks0, ignore0, peers0, task, rest);
    log := log0 + [Completion(task, result)];
    ignore := ignore0 + if result.RemoveOne? then {result.node} else {};
    peers := peers0 + PeersOf(result);
    ghost var asked := multiset(Asked(log0)) + AsMultiset(task);
    seen, tasks := Consume(target, dist, valid, NodesOf(result), seen0, rest, Reported(log0), asked);
    RoundEnds(dist, valid, findPeers, nodes, net, seen, log0, tasks, Completion(task, result));
  }

  /** The search loop. `order` says which pending task finishes next and `net` what its answer
      is; the log records every completion. The loop ends because each round either sees a new
      identifier or leaves one task fewer. */
  method Search(target: U160, dist: U160 -> nat, findPeers: bool, k: nat, nodes: seq<NodeInfo>,
                valid: NodeInfo -> bool, net: (nat, NodeInfo) -> Reply, order: nat -> nat)
    returns (found: Found, seen: seq<NodeInfo>, log: seq<Completion>)
    requires Proper(dist, target)
    ensures Between(dist, valid, findPeers, nodes, net, seen, log, [], Unresponsive(log), AllPeers(log))
    ensures found == if AllPeers(log) != {} then FoundPeers(AllPeers(log))
                     else KClosest(Closest(seen, Unresponsive(log), k))
  {
    var tasks: seq<Task> := [Initial(nodes)];
    var ignore: set<NodeInfo> := {};
    var peers: set<SocketAddr> := {};
    seen, log := [], [];
    InitiallyBetween(dist, valid, findPeers, nodes, net);
    while tasks != []
      invariant Between(dist, valid, findPeers, nodes, net, seen, log, tasks, ignore, peers)
      invariant |seen| <= TWO_160
      decreases TWO_160 - |seen|, |tasks|
    {
      seen, log, tasks, ignore, peers :=
        Round(target, dist, findPeers, nodes, valid, net, order(|log|), seen, log, tasks, ignore, peers);
    }
    found := if peers != {} then FoundPeers(peers) else KClosest(Closest(seen, ignore, k));
  }

  method FindNStartingAt(target: U160, findPeers: bool, k: nat, nodes: seq<NodeInfo>,
                         valid: NodeInfo -> bool, net: (nat, NodeInfo) -> Reply, order: nat -> nat)
    returns (found: Found, seen: seq<NodeInfo>, log: seq<Completion>)
    ensures Between(Metric(target), valid, findPeers, nodes, net, seen, log, [], Unresponsive(log), AllPeers(log))
    ensures found == if AllPeers(log) != {} then FoundPeers(AllPeers(log))
                     else KClosest(Closest(seen, Unresponsive(log), k))
  {
    MetricIsProper(target);
    found, seen, log := Search(target, Metric(target), findPeers, k, nodes, valid, net, order);
  }
}

/** The sweep of the key space for info hashes: an ordered queue of nodes to query, a bounded
    number of queries in flight, and at most one backfill search on the side. Any pending query
    may finish next, with any answer, and the backfill may store its result at any moment. */
module Sweeps {
  import opened U160s
  import opened NodeInfos
  import opened Wrappers

  /** How many queries are started before the first answer. */
  const WIDTH: nat := 200

  /** A queue head further than this from the target is a large gap. */
  const LARGE_GAP := U160(0x0000_3fff_ffff_ffff_ffff_ffff_ffff_ffff, 0xffff_ffff)

  datatype Answer =
    | Samples(nodes: seq<NodeInfo>, samples: seq<U160>)
    | Nearest(nodes: seq<NodeInfo>)
    | NoUse

  datatype Reply = Reply(nodes: seq<NodeInfo>, samples: Option<seq<U160>>)

  /** One query: samples are asked for first, nearest nodes only if that yields none. */
  function QueryOne(sampling: Answer, finding: Answer): Reply {
    match sampling
    case Samples(nodes, samples) => Reply(nodes, Some(samples))
    case _ => if finding.Nearest? then Reply(finding.nodes, None) else Reply([], None)
  }

  datatype Backfill = Idle | Searching(target: U160) | Stored

  /** What may happen on the side between two steps of the loop. */
  datatype Event = Nothing | Stores(nodes: seq<NodeInfo>, ends: bool) | Ends

  /** One entry into the queue: by seeding, or for the target whose answer reported the node. */
  datatype Entry = Entry(node: NodeInfo, reason: Option<U160>)

  datatype State = State(
    toSend: set<NodeInfo>, queried: set<U160>, tasks: seq<NodeInfo>, backfill: Backfill, sent: seq<U160>,
    entered: seq<Entry>, finished: seq<NodeInfo>, backfills: nat)

  datatype Choice = Choice(
    finishing: nat, sampling: Answer, finding: Answer,
    beforeGap: Event, beforeStart: Event, beforeNext: Event, after: Event)

  // ----- the ordered queue -----

  predicate IsFirst(s: set<NodeInfo>, n: NodeInfo) {
    n in s && forall m :: m in s ==> m == n || n.Less(m)
  }

  lemma {:induction false} FirstExists(s: set<NodeInfo>)
    requires s != {}
    ensures exists n :: IsFirst(s, n)
  {
    var x :| x in s;
    var rest := s - {x};
    assert forall m :: m in s ==> m == x || m in rest;
    if rest == {} {
      assert IsFirst(s, x);
    } else {
      FirstExists(rest);
      var n :| IsFirst(rest, n);
      NodeOrder(x, n);
      forall m | m in rest && x.Less(n) ensures x.Less(m) {
        if m != n { NodeTransitive(x, n, m); }
      }
      assert IsFirst(s, if x.Less(n) then x else n);
    }
  }

  lemma FirstIsUnique(s: set<NodeInfo>, a: NodeInfo, b: NodeInfo)
    requires IsFirst(s, a) && IsFirst(s, b)
    ensures a == b
  {
    NodeOrder(a, b);
  }

  ghost function First(s: set<NodeInfo>): (n: NodeInfo)
    requires s != {}
    ensures IsFirst(s, n)
  {
    FirstExists(s);
    var n :| IsFirst(s, n);
    n
  }

  method PopFirst(toSend: set<NodeInfo>) returns (n: NodeInfo, rest: set<NodeInfo>)
    requires toSend != {}
    ensures n == First(toSend) && rest == toSend - {n}
  {
    FirstExists(toSend);
    n :| n in toSend && IsFirst(toSend, n);
    FirstIsUnique(toSend, n, First(toSend));
    rest := toSend - {n};
  }

  // ----- the steps -----

  function Seed(s: State, n: NodeInfo): State {
    s.(queried := s.queried + {n.id}, toSend := s.toSend + {n},
       entered := if n in s.toSend then s.entered else s.entered + [Entry(n, None)])
  }

  function SeedAll(s: State, nodes: seq<NodeInfo>): State {
    if nodes == [] then s else Seed(SeedAll(s, nodes[..|nodes| - 1]), nodes[|nodes| - 1])
  }

  /** A reported node enters the queue if it lies above the target and was never seen before. */
  function Enter(s: State, target: U160, n: NodeInfo): State {
    if target.Less(n.id) && n.id !in s.queried then
      var known := s.(queried := s.queried + {n.id});
      if n in s.toSend then known
      else known.(toSend := s.toSend + {n}, entered := s.entered + [Entry(n, Some(target))])
    else s
  }

  function EnterAll(s: State, target: U160, nodes: seq<NodeInfo>): State {
    if nodes == [] then s else Enter(EnterAll(s, target, nodes[..|nodes| - 1]), target, nodes[|nodes| - 1])
  }

  ghost function QueryNext(s: State): State {
    if s.toSend == {} then s
    else s.(toSend := s.toSend - {First(s.toSend)}, tasks := s.tasks + [First(s.toSend)])
  }

  ghost function QueryMany(s: State, count: nat): State {
    if count == 0 then s else QueryNext(QueryMany(s, count - 1))
  }

  predicate LargeGap(first: Option<NodeInfo>, target: U160) {
    match first
    case None => false
    case Some(q) => LARGE_GAP.Less(q.id.Distance(target))
  }

  ghost function Head(s: State): Option<NodeInfo> {
    if s.toSend == {} then None else Some(First(s.toSend))
  }

  function Meanwhile(s: State, e: Event): State {
    match e
    case Nothing => s
    case Stores(nodes, ends) =>
      if s.backfill.Searching? then
        EnterAll(s, s.backfill.target, nodes).(backfill := if ends then Idle else Stored)
      else s
    case Ends => if s.backfill.Stored? then s.(backfill := Idle) else s
  }

  function Answered(s: State, i: nat, reply: Reply): State
    requires i < |s.tasks|
  {
    s.(tasks := s.tasks[..i] + s.tasks[i + 1..], finished := s.finished + [s.tasks[i]],
       sent := s.sent + if reply.samples.Some? then reply.samples.value else [])
  }

  /** An empty answer before a large gap starts a backfill, unless one is under way. */
  ghost function NoNodes(s: State, target: U160, c: Choice): State {
    var a := Meanwhile(s, c.beforeGap);
    var b := Meanwhile(a, c.beforeStart);
    if LargeGap(Head(a), target) && b.backfill.Idle? then b.(backfill := Searching(target), backfills := b.backfills + 1)
    else b
  }

  ghost function Absorbed(s: State, target: U160, nodes: seq<NodeInfo>, c: Choice): State {
    if nodes == [] then NoNodes(s, target, c) else EnterAll(Meanwhile(s, c.beforeGap), target, nodes)
  }

  /** One round of the loop, up to the moment the next query has been started. */
  ghost function Handled(s: State, c: Choice): State
    requires s.tasks != []
  {
    var i, reply := c.finishing % |s.tasks|, QueryOne(c.sampling, c.finding);
    QueryNext(Meanwhile(Absorbed(Answered(s, i, reply), s.tasks[i].id, reply.nodes, c), c.beforeNext))
  }

  ghost function Iterate(s: State, c: Choice): State {
    if s.tasks == [] then s else Meanwhile(Handled(s, c), c.after)
  }

  ghost function Begin(first: seq<NodeInfo>, second: seq<NodeInfo>): State {
    QueryMany(SeedAll(SeedAll(State({}, {}, [], Idle, [], [], [], 0), first), second), WIDTH)
  }

  ghost function Run(s: State, cs: seq<Choice>): State {
    if cs == [] then s else Iterate(Run(s, cs[..|cs| - 1]), cs[|cs| - 1])
  }

  // ----- the invariant -----

  function Nodes(entered: seq<Entry>): seq<NodeInfo> {
    seq(|entered|, i requires 0 <= i < |entered| => entered[i].node)
  }

  ghost predicate NoRepeats(entered: seq<Entry>) {
    && (forall i, j :: 0 <= i < j < |entered| ==> entered[i].node != entered[j].node)
    && (forall i, j :: 0 <= i < j < |entered| && entered[j].reason.Some? ==> entered[i].node.id != entered[j].node.id)
  }

  ghost predicate AboveTarget(entered: seq<Entry>) {
    forall i :: 0 <= i < |entered| && entered[i].reason.Some? ==> entered[i].reason.value.Less(entered[i].node.id)
  }

  ghost predicate EnteredIds(entered: seq<Entry>, queried: set<U160>) {
    && (forall i :: 0 <= i < |entered| ==> entered[i].node.id in queried)
    && (forall id :: id in queried ==> exists i :: 0 <= i < |entered| && entered[i].node.id == id)
  }

  /** Every entered node is queued, in flight or finished, and is there once. */
  ghost predicate Conserved(s: State) {
    multiset(Nodes(s.entered)) == multiset(s.toSend) + multiset(s.tasks) + multiset(s.finished)
  }

  ghost predicate Tidy(s: State) {
    NoRepeats(s.entered) && AboveTarget(s.entered) && EnteredIds(s.entered, s.queried) && Conserved(s)
  }

  lemma NodesPush(entered: seq<Entry>, e: Entry)
    ensures Nodes(entered + [e]) == Nodes(entered) + [e.node]
  {
  }

  lemma QueuedIsKnown(s: State, n: NodeInfo)
    requires Tidy(s) && n in s.toSend
    ensures n.id in s.queried
  {
    assert n in multiset(Nodes(s.entered));
    var i :| 0 <= i < |s.entered| && Nodes(s.entered)[i] == n;
  }

  lemma PushIds(entered: seq<Entry>, queried: set<U160>, e: Entry)
    requires EnteredIds(entered, queried)
    ensures EnteredIds(entered + [e], queried + {e.node.id})
  {
    var longer := entered + [e];
    forall id | id in queried + {e.node.id} ensures exists i :: 0 <= i < |longer| && longer[i].node.id == id {
      if id in queried {
        var i :| 0 <= i < |entered| && entered[i].node.id == id;
        assert longer[i] == entered[i];
      } else {
        assert longer[|entered|] == e;
      }
    }
  }

  lemma PushEntry(s: State, t: State, e: Entry)
    requires Tidy(s) && e.node !in s.toSend
    requires t.toSend == s.toSend + {e.node} && t.queried == s.queried + {e.node.id}
    requires t.entered == s.entered + [e] && t.tasks == s.tasks && t.finished == s.finished
    requires forall i :: 0 <= i < |s.entered| ==> s.entered[i].node != e.node
    requires e.reason.Some? ==> e.reason.value.Less(e.node.id) && e.node.id !in s.queried
    ensures Tidy(t)
  {
    PushIds(s.entered, s.queried, e);
    assert NoRepeats(t.entered);
    NodesPush(s.entered, e);
    assert multiset(t.toSend) == multiset(s.toSend) + multiset{e.node};
  }

  /** `t` has at most more in the queue, and only with identifiers it had not seen. */
  ghost predicate Grown(s: State, t: State) {
    && t.tasks == s.tasks && t.finished == s.finished && t.sent == s.sent && t.backfills >= s.backfills
    && s.queried <= t.queried && s.toSend <= t.toSend && (t.queried == s.queried ==> t.toSend == s.toSend)
  }

  lemma EnterKeeps(s: State, target: U160, n: NodeInfo)
    requires Tidy(s)
    ensures var t := Enter(s, target, n);
      && Tidy(t) && Grown(s, t) && t.backfills == s.backfills && t.backfill == s.backfill && t.toSend <= s.toSend + {n}
  {
    if target.Less(n.id) && n.id !in s.queried {
      if n in s.toSend { QueuedIsKnown(s, n); } else { PushEntry(s, Enter(s, target, n), Entry(n, Some(target))); }
    }
  }

  lemma GrownTransitive(s: State, t: State, u: State)
    requires Grown(s, t) && Grown(t, u)
    ensures Grown(s, u)
  {
  }

  function Members(nodes: seq<NodeInfo>): set<NodeInfo> {
    set n | n in nodes
  }

  lemma {:induction false} EnterAllKeeps(s: State, target: U160, nodes: seq<NodeInfo>)
    requires Tidy(s)
    ensures var t := EnterAll(s, target, nodes);
      && Tidy(t) && Grown(s, t) && t.backfills == s.backfills && t.backfill == s.backfill && t.toSend <= s.toSend + Members(nodes)
  {
    if nodes != [] {
      var init, last := nodes[..|nodes| - 1], nodes[|nodes| - 1];
      var mid := EnterAll(s, target, init);
      EnterAllKeeps(s, target, init);
      EnterKeeps(mid, target, last);
      GrownTransitive(s, mid, Enter(mid, target, last));
      assert Members(init) + {last} <= Members(nodes);
    }
  }

  lemma {:induction false} SeedAllKeeps(s: State, nodes: seq<NodeInfo>)
    requires Tidy(s) && s.tasks == [] && s.finished == [] && s.backfills == 0 && s.backfill == Idle && Unreasoned(s.entered)
    ensures var t := SeedAll(s, nodes);
      Tidy(t) && t.tasks == [] && t.finished == [] && t.backfills == 0 && t.backfill == Idle && Unreasoned(t.entered)
  {
    if nodes != [] {
      var mid, n := SeedAll(s, nodes[..|nodes| - 1]), nodes[|nodes| - 1];
      SeedAllKeeps(s, nodes[..|nodes| - 1]);
      SeedKeeps(mid, n);
    }
  }

  ghost predicate Unreasoned(entered: seq<Entry>) {
    forall i :: 0 <= i < |entered| ==> entered[i].reason == None
  }

  lemma SeedKeeps(s: State, n: NodeInfo)
    requires Tidy(s) && s.tasks == [] && s.finished == []
    ensures Tidy(Seed(s, n))
  {
    if n in s.toSend {
      QueuedIsKnown(s, n);
      assert Seed(s, n).queried == s.queried && Seed(s, n).toSend == s.toSend;
    } else {
      forall i | 0 <= i < |s.entered| ensures s.entered[i].node != n {
        assert Nodes(s.entered)[i] in multiset(Nodes(s.entered));
      }
      PushEntry(s, Seed(s, n), Entry(n, None));
    }
  }

  lemma QueryNextKeeps(s: State)
    requires Tidy(s)
    ensures Tidy(QueryNext(s))
    ensures QueryNext(s).tasks == [] ==> QueryNext(s).toSend == {}
  {
    if s.toSend != {} {
      assert multiset(s.toSend) == multiset(s.toSend - {First(s.toSend)}) + multiset{First(s.toSend)};
    }
  }

  lemma {:induction false} QueryManyKeeps(s: State, count: nat)
    requires Tidy(s) && s.tasks == [] && s.backfills == 0
    ensures var t := QueryMany(s, count);
      && Tidy(t) && t.finished == s.finished && t.entered == s.entered && |t.tasks| <= count && t.backfills == 0
      && (count > 0 && t.tasks == [] ==> t.toSend == {})
  {
    if count > 0 {
      QueryManyKeeps(s, count - 1);
      QueryNextKeeps(QueryMany(s, count - 1));
    }
  }

  lemma MeanwhileKeeps(s: State, e: Event)
    requires Tidy(s)
    ensures Tidy(Meanwhile(s, e)) && Grown(s, Meanwhile(s, e)) && Meanwhile(s, e).backfills == s.backfills
    ensures Meanwhile(s, e).toSend <= s.toSend + if e.Stores? then Members(e.nodes) else {}
    ensures s.backfill == Idle ==> Meanwhile(s, e) == s
  {
    if e.Stores? && s.backfill.Searching? {
      EnterAllKeeps(s, s.backfill.target, e.nodes);
    }
  }

  lemma NoNodesKeeps(s: State, target: U160, c: Choice)
    requires Tidy(s)
    ensures var t := NoNodes(s, target, c);
      Tidy(t) && Grown(s, t) && (s.backfill == Idle && t.backfills == s.backfills ==> t.backfill == Idle)
  {
    var a := Meanwhile(s, c.beforeGap);
    MeanwhileKeeps(s, c.beforeGap);
    MeanwhileKeeps(a, c.beforeStart);
    GrownTransitive(s, a, Meanwhile(a, c.beforeStart));
  }

  lemma AbsorbedKeeps(s: State, target: U160, nodes: seq<NodeInfo>, c: Choice)
    requires Tidy(s)
    ensures var t := Absorbed(s, target, nodes, c);
      Tidy(t) && Grown(s, t) && (s.backfill == Idle && t.backfills == s.backfills ==> t.backfill == Idle)
  {
    if nodes == [] {
      NoNodesKeeps(s, target, c);
    } else {
      var a := Meanwhile(s, c.beforeGap);
      MeanwhileKeeps(s, c.beforeGap);
      EnterAllKeeps(a, target, nodes);
      GrownTransitive(s, a, EnterAll(a, target, nodes));
    }
  }

  lemma AnsweredKeeps(s: State, i: nat, reply: Reply)
    requires Tidy(s) && i < |s.tasks|
    ensures Tidy(Answered(s, i, reply))
  {
    assert s.tasks == s.tasks[..i] + [s.tasks[i]] + s.tasks[i + 1..];
  }

  // ----- rounds and runs -----

  /** What holds whenever the loop looks for the next answer. */
  ghost predicate Sweeping(s: State) {
    && Tidy(s) && |s.tasks| <= WIDTH
    && (s.backfills == 0 ==> s.backfill == Idle)
    && (s.tasks == [] && s.backfills == 0 ==> s.toSend == {})
  }

  function Load(s: State): nat {
    2 * |s.toSend| + |s.tasks|
  }

  lemma QueryNextLoad(s: State)
    ensures var t := QueryNext(s);
      && |t.tasks| <= |s.tasks| + 1 && Load(t) <= Load(s)
      && t.queried == s.queried && t.backfill == s.backfill && t.backfills == s.backfills
  {
  }

  /** Everything up to the start of the next query. */
  lemma BeforeNext(s: State, c: Choice)
    requires Sweeping(s) && s.tasks != []
    ensures var i, reply := c.finishing % |s.tasks|, QueryOne(c.sampling, c.finding);
      var answered := Answered(s, i, reply);
      var ready := Meanwhile(Absorbed(answered, s.tasks[i].id, reply.nodes, c), c.beforeNext);
      && Tidy(ready) && Grown(answered, ready) && (ready.backfills == 0 ==> ready.backfill == Idle)
  {
    var i, reply := c.finishing % |s.tasks|, QueryOne(c.sampling, c.finding);
    var answered := Answered(s, i, reply);
    AnsweredKeeps(s, i, reply);
    var absorbed := Absorbed(answered, s.tasks[i].id, reply.nodes, c);
    AbsorbedKeeps(answered, s.tasks[i].id, reply.nodes, c);
    MeanwhileKeeps(absorbed, c.beforeNext);
    GrownTransitive(answered, absorbed, Meanwhile(absorbed, c.beforeNext));
  }

  lemma HandledKeeps(s: State, c: Choice)
    requires Sweeping(s) && s.tasks != []
    ensures var t := Handled(s, c);
      && Sweeping(t) && s.queried <= t.queried && t.backfills >= s.backfills
      && (t.tasks == [] ==> t.toSend == {})
      && (t.queried == s.queried ==> Load(t) < Load(s))
  {
    var i, reply := c.finishing % |s.tasks|, QueryOne(c.sampling, c.finding);
    var ready := Meanwhile(Absorbed(Answered(s, i, reply), s.tasks[i].id, reply.nodes, c), c.beforeNext);
    BeforeNext(s, c);
    QueryNextKeeps(ready);
    QueryNextLoad(ready);
  }

  /** Each round keeps the queue tidy, and either sees a new identifier or has less left to do. */
  lemma IterateKeeps(s: State, c: Choice)
    requires Sweeping(s)
    ensures Sweeping(Iterate(s, c)) && s.queried <= Iterate(s, c).queried
    ensures s.tasks != [] && Iterate(s, c).queried == s.queried ==> Load(Iterate(s, c)) < Load(s)
  {
    if s.tasks != [] {
      HandledKeeps(s, c);
      MeanwhileKeeps(Handled(s, c), c.after);
    }
  }

  /** A node that would enter the queue if it were reported for `target`. */
  predicate Fresh(s: State, target: U160, n: NodeInfo) {
    target.Less(n.id) && n.id !in s.queried
  }

  predicate SomeFresh(s: State, target: U160, nodes: seq<NodeInfo>) {
    exists n :: n in nodes && Fresh(s, target, n)
  }

  lemma SomeFreshPush(s: State, target: U160, nodes: seq<NodeInfo>, n: NodeInfo)
    ensures SomeFresh(s, target, nodes + [n]) <==> SomeFresh(s, target, nodes) || Fresh(s, target, n)
  {
    if m :| m in nodes && Fresh(s, target, m) {
      assert m in nodes + [n];
    }
    assert n in nodes + [n];
  }

  lemma EnterFills(s: State, target: U160, n: NodeInfo)
    ensures s.toSend != {} ==> Enter(s, target, n).toSend != {}
    ensures Fresh(s, target, n) ==> n in Enter(s, target, n).toSend
    ensures !Fresh(s, target, n) ==> Enter(s, target, n) == s
  {
  }

  /** An empty queue stays empty exactly if none of the reported nodes is fresh. */
  lemma {:induction false} EnterAllFills(s: State, target: U160, nodes: seq<NodeInfo>)
    requires s.toSend == {}
    ensures EnterAll(s, target, nodes).toSend != {} <==> SomeFresh(s, target, nodes)
    ensures !SomeFresh(s, target, nodes) ==> EnterAll(s, target, nodes) == s
  {
    if nodes != [] {
      var init, last := nodes[..|nodes| - 1], nodes[|nodes| - 1];
      EnterAllFills(s, target, init);
      EnterFills(EnterAll(s, target, init), target, last);
      SomeFreshPush(s, target, init, last);
      assert init + [last] == nodes;
    }
  }

  /** A search under way that stores nodes, at least one of which is above its target and new. */
  ghost predicate StoresFresh(s: State, e: Event) {
    e.Stores? && s.backfill.Searching? && SomeFresh(s, s.backfill.target, e.nodes)
  }

  /** When the loop is over, nodes are left in the queue exactly when a backfill that was under way
      stored a new one after the last query had been started; those nodes are never queried. */
  lemma LeftExactlyWhen(s: State, c: Choice)
    requires Sweeping(s) && s.tasks != [] && Iterate(s, c).tasks == []
    ensures Iterate(s, c).toSend != {} <==> StoresFresh(Handled(s, c), c.after)
    ensures Iterate(s, c).toSend <= if c.after.Stores? then Members(c.after.nodes) else {}
  {
    var h := Handled(s, c);
    HandledKeeps(s, c);
    MeanwhileKeeps(h, c.after);
    if c.after.Stores? && h.backfill.Searching? {
      EnterAllFills(h, h.backfill.target, c.after.nodes);
    }
  }

  lemma BeginKeeps(first: seq<NodeInfo>, second: seq<NodeInfo>)
    ensures Sweeping(Begin(first, second))
  {
    var empty := State({}, {}, [], Idle, [], [], [], 0);
    SeedAllKeeps(empty, first);
    SeedAllKeeps(SeedAll(empty, first), second);
    QueryManyKeeps(SeedAll(SeedAll(empty, first), second), WIDTH);
    QueryManyLeaves(SeedAll(SeedAll(empty, first), second), WIDTH);
  }

  lemma {:induction false} QueryManyLeaves(s: State, count: nat)
    ensures QueryMany(s, count).backfill == s.backfill
  {
    if count > 0 { QueryManyLeaves(s, count - 1); }
  }

  lemma {:induction false} RunKeeps(first: seq<NodeInfo>, second: seq<NodeInfo>, cs: seq<Choice>)
    ensures Sweeping(Run(Begin(first, second), cs))
  {
    if cs == [] {
      BeginKeeps(first, second);
    } else {
      RunKeeps(first, second, cs[..|cs| - 1]);
      IterateKeeps(Run(Begin(first, second), cs[..|cs| - 1]), cs[|cs| - 1]);
    }
  }
}

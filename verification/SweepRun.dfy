/** The sweep as the program runs it, and what every run of it guarantees. */
module SweepRuns {
  import opened U160s
  import opened NodeInfos
  import opened Wrappers
  import opened Sweeps

  // ----- the program -----

  method AddToSendQueue(s0: State, target: U160, nodes: seq<NodeInfo>) returns (s: State)
    ensures s == EnterAll(s0, target, nodes)
  {
    var queried, toSend, entered := s0.queried, s0.toSend, s0.entered;
    for i := 0 to |nodes|
      invariant EnterAll(s0, target, nodes[..i]) == s0.(queried := queried, toSend := toSend, entered := entered)
    {
      var n := nodes[i];
      assert nodes[..i + 1][..i] == nodes[..i];
      if target.Less(n.id) && n.id !in queried {
        queried := queried + {n.id};
        if n !in toSend {
          toSend, entered := toSend + {n}, entered + [Entry(n, Some(target))];
        }
      }
    }
    assert nodes[..|nodes|] == nodes;
    s := s0.(queried := queried, toSend := toSend, entered := entered);
  }

  method SeedQueue(s0: State, nodes: seq<NodeInfo>) returns (s: State)
    ensures s == SeedAll(s0, nodes)
  {
    var queried, toSend, entered := s0.queried, s0.toSend, s0.entered;
    for i := 0 to |nodes|
      invariant SeedAll(s0, nodes[..i]) == s0.(queried := queried, toSend := toSend, entered := entered)
    {
      var n := nodes[i];
      assert nodes[..i + 1][..i] == nodes[..i];
      queried := queried + {n.id};
      if n !in toSend {
        toSend, entered := toSend + {n}, entered + [Entry(n, None)];
      }
    }
    assert nodes[..|nodes|] == nodes;
    s := s0.(queried := queried, toSend := toSend, entered := entered);
  }

  method StartNext(s0: State) returns (s: State)
    ensures s == QueryNext(s0)
  {
    s := s0;
    if s0.toSend != {} {
      var n, rest := PopFirst(s0.toSend);
      s := s0.(toSend := rest, tasks := s0.tasks + [n]);
    }
  }

  method HandleNoNodes(s0: State, target: U160, c: Choice) returns (s: State)
    ensures s == NoNodes(s0, target, c)
  {
    s := Meanwhile(s0, c.beforeGap);
    var largeGap := false;
    if s.toSend != {} {
      var q, _ := PopFirst(s.toSend);
      largeGap := LARGE_GAP.Less(q.id.Distance(target));
    }
    s := Meanwhile(s, c.beforeStart);
    if largeGap && s.backfill.Idle? {
      s := s.(backfill := Searching(target), backfills := s.backfills + 1);
    }
  }

  method HandleAnswer(s0: State, c: Choice) returns (s: State)
    requires s0.tasks != []
    ensures s == Handled(s0, c)
  {
    var i := c.finishing % |s0.tasks|;
    var target, reply := s0.tasks[i].id, QueryOne(c.sampling, c.finding);
    s := Answered(s0, i, reply);
    if reply.nodes == [] {
      s := HandleNoNodes(s, target, c);
    } else {
      s := AddToSendQueue(Meanwhile(s, c.beforeGap), target, reply.nodes);
    }
    s := StartNext(Meanwhile(s, c.beforeNext));
  }

  method StartSweep(first: seq<NodeInfo>, second: seq<NodeInfo>) returns (s: State)
    ensures s == Begin(first, second) && Sweeping(s) && |s.queried| <= TWO_160
  {
    s := SeedQueue(State({}, {}, [], Idle, [], [], [], 0), first);
    s := SeedQueue(s, second);
    ghost var seeded := s;
    for i := 0 to WIDTH
      invariant s == QueryMany(seeded, i)
    {
      s := StartNext(s);
    }
    BeginKeeps(first, second);
    AtMostAllIds(s.queried);
  }

  method SweepRound(s0: State, c: Choice) returns (s: State)
    requires Sweeping(s0) && s0.tasks != []
    ensures s == Iterate(s0, c) && Sweeping(s)
    ensures |s0.queried| <= |s.queried| <= TWO_160 && (|s.queried| == |s0.queried| ==> Load(s) < Load(s0))
  {
    s := HandleAnswer(s0, c);
    s := Meanwhile(s, c.after);
    IterateKeeps(s0, c);
    SubsetSize(s0.queried, s.queried);
    AtMostAllIds(s.queried);
  }

  /** The whole sweep. It ends although the network may report new nodes in every answer: an
      identifier enters once, and there are only 2^160 of them. */
  method InfohashSweep(first: seq<NodeInfo>, second: seq<NodeInfo>, env: nat -> Choice)
    returns (s: State, ghost cs: seq<Choice>)
    ensures s.tasks == [] && s == Run(Begin(first, second), cs) && Live(Begin(first, second), cs)
    ensures forall i :: 0 <= i < |cs| ==> cs[i] == env(i)
  {
    s := StartSweep(first, second);
    ghost var start := s;
    cs := [];
    var round := 0;
    while s.tasks != []
      invariant Sweeping(s) && |s.queried| <= TWO_160
      invariant IsRun(start, cs, env, round, s) && Live(start, cs)
      decreases TWO_160 - |s.queried|, Load(s)
    {
      IsRunPush(start, cs, env, round, s);
      LivePush(start, cs, env(round));
      s := SweepRound(s, env(round));
      cs, round := cs + [env(round)], round + 1;
    }
  }

  /** `cs` are the first `round` choices of the environment, and `s` is where they lead. */
  ghost predicate IsRun(start: State, cs: seq<Choice>, env: nat -> Choice, round: nat, s: State) {
    s == Run(start, cs) && round == |cs| && forall i :: 0 <= i < |cs| ==> cs[i] == env(i)
  }

  /** The loop was still going before each of the rounds. */
  ghost predicate Live(start: State, cs: seq<Choice>) {
    forall i :: 0 <= i < |cs| ==> Run(start, cs[..i]).tasks != []
  }

  lemma LivePush(start: State, cs: seq<Choice>, c: Choice)
    requires Live(start, cs) && Run(start, cs).tasks != []
    ensures Live(start, cs + [c])
  {
    forall i | 0 <= i < |cs + [c]| ensures Run(start, (cs + [c])[..i]).tasks != [] {
      assert (cs + [c])[..i] == if i < |cs| then cs[..i] else cs;
    }
  }

  lemma IsRunPush(start: State, cs: seq<Choice>, env: nat -> Choice, round: nat, s: State)
    requires IsRun(start, cs, env, round, s)
    ensures IsRun(start, cs + [env(round)], env, round + 1, Iterate(s, env(round)))
  {
    assert (cs + [env(round)])[..|cs|] == cs;
  }

  lemma {:induction false} BelowCounts(ids: set<U160>, n: nat)
    requires forall id :: id in ids ==> id.Nat() < n
    ensures |ids| <= n
  {
    if n == 0 {
      assert ids == {};
    } else if id :| id in ids && id.Nat() == n - 1 {
      forall other | other in ids - {id} ensures other.Nat() < n - 1 {
        NatInjective(id, other);
      }
      BelowCounts(ids - {id}, n - 1);
    } else {
      BelowCounts(ids, n - 1);
    }
  }

  lemma AtMostAllIds(ids: set<U160>)
    ensures |ids| <= TWO_160
  {
    BelowCounts(ids, TWO_160);
  }

  // ----- what every run guarantees -----

  /** No node enters the queue twice, no identifier reported by an answer enters it twice or after
      being seeded, every reported node lies above the target it was reported for, and at most
      `WIDTH` queries are ever in flight. */
  lemma EntersOnce(first: seq<NodeInfo>, second: seq<NodeInfo>, cs: seq<Choice>)
    ensures var s := Run(Begin(first, second), cs);
      && (forall i, j :: 0 <= i < j < |s.entered| ==> s.entered[i].node != s.entered[j].node)
      && (forall i, j :: 0 <= i < j < |s.entered| && s.entered[j].reason.Some? ==>
            s.entered[i].node.id != s.entered[j].node.id)
      && (forall i :: 0 <= i < |s.entered| && s.entered[i].reason.Some? ==>
            s.entered[i].reason.value.Less(s.entered[i].node.id))
      && |s.tasks| <= WIDTH
  {
    RunKeeps(first, second, cs);
  }

  lemma {:induction false} Occurrences(s: seq<NodeInfo>, n: NodeInfo)
    requires forall i, j :: 0 <= i < j < |s| ==> s[i] != s[j]
    ensures multiset(s)[n] == if n in s then 1 else 0
  {
    if s != [] {
      Occurrences(s[..|s| - 1], n);
      assert s == s[..|s| - 1] + [s[|s| - 1]];
    }
  }

  /** Every node that entered the queue has been queried exactly once, is in flight, or still
      waits, and only one of these; no other node is ever queried. */
  lemma QueriedExactlyOnce(first: seq<NodeInfo>, second: seq<NodeInfo>, cs: seq<Choice>, n: NodeInfo)
    ensures var s := Run(Begin(first, second), cs);
      multiset(s.finished)[n] + multiset(s.tasks)[n] + (if n in s.toSend then 1 else 0)
      == if n in Nodes(s.entered) then 1 else 0
  {
    RunKeeps(first, second, cs);
    var s := Run(Begin(first, second), cs);
    Occurrences(Nodes(s.entered), n);
    assert multiset(Nodes(s.entered))[n] == multiset(s.toSend)[n] + multiset(s.tasks)[n] + multiset(s.finished)[n];
  }

  /** Without a backfill a finished sweep has queried every node that ever entered the queue. */
  lemma NothingLeftWithoutBackfill(first: seq<NodeInfo>, second: seq<NodeInfo>, cs: seq<Choice>)
    requires Run(Begin(first, second), cs).tasks == [] && Run(Begin(first, second), cs).backfills == 0
    ensures var s := Run(Begin(first, second), cs);
      s.toSend == {} && multiset(s.finished) == multiset(Nodes(s.entered))
  {
    RunKeeps(first, second, cs);
  }

  function SamplesIn(c: Choice): seq<U160> {
    if c.sampling.Samples? then c.sampling.samples else []
  }

  /** The samples of the answers, in the order in which the answers came. */
  function SamplesOf(cs: seq<Choice>): seq<U160> {
    if cs == [] then [] else SamplesOf(cs[..|cs| - 1]) + SamplesIn(cs[|cs| - 1])
  }

  lemma HandledSends(s: State, c: Choice)
    requires Sweeping(s) && s.tasks != []
    ensures Handled(s, c).sent == s.sent + SamplesIn(c) && |Handled(s, c).finished| == |s.finished| + 1
  {
    BeforeNext(s, c);
  }

  lemma IterateSends(s: State, c: Choice)
    requires Sweeping(s) && s.tasks != []
    ensures Iterate(s, c).sent == s.sent + SamplesIn(c) && |Iterate(s, c).finished| == |s.finished| + 1
  {
    HandledSends(s, c);
    HandledKeeps(s, c);
    MeanwhileKeeps(Handled(s, c), c.after);
  }

  lemma LiveInit(start: State, cs: seq<Choice>)
    requires Live(start, cs) && cs != []
    ensures Live(start, cs[..|cs| - 1]) && Run(start, cs[..|cs| - 1]).tasks != []
  {
    var init := cs[..|cs| - 1];
    forall i | 0 <= i < |init| ensures Run(start, init[..i]).tasks != [] {
      assert init[..i] == cs[..i];
    }
  }

  /** Each round answers one query, and every sample of every answer is forwarded, in order. */
  lemma {:induction false} SamplesAreForwarded(first: seq<NodeInfo>, second: seq<NodeInfo>, cs: seq<Choice>)
    requires Live(Begin(first, second), cs)
    ensures var s := Run(Begin(first, second), cs); s.sent == SamplesOf(cs) && |s.finished| == |cs|
  {
    if cs == [] {
      NothingSent(first, second);
    } else {
      LiveInit(Begin(first, second), cs);
      SamplesAreForwarded(first, second, cs[..|cs| - 1]);
      RunKeeps(first, second, cs[..|cs| - 1]);
      IterateSends(Run(Begin(first, second), cs[..|cs| - 1]), cs[|cs| - 1]);
    }
  }

  lemma {:induction false} SeedAllSends(s: State, nodes: seq<NodeInfo>)
    ensures SeedAll(s, nodes).sent == s.sent && SeedAll(s, nodes).finished == s.finished
  {
    if nodes != [] { SeedAllSends(s, nodes[..|nodes| - 1]); }
  }

  lemma {:induction false} QueryManySends(s: State, count: nat)
    ensures QueryMany(s, count).sent == s.sent && QueryMany(s, count).finished == s.finished
  {
    if count > 0 { QueryManySends(s, count - 1); }
  }

  lemma NothingSent(first: seq<NodeInfo>, second: seq<NodeInfo>)
    ensures Begin(first, second).sent == [] && Begin(first, second).finished == []
  {
    var empty := State({}, {}, [], Idle, [], [], [], 0);
    SeedAllSends(empty, first);
    SeedAllSends(SeedAll(empty, first), second);
    QueryManySends(SeedAll(SeedAll(empty, first), second), WIDTH);
  }

  /** Exactly when a finished sweep leaves nodes in the queue: its last round ended with a backfill
      that stored a new node after the last query had been started. */
  lemma LeftInQueueExactlyWhen(first: seq<NodeInfo>, second: seq<NodeInfo>, cs: seq<Choice>)
    requires Live(Begin(first, second), cs) && Run(Begin(first, second), cs).tasks == []
    ensures Run(Begin(first, second), cs).toSend != {} <==>
      cs != [] && StoresFresh(Handled(Run(Begin(first, second), cs[..|cs| - 1]), cs[|cs| - 1]), cs[|cs| - 1].after)
  {
    if cs == [] {
      BeginKeeps(first, second);
      BeginIsIdle(first, second);
    } else {
      LiveInit(Begin(first, second), cs);
      RunKeeps(first, second, cs[..|cs| - 1]);
      LeftExactlyWhen(Run(Begin(first, second), cs[..|cs| - 1]), cs[|cs| - 1]);
    }
  }

  lemma BeginIsIdle(first: seq<NodeInfo>, second: seq<NodeInfo>)
    ensures Begin(first, second).backfills == 0
  {
    var empty := State({}, {}, [], Idle, [], [], [], 0);
    SeedAllMembers(empty, first);
    SeedAllMembers(SeedAll(empty, first), second);
    QueryManyStarts(SeedAll(SeedAll(empty, first), second), WIDTH);
  }

  lemma {:induction false} QueryManyStarts(s: State, count: nat)
    ensures QueryMany(s, count).backfills == s.backfills
  {
    if count > 0 { QueryManyStarts(s, count - 1); }
  }

  // ----- a backfill can be lost -----

  /** An answer without nodes, while nothing happens on the side. */
  const QUIET := Choice(0, NoUse, NoUse, Nothing, Nothing, Nothing, Nothing)

  lemma QuietHandled(s: State)
    requires s.tasks != [] && s.backfill.Searching?
    ensures Handled(s, QUIET).backfill == s.backfill && Handled(s, QUIET).queried == s.queried
  {
  }

  lemma QuietRound(s: State)
    requires Sweeping(s) && s.tasks != [] && s.backfill.Searching?
    ensures var t := Iterate(s, QUIET);
      Sweeping(t) && t.backfill == s.backfill && t.queried == s.queried && Load(t) < Load(s) && t == Handled(s, QUIET)
  {
    QuietHandled(s);
    HandledKeeps(s, QUIET);
  }

  lemma StoredLate(s: State, n: NodeInfo)
    requires Sweeping(s) && s.tasks != [] && s.backfill.Searching? && Handled(s, QUIET).tasks == []
    requires s.backfill.target.Less(n.id) && n.id !in s.queried
    ensures var t := Iterate(s, QUIET.(after := Stores([n], true))); t.tasks == [] && n in t.toSend
  {
    QuietRound(s);
    var h := Handled(s, QUIET);
    assert Handled(s, QUIET.(after := Stores([n], true))) == h;
    assert [n][..0] == [];
    assert EnterAll(h, s.backfill.target, [n]) == Enter(EnterAll(h, s.backfill.target, []), s.backfill.target, n);
    HandledKeeps(s, QUIET);
  }

  lemma {:induction false} RunConcat(s: State, a: seq<Choice>, b: seq<Choice>)
    ensures Run(s, a + b) == Run(Run(s, a), b)
  {
    if b == [] {
      assert a + b == a;
    } else {
      assert (a + b)[..|a + b| - 1] == a + b[..|b| - 1];
      RunConcat(s, a, b[..|b| - 1]);
    }
  }

  /** Whenever a backfill is under way, the sweep can end before it stores its nodes: they then stay
      in the queue for ever. */
  lemma {:induction false} LateBackfillIsLost(s: State, n: NodeInfo) returns (cs: seq<Choice>)
    requires Sweeping(s) && s.tasks != [] && s.backfill.Searching?
    requires s.backfill.target.Less(n.id) && n.id !in s.queried
    ensures Run(s, cs).tasks == [] && n in Run(s, cs).toSend
    decreases Load(s)
  {
    QuietRound(s);
    if Handled(s, QUIET).tasks == [] {
      StoredLate(s, n);
      cs := [QUIET.(after := Stores([n], true))];
      assert cs[..0] == [];
    } else {
      var t := Iterate(s, QUIET);
      var rest := LateBackfillIsLost(t, n);
      cs := [QUIET] + rest;
      assert [QUIET][..0] == [];
      RunConcat(s, [QUIET], rest);
    }
  }

  // ----- a run that loses nodes -----

  const ADDR := SocketAddr(V4([0, 0, 0, 0]), 0)

  const ZERO := U160(0, 0)

  /** A node in the upper half of the key space. */
  const FAR := NodeInfo(U160(0x8000_0000_0000_0000_0000_0000_0000_0000, 0), ADDR)

  /** Nodes at the bottom of the key space. */
  function Low(i: U32): NodeInfo {
    NodeInfo(U160(0, i), ADDR)
  }

  function Seeds(count: nat): seq<NodeInfo>
    requires count <= WIDTH
  {
    [FAR] + seq(count, i requires 0 <= i < count => Low(i))
  }

  lemma {:induction false} SeedAllMembers(s: State, nodes: seq<NodeInfo>)
    ensures var t := SeedAll(s, nodes);
      && t.toSend == s.toSend + Members(nodes) && t.tasks == s.tasks && t.backfill == s.backfill && t.backfills == s.backfills
      && t.finished == s.finished && (forall id :: id in t.queried ==> id in s.queried || exists n :: n in nodes && n.id == id)
  {
    if nodes != [] {
      SeedAllMembers(s, nodes[..|nodes| - 1]);
      assert Members(nodes) == Members(nodes[..|nodes| - 1]) + {nodes[|nodes| - 1]};
    }
  }

  lemma {:induction false} SeedsCount(count: nat)
    requires count <= WIDTH
    ensures |Members(Seeds(count))| == count + 1
    ensures forall n :: n in Seeds(count) ==> n == FAR || (n.id.ms == 0 && n.id.ls < count && n == Low(n.id.ls))
  {
    if count == 0 {
      assert Members(Seeds(0)) == {FAR};
    } else {
      SeedsCount(count - 1);
      assert Seeds(count) == Seeds(count - 1) + [Low(count - 1)];
      assert Members(Seeds(count)) == Members(Seeds(count - 1)) + {Low(count - 1)};
    }
  }

  /** The far node is the last to leave the queue, and the node at zero the first. */
  ghost predicate Draining(s: State, popped: nat) {
    && FAR in s.toSend && |s.toSend| == WIDTH + 1 - popped && popped <= WIDTH
    && (forall n :: n in s.toSend ==> n == FAR || n.id.ms == 0)
    && (if popped == 0 then s.tasks == [] && IsFirst(s.toSend, Low(0)) else s.tasks != [] && s.tasks[0] == Low(0))
  }

  lemma DrainOne(s: State, popped: nat)
    requires Draining(s, popped) && popped < WIDTH
    ensures Draining(QueryNext(s), popped + 1)
  {
    var n := First(s.toSend);
    assert exists m :: m in s.toSend && m != FAR by {
      assert s.toSend - {FAR} != {} by { assert s.toSend == (s.toSend - {FAR}) + {FAR}; }
      var m :| m in s.toSend - {FAR};
    }
    var m :| m in s.toSend && m != FAR;
    NodeOrder(m, FAR);
    if popped == 0 { FirstIsUnique(s.toSend, n, Low(0)); }
    assert s.toSend == (s.toSend - {n}) + {n};
  }

  lemma {:induction false} DrainMany(s: State, popped: nat)
    requires Draining(s, 0) && popped <= WIDTH
    ensures var t := QueryMany(s, popped); Draining(t, popped) && t.queried == s.queried && t.backfill == s.backfill
  {
    if popped > 0 {
      DrainMany(s, popped - 1);
      DrainOne(QueryMany(s, popped - 1), popped - 1);
    }
  }

  lemma LowIsFirst()
    ensures IsFirst(Members(Seeds(WIDTH)), Low(0))
    ensures forall n :: n in Seeds(WIDTH) ==> n == FAR || n.id.ms == 0
  {
    SeedsCount(WIDTH);
    assert Seeds(WIDTH)[1] == Low(0);
    forall m | m in Seeds(WIDTH) ensures m == Low(0) || Low(0).Less(m) {
    }
  }

  lemma SeedsDrain(s: State)
    requires s == SeedAll(SeedAll(State({}, {}, [], Idle, [], [], [], 0), Seeds(WIDTH)), [])
    ensures Draining(s, 0) && s.backfill == Idle && forall id :: id in s.queried ==> id == FAR.id || id.ms == 0
  {
    SeedAllMembers(State({}, {}, [], Idle, [], [], [], 0), Seeds(WIDTH));
    assert |Members(Seeds(WIDTH))| == WIDTH + 1 by { SeedsCount(WIDTH); }
    LowIsFirst();
    assert s.toSend == Members(Seeds(WIDTH));
    assert FAR == Seeds(WIDTH)[0];
  }

  lemma FarIsFar()
    ensures LARGE_GAP.Less(FAR.id.Distance(ZERO))
  {
    ZeroDistance(FAR.id, FAR.id);
    DistanceIsUnidirectional(FAR.id, ZERO, FAR.id);
  }

  /** An empty answer from the node at zero, when only the far node waits, starts a backfill. */
  lemma BackfillStarts(s: State)
    requires Draining(s, WIDTH) && s.backfill == Idle
    ensures var t := Iterate(s, QUIET); t.backfill == Searching(ZERO) && t.tasks != [] && t.queried == s.queried
  {
    FarIsFar();
    assert s.toSend == {FAR} by {
      assert s.toSend == (s.toSend - {FAR}) + {FAR};
    }
    var answered := Answered(s, 0, Reply([], None));
    assert Head(answered) == Some(FAR);
  }

  /** The sweep can end with nodes still queued: some network and schedule lose a backfill. */
  lemma SweepCanLeaveNodes() returns (cs: seq<Choice>)
    ensures Run(Begin(Seeds(WIDTH), []), cs).tasks == [] && Run(Begin(Seeds(WIDTH), []), cs).toSend != {}
  {
    var seeded := SeedAll(SeedAll(State({}, {}, [], Idle, [], [], [], 0), Seeds(WIDTH)), []);
    SeedsDrain(seeded);
    DrainMany(seeded, WIDTH);
    var s := Begin(Seeds(WIDTH), []);
    BeginKeeps(Seeds(WIDTH), []);
    BackfillStarts(s);
    IterateKeeps(s, QUIET);
    var rest := LateBackfillIsLost(Iterate(s, QUIET), NodeInfo(U160(1, 0), ADDR));
    cs := [QUIET] + rest;
    assert [QUIET][..0] == [];
    RunConcat(s, [QUIET], rest);
  }
}

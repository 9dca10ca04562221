/** A call that no other call interrupts does, step by step, exactly what the atomic operation of
    `Chains` does: the lock steps refine the sequential routing table. */
module LockRefinement {
  import opened U160s
  import opened NodeInfos
  import opened Wrappers
  import opened Chains
  import opened LockSteps

  /** The vectors of a chain, first bucket first. */
  function Row(c: Chain): (r: seq<seq<NodeInfo>>)
    ensures r != [] && r[0] == c.nodes
  {
    [c.nodes] + if c.Link? then Row(c.next) else []
  }

  function Repeat<S>(f: S -> S, s: S, n: nat): S {
    if n == 0 then s else Repeat(f, f(s), n - 1)
  }

  lemma {:induction false} RepeatMore<S>(f: S -> S, s: S, m: nat, n: nat)
    ensures Repeat(f, s, m + n) == Repeat(f, Repeat(f, s, m), n)
  {
    if m > 0 { RepeatMore(f, f(s), m - 1, n); }
  }

  /** One step of an uninterrupted call, if it can take one. */
  function Forward(p: (Table, Stack)): (Table, Stack) {
    match Advance(p.0, p.1)
    case None => p
    case Some(next) => next
  }

  /** Some number of uninterrupted steps of one call. */
  ghost predicate Leads(tb: Table, stack: Stack, tb': Table, stack': Stack) {
    exists n: nat :: Repeat(Forward, (tb, stack), n) == (tb', stack')
  }

  lemma Chain2(tb: Table, stack: Stack, tb': Table, stack': Stack, tb'': Table, stack'': Stack)
    requires Leads(tb, stack, tb', stack') && Leads(tb', stack', tb'', stack'')
    ensures Leads(tb, stack, tb'', stack'')
  {
    var m: nat :| Repeat(Forward, (tb, stack), m) == (tb', stack');
    var n: nat :| Repeat(Forward, (tb', stack'), n) == (tb'', stack'');
    RepeatMore(Forward, (tb, stack), m, n);
    assert Repeat(Forward, (tb, stack), m + n) == (tb'', stack'');
  }

  /** A step, then more steps. */
  lemma StepThen(tb: Table, below: Stack, f: Frame, tb': Table, stack': Stack, tb'': Table, stack'': Stack)
    requires Dispatch(tb, below, f) == Some((tb', stack')) && Leads(tb', stack', tb'', stack'')
    ensures Leads(tb, below + [f], tb'', stack'')
  {
    assert Below(below + [f]) == below;
    assert Forward((tb, below + [f])) == (tb', stack');
    var n: nat :| Repeat(Forward, (tb', stack'), n) == (tb'', stack'');
    assert Repeat(Forward, (tb, below + [f]), n + 1) == (tb'', stack'');
  }

  lemma StepLast(tb: Table, below: Stack, f: Frame, tb': Table, stack': Stack)
    requires Dispatch(tb, below, f) == Some((tb', stack'))
    ensures Leads(tb, below + [f], tb', stack')
  {
    assert Repeat(Forward, (tb', stack'), 0) == (tb', stack');
    StepThen(tb, below, f, tb', stack', tb', stack');
  }

  /** The table whose buckets from `c.index` on are the chain `c`, with no lock of theirs held. */
  ghost predicate Shows(tb: Table, pre: seq<seq<NodeInfo>>, c: Chain) {
    && tb.own == c.own && tb.k == c.k && |pre| == c.index && tb.buckets == pre + Row(c)
    && forall h :: h in tb.held ==> h < c.index
  }

  function Showing(tb: Table, pre: seq<seq<NodeInfo>>, c: Chain): Table {
    tb.(buckets := pre + Row(c))
  }

  lemma ShowsHead(tb: Table, pre: seq<seq<NodeInfo>>, c: Chain)
    requires Shows(tb, pre, c)
    ensures tb.Free(c.index) && tb.buckets[c.index] == c.nodes && (tb.HasNext(c.index) <==> c.Link?)
  {
    assert tb.buckets[|pre|] == Row(c)[0];
    assert |tb.buckets| == |pre| + |Row(c)|;
  }

  lemma ShowsWith(tb: Table, pre: seq<seq<NodeInfo>>, c: Chain, nodes: seq<NodeInfo>)
    requires Shows(tb, pre, c) && c.index < |tb.buckets|
    ensures tb.With(c.index, nodes) == Showing(tb, pre, c.(nodes := nodes))
  {
    assert Row(c)[0 := nodes] == Row(c.(nodes := nodes));
    assert tb.buckets[|pre| := nodes] == pre + Row(c)[0 := nodes];
  }

  lemma Regroup(pre: seq<seq<NodeInfo>>, x: seq<NodeInfo>, rest: seq<seq<NodeInfo>>)
    ensures pre + ([x] + rest) == (pre + [x]) + rest
  {
  }

  lemma ShowsNext(tb: Table, pre: seq<seq<NodeInfo>>, c: Chain, next: Chain)
    requires Shows(tb, pre, c) && Shape(c) && c.Link?
    ensures Shows(tb, pre + [c.nodes], c.next)
    ensures Showing(tb, pre + [c.nodes], next) == Showing(tb, pre, c.(next := next))
  {
    Regroup(pre, c.nodes, Row(c.next));
    Regroup(pre, c.nodes, Row(next));
    assert Row(c.(next := next)) == [c.nodes] + Row(next);
  }

  // ----- add -----

  lemma StoreHere(tb: Table, below: Stack, pre: seq<seq<NodeInfo>>, c: Chain, n: NodeInfo)
    requires Shows(tb, pre, c)
    ensures Leads(tb, below + [AddStore(c.index, n)], Showing(tb, pre, c.(nodes := AddOrUpdate(c.nodes, c.k, n))), below)
  {
    var nodes := AddOrUpdate(c.nodes, c.k, n);
    ShowsHead(tb, pre, c);
    ShowsWith(tb, pre, c, nodes);
    StepLast(tb, below, AddStore(c.index, n), tb.With(c.index, nodes), below);
  }

  lemma AddWithRoom(tb: Table, below: Stack, pre: seq<seq<NodeInfo>>, c: Chain, n: NodeInfo)
    requires Shows(tb, pre, c) && Shape(c) && c.Last? && |c.nodes| < c.k
    ensures Leads(tb, below + [AddStart(c.index, n)], Showing(tb, pre, Add(c, n)), below)
  {
    var j := c.index;
    var tb' := Showing(tb, pre, Add(c, n));
    ShowsHead(tb, pre, c);
    StoreHere(tb, below, pre, c, n);
    StepThen(tb, below, AddLen(j, n), tb, below + [AddStore(j, n)], tb', below);
    StepThen(tb, below, AddStart(j, n), tb, below + [AddLen(j, n)], tb', below);
  }

  /** The two last buckets during a split, while the lock of the first is held. */
  function Splitting(tb: Table, pre: seq<seq<NodeInfo>>, kept: seq<NodeInfo>, moved: seq<NodeInfo>): Table {
    tb.(buckets := pre + [kept, moved], held := tb.held + {|pre|})
  }

  lemma MoveOne(tb: Table, below: Stack, pre: seq<seq<NodeInfo>>, kept: seq<NodeInfo>, moved: seq<NodeInfo>, x: NodeInfo)
    requires (forall h :: h in tb.held ==> h < |pre|) && |pre| < MAX_BUCKET_INDEX && |moved| < tb.k
    ensures Leads(Splitting(tb, pre, kept, moved), below + [AddStart(|pre| + 1, x)],
                  Splitting(tb, pre, kept, AddOrUpdate(moved, tb.k, x)), below)
  {
    var s := Splitting(tb, pre, kept, moved);
    var c := Last(tb.own, tb.k, |pre| + 1, moved);
    assert pre + [kept, moved] == (pre + [kept]) + Row(c);
    AddWithRoom(s, below, pre + [kept], c, x);
    assert pre + [kept, AddOrUpdate(moved, tb.k, x)] == (pre + [kept]) + Row(Add(c, x));
  }

  /** The partition loop, step by step, is `Split`. */
  lemma {:induction false} SplitLeads(tb: Table, below: Stack, pre: seq<seq<NodeInfo>>, c: Chain, n: NodeInfo, nodes: seq<NodeInfo>, i: nat, moved: seq<NodeInfo>)
    requires tb.own == c.own && tb.k == c.k && |pre| == c.index < MAX_BUCKET_INDEX
    requires (forall h :: h in tb.held ==> h < c.index)
    requires i <= |nodes| && |nodes| + |moved| <= c.k
    ensures var (kept, sent) := Split(c, nodes, i, moved);
      Leads(Splitting(tb, pre, nodes, moved), below + [SplitLoop(c.index, n, i)],
            tb.(buckets := pre + [kept, sent]), below + [AddRoute(c.index, n)])
    decreases |nodes| - i
  {
    var j := c.index;
    var s := Splitting(tb, pre, nodes, moved);
    var f := SplitLoop(j, n, i);
    var (kept, sent) := Split(c, nodes, i, moved);
    var goal, rest := tb.(buckets := pre + [kept, sent]), below + [AddRoute(j, n)];
    assert s.buckets[j] == nodes;
    if i == |nodes| {
      assert s.held - {j} == tb.held;
      StepLast(s, below, f, goal, rest);
    } else if c.Belongs(nodes[i].id) {
      SplitLeads(tb, below, pre, c, n, nodes, i + 1, moved);
      StepThen(s, below, f, s, below + [SplitLoop(j, n, i + 1)], goal, rest);
    } else {
      var fewer := SwapRemove(nodes, i);
      var more := AddOrUpdate(moved, c.k, nodes[i]);
      var s1 := Splitting(tb, pre, fewer, moved);
      assert s.With(j, fewer) == s1;
      MoveOne(tb, below + [f], pre, fewer, moved, nodes[i]);
      SplitLeads(tb, below, pre, c, n, fewer, i, more);
      assert (below + [f]) + [AddStart(j + 1, nodes[i])] == below + [f, AddStart(j + 1, nodes[i])];
      Chain2(s1, below + [f, AddStart(j + 1, nodes[i])], Splitting(tb, pre, fewer, more), below + [f], goal, rest);
      StepThen(s, below, f, s1, below + [f, AddStart(j + 1, nodes[i])], goal, rest);
    }
  }

  /** From the making of the next bucket to the routing of the node in the split chain. */
  lemma MakeLeads(tb: Table, below: Stack, pre: seq<seq<NodeInfo>>, c: Chain, n: NodeInfo)
    requires Shows(tb, pre, c) && Shape(c) && c.Last? && c.index < MAX_BUCKET_INDEX
    ensures Leads(tb, below + [AddMake(c.index, n)],
                  Showing(tb, pre, SplitBucket(c)), below + [AddRoute(c.index, n)])
  {
    var j := c.index;
    var goal, rest := Showing(tb, pre, SplitBucket(c)), below + [AddRoute(j, n)];
    var (kept, sent) := Split(c, c.nodes, 0, []);
    var grown := tb.(buckets := tb.buckets + [[]]);
    var locked := Splitting(tb, pre, c.nodes, []);
    ShowsHead(tb, pre, c);
    assert tb.buckets == pre + [c.nodes];
    assert grown.buckets == pre + [c.nodes, []];
    assert Row(SplitBucket(c)) == [kept, sent];
    SplitLeads(tb, below, pre, c, n, c.nodes, 0, []);
    StepThen(grown, below, SplitWait(j, n), locked, below + [SplitLoop(j, n, 0)], goal, rest);
    StepThen(tb, below, AddMake(j, n), grown, below + [SplitWait(j, n)], goal, rest);
  }

  /** From a full last bucket to the routing of the node in the split chain. */
  lemma SplitFull(tb: Table, below: Stack, pre: seq<seq<NodeInfo>>, c: Chain, n: NodeInfo)
    requires Shows(tb, pre, c) && Shape(c) && c.Last? && |c.nodes| == c.k && c.index < MAX_BUCKET_INDEX
    ensures Leads(tb, below + [AddStart(c.index, n)],
                  Showing(tb, pre, SplitBucket(c)), below + [AddRoute(c.index, n)])
  {
    MakeLeads(tb, below, pre, c, n);
    UpToMake(tb, below, pre, c, AddStart(c.index, n), Showing(tb, pre, SplitBucket(c)), below + [AddRoute(c.index, n)]);
  }

  /** The frames of an add before it makes the next bucket. */
  predicate Checking(f: Frame) { f.AddStart? || f.AddLen? || f.AddCheck? || f.AddFull? || f.AddMake? }

  /** The four checks of an insertion into a full last bucket. */
  lemma UpToMake(tb: Table, below: Stack, pre: seq<seq<NodeInfo>>, c: Chain, f: Frame, goal: Table, rest: Stack)
    requires Shows(tb, pre, c) && c.Last? && |c.nodes| == c.k && Checking(f) && f.j == c.index
    requires Leads(tb, below + [AddMake(c.index, f.n)], goal, rest)
    ensures Leads(tb, below + [f], goal, rest)
  {
    var j, n := c.index, f.n;
    ShowsHead(tb, pre, c);
    if !f.AddMake? {
      StepThen(tb, below, AddFull(j, n), tb, below + [AddMake(j, n)], goal, rest);
      StepThen(tb, below, AddCheck(j, n), tb, below + [AddFull(j, n)], goal, rest);
      StepThen(tb, below, AddLen(j, n), tb, below + [AddCheck(j, n)], goal, rest);
      StepThen(tb, below, AddStart(j, n), tb, below + [AddLen(j, n)], goal, rest);
    }
  }

  /** An uninterrupted insertion is `Add`. */
  lemma {:induction false} AddLeads(tb: Table, below: Stack, pre: seq<seq<NodeInfo>>, c: Chain, n: NodeInfo)
    requires Shows(tb, pre, c) && Shape(c)
    ensures Leads(tb, below + [AddStart(c.index, n)], Showing(tb, pre, Add(c, n)), below)
    decreases MAX_BUCKET_INDEX - c.index, 1
  {
    var j := c.index;
    if c.Last? && |c.nodes| < c.k {
      AddWithRoom(tb, below, pre, c, n);
    } else if c.Last? && j == MAX_BUCKET_INDEX {
      StepLast(tb, below, AddMake(j, n), tb, below);
      UpToMake(tb, below, pre, c, AddStart(j, n), tb, below);
    } else if c.Last? {
      SplitFull(tb, below, pre, c, n);
      var d := SplitBucket(c);
      RouteLeads(Showing(tb, pre, d), below, pre, d, n);
      Chain2(tb, below + [AddStart(j, n)], Showing(tb, pre, d), below + [AddRoute(j, n)],
             Showing(tb, pre, Add(c, n)), below);
    } else {
      var goal := Showing(tb, pre, Add(c, n));
      ShowsHead(tb, pre, c);
      RouteLeads(tb, below, pre, c, n);
      StepThen(tb, below, AddCheck(j, n), tb, below + [AddRoute(j, n)], goal, below);
      StepThen(tb, below, AddStart(j, n), tb, below + [AddCheck(j, n)], goal, below);
    }
  }

  lemma RouteDown(tb: Table, below: Stack, j: nat, n: NodeInfo, goal: Table, rest: Stack)
    requires tb.HasNext(j) && !tb.Belongs(j, n.id) && Leads(tb, below + [AddStart(j + 1, n)], goal, rest)
    ensures Leads(tb, below + [AddRoute(j, n)], goal, rest)
  {
    StepThen(tb, below, AddRoute(j, n), tb, below + [AddStart(j + 1, n)], goal, rest);
  }

  lemma RouteHere(tb: Table, below: Stack, j: nat, n: NodeInfo, goal: Table, rest: Stack)
    requires tb.Belongs(j, n.id) && Leads(tb, below + [AddStore(j, n)], goal, rest)
    ensures Leads(tb, below + [AddRoute(j, n)], goal, rest)
  {
    StepThen(tb, below, AddRoute(j, n), tb, below + [AddStore(j, n)], goal, rest);
  }

  lemma {:induction false} RouteLeads(tb: Table, below: Stack, pre: seq<seq<NodeInfo>>, c: Chain, n: NodeInfo)
    requires Shows(tb, pre, c) && Shape(c) && c.Link?
    ensures Leads(tb, below + [AddRoute(c.index, n)], Showing(tb, pre, Add(c, n)), below)
    decreases MAX_BUCKET_INDEX - c.index, 0
  {
    var j := c.index;
    var goal := Showing(tb, pre, Add(c, n));
    ShowsHead(tb, pre, c);
    assert tb.Belongs(j, n.id) == c.Belongs(n.id);
    if c.Belongs(n.id) {
      StoreHere(tb, below, pre, c, n);
      RouteHere(tb, below, j, n, goal, below);
    } else {
      ShowsNext(tb, pre, c, Add(c.next, n));
      AddLeads(tb, below, pre + [c.nodes], c.next, n);
      RouteDown(tb, below, j, n, goal, below);
    }
  }

  // ----- an add that was interrupted -----

  /** Wherever an add stands in a bucket that has a next one by now, except where it has seen room,
      it goes on as `Add` would on what it finds. */
  lemma ResumedAdd(tb: Table, below: Stack, pre: seq<seq<NodeInfo>>, c: Chain, f: Frame)
    requires Shows(tb, pre, c) && Shape(c) && c.Link?
    requires (f.AddStart? || f.AddCheck? || f.AddFull? || f.AddMake? || f.AddRoute?) && f.j == c.index
    ensures Leads(tb, below + [f], Showing(tb, pre, Add(c, f.n)), below)
  {
    var j, n, goal := f.j, f.n, Showing(tb, pre, Add(c, f.n));
    ShowsHead(tb, pre, c);
    RouteLeads(tb, below, pre, c, n);
    StepThen(tb, below, AddMake(j, n), tb, below + [AddRoute(j, n)], goal, below);
    var next := if |c.nodes| == c.k then AddMake(j, n) else AddRoute(j, n);
    StepThen(tb, below, AddFull(j, n), tb, below + [next], goal, below);
    StepThen(tb, below, AddCheck(j, n), tb, below + [AddRoute(j, n)], goal, below);
    StepThen(tb, below, AddStart(j, n), tb, below + [AddCheck(j, n)], goal, below);
  }

  /** So it does in a last bucket that is full. */
  lemma ResumedInFull(tb: Table, below: Stack, pre: seq<seq<NodeInfo>>, c: Chain, f: Frame)
    requires Shows(tb, pre, c) && Shape(c) && c.Last? && |c.nodes| == c.k && Checking(f) && f.j == c.index
    ensures Leads(tb, below + [f], Showing(tb, pre, Add(c, f.n)), below)
  {
    var j, n, goal := f.j, f.n, Showing(tb, pre, Add(c, f.n));
    if j == MAX_BUCKET_INDEX {
      StepLast(tb, below, AddMake(j, n), tb, below);
    } else {
      var d := SplitBucket(c);
      MakeLeads(tb, below, pre, c, n);
      RouteLeads(Showing(tb, pre, d), below, pre, d, n);
      Chain2(tb, below + [AddMake(j, n)], Showing(tb, pre, d), below + [AddRoute(j, n)], goal, below);
    }
    UpToMake(tb, below, pre, c, f, goal, below);
  }

  /** Where it has seen room it stores, whatever became of the bucket since. */
  lemma ResumedInRoom(tb: Table, below: Stack, pre: seq<seq<NodeInfo>>, c: Chain, f: Frame)
    requires Shows(tb, pre, c) && (f.AddStore? || (f.AddLen? && |c.nodes| < c.k)) && f.j == c.index
    ensures Leads(tb, below + [f], Showing(tb, pre, c.(nodes := AddOrUpdate(c.nodes, c.k, f.n))), below)
  {
    var goal := Showing(tb, pre, c.(nodes := AddOrUpdate(c.nodes, c.k, f.n)));
    ShowsHead(tb, pre, c);
    StoreHere(tb, below, pre, c, f.n);
    if f.AddLen? { StepThen(tb, below, f, tb, below + [AddStore(f.j, f.n)], goal, below); }
  }

  // ----- lookup -----

  lemma NearStep(tb: Table, below: Stack, j: nat, id: U160, near: seq<NodeInfo>, rest: Stack)
    requires tb.HasNext(j) && !tb.Belongs(j, id)
    requires var waiting := below + [LookNear(j, id)];
      Leads(tb, waiting + [LookStart(j + 1, id)], tb, waiting + [Answer(near)])
    requires Leads(tb, below + [LookHere(j, id, near)], tb, rest)
    ensures Leads(tb, below + [LookStart(j, id)], tb, rest)
  {
    var waiting := below + [LookNear(j, id)];
    assert Below(waiting) == below && Top(waiting) == LookNear(j, id);
    StepThen(tb, waiting, Answer(near), tb, below + [LookHere(j, id, near)], tb, rest);
    Chain2(tb, waiting + [LookStart(j + 1, id)], tb, waiting + [Answer(near)], tb, rest);
    assert waiting + [LookStart(j + 1, id)] == below + [LookNear(j, id), LookStart(j + 1, id)];
    StepThen(tb, below, LookStart(j, id), tb, below + [LookNear(j, id), LookStart(j + 1, id)], tb, rest);
  }

  lemma MoreStep(tb: Table, below: Stack, j: nat, id: U160, here: seq<NodeInfo>, deeper: seq<NodeInfo>)
    requires tb.HasNext(j) && |here| < tb.k
    requires var waiting := below + [LookMore(j, id, here)];
      Leads(tb, waiting + [LookStart(j + 1, id)], tb, waiting + [Answer(deeper)])
    ensures Leads(tb, below + [LookTail(j, id, here)], tb, below + [Answer(here + Take(deeper, tb.k - |here|))])
  {
    var waiting := below + [LookMore(j, id, here)];
    var rest := below + [Answer(here + Take(deeper, tb.k - |here|))];
    assert Below(waiting) == below && Top(waiting) == LookMore(j, id, here);
    StepLast(tb, waiting, Answer(deeper), tb, rest);
    Chain2(tb, waiting + [LookStart(j + 1, id)], tb, waiting + [Answer(deeper)], tb, rest);
    assert waiting + [LookStart(j + 1, id)] == below + [LookMore(j, id, here), LookStart(j + 1, id)];
    StepThen(tb, below, LookTail(j, id, here), tb, below + [LookMore(j, id, here), LookStart(j + 1, id)], tb, rest);
  }

  lemma HereStep(tb: Table, below: Stack, pre: seq<seq<NodeInfo>>, c: Chain, id: U160, near: seq<NodeInfo>, rest: Stack)
    requires Shows(tb, pre, c) && |near| <= c.k
    requires Leads(tb, below + [LookTail(c.index, id, near + Take(c.nodes, c.k - |near|))], tb, rest)
    ensures Leads(tb, below + [LookHere(c.index, id, near)], tb, rest)
  {
    var here := near + Take(c.nodes, c.k - |near|);
    ShowsHead(tb, pre, c);
    assert |near| == c.k ==> here == near;
    StepThen(tb, below, LookHere(c.index, id, near), tb, below + [LookTail(c.index, id, here)], tb, rest);
  }

  lemma TailEnds(tb: Table, below: Stack, j: nat, id: U160, here: seq<NodeInfo>)
    requires |here| >= tb.k || !tb.HasNext(j)
    ensures Leads(tb, below + [LookTail(j, id, here)], tb, below + [Answer(here)])
  {
    StepLast(tb, below, LookTail(j, id, here), tb, below + [Answer(here)]);
  }

  lemma StartHere(tb: Table, below: Stack, j: nat, id: U160, rest: Stack)
    requires !tb.HasNext(j) || tb.Belongs(j, id)
    requires Leads(tb, below + [LookHere(j, id, [])], tb, rest)
    ensures Leads(tb, below + [LookStart(j, id)], tb, rest)
  {
    StepThen(tb, below, LookStart(j, id), tb, below + [LookHere(j, id, [])], tb, rest);
  }

  /** What a lookup answers that has collected `here` in this bucket and those it asked before. */
  function Topped(c: Chain, id: U160, here: seq<NodeInfo>): seq<NodeInfo>
    requires Shape(c)
  {
    if |here| < c.k && c.Link? then here + Take(Lookup(c.next, id), c.k - |here|) else here
  }

  lemma LookupIsTopped(c: Chain, id: U160)
    requires Shape(c)
    ensures Lookup(c, id) == Topped(c, id, Near(c, id) + Take(c.nodes, c.k - |Near(c, id)|))
  {
  }

  /** An uninterrupted lookup answers what `Lookup` does and leaves the table alone. */
  lemma {:induction false} LookLeads(tb: Table, below: Stack, pre: seq<seq<NodeInfo>>, c: Chain, id: U160)
    requires Shows(tb, pre, c) && Shape(c)
    ensures Leads(tb, below + [LookStart(c.index, id)], tb, below + [Answer(Lookup(c, id))])
    decreases c, 2
  {
    var j := c.index;
    var rest := below + [Answer(Lookup(c, id))];
    ShowsHead(tb, pre, c);
    assert tb.Belongs(j, id) == c.Belongs(id);
    ResumedLookup(tb, below, pre, c, id, Near(c, id));
    LookupIsTopped(c, id);
    if c.Link? && !c.Belongs(id) {
      ShowsNext(tb, pre, c, c.next);
      LookLeads(tb, below + [LookNear(j, id)], pre + [c.nodes], c.next, id);
      NearStep(tb, below, j, id, Near(c, id), rest);
    } else {
      StartHere(tb, below, j, id, rest);
    }
  }

  /** A lookup that has collected `near` adds what fits of this bucket and of those after it, however
      the table has changed since it collected them. */
  lemma {:induction false} ResumedLookup(tb: Table, below: Stack, pre: seq<seq<NodeInfo>>, c: Chain, id: U160, near: seq<NodeInfo>)
    requires Shows(tb, pre, c) && Shape(c) && |near| <= c.k
    ensures Leads(tb, below + [LookHere(c.index, id, near)], tb,
                  below + [Answer(Topped(c, id, near + Take(c.nodes, c.k - |near|)))])
    decreases c, 1
  {
    var here := near + Take(c.nodes, c.k - |near|);
    TailLeads(tb, below, pre, c, id, here);
    HereStep(tb, below, pre, c, id, near, below + [Answer(Topped(c, id, here))]);
  }

  lemma {:induction false} TailLeads(tb: Table, below: Stack, pre: seq<seq<NodeInfo>>, c: Chain, id: U160, here: seq<NodeInfo>)
    requires Shows(tb, pre, c) && Shape(c)
    ensures Leads(tb, below + [LookTail(c.index, id, here)], tb, below + [Answer(Topped(c, id, here))])
    decreases c, 0
  {
    ShowsHead(tb, pre, c);
    if |here| < c.k && c.Link? {
      ShowsNext(tb, pre, c, c.next);
      LookLeads(tb, below + [LookMore(c.index, id, here)], pre + [c.nodes], c.next, id);
      MoreStep(tb, below, c.index, id, here, Lookup(c.next, id));
    } else {
      TailEnds(tb, below, c.index, id, here);
    }
  }

  // ----- remove -----

  lemma RemoveHereLeads(tb: Table, below: Stack, pre: seq<seq<NodeInfo>>, c: Chain, id: U160)
    requires Shows(tb, pre, c)
    ensures Leads(tb, below + [RemoveHere(c.index, id)], Showing(tb, pre, c.(nodes := WithoutFirst(c.nodes, id))),
                  below + [Removed(FindFirst(c.nodes, id) >= 0)])
  {
    var nodes := WithoutFirst(c.nodes, id);
    ShowsHead(tb, pre, c);
    ShowsWith(tb, pre, c, nodes);
    StepLast(tb, below, RemoveHere(c.index, id), tb.With(c.index, nodes), below + [Removed(FindFirst(c.nodes, id) >= 0)]);
  }

  lemma RemoveUnfolds(c: Chain, id: U160)
    ensures Remove(c, id) ==
      if c.Last? || c.Belongs(id) then (c.(nodes := WithoutFirst(c.nodes, id)), FindFirst(c.nodes, id) >= 0)
      else (c.(next := Remove(c.next, id).0), Remove(c.next, id).1)
  {
  }

  lemma RemoveDown(tb: Table, below: Stack, j: nat, id: U160, goal: Table, rest: Stack)
    requires tb.HasNext(j) && !tb.Belongs(j, id) && Leads(tb, below + [RemoveStart(j + 1, id)], goal, rest)
    ensures Leads(tb, below + [RemoveStart(j, id)], goal, rest)
  {
    StepThen(tb, below, RemoveStart(j, id), tb, below + [RemoveStart(j + 1, id)], goal, rest);
  }

  lemma RemoveStops(tb: Table, below: Stack, j: nat, id: U160, goal: Table, rest: Stack)
    requires !tb.HasNext(j) || tb.Belongs(j, id)
    requires Leads(tb, below + [RemoveHere(j, id)], goal, rest)
    ensures Leads(tb, below + [RemoveStart(j, id)], goal, rest)
  {
    StepThen(tb, below, RemoveStart(j, id), tb, below + [RemoveHere(j, id)], goal, rest);
  }

  /** An uninterrupted removal is `Remove`, and reports what it does. */
  lemma {:induction false} RemoveLeads(tb: Table, below: Stack, pre: seq<seq<NodeInfo>>, c: Chain, id: U160)
    requires Shows(tb, pre, c) && Shape(c)
    ensures Leads(tb, below + [RemoveStart(c.index, id)], Showing(tb, pre, Remove(c, id).0), below + [Removed(Remove(c, id).1)])
    decreases c
  {
    var j := c.index;
    var goal, rest := Showing(tb, pre, Remove(c, id).0), below + [Removed(Remove(c, id).1)];
    ShowsHead(tb, pre, c);
    RemoveUnfolds(c, id);
    assert tb.Belongs(j, id) == c.Belongs(id);
    if c.Last? || c.Belongs(id) {
      RemoveHereLeads(tb, below, pre, c, id);
      RemoveStops(tb, below, j, id, goal, rest);
    } else {
      ShowsNext(tb, pre, c, Remove(c.next, id).0);
      RemoveLeads(tb, below, pre + [c.nodes], c.next, id);
      RemoveDown(tb, below, j, id, goal, rest);
    }
  }

  // ----- the sequential table -----

  /** What the atomic operation makes of the chain, and the answer it leaves. */
  function Atomic(c: Chain, call: Call): (Chain, Stack)
    requires Shape(c)
  {
    match call
    case Insert(n) => (Add(c, n), [])
    case Delete(id) => (Remove(c, id).0, [Removed(Remove(c, id).1)])
    case Find(id) => (c, [Answer(Lookup(c, id))])
  }

  /** From a table that shows a whole chain and holds no lock, a call that runs alone leaves the
      table showing what the atomic operation makes of the chain, and a lookup or a removal its answer. */
  lemma UninterruptedCallIsAtomic(c: Chain, call: Call)
    requires Shape(c) && c.index == 0
    ensures Leads(Table(c.own, c.k, Row(c), {}), Entry(call),
                  Table(c.own, c.k, Row(Atomic(c, call).0), {}), Atomic(c, call).1)
  {
    var tb := Table(c.own, c.k, Row(c), {});
    var d := Atomic(c, call).0;
    assert [] + Row(c) == Row(c) && [] + Row(d) == Row(d);
    assert Showing(tb, [], d) == Table(c.own, c.k, Row(d), {});
    assert [] + [Entry(call)[0]] == Entry(call);
    match call
    case Insert(n) => AddLeads(tb, [], [], c, n);
    case Delete(id) =>
      RemoveLeads(tb, [], [], c, id);
      assert [] + [Removed(Remove(c, id).1)] == [Removed(Remove(c, id).1)];
    case Find(id) =>
      LookLeads(tb, [], [], c, id);
      assert [] + [Answer(Lookup(c, id))] == [Answer(Lookup(c, id))];
  }
}

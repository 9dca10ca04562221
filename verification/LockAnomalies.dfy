/** What concurrent calls can do and sequential calls cannot, each with the schedule that does it. */
module LockAnomalies {
  import opened U160s
  import opened NodeInfos
  import opened Wrappers
  import opened Chains
  import opened LockSteps

  ghost predicate Reachable(start: State, s: State) {
    exists schedule :: Run(start, schedule) == s
  }

  lemma Begin(start: State)
    ensures Reachable(start, start)
  {
    assert Run(start, []) == start;
  }

  /** One step of call `t`, whose frame `f` stands on `below`. */
  lemma Then(start: State, s: State, t: nat, below: Stack, f: Frame, tb: Table, stack: Stack) returns (s': State)
    requires Reachable(start, s) && t < |s.calls| && s.calls[t] == below + [f]
    requires Dispatch(s.tb, below, f) == Some((tb, stack))
    ensures Reachable(start, s') && s' == State(tb, s.calls[t := stack])
  {
    var schedule :| Run(start, schedule) == s;
    assert Below(s.calls[t]) == below;
    s' := Tick(s, t);
    assert (schedule + [t])[..|schedule|] == schedule;
    assert Run(start, schedule + [t]) == s';
  }

  /** One step of a call that has a single frame before and after. */
  lemma Alone(start: State, s: State, t: nat, f: Frame, tb: Table, g: Frame) returns (s': State)
    requires Reachable(start, s) && t < |s.calls| && s.calls[t] == [f]
    requires Dispatch(s.tb, [], f) == Some((tb, [] + [g]))
    ensures Reachable(start, s') && s' == State(tb, s.calls[t := [g]])
  {
    assert [] + [f] == [f] && [] + [g] == [g];
    s' := Then(start, s, t, [], f, tb, [] + [g]);
  }

  /** Up to the last check of its length, an insertion into a full and unsplit first bucket. */
  lemma UpToFull(start: State, s: State, t: nat, n: NodeInfo) returns (s': State)
    requires Reachable(start, s) && t < |s.calls| && s.calls[t] == [AddStart(0, n)]
    requires |s.tb.buckets| == 1 && s.tb.held == {} && |s.tb.buckets[0]| == s.tb.k
    ensures Reachable(start, s') && s' == State(s.tb, s.calls[t := [AddFull(0, n)]])
  {
    s' := Alone(start, s, t, AddStart(0, n), s.tb, AddLen(0, n));
    s' := Alone(start, s', t, AddLen(0, n), s.tb, AddCheck(0, n));
    s' := Alone(start, s', t, AddCheck(0, n), s.tb, AddFull(0, n));
  }

  lemma StoreOne(n: NodeInfo)
    ensures AddOrUpdate([], 1, n) == [n]
  {
  }

  /** An insertion into an empty, unlocked bucket `j` that is the last one. */
  lemma StoreInEmpty(start: State, s: State, t: nat, below: Stack, j: nat, n: NodeInfo) returns (s': State)
    requires Reachable(start, s) && t < |s.calls| && s.calls[t] == below + [AddStart(j, n)]
    requires |s.tb.buckets| == j + 1 && s.tb.buckets[j] == [] && j !in s.tb.held && s.tb.k == 1
    ensures Reachable(start, s') && s' == State(s.tb.With(j, [n]), s.calls[t := below])
  {
    s' := Then(start, s, t, below, AddStart(j, n), s.tb, below + [AddLen(j, n)]);
    s' := Then(start, s', t, below, AddLen(j, n), s.tb, below + [AddStore(j, n)]);
    StoreOne(n);
    s' := Then(start, s', t, below, AddStore(j, n), s.tb.With(j, [n]), below);
  }

  /** The removal of the only node of an unsplit first bucket. */
  lemma EmptyFirst(start: State, s: State, t: nat, x: NodeInfo) returns (s': State)
    requires Reachable(start, s) && t < |s.calls| && s.calls[t] == [RemoveStart(0, x.id)]
    requires s.tb.buckets == [[x]] && s.tb.held == {}
    ensures Reachable(start, s') && s' == State(s.tb.With(0, []), s.calls[t := [Removed(true)]])
  {
    s' := Alone(start, s, t, RemoveStart(0, x.id), s.tb, RemoveHere(0, x.id));
    assert [] + [RemoveHere(0, x.id)] == [RemoveHere(0, x.id)];
    assert WithoutFirst([x], x.id) == [] && [] + [Removed(true)] == [Removed(true)];
    s' := Then(start, s', t, [], RemoveHere(0, x.id), s.tb.With(0, []), [] + [Removed(true)]);
  }

  /** A removal between the two length checks of an insertion makes the insertion panic: the
      bucket is no longer full, so it is not split, and the next bucket is then missing. */
  lemma RemovalCanPanicAnAdd(own: U160, x: NodeInfo, y: NodeInfo) returns (s: State)
    requires !own.Distance(y.id).GetBit(0)
    ensures Reachable(Start(own, 1, [Insert(x), Insert(y), Delete(x.id)]), s)
    ensures s.calls == [[], [Panicked], [Removed(true)]] && s.tb.buckets == [[]]
  {
    var start := Start(own, 1, [Insert(x), Insert(y), Delete(x.id)]);
    Begin(start);
    assert [] + [AddStart(0, x)] == [AddStart(0, x)];
    s := StoreInEmpty(start, start, 0, [], 0, x);
    s := UpToFull(start, s, 1, y);
    s := EmptyFirst(start, s, 2, x);
    s := Alone(start, s, 1, AddFull(0, y), s.tb, AddRoute(0, y));
    s := PanicAlone(start, s, 1, y);
  }

  lemma PanicAlone(start: State, s: State, t: nat, n: NodeInfo) returns (s': State)
    requires Reachable(start, s) && t < |s.calls| && s.calls[t] == [AddRoute(0, n)]
    requires |s.tb.buckets| == 1 && s.tb.held == {} && !s.tb.Belongs(0, n.id)
    ensures Reachable(start, s') && s' == State(s.tb, s.calls[t := [Panicked]])
  {
    assert [] + [AddRoute(0, n)] == [AddRoute(0, n)];
    assert (set h | h in s.tb.held && !Holds([], h)) == s.tb.held;
    s' := Then(start, s, t, [], AddRoute(0, n), s.tb, [Panicked]);
  }

  /** From a full first bucket to the lock of its split. */
  lemma UpToSplit(start: State, s: State, t: nat, n: NodeInfo) returns (s': State)
    requires Reachable(start, s) && t < |s.calls| && s.calls[t] == [AddStart(0, n)]
    requires |s.tb.buckets| == 1 && s.tb.held == {} && |s.tb.buckets[0]| == s.tb.k
    ensures Reachable(start, s')
    ensures s' == State(Table(s.tb.own, s.tb.k, s.tb.buckets + [[]], {0}), s.calls[t := [SplitLoop(0, n, 0)]])
  {
    var grown := s.tb.(buckets := s.tb.buckets + [[]]);
    s' := UpToFull(start, s, t, n);
    s' := Alone(start, s', t, AddFull(0, n), s.tb, AddMake(0, n));
    s' := Alone(start, s', t, AddMake(0, n), grown, SplitWait(0, n));
    assert grown.held + {0} == {0};
    s' := Alone(start, s', t, SplitWait(0, n), grown.(held := grown.held + {0}), SplitLoop(0, n, 0));
  }

  /** The split of a first bucket whose only node moves. */
  lemma SplitMovesOne(start: State, s: State, t: nat, y: NodeInfo, z: NodeInfo) returns (s': State)
    requires Reachable(start, s) && t < |s.calls| && s.calls[t] == [SplitLoop(0, z, 0)]
    requires s.tb == Table(s.tb.own, 1, [[y], []], {0}) && !s.tb.Belongs(0, y.id)
    ensures Reachable(start, s')
    ensures s' == State(Table(s.tb.own, 1, [[], [y]], {}), s.calls[t := [AddRoute(0, z)]])
  {
    var f := SplitLoop(0, z, 0);
    assert [] + [f] == [f] && [f] + [AddStart(1, y)] == [] + [f, AddStart(1, y)];
    assert SwapRemove([y], 0) == [];
    s' := Then(start, s, t, [], f, s.tb.With(0, []), [] + [f, AddStart(1, y)]);
    s' := StoreInEmpty(start, s', t, [f], 1, y);
    assert s'.tb.buckets == [[], [y]];
    assert s'.tb.held - {0} == {};
    s' := Alone(start, s', t, f, s'.tb.(held := s'.tb.held - {0}), AddRoute(0, z));
  }

  /** One insertion has seen room, and another then fills the bucket. */
  lemma UpToOvertaken(own: U160, x: NodeInfo, y: NodeInfo, z: NodeInfo) returns (s: State)
    ensures Reachable(Start(own, 1, [Insert(x), Insert(y), Insert(z)]), s)
    ensures s == State(Table(own, 1, [[y]], {}), [[AddStore(0, x)], [], [AddStart(0, z)]])
  {
    var start := Start(own, 1, [Insert(x), Insert(y), Insert(z)]);
    Begin(start);
    s := Alone(start, start, 0, AddStart(0, x), start.tb, AddLen(0, x));
    s := Alone(start, s, 0, AddLen(0, x), start.tb, AddStore(0, x));
    assert [] + [AddStart(0, y)] == [AddStart(0, y)];
    s := StoreInEmpty(start, s, 1, [], 0, y);
  }

  /** An insertion that has passed the room check stores into the first bucket although another
      call has split it since: its node ends up where no lookup or removal descends for it. */
  lemma SplitCanMisplaceAnAdd(own: U160, x: NodeInfo, y: NodeInfo, z: NodeInfo) returns (s: State)
    requires !own.Distance(x.id).GetBit(0) && !own.Distance(y.id).GetBit(0)
    ensures Reachable(Start(own, 1, [Insert(x), Insert(y), Insert(z)]), s)
    ensures s.tb.buckets == [[x], [y]] && s.tb.HasNext(0) && !s.tb.Belongs(0, x.id)
  {
    var start := Start(own, 1, [Insert(x), Insert(y), Insert(z)]);
    s := UpToOvertaken(own, x, y, z);
    s := UpToSplit(start, s, 2, z);
    assert s.tb.buckets == [[y], []];
    s := SplitMovesOne(start, s, 2, y, z);
    StoreOne(x);
    assert [] + [AddStore(0, x)] == [AddStore(0, x)];
    s := Then(start, s, 0, [], AddStore(0, x), s.tb.With(0, [x]), []);
  }

  /** A removal has stopped at the first bucket, and one insertion has seen room there. */
  lemma UpToStopped(own: U160, x: NodeInfo, y: NodeInfo, z: NodeInfo) returns (s: State)
    ensures Reachable(Start(own, 1, [Insert(x), Insert(y), Insert(z), Delete(x.id)]), s)
    ensures s == State(Table(own, 1, [[]], {}), [[AddStore(0, x)], [AddStart(0, y)], [AddStart(0, z)], [RemoveHere(0, x.id)]])
  {
    var start := Start(own, 1, [Insert(x), Insert(y), Insert(z), Delete(x.id)]);
    Begin(start);
    s := Alone(start, start, 3, RemoveStart(0, x.id), start.tb, RemoveHere(0, x.id));
    s := Alone(start, s, 0, AddStart(0, x), start.tb, AddLen(0, x));
    s := Alone(start, s, 0, AddLen(0, x), start.tb, AddStore(0, x));
  }

  lemma UpToMisplaced(own: U160, x: NodeInfo, y: NodeInfo, z: NodeInfo) returns (s: State)
    requires !own.Distance(x.id).GetBit(0) && !own.Distance(y.id).GetBit(0)
    ensures Reachable(Start(own, 1, [Insert(x), Insert(y), Insert(z), Delete(x.id)]), s)
    ensures s.tb == Table(own, 1, [[x], [y]], {}) && |s.calls| == 4 && s.calls[3] == [RemoveHere(0, x.id)]
  {
    var start := Start(own, 1, [Insert(x), Insert(y), Insert(z), Delete(x.id)]);
    s := UpToStopped(own, x, y, z);
    assert [] + [AddStart(0, y)] == [AddStart(0, y)] && [] + [AddStore(0, x)] == [AddStore(0, x)];
    s := StoreInEmpty(start, s, 1, [], 0, y);
    s := UpToSplit(start, s, 2, z);
    assert s.tb.buckets == [[y], []];
    s := SplitMovesOne(start, s, 2, y, z);
    StoreOne(x);
    s := Then(start, s, 0, [], AddStore(0, x), s.tb.With(0, [x]), []);
  }

  /** A misplaced node can still go: a removal that stopped at the bucket while it was the last one
      takes the node out of it, although no removal that starts later would look there. */
  lemma StaleRemovalFindsIt(own: U160, x: NodeInfo, y: NodeInfo, z: NodeInfo) returns (misplaced: State)
    requires !own.Distance(x.id).GetBit(0) && !own.Distance(y.id).GetBit(0)
    ensures Reachable(Start(own, 1, [Insert(x), Insert(y), Insert(z), Delete(x.id)]), misplaced)
    ensures misplaced.tb.buckets == [[x], [y]] && !misplaced.tb.Belongs(0, x.id)
    ensures Tick(misplaced, 3).tb.buckets == [[], [y]]
  {
    misplaced := UpToMisplaced(own, x, y, z);
    assert [] + [RemoveHere(0, x.id)] == [RemoveHere(0, x.id)];
    assert WithoutFirst([x], x.id) == [];
    assert Below(misplaced.calls[3]) == [] && Top(misplaced.calls[3]) == RemoveHere(0, x.id);
    assert Tick(misplaced, 3).tb == misplaced.tb.With(0, []);
  }

  // ----- a panic inside a split -----

  /** An insertion into an unlocked last bucket `j` that has room and does not know the identifier. */
  lemma StoreInRoom(start: State, s: State, t: nat, j: nat, n: NodeInfo) returns (s': State)
    requires Reachable(start, s) && t < |s.calls| && s.calls[t] == [AddStart(j, n)]
    requires |s.tb.buckets| == j + 1 && j !in s.tb.held && |s.tb.buckets[j]| < s.tb.k && !HasId(s.tb.buckets[j], n.id)
    ensures Reachable(start, s') && s' == State(s.tb.With(j, s.tb.buckets[j] + [n]), s.calls[t := []])
  {
    s' := Alone(start, s, t, AddStart(j, n), s.tb, AddLen(j, n));
    s' := Alone(start, s', t, AddLen(j, n), s.tb, AddStore(j, n));
    assert [] + [AddStore(j, n)] == [AddStore(j, n)];
    assert FindLast(s.tb.buckets[j], n.id) == -1 by {
      assert forall i :: 0 <= i < |s.tb.buckets[j]| ==> s.tb.buckets[j][i].id != n.id;
    }
    s' := Then(start, s', t, [], AddStore(j, n), s.tb.With(j, s.tb.buckets[j] + [n]), []);
  }

  /** An insertion that passes by the first bucket, and one into the second after it. */
  lemma StoreInSecond(start: State, s: State, t: nat, n: NodeInfo) returns (s': State)
    requires Reachable(start, s) && t < |s.calls| && s.calls[t] == [AddStart(0, n)]
    requires |s.tb.buckets| == 2 && 1 !in s.tb.held && !s.tb.Belongs(0, n.id)
    requires |s.tb.buckets[1]| < s.tb.k && !HasId(s.tb.buckets[1], n.id)
    ensures Reachable(start, s') && s' == State(s.tb.With(1, s.tb.buckets[1] + [n]), s.calls[t := []])
  {
    s' := Alone(start, s, t, AddStart(0, n), s.tb, AddCheck(0, n));
    s' := Alone(start, s', t, AddCheck(0, n), s.tb, AddRoute(0, n));
    s' := Alone(start, s', t, AddRoute(0, n), s.tb, AddStart(1, n));
    s' := StoreInRoom(start, s', t, 1, n);
  }

  /** A split has moved one of two nodes and is about to add it to the next bucket. */
  lemma UpToMoving(own: U160, y: NodeInfo, y': NodeInfo, z: NodeInfo, w: NodeInfo, w': NodeInfo) returns (s: State)
    requires y.id != y'.id && !own.Distance(y.id).GetBit(0)
    ensures Reachable(Start(own, 2, [Insert(y), Insert(y'), Insert(z), Insert(w), Insert(w'), Delete(w.id)]), s)
    ensures s.tb == Table(own, 2, [[y'], []], {0})
    ensures s.calls == [[], [], [SplitLoop(0, z, 0), AddStart(1, y)], [AddStart(0, w)], [AddStart(0, w')], [RemoveStart(0, w.id)]]
  {
    var start := Start(own, 2, [Insert(y), Insert(y'), Insert(z), Insert(w), Insert(w'), Delete(w.id)]);
    Begin(start);
    s := StoreInRoom(start, start, 0, 0, y);
    assert s.tb.buckets == [[y]] by { assert [] + [y] == [y]; }
    s := StoreInRoom(start, s, 1, 0, y');
    assert s.tb.buckets == [[y, y']] by { assert [y] + [y'] == [y, y']; }
    s := UpToSplit(start, s, 2, z);
    assert s.tb.buckets == [[y, y'], []];
    s := MoveFirst(start, s, 2, y, y', z);
  }

  lemma MoveFirst(start: State, s: State, t: nat, y: NodeInfo, y': NodeInfo, z: NodeInfo) returns (s': State)
    requires Reachable(start, s) && t < |s.calls| && s.calls[t] == [SplitLoop(0, z, 0)]
    requires s.tb.buckets == [[y, y'], []] && !s.tb.Belongs(0, y.id)
    ensures Reachable(start, s')
    ensures s' == State(s.tb.(buckets := [[y'], []]), s.calls[t := [SplitLoop(0, z, 0), AddStart(1, y)]])
  {
    var f := SplitLoop(0, z, 0);
    assert [] + [f] == [f] && [] + [f, AddStart(1, y)] == [f, AddStart(1, y)];
    assert SwapRemove([y, y'], 0) == [y'];
    assert s.tb.buckets[0 := [y']] == [[y'], []];
    s' := Then(start, s, t, [], f, s.tb.With(0, [y']), [] + [f, AddStart(1, y)]);
  }

  /** The add of that node finds the next bucket full, because two other calls have filled it. */
  lemma UpToNestedFull(own: U160, y: NodeInfo, y': NodeInfo, z: NodeInfo, w: NodeInfo, w': NodeInfo) returns (s: State)
    requires y.id != y'.id && w.id != w'.id && !own.Distance(y.id).GetBit(0)
    requires !own.Distance(w.id).GetBit(0) && !own.Distance(w'.id).GetBit(0)
    ensures Reachable(Start(own, 2, [Insert(y), Insert(y'), Insert(z), Insert(w), Insert(w'), Delete(w.id)]), s)
    ensures s.tb == Table(own, 2, [[y'], [w, w']], {0})
    ensures s.calls == [[], [], [SplitLoop(0, z, 0), AddCheck(1, y)], [], [], [RemoveStart(0, w.id)]]
  {
    var start := Start(own, 2, [Insert(y), Insert(y'), Insert(z), Insert(w), Insert(w'), Delete(w.id)]);
    s := UpToMoving(own, y, y', z, w, w');
    s := StoreInSecond(start, s, 3, w);
    assert s.tb.buckets == [[y'], [w]] by { assert [] + [w] == [w]; }
    s := StoreInSecond(start, s, 4, w');
    assert s.tb.buckets == [[y'], [w, w']] by { assert [w] + [w'] == [w, w']; }
    var below := [SplitLoop(0, z, 0)];
    assert below + [AddStart(1, y)] == [SplitLoop(0, z, 0), AddStart(1, y)];
    s := Then(start, s, 2, below, AddStart(1, y), s.tb, below + [AddLen(1, y)]);
    s := Then(start, s, 2, below, AddLen(1, y), s.tb, below + [AddCheck(1, y)]);
    assert below + [AddCheck(1, y)] == [SplitLoop(0, z, 0), AddCheck(1, y)];
  }

  lemma FirstOfTwo(w: NodeInfo, w': NodeInfo)
    ensures WithoutFirst([w, w'], w.id) == [w'] && FindFirst([w, w'], w.id) == 0
  {
    var nodes := [w, w'];
    assert HasId(nodes, w.id) by { assert nodes[0].id == w.id; }
    assert FindFirst(nodes, w.id) == 0;
    assert nodes[..0] + nodes[1..] == [w'];
  }

  lemma RemoveFromSecond(start: State, s: State, t: nat, y': NodeInfo, w: NodeInfo, w': NodeInfo) returns (s': State)
    requires Reachable(start, s) && t < |s.calls| && s.calls[t] == [RemoveStart(0, w.id)]
    requires s.tb.buckets == [[y'], [w, w']] && 1 !in s.tb.held && !s.tb.Belongs(0, w.id)
    ensures Reachable(start, s') && s' == State(s.tb.(buckets := [[y'], [w']]), s.calls[t := [Removed(true)]])
  {
    s' := Alone(start, s, t, RemoveStart(0, w.id), s.tb, RemoveStart(1, w.id));
    s' := Alone(start, s', t, RemoveStart(1, w.id), s.tb, RemoveHere(1, w.id));
    assert [] + [RemoveHere(1, w.id)] == [RemoveHere(1, w.id)];
    FirstOfTwo(w, w');
    assert s.tb.buckets[1 := [w']] == [[y'], [w']];
    assert [] + [Removed(true)] == [Removed(true)];
    s' := Then(start, s', t, [], RemoveHere(1, w.id), s.tb.With(1, [w']), [] + [Removed(true)]);
  }

  lemma UpToUnwrap(start: State, s: State, t: nat, y: NodeInfo, z: NodeInfo) returns (s': State)
    requires Reachable(start, s) && t < |s.calls| && s.calls[t] == [SplitLoop(0, z, 0), AddCheck(1, y)]
    requires |s.tb.buckets| == 2 && s.tb.held == {0} && |s.tb.buckets[1]| < s.tb.k
    ensures Reachable(start, s') && s' == State(s.tb, s.calls[t := [SplitLoop(0, z, 0), AddRoute(1, y)]])
  {
    var below := [SplitLoop(0, z, 0)];
    assert below + [AddCheck(1, y)] == [SplitLoop(0, z, 0), AddCheck(1, y)];
    s' := Then(start, s, t, below, AddCheck(1, y), s.tb, below + [AddFull(1, y)]);
    s' := Then(start, s', t, below, AddFull(1, y), s.tb, below + [AddRoute(1, y)]);
    assert below + [AddRoute(1, y)] == [SplitLoop(0, z, 0), AddRoute(1, y)];
  }

  lemma PanicInSplit(s: State, t: nat, y: NodeInfo, z: NodeInfo)
    requires t < |s.calls| && s.calls[t] == [SplitLoop(0, z, 0), AddRoute(1, y)]
    requires |s.tb.buckets| == 2 && s.tb.held == {0} && !s.tb.Belongs(1, y.id)
    ensures Tick(s, t) == State(s.tb.(held := {}), s.calls[t := [Panicked]])
  {
    var below := [SplitLoop(0, z, 0)];
    assert Below(s.calls[t]) == below && Top(s.calls[t]) == AddRoute(1, y);
    assert below[0].SplitLoop? && below[0].j == 0;
    assert (set h | h in s.tb.held && !Holds(below, h)) == {};
  }

  /** A panic inside a split leaves the nodes it had not looked at behind: the step before the split
      would still have moved the node, no late store is involved, and now every call is over and the
      node sits where its descent does not lead. */
  lemma PanicAbandonsASplit(own: U160, y: NodeInfo, y': NodeInfo, z: NodeInfo, w: NodeInfo, w': NodeInfo) returns (s: State)
    requires y.id != y'.id && w.id != w'.id && !own.Distance(y.id).GetBit(0) && !own.Distance(y.id).GetBit(1)
    requires !own.Distance(y'.id).GetBit(0) && !own.Distance(w.id).GetBit(0) && !own.Distance(w'.id).GetBit(0)
    ensures Reachable(Start(own, 2, [Insert(y), Insert(y'), Insert(z), Insert(w), Insert(w'), Delete(w.id)]), s)
    ensures s == State(Table(own, 2, [[y'], [w']], {0}), [[], [], [SplitLoop(0, z, 0), AddRoute(1, y)], [], [], [Removed(true)]])
    ensures Tick(s, 2) == State(s.tb.(held := {}), [[], [], [Panicked], [], [], [Removed(true)]]) && !s.tb.Belongs(0, y'.id)
  {
    var start := Start(own, 2, [Insert(y), Insert(y'), Insert(z), Insert(w), Insert(w'), Delete(w.id)]);
    s := UpToNestedFull(own, y, y', z, w, w');
    s := RemoveFromSecond(start, s, 5, y', w, w');
    s := UpToUnwrap(start, s, 2, y, z);
    PanicInSplit(s, 2, y, z);
  }

  // ----- a split that loses a node -----

  /** A split has taken out the only node of the first bucket, and another insertion has filled the
      second bucket before that node gets there. */
  lemma UpToBeaten(start: State, own: U160, y: NodeInfo, z: NodeInfo, w: NodeInfo) returns (s: State)
    requires start == State(Table(own, 1, [[y]], {}), [[], [AddStart(0, z)], [AddStart(0, w)]])
    requires !own.Distance(y.id).GetBit(0) && !own.Distance(w.id).GetBit(0)
    ensures Reachable(start, s)
    ensures s == State(Table(own, 1, [[], [w]], {0}), [[], [SplitLoop(0, z, 0), AddStart(1, y)], []])
  {
    var f := SplitLoop(0, z, 0);
    Begin(start);
    s := UpToSplit(start, start, 1, z);
    assert s.tb.buckets == [[y], []];
    assert [] + [f] == [f] && [] + [f, AddStart(1, y)] == [f, AddStart(1, y)];
    assert SwapRemove([y], 0) == [];
    s := Then(start, s, 1, [], f, s.tb.With(0, []), [] + [f, AddStart(1, y)]);
    s := StoreInSecond(start, s, 2, w);
    assert [] + [w] == [w];
  }

  /** That node's add splits the second bucket in its turn, and no node moves. */
  lemma UpToSecondSplit(start: State, s: State, own: U160, y: NodeInfo, z: NodeInfo, w: NodeInfo) returns (s': State)
    requires Reachable(start, s)
    requires s == State(Table(own, 1, [[], [w]], {0}), [[], [SplitLoop(0, z, 0), AddStart(1, y)], []])
    ensures Reachable(start, s')
    ensures s' == State(Table(own, 1, [[], [w], []], {0, 1}), [[], [SplitLoop(0, z, 0), SplitLoop(1, y, 0)], []])
  {
    var below, tb := [SplitLoop(0, z, 0)], s.tb;
    var grown := tb.(buckets := tb.buckets + [[]]);
    assert s.calls[1] == below + [AddStart(1, y)];
    s' := Then(start, s, 1, below, AddStart(1, y), tb, below + [AddLen(1, y)]);
    s' := Then(start, s', 1, below, AddLen(1, y), tb, below + [AddCheck(1, y)]);
    s' := Then(start, s', 1, below, AddCheck(1, y), tb, below + [AddFull(1, y)]);
    s' := Then(start, s', 1, below, AddFull(1, y), tb, below + [AddMake(1, y)]);
    s' := Then(start, s', 1, below, AddMake(1, y), grown, below + [SplitWait(1, y)]);
    s' := Then(start, s', 1, below, SplitWait(1, y), grown.(held := grown.held + {1}), below + [SplitLoop(1, y, 0)]);
    assert below + [SplitLoop(1, y, 0)] == [SplitLoop(0, z, 0), SplitLoop(1, y, 0)];
    assert grown.buckets == [[], [w], []] && grown.held + {1} == {0, 1};
  }

  /** The carried node then finds the bucket it belongs in full. */
  lemma UpToRefused(start: State, s: State, own: U160, y: NodeInfo, z: NodeInfo, w: NodeInfo) returns (s': State)
    requires Reachable(start, s) && own.Distance(y.id).GetBit(1) && own.Distance(w.id).GetBit(1)
    requires s == State(Table(own, 1, [[], [w], []], {0, 1}), [[], [SplitLoop(0, z, 0), SplitLoop(1, y, 0)], []])
    ensures Reachable(start, s')
    ensures s' == State(Table(own, 1, [[], [w], []], {0}), [[], [SplitLoop(0, z, 0), AddStore(1, y)], []])
  {
    var below, tb := [SplitLoop(0, z, 0)], s.tb;
    var free := tb.(held := tb.held - {1});
    assert s.calls[1] == below + [SplitLoop(1, y, 0)];
    s' := Then(start, s, 1, below, SplitLoop(1, y, 0), tb, below + [SplitLoop(1, y, 1)]);
    s' := Then(start, s', 1, below, SplitLoop(1, y, 1), free, below + [AddRoute(1, y)]);
    s' := Then(start, s', 1, below, AddRoute(1, y), free, below + [AddStore(1, y)]);
    assert below + [AddStore(1, y)] == [SplitLoop(0, z, 0), AddStore(1, y)];
    assert tb.held - {1} == {0};
  }

  lemma FullForAnother(y: NodeInfo, w: NodeInfo)
    requires y.id != w.id
    ensures AddOrUpdate([w], 1, y) == [w]
  {
    assert FindLast([w], y.id) == -1;
  }

  /** The refusal drops it, and the call that split the first bucket ends as if nothing had happened. */
  lemma RefuseAndEnd(start: State, s: State, own: U160, y: NodeInfo, z: NodeInfo, w: NodeInfo) returns (s': State)
    requires Reachable(start, s) && own.Distance(z.id).GetBit(0) && y.id != w.id
    requires s == State(Table(own, 1, [[], [w], []], {0}), [[], [SplitLoop(0, z, 0), AddStore(1, y)], []])
    ensures Reachable(start, s') && s' == State(Table(own, 1, [[z], [w], []], {}), [[], [], []])
  {
    var f, tb := SplitLoop(0, z, 0), s.tb;
    var free := tb.(held := tb.held - {0});
    assert s.calls[1] == [f] + [AddStore(1, y)];
    FullForAnother(y, w);
    assert tb.With(1, [w]) == tb;
    s' := Then(start, s, 1, [f], AddStore(1, y), tb, [f]);
    s' := Alone(start, s', 1, f, free, AddRoute(0, z));
    s' := Alone(start, s', 1, AddRoute(0, z), free, AddStore(0, z));
    StoreOne(z);
    assert [] + [AddStore(0, z)] == [AddStore(0, z)];
    s' := Then(start, s', 1, [], AddStore(0, z), free.With(0, [z]), []);
    assert free.held == {} && free.With(0, [z]).buckets == [[z], [w], []];
  }

  /** A split can lose a stored node. The insertion of `y` is over and `y` is stored; then its bucket
      is split, another insertion overtakes `y` on its way, and all calls end without a removal or a
      panic, every node in its place and `y` in none. */
  lemma SplitCanLoseANode(own: U160, y: NodeInfo, z: NodeInfo, w: NodeInfo) returns (stored: State, s: State)
    requires !own.Distance(y.id).GetBit(0) && own.Distance(y.id).GetBit(1)
    requires !own.Distance(w.id).GetBit(0) && own.Distance(w.id).GetBit(1) && own.Distance(z.id).GetBit(0)
    requires y.id != w.id
    ensures Reachable(Start(own, 1, [Insert(y), Insert(z), Insert(w)]), stored) && Reachable(stored, s)
    ensures stored == State(Table(own, 1, [[y]], {}), [[], [AddStart(0, z)], [AddStart(0, w)]])
    ensures s == State(Table(own, 1, [[z], [w], []], {}), [[], [], []])
    ensures s.tb.Belongs(0, z.id) && !s.tb.Belongs(0, w.id) && s.tb.Belongs(1, w.id)
  {
    var start := Start(own, 1, [Insert(y), Insert(z), Insert(w)]);
    Begin(start);
    assert [] + [AddStart(0, y)] == [AddStart(0, y)];
    stored := StoreInEmpty(start, start, 0, [], 0, y);
    s := UpToBeaten(stored, own, y, z, w);
    s := UpToSecondSplit(stored, s, own, y, z, w);
    s := UpToRefused(stored, s, own, y, z, w);
    s := RefuseAndEnd(stored, s, own, y, z, w);
  }
}

/** Where concurrent calls put nodes: in every reachable state each stored node, and each node of an
    insertion in progress, agrees with the owner up to the index of its bucket. */
module LockPlacement {
  import opened U160s
  import opened NodeInfos
  import opened Chains
  import opened LockSteps
  import opened LockSafety
  import opened LockProgress
  import opened LockExclusion

  // ----- what is always true of the nodes -----

  /** What does not belong in bucket `j` agrees with the owner on one more bit. */
  lemma PassesOn(tb: Table, j: nat, id: U160)
    requires SharePrefix(tb.own, id, j) && !tb.Belongs(j, id)
    ensures SharePrefix(tb.own, id, j + 1)
  {
    DistanceBit(tb.own, id, j);
  }

  /** An insertion stands where its descent leads, and a split has only left behind it what belongs. */
  ghost predicate FramePlaced(tb: Table, f: Frame) {
    && (IsAdd(f) || IsSplit(f) ==> SharePrefix(tb.own, f.n.id, f.j))
    && (f.SplitLoop? ==>
          && f.j < |tb.buckets| && f.i <= |tb.buckets[f.j]|
          && forall p :: 0 <= p < f.i ==> tb.Belongs(f.j, tb.buckets[f.j][p].id))
  }

  ghost predicate StackPlaced(tb: Table, stack: Stack) {
    forall d :: 0 <= d < |stack| ==> FramePlaced(tb, stack[d])
  }

  ghost predicate BucketReached(tb: Table, j: nat, nodes: seq<NodeInfo>) {
    forall x :: x in nodes ==> SharePrefix(tb.own, x.id, j)
  }

  ghost predicate TableReached(tb: Table) {
    forall j :: 0 <= j < |tb.buckets| ==> BucketReached(tb, j, tb.buckets[j])
  }

  ghost predicate Guided(s: State) {
    && Exclusive(s) && TableReached(s.tb)
    && forall t :: 0 <= t < |s.calls| ==> StackPlaced(s.tb, s.calls[t])
  }

  lemma UpdateMembers(nodes: seq<NodeInfo>, k: nat, n: NodeInfo)
    ensures forall x :: x in AddOrUpdate(nodes, k, n) ==> x in nodes || x == n
  {
  }

  lemma SwapRemoveMembers(nodes: seq<NodeInfo>, i: nat)
    requires i < |nodes|
    ensures forall x :: x in SwapRemove(nodes, i) ==> x in nodes
    ensures forall p :: 0 <= p < i && p < |nodes| - 1 ==> SwapRemove(nodes, i)[p] == nodes[p]
  {
  }

  lemma WithoutFirstMembers(nodes: seq<NodeInfo>, id: U160)
    ensures forall x :: x in WithoutFirst(nodes, id) ==> x in nodes
  {
  }

  /** `tb'` differs from `tb` in one vector, or in one new empty bucket. */
  ghost predicate OneChanged(tb: Table, tb': Table, j: nat) {
    && Extends(tb, tb')
    && forall i :: 0 <= i < |tb.buckets| && i != j ==> tb'.buckets[i] == tb.buckets[i]
  }

  lemma TableStaysReached(tb: Table, tb': Table, j: nat)
    requires TableReached(tb) && OneChanged(tb, tb', j) && (j < |tb.buckets| ==> BucketReached(tb, j, tb'.buckets[j]))
    ensures TableReached(tb')
  {
    forall i | 0 <= i < |tb'.buckets| ensures BucketReached(tb', i, tb'.buckets[i]) {
      if i < |tb.buckets| {
        assert BucketReached(tb, i, tb'.buckets[i]);
      }
    }
  }

  lemma FrameStaysPlaced(tb: Table, tb': Table, f: Frame)
    requires FramePlaced(tb, f) && Extends(tb, tb')
    requires f.SplitLoop? ==> f.j < |tb'.buckets| && tb'.buckets[f.j] == tb.buckets[f.j]
    ensures FramePlaced(tb', f)
  {
    if IsAdd(f) || IsSplit(f) {
      assert SharePrefix(tb'.own, f.n.id, f.j);
    }
  }

  /** The frames that do not move keep their promise when no vector of theirs has changed. */
  lemma StackStaysPlaced(tb: Table, tb': Table, stack: Stack)
    requires StackPlaced(tb, stack) && Extends(tb, tb') && StackSafe(|tb.buckets|, tb.k, stack)
    requires forall j: nat :: j < |tb.buckets| && Holds(stack, j) ==> tb'.buckets[j] == tb.buckets[j]
    ensures StackPlaced(tb', stack)
  {
    forall d | 0 <= d < |stack| ensures FramePlaced(tb', stack[d]) {
      assert FramePlaced(tb, stack[d]);
      if stack[d].SplitLoop? { assert Holds(stack, stack[d].j); }
      FrameStaysPlaced(tb, tb', stack[d]);
    }
  }

  ghost predicate MovePlaced(tb: Table, stack: Stack, tb': Table, stack': Stack) {
    TableReached(tb') && StackPlaced(tb', stack')
  }

  /** What a step assumes of its call. */
  ghost predicate Ready(tb: Table, stack: Stack) {
    && TableSafe(tb) && TableReached(tb) && stack != [] && Advance(tb, stack).Some?
    && StackSafe(|tb.buckets|, tb.k, stack) && Stacked(stack) && OwnLocksHeld(tb.held, stack) && StackPlaced(tb, stack)
  }

  lemma BelowStaysPlaced(tb: Table, stack: Stack, tb': Table)
    requires Ready(tb, stack) && Extends(tb, tb')
    requires forall j: nat :: j < |tb.buckets| && tb'.buckets[j] != tb.buckets[j] ==>
      j !in tb.held || (Top(stack).SplitLoop? && Top(stack).j == j)
    ensures StackPlaced(tb', Below(stack))
  {
    var below := Below(stack);
    assert StackPlaced(tb, below) && StackSafe(|tb.buckets|, tb.k, below);
    forall j: nat | j < |tb.buckets| && Holds(below, j) ensures tb'.buckets[j] == tb.buckets[j] {
      HoldsTop(stack);
      HoldsIsSplits(below, j);
      SplitsBelow(stack, j);
    }
    StackStaysPlaced(tb, tb', below);
  }

  lemma TopPlaced(tb: Table, stack: Stack)
    requires stack != [] && StackPlaced(tb, Below(stack)) && FramePlaced(tb, Top(stack))
    ensures StackPlaced(tb, stack)
  {
    forall d | 0 <= d < |stack| ensures FramePlaced(tb, stack[d]) {
      if d < |stack| - 1 { assert stack[d] == Below(stack)[d]; }
    }
  }

  lemma AddMovePlaced(tb: Table, stack: Stack)
    requires Ready(tb, stack) && IsAdd(Top(stack))
    ensures var (tb', stack') := Advance(tb, stack).value; MovePlaced(tb, stack, tb', stack')
  {
    var below, f := Below(stack), Top(stack);
    var (tb', stack') := Advance(tb, stack).value;
    assert FramePlaced(tb, f) && FrameSafe(|tb.buckets|, tb.k, f);
    AddMoveExclusive(tb, stack);
    if f.AddStore? {
      UpdateMembers(tb.buckets[f.j], tb.k, f.n);
    }
    TableStaysReached(tb, tb', f.j);
    BelowStaysPlaced(tb, stack, tb');
    if stack' != below && stack' != [Panicked] {
      assert Below(stack') == below;
      if f.AddRoute? && !tb.Belongs(f.j, f.n.id) { PassesOn(tb, f.j, f.n.id); }
      TopPlaced(tb', stack');
    }
  }

  lemma SplitMovePlaced(tb: Table, stack: Stack)
    requires Ready(tb, stack) && IsSplit(Top(stack)) && !Top(stack).SplitLoop?
    ensures var (tb', stack') := Advance(tb, stack).value; MovePlaced(tb, stack, tb', stack')
  {
    var below, f := Below(stack), Top(stack);
    var (tb', stack') := Advance(tb, stack).value;
    assert FramePlaced(tb, f) && FrameSafe(|tb.buckets|, tb.k, f);
    TableStaysReached(tb, tb', |tb.buckets|);
    BelowStaysPlaced(tb, stack, tb');
    if stack' != below {
      assert Below(stack') == below;
      assert SharePrefix(tb'.own, f.n.id, f.j);
      TopPlaced(tb', stack');
    }
  }

  lemma SplitLoopMovePlaced(tb: Table, stack: Stack)
    requires Ready(tb, stack) && Top(stack).SplitLoop?
    ensures var (tb', stack') := Advance(tb, stack).value; MovePlaced(tb, stack, tb', stack')
  {
    var below, f := Below(stack), Top(stack);
    var (tb', stack') := Advance(tb, stack).value;
    var b := tb.buckets[f.j];
    assert FramePlaced(tb, f);
    assert BucketReached(tb, f.j, b);
    if f.i < |b| && !tb.Belongs(f.j, b[f.i].id) {
      SwapRemoveMembers(b, f.i);
      TableStaysReached(tb, tb', f.j);
      BelowStaysPlaced(tb, stack, tb');
      assert FramePlaced(tb', f);
      TopPlaced(tb', stack);
      assert Below(stack') == stack;
      assert SharePrefix(tb.own, b[f.i].id, f.j);
      PassesOn(tb, f.j, b[f.i].id);
      TopPlaced(tb', stack');
    } else {
      TableStaysReached(tb, tb', f.j);
      BelowStaysPlaced(tb, stack, tb');
      assert Below(stack') == below;
      assert SharePrefix(tb'.own, f.n.id, f.j);
      TopPlaced(tb', stack');
    }
  }

  lemma OtherMovePlaced(tb: Table, stack: Stack)
    requires Ready(tb, stack) && !IsAdd(Top(stack)) && !IsSplit(Top(stack))
    ensures var (tb', stack') := Advance(tb, stack).value; MovePlaced(tb, stack, tb', stack')
  {
    var f := Top(stack);
    var (tb', stack') := Advance(tb, stack).value;
    OtherMoveExclusive(tb, stack);
    assert FrameSafe(|tb.buckets|, tb.k, f);
    if f.RemoveHere? { WithoutFirstMembers(tb.buckets[f.j], f.id); }
    TableStaysReached(tb, tb', if IsRemove(f) then f.j else |tb.buckets|);
    forall d | 0 <= d < |stack'| ensures FramePlaced(tb', stack'[d]) {
      OtherFrames(tb, stack, d);
    }
  }

  /** The stack of a lookup or a removal holds no insertion. */
  lemma OtherFrames(tb: Table, stack: Stack, d: nat)
    requires stack != [] && Stacked(stack) && !IsAdd(Top(stack)) && !IsSplit(Top(stack)) && Advance(tb, stack).Some?
    requires d < |Advance(tb, stack).value.1|
    ensures var f := Advance(tb, stack).value.1[d]; !IsAdd(f) && !IsSplit(f)
  {
    if d < |stack| - 1 {
      assert MayCover(stack[d], stack[d + 1]);
      NothingSplit(stack, stack[d].j);
    }
    if |stack| > 1 { assert MayCover(stack[|stack| - 2], Top(stack)); }
    OthersStayOthers(tb, stack);
  }

  lemma AdvanceIsPlaced(tb: Table, stack: Stack)
    requires Ready(tb, stack)
    ensures var (tb', stack') := Advance(tb, stack).value; MovePlaced(tb, stack, tb', stack')
  {
    var f := Top(stack);
    if IsAdd(f) { AddMovePlaced(tb, stack); }
    else if f.SplitLoop? { SplitLoopMovePlaced(tb, stack); }
    else if IsSplit(f) { SplitMovePlaced(tb, stack); }
    else { OtherMovePlaced(tb, stack); }
  }

  lemma OthersStayPlaced(s: State, t: nat, u: nat, tb': Table, stack': Stack)
    requires Guided(s) && t < |s.calls| && u < |s.calls| && u != t && MoveExclusive(s.tb, s.calls[t], tb', stack')
    ensures StackPlaced(tb', s.calls[u])
  {
    forall j: nat | j < |s.tb.buckets| && Holds(s.calls[u], j) ensures tb'.buckets[j] == s.tb.buckets[j] {
      HoldsIsSplits(s.calls[u], j);
      if s.calls[t] != [] { SplitsTop(s.calls[t], j); }
    }
    StackStaysPlaced(s.tb, tb', s.calls[u]);
  }

  lemma TickIsGuided(s: State, t: nat)
    requires Guided(s)
    ensures Guided(Tick(s, t))
  {
    TickIsExclusive(s, t);
    if t < |s.calls| && Advance(s.tb, s.calls[t]).Some? {
      AdvanceIsExclusive(s.tb, s.calls[t]);
      AdvanceIsPlaced(s.tb, s.calls[t]);
      var s' := Tick(s, t);
      forall u | 0 <= u < |s.calls| ensures StackPlaced(s'.tb, s'.calls[u]) {
        if u != t { OthersStayPlaced(s, t, u, s'.tb, s'.calls[t]); }
      }
    }
  }

  /** In every reachable state of every call list: each stored node agrees with the owner on the
      index of its bucket, and so does the node of every insertion in progress. */
  lemma {:induction false} RunsAreGuided(own: U160, k: nat, calls: seq<Call>, schedule: seq<nat>)
    ensures Guided(Run(Start(own, k, calls), schedule))
  {
    if schedule == [] {
      RunsAreExclusive(own, k, calls, schedule);
    } else {
      RunsAreGuided(own, k, calls, schedule[..|schedule| - 1]);
      TickIsGuided(Run(Start(own, k, calls), schedule[..|schedule| - 1]), schedule[|schedule| - 1]);
    }
  }
}

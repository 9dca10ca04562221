/** Who may change a vector while a split holds its lock: a held lock belongs to a split in progress,
    a split in progress holds its lock, and no two calls split one bucket at a time. */
module LockExclusion {
  import opened U160s
  import opened LockSteps
  import opened LockSafety
  import opened LockProgress

  /** A call that will partition bucket `j`, or is doing so. */
  predicate Splits(stack: Stack, j: nat) {
    exists d :: 0 <= d < |stack| && (stack[d].SplitWait? || stack[d].SplitLoop?) && stack[d].j == j
  }

  ghost predicate OwnLocksHeld(held: set<nat>, stack: Stack) {
    forall j :: Holds(stack, j) ==> j in held
  }

  ghost predicate OneSplitter(calls: seq<Stack>) {
    forall t, u, j :: 0 <= t < |calls| && 0 <= u < |calls| && Splits(calls[t], j) && Splits(calls[u], j) ==> t == u
  }

  ghost predicate Exclusive(s: State) {
    && Orderly(s)
    && (forall t :: 0 <= t < |s.calls| ==> OwnLocksHeld(s.tb.held, s.calls[t]))
    && OneSplitter(s.calls)
  }

  // ----- the splits of a stack -----

  lemma HoldsIsSplits(stack: Stack, j: nat)
    ensures Holds(stack, j) ==> Splits(stack, j)
  {
    if d :| 0 <= d < |stack| && stack[d].SplitLoop? && stack[d].j == j {
      assert (stack[d].SplitWait? || stack[d].SplitLoop?) && stack[d].j == j;
    }
  }

  lemma SplitsTop(stack: Stack, j: nat)
    requires stack != []
    ensures Splits(stack, j) <==> Splits(Below(stack), j) || ((Top(stack).SplitWait? || Top(stack).SplitLoop?) && Top(stack).j == j)
  {
    var below := Below(stack);
    if d :| 0 <= d < |stack| && (stack[d].SplitWait? || stack[d].SplitLoop?) && stack[d].j == j {
      if d < |below| { assert below[d] == stack[d]; }
    }
    if d :| 0 <= d < |below| && (below[d].SplitWait? || below[d].SplitLoop?) && below[d].j == j {
      assert stack[d] == below[d];
    }
    if (Top(stack).SplitWait? || Top(stack).SplitLoop?) && Top(stack).j == j {
      assert stack[|stack| - 1].j == j;
    }
  }

  /** A bucket that is being split below a frame is a shallower one, and its lock is held. */
  lemma SplitsBelow(stack: Stack, j: nat)
    requires stack != [] && Stacked(stack) && Splits(Below(stack), j)
    ensures Holds(Below(stack), j) && (IsAdd(Top(stack)) || IsSplit(Top(stack))) && Top(stack).j > j
  {
    var below := Below(stack);
    var d :| 0 <= d < |below| && (below[d].SplitWait? || below[d].SplitLoop?) && below[d].j == j;
    assert MayCover(stack[d], stack[d + 1]);
    assert below[d] == stack[d];
    DeeperAbove(stack, d);
  }

  /** Only buckets with a next bucket are split. */
  lemma SplitsHasNext(tb: Table, stack: Stack, j: nat)
    requires StackSafe(|tb.buckets|, tb.k, stack) && Splits(stack, j)
    ensures tb.HasNext(j)
  {
    var d :| 0 <= d < |stack| && (stack[d].SplitWait? || stack[d].SplitLoop?) && stack[d].j == j;
    assert FrameSafe(|tb.buckets|, tb.k, stack[d]);
  }

  // ----- preservation -----

  /** A step takes only locks that were free, releases only its own, starts to split only the last
      bucket, and changes the vector of a locked bucket only as the split that holds the lock. */
  ghost predicate MoveExclusive(tb: Table, stack: Stack, tb': Table, stack': Stack) {
    && OwnLocksHeld(tb'.held, stack')
    && (forall j :: j in tb.held && j !in tb'.held ==> Holds(stack, j))
    && (forall j: nat :: Splits(stack', j) && !Splits(stack, j) ==> !tb.HasNext(j))
    && Extends(tb, tb')
    && (forall j: nat :: j < |tb.buckets| && tb'.buckets[j] != tb.buckets[j] && j in tb.held ==>
          stack != [] && Top(stack).SplitLoop? && Top(stack).j == j)
  }

  /** Replacing the top of a stack by a frame that splits nothing. */
  lemma SplitsReplace(below: Stack, g: Frame, j: nat)
    requires !g.SplitWait? && !g.SplitLoop?
    ensures Splits(below + [g], j) == Splits(below, j) && Holds(below + [g], j) == Holds(below, j)
  {
    assert Below(below + [g]) == below;
    SplitsTop(below + [g], j);
    HoldsTop(below + [g]);
  }

  lemma AddMoveExclusive(tb: Table, stack: Stack)
    requires TableSafe(tb) && StackSafe(|tb.buckets|, tb.k, stack) && Stacked(stack) && OwnLocksHeld(tb.held, stack)
    requires stack != [] && IsAdd(Top(stack)) && AddMove(tb, Below(stack), Top(stack)).Some?
    ensures var (tb', stack') := AddMove(tb, Below(stack), Top(stack)).value; MoveExclusive(tb, stack, tb', stack')
  {
    var below, f := Below(stack), Top(stack);
    var (tb', stack') := AddMove(tb, below, f).value;
    assert stack == below + [f];
    assert FrameSafe(|tb.buckets|, tb.k, f);
    forall j ensures Splits(stack, j) == Splits(below, j) && Holds(stack, j) == Holds(below, j) {
      SplitsReplace(below, f, j);
    }
    if stack' != below && stack' != [Panicked] {
      forall j ensures Splits(stack', j) == Splits(below, j) && Holds(stack', j) == Holds(below, j) {
        SplitsReplace(below, Top(stack'), j);
      }
    }
  }

  lemma SplitLoopMoveExclusive(tb: Table, stack: Stack)
    requires TableSafe(tb) && StackSafe(|tb.buckets|, tb.k, stack) && Stacked(stack) && OwnLocksHeld(tb.held, stack)
    requires stack != [] && Top(stack).SplitLoop? && SplitMove(tb, Below(stack), Top(stack)).Some?
    ensures var (tb', stack') := SplitMove(tb, Below(stack), Top(stack)).value; MoveExclusive(tb, stack, tb', stack')
  {
    var below, f := Below(stack), Top(stack);
    var (tb', stack') := SplitMove(tb, below, f).value;
    HoldsTop(stack);
    forall j ensures Splits(stack, j) <==> Splits(below, j) || f.j == j { SplitsTop(stack, j); }
    forall j | Holds(below, j) ensures j != f.j {
      HoldsIsSplits(below, j);
      SplitsBelow(stack, j);
    }
    HoldsTop(stack');
    forall j ensures Splits(stack', j) ==> Splits(stack, j) {
      SplitsTop(stack', j);
      if |stack'| == |stack| { assert Below(stack') == below; } else { assert Below(stack') == stack; }
    }
    assert Below(stack') == if |stack'| == |stack| then below else stack;
  }

  lemma SplitMoveExclusive(tb: Table, stack: Stack)
    requires TableSafe(tb) && StackSafe(|tb.buckets|, tb.k, stack) && Stacked(stack) && OwnLocksHeld(tb.held, stack)
    requires stack != [] && (Top(stack).AddMake? || Top(stack).SplitWait?) && SplitMove(tb, Below(stack), Top(stack)).Some?
    ensures var (tb', stack') := SplitMove(tb, Below(stack), Top(stack)).value; MoveExclusive(tb, stack, tb', stack')
  {
    var below, f := Below(stack), Top(stack);
    var (tb', stack') := SplitMove(tb, below, f).value;
    HoldsTop(stack);
    forall j ensures Splits(stack, j) <==> Splits(below, j) || (f.SplitWait? && f.j == j) { SplitsTop(stack, j); }
    if stack' != below {
      assert Below(stack') == below;
      HoldsTop(stack');
      forall j ensures Splits(stack', j) <==> Splits(below, j) || ((Top(stack').SplitWait? || Top(stack').SplitLoop?) && Top(stack').j == j) {
        SplitsTop(stack', j);
      }
    }
  }

  lemma OtherMoveExclusive(tb: Table, stack: Stack)
    requires TableSafe(tb) && StackSafe(|tb.buckets|, tb.k, stack) && Stacked(stack) && OwnLocksHeld(tb.held, stack)
    requires stack != [] && !IsAdd(Top(stack)) && !IsSplit(Top(stack)) && Advance(tb, stack).Some?
    ensures var (tb', stack') := Advance(tb, stack).value; MoveExclusive(tb, stack, tb', stack')
    ensures var (tb', stack') := Advance(tb, stack).value; forall j :: !Splits(stack, j) && !Splits(stack', j)
  {
    var below, f := Below(stack), Top(stack);
    var (tb', stack') := Advance(tb, stack).value;
    forall j ensures !Splits(stack, j) && !Holds(stack, j) {
      NothingSplit(stack, j);
      HoldsIsSplits(stack, j);
    }
    forall j ensures !Splits(stack', j) && !Holds(stack', j) {
      AdvanceIsOrderly(tb, stack);
      HoldsIsSplits(stack', j);
      if stack' != [] {
        assert !IsAdd(Top(stack')) && !IsSplit(Top(stack')) by { OthersStayOthers(tb, stack); }
        NothingSplit(stack', j);
      }
    }
  }

  lemma NothingSplit(stack: Stack, j: nat)
    requires stack != [] && Stacked(stack) && !IsAdd(Top(stack)) && !IsSplit(Top(stack))
    ensures !Splits(stack, j)
  {
    SplitsTop(stack, j);
    if Splits(Below(stack), j) { SplitsBelow(stack, j); }
  }

  lemma OthersStayOthers(tb: Table, stack: Stack)
    requires stack != [] && Stacked(stack) && !IsAdd(Top(stack)) && !IsSplit(Top(stack)) && Advance(tb, stack).Some?
    ensures var stack' := Advance(tb, stack).value.1; stack' != [] ==> !IsAdd(Top(stack')) && !IsSplit(Top(stack'))
  {
    if |stack| > 1 { assert MayCover(stack[|stack| - 2], Top(stack)); }
  }

  lemma AdvanceIsExclusive(tb: Table, stack: Stack)
    requires TableSafe(tb) && StackSafe(|tb.buckets|, tb.k, stack) && Stacked(stack) && OwnLocksHeld(tb.held, stack)
    requires Advance(tb, stack).Some?
    ensures var (tb', stack') := Advance(tb, stack).value; MoveExclusive(tb, stack, tb', stack')
  {
    var f := Top(stack);
    if IsAdd(f) { AddMoveExclusive(tb, stack); }
    else if f.SplitLoop? { SplitLoopMoveExclusive(tb, stack); }
    else if IsSplit(f) { SplitMoveExclusive(tb, stack); }
    else { OtherMoveExclusive(tb, stack); }
  }

  lemma TickIsExclusive(s: State, t: nat)
    requires Exclusive(s)
    ensures Exclusive(Tick(s, t))
  {
    TickIsOrderly(s, t);
    if t < |s.calls| && Advance(s.tb, s.calls[t]).Some? {
      var stack := s.calls[t];
      AdvanceIsExclusive(s.tb, stack);
      var s' := Tick(s, t);
      forall u | 0 <= u < |s.calls| ensures OwnLocksHeld(s'.tb.held, s'.calls[u]) {
        if u != t { OthersKeepLocks(s, t, u, s'.tb, s'.calls[t]); }
      }
      OneSplitterStays(s, t, s'.tb, s'.calls[t]);
    }
  }

  lemma OthersKeepLocks(s: State, t: nat, u: nat, tb': Table, stack': Stack)
    requires Exclusive(s) && t < |s.calls| && u < |s.calls| && u != t && MoveExclusive(s.tb, s.calls[t], tb', stack')
    ensures OwnLocksHeld(tb'.held, s.calls[u])
  {
    forall j | Holds(s.calls[u], j) ensures j in tb'.held {
      HoldsIsSplits(s.calls[u], j);
      HoldsIsSplits(s.calls[t], j);
    }
  }

  lemma OneSplitterStays(s: State, t: nat, tb': Table, stack': Stack)
    requires Exclusive(s) && t < |s.calls| && MoveExclusive(s.tb, s.calls[t], tb', stack')
    ensures OneSplitter(s.calls[t := stack'])
  {
    var calls := s.calls[t := stack'];
    forall v, u, j | 0 <= v < |calls| && 0 <= u < |calls| && Splits(calls[v], j) && Splits(calls[u], j) ensures v == u {
      if Splits(s.calls[v], j) { SplitsHasNext(s.tb, s.calls[v], j); }
      if Splits(s.calls[u], j) { SplitsHasNext(s.tb, s.calls[u], j); }
    }
  }

  /** In every reachable state of every call list. */
  lemma {:induction false} RunsAreExclusive(own: U160, k: nat, calls: seq<Call>, schedule: seq<nat>)
    ensures Exclusive(Run(Start(own, k, calls), schedule))
  {
    if schedule == [] {
      RunsAreOrderly(own, k, calls, schedule);
    } else {
      RunsAreExclusive(own, k, calls, schedule[..|schedule| - 1]);
      TickIsExclusive(Run(Start(own, k, calls), schedule[..|schedule| - 1]), schedule[|schedule| - 1]);
    }
  }

  // ----- what a held lock means -----

  /** A frame whose next step reads or writes the vector of bucket `j`. */
  predicate Touches(k: nat, f: Frame, j: nat) {
    || ((f.AddLen? || f.AddFull? || f.AddStore? || f.SplitWait? || f.RemoveHere?) && f.j == j)
    || (f.LookHere? && f.j == j && |f.acc| < k)
  }

  /** While a split holds the lock of a bucket, no other call reads its vector, changes it, or begins to
      split it. */
  lemma HeldIsUntouched(s: State, t: nat, j: nat)
    requires Exclusive(s) && t < |s.calls| && j in s.tb.held && j < |s.tb.buckets| && !Holds(s.calls[t], j)
    ensures Tick(s, t).tb.buckets[j] == s.tb.buckets[j] && j in Tick(s, t).tb.held
    ensures s.calls[t] != [] && Touches(s.tb.k, Top(s.calls[t]), j) ==> Tick(s, t) == s
  {
    var stack := s.calls[t];
    if Advance(s.tb, stack).Some? {
      AdvanceIsExclusive(s.tb, stack);
      HoldsTop(stack);
    }
  }

  /** In every reachable state of every call list. */
  lemma RunsLeaveHeldAlone(own: U160, k: nat, calls: seq<Call>, schedule: seq<nat>, t: nat, j: nat)
    requires var s := Run(Start(own, k, calls), schedule);
      t < |s.calls| && j in s.tb.held && j < |s.tb.buckets| && !Holds(s.calls[t], j)
    ensures var s := Run(Start(own, k, calls), schedule);
      && Tick(s, t).tb.buckets[j] == s.tb.buckets[j] && j in Tick(s, t).tb.held
      && (s.calls[t] != [] && Touches(s.tb.k, Top(s.calls[t]), j) ==> Tick(s, t) == s)
  {
    RunsAreExclusive(own, k, calls, schedule);
    HeldIsUntouched(Run(Start(own, k, calls), schedule), t, j);
  }
}

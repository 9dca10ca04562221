/** The calls never lock each other out: a split that holds its lock waits only for locks of
    deeper buckets, so in every reachable state some unfinished call can take a step. */
module LockProgress {
  import opened U160s
  import opened Wrappers
  import opened LockSteps
  import opened LockSafety

  predicate IsLook(f: Frame) {
    f.LookStart? || f.LookNear? || f.LookHere? || f.LookTail? || f.LookMore? || f.Answer?
  }

  predicate Waits(f: Frame) { f.LookNear? || f.LookMore? }

  /** What may stand directly above a frame. */
  predicate MayCover(f: Frame, above: Frame) {
    || (f.SplitLoop? && (IsAdd(above) || IsSplit(above)) && above.j > f.j)
    || (Waits(f) && IsLook(above))
  }

  predicate Stacked(stack: Stack) {
    && (forall d :: 0 <= d < |stack| - 1 ==> MayCover(stack[d], stack[d + 1]))
    && (stack != [] ==> !Waits(Top(stack)))
  }

  /** Every lock is held by a split in progress. */
  ghost predicate Owned(held: set<nat>, calls: seq<Stack>) {
    forall j :: j in held ==> exists t :: 0 <= t < |calls| && Holds(calls[t], j)
  }

  ghost predicate Orderly(s: State) {
    Safe(s) && (forall t :: 0 <= t < |s.calls| ==> Stacked(s.calls[t])) && Owned(s.tb.held, s.calls)
  }

  // ----- preservation -----

  predicate MoveOrderly(tb: Table, stack: Stack, move: Move) {
    move.Some? ==>
      var (tb', stack') := move.value;
      && Stacked(stack')
      && (forall j :: j in tb'.held ==> j in tb.held || Holds(stack', j))
      && (forall j :: j in tb'.held && Holds(stack, j) ==> Holds(stack', j))
  }

  lemma HoldsAppend(below: Stack, top: Stack, j: nat)
    ensures Holds(below + top, j) <==> Holds(below, j) || Holds(top, j)
  {
    if Holds(below, j) {
      var d :| 0 <= d < |below| && below[d].SplitLoop? && below[d].j == j;
      assert (below + top)[d] == below[d];
    }
    if Holds(top, j) {
      var d :| 0 <= d < |top| && top[d].SplitLoop? && top[d].j == j;
      assert (below + top)[|below| + d] == top[d];
    }
  }

  lemma StackedReplace(stack: Stack, f: Frame)
    requires stack != [] && Stacked(stack) && !Waits(f)
    requires |stack| > 1 ==> MayCover(stack[|stack| - 2], f)
    ensures Stacked(Below(stack) + [f])
  {
  }

  lemma StackedPush(stack: Stack, f: Frame, g: Frame)
    requires stack != [] && Stacked(stack) && MayCover(f, g) && !Waits(g)
    requires |stack| > 1 ==> MayCover(stack[|stack| - 2], f)
    ensures Stacked(Below(stack) + [f, g])
  {
  }

  lemma StackedPop(stack: Stack)
    requires stack != [] && Stacked(stack) && (IsAdd(Top(stack)) || IsSplit(Top(stack)) || IsRemove(Top(stack)))
    ensures Stacked(Below(stack))
  {
    if |stack| > 1 {
      assert MayCover(stack[|stack| - 2], Top(stack));
    }
  }

  lemma HoldsTop(stack: Stack)
    requires stack != []
    ensures forall j :: Holds(stack, j) <==> Holds(Below(stack), j) || (Top(stack).SplitLoop? && Top(stack).j == j)
  {
    forall j ensures Holds(stack, j) <==> Holds(Below(stack), j) || (Top(stack).SplitLoop? && Top(stack).j == j) {
      assert stack == Below(stack) + [Top(stack)];
      HoldsAppend(Below(stack), [Top(stack)], j);
      if Top(stack).SplitLoop? && Top(stack).j == j { assert [Top(stack)][0].j == j; }
    }
  }

  lemma AddMoveOrderly(tb: Table, stack: Stack)
    requires stack != [] && Stacked(stack) && IsAdd(Top(stack))
    ensures MoveOrderly(tb, stack, AddMove(tb, Below(stack), Top(stack)))
  {
    var below, f := Below(stack), Top(stack);
    var move := AddMove(tb, below, f);
    HoldsTop(stack);
    if |stack| > 1 { assert MayCover(stack[|stack| - 2], f); }
    if move.Some? {
      var stack' := move.value.1;
      if stack' == below {
        StackedPop(stack);
      } else if stack' != [Panicked] {
        StackedReplace(stack, Top(stack'));
        HoldsTop(stack');
      } else if below + [Panicked] == stack' {
        assert below == [];
      }
    }
  }

  /** A lock is held after the top frame is replaced exactly if it was held below or is now taken. */
  lemma ReplaceOrderly(tb: Table, stack: Stack, tb': Table, f: Frame)
    requires stack != [] && Stacked(stack) && !Waits(f)
    requires |stack| > 1 ==> MayCover(stack[|stack| - 2], f)
    requires forall j :: j in tb'.held ==> j in tb.held || (f.SplitLoop? && f.j == j)
    requires Top(stack).SplitLoop? ==> (f.SplitLoop? && f.j == Top(stack).j) || Top(stack).j !in tb'.held
    ensures MoveOrderly(tb, stack, Some((tb', Below(stack) + [f])))
  {
    var stack' := Below(stack) + [f];
    assert Below(stack') == Below(stack);
    StackedReplace(stack, f);
    HoldsTop(stack);
    HoldsTop(stack');
  }

  /** A split adds the node it moved: the add stands above the split, which keeps its lock. */
  lemma PushOrderly(tb: Table, stack: Stack, tb': Table, g: Frame)
    requires stack != [] && Stacked(stack) && MayCover(Top(stack), g) && !Waits(g) && tb'.held == tb.held
    ensures MoveOrderly(tb, stack, Some((tb', Below(stack) + [Top(stack), g])))
  {
    var stack' := Below(stack) + [Top(stack), g];
    assert Below(stack') == stack;
    if |stack| > 1 { assert MayCover(stack[|stack| - 2], Top(stack)); }
    StackedPush(stack, Top(stack), g);
    HoldsTop(stack');
  }

  lemma SplitMoveOrderly(tb: Table, stack: Stack)
    requires stack != [] && Stacked(stack) && IsSplit(Top(stack))
    ensures MoveOrderly(tb, stack, SplitMove(tb, Below(stack), Top(stack)))
  {
    var f := Top(stack);
    var move := SplitMove(tb, Below(stack), f);
    if |stack| > 1 { assert MayCover(stack[|stack| - 2], f); }
    if move.Some? {
      var (tb', stack') := move.value;
      if stack' == Below(stack) {
        StackedPop(stack);
        HoldsTop(stack);
      } else if |stack'| == |stack| {
        ReplaceOrderly(tb, stack, tb', Top(stack'));
      } else {
        PushOrderly(tb, stack, tb', Top(stack'));
      }
    }
  }

  lemma RemoveMoveOrderly(tb: Table, stack: Stack)
    requires stack != [] && Stacked(stack) && IsRemove(Top(stack))
    ensures MoveOrderly(tb, stack, RemoveMove(tb, Below(stack), Top(stack)))
  {
    if |stack| > 1 { assert MayCover(stack[|stack| - 2], Top(stack)); }
    HoldsTop(stack);
  }

  lemma StackedBelow(stack: Stack)
    requires |stack| > 1 && Stacked(stack)
    ensures forall d :: 0 <= d < |stack| - 2 ==> MayCover(Below(stack)[d], Below(stack)[d + 1])
    ensures MayCover(stack[|stack| - 2], Top(stack))
  {
    forall d | 0 <= d < |stack| - 2 ensures MayCover(Below(stack)[d], Below(stack)[d + 1]) {
      assert MayCover(stack[d], stack[d + 1]);
    }
  }

  /** An answer takes the place of the lookup that waited for it. */
  lemma AnswerOrderly(tb: Table, stack: Stack)
    requires |stack| > 1 && Stacked(stack) && Top(stack).Answer?
    ensures MoveOrderly(tb, stack, LookMove(tb, Below(stack), Top(stack)))
  {
    var below := Below(stack);
    var move := LookMove(tb, below, Top(stack));
    HoldsTop(stack);
    HoldsTop(below);
    StackedBelow(stack);
    if move.Some? {
      var stack' := move.value.1;
      HoldsTop(stack');
      assert Below(stack') == Below(below);
      if |below| > 1 { assert MayCover(below[|below| - 2], below[|below| - 1]); }
    }
  }

  lemma CoveredFromBelow(stack: Stack)
    requires stack != [] && Stacked(stack)
    ensures |stack| > 1 ==> MayCover(stack[|stack| - 2], Top(stack))
  {
    if |stack| > 1 { StackedBelow(stack); }
  }

  /** A lookup frame that waits for another one. */
  lemma LookPushOrderly(tb: Table, stack: Stack, f: Frame, g: Frame)
    requires stack != [] && Stacked(stack) && IsLook(Top(stack)) && Waits(f) && IsLook(g) && !Waits(g)
    ensures MoveOrderly(tb, stack, Some((tb, Below(stack) + [f, g])))
  {
    var stack' := Below(stack) + [f, g];
    CoveredFromBelow(stack);
    StackedPush(stack, f, g);
    assert Below(stack') == Below(stack) + [f] && Below(Below(stack) + [f]) == Below(stack);
    HoldsTop(stack);
    HoldsTop(stack');
    HoldsTop(Below(stack'));
  }

  lemma LookMoveOrderly(tb: Table, stack: Stack)
    requires stack != [] && Stacked(stack) && IsLook(Top(stack))
    ensures MoveOrderly(tb, stack, LookMove(tb, Below(stack), Top(stack)))
  {
    var below, f := Below(stack), Top(stack);
    var move := LookMove(tb, below, f);
    if f.Answer? {
      if below != [] { AnswerOrderly(tb, stack); }
    } else if move.Some? {
      var stack' := move.value.1;
      if |stack'| == |stack| {
        CoveredFromBelow(stack);
        ReplaceOrderly(tb, stack, tb, Top(stack'));
      } else {
        LookPushOrderly(tb, stack, stack'[|stack| - 1], Top(stack'));
      }
    }
  }

  lemma AdvanceIsOrderly(tb: Table, stack: Stack)
    requires Stacked(stack)
    ensures MoveOrderly(tb, stack, Advance(tb, stack))
  {
    if stack != [] {
      var f := Top(stack);
      if IsAdd(f) { AddMoveOrderly(tb, stack); }
      else if IsSplit(f) { SplitMoveOrderly(tb, stack); }
      else if IsRemove(f) { RemoveMoveOrderly(tb, stack); }
      else if IsLook(f) { LookMoveOrderly(tb, stack); }
    }
  }

  lemma TickIsOrderly(s: State, t: nat)
    requires Orderly(s)
    ensures Orderly(Tick(s, t))
  {
    TickIsSafe(s, t);
    if t < |s.calls| && Advance(s.tb, s.calls[t]).Some? {
      AdvanceIsOrderly(s.tb, s.calls[t]);
      var s' := Tick(s, t);
      forall j | j in s'.tb.held ensures exists u :: 0 <= u < |s'.calls| && Holds(s'.calls[u], j) {
        if j in s.tb.held {
          var u :| 0 <= u < |s.calls| && Holds(s.calls[u], j);
          assert Holds(s'.calls[u], j);
        } else {
          assert Holds(s'.calls[t], j);
        }
      }
    }
  }

  lemma {:induction false} RunsAreOrderly(own: U160, k: nat, calls: seq<Call>, schedule: seq<nat>)
    ensures Orderly(Run(Start(own, k, calls), schedule))
  {
    if schedule == [] {
      AnyInterleavingIsSafe(own, k, calls, schedule);
    } else {
      RunsAreOrderly(own, k, calls, schedule[..|schedule| - 1]);
      TickIsOrderly(Run(Start(own, k, calls), schedule[..|schedule| - 1]), schedule[|schedule| - 1]);
    }
  }

  // ----- progress -----

  predicate Finished(stack: Stack) {
    stack == [] || (|stack| == 1 && (stack[0].Answer? || stack[0].Removed? || stack[0].Panicked?))
  }

  predicate AllFinished(s: State) {
    forall t :: 0 <= t < |s.calls| ==> Finished(s.calls[t])
  }

  /** An unfinished call that cannot advance waits for a held lock. */
  lemma StuckMeansLocked(tb: Table, stack: Stack)
    requires TableSafe(tb) && StackSafe(|tb.buckets|, tb.k, stack) && Stacked(stack)
    requires Advance(tb, stack).None? && !Finished(stack)
    ensures stack != [] && !Top(stack).SplitLoop? && !Top(stack).Answer? && !Top(stack).Removed? && !Top(stack).Panicked?
    ensures Top(stack).j in tb.held
  {
    var below, f := Below(stack), Top(stack);
    assert FrameSafe(|tb.buckets|, tb.k, f);
    if |stack| > 1 {
      assert MayCover(stack[|stack| - 2], f);
      assert stack[|stack| - 2] == Top(below);
    }
  }

  /** Above a split, every frame stands in a deeper bucket. */
  lemma {:induction false} DeeperAbove(stack: Stack, d: nat)
    requires Stacked(stack) && d + 1 < |stack| && stack[d].SplitLoop?
    ensures (IsAdd(Top(stack)) || IsSplit(Top(stack))) && Top(stack).j > stack[d].j
    decreases |stack| - d
  {
    assert MayCover(stack[d], stack[d + 1]);
    if d + 2 < |stack| {
      assert MayCover(stack[d + 1], stack[d + 2]);
      DeeperAbove(stack, d + 1);
    }
  }

  lemma {:induction false} MaxExists(s: set<nat>) returns (m: nat)
    requires s != {}
    ensures m in s && forall x :: x in s ==> x <= m
    decreases s
  {
    var first :| first in s;
    m := first;
    if s != {first} {
      var rest := MaxExists(s - {first});
      if rest > first { m := rest; }
      assert forall x :: x in s ==> x == first || x in s - {first};
    }
  }

  /** Whoever holds the deepest held lock can advance. */
  lemma DeepestHolderAdvances(s: State, t: nat, j: nat)
    requires Orderly(s) && t < |s.calls| && Holds(s.calls[t], j) && (forall h :: h in s.tb.held ==> h <= j)
    ensures Advance(s.tb, s.calls[t]).Some?
  {
    var stack := s.calls[t];
    var d :| 0 <= d < |stack| && stack[d].SplitLoop? && stack[d].j == j;
    if d + 1 < |stack| { DeeperAbove(stack, d); }
    if Advance(s.tb, stack).None? {
      StuckMeansLocked(s.tb, stack);
    }
  }

  lemma NeverStuck(s: State)
    requires Orderly(s)
    ensures AllFinished(s) || exists t :: 0 <= t < |s.calls| && Advance(s.tb, s.calls[t]).Some?
  {
    if t :| 0 <= t < |s.calls| && !Finished(s.calls[t]) {
      if Advance(s.tb, s.calls[t]).None? {
        StuckMeansLocked(s.tb, s.calls[t]);
        var j := MaxExists(s.tb.held);
        var u :| 0 <= u < |s.calls| && Holds(s.calls[u], j);
        DeepestHolderAdvances(s, u, j);
      }
    }
  }

  /** No deadlock: in every state that an interleaving of adds, lookups and removes can reach,
      either every call is over or some call can advance. */
  lemma NoDeadlock(own: U160, k: nat, calls: seq<Call>, schedule: seq<nat>)
    ensures var s := Run(Start(own, k, calls), schedule);
      AllFinished(s) || exists t :: 0 <= t < |s.calls| && Advance(s.tb, s.calls[t]).Some?
  {
    RunsAreOrderly(own, k, calls, schedule);
    NeverStuck(Run(Start(own, k, calls), schedule));
  }
}

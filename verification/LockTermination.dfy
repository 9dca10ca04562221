/** Concurrent calls come to an end: whatever the schedule, only so many steps can have an effect,
    and from every reachable state the calls can all be finished. */
module LockTermination {
  import opened U160s
  import opened NodeInfos
  import opened Chains
  import opened LockSteps
  import opened LockSafety
  import opened LockProgress
  import opened LockExclusion
  import opened LockPlacement

  const INDICES: nat := MAX_BUCKET_INDEX + 1

  /** How many buckets there may be from index `j` on. */
  function Depth(j: nat): nat { if j < INDICES then INDICES - j else 0 }

  /** What a lookup may cost: it may ask the next bucket twice. */
  function LookCost(depth: nat): nat {
    if depth == 0 then 8 else 2 * LookCost(depth - 1) + 8
  }

  /** More than an add may cost that creates no bucket. */
  const ADD_COST: nat := 10 * INDICES + 20

  /** An upper bound of the steps that a frame still causes, new buckets apart. */
  function Cost(tb: Table, f: Frame): nat {
    match f
    case AddStart(j, _) => 10 * Depth(j) + 9
    case AddLen(j, _) => 10 * Depth(j) + 8
    case AddCheck(j, _) => 10 * Depth(j) + 7
    case AddFull(j, _) => 10 * Depth(j) + 6
    case AddMake(j, _) => 10 * Depth(j) + 5
    case SplitWait(j, _) => 10 * Depth(j) + 6 + tb.k * ADD_COST
    case SplitLoop(j, _, i) => 10 * Depth(j) + 5 + Left(tb, j, i) * ADD_COST
    case AddRoute(j, _) => 10 * Depth(j) + 4
    case AddStore(j, _) => 10 * Depth(j) + 3
    case LookStart(j, _) => LookCost(Depth(j))
    case LookNear(j, _) => LookCost(Depth(j + 1)) + 5
    case LookHere(j, _, _) => LookCost(Depth(j + 1)) + 4
    case LookTail(j, _, _) => LookCost(Depth(j + 1)) + 3
    case LookMore(_, _, _) => 2
    case Answer(_) => 1
    case RemoveStart(j, _) => 2 * Depth(j) + 2
    case RemoveHere(_, _) => 1
    case Removed(_) => 0
    case Panicked => 0
  }

  /** The nodes that a split has yet to look at. */
  function Left(tb: Table, j: nat, i: nat): nat {
    if j < |tb.buckets| && i <= |tb.buckets[j]| then |tb.buckets[j]| - i else 0
  }

  function StackCost(tb: Table, stack: Stack): nat {
    if stack == [] then 0 else StackCost(tb, Below(stack)) + Cost(tb, Top(stack))
  }

  function CallsCost(tb: Table, calls: seq<Stack>): nat {
    if calls == [] then 0 else CallsCost(tb, calls[..|calls| - 1]) + StackCost(tb, calls[|calls| - 1])
  }

  /** What a new bucket adds to the cost of the call that creates it. */
  function BucketCost(k: nat): nat { k * ADD_COST + 2 }

  function Spare(tb: Table): nat {
    if |tb.buckets| < INDICES then INDICES - |tb.buckets| else 0
  }

  function Times(a: nat, b: nat): nat { a * b }

  /** The number of steps that the calls can still take. */
  function Budget(s: State): nat {
    Times(Spare(s.tb), BucketCost(s.tb.k)) + CallsCost(s.tb, s.calls)
  }

  // ----- costs of unmoved calls -----

  lemma {:induction false} StackCostStays(tb: Table, tb': Table, stack: Stack)
    requires tb'.k == tb.k && StackSafe(|tb.buckets|, tb.k, stack) && |tb.buckets| <= |tb'.buckets|
    requires forall j: nat :: j < |tb.buckets| && Holds(stack, j) ==> tb'.buckets[j] == tb.buckets[j]
    ensures StackCost(tb', stack) == StackCost(tb, stack)
  {
    if stack != [] {
      var below := Below(stack);
      HoldsTop(stack);
      assert StackSafe(|tb.buckets|, tb.k, below);
      StackCostStays(tb, tb', below);
      assert FrameSafe(|tb.buckets|, tb.k, Top(stack));
      if Top(stack).SplitLoop? { assert Holds(stack, Top(stack).j); }
    }
  }

  lemma {:induction false} OthersCost(tb: Table, tb': Table, calls: seq<Stack>, t: nat, stack': Stack)
    requires t < |calls|
    requires forall u :: 0 <= u < |calls| && u != t ==> StackCost(tb', calls[u]) == StackCost(tb, calls[u])
    ensures CallsCost(tb', calls[t := stack']) + StackCost(tb, calls[t]) == CallsCost(tb, calls) + StackCost(tb', stack')
  {
    var init, last := calls[..|calls| - 1], calls[|calls| - 1];
    var changed := calls[t := stack'];
    if t == |calls| - 1 {
      assert changed[..|calls| - 1] == init;
      SameCost(tb, tb', init);
    } else {
      assert changed[..|calls| - 1] == init[t := stack'];
      OthersCost(tb, tb', init, t, stack');
    }
  }

  lemma {:induction false} SameCost(tb: Table, tb': Table, calls: seq<Stack>)
    requires forall u :: 0 <= u < |calls| ==> StackCost(tb', calls[u]) == StackCost(tb, calls[u])
    ensures CallsCost(tb', calls) == CallsCost(tb, calls)
  {
    if calls != [] { SameCost(tb, tb', calls[..|calls| - 1]); }
  }

  // ----- the cost of a step -----

  lemma TopCost(tb: Table, below: Stack, f: Frame)
    ensures StackCost(tb, below + [f]) == StackCost(tb, below) + Cost(tb, f)
  {
    assert Below(below + [f]) == below;
  }

  lemma TwoCost(tb: Table, below: Stack, f: Frame, g: Frame)
    ensures StackCost(tb, below + [f, g]) == StackCost(tb, below) + Cost(tb, f) + Cost(tb, g)
  {
    TopCost(tb, below, f);
    TopCost(tb, below + [f], g);
    assert below + [f] + [g] == below + [f, g];
  }

  lemma BelowCostStays(tb: Table, stack: Stack, tb': Table)
    requires Ready(tb, stack) && Extends(tb, tb')
    requires forall j: nat :: j < |tb.buckets| && tb'.buckets[j] != tb.buckets[j] ==>
      j !in tb.held || (Top(stack).SplitLoop? && Top(stack).j == j)
    ensures StackCost(tb', Below(stack)) == StackCost(tb, Below(stack))
  {
    var below := Below(stack);
    forall j: nat | j < |tb.buckets| && Holds(below, j) ensures tb'.buckets[j] == tb.buckets[j] {
      HoldsTop(stack);
      HoldsIsSplits(below, j);
      SplitsBelow(stack, j);
    }
    assert StackSafe(|tb.buckets|, tb.k, below);
    StackCostStays(tb, tb', below);
  }

  /** A frame that gives way to a cheaper one, or to none. */
  ghost predicate Cheaper(tb: Table, below: Stack, f: Frame, tb': Table, stack': Stack) {
    || (stack' == below && Cost(tb, f) > 0)
    || (|stack'| == |below| + 1 && stack' == below + [Top(stack')] && Cost(tb', Top(stack')) < Cost(tb, f))
  }

  lemma CheaperStack(tb: Table, below: Stack, f: Frame, tb': Table, stack': Stack)
    requires Cheaper(tb, below, f, tb', stack') && StackCost(tb', below) == StackCost(tb, below)
    ensures StackCost(tb', stack') < StackCost(tb, below + [f])
  {
    TopCost(tb, below, f);
    if stack' != below { TopCost(tb', below, Top(stack')); }
  }

  lemma AddFrameCost(tb: Table, below: Stack, f: Frame)
    requires IsAdd(f) && FrameSafe(|tb.buckets|, tb.k, f) && |tb.buckets| <= INDICES && AddMove(tb, below, f).Some?
    ensures var (tb', stack') := AddMove(tb, below, f).value;
      |tb'.buckets| == |tb.buckets| && (stack' == [Panicked] || Cheaper(tb, below, f, tb', stack'))
    ensures Cost(tb, f) > 0
  {
  }

  lemma AddBelowStays(tb: Table, stack: Stack)
    requires Ready(tb, stack) && IsAdd(Top(stack))
    ensures StackCost(Advance(tb, stack).value.0, Below(stack)) == StackCost(tb, Below(stack))
  {
    AddMoveExclusive(tb, stack);
    BelowCostStays(tb, stack, Advance(tb, stack).value.0);
  }

  lemma NothingLeft(tb: Table)
    ensures StackCost(tb, [Panicked]) == 0
  {
    assert Below([Panicked]) == [];
  }

  lemma PanicCost(tb: Table, tb': Table, below: Stack, f: Frame)
    requires Cost(tb, f) > 0
    ensures StackCost(tb', [Panicked]) < StackCost(tb, below + [f])
  {
    NothingLeft(tb');
    TopCost(tb, below, f);
  }

  lemma AddMoveCost(tb: Table, stack: Stack)
    requires Ready(tb, stack) && IsAdd(Top(stack))
    ensures var (tb', stack') := Advance(tb, stack).value;
      |tb'.buckets| == |tb.buckets| && StackCost(tb', stack') < StackCost(tb, stack)
  {
    var below, f := Below(stack), Top(stack);
    var (tb', stack') := Advance(tb, stack).value;
    assert stack == below + [f];
    assert FrameSafe(|tb.buckets|, tb.k, f);
    AddFrameCost(tb, below, f);
    if stack' == [Panicked] {
      PanicCost(tb, tb', below, f);
    } else {
      AddBelowStays(tb, stack);
      CheaperStack(tb, below, f, tb', stack');
    }
  }

  lemma RemoveFrameCost(tb: Table, below: Stack, f: Frame)
    requires IsRemove(f) && |tb.buckets| <= INDICES && RemoveMove(tb, below, f).Some?
    ensures var (tb', stack') := RemoveMove(tb, below, f).value; Cheaper(tb, below, f, tb', stack')
  {
    var stack' := RemoveMove(tb, below, f).value.1;
    assert stack' == below + [Top(stack')];
  }

  lemma RemoveBelowStays(tb: Table, stack: Stack)
    requires Ready(tb, stack) && IsRemove(Top(stack))
    ensures var tb' := Advance(tb, stack).value.0;
      Extends(tb, tb') && |tb'.buckets| == |tb.buckets| && StackCost(tb', Below(stack)) == StackCost(tb, Below(stack))
  {
    AdvanceIsSafe(tb, stack);
    BelowCostStays(tb, stack, Advance(tb, stack).value.0);
  }

  lemma RemoveMoveCost(tb: Table, stack: Stack)
    requires Ready(tb, stack) && IsRemove(Top(stack))
    ensures var (tb', stack') := Advance(tb, stack).value;
      |tb'.buckets| == |tb.buckets| && StackCost(tb', stack') < StackCost(tb, stack)
  {
    var below, f := Below(stack), Top(stack);
    var (tb', stack') := Advance(tb, stack).value;
    assert stack == below + [f];
    RemoveFrameCost(tb, below, f);
    RemoveBelowStays(tb, stack);
    CheaperStack(tb, below, f, tb', stack');
  }

  lemma LookDeeper(j: nat)
    requires j < INDICES
    ensures LookCost(Depth(j)) == 2 * LookCost(Depth(j + 1)) + 8
  {
    assert Depth(j) == Depth(j + 1) + 1;
  }

  /** A lookup frame that gives way to cheaper ones. */
  ghost predicate CheaperTwo(tb: Table, below: Stack, f: Frame, stack': Stack) {
    || (|stack'| == |below| + 1 && stack' == below + [Top(stack')] && Cost(tb, Top(stack')) < Cost(tb, f))
    || (|stack'| == |below| + 2 && stack' == below + [stack'[|below|], Top(stack')]
        && Cost(tb, stack'[|below|]) + Cost(tb, Top(stack')) < Cost(tb, f))
  }

  lemma LookFrameCost(tb: Table, below: Stack, f: Frame)
    requires IsLook(f) && !f.Answer? && FrameSafe(|tb.buckets|, tb.k, f) && |tb.buckets| <= INDICES
    requires LookMove(tb, below, f).Some?
    ensures var (tb', stack') := LookMove(tb, below, f).value; tb' == tb && CheaperTwo(tb, below, f, stack')
  {
    if f.LookStart? { LookDeeper(f.j); }
  }

  lemma LookMoveCost(tb: Table, stack: Stack)
    requires Ready(tb, stack) && IsLook(Top(stack)) && !Top(stack).Answer?
    ensures var (tb', stack') := Advance(tb, stack).value;
      tb' == tb && StackCost(tb', stack') < StackCost(tb, stack)
  {
    var below, f := Below(stack), Top(stack);
    var stack' := Advance(tb, stack).value.1;
    assert FrameSafe(|tb.buckets|, tb.k, f);
    LookFrameCost(tb, below, f);
    if |stack'| == |stack| {
      TopCost(tb, below, Top(stack'));
    } else {
      TwoCost(tb, below, stack'[|below|], Top(stack'));
    }
  }

  lemma ResumeCost(tb: Table, waiting: Frame, found: seq<NodeInfo>)
    requires Resume(tb.k, waiting, found).Some?
    ensures Cost(tb, Resume(tb.k, waiting, found).value) < Cost(tb, waiting)
  {
  }

  lemma AnswerMoveCost(tb: Table, stack: Stack)
    requires Ready(tb, stack) && Top(stack).Answer?
    ensures var (tb', stack') := Advance(tb, stack).value;
      tb' == tb && StackCost(tb', stack') < StackCost(tb, stack)
  {
    var below := Below(stack);
    var waiting, g := Top(below), Resume(tb.k, Top(below), Top(stack).found).value;
    assert below == Below(below) + [waiting] && stack == below + [Top(stack)];
    assert Advance(tb, stack).value == (tb, Below(below) + [g]);
    ResumeCost(tb, waiting, Top(stack).found);
    TopCost(tb, Below(below), g);
    TopCost(tb, Below(below), waiting);
    TopCost(tb, below, Top(stack));
  }

  lemma SplitLoopFrameCost(tb: Table, below: Stack, f: Frame)
    requires f.SplitLoop? && f.j + 1 < |tb.buckets| <= INDICES && f.i <= |tb.buckets[f.j]| && SplitMove(tb, below, f).Some?
    ensures var (tb', stack') := SplitMove(tb, below, f).value;
      && |tb'.buckets| == |tb.buckets|
      && (Cheaper(tb, below, f, tb', stack')
          || (f.i < |tb.buckets[f.j]| && stack' == below + [f, AddStart(f.j + 1, tb.buckets[f.j][f.i])]
              && Cost(tb', f) + Cost(tb', AddStart(f.j + 1, tb.buckets[f.j][f.i])) < Cost(tb, f)))
  {
    if f.i < |tb.buckets[f.j]| { OneLess(|tb.buckets[f.j]| - f.i, ADD_COST); }
  }

  lemma SplitLoopMoveCost(tb: Table, stack: Stack)
    requires Ready(tb, stack) && Top(stack).SplitLoop?
    ensures var (tb', stack') := Advance(tb, stack).value;
      |tb'.buckets| == |tb.buckets| && StackCost(tb', stack') < StackCost(tb, stack)
  {
    var below, f := Below(stack), Top(stack);
    var (tb', stack') := Advance(tb, stack).value;
    assert FrameSafe(|tb.buckets|, tb.k, f) && FramePlaced(tb, f);
    SplitLoopFrameCost(tb, below, f);
    SplitLoopMoveExclusive(tb, stack);
    BelowCostStays(tb, stack, tb');
    assert stack == below + [f];
    if Cheaper(tb, below, f, tb', stack') {
      CheaperStack(tb, below, f, tb', stack');
    } else {
      TwoCost(tb', below, f, AddStart(f.j + 1, tb.buckets[f.j][f.i]));
      TopCost(tb, below, f);
    }
  }

  lemma OneLess(n: nat, c: nat)
    requires n > 0
    ensures n * c == (n - 1) * c + c
  {
  }

  lemma SplitFrameCost(tb: Table, below: Stack, f: Frame)
    requires (f.AddMake? || f.SplitWait?) && FrameSafe(|tb.buckets|, tb.k, f) && TableSafe(tb) && SplitMove(tb, below, f).Some?
    ensures var (tb', stack') := SplitMove(tb, below, f).value;
      && (|tb'.buckets| == |tb.buckets| ==> Cheaper(tb, below, f, tb', stack'))
      && (|tb'.buckets| != |tb.buckets| ==>
            && |tb'.buckets| == |tb.buckets| + 1 <= INDICES && |stack'| == |below| + 1
            && stack' == below + [Top(stack')] && Cost(tb', Top(stack')) < Cost(tb, f) + BucketCost(tb.k))
  {
    if f.SplitWait? {
      assert BucketSafe(tb.k, tb.buckets[f.j]);
      AtMost(|tb.buckets[f.j]|, tb.k, ADD_COST);
    }
  }

  /** Taking a lock or creating a bucket: the only step whose cost may rise, by less than a bucket. */
  lemma SplitMoveCost(tb: Table, stack: Stack)
    requires Ready(tb, stack) && IsSplit(Top(stack)) && !Top(stack).SplitLoop?
    ensures var (tb', stack') := Advance(tb, stack).value;
      if |tb'.buckets| == |tb.buckets| then StackCost(tb', stack') < StackCost(tb, stack)
      else |tb'.buckets| == |tb.buckets| + 1 <= INDICES && StackCost(tb', stack') < StackCost(tb, stack) + BucketCost(tb.k)
  {
    var below, f := Below(stack), Top(stack);
    var (tb', stack') := Advance(tb, stack).value;
    assert FrameSafe(|tb.buckets|, tb.k, f);
    SplitFrameCost(tb, below, f);
    SplitMoveExclusive(tb, stack);
    BelowCostStays(tb, stack, tb');
    assert stack == below + [f];
    if |tb'.buckets| == |tb.buckets| {
      CheaperStack(tb, below, f, tb', stack');
    } else {
      TopCost(tb', below, Top(stack'));
      TopCost(tb, below, f);
    }
  }

  lemma AtMost(m: nat, n: nat, c: nat)
    requires m <= n
    ensures m * c <= n * c
  {
  }

  lemma MoveCosts(tb: Table, stack: Stack)
    requires Ready(tb, stack)
    ensures var (tb', stack') := Advance(tb, stack).value;
      || (|tb'.buckets| == |tb.buckets| && StackCost(tb', stack') < StackCost(tb, stack))
      || (|tb'.buckets| == |tb.buckets| + 1 <= INDICES && StackCost(tb', stack') < StackCost(tb, stack) + BucketCost(tb.k))
  {
    var f := Top(stack);
    if IsAdd(f) { AddMoveCost(tb, stack); }
    else if f.SplitLoop? { SplitLoopMoveCost(tb, stack); }
    else if IsSplit(f) { SplitMoveCost(tb, stack); }
    else if IsRemove(f) { RemoveMoveCost(tb, stack); }
    else if f.Answer? { AnswerMoveCost(tb, stack); }
    else { LookMoveCost(tb, stack); }
  }

  lemma AdvanceCosts(tb: Table, stack: Stack)
    requires Ready(tb, stack)
    ensures var (tb', stack') := Advance(tb, stack).value;
      Times(Spare(tb'), BucketCost(tb.k)) + StackCost(tb', stack') < Times(Spare(tb), BucketCost(tb.k)) + StackCost(tb, stack)
  {
    var (tb', stack') := Advance(tb, stack).value;
    MoveCosts(tb, stack);
    if |tb'.buckets| != |tb.buckets| {
      assert Spare(tb') == Spare(tb) - 1;
      OneLess(Spare(tb), BucketCost(tb.k));
    }
  }

  lemma OtherCostStays(s: State, t: nat, u: nat, tb': Table, stack': Stack)
    requires Guided(s) && t < |s.calls| && u < |s.calls| && u != t && MoveExclusive(s.tb, s.calls[t], tb', stack')
    ensures StackCost(tb', s.calls[u]) == StackCost(s.tb, s.calls[u])
  {
    forall j: nat | j < |s.tb.buckets| && Holds(s.calls[u], j) ensures tb'.buckets[j] == s.tb.buckets[j] {
      HoldsIsSplits(s.calls[u], j);
      if s.calls[t] != [] { SplitsTop(s.calls[t], j); }
    }
    StackCostStays(s.tb, tb', s.calls[u]);
  }

  /** Every step that has an effect leaves fewer to be taken. */
  lemma TickCosts(s: State, t: nat)
    requires Guided(s) && t < |s.calls| && Advance(s.tb, s.calls[t]).Some?
    ensures Budget(Tick(s, t)) < Budget(s)
  {
    var (tb', stack') := Advance(s.tb, s.calls[t]).value;
    AdvanceIsExclusive(s.tb, s.calls[t]);
    forall u | 0 <= u < |s.calls| && u != t ensures StackCost(tb', s.calls[u]) == StackCost(s.tb, s.calls[u]) {
      OtherCostStays(s, t, u, tb', stack');
    }
    OthersCost(s.tb, tb', s.calls, t, stack');
    AdvanceCosts(s.tb, s.calls[t]);
  }

  // ----- runs -----

  predicate HasEffect(s: State, t: nat) {
    t < |s.calls| && Advance(s.tb, s.calls[t]).Some?
  }

  /** How many steps of a schedule change anything. */
  function Effective(start: State, schedule: seq<nat>): nat {
    if schedule == [] then 0
    else
      var init, t := schedule[..|schedule| - 1], schedule[|schedule| - 1];
      Effective(start, init) + if HasEffect(Run(start, init), t) then 1 else 0
  }

  /** Every schedule, however long, has at most as many effective steps as the calls are worth. */
  lemma {:induction false} FewStepsMatter(own: U160, k: nat, calls: seq<Call>, schedule: seq<nat>)
    ensures var start := Start(own, k, calls);
      Effective(start, schedule) + Budget(Run(start, schedule)) <= Budget(start)
  {
    var start := Start(own, k, calls);
    if schedule != [] {
      var init, t := schedule[..|schedule| - 1], schedule[|schedule| - 1];
      FewStepsMatter(own, k, calls, init);
      RunsAreGuided(own, k, calls, init);
      if HasEffect(Run(start, init), t) { TickCosts(Run(start, init), t); }
    }
  }

  lemma {:induction false} RunConcat(s: State, a: seq<nat>, b: seq<nat>)
    ensures Run(s, a + b) == Run(Run(s, a), b)
  {
    if b == [] {
      assert a + b == a;
    } else {
      assert (a + b)[..|a + b| - 1] == a + b[..|b| - 1];
      RunConcat(s, a, b[..|b| - 1]);
    }
  }

  lemma RunOne(s: State, t: nat, rest: seq<nat>)
    ensures Run(s, [t] + rest) == Run(Tick(s, t), rest)
  {
    RunConcat(s, [t], rest);
    assert [t][..0] == [];
  }

  lemma {:induction false} FinishFrom(s: State) returns (more: seq<nat>)
    requires Guided(s)
    ensures AllFinished(Run(s, more))
    decreases Budget(s)
  {
    NeverStuck(s);
    if AllFinished(s) {
      more := [];
    } else {
      var t: nat :| t < |s.calls| && Advance(s.tb, s.calls[t]).Some?;
      TickCosts(s, t);
      TickIsGuided(s, t);
      var rest := FinishFrom(Tick(s, t));
      more := [t] + rest;
      RunOne(s, t, rest);
    }
  }

  /** From every reachable state some schedule brings all calls to their end. */
  lemma CallsCanFinish(own: U160, k: nat, calls: seq<Call>, schedule: seq<nat>) returns (more: seq<nat>)
    ensures AllFinished(Run(Start(own, k, calls), schedule + more))
  {
    RunsAreGuided(own, k, calls, schedule);
    more := FinishFrom(Run(Start(own, k, calls), schedule));
    RunConcat(Start(own, k, calls), schedule, more);
  }
}

/** Exactly what makes an insertion panic: a removal between its two looks at a full last bucket. */
module LockPanics {
  import opened U160s
  import opened NodeInfos
  import opened Wrappers
  import opened Chains
  import opened LockSteps
  import opened LockSafety
  import opened LockProgress

  /** What an add knows about its bucket: past the length check the bucket is full or has been split,
      and past the split it has a next bucket. */
  predicate FrameSure(tb: Table, f: Frame) {
    match f
    case AddCheck(j, _) => j < |tb.buckets| && (tb.HasNext(j) || |tb.buckets[j]| == tb.k)
    case AddFull(j, _) => j < |tb.buckets| && (tb.HasNext(j) || |tb.buckets[j]| == tb.k)
    case AddRoute(j, _) => tb.HasNext(j)
    case Panicked => false
    case _ => true
  }

  predicate StackSure(tb: Table, stack: Stack) {
    forall d :: 0 <= d < |stack| ==> FrameSure(tb, stack[d])
  }

  predicate Sure(s: State) {
    Safe(s) && forall t :: 0 <= t < |s.calls| ==> StackSure(s.tb, s.calls[t])
  }

  /** An add that has found bucket `j` full and has yet to act on it. */
  predicate Decides(f: Frame, j: nat) { (f.AddCheck? || f.AddFull?) && f.j == j }

  predicate Deciding(stack: Stack, j: nat) {
    exists d :: 0 <= d < |stack| && Decides(stack[d], j)
  }

  /** A removal that takes a node out of a full last bucket. */
  predicate RemovesFromFull(tb: Table, stack: Stack) {
    && stack != [] && Top(stack).RemoveHere? && tb.Free(Top(stack).j)
    && !tb.HasNext(Top(stack).j) && |tb.buckets[Top(stack).j]| == tb.k
    && HasId(tb.buckets[Top(stack).j], Top(stack).id)
  }

  /** The one step that can make a panic possible. */
  predicate Undermines(s: State, t: nat) {
    && t < |s.calls| && RemovesFromFull(s.tb, s.calls[t])
    && exists u :: 0 <= u < |s.calls| && Deciding(s.calls[u], Top(s.calls[t]).j)
  }

  // ----- nothing else makes a panic possible -----

  /** From one table to the next no bucket that is still last loses a node. */
  predicate LastNeverShrinks(tb: Table, tb': Table) {
    && Extends(tb, tb')
    && (|tb'.buckets| == |tb.buckets| > 0 ==>
          |tb'.buckets[|tb.buckets| - 1]| >= |tb.buckets[|tb.buckets| - 1]|)
  }

  lemma SureIsStable(tb: Table, tb': Table, stack: Stack)
    requires TableSafe(tb') && LastNeverShrinks(tb, tb') && StackSure(tb, stack)
    ensures StackSure(tb', stack)
  {
    forall d | 0 <= d < |stack| ensures FrameSure(tb', stack[d]) {
      assert FrameSure(tb, stack[d]);
    }
  }

  predicate MoveSure(tb: Table, move: Move) {
    move.Some? ==> LastNeverShrinks(tb, move.value.0) && StackSure(move.value.0, move.value.1)
  }

  lemma AddMoveSure(tb: Table, below: Stack, f: Frame)
    requires TableSafe(tb) && FrameSafe(|tb.buckets|, tb.k, f) && IsAdd(f)
    requires StackSure(tb, below) && FrameSure(tb, f)
    ensures MoveSure(tb, AddMove(tb, below, f))
  {
    if f.AddStore? && tb.Free(f.j) {
      AddOrUpdateSafe(tb.buckets[f.j], tb.k, f.n);
      SureIsStable(tb, tb.With(f.j, AddOrUpdate(tb.buckets[f.j], tb.k, f.n)), below);
    }
  }

  lemma SplitMoveSure(tb: Table, below: Stack, f: Frame)
    requires TableSafe(tb) && FrameSafe(|tb.buckets|, tb.k, f) && StackSafe(|tb.buckets|, tb.k, below) && IsSplit(f)
    requires StackSure(tb, below) && FrameSure(tb, f)
    ensures MoveSure(tb, SplitMove(tb, below, f))
  {
    var move := SplitMove(tb, below, f);
    SplitMoveSafe(tb, below, f);
    if move.Some? { SureIsStable(tb, move.value.0, below); }
  }

  lemma LookMoveSure(tb: Table, below: Stack, f: Frame)
    requires StackSure(tb, below) && FrameSure(tb, f)
    ensures MoveSure(tb, LookMove(tb, below, f))
  {
  }

  /** A removal that does not undermine leaves every promise true. */
  lemma RemovalKeepsSure(s: State, t: nat, u: nat)
    requires Sure(s) && t < |s.calls| && u < |s.calls| && !Undermines(s, t)
    requires s.calls[t] != [] && Top(s.calls[t]).RemoveHere? && s.tb.Free(Top(s.calls[t]).j)
    ensures var f := Top(s.calls[t]);
      StackSure(s.tb.With(f.j, WithoutFirst(s.tb.buckets[f.j], f.id)), s.calls[u])
  {
    var f, stack := Top(s.calls[t]), s.calls[u];
    var tb' := s.tb.With(f.j, WithoutFirst(s.tb.buckets[f.j], f.id));
    forall d | 0 <= d < |stack| ensures FrameSure(tb', stack[d]) {
      assert FrameSure(s.tb, stack[d]);
      if Decides(stack[d], f.j) {
        assert Deciding(stack, f.j);
      }
    }
  }

  lemma RemoveTickIsSure(s: State, t: nat, u: nat)
    requires Sure(s) && t < |s.calls| && u < |s.calls| && !Undermines(s, t)
    requires s.calls[t] != [] && IsRemove(Top(s.calls[t]))
    ensures StackSure(Tick(s, t).tb, Tick(s, t).calls[u])
  {
    var below, f := Below(s.calls[t]), Top(s.calls[t]);
    if f.RemoveHere? && s.tb.Free(f.j) {
      RemovalKeepsSure(s, t, u);
      if u == t {
        assert forall d :: 0 <= d < |below| ==> below[d] == s.calls[t][d];
      }
    }
  }

  lemma TickIsSure(s: State, t: nat)
    requires Sure(s) && !Undermines(s, t)
    ensures Sure(Tick(s, t))
  {
    TickIsSafe(s, t);
    if t < |s.calls| && s.calls[t] != [] {
      var below, f := Below(s.calls[t]), Top(s.calls[t]);
      var s' := Tick(s, t);
      assert FrameSafe(|s.tb.buckets|, s.tb.k, f) && FrameSure(s.tb, f);
      if IsRemove(f) {
        forall u | 0 <= u < |s.calls| ensures StackSure(s'.tb, s'.calls[u]) { RemoveTickIsSure(s, t, u); }
      } else {
        if IsAdd(f) { AddMoveSure(s.tb, below, f); }
        else if IsSplit(f) { SplitMoveSure(s.tb, below, f); }
        else { LookMoveSure(s.tb, below, f); }
        forall u | 0 <= u < |s.calls| ensures StackSure(s'.tb, s'.calls[u]) {
          if u != t { SureIsStable(s.tb, s'.tb, s.calls[u]); }
        }
      }
    }
  }

  predicate NoPanic(s: State) {
    forall t, d :: 0 <= t < |s.calls| && 0 <= d < |s.calls[t]| ==> !s.calls[t][d].Panicked?
  }

  lemma SureNeverPanicked(s: State)
    requires Sure(s)
    ensures NoPanic(s)
  {
    forall t, d | 0 <= t < |s.calls| && 0 <= d < |s.calls[t]| ensures !s.calls[t][d].Panicked? {
      assert FrameSure(s.tb, s.calls[t][d]);
    }
  }

  predicate NeverUndermined(start: State, schedule: seq<nat>) {
    forall i :: 0 <= i < |schedule| ==> !Undermines(Run(start, schedule[..i]), schedule[i])
  }

  lemma NeverUnderminedBefore(start: State, init: seq<nat>, t: nat)
    requires NeverUndermined(start, init + [t])
    ensures NeverUndermined(start, init) && !Undermines(Run(start, init), t)
  {
    var longer := init + [t];
    assert longer[..|init|] == init && longer[|init|] == t;
    forall i | 0 <= i < |init| ensures !Undermines(Run(start, init[..i]), init[i]) {
      assert longer[..i] == init[..i] && longer[i] == init[i];
    }
  }

  /** Every panic has its removal: as long as no step takes a node out of a full last bucket while an
      add is deciding on that bucket, no call panics. */
  lemma {:induction false} PanicNeedsRemoval(own: U160, k: nat, calls: seq<Call>, schedule: seq<nat>)
    requires NeverUndermined(Start(own, k, calls), schedule)
    ensures Sure(Run(Start(own, k, calls), schedule)) && NoPanic(Run(Start(own, k, calls), schedule))
  {
    var start := Start(own, k, calls);
    if schedule == [] {
      AnyInterleavingIsSafe(own, k, calls, schedule);
    } else {
      var init, t := schedule[..|schedule| - 1], schedule[|schedule| - 1];
      assert schedule == init + [t];
      NeverUnderminedBefore(start, init, t);
      PanicNeedsRemoval(own, k, calls, init);
      TickIsSure(Run(start, init), t);
    }
    SureNeverPanicked(Run(start, schedule));
  }

  // ----- and it does make one possible -----

  lemma TickTop(s: State, u: nat, below: Stack, f: Frame, tb': Table, stack': Stack)
    requires u < |s.calls| && s.calls[u] == below + [f] && Dispatch(s.tb, below, f) == Some((tb', stack'))
    ensures Tick(s, u) == State(tb', s.calls[u := stack'])
  {
    assert Below(s.calls[u]) == below;
  }

  lemma RunPush(s: State, schedule: seq<nat>, t: nat)
    ensures Run(s, schedule + [t]) == Tick(Run(s, schedule), t)
  {
    assert (schedule + [t])[..|schedule|] == schedule;
  }

  lemma RunTwo(s: State, u: nat)
    ensures Run(s, [u, u]) == Tick(Tick(s, u), u)
  {
    assert [] + [u] == [u] && [u] + [u] == [u, u];
    RunPush(s, [], u);
    RunPush(s, [u], u);
  }

  lemma RunThree(s: State, u: nat)
    ensures Run(s, [u, u, u]) == Run(Tick(s, u), [u, u])
  {
    RunTwo(s, u);
    RunTwo(Tick(s, u), u);
    assert [u, u] + [u] == [u, u, u];
    RunPush(s, [u, u], u);
  }

  /** An add that finds its last bucket no longer full goes on without splitting it. */
  lemma FromFull(s: State, u: nat, below: Stack, j: nat, n: NodeInfo)
    requires u < |s.calls| && s.calls[u] == below + [AddFull(j, n)]
    requires s.tb.Free(j) && !s.tb.HasNext(j) && |s.tb.buckets[j]| < s.tb.k
    ensures Run(s, [u, u]).calls[u] == if s.tb.Belongs(j, n.id) then below + [AddStore(j, n)] else [Panicked]
  {
    TickTop(s, u, below, AddFull(j, n), s.tb, below + [AddRoute(j, n)]);
    var s' := Tick(s, u);
    var move := AddMove(s'.tb, below, AddRoute(j, n)).value;
    TickTop(s', u, below, AddRoute(j, n), move.0, move.1);
    RunTwo(s, u);
  }

  /** The steps in which a deciding add shows what it does. */
  function StepsOf(f: Frame, u: nat): seq<nat> {
    if f.AddCheck? then [u, u, u] else [u, u]
  }

  lemma FromDeciding(s: State, u: nat, below: Stack, f: Frame, j: nat)
    requires u < |s.calls| && s.calls[u] == below + [f] && Decides(f, j)
    requires s.tb.Free(j) && !s.tb.HasNext(j) && |s.tb.buckets[j]| < s.tb.k
    ensures Run(s, StepsOf(f, u)).calls[u] == if s.tb.Belongs(j, f.n.id) then below + [AddStore(j, f.n)] else [Panicked]
  {
    if f.AddCheck? {
      TickTop(s, u, below, f, s.tb, below + [AddFull(j, f.n)]);
      RunThree(s, u);
      FromFull(Tick(s, u), u, below, j, f.n);
    } else {
      FromFull(s, u, below, j, f.n);
    }
  }

  lemma RemovalShrinks(nodes: seq<NodeInfo>, id: U160)
    requires HasId(nodes, id)
    ensures |WithoutFirst(nodes, id)| == |nodes| - 1
  {
  }

  /** After such a removal, an add that was deciding panics if it goes on alone, exactly when its node
      does not belong in the bucket. */
  lemma UnderminedAddPanics(s: State, t: nat, u: nat)
    requires Undermines(s, t) && u < |s.calls| && s.calls[u] != [] && Decides(Top(s.calls[u]), Top(s.calls[t]).j)
    ensures var f := Top(s.calls[u]);
      Run(Tick(s, t), StepsOf(f, u)).calls[u]
      == if s.tb.Belongs(f.j, f.n.id) then Below(s.calls[u]) + [AddStore(f.j, f.n)] else [Panicked]
  {
    var g, f := Top(s.calls[t]), Top(s.calls[u]);
    assert s.calls[t] == Below(s.calls[t]) + [g] && s.calls[u] == Below(s.calls[u]) + [f];
    RemovalShrinks(s.tb.buckets[g.j], g.id);
    TickTop(s, t, Below(s.calls[t]), g, s.tb.With(g.j, WithoutFirst(s.tb.buckets[g.j], g.id)),
            Below(s.calls[t]) + [Removed(FindFirst(s.tb.buckets[g.j], g.id) >= 0)]);
    FromDeciding(Tick(s, t), u, Below(s.calls[u]), f, f.j);
  }

  lemma DecidingIsTop(stack: Stack, j: nat)
    requires Stacked(stack) && Deciding(stack, j)
    ensures stack != [] && Decides(Top(stack), j)
  {
    forall d | 0 <= d < |stack| - 1 ensures !Decides(stack[d], j) {
      assert MayCover(stack[d], stack[d + 1]);
    }
  }

  /** In every reachable state an undermining removal puts some add in that danger. */
  lemma UnderminedAddExists(own: U160, k: nat, calls: seq<Call>, schedule: seq<nat>, t: nat) returns (u: nat)
    requires Undermines(Run(Start(own, k, calls), schedule), t)
    ensures var s := Run(Start(own, k, calls), schedule);
      && u < |s.calls| && s.calls[u] != [] && Decides(Top(s.calls[u]), Top(s.calls[t]).j)
      && var f := Top(s.calls[u]);
         Run(Tick(s, t), StepsOf(f, u)).calls[u]
         == if s.tb.Belongs(f.j, f.n.id) then Below(s.calls[u]) + [AddStore(f.j, f.n)] else [Panicked]
  {
    var s := Run(Start(own, k, calls), schedule);
    RunsAreOrderly(own, k, calls, schedule);
    u :| 0 <= u < |s.calls| && Deciding(s.calls[u], Top(s.calls[t]).j);
    DecidingIsTop(s.calls[u], Top(s.calls[t]).j);
    UnderminedAddPanics(s, t, u);
  }

  // ----- adds and lookups alone -----

  predicate NoRemovals(s: State) {
    forall t, d :: 0 <= t < |s.calls| && 0 <= d < |s.calls[t]| ==> !IsRemove(s.calls[t][d])
  }

  lemma AdvanceStaysOut(tb: Table, stack: Stack)
    requires (forall d :: 0 <= d < |stack| ==> !IsRemove(stack[d])) && Advance(tb, stack).Some?
    ensures forall d :: 0 <= d < |Advance(tb, stack).value.1| ==> !IsRemove(Advance(tb, stack).value.1[d])
  {
  }

  lemma {:induction false} RunsWithoutRemovals(own: U160, k: nat, calls: seq<Call>, schedule: seq<nat>)
    requires forall i :: 0 <= i < |calls| ==> !calls[i].Delete?
    ensures NoRemovals(Run(Start(own, k, calls), schedule))
  {
    if schedule != [] {
      var s, t := Run(Start(own, k, calls), schedule[..|schedule| - 1]), schedule[|schedule| - 1];
      RunsWithoutRemovals(own, k, calls, schedule[..|schedule| - 1]);
      if t < |s.calls| && Advance(s.tb, s.calls[t]).Some? { AdvanceStaysOut(s.tb, s.calls[t]); }
    }
  }

  /** In every interleaving of adds and lookups alone the next bucket is there whenever an add
      unwraps it: no call panics. */
  lemma AddsAndLookupsNeverPanic(own: U160, k: nat, calls: seq<Call>, schedule: seq<nat>)
    requires forall i :: 0 <= i < |calls| ==> !calls[i].Delete?
    ensures Sure(Run(Start(own, k, calls), schedule)) && NoPanic(Run(Start(own, k, calls), schedule))
  {
    var start := Start(own, k, calls);
    forall i | 0 <= i < |schedule| ensures !Undermines(Run(start, schedule[..i]), schedule[i]) {
      RunsWithoutRemovals(own, k, calls, schedule[..i]);
    }
    PanicNeedsRemoval(own, k, calls, schedule);
  }
}

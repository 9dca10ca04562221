/** What every interleaving of the lock steps keeps. */
module LockSafety {
  import opened U160s
  import opened NodeInfos
  import opened Chains
  import opened LockSteps

  /** A frame names an existing bucket, a split has its next bucket, and no partial or final
      answer is longer than k. */
  predicate FrameSafe(count: nat, k: nat, f: Frame) {
    match f
    case SplitWait(j, _) => j + 1 < count
    case SplitLoop(j, _, _) => j + 1 < count
    case LookHere(j, _, acc) => j < count && |acc| <= k
    case LookTail(j, _, acc) => j < count && |acc| <= k
    case LookMore(j, _, acc) => j + 1 < count && |acc| <= k
    case LookNear(j, _) => j + 1 < count
    case Answer(found) => |found| <= k
    case Removed(_) => true
    case Panicked => true
    case _ => f.j < count
  }

  predicate StackSafe(count: nat, k: nat, stack: Stack) {
    forall d :: 0 <= d < |stack| ==> FrameSafe(count, k, stack[d])
  }

  predicate BucketSafe(k: nat, nodes: seq<NodeInfo>) { |nodes| <= k && DistinctIds(nodes) }

  /** No bucket exceeds k or repeats an identifier within itself. */
  predicate TableSafe(tb: Table) {
    && 1 <= |tb.buckets| <= MAX_BUCKET_INDEX + 1
    && forall j :: 0 <= j < |tb.buckets| ==> BucketSafe(tb.k, tb.buckets[j])
  }

  predicate Safe(s: State) {
    && TableSafe(s.tb)
    && forall t :: 0 <= t < |s.calls| ==> StackSafe(|s.tb.buckets|, s.tb.k, s.calls[t])
  }

  /** A step takes no bucket away, replaces none, and creates at most one, empty and last. */
  predicate Extends(tb: Table, tb': Table) {
    && tb'.own == tb.own && tb'.k == tb.k
    && (|tb'.buckets| == |tb.buckets| || tb'.buckets == tb.buckets + [[]])
  }

  predicate MoveSafe(tb: Table, move: Move) {
    move.Some? ==>
      && TableSafe(move.value.0) && Extends(tb, move.value.0)
      && StackSafe(|move.value.0.buckets|, tb.k, move.value.1)
  }

  lemma StackGrows(count: nat, count': nat, k: nat, stack: Stack)
    requires StackSafe(count, k, stack) && count <= count'
    ensures StackSafe(count', k, stack)
  {
    forall d | 0 <= d < |stack| ensures FrameSafe(count', k, stack[d]) {
      assert FrameSafe(count, k, stack[d]);
    }
  }

  lemma AddOrUpdateSafe(nodes: seq<NodeInfo>, k: nat, n: NodeInfo)
    requires BucketSafe(k, nodes)
    ensures BucketSafe(k, AddOrUpdate(nodes, k, n))
  {
    AddOrUpdateOutcome(nodes, k, n);
  }

  lemma SwappedSafe(nodes: seq<NodeInfo>, k: nat, i: nat)
    requires BucketSafe(k, nodes) && i < |nodes|
    ensures BucketSafe(k, SwapRemove(nodes, i))
  {
  }

  lemma WithoutSafe(nodes: seq<NodeInfo>, k: nat, id: U160)
    requires BucketSafe(k, nodes)
    ensures BucketSafe(k, WithoutFirst(nodes, id))
  {
  }

  /** Writing one bucket safely leaves the table safe. */
  lemma WithSafe(tb: Table, j: nat, nodes: seq<NodeInfo>)
    requires TableSafe(tb) && j < |tb.buckets| && BucketSafe(tb.k, nodes)
    ensures TableSafe(tb.With(j, nodes)) && Extends(tb, tb.With(j, nodes))
  {
  }

  lemma AddMoveSafe(tb: Table, below: Stack, f: Frame)
    requires TableSafe(tb) && StackSafe(|tb.buckets|, tb.k, below) && FrameSafe(|tb.buckets|, tb.k, f) && IsAdd(f)
    ensures MoveSafe(tb, AddMove(tb, below, f))
  {
    if f.AddStore? { AddOrUpdateSafe(tb.buckets[f.j], tb.k, f.n); }
  }

  lemma SplitMoveSafe(tb: Table, below: Stack, f: Frame)
    requires TableSafe(tb) && StackSafe(|tb.buckets|, tb.k, below) && FrameSafe(|tb.buckets|, tb.k, f) && IsSplit(f)
    ensures MoveSafe(tb, SplitMove(tb, below, f))
  {
    StackGrows(|tb.buckets|, |tb.buckets| + 1, tb.k, below);
    if f.SplitLoop? && f.i < |tb.buckets[f.j]| { SwappedSafe(tb.buckets[f.j], tb.k, f.i); }
  }

  lemma LookMoveSafe(tb: Table, below: Stack, f: Frame)
    requires TableSafe(tb) && StackSafe(|tb.buckets|, tb.k, below) && FrameSafe(|tb.buckets|, tb.k, f)
    ensures MoveSafe(tb, LookMove(tb, below, f))
  {
    if f.Answer? && below != [] {
      assert FrameSafe(|tb.buckets|, tb.k, Top(below));
    }
  }

  lemma RemoveMoveSafe(tb: Table, below: Stack, f: Frame)
    requires TableSafe(tb) && StackSafe(|tb.buckets|, tb.k, below) && FrameSafe(|tb.buckets|, tb.k, f) && IsRemove(f)
    ensures MoveSafe(tb, RemoveMove(tb, below, f))
  {
    if f.RemoveHere? {
      var nodes := WithoutFirst(tb.buckets[f.j], f.id);
      WithoutSafe(tb.buckets[f.j], tb.k, f.id);
      WithSafe(tb, f.j, nodes);
    }
  }

  lemma AdvanceIsSafe(tb: Table, stack: Stack)
    requires TableSafe(tb) && StackSafe(|tb.buckets|, tb.k, stack)
    ensures MoveSafe(tb, Advance(tb, stack))
  {
    if stack != [] {
      var below, f := Below(stack), Top(stack);
      if IsAdd(f) { AddMoveSafe(tb, below, f); }
      else if IsSplit(f) { SplitMoveSafe(tb, below, f); }
      else if IsRemove(f) { RemoveMoveSafe(tb, below, f); }
      else { LookMoveSafe(tb, below, f); }
    }
  }

  /** Each step of any call keeps the table safe and only ever extends the chain. */
  lemma TickIsSafe(s: State, t: nat)
    requires Safe(s)
    ensures Safe(Tick(s, t)) && Extends(s.tb, Tick(s, t).tb)
  {
    if t < |s.calls| {
      AdvanceIsSafe(s.tb, s.calls[t]);
      var s' := Tick(s, t);
      forall u | 0 <= u < |s.calls| ensures StackSafe(|s'.tb.buckets|, s'.tb.k, s'.calls[u]) {
        if u != t { StackGrows(|s.tb.buckets|, |s'.tb.buckets|, s.tb.k, s.calls[u]); }
      }
    }
  }

  /** Every interleaving of adds, lookups and removes keeps the table safe: no bucket exceeds k
      or repeats an identifier, and no answer exceeds k. */
  lemma {:induction false} AnyInterleavingIsSafe(own: U160, k: nat, calls: seq<Call>, schedule: seq<nat>)
    ensures Safe(Run(Start(own, k, calls), schedule))
  {
    if schedule != [] {
      AnyInterleavingIsSafe(own, k, calls, schedule[..|schedule| - 1]);
      TickIsSafe(Run(Start(own, k, calls), schedule[..|schedule| - 1]), schedule[|schedule| - 1]);
    }
  }
}

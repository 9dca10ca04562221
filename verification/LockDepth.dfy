/** How deep concurrent calls can make the chain: a bucket is created only below one that was full,
    and a full bucket needs `k` identifiers that share its prefix. */
module LockDepth {
  import opened Bits
  import opened U160s
  import opened Chains
  import ChainUpdates
  import opened LockSteps
  import opened LockSafety
  import opened LockPlacement

  /** As many identifiers as a bucket may hold can share the prefix of bucket `j`. */
  predicate Fits(k: nat, j: nat) { j <= MAX_BUCKET_INDEX && k <= Pow2(160 - j) }

  predicate StackFits(k: nat, stack: Stack) {
    forall d :: 0 <= d < |stack| && stack[d].AddMake? ==> Fits(k, stack[d].j)
  }

  predicate TableFits(tb: Table) { |tb.buckets| >= 2 ==> Fits(tb.k, |tb.buckets| - 2) }

  predicate StateFits(s: State) {
    TableFits(s.tb) && forall t :: 0 <= t < |s.calls| ==> StackFits(s.tb.k, s.calls[t])
  }

  lemma FullFits(tb: Table, j: nat)
    requires TableSafe(tb) && TableReached(tb) && j < |tb.buckets| && |tb.buckets[j]| == tb.k
    ensures Fits(tb.k, j)
  {
    var b := tb.buckets[j];
    assert BucketSafe(tb.k, b) && BucketReached(tb, j, b);
    PrefixCount(tb.own, seq(|b|, i requires 0 <= i < |b| => b[i].id), j);
  }

  lemma AddMoveFits(tb: Table, below: Stack, f: Frame)
    requires TableSafe(tb) && TableReached(tb) && FrameSafe(|tb.buckets|, tb.k, f) && StackFits(tb.k, below)
    requires IsAdd(f) && AddMove(tb, below, f).Some?
    ensures var (tb', stack') := AddMove(tb, below, f).value;
      |tb'.buckets| == |tb.buckets| && tb'.k == tb.k && StackFits(tb.k, stack')
  {
    if f.AddFull? && |tb.buckets[f.j]| == tb.k { FullFits(tb, f.j); }
  }

  lemma SplitMoveFits(tb: Table, below: Stack, f: Frame)
    requires FrameSafe(|tb.buckets|, tb.k, f) && StackFits(tb.k, below + [f]) && TableFits(tb)
    requires IsSplit(f) && SplitMove(tb, below, f).Some?
    ensures var (tb', stack') := SplitMove(tb, below, f).value; TableFits(tb') && StackFits(tb.k, stack')
  {
    assert (below + [f])[|below|] == f;
    assert forall d :: 0 <= d < |below| ==> (below + [f])[d] == below[d];
  }

  lemma OtherMoveFits(tb: Table, stack: Stack)
    requires StackFits(tb.k, stack) && stack != [] && !IsAdd(Top(stack)) && !IsSplit(Top(stack)) && Advance(tb, stack).Some?
    ensures var (tb', stack') := Advance(tb, stack).value;
      |tb'.buckets| == |tb.buckets| && tb'.k == tb.k && StackFits(tb.k, stack')
  {
  }

  lemma AdvanceFits(tb: Table, stack: Stack)
    requires TableSafe(tb) && TableReached(tb) && StackSafe(|tb.buckets|, tb.k, stack)
    requires TableFits(tb) && StackFits(tb.k, stack) && Advance(tb, stack).Some?
    ensures var (tb', stack') := Advance(tb, stack).value; TableFits(tb') && StackFits(tb.k, stack')
  {
    var below, f := Below(stack), Top(stack);
    assert stack == below + [f];
    assert FrameSafe(|tb.buckets|, tb.k, f) && StackFits(tb.k, below);
    if IsAdd(f) { AddMoveFits(tb, below, f); }
    else if IsSplit(f) { SplitMoveFits(tb, below, f); }
    else { OtherMoveFits(tb, stack); }
  }

  lemma TickFits(s: State, t: nat)
    requires Guided(s) && StateFits(s)
    ensures StateFits(Tick(s, t))
  {
    TickIsSafe(s, t);
    if t < |s.calls| && Advance(s.tb, s.calls[t]).Some? { AdvanceFits(s.tb, s.calls[t]); }
  }

  /** In every reachable state the bucket before the last can be full, and so can each bucket that a
      call is about to split. */
  lemma {:induction false} RunsFit(own: U160, k: nat, calls: seq<Call>, schedule: seq<nat>)
    ensures Run(Start(own, k, calls), schedule).tb.k == k && StateFits(Run(Start(own, k, calls), schedule))
  {
    if schedule != [] {
      var s := Run(Start(own, k, calls), schedule[..|schedule| - 1]);
      RunsFit(own, k, calls, schedule[..|schedule| - 1]);
      RunsAreGuided(own, k, calls, schedule[..|schedule| - 1]);
      TickIsSafe(s, schedule[|schedule| - 1]);
      TickFits(s, schedule[|schedule| - 1]);
    }
  }

  lemma EightFit(j: nat)
    requires Fits(8, j)
    ensures j <= 157
  {
    ChainUpdates.SmallPowers();
  }

  /** With the shipped capacity of 8 no interleaving creates a bucket past index 158. */
  lemma InterleavedDepthBound(own: U160, calls: seq<Call>, schedule: seq<nat>)
    ensures |Run(Start(own, 8, calls), schedule).tb.buckets| <= 159
  {
    var tb := Run(Start(own, 8, calls), schedule).tb;
    RunsFit(own, 8, calls, schedule);
    if |tb.buckets| >= 2 { EightFit(|tb.buckets| - 2); }
  }

  lemma LastCannotBeFull(k: nat, j: nat)
    requires k >= 3 && Fits(k, j)
    ensures j < MAX_BUCKET_INDEX
  {
    ChainUpdates.SmallPowers();
  }

  /** With a capacity of at least 3 no interleaving brings an add to the last index with a full
      bucket: the refusal there is unreachable. */
  lemma NeverMakesPastLast(own: U160, k: nat, calls: seq<Call>, schedule: seq<nat>, t: nat, d: nat)
    requires k >= 3
    ensures var s := Run(Start(own, k, calls), schedule);
      t < |s.calls| && d < |s.calls[t]| && s.calls[t][d].AddMake? ==> s.calls[t][d].j < MAX_BUCKET_INDEX
  {
    var s := Run(Start(own, k, calls), schedule);
    RunsFit(own, k, calls, schedule);
    if t < |s.calls| && d < |s.calls[t]| && s.calls[t][d].AddMake? {
      assert StackFits(s.tb.k, s.calls[t]);
      LastCannotBeFull(k, s.calls[t][d].j);
    }
  }
}

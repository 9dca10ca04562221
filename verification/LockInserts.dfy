/** What becomes of the node of a concurrent insertion: no call ends before its node is stored, or
    refused by a bucket that is full or at the last index. */
module LockInserts {
  import opened NodeInfos
  import opened U160s
  import opened Chains
  import opened LockSteps
  import opened LockProgress
  import opened LockPlacement
  import opened LockDepth
  import opened LockStrays

  /** The bucket has the identifier, or cannot take it. */
  predicate Settled(tb: Table, j: nat, id: U160) {
    j < |tb.buckets| && (HasId(tb.buckets[j], id) || |tb.buckets[j]| >= tb.k)
  }

  lemma KnownAfterUpdate(nodes: seq<NodeInfo>, k: nat, n: NodeInfo)
    ensures HasId(AddOrUpdate(nodes, k, n), n.id) || |AddOrUpdate(nodes, k, n)| >= k
  {
    var r := AddOrUpdate(nodes, k, n);
    if FindLast(nodes, n.id) >= 0 || |nodes| < k {
      assert r[|r| - 1].id == n.id;
    }
  }

  /** The step with which an insertion ends, from any state: its node is settled in the bucket where
      it stood, unless that is to be split at the last index. */
  lemma InsertionEnds(s: State, t: nat, f: Frame)
    requires t < |s.calls| && s.calls[t] == [f] && (IsAdd(f) || IsSplit(f)) && Tick(s, t).calls[t] == []
    ensures Settled(Tick(s, t).tb, f.j, f.n.id) || (f.AddMake? && f.j >= MAX_BUCKET_INDEX)
  {
    assert Below([f]) == [] && Top([f]) == f;
    if f.AddStore? { KnownAfterUpdate(s.tb.buckets[f.j], s.tb.k, f.n); }
  }

  // ----- over whole schedules -----

  /** An insertion of `n` under way or over. */
  predicate Inserting(stack: Stack, n: NodeInfo) {
    stack == [] || stack == [Panicked] || ((IsAdd(stack[0]) || IsSplit(stack[0])) && stack[0].n == n)
  }

  lemma OneFrameInserts(tb: Table, f: Frame)
    requires (IsAdd(f) || IsSplit(f)) && Advance(tb, [f]).Some?
    ensures Inserting(Advance(tb, [f]).value.1, f.n)
  {
    assert Below([f]) == [] && Top([f]) == f;
  }

  lemma DeeperStepsKeepBottom(tb: Table, stack: Stack)
    requires |stack| > 1 && Stacked(stack) && (IsAdd(stack[0]) || IsSplit(stack[0])) && Advance(tb, stack).Some?
    ensures var stack' := Advance(tb, stack).value.1; stack' == [Panicked] || (stack' != [] && stack'[0] == stack[0])
  {
    assert MayCover(stack[|stack| - 2], Top(stack));
    if |stack| > 2 { assert Below(stack)[0] == stack[0]; }
    if Top(stack).Answer? {
      assert MayCover(stack[0], stack[1]);
    }
  }

  lemma AdvanceInserts(tb: Table, stack: Stack, n: NodeInfo)
    requires Stacked(stack) && Inserting(stack, n) && Advance(tb, stack).Some?
    ensures Inserting(Advance(tb, stack).value.1, n)
    ensures Advance(tb, stack).value.1 == [] ==> |stack| == 1 && stack != [Panicked]
  {
    if |stack| == 1 {
      assert stack == [stack[0]];
      OneFrameInserts(tb, stack[0]);
    } else {
      DeeperStepsKeepBottom(tb, stack);
    }
  }

  lemma {:induction false} RunsInsert(own: U160, k: nat, calls: seq<Call>, schedule: seq<nat>, t: nat)
    requires t < |calls| && calls[t].Insert?
    ensures Inserting(Run(Start(own, k, calls), schedule).calls[t], calls[t].n)
  {
    if schedule != [] {
      var s, u := Run(Start(own, k, calls), schedule[..|schedule| - 1]), schedule[|schedule| - 1];
      RunsInsert(own, k, calls, schedule[..|schedule| - 1], t);
      RunsAreOrderly(own, k, calls, schedule[..|schedule| - 1]);
      if u == t && Advance(s.tb, s.calls[t]).Some? { AdvanceInserts(s.tb, s.calls[t], calls[t].n); }
    }
  }

  /** The call stands in bucket `j` with node `n` and nothing above it. */
  predicate StandsAt(stack: Stack, j: nat, n: NodeInfo) {
    |stack| == 1 && (IsAdd(stack[0]) || IsSplit(stack[0])) && stack[0].n == n && stack[0].j == j
  }

  /** The call ends with step `i` of the schedule, in a bucket to which the prefix of its node leads,
      and leaves the node settled there, or at the last index. */
  ghost predicate EndsSettled(start: State, schedule: seq<nat>, t: nat, n: NodeInfo, i: nat, j: nat) {
    && i < |schedule| && schedule[i] == t && t < |start.calls|
    && var s := Run(start, schedule[..i]);
    && StandsAt(s.calls[t], j, n) && Tick(s, t).calls[t] == [] && SharePrefix(start.tb.own, n.id, j)
    && (Settled(Tick(s, t).tb, j, n.id) || (start.tb.k < 3 && j >= MAX_BUCKET_INDEX))
  }

  lemma LastStepSettles(own: U160, k: nat, calls: seq<Call>, schedule: seq<nat>, t: nat) returns (j: nat)
    requires t < |calls| && calls[t].Insert?
    requires Run(Start(own, k, calls), schedule).calls[t] != [] && Tick(Run(Start(own, k, calls), schedule), t).calls[t] == []
    ensures var s := Run(Start(own, k, calls), schedule);
      && StandsAt(s.calls[t], j, calls[t].n) && SharePrefix(own, calls[t].n.id, j)
      && (Settled(Tick(s, t).tb, j, calls[t].n.id) || (k < 3 && j >= MAX_BUCKET_INDEX))
  {
    var s := Run(Start(own, k, calls), schedule);
    RunsInsert(own, k, calls, schedule, t);
    RunsAreGuided(own, k, calls, schedule);
    AdvanceInserts(s.tb, s.calls[t], calls[t].n);
    var f := s.calls[t][0];
    assert s.calls[t] == [f] && FramePlaced(s.tb, f);
    j := f.j;
    InsertionEnds(s, t, f);
    if k >= 3 { NeverMakesPastLast(own, k, calls, schedule, t, 0); }
    RunKeepsOwner(Start(own, k, calls), schedule);
  }

  /** In every schedule, an insertion that is over and did not panic has left its node settled: the
      bucket where it ended has the identifier or is full, with a capacity of at least 3. */
  lemma {:induction false} NoInsertionIsAbandoned(own: U160, k: nat, calls: seq<Call>, schedule: seq<nat>, t: nat)
    returns (i: nat, j: nat)
    requires t < |calls| && calls[t].Insert? && Run(Start(own, k, calls), schedule).calls[t] == []
    ensures EndsSettled(Start(own, k, calls), schedule, t, calls[t].n, i, j)
  {
    var start := Start(own, k, calls);
    if schedule == [] {
      assert false;
    } else {
      var init, u := schedule[..|schedule| - 1], schedule[|schedule| - 1];
      if Run(start, init).calls[t] == [] {
        i, j := NoInsertionIsAbandoned(own, k, calls, init, t);
        assert init[..i] == schedule[..i];
      } else {
        i := |init|;
        j := LastStepSettles(own, k, calls, init, t);
        assert schedule[..i] == init;
      }
    }
  }
}

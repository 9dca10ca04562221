/** Exactly which steps of concurrent calls leave a node where no descent finds it, and what that means
    once all calls are over. */
module LockStrays {
  import opened U160s
  import opened NodeInfos
  import opened Chains
  import ChainUpdates
  import opened LockSteps
  import opened LockSafety
  import opened LockProgress
  import opened LockExclusion
  import opened LockPanics
  import opened LockPlacement

  /** An identifier that is stored in a bucket which its descent passes, and that no split will
      move any more. */
  ghost predicate Strayed(s: State, j: nat, id: U160) {
    && s.tb.HasNext(j) && HasId(s.tb.buckets[j], id) && !s.tb.Belongs(j, id)
    && forall t :: 0 <= t < |s.calls| ==> !Splits(s.calls[t], j)
  }

  // ----- the steps -----

  /** An insertion that saw room in the last bucket pushes its node although another call has split
      that bucket since. */
  predicate Pushes(tb: Table, stack: Stack, j: nat, id: U160) {
    && stack != [] && Top(stack).AddStore? && Top(stack).j == j && Top(stack).n.id == id
    && tb.Free(j) && tb.HasNext(j) && !tb.Belongs(j, id) && !HasId(tb.buckets[j], id) && |tb.buckets[j]| < tb.k
  }

  /** A removal that stopped at the last bucket removes from it. */
  predicate Takes(tb: Table, stack: Stack, j: nat, id: U160) {
    stack != [] && Top(stack).RemoveHere? && Top(stack).j == j && Top(stack).id == id && tb.Free(j)
  }

  /** A panic ends a split before it has looked at all nodes. */
  predicate Abandons(tb: Table, stack: Stack, j: nat, id: U160) {
    && stack != [] && Top(stack).AddRoute? && !tb.Belongs(Top(stack).j, Top(stack).n.id) && !tb.HasNext(Top(stack).j)
    && Splits(Below(stack), j) && tb.HasNext(j) && HasId(tb.buckets[j], id) && !tb.Belongs(j, id)
  }

  /** What one call can see of `Strayed`. */
  predicate Astray(tb: Table, stack: Stack, j: nat, id: U160) {
    tb.HasNext(j) && HasId(tb.buckets[j], id) && !tb.Belongs(j, id) && !Splits(stack, j)
  }

  ghost predicate ExactMove(tb: Table, stack: Stack, j: nat, id: U160, tb': Table, stack': Stack) {
    Astray(tb', stack', j, id) <==>
      || (Astray(tb, stack, j, id) && !Takes(tb, stack, j, id))
      || (Pushes(tb, stack, j, id) && !Splits(stack, j))
      || Abandons(tb, stack, j, id)
  }

  lemma HasIdMember(nodes: seq<NodeInfo>, id: U160)
    ensures HasId(nodes, id) <==> exists x :: x in nodes && x.id == id
  {
    if x :| x in nodes && x.id == id {
      var i :| 0 <= i < |nodes| && nodes[i] == x;
    }
    if i :| 0 <= i < |nodes| && nodes[i].id == id {
      assert nodes[i] in nodes;
    }
  }

  lemma BumpMembers(nodes: seq<NodeInfo>, p: nat)
    requires p < |nodes|
    ensures forall x :: x in Bump(nodes, p) <==> x in nodes
  {
    var r := Bump(nodes, p);
    forall x | x in nodes ensures x in r {
      var i :| 0 <= i < |nodes| && nodes[i] == x;
      assert r[if i < p then i else if i == p then |nodes| - 1 else i - 1] == x;
    }
  }

  lemma UpdateHasId(nodes: seq<NodeInfo>, k: nat, n: NodeInfo, id: U160)
    ensures HasId(AddOrUpdate(nodes, k, n), id) <==>
      HasId(nodes, id) || (id == n.id && !HasId(nodes, id) && |nodes| < k)
  {
    var p := FindLast(nodes, n.id);
    HasIdMember(nodes, id);
    HasIdMember(AddOrUpdate(nodes, k, n), id);
    if p >= 0 {
      BumpMembers(nodes, p);
      assert HasId(nodes, n.id) by { assert nodes[p].id == n.id; }
    } else if |nodes| < k {
      assert forall x :: x in nodes + [n] <==> x in nodes || x == n;
    }
  }

  lemma WithoutAt(nodes: seq<NodeInfo>, p: nat)
    requires DistinctIds(nodes) && p < |nodes|
    ensures var r := nodes[..p] + nodes[p + 1..];
      forall x :: x in r <==> x in nodes && x.id != nodes[p].id
  {
    var r := nodes[..p] + nodes[p + 1..];
    forall x | x in nodes && x.id != nodes[p].id ensures x in r {
      var i :| 0 <= i < |nodes| && nodes[i] == x;
      assert r[if i < p then i else i - 1] == x;
    }
    forall x | x in r ensures x in nodes && x.id != nodes[p].id {
      var i :| 0 <= i < |r| && r[i] == x;
      assert r[i] == nodes[if i < p then i else i + 1];
    }
  }

  lemma MembersDecide(a: seq<NodeInfo>, b: seq<NodeInfo>, gone: U160, id: U160)
    requires forall x :: x in b <==> x in a && x.id != gone
    ensures HasId(b, id) <==> HasId(a, id) && id != gone
  {
    HasIdMember(a, id);
    HasIdMember(b, id);
  }

  lemma WithoutFirstHasId(nodes: seq<NodeInfo>, gone: U160, id: U160)
    requires DistinctIds(nodes)
    ensures HasId(WithoutFirst(nodes, gone), id) <==> HasId(nodes, id) && id != gone
  {
    var p := FindFirst(nodes, gone);
    if p >= 0 {
      WithoutAt(nodes, p);
      MembersDecide(nodes, nodes[..p] + nodes[p + 1..], gone, id);
    }
  }

  lemma StoreExact(tb: Table, stack: Stack, j: nat, id: U160)
    requires stack != [] && Top(stack).AddStore? && tb.Free(Top(stack).j)
    ensures var f := Top(stack);
      ExactMove(tb, stack, j, id, tb.With(f.j, AddOrUpdate(tb.buckets[f.j], tb.k, f.n)), Below(stack))
  {
    var f := Top(stack);
    SplitsTop(stack, j);
    if f.j == j { UpdateHasId(tb.buckets[j], tb.k, f.n, id); }
  }

  lemma PanicExact(tb: Table, stack: Stack, j: nat, id: U160)
    requires Ready(tb, stack) && Top(stack).AddRoute? && Advance(tb, stack).value.1 == [Panicked]
    requires !tb.Belongs(Top(stack).j, Top(stack).n.id) && !tb.HasNext(Top(stack).j)
    ensures var (tb', stack') := Advance(tb, stack).value; ExactMove(tb, stack, j, id, tb', stack')
  {
    SplitsTop(stack, j);
    assert Below([Panicked]) == [];
    SplitsTop([Panicked], j);
  }

  lemma AddMoveExact(tb: Table, stack: Stack, j: nat, id: U160)
    requires Ready(tb, stack) && IsAdd(Top(stack))
    ensures var (tb', stack') := Advance(tb, stack).value; ExactMove(tb, stack, j, id, tb', stack')
  {
    var f, stack' := Top(stack), Advance(tb, stack).value.1;
    if f.AddStore? {
      StoreExact(tb, stack, j, id);
    } else if f.AddRoute? && !tb.Belongs(f.j, f.n.id) && !tb.HasNext(f.j) {
      PanicExact(tb, stack, j, id);
    } else {
      SplitsTop(stack, j);
      SplitsReplace(Below(stack), Top(stack'), j);
    }
  }

  lemma SplitMoveExact(tb: Table, stack: Stack, j: nat, id: U160)
    requires Ready(tb, stack) && IsSplit(Top(stack)) && !Top(stack).SplitLoop?
    ensures var (tb', stack') := Advance(tb, stack).value; ExactMove(tb, stack, j, id, tb', stack')
  {
    var below, f := Below(stack), Top(stack);
    var (tb', stack') := Advance(tb, stack).value;
    assert FrameSafe(|tb.buckets|, tb.k, f);
    SplitsTop(stack, j);
    if stack' != below {
      assert Below(stack') == below;
      SplitsTop(stack', j);
    }
  }

  lemma SplitLoopMoveExact(tb: Table, stack: Stack, j: nat, id: U160)
    requires Ready(tb, stack) && Top(stack).SplitLoop?
    ensures var (tb', stack') := Advance(tb, stack).value; ExactMove(tb, stack, j, id, tb', stack')
  {
    var below, f := Below(stack), Top(stack);
    var (tb', stack') := Advance(tb, stack).value;
    assert FramePlaced(tb, f);
    SplitsTop(stack, j);
    SplitsTop(stack', j);
    assert Below(stack') == if |stack'| == |stack| then below else stack;
    if Splits(below, j) { SplitsBelow(stack, j); }
  }

  lemma OtherMoveExact(tb: Table, stack: Stack, j: nat, id: U160)
    requires Ready(tb, stack) && !IsAdd(Top(stack)) && !IsSplit(Top(stack))
    ensures var (tb', stack') := Advance(tb, stack).value; ExactMove(tb, stack, j, id, tb', stack')
  {
    var f := Top(stack);
    OtherMoveExclusive(tb, stack);
    if f.RemoveHere? {
      assert FrameSafe(|tb.buckets|, tb.k, f) && BucketSafe(tb.k, tb.buckets[f.j]);
      WithoutFirstHasId(tb.buckets[f.j], f.id, id);
    }
  }

  lemma AdvanceIsExact(tb: Table, stack: Stack, j: nat, id: U160)
    requires Ready(tb, stack)
    ensures var (tb', stack') := Advance(tb, stack).value; ExactMove(tb, stack, j, id, tb', stack')
  {
    var f := Top(stack);
    if IsAdd(f) { AddMoveExact(tb, stack, j, id); }
    else if f.SplitLoop? { SplitLoopMoveExact(tb, stack, j, id); }
    else if IsSplit(f) { SplitMoveExact(tb, stack, j, id); }
    else { OtherMoveExact(tb, stack, j, id); }
  }

  // ----- the steps of all calls -----

  predicate StrayPush(s: State, t: nat, j: nat, id: U160) {
    && t < |s.calls| && Pushes(s.tb, s.calls[t], j, id)
    && forall u :: 0 <= u < |s.calls| ==> !Splits(s.calls[u], j)
  }

  predicate StaleRemoval(s: State, t: nat, j: nat, id: U160) {
    t < |s.calls| && Takes(s.tb, s.calls[t], j, id)
  }

  predicate Abandoned(s: State, t: nat, j: nat, id: U160) {
    t < |s.calls| && Abandons(s.tb, s.calls[t], j, id)
  }

  lemma OthersSplitting(s: State, t: nat, u: nat, j: nat, id: U160)
    requires Guided(s) && t < |s.calls| && u < |s.calls| && u != t && Splits(s.calls[u], j)
    ensures !StrayPush(s, t, j, id) && !Abandoned(s, t, j, id) && !Strayed(s, j, id) && !Strayed(Tick(s, t), j, id)
  {
    if s.calls[t] != [] { SplitsTop(s.calls[t], j); }
    var s' := Tick(s, t);
    assert s'.calls[u] == s.calls[u];
  }

  /** One step of any call, exactly: an identifier is astray afterwards if it was and is not removed
      by a removal that had stopped there, or if it is now pushed into a bucket split before, or if
      a panic has ended the split that would have moved it. */
  lemma TickIsExact(s: State, t: nat, j: nat, id: U160)
    requires Guided(s)
    ensures Strayed(Tick(s, t), j, id) <==>
      || (Strayed(s, j, id) && !StaleRemoval(s, t, j, id))
      || StrayPush(s, t, j, id)
      || Abandoned(s, t, j, id)
  {
    if t < |s.calls| && Advance(s.tb, s.calls[t]).Some? {
      if u :| 0 <= u < |s.calls| && u != t && Splits(s.calls[u], j) {
        OthersSplitting(s, t, u, j, id);
      } else {
        AdvanceIsExact(s.tb, s.calls[t], j, id);
        LocalIsGlobal(s, t, j, id);
        LocalIsGlobal(Tick(s, t), t, j, id);
      }
    }
  }

  lemma LocalIsGlobal(s: State, t: nat, j: nat, id: U160)
    requires t < |s.calls| && forall u :: 0 <= u < |s.calls| && u != t ==> !Splits(s.calls[u], j)
    ensures Strayed(s, j, id) <==> Astray(s.tb, s.calls[t], j, id)
    ensures StrayPush(s, t, j, id) <==> Pushes(s.tb, s.calls[t], j, id) && !Splits(s.calls[t], j)
  {
  }

  // ----- runs -----

  /** The verdict of a schedule on one identifier and bucket, by these events alone. */
  predicate LeftAstray(start: State, schedule: seq<nat>, j: nat, id: U160) {
    if schedule == [] then false
    else
      var s, t := Run(start, schedule[..|schedule| - 1]), schedule[|schedule| - 1];
      || (LeftAstray(start, schedule[..|schedule| - 1], j, id) && !StaleRemoval(s, t, j, id))
      || StrayPush(s, t, j, id)
      || Abandoned(s, t, j, id)
  }

  lemma {:induction false} StrayedExactlyWhenLeft(own: U160, k: nat, calls: seq<Call>, schedule: seq<nat>, j: nat, id: U160)
    ensures Strayed(Run(Start(own, k, calls), schedule), j, id) <==> LeftAstray(Start(own, k, calls), schedule, j, id)
  {
    if schedule != [] {
      var start, init := Start(own, k, calls), schedule[..|schedule| - 1];
      StrayedExactlyWhenLeft(own, k, calls, init, j, id);
      RunsAreGuided(own, k, calls, init);
      TickIsExact(Run(start, init), schedule[|schedule| - 1], j, id);
    }
  }

  // ----- when all calls are over -----

  /** The chain that the vectors form from bucket `index` on. */
  function ChainOf(own: U160, k: nat, index: nat, buckets: seq<seq<NodeInfo>>): (c: Chain)
    ensures c.own == own && c.k == k && c.index == index && (c.Link? <==> |buckets| > 1)
    ensures buckets != [] ==> c.nodes == buckets[0]
    decreases |buckets|
  {
    if |buckets| > 1 then Link(own, k, index, buckets[0], ChainOf(own, k, index + 1, buckets[1..]))
    else Last(own, k, index, if buckets == [] then [] else buckets[0])
  }

  ghost predicate NoneStrayed(s: State) {
    forall j: nat, id :: !Strayed(s, j, id)
  }

  ghost predicate NoneLeftAstray(start: State, schedule: seq<nat>) {
    forall j: nat, id :: !LeftAstray(start, schedule, j, id)
  }

  ghost predicate BucketPlaced(tb: Table, j: nat)
    requires j < |tb.buckets|
  {
    forall x :: x in tb.buckets[j] ==> SharePrefix(tb.own, x.id, j) && (tb.HasNext(j) ==> tb.Belongs(j, x.id))
  }

  lemma HeadPlaced(tb: Table, j: nat)
    requires TableSafe(tb) && j < |tb.buckets|
    ensures var c := ChainOf(tb.own, tb.k, j, tb.buckets[j..]);
      BucketPlaced(tb, j) <==>
        forall i :: 0 <= i < |c.nodes| ==> SharePrefix(c.own, c.nodes[i].id, c.index) && (c.Link? ==> c.Belongs(c.nodes[i].id))
  {
    var c := ChainOf(tb.own, tb.k, j, tb.buckets[j..]);
    var b := tb.buckets[j];
    assert c.nodes == b && (c.Link? <==> tb.HasNext(j));
    if BucketPlaced(tb, j) {
      forall i | 0 <= i < |b| ensures SharePrefix(c.own, b[i].id, c.index) && (c.Link? ==> c.Belongs(b[i].id)) {
        assert b[i] in b;
      }
    } else {
      var x :| x in b && !(SharePrefix(tb.own, x.id, j) && (tb.HasNext(j) ==> tb.Belongs(j, x.id)));
      var i :| 0 <= i < |b| && b[i] == x;
      assert !(SharePrefix(c.own, c.nodes[i].id, c.index) && (c.Link? ==> c.Belongs(c.nodes[i].id)));
    }
  }

  lemma {:induction false} ChainPlaced(tb: Table, j: nat)
    requires TableSafe(tb) && j < |tb.buckets|
    ensures var c := ChainOf(tb.own, tb.k, j, tb.buckets[j..]);
      Shape(c) && (Placed(c) <==> forall i :: j <= i < |tb.buckets| ==> BucketPlaced(tb, i))
    decreases |tb.buckets| - j
  {
    HeadPlaced(tb, j);
    assert BucketSafe(tb.k, tb.buckets[j]);
    if tb.HasNext(j) {
      assert tb.buckets[j..][1..] == tb.buckets[j + 1..];
      ChainPlaced(tb, j + 1);
    }
  }

  lemma FinishedSplitsNothing(stack: Stack, j: nat)
    requires Finished(stack)
    ensures !Splits(stack, j)
  {
  }

  lemma PlacedWithoutStrays(s: State)
    requires Guided(s) && AllFinished(s)
    ensures (forall j :: 0 <= j < |s.tb.buckets| ==> BucketPlaced(s.tb, j)) <==> NoneStrayed(s)
  {
    forall t, j | 0 <= t < |s.calls| ensures !Splits(s.calls[t], j) {
      FinishedSplitsNothing(s.calls[t], j);
    }
    if NoneStrayed(s) {
      forall j | 0 <= j < |s.tb.buckets| ensures BucketPlaced(s.tb, j) {
        assert BucketReached(s.tb, j, s.tb.buckets[j]);
        forall x | x in s.tb.buckets[j] ensures s.tb.HasNext(j) ==> s.tb.Belongs(j, x.id) {
          HasIdMember(s.tb.buckets[j], x.id);
          assert !Strayed(s, j, x.id);
        }
      }
    }
    forall j: nat, id | Strayed(s, j, id) ensures !BucketPlaced(s.tb, j) {
      HasIdMember(s.tb.buckets[j], id);
    }
  }

  lemma PlacedMeans(s: State)
    requires Guided(s) && AllFinished(s)
    ensures var c := ChainOf(s.tb.own, s.tb.k, 0, s.tb.buckets);
      Shape(c) && (Placed(c) <==> NoneStrayed(s))
  {
    assert s.tb.buckets[0..] == s.tb.buckets;
    ChainPlaced(s.tb, 0);
    PlacedWithoutStrays(s);
  }

  lemma NoneStrayedMeans(own: U160, k: nat, calls: seq<Call>, schedule: seq<nat>)
    ensures NoneStrayed(Run(Start(own, k, calls), schedule)) <==> NoneLeftAstray(Start(own, k, calls), schedule)
  {
    forall j: nat, id
      ensures Strayed(Run(Start(own, k, calls), schedule), j, id) <==> LeftAstray(Start(own, k, calls), schedule, j, id)
    {
      StrayedExactlyWhenLeft(own, k, calls, schedule, j, id);
    }
  }

  /** Once every call is over, the table is a chain in which every node sits where its descent leads,
      and no identifier occurs twice, exactly when no identifier was left astray: none was pushed into a
      bucket split before, and none was left behind by a split that a panic ended, without a stale
      removal taking it out again. */
  lemma PlacedExactlyWhen(own: U160, k: nat, calls: seq<Call>, schedule: seq<nat>)
    requires AllFinished(Run(Start(own, k, calls), schedule))
    ensures var c := ChainOf(own, k, 0, Run(Start(own, k, calls), schedule).tb.buckets);
      && Shape(c) && (Placed(c) <==> NoneLeftAstray(Start(own, k, calls), schedule))
      && (Placed(c) ==> DistinctIds(Contents(c)))
  {
    var s := Run(Start(own, k, calls), schedule);
    assert s.tb.own == own && s.tb.k == k by {
      AnyInterleavingIsSafe(own, k, calls, []);
      RunKeepsOwner(Start(own, k, calls), schedule);
    }
    RunsAreGuided(own, k, calls, schedule);
    PlacedMeans(s);
    NoneStrayedMeans(own, k, calls, schedule);
    PlacedIsDistinct(ChainOf(own, k, 0, s.tb.buckets));
  }

  lemma PlacedIsDistinct(c: Chain)
    requires Shape(c)
    ensures Placed(c) ==> DistinctIds(Contents(c))
  {
    if Placed(c) { ChainUpdates.ContentsDistinct(c); }
  }

  // ----- adds and lookups alone -----

  predicate PushedAt(start: State, schedule: seq<nat>, i: nat, j: nat, id: U160) {
    i < |schedule| && StrayPush(Run(start, schedule[..i]), schedule[i], j, id)
  }

  predicate EverPushed(start: State, schedule: seq<nat>, j: nat, id: U160) {
    exists i: nat :: i < |schedule| && PushedAt(start, schedule, i, j, id)
  }

  lemma EverPushedStep(start: State, init: seq<nat>, t: nat, j: nat, id: U160)
    ensures EverPushed(start, init + [t], j, id) <==>
      EverPushed(start, init, j, id) || StrayPush(Run(start, init), t, j, id)
  {
    var longer := init + [t];
    assert longer[..|init|] == init;
    forall i: nat | i < |init| ensures PushedAt(start, longer, i, j, id) <==> PushedAt(start, init, i, j, id) {
      assert longer[..i] == init[..i];
    }
    assert PushedAt(start, longer, |init|, j, id) <==> StrayPush(Run(start, init), t, j, id);
  }

  /** With adds and lookups alone one push into a bucket split before leaves its identifier where no
      descent finds it, for good, and nothing else does. */
  lemma {:induction false} LeftExactlyWhenPushed(own: U160, k: nat, calls: seq<Call>, schedule: seq<nat>, j: nat, id: U160)
    requires forall i :: 0 <= i < |calls| ==> !calls[i].Delete?
    ensures LeftAstray(Start(own, k, calls), schedule, j, id) <==> EverPushed(Start(own, k, calls), schedule, j, id)
  {
    var start := Start(own, k, calls);
    if schedule != [] {
      var init, t := schedule[..|schedule| - 1], schedule[|schedule| - 1];
      assert schedule == init + [t];
      LeftExactlyWhenPushed(own, k, calls, init, j, id);
      EverPushedStep(start, init, t, j, id);
      NeitherTakesNorAbandons(own, k, calls, init, t, j, id);
    }
  }

  lemma NeitherTakesNorAbandons(own: U160, k: nat, calls: seq<Call>, schedule: seq<nat>, t: nat, j: nat, id: U160)
    requires forall i :: 0 <= i < |calls| ==> !calls[i].Delete?
    ensures var s := Run(Start(own, k, calls), schedule); !StaleRemoval(s, t, j, id) && !Abandoned(s, t, j, id)
  {
    var s := Run(Start(own, k, calls), schedule);
    RunsWithoutRemovals(own, k, calls, schedule);
    AddsAndLookupsNeverPanic(own, k, calls, schedule);
    SureAbandonsNothing(s, t, j, id);
    if t < |s.calls| && s.calls[t] != [] { assert !IsRemove(Top(s.calls[t])); }
  }

  /** With adds and lookups alone the finished table has every node in its place exactly when no step
      pushed a node into a bucket that had been split before. */
  lemma AddsArePlacedExactlyWhen(own: U160, k: nat, calls: seq<Call>, schedule: seq<nat>)
    requires forall i :: 0 <= i < |calls| ==> !calls[i].Delete?
    requires AllFinished(Run(Start(own, k, calls), schedule))
    ensures Placed(ChainOf(own, k, 0, Run(Start(own, k, calls), schedule).tb.buckets)) <==>
      forall j: nat, id :: !EverPushed(Start(own, k, calls), schedule, j, id)
  {
    PlacedExactlyWhen(own, k, calls, schedule);
    forall j: nat, id
      ensures LeftAstray(Start(own, k, calls), schedule, j, id) <==> EverPushed(Start(own, k, calls), schedule, j, id)
    {
      LeftExactlyWhenPushed(own, k, calls, schedule, j, id);
    }
  }

  lemma LeftAstrayStep(start: State, init: seq<nat>, t: nat, j: nat, id: U160)
    requires !LeftAstray(start, init, j, id) && !StrayPush(Run(start, init), t, j, id) && !Abandoned(Run(start, init), t, j, id)
    ensures !LeftAstray(start, init + [t], j, id)
  {
    assert (init + [t])[..|init|] == init;
  }

  /** No schedule of any calls leaves an identifier where no descent finds it unless a node is pushed
      into a bucket split before or a removal undermines an add. */
  lemma {:induction false} NothingLeftAstray(own: U160, k: nat, calls: seq<Call>, schedule: seq<nat>, j: nat, id: U160)
    requires NeverUndermined(Start(own, k, calls), schedule)
    requires !EverPushed(Start(own, k, calls), schedule, j, id)
    ensures !LeftAstray(Start(own, k, calls), schedule, j, id)
  {
    var start := Start(own, k, calls);
    if schedule != [] {
      var init, t := schedule[..|schedule| - 1], schedule[|schedule| - 1];
      assert schedule == init + [t];
      EverPushedStep(start, init, t, j, id);
      NeverUnderminedBefore(start, init, t);
      NothingLeftAstray(own, k, calls, init, j, id);
      PanicNeedsRemoval(own, k, calls, init);
      SureAbandonsNothing(Run(start, init), t, j, id);
      LeftAstrayStep(start, init, t, j, id);
    }
  }

  lemma SureAbandonsNothing(s: State, t: nat, j: nat, id: U160)
    requires Sure(s)
    ensures !Abandoned(s, t, j, id)
  {
    if t < |s.calls| && s.calls[t] != [] {
      assert FrameSure(s.tb, s.calls[t][|s.calls[t]| - 1]);
    }
  }

  /** Without those two events every finished schedule, whatever it removes, leaves each node where
      its descent leads and no identifier twice. */
  lemma QuietSchedulesArePlaced(own: U160, k: nat, calls: seq<Call>, schedule: seq<nat>)
    requires NeverUndermined(Start(own, k, calls), schedule)
    requires forall j: nat, id :: !EverPushed(Start(own, k, calls), schedule, j, id)
    requires AllFinished(Run(Start(own, k, calls), schedule))
    ensures var c := ChainOf(own, k, 0, Run(Start(own, k, calls), schedule).tb.buckets);
      Shape(c) && Placed(c) && DistinctIds(Contents(c))
  {
    forall j: nat, id ensures !LeftAstray(Start(own, k, calls), schedule, j, id) {
      NothingLeftAstray(own, k, calls, schedule, j, id);
    }
    PlacedExactlyWhen(own, k, calls, schedule);
  }

  lemma {:induction false} RunKeepsOwner(start: State, schedule: seq<nat>)
    requires Safe(start)
    ensures Safe(Run(start, schedule)) && Run(start, schedule).tb.own == start.tb.own && Run(start, schedule).tb.k == start.tb.k
  {
    if schedule != [] {
      RunKeepsOwner(start, schedule[..|schedule| - 1]);
      TickIsSafe(Run(start, schedule[..|schedule| - 1]), schedule[|schedule| - 1]);
    }
  }
}

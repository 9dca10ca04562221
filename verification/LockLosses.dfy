/** Which concurrent schedules lose a stored node for good, and that all others keep it. */
module LockLosses {
  import opened U160s
  import opened NodeInfos
  import opened Chains
  import opened LockSteps
  import opened LockProgress
  import opened LockTermination
  import opened LockPanics
  import opened LockStrays
  import opened LockAccounts

  // ----- conservation over runs -----

  /** All nodes that the steps of a schedule have stored for their calls. */
  function AllGained(start: State, schedule: seq<nat>): multiset<NodeInfo> {
    if schedule == [] then multiset{}
    else
      var init, t := schedule[..|schedule| - 1], schedule[|schedule| - 1];
      AllGained(start, init) + GainedBy(Run(start, init), t)
  }

  /** All nodes that the steps have dropped. */
  function AllDropped(start: State, schedule: seq<nat>): multiset<NodeInfo> {
    if schedule == [] then multiset{}
    else
      var init, t := schedule[..|schedule| - 1], schedule[|schedule| - 1];
      AllDropped(start, init) + DroppedBy(Run(start, init), t)
  }

  lemma TwoSteps<T>(h0: multiset<T>, h1: multiset<T>, h2: multiset<T>, out1: multiset<T>, in1: multiset<T>, out2: multiset<T>, in2: multiset<T>)
    requires h1 + out1 == h0 + in1 && h2 + out2 == h1 + in2
    ensures h2 + (out1 + out2) == h0 + (in1 + in2)
  {
    forall x ensures (h2 + (out1 + out2))[x] == (h0 + (in1 + in2))[x] {
      assert (h1 + out1)[x] == (h0 + in1)[x] && (h2 + out2)[x] == (h1 + in2)[x];
    }
  }

  /** From any state, every schedule: what is held at the end and what was dropped is what was held at
      the start and what was stored since. */
  lemma {:induction false} RunConserves(start: State, schedule: seq<nat>)
    ensures Holdings(Run(start, schedule)) + AllDropped(start, schedule) == Holdings(start) + AllGained(start, schedule)
  {
    if schedule != [] {
      var init, t := schedule[..|schedule| - 1], schedule[|schedule| - 1];
      RunConserves(start, init);
      TickConserves(Run(start, init), t);
      TwoSteps(Holdings(start), Holdings(Run(start, init)), Holdings(Run(start, schedule)),
               AllDropped(start, init), AllGained(start, init), DroppedBy(Run(start, init), t), GainedBy(Run(start, init), t));
    }
  }

  lemma OneFrameCarriesNothing(stack: Stack)
    requires |stack| <= 1
    ensures Carried(stack) == multiset{}
  {
    if stack != [] {
      assert Below(stack) == [];
      assert Load([], Top(stack)) == multiset{};
    }
  }

  lemma {:induction false} NothingCarried(calls: seq<Stack>)
    requires forall t :: 0 <= t < |calls| ==> |calls[t]| <= 1
    ensures AllCarried(calls) == multiset{}
  {
    if calls != [] {
      OneFrameCarriesNothing(calls[0]);
      NothingCarried(calls[1..]);
    }
  }

  lemma StartHoldsNothing(own: U160, k: nat, calls: seq<Call>)
    ensures Holdings(Start(own, k, calls)) == multiset{}
  {
    var s := Start(own, k, calls);
    assert AllStored([[]]) == multiset{};
    NothingCarried(s.calls);
  }

  lemma {:induction false} ChainHolds(own: U160, k: nat, index: nat, buckets: seq<seq<NodeInfo>>)
    ensures multiset(Contents(ChainOf(own, k, index, buckets))) == AllStored(buckets)
    decreases |buckets|
  {
    if |buckets| > 1 {
      ChainHolds(own, k, index + 1, buckets[1..]);
    } else if |buckets| == 1 {
      assert buckets[1..] == [];
    }
  }

  lemma FinishedHoldings(own: U160, k: nat, s: State)
    requires AllFinished(s)
    ensures multiset(Contents(ChainOf(own, k, 0, s.tb.buckets))) == Holdings(s)
  {
    NothingCarried(s.calls);
    ChainHolds(own, k, 0, s.tb.buckets);
  }

  /** When all calls are over the table holds exactly what was stored, but for what was dropped. */
  lemma FinishedTableConserves(own: U160, k: nat, calls: seq<Call>, schedule: seq<nat>)
    requires AllFinished(Run(Start(own, k, calls), schedule))
    ensures var start := Start(own, k, calls);
      multiset(Contents(ChainOf(own, k, 0, Run(start, schedule).tb.buckets))) + AllDropped(start, schedule)
      == AllGained(start, schedule)
  {
    var start := Start(own, k, calls);
    var gained := AllGained(start, schedule);
    FinishedHoldings(own, k, Run(start, schedule));
    StartHoldsNothing(own, k, calls);
    RunConserves(start, schedule);
    assert multiset{} + gained == gained;
  }

  // ----- identifiers -----

  ghost predicate Known(nodes: multiset<NodeInfo>, id: U160) {
    exists n :: n in nodes && n.id == id
  }

  /** Some bucket stores the identifier, or some add carries it. */
  ghost predicate Present(s: State, id: U160) { Known(Holdings(s), id) }

  /** A removal takes the identifier out. */
  predicate TakenOut(s: State, t: nat, id: U160) {
    t < |s.calls| && Finds(s.tb, s.calls[t]) && Top(s.calls[t]).id == id
  }

  /** A carried node with the identifier is refused. */
  predicate Refused(s: State, t: nat, id: U160) {
    t < |s.calls| && Refuses(s.tb, s.calls[t]) && Top(s.calls[t]).n.id == id
  }

  /** A call panics while it carries the identifier. */
  ghost predicate PanicDrops(s: State, t: nat, id: U160) {
    t < |s.calls| && Panics(s.tb, s.calls[t]) && Known(Carried(s.calls[t]), id)
  }

  /** The step drops the identifier, and no other copy of it is stored or carried. */
  ghost predicate Vanishes(s: State, t: nat, id: U160) {
    && (TakenOut(s, t, id) || Refused(s, t, id) || PanicDrops(s, t, id))
    && !Known(Holdings(s) - DroppedBy(s, t), id)
  }

  ghost predicate Arrives(s: State, t: nat, id: U160) { Known(GainedBy(s, t), id) }

  lemma KnownSum(a: multiset<NodeInfo>, b: multiset<NodeInfo>, id: U160)
    ensures Known(a + b, id) <==> Known(a, id) || Known(b, id)
  {
    assert forall n :: n in a + b <==> n in a || n in b;
  }

  lemma {:induction false} StoredMember(buckets: seq<seq<NodeInfo>>, j: nat, n: NodeInfo)
    requires j < |buckets| && n in buckets[j]
    ensures n in AllStored(buckets)
  {
    if j > 0 { StoredMember(buckets[1..], j - 1, n); }
  }

  lemma {:induction false} CarriedMember(calls: seq<Stack>, t: nat, n: NodeInfo)
    requires t < |calls| && n in Carried(calls[t])
    ensures n in AllCarried(calls)
  {
    if t > 0 { CarriedMember(calls[1..], t - 1, n); }
  }

  /** A merge drops no last copy: the entry that the carried node meets stays. */
  lemma MergeKeeps(s: State, t: nat)
    requires t < |s.calls| && Merges(s.tb, s.calls[t])
    ensures Known(Holdings(s) - DroppedBy(s, t), Top(s.calls[t]).n.id)
  {
    var stack := s.calls[t];
    var f := Top(stack);
    var i :| 0 <= i < |s.tb.buckets[f.j]| && s.tb.buckets[f.j][i].id == f.n.id;
    var x := s.tb.buckets[f.j][i];
    StoredMember(s.tb.buckets, f.j, x);
    assert f.n in Carried(stack);
    CarriedMember(s.calls, t, f.n);
    assert DroppedBy(s, t) == multiset{f.n};
    assert x in Holdings(s) - multiset{f.n};
  }

  /** An identifier among the dropped ones was taken out, refused, dropped by a panic or merged. */
  lemma DroppedMeans(s: State, t: nat, id: U160)
    ensures Known(DroppedBy(s, t), id) <==>
      || TakenOut(s, t, id) || Refused(s, t, id) || PanicDrops(s, t, id)
      || (t < |s.calls| && Merges(s.tb, s.calls[t]) && Top(s.calls[t]).n.id == id)
  {
    if t < |s.calls| {
      var tb, stack := s.tb, s.calls[t];
      if Finds(tb, stack) {
        var b := tb.buckets[Top(stack).j];
        assert b[FindFirst(b, Top(stack).id)] in DroppedBy(s, t);
      } else if Refuses(tb, stack) || Merges(tb, stack) {
        assert Top(stack).n in DroppedBy(s, t);
      }
    }
  }

  lemma GainsOrDrops(s: State, t: nat)
    ensures GainedBy(s, t) == multiset{} || DroppedBy(s, t) == multiset{}
  {
  }

  lemma HoldingsAfter(s: State, t: nat)
    ensures DroppedBy(s, t) <= Holdings(s)
    ensures Holdings(Tick(s, t)) == (Holdings(s) - DroppedBy(s, t)) + GainedBy(s, t)
  {
    var before, after, out, inn := Holdings(s), Holdings(Tick(s, t)), DroppedBy(s, t), GainedBy(s, t);
    TickConserves(s, t);
    GainsOrDrops(s, t);
    if out == multiset{} {
      assert after + out == after && before - out == before;
    } else {
      assert after + out == before;
    }
  }

  lemma LastCopyMeans(s: State, t: nat, id: U160)
    requires Present(s, id)
    ensures Vanishes(s, t, id) <==> !Known(Holdings(s) - DroppedBy(s, t), id)
  {
    var before, out := Holdings(s), DroppedBy(s, t);
    HoldingsAfter(s, t);
    DroppedMeans(s, t, id);
    assert before == (before - out) + out;
    KnownSum(before - out, out, id);
    if t < |s.calls| && Merges(s.tb, s.calls[t]) { MergeKeeps(s, t); }
  }

  /** One step of any call, exactly: an identifier is present afterwards if it arrives or if it was
      present and its last copy is not taken out, refused or dropped by a panic. */
  lemma TickKeepsExactly(s: State, t: nat, id: U160)
    ensures Present(Tick(s, t), id) <==> Arrives(s, t, id) || (Present(s, id) && !Vanishes(s, t, id))
  {
    var left := Holdings(s) - DroppedBy(s, t);
    HoldingsAfter(s, t);
    KnownSum(left, GainedBy(s, t), id);
    assert forall n :: n in left ==> n in Holdings(s);
    if Present(s, id) { LastCopyMeans(s, t, id); }
  }

  /** The verdict of a schedule on one identifier, by these events alone. */
  ghost predicate Kept(start: State, schedule: seq<nat>, id: U160) {
    if schedule == [] then Present(start, id)
    else
      var s, t := Run(start, schedule[..|schedule| - 1]), schedule[|schedule| - 1];
      Arrives(s, t, id) || (Kept(start, schedule[..|schedule| - 1], id) && !Vanishes(s, t, id))
  }

  lemma {:induction false} PresentExactlyWhenKept(start: State, schedule: seq<nat>, id: U160)
    ensures Present(Run(start, schedule), id) <==> Kept(start, schedule, id)
  {
    if schedule != [] {
      PresentExactlyWhenKept(start, schedule[..|schedule| - 1], id);
      TickKeepsExactly(Run(start, schedule[..|schedule| - 1]), schedule[|schedule| - 1], id);
    }
  }

  /** When all calls are over an identifier is in the table exactly when it was kept. */
  lemma StoredExactlyWhenKept(own: U160, k: nat, calls: seq<Call>, schedule: seq<nat>, id: U160)
    requires AllFinished(Run(Start(own, k, calls), schedule))
    ensures var start := Start(own, k, calls);
      Stored(ChainOf(own, k, 0, Run(start, schedule).tb.buckets), id) <==> Kept(start, schedule, id)
  {
    var s := Run(Start(own, k, calls), schedule);
    var c := ChainOf(own, k, 0, s.tb.buckets);
    PresentExactlyWhenKept(Start(own, k, calls), schedule, id);
    FinishedHoldings(own, k, s);
    HasIdMember(Contents(c), id);
    assert forall n :: n in Contents(c) <==> n in multiset(Contents(c));
  }

  // ----- adds and lookups alone -----

  predicate NeverRefused(s: State, more: seq<nat>, id: U160) {
    if more == [] then true
    else
      var init, t := more[..|more| - 1], more[|more| - 1];
      NeverRefused(s, init, id) && !Refused(Run(s, init), t, id)
  }

  /** From a state that a schedule of adds and lookups has reached, an identifier that is present
      stays so as long as no carried copy of it is refused. */
  lemma {:induction false} OnlyRefusalsLose(own: U160, k: nat, calls: seq<Call>, schedule: seq<nat>, more: seq<nat>, id: U160)
    requires forall i :: 0 <= i < |calls| ==> !calls[i].Delete?
    requires Present(Run(Start(own, k, calls), schedule), id)
    requires NeverRefused(Run(Start(own, k, calls), schedule), more, id)
    ensures Present(Run(Run(Start(own, k, calls), schedule), more), id)
  {
    if more != [] {
      var start, init, t := Start(own, k, calls), more[..|more| - 1], more[|more| - 1];
      OnlyRefusalsLose(own, k, calls, schedule, init, id);
      RunConcat(start, schedule, init);
      AddsOnlyRefuse(own, k, calls, schedule + init, t, id);
      TickKeepsExactly(Run(start, schedule + init), t, id);
    }
  }

  lemma AddsOnlyRefuse(own: U160, k: nat, calls: seq<Call>, schedule: seq<nat>, t: nat, id: U160)
    requires forall i :: 0 <= i < |calls| ==> !calls[i].Delete?
    ensures var s := Run(Start(own, k, calls), schedule); !TakenOut(s, t, id) && !PanicDrops(s, t, id)
  {
    var s := Run(Start(own, k, calls), schedule);
    RunsWithoutRemovals(own, k, calls, schedule);
    AddsAndLookupsNeverPanic(own, k, calls, schedule);
    if t < |s.calls| && s.calls[t] != [] {
      assert !IsRemove(s.calls[t][|s.calls[t]| - 1]) && FrameSure(s.tb, s.calls[t][|s.calls[t]| - 1]);
    }
  }
}

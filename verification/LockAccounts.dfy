/** What concurrent calls do to the nodes themselves. A node that a split has taken out of its bucket
    is carried by an add until that add stores it, so the nodes of a state are those stored and those
    carried; every step is accounted for exactly. */
module LockAccounts {
  import opened U160s
  import opened NodeInfos
  import opened Chains
  import opened LockSteps

  // ----- the nodes of a state -----

  /** An add that stands on a split carries the node that the split has taken out. */
  predicate Carries(below: Stack, f: Frame) {
    below != [] && Top(below).SplitLoop? && (IsAdd(f) || IsSplit(f))
  }

  function Load(below: Stack, f: Frame): multiset<NodeInfo> {
    if Carries(below, f) then multiset{f.n} else multiset{}
  }

  function Carried(stack: Stack): multiset<NodeInfo> {
    if stack == [] then multiset{}
    else Carried(Below(stack)) + Load(Below(stack), Top(stack))
  }

  function AllCarried(calls: seq<Stack>): multiset<NodeInfo> {
    if calls == [] then multiset{} else Carried(calls[0]) + AllCarried(calls[1..])
  }

  function AllStored(buckets: seq<seq<NodeInfo>>): multiset<NodeInfo> {
    if buckets == [] then multiset{} else multiset(buckets[0]) + AllStored(buckets[1..])
  }

  function Holdings(s: State): multiset<NodeInfo> { AllStored(s.tb.buckets) + AllCarried(s.calls) }

  // ----- what a step adds and drops -----

  /** An insertion stores its node, which its bucket did not know. */
  predicate Stores(tb: Table, stack: Stack) {
    && stack != [] && Top(stack).AddStore? && !Carries(Below(stack), Top(stack)) && tb.Free(Top(stack).j)
    && !HasId(tb.buckets[Top(stack).j], Top(stack).n.id) && |tb.buckets[Top(stack).j]| < tb.k
  }

  /** A removal finds its identifier. */
  predicate Finds(tb: Table, stack: Stack) {
    && stack != [] && Top(stack).RemoveHere? && tb.Free(Top(stack).j) && HasId(tb.buckets[Top(stack).j], Top(stack).id)
  }

  /** A carried node is refused: the bucket it must go to is full and does not know it, or there is
      no further index. */
  predicate Refuses(tb: Table, stack: Stack) {
    && stack != [] && Carries(Below(stack), Top(stack))
    && ((Top(stack).AddMake? && Top(stack).j >= MAX_BUCKET_INDEX)
        || (Top(stack).AddStore? && tb.Free(Top(stack).j)
            && !HasId(tb.buckets[Top(stack).j], Top(stack).n.id) && |tb.buckets[Top(stack).j]| >= tb.k))
  }

  /** A carried node meets another one with its identifier, which stays in its place. */
  predicate Merges(tb: Table, stack: Stack) {
    && stack != [] && Top(stack).AddStore? && Carries(Below(stack), Top(stack)) && tb.Free(Top(stack).j)
    && HasId(tb.buckets[Top(stack).j], Top(stack).n.id)
  }

  /** The call panics, and whatever it carries goes with it. */
  predicate Panics(tb: Table, stack: Stack) {
    && stack != [] && Top(stack).AddRoute? && !tb.Belongs(Top(stack).j, Top(stack).n.id) && !tb.HasNext(Top(stack).j)
  }

  function Gained(tb: Table, stack: Stack): multiset<NodeInfo> {
    if Stores(tb, stack) then multiset{Top(stack).n} else multiset{}
  }

  function Dropped(tb: Table, stack: Stack): multiset<NodeInfo> {
    if Finds(tb, stack) then multiset{tb.buckets[Top(stack).j][FindFirst(tb.buckets[Top(stack).j], Top(stack).id)]}
    else if Refuses(tb, stack) || Merges(tb, stack) then multiset{Top(stack).n}
    else if Panics(tb, stack) then Carried(stack)
    else multiset{}
  }

  /** One step of one call: what it stored and carried before and what it gains is what it stores and
      carries afterwards and what it drops. */
  ghost predicate Accounted(tb: Table, stack: Stack, tb': Table, stack': Stack) {
    AllStored(tb'.buckets) + Carried(stack') + Dropped(tb, stack)
    == AllStored(tb.buckets) + Carried(stack) + Gained(tb, stack)
  }

  // ----- sums -----

  lemma Trade<T>(whole: multiset<T>, whole': multiset<T>, part: multiset<T>, part': multiset<T>, out: multiset<T>, inn: multiset<T>)
    requires whole' + part == whole + part' && part' + out == part + inn
    ensures whole' + out == whole + inn
  {
    forall x ensures (whole' + out)[x] == (whole + inn)[x] {
      assert (whole' + part)[x] == (whole + part')[x] && (part' + out)[x] == (part + inn)[x];
    }
  }

  lemma BothSides<T>(more: multiset<T>, a: multiset<T>, b: multiset<T>, c: multiset<T>, d: multiset<T>)
    requires a + b == c + d
    ensures (more + a) + b == (more + c) + d
  {
    forall x ensures ((more + a) + b)[x] == ((more + c) + d)[x] {
      assert (a + b)[x] == (c + d)[x];
    }
  }

  /** Two balances make one. */
  lemma Balance<T>(s: multiset<T>, s': multiset<T>, sOut: multiset<T>, sIn: multiset<T>,
                   c: multiset<T>, c': multiset<T>, cOut: multiset<T>, cIn: multiset<T>, out: multiset<T>, inn: multiset<T>)
    requires s' + sOut == s + sIn && c' + cOut == c + cIn && out + (sIn + cIn) == inn + (sOut + cOut)
    ensures s' + c' + out == s + c + inn
  {
    forall x ensures (s' + c' + out)[x] == (s + c + inn)[x] {
      assert (s' + sOut)[x] == (s + sIn)[x] && (c' + cOut)[x] == (c + cIn)[x];
      assert (out + (sIn + cIn))[x] == (inn + (sOut + cOut))[x];
    }
  }

  lemma {:induction false} StoredWith(buckets: seq<seq<NodeInfo>>, j: nat, b: seq<NodeInfo>)
    requires j < |buckets|
    ensures AllStored(buckets[j := b]) + multiset(buckets[j]) == AllStored(buckets) + multiset(b)
  {
    var changed, rest := buckets[j := b], buckets[1..];
    if j == 0 {
      assert changed[1..] == rest;
    } else {
      assert changed[1..] == rest[j - 1 := b];
      StoredWith(rest, j - 1, b);
      BothSides(multiset(buckets[0]), AllStored(changed[1..]), multiset(buckets[j]), AllStored(rest), multiset(b));
    }
  }

  lemma {:induction false} StoredEmpty(buckets: seq<seq<NodeInfo>>)
    ensures AllStored(buckets + [[]]) == AllStored(buckets)
  {
    if buckets != [] {
      assert (buckets + [[]])[1..] == buckets[1..] + [[]];
      StoredEmpty(buckets[1..]);
    }
  }

  lemma {:induction false} CarriedWith(calls: seq<Stack>, t: nat, stack: Stack)
    requires t < |calls|
    ensures AllCarried(calls[t := stack]) + Carried(calls[t]) == AllCarried(calls) + Carried(stack)
  {
    var changed, rest := calls[t := stack], calls[1..];
    if t == 0 {
      assert changed[1..] == rest;
    } else {
      assert changed[1..] == rest[t - 1 := stack];
      CarriedWith(rest, t - 1, stack);
      BothSides(Carried(calls[0]), AllCarried(changed[1..]), Carried(calls[t]), AllCarried(rest), Carried(stack));
    }
  }

  lemma CarriedTop(below: Stack, f: Frame)
    ensures Carried(below + [f]) == Carried(below) + Load(below, f)
  {
    assert Below(below + [f]) == below;
  }

  lemma SameCarried(below: Stack, f: Frame)
    requires !IsAdd(f) && !IsSplit(f)
    ensures Carried(below + [f]) == Carried(below)
  {
    CarriedTop(below, f);
  }

  lemma CarriedTwo(below: Stack, f: Frame, g: Frame)
    ensures Carried(below + [f, g]) == Carried(below + [f]) + Load([f], g)
  {
    assert below + [f, g] == (below + [f]) + [g];
    CarriedTop(below + [f], g);
  }

  lemma UpdateAccounts(nodes: seq<NodeInfo>, k: nat, n: NodeInfo)
    ensures multiset(AddOrUpdate(nodes, k, n))
         == multiset(nodes) + if !HasId(nodes, n.id) && |nodes| < k then multiset{n} else multiset{}
  {
    var p := FindLast(nodes, n.id);
    if p >= 0 { assert nodes == nodes[..p] + [nodes[p]] + nodes[p + 1..]; }
  }

  lemma WithoutAccounts(nodes: seq<NodeInfo>, id: U160)
    requires HasId(nodes, id)
    ensures multiset(WithoutFirst(nodes, id)) + multiset{nodes[FindFirst(nodes, id)]} == multiset(nodes)
  {
    var p := FindFirst(nodes, id);
    var before, after := nodes[..p], nodes[p + 1..];
    assert nodes == before + [nodes[p]] + after && WithoutFirst(nodes, id) == before + after;
    assert multiset(nodes) == multiset(before) + multiset{nodes[p]} + multiset(after);
  }

  // ----- the steps -----

  /** A step that writes one bucket. */
  lemma WriteAccounts(tb: Table, j: nat, b: seq<NodeInfo>, stack: Stack, stack': Stack, out: multiset<NodeInfo>, inn: multiset<NodeInfo>,
                      cOut: multiset<NodeInfo>, cIn: multiset<NodeInfo>)
    requires j < |tb.buckets| && multiset(b) + out == multiset(tb.buckets[j]) + inn
    requires Carried(stack') + cOut == Carried(stack) + cIn
    requires Dropped(tb, stack) + (inn + cIn) == Gained(tb, stack) + (out + cOut)
    ensures Accounted(tb, stack, tb.With(j, b), stack')
  {
    StoredWith(tb.buckets, j, b);
    Trade(AllStored(tb.buckets), AllStored(tb.buckets[j := b]), multiset(tb.buckets[j]), multiset(b), out, inn);
    Balance(AllStored(tb.buckets), AllStored(tb.buckets[j := b]), out, inn, Carried(stack), Carried(stack'), cOut, cIn,
            Dropped(tb, stack), Gained(tb, stack));
  }

  function Fresh(tb: Table, f: Frame): multiset<NodeInfo>
    requires f.AddStore? && f.j < |tb.buckets|
  {
    if !HasId(tb.buckets[f.j], f.n.id) && |tb.buckets[f.j]| < tb.k then multiset{f.n} else multiset{}
  }

  lemma StoreFlows(tb: Table, below: Stack, f: Frame)
    requires f.AddStore? && tb.Free(f.j)
    ensures Dropped(tb, below + [f]) + Fresh(tb, f) == Gained(tb, below + [f]) + Load(below, f)
  {
    assert Below(below + [f]) == below && Top(below + [f]) == f;
  }

  lemma StoreAccounts(tb: Table, below: Stack, f: Frame)
    requires f.AddStore? && tb.Free(f.j)
    ensures Accounted(tb, below + [f], tb.With(f.j, AddOrUpdate(tb.buckets[f.j], tb.k, f.n)), below)
  {
    var b := AddOrUpdate(tb.buckets[f.j], tb.k, f.n);
    StoreFlows(tb, below, f);
    CarriedTop(below, f);
    UpdateAccounts(tb.buckets[f.j], tb.k, f.n);
    var none := multiset{};
    assert multiset(b) + none == multiset(tb.buckets[f.j]) + Fresh(tb, f);
    assert Carried(below) + Load(below, f) == Carried(below + [f]) + none;
    assert Fresh(tb, f) + none == Fresh(tb, f) && none + Load(below, f) == Load(below, f);
    WriteAccounts(tb, f.j, b, below + [f], below, none, Fresh(tb, f), Load(below, f), none);
  }

  lemma RemovalFlows(tb: Table, below: Stack, f: Frame)
    requires f.RemoveHere? && tb.Free(f.j)
    ensures Gained(tb, below + [f]) == multiset{}
    ensures multiset(WithoutFirst(tb.buckets[f.j], f.id)) + Dropped(tb, below + [f]) == multiset(tb.buckets[f.j])
  {
    var b := tb.buckets[f.j];
    assert Top(below + [f]) == f;
    if HasId(b, f.id) {
      WithoutAccounts(b, f.id);
    } else {
      assert FindFirst(b, f.id) < 0;
    }
  }

  lemma RemovalAccounts(tb: Table, below: Stack, f: Frame)
    requires f.RemoveHere? && tb.Free(f.j)
    ensures Accounted(tb, below + [f], tb.With(f.j, WithoutFirst(tb.buckets[f.j], f.id)),
                      below + [Removed(FindFirst(tb.buckets[f.j], f.id) >= 0)])
  {
    var b, g := tb.buckets[f.j], Removed(FindFirst(tb.buckets[f.j], f.id) >= 0);
    var out, none := Dropped(tb, below + [f]), multiset{};
    SameCarried(below, f);
    SameCarried(below, g);
    RemovalFlows(tb, below, f);
    assert out + (none + none) == none + (out + none);
    WriteAccounts(tb, f.j, WithoutFirst(b, f.id), below + [f], below + [g], out, none, none, none);
  }

  lemma TakingAccounts(tb: Table, below: Stack, f: Frame)
    requires f.SplitLoop? && f.j < |tb.buckets| && f.i < |tb.buckets[f.j]|
    ensures var x := tb.buckets[f.j][f.i];
      Accounted(tb, below + [f], tb.With(f.j, SwapRemove(tb.buckets[f.j], f.i)), below + [f, AddStart(f.j + 1, x)])
  {
    var b := tb.buckets[f.j];
    var x := b[f.i];
    assert Top(below + [f]) == f;
    CarriedTwo(below, f, AddStart(f.j + 1, x));
    SwapRemoveConserves(b, f.i);
    WriteAccounts(tb, f.j, SwapRemove(b, f.i), below + [f], below + [f, AddStart(f.j + 1, x)],
                  multiset{x}, multiset{}, multiset{}, multiset{x});
  }

  /** A frame that gives way to another one for the same node, or for none. */
  lemma ReplaceAccounts(tb: Table, below: Stack, f: Frame, tb': Table, g: Frame)
    requires AllStored(tb'.buckets) == AllStored(tb.buckets)
    requires Gained(tb, below + [f]) == multiset{} && Dropped(tb, below + [f]) == multiset{}
    requires (IsAdd(f) || IsSplit(f)) == (IsAdd(g) || IsSplit(g))
    requires IsAdd(f) || IsSplit(f) ==> f.n == g.n
    ensures Accounted(tb, below + [f], tb', below + [g])
  {
    CarriedTop(below, f);
    CarriedTop(below, g);
  }

  lemma PanicAccounts(tb: Table, stack: Stack, tb': Table)
    requires Panics(tb, stack) && tb'.buckets == tb.buckets
    ensures Accounted(tb, stack, tb', [Panicked])
  {
    assert Below([Panicked]) == [];
    assert Carried([Panicked]) == multiset{};
  }

  lemma AddMoveAccounts(tb: Table, below: Stack, f: Frame)
    requires IsAdd(f) && AddMove(tb, below, f).Some?
    ensures var (tb', stack') := AddMove(tb, below, f).value; Accounted(tb, below + [f], tb', stack')
  {
    var (tb', stack') := AddMove(tb, below, f).value;
    assert Top(below + [f]) == f;
    if f.AddStore? {
      StoreAccounts(tb, below, f);
    } else if Panics(tb, below + [f]) {
      PanicAccounts(tb, below + [f], tb');
    } else {
      assert stack' == below + [Top(stack')];
      ReplaceAccounts(tb, below, f, tb', Top(stack'));
    }
  }

  lemma SplitMoveAccounts(tb: Table, below: Stack, f: Frame)
    requires IsSplit(f) && SplitMove(tb, below, f).Some?
    ensures var (tb', stack') := SplitMove(tb, below, f).value; Accounted(tb, below + [f], tb', stack')
  {
    var (tb', stack') := SplitMove(tb, below, f).value;
    assert Below(below + [f]) == below && Top(below + [f]) == f;
    if f.AddMake? && f.j >= MAX_BUCKET_INDEX {
      CarriedTop(below, f);
    } else if f.SplitLoop? && f.i < |tb.buckets[f.j]| && !tb.Belongs(f.j, tb.buckets[f.j][f.i].id) {
      TakingAccounts(tb, below, f);
    } else {
      assert stack' == below + [Top(stack')];
      StoredEmpty(tb.buckets);
      ReplaceAccounts(tb, below, f, tb', Top(stack'));
    }
  }

  lemma RemoveMoveAccounts(tb: Table, below: Stack, f: Frame)
    requires IsRemove(f) && RemoveMove(tb, below, f).Some?
    ensures var (tb', stack') := RemoveMove(tb, below, f).value; Accounted(tb, below + [f], tb', stack')
  {
    var (tb', stack') := RemoveMove(tb, below, f).value;
    if f.RemoveHere? {
      RemovalAccounts(tb, below, f);
    } else {
      assert Below(below + [f]) == below && Top(below + [f]) == f;
      assert stack' == below + [Top(stack')];
      ReplaceAccounts(tb, below, f, tb', Top(stack'));
    }
  }

  lemma LookMoveCarries(tb: Table, below: Stack, f: Frame)
    requires !IsAdd(f) && !IsSplit(f) && !IsRemove(f) && LookMove(tb, below, f).Some?
    ensures var (tb', stack') := LookMove(tb, below, f).value; tb' == tb && Carried(stack') == Carried(below)
  {
    var stack' := LookMove(tb, below, f).value.1;
    if f.Answer? {
      assert below == Below(below) + [Top(below)] && stack' == Below(below) + [Top(stack')];
      SameCarried(Below(below), Top(below));
      SameCarried(Below(below), Top(stack'));
    } else if |stack'| == |below| + 1 {
      assert stack' == below + [Top(stack')];
      SameCarried(below, Top(stack'));
    } else {
      assert stack' == (below + [stack'[|below|]]) + [Top(stack')];
      SameCarried(below, stack'[|below|]);
      SameCarried(below + [stack'[|below|]], Top(stack'));
    }
  }

  lemma LookMoveAccounts(tb: Table, below: Stack, f: Frame)
    requires !IsAdd(f) && !IsSplit(f) && !IsRemove(f) && LookMove(tb, below, f).Some?
    ensures var (tb', stack') := LookMove(tb, below, f).value; Accounted(tb, below + [f], tb', stack')
  {
    assert Top(below + [f]) == f;
    SameCarried(below, f);
    LookMoveCarries(tb, below, f);
  }

  lemma AdvanceAccounts(tb: Table, stack: Stack)
    requires Advance(tb, stack).Some?
    ensures var (tb', stack') := Advance(tb, stack).value; Accounted(tb, stack, tb', stack')
  {
    var below, f := Below(stack), Top(stack);
    assert stack == below + [f];
    if IsAdd(f) { AddMoveAccounts(tb, below, f); }
    else if IsSplit(f) { SplitMoveAccounts(tb, below, f); }
    else if IsRemove(f) { RemoveMoveAccounts(tb, below, f); }
    else { LookMoveAccounts(tb, below, f); }
  }

  lemma WaitingDoesNothing(tb: Table, stack: Stack)
    requires Advance(tb, stack).None?
    ensures Gained(tb, stack) == multiset{} && Dropped(tb, stack) == multiset{}
  {
  }

  function GainedBy(s: State, t: nat): multiset<NodeInfo> {
    if t < |s.calls| then Gained(s.tb, s.calls[t]) else multiset{}
  }

  function DroppedBy(s: State, t: nat): multiset<NodeInfo> {
    if t < |s.calls| then Dropped(s.tb, s.calls[t]) else multiset{}
  }

  /** Conservation of nodes, step by step and from any state. */
  lemma TickConserves(s: State, t: nat)
    ensures Holdings(Tick(s, t)) + DroppedBy(s, t) == Holdings(s) + GainedBy(s, t)
  {
    if t < |s.calls| {
      var stack := s.calls[t];
      if Advance(s.tb, stack).Some? {
        var (tb', stack') := Advance(s.tb, stack).value;
        AdvanceAccounts(s.tb, stack);
        CarriedWith(s.calls, t, stack');
        OneCallCounts(AllStored(s.tb.buckets), AllStored(tb'.buckets), Carried(stack), Carried(stack'),
                      AllCarried(s.calls), AllCarried(s.calls[t := stack']), Dropped(s.tb, stack), Gained(s.tb, stack));
      } else {
        WaitingDoesNothing(s.tb, stack);
      }
    }
  }

  lemma OneCallCounts<T>(s: multiset<T>, s': multiset<T>, c: multiset<T>, c': multiset<T>, all: multiset<T>, all': multiset<T>,
                         out: multiset<T>, inn: multiset<T>)
    requires s' + c' + out == s + c + inn && all' + c == all + c'
    ensures (s' + all') + out == (s + all) + inn
  {
    forall x ensures ((s' + all') + out)[x] == ((s + all) + inn)[x] {
      assert (s' + c' + out)[x] == (s + c + inn)[x] && (all' + c)[x] == (all + c')[x];
    }
  }
}

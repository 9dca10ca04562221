/** What `add` and `remove` keep and what they change. */
module ChainUpdates {
  import opened Bits
  import opened U160s
  import opened NodeInfos
  import opened Chains

  lemma BelongsIffDiffers(c: Chain, id: U160)
    ensures c.Belongs(id) <==> c.own.GetBit(c.index) != id.GetBit(c.index)
  {
    DistanceBit(c.own, id, c.index);
  }

  /** What does not belong to a bucket agrees with the owner on one more bit. */
  lemma DescentExtendsPrefix(c: Chain, id: U160)
    requires SharePrefix(c.own, id, c.index) && !c.Belongs(id)
    ensures SharePrefix(c.own, id, c.index + 1)
  {
    BelongsIffDiffers(c, id);
  }

  // ----- the split -----

  ghost predicate AllBelong(c: Chain, nodes: seq<NodeInfo>, upTo: nat)
    requires upTo <= |nodes|
  {
    forall i :: 0 <= i < upTo ==> c.Belongs(nodes[i].id)
  }

  ghost predicate NoneBelongs(c: Chain, nodes: seq<NodeInfo>) {
    forall i :: 0 <= i < |nodes| ==> !c.Belongs(nodes[i].id)
  }

  lemma SwapRemoveDistinct(nodes: seq<NodeInfo>, i: nat, moved: seq<NodeInfo>)
    requires i < |nodes| && DistinctIds(nodes) && DistinctIds(moved) && Apart(nodes, moved)
    ensures var r := SwapRemove(nodes, i);
      DistinctIds(r) && DistinctIds(moved + [nodes[i]]) && Apart(r, moved + [nodes[i]])
  {
  }

  /** The partition loop conserves the nodes, sends each to the side it belongs to, and no node
      it moves is refused by the fresh bucket. */
  lemma {:induction false} SplitConserves(c: Chain, nodes: seq<NodeInfo>, i: nat, moved: seq<NodeInfo>)
    requires i <= |nodes| && |nodes| + |moved| <= c.k
    requires DistinctIds(nodes) && DistinctIds(moved) && Apart(nodes, moved)
    requires AllBelong(c, nodes, i) && NoneBelongs(c, moved)
    ensures var (kept, sent) := Split(c, nodes, i, moved);
      && multiset(kept) + multiset(sent) == multiset(nodes) + multiset(moved)
      && AllBelong(c, kept, |kept|) && NoneBelongs(c, sent)
      && DistinctIds(kept) && DistinctIds(sent)
    decreases |nodes| - i
  {
    if i == |nodes| {
    } else if c.Belongs(nodes[i].id) {
      SplitConserves(c, nodes, i + 1, moved);
    } else {
      AddOrUpdateOutcome(moved, c.k, nodes[i]);
      SwapRemoveDistinct(nodes, i, moved);
      SwapRemoveConserves(nodes, i);
      SplitConserves(c, SwapRemove(nodes, i), i, moved + [nodes[i]]);
    }
  }

  lemma SharesFromSource(own: U160, n: nat, part: seq<NodeInfo>, whole: multiset<NodeInfo>, source: seq<NodeInfo>)
    requires multiset(part) <= whole && whole == multiset(source)
    requires forall i :: 0 <= i < |source| ==> SharePrefix(own, source[i].id, n)
    ensures forall i :: 0 <= i < |part| ==> SharePrefix(own, part[i].id, n)
  {
    forall i | 0 <= i < |part| ensures SharePrefix(own, part[i].id, n) {
      assert part[i] in multiset(part);
      assert part[i] in whole;
      assert part[i] in source;
    }
  }

  lemma SplitIsRoomy(c: Chain)
    requires Shape(c) && Placed(c) && |c.nodes| == c.k
    ensures c.k <= Pow2(160 - c.index)
  {
    var ids := seq(|c.nodes|, i requires 0 <= i < |c.nodes| => c.nodes[i].id);
    PrefixCount(c.own, ids, c.index);
  }

  lemma MovedArePlaced(c: Chain, moved: seq<NodeInfo>)
    requires NoneBelongs(c, moved) && DistinctIds(moved)
    requires forall i :: 0 <= i < |moved| ==> SharePrefix(c.own, moved[i].id, c.index)
    ensures Placed(Last(c.own, c.k, c.index + 1, moved))
  {
    forall i | 0 <= i < |moved| ensures SharePrefix(c.own, moved[i].id, c.index + 1) {
      DescentExtendsPrefix(c, moved[i].id);
    }
  }

  lemma KeptArePlaced(c: Chain, kept: seq<NodeInfo>, next: Chain)
    requires AllBelong(c, kept, |kept|) && DistinctIds(kept) && Placed(next)
    requires forall i :: 0 <= i < |kept| ==> SharePrefix(c.own, kept[i].id, c.index)
    ensures Placed(Link(c.own, c.k, c.index, kept, next))
  {
    var d := Link(c.own, c.k, c.index, kept, next);
    forall i | 0 <= i < |kept| ensures d.Belongs(kept[i].id) {
      assert c.Belongs(kept[i].id);
    }
  }

  /** The two sides of a split of the whole vector. */
  lemma SplitSides(c: Chain, kept: seq<NodeInfo>, moved: seq<NodeInfo>)
    requires Shape(c) && Placed(c) && c.Last? && (kept, moved) == Split(c, c.nodes, 0, [])
    ensures multiset(kept) + multiset(moved) == multiset(c.nodes)
    ensures AllBelong(c, kept, |kept|) && NoneBelongs(c, moved) && DistinctIds(kept) && DistinctIds(moved)
  {
    SplitConserves(c, c.nodes, 0, []);
    var none: seq<NodeInfo> := [];
    assert multiset(c.nodes) + multiset(none) == multiset(c.nodes);
  }

  /** What the two sides make up is well placed. */
  lemma SidesArePlaced(c: Chain, kept: seq<NodeInfo>, moved: seq<NodeInfo>)
    requires Placed(c) && multiset(kept) + multiset(moved) == multiset(c.nodes)
    requires AllBelong(c, kept, |kept|) && NoneBelongs(c, moved) && DistinctIds(kept) && DistinctIds(moved)
    ensures Placed(Link(c.own, c.k, c.index, kept, Last(c.own, c.k, c.index + 1, moved)))
  {
    SharesFromSource(c.own, c.index, kept, multiset(c.nodes), c.nodes);
    SharesFromSource(c.own, c.index, moved, multiset(c.nodes), c.nodes);
    MovedArePlaced(c, moved);
    KeptArePlaced(c, kept, Last(c.own, c.k, c.index + 1, moved));
  }

  lemma SplitKeepsShape(c: Chain)
    requires Shape(c) && c.Last? && c.index < MAX_BUCKET_INDEX
    ensures Shape(SplitBucket(c))
  {
  }

  lemma SplitIsPlaced(c: Chain)
    requires Shape(c) && Placed(c) && c.Last? && c.index < MAX_BUCKET_INDEX
    ensures var d := SplitBucket(c);
      Shape(d) && Placed(d) && multiset(d.nodes) + multiset(d.next.nodes) == multiset(c.nodes)
  {
    var (kept, moved) := Split(c, c.nodes, 0, []);
    SplitKeepsShape(c);
    assert SplitBucket(c) == Link(c.own, c.k, c.index, kept, Last(c.own, c.k, c.index + 1, moved));
    SplitSides(c, kept, moved);
    SidesArePlaced(c, kept, moved);
  }

  /** Splitting a full last bucket keeps the invariant and the stored nodes. */
  lemma SplitKeepsInv(c: Chain)
    requires Inv(c) && c.Last? && |c.nodes| == c.k && c.index < MAX_BUCKET_INDEX
    ensures Inv(SplitBucket(c))
    ensures multiset(Contents(SplitBucket(c))) == multiset(Contents(c))
  {
    SplitIsPlaced(c);
    SplitIsRoomy(c);
    var d := SplitBucket(c);
    assert Contents(d) == d.nodes + d.next.nodes;
    assert Contents(c) == c.nodes;
  }

  /** Splitting first and adding afterwards is what `Add` does to a full last bucket. */
  lemma AddSplits(c: Chain, n: NodeInfo)
    requires Inv(c) && c.Last? && |c.nodes| == c.k && c.index < MAX_BUCKET_INDEX
    ensures Inv(SplitBucket(c)) && Add(c, n) == Add(SplitBucket(c), n)
  {
    SplitKeepsInv(c);
  }

  // ----- placement -----

  /** A stored node is found where the descent for its identifier stops. */
  lemma {:induction false} StoredAtHome(c: Chain, x: NodeInfo)
    requires Shape(c) && Placed(c) && x in Contents(c)
    ensures SharePrefix(c.own, x.id, c.index) && x in Home(c, x.id).nodes
  {
    if x in c.nodes {
    } else {
      StoredAtHome(c.next, x);
      BelongsIffDiffers(c, x.id);
    }
  }

  lemma {:induction false} HomeIsStored(c: Chain, id: U160)
    ensures forall x :: x in Home(c, id).nodes ==> x in Contents(c)
  {
    if c.Link? && !c.Belongs(id) { HomeIsStored(c.next, id); }
  }

  lemma HasIdWitness(nodes: seq<NodeInfo>, id: U160)
    ensures HasId(nodes, id) <==> exists x :: x in nodes && x.id == id
  {
    if x :| x in nodes && x.id == id {
      var i :| 0 <= i < |nodes| && nodes[i] == x;
    }
    if HasId(nodes, id) {
      var i :| 0 <= i < |nodes| && nodes[i].id == id;
      assert nodes[i] in nodes;
    }
  }

  lemma StoredIffAtHome(c: Chain, id: U160)
    requires Shape(c) && Placed(c)
    ensures Stored(c, id) <==> HasId(Home(c, id).nodes, id)
  {
    HasIdWitness(Contents(c), id);
    HasIdWitness(Home(c, id).nodes, id);
    HomeIsStored(c, id);
    if x :| x in Contents(c) && x.id == id { StoredAtHome(c, x); }
  }

  /** Identifiers are unique across the whole chain. */
  lemma {:induction false} ContentsDistinct(c: Chain)
    requires Shape(c) && Placed(c)
    ensures DistinctIds(Contents(c))
  {
    if c.Link? {
      ContentsDistinct(c.next);
      forall i, j | 0 <= i < |c.nodes| && 0 <= j < |Contents(c.next)|
        ensures c.nodes[i].id != Contents(c.next)[j].id
      {
        StoredAtHome(c.next, Contents(c.next)[j]);
        BelongsIffDiffers(c, c.nodes[i].id);
      }
    }
  }

  // ----- add -----

  /** The deepest bucket the index allows, once it is full. */
  ghost predicate Exhausted(c: Chain) {
    c.Last? && c.index == MAX_BUCKET_INDEX && |c.nodes| == c.k
  }

  /** What `add` may do to the stored nodes: a known identifier is only moved to the most recent
      place of its bucket, an unknown one is appended there, and it is refused only by a full
      bucket that cannot be split. */
  ghost predicate Outcome(known: bool, before: multiset<NodeInfo>, after: multiset<NodeInfo>, n: NodeInfo, home: Chain) {
    if known then
      && after == before
      && (Exhausted(home) || (|home.nodes| > 0 && home.nodes[|home.nodes| - 1].id == n.id))
    else
      || (after == before + multiset{n} && |home.nodes| > 0 && home.nodes[|home.nodes| - 1] == n)
      || (after == before && |home.nodes| == home.k && (home.Link? || Exhausted(home)))
  }

  ghost predicate AddOutcome(c: Chain, n: NodeInfo, d: Chain) {
    Outcome(Stored(c, n.id), multiset(Contents(c)), multiset(Contents(d)), n, Home(d, n.id))
  }

  lemma OutcomeBeside(m: multiset<NodeInfo>, known: bool, before: multiset<NodeInfo>, after: multiset<NodeInfo>, n: NodeInfo, home: Chain)
    requires Outcome(known, before, after, n, home)
    ensures Outcome(known, m + before, m + after, n, home)
  {
  }

  lemma OutcomeNeverShrinks(known: bool, before: multiset<NodeInfo>, after: multiset<NodeInfo>, n: NodeInfo, home: Chain)
    requires Outcome(known, before, after, n, home)
    ensures |before| <= |after|
  {
  }

  lemma UpdatedMembers(nodes: seq<NodeInfo>, k: nat, n: NodeInfo)
    requires DistinctIds(nodes) && |nodes| <= k
    ensures var r := AddOrUpdate(nodes, k, n); DistinctIds(r) && forall i :: 0 <= i < |r| ==> r[i] in nodes || r[i] == n
  {
    var r := AddOrUpdate(nodes, k, n);
    AddOrUpdateOutcome(nodes, k, n);
    forall i | 0 <= i < |r| ensures r[i] in nodes || r[i] == n {
      assert r[i] in multiset(r);
    }
  }

  lemma UpdatedVectorPlaced(c: Chain, n: NodeInfo)
    requires Shape(c) && Placed(c) && SharePrefix(c.own, n.id, c.index)
    requires c.Link? ==> c.Belongs(n.id)
    ensures var d := c.(nodes := AddOrUpdate(c.nodes, c.k, n)); Shape(d) && Placed(d)
  {
    var r := AddOrUpdate(c.nodes, c.k, n);
    UpdatedMembers(c.nodes, c.k, n);
    forall i | 0 <= i < |r|
      ensures SharePrefix(c.own, r[i].id, c.index) && (c.Link? ==> c.Belongs(r[i].id))
    {
      if r[i] != n {
        var j :| 0 <= j < |c.nodes| && c.nodes[j] == r[i];
      }
    }
  }

  /** The contents of the buckets after the first. */
  function Rest(c: Chain): seq<NodeInfo> { if c.Link? then Contents(c.next) else [] }

  lemma ContentsSum(c: Chain)
    ensures multiset(Contents(c)) == multiset(Rest(c)) + multiset(c.nodes)
  {
    assert Contents(c) == c.nodes + Rest(c);
  }

  lemma UpdateOutcome(c: Chain, n: NodeInfo)
    requires Shape(c) && Placed(c) && (if c.Link? then c.Belongs(n.id) else |c.nodes| < c.k)
    ensures var r := AddOrUpdate(c.nodes, c.k, n);
      Outcome(HasId(c.nodes, n.id), multiset(c.nodes), multiset(r), n, c.(nodes := r))
  {
    var r := AddOrUpdate(c.nodes, c.k, n);
    AddOrUpdateOutcome(c.nodes, c.k, n);
    if HasId(c.nodes, n.id) {
      assert multiset(r) == multiset(c.nodes) && r[|r| - 1].id == n.id;
    } else if |c.nodes| < c.k {
      assert r[|r| - 1] == n;
    } else {
      assert r == c.nodes && c.Link?;
    }
  }

  lemma AddHereOutcome(c: Chain, n: NodeInfo)
    requires Shape(c) && Placed(c)
    requires if c.Link? then c.Belongs(n.id) else |c.nodes| < c.k
    ensures AddOutcome(c, n, c.(nodes := AddOrUpdate(c.nodes, c.k, n)))
  {
    var r := AddOrUpdate(c.nodes, c.k, n);
    var d, m := c.(nodes := r), multiset(Rest(c));
    StoredIffAtHome(c, n.id);
    assert Stored(c, n.id) == HasId(c.nodes, n.id);
    assert Home(d, n.id) == d;
    UpdateOutcome(c, n);
    OutcomeBeside(m, HasId(c.nodes, n.id), multiset(c.nodes), multiset(r), n, d);
    ContentsSum(c);
    ContentsSum(d);
  }

  lemma AddHereKeepsInv(c: Chain, n: NodeInfo)
    requires Inv(c) && SharePrefix(c.own, n.id, c.index)
    requires if c.Link? then c.Belongs(n.id) else |c.nodes| < c.k
    ensures var d := c.(nodes := AddOrUpdate(c.nodes, c.k, n)); Inv(d) && AddOutcome(c, n, d)
  {
    UpdatedVectorPlaced(c, n);
    AddHereOutcome(c, n);
  }

  lemma AddOutcomeFromNext(c: Chain, n: NodeInfo, next: Chain)
    requires Shape(c) && Placed(c) && c.Link? && !c.Belongs(n.id)
    requires AddOutcome(c.next, n, next)
    ensures AddOutcome(c, n, c.(next := next))
  {
    var d := c.(next := next);
    var m := multiset(c.nodes);
    assert Stored(c, n.id) == Stored(c.next, n.id) by {
      StoredIffAtHome(c, n.id);
      StoredIffAtHome(c.next, n.id);
    }
    assert d.Belongs(n.id) == c.Belongs(n.id);
    OutcomeBeside(m, Stored(c.next, n.id), multiset(Contents(c.next)), multiset(Contents(next)), n, Home(next, n.id));
    ContentsSum(c);
    ContentsSum(d);
  }

  lemma AddOutcomeAfterSplit(c: Chain, n: NodeInfo)
    requires Inv(c) && c.Last? && |c.nodes| == c.k && c.index < MAX_BUCKET_INDEX
    requires AddOutcome(SplitBucket(c), n, Add(c, n))
    ensures AddOutcome(c, n, Add(c, n))
  {
    SplitKeepsInv(c);
    var d := SplitBucket(c);
    HasIdWitness(Contents(c), n.id);
    HasIdWitness(Contents(d), n.id);
    assert forall x :: x in Contents(c) <==> x in multiset(Contents(c));
    assert forall x :: x in Contents(d) <==> x in multiset(Contents(d));
  }

  lemma ExhaustedRefuses(c: Chain, n: NodeInfo)
    requires Inv(c) && Exhausted(c)
    ensures AddOutcome(c, n, c)
  {
  }

  /** Every add keeps the invariant and has only the outcomes allowed by `AddOutcome`. */
  lemma {:induction false} AddKeepsInv(c: Chain, n: NodeInfo)
    requires Inv(c) && SharePrefix(c.own, n.id, c.index)
    ensures Inv(Add(c, n)) && AddOutcome(c, n, Add(c, n))
    ensures Add(c, n).own == c.own && Add(c, n).k == c.k && Add(c, n).index == c.index
    decreases MAX_BUCKET_INDEX - c.index, c.Last?
  {
    if (c.Last? && |c.nodes| < c.k) || (c.Link? && c.Belongs(n.id)) {
      AddHereKeepsInv(c, n);
    } else if Exhausted(c) {
      ExhaustedRefuses(c, n);
    } else if c.Last? {
      AddSplits(c, n);
      AddKeepsInv(SplitBucket(c), n);
      AddOutcomeAfterSplit(c, n);
    } else {
      DescentExtendsPrefix(c, n.id);
      AddKeepsInv(c.next, n);
      AddOutcomeFromNext(c, n, Add(c.next, n));
    }
  }

  // ----- the depth bound -----

  lemma {:induction false} DepthIsRoomy(c: Chain, i: nat)
    requires Shape(c) && Roomy(c) && c.index < i <= MAX_BUCKET_INDEX && HasBucket(c, i)
    ensures c.k <= Pow2(161 - i)
  {
    if i > c.index + 1 { DepthIsRoomy(c.next, i); }
  }

  /** Whether the chain reaches index `i`. */
  predicate HasBucket(c: Chain, i: nat) {
    c.index == i || (c.Link? && HasBucket(c.next, i))
  }

  lemma {:induction false} BucketIndexBound(c: Chain, i: nat)
    requires Shape(c) && HasBucket(c, i)
    ensures c.index <= i <= MAX_BUCKET_INDEX
  {
    if c.index != i { BucketIndexBound(c.next, i); }
  }

  lemma SmallPowers()
    ensures Pow2(1) == 2 && Pow2(2) == 4
  {
    assert Pow2(0) == 1;
  }

  /** A full bucket at the last index would hold more identifiers than can share that prefix. */
  lemma NeverExhausted(c: Chain)
    requires Shape(c) && Placed(c) && c.k >= 3
    ensures !Exhausted(c)
  {
    SmallPowers();
    if |c.nodes| == c.k {
      SplitIsRoomy(c);
    }
  }

  /** With the shipped capacity of 8 no bucket past index 158 is ever created. */
  lemma DepthBound(c: Chain, i: nat)
    requires Inv(c) && c.index == 0 && c.k == 8 && HasBucket(c, i)
    ensures i <= 158
  {
    BucketIndexBound(c, i);
    SmallPowers();
    if i > 0 {
      DepthIsRoomy(c, i);
    }
  }

  /** A bucket is split by an add exactly when it is the last one, full, and not at the last index. */
  lemma SplitExactlyWhenFull(c: Chain, n: NodeInfo)
    requires Shape(c)
    ensures Add(c, n).Link? <==> c.Link? || (|c.nodes| == c.k && c.index < MAX_BUCKET_INDEX)
  {
  }

  /** A split leaves every node that belongs in its place, unless that place is past the new end; only
      the places of moved nodes are filled, from behind. */
  lemma {:induction false} KeptInPlace(c: Chain, nodes: seq<NodeInfo>, i: nat, moved: seq<NodeInfo>, p: nat)
    requires i <= |nodes| && p < |Split(c, nodes, i, moved).0|
    ensures var kept := Split(c, nodes, i, moved).0;
      && (c.Belongs(nodes[p].id) || p < i ==> kept[p] == nodes[p])
      && (kept[p] == nodes[p] || kept[p] in nodes[|kept|..])
    decreases |nodes| - i
  {
    if i < |nodes| {
      if c.Belongs(nodes[i].id) {
        KeptInPlace(c, nodes, i + 1, moved, p);
      } else {
        var fewer, more := SwapRemove(nodes, i), AddOrUpdate(moved, c.k, nodes[i]);
        var kept := Split(c, fewer, i, more).0;
        assert Split(c, nodes, i, moved).0 == kept;
        KeptInPlace(c, fewer, i, more, p);
        SwapRemoveAt(nodes, i, p);
        if kept[p] != nodes[p] { TailOfFewer(nodes, i, |kept|, kept[p]); }
      }
    }
  }

  lemma TailOfFewer(nodes: seq<NodeInfo>, i: nat, m: nat, x: NodeInfo)
    requires i < |nodes| && m <= |nodes| - 1 && (x in SwapRemove(nodes, i)[m..] || x == nodes[|nodes| - 1])
    ensures x in nodes[m..]
  {
    var fewer := SwapRemove(nodes, i);
    if j :| m <= j < |fewer| && fewer[j] == x {
      SwapRemoveAt(nodes, i, j);
      assert x == nodes[m..][if j == i then |nodes| - 1 - m else j - m];
    } else {
      assert x == nodes[m..][|nodes| - 1 - m];
    }
  }

  // ----- remove -----

  lemma WithoutPosition(nodes: seq<NodeInfo>, p: nat)
    requires p < |nodes| && DistinctIds(nodes)
    ensures var r := nodes[..p] + nodes[p + 1..];
      && DistinctIds(r)
      && multiset(nodes) == multiset(r) + multiset{nodes[p]} && !HasId(r, nodes[p].id)
      && forall i :: 0 <= i < |r| ==> r[i] in nodes
  {
    var r := nodes[..p] + nodes[p + 1..];
    assert nodes == nodes[..p] + [nodes[p]] + nodes[p + 1..];
    assert forall i :: 0 <= i < |r| ==> r[i] == nodes[if i < p then i else i + 1];
  }

  /** Removal succeeds exactly when the identifier is stored, takes that one node away and leaves
      every other node stored. */
  ghost predicate RemoveOutcome(c: Chain, id: U160, d: Chain, found: bool) {
    && (found <==> Stored(c, id))
    && !Stored(d, id)
    && (!found ==> d == c)
    && (found ==> TookOne(multiset(Contents(c)), multiset(Contents(d)), id))
  }

  ghost predicate TookOne(before: multiset<NodeInfo>, after: multiset<NodeInfo>, id: U160) {
    exists x: NodeInfo :: x.id == id && before == after + multiset{x}
  }

  lemma TookOneBeside(m: multiset<NodeInfo>, before: multiset<NodeInfo>, after: multiset<NodeInfo>, id: U160)
    requires TookOne(before, after, id)
    ensures TookOne(m + before, m + after, id)
  {
    var x: NodeInfo :| x.id == id && before == after + multiset{x};
    assert m + before == (m + after) + multiset{x};
  }

  lemma RemovedVectorPlaced(c: Chain, p: nat)
    requires Shape(c) && Placed(c) && p < |c.nodes|
    ensures var d := c.(nodes := c.nodes[..p] + c.nodes[p + 1..]); Shape(d) && Placed(d)
  {
    WithoutPosition(c.nodes, p);
    var r := c.nodes[..p] + c.nodes[p + 1..];
    forall i | 0 <= i < |r|
      ensures SharePrefix(c.own, r[i].id, c.index) && (c.Link? ==> c.Belongs(r[i].id))
    {
      var j :| 0 <= j < |c.nodes| && c.nodes[j] == r[i];
    }
  }

  lemma TookOneFromFirst(c: Chain, p: nat)
    requires p < |c.nodes| && DistinctIds(c.nodes)
    ensures var d := c.(nodes := c.nodes[..p] + c.nodes[p + 1..]);
      TookOne(multiset(Contents(c)), multiset(Contents(d)), c.nodes[p].id)
  {
    var r := c.nodes[..p] + c.nodes[p + 1..];
    WithoutPosition(c.nodes, p);
    TookOneBeside(multiset(Rest(c)), multiset(c.nodes), multiset(r), c.nodes[p].id);
    ContentsSum(c);
    ContentsSum(c.(nodes := r));
    assert multiset(Contents(c)) == multiset(Rest(c)) + multiset(c.nodes);
    assert multiset(Contents(c.(nodes := r))) == multiset(Rest(c)) + multiset(r);
  }

  lemma NotStoredWithoutPosition(c: Chain, p: nat)
    requires Shape(c) && Placed(c) && p < |c.nodes| && (c.Last? || c.Belongs(c.nodes[p].id))
    ensures !Stored(c.(nodes := c.nodes[..p] + c.nodes[p + 1..]), c.nodes[p].id)
  {
    var id := c.nodes[p].id;
    var d := c.(nodes := c.nodes[..p] + c.nodes[p + 1..]);
    RemovedVectorPlaced(c, p);
    WithoutPosition(c.nodes, p);
    assert d.Belongs(id) == c.Belongs(id);
    StoredIffAtHome(d, id);
  }

  lemma RemoveFound(c: Chain, p: nat)
    requires Shape(c) && Placed(c) && p < |c.nodes| && (c.Last? || c.Belongs(c.nodes[p].id))
    ensures RemoveOutcome(c, c.nodes[p].id, c.(nodes := c.nodes[..p] + c.nodes[p + 1..]), true)
  {
    TookOneFromFirst(c, p);
    NotStoredWithoutPosition(c, p);
    assert Contents(c)[p] == c.nodes[p];
  }

  lemma RemoveMissing(c: Chain, id: U160)
    requires Shape(c) && Placed(c) && (c.Last? || c.Belongs(id)) && !HasId(c.nodes, id)
    ensures RemoveOutcome(c, id, c, false)
  {
    StoredIffAtHome(c, id);
  }

  lemma RemoveHere(c: Chain, id: U160)
    requires Shape(c) && Placed(c) && (c.Last? || c.Belongs(id))
    ensures RemoveOutcome(c, id, Remove(c, id).0, Remove(c, id).1)
  {
    var p := FindFirst(c.nodes, id);
    if p >= 0 {
      assert Remove(c, id) == (c.(nodes := c.nodes[..p] + c.nodes[p + 1..]), true);
      RemoveFound(c, p);
    } else {
      assert Remove(c, id) == (c, false);
      RemoveMissing(c, id);
    }
  }

  lemma RemoveFromNext(c: Chain, id: U160, next: Chain, found: bool)
    requires Shape(c) && Placed(c) && c.Link? && !c.Belongs(id)
    requires Shape(c.(next := next)) && Placed(c.(next := next)) && RemoveOutcome(c.next, id, next, found)
    ensures RemoveOutcome(c, id, c.(next := next), found)
  {
    var d := c.(next := next);
    assert d.Belongs(id) == c.Belongs(id);
    assert Stored(c, id) == Stored(c.next, id) by { StoredIffAtHome(c, id); StoredIffAtHome(c.next, id); }
    assert Stored(d, id) == Stored(next, id) by { StoredIffAtHome(d, id); StoredIffAtHome(next, id); }
    if found {
      TookOneBeside(multiset(c.nodes), multiset(Contents(c.next)), multiset(Contents(next)), id);
      ContentsSum(c);
      ContentsSum(d);
    }
  }

  /** Every removal keeps the invariant and has the outcome described by `RemoveOutcome`. */
  lemma {:induction false} RemoveKeepsInv(c: Chain, id: U160)
    requires Inv(c)
    ensures var (d, found) := Remove(c, id);
      && Inv(d) && RemoveOutcome(c, id, d, found)
      && d.own == c.own && d.k == c.k && d.index == c.index
  {
    if c.Last? || c.Belongs(id) {
      RemoveHere(c, id);
      var p := FindFirst(c.nodes, id);
      if p >= 0 { RemovedVectorPlaced(c, p); }
    } else {
      RemoveKeepsInv(c.next, id);
      var (next, found) := Remove(c.next, id);
      RemoveFromNext(c, id, next, found);
    }
  }

  // ----- whole runs -----

  datatype Op = Insert(node: NodeInfo) | Delete(id: U160)

  function Apply(c: Chain, op: Op): Chain
    requires Shape(c)
  {
    match op
    case Insert(n) => Add(c, n)
    case Delete(id) => Remove(c, id).0
  }

  lemma ApplyKeepsInv(c: Chain, op: Op)
    requires Inv(c) && c.index == 0
    ensures var d := Apply(c, op); Inv(d) && d.own == c.own && d.k == c.k && d.index == 0
  {
    match op
    case Insert(n) => AddKeepsInv(c, n);
    case Delete(id) => RemoveKeepsInv(c, id);
  }

  /** The table that a sequence of calls makes of an empty one. Every such run keeps the
      invariant: consecutive indices from 0, no bucket over capacity, every identifier in its
      place and stored once. */
  function Run(own: U160, k: nat, ops: seq<Op>): (c: Chain)
    ensures Inv(c) && c.own == own && c.k == k && c.index == 0
  {
    if ops == [] then Root(own, k)
    else
      var before := Run(own, k, ops[..|ops| - 1]);
      ApplyKeepsInv(before, ops[|ops| - 1]);
      Apply(before, ops[|ops| - 1])
  }

  lemma {:induction false} HomePlaced(c: Chain, id: U160)
    requires Shape(c) && Placed(c)
    ensures var home := Home(c, id); Shape(home) && Placed(home) && home.k == c.k
  {
    if c.Link? && !c.Belongs(id) { HomePlaced(c.next, id); }
  }

  /** With a capacity of at least 3 no run ever exhausts the bucket where a descent stops: the
      refusal at the last index is unreachable. */
  lemma RunsNeverExhaust(own: U160, k: nat, ops: seq<Op>, id: U160)
    requires k >= 3
    ensures !Exhausted(Home(Run(own, k, ops), id))
  {
    HomePlaced(Run(own, k, ops), id);
    NeverExhausted(Home(Run(own, k, ops), id));
  }

  /** `Outcome` without the last resort. */
  ghost predicate Settled(known: bool, before: multiset<NodeInfo>, after: multiset<NodeInfo>, n: NodeInfo, home: Chain, k: nat) {
    if known then
      after == before && |home.nodes| > 0 && home.nodes[|home.nodes| - 1].id == n.id
    else
      || (after == before + multiset{n} && |home.nodes| > 0 && home.nodes[|home.nodes| - 1] == n)
      || (after == before && |home.nodes| == k && home.Link?)
  }

  lemma OutcomeIsSettled(known: bool, before: multiset<NodeInfo>, after: multiset<NodeInfo>, n: NodeInfo, home: Chain)
    requires Outcome(known, before, after, n, home) && !Exhausted(home)
    ensures Settled(known, before, after, n, home, home.k)
  {
  }

  lemma AddSettles(c: Chain, n: NodeInfo)
    requires Inv(c) && c.index == 0 && c.k >= 3
    ensures var d := Add(c, n);
      Settled(Stored(c, n.id), multiset(Contents(c)), multiset(Contents(d)), n, Home(d, n.id), c.k)
  {
    var d := Add(c, n);
    AddKeepsInv(c, n);
    HomePlaced(d, n.id);
    NeverExhausted(Home(d, n.id));
    OutcomeIsSettled(Stored(c, n.id), multiset(Contents(c)), multiset(Contents(d)), n, Home(d, n.id));
  }

  /** What an add does after any run: a known identifier becomes the most recent of its bucket, an
      unknown one is stored there, or it is refused because that bucket is full and was split. */
  lemma AddAfterRun(own: U160, k: nat, ops: seq<Op>, n: NodeInfo)
    requires k >= 3
    ensures var c, d := Run(own, k, ops), Run(own, k, ops + [Insert(n)]);
      Settled(Stored(c, n.id), multiset(Contents(c)), multiset(Contents(d)), n, Home(d, n.id), k)
  {
    assert (ops + [Insert(n)])[..|ops|] == ops;
    AddSettles(Run(own, k, ops), n);
  }
}

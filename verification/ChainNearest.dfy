/** Exactly when `lookup` returns the k closest nodes, told by the sizes of the buckets. */
module ChainNearest {
  import opened Bits
  import opened U160s
  import opened NodeInfos
  import opened Chains
  import opened ChainUpdates
  import opened ChainLookup

  predicate Closer(id: U160, x: NodeInfo, y: NodeInfo) {
    id.Distance(x.id).Less(id.Distance(y.id))
  }

  /** Of two identifiers the one that agrees with the target where they first differ is closer. */
  lemma CloserMeans(id: U160, x: NodeInfo, y: NodeInfo)
    requires x.id != y.id
    ensures var p := CommonPrefix(x.id, y.id);
      p < ID_BITS && (Closer(id, x, y) <==> id.GetBit(p) == x.id.GetBit(p))
  {
    var p := CommonPrefix(x.id, y.id);
    CommonPrefixMeans(x.id, y.id);
    SharePrefixMeans(x.id, y.id, p);
    if p == ID_BITS { SameBitsSameId(x.id, y.id); }
    var dx, dy := id.Distance(x.id), id.Distance(y.id);
    forall j: nat | j <= p
      ensures dx.GetBit(j) == (id.GetBit(j) != x.id.GetBit(j)) && dy.GetBit(j) == (id.GetBit(j) != y.id.GetBit(j))
    {
      DistanceBit(id, x.id, j);
      DistanceBit(id, y.id, j);
    }
    if id.GetBit(p) == x.id.GetBit(p) {
      FirstDifferingBitDecides(dy, dx, p);
    } else {
      FirstDifferingBitDecides(dx, dy, p);
    }
  }

  // ----- a target with one bit changed -----

  lemma OneBitFits(i: nat)
    requires i < ID_BITS
    ensures i < 128 ==> Pow2(127 - i) < TWO_128
    ensures i >= 128 ==> Pow2(159 - i) < TWO_32
  {
    Widths();
    if i < 128 {
      Pow2Monotone(127 - i, 127);
      assert Pow2(128) == 2 * Pow2(127);
    } else {
      Pow2Monotone(159 - i, 31);
      assert Pow2(32) == 2 * Pow2(31);
    }
  }

  function OneBit(i: nat): U160
    requires i < ID_BITS
  {
    OneBitFits(i);
    if i < 128 then U160(Pow2(127 - i), 0) else U160(0, Pow2(159 - i))
  }

  /** The identifier with bit `i` changed. */
  function FlipBit(a: U160, i: nat): U160
    requires i < ID_BITS
  {
    a.Xor(OneBit(i))
  }

  lemma OneBitBits(i: nat, j: nat)
    requires i < ID_BITS
    ensures OneBit(i).GetBit(j) == (i == j)
  {
    if j < 128 {
      if i < 128 { BitOfPow2(127 - i, 127 - j); } else { BitOfZero(127 - j); }
    } else if j < 160 {
      if i < 128 { BitOfZero(159 - j); } else { BitOfPow2(159 - i, 159 - j); }
    }
  }

  lemma FlippedBits(a: U160, i: nat, j: nat)
    requires i < ID_BITS
    ensures FlipBit(a, i).GetBit(j) == if i == j then !a.GetBit(j) else a.GetBit(j)
  {
    DistanceBit(a, OneBit(i), j);
    OneBitBits(i, j);
  }

  // ----- the order in which a lookup takes the nodes -----

  /** All stored nodes in the order in which a lookup for `id` comes to them. */
  function Order(c: Chain, id: U160): (s: seq<NodeInfo>)
    ensures |s| == Total(c)
    decreases c
  {
    if c.Last? then c.nodes
    else if c.Belongs(id) then c.nodes + Order(c.next, id)
    else Order(c.next, id) + c.nodes
  }

  lemma {:induction false} OrderMembers(c: Chain, id: U160)
    ensures forall x :: x in Order(c, id) <==> x in Contents(c)
  {
    if c.Link? { OrderMembers(c.next, id); }
  }

  lemma {:induction false} OrderDistinct(c: Chain, id: U160)
    requires Shape(c) && Placed(c)
    ensures DistinctIds(Order(c, id))
  {
    if c.Link? {
      OrderDistinct(c.next, id);
      OrderMembers(c.next, id);
      DistinctAcross(c, c.nodes, Order(c.next, id));
    }
  }

  lemma TakeOfConcat(a: seq<NodeInfo>, b: seq<NodeInfo>, k: nat)
    ensures Take(a + b, k) == Take(a, k) + Take(Take(b, k), k - |Take(a, k)|)
  {
  }

  /** Without gaps the answer is the beginning of that order. */
  lemma {:induction false} LookupTakesOrder(c: Chain, id: U160)
    requires Shape(c) && GapFree(c)
    ensures Lookup(c, id) == Take(Order(c, id), c.k)
    decreases c
  {
    if c.Link? {
      LookupTakesOrder(c.next, id);
      var later := Order(c.next, id);
      if c.Belongs(id) {
        AnswerWhereItStops(c, id);
        TakeOfConcat(c.nodes, later, c.k);
      } else {
        AnswerOnTheWay(c, id);
        TakeOfConcat(later, c.nodes, c.k);
        assert Take(Take(c.nodes, c.k), c.k - |Take(later, c.k)|) == Take(c.nodes, c.k - |Take(later, c.k)|);
      }
    } else {
      AnswerWhereItStops(c, id);
    }
  }

  // ----- the condition -----

  /** The first `m` nodes of the order are the `m` closest for every target: all nodes are taken,
      or the later buckets fill `m` places, this bucket fits into them whole, and what the later
      buckets have to add is exact with this bucket before it and without. */
  predicate Exact(c: Chain, m: nat)
    decreases c
  {
    || m == 0
    || Total(c) <= m
    || (c.Link? && Total(c.next) >= m && |c.nodes| <= m && Exact(c.next, m - |c.nodes|) && Exact(c.next, m))
  }

  ghost predicate FirstClosest(id: U160, s: seq<NodeInfo>, m: nat) {
    forall i, j :: 0 <= i < m <= j < |s| ==> Closer(id, s[i], s[j])
  }

  /** A node of a bucket and one of a later bucket first differ in the bucket's own bit. */
  lemma AcrossBuckets(c: Chain, x: NodeInfo, y: NodeInfo)
    requires Shape(c) && Placed(c) && c.Link? && x in c.nodes && y in Contents(c.next)
    ensures x.id != y.id && CommonPrefix(x.id, y.id) == CommonPrefix(y.id, x.id) == c.index
    ensures c.own.GetBit(c.index) == y.id.GetBit(c.index) != x.id.GetBit(c.index)
  {
    StoredAtHome(c.next, y);
    BelongsIffDiffers(c, x.id);
    PrefixBetween(c.own, x.id, y.id, c.index);
    PrefixBetween(c.own, y.id, x.id, c.index);
  }

  lemma BucketBeforeRest(c: Chain, id: U160, x: NodeInfo, y: NodeInfo)
    requires Shape(c) && Placed(c) && c.Link? && x in c.nodes && y in Contents(c.next)
    ensures if c.Belongs(id) then Closer(id, x, y) else Closer(id, y, x)
  {
    AcrossBuckets(c, x, y);
    BelongsIffDiffers(c, id);
    CloserMeans(id, x, y);
    CloserMeans(id, y, x);
  }

  lemma {:induction false} ExactIsClosest(c: Chain, id: U160, m: nat)
    requires Shape(c) && Placed(c) && Exact(c, m)
    ensures FirstClosest(id, Order(c, id), m)
    decreases c
  {
    if 0 < m < Total(c) {
      var b, later := |c.nodes|, Order(c.next, id);
      OrderMembers(c.next, id);
      if c.Belongs(id) {
        ExactIsClosest(c.next, id, m - b);
        forall i, j | 0 <= i < m <= j < Total(c) ensures Closer(id, Order(c, id)[i], Order(c, id)[j]) {
          assert Order(c, id)[j] == later[j - b];
          if i < b { BucketBeforeRest(c, id, c.nodes[i], later[j - b]); }
        }
      } else {
        ExactIsClosest(c.next, id, m);
        forall i, j | 0 <= i < m <= j < Total(c) ensures Closer(id, Order(c, id)[i], Order(c, id)[j]) {
          assert Order(c, id)[i] == later[i];
          if j >= |later| { BucketBeforeRest(c, id, c.nodes[j - |later|], later[i]); }
        }
      }
    }
  }

  // ----- the condition is necessary -----

  /** A bit above a chain's buckets changes neither its order nor which of its nodes is closer. */
  lemma {:induction false} OrderIgnores(c: Chain, id: U160, i: nat)
    requires i < c.index && Shape(c)
    ensures Order(c, FlipBit(id, i)) == Order(c, id)
    decreases c
  {
    if c.Link? {
      FlippedBits(id, i, c.index);
      BelongsIffDiffers(c, id);
      BelongsIffDiffers(c, FlipBit(id, i));
      OrderIgnores(c.next, id, i);
    }
  }

  lemma CloserIgnores(c: Chain, id: U160, i: nat, x: NodeInfo, y: NodeInfo)
    requires Shape(c) && Placed(c) && i < c.index && x in Contents(c) && y in Contents(c) && x.id != y.id
    ensures Closer(FlipBit(id, i), x, y) <==> Closer(id, x, y)
  {
    StoredAtHome(c, x);
    StoredAtHome(c, y);
    PrefixBetween(c.own, x.id, y.id, c.index);
    CloserMeans(id, x, y);
    CloserMeans(FlipBit(id, i), x, y);
    FlippedBits(id, i, CommonPrefix(x.id, y.id));
  }

  /** Nothing is closer to a node than the node itself. */
  lemma ItselfIsClosest(x: NodeInfo, y: NodeInfo)
    requires x.id != y.id
    ensures Closer(x.id, x, y)
  {
    CloserMeans(x.id, x, y);
  }

  /** The target that differs from a node only in its bucket's bit passes the bucket by, and has no
      closer node in it. */
  lemma ClosestInPassedBucket(c: Chain, x: NodeInfo, y: NodeInfo)
    requires Shape(c) && Placed(c) && c.Link? && x in c.nodes && y in c.nodes && x.id != y.id
    ensures !c.Belongs(FlipBit(x.id, c.index)) && Closer(FlipBit(x.id, c.index), x, y)
  {
    var id := FlipBit(x.id, c.index);
    FlippedBits(x.id, c.index, c.index);
    BelongsIffDiffers(c, id);
    BelongsIffDiffers(c, x.id);
    BelongsIffDiffers(c, y.id);
    PrefixBetween(c.own, x.id, y.id, c.index);
    CloserMeans(id, x, y);
    FlippedBits(x.id, c.index, CommonPrefix(x.id, y.id));
  }

  /** A target that meets the bucket of `c` as asked, and the later buckets as `id` does. */
  lemma Redirect(c: Chain, id: U160, stops: bool) returns (t: U160)
    requires Shape(c) && Placed(c) && c.Link?
    ensures c.Belongs(t) == stops && Order(c.next, t) == Order(c.next, id)
    ensures forall x, y :: x in Contents(c.next) && y in Contents(c.next) && x.id != y.id ==>
      (Closer(t, x, y) <==> Closer(id, x, y))
  {
    t := if c.Belongs(id) == stops then id else FlipBit(id, c.index);
    if c.Belongs(id) != stops {
      FlippedBits(id, c.index, c.index);
      BelongsIffDiffers(c, id);
      BelongsIffDiffers(c, t);
      OrderIgnores(c.next, id, c.index);
      forall x, y | x in Contents(c.next) && y in Contents(c.next) && x.id != y.id
        ensures Closer(t, x, y) <==> Closer(id, x, y)
      {
        CloserIgnores(c.next, id, c.index, x, y);
      }
    }
  }

  /** Among the first `m` of the order stands one that is farther than one after them. */
  ghost predicate Missed(c: Chain, id: U160, m: nat, i: nat, j: nat) {
    i < m <= j < Total(c) && Closer(id, Order(c, id)[j], Order(c, id)[i])
  }

  lemma OrderApart(c: Chain, id: U160, i: nat, j: nat)
    requires Shape(c) && Placed(c) && i < j < Total(c)
    ensures var s := Order(c, id); s[i] in Contents(c) && s[j] in Contents(c) && s[i].id != s[j].id
  {
    var s := Order(c, id);
    OrderMembers(c, id);
    OrderDistinct(c, id);
    assert s[i] in s && s[j] in s;
  }

  lemma OrderAt(c: Chain, id: U160, i: nat)
    requires c.Link? && i < Total(c.next)
    ensures Total(c) == |c.nodes| + Total(c.next)
    ensures Order(c, id)[if c.Belongs(id) then |c.nodes| + i else i] == Order(c.next, id)[i]
  {
  }

  lemma MissedPast(c: Chain, id: U160, m: nat, i: nat, j: nat) returns (t: U160)
    requires Shape(c) && Placed(c) && c.Link? && Missed(c.next, id, m, i, j)
    ensures Missed(c, t, m, i, j)
  {
    t := Redirect(c, id, false);
    OrderApart(c.next, id, i, j);
    OrderAt(c, t, i);
    OrderAt(c, t, j);
  }

  lemma MissedBehind(c: Chain, id: U160, m: nat, i: nat, j: nat) returns (t: U160)
    requires Shape(c) && Placed(c) && c.Link? && Missed(c.next, id, m, i, j)
    ensures Missed(c, t, |c.nodes| + m, |c.nodes| + i, |c.nodes| + j)
  {
    t := Redirect(c, id, true);
    OrderApart(c.next, id, i, j);
    OrderAt(c, t, i);
    OrderAt(c, t, j);
  }

  lemma MissedHere(c: Chain, m: nat) returns (id: U160)
    requires Shape(c) && Placed(c) && 0 < m < |c.nodes|
    ensures Missed(c, id, m, 0, m)
  {
    id := c.nodes[m].id;
    ItselfIsClosest(c.nodes[m], c.nodes[0]);
    assert c.Link? ==> c.Belongs(id);
    assert Order(c, id)[0] == c.nodes[0] && Order(c, id)[m] == c.nodes[m];
  }

  lemma MissedInPassedBucket(c: Chain, m: nat) returns (id: U160)
    requires Shape(c) && Placed(c) && c.Link? && Total(c.next) < m < Total(c)
    ensures Missed(c, id, m, Total(c.next), m)
  {
    var x, y := c.nodes[m - Total(c.next)], c.nodes[0];
    id := FlipBit(x.id, c.index);
    ClosestInPassedBucket(c, x, y);
    assert Order(c, id)[Total(c.next)] == y && Order(c, id)[m] == x;
  }

  lemma WhyNotExact(c: Chain, m: nat)
    requires !Exact(c, m)
    ensures 0 < m < Total(c) && (c.Last? ==> m < |c.nodes|)
    ensures c.Link? && |c.nodes| <= m <= Total(c.next) ==> !Exact(c.next, m) || !Exact(c.next, m - |c.nodes|)
  {
  }

  lemma MissedAtOnce(c: Chain, m: nat) returns (id: U160, i: nat, j: nat)
    requires Shape(c) && Placed(c) && 0 < m < Total(c)
    requires m < |c.nodes| || (c.Link? && Total(c.next) < m)
    ensures Missed(c, id, m, i, j)
  {
    if m < |c.nodes| {
      id := MissedHere(c, m);
      i, j := 0, m;
    } else {
      id := MissedInPassedBucket(c, m);
      i, j := Total(c.next), m;
    }
  }

  lemma {:induction false} NotExactMisses(c: Chain, m: nat) returns (id: U160, i: nat, j: nat)
    requires Shape(c) && Placed(c) && !Exact(c, m)
    ensures Missed(c, id, m, i, j)
    decreases c
  {
    WhyNotExact(c, m);
    if m < |c.nodes| || Total(c.next) < m {
      id, i, j := MissedAtOnce(c, m);
    } else if !Exact(c.next, m) {
      id, i, j := NotExactMisses(c.next, m);
      id := MissedPast(c, id, m, i, j);
    } else {
      var later, i', j' := NotExactMisses(c.next, m - |c.nodes|);
      id := MissedBehind(c, later, m - |c.nodes|, i', j');
      i, j := |c.nodes| + i', |c.nodes| + j';
    }
  }

  // ----- the k closest -----

  /** The answer is the k closest: as many distinct stored nodes as there can be, and every stored
      node that is left out is farther from the target than every node returned. */
  ghost predicate KClosest(c: Chain, id: U160)
    requires Shape(c)
  {
    var answer := Lookup(c, id);
    && DistinctIds(answer) && |answer| == Min(c.k, Total(c))
    && (forall x :: x in answer ==> x in Contents(c))
    && (forall x, y :: x in answer && y in Contents(c) && y !in answer ==> Closer(id, x, y))
  }

  lemma TakeKeeps(s: seq<NodeInfo>, n: nat)
    ensures forall j :: 0 <= j < |s| && j < n ==> s[j] in Take(s, n)
  {
    forall j | 0 <= j < |s| && j < n ensures s[j] in Take(s, n) {
      assert s[j] == Take(s, n)[j];
    }
  }

  lemma FirstOfOrder(id: U160, order: seq<NodeInfo>, k: nat, x: NodeInfo, y: NodeInfo)
    requires FirstClosest(id, order, k) && x in Take(order, k) && y in order && y !in Take(order, k)
    ensures Closer(id, x, y)
  {
    var answer := Take(order, k);
    var i :| 0 <= i < |answer| && answer[i] == x;
    var j :| 0 <= j < |order| && order[j] == y;
    assert order[i] == x && i < k;
    TakeKeeps(order, k);
  }

  lemma ExactIsKClosest(c: Chain, id: U160)
    requires Shape(c) && Placed(c) && GapFree(c) && Exact(c, c.k)
    ensures KClosest(c, id)
  {
    var answer := Lookup(c, id);
    GapFreeAnswer(c, id);
    LookupIsSound(c, id);
    forall x, y | x in answer && y in Contents(c) && y !in answer ensures Closer(id, x, y) {
      LookupTakesOrder(c, id);
      OrderMembers(c, id);
      ExactIsClosest(c, id, c.k);
      FirstOfOrder(id, Order(c, id), c.k, x, y);
    }
  }

  /** Wherever the condition fails, some target is answered with a node and without a strictly
      closer one. */
  lemma NearestCanBeMissed(c: Chain) returns (id: U160, missed: NodeInfo, returned: NodeInfo)
    requires Shape(c) && Placed(c) && GapFree(c) && !Exact(c, c.k)
    ensures missed in Contents(c) && missed !in Lookup(c, id) && returned in Lookup(c, id)
    ensures Closer(id, missed, returned)
  {
    var i, j;
    id, i, j := NotExactMisses(c, c.k);
    var order := Order(c, id);
    missed, returned := order[j], order[i];
    OrderApart(c, id, i, j);
    LookupTakesOrder(c, id);
    TakeKeeps(order, c.k);
    OrderDistinct(c, id);
    NotInTake(order, c.k, j);
  }

  lemma NotInTake(s: seq<NodeInfo>, n: nat, j: nat)
    requires DistinctIds(s) && n <= j < |s|
    ensures s[j] !in Take(s, n)
  {
    assert forall l :: 0 <= l < |Take(s, n)| ==> Take(s, n)[l] == s[l] && s[l].id != s[j].id;
  }

  /** Lookup returns the k closest nodes for every target exactly when the sizes of the buckets
      leave no gap and are exact. */
  lemma KClosestExactlyWhen(c: Chain)
    requires Shape(c) && Placed(c)
    ensures (forall id :: KClosest(c, id)) <==> GapFree(c) && Exact(c, c.k)
  {
    if GapFree(c) && Exact(c, c.k) {
      forall id ensures KClosest(c, id) { ExactIsKClosest(c, id); }
    } else if !GapFree(c) {
      AnswersDistinctIffGapFree(c);
      var id :| !DistinctIds(Lookup(c, id));
      assert !KClosest(c, id);
    } else {
      var id, missed, returned := NearestCanBeMissed(c);
      CloserMeans(id, missed, returned);
      CloserMeans(id, returned, missed);
      assert !KClosest(c, id);
    }
  }

  // ----- runs that reach a table of each kind -----

  /** A run that leads to `c`, and what one more call makes of it. */
  lemma RunStep(own: U160, k: nat, ops: seq<Op>, c: Chain, op: Op, d: Chain)
    requires Run(own, k, ops) == c && Apply(c, op) == d
    ensures Run(own, k, ops + [op]) == d
  {
    assert (ops + [op])[..|ops|] == ops;
  }

  lemma AddNew(c: Chain, n: NodeInfo)
    requires Shape(c) && c.Last? && |c.nodes| < c.k && !HasId(c.nodes, n.id)
    ensures Add(c, n) == c.(nodes := c.nodes + [n])
  {
  }

  lemma {:induction false} SplitKeepsAll(c: Chain, nodes: seq<NodeInfo>, i: nat)
    requires i <= |nodes| && forall j :: 0 <= j < |nodes| ==> c.Belongs(nodes[j].id)
    ensures Split(c, nodes, i, []) == (nodes, [])
    decreases |nodes| - i
  {
    if i < |nodes| { SplitKeepsAll(c, nodes, i + 1); }
  }

  function TwoBuckets(own: U160, first: seq<NodeInfo>, d: NodeInfo): Chain {
    Link(own, 2, 0, first, Last(own, 2, 1, [d]))
  }

  lemma RunThreeAdds(own: U160, a: NodeInfo, b: NodeInfo, d: NodeInfo)
    requires a.id != b.id && own.GetBit(0) != a.id.GetBit(0) && own.GetBit(0) != b.id.GetBit(0)
    requires own.GetBit(0) == d.id.GetBit(0)
    ensures Run(own, 2, [] + [Insert(a)] + [Insert(b)] + [Insert(d)]) == TwoBuckets(own, [a, b], d)
  {
    var c0, c1, c2 := Root(own, 2), Last(own, 2, 0, [a]), Last(own, 2, 0, [a, b]);
    AddNew(c0, a);
    AddNew(c1, b);
    assert [] + [a] == [a] && [a] + [b] == [a, b];
    SplitOfTwo(own, a, b, d);
    RunStep(own, 2, [], c0, Insert(a), c1);
    RunStep(own, 2, [] + [Insert(a)], c1, Insert(b), c2);
    RunStep(own, 2, [] + [Insert(a)] + [Insert(b)], c2, Insert(d), TwoBuckets(own, [a, b], d));
  }

  /** Three adds to an empty table of capacity 2 build a table without gaps that misses nodes. */
  lemma ThreeAddsMiss(own: U160, a: NodeInfo, b: NodeInfo, d: NodeInfo) returns (ops: seq<Op>)
    requires a.id != b.id && own.GetBit(0) != a.id.GetBit(0) && own.GetBit(0) != b.id.GetBit(0)
    requires own.GetBit(0) == d.id.GetBit(0)
    ensures ops == [Insert(a), Insert(b), Insert(d)] && Run(own, 2, ops) == TwoBuckets(own, [a, b], d)
    ensures GapFree(Run(own, 2, ops)) && !Exact(Run(own, 2, ops), 2)
  {
    RunThreeAdds(own, a, b, d);
    ops := [] + [Insert(a)] + [Insert(b)] + [Insert(d)];
    SizesOfThree(own, [a, b], d);
  }

  lemma SizesOfThree(own: U160, first: seq<NodeInfo>, d: NodeInfo)
    requires |first| <= 2
    ensures var c := TwoBuckets(own, first, d);
      Total(c.next) == 1 && Total(c) == |first| + 1
  {
  }

  lemma RemoveFirst(c: Chain, a: NodeInfo, rest: seq<NodeInfo>)
    requires c.Link? && c.Belongs(a.id) && c.nodes == [a] + rest
    ensures Remove(c, a.id).0 == c.(nodes := rest)
  {
    var p := FindFirst(c.nodes, a.id);
    assert HasId(c.nodes, a.id) by { assert c.nodes[0].id == a.id; }
    assert p == 0;
    assert c.nodes[..0] + c.nodes[1..] == rest;
  }

  lemma EmptyTheFirst(own: U160, a: NodeInfo, b: NodeInfo, d: NodeInfo)
    requires own.GetBit(0) != a.id.GetBit(0) && own.GetBit(0) != b.id.GetBit(0)
    ensures Remove(TwoBuckets(own, [a, b], d), a.id).0 == TwoBuckets(own, [b], d)
    ensures Remove(TwoBuckets(own, [b], d), b.id).0 == TwoBuckets(own, [], d)
  {
    BelongsIffDiffers(TwoBuckets(own, [a, b], d), a.id);
    BelongsIffDiffers(TwoBuckets(own, [b], d), b.id);
    assert [a, b] == [a] + [b] && [b] == [b] + [];
    RemoveFirst(TwoBuckets(own, [a, b], d), a, [b]);
    RemoveFirst(TwoBuckets(own, [b], d), b, []);
  }

  lemma AnswerOfOne(c: Chain, id: U160, d: NodeInfo)
    requires Shape(c) && c.Last? && c.k == 2 && c.nodes == [d]
    ensures Lookup(c, id) == [d]
  {
    assert Near(c, id) == [];
    assert Here(c, id) == [] + [d] == [d];
  }

  lemma GapAnswer(c: Chain, own: U160, d: NodeInfo)
    requires c == TwoBuckets(own, [], d)
    ensures !GapFree(c) && Lookup(c, own) == [d, d]
  {
    SizesOfThree(own, [], d);
    BelongsIffDiffers(c, own);
    AnswerOfOne(c.next, own, d);
    assert Near(c, own) == [d];
    assert Here(c, own) == [d] + [] == [d];
    assert Take([d], 1) == [d] && [d] + [d] == [d, d];
  }

  lemma RunTwoRemovals(own: U160, ops: seq<Op>, a: NodeInfo, b: NodeInfo, d: NodeInfo)
    requires own.GetBit(0) != a.id.GetBit(0) && own.GetBit(0) != b.id.GetBit(0)
    requires Run(own, 2, ops) == TwoBuckets(own, [a, b], d)
    ensures Run(own, 2, ops + [Delete(a.id)] + [Delete(b.id)]) == TwoBuckets(own, [], d)
  {
    EmptyTheFirst(own, a, b, d);
    RunStep(own, 2, ops, TwoBuckets(own, [a, b], d), Delete(a.id), TwoBuckets(own, [b], d));
    RunStep(own, 2, ops + [Delete(a.id)], TwoBuckets(own, [b], d), Delete(b.id), TwoBuckets(own, [], d));
  }

  lemma RunFiveCalls(own: U160, a: NodeInfo, b: NodeInfo, d: NodeInfo, ops: seq<Op>)
    requires a.id != b.id && own.GetBit(0) != a.id.GetBit(0) && own.GetBit(0) != b.id.GetBit(0)
    requires own.GetBit(0) == d.id.GetBit(0)
    requires ops == [Insert(a), Insert(b), Insert(d), Delete(a.id), Delete(b.id)]
    ensures Run(own, 2, ops) == TwoBuckets(own, [], d)
  {
    var adds := [] + [Insert(a)] + [Insert(b)] + [Insert(d)];
    assert ops == adds + [Delete(a.id)] + [Delete(b.id)];
    RunThreeAdds(own, a, b, d);
    RunTwoRemovals(own, adds, a, b, d);
  }

  /** Two removals then leave a gap, and a lookup that returns one node twice. */
  lemma TwoRemovalsRepeat(own: U160, a: NodeInfo, b: NodeInfo, d: NodeInfo) returns (ops: seq<Op>)
    requires a.id != b.id && own.GetBit(0) != a.id.GetBit(0) && own.GetBit(0) != b.id.GetBit(0)
    requires own.GetBit(0) == d.id.GetBit(0)
    ensures ops == [Insert(a), Insert(b), Insert(d), Delete(a.id), Delete(b.id)]
    ensures !GapFree(Run(own, 2, ops)) && Lookup(Run(own, 2, ops), own) == [d, d]
  {
    ops := [Insert(a), Insert(b), Insert(d), Delete(a.id), Delete(b.id)];
    var c := Run(own, 2, ops);
    RunFiveCalls(own, a, b, d, ops);
    GapAnswer(c, own, d);
  }

  lemma SplitOfTwo(own: U160, a: NodeInfo, b: NodeInfo, d: NodeInfo)
    requires own.GetBit(0) != a.id.GetBit(0) && own.GetBit(0) != b.id.GetBit(0)
    requires own.GetBit(0) == d.id.GetBit(0)
    ensures Add(Last(own, 2, 0, [a, b]), d) == TwoBuckets(own, [a, b], d)
  {
    var c := Last(own, 2, 0, [a, b]);
    BelongsIffDiffers(c, a.id);
    BelongsIffDiffers(c, b.id);
    BelongsIffDiffers(c, d.id);
    SplitKeepsAll(c, [a, b], 0);
    AddNew(Last(own, 2, 1, []), d);
    assert [] + [d] == [d];
  }
}

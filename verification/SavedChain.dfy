/** The saved form of the routing table: owner, capacity, depth, then the node vectors from the
    deepest bucket up; and the loader that rebuilds the linked buckets from it. */
module SavedChain {
  import opened U160s
  import opened NodeInfos
  import opened Wrappers
  import opened Chains
  import opened ChainUpdates
  import opened Buckets

  datatype Element = Id(id: U160) | Number(n: nat) | Vector(nodes: seq<NodeInfo>)

  /** Why a file does not load: an element is absent, it has another type (or does not fit a
      byte), there are more vectors than the depth announces and overflow is checked, or there is
      no vector at all. */
  datatype LoadError = Missing | WrongType | Underflow | NoBucket

  // ----- the saved form as a function of the chain -----

  function Vectors(c: Chain): seq<seq<NodeInfo>> {
    (if c.Link? then Vectors(c.next) else []) + [c.nodes]
  }

  function Elements(vectors: seq<seq<NodeInfo>>): (e: seq<Element>)
    ensures |e| == |vectors|
    ensures forall i :: 0 <= i < |e| ==> e[i] == Vector(vectors[i])
  {
    seq(|vectors|, i requires 0 <= i < |vectors| => Vector(vectors[i]))
  }

  /** Deepest bucket first: its depth, its nodes, then the nodes of each bucket above it. */
  function Body(c: Chain, depth: nat): seq<Element> {
    (if c.Link? then Body(c.next, depth + 1) else [Number(depth)]) + [Vector(c.nodes)]
  }

  function Saved(c: Chain): seq<Element> {
    [Id(c.own), Number(c.k)] + Body(c, 1)
  }

  /** The chain built from vectors given deepest first, its first bucket having an index. */
  function Stack(own: U160, k: nat, index: nat, vectors: seq<seq<NodeInfo>>): (c: Chain)
    requires vectors != []
    ensures c.own == own && c.k == k && c.index == index
    decreases |vectors|
  {
    var top := |vectors| - 1;
    if top == 0 then Last(own, k, index, vectors[0])
    else Link(own, k, index, vectors[top], Stack(own, k, index + 1, vectors[..top]))
  }

  /** One owner, one capacity and consecutive indices, whatever the buckets hold. */
  ghost predicate Uniform(c: Chain) {
    c.Link? ==> c.next.own == c.own && c.next.k == c.k && c.next.index == c.index + 1 && Uniform(c.next)
  }

  lemma {:induction false} ShapeIsUniform(c: Chain)
    requires Shape(c)
    ensures Uniform(c) && c.index + |Vectors(c)| <= MAX_BUCKET_INDEX + 1
  {
    if c.Link? { ShapeIsUniform(c.next); }
  }

  lemma {:induction false} StackOfVectors(c: Chain)
    requires Uniform(c)
    ensures Stack(c.own, c.k, c.index, Vectors(c)) == c
  {
    if c.Link? {
      StackOfVectors(c.next);
      assert Vectors(c)[..|Vectors(c)| - 1] == Vectors(c.next);
    }
  }

  lemma {:induction false} StackIsUniform(own: U160, k: nat, index: nat, vectors: seq<seq<NodeInfo>>)
    requires vectors != []
    ensures Uniform(Stack(own, k, index, vectors))
    decreases |vectors|
  {
    if |vectors| > 1 { StackIsUniform(own, k, index + 1, vectors[..|vectors| - 1]); }
  }

  lemma {:induction false} BodyIsVectors(c: Chain, depth: nat)
    ensures Body(c, depth) == [Number(depth + |Vectors(c)| - 1)] + Elements(Vectors(c))
  {
    if c.Link? { BodyIsVectors(c.next, depth + 1); }
  }

  lemma SavedIsVectors(c: Chain)
    ensures Saved(c) == [Id(c.own), Number(c.k), Number(|Vectors(c)|)] + Elements(Vectors(c))
  {
    BodyIsVectors(c, 1);
  }

  /** The bucket that lies `d` links below the first. */
  function BucketAt(c: Chain, d: nat): (b: Option<Chain>)
    decreases c
  {
    if d == 0 then Some(c) else if c.Link? then BucketAt(c.next, d - 1) else None
  }

  lemma {:induction false} VectorAt(c: Chain, d: nat)
    ensures BucketAt(c, d).Some? <==> d < |Vectors(c)|
    ensures d < |Vectors(c)| ==> Vectors(c)[|Vectors(c)| - 1 - d] == BucketAt(c, d).value.nodes
  {
    if d > 0 && c.Link? { VectorAt(c.next, d - 1); }
  }

  /** The saved form, element by element: owner, capacity, the number of buckets, and their vectors from
      the deepest bucket to the first. */
  lemma SavedLayout(c: Chain, d: nat)
    ensures var s := Saved(c);
      && |s| >= 4 && s[0] == Id(c.own) && s[1] == Number(c.k) && s[2] == Number(|s| - 3)
      && (BucketAt(c, d).Some? <==> d < |s| - 3)
      && (d < |s| - 3 ==> s[|s| - 1 - d] == Vector(BucketAt(c, d).value.nodes))
  {
    SavedIsVectors(c);
    VectorAt(c, d);
    VectorAt(c, 0);
  }

  // ----- loading -----

  predicate Byte(e: Element) { e.Number? && e.n < 256 }

  /** What loads: without overflow checks the index of a bucket too many wraps around. */
  predicate WellFormed(e: seq<Element>, checks: bool) {
    && |e| > 3 && e[0].Id? && Byte(e[1]) && Byte(e[2])
    && (forall i :: 3 <= i < |e| ==> e[i].Vector?)
    && (checks ==> |e| - 3 <= e[2].n)
  }

  function Payload(e: seq<Element>): seq<seq<NodeInfo>>
    requires WellFormed(e, false)
  {
    seq(|e| - 3, i requires 0 <= i < |e| - 3 => e[i + 3].nodes)
  }

  /** The chain of vectors given deepest first, their indices counted down as bytes. */
  function Counted(own: U160, k: nat, depth: nat, vectors: seq<seq<NodeInfo>>): (c: Chain)
    requires vectors != []
    ensures c.own == own && c.k == k && c.index == (depth - |vectors|) % 256
    decreases |vectors|
  {
    var top := |vectors| - 1;
    if top == 0 then Last(own, k, (depth - |vectors|) % 256, vectors[0])
    else Link(own, k, (depth - |vectors|) % 256, vectors[top], Counted(own, k, depth, vectors[..top]))
  }

  /** The chain a well-formed file stands for. */
  function Loaded(e: seq<Element>): Chain
    requires WellFormed(e, false)
  {
    Counted(e[0].id, e[1].n, e[2].n, Payload(e))
  }

  /** As long as the announced depth suffices, no index wraps. */
  lemma {:induction false} CountedIsStack(own: U160, k: nat, depth: nat, vectors: seq<seq<NodeInfo>>)
    requires vectors != [] && |vectors| <= depth < 256
    ensures Counted(own, k, depth, vectors) == Stack(own, k, depth - |vectors|, vectors)
    decreases |vectors|
  {
    if |vectors| > 1 { CountedIsStack(own, k, depth, vectors[..|vectors| - 1]); }
  }

  lemma {:induction false} VectorsOfCounted(own: U160, k: nat, depth: nat, vectors: seq<seq<NodeInfo>>)
    requires vectors != []
    ensures Vectors(Counted(own, k, depth, vectors)) == vectors
    decreases |vectors|
  {
    if |vectors| > 1 { VectorsOfCounted(own, k, depth, vectors[..|vectors| - 1]); }
  }

  /** Saving and then loading rebuilds the chain: every index, vector, order and link. */
  lemma LoadAfterSave(c: Chain, checks: bool)
    requires Uniform(c) && c.index == 0 && c.k < 256 && |Vectors(c)| < 256
    ensures WellFormed(Saved(c), checks) && Loaded(Saved(c)) == c
  {
    SavedIsVectors(c);
    assert |Vectors(c)| > 0;
    assert Payload(Saved(c)) == Vectors(c);
    StackOfVectors(c);
    CountedIsStack(c.own, c.k, |Vectors(c)|, Vectors(c));
  }

  /** Every table a run of adds and removes can reach survives a save and a load. */
  lemma ReachableTableRoundTrips(own: U160, k: U8, ops: seq<Op>, checks: bool)
    ensures WellFormed(Saved(Run(own, k, ops)), checks) && Loaded(Saved(Run(own, k, ops))) == Run(own, k, ops)
  {
    ShapeIsUniform(Run(own, k, ops));
    LoadAfterSave(Run(own, k, ops), checks);
  }

  /** Loading and then saving gives the file back exactly when the announced depth is the number
      of vectors; a larger depth is accepted and shifts every index, and a smaller one is accepted
      without overflow checks. */
  lemma SaveAfterLoad(e: seq<Element>)
    requires WellFormed(e, false)
    ensures Saved(Loaded(e)) == e <==> e[2].n == |e| - 3
    ensures Vectors(Loaded(e)) == Payload(e) && Loaded(e).index == (e[2].n - (|e| - 3)) % 256
    ensures WellFormed(e, true) ==> Uniform(Loaded(e))
  {
    var c := Loaded(e);
    VectorsOfCounted(e[0].id, e[1].n, e[2].n, Payload(e));
    SavedIsVectors(c);
    if e[2].n == |e| - 3 {
      assert Saved(c) == e;
    } else {
      assert Saved(c)[2] == Number(|e| - 3);
    }
    if WellFormed(e, true) {
      CountedIsStack(e[0].id, e[1].n, e[2].n, Payload(e));
      StackIsUniform(e[0].id, e[1].n, e[2].n - (|e| - 3), Payload(e));
    }
  }

  // ----- the program -----

  method SerializeDepthFirst(b: Bucket, depth: nat) returns (out: seq<Element>)
    requires b.Valid()
    ensures out == Body(old(b.View()), depth)
    decreases b.Repr
  {
    if b.nextBucket != null {
      out := SerializeDepthFirst(b.nextBucket, depth + 1);
    } else {
      out := [Number(depth)];
    }
    out := out + [Vector(b.nodes)];
  }

  method Save(b: Bucket) returns (out: seq<Element>)
    requires b.Valid()
    ensures out == Saved(old(b.View()))
  {
    out := SerializeDepthFirst(b, 1);
    out := [Id(b.ownId), Number(b.kSize)] + out;
  }

  /** What the loader reports for a file that is not well-formed, in the order it reads. */
  function Problem(e: seq<Element>, checks: bool): LoadError
    requires !WellFormed(e, checks)
  {
    if |e| == 0 then Missing else if !e[0].Id? then WrongType
    else if |e| == 1 then Missing else if !Byte(e[1]) then WrongType
    else if |e| == 2 then Missing else if !Byte(e[2]) then WrongType
    else if |e| == 3 then NoBucket
    else VectorProblem(e, 3, checks)
  }

  /** The first vector that has another type, unless more than the announced depth precede it and
      overflow is checked. */
  function VectorProblem(e: seq<Element>, i: nat, checks: bool): LoadError
    requires |e| > 3 && Byte(e[2]) && 3 <= i <= |e|
    decreases |e| - i
  {
    if i == |e| then NoBucket
    else if !e[i].Vector? then WrongType
    else if checks && i - 3 == e[2].n then Underflow
    else VectorProblem(e, i + 1, checks)
  }

  /** The leading elements that are there have the types of an owner, a capacity and a depth. */
  predicate HeaderTyped(e: seq<Element>) {
    && (|e| > 0 ==> e[0].Id?)
    && (|e| > 1 ==> Byte(e[1]))
    && (|e| > 2 ==> Byte(e[2]))
  }

  predicate VectorsUpTo(e: seq<Element>, i: nat, j: nat) {
    forall v :: i <= v < j && v < |e| ==> e[v].Vector?
  }

  lemma {:induction false} VectorProblemExactlyWhen(e: seq<Element>, i: nat, checks: bool)
    requires |e| > 3 && Byte(e[2]) && 3 <= i <= |e| && (checks ==> i - 3 <= e[2].n)
    requires !VectorsUpTo(e, i, |e|) || (checks && |e| - 3 > e[2].n)
    ensures var p := VectorProblem(e, i, checks);
      && (p == Underflow <==> checks && e[2].n + 3 < |e| && VectorsUpTo(e, i, e[2].n + 4))
      && p in {Underflow, WrongType}
    decreases |e| - i
  {
    if e[i].Vector? && !(checks && i - 3 == e[2].n) { VectorProblemExactlyWhen(e, i + 1, checks); }
  }

  /** Which error a file that does not load gives: it ends early, holds no vector, holds more vectors than
      its depth allows when overflow is checked, or else an element of another type. */
  lemma ProblemExactlyWhen(e: seq<Element>, checks: bool)
    requires !WellFormed(e, checks)
    ensures var p := Problem(e, checks);
      && (p == Missing <==> |e| < 3 && HeaderTyped(e))
      && (p == NoBucket <==> |e| == 3 && HeaderTyped(e))
      && (p == Underflow <==> checks && HeaderTyped(e) && |e| > 3 && e[2].n + 3 < |e| && VectorsUpTo(e, 3, e[2].n + 4))
  {
    if |e| > 3 && HeaderTyped(e) { VectorProblemExactlyWhen(e, 3, checks); }
  }

  /** One fresh, unlinked bucket for each vector, with indices counting down. */
  ghost predicate Unlinked(deser: seq<Bucket>, own: U160, k: nat, depth: nat, vectors: seq<seq<NodeInfo>>)
    reads deser
  {
    && |deser| <= |vectors|
    && (forall i :: 0 <= i < |deser| ==>
          && deser[i].ownId == own && deser[i].kSize == k && deser[i].bucketIndex == (depth - 1 - i) % 256
          && deser[i].nodes == vectors[i] && deser[i].nextBucket == null && deser[i].Repr == {deser[i]})
    && (forall i, j :: 0 <= i < j < |deser| ==> deser[i] != deser[j])
  }

  /** Makes one bucket the successor of another. */
  method LinkUp(parent: Bucket, child: Bucket)
    requires child.Valid() && parent !in child.Repr && parent.nextBucket == null
    modifies parent
    ensures parent.Valid() && parent.Repr == {parent} + child.Repr
    ensures parent.View() == Link(parent.ownId, parent.kSize, parent.bucketIndex, old(parent.nodes), old(child.View()))
  {
    parent.nextBucket := child;
    parent.Repr := {parent} + child.Repr;
    assert child.Valid() && child.View() == old(child.View());
  }

  /** The last bucket is apart from the others and has the fields of the chain it will head. */
  lemma LastIsApart(deser: seq<Bucket>, own: U160, k: nat, depth: nat, vectors: seq<seq<NodeInfo>>)
    requires deser != [] && |deser| == |vectors| && Unlinked(deser, own, k, depth, vectors)
    ensures var top, b := |deser| - 1, deser[|deser| - 1];
      && b !in deser[..top] && Unlinked(deser[..top], own, k, depth, vectors[..top])
      && b.nextBucket == null && b.Repr == {b}
      && Counted(own, k, depth, vectors)
         == if top == 0 then Last(b.ownId, b.kSize, b.bucketIndex, b.nodes)
            else Link(b.ownId, b.kSize, b.bucketIndex, b.nodes, Counted(own, k, depth, vectors[..top]))
  {
  }

  /** Folds the buckets into one chain, each becoming the successor of the one after it. */
  method Reduce(deser: seq<Bucket>, own: U160, k: nat, depth: nat, ghost vectors: seq<seq<NodeInfo>>) returns (root: Bucket)
    requires deser != [] && |deser| == |vectors| && Unlinked(deser, own, k, depth, vectors)
    modifies deser
    ensures root.Valid() && forall b :: b in root.Repr ==> b in deser
    ensures root.View() == Counted(own, k, depth, vectors)
    decreases |deser|
  {
    var top := |deser| - 1;
    root := deser[top];
    LastIsApart(deser, own, k, depth, vectors);
    if top > 0 {
      var child := Reduce(deser[..top], own, k, depth, vectors[..top]);
      LinkUp(root, child);
    }
  }

  lemma CountDown(n: int)
    ensures (n - 1) % 256 == if n % 256 == 0 then 255 else n % 256 - 1
  {
  }

  /** One more bucket with the nodes of the next vector. */
  method Push(deser: seq<Bucket>, own: U160, k: nat, bucketIndex: nat, nodes: seq<NodeInfo>, ghost depth: nat,
              ghost vectors: seq<seq<NodeInfo>>)
    returns (more: seq<Bucket>)
    requires |deser| == |vectors| && Unlinked(deser, own, k, depth, vectors) && bucketIndex == (depth - 1 - |deser|) % 256
    ensures |more| == |deser| + 1 && more[..|deser|] == deser && fresh(more[|deser|])
    ensures Unlinked(more, own, k, depth, vectors + [nodes])
  {
    var bucket := new Bucket(own, k, bucketIndex);
    bucket.nodes := nodes;
    more := deser + [bucket];
  }

  method Load(e: seq<Element>, checks: bool) returns (r: Result<Bucket, LoadError>)
    ensures r.Success? <==> WellFormed(e, checks)
    ensures r.Success? ==> r.value.Valid() && fresh(r.value.Repr) && r.value.View() == Loaded(e)
    ensures r.Failure? ==> r.error == Problem(e, checks)
  {
    if |e| == 0 { return Failure(Missing); }
    if !e[0].Id? { return Failure(WrongType); }
    if |e| == 1 { return Failure(Missing); }
    if !Byte(e[1]) { return Failure(WrongType); }
    if |e| == 2 { return Failure(Missing); }
    if !Byte(e[2]) { return Failure(WrongType); }
    var bucketIndex := e[2].n;
    var deser: seq<Bucket> := [];
    ghost var vectors: seq<seq<NodeInfo>> := [];
    var i := 3;
    while i < |e|
      invariant 3 <= i <= |e| && |deser| == |vectors| == i - 3
      invariant bucketIndex == (e[2].n - |deser|) % 256 && (checks ==> |deser| <= e[2].n)
      invariant forall j :: 3 <= j < i ==> e[j].Vector? && vectors[j - 3] == e[j].nodes
      invariant Unlinked(deser, e[0].id, e[1].n, e[2].n, vectors)
      invariant forall j :: 0 <= j < |deser| ==> fresh(deser[j])
      invariant |e| > 3 ==> VectorProblem(e, 3, checks) == VectorProblem(e, i, checks)
    {
      if !e[i].Vector? { return Failure(WrongType); }
      if bucketIndex == 0 && checks { return Failure(Underflow); }
      CountDown(e[2].n - |deser|);
      bucketIndex := if bucketIndex == 0 then 255 else bucketIndex - 1;
      deser := Push(deser, e[0].id, e[1].n, bucketIndex, e[i].nodes, e[2].n, vectors);
      vectors := vectors + [e[i].nodes];
      i := i + 1;
    }
    if |deser| == 0 { return Failure(NoBucket); }
    var root := Reduce(deser, e[0].id, e[1].n, e[2].n, vectors);
    assert vectors == Payload(e);
    return Success(root);
  }
}

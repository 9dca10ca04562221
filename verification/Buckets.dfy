/** The routing table as the program holds it: linked bucket objects whose vectors change in
    place. Each method is proved to do to the table what the function of the same name in
    `Chains` does to its value. */
module Buckets {
  import opened U160s
  import opened NodeInfos
  import opened Chains

  /** A vector whose element `p` has been swapped forward to position `i`. */
  function Bubbled(nodes: seq<NodeInfo>, p: nat, i: nat): seq<NodeInfo>
    requires p <= i < |nodes|
  {
    nodes[..p] + nodes[p + 1..i + 1] + [nodes[p]] + nodes[i + 1..]
  }

  /** `Vec::swap` of two neighbours. */
  function Swap(nodes: seq<NodeInfo>, i: nat): seq<NodeInfo>
    requires i + 1 < |nodes|
  {
    nodes[i := nodes[i + 1]][i + 1 := nodes[i]]
  }

  lemma BubbleEnds(nodes: seq<NodeInfo>, p: nat)
    requires p < |nodes|
    ensures Bubbled(nodes, p, p) == nodes
    ensures Bubbled(nodes, p, |nodes| - 1) == Bump(nodes, p)
  {
  }

  lemma BubbleStep(nodes: seq<NodeInfo>, p: nat, i: nat)
    requires p <= i && i + 1 < |nodes|
    ensures Swap(Bubbled(nodes, p, i), i) == Bubbled(nodes, p, i + 1)
  {
  }

  class Bucket {
    const ownId: U160
    const kSize: nat
    const bucketIndex: nat
    var nodes: seq<NodeInfo>
    var nextBucket: Bucket?

    ghost var Repr: set<Bucket>

    ghost predicate Valid()
      reads this, Repr
      ensures Valid() ==> this in Repr
      decreases Repr
    {
      && this in Repr
      && (nextBucket != null ==>
            && nextBucket in Repr && nextBucket.Repr <= Repr && this !in nextBucket.Repr
            && nextBucket.Valid())
    }

    /** The chain that starts at this bucket. */
    ghost function View(): (c: Chain)
      requires Valid()
      reads this, Repr
      ensures c.own == ownId && c.k == kSize && c.index == bucketIndex && c.nodes == nodes
      ensures c.Link? <==> nextBucket != null
      decreases Repr
    {
      if nextBucket == null then Last(ownId, kSize, bucketIndex, nodes)
      else Link(ownId, kSize, bucketIndex, nodes, nextBucket.View())
    }

    constructor (ownId: U160, kSize: nat, bucketIndex: nat)
      ensures Valid() && fresh(this) && Repr == {this} && View() == Last(ownId, kSize, bucketIndex, [])
    {
      this.ownId, this.kSize, this.bucketIndex := ownId, kSize, bucketIndex;
      nodes, nextBucket, Repr := [], null, {this};
    }

    predicate Belongs(id: U160)
      ensures Belongs(id) == Last(ownId, kSize, bucketIndex, []).Belongs(id)
    {
      ownId.Distance(id).GetBit(bucketIndex)
    }

    method Add(node: NodeInfo)
      requires Valid() && Shape(View())
      modifies Repr
      ensures Valid() && fresh(Repr - old(Repr))
      ensures View() == Chains.Add(old(View()), node)
      decreases MAX_BUCKET_INDEX - bucketIndex, 1
    {
      ghost var before := View();
      if nextBucket == null && |nodes| < kSize {
        AddOrUpdate(node);
        return;
      }
      if nextBucket == null {
        if |nodes| == kSize {
          var made := MakeNextBucket();
          if !made {
            return;
          }
        }
      }
      if !Belongs(node.id) {
        nextBucket.Add(node);
        Repr := Repr + nextBucket.Repr;
        return;
      }
      AddOrUpdate(node);
    }

    method AddOrUpdate(node: NodeInfo)
      requires Valid()
      modifies this`nodes
      ensures Valid()
      ensures nodes == Chains.AddOrUpdate(old(nodes), kSize, node)
      ensures View() == old(View()).(nodes := nodes)
    {
      var position := FindLast(nodes, node.id);
      if position >= 0 {
        var index := position;
        BubbleEnds(nodes, position);
        while index < |nodes| - 1
          invariant position <= index < |nodes| == |old(nodes)|
          invariant nodes == Bubbled(old(nodes), position, index)
        {
          BubbleStep(old(nodes), position, index);
          nodes := Swap(nodes, index);
          index := index + 1;
        }
      } else if |nodes| < kSize {
        nodes := nodes + [node];
      }
    }

    /** Creates the next bucket and moves the nodes that do not belong here into it. */
    method MakeNextBucket() returns (made: bool)
      requires Valid() && Shape(View()) && nextBucket == null && |nodes| == kSize
      modifies this
      ensures Valid() && fresh(Repr - old(Repr))
      ensures made <==> bucketIndex != MAX_BUCKET_INDEX
      ensures !made ==> View() == old(View())
      ensures made ==> View() == SplitBucket(old(View()))
      decreases MAX_BUCKET_INDEX - bucketIndex, 0
    {
      if bucketIndex == MAX_BUCKET_INDEX {
        return false;
      }
      ghost var before := View();
      var next := new Bucket(ownId, kSize, bucketIndex + 1);
      nextBucket := next;
      Repr := Repr + next.Repr;
      var index := 0;
      while index < |nodes|
        invariant nextBucket == next && this in Repr && next.Repr <= Repr && this !in next.Repr
        invariant fresh(next.Repr) && fresh(Repr - old(Repr)) && next.Valid()
        invariant next.View() == Last(ownId, kSize, bucketIndex + 1, next.nodes)
        invariant index <= |nodes| && |nodes| + |next.nodes| <= kSize
        invariant Split(before, nodes, index, next.nodes) == Split(before, old(nodes), 0, [])
        decreases |nodes| - index
      {
        if Belongs(nodes[index].id) {
          index := index + 1;
        } else {
          var node := nodes[index];
          nodes := nodes[index := nodes[|nodes| - 1]][..|nodes| - 1];
          next.Add(node);
          Repr := Repr + next.Repr;
        }
      }
      return true;
    }

    method Lookup(id: U160) returns (kNearest: seq<NodeInfo>)
      requires Valid() && Shape(View())
      ensures kNearest == Chains.Lookup(old(View()), id)
      decreases Repr
    {
      ghost var c := View();
      kNearest := [];
      if nextBucket != null && !Belongs(id) {
        kNearest := nextBucket.Lookup(id);
      }
      assert View() == c;
      assert kNearest == Near(c, id);
      var gap := kSize - |kNearest|;
      if gap > 0 {
        kNearest := kNearest + Take(nodes, gap);
      }
      assert kNearest == Here(c, id);
      gap := kSize - |kNearest|;
      if gap > 0 && nextBucket != null {
        var deeper := nextBucket.Lookup(id);
        kNearest := kNearest + Take(deeper, gap);
      } else {
      }
    }

    method Remove(id: U160) returns (found: bool)
      requires Valid()
      modifies Repr
      ensures Valid() && Repr == old(Repr)
      ensures View() == Chains.Remove(old(View()), id).0
      ensures found == Chains.Remove(old(View()), id).1
      decreases Repr
    {
      if nextBucket == null || Belongs(id) {
        var i := FindFirst(nodes, id);
        if i >= 0 {
          nodes := nodes[..i] + nodes[i + 1..];
          found := true;
        } else {
          found := false;
        }
      } else {
        found := nextBucket.Remove(id);
      }
    }
  }
}

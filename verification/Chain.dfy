/** The routing table as a value: a chain of buckets, and what `add`, `remove` and `lookup` make
    of it when each call runs to its end before the next one starts. `Buckets` is the same table
    as linked objects updated in place; its methods are proved equal to the functions here. */
module Chains {
  import opened Bits
  import opened U160s
  import opened NodeInfos

  const MAX_BUCKET_INDEX: nat := 159

  datatype Chain =
    | Last(own: U160, k: nat, index: nat, nodes: seq<NodeInfo>)
    | Link(own: U160, k: nat, index: nat, nodes: seq<NodeInfo>, next: Chain)
  {
    predicate Belongs(id: U160) { own.Distance(id).GetBit(index) }
  }

  function Root(own: U160, k: nat): Chain { Last(own, k, 0, []) }

  // ----- node vectors -----

  predicate HasId(nodes: seq<NodeInfo>, id: U160) {
    exists i :: 0 <= i < |nodes| && nodes[i].id == id
  }

  predicate DistinctIds(nodes: seq<NodeInfo>) {
    forall i, j :: 0 <= i < j < |nodes| ==> nodes[i].id != nodes[j].id
  }

  predicate Apart(a: seq<NodeInfo>, b: seq<NodeInfo>) {
    forall i, j :: 0 <= i < |a| && 0 <= j < |b| ==> a[i].id != b[j].id
  }

  /** The last position of an identifier, or -1. */
  function FindLast(nodes: seq<NodeInfo>, id: U160): (p: int)
    ensures -1 <= p < |nodes|
    ensures p >= 0 ==> nodes[p].id == id
    ensures forall i :: p < i < |nodes| ==> nodes[i].id != id
  {
    if nodes == [] then -1
    else if nodes[|nodes| - 1].id == id then |nodes| - 1
    else FindLast(nodes[..|nodes| - 1], id)
  }

  /** The first position of an identifier, or -1. */
  function FindFirst(nodes: seq<NodeInfo>, id: U160): (p: int)
    ensures -1 <= p < |nodes|
    ensures p >= 0 ==> nodes[p].id == id && forall i :: 0 <= i < p ==> nodes[i].id != id
    ensures p == -1 ==> !HasId(nodes, id)
  {
    if nodes == [] then -1
    else
      var p := FindFirst(nodes[..|nodes| - 1], id);
      if p >= 0 then p else if nodes[|nodes| - 1].id == id then |nodes| - 1 else -1
  }

  /** The stored entry moved to the most recent end. */
  function Bump(nodes: seq<NodeInfo>, p: nat): seq<NodeInfo>
    requires p < |nodes|
  {
    nodes[..p] + nodes[p + 1..] + [nodes[p]]
  }

  function AddOrUpdate(nodes: seq<NodeInfo>, k: nat, n: NodeInfo): (r: seq<NodeInfo>)
    ensures |nodes| <= |r| <= |nodes| + 1
    ensures |nodes| <= k ==> |r| <= k
  {
    var p := FindLast(nodes, n.id);
    if p >= 0 then Bump(nodes, p) else if |nodes| < k then nodes + [n] else nodes
  }

  lemma BumpConserves(nodes: seq<NodeInfo>, p: nat)
    requires p < |nodes| && DistinctIds(nodes)
    ensures multiset(Bump(nodes, p)) == multiset(nodes) && DistinctIds(Bump(nodes, p))
  {
    assert nodes == nodes[..p] + [nodes[p]] + nodes[p + 1..];
  }

  /** A known identifier is moved to the end with its stored address, an unknown one is appended
      if there is room, and nothing is ever dropped. */
  lemma AddOrUpdateOutcome(nodes: seq<NodeInfo>, k: nat, n: NodeInfo)
    requires DistinctIds(nodes) && |nodes| <= k
    ensures var r := AddOrUpdate(nodes, k, n);
      && DistinctIds(r)
      && (HasId(nodes, n.id) ==>
            multiset(r) == multiset(nodes) && r[|r| - 1].id == n.id && r[|r| - 1] in nodes)
      && (!HasId(nodes, n.id) ==>
            if |nodes| < k then r == nodes + [n] && multiset(r) == multiset(nodes) + multiset{n} else r == nodes)
  {
    var p := FindLast(nodes, n.id);
    if p >= 0 { BumpConserves(nodes, p); }
  }

  /** `Vec::swap_remove`: the last element takes the place of the removed one. */
  function SwapRemove(nodes: seq<NodeInfo>, i: nat): (r: seq<NodeInfo>)
    requires i < |nodes|
    ensures |r| == |nodes| - 1
  {
    nodes[i := nodes[|nodes| - 1]][..|nodes| - 1]
  }

  /** Every element keeps its place but the last, which takes the place of the removed one. */
  lemma SwapRemoveAt(nodes: seq<NodeInfo>, i: nat, j: nat)
    requires i < |nodes| && j < |nodes| - 1
    ensures SwapRemove(nodes, i)[j] == if j == i then nodes[|nodes| - 1] else nodes[j]
  {
    assert SwapRemove(nodes, i)[j] == nodes[i := nodes[|nodes| - 1]][j];
  }

  lemma SwapRemoveConserves(nodes: seq<NodeInfo>, i: nat)
    requires i < |nodes|
    ensures multiset(SwapRemove(nodes, i)) + multiset{nodes[i]} == multiset(nodes)
  {
    var r := nodes[i := nodes[|nodes| - 1]];
    assert r == r[..|nodes| - 1] + [r[|nodes| - 1]];
    assert multiset(r) == multiset(nodes) - multiset{nodes[i]} + multiset{nodes[|nodes| - 1]};
  }

  // ----- add -----

  /** The partition loop of a split, from position `i` on: what stays, and what the fresh bucket
      holds once everything else has been added to it. */
  function Split(c: Chain, nodes: seq<NodeInfo>, i: nat, moved: seq<NodeInfo>): (r: (seq<NodeInfo>, seq<NodeInfo>))
    requires i <= |nodes|
    ensures |r.0| <= |nodes| && |r.1| <= |nodes| + |moved| && |r.0| + |r.1| <= |nodes| + |moved|
    decreases |nodes| - i
  {
    if i == |nodes| then (nodes, moved)
    else if c.Belongs(nodes[i].id) then Split(c, nodes, i + 1, moved)
    else Split(c, SwapRemove(nodes, i), i, AddOrUpdate(moved, c.k, nodes[i]))
  }

  /** What every operation keeps about the links: consecutive indices, one owner, one capacity. */
  ghost predicate Shape(c: Chain) {
    && c.index <= MAX_BUCKET_INDEX
    && |c.nodes| <= c.k
    && (c.Link? ==> c.next.own == c.own && c.next.k == c.k && c.next.index == c.index + 1 && Shape(c.next))
  }

  /** The chain that a full last bucket becomes when it is split. */
  function SplitBucket(c: Chain): Chain
    requires c.Last?
  {
    var (kept, moved) := Split(c, c.nodes, 0, []);
    Link(c.own, c.k, c.index, kept, Last(c.own, c.k, c.index + 1, moved))
  }

  function Add(c: Chain, n: NodeInfo): Chain
    requires Shape(c)
    decreases MAX_BUCKET_INDEX - c.index
  {
    if c.Last? && |c.nodes| < c.k then c.(nodes := AddOrUpdate(c.nodes, c.k, n))
    else if c.Last? && c.index == MAX_BUCKET_INDEX then c
    else
      var d := if c.Last? then SplitBucket(c) else c;
      if d.Belongs(n.id) then d.(nodes := AddOrUpdate(d.nodes, d.k, n)) else d.(next := Add(d.next, n))
  }

  // ----- remove -----

  function Remove(c: Chain, id: U160): (Chain, bool) {
    if c.Last? || c.Belongs(id) then
      var p := FindFirst(c.nodes, id);
      if p >= 0 then (c.(nodes := c.nodes[..p] + c.nodes[p + 1..]), true) else (c, false)
    else
      var (next, found) := Remove(c.next, id);
      (c.(next := next), found)
  }

  // ----- lookup -----

  function Take(nodes: seq<NodeInfo>, n: nat): (r: seq<NodeInfo>)
    ensures |r| <= n && |r| <= |nodes|
  {
    if |nodes| <= n then nodes else nodes[..n]
  }

  /** The first stage of a lookup: what the next bucket answers when the target lies beyond. */
  function Near(c: Chain, id: U160): (r: seq<NodeInfo>)
    requires Shape(c)
    ensures |r| <= c.k
    decreases c, 0
  {
    if c.Link? && !c.Belongs(id) then Lookup(c.next, id) else []
  }

  /** Then as many of the bucket's own nodes as there is room for. */
  function Here(c: Chain, id: U160): (r: seq<NodeInfo>)
    requires Shape(c)
    ensures |r| <= c.k
    decreases c, 1
  {
    Near(c, id) + Take(c.nodes, c.k - |Near(c, id)|)
  }

  function Lookup(c: Chain, id: U160): (r: seq<NodeInfo>)
    requires Shape(c)
    ensures |r| <= c.k
    decreases c, 2
  {
    var here := Here(c, id);
    if |here| < c.k && c.Link? then here + Take(Lookup(c.next, id), c.k - |here|) else here
  }

  /** A removal keeps the order of the vector it takes the node from: the nodes before the removed one
      stay, and those after it move up by one. */
  lemma RemovalKeepsOrder(c: Chain, id: U160, p: nat)
    requires (c.Last? || c.Belongs(id)) && p < |c.nodes| && c.nodes[p].id == id
    requires forall i :: 0 <= i < p ==> c.nodes[i].id != id
    ensures var r := Remove(c, id).0.nodes;
      |r| == |c.nodes| - 1 && forall i :: 0 <= i < |r| ==> r[i] == c.nodes[if i < p then i else i + 1]
  {
    assert FindFirst(c.nodes, id) == p;
  }

  // ----- what the table stores -----

  function Contents(c: Chain): seq<NodeInfo> {
    c.nodes + if c.Link? then Contents(c.next) else []
  }

  predicate Stored(c: Chain, id: U160) { HasId(Contents(c), id) }

  /** The bucket where the descent for an identifier stops. */
  function Home(c: Chain, id: U160): (h: Chain)
    ensures h.Last? || h.Belongs(id)
  {
    if c.Link? && !c.Belongs(id) then Home(c.next, id) else c
  }

  /** Every node sits where the first bit in which it differs from the owner puts it, and no
      bucket repeats an identifier. */
  ghost predicate Placed(c: Chain) {
    && DistinctIds(c.nodes)
    && (forall i :: 0 <= i < |c.nodes| ==>
          SharePrefix(c.own, c.nodes[i].id, c.index) && (c.Link? ==> c.Belongs(c.nodes[i].id)))
    && (c.Link? ==> Placed(c.next))
  }

  /** A bucket past index `i` exists only if k identifiers can share `i` bits with the owner. */
  ghost predicate Roomy(c: Chain)
    requires Shape(c)
  {
    c.Link? ==> c.k <= Pow2(160 - c.index) && Roomy(c.next)
  }

  /** The invariant of the routing table. */
  ghost predicate Inv(c: Chain) {
    Shape(c) && Placed(c) && Roomy(c)
  }
}

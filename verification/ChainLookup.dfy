/** What `lookup` returns: which stored nodes, how many, without repetition exactly when, and how
    near to the target. */
module ChainLookup {
  import opened Bits
  import opened U160s
  import opened NodeInfos
  import opened Chains
  import opened ChainUpdates

  function Total(c: Chain): nat { |Contents(c)| }

  // ----- soundness, completeness, length -----

  /** Only stored nodes are returned. */
  lemma {:induction false} LookupIsSound(c: Chain, id: U160)
    requires Shape(c)
    ensures forall x :: x in Lookup(c, id) ==> x in Contents(c)
  {
    assert Here(c, id) == Near(c, id) + Take(c.nodes, c.k - |Near(c, id)|);
    if c.Link? { LookupIsSound(c.next, id); }
  }

  /** An answer shorter than k holds every stored node. */
  lemma {:induction false} ShortAnswerIsComplete(c: Chain, id: U160)
    requires Shape(c) && |Lookup(c, id)| < c.k
    ensures forall x :: x in Contents(c) ==> x in Lookup(c, id)
  {
    if c.Link? {
      ShortAnswerIsComplete(c.next, id);
    }
  }

  /** An answer holds at least min(k, stored) entries and at most k, so that neither gap of the
      computation is negative. */
  lemma {:induction false} AnswerLength(c: Chain, id: U160)
    requires Shape(c)
    ensures Min(c.k, Total(c)) <= |Lookup(c, id)| <= c.k
  {
    if c.Link? { AnswerLength(c.next, id); }
  }

  // ----- repetition -----

  /** No link has a non-empty tail while its whole sub-chain holds fewer than k nodes. */
  predicate GapFree(c: Chain) {
    c.Link? ==> (Total(c.next) == 0 || Total(c) >= c.k) && GapFree(c.next)
  }

  lemma DistinctConcat(a: seq<NodeInfo>, b: seq<NodeInfo>)
    requires DistinctIds(a) && DistinctIds(b) && Apart(a, b)
    ensures DistinctIds(a + b)
  {
  }

  lemma TakeDistinct(a: seq<NodeInfo>, n: nat)
    requires DistinctIds(a)
    ensures DistinctIds(Take(a, n))
  {
  }

  lemma ApartFromRest(c: Chain, a: seq<NodeInfo>, b: seq<NodeInfo>)
    requires Shape(c) && Placed(c) && c.Link?
    requires forall x :: x in a ==> x in Contents(c.next)
    requires forall x :: x in b ==> x in c.nodes
    ensures Apart(a, b) && Apart(b, a)
  {
    forall i, j | 0 <= i < |a| && 0 <= j < |b| ensures a[i].id != b[j].id {
      assert a[i] in a && b[j] in b;
      StoredAtHome(c.next, a[i]);
      BelongsIffDiffers(c, b[j].id);
    }
  }

  lemma {:induction false} GapFreeLength(c: Chain, id: U160)
    requires Shape(c) && GapFree(c)
    ensures |Lookup(c, id)| == Min(c.k, Total(c))
  {
    assert Here(c, id) == Near(c, id) + Take(c.nodes, c.k - |Near(c, id)|);
    if c.Link? { GapFreeLength(c.next, id); }
  }

  /** Nodes of the first bucket and of later ones, each part without repetition. */
  lemma DistinctAcross(c: Chain, here: seq<NodeInfo>, deeper: seq<NodeInfo>)
    requires Shape(c) && Placed(c) && c.Link? && DistinctIds(here) && DistinctIds(deeper)
    requires forall x :: x in here ==> x in c.nodes
    requires forall x :: x in deeper ==> x in Contents(c.next)
    ensures DistinctIds(here + deeper) && DistinctIds(deeper + here)
  {
    ApartFromRest(c, deeper, here);
    DistinctConcat(here, deeper);
    DistinctConcat(deeper, here);
  }

  /** The answer of the bucket where the descent stops: its own nodes, then deeper ones. */
  function Deeper(c: Chain, id: U160): seq<NodeInfo>
    requires Shape(c)
  {
    if c.Link? then Take(Lookup(c.next, id), c.k - |Take(c.nodes, c.k)|) else []
  }

  lemma AnswerWhereItStops(c: Chain, id: U160)
    requires Shape(c) && (c.Last? || c.Belongs(id))
    ensures Lookup(c, id) == Take(c.nodes, c.k) + Deeper(c, id)
    ensures c.Link? ==> forall x :: x in Deeper(c, id) ==> x in Contents(c.next)
  {
    assert Near(c, id) == [];
    assert Here(c, id) == [] + Take(c.nodes, c.k) == Take(c.nodes, c.k);
    if c.Link? { LookupIsSound(c.next, id); }
  }

  lemma AnswerOnTheWay(c: Chain, id: U160)
    requires Shape(c) && GapFree(c) && c.Link? && !c.Belongs(id)
    ensures var near := Lookup(c.next, id); Lookup(c, id) == near + Take(c.nodes, c.k - |near|)
  {
    GapFreeLength(c.next, id);
    var near := Lookup(c.next, id);
    assert near == Near(c, id);
    assert Here(c, id) == near + Take(c.nodes, c.k - |near|);
  }

  lemma DistinctWhereItStops(c: Chain, id: U160)
    requires Shape(c) && Placed(c) && (c.Last? || c.Belongs(id))
    requires c.Link? ==> DistinctIds(Lookup(c.next, id))
    ensures DistinctIds(Lookup(c, id))
  {
    AnswerWhereItStops(c, id);
    if c.Link? {
      TakeDistinct(Lookup(c.next, id), c.k - |Take(c.nodes, c.k)|);
      DistinctAcross(c, Take(c.nodes, c.k), Deeper(c, id));
    }
  }

  lemma TakeWithin(s: seq<NodeInfo>, n: nat)
    ensures forall x :: x in Take(s, n) ==> x in s
  {
  }

  lemma DistinctOnTheWay(c: Chain, id: U160)
    requires Shape(c) && Placed(c) && GapFree(c) && c.Link? && !c.Belongs(id)
    requires DistinctIds(Lookup(c.next, id))
    ensures DistinctIds(Lookup(c, id))
  {
    var near := Lookup(c.next, id);
    var here := Take(c.nodes, c.k - |near|);
    assert Lookup(c, id) == near + here by { AnswerOnTheWay(c, id); }
    assert DistinctIds(near + here) by {
      LookupIsSound(c.next, id);
      TakeWithin(c.nodes, c.k - |near|);
      TakeDistinct(c.nodes, c.k - |near|);
      DistinctAcross(c, here, near);
    }
  }

  lemma {:induction false} GapFreeDistinct(c: Chain, id: U160)
    requires Shape(c) && Placed(c) && GapFree(c)
    ensures DistinctIds(Lookup(c, id))
  {
    if c.Link? { GapFreeDistinct(c.next, id); }
    if c.Last? || c.Belongs(id) { DistinctWhereItStops(c, id); } else { DistinctOnTheWay(c, id); }
  }

  lemma GapFreeAnswer(c: Chain, id: U160)
    requires Shape(c) && Placed(c) && GapFree(c)
    ensures DistinctIds(Lookup(c, id)) && |Lookup(c, id)| == Min(c.k, Total(c))
  {
    GapFreeDistinct(c, id);
    GapFreeLength(c, id);
  }

  /** The owner's own identifier descends to the last bucket, and meets every gap on its way. */
  lemma {:induction false} GapRepeats(c: Chain)
    requires Shape(c) && Placed(c) && !GapFree(c)
    ensures !DistinctIds(Lookup(c, c.own))
  {
    BelongsIffDiffers(c, c.own);
    var near := Lookup(c.next, c.own);
    var answer := Lookup(c, c.own);
    assert near == Near(c, c.own);
    assert Here(c, c.own) == near + Take(c.nodes, c.k - |near|) && near <= answer;
    if !GapFree(c.next) {
      GapRepeats(c.next);
      var i, j :| 0 <= i < j < |near| && near[i].id == near[j].id;
      assert answer[i] == near[i] && answer[j] == near[j];
    } else {
      GapFreeAnswer(c.next, c.own);
      assert |near + c.nodes| < c.k;
      assert answer[0] == near[0] && answer[|near| + |c.nodes|] == near[0];
    }
  }

  /** Lookup answers every target without repetition exactly when the chain is free of gaps. */
  lemma AnswersDistinctIffGapFree(c: Chain)
    requires Shape(c) && Placed(c)
    ensures (forall id :: DistinctIds(Lookup(c, id))) <==> GapFree(c)
  {
    if GapFree(c) {
      forall id ensures DistinctIds(Lookup(c, id)) { GapFreeAnswer(c, id); }
    } else {
      GapRepeats(c);
    }
  }

  /** The exact answer: in a gap-free chain every target gets min(k, stored) distinct nodes. */
  lemma ExactAnswer(c: Chain, id: U160)
    requires Inv(c) && GapFree(c)
    ensures DistinctIds(Lookup(c, id)) && |Lookup(c, id)| == Min(c.k, Total(c))
    ensures forall x :: x in Lookup(c, id) ==> x in Contents(c)
  {
    GapFreeAnswer(c, id);
    LookupIsSound(c, id);
  }

  // ----- runs of adds -----

  /** Every bucket with a successor heads a sub-chain of at least k nodes. */
  predicate Dense(c: Chain) {
    c.Link? ==> Total(c) >= c.k && Dense(c.next)
  }

  lemma {:induction false} DenseIsGapFree(c: Chain)
    requires Dense(c)
    ensures GapFree(c)
  {
    if c.Link? { DenseIsGapFree(c.next); }
  }

  lemma TotalIsSize(c: Chain)
    ensures Total(c) == |multiset(Contents(c))|
  {
  }

  lemma AddNeverShrinks(c: Chain, n: NodeInfo)
    requires Inv(c) && SharePrefix(c.own, n.id, c.index)
    ensures Total(c) <= Total(Add(c, n))
  {
    var d := Add(c, n);
    AddKeepsInv(c, n);
    OutcomeNeverShrinks(Stored(c, n.id), multiset(Contents(c)), multiset(Contents(d)), n, Home(d, n.id));
    TotalIsSize(c);
    TotalIsSize(d);
  }

  lemma {:induction false} AddKeepsDense(c: Chain, n: NodeInfo)
    requires Inv(c) && SharePrefix(c.own, n.id, c.index) && Dense(c)
    ensures Dense(Add(c, n))
    decreases MAX_BUCKET_INDEX - c.index, c.Last?
  {
    AddNeverShrinks(c, n);
    if c.Last? && |c.nodes| == c.k && c.index < MAX_BUCKET_INDEX {
      SplitKeepsInv(c);
      TotalIsSize(c);
      TotalIsSize(SplitBucket(c));
      AddSplits(c, n);
      AddKeepsDense(SplitBucket(c), n);
    } else if c.Link? && !c.Belongs(n.id) {
      DescentExtendsPrefix(c, n.id);
      AddKeepsDense(c.next, n);
    }
  }

  /** Any run of adds alone leaves a chain whose answers are exact for every target. */
  lemma {:induction false} AddsAloneStayExact(own: U160, k: nat, ops: seq<Op>)
    requires forall i :: 0 <= i < |ops| ==> ops[i].Insert?
    ensures Dense(Run(own, k, ops)) && GapFree(Run(own, k, ops))
  {
    if ops != [] {
      AddsAloneStayExact(own, k, ops[..|ops| - 1]);
      AddKeepsDense(Run(own, k, ops[..|ops| - 1]), ops[|ops| - 1].node);
    }
    DenseIsGapFree(Run(own, k, ops));
  }

  // ----- nearness -----

  /** How deep a prefix the table can tell apart for a target. */
  function BandCap(c: Chain, id: U160): nat {
    var home := Home(c, id);
    if home.Link? then home.index + 1 else home.index
  }

  /** The prefix a node shares with the target, as far as the table can tell. */
  function Band(c: Chain, id: U160, x: NodeInfo): nat {
    Min(CommonPrefix(id, x.id), BandCap(c, id))
  }

  lemma PrefixBetween(own: U160, id: U160, x: U160, n: nat)
    requires n < ID_BITS && SharePrefix(own, id, n) && SharePrefix(own, x, n)
    ensures CommonPrefix(id, x) >= n
    ensures CommonPrefix(id, x) == n <==> id.GetBit(n) != x.GetBit(n)
  {
    SharePrefixMeans(own, id, n);
    SharePrefixMeans(own, x, n);
    SharePrefixMeans(id, x, n);
    CommonPrefixIsLongest(id, x, n);
    CommonPrefixIsLongest(id, x, n + 1);
  }

  lemma {:induction false} HomeIndex(c: Chain, id: U160)
    requires Shape(c)
    ensures c.index <= Home(c, id).index <= MAX_BUCKET_INDEX
  {
    if c.Link? && !c.Belongs(id) { HomeIndex(c.next, id); }
  }

  /** Nodes of a bucket the descent passes share exactly its index with the target, and nodes of
      deeper buckets share more. */
  lemma PassedBands(c: Chain, id: U160, x: NodeInfo)
    requires Shape(c) && Placed(c) && SharePrefix(c.own, id, c.index) && c.Link? && !c.Belongs(id)
    requires x in Contents(c)
    ensures Band(c, id, x) == Band(c.next, id, x)
    ensures if x in c.nodes then Band(c, id, x) == c.index else Band(c, id, x) > c.index
  {
    HomeIndex(c.next, id);
    DescentExtendsPrefix(c, id);
    BelongsIffDiffers(c, x.id);
    BelongsIffDiffers(c, id);
    if x in c.nodes {
      PrefixBetween(c.own, id, x.id, c.index);
    } else {
      StoredAtHome(c.next, x);
      PrefixBetween(c.own, id, x.id, c.index);
    }
  }

  /** Where the descent stops, its nodes reach the cap and deeper ones fall one short of it. */
  lemma HomeBands(c: Chain, id: U160, x: NodeInfo)
    requires Shape(c) && Placed(c) && SharePrefix(c.own, id, c.index) && (c.Last? || c.Belongs(id))
    requires x in Contents(c)
    ensures Band(c, id, x) == if x in c.nodes then BandCap(c, id) else c.index
  {
    StoredAtHome(c, x);
    PrefixBetween(c.own, id, x.id, c.index);
    BelongsIffDiffers(c, x.id);
    BelongsIffDiffers(c, id);
    if x !in c.nodes {
      StoredAtHome(c.next, x);
    }
  }

  lemma BandOptimalAtHome(c: Chain, id: U160, omitted: NodeInfo, returned: NodeInfo)
    requires Shape(c) && Placed(c) && SharePrefix(c.own, id, c.index) && (c.Last? || c.Belongs(id))
    requires omitted in Contents(c) && omitted !in Lookup(c, id) && returned in Contents(c)
    ensures Band(c, id, omitted) <= Band(c, id, returned)
  {
    AnswerWhereItStops(c, id);
    HomeIndex(c, id);
    HomeBands(c, id, omitted);
    HomeBands(c, id, returned);
  }

  /** Band-optimality: no omitted node shares a longer prefix with the target, as far as the
      table can tell, than any returned one. */
  lemma {:induction false} LookupIsBandOptimal(c: Chain, id: U160, omitted: NodeInfo, returned: NodeInfo)
    requires Shape(c) && Placed(c) && SharePrefix(c.own, id, c.index)
    requires omitted in Contents(c) && omitted !in Lookup(c, id) && returned in Lookup(c, id)
    ensures Band(c, id, omitted) <= Band(c, id, returned)
  {
    LookupIsSound(c, id);
    if c.Last? || c.Belongs(id) {
      BandOptimalAtHome(c, id, omitted, returned);
    } else {
      PassedBands(c, id, omitted);
      PassedBands(c, id, returned);
      var near := Lookup(c.next, id);
      assert near == Near(c, id) && Here(c, id) == near + Take(c.nodes, c.k - |near|);
      if |near| < c.k { ShortAnswerIsComplete(c.next, id); }
      if omitted in Contents(c.next) && returned in near {
        DescentExtendsPrefix(c, id);
        LookupIsBandOptimal(c.next, id, omitted, returned);
      }
    }
  }

  /** A node strictly closer than a returned one is omitted only when both lie in one band. */
  lemma MissedOnlyWithinBand(c: Chain, id: U160, omitted: NodeInfo, returned: NodeInfo)
    requires Shape(c) && Placed(c) && SharePrefix(c.own, id, c.index)
    requires omitted in Contents(c) && omitted !in Lookup(c, id) && returned in Lookup(c, id)
    requires id.Distance(omitted.id).Less(id.Distance(returned.id))
    ensures Band(c, id, omitted) == Band(c, id, returned)
  {
    LookupIsBandOptimal(c, id, omitted, returned);
    if Band(c, id, omitted) < Band(c, id, returned) {
      LongerPrefixIsCloser(id, returned.id, omitted.id);
      assert false;
    }
  }

  ghost predicate BandsDescend(c: Chain, id: U160, s: seq<NodeInfo>) {
    forall i, j :: 0 <= i < j < |s| ==> Band(c, id, s[i]) >= Band(c, id, s[j])
  }

  lemma BandsDescendConcat(c: Chain, id: U160, a: seq<NodeInfo>, b: seq<NodeInfo>, bound: nat)
    requires BandsDescend(c, id, a) && (forall x :: x in a ==> Band(c, id, x) >= bound)
    requires forall x :: x in b ==> Band(c, id, x) == bound
    ensures BandsDescend(c, id, a + b)
  {
    forall i, j | 0 <= i < j < |a + b| ensures Band(c, id, (a + b)[i]) >= Band(c, id, (a + b)[j]) {
      if i < |a| { assert a[i] in a; } else { assert b[i - |a|] in b; }
      if j >= |a| { assert b[j - |a|] in b; }
    }
  }

  lemma OrderedAtHome(c: Chain, id: U160, here: seq<NodeInfo>, tail: seq<NodeInfo>)
    requires Shape(c) && Placed(c) && SharePrefix(c.own, id, c.index) && (c.Last? || c.Belongs(id))
    requires forall x :: x in here ==> x in c.nodes
    requires if c.Last? then tail == [] else forall x :: x in tail ==> x in Contents(c.next)
    ensures BandsDescend(c, id, here + tail)
  {
    if c.Link? { ApartFromRest(c, tail, c.nodes); }
    forall x | x in here ensures Band(c, id, x) == BandCap(c, id) {
      HomeBands(c, id, x);
    }
    forall x | x in tail ensures Band(c, id, x) == c.index {
      HomeBands(c, id, x);
    }
    assert [] + here == here;
    BandsDescendConcat(c, id, [], here, BandCap(c, id));
    BandsDescendConcat(c, id, here, tail, c.index);
  }

  lemma OrderedOnTheWay(c: Chain, id: U160, near: seq<NodeInfo>, here: seq<NodeInfo>)
    requires Shape(c) && Placed(c) && SharePrefix(c.own, id, c.index) && c.Link? && !c.Belongs(id)
    requires BandsDescend(c.next, id, near)
    requires (forall x :: x in near ==> x in Contents(c.next)) && (forall x :: x in here ==> x in c.nodes)
    ensures BandsDescend(c, id, near + here)
  {
    ApartFromRest(c, near, here);
    ApartFromRest(c, Contents(c.next), c.nodes);
    forall x | x in Contents(c)
      ensures Band(c, id, x) == Band(c.next, id, x)
      ensures if x in c.nodes then Band(c, id, x) == c.index else Band(c, id, x) > c.index
    {
      PassedBands(c, id, x);
    }
    forall x | x in near ensures Band(c, id, x) > c.index && Band(c, id, x) == Band(c.next, id, x) {
      assert x in Contents(c) && x !in c.nodes;
    }
    BandsDescendConcat(c, id, near, here, c.index);
  }

  lemma OrderedWhereItStops(c: Chain, id: U160)
    requires Shape(c) && Placed(c) && SharePrefix(c.own, id, c.index) && (c.Last? || c.Belongs(id))
    ensures BandsDescend(c, id, Lookup(c, id))
  {
    AnswerWhereItStops(c, id);
    OrderedAtHome(c, id, Take(c.nodes, c.k), Deeper(c, id));
  }

  lemma OrderedPast(c: Chain, id: U160)
    requires Shape(c) && Placed(c) && SharePrefix(c.own, id, c.index) && GapFree(c)
    requires c.Link? && !c.Belongs(id) && BandsDescend(c.next, id, Lookup(c.next, id))
    ensures BandsDescend(c, id, Lookup(c, id))
  {
    var near := Lookup(c.next, id);
    var here := Take(c.nodes, c.k - |near|);
    assert Lookup(c, id) == near + here by { AnswerOnTheWay(c, id); }
    assert BandsDescend(c, id, near + here) by {
      LookupIsSound(c.next, id);
      TakeWithin(c.nodes, c.k - |near|);
      OrderedOnTheWay(c, id, near, here);
    }
  }

  /** In a gap-free chain the answer runs from the longest shared prefix to the shortest. */
  lemma {:induction false} AnswerIsOrderedByBand(c: Chain, id: U160)
    requires Shape(c) && Placed(c) && SharePrefix(c.own, id, c.index) && GapFree(c)
    ensures BandsDescend(c, id, Lookup(c, id))
  {
    if c.Last? || c.Belongs(id) {
      OrderedWhereItStops(c, id);
    } else {
      DescentExtendsPrefix(c, id);
      AnswerIsOrderedByBand(c.next, id);
      OrderedPast(c, id);
    }
  }
}

/** What the sweep makes of each answer, said of the answer itself: which nodes it queues, which query
    it starts next, and when it starts a backfill. */
module SweepAnswers {
  import opened Bits
  import opened U160s
  import opened NodeInfos
  import opened Sweeps

  // ----- the reported nodes -----

  lemma {:induction false} EntersExactlyAbove(s: State, target: U160, nodes: seq<NodeInfo>, id: U160)
    ensures id in EnterAll(s, target, nodes).queried <==>
      id in s.queried || exists n :: n in nodes && n.id == id && target.Less(id)
  {
    if nodes != [] {
      var init, last := nodes[..|nodes| - 1], nodes[|nodes| - 1];
      assert nodes == init + [last];
      EntersExactlyAbove(s, target, init, id);
    }
  }

  /** The node that finishes in a round, and what the program learns from it: the nodes that come with
      samples, or else the nearest nodes. */
  predicate Reports(s: State, c: Choice, n: NodeInfo)
    requires s.tasks != []
  {
    s.tasks[c.finishing % |s.tasks|].id.Less(n.id)
    && match c.sampling
       case Samples(nodes, _) => n in nodes
       case _ => c.finding.Nearest? && n in c.finding.nodes
  }

  lemma LearnedIsTakenIn(s: State, target: U160, nodes: seq<NodeInfo>, c: Choice, n: NodeInfo)
    requires Tidy(s) && n in nodes && target.Less(n.id)
    ensures n.id in Meanwhile(Absorbed(s, target, nodes, c), c.beforeNext).queried
  {
    var gap := Meanwhile(s, c.beforeGap);
    MeanwhileKeeps(s, c.beforeGap);
    EntersExactlyAbove(gap, target, nodes, n.id);
    EnterAllKeeps(gap, target, nodes);
    MeanwhileKeeps(EnterAll(gap, target, nodes), c.beforeNext);
  }

  lemma AnswerIsTakenIn(s: State, c: Choice, n: NodeInfo)
    requires Sweeping(s) && s.tasks != [] && Reports(s, c, n)
    ensures n.id in Handled(s, c).queried
  {
    var i, reply := c.finishing % |s.tasks|, QueryOne(c.sampling, c.finding);
    AnsweredKeeps(s, i, reply);
    assert n in reply.nodes;
    LearnedIsTakenIn(Answered(s, i, reply), s.tasks[i].id, reply.nodes, c, n);
  }

  /** Nodes reported together with samples are seen if they lie above the queried one. */
  lemma NodesWithSamplesAreTakenIn(s: State, c: Choice, n: NodeInfo)
    requires Sweeping(s) && s.tasks != []
    requires c.sampling.Samples? && n in c.sampling.nodes && s.tasks[c.finishing % |s.tasks|].id.Less(n.id)
    ensures n.id in Handled(s, c).queried
  {
    AnswerIsTakenIn(s, c, n);
  }

  /** So are the nearest nodes of one that gives no samples. */
  lemma NearestNodesAreTakenIn(s: State, c: Choice, n: NodeInfo)
    requires Sweeping(s) && s.tasks != [] && !c.sampling.Samples?
    requires c.finding.Nearest? && n in c.finding.nodes && s.tasks[c.finishing % |s.tasks|].id.Less(n.id)
    ensures n.id in Handled(s, c).queried
  {
    AnswerIsTakenIn(s, c, n);
  }

  lemma FinishedId(s: State, c: Choice, m: NodeInfo)
    requires Sweeping(s) && s.tasks != [] && m in multiset(Handled(s, c).finished)
    ensures m.id in s.queried
  {
    var i := c.finishing % |s.tasks|;
    BeforeNext(s, c);
    assert Handled(s, c).finished == s.finished + [s.tasks[i]];
    assert m in multiset(s.finished) + multiset(s.tasks) by {
      if m == s.tasks[i] { assert m in multiset(s.tasks); } else { assert m in s.finished; }
    }
    assert m in multiset(Nodes(s.entered));
    var j :| 0 <= j < |s.entered| && Nodes(s.entered)[j] == m;
  }

  /** A reported node that is new waits in the queue or is in flight once the round is over, it or
      another address of it. */
  lemma NewIsQueued(s: State, c: Choice, n: NodeInfo) returns (m: NodeInfo)
    requires Sweeping(s) && s.tasks != [] && Reports(s, c, n) && n.id !in s.queried
    ensures m.id == n.id && (m in Handled(s, c).toSend || m in Handled(s, c).tasks)
  {
    var t := Handled(s, c);
    AnswerIsTakenIn(s, c, n);
    HandledKeeps(s, c);
    var i :| 0 <= i < |t.entered| && t.entered[i].node.id == n.id;
    m := t.entered[i].node;
    assert Nodes(t.entered)[i] == m;
    assert m in multiset(t.toSend) + multiset(t.tasks) + multiset(t.finished);
    if m in multiset(t.finished) { FinishedId(s, c, m); }
  }

  // ----- the backfill -----

  /** While a backfill searches, what it stores is queued as if reported for its target; at any other
      time nothing is stored. */
  lemma BackfillStoresExactly(s: State, e: Event, id: U160)
    ensures id in Meanwhile(s, e).queried <==>
      || id in s.queried
      || (s.backfill.Searching? && e.Stores? && s.backfill.target.Less(id) && exists n :: n in e.nodes && n.id == id)
  {
    if e.Stores? && s.backfill.Searching? { EntersExactlyAbove(s, s.backfill.target, e.nodes, id); }
  }

  const TWO_110: nat := 0x4000_0000_0000_0000_0000_0000_0000

  lemma Width110()
    ensures Pow2(110) == TWO_110
  {
    Width32();
    assert Pow2(7) == 0x80;
    Pow2Add(7, 7);
    Pow2Add(32, 32);
    Pow2Add(64, 32);
    Pow2Add(96, 14);
  }

  /** A distance is more than the large gap when one of its first 18 bits is set. */
  lemma GapBits(d: U160)
    ensures LARGE_GAP.Less(d) <==> exists i: nat :: i < 18 && d.GetBit(i)
  {
    Width110();
    Widths();
    assert LARGE_GAP.Less(d) <==> d.ms >= TWO_110;
    if d.ms < TWO_110 {
      forall i: nat | i < 18 ensures !d.GetBit(i) { BitHigh(d.ms, 110, 127 - i); }
    } else if forall i: nat :: i < 18 ==> !d.GetBit(i) {
      forall i: nat | 110 <= i < 128 ensures !Bit(d.ms, i) { assert !d.GetBit(127 - i); }
      LowBitsOnly(d.ms, 110, 128);
    }
  }

  lemma {:induction false} EnteringStartsNothing(s: State, target: U160, nodes: seq<NodeInfo>)
    ensures EnterAll(s, target, nodes).backfills == s.backfills
  {
    if nodes != [] { EnteringStartsNothing(s, target, nodes[..|nodes| - 1]); }
  }

  lemma EventsStartNothing(s: State, e: Event)
    ensures Meanwhile(s, e).backfills == s.backfills
  {
    if e.Stores? && s.backfill.Searching? { EnteringStartsNothing(s, s.backfill.target, e.nodes); }
  }

  /** Two identifiers are far apart when they differ within the first 18 bits. */
  lemma FarMeansFirstBits(a: U160, b: U160)
    ensures LARGE_GAP.Less(a.Distance(b)) <==> exists i: nat :: i < 18 && a.GetBit(i) != b.GetBit(i)
  {
    GapBits(a.Distance(b));
    forall i: nat ensures a.Distance(b).GetBit(i) == (a.GetBit(i) != b.GetBit(i)) { DistanceBit(a, b, i); }
  }

  /** An answer without nodes starts a backfill for its target exactly when the head of the queue
      differs from the target within the first 18 bits and no backfill is under way. */
  lemma BackfillStartsExactlyWhen(s: State, target: U160, c: Choice)
    ensures var a := Meanwhile(s, c.beforeGap);
      NoNodes(s, target, c).backfills > s.backfills <==>
        && a.toSend != {} && Meanwhile(a, c.beforeStart).backfill.Idle?
        && exists i: nat :: i < 18 && First(a.toSend).id.GetBit(i) != target.GetBit(i)
    ensures NoNodes(s, target, c).backfills > s.backfills ==> NoNodes(s, target, c).backfill == Searching(target)
  {
    var a := Meanwhile(s, c.beforeGap);
    EventsStartNothing(s, c.beforeGap);
    EventsStartNothing(a, c.beforeStart);
    if a.toSend != {} { FarMeansFirstBits(First(a.toSend).id, target); }
  }

  /** The answer of a round names no node at all. */
  predicate EmptyAnswer(c: Choice) {
    if c.sampling.Samples? then c.sampling.nodes == [] else c.finding.Nearest? ==> c.finding.nodes == []
  }

  /** A round starts a backfill exactly when its answer is empty and the queue has such a gap. */
  lemma OnlyEmptyAnswersBackfill(s: State, c: Choice)
    requires s.tasks != []
    ensures var i := c.finishing % |s.tasks|;
      var answered := Answered(s, i, QueryOne(c.sampling, c.finding));
      Handled(s, c).backfills > s.backfills <==>
        EmptyAnswer(c) && NoNodes(answered, s.tasks[i].id, c).backfills > s.backfills
  {
    var i, reply := c.finishing % |s.tasks|, QueryOne(c.sampling, c.finding);
    var answered := Answered(s, i, reply);
    EventsStartNothing(answered, c.beforeGap);
    EventsStartNothing(Absorbed(answered, s.tasks[i].id, reply.nodes, c), c.beforeNext);
    if reply.nodes != [] { EnteringStartsNothing(Meanwhile(answered, c.beforeGap), s.tasks[i].id, reply.nodes); }
  }

  /** A backfill searches for one target until it stores its nodes, and is under way until it then ends,
      at once or later. */
  lemma BackfillsEndAfterStoring(s: State, e: Event)
    ensures var t := Meanwhile(s, e);
      && (t.backfill.Searching? <==> s.backfill.Searching? && !e.Stores?)
      && (t.backfill.Searching? ==> t.backfill == s.backfill)
      && (t.backfill.Idle? <==> match s.backfill
                                case Idle => true
                                case Searching(_) => e.Stores? && e.ends
                                case Stored => e.Ends?)
      && (s.backfill.Idle? ==> t == s)
  {
  }

  // ----- the next query -----

  /** Each answer starts one query as long as any node waits, and it goes to the least waiting node:
      a sweep moves upwards through the key space. */
  lemma NextIsLeast(s: State, c: Choice)
    requires Sweeping(s) && s.tasks != []
    ensures var t, i := Handled(s, c), c.finishing % |s.tasks|;
      var others := s.tasks[..i] + s.tasks[i + 1..];
      && (t.toSend != {} ==> |t.tasks| == |s.tasks|)
      && (t.tasks == others
          || (|t.tasks| == |s.tasks| && t.tasks[..|others|] == others
              && forall m :: m in t.toSend ==> t.tasks[|others|].Less(m)))
  {
    var i, reply := c.finishing % |s.tasks|, QueryOne(c.sampling, c.finding);
    var others := s.tasks[..i] + s.tasks[i + 1..];
    var ready := Meanwhile(Absorbed(Answered(s, i, reply), s.tasks[i].id, reply.nodes, c), c.beforeNext);
    BeforeNext(s, c);
    assert ready.tasks == others;
  }

  lemma {:induction false} LeastFirst(s: State, count: nat)
    requires s.tasks == []
    ensures var t := QueryMany(s, count);
      && (|t.tasks| == count || (|t.tasks| < count && t.toSend == {}))
      && (forall j, m :: 0 <= j < |t.tasks| && m in t.toSend ==> t.tasks[j].Less(m))
  {
    if count > 0 { LeastFirst(s, count - 1); }
  }

  /** The sweep begins with the 200 least seeds in flight, or with all if there are fewer. */
  lemma BeginsWithLeast(first: seq<NodeInfo>, second: seq<NodeInfo>)
    ensures var s := Begin(first, second);
      && (|s.tasks| == 200 || (|s.tasks| < 200 && s.toSend == {}))
      && (forall j, m :: 0 <= j < |s.tasks| && m in s.toSend ==> s.tasks[j].Less(m))
      && (forall n :: n in first || n in second <==> n in s.toSend || n in s.tasks)
  {
    var empty := State({}, {}, [], Idle, [], [], [], 0);
    var seeded := SeedAll(SeedAll(empty, first), second);
    SeedsWait(empty, first);
    SeedsWait(SeedAll(empty, first), second);
    LeastFirst(seeded, 200);
    NoneIsDropped(seeded, 200);
  }

  lemma {:induction false} SeedsWait(s: State, nodes: seq<NodeInfo>)
    ensures SeedAll(s, nodes).toSend == s.toSend + Members(nodes) && SeedAll(s, nodes).tasks == s.tasks
  {
    if nodes != [] {
      SeedsWait(s, nodes[..|nodes| - 1]);
      assert Members(nodes) == Members(nodes[..|nodes| - 1]) + {nodes[|nodes| - 1]};
    }
  }

  lemma {:induction false} NoneIsDropped(s: State, count: nat)
    requires s.tasks == []
    ensures var t := QueryMany(s, count); forall n :: n in s.toSend <==> n in t.toSend || n in t.tasks
  {
    if count > 0 {
      NoneIsDropped(s, count - 1);
      var t := QueryMany(s, count - 1);
      assert t.toSend != {} ==> forall n :: n in t.tasks + [First(t.toSend)] <==> n in t.tasks || n == First(t.toSend);
    }
  }
}

/** The router: a bounded window of banned identifiers over the bucket chain. */
module Routers {
  import opened U160s
  import opened NodeInfos
  import opened Chains
  import opened ChainUpdates
  import opened Buckets

  const BAN_COUNT: nat := 100

  datatype State = State(table: Chain, banned: seq<U160>)

  function Admit(s: State, n: NodeInfo): State
    requires Shape(s.table)
  {
    if n.id in s.banned then s else s.(table := Chains.Add(s.table, n))
  }

  /** The window after one more ban: the oldest entry leaves when the window is full. */
  function Push(banned: seq<U160>, id: U160): seq<U160> {
    var longer := banned + [id];
    if |longer| == BAN_COUNT then longer[1..] else longer
  }

  function Ban(s: State, id: U160): State {
    State(Remove(s.table, id).0, Push(s.banned, id))
  }

  /** The table is sound, the window is short, and nothing banned is stored. */
  ghost predicate Sound(s: State) {
    && Inv(s.table) && s.table.index == 0
    && |s.banned| < BAN_COUNT
    && forall id :: id in s.banned ==> !Stored(s.table, id)
  }

  lemma StoredByMultiset(c: Chain, d: Chain, id: U160)
    requires multiset(Contents(d)) <= multiset(Contents(c)) && Stored(d, id)
    ensures Stored(c, id)
  {
    HasIdWitness(Contents(d), id);
    var x :| x in Contents(d) && x.id == id;
    assert x in multiset(Contents(d));
    assert x in multiset(Contents(c));
    HasIdWitness(Contents(c), id);
  }

  lemma AddGainsOnly(c: Chain, n: NodeInfo)
    requires Inv(c) && c.index == 0
    ensures multiset(Contents(Chains.Add(c, n))) <= multiset(Contents(c)) + multiset{n}
  {
    AddKeepsInv(c, n);
    OutcomeGainsOnly(Stored(c, n.id), multiset(Contents(c)), multiset(Contents(Chains.Add(c, n))), n, Home(Chains.Add(c, n), n.id));
  }

  lemma OutcomeGainsOnly(known: bool, before: multiset<NodeInfo>, after: multiset<NodeInfo>, n: NodeInfo, home: Chain)
    requires Outcome(known, before, after, n, home)
    ensures after <= before + multiset{n}
  {
  }

  /** An add stores no identifier but the added one. */
  lemma AddStoresOnly(c: Chain, n: NodeInfo, id: U160)
    requires Inv(c) && c.index == 0 && id != n.id && Stored(Chains.Add(c, n), id)
    ensures Stored(c, id)
  {
    AddGainsOnly(c, n);
    StoredByOther(Contents(c), Contents(Chains.Add(c, n)), n, id);
  }

  lemma StoredByOther(before: seq<NodeInfo>, after: seq<NodeInfo>, n: NodeInfo, id: U160)
    requires multiset(after) <= multiset(before) + multiset{n} && id != n.id && HasId(after, id)
    ensures HasId(before, id)
  {
    HasIdWitness(after, id);
    var x :| x in after && x.id == id;
    assert x in multiset(after);
    assert x in multiset(before) + multiset{n};
    HasIdWitness(before, id);
  }

  /** An offer from a banned identifier changes nothing; any other node is added to the table, with
      the outcomes that an add can have, and the window stays. */
  lemma AdmitKeepsSound(s: State, n: NodeInfo)
    requires Sound(s)
    ensures Sound(Admit(s, n)) && Admit(s, n).banned == s.banned
    ensures n.id in s.banned ==> Admit(s, n) == s
    ensures n.id !in s.banned ==> AddOutcome(s.table, n, Admit(s, n).table)
  {
    if n.id !in s.banned {
      AddKeepsInv(s.table, n);
      forall id | id in s.banned ensures !Stored(Admit(s, n).table, id) {
        if Stored(Admit(s, n).table, id) { AddStoresOnly(s.table, n, id); }
      }
    }
  }

  lemma RemoveStoresNothing(c: Chain, gone: U160, id: U160)
    requires Inv(c) && !Stored(c, id)
    ensures !Stored(Remove(c, gone).0, id)
  {
    RemoveKeepsInv(c, gone);
    var (d, found) := Remove(c, gone);
    if found && Stored(d, id) {
      var x: NodeInfo :| x.id == gone && multiset(Contents(c)) == multiset(Contents(d)) + multiset{x};
      StoredByMultiset(c, d, id);
    }
  }

  /** A ban takes the identifier out of the table if it is stored, and nothing else. */
  lemma BanKeepsSound(s: State, id: U160)
    requires Sound(s)
    ensures Sound(Ban(s, id))
    ensures Remove(s.table, id).1 <==> Stored(s.table, id)
    ensures RemoveOutcome(s.table, id, Ban(s, id).table, Stored(s.table, id)) && id in Ban(s, id).banned
  {
    assert Push(s.banned, id)[|Push(s.banned, id)| - 1] == id;
    RemoveKeepsInv(s.table, id);
    forall b | b in Ban(s, id).banned ensures !Stored(Ban(s, id).table, b) {
      if b != id {
        assert b in s.banned;
        RemoveStoresNothing(s.table, id, b);
      }
    }
  }

  // ----- whole runs -----

  datatype Call = Offer(node: NodeInfo) | Banish(id: U160) | Query(id: U160)

  function Step(s: State, call: Call): State
    requires Sound(s)
  {
    match call
    case Offer(n) => Admit(s, n)
    case Banish(id) => Ban(s, id)
    case Query(_) => s
  }

  lemma StepKeepsSound(s: State, call: Call)
    requires Sound(s)
    ensures Sound(Step(s, call))
  {
    match call
    case Offer(n) => AdmitKeepsSound(s, n);
    case Banish(id) => BanKeepsSound(s, id);
    case Query(_) =>
  }

  /** The state that a sequence of calls makes of an empty table; sound after every run. */
  function Run(own: U160, k: nat, calls: seq<Call>): (s: State)
    ensures Sound(s)
  {
    if calls == [] then State(Root(own, k), [])
    else
      var before := Run(own, k, calls[..|calls| - 1]);
      StepKeepsSound(before, calls[|calls| - 1]);
      Step(before, calls[|calls| - 1])
  }

  /** What a call may make of the state. */
  ghost predicate Outcomes(before: State, call: Call, after: State) {
    && (call.Offer? ==> after.banned == before.banned)
    && (call.Offer? && call.node.id in before.banned ==> after.table == before.table)
    && (call.Offer? && call.node.id !in before.banned ==> AddOutcome(before.table, call.node, after.table))
    && (call.Banish? ==>
          call.id in after.banned && RemoveOutcome(before.table, call.id, after.table, Stored(before.table, call.id)))
    && (call.Query? ==> after == before)
  }

  lemma StepOutcomes(s: State, call: Call)
    requires Sound(s)
    ensures Outcomes(s, call, Step(s, call))
  {
    match call
    case Offer(n) => AdmitKeepsSound(s, n);
    case Banish(id) => BanKeepsSound(s, id);
    case Query(_) =>
  }

  /** After any run one more call adds, removes or leaves exactly what it should. */
  lemma RunOutcomes(own: U160, k: nat, calls: seq<Call>, call: Call)
    ensures Outcomes(Run(own, k, calls), call, Run(own, k, calls + [call]))
  {
    assert (calls + [call])[..|calls|] == calls;
    StepOutcomes(Run(own, k, calls), call);
  }

  /** A node that is offered to a fresh router is found by the next lookup. */
  lemma OfferedIsFound(own: U160, k: nat, n: NodeInfo)
    requires k > 0
    ensures Chains.Lookup(Run(own, k, [Offer(n)]).table, n.id) == [n]
  {
    var c := Run(own, k, [Offer(n)]).table;
    assert [Offer(n)][..0] == [];
    assert Run(own, k, []) == State(Root(own, k), []);
    assert [] + [n] == [n];
    assert c == Last(own, k, 0, [n]);
    assert Near(c, n.id) == [] && Here(c, n.id) == [n];
  }

  /** The identifiers banned by a sequence of calls, in order. */
  function Bans(calls: seq<Call>): seq<U160> {
    if calls == [] then []
    else
      var last := calls[|calls| - 1];
      Bans(calls[..|calls| - 1]) + if last.Banish? then [last.id] else []
  }

  function Latest(s: seq<U160>, n: nat): seq<U160> {
    if |s| <= n then s else s[|s| - n..]
  }

  lemma PushKeepsLatest(all: seq<U160>, id: U160)
    ensures Push(Latest(all, BAN_COUNT - 1), id) == Latest(all + [id], BAN_COUNT - 1)
  {
  }

  lemma {:induction false} WindowOfRun(own: U160, k: nat, calls: seq<Call>)
    ensures Run(own, k, calls).banned == Latest(Bans(calls), BAN_COUNT - 1)
  {
    if calls != [] {
      var earlier, last := calls[..|calls| - 1], calls[|calls| - 1];
      WindowOfRun(own, k, earlier);
      if last.Banish? {
        PushKeepsLatest(Bans(earlier), last.id);
      } else {
        assert Bans(calls) == Bans(earlier);
      }
    }
  }

  /** After every run the window holds exactly the last 99 banned identifiers, in order, and the
      table stores none of them. */
  lemma {:induction false} WindowIsLatestBans(own: U160, k: nat, calls: seq<Call>)
    ensures Run(own, k, calls).banned == Latest(Bans(calls), 99)
    ensures forall id :: id in Latest(Bans(calls), 99) ==> !Stored(Run(own, k, calls).table, id)
  {
    WindowOfRun(own, k, calls);
    assert Sound(Run(own, k, calls));
  }

  // ----- the program -----

  class Router {
    const buckets: Bucket
    var bannedIds: seq<U160>

    ghost predicate Valid()
      reads this, buckets, buckets.Repr
    {
      buckets.Valid() && Sound(State(buckets.View(), bannedIds))
    }

    ghost function View(): State
      requires Valid()
      reads this, buckets, buckets.Repr
    {
      State(buckets.View(), bannedIds)
    }

    constructor (ownId: U160, kSize: nat)
      ensures Valid() && View() == State(Root(ownId, kSize), []) && fresh(buckets.Repr)
    {
      buckets := new Bucket(ownId, kSize, 0);
      bannedIds := [];
    }

    method Add(node: NodeInfo)
      requires Valid()
      modifies buckets.Repr
      ensures Valid() && View() == Admit(old(View()), node) && fresh(buckets.Repr - old(buckets.Repr))
    {
      AdmitKeepsSound(View(), node);
      if node.id !in bannedIds {
        buckets.Add(node);
      }
    }

    method Lookup(id: U160) returns (nearest: seq<NodeInfo>)
      requires Valid()
      ensures nearest == Chains.Lookup(old(View()).table, id)
    {
      nearest := buckets.Lookup(id);
    }

    method BanId(id: U160)
      requires Valid()
      modifies this, buckets.Repr
      ensures Valid() && View() == Ban(old(View()), id) && buckets.Repr == old(buckets.Repr)
    {
      ghost var before := View();
      bannedIds := bannedIds + [id];
      if |bannedIds| == BAN_COUNT {
        bannedIds := bannedIds[1..];
      }
      assert bannedIds == Push(before.banned, id);
      var found := buckets.Remove(id);
      BanKeepsSound(before, id);
    }
  }
}

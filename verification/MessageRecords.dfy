/** How a received record is read: what it must hold to be a message, which error it gives otherwise,
    and what each optional field means. */
module MessageRecords {
  import opened U160s
  import opened NodeInfos
  import opened Wrappers
  import opened BigEndian
  import opened Messages

  /** The methods that have a name of their own. */
  predicate KnownMethod(name: string) {
    || name == "ping" || name == "find_node" || name == "get_peers" || name == "announce_peer"
    || name == "put" || name == "get" || name == "sample_infohashes"
  }

  /** What a query must carry, by the name of its method. */
  predicate HasArguments(name: string, a: MessageArgs) {
    && (name == "find_node" || name == "sample_infohashes" ==> a.target.Some?)
    && (name == "get_peers" || name == "announce_peer" ==> a.infoHash.Some?)
    && (name == "announce_peer" ==> a.token.Some?)
    && (!KnownMethod(name) ==> a.infoHash.Some? || a.target.Some?)
  }

  predicate HasParts(r: KResponse) {
    && (r.values.Some? ==> r.token.Some?)
    && (r.values.None? && r.bep44.v.None? && r.bep51.samples.Some? ==> r.nodes.Some?)
  }

  /** What a record must hold to be a message. */
  predicate Complete(k: KMessage) {
    || (k.messageType == "e" && k.error.Some?)
    || (k.messageType == "q" && k.arguments.Some? && k.queryMethod.Some? && HasArguments(k.queryMethod.value, k.arguments.value))
    || (k.messageType == "r" && k.response.Some? && HasParts(k.response.value))
  }

  /** A query of an unknown method that names no identifier at all. */
  predicate NamesNothing(k: KMessage) {
    && k.messageType == "q" && k.arguments.Some? && k.queryMethod.Some? && !KnownMethod(k.queryMethod.value)
    && k.arguments.value.infoHash.None? && k.arguments.value.target.None?
  }

  /** A record is a message exactly when it is complete; otherwise the method is unknown if the query
      names nothing, and the protocol is violated in every other case. */
  lemma ReceivedExactlyWhenComplete(from: SocketAddr, k: KMessage)
    ensures FromKmsg(from, k).Success? <==> Complete(k)
    ensures !Complete(k) ==> FromKmsg(from, k) == Failure(if NamesNothing(k) then MethodUnknown else Protocol)
  {
  }

  /** A peer is announced at the port of its packet when the record says so, or names no port. */
  lemma AnnouncedPort(from: SocketAddr, k: KMessage)
    requires Complete(k) && k.messageType == "q" && k.queryMethod == Some("announce_peer")
    ensures var a, m := k.arguments.value, FromKmsg(from, k).value;
      && m.Query? && m.method_.AnnouncePeer?
      && m.method_.infoHash == a.infoHash.value && m.method_.token == a.token.value
      && (a.impliedPort == Some(true) || a.port.None? ==> m.method_.port == from.port)
      && (a.impliedPort != Some(true) && a.port.Some? ==> m.method_.port == a.port.value)
  {
  }

  /** An unknown method is taken as a search: for the info hash if there is one, else for the target. */
  lemma UnknownMethodSearches(from: SocketAddr, k: KMessage)
    requires Complete(k) && k.messageType == "q" && !KnownMethod(k.queryMethod.value)
    ensures var a, m := k.arguments.value, FromKmsg(from, k).value;
      && m.Query? && m.method_.FindNode?
      && (a.infoHash.Some? ==> m.method_.target == a.infoHash.value)
      && (a.infoHash.None? ==> Some(m.method_.target) == a.target)
  {
  }

  // ----- answers -----

  /** Which kind an answer has, by the first of its fields that is there: peers, a value, samples, nodes. */
  lemma KindByFields(from: SocketAddr, k: KMessage)
    requires Complete(k) && k.messageType == "r"
    ensures FromKmsg(from, k).value.Response?
    ensures var r, kind := k.response.value, FromKmsg(from, k).value.kind;
      && (kind.Peers? <==> r.values.Some?)
      && (kind.Data? <==> r.values.None? && r.bep44.v.Some?)
      && (kind.Samples? <==> r.values.None? && r.bep44.v.None? && r.bep51.samples.Some?)
      && (kind.KNearest? <==> r.values.None? && r.bep44.v.None? && r.bep51.samples.None? && r.nodes.Some?)
  {
  }

  /** And what it holds: missing counts are zero, and tokens and nodes are those of the record. */
  lemma KindHolds(from: SocketAddr, k: KMessage)
    requires Complete(k) && k.messageType == "r"
    ensures FromKmsg(from, k).value.Response?
    ensures var r, kind := k.response.value, FromKmsg(from, k).value.kind;
      && (kind.Peers? ==> Some(kind.peersToken) == r.token && kind.closer == r.nodes)
      && (kind.Data? ==> kind.item == r.bep44)
      && (kind.Samples? ==>
            && Some(kind.nodes) == r.nodes && Some(kind.samples) == r.bep51.samples
            && (r.bep51.num.None? ==> kind.available == 0) && (r.bep51.num.Some? ==> Some(kind.available) == r.bep51.num)
            && (r.bep51.interval.None? ==> kind.interval == 0)
            && (r.bep51.interval.Some? ==> Some(kind.interval) == r.bep51.interval))
      && (kind.KNearest? ==> Some(kind.nodes) == r.nodes && kind.token == r.token)
  {
  }

  function Listed(entry: Option<SocketAddr>): seq<SocketAddr> {
    if entry.Some? then [entry.value] else []
  }

  lemma {:induction false} UnwrappedConcat(a: seq<Option<SocketAddr>>, b: seq<Option<SocketAddr>>)
    ensures Unwrapped(a + b) == Unwrapped(a) + Unwrapped(b)
  {
    if a == [] {
      assert a + b == b;
      assert Unwrapped(a) + Unwrapped(b) == Unwrapped(b);
    } else {
      var head, rest := Listed(a[0]), a[1..];
      assert (a + b)[0] == a[0] && (a + b)[1..] == rest + b;
      UnwrappedConcat(rest, b);
      assert Unwrapped(a + b) == head + (Unwrapped(rest) + Unwrapped(b)) == (head + Unwrapped(rest)) + Unwrapped(b);
    }
  }

  lemma EntryBetween(a: seq<Option<SocketAddr>>, entry: Option<SocketAddr>, b: seq<Option<SocketAddr>>)
    ensures Unwrapped(a + [entry] + b) == Unwrapped(a) + Listed(entry) + Unwrapped(b)
  {
    UnwrappedConcat(a + [entry], b);
    UnwrappedConcat(a, [entry]);
    assert [entry][1..] == [] && Listed(entry) + [] == Listed(entry);
  }

  /** Peers are kept in order; entries without an address are left out. */
  lemma PeersInOrder(from: SocketAddr, k: KMessage, a: seq<Option<SocketAddr>>, entry: Option<SocketAddr>, b: seq<Option<SocketAddr>>)
    requires Complete(k) && k.messageType == "r" && k.response.value.values.Some?
    requires k.response.value.values.value == a + [entry] + b
    ensures FromKmsg(from, k).value.Response? && FromKmsg(from, k).value.kind.Peers?
    ensures FromKmsg(from, k).value.kind.peers == Unwrapped(a) + Listed(entry) + Unwrapped(b)
  {
    EntryBetween(a, entry, b);
  }

  // ----- what every message holds -----

  /** The sender is the claimed identifier at the address of the packet, or zero for an error; a record
      that does not say so is not read-only; a client is named by exactly four bytes. */
  lemma BaseOfRecord(from: SocketAddr, k: KMessage)
    requires Complete(k)
    ensures var b := FromKmsg(from, k).value.base;
      && b.transactionId == k.transactionId && b.destination == Myself && b.origin.Remote? && b.origin.node.addr == from
      && (k.messageType == "q" ==> b.origin.node.id == k.arguments.value.id)
      && (k.messageType == "r" ==> b.origin.node.id == k.response.value.id)
      && (k.messageType == "e" ==> b.origin.node.id == U160(0, 0))
      && (b.readOnly <==> k.readOnly == Some(true))
      && (k.requestorIp.Some? ==> b.requestorAddr == k.requestorIp.value) && (k.requestorIp.None? ==> b.requestorAddr == None)
      && (b.client.Some? <==> k.version.Some? && |k.version.value| == 4)
      && (b.client.Some? ==> b.client.value.code == k.version.value[..2])
      && (b.client.Some? ==> b.client.value.version == 256 * (k.version.value[2] as int) + k.version.value[3])
  {
    if k.version.Some? && |k.version.value| == 4 { TwoBytes(k.version.value[2..]); }
  }

  lemma TwoBytes(s: seq<U8>)
    requires |s| == 2
    ensures Word16(s) == 256 * (s[0] as int) + s[1]
  {
    assert s[..1][..0] == [];
    assert Value(s[..1]) == s[0];
  }

  // ----- what is sent -----

  /** A query carries its sender and the arguments of its method, and no others. */
  lemma QueryIsSentAs(m: Message)
    requires m.Query?
    ensures var k, b, q := ToKmsg(m), m.base, m.method_;
      && k.messageType == "q" && k.response == None && k.error == None && k.version == None
      && k.transactionId == b.transactionId && k.readOnly == Some(b.readOnly)
      && k.requestorIp == Some(Some(b.origin.node.addr))
      && k.queryMethod.Some? && k.arguments.Some? && k.arguments.value.id == b.origin.node.id
      && KnownMethod(k.queryMethod.value)
    ensures var name, a, q := ToKmsg(m).queryMethod.value, ToKmsg(m).arguments.value, m.method_;
      && (q.Ping? <==> name == "ping") && (q.Get? <==> name == "get") && (q.Put? <==> name == "put")
      && (q.FindNode? <==> name == "find_node") && (q.SampleInfohashes? <==> name == "sample_infohashes")
      && (q.GetPeers? <==> name == "get_peers") && (q.AnnouncePeer? <==> name == "announce_peer")
      && a.target == (if q.FindNode? || q.SampleInfohashes? then Some(q.target) else None)
      && a.infoHash == (if q.GetPeers? || q.AnnouncePeer? then Some(q.infoHash) else None)
      && a.token == (if q.AnnouncePeer? then Some(q.token) else None)
      && a.port == (if q.AnnouncePeer? then Some(q.port) else None) && a.impliedPort == None
      && (q.Put? ==> a.bep44 == q.item) && (!q.Put? ==> a.bep44 == ArgsBep44(None, None, None, None, None, None))
  {
  }

  /** An answer carries the address of the requestor and the fields of its kind, and no others. */
  lemma AnswerIsSentAs(m: Message)
    requires m.Response?
    ensures var k, b := ToKmsg(m), m.base;
      && k.messageType == "r" && k.queryMethod == None && k.arguments == None && k.error == None && k.version == None
      && k.transactionId == b.transactionId && k.readOnly == Some(b.readOnly) && k.requestorIp == Some(b.requestorAddr)
      && k.response.Some? && k.response.value.id == b.origin.node.id
    ensures var r, kind := ToKmsg(m).response.value, m.kind;
      && (r.values.Some? <==> kind.Peers?) && (kind.Peers? ==> r.values == Some(Wrapped(kind.peers)))
      && r.nodes == (if kind.KNearest? || kind.Samples? then Some(kind.nodes) else if kind.Peers? then kind.closer else None)
      && r.token == (if kind.KNearest? then kind.token else if kind.Peers? then Some(kind.peersToken) else None)
      && r.bep44 == (if kind.Data? then kind.item else ResponseBep44(None, None, None, None))
      && (kind.Samples? ==> r.bep51 == ResponseBep51(Some(kind.interval), Some(kind.samples), Some(kind.available)))
      && (!kind.Samples? ==> r.bep51 == ResponseBep51(None, None, None))
  {
  }

  /** An error carries its code and text, and an empty address. */
  lemma ErrorIsSentAs(m: Message)
    requires m.Error?
    ensures ToKmsg(m) == KMessage(m.base.transactionId, "e", None, None, None, Some(m.error), Some(None), Some(m.base.readOnly), None)
  {
  }
}

/** Typed messages and the KRPC records they are sent as. */
module Messages {
  import opened U160s
  import opened NodeInfos
  import opened Wrappers
  import opened BigEndian

  type Bytes = seq<U8>
  type U64 = x: nat | x < 0x1_0000_0000_0000_0000
  type I64 = x: int | -0x8000_0000_0000_0000 <= x < 0x8000_0000_0000_0000

  // ----- records -----

  datatype ArgsBep44 = ArgsBep44(v: Option<Bytes>, sequence: Option<I64>, cas: Option<I64>, k: Option<Bytes>,
                                 salt: Option<string>, sig: Option<Bytes>)

  datatype MessageArgs = MessageArgs(id: U160, target: Option<U160>, port: Option<U16>, impliedPort: Option<bool>,
                                     token: Option<Bytes>, infoHash: Option<U160>, bep44: ArgsBep44)

  datatype ResponseBep44 = ResponseBep44(v: Option<Bytes>, sequence: Option<I64>, k: Option<Bytes>, sig: Option<Bytes>)

  datatype ResponseBep51 = ResponseBep51(interval: Option<U16>, samples: Option<seq<U160>>, num: Option<U64>)

  datatype KResponse = KResponse(id: U160, nodes: Option<seq<NodeInfo>>, token: Option<Bytes>,
                                 values: Option<seq<Option<SocketAddr>>>, bep44: ResponseBep44, bep51: ResponseBep51)

  datatype KError = KError(code: U16, text: string)

  datatype KMessage = KMessage(transactionId: Bytes, messageType: string, queryMethod: Option<string>,
                               arguments: Option<MessageArgs>, response: Option<KResponse>, error: Option<KError>,
                               requestorIp: Option<Option<SocketAddr>>, readOnly: Option<bool>, version: Option<Bytes>)

  const NO_ARGS_BEP44 := ArgsBep44(None, None, None, None, None, None)
  const NO_RESPONSE_BEP44 := ResponseBep44(None, None, None, None)
  const NO_RESPONSE_BEP51 := ResponseBep51(None, None, None)

  const Q_ANNOUNCE_PEER := "announce_peer"
  const Q_PING := "ping"
  const Q_FIND_NODE := "find_node"
  const Q_GET_PEERS := "get_peers"
  const Q_PUT := "put"
  const Q_GET := "get"
  const Q_SAMPLE_INFOHASHES := "sample_infohashes"

  const Y_QUERY := "q"
  const Y_RESPONSE := "r"
  const Y_ERROR := "e"

  // ----- typed messages -----

  datatype Sender = Remote(node: NodeInfo) | Me(node: NodeInfo)

  datatype Receiver = Node(node: NodeInfo) | Addr(addr: SocketAddr) | Myself

  /** The client that a version field names, without the table of display names. */
  datatype Client = Client(code: Bytes, version: U16)

  datatype MessageBase = MessageBase(origin: Sender, destination: Receiver, requestorAddr: Option<SocketAddr>,
                                     transactionId: Bytes, readOnly: bool, client: Option<Client>)

  datatype QueryMethod =
    | Ping
    | FindNode(target: U160)
    | GetPeers(infoHash: U160)
    | AnnouncePeer(infoHash: U160, port: U16, token: Bytes)
    | Put(item: ArgsBep44)
    | Get
    | SampleInfohashes(target: U160)

  datatype ResponseKind =
    | Done
    | KNearest(nodes: seq<NodeInfo>, token: Option<Bytes>)
    | Peers(peers: seq<SocketAddr>, peersToken: Bytes, closer: Option<seq<NodeInfo>>)
    | Data(item: ResponseBep44)
    | Samples(nodes: seq<NodeInfo>, samples: seq<U160>, available: U64, interval: U16)

  datatype Message =
    | Query(base: MessageBase, method_: QueryMethod)
    | Response(base: MessageBase, kind: ResponseKind)
    | Error(base: MessageBase, error: KError)

  datatype KnownError = Protocol | MethodUnknown | InvalidNodeId

  // ----- to records -----

  function QueryName(q: QueryMethod): string {
    match q
    case Ping => Q_PING
    case FindNode(_) => Q_FIND_NODE
    case GetPeers(_) => Q_GET_PEERS
    case AnnouncePeer(_, _, _) => Q_ANNOUNCE_PEER
    case Put(_) => Q_PUT
    case Get => Q_GET
    case SampleInfohashes(_) => Q_SAMPLE_INFOHASHES
  }

  function QueryArgs(id: U160, q: QueryMethod): MessageArgs {
    var args := MessageArgs(id, None, None, None, None, None, NO_ARGS_BEP44);
    match q
    case Ping => args
    case FindNode(target) => args.(target := Some(target))
    case GetPeers(infoHash) => args.(infoHash := Some(infoHash))
    case AnnouncePeer(infoHash, port, token) => args.(infoHash := Some(infoHash), token := Some(token), port := Some(port))
    case Put(item) => args.(bep44 := item)
    case Get => args
    case SampleInfohashes(target) => args.(target := Some(target))
  }

  function Wrapped(peers: seq<SocketAddr>): seq<Option<SocketAddr>> {
    seq(|peers|, i requires 0 <= i < |peers| => Some(peers[i]))
  }

  function ResponseFields(id: U160, r: ResponseKind): KResponse {
    var response := KResponse(id, None, None, None, NO_RESPONSE_BEP44, NO_RESPONSE_BEP51);
    match r
    case Done => response
    case KNearest(nodes, token) => response.(nodes := Some(nodes), token := token)
    case Peers(peers, token, nodes) => response.(values := Some(Wrapped(peers)), token := Some(token), nodes := nodes)
    case Data(item) => response.(bep44 := item)
    case Samples(nodes, samples, available, interval) =>
      response.(nodes := Some(nodes), bep51 := ResponseBep51(Some(interval), Some(samples), Some(available)))
  }

  function ToKmsg(m: Message): KMessage {
    var b := m.base;
    var k := KMessage(b.transactionId, "", None, None, None, None, None, Some(b.readOnly), None);
    match m
    case Query(_, q) =>
      k.(messageType := Y_QUERY, queryMethod := Some(QueryName(q)), arguments := Some(QueryArgs(b.origin.node.id, q)),
         requestorIp := Some(Some(b.origin.node.addr)))
    case Response(_, r) =>
      k.(messageType := Y_RESPONSE, response := Some(ResponseFields(b.origin.node.id, r)),
         requestorIp := Some(b.requestorAddr))
    case Error(_, e) => k.(messageType := Y_ERROR, error := Some(e), requestorIp := Some(None))
  }

  // ----- from records -----

  function ToQuery(originPort: U16, name: string, a: MessageArgs): Result<QueryMethod, KnownError> {
    if name == Q_PING then Success(Ping)
    else if name == Q_FIND_NODE then
      if a.target.Some? then Success(FindNode(a.target.value)) else Failure(Protocol)
    else if name == Q_ANNOUNCE_PEER then
      if a.infoHash.Some? && a.token.Some? then
        var port := if a.impliedPort == Some(true) || a.port.None? then originPort else a.port.value;
        Success(AnnouncePeer(a.infoHash.value, port, a.token.value))
      else Failure(Protocol)
    else if name == Q_GET_PEERS then
      if a.infoHash.Some? then Success(GetPeers(a.infoHash.value)) else Failure(Protocol)
    else if name == Q_PUT then Success(Put(a.bep44))
    else if name == Q_GET then Success(Get)
    else if name == Q_SAMPLE_INFOHASHES then
      if a.target.Some? then Success(SampleInfohashes(a.target.value)) else Failure(Protocol)
    else if a.infoHash.Some? then Success(FindNode(a.infoHash.value))
    else if a.target.Some? then Success(FindNode(a.target.value))
    else Failure(MethodUnknown)
  }

  function Unwrapped(values: seq<Option<SocketAddr>>): seq<SocketAddr> {
    if values == [] then []
    else (if values[0].Some? then [values[0].value] else []) + Unwrapped(values[1..])
  }

  function ToKind(r: KResponse): Result<ResponseKind, KnownError> {
    if r.values.Some? then
      if r.token.Some? then Success(Peers(Unwrapped(r.values.value), r.token.value, r.nodes)) else Failure(Protocol)
    else if r.bep44.v.Some? then Success(Data(r.bep44))
    else if r.bep51.samples.Some? then
      if r.nodes.Some? then
        Success(Samples(r.nodes.value, r.bep51.samples.value,
                        if r.bep51.num.Some? then r.bep51.num.value else 0,
                        if r.bep51.interval.Some? then r.bep51.interval.value else 0))
      else Failure(Protocol)
    else if r.nodes.Some? then Success(KNearest(r.nodes.value, r.token))
    else Success(Done)
  }

  function ToClient(version: Option<Bytes>): Option<Client> {
    if version.Some? && |version.value| == 4 then Some(Client(version.value[..2], Word16(version.value[2..]))) else None
  }

  function FromKmsg(originAddr: SocketAddr, k: KMessage): Result<Message, KnownError> {
    var base := MessageBase(Remote(NodeInfo(U160(0, 0), originAddr)), Myself,
                            if k.requestorIp.Some? then k.requestorIp.value else None,
                            k.transactionId, k.readOnly == Some(true), ToClient(k.version));
    if k.messageType == Y_ERROR then
      if k.error.Some? then Success(Error(base, k.error.value)) else Failure(Protocol)
    else if k.messageType == Y_QUERY then
      if k.arguments.Some? then
        var from := base.(origin := Remote(NodeInfo(k.arguments.value.id, originAddr)));
        if k.queryMethod.Some? then
          var q := ToQuery(originAddr.port, k.queryMethod.value, k.arguments.value);
          if q.Success? then Success(Query(from, q.value)) else Failure(q.error)
        else Failure(Protocol)
      else Failure(Protocol)
    else if k.messageType == Y_RESPONSE then
      if k.response.Some? then
        var from := base.(origin := Remote(NodeInfo(k.response.value.id, originAddr)));
        var kind := ToKind(k.response.value);
        if kind.Success? then Success(Response(from, kind.value)) else Failure(kind.error)
      else Failure(Protocol)
    else Failure(Protocol)
  }

  // ----- round trips -----

  lemma {:induction false} UnwrappedWrapped(peers: seq<SocketAddr>)
    ensures Unwrapped(Wrapped(peers)) == peers
  {
    if peers != [] {
      assert Wrapped(peers)[1..] == Wrapped(peers[1..]);
      UnwrappedWrapped(peers[1..]);
    }
  }

  lemma QueryComesBack(id: U160, q: QueryMethod, originPort: U16)
    ensures ToQuery(originPort, QueryName(q), QueryArgs(id, q)) == Success(q)
  {
  }

  /** The one kind of answer that has no form of its own among the records. */
  predicate DataWithoutValue(m: Message) {
    m.Response? && m.kind.Data? && m.kind.item.v.None?
  }

  lemma KindComesBack(id: U160, r: ResponseKind)
    ensures ToKind(ResponseFields(id, r)) == Success(if r.Data? && r.item.v.None? then Done else r)
  {
    if r.Peers? { UnwrappedWrapped(r.peers); }
  }

  /** What a receiver at the other end should see of `m`, sent from `from`. The identifier of the
      sender is part of queries and answers only. */
  function Seen(m: Message, from: SocketAddr): Message {
    var id := if m.Error? then U160(0, 0) else m.base.origin.node.id;
    var requestor := match m
      case Query(b, _) => Some(b.origin.node.addr)
      case Response(b, _) => b.requestorAddr
      case Error(_, _) => None;
    var base := MessageBase(Remote(NodeInfo(id, from)), Myself, requestor, m.base.transactionId, m.base.readOnly, None);
    match m
    case Query(_, q) => Query(base, q)
    case Response(_, r) => Response(base, r)
    case Error(_, e) => Error(base, e)
  }

  /** Every message comes back as it was sent, except a data answer without a value: that one comes
      back as a plain acknowledgement. */
  lemma MessageRoundTrip(m: Message, from: SocketAddr)
    ensures FromKmsg(from, ToKmsg(m)) == Success(Seen(m, from)) <==> !DataWithoutValue(m)
    ensures DataWithoutValue(m) ==> FromKmsg(from, ToKmsg(m)) == Success(Seen(m, from).(kind := Done))
  {
    match m {
      case Query(b, q) => QueryComesBack(b.origin.node.id, q, from.port);
      case Response(b, r) => KindComesBack(b.origin.node.id, r);
      case Error(_, _) =>
    }
  }

  /** A message that was received survives being sent on: records only ever decode to messages
      that have a form of their own. */
  lemma ReceivedSurvives(from: SocketAddr, k: KMessage, again: SocketAddr)
    requires FromKmsg(from, k).Success?
    ensures var m := FromKmsg(from, k).value; FromKmsg(again, ToKmsg(m)) == Success(Seen(m, again))
  {
    MessageRoundTrip(FromKmsg(from, k).value, again);
  }
}

/** The server side of peer storage: answering get_peers with a token, and storing the peers that
    announce themselves with one. The store maps an info hash to a list of encoded addresses. */
module Servers {
  import opened U160s
  import opened NodeInfos
  import opened Wrappers
  import opened Codecs
  import opened NodeIds
  import opened Tokens
  import opened Messages

  type Store = map<U160, seq<Bytes>>

  datatype Outcome = Acknowledged | Refused(error: KnownError) | Panicked

  // ----- the store -----

  function DecodeAll(list: seq<Bytes>): seq<Option<SocketAddr>> {
    seq(|list|, i requires 0 <= i < |list| => DecodeWrapper(list[i]))
  }

  function EncodeAll(addrs: seq<Option<SocketAddr>>): seq<Bytes> {
    seq(|addrs|, i requires 0 <= i < |addrs| => WrapperBytes(addrs[i]))
  }

  function Socks(store: Store, infoHash: U160): seq<Option<SocketAddr>> {
    if infoHash in store then DecodeAll(store[infoHash]) else []
  }

  function WithPeer(store: Store, infoHash: U160, addr: SocketAddr): Store {
    var socks := Socks(store, infoHash);
    store[infoHash := EncodeAll(if Some(addr) in socks then socks else socks + [Some(addr)])]
  }

  /** Every stored list holds addresses, each once. */
  ghost predicate WellStored(store: Store) {
    forall h :: h in store ==>
      && (forall i :: 0 <= i < |store[h]| ==> DecodeWrapper(store[h][i]).Some?)
      && (forall i, j :: 0 <= i < j < |store[h]| ==> DecodeWrapper(store[h][i]) != DecodeWrapper(store[h][j]))
  }

  /** The peers that are stored for an info hash. */
  function Listed(store: Store, infoHash: U160): seq<SocketAddr>
    requires WellStored(store)
  {
    var socks := Socks(store, infoHash);
    seq(|socks|, i requires 0 <= i < |socks| => socks[i].value)
  }

  // ----- the handlers -----

  function DecideAnnounce(origin: NodeInfo, token: Bytes, now: Seconds, crc: Crc, stream: KeyStream, checks: bool,
                          randomMs: U128, randomLs: U32): Outcome {
    match Accepted(token, origin.addr.ip, now, crc, stream, checks)
    case None => Panicked
    case Some(false) => Refused(Protocol)
    case Some(true) =>
      if NodeIds.Validate(origin.id, origin.addr.ip, crc, randomMs, randomLs) then Acknowledged
      else Refused(InvalidNodeId)
  }

  class Server {
    const crc: Crc
    const stream: KeyStream
    const tokens: TokenGenerator
    var peers: Store

    ghost predicate Valid()
      reads this
    {
      WellStored(peers) && tokens.crc == crc && tokens.stream == stream
    }

    /** Opens the store that an earlier run left, which is empty at first. */
    constructor (crc: Crc, stream: KeyStream, stored: Store)
      requires WellStored(stored)
      ensures Valid() && peers == stored && this.crc == crc && this.stream == stream
    {
      this.crc, this.stream, peers := crc, stream, stored;
      tokens := new TokenGenerator(crc, stream);
    }

    method HandleAnnounce(origin: NodeInfo, infoHash: U160, port: U16, token: Bytes, now: Seconds, checks: bool,
                          randomMs: U128, randomLs: U32)
      returns (o: Outcome)
      requires Valid()
      modifies this
      ensures Valid()
      ensures o == DecideAnnounce(origin, token, now, crc, stream, checks, randomMs, randomLs)
      ensures peers == if o.Acknowledged? then WithPeer(old(peers), infoHash, SocketAddr(origin.addr.ip, port))
                       else old(peers)
    {
      var valid := tokens.Validate(token, origin.addr.ip, now, checks);
      if valid.None? {
        return Panicked;
      }
      if !valid.value {
        return Refused(Protocol);
      }
      if !NodeIds.Validate(origin.id, origin.addr.ip, crc, randomMs, randomLs) {
        return Refused(InvalidNodeId);
      }
      var wrap := Some(SocketAddr(origin.addr.ip, port));
      var socks := if infoHash in peers then DecodeAll(peers[infoHash]) else [];
      if wrap !in socks {
        socks := socks + [wrap];
      }
      PeerStored(peers, infoHash, wrap.value);
      peers := peers[infoHash := EncodeAll(socks)];
      return Acknowledged;
    }

    /** `nearest` is what the routing table answers for the info hash. */
    method HandleGetPeers(origin: NodeInfo, infoHash: U160, now: Seconds, random: Bytes8, nearest: seq<NodeInfo>)
      returns (kind: ResponseKind)
      requires Valid()
      ensures var token := Token(origin.addr.ip, now, random, crc, stream);
        kind == if infoHash in peers then Peers(Listed(peers, infoHash), token, Some(nearest))
                else KNearest(nearest, Some(token))
    {
      var token := tokens.Generate(origin.addr.ip, now, random);
      if infoHash in peers {
        var socks := DecodeAll(peers[infoHash]);
        var listed := seq(|socks|, i requires 0 <= i < |socks| => socks[i].value);
        assert listed == Listed(peers, infoHash);
        kind := Peers(listed, token[..], Some(nearest));
      } else {
        kind := KNearest(nearest, Some(token[..]));
      }
    }
  }

  // ----- what it means -----

  lemma DecodeOfEncode(addrs: seq<Option<SocketAddr>>)
    ensures DecodeAll(EncodeAll(addrs)) == addrs
  {
    forall i | 0 <= i < |addrs| ensures DecodeWrapper(WrapperBytes(addrs[i])) == addrs[i] {
      WrapperRoundTrip(addrs[i], []);
    }
  }

  lemma SocksAfter(store: Store, infoHash: U160, addr: SocketAddr, h: U160)
    ensures Socks(WithPeer(store, infoHash, addr), h)
         == Socks(store, h) + if h == infoHash && Some(addr) !in Socks(store, h) then [Some(addr)] else []
  {
    var socks := Socks(store, infoHash);
    DecodeOfEncode(if Some(addr) in socks then socks else socks + [Some(addr)]);
  }

  ghost predicate Clean(socks: seq<Option<SocketAddr>>) {
    && (forall i :: 0 <= i < |socks| ==> socks[i].Some?)
    && (forall i, j :: 0 <= i < j < |socks| ==> socks[i] != socks[j])
  }

  lemma WellStoredMeans(store: Store)
    ensures WellStored(store) <==> forall h :: h in store ==> Clean(Socks(store, h))
  {
    forall h, i | h in store && 0 <= i < |store[h]| ensures Socks(store, h)[i] == DecodeWrapper(store[h][i]) {
    }
  }

  function Appended(list: seq<SocketAddr>, addr: SocketAddr, here: bool): seq<SocketAddr> {
    if here && addr !in list then list + [addr] else list
  }

  /** Storing a peer appends it to the list of its info hash, unless it is there; no list gets a
      duplicate and no other list changes. */
  lemma PeerStored(store: Store, infoHash: U160, addr: SocketAddr)
    requires WellStored(store)
    ensures WellStored(WithPeer(store, infoHash, addr))
    ensures forall h ::
      Listed(WithPeer(store, infoHash, addr), h) == Appended(Listed(store, h), addr, h == infoHash)
  {
    var after := WithPeer(store, infoHash, addr);
    WellStoredMeans(store);
    forall h | h in after ensures Clean(Socks(after, h)) {
      SocksAfter(store, infoHash, addr, h);
    }
    WellStoredMeans(after);
    forall h ensures Listed(after, h) == Appended(Listed(store, h), addr, h == infoHash) {
      SocksAfter(store, infoHash, addr, h);
      ListedMembers(store, h, addr);
    }
  }

  lemma ListedMembers(store: Store, h: U160, addr: SocketAddr)
    requires WellStored(store)
    ensures addr in Listed(store, h) <==> Some(addr) in Socks(store, h)
  {
    var socks := Socks(store, h);
    if addr in Listed(store, h) {
      var i :| 0 <= i < |socks| && Listed(store, h)[i] == addr;
      assert socks[i] == Some(addr);
    }
    if Some(addr) in socks {
      var i :| 0 <= i < |socks| && socks[i] == Some(addr);
      assert Listed(store, h)[i] == addr;
    }
  }

  /** An announce is accepted exactly when its token was made for the sender's address within the
      last 120 seconds and the sender's identifier derives from that address. */
  lemma AcceptedExactlyWhen(origin: NodeInfo, token: Bytes, now: Seconds, crc: Crc, stream: KeyStream, checks: bool,
                            randomMs: U128, randomLs: U32)
    ensures DecideAnnounce(origin, token, now, crc, stream, checks, randomMs, randomLs) == Acknowledged <==>
      && (exists t: Seconds, random: Bytes8 ::
            token == Token(origin.addr.ip, t, random, crc, stream) && t <= now < t + TOKEN_VALID_SECONDS < TWO_64)
      && (exists r: U8, ms: U128, ls: U32 :: origin.id == FromIp(origin.addr.ip, r, crc, ms, ls))
  {
    var ip := origin.addr.ip;
    ValidIffDerived(origin.id, ip, crc, randomMs, randomLs);
    if Accepted(token, ip, now, crc, stream, checks) == Some(true) {
      ValidIsGenerated(token, ip, now, crc, stream, checks);
      var random: Bytes8 := token[4..12];
      assert token == Token(ip, Stamp(HiddenTime(token, stream)), random, crc, stream);
    }
    forall t: Seconds, random: Bytes8 |
      token == Token(ip, t, random, crc, stream) && t <= now < t + TOKEN_VALID_SECONDS < TWO_64
      ensures Accepted(token, ip, now, crc, stream, checks) == Some(true)
    {
      TokenWindow(ip, t, now, random, crc, stream, checks);
    }
  }

  /** The token was made for the address at most 120 seconds ago. */
  ghost predicate Fresh(token: Bytes, ip: IpAddr, now: Seconds, crc: Crc, stream: KeyStream) {
    exists t: Seconds, random: Bytes8 :: t <= now < t + 120 < TWO_64 && Made(token, ip, t, random, crc, stream)
  }

  /** The token was made in the last 120 seconds that the clock can show. */
  ghost predicate PastClock(token: Bytes, ip: IpAddr, now: Seconds, crc: Crc, stream: KeyStream) {
    exists t: Seconds, random: Bytes8 :: t <= now && t + 120 >= TWO_64 && Made(token, ip, t, random, crc, stream)
  }

  /** Which answer an announce gets: the sum of times overflows with checks for a token past the clock; a
      protocol error answers any other token that is not fresh, and an identifier error a fresh token
      from a sender whose identifier does not derive from its address. */
  lemma AnsweredExactly(origin: NodeInfo, token: Bytes, now: Seconds, crc: Crc, stream: KeyStream, checks: bool,
                        randomMs: U128, randomLs: U32)
    ensures var o, ip := DecideAnnounce(origin, token, now, crc, stream, checks, randomMs, randomLs), origin.addr.ip;
      var derived := exists r: U8, ms: U128, ls: U32 :: origin.id == FromIp(ip, r, crc, ms, ls);
      && (o == Panicked <==> checks && PastClock(token, ip, now, crc, stream))
      && (o == Acknowledged <==> Fresh(token, ip, now, crc, stream) && derived)
      && (o == Refused(InvalidNodeId) <==> Fresh(token, ip, now, crc, stream) && !derived)
      && (o == Refused(Protocol) <==>
            !Fresh(token, ip, now, crc, stream) && !(checks && PastClock(token, ip, now, crc, stream)))
  {
    ValidIffDerived(origin.id, origin.addr.ip, crc, randomMs, randomLs);
    AcceptedExactlyWhenMade(token, origin.addr.ip, now, crc, stream, checks);
    OverflowsExactlyWhenMade(token, origin.addr.ip, now, crc, stream, checks);
  }

  datatype Call = Call(origin: NodeInfo, infoHash: U160, port: U16, token: Bytes, now: Seconds, randomMs: U128, randomLs: U32)

  function Serve(store: Store, c: Call, crc: Crc, stream: KeyStream, checks: bool): Store {
    if DecideAnnounce(c.origin, c.token, c.now, crc, stream, checks, c.randomMs, c.randomLs) == Acknowledged then
      WithPeer(store, c.infoHash, SocketAddr(c.origin.addr.ip, c.port))
    else store
  }

  function ServeAll(store: Store, calls: seq<Call>, crc: Crc, stream: KeyStream, checks: bool): Store {
    if calls == [] then store
    else Serve(ServeAll(store, calls[..|calls| - 1], crc, stream, checks), calls[|calls| - 1], crc, stream, checks)
  }

  /** No run of announces ever stores a duplicate or forgets a peer. */
  lemma {:induction false} PeersAccumulate(store: Store, calls: seq<Call>, crc: Crc, stream: KeyStream, checks: bool, h: U160)
    requires WellStored(store)
    ensures WellStored(ServeAll(store, calls, crc, stream, checks))
    ensures Listed(store, h) <= Listed(ServeAll(store, calls, crc, stream, checks), h)
  {
    if calls != [] {
      var init, c := calls[..|calls| - 1], calls[|calls| - 1];
      PeersAccumulate(store, init, crc, stream, checks, h);
      PeerStored(ServeAll(store, init, crc, stream, checks), c.infoHash, SocketAddr(c.origin.addr.ip, c.port));
    }
  }

  lemma DistinctListed(store: Store, h: U160)
    requires WellStored(store)
    ensures forall i, j :: 0 <= i < j < |Listed(store, h)| ==> Listed(store, h)[i] != Listed(store, h)[j]
  {
    if h in store {
      forall i, j | 0 <= i < j < |store[h]| ensures Listed(store, h)[i] != Listed(store, h)[j] {
        assert DecodeWrapper(store[h][i]) != DecodeWrapper(store[h][j]);
      }
    }
  }

  /** From a derived identifier and a token made for its address less than 120 seconds ago, the
      announce is accepted, and its peer is in every later answer, which never repeats a peer. */
  lemma AnnouncedIsServed(store: Store, c: Call, later: seq<Call>, crc: Crc, stream: KeyStream, checks: bool,
                          t: Seconds, random: Bytes8, r: U8, ms: U128, ls: U32)
    requires WellStored(store)
    requires c.origin.id == FromIp(c.origin.addr.ip, r, crc, ms, ls)
    requires c.token == Token(c.origin.addr.ip, t, random, crc, stream) && t <= c.now < t + TOKEN_VALID_SECONDS < TWO_64
    ensures var after := ServeAll(Serve(store, c, crc, stream, checks), later, crc, stream, checks);
      && WellStored(after) && SocketAddr(c.origin.addr.ip, c.port) in Listed(after, c.infoHash)
      && forall i, j :: 0 <= i < j < |Listed(after, c.infoHash)| ==> Listed(after, c.infoHash)[i] != Listed(after, c.infoHash)[j]
  {
    AcceptedExactlyWhen(c.origin, c.token, c.now, crc, stream, checks, c.randomMs, c.randomLs);
    var addr := SocketAddr(c.origin.addr.ip, c.port);
    PeerStored(store, c.infoHash, addr);
    var once := Serve(store, c, crc, stream, checks);
    assert addr in Listed(once, c.infoHash);
    PeersAccumulate(once, later, crc, stream, checks, c.infoHash);
    DistinctListed(ServeAll(once, later, crc, stream, checks), c.infoHash);
  }
}

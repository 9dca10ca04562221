/** The compact encodings: identifiers, IPv4 nodes, lists of both, socket addresses, and nodes of
    either address family. */
module Codecs {
  import opened Bits
  import opened U160s
  import opened NodeInfos
  import opened Wrappers
  import opened BigEndian

  datatype DecodeError = InvalidLength(length: nat)

  // ----- fixed buffers -----

  method CopyFromSlice(dst: array<U8>, at: nat, src: seq<U8>)
    requires at + |src| <= dst.Length
    modifies dst
    ensures dst[..] == old(dst[..at]) + src + old(dst[at + |src|..])
  {
    for i := 0 to |src|
      invariant dst[..at] == old(dst[..at]) && dst[at + |src|..] == old(dst[at + |src|..])
      invariant dst[at..at + i] == src[..i]
    {
      dst[at + i] := src[i];
    }
    assert dst[..] == dst[..at] + dst[at..at + |src|] + dst[at + |src|..];
  }

  // ----- identifiers -----

  /** Up to 20 bytes are an identifier: shorter ones are padded on the left. */
  function DecodeId(v: seq<U8>): (r: Result<U160, DecodeError>) {
    if |v| > 20 then Failure(InvalidLength(|v|))
    else if |v| < 20 then Success(FromBeBytes(seq(20 - |v|, _ => 0) + v))
    else Success(FromBeBytes(v))
  }

  lemma ZerosAddNothing(n: nat, v: seq<U8>)
    ensures Value(seq(n, _ => 0) + v) == Value(v)
  {
    ValueOfConcat(seq(n, _ => 0), v);
    ValueOfZeros(n);
  }

  /** A decoded identifier is the big-endian value of its bytes, and nothing longer is decoded. */
  lemma DecodedIdIsValue(v: seq<U8>)
    ensures DecodeId(v).Success? <==> |v| <= 20
    ensures |v| <= 20 ==> DecodeId(v).value.Nat() == Value(v)
    ensures |v| == 20 ==> ToBeBytes(DecodeId(v).value) == v
  {
    if |v| == 20 {
      DecodedId(v);
    } else if |v| < 20 {
      ZerosAddNothing(20 - |v|, v);
      DecodedId(seq(20 - |v|, _ => 0) + v);
    }
  }

  // ----- compact IPv4 nodes -----

  type Ip4Node = n: NodeInfo | n.addr.ip.V4? witness NodeInfo(U160(0, 0), SocketAddr(V4([0, 0, 0, 0]), 0))

  type Record26 = s: seq<U8> | |s| == 26 witness seq(26, _ => 0)

  function Ip4Record(n: Ip4Node): Record26 {
    ToBeBytes(n.id) + n.addr.ip.octets4 + Encode(n.addr.port, 2)
  }

  function Ip4Node26(b: Record26): Ip4Node {
    NodeInfo(FromBeBytes(b[..20]), SocketAddr(V4([b[20], b[21], b[22], b[23]]), Word16(b[24..])))
  }

  method Ip4ToBytes(n: Ip4Node) returns (bytes: array<U8>)
    ensures fresh(bytes) && bytes[..] == Ip4Record(n)
  {
    bytes := new U8[26](_ => 0);
    CopyFromSlice(bytes, 0, ToBeBytes(n.id));
    CopyFromSlice(bytes, 20, n.addr.ip.octets4);
    CopyFromSlice(bytes, 24, Encode(n.addr.port, 2));
  }

  method Ip4FromBytes(bytes: array<U8>) returns (n: NodeInfo)
    requires bytes.Length == 26
    ensures n == Ip4Node26(bytes[..])
  {
    var idBytes := new U8[20](_ => 0);
    CopyFromSlice(idBytes, 0, bytes[..20]);
    var portBytes := new U8[2](_ => 0);
    CopyFromSlice(portBytes, 0, bytes[24..]);
    assert idBytes[..] == bytes[..][..20] && portBytes[..] == bytes[..][24..];
    n := NodeInfo(FromBeBytes(idBytes[..]),
                  SocketAddr(V4([bytes[20], bytes[21], bytes[22], bytes[23]]), Word16(portBytes[..])));
  }

  /** A node and its 26 bytes determine each other. */
  lemma Ip4RoundTrip(n: Ip4Node, b: Record26)
    ensures Ip4Node26(Ip4Record(n)) == n && Ip4Record(Ip4Node26(b)) == b
  {
    var r := Ip4Record(n);
    assert r[..20] == ToBeBytes(n.id) && r[24..] == Encode(n.addr.port, 2);
    assert [r[20], r[21], r[22], r[23]] == n.addr.ip.octets4;
    IdBytes(n.id, b[..20]);
    PortRoundTrip(n.addr.port);
    EncodeOfValue(b[24..]);
    assert b == b[..20] + [b[20], b[21], b[22], b[23]] + b[24..];
  }

  // ----- lists of records -----

  function Concat(chunks: seq<seq<U8>>): seq<U8> {
    if chunks == [] then [] else chunks[0] + Concat(chunks[1..])
  }

  /** The whole chunks of a byte string; a shorter rest is dropped. */
  function ChunksExact(v: seq<U8>, size: nat): (chunks: seq<seq<U8>>)
    requires size > 0
    ensures forall c :: c in chunks ==> |c| == size
    decreases |v|
  {
    if |v| < size then [] else [v[..size]] + ChunksExact(v[size..], size)
  }

  lemma {:induction false} ChunksOfConcat(chunks: seq<seq<U8>>, size: nat)
    requires size > 0 && forall c :: c in chunks ==> |c| == size
    ensures ChunksExact(Concat(chunks), size) == chunks
  {
    if chunks != [] {
      assert chunks[0] in chunks;
      ChunksOfConcat(chunks[1..], size);
      var v := Concat(chunks);
      assert v[..size] == chunks[0] && v[size..] == Concat(chunks[1..]);
    }
  }

  /** The longest prefix made of whole records. */
  function WholeRecords(v: seq<U8>, size: nat): seq<U8>
    requires size > 0
  {
    v[..|v| - |v| % size]
  }

  lemma OneChunkLess(n: nat, size: nat)
    requires 0 < size <= n
    ensures n % size == (n - size) % size <= n - size
  {
    var q, r := (n - size) / size, (n - size) % size;
    assert n == (q + 1) * size + r;
    QuotientIs(n, size, q + 1, r);
  }

  lemma OneRecordMore(v: seq<U8>, size: nat)
    requires 0 < size <= |v|
    ensures WholeRecords(v, size) == v[..size] + WholeRecords(v[size..], size)
  {
    OneChunkLess(|v|, size);
  }

  lemma {:induction false} ConcatOfChunks(v: seq<U8>, size: nat)
    requires size > 0
    ensures Concat(ChunksExact(v, size)) == WholeRecords(v, size)
    decreases |v|
  {
    if |v| >= size {
      ConcatOfChunks(v[size..], size);
      OneRecordMore(v, size);
    }
  }

  function EncodeNodes(nodes: seq<Ip4Node>): seq<U8> {
    Concat(seq(|nodes|, i requires 0 <= i < |nodes| => Ip4Record(nodes[i])))
  }

  function DecodeNodes(v: seq<U8>): seq<Ip4Node> {
    var chunks := ChunksExact(v, 26);
    seq(|chunks|, i requires 0 <= i < |chunks| => Ip4Node26(chunks[i]))
  }

  function EncodeHashes(hashes: seq<U160>): seq<U8> {
    Concat(seq(|hashes|, i requires 0 <= i < |hashes| => ToBeBytes(hashes[i])))
  }

  function DecodeHashes(v: seq<U8>): seq<U160> {
    var chunks := ChunksExact(v, 20);
    seq(|chunks|, i requires 0 <= i < |chunks| => FromBeBytes(chunks[i]))
  }

  lemma NodesDecodeBack(xs: seq<Ip4Node>)
    ensures DecodeNodes(EncodeNodes(xs)) == xs
  {
    var records: seq<seq<U8>> := seq(|xs|, i requires 0 <= i < |xs| => Ip4Record(xs[i]));
    ChunksOfConcat(records, 26);
    forall i | 0 <= i < |xs| ensures Ip4Node26(records[i]) == xs[i] {
      Ip4RoundTrip(xs[i], records[i]);
    }
  }

  lemma NodesEncodeBack(v: seq<U8>)
    ensures EncodeNodes(DecodeNodes(v)) == WholeRecords(v, 26)
  {
    var chunks := ChunksExact(v, 26);
    var xs := DecodeNodes(v);
    forall i | 0 <= i < |chunks| ensures Ip4Record(xs[i]) == chunks[i] {
      Ip4RoundTrip(xs[i], chunks[i]);
    }
    assert seq(|xs|, i requires 0 <= i < |xs| => Ip4Record(xs[i])) == chunks;
    ConcatOfChunks(v, 26);
  }

  lemma HashesDecodeBack(xs: seq<U160>)
    ensures DecodeHashes(EncodeHashes(xs)) == xs
  {
    var records: seq<seq<U8>> := seq(|xs|, i requires 0 <= i < |xs| => ToBeBytes(xs[i]));
    ChunksOfConcat(records, 20);
    forall i | 0 <= i < |xs| ensures FromBeBytes(records[i]) == xs[i] {
      EncodedId(xs[i]);
    }
  }

  lemma HashesEncodeBack(v: seq<U8>)
    ensures EncodeHashes(DecodeHashes(v)) == WholeRecords(v, 20)
  {
    var chunks := ChunksExact(v, 20);
    var xs := DecodeHashes(v);
    forall i | 0 <= i < |chunks| ensures ToBeBytes(xs[i]) == chunks[i] {
      DecodedId(chunks[i]);
    }
    assert seq(|xs|, i requires 0 <= i < |xs| => ToBeBytes(xs[i])) == chunks;
    ConcatOfChunks(v, 20);
  }

  /** Decoding returns every encoded list; encoding a decoded byte string returns its longest
      prefix of whole records. */
  lemma ListsRoundTrip(nodes: seq<Ip4Node>, hashes: seq<U160>, v: seq<U8>)
    ensures DecodeNodes(EncodeNodes(nodes)) == nodes && DecodeHashes(EncodeHashes(hashes)) == hashes
    ensures EncodeNodes(DecodeNodes(v)) == WholeRecords(v, 26) && EncodeHashes(DecodeHashes(v)) == WholeRecords(v, 20)
  {
    NodesDecodeBack(nodes);
    NodesEncodeBack(v);
    HashesDecodeBack(hashes);
    HashesEncodeBack(v);
  }

  // ----- socket addresses -----

  function AddrBytes(a: SocketAddr): seq<U8> {
    a.ip.Octets() + Encode(a.port, 2)
  }

  function WrapperBytes(a: Option<SocketAddr>): seq<U8> {
    if a.Some? then AddrBytes(a.value) else []
  }

  method SerializeWrapper(a: Option<SocketAddr>) returns (bytes: seq<U8>)
    ensures bytes == WrapperBytes(a)
  {
    bytes := [];
    if a.Some? {
      bytes := a.value.ip.Octets();
      bytes := bytes + Encode(a.value.port, 2);
    }
  }

  /** Any length but 6 and 18 yields no address. */
  function DecodeWrapper(v: seq<U8>): Option<SocketAddr> {
    if |v| == 6 then Some(SocketAddr(V4(v[..4]), Word16(v[4..])))
    else if |v| == 18 then Some(SocketAddr(V6(v[..16]), Word16(v[16..])))
    else None
  }

  lemma AddrRoundTrip(a: SocketAddr)
    ensures DecodeWrapper(AddrBytes(a)) == Some(a)
  {
    var v, n := AddrBytes(a), |a.ip.Octets()|;
    assert v[..n] == a.ip.Octets() && v[n..] == Encode(a.port, 2);
    PortRoundTrip(a.port);
  }

  /** An optional address survives encoding; a byte string survives decoding exactly when it has
      the length of an address or is empty. */
  lemma WrapperRoundTrip(a: Option<SocketAddr>, v: seq<U8>)
    ensures DecodeWrapper(WrapperBytes(a)) == a
    ensures WrapperBytes(DecodeWrapper(v)) == v <==> |v| in {0, 6, 18}
  {
    if a.Some? { AddrRoundTrip(a.value); }
    if |v| in {6, 18} {
      var n := |v| - 2;
      EncodeOfValue(v[n..]);
      assert v == v[..n] + v[n..];
    }
  }

  // ----- nodes of either family -----

  function NodeBytes(n: NodeInfo): seq<U8> {
    ToBeBytes(n.id) + AddrBytes(n.addr)
  }

  method SerializeNode(n: NodeInfo) returns (bytes: seq<U8>)
    ensures bytes == NodeBytes(n)
  {
    bytes := ToBeBytes(n.id);
    bytes := bytes + n.addr.ip.Octets();
    bytes := bytes + Encode(n.addr.port, 2);
  }

  function DecodeNode(v: seq<U8>): Result<NodeInfo, DecodeError> {
    if |v| == 26 then
      Success(NodeInfo(FromBeBytes(v[..20]), SocketAddr(V4([v[20], v[21], v[22], v[23]]), Word16(v[|v| - 2..]))))
    else if |v| == 38 then
      Success(NodeInfo(FromBeBytes(v[..20]), SocketAddr(V6(v[20..36]), Word16(v[|v| - 2..]))))
    else Failure(InvalidLength(|v|))
  }

  /** Every node survives encoding, exactly the byte strings of 26 and 38 bytes decode, each to the
      one node with those bytes, and for an IPv4 node this is the compact form. */
  lemma NodeRoundTrip(n: NodeInfo, v: seq<U8>)
    ensures DecodeNode(NodeBytes(n)) == Success(n)
    ensures DecodeNode(v).Success? <==> |v| in {26, 38}
    ensures |v| in {26, 38} ==> NodeBytes(DecodeNode(v).value) == v
    ensures n.addr.ip.V4? ==> NodeBytes(n) == Ip4Record(n)
  {
    NodeDecodesBack(n);
    if |v| in {26, 38} {
      NodeEncodesBack(v);
    }
  }

  lemma NodeDecodesBack(n: NodeInfo)
    ensures DecodeNode(NodeBytes(n)) == Success(n)
  {
    var b, o := NodeBytes(n), n.addr.ip.Octets();
    EncodedId(n.id);
    PortRoundTrip(n.addr.port);
    assert b[..20] == ToBeBytes(n.id) && b[|b| - 2..] == Encode(n.addr.port, 2);
    assert b[20..|b| - 2] == o;
    assert n.addr.ip.V4? ==> [b[20], b[21], b[22], b[23]] == o;
  }

  lemma NodeEncodesBack(v: seq<U8>)
    requires |v| in {26, 38}
    ensures NodeBytes(DecodeNode(v).value) == v
  {
    DecodedId(v[..20]);
    EncodeOfValue(v[|v| - 2..]);
    assert v == v[..20] + v[20..|v| - 2] + v[|v| - 2..];
    assert |v| == 26 ==> v[20..24] == [v[20], v[21], v[22], v[23]];
  }

  // ----- where the bytes are -----

  lemma PortBytes(port: U16)
    ensures Encode(port, 2) == [port / 256, port % 256]
  {
    assert Encode(port / 256, 1) == [port / 256 % 256];
  }

  /** The bytes of a node: twenty of its identifier, those of its address in order, and its port with
      the high byte first. */
  lemma NodeLayout(n: NodeInfo)
    ensures var b, o := NodeBytes(n), n.addr.ip.Octets();
      && |b| == 22 + |o| && b[..20] == ToBeBytes(n.id) && b[20..20 + |o|] == o
      && b[20 + |o|] == n.addr.port / 256 && b[21 + |o|] == n.addr.port % 256
    ensures n.addr.ip.V4? ==> Ip4Record(n) == NodeBytes(n)
  {
    PortBytes(n.addr.port);
  }

  /** The bytes of an optional address: none, or octets and port as in a node. */
  lemma WrapperLayout(a: SocketAddr)
    ensures WrapperBytes(None) == []
    ensures var b, o := WrapperBytes(Some(a)), a.ip.Octets();
      |b| == |o| + 2 && b[..|o|] == o && b[|o|] == a.port / 256 && b[|o| + 1] == a.port % 256
  {
    PortBytes(a.port);
  }

  lemma {:induction false} ConcatAt(chunks: seq<seq<U8>>, size: nat, i: nat)
    requires i < |chunks| && forall c :: c in chunks ==> |c| == size
    ensures i * size + size <= |Concat(chunks)| && Concat(chunks)[i * size..i * size + size] == chunks[i]
  {
    var rest := Concat(chunks[1..]);
    assert chunks[0] in chunks && Concat(chunks) == chunks[0] + rest;
    if i > 0 {
      ConcatAt(chunks[1..], size, i - 1);
      var at := (i - 1) * size;
      assert i * size == at + size;
      assert Concat(chunks)[at + size..at + size + size] == rest[at..at + size];
    }
  }

  /** Lists are written in order, each node in 26 bytes. */
  lemma NodeListLayout(nodes: seq<Ip4Node>, i: nat)
    requires i < |nodes|
    ensures i * 26 + 26 <= |EncodeNodes(nodes)| && EncodeNodes(nodes)[i * 26..i * 26 + 26] == Ip4Record(nodes[i])
  {
    var records: seq<seq<U8>> := seq(|nodes|, j requires 0 <= j < |nodes| => Ip4Record(nodes[j]));
    ConcatAt(records, 26, i);
    assert EncodeNodes(nodes) == Concat(records);
  }

  /** And each info hash in 20. */
  lemma HashListLayout(hashes: seq<U160>, i: nat)
    requires i < |hashes|
    ensures i * 20 + 20 <= |EncodeHashes(hashes)| && EncodeHashes(hashes)[i * 20..i * 20 + 20] == ToBeBytes(hashes[i])
  {
    var records: seq<seq<U8>> := seq(|hashes|, j requires 0 <= j < |hashes| => ToBeBytes(hashes[j]));
    ConcatAt(records, 20, i);
    assert EncodeHashes(hashes) == Concat(records);
  }
}

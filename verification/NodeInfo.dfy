/** Addresses and DHT nodes, and the order in which nodes are kept. */
module NodeInfos {
  import opened U160s

  type Octets4 = s: seq<U8> | |s| == 4 witness [0, 0, 0, 0]
  type Octets16 = s: seq<U8> | |s| == 16 witness [0, 0, 0, 0, 0, 0, 0, 0, 0, 0, 0, 0, 0, 0, 0, 0]

  datatype IpAddr = V4(octets4: Octets4) | V6(octets16: Octets16) {
    function Octets(): seq<U8> {
      match this
      case V4(o) => o
      case V6(o) => o
    }
  }

  datatype SocketAddr = SocketAddr(ip: IpAddr, port: U16) {
    /** IPv4 before IPv6, then by octets, then by port. */
    predicate Less(other: SocketAddr) {
      || (ip.V4? && other.ip.V6?)
      || (ip.V4? == other.ip.V4? && BytesLess(ip.Octets(), other.ip.Octets()))
      || (ip == other.ip && port < other.port)
    }
  }

  datatype NodeInfo = NodeInfo(id: U160, addr: SocketAddr) {
    /** By identifier, and by address where identifiers agree. */
    predicate Less(other: NodeInfo) {
      id.Less(other.id) || (id == other.id && addr.Less(other.addr))
    }
  }

  predicate BytesLess(a: seq<U8>, b: seq<U8>) {
    b != [] && (a == [] || a[0] < b[0] || (a[0] == b[0] && BytesLess(a[1..], b[1..])))
  }

  lemma {:induction false} BytesOrder(a: seq<U8>, b: seq<U8>)
    ensures a == b || BytesLess(a, b) || BytesLess(b, a)
    ensures !(BytesLess(a, b) && BytesLess(b, a)) && !BytesLess(a, a)
  {
    if a != [] {
      BytesOrder(a[1..], if b == [] then [] else b[1..]);
      assert a == [a[0]] + a[1..];
      assert b != [] ==> b == [b[0]] + b[1..];
    }
  }

  lemma {:induction false} BytesTransitive(a: seq<U8>, b: seq<U8>, c: seq<U8>)
    requires BytesLess(a, b) && BytesLess(b, c)
    ensures BytesLess(a, c)
  {
    if a != [] && a[0] == b[0] && b[0] == c[0] {
      BytesTransitive(a[1..], b[1..], c[1..]);
    }
  }

  /** The order of nodes is a strict total order, so an ordered set of nodes has one least member. */
  lemma NodeOrder(a: NodeInfo, b: NodeInfo)
    ensures a == b || a.Less(b) || b.Less(a)
    ensures !(a.Less(b) && b.Less(a)) && !a.Less(a)
  {
    NatInjective(a.id, b.id);
    LessIsNumeric(a.id, b.id);
    LessIsNumeric(b.id, a.id);
    BytesOrder(a.addr.ip.Octets(), b.addr.ip.Octets());
  }

  lemma NodeTransitive(a: NodeInfo, b: NodeInfo, c: NodeInfo)
    requires a.Less(b) && b.Less(c)
    ensures a.Less(c)
  {
    if BytesLess(a.addr.ip.Octets(), b.addr.ip.Octets()) && BytesLess(b.addr.ip.Octets(), c.addr.ip.Octets()) {
      BytesTransitive(a.addr.ip.Octets(), b.addr.ip.Octets(), c.addr.ip.Octets());
    }
  }

  // ----- what the order goes by -----

  /** The first octet where two addresses differ decides. */
  lemma {:induction false} FirstOctetDecides(a: seq<U8>, b: seq<U8>, i: nat)
    requires i < |a| && i < |b| && a[..i] == b[..i] && a[i] < b[i]
    ensures BytesLess(a, b)
  {
    if i > 0 {
      assert a[0] == a[..i][0] && b[0] == b[..i][0];
      assert a[1..][..i - 1] == a[..i][1..] && b[1..][..i - 1] == b[..i][1..];
      FirstOctetDecides(a[1..], b[1..], i - 1);
    }
  }

  /** Nodes are ordered by identifier; where identifiers agree IPv4 comes before IPv6, then the first
      octet that differs decides, then the port. */
  lemma NodeOrderGoesBy(a: NodeInfo, b: NodeInfo, i: nat)
    ensures a.id.Nat() < b.id.Nat() ==> a.Less(b)
    ensures a.id == b.id && a.addr.ip.V4? && b.addr.ip.V6? ==> a.Less(b)
    ensures a.id == b.id && a.addr.ip.V4? == b.addr.ip.V4? ==>
      var x, y := a.addr.ip.Octets(), b.addr.ip.Octets();
      i < |x| && x[..i] == y[..i] && x[i] < y[i] ==> a.Less(b)
    ensures a.id == b.id && a.addr.ip == b.addr.ip && a.addr.port < b.addr.port ==> a.Less(b)
  {
    LessIsNumeric(a.id, b.id);
    var x, y := a.addr.ip.Octets(), b.addr.ip.Octets();
    if a.addr.ip.V4? == b.addr.ip.V4? && i < |x| && x[..i] == y[..i] && x[i] < y[i] { FirstOctetDecides(x, y, i); }
  }
}

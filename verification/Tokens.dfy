/** Announce tokens: made for an address at a time, and valid for that address for 120 seconds.
    The checksum and the key stream are arbitrary functions; the clock and the random bytes are
    parameters. */
module Tokens {
  import opened Bits
  import opened U160s
  import opened NodeInfos
  import opened Wrappers
  import opened BigEndian
  import opened NodeIds
  import opened Codecs

  const TOKEN_VALID_SECONDS: nat := 120

  type Seconds = x: nat | x < TWO_64

  type Bytes8 = s: seq<U8> | |s| == 8 witness seq(8, _ => 0)
  type Bytes12 = s: seq<U8> | |s| == 12 witness seq(12, _ => 0)

  /** The first bytes of the key stream that a nonce selects, under the generator's key. */
  type KeyStream = Bytes12 -> Bytes8

  // ----- the key stream -----

  function XorByte(x: U8, y: U8): (z: U8) {
    SmallPowers();
    BitwiseBound(Gate.Xor, x, y, 8);
    Bitwise(Gate.Xor, x, y)
  }

  function XorBytes(a: Bytes8, k: Bytes8): (b: Bytes8) {
    seq(8, i requires 0 <= i < 8 => XorByte(a[i], k[i]))
  }

  lemma XorByteBit(x: U8, y: U8, i: nat)
    ensures Bit(XorByte(x, y), i) <==> Bit(x, i) != Bit(y, i)
  {
    BitwiseBit(Gate.Xor, x, y, i);
  }

  lemma XorByteTwice(x: U8, y: U8)
    ensures XorByte(XorByte(x, y), y) == x
  {
    SmallPowers();
    forall i: nat | i < 8 ensures Bit(XorByte(XorByte(x, y), y), i) == Bit(x, i) {
      BitwiseBit(Gate.Xor, x, y, i);
      BitwiseBit(Gate.Xor, XorByte(x, y), y, i);
    }
    BitsDecide(XorByte(XorByte(x, y), y), x, 8);
  }

  /** Applying the key stream twice restores the bytes. */
  lemma XorBytesTwice(a: Bytes8, k: Bytes8)
    ensures XorBytes(XorBytes(a, k), k) == a
  {
    forall i | 0 <= i < 8 ensures XorBytes(XorBytes(a, k), k)[i] == a[i] {
      XorByteTwice(a[i], k[i]);
    }
  }

  method ApplyKeyStream(buffer: array<U8>, k: Bytes8)
    requires buffer.Length == 8
    modifies buffer
    ensures buffer[..] == XorBytes(old(buffer[..]), k)
  {
    for i := 0 to 8
      invariant forall j :: 0 <= j < i ==> buffer[j] == XorByte(old(buffer[j]), k[j])
      invariant forall j :: i <= j < 8 ==> buffer[j] == old(buffer[j])
    {
      buffer[i] := XorByte(buffer[i], k[i]);
    }
  }

  // ----- tokens -----

  function IpHash(ip: IpAddr, time: Bytes8, random: Bytes8, crc: Crc): (h: seq<U8>)
    ensures |h| == 4
  {
    Encode(crc(ip.Octets() + time + random), 4)
  }

  function Nonce(ip: IpAddr, now: Seconds, random: Bytes8, crc: Crc): Bytes12 {
    IpHash(ip, Encode(now, 8), random, crc) + random
  }

  function Token(ip: IpAddr, now: Seconds, random: Bytes8, crc: Crc, stream: KeyStream): Bytes20 {
    var nonce := Nonce(ip, now, random, crc);
    nonce + XorBytes(Encode(now, 8), stream(nonce))
  }

  function HiddenTime(token: Bytes20, stream: KeyStream): Bytes8 {
    XorBytes(token[12..], stream(token[..12]))
  }

  function Stamp(time: Bytes8): (t: Seconds) {
    LargePowers();
    ValueBound(time);
    Value(time)
  }

  /** The comparison of times as the program makes it; with overflow checks the sum may panic. */
  function InWindow(stamp: Seconds, now: Seconds, checks: bool): Option<bool> {
    if stamp > now then Some(false)
    else if stamp + TOKEN_VALID_SECONDS < TWO_64 then Some(stamp + TOKEN_VALID_SECONDS > now)
    else if checks then None
    else Some((stamp + TOKEN_VALID_SECONDS) % TWO_64 > now)
  }

  function Accepted(token: seq<U8>, ip: IpAddr, now: Seconds, crc: Crc, stream: KeyStream, checks: bool): Option<bool> {
    if |token| != 20 then Some(false)
    else
      var time := HiddenTime(token, stream);
      if IpHash(ip, time, token[4..12], crc) != token[..4] then Some(false)
      else InWindow(Stamp(time), now, checks)
  }

  class TokenGenerator {
    const crc: Crc
    const stream: KeyStream

    constructor (crc: Crc, stream: KeyStream)
      ensures this.crc == crc && this.stream == stream
    {
      this.crc, this.stream := crc, stream;
    }

    method Generate(ip: IpAddr, now: Seconds, random: Bytes8) returns (token: array<U8>)
      ensures fresh(token) && token[..] == Token(ip, now, random, crc, stream)
    {
      var timestamp := new U8[8](_ => 0);
      CopyFromSlice(timestamp, 0, Encode(now, 8));
      assert timestamp[..] == Encode(now, 8);
      var ipBytes := ip.Octets();
      ipBytes := ipBytes + timestamp[..];
      ipBytes := ipBytes + random;
      ghost var hash := IpHash(ip, Encode(now, 8), random, crc);
      var nonce := new U8[12](_ => 0);
      CopyFromSlice(nonce, 0, Encode(crc(ipBytes), 4));
      assert nonce[..4] == hash;
      CopyFromSlice(nonce, 4, random);
      assert nonce[..] == hash + random == Nonce(ip, now, random, crc);
      ApplyKeyStream(timestamp, stream(nonce[..]));
      ghost var hidden := XorBytes(Encode(now, 8), stream(hash + random));
      assert timestamp[..] == hidden;
      token := new U8[20](_ => 0);
      CopyFromSlice(token, 0, nonce[..]);
      assert token[..12] == hash + random;
      CopyFromSlice(token, 12, timestamp[..]);
      assert token[..] == (hash + random) + hidden;
    }

    method Validate(token: seq<U8>, ip: IpAddr, now: Seconds, checks: bool) returns (valid: Option<bool>)
      ensures valid == Accepted(token, ip, now, crc, stream, checks)
    {
      if |token| != 20 {
        return Some(false);
      }
      var nonce := new U8[12](_ => 0);
      CopyFromSlice(nonce, 0, token[..12]);
      var timestamp := new U8[8](_ => 0);
      CopyFromSlice(timestamp, 0, token[12..]);
      assert nonce[..] == token[..12] && timestamp[..] == token[12..];
      ApplyKeyStream(timestamp, stream(nonce[..]));
      assert timestamp[..] == HiddenTime(token, stream);
      var ipBytes := ip.Octets();
      var random := nonce[4..];
      assert random == token[4..12];
      ipBytes := ipBytes + timestamp[..];
      ipBytes := ipBytes + random;
      if Encode(crc(ipBytes), 4) != nonce[..4] {
        return Some(false);
      }
      return InWindow(Stamp(timestamp[..]), now, checks);
    }
  }

  // ----- what it means -----

  lemma TokenParts(ip: IpAddr, t: Seconds, random: Bytes8, crc: Crc, stream: KeyStream)
    ensures var token := Token(ip, t, random, crc, stream);
      && HiddenTime(token, stream) == Encode(t, 8) && token[4..12] == random
      && token[..4] == IpHash(ip, Encode(t, 8), random, crc)
  {
    var token, nonce := Token(ip, t, random, crc, stream), Nonce(ip, t, random, crc);
    assert token[..12] == nonce && token[12..] == XorBytes(Encode(t, 8), stream(nonce));
    XorBytesTwice(Encode(t, 8), stream(nonce));
    assert token[4..12] == nonce[4..] && token[..4] == nonce[..4];
  }

  lemma StampOfEncode(t: Seconds)
    ensures Stamp(Encode(t, 8)) == t
  {
    LargePowers();
    ValueOfEncode(t, 8);
  }

  /** A token made at `t` is valid for its address at `t'` exactly when `t <= t' < t + 120`; only in
      the last 120 seconds that the clock can show does the sum overflow: it then panics with
      overflow checks, and without them no token made then is ever valid. */
  lemma TokenWindow(ip: IpAddr, t: Seconds, t': Seconds, random: Bytes8, crc: Crc, stream: KeyStream, checks: bool)
    ensures Accepted(Token(ip, t, random, crc, stream), ip, t', crc, stream, checks)
         == if checks && t <= t' && t + TOKEN_VALID_SECONDS >= TWO_64 then None
            else Some(t <= t' < t + TOKEN_VALID_SECONDS < TWO_64)
  {
    TokenParts(ip, t, random, crc, stream);
    StampOfEncode(t);
  }

  /** Only made tokens are valid: whatever is accepted for an address is the token that generation
      makes for it, at some time of the last 120 seconds and from some random bytes. */
  lemma ValidIsGenerated(token: seq<U8>, ip: IpAddr, now: Seconds, crc: Crc, stream: KeyStream, checks: bool)
    requires Accepted(token, ip, now, crc, stream, checks) == Some(true)
    ensures |token| == 20
    ensures var t := Stamp(HiddenTime(token, stream));
      t <= now < t + TOKEN_VALID_SECONDS < TWO_64 && token == Token(ip, t, token[4..12], crc, stream)
  {
    var time := HiddenTime(token, stream);
    EncodeOfValue(time);
    XorBytesTwice(token[12..], stream(token[..12]));
    assert token[..12] == token[..4] + token[4..12];
    assert Nonce(ip, Stamp(time), token[4..12], crc) == token[..12];
    assert token == token[..12] + token[12..];
  }

  // ----- other addresses -----

  /** A token is accepted, at its time, exactly for the addresses that give the checksum of the one it
      was made for; for all others it is refused. */
  lemma TokenBindsAddress(a: IpAddr, b: IpAddr, t: Seconds, t': Seconds, random: Bytes8, crc: Crc, stream: KeyStream, checks: bool)
    ensures var time := Encode(t, 8);
      Accepted(Token(a, t, random, crc, stream), b, t', crc, stream, checks)
      == if crc(a.Octets() + time + random) != crc(b.Octets() + time + random) then Some(false)
         else if checks && t <= t' && t + 120 >= TWO_64 then None
         else Some(t <= t' < t + 120 < TWO_64)
  {
    TokenParts(a, t, random, crc, stream);
    StampOfEncode(t);
    HashesApart(a, b, Encode(t, 8), random, crc);
  }

  lemma HashesApart(a: IpAddr, b: IpAddr, time: Bytes8, random: Bytes8, crc: Crc)
    ensures IpHash(a, time, random, crc) == IpHash(b, time, random, crc) <==>
      crc(a.Octets() + time + random) == crc(b.Octets() + time + random)
  {
    Width32();
    ValueOfEncode(crc(a.Octets() + time + random), 4);
    ValueOfEncode(crc(b.Octets() + time + random), 4);
  }

  ghost predicate Made(token: seq<U8>, ip: IpAddr, t: Seconds, random: Bytes8, crc: Crc, stream: KeyStream) {
    && |token| == 20
    && token[..4] == Encode(crc(ip.Octets() + Encode(t, 8) + random), 4)
    && token[4..12] == random
    && (forall i :: 0 <= i < 8 ==> token[12 + i] == XorByte(Encode(t, 8)[i], stream(token[..12])[i]))
  }

  lemma MadeIsToken(token: seq<U8>, ip: IpAddr, t: Seconds, random: Bytes8, crc: Crc, stream: KeyStream)
    requires Made(token, ip, t, random, crc, stream)
    ensures token == Token(ip, t, random, crc, stream)
  {
    var nonce := Nonce(ip, t, random, crc);
    assert token[..12] == token[..4] + token[4..12];
    assert token == token[..12] + token[12..];
    assert token[12..] == XorBytes(Encode(t, 8), stream(nonce));
  }

  lemma TokenIsMade(ip: IpAddr, t: Seconds, random: Bytes8, crc: Crc, stream: KeyStream)
    ensures Made(Token(ip, t, random, crc, stream), ip, t, random, crc, stream)
  {
    var token, nonce := Token(ip, t, random, crc, stream), Nonce(ip, t, random, crc);
    TokenParts(ip, t, random, crc, stream);
    assert token[..12] == nonce;
  }

  /** What is accepted, on the bytes themselves: a checksum over address, time and nonce bytes, the
      nonce bytes, and the time under the key stream of these twelve bytes, no older than 120 seconds. */
  lemma AcceptedExactlyWhenMade(token: seq<U8>, ip: IpAddr, now: Seconds, crc: Crc, stream: KeyStream, checks: bool)
    ensures Accepted(token, ip, now, crc, stream, checks) == Some(true) <==>
      exists t: Seconds, random: Bytes8 :: t <= now < t + 120 < TWO_64 && Made(token, ip, t, random, crc, stream)
  {
    if Accepted(token, ip, now, crc, stream, checks) == Some(true) {
      ValidIsGenerated(token, ip, now, crc, stream, checks);
      TokenIsMade(ip, Stamp(HiddenTime(token, stream)), token[4..12], crc, stream);
    }
    forall t: Seconds, random: Bytes8 |
      t <= now < t + 120 < TWO_64 && Made(token, ip, t, random, crc, stream)
      ensures Accepted(token, ip, now, crc, stream, checks) == Some(true)
    {
      MadeIsToken(token, ip, t, random, crc, stream);
      TokenWindow(ip, t, now, random, crc, stream, checks);
    }
  }

  /** The comparison overflows, and panics with checks, exactly on tokens made in the last 120 seconds
      that the clock can show. */
  lemma OverflowsExactlyWhenMade(token: seq<U8>, ip: IpAddr, now: Seconds, crc: Crc, stream: KeyStream, checks: bool)
    ensures Accepted(token, ip, now, crc, stream, checks) == None <==>
      checks && exists t: Seconds, random: Bytes8 :: t <= now && t + 120 >= TWO_64 && Made(token, ip, t, random, crc, stream)
  {
    if Accepted(token, ip, now, crc, stream, checks) == None {
      HashedIsMade(token, ip, crc, stream);
      assert Made(token, ip, Stamp(HiddenTime(token, stream)), token[4..12], crc, stream);
    }
    forall t: Seconds, random: Bytes8 |
      checks && t <= now && t + 120 >= TWO_64 && Made(token, ip, t, random, crc, stream)
      ensures Accepted(token, ip, now, crc, stream, checks) == None
    {
      MadeIsToken(token, ip, t, random, crc, stream);
      TokenWindow(ip, t, now, random, crc, stream, checks);
    }
  }

  lemma HashedIsMade(token: Bytes20, ip: IpAddr, crc: Crc, stream: KeyStream)
    requires IpHash(ip, HiddenTime(token, stream), token[4..12], crc) == token[..4]
    ensures Made(token, ip, Stamp(HiddenTime(token, stream)), token[4..12], crc, stream)
  {
    var time := HiddenTime(token, stream);
    EncodeOfValue(time);
    XorBytesTwice(token[12..], stream(token[..12]));
    assert Encode(Stamp(time), 8) == time;
    assert XorBytes(time, stream(token[..12])) == token[12..];
  }
}

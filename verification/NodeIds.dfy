/** Identifiers derived from an address by the formula of BEP 42, and their validation. The
    checksum is an arbitrary function and the random bits are arbitrary. */
module NodeIds {
  import opened Bits
  import opened U160s
  import opened NodeInfos
  import opened BigEndian
  import opened Shifts

  type Crc = seq<U8> -> U32

  const TWO_64: nat := 0x1_0000_0000_0000_0000

  const IP4_MASK: U32 := 0x030f_3fff
  const IP6_MASK: nat := 0x0103_070f_1f3f_7fff

  // The bits that an identifier takes from the checksum, and those it does not.
  const CRC_MASK: U32 := 0xffff_f800
  const RANDOM_MS: U128 := 0x0000_07ff_ffff_ffff_ffff_ffff_ffff_ffff
  const RANDOM_LS: U32 := 0xffff_fff8
  const FILTER := U160(0xffff_f800_0000_0000_0000_0000_0000_0000, 0x0000_0007)

  // ----- the masks, bit by bit -----

  lemma SmallPowers()
    ensures Pow2(3) == 8 && Pow2(8) == 256 && Pow2(11) == 0x800 && Pow2(21) == 0x20_0000
    ensures Pow2(29) == 0x2000_0000
  {
    assert Pow2(3) == 8 && Pow2(8) == 256;
    Pow2Add(3, 8);
    Pow2Add(11, 8);
    Pow2Add(19, 2);
    Pow2Add(21, 8);
  }

  lemma LargePowers()
    ensures Pow2(64) == TWO_64 && Pow2(107) == 0x800_0000_0000_0000_0000_0000_0000
  {
    SmallPowers();
    Widths();
    Pow2Add(32, 32);
    Pow2Add(64, 32);
    Pow2Add(96, 11);
  }

  lemma HighMaskBit(low: nat, n: nat, k: nat, i: nat)
    requires low == Pow2(n) - 1
    ensures Bit(low * Pow2(k), i) == (k <= i < n + k)
  {
    BitMul(low, k, i);
    if i >= k { BitOfMask(n, i - k); }
  }

  lemma CrcMaskBit(i: nat)
    ensures Bit(CRC_MASK, i) == (11 <= i < 32)
  {
    SmallPowers();
    HighMaskBit(0x1f_ffff, 21, 11, i);
  }

  lemma RandomMsBit(i: nat)
    ensures Bit(RANDOM_MS, i) == (i < 107)
  {
    LargePowers();
    BitOfMask(107, i);
  }

  lemma RandomLsBit(i: nat)
    ensures Bit(RANDOM_LS, i) == (3 <= i < 32)
  {
    SmallPowers();
    HighMaskBit(0x1fff_ffff, 29, 3, i);
  }

  lemma SevenBit(i: nat)
    ensures Bit(7, i) == (i < 3)
  {
    SmallPowers();
    BitOfMask(3, i);
  }

  lemma FilterMsBit(i: nat)
    ensures Bit(FILTER.ms, i) == (107 <= i < 128)
  {
    SmallPowers();
    LargePowers();
    HighMaskBit(0x1f_ffff, 21, 107, i);
  }

  // ----- the program -----

  function Word64(g: Gate, x: nat, y: nat): (z: nat)
    requires x < TWO_64 && y < TWO_64
    ensures z < TWO_64
  {
    LargePowers();
    BitwiseBound(g, x, y, 64);
    Bitwise(g, x, y)
  }

  function Left64(x: nat, s: nat): (z: nat)
    ensures z < TWO_64
  {
    LargePowers();
    Left(x, s, 64)
  }

  function Octets8(ip: Octets16): (n: nat)
    ensures n < TWO_64
  {
    LargePowers();
    ValueBound(ip[..8]);
    Value(ip[..8])
  }

  /** The three lowest bits of a byte. */
  function Low3(x: U8): (r: U8)
    ensures r == x % 8
  {
    Low3IsMasked(x);
    Bitwise(And, x, 7)
  }

  lemma Low3Twice(x: U8)
    ensures Low3(Low3(x)) == Low3(x)
  {
    var y := Low3(x);
    assert y % 8 == y;
  }

  lemma Low3IsMasked(x: U8)
    ensures Bitwise(And, x, 7) == x % 8
  {
    SmallPowers();
    BitwiseBound(And, x, 7, 8);
    forall i: nat | i < 8 ensures Bit(Bitwise(And, x, 7), i) == Bit(x % 8, i) {
      BitwiseBit(And, x, 7, i);
      SevenBit(i);
      BitMod(x, 3, i);
    }
    BitsDecide(Bitwise(And, x, 7), x % 8, 8);
  }

  function Checksum(ip: IpAddr, r: U8, crc: Crc): U32 {
    match ip
    case V4(o) => crc(Encode(Word32(Or, Word32(And, Word32Of(o), IP4_MASK), Left32(r, 29)), 4))
    case V6(o) => crc(Encode(Word64(Or, Word64(And, Octets8(o), IP6_MASK), Left64(r, 61)), 8))
  }

  function FromIpWithR(ip: IpAddr, r: U8, crc: Crc, randomMs: U128, randomLs: U32): U160 {
    U160(Word128(Or, Word128(And, randomMs, RANDOM_MS), Left128(Word32(And, Checksum(ip, r, crc), CRC_MASK), 96)),
         Word32(Or, Word32(And, randomLs, RANDOM_LS), Low3(r)))
  }

  function FromIp(ip: IpAddr, random: U8, crc: Crc, randomMs: U128, randomLs: U32): U160 {
    FromIpWithR(ip, Low3(random), crc, randomMs, randomLs)
  }

  function RandomByte(id: U160): U8 {
    Low3(Encode(id.ls, 4)[3])
  }

  /** The test derives an identifier afresh, with random bits of its own. */
  predicate Validate(id: U160, ip: IpAddr, crc: Crc, randomMs: U128, randomLs: U32) {
    id.And(FILTER) == FromIpWithR(ip, RandomByte(id), crc, randomMs, randomLs).And(FILTER)
  }

  // ----- the formula of BEP 42, octet by octet -----

  /** Each octet masked by its own mask, and the random number in the top three bits of the first. */
  function MaskedOctets(o: seq<U8>, m: seq<U8>, r: U8): (t: seq<U8>)
    requires |o| == |m|
    ensures |t| == |o|
  {
    seq(|o|, i requires 0 <= i < |o| =>
      OrByte(AndByte(o[i], m[i]), if i == 0 then Left8(r, 5) else 0))
  }

  function AndByte(x: U8, y: U8): U8 {
    SmallPowers();
    BitwiseBound(And, x, y, 8);
    Bitwise(And, x, y)
  }

  function OrByte(x: U8, y: U8): U8 {
    SmallPowers();
    BitwiseBound(Or, x, y, 8);
    Bitwise(Or, x, y)
  }

  function Left8(x: U8, s: nat): U8 {
    SmallPowers();
    Left(x, s, 8)
  }

  const IP4_OCTET_MASKS: seq<U8> := [0x03, 0x0f, 0x3f, 0xff]
  const IP6_OCTET_MASKS: seq<U8> := [0x01, 0x03, 0x07, 0x0f, 0x1f, 0x3f, 0x7f, 0xff]

  /** What BEP 42 feeds to the checksum: for IPv6 only the first half of the address. */
  function Bep42Octets(ip: IpAddr, r: U8): seq<U8> {
    match ip
    case V4(o) => MaskedOctets(o, IP4_OCTET_MASKS, r)
    case V6(o) => MaskedOctets(o[..8], IP6_OCTET_MASKS, r)
  }

  lemma MaskedOctetBit(x: U8, y: U8, r: U8, first: bool, i: nat)
    ensures Bit(OrByte(AndByte(x, y), if first then Left8(r, 5) else 0), i)
         == ((Bit(x, i) && Bit(y, i)) || (first && 5 <= i < 8 && Bit(r, i - 5)))
  {
    BitwiseBit(Or, AndByte(x, y), if first then Left8(r, 5) else 0, i);
    BitwiseBit(And, x, y, i);
    LeftBit(r, 5, 8, i);
    BitOfZero(i);
  }

  lemma MaskedWordBit(o: seq<U8>, m: seq<U8>, r: U8, width: nat, i: nat)
    requires |o| == |m| > 0 && width == 8 * |o| && i < width
    ensures Bit(Bitwise(Or, Bitwise(And, Value(o), Value(m)), Left(r, width - 3, width)), i)
         == Bit(Value(MaskedOctets(o, m, r)), i)
  {
    var k := |o| - 1 - i / 8;
    BitwiseBit(Or, Bitwise(And, Value(o), Value(m)), Left(r, width - 3, width), i);
    BitwiseBit(And, Value(o), Value(m), i);
    LeftBit(r, width - 3, width, i);
    ValueBit(o, i);
    ValueBit(m, i);
    ValueBit(MaskedOctets(o, m, r), i);
    MaskedOctetBit(o[k], m[k], r, k == 0, i % 8);
    assert k == 0 <==> i >= width - 8;
    assert k == 0 ==> i % 8 == i - (width - 8);
  }

  /** Masking the whole word and shifting the random number to its top is masking octet by octet. */
  lemma MaskedWord(o: seq<U8>, m: seq<U8>, r: U8, width: nat)
    requires |o| == |m| > 0 && width == 8 * |o|
    ensures Encode(Bitwise(Or, Bitwise(And, Value(o), Value(m)), Left(r, width - 3, width)), |o|) == MaskedOctets(o, m, r)
  {
    var word, t := Bitwise(Or, Bitwise(And, Value(o), Value(m)), Left(r, width - 3, width)), MaskedOctets(o, m, r);
    ValueBound(o);
    ValueBound(m);
    ValueBound(t);
    BitwiseBound(And, Value(o), Value(m), width);
    BitwiseBound(Or, Bitwise(And, Value(o), Value(m)), Left(r, width - 3, width), width);
    forall i: nat | i < width ensures Bit(word, i) == Bit(Value(t), i) {
      MaskedWordBit(o, m, r, width, i);
    }
    BitsDecide(word, Value(t), width);
    EncodeOfValue(t);
  }

  lemma FourBytes(s: seq<U8>)
    requires |s| == 4
    ensures Value(s) == 256 * (256 * (256 * (s[0] as int) + s[1]) + s[2]) + s[3]
  {
    assert s[..3][..2] == s[..2] && s[..3][2] == s[2];
    assert s[..2][..1] == s[..1] && s[..2][1] == s[1];
    assert Value(s[..1]) == s[0];
    assert Value(s[..2]) == 256 * Value(s[..1]) + s[1];
    assert Value(s[..3]) == 256 * Value(s[..2]) + s[2];
  }

  lemma MaskValues()
    ensures Value(IP4_OCTET_MASKS) == IP4_MASK && Value(IP6_OCTET_MASKS) == IP6_MASK
  {
    var m := IP6_OCTET_MASKS;
    ValueOfConcat(m[..4], m[4..]);
    assert m == m[..4] + m[4..];
    FourBytes(IP4_OCTET_MASKS);
    FourBytes(m[..4]);
    FourBytes(m[4..]);
    Widths();
  }

  /** The checksum that the program computes on words is the one that BEP 42 defines on octets. */
  lemma ChecksumIsBep42(ip: IpAddr, r: U8, crc: Crc)
    ensures Checksum(ip, r, crc) == crc(Bep42Octets(ip, r))
  {
    MaskValues();
    match ip {
      case V4(o) => MaskedWord(o, IP4_OCTET_MASKS, r, 32);
      case V6(o) => MaskedWord(o[..8], IP6_OCTET_MASKS, r, 64);
    }
  }

  // ----- what it means -----

  /** The bits that a derived identifier has. */
  ghost predicate Derived(id: U160, checksum: U32, r: U8, randomMs: U128, randomLs: U32) {
    && (forall i: nat :: i < 128 ==> Bit(id.ms, i) == if i < 107 then Bit(randomMs, i) else Bit(checksum, i - 96))
    && (forall i: nat :: i < 32 ==> Bit(id.ls, i) == if i < 3 then Bit(r, i) else Bit(randomLs, i))
  }

  lemma Low3Bit(x: U8, i: nat)
    ensures Bit(Low3(x), i) == (i < 3 && Bit(x, i))
  {
    SmallPowers();
    BitMod(x, 3, i);
  }

  lemma CrcPartBit(checksum: U32, i: nat)
    requires i < 128
    ensures Bit(Left128(Word32(And, checksum, CRC_MASK), 96), i) == (i >= 107 && Bit(checksum, i - 96))
  {
    Left128Bit(Word32(And, checksum, CRC_MASK), 96, i);
    if i >= 96 {
      BitwiseBit(And, checksum, CRC_MASK, i - 96);
      CrcMaskBit(i - 96);
    }
  }

  lemma RandomPartBit(randomMs: U128, i: nat)
    ensures Bit(Word128(And, randomMs, RANDOM_MS), i) == (i < 107 && Bit(randomMs, i))
  {
    BitwiseBit(And, randomMs, RANDOM_MS, i);
    RandomMsBit(i);
  }

  lemma DerivedMsBit(checksum: U32, randomMs: U128, i: nat)
    requires i < 128
    ensures Bit(Word128(Or, Word128(And, randomMs, RANDOM_MS), Left128(Word32(And, checksum, CRC_MASK), 96)), i)
         == if i < 107 then Bit(randomMs, i) else Bit(checksum, i - 96)
  {
    BitwiseBit(Or, Word128(And, randomMs, RANDOM_MS), Left128(Word32(And, checksum, CRC_MASK), 96), i);
    RandomPartBit(randomMs, i);
    CrcPartBit(checksum, i);
  }

  lemma DerivedLsBit(r: U8, randomLs: U32, i: nat)
    requires i < 32
    ensures Bit(Word32(Or, Word32(And, randomLs, RANDOM_LS), Low3(r)), i) == if i < 3 then Bit(r, i) else Bit(randomLs, i)
  {
    BitwiseBit(Or, Word32(And, randomLs, RANDOM_LS), Low3(r), i);
    BitwiseBit(And, randomLs, RANDOM_LS, i);
    RandomLsBit(i);
    Low3Bit(r, i);
  }

  lemma FromIpIsDerived(ip: IpAddr, r: U8, crc: Crc, randomMs: U128, randomLs: U32)
    ensures Derived(FromIpWithR(ip, r, crc, randomMs, randomLs), Checksum(ip, r, crc), r, randomMs, randomLs)
  {
    forall i: nat | i < 128 { DerivedMsBit(Checksum(ip, r, crc), randomMs, i); }
    forall i: nat | i < 32 { DerivedLsBit(r, randomLs, i); }
  }

  lemma RandomByteBit(id: U160, i: nat)
    ensures Bit(RandomByte(id), i) == (i < 3 && Bit(id.ls, i))
  {
    SmallPowers();
    assert Encode(id.ls, 4)[3] == id.ls % 256;
    Low3Bit(id.ls % 256, i);
    BitMod(id.ls, 8, i);
  }

  lemma MaskedToBits(x: nat, y: nat, mask: nat, i: nat)
    requires Bitwise(And, x, mask) == Bitwise(And, y, mask) && Bit(mask, i)
    ensures Bit(x, i) == Bit(y, i)
  {
    BitwiseBit(And, x, mask, i);
    BitwiseBit(And, y, mask, i);
  }

  lemma BitsToMasked(x: nat, y: nat, mask: nat, n: nat)
    requires x < Pow2(n) && y < Pow2(n) && mask < Pow2(n)
    requires forall i: nat :: i < n && Bit(mask, i) ==> Bit(x, i) == Bit(y, i)
    ensures Bitwise(And, x, mask) == Bitwise(And, y, mask)
  {
    BitwiseBound(And, x, mask, n);
    BitwiseBound(And, y, mask, n);
    forall i: nat | i < n ensures Bit(Bitwise(And, x, mask), i) == Bit(Bitwise(And, y, mask), i) {
      BitwiseBit(And, x, mask, i);
      BitwiseBit(And, y, mask, i);
    }
    BitsDecide(Bitwise(And, x, mask), Bitwise(And, y, mask), n);
  }

  /** The bits that the test compares: the top 21 and the lowest three. */
  ghost predicate SameChecked(a: U160, b: U160) {
    && (forall i: nat :: 107 <= i < 128 ==> Bit(a.ms, i) == Bit(b.ms, i))
    && (forall i: nat :: i < 3 ==> Bit(a.ls, i) == Bit(b.ls, i))
  }

  lemma FilteredIsChecked(a: U160, b: U160)
    requires a.And(FILTER) == b.And(FILTER)
    ensures SameChecked(a, b)
  {
    forall i: nat | 107 <= i < 128 ensures Bit(a.ms, i) == Bit(b.ms, i) {
      FilterMsBit(i);
      MaskedToBits(a.ms, b.ms, FILTER.ms, i);
    }
    forall i: nat | i < 3 ensures Bit(a.ls, i) == Bit(b.ls, i) {
      SevenBit(i);
      MaskedToBits(a.ls, b.ls, FILTER.ls, i);
    }
  }

  lemma CheckedIsFiltered(a: U160, b: U160)
    requires SameChecked(a, b)
    ensures a.And(FILTER) == b.And(FILTER)
  {
    Widths();
    forall i: nat | i < 128 && Bit(FILTER.ms, i) ensures Bit(a.ms, i) == Bit(b.ms, i) {
      FilterMsBit(i);
    }
    BitsToMasked(a.ms, b.ms, FILTER.ms, 128);
    forall i: nat | i < 32 && Bit(FILTER.ls, i) ensures Bit(a.ls, i) == Bit(b.ls, i) {
      SevenBit(i);
    }
    BitsToMasked(a.ls, b.ls, FILTER.ls, 32);
  }

  lemma SameByte(x: U8, y: U8)
    requires forall i: nat :: i < 8 ==> Bit(x, i) == Bit(y, i)
    ensures x == y
  {
    SmallPowers();
    BitsDecide(x, y, 8);
  }

  lemma SameId(a: U160, b: U160)
    requires forall i: nat :: i < 128 ==> Bit(a.ms, i) == Bit(b.ms, i)
    requires forall i: nat :: i < 32 ==> Bit(a.ls, i) == Bit(b.ls, i)
    ensures a == b
  {
    Widths();
    BitsDecide(a.ms, b.ms, 128);
    BitsDecide(a.ls, b.ls, 32);
  }

  /** An identifier derived from an address is valid for it, whatever the random bits of either. */
  lemma DerivedIsValid(ip: IpAddr, random: U8, crc: Crc, ms: U128, ls: U32, ms': U128, ls': U32)
    ensures Validate(FromIp(ip, random, crc, ms, ls), ip, crc, ms', ls')
  {
    var r, id := Low3(random), FromIp(ip, random, crc, ms, ls);
    FromIpIsDerived(ip, r, crc, ms, ls);
    forall i: nat | i < 8 ensures Bit(RandomByte(id), i) == Bit(r, i) {
      RandomByteBit(id, i);
      Low3Bit(random, i);
    }
    SameByte(RandomByte(id), r);
    FromIpIsDerived(ip, r, crc, ms', ls');
    CheckedIsFiltered(id, FromIpWithR(ip, r, crc, ms', ls'));
  }

  lemma DerivedTwice(id: U160, other: U160, checksum: U32, r: U8, ms: U128, ls: U32)
    requires Derived(other, checksum, r, ms, ls) && id.And(FILTER) == other.And(FILTER)
    requires forall i: nat :: i < 3 ==> Bit(r, i) == Bit(id.ls, i)
    ensures Derived(id, checksum, r, id.ms, id.ls)
  {
    FilteredIsChecked(id, other);
  }

  lemma DerivedIsUnique(a: U160, b: U160, checksum: U32, r: U8, ms: U128, ls: U32)
    requires Derived(a, checksum, r, ms, ls) && Derived(b, checksum, r, ms, ls)
    ensures a == b
  {
    SameId(a, b);
  }

  lemma FilteredIsDerived(id: U160, ip: IpAddr, r: U8, crc: Crc, ms': U128, ls': U32)
    requires id.And(FILTER) == FromIpWithR(ip, r, crc, ms', ls').And(FILTER)
    requires forall i: nat :: i < 3 ==> Bit(r, i) == Bit(id.ls, i)
    ensures id == FromIpWithR(ip, r, crc, id.ms, id.ls)
  {
    FromIpIsDerived(ip, r, crc, ms', ls');
    DerivedTwice(id, FromIpWithR(ip, r, crc, ms', ls'), Checksum(ip, r, crc), r, ms', ls');
    FromIpIsDerived(ip, r, crc, id.ms, id.ls);
    DerivedIsUnique(id, FromIpWithR(ip, r, crc, id.ms, id.ls), Checksum(ip, r, crc), r, id.ms, id.ls);
  }

  /** A valid identifier is one that could have been derived: its own random bits derive it. */
  lemma ValidIsDerived(id: U160, ip: IpAddr, crc: Crc, ms': U128, ls': U32)
    requires Validate(id, ip, crc, ms', ls')
    ensures id == FromIp(ip, RandomByte(id), crc, id.ms, id.ls)
  {
    forall i: nat | i < 3 ensures Bit(RandomByte(id), i) == Bit(id.ls, i) {
      RandomByteBit(id, i);
    }
    Low3Twice(Encode(id.ls, 4)[3]);
    FilteredIsDerived(id, ip, RandomByte(id), crc, ms', ls');
  }

  /** Exactly the identifiers that an address derives are valid for it; the random bits of the test
      do not matter. */
  lemma ValidIffDerived(id: U160, ip: IpAddr, crc: Crc, ms': U128, ls': U32)
    ensures Validate(id, ip, crc, ms', ls') <==>
      exists random: U8, ms: U128, ls: U32 :: id == FromIp(ip, random, crc, ms, ls)
  {
    if Validate(id, ip, crc, ms', ls') {
      ValidIsDerived(id, ip, crc, ms', ls');
    }
    forall random: U8, ms: U128, ls: U32 | id == FromIp(ip, random, crc, ms, ls) ensures Validate(id, ip, crc, ms', ls') {
      DerivedIsValid(ip, random, crc, ms, ls, ms', ls');
    }
  }

  /** BEP 42 on the bits of the identifier: it is valid for an address exactly when its first 21 bits are
      those of the checksum over the masked address and the number in its own lowest three bits. */
  lemma ValidOnBits(id: U160, ip: IpAddr, crc: Crc, ms: U128, ls: U32)
    ensures Validate(id, ip, crc, ms, ls) <==>
      forall i: nat :: i < 21 ==> id.GetBit(i) == Bit(crc(Bep42Octets(ip, id.ls % 8)), 31 - i)
  {
    var r := RandomByte(id);
    var test := FromIpWithR(ip, r, crc, ms, ls);
    assert r == id.ls % 8 by { RandomByteIsLow3(id); }
    ChecksumIsBep42(ip, r, crc);
    FromIpIsDerived(ip, r, crc, ms, ls);
    if Validate(id, ip, crc, ms, ls) {
      FilteredIsChecked(id, test);
      forall i: nat | i < 21 ensures id.GetBit(i) == Bit(Checksum(ip, r, crc), 31 - i) {
        assert Bit(test.ms, 127 - i) == Bit(Checksum(ip, r, crc), 31 - i);
      }
    }
    if forall i: nat :: i < 21 ==> id.GetBit(i) == Bit(crc(Bep42Octets(ip, id.ls % 8)), 31 - i) {
      forall i: nat | 107 <= i < 128 ensures Bit(id.ms, i) == Bit(test.ms, i) { assert id.GetBit(127 - i) == Bit(id.ms, i); }
      forall i: nat | i < 3 ensures Bit(id.ls, i) == Bit(test.ls, i) { RandomByteBit(id, i); }
      CheckedIsFiltered(id, test);
    }
  }

  lemma LowOfLow(x: nat)
    ensures (x % 256) % 8 == x % 8
  {
    var q, r := x / 256, x % 256;
    var s, t := r / 8, r % 8;
    assert x == 8 * (32 * q + s) + t;
  }

  lemma RandomByteIsLow3(id: U160)
    ensures RandomByte(id) == id.ls % 8
  {
    assert Encode(id.ls, 4)[3] == id.ls % 256;
    LowOfLow(id.ls);
  }
}

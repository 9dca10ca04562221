/** 160-bit identifiers held as a 128-bit and a 32-bit limb: their order, their bits, their
    XOR distance and their shifts, each related to the one natural number they stand for. */
module U160s {
  import opened Bits

  const ID_BITS: nat := 160

  // The moduli of the limbs and of the whole number. They are written out so that a word's
  // bound is a plain number; `Widths` says which powers of two they are.
  const TWO_32: nat := 0x1_0000_0000
  const TWO_128: nat := 0x1_0000_0000_0000_0000_0000_0000_0000_0000
  const TWO_160: nat := 0x1_0000_0000_0000_0000_0000_0000_0000_0000_0000_0000

  type U8 = x: nat | x < 256
  type U16 = x: nat | x < 0x1_0000
  type U32 = x: nat | x < TWO_32
  type U128 = x: nat | x < TWO_128

  datatype U160 = U160(ms: U128, ls: U32) {

    /** The number whose big-endian bytes are the identifier's bytes. */
    function Nat(): (n: nat)
      ensures n < TWO_160
    {
      ms * TWO_32 + ls
    }

    /** The order that the field-by-field comparison gives. */
    predicate Less(other: U160) {
      ms < other.ms || (ms == other.ms && ls < other.ls)
    }

    function Xor(other: U160): U160 {
      U160(Word128(Gate.Xor, ms, other.ms), Word32(Gate.Xor, ls, other.ls))
    }

    function And(other: U160): U160 {
      U160(Word128(Gate.And, ms, other.ms), Word32(Gate.And, ls, other.ls))
    }

    function Distance(other: U160): U160 { Xor(other) }

    /** Bit `index` counted from the most significant one; false past the last bit. */
    predicate GetBit(index: nat) {
      if index >= 160 then false
      else if index >= 128 then Bit(ls, 31 - (index - 128))
      else Bit(ms, 127 - index)
    }
  }

  lemma Width32()
    ensures Pow2(32) == TWO_32
  {
    assert Pow2(8) == 0x100;
    Pow2Add(8, 8);
    Pow2Add(16, 16);
  }

  lemma Width128()
    ensures Pow2(128) == TWO_128
  {
    Width32();
    Pow2Add(32, 32);
    Pow2Add(64, 64);
  }

  lemma Widths()
    ensures Pow2(32) == TWO_32 && Pow2(128) == TWO_128 && Pow2(160) == TWO_160
  {
    Width32();
    Width128();
    Pow2Add(128, 32);
  }

  /** A gate applied to two words of one width. */
  function Word32(g: Gate, x: U32, y: U32): U32 {
    Widths();
    BitwiseBound(g, x, y, 32);
    Bitwise(g, x, y)
  }

  function Word128(g: Gate, x: U128, y: U128): U128 {
    Widths();
    BitwiseBound(g, x, y, 128);
    Bitwise(g, x, y)
  }

  lemma NatInjective(a: U160, b: U160)
    ensures a.Nat() == b.Nat() <==> a == b
  {
  }

  /** The field-by-field order is the numeric order. */
  lemma LessIsNumeric(a: U160, b: U160)
    ensures a.Less(b) <==> a.Nat() < b.Nat()
  {
  }

  lemma NatBit(a: U160, i: nat)
    ensures Bit(a.Nat(), i) == if i < 32 then Bit(a.ls, i) else Bit(a.ms, i - 32)
  {
    Widths();
    JoinBit(a.ms, a.ls, 32, i);
  }

  lemma LsHigh(x: U32, i: nat)
    requires i >= 32
    ensures !Bit(x, i)
  {
    Widths();
    BitHigh(x, 32, i);
  }

  lemma MsHigh(x: U128, i: nat)
    requires i >= 128
    ensures !Bit(x, i)
  {
    Widths();
    BitHigh(x, 128, i);
  }

  /** Two numbers below 2^160 are equal as soon as their bits are. */
  lemma NatsDecide(x: nat, y: nat)
    requires x < TWO_160 && y < TWO_160
    requires forall i: nat :: i < 160 ==> Bit(x, i) == Bit(y, i)
    ensures x == y
  {
    Widths();
    BitsDecide(x, y, 160);
  }

  /** The test by which the program reads a bit: a mask with one bit, and a comparison. */
  lemma GetBitIsMaskTest(a: U160, index: nat)
    ensures a.GetBit(index) ==
      if index >= 160 then false
      else if index >= 128 then Bitwise(Gate.And, Pow2(31 - (index - 128)), a.ls) != 0
      else Bitwise(Gate.And, Pow2(127 - index), a.ms) != 0
  {
    Widths();
    if 128 <= index < 160 {
      SingleBitMask(a.ls, 31 - (index - 128), 32);
    } else if index < 128 {
      SingleBitMask(a.ms, 127 - index, 128);
    }
  }

  /** Big-endian bit indexing reads the bits of the one number. */
  lemma GetBitIsNatBit(a: U160, index: nat)
    requires index < ID_BITS
    ensures a.GetBit(index) == Bit(a.Nat(), 159 - index)
  {
    NatBit(a, 159 - index);
  }

  lemma XorIsNatXor(a: U160, b: U160)
    ensures a.Xor(b).Nat() == Bitwise(Gate.Xor, a.Nat(), b.Nat())
  {
    var x, y := a.Xor(b).Nat(), Bitwise(Gate.Xor, a.Nat(), b.Nat());
    Widths();
    BitwiseBound(Gate.Xor, a.Nat(), b.Nat(), 160);
    forall i: nat | i < 160 ensures Bit(x, i) == Bit(y, i) {
      NatBit(a, i); NatBit(b, i); NatBit(a.Xor(b), i);
      BitwiseBit(Gate.Xor, a.Nat(), b.Nat(), i);
      if i < 32 { BitwiseBit(Gate.Xor, a.ls, b.ls, i); } else { BitwiseBit(Gate.Xor, a.ms, b.ms, i - 32); }
    }
    NatsDecide(x, y);
  }

  /** Bit `i` of the distance is set exactly where the two identifiers differ. */
  lemma DistanceBit(a: U160, b: U160, i: nat)
    ensures a.Distance(b).GetBit(i) == (a.GetBit(i) != b.GetBit(i))
  {
    if i < 160 {
      GetBitIsNatBit(a, i); GetBitIsNatBit(b, i); GetBitIsNatBit(a.Xor(b), i);
      XorIsNatXor(a, b);
      BitwiseBit(Gate.Xor, a.Nat(), b.Nat(), 159 - i);
    }
  }

  lemma SameBitsSameId(a: U160, b: U160)
    requires forall i: nat :: i < ID_BITS ==> a.GetBit(i) == b.GetBit(i)
    ensures a == b
  {
    forall i: nat | i < 160 ensures Bit(a.Nat(), i) == Bit(b.Nat(), i) {
      assert a.GetBit(159 - i) == b.GetBit(159 - i);
      GetBitIsNatBit(a, 159 - i); GetBitIsNatBit(b, 159 - i);
    }
    NatsDecide(a.Nat(), b.Nat());
    NatInjective(a, b);
  }

  // ----- the XOR metric -----

  lemma XorLaws(a: U160, b: U160, c: U160)
    ensures a.Xor(b) == b.Xor(a)
    ensures a.Xor(b).Xor(b.Xor(c)) == a.Xor(c)
    ensures a.Xor(a.Xor(b)) == b
  {
    forall x: U160, y: U160, i: nat ensures x.Xor(y).GetBit(i) == (x.GetBit(i) != y.GetBit(i)) {
      DistanceBit(x, y, i);
    }
    SameBitsSameId(a.Xor(b), b.Xor(a));
    SameBitsSameId(a.Xor(b).Xor(b.Xor(c)), a.Xor(c));
    SameBitsSameId(a.Xor(a.Xor(b)), b);
  }

  lemma NoBitNoNumber(a: U160)
    ensures a.Nat() == 0 <==> forall i: nat :: i < ID_BITS ==> !a.GetBit(i)
  {
    forall i: nat | i < 160 ensures a.GetBit(159 - i) == Bit(a.Nat(), i) && !Bit(0, i) {
      GetBitIsNatBit(a, 159 - i);
      BitOfZero(i);
    }
    if forall i: nat :: i < ID_BITS ==> !a.GetBit(i) {
      forall i: nat | i < 160 ensures Bit(a.Nat(), i) == Bit(0, i) {
        assert !a.GetBit(159 - i);
      }
      NatsDecide(a.Nat(), 0);
    } else {
      var i: nat :| i < ID_BITS && a.GetBit(i);
      assert a.GetBit(159 - (159 - i)) == Bit(a.Nat(), 159 - i);
    }
  }

  lemma ZeroDistance(a: U160, b: U160)
    ensures a.Distance(b).Nat() == 0 <==> a == b
  {
    NoBitNoNumber(a.Distance(b));
    forall i: nat ensures a.Distance(b).GetBit(i) == (a.GetBit(i) != b.GetBit(i)) {
      DistanceBit(a, b, i);
    }
    if forall i: nat :: i < ID_BITS ==> !a.Distance(b).GetBit(i) {
      SameBitsSameId(a, b);
    }
  }

  lemma Triangle(a: U160, b: U160, c: U160)
    ensures a.Distance(c).Nat() <= a.Distance(b).Nat() + b.Distance(c).Nat()
  {
    var x, y := a.Xor(b), b.Xor(c);
    assert a.Distance(c) == x.Xor(y) by { XorLaws(a, b, c); }
    assert x.Xor(y).Nat() == Bitwise(Gate.Xor, x.Nat(), y.Nat()) by { XorIsNatXor(x, y); }
    XorAtMostSum(x.Nat(), y.Nat());
  }

  /** `Distance` is a metric on identifiers: it separates them, is symmetric and satisfies the
      triangle inequality as a natural number. */
  lemma DistanceIsMetric(a: U160, b: U160, c: U160)
    ensures a.Distance(b).Nat() == 0 <==> a == b
    ensures a.Distance(b) == b.Distance(a)
    ensures a.Distance(c).Nat() <= a.Distance(b).Nat() + b.Distance(c).Nat()
  {
    ZeroDistance(a, b);
    XorLaws(a, b, b);
    Triangle(a, b, c);
  }

  /** Exactly one identifier lies at each distance from a point. */
  lemma DistanceIsUnidirectional(a: U160, d: U160, b: U160)
    ensures a.Distance(b) == d <==> b == a.Distance(d)
  {
    XorLaws(a, d, d);
    XorLaws(a, b, b);
  }

  lemma DistanceInjective(target: U160, a: U160, b: U160)
    ensures target.Distance(a) == target.Distance(b) <==> a == b
  {
    DistanceIsUnidirectional(target, target.Distance(b), a);
    DistanceIsUnidirectional(target, target.Distance(b), b);
  }

  /** The first bit where two identifiers differ decides their order. */
  lemma FirstDifferingBitDecides(a: U160, b: U160, i: nat)
    requires i < ID_BITS && a.GetBit(i) && !b.GetBit(i)
    requires forall j: nat :: j < i ==> a.GetBit(j) == b.GetBit(j)
    ensures b.Less(a)
  {
    GetBitIsNatBit(a, i); GetBitIsNatBit(b, i);
    forall j: nat | 159 - i < j < 160 ensures Bit(a.Nat(), j) == Bit(b.Nat(), j) {
      assert a.GetBit(159 - j) == b.GetBit(159 - j);
      GetBitIsNatBit(a, 159 - j); GetBitIsNatBit(b, 159 - j);
    }
    Widths();
    TopDifferingBitDecides(a.Nat(), b.Nat(), 159 - i, 160);
    LessIsNumeric(b, a);
  }

  // ----- common prefixes -----

  /** The first `n` bits agree. */
  ghost predicate SharePrefix(a: U160, b: U160, n: nat)
    decreases n
  {
    n == 0 || (SharePrefix(a, b, n - 1) && a.GetBit(n - 1) == b.GetBit(n - 1))
  }

  lemma {:induction false} SharePrefixMeans(a: U160, b: U160, n: nat)
    ensures SharePrefix(a, b, n) <==> forall j: nat :: j < n ==> a.GetBit(j) == b.GetBit(j)
  {
    if n > 0 { SharePrefixMeans(a, b, n - 1); }
  }

  function PrefixFrom(a: U160, b: U160, i: nat): (n: nat)
    requires i <= ID_BITS
    ensures i <= n <= ID_BITS
    decreases ID_BITS - i, a
  {
    if i == ID_BITS || a.GetBit(i) != b.GetBit(i) then i else PrefixFrom(a, b, i + 1)
  }

  /** The number of leading bits two identifiers share. */
  function CommonPrefix(a: U160, b: U160): (n: nat)
    ensures n <= ID_BITS
  {
    PrefixFrom(a, b, 0)
  }

  lemma {:induction false} PrefixFromMeans(a: U160, b: U160, i: nat)
    requires i <= ID_BITS && SharePrefix(a, b, i)
    ensures SharePrefix(a, b, PrefixFrom(a, b, i))
    ensures PrefixFrom(a, b, i) < ID_BITS ==> a.GetBit(PrefixFrom(a, b, i)) != b.GetBit(PrefixFrom(a, b, i))
    decreases ID_BITS - i
  {
    if i < ID_BITS && a.GetBit(i) == b.GetBit(i) {
      PrefixFromMeans(a, b, i + 1);
    }
  }

  lemma CommonPrefixMeans(a: U160, b: U160)
    ensures var n := CommonPrefix(a, b);
      SharePrefix(a, b, n) && (n < ID_BITS ==> a.GetBit(n) != b.GetBit(n))
  {
    PrefixFromMeans(a, b, 0);
  }

  /** The common prefix is the longest one shared. */
  lemma CommonPrefixIsLongest(a: U160, b: U160, n: nat)
    requires n <= ID_BITS
    ensures CommonPrefix(a, b) >= n <==> SharePrefix(a, b, n)
  {
    var p := CommonPrefix(a, b);
    CommonPrefixMeans(a, b);
    SharePrefixMeans(a, b, p);
    SharePrefixMeans(a, b, n);
  }

  /** A longer shared prefix means strictly closer. */
  lemma LongerPrefixIsCloser(target: U160, a: U160, b: U160)
    requires CommonPrefix(target, a) > CommonPrefix(target, b)
    ensures target.Distance(a).Less(target.Distance(b))
  {
    var n := CommonPrefix(target, b);
    CommonPrefixMeans(target, b);
    SharePrefixMeans(target, b, n);
    CommonPrefixIsLongest(target, a, n + 1);
    SharePrefixMeans(target, a, n + 1);
    forall j: nat | j <= n ensures target.Distance(a).GetBit(j) == false {
      DistanceBit(target, a, j);
    }
    forall j: nat | j < n ensures target.Distance(b).GetBit(j) == false {
      DistanceBit(target, b, j);
    }
    DistanceBit(target, b, n);
    FirstDifferingBitDecides(target.Distance(b), target.Distance(a), n);
  }

  /** Identifiers that share `n` bits with `a` lie within 2^(160-n) of it. */
  lemma PrefixBoundsDistance(a: U160, b: U160, n: nat)
    requires n <= ID_BITS && SharePrefix(a, b, n)
    ensures a.Distance(b).Nat() < Pow2(160 - n)
  {
    var d := a.Distance(b);
    SharePrefixMeans(a, b, n);
    forall i: nat | 160 - n <= i < 160 ensures !Bit(d.Nat(), i) {
      DistanceBit(a, b, 159 - i);
      GetBitIsNatBit(d, 159 - i);
    }
    Widths();
    LowBitsOnly(d.Nat(), 160 - n, 160);
  }

  lemma {:induction false} Pigeonhole(s: seq<nat>, n: nat)
    requires forall i, j :: 0 <= i < j < |s| ==> s[i] != s[j]
    requires forall i :: 0 <= i < |s| ==> s[i] < n
    ensures |s| <= n
  {
    if |s| == 0 {
      return;
    }
    assert s[0] < n;
    if i :| 0 <= i < |s| && s[i] == n - 1 {
      Pigeonhole(s[..i] + s[i + 1..], n - 1);
    } else {
      Pigeonhole(s, n - 1);
    }
  }

  /** At most 2^(160-n) distinct identifiers share `n` bits with `a`. */
  lemma PrefixCount(a: U160, ids: seq<U160>, n: nat)
    requires n <= ID_BITS
    requires forall i, j :: 0 <= i < j < |ids| ==> ids[i] != ids[j]
    requires forall i :: 0 <= i < |ids| ==> SharePrefix(a, ids[i], n)
    ensures |ids| <= Pow2(160 - n)
  {
    var ds := seq(|ids|, i requires 0 <= i < |ids| => a.Distance(ids[i]).Nat());
    forall i, j | 0 <= i < j < |ds| ensures ds[i] != ds[j] {
      NatInjective(a.Distance(ids[i]), a.Distance(ids[j]));
      DistanceInjective(a, ids[i], ids[j]);
    }
    forall i | 0 <= i < |ds| ensures ds[i] < Pow2(160 - n) {
      PrefixBoundsDistance(a, ids[i], n);
    }
    Pigeonhole(ds, Pow2(160 - n));
  }

  lemma SubsetSize(a: set<U160>, b: set<U160>)
    requires a <= b
    ensures |a| <= |b| && |b - a| == |b| - |a| && (|a| == |b| ==> a == b)
  {
    assert b == a + (b - a);
  }
}

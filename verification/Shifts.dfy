/** The `>>` and `<<` operators of `U160`, which move bits across the boundary of the limbs. */
module Shifts {
  import opened Bits
  import opened U160s
  import opened Wrappers

  /** The low 32 bits, and a left shift within each limb. */
  function Cast32(x: nat): U32 { x % TWO_32 }

  function Left32(x: U32, s: nat): U32 { Widths(); Left(x, s, 32) }

  function Left128(x: nat, s: nat): U128 { Widths(); Left(x, s, 128) }

  /** The product with 2^s modulo 2^160. */
  function Left160(x: nat, s: nat): (y: nat)
    ensures y < TWO_160
  {
    x * Pow2(s) % TWO_160
  }

  lemma Left160Bit(x: nat, s: nat, i: nat)
    ensures Bit(Left160(x, s), i) == (s <= i < 160 && Bit(x, i - s))
  {
    Widths();
    LeftBit(x, s, 160, i);
  }

  lemma Left32Bit(x: U32, s: nat, i: nat)
    ensures Bit(Left32(x, s), i) == (s <= i < 32 && Bit(x, i - s))
  {
    LeftBit(x, s, 32, i);
  }

  lemma Left128Bit(x: nat, s: nat, i: nat)
    ensures Bit(Left128(x, s), i) == (s <= i < 128 && Bit(x, i - s))
  {
    LeftBit(x, s, 128, i);
  }

  lemma Cast32Bit(x: nat, i: nat)
    ensures Bit(Cast32(x), i) == (i < 32 && Bit(x, i))
  {
    Widths();
    BitMod(x, 32, i);
  }

  lemma NatHigh(a: U160, i: nat)
    requires i >= 160
    ensures !Bit(a.Nat(), i)
  {
    NatBit(a, i);
    MsHigh(a.ms, i - 32);
  }

  /** How far a shift by a computed amount really moves: with overflow checks a full-width
      shift panics (`None`), without them the amount is taken modulo the width. */
  function Amount(s: nat, width: nat, checks: bool): Option<nat>
    requires width > 0
  {
    if s < width then Some(s) else if checks then None else Some(s % width)
  }

  /** The bits of the high limb that `a >> r` pushes into the low limb, where the high limb has
      itself moved by `msShift` and `rest` places remain. */
  function ShrOverflow(a: U160, msShift: nat, rest: nat): U32
    requires msShift <= 127
  {
    Cast32(Right(Right(Left128(a.ms, 127 - msShift), rest), 95))
  }

  /** `a >> r`; `None` is an overflow panic. */
  function Shr(a: U160, r: U8, checks: bool): Option<U160> {
    var msShift := Min(r, 127);
    var msRemain := r - msShift;
    var ms: U128 := if msRemain > 0 then 0 else Right(a.ms, msShift);
    match Amount(msRemain, 128, checks)
    case None => None
    case Some(rest) =>
      var overflow := ShrOverflow(a, msShift, rest);
      var lsShift := Min(r, 31);
      var ls: U32 := if r - lsShift > 0 then 0 else Right(a.ls, lsShift);
      Some(U160(ms, Word32(Or, ls, overflow)))
  }

  /** `a << r`. */
  function Shl(a: U160, r: U8): U160 {
    var lsShift := Min(r, 31);
    var lsRemain := r - lsShift;
    var ls: U32 := if lsRemain > 0 then 0 else Left32(a.ls, lsShift);
    var overflow: U128 :=
      if lsShift == 0 || lsRemain > 127 then 0 else Left128(Right(a.ls, 32 - lsShift), lsRemain);
    var msShift := Min(r, 127);
    var ms: U128 := if r - msShift > 0 then 0 else Left128(a.ms, msShift);
    U160(Word128(Or, ms, overflow), ls)
  }

  lemma ShrOverflowBit(a: U160, msShift: nat, rest: nat, i: nat)
    requires msShift <= 127
    ensures Bit(ShrOverflow(a, msShift, rest), i)
         == (i < 32 && i + rest < 33 && 32 <= i + rest + msShift && Bit(a.ms, i + rest + msShift - 32))
  {
    var w := Left128(a.ms, 127 - msShift);
    Cast32Bit(Right(Right(w, rest), 95), i);
    RightBit(Right(w, rest), 95, i);
    RightBit(w, rest, i + 95);
    Left128Bit(a.ms, 127 - msShift, i + 95 + rest);
  }

  /** The part of the low limb that stays in it. */
  function ShrStays(a: U160, r: U8): U32 {
    if r - Min(r, 31) > 0 then 0 else Right(a.ls, Min(r, 31))
  }

  lemma ShrStaysBit(a: U160, r: U8, i: nat)
    ensures Bit(ShrStays(a, r), i) == Bit(a.ls, i + r)
  {
    BitOfZero(i);
    RightBit(a.ls, Min(r, 31), i);
    if r > 31 { LsHigh(a.ls, i + r); }
  }

  /** The low limb of `a >> r`: what stays in it, and what the high limb pushes into it. */
  function ShrLow(a: U160, r: U8): U32 {
    Word32(Or, ShrStays(a, r), ShrOverflow(a, Min(r, 127), r - Min(r, 127)))
  }

  lemma ShrHasLow(a: U160, r: U8)
    requires r <= 254
    ensures Shr(a, r, true).Some? && Shr(a, r, true).value.ls == ShrLow(a, r)
  {
  }

  lemma ComesOver(a: U160, r: U8, i: nat)
    requires r <= 254 && i < 32
    ensures Bit(ShrOverflow(a, Min(r, 127), r - Min(r, 127)), i) == (32 <= i + r && Bit(a.ms, i + r - 32))
  {
    if r <= 127 {
      ShrOverflowBit(a, r, 0, i);
    } else {
      ShrOverflowBit(a, 127, r - 127, i);
      assert i + (r - 127) + 127 - 32 == i + r - 32;
      if i + r >= 160 { MsHigh(a.ms, i + r - 32); }
    }
  }

  lemma LowComesFrom(a: U160, r: U8, i: nat)
    requires r <= 254 && i < 32
    ensures Bit(ShrLow(a, r), i) == (Bit(a.ls, i + r) || (32 <= i + r && Bit(a.ms, i + r - 32)))
  {
    BitwiseBit(Or, ShrStays(a, r), ShrOverflow(a, Min(r, 127), r - Min(r, 127)), i);
    ShrStaysBit(a, r, i);
    ComesOver(a, r, i);
  }

  lemma ShrLowBit(a: U160, r: U8, i: nat)
    requires r <= 254 && i < 32
    ensures Bit(Shr(a, r, true).value.ls, i) == Bit(a.Nat(), i + r)
  {
    ShrHasLow(a, r);
    LowComesFrom(a, r, i);
    NatBit(a, i + r);
    if i + r >= 32 { LsHigh(a.ls, i + r); }
  }

  lemma ShrHighBit(a: U160, r: U8, i: nat)
    requires r <= 254 && i < 128
    ensures Bit(Shr(a, r, true).value.ms, i) == Bit(a.Nat(), i + 32 + r)
  {
    NatBit(a, i + 32 + r);
    if r > 127 {
      BitOfZero(i);
      MsHigh(a.ms, i + r);
    } else {
      RightBit(a.ms, r, i);
    }
  }

  lemma ChecksNeverFail(a: U160, r: U8, checks: bool)
    requires r <= 254
    ensures Shr(a, r, checks).Some? && Shr(a, r, checks) == Shr(a, r, true)
  {
    assert Amount(r - Min(r, 127), 128, checks) == Some(r - Min(r, 127));
  }

  lemma ShrBit(a: U160, r: U8, checks: bool, i: nat)
    requires r <= 254 && i < 160
    ensures Shr(a, r, checks).Some?
    ensures Bit(Shr(a, r, checks).value.Nat(), i) == Bit(a.Nat(), i + r)
  {
    ChecksNeverFail(a, r, checks);
    NatBit(Shr(a, r, true).value, i);
    if i < 32 { ShrLowBit(a, r, i); } else { ShrHighBit(a, r, i - 32); }
  }

  /** `a >> r` is floor division by 2^r for every r up to 254, with or without overflow checks. */
  lemma ShrIsFloorDivision(a: U160, r: U8, checks: bool)
    requires r <= 254
    ensures Shr(a, r, checks).Some? && Shr(a, r, checks).value.Nat() == a.Nat() / Pow2(r)
  {
    ShrBit(a, r, checks, 0);
    var b := Shr(a, r, checks).value;
    forall i: nat | i < 160 ensures Bit(b.Nat(), i) == Bit(Right(a.Nat(), r), i) {
      ShrBit(a, r, checks, i);
      RightBit(a.Nat(), r, i);
    }
    NatsDecide(b.Nat(), Right(a.Nat(), r));
    RightIsQuotient(a.Nat(), r);
  }

  lemma ShiftedOut(a: U160, r: nat)
    requires r >= 160
    ensures Right(a.Nat(), r) == 0
  {
    var q := Right(a.Nat(), r);
    forall i: nat | i < 160 ensures Bit(q, i) == Bit(0, i) {
      RightBit(a.Nat(), r, i);
      NatHigh(a, i + r);
      BitOfZero(i);
    }
    NatsDecide(q, 0);
  }

  lemma Shr255Bit(a: U160, i: nat)
    ensures Shr(a, 255, false).Some?
    ensures Bit(Shr(a, 255, false).value.Nat(), i) == (i < 32 && Bit(a.ms, i + 95))
  {
    NatBit(Shr(a, 255, false).value, i);
    ShrOverflowBit(a, 127, 0, i);
    BitwiseBit(Or, 0, ShrOverflow(a, 127, 0), i);
    BitOfZero(i);
    if i >= 32 { BitOfZero(i - 32); }
  }

  /** A shift by 255 panics under overflow checks; without them it is floor division exactly when
      bits 95 to 126 of the high limb are clear. */
  lemma ShrBy255(a: U160, r: U8)
    requires r == 255
    ensures Shr(a, r, true) == None
    ensures Shr(a, r, false).Some?
    ensures Shr(a, r, false).value.Nat() == a.Nat() / Pow2(r)
            <==> forall i: nat :: 95 <= i < 127 ==> !Bit(a.ms, i)
  {
    Shr255Bit(a, 0);
    var n := Shr(a, r, false).value.Nat();
    ShiftedOut(a, r);
    RightIsQuotient(a.Nat(), r);
    if i: nat :| 95 <= i < 127 && Bit(a.ms, i) {
      Shr255Bit(a, i - 95);
      BitOfZero(i - 95);
    } else {
      forall i: nat | i < 160 ensures Bit(n, i) == Bit(0, i) {
        Shr255Bit(a, i);
        BitOfZero(i);
      }
      NatsDecide(n, 0);
    }
  }

  /** What `<<` really multiplies: from 32 places on, the operand without its lowest bit. */
  function ShlOperand(a: U160, r: U8): U160 {
    if r < 32 || r >= 160 then a else U160(a.ms, a.ls - a.ls % 2)
  }

  lemma EvenPartBit(x: nat, i: nat)
    ensures Bit(x - x % 2, i) == (i > 0 && Bit(x, i))
  {
    assert (x - x % 2) / 2 == x / 2;
    assert (x - x % 2) % 2 == 0;
  }

  lemma ShlOverflowBit(a: U160, r: U8, i: nat)
    requires 1 <= r && r - Min(r, 31) <= 127
    ensures Bit(Left128(Right(a.ls, 32 - Min(r, 31)), r - Min(r, 31)), i)
         == (i < 128 && i >= r - Min(r, 31) && i + 32 >= r && Bit(a.ls, i + 32 - r))
  {
    var s := Min(r, 31);
    Left128Bit(Right(a.ls, 32 - s), r - s, i);
    if i >= r - s { RightBit(a.ls, 32 - s, i - (r - s)); }
  }

  lemma ShlLowBit(a: U160, r: U8, i: nat)
    requires i < 32
    ensures Bit(Shl(a, r).ls, i) == (i >= r && Bit(a.ls, i - r))
  {
    BitOfZero(i);
    Left32Bit(a.ls, Min(r, 31), i);
  }

  lemma ShlHighBit(a: U160, r: U8, i: nat)
    requires i < 128
    ensures Bit(Shl(a, r).ms, i) == (
      (i >= r && Bit(a.ms, i - r))
      || (1 <= r < 159 && i + 32 >= r && i >= r - Min(r, 31) && Bit(a.ls, i + 32 - r)))
  {
    var lsRemain := r - Min(r, 31);
    var ms: nat := if r > 127 then 0 else Left128(a.ms, r);
    var overflow: nat := if r == 0 || lsRemain > 127 then 0 else Left128(Right(a.ls, 32 - Min(r, 31)), lsRemain);
    BitwiseBit(Or, ms, overflow, i);
    BitOfZero(i);
    Left128Bit(a.ms, Min(r, 127), i);
    if r > 0 && lsRemain <= 127 { ShlOverflowBit(a, r, i); }
  }

  lemma ShlBit(a: U160, r: U8, i: nat)
    requires i < 160
    ensures Bit(Shl(a, r).Nat(), i) == (i >= r && Bit(ShlOperand(a, r).Nat(), i - r))
  {
    NatBit(Shl(a, r), i);
    if i >= r {
      NatBit(ShlOperand(a, r), i - r);
      if i - r < 32 { EvenPartBit(a.ls, i - r); }
    }
    if i < 32 {
      ShlLowBit(a, r, i);
    } else {
      ShlHighBit(a, r, i - 32);
      if i >= r + 32 { LsHigh(a.ls, i - r); }
    }
  }

  /** `a << r` is the product modulo 2^160 of 2^r and `a`, or of 2^r and `a` without its lowest
      bit when 32 <= r < 160. */
  lemma ShlProduct(a: U160, r: U8)
    ensures Shl(a, r).Nat() == Left160(ShlOperand(a, r).Nat(), r)
  {
    var x, y := Shl(a, r).Nat(), Left160(ShlOperand(a, r).Nat(), r);
    forall i: nat | i < 160 ensures Bit(x, i) == Bit(y, i) {
      ShlBit(a, r, i);
      Left160Bit(ShlOperand(a, r).Nat(), r, i);
    }
    NatsDecide(x, y);
  }

  lemma ShlDropsLowestBit(a: U160, r: U8)
    requires 32 <= r < 160 && a.ls % 2 == 1
    ensures Shl(a, r).Nat() != Left160(a.Nat(), r)
  {
    var x, y := Shl(a, r).Nat(), Left160(a.Nat(), r);
    assert Bit(y, r) by {
      Left160Bit(a.Nat(), r, r);
      NatBit(a, 0);
    }
    assert !Bit(x, r) by {
      ShlBit(a, r, r);
      NatBit(ShlOperand(a, r), 0);
      EvenPartBit(a.ls, 0);
    }
  }

  /** `<<` is multiplication modulo 2^160 exactly when the lowest bit is clear or the shift is
      shorter than the low limb or longer than the whole number. */
  lemma ShlIsMultiplication(a: U160, r: U8)
    ensures Shl(a, r).Nat() == Left160(a.Nat(), r)
            <==> r < 32 || r >= 160 || a.ls % 2 == 0
  {
    if 32 <= r < 160 && a.ls % 2 == 1 {
      ShlDropsLowestBit(a, r);
    } else {
      ShlProduct(a, r);
      assert ShlOperand(a, r) == a;
    }
  }

  lemma ZeroShifted(s: nat)
    ensures Left160(0, s) == 0
  {
    assert 0 * Pow2(s) == 0;
  }

  /** The number one, shifted by anything from 32 to 159, is lost. */
  lemma ShlLosesLowestBit(r: U8)
    requires 32 <= r < 160
    ensures Shl(U160(0, 1), r) == U160(0, 0) && Left160(U160(0, 1).Nat(), r) != 0
  {
    var one := U160(0, 1);
    ShlProduct(one, r);
    assert ShlOperand(one, r) == U160(0, 0);
    ZeroShifted(r);
    NatInjective(Shl(one, r), U160(0, 0));
    ShlDropsLowestBit(one, r);
  }
}

/** Bits of natural numbers: the arithmetic under the fixed-width operators `&`, `|`, `^`,
    `<<` and `>>`. A machine word is a natural number below a power of two, and every fact
    about words is proved one bit at a time and closed by `BitsDecide`. */
module Bits {

  function Pow2(n: nat): (p: nat)
    ensures p > 0
  {
    if n == 0 then 1 else 2 * Pow2(n - 1)
  }

  /** Bit `i` of `x`, counted from the least significant one. */
  predicate Bit(x: nat, i: nat)
    decreases i
  {
    if i == 0 then x % 2 == 1 else Bit(x / 2, i - 1)
  }

  datatype Gate = And | Or | Xor {
    predicate Apply(a: bool, b: bool) {
      match this
      case And => a && b
      case Or => a || b
      case Xor => a != b
    }
  }

  function Min(a: nat, b: nat): nat { if a < b then a else b }

  function Digit(b: bool): nat { if b then 1 else 0 }

  /** The word obtained by applying a gate to each pair of bits. */
  function Bitwise(g: Gate, x: nat, y: nat): nat {
    if x == 0 && y == 0 then 0
    else 2 * Bitwise(g, x / 2, y / 2) + Digit(g.Apply(x % 2 == 1, y % 2 == 1))
  }

  lemma {:induction false} Pow2Add(m: nat, n: nat)
    ensures Pow2(m + n) == Pow2(m) * Pow2(n)
  {
    if m == 0 {
    } else {
      Pow2Add(m - 1, n);
      assert Pow2(m + n) == 2 * Pow2(m - 1 + n);
    }
  }

  lemma {:induction false} Pow2Monotone(m: nat, n: nat)
    requires m <= n
    ensures Pow2(m) <= Pow2(n)
  {
    if m < n {
      Pow2Monotone(m, n - 1);
    }
  }

  lemma {:induction false} BitOfZero(i: nat)
    ensures !Bit(0, i)
  {
    if i > 0 { BitOfZero(i - 1); }
  }

  lemma {:induction false} BitHigh(x: nat, n: nat, i: nat)
    requires x < Pow2(n) && n <= i
    ensures !Bit(x, i)
  {
    if n == 0 {
      BitOfZero(i);
    } else {
      BitHigh(x / 2, n - 1, i - 1);
    }
  }

  /** Two words below 2^n are equal as soon as their bits are. */
  lemma {:induction false} BitsDecide(x: nat, y: nat, n: nat)
    requires x < Pow2(n) && y < Pow2(n)
    requires forall i: nat :: i < n ==> Bit(x, i) == Bit(y, i)
    ensures x == y
  {
    if n > 0 {
      assert Bit(x, 0) == Bit(y, 0);
      forall i: nat | i < n - 1 ensures Bit(x / 2, i) == Bit(y / 2, i) {
        assert Bit(x, i + 1) == Bit(y, i + 1);
      }
      BitsDecide(x / 2, y / 2, n - 1);
    }
  }

  lemma {:induction false} BitwiseBit(g: Gate, x: nat, y: nat, i: nat)
    ensures Bit(Bitwise(g, x, y), i) == g.Apply(Bit(x, i), Bit(y, i))
    decreases i
  {
    if x == 0 && y == 0 {
      BitOfZero(i);
    } else if i > 0 {
      assert Bitwise(g, x, y) / 2 == Bitwise(g, x / 2, y / 2);
      BitwiseBit(g, x / 2, y / 2, i - 1);
    }
  }

  lemma {:induction false} BitwiseBound(g: Gate, x: nat, y: nat, n: nat)
    requires x < Pow2(n) && y < Pow2(n)
    ensures Bitwise(g, x, y) < Pow2(n)
  {
    if n > 0 && !(x == 0 && y == 0) {
      BitwiseBound(g, x / 2, y / 2, n - 1);
    }
  }

  /** Exclusive or never exceeds the sum: the carries it drops are not negative. */
  lemma {:induction false} XorAtMostSum(x: nat, y: nat)
    ensures Bitwise(Xor, x, y) <= x + y
  {
    if !(x == 0 && y == 0) {
      XorAtMostSum(x / 2, y / 2);
    }
  }

  lemma HalfThenDivide(x: nat, p: nat)
    requires p > 0
    ensures x / (2 * p) == (x / 2) / p
  {
    var q, s := (x / 2) / p, (x / 2) % p;
    assert x / 2 == q * p + s;
    assert x == q * (2 * p) + (2 * s + x % 2);
    QuotientIs(x, 2 * p, q, 2 * s + x % 2);
  }

  lemma LargerMultiple(a: int, b: int, d: nat)
    requires a < b
    ensures a * d + d <= b * d
  {
    var gap := b - a - 1;
    assert b * d == a * d + d + gap * d;
  }

  lemma QuotientIs(x: nat, d: nat, q: nat, s: nat)
    requires 0 <= s < d && x == q * d + s
    ensures x / d == q && x % d == s
  {
    var q', s' := x / d, x % d;
    assert x == q' * d + s';
    if q' < q {
      LargerMultiple(q', q, d);
    } else if q' > q {
      LargerMultiple(q, q', d);
    }
  }

  lemma HalfThenRemainder(x: nat, p: nat)
    requires p > 0
    ensures x % (2 * p) == 2 * ((x / 2) % p) + x % 2
  {
    var q, s := (x / 2) / p, (x / 2) % p;
    assert x / 2 == q * p + s;
    assert x == q * (2 * p) + (2 * s + x % 2);
    QuotientIs(x, 2 * p, q, 2 * s + x % 2);
  }

  /** A word shifted right: halved `s` times. */
  function Right(x: nat, s: nat): (y: nat)
    ensures y <= x
    decreases s
  {
    if s == 0 then x else Right(x / 2, s - 1)
  }

  /** Shifting right is floor division by a power of two. */
  lemma {:induction false} RightIsQuotient(x: nat, s: nat)
    ensures Right(x, s) == x / Pow2(s)
  {
    if s > 0 {
      HalfThenDivide(x, Pow2(s - 1));
      RightIsQuotient(x / 2, s - 1);
    }
  }

  lemma {:induction false} RightBit(x: nat, s: nat, i: nat)
    ensures Bit(Right(x, s), i) == Bit(x, i + s)
  {
    if s > 0 {
      RightBit(x / 2, s - 1, i);
    }
  }

  /** A word of `width` bits shifted left: the bits past the top are lost. */
  function Left(x: nat, s: nat, width: nat): (y: nat)
    ensures y < Pow2(width)
  {
    (x * Pow2(s)) % Pow2(width)
  }

  lemma LeftBit(x: nat, s: nat, width: nat, i: nat)
    ensures Bit(Left(x, s, width), i) == (s <= i < width && Bit(x, i - s))
  {
    BitMod(x * Pow2(s), width, i);
    BitMul(x, s, i);
  }

  lemma {:induction false} BitMul(x: nat, r: nat, i: nat)
    ensures Bit(x * Pow2(r), i) == (i >= r && Bit(x, i - r))
  {
    if r > 0 {
      var y := x * Pow2(r - 1);
      assert x * Pow2(r) == 2 * y;
      if i > 0 {
        assert (2 * y) / 2 == y;
        BitMul(x, r - 1, i - 1);
      }
    }
  }

  lemma {:induction false} BitMod(x: nat, n: nat, i: nat)
    ensures Bit(x % Pow2(n), i) == (i < n && Bit(x, i))
  {
    if n == 0 {
      BitOfZero(i);
    } else {
      var m := (x / 2) % Pow2(n - 1);
      assert x % Pow2(n) == 2 * m + x % 2 by { HalfThenRemainder(x, Pow2(n - 1)); }
      if i > 0 {
        BitMod(x / 2, n - 1, i - 1);
        assert (2 * m + x % 2) / 2 == m;
      } else {
        assert (2 * m + x % 2) % 2 == x % 2;
      }
    }
  }

  /** The number with the bits of `hi` written above `n` low bits `lo`. */
  function Join(hi: nat, lo: nat, n: nat): nat { hi * Pow2(n) + lo }

  lemma {:induction false} JoinBit(hi: nat, lo: nat, n: nat, i: nat)
    requires lo < Pow2(n)
    ensures Bit(Join(hi, lo, n), i) == if i < n then Bit(lo, i) else Bit(hi, i - n)
  {
    if n > 0 {
      var y := Join(hi, lo / 2, n - 1);
      assert Join(hi, lo, n) == 2 * y + lo % 2;
      if i > 0 {
        JoinBit(hi, lo / 2, n - 1, i - 1);
      }
    }
  }

  lemma {:induction false} BitOfMask(n: nat, i: nat)
    ensures Bit(Pow2(n) - 1, i) == (i < n)
  {
    if n == 0 {
      BitOfZero(i);
    } else if i > 0 {
      assert (Pow2(n) - 1) / 2 == Pow2(n - 1) - 1;
      BitOfMask(n - 1, i - 1);
    }
  }

  /** The one bit set in a power of two. */
  lemma BitOfPow2(n: nat, i: nat)
    ensures Bit(Pow2(n), i) == (i == n)
  {
    BitMul(1, n, i);
    if i > n { BitHigh(1, 1, i - n); }
  }

  /** A word with no bit set from position `m` on is below 2^m. */
  lemma {:induction false} LowBitsOnly(x: nat, m: nat, n: nat)
    requires x < Pow2(n) && m <= n
    requires forall i: nat :: m <= i < n ==> !Bit(x, i)
    ensures x < Pow2(m)
  {
    BitsBelow(x, m, n);
    BitsDecide(x, x % Pow2(m), n);
  }

  lemma BitsBelow(x: nat, m: nat, n: nat)
    requires x < Pow2(n) && m <= n
    requires forall i: nat :: m <= i < n ==> !Bit(x, i)
    ensures x % Pow2(m) < Pow2(n)
    ensures forall i: nat :: i < n ==> Bit(x, i) == Bit(x % Pow2(m), i)
  {
    Pow2Monotone(m, n);
    forall i: nat | i < n ensures Bit(x, i) == Bit(x % Pow2(m), i) {
      BitMod(x, m, i);
    }
  }

  /** The highest bit where two words differ decides which one is larger. */
  lemma {:induction false} TopDifferingBitDecides(x: nat, y: nat, i: nat, n: nat)
    requires x < Pow2(n) && y < Pow2(n) && i < n
    requires Bit(x, i) && !Bit(y, i)
    requires forall j: nat :: i < j < n ==> Bit(x, j) == Bit(y, j)
    ensures x > y
  {
    if i == 0 {
      forall j: nat | j < n - 1 ensures Bit(x / 2, j) == Bit(y / 2, j) {
        assert Bit(x, j + 1) == Bit(y, j + 1);
      }
      BitsDecide(x / 2, y / 2, n - 1);
    } else {
      forall j: nat | i - 1 < j < n - 1 ensures Bit(x / 2, j) == Bit(y / 2, j) {
        assert Bit(x, j + 1) == Bit(y, j + 1);
      }
      TopDifferingBitDecides(x / 2, y / 2, i - 1, n - 1);
    }
  }

  /** A test of one bit by masking, as the source writes it. */
  lemma SingleBitMask(x: nat, i: nat, n: nat)
    requires x < Pow2(n) && i < n
    ensures (Bitwise(And, Pow2(i), x) != 0) == Bit(x, i)
  {
    var m := Bitwise(And, Pow2(i), x);
    Pow2Monotone(i + 1, n);
    BitwiseBound(And, Pow2(i), x, n);
    forall j: nat ensures Bit(m, j) == (j == i && Bit(x, i)) {
      BitwiseBit(And, Pow2(i), x, j);
      BitOfPow2(i, j);
    }
    if Bit(x, i) {
      assert Bit(m, i);
      BitOfZero(i);
    } else {
      forall j: nat | j < n ensures Bit(m, j) == Bit(0, j) { BitOfZero(j); }
      BitsDecide(m, 0, n);
    }
  }
}

/** Numbers as big-endian bytes. */
module BigEndian {
  import opened Bits
  import opened U160s

  /** The number that the bytes spell. */
  function Value(s: seq<U8>): nat {
    if s == [] then 0 else 256 * Value(s[..|s| - 1]) + s[|s| - 1]
  }

  /** The last `width` bytes of a number. */
  function Encode(n: nat, width: nat): (s: seq<U8>)
    ensures |s| == width
    decreases width, n
  {
    if width == 0 then [] else Encode(n / 256, width - 1) + [n % 256]
  }

  lemma Pow2Byte(width: nat)
    ensures Pow2(8 * width + 8) == 256 * Pow2(8 * width)
  {
    Pow2Add(8 * width, 8);
    assert Pow2(8) == 256;
  }

  lemma {:induction false} ValueOfEncode(n: nat, width: nat)
    requires n < Pow2(8 * width)
    ensures Value(Encode(n, width)) == n
  {
    if width > 0 {
      Pow2Byte(width - 1);
      var s := Encode(n, width);
      assert s[..width - 1] == Encode(n / 256, width - 1);
      ValueOfEncode(n / 256, width - 1);
    }
  }

  lemma {:induction false} EncodeOfValue(s: seq<U8>)
    ensures Encode(Value(s), |s|) == s
  {
    if s != [] {
      EncodeOfValue(s[..|s| - 1]);
      assert s == s[..|s| - 1] + [s[|s| - 1]];
      assert Value(s) / 256 == Value(s[..|s| - 1]) && Value(s) % 256 == s[|s| - 1];
    }
  }

  lemma {:induction false} ValueBound(s: seq<U8>)
    ensures Value(s) < Pow2(8 * |s|)
  {
    if s != [] {
      ValueBound(s[..|s| - 1]);
      Pow2Byte(|s| - 1);
    }
  }

  lemma Regroup(x: nat, p: nat)
    ensures 256 * (x * p) == x * (256 * p)
  {
  }

  lemma {:induction false} ValueOfConcat(a: seq<U8>, b: seq<U8>)
    ensures Value(a + b) == Value(a) * Pow2(8 * |b|) + Value(b)
  {
    if b == [] {
      assert a + b == a;
    } else {
      var init, last := b[..|b| - 1], b[|b| - 1];
      assert (a + b)[..|a + b| - 1] == a + init;
      ValueOfConcat(a, init);
      Pow2Byte(|init|);
      Regroup(Value(a), Pow2(8 * |init|));
    }
  }

  lemma {:induction false} ValueOfZeros(n: nat)
    ensures Value(seq(n, _ => 0)) == 0
  {
    if n > 0 {
      var zeros: seq<U8> := seq(n, _ => 0);
      assert zeros[..n - 1] == seq(n - 1, _ => 0);
      ValueOfZeros(n - 1);
    }
  }

  /** Bit `i` of the number is bit `i % 8` of the byte that holds it. */
  lemma {:induction false} ValueBit(s: seq<U8>, i: nat)
    requires i < 8 * |s|
    ensures Bit(Value(s), i) == Bit(s[|s| - 1 - i / 8], i % 8)
  {
    var init, last := s[..|s| - 1], s[|s| - 1];
    assert Pow2(8) == 256;
    JoinBit(Value(init), last, 8, i);
    if i >= 8 {
      ValueBit(init, i - 8);
      assert (i - 8) / 8 == i / 8 - 1 && (i - 8) % 8 == i % 8;
    }
  }

  // ----- the words of the program -----

  type Bytes20 = s: seq<U8> | |s| == 20 witness seq(20, _ => 0)

  function Word16(s: seq<U8>): U16
    requires |s| == 2
  {
    ValueBound(s);
    assert Pow2(8) == 256;
    Pow2Add(8, 8);
    Value(s)
  }

  function Word32Of(s: seq<U8>): U32
    requires |s| == 4
  {
    ValueBound(s);
    Widths();
    Value(s)
  }

  function Word128Of(s: seq<U8>): U128
    requires |s| == 16
  {
    ValueBound(s);
    Widths();
    Value(s)
  }

  function ToBeBytes(id: U160): Bytes20 {
    Encode(id.ms, 16) + Encode(id.ls, 4)
  }

  function FromBeBytes(s: Bytes20): U160 {
    U160(Word128Of(s[..16]), Word32Of(s[16..]))
  }

  lemma PortRoundTrip(port: U16)
    ensures Word16(Encode(port, 2)) == port
  {
    assert Pow2(8) == 256;
    Pow2Add(8, 8);
    ValueOfEncode(port, 2);
  }

  lemma EncodedId(id: U160)
    ensures Value(ToBeBytes(id)) == id.Nat() && FromBeBytes(ToBeBytes(id)) == id
  {
    Widths();
    ValueOfEncode(id.ms, 16);
    ValueOfEncode(id.ls, 4);
    ValueOfConcat(Encode(id.ms, 16), Encode(id.ls, 4));
    assert ToBeBytes(id)[..16] == Encode(id.ms, 16) && ToBeBytes(id)[16..] == Encode(id.ls, 4);
  }

  lemma DecodedId(s: Bytes20)
    ensures FromBeBytes(s).Nat() == Value(s) && ToBeBytes(FromBeBytes(s)) == s
  {
    Widths();
    assert s == s[..16] + s[16..];
    ValueOfConcat(s[..16], s[16..]);
    EncodeOfValue(s[..16]);
    EncodeOfValue(s[16..]);
  }

  /** The bytes of an identifier spell its number, and say which identifier it is. */
  lemma IdBytes(id: U160, s: Bytes20)
    ensures Value(ToBeBytes(id)) == id.Nat() && FromBeBytes(s).Nat() == Value(s)
    ensures FromBeBytes(ToBeBytes(id)) == id && ToBeBytes(FromBeBytes(s)) == s
  {
    EncodedId(id);
    DecodedId(s);
  }
}

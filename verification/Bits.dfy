/** Bit strings, most significant bit first, and the numbers they denote.

    The AIS encoder keeps its message as a string of '0' and '1' characters and the
    decoder keeps it packed in bytes; both are related to the same `seq<bool>`.
    Unsigned machine words are naturals, with the operators of C written out: `Shl`
    and `Shr` for shifts, `BitOr` for `|`, `Low` for what a word of so many bits keeps. */
module Bits {

  type byte = x: int | 0 <= x < 0x100
  type uint32 = x: int | 0 <= x < 0x1_0000_0000
  type int16 = x: int | -0x8000 <= x < 0x8000
  type int32 = x: int | -0x8000_0000 <= x < 0x8000_0000
  type int64 = x: int | -0x8000_0000_0000_0000 <= x < 0x8000_0000_0000_0000

  function Pow2(n: nat): (r: nat)
    ensures r >= 1
  {
    if n == 0 then 1 else 2 * Pow2(n - 1)
  }

  /** The number a bit string denotes. */
  function Value(b: seq<bool>): nat {
    if b == [] then 0
    else 2 * Value(b[..|b| - 1]) + if b[|b| - 1] then 1 else 0
  }

  /** The number a bit string denotes in two's complement. */
  function SignedValue(b: seq<bool>): int
    requires b != []
  {
    Value(b) - if b[0] then Pow2(|b|) else 0
  }

  /** The `n` low bits of `v`, in two's complement. */
  function BitsOf(v: int, n: nat): (b: seq<bool>)
    ensures |b| == n
    decreases n, v
  {
    if n == 0 then [] else BitsOf(v / 2, n - 1) + [v % 2 == 1]
  }

  /** The bits packed in a run of bytes. */
  function ByteBits(d: seq<byte>): (b: seq<bool>)
    ensures |b| == 8 * |d|
  {
    if d == [] then [] else ByteBits(d[..|d| - 1]) + BitsOf(d[|d| - 1], 8)
  }

  function Zeros(n: nat): (b: seq<bool>)
    ensures |b| == n
  {
    seq(n, _ => false)
  }

  /** `x << k`, in a word wide enough. */
  function Shl(x: nat, k: nat): nat
    decreases k, x
  {
    if k == 0 then x else 2 * Shl(x, k - 1)
  }

  /** `x >> k` on an unsigned word. */
  function Shr(x: nat, k: nat): nat
    decreases k, x
  {
    if k == 0 then x else Shr(x / 2, k - 1)
  }

  /** `x >> k` on a signed word: each step rounds down. */
  function Sar(x: int, k: nat): int
    decreases k, x
  {
    if k == 0 then x else Sar(x / 2, k - 1)
  }

  /** What an `n`-bit word keeps of `x`. */
  function Low(x: nat, n: nat): nat
    decreases n, x
  {
    if n == 0 then 0 else 2 * Low(x / 2, n - 1) + x % 2
  }

  /** `|` on unsigned words. */
  function BitOr(x: nat, y: nat): nat {
    if x == 0 && y == 0 then 0
    else 2 * BitOr(x / 2, y / 2) + if x % 2 == 1 || y % 2 == 1 then 1 else 0
  }

  // ----- values of bit strings

  lemma {:induction false} ValueBound(b: seq<bool>)
    ensures Value(b) < Pow2(|b|)
  {
    if b != [] { ValueBound(b[..|b| - 1]); }
  }

  lemma {:induction false} ValueZeros(n: nat)
    ensures Value(Zeros(n)) == 0
  {
    if n > 0 {
      assert Zeros(n)[..n - 1] == Zeros(n - 1);
      ValueZeros(n - 1);
    }
  }

  lemma {:induction false} BitsOfValue(b: seq<bool>)
    ensures BitsOf(Value(b), |b|) == b
  {
    if b != [] {
      BitsOfValue(b[..|b| - 1]);
      assert b == b[..|b| - 1] + [b[|b| - 1]];
    }
  }

  lemma ValueInjective(a: seq<bool>, b: seq<bool>)
    requires |a| == |b| && Value(a) == Value(b)
    ensures a == b
  {
    BitsOfValue(a);
    BitsOfValue(b);
  }

  lemma ValueSnoc(a: seq<bool>, c: bool)
    ensures Value(a + [c]) == 2 * Value(a) + if c then 1 else 0
  {
    assert (a + [c])[..|a|] == a;
  }

  /** A number that fits is what its bits denote. */
  lemma {:induction false} ValueBitsOf(v: nat, n: nat)
    requires v < Pow2(n)
    ensures Value(BitsOf(v, n)) == v
  {
    if n > 0 {
      ValueBitsOf(v / 2, n - 1);
      ValueSnoc(BitsOf(v / 2, n - 1), v % 2 == 1);
    }
  }

  /** In general a field denotes what fits in it. */
  lemma {:induction false} ValueIsLow(v: nat, n: nat)
    ensures Value(BitsOf(v, n)) == Low(v, n)
    decreases n
  {
    if n > 0 {
      ValueIsLow(v / 2, n - 1);
      ValueSnoc(BitsOf(v / 2, n - 1), v % 2 == 1);
    }
  }

  lemma LowOfSmall(v: nat, n: nat)
    requires v < Pow2(n)
    ensures Low(v, n) == v
  {
    ValueIsLow(v, n);
    ValueBitsOf(v, n);
  }

  /** Bits beyond the field do not matter: adding a multiple of the word size keeps them. */
  lemma {:induction false} BitsOfPlus(v: int, n: nat, m: nat)
    requires n <= m
    ensures BitsOf(v + Pow2(m), n) == BitsOf(v, n)
    decreases n
  {
    if n > 0 { BitsOfPlus(v / 2, n - 1, m - 1); }
  }

  /** A signed number is its field, less the weight of a field whose top bit is set. */
  lemma ValueOfSigned(v: int, n: nat)
    requires n > 0 && -v <= Pow2(n - 1) && v < Pow2(n - 1)
    ensures v == Value(BitsOf(v, n)) - if BitsOf(v, n)[0] then Pow2(n) else 0
  {
    TopBitOf(v, n);
    if v < 0 {
      BitsOfPlus(v, n, n);
      ValueBitsOf(v + Pow2(n), n);
    } else {
      ValueBitsOf(v, n);
    }
  }

  lemma {:induction false} TopBitOf(v: int, n: nat)
    requires n > 0 && -v <= Pow2(n - 1) && v < Pow2(n - 1)
    ensures BitsOf(v, n)[0] <==> v < 0
    decreases n
  {
    if n > 1 { TopBitOf(v / 2, n - 1); }
  }

  /** The k-th bit, counted from the most significant one, is a shift away. */
  lemma {:induction false} BitsOfAt(v: nat, n: nat, k: nat)
    requires k < n
    ensures BitsOf(v, n)[k] == (Shr(v, n - 1 - k) % 2 == 1)
  {
    if k < n - 1 { BitsOfAt(v / 2, n - 1, k); }
  }

  // ----- words as bit strings

  lemma {:induction false} ShlValue(b: seq<bool>, k: nat)
    ensures Shl(Value(b), k) == Value(b + Zeros(k))
  {
    if k == 0 {
      assert b + Zeros(0) == b;
    } else {
      ShlValue(b, k - 1);
      ValueSnoc(b + Zeros(k - 1), false);
      assert b + Zeros(k) == b + Zeros(k - 1) + [false];
    }
  }

  lemma {:induction false} ShrValue(b: seq<bool>, k: nat)
    requires k <= |b|
    ensures Shr(Value(b), k) == Value(b[..|b| - k])
  {
    if k == 0 {
      assert b[..|b|] == b;
    } else {
      var b' := b[..|b| - 1];
      ShrValue(b', k - 1);
      assert b'[..|b'| - (k - 1)] == b[..|b| - k];
    }
  }

  lemma {:induction false} LowValue(b: seq<bool>, n: nat)
    requires n <= |b|
    ensures Low(Value(b), n) == Value(b[|b| - n..])
  {
    if n > 0 {
      var b', c := b[..|b| - 1], b[|b| - 1];
      assert Value(b) / 2 == Value(b') && Value(b) % 2 == if c then 1 else 0;
      LowValue(b', n - 1);
      var low := b'[|b'| - (n - 1)..];
      ValueSnoc(low, c);
      assert b[|b| - n..] == low + [c];
    }
  }

  /** An arithmetic shift of a word read as a signed number. */
  lemma {:induction false} SarOfWord(x: nat, n: nat, k: nat)
    ensures Sar(x - Pow2(n + k), k) == Shr(x, k) - Pow2(n)
  {
    if k > 0 {
      assert (x - Pow2(n + k)) / 2 == x / 2 - Pow2(n + (k - 1));
      SarOfWord(x / 2, n, k - 1);
    }
  }

  lemma {:induction false} SarOfNat(x: nat, k: nat)
    ensures Sar(x, k) == Shr(x, k)
  {
    if k > 0 { SarOfNat(x / 2, k - 1); }
  }

  /** `|` works bit by bit. */
  lemma {:induction false} BitOrValue(a: seq<bool>, b: seq<bool>, c: seq<bool>)
    requires |a| == |b| == |c| && forall i | 0 <= i < |a| :: c[i] == (a[i] || b[i])
    ensures BitOr(Value(a), Value(b)) == Value(c)
  {
    if a != [] {
      var n := |a| - 1;
      BitOrValue(a[..n], b[..n], c[..n]);
    }
  }

  /** `hi << (|b|+k) | b << k`: a field or-ed in below what is there. */
  lemma BitOrBelow(hi: seq<bool>, b: seq<bool>, k: nat)
    ensures BitOr(Value(hi + Zeros(|b| + k)), Value(b + Zeros(k))) == Value(hi + b + Zeros(k))
  {
    var w := Zeros(|hi|) + (b + Zeros(k));
    ValuePadded(|hi|, b + Zeros(k));
    BitOrValue(hi + Zeros(|b| + k), w, hi + b + Zeros(k));
  }

  lemma ByteValue(e: byte)
    ensures Value(BitsOf(e, 8)) == e
  {
    assert Pow2(8) == 256;
    ValueBitsOf(e, 8);
  }

  /** Or-ing one byte in below the bytes that are there. */
  lemma OrByte(hi: seq<bool>, e: byte, k: nat)
    ensures BitOr(Value(hi + Zeros(8 + k)), Shl(e, k)) == Value(hi + BitsOf(e, 8) + Zeros(k))
  {
    ByteValue(e);
    ShlValue(BitsOf(e, 8), k);
    BitOrBelow(hi, BitsOf(e, 8), k);
  }

  /** Two bytes or-ed into a word. */
  lemma OrTwoBytes(hi: byte, lo: byte)
    ensures BitOr(Shl(hi, 8), lo) == Value(BitsOf(hi, 8) + BitsOf(lo, 8))
  {
    hide BitsOf, Value, BitOr;
    ByteValue(hi);
    ShlValue(BitsOf(hi, 8), 8);
    OrByte(BitsOf(hi, 8), lo, 0);
    assert BitsOf(hi, 8) + BitsOf(lo, 8) + Zeros(0) == BitsOf(hi, 8) + BitsOf(lo, 8);
    assert Zeros(8 + 0) == Zeros(8);
  }

  /** Two bytes above a field of `n` bits. */
  lemma OrTwoBytesAbove(hi: byte, mid: byte, low: seq<bool>)
    ensures BitOr(BitOr(Shl(hi, 8 + |low|), Shl(mid, |low|)), Value(low))
         == Value(BitsOf(hi, 8) + BitsOf(mid, 8) + low)
  {
    hide BitsOf, Value, BitOr, Shl;
    var n := |low|;
    var top := BitsOf(hi, 8) + BitsOf(mid, 8);
    ByteValue(hi);
    ShlValue(BitsOf(hi, 8), 8 + n);
    OrByte(BitsOf(hi, 8), mid, n);
    BitOrBelow(top, low, 0);
    assert low + Zeros(0) == low && top + low + Zeros(0) == top + low;
    assert Zeros(n + 0) == Zeros(n);
  }

  /** Clearing the bits a shift drops. */
  lemma {:induction false} ShrOfRest(x: nat, k: nat)
    ensures Low(x, k) <= x && Shr(x - Low(x, k), k) == Shr(x, k)
    decreases k
  {
    if k > 0 {
      ShrOfRest(x / 2, k - 1);
      assert x - Low(x, k) == 2 * (x / 2 - Low(x / 2, k - 1));
    }
  }

  lemma {:induction false} ShlIsProduct(x: nat, k: nat)
    ensures Shl(x, k) == x * Pow2(k)
    decreases k
  {
    if k > 0 { ShlIsProduct(x, k - 1); }
  }

  /** Leading zeros do not count. */
  lemma {:induction false} ValuePadded(n: nat, b: seq<bool>)
    ensures Value(Zeros(n) + b) == Value(b)
  {
    if b == [] {
      assert Zeros(n) + b == Zeros(n);
      ValueZeros(n);
    } else {
      ValuePadded(n, b[..|b| - 1]);
      assert (Zeros(n) + b)[..n + |b| - 1] == Zeros(n) + b[..|b| - 1];
    }
  }

  lemma {:induction false} ValueTopBit(b: seq<bool>)
    requires b != []
    ensures Value(b) >= Pow2(|b| - 1) <==> b[0]
  {
    if |b| > 1 { ValueTopBit(b[..|b| - 1]); }
  }

  // ----- constants

  lemma Pow2Byte(n: nat)
    ensures Pow2(n + 8) == 256 * Pow2(n)
  {
    assert Pow2(n + 2) == 4 * Pow2(n);
    assert Pow2(n + 4) == 4 * Pow2(n + 2);
    assert Pow2(n + 6) == 4 * Pow2(n + 4);
  }

  lemma FieldSizes()
    ensures Pow2(1) == 2 && Pow2(2) == 4 && Pow2(4) == 16 && Pow2(5) == 32 && Pow2(6) == 64
    ensures Pow2(8) == 256 && Pow2(9) == 512 && Pow2(30) == 0x4000_0000
  {
    Pow2Byte(0);
    Pow2Byte(1);
    Pow2Byte(6);
    Pow2Byte(14);
    Pow2Byte(22);
  }

  lemma WordSize()
    ensures Pow2(64) == 0x1_0000_0000_0000_0000
  {
    Pow2Byte(0);
    Pow2Byte(8);
    Pow2Byte(16);
    Pow2Byte(24);
    Pow2Byte(32);
    Pow2Byte(40);
    Pow2Byte(48);
    Pow2Byte(56);
  }
}

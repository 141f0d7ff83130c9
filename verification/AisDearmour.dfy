/** De-armouring through a 64-bit accumulator: `decodeAscii`, lib/aisparser/ais_decoder.cpp, lines 125-207. */
module AisDearmour {
  import opened Sequences
  import opened Bits
  import opened AisAlphabet
  import opened AisPayload

  /** The accumulator holds `pending` at its top and zeros below. */
  ghost predicate Holds(accumulator: nat, pending: seq<bool>) {
    |pending| < 64 && accumulator == Value(pending + Zeros(64 - |pending|))
  }

  lemma HoldsNothing()
    ensures Holds(0, [])
  {
    ValueZeros(64);
    assert [] + Zeros(64) == Zeros(64);
  }

  /** Room for the whole group: it is or-ed in below what is there. */
  lemma Fits(accumulator: nat, pending: seq<bool>, group: seq<bool>)
    requires Holds(accumulator, pending) && |pending| + |group| < 64
    ensures Holds(BitOr(accumulator, Shl(Value(group), 64 - |pending| - |group|)), pending + group)
  {
    var k := 64 - |pending| - |group|;
    ShlValue(group, k);
    BitOrBelow(pending, group, k);
  }

  /** The group fills the accumulator: its first bits complete a word, */
  lemma Completes(accumulator: nat, pending: seq<bool>, group: seq<bool>, over: nat)
    requires Holds(accumulator, pending) && |pending| + |group| == 64 + over && over <= |group|
    ensures BitOr(accumulator, Shr(Value(group), over)) == Value(pending + group[..|group| - over])
  {
    ShrValue(group, over);
    OrLast(pending, group[..|group| - over]);
  }

  lemma OrLast(hi: seq<bool>, b: seq<bool>)
    ensures BitOr(Value(hi + Zeros(|b|)), Value(b)) == Value(hi + b)
  {
    BitOrBelow(hi, b, 0);
    assert b + Zeros(0) == b && hi + b + Zeros(0) == hi + b;
  }

  /** and the others start the next. */
  lemma StartsNext(group: seq<bool>, over: nat)
    requires 0 < over < 64 && over <= |group|
    ensures Holds(Low(Shl(Value(group), 64 - over), 64), group[|group| - over..])
  {
    ShlValue(group, 64 - over);
    LowValue(group + Zeros(64 - over), 64);
    DropAppend(group, Zeros(64 - over), |group| - over);
  }

  /** Byte `j` of a word in memory, after the bytes were swapped to big-endian order. */
  function WordByte(word: nat, j: nat): (b: byte)
    requires j < 8
  {
    LowBound(Shr(word, 56 - 8 * j));
    Low(Shr(word, 56 - 8 * j), 8)
  }

  lemma LowBound(x: nat)
    ensures Low(x, 8) < 256
  {
    assert Low(x, 8) == 2 * Low(x / 2, 7) + x % 2;
    LowBoundBy(x, 8);
    assert Pow2(8) == 256;
  }

  lemma {:induction false} LowBoundBy(x: nat, n: nat)
    ensures Low(x, n) < Pow2(n)
    decreases n
  {
    if n > 0 { LowBoundBy(x / 2, n - 1); }
  }

  lemma WordByteBits(b: seq<bool>, j: nat)
    requires |b| == 64 && j < 8
    ensures BitsOf(WordByte(Value(b), j), 8) == b[8 * j..8 * j + 8]
    ensures b[..8 * j] + BitsOf(WordByte(Value(b), j), 8) == b[..8 * (j + 1)]
  {
    ShrValue(b, 56 - 8 * j);
    var head := b[..8 * j + 8];
    LowValue(head, 8);
    assert head[8 * j..] == b[8 * j..8 * j + 8];
    BitsOfValue(b[8 * j..8 * j + 8]);
  }

  /** Four characters or-ed together, as the first loop reads them. */
  function FourChars(a: char, b: char, c: char, d: char): nat {
    BitOr(BitOr(BitOr(Shl(Dearmour(a), 18), Shl(Dearmour(b), 12)), Shl(Dearmour(c), 6)), Dearmour(d))
  }

  lemma SixBitValue(v: nat)
    requires v < 64
    ensures Value(BitsOf(v, 6)) == v
  {
    assert Pow2(6) == 64;
    ValueBitsOf(v, 6);
  }

  lemma OrNextChar(s: string, c: char, k: nat)
    ensures BitOr(Value(Dearmoured(s) + Zeros(6 + k)), Shl(Dearmour(c), k)) == Value(Dearmoured(s + [c]) + Zeros(k))
  {
    var b := BitsOf(Dearmour(c), 6);
    SixBitValue(Dearmour(c));
    ShlValue(b, k);
    BitOrBelow(Dearmoured(s), b, k);
    DearmouredSnoc(s, c);
  }

  lemma FirstChar(c: char, k: nat)
    ensures Shl(Dearmour(c), k) == Value(Dearmoured([c]) + Zeros(k))
  {
    SixBitValue(Dearmour(c));
    ShlValue(BitsOf(Dearmour(c), 6), k);
    DearmouredSnoc([], c);
    assert [] + [c] == [c] && Dearmoured([]) + BitsOf(Dearmour(c), 6) == BitsOf(Dearmour(c), 6);
  }

  lemma FourCharsValue(a: char, b: char, c: char, d: char)
    ensures FourChars(a, b, c, d) == Value(Dearmoured([a, b, c, d]))
  {
    FirstChar(a, 18);
    OrNextChar([a], b, 12);
    OrNextChar([a, b], c, 6);
    OrNextChar([a, b, c], d, 0);
    assert [a] + [b] == [a, b] && [a, b] + [c] == [a, b, c] && [a, b, c] + [d] == [a, b, c, d];
    assert Shl(Dearmour(d), 0) == Dearmour(d);
    assert Dearmoured([a, b, c, d]) + Zeros(0) == Dearmoured([a, b, c, d]);
  }

  lemma DearmouredSnoc(s: string, c: char)
    ensures Dearmoured(s + [c]) == Dearmoured(s) + BitsOf(Dearmour(c), 6)
  {
    DearmouredAppend(s, [c]);
    assert Dearmoured([c]) == BitsOf(Dearmour(c), 6) + Dearmoured([]);
    assert BitsOf(Dearmour(c), 6) + [] == BitsOf(Dearmour(c), 6);
  }

  /** The loops of `decodeAscii` and what they share: accumulator, fill level, output position. */
  class Accumulator {
    const data: array<byte>
    var accumulator: nat
    var accBitcount: nat
    var out: nat
    ghost var pending: seq<bool>
    ghost var words: nat   // written so far

    ghost predicate Valid()
      reads this
    {
      Holds(accumulator, pending) && accBitcount == |pending| && out == 8 * words <= data.Length
    }

    /** All bits taken in: those written and those still in the accumulator. */
    ghost function Taken(): seq<bool>
      requires Valid()
      reads this, data
    {
      ByteBits(data[..out]) + pending
    }

    constructor (data: array<byte>)
      ensures Valid() && this.data == data && out == 0 && Taken() == []
    {
      this.data := data;
      accumulator, accBitcount, out, pending, words := 0, 0, 0, [], 0;
      HoldsNothing();
    }

    /** Stores the swapped word and advances. */
    method Commit(word: nat, ghost bits: seq<bool>)
      requires |bits| == 64 && word == Value(bits) && out + 8 <= data.Length
      modifies this`out, data
      ensures out == old(out) + 8
      ensures ByteBits(data[..out]) == old(ByteBits(data[..out])) + bits
      ensures forall k | out <= k < data.Length :: data[k] == old(data[k])
    {
      ghost var before := data[..out];
      assert ByteBits(before) + bits[..0] == ByteBits(before);
      for j := 0 to 8
        invariant out == old(out) && |data[..out + j]| == out + j
        invariant ByteBits(data[..out + j]) == ByteBits(before) + bits[..8 * j]
        invariant forall k | out + 8 <= k < data.Length :: data[k] == old(data[k])
      {
        ghost var sofar := data[..out + j];
        data[out + j] := WordByte(word, j);
        assert data[..out + j + 1] == sofar + [WordByte(word, j)];
        NextByteOfWord(before, sofar, bits, j);
      }
      assert bits[..64] == bits;
      out := out + 8;
    }

    /** The loop body: `val` carries `nbits` more bits. */
    method Take(val: nat, nbits: nat, ghost group: seq<bool>)
      requires Valid() && 0 < nbits <= 24 && |group| == nbits && val == Value(group)
      requires accBitcount + nbits >= 64 ==> out + 8 <= data.Length
      modifies this, data
      ensures Valid()
      ensures 64 * words + accBitcount == old(64 * words + accBitcount) + nbits
      ensures words == old(words) + if old(accBitcount) + nbits >= 64 then 1 else 0
      ensures Taken() == old(Taken()) + group
      ensures forall k | out <= k < data.Length :: data[k] == old(data[k])
    {
      var remainder: int := 64 - accBitcount - nbits;
      if remainder <= 0 {
        var over := -remainder;
        ghost var first, last := group[..nbits - over], group[nbits - over..];
        Completes(accumulator, pending, group, over);
        accumulator := BitOr(accumulator, Shr(val, over));
        Commit(accumulator, pending + first);
        words := words + 1;
        if remainder < 0 {
          StartsNext(group, over);
          accumulator := Low(Shl(val, 64 - over), 64);
          accBitcount := over;
        } else {
          HoldsNothing();
          accumulator := 0;
          accBitcount := 0;
        }
        Regroup(old(ByteBits(data[..out])), pending, first, last);
        assert group == first + last;
        pending := last;
      } else {
        Fits(accumulator, pending, group);
        accumulator := BitOr(accumulator, Shl(val, remainder));
        accBitcount := accBitcount + nbits;
        pending := pending + group;
      }
    }

    /** The first `i` characters of the payload have been taken in. */
    ghost predicate Read(payload: string, i: nat)
      reads this, data
    {
      && i <= |payload| && Valid() && Taken() == Dearmoured(payload[..i])
      && 64 * words + accBitcount == 6 * i
    }

    /** One round of either loop: the next `count` characters are taken in. */
    method TakeNext(payload: string, i: nat, count: nat, val: nat, ghost group: seq<bool>)
      requires Read(payload, i) && 0 < count <= 4 && i + count <= |payload|
      requires |group| == 6 * count && val == Value(group)
      requires Dearmoured(payload[..i + count]) == Dearmoured(payload[..i]) + group
      requires FlushedBytes(|payload|) <= data.Length
      modifies this, data
      ensures Read(payload, i + count)
      ensures KeptFrom(FlushedBytes(|payload|))
    {
      RoomForWord(|payload|, i, count, words, accBitcount);
      Take(val, 6 * count, group);
    }

    /** The rest of the buffer is left alone. */
    twostate predicate KeptFrom(n: nat)
      reads data
    {
      forall k | n <= k < data.Length :: data[k] == old(data[k])
    }

    /** The first loop, four characters at a time. */
    method TakeFours(payload: string) returns (i: nat)
      requires Read(payload, 0) && FlushedBytes(|payload|) <= data.Length
      modifies this, data
      ensures Read(payload, i)
      ensures KeptFrom(FlushedBytes(|payload|))
    {
      i := 0;
      while i < |payload| - 4
        invariant Read(payload, i)
        invariant KeptFrom(FlushedBytes(|payload|))
      {
        FourCharsAt(payload, i);
        NextChars(payload, i, 4);
        TakeNext(payload, i, 4, FourChars(payload[i], payload[i + 1], payload[i + 2], payload[i + 3]),
                 Dearmoured(payload[i..i + 4]));
        i := i + 4;
      }
    }

    /** The second loop, one character at a time. */
    method TakeOnes(payload: string, start: nat)
      requires Read(payload, start) && FlushedBytes(|payload|) <= data.Length
      modifies this, data
      ensures Read(payload, |payload|)
      ensures KeptFrom(FlushedBytes(|payload|))
    {
      var i := start;
      while i < |payload|
        invariant Read(payload, i)
        invariant KeptFrom(FlushedBytes(|payload|))
      {
        OneCharAt(payload, i);
        NextChars(payload, i, 1);
        TakeNext(payload, i, 1, Dearmour(payload[i]), Dearmoured(payload[i..i + 1]));
        i := i + 1;
      }
    }

    /** The last word. */
    method Flush(payload: string)
      requires Read(payload, |payload|) && FlushedBytes(|payload|) <= data.Length
      modifies this, data
      ensures ByteBits(data[..FlushedBytes(|payload|)]) == PaddedBits(payload)
      ensures KeptFrom(FlushedBytes(|payload|))
    {
      ghost var taken, zeros := ByteBits(data[..out]), Zeros(64 - |pending|);
      assert payload[..|payload|] == payload;
      LastWord(|payload|, words, accBitcount);
      Commit(accumulator, pending + zeros);
      Associate(taken, pending, zeros);
    }
  }

  lemma RoomForWord(n: nat, i: nat, count: nat, words: nat, accBitcount: nat)
    requires 64 * words + accBitcount == 6 * i && accBitcount < 64 && i + count <= n && count <= 4
    ensures 8 * (words + if accBitcount + 6 * count >= 64 then 1 else 0) <= FlushedBytes(n)
  {
  }

  lemma LastWord(n: nat, words: nat, accBitcount: nat)
    requires 64 * words + accBitcount == 6 * n && accBitcount < 64
    ensures 8 * words + 8 == FlushedBytes(n)
  {
  }

  lemma NextByteOfWord(before: seq<byte>, sofar: seq<byte>, bits: seq<bool>, j: nat)
    requires |bits| == 64 && j < 8 && ByteBits(sofar) == ByteBits(before) + bits[..8 * j]
    ensures ByteBits(sofar + [WordByte(Value(bits), j)]) == ByteBits(before) + bits[..8 * (j + 1)]
  {
    var e := WordByte(Value(bits), j);
    ByteBitsSnoc(sofar, e);
    WordByteBits(bits, j);
    Associate(ByteBits(before), bits[..8 * j], BitsOf(e, 8));
  }

  lemma NextChars(s: string, i: nat, count: nat)
    requires i + count <= |s|
    ensures Dearmoured(s[..i + count]) == Dearmoured(s[..i]) + Dearmoured(s[i..i + count])
  {
    assert s[..i + count] == s[..i] + s[i..i + count];
    DearmouredAppend(s[..i], s[i..i + count]);
  }

  lemma FourCharsAt(s: string, i: nat)
    requires i + 4 <= |s|
    ensures FourChars(s[i], s[i + 1], s[i + 2], s[i + 3]) == Value(Dearmoured(s[i..i + 4]))
  {
    assert s[i..i + 4] == [s[i], s[i + 1], s[i + 2], s[i + 3]];
    FourCharsValue(s[i], s[i + 1], s[i + 2], s[i + 3]);
  }

  lemma OneCharAt(s: string, i: nat)
    requires i < |s|
    ensures Dearmour(s[i]) == Value(Dearmoured(s[i..i + 1]))
  {
    assert s[i..i + 1] == [s[i]];
    FirstChar(s[i], 0);
    assert Dearmoured([s[i]]) + Zeros(0) == Dearmoured([s[i]]);
    assert Shl(Dearmour(s[i]), 0) == Dearmour(s[i]);
  }

  /** De-armours a payload into the buffer. The bits found there afterwards are exactly those of the
      payload, in order, padded with zeros to the last 64-bit word. */
  method DecodeAscii(buffer: PayloadBuffer, payload: string, fillBits: int) returns (bitsUsed: int)
    requires FlushedBytes(|payload|) <= buffer.data.Length
    modifies buffer.data
    ensures buffer.Bits()[..8 * FlushedBytes(|payload|)] == PaddedBits(payload)
    ensures forall k | FlushedBytes(|payload|) <= k < buffer.data.Length :: buffer.data[k] == old(buffer.data[k])
    ensures bitsUsed == 6 * |payload| - fillBits
  {
    var acc := new Accumulator(buffer.data);
    assert payload[..0] == [];
    var i := acc.TakeFours(payload);
    acc.TakeOnes(payload, i);
    acc.Flush(payload);
    FlushedPart(buffer.data[..], FlushedBytes(|payload|));
    bitsUsed := 6 * |payload| - fillBits;
  }

  lemma FlushedPart(d: seq<byte>, n: nat)
    requires n <= |d|
    ensures ByteBits(d)[..8 * n] == ByteBits(d[..n])
  {
    ByteBitsSlice(d, 0, n);
    assert d[0..n] == d[..n];
  }

  /** The array declared for the buffer, 308 bytes, holds the last word of a payload of up to 405 characters. */
  lemma DeclaredArraySuffices(n: nat)
    ensures FlushedBytes(n) <= 308 <==> n <= 405
  {
  }

  /** The longest payload the decoder lets through has five characters more. */
  lemma DeclaredArrayTooShort()
    ensures FlushedBytes(406) == 312 == FlushedBytes(410)
  {
  }
}

/** The packed payload of the decoder: lib/aisparser/ais_decoder.cpp, lines 28-207. */
module AisPayload {
  import opened Sequences
  import opened Bits
  import opened AisAlphabet

  /** The size in bytes of what decodeAscii writes for `n` characters: whole 64-bit words,
      at least one of them and always with room to spare. */
  function FlushedBytes(n: nat): nat {
    8 * (6 * n / 64 + 1)
  }

  /** The bits found in the buffer after a payload was de-armoured. */
  function PaddedBits(payload: string): (b: seq<bool>)
    ensures |b| == 8 * FlushedBytes(|payload|)
  {
    Dearmoured(payload) + Zeros(8 * FlushedBytes(|payload|) - 6 * |payload|)
  }

  /** An unsigned field. */
  function FieldAt(b: seq<bool>, i: nat, n: nat): nat
    requires i + n <= |b|
  {
    Value(b[i..i + n])
  }

  /** A field in two's complement. */
  function SignedFieldAt(b: seq<bool>, i: nat, n: nat): int
    requires n > 0 && i + n <= |b|
  {
    FieldAt(b, i, n) - if b[i] then Pow2(n) else 0
  }

  /** The bits of a text field the reader looks at: it stops after 64 characters. */
  function TextField(b: seq<bool>, i: nat, n: nat): (field: seq<bool>)
    requires i + n <= |b|
    ensures |field| <= n && field == b[i..i + |field|]
    ensures |field| / 6 == if n / 6 > 64 then 64 else n / 6
  {
    if n / 6 > 64 then b[i..i + 6 * 64] else b[i..i + n]
  }

  function TextAt(b: seq<bool>, i: nat, n: nat): string
    requires i + n <= |b|
  {
    CleanText(SixBitText(TextField(b, i, n)))
  }

  // ----- bytes and bits

  lemma {:induction false} ByteBitsAppend(d: seq<byte>, e: seq<byte>)
    ensures ByteBits(d + e) == ByteBits(d) + ByteBits(e)
  {
    hide ByteBits, BitsOf;
    if e == [] {
      NoByteBits();
      assert d + e == d;
    } else {
      var e', x := e[..|e| - 1], e[|e| - 1];
      ByteBitsAppend(d, e');
      ByteBitsSnoc(d + e', x);
      ByteBitsSnoc(e', x);
      LastApart(d, e);
      Associate(ByteBits(d), ByteBits(e'), BitsOf(x, 8));
    }
  }

  lemma NoByteBits()
    ensures ByteBits([]) == []
  {
  }

  lemma ByteBitsSnoc(d: seq<byte>, e: byte)
    ensures ByteBits(d + [e]) == ByteBits(d) + BitsOf(e, 8)
  {
    assert (d + [e])[..|d|] == d;
  }


  lemma ByteBitsMiddle(a: seq<byte>, b: seq<byte>, c: seq<byte>)
    ensures ByteBits(a + b + c)[8 * |a|..8 * |a| + 8 * |b|] == ByteBits(b)
  {
    hide ByteBits;
    ByteBitsAppend(a + b, c);
    ByteBitsAppend(a, b);
    Middle(ByteBits(a), ByteBits(b), ByteBits(c));
  }

  lemma ByteBitsSlice(d: seq<byte>, p: nat, q: nat)
    requires p <= q <= |d|
    ensures ByteBits(d)[8 * p..8 * q] == ByteBits(d[p..q])
  {
    hide ByteBits;
    SplitInThree(d, p, q);
    ByteBitsMiddle(d[..p], d[p..q], d[q..]);
  }

  /** The first two bytes at the top of a 48-bit window. */
  function ShortWindow(d0: byte, d1: byte): nat {
    BitOr(Shl(d0, 40), Shl(d1, 32))
  }

  /** Six bytes, assembled in the order of the decoder. */
  function LongWindow(d0: byte, d1: byte, d2: byte, d3: byte, d4: byte, d5: byte): nat {
    BitOr(BitOr(BitOr(BitOr(ShortWindow(d0, d1), Shl(d2, 24)), Shl(d3, 16)), Shl(d4, 8)), d5)
  }

  lemma ShortWindowValue(d0: byte, d1: byte)
    ensures ShortWindow(d0, d1) == Value(ByteBits([d0, d1]) + Zeros(32))
  {
    ByteValue(d0);
    ShlValue(BitsOf(d0, 8), 40);
    OrByte(BitsOf(d0, 8), d1, 32);
    ByteBitsSnoc([], d0);
    ByteBitsSnoc([d0], d1);
    assert [] + [d0] == [d0] && [d0] + [d1] == [d0, d1];
    assert ByteBits([]) + BitsOf(d0, 8) == BitsOf(d0, 8);
  }

  lemma LongWindowValue(d0: byte, d1: byte, d2: byte, d3: byte, d4: byte, d5: byte)
    ensures LongWindow(d0, d1, d2, d3, d4, d5) == Value(ByteBits([d0, d1, d2, d3, d4, d5]))
  {
    ShortWindowValue(d0, d1);
    OrNextByte([d0, d1], d2, 24);
    OrNextByte([d0, d1, d2], d3, 16);
    OrNextByte([d0, d1, d2, d3], d4, 8);
    OrNextByte([d0, d1, d2, d3, d4], d5, 0);
    assert Shl(d5, 0) == d5;
    assert ByteBits([d0, d1, d2, d3, d4, d5]) + Zeros(0) == ByteBits([d0, d1, d2, d3, d4, d5]);
    assert [d0, d1] + [d2] == [d0, d1, d2];
    assert [d0, d1, d2] + [d3] == [d0, d1, d2, d3];
    assert [d0, d1, d2, d3] + [d4] == [d0, d1, d2, d3, d4];
    assert [d0, d1, d2, d3, d4] + [d5] == [d0, d1, d2, d3, d4, d5];
  }

  lemma OrNextByte(d: seq<byte>, e: byte, k: nat)
    ensures BitOr(Value(ByteBits(d) + Zeros(8 + k)), Shl(e, k)) == Value(ByteBits(d + [e]) + Zeros(k))
  {
    OrByte(ByteBits(d), e, k);
    ByteBitsSnoc(d, e);
  }

  /** Shifting a 48-bit window to the top of a 64-bit word drops the bits before the field. */
  lemma AlignField(win: seq<bool>, s: nat)
    requires |win| == 48 && s < 8
    ensures Low(Shl(Value(win), 16 + s), 64) == Value(win[s..] + Zeros(16 + s))
  {
    ShlValue(win, 16 + s);
    LowValue(win + Zeros(16 + s), 64);
    DropAppend(win, Zeros(16 + s), s);
  }

  /** The 48 bits the readers look at begin with the bytes at the read position. */
  lemma WindowBits(d: seq<byte>, p: nat, n: nat, w: nat) returns (win: seq<bool>)
    requires 1 <= n <= 32 && p + (if n > 9 then 5 else 1) < |d|
    requires w == if n > 9 then LongWindow(d[p], d[p + 1], d[p + 2], d[p + 3], d[p + 4], d[p + 5])
                  else ShortWindow(d[p], d[p + 1])
    ensures |win| == 48 && Value(win) == w
    ensures win[..if n > 9 then 48 else 16] == ByteBits(d)[8 * p..8 * p + if n > 9 then 48 else 16]
  {
    if n > 9 {
      assert d[p..p + 6] == [d[p], d[p + 1], d[p + 2], d[p + 3], d[p + 4], d[p + 5]];
      LongWindowValue(d[p], d[p + 1], d[p + 2], d[p + 3], d[p + 4], d[p + 5]);
      ByteBitsSlice(d, p, p + 6);
      win := ByteBits(d[p..p + 6]);
    } else {
      assert d[p..p + 2] == [d[p], d[p + 1]];
      ShortWindowValue(d[p], d[p + 1]);
      ByteBitsSlice(d, p, p + 2);
      win := ByteBits(d[p..p + 2]) + Zeros(32);
    }
  }

  /** A part of what two strings share. */
  lemma SharedPart<T>(a: seq<T>, used: nat, b: seq<T>, at: nat, s: nat, n: nat)
    requires s + n <= used <= |a| && at + used <= |b| && a[..used] == b[at..at + used]
    ensures a[s..s + n] == b[at + s..at + s + n]
  {
    SliceSlice(a, 0, used, s, s + n);
    SliceSlice(b, at, at + used, s, s + n);
  }

  lemma TakeOfDrop<T>(a: seq<T>, tail: seq<T>, s: nat, n: nat)
    requires s + n <= |a|
    ensures (a[s..] + tail)[..n] == a[s..s + n]
  {
  }

  lemma UnsignedOfWord(b: seq<bool>, n: nat)
    requires |b| == 64 && 1 <= n <= 32
    ensures Low(Shr(Value(b), 64 - n), 32) == Value(b[..n])
  {
    ShrValue(b, 64 - n);
    var word := Zeros(32 - n) + b[..n];
    ValuePadded(32 - n, b[..n]);
    LowValue(word, 32);
    assert word[0..] == word;
  }

  lemma SignedOfWord(b: seq<bool>, n: nat)
    requires |b| == 64 && 1 <= n <= 32
    ensures Value(b) >= Pow2(63) <==> b[..n][0]
    ensures Sar(Value(b) - Pow2(64), 64 - n) == Value(b[..n]) - Pow2(n)
    ensures Sar(Value(b), 64 - n) == Value(b[..n])
  {
    hide Value, Sar, Shr;
    ValueTopBit(b);
    ShrValue(b, 64 - n);
    SarOfWord(Value(b), n, 64 - n);
    SarOfNat(Value(b), 64 - n);
  }

  /** What the unsigned reader makes of its 64-bit word. */
  function TopBits(bits: nat, n: nat): nat
    requires n <= 64
  {
    Low(Shr(bits, 64 - n), 32)
  }

  /** What the signed reader makes of it: the word is shifted right as a signed number. */
  function SignedTopBits(bits: nat, n: nat): int
    requires n <= 64
  {
    Sar(if bits >= Pow2(63) then bits - Pow2(64) else bits, 64 - n)
  }

  /** The word that holds a field of `all` at its top. */
  ghost predicate HoldsField(bits: nat, all: seq<bool>, at: nat, n: nat) {
    1 <= n <= 32 && at + n <= |all|
    && exists b: seq<bool> :: |b| == 64 && Value(b) == bits && b[..n] == all[at..at + n]
  }

  lemma FieldOfWord(bits: nat, all: seq<bool>, at: nat, n: nat)
    requires HoldsField(bits, all, at, n)
    ensures TopBits(bits, n) == FieldAt(all, at, n)
  {
    var b: seq<bool> :| |b| == 64 && Value(b) == bits && b[..n] == all[at..at + n];
    UnsignedOfWord(b, n);
  }

  lemma SignedFieldOfWord(bits: nat, all: seq<bool>, at: nat, n: nat)
    requires HoldsField(bits, all, at, n)
    ensures SignedTopBits(bits, n) == SignedFieldAt(all, at, n)
  {
    var b: seq<bool> :| |b| == 64 && Value(b) == bits && b[..n] == all[at..at + n];
    hide Value, Sar;
    FirstOf(all, at, n);
    SignedOfWord(b, n);
  }

  lemma FirstOf<T>(all: seq<T>, at: nat, n: nat)
    requires 1 <= n && at + n <= |all|
    ensures all[at..at + n][0] == all[at]
  {
  }

  /** The word made from a 48-bit window that agrees with `all` from bit `base`. */
  lemma FieldOfWindow(win: seq<bool>, used: nat, all: seq<bool>, base: nat, s: nat, n: nat)
    requires |win| == 48 && s < 8 && 1 <= n <= 32 && s + n <= used <= 48
    requires base + used <= |all| && win[..used] == all[base..base + used]
    ensures HoldsField(Low(Shl(Value(win), 16 + s), 64), all, base + s, n)
  {
    AlignField(win, s);
    var b := win[s..] + Zeros(16 + s);
    TakeOfDrop(win, Zeros(16 + s), s, n);
    SharedPart(win, used, all, base, s, n);
  }

  lemma ReadField(d: seq<byte>, at: nat, n: nat, w: nat)
    requires var p := at / 8;
             && 1 <= n <= 32 && p + (if n > 9 then 5 else 1) < |d|
             && w == if n > 9 then LongWindow(d[p], d[p + 1], d[p + 2], d[p + 3], d[p + 4], d[p + 5])
                     else ShortWindow(d[p], d[p + 1])
    ensures HoldsField(Low(Shl(w, 16 + at % 8), 64), ByteBits(d), at, n)
  {
    var win := WindowBits(d, at / 8, n, w);
    assert 8 * (at / 8) + at % 8 == at;
    FieldOfWindow(win, if n > 9 then 48 else 16, ByteBits(d), 8 * (at / 8), at % 8, n);
  }

  class PayloadBuffer {
    const data: array<byte>
    var bitIndex: nat

    /** What the buffer holds, bit by bit. */
    ghost function Bits(): (b: seq<bool>)
      reads data
      ensures |b| == 8 * data.Length
    {
      ByteBits(data[..])
    }

    constructor (size: nat)
      ensures data.Length == size && bitIndex == 0 && fresh(data)
    {
      data := new byte[size](_ => 0);
      bitIndex := 0;
    }

    method ResetBitIndex()
      modifies this
      ensures bitIndex == 0
    {
      bitIndex := 0;
    }

    /** The bytes at the read position, six of them or two for a short field, shifted so
        that the field is at the top of a 64-bit word. */
    method ReadWindow(iBits: nat) returns (word: nat)
      requires 1 <= iBits <= 32
      requires bitIndex + (if iBits > 9 then 40 else 8) < 8 * data.Length
      ensures HoldsField(word, Bits(), bitIndex, iBits)
    {
      var p := bitIndex / 8;
      word := Shl(data[p], 40);
      word := BitOr(word, Shl(data[p + 1], 32));
      if iBits > 9 {
        word := BitOr(word, Shl(data[p + 2], 24));
        word := BitOr(word, Shl(data[p + 3], 16));
        word := BitOr(word, Shl(data[p + 4], 8));
        word := BitOr(word, data[p + 5]);
      }
      ReadField(data[..], bitIndex, iBits, word);
      word := Low(Shl(word, 16 + bitIndex % 8), 64);
    }

    method GetUnsignedValue(iBits: nat) returns (r: nat)
      requires 1 <= iBits <= 32
      requires bitIndex + (if iBits > 9 then 40 else 8) < 8 * data.Length
      modifies this
      ensures bitIndex == old(bitIndex) + iBits <= 8 * data.Length
      ensures r == FieldAt(Bits(), old(bitIndex), iBits)
    {
      var word := ReadWindow(iBits);
      FieldOfWord(word, Bits(), bitIndex, iBits);
      bitIndex := bitIndex + iBits;
      r := TopBits(word, iBits);
    }

    method GetSignedValue(iBits: nat) returns (r: int)
      requires 1 <= iBits <= 32
      requires bitIndex + (if iBits > 9 then 40 else 8) < 8 * data.Length
      modifies this
      ensures bitIndex == old(bitIndex) + iBits <= 8 * data.Length
      ensures r == SignedFieldAt(Bits(), old(bitIndex), iBits)
    {
      var word := ReadWindow(iBits);
      SignedFieldOfWord(word, Bits(), bitIndex, iBits);
      bitIndex := bitIndex + iBits;
      r := SignedTopBits(word, iBits);
    }

    method GetBoolValue() returns (r: bool)
      requires bitIndex + 8 < 8 * data.Length
      modifies this
      ensures bitIndex == old(bitIndex) + 1 <= 8 * data.Length
      ensures r == (FieldAt(Bits(), old(bitIndex), 1) != 0)
    {
      var v := GetUnsignedValue(1);
      r := v != 0;
    }

    method GetString(iNumBits: nat) returns (r: string)
      requires bitIndex + iNumBits + 8 < 8 * data.Length
      modifies this
      ensures bitIndex == old(bitIndex) + iNumBits <= 8 * data.Length
      ensures r == TextAt(Bits(), old(bitIndex), iNumBits)
    {
      var strdata := new char[64](_ => '\0');
      var iNumChars := iNumBits / 6;
      if iNumChars > strdata.Length { iNumChars := strdata.Length; }
      var iStartBitIndex := bitIndex;
      ghost var field := TextField(Bits(), bitIndex, iNumBits);
      iNumChars := ReadCharacters(iNumChars, strdata, field);
      iNumChars := RemoveTrailingSpaces(strdata, iNumChars);
      bitIndex := iStartBitIndex + iNumBits;
      r := strdata[..iNumChars];
    }

    static method RemoveTrailingSpaces(strdata: array<char>, iNumChars: nat) returns (n: nat)
      requires iNumChars <= strdata.Length
      ensures n <= strdata.Length && strdata[..n] == TrimRight(strdata[..iNumChars])
    {
      n := iNumChars;
      while n > 0 && IsSpace(strdata[n - 1])
        invariant n <= iNumChars
        invariant TrimRight(strdata[..n]) == TrimRight(strdata[..iNumChars])
      {
        assert strdata[..n][..n - 1] == strdata[..n - 1];
        n := n - 1;
      }
    }

    /** The reading loop of GetString, which stops at '@'. */
    method ReadCharacters(iNumChars: nat, strdata: array<char>, ghost field: seq<bool>) returns (n: nat)
      requires strdata.Length == 64 && iNumChars == |field| / 6 <= 64
      requires bitIndex + |field| + 8 < 8 * data.Length
      requires field == Bits()[bitIndex..bitIndex + |field|]
      modifies this, strdata
      ensures n <= 64 && strdata[..n] == BeforeAt(SixBitText(field))
    {
      ghost var start, all, text := bitIndex, Bits(), SixBitText(field);
      n := 0;
      while n < iNumChars
        invariant n <= iNumChars && bitIndex == start + 6 * n
        invariant strdata[..n] == text[..n] && '@' !in text[..n]
      {
        GroupAt(all, start, field, n);
        var ch := GetUnsignedValue(6);
        OnlyZeroIsAt(ch);
        if ch == 0 { break; }
        AlphabetTable(ch);
        ghost var had := strdata[..n];
        strdata[n] := ASCII_CHARS[ch];
        assert strdata[..n + 1] == had + [text[n]];
        assert text[..n + 1] == text[..n] + [text[n]];
        n := n + 1;
      }
      BeforeAtUnique(text, n);
    }
  }

  lemma GroupAt(b: seq<bool>, start: nat, field: seq<bool>, i: nat)
    requires start + |field| <= |b| && field == b[start..start + |field|] && i < |field| / 6
    ensures FieldAt(b, start + 6 * i, 6) == Group(field, i)
  {
    SliceSlice(b, start, start + |field|, 6 * i, 6 * i + 6);
  }

  lemma OnlyZeroIsAt(v: nat)
    requires v < 64
    ensures SixBitChar(v) == '@' <==> v == 0
  {
  }

  lemma {:induction false} BeforeAtUnique(s: string, n: nat)
    requires n <= |s| && '@' !in s[..n] && (n == |s| || s[n] == '@')
    ensures BeforeAt(s) == s[..n]
  {
    if n > 0 {
      assert s[0] == s[..n][0];
      assert s[1..][..n - 1] == s[..n][1..];
      BeforeAtUnique(s[1..], n - 1);
    }
  }
}

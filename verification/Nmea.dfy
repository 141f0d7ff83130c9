/** The NMEA 0183 frame around a payload: checksum and comma-separated words.
    lib/aisparser/ais_decoder.cpp, lines 210-236 and 784-839; lib/aisparser/strutils.h, lines 278-351. */
module Nmea {
  import opened Sequences
  import opened AisAlphabet
  import opened Bits

  // ----- checksum

  /** The bytes of a string of 8-bit characters. */
  function Bytes(s: string): (b: seq<bv8>)
    ensures |b| == |s|
  {
    seq(|s|, i requires 0 <= i < |s| => (s[i] as int % 256) as bv8)
  }

  /** The checksum of NMEA 0183: the exclusive or of all bytes. */
  function Xor(b: seq<bv8>): bv8 {
    if b == [] then 0 else Xor(b[..|b| - 1]) ^ b[|b| - 1]
  }

  /** A 32-bit word in memory, least significant byte first. */
  function Word(b0: bv8, b1: bv8, b2: bv8, b3: bv8): bv32 {
    b0 as bv32 | (b1 as bv32 << 8) | (b2 as bv32 << 16) | (b3 as bv32 << 24)
  }

  /** The four bytes of a word folded into one. */
  function Fold(w: bv32): bv8 {
    ((w & 0xff) ^ ((w >> 8) & 0xff) ^ ((w >> 16) & 0xff) ^ ((w >> 24) & 0xff)) as bv8
  }

  lemma FoldByte(c: bv8)
    ensures Fold(c as bv32) == c
  {
  }

  lemma FoldWord(w: bv32, b0: bv8, b1: bv8, b2: bv8, b3: bv8)
    ensures Fold(w ^ Word(b0, b1, b2, b3)) == Fold(w) ^ b0 ^ b1 ^ b2 ^ b3
  {
  }

  lemma XorNext(b: seq<bv8>, i: nat)
    requires i < |b|
    ensures Xor(b[..i + 1]) == Xor(b[..i]) ^ b[i]
  {
    assert b[..i + 1][..i] == b[..i];
  }

  lemma XorNextFour(b: seq<bv8>, i: nat)
    requires i + 4 <= |b|
    ensures Xor(b[..i + 4]) == Xor(b[..i]) ^ b[i] ^ b[i + 1] ^ b[i + 2] ^ b[i + 3]
  {
    XorNext(b, i);
    XorNext(b, i + 1);
    XorNext(b, i + 2);
    XorNext(b, i + 3);
  }

  /** Byte by byte up to an address divisible by four, then whole words, then the bytes that are left.
      `address` is where the bytes lie in memory. */
  method Crc(b: seq<bv8>, address: nat) returns (checksum: bv8)
    ensures checksum == Xor(b)
  {
    var i := 0;
    checksum := 0;
    while (address + i) % 4 != 0 && i < |b|
      invariant i <= |b| && checksum == Xor(b[..i])
      decreases |b| - i
    {
      XorNext(b, i);
      checksum := checksum ^ b[i];
      i := i + 1;
    }
    var checksum4 := checksum as bv32;
    FoldByte(checksum);
    while i < |b| - 4
      invariant i <= |b| && Fold(checksum4) == Xor(b[..i])
    {
      XorNextFour(b, i);
      FoldWord(checksum4, b[i], b[i + 1], b[i + 2], b[i + 3]);
      checksum4 := checksum4 ^ Word(b[i], b[i + 1], b[i + 2], b[i + 3]);
      i := i + 4;
    }
    checksum := Fold(checksum4);
    while i < |b|
      invariant i <= |b| && checksum == Xor(b[..i])
    {
      XorNext(b, i);
      checksum := checksum ^ b[i];
      i := i + 1;
    }
    assert b[..|b|] == b;
  }

  /** The table of the checksum digits, entered with five bits of `c - '0'`. */
  function CrcDigit(c: char): nat {
    var k := (c as int - '0' as int) % 32;
    if k <= 9 then k else if 17 <= k <= 22 then k - 7 else 257
  }

  function HexDigit(v: nat): char
    requires v < 16
  {
    if v < 10 then ('0' as int + v) as char else ('A' as int + v - 10) as char
  }

  function LowerHexDigit(v: nat): char
    requires v < 16
  {
    if v < 10 then ('0' as int + v) as char else ('a' as int + v - 10) as char
  }

  /** The part of a sentence its checksum covers. */
  function Covered(s: string): string
    requires |s| > 3
  {
    if s[0] == '!' || s[0] == '$' then s[1..|s| - 3] else s[..|s| - 3]
  }

  /** When the two characters after '*' are taken for the checksum of the sentence. */
  predicate CrcMatches(s: string) {
    && |s| > 3 && s[|s| - 3] == '*'
    && 16 * CrcDigit(s[|s| - 2]) + CrcDigit(s[|s| - 1]) == Xor(Bytes(Covered(s))) as int
  }

  method CheckCrc(s: string, address: nat) returns (ok: bool)
    ensures ok == CrcMatches(s)
  {
    if |s| > 3 {
      if s[|s| - 3] == '*' {
        var iCrc := CrcDigit(s[|s| - 2]) * 16 + CrcDigit(s[|s| - 1]);
        if s[0] == '!' || s[0] == '$' {
          var iCrcCalc := Crc(Bytes(s[1..|s| - 3]), address + 1);
          return iCrc == iCrcCalc as int;
        } else {
          var iCrcCalc := Crc(Bytes(s[..|s| - 3]), address);
          return iCrc == iCrcCalc as int;
        }
      }
    }
    ok := false;
  }

  /** Both cases of hexadecimal are accepted, digit by digit. */
  lemma HexAccepted(v: nat)
    requires v < 16
    ensures CrcDigit(HexDigit(v)) == v && CrcDigit(LowerHexDigit(v)) == v
  {
  }

  /** A sentence is accepted exactly if each of its two checksum characters is a digit of the
      right value, where a character stands for the digit 32 code points below or above as well. */
  lemma CrcAcceptedExactly(s: string)
    requires |s| > 3 && s[|s| - 3] == '*'
    ensures var x := Xor(Bytes(Covered(s))) as int;
            CrcMatches(s) <==> CrcDigit(s[|s| - 2]) == x / 16 && CrcDigit(s[|s| - 1]) == x % 16
  {
    var x := Xor(Bytes(Covered(s))) as int;
    var hi, lo := CrcDigit(s[|s| - 2]), CrcDigit(s[|s| - 1]);
    assert 0 <= x < 256;
    assert (hi < 16 || hi == 257) && (lo < 16 || lo == 257);
    if hi < 16 && lo < 16 && 16 * hi + lo == x {
      assert x / 16 == hi && x % 16 == lo;
    }
  }

  // ----- what the checksum is

  /** How many of the bytes have the bit. */
  function CountBit(b: seq<bv8>, bit: bv8): nat {
    if b == [] then 0 else CountBit(b[..|b| - 1], bit) + if b[|b| - 1] & bit != 0 then 1 else 0
  }

  predicate SingleBit(bit: bv8) {
    bit in {1, 2, 4, 8, 16, 32, 64, 128}
  }

  lemma BitOfXor(x: bv8, y: bv8, bit: bv8)
    requires SingleBit(bit)
    ensures (x ^ y) & bit != 0 <==> (x & bit != 0) != (y & bit != 0)
  {
  }

  /** A bit of the checksum is set exactly if an odd number of bytes has it. */
  lemma {:induction false} XorParity(b: seq<bv8>, bit: bv8)
    requires SingleBit(bit)
    ensures Xor(b) & bit != 0 <==> CountBit(b, bit) % 2 == 1
  {
    if b == [] {
      assert Xor(b) == 0 && (0 as bv8) & bit == 0;
    } else {
      XorParity(b[..|b| - 1], bit);
      BitOfXor(Xor(b[..|b| - 1]), b[|b| - 1], bit);
    }
  }

  /** Upper-case digits are written. */
  lemma HexDigits(v: nat)
    requires v < 16
    ensures HexDigit(v) == "0123456789ABCDEF"[v]
  {
  }

  // ----- words

  /** Position of the first comma, or the length. */
  function Comma(s: string): (i: nat)
    ensures i <= |s|
  {
    if s == [] || s[0] == ',' then 0 else 1 + Comma(s[1..])
  }

  /** The words of a sentence, `max` of them at most; a last word that is empty does not count. */
  function Words(s: string, max: nat): (w: seq<string>)
    ensures |w| <= max
    decreases max, s
  {
    if s == [] || max == 0 then [] else [s[..Comma(s)]] + Words(AfterComma(s), max - 1)
  }

  function AfterComma(s: string): (r: string)
    ensures s != [] ==> |r| < |s|
  {
    if Comma(s) < |s| then s[Comma(s) + 1..] else []
  }

  function From(s: string, p: nat): string {
    if p <= |s| then s[p..] else []
  }

  /** What is found so far and what is still to come. */
  ghost predicate Found(words: seq<string>, s: string, p: nat, size: nat) {
    |words| <= size && words + Words(From(s, p), size - |words|) == Words(s, size)
  }

  method Separate(s: string, size: nat) returns (words: seq<string>)
    ensures words == Words(s, size)
  {
    hide Words, Comma;
    var pCh := 0;
    words := [];
    while pCh < |s| && |words| < size
      invariant Found(words, s, pCh, size)
      decreases |s| - pCh
    {
      var word := s[pCh..];
      word := word[..Comma(word)];
      FoundNext(words, s, pCh, size, word);
      words := words + [word];
      pCh := pCh + |word| + 1;
    }
    NoMoreWords(words, From(s, pCh), size - |words|);
  }

  lemma FoundNext(words: seq<string>, s: string, p: nat, size: nat, word: string)
    requires Found(words, s, p, size) && p < |s| && |words| < size
    requires word == s[p..][..Comma(s[p..])]
    ensures Found(words + [word], s, p + |word| + 1, size)
  {
    hide Words, Comma;
    var max := size - |words|;
    assert size - |words + [word]| == max - 1;
    WordAt(s, p, words, max);
  }

  lemma WordAt(s: string, p: nat, words: seq<string>, max: nat)
    requires p < |s| && max > 0
    ensures var word := s[p..][..Comma(s[p..])];
            words + Words(From(s, p), max) == words + [word] + Words(From(s, p + |word| + 1), max - 1)
  {
    hide Comma;
    var rest := s[p..];
    var i := Comma(rest);
    assert AfterComma(rest) == From(s, p + i + 1);
    Associate(words, [rest[..i]], Words(AfterComma(rest), max - 1));
  }

  lemma NoMoreWords(words: seq<string>, rest: string, max: nat)
    requires rest == [] || max == 0
    ensures words + Words(rest, max) == words
  {
  }

  predicate NoComma(w: string) {
    ',' !in w
  }

  function Join(w: seq<string>): string {
    if w == [] then [] else if |w| == 1 then w[0] else w[0] + "," + Join(w[1..])
  }

  lemma {:induction false} CommaUnique(s: string, n: nat)
    requires n <= |s| && (forall i | 0 <= i < n :: s[i] != ',') && (n == |s| || s[n] == ',')
    ensures Comma(s) == n
  {
    if n > 0 { CommaUnique(s[1..], n - 1); }
  }

  lemma CommaOfJoin(w: string, rest: string)
    requires NoComma(w)
    ensures Comma(w) == |w| && AfterComma(w) == []
    ensures Comma(w + "," + rest) == |w| && AfterComma(w + "," + rest) == rest
    ensures (w + "," + rest)[..|w|] == w
  {
    CommaUnique(w, |w|);
    CommaUnique(w + "," + rest, |w|);
  }

  lemma WordsCons(w: string, rest: string, max: nat)
    requires NoComma(w) && max > 0
    ensures Words(w + "," + rest, max) == [w] + Words(rest, max - 1)
  {
    CommaOfJoin(w, rest);
  }

  lemma OneWord(w: string, max: nat)
    requires NoComma(w) && w != [] && max > 0
    ensures Words(w, max) == [w]
  {
    CommaOfJoin(w, []);
    assert w[..|w|] == w;
    NoMoreWords([w], [], max - 1);
  }

  /** Words written with commas between them are found again. */
  lemma {:induction false} WordsOfJoin(w: seq<string>, max: nat)
    requires w != [] && |w| <= max && w[|w| - 1] != [] && forall i | 0 <= i < |w| :: NoComma(w[i])
    ensures Words(Join(w), max) == w
  {
    hide Words;
    if |w| == 1 {
      OneWord(w[0], max);
    } else {
      WordsOfJoin(w[1..], max - 1);
      JoinedWords(w[0], w[1..], max);
      HeadAndTail(w);
    }
  }

  lemma JoinedWords(first: string, rest: seq<string>, max: nat)
    requires NoComma(first) && rest != [] && max > 0 && Words(Join(rest), max - 1) == rest
    ensures Words(Join([first] + rest), max) == [first] + rest
  {
    hide Words;
    var w := [first] + rest;
    assert w[1..] == rest;
    WordsCons(first, Join(rest), max);
  }

  /** The digit a word starts with; of an empty word the comma behind it is read. */
  function SingleDigit(w: string): (d: nat)
    ensures d < 10
  {
    var c := if w == [] then ',' else w[0];
    (c as int - '0' as int) % 16 % 10
  }

  /** `strtol` in base ten, with the overflow of a 32-bit long. */
  function StrToInt(w: string): int {
    if w != [] && IsWhite(w[0]) then StrToInt(w[1..])
    else if w != [] && w[0] == '-' then Clamp(-Digits(w[1..], 0))
    else if w != [] && w[0] == '+' then Clamp(Digits(w[1..], 0))
    else Clamp(Digits(w, 0))
  }

  predicate IsWhite(c: char) {
    c == ' ' || '\t' <= c <= '\r'
  }

  function Digits(w: string, acc: int): int
    requires acc >= 0
    decreases |w|
  {
    if w != [] && '0' <= w[0] <= '9' then Digits(w[1..], 10 * acc + (w[0] as int - '0' as int)) else acc
  }

  function Clamp(v: int): int {
    if v < -0x8000_0000 then -0x8000_0000 else if v > 0x7fff_ffff then 0x7fff_ffff else v
  }

  /** The talker of an AIS sentence begins with A or B. */
  predicate IsAisTalker(w: string) {
    |w| > 2 && var c := if w[0] == '!' || w[0] == '$' then w[1] else w[0]; c == 'A' || c == 'B'
  }
}

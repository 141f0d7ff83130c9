/** MD5 as web/md5.js computes it, against RFC 1321. A number of JavaScript stands here for the 32 bits its
    bitwise operators see. */
module Md5 {
  import opened Sequences

  type word = bv32

  // ----- words

  /** Addition modulo 2^32. */
  function Plus(x: word, y: word): word {
    x + y
  }

  lemma BothBits(x: word, y: word)
    requires (x & 0x40000000) & (y & 0x40000000) != 0
    ensures ((x & 0x3FFFFFFF) + (y & 0x3FFFFFFF)) ^ 0x80000000 ^ (x & 0x80000000) ^ (y & 0x80000000) == x + y
  {
  }

  lemma OneBitCarry(x: word, y: word)
    requires (x & 0x40000000) & (y & 0x40000000) == 0 && (x & 0x40000000) | (y & 0x40000000) != 0
    requires ((x & 0x3FFFFFFF) + (y & 0x3FFFFFFF)) & 0x40000000 != 0
    ensures ((x & 0x3FFFFFFF) + (y & 0x3FFFFFFF)) ^ 0xC0000000 ^ (x & 0x80000000) ^ (y & 0x80000000) == x + y
  {
  }

  lemma OneBit(x: word, y: word)
    requires (x & 0x40000000) & (y & 0x40000000) == 0 && (x & 0x40000000) | (y & 0x40000000) != 0
    requires ((x & 0x3FFFFFFF) + (y & 0x3FFFFFFF)) & 0x40000000 == 0
    ensures ((x & 0x3FFFFFFF) + (y & 0x3FFFFFFF)) ^ 0x40000000 ^ (x & 0x80000000) ^ (y & 0x80000000) == x + y
  {
  }

  lemma NoBit(x: word, y: word)
    requires (x & 0x40000000) & (y & 0x40000000) == 0 &&  (x & 0x40000000) | (y & 0x40000000) == 0
    ensures ((x & 0x3FFFFFFF) + (y & 0x3FFFFFFF)) ^ (x & 0x80000000) ^ (y & 0x80000000) == x + y
  {
  }

  /** Addition in a language without unsigned words: the sum of the low 30 bits cannot overflow, the two bits
      above are put in afterwards. */
  method AddUnsigned(lX: word, lY: word) returns (r: word)
    ensures r == lX + lY
  {
    var lX8 := lX & 0x80000000;
    var lY8 := lY & 0x80000000;
    var lX4 := lX & 0x40000000;
    var lY4 := lY & 0x40000000;
    var lResult := (lX & 0x3FFFFFFF) + (lY & 0x3FFFFFFF);
    if lX4 & lY4 != 0 {
      BothBits(lX, lY);
      return lResult ^ 0x80000000 ^ lX8 ^ lY8;
    }
    if lX4 | lY4 != 0 {
      if lResult & 0x40000000 != 0 {
        OneBitCarry(lX, lY);
        return lResult ^ 0xC0000000 ^ lX8 ^ lY8;
      } else {
        OneBit(lX, lY);
        return lResult ^ 0x40000000 ^ lX8 ^ lY8;
      }
    } else {
      NoBit(lX, lY);
      return lResult ^ lX8 ^ lY8;
    }
  }

  method RotateLeft(lValue: word, iShiftBits: nat) returns (r: word)
    requires 0 < iShiftBits < 32
    ensures r == lValue.RotateLeft(iShiftBits)
  {
    r := (lValue << iShiftBits) | (lValue >> (32 - iShiftBits));
  }

  function F(x: word, y: word, z: word): word { (x & y) | (!x & z) }
  function G(x: word, y: word, z: word): word { (x & z) | (y & !z) }
  function H(x: word, y: word, z: word): word { x ^ y ^ z }
  function I(x: word, y: word, z: word): word { y ^ (x | !z) }

  // ----- section 3.4 of RFC 1321

  datatype Registers = Registers(a: word, b: word, c: word, d: word)

  /** The integer part of 2^32 times |sin(i + 1)|. */
  function Sine(i: nat): word {
    if i < 16 then Sine1(i) else if i < 32 then Sine2(i) else if i < 48 then Sine3(i) else Sine4(i)
  }

  function Sine1(i: nat): word {
    match i
    case 0 => 0xD76AA478 case 1 => 0xE8C7B756 case 2 => 0x242070DB case 3 => 0xC1BDCEEE
    case 4 => 0xF57C0FAF case 5 => 0x4787C62A case 6 => 0xA8304613 case 7 => 0xFD469501
    case 8 => 0x698098D8 case 9 => 0x8B44F7AF case 10 => 0xFFFF5BB1 case 11 => 0x895CD7BE
    case 12 => 0x6B901122 case 13 => 0xFD987193 case 14 => 0xA679438E case 15 => 0x49B40821
    case _ => 0
  }

  function Sine2(i: nat): word {
    match i
    case 16 => 0xF61E2562 case 17 => 0xC040B340 case 18 => 0x265E5A51 case 19 => 0xE9B6C7AA
    case 20 => 0xD62F105D case 21 => 0x02441453 case 22 => 0xD8A1E681 case 23 => 0xE7D3FBC8
    case 24 => 0x21E1CDE6 case 25 => 0xC33707D6 case 26 => 0xF4D50D87 case 27 => 0x455A14ED
    case 28 => 0xA9E3E905 case 29 => 0xFCEFA3F8 case 30 => 0x676F02D9 case 31 => 0x8D2A4C8A
    case _ => 0
  }

  function Sine3(i: nat): word {
    match i
    case 32 => 0xFFFA3942 case 33 => 0x8771F681 case 34 => 0x6D9D6122 case 35 => 0xFDE5380C
    case 36 => 0xA4BEEA44 case 37 => 0x4BDECFA9 case 38 => 0xF6BB4B60 case 39 => 0xBEBFBC70
    case 40 => 0x289B7EC6 case 41 => 0xEAA127FA case 42 => 0xD4EF3085 case 43 => 0x04881D05
    case 44 => 0xD9D4D039 case 45 => 0xE6DB99E5 case 46 => 0x1FA27CF8 case 47 => 0xC4AC5665
    case _ => 0
  }

  function Sine4(i: nat): word {
    match i
    case 48 => 0xF4292244 case 49 => 0x432AFF97 case 50 => 0xAB9423A7 case 51 => 0xFC93A039
    case 52 => 0x655B59C3 case 53 => 0x8F0CCC92 case 54 => 0xFFEFF47D case 55 => 0x85845DD1
    case 56 => 0x6FA87E4F case 57 => 0xFE2CE6E0 case 58 => 0xA3014314 case 59 => 0x4E0811A1
    case 60 => 0xF7537E82 case 61 => 0xBD3AF235 case 62 => 0x2AD7D2BB case 63 => 0xEB86D391
    case _ => 0
  }

  function Auxiliary(i: nat, x: word, y: word, z: word): word {
    if i < 16 then F(x, y, z) else if i < 32 then G(x, y, z) else if i < 48 then H(x, y, z) else I(x, y, z)
  }

  /** Which word of the block operation `i` takes. */
  function WordIndex(i: nat): (k: nat)
    ensures k < 16
  {
    (if i < 16 then i else if i < 32 then 1 + 5 * i else if i < 48 then 5 + 3 * i else 7 * i) % 16
  }

  function ShiftOf(i: nat): (s: nat)
    ensures 0 < s < 32
  {
    match (i / 16, i % 4)
    case (0, 0) => 7 case (0, 1) => 12 case (0, 2) => 17 case (0, 3) => 22
    case (1, 0) => 5 case (1, 1) => 9 case (1, 2) => 14 case (1, 3) => 20
    case (2, 0) => 4 case (2, 1) => 11 case (2, 2) => 16 case (2, 3) => 23
    case (3, 0) => 6 case (3, 1) => 10 case (3, 2) => 15 case _ => 21
  }

  function Rotated(x: word, s: nat): word
    requires 0 < s < 32
  {
    x.RotateLeft(s)
  }

  /** b + ((a + auxiliary + X[k] + T[i]) <<< s) */
  function NewValue(auxiliary: word, a: word, b: word, x: word, t: word, s: nat): word
    requires 0 < s < 32
  {
    Plus(Rotated(Plus(a, Plus(Plus(auxiliary, x), t)), s), b)
  }

  /** One operation; the register that gets the new value is the second one of the next operation. */
  function Operation(r: Registers, x: seq<word>, i: nat): Registers
    requires |x| == 16 && i < 64
  {
    Registers(r.d, NewValue(Auxiliary(i, r.b, r.c, r.d), r.a, r.b, x[WordIndex(i)], Sine(i), ShiftOf(i)), r.b, r.c)
  }

  function Operations(r: Registers, x: seq<word>, n: nat): Registers
    requires |x| == 16 && n <= 64
    decreases n, r, x
  {
    if n == 0 then r else Operation(Operations(r, x, n - 1), x, n - 1)
  }

  function Block(r: Registers, x: seq<word>): Registers
    requires |x| == 16
  {
    var r' := Operations(r, x, 64);
    Registers(Plus(r'.a, r.a), Plus(r'.b, r.b), Plus(r'.c, r.c), Plus(r'.d, r.d))
  }

  const START := Registers(0x67452301, 0xEFCDAB89, 0x98BADCFE, 0x10325476)

  /** The registers after the first `n` blocks. */
  function Digest(x: seq<word>, n: nat): Registers
    requires 16 * n <= |x|
  {
    if n == 0 then START else Block(Digest(x, n - 1), x[16 * (n - 1)..16 * n])
  }

  // ----- what an operation adds, bit by bit

  /** A word with a single one. */
  predicate SingleBit(m: word) {
    m != 0 && m & (m - 1) == 0
  }

  predicate Has(x: word, m: word) {
    x & m != 0
  }

  /** Sections 3.4 and 2 of RFC 1321 for one bit of the three registers: in the first round the first one chooses
      between the others, in the second the third one does; in the third round it is their parity. */
  predicate RoundBit(i: nat, x: bool, y: bool, z: bool) {
    if i < 16 then (if x then y else z)
    else if i < 32 then (if z then x else y)
    else if i < 48 then (x != y) != z
    else y != (x || !z)
  }

  lemma FirstBit(x: word, y: word, z: word, m: word)
    requires m != 0 && m & (m - 1) == 0
    ensures ((x & y) | (!x & z)) & m != 0 <==> if x & m != 0 then y & m != 0 else z & m != 0
  {
  }

  lemma SecondBit(x: word, y: word, z: word, m: word)
    requires m != 0 && m & (m - 1) == 0
    ensures ((x & z) | (y & !z)) & m != 0 <==> if z & m != 0 then x & m != 0 else y & m != 0
  {
  }

  lemma ThirdBit(x: word, y: word, z: word, m: word)
    requires m != 0 && m & (m - 1) == 0
    ensures (x ^ y ^ z) & m != 0 <==> ((x & m != 0) != (y & m != 0)) != (z & m != 0)
  {
  }

  lemma FourthBit(x: word, y: word, z: word, m: word)
    requires m != 0 && m & (m - 1) == 0
    ensures (y ^ (x | !z)) & m != 0 <==> (y & m != 0) != (x & m != 0 || !(z & m != 0))
  {
  }

  lemma FBit(x: word, y: word, z: word, m: word)
    requires SingleBit(m)
    ensures Has(F(x, y, z), m) <==> if Has(x, m) then Has(y, m) else Has(z, m)
  {
    FirstBit(x, y, z, m);
  }

  lemma GBit(x: word, y: word, z: word, m: word)
    requires SingleBit(m)
    ensures Has(G(x, y, z), m) <==> if Has(z, m) then Has(x, m) else Has(y, m)
  {
    SecondBit(x, y, z, m);
  }

  lemma HBit(x: word, y: word, z: word, m: word)
    requires SingleBit(m)
    ensures Has(H(x, y, z), m) <==> (Has(x, m) != Has(y, m)) != Has(z, m)
  {
    ThirdBit(x, y, z, m);
  }

  lemma IBit(x: word, y: word, z: word, m: word)
    requires SingleBit(m)
    ensures Has(I(x, y, z), m) <==> Has(y, m) != (Has(x, m) || !Has(z, m))
  {
    FourthBit(x, y, z, m);
  }

  lemma AuxiliaryBit(i: nat, x: word, y: word, z: word, m: word)
    requires SingleBit(m)
    ensures Has(Auxiliary(i, x, y, z), m) <==> RoundBit(i, Has(x, m), Has(y, m), Has(z, m))
  {
    hide F, G, H, I, Has, SingleBit;
    FBit(x, y, z, m);
    GBit(x, y, z, m);
    HBit(x, y, z, m);
    IBit(x, y, z, m);
  }

  function Difference(f: word, g: word): word {
    f ^ g
  }

  /** The lowest bit of a word. */
  function Lowest(d: word): word {
    d & (0 - d)
  }

  lemma LowestBit(d: word)
    requires d != 0
    ensures SingleBit(Lowest(d)) && Has(d, Lowest(d))
  {
    LowestIsBit(d, d & (0 - d));
  }

  lemma LowestIsBit(d: word, m: word)
    requires d != 0 && m == d & (0 - d)
    ensures m != 0 && m & (m - 1) == 0 && d & m != 0
  {
  }

  lemma BitOfDifference(f: word, g: word, m: word)
    requires Has(Difference(f, g), m)
    ensures f & m != g & m
  {
    Distributes(f, g, m);
  }

  lemma Distributes(f: word, g: word, m: word)
    ensures (f ^ g) & m == (f & m) ^ (g & m)
    ensures f & m == g & m ==> (f & m) ^ (g & m) == 0
  {
  }

  lemma Masked(f: word, m: word)
    requires SingleBit(m)
    ensures Has(f, m) ==> f & m == m
    ensures !Has(f, m) ==> f & m == 0
  {
    MaskedBit(f, m);
  }

  lemma MaskedBit(f: word, m: word)
    requires m & (m - 1) == 0
    ensures f & m == 0 || f & m == m
  {
  }

  lemma NoDifference(f: word, g: word)
    requires Difference(f, g) == 0
    ensures f == g
  {
  }

  /** A word is its bits. */
  lemma SameBits(f: word, g: word)
    requires forall m: word | SingleBit(m) :: Has(f, m) <==> Has(g, m)
    ensures f == g
  {
    hide SingleBit, Has, Difference, Lowest;
    if Difference(f, g) == 0 {
      NoDifference(f, g);
    } else {
      var m := Lowest(Difference(f, g));
      LowestBit(Difference(f, g));
      BitOfDifference(f, g, m);
      Masked(f, m);
      Masked(g, m);
    }
  }

  /** One operation: the new value is b + ((a + f + X[k] + T[i]) <<< s), where `f` is the word with the bits of the
      round, and the registers change places. */
  lemma OperationMeans(r: Registers, x: seq<word>, i: nat, f: word)
    requires |x| == 16 && i < 64
    requires forall m: word | SingleBit(m) :: Has(f, m) <==> RoundBit(i, Has(r.b, m), Has(r.c, m), Has(r.d, m))
    ensures var sum := Plus(r.a, Plus(Plus(f, x[WordIndex(i)]), Sine(i)));
            Operation(r, x, i) == Registers(r.d, Plus(Rotated(sum, ShiftOf(i)), r.b), r.b, r.c)
  {
    hide WordIndex, Sine, ShiftOf, RoundBit, SingleBit, Has, Auxiliary, Plus, Rotated;
    var g := Auxiliary(i, r.b, r.c, r.d);
    forall m: word | SingleBit(m)
      ensures Has(f, m) <==> Has(g, m)
    {
      AuxiliaryBit(i, r.b, r.c, r.d, m);
    }
    SameBits(f, g);
  }

  /** The registers start with the bytes 01 23 45 67 89 AB CD EF FE DC BA 98 76 54 32 10, low-order byte first. */
  lemma StartBytes()
    ensures START == Registers(WordOf(0x01, 0x23, 0x45, 0x67), WordOf(0x89, 0xAB, 0xCD, 0xEF),
                               WordOf(0xFE, 0xDC, 0xBA, 0x98), WordOf(0x76, 0x54, 0x32, 0x10))
  {
    hide WordOf;
    StartA();
    StartB();
    StartC();
    StartD();
  }

  lemma StartA()
    ensures WordOf(0x01, 0x23, 0x45, 0x67) == 0x67452301
  {
  }

  lemma StartB()
    ensures WordOf(0x89, 0xAB, 0xCD, 0xEF) == 0xEFCDAB89
  {
  }

  lemma StartC()
    ensures WordOf(0xFE, 0xDC, 0xBA, 0x98) == 0x98BADCFE
  {
  }

  lemma StartD()
    ensures WordOf(0x76, 0x54, 0x32, 0x10) == 0x10325476
  {
  }

  /** A block adds what its 64 operations make of the registers to what they were. */
  lemma BlockMeans(r: Registers, x: seq<word>, s: Registers)
    requires |x| == 16 && Operations(r, x, 64) == s
    ensures Block(r, x).a == Plus(s.a, r.a) && Block(r, x).b == Plus(s.b, r.b)
    ensures Block(r, x).c == Plus(s.c, r.c) && Block(r, x).d == Plus(s.d, r.d)
  {
    hide Operations, Plus;
  }

  // ----- the unrolled operations

  method Sum(x: word, y: word) returns (r: word)
    ensures r == Plus(x, y)
  {
    r := AddUnsigned(x, y);
  }

  method Rotate(x: word, s: nat) returns (r: word)
    requires 0 < s < 32
    ensures r == Rotated(x, s)
  {
    r := RotateLeft(x, s);
  }

  /** The body that FF, GG, HH and II share. */
  method Combine(f: word, a: word, b: word, x: word, s: nat, ac: word) returns (r: word)
    requires 0 < s < 32
    ensures r == NewValue(f, a, b, x, ac, s)
  {
    hide Plus, Rotated;
    var t := Sum(f, x);
    t := Sum(t, ac);
    t := Sum(a, t);
    t := Rotate(t, s);
    r := Sum(t, b);
  }

  method FF(a: word, b: word, c: word, d: word, x: word, s: nat, ac: word) returns (r: word)
    requires 0 < s < 32
    ensures r == NewValue(F(b, c, d), a, b, x, ac, s)
  {
    r := Combine(F(b, c, d), a, b, x, s, ac);
  }

  method GG(a: word, b: word, c: word, d: word, x: word, s: nat, ac: word) returns (r: word)
    requires 0 < s < 32
    ensures r == NewValue(G(b, c, d), a, b, x, ac, s)
  {
    r := Combine(G(b, c, d), a, b, x, s, ac);
  }

  method HH(a: word, b: word, c: word, d: word, x: word, s: nat, ac: word) returns (r: word)
    requires 0 < s < 32
    ensures r == NewValue(H(b, c, d), a, b, x, ac, s)
  {
    r := Combine(H(b, c, d), a, b, x, s, ac);
  }

  method II(a: word, b: word, c: word, d: word, x: word, s: nat, ac: word) returns (r: word)
    requires 0 < s < 32
    ensures r == NewValue(I(b, c, d), a, b, x, ac, s)
  {
    r := Combine(I(b, c, d), a, b, x, s, ac);
  }

  // ----- four operations in a row

  /** The new value of operation `i`. */
  function ValueOf(i: nat, a: word, b: word, c: word, d: word, x: seq<word>): word
    requires |x| == 16 && i < 64
  {
    NewValue(Auxiliary(i, b, c, d), a, b, x[WordIndex(i)], Sine(i), ShiftOf(i))
  }

  /** After four operations every register has a new value and they are in their places again. */
  lemma FourOperations(r: Registers, x: seq<word>, i: nat, s: Registers)
    requires |x| == 16 && i + 4 <= 64 && Operations(r, x, i) == s
    ensures var a := ValueOf(i, s.a, s.b, s.c, s.d, x);
            var d := ValueOf(i + 1, s.d, a, s.b, s.c, x);
            var c := ValueOf(i + 2, s.c, d, a, s.b, x);
            var b := ValueOf(i + 3, s.b, c, d, a, x);
            Operations(r, x, i + 4) == Registers(a, b, c, d)
  {
    hide NewValue, Auxiliary, WordIndex, Sine, ShiftOf;
    assert Operations(r, x, i + 1) == Operation(s, x, i);
    assert Operations(r, x, i + 2) == Operation(Operations(r, x, i + 1), x, i + 1);
    assert Operations(r, x, i + 3) == Operation(Operations(r, x, i + 2), x, i + 2);
    assert Operations(r, x, i + 4) == Operation(Operations(r, x, i + 3), x, i + 3);
  }

  lemma Table1()
    ensures WordIndex(0) == 0 && WordIndex(1) == 1 && WordIndex(2) == 2 && WordIndex(3) == 3
    ensures ShiftOf(0) == 7 && ShiftOf(1) == 12 && ShiftOf(2) == 17 && ShiftOf(3) == 22
    ensures WordIndex(4) == 4 && WordIndex(5) == 5 && WordIndex(6) == 6 && WordIndex(7) == 7
    ensures ShiftOf(4) == 7 && ShiftOf(5) == 12 && ShiftOf(6) == 17 && ShiftOf(7) == 22
    ensures WordIndex(8) == 8 && WordIndex(9) == 9 && WordIndex(10) == 10 && WordIndex(11) == 11
    ensures ShiftOf(8) == 7 && ShiftOf(9) == 12 && ShiftOf(10) == 17 && ShiftOf(11) == 22
    ensures WordIndex(12) == 12 && WordIndex(13) == 13 && WordIndex(14) == 14 && WordIndex(15) == 15
    ensures ShiftOf(12) == 7 && ShiftOf(13) == 12 && ShiftOf(14) == 17 && ShiftOf(15) == 22
  {
  }

  lemma Sines1()
    ensures Sine(0) == 0xD76AA478 && Sine(1) == 0xE8C7B756 && Sine(2) == 0x242070DB && Sine(3) == 0xC1BDCEEE
    ensures Sine(4) == 0xF57C0FAF && Sine(5) == 0x4787C62A && Sine(6) == 0xA8304613 && Sine(7) == 0xFD469501
    ensures Sine(8) == 0x698098D8 && Sine(9) == 0x8B44F7AF && Sine(10) == 0xFFFF5BB1 && Sine(11) == 0x895CD7BE
    ensures Sine(12) == 0x6B901122 && Sine(13) == 0xFD987193 && Sine(14) == 0xA679438E && Sine(15) == 0x49B40821
  {
  }

  lemma Table2()
    ensures WordIndex(16) == 1 && WordIndex(17) == 6 && WordIndex(18) == 11 && WordIndex(19) == 0
    ensures ShiftOf(16) == 5 && ShiftOf(17) == 9 && ShiftOf(18) == 14 && ShiftOf(19) == 20
    ensures WordIndex(20) == 5 && WordIndex(21) == 10 && WordIndex(22) == 15 && WordIndex(23) == 4
    ensures ShiftOf(20) == 5 && ShiftOf(21) == 9 && ShiftOf(22) == 14 && ShiftOf(23) == 20
    ensures WordIndex(24) == 9 && WordIndex(25) == 14 && WordIndex(26) == 3 && WordIndex(27) == 8
    ensures ShiftOf(24) == 5 && ShiftOf(25) == 9 && ShiftOf(26) == 14 && ShiftOf(27) == 20
    ensures WordIndex(28) == 13 && WordIndex(29) == 2 && WordIndex(30) == 7 && WordIndex(31) == 12
    ensures ShiftOf(28) == 5 && ShiftOf(29) == 9 && ShiftOf(30) == 14 && ShiftOf(31) == 20
  {
  }

  lemma Sines2()
    ensures Sine(16) == 0xF61E2562 && Sine(17) == 0xC040B340 && Sine(18) == 0x265E5A51 && Sine(19) == 0xE9B6C7AA
    ensures Sine(20) == 0xD62F105D && Sine(21) == 0x02441453 && Sine(22) == 0xD8A1E681 && Sine(23) == 0xE7D3FBC8
    ensures Sine(24) == 0x21E1CDE6 && Sine(25) == 0xC33707D6 && Sine(26) == 0xF4D50D87 && Sine(27) == 0x455A14ED
    ensures Sine(28) == 0xA9E3E905 && Sine(29) == 0xFCEFA3F8 && Sine(30) == 0x676F02D9 && Sine(31) == 0x8D2A4C8A
  {
  }

  lemma Table3()
    ensures WordIndex(32) == 5 && WordIndex(33) == 8 && WordIndex(34) == 11 && WordIndex(35) == 14
    ensures ShiftOf(32) == 4 && ShiftOf(33) == 11 && ShiftOf(34) == 16 && ShiftOf(35) == 23
    ensures WordIndex(36) == 1 && WordIndex(37) == 4 && WordIndex(38) == 7 && WordIndex(39) == 10
    ensures ShiftOf(36) == 4 && ShiftOf(37) == 11 && ShiftOf(38) == 16 && ShiftOf(39) == 23
    ensures WordIndex(40) == 13 && WordIndex(41) == 0 && WordIndex(42) == 3 && WordIndex(43) == 6
    ensures ShiftOf(40) == 4 && ShiftOf(41) == 11 && ShiftOf(42) == 16 && ShiftOf(43) == 23
    ensures WordIndex(44) == 9 && WordIndex(45) == 12 && WordIndex(46) == 15 && WordIndex(47) == 2
    ensures ShiftOf(44) == 4 && ShiftOf(45) == 11 && ShiftOf(46) == 16 && ShiftOf(47) == 23
  {
  }

  lemma Sines3()
    ensures Sine(32) == 0xFFFA3942 && Sine(33) == 0x8771F681 && Sine(34) == 0x6D9D6122 && Sine(35) == 0xFDE5380C
    ensures Sine(36) == 0xA4BEEA44 && Sine(37) == 0x4BDECFA9 && Sine(38) == 0xF6BB4B60 && Sine(39) == 0xBEBFBC70
    ensures Sine(40) == 0x289B7EC6 && Sine(41) == 0xEAA127FA && Sine(42) == 0xD4EF3085 && Sine(43) == 0x04881D05
    ensures Sine(44) == 0xD9D4D039 && Sine(45) == 0xE6DB99E5 && Sine(46) == 0x1FA27CF8 && Sine(47) == 0xC4AC5665
  {
  }

  lemma Table4()
    ensures WordIndex(48) == 0 && WordIndex(49) == 7 && WordIndex(50) == 14 && WordIndex(51) == 5
    ensures ShiftOf(48) == 6 && ShiftOf(49) == 10 && ShiftOf(50) == 15 && ShiftOf(51) == 21
    ensures WordIndex(52) == 12 && WordIndex(53) == 3 && WordIndex(54) == 10 && WordIndex(55) == 1
    ensures ShiftOf(52) == 6 && ShiftOf(53) == 10 && ShiftOf(54) == 15 && ShiftOf(55) == 21
    ensures WordIndex(56) == 8 && WordIndex(57) == 15 && WordIndex(58) == 6 && WordIndex(59) == 13
    ensures ShiftOf(56) == 6 && ShiftOf(57) == 10 && ShiftOf(58) == 15 && ShiftOf(59) == 21
    ensures WordIndex(60) == 4 && WordIndex(61) == 11 && WordIndex(62) == 2 && WordIndex(63) == 9
    ensures ShiftOf(60) == 6 && ShiftOf(61) == 10 && ShiftOf(62) == 15 && ShiftOf(63) == 21
  {
  }

  lemma Sines4()
    ensures Sine(48) == 0xF4292244 && Sine(49) == 0x432AFF97 && Sine(50) == 0xAB9423A7 && Sine(51) == 0xFC93A039
    ensures Sine(52) == 0x655B59C3 && Sine(53) == 0x8F0CCC92 && Sine(54) == 0xFFEFF47D && Sine(55) == 0x85845DD1
    ensures Sine(56) == 0x6FA87E4F && Sine(57) == 0xFE2CE6E0 && Sine(58) == 0xA3014314 && Sine(59) == 0x4E0811A1
    ensures Sine(60) == 0xF7537E82 && Sine(61) == 0xBD3AF235 && Sine(62) == 0x2AD7D2BB && Sine(63) == 0xEB86D391
  {
  }

  method Round1(x: array<word>, k: nat, a0: word, b0: word, c0: word, d0: word, ghost r: Registers)
      returns (a: word, b: word, c: word, d: word)
    requires k + 16 <= x.Length && Operations(r, x[k..k + 16], 0) == Registers(a0, b0, c0, d0)
    ensures Operations(r, x[k..k + 16], 16) == Registers(a, b, c, d)
  {
    hide Operations, NewValue, WordIndex, ShiftOf, Sine, F, G, H, I;
    Table1();
    Sines1();
    ghost var block := x[k..k + 16];
    a, b, c, d := a0, b0, c0, d0;
    FourOperations(r, block, 0, Registers(a, b, c, d));
    a := FF(a, b, c, d, x[k + 0], 7, 0xD76AA478);
    d := FF(d, a, b, c, x[k + 1], 12, 0xE8C7B756);
    c := FF(c, d, a, b, x[k + 2], 17, 0x242070DB);
    b := FF(b, c, d, a, x[k + 3], 22, 0xC1BDCEEE);
    FourOperations(r, block, 4, Registers(a, b, c, d));
    a := FF(a, b, c, d, x[k + 4], 7, 0xF57C0FAF);
    d := FF(d, a, b, c, x[k + 5], 12, 0x4787C62A);
    c := FF(c, d, a, b, x[k + 6], 17, 0xA8304613);
    b := FF(b, c, d, a, x[k + 7], 22, 0xFD469501);
    FourOperations(r, block, 8, Registers(a, b, c, d));
    a := FF(a, b, c, d, x[k + 8], 7, 0x698098D8);
    d := FF(d, a, b, c, x[k + 9], 12, 0x8B44F7AF);
    c := FF(c, d, a, b, x[k + 10], 17, 0xFFFF5BB1);
    b := FF(b, c, d, a, x[k + 11], 22, 0x895CD7BE);
    FourOperations(r, block, 12, Registers(a, b, c, d));
    a := FF(a, b, c, d, x[k + 12], 7, 0x6B901122);
    d := FF(d, a, b, c, x[k + 13], 12, 0xFD987193);
    c := FF(c, d, a, b, x[k + 14], 17, 0xA679438E);
    b := FF(b, c, d, a, x[k + 15], 22, 0x49B40821);
  }

  method Round2(x: array<word>, k: nat, a0: word, b0: word, c0: word, d0: word, ghost r: Registers)
      returns (a: word, b: word, c: word, d: word)
    requires k + 16 <= x.Length && Operations(r, x[k..k + 16], 16) == Registers(a0, b0, c0, d0)
    ensures Operations(r, x[k..k + 16], 32) == Registers(a, b, c, d)
  {
    hide Operations, NewValue, WordIndex, ShiftOf, Sine, F, G, H, I;
    Table2();
    Sines2();
    ghost var block := x[k..k + 16];
    a, b, c, d := a0, b0, c0, d0;
    FourOperations(r, block, 16, Registers(a, b, c, d));
    a := GG(a, b, c, d, x[k + 1], 5, 0xF61E2562);
    d := GG(d, a, b, c, x[k + 6], 9, 0xC040B340);
    c := GG(c, d, a, b, x[k + 11], 14, 0x265E5A51);
    b := GG(b, c, d, a, x[k + 0], 20, 0xE9B6C7AA);
    FourOperations(r, block, 20, Registers(a, b, c, d));
    a := GG(a, b, c, d, x[k + 5], 5, 0xD62F105D);
    d := GG(d, a, b, c, x[k + 10], 9, 0x02441453);
    c := GG(c, d, a, b, x[k + 15], 14, 0xD8A1E681);
    b := GG(b, c, d, a, x[k + 4], 20, 0xE7D3FBC8);
    FourOperations(r, block, 24, Registers(a, b, c, d));
    a := GG(a, b, c, d, x[k + 9], 5, 0x21E1CDE6);
    d := GG(d, a, b, c, x[k + 14], 9, 0xC33707D6);
    c := GG(c, d, a, b, x[k + 3], 14, 0xF4D50D87);
    b := GG(b, c, d, a, x[k + 8], 20, 0x455A14ED);
    FourOperations(r, block, 28, Registers(a, b, c, d));
    a := GG(a, b, c, d, x[k + 13], 5, 0xA9E3E905);
    d := GG(d, a, b, c, x[k + 2], 9, 0xFCEFA3F8);
    c := GG(c, d, a, b, x[k + 7], 14, 0x676F02D9);
    b := GG(b, c, d, a, x[k + 12], 20, 0x8D2A4C8A);
  }

  method Round3(x: array<word>, k: nat, a0: word, b0: word, c0: word, d0: word, ghost r: Registers)
      returns (a: word, b: word, c: word, d: word)
    requires k + 16 <= x.Length && Operations(r, x[k..k + 16], 32) == Registers(a0, b0, c0, d0)
    ensures Operations(r, x[k..k + 16], 48) == Registers(a, b, c, d)
  {
    hide Operations, NewValue, WordIndex, ShiftOf, Sine, F, G, H, I;
    Table3();
    Sines3();
    ghost var block := x[k..k + 16];
    a, b, c, d := a0, b0, c0, d0;
    FourOperations(r, block, 32, Registers(a, b, c, d));
    a := HH(a, b, c, d, x[k + 5], 4, 0xFFFA3942);
    d := HH(d, a, b, c, x[k + 8], 11, 0x8771F681);
    c := HH(c, d, a, b, x[k + 11], 16, 0x6D9D6122);
    b := HH(b, c, d, a, x[k + 14], 23, 0xFDE5380C);
    FourOperations(r, block, 36, Registers(a, b, c, d));
    a := HH(a, b, c, d, x[k + 1], 4, 0xA4BEEA44);
    d := HH(d, a, b, c, x[k + 4], 11, 0x4BDECFA9);
    c := HH(c, d, a, b, x[k + 7], 16, 0xF6BB4B60);
    b := HH(b, c, d, a, x[k + 10], 23, 0xBEBFBC70);
    FourOperations(r, block, 40, Registers(a, b, c, d));
    a := HH(a, b, c, d, x[k + 13], 4, 0x289B7EC6);
    d := HH(d, a, b, c, x[k + 0], 11, 0xEAA127FA);
    c := HH(c, d, a, b, x[k + 3], 16, 0xD4EF3085);
    b := HH(b, c, d, a, x[k + 6], 23, 0x04881D05);
    FourOperations(r, block, 44, Registers(a, b, c, d));
    a := HH(a, b, c, d, x[k + 9], 4, 0xD9D4D039);
    d := HH(d, a, b, c, x[k + 12], 11, 0xE6DB99E5);
    c := HH(c, d, a, b, x[k + 15], 16, 0x1FA27CF8);
    b := HH(b, c, d, a, x[k + 2], 23, 0xC4AC5665);
  }

  method Round4(x: array<word>, k: nat, a0: word, b0: word, c0: word, d0: word, ghost r: Registers)
      returns (a: word, b: word, c: word, d: word)
    requires k + 16 <= x.Length && Operations(r, x[k..k + 16], 48) == Registers(a0, b0, c0, d0)
    ensures Operations(r, x[k..k + 16], 64) == Registers(a, b, c, d)
  {
    hide Operations, NewValue, WordIndex, ShiftOf, Sine, F, G, H, I;
    Table4();
    Sines4();
    ghost var block := x[k..k + 16];
    a, b, c, d := a0, b0, c0, d0;
    FourOperations(r, block, 48, Registers(a, b, c, d));
    a := II(a, b, c, d, x[k + 0], 6, 0xF4292244);
    d := II(d, a, b, c, x[k + 7], 10, 0x432AFF97);
    c := II(c, d, a, b, x[k + 14], 15, 0xAB9423A7);
    b := II(b, c, d, a, x[k + 5], 21, 0xFC93A039);
    FourOperations(r, block, 52, Registers(a, b, c, d));
    a := II(a, b, c, d, x[k + 12], 6, 0x655B59C3);
    d := II(d, a, b, c, x[k + 3], 10, 0x8F0CCC92);
    c := II(c, d, a, b, x[k + 10], 15, 0xFFEFF47D);
    b := II(b, c, d, a, x[k + 1], 21, 0x85845DD1);
    FourOperations(r, block, 56, Registers(a, b, c, d));
    a := II(a, b, c, d, x[k + 8], 6, 0x6FA87E4F);
    d := II(d, a, b, c, x[k + 15], 10, 0xFE2CE6E0);
    c := II(c, d, a, b, x[k + 6], 15, 0xA3014314);
    b := II(b, c, d, a, x[k + 13], 21, 0x4E0811A1);
    FourOperations(r, block, 60, Registers(a, b, c, d));
    a := II(a, b, c, d, x[k + 4], 6, 0xF7537E82);
    d := II(d, a, b, c, x[k + 11], 10, 0xBD3AF235);
    c := II(c, d, a, b, x[k + 2], 15, 0x2AD7D2BB);
    b := II(b, c, d, a, x[k + 9], 21, 0xEB86D391);
  }

  // ----- sections 3.1 and 3.2 of RFC 1321

  type octet = bv8

  /** How many zero bytes follow the first padding byte: the length becomes 56 modulo 64. */
  function ZeroCount(n: nat): (k: nat)
    ensures k < 64
  {
    63 - (n + 8) % 64
  }

  /** The least number that does it. */
  lemma ZeroCountIsLeast(n: nat, k: nat)
    ensures (n + 1 + ZeroCount(n)) % 64 == 56
    ensures (n + 1 + k) % 64 == 56 ==> k >= ZeroCount(n)
  {
  }

  function Zeros(n: nat): (z: seq<octet>)
    ensures |z| == n
  {
    seq(n, _ => 0)
  }

  /** A bit 1 and bits 0. */
  function Filled(m: seq<octet>): (f: seq<octet>)
    ensures |f| % 64 == 56 && |m| < |f| && |f| == |m| + 64 - (|m| + 8) % 64
  {
    ZeroCountIsLeast(|m|, 0);
    m + [0x80] + Zeros(ZeroCount(|m|))
  }

  function ShiftedIn(b: octet, k: nat): word
    requires k < 32
  {
    b as word << k
  }

  function Or(x: word, y: word): word {
    x | y
  }

  lemma OrZero(x: word)
    ensures Or(x, 0) == x && Or(0, x) == x
  {
  }

  lemma ShiftedZero()
    ensures ShiftedIn(0, 0) == 0 && ShiftedIn(0, 8) == 0 && ShiftedIn(0, 16) == 0 && ShiftedIn(0, 24) == 0
  {
  }

  /** Four bytes, the low-order one first. */
  function WordOf(b0: octet, b1: octet, b2: octet, b3: octet): word {
    Or(Or(Or(ShiftedIn(b0, 0), ShiftedIn(b1, 8)), ShiftedIn(b2, 16)), ShiftedIn(b3, 24))
  }

  function WordsOf(b: seq<octet>): (w: seq<word>)
    requires |b| % 4 == 0
    ensures |w| == |b| / 4
  {
    if b == [] then [] else [WordOf(b[0], b[1], b[2], b[3])] + WordsOf(b[4..])
  }

  /** The length of the message in bits as two words, the low-order one first. */
  function LowWord(n: nat): (w: nat)
    ensures w < 0x1_0000_0000
  {
    (8 * n) % 0x1_0000_0000
  }

  function HighWord(n: nat): (w: nat)
    ensures w < 0x1_0000_0000
  {
    8 * n / 0x1_0000_0000 % 0x1_0000_0000
  }

  function ToWord(n: nat): word
    requires n < 0x1_0000_0000
  {
    n as word
  }

  /** The program takes the length modulo 2^32 and shifts it down by 29 bits. */
  function HighWordAsWritten(n: nat): (w: nat)
    ensures w < 0x1_0000_0000
  {
    n % 0x1_0000_0000 / 0x2000_0000
  }

  /** No string is longer than 2^53 - 1; up to 2^32 - 1 the program gets its length right, and only up to there. */
  lemma HighWordRight(n: nat)
    requires n < 0x20_0000_0000_0000
    ensures HighWordAsWritten(n) == HighWord(n) <==> n < 0x1_0000_0000
  {
  }

  /** At 2^32 the program loses the bit that counts. */
  lemma HighWordWrong()
    ensures HighWord(0x1_0000_0000) == 8 && HighWordAsWritten(0x1_0000_0000) == 0
  {
  }

  function Padded(m: seq<octet>): (w: seq<word>)
    ensures |w| % 16 == 0
  {
    WholeBlocks(|Filled(m)|);
    WordsOf(Filled(m)) + [ToWord(LowWord(|m|)), ToWord(HighWord(|m|))]
  }

  lemma WholeBlocks(n: nat)
    requires n % 64 == 56
    ensures n % 4 == 0 && (n / 4 + 2) % 16 == 0
  {
  }

  /** The padded message byte by byte: the message, a byte 0x80 and zeros; then the length in bits, in two words. */
  lemma PaddedBytes(m: seq<octet>, i: nat)
    requires |m| < 0x2000_0000_0000_0000
    ensures var w := Padded(m);
            && |w| >= 2 && |w| % 16 == 0 && 4 * |w| < |m| + 9 + 64
            && (i < 4 * (|w| - 2) ==>
                  ByteOf(w[i / 4], 8 * (i % 4)) == if i < |m| then m[i] else if i == |m| then 0x80 else 0)
            && w[|w| - 2..] == [ToWord(LowWord(|m|)), ToWord(HighWord(|m|))]
            && LowWord(|m|) + 0x1_0000_0000 * HighWord(|m|) == 8 * |m|
  {
    hide WordOf, ByteOf, WordsOf, ToWord;
    var b, w := Filled(m), Padded(m);
    if i < |b| {
      WordsOfAt(b, i / 4);
      var j := 4 * (i / 4);
      BytesOfWord(b[j], b[j + 1], b[j + 2], b[j + 3]);
    }
  }

  // ----- padding is injective

  /** The byte at a place of a word. */
  function ByteOf(w: word, k: nat): octet
    requires k < 32
  {
    ((w >> k) & 0xFF) as octet
  }

  lemma ByteOfOr(x: word, y: word)
    ensures ByteOf(x, 0) == 0 ==> ByteOf(Or(x, y), 0) == ByteOf(y, 0)
    ensures ByteOf(y, 0) == 0 ==> ByteOf(Or(x, y), 0) == ByteOf(x, 0)
    ensures ByteOf(x, 8) == 0 ==> ByteOf(Or(x, y), 8) == ByteOf(y, 8)
    ensures ByteOf(y, 8) == 0 ==> ByteOf(Or(x, y), 8) == ByteOf(x, 8)
    ensures ByteOf(x, 16) == 0 ==> ByteOf(Or(x, y), 16) == ByteOf(y, 16)
    ensures ByteOf(y, 16) == 0 ==> ByteOf(Or(x, y), 16) == ByteOf(x, 16)
    ensures ByteOf(x, 24) == 0 ==> ByteOf(Or(x, y), 24) == ByteOf(y, 24)
    ensures ByteOf(y, 24) == 0 ==> ByteOf(Or(x, y), 24) == ByteOf(x, 24)
  {
  }

  lemma ByteOfShifted(b: octet)
    ensures ByteOf(ShiftedIn(b, 0), 0) == ByteOf(ShiftedIn(b, 8), 8) == b
    ensures ByteOf(ShiftedIn(b, 16), 16) == ByteOf(ShiftedIn(b, 24), 24) == b
    ensures ByteOf(ShiftedIn(b, 0), 8) == ByteOf(ShiftedIn(b, 0), 16) == ByteOf(ShiftedIn(b, 0), 24) == 0
    ensures ByteOf(ShiftedIn(b, 8), 0) == ByteOf(ShiftedIn(b, 8), 16) == ByteOf(ShiftedIn(b, 8), 24) == 0
    ensures ByteOf(ShiftedIn(b, 16), 0) == ByteOf(ShiftedIn(b, 16), 8) == ByteOf(ShiftedIn(b, 16), 24) == 0
    ensures ByteOf(ShiftedIn(b, 24), 0) == ByteOf(ShiftedIn(b, 24), 8) == ByteOf(ShiftedIn(b, 24), 16) == 0
  {
  }

  /** The bytes of a word are found again. */
  lemma BytesOfWord(b0: octet, b1: octet, b2: octet, b3: octet)
    ensures var w := WordOf(b0, b1, b2, b3);
            ByteOf(w, 0) == b0 && ByteOf(w, 8) == b1 && ByteOf(w, 16) == b2 && ByteOf(w, 24) == b3
  {
    hide ByteOf, Or, ShiftedIn;
    var two := Or(ShiftedIn(b0, 0), ShiftedIn(b1, 8));
    var three := Or(two, ShiftedIn(b2, 16));
    ByteOfShifted(b0);
    ByteOfShifted(b1);
    ByteOfShifted(b2);
    ByteOfShifted(b3);
    ByteOfOr(ShiftedIn(b0, 0), ShiftedIn(b1, 8));
    ByteOfOr(two, ShiftedIn(b2, 16));
    ByteOfOr(three, ShiftedIn(b3, 24));
  }

  lemma WordOfInjective(b0: octet, b1: octet, b2: octet, b3: octet, c0: octet, c1: octet, c2: octet, c3: octet)
    requires WordOf(b0, b1, b2, b3) == WordOf(c0, c1, c2, c3)
    ensures b0 == c0 && b1 == c1 && b2 == c2 && b3 == c3
  {
    hide WordOf, ByteOf;
    BytesOfWord(b0, b1, b2, b3);
    BytesOfWord(c0, c1, c2, c3);
  }

  lemma {:induction false} WordsOfInjective(b: seq<octet>, c: seq<octet>)
    requires |b| % 4 == 0 && |c| % 4 == 0 && WordsOf(b) == WordsOf(c)
    ensures b == c
    decreases |b|
  {
    hide WordOf;
    assert |b| == |c|;
    if b != [] {
      assert WordsOf(b)[0] == WordOf(b[0], b[1], b[2], b[3]) && WordsOf(c)[0] == WordOf(c[0], c[1], c[2], c[3]);
      WordOfInjective(b[0], b[1], b[2], b[3], c[0], c[1], c[2], c[3]);
      assert WordsOf(b)[1..] == WordsOf(b[4..]) && WordsOf(c)[1..] == WordsOf(c[4..]);
      WordsOfInjective(b[4..], c[4..]);
      assert b == [b[0], b[1], b[2], b[3]] + b[4..] && c == [c[0], c[1], c[2], c[3]] + c[4..];
    }
  }

  lemma FilledInjective(m: seq<octet>, n: seq<octet>)
    requires Filled(m) == Filled(n)
    ensures m == n
  {
    if |m| < |n| { LastBit(m, n); }
    if |n| < |m| { LastBit(n, m); }
    assert m == Filled(m)[..|m|] && n == Filled(n)[..|n|];
  }

  lemma LastBit(m: seq<octet>, n: seq<octet>)
    requires |m| < |n| <= |Filled(m)| - 1
    ensures Filled(m)[|n|] != Filled(n)[|n|]
  {
  }

  /** Different messages stay different. */
  lemma PaddedInjective(m: seq<octet>, n: seq<octet>)
    requires Padded(m) == Padded(n)
    ensures m == n
  {
    hide WordsOf, Filled, ToWord, LowWord, HighWord;
    var w, v := WordsOf(Filled(m)), WordsOf(Filled(n));
    assert w == Padded(m)[..|w|] && v == Padded(n)[..|v|];
    WordsOfInjective(Filled(m), Filled(n));
    FilledInjective(m, n);
  }

  // ----- the array of words

  /** Bytes behind the end count as zero. */
  function ByteAt(p: seq<octet>, i: nat): octet {
    if i < |p| then p[i] else 0
  }

  function WordAt(p: seq<octet>, w: nat): word {
    WordOf(ByteAt(p, 4 * w), ByteAt(p, 4 * w + 1), ByteAt(p, 4 * w + 2), ByteAt(p, 4 * w + 3))
  }

  lemma NoBytes()
    ensures WordOf(0, 0, 0, 0) == 0
  {
    hide Or, ShiftedIn;
    ShiftedZero();
    OrZero(0);
  }

  /** Or-ing in a byte where there is none yet. */
  lemma PutByte(b0: octet, b1: octet, b2: octet, b: octet)
    ensures Or(WordOf(0, 0, 0, 0), ShiftedIn(b, 0)) == WordOf(b, 0, 0, 0)
    ensures Or(WordOf(b0, 0, 0, 0), ShiftedIn(b, 8)) == WordOf(b0, b, 0, 0)
    ensures Or(WordOf(b0, b1, 0, 0), ShiftedIn(b, 16)) == WordOf(b0, b1, b, 0)
    ensures Or(WordOf(b0, b1, b2, 0), ShiftedIn(b, 24)) == WordOf(b0, b1, b2, b)
  {
    hide Or, ShiftedIn;
    ShiftedZero();
    OrZero(0);
    OrZero(ShiftedIn(b, 0));
    OrZero(ShiftedIn(b0, 0));
    var two := Or(ShiftedIn(b0, 0), ShiftedIn(b1, 8));
    OrZero(two);
    OrZero(Or(ShiftedIn(b0, 0), ShiftedIn(b, 8)));
    OrZero(Or(two, ShiftedIn(b, 16)));
    OrZero(Or(two, ShiftedIn(b2, 16)));
  }

  lemma ByteNext(p: seq<octet>, b: octet, i: nat)
    ensures ByteAt(p + [b], i) == if i == |p| then b else ByteAt(p, i)
    ensures i >= |p| ==> ByteAt(p, i) == 0
  {
  }

  lemma NextByteIn(p: seq<octet>, b: octet, w: nat, j: nat)
    requires j < 4 && |p| == 4 * w + j
    ensures WordAt(p + [b], w) == Or(WordAt(p, w), ShiftedIn(b, 8 * j))
  {
    hide WordOf, Or, ShiftedIn, ByteAt;
    ByteNext(p, b, 4 * w);
    ByteNext(p, b, 4 * w + 1);
    ByteNext(p, b, 4 * w + 2);
    ByteNext(p, b, 4 * w + 3);
    PutByte(ByteAt(p, 4 * w), ByteAt(p, 4 * w + 1), ByteAt(p, 4 * w + 2), b);
  }

  lemma NextByteElsewhere(p: seq<octet>, b: octet, w: nat)
    requires |p| < 4 * w || |p| >= 4 * w + 4
    ensures WordAt(p + [b], w) == WordAt(p, w)
  {
    hide WordOf, ByteAt;
    ByteNext(p, b, 4 * w);
    ByteNext(p, b, 4 * w + 1);
    ByteNext(p, b, 4 * w + 2);
    ByteNext(p, b, 4 * w + 3);
  }

  /** The array holds the bytes so far. */
  ghost predicate HoldsBytes(x: array<word>, p: seq<octet>)
    reads x
  {
    forall w | 0 <= w < x.Length :: x[w] == WordAt(p, w)
  }

  method AddByte(x: array<word>, lByteCount: nat, b: octet, ghost p: seq<octet>)
    requires lByteCount == |p| && |p| < 4 * x.Length && HoldsBytes(x, p)
    modifies x
    ensures HoldsBytes(x, p + [b])
  {
    hide WordAt, Or, ShiftedIn;
    var lWordCount := (lByteCount - lByteCount % 4) / 4;
    var lBytePosition := lByteCount % 4 * 8;
    forall w | 0 <= w < x.Length
      ensures WordAt(p + [b], w) == if w == lWordCount then Or(WordAt(p, w), ShiftedIn(b, lBytePosition)) else WordAt(p, w)
    {
      if w == lWordCount { NextByteIn(p, b, w, |p| % 4); } else { NextByteElsewhere(p, b, w); }
    }
    x[lWordCount] := Or(x[lWordCount], ShiftedIn(b, lBytePosition));
  }

  method AddBytes(x: array<word>, m: seq<octet>)
    requires HoldsBytes(x, []) && |m| < 4 * x.Length
    modifies x
    ensures HoldsBytes(x, m)
  {
    hide HoldsBytes;
    var lByteCount := 0;
    assert m[..0] == [];
    while lByteCount < |m|
      invariant lByteCount <= |m| && HoldsBytes(x, m[..lByteCount])
    {
      AddByte(x, lByteCount, m[lByteCount], m[..lByteCount]);
      assert m[..lByteCount] + [m[lByteCount]] == m[..lByteCount + 1];
      lByteCount := lByteCount + 1;
    }
    assert m[..|m|] == m;
  }

  method NumberOfWords(lMessageLength: nat) returns (lNumberOfWords: nat)
    ensures lNumberOfWords % 16 == 0 && 4 * lNumberOfWords - 8 == lMessageLength + 64 - (lMessageLength + 8) % 64
  {
    var lNumberOfWords_temp1 := lMessageLength + 8;
    var lNumberOfWords_temp2 := (lNumberOfWords_temp1 - lNumberOfWords_temp1 % 64) / 64;
    lNumberOfWords := (lNumberOfWords_temp2 + 1) * 16;
  }

  method ConvertToWordArray(m: seq<octet>) returns (x: array<word>)
    ensures fresh(x) && x.Length % 16 == 0
    ensures x[..] == WordsOf(Filled(m)) + [ToWord(LowWord(|m|)), ToWord(HighWordAsWritten(|m|))]
  {
    hide HoldsBytes, WordsOf, Filled, ToWord, LowWord, HighWordAsWritten;
    var lNumberOfWords := NumberOfWords(|m|);
    x := new word[lNumberOfWords](_ => 0);
    EmptyWords(x);
    AddBytes(x, m);
    AddByte(x, |m|, 0x80, m);
    FilledWords(m, x, lNumberOfWords - 2);
    x[lNumberOfWords - 2] := ToWord(LowWord(|m|));
    x[lNumberOfWords - 1] := ToWord(HighWordAsWritten(|m|));
    assert x[..] == x[..lNumberOfWords - 2] + [x[lNumberOfWords - 2], x[lNumberOfWords - 1]];
  }

  lemma EmptyWords(x: array<word>)
    requires forall w | 0 <= w < x.Length :: x[w] == 0
    ensures HoldsBytes(x, [])
  {
    hide WordOf;
    NoBytes();
  }

  lemma FilledWords(m: seq<octet>, x: array<word>, n: nat)
    requires HoldsBytes(x, m + [0x80]) && 4 * n == |Filled(m)| && n <= x.Length
    ensures x[..n] == WordsOf(Filled(m))
  {
    hide WordAt, WordsOf;
    forall w | 0 <= w < n
      ensures x[w] == WordsOf(Filled(m))[w]
    {
      WordsOfAt(Filled(m), w);
      ZerosBehind(m, w);
    }
  }

  lemma ZerosBehind(m: seq<octet>, w: nat)
    ensures WordAt(m + [0x80], w) == WordAt(Filled(m), w)
  {
    hide WordOf;
  }

  lemma {:induction false} WordsOfAt(b: seq<octet>, w: nat)
    requires |b| % 4 == 0 && w < |b| / 4
    ensures WordsOf(b)[w] == WordAt(b, w)
    decreases w
  {
    hide WordOf;
    if w > 0 {
      WordsOfAt(b[4..], w - 1);
    }
  }

  // ----- the digest

  method Sums(a: word, b: word, c: word, d: word, r: Registers) returns (s: Registers)
    ensures s == Registers(Plus(a, r.a), Plus(b, r.b), Plus(c, r.c), Plus(d, r.d))
  {
    hide Plus;
    var sa := Sum(a, r.a);
    var sb := Sum(b, r.b);
    var sc := Sum(c, r.c);
    var sd := Sum(d, r.d);
    s := Registers(sa, sb, sc, sd);
  }

  /** The body of the loop over the blocks. */
  method HandleBlock(x: array<word>, k: nat, r: Registers) returns (s: Registers)
    requires k + 16 <= x.Length
    ensures s == Block(r, x[k..k + 16])
  {
    hide Operation, Plus;
    var a, b, c, d := r.a, r.b, r.c, r.d;
    a, b, c, d := Round1(x, k, a, b, c, d, r);
    a, b, c, d := Round2(x, k, a, b, c, d, r);
    a, b, c, d := Round3(x, k, a, b, c, d, r);
    a, b, c, d := Round4(x, k, a, b, c, d, r);
    s := Sums(a, b, c, d, r);
  }

  /** The unrolled program computes the digest of the standard, for every message whose length it gets right. */
  method MessageDigest(m: seq<octet>) returns (r: Registers)
    requires |m| < 0x1_0000_0000
    ensures r == Digest(Padded(m), |Padded(m)| / 16)
  {
    hide WordsOf, Filled, Block, LowWord, HighWord, HighWordAsWritten, ToWord;
    HighWordRight(|m|);
    var x := ConvertToWordArray(m);
    assert x[..] == Padded(m);
    r := START;
    var n := 0;
    while 16 * n < x.Length
      invariant 16 * n <= x.Length && x[..] == Padded(m)
      invariant r == Digest(Padded(m), n)
    {
      BlockOf(x, 16 * n);
      r := HandleBlock(x, 16 * n, r);
      n := n + 1;
    }
  }

  lemma BlockOf(x: array<word>, k: nat)
    requires k + 16 <= x.Length
    ensures x[k..k + 16] == x[..][k..k + 16]
  {
  }
}

/** The AIS payload under construction: lib/nmea2ktoais/NMEA0183AISMsg.cpp. */
module AisEncoder {
  import opened Sequences
  import opened Wrappers
  import opened Bits
  import opened AisAlphabet

  const AIS_MSG_MAX_LEN := 100
  const AIS_BIN_MAX_LEN := 500
  const BITSET_LENGTH := 120


  /** Bit `i` of the bitset built from a sign-extended 64-bit value. */
  function BitsetAt(ival: int32, i: nat): bool {
    Shr(ival % Pow2(64), i) % 2 == 1
  }

  /** The bits an integer field occupies: its two's complement, most significant bit first. */
  function FieldBits(ival: int32, n: nat): (b: seq<bool>)
    ensures |b| == n
  {
    BitsOf(ival % Pow2(64), n)
  }

  lemma FieldBitsAt(ival: int32, n: nat, k: nat)
    requires k < n
    ensures FieldBits(ival, n)[k] == BitsetAt(ival, n - 1 - k)
  {
    BitsOfAt(ival % Pow2(64), n, k);
  }

  function CStrLen(s: string): (n: nat)
    ensures n <= |s| && '\0' !in s[..n]
    ensures n < |s| ==> s[n] == '\0'
  {
    if s == [] || s[0] == '\0' then 0 else 1 + CStrLen(s[1..])
  }

  lemma {:induction false} CStrLenUnique(s: string, n: nat)
    requires n < |s| && s[n] == '\0' && forall i | 0 <= i < n :: s[i] != '\0'
    ensures CStrLen(s) == n
  {
    if n > 0 { CStrLenUnique(s[1..], n - 1); }
  }

  predicate IsBinary(s: string) {
    forall i | 0 <= i < |s| :: s[i] == '0' || s[i] == '1'
  }

  function BoolsOf(s: string): (b: seq<bool>)
    ensures |b| == |s|
  {
    seq(|s|, i requires 0 <= i < |s| => s[i] == '1')
  }

  lemma BoolsOfSnoc(s: string, c: char)
    requires IsBinary(s) && (c == '0' || c == '1')
    ensures IsBinary(s + [c]) && BoolsOf(s + [c]) == BoolsOf(s) + [c == '1']
  {
  }

  /** `strtoull(s, NULL, 2)` on a string of binary digits. */
  function BinToDec(s: string): nat
    requires IsBinary(s)
  {
    Value(BoolsOf(s))
  }

  class AisMsg {
    const payloadBin: array<char>
    const payloadBin2: array<char>   // never read; it follows payloadBin in memory
    const payload: array<char>
    var iAddPldBin: nat

    ghost predicate Valid()
      reads this, payloadBin, payload
    {
      && payloadBin.Length == payloadBin2.Length == AIS_BIN_MAX_LEN && payload.Length == AIS_MSG_MAX_LEN
      && payloadBin != payload && payloadBin != payloadBin2 && payload != payloadBin2
      && iAddPldBin < AIS_BIN_MAX_LEN
      && IsBinary(payloadBin[..iAddPldBin])
      && payloadBin[iAddPldBin] == '\0'
    }

    /** The bits collected so far. */
    ghost function Bits(): (b: seq<bool>)
      requires Valid()
      reads this, payloadBin, payload
      ensures |b| == iAddPldBin
    {
      BoolsOf(payloadBin[..iAddPldBin])
    }

    constructor ()
      ensures Valid() && Bits() == []
      ensures fresh(payloadBin) && fresh(payloadBin2) && fresh(payload)
    {
      payloadBin := new char[AIS_BIN_MAX_LEN](_ => '\0');
      payloadBin2 := new char[AIS_BIN_MAX_LEN](_ => '\0');
      payload := new char[AIS_MSG_MAX_LEN](_ => '\0');
      iAddPldBin := 0;
    }

    method ClearAIS()
      requires payloadBin.Length == payloadBin2.Length == AIS_BIN_MAX_LEN && payload.Length == AIS_MSG_MAX_LEN
      requires payloadBin != payload && payloadBin != payloadBin2 && payload != payloadBin2
      modifies this, payloadBin, payload
      ensures Valid() && Bits() == []
    {
      payloadBin[0] := '\0';
      payload[0] := '\0';
      iAddPldBin := 0;
    }

    method AddIntToPayloadBin(ival: int32, countBits: nat) returns (ok: bool)
      requires Valid() && countBits <= BITSET_LENGTH
      modifies this, payloadBin
      ensures Valid()
      ensures ok == (old(iAddPldBin) + countBits < AIS_BIN_MAX_LEN)
      ensures Bits() == old(Bits()) + if ok then FieldBits(ival, countBits) else []
    {
      if iAddPldBin + countBits >= AIS_BIN_MAX_LEN { return false; }
      ghost var field := FieldBits(ival, countBits);
      ghost var before := payloadBin[..iAddPldBin];
      payloadBin[iAddPldBin] := '\0';
      assert payloadBin[..iAddPldBin] == before;
      var iAdd := iAddPldBin;
      for i := countBits downto 0
        invariant iAdd == iAddPldBin + countBits - i && iAddPldBin == old(iAddPldBin)
        invariant IsBinary(payloadBin[..iAdd])
        invariant BoolsOf(payloadBin[..iAdd]) == old(Bits()) + field[..countBits - i]
      {
        ghost var k := countBits - 1 - i;
        FieldBitsAt(ival, countBits, k);
        ghost var s := payloadBin[..iAdd];
        payloadBin[iAdd] := if BitsetAt(ival, i) then '1' else '0';
        assert payloadBin[..iAdd + 1] == s + [payloadBin[iAdd]];
        BoolsOfSnoc(s, payloadBin[iAdd]);
        assert field[..k + 1] == field[..k] + [field[k]];
        iAdd := iAdd + 1;
      }
      ghost var s := payloadBin[..iAdd];
      iAddPldBin := iAddPldBin + countBits;
      payloadBin[iAddPldBin] := '\0';
      assert payloadBin[..iAddPldBin] == s;
      ok := true;
    }

    method AddBoolToPayloadBin(bval: bool, size: nat) returns (ok: bool)
      requires Valid() && size <= BITSET_LENGTH
      modifies this, payloadBin
      ensures Valid()
      ensures ok == (old(iAddPldBin) + size < AIS_BIN_MAX_LEN)
      ensures Bits() == old(Bits()) + if ok then FieldBits(if bval then 1 else 0, size) else []
    {
      ok := AddIntToPayloadBin(if bval then 1 else 0, size);
    }

    method AddEncodedCharToPayloadBin(sval: CString, countBits: nat) returns (ok: bool)
      requires Valid()
      modifies this, payloadBin, payloadBin2
      ensures Valid()
      ensures ok == (old(iAddPldBin) + countBits < AIS_BIN_MAX_LEN)
      ensures Bits() == old(Bits()) + if ok then TextBits(sval, countBits / 6) else []
    {
      if iAddPldBin + countBits >= AIS_BIN_MAX_LEN { return false; }
      ghost var start := Bits();
      Terminate(iAddPldBin);
      var len := |sval|;
      if len * 6 > countBits { len := countBits / 6; }
      AddCharacters(sval, len, countBits / 6);
      // one past the terminator: the last byte of the buffer, or the first of the next one
      Terminate(iAddPldBin + 1);
      if len * 6 < countBits {
        AddFiller(sval, len, countBits / 6, start);
      }
      Terminate(iAddPldBin);
      assert TextBits(sval, countBits / 6)[..6 * (countBits / 6)] == TextBits(sval, countBits / 6);
      ok := true;
    }

    /** Writes a terminator at or after the end of the bits collected. */
    method Terminate(at: nat)
      requires Valid() && iAddPldBin <= at <= AIS_BIN_MAX_LEN
      modifies payloadBin, payloadBin2
      ensures Valid() && Bits() == old(Bits())
    {
      ghost var s := payloadBin[..iAddPldBin];
      if at < AIS_BIN_MAX_LEN {
        payloadBin[at] := '\0';
      } else {
        payloadBin2[0] := '\0';
      }
      assert payloadBin[..iAddPldBin] == s;
    }

    method AddCharacter(c: char)
      requires Valid() && iAddPldBin + 6 < AIS_BIN_MAX_LEN
      modifies this, payloadBin
      ensures Valid() && Bits() == old(Bits()) + BitsOf(CodeOrAt(c), 6)
    {
      FieldBitsShort(CodeOrAt(c), 6);
      var added;
      match SixBitCode(c) {
        case Some(index) => added := AddIntToPayloadBin(index, 6);
        case None => added := AddIntToPayloadBin(0, 6);
      }
    }

    /** The first loop of AddEncodedCharToPayloadBin: one code for each character. */
    method AddCharacters(sval: CString, len: nat, ghost chars: nat)
      requires Valid() && len <= |sval| && len <= chars && iAddPldBin + 6 * chars < AIS_BIN_MAX_LEN
      modifies this, payloadBin
      ensures Valid() && Bits() == old(Bits()) + TextBits(sval, chars)[..6 * len]
    {
      hide TextBits;
      for i := 0 to len
        invariant Valid() && iAddPldBin == old(iAddPldBin) + 6 * i
        invariant Bits() == old(Bits()) + TextBits(sval, chars)[..6 * i]
      {
        TextBitsFrom(sval, chars, i);
        AddCharacter(sval[i]);
      }
    }

    method AddFillerCode()
      requires Valid() && iAddPldBin + 6 < AIS_BIN_MAX_LEN
      modifies this, payloadBin
      ensures Valid() && Bits() == old(Bits()) + Zeros(6)
    {
      FieldBitsShort(0, 6);
      ZeroCode();
      var added := AddIntToPayloadBin(0, 6);
    }

    /** The second loop of AddEncodedCharToPayloadBin: '@' up to the width of the field. */
    method AddFiller(ghost sval: CString, len: nat, chars: nat, ghost start: seq<bool>)
      requires Valid() && len <= chars && (|sval| <= len || len == chars)
      requires iAddPldBin + 6 * (chars - len) < AIS_BIN_MAX_LEN
      requires Bits() == start + TextBits(sval, chars)[..6 * len]
      modifies this, payloadBin
      ensures Valid() && Bits() == start + TextBits(sval, chars)[..6 * chars]
    {
      hide TextBits;
      for i := 0 to chars - len
        invariant Valid() && iAddPldBin == old(iAddPldBin) + 6 * i
        invariant Bits() == start + TextBits(sval, chars)[..6 * (len + i)]
      {
        TextBitsFrom(sval, chars, len + i);
        AddFillerCode();
      }
    }

    /** Armours a string of binary digits into `payload`. */
    method ConvertBinaryAISPayloadBinToAscii(bin: string) returns (text: string)
      requires IsBinary(bin) && |bin| / 6 < AIS_MSG_MAX_LEN && payload.Length == AIS_MSG_MAX_LEN
      modifies payload
      ensures text == Armoured(BoolsOf(bin)) == payload[..|text|]
      ensures |text| < AIS_MSG_MAX_LEN && payload[|text|] == '\0'
    {
      var len := |bin| / 6;
      ghost var all := BoolsOf(bin);
      for i := 0 to len
        invariant payload[..i] == Armoured(all)[..i]
      {
        var offset := i * 6;
        var s := bin[offset..offset + 6];
        assert BoolsOf(s) == all[offset..offset + 6];
        var dec := BinToDec(s);
        assert dec == Group(all, i);
        if dec < 40 { dec := dec + 48; } else { dec := dec + 56; }
        payload[i] := dec as char;
      }
      payload[len] := '\0';
      text := payload[..len];
    }

    method BinLength() returns (lenbin: nat)
      requires Valid()
      ensures lenbin == iAddPldBin
    {
      CStrLenUnique(payloadBin[..], iAddPldBin);
      lenbin := CStrLen(payloadBin[..]);
    }

    /** Messages 1, 2, 3 and 18. */
    method GetPayload() returns (r: Option<string>)
      requires Valid()
      modifies payload
      ensures Valid() && Bits() == old(Bits())
      ensures r == if |Bits()| == 168 then Some(Armoured(Bits())) else None
    {
      var lenbin := BinLength();
      if lenbin != 168 { return None; }
      ghost var bits := Bits();
      var text := ConvertBinaryAISPayloadBinToAscii(payloadBin[..168]);
      r := Some(text);
    }

    method GetPayloadType5Part1() returns (r: Option<string>)
      requires Valid()
      modifies payload
      ensures Valid() && Bits() == old(Bits())
      ensures r == if |Bits()| == 424 then Some(Armoured(Bits()[..336])) else None
    {
      var lenbin := BinLength();
      if lenbin != 424 { return None; }
      ghost var bits := Bits();
      var to := payloadBin[..336];
      assert BoolsOf(to) == bits[..336];
      var text := ConvertBinaryAISPayloadBinToAscii(to);
      r := Some(text);
    }

    method GetPayloadType5Part2() returns (r: Option<string>)
      requires Valid()
      modifies payload
      ensures Valid() && Bits() == old(Bits())
      ensures r == if |Bits()| == 424 then Some(Armoured(Bits()[336..] + Zeros(2))) else None
    {
      var lenbin := BinLength();
      if lenbin != 424 { return None; }
      ghost var bits := Bits();
      var to := payloadBin[336..336 + 88] + ['0', '0'];
      assert BoolsOf(to) == bits[336..] + Zeros(2);
      var text := ConvertBinaryAISPayloadBinToAscii(to);
      r := Some(text);
    }

    method GetPayloadType24PartA() returns (r: Option<string>)
      requires Valid()
      modifies payload
      ensures Valid() && Bits() == old(Bits())
      ensures r == if |Bits()| == 296 then Some(Armoured(Bits()[..168])) else None
    {
      var lenbin := BinLength();
      if lenbin != 296 { return None; }
      ghost var bits := Bits();
      var to := payloadBin[..168];
      assert BoolsOf(to) == bits[..168];
      var text := ConvertBinaryAISPayloadBinToAscii(to);
      r := Some(text);
    }

    /** Part B repeats the first 39 bits, sets the part number and continues at bit 168. */
    method GetPayloadType24PartB() returns (r: Option<string>)
      requires Valid()
      modifies payload
      ensures Valid() && Bits() == old(Bits())
      ensures r == if |Bits()| == 296 then Some(Armoured(Bits()[..39] + [true] + Bits()[168..])) else None
    {
      var lenbin := BinLength();
      if lenbin != 296 { return None; }
      ghost var bits := Bits();
      var to := payloadBin[..39] + ['1'] + payloadBin[168..296];
      assert BoolsOf(to) == bits[..39] + [true] + bits[168..];
      var text := ConvertBinaryAISPayloadBinToAscii(to);
      r := Some(text);
    }
  }

  /** Up to 64 bits, a field is the two's complement of its number. */
  lemma FieldBitsShort(v: int32, n: nat)
    requires n <= 64
    ensures FieldBits(v, n) == BitsOf(v, n)
  {
    WordSize();
    var w := Pow2(64);
    if v < 0 {
      assert v % w == v + w;
      BitsOfPlus(v, n, 64);
    } else {
      assert v % w == v;
    }
  }

  lemma FirstCharacter(t: string, chars: nat)
    requires chars > 0
    ensures TextBits(t, chars)[0..6] == if t != [] then BitsOf(CodeOrAt(t[0]), 6) else Zeros(6)
    ensures TextBits(t, chars)[6..] == TextBits(if t == [] then t else t[1..], chars - 1)
  {
    hide CodeOrAt, BitsOf;
  }

  /** The `i`-th character of a text field. */
  lemma {:induction false} TextBitsFrom(t: string, chars: nat, i: nat)
    requires i < chars
    ensures TextBits(t, chars)[6 * i..6 * i + 6]
         == if i < |t| then BitsOf(CodeOrAt(t[i]), 6) else Zeros(6)
    ensures TextBits(t, chars)[..6 * (i + 1)]
         == TextBits(t, chars)[..6 * i] + if i < |t| then BitsOf(CodeOrAt(t[i]), 6) else Zeros(6)
  {
    hide TextBits, CodeOrAt, BitsOf;
    var b := TextBits(t, chars);
    TakeMore(b, 6 * i, 6);
    FirstCharacter(t, chars);
    if i > 0 {
      var rest := if t == [] then t else t[1..];
      TextBitsFrom(rest, chars - 1, i - 1);
      DropSlice(b, 6, 6 * (i - 1), 6 * (i - 1) + 6);
    }
  }
}

/** One field, from the appender of the encoder to the reader of the decoder, at any place.
    lib/nmea2ktoais/NMEA0183AISMsg.cpp, lines 67-160; lib/aisparser/ais_decoder.cpp, lines 40-123. */
module AisRoundTrip {
  import opened Bits
  import opened Sequences
  import opened AisAlphabet
  import opened AisEncoder
  import opened AisPayload

  /** The bits of a message that fill whole characters; the others are not sent. */
  function Whole(n: nat): nat {
    6 * (n / 6)
  }

  /** What the decoder finds in its buffer after the payload of a message was sent and de-armoured. */
  lemma BitsArrive(b: seq<bool>)
    ensures var m := Whole(|b|);
            m <= |b| && m <= |PaddedBits(Armoured(b))| && PaddedBits(Armoured(b))[..m] == b[..m]
  {
    ArmourRoundTrip(b);
  }

  lemma PartArrives(before: seq<bool>, field: seq<bool>, after: seq<bool>)
    requires |before| + |field| <= Whole(|before + field + after|)
    ensures var b := PaddedBits(Armoured(before + field + after));
            |before| + |field| <= |b| && b[|before|..|before| + |field|] == field
  {
    hide PaddedBits, Armoured, Whole;
    var all := before + field + after;
    var m := Whole(|all|);
    BitsArrive(all);
    Middle(before, field, after);
    PrefixSlice(PaddedBits(Armoured(all)), m, |before|, |before| + |field|);
    PrefixSlice(all, m, |before|, |before| + |field|);
  }

  /** A number of up to 32 bits, appended anywhere: read as an unsigned field it is the number modulo the size of the
      field, read as a signed one it is the number itself, as far as it fits in two's complement. */
  lemma NumberRoundTrip(before: seq<bool>, v: int32, n: nat, after: seq<bool>)
    requires 1 <= n <= 32 && |before| + n <= Whole(|before + FieldBits(v, n) + after|)
    ensures var b := PaddedBits(Armoured(before + FieldBits(v, n) + after));
            && |before| + n <= |b|
            && (0 <= v < Pow2(n) ==> FieldAt(b, |before|, n) == v)
            && (0 <= v + Pow2(n) < Pow2(n) ==> FieldAt(b, |before|, n) == v + Pow2(n))
            && (0 <= v + Pow2(n - 1) && v < Pow2(n - 1) ==> SignedFieldAt(b, |before|, n) == v)
  {
    hide PaddedBits, Armoured, FieldBits, Whole;
    FieldBitsShort(v, n);
    PartArrives(before, FieldBits(v, n), after);
    var b := PaddedBits(Armoured(before + FieldBits(v, n) + after));
    assert b[|before|] == b[|before|..|before| + n][0];
    if 0 <= v < Pow2(n) { ValueBitsOf(v, n); }
    if 0 <= v + Pow2(n) < Pow2(n) {
      BitsOfPlus(v, n, n);
      ValueBitsOf(v + Pow2(n), n);
    }
    if 0 <= v + Pow2(n - 1) && v < Pow2(n - 1) { ValueOfSigned(v, n); }
  }

  /** A text, appended anywhere, comes back in its normal form. */
  lemma TextFieldRoundTrip(before: seq<bool>, t: string, chars: nat, after: seq<bool>)
    requires chars <= 64 && |before| + 6 * chars <= Whole(|before + TextBits(t, chars) + after|)
    ensures var b := PaddedBits(Armoured(before + TextBits(t, chars) + after));
            && |before| + 6 * chars <= |b|
            && TextAt(b, |before|, 6 * chars) == NormalText(t, chars)
  {
    hide PaddedBits, Armoured, TextBits, Whole, CleanText, SixBitText, NormalText;
    PartArrives(before, TextBits(t, chars), after);
    TextRoundTrip(t, chars);
  }
}

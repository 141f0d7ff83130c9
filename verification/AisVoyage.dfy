/** AIS Message 5 from the encoder through the sentences to the decoder and back.
    lib/nmea2ktoais/NMEA0183AISMessages.cpp, lines 116-145 and 282-574; lib/nmea2ktoais/NMEA0183AISMsg.cpp. */
module AisVoyage {
  import opened Bits
  import opened Sequences
  import opened Wrappers
  import opened AisAlphabet
  import opened AisEncoder
  import opened AisPayload
  import opened AisMessages

  /** Integers that a conversion from metres has already brought into range. */
  type Metres9 = x: int | 0 <= x < 512
  type Metres6 = x: int | 0 <= x < 64

  /** Static and voyage related data, as the N2K side hands it over, quantised. */
  datatype Voyage = Voyage(
    repeat: byte, userId: uint32, imo: uint32, callsign: CString, name: CString, vesselType: byte,
    toBow: Metres9, toStern: Metres9, toPort: Metres6, toStarboard: Metres6, gnssType: int,
    etaMonth: byte, etaDay: byte, etaHour: byte, etaMinute: byte, draught: byte,
    destination: CString, dte: byte)

  // ----- validation of single fields

  function RepeatField(repeat: byte): (r: int32) {
    if repeat > 3 then 0 else repeat
  }

  function UserIdField(userId: uint32): (r: int32) {
    if userId > 999999999 then 0 else userId
  }

  function ImoField(imo: uint32): (r: int32) {
    if 999999 <= imo <= 9999999 || 10000000 <= imo <= 1073741823 then imo else 0
  }

  function FixField(gnssType: int): (r: int32) {
    match gnssType
    case 0 => 1
    case 3 => 1
    case 4 => 1
    case 1 => 2
    case 2 => 3
    case 5 => 5
    case 6 => 6
    case 7 => 7
    case 8 => 8
    case _ => 0
  }

  // ----- the fields of the message

  function Int(v: int32, n: nat): seq<bool> {
    FieldBits(v, n)
  }

  function Text(t: string, chars: nat): seq<bool> {
    TextBits(Cut(t, chars), chars)
  }

  function Fields(v: Voyage): (fs: seq<seq<bool>>)
    ensures |fs| == 21
  {
    [Int(5, 6), Int(RepeatField(v.repeat), 2), Int(UserIdField(v.userId), 30), Int(1, 2), Int(ImoField(v.imo), 30),
     Text(v.callsign, 7), Text(v.name, 20), Int(v.vesselType, 8), Int(v.toBow, 9), Int(v.toStern, 9),
     Int(v.toPort, 6), Int(v.toStarboard, 6), Int(FixField(v.gnssType), 4), Int(v.etaMonth, 4), Int(v.etaDay, 5),
     Int(v.etaHour, 5), Int(v.etaMinute, 6), Int(v.draught, 8), Text(v.destination, 20), Int(v.dte, 1), Int(0, 1)]
  }

  function Offset(fs: seq<seq<bool>>, k: nat): nat
    requires k <= |fs|
  {
    if k == 0 then 0 else Offset(fs, k - 1) + |fs[k - 1]|
  }

  /** A field is found at the sum of the widths before it. */
  lemma {:induction false} FieldFound(fs: seq<seq<bool>>, k: nat)
    requires k < |fs|
    ensures Offset(fs, k) + |fs[k]| <= |Flatten(fs)|
    ensures Flatten(fs)[Offset(fs, k)..Offset(fs, k) + |fs[k]|] == fs[k]
    decreases |fs|
  {
    var before := fs[..|fs| - 1];
    FlattenLength(before);
    OffsetOfPrefix(fs, |fs| - 1, k);
    if k < |fs| - 1 {
      FieldFound(before, k);
      SliceOfAppend(Flatten(before), fs[|fs| - 1], Offset(fs, k), |fs[k]|);
    } else {
      OffsetOfPrefix(fs, k, k);
      LastOfAppend(Flatten(before), fs[k]);
    }
  }

  lemma SliceOfAppend<T>(a: seq<T>, b: seq<T>, i: nat, n: nat)
    requires i + n <= |a|
    ensures (a + b)[i..i + n] == a[i..i + n]
  {
  }

  lemma LastOfAppend<T>(a: seq<T>, b: seq<T>)
    ensures (a + b)[|a|..|a| + |b|] == b
  {
  }

  lemma {:induction false} FlattenLength(fs: seq<seq<bool>>)
    ensures |Flatten(fs)| == Offset(fs, |fs|)
  {
    if fs != [] {
      FlattenLength(fs[..|fs| - 1]);
      OffsetOfPrefix(fs, |fs| - 1, |fs| - 1);
    }
  }

  lemma {:induction false} OffsetOfPrefix(fs: seq<seq<bool>>, m: nat, k: nat)
    requires k <= m <= |fs|
    ensures Offset(fs[..m], k) == Offset(fs, k)
  {
    if k > 0 { OffsetOfPrefix(fs, m, k - 1); }
  }

  /** Where the fields are, as the comments of the encoder give it. */
  lemma Offsets(v: Voyage)
    ensures var fs := Fields(v);
            && Offset(fs, 1) == 6 && Offset(fs, 2) == 8 && Offset(fs, 3) == 38 && Offset(fs, 4) == 40
            && Offset(fs, 5) == 70 && Offset(fs, 6) == 112 && Offset(fs, 7) == 232 && Offset(fs, 8) == 240
            && Offset(fs, 9) == 249 && Offset(fs, 10) == 258 && Offset(fs, 11) == 264 && Offset(fs, 12) == 270
            && Offset(fs, 13) == 274 && Offset(fs, 14) == 278 && Offset(fs, 15) == 283 && Offset(fs, 16) == 288
            && Offset(fs, 17) == 294 && Offset(fs, 18) == 302 && Offset(fs, 19) == 422 && Offset(fs, 20) == 423
            && Offset(fs, 21) == 424 == |Flatten(fs)|
  {
    hide FieldBits, TextBits, Flatten;
    var fs := Fields(v);
    FlattenLength(fs);
  }

  // ----- encoding

  /** The message has the first `k` fields. */
  ghost predicate Has(msg: AisMsg, fs: seq<seq<bool>>, k: nat)
    reads msg, msg.payloadBin, msg.payload
  {
    k <= |fs| && msg.Valid() && msg.Bits() == Flatten(fs[..k]) && |msg.Bits()| == Offset(fs, k)
  }

  method AddInt(msg: AisMsg, ival: int32, n: nat, ghost fs: seq<seq<bool>>, ghost k: nat) returns (ok: bool)
    requires k < |fs| && Has(msg, fs, k) && fs[k] == Int(ival, n) && n <= 30 && Offset(fs, k) + n <= 424
    modifies msg, msg.payloadBin
    ensures ok && Has(msg, fs, k + 1)
  {
    FlattenSnoc(fs, k);
    FlattenLength(fs[..k]);
    OffsetOfPrefix(fs, k, k);
    ok := msg.AddIntToPayloadBin(ival, n);
  }

  /** A text longer than the field is cut off at the caller's. */
  method AddText(msg: AisMsg, text: CString, length: nat, ghost fs: seq<seq<bool>>, ghost k: nat) returns (ok: bool)
    requires k < |fs| && Has(msg, fs, k) && fs[k] == Text(text, length / 6) && length % 6 == 0
    requires Offset(fs, k) + length <= 424
    modifies msg, msg.payloadBin, msg.payloadBin2
    ensures ok && Has(msg, fs, k + 1)
  {
    FlattenSnoc(fs, k);
    FlattenLength(fs[..k]);
    OffsetOfPrefix(fs, k, k);
    var len := length / 6;
    var field := if |text| > len then text[..len] else text;
    ok := msg.AddEncodedCharToPayloadBin(field, length);
  }

  method AddShip(msg: AisMsg, v: Voyage) returns (ok: bool)
    requires msg.Valid() && msg.Bits() == []
    modifies msg, msg.payloadBin, msg.payloadBin2
    ensures ok && Has(msg, Fields(v), 8)
  {
    hide TextBits, FieldBits, Flatten, AisMsg.Valid, AisMsg.Bits;
    ghost var fs := Fields(v);
    Offsets(v);
    StartEmpty(msg, fs);
    ok := AddInt(msg, 5, 6, fs, 0);
    ok := AddInt(msg, RepeatField(v.repeat), 2, fs, 1);
    ok := AddInt(msg, UserIdField(v.userId), 30, fs, 2);
    ok := AddInt(msg, 1, 2, fs, 3);
    ok := AddInt(msg, ImoField(v.imo), 30, fs, 4);
    ok := AddText(msg, v.callsign, 42, fs, 5);
    ok := AddText(msg, v.name, 120, fs, 6);
    ok := AddInt(msg, v.vesselType, 8, fs, 7);
  }

  lemma StartEmpty(msg: AisMsg, fs: seq<seq<bool>>)
    requires msg.Valid() && msg.Bits() == []
    ensures Has(msg, fs, 0)
  {
    assert fs[..0] == [];
  }

  method AddDimensions(msg: AisMsg, v: Voyage) returns (ok: bool)
    requires Has(msg, Fields(v), 8)
    modifies msg, msg.payloadBin, msg.payloadBin2
    ensures ok && Has(msg, Fields(v), 12)
  {
    hide TextBits, FieldBits, Flatten, AisMsg.Valid, AisMsg.Bits, Has;
    ghost var fs := Fields(v);
    Offsets(v);
    ok := AddInt(msg, v.toBow, 9, fs, 8);
    ok := AddInt(msg, v.toStern, 9, fs, 9);
    ok := AddInt(msg, v.toPort, 6, fs, 10);
    ok := AddInt(msg, v.toStarboard, 6, fs, 11);
  }

  method AddVoyage(msg: AisMsg, v: Voyage) returns (ok: bool)
    requires Has(msg, Fields(v), 8)
    modifies msg, msg.payloadBin, msg.payloadBin2
    ensures ok && Has(msg, Fields(v), 17)
  {
    hide TextBits, FieldBits, Flatten, AisMsg.Valid, AisMsg.Bits, Has;
    ghost var fs := Fields(v);
    Offsets(v);
    ok := AddDimensions(msg, v);
    ok := AddInt(msg, FixField(v.gnssType), 4, fs, 12);
    ok := AddInt(msg, v.etaMonth, 4, fs, 13);
    ok := AddInt(msg, v.etaDay, 5, fs, 14);
    ok := AddInt(msg, v.etaHour, 5, fs, 15);
    ok := AddInt(msg, v.etaMinute, 6, fs, 16);
  }

  method AddDestination(msg: AisMsg, v: Voyage) returns (ok: bool)
    requires Has(msg, Fields(v), 17)
    modifies msg, msg.payloadBin, msg.payloadBin2
    ensures ok && Has(msg, Fields(v), 21)
  {
    hide TextBits, FieldBits, Flatten, AisMsg.Valid, AisMsg.Bits, Has;
    ghost var fs := Fields(v);
    Offsets(v);
    ok := AddInt(msg, v.draught, 8, fs, 17);
    ok := AddText(msg, v.destination, 120, fs, 18);
    ok := AddInt(msg, v.dte, 1, fs, 19);
    ok := AddInt(msg, 0, 1, fs, 20);
  }

  /** The whole message; there is room for every field, so no step of it fails. */
  method SetAISClassAMessage5(msg: AisMsg, v: Voyage) returns (ok: bool)
    requires msg.Valid()
    modifies msg, msg.payloadBin, msg.payloadBin2, msg.payload
    ensures ok && msg.Valid() && msg.Bits() == Flatten(Fields(v)) && |msg.Bits()| == 424
  {
    msg.ClearAIS();
    hide TextBits, FieldBits, Flatten, AisMsg.Valid, AisMsg.Bits;
    Offsets(v);
    ok := AddShip(msg, v);
    ok := AddVoyage(msg, v);
    ok := AddDestination(msg, v);
    assert Fields(v)[..21] == Fields(v);
  }

  // ----- what the decoder reads

  /** The report of a voyage: the validated integers, cut to their fields, and the normalised texts. */
  function Expected(v: Voyage): Report {
    Type5(5, UserIdField(v.userId), ImoField(v.imo), NormalText(v.callsign, 7), NormalText(v.name, 20),
          ShipType(v.vesselType), v.toBow, v.toStern, v.toPort, v.toStarboard, FixField(v.gnssType),
          Low(v.etaMonth, 4), Low(v.etaDay, 5), Low(v.etaHour, 5), Low(v.etaMinute, 6), v.draught,
          NormalText(v.destination, 20), 1, RepeatField(v.repeat), Low(v.dte, 1) != 0)
  }

  /** What of a voyage arrives. A number out of its range is reported as 0: a repeat above 3, an MMSI of more than nine
      digits, an IMO number that is neither 0 nor in 999999 to 1073741823. The kinds of position fix have numbers of
      their own in AIS; a date and a time that are too large lose their high bits. */
  ghost predicate VoyageArrives(r: Report, v: Voyage) {
    && r.Type5? && r.msgType == 5 && r.aisVersion == 1
    && r.repeat == (if v.repeat <= 3 then v.repeat else 0)
    && r.mmsi == (if v.userId <= 999999999 then v.userId else 0)
    && r.imo == (if v.imo == 0 || 999999 <= v.imo <= 1073741823 then v.imo else 0)
    && r.shipType == (if v.vesselType <= 99 then v.vesselType else 0)
    && r.toBow == v.toBow && r.toStern == v.toStern && r.toPort == v.toPort && r.toStarboard == v.toStarboard
    && (v.gnssType in {0, 3, 4} ==> r.fixType == 1) && (v.gnssType == 1 ==> r.fixType == 2)
    && (v.gnssType == 2 ==> r.fixType == 3) && (5 <= v.gnssType <= 8 ==> r.fixType == v.gnssType)
    && (v.gnssType < 0 || v.gnssType > 8 ==> r.fixType == 0)
    && r.etaMonth == v.etaMonth % 16 && r.etaDay == v.etaDay % 32
    && r.etaHour == v.etaHour % 32 && r.etaMinute == v.etaMinute % 64
    && r.draught == v.draught && r.dte == (v.dte % 2 == 1)
    && r.callsign == NormalText(v.callsign, 7) && r.name == NormalText(v.name, 20)
    && r.destination == NormalText(v.destination, 20)
  }

  /** MMSI, repeat and IMO number arrive unchanged exactly if they are in range. */
  lemma InRangeArrives(r: Report, v: Voyage)
    requires VoyageArrives(r, v)
    ensures r.imo == v.imo <==> v.imo == 0 || 999999 <= v.imo <= 1073741823
    ensures r.mmsi == v.userId <==> v.userId <= 999999999
    ensures r.repeat == v.repeat <==> v.repeat <= 3
  {
  }

  lemma ExpectedArrives(v: Voyage)
    ensures VoyageArrives(Expected(v), v)
  {
    hide NormalText;
    LowIsRest(v.etaMonth, 4);
    LowIsRest(v.etaDay, 5);
    LowIsRest(v.etaHour, 5);
    LowIsRest(v.etaMinute, 6);
    LowIsRest(v.dte, 1);
    FieldSizes();
    hide Low;
  }

  /** What a word of so many bits keeps is the rest of a division. */
  lemma {:induction false} LowIsRest(x: nat, n: nat)
    ensures Low(x, n) == x % Pow2(n)
    decreases n
  {
    if n > 0 {
      LowIsRest(x / 2, n - 1);
      RestOfHalf(x, Pow2(n - 1));
    }
  }

  lemma RestOfHalf(x: nat, p: nat)
    requires p > 0
    ensures x % (2 * p) == 2 * (x / 2 % p) + x % 2
  {
    var q, h := x / 2 / p, x / 2 % p;
    assert x / 2 == q * p + h;
    assert x == q * (2 * p) + (2 * h + x % 2);
    Remainder(x, q, 2 * p, 2 * h + x % 2);
  }

  lemma Remainder(x: nat, q: nat, d: nat, r: nat)
    requires x == q * d + r && r < d
    ensures x % d == r
  {
    var k, m := x / d, x % d;
    assert x == k * d + m && m < d;
    SameQuotient(k, m, q, r, d);
  }

  lemma SameQuotient(k: nat, m: nat, q: nat, r: nat, d: nat)
    requires k * d + m == q * d + r && m < d && r < d
    ensures m == r
  {
    if k > q {
      assert (k - q) * d == r - m;
      AtLeastOnce(k - q, d);
    } else if q > k {
      assert (q - k) * d == m - r;
      AtLeastOnce(q - k, d);
    }
  }

  lemma AtLeastOnce(n: nat, d: nat)
    requires n > 0
    ensures n * d >= d
  {
  }

  lemma IntFound(fs: seq<seq<bool>>, k: nat, at: nat, v: int32, n: nat)
    requires k < |fs| && fs[k] == Int(v, n) && at == Offset(fs, k) && v >= 0 && n <= 30
    ensures at + n <= |Flatten(fs)| && FieldAt(Flatten(fs), at, n) == Low(v, n)
    ensures v < Pow2(n) ==> FieldAt(Flatten(fs), at, n) == v
  {
    FieldFound(fs, k);
    FieldBitsShort(v, n);
    ValueIsLow(v, n);
    if v < Pow2(n) { LowOfSmall(v, n); }
  }

  lemma TextFound(fs: seq<seq<bool>>, k: nat, at: nat, t: string, chars: nat)
    requires k < |fs| && fs[k] == Text(t, chars) && at == Offset(fs, k) && chars <= 20
    ensures at + 6 * chars <= |Flatten(fs)| && TextAt(Flatten(fs), at, 6 * chars) == NormalText(t, chars)
  {
    hide CleanText, SixBitText, NormalText, TextBits, Flatten, Offset;
    FieldFound(fs, k);
    TextRoundTrip(Cut(t, chars), chars);
    NormalOfCut(t, chars);
  }

  lemma NormalOfCut(t: string, chars: nat)
    ensures NormalText(Cut(t, chars), chars) == NormalText(t, chars)
  {
    assert Cut(Cut(t, chars), chars) == Cut(t, chars);
  }

  lemma IntsFound(v: Voyage)
    ensures var b := Flatten(Fields(v));
            && |b| == 424 && FieldAt(b, 0, 6) == 5 && FieldAt(b, 6, 2) == RepeatField(v.repeat)
            && FieldAt(b, 8, 30) == UserIdField(v.userId) && FieldAt(b, 38, 2) == 1
            && FieldAt(b, 40, 30) == ImoField(v.imo) && FieldAt(b, 232, 8) == v.vesselType
            && FieldAt(b, 240, 9) == v.toBow && FieldAt(b, 249, 9) == v.toStern
            && FieldAt(b, 258, 6) == v.toPort && FieldAt(b, 264, 6) == v.toStarboard
  {
    hide TextBits, FieldBits, Flatten, FieldAt, Low;
    var fs := Fields(v);
    Offsets(v);
    FieldSizes();
    IntFound(fs, 0, 0, 5, 6);
    IntFound(fs, 1, 6, RepeatField(v.repeat), 2);
    IntFound(fs, 2, 8, UserIdField(v.userId), 30);
    IntFound(fs, 3, 38, 1, 2);
    IntFound(fs, 4, 40, ImoField(v.imo), 30);
    IntFound(fs, 7, 232, v.vesselType, 8);
    IntFound(fs, 8, 240, v.toBow, 9);
    IntFound(fs, 9, 249, v.toStern, 9);
    IntFound(fs, 10, 258, v.toPort, 6);
    IntFound(fs, 11, 264, v.toStarboard, 6);
  }

  lemma TimesFound(v: Voyage)
    ensures var b := Flatten(Fields(v));
            && |b| == 424 && FieldAt(b, 270, 4) == FixField(v.gnssType) && FieldAt(b, 274, 4) == Low(v.etaMonth, 4)
            && FieldAt(b, 278, 5) == Low(v.etaDay, 5) && FieldAt(b, 283, 5) == Low(v.etaHour, 5)
            && FieldAt(b, 288, 6) == Low(v.etaMinute, 6) && FieldAt(b, 294, 8) == v.draught
            && FieldAt(b, 422, 1) == Low(v.dte, 1)
  {
    hide TextBits, FieldBits, Flatten, FieldAt, Low;
    var fs := Fields(v);
    Offsets(v);
    FieldSizes();
    IntFound(fs, 12, 270, FixField(v.gnssType), 4);
    IntFound(fs, 13, 274, v.etaMonth, 4);
    IntFound(fs, 14, 278, v.etaDay, 5);
    IntFound(fs, 15, 283, v.etaHour, 5);
    IntFound(fs, 16, 288, v.etaMinute, 6);
    IntFound(fs, 17, 294, v.draught, 8);
    IntFound(fs, 19, 422, v.dte, 1);
  }

  lemma TextsFound(v: Voyage)
    ensures var b := Flatten(Fields(v));
            && |b| == 424 && TextAt(b, 70, 42) == NormalText(v.callsign, 7)
            && TextAt(b, 112, 120) == NormalText(v.name, 20) && TextAt(b, 302, 120) == NormalText(v.destination, 20)
  {
    hide TextBits, FieldBits, Flatten, TextAt, NormalText;
    var fs := Fields(v);
    Offsets(v);
    TextFound(fs, 5, 70, v.callsign, 7);
    TextFound(fs, 6, 112, v.name, 20);
    TextFound(fs, 18, 302, v.destination, 20);
  }

  /** The two halves of the program agree on the layout of Message 5. */
  lemma LayoutsAgree(v: Voyage)
    ensures |Flatten(Fields(v))| == 424 && FieldAt(Flatten(Fields(v)), 0, 6) == 5
    ensures Type5Of(Flatten(Fields(v)), 5) == Expected(v)
  {
    hide FieldAt, TextAt, Flatten, Fields, Low, NormalText;
    IntsFound(v);
    TimesFound(v);
    TextsFound(v);
  }

  // ----- payloads

  function Part1(v: Voyage): string {
    Offsets(v);
    Armoured(Flatten(Fields(v))[..336])
  }

  function Part2(v: Voyage): string {
    Offsets(v);
    Armoured(Flatten(Fields(v))[336..] + Zeros(2))
  }

  lemma PayloadBits(b: seq<bool>)
    requires |b| == 424
    ensures |Armoured(b[..336])| == 56 && |Armoured(b[336..] + Zeros(2))| == 15
    ensures Dearmoured(Armoured(b[..336]) + Armoured(b[336..] + Zeros(2))) == b + Zeros(2)
  {
    hide Armoured, Dearmoured;
    var first, last := b[..336], b[336..] + Zeros(2);
    ArmourRoundTrip(first);
    ArmourRoundTrip(last);
    assert first[..6 * (|first| / 6)] == first && last[..6 * (|last| / 6)] == last;
    DearmouredAppend(Armoured(first), Armoured(last));
    assert first + last == b + Zeros(2);
  }

  lemma Type5OfPrefix(b: seq<bool>, t: nat)
    requires |b| >= 424
    ensures Type5Of(b, t) == Type5Of(b[..424], t)
  {
    hide FieldAt, TextAt;
    forall i: nat, n: nat | i + n <= 424
      ensures FieldAt(b, i, n) == FieldAt(b[..424], i, n)
      ensures TextAt(b, i, n) == TextAt(b[..424], i, n)
    {
      FieldOfPrefix(b, 424, i, n);
      TextOfPrefix(b, 424, i, n);
    }
  }

  /** De-armouring and decoding the two payloads one after the other gives the voyage back. */
  lemma PayloadRoundTrip(v: Voyage)
    ensures |Part1(v)| == 56 && |Part2(v)| == 15
    ensures ReportOf(Part1(v) + Part2(v), 2) == Success(Expected(v))
  {
    hide FieldAt, TextAt, Flatten, Fields, Low, NormalText, Armoured, Dearmoured, Type5Of, Expected;
    Offsets(v);
    var bits, payload := Flatten(Fields(v)), Part1(v) + Part2(v);
    PayloadBits(bits);
    var b := PlainBits(payload);
    assert b[..424] == bits;
    FieldOfPrefix(b, 424, 0, 6);
    Type5OfPrefix(b, 5);
    LayoutsAgree(v);
  }
}

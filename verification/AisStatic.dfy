/** AIS Message 24: one string of 296 bits, sent as two messages and decoded as two.
    lib/nmea2ktoais/NMEA0183AISMessages.cpp, lines 228-277; lib/nmea2ktoais/NMEA0183AISMsg.cpp, lines 263-297. */
module AisStatic {
  import opened Bits
  import opened Sequences
  import opened Wrappers
  import opened AisAlphabet
  import opened AisEncoder
  import opened AisPayload
  import opened AisMessages
  import opened AisStale
  import opened AisVoyage

  /** Static data of a class B ship; the name is the one stored for the ship before. */
  datatype Static = Static(
    repeat: byte, userId: uint32, name: CString, vesselType: byte, vendor: CString, callsign: CString,
    toBow: Metres9, toStern: Metres9, toPort: Metres6, toStarboard: Metres6)

  function StaticFields(s: Static): (fs: seq<seq<bool>>)
    ensures |fs| == 14
  {
    [Int(24, 6), Int(RepeatField(s.repeat), 2), Int(UserIdField(s.userId), 30), Int(0, 2), Text(s.name, 20), Int(0, 8),
     Int(s.vesselType, 8), Text(s.vendor, 7), Text(s.callsign, 7), Int(s.toBow, 9), Int(s.toStern, 9),
     Int(s.toPort, 6), Int(s.toStarboard, 6), Int(0, 6)]
  }

  lemma StaticOffsets(s: Static)
    ensures var fs := StaticFields(s);
            && Offset(fs, 1) == 6 && Offset(fs, 2) == 8 && Offset(fs, 3) == 38 && Offset(fs, 4) == 40
            && Offset(fs, 5) == 160 && Offset(fs, 6) == 168 && Offset(fs, 7) == 176 && Offset(fs, 8) == 218
            && Offset(fs, 9) == 260 && Offset(fs, 10) == 269 && Offset(fs, 11) == 278 && Offset(fs, 12) == 284
            && Offset(fs, 13) == 290 && Offset(fs, 14) == 296 == |Flatten(fs)|
  {
    hide FieldBits, TextBits, Flatten;
    FlattenLength(StaticFields(s));
  }

  method AddPartA(msg: AisMsg, s: Static) returns (ok: bool)
    requires msg.Valid() && msg.Bits() == []
    modifies msg, msg.payloadBin, msg.payloadBin2
    ensures ok && Has(msg, StaticFields(s), 6)
  {
    hide TextBits, FieldBits, Flatten, AisMsg.Valid, AisMsg.Bits;
    ghost var fs := StaticFields(s);
    StaticOffsets(s);
    StartEmpty(msg, fs);
    hide Has;
    ok := AddInt(msg, 24, 6, fs, 0);
    ok := AddInt(msg, RepeatField(s.repeat), 2, fs, 1);
    ok := AddInt(msg, UserIdField(s.userId), 30, fs, 2);
    ok := AddInt(msg, 0, 2, fs, 3);
    ok := AddText(msg, s.name, 120, fs, 4);
    ok := AddInt(msg, 0, 8, fs, 5);
  }

  method AddPartB(msg: AisMsg, s: Static) returns (ok: bool)
    requires Has(msg, StaticFields(s), 6)
    modifies msg, msg.payloadBin, msg.payloadBin2
    ensures ok && Has(msg, StaticFields(s), 9)
  {
    hide TextBits, FieldBits, Flatten, AisMsg.Valid, AisMsg.Bits, Has;
    ghost var fs := StaticFields(s);
    StaticOffsets(s);
    ok := AddInt(msg, s.vesselType, 8, fs, 6);
    ok := AddText(msg, s.vendor, 42, fs, 7);
    ok := AddText(msg, s.callsign, 42, fs, 8);
  }

  method AddSize(msg: AisMsg, s: Static) returns (ok: bool)
    requires Has(msg, StaticFields(s), 9)
    modifies msg, msg.payloadBin, msg.payloadBin2
    ensures ok && Has(msg, StaticFields(s), 14)
  {
    hide TextBits, FieldBits, Flatten, AisMsg.Valid, AisMsg.Bits, Has;
    ghost var fs := StaticFields(s);
    StaticOffsets(s);
    ok := AddInt(msg, s.toBow, 9, fs, 9);
    ok := AddInt(msg, s.toStern, 9, fs, 10);
    ok := AddInt(msg, s.toPort, 6, fs, 11);
    ok := AddInt(msg, s.toStarboard, 6, fs, 12);
    ok := AddInt(msg, 0, 6, fs, 13);
  }

  method SetAISClassBMessage24(msg: AisMsg, s: Static) returns (ok: bool)
    requires msg.Valid()
    modifies msg, msg.payloadBin, msg.payloadBin2, msg.payload
    ensures ok && msg.Valid() && msg.Bits() == Flatten(StaticFields(s)) && |msg.Bits()| == 296
  {
    msg.ClearAIS();
    hide TextBits, FieldBits, Flatten, AisMsg.Valid, AisMsg.Bits;
    StaticOffsets(s);
    ok := AddPartA(msg, s);
    ok := AddPartB(msg, s);
    ok := AddSize(msg, s);
    assert StaticFields(s)[..14] == StaticFields(s);
  }

  // ----- what the decoder makes of the two parts

  function PartABits(b: seq<bool>): seq<bool>
    requires |b| == 296
  {
    b[..168]
  }

  /** Part B repeats the head of the message, with the part number 1. */
  function PartBBits(b: seq<bool>): (p: seq<bool>)
    requires |b| == 296
    ensures |p| == 168
  {
    b[..39] + [true] + b[168..]
  }

  lemma StaticInts(s: Static)
    ensures var b := Flatten(StaticFields(s));
            && |b| == 296 && FieldAt(b, 0, 6) == 24 && FieldAt(b, 6, 2) == RepeatField(s.repeat)
            && FieldAt(b, 8, 30) == UserIdField(s.userId) && FieldAt(b, 38, 2) == 0 && FieldAt(b, 168, 8) == s.vesselType
            && FieldAt(b, 260, 9) == s.toBow && FieldAt(b, 269, 9) == s.toStern
            && FieldAt(b, 278, 6) == s.toPort && FieldAt(b, 284, 6) == s.toStarboard
  {
    hide TextBits, FieldBits, Flatten, FieldAt, Low;
    var fs := StaticFields(s);
    StaticOffsets(s);
    FieldSizes();
    IntFound(fs, 0, 0, 24, 6);
    IntFound(fs, 1, 6, RepeatField(s.repeat), 2);
    IntFound(fs, 2, 8, UserIdField(s.userId), 30);
    IntFound(fs, 3, 38, 0, 2);
    IntFound(fs, 6, 168, s.vesselType, 8);
    IntFound(fs, 9, 260, s.toBow, 9);
    IntFound(fs, 10, 269, s.toStern, 9);
    IntFound(fs, 11, 278, s.toPort, 6);
    IntFound(fs, 12, 284, s.toStarboard, 6);
  }

  lemma StaticTexts(s: Static)
    ensures var b := Flatten(StaticFields(s));
            && |b| == 296 && TextAt(b, 40, 120) == NormalText(s.name, 20)
            && TextAt(b, 218, 42) == NormalText(s.callsign, 7) && TextAt(b, 176, 18) == NormalText(s.vendor, 3)
  {
    hide TextBits, FieldBits, Flatten, TextAt, NormalText;
    var fs := StaticFields(s);
    StaticOffsets(s);
    TextFound(fs, 4, 40, s.name, 20);
    TextFound(fs, 8, 218, s.callsign, 7);
    BeginningFound(fs, 7, 176, s.vendor, 7, 3);
  }

  /** The first characters of a text field. */
  lemma BeginningFound(fs: seq<seq<bool>>, k: nat, at: nat, t: string, chars: nat, n: nat)
    requires k < |fs| && fs[k] == Text(t, chars) && at == Offset(fs, k) && n <= chars <= 20
    ensures at + 6 * chars <= |Flatten(fs)| && TextAt(Flatten(fs), at, 6 * n) == NormalText(t, n)
  {
    hide CleanText, SixBitText, NormalText, TextBits, Flatten, Offset;
    FieldFound(fs, k);
    var cut := Cut(t, chars);
    TextBitsPrefix(cut, chars, n);
    SliceSlice(Flatten(fs), at, at + 6 * chars, 0, 6 * n);
    TextRoundTrip(cut, n);
    CutTwice(t, chars, n);
  }

  lemma CutTwice(t: string, chars: nat, n: nat)
    requires n <= chars
    ensures NormalText(Cut(t, chars), n) == NormalText(t, n)
  {
    assert Cut(Cut(t, chars), n) == Cut(t, n);
  }

  lemma {:induction false} TextBitsPrefix(t: string, chars: nat, n: nat)
    requires n <= chars
    ensures TextBits(t, chars)[..6 * n] == TextBits(t, n)
    decreases n
  {
    if n > 0 {
      var rest := if t == [] then t else t[1..];
      TextBitsPrefix(rest, chars - 1, n - 1);
      FirstCharacter(t, chars);
      FirstCharacter(t, n);
      var b, c := TextBits(t, chars), TextBits(t, n);
      DropSlice(b, 6, 0, 6 * (n - 1));
      assert b[..6 * n] == b[0..6] + b[6..6 * n];
      assert c == c[0..6] + c[6..];
    }
  }

  /** De-armoured, a part is its bits and zeros behind them. */
  lemma PartInBuffer(part: seq<bool>)
    requires |part| == 168
    ensures |Armoured(part)| == 28 && |PlainBits(Armoured(part))| >= 168 && PlainBits(Armoured(part))[..168] == part
  {
    hide Armoured;
    ArmourRoundTrip(part);
    assert part[..168] == part;
  }

  lemma FieldInPart(b: seq<bool>, part: seq<bool>, i: nat, n: nat)
    requires i + n <= 168 <= |b| && b[..168] == part
    ensures FieldAt(b, i, n) == FieldAt(part, i, n)
    ensures TextAt(b, i, n) == TextAt(part, i, n)
  {
    hide FieldAt, TextAt;
    FieldOfPrefix(b, 168, i, n);
    TextOfPrefix(b, 168, i, n);
  }

  function ReportA(s: Static): Report {
    Type24A(24, RepeatField(s.repeat), UserIdField(s.userId), NormalText(s.name, 20))
  }

  /** What of the static data arrives, with part A and with part B. */
  ghost predicate StaticArrives(a: Report, b: Report, s: Static) {
    && a.Type24A? && b.Type24B? && a.msgType == b.msgType == 24
    && a.repeat == b.repeat == (if s.repeat <= 3 then s.repeat else 0)
    && a.mmsi == b.mmsi == (if s.userId <= 999999999 then s.userId else 0)
    && a.name == NormalText(s.name, 20) && b.callsign == NormalText(s.callsign, 7)
    && b.shipType == (if s.vesselType <= 99 then s.vesselType else 0)
    && b.toBow == s.toBow && b.toStern == s.toStern && b.toPort == s.toPort && b.toStarboard == s.toStarboard
    && b.vendor == NormalText(s.vendor, 3)
  }

  lemma PartAReport(s: Static)
    ensures |Flatten(StaticFields(s))| == 296
    ensures ReportOf(Armoured(PartABits(Flatten(StaticFields(s)))), 0) == Success(ReportA(s))
  {
    hide FieldAt, TextAt, Flatten, StaticFields, NormalText, Armoured, PlainBits;
    StaticInts(s);
    StaticTexts(s);
    var bits := Flatten(StaticFields(s));
    var part := PartABits(bits);
    PartInBuffer(part);
    var b := PlainBits(Armoured(part));
    forall i: nat, n: nat | i + n <= 168
      ensures FieldAt(b, i, n) == FieldAt(bits, i, n) && TextAt(b, i, n) == TextAt(bits, i, n)
    {
      FieldInPart(b, part, i, n);
      FieldInPart(bits, part, i, n);
    }
  }

  /** Of the vendor field only the first three characters are read as such. */
  function ReportB(s: Static): Report {
    Type24B(24, RepeatField(s.repeat), UserIdField(s.userId), NormalText(s.callsign, 7), ShipType(s.vesselType),
            s.toBow, s.toStern, s.toPort, s.toStarboard, NormalText(s.vendor, 3))
  }

  lemma HeadOfPartB(bits: seq<bool>, i: nat, n: nat)
    requires |bits| == 296 && i + n <= 38
    ensures FieldAt(PartBBits(bits), i, n) == FieldAt(bits, i, n)
  {
    hide FieldAt;
    var part := PartBBits(bits);
    FieldOfPrefix(part, 39, i, n);
    FieldOfPrefix(bits, 39, i, n);
    assert part[..39] == bits[..39];
  }

  lemma PartNumberB(bits: seq<bool>)
    requires |bits| == 296 && FieldAt(bits, 38, 2) == 0
    ensures FieldAt(PartBBits(bits), 38, 2) == 1
  {
    assert bits[38..40] == [bits[38], bits[39]] && PartBBits(bits)[38..40] == [bits[38], true];
    TwoBits(bits[38], bits[39]);
    TwoBits(bits[38], true);
  }

  lemma TwoBits(a: bool, b: bool)
    ensures Value([a, b]) == (if a then 2 else 0) + if b then 1 else 0
  {
    assert [a, b] == [a] + [b] && [a] == [] + [a];
    ValueSnoc([], a);
    ValueSnoc([a], b);
  }

  /** What stands behind the head of part B stood 128 bits further on. */
  lemma TailOfPartB(bits: seq<bool>, i: nat, n: nat)
    requires |bits| == 296 && 40 <= i && i + n <= 168
    ensures FieldAt(PartBBits(bits), i, n) == FieldAt(bits, i + 128, n)
    ensures n <= 384 ==> TextAt(PartBBits(bits), i, n) == TextAt(bits, i + 128, n)
  {
    hide CleanText, SixBitText;
    var part := PartBBits(bits);
    assert part[40..] == bits[168..];
    DropSlice(part, 40, i - 40, i - 40 + n);
    DropSlice(bits, 168, i - 40, i - 40 + n);
  }

  lemma PartBReport(s: Static)
    ensures |Flatten(StaticFields(s))| == 296
    ensures ReportOf(Armoured(PartBBits(Flatten(StaticFields(s)))), 0) == Success(ReportB(s))
  {
    hide FieldAt, TextAt, Flatten, StaticFields, NormalText, Armoured, PlainBits, PartBBits;
    StaticInts(s);
    StaticTexts(s);
    var bits := Flatten(StaticFields(s));
    var part := PartBBits(bits);
    PartInBuffer(part);
    var b := PlainBits(Armoured(part));
    forall i: nat, n: nat | i + n <= 168
      ensures FieldAt(b, i, n) == FieldAt(part, i, n) && TextAt(b, i, n) == TextAt(part, i, n)
    {
      FieldInPart(b, part, i, n);
    }
    HeadOfPartB(bits, 0, 6);
    HeadOfPartB(bits, 6, 2);
    HeadOfPartB(bits, 8, 30);
    PartNumberB(bits);
    TailOfPartB(bits, 40, 8);
    TailOfPartB(bits, 48, 18);
    TailOfPartB(bits, 90, 42);
    TailOfPartB(bits, 132, 9);
    TailOfPartB(bits, 141, 9);
    TailOfPartB(bits, 150, 6);
    TailOfPartB(bits, 156, 6);
  }

  /** The vendor comes back whole exactly if its normal form has no more than three characters. */
  lemma VendorWhole(s: Static)
    ensures NormalText(s.vendor, 3) == NormalText(s.vendor, 7) <==> |NormalText(s.vendor, 7)| <= 3
  {
    SendableOfCut(s.vendor, 7, 3);
    NormalTextMeaning(s.vendor, 3);
    NormalTextMeaning(s.vendor, 7);
    var r, q := NormalText(s.vendor, 3), NormalText(s.vendor, 7);
    if |q| <= 3 {
      ShorterTrim(Sendable(Cut(s.vendor, 7)), 3);
    }
  }

  /** A vendor of four characters does not. */
  lemma VendorCut()
    ensures NormalText("ABCD", 3) != NormalText("ABCD", 7)
  {
    NormalTextMeaning("ABCD", 3);
    SendableCapitals();
    assert TrimRight("ABCD") == "ABCD";
  }

  lemma SendableCapitals()
    ensures Sendable("ABCD") == "ABCD"
  {
    assert Sendable("D") == "D" by { assert "D"[1..] == ""; }
    assert Sendable("CD") == "CD" by { assert "CD"[1..] == "D"; }
    assert Sendable("BCD") == "BCD" by { assert "BCD"[1..] == "CD"; }
    assert "ABCD"[1..] == "BCD";
  }

  /** Cutting a text sooner cuts its sendable beginning. */
  lemma {:induction false} SendableOfCut(t: string, chars: nat, n: nat)
    requires n <= chars
    ensures Sendable(Cut(t, n)) == Cut(Sendable(Cut(t, chars)), n)
    decreases n
  {
    if n > 0 && t != [] {
      CutCons(t, n);
      CutCons(t, chars);
      SendableOfCut(t[1..], chars - 1, n - 1);
    }
  }

  lemma {:induction false} ShorterTrim(s: string, n: nat)
    requires |TrimRight(s)| <= n
    ensures TrimRight(Cut(s, n)) == TrimRight(s)
    decreases |s|
  {
    if |s| > n {
      ShorterTrim(s[..|s| - 1], n);
      assert Cut(s[..|s| - 1], n) == Cut(s, n);
    }
  }

  /** Both sentences' payloads, made from one message object, are decoded as the ship's static data. */
  method SendStatic(msg: AisMsg, decoder: BodyDecoder, s: Static) returns (a: Result<Report>, b: Result<Report>)
    requires msg.Valid() && decoder.buffer.data.Length == BUFFER_SIZE
    modifies msg, msg.payloadBin, msg.payloadBin2, msg.payload, decoder.buffer, decoder.buffer.data
    ensures a == Success(ReportA(s)) && b == Success(ReportB(s)) && StaticArrives(a.value, b.value, s)
  {
    hide Flatten, StaticFields, Armoured, ReportIn, ReportOf, AisMsg.Valid, PartBBits, Settled, Overwritten;
    PartAReport(s);
    PartBReport(s);
    var partA, partB := Payloads(msg, s);
    OtherReportSettled(partA, 0);
    OtherReportSettled(partB, 0);
    SettledReport(partA, 0, decoder.buffer.Bits());
    a := decoder.DecodeMobileAisMsg(partA, 0);
    SettledReport(partB, 0, decoder.buffer.Bits());
    b := decoder.DecodeMobileAisMsg(partB, 0);
  }

  method Payloads(msg: AisMsg, s: Static) returns (partA: string, partB: string)
    requires msg.Valid()
    modifies msg, msg.payloadBin, msg.payloadBin2, msg.payload
    ensures |Flatten(StaticFields(s))| == 296
    ensures partA == Armoured(PartABits(Flatten(StaticFields(s)))) && |partA| == 28
    ensures partB == Armoured(PartBBits(Flatten(StaticFields(s)))) && |partB| == 28
  {
    hide Flatten, StaticFields, Armoured, AisMsg.Valid;
    var ok := SetAISClassBMessage24(msg, s);
    var first := msg.GetPayloadType24PartA();
    var second := msg.GetPayloadType24PartB();
    partA, partB := first.value, second.value;
  }
}

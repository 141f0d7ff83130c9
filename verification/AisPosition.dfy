/** Messages 1 to 3 and 18 from the encoder through one sentence to the decoder's user:
    lib/nmea2ktoais/NMEA0183AISMessages.cpp, lines 81-114, 154-201 and 279-530. */
module AisPosition {
  import opened Sequences
  import opened Wrappers
  import opened Bits
  import opened AisAlphabet
  import opened AisEncoder
  import opened AisPayload
  import opened AisMessages
  import opened AisStale
  import opened AisVoyage
  import opened AisLayouts
  import opened Nmea
  import opened AisDecoder
  import opened AisEndToEnd
  import opened AisSentences

  // Numbers that a conversion from radians and metres per second has already brought into range.
  type Turn = x: int | -128 <= x < 128
  type Speed = x: int | 0 <= x < 1024
  type Longitude = x: int | -108600000 <= x <= 108600000
  type Latitude = x: int | -54600000 <= x <= 54600000
  type Course = x: int | 0 <= x <= 3600
  type Heading = x: int | 0 <= x < 512

  datatype Position = Position(
    messageType: byte, repeat: byte, userId: uint32, navStatus: byte, rot: Turn, sog: Speed, accuracy: bool,
    longitude: Longitude, latitude: Latitude, cog: Course, heading: Heading, seconds: byte, raim: bool)

  datatype ClassB = ClassB(
    messageId: byte, repeat: byte, userId: uint32, sog: Speed, accuracy: bool, longitude: Longitude,
    latitude: Latitude, cog: Course, heading: Heading, seconds: byte, unit: bool, display: bool, dsc: bool,
    band: bool, msg22: bool, mode: bool, raim: bool)

  // ----- validation of single fields

  function TypeField(messageType: byte): byte {
    if messageType > 24 then 1 else messageType
  }

  function StatusField(navStatus: byte): byte {
    if navStatus <= 15 then navStatus else 15
  }

  function SecondsField(seconds: byte): byte {
    if seconds <= 63 then seconds else 60
  }

  // ----- the fields of the messages

  function PositionFields(p: Position): (fields: Fields)
    ensures |fields| == 16
  {
    [BitsOf(TypeField(p.messageType), 6), BitsOf(RepeatField(p.repeat), 2), BitsOf(UserIdField(p.userId), 30),
     BitsOf(StatusField(p.navStatus), 4), BitsOf(p.rot, 8), BitsOf(p.sog, 10), FlagCode(p.accuracy),
     BitsOf(p.longitude, 28), BitsOf(p.latitude, 27), BitsOf(p.cog, 12), BitsOf(p.heading, 9),
     BitsOf(SecondsField(p.seconds), 6), BitsOf(0, 2), BitsOf(0, 3), FlagCode(p.raim), BitsOf(0, 19)]
  }

  function ClassBFields(p: ClassB): (fields: Fields)
    ensures |fields| == 20
  {
    [BitsOf(TypeField(p.messageId), 6), BitsOf(RepeatField(p.repeat), 2), BitsOf(UserIdField(p.userId), 30),
     BitsOf(0, 8), BitsOf(p.sog, 10), FlagCode(p.accuracy), BitsOf(p.longitude, 28), BitsOf(p.latitude, 27),
     BitsOf(p.cog, 12), BitsOf(p.heading, 9), BitsOf(SecondsField(p.seconds), 6), BitsOf(0, 2), FlagCode(p.unit),
     FlagCode(p.display), FlagCode(p.dsc), FlagCode(p.band), FlagCode(p.msg22), FlagCode(p.mode), FlagCode(p.raim),
     BitsOf(0, 20)]
  }

  lemma {:induction false} PositionPlaces(p: Position)
    ensures var fs := PositionFields(p);
            && At(fs, 0) == 0 && At(fs, 1) == 6 && At(fs, 2) == 8 && At(fs, 3) == 38 && At(fs, 4) == 42
            && At(fs, 5) == 50 && At(fs, 6) == 60 && At(fs, 7) == 61 && At(fs, 8) == 89 && At(fs, 9) == 116
            && At(fs, 10) == 128 && At(fs, 11) == 137 && At(fs, 12) == 143 && At(fs, 13) == 145 && At(fs, 14) == 148
            && At(fs, 15) == 149 && At(fs, 16) == 168 == |Flatten(fs)|
  {
    hide Flatten, BitsOf, FlagCode, At;
    var fs := PositionFields(p);
    FieldsLength(fs);
    AtStart(fs);
    AtNext(fs, 0); AtNext(fs, 1); AtNext(fs, 2); AtNext(fs, 3); AtNext(fs, 4);
    AtNext(fs, 5); AtNext(fs, 6); AtNext(fs, 7); AtNext(fs, 8); AtNext(fs, 9);
    AtNext(fs, 10); AtNext(fs, 11); AtNext(fs, 12); AtNext(fs, 13); AtNext(fs, 14);
    AtNext(fs, 15);
  }

  lemma {:induction false} ClassBPlaces(p: ClassB)
    ensures var fs := ClassBFields(p);
            && At(fs, 0) == 0 && At(fs, 1) == 6 && At(fs, 2) == 8 && At(fs, 3) == 38 && At(fs, 4) == 46
            && At(fs, 5) == 56 && At(fs, 6) == 57 && At(fs, 7) == 85 && At(fs, 8) == 112 && At(fs, 9) == 124
            && At(fs, 10) == 133 && At(fs, 11) == 139 && At(fs, 12) == 141 && At(fs, 13) == 142 && At(fs, 14) == 143
            && At(fs, 15) == 144 && At(fs, 16) == 145 && At(fs, 17) == 146 && At(fs, 18) == 147 && At(fs, 19) == 148
            && At(fs, 20) == 168 == |Flatten(fs)|
  {
    hide Flatten, BitsOf, FlagCode, At;
    var fs := ClassBFields(p);
    FieldsLength(fs);
    AtStart(fs);
    AtNext(fs, 0); AtNext(fs, 1); AtNext(fs, 2); AtNext(fs, 3); AtNext(fs, 4);
    AtNext(fs, 5); AtNext(fs, 6); AtNext(fs, 7); AtNext(fs, 8); AtNext(fs, 9);
    AtNext(fs, 10); AtNext(fs, 11); AtNext(fs, 12); AtNext(fs, 13); AtNext(fs, 14);
    AtNext(fs, 15); AtNext(fs, 16); AtNext(fs, 17); AtNext(fs, 18); AtNext(fs, 19);
  }

  // ----- encoding

  /** The message has the first `k` fields. */
  ghost predicate Holds(msg: AisMsg, fields: Fields, k: nat)
    reads msg, msg.payloadBin, msg.payload
  {
    k <= |fields| && msg.Valid() && msg.Bits() == Flatten(fields[..k]) && |msg.Bits()| == At(fields, k)
  }

  lemma {:induction false} HoldsNothing(msg: AisMsg, fields: Fields)
    requires msg.Valid() && msg.Bits() == []
    ensures Holds(msg, fields, 0)
  {
    assert fields[..0] == [];
  }

  lemma {:induction false} FieldsMore(fields: Fields, k: nat)
    requires k < |fields|
    ensures Flatten(fields[..k + 1]) == Flatten(fields[..k]) + fields[k]
    ensures At(fields, k + 1) == At(fields, k) + |fields[k]|
  {
    assert fields[..k + 1][..k] == fields[..k];
  }

  method Add(msg: AisMsg, ival: int32, n: nat, ghost fields: Fields, ghost k: nat) returns (ok: bool)
    requires k < |fields| && Holds(msg, fields, k) && n <= 30 && At(fields, k) + n <= 168
    requires fields[k] == BitsOf(ival, n)
    modifies msg, msg.payloadBin
    ensures ok && Holds(msg, fields, k + 1)
  {
    hide Flatten, BitsOf, FieldBits;
    FieldsMore(fields, k);
    FieldBitsShort(ival, n);
    ok := msg.AddIntToPayloadBin(ival, n);
  }

  method AddFlag(msg: AisMsg, bval: bool, ghost fields: Fields, ghost k: nat) returns (ok: bool)
    requires k < |fields| && Holds(msg, fields, k) && At(fields, k) + 1 <= 168 && fields[k] == FlagCode(bval)
    modifies msg, msg.payloadBin
    ensures ok && Holds(msg, fields, k + 1)
  {
    hide Flatten, FieldBits;
    FieldsMore(fields, k);
    FieldBitsShort(if bval then 1 else 0, 1);
    FlagBits(bval);
    ok := msg.AddBoolToPayloadBin(bval, 1);
  }

  lemma {:induction false} FlagBits(f: bool)
    ensures BitsOf(if f then 1 else 0, 1) == [f]
  {
    assert BitsOf(0, 0) == [];
  }

  method AddShipStatus(msg: AisMsg, p: Position) returns (ok: bool)
    requires msg.Valid() && msg.Bits() == []
    modifies msg, msg.payloadBin
    ensures ok && Holds(msg, PositionFields(p), 4)
  {
    hide Flatten, BitsOf, FlagCode, AisMsg.Valid, AisMsg.Bits, At, TypeField, RepeatField, UserIdField, StatusField;
    ghost var fs := PositionFields(p);
    PositionPlaces(p);
    HoldsNothing(msg, fs);
    hide Holds;
    ok := Add(msg, TypeField(p.messageType), 6, fs, 0);
    ok := Add(msg, RepeatField(p.repeat), 2, fs, 1);
    ok := Add(msg, UserIdField(p.userId), 30, fs, 2);
    ok := Add(msg, StatusField(p.navStatus), 4, fs, 3);
  }

  method AddMovement(msg: AisMsg, p: Position) returns (ok: bool)
    requires Holds(msg, PositionFields(p), 4)
    modifies msg, msg.payloadBin
    ensures ok && Holds(msg, PositionFields(p), 8)
  {
    hide Flatten, BitsOf, FlagCode, AisMsg.Valid, AisMsg.Bits, At, Holds;
    ghost var fs := PositionFields(p);
    PositionPlaces(p);
    ok := Add(msg, p.rot, 8, fs, 4);
    ok := Add(msg, p.sog, 10, fs, 5);
    ok := AddFlag(msg, p.accuracy, fs, 6);
    ok := Add(msg, p.longitude, 28, fs, 7);
  }

  method AddRest(msg: AisMsg, p: Position) returns (ok: bool)
    requires Holds(msg, PositionFields(p), 8)
    modifies msg, msg.payloadBin
    ensures ok && Holds(msg, PositionFields(p), 16)
  {
    hide Flatten, BitsOf, FlagCode, AisMsg.Valid, AisMsg.Bits, Holds, At, SecondsField;
    ghost var fs := PositionFields(p);
    PositionPlaces(p);
    ok := Add(msg, p.latitude, 27, fs, 8);
    ok := Add(msg, p.cog, 12, fs, 9);
    ok := Add(msg, p.heading, 9, fs, 10);
    ok := Add(msg, SecondsField(p.seconds), 6, fs, 11);
    ok := Add(msg, 0, 2, fs, 12);
    ok := Add(msg, 0, 3, fs, 13);
    ok := AddFlag(msg, p.raim, fs, 14);
    ok := Add(msg, 0, 19, fs, 15);
  }

  /** The position report of class A; what is handed over is the payload. */
  method SetAISClassABMessage1(msg: AisMsg, p: Position) returns (payload: string)
    requires msg.Valid()
    modifies msg, msg.payloadBin, msg.payloadBin2, msg.payload
    ensures msg.Valid() && msg.Bits() == Flatten(PositionFields(p)) && payload == Sent(PositionFields(p), 0)
  {
    msg.ClearAIS();
    hide Flatten, BitsOf, FlagCode, AisMsg.Valid, AisMsg.Bits, Armoured, PositionFields;
    var ok := AddShipStatus(msg, p);
    ok := AddMovement(msg, p);
    ok := AddRest(msg, p);
    PositionPlaces(p);
    assert PositionFields(p)[..16] == PositionFields(p);
    payload := PayloadOf(msg, PositionFields(p));
  }

  method PayloadOf(msg: AisMsg, ghost fields: Fields) returns (payload: string)
    requires msg.Valid() && msg.Bits() == Flatten(fields) && |msg.Bits()| == 168
    modifies msg.payload
    ensures msg.Valid() && msg.Bits() == old(msg.Bits()) && payload == Sent(fields, 0)
  {
    hide Flatten, AisMsg.Valid, AisMsg.Bits, Armoured;
    var r := msg.GetPayload();
    payload := r.value;
    assert Flatten(fields) + Zeros(0) == Flatten(fields);
  }

  method AddBShip(msg: AisMsg, p: ClassB) returns (ok: bool)
    requires msg.Valid() && msg.Bits() == []
    modifies msg, msg.payloadBin
    ensures ok && Holds(msg, ClassBFields(p), 4)
  {
    hide Flatten, BitsOf, FlagCode, AisMsg.Valid, AisMsg.Bits, At, TypeField, RepeatField, UserIdField;
    ghost var fs := ClassBFields(p);
    ClassBPlaces(p);
    HoldsNothing(msg, fs);
    hide Holds;
    ok := Add(msg, TypeField(p.messageId), 6, fs, 0);
    ok := Add(msg, RepeatField(p.repeat), 2, fs, 1);
    ok := Add(msg, UserIdField(p.userId), 30, fs, 2);
    ok := Add(msg, 0, 8, fs, 3);
  }

  method AddBMovement(msg: AisMsg, p: ClassB) returns (ok: bool)
    requires Holds(msg, ClassBFields(p), 4)
    modifies msg, msg.payloadBin
    ensures ok && Holds(msg, ClassBFields(p), 10)
  {
    hide Flatten, BitsOf, FlagCode, AisMsg.Valid, AisMsg.Bits, At, Holds;
    ghost var fs := ClassBFields(p);
    ClassBPlaces(p);
    ok := Add(msg, p.sog, 10, fs, 4);
    ok := AddFlag(msg, p.accuracy, fs, 5);
    ok := Add(msg, p.longitude, 28, fs, 6);
    ok := Add(msg, p.latitude, 27, fs, 7);
    ok := Add(msg, p.cog, 12, fs, 8);
    ok := Add(msg, p.heading, 9, fs, 9);
  }

  method AddBFlags(msg: AisMsg, p: ClassB) returns (ok: bool)
    requires Holds(msg, ClassBFields(p), 10)
    modifies msg, msg.payloadBin
    ensures ok && Holds(msg, ClassBFields(p), 20)
  {
    hide Flatten, BitsOf, FlagCode, AisMsg.Valid, AisMsg.Bits, Holds, At, SecondsField;
    ghost var fs := ClassBFields(p);
    ClassBPlaces(p);
    ok := Add(msg, SecondsField(p.seconds), 6, fs, 10);
    ok := Add(msg, 0, 2, fs, 11);
    ok := AddFlag(msg, p.unit, fs, 12);
    ok := AddFlag(msg, p.display, fs, 13);
    ok := AddFlag(msg, p.dsc, fs, 14);
    ok := AddFlag(msg, p.band, fs, 15);
    ok := AddFlag(msg, p.msg22, fs, 16);
    ok := AddFlag(msg, p.mode, fs, 17);
    ok := AddFlag(msg, p.raim, fs, 18);
    ok := Add(msg, 0, 20, fs, 19);
  }

  /** The position report of class B. */
  method SetAISClassBMessage18(msg: AisMsg, p: ClassB) returns (payload: string)
    requires msg.Valid()
    modifies msg, msg.payloadBin, msg.payloadBin2, msg.payload
    ensures msg.Valid() && msg.Bits() == Flatten(ClassBFields(p)) && payload == Sent(ClassBFields(p), 0)
  {
    msg.ClearAIS();
    hide Flatten, BitsOf, FlagCode, AisMsg.Valid, AisMsg.Bits, Armoured, ClassBFields;
    var ok := AddBShip(msg, p);
    ok := AddBMovement(msg, p);
    ok := AddBFlags(msg, p);
    ClassBPlaces(p);
    assert ClassBFields(p)[..20] == ClassBFields(p);
    payload := PayloadOf(msg, ClassBFields(p));
  }

  // ----- what arrives

  /** What of a position arrives. A message type above 24 is sent as 1, a repeat above 3 and an MMSI of more than nine
      digits as 0, an unknown status as 15 and seconds above 63 as 60. */
  ghost predicate PositionArrives(r: Report, p: Position) {
    && r.Type123? && r.msgType == (if p.messageType > 24 then 1 else p.messageType)
    && r.repeat == (if p.repeat <= 3 then p.repeat else 0)
    && r.mmsi == (if p.userId <= 999999999 then p.userId else 0)
    && r.navstatus == (if p.navStatus <= 15 then p.navStatus else 15)
    && r.rot == p.rot && r.sog == p.sog && r.posAccuracy == p.accuracy
    && r.posLon == p.longitude && r.posLat == p.latitude && r.cog == p.cog && r.heading == p.heading
    && r.timestamp == (if p.seconds <= 63 then p.seconds else 60) && r.maneuver == 0 && r.raim == p.raim
  }

  ghost predicate ClassBArrives(r: Report, p: ClassB) {
    && r.Type18? && r.msgType == 18
    && r.repeat == (if p.repeat <= 3 then p.repeat else 0)
    && r.mmsi == (if p.userId <= 999999999 then p.userId else 0)
    && r.sog == p.sog && r.posAccuracy == p.accuracy
    && r.posLon == p.longitude && r.posLat == p.latitude && r.cog == p.cog && r.heading == p.heading
    && r.timestamp == (if p.seconds <= 63 then p.seconds else 60)
    && r.unit == p.unit && r.display == p.display && r.dsc == p.dsc && r.band == p.band && r.msg22 == p.msg22
    && r.assignedMode == p.mode && r.raim == p.raim && r.state == false
  }

  /** The payload of a position is reported as that position. */
  lemma {:induction false} PositionRoundTrip(p: Position)
    requires 1 <= p.messageType <= 3 || p.messageType > 24
    ensures var r := ReportOf(Sent(PositionFields(p), 0), 0);
            r.Success? && PositionArrives(r.value, p) && Settled(Sent(PositionFields(p), 0), 0)
  {
    hide Flatten, BitsOf, FlagCode, ReportOf, Sent, Settled;
    PositionReported(PositionFields(p), TypeField(p.messageType), RepeatField(p.repeat), UserIdField(p.userId),
                     StatusField(p.navStatus), p.rot, p.sog, p.accuracy, p.longitude, p.latitude, p.cog, p.heading,
                     SecondsField(p.seconds), 0, 0, p.raim, 0);
    OtherReportSettled(Sent(PositionFields(p), 0), 0);
  }

  lemma ShipRanges(messageType: byte, repeat: byte, userId: uint32, seconds: byte)
    ensures 0 <= RepeatField(repeat) < 4 && 0 <= UserIdField(userId) < 0x4000_0000 && 0 <= SecondsField(seconds) < 64
    ensures TypeField(messageType) <= 24 && (messageType == 18 ==> TypeField(messageType) == 18)
  {
  }

  lemma {:induction false} ClassBReport(p: ClassB)
    requires p.messageId == 18
    ensures ReportOf(Sent(ClassBFields(p), 0), 0)
         == Success(Type18(18, UserIdField(p.userId), p.sog, p.accuracy, p.longitude, p.latitude, p.cog, p.heading,
                    p.raim, RepeatField(p.repeat), p.unit, p.display, p.dsc, p.band, p.msg22, p.mode,
                    SecondsField(p.seconds), false))
  {
    hide Flatten, BitsOf, FlagCode, ReportOf, Sent, TypeField, RepeatField, UserIdField, SecondsField;
    ShipRanges(p.messageId, p.repeat, p.userId, p.seconds);
    ClassBReported(ClassBFields(p), RepeatField(p.repeat), UserIdField(p.userId), 0, p.sog, p.accuracy, p.longitude,
                   p.latitude, p.cog, p.heading, SecondsField(p.seconds), 0, p.unit, p.display, p.dsc, p.band,
                   p.msg22, p.mode, p.raim, 0);
  }

  lemma ClassBRoundTrip(p: ClassB)
    requires p.messageId == 18
    ensures var r := ReportOf(Sent(ClassBFields(p), 0), 0);
            r.Success? && ClassBArrives(r.value, p) && Settled(Sent(ClassBFields(p), 0), 0)
  {
    hide ClassBFields, ReportOf, Sent, Settled;
    ClassBReport(p);
    OtherReportSettled(Sent(ClassBFields(p), 0), 0);
  }

  /** Such a payload can be written into a sentence. */
  lemma {:induction false} SentPlain(fields: Fields)
    requires |Flatten(fields)| == 168
    ensures |Sent(fields, 0)| == 28 && NoComma(Sent(fields, 0))
  {
    hide Flatten;
    ArmouredChars(Flatten(fields) + Zeros(0));
  }

  /** A position is sent in a sentence on channel A and reported as that position, whatever the decoder did before. */
  method SendPosition(msg: AisMsg, decoder: AisDecoder, p: Position, line: string, header: string, footer: string,
                      address: nat) returns (ghost r: Report)
    requires msg.Valid() && decoder.Valid() && |line| > 2 && (1 <= p.messageType <= 3 || p.messageType > 24)
    modifies msg, msg.payloadBin, msg.payloadBin2, msg.payload
    modifies decoder, decoder.store, decoder.Objects(), decoder.body.buffer, decoder.body.buffer.data
    ensures decoder.Valid() && decoder.slots == old(decoder.slots) && PositionArrives(r, p)
    ensures decoder.events == old(decoder.events)
                              + [OnSentence(line), OnMessage(Sent(PositionFields(p), 0), header, footer), OnReport(r)]
  {
    hide Flatten, Sent, PositionFields, PositionArrives, AisDecoder.Valid, AisMsg.Valid, AisMsg.Bits, ReportOf,
      ReportIn, Settled, Overwritten;
    PositionRoundTrip(p);
    PositionPlaces(p);
    SentPlain(PositionFields(p));
    var payload := EncodePosition(msg, decoder, p);
    r := ReportOf(payload, 0).value;
    SendSentence(decoder, line, "A", payload, 0, header, footer, address);
  }

  method EncodePosition(msg: AisMsg, ghost decoder: AisDecoder, p: Position) returns (payload: string)
    requires msg.Valid() && decoder.Valid()
    modifies msg, msg.payloadBin, msg.payloadBin2, msg.payload
    ensures payload == Sent(PositionFields(p), 0)
    ensures decoder.Valid() && decoder.slots == old(decoder.slots) && decoder.events == old(decoder.events)
  {
    hide MultiSentence.HeldListed, Distinct, Sent, PositionFields;
    payload := SetAISClassABMessage1(msg, p);
  }

  /** The same for class B, on channel B. */
  method SendClassB(msg: AisMsg, decoder: AisDecoder, p: ClassB, line: string, header: string, footer: string,
                    address: nat) returns (ghost r: Report)
    requires msg.Valid() && decoder.Valid() && |line| > 2 && p.messageId == 18
    modifies msg, msg.payloadBin, msg.payloadBin2, msg.payload
    modifies decoder, decoder.store, decoder.Objects(), decoder.body.buffer, decoder.body.buffer.data
    ensures decoder.Valid() && decoder.slots == old(decoder.slots) && ClassBArrives(r, p)
    ensures decoder.events == old(decoder.events)
                              + [OnSentence(line), OnMessage(Sent(ClassBFields(p), 0), header, footer), OnReport(r)]
  {
    hide Flatten, Sent, ClassBFields, ClassBArrives, AisDecoder.Valid, AisMsg.Valid, AisMsg.Bits, ReportOf,
      ReportIn, Settled, Overwritten;
    ClassBRoundTrip(p);
    ClassBPlaces(p);
    SentPlain(ClassBFields(p));
    var payload := EncodeClassB(msg, decoder, p);
    r := ReportOf(payload, 0).value;
    SendSentence(decoder, line, "B", payload, 0, header, footer, address);
  }

  method EncodeClassB(msg: AisMsg, ghost decoder: AisDecoder, p: ClassB) returns (payload: string)
    requires msg.Valid() && decoder.Valid()
    modifies msg, msg.payloadBin, msg.payloadBin2, msg.payload
    ensures payload == Sent(ClassBFields(p), 0)
    ensures decoder.Valid() && decoder.slots == old(decoder.slots) && decoder.events == old(decoder.events)
  {
    hide MultiSentence.HeldListed, Distinct, Sent, ClassBFields;
    payload := SetAISClassBMessage18(msg, p);
  }
}

/** The message bodies: what the decoder hands to its user.
    lib/aisparser/ais_decoder.cpp, lines 402-782; field positions as in ITU-R M.1371-5, Annex 8. */
module AisMessages {
  import opened Sequences
  import opened Wrappers
  import opened Bits
  import opened AisAlphabet
  import opened AisPayload
  import opened AisDearmour

  const INVALID_SIZE := "Invalid payload size."
  const INVALID_SIZE_27 := "Invalid payload size"
  const INVALID_PART := "Invalid part number."
  const INVALID_TYPE := "Invalid message type."

  /** A call of the decoder's user. */
  datatype Report =
    | Type123(msgType: nat, mmsi: nat, navstatus: nat, rot: int, sog: nat, posAccuracy: bool, posLon: int,
              posLat: int, cog: nat, heading: nat, repeat: nat, raim: bool, timestamp: nat, maneuver: nat)
    | Type411(msgType: nat, mmsi: nat, year: nat, month: nat, day: nat, hour: nat, minute: nat, second: nat,
              posAccuracy: bool, posLon: int, posLat: int)
    | Type5(msgType: nat, mmsi: nat, imo: nat, callsign: string, name: string, shipType: nat,
            toBow: nat, toStern: nat, toPort: nat, toStarboard: nat, fixType: nat, etaMonth: nat, etaDay: nat,
            etaHour: nat, etaMinute: nat, draught: nat, destination: string, aisVersion: nat, repeat: nat, dte: bool)
    | Type9(mmsi: nat, sog: nat, posAccuracy: bool, posLon: int, posLat: int, cog: nat, altitude: nat)
    | Type14(repeat: nat, mmsi: nat, text: string, size: int)
    | Type18(msgType: nat, mmsi: nat, sog: nat, posAccuracy: bool, posLon: int, posLat: int, cog: nat, heading: nat,
             raim: bool, repeat: nat, unit: bool, display: bool, dsc: bool, band: bool, msg22: bool, assignedMode: bool,
             timestamp: nat, state: bool)
    | Type19(mmsi: nat, sog: nat, posAccuracy: bool, posLon: int, posLat: int, cog: nat, heading: nat, name: string,
             shipType: nat, toBow: nat, toStern: nat, toPort: nat, toStarboard: nat, timestamp: nat, fixType: nat,
             dte: bool, assignedMode: bool, repeat: nat, raim: bool)
    | Type21(mmsi: nat, aidType: nat, name: string, posAccuracy: bool, posLon: int, posLat: int,
             toBow: nat, toStern: nat, toPort: nat, toStarboard: nat)
    | Type24A(msgType: nat, repeat: nat, mmsi: nat, name: string)
    | Type24B(msgType: nat, repeat: nat, mmsi: nat, callsign: string, shipType: nat, toBow: nat, toStern: nat,
              toPort: nat, toStarboard: nat, vendor: string)
    | Type27(mmsi: nat, navstatus: nat, sog: nat, posAccuracy: bool, posLon: int, posLat: int, cog: nat)
    | NotDecoded(msgType: nat)

  // ----- the reports as functions of the bits of a message

  function Flag(b: seq<bool>, i: nat): bool
    requires i + 1 <= |b|
  {
    FieldAt(b, i, 1) != 0
  }

  /** Ship types above 99 are not reported. */
  function ShipType(v: nat): nat {
    if v > 99 then 0 else v
  }

  function Type123Of(b: seq<bool>, msgType: nat): Report
    requires |b| >= 168
  {
    Type123(msgType, FieldAt(b, 8, 30), FieldAt(b, 38, 4), SignedFieldAt(b, 42, 8), FieldAt(b, 50, 10), Flag(b, 60),
            SignedFieldAt(b, 61, 28), SignedFieldAt(b, 89, 27), FieldAt(b, 116, 12), FieldAt(b, 128, 9),
            FieldAt(b, 6, 2), Flag(b, 148), FieldAt(b, 137, 6), FieldAt(b, 143, 2))
  }

  function Type411Of(b: seq<bool>, msgType: nat): Report
    requires |b| >= 168
  {
    Type411(msgType, FieldAt(b, 8, 30), FieldAt(b, 38, 14), FieldAt(b, 52, 4), FieldAt(b, 56, 5), FieldAt(b, 61, 5),
            FieldAt(b, 66, 6), FieldAt(b, 72, 6), Flag(b, 78), SignedFieldAt(b, 79, 28), SignedFieldAt(b, 107, 27))
  }

  function Type5Of(b: seq<bool>, msgType: nat): Report
    requires |b| >= 424
  {
    Type5(msgType, FieldAt(b, 8, 30), FieldAt(b, 40, 30), TextAt(b, 70, 42), TextAt(b, 112, 120),
          ShipType(FieldAt(b, 232, 8)), FieldAt(b, 240, 9), FieldAt(b, 249, 9), FieldAt(b, 258, 6), FieldAt(b, 264, 6),
          FieldAt(b, 270, 4), FieldAt(b, 274, 4), FieldAt(b, 278, 5), FieldAt(b, 283, 5), FieldAt(b, 288, 6),
          FieldAt(b, 294, 8), TextAt(b, 302, 120), FieldAt(b, 38, 2), FieldAt(b, 6, 2), Flag(b, 422))
  }

  function Type9Of(b: seq<bool>): Report
    requires |b| >= 168
  {
    Type9(FieldAt(b, 8, 30), FieldAt(b, 50, 10), Flag(b, 60), SignedFieldAt(b, 61, 28), SignedFieldAt(b, 89, 27),
          FieldAt(b, 116, 12), FieldAt(b, 38, 12))
  }

  /** The text is read as far as the size of the message says, less 34 bits. */
  function Type14Of(b: seq<bool>, size: int): Report
    requires 40 < size < 1009 && size + 6 <= |b|
  {
    Type14(FieldAt(b, 6, 2), FieldAt(b, 8, 30), TextAt(b, 40, size - 34), size)
  }

  function Type18Of(b: seq<bool>, msgType: nat): Report
    requires |b| >= 168
  {
    Type18(msgType, FieldAt(b, 8, 30), FieldAt(b, 46, 10), Flag(b, 56), SignedFieldAt(b, 57, 28),
           SignedFieldAt(b, 85, 27), FieldAt(b, 112, 12), FieldAt(b, 124, 9), Flag(b, 147), FieldAt(b, 6, 2),
           Flag(b, 141), Flag(b, 142), Flag(b, 143), Flag(b, 144), Flag(b, 145), Flag(b, 146), FieldAt(b, 133, 6),
           FieldAt(b, 148, 20) != 0)
  }

  function Type19Of(b: seq<bool>): Report
    requires |b| >= 312
  {
    Type19(FieldAt(b, 8, 30), FieldAt(b, 46, 10), Flag(b, 56), SignedFieldAt(b, 57, 28), SignedFieldAt(b, 85, 27),
           FieldAt(b, 112, 12), FieldAt(b, 124, 9), TextAt(b, 143, 120), ShipType(FieldAt(b, 263, 8)),
           FieldAt(b, 271, 9), FieldAt(b, 280, 9), FieldAt(b, 289, 6), FieldAt(b, 295, 6), FieldAt(b, 133, 6),
           FieldAt(b, 301, 4), Flag(b, 306), Flag(b, 307), FieldAt(b, 6, 2), Flag(b, 305))
  }

  /** A longer message has an extension of the name, of which fourteen characters are read. */
  function Type21Of(b: seq<bool>, size: int): Report
    requires |b| >= 360
  {
    Type21(FieldAt(b, 8, 30), FieldAt(b, 38, 5), TextAt(b, 43, 120) + (if size > 272 then TextAt(b, 272, 88) else []),
           Flag(b, 163), SignedFieldAt(b, 164, 28), SignedFieldAt(b, 192, 27), FieldAt(b, 219, 9), FieldAt(b, 228, 9),
           FieldAt(b, 237, 6), FieldAt(b, 243, 6))
  }

  function Type24AOf(b: seq<bool>, msgType: nat): Report
    requires |b| >= 168
  {
    Type24A(msgType, FieldAt(b, 6, 2), FieldAt(b, 8, 30), TextAt(b, 40, 120))
  }

  function Type24BOf(b: seq<bool>, msgType: nat): Report
    requires |b| >= 168
  {
    Type24B(msgType, FieldAt(b, 6, 2), FieldAt(b, 8, 30), TextAt(b, 90, 42), ShipType(FieldAt(b, 40, 8)),
            FieldAt(b, 132, 9), FieldAt(b, 141, 9), FieldAt(b, 150, 6), FieldAt(b, 156, 6), TextAt(b, 48, 18))
  }

  function Type27Of(b: seq<bool>): Report
    requires |b| >= 96
  {
    Type27(FieldAt(b, 8, 30), FieldAt(b, 40, 4), FieldAt(b, 79, 6), Flag(b, 38), SignedFieldAt(b, 44, 18),
           SignedFieldAt(b, 62, 17), FieldAt(b, 85, 9))
  }

  /** Whole 64-bit words, at least one more than the message needs. */
  predicate Padded(b: seq<bool>, size: int) {
    |b| % 64 == 0 && |b| > 64 && size + 64 < |b|
  }

  /** The report of a message of the given type whose bits are `b`, of which `size` are used. */
  function BodyOf(b: seq<bool>, t: nat, size: int): Result<Report>
    requires Padded(b, size)
  {
    if t == 1 || t == 2 || t == 3 then
      if size < 168 then Failure(INVALID_SIZE) else Success(Type123Of(b, t))
    else if t == 4 || t == 11 then
      if size < 168 then Failure(INVALID_SIZE) else Success(Type411Of(b, t))
    else if t == 5 then
      if size < 420 then Failure(INVALID_SIZE) else Success(Type5Of(b, t))
    else if t == 9 then
      if size < 168 then Failure(INVALID_SIZE) else Success(Type9Of(b))
    else if t == 14 then
      if !(40 < size < 1009) then Failure(INVALID_SIZE) else Success(Type14Of(b, size))
    else if t == 18 then
      if size < 168 then Failure(INVALID_SIZE) else Success(Type18Of(b, t))
    else if t == 19 then
      if size < 312 then Failure(INVALID_SIZE) else Success(Type19Of(b))
    else if t == 21 then
      if size < 272 then Failure(INVALID_SIZE) else Success(Type21Of(b, size))
    else if t == 24 then
      var part := FieldAt(b, 38, 2);
      if part == 0 then
        if size < 160 then Failure(INVALID_SIZE) else Success(Type24AOf(b, t))
      else if part == 1 then
        if size < 168 then Failure(INVALID_SIZE) else Success(Type24BOf(b, t))
      else Failure(INVALID_PART)
    else if t == 27 then
      if size < 96 then Failure(INVALID_SIZE_27) else Success(Type27Of(b))
    else Success(NotDecoded(t))
  }

  /** What is reported when the buffer holds `b` and the first bits of it are those of the payload. */
  function ReportIn(b: seq<bool>, payload: string, fillBits: int): Result<Report>
    requires fillBits >= 0 && Padded(b, 6 * |payload|)
  {
    var t := FieldAt(b, 0, 6);
    if t == 0 || t > 27 then Failure(INVALID_TYPE) else BodyOf(b, t, 6 * |payload| - fillBits)
  }

  lemma PlainLength(n: nat)
    ensures var length := 8 * FlushedBytes(n) + 64;
            length % 64 == 0 && length > 64 && 6 * n + 64 < length
  {
  }

  /** The bits of the payload with nothing but zeros behind them. */
  function PlainBits(payload: string): (b: seq<bool>)
    ensures Padded(b, 6 * |payload|)
  {
    PlainLength(|payload|);
    PaddedBits(payload) + Zeros(64)
  }

  /** What the buffer holds after a payload was put into it: the bits of the payload and the zeros that fill its last
      word, and behind them what was there before. */
  function Overwritten(bits: seq<bool>, payload: string): (b: seq<bool>)
    requires 8 * FlushedBytes(|payload|) <= |bits|
    ensures |b| == |bits|
  {
    PaddedBits(payload) + bits[8 * FlushedBytes(|payload|)..]
  }

  /** What a message means by itself. */
  function ReportOf(payload: string, fillBits: int): Result<Report>
    requires fillBits >= 0
  {
    ReportIn(PlainBits(payload), payload, fillBits)
  }

  /** A field inside the first `m` bits does not depend on what follows them. */
  lemma FieldOfPrefix(b: seq<bool>, m: nat, i: nat, n: nat)
    requires i + n <= m <= |b|
    ensures FieldAt(b, i, n) == FieldAt(b[..m], i, n)
    ensures n > 0 ==> SignedFieldAt(b, i, n) == SignedFieldAt(b[..m], i, n)
  {
    PrefixSlice(b, m, i, i + n);
  }

  lemma TextOfPrefix(b: seq<bool>, m: nat, i: nat, n: nat)
    requires i + n <= m <= |b|
    ensures TextAt(b, i, n) == TextAt(b[..m], i, n)
  {
    hide CleanText, SixBitText;
    PrefixSlice(b, m, i, i + n);
    if n / 6 > 64 { PrefixSlice(b, m, i, i + 6 * 64); }
  }

  lemma BitsKept(d: seq<byte>, d': seq<byte>, n: nat)
    requires n <= |d| == |d'| && d[n..] == d'[n..]
    ensures ByteBits(d)[8 * n..] == ByteBits(d')[8 * n..]
  {
    hide ByteBits;
    assert d[n..|d|] == d[n..] && d'[n..|d|] == d'[n..];
    ByteBitsSlice(d, n, |d|);
    ByteBitsSlice(d', n, |d|);
    assert ByteBits(d)[8 * n..] == ByteBits(d)[8 * n..8 * |d|];
    assert ByteBits(d')[8 * n..] == ByteBits(d')[8 * n..8 * |d|];
  }

  // ----- the decoding methods

  /** Room for the words written for every payload of up to five sentences; the program declares 308 bytes. */
  const BUFFER_SIZE := 320

  class BodyDecoder {
    const buffer: PayloadBuffer

    constructor ()
      ensures fresh(buffer) && fresh(buffer.data) && buffer.data.Length == BUFFER_SIZE
    {
      buffer := new PayloadBuffer(BUFFER_SIZE);
    }

    ghost predicate AfterType()
      reads buffer
    {
      buffer.data.Length == BUFFER_SIZE && buffer.bitIndex == 6
    }

    // Runs of fields that several messages share.

    method GetHeader() returns (repeat: nat, mmsi: nat)
      requires AfterType()
      modifies buffer
      ensures buffer.bitIndex == 38
      ensures repeat == FieldAt(buffer.Bits(), 6, 2) && mmsi == FieldAt(buffer.Bits(), 8, 30)
    {
      repeat := buffer.GetUnsignedValue(2);
      mmsi := buffer.GetUnsignedValue(30);
    }

    method GetPosition() returns (posAccuracy: bool, posLon: int, posLat: int)
      requires buffer.data.Length == BUFFER_SIZE && buffer.bitIndex <= 424
      modifies buffer
      ensures buffer.bitIndex == old(buffer.bitIndex) + 56
      ensures posAccuracy == Flag(buffer.Bits(), old(buffer.bitIndex))
      ensures posLon == SignedFieldAt(buffer.Bits(), old(buffer.bitIndex) + 1, 28)
      ensures posLat == SignedFieldAt(buffer.Bits(), old(buffer.bitIndex) + 29, 27)
    {
      posAccuracy := buffer.GetBoolValue();
      posLon := buffer.GetSignedValue(28);
      posLat := buffer.GetSignedValue(27);
    }

    method GetCourse() returns (cog: nat, heading: nat, timestamp: nat)
      requires buffer.data.Length == BUFFER_SIZE && buffer.bitIndex <= 424
      modifies buffer
      ensures buffer.bitIndex == old(buffer.bitIndex) + 27
      ensures cog == FieldAt(buffer.Bits(), old(buffer.bitIndex), 12)
      ensures heading == FieldAt(buffer.Bits(), old(buffer.bitIndex) + 12, 9)
      ensures timestamp == FieldAt(buffer.Bits(), old(buffer.bitIndex) + 21, 6)
    {
      cog := buffer.GetUnsignedValue(12);
      heading := buffer.GetUnsignedValue(9);
      timestamp := buffer.GetUnsignedValue(6);
    }

    method GetDimensions() returns (toBow: nat, toStern: nat, toPort: nat, toStarboard: nat)
      requires buffer.data.Length == BUFFER_SIZE && buffer.bitIndex <= 424
      modifies buffer
      ensures buffer.bitIndex == old(buffer.bitIndex) + 30
      ensures toBow == FieldAt(buffer.Bits(), old(buffer.bitIndex), 9)
      ensures toStern == FieldAt(buffer.Bits(), old(buffer.bitIndex) + 9, 9)
      ensures toPort == FieldAt(buffer.Bits(), old(buffer.bitIndex) + 18, 6)
      ensures toStarboard == FieldAt(buffer.Bits(), old(buffer.bitIndex) + 24, 6)
    {
      toBow := buffer.GetUnsignedValue(9);
      toStern := buffer.GetUnsignedValue(9);
      toPort := buffer.GetUnsignedValue(6);
      toStarboard := buffer.GetUnsignedValue(6);
    }

    /** Four fields in a row: a date and a time of day, for one. */
    method GetFour(a: nat, b: nat, c: nat, d: nat) returns (va: nat, vb: nat, vc: nat, vd: nat)
      requires buffer.data.Length == BUFFER_SIZE && buffer.bitIndex <= 424
      requires 1 <= a <= 20 && 1 <= b <= 20 && 1 <= c <= 20 && 1 <= d <= 20
      modifies buffer
      ensures buffer.bitIndex == old(buffer.bitIndex) + a + b + c + d
      ensures va == FieldAt(buffer.Bits(), old(buffer.bitIndex), a)
      ensures vb == FieldAt(buffer.Bits(), old(buffer.bitIndex) + a, b)
      ensures vc == FieldAt(buffer.Bits(), old(buffer.bitIndex) + a + b, c)
      ensures vd == FieldAt(buffer.Bits(), old(buffer.bitIndex) + a + b + c, d)
    {
      hide FieldAt, SignedFieldAt, TextAt;
      va := buffer.GetUnsignedValue(a);
      vb := buffer.GetUnsignedValue(b);
      vc := buffer.GetUnsignedValue(c);
      vd := buffer.GetUnsignedValue(d);
    }

    method GetThreeFlags() returns (a: bool, b: bool, c: bool)
      requires buffer.data.Length == BUFFER_SIZE && buffer.bitIndex <= 424
      modifies buffer
      ensures buffer.bitIndex == old(buffer.bitIndex) + 3
      ensures a == Flag(buffer.Bits(), old(buffer.bitIndex))
      ensures b == Flag(buffer.Bits(), old(buffer.bitIndex) + 1)
      ensures c == Flag(buffer.Bits(), old(buffer.bitIndex) + 2)
    {
      a := buffer.GetBoolValue();
      b := buffer.GetBoolValue();
      c := buffer.GetBoolValue();
    }

    method DecodeType123(msgType: nat, size: int) returns (r: Result<Report>)
      requires AfterType()
      modifies buffer
      ensures r == if size < 168 then Failure(INVALID_SIZE) else Success(Type123Of(buffer.Bits(), msgType))
    {
      hide FieldAt, SignedFieldAt, TextAt;
      if size < 168 { return Failure(INVALID_SIZE); }
      var repeat, mmsi := GetHeader();
      var navstatus := buffer.GetUnsignedValue(4);
      var rot := buffer.GetSignedValue(8);
      var sog := buffer.GetUnsignedValue(10);
      var posAccuracy, posLon, posLat := GetPosition();
      var cog, heading, timestamp := GetCourse();
      var maneuver := buffer.GetUnsignedValue(2);
      var spare := buffer.GetUnsignedValue(3);
      var raim := buffer.GetBoolValue();
      var radio := buffer.GetUnsignedValue(19);
      r := Success(Type123(msgType, mmsi, navstatus, rot, sog, posAccuracy, posLon, posLat, cog, heading,
                           repeat, raim, timestamp, maneuver));
    }

    method DecodeType411(msgType: nat, size: int) returns (r: Result<Report>)
      requires AfterType()
      modifies buffer
      ensures r == if size < 168 then Failure(INVALID_SIZE) else Success(Type411Of(buffer.Bits(), msgType))
    {
      hide FieldAt, SignedFieldAt, TextAt;
      if size < 168 { return Failure(INVALID_SIZE); }
      var repeat, mmsi := GetHeader();
      var year := buffer.GetUnsignedValue(14);
      var month, day, hour, minute := GetFour(4, 5, 5, 6);
      var second := buffer.GetUnsignedValue(6);
      var posAccuracy, posLon, posLat := GetPosition();
      var epfd := buffer.GetUnsignedValue(4);
      var spare := buffer.GetUnsignedValue(10);
      var raim := buffer.GetBoolValue();
      var radio := buffer.GetUnsignedValue(19);
      r := Success(Type411(msgType, mmsi, year, month, day, hour, minute, second, posAccuracy, posLon, posLat));
    }

    method DecodeType5(msgType: nat, size: int) returns (r: Result<Report>)
      requires AfterType()
      modifies buffer
      ensures r == if size < 420 then Failure(INVALID_SIZE) else Success(Type5Of(buffer.Bits(), msgType))
    {
      hide FieldAt, SignedFieldAt, TextAt;
      if size < 420 { return Failure(INVALID_SIZE); }
      var repeat, mmsi, aisVersion, imo, callsign, name, shipType := GetStaticData();
      var toBow, toStern, toPort, toStarboard := GetDimensions();
      var fixType := buffer.GetUnsignedValue(4);
      var etaMonth, etaDay, etaHour, etaMinute := GetFour(4, 5, 5, 6);
      var draught, destination, dte := GetDestination();
      r := Success(Type5(msgType, mmsi, imo, callsign, name, shipType, toBow, toStern, toPort, toStarboard, fixType,
                         etaMonth, etaDay, etaHour, etaMinute, draught, destination, aisVersion, repeat, dte));
    }

    /** Who the ship is: the first half of Message 5. */
    method GetStaticData()
        returns (repeat: nat, mmsi: nat, aisVersion: nat, imo: nat, callsign: string, name: string, shipType: nat)
      requires AfterType()
      modifies buffer
      ensures buffer.bitIndex == 240
      ensures repeat == FieldAt(buffer.Bits(), 6, 2) && mmsi == FieldAt(buffer.Bits(), 8, 30)
      ensures aisVersion == FieldAt(buffer.Bits(), 38, 2) && imo == FieldAt(buffer.Bits(), 40, 30)
      ensures callsign == TextAt(buffer.Bits(), 70, 42) && name == TextAt(buffer.Bits(), 112, 120)
      ensures shipType == ShipType(FieldAt(buffer.Bits(), 232, 8))
    {
      hide FieldAt, SignedFieldAt, TextAt;
      repeat, mmsi := GetHeader();
      aisVersion := buffer.GetUnsignedValue(2);
      imo := buffer.GetUnsignedValue(30);
      callsign := buffer.GetString(42);
      name := buffer.GetString(120);
      shipType := buffer.GetUnsignedValue(8);
      if shipType > 99 { shipType := 0; }
    }

    /** Where it goes: the end of Message 5. */
    method GetDestination() returns (draught: nat, destination: string, dte: bool)
      requires buffer.data.Length == BUFFER_SIZE && buffer.bitIndex == 294
      modifies buffer
      ensures draught == FieldAt(buffer.Bits(), 294, 8) && destination == TextAt(buffer.Bits(), 302, 120)
      ensures dte == Flag(buffer.Bits(), 422)
    {
      hide FieldAt, SignedFieldAt, TextAt;
      draught := buffer.GetUnsignedValue(8);
      destination := buffer.GetString(120);
      dte := buffer.GetBoolValue();
      var spare := buffer.GetUnsignedValue(1);
    }

    method DecodeType9(size: int) returns (r: Result<Report>)
      requires AfterType()
      modifies buffer
      ensures r == if size < 168 then Failure(INVALID_SIZE) else Success(Type9Of(buffer.Bits()))
    {
      hide FieldAt, SignedFieldAt, TextAt;
      if size < 168 { return Failure(INVALID_SIZE); }
      var repeat, mmsi := GetHeader();
      var altitude := buffer.GetUnsignedValue(12);
      var sog := buffer.GetUnsignedValue(10);
      var posAccuracy, posLon, posLat := GetPosition();
      var cog := buffer.GetUnsignedValue(12);
      var timestamp := buffer.GetUnsignedValue(6);
      var reserved := buffer.GetUnsignedValue(8);
      var dte := buffer.GetBoolValue();
      var spare := buffer.GetUnsignedValue(3);
      var assignedMode := buffer.GetBoolValue();
      var raim := buffer.GetBoolValue();
      var radio := buffer.GetUnsignedValue(20);
      r := Success(Type9(mmsi, sog, posAccuracy, posLon, posLat, cog, altitude));
    }

    method DecodeType14(size: int) returns (r: Result<Report>)
      requires AfterType() && size + 64 < 8 * BUFFER_SIZE
      modifies buffer
      ensures r == if !(40 < size < 1009) then Failure(INVALID_SIZE) else Success(Type14Of(buffer.Bits(), size))
    {
      hide FieldAt, SignedFieldAt, TextAt;
      if !(size > 40 && size < 1009) { return Failure(INVALID_SIZE); }
      var repeat, mmsi := GetHeader();
      var spare := buffer.GetUnsignedValue(2);
      var text := buffer.GetString(size - 34);
      r := Success(Type14(repeat, mmsi, text, size));
    }

    method DecodeType18(msgType: nat, size: int) returns (r: Result<Report>)
      requires AfterType()
      modifies buffer
      ensures r == if size < 168 then Failure(INVALID_SIZE) else Success(Type18Of(buffer.Bits(), msgType))
    {
      hide FieldAt, SignedFieldAt, TextAt;
      if size < 168 { return Failure(INVALID_SIZE); }
      var repeat, mmsi := GetHeader();
      var reserved := buffer.GetUnsignedValue(8);
      var sog := buffer.GetUnsignedValue(10);
      var posAccuracy, posLon, posLat := GetPosition();
      var cog, heading, timestamp := GetCourse();
      var regional := buffer.GetUnsignedValue(2);
      var unit, display, dsc := GetThreeFlags();
      var band, msg22, assignedMode := GetThreeFlags();
      var raim := buffer.GetBoolValue();
      var state := buffer.GetUnsignedValue(20);
      r := Success(Type18(msgType, mmsi, sog, posAccuracy, posLon, posLat, cog, heading, raim, repeat, unit, display,
                          dsc, band, msg22, assignedMode, timestamp, state != 0));
    }

    method DecodeType19(size: int) returns (r: Result<Report>)
      requires AfterType()
      modifies buffer
      ensures r == if size < 312 then Failure(INVALID_SIZE) else Success(Type19Of(buffer.Bits()))
    {
      hide FieldAt, SignedFieldAt, TextAt;
      if size < 312 { return Failure(INVALID_SIZE); }
      var repeat, mmsi := GetHeader();
      var reserved := buffer.GetUnsignedValue(8);
      var sog := buffer.GetUnsignedValue(10);
      var posAccuracy, posLon, posLat := GetPosition();
      var cog, heading, timestamp := GetCourse();
      var regional := buffer.GetUnsignedValue(4);
      var name, shipType := GetNameAndType();
      var toBow, toStern, toPort, toStarboard := GetDimensions();
      var fixType, raim, dte, assignedMode := GetFixAndFlags();
      r := Success(Type19(mmsi, sog, posAccuracy, posLon, posLat, cog, heading, name, shipType, toBow, toStern,
                          toPort, toStarboard, timestamp, fixType, dte, assignedMode, repeat, raim));
    }

    method GetNameAndType() returns (name: string, shipType: nat)
      requires buffer.data.Length == BUFFER_SIZE && buffer.bitIndex == 143
      modifies buffer
      ensures buffer.bitIndex == 271
      ensures name == TextAt(buffer.Bits(), 143, 120) && shipType == ShipType(FieldAt(buffer.Bits(), 263, 8))
    {
      hide FieldAt, SignedFieldAt, TextAt;
      name := buffer.GetString(120);
      shipType := buffer.GetUnsignedValue(8);
      if shipType > 99 { shipType := 0; }
    }

    method GetFixAndFlags() returns (fixType: nat, raim: bool, dte: bool, assignedMode: bool)
      requires buffer.data.Length == BUFFER_SIZE && buffer.bitIndex == 301
      modifies buffer
      ensures fixType == FieldAt(buffer.Bits(), 301, 4)
      ensures raim == Flag(buffer.Bits(), 305) && dte == Flag(buffer.Bits(), 306)
      ensures assignedMode == Flag(buffer.Bits(), 307)
    {
      hide FieldAt, SignedFieldAt, TextAt;
      fixType := buffer.GetUnsignedValue(4);
      raim, dte, assignedMode := GetThreeFlags();
      var spare := buffer.GetUnsignedValue(4);
    }

    method DecodeType21(size: int) returns (r: Result<Report>)
      requires AfterType() && size + 64 < 8 * BUFFER_SIZE
      modifies buffer
      ensures r == if size < 272 then Failure(INVALID_SIZE) else Success(Type21Of(buffer.Bits(), size))
    {
      hide FieldAt, SignedFieldAt, TextAt;
      if size < 272 { return Failure(INVALID_SIZE); }
      var repeat, mmsi := GetHeader();
      var aidType := buffer.GetUnsignedValue(5);
      var name := buffer.GetString(120);
      var posAccuracy, posLon, posLat := GetPosition();
      var toBow, toStern, toPort, toStarboard := GetDimensions();
      SkipAidFlags();
      var nameExt := [];
      if size > 272 { nameExt := buffer.GetString(88); }
      r := Success(Type21(mmsi, aidType, name + nameExt, posAccuracy, posLon, posLat, toBow, toStern, toPort, toStarboard));
    }

    /** The fields between the dimensions and the extension of the name are not used. */
    method SkipAidFlags()
      requires buffer.data.Length == BUFFER_SIZE && buffer.bitIndex == 249
      modifies buffer
      ensures buffer.bitIndex == 272
    {
      var epfdType := buffer.GetUnsignedValue(4);
      var timestamp := buffer.GetUnsignedValue(6);
      var offPosition := buffer.GetBoolValue();
      var reserved := buffer.GetUnsignedValue(8);
      var raim, virtualAid, assignedMode := GetThreeFlags();
      var spare := buffer.GetUnsignedValue(1);
    }

    method DecodeType24(msgType: nat, size: int) returns (r: Result<Report>)
      requires AfterType() && msgType == 24 && size + 64 < 8 * BUFFER_SIZE
      modifies buffer
      ensures r == BodyOf(buffer.Bits(), msgType, size)
    {
      hide FieldAt, SignedFieldAt, TextAt;
      var repeat, mmsi := GetHeader();
      var partNo := buffer.GetUnsignedValue(2);
      if partNo == 0 {
        if size < 160 { return Failure(INVALID_SIZE); }
        var name := buffer.GetString(120);
        var spare := buffer.GetUnsignedValue(8);
        r := Success(Type24A(msgType, repeat, mmsi, name));
      } else if partNo == 1 {
        if size < 168 { return Failure(INVALID_SIZE); }
        var shipType, vendor, callsign := GetVendorData();
        var toBow, toStern, toPort, toStarboard := GetDimensions();
        var spare := buffer.GetUnsignedValue(6);
        r := Success(Type24B(msgType, repeat, mmsi, callsign, shipType, toBow, toStern, toPort, toStarboard, vendor));
      } else {
        r := Failure(INVALID_PART);
      }
    }

    method GetVendorData() returns (shipType: nat, vendor: string, callsign: string)
      requires buffer.data.Length == BUFFER_SIZE && buffer.bitIndex == 40
      modifies buffer
      ensures buffer.bitIndex == 132
      ensures shipType == ShipType(FieldAt(buffer.Bits(), 40, 8))
      ensures vendor == TextAt(buffer.Bits(), 48, 18) && callsign == TextAt(buffer.Bits(), 90, 42)
    {
      hide FieldAt, SignedFieldAt, TextAt;
      shipType := buffer.GetUnsignedValue(8);
      if shipType > 99 { shipType := 0; }
      vendor := buffer.GetString(18);
      var model := buffer.GetUnsignedValue(4);
      var serial := buffer.GetUnsignedValue(20);
      callsign := buffer.GetString(42);
    }

    method DecodeType27(size: int) returns (r: Result<Report>)
      requires AfterType()
      modifies buffer
      ensures r == if size < 96 then Failure(INVALID_SIZE_27) else Success(Type27Of(buffer.Bits()))
    {
      hide FieldAt, SignedFieldAt, TextAt;
      if size < 96 { return Failure(INVALID_SIZE_27); }
      var repeat, mmsi := GetHeader();
      var posAccuracy := buffer.GetBoolValue();
      var raim := buffer.GetBoolValue();
      var navstatus := buffer.GetUnsignedValue(4);
      var posLon := buffer.GetSignedValue(18);
      var posLat := buffer.GetSignedValue(17);
      var sog := buffer.GetUnsignedValue(6);
      var cog := buffer.GetUnsignedValue(9);
      var gnss := buffer.GetUnsignedValue(1);
      var spare := buffer.GetUnsignedValue(1);
      r := Success(Type27(mmsi, navstatus, sog, posAccuracy, posLon, posLat, cog));
    }

    /** The callback of the message type. */
    method DecodeBody(msgType: nat, size: int) returns (r: Result<Report>)
      requires AfterType() && size + 64 < 8 * BUFFER_SIZE
      modifies buffer
      ensures r == BodyOf(buffer.Bits(), msgType, size)
    {
      hide FieldAt, SignedFieldAt, TextAt;
      if msgType == 1 || msgType == 2 || msgType == 3 {
        r := DecodeType123(msgType, size);
      } else if msgType == 4 || msgType == 11 {
        r := DecodeType411(msgType, size);
      } else if msgType == 5 {
        r := DecodeType5(msgType, size);
      } else if msgType == 9 {
        r := DecodeType9(size);
      } else if msgType == 14 {
        r := DecodeType14(size);
      } else if msgType == 18 {
        r := DecodeType18(msgType, size);
      } else if msgType == 19 {
        r := DecodeType19(size);
      } else if msgType == 21 {
        r := DecodeType21(size);
      } else if msgType == 24 {
        r := DecodeType24(msgType, size);
      } else if msgType == 27 {
        r := DecodeType27(size);
      } else {
        r := Success(NotDecoded(msgType));
      }
    }

    /** The buffer is overwritten as far as the payload goes, and the report is read from it. */
    method DecodeMobileAisMsg(payload: string, fillBits: int) returns (r: Result<Report>)
      requires buffer.data.Length == BUFFER_SIZE
      requires 0 < |payload| <= 410 && fillBits >= 0
      modifies buffer, buffer.data
      ensures buffer.Bits() == Overwritten(old(buffer.Bits()), payload)
      ensures r == ReportIn(buffer.Bits(), payload, fillBits)
    {
      hide FieldAt, SignedFieldAt, TextAt, BodyOf, PaddedBits;
      buffer.ResetBitIndex();
      ghost var before, n := buffer.data[..], FlushedBytes(|payload|);
      var bitsUsed := DecodeAscii(buffer, payload, fillBits);
      BitsKept(before, buffer.data[..], n);
      assert buffer.Bits() == buffer.Bits()[..8 * n] + buffer.Bits()[8 * n..];
      buffer.ResetBitIndex();
      var msgType := buffer.GetUnsignedValue(6);
      if msgType == 0 || msgType > 27 { return Failure(INVALID_TYPE); }
      r := DecodeBody(msgType, bitsUsed);
    }
  }
}

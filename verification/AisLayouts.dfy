/** The layouts of the message bodies, field by field in the order and widths of ITU-R M.1371-5, Annex 8, and the
    reports made of them: lib/aisparser/ais_decoder.cpp, lines 402-747. */
module AisLayouts {
  import opened Sequences
  import opened Wrappers
  import opened Bits
  import opened AisAlphabet
  import opened AisPayload
  import opened AisMessages
  import opened AisRoundTrip

  /** A message is made of the bits of its fields: two's complement, most significant bit first, or six bits for each
      character. */
  type Fields = seq<seq<bool>>

  function FlagCode(f: bool): (b: seq<bool>)
    ensures |b| == 1
  {
    [f]
  }

  /** Where a field starts. */
  function At(fields: Fields, k: nat): nat
    requires k <= |fields|
  {
    if k == 0 then 0 else At(fields, k - 1) + |fields[k - 1]|
  }

  /** The payload of a message, with fill bits behind the fields. */
  function Sent(fields: Fields, fillBits: nat): string {
    Armoured(Flatten(fields) + Zeros(fillBits))
  }

  // ----- the fields are found again

  lemma {:induction false} AtOfPrefix(fields: Fields, m: nat, k: nat)
    requires k <= m <= |fields|
    ensures At(fields[..m], k) == At(fields, k)
  {
    if k > 0 { AtOfPrefix(fields, m, k - 1); }
  }

  lemma {:induction false} FieldsLength(fields: Fields)
    ensures |Flatten(fields)| == At(fields, |fields|)
  {
    if fields != [] {
      var n := |fields| - 1;
      FieldsLength(fields[..n]);
      AtOfPrefix(fields, n, n);
    }
  }

  /** The bits of a field are there from some place on. */
  predicate Here(b: seq<bool>, at: nat, field: seq<bool>) {
    at + |field| <= |b| && b[at..at + |field|] == field
  }

  lemma {:induction false} FieldHere(fields: Fields, k: nat)
    requires k < |fields|
    ensures Here(Flatten(fields), At(fields, k), fields[k])
    decreases |fields|
  {
    var n := |fields| - 1;
    var before := fields[..n];
    FieldsLength(before);
    AtOfPrefix(fields, n, n);
    AtOfPrefix(fields, n, k);
    Nothing(Flatten(fields));
    if k < n {
      FieldHere(before, k);
      var i, j := At(fields, k), At(fields, k) + |fields[k]|;
      PrefixSlice(Flatten(fields), |Flatten(before)|, i, j);
      assert Flatten(fields)[..|Flatten(before)|] == Flatten(before);
    } else {
      Middle(Flatten(before), fields[n], []);
    }
  }

  /** All fields are in their places. */
  ghost predicate Found(b: seq<bool>, fields: Fields) {
    forall k | 0 <= k < |fields| :: Here(b, At(fields, k), fields[k])
  }

  lemma {:induction false} AllFound(fields: Fields, fillBits: nat)
    requires |Flatten(fields)| <= Whole(|Flatten(fields)| + fillBits)
    ensures |Sent(fields, fillBits)| == (|Flatten(fields)| + fillBits) / 6
    ensures Found(PlainBits(Sent(fields, fillBits)), fields)
  {
    hide Flatten, PaddedBits, Armoured;
    var code := Flatten(fields);
    var m := Whole(|code| + fillBits);
    BitsArrive(code + Zeros(fillBits));
    var b := PlainBits(Sent(fields, fillBits));
    assert b[..m] == (code + Zeros(fillBits))[..m];
    assert b[..|code|] == b[..m][..|code|] == code;
    forall k | 0 <= k < |fields|
      ensures Here(b, At(fields, k), fields[k])
    {
      FieldHere(fields, k);
      PrefixSlice(b, |code|, At(fields, k), At(fields, k) + |fields[k]|);
    }
  }

  /** A number in its place. */
  lemma {:induction false} NumberAt(b: seq<bool>, fields: Fields, k: nat, at: nat, v: nat, n: nat)
    requires Found(b, fields) && k < |fields| && At(fields, k) == at
    requires fields[k] == BitsOf(v, n) && v < Pow2(n)
    ensures at + n <= |b| && FieldAt(b, at, n) == v
  {
    hide At, Value, BitsOf, Pow2;
    assert Here(b, At(fields, k), fields[k]);
    ValueBitsOf(v, n);
  }

  lemma {:induction false} SignedAt(b: seq<bool>, fields: Fields, k: nat, at: nat, v: int, n: nat)
    requires Found(b, fields) && k < |fields| && At(fields, k) == at
    requires fields[k] == BitsOf(v, n) && n > 0 && v + Pow2(n - 1) >= 0 && v < Pow2(n - 1)
    ensures at + n <= |b| && SignedFieldAt(b, at, n) == v
  {
    hide At, Value, BitsOf, Pow2;
    assert Here(b, At(fields, k), fields[k]);
    ValueOfSigned(v, n);
    assert b[at] == b[at..at + n][0];
  }

  lemma {:induction false} FlagAt(b: seq<bool>, fields: Fields, k: nat, at: nat, f: bool)
    requires Found(b, fields) && k < |fields| && At(fields, k) == at && fields[k] == FlagCode(f)
    ensures at + 1 <= |b| && Flag(b, at) == f
  {
    assert Here(b, At(fields, k), fields[k]);
    assert FlagCode(f) == [] + [f];
    ValueSnoc([], f);
  }

  lemma {:induction false} TextFieldAt(b: seq<bool>, fields: Fields, k: nat, at: nat, t: string, chars: nat)
    requires Found(b, fields) && k < |fields| && At(fields, k) == at
    requires fields[k] == TextBits(t, chars) && chars <= 64
    ensures at + 6 * chars <= |b| && TextAt(b, at, 6 * chars) == NormalText(t, chars)
  {
    hide CleanText, SixBitText, TextBits, NormalText;
    assert Here(b, At(fields, k), fields[k]);
    TextRoundTrip(t, chars);
  }

  predicate WholeCharacters(n: nat) {
    n % 6 == 0
  }

  /** The report of a message is read from its fields. */
  lemma {:induction false} SentReport(fields: Fields, fillBits: nat, t: nat, size: nat)
    requires fields != [] && fields[0] == BitsOf(t, 6) && 0 < t <= 27
    requires size == At(fields, |fields|) && WholeCharacters(size + fillBits) && size >= 6
    ensures var b := PlainBits(Sent(fields, fillBits));
            && Padded(b, size) && |b| > size + 64 && Found(b, fields)
            && ReportOf(Sent(fields, fillBits), fillBits) == BodyOf(b, t, size)
  {
    hide Flatten, Sent, FieldAt, BodyOf, PlainBits, Found, At, Padded, BitsOf, Pow2;
    FieldsLength(fields);
    AllFound(fields, fillBits);
    var b := PlainBits(Sent(fields, fillBits));
    ShorterPadded(b, 6 * |Sent(fields, fillBits)|, size);
    AtStart(fields);
    Sizes();
    NumberAt(b, fields, 0, 0, t, 6);
  }

  lemma {:induction false} ShorterPadded(b: seq<bool>, size: nat, n: nat)
    requires Padded(b, size) && n <= size
    ensures Padded(b, n) && |b| > n + 64
  {
  }

  lemma {:induction false} RoomForExtension(b: seq<bool>, size: nat)
    requires Padded(b, size) && size >= 272
    ensures |b| >= 384
  {
  }

  lemma {:induction false} AtStart(fields: Fields)
    ensures At(fields, 0) == 0
  {
  }

  lemma {:induction false} AtNext(fields: Fields, k: nat)
    requires k < |fields|
    ensures At(fields, k + 1) == At(fields, k) + |fields[k]|
  {
  }

  /** Bits behind the last whole character do not count. */
  lemma {:induction false} TextOfWhole(b: seq<bool>, i: nat, n: nat, chars: nat)
    requires i + n <= |b| && 6 * chars <= n < 6 * chars + 6 && chars <= 64
    ensures TextAt(b, i, n) == TextAt(b, i, 6 * chars)
  {
    hide CleanText, Group;
    var s, t := SixBitText(b[i..i + n]), SixBitText(b[i..i + 6 * chars]);
    forall k | 0 <= k < chars
      ensures s[k] == t[k]
    {
      GroupAt(b, i, b[i..i + n], k);
      GroupAt(b, i, b[i..i + 6 * chars], k);
    }
    assert s == t;
  }

  lemma {:induction false} Sizes()
    ensures Pow2(1) == 2 && Pow2(2) == 4 && Pow2(3) == 8 && Pow2(4) == 16 && Pow2(5) == 32 && Pow2(6) == 64
    ensures Pow2(7) == 128 && Pow2(8) == 256 && Pow2(9) == 512 && Pow2(10) == 1024 && Pow2(12) == 4096
    ensures Pow2(14) == 16384
    ensures Pow2(16) == 0x1_0000 && Pow2(17) == 0x2_0000 && Pow2(18) == 0x4_0000 && Pow2(19) == 0x8_0000
    ensures Pow2(20) == 0x10_0000 && Pow2(26) == 0x400_0000 && Pow2(27) == 0x800_0000 && Pow2(28) == 0x1000_0000
    ensures Pow2(30) == 0x4000_0000
  {
    FieldSizes();
    Pow2Byte(2);
    Pow2Byte(6);
    Pow2Byte(8);
    Pow2Byte(9);
    Pow2Byte(10);
    Pow2Byte(11);
    Pow2Byte(12);
    Pow2Byte(18);
    Pow2Byte(19);
    Pow2Byte(20);
    Pow2Byte(22);
  }

  // ----- the messages

  /** Messages 1, 2 and 3. */
  lemma {:induction false} PositionReported(f: Fields, t: nat, repeat: nat, mmsi: nat, status: nat, rot: int,
                                            sog: nat, accuracy: bool, lon: int, lat: int, cog: nat, heading: nat,
                                            timestamp: nat, maneuver: nat, spare: nat, raim: bool, radio: nat)
    requires 1 <= t <= 3 && repeat < 4 && mmsi < 0x4000_0000 && status < 16 && -128 <= rot < 128 && sog < 1024
    requires -0x800_0000 <= lon < 0x800_0000 && -0x400_0000 <= lat < 0x400_0000 && cog < 4096 && heading < 512
    requires timestamp < 64 && maneuver < 4 && spare < 8 && radio < 0x8_0000
    requires f == [BitsOf(t, 6), BitsOf(repeat, 2), BitsOf(mmsi, 30), BitsOf(status, 4), BitsOf(rot, 8),
                   BitsOf(sog, 10), FlagCode(accuracy), BitsOf(lon, 28), BitsOf(lat, 27), BitsOf(cog, 12),
                   BitsOf(heading, 9), BitsOf(timestamp, 6), BitsOf(maneuver, 2), BitsOf(spare, 3), FlagCode(raim),
                   BitsOf(radio, 19)]
    ensures ReportOf(Sent(f, 0), 0)
         == Success(Type123(t, mmsi, status, rot, sog, accuracy, lon, lat, cog,
                    heading, repeat, raim, timestamp, maneuver))
  {
    hide BitsOf, TextBits, FlagCode, FieldAt, SignedFieldAt, TextAt, PlainBits, Sent, NormalText, Flag, Found, Padded,
      At, Pow2, ReportOf, Flatten;
    Sizes();
    AtStart(f); AtNext(f, 0); AtNext(f, 1); AtNext(f, 2); AtNext(f, 3);
    AtNext(f, 4); AtNext(f, 5); AtNext(f, 6); AtNext(f, 7); AtNext(f, 8);
    AtNext(f, 9); AtNext(f, 10); AtNext(f, 11); AtNext(f, 12); AtNext(f, 13);
    AtNext(f, 14); AtNext(f, 15);
    assert WholeCharacters(168);
    hide WholeCharacters;
    SentReport(f, 0, t, 168);
    var b := PlainBits(Sent(f, 0));
    assert BodyOf(b, t, 168) == Success(Type123Of(b, t));
    hide BodyOf;
    NumberAt(b, f, 0, 0, t, 6);
    NumberAt(b, f, 1, 6, repeat, 2);
    NumberAt(b, f, 2, 8, mmsi, 30);
    NumberAt(b, f, 3, 38, status, 4);
    SignedAt(b, f, 4, 42, rot, 8);
    NumberAt(b, f, 5, 50, sog, 10);
    FlagAt(b, f, 6, 60, accuracy);
    SignedAt(b, f, 7, 61, lon, 28);
    SignedAt(b, f, 8, 89, lat, 27);
    NumberAt(b, f, 9, 116, cog, 12);
    NumberAt(b, f, 10, 128, heading, 9);
    NumberAt(b, f, 11, 137, timestamp, 6);
    NumberAt(b, f, 12, 143, maneuver, 2);
    FlagAt(b, f, 14, 148, raim);
  }

  /** Messages 4 and 11. */
  lemma {:induction false} BaseStationReported(f: Fields, t: nat, repeat: nat, mmsi: nat, year: nat, month: nat,
                                               day: nat, hour: nat, minute: nat, second: nat, accuracy: bool,
                                               lon: int, lat: int, epfd: nat, spare: nat, raim: bool, radio: nat)
    requires (t == 4 || t == 11) && repeat < 4 && mmsi < 0x4000_0000 && year < 16384 && month < 16 && day < 32
    requires hour < 32 && minute < 64 && second < 64 && -0x800_0000 <= lon < 0x800_0000
    requires -0x400_0000 <= lat < 0x400_0000 && epfd < 16 && spare < 1024 && radio < 0x8_0000
    requires f == [BitsOf(t, 6), BitsOf(repeat, 2), BitsOf(mmsi, 30), BitsOf(year, 14), BitsOf(month, 4),
                   BitsOf(day, 5), BitsOf(hour, 5), BitsOf(minute, 6), BitsOf(second, 6), FlagCode(accuracy),
                   BitsOf(lon, 28), BitsOf(lat, 27), BitsOf(epfd, 4), BitsOf(spare, 10), FlagCode(raim),
                   BitsOf(radio, 19)]
    ensures ReportOf(Sent(f, 0), 0)
         == Success(Type411(t, mmsi, year, month, day, hour, minute, second,
                    accuracy, lon, lat))
  {
    hide BitsOf, TextBits, FlagCode, FieldAt, SignedFieldAt, TextAt, PlainBits, Sent, NormalText, Flag, Found, Padded,
      At, Pow2, ReportOf, Flatten;
    Sizes();
    AtStart(f); AtNext(f, 0); AtNext(f, 1); AtNext(f, 2); AtNext(f, 3);
    AtNext(f, 4); AtNext(f, 5); AtNext(f, 6); AtNext(f, 7); AtNext(f, 8);
    AtNext(f, 9); AtNext(f, 10); AtNext(f, 11); AtNext(f, 12); AtNext(f, 13);
    AtNext(f, 14); AtNext(f, 15);
    assert WholeCharacters(168);
    hide WholeCharacters;
    SentReport(f, 0, t, 168);
    var b := PlainBits(Sent(f, 0));
    assert BodyOf(b, t, 168) == Success(Type411Of(b, t));
    hide BodyOf;
    NumberAt(b, f, 0, 0, t, 6);
    NumberAt(b, f, 2, 8, mmsi, 30);
    NumberAt(b, f, 3, 38, year, 14);
    NumberAt(b, f, 4, 52, month, 4);
    NumberAt(b, f, 5, 56, day, 5);
    NumberAt(b, f, 6, 61, hour, 5);
    NumberAt(b, f, 7, 66, minute, 6);
    NumberAt(b, f, 8, 72, second, 6);
    FlagAt(b, f, 9, 78, accuracy);
    SignedAt(b, f, 10, 79, lon, 28);
    SignedAt(b, f, 11, 107, lat, 27);
  }

  /** Message 9. */
  lemma {:induction false} AircraftReported(f: Fields, repeat: nat, mmsi: nat, altitude: nat, sog: nat,
                                            accuracy: bool, lon: int, lat: int, cog: nat, timestamp: nat,
                                            reserved: nat, dte: bool, spare: nat, assignedMode: bool, raim: bool,
                                            radio: nat)
    requires repeat < 4 && mmsi < 0x4000_0000 && altitude < 4096 && sog < 1024 && -0x800_0000 <= lon < 0x800_0000
    requires -0x400_0000 <= lat < 0x400_0000 && cog < 4096 && timestamp < 64 && reserved < 256 && spare < 8
    requires radio < 0x10_0000
    requires f == [BitsOf(9, 6), BitsOf(repeat, 2), BitsOf(mmsi, 30), BitsOf(altitude, 12), BitsOf(sog, 10),
                   FlagCode(accuracy), BitsOf(lon, 28), BitsOf(lat, 27), BitsOf(cog, 12), BitsOf(timestamp, 6),
                   BitsOf(reserved, 8), FlagCode(dte), BitsOf(spare, 3), FlagCode(assignedMode), FlagCode(raim),
                   BitsOf(radio, 20)]
    ensures ReportOf(Sent(f, 0), 0)
         == Success(Type9(mmsi, sog, accuracy, lon, lat, cog, altitude))
  {
    hide BitsOf, TextBits, FlagCode, FieldAt, SignedFieldAt, TextAt, PlainBits, Sent, NormalText, Flag, Found, Padded,
      At, Pow2, ReportOf, Flatten;
    Sizes();
    AtStart(f); AtNext(f, 0); AtNext(f, 1); AtNext(f, 2); AtNext(f, 3);
    AtNext(f, 4); AtNext(f, 5); AtNext(f, 6); AtNext(f, 7); AtNext(f, 8);
    AtNext(f, 9); AtNext(f, 10); AtNext(f, 11); AtNext(f, 12); AtNext(f, 13);
    AtNext(f, 14); AtNext(f, 15);
    assert WholeCharacters(168);
    hide WholeCharacters;
    SentReport(f, 0, 9, 168);
    var b := PlainBits(Sent(f, 0));
    assert BodyOf(b, 9, 168) == Success(Type9Of(b));
    hide BodyOf;
    NumberAt(b, f, 2, 8, mmsi, 30);
    NumberAt(b, f, 3, 38, altitude, 12);
    NumberAt(b, f, 4, 50, sog, 10);
    FlagAt(b, f, 5, 60, accuracy);
    SignedAt(b, f, 6, 61, lon, 28);
    SignedAt(b, f, 7, 89, lat, 27);
    NumberAt(b, f, 8, 116, cog, 12);
  }

  /** The fields that are the same in messages 18 and 19. */
  lemma {:induction false} MovementRead(b: seq<bool>, f: Fields, sog: nat, accuracy: bool, lon: int, lat: int,
                                        cog: nat, heading: nat, timestamp: nat)
    requires Found(b, f) && |f| > 10 && At(f, 4) == 46
    requires sog < 1024 && -0x800_0000 <= lon < 0x800_0000 && -0x400_0000 <= lat < 0x400_0000 && cog < 4096
    requires heading < 512 && timestamp < 64
    requires f[4] == BitsOf(sog, 10) && f[5] == FlagCode(accuracy) && f[6] == BitsOf(lon, 28)
    requires f[7] == BitsOf(lat, 27) && f[8] == BitsOf(cog, 12) && f[9] == BitsOf(heading, 9)
    requires f[10] == BitsOf(timestamp, 6)
    ensures |b| >= 139 && FieldAt(b, 46, 10) == sog && Flag(b, 56) == accuracy && SignedFieldAt(b, 57, 28) == lon
    ensures SignedFieldAt(b, 85, 27) == lat && FieldAt(b, 112, 12) == cog && FieldAt(b, 124, 9) == heading
    ensures FieldAt(b, 133, 6) == timestamp
  {
    hide BitsOf, FlagCode, FieldAt, SignedFieldAt, Flag, Found, At, Pow2;
    Sizes();
    AtNext(f, 4); AtNext(f, 5); AtNext(f, 6); AtNext(f, 7); AtNext(f, 8); AtNext(f, 9);
    NumberAt(b, f, 4, 46, sog, 10);
    FlagAt(b, f, 5, 56, accuracy);
    SignedAt(b, f, 6, 57, lon, 28);
    SignedAt(b, f, 7, 85, lat, 27);
    NumberAt(b, f, 8, 112, cog, 12);
    NumberAt(b, f, 9, 124, heading, 9);
    NumberAt(b, f, 10, 133, timestamp, 6);
  }

  /** Message 18; of the last 20 bits only is reported whether they are all zero. */
  lemma {:induction false} ClassBReported(f: Fields, repeat: nat, mmsi: nat, reserved: nat, sog: nat, accuracy: bool,
                                          lon: int, lat: int, cog: nat, heading: nat, timestamp: nat, regional: nat,
                                          unit: bool, display: bool, dsc: bool, band: bool, msg22: bool,
                                          assignedMode: bool, raim: bool, radio: nat)
    requires repeat < 4 && mmsi < 0x4000_0000 && reserved < 256 && sog < 1024 && -0x800_0000 <= lon < 0x800_0000
    requires -0x400_0000 <= lat < 0x400_0000 && cog < 4096 && heading < 512 && timestamp < 64 && regional < 4
    requires radio < 0x10_0000
    requires f == [BitsOf(18, 6), BitsOf(repeat, 2), BitsOf(mmsi, 30), BitsOf(reserved, 8), BitsOf(sog, 10),
                   FlagCode(accuracy), BitsOf(lon, 28), BitsOf(lat, 27), BitsOf(cog, 12), BitsOf(heading, 9),
                   BitsOf(timestamp, 6), BitsOf(regional, 2), FlagCode(unit), FlagCode(display), FlagCode(dsc),
                   FlagCode(band), FlagCode(msg22), FlagCode(assignedMode), FlagCode(raim), BitsOf(radio, 20)]
    ensures ReportOf(Sent(f, 0), 0)
         == Success(Type18(18, mmsi, sog, accuracy, lon, lat, cog, heading, raim,
                    repeat, unit, display, dsc, band, msg22, assignedMode,
                    timestamp, radio != 0))
  {
    hide BitsOf, TextBits, FlagCode, FieldAt, SignedFieldAt, TextAt, PlainBits, Sent, NormalText, Flag, Found, Padded,
      At, Pow2, ReportOf, Flatten;
    Sizes();
    AtStart(f); AtNext(f, 0); AtNext(f, 1); AtNext(f, 2); AtNext(f, 3);
    AtNext(f, 4); AtNext(f, 5); AtNext(f, 6); AtNext(f, 7); AtNext(f, 8);
    AtNext(f, 9); AtNext(f, 10); AtNext(f, 11); AtNext(f, 12); AtNext(f, 13);
    AtNext(f, 14); AtNext(f, 15); AtNext(f, 16); AtNext(f, 17); AtNext(f, 18);
    AtNext(f, 19);
    assert WholeCharacters(168);
    hide WholeCharacters;
    SentReport(f, 0, 18, 168);
    var b := PlainBits(Sent(f, 0));
    assert BodyOf(b, 18, 168) == Success(Type18Of(b, 18));
    hide BodyOf;
    NumberAt(b, f, 1, 6, repeat, 2);
    NumberAt(b, f, 2, 8, mmsi, 30);
    MovementRead(b, f, sog, accuracy, lon, lat, cog, heading, timestamp);
    FlagAt(b, f, 12, 141, unit);
    FlagAt(b, f, 13, 142, display);
    FlagAt(b, f, 14, 143, dsc);
    FlagAt(b, f, 15, 144, band);
    FlagAt(b, f, 16, 145, msg22);
    FlagAt(b, f, 17, 146, assignedMode);
    FlagAt(b, f, 18, 147, raim);
    NumberAt(b, f, 19, 148, radio, 20);
  }

  lemma {:induction false} SentExtended(f: Fields)
    requires f != [] && f[0] == BitsOf(19, 6) && At(f, |f|) == 312
    ensures var b := PlainBits(Sent(f, 0));
            |b| >= 312 && Found(b, f) && ReportOf(Sent(f, 0), 0) == Success(Type19Of(b))
  {
    hide BitsOf, FieldAt, SignedFieldAt, TextAt, PlainBits, Sent, Flag, Found, Padded, At, Pow2, ReportOf, Flatten;
    assert WholeCharacters(312);
    hide WholeCharacters;
    SentReport(f, 0, 19, 312);
  }

  /** Message 19. */
  lemma {:induction false} ExtendedReported(f: Fields, repeat: nat, mmsi: nat, reserved: nat, sog: nat,
                                            accuracy: bool, lon: int, lat: int, cog: nat, heading: nat,
                                            timestamp: nat, regional: nat, name: string, ship: nat, toBow: nat,
                                            toStern: nat, toPort: nat, toStarboard: nat, fix: nat, raim: bool,
                                            dte: bool, assignedMode: bool, spare: nat)
    requires repeat < 4 && mmsi < 0x4000_0000 && reserved < 256 && sog < 1024 && -0x800_0000 <= lon < 0x800_0000
    requires -0x400_0000 <= lat < 0x400_0000 && cog < 4096 && heading < 512 && timestamp < 64 && regional < 16
    requires ship < 256 && toBow < 512 && toStern < 512 && toPort < 64 && toStarboard < 64 && fix < 16 && spare < 16
    requires f == [BitsOf(19, 6), BitsOf(repeat, 2), BitsOf(mmsi, 30), BitsOf(reserved, 8), BitsOf(sog, 10),
                   FlagCode(accuracy), BitsOf(lon, 28), BitsOf(lat, 27), BitsOf(cog, 12), BitsOf(heading, 9),
                   BitsOf(timestamp, 6), BitsOf(regional, 4), TextBits(name, 20), BitsOf(ship, 8), BitsOf(toBow, 9),
                   BitsOf(toStern, 9), BitsOf(toPort, 6), BitsOf(toStarboard, 6), BitsOf(fix, 4), FlagCode(raim),
                   FlagCode(dte), FlagCode(assignedMode), BitsOf(spare, 4)]
    ensures ReportOf(Sent(f, 0), 0)
         == Success(Type19(mmsi, sog, accuracy, lon, lat, cog, heading,
                    NormalText(name, 20), if ship <= 99 then ship else 0,
                    toBow, toStern, toPort, toStarboard, timestamp, fix, dte,
                    assignedMode, repeat, raim))
  {
    hide BitsOf, TextBits, FlagCode, FieldAt, SignedFieldAt, TextAt, PlainBits, Sent, NormalText, Flag, Found, Padded,
      At, Pow2, ReportOf, Flatten;
    Sizes();
    AtStart(f); AtNext(f, 0); AtNext(f, 1); AtNext(f, 2); AtNext(f, 3);
    AtNext(f, 4); AtNext(f, 5); AtNext(f, 6); AtNext(f, 7); AtNext(f, 8);
    AtNext(f, 9); AtNext(f, 10); AtNext(f, 11); AtNext(f, 12); AtNext(f, 13);
    AtNext(f, 14); AtNext(f, 15); AtNext(f, 16); AtNext(f, 17); AtNext(f, 18);
    AtNext(f, 19); AtNext(f, 20); AtNext(f, 21); AtNext(f, 22);
    SentExtended(f);
    hide BodyOf;
    var b := PlainBits(Sent(f, 0));
    NumberAt(b, f, 1, 6, repeat, 2);
    NumberAt(b, f, 2, 8, mmsi, 30);
    MovementRead(b, f, sog, accuracy, lon, lat, cog, heading, timestamp);
    TextFieldAt(b, f, 12, 143, name, 20);
    NumberAt(b, f, 13, 263, ship, 8);
    NumberAt(b, f, 14, 271, toBow, 9);
    NumberAt(b, f, 15, 280, toStern, 9);
    NumberAt(b, f, 16, 289, toPort, 6);
    NumberAt(b, f, 17, 295, toStarboard, 6);
    NumberAt(b, f, 18, 301, fix, 4);
    FlagAt(b, f, 19, 305, raim);
    FlagAt(b, f, 20, 306, dte);
    FlagAt(b, f, 21, 307, assignedMode);
  }

  /** Message 21 without an extension of the name; four fill bits make whole characters. */
  lemma {:induction false} AidReported(f: Fields, repeat: nat, mmsi: nat, aidType: nat, name: string, accuracy: bool,
                                       lon: int, lat: int, toBow: nat, toStern: nat, toPort: nat, toStarboard: nat,
                                       epfd: nat, timestamp: nat, offPosition: bool, reserved: nat, raim: bool,
                                       virtual: bool, assignedMode: bool, spare: bool)
    requires repeat < 4 && mmsi < 0x4000_0000 && aidType < 32 && -0x800_0000 <= lon < 0x800_0000
    requires -0x400_0000 <= lat < 0x400_0000 && toBow < 512 && toStern < 512 && toPort < 64 && toStarboard < 64
    requires epfd < 16 && timestamp < 64 && reserved < 256
    requires f == [BitsOf(21, 6), BitsOf(repeat, 2), BitsOf(mmsi, 30), BitsOf(aidType, 5), TextBits(name, 20),
                   FlagCode(accuracy), BitsOf(lon, 28), BitsOf(lat, 27), BitsOf(toBow, 9), BitsOf(toStern, 9),
                   BitsOf(toPort, 6), BitsOf(toStarboard, 6), BitsOf(epfd, 4), BitsOf(timestamp, 6),
                   FlagCode(offPosition), BitsOf(reserved, 8), FlagCode(raim), FlagCode(virtual),
                   FlagCode(assignedMode), FlagCode(spare)]
    ensures ReportOf(Sent(f, 4), 4)
         == Success(Type21(mmsi, aidType, NormalText(name, 20), accuracy, lon, lat,
                    toBow, toStern, toPort, toStarboard))
  {
    hide BitsOf, TextBits, FlagCode, FieldAt, SignedFieldAt, TextAt, PlainBits, Sent, NormalText, Flag, Found, Padded,
      At, Pow2, ReportOf, Flatten;
    Sizes();
    AtStart(f); AtNext(f, 0); AtNext(f, 1); AtNext(f, 2); AtNext(f, 3);
    AtNext(f, 4); AtNext(f, 5); AtNext(f, 6); AtNext(f, 7); AtNext(f, 8);
    AtNext(f, 9); AtNext(f, 10); AtNext(f, 11); AtNext(f, 12); AtNext(f, 13);
    AtNext(f, 14); AtNext(f, 15); AtNext(f, 16); AtNext(f, 17); AtNext(f, 18);
    AtNext(f, 19);
    assert WholeCharacters(276);
    hide WholeCharacters;
    SentReport(f, 4, 21, 272);
    var b := PlainBits(Sent(f, 4));
    RoomForExtension(b, 272);
    assert BodyOf(b, 21, 272) == Success(Type21Of(b, 272));
    hide BodyOf;
    NumberAt(b, f, 2, 8, mmsi, 30);
    NumberAt(b, f, 3, 38, aidType, 5);
    TextFieldAt(b, f, 4, 43, name, 20);
    FlagAt(b, f, 5, 163, accuracy);
    SignedAt(b, f, 6, 164, lon, 28);
    SignedAt(b, f, 7, 192, lat, 27);
    NumberAt(b, f, 8, 219, toBow, 9);
    NumberAt(b, f, 9, 228, toStern, 9);
    NumberAt(b, f, 10, 237, toPort, 6);
    NumberAt(b, f, 11, 243, toStarboard, 6);
    Nothing(TextAt(b, 43, 120));
  }

  /** Message 21 with the longest extension of the name. */
  lemma {:induction false} NamedAidReported(f: Fields, repeat: nat, mmsi: nat, aidType: nat, name: string,
                                            extension: string, accuracy: bool, lon: int, lat: int, toBow: nat,
                                            toStern: nat, toPort: nat, toStarboard: nat, epfd: nat, timestamp: nat,
                                            offPosition: bool, reserved: nat, raim: bool, virtual: bool,
                                            assignedMode: bool, spare: bool)
    requires repeat < 4 && mmsi < 0x4000_0000 && aidType < 32 && -0x800_0000 <= lon < 0x800_0000
    requires -0x400_0000 <= lat < 0x400_0000 && toBow < 512 && toStern < 512 && toPort < 64 && toStarboard < 64
    requires epfd < 16 && timestamp < 64 && reserved < 256
    requires f == [BitsOf(21, 6), BitsOf(repeat, 2), BitsOf(mmsi, 30), BitsOf(aidType, 5), TextBits(name, 20),
                   FlagCode(accuracy), BitsOf(lon, 28), BitsOf(lat, 27), BitsOf(toBow, 9), BitsOf(toStern, 9),
                   BitsOf(toPort, 6), BitsOf(toStarboard, 6), BitsOf(epfd, 4), BitsOf(timestamp, 6),
                   FlagCode(offPosition), BitsOf(reserved, 8), FlagCode(raim), FlagCode(virtual),
                   FlagCode(assignedMode), FlagCode(spare), TextBits(extension, 14), BitsOf(0, 4)]
    ensures ReportOf(Sent(f, 0), 0)
         == Success(Type21(mmsi, aidType,
                    NormalText(name, 20) + NormalText(extension, 14),
                    accuracy, lon, lat, toBow, toStern, toPort, toStarboard))
  {
    hide BitsOf, TextBits, FlagCode, FieldAt, SignedFieldAt, TextAt, PlainBits, Sent, NormalText, Flag, Found, Padded,
      At, Pow2, ReportOf, Flatten;
    Sizes();
    AtStart(f); AtNext(f, 0); AtNext(f, 1); AtNext(f, 2); AtNext(f, 3);
    AtNext(f, 4); AtNext(f, 5); AtNext(f, 6); AtNext(f, 7); AtNext(f, 8);
    AtNext(f, 9); AtNext(f, 10); AtNext(f, 11); AtNext(f, 12); AtNext(f, 13);
    AtNext(f, 14); AtNext(f, 15); AtNext(f, 16); AtNext(f, 17); AtNext(f, 18);
    AtNext(f, 19); AtNext(f, 20); AtNext(f, 21);
    assert WholeCharacters(360);
    hide WholeCharacters;
    SentReport(f, 0, 21, 360);
    var b := PlainBits(Sent(f, 0));
    RoomForExtension(b, 360);
    assert BodyOf(b, 21, 360) == Success(Type21Of(b, 360));
    hide BodyOf;
    NumberAt(b, f, 2, 8, mmsi, 30);
    NumberAt(b, f, 3, 38, aidType, 5);
    TextFieldAt(b, f, 4, 43, name, 20);
    FlagAt(b, f, 5, 163, accuracy);
    SignedAt(b, f, 6, 164, lon, 28);
    SignedAt(b, f, 7, 192, lat, 27);
    NumberAt(b, f, 8, 219, toBow, 9);
    NumberAt(b, f, 9, 228, toStern, 9);
    NumberAt(b, f, 10, 237, toPort, 6);
    NumberAt(b, f, 11, 243, toStarboard, 6);
    TextFieldAt(b, f, 20, 272, extension, 14);
    TextOfWhole(b, 272, 88, 14);
  }

  /** Message 27. */
  lemma {:induction false} LongRangeReported(f: Fields, repeat: nat, mmsi: nat, accuracy: bool, raim: bool,
                                             status: nat, lon: int, lat: int, sog: nat, cog: nat, gnss: bool,
                                             spare: bool)
    requires repeat < 4 && mmsi < 0x4000_0000 && status < 16 && -0x2_0000 <= lon < 0x2_0000
    requires -0x1_0000 <= lat < 0x1_0000 && sog < 64 && cog < 512
    requires f == [BitsOf(27, 6), BitsOf(repeat, 2), BitsOf(mmsi, 30), FlagCode(accuracy), FlagCode(raim),
                   BitsOf(status, 4), BitsOf(lon, 18), BitsOf(lat, 17), BitsOf(sog, 6), BitsOf(cog, 9),
                   FlagCode(gnss), FlagCode(spare)]
    ensures ReportOf(Sent(f, 0), 0)
         == Success(Type27(mmsi, status, sog, accuracy, lon, lat, cog))
  {
    hide BitsOf, TextBits, FlagCode, FieldAt, SignedFieldAt, TextAt, PlainBits, Sent, NormalText, Flag, Found, Padded,
      At, Pow2, ReportOf, Flatten;
    Sizes();
    AtStart(f); AtNext(f, 0); AtNext(f, 1); AtNext(f, 2); AtNext(f, 3);
    AtNext(f, 4); AtNext(f, 5); AtNext(f, 6); AtNext(f, 7); AtNext(f, 8);
    AtNext(f, 9); AtNext(f, 10); AtNext(f, 11);
    assert WholeCharacters(96);
    hide WholeCharacters;
    SentReport(f, 0, 27, 96);
    var b := PlainBits(Sent(f, 0));
    assert BodyOf(b, 27, 96) == Success(Type27Of(b));
    hide BodyOf;
    NumberAt(b, f, 2, 8, mmsi, 30);
    FlagAt(b, f, 3, 38, accuracy);
    NumberAt(b, f, 5, 40, status, 4);
    SignedAt(b, f, 6, 44, lon, 18);
    SignedAt(b, f, 7, 62, lat, 17);
    NumberAt(b, f, 8, 79, sog, 6);
    NumberAt(b, f, 9, 85, cog, 9);
  }

  lemma {:induction false} AtSignAtEnd(s: string)
    ensures BeforeAt(s + ['@']) == BeforeAt(s)
  {
    if s != [] {
      assert (s + ['@'])[1..] == s[1..] + ['@'];
      AtSignAtEnd(s[1..]);
    }
  }

  /** A character of zeros behind a text does not show. */
  lemma {:induction false} ZerosBehindText(b: seq<bool>, i: nat, chars: nat)
    requires i + 6 * chars + 6 <= |b| && chars < 64 && forall k | i + 6 * chars <= k < i + 6 * chars + 6 :: !b[k]
    ensures TextAt(b, i, 6 * chars + 6) == TextAt(b, i, 6 * chars)
  {
    hide Group, BeforeAt, TrimRight, SixBitChar;
    var s, t := SixBitText(b[i..i + 6 * chars + 6]), SixBitText(b[i..i + 6 * chars]);
    forall k | 0 <= k <= chars
      ensures s[k] == if k < chars then t[k] else '@'
    {
      GroupAt(b, i, b[i..i + 6 * chars + 6], k);
      if k < chars { GroupAt(b, i, b[i..i + 6 * chars], k); } else { ZeroGroup(b, i + 6 * chars); }
    }
    assert s == t + ['@'];
    AtSignAtEnd(t);
  }

  lemma {:induction false} ZeroGroup(b: seq<bool>, i: nat)
    requires i + 6 <= |b| && forall k | i <= k < i + 6 :: !b[k]
    ensures FieldAt(b, i, 6) == 0 && SixBitChar(0) == '@'
  {
    assert b[i..i + 6] == Zeros(6);
    ValueZeros(6);
  }

  /** Behind the fields there are zeros only. */
  lemma {:induction false} ZerosBehind(fields: Fields, fillBits: nat, k: nat)
    requires (|Flatten(fields)| + fillBits) % 6 == 0 && |Flatten(fields)| <= k < |PlainBits(Sent(fields, fillBits))|
    ensures !PlainBits(Sent(fields, fillBits))[k]
  {
    hide Flatten, Armoured;
    var bits := Flatten(fields) + Zeros(fillBits);
    ArmourRoundTrip(bits);
    assert bits[..6 * (|bits| / 6)] == bits;
  }

  /** Message 14 with a text of up to 63 characters; two fill bits make whole characters. */
  lemma {:induction false} SafetyReported(f: Fields, repeat: nat, mmsi: nat, spare: nat, text: string, chars: nat)
    requires repeat < 4 && mmsi < 0x4000_0000 && spare < 4 && 1 <= chars <= 63
    requires |f| == 5 && f[0] == BitsOf(14, 6) && f[1] == BitsOf(repeat, 2) && f[2] == BitsOf(mmsi, 30)
    requires f[3] == BitsOf(spare, 2) && f[4] == TextBits(text, chars)
    ensures ReportOf(Sent(f, 2), 2) == Success(Type14(repeat, mmsi, NormalText(text, chars), 40 + 6 * chars))
  {
    hide BitsOf, TextBits, Flatten, FieldAt, TextAt, PlainBits, Sent, NormalText, Flag, Found, Pow2, Padded, At,
      ReportOf;
    Sizes();
    AtStart(f);
    AtNext(f, 0); AtNext(f, 1); AtNext(f, 2); AtNext(f, 3); AtNext(f, 4);
    assert WholeCharacters(40 + 6 * chars + 2);
    hide WholeCharacters;
    SentReport(f, 2, 14, 40 + 6 * chars);
    var b := PlainBits(Sent(f, 2));
    NumberAt(b, f, 1, 6, repeat, 2);
    NumberAt(b, f, 2, 8, mmsi, 30);
    TextFieldAt(b, f, 4, 40, text, chars);
    FieldsLength(f);
    forall k | 40 + 6 * chars <= k < 40 + 6 * chars + 6
      ensures !b[k]
    {
      ZerosBehind(f, 2, k);
    }
    ZerosBehindText(b, 40, chars);
  }

  // ----- which messages are refused

  /** A message that is too short for its type, of a type that does not exist or a part that does not is an error, and
      nothing else is. */
  lemma {:induction false} Refused(b: seq<bool>, payload: string, fillBits: nat)
    requires Padded(b, 6 * |payload|)
    ensures var r, t := ReportIn(b, payload, fillBits), FieldAt(b, 0, 6);
            var size, part := 6 * |payload| - fillBits, FieldAt(b, 38, 2);
            var short := Failure("Invalid payload size.");
            && (t == 0 || t > 27 ==> r == Failure("Invalid message type."))
            && (t in {1, 2, 3, 4, 9, 11, 18} ==> if size < 168 then r == short else r.Success?)
            && (t == 5 ==> if size < 420 then r == short else r.Success?)
            && (t == 14 ==> if size <= 40 || size >= 1009 then r == short else r.Success?)
            && (t == 19 ==> if size < 312 then r == short else r.Success?)
            && (t == 21 ==> if size < 272 then r == short else r.Success?)
            && (t == 24 && part == 0 ==> if size < 160 then r == short else r.Success?)
            && (t == 24 && part == 1 ==> if size < 168 then r == short else r.Success?)
            && (t == 24 && part > 1 ==> r == Failure("Invalid part number."))
            && (t == 27 ==> if size < 96 then r == Failure("Invalid payload size") else r.Success?)
            && (t in {6, 7, 8, 10, 12, 13, 15, 16, 17, 20, 22, 23, 25, 26} ==> r == Success(NotDecoded(t)))
  {
    hide FieldAt, SignedFieldAt, TextAt;
  }
}

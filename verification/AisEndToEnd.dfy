/** A voyage sent as two sentences and received again.
    lib/nmea2ktoais/NMEA0183AISMsg.cpp, lines 162-187; lib/aisparser/ais_decoder.cpp, lines 841-1027. */
module AisEndToEnd {
  import opened Bits
  import opened Sequences
  import opened Wrappers
  import opened AisAlphabet
  import opened AisEncoder
  import opened AisMessages
  import opened AisVoyage
  import opened Fragments
  import opened Nmea
  import opened AisDecoder
  import opened AisStale

  // ----- sentences

  /** The fields of an AIVDM sentence written out: start character, talker, words, checksum. */
  function Sentence(fields: seq<string>): string {
    var body := Join(["AIVDM"] + fields);
    "!" + body + CrcSuffix(body)
  }

  function CrcSuffix(body: string): (s: string)
    ensures |s| == 3 && s[0] == '*'
  {
    var x := Xor(Bytes(body)) as int;
    ['*', HexDigit(x / 16), HexDigit(x % 16)]
  }

  lemma SentenceCrcMatches(fields: seq<string>)
    ensures CrcMatches(Sentence(fields))
  {
    hide Xor, Bytes, Join;
    var body := Join(["AIVDM"] + fields);
    var s := Sentence(fields);
    assert Covered(s) == body;
    var x := Xor(Bytes(body)) as int;
    HexAccepted(x / 16);
    HexAccepted(x % 16);
  }

  lemma {:induction false} JoinSuffix(w: seq<string>, suffix: string)
    requires w != []
    ensures Join(w) + suffix == Join(w[..|w| - 1] + [w[|w| - 1] + suffix])
  {
    if |w| > 1 {
      JoinSuffix(w[1..], suffix);
      var w' := w[..|w| - 1] + [w[|w| - 1] + suffix];
      assert w'[1..] == w[1..][..|w[1..]| - 1] + [w[1..][|w[1..]| - 1] + suffix];
      assert w'[0] == w[0];
      JoinAssociate(w[0], Join(w[1..]), suffix);
    }
  }

  lemma JoinAssociate(a: string, b: string, c: string)
    ensures a + "," + b + c == a + "," + (b + c)
  {
  }

  /** The words the decoder finds in a sentence; the last one has the checksum behind it. */
  lemma SentenceWords(fields: seq<string>, max: nat)
    requires fields != [] && |fields| < max && forall i | 0 <= i < |fields| :: NoComma(fields[i])
    ensures var suffix := CrcSuffix(Join(["AIVDM"] + fields));
            Words(Sentence(fields), max) == ["!AIVDM"] + (fields[..|fields| - 1] + [fields[|fields| - 1] + suffix])
  {
    hide Words, Xor, Bytes, HexDigit;
    var suffix := CrcSuffix(Join(["AIVDM"] + fields));
    SuffixPlain(Join(["AIVDM"] + fields));
    var tail := fields[..|fields| - 1] + [fields[|fields| - 1] + suffix];
    assert (["AIVDM"] + fields)[1..] == fields;
    JoinSuffix(fields, suffix);
    assert Sentence(fields) == "!AIVDM" + "," + Join(tail);
    WordsCons("!AIVDM", Join(tail), max);
    WordsOfJoin(tail, max - 1);
  }

  lemma SuffixPlain(body: string)
    ensures NoComma(CrcSuffix(body))
  {
    hide Xor, Bytes;
  }

  // ----- the two sentences of Message 5

  function PartFields(num: string, payload: string, fill: string): seq<string> {
    ["2", num, "5", "A", payload, fill]
  }

  function Sentence1(v: Voyage): string {
    Sentence(PartFields("1", Part1(v), "0"))
  }

  function Sentence2(v: Voyage): string {
    Sentence(PartFields("2", Part2(v), "2"))
  }

  /** The two sentences letter by letter, but for the payloads and the checksums. */
  lemma SentencesSpelled(v: Voyage)
    ensures var body1, body2 := "AIVDM,2,1,5,A," + Part1(v) + ",0", "AIVDM,2,2,5,A," + Part2(v) + ",2";
            Sentence1(v) == "!" + body1 + CrcSuffix(body1) && Sentence2(v) == "!" + body2 + CrcSuffix(body2)
  {
    hide CrcSuffix, Part1, Part2;
    SpelledOut("2", "1", "5", "A", Part1(v), "0");
    SpelledOut("2", "2", "5", "A", Part2(v), "2");
    assert "AIVDM," + "2" + "," + "1" + "," + "5" + "," + "A" + "," == "AIVDM,2,1,5,A,";
    assert "AIVDM," + "2" + "," + "2" + "," + "5" + "," + "A" + "," == "AIVDM,2,2,5,A,";
    assert "," + "0" == ",0" && "," + "2" == ",2";
    Associate("AIVDM,2,1,5,A," + Part1(v), ",", "0");
    Associate("AIVDM,2,2,5,A," + Part2(v), ",", "2");
  }

  lemma SpelledOut(count: string, num: string, id: string, channel: string, payload: string, fill: string)
    ensures Join(["AIVDM", count, num, id, channel, payload, fill])
         == "AIVDM," + count + "," + num + "," + id + "," + channel + "," + payload + "," + fill
    ensures ["AIVDM"] + [count, num, id, channel, payload, fill] == ["AIVDM", count, num, id, channel, payload, fill]
  {
    JoinedTwo(payload, fill);
    JoinedMore(channel, [payload, fill]);
    JoinedMore(id, [channel, payload, fill]);
    JoinedMore(num, [id, channel, payload, fill]);
    JoinedMore(count, [num, id, channel, payload, fill]);
    JoinedMore("AIVDM", [count, num, id, channel, payload, fill]);
    hide Join;
    JoinAssociate("AIVDM", count, "," + num);
  }

  lemma JoinedTwo(a: string, b: string)
    ensures Join([a, b]) == a + "," + b
  {
    assert [a, b][1..] == [b];
  }

  lemma JoinedMore(a: string, rest: seq<string>)
    requires rest != []
    ensures Join([a] + rest) == a + "," + Join(rest)
  {
    assert ([a] + rest)[1..] == rest;
  }

  method BuildMsg5Part1(msg: AisMsg) returns (r: Option<string>)
    requires msg.Valid()
    modifies msg.payload
    ensures msg.Valid() && msg.Bits() == old(msg.Bits())
    ensures r == if |msg.Bits()| == 424 then Some(Sentence(PartFields("1", Armoured(msg.Bits()[..336]), "0"))) else None
  {
    var payload := msg.GetPayloadType5Part1();
    r := match payload case Some(p) => Some(Sentence(PartFields("1", p, "0"))) case None => None;
  }

  method BuildMsg5Part2(msg: AisMsg) returns (r: Option<string>)
    requires msg.Valid()
    modifies msg.payload
    ensures msg.Valid() && msg.Bits() == old(msg.Bits())
    ensures r == if |msg.Bits()| == 424
                 then Some(Sentence(PartFields("2", Armoured(msg.Bits()[336..] + Zeros(2)), "2"))) else None
  {
    var payload := msg.GetPayloadType5Part2();
    r := match payload case Some(p) => Some(Sentence(PartFields("2", p, "2"))) case None => None;
  }

  lemma SmallNumbers()
    ensures StrToInt("5") == 5 && SingleDigit("1") == 1 && SingleDigit("2") == 2
    ensures IsAisTalker("!AIVDM")
  {
    assert Digits("5", 0) == Digits("5"[1..], 5) == 5;
  }

  /** What the decoder makes of the words of one part. */
  lemma PartWords(num: string, payload: string, fill: string, header: string, footer: string)
    requires (num == "1" && fill == "0") || (num == "2" && fill == "2")
    requires 1 < |payload| <= MAX_MSG_PAYLOAD_LENGTH && NoComma(payload)
    ensures var words := Words(Sentence(PartFields(num, payload, fill)), MAX_MSG_WORDS);
            && ValidWords(words) && StrToIntOk(words)
            && FragmentOf(words, header, footer)
               == Fragment(5, 2, if num == "1" then 1 else 2, payload, if num == "1" then 0 else 2, header, footer)
  {
    hide Words, Xor, Bytes, HexDigit, StrToInt, Join;
    var fields := PartFields(num, payload, fill);
    SentenceWords(fields, MAX_MSG_WORDS);
    SmallNumbers();
    var last := fill + CrcSuffix(Join(["AIVDM"] + fields));
    assert ["!AIVDM"] + (fields[..5] + [last]) == ["!AIVDM", "2", num, "5", "A", payload, last];
    assert last[0] == fill[0];
  }

  lemma PartsPlain(v: Voyage)
    ensures |Part1(v)| == 56 && |Part2(v)| == 15 && NoComma(Part1(v)) && NoComma(Part2(v))
  {
    hide Flatten, Fields, Armoured;
    Offsets(v);
    PayloadBits(Flatten(Fields(v)));
    ArmouredChars(Flatten(Fields(v))[..336]);
    ArmouredChars(Flatten(Fields(v))[336..] + Zeros(2));
  }

  /** The first sentence opens slot 5, whatever was in it. */
  lemma FirstSentence(slots: Slots, v: Voyage, line: string, header: string, footer: string)
    requires SlotsInUse(slots) && |line| > 2
    ensures StrToIntOk(Words(Sentence1(v), MAX_MSG_WORDS))
    ensures LineStep(slots, line, Sentence1(v), header, footer)
         == (slots[5 := Partial(2, 1, Part1(v), header, footer)], [Inform(OnSentence(line))])
  {
    hide Words, CrcMatches, Part1, Sentence, FragmentOf, ValidWords, LineStep, SlotsInUse;
    PartsPlain(v);
    var fields := PartFields("1", Part1(v), "0");
    PartWords("1", Part1(v), "0", header, footer);
    SentenceCrcMatches(fields);
    SentenceNotEmpty(fields);
    var fragment := Fragment(5, 2, 1, Part1(v), 0, header, footer);
    AcceptedLine(slots, line, Sentence(fields), header, footer, fragment);
    assert Step(slots, fragment) == (slots[5 := Partial(2, 1, Part1(v), header, footer)], Waiting);
    Nothing([Inform(OnSentence(line))]);
  }

  lemma SentenceNotEmpty(fields: seq<string>)
    ensures Sentence(fields) != []
  {
  }

  /** The second sentence completes the message, which is decoded. */
  lemma SecondSentence(slots: Slots, v: Voyage, line: string, header: string, footer: string, h: string, f: string)
    requires SlotsInUse(slots) && |line| > 2 && slots[5] == Partial(2, 1, Part1(v), header, footer)
    ensures StrToIntOk(Words(Sentence2(v), MAX_MSG_WORDS))
    ensures LineStep(slots, line, Sentence2(v), h, f)
         == (slots[5 := Empty], [Inform(OnSentence(line)), Decode(Part1(v) + Part2(v), header, footer, 2)])
  {
    hide Words, CrcMatches, Part1, Part2, Sentence, FragmentOf, ValidWords, LineStep, SlotsInUse;
    PartsPlain(v);
    var fields := PartFields("2", Part2(v), "2");
    PartWords("2", Part2(v), "2", h, f);
    SentenceCrcMatches(fields);
    SentenceNotEmpty(fields);
    var fragment := Fragment(5, 2, 2, Part2(v), 2, h, f);
    AcceptedLine(slots, line, Sentence(fields), h, f, fragment);
    assert Step(slots, fragment) == (slots[5 := Empty], Complete(Part1(v) + Part2(v), header, footer, 2));
    var actions := [Decode(Part1(v) + Part2(v), header, footer, 2)];
    assert [Inform(OnSentence(line))] + actions
        == [Inform(OnSentence(line)), Decode(Part1(v) + Part2(v), header, footer, 2)];
  }

  lemma VoyageSettled(v: Voyage)
    ensures Settled(Part1(v) + Part2(v), 2)
  {
    hide Part1, Part2, Settled, ReportOf;
    PayloadRoundTrip(v);
    OtherReportSettled(Part1(v) + Part2(v), 2);
  }

  /** Whatever is in the buffer, the voyage is reported. */
  lemma VoyageDone(bits: Memory, v: Voyage, line: string, header: string, footer: string)
    ensures var actions := [Inform(OnSentence(line)), Decode(Part1(v) + Part2(v), header, footer, 2)];
            Decodable(actions)
            && AllDone(bits, actions).1
               == [OnSentence(line), OnMessage(Part1(v) + Part2(v), header, footer), OnReport(Expected(v))]
  {
    hide Part1, Part2, Settled, ReportIn, ReportOf, Expected, Overwritten, AllDone;
    var payload := Part1(v) + Part2(v);
    PayloadRoundTrip(v);
    VoyageSettled(v);
    SettledReport(payload, 2, bits);
    var action := Decode(payload, header, footer, 2);
    assert [action][0] == action;
    OneDone(bits, action);
    ToldFirst(bits, OnSentence(line), [action]);
    assert [Inform(OnSentence(line))] + [action] == [Inform(OnSentence(line)), action];
  }

  /** For every voyage, and whatever the encoder and the decoder did before: encoding it, sending its two
      sentences and decoding them reports the same voyage, its integers validated and its texts
      normalised. The rest of the decoder's slots stays as it was. */
  method SendVoyage(msg: AisMsg, decoder: AisDecoder, v: Voyage, line1: string, line2: string,
                    header: string, footer: string, h: string, f: string, address: nat)
    requires msg.Valid() && decoder.Valid() && |line1| > 2 && |line2| > 2
    modifies msg, msg.payloadBin, msg.payloadBin2, msg.payload
    modifies decoder, decoder.store, decoder.Objects()
    modifies decoder.body.buffer, decoder.body.buffer.data
    ensures decoder.Valid() && decoder.slots == old(decoder.slots)[5 := Empty]
    ensures decoder.events == old(decoder.events)
                              + [OnSentence(line1), OnSentence(line2),
                                 OnMessage(Part1(v) + Part2(v), header, footer), OnReport(Expected(v))]
    ensures VoyageArrives(Expected(v), v)
  {
    hide AisDecoder.Valid, AisMsg.Valid, Sentence, Expected, Part1, Part2, VoyageArrives;
    var sentence1, sentence2 := Encode(msg, decoder, v);
    ReceiveFirst(decoder, v, line1, header, footer, address);
    ReceiveSecond(decoder, v, line2, header, footer, h, f, address);
    Arrives(v);
  }

  method ReceiveFirst(decoder: AisDecoder, v: Voyage, line: string, header: string, footer: string, address: nat)
    requires decoder.Valid() && |line| > 2
    modifies decoder, decoder.store, decoder.Objects(), decoder.body.buffer, decoder.body.buffer.data
    ensures decoder.Valid() && fresh(decoder.Objects() - old(decoder.Objects()))
    ensures decoder.slots == old(decoder.slots)[5 := Partial(2, 1, Part1(v), header, footer)]
    ensures decoder.events == old(decoder.events) + [OnSentence(line)]
  {
    hide AisDecoder.Valid, LineStep, Words, Sentence, Part1, StrToIntOk, AllDone, SlotsInUse;
    InUse(decoder);
    FirstSentence(decoder.slots, v, line, header, footer);
    SentenceTold(decoder.body.buffer.Bits(), line);
    decoder.DecodeMsg(line, Sentence1(v), header, footer, address);
  }

  method ReceiveSecond(decoder: AisDecoder, v: Voyage, line: string, header: string, footer: string,
                       h: string, f: string, address: nat)
    requires decoder.Valid() && |line| > 2 && decoder.slots[5] == Partial(2, 1, Part1(v), header, footer)
    modifies decoder, decoder.store, decoder.Objects(), decoder.body.buffer, decoder.body.buffer.data
    ensures decoder.Valid() && decoder.slots == old(decoder.slots)[5 := Empty]
    ensures decoder.events == old(decoder.events)
                              + [OnSentence(line), OnMessage(Part1(v) + Part2(v), header, footer), OnReport(Expected(v))]
  {
    hide AisDecoder.Valid, LineStep, Words, Sentence, Part1, Part2, Expected, StrToIntOk, AllDone, SlotsInUse;
    InUse(decoder);
    SecondSentence(decoder.slots, v, line, header, footer, h, f);
    VoyageDone(decoder.body.buffer.Bits(), v, line, header, footer);
    decoder.DecodeMsg(line, Sentence2(v), h, f, address);
  }

  lemma Arrives(v: Voyage)
    ensures VoyageArrives(Expected(v), v)
  {
    hide VoyageArrives, Expected;
    ExpectedArrives(v);
  }

  lemma SentenceTold(bits: Memory, line: string)
    ensures AllDone(bits, [Inform(OnSentence(line))]) == (bits, [OnSentence(line)])
  {
    OneDone(bits, Inform(OnSentence(line)));
  }

  lemma InUse(decoder: AisDecoder)
    requires decoder.Valid()
    ensures SlotsInUse(decoder.slots) && |decoder.body.buffer.Bits()| == 8 * BUFFER_SIZE
  {
  }

  method Encode(msg: AisMsg, ghost decoder: AisDecoder, v: Voyage) returns (sentence1: string, sentence2: string)
    requires msg.Valid() && decoder.Valid()
    modifies msg, msg.payloadBin, msg.payloadBin2, msg.payload
    ensures sentence1 == Sentence1(v) && sentence2 == Sentence2(v)
    ensures decoder.Valid() && decoder.slots == old(decoder.slots) && decoder.events == old(decoder.events)
  {
    hide MultiSentence.HeldListed, Distinct, Sentence, Flatten, Fields, Armoured;
    sentence1, sentence2 := EncodeVoyage(msg, v);
  }

  method EncodeVoyage(msg: AisMsg, v: Voyage) returns (sentence1: string, sentence2: string)
    requires msg.Valid()
    modifies msg, msg.payloadBin, msg.payloadBin2, msg.payload
    ensures sentence1 == Sentence1(v) && sentence2 == Sentence2(v)
  {
    hide Sentence, Flatten, Fields, Armoured, AisMsg.Valid;
    Offsets(v);
    var ok := SetAISClassAMessage5(msg, v);
    var part1 := BuildMsg5Part1(msg);
    var part2 := BuildMsg5Part2(msg);
    sentence1, sentence2 := part1.value, part2.value;
  }
}

/** What the decoder makes of a message in a single sentence, and of every other sentence with a right checksum:
    lib/aisparser/ais_decoder.cpp, lines 845-1027. */
module AisSentences {
  import opened Sequences
  import opened Wrappers
  import opened Decimals
  import opened AisMessages
  import opened AisStale
  import opened Fragments
  import opened Nmea
  import opened AisDecoder
  import opened AisEndToEnd

  // ----- words that are numbers

  lemma {:induction false} DigitsMore(w: string, c: char, acc: nat)
    requires '0' <= c <= '9' && forall i | 0 <= i < |w| :: '0' <= w[i] <= '9'
    ensures Digits(w, acc) >= 0 && Digits(w + [c], acc) == 10 * Digits(w, acc) + (c as int - '0' as int)
    decreases |w|
  {
    if w == [] {
      assert [c][1..] == [];
      assert Digits([c], acc) == Digits([c][1..], 10 * acc + (c as int - '0' as int));
      assert w + [c] == [c];
    } else {
      assert (w + [c])[1..] == w[1..] + [c] && (w + [c])[0] == w[0];
      DigitsMore(w[1..], c, 10 * acc + (w[0] as int - '0' as int));
    }
  }

  lemma {:induction false} DigitsOfDecimal(n: nat)
    ensures Digits(Decimal(n), 0) == n
  {
    DigitChar(n % 10);
    DecimalChars(n);
    if n < 10 {
      assert Decimal(n)[1..] == [];
      assert Digits(Decimal(n), 0) == Digits(Decimal(n)[1..], n);
    } else {
      DigitsOfDecimal(n / 10);
      DecimalChars(n / 10);
      DigitsMore(Decimal(n / 10), DIGITS[n % 10], 0);
    }
  }

  /** A number that fits in 32 bits is read as it was written; nothing is read as zero. */
  lemma NumberWord(n: nat)
    requires n < 0x8000_0000
    ensures StrToInt(Decimal(n)) == n && StrToInt("") == 0 && NoComma(Decimal(n))
    ensures n < 10 ==> SingleDigit(Decimal(n)) == n && Decimal(n) == [DIGITS[n]]
  {
    DecimalChars(n);
    DigitsOfDecimal(n);
    DigitChar(n % 10);
    assert Decimal(n)[0] in Decimal(n);
    hide Digits;
    assert StrToInt("") == Clamp(Digits("", 0));
    assert Digits("", 0) == 0 by { NoDigits(); }
  }

  lemma NoDigits()
    ensures Digits("", 0) == 0
  {
  }

  // ----- sentences

  /** The sequence id of a message of several sentences, or none. */
  datatype Id = Absent | Id(id: nat)

  function IdWord(id: Id): string {
    match id
    case Absent => ""
    case Id(n) => Decimal(n)
  }

  function MessageFields(count: nat, num: nat, id: Id, channel: string, payload: string, fillBits: nat): seq<string> {
    [Decimal(count), Decimal(num), IdWord(id), channel, payload, Decimal(fillBits)]
  }

  /** A sentence with its checksum. */
  function MessageSentence(count: nat, num: nat, id: Id, channel: string, payload: string, fillBits: nat): string {
    Sentence(MessageFields(count, num, id, channel, payload, fillBits))
  }

  /** A message in a single sentence letter by letter, but for the checksum. */
  lemma SingleSpelled(channel: string, payload: string)
    ensures var body := "AIVDM,1,1,," + channel + "," + payload + ",0";
            MessageSentence(1, 1, Absent, channel, payload, 0) == "!" + body + CrcSuffix(body)
  {
    hide CrcSuffix, Join;
    SpelledOut("1", "1", "", channel, payload, "0");
    NumberWord(0);
    NumberWord(1);
    assert [DIGITS[0]] == "0" && [DIGITS[1]] == "1";
    hide Decimal;
    assert "AIVDM," + "1" + "," + "1" + "," + "" + "," == "AIVDM,1,1,,";
    assert "," + "0" == ",0";
    Associate("AIVDM,1,1,," + channel + "," + payload, ",", "0");
  }

  /** What can be written into a sentence. */
  predicate Writable(count: nat, num: nat, id: Id, channel: string, payload: string, fillBits: nat) {
    count < 10 && num < 10 && fillBits < 10 && NoComma(channel) && NoComma(payload) && (id.Id? ==> id.id < 0x8000_0000)
  }

  /** The words of such a sentence. */
  lemma MessageWords(count: nat, num: nat, id: Id, channel: string, payload: string, fillBits: nat)
    requires Writable(count, num, id, channel, payload, fillBits)
    ensures var words := Words(MessageSentence(count, num, id, channel, payload, fillBits), MAX_MSG_WORDS);
            && |words| == 7 && IsAisTalker(words[0]) && SingleDigit(words[1]) == count && SingleDigit(words[2]) == num
            && StrToInt(words[3]) == (if id.Id? then id.id else 0) && words[5] == payload
            && SingleDigit(words[6]) == fillBits
  {
    hide Words, Xor, Bytes, HexDigit, StrToInt, Join, Decimal, SingleDigit;
    NumberWord(count);
    NumberWord(num);
    NumberWord(fillBits);
    if id.Id? { NumberWord(id.id); }
    var fields := MessageFields(count, num, id, channel, payload, fillBits);
    SentenceWords(fields, MAX_MSG_WORDS);
    var last := fields[5] + CrcSuffix(Join(["AIVDM"] + fields));
    assert ["!AIVDM"] + (fields[..5] + [last])
        == ["!AIVDM", fields[0], fields[1], fields[2], fields[3], fields[4], last];
    FirstDigit(fields[5], last);
  }

  lemma FirstDigit(w: string, last: string)
    requires w != [] && last != [] && last[0] == w[0]
    ensures SingleDigit(last) == SingleDigit(w)
  {
  }

  /** What is done with a sentence whose checksum is right, case by case. */
  lemma SentenceAnswers(slots: Slots, line: string, count: nat, num: nat, id: Id, channel: string, payload: string,
                        fillBits: nat, header: string, footer: string)
    requires SlotsInUse(slots) && |line| > 2 && Writable(count, num, id, channel, payload, fillBits)
    ensures var nmea := MessageSentence(count, num, id, channel, payload, fillBits);
            var n := if id.Id? then id.id else 0;
            && StrToIntOk(Words(nmea, MAX_MSG_WORDS))
            && var (slots', actions) := LineStep(slots, line, nmea, header, footer);
               && actions != [] && actions[0] == Inform(OnSentence(line))
               && if |payload| < 2 || |payload| > 82 then
                    slots' == slots && actions[1..] == [Inform(OnDecodeError(nmea, "Sentence not a valid AIS sentence."))]
                  else if count == 0 || count > 5 then
                    slots' == slots && actions[1..] == [Inform(OnDecodeError(nmea, "Invalid fragment count value."))]
                  else if count == 1 then
                    slots' == slots && actions[1..] == [Decode(payload, header, footer, fillBits)]
                  else if n >= 10 then
                    slots' == slots && actions[1..] == [Inform(OnDecodeError(nmea, "Invalid message sequence id."))]
                  else if num == 0 || num > count then
                    slots' == slots && actions[1..] == [Inform(OnDecodeError(nmea, "Invalid message fragment number."))]
                  else
                    var f := Fragment(n, count, num, payload, fillBits, header, footer);
                    (slots', actions[1..]) == (Step(slots, f).0, FragmentActions(Step(slots, f).1, nmea))
  {
    hide Words, CrcMatches, Sentence, MessageFields, Decimal, IdWord, SlotStep, StrToInt, SingleDigit, IsAisTalker,
      SlotsInUse;
    var nmea := MessageSentence(count, num, id, channel, payload, fillBits);
    MessageWords(count, num, id, channel, payload, fillBits);
    SentenceCrcMatches(MessageFields(count, num, id, channel, payload, fillBits));
    SentenceNotEmpty(MessageFields(count, num, id, channel, payload, fillBits));
    var (_, actions) := WordsStep(slots, nmea, header, footer);
    assert ([Inform(OnSentence(line))] + actions)[1..] == actions;
  }

  /** What is done with a fragment: the first one opens its slot anew; the next one is appended, and the last one
      empties the slot and is decoded with what is there; any other empties the slot and is an error. */
  lemma FragmentAnswers(slots: Slots, f: Fragment, nmea: string)
    requires SlotsInUse(slots) && f.Accepted()
    ensures var (slots', outcome) := Step(slots, f);
            var actions, slot, slot' := FragmentActions(outcome, nmea), slots[f.id], slots'[f.id];
            && (forall i | 0 <= i < 10 && i != f.id :: slots'[i] == slots[i])
            && (f.num == 1 ==> slot' == Partial(f.count, 1, f.payload, f.header, f.footer) && actions == [])
            && (f.num > 1 && slot.Partial? && slot.num + 1 == f.num ==>
                  if f.num < slot.count then
                    slot' == slot.(num := f.num, payload := slot.payload + f.payload) && actions == []
                  else
                    slot'.Empty? && actions == [Decode(slot.payload + f.payload, slot.header, slot.footer, f.fillBits)])
            && (f.num > 1 && !(slot.Partial? && slot.num + 1 == f.num) ==>
                  slot'.Empty? && actions == [Inform(OnDecodeError(nmea, "Multi-sentence decoding failed."))])
  {
  }

  /** Too few words, a first one that is too short or names no talker of AIS, or a payload of a wrong length. */
  predicate NoAisWords(words: seq<string>) {
    || |words| < 7 || |words[0]| < 3 || |words[5]| < 2 || |words[5]| > 82
    || var start := if words[0][0] == '!' || words[0][0] == '$' then 1 else 0;
       words[0][start] != 'A' && words[0][start] != 'B'
  }

  /** What is done with any other line. */
  lemma OtherLines(slots: Slots, line: string, nmea: string, header: string, footer: string)
    requires SlotsInUse(slots) && StrToIntOk(Words(nmea, MAX_MSG_WORDS))
    ensures |line| <= 2 ==> LineStep(slots, line, nmea, header, footer) == (slots, [])
    ensures |line| > 2 && nmea == [] ==>
              LineStep(slots, line, nmea, header, footer) == (slots, [Inform(OnSentence(line)), Inform(OnParseError(line))])
    ensures |line| > 2 && nmea != [] && !CrcMatches(nmea) ==>
              LineStep(slots, line, nmea, header, footer)
              == (slots, [Inform(OnSentence(line)),
                          Inform(OnDecodeError(nmea, "Sentence decoding error. CRC check failed."))])
    ensures |line| > 2 && nmea != [] && CrcMatches(nmea) && NoAisWords(Words(nmea, MAX_MSG_WORDS)) ==>
              LineStep(slots, line, nmea, header, footer)
              == (slots, [Inform(OnSentence(line)), Inform(OnDecodeError(nmea, "Sentence not a valid AIS sentence."))])
  {
    hide Words, CrcMatches, StrToInt, SingleDigit;
    var error := OnDecodeError(nmea, "Sentence not a valid AIS sentence.");
    assert [Inform(OnSentence(line))] + [Inform(error)] == [Inform(OnSentence(line)), Inform(error)];
  }

  // ----- one message, one sentence

  /** What the user is told about a payload that is decoded. */
  function ToldOf(r: Result<Report>, payload: string): Event {
    match r
    case Success(report) => OnReport(report)
    case Failure(reason) => OnDecodeError(payload, reason)
  }

  lemma SingleDone(bits: Memory, line: string, payload: string, header: string, footer: string, fillBits: nat)
    requires 2 <= |payload| <= 82
    ensures var actions := [Inform(OnSentence(line)), Decode(payload, header, footer, fillBits)];
            && Decodable(actions) && AllDone(bits, actions).0 == Overwritten(bits, payload)
            && AllDone(bits, actions).1
               == [OnSentence(line), OnMessage(payload, header, footer),
                   ToldOf(ReportIn(Overwritten(bits, payload), payload, fillBits), payload)]
  {
    hide ReportIn, Overwritten, AllDone;
    var action := Decode(payload, header, footer, fillBits);
    assert [action][0] == action;
    OneDone(bits, action);
    ToldFirst(bits, OnSentence(line), [action]);
    assert [Inform(OnSentence(line))] + [action] == [Inform(OnSentence(line)), action];
    assert [OnSentence(line)] + Done(bits, action).1
        == [OnSentence(line), OnMessage(payload, header, footer),
            ToldOf(ReportIn(Overwritten(bits, payload), payload, fillBits), payload)];
  }

  /** A message in a single sentence, on any channel: the line, the payload and the report of the payload are told, or
      the error that is found in it, and no slot changes. */
  method SendSentence(decoder: AisDecoder, line: string, channel: string, payload: string, fillBits: nat,
                      header: string, footer: string, address: nat)
    requires decoder.Valid() && |line| > 2 && NoComma(channel) && NoComma(payload) && 2 <= |payload| <= 82
    requires fillBits < 10
    modifies decoder, decoder.store, decoder.Objects(), decoder.body.buffer, decoder.body.buffer.data
    ensures decoder.Valid() && decoder.slots == old(decoder.slots)
    ensures var r := ReportIn(Overwritten(old(decoder.body.buffer.Bits()), payload), payload, fillBits);
            decoder.events == old(decoder.events)
                              + [OnSentence(line), OnMessage(payload, header, footer), ToldOf(r, payload)]
    ensures Settled(payload, fillBits) ==>
              decoder.events == old(decoder.events)
                                + [OnSentence(line), OnMessage(payload, header, footer),
                                   ToldOf(ReportOf(payload, fillBits), payload)]
  {
    hide AisDecoder.Valid, LineStep, Words, Sentence, StrToIntOk, AllDone, Settled, ReportIn, ReportOf, Overwritten, ToldOf,
      MessageFields, Step, SlotsInUse;
    var nmea := MessageSentence(1, 1, Absent, channel, payload, fillBits);
    InUse(decoder);
    ghost var bits := decoder.body.buffer.Bits();
    SentenceAnswers(decoder.slots, line, 1, 1, Absent, channel, payload, fillBits, header, footer);
    SingleDone(bits, line, payload, header, footer, fillBits);
    if Settled(payload, fillBits) { SettledReport(payload, fillBits, bits); }
    ghost var actions := LineStep(decoder.slots, line, nmea, header, footer).1;
    assert actions == [actions[0]] + actions[1..] == [Inform(OnSentence(line)), Decode(payload, header, footer, fillBits)];
    decoder.DecodeMsg(line, nmea, header, footer, address);
  }
}

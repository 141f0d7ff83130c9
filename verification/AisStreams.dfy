/** Streams of lines, good and bad, of several messages at once: lib/aisparser/ais_decoder.cpp, lines 841-1027. */
module AisStreams {
  import opened Sequences
  import opened Wrappers
  import opened AisMessages
  import opened AisStale
  import opened AisDecoder
  import opened Fragments
  import opened Nmea

  datatype Line = Line(line: string, nmea: string, header: string, footer: string)

  predicate Readable(ls: seq<Line>) {
    forall i | 0 <= i < |ls| :: StrToIntOk(Words(ls[i].nmea, MAX_MSG_WORDS))
  }

  /** The fragment a line carries, if it is one that reaches a slot. */
  function FragmentIn(l: Line): (fs: seq<Fragment>)
    requires StrToIntOk(Words(l.nmea, MAX_MSG_WORDS))
  {
    var words := Words(l.nmea, MAX_MSG_WORDS);
    if |l.line| > 2 && l.nmea != [] && CrcMatches(l.nmea) && ValidWords(words)
       && FragmentOf(words, l.header, l.footer).Accepted()
    then [FragmentOf(words, l.header, l.footer)]
    else []
  }

  function FragmentsIn(ls: seq<Line>): seq<Fragment>
    requires Readable(ls)
  {
    if ls == [] then [] else FragmentsIn(ls[..|ls| - 1]) + FragmentIn(ls[|ls| - 1])
  }

  lemma LineStepInUse(slots: Slots, l: Line)
    requires SlotsInUse(slots) && StrToIntOk(Words(l.nmea, MAX_MSG_WORDS))
    ensures SlotsInUse(LineStep(slots, l.line, l.nmea, l.header, l.footer).0)
    ensures AllAccepted(FragmentIn(l))
    ensures LineStep(slots, l.line, l.nmea, l.header, l.footer).0
         == if FragmentIn(l) == [] then slots else Step(slots, FragmentIn(l)[0]).0
  {
    hide Words, StrToInt, CrcMatches, SlotStep;
    var words := Words(l.nmea, MAX_MSG_WORDS);
    if ValidWords(words) {
      var f := FragmentOf(words, l.header, l.footer);
      if f.Accepted() { StepInUse(slots, f); }
    }
  }

  /** The slots after a stream of lines, good and bad, starting from a new decoder. */
  function SlotsAfterLines(ls: seq<Line>): (s: Slots)
    requires Readable(ls)
    ensures SlotsInUse(s)
  {
    if ls == [] then seq(MAX_MSG_SEQUENCE_IDS, _ => Empty)
    else
      var l := ls[|ls| - 1];
      LineStepInUse(SlotsAfterLines(ls[..|ls| - 1]), l);
      LineStep(SlotsAfterLines(ls[..|ls| - 1]), l.line, l.nmea, l.header, l.footer).0
  }

  /** Only the accepted fragments count, and for each slot only those of its id: whatever else is in
      the stream, slot `id` is what the accepted fragments with that id make of it. */
  lemma {:induction false} SlotsOfLines(ls: seq<Line>, id: nat)
    requires Readable(ls) && id < MAX_MSG_SEQUENCE_IDS
    ensures AllAccepted(FragmentsIn(ls)) && SlotsAfterLines(ls) == SlotsAfter(FragmentsIn(ls))
    ensures SlotsAfterLines(ls)[id] == SlotAfter(OfId(FragmentsIn(ls), id))
  {
    hide Words, LineStep, FragmentIn, Step, OfId, SlotAfter;
    if ls != [] {
      var before, l := ls[..|ls| - 1], ls[|ls| - 1];
      SlotsOfLines(before, id);
      LineStepInUse(SlotsAfterLines(before), l);
      OneOrNone(l);
      var fs := FragmentsIn(before);
      Nothing(fs);
      if FragmentIn(l) != [] { assert (fs + FragmentIn(l))[..|fs|] == fs; }
    }
    SlotOfId(FragmentsIn(ls), id);
  }

  // ----- the lines of one sequence id

  /** The line carries a fragment for the slot. */
  predicate Concerns(l: Line, id: nat)
    requires StrToIntOk(Words(l.nmea, MAX_MSG_WORDS))
  {
    FragmentIn(l) != [] && FragmentIn(l)[0].id == id
  }

  function LinesOfId(ls: seq<Line>, id: nat): seq<Line>
    requires Readable(ls)
  {
    if ls == [] then []
    else LinesOfId(ls[..|ls| - 1], id) + if Concerns(ls[|ls| - 1], id) then [ls[|ls| - 1]] else []
  }

  lemma {:induction false} LinesOfIdReadable(ls: seq<Line>, id: nat)
    requires Readable(ls)
    ensures Readable(LinesOfId(ls, id))
    ensures FragmentsIn(LinesOfId(ls, id)) == OfId(FragmentsIn(ls), id)
  {
    hide Words, FragmentIn;
    if ls != [] {
      var before, l := ls[..|ls| - 1], ls[|ls| - 1];
      LinesOfIdReadable(before, id);
      FragmentsMore(before, l);
      assert ls == before + [l];
      var lines := LinesOfId(before, id);
      Nothing(lines);
      OneOrNone(l);
      if FragmentIn(l) == [] {
        Nothing(FragmentsIn(before));
      } else {
        OfIdMore(FragmentsIn(before), FragmentIn(l)[0], id);
        if Concerns(l, id) { FragmentsMore(lines, l); }
      }
    }
  }

  lemma OneOrNone(l: Line)
    requires StrToIntOk(Words(l.nmea, MAX_MSG_WORDS))
    ensures FragmentIn(l) == [] || (FragmentIn(l) == [FragmentIn(l)[0]] && AllAccepted(FragmentIn(l)))
  {
    hide Words;
  }

  lemma FragmentsMore(ls: seq<Line>, l: Line)
    requires Readable(ls) && StrToIntOk(Words(l.nmea, MAX_MSG_WORDS))
    ensures Readable(ls + [l]) && FragmentsIn(ls + [l]) == FragmentsIn(ls) + FragmentIn(l)
  {
    hide Words, FragmentIn;
    assert (ls + [l])[..|ls|] == ls;
  }

  lemma OfIdMore(fs: seq<Fragment>, f: Fragment, id: nat)
    ensures OfId(fs + [f], id) == if f.id == id then OfId(fs, id) + [f] else OfId(fs, id)
  {
    assert (fs + [f])[..|fs|] == fs;
    Nothing(OfId(fs, id));
  }

  /** What the decoder does with the last of the lines. */
  function LastActions(before: seq<Line>, l: Line): (actions: seq<Action>)
    requires Readable(before) && StrToIntOk(Words(l.nmea, MAX_MSG_WORDS))
    ensures Decodable(actions)
  {
    LineStep(SlotsAfterLines(before), l.line, l.nmea, l.header, l.footer).1
  }

  /** What it does with each line. */
  function Actions(ls: seq<Line>): seq<seq<Action>>
    requires Readable(ls)
  {
    if ls == [] then [] else Actions(ls[..|ls| - 1]) + [LastActions(ls[..|ls| - 1], ls[|ls| - 1])]
  }

  /** What it does with each line that concerns a slot, in a stream with others. */
  function ActionsFor(ls: seq<Line>, id: nat): seq<seq<Action>>
    requires Readable(ls)
  {
    if ls == [] then []
    else
      var before, l := ls[..|ls| - 1], ls[|ls| - 1];
      ActionsFor(before, id) + if Concerns(l, id) then [LastActions(before, l)] else []
  }

  /** What a line does depends on its own slot only. */
  lemma LastActionsOfSlot(before: seq<Line>, before': seq<Line>, l: Line)
    requires Readable(before) && Readable(before') && StrToIntOk(Words(l.nmea, MAX_MSG_WORDS))
    requires FragmentIn(l) != [] && AllAccepted(FragmentIn(l))
    requires SlotsAfterLines(before)[FragmentIn(l)[0].id] == SlotsAfterLines(before')[FragmentIn(l)[0].id]
    ensures LastActions(before, l) == LastActions(before', l)
  {
    hide Words, StrToInt, CrcMatches, SlotsAfterLines, LineStep, SlotStep;
    var f := FragmentIn(l)[0];
    AcceptedLine(SlotsAfterLines(before), l.line, l.nmea, l.header, l.footer, f);
    AcceptedLine(SlotsAfterLines(before'), l.line, l.nmea, l.header, l.footer, f);
  }

  /** Messages that come at the same time do not disturb each other: what the decoder does with the lines of one
      sequence id is what it does when it gets these lines alone. */
  lemma {:induction false} LinesNonInterference(ls: seq<Line>, id: nat)
    requires Readable(ls) && id < MAX_MSG_SEQUENCE_IDS
    ensures Readable(LinesOfId(ls, id)) && ActionsFor(ls, id) == Actions(LinesOfId(ls, id))
  {
    hide Words, FragmentIn, LastActions, SlotsAfterLines, FragmentsIn;
    LinesOfIdReadable(ls, id);
    if ls != [] {
      var before, l := ls[..|ls| - 1], ls[|ls| - 1];
      LinesNonInterference(before, id);
      var lines := LinesOfId(before, id);
      Nothing(lines);
      Nothing(ActionsFor(before, id));
      if Concerns(l, id) {
        SlotsOfLines(before, id);
        LinesOfIdReadable(before, id);
        SlotsOfLines(lines, id);
        OfIdAgain(FragmentsIn(before), id);
        OneOrNone(l);
        LastActionsOfSlot(before, lines, l);
        assert (lines + [l])[..|lines|] == lines;
      }
    }
  }

  // ----- what is told

  /** The payload buffer after a stream of lines. */
  function MemoryAfter(bits: Memory, ls: seq<Line>): Memory
    requires Readable(ls)
  {
    if ls == [] then bits
    else AllDone(MemoryAfter(bits, ls[..|ls| - 1]), LastActions(ls[..|ls| - 1], ls[|ls| - 1])).0
  }

  function LastTold(bits: Memory, before: seq<Line>, l: Line): seq<Event>
    requires Readable(before) && StrToIntOk(Words(l.nmea, MAX_MSG_WORDS))
  {
    AllDone(MemoryAfter(bits, before), LastActions(before, l)).1
  }

  /** What the user is told at each line. */
  function Told(bits: Memory, ls: seq<Line>): seq<seq<Event>>
    requires Readable(ls)
  {
    if ls == [] then [] else Told(bits, ls[..|ls| - 1]) + [LastTold(bits, ls[..|ls| - 1], ls[|ls| - 1])]
  }

  function ToldFor(bits: Memory, ls: seq<Line>, id: nat): seq<seq<Event>>
    requires Readable(ls)
  {
    if ls == [] then []
    else
      var before, l := ls[..|ls| - 1], ls[|ls| - 1];
      ToldFor(bits, before, id) + if Concerns(l, id) then [LastTold(bits, before, l)] else []
  }

  /** All payloads decoded mean the same in every buffer. */
  predicate AllSettled(actions: seq<Action>) {
    forall i | 0 <= i < |actions| :: actions[i].Decode? ==> Settled(actions[i].payload, actions[i].fillBits)
  }

  lemma {:induction false} SettledDone(bits: Memory, bits': Memory, actions: seq<Action>)
    requires Decodable(actions) && AllSettled(actions)
    ensures AllDone(bits, actions).1 == AllDone(bits', actions).1
  {
    hide Settled, ReportIn, ReportOf, Overwritten;
    if actions != [] {
      var before, last := actions[..|actions| - 1], actions[|actions| - 1];
      SettledDone(bits, bits', before);
      if last.Decode? {
        SettledReport(last.payload, last.fillBits, AllDone(bits, before).0);
        SettledReport(last.payload, last.fillBits, AllDone(bits', before).0);
      }
    }
  }

  /** Messages that are settled are told as if each sequence id had a decoder of its own. */
  lemma {:induction false} ToldNonInterference(bits: Memory, bits': Memory, ls: seq<Line>, id: nat)
    requires Readable(ls) && id < MAX_MSG_SEQUENCE_IDS
    requires forall i | 0 <= i < |ActionsFor(ls, id)| :: AllSettled(ActionsFor(ls, id)[i])
    ensures Readable(LinesOfId(ls, id)) && ToldFor(bits, ls, id) == Told(bits', LinesOfId(ls, id))
  {
    hide Words, FragmentIn, LastActions, AllDone, AllSettled, MemoryAfter;
    LinesOfIdReadable(ls, id);
    if ls != [] {
      var before, l := ls[..|ls| - 1], ls[|ls| - 1];
      var lines := LinesOfId(before, id);
      assert forall i | 0 <= i < |ActionsFor(before, id)| :: ActionsFor(before, id)[i] == ActionsFor(ls, id)[i];
      ToldNonInterference(bits, bits', before, id);
      Nothing(lines);
      Nothing(ToldFor(bits, before, id));
      if Concerns(l, id) {
        assert (lines + [l])[..|lines|] == lines;
        LinesNonInterference(ls, id);
        LinesNonInterference(before, id);
        var all := ActionsFor(ls, id);
        assert all[|all| - 1] == LastActions(before, l) == LastActions(lines, l);
        SettledDone(MemoryAfter(bits, before), MemoryAfter(bits', lines), LastActions(before, l));
      }
    }
  }
  /** A new decoder that gets a stream of lines. */
  method DecodeLines(ls: seq<Line>, address: nat) returns (decoder: AisDecoder, ghost bits: Memory)
    requires Readable(ls)
    ensures decoder.Valid() && decoder.slots == SlotsAfterLines(ls) && decoder.events == Flatten(Told(bits, ls))
  {
    hide AisDecoder.Valid, Words, StrToIntOk, LastTold, Flatten, MemoryAfter, SlotsAfterLines, Told;
    decoder := new AisDecoder();
    InMemory(decoder);
    FlattenNothing<Event>();
    bits := decoder.body.buffer.Bits();
    NoLines(bits);
    for i := 0 to |ls|
      invariant decoder.Valid() && fresh(decoder) && fresh(decoder.store) && fresh(decoder.Objects())
      invariant fresh(decoder.body.buffer) && fresh(decoder.body.buffer.data)
      invariant decoder.slots == SlotsAfterLines(ls[..i]) && decoder.body.buffer.Bits() == MemoryAfter(bits, ls[..i])
      invariant decoder.events == Flatten(Told(bits, ls[..i]))
    {
      assert ls[..i + 1] == ls[..i] + [ls[i]];
      FlattenMore(Told(bits, ls[..i]), LastTold(bits, ls[..i], ls[i]));
      DecodeNext(decoder, bits, ls[..i], ls[i], address);
    }
    assert ls[..|ls|] == ls;
  }

  method DecodeNext(decoder: AisDecoder, ghost bits: Memory, ghost before: seq<Line>, l: Line, address: nat)
    requires decoder.Valid() && Readable(before) && StrToIntOk(Words(l.nmea, MAX_MSG_WORDS))
    requires decoder.slots == SlotsAfterLines(before) && decoder.body.buffer.Bits() == MemoryAfter(bits, before)
    modifies decoder, decoder.store, decoder.Objects(), decoder.body.buffer, decoder.body.buffer.data
    ensures decoder.Valid() && fresh(decoder.Objects() - old(decoder.Objects()))
    ensures Readable(before + [l]) && decoder.slots == SlotsAfterLines(before + [l])
    ensures decoder.body.buffer.Bits() == MemoryAfter(bits, before + [l])
    ensures decoder.events == old(decoder.events) + LastTold(bits, before, l)
    ensures Told(bits, before + [l]) == Told(bits, before) + [LastTold(bits, before, l)]
  {
    hide AisDecoder.Valid, Words, LineStep, AllDone, Decodable;
    assert (before + [l])[..|before|] == before;
    decoder.DecodeMsg(l.line, l.nmea, l.header, l.footer, address);
  }

  lemma NoLines(bits: Memory)
    ensures SlotsAfterLines([]) == seq(MAX_MSG_SEQUENCE_IDS, _ => Empty)
    ensures MemoryAfter(bits, []) == bits && Told(bits, []) == []
  {
  }

  lemma InMemory(decoder: AisDecoder)
    requires decoder.Valid()
    ensures |decoder.body.buffer.Bits()| == 8 * BUFFER_SIZE
  {
  }
}

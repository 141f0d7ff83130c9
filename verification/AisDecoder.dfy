/** The sentence decoder with its ten slots and its pool of buffers.
    lib/aisparser/ais_decoder.cpp, lines 239-339 and 841-1027. */
module AisDecoder {
  import opened Sequences
  import opened Wrappers
  import opened AisAlphabet
  import opened AisMessages
  import opened AisPayload
  import opened Bits
  import opened Fragments
  import opened Nmea

  /** What the user of the decoder is told. */
  datatype Event =
    | OnSentence(line: string)
    | OnMessage(payload: string, header: string, footer: string)
    | OnReport(report: Report)
    | OnDecodeError(text: string, reason: string)
    | OnParseError(line: string)

  const CRC_FAILED := "Sentence decoding error. CRC check failed."
  const NOT_AIS := "Sentence not a valid AIS sentence."
  const BAD_COUNT := "Invalid fragment count value."
  const BAD_ID := "Invalid message sequence id."
  const BAD_NUMBER := "Invalid message fragment number."
  const MULTI_FAILED := "Multi-sentence decoding failed."
  const MAX_MSG_WORDS := 10

  // ----- the decoder as a function

  /** The bits in the decoder's payload buffer. */
  type Memory = b: seq<bool> | |b| == 8 * BUFFER_SIZE witness Zeros(8 * BUFFER_SIZE)

  /** What the decoder does with a line: it tells something, or it decodes a complete payload. */
  datatype Action = Inform(event: Event) | Decode(payload: string, header: string, footer: string, fillBits: nat)

  predicate Decodable(actions: seq<Action>) {
    forall i | 0 <= i < |actions| ::
      actions[i].Decode? ==> 0 < |actions[i].payload| <= MAX_MSG_FRAGMENTS * MAX_MSG_PAYLOAD_LENGTH
  }

  /** A payload is announced, then decoded in the buffer. */
  function Done(bits: Memory, action: Action): (Memory, seq<Event>)
    requires Decodable([action])
  {
    match action
    case Inform(event) => (bits, [event])
    case Decode(payload, header, footer, fillBits) =>
      assert [action][0] == action;
      var bits' := Overwritten(bits, payload);
      (bits', [OnMessage(payload, header, footer),
               match ReportIn(bits', payload, fillBits)
               case Success(report) => OnReport(report)
               case Failure(reason) => OnDecodeError(payload, reason)])
  }

  /** One action after the other. */
  function AllDone(bits: Memory, actions: seq<Action>): (Memory, seq<Event>)
    requires Decodable(actions)
  {
    if actions == [] then (bits, [])
    else
      var (bits', events) := AllDone(bits, actions[..|actions| - 1]);
      assert Decodable([actions[|actions| - 1]]);
      var (bits'', more) := Done(bits', actions[|actions| - 1]);
      (bits'', events + more)
  }

  lemma OneDone(bits: Memory, action: Action)
    requires Decodable([action])
    ensures AllDone(bits, [action]) == Done(bits, action)
  {
    assert [action][..0] == [];
    Nothing(Done(bits, action).1);
  }

  /** Something is told before the rest is done. */
  lemma {:induction false} ToldFirst(bits: Memory, event: Event, actions: seq<Action>)
    requires Decodable(actions)
    ensures Decodable([Inform(event)] + actions)
    ensures AllDone(bits, [Inform(event)] + actions) == (AllDone(bits, actions).0, [event] + AllDone(bits, actions).1)
  {
    hide Done;
    if actions == [] {
      Nothing([Inform(event)]);
      Nothing([event]);
      OneDone(bits, Inform(event));
      assert Done(bits, Inform(event)) == (bits, [event]) by { TellDone(bits, event); }
    } else {
      var before, last := actions[..|actions| - 1], actions[|actions| - 1];
      ToldFirst(bits, event, before);
      assert ([Inform(event)] + actions)[..|actions|] == [Inform(event)] + before;
      assert Decodable([last]);
      Associate([event], AllDone(bits, before).1, Done(AllDone(bits, before).0, last).1);
    }
  }

  lemma TwoTold(bits: Memory, a: Event, b: Event)
    ensures Decodable([Inform(a), Inform(b)]) && AllDone(bits, [Inform(a), Inform(b)]) == (bits, [a, b])
  {
    OneDone(bits, Inform(b));
    TellDone(bits, b);
    ToldFirst(bits, a, [Inform(b)]);
    assert [Inform(a)] + [Inform(b)] == [Inform(a), Inform(b)] && [a] + [b] == [a, b];
  }

  lemma NothingDone(bits: Memory)
    ensures AllDone(bits, []) == (bits, [])
  {
  }

  lemma TellDone(bits: Memory, event: Event)
    ensures Decodable([Inform(event)]) && Done(bits, Inform(event)) == (bits, [event])
  {
  }

  /** The words of a sentence that passes the first checks. */
  predicate ValidWords(words: seq<string>) {
    |words| >= 7 && IsAisTalker(words[0]) && 1 < |words[5]| <= MAX_MSG_PAYLOAD_LENGTH
  }

  function FragmentOf(words: seq<string>, header: string, footer: string): Fragment
    requires ValidWords(words)
    requires StrToInt(words[3]) >= 0
  {
    Fragment(StrToInt(words[3]), SingleDigit(words[1]), SingleDigit(words[2]), words[5], SingleDigit(words[6]),
             header, footer)
  }

  /** One fragment of a message of several. */
  function FragmentActions(outcome: Outcome, nmea: string): seq<Action> {
    match outcome
    case Waiting => []
    case Complete(payload, header, footer, fillBits) => [Decode(payload, header, footer, fillBits)]
    case Broken => [Inform(OnDecodeError(nmea, MULTI_FAILED))]
  }

  /** No slot is kept without a payload. */
  predicate SlotsInUse(slots: Slots) {
    forall i | 0 <= i < |slots| ::
      slots[i].Partial? ==>
        1 <= slots[i].num < slots[i].count <= MAX_MSG_FRAGMENTS
        && 0 < |slots[i].payload| <= slots[i].num * MAX_MSG_PAYLOAD_LENGTH
  }

  /** A sentence whose checksum is right. */
  function WordsStep(slots: Slots, nmea: string, header: string, footer: string): (r: (Slots, seq<Action>))
    requires SlotsInUse(slots) && StrToIntOk(Words(nmea, MAX_MSG_WORDS))
    ensures Decodable(r.1)
  {
    var words := Words(nmea, MAX_MSG_WORDS);
    if !ValidWords(words) then (slots, [Inform(OnDecodeError(nmea, NOT_AIS))])
    else
      var f := FragmentOf(words, header, footer);
      if f.count == 0 || f.count > MAX_MSG_FRAGMENTS then (slots, [Inform(OnDecodeError(nmea, BAD_COUNT))])
      else if f.count == 1 then (slots, [Decode(f.payload, header, footer, f.fillBits)])
      else if f.id >= MAX_MSG_SEQUENCE_IDS then (slots, [Inform(OnDecodeError(nmea, BAD_ID))])
      else if f.num == 0 || f.num > f.count then (slots, [Inform(OnDecodeError(nmea, BAD_NUMBER))])
      else
        StepInUse(slots, f);
        var (slots', outcome) := Step(slots, f);
        (slots', FragmentActions(outcome, nmea))
  }

  /** The sequence id of a sentence is not negative. */
  predicate StrToIntOk(words: seq<string>) {
    |words| > 3 ==> StrToInt(words[3]) >= 0
  }

  function LineStep(slots: Slots, line: string, nmea: string, header: string, footer: string)
    : (r: (Slots, seq<Action>))
    requires SlotsInUse(slots) && StrToIntOk(Words(nmea, MAX_MSG_WORDS))
    ensures Decodable(r.1)
  {
    if |line| <= 2 then (slots, [])
    else if nmea == [] then (slots, [Inform(OnSentence(line)), Inform(OnParseError(line))])
    else if !CrcMatches(nmea) then (slots, [Inform(OnSentence(line)), Inform(OnDecodeError(nmea, CRC_FAILED))])
    else
      var (slots', actions) := WordsStep(slots, nmea, header, footer);
      (slots', [Inform(OnSentence(line))] + actions)
  }

  /** A line with an accepted fragment. */
  lemma AcceptedLine(slots: Slots, line: string, nmea: string, header: string, footer: string, f: Fragment)
    requires SlotsInUse(slots) && StrToIntOk(Words(nmea, MAX_MSG_WORDS)) && ValidWords(Words(nmea, MAX_MSG_WORDS))
    requires |line| > 2 && nmea != [] && CrcMatches(nmea)
    requires f == FragmentOf(Words(nmea, MAX_MSG_WORDS), header, footer) && f.Accepted()
    ensures LineStep(slots, line, nmea, header, footer)
         == (Step(slots, f).0, [Inform(OnSentence(line))] + FragmentActions(Step(slots, f).1, nmea))
  {
    hide Words, StrToInt, CrcMatches;
  }

  lemma StepInUse(slots: Slots, f: Fragment)
    requires SlotsInUse(slots) && f.Accepted() && 0 < |f.payload| <= MAX_MSG_PAYLOAD_LENGTH
    ensures SlotsInUse(Step(slots, f).0)
    ensures var outcome := Step(slots, f).1;
            outcome.Complete? ==> 0 < |outcome.payload| <= MAX_MSG_FRAGMENTS * MAX_MSG_PAYLOAD_LENGTH
  {
    assert slots[f.id].Partial? ==> slots[f.id].num < slots[f.id].count <= MAX_MSG_FRAGMENTS;
  }

  // ----- buffers and slots in place

  /** A growing byte buffer; `clear` keeps its memory. */
  class Buffer {
    var content: string

    constructor ()
      ensures content == []
    {
      content := [];
    }

    method Append(s: string)
      modifies this
      ensures content == old(content) + s
    {
      content := content + s;
    }

    method Clear()
      modifies this
      ensures content == []
    {
      content := [];
    }
  }

  /** The fragments of one message so far. It holds one buffer for the payload and one for each of
      header, footer and the lines received. */
  class MultiSentence {
    const fragmentCount: nat
    var fragmentNum: nat
    const header: string
    const footer: string
    const payloadBuffer: Buffer
    var metaBuffers: seq<Buffer>
    ghost var held: set<Buffer>

    constructor (count: nat, payloadBuffer: Buffer, metaBuffers: seq<Buffer>, header: string, footer: string)
      requires payloadBuffer !in metaBuffers && Distinct(metaBuffers)
      ensures HeldListed() && held == {payloadBuffer} + Elements(metaBuffers)
      ensures fragmentCount == count && fragmentNum == 1 && this.header == header && this.footer == footer
      ensures this.payloadBuffer == payloadBuffer && this.metaBuffers == metaBuffers
    {
      fragmentCount, fragmentNum := count, 1;
      this.header, this.footer := header, footer;
      this.payloadBuffer, this.metaBuffers := payloadBuffer, metaBuffers;
      held := {payloadBuffer} + Elements(metaBuffers);
    }

    /** The buffers held are the payload buffer and the others, all different. */
    ghost predicate HeldListed()
      reads this
    {
      payloadBuffer !in metaBuffers && Distinct(metaBuffers) && held == {payloadBuffer} + Elements(metaBuffers)
    }

    /** Keeps a line. */
    method AddMeta(b: Buffer, num: nat)
      requires HeldListed() && b !in held
      modifies this
      ensures HeldListed() && held == old(held) + {b} && |metaBuffers| == old(|metaBuffers|) + 1 && fragmentNum == num
    {
      assert forall i | 0 <= i < |metaBuffers| :: metaBuffers[i] in Elements(metaBuffers);
      metaBuffers := metaBuffers + [b];
      held := held + {b};
      fragmentNum := num;
    }

    ghost function AsSlot(): Slot
      reads this, payloadBuffer
    {
      Partial(fragmentCount, fragmentNum, payloadBuffer.content, header, footer)
    }
  }

  ghost predicate Distinct<T>(s: seq<T>) {
    forall i, j | 0 <= i < j < |s| :: s[i] != s[j]
  }

  ghost function Elements<T>(s: seq<T>): set<T> {
    set x | x in s
  }

  lemma UpdateKeeps<T>(s: seq<T>, i: nat, x: T)
    requires i < |s|
    ensures x in s[i := x] && (forall y | y in s[i := x] :: y in s || y == x)
    ensures forall y | y in s :: y in s[i := x] || y == s[i]
  {
    forall y | y in s
      ensures y in s[i := x] || y == s[i]
    {
      var k :| 0 <= k < |s| && s[k] == y;
      assert k != i ==> s[i := x][k] == y;
    }
    assert s[i := x][i] == x;
  }

  lemma ElementsTail<T>(s: seq<T>, k: nat)
    requires k < |s| && Distinct(s)
    ensures Elements(s[k + 1..]) == Elements(s[k..]) - {s[k]} && s[k] in Elements(s[k..])
  {
    assert s[k..] == [s[k]] + s[k + 1..];
  }

  lemma ThreeElements<T>(b: T, c: T, d: T, e: T)
    ensures Elements([c, d, e]) == {c, d, e}
    ensures AllDifferent(b, c, d, e) ==> Distinct([c, d, e]) && b !in [c, d, e]
  {
  }

  ghost predicate AllDifferent<T>(b: T, c: T, d: T, e: T) {
    b != c && b != d && b != e && c != d && c != e && d != e
  }

  /** The pool, and who holds what. */
  class BufferStore {
    var buffers: seq<Buffer>
    ghost var owner: map<Buffer, MultiSentence?>   // for every buffer ever allocated; null: nobody
    ghost var loose: set<Buffer>                   // taken from the pool and not yet handed on

    /** A buffer nobody holds is in the pool, once and empty, unless it is just being handed on. */
    ghost predicate Valid()
      reads this, owner.Keys
    {
      && Distinct(buffers)
      && (forall b | b in buffers :: b in owner && owner[b] == null && b !in loose && b.content == [])
      && (forall b | b in owner && owner[b] == null :: b in buffers || b in loose)
      && (forall b | b in loose :: b in owner && owner[b] == null)
    }

    constructor ()
      ensures Valid() && buffers == [] && owner == map[] && loose == {}
    {
      buffers, owner, loose := [], map[], {};
    }

    method GetBuffer() returns (b: Buffer)
      requires Valid()
      modifies this
      ensures Valid() && b !in old(loose) && loose == old(loose) + {b} && b.content == []
      ensures owner == old(owner)[b := null]
      ensures if b in old(owner) then old(owner)[b] == null else fresh(b)
    {
      if buffers == [] {
        b := new Buffer();
        owner := owner[b := null];
      } else {
        b := buffers[|buffers| - 1];
        buffers := buffers[..|buffers| - 1];
      }
      loose := loose + {b};
    }

    method ReturnBuffer(b: Buffer)
      requires Valid() && b in loose
      modifies this, b
      ensures Valid() && loose == old(loose) - {b} && owner == old(owner)
    {
      b.Clear();
      buffers := buffers + [b];
      loose := loose - {b};
    }

    method ReturnBuffers(bs: seq<Buffer>)
      requires Valid() && Distinct(bs) && loose == Elements(bs)
      modifies this, bs
      ensures Valid() && loose == {} && owner == old(owner)
    {
      assert bs[0..] == bs;
      for i := 0 to |bs|
        invariant Valid() && owner == old(owner) && loose == Elements(bs[i..])
      {
        ElementsTail(bs, i);
        ReturnBuffer(bs[i]);
      }
      assert Elements(bs[|bs|..]) == {};
    }

    /** Two more buffers from the pool. */
    method TwoBuffers() returns (b: Buffer, c: Buffer)
      requires Valid()
      modifies this
      ensures Valid() && b != c && b !in old(loose) && c !in old(loose) && loose == old(loose) + {b, c}
      ensures b.content == [] && c.content == []
      ensures owner == old(owner)[b := null][c := null]
      ensures if b in old(owner) then old(owner)[b] == null else fresh(b)
      ensures if c in old(owner) then old(owner)[c] == null else fresh(c)
    {
      b := GetBuffer();
      c := GetBuffer();
    }

    method FourBuffers() returns (b: Buffer, c: Buffer, d: Buffer, e: Buffer)
      requires Valid() && loose == {}
      modifies this
      ensures Valid() && loose == {b, c, d, e} && AllDifferent(b, c, d, e)
      ensures b.content == c.content == d.content == e.content == []
      ensures owner.Keys == old(owner.Keys) + loose && fresh(loose - old(owner.Keys))
      ensures forall x | x in old(owner) :: owner[x] == old(owner)[x]
      ensures forall x | x in loose :: owner[x] == null
    {
      b, c := TwoBuffers();
      d, e := TwoBuffers();
    }

    /** The four buffers of a new message. */
    method MessageBuffers(payload: string, header: string, footer: string, line: string)
        returns (b: Buffer, bs: seq<Buffer>)
      requires Valid() && loose == {}
      modifies this, owner.Keys
      ensures Valid() && b.content == payload && b !in bs && |bs| == 3 && Distinct(bs)
      ensures loose == {b} + Elements(bs)
      ensures owner.Keys == old(owner.Keys) + loose && fresh(loose - old(owner.Keys))
      ensures forall x | x in old(owner) :: owner[x] == old(owner)[x]
      ensures forall x | x in loose :: owner[x] == null
      ensures forall x | x in old(owner) && x !in loose :: x.content == old(x.content)
    {
      var c, d, e;
      b, c, d, e := FourBuffers();
      b.Append(payload);
      c.Append(header);
      d.Append(footer);
      e.Append(line);
      ThreeElements(b, c, d, e);
      hide Distinct, Elements;
      bs := [c, d, e];
    }

    /** Hands the buffers just taken on to their holder. */
    ghost method HandOn(m: MultiSentence)
      requires Valid()
      modifies this`owner, this`loose
      ensures Valid() && loose == {}
      ensures owner == map b | b in old(owner) :: if b in old(loose) then m else old(owner)[b]
    {
      owner := map b | b in owner :: if b in loose then m else owner[b];
      loose := {};
    }

    /** Takes the buffers of a message that goes away. */
    ghost method TakeBack(held: set<Buffer>)
      requires Valid() && loose == {} && forall b | b in held :: b in owner && owner[b] != null
      modifies this`owner, this`loose
      ensures Valid() && loose == held
      ensures owner == map b | b in old(owner) :: if b in held then null else old(owner)[b]
    {
      owner := map b | b in owner :: if b in held then null else owner[b];
      loose := held;
    }
  }

  class AisDecoder {
    const store: BufferStore
    const body: BodyDecoder
    var multiSentences: seq<MultiSentence?>
    var events: seq<Event>
    ghost var slots: Slots   // the slots, without the buffers behind them

    /** A message in its slot holds its buffers, each of them once and no others. */
    ghost predicate Holds(m: MultiSentence)
      reads store, m
    {
      && m.HeldListed() && m.payloadBuffer in m.held && |m.metaBuffers| == 2 + m.fragmentNum
      && (forall b | b in m.held :: b in store.owner && store.owner[b] == m)
      && (forall b | b in store.owner && store.owner[b] == m :: b in m.held)
    }

    ghost function Objects(): set<object>
      reads this`multiSentences, store
    {
      (set m: MultiSentence | m in multiSentences :: m as object) + store.owner.Keys
    }

    lemma InObjects(id: nat)
      requires id < |multiSentences| && multiSentences[id] != null
      ensures multiSentences[id] in Objects()
    {
      assert multiSentences[id] in multiSentences;
    }

    /** Every buffer that is held is held by one message in a slot, or by the message `dying` that has
        just left its slot. */
    ghost predicate Tenured(dying: MultiSentence?)
      reads this`multiSentences, store, Objects()
    {
      && |multiSentences| == MAX_MSG_SEQUENCE_IDS
      && (forall m: MultiSentence | m in multiSentences :: Holds(m))
      && (forall i, j | 0 <= i < j < |multiSentences| ::
            multiSentences[i] != null ==> multiSentences[i] != multiSentences[j])
      && (forall b | b in store.owner && store.owner[b] != null ::
            store.owner[b] in multiSentences || store.owner[b] == dying)
    }

    /** Conservation: every buffer ever allocated is in the pool and empty, or held by exactly one message. */
    ghost predicate Conserved(dying: MultiSentence?)
      reads this`multiSentences, store, Objects()
    {
      Tenured(dying) && store.Valid() && store.loose == {}
    }

    ghost predicate ShowsSlots()
      requires |multiSentences| == MAX_MSG_SEQUENCE_IDS
      reads this`multiSentences, this`slots, set m: MultiSentence | m in multiSentences :: m,
            set m: MultiSentence | m in multiSentences :: m.payloadBuffer
    {
      forall i | 0 <= i < MAX_MSG_SEQUENCE_IDS ::
        slots[i] == if multiSentences[i] == null then Empty else multiSentences[i].AsSlot()
    }

    ghost predicate Valid()
      reads this`multiSentences, this`slots, store, Objects(), body.buffer,
            set m: MultiSentence | m in multiSentences :: m.payloadBuffer
    {
      && |multiSentences| == MAX_MSG_SEQUENCE_IDS && Conserved(null) && ShowsSlots() && SlotsInUse(slots)
      && body.buffer.data.Length == BUFFER_SIZE
    }

    constructor ()
      ensures Valid() && events == [] && slots == seq(MAX_MSG_SEQUENCE_IDS, _ => Empty)
      ensures fresh(store) && fresh(Objects()) && fresh(body.buffer) && fresh(body.buffer.data)
    {
      store := new BufferStore();
      body := new BodyDecoder();
      multiSentences := seq(MAX_MSG_SEQUENCE_IDS, _ => null);
      events := [];
      slots := seq(MAX_MSG_SEQUENCE_IDS, _ => Empty);
    }

    /** Taking buffers from the pool concerns no message in a slot. */
    method BuffersFor(f: Fragment, line: string) returns (b: Buffer, bs: seq<Buffer>)
      requires Conserved(null) && ShowsSlots()
      modifies store, store.owner.Keys
      ensures store.Valid() && Tenured(null) && ShowsSlots()
      ensures b.content == f.payload && b !in bs && |bs| == 3 && Distinct(bs)
      ensures store.loose == {b} + Elements(bs)
      ensures old(store.owner.Keys) <= store.owner.Keys && fresh(store.owner.Keys - old(store.owner.Keys))
    {
      hide MultiSentence.HeldListed;
      NoneShared();
      b, bs := store.MessageBuffers(f.payload, f.header, f.footer, line);
    }

    /** The first fragment: a message with a buffer for its payload and three for header, footer, line. */
    method NewMultiSentence(f: Fragment, line: string) returns (m: MultiSentence)
      requires Conserved(null) && ShowsSlots()
      modifies store, store.owner.Keys
      ensures fresh(m) && m.fragmentCount == f.count && m.fragmentNum == 1
      ensures m.payloadBuffer.content == f.payload && m.header == f.header && m.footer == f.footer
      ensures Holds(m) && m !in multiSentences && Conserved(m) && ShowsSlots()
      ensures old(store.owner.Keys) <= store.owner.Keys && fresh(store.owner.Keys - old(store.owner.Keys))
    {
      hide MultiSentence.HeldListed, Distinct, Elements, BufferStore.Valid, Holds;
      var payloadBuffer, metaBuffers := BuffersFor(f, line);
      m := new MultiSentence(f.count, payloadBuffer, metaBuffers, f.header, f.footer);
      Adopt(m);
    }

    /** A message that is not in a slot yet gets the buffers just taken. */
    ghost method Adopt(m: MultiSentence)
      requires Tenured(null) && ShowsSlots() && store.Valid() && m !in multiSentences
      requires m.HeldListed() && m.payloadBuffer in m.held && |m.metaBuffers| == 2 + m.fragmentNum
      requires m.held == store.loose && forall b | b in store.owner :: store.owner[b] != m
      modifies store`owner, store`loose
      ensures Holds(m) && Conserved(m) && ShowsSlots() && store.owner.Keys == old(store.owner.Keys)
    {
      hide MultiSentence.HeldListed, Distinct;
      store.HandOn(m);
    }

    /** The payload buffer of a message in a slot is not in the pool. */
    lemma NoneShared()
      requires Conserved(null)
      ensures forall i | 0 <= i < |multiSentences| && multiSentences[i] != null ::
                && multiSentences[i].payloadBuffer in store.owner
                && store.owner[multiSentences[i].payloadBuffer] == multiSentences[i]
    {
      forall i | 0 <= i < |multiSentences| && multiSentences[i] != null
        ensures multiSentences[i].payloadBuffer in store.owner
        ensures store.owner[multiSentences[i].payloadBuffer] == multiSentences[i]
      {
        assert Holds(multiSentences[i]);
      }
    }

    /** The destructor of a message: its buffers go back to the pool. */
    method Destroy(m: MultiSentence)
      requires Conserved(m) && m !in multiSentences && Holds(m)
      modifies store, m.held
      ensures Conserved(null) && store.owner.Keys == old(store.owner.Keys)
      ensures forall b | b in store.owner && old(store.owner)[b] != m :: store.owner[b] == old(store.owner)[b]
    {
      store.TakeBack(m.held);
      store.ReturnBuffer(m.payloadBuffer);
      store.ReturnBuffers(m.metaBuffers);
    }

    lemma NotShared(gone: MultiSentence)
      requires Conserved(gone) && Holds(gone) && gone !in multiSentences
      ensures forall i | 0 <= i < |multiSentences| && multiSentences[i] != null ::
                multiSentences[i].payloadBuffer !in gone.held
    {
      forall i | 0 <= i < |multiSentences| && multiSentences[i] != null
        ensures multiSentences[i].payloadBuffer !in gone.held
      {
        assert Holds(multiSentences[i]);
      }
    }

    method SetSlot(id: nat, m: MultiSentence?) returns (replaced: MultiSentence?)
      requires id < MAX_MSG_SEQUENCE_IDS && Conserved(m) && ShowsSlots()
      requires m != null ==> Holds(m) && m !in multiSentences
      modifies this`multiSentences, this`slots
      ensures replaced == old(multiSentences)[id] && (replaced != null ==> Holds(replaced) && replaced !in multiSentences)
      ensures Conserved(replaced) && ShowsSlots()
      ensures multiSentences == old(multiSentences)[id := m]
      ensures slots == old(slots)[id := if m == null then Empty else m.AsSlot()]
    {
      hide MultiSentence.HeldListed;
      replaced := multiSentences[id];
      UpdateKeeps(multiSentences, id, m);
      multiSentences := multiSentences[id := m];
      slots := slots[id := if m == null then Empty else m.AsSlot()];
    }

    /** Puts a message, or none, into a slot; the message that was there goes away. */
    method ReplaceSlot(id: nat, m: MultiSentence?)
      requires id < MAX_MSG_SEQUENCE_IDS && Conserved(m) && ShowsSlots()
      requires m != null ==> Holds(m) && m !in multiSentences
      modifies this`multiSentences, this`slots, store, store.owner.Keys
      ensures Conserved(null) && ShowsSlots()
      ensures multiSentences == old(multiSentences)[id := m]
      ensures slots == old(slots)[id := if m == null then Empty else old(m.AsSlot())]
      ensures store.owner.Keys == old(store.owner.Keys)
    {
      hide MultiSentence.HeldListed;
      var replaced := SetSlot(id, m);
      if replaced != null {
        NotShared(replaced);
        Destroy(replaced);
      }
    }
  
    method AppendPayload(id: nat, f: Fragment)
      requires id < MAX_MSG_SEQUENCE_IDS && Conserved(null) && ShowsSlots() && multiSentences[id] != null
      modifies multiSentences[id].payloadBuffer, this`slots
      ensures Conserved(null) && ShowsSlots()
      ensures slots == old(slots)[id := old(slots)[id].(payload := old(slots)[id].payload + f.payload)]
    {
      NoneShared();
      multiSentences[id].payloadBuffer.Append(f.payload);
      slots := slots[id := slots[id].(payload := slots[id].payload + f.payload)];
    }

    method BufferFor(line: string) returns (b: Buffer)
      requires Conserved(null) && ShowsSlots()
      modifies store, store.owner.Keys
      ensures store.Valid() && Tenured(null) && ShowsSlots() && store.loose == {b}
      ensures old(store.owner.Keys) <= store.owner.Keys && fresh(store.owner.Keys - old(store.owner.Keys))
    {
      hide MultiSentence.HeldListed, Distinct;
      NoneShared();
      b := store.GetBuffer();
      b.Append(line);
    }

    /** A message in a slot gets one buffer more, for a line. */
    method AdoptLine(m: MultiSentence, b: Buffer, num: nat)
      requires Tenured(null) && store.Valid() && store.loose == {b}
      requires m in multiSentences && num == m.fragmentNum + 1
      modifies store`owner, store`loose, m
      ensures Conserved(null) && m.fragmentNum == num && store.owner.Keys == old(store.owner.Keys)
    {
      hide MultiSentence.HeldListed, Distinct;
      assert Holds(m);
      m.AddMeta(b, num);
      store.HandOn(m);
    }

    method KeepLine(id: nat, f: Fragment, line: string)
      requires id < MAX_MSG_SEQUENCE_IDS && Conserved(null) && ShowsSlots()
      requires multiSentences[id] != null && f.num == multiSentences[id].fragmentNum + 1
      modifies store, store.owner.Keys, multiSentences[id], this`slots
      ensures Conserved(null) && ShowsSlots()
      ensures slots == old(slots)[id := old(slots)[id].(num := f.num)]
      ensures old(store.owner.Keys) <= store.owner.Keys && fresh(store.owner.Keys - old(store.owner.Keys))
    {
      hide MultiSentence.HeldListed, Distinct, Holds, BufferStore.Valid;
      var b := BufferFor(line);
      AdoptLine(multiSentences[id], b, f.num);
      slots := slots[id := slots[id].(num := f.num)];
    }

    /** One more fragment for the message in a slot: its payload is appended and its line kept. */
    method AddFragment(id: nat, f: Fragment, line: string)
      requires id < MAX_MSG_SEQUENCE_IDS && Conserved(null) && ShowsSlots()
      requires multiSentences[id] != null && f.num == multiSentences[id].fragmentNum + 1
      modifies store, store.owner.Keys, multiSentences[id], this`slots
      ensures Conserved(null) && ShowsSlots()
      ensures slots == old(slots)[id := old(slots)[id].(num := f.num, payload := old(slots)[id].payload + f.payload)]
      ensures old(store.owner.Keys) <= store.owner.Keys && fresh(store.owner.Keys - old(store.owner.Keys))
    {
      assert Holds(multiSentences[id]);
      AppendPayload(id, f);
      KeepLine(id, f, line);
    }
  
    /** Objects that came in are new ones. */
    twostate predicate OnlyNew()
      reads this, store
    {
      fresh(Objects() - old(Objects()))
    }

    twostate lemma NewObjects()
      requires fresh(store.owner.Keys - old(store.owner.Keys))
      requires forall m: MultiSentence | m in multiSentences :: m in old(multiSentences) || fresh(m)
      ensures OnlyNew()
    {
    }

    /** What was done since: the events told and the buffer left behind are those of the actions. */
    twostate predicate Did(actions: seq<Action>)
      requires body.buffer.data.Length == BUFFER_SIZE
      reads this`events, body.buffer, body.buffer.data
    {
      && Decodable(actions) && body.buffer.Bits() == AllDone(old(body.buffer.Bits()), actions).0
      && events == old(events) + AllDone(old(body.buffer.Bits()), actions).1
    }

    /** Announces a payload and decodes it. */
    method Message(payload: string, header: string, footer: string, fillBits: nat)
      requires body.buffer.data.Length == BUFFER_SIZE
      requires 0 < |payload| <= MAX_MSG_FRAGMENTS * MAX_MSG_PAYLOAD_LENGTH
      modifies this`events, body.buffer, body.buffer.data
      ensures Did([Decode(payload, header, footer, fillBits)])
    {
      hide ReportIn, Overwritten;
      ghost var before, bits := events, body.buffer.Bits();
      ghost var action := Decode(payload, header, footer, fillBits);
      assert [action][0] == action;
      OneDone(bits, action);
      events := events + [OnMessage(payload, header, footer)];
      var r := body.DecodeMobileAisMsg(payload, fillBits);
      match r {
        case Success(report) => events := events + [OnReport(report)];
        case Failure(reason) => events := events + [OnDecodeError(payload, reason)];
      }
      assert events == before + Done(bits, action).1;
    }

    method FirstFragment(f: Fragment, line: string)
      requires Valid() && f.Accepted() && f.num == 1 && 0 < |f.payload| <= MAX_MSG_PAYLOAD_LENGTH
      modifies this`multiSentences, this`slots, store, store.owner.Keys
      ensures Valid() && slots == Step(old(slots), f).0 && OnlyNew()
    {
      hide MultiSentence.HeldListed, Distinct, Holds, Tenured, BufferStore.Valid, SlotsInUse;
      StepInUse(slots, f);
      var m := NewMultiSentence(f, line);
      UpdateKeeps(multiSentences, f.id, m);
      ReplaceSlot(f.id, m);
      NewObjects();
    }
  
    /** A fragment that does not continue what is in its slot. */
    method BreakSlot(id: nat, nmea: string)
      requires Valid() && id < MAX_MSG_SEQUENCE_IDS
      modifies this`multiSentences, this`slots, this`events, store, store.owner.Keys
      ensures Valid() && slots == old(slots)[id := Empty] && OnlyNew()
      ensures Did([Inform(OnDecodeError(nmea, MULTI_FAILED))])
    {
      hide MultiSentence.HeldListed, Distinct, BufferStore.Valid;
      UpdateKeeps(multiSentences, id, null);
      ReplaceSlot(id, null);
      NewObjects();
      OneDone(body.buffer.Bits(), Inform(OnDecodeError(nmea, MULTI_FAILED)));
      events := events + [OnDecodeError(nmea, MULTI_FAILED)];
    }

    /** A fragment that continues what is in its slot; the last one completes the message. */
    method NextFragment(f: Fragment, line: string, ghost nmea: string)
      requires Valid() && f.Accepted() && 0 < |f.payload| <= MAX_MSG_PAYLOAD_LENGTH
      requires f.num > 1 && slots[f.id].Partial? && f.num <= slots[f.id].count && slots[f.id].num == f.num - 1
      modifies this, store, store.owner.Keys, multiSentences[f.id], body.buffer, body.buffer.data
      ensures Valid() && slots == Step(old(slots), f).0 && OnlyNew()
      ensures Did(FragmentActions(Step(old(slots), f).1, nmea))
    {
      hide Conserved, AllDone;
      StepInUse(slots, f);
      Nothing(events);
      NothingDone(body.buffer.Bits());
      var m := multiSentences[f.id];
      AddFragment(f.id, f, line);
      if m.fragmentCount == m.fragmentNum {
        CompleteMessage(f.id, f.fillBits);
      }
      NewObjects();
    }

    /** The last fragment has come: the message is decoded and goes away. */
    method CompleteMessage(id: nat, fillBits: nat)
      requires id < MAX_MSG_SEQUENCE_IDS && Conserved(null) && ShowsSlots() && multiSentences[id] != null
      requires 0 < |slots[id].payload| <= MAX_MSG_FRAGMENTS * MAX_MSG_PAYLOAD_LENGTH
      requires body.buffer.data.Length == BUFFER_SIZE
      modifies this, store, store.owner.Keys, body.buffer, body.buffer.data
      ensures Conserved(null) && ShowsSlots() && slots == old(slots)[id := Empty]
      ensures store.owner.Keys == old(store.owner.Keys) && multiSentences == old(multiSentences)[id := null]
      ensures Did([Decode(old(slots)[id].payload, old(slots)[id].header, old(slots)[id].footer, fillBits)])
    {
      hide MultiSentence.HeldListed, Distinct, BufferStore.Valid, AllDone;
      var m := multiSentences[id];
      Message(m.payloadBuffer.content, m.header, m.footer, fillBits);
      ReplaceSlot(id, null);
    }
  
    method HandleFragment(f: Fragment, line: string, nmea: string)
      requires Valid() && f.Accepted() && 0 < |f.payload| <= MAX_MSG_PAYLOAD_LENGTH
      modifies this, store, store.owner.Keys, multiSentences[f.id], body.buffer, body.buffer.data
      ensures Valid() && slots == Step(old(slots), f).0 && OnlyNew()
      ensures Did(FragmentActions(Step(old(slots), f).1, nmea))
    {
      hide AllDone;
      var m := multiSentences[f.id];
      if f.num == 1 {
        Nothing(events);
        NothingDone(body.buffer.Bits());
        FirstFragment(f, line);
      } else if m != null && f.num <= m.fragmentCount && m.fragmentNum == f.num - 1 {
        NextFragment(f, line, nmea);
      } else {
        BreakSlot(f.id, nmea);
      }
    }

    /** Tells the user something. */
    method Tell(e: Event)
      requires Valid()
      modifies this`events
      ensures Valid() && Did([Inform(e)]) && events == old(events) + [e]
    {
      hide MultiSentence.HeldListed, Distinct;
      OneDone(body.buffer.Bits(), Inform(e));
      events := events + [e];
    }

    /** A message in a single sentence. */
    method SingleMessage(f: Fragment, header: string, footer: string)
      requires Valid() && 0 < |f.payload| <= MAX_MSG_PAYLOAD_LENGTH
      modifies this`events, body.buffer, body.buffer.data
      ensures Valid() && Did([Decode(f.payload, header, footer, f.fillBits)])
    {
      hide MultiSentence.HeldListed, Distinct, AllDone;
      Message(f.payload, header, footer, f.fillBits);
    }

    method SentenceWords(nmea: string) returns (words: seq<string>)
      requires Valid()
      ensures Valid() && words == Words(nmea, MAX_MSG_WORDS)
    {
      hide MultiSentence.HeldListed, Distinct, Words;
      words := Separate(nmea, MAX_MSG_WORDS);
    }

    method SentenceCrc(nmea: string, address: nat) returns (ok: bool)
      requires Valid()
      ensures Valid() && ok == CrcMatches(nmea)
    {
      hide MultiSentence.HeldListed, Distinct, CrcMatches;
      ok := CheckCrc(nmea, address);
    }

    /** A sentence whose checksum is right. */
    method DecodeWords(line: string, nmea: string, header: string, footer: string)
      requires Valid() && StrToIntOk(Words(nmea, MAX_MSG_WORDS))
      modifies this, store, Objects(), body.buffer, body.buffer.data
      ensures Valid() && OnlyNew() && slots == WordsStep(old(slots), nmea, header, footer).0
      ensures Did(WordsStep(old(slots), nmea, header, footer).1)
    {
      hide Conserved, ShowsSlots, Words, StrToInt, SlotStep, AllDone;
      var words := SentenceWords(nmea);
      if !ValidWords(words) {
        Tell(OnDecodeError(nmea, NOT_AIS));
        return;
      }
      var f := FragmentOf(words, header, footer);
      if f.count == 0 || f.count > MAX_MSG_FRAGMENTS {
        Tell(OnDecodeError(nmea, BAD_COUNT));
      } else if f.count == 1 {
        SingleMessage(f, header, footer);
      } else if f.id >= MAX_MSG_SEQUENCE_IDS {
        Tell(OnDecodeError(nmea, BAD_ID));
      } else if f.num == 0 || f.num > f.count {
        Tell(OnDecodeError(nmea, BAD_NUMBER));
      } else {
        if multiSentences[f.id] != null { InObjects(f.id); }
        HandleFragment(f, line, nmea);
      }
    }

    /** One line. What the parser finds in it, the sentence and what stands before and behind it, is
        given; `address` is where the sentence lies in memory. */
    method DecodeMsg(line: string, nmea: string, header: string, footer: string, address: nat)
      requires Valid() && StrToIntOk(Words(nmea, MAX_MSG_WORDS))
      modifies this, store, Objects(), body.buffer, body.buffer.data
      ensures Valid() && OnlyNew() && slots == LineStep(old(slots), line, nmea, header, footer).0
      ensures Did(LineStep(old(slots), line, nmea, header, footer).1)
    {
      hide Conserved, ShowsSlots, Words, StrToInt, WordsStep, CrcMatches;
      hide AllDone, Done, MultiSentence.HeldListed, Distinct;
      Nothing(events);
      ghost var bits, told := body.buffer.Bits(), events;
      NothingDone(bits);
      if |line| > 2 {
        Tell(OnSentence(line));
        if nmea != [] {
          var ok := SentenceCrc(nmea, address);
          if ok {
            ghost var actions := WordsStep(slots, nmea, header, footer).1;
            ToldFirst(bits, OnSentence(line), actions);
            Associate(told, [OnSentence(line)], AllDone(bits, actions).1);
            DecodeWords(line, nmea, header, footer);
          } else {
            TwoTold(bits, OnSentence(line), OnDecodeError(nmea, CRC_FAILED));
            Tell(OnDecodeError(nmea, CRC_FAILED));
          }
        } else {
          TwoTold(bits, OnSentence(line), OnParseError(line));
          Tell(OnParseError(line));
        }
      }
    }
  
    /** What conservation says of each buffer: it is in the pool, once and empty, and in no message; or it
        is not in the pool and held by the message of exactly one slot. */
    lemma BufferInOnePlace(b: Buffer)
      requires Valid() && b in store.owner
      ensures b in store.buffers ==>
                b.content == []
                && forall i | 0 <= i < MAX_MSG_SEQUENCE_IDS && multiSentences[i] != null :: b !in multiSentences[i].held
      ensures b !in store.buffers ==>
                exists i :: 0 <= i < MAX_MSG_SEQUENCE_IDS && multiSentences[i] != null && b in multiSentences[i].held
                            && forall j | 0 <= j < MAX_MSG_SEQUENCE_IDS && j != i && multiSentences[j] != null ::
                                 b !in multiSentences[j].held
      ensures forall i, j | 0 <= i < j < |store.buffers| :: store.buffers[i] != store.buffers[j]
    {
      hide MultiSentence.HeldListed;
      forall i | 0 <= i < MAX_MSG_SEQUENCE_IDS && multiSentences[i] != null
        ensures b in multiSentences[i].held <==> store.owner[b] == multiSentences[i]
      {
        assert Holds(multiSentences[i]);
      }
      if b !in store.buffers {
        var i :| 0 <= i < MAX_MSG_SEQUENCE_IDS && multiSentences[i] == store.owner[b];
        assert b in multiSentences[i].held;
      }
    }
  }
}

/** Reassembly of multi-sentence messages, as a function of the stream of fragments.
    lib/aisparser/ais_decoder.cpp, lines 264-339 and 921-1003. */
module Fragments {
  const MAX_MSG_FRAGMENTS := 5
  const MAX_MSG_SEQUENCE_IDS := 10
  const MAX_MSG_PAYLOAD_LENGTH := 82

  /** One sentence of a message of several. */
  datatype Fragment = Fragment(id: nat, count: nat, num: nat, payload: string, fillBits: nat,
                               header: string, footer: string)
  {
    /** What the decoder checks before it looks at the slot. */
    predicate Accepted() {
      id < MAX_MSG_SEQUENCE_IDS && 2 <= count <= MAX_MSG_FRAGMENTS && 1 <= num <= count
    }
  }

  /** What is kept for one sequence id. */
  datatype Slot = Empty | Partial(count: nat, num: nat, payload: string, header: string, footer: string)

  datatype Outcome =
    | Waiting
    | Complete(payload: string, header: string, footer: string, fillBits: nat)
    | Broken

  function SlotStep(slot: Slot, f: Fragment): (Slot, Outcome) {
    if f.num == 1 then (Partial(f.count, 1, f.payload, f.header, f.footer), Waiting)
    else if slot.Empty? || f.num > slot.count || slot.num != f.num - 1 then (Empty, Broken)
    else
      var payload := slot.payload + f.payload;
      if f.num == slot.count then (Empty, Complete(payload, slot.header, slot.footer, f.fillBits))
      else (slot.(num := f.num, payload := payload), Waiting)
  }

  /** A slot after the fragments of its own id. */
  function SlotAfter(fs: seq<Fragment>): Slot {
    if fs == [] then Empty else SlotStep(SlotAfter(fs[..|fs| - 1]), fs[|fs| - 1]).0
  }

  // ----- what a slot holds

  /** The stream ends with fragments numbered 1 to n. */
  predicate EndsInOrder(fs: seq<Fragment>, n: nat) {
    1 <= n <= |fs| && forall k | |fs| - n <= k < |fs| :: fs[k].num == k - (|fs| - n) + 1
  }

  /** The payloads of the last `n` fragments, in order. */
  function LastPayloads(fs: seq<Fragment>, n: nat): string
    requires n <= |fs|
  {
    if n == 0 then [] else LastPayloads(fs[..|fs| - 1], n - 1) + fs[|fs| - 1].payload
  }

  predicate AllAccepted(fs: seq<Fragment>) {
    forall i | 0 <= i < |fs| :: fs[i].Accepted()
  }

  /** The slot is what the last fragments say it is. */
  predicate Describes(slot: Slot, fs: seq<Fragment>) {
    match slot
    case Empty => true
    case Partial(count, num, payload, header, footer) =>
      && EndsInOrder(fs, num) && num < count
      && count == fs[|fs| - num].count && payload == LastPayloads(fs, num)
      && header == fs[|fs| - num].header && footer == fs[|fs| - num].footer
  }

  /** A slot is in use exactly while the fragments since the last first one have come in order and
      are fewer than that one announced; it then holds their payloads. */
  lemma {:induction false} SlotMeaning(fs: seq<Fragment>)
    requires AllAccepted(fs)
    ensures Describes(SlotAfter(fs), fs)
    ensures SlotAfter(fs).Partial? <==>
            fs != [] && var n := fs[|fs| - 1].num; EndsInOrder(fs, n) && n < fs[|fs| - n].count
  {
    if fs != [] {
      var before, f := fs[..|fs| - 1], fs[|fs| - 1];
      SlotMeaning(before);
      if f.num > 1 { OrderBefore(fs); }
      assert fs[|fs| - 1].Accepted();
    }
  }

  lemma OrderBefore(fs: seq<Fragment>)
    requires fs != [] && fs[|fs| - 1].num > 1
    ensures var n := fs[|fs| - 1].num;
            EndsInOrder(fs, n) <==>
            |fs| > 1 && fs[|fs| - 2].num == n - 1 && EndsInOrder(fs[..|fs| - 1], n - 1)
  {
    var n, before := fs[|fs| - 1].num, fs[..|fs| - 1];
    if n <= |fs| {
      forall k | |before| - (n - 1) <= k < |before|
        ensures before[k] == fs[k] && k - (|before| - (n - 1)) + 1 == k - (|fs| - n) + 1
      {
      }
      if EndsInOrder(fs, n) {
        assert fs[|fs| - 2].num == n - 1;
      }
    }
  }

  /** A message is delivered exactly when the last fragments are number 1 to the count that the first
      of them announced, without a gap; the payload is theirs in order. */
  lemma DeliveredExactly(fs: seq<Fragment>)
    requires fs != [] && AllAccepted(fs)
    ensures var f := fs[|fs| - 1];
            var outcome := SlotStep(SlotAfter(fs[..|fs| - 1]), f).1;
            && (outcome.Complete? <==> f.num > 1 && EndsInOrder(fs, f.num) && fs[|fs| - f.num].count == f.num)
            && (outcome.Complete? ==>
                  && outcome.payload == LastPayloads(fs, f.num)
                  && outcome.header == fs[|fs| - f.num].header && outcome.footer == fs[|fs| - f.num].footer
                  && outcome.fillBits == f.fillBits)
  {
    hide SlotAfter, LastPayloads;
    var before, f := fs[..|fs| - 1], fs[|fs| - 1];
    SlotMeaning(before);
    assert f.Accepted();
    if f.num > 1 {
      OrderBefore(fs);
      if f.num <= |fs| { LastPayloadsNext(fs, f.num); }
      var slot := SlotAfter(before);
      if slot.Partial? {
        assert before[|before| - 1].num == slot.num;
        assert slot.num == f.num - 1 ==> fs[|fs| - f.num] == before[|before| - slot.num];
      }
    }
  }

  lemma LastPayloadsNext(fs: seq<Fragment>, n: nat)
    requires 0 < n <= |fs|
    ensures LastPayloads(fs, n) == LastPayloads(fs[..|fs| - 1], n - 1) + fs[|fs| - 1].payload
  {
  }

  // ----- ten slots and one stream

  type Slots = s: seq<Slot> | |s| == MAX_MSG_SEQUENCE_IDS witness seq(MAX_MSG_SEQUENCE_IDS, _ => Empty)

  function Step(slots: Slots, f: Fragment): (Slots, Outcome)
    requires f.Accepted()
  {
    var (slot, outcome) := SlotStep(slots[f.id], f);
    (slots[f.id := slot], outcome)
  }

  function SlotsAfter(fs: seq<Fragment>): Slots
    requires AllAccepted(fs)
  {
    if fs == [] then seq(MAX_MSG_SEQUENCE_IDS, _ => Empty)
    else Step(SlotsAfter(fs[..|fs| - 1]), fs[|fs| - 1]).0
  }

  /** The outcome of each fragment of the stream, with its id. */
  function Outcomes(fs: seq<Fragment>): (r: seq<(nat, Outcome)>)
    requires AllAccepted(fs)
  {
    if fs == [] then []
    else
      var before, f := fs[..|fs| - 1], fs[|fs| - 1];
      Outcomes(before) + [(f.id, Step(SlotsAfter(before), f).1)]
  }

  function OfId(fs: seq<Fragment>, id: nat): seq<Fragment> {
    if fs == [] then []
    else OfId(fs[..|fs| - 1], id) + if fs[|fs| - 1].id == id then [fs[|fs| - 1]] else []
  }

  function OutcomesOfId(r: seq<(nat, Outcome)>, id: nat): seq<(nat, Outcome)> {
    if r == [] then []
    else OutcomesOfId(r[..|r| - 1], id) + if r[|r| - 1].0 == id then [r[|r| - 1]] else []
  }

  lemma {:induction false} OfIdAccepted(fs: seq<Fragment>, id: nat)
    requires AllAccepted(fs)
    ensures AllAccepted(OfId(fs, id))
    ensures forall i | 0 <= i < |OfId(fs, id)| :: OfId(fs, id)[i].id == id
  {
    if fs != [] { OfIdAccepted(fs[..|fs| - 1], id); }
  }

  /** Sentences of other ids leave a slot alone. */
  lemma {:induction false} SlotOfId(fs: seq<Fragment>, id: nat)
    requires AllAccepted(fs) && id < MAX_MSG_SEQUENCE_IDS
    ensures SlotsAfter(fs)[id] == SlotAfter(OfId(fs, id))
  {
    if fs != [] {
      var before, f := fs[..|fs| - 1], fs[|fs| - 1];
      SlotOfId(before, id);
      OfIdLast(fs, id);
    }
  }

  lemma OfIdLast(fs: seq<Fragment>, id: nat)
    requires fs != []
    ensures var before, f := fs[..|fs| - 1], fs[|fs| - 1];
            var r := OfId(fs, id);
            if f.id == id then r != [] && r[|r| - 1] == f && r[..|r| - 1] == OfId(before, id)
            else r == OfId(before, id)
  {
  }

  /** What is delivered for one id is what that id's sentences alone deliver. */
  lemma {:induction false} NonInterference(fs: seq<Fragment>, id: nat)
    requires AllAccepted(fs) && id < MAX_MSG_SEQUENCE_IDS
    ensures AllAccepted(OfId(fs, id))
    ensures OutcomesOfId(Outcomes(fs), id) == Outcomes(OfId(fs, id))
  {
    OfIdAccepted(fs, id);
    if fs != [] {
      var before, f := fs[..|fs| - 1], fs[|fs| - 1];
      NonInterference(before, id);
      var r := Outcomes(fs);
      assert r[..|r| - 1] == Outcomes(before);
      if f.id == id {
        SlotOfId(before, id);
        OfIdAccepted(before, id);
        SlotOfId(OfId(before, id), id);
        OfIdAgain(before, id);
      }
      OfIdLast(fs, id);
    }
  }

  lemma {:induction false} OfIdAgain(fs: seq<Fragment>, id: nat)
    ensures OfId(OfId(fs, id), id) == OfId(fs, id)
  {
    if fs != [] {
      OfIdAgain(fs[..|fs| - 1], id);
      OfIdLast(fs, id);
    }
  }
}

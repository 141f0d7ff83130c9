/** Measurements put together into XDR sentences: lib/nmea2kto0183/N2kDataToNMEA0183.cpp, lines 65-106 and
    1265-1286. A sentence is a list of fields, bounded by the number of characters they take. */
module XdrBatch {
  import opened Sequences
  import opened Throttle

  datatype XdrEntry = XdrEntry(entry: string, transducer: string)

  /** Each field has a comma in front of it. */
  function Size(fields: seq<string>): nat {
    if fields == [] then 0 else Size(fields[..|fields| - 1]) + 1 + |fields[|fields| - 1]|
  }

  /** The text of the fields. */
  function Text(fields: seq<string>): string {
    if fields == [] then "" else Text(fields[..|fields| - 1]) + "," + fields[|fields| - 1]
  }

  lemma {:induction false} SizeOfText(fields: seq<string>)
    ensures |Text(fields)| == Size(fields)
  {
    if fields != [] { SizeOfText(fields[..|fields| - 1]); }
  }

  /** The entries for which an empty sentence has room. */
  function Sendable(entries: seq<string>, capacity: nat): seq<string> {
    if entries == [] then []
    else
      var e := entries[|entries| - 1];
      Sendable(entries[..|entries| - 1], capacity) + if Size([e]) <= capacity then [e] else []
  }

  lemma SendableNext(entries: seq<string>, e: string, capacity: nat)
    ensures Sendable(entries + [e], capacity) == Sendable(entries, capacity) + if 1 + |e| <= capacity then [e] else []
  {
    assert (entries + [e])[..|entries|] == entries;
    FieldSize([], e);
    Nothing([e]);
  }

  predicate Fitting(entries: seq<string>, capacity: nat) {
    forall i | 0 <= i < |entries| :: 1 + |entries[i]| <= capacity
  }

  /** Nothing is lost exactly if every entry fits into an empty sentence. */
  lemma {:induction false} AllSendable(entries: seq<string>, capacity: nat)
    ensures Sendable(entries, capacity) == entries <==> Fitting(entries, capacity)
    ensures |Sendable(entries, capacity)| <= |entries|
  {
    if entries != [] {
      var before, e := entries[..|entries| - 1], entries[|entries| - 1];
      AllSendable(before, capacity);
      SendableNext(before, e, capacity);
      assert entries == before + [e];
      if Sendable(entries, capacity) == entries {
        assert Sendable(before, capacity) == Sendable(entries, capacity)[..|before|] == before;
      }
    }
  }

  /** Entries put into sentences one behind the other: those that are full, and the open one. */
  function Packed(entries: seq<string>, capacity: nat): (seq<seq<string>>, seq<string>) {
    if entries == [] then ([], [])
    else
      var (full, open) := Packed(entries[..|entries| - 1], capacity);
      PackedNext(full, open, entries[|entries| - 1], capacity)
  }

  function PackedNext(full: seq<seq<string>>, open: seq<string>, e: string, capacity: nat)
    : (seq<seq<string>>, seq<string>)
  {
    if Size(open) + 1 + |e| <= capacity then (full, open + [e])
    else (full + [open], if 1 + |e| <= capacity then [e] else [])
  }

  lemma PackedMore(entries: seq<string>, e: string, capacity: nat)
    ensures var (full, open) := Packed(entries, capacity);
            Packed(entries + [e], capacity) == PackedNext(full, open, e, capacity)
  {
    assert (entries + [e])[..|entries|] == entries;
  }

  lemma PackedNothing(capacity: nat)
    ensures Packed([], capacity) == ([], [])
  {
  }

  /** The sentences for a list of entries; there is none for no entries. */
  function SentencesOf(entries: seq<string>, capacity: nat): seq<seq<string>> {
    if entries == [] then [] else Packed(entries, capacity).0 + [Packed(entries, capacity).1]
  }

  /** No sentence is empty, and none had room for the entry that starts the next one. */
  ghost predicate Tight(sentences: seq<seq<string>>, capacity: nat) {
    && (forall i | 0 <= i < |sentences| :: sentences[i] != [])
    && forall i | 0 < i < |sentences| :: Size(sentences[i - 1]) + 1 + |sentences[i][0]| > capacity
  }

  /** The sentences hold the entries in order, except those too long for any sentence; if there are none of
      those, no sentence is sent early. */

  lemma {:induction false} SentencesTight(entries: seq<string>, capacity: nat)
    requires entries != []
    ensures AllFit(SentencesOf(entries, capacity), capacity)
    ensures Fitting(entries, capacity) ==> Tight(SentencesOf(entries, capacity), capacity)
    ensures Flatten(SentencesOf(entries, capacity)) == Sendable(entries, capacity)
  {
    hide Size, Flatten, Sendable;
    var before, e := entries[..|entries| - 1], entries[|entries| - 1];
    assert entries == before + [e];
    SendableNext(before, e, capacity);
    SizeOfNothing();
    FieldSize([], e);
    Nothing([e]);
    Nothing(Sendable(before, capacity));
    var (full, open) := Packed(before, capacity);
    var (full', open') := PackedNext(full, open, e, capacity);
    FieldSize(open, e);
    FlattenMore(full, open);
    FlattenMore(full', open');
    FlattenNothing<string>();
    if before == [] {
      assert Sendable(before, capacity) == [] by { SendableOfNothing(capacity); }
    } else {
      SentencesTight(before, capacity);
      if Fitting(entries, capacity) {
        assert Fitting(before, capacity) && e == entries[|entries| - 1];
        TightNext(full, open, e, capacity);
      }
    }
    AllFitNext(full, open, e, capacity);
    Associate(Flatten(full), open, [e]);
  }

  lemma AllFitNext(full: seq<seq<string>>, open: seq<string>, e: string, capacity: nat)
    requires AllFit(full + [open], capacity)
    ensures var (full', open') := PackedNext(full, open, e, capacity);
            AllFit(full' + [open'], capacity)
  {
    hide Size;
    SizeOfNothing();
    FieldSize([], e);
    Nothing([e]);
    FieldSize(open, e);
    var (full', open') := PackedNext(full, open, e, capacity);
    assert forall i | 0 <= i < |full| :: (full + [open])[i] == full[i];
    assert (full + [open])[|full|] == open;
    if full' == full + [open] { AllFitMore(full, open, capacity); }
    AllFitMore(full', open', capacity);
  }

  lemma TightNext(full: seq<seq<string>>, open: seq<string>, e: string, capacity: nat)
    requires Tight(full + [open], capacity) && 1 + |e| <= capacity
    ensures var (full', open') := PackedNext(full, open, e, capacity);
            Tight(full' + [open'], capacity)
  {
    hide Size;
    var (full', open') := PackedNext(full, open, e, capacity);
    var s, s' := full + [open], full' + [open'];
    assert s[|full|] == open && open != [];
    if Size(open) + 1 + |e| <= capacity {
      assert open'[0] == open[0];
      assert forall i | 0 <= i < |full| :: s'[i] == s[i];
    } else {
      assert s' == s + [[e]];
    }
  }

  lemma SendableOfNothing(capacity: nat)
    ensures Sendable([], capacity) == []
  {
  }

  // ----- which entries are due

  /** An entry is too early less than the interval after the last of its transducer. */
  predicate Due(last: map<string, nat>, interval: nat, transducer: string, now: nat) {
    !(transducer in last && last[transducer] + interval > now)
  }

  /** What comes of entries that are given one by one, each at its time: the times of the last sends, the
      entries that were due, and the log of the sends. */
  datatype Handled = Handled(last: map<string, nat>, entries: seq<string>, log: seq<Sent>)

  function Handling(last: map<string, nat>, interval: nat, entries: seq<XdrEntry>, times: seq<nat>): Handled
    requires |entries| == |times|
  {
    if entries == [] then Handled(last, [], [])
    else
      var n := |entries| - 1;
      HandledNext(Handling(last, interval, entries[..n], times[..n]), interval, entries[n], times[n])
  }

  lemma HandlingMore(last: map<string, nat>, interval: nat, entries: seq<XdrEntry>, times: seq<nat>, i: nat)
    requires i < |entries| == |times|
    ensures Handling(last, interval, entries[..i + 1], times[..i + 1])
         == HandledNext(Handling(last, interval, entries[..i], times[..i]), interval, entries[i], times[i])
  {
    assert entries[..i + 1][..i] == entries[..i] && times[..i + 1][..i] == times[..i];
  }

  function HandledNext(h: Handled, interval: nat, e: XdrEntry, now: nat): Handled {
    if Due(h.last, interval, e.transducer, now)
    then Handled(h.last[e.transducer := now], h.entries + [e.entry], h.log + [Sent(e.transducer, now, interval)])
    else h
  }

  /** Whether a value becomes an entry. */
  predicate IsTaken(last: map<string, nat>, interval: nat, entries: seq<XdrEntry>, times: seq<nat>, i: nat)
    requires i < |entries| == |times|
  {
    |Handling(last, interval, entries[..i + 1], times[..i + 1]).entries|
      > |Handling(last, interval, entries[..i], times[..i]).entries|
  }

  /** The `j`-th value is the last one before the `i`-th of a transducer that became an entry. */
  ghost predicate LastTaken(last: map<string, nat>, interval: nat, entries: seq<XdrEntry>, times: seq<nat>, i: nat,
                            transducer: string, j: nat)
    requires j < i <= |entries| == |times|
  {
    && entries[j].transducer == transducer && IsTaken(last, interval, entries, times, j)
    && forall k | j < k < i && entries[k].transducer == transducer :: !IsTaken(last, interval, entries, times, k)
  }

  ghost predicate NoneTaken(last: map<string, nat>, interval: nat, entries: seq<XdrEntry>, times: seq<nat>, i: nat,
                            transducer: string)
    requires i <= |entries| == |times|
  {
    forall k | 0 <= k < i && entries[k].transducer == transducer :: !IsTaken(last, interval, entries, times, k)
  }

  /** The time kept for a transducer is that of the last entry, or the one that was there before. */
  lemma {:induction false} LastKept(last: map<string, nat>, interval: nat, entries: seq<XdrEntry>, times: seq<nat>,
                                    i: nat, t: string)
    requires i <= |entries| == |times|
    ensures var kept := Handling(last, interval, entries[..i], times[..i]).last;
            && (NoneTaken(last, interval, entries, times, i, t) ==>
                (t in kept <==> t in last) && (t in last ==> kept[t] == last[t]))
            && forall j | 0 <= j < i && LastTaken(last, interval, entries, times, i, t, j) ::
                 t in kept && kept[t] == times[j]
  {
    hide Handling, Due;
    if i == 0 {
      HandlingNothing(last, interval);
    } else {
      LastKept(last, interval, entries, times, i - 1, t);
      HandlingMore(last, interval, entries, times, i - 1);
      Nothing(Handling(last, interval, entries[..i - 1], times[..i - 1]).entries);
      var before := Handling(last, interval, entries[..i - 1], times[..i - 1]).last;
      var kept := Handling(last, interval, entries[..i], times[..i]).last;
      if NoneTaken(last, interval, entries, times, i, t) {
        assert NoneTaken(last, interval, entries, times, i - 1, t);
      }
      forall j | 0 <= j < i && LastTaken(last, interval, entries, times, i, t, j)
        ensures t in kept && kept[t] == times[j]
      {
        if j < i - 1 {
          assert LastTaken(last, interval, entries, times, i - 1, t, j);
          assert entries[i - 1].transducer == t ==> !IsTaken(last, interval, entries, times, i - 1);
        }
      }
    }
  }

  lemma HandlingNothing(last: map<string, nat>, interval: nat)
    ensures Handling(last, interval, [], []) == Handled(last, [], [])
  {
  }

  /** A value becomes an entry exactly if the interval has gone by since the last entry of its transducer: since the
      last one before it in the same message, or else since the last one of former messages, if there was one. */
  lemma TakenExactly(last: map<string, nat>, interval: nat, entries: seq<XdrEntry>, times: seq<nat>, i: nat)
    requires i < |entries| == |times|
    ensures var t, taken := entries[i].transducer, IsTaken(last, interval, entries, times, i);
            && (forall j | 0 <= j < i && LastTaken(last, interval, entries, times, i, t, j) ::
                  taken <==> times[j] + interval <= times[i])
            && (NoneTaken(last, interval, entries, times, i, t) ==>
                (taken <==> t !in last || last[t] + interval <= times[i]))
            && Handling(last, interval, entries[..i + 1], times[..i + 1]).entries
               == Handling(last, interval, entries[..i], times[..i]).entries + if taken then [entries[i].entry] else []
  {
    hide Handling;
    LastKept(last, interval, entries, times, i, entries[i].transducer);
    HandlingMore(last, interval, entries, times, i);
    Nothing(Handling(last, interval, entries[..i], times[..i]).entries);
  }

  class XdrWriter {
    const capacity: nat
    const minXdrInterval: nat
    var lastSendTransducers: map<string, nat>
    var xdrMessage: seq<string>
    var xdrOpened: bool
    var xdrCount: nat
    var sentences: seq<seq<string>>   // what was sent
    ghost var accepted: seq<string>   // the entries that were not too early
    ghost var log: seq<Sent>

    /** The entries accepted are those in the sentences sent, followed by those in the open sentence, except for
        entries too long for any sentence. */
    ghost predicate Valid()
      reads this
    {
      && Sendable(accepted, capacity) == Flatten(sentences) + Open()
      && (xdrOpened && xdrCount == 0 ==> xdrMessage == []) && Size(xdrMessage) <= capacity
      && AllFit(sentences, capacity)
      && Shows(lastSendTransducers, log)
      && (forall i | 0 <= i < |log| :: log[i].minDiff == minXdrInterval)
    }

    ghost function Open(): seq<string>
      reads this
    {
      if xdrOpened then xdrMessage else []
    }

    constructor (capacity: nat, minXdrInterval: nat)
      ensures Valid() && !xdrOpened && accepted == [] && sentences == [] && log == []
      ensures this.capacity == capacity && this.minXdrInterval == minXdrInterval
    {
      this.capacity, this.minXdrInterval := capacity, minXdrInterval;
      lastSendTransducers, xdrMessage, xdrOpened, xdrCount, sentences := map[], [], false, 0, [];
      accepted, log := [], [];
      NothingSent();
    }

    method AddStrField(field: string) returns (ok: bool)
      modifies this`xdrMessage
      ensures ok <==> old(Size(xdrMessage)) + 1 + |field| <= capacity
      ensures xdrMessage == if ok then old(xdrMessage) + [field] else old(xdrMessage)
    {
      ok := Size(xdrMessage) + 1 + |field| <= capacity;
      if ok { xdrMessage := xdrMessage + [field]; }
    }

    method SendMessage()
      modifies this`sentences
      ensures sentences == old(sentences) + [xdrMessage]
    {
      sentences := sentences + [xdrMessage];
    }

    /** An entry that is due: it goes into the open sentence, or that one is sent and a new one started. */
    method Append(entry: string)
      requires Valid()
      modifies this`xdrMessage, this`xdrOpened, this`xdrCount, this`sentences, this`accepted
      ensures Valid() && xdrOpened && xdrCount > 0 && accepted == old(accepted) + [entry]
      ensures (sentences, xdrMessage) == PackedNext(old(sentences), old(Open()), entry, capacity)
    {
      hide Shows, Size, Sendable, Flatten, AllFit;
      FieldSize([], entry);
      Nothing([entry]);
      SizeOfNothing();
      SendableNext(accepted, entry, capacity);
      accepted := accepted + [entry];
      if !xdrOpened {
        xdrMessage := [];
        xdrOpened := true;
        xdrCount := 0;
      }
      FieldSize(xdrMessage, entry);
      ghost var given, open := Flatten(sentences), xdrMessage;
      var ok := AddStrField(entry);
      if !ok {
        FlattenMore(sentences, xdrMessage);
        AllFitMore(sentences, xdrMessage, capacity);
        SendMessage();
        xdrMessage := [];
        var again := AddStrField(entry);
        xdrCount := 1;
        Nothing(given + open);
        Nothing<string>([]);
      } else {
        xdrCount := xdrCount + 1;
        Associate(given, open, [entry]);
      }
    }

    method AddToXdr(entry: XdrEntry, now: nat) returns (taken: bool)
      requires Valid()
      modifies this
      ensures Valid() && taken == Due(old(lastSendTransducers), minXdrInterval, entry.transducer, now)
      ensures var sent := OfKey(old(log), entry.transducer);
              taken <==> sent == [] || sent[|sent| - 1].time + minXdrInterval <= now
      ensures Handled(lastSendTransducers, accepted, log)
           == HandledNext(old(Handled(lastSendTransducers, accepted, log)), minXdrInterval, entry, now)
      ensures if taken then
                xdrOpened && xdrCount > 0
                && (sentences, xdrMessage) == PackedNext(old(sentences), old(Open()), entry.entry, capacity)
              else
                xdrOpened == old(xdrOpened) && xdrCount == old(xdrCount) && sentences == old(sentences)
                && xdrMessage == old(xdrMessage)
    {
      hide Sendable, Size, Flatten, AllFit;
      Nothing(accepted);
      Nothing(log);
      assert ShowsKey(lastSendTransducers, log, entry.transducer);
      hide OfKey, Shows;
      if entry.transducer in lastSendTransducers && lastSendTransducers[entry.transducer] + minXdrInterval > now {
        return false;
      }
      SendKeeps(lastSendTransducers, log, entry.transducer, now, minXdrInterval);
      lastSendTransducers := lastSendTransducers[entry.transducer := now];
      log := log + [Sent(entry.transducer, now, minXdrInterval)];
      Append(entry.entry);
      taken := true;
    }

    method FinalizeXdr() returns (done: bool)
      requires Valid()
      modifies this`xdrOpened, this`sentences
      ensures Valid() && !xdrOpened && done == old(xdrOpened && xdrCount > 0)
      ensures sentences == old(sentences) + if done then [xdrMessage] else []
    {
      hide Sendable, Size, Shows, AllFit;
      Nothing(sentences);
      Nothing(Flatten(sentences));
      if !xdrOpened { return false; }
      if xdrCount < 1 {
        xdrOpened := false;
        return false;
      }
      FlattenMore(sentences, xdrMessage);
      AllFitMore(sentences, xdrMessage, capacity);
      Nothing(Flatten(sentences + [xdrMessage]));
      SendMessage();
      xdrOpened := false;
      done := true;
    }

    /** What a handler does with the values of one message: the entries that are due go into sentences, in order,
        and none is left open. Each entry is looked at with a clock of its own. */
    method HandleValues(entries: seq<XdrEntry>, times: seq<nat>)
      requires Valid() && !xdrOpened && |entries| == |times|
      modifies this
      ensures Valid() && !xdrOpened && Sendable(accepted, capacity) == Flatten(sentences)
      ensures var h := Handling(old(lastSendTransducers), minXdrInterval, entries, times);
              && accepted == old(accepted) + h.entries && log == old(log) + h.log && lastSendTransducers == h.last
              && sentences == old(sentences) + SentencesOf(h.entries, capacity)
    {
      hide Sendable, Size, Flatten, Shows, AllFit, Due, HandledNext, Packed;
      ghost var given, sent, before, last := accepted, log, sentences, lastSendTransducers;
      ghost var h := Handling(last, minXdrInterval, [], []);
      Nothing(accepted);
      Nothing(log);
      Nothing(sentences);
      PackedNothing(capacity);
      for i := 0 to |entries|
        invariant Valid() && h == Handling(last, minXdrInterval, entries[..i], times[..i])
        invariant Reflects(h, given, sent, before)
      {
        HandlingMore(last, minXdrInterval, entries, times, i);
        h := HandleValue(h, given, sent, before, entries[i], times[i]);
      }
      assert entries[..|entries|] == entries && times[..|times|] == times;
      Associate(before, Packed(h.entries, capacity).0, [xdrMessage]);
      var done := FinalizeXdr();
      Nothing(Flatten(sentences));
    }

    /** The state while a message is handled, from what it was before and what came of the values so far. */
    ghost predicate Reflects(h: Handled, given: seq<string>, sent: seq<Sent>, before: seq<seq<string>>)
      reads this
    {
      && accepted == given + h.entries && log == sent + h.log && lastSendTransducers == h.last
      && xdrOpened == (h.entries != []) && (xdrOpened ==> xdrCount > 0)
      && sentences == before + Packed(h.entries, capacity).0 && Open() == Packed(h.entries, capacity).1
    }

    /** One of the values. */
    method HandleValue(ghost h: Handled, ghost given: seq<string>, ghost sent: seq<Sent>, ghost before: seq<seq<string>>,
                       entry: XdrEntry, now: nat) returns (ghost h': Handled)
      requires Valid() && Reflects(h, given, sent, before)
      modifies this
      ensures Valid() && h' == HandledNext(h, minXdrInterval, entry, now) && Reflects(h', given, sent, before)
    {
      hide Sendable, Size, Flatten, Shows, AllFit, Packed, Due;
      var taken := AddToXdr(entry, now);
      h' := HandledNext(h, minXdrInterval, entry, now);
      if taken {
        Associate(given, h.entries, [entry.entry]);
        Associate(sent, h.log, [Sent(entry.transducer, now, minXdrInterval)]);
        PackedMore(h.entries, entry.entry, capacity);
        Associate(before, Packed(h.entries, capacity).0, [Packed(h.entries, capacity).1]);
      }
    }

    /** Of each transducer there are at most T / d + 1 entries in any time of length T. */
    lemma EntriesInWindow(transducer: string, lo: int, hi: int)
      requires Valid() && minXdrInterval > 0 && lo <= hi
      ensures InWindow(OfKey(log, transducer), lo, hi) * minXdrInterval <= hi - lo + minXdrInterval
    {
      hide Sendable, Size, Flatten;
      assert ShowsKey(lastSendTransducers, log, transducer);
      OfKeyFrom(log, transducer, minXdrInterval);
      SendsInWindow(OfKey(log, transducer), minXdrInterval, lo, hi);
    }
  }

  ghost predicate AllFit(sentences: seq<seq<string>>, capacity: nat) {
    forall i | 0 <= i < |sentences| :: Size(sentences[i]) <= capacity
  }

  lemma AllFitMore(sentences: seq<seq<string>>, s: seq<string>, capacity: nat)
    requires AllFit(sentences, capacity) && Size(s) <= capacity
    ensures AllFit(sentences + [s], capacity)
  {
  }

  lemma SizeOfNothing()
    ensures Size([]) == 0
  {
  }

  lemma FieldSize(fields: seq<string>, e: string)
    ensures Size(fields + [e]) == Size(fields) + 1 + |e|
  {
    assert (fields + [e])[..|fields|] == fields;
  }
}

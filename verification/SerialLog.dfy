/** The log that is written to a serial port: lib/channel/GwChannelList.cpp, lines 71-124, and what it relies on
    in lib/serial/GwSerial.cpp, lines 84-156. */
module SerialLog {
  import opened Bits
  import opened Sequences
  import opened GwBuffer

  datatype WriteStatus = OK | ERROR | AGAIN

  /** What the hardware does: how much room it reports when it is asked for the n-th time, how many bytes the
      stream takes then, and how much time goes by until the next try, beyond one tick. */
  datatype Hardware = Hardware(room: nat -> int, takes: nat -> nat, passes: nat -> nat)

  /** A port: its ring, whether it is known to have room, and how often the hardware was asked. */
  datatype Port = Port(ring: Ring, availableWrite: bool, asked: nat)

  /** The stream takes from the front of the ring. */
  function WrittenOnce(hw: Hardware, size: nat, p: Port): (q: Port)
    requires InRing(size, p.ring)
    ensures InRing(size, q.ring)
  {
    var n := Count(ReadRun(size, p.ring), hw.room(p.asked), hw.takes(p.asked));
    p.(ring := Taken(size, p.ring, n), asked := p.asked + 1)
  }

  /** Writes are repeated until the ring is empty or the time is over. */
  function WrittenFor(hw: Hardware, size: nat, p: Port, left: int): (r: (Port, bool))
    requires InRing(size, p.ring)
    ensures InRing(size, r.0.ring) && (r.1 ==> r.0.ring.contents == [])
    decreases left
  {
    if left <= 0 then (p.(availableWrite := hw.room(p.asked) > 0, asked := p.asked + 1), false)
    else
      var q := WrittenOnce(hw, size, p);
      if q.ring.contents == [] then (q, true) else WrittenFor(hw, size, q, left - hw.passes(p.asked) - 1)
  }

  function Flushed(hw: Hardware, size: nat, timeout: nat, initialized: bool, p: Port): (r: (Port, bool))
    requires InRing(size, p.ring)
    ensures InRing(size, r.0.ring) && (r.1 ==> initialized && r.0.ring.contents == [])
  {
    if !initialized then (p, false)
    else if p.availableWrite then WrittenFor(hw, size, p, timeout)
    else if hw.room(p.asked) < 1 then (p.(asked := p.asked + 1), false)
    else WrittenFor(hw, size, p.(availableWrite := true, asked := p.asked + 1), timeout)
  }

  /** The port after so many writes. */
  function AfterWrites(hw: Hardware, size: nat, p: Port, k: nat): (q: Port)
    requires InRing(size, p.ring)
    ensures InRing(size, q.ring)
    decreases k
  {
    if k == 0 then p else AfterWrites(hw, size, WrittenOnce(hw, size, p), k - 1)
  }

  /** The time that goes by with so many tries, of which the first is the `n`-th question to the hardware. */
  function Elapsed(hw: Hardware, n: nat, k: nat): nat
    decreases k
  {
    if k == 0 then 0 else hw.passes(n) + 1 + Elapsed(hw, n + 1, k - 1)
  }

  /** The ring is empty after so many writes, the last of which began in time. */
  ghost predicate EmptyInTime(hw: Hardware, size: nat, p: Port, left: int, k: nat)
    requires InRing(size, p.ring)
  {
    k > 0 && AfterWrites(hw, size, p, k).ring.contents == [] && Elapsed(hw, p.asked, k - 1) < left
  }

  lemma EmptyNext(hw: Hardware, size: nat, p: Port, left: int, k: nat)
    requires InRing(size, p.ring)
    ensures EmptyInTime(hw, size, p, left, k + 2)
       <==> EmptyInTime(hw, size, WrittenOnce(hw, size, p), left - hw.passes(p.asked) - 1, k + 1)
    ensures EmptyInTime(hw, size, p, left, 1) <==> WrittenOnce(hw, size, p).ring.contents == [] && left > 0
    ensures left <= 0 ==> !EmptyInTime(hw, size, p, left, k)
  {
    hide WrittenOnce;
    assert WrittenOnce(hw, size, p).asked == p.asked + 1 by { AskedOnce(hw, size, p); }
    assert AfterWrites(hw, size, p, k + 2) == AfterWrites(hw, size, WrittenOnce(hw, size, p), k + 1);
    var q := WrittenOnce(hw, size, p);
    assert AfterWrites(hw, size, p, 1) == AfterWrites(hw, size, q, 0) == q;
  }

  lemma AskedOnce(hw: Hardware, size: nat, p: Port)
    requires InRing(size, p.ring)
    ensures WrittenOnce(hw, size, p).asked == p.asked + 1
  {
  }

  /** Writing empties the ring in time exactly if some number of writes does, the last of which begins in time. */
  lemma {:induction false} WrittenInTime(hw: Hardware, size: nat, p: Port, left: int)
    requires InRing(size, p.ring)
    ensures WrittenFor(hw, size, p, left).1 <==> exists k: nat :: EmptyInTime(hw, size, p, left, k)
    decreases left
  {
    hide WrittenOnce, EmptyInTime, InRing;
    if left <= 0 {
      forall k: nat
        ensures !EmptyInTime(hw, size, p, left, k)
      {
        EmptyNext(hw, size, p, left, k);
      }
    } else {
      var q, l := WrittenOnce(hw, size, p), left - hw.passes(p.asked) - 1;
      EmptyNext(hw, size, p, left, 0);
      if q.ring.contents == [] {
        assert EmptyInTime(hw, size, p, left, 1);
      } else {
        WrittenInTime(hw, size, q, l);
        if k: nat :| EmptyInTime(hw, size, q, l, k) {
          NoEmptyAtOnce(hw, size, q, l, k);
          EmptyNext(hw, size, p, left, k - 1);
          assert EmptyInTime(hw, size, p, left, k + 1);
        }
        if k: nat :| EmptyInTime(hw, size, p, left, k) {
          NoEmptyAtOnce(hw, size, p, left, k);
          EmptyNext(hw, size, p, left, if k == 1 then 0 else k - 2);
          assert k > 1 && EmptyInTime(hw, size, q, l, k - 1);
        }
      }
    }
  }

  lemma NoEmptyAtOnce(hw: Hardware, size: nat, p: Port, left: int, k: nat)
    requires InRing(size, p.ring) && EmptyInTime(hw, size, p, left, k)
    ensures k > 0
  {
  }

  /** What is left of a port is what some number of writes left, all of which took place unless the time was over. */
  ghost predicate LeftAfter(hw: Hardware, size: nat, p: Port, left: int, r: (Port, bool), k: nat)
    requires InRing(size, p.ring)
  {
    var q := AfterWrites(hw, size, p, k);
    if r.1 then r.0 == q
    else Elapsed(hw, p.asked, k) >= left && r.0 == q.(availableWrite := hw.room(q.asked) > 0, asked := q.asked + 1)
  }

  lemma {:induction false} WrittenLeaves(hw: Hardware, size: nat, p: Port, left: int)
    requires InRing(size, p.ring)
    ensures exists k: nat :: LeftAfter(hw, size, p, left, WrittenFor(hw, size, p, left), k)
    decreases left
  {
    hide WrittenOnce;
    var r := WrittenFor(hw, size, p, left);
    if left <= 0 {
      assert LeftAfter(hw, size, p, left, r, 0);
    } else {
      var q, l := WrittenOnce(hw, size, p), left - hw.passes(p.asked) - 1;
      AskedOnce(hw, size, p);
      if q.ring.contents == [] {
        assert AfterWrites(hw, size, p, 1) == AfterWrites(hw, size, q, 0);
        assert LeftAfter(hw, size, p, left, r, 1);
      } else {
        WrittenLeaves(hw, size, q, l);
        var k: nat :| LeftAfter(hw, size, q, l, WrittenFor(hw, size, q, l), k);
        assert LeftAfter(hw, size, p, left, r, k + 1);
      }
    }
  }

  /** A port found to have room, for which the hardware was asked unless it was known. */
  function Asked(p: Port): Port {
    p.(availableWrite := true, asked := if p.availableWrite then p.asked else p.asked + 1)
  }

  /** A flush succeeds exactly if the port is initialized, is known or found to have room, and some number of writes
      empties the ring, the last of which begins before the timeout. */
  lemma FlushedExactly(hw: Hardware, size: nat, timeout: nat, initialized: bool, p: Port)
    requires InRing(size, p.ring)
    ensures Flushed(hw, size, timeout, initialized, p).1
            <==> (&& initialized && (p.availableWrite || hw.room(p.asked) >= 1)
                  && exists k: nat :: EmptyInTime(hw, size, Asked(p), timeout, k))
  {
    hide WrittenFor, EmptyInTime;
    WrittenInTime(hw, size, Asked(p), timeout);
  }

  /** Hardware that has room and takes everything is done after two writes. */
  lemma ReadyFlush(hw: Hardware, size: nat, timeout: nat, p: Port)
    requires InRing(size, p.ring) && p.availableWrite && timeout > hw.passes(p.asked) + 1
    requires forall n: nat :: hw.room(n) >= size && hw.takes(n) >= size
    ensures Flushed(hw, size, timeout, true, p).1
  {
    hide WrittenOnce;
    var q := WrittenOnce(hw, size, p);
    RunTaken(hw, size, p);
    RunTaken(hw, size, q);
    assert WrittenFor(hw, size, q, timeout - hw.passes(p.asked) - 1).1;
  }

  lemma RunTaken(hw: Hardware, size: nat, p: Port)
    requires InRing(size, p.ring) && hw.room(p.asked) >= size && hw.takes(p.asked) >= size
    ensures var q := WrittenOnce(hw, size, p);
            && q.ring.contents == p.ring.contents[ReadRun(size, p.ring)..]
            && ReadRun(size, q.ring) == |q.ring.contents|
  {
  }

  /** How much of a text a ring with that much room takes. */
  function Fitting(len: nat, free: nat, addPartial: bool): (n: nat)
    ensures n <= len
  {
    if len <= free then len else if addPartial then free else 0
  }

  class GwSerial {
    const buffer: GwBuffer
    const id: int
    const flushTimeout: nat
    const hardware: Hardware
    var initialized: bool
    var availableWrite: bool
    var overflows: nat
    var sent: seq<byte>   // what the stream took
    var asked: nat        // how often the hardware was asked

    /** What was accepted is what was sent, followed by what is still in the ring. */
    ghost predicate Valid()
      reads this, buffer, buffer.buffer
    {
      buffer.Valid() && buffer.bufferSize > 1 && buffer.delivered == sent
    }

    ghost function AsPort(): (p: Port)
      requires Valid()
      reads this, buffer, buffer.buffer
      ensures InRing(buffer.bufferSize, p.ring)
    {
      Port(buffer.AsRing(), availableWrite, asked)
    }

    constructor (size: nat, id: int, flushTimeout: nat, hardware: Hardware)
      requires size > 1
      ensures Valid() && fresh(buffer) && fresh(buffer.buffer) && buffer.accepted == []
      ensures this.id == id && this.flushTimeout == flushTimeout && this.hardware == hardware
      ensures buffer.bufferSize == size && initialized && AsPort() == Port(Ring(0, []), false, 0)
    {
      this.id, this.flushTimeout, this.hardware := id, flushTimeout, hardware;
      initialized, availableWrite, overflows, sent, asked := true, false, 0, [], 0;
      buffer := new GwBuffer(size);
    }

    method AvailableForWrite() returns (n: int)
      modifies this`asked
      ensures n == hardware.room(old(asked)) && asked == old(asked) + 1
    {
      n := hardware.room(asked);
      asked := asked + 1;
    }

    /** What the stream takes leaves the ring at its front. */
    method Write() returns (status: WriteStatus)
      requires Valid()
      modifies this`sent, this`asked, buffer`readPointer, buffer`delivered
      ensures Valid() && buffer.accepted == old(buffer.accepted)
      ensures AsPort() == if initialized then WrittenOnce(hardware, buffer.bufferSize, old(AsPort())) else old(AsPort())
      ensures status == if !initialized then ERROR else if buffer.Contents() == [] then OK else AGAIN
    {
      hide Stored, ReadRun, Count;
      if !initialized { return ERROR; }
      ghost var n := Count(ReadRun(buffer.bufferSize, buffer.AsRing()), hardware.room(asked), hardware.takes(asked));
      var takes := hardware.takes(asked);
      var numWrite := AvailableForWrite();
      var taken := buffer.FetchData(numWrite, takes);
      sent := sent + taken;
      assert old(buffer.Contents())[n..] == buffer.Contents();
      var used := buffer.UsedSpace();
      status := if used != 0 then AGAIN else OK;
    }

    /** A successful flush leaves the ring empty; it fails if there is no room or the time is over before. */
    method Flush() returns (ok: bool)
      requires Valid()
      modifies this`sent, this`availableWrite, this`asked, buffer`readPointer, buffer`delivered
      ensures Valid() && buffer.accepted == old(buffer.accepted)
      ensures (AsPort(), ok) == Flushed(hardware, buffer.bufferSize, flushTimeout, initialized, old(AsPort()))
    {
      hide Stored, WrittenOnce;
      if !initialized { return false; }
      if !availableWrite {
        var available := AvailableForWrite();
        if available < 1 { return false; }
        availableWrite := true;
      }
      var now, end := 0, flushTimeout;
      ghost var p := AsPort();
      while now < end
        invariant Valid() && initialized && buffer.accepted == old(buffer.accepted)
        invariant WrittenFor(hardware, buffer.bufferSize, p, end)
               == WrittenFor(hardware, buffer.bufferSize, AsPort(), end - now)
        decreases end - now
      {
        var tick := hardware.passes(asked) + 1;
        var status := Write();
        if status != AGAIN { return true; }
        now := now + tick;
      }
      var available := AvailableForWrite();
      availableWrite := available > 0;
      ok := false;
    }

    method Enqueue(data: seq<byte>, addPartial: bool) returns (n: nat)
      requires Valid()
      modifies buffer`writePointer, buffer`accepted, buffer.buffer
      ensures Valid() && n == if initialized then Fitting(|data|, old(buffer.FreeSpace()), addPartial) else 0
      ensures buffer.accepted == old(buffer.accepted) + data[..n]
      ensures buffer.Contents() == old(buffer.Contents()) + data[..n]
    {
      hide Stored;
      Nothing(buffer.accepted);
      Nothing(buffer.Contents());
      if !initialized { return 0; }
      n := buffer.AddData(data, addPartial);
    }

    /** A text of another source goes into the ring, as far as it fits if a part is wanted. */
    method SendToClients(text: seq<byte>, sourceId: int, addPartial: bool) returns (enqueued: nat)
      requires Valid()
      modifies this`overflows, buffer`writePointer, buffer`accepted, buffer.buffer
      ensures Valid()
      ensures enqueued == if sourceId != id && initialized then Fitting(|text|, old(buffer.FreeSpace()), addPartial) else 0
      ensures buffer.accepted == old(buffer.accepted) + text[..enqueued]
      ensures buffer.Contents() == old(buffer.Contents()) + text[..enqueued]
      ensures overflows == old(overflows) + if sourceId != id && enqueued != |text| && !addPartial then 1 else 0
    {
      hide Stored;
      Nothing(buffer.accepted);
      Nothing(buffer.Contents());
      if sourceId == id { return 0; }
      enqueued := Enqueue(text, addPartial);
      if enqueued != |text| && !addPartial { overflows := overflows + 1; }
    }
  }

  // ----- draining a log

  /** A log that is handed on: how much of it was, and how the flushes of the port went. */
  datatype Drained = Drained(port: Port, handled: nat, flushes: seq<bool>)

  function Draining(hw: Hardware, size: nat, timeout: nat, initialized: bool, p: Port, log: seq<byte>): (d: Drained)
    requires InRing(size, p.ring) && size > 1
    ensures InRing(size, d.port.ring)
    decreases |log|
  {
    if log == [] then Drained(p, 0, [])
    else
      var (q, ok) := Flushed(hw, size, timeout, initialized, p);
      if !ok then Drained(q, 0, [false])
      else
        var n := Fitting(|log|, size - 1, true);
        After(n, true, Draining(hw, size, timeout, initialized, q.(ring := q.ring.(contents := log[..n])), log[n..]))
  }

  function After(n: nat, ok: bool, d: Drained): Drained {
    d.(handled := n + d.handled, flushes := [ok] + d.flushes)
  }

  lemma NothingToDrain(hw: Hardware, size: nat, timeout: nat, initialized: bool, p: Port)
    requires InRing(size, p.ring) && size > 1
    ensures Draining(hw, size, timeout, initialized, p, []) == Drained(p, 0, [])
  {
  }

  /** Draining after some of it was done. */
  function Following(handled: nat, flushes: seq<bool>, d: Drained): Drained {
    d.(handled := handled + d.handled, flushes := flushes + d.flushes)
  }

  lemma DrainOnce(hw: Hardware, size: nat, timeout: nat, initialized: bool, p: Port, log: seq<byte>,
                  handled: nat, flushes: seq<bool>)
    requires InRing(size, p.ring) && size > 1 && log != []
    ensures var (q, ok) := Flushed(hw, size, timeout, initialized, p);
            var n := Fitting(|log|, size - 1, true);
            var q' := q.(ring := q.ring.(contents := log[..n]));
            var d := Following(handled, flushes, Draining(hw, size, timeout, initialized, p, log));
            if ok then d == Following(handled + n, flushes + [true], Draining(hw, size, timeout, initialized, q', log[n..]))
            else d == Drained(q, handled, flushes + [false])
  {
    hide Flushed;
    var (q, ok) := Flushed(hw, size, timeout, initialized, p);
    if ok {
      var n := Fitting(|log|, size - 1, true);
      var q' := q.(ring := q.ring.(contents := log[..n]));
      Associate(flushes, [true], Draining(hw, size, timeout, initialized, q', log[n..]).flushes);
    }
  }

  /** The first flushes succeed, as many as there are, and only the last may fail. */
  ghost predicate FailsLast(flushes: seq<bool>) {
    forall i | 0 <= i < |flushes| - 1 :: flushes[i]
  }

  function Successes(flushes: seq<bool>): nat {
    if flushes == [] then 0 else (if flushes[0] then 1 else 0) + Successes(flushes[1..])
  }

  /** Draining goes on until the log is empty or a flush of the port fails, and every successful flush passes as
      much as the empty ring of the port takes. */
  lemma {:induction false} DrainProgress(hw: Hardware, size: nat, timeout: nat, initialized: bool, p: Port, log: seq<byte>)
    requires InRing(size, p.ring) && size > 1
    ensures var d := Draining(hw, size, timeout, initialized, p, log);
            var room := Times(Successes(d.flushes), size - 1);
            && d.handled == (if room < |log| then room else |log|)
            && (d.handled < |log| <==> d.flushes != [] && !d.flushes[|d.flushes| - 1])
            && FailsLast(d.flushes) && (log != [] ==> d.flushes != [])
    decreases |log|
  {
    hide Flushed, FailsLast, Times;
    FailsLastNothing();
    NoTimes(size - 1);
    if log != [] {
      var (q, ok) := Flushed(hw, size, timeout, initialized, p);
      if ok {
        var n := Fitting(|log|, size - 1, true);
        var q' := q.(ring := q.ring.(contents := log[..n]));
        DrainProgress(hw, size, timeout, initialized, q', log[n..]);
        var d := Draining(hw, size, timeout, initialized, q', log[n..]);
        assert ([true] + d.flushes)[1..] == d.flushes;
        assert Successes([true] + d.flushes) == 1 + Successes(d.flushes);
        OneTimeMore(Successes(d.flushes), size - 1);
        FailsLastMore(d.flushes);
      }
    }
  }

  function Times(k: nat, m: nat): int {
    k * m
  }

  lemma NoTimes(m: nat)
    ensures Times(0, m) == 0
  {
  }

  lemma OneTimeMore(k: nat, m: nat)
    ensures Times(1 + k, m) == m + Times(k, m) && Times(k, m) >= 0 && (k > 0 && m > 0 ==> Times(k, m) > 0)
  {
  }

  lemma FailsLastNothing()
    ensures FailsLast([]) && FailsLast([false])
  {
  }

  lemma FailsLastMore(flushes: seq<bool>)
    requires FailsLast(flushes)
    ensures var more := [true] + flushes;
            FailsLast(more) && (more[|more| - 1] <==> flushes == [] || flushes[|flushes| - 1])
  {
  }

  /** The C string at a place in an array. */
  method StringAt(a: array<byte>, from: nat, ghost end: nat) returns (s: seq<byte>)
    requires from <= end < a.Length && a[end] == 0 && 0 !in a[from..end]
    ensures s == a[from..end]
  {
    var n := from;
    assert forall k | from <= k < end :: a[k] == a[from..end][k - from];
    while a[n] != 0
      invariant from <= n <= end
      decreases end - n
    {
      n := n + 1;
    }
    s := a[from..n];
  }

  class GwSerialLog {
    const bufferSize := 4096
    const logBuffer: array<byte>
    const writer: GwSerial
    const disabled: bool
    var wp: nat
    ghost var logged: seq<byte>   // the records accepted, one behind the other
    ghost var passed: seq<byte>   // what of them was handed to the port

    ghost predicate Valid()
      reads this, logBuffer
    {
      && logBuffer.Length == bufferSize && wp < bufferSize - 1 && logBuffer[wp] == 0 && 0 !in logBuffer[..wp]
      && logged == passed + logBuffer[..wp] && (disabled ==> logged == [])
    }

    constructor (writer: GwSerial, disabled: bool)
      ensures Valid() && fresh(logBuffer) && this.writer == writer && this.disabled == disabled && logged == passed == []
    {
      this.writer, this.disabled := writer, disabled;
      logBuffer := new byte[bufferSize](_ => 0);
      wp, logged, passed := 0, [], [];
    }

    /** A record is taken as a whole or not at all. */
    method Write(data: seq<byte>)
      requires Valid() && 0 !in data
      modifies this`wp, this`logged, logBuffer
      ensures Valid() && passed == old(passed)
      ensures var taken := !disabled && old(wp) + |data| < bufferSize - 1;
              logged == old(logged) + if taken then data else []
    {
      Nothing(logged);
      if disabled { return; }
      if wp + |data| >= bufferSize - 1 { return; }
      ghost var before := logBuffer[..wp];
      forall i | 0 <= i < |data| { logBuffer[wp + i] := data[i]; }
      assert logBuffer[..wp] == before;
      assert logBuffer[..wp + |data|] == before + data;
      Associate(passed, before, data);
      wp := wp + |data|;
      logBuffer[wp] := 0;
      logged := logged + data;
      assert logBuffer[..wp] == before + data;
    }

    ghost function DrainingOf(log: seq<byte>): (d: Drained)
      requires writer.Valid()
      reads writer, writer.buffer, writer.buffer.buffer
      ensures InRing(writer.buffer.bufferSize, d.port.ring)
    {
      Draining(writer.hardware, writer.buffer.bufferSize, writer.flushTimeout, writer.initialized, writer.AsPort(), log)
    }

    /** One flush of the port, and as much of the log as its ring takes then. */
    method PassOn(handled: nat, ghost flushes: seq<bool>) returns (ok: bool, rt: nat)
      requires Valid() && writer.Valid() && writer.id != -1 && logBuffer != writer.buffer.buffer && handled < wp
      modifies writer, writer.buffer, writer.buffer.buffer
      ensures Valid() && writer.Valid() && writer.initialized == old(writer.initialized)
      ensures handled + rt <= wp && ok == (rt > 0)
      ensures writer.buffer.accepted == old(writer.buffer.accepted) + logBuffer[handled..handled + rt]
      ensures var d := old(Following(handled, flushes, DrainingOf(logBuffer[handled..wp])));
              if ok then d == Following(handled + rt, flushes + [true], DrainingOf(logBuffer[handled + rt..wp]))
              else d == Drained(writer.AsPort(), handled, flushes + [false])
    {
      hide Stored, Flushed, Draining, Following;
      Nothing(writer.buffer.accepted);
      ghost var log := logBuffer[handled..wp];
      DrainOnce(writer.hardware, writer.buffer.bufferSize, writer.flushTimeout, writer.initialized, writer.AsPort(),
                log, handled, flushes);
      ok := writer.Flush();
      rt := 0;
      if ok {
        ghost var q := writer.AsPort();
        var text := StringAt(logBuffer, handled, wp);
        rt := writer.SendToClients(text, -1, true);
        Nothing(text[..rt]);
        assert writer.AsPort() == q.(ring := q.ring.(contents := log[..rt]));
        assert log[rt..] == logBuffer[handled + rt..wp] && log[..rt] == logBuffer[handled..handled + rt];
      }
    }

    method Drain() returns (handled: nat, ghost flushes: seq<bool>)
      requires Valid() && writer.Valid() && writer.id != -1 && logBuffer != writer.buffer.buffer
      modifies writer, writer.buffer, writer.buffer.buffer
      ensures Valid() && writer.Valid() && handled <= wp && writer.initialized == old(writer.initialized)
      ensures Drained(writer.AsPort(), handled, flushes) == old(DrainingOf(logBuffer[..wp]))
      ensures writer.buffer.accepted == old(writer.buffer.accepted) + logBuffer[..handled]
    {
      hide Stored, Flushed, Draining, GwSerial.AsPort;
      handled, flushes := 0, [];
      Nothing(writer.buffer.accepted);
      ghost var taken := writer.buffer.accepted;
      Nothing(DrainingOf(logBuffer[..wp]).flushes);
      assert logBuffer[0..wp] == logBuffer[..wp];
      while handled < wp
        invariant Valid() && writer.Valid() && handled <= wp && writer.initialized == old(writer.initialized)
        invariant writer.buffer.accepted == taken + logBuffer[..handled]
        invariant old(DrainingOf(logBuffer[..wp])) == Following(handled, flushes, DrainingOf(logBuffer[handled..wp]))
        decreases wp - handled
      {
        var ok, rt := PassOn(handled, flushes);
        flushes := flushes + [ok];
        if !ok { return; }
        assert logBuffer[..handled + rt] == logBuffer[..handled] + logBuffer[handled..handled + rt];
        Associate(taken, logBuffer[..handled], logBuffer[handled..handled + rt]);
        handled := handled + rt;
      }
      assert logBuffer[handled..wp] == [];
      NothingToDrain(writer.hardware, writer.buffer.bufferSize, writer.flushTimeout, writer.initialized, writer.AsPort());
      Nothing(flushes);
    }

    /** memmove of the rest to the start, and its terminator. */
    method MoveDown(handled: nat)
      requires logBuffer.Length == bufferSize && 0 < handled < wp < bufferSize
      modifies this`wp, logBuffer
      ensures wp == old(wp) - handled && logBuffer[..wp] == old(logBuffer[handled..wp]) && logBuffer[wp] == 0
    {
      ghost var rest := logBuffer[handled..wp];
      forall i | 0 <= i < wp - handled { logBuffer[i] := logBuffer[handled + i]; }
      wp := wp - handled;
      assert logBuffer[..wp] == rest;
      logBuffer[wp] := 0;
      assert logBuffer[..wp] == rest;
    }

    /** Passes on what the port takes; how much that is, and in which state it leaves the port, is that of draining
        the log. The loop ends because after a successful flush of the port its ring is empty and takes at least a
        byte; that needs a port whose id is not the -1 given as source. */
    method Flush() returns (ghost flushes: seq<bool>)
      requires Valid() && writer.Valid() && writer.id != -1 && logBuffer != writer.buffer.buffer
      modifies this`wp, this`passed, logBuffer, writer, writer.buffer, writer.buffer.buffer
      ensures Valid() && writer.Valid() && logged == old(logged) && writer.initialized == old(writer.initialized)
      ensures var log, d := old(logBuffer[..wp]), old(DrainingOf(logBuffer[..wp]));
              && d.handled <= |log| && passed == old(passed) + log[..d.handled] && logBuffer[..wp] == log[d.handled..]
              && writer.AsPort() == d.port && flushes == d.flushes
              && writer.buffer.accepted == old(writer.buffer.accepted) + log[..d.handled]
      ensures wp > 0 <==> flushes != [] && !flushes[|flushes| - 1]
      ensures old(wp) > 0 ==> flushes != []
    {
      hide Stored, Draining, GwSerial.AsPort, Successes;
      var handled := 0;
      flushes := [];
      DrainProgress(writer.hardware, writer.buffer.bufferSize, writer.flushTimeout, writer.initialized, writer.AsPort(),
                    logBuffer[..wp]);
      NothingToDrain(writer.hardware, writer.buffer.bufferSize, writer.flushTimeout, writer.initialized, writer.AsPort());
      Nothing(passed);
      Nothing(writer.buffer.accepted);
      if !disabled {
        handled, flushes := Drain();
        ghost var log := logBuffer[..wp];
        assert log == logBuffer[..handled] + logBuffer[handled..wp];
        Associate(passed, logBuffer[..handled], logBuffer[handled..wp]);
        passed := passed + logBuffer[..handled];
        if handled < wp {
          if handled > 0 {
            MoveDown(handled);
          }
          return;
        }
      }
      wp := 0;
      logBuffer[0] := 0;
    }
  }
}

/** The byte ring between the devices and the main loop: lib/queue/GwBuffer.cpp. */
module GwBuffer {
  import opened Bits
  import opened Sequences

  const NEWLINE: byte := 10

  // ----- the ring as a sequence

  /** What is stored between the read and the write position. */
  function Stored(b: seq<byte>, r: nat, w: nat): seq<byte>
    requires r < |b| && w < |b|
  {
    if r <= w then b[r..w] else b[r..] + b[..w]
  }

  function Wrapped(p: nat, size: nat): nat {
    if p >= size then p - size else p
  }

  /** Reading on from the read position: at most to the end of the memory, and not past the write position. */
  lemma StoredTake(b: seq<byte>, r: nat, w: nat, k: nat)
    requires r < |b| && w < |b| && r + k <= (if r <= w then w else |b|)
    ensures Stored(b, r, w) == b[r..r + k] + Stored(b, Wrapped(r + k, |b|), w)
  {
    if r > w && r + k == |b| {
      assert b[r..r + k] == b[r..];
    }
  }

  /** Writing on from the write position, without reaching the read position. */
  lemma StoredPut(b: seq<byte>, b': seq<byte>, r: nat, w: nat, d: seq<byte>)
    requires r < |b| && w < |b| && w + |d| <= |b|
    requires if r <= w then (r == 0 ==> w + |d| < |b|) else w + |d| < r
    requires b' == b[..w] + d + b[w + |d|..]
    ensures Stored(b', r, Wrapped(w + |d|, |b|)) == Stored(b, r, w) + d
  {
    var k := w + |d|;
    assert b'[..w] == b[..w];
    assert b'[w..k] == d;
    if r <= w {
      assert b'[r..w] == b[r..w];
      if k == |b| { assert b'[r..] == b'[r..w] + b'[w..k]; } else { assert b'[r..k] == b'[r..w] + b'[w..k]; }
    } else {
      assert b'[r..] == b[r..];
      assert b'[..k] == b'[..w] + b'[w..k];
    }
  }

  /** The least of what is there, what is asked for, if anything, and what is taken. */
  function Count(run: nat, maxLen: int, takes: nat): nat {
    var len := if maxLen >= 0 && maxLen < run then maxLen else run;
    if takes > len then len else takes
  }

  /** The ring without its memory: where reading goes on, and what is stored. */
  datatype Ring = Ring(readPointer: nat, contents: seq<byte>)

  predicate InRing(size: nat, ring: Ring) {
    ring.readPointer < size && |ring.contents| < size
  }

  /** How many bytes are next without going round. */
  function ReadRun(size: nat, ring: Ring): nat
    requires InRing(size, ring)
  {
    if |ring.contents| < size - ring.readPointer then |ring.contents| else size - ring.readPointer
  }

  /** How many bytes fit behind what is stored without going round and without closing up to the read position. */
  function FillRun(size: nat, ring: Ring): nat
    requires InRing(size, ring)
  {
    var room := size - 1 - |ring.contents|;
    var end := ring.readPointer + |ring.contents|;
    if end >= size || room < size - end then room else size - end
  }

  class GwBuffer {
    const bufferSize: nat
    const buffer: array<byte>
    var writePointer: nat
    var readPointer: nat
    ghost var accepted: seq<byte>    // everything taken in since the last reset
    ghost var delivered: seq<byte>   // everything given out since the last reset

    ghost function Contents(): (s: seq<byte>)
      requires readPointer < buffer.Length && writePointer < buffer.Length
      reads this, buffer
    {
      Stored(buffer[..], readPointer, writePointer)
    }

    ghost function AsRing(): (ring: Ring)
      requires readPointer < buffer.Length && writePointer < buffer.Length
      reads this, buffer
      ensures InRing(buffer.Length, ring)
    {
      Ring(readPointer, Contents())
    }

    /** Nothing is lost, doubled or reordered: what came in is what went out, followed by what is stored. */
    ghost predicate Valid()
      reads this, buffer
    {
      && buffer.Length == bufferSize && readPointer < bufferSize && writePointer < bufferSize
      && accepted == delivered + Contents()
    }

    constructor (bufferSize: nat)
      requires bufferSize > 0
      ensures Valid() && fresh(buffer) && this.bufferSize == bufferSize
      ensures accepted == delivered == Contents() == [] && readPointer == 0
    {
      this.bufferSize := bufferSize;
      buffer := new byte[bufferSize];
      writePointer, readPointer, accepted, delivered := 0, 0, [], [];
    }

    method Reset()
      requires Valid()
      modifies this`writePointer, this`readPointer, this`accepted, this`delivered
      ensures Valid() && accepted == delivered == Contents() == [] && readPointer == 0
    {
      writePointer, readPointer := 0, 0;
      accepted, delivered := [], [];
    }

    function FreeSpace(): (n: nat)
      requires Valid()
      reads this, buffer
      ensures n == bufferSize - 1 - |Contents()|
    {
      if readPointer <= writePointer then readPointer + bufferSize - writePointer - 1
      else readPointer - writePointer - 1
    }

    function UsedSpace(): (n: nat)
      requires Valid()
      reads this, buffer
      ensures n == |Contents()|
    {
      if readPointer <= writePointer then writePointer - readPointer
      else writePointer + bufferSize - readPointer
    }

    /** How many bytes are next in one run. */
    function Run(): (n: nat)
      requires Valid()
      reads this, buffer
      ensures n == ReadRun(bufferSize, AsRing()) <= |Contents()| && (Contents() != [] ==> n > 0)
    {
      if readPointer <= writePointer then writePointer - readPointer else bufferSize - readPointer
    }

    /** Reading on leaves the rest stored. */
    lemma Moved(n: nat)
      requires Valid() && n <= Run()
      ensures Contents() == buffer[..][readPointer..readPointer + n]
                            + Stored(buffer[..], Wrapped(readPointer + n, bufferSize), writePointer)
    {
      StoredTake(buffer[..], readPointer, writePointer, n);
    }

    /** Moves the read position over a run of bytes. */
    method Advance(n: nat) returns (taken: seq<byte>)
      requires Valid() && n <= Run()
      modifies this`readPointer, this`delivered
      ensures Valid() && accepted == old(accepted) && delivered == old(delivered) + taken
      ensures |taken| == n && old(Contents()) == taken + Contents()
      ensures readPointer == Wrapped(old(readPointer) + n, bufferSize)
    {
      hide Stored;
      Moved(n);
      taken := buffer[..][readPointer..readPointer + n];
      ghost var was := delivered;
      readPointer := readPointer + n;
      if readPointer >= bufferSize { readPointer := readPointer - bufferSize; }
      delivered := delivered + taken;
      Associate(was, taken, Contents());
    }

    method Read() returns (rt: int)
      requires Valid()
      modifies this`readPointer, this`delivered
      ensures Valid() && accepted == old(accepted)
      ensures if old(Contents()) == [] then rt == -1 && Contents() == [] && delivered == old(delivered)
              else old(Contents()) == [rt] + Contents() && delivered == old(delivered) + [rt]
      ensures readPointer == if rt == -1 then old(readPointer) else Wrapped(old(readPointer) + 1, bufferSize)
    {
      hide Stored;
      if UsedSpace() == 0 { return -1; }
      var taken := Advance(1);
      rt := taken[0];
    }

    method Peek() returns (rt: int)
      requires Valid()
      ensures rt == if Contents() == [] then -1 else Contents()[0]
    {
      if UsedSpace() == 0 { return -1; }
      rt := buffer[readPointer];
    }

    /** Copies a run of bytes behind the write position and moves it. */
    method Put(data: seq<byte>)
      requires Valid() && writePointer + |data| <= bufferSize && |data| <= FreeSpace()
      modifies this`writePointer, this`accepted, buffer
      ensures Valid() && delivered == old(delivered) && Contents() == old(Contents()) + data
      ensures accepted == old(accepted) + data
      ensures writePointer == Wrapped(old(writePointer) + |data|, bufferSize)
    {
      ghost var before := buffer[..];
      var w := writePointer;
      forall i | 0 <= i < |data| { buffer[w + i] := data[i]; }
      assert buffer[..] == before[..w] + data + before[w + |data|..];
      StoredPut(before, buffer[..], readPointer, w, data);
      Associate(delivered, Stored(before, readPointer, w), data);
      writePointer := w + |data|;
      accepted := accepted + data;
      if writePointer >= bufferSize { writePointer := writePointer - bufferSize; }
    }

    /** What of the rest of the data fits behind the write position without going round. */
    method AddRun(data: seq<byte>, written: nat) returns (toWrite: nat)
      requires Valid() && written <= |data|
      modifies this`writePointer, this`accepted, buffer
      ensures Valid() && delivered == old(delivered) && written + toWrite <= |data|
      ensures Contents() == old(Contents()) + data[written..written + toWrite]
      ensures accepted == old(accepted) + data[written..written + toWrite]
      ensures written + toWrite == |data| || toWrite == old(FreeSpace())
              || (writePointer == 0 && toWrite == bufferSize - old(writePointer))
    {
      hide Stored;
      var currentFree := FreeSpace();
      toWrite := |data| - written;
      if toWrite > currentFree { toWrite := currentFree; }
      if toWrite > bufferSize - writePointer { toWrite := bufferSize - writePointer; }
      if toWrite != 0 {
        Put(data[written..written + toWrite]);
      }
      Nothing(old(Contents()));
      Nothing(old(accepted));
    }

    /** As much of the data as fits if a part is wanted, else all of it or nothing. */
    method AddData(data: seq<byte>, addPartial: bool) returns (written: nat)
      requires Valid()
      modifies this`writePointer, this`accepted, buffer
      ensures Valid() && delivered == old(delivered)
      ensures written == if |data| <= old(FreeSpace()) then |data| else if addPartial then old(FreeSpace()) else 0
      ensures Contents() == old(Contents()) + data[..written] && accepted == old(accepted) + data[..written]
    {
      hide Stored;
      Nothing(Contents());
      Nothing(accepted);
      if |data| == 0 {
        return 0;
      }
      if FreeSpace() < |data| && !addPartial {
        return 0;
      }
      written := 0;
      ghost var before, taken := Contents(), accepted;
      for i := 0 to 2
        invariant Valid() && delivered == old(delivered) && written <= |data|
        invariant Contents() == before + data[..written] && accepted == taken + data[..written]
        invariant i >= 1 ==> written == |data| || FreeSpace() == 0 || writePointer == 0
        invariant i == 2 ==> written == |data| || FreeSpace() == 0
      {
        var toWrite := AddRun(data, written);
        TakeMore(data, written, toWrite);
        Associate(before, data[..written], data[written..written + toWrite]);
        Associate(taken, data[..written], data[written..written + toWrite]);
        written := written + toWrite;
      }
      var free := FreeSpace();
      assert free == bufferSize - 1 - |before| - written;
    }

    /** Hands the handler a run of bytes that are next; it takes as many of them as it likes. */
    method FetchData(maxLen: int, takes: nat) returns (taken: seq<byte>)
      requires Valid()
      modifies this`readPointer, this`delivered
      ensures Valid() && accepted == old(accepted) && delivered == old(delivered) + taken
      ensures old(Contents()) == taken + Contents()
      ensures |taken| == Count(ReadRun(bufferSize, old(AsRing())), maxLen, takes)
      ensures readPointer == Wrapped(old(readPointer) + |taken|, bufferSize)
    {
      hide Stored;
      Nothing(Contents());
      Nothing(delivered);
      if UsedSpace() < 1 { return []; }
      var len := Run();
      if maxLen >= 0 && maxLen < len { len := maxLen; }
      var handled := takes;
      if handled > len { handled := len; }
      taken := Advance(handled);
    }

    lemma WriteAt()
      requires Valid()
      ensures writePointer == Wrapped(readPointer + |Contents()|, bufferSize)
    {
    }

    /** Lets the handler write behind the write position; it brings the bytes of `source`, as far as they fit. */
    method FillData(maxLen: int, source: seq<byte>) returns (handled: nat)
      requires Valid()
      modifies this`writePointer, this`accepted, buffer
      ensures Valid() && delivered == old(delivered)
      ensures handled == Count(FillRun(bufferSize, old(AsRing())), maxLen, |source|)
      ensures Contents() == old(Contents()) + source[..handled] && accepted == old(accepted) + source[..handled]
    {
      WriteAt();
      hide Stored;
      Nothing(Contents());
      Nothing(accepted);
      if FreeSpace() < 1 { return 0; }
      var len := 0;
      if writePointer >= readPointer {
        len := bufferSize - writePointer;
        if len > 0 && readPointer == 0 { len := len - 1; }
      } else {
        len := readPointer - writePointer - 1;
      }
      if maxLen >= 0 && maxLen < len { len := maxLen; }
      if len == 0 { return 0; }
      handled := |source|;
      if handled > len { handled := len; }
      Put(source[..handled]);
    }

    /** The position of the first `x`. */
    method FindChar(x: byte) returns (of: int)
      requires Valid()
      ensures if x in Contents() then 0 <= of < |Contents()| && Contents()[of] == x && x !in Contents()[..of] else of == -1
    {
      of := 0;
      var p: nat := readPointer;
      while of < UsedSpace()
        invariant 0 <= of <= |Contents()| && x !in Contents()[..of]
        invariant p <= bufferSize && (of < |Contents()| ==> Wrapped(p, bufferSize) == Wrapped(readPointer + of, bufferSize))
      {
        if p >= bufferSize { p := p - bufferSize; }
        assert buffer[p] == Contents()[of];
        if buffer[p] == x { return; }
        assert Contents()[..of + 1] == Contents()[..of] + [Contents()[of]];
        of := of + 1;
        p := p + 1;
      }
      of := -1;
      assert Contents()[..|Contents()|] == Contents();
    }
  }

  // ----- lines

  ghost predicate IsLine(line: seq<byte>, delimiter: byte) {
    line != [] && line[|line| - 1] == delimiter && delimiter !in line[..|line| - 1]
  }

  /** The first line of the ring, with its delimiter, copied out and terminated. A ring that is full
      without a line in it, and a line too long for `to`, are thrown away. */
  method FetchMessageToBuffer(gwbuffer: GwBuffer, to: array<byte>, bufferLen: nat, delimiter: byte)
      returns (fetched: nat, reset: bool)
    requires gwbuffer.Valid() && to != gwbuffer.buffer && bufferLen <= to.Length
    modifies gwbuffer`readPointer, gwbuffer`writePointer, gwbuffer`accepted, gwbuffer`delivered, to
    ensures gwbuffer.Valid()
    ensures fetched > 0 ==> !reset && fetched < to.Length && to[fetched] == 0 && IsLine(to[..fetched], delimiter)
                            && old(gwbuffer.Contents()) == to[..fetched] + gwbuffer.Contents()
                            && gwbuffer.accepted == old(gwbuffer.accepted)
                            && gwbuffer.delivered == old(gwbuffer.delivered) + to[..fetched]
    ensures gwbuffer.readPointer == if reset then 0 else Wrapped(old(gwbuffer.readPointer) + fetched, gwbuffer.bufferSize)
    ensures reset ==> fetched == 0 && gwbuffer.accepted == gwbuffer.delivered == gwbuffer.Contents() == []
    ensures fetched == 0 && !reset ==> delimiter !in gwbuffer.Contents() && gwbuffer.Contents() == old(gwbuffer.Contents())
                                       && gwbuffer.accepted == old(gwbuffer.accepted)
                                       && gwbuffer.delivered == old(gwbuffer.delivered)
    ensures var s := old(gwbuffer.Contents());
            reset <==> if delimiter in s then FirstIndex(s, delimiter) + 1 >= bufferLen else |s| == gwbuffer.bufferSize - 1
  {
    hide Stored;
    fetched, reset := 0, false;
    var offset := gwbuffer.FindChar(delimiter);
    if offset < 0 {
      if gwbuffer.FreeSpace() == 0 {
        gwbuffer.Reset();
        reset := true;
      }
      return;
    }
    FirstIndexIs(gwbuffer.Contents(), delimiter, offset);
    offset := offset + 1;
    if offset >= bufferLen {
      gwbuffer.Reset();
      reset := true;
      return;
    }
    CopyOut(gwbuffer, to, offset);
    fetched := offset;
    ghost var stored := old(gwbuffer.Contents());
    TakeMore(stored, offset - 1, 1);
    to[fetched] := 0;
    assert to[..fetched] == stored[..offset];
  }

  /** The first `offset` bytes of the ring, in one or two runs. */
  method CopyOut(gwbuffer: GwBuffer, to: array<byte>, offset: nat)
    requires gwbuffer.Valid() && to != gwbuffer.buffer && offset <= |gwbuffer.Contents()| && offset <= to.Length
    modifies gwbuffer`readPointer, gwbuffer`delivered, to
    ensures gwbuffer.Valid() && gwbuffer.accepted == old(gwbuffer.accepted)
    ensures to[..offset] == old(gwbuffer.Contents())[..offset]
    ensures old(gwbuffer.Contents()) == to[..offset] + gwbuffer.Contents()
    ensures gwbuffer.delivered == old(gwbuffer.delivered) + to[..offset]
    ensures gwbuffer.readPointer == Wrapped(old(gwbuffer.readPointer) + offset, gwbuffer.bufferSize)
  {
    hide Stored;
    ghost var ring, given := gwbuffer.AsRing(), gwbuffer.delivered;
    ghost var stored := ring.contents;
    var fetched := 0;
    Nothing(given);
    Nothing(stored);
    while fetched < offset
      invariant gwbuffer.Valid() && fetched <= offset && gwbuffer.accepted == old(gwbuffer.accepted)
      invariant stored == to[..fetched] + gwbuffer.Contents() && gwbuffer.delivered == given + to[..fetched]
      invariant gwbuffer.readPointer == Wrapped(old(gwbuffer.readPointer) + fetched, gwbuffer.bufferSize)
    {
      ghost var at := fetched;
      fetched := CopyRun(gwbuffer, to, fetched, offset - fetched);
      assert to[..fetched] == to[..at] + to[at..fetched];
      Associate(given, to[..at], to[at..fetched]);
    }
    assert stored[..offset] == to[..offset];
  }

  /** One call of fetchData with a handler that copies; while something is stored it is never empty. */
  method CopyRun(gwbuffer: GwBuffer, to: array<byte>, at: nat, max: nat) returns (next: nat)
    requires gwbuffer.Valid() && to != gwbuffer.buffer && gwbuffer.Contents() != [] && max > 0 && at + max <= to.Length
    modifies gwbuffer`readPointer, gwbuffer`delivered, to
    ensures gwbuffer.Valid() && gwbuffer.accepted == old(gwbuffer.accepted) && at < next <= at + max
    ensures to[..at] == old(to[..at]) && old(gwbuffer.Contents()) == to[at..next] + gwbuffer.Contents()
    ensures to[..next] + gwbuffer.Contents() == old(to[..at] + gwbuffer.Contents())
    ensures gwbuffer.delivered == old(gwbuffer.delivered) + to[at..next]
    ensures gwbuffer.readPointer == Wrapped(old(gwbuffer.readPointer) + next - at, gwbuffer.bufferSize)
  {
    hide Stored;
    var rd := gwbuffer.FetchData(max, max);
    forall i | 0 <= i < |rd| { to[at + i] := rd[i]; }
    next := at + |rd|;
    assert to[at..next] == rd;
    assert to[..next] == to[..at] + rd;
    Associate(to[..at], rd, gwbuffer.Contents());
  }

  /** The pieces of a byte stream that end with the delimiter. */
  function LinesOf(s: seq<byte>, delimiter: byte): seq<seq<byte>>
    decreases |s|
  {
    if delimiter !in s then [] else
      var i := FirstIndex(s, delimiter);
      [s[..i + 1]] + LinesOf(s[i + 1..], delimiter)
  }

  function FirstIndex(s: seq<byte>, x: byte): (i: nat)
    requires x in s
    ensures i < |s| && s[i] == x && x !in s[..i]
  {
    if s[0] == x then 0 else
      var i := 1 + FirstIndex(s[1..], x);
      assert s[..i] == [s[0]] + s[1..][..i - 1];
      i
  }

  lemma FirstIndexIs(s: seq<byte>, x: byte, i: nat)
    requires i < |s| && s[i] == x && x !in s[..i]
    ensures FirstIndex(s, x) == i
  {
    var j := FirstIndex(s, x);
    assert forall k | 0 <= k < i :: s[k] == s[..i][k];
    assert forall k | 0 <= k < j :: s[k] == s[..j][k];
  }

  lemma LineIsFirst(line: seq<byte>, rest: seq<byte>, delimiter: byte)
    requires IsLine(line, delimiter)
    ensures delimiter in line + rest && FirstIndex(line + rest, delimiter) == |line| - 1
  {
    var i := |line| - 1;
    assert (line + rest)[..i] == line[..i];
    FirstIndexIs(line + rest, delimiter, i);
  }

  lemma LineFirst(line: seq<byte>, rest: seq<byte>, delimiter: byte)
    requires IsLine(line, delimiter)
    ensures LinesOf(line + rest, delimiter) == [line] + LinesOf(rest, delimiter)
  {
    LineIsFirst(line, rest, delimiter);
    var s := line + rest;
    assert s[..|line|] == line && s[|line|..] == rest;
  }

  /** Lines one behind the other are the lines of the stream, whatever follows. */
  lemma {:induction false} LinesOfFlatten(lines: seq<seq<byte>>, rest: seq<byte>, delimiter: byte)
    requires forall i | 0 <= i < |lines| :: IsLine(lines[i], delimiter)
    ensures LinesOf(Flatten(lines) + rest, delimiter) == lines + LinesOf(rest, delimiter)
    decreases |lines|
  {
    hide LinesOf, IsLine;
    if lines == [] {
      Nothing(rest);
      Nothing(LinesOf(rest, delimiter));
    } else {
      var before, line := lines[..|lines| - 1], lines[|lines| - 1];
      LinesOfFlatten(before, line + rest, delimiter);
      LineFirst(line, rest, delimiter);
      Associate(Flatten(before), line, rest);
      Associate(before, [line], LinesOf(rest, delimiter));
      assert lines == before + [line];
    }
  }

  // ----- runs of a channel

  /** What is done to a ring. */
  datatype Op =
    | Add(data: seq<byte>, addPartial: bool)
    | Fill(maxLen: int, data: seq<byte>)
    | Read
    | Fetch(maxLen: int, takes: nat)
    | FetchLine

  /** What comes of it: the number of bytes taken in, bytes given out, or that the ring was thrown away. */
  datatype Result =
    | Written(count: nat)
    | Byte(rt: int)
    | Bytes(bytes: seq<byte>)
    | Line(line: seq<byte>)
    | NoLine
    | Thrown

  function Taken(size: nat, ring: Ring, n: nat): Ring
    requires n <= |ring.contents|
  {
    Ring(Wrapped(ring.readPointer + n, size), ring.contents[n..])
  }

  /** The number of bytes moved is the greatest that exceeds neither what is there, nor what is asked for if anything
      is, nor what is taken. */
  lemma CountIsGreatest(run: nat, maxLen: int, takes: nat, n: nat)
    ensures n <= Count(run, maxLen, takes) <==> n <= run && (maxLen >= 0 ==> n <= maxLen) && n <= takes
  {
  }

  /** The run to be read is the greatest number of stored bytes before the end of the memory. */
  lemma ReadRunIsGreatest(size: nat, ring: Ring, n: nat)
    requires InRing(size, ring)
    ensures n <= ReadRun(size, ring) <==> n <= |ring.contents| && ring.readPointer + n <= size
  {
  }

  /** The run to be filled is the greatest number of bytes that may be stored and that lie before the end of the
      memory, from where writing goes on. */
  lemma FillRunIsGreatest(size: nat, ring: Ring, n: nat)
    requires InRing(size, ring)
    ensures var end := ring.readPointer + |ring.contents|;
            var write := if end < size then end else end - size;
            n <= FillRun(size, ring) <==> |ring.contents| + n < size && write + n <= size
  {
  }

  /** Two runs empty a ring, and two fill it; one is not enough only if the bytes go round. */
  lemma TwoRuns(size: nat, ring: Ring, data: seq<byte>)
    requires InRing(size, ring) && |data| == FillRun(size, ring)
    ensures var empty := Taken(size, ring, ReadRun(size, ring));
            InRing(size, empty) && ReadRun(size, empty) == |empty.contents|
    ensures var full := ring.(contents := ring.contents + data);
            InRing(size, full) && |full.contents| + FillRun(size, full) == size - 1
    ensures |ring.contents| < size - 1 ==> FillRun(size, ring) > 0
    ensures ring.contents != [] ==> ReadRun(size, ring) > 0
  {
  }

  /** The bytes an operation brings. */
  function Offered(op: Op): seq<byte> {
    if op.Add? || op.Fill? then op.data else []
  }

  /** How many of them are taken in. */
  function Accepts(size: nat, ring: Ring, op: Op): (n: nat)
    requires InRing(size, ring)
    ensures n <= |Offered(op)| && |ring.contents| + n < size
  {
    match op
    case Add(data, addPartial) =>
      var free := size - 1 - |ring.contents|;
      if |data| <= free then |data| else if addPartial then free else 0
    case Fill(maxLen, data) => Count(FillRun(size, ring), maxLen, |data|)
    case _ => 0
  }

  /** One operation. */
  function Step(size: nat, lineSize: nat, ring: Ring, op: Op): (r: (Ring, Result))
    requires InRing(size, ring)
    ensures InRing(size, r.0)
  {
    var s := ring.contents;
    match op
    case Add(data, _) =>
      var n := Accepts(size, ring, op);
      (ring.(contents := s + data[..n]), Written(n))
    case Fill(_, data) =>
      var n := Accepts(size, ring, op);
      (ring.(contents := s + data[..n]), Written(n))
    case Read => if s == [] then (ring, Byte(-1)) else (Taken(size, ring, 1), Byte(s[0]))
    case Fetch(maxLen, takes) =>
      var n := Count(ReadRun(size, ring), maxLen, takes);
      (Taken(size, ring, n), Bytes(s[..n]))
    case FetchLine =>
      if NEWLINE !in s then if |s| == size - 1 then (Ring(0, []), Thrown) else (ring, NoLine)
      else
        var n := FirstIndex(s, NEWLINE) + 1;
        if n < lineSize then (Taken(size, ring, n), Line(s[..n])) else (Ring(0, []), Thrown)
  }

  /** A run that starts with an empty ring. */
  function Run(size: nat, lineSize: nat, ops: seq<Op>): (r: (Ring, seq<Result>))
    requires size > 0
    ensures InRing(size, r.0) && |r.1| == |ops|
  {
    if ops == [] then (Ring(0, []), [])
    else
      var (ring, results) := Run(size, lineSize, ops[..|ops| - 1]);
      var (ring', result) := Step(size, lineSize, ring, ops[|ops| - 1]);
      (ring', results + [result])
  }

  /** What was taken in since the ring was last thrown away. */
  function Accepted(ops: seq<Op>, results: seq<Result>): seq<byte>
    requires |ops| == |results|
  {
    if ops == [] then []
    else
      var op, result := ops[|ops| - 1], results[|ops| - 1];
      if result.Thrown? then []
      else
        Accepted(ops[..|ops| - 1], results[..|ops| - 1])
        + if result.Written? && result.count <= |Offered(op)| then Offered(op)[..result.count] else []
  }

  /** What a result hands out. */
  function Given(result: Result): seq<byte> {
    match result
    case Byte(rt) => if 0 <= rt < 256 then [rt] else []
    case Bytes(bytes) => bytes
    case Line(line) => line
    case _ => []
  }

  /** What was given out since then. */
  function Delivered(results: seq<Result>): seq<byte> {
    if results == [] || results[|results| - 1].Thrown? then []
    else Delivered(results[..|results| - 1]) + Given(results[|results| - 1])
  }

  /** The lines fetched since then. */
  function LinesFetched(results: seq<Result>): seq<seq<byte>> {
    if results == [] || results[|results| - 1].Thrown? then []
    else
      var last := results[|results| - 1];
      LinesFetched(results[..|results| - 1]) + if last.Line? then [last.line] else []
  }

  /** Since then nothing was taken out but lines. */
  predicate ByLine(results: seq<Result>) {
    results == [] || results[|results| - 1].Thrown?
    || (!results[|results| - 1].Byte? && !results[|results| - 1].Bytes? && ByLine(results[..|results| - 1]))
  }

  /** The bytes an operation takes in go behind those stored, the bytes it gives out come from their front. */
  ghost predicate Conserves(ring: Ring, op: Op, ring': Ring, result: Result) {
    match result
    case Written(count) => count <= |Offered(op)| && ring'.contents == ring.contents + Offered(op)[..count]
    case Thrown => ring'.contents == []
    case _ => ring.contents == Given(result) + ring'.contents
  }

  lemma StepConserves(size: nat, lineSize: nat, ring: Ring, op: Op)
    requires InRing(size, ring)
    ensures Conserves(ring, op, Step(size, lineSize, ring, op).0, Step(size, lineSize, ring, op).1)
  {
    hide FillRun, Accepts, FirstIndex, Wrapped;
    var s := ring.contents;
    match op
    case Add(_, _) =>
    case Fill(_, _) =>
    case Read => if s == [] { Nothing(s); } else { HeadAndTail(s); }
    case Fetch(maxLen, takes) => TakeAndDrop(s, Count(ReadRun(size, ring), maxLen, takes));
    case FetchLine => if NEWLINE in s { TakeAndDrop(s, FirstIndex(s, NEWLINE) + 1); } else { Nothing(s); }
  }

  lemma StepLine(size: nat, lineSize: nat, ring: Ring, op: Op)
    requires InRing(size, ring) && Step(size, lineSize, ring, op).1.Line?
    ensures IsLine(Step(size, lineSize, ring, op).1.line, NEWLINE)
  {
    hide FillRun, Accepts, ReadRun, Wrapped;
    var n := FirstIndex(ring.contents, NEWLINE);
    PrefixSlice(ring.contents, n + 1, 0, n);
  }

  /** Nothing is lost, doubled or reordered by any run: the bytes taken in are those given out, followed by
      those still stored. */
  lemma {:induction false} ChannelConserves(size: nat, lineSize: nat, ops: seq<Op>)
    requires size > 0
    ensures var (ring, results) := Run(size, lineSize, ops);
            Accepted(ops, results) == Delivered(results) + ring.contents
  {
    hide Step, Accepts, Offered;
    if ops != [] {
      var before, op := ops[..|ops| - 1], ops[|ops| - 1];
      ChannelConserves(size, lineSize, before);
      var (ring, results) := Run(size, lineSize, before);
      StepConserves(size, lineSize, ring, op);
      var (ring', result) := Step(size, lineSize, ring, op);
      assert (results + [result])[..|before|] == results;
      if !result.Thrown? {
        if result.Written? {
          Associate(Delivered(results), ring.contents, Offered(op)[..result.count]);
          Nothing(Delivered(results));
        } else {
          Associate(Delivered(results), Given(result), ring'.contents);
          Nothing(Accepted(before, results));
        }
      }
    }
  }

  lemma {:induction false} DeliveredByLine(size: nat, lineSize: nat, ops: seq<Op>)
    requires size > 0 && ByLine(Run(size, lineSize, ops).1)
    ensures var results := Run(size, lineSize, ops).1;
            Delivered(results) == Flatten(LinesFetched(results))
            && forall i | 0 <= i < |LinesFetched(results)| :: IsLine(LinesFetched(results)[i], NEWLINE)
  {
    hide Step, IsLine, Accepts, Flatten;
    FlattenNothing<byte>();
    if ops != [] {
      var before, op := ops[..|ops| - 1], ops[|ops| - 1];
      var (ring, results) := Run(size, lineSize, before);
      var (ring', result) := Step(size, lineSize, ring, op);
      assert (results + [result])[..|before|] == results;
      if !result.Thrown? {
        DeliveredByLine(size, lineSize, before);
        Nothing(LinesFetched(results));
        Nothing(Delivered(results));
        if result.Line? { StepLine(size, lineSize, ring, op); FlattenMore(LinesFetched(results), result.line); }
      }
    }
  }

  /** While nothing else is taken out, the lines fetched and those still stored are the lines of the bytes taken in,
      however they came. */
  lemma ChannelLines(size: nat, lineSize: nat, ops: seq<Op>)
    requires size > 0 && ByLine(Run(size, lineSize, ops).1)
    ensures var (ring, results) := Run(size, lineSize, ops);
            LinesOf(Accepted(ops, results), NEWLINE) == LinesFetched(results) + LinesOf(ring.contents, NEWLINE)
  {
    hide Run, Accepted, Delivered, LinesFetched, LinesOf, IsLine, Flatten, ByLine;
    var (ring, results) := Run(size, lineSize, ops);
    ChannelConserves(size, lineSize, ops);
    DeliveredByLine(size, lineSize, ops);
    LinesOfFlatten(LinesFetched(results), ring.contents, NEWLINE);
  }

  /** A line fetched from a ring. */
  method FetchOne(ring: GwBuffer, line: array<byte>, lineSize: nat) returns (result: Result)
    requires ring.Valid() && line != ring.buffer && lineSize <= line.Length
    modifies ring`readPointer, ring`writePointer, ring`accepted, ring`delivered, line
    ensures ring.Valid() && (ring.AsRing(), result) == Step(ring.bufferSize, lineSize, old(ring.AsRing()), FetchLine)
  {
    hide Stored, FirstIndex;
    var fetched, reset := FetchMessageToBuffer(ring, line, lineSize, NEWLINE);
    if reset {
      result := Thrown;
    } else if fetched > 0 {
      result := Line(line[..fetched]);
      LineIsFirst(line[..fetched], ring.Contents(), NEWLINE);
      hide IsLine;
    } else {
      result := NoLine;
    }
  }

  /** One operation on a ring. */
  method Operate(ring: GwBuffer, line: array<byte>, lineSize: nat, op: Op) returns (result: Result)
    requires ring.Valid() && line != ring.buffer && lineSize <= line.Length
    modifies ring, ring.buffer, line
    ensures ring.Valid() && (ring.AsRing(), result) == Step(ring.bufferSize, lineSize, old(ring.AsRing()), op)
  {
    hide Stored, LinesOf, FillRun, ReadRun;
    match op
    case Add(data, addPartial) =>
      var written := ring.AddData(data, addPartial);
      result := Written(written);
    case Fill(maxLen, data) =>
      var handled := ring.FillData(maxLen, data);
      result := Written(handled);
    case Read =>
      var rt := ring.Read();
      result := Byte(rt);
    case Fetch(maxLen, takes) =>
      var bytes := ring.FetchData(maxLen, takes);
      result := Bytes(bytes);
    case FetchLine =>
      result := FetchOne(ring, line, lineSize);
  }

  /** A channel that is filled in any way, and from which bytes and lines are taken at any time. */
  method RunChannel(bufferSize: nat, lineSize: nat, ops: seq<Op>) returns (results: seq<Result>, stored: seq<byte>)
    requires bufferSize > 0
    ensures var (ring, expected) := Run(bufferSize, lineSize, ops);
            results == expected && stored == ring.contents
    ensures |results| == |ops| && Accepted(ops, results) == Delivered(results) + stored
    ensures ByLine(results) ==>
              LinesOf(Accepted(ops, results), NEWLINE) == LinesFetched(results) + LinesOf(stored, NEWLINE)
  {
    hide LinesOf, Step, Accepted, Delivered, LinesFetched, ByLine;
    var ring := new GwBuffer(bufferSize);
    var line := new byte[lineSize];
    results := [];
    for i := 0 to |ops|
      invariant fresh(ring) && fresh(ring.buffer) && ring.buffer != line && ring.bufferSize == bufferSize
      invariant ring.Valid() && (ring.AsRing(), results) == Run(bufferSize, lineSize, ops[..i])
    {
      assert ops[..i + 1][..i] == ops[..i];
      var result := Operate(ring, line, lineSize, ops[i]);
      results := results + [result];
    }
    assert ops[..|ops|] == ops;
    stored := Stored(ring.buffer[..], ring.readPointer, ring.writePointer);
    ChannelConserves(bufferSize, lineSize, ops);
    if ByLine(results) { ChannelLines(bufferSize, lineSize, ops); }
  }
}

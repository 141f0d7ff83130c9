/** How often something is sent: the time of the last send is kept for every key. */
module Throttle {
  import opened Decimals
  import opened Sequences

  datatype Sent = Sent(key: string, time: nat, minDiff: nat)

  function OfKey(log: seq<Sent>, key: string): seq<Sent> {
    if log == [] then []
    else OfKey(log[..|log| - 1], key) + if log[|log| - 1].key == key then [log[|log| - 1]] else []
  }

  /** Between two there is at least the difference the later one was sent with. */
  ghost predicate Spaced(s: seq<Sent>) {
    forall i | 0 < i < |s| :: s[i - 1].time + s[i].minDiff <= s[i].time
  }

  /** The times kept are those of the last sends, and the sends of each key are spaced. */
  ghost predicate Shows(last: map<string, nat>, log: seq<Sent>) {
    forall key: string :: ShowsKey(last, log, key)
  }

  ghost predicate ShowsKey(last: map<string, nat>, log: seq<Sent>, key: string) {
    var s := OfKey(log, key);
    && (key in last <==> s != []) && (key in last ==> last[key] == s[|s| - 1].time)
    && Spaced(s)
  }

  lemma SendKeeps(last: map<string, nat>, log: seq<Sent>, key: string, now: nat, minDiff: nat)
    requires Shows(last, log) && (key in last ==> last[key] + minDiff <= now)
    ensures Shows(last[key := now], log + [Sent(key, now, minDiff)])
  {
    hide ShowsKey, OfKey;
    var last', log' := last[key := now], log + [Sent(key, now, minDiff)];
    forall k: string
      ensures ShowsKey(last', log', k)
    {
      assert ShowsKey(last, log, k);
      SendKeepsKey(last, log, key, now, minDiff, k);
    }
  }

  lemma SendKeepsKey(last: map<string, nat>, log: seq<Sent>, key: string, now: nat, minDiff: nat, k: string)
    requires ShowsKey(last, log, k) && (key in last ==> last[key] + minDiff <= now)
    ensures ShowsKey(last[key := now], log + [Sent(key, now, minDiff)], k)
  {
    OfKeyNext(log, Sent(key, now, minDiff), k);
    hide OfKey;
  }

  lemma OfKeyNext(log: seq<Sent>, sent: Sent, k: string)
    ensures OfKey(log + [sent], k) == if sent.key == k then OfKey(log, k) + [sent] else OfKey(log, k)
  {
    assert (log + [sent])[..|log|] == log;
    Nothing(OfKey(log, k));
  }

  lemma NothingSent()
    ensures Shows(map[], [])
  {
    assert forall key: string :: ShowsKey(map[], [], key);
  }

  lemma {:induction false} OfKeyFrom(log: seq<Sent>, key: string, d: nat)
    requires forall i | 0 <= i < |log| :: log[i].minDiff >= d
    ensures forall i | 0 <= i < |OfKey(log, key)| :: OfKey(log, key)[i].minDiff >= d
  {
    if log != [] { OfKeyFrom(log[..|log| - 1], key, d); }
  }

  function InWindow(s: seq<Sent>, lo: int, hi: int): nat {
    if s == [] then 0
    else InWindow(s[..|s| - 1], lo, hi) + if lo <= s[|s| - 1].time <= hi then 1 else 0
  }

  lemma {:induction false} LastIsLatest(s: seq<Sent>, i: nat)
    requires Spaced(s) && i < |s|
    ensures s[i].time <= s[|s| - 1].time
  {
    if i < |s| - 1 { LastIsLatest(s[..|s| - 1], i); }
  }

  /** The end of a window does not matter as long as it is not before the last send. */
  lemma {:induction false} WindowEnd(s: seq<Sent>, lo: int, hi: int, hi': int)
    requires hi' <= hi && forall i | 0 <= i < |s| :: s[i].time <= hi'
    ensures InWindow(s, lo, hi) == InWindow(s, lo, hi')
  {
    if s != [] { WindowEnd(s[..|s| - 1], lo, hi, hi'); }
  }

  /** In a window of length T there are at most T / d + 1 sends of a key whose sends are at least d apart. */
  lemma {:induction false} SendsInWindow(s: seq<Sent>, d: nat, lo: int, hi: int)
    requires Spaced(s) && d > 0 && forall i | 0 < i < |s| :: s[i].minDiff >= d
    ensures InWindow(s, lo, hi) * d <= if hi >= lo then hi - lo + d else 0
  {
    if s != [] {
      var before, x := s[..|s| - 1], s[|s| - 1];
      SendsInWindow(before, d, lo, hi);
      if lo <= x.time <= hi {
        var end := x.time - d;
        if before != [] {
          forall i | 0 <= i < |before|
            ensures before[i].time <= end
          {
            LastIsLatest(before, i);
          }
          WindowEnd(before, lo, hi, end);
        }
        SendsInWindow(before, d, lo, end);
        OneMore(InWindow(before, lo, hi), d);
      }
    }
  }

  lemma OneMore(n: nat, d: nat)
    ensures (n + 1) * d == n * d + d
  {
  }

  // ----- messages to the NMEA2000 bus: lib/nmea0183ton2k/NMEA0183DataToN2K.cpp, lines 75-95

  /** Without a key the number of the message is one. */
  function KeyOf(pgn: nat, key: string): string {
    if key == "" then Decimal(pgn) else key
  }

  class N2kSends {
    var lastSends: map<string, nat>
    var sent: seq<nat>   // the PGNs of the messages handed on
    ghost var log: seq<Sent>

    ghost predicate Valid()
      reads this
    {
      Shows(lastSends, log)
    }

    constructor ()
      ensures Valid() && sent == [] && log == []
    {
      lastSends, sent, log := map[], [], [];
      NothingSent();
    }

    method Send(pgn: nat, key: string, minDiff: nat, now: nat) returns (done: bool)
      requires Valid()
      modifies this
      ensures Valid()
      ensures var k := KeyOf(pgn, key);
              var s := old(OfKey(log, k));
              && (done <==> s == [] || s[|s| - 1].time + minDiff <= now)
              && log == (if done then old(log) + [Sent(k, now, minDiff)] else old(log))
              && sent == (if done then old(sent) + [pgn] else old(sent))
    {
      hide Shows, OfKey;
      var k := KeyOf(pgn, key);
      KeyShown(lastSends, log, k);
      if k !in lastSends || lastSends[k] + minDiff <= now {
        SendKeeps(lastSends, log, k, now, minDiff);
        lastSends := lastSends[k := now];
        log := log + [Sent(k, now, minDiff)];
        sent := sent + [pgn];
        return true;
      }
      done := false;
    }

    /** With an interval of at least d each time, at most T / d + 1 messages of a key in any time of length T. */
    lemma MessagesInWindow(key: string, d: nat, lo: int, hi: int)
      requires Valid() && d > 0 && lo <= hi && forall i | 0 <= i < |log| :: log[i].minDiff >= d
      ensures InWindow(OfKey(log, key), lo, hi) * d <= hi - lo + d
    {
      KeyShown(lastSends, log, key);
      OfKeyFrom(log, key, d);
      SendsInWindow(OfKey(log, key), d, lo, hi);
    }
  }

  lemma KeyShown(last: map<string, nat>, log: seq<Sent>, key: string)
    requires Shows(last, log)
    ensures ShowsKey(last, log, key)
  {
  }
}

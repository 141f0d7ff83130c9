/** The numbers of waypoint names: lib/nmea0183ton2k/NMEA0183DataToN2K.cpp, lines 33-74. */
module Waypoints {
  import opened Bits

  const MAXWAYPOINTS := 100

  datatype WaypointNumber = WaypointNumber(id: byte, lastUsed: nat)

  /** A name was asked for at some time. */
  datatype Use = Use(name: string, time: nat)

  /** When a name was asked for last. */
  function LastUse(history: seq<Use>, name: string): (t: int)
    ensures t >= -1
  {
    if history == [] then -1
    else if history[|history| - 1].name == name then history[|history| - 1].time
    else LastUse(history[..|history| - 1], name)
  }

  lemma LastUseNext(history: seq<Use>, u: Use, name: string)
    ensures LastUse(history + [u], name) == if u.name == name then u.time else LastUse(history, name)
  {
    assert (history + [u])[..|history|] == history;
  }

  /** No two names share a number. */
  ghost predicate Distinct(m: map<string, WaypointNumber>) {
    forall n, n' | n in m && n' in m && n != n' :: m[n].id != m[n'].id
  }

  lemma AddDistinct(m: map<string, WaypointNumber>, name: string, w: WaypointNumber)
    requires Distinct(m) && forall n | n in m && n != name :: m[n].id != w.id
    ensures Distinct(m[name := w])
  {
  }

  lemma RemoveDistinct(m: map<string, WaypointNumber>, gone: string)
    requires Distinct(m) && gone in m
    ensures Distinct(m - {gone}) && forall n | n in m - {gone} :: (m - {gone})[n].id != m[gone].id
  {
  }

  lemma Sizes(m: map<string, WaypointNumber>, name: string, w: WaypointNumber)
    ensures |m[name := w]| == if name in m then |m| else |m| + 1
    ensures name in m ==> |m - {name}| == |m| - 1
  {
    assert m[name := w].Keys == m.Keys + {name};
    assert (m - {name}).Keys == m.Keys - {name};
  }

  /** Every name has its own number, from 2 on and at most 102; the counter is one ahead of the names, and the
      time kept is the one when the name was asked for last. */
  ghost predicate Numbered(m: map<string, WaypointNumber>, waypointId: int, history: seq<Use>) {
    && |m| <= MAXWAYPOINTS + 1 && waypointId == |m| + 1 && Distinct(m)
    && (forall n | n in m :: 2 <= m[n].id <= waypointId)
    && (forall n | n in m :: m[n].lastUsed == LastUse(history, n))
  }

  lemma UsesKeepOthers(m: map<string, WaypointNumber>, history: seq<Use>, u: Use)
    requires forall n | n in m :: m[n].lastUsed == LastUse(history, n)
    ensures LastUse(history + [u], u.name) == u.time
    ensures forall n | n in m && n != u.name :: m[n].lastUsed == LastUse(history + [u], n)
  {
    hide LastUse;
    LastUseNext(history, u, u.name);
    forall n | n in m && n != u.name
      ensures m[n].lastUsed == LastUse(history + [u], n)
    {
      LastUseNext(history, u, n);
    }
  }

  lemma FoundKeeps(m: map<string, WaypointNumber>, waypointId: int, history: seq<Use>, name: string, now: nat)
    requires Numbered(m, waypointId, history) && name in m
    ensures Numbered(m[name := WaypointNumber(m[name].id, now)], waypointId, history + [Use(name, now)])
  {
    var w := WaypointNumber(m[name].id, now);
    AddDistinct(m, name, w);
    hide LastUse, Distinct;
    UsesKeepOthers(m, history, Use(name, now));
    Sizes(m, name, w);
  }

  lemma NewKeeps(m: map<string, WaypointNumber>, waypointId: int, history: seq<Use>, name: string, w: WaypointNumber)
    requires Numbered(m, waypointId, history) && name !in m && |m| <= MAXWAYPOINTS && w.id == waypointId + 1
    ensures Numbered(m[name := w], waypointId + 1, history + [Use(name, w.lastUsed)])
  {
    hide LastUse, Distinct;
    AddDistinct(m, name, w);
    UsesKeepOthers(m, history, Use(name, w.lastUsed));
    Sizes(m, name, w);
  }

  lemma ReplacedKeeps(m: map<string, WaypointNumber>, waypointId: int, history: seq<Use>, name: string, now: nat,
                      gone: string)
    requires Numbered(m, waypointId, history) && name !in m && gone in m
    ensures Numbered((m - {gone})[name := WaypointNumber(m[gone].id, now)], waypointId, history + [Use(name, now)])
  {
    hide LastUse, Distinct;
    var w := WaypointNumber(m[gone].id, now);
    RemoveDistinct(m, gone);
    AddDistinct(m - {gone}, name, w);
    UsesKeepOthers(m, history, Use(name, now));
    Sizes(m, gone, w);
    Sizes(m - {gone}, name, w);
  }

  class WaypointMap {
    var waypointMap: map<string, WaypointNumber>
    var waypointId: byte
    ghost var history: seq<Use>

    ghost predicate Valid()
      reads this
    {
      Numbered(waypointMap, waypointId, history)
    }

    constructor ()
      ensures Valid() && waypointMap == map[] && history == []
    {
      waypointMap, waypointId, history := map[], 1, [];
    }

    /** The number of a name. A stored name keeps it; a new name gets a number of its own, the one of a least
        recently used name if the map is full, and only that name is forgotten. */
    method GetWaypointId(name: string, now: nat) returns (id: byte)
      requires Valid()
      modifies this
      ensures Valid() && history == old(history) + [Use(name, now)]
      ensures name in waypointMap && waypointMap[name] == WaypointNumber(id, now)
      ensures name in old(waypointMap) ==>
                id == old(waypointMap)[name].id && waypointMap == old(waypointMap)[name := WaypointNumber(id, now)]
      ensures name !in old(waypointMap) && old(|waypointMap|) <= MAXWAYPOINTS ==>
                id == old(|waypointMap|) + 2 && waypointMap == old(waypointMap)[name := WaypointNumber(id, now)]
      ensures name !in old(waypointMap) && old(|waypointMap|) > MAXWAYPOINTS ==>
                exists oldest :: oldest in old(waypointMap) && id == old(waypointMap)[oldest].id
                  && (forall n | n in old(waypointMap) :: LastUse(old(history), oldest) <= LastUse(old(history), n))
                  && waypointMap == (old(waypointMap) - {oldest})[name := WaypointNumber(id, now)]
    {
      hide LastUse, Numbered;
      ghost var before := history;
      history := history + [Use(name, now)];
      if name in waypointMap {
        FoundKeeps(waypointMap, waypointId, before, name, now);
        id := waypointMap[name].id;
        waypointMap := waypointMap[name := WaypointNumber(id, now)];
        return;
      }
      if |waypointMap| > MAXWAYPOINTS {
        var oldest := Oldest(waypointMap);
        LastUses(waypointMap, waypointId, before);
        ReplacedKeeps(waypointMap, waypointId, before, name, now, oldest);
        id := waypointMap[oldest].id;
        waypointMap := waypointMap - {oldest};
      } else {
        Counter(waypointMap, waypointId, before);
        NewKeeps(waypointMap, waypointId, before, name, WaypointNumber(waypointId + 1, now));
        waypointId := waypointId + 1;
        id := waypointId;
      }
      waypointMap := waypointMap[name := WaypointNumber(id, now)];
    }
  }

  lemma Counter(m: map<string, WaypointNumber>, waypointId: int, history: seq<Use>)
    requires Numbered(m, waypointId, history)
    ensures waypointId == |m| + 1 <= MAXWAYPOINTS + 2
  {
  }

  lemma LastUses(m: map<string, WaypointNumber>, waypointId: int, history: seq<Use>)
    requires Numbered(m, waypointId, history)
    ensures forall n | n in m :: m[n].lastUsed == LastUse(history, n)
  {
  }

  /** The loop over the map; in which order it visits the names does not matter. */
  method Oldest(m: map<string, WaypointNumber>) returns (oldest: string)
    requires m != map[]
    ensures oldest in m && forall n | n in m :: m[oldest].lastUsed <= m[n].lastUsed
  {
    assert m.Keys != {};
    oldest :| oldest in m;
    var rest := m.Keys;
    while rest != {}
      invariant oldest in m && rest <= m.Keys
      invariant forall n | n in m && n !in rest :: m[oldest].lastUsed <= m[n].lastUsed
      decreases |rest|
    {
      var it :| it in rest;
      if m[oldest].lastUsed > m[it].lastUsed { oldest := it; }
      rest := rest - {it};
    }
  }
}

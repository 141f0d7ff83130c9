/** The body of a setConfig request, parsed as it comes in: src/main.cpp, lines 614-740. */
module SetConfig {
  import opened Sequences

  const NAME_SIZE := 32
  const VALUE_SIZE := 511

  const HASH := "_hash"
  const JSON_OK := "{\"status\":\"OK\"}"
  const JSON_INVALID_PASS := "{\"status\":\"invalid password\"}"
  const JSON_MISSING_HASH := "{\"status\":\"missing _hash\"}"

  datatype Event = Update(name: string, value: string) | Reply(json: string)

  // ----- what a whole body means

  /** What a buffer of `size` characters holds of a text behind which a terminator is written: a full
      buffer is started again. */
  function Kept(s: string, size: nat): (r: string)
    requires size > 0
    ensures |r| < size
    decreases s, size
  {
    if |s| < size then s else Kept(s[size..], size)
  }

  /** At the end of the body no terminator has to fit: the buffer may be full. */
  function KeptAtEnd(s: string, size: nat): (r: string)
    requires size > 0
    ensures |r| <= size
    decreases s, size
  {
    if |s| <= size then s else KeptAtEnd(s[size..], size)
  }

  /** A C string ends at its first NUL. */
  function CStr(s: string): string {
    if s == [] || s[0] == '\0' then [] else [s[0]] + CStr(s[1..])
  }

  function IndexOf(s: string, c: char): (i: nat)
    ensures i <= |s| && (i < |s| ==> s[i] == c) && c !in s[..i]
  {
    if s == [] || s[0] == c then 0 else
      var i := 1 + IndexOf(s[1..], c);
      assert s[..i] == [s[0]] + s[1..][..i - 1];
      i
  }

  datatype Parameter = Parameter(name: string, value: string)

  /** Names up to '=', values up to '&' or the end. */
  function Parameters(body: string): seq<Parameter> {
    var e := IndexOf(body, '=');
    if e == |body| then [] else
      var rest := body[e + 1..];
      var a := IndexOf(rest, '&');
      var name := CStr(Kept(body[..e], NAME_SIZE));
      if a == |rest| then [Parameter(name, CStr(KeptAtEnd(rest, VALUE_SIZE)))]
      else [Parameter(name, CStr(Kept(rest[..a], VALUE_SIZE)))] + Parameters(rest[a + 1..])
  }

  function Updates(ps: seq<Parameter>): seq<Event> {
    if ps == [] then [] else [Update(ps[0].name, ps[0].value)] + Updates(ps[1..])
  }

  /** The first parameter has to be the password hash, the others are values to be stored. */
  function Outcome(check: string -> bool, ps: seq<Parameter>): seq<Event> {
    if ps == [] || ps[0].name != HASH then [Reply(JSON_MISSING_HASH)]
    else if !check(ps[0].value) then [Reply(JSON_INVALID_PASS)]
    else Updates(ps[1..]) + [Reply(JSON_OK)]
  }

  // ----- byte by byte

  /** `checked`: the hash was the first parameter and right. */
  datatype State =
    | Stopped
    | InName(checked: bool, name: string)
    | InValue(checked: bool, name: string, value: string)

  function Room(s: string, size: nat): string {
    if |s| >= size then [] else s
  }

  function Finish(check: string -> bool, checked: bool, name: string, value: string): (State, seq<Event>) {
    if checked then (InName(true, []), [Update(CStr(name), CStr(value))])
    else if CStr(name) != HASH then (Stopped, [Reply(JSON_MISSING_HASH)])
    else if !check(CStr(value)) then (Stopped, [Reply(JSON_INVALID_PASS)])
    else (InName(true, []), [])
  }

  /** One byte; `last`: the body ends with it. */
  function Step(check: string -> bool, s: State, c: char, last: bool): (State, seq<Event>) {
    match s
    case Stopped => (s, [])
    case InName(checked, name) =>
      var n := Room(name, NAME_SIZE);
      if c != '=' then (InName(checked, n + [c]), [])
      else if last then Finish(check, checked, n, [])
      else (InValue(checked, n, []), [])
    case InValue(checked, name, value) =>
      var v := Room(value, VALUE_SIZE);
      if c == '&' then Finish(check, checked, name, v)
      else if last then Finish(check, checked, name, v + [c])
      else (InValue(checked, name, v + [c]), [])
  }

  /** Bytes one after the other; `end`: the body ends with them. */
  function Run(check: string -> bool, s: State, d: string, end: bool): (State, seq<Event>)
    decreases d, end
  {
    if d == [] then (s, [])
    else
      var (s1, e1) := Run(check, s, d[..|d| - 1], false);
      var (s2, e2) := Step(check, s1, d[|d| - 1], end);
      (s2, e1 + e2)
  }

  /** What is sent at the end of the body. */
  function AtEnd(s: State): seq<Event> {
    if s.Stopped? then [] else if s.checked then [Reply(JSON_OK)] else [Reply(JSON_MISSING_HASH)]
  }

  function Total(check: string -> bool, s: State, d: string): seq<Event> {
    var (t, e) := Run(check, s, d, true);
    e + AtEnd(t)
  }

  // ----- both agree

  lemma {:induction false} RunAppend(check: string -> bool, s: State, a: string, b: string, end: bool)
    requires b != []
    ensures var (t, e) := Run(check, s, a, false);
            var (u, f) := Run(check, t, b, end);
            Run(check, s, a + b, end) == (u, e + f)
    decreases |b|
  {
    hide Step;
    var b' := b[..|b| - 1];
    assert (a + b)[..|a + b| - 1] == a + b';
    var (t, e) := Run(check, s, a, false);
    var (t1, e1) := Run(check, t, b', false);
    var (t2, e2) := Step(check, t1, b[|b| - 1], end);
    if b' == [] {
      Nothing(a);
      Nothing(e);
    } else {
      RunAppend(check, s, a, b', false);
    }
    Associate(e, e1, e2);
  }

  lemma {:induction false} RunStopped(check: string -> bool, d: string, end: bool)
    ensures Run(check, Stopped, d, end) == (Stopped, [])
    decreases |d|
  {
    if d != [] {
      RunStopped(check, d[..|d| - 1], false);
      Nothing<Event>([]);
    }
  }

  lemma {:induction false} KeptNext(s: string, c: char, size: nat)
    requires size > 0
    ensures Room(KeptAtEnd(s, size), size) == Kept(s, size)
    ensures KeptAtEnd(s + [c], size) == Kept(s, size) + [c]
    decreases |s|
  {
    if |s| >= size {
      if |s| == size {
        assert (s + [c])[size..] == [c];
        assert s[size..] == [];
      } else {
        assert (s + [c])[size..] == s[size..] + [c];
        KeptNext(s[size..], c, size);
      }
    }
  }

  lemma KeptNothing()
    ensures KeptAtEnd([], VALUE_SIZE) == []
  {
  }

  lemma {:induction false} RunName(check: string -> bool, checked: bool, n: string, end: bool)
    requires '=' !in n
    ensures Run(check, InName(checked, []), n, end) == (InName(checked, KeptAtEnd(n, NAME_SIZE)), [])
    decreases |n|
  {
    if n != [] {
      var n', c := n[..|n| - 1], n[|n| - 1];
      assert n == n' + [c] && c in n;
      RunName(check, checked, n', false);
      KeptNext(n', c, NAME_SIZE);
      Nothing<Event>([]);
    }
  }

  lemma {:induction false} RunValue(check: string -> bool, checked: bool, name: string, v: string)
    requires '&' !in v
    ensures Run(check, InValue(checked, name, []), v, false) == (InValue(checked, name, KeptAtEnd(v, VALUE_SIZE)), [])
    decreases |v|
  {
    if v != [] {
      var v', c := v[..|v| - 1], v[|v| - 1];
      assert v == v' + [c] && c in v;
      RunValue(check, checked, name, v');
      KeptNext(v', c, VALUE_SIZE);
      Nothing<Event>([]);
    }
  }

  /** What is still to be sent, if the hash has been checked already and if not. */
  function Remaining(check: string -> bool, checked: bool, ps: seq<Parameter>): seq<Event> {
    if checked then Updates(ps) + [Reply(JSON_OK)] else Outcome(check, ps)
  }

  lemma FinishFirst(check: string -> bool, checked: bool, name: string, value: string, ps: seq<Parameter>)
    ensures var (t, e) := Finish(check, checked, name, value);
            (Remaining(check, checked, [Parameter(CStr(name), CStr(value))] + ps)
             == e + if t.Stopped? then [] else Remaining(check, true, ps))
  {
    hide CStr;
    var p := Parameter(CStr(name), CStr(value));
    assert ([p] + ps)[1..] == ps;
    if checked {
      Associate([Update(p.name, p.value)], Updates(ps), [Reply(JSON_OK)]);
    }
  }

  /** A whole value, and the terminator behind it. */
  lemma RunWholeValue(check: string -> bool, checked: bool, name: string, v: string, end: bool)
    requires '&' !in v
    ensures Run(check, InValue(checked, name, []), v + "&", end) == Finish(check, checked, name, Kept(v, VALUE_SIZE))
  {
    hide KeptAtEnd, Kept, CStr;
    RunValue(check, checked, name, v);
    KeptNext(v, '&', VALUE_SIZE);
    assert (v + "&")[..|v|] == v;
    Nothing(Finish(check, checked, name, Kept(v, VALUE_SIZE)).1);
  }

  /** The value at the end of the body. */
  lemma RunLastValue(check: string -> bool, checked: bool, name: string, v: string)
    requires '&' !in v && v != []
    ensures Run(check, InValue(checked, name, []), v, true) == Finish(check, checked, name, KeptAtEnd(v, VALUE_SIZE))
  {
    hide KeptAtEnd, Kept, CStr;
    var v', c := v[..|v| - 1], v[|v| - 1];
    assert v == v' + [c] && c in v;
    RunValue(check, checked, name, v');
    KeptNext(v', c, VALUE_SIZE);
    Nothing(Finish(check, checked, name, KeptAtEnd(v, VALUE_SIZE)).1);
  }

  /** A whole name and the '=' behind it. */
  lemma RunWholeName(check: string -> bool, checked: bool, n: string, end: bool)
    requires '=' !in n
    ensures Run(check, InName(checked, []), n + "=", end)
         == if end then Finish(check, checked, Kept(n, NAME_SIZE), [])
            else (InValue(checked, Kept(n, NAME_SIZE), []), [])
  {
    hide KeptAtEnd, Kept, CStr;
    RunName(check, checked, n, false);
    KeptNext(n, '=', NAME_SIZE);
    assert (n + "=")[..|n|] == n;
    Nothing(Finish(check, checked, Kept(n, NAME_SIZE), []).1);
    Nothing<Event>([]);
  }

  lemma TotalAppend(check: string -> bool, s: State, a: string, b: string)
    requires b != []
    ensures var (t, e) := Run(check, s, a, false);
            Total(check, s, a + b) == e + Total(check, t, b)
  {
    hide Run;
    RunAppend(check, s, a, b, true);
    var (t, e) := Run(check, s, a, false);
    var (u, f) := Run(check, t, b, true);
    Associate(e, f, AtEnd(u));
  }

  lemma IndexIs(n: string, c: char, rest: string)
    requires c !in n
    ensures IndexOf(n + [c] + rest, c) == |n| && (n + [c] + rest)[..|n|] == n && (n + [c] + rest)[|n| + 1..] == rest
  {
    var s := n + [c] + rest;
    var i := IndexOf(s, c);
    assert s[|n|] == c && s[..|n|] == n;
    assert forall k | 0 <= k < |n| :: s[k] == n[k] && n[k] in n;
    assert forall k | 0 <= k < i :: s[k] in s[..i];
  }

  lemma NoIndex(s: string, c: char)
    ensures IndexOf(s, c) == |s| <==> c !in s
  {
    assert s[..|s|] == s;
  }

  lemma SplitAt(s: string, c: char) returns (before: string, after: string)
    requires c in s
    ensures s == before + [c] + after && c !in before && |after| < |s|
  {
    var i := IndexOf(s, c);
    NoIndex(s, c);
    before, after := s[..i], s[i + 1..];
  }

  /** Without '=' there is no parameter in the rest. */
  lemma NoParameter(check: string -> bool, checked: bool, body: string)
    requires '=' !in body
    ensures Total(check, InName(checked, []), body) == Remaining(check, checked, Parameters(body))
  {
    hide Run, KeptAtEnd;
    NoIndex(body, '=');
    RunName(check, checked, body, true);
    Nothing([Reply(JSON_OK)]);
    Nothing([Reply(JSON_MISSING_HASH)]);
  }

  lemma ParametersLast(n: string, v: string)
    requires '=' !in n && '&' !in v
    ensures Parameters(n + "=" + v) == [Parameter(CStr(Kept(n, NAME_SIZE)), CStr(KeptAtEnd(v, VALUE_SIZE)))] + []
  {
    hide Kept, KeptAtEnd, CStr, IndexOf;
    IndexIs(n, '=', v);
    NoIndex(v, '&');
  }

  lemma ParametersNext(n: string, v: string, more: string)
    requires '=' !in n && '&' !in v
    ensures Parameters(n + "=" + (v + "&" + more))
         == [Parameter(CStr(Kept(n, NAME_SIZE)), CStr(Kept(v, VALUE_SIZE)))] + Parameters(more)
  {
    hide Kept, KeptAtEnd, CStr, IndexOf;
    IndexIs(n, '=', v + "&" + more);
    IndexIs(v, '&', more);
  }

  /** After a parameter comes the next one, or nothing more is looked at. */
  lemma TotalOfFinish(check: string -> bool, checked: bool, name: string, value: string, more: string)
    ensures var t := Finish(check, checked, name, value).0;
            Total(check, t, more) == if t.Stopped? then [] else Total(check, InName(true, []), more)
  {
    hide Run, CStr;
    RunStopped(check, more, true);
    Nothing<Event>([]);
  }

  lemma TotalOfValue(check: string -> bool, checked: bool, name: string, v: string, more: string)
    requires '&' !in v
    ensures var (t, e) := Finish(check, checked, name, Kept(v, VALUE_SIZE));
            Total(check, InValue(checked, name, []), v + "&" + more) == e + Total(check, t, more)
  {
    hide Kept, CStr, Finish;
    var (t, e) := Finish(check, checked, name, Kept(v, VALUE_SIZE));
    RunWholeValue(check, checked, name, v, more == []);
    hide Run;
    if more == [] {
      Nothing(v + "&");
      TotalNothing(check, t);
    } else {
      TotalAppend(check, InValue(checked, name, []), v + "&", more);
    }
  }

  lemma TotalNothing(check: string -> bool, s: State)
    ensures Total(check, s, []) == AtEnd(s)
  {
  }

  /** A parameter with more behind it. */
  lemma OneParameter(check: string -> bool, checked: bool, n: string, v: string, more: string)
    requires '=' !in n && '&' !in v
    requires Total(check, InName(true, []), more) == Remaining(check, true, Parameters(more))
    ensures var body := n + "=" + (v + "&" + more);
            Total(check, InName(checked, []), body) == Remaining(check, checked, Parameters(body))
  {
    hide Run, KeptAtEnd, Kept, CStr, Finish, Remaining, Total, Parameters;
    var name, value := Kept(n, NAME_SIZE), Kept(v, VALUE_SIZE);
    ParametersNext(n, v, more);
    FinishFirst(check, checked, name, value, Parameters(more));
    RunWholeName(check, checked, n, false);
    TotalAppend(check, InName(checked, []), n + "=", v + "&" + more);
    Nothing(Total(check, InValue(checked, name, []), v + "&" + more));
    TotalOfValue(check, checked, name, v, more);
    TotalOfFinish(check, checked, name, value, more);
  }

  /** A parameter at the end of the body. */
  lemma LastParameter(check: string -> bool, checked: bool, n: string, v: string)
    requires '=' !in n && '&' !in v
    ensures Total(check, InName(checked, []), n + "=" + v) == Remaining(check, checked, Parameters(n + "=" + v))
  {
    hide Run, KeptAtEnd, Kept, CStr, Finish, Remaining, Total, Parameters;
    var name, value := Kept(n, NAME_SIZE), KeptAtEnd(v, VALUE_SIZE);
    var (t, e) := Finish(check, checked, name, value);
    ParametersLast(n, v);
    FinishFirst(check, checked, name, value, []);
    TotalOfLast(check, checked, n, v);
    TotalOfFinish(check, checked, name, value, []);
    TotalNothing(check, InName(true, []));
    RemainingNothing(check);
  }

  lemma RemainingNothing(check: string -> bool)
    ensures Remaining(check, true, []) == AtEnd(InName(true, []))
  {
    Nothing([Reply(JSON_OK)]);
  }

  lemma TotalOfLast(check: string -> bool, checked: bool, n: string, v: string)
    requires '=' !in n && '&' !in v
    ensures var (t, e) := Finish(check, checked, Kept(n, NAME_SIZE), KeptAtEnd(v, VALUE_SIZE));
            Total(check, InName(checked, []), n + "=" + v) == e + Total(check, t, [])
  {
    hide Run, KeptAtEnd, Kept, CStr, Finish;
    var name := Kept(n, NAME_SIZE);
    var (t, e) := Finish(check, checked, name, KeptAtEnd(v, VALUE_SIZE));
    RunWholeName(check, checked, n, v == []);
    TotalNothing(check, t);
    if v == [] {
      Nothing(n + "=");
      KeptNothing();
    } else {
      TotalAppend(check, InName(checked, []), n + "=", v);
      RunLastValue(check, checked, name, v);
      Nothing(Total(check, InValue(checked, name, []), v));
    }
  }

  /** From the start of a parameter on, the bytes do what the parameters in them say. */
  lemma {:induction false} BytesMeanParameters(check: string -> bool, checked: bool, body: string)
    ensures Total(check, InName(checked, []), body) == Remaining(check, checked, Parameters(body))
    decreases |body|
  {
    hide Run, KeptAtEnd, Kept, CStr, Finish, Remaining, Parameters, IndexOf, Total;
    if '=' !in body {
      NoParameter(check, checked, body);
    } else {
      var n, rest := SplitAt(body, '=');
      if '&' !in rest {
        LastParameter(check, checked, n, rest);
      } else {
        var v, more := SplitAt(rest, '&');
        BytesMeanParameters(check, true, more);
        OneParameter(check, checked, n, v, more);
      }
    }
  }

  /** The simple reading is right exactly for names and values that leave room for their terminator;
      a value at the end of the body may fill the buffer. */
  lemma {:induction false} KeptWhole(s: string, size: nat)
    requires size > 0
    ensures Kept(s, size) == s <==> |s| < size
    ensures KeptAtEnd(s, size) == s <==> |s| <= size
  {
  }

  // ----- the handler

  lemma RunSnoc(check: string -> bool, s: State, data: string, i: nat, j: nat, end: bool)
    requires i <= j < |data|
    ensures var (t, e) := Run(check, s, data[i..j], false);
            var (u, f) := Step(check, t, data[j], end);
            Run(check, s, data[i..j + 1], end) == (u, e + f)
  {
    assert data[i..j + 1][..j - i] == data[i..j];
  }

  function Restarted(s: State): State {
    match s
    case Stopped => s
    case InName(checked, name) => InName(checked, Room(name, NAME_SIZE))
    case InValue(checked, name, value) => InValue(checked, name, Room(value, VALUE_SIZE))
  }

  /** A full buffer is started again when the next byte comes; that may as well be done before. */
  lemma {:induction false} RunRestarted(check: string -> bool, s: State, d: string)
    requires d != []
    ensures Run(check, Restarted(s), d, false) == Run(check, s, d, false)
    decreases |d|
  {
    hide CStr, Finish;
    if |d| > 1 {
      RunRestarted(check, s, d[..|d| - 1]);
    } else {
      assert d[..0] == [];
    }
  }

  /** The record kept between the chunks of one request. */
  class ConfigRequest {
    const check: string -> bool   // the password check
    var notFirst: bool
    var hashChecked: bool
    var parsingValue: bool
    var bName: nat
    const name: array<char>
    var bValue: nat
    const value: array<char>
    var events: seq<Event>

    ghost predicate Valid()
      reads this, name, value
    {
      && name.Length == NAME_SIZE + 1 && value.Length == VALUE_SIZE + 1 && name != value
      && (hashChecked ==> notFirst)
      && ((notFirst && !hashChecked) || InParameter())
    }

    ghost predicate InParameter()
      requires name.Length == NAME_SIZE + 1 && value.Length == VALUE_SIZE + 1
      reads this, name, value
    {
      && bName <= NAME_SIZE && bValue <= VALUE_SIZE
      && (if parsingValue then bName > 0 && name[bName - 1] == '\0' else bValue == 0)
    }

    ghost function AsState(): State
      requires Valid()
      reads this, name, value
    {
      if notFirst && !hashChecked then Stopped
      else if parsingValue then InValue(hashChecked, name[..bName - 1], value[..bValue])
      else InName(hashChecked, name[..bName])
    }

    constructor (check: string -> bool)
      ensures Valid() && AsState() == InName(false, []) && events == [] && this.check == check
      ensures fresh(name) && fresh(value)
    {
      this.check := check;
      notFirst, hashChecked, parsingValue, bName, bValue, events := false, false, false, 0, 0, [];
      name := new char[NAME_SIZE + 1](_ => '\0');
      value := new char[VALUE_SIZE + 1](_ => '\0');
      new;
      assert name[..0] == [];
    }

    method StoreName(c: char) returns (endName: bool)
      requires Valid() && AsState().InName? && bName < NAME_SIZE
      modifies this`bName, this`parsingValue, name
      ensures Valid() && (AsState(), []) == Step(check, old(AsState()), c, false)
      ensures endName == AsState().InValue? && bName > 0
    {
      ghost var before := name[..bName];
      endName := c == '=';
      name[bName] := if endName then '\0' else c;
      bName := bName + 1;
      assert name[..bName - 1] == before && name[..bName] == before + [name[bName - 1]];
      if endName { parsingValue := true; }
    }

    method ReadName(data: string, start: nat) returns (parsed: nat)
      requires Valid() && AsState().InName? && start < |data|
      modifies this`bName, this`parsingValue, name
      ensures Valid() && start < parsed <= |data|
      ensures Run(check, old(AsState()), data[start..parsed], false) == (AsState(), [])
      ensures AsState().InName? || (AsState().InValue? && bValue == 0)
    {
      hide Run, CStr;
      parsed := start;
      if bName >= NAME_SIZE {
        name[NAME_SIZE] := '\0';
        bName := 0;
      }
      ghost var restarted := AsState();
      assert data[start..parsed] == [];
      RunNothing(check, restarted, false);
      while bName < NAME_SIZE && parsed < |data|
        invariant Valid() && AsState().InName? && start <= parsed <= |data|
        invariant parsed == start ==> bName < NAME_SIZE
        invariant Run(check, restarted, data[start..parsed], false) == (AsState(), [])
      {
        RunSnoc(check, restarted, data, start, parsed, false);
        Nothing<Event>([]);
        var endName := StoreName(data[parsed]);
        parsed := parsed + 1;
        if endName { break; }
      }
      RunRestarted(check, old(AsState()), data[start..parsed]);
    }

    method StoreValue(c: char) returns (valueDone: bool)
      requires Valid() && AsState().InValue? && bValue < VALUE_SIZE
      modifies this`bValue, value
      ensures Valid() && AsState().InValue? && AsState().name == old(AsState()).name && bValue > 0
      ensures valueDone <==> c == '&'
      ensures !valueDone ==> (AsState(), []) == Step(check, old(AsState()), c, false)
      ensures valueDone ==> value[bValue - 1] == '\0' && value[..bValue - 1] == old(AsState()).value
    {
      ghost var before := value[..bValue];
      valueDone := c == '&';
      value[bValue] := if valueDone then '\0' else c;
      bValue := bValue + 1;
      assert value[..bValue - 1] == before && value[..bValue] == before + [value[bValue - 1]];
    }

    method ReadValue(data: string, start: nat) returns (parsed: nat, valueDone: bool)
      requires Valid() && AsState().InValue? && start <= |data| && (start == |data| ==> bValue == 0)
      modifies this`bValue, value
      ensures Valid() && AsState().InValue? && start <= parsed <= |data| && (start < |data| ==> start < parsed)
      ensures !valueDone ==> Run(check, old(AsState()), data[start..parsed], false) == (AsState(), [])
      ensures parsed == start ==> bValue == old(bValue)
      ensures valueDone ==> parsed > start && bValue > 0
      ensures valueDone ==>
                Run(check, old(AsState()), data[start..parsed], false)
                == Finish(check, hashChecked, old(AsState()).name, value[..bValue - 1]) && value[bValue - 1] == '\0'
    {
      hide Run, CStr, Finish;
      parsed, valueDone := start, false;
      if bValue >= VALUE_SIZE {
        value[VALUE_SIZE] := '\0';
        bValue := 0;
      }
      ghost var restarted := AsState();
      assert data[start..parsed] == [];
      RunNothing(check, restarted, false);
      while bValue < VALUE_SIZE && parsed < |data|
        invariant Valid() && AsState().InValue? && AsState().name == old(AsState().name) && start <= parsed <= |data|
        invariant parsed == start ==> bValue < VALUE_SIZE
        invariant parsed > start ==> bValue > 0
        invariant !valueDone && Run(check, restarted, data[start..parsed], false) == (AsState(), [])
      {
        RunSnoc(check, restarted, data, start, parsed, false);
        Nothing<Event>([]);
        valueDone := StoreValue(data[parsed]);
        Nothing(Finish(check, hashChecked, AsState().name, value[..bValue - 1]).1);
        parsed := parsed + 1;
        if valueDone { break; }
      }
      if parsed > start { RunRestarted(check, old(AsState()), data[start..parsed]); }
    }

    /** The parameter in the buffers is complete; `k` is where the value is terminated. */
    method FinishParameter(ghost k: nat) returns (stop: bool)
      requires Valid() && AsState().InValue? && k <= VALUE_SIZE && value[k] == '\0'
      modifies this`notFirst, this`hashChecked, this`parsingValue, this`bName, this`bValue, this`events
      ensures Valid()
      ensures (AsState(), events)
           == (Finish(check, old(hashChecked), old(AsState()).name, old(value[..k])).0,
               old(events) + Finish(check, old(hashChecked), old(AsState()).name, old(value[..k])).1)
      ensures stop == AsState().Stopped?
    {
      hide CStr;
      Terminated(name[..bName - 1], name[bName..]);
      assert name[..] == name[..bName - 1] + ['\0'] + name[bName..];
      Terminated(value[..k], value[k + 1..]);
      assert value[..] == value[..k] + ['\0'] + value[k + 1..];
      var nameText, valueText := CStr(name[..]), CStr(value[..]);
      assert name[..0] == [];
      Nothing(events);
      if !notFirst {
        notFirst := true;
        if nameText != HASH {
          events := events + [Reply(JSON_MISSING_HASH)];
          return true;
        }
        if !check(valueText) {
          events := events + [Reply(JSON_INVALID_PASS)];
          return true;
        }
        hashChecked := true;
      } else if hashChecked {
        events := events + [Update(nameText, valueText)];
      }
      parsingValue, bName, bValue := false, 0, 0;
      stop := false;
    }

    /** A value, or what of it is in the chunk; `end`: the body ends with the chunk. */
    method HandleValue(data: string, start: nat, end: bool) returns (parsed: nat, stop: bool)
      requires Valid() && AsState().InValue? && start <= |data| && (start == |data| ==> bValue == 0)
      modifies this, value
      ensures Valid() && start <= parsed <= |data| && (start < |data| ==> start < parsed)
      ensures var s := old(AsState());
              (AsState(), events)
              == Added(old(events),
                       if start < |data| then Run(check, s, data[start..parsed], end && parsed == |data|)
                       else if end then Finish(check, s.checked, s.name, [])
                       else (s, []))
      ensures stop == AsState().Stopped?
    {
      hide Run, CStr;
      stop := false;
      var valueDone;
      parsed, valueDone := ReadValue(data, start);
      ghost var k := if valueDone then bValue - 1 else bValue;
      if !valueDone {
        if parsed >= |data| && end {
          ghost var read := value[..bValue];
          value[bValue] := '\0';
          assert value[..bValue] == read;
          valueDone := true;
        }
      }
      if parsed > start {
        LastByte(check, old(AsState()), data[start..parsed]);
      } else {
        assert value[..0] == [];
      }
      Nothing(old(events));
      if valueDone {
        ghost var f := Finish(check, hashChecked, AsState().name, value[..k]);
        Nothing(f.1);
        assert value[..0] == [];
        stop := FinishParameter(k);
      }
    }

    /** A name, a value, or what of them is in the chunk. */
    method HandleParameter(data: string, start: nat, end: bool) returns (parsed: nat, stop: bool)
      requires Valid() && !AsState().Stopped? && start < |data|
      modifies this, name, value
      ensures Valid() && start < parsed <= |data| && stop == AsState().Stopped?
      ensures (AsState(), events)
           == Added(old(events), Run(check, old(AsState()), data[start..parsed], end && parsed == |data|))
    {
      hide Run, CStr, Finish;
      ghost var s := old(AsState());
      parsed, stop := start, false;
      if !parsingValue {
        parsed := ReadName(data, parsed);
        LastByte(check, s, data[start..parsed]);
      }
      ghost var middle, p := AsState(), parsed;
      assert value[..0] == [];
      if parsingValue {
        parsed, stop := HandleValue(data, parsed, end);
        if start < p < |data| {
          RunAppend(check, s, data[start..p], data[p..parsed], end && parsed == |data|);
          assert data[start..p] + data[p..parsed] == data[start..parsed];
          Nothing(Run(check, middle, data[p..parsed], end && parsed == |data|).1);
        }
        Nothing(Finish(check, middle.checked, middle.name, []).1);
      }
      Nothing(old(events));
    }

    /** One chunk of the body: `index` bytes came before it and `total` come in all. */
    method HandleConfigRequestData(data: string, index: nat, total: nat)
      requires Valid()
      modifies this, name, value
      ensures Valid()
      ensures var (t, e) := Run(check, old(AsState()), data, index + |data| >= total);
              AsState() == t && events == old(events) + e + if index + |data| >= total then AtEnd(t) else []
    {
      hide Run, CStr, Finish;
      ghost var s := old(AsState());
      var end := index + |data| >= total;
      if notFirst && !hashChecked {
        RunStopped(check, data, end);
        return;
      }
      var parsed := 0;
      assert data[..0] == [];
      RunNothing(check, s, end && |data| == 0);
      Nothing(events);
      while parsed < |data|
        invariant Valid() && parsed <= |data| && !AsState().Stopped?
        invariant (AsState(), events) == Added(old(events), Run(check, s, data[..parsed], end && parsed == |data|))
      {
        var start := parsed;
        ghost var before := AsState();
        var stop;
        parsed, stop := HandleParameter(data, start, end);
        RunFurther(check, s, data, start, parsed, end && parsed == |data|);
        Associate(old(events), Run(check, s, data[..start], false).1,
                  Run(check, before, data[start..parsed], end && parsed == |data|).1);
        if stop {
          RunOutStopped(check, s, data, parsed, end);
          return;
        }
      }
      assert data[..parsed] == data;
      if end {
        Associate(old(events), Run(check, s, data, true).1, AtEnd(AsState()));
        if notFirst {
          if hashChecked { events := events + [Reply(JSON_OK)]; }
        } else {
          events := events + [Reply(JSON_MISSING_HASH)];
        }
      }
    }
  }

  lemma RunFurther(check: string -> bool, s: State, data: string, i: nat, j: nat, end: bool)
    requires i < j <= |data|
    ensures var (t, e) := Run(check, s, data[..i], false);
            var (u, f) := Run(check, t, data[i..j], end);
            Run(check, s, data[..j], end) == (u, e + f)
  {
    hide Run;
    assert data[..i] + data[i..j] == data[..j];
    RunAppend(check, s, data[..i], data[i..j], end);
  }

  /** What comes after the reply to a wrong first parameter does not count. */
  lemma RunOutStopped(check: string -> bool, s: State, data: string, i: nat, end: bool)
    requires i <= |data| && Run(check, s, data[..i], end && i == |data|).0.Stopped?
    ensures Run(check, s, data, end) == (Stopped, Run(check, s, data[..i], end && i == |data|).1)
  {
    hide Run;
    if i == |data| {
      assert data[..i] == data;
    } else {
      RunStopped(check, data[i..], end);
      RunFurther(check, s, data, i, |data|, end);
      assert data[i..|data|] == data[i..] && data[..|data|] == data;
      Nothing(Run(check, s, data[..i], false).1);
    }
  }

  function Added(before: seq<Event>, r: (State, seq<Event>)): (State, seq<Event>) {
    (r.0, before + r.1)
  }

  /** A C string ends at its terminator. */
  lemma {:induction false} Terminated(s: string, rest: string)
    ensures CStr(s + ['\0'] + rest) == CStr(s)
  {
    if s != [] && s[0] != '\0' {
      Terminated(s[1..], rest);
      assert (s + ['\0'] + rest)[1..] == s[1..] + ['\0'] + rest;
    }
  }

  /** What the end of the body adds to its last byte. */
  lemma LastByte(check: string -> bool, s: State, d: string)
    requires d != []
    ensures var (t, e) := Run(check, s, d, false);
            Run(check, s, d, true)
            == if t.InValue? then var (u, f) := Finish(check, t.checked, t.name, t.value); (u, e + f) else (t, e)
  {
    hide CStr;
    var (t, e) := Run(check, s, d[..|d| - 1], false);
    Nothing(e);
  }

  lemma RunNothing(check: string -> bool, s: State, end: bool)
    ensures Run(check, s, [], end) == (s, [])
  {
  }

  // ----- the whole body

  /** However a body is cut into chunks, what is sent and stored is what its parameters say. */
  method HandleBody(check: string -> bool, chunks: seq<string>) returns (events: seq<Event>)
    requires chunks != [] && forall i | 0 <= i < |chunks| :: chunks[i] != []
    ensures events == Outcome(check, Parameters(Flatten(chunks)))
  {
    hide Run, Outcome, Parameters, Flatten;
    ghost var start := InName(false, []);
    var request := new ConfigRequest(check);
    var total := |Flatten(chunks)|;
    var index := 0;
    NoChunks(check, start, chunks);
    for i := 0 to |chunks|
      invariant fresh(request) && fresh(request.name) && fresh(request.value) && request.check == check
      invariant request.Valid() && index == |Flatten(chunks[..i])|
      invariant (request.AsState(), request.events) == ChunksRun(check, start, chunks, i)
    {
      FlattenSnoc(chunks, i);
      AtLastChunk(chunks, i);
      NextChunk(check, start, chunks, i);
      request.HandleConfigRequestData(chunks[i], index, total);
      index := index + |chunks[i]|;
    }
    assert chunks[..|chunks|] == chunks;
    BytesMeanParameters(check, false, Flatten(chunks));
    events := request.events;
  }

  /** After `i` chunks. */
  function ChunksRun(check: string -> bool, s: State, chunks: seq<string>, i: nat): (State, seq<Event>)
    requires i <= |chunks|
  {
    var (t, e) := Run(check, s, Flatten(chunks[..i]), i == |chunks|);
    (t, if i == |chunks| then e + AtEnd(t) else e)
  }

  lemma NoChunks(check: string -> bool, s: State, chunks: seq<string>)
    requires chunks != []
    ensures ChunksRun(check, s, chunks, 0) == (s, []) && |Flatten(chunks[..0])| == 0
  {
  }

  lemma NextChunk(check: string -> bool, s: State, chunks: seq<string>, i: nat)
    requires i < |chunks| && chunks[i] != []
    ensures var (t, e) := ChunksRun(check, s, chunks, i);
            var (u, f) := Run(check, t, chunks[i], i + 1 == |chunks|);
            ChunksRun(check, s, chunks, i + 1) == (u, e + f + if i + 1 == |chunks| then AtEnd(u) else [])
  {
    hide Run, Flatten;
    FlattenSnoc(chunks, i);
    var (t, e) := Run(check, s, Flatten(chunks[..i]), false);
    var (u, f) := Run(check, t, chunks[i], i + 1 == |chunks|);
    RunAppend(check, s, Flatten(chunks[..i]), chunks[i], i + 1 == |chunks|);
    Nothing(e + f);
  }

  /** The body is complete after its last chunk and not before. */
  lemma AtLastChunk(chunks: seq<string>, i: nat)
    requires i < |chunks| && forall k | 0 <= k < |chunks| :: chunks[k] != []
    ensures |Flatten(chunks[..i + 1])| >= |Flatten(chunks)| <==> i + 1 == |chunks|
  {
    assert chunks[..|chunks|] == chunks;
    if i + 1 < |chunks| { LongerFlatten(chunks, i + 1, |chunks|); }
  }

  lemma {:induction false} LongerFlatten(chunks: seq<string>, i: nat, j: nat)
    requires i < j <= |chunks| && forall k | 0 <= k < |chunks| :: chunks[k] != []
    ensures |Flatten(chunks[..i])| < |Flatten(chunks[..j])|
  {
    FlattenSnoc(chunks, j - 1);
    if i < j - 1 { LongerFlatten(chunks, i, j - 1); }
  }

  // ----- what the outcome is like

  /** One reply, at the end; and nothing is stored before the hash was checked. */
  lemma {:induction false} OneReply(check: string -> bool, ps: seq<Parameter>)
    ensures var es := Outcome(check, ps);
            && es != [] && es[|es| - 1].Reply? && (forall i | 0 <= i < |es| - 1 :: es[i].Update?)
            && (|es| > 1 || es[0] == Reply(JSON_OK) ==> ps != [] && ps[0].name == HASH && check(ps[0].value))
            && (ps != [] && ps[0].name == HASH && check(ps[0].value) ==> |es| == |ps| && es[|es| - 1] == Reply(JSON_OK))
  {
    if ps != [] { OnlyUpdates(ps[1..]); }
  }

  lemma {:induction false} OnlyUpdates(ps: seq<Parameter>)
    ensures |Updates(ps)| == |ps| && forall i | 0 <= i < |ps| :: Updates(ps)[i] == Update(ps[i].name, ps[i].value)
  {
    if ps != [] { OnlyUpdates(ps[1..]); }
  }

  /** The answer word for word. Without parameters, or with another one than `_hash` in front, the hash is missing; with
      a wrong one the password is invalid; else every other parameter is stored, in order, and the answer is OK. */
  lemma Answers(check: string -> bool, ps: seq<Parameter>)
    ensures var es := Outcome(check, ps);
            if ps == [] || ps[0].name != "_hash" then es == [Reply("{\"status\":\"missing _hash\"}")]
            else if !check(ps[0].value) then es == [Reply("{\"status\":\"invalid password\"}")]
            else |es| == |ps| && es[|ps| - 1] == Reply("{\"status\":\"OK\"}")
                 && forall k | 0 <= k < |ps| - 1 :: es[k] == Update(ps[k + 1].name, ps[k + 1].value)
  {
    if ps != [] { OnlyUpdates(ps[1..]); }
  }

  // ----- a body that is written

  /** Parameters as a form writes them. */
  function Written(ps: seq<Parameter>): string {
    if ps == [] then ""
    else
      var rest := if |ps| == 1 then "" else "&" + Written(ps[1..]);
      ps[0].name + "=" + (ps[0].value + rest)
  }

  /** Names and values without the characters that end them, and short enough for the buffers. */
  predicate Plain(p: Parameter) {
    '=' !in p.name && '\0' !in p.name && |p.name| < 32 && '&' !in p.value && '\0' !in p.value && |p.value| < 511
  }

  /** They are read back as they were written. */
  lemma {:induction false} WrittenReadBack(ps: seq<Parameter>)
    requires forall k | 0 <= k < |ps| :: Plain(ps[k])
    ensures Parameters(Written(ps)) == ps
    decreases |ps|
  {
    hide Parameters, Kept, KeptAtEnd, CStr;
    if ps == [] {
      NoParameters();
    } else {
      var p := ps[0];
      ReadWhole(p.name, NAME_SIZE);
      ReadWhole(p.value, VALUE_SIZE);
      if |ps| == 1 {
        Nothing(p.value);
        ParametersLast(p.name, p.value);
      } else {
        WrittenReadBack(ps[1..]);
        Associate(p.value, "&", Written(ps[1..]));
        ParametersNext(p.name, p.value, Written(ps[1..]));
      }
    }
  }

  lemma NoParameters()
    ensures Parameters("") == []
  {
  }

  /** Of a text that is too long the part behind the last full buffer is kept. */
  lemma {:induction false} KeptIsRest(s: string, size: nat) returns (full: nat)
    requires size > 0
    ensures |s| == full * size + |Kept(s, size)| && full * size >= 0 && Kept(s, size) == s[full * size..]
    decreases |s|
  {
    if |s| >= size {
      var k := KeptIsRest(s[size..], size);
      full := k + 1;
      assert full * size == size + k * size;
      assert s[size..][k * size..] == s[size + k * size..];
    } else {
      full := 0;
    }
  }

  /** The parameters as they would be read with unbounded buffers. */
  function SimpleParameters(body: string): seq<Parameter> {
    var e := IndexOf(body, '=');
    if e == |body| then [] else
      var rest := body[e + 1..];
      var a := IndexOf(rest, '&');
      [Parameter(body[..e], rest[..a])] + if a == |rest| then [] else SimpleParameters(rest[a + 1..])
  }

  /** Every name leaves room for its terminator, and so does every value that has something behind it. */
  predicate FitsBuffers(body: string) {
    var e := IndexOf(body, '=');
    e == |body| || (
      var rest := body[e + 1..];
      var a := IndexOf(rest, '&');
      e < NAME_SIZE && if a == |rest| then a <= VALUE_SIZE else a < VALUE_SIZE && FitsBuffers(rest[a + 1..]))
  }

  lemma {:induction false} CStrWhole(s: string)
    requires '\0' !in s
    ensures CStr(s) == s
  {
    if s != [] { CStrWhole(s[1..]); }
  }

  lemma {:induction false} KeptPart(s: string, size: nat)
    requires size > 0 && '\0' !in s
    ensures CStr(Kept(s, size)) == Kept(s, size) && CStr(KeptAtEnd(s, size)) == KeptAtEnd(s, size)
    decreases |s|
  {
    CStrWhole(s);
    if |s| >= size { KeptPart(s[size..], size); }
  }

  lemma ReadWhole(s: string, size: nat)
    requires size > 0 && '\0' !in s
    ensures CStr(Kept(s, size)) == s <==> |s| < size
    ensures CStr(KeptAtEnd(s, size)) == s <==> |s| <= size
  {
    KeptPart(s, size);
    KeptWhole(s, size);
  }

  lemma SimpleLast(n: string, v: string)
    requires '=' !in n && '&' !in v
    ensures SimpleParameters(n + "=" + v) == [Parameter(n, v)] + []
    ensures FitsBuffers(n + "=" + v) <==> |n| < NAME_SIZE && |v| <= VALUE_SIZE
  {
    hide IndexOf;
    IndexIs(n, '=', v);
    NoIndex(v, '&');
    assert v[..|v|] == v;
  }

  lemma SimpleNext(n: string, v: string, more: string)
    requires '=' !in n && '&' !in v
    ensures var body := n + "=" + (v + "&" + more);
            && SimpleParameters(body) == [Parameter(n, v)] + SimpleParameters(more)
            && (FitsBuffers(body) <==> |n| < NAME_SIZE && |v| < VALUE_SIZE && FitsBuffers(more))
  {
    hide IndexOf;
    IndexIs(n, '=', v + "&" + more);
    IndexIs(v, '&', more);
  }

  /** The bounded buffers read what unbounded ones would, exactly if everything fits. */
  lemma {:induction false} BuffersSuffice(body: string)
    requires '\0' !in body
    ensures Parameters(body) == SimpleParameters(body) <==> FitsBuffers(body)
    decreases |body|
  {
    hide Kept, KeptAtEnd, CStr, Parameters, SimpleParameters, FitsBuffers, IndexOf;
    if '=' !in body {
      Unread(body);
    } else {
      var n, rest := SplitAt(body, '=');
      if '&' !in rest {
        LastSuffices(n, rest);
      } else {
        var v, more := SplitAt(rest, '&');
        BuffersSuffice(more);
        NextSuffices(n, v, more);
      }
    }
  }

  /** A name of 32 characters does not fit. */
  lemma LongNameCut()
    ensures var body := seq(32, _ => 'n') + "=";
            Parameters(body) != SimpleParameters(body)
  {
    hide Parameters, SimpleParameters, FitsBuffers;
    var n := seq(32, _ => 'n');
    assert n + "=" + "" == n + "=";
    SimpleLast(n, "");
    LastSuffices(n, "");
  }

  lemma LastSuffices(n: string, v: string)
    requires '\0' !in n + v && '=' !in n && '&' !in v
    ensures var body := n + "=" + v;
            Parameters(body) == SimpleParameters(body) <==> FitsBuffers(body)
  {
    hide Kept, KeptAtEnd, CStr, Parameters, SimpleParameters, FitsBuffers, IndexOf;
    ReadWhole(n, NAME_SIZE);
    ReadWhole(v, VALUE_SIZE);
    ParametersLast(n, v);
    SimpleLast(n, v);
    SameCons(Parameter(CStr(Kept(n, NAME_SIZE)), CStr(KeptAtEnd(v, VALUE_SIZE))), [], Parameter(n, v), []);
  }

  lemma NextSuffices(n: string, v: string, more: string)
    requires '\0' !in n + v && '=' !in n && '&' !in v
    requires Parameters(more) == SimpleParameters(more) <==> FitsBuffers(more)
    ensures var body := n + "=" + (v + "&" + more);
            Parameters(body) == SimpleParameters(body) <==> FitsBuffers(body)
  {
    hide Kept, KeptAtEnd, CStr, Parameters, SimpleParameters, FitsBuffers, IndexOf;
    ReadWhole(n, NAME_SIZE);
    ReadWhole(v, VALUE_SIZE);
    ParametersNext(n, v, more);
    SimpleNext(n, v, more);
    SameCons(Parameter(CStr(Kept(n, NAME_SIZE)), CStr(Kept(v, VALUE_SIZE))), Parameters(more),
             Parameter(n, v), SimpleParameters(more));
  }

  lemma Unread(body: string)
    requires '=' !in body
    ensures Parameters(body) == SimpleParameters(body) == [] && FitsBuffers(body)
  {
    NoIndex(body, '=');
  }

  lemma SameCons<T>(x: T, xs: seq<T>, y: T, ys: seq<T>)
    ensures [x] + xs == [y] + ys <==> x == y && xs == ys
  {
    assert ([x] + xs)[1..] == xs && ([y] + ys)[1..] == ys;
    assert ([x] + xs)[0] == x && ([y] + ys)[0] == y;
  }
}

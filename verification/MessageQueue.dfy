/** Requests handed from other tasks to the main loop: lib/queue/GwMessage.cxx;
    lib/gwwebserver/GwWebServer.cpp, lines 68-106; src/main.cpp, lines 1040-1045.

    Every task runs its own steps; a step is one operation on a semaphore, the queue or the message. Steps of
    different tasks come in any order. */
module MessageQueue {
  import opened Wrappers

  const QUEUE_LENGTH := 20

  /** Inside `ref` and `unref`; `last`: this decrement found the count to be zero. */
  datatype Sub = Ready | Locked | Changed(last: bool) | Released(last: bool)

  /** Where the creator of a message is: in sendAndWait or sendAndForget, or behind it. */
  datatype Phase =
    | RefQueue | RefWait | Send
    | FailQueue | FailWait
    | Waiting | UnrefWait(ok: bool)
    | Reading | Async
    | Own | Done

  /** Where the main loop is with the message it has fetched. */
  datatype Stage = Computing | SetLength | ClearConsumed | SetHandled | Notify | Unref(sub: Sub)

  datatype MainLoop = Idle | Busy(id: nat, stage: Stage)

  datatype Task = Creator | MainTask

  datatype Message = Message(
    answer: string,        // what processRequest computes
    waits: bool,           // sent with sendAndWait
    phase: Phase, sub: Sub,
    refcount: nat, locker: Option<Task>, notifier: nat, deleted: nat,
    result: string, len: nat, consumed: nat, handled: bool,
    reply: Option<string>, // what a sender that got MSG_OK read
    sent: string)          // what a sender that timed out got in chunks

  datatype State = State(messages: map<nat, Message>, queue: seq<nat>, main: MainLoop)

  datatype Action =
    | Create(id: nat, answer: string, waits: bool)
    | Step(id: nat)
    | Timeout(id: nat)
    | Chunk(id: nat, maxLen: nat)
    | Disconnect(id: nat)
    | Fetch
    | Compute(partial: string)
    | MainStep

  // ----- the steps

  function NewMessage(answer: string, waits: bool): Message {
    Message(answer, waits, RefQueue, Ready, 1, None, 0, 0, [], 0, 0, false, None, [])
  }

  predicate IsRef(p: Phase) {
    p.RefQueue? || p.RefWait?
  }

  predicate IsUnref(p: Phase) {
    p.FailQueue? || p.FailWait? || p.UnrefWait? || p.Own?
  }

  function NextPhase(m: Message): Phase {
    match m.phase
    case RefQueue => if m.waits then RefWait else Send
    case RefWait => Send
    case FailQueue => if m.waits then FailWait else Own
    case FailWait => Own
    case UnrefWait(ok) => if ok then Reading else Async
    case Own => Done
    case p => p
  }

  /** The next step of `ref`. */
  function RefStep(m: Message): Message {
    match m.sub
    case Ready => m.(locker := Some(Creator), sub := Locked)
    case Locked => m.(refcount := m.refcount + 1, sub := Changed(false))
    case Changed(_) => m.(locker := None, sub := Ready, phase := NextPhase(m))
    case Released(_) => m
  }

  function Decremented(n: nat): nat {
    if n > 0 then n - 1 else 0
  }

  /** The next step of `unref` by the creator; a message nobody refers to any more is deleted. */
  function UnrefStep(m: Message): Message {
    match m.sub
    case Ready => m.(locker := Some(Creator), sub := Locked)
    case Locked => m.(refcount := Decremented(m.refcount), sub := Changed(m.refcount == 1))
    case Changed(last) => m.(locker := None, sub := Released(last))
    case Released(last) => m.(deleted := if last then m.deleted + 1 else m.deleted, sub := Ready, phase := NextPhase(m))
  }

  /** The same by the main loop. */
  function MainUnref(m: Message, sub: Sub): (Message, Option<Sub>) {
    match sub
    case Ready => (m.(locker := Some(MainTask)), Some(Locked))
    case Locked => (m.(refcount := Decremented(m.refcount)), Some(Changed(m.refcount == 1)))
    case Changed(last) => (m.(locker := None), Some(Released(last)))
    case Released(last) => (m.(deleted := if last then m.deleted + 1 else m.deleted), None)
  }

  /** `processImpl`, then the notification, then `unref`. */
  function MainNext(m: Message, stage: Stage): (Message, Option<Stage>) {
    match stage
    case Computing => (m.(result := m.answer), Some(SetLength))
    case SetLength => (m.(len := |m.result|), Some(ClearConsumed))
    case ClearConsumed => (m.(consumed := 0), Some(SetHandled))
    case SetHandled => (m.(handled := true), Some(Notify))
    case Notify => (m.(notifier := 1), Some(Unref(Ready)))
    case Unref(sub) =>
      var (m', next) := MainUnref(m, sub);
      (m', match next case Some(s) => Some(Unref(s)) case None => None)
  }

  /** What `consume` copies. */
  function Consumed(m: Message, maxLen: nat): Message {
    if !m.handled || m.consumed >= m.len then m
    else
      var n := if maxLen > m.len - m.consumed then m.len - m.consumed else maxLen;
      m.(consumed := m.consumed + n, sent := m.sent + Clip(m.result, m.consumed, m.consumed + n))
  }

  function Clip(s: string, i: nat, j: nat): string {
    if i <= j <= |s| then s[i..j] else []
  }

  /** The chunk callback: the result is read once it is there. */
  function ChunkStep(m: Message, maxLen: nat): Message {
    if m.handled then Consumed(m, maxLen)
    else if m.notifier > 0 then Consumed(m.(notifier := m.notifier - 1), maxLen)
    else m
  }

  function CreatorStep(m: Message, hasRoom: bool): Message {
    if IsRef(m.phase) then RefStep(m)
    else if IsUnref(m.phase) then UnrefStep(m)
    else match m.phase
      case Send => m.(phase := if !hasRoom then FailQueue else if m.waits then Waiting else Own)
      case Waiting => if m.notifier > 0 then m.(notifier := m.notifier - 1, phase := UnrefWait(true)) else m
      case Reading => m.(reply := Some(m.result), phase := Own)
      case _ => m
  }

  /** A mutex is taken only when it is free; a wait ends with a notification or a timeout. */
  predicate CanStep(m: Message) {
    match m.phase
    case Send => true
    case Waiting => m.notifier > 0
    case Reading => true
    case Async => false
    case Done => false
    case _ => m.sub == Ready ==> m.locker == None
  }

  predicate Enabled(s: State, a: Action) {
    match a
    case Create(id, _, _) => id !in s.messages
    case Step(id) => id in s.messages && CanStep(s.messages[id])
    case Timeout(id) => id in s.messages && s.messages[id].phase == Waiting
    case Chunk(id, _) => id in s.messages && s.messages[id].phase == Async
    case Disconnect(id) => id in s.messages && s.messages[id].phase == Async
    case Fetch => s.main == Idle && s.queue != []
    case Compute(_) => s.main.Busy? && s.main.stage == Computing && s.main.id in s.messages
    case MainStep => s.main.Busy? && s.main.id in s.messages
                     && (s.main.stage == Unref(Ready) ==> s.messages[s.main.id].locker == None)
  }

  function Next(s: State, a: Action): State
    requires Enabled(s, a)
  {
    match a
    case Create(id, answer, waits) => s.(messages := s.messages[id := NewMessage(answer, waits)])
    case Step(id) =>
      var m := s.messages[id];
      var hasRoom := |s.queue| < QUEUE_LENGTH;
      State(s.messages[id := CreatorStep(m, hasRoom)],
            if m.phase == Send && hasRoom then s.queue + [id] else s.queue, s.main)
    case Timeout(id) => s.(messages := s.messages[id := s.messages[id].(phase := UnrefWait(false))])
    case Chunk(id, maxLen) => s.(messages := s.messages[id := ChunkStep(s.messages[id], maxLen)])
    case Disconnect(id) => s.(messages := s.messages[id := s.messages[id].(phase := Own)])
    case Fetch => State(s.messages, s.queue[1..], Busy(s.queue[0], Computing))
    case Compute(partial) =>
      s.(messages := s.messages[s.main.id := s.messages[s.main.id].(result := partial)])
    case MainStep =>
      var (m, next) := MainNext(s.messages[s.main.id], s.main.stage);
      State(s.messages[s.main.id := m], s.queue,
            match next case Some(stage) => Busy(s.main.id, stage) case None => Idle)
  }

  /** The message whose memory an action uses. */
  function Touched(s: State, a: Action): Option<nat>
    requires Enabled(s, a)
  {
    match a
    case Step(id) => if s.messages[id].sub == Released(false) then None else Some(id)
    case Timeout(id) => Some(id)
    case Chunk(id, _) => Some(id)
    case Compute(_) => Some(s.main.id)
    case MainStep => if s.main.stage == Unref(Released(false)) then None else Some(s.main.id)
    case _ => None
  }

  // ----- what every step keeps

  function One(b: bool): nat {
    if b then 1 else 0
  }

  /** What the main loop holds of a message. */
  datatype Hold = NotHeld | Held(stage: Stage)

  predicate Past(s: Sub) {
    s.Changed? || s.Released?
  }

  /** The references: the creator's own, the one for the queue while the creator or the queue or the main loop
      has it, and the one of a waiting sender. */
  function OwnRef(m: Message): nat {
    One(!(m.phase.Done? || (m.phase.Own? && Past(m.sub))))
  }

  function SenderQueueRef(m: Message): nat {
    One((m.phase.RefQueue? && Past(m.sub)) || m.phase.RefWait? || m.phase.Send? || (m.phase.FailQueue? && !Past(m.sub)))
  }

  function WaitRef(m: Message): nat {
    One(m.waits && ((m.phase.RefWait? && Past(m.sub)) || m.phase.Send? || m.phase.FailQueue?
                    || (m.phase.FailWait? && !Past(m.sub)) || m.phase.Waiting? || (m.phase.UnrefWait? && !Past(m.sub))))
  }

  function MainRef(h: Hold): nat {
    One(h.Held? && !(h.stage.Unref? && Past(h.stage.sub)))
  }

  predicate HasLock(s: Sub) {
    s.Locked? || s.Changed?
  }

  function MainSub(h: Hold): Sub {
    if h.Held? && h.stage.Unref? then h.stage.sub else Ready
  }

  /** Who deletes, or has deleted. */
  function Doom(s: Sub): nat {
    One(Past(s) && s.last)
  }

  predicate Unsent(p: Phase) {
    p.RefQueue? || p.RefWait? || p.Send?
  }

  predicate References(m: Message, queued: nat, h: Hold) {
    && queued + One(h.Held?) <= 1
    && m.refcount == OwnRef(m) + SenderQueueRef(m) + WaitRef(m) + queued + MainRef(h)
    && (Unsent(m.phase) ==> queued == 0 && h.NotHeld?)
    && (!IsRef(m.phase) && !IsUnref(m.phase) ==> m.sub == Ready)
    && (IsRef(m.phase) ==> !m.sub.Released? && m.sub != Changed(true))
    && (!m.waits ==> !(m.phase.RefWait? || m.phase.FailWait? || m.phase.Waiting? || m.phase.UnrefWait?))
  }

  predicate Mutex(m: Message, h: Hold) {
    && (HasLock(m.sub) <==> m.locker == Some(Creator))
    && (HasLock(MainSub(h)) <==> m.locker == Some(MainTask))
  }

  /** Deleted once, by the one who brought the count to zero. */
  predicate DeletedOnce(m: Message, h: Hold) {
    && (m.sub.Changed? ==> (m.sub.last <==> m.refcount == 0))
    && (MainSub(h).Changed? ==> (MainSub(h).last <==> m.refcount == 0))
    && Doom(m.sub) + Doom(MainSub(h)) + m.deleted == One(m.refcount == 0)
  }

  predicate Before(h: Hold) {
    h.Held? && !h.stage.Notify? && !h.stage.Unref?
  }

  /** The result is complete before anybody is told. */
  predicate Results(m: Message, queued: nat, h: Hold) {
    && (Unsent(m.phase) || queued > 0 || Before(h) ==> !m.handled && m.notifier == 0)
    && (h.Held? && h.stage.Notify? ==> m.notifier == 0)
    && (h.Held? && (h.stage.Notify? || h.stage.Unref?) ==> m.handled)
    && (h.Held? && !h.stage.Computing? ==> m.result == m.answer)
    && (h.Held? && !h.stage.Computing? && !h.stage.SetLength? ==> m.len == |m.answer|)
    && (h.Held? && h.stage.SetHandled? ==> m.consumed == 0)
    && (m.handled ==> m.result == m.answer && m.len == |m.answer| && m.consumed <= m.len)
    && (m.notifier > 0 || m.phase == UnrefWait(true) || m.phase.Reading? ==> m.handled)
    && m.sent == (if m.handled then Clip(m.answer, 0, m.consumed) else [])
    && (m.reply.Some? ==> m.handled && m.reply.value == m.answer)
  }

  predicate MessageInv(m: Message, queued: nat, h: Hold) {
    References(m, queued, h) && Mutex(m, h) && DeletedOnce(m, h) && Results(m, queued, h)
  }

  function HoldOf(main: MainLoop, id: nat): Hold {
    if main.Busy? && main.id == id then Held(main.stage) else NotHeld
  }

  predicate Inv(s: State) {
    && (forall id | id in s.messages :: MessageInv(s.messages[id], multiset(s.queue)[id], HoldOf(s.main, id)))
    && (forall id | id in s.queue :: id in s.messages)
    && (s.main.Busy? ==> s.main.id in s.messages)
  }

  // ----- one message

  lemma RefKeeps(m: Message, queued: nat, h: Hold)
    requires MessageInv(m, queued, h) && CanStep(m) && IsRef(m.phase)
    ensures References(RefStep(m), queued, h) && Mutex(RefStep(m), h)
    ensures DeletedOnce(RefStep(m), h) && Results(RefStep(m), queued, h)
  {
  }

  lemma UnrefKeepsReferences(m: Message, queued: nat, h: Hold)
    requires References(m, queued, h) && IsUnref(m.phase)
    ensures References(UnrefStep(m), queued, h)
  {
  }

  lemma UnrefKeepsDeletion(m: Message, queued: nat, h: Hold)
    requires References(m, queued, h) && Mutex(m, h) && DeletedOnce(m, h) && CanStep(m) && IsUnref(m.phase)
    ensures Mutex(UnrefStep(m), h) && DeletedOnce(UnrefStep(m), h)
  {
  }

  lemma UnrefKeeps(m: Message, queued: nat, h: Hold)
    requires MessageInv(m, queued, h) && CanStep(m) && IsUnref(m.phase)
    ensures MessageInv(UnrefStep(m), queued, h)
  {
    UnrefKeepsReferences(m, queued, h);
    UnrefKeepsDeletion(m, queued, h);
    hide References, Mutex, DeletedOnce;
  }

  lemma CreatorKeeps(m: Message, queued: nat, h: Hold, hasRoom: bool)
    requires MessageInv(m, queued, h) && CanStep(m)
    ensures MessageInv(CreatorStep(m, hasRoom), if m.phase == Send && hasRoom then queued + 1 else queued, h)
  {
    if IsRef(m.phase) {
      RefKeeps(m, queued, h);
    } else if IsUnref(m.phase) {
      UnrefKeeps(m, queued, h);
    }
  }

  lemma ChunkKeeps(m: Message, queued: nat, h: Hold, maxLen: nat)
    requires MessageInv(m, queued, h) && m.phase.Async?
    ensures MessageInv(ChunkStep(m, maxLen), queued, h)
  {
  }

  lemma MainUnrefKeeps(m: Message, sub: Sub)
    requires MessageInv(m, 0, Held(Unref(sub))) && (sub == Ready ==> m.locker == None)
    ensures var (m', next) := MainUnref(m, sub);
            MessageInv(m', 0, match next case Some(s) => Held(Unref(s)) case None => NotHeld)
  {
  }

  lemma MainKeeps(m: Message, stage: Stage)
    requires MessageInv(m, 0, Held(stage)) && (stage == Unref(Ready) ==> m.locker == None)
    ensures var (m', next) := MainNext(m, stage);
            MessageInv(m', 0, match next case Some(s) => Held(s) case None => NotHeld)
  {
    if stage.Unref? { MainUnrefKeeps(m, stage.sub); }
  }

  lemma FetchKeeps(m: Message)
    requires MessageInv(m, 1, NotHeld)
    ensures MessageInv(m, 0, Held(Computing))
  {
  }

  // ----- all messages

  /** One message changes, the queue and the main loop as far as it alone is concerned. */
  lemma OneMessageKeeps(s: State, s': State, id: nat)
    requires Inv(s) && s'.messages.Keys == s.messages.Keys + {id}
    requires forall k | k in s.messages && k != id :: s'.messages[k] == s.messages[k]
    requires forall k: nat | k != id ::
               multiset(s'.queue)[k] == multiset(s.queue)[k] && HoldOf(s'.main, k) == HoldOf(s.main, k)
    requires MessageInv(s'.messages[id], multiset(s'.queue)[id], HoldOf(s'.main, id))
    requires s'.main.Busy? ==> s'.main.id in s'.messages
    ensures Inv(s')
  {
    hide MessageInv, HoldOf;
    forall k | k in s'.queue
      ensures k in s'.messages
    {
      if k != id {
        assert multiset(s'.queue)[k] > 0;
        assert k in multiset(s.queue);
      }
    }
  }

  lemma CreatorSteps(s: State, id: nat)
    requires Inv(s) && Enabled(s, Step(id))
    ensures Inv(Next(s, Step(id)))
  {
    hide MessageInv, CreatorStep, CanStep;
    var m, hasRoom := s.messages[id], |s.queue| < QUEUE_LENGTH;
    var s' := Next(s, Step(id));
    assert multiset(s.queue + [id]) == multiset(s.queue) + multiset{id};
    CreatorKeeps(m, multiset(s.queue)[id], HoldOf(s.main, id), hasRoom);
    OneMessageKeeps(s, s', id);
  }

  lemma MainSteps(s: State)
    requires Inv(s) && Enabled(s, MainStep)
    ensures Inv(Next(s, MainStep))
  {
    hide MessageInv, MainNext;
    var id := s.main.id;
    NotQueued(s.messages[id], multiset(s.queue)[id], HoldOf(s.main, id));
    MainKeeps(s.messages[id], s.main.stage);
    OneMessageKeeps(s, Next(s, MainStep), id);
  }

  lemma NotQueued(m: Message, queued: nat, h: Hold)
    requires MessageInv(m, queued, h)
    ensures h.Held? ==> queued == 0
    ensures queued > 0 ==> queued == 1 && h.NotHeld?
  {
  }

  lemma Fetches(s: State)
    requires Inv(s) && Enabled(s, Fetch)
    ensures Inv(Next(s, Fetch))
  {
    hide MessageInv;
    var id := s.queue[0];
    assert s.queue == [id] + s.queue[1..];
    assert multiset(s.queue) == multiset{id} + multiset(s.queue[1..]);
    NotQueued(s.messages[id], multiset(s.queue)[id], HoldOf(s.main, id));
    FetchKeeps(s.messages[id]);
    OneMessageKeeps(s, Next(s, Fetch), id);
  }

  lemma SimpleKeeps(m: Message, queued: nat, h: Hold, partial: string)
    requires MessageInv(m, queued, h)
    ensures m.phase.Waiting? ==> MessageInv(m.(phase := UnrefWait(false)), queued, h)
    ensures m.phase.Async? ==> MessageInv(m.(phase := Own), queued, h)
    ensures h == Held(Computing) ==> MessageInv(m.(result := partial), queued, h)
  {
  }

  lemma NewKeeps(answer: string, waits: bool)
    ensures MessageInv(NewMessage(answer, waits), 0, NotHeld)
  {
  }

  lemma EveryStepKeeps(s: State, a: Action)
    requires Inv(s) && Enabled(s, a)
    ensures Inv(Next(s, a))
  {
    hide MessageInv, ChunkStep;
    match a
    case Create(id, answer, waits) =>
      NewKeeps(answer, waits);
      assert multiset(s.queue)[id] == 0 && HoldOf(s.main, id) == NotHeld;
      OneMessageKeeps(s, Next(s, a), id);
    case Step(id) => CreatorSteps(s, id);
    case Timeout(id) =>
      SimpleKeeps(s.messages[id], multiset(s.queue)[id], HoldOf(s.main, id), []);
      OneMessageKeeps(s, Next(s, a), id);
    case Chunk(id, maxLen) =>
      ChunkKeeps(s.messages[id], multiset(s.queue)[id], HoldOf(s.main, id), maxLen);
      OneMessageKeeps(s, Next(s, a), id);
    case Disconnect(id) =>
      SimpleKeeps(s.messages[id], multiset(s.queue)[id], HoldOf(s.main, id), []);
      OneMessageKeeps(s, Next(s, a), id);
    case Fetch => Fetches(s);
    case Compute(partial) =>
      var id := s.main.id;
      SimpleKeeps(s.messages[id], multiset(s.queue)[id], HoldOf(s.main, id), partial);
      OneMessageKeeps(s, Next(s, a), id);
    case MainStep => MainSteps(s);
  }

  // ----- runs

  /** The state after a run, if each of its actions was possible. */
  function Run(actions: seq<Action>): Option<State> {
    if actions == [] then Some(State(map[], [], Idle))
    else match Run(actions[..|actions| - 1])
      case None => None
      case Some(s) =>
        var a := actions[|actions| - 1];
        if Enabled(s, a) then Some(Next(s, a)) else None
  }

  lemma {:induction false} RunKeeps(actions: seq<Action>)
    requires Run(actions).Some?
    ensures Inv(Run(actions).value)
  {
    hide Next, Enabled, Inv;
    if actions == [] {
      StartInv();
    } else {
      RunKeeps(actions[..|actions| - 1]);
      EveryStepKeeps(Run(actions[..|actions| - 1]).value, actions[|actions| - 1]);
    }
  }

  lemma StartInv()
    ensures Inv(State(map[], [], Idle))
  {
  }

  /** In every reachable state the count of a message is the number of its holders: its creator, a waiting
      sender, and the sender, the queue or the main loop for the queue. */
  lemma CountIsHolders(actions: seq<Action>, id: nat)
    requires Run(actions).Some? && id in Run(actions).value.messages
    ensures var s := Run(actions).value;
            var m := s.messages[id];
            m.refcount == OwnRef(m) + WaitRef(m) + SenderQueueRef(m) + multiset(s.queue)[id] + MainRef(HoldOf(s.main, id))
  {
    RunKeeps(actions);
    InReach(Run(actions).value, id);
  }

  lemma {:induction false} InReach(s: State, id: nat)
    requires Inv(s) && id in s.messages
    ensures MessageInv(s.messages[id], multiset(s.queue)[id], HoldOf(s.main, id))
  {
  }

  /** No step uses a message that has been deleted; none that waits in the queue or is being processed has been. */
  lemma NoUseAfterDelete(actions: seq<Action>, a: Action, id: nat)
    requires Run(actions).Some? && Enabled(Run(actions).value, a) && Touched(Run(actions).value, a) == Some(id)
    ensures id in Run(actions).value.messages && Run(actions).value.messages[id].deleted == 0
  {
    hide Inv, MessageInv;
    RunKeeps(actions);
    var s := Run(actions).value;
    hide Run;
    InReach(s, id);
    UsedIsAlive(s.messages[id], multiset(s.queue)[id], HoldOf(s.main, id));
  }

  /** An action uses a message if it changes its semaphores, its count or its result, or if it looks at them. */
  lemma ChangedIsTouched(actions: seq<Action>, a: Action, id: nat)
    requires Run(actions).Some? && Enabled(Run(actions).value, a) && id in Run(actions).value.messages
    ensures var s := Run(actions).value;
            var m, m', touched := s.messages[id], Next(s, a).messages[id], Touched(s, a) == Some(id);
            && (m' != m.(phase := m'.phase, sub := m'.sub) ==> touched)
            && ((a == Step(id) && !m.sub.Released?) || a == Timeout(id) ==> touched)
            && (a.Chunk? && a.id == id ==> touched)
  {
    hide Inv, MessageInv;
    RunKeeps(actions);
    var s := Run(actions).value;
    hide Run;
    InReach(s, id);
    NothingReleased(s.messages[id], multiset(s.queue)[id], HoldOf(s.main, id));
  }

  lemma NothingReleased(m: Message, queued: nat, h: Hold)
    requires MessageInv(m, queued, h)
    ensures m.sub.Released? ==> IsUnref(m.phase)
  {
  }

  /** Whoever is in the middle of something holds a reference, or is the one who deletes. */
  lemma UsedIsAlive(m: Message, queued: nat, h: Hold)
    requires MessageInv(m, queued, h)
    ensures !m.phase.Done? && m.sub != Released(false) ==> m.deleted == 0
    ensures m.phase.Waiting? || m.phase.Async? ==> m.deleted == 0
    ensures h.Held? && h.stage != Unref(Released(false)) ==> m.deleted == 0
    ensures queued > 0 ==> m.deleted == 0
  {
  }

  /** Deleted at most once; and exactly once as soon as its creator is done with it and neither the queue nor
      the main loop has it, whether it was processed, the queue was full, or the sender gave up. */
  lemma DeletedExactlyOnce(actions: seq<Action>, id: nat)
    requires Run(actions).Some? && id in Run(actions).value.messages
    ensures var s := Run(actions).value;
            var m := s.messages[id];
            && m.deleted <= 1
            && (m.deleted == 1 ==> m.phase.Done? || m.sub == Released(false))
            && (m.phase.Done? && id !in s.queue && HoldOf(s.main, id) == NotHeld ==> m.deleted == 1)
  {
    hide Inv, MessageInv;
    RunKeeps(actions);
    var s := Run(actions).value;
    hide Run;
    InReach(s, id);
    UsedIsAlive(s.messages[id], multiset(s.queue)[id], HoldOf(s.main, id));
    OnceOnly(s.messages[id], multiset(s.queue)[id], HoldOf(s.main, id));
  }

  lemma OnceOnly(m: Message, queued: nat, h: Hold)
    requires MessageInv(m, queued, h)
    ensures m.deleted <= 1 && (m.phase.Done? && queued == 0 && h == NotHeld ==> m.deleted == 1)
  {
  }

  /** A sender that was notified finds the complete result, and what it reads or is sent in chunks is the
      answer or a beginning of it, never something half computed. */
  lemma OkMeansProcessed(actions: seq<Action>, id: nat)
    requires Run(actions).Some? && id in Run(actions).value.messages
    ensures var m := Run(actions).value.messages[id];
            && (m.phase == UnrefWait(true) || m.phase.Reading? ==> m.handled && m.result == m.answer)
            && (m.reply.Some? ==> m.reply.value == m.answer)
            && m.sent <= m.answer
            && (m.handled && m.consumed >= m.len ==> m.sent == m.answer)
  {
    hide Inv, MessageInv;
    RunKeeps(actions);
    var s := Run(actions).value;
    hide Run;
    InReach(s, id);
    ResultsComplete(s.messages[id], multiset(s.queue)[id], HoldOf(s.main, id));
  }

  lemma ResultsComplete(m: Message, queued: nat, h: Hold)
    requires MessageInv(m, queued, h)
    ensures (m.phase == UnrefWait(true) || m.phase.Reading? ==> m.handled && m.result == m.answer)
    ensures m.reply.Some? ==> m.reply.value == m.answer
    ensures m.sent <= m.answer && (m.handled && m.consumed >= m.len ==> m.sent == m.answer)
  {
  }

  /** Nobody waits for ever on a mutex: a creator that is not done can go on, or the main loop holds the
      mutex of its message and can go on. */
  lemma SomebodyCanGoOn(actions: seq<Action>, id: nat)
    requires Run(actions).Some? && id in Run(actions).value.messages && !Run(actions).value.messages[id].phase.Done?
    ensures var s := Run(actions).value;
            || Enabled(s, Step(id)) || Enabled(s, Timeout(id)) || Enabled(s, Disconnect(id))
            || (s.main.Busy? && s.main.id == id && s.messages[id].locker == Some(MainTask) && Enabled(s, MainStep))
  {
    hide Inv, MessageInv;
    RunKeeps(actions);
    var s := Run(actions).value;
    hide Run;
    InReach(s, id);
    LockHolder(s.messages[id], multiset(s.queue)[id], HoldOf(s.main, id));
  }

  lemma LockHolder(m: Message, queued: nat, h: Hold)
    requires MessageInv(m, queued, h)
    ensures m.sub == Ready && m.locker != None ==> m.locker == Some(MainTask) && h.Held? && h.stage != Unref(Ready)
  {
    assert m.locker.Some? ==> m.locker.value.Creator? || m.locker.value.MainTask?;
  }

  /** The main loop never stands still: it can fetch the next message, or go on with the one it has, or the creator of
      that one has its mutex and can go on. */
  lemma MainLoopCanGoOn(actions: seq<Action>)
    requires Run(actions).Some?
    ensures var s := Run(actions).value;
            match s.main
            case Idle => s.queue != [] ==> Enabled(s, Fetch)
            case Busy(id, _) =>
              id in s.messages
              && (Enabled(s, MainStep) || (s.messages[id].locker == Some(Creator) && Enabled(s, Step(id))))
  {
    hide MessageInv;
    RunKeeps(actions);
    var s := Run(actions).value;
    hide Run;
    if s.main.Busy? {
      InReach(s, s.main.id);
      MainWaits(s.messages[s.main.id], multiset(s.queue)[s.main.id], s.main.stage);
    }
  }

  lemma MainWaits(m: Message, queued: nat, stage: Stage)
    requires MessageInv(m, queued, Held(stage))
    ensures stage == Unref(Ready) && m.locker != None ==> m.locker == Some(Creator) && CanStep(m)
  {
    assert m.locker.Some? ==> m.locker.value.Creator? || m.locker.value.MainTask?;
  }

  // ----- what the steps of a call add up to

  /** One call of `ref`: one more reference. */
  lemma RefCall(m: Message)
    requires IsRef(m.phase) && m.sub == Ready
    ensures RefStep(RefStep(RefStep(m))) == m.(refcount := m.refcount + 1, locker := None,
              phase := if m.phase == RefQueue && m.waits then RefWait else Send)
  {
  }

  /** One call of `unref`: one reference less, and the message is deleted exactly if that was the last. */
  lemma UnrefCall(m: Message)
    requires IsUnref(m.phase) && m.sub == Ready && m.refcount > 0
    ensures UnrefStep(UnrefStep(UnrefStep(UnrefStep(m)))) == m.(refcount := m.refcount - 1, locker := None,
              deleted := m.deleted + (if m.refcount == 1 then 1 else 0),
              phase := match m.phase
                       case FailQueue => if m.waits then FailWait else Own
                       case UnrefWait(ok) => if ok then Reading else Async
                       case Own => Done
                       case _ => Own)
  {
  }

  /** So many steps of the main loop with one message. */
  function MainAfter(m: Message, n: nat): (Message, Option<Stage>) {
    if n == 0 then (m, Some(Computing))
    else match MainAfter(m, n - 1)
      case (m', Some(stage)) => MainNext(m', stage)
      case (m', None) => (m', None)
  }

  /** Processing a message: the answer is there with its length and nothing of it consumed, it is marked as handled,
      whoever waits is notified, and the reference of the queue is gone. */
  lemma {:induction false} ProcessCall(m: Message)
    requires m.refcount > 0
    ensures MainAfter(m, 9) == (m.(result := m.answer, len := |m.answer|, consumed := 0, handled := true, notifier := 1,
                                   refcount := m.refcount - 1, locker := None,
                                   deleted := m.deleted + (if m.refcount == 1 then 1 else 0)), None)
  {
    var h := m.(result := m.answer, len := |m.answer|, consumed := 0, handled := true);
    assert MainAfter(m, 1) == (m.(result := m.answer), Some(SetLength));
    assert MainAfter(m, 2) == (m.(result := m.answer, len := |m.answer|), Some(ClearConsumed));
    assert MainAfter(m, 3) == (h.(handled := m.handled), Some(SetHandled));
    assert MainAfter(m, 4) == (h, Some(Notify));
    var n, last := h.(notifier := 1), m.refcount == 1;
    assert MainAfter(m, 5) == (n, Some(Unref(Ready)));
    assert MainAfter(m, 6) == (n.(locker := Some(MainTask)), Some(Unref(Locked)));
    var u := n.(locker := Some(MainTask), refcount := m.refcount - 1);
    assert MainAfter(m, 7) == (u, Some(Unref(Changed(last))));
    assert MainAfter(m, 8) == (u.(locker := None), Some(Unref(Released(last))));
  }

  /** The chunk callback called again and again. */
  function Chunks(m: Message, maxLens: seq<nat>): Message {
    if maxLens == [] then m else ChunkStep(Chunks(m, maxLens[..|maxLens| - 1]), maxLens[|maxLens| - 1])
  }

  function Sum(ns: seq<nat>): nat {
    if ns == [] then 0 else Sum(ns[..|ns| - 1]) + ns[|ns| - 1]
  }

  /** Once the message is handled, calls with room for so many characters hand out that much of the answer; before
      that they hand out nothing. */
  lemma {:induction false} ChunksSend(m: Message, maxLens: seq<nat>)
    requires m.handled ==> m.result == m.answer && m.len == |m.answer|
    requires m.consumed == 0 && m.sent == [] && (m.notifier > 0 ==> m.handled)
    ensures var m', n := Chunks(m, maxLens), if m.handled then Min(Sum(maxLens), |m.answer|) else 0;
            n <= |m.answer| && m' == m.(notifier := m'.notifier, sent := m.answer[..n], consumed := n)
            && (m'.notifier > 0 ==> m.handled)
  {
    hide ChunkStep;
    if maxLens != [] {
      var before := maxLens[..|maxLens| - 1];
      ChunksSend(m, before);
      ChunkSends(m, if m.handled then Min(Sum(before), |m.answer|) else 0, Chunks(m, before), maxLens[|maxLens| - 1]);
    }
  }

  /** One call more. */
  lemma ChunkSends(m: Message, n: nat, now: Message, maxLen: nat)
    requires m.handled ==> m.result == m.answer && m.len == |m.answer|
    requires n <= |m.answer| && now == m.(notifier := now.notifier, sent := m.answer[..n], consumed := n)
    requires now.notifier > 0 ==> m.handled
    ensures var m', k := ChunkStep(now, maxLen), if m.handled then Min(n + maxLen, |m.answer|) else n;
            m' == m.(notifier := m'.notifier, sent := m.answer[..k], consumed := k) && m'.notifier <= now.notifier
  {
    var k := Min(n + maxLen, |m.answer|);
    assert m.answer[..n] + m.answer[n..k] == m.answer[..k];
  }

  function Min(a: nat, b: nat): nat {
    if a < b then a else b
  }

  // ----- the queue

  /** The messages put into the queue in a run: those whose sending did not fail. */
  function PutIn(actions: seq<Action>): seq<nat>
    requires Run(actions).Some?
  {
    if actions == [] then []
    else
      var before, a := actions[..|actions| - 1], actions[|actions| - 1];
      var s, s' := Run(before).value, Run(actions).value;
      PutIn(before) + if a.Step? && s.messages[a.id].phase == Send && s'.messages[a.id].phase != FailQueue then [a.id]
                      else []
  }

  /** The messages the main loop began with. */
  function Fetched(actions: seq<Action>): seq<nat>
    requires Run(actions).Some?
  {
    if actions == [] then []
    else
      var before := actions[..|actions| - 1];
      var s, s' := Run(before).value, Run(actions).value;
      Fetched(before) + if s.main == Idle && s'.main.Busy? then [s'.main.id] else []
  }

  /** What was put in is what was fetched, followed by what waits, in this order, and never more than twenty wait. */
  lemma {:induction false} FirstInFirstOut(actions: seq<Action>)
    requires Run(actions).Some?
    ensures PutIn(actions) == Fetched(actions) + Run(actions).value.queue && |Run(actions).value.queue| <= 20
  {
    hide Next, Enabled;
    if actions != [] {
      var before, a := actions[..|actions| - 1], actions[|actions| - 1];
      FirstInFirstOut(before);
      var s, s' := Run(before).value, Run(actions).value;
      QueueNext(s, a);
      if s.main == Idle && s'.main.Busy? {
        assert Fetched(before) + ([s'.main.id] + s'.queue) == (Fetched(before) + [s'.main.id]) + s'.queue;
      }
    }
  }

  /** What an action does to the queue. */
  lemma QueueNext(s: State, a: Action)
    requires Enabled(s, a)
    ensures var s' := Next(s, a);
            && (s.main == Idle && s'.main.Busy? ==> s.queue == [s'.main.id] + s'.queue && !a.Step?)
            && (!(s.main == Idle && s'.main.Busy?) ==>
                s'.queue == s.queue + if a.Step? && s.messages[a.id].phase == Send
                                        && s'.messages[a.id].phase != FailQueue then [a.id] else [])
            && (a.Step? && s.messages[a.id].phase == Send ==>
                (s'.messages[a.id].phase == FailQueue <==> |s.queue| >= 20))
  {
  }
}

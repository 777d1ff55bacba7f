/**
 The session managers of the SSH core, for AWS and for local shells: goroutines that read a session's output, one that
 waits for its process, callers that disconnect it, and one that closes the process when all are done. The session
 table and the flags are only touched under a lock; events are emitted outside it. Each step below is one locked
 section, one emission, or one blocking call returning.
 */
module SessionManager {
  type SessionId = string

  datatype Flags = Flags(disconnectRequested: bool, errorNotified: bool)

  const NO_FLAGS := Flags(false, false)

  // ---------- the locked sections ----------

  // What the table knows of a session: whether it is there, and its handle's flags.
  datatype Entry = Entry(registered: bool, flags: Flags)

  function RequestDisconnect(e: Entry): Entry {
    if e.registered then e.(flags := e.flags.(disconnectRequested := true)) else e
  }

  // The caller may emit the error only if it is the first to mark it.
  function MarkErrorNotified(e: Entry): (bool, Entry) {
    if !e.registered || e.flags.errorNotified then (false, e) else (true, e.(flags := e.flags.(errorNotified := true)))
  }

  function RemoveFromTable(e: Entry): (bool, Entry) {
    if e.registered then (true, e.(registered := false)) else (false, e)
  }

  class SessionHandle {
    var disconnectRequested: bool
    var errorNotified: bool

    constructor ()
      ensures GetFlags() == NO_FLAGS
    {
      disconnectRequested, errorNotified := false, false;
    }

    function GetFlags(): Flags
      reads this
    {
      Flags(disconnectRequested, errorNotified)
    }
  }

  class Manager {
    var sessions: map<SessionId, SessionHandle>

    ghost predicate Valid()
      reads this
    {
      forall a, b :: a in sessions && b in sessions && a != b ==> sessions[a] != sessions[b]
    }

    constructor ()
      ensures Valid() && sessions == map[]
    {
      sessions := map[];
    }

    // The entry of a session whose handle is known.
    ghost function EntryOf(id: SessionId, handle: SessionHandle): Entry
      reads this, handle
    {
      Entry(id in sessions && sessions[id] == handle, handle.GetFlags())
    }

    method Register(id: SessionId) returns (handle: SessionHandle)
      requires Valid()
      modifies this
      ensures Valid() && fresh(handle)
      ensures sessions == old(sessions)[id := handle] && EntryOf(id, handle) == Entry(true, NO_FLAGS)
    {
      handle := new SessionHandle();
      sessions := sessions[id := handle];
    }

    method HasSession(id: SessionId) returns (ok: bool)
      ensures ok <==> id in sessions
    {
      ok := id in sessions;
    }

    method Disconnect(id: SessionId) returns (kill: bool)
      requires Valid()
      modifies sessions.Values
      ensures Valid() && sessions == old(sessions)
      ensures kill <==> id in sessions
      ensures id in sessions ==> EntryOf(id, sessions[id]) == RequestDisconnect(old(EntryOf(id, sessions[id])))
      ensures forall other :: other in sessions && other != id ==> sessions[other].GetFlags() == old(sessions[other].GetFlags())
    {
      if id !in sessions {
        return false;
      }
      var session := sessions[id];
      session.disconnectRequested := true;
      return true;
    }

    // The locked section of emitSessionError.
    method NotifyError(id: SessionId) returns (emit: bool)
      requires Valid()
      modifies sessions.Values
      ensures Valid() && sessions == old(sessions)
      ensures id !in sessions ==> !emit
      ensures id in sessions ==> (emit, EntryOf(id, sessions[id])) == MarkErrorNotified(old(EntryOf(id, sessions[id])))
      ensures forall other :: other in sessions && other != id ==> sessions[other].GetFlags() == old(sessions[other].GetFlags())
    {
      if id !in sessions || sessions[id].errorNotified {
        return false;
      }
      var session := sessions[id];
      session.errorNotified := true;
      return true;
    }

    // The locked section of closeSession.
    method Remove(id: SessionId) returns (ok: bool)
      requires Valid()
      modifies this
      ensures Valid() && sessions == old(sessions) - {id}
      ensures ok <==> id in old(sessions)
      ensures ok ==> (ok, EntryOf(id, old(sessions)[id])) == RemoveFromTable(old(EntryOf(id, sessions[id])))
    {
      ok := id in sessions;
      if ok {
        sessions := sessions - {id};
      }
    }

    method SessionFlags(id: SessionId) returns (flags: Flags)
      ensures flags == if id in sessions then sessions[id].GetFlags() else NO_FLAGS
    {
      if id !in sessions {
        return NO_FLAGS;
      }
      return sessions[id].GetFlags();
    }
  }

  // ---------- one session's goroutines ----------

  datatype Event = ConnectedEvent | DataEvent | ErrorEvent | ClosedEvent(byClient: bool)

  datatype Connector = EmittingConnected | Spawning | Spawned

  datatype Reader =
    | Reading
    | SawError      // Read has failed with something other than end of file; HasSession comes next
    | Notifying     // emitSessionError is about to take the lock
    | Emitting      // it has marked the error and is about to emit it
    | Finished      // returned, streams.Done called

  datatype Waiter =
    | NotStarted
    | Looking
    | Waiting
    | Exited(hasMessage: bool)
    | ReadingFlags(hasMessage: bool)
    | NotifyingExit
    | EmittingExit
    | Closing(byClient: bool)
    | EmittingClosed(byClient: bool)
    | Returned

  datatype Closer = NoCloser | AwaitingStreams | ClosingRunner | RunnerClosed

  datatype Session = Session(
    entry: Entry,
    connector: Connector,
    streamCount: nat,        // readers the runner offers
    readers: seq<Reader>,    // those started
    streams: int,            // the wait group
    waiter: Waiter,
    closer: Closer,
    events: seq<Event>)      // emitted so far

  function NewSession(streamCount: nat): Session {
    Session(Entry(true, NO_FLAGS), EmittingConnected, streamCount, [], 0, NotStarted, NoCloser, [])
  }

  datatype Step =
    | EmitConnected
    | StartReader
    | StartWaiter
    | ReaderData(reader: nat)
    | ReaderFails(reader: nat, endOfFile: bool)
    | ReaderChecks(reader: nat)
    | ReaderLocks(reader: nat)
    | ReaderEmits(reader: nat)
    | WaiterLooks
    | WaiterExits(hasMessage: bool)
    | WaiterChecks
    | WaiterReadsFlags
    | WaiterLocks
    | WaiterEmitsError
    | WaiterRemoves
    | WaiterEmitsClosed
    | CloserWakes
    | CloserCloses
    | DisconnectCalled

  predicate ReaderIs(s: Session, i: nat, reader: Reader) {
    i < |s.readers| && s.readers[i] == reader
  }

  predicate Enabled(s: Session, step: Step) {
    match step
    case EmitConnected => s.connector == EmittingConnected
    case StartReader => s.connector == Spawning && |s.readers| < s.streamCount
    case StartWaiter => s.connector == Spawning && |s.readers| >= s.streamCount
    case ReaderData(i) => ReaderIs(s, i, Reading)
    case ReaderFails(i, _) => ReaderIs(s, i, Reading)
    case ReaderChecks(i) => ReaderIs(s, i, SawError)
    case ReaderLocks(i) => ReaderIs(s, i, Notifying)
    case ReaderEmits(i) => ReaderIs(s, i, Emitting)
    case WaiterLooks => s.waiter == Looking
    case WaiterExits(_) => s.waiter == Waiting
    case WaiterChecks => s.waiter.Exited?
    case WaiterReadsFlags => s.waiter.ReadingFlags?
    case WaiterLocks => s.waiter == NotifyingExit
    case WaiterEmitsError => s.waiter == EmittingExit
    case WaiterRemoves => s.waiter.Closing?
    case WaiterEmitsClosed => s.waiter.EmittingClosed?
    case CloserWakes => s.closer == AwaitingStreams && s.streams == 0
    case CloserCloses => s.closer == ClosingRunner
    case DisconnectCalled => true
  }

  function SetReader(s: Session, i: nat, reader: Reader): Session
    requires i < |s.readers|
  {
    s.(readers := s.readers[i := reader])
  }

  function FinishReader(s: Session, i: nat): Session
    requires i < |s.readers|
  {
    SetReader(s, i, Finished).(streams := s.streams - 1)
  }

  function Emit(s: Session, event: Event): Session {
    s.(events := s.events + [event])
  }

  function Apply(s: Session, step: Step): Session
    requires Enabled(s, step)
  {
    match step
    case EmitConnected => Emit(s, ConnectedEvent).(connector := Spawning)
    case StartReader => s.(streams := s.streams + 1, readers := s.readers + [Reading])
    case StartWaiter => s.(connector := Spawned, waiter := Looking)
    case ReaderData(i) => Emit(s, DataEvent)
    case ReaderFails(i, endOfFile) => if endOfFile then FinishReader(s, i) else SetReader(s, i, SawError)
    case ReaderChecks(i) => if s.entry.registered then SetReader(s, i, Notifying) else FinishReader(s, i)
    case ReaderLocks(i) =>
      var (emit, entry) := MarkErrorNotified(s.entry);
      if emit then SetReader(s, i, Emitting).(entry := entry) else FinishReader(s, i)
    case ReaderEmits(i) => FinishReader(Emit(s, ErrorEvent), i)
    case WaiterLooks => s.(waiter := if s.entry.registered then Waiting else Returned)
    case WaiterExits(hasMessage) => s.(waiter := Exited(hasMessage))
    case WaiterChecks => s.(waiter := if s.entry.registered then ReadingFlags(s.waiter.hasMessage) else Returned)
    case WaiterReadsFlags =>
      var disconnectRequested := s.entry.registered && s.entry.flags.disconnectRequested;
      s.(waiter := if !disconnectRequested && s.waiter.hasMessage then NotifyingExit else Closing(disconnectRequested))
    case WaiterLocks =>
      var (emit, entry) := MarkErrorNotified(s.entry);
      s.(entry := entry, waiter := if emit then EmittingExit else Closing(false))
    case WaiterEmitsError => Emit(s, ErrorEvent).(waiter := Closing(false))
    case WaiterRemoves =>
      var (ok, entry) := RemoveFromTable(s.entry);
      s.(entry := entry, waiter := if ok then EmittingClosed(s.waiter.byClient) else Returned)
    case WaiterEmitsClosed => Emit(s, ClosedEvent(s.waiter.byClient)).(waiter := Returned, closer := AwaitingStreams)
    case CloserWakes => s.(closer := ClosingRunner)
    case CloserCloses => s.(closer := RunnerClosed)
    case DisconnectCalled => s.(entry := RequestDisconnect(s.entry))
  }

  // ---------- counting ----------

  function ErrorCount(events: seq<Event>): nat {
    if events == [] then 0 else ErrorCount(events[..|events| - 1]) + if events[|events| - 1].ErrorEvent? then 1 else 0
  }

  function ClosedCount(events: seq<Event>): nat {
    if events == [] then 0 else ClosedCount(events[..|events| - 1]) + if events[|events| - 1].ClosedEvent? then 1 else 0
  }

  function EmittingCount(readers: seq<Reader>): nat {
    if readers == [] then 0 else EmittingCount(readers[..|readers| - 1]) + if readers[|readers| - 1].Emitting? then 1 else 0
  }

  function ActiveCount(readers: seq<Reader>): nat {
    if readers == [] then 0 else ActiveCount(readers[..|readers| - 1]) + if readers[|readers| - 1].Finished? then 0 else 1
  }

  lemma {:induction false} CountsAfterEmit(events: seq<Event>, event: Event)
    ensures ErrorCount(events + [event]) == ErrorCount(events) + if event.ErrorEvent? then 1 else 0
    ensures ClosedCount(events + [event]) == ClosedCount(events) + if event.ClosedEvent? then 1 else 0
  {
    assert (events + [event])[..|events|] == events;
  }

  lemma {:induction false} CountsAfterStart(readers: seq<Reader>)
    ensures EmittingCount(readers + [Reading]) == EmittingCount(readers)
    ensures ActiveCount(readers + [Reading]) == ActiveCount(readers) + 1
  {
    assert (readers + [Reading])[..|readers|] == readers;
  }

  lemma {:induction false} CountsAfterSet(readers: seq<Reader>, i: nat, reader: Reader)
    requires i < |readers|
    ensures EmittingCount(readers[i := reader])
         == EmittingCount(readers) - (if readers[i].Emitting? then 1 else 0) + (if reader.Emitting? then 1 else 0)
    ensures ActiveCount(readers[i := reader])
         == ActiveCount(readers) + (if readers[i].Finished? then 1 else 0) - (if reader.Finished? then 1 else 0)
  {
    var front := readers[..|readers| - 1];
    if i == |readers| - 1 {
      assert readers[i := reader][..|readers| - 1] == front;
    } else {
      CountsAfterSet(front, i, reader);
      assert readers[i := reader][..|readers| - 1] == front[i := reader];
    }
  }

  lemma {:induction false} NoneActive(readers: seq<Reader>)
    requires ActiveCount(readers) == 0
    ensures forall i :: 0 <= i < |readers| ==> readers[i] == Finished
  {
    if readers != [] {
      NoneActive(readers[..|readers| - 1]);
    }
  }

  // ---------- the invariant ----------

  ghost predicate Inv(s: Session) {
    // Connected is first, and nothing runs before it
    && (s.connector == EmittingConnected ==> s.events == [] && s.readers == [])
    && (s.connector != EmittingConnected ==> s.events != [] && s.events[0] == ConnectedEvent)
    && (forall i :: 0 < i < |s.events| ==> s.events[i] != ConnectedEvent)
    && (s.waiter == NotStarted <==> s.connector != Spawned)
    && |s.readers| <= s.streamCount && (s.connector == Spawned ==> |s.readers| == s.streamCount)
    // whoever marks the error emits it, once
    && ErrorCount(s.events) + EmittingCount(s.readers) + (if s.waiter == EmittingExit then 1 else 0)
       == (if s.entry.flags.errorNotified then 1 else 0)
    // whoever removes the session emits Closed, once
    && (s.entry.registered <==> !s.waiter.EmittingClosed? && s.waiter != Returned)
    && ClosedCount(s.events) == (if s.waiter == Returned then 1 else 0)
    && (s.closer == NoCloser <==> s.waiter != Returned)
    // a close in the client's name follows a request
    && (s.waiter.Closing? && s.waiter.byClient ==> s.entry.flags.disconnectRequested)
    && (s.waiter.EmittingClosed? && s.waiter.byClient ==> s.entry.flags.disconnectRequested)
    && (forall i :: 0 <= i < |s.events| && s.events[i].ClosedEvent? && s.events[i].byClient ==> s.entry.flags.disconnectRequested)
    // the wait group counts the readers that have not returned
    && s.streams == ActiveCount(s.readers)
    && (s.closer == ClosingRunner || s.closer == RunnerClosed ==> s.streams == 0)
  }

  // What an event other than Connected leaves of the order of events, after Connected.
  lemma EventsStayInOrder(events: seq<Event>, event: Event, requested: bool)
    requires events != [] && events[0] == ConnectedEvent && event != ConnectedEvent
    requires forall i :: 0 < i < |events| ==> events[i] != ConnectedEvent
    requires forall i :: 0 <= i < |events| && events[i].ClosedEvent? && events[i].byClient ==> requested
    requires event.ClosedEvent? && event.byClient ==> requested
    ensures var longer := events + [event];
            && longer[0] == ConnectedEvent
            && (forall i :: 0 < i < |longer| ==> longer[i] != ConnectedEvent)
            && (forall i :: 0 <= i < |longer| && longer[i].ClosedEvent? && longer[i].byClient ==> requested)
  {
    var longer := events + [event];
    forall i | 0 < i < |longer| ensures longer[i] != ConnectedEvent {
      assert longer[i] == if i < |events| then events[i] else event;
    }
    forall i | 0 <= i < |longer| && longer[i].ClosedEvent? && longer[i].byClient ensures requested {
      assert longer[i] == if i < |events| then events[i] else event;
    }
  }

  lemma {:induction false} ConnectorKeepsInv(s: Session, step: Step)
    requires Inv(s) && Enabled(s, step) && (step.EmitConnected? || step.StartReader? || step.StartWaiter?)
    ensures Inv(Apply(s, step))
  {
    CountsAfterEmit(s.events, ConnectedEvent);
    CountsAfterStart(s.readers);
  }

  lemma {:induction false} ReaderMoves(s: Session, i: nat, reader: Reader, entry: Entry)
    requires Inv(s) && i < |s.readers| && s.connector != EmittingConnected
    requires s.readers[i] != Emitting && s.readers[i] != Finished
    requires entry == s.entry || (reader == Emitting && MarkErrorNotified(s.entry) == (true, entry))
    requires reader == Emitting ==> entry != s.entry
    ensures Inv((if reader == Finished then FinishReader(s, i) else SetReader(s, i, reader)).(entry := entry))
  {
    CountsAfterSet(s.readers, i, reader);
  }

  lemma {:induction false} ReaderKeepsInv(s: Session, step: Step)
    requires Inv(s) && Enabled(s, step)
    requires step.ReaderData? || step.ReaderFails? || step.ReaderChecks? || step.ReaderLocks?
    ensures Inv(Apply(s, step))
  {
    match step
    case ReaderData(i) =>
      CountsAfterEmit(s.events, DataEvent);
      EventsStayInOrder(s.events, DataEvent, s.entry.flags.disconnectRequested);
    case ReaderFails(i, endOfFile) => ReaderMoves(s, i, if endOfFile then Finished else SawError, s.entry);
    case ReaderChecks(i) => ReaderMoves(s, i, if s.entry.registered then Notifying else Finished, s.entry);
    case ReaderLocks(i) =>
      var (emit, entry) := MarkErrorNotified(s.entry);
      ReaderMoves(s, i, if emit then Emitting else Finished, entry);
  }

  lemma {:induction false} ReaderEmissionKeepsInv(s: Session, i: nat)
    requires Inv(s) && Enabled(s, ReaderEmits(i))
    ensures Inv(Apply(s, ReaderEmits(i)))
  {
    CountsAfterEmit(s.events, ErrorEvent);
    EventsStayInOrder(s.events, ErrorEvent, s.entry.flags.disconnectRequested);
    CountsAfterSet(s.readers, i, Finished);
  }

  lemma {:induction false} WaiterLooksKeepsInv(s: Session, step: Step)
    requires Inv(s) && Enabled(s, step) && (step.WaiterLooks? || step.WaiterExits? || step.WaiterChecks?)
    ensures Inv(Apply(s, step))
  {
  }

  lemma {:induction false} WaiterReadsFlagsKeepsInv(s: Session)
    requires Inv(s) && s.waiter.ReadingFlags?
    ensures Inv(Apply(s, WaiterReadsFlags))
  {
  }

  lemma {:induction false} WaiterLocksKeepsInv(s: Session)
    requires Inv(s) && s.waiter == NotifyingExit
    ensures Inv(Apply(s, WaiterLocks))
  {
  }

  lemma {:induction false} WaiterRemovesKeepsInv(s: Session)
    requires Inv(s) && s.waiter.Closing?
    ensures Inv(Apply(s, WaiterRemoves))
  {
  }

  lemma {:induction false} WaiterErrorKeepsInv(s: Session)
    requires Inv(s) && s.waiter == EmittingExit
    ensures Inv(Apply(s, WaiterEmitsError))
  {
    CountsAfterEmit(s.events, ErrorEvent);
    EventsStayInOrder(s.events, ErrorEvent, s.entry.flags.disconnectRequested);
  }

  lemma {:induction false} WaiterClosedKeepsInv(s: Session)
    requires Inv(s) && s.waiter.EmittingClosed?
    ensures Inv(Apply(s, WaiterEmitsClosed))
  {
    CountsAfterEmit(s.events, ClosedEvent(s.waiter.byClient));
    EventsStayInOrder(s.events, ClosedEvent(s.waiter.byClient), s.entry.flags.disconnectRequested);
  }

  lemma {:induction false} StepKeepsInv(s: Session, step: Step)
    requires Inv(s) && Enabled(s, step)
    ensures Inv(Apply(s, step))
  {
    match step
    case EmitConnected => ConnectorKeepsInv(s, step);
    case StartReader => ConnectorKeepsInv(s, step);
    case StartWaiter => ConnectorKeepsInv(s, step);
    case ReaderEmits(i) => ReaderEmissionKeepsInv(s, i);
    case ReaderData(i) => ReaderKeepsInv(s, step);
    case ReaderFails(i, endOfFile) => ReaderKeepsInv(s, step);
    case ReaderChecks(i) => ReaderKeepsInv(s, step);
    case ReaderLocks(i) => ReaderKeepsInv(s, step);
    case WaiterEmitsError => WaiterErrorKeepsInv(s);
    case WaiterEmitsClosed => WaiterClosedKeepsInv(s);
    case CloserWakes =>
    case CloserCloses =>
    case DisconnectCalled =>
    case WaiterReadsFlags => WaiterReadsFlagsKeepsInv(s);
    case WaiterLocks => WaiterLocksKeepsInv(s);
    case WaiterRemoves => WaiterRemovesKeepsInv(s);
    case _ => WaiterLooksKeepsInv(s, step);
  }

  // ---------- runs of the whole manager ----------

  type World = map<SessionId, Session>

  datatype Action = Connect(id: SessionId, streamCount: nat) | Within(id: SessionId, step: Step)

  // Sessions only meet in the table, and their ids are fresh.
  predicate CanAct(world: World, action: Action) {
    match action
    case Connect(id, _) => id !in world
    case Within(id, step) => id in world && Enabled(world[id], step)
  }

  function Act(world: World, action: Action): World
    requires CanAct(world, action)
  {
    match action
    case Connect(id, streamCount) => world[id := NewSession(streamCount)]
    case Within(id, step) => world[id := Apply(world[id], step)]
  }

  ghost predicate IsRun(world: World, actions: seq<Action>)
    decreases |actions|
  {
    actions == [] || (CanAct(world, actions[0]) && IsRun(Act(world, actions[0]), actions[1..]))
  }

  ghost function AfterRun(world: World, actions: seq<Action>): World
    requires IsRun(world, actions)
    decreases |actions|
  {
    if actions == [] then world else AfterRun(Act(world, actions[0]), actions[1..])
  }

  lemma {:induction false} RunKeepsInv(world: World, actions: seq<Action>)
    requires IsRun(world, actions) && forall id :: id in world ==> Inv(world[id])
    ensures forall id :: id in AfterRun(world, actions) ==> Inv(AfterRun(world, actions)[id])
    decreases |actions|
  {
    if actions != [] {
      match actions[0] {
        case Connect(id, streamCount) => NewSessionIsValid(streamCount);
        case Within(id, step) => StepKeepsInv(world[id], step);
      }
      RunKeepsInv(Act(world, actions[0]), actions[1..]);
    }
  }

  lemma NewSessionIsValid(streamCount: nat)
    ensures Inv(NewSession(streamCount))
  {
  }

  /**
   Under every interleaving, for every session: Connected comes before everything else and once; at most one Error and at
   most one Closed are emitted; a waiter that has returned has emitted exactly one Closed; and the runner is closed only
   after Closed and after every reader has returned. A Closed in the client's name follows a disconnect request.
   */
  lemma {:induction false} EventsAreExactlyOnce(actions: seq<Action>, id: SessionId)
    requires IsRun(map[], actions) && id in AfterRun(map[], actions)
    ensures var s := AfterRun(map[], actions)[id];
            && (s.events != [] ==> s.events[0] == ConnectedEvent)
            && (forall i :: 0 < i < |s.events| ==> s.events[i] != ConnectedEvent)
            && ErrorCount(s.events) <= 1
            && ClosedCount(s.events) <= 1
            && (s.waiter == Returned ==> ClosedCount(s.events) == 1)
            && (s.closer == ClosingRunner || s.closer == RunnerClosed ==>
                  && ClosedCount(s.events) == 1
                  && |s.readers| == s.streamCount
                  && forall i :: 0 <= i < |s.readers| ==> s.readers[i] == Finished)
            && (forall i :: 0 <= i < |s.events| && s.events[i].ClosedEvent? && s.events[i].byClient ==>
                  s.entry.flags.disconnectRequested)
  {
    RunKeepsInv(map[], actions);
    var s := AfterRun(map[], actions)[id];
    if s.closer == ClosingRunner || s.closer == RunnerClosed {
      NoneActive(s.readers);
    }
  }

  // ---------- every session can finish ----------

  function ReaderRank(reader: Reader): nat {
    match reader
    case Reading => 4
    case SawError => 3
    case Notifying => 2
    case Emitting => 1
    case Finished => 0
  }

  function WaiterRank(waiter: Waiter): nat {
    match waiter
    case NotStarted => 9
    case Looking => 8
    case Waiting => 7
    case Exited(_) => 6
    case ReadingFlags(_) => 5
    case NotifyingExit => 4
    case EmittingExit => 3
    case Closing(_) => 2
    case EmittingClosed(_) => 1
    case Returned => 0
  }

  function CloserRank(closer: Closer): nat {
    match closer
    case NoCloser => 3
    case AwaitingStreams => 2
    case ClosingRunner => 1
    case RunnerClosed => 0
  }

  function ReadersRank(readers: seq<Reader>): nat {
    if readers == [] then 0 else ReadersRank(readers[..|readers| - 1]) + ReaderRank(readers[|readers| - 1])
  }

  lemma {:induction false} RankAfterSet(readers: seq<Reader>, i: nat, reader: Reader)
    requires i < |readers|
    ensures ReadersRank(readers[i := reader]) == ReadersRank(readers) - ReaderRank(readers[i]) + ReaderRank(reader)
  {
    var front := readers[..|readers| - 1];
    if i == |readers| - 1 {
      assert readers[i := reader][..|readers| - 1] == front;
    } else {
      RankAfterSet(front, i, reader);
      assert readers[i := reader][..|readers| - 1] == front[i := reader];
    }
  }

  // A bound on the steps a session still has before its runner is closed.
  function Rank(s: Session): int {
    (if s.connector == EmittingConnected then 2 else if s.connector == Spawning then 1 else 0)
    + 5 * (s.streamCount - |s.readers|) + ReadersRank(s.readers) + WaiterRank(s.waiter) + CloserRank(s.closer)
  }

  predicate IsProgress(step: Step) {
    !step.ReaderData? && !step.DisconnectCalled?
  }

  lemma {:induction false} ReadersMakeProgress(s: Session, step: Step)
    requires Enabled(s, step)
    requires step.ReaderFails? || step.ReaderChecks? || step.ReaderLocks? || step.ReaderEmits?
    ensures Rank(Apply(s, step)) < Rank(s)
  {
    match step
    case ReaderFails(i, endOfFile) => RankAfterSet(s.readers, i, if endOfFile then Finished else SawError);
    case ReaderChecks(i) => RankAfterSet(s.readers, i, if s.entry.registered then Notifying else Finished);
    case ReaderLocks(i) => RankAfterSet(s.readers, i, if MarkErrorNotified(s.entry).0 then Emitting else Finished);
    case ReaderEmits(i) => RankAfterSet(s.readers, i, Finished);
  }

  lemma {:induction false} OthersMakeProgress(s: Session, step: Step)
    requires s.closer == NoCloser <==> s.waiter != Returned
    requires s.waiter == NotStarted <==> s.connector != Spawned
    requires Enabled(s, step) && IsProgress(step)
    requires !step.ReaderFails? && !step.ReaderChecks? && !step.ReaderLocks? && !step.ReaderEmits?
    ensures Rank(Apply(s, step)) < Rank(s)
  {
    if step.StartReader? {
      assert (s.readers + [Reading])[..|s.readers|] == s.readers;
    }
  }

  /** Every step but the delivery of data and a disconnect call brings the session nearer to its end. */
  lemma {:induction false} StepsMakeProgress(s: Session, step: Step)
    requires Inv(s) && Enabled(s, step) && IsProgress(step)
    ensures Rank(Apply(s, step)) < Rank(s)
  {
    if step.ReaderFails? || step.ReaderChecks? || step.ReaderLocks? || step.ReaderEmits? {
      ReadersMakeProgress(s, step);
    } else {
      OthersMakeProgress(s, step);
    }
  }

  // What the session does next, if its readers come to an end and its process exits.
  lemma {:induction false} SomethingCanHappen(s: Session) returns (step: Step)
    requires Inv(s) && s.closer != RunnerClosed
    ensures Enabled(s, step) && IsProgress(step)
  {
    if s.connector == EmittingConnected {
      step := EmitConnected;
    } else if s.connector == Spawning {
      step := if |s.readers| < s.streamCount then StartReader else StartWaiter;
    } else if s.waiter != Returned {
      step := match s.waiter
        case Looking => WaiterLooks
        case Waiting => WaiterExits(false)
        case Exited(_) => WaiterChecks
        case ReadingFlags(_) => WaiterReadsFlags
        case NotifyingExit => WaiterLocks
        case EmittingExit => WaiterEmitsError
        case Closing(_) => WaiterRemoves
        case _ => WaiterEmitsClosed;
    } else if s.closer == ClosingRunner {
      step := CloserCloses;
    } else if s.streams == 0 {
      step := CloserWakes;
    } else {
      var i := SomeActive(s.readers);
      step := match s.readers[i]
        case Reading => ReaderFails(i, true)
        case SawError => ReaderChecks(i)
        case Notifying => ReaderLocks(i)
        case _ => ReaderEmits(i);
    }
  }

  lemma {:induction false} SomeActive(readers: seq<Reader>) returns (i: nat)
    requires ActiveCount(readers) > 0
    ensures i < |readers| && readers[i] != Finished
  {
    if readers[|readers| - 1] != Finished {
      i := |readers| - 1;
    } else {
      i := SomeActive(readers[..|readers| - 1]);
    }
  }

  ghost predicate IsSessionRun(s: Session, steps: seq<Step>)
    decreases |steps|
  {
    steps == [] || (Enabled(s, steps[0]) && IsSessionRun(Apply(s, steps[0]), steps[1..]))
  }

  ghost function AfterSteps(s: Session, steps: seq<Step>): Session
    requires IsSessionRun(s, steps)
    decreases |steps|
  {
    if steps == [] then s else AfterSteps(Apply(s, steps[0]), steps[1..])
  }

  /** No interleaving can get stuck: from every reachable state the session can still end, with exactly one Closed. */
  lemma {:induction false} CanAlwaysFinish(s: Session) returns (steps: seq<Step>)
    requires Inv(s)
    ensures IsSessionRun(s, steps) && |steps| <= Rank(s)
    ensures AfterSteps(s, steps).closer == RunnerClosed && ClosedCount(AfterSteps(s, steps).events) == 1
    decreases Rank(s)
  {
    steps := [];
    if s.closer != RunnerClosed {
      var step := SomethingCanHappen(s);
      StepsMakeProgress(s, step);
      StepKeepsInv(s, step);
      var rest := CanAlwaysFinish(Apply(s, step));
      steps := [step] + rest;
      assert steps[1..] == rest;
    }
  }

  // ---------- what the events tell of a disconnect and of an exit ----------

  ghost predicate ClosedOnlyAs(events: seq<Event>, byClient: bool) {
    forall i :: 0 <= i < |events| && events[i].ClosedEvent? ==> events[i] == ClosedEvent(byClient)
  }

  lemma {:induction false} SomeClosed(events: seq<Event>) returns (i: nat)
    requires ClosedCount(events) > 0
    ensures i < |events| && events[i].ClosedEvent?
  {
    if events[|events| - 1].ClosedEvent? {
      i := |events| - 1;
    } else {
      i := SomeClosed(events[..|events| - 1]);
    }
  }

  lemma {:induction false} NoneClosed(events: seq<Event>)
    requires ClosedCount(events) == 0
    ensures forall i :: 0 <= i < |events| ==> !events[i].ClosedEvent?
  {
    if events != [] {
      NoneClosed(events[..|events| - 1]);
    }
  }

  lemma OneMoreClosed(events: seq<Event>, event: Event, byClient: bool)
    requires ClosedOnlyAs(events, byClient) && (event.ClosedEvent? ==> event == ClosedEvent(byClient))
    ensures ClosedOnlyAs(events + [event], byClient)
  {
    forall i | 0 <= i < |events + [event]| && (events + [event])[i].ClosedEvent?
      ensures (events + [event])[i] == ClosedEvent(byClient)
    {
      assert (events + [event])[i] == if i < |events| then events[i] else event;
    }
  }

  // The waiter has not read the flags yet.
  predicate BeforeFlags(waiter: Waiter) {
    waiter == NotStarted || waiter == Looking || waiter == Waiting || waiter.Exited? || waiter.ReadingFlags?
  }

  // The request was marked before the waiter read the flags, and it will not report the exit as an error.
  ghost predicate ClosesForClient(s: Session) {
    && s.entry.flags.disconnectRequested
    && (BeforeFlags(s.waiter) || s.waiter == Closing(true) || s.waiter == EmittingClosed(true) || s.waiter == Returned)
    && ClosedOnlyAs(s.events, true)
  }

  lemma {:induction false} StepClosesForClient(s: Session, step: Step)
    requires Inv(s) && ClosesForClient(s) && Enabled(s, step)
    ensures ClosesForClient(Apply(s, step))
  {
    OneMoreClosed(s.events, ConnectedEvent, true);
    OneMoreClosed(s.events, DataEvent, true);
    OneMoreClosed(s.events, ErrorEvent, true);
    OneMoreClosed(s.events, ClosedEvent(true), true);
  }

  lemma {:induction false} RunClosesForClient(s: Session, steps: seq<Step>)
    requires Inv(s) && ClosesForClient(s) && IsSessionRun(s, steps)
    ensures Inv(AfterSteps(s, steps)) && ClosesForClient(AfterSteps(s, steps))
    decreases |steps|
  {
    if steps != [] {
      StepKeepsInv(s, steps[0]);
      StepClosesForClient(s, steps[0]);
      RunClosesForClient(Apply(s, steps[0]), steps[1..]);
    }
  }

  /**
   A disconnect called before the waiter reads the flags suppresses the error of the exit: whatever happens later, the
   waiter never gets to report or emit one, and the Closed event, once it is out, is in the client's name.
   */
  lemma {:induction false} DisconnectSuppressesExitError(s: Session, steps: seq<Step>)
    requires Inv(s) && s.entry.registered
    requires s.waiter == NotStarted || s.waiter == Looking || s.waiter == Waiting || s.waiter.Exited? || s.waiter.ReadingFlags?
    requires IsSessionRun(s, [DisconnectCalled] + steps)
    ensures var after := AfterSteps(s, [DisconnectCalled] + steps);
            && after.waiter != NotifyingExit && after.waiter != EmittingExit
            && (forall i :: 0 <= i < |after.events| && after.events[i].ClosedEvent? ==> after.events[i] == ClosedEvent(true))
            && (after.waiter == Returned ==> exists i :: 0 <= i < |after.events| && after.events[i] == ClosedEvent(true))
  {
    var next := Apply(s, DisconnectCalled);
    assert ([DisconnectCalled] + steps)[1..] == steps;
    StepKeepsInv(s, DisconnectCalled);
    NoneClosed(s.events);
    RunClosesForClient(next, steps);
    var after := AfterSteps(next, steps);
    if after.waiter == Returned {
      var i := SomeClosed(after.events);
    }
  }

  // The waiter has read the flags without a request, and reports the exit first if it has a message.
  ghost predicate ClosesByItself(s: Session, hasMessage: bool) {
    && (s.waiter == Closing(false) || s.waiter == EmittingClosed(false) || s.waiter == Returned
        || (hasMessage && (s.waiter == NotifyingExit || s.waiter == EmittingExit)))
    && (hasMessage && s.waiter != NotifyingExit ==> s.entry.flags.errorNotified)
    && ClosedOnlyAs(s.events, false)
  }

  lemma {:induction false} StepClosesByItself(s: Session, step: Step, hasMessage: bool)
    requires Inv(s) && ClosesByItself(s, hasMessage) && Enabled(s, step)
    ensures ClosesByItself(Apply(s, step), hasMessage)
  {
    OneMoreClosed(s.events, DataEvent, false);
    OneMoreClosed(s.events, ErrorEvent, false);
    OneMoreClosed(s.events, ClosedEvent(false), false);
  }

  lemma {:induction false} RunClosesByItself(s: Session, steps: seq<Step>, hasMessage: bool)
    requires Inv(s) && ClosesByItself(s, hasMessage) && IsSessionRun(s, steps)
    ensures Inv(AfterSteps(s, steps)) && ClosesByItself(AfterSteps(s, steps), hasMessage)
    decreases |steps|
  {
    if steps != [] {
      StepKeepsInv(s, steps[0]);
      StepClosesByItself(s, steps[0], hasMessage);
      RunClosesByItself(Apply(s, steps[0]), steps[1..], hasMessage);
    }
  }

  /** The exit, with its message or without, reaches the reading of the flags. */
  lemma ExitReachesFlags(s: Session, hasMessage: bool)
    requires Inv(s) && s.waiter == Waiting
    ensures var exited := Apply(s, WaiterExits(hasMessage));
            && exited.entry.registered && exited.waiter.Exited?
            && Apply(exited, WaiterChecks).waiter == ReadingFlags(hasMessage)
  {
  }

  /**
   Without a request by the time the waiter reads the flags, the Closed event is not in the client's name; and if the exit
   has a message, an error has been marked before the session closes, and it is the one Error once nobody is about to
   emit it.
   */
  lemma {:induction false} ExitIsReported(s: Session, steps: seq<Step>)
    requires Inv(s) && s.entry.registered && s.waiter.ReadingFlags? && !s.entry.flags.disconnectRequested
    requires IsSessionRun(s, [WaiterReadsFlags] + steps)
    ensures var after := AfterSteps(s, [WaiterReadsFlags] + steps);
            && (forall i :: 0 <= i < |after.events| && after.events[i].ClosedEvent? ==> after.events[i] == ClosedEvent(false))
            && (after.waiter == Returned ==> exists i :: 0 <= i < |after.events| && after.events[i] == ClosedEvent(false))
            && (s.waiter.hasMessage && (after.waiter.Closing? || after.waiter.EmittingClosed? || after.waiter == Returned) ==>
                  && after.entry.flags.errorNotified
                  && ((forall i :: 0 <= i < |after.readers| ==> after.readers[i] != Emitting) ==> ErrorCount(after.events) == 1))
  {
    var next := Apply(s, WaiterReadsFlags);
    assert ([WaiterReadsFlags] + steps)[1..] == steps;
    NoneClosed(s.events);
    StepKeepsInv(s, WaiterReadsFlags);
    RunClosesByItself(next, steps, s.waiter.hasMessage);
    var after := AfterSteps(next, steps);
    if after.waiter == Returned {
      var i := SomeClosed(after.events);
    }
    if forall i :: 0 <= i < |after.readers| ==> after.readers[i] != Emitting {
      NoneEmitting(after.readers);
    }
  }

  lemma {:induction false} NoneEmitting(readers: seq<Reader>)
    requires forall i :: 0 <= i < |readers| ==> readers[i] != Emitting
    ensures EmittingCount(readers) == 0
  {
    if readers != [] {
      NoneEmitting(readers[..|readers| - 1]);
    }
  }

  lemma {:induction false} MarkStays(s: Session, steps: seq<Step>)
    requires IsSessionRun(s, steps) && s.entry.flags.errorNotified
    ensures AfterSteps(s, steps).entry.flags.errorNotified
    decreases |steps|
  {
    if steps != [] {
      MarkStays(Apply(s, steps[0]), steps[1..]);
    }
  }

  /**
   A reader whose read fails while the session is in the table goes on to report it; if the session is still there when it
   takes the lock, an error is marked for good, and it has come out once nobody is about to emit it. A reader at the end
   of its stream reports nothing.
   */
  lemma {:induction false} ReadFailureIsReported(s: Session, i: nat, steps: seq<Step>)
    requires Inv(s) && s.entry.registered && i < |s.readers|
    requires s.readers[i] == Notifying && IsSessionRun(s, [ReaderLocks(i)] + steps)
    ensures var after := AfterSteps(s, [ReaderLocks(i)] + steps);
            && after.entry.flags.errorNotified
            && (after.waiter != EmittingExit && (forall k :: 0 <= k < |after.readers| ==> after.readers[k] != Emitting) ==>
                  ErrorCount(after.events) == 1)
  {
    var next := Apply(s, ReaderLocks(i));
    assert ([ReaderLocks(i)] + steps)[1..] == steps;
    StepKeepsInv(s, ReaderLocks(i));
    MarkStays(next, steps);
    InvAfterSteps(next, steps);
    var after := AfterSteps(next, steps);
    if forall k :: 0 <= k < |after.readers| ==> after.readers[k] != Emitting {
      NoneEmitting(after.readers);
    }
  }

  lemma {:induction false} InvAfterSteps(s: Session, steps: seq<Step>)
    requires Inv(s) && IsSessionRun(s, steps)
    ensures Inv(AfterSteps(s, steps))
    decreases |steps|
  {
    if steps != [] {
      StepKeepsInv(s, steps[0]);
      InvAfterSteps(Apply(s, steps[0]), steps[1..]);
    }
  }

  /** What a reader does next when its read fails: end of file ends it, and anything else is looked into. */
  lemma ReaderAfterFailure(s: Session, i: nat, endOfFile: bool)
    requires Inv(s) && i < |s.readers| && s.readers[i] == Reading
    ensures var after := Apply(s, ReaderFails(i, endOfFile));
            && after.readers[i] == (if endOfFile then Finished else SawError) && after.events == s.events
            && (!endOfFile ==> Apply(after, ReaderChecks(i)).readers[i] == if s.entry.registered then Notifying else Finished)
  {
  }

  // ---------- what is not promised ----------

  lemma StepBefore(s: Session, step: Step, next: Session, rest: seq<Step>)
    requires Enabled(s, step) && Apply(s, step) == next && IsSessionRun(next, rest)
    ensures IsSessionRun(s, [step] + rest) && AfterSteps(s, [step] + rest) == AfterSteps(next, rest)
  {
    assert ([step] + rest)[1..] == rest;
  }

  // A session whose only reader has marked its error but not yet emitted it.
  function BeforeError(registered: bool, waiter: Waiter, closer: Closer, events: seq<Event>): Session {
    Session(Entry(registered, Flags(false, true)), Spawned, 1, [Emitting], 1, waiter, closer, events)
  }

  function AfterError(): Session {
    Session(Entry(false, Flags(false, true)), Spawned, 1, [Finished], 0, Returned, AwaitingStreams,
            [ConnectedEvent, ClosedEvent(false), ErrorEvent])
  }

  lemma {:induction false} ErrorAfterRemoval() returns (steps: seq<Step>)
    ensures IsSessionRun(BeforeError(false, EmittingClosed(false), NoCloser, [ConnectedEvent]), steps)
    ensures AfterSteps(BeforeError(false, EmittingClosed(false), NoCloser, [ConnectedEvent]), steps) == AfterError()
  {
    var closed := BeforeError(false, Returned, AwaitingStreams, [ConnectedEvent, ClosedEvent(false)]);
    StepBefore(closed, ReaderEmits(0), AfterError(), []);
    steps := [ReaderEmits(0)] + [];
    StepBefore(BeforeError(false, EmittingClosed(false), NoCloser, [ConnectedEvent]), WaiterEmitsClosed, closed, steps);
    steps := [WaiterEmitsClosed] + steps;
  }

  lemma {:induction false} RemovalThenError() returns (steps: seq<Step>)
    ensures IsSessionRun(BeforeError(true, ReadingFlags(false), NoCloser, [ConnectedEvent]), steps)
    ensures AfterSteps(BeforeError(true, ReadingFlags(false), NoCloser, [ConnectedEvent]), steps) == AfterError()
  {
    var c := [ConnectedEvent];
    steps := ErrorAfterRemoval();
    StepBefore(BeforeError(true, Closing(false), NoCloser, c), WaiterRemoves,
               BeforeError(false, EmittingClosed(false), NoCloser, c), steps);
    steps := [WaiterRemoves] + steps;
    StepBefore(BeforeError(true, ReadingFlags(false), NoCloser, c), WaiterReadsFlags,
               BeforeError(true, Closing(false), NoCloser, c), steps);
    steps := [WaiterReadsFlags] + steps;
  }

  lemma {:induction false} ExitThenError() returns (steps: seq<Step>)
    ensures IsSessionRun(BeforeError(true, Waiting, NoCloser, [ConnectedEvent]), steps)
    ensures AfterSteps(BeforeError(true, Waiting, NoCloser, [ConnectedEvent]), steps) == AfterError()
  {
    var c := [ConnectedEvent];
    steps := RemovalThenError();
    StepBefore(BeforeError(true, Exited(false), NoCloser, c), WaiterChecks, BeforeError(true, ReadingFlags(false), NoCloser, c), steps);
    steps := [WaiterChecks] + steps;
    StepBefore(BeforeError(true, Waiting, NoCloser, c), WaiterExits(false), BeforeError(true, Exited(false), NoCloser, c), steps);
    steps := [WaiterExits(false)] + steps;
  }

  // A quiet session with one reader.
  function Quiet(connector: Connector, readers: seq<Reader>, waiter: Waiter): Session {
    Session(Entry(true, NO_FLAGS), connector, 1, readers, |readers|, waiter, NoCloser, [ConnectedEvent])
  }

  lemma {:induction false} FailureThenError() returns (steps: seq<Step>)
    ensures IsSessionRun(Quiet(Spawned, [Reading], Waiting), steps)
    ensures AfterSteps(Quiet(Spawned, [Reading], Waiting), steps) == AfterError()
  {
    steps := ExitThenError();
    StepBefore(Quiet(Spawned, [Notifying], Waiting), ReaderLocks(0), BeforeError(true, Waiting, NoCloser, [ConnectedEvent]), steps);
    steps := [ReaderLocks(0)] + steps;
    StepBefore(Quiet(Spawned, [SawError], Waiting), ReaderChecks(0), Quiet(Spawned, [Notifying], Waiting), steps);
    steps := [ReaderChecks(0)] + steps;
    StepBefore(Quiet(Spawned, [Reading], Waiting), ReaderFails(0, false), Quiet(Spawned, [SawError], Waiting), steps);
    steps := [ReaderFails(0, false)] + steps;
  }

  lemma {:induction false} SpawnThenError() returns (steps: seq<Step>)
    ensures IsSessionRun(Quiet(Spawning, [Reading], NotStarted), steps)
    ensures AfterSteps(Quiet(Spawning, [Reading], NotStarted), steps) == AfterError()
  {
    steps := FailureThenError();
    StepBefore(Quiet(Spawned, [Reading], Looking), WaiterLooks, Quiet(Spawned, [Reading], Waiting), steps);
    steps := [WaiterLooks] + steps;
    StepBefore(Quiet(Spawning, [Reading], NotStarted), StartWaiter, Quiet(Spawned, [Reading], Looking), steps);
    steps := [StartWaiter] + steps;
  }

  /** Events are emitted outside the lock, so an Error marked before the session is removed can come out after Closed. */
  lemma {:induction false} ErrorCanFollowClosed() returns (steps: seq<Step>)
    ensures IsSessionRun(NewSession(1), steps)
    ensures AfterSteps(NewSession(1), steps).events == [ConnectedEvent, ClosedEvent(false), ErrorEvent]
  {
    steps := SpawnThenError();
    StepBefore(Quiet(Spawning, [], NotStarted), StartReader, Quiet(Spawning, [Reading], NotStarted), steps);
    steps := [StartReader] + steps;
    StepBefore(NewSession(1), EmitConnected, Quiet(Spawning, [], NotStarted), steps);
    steps := [EmitConnected] + steps;
  }

  lemma {:induction false} StepKeepsMark(s: Session, step: Step)
    requires !s.entry.registered && Enabled(s, step)
    ensures Apply(s, step).entry == s.entry
  {
  }

  // Once the session is out of the table nobody can mark the error any more.
  lemma {:induction false} UnregisteredKeepsMark(s: Session, steps: seq<Step>)
    requires Inv(s) && !s.entry.registered && IsSessionRun(s, steps)
    ensures Inv(AfterSteps(s, steps))
    ensures AfterSteps(s, steps).entry.flags.errorNotified == s.entry.flags.errorNotified
    decreases |steps|
  {
    if steps != [] {
      StepKeepsInv(s, steps[0]);
      StepKeepsMark(s, steps[0]);
      UnregisteredKeepsMark(Apply(s, steps[0]), steps[1..]);
    }
  }

  lemma {:induction false} SomeEmitting(readers: seq<Reader>) returns (i: nat)
    requires EmittingCount(readers) > 0
    ensures i < |readers| && readers[i] == Emitting
  {
    if readers[|readers| - 1] == Emitting {
      i := |readers| - 1;
    } else {
      i := SomeEmitting(readers[..|readers| - 1]);
    }
  }

  ghost predicate CanStillFail(s: Session) {
    exists steps :: IsSessionRun(s, steps) && ErrorCount(AfterSteps(s, steps).events) > ErrorCount(s.events)
  }

  /** After Closed, an Error can still come out exactly when some reader had marked it before the session was removed. */
  lemma {:induction false} LateErrorIffMarked(s: Session)
    requires Inv(s) && ClosedCount(s.events) == 1
    ensures CanStillFail(s) <==> exists i :: 0 <= i < |s.readers| && s.readers[i] == Emitting
  {
    if CanStillFail(s) {
      var steps :| IsSessionRun(s, steps) && ErrorCount(AfterSteps(s, steps).events) > ErrorCount(s.events);
      UnregisteredKeepsMark(s, steps);
      var i := SomeEmitting(s.readers);
    }
    if i :| 0 <= i < |s.readers| && s.readers[i] == Emitting {
      var next := Apply(s, ReaderEmits(i));
      StepBefore(s, ReaderEmits(i), next, []);
      CountsAfterEmit(s.events, ErrorEvent);
      var steps := [ReaderEmits(i)] + [];
      assert IsSessionRun(s, steps) && ErrorCount(AfterSteps(s, steps).events) > ErrorCount(s.events);
    }
  }

  // ---------- output is passed on ----------

  function DataCount(events: seq<Event>): nat {
    if events == [] then 0 else DataCount(events[..|events| - 1]) + if events[|events| - 1].DataEvent? then 1 else 0
  }

  // How often a reader has read data.
  function ReadCount(steps: seq<Step>): nat {
    if steps == [] then 0 else (if steps[0].ReaderData? then 1 else 0) + ReadCount(steps[1..])
  }

  lemma {:induction false} DataAfterEmit(events: seq<Event>, event: Event)
    ensures DataCount(events + [event]) == DataCount(events) + if event.DataEvent? then 1 else 0
  {
    assert (events + [event])[..|events|] == events;
  }

  lemma {:induction false} StepPassesDataOn(s: Session, step: Step)
    requires Enabled(s, step)
    ensures DataCount(Apply(s, step).events) == DataCount(s.events) + if step.ReaderData? then 1 else 0
  {
    match step
    case EmitConnected => DataAfterEmit(s.events, ConnectedEvent);
    case ReaderData(i) => DataAfterEmit(s.events, DataEvent);
    case ReaderEmits(i) => DataAfterEmit(s.events, ErrorEvent);
    case WaiterEmitsError => DataAfterEmit(s.events, ErrorEvent);
    case WaiterEmitsClosed => DataAfterEmit(s.events, ClosedEvent(s.waiter.byClient));
    case _ =>
  }

  /** Every piece of data read is emitted, once, and no other. */
  lemma {:induction false} EveryReadIsEmitted(s: Session, steps: seq<Step>)
    requires IsSessionRun(s, steps)
    ensures DataCount(AfterSteps(s, steps).events) == DataCount(s.events) + ReadCount(steps)
    decreases |steps|
  {
    if steps != [] {
      StepPassesDataOn(s, steps[0]);
      EveryReadIsEmitted(Apply(s, steps[0]), steps[1..]);
    }
  }
}

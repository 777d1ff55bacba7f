/**
 Terminal sizes in the core manager: the size each session should have, the size last sent for it, and the pump that
 sends a resize when a connected tab's desired size differs from the sent one.
 */
module ResizePump {
  import opened Wrappers

  type SessionId = string

  datatype Size = Size(cols: int, rows: int)

  datatype TabStatus = Connecting | Connected | Error

  // What goes out on the core's standard input and, in between, the calls of disconnect.
  datatype Entry =
    | ResizeSent(session: SessionId, size: Size, toConnected: bool)
    | DisconnectCalled(session: SessionId)
    | OtherSent(session: SessionId)

  datatype Manager = Manager(
    running: bool,                      // the core process exists
    tabs: map<SessionId, TabStatus>,
    desired: map<SessionId, Size>,
    sent: map<SessionId, Size>,
    log: seq<Entry>,                    // history
    issued: set<SessionId>,             // history: every session id handed out so far
    threw: bool)                        // history: something was sent while no process was running

  const NEW_MANAGER := Manager(false, map[], map[], map[], [], {}, false)

  // ---------- the operations ----------

  function Send(m: Manager, entry: Entry): Manager {
    if m.running then m.(log := m.log + [entry]) else m.(threw := true)
  }

  predicate IsConnected(m: Manager, session: SessionId) {
    session in m.tabs && m.tabs[session] == Connected
  }

  function FlushResizeIfReady(m: Manager, session: SessionId): Manager {
    if !IsConnected(m, session) || session !in m.desired then m
    else if session in m.sent && m.sent[session] == m.desired[session] then m
    else
      Send(m.(sent := m.sent[session := m.desired[session]]), ResizeSent(session, m.desired[session], IsConnected(m, session)))
  }

  function Resize(m: Manager, session: SessionId, cols: int, rows: int): Manager {
    if session !in m.tabs || cols <= 0 || rows <= 0 then m
    else FlushResizeIfReady(m.(desired := m.desired[session := Size(cols, rows)]), session)
  }

  function Disconnect(m: Manager, session: SessionId): Manager {
    var cleared := m.(desired := m.desired - {session}, sent := m.sent - {session}, log := m.log + [DisconnectCalled(session)]);
    if session !in m.tabs then cleared
    else if !m.running || m.tabs[session] != Connected then cleared.(tabs := m.tabs - {session})
    else Send(cleared, OtherSent(session))
  }

  // start() and the synchronous rest of connect(), with a newly drawn id.
  function Connect(m: Manager, session: SessionId): Manager {
    Send(m.(running := true, tabs := m.tabs[session := Connecting], issued := m.issued + {session}), OtherSent(session))
  }

  datatype EventType = ConnectedEvent | ErrorEvent | ClosedEvent | OtherEvent

  // The session part of handleControlEvent.
  function HandleEvent(m: Manager, session: SessionId, event: EventType): Manager {
    if session !in m.tabs then m
    else if event == ClosedEvent then
      m.(tabs := m.tabs - {session}, desired := m.desired - {session}, sent := m.sent - {session})
    else
      var status := if event == ConnectedEvent then Connected else if event == ErrorEvent then Error else m.tabs[session];
      var updated := m.(tabs := m.tabs[session := status]);
      if event == ConnectedEvent then FlushResizeIfReady(updated, session) else updated
  }

  // The process has exited, or shutdown finds none: clearRuntimeState.
  function Stop(m: Manager): Manager {
    m.(running := false, tabs := map[], desired := map[], sent := map[])
  }

  class CoreManager {
    var running: bool
    var tabs: map<SessionId, TabStatus>
    var desiredResizeBySession: map<SessionId, Size>
    var sentResizeBySession: map<SessionId, Size>
    ghost var log: seq<Entry>
    ghost var issued: set<SessionId>
    ghost var threw: bool

    constructor ()
      ensures Abs() == NEW_MANAGER
    {
      running, tabs, desiredResizeBySession, sentResizeBySession := false, map[], map[], map[];
      log, issued, threw := [], {}, false;
    }

    ghost function Abs(): Manager
      reads this
    {
      Manager(running, tabs, desiredResizeBySession, sentResizeBySession, log, issued, threw)
    }

    method SendControl(ghost entry: Entry)
      modifies this
      ensures Abs() == Send(old(Abs()), entry)
    {
      if !running {
        threw := true;
        return;
      }
      log := log + [entry];
    }

    method Flush(session: SessionId)
      modifies this
      ensures Abs() == FlushResizeIfReady(old(Abs()), session)
    {
      if session !in tabs || tabs[session] != Connected {
        return;
      }
      if session !in desiredResizeBySession {
        return;
      }
      var desiredSize := desiredResizeBySession[session];
      if session in sentResizeBySession && sentResizeBySession[session].cols == desiredSize.cols
         && sentResizeBySession[session].rows == desiredSize.rows {
        return;
      }
      sentResizeBySession := sentResizeBySession[session := desiredSize];
      SendControl(ResizeSent(session, desiredSize, true));
    }

    method ResizeSession(session: SessionId, cols: int, rows: int)
      modifies this
      ensures Abs() == Resize(old(Abs()), session, cols, rows)
    {
      if session !in tabs {
        return;
      }
      if cols <= 0 || rows <= 0 {
        return;
      }
      var nextSize := Size(cols, rows);
      if session in desiredResizeBySession && desiredResizeBySession[session].cols == cols
         && desiredResizeBySession[session].rows == rows {
        assert desiredResizeBySession == desiredResizeBySession[session := nextSize];
        Flush(session);
        return;
      }
      desiredResizeBySession := desiredResizeBySession[session := nextSize];
      Flush(session);
    }

    method DisconnectSession(session: SessionId)
      modifies this
      ensures Abs() == Disconnect(old(Abs()), session)
    {
      log := log + [DisconnectCalled(session)];
      desiredResizeBySession := desiredResizeBySession - {session};
      sentResizeBySession := sentResizeBySession - {session};
      if session !in tabs {
        return;
      }
      if !running || tabs[session] != Connected {
        tabs := tabs - {session};
        return;
      }
      SendControl(OtherSent(session));
    }

    method ConnectSession(session: SessionId)
      modifies this
      ensures Abs() == Connect(old(Abs()), session)
    {
      running := true;
      tabs := tabs[session := Connecting];
      issued := issued + {session};
      SendControl(OtherSent(session));
    }

    method HandleControlEvent(session: SessionId, event: EventType)
      modifies this
      ensures Abs() == HandleEvent(old(Abs()), session, event)
    {
      if session !in tabs {
        return;
      }
      var existing := tabs[session];
      if event == ClosedEvent {
        tabs := tabs - {session};
        desiredResizeBySession := desiredResizeBySession - {session};
        sentResizeBySession := sentResizeBySession - {session};
        return;
      }
      var nextStatus := if event == ConnectedEvent then Connected else if event == ErrorEvent then Error else existing;
      tabs := tabs[session := nextStatus];
      if event == ConnectedEvent {
        Flush(session);
      }
    }

    method ClearRuntimeState()
      modifies this
      ensures Abs() == Stop(old(Abs()))
    {
      tabs := map[];
      desiredResizeBySession := map[];
      sentResizeBySession := map[];
      running := false;
    }
  }

  // ---------- the size the core has last been told ----------

  // The last size sent for the session since disconnect was last called for it.
  function LastSize(log: seq<Entry>, session: SessionId): Option<Size> {
    if log == [] then None
    else
      var last := log[|log| - 1];
      if last.ResizeSent? && last.session == session then Some(last.size)
      else if last == DisconnectCalled(session) then None
      else LastSize(log[..|log| - 1], session)
  }

  predicate Concerns(entry: Entry, session: SessionId) {
    entry.session == session && !entry.OtherSent?
  }

  lemma {:induction false} LastSizeAfter(log: seq<Entry>, entry: Entry, session: SessionId)
    ensures LastSize(log + [entry], session)
         == if !Concerns(entry, session) then LastSize(log, session) else if entry.ResizeSent? then Some(entry.size) else None
  {
    assert (log + [entry])[..|log|] == log;
  }

  lemma {:induction false} LastSizeIs(log: seq<Entry>, i: nat, session: SessionId)
    requires i < |log| && log[i].ResizeSent? && log[i].session == session
    requires forall k :: i < k < |log| ==> !Concerns(log[k], session)
    ensures LastSize(log, session) == Some(log[i].size)
  {
    if i < |log| - 1 {
      assert !Concerns(log[|log| - 1], session);
      LastSizeIs(log[..|log| - 1], i, session);
    }
  }

  // ---------- the invariant ----------

  // Every resize sent is positive, goes to a connected tab and tells the core something new.
  ghost predicate GoodEntry(log: seq<Entry>, i: nat)
    requires i < |log|
  {
    log[i].ResizeSent? ==>
      && log[i].size.cols > 0 && log[i].size.rows > 0 && log[i].toConnected
      && LastSize(log[..i], log[i].session) != Some(log[i].size)
  }

  ghost predicate Inv(m: Manager) {
    && !m.threw
    && (!m.running ==> m.tabs == map[])
    && m.sent.Keys <= m.desired.Keys <= m.tabs.Keys <= m.issued
    && (forall s :: s in m.desired ==> m.desired[s].cols > 0 && m.desired[s].rows > 0)
    && (forall s :: IsConnected(m, s) && s in m.desired ==> s in m.sent && m.sent[s] == m.desired[s])
    && (forall s :: s in m.tabs ==> LastSize(m.log, s) == if s in m.sent then Some(m.sent[s]) else None)
    && (forall i :: 0 <= i < |m.log| && m.log[i].ResizeSent? ==> m.log[i].session in m.issued)
    && (forall i :: 0 <= i < |m.log| ==> GoodEntry(m.log, i))
  }

  // Everything but the agreement of sent and desired sizes for one session.
  ghost predicate AlmostInv(m: Manager, session: SessionId) {
    && !m.threw
    && (!m.running ==> m.tabs == map[])
    && m.sent.Keys <= m.desired.Keys <= m.tabs.Keys <= m.issued
    && (forall s :: s in m.desired ==> m.desired[s].cols > 0 && m.desired[s].rows > 0)
    && (forall s :: s != session && IsConnected(m, s) && s in m.desired ==> s in m.sent && m.sent[s] == m.desired[s])
    && (forall s :: s in m.tabs ==> LastSize(m.log, s) == if s in m.sent then Some(m.sent[s]) else None)
    && (forall i :: 0 <= i < |m.log| && m.log[i].ResizeSent? ==> m.log[i].session in m.issued)
    && (forall i :: 0 <= i < |m.log| ==> GoodEntry(m.log, i))
  }

  lemma {:induction false} LogGrows(log: seq<Entry>, entry: Entry)
    requires forall i :: 0 <= i < |log| ==> GoodEntry(log, i)
    requires entry.ResizeSent? ==>
               entry.size.cols > 0 && entry.size.rows > 0 && entry.toConnected && LastSize(log, entry.session) != Some(entry.size)
    ensures forall i :: 0 <= i < |log + [entry]| ==> GoodEntry(log + [entry], i)
    ensures forall s :: LastSize(log + [entry], s)
                      == if !Concerns(entry, s) then LastSize(log, s) else if entry.ResizeSent? then Some(entry.size) else None
  {
    var longer := log + [entry];
    forall i | 0 <= i < |longer| ensures GoodEntry(longer, i) {
      if i < |log| {
        assert GoodEntry(log, i) && longer[..i] == log[..i];
      } else {
        assert longer[..i] == log;
      }
    }
    forall s ensures LastSize(longer, s)
                   == if !Concerns(entry, s) then LastSize(log, s) else if entry.ResizeSent? then Some(entry.size) else None
    {
      LastSizeAfter(log, entry, s);
    }
  }

  lemma {:induction false} FlushKeepsInv(m: Manager, session: SessionId)
    requires AlmostInv(m, session)
    ensures Inv(FlushResizeIfReady(m, session))
  {
    if IsConnected(m, session) && session in m.desired {
      if !(session in m.sent && m.sent[session] == m.desired[session]) {
        LogGrows(m.log, ResizeSent(session, m.desired[session], true));
      }
    }
  }

  // Both sizes are forgotten and the call is noted.
  function Cleared(m: Manager, session: SessionId): Manager {
    m.(desired := m.desired - {session}, sent := m.sent - {session}, log := m.log + [DisconnectCalled(session)])
  }

  lemma {:induction false} ClearedKeepsInv(m: Manager, session: SessionId)
    requires Inv(m)
    ensures Inv(Cleared(m, session))
  {
    LogGrows(m.log, DisconnectCalled(session));
    assert (m.desired - {session}).Keys == m.desired.Keys - {session};
    assert (m.sent - {session}).Keys == m.sent.Keys - {session};
  }

  lemma {:induction false} DroppedTabKeepsInv(m: Manager, session: SessionId)
    requires Inv(m) && session !in m.desired
    ensures Inv(m.(tabs := m.tabs - {session}))
  {
    assert (m.tabs - {session}).Keys == m.tabs.Keys - {session};
    assert m.tabs == map[] ==> m.tabs - {session} == map[];
  }

  lemma {:induction false} OtherSentKeepsInv(m: Manager, session: SessionId)
    requires Inv(m) && m.running
    ensures Inv(Send(m, OtherSent(session)))
  {
    LogGrows(m.log, OtherSent(session));
  }

  lemma {:induction false} DisconnectKeepsInv(m: Manager, session: SessionId)
    requires Inv(m)
    ensures Inv(Disconnect(m, session))
  {
    var cleared := Cleared(m, session);
    ClearedKeepsInv(m, session);
    if session in m.tabs {
      if !m.running || m.tabs[session] != Connected {
        DroppedTabKeepsInv(cleared, session);
      } else {
        OtherSentKeepsInv(cleared, session);
      }
    }
  }

  lemma {:induction false} UnknownIdHasNoSize(log: seq<Entry>, session: SessionId)
    requires forall i :: 0 <= i < |log| && log[i].ResizeSent? ==> log[i].session != session
    ensures LastSize(log, session) == None
  {
    if log != [] {
      UnknownIdHasNoSize(log[..|log| - 1], session);
    }
  }

  lemma {:induction false} ConnectKeepsInv(m: Manager, session: SessionId)
    requires Inv(m) && session !in m.issued
    ensures Inv(Connect(m, session))
  {
    UnknownIdHasNoSize(m.log, session);
    LogGrows(m.log, OtherSent(session));
  }

  lemma {:induction false} EventKeepsInv(m: Manager, session: SessionId, event: EventType)
    requires Inv(m)
    ensures Inv(HandleEvent(m, session, event))
  {
    if session in m.tabs && event == ConnectedEvent {
      FlushKeepsInv(m.(tabs := m.tabs[session := Connected]), session);
    }
  }

  lemma {:induction false} ResizeKeepsInv(m: Manager, session: SessionId, cols: int, rows: int)
    requires Inv(m)
    ensures Inv(Resize(m, session, cols, rows))
  {
    if session in m.tabs && cols > 0 && rows > 0 {
      FlushKeepsInv(m.(desired := m.desired[session := Size(cols, rows)]), session);
    }
  }

  // ---------- runs ----------

  datatype Step =
    | DoConnect(session: SessionId)
    | DoResize(session: SessionId, cols: int, rows: int)
    | DoDisconnect(session: SessionId)
    | DoEvent(session: SessionId, event: EventType)
    | DoStop

  function Apply(m: Manager, step: Step): Manager {
    match step
    case DoConnect(session) => Connect(m, session)
    case DoResize(session, cols, rows) => Resize(m, session, cols, rows)
    case DoDisconnect(session) => Disconnect(m, session)
    case DoEvent(session, event) => HandleEvent(m, session, event)
    case DoStop => Stop(m)
  }

  function Run(steps: seq<Step>): Manager {
    if steps == [] then NEW_MANAGER else Apply(Run(steps[..|steps| - 1]), steps[|steps| - 1])
  }

  // Session ids are drawn at random: none is issued twice.
  ghost predicate FreshIds(steps: seq<Step>) {
    steps == [] ||
    (&& FreshIds(steps[..|steps| - 1])
     && (steps[|steps| - 1].DoConnect? ==> steps[|steps| - 1].session !in Run(steps[..|steps| - 1]).issued))
  }

  lemma {:induction false} RunKeepsInv(steps: seq<Step>)
    requires FreshIds(steps)
    ensures Inv(Run(steps))
  {
    if steps != [] {
      var m := Run(steps[..|steps| - 1]);
      RunKeepsInv(steps[..|steps| - 1]);
      match steps[|steps| - 1]
      case DoConnect(session) => ConnectKeepsInv(m, session);
      case DoResize(session, cols, rows) => ResizeKeepsInv(m, session, cols, rows);
      case DoDisconnect(session) => DisconnectKeepsInv(m, session);
      case DoEvent(session, event) => EventKeepsInv(m, session, event);
      case DoStop =>
    }
  }

  /**
   In every reachable state sent sizes are kept only for sessions with a desired size, and those only for tabs; a
   connected tab with a desired size has been sent that very size, and the core was never written to while it was down.
   */
  lemma {:induction false} SizesAreConsistent(steps: seq<Step>)
    requires FreshIds(steps)
    ensures var m := Run(steps);
            && !m.threw
            && m.sent.Keys <= m.desired.Keys <= m.tabs.Keys
            && (forall s :: IsConnected(m, s) && s in m.desired ==>
                  s in m.sent && m.sent[s] == m.desired[s] && LastSize(m.log, s) == Some(m.desired[s]))
  {
    RunKeepsInv(steps);
  }

  /**
   On the wire, every resize is positive and goes to a connected tab, and two resizes of one session with no other
   resize of it and no call of disconnect between them have different sizes.
   */
  lemma {:induction false} WireNeverRepeats(steps: seq<Step>)
    requires FreshIds(steps)
    ensures var log := Run(steps).log;
            && (forall i :: 0 <= i < |log| && log[i].ResizeSent? ==>
                  log[i].size.cols > 0 && log[i].size.rows > 0 && log[i].toConnected)
            && (forall i, j :: 0 <= i < j < |log| && log[i].ResizeSent? && log[j].ResizeSent? && log[i].session == log[j].session
                              && (forall k :: i < k < j ==> !Concerns(log[k], log[j].session))
                  ==> log[i].size != log[j].size)
  {
    var log := Run(steps).log;
    RunKeepsInv(steps);
    forall i | 0 <= i < |log| && log[i].ResizeSent?
      ensures log[i].size.cols > 0 && log[i].size.rows > 0 && log[i].toConnected
    {
      assert GoodEntry(log, i);
    }
    forall i, j | 0 <= i < j < |log| && log[i].ResizeSent? && log[j].ResizeSent? && log[i].session == log[j].session
                  && (forall k :: i < k < j ==> !Concerns(log[k], log[j].session))
      ensures log[i].size != log[j].size
    {
      LastSizeIs(log[..j], i, log[j].session);
      assert GoodEntry(log, j);
    }
  }

  /** While a tab is connecting, resizes only pile up; when it connects, just the last valid one is sent. */
  lemma {:induction false} LatestSizeIsSentOnConnect(m: Manager, session: SessionId, sizes: seq<Size>)
    requires Inv(m) && session in m.tabs && m.tabs[session] == Connecting && session !in m.desired
    requires sizes != [] && forall i :: 0 <= i < |sizes| ==> sizes[i].cols > 0 && sizes[i].rows > 0
    ensures var resized := ResizeAll(m, session, sizes);
            && resized.log == m.log
            && HandleEvent(resized, session, ConnectedEvent).log == m.log + [ResizeSent(session, sizes[|sizes| - 1], true)]
  {
    ResizesPileUp(m, session, sizes);
  }

  function ResizeAll(m: Manager, session: SessionId, sizes: seq<Size>): Manager {
    if sizes == [] then m
    else
      var last := sizes[|sizes| - 1];
      Resize(ResizeAll(m, session, sizes[..|sizes| - 1]), session, last.cols, last.rows)
  }

  lemma {:induction false} ResizesPileUp(m: Manager, session: SessionId, sizes: seq<Size>)
    requires session in m.tabs && m.tabs[session] == Connecting
    requires forall i :: 0 <= i < |sizes| ==> sizes[i].cols > 0 && sizes[i].rows > 0
    ensures ResizeAll(m, session, sizes)
         == if sizes == [] then m else m.(desired := m.desired[session := sizes[|sizes| - 1]])
  {
    if sizes != [] {
      ResizesPileUp(m, session, sizes[..|sizes| - 1]);
    }
  }

  // ---------- what each call does for one session ----------

  /**
   A valid resize of a tab is remembered. If the tab is connected, the core has then been told that size, in one more
   message if it had been told another; if not, nothing is sent.
   */
  lemma {:induction false} ResizeReachesCore(m: Manager, session: SessionId, cols: int, rows: int)
    requires Inv(m) && session in m.tabs && cols > 0 && rows > 0
    ensures var after := Resize(m, session, cols, rows);
            && after.desired == m.desired[session := Size(cols, rows)] && after.tabs == m.tabs
            && (m.tabs[session] == Connected ==>
                  && LastSize(after.log, session) == Some(Size(cols, rows))
                  && after.log == m.log + if LastSize(m.log, session) == Some(Size(cols, rows)) then []
                                          else [ResizeSent(session, Size(cols, rows), true)])
            && (m.tabs[session] != Connected ==> after.log == m.log)
  {
    LastSizeAfter(m.log, ResizeSent(session, Size(cols, rows), true), session);
    assert m.log + [] == m.log;
  }

  /** A resize of an unknown tab, or to a size that is not positive, changes nothing. */
  lemma {:induction false} OtherResizesAreIgnored(m: Manager, session: SessionId, cols: int, rows: int)
    ensures session !in m.tabs || cols < 1 || rows < 1 ==> Resize(m, session, cols, rows) == m
  {
  }

  /**
   Disconnecting forgets both sizes. A connected tab stays until the core reports it closed, and the core is told; any
   other is dropped at once.
   */
  lemma {:induction false} DisconnectForgets(m: Manager, session: SessionId)
    requires Inv(m)
    ensures var after := Disconnect(m, session);
            && LastSize(after.log, session) == None
            && after.desired == m.desired - {session} && after.sent == m.sent - {session}
            && if IsConnected(m, session)
               then after.tabs == m.tabs && after.log == m.log + [DisconnectCalled(session), OtherSent(session)]
               else after.tabs == m.tabs - {session} && after.log == m.log + [DisconnectCalled(session)]
  {
    LastSizeAfter(m.log, DisconnectCalled(session), session);
    LastSizeAfter(m.log + [DisconnectCalled(session)], OtherSent(session), session);
    assert m.log + [DisconnectCalled(session)] + [OtherSent(session)] == m.log + [DisconnectCalled(session), OtherSent(session)];
    assert session !in m.tabs ==> m.tabs - {session} == m.tabs;
  }

  /**
   The status of a tab follows the events of its session and nothing else: connecting at first, connected or in error
   as the core reports, and gone once it is closed, disconnected before it was connected, or the core has stopped.
   */
  lemma {:induction false} TabFollowsEvents(m: Manager, step: Step, session: SessionId)
    requires Inv(m)
    ensures var after := Apply(m, step).tabs;
            var known := session in m.tabs;
            var kept := if known then Some(m.tabs[session]) else None;
            (if session in after then Some(after[session]) else None)
            == match step
               case DoConnect(s) => if s == session then Some(Connecting) else kept
               case DoResize(_, _, _) => kept
               case DoDisconnect(s) => if s == session && kept != Some(Connected) then None else kept
               case DoEvent(s, event) =>
                 if s != session || !known || event == OtherEvent then kept
                 else if event == ClosedEvent then None
                 else if event == ConnectedEvent then Some(Connected) else Some(Error)
               case DoStop => None
  {
  }

  /** The size a session should have is that of its last valid resize, until it is disconnected or closed; a core that stops ends all. */
  lemma {:induction false} DesiredFollowsSteps(m: Manager, step: Step, session: SessionId)
    requires Inv(m)
    ensures var after := Apply(m, step).desired;
            var kept := if session in m.desired then Some(m.desired[session]) else None;
            (if session in after then Some(after[session]) else None)
            == match step
               case DoConnect(_) => kept
               case DoResize(s, cols, rows) =>
                 if s == session && session in m.tabs && cols > 0 && rows > 0 then Some(Size(cols, rows)) else kept
               case DoDisconnect(s) => if s == session then None else kept
               case DoEvent(s, event) => if s == session && event == ClosedEvent then None else kept
               case DoStop => None
  {
  }
}

/**
 The preload script's terminal backlog: recent output per session, bounded in bytes, replayed to a listener when it
 subscribes. A session's output is a sequence of chunks.
 */
module TerminalBacklog {
  type SessionId = string
  type Listener = nat
  type Chunk = seq<bv8>

  const MAX_SESSION_BACKLOG_BYTES := 1024 * 1024

  function Size(chunks: seq<Chunk>): nat {
    if chunks == [] then 0 else |chunks[0]| + Size(chunks[1..])
  }

  // Drops whole chunks from the front until the rest fits or one chunk is left.
  function Evict(queue: seq<Chunk>): seq<Chunk> {
    if Size(queue) > MAX_SESSION_BACKLOG_BYTES && |queue| > 1 then Evict(queue[1..]) else queue
  }

  lemma {:induction false} SizeOfConcat(a: seq<Chunk>, b: seq<Chunk>)
    ensures Size(a + b) == Size(a) + Size(b)
  {
    if a == [] {
      assert a + b == b;
    } else {
      SizeOfConcat(a[1..], b);
      assert (a + b)[1..] == a[1..] + b;
    }
  }

  // The size of the data from index i on.
  function SizeFrom(data: seq<Chunk>, i: nat): nat
    decreases |data| - i
  {
    if i >= |data| then 0 else |data[i]| + SizeFrom(data, i + 1)
  }

  lemma {:induction false} SizeOfSuffix(data: seq<Chunk>, i: nat)
    requires i <= |data|
    ensures Size(data[i..]) == SizeFrom(data, i)
    decreases |data| - i
  {
    if i < |data| {
      SizeOfSuffix(data, i + 1);
    }
  }

  lemma {:induction false} LaterIsSmaller(data: seq<Chunk>, i: nat, j: nat)
    requires i <= j
    ensures SizeFrom(data, j) <= SizeFrom(data, i)
    decreases j - i
  {
    if i < j && i < |data| {
      LaterIsSmaller(data, i + 1, j);
    }
  }

  lemma {:induction false} OneMoreAtTheEnd(data: seq<Chunk>, chunk: Chunk, i: nat)
    requires i <= |data|
    ensures SizeFrom(data + [chunk], i) == SizeFrom(data, i) + |chunk|
    decreases |data| - i
  {
    if i < |data| {
      OneMoreAtTheEnd(data, chunk, i + 1);
    } else {
      assert SizeFrom(data + [chunk], i + 1) == 0;
    }
  }

  // The data from index i on is the longest whole-chunk suffix that fits, or just the last chunk.
  ghost predicate FitsFrom(data: seq<Chunk>, i: nat) {
    && i <= |data|
    && (data != [] ==> i < |data|)
    && (SizeFrom(data, i) <= MAX_SESSION_BACKLOG_BYTES || i == |data| - 1)
    && (i > 0 ==> SizeFrom(data, i - 1) > MAX_SESSION_BACKLOG_BYTES)
  }

  ghost predicate LongestFitting(queue: seq<Chunk>, data: seq<Chunk>) {
    && |queue| <= |data|
    && queue == data[|data| - |queue|..]
    && FitsFrom(data, |data| - |queue|)
  }

  /** There is only one such suffix. */
  lemma {:induction false} LongestFittingIsUnique(first: seq<Chunk>, second: seq<Chunk>, data: seq<Chunk>)
    requires LongestFitting(first, data) && LongestFitting(second, data)
    ensures first == second
  {
    var i, j := |data| - |first|, |data| - |second|;
    if i < j {
      LaterIsSmaller(data, i, j - 1);
    } else if j < i {
      LaterIsSmaller(data, j, i - 1);
    }
  }

  lemma {:induction false} EvictFindsLongest(queue: seq<Chunk>, data: seq<Chunk>)
    requires queue != [] && |queue| <= |data| && queue == data[|data| - |queue|..]
    requires |queue| < |data| ==> SizeFrom(data, |data| - |queue| - 1) > MAX_SESSION_BACKLOG_BYTES
    ensures LongestFitting(Evict(queue), data)
  {
    SizeOfSuffix(data, |data| - |queue|);
    if Size(queue) > MAX_SESSION_BACKLOG_BYTES && |queue| > 1 {
      EvictFindsLongest(queue[1..], data);
    }
  }

  /** Appending a chunk and evicting from the front keeps the queue the longest fitting suffix. */
  lemma {:induction false} AppendKeepsLongest(queue: seq<Chunk>, data: seq<Chunk>, chunk: Chunk)
    requires LongestFitting(queue, data)
    ensures LongestFitting(Evict(queue + [chunk]), data + [chunk])
  {
    if |queue| < |data| {
      OneMoreAtTheEnd(data, chunk, |data| - |queue| - 1);
    }
    EvictFindsLongest(queue + [chunk], data + [chunk]);
  }

  // ---------- one session, with its history ----------

  /*
   What the script's tables hold for one session, and of its history: all data so far, where in it the session was last
   closed, and for each subscribed listener, what it had received before it last subscribed and where in the data the
   replay of that moment begins.
   */
  datatype Subscription = Subscription(earlier: seq<Chunk>, begin: nat)

  datatype Past = Past(data: seq<Chunk>, closedAt: nat, history: map<Listener, Subscription>)

  const NO_PAST := Past([], 0, map[])

  datatype View = View(
    backlog: seq<Chunk>,
    bytes: nat,
    listeners: seq<Listener>,
    received: map<Listener, seq<Chunk>>,
    past: Past)

  const NEW_SESSION := View([], 0, [], map[], NO_PAST)

  ghost predicate NoRepeats(listeners: seq<Listener>) {
    forall i, j :: 0 <= i < j < |listeners| ==> listeners[i] != listeners[j]
  }

  ghost predicate IsServed(v: View, l: Listener) {
    && l in v.past.history && v.past.history[l].begin <= |v.past.data|
    && l in v.received && v.received[l] == v.past.history[l].earlier + v.past.data[v.past.history[l].begin..]
  }

  ghost predicate ValidView(v: View) {
    // the backlog is the longest whole-chunk suffix that fits of the data since the last close
    && v.past.closedAt <= |v.past.data|
    && LongestFitting(v.backlog, v.past.data[v.past.closedAt..])
    && v.bytes == Size(v.backlog)
    // since it last subscribed, a listener has received the data from where the replay began, without gap or repeat
    && NoRepeats(v.listeners)
    && (forall l :: l in v.listeners ==> IsServed(v, l))
  }

  function GetOr<K, V>(m: map<K, V>, key: K, default: V): V {
    if key in m then m[key] else default
  }

  function DeliverAll(received: map<Listener, seq<Chunk>>, listeners: seq<Listener>, chunk: Chunk): map<Listener, seq<Chunk>> {
    map l | l in received.Keys + (set m | m in listeners) ::
      if l in listeners then GetOr(received, l, []) + [chunk] else received[l]
  }

  function Arrive(v: View, chunk: Chunk): View {
    var backlog := Evict(v.backlog + [chunk]);
    v.(backlog := backlog, bytes := Size(backlog), past := v.past.(data := v.past.data + [chunk]),
       received := DeliverAll(v.received, v.listeners, chunk))
  }

  function Close(v: View): View {
    v.(backlog := [], bytes := 0, past := v.past.(closedAt := |v.past.data|))
  }

  // What the listener holds when it subscribes: nothing, unless it is subscribed already.
  function Held(v: View, listener: Listener): seq<Chunk> {
    if listener in v.listeners then GetOr(v.received, listener, []) else []
  }

  // A listener that is subscribed already is not added again, but the backlog is replayed to it again.
  function Subscribe(v: View, listener: Listener): View {
    v.(listeners := if listener in v.listeners then v.listeners else v.listeners + [listener],
       received := v.received[listener := Held(v, listener) + v.backlog],
       past := v.past.(history := v.past.history[listener :=
         Subscription(Held(v, listener), if |v.backlog| <= |v.past.data| then |v.past.data| - |v.backlog| else 0)]))
  }

  function Remove(listeners: seq<Listener>, listener: Listener): (rest: seq<Listener>)
    ensures forall l :: l in rest <==> l in listeners && l != listener
  {
    if listeners == [] then []
    else if listeners[0] == listener then Remove(listeners[1..], listener)
    else [listeners[0]] + Remove(listeners[1..], listener)
  }

  function Unsubscribe(v: View, listener: Listener): View {
    v.(listeners := Remove(v.listeners, listener), past := v.past.(history := v.past.history - {listener}))
  }

  // ---------- the script ----------

  class Preload {
    var sessionBacklog: map<SessionId, seq<Chunk>>
    var backlogBytes: map<SessionId, nat>
    var streamListeners: map<SessionId, seq<Listener>>
    // what each subscription has been called with
    var received: map<SessionId, map<Listener, seq<Chunk>>>
    ghost var past: map<SessionId, Past>

    constructor ()
      ensures forall session :: ViewOf(session) == NEW_SESSION
    {
      sessionBacklog, backlogBytes, streamListeners, received := map[], map[], map[], map[];
      past := map[];
    }

    ghost function ViewOf(session: SessionId): View
      reads this
    {
      View(GetOr(sessionBacklog, session, []), GetOr(backlogBytes, session, 0), GetOr(streamListeners, session, []),
           GetOr(received, session, map[]), GetOr(past, session, NO_PAST))
    }

    twostate predicate OthersUnchanged(session: SessionId)
      reads this
    {
      forall other :: other != session ==> ViewOf(other) == old(ViewOf(other))
    }

    method AppendBacklog(session: SessionId, chunk: Chunk)
      requires GetOr(backlogBytes, session, 0) == Size(GetOr(sessionBacklog, session, []))
      modifies this`sessionBacklog, this`backlogBytes
      ensures sessionBacklog == old(sessionBacklog)[session := Evict(GetOr(old(sessionBacklog), session, []) + [chunk])]
      ensures backlogBytes == old(backlogBytes)[session := Size(sessionBacklog[session])]
    {
      var queue := GetOr(sessionBacklog, session, []);
      SizeOfConcat(queue, [chunk]);
      queue := queue + [chunk];
      ghost var evicted := Evict(queue);
      var currentBytes := GetOr(backlogBytes, session, 0) + |chunk|;
      while currentBytes > MAX_SESSION_BACKLOG_BYTES && |queue| > 1
        invariant queue != [] && currentBytes == Size(queue) && Evict(queue) == evicted
        decreases |queue|
      {
        var removed := queue[0];
        queue := queue[1..];
        currentBytes := currentBytes - |removed|;
      }
      sessionBacklog := sessionBacklog[session := queue];
      backlogBytes := backlogBytes[session := currentBytes];
    }

    // ipcRenderer.on(ssh.event), for a closed event
    method OnClosedEvent(session: SessionId)
      modifies this
      ensures ViewOf(session) == Close(old(ViewOf(session))) && OthersUnchanged(session)
    {
      ghost var before := ViewOf(session);
      sessionBacklog := sessionBacklog - {session};
      backlogBytes := backlogBytes - {session};
      past := past[session := Close(before).past];
    }

    // Calls every listener of the session once.
    method Deliver(session: SessionId, chunk: Chunk)
      requires NoRepeats(GetOr(streamListeners, session, []))
      modifies this`received
      ensures received == old(received)
           || received == old(received)[session := DeliverAll(GetOr(old(received), session, map[]), GetOr(streamListeners, session, []), chunk)]
      ensures GetOr(received, session, map[])
           == DeliverAll(GetOr(old(received), session, map[]), GetOr(streamListeners, session, []), chunk)
    {
      var calls := GetOr(received, session, map[]);
      if session !in streamListeners || |streamListeners[session]| == 0 {
        assert DeliverAll(calls, [], chunk) == calls;
        return;
      }
      var listeners := streamListeners[session];
      ghost var before := calls;
      DeliverStep(before, listeners, 0, chunk);
      for i := 0 to |listeners|
        invariant calls == DeliverAll(before, listeners[..i], chunk) && received == old(received)
      {
        DeliverStep(before, listeners, i, chunk);
        calls := calls[listeners[i] := GetOr(calls, listeners[i], []) + [chunk]];
      }
      assert listeners[..|listeners|] == listeners;
      received := received[session := calls];
    }

    // ipcRenderer.on(ssh.data)
    method OnData(session: SessionId, chunk: Chunk)
      requires ViewOf(session).bytes == Size(ViewOf(session).backlog) && NoRepeats(ViewOf(session).listeners)
      modifies this
      ensures ViewOf(session) == Arrive(old(ViewOf(session)), chunk) && OthersUnchanged(session)
    {
      ghost var before := ViewOf(session);
      AppendBacklog(session, chunk);
      past := past[session := Arrive(before, chunk).past];
      Deliver(session, chunk);
    }

    // ssh.onData
    method OnDataSubscribe(session: SessionId, listener: Listener)
      modifies this
      ensures ViewOf(session) == Subscribe(old(ViewOf(session)), listener) && OthersUnchanged(session)
    {
      ghost var after := Subscribe(ViewOf(session), listener);
      var listeners := GetOr(streamListeners, session, []);
      var calls := GetOr(received, session, map[]);
      var queued := GetOr(sessionBacklog, session, []);
      var sofar: seq<Chunk> := [];
      if listener in listeners {
        sofar := GetOr(calls, listener, []);
      } else {
        listeners := listeners + [listener];
      }
      streamListeners := streamListeners[session := listeners];
      sofar := Replay(queued, sofar);
      received := received[session := calls[listener := sofar]];
      past := past[session := after.past];
    }

    // Calls a listener with each queued chunk.
    method Replay(queued: seq<Chunk>, sofar: seq<Chunk>) returns (after: seq<Chunk>)
      ensures after == sofar + queued
    {
      after := sofar;
      for i := 0 to |queued|
        invariant after == sofar + queued[..i]
      {
        after := after + [queued[i]];
      }
    }

    // The function that ssh.onData returns.
    method OnDataUnsubscribe(session: SessionId, listener: Listener)
      modifies this
      ensures ViewOf(session) == Unsubscribe(old(ViewOf(session)), listener) && OthersUnchanged(session)
    {
      past := past[session := Unsubscribe(ViewOf(session), listener).past];
      if session !in streamListeners {
        return;
      }
      var currentListeners := Remove(streamListeners[session], listener);
      if |currentListeners| == 0 {
        streamListeners := streamListeners - {session};
      } else {
        streamListeners := streamListeners[session := currentListeners];
      }
    }
  }

  lemma DeliverStep(received: map<Listener, seq<Chunk>>, listeners: seq<Listener>, i: nat, chunk: Chunk)
    requires NoRepeats(listeners) && i < |listeners|
    ensures DeliverAll(received, [], chunk) == received
    ensures var calls := DeliverAll(received, listeners[..i], chunk);
            DeliverAll(received, listeners[..i + 1], chunk)
            == calls[listeners[i] := GetOr(calls, listeners[i], []) + [chunk]]
  {
    var l := listeners[i];
    assert listeners[..i + 1] == listeners[..i] + [l];
    assert l !in listeners[..i];
  }

  // ---------- every operation keeps the view valid ----------

  lemma CloseKeepsValid(v: View)
    requires ValidView(v)
    ensures ValidView(Close(v))
  {
  }

  lemma ArriveKeepsValid(v: View, chunk: Chunk)
    requires ValidView(v)
    ensures ValidView(Arrive(v, chunk))
  {
    var after := Arrive(v, chunk);
    assert LongestFitting(after.backlog, after.past.data[v.past.closedAt..]) by {
      AppendKeepsLongest(v.backlog, v.past.data[v.past.closedAt..], chunk);
      assert after.past.data[v.past.closedAt..] == v.past.data[v.past.closedAt..] + [chunk];
    }
    forall l | l in after.listeners ensures IsServed(after, l) {
      ReceivesOneMore(v, l, chunk);
    }
  }

  lemma ReceivesOneMore(v: View, l: Listener, chunk: Chunk)
    requires IsServed(v, l) && l in v.listeners
    ensures IsServed(Arrive(v, chunk), l)
  {
    var begin := v.past.history[l].begin;
    assert (v.past.data + [chunk])[begin..] == v.past.data[begin..] + [chunk];
    assert v.past.history[l].earlier + v.past.data[begin..] + [chunk] == v.past.history[l].earlier + (v.past.data[begin..] + [chunk]);
  }

  lemma SubscribeKeepsValid(v: View, listener: Listener)
    requires ValidView(v)
    ensures ValidView(Subscribe(v, listener))
  {
    BacklogIsSuffix(v);
    var after := Subscribe(v, listener);
    forall l | l in after.listeners ensures IsServed(after, l) {
      if l != listener {
        assert IsServed(v, l);
      }
    }
  }

  lemma BacklogIsSuffix(v: View)
    requires ValidView(v)
    ensures |v.backlog| <= |v.past.data| && v.backlog == v.past.data[|v.past.data| - |v.backlog|..]
  {
    var recent := v.past.data[v.past.closedAt..];
    assert recent[|recent| - |v.backlog|..] == v.past.data[|v.past.data| - |v.backlog|..];
  }

  lemma {:induction false} RemoveKeepsDistinct(listeners: seq<Listener>, listener: Listener)
    requires NoRepeats(listeners)
    ensures NoRepeats(Remove(listeners, listener))
  {
    if listeners != [] {
      assert forall i :: 0 <= i < |listeners[1..]| ==> listeners[1..][i] == listeners[i + 1];
      RemoveKeepsDistinct(listeners[1..], listener);
      var rest := Remove(listeners[1..], listener);
      forall i | 0 <= i < |rest| ensures rest[i] != listeners[0] {
        assert rest[i] in listeners[1..];
      }
    }
  }

  lemma UnsubscribeKeepsValid(v: View, listener: Listener)
    requires ValidView(v)
    ensures ValidView(Unsubscribe(v, listener))
  {
    RemoveKeepsDistinct(v.listeners, listener);
  }

  // ---------- runs ----------

  datatype Event = Data(chunk: Chunk) | Closed | Subscribed(listener: Listener) | Unsubscribed(listener: Listener)

  function Apply(v: View, event: Event): View {
    match event
    case Data(chunk) => Arrive(v, chunk)
    case Closed => Close(v)
    case Subscribed(listener) => Subscribe(v, listener)
    case Unsubscribed(listener) => Unsubscribe(v, listener)
  }

  function Run(v: View, events: seq<Event>): View {
    if events == [] then v else Apply(Run(v, events[..|events| - 1]), events[|events| - 1])
  }

  /** In every reachable state the backlog is the longest fitting suffix and every new subscription is gapless. */
  lemma {:induction false} RunKeepsValid(events: seq<Event>)
    ensures ValidView(Run(NEW_SESSION, events))
  {
    if events != [] {
      var v := Run(NEW_SESSION, events[..|events| - 1]);
      RunKeepsValid(events[..|events| - 1]);
      match events[|events| - 1]
      case Data(chunk) => ArriveKeepsValid(v, chunk);
      case Closed => CloseKeepsValid(v);
      case Subscribed(listener) => SubscribeKeepsValid(v, listener);
      case Unsubscribed(listener) => UnsubscribeKeepsValid(v, listener);
    }
  }

  // The data among the events.
  function DataIn(events: seq<Event>): seq<Chunk> {
    if events == [] then []
    else DataIn(events[..|events| - 1]) + if events[|events| - 1].Data? then [events[|events| - 1].chunk] else []
  }

  lemma {:induction false} SubscriberReceivesAll(v: View, listener: Listener, events: seq<Event>)
    requires listener in v.listeners && listener in v.received
    requires forall event :: event in events ==> event != Subscribed(listener) && event != Unsubscribed(listener)
    ensures var after := Run(v, events);
            && listener in after.listeners && listener in after.received
            && after.received[listener] == v.received[listener] + DataIn(events)
  {
    if events == [] {
      assert v.received[listener] + [] == v.received[listener];
    } else {
      var front, last := events[..|events| - 1], events[|events| - 1];
      assert last in events;
      forall event | event in front ensures event in events {
      }
      SubscriberReceivesAll(v, listener, front);
    }
  }

  /**
   A listener that subscribes anew receives the backlog of that moment, the longest fitting suffix of the data since
   the last close, and then exactly the chunks that arrive while it stays subscribed, whatever is closed meanwhile.
   */
  lemma {:induction false} NewListenerMissesNothing(v: View, listener: Listener, events: seq<Event>)
    requires listener !in v.listeners
    requires forall event :: event in events ==> event != Subscribed(listener) && event != Unsubscribed(listener)
    ensures var after := Run(Subscribe(v, listener), events);
            && listener in after.listeners && listener in after.received
            && after.received[listener] == v.backlog + DataIn(events)
  {
    SubscriberReceivesAll(Subscribe(v, listener), listener, events);
    assert [] + v.backlog == v.backlog;
  }

  /**
   A listener that subscribes a second time is sent the backlog a second time, after what it has received already, and
   then the later chunks: it sees the data without a repeat exactly if the backlog is empty at that moment.
   */
  lemma {:induction false} SecondSubscriptionRepeats(v: View, listener: Listener, events: seq<Event>)
    requires ValidView(v) && listener in v.listeners
    requires forall event :: event in events ==> event != Subscribed(listener) && event != Unsubscribed(listener)
    ensures var subscription, after := v.past.history[listener], Run(Subscribe(v, listener), events);
            var once := subscription.earlier + v.past.data[subscription.begin..];
            && listener in after.received
            && after.received[listener] == once + v.backlog + DataIn(events)
            && (after.received[listener] == once + DataIn(events) <==> v.backlog == [])
  {
    assert IsServed(v, listener);
    SubscriberReceivesAll(Subscribe(v, listener), listener, events);
    if v.backlog == [] {
      assert v.received[listener] + v.backlog == v.received[listener];
    }
  }

  // ---------- after unsubscribing and after closing ----------

  /** Unsubscribing takes away that listener and no other. */
  lemma OnlyOneUnsubscribes(v: View, listener: Listener, other: Listener)
    ensures other in Unsubscribe(v, listener).listeners <==> other in v.listeners && other != listener
    ensures Unsubscribe(v, listener).received == v.received && Unsubscribe(v, listener).backlog == v.backlog
  {
  }

  lemma {:induction false} OutsiderReceivesNothing(v: View, listener: Listener, events: seq<Event>)
    requires listener !in v.listeners
    requires forall event :: event in events ==> event != Subscribed(listener)
    ensures var after := Run(v, events);
            listener !in after.listeners && GetOr(after.received, listener, []) == GetOr(v.received, listener, [])
  {
    if events != [] {
      var front, last := events[..|events| - 1], events[|events| - 1];
      assert last in events;
      forall event | event in front ensures event in events {
      }
      OutsiderReceivesNothing(v, listener, front);
    }
  }

  /** A listener that has unsubscribed receives nothing more, whatever happens, until it subscribes again. */
  lemma {:induction false} UnsubscribedReceivesNothing(v: View, listener: Listener, events: seq<Event>)
    requires forall event :: event in events ==> event != Subscribed(listener)
    ensures var after := Run(Unsubscribe(v, listener), events);
            listener !in after.listeners && GetOr(after.received, listener, []) == GetOr(v.received, listener, [])
  {
    OutsiderReceivesNothing(Unsubscribe(v, listener), listener, events);
  }

  lemma {:induction false} DataSince(v: View, events: seq<Event>)
    requires v.past.closedAt == |v.past.data| && forall event :: event in events ==> !event.Closed?
    ensures var after := Run(v, events);
            after.past.closedAt == |v.past.data| && after.past.data == v.past.data + DataIn(events)
  {
    if events == [] {
      assert v.past.data + [] == v.past.data;
    } else {
      var front, last := events[..|events| - 1], events[|events| - 1];
      assert last in events;
      forall event | event in front ensures event in events {
      }
      DataSince(v, front);
    }
  }

  lemma {:induction false} RunFromValid(v: View, events: seq<Event>)
    requires ValidView(v)
    ensures ValidView(Run(v, events))
  {
    if events != [] {
      var w := Run(v, events[..|events| - 1]);
      RunFromValid(v, events[..|events| - 1]);
      match events[|events| - 1]
      case Data(chunk) => ArriveKeepsValid(w, chunk);
      case Closed => CloseKeepsValid(w);
      case Subscribed(listener) => SubscribeKeepsValid(w, listener);
      case Unsubscribed(listener) => UnsubscribeKeepsValid(w, listener);
    }
  }

  /**
   Closing a session forgets its output: what a listener that subscribes later is sent first is the longest fitting
   suffix of the data that has arrived since.
   */
  lemma {:induction false} ClosedDataIsNotReplayed(v: View, between: seq<Event>, listener: Listener, events: seq<Event>)
    requires ValidView(v) && forall event :: event in between ==> !event.Closed?
    requires listener !in Run(Close(v), between).listeners
    requires forall event :: event in events ==> event != Subscribed(listener) && event != Unsubscribed(listener)
    ensures var now := Run(Close(v), between);
            var after := Run(Subscribe(now, listener), events);
            && listener in after.received
            && LongestFitting(now.backlog, DataIn(between))
            && after.received[listener] == now.backlog + DataIn(events)
  {
    var now := Run(Close(v), between);
    CloseKeepsValid(v);
    RunFromValid(Close(v), between);
    DataSince(Close(v), between);
    assert now.past.data[now.past.closedAt..] == DataIn(between);
    NewListenerMissesNothing(now, listener, events);
  }
}

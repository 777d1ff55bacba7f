/**
 The push protocol of the sync service: a single-flight asynchronous loop that reads a snapshot, sends it, clears
 what it sent from the outbox and goes round again if something changed, while local edits keep arriving between
 its awaits. Each stretch of code between two awaits is one step.
 */
module SyncPush {
  import opened Wrappers
  import opened SyncOutbox

  datatype Status = Idle | Syncing | Paused | Ready | Failed

  // The synchronised records: everything but secrets, the known secret references, and the secret store.
  datatype Local = Local(records: map<string, string>, secretRefs: seq<string>, store: map<string, string>)

  datatype Payload = Payload(records: map<string, string>, secrets: map<string, string>, tombstones: seq<Deletion>)

  // Where an invocation of the push loop is suspended.
  datatype Loop =
    // awaiting secretStore.load for the first of the references still to be read
    | Reading(records: map<string, string>, toRead: seq<string>, secrets: map<string, string>)
    // awaiting the POST of the payload
    | Sending(payload: Payload)

  datatype Service = Service(
    local: Local,
    outbox: seq<Deletion>,
    status: Status,
    pendingPush: bool,
    errorMessage: Option<string>,
    pushTimer: bool,
    pushPromise: bool,
    queuedPushAfterCurrent: bool,
    loops: seq<Loop>,              // the invocations in flight
    pushed: Option<Payload>,       // history: the last payload the server accepted
    missed: bool)                  // history: an offline call came since the running loop last began reading

  // ---------- the synchronous pieces ----------

  function HasPendingLocalChanges(s: Service): bool {
    s.pendingPush || s.outbox != []
  }

  function MarkPendingPush(s: Service): Service {
    if HasPendingLocalChanges(s) then s.(pendingPush := true) else s.(pendingPush := true, errorMessage := None)
  }

  function Pause(s: Service, message: Option<string>): Service {
    s.(pushTimer := false, status := Paused, pendingPush := HasPendingLocalChanges(s), errorMessage := message)
  }

  // The top of the do-while body, up to the first await.
  function Top(s: Service): (Service, Loop) {
    (s.(queuedPushAfterCurrent := false,
        status := if s.status == Idle then Syncing else s.status,
        pendingPush := true,
        errorMessage := None,
        missed := false),
     Reading(s.local.records, s.local.secretRefs, map[]))
  }

  const OFFLINE_MESSAGE := Some("offline")

  function PushDirty(s: Service, online: bool): Service {
    var marked := MarkPendingPush(s.(pushTimer := false));
    if !online then Pause(marked, OFFLINE_MESSAGE).(missed := s.missed || s.loops != [])
    else if marked.pushPromise then marked.(queuedPushAfterCurrent := true)
    else StartLoop(marked)
  }

  function StartLoop(s: Service): Service {
    var (top, loop) := Top(s);
    top.(pushPromise := true, loops := s.loops + [loop])
  }

  function Without(loops: seq<Loop>, i: nat): seq<Loop>
    requires i < |loops|
  {
    loops[..i] + loops[i + 1..]
  }

  // The catch and finally blocks.
  function EndInError(s: Service, i: nat, message: string): Service
    requires i < |s.loops|
  {
    s.(status := Failed, pendingPush := true, errorMessage := Some(message), pushTimer := true,
       pushPromise := false, queuedPushAfterCurrent := false, loops := Without(s.loops, i))
  }

  // From the resolved POST to the next await or to the end of the loop.
  function AfterPush(s: Service, i: nat): Service
    requires i < |s.loops| && s.loops[i].Sending?
  {
    var cleared := ClearSent(s, s.loops[i].payload);
    if cleared.queuedPushAfterCurrent || cleared.outbox != [] then GoRound(cleared, i) else EndInSuccess(cleared, i)
  }

  function ClearSent(s: Service, payload: Payload): Service {
    s.(pushed := Some(payload), outbox := ClearManySpec(s.outbox, AllExactly(payload.tombstones)))
  }

  function GoRound(s: Service, i: nat): Service
    requires i < |s.loops|
  {
    var (top, loop) := Top(s);
    top.(loops := s.loops[i := loop])
  }

  function EndInSuccess(s: Service, i: nat): Service
    requires i < |s.loops|
  {
    s.(status := Ready, pendingPush := false, errorMessage := None,
       pushPromise := false, queuedPushAfterCurrent := false, loops := Without(s.loops, i))
  }

  // ---------- the steps ----------

  datatype Step =
    // local changes and new deletions, followed by pushDirty; also a push asked for by the user, with no changes
    | Edit(local: Local, deletions: seq<Deletion>, online: bool)
    | TimerFires(online: bool)
    | SecretLoaded(loop: nat)
    | SnapshotBuilt(loop: nat)
    | PushAccepted(loop: nat)
    | LoopThrows(loop: nat, message: string)

  predicate Enabled(s: Service, step: Step) {
    match step
    case Edit(_, deletions, _) => true
    case TimerFires(_) => s.pushTimer
    case SecretLoaded(i) => i < |s.loops| && s.loops[i].Reading? && s.loops[i].toRead != []
    case SnapshotBuilt(i) => i < |s.loops| && s.loops[i].Reading? && s.loops[i].toRead == []
    case PushAccepted(i) => i < |s.loops| && s.loops[i].Sending?
    case LoopThrows(i, _) => i < |s.loops|
  }

  function LoadOne(loop: Loop, store: map<string, string>): Loop
    requires loop.Reading? && loop.toRead != []
  {
    var ref := loop.toRead[0];
    loop.(toRead := loop.toRead[1..],
          secrets := if ref in store then loop.secrets[ref := store[ref]] else loop.secrets)
  }

  function Apply(s: Service, step: Step): Service
    requires Enabled(s, step)
  {
    match step
    case Edit(local, deletions, online) => PushDirty(s.(local := local, outbox := UpsertAll(s.outbox, deletions)), online)
    case TimerFires(online) => PushDirty(s, online)
    case SecretLoaded(i) => s.(loops := s.loops[i := LoadOne(s.loops[i], s.local.store)])
    case SnapshotBuilt(i) =>
      s.(loops := s.loops[i := Sending(Payload(s.loops[i].records, s.loops[i].secrets, s.outbox))])
    case PushAccepted(i) => AfterPush(s, i)
    case LoopThrows(i, message) => EndInError(s, i, message)
  }

  // ---------- the service ----------

  class SyncService {
    var local: Local
    var outbox: seq<Deletion>
    var status: Status
    var pendingPush: bool
    var errorMessage: Option<string>
    var pushTimer: bool
    var pushPromise: bool
    var queuedPushAfterCurrent: bool
    var loops: seq<Loop>
    ghost var pushed: Option<Payload>
    ghost var missed: bool

    // What loadPersistedState restores.
    constructor (local: Local, outbox: seq<Deletion>, pendingPush: bool, errorMessage: Option<string>)
      ensures Abs() == Service(local, outbox, Idle, pendingPush, errorMessage, false, false, false, [], None, false)
    {
      this.local := local;
      this.outbox := outbox;
      this.status := Idle;
      this.pendingPush := pendingPush;
      this.errorMessage := errorMessage;
      pushTimer, pushPromise, queuedPushAfterCurrent := false, false, false;
      loops, pushed, missed := [], None, false;
    }

    ghost function Abs(): Service
      reads this
    {
      Service(local, outbox, status, pendingPush, errorMessage, pushTimer, pushPromise, queuedPushAfterCurrent, loops, pushed, missed)
    }

    method PatchState(status: Status, pendingPush: bool, errorMessage: Option<string>)
      modifies this`status, this`pendingPush, this`errorMessage
      ensures this.status == status && this.pendingPush == pendingPush && this.errorMessage == errorMessage
    {
      this.status, this.pendingPush, this.errorMessage := status, pendingPush, errorMessage;
    }

    // The finally block.
    method EndLoop(i: nat)
      requires i < |loops|
      modifies this`pushPromise, this`queuedPushAfterCurrent, this`loops
      ensures !pushPromise && !queuedPushAfterCurrent && loops == Without(old(loops), i)
    {
      pushPromise := false;
      queuedPushAfterCurrent := false;
      loops := Without(loops, i);
    }

    method ClearTimer()
      modifies this
      ensures Abs() == old(Abs()).(pushTimer := false)
    {
      if pushTimer {
        pushTimer := false;
      }
    }

    method MarkPending()
      modifies this
      ensures Abs() == MarkPendingPush(old(Abs()))
    {
      if pendingPush || outbox != [] {
        if !pendingPush {
          PatchState(status, true, errorMessage);
        }
        return;
      }
      PatchState(status, true, None);
    }

    // The first stretch of the loop body.
    method BeginRound() returns (loop: Loop)
      modifies this
      ensures (Abs(), loop) == Top(old(Abs()))
    {
      queuedPushAfterCurrent := false;
      PatchState(if status == Idle then Syncing else status, true, None);
      missed := false;
      loop := Reading(local.records, local.secretRefs, map[]);
    }

    method PauseSync(message: Option<string>)
      modifies this
      ensures Abs() == Pause(old(Abs()), message)
    {
      ClearTimer();
      PatchState(Paused, pendingPush || outbox != [], message);
    }

    method Push(online: bool)
      modifies this
      ensures Abs() == PushDirty(old(Abs()), online)
    {
      ClearTimer();
      MarkPending();
      if !online {
        PauseSync(OFFLINE_MESSAGE);
        missed := missed || loops != [];
      } else if pushPromise {
        queuedPushAfterCurrent := true;
      } else {
        RunLoop();
      }
    }

    method RunLoop()
      modifies this
      ensures Abs() == StartLoop(old(Abs()))
    {
      var loop := BeginRound();
      loops := loops + [loop];
      pushPromise := true;
    }

    method NextRound(i: nat)
      requires i < |loops|
      modifies this
      ensures Abs() == GoRound(old(Abs()), i)
    {
      var loop := BeginRound();
      loops := loops[i := loop];
    }

    method Succeed(i: nat)
      requires i < |loops|
      modifies this
      ensures Abs() == EndInSuccess(old(Abs()), i)
    {
      PatchState(Ready, false, None);
      EndLoop(i);
    }

    method EditAndPush(local: Local, deletions: seq<Deletion>, online: bool)
      modifies this
      ensures Abs() == Apply(old(Abs()), Edit(local, deletions, online))
    {
      this.local := local;
      outbox := UpsertAll(outbox, deletions);
      Push(online);
    }

    method ResumeAfterLoad(i: nat)
      requires Enabled(Abs(), SecretLoaded(i))
      modifies this
      ensures Abs() == Apply(old(Abs()), SecretLoaded(i))
    {
      var ref := loops[i].toRead[0];
      var loop := loops[i].(toRead := loops[i].toRead[1..]);
      if ref in local.store {
        loop := loop.(secrets := loop.secrets[ref := local.store[ref]]);
      }
      loops := loops[i := loop];
    }

    method ResumeAfterPush(i: nat)
      requires Enabled(Abs(), PushAccepted(i))
      modifies this
      ensures Abs() == Apply(old(Abs()), PushAccepted(i))
    {
      var payload := loops[i].payload;
      pushed := Some(payload);
      outbox := ClearManySpec(outbox, AllExactly(payload.tombstones));
      var shouldContinuePush := queuedPushAfterCurrent || |outbox| > 0;
      if shouldContinuePush {
        NextRound(i);
      } else {
        Succeed(i);
      }
    }

    method ResumeAfterError(i: nat, message: string)
      requires Enabled(Abs(), LoopThrows(i, message))
      modifies this
      ensures Abs() == Apply(old(Abs()), LoopThrows(i, message))
    {
      PatchState(Failed, true, Some(message));
      pushTimer := true;
      EndLoop(i);
    }
  }

  // ---------- runs ----------

  ghost predicate Initial(s: Service) {
    && s.status == Idle
    && !s.pushTimer && !s.pushPromise && !s.queuedPushAfterCurrent && s.loops == [] && s.pushed == None && !s.missed
    && FixedLength(s.outbox) && OnePerRecord(s.outbox)
  }

  // The steps can be taken one after the other; deletions carry timestamps as nowIso writes them.
  ghost predicate IsRun(s: Service, steps: seq<Step>)
    decreases |steps|
  {
    steps == [] ||
    (&& Enabled(s, steps[0])
     && (steps[0].Edit? ==> FixedLength(steps[0].deletions))
     && IsRun(Apply(s, steps[0]), steps[1..]))
  }

  ghost function AfterRun(s: Service, steps: seq<Step>): Service
    requires IsRun(s, steps)
    decreases |steps|
  {
    if steps == [] then s else AfterRun(Apply(s, steps[0]), steps[1..])
  }

  // The secrets a snapshot of the current state holds.
  ghost function SecretsIn(refs: seq<string>, store: map<string, string>): map<string, string> {
    map ref | ref in refs && ref in store :: store[ref]
  }

  // The payload holds exactly the current records and secrets.
  ghost predicate Covers(payload: Payload, local: Local) {
    payload.records == local.records && payload.secrets == SecretsIn(local.secretRefs, local.store)
  }

  // The loop has read the current state so far.
  ghost predicate UpToDate(loop: Loop, local: Local) {
    match loop
    case Reading(records, toRead, secrets) =>
      exists done :: done + toRead == local.secretRefs && records == local.records && secrets == SecretsIn(done, local.store)
    case Sending(payload) => Covers(payload, local)
  }

  ghost predicate Inv(s: Service) {
    // single flight
    && |s.loops| <= 1
    && (s.pushPromise <==> |s.loops| == 1)
    && (s.queuedPushAfterCurrent ==> s.pushPromise)
    && (s.pushPromise ==> s.pendingPush)
    // an error leaves the work pending and a retry scheduled
    && (s.status == Failed && s.loops == [] ==> s.pendingPush && s.pushTimer)
    // the outbox
    && FixedLength(s.outbox) && OnePerRecord(s.outbox)
    && (s.loops != [] && s.loops[0].Sending? ==> FixedLength(s.loops[0].payload.tombstones))
    // nothing is lost
    && (s.loops != [] && !s.queuedPushAfterCurrent && !s.missed ==> UpToDate(s.loops[0], s.local))
    && (!s.pendingPush && s.pushed.Some? && !s.missed ==> Covers(s.pushed.value, s.local))
    && (!s.pendingPush && s.pushed.Some? ==> s.outbox == [])
  }

  // ---------- every step keeps the invariant ----------

  lemma {:induction false} UpsertAllKeepsOutbox(entries: seq<Deletion>, records: seq<Deletion>)
    requires OnePerRecord(entries) && FixedLength(entries) && FixedLength(records)
    ensures OnePerRecord(UpsertAll(entries, records)) && FixedLength(UpsertAll(entries, records))
    decreases |records|
  {
    if records != [] {
      UpsertContents(entries, records[0]);
      assert records[0] in records;
      UpsertAllKeepsOutbox(Upsert(entries, records[0]), records[1..]);
    }
  }

  lemma TopIsUpToDate(s: Service)
    ensures UpToDate(Top(s).1, s.local)
  {
    assert [] + s.local.secretRefs == s.local.secretRefs;
    assert SecretsIn([], s.local.store) == map[];
  }

  lemma {:induction false} PushDirtyKeepsInv(before: Service, s: Service, online: bool)
    requires Inv(before) && before == s.(local := before.local, outbox := before.outbox)
    requires FixedLength(s.outbox) && OnePerRecord(s.outbox)
    ensures Inv(PushDirty(s, online))
  {
    TopIsUpToDate(MarkPendingPush(s.(pushTimer := false)));
  }

  lemma LoadKeepsUpToDate(loop: Loop, local: Local)
    requires loop.Reading? && loop.toRead != [] && UpToDate(loop, local)
    ensures UpToDate(LoadOne(loop, local.store), local)
  {
    var done :| done + loop.toRead == local.secretRefs && loop.records == local.records && loop.secrets == SecretsIn(done, local.store);
    var ref := loop.toRead[0];
    assert (done + [ref]) + loop.toRead[1..] == local.secretRefs;
    assert SecretsIn(done + [ref], local.store) == LoadOne(loop, local.store).secrets;
  }

  lemma BuiltIsUpToDate(loop: Loop, local: Local, outbox: seq<Deletion>)
    requires loop.Reading? && loop.toRead == [] && UpToDate(loop, local)
    ensures UpToDate(Sending(Payload(loop.records, loop.secrets, outbox)), local)
  {
    var done :| done + loop.toRead == local.secretRefs && loop.secrets == SecretsIn(done, local.store);
    assert done + [] == done;
  }

  lemma {:induction false} StepKeepsInv(s: Service, step: Step)
    requires Inv(s) && Enabled(s, step) && (step.Edit? ==> FixedLength(step.deletions))
    ensures Inv(Apply(s, step))
  {
    match step
    case Edit(local, deletions, online) =>
      UpsertAllKeepsOutbox(s.outbox, deletions);
      PushDirtyKeepsInv(s, s.(local := local, outbox := UpsertAll(s.outbox, deletions)), online);
    case TimerFires(online) => PushDirtyKeepsInv(s, s, online);
    case SecretLoaded(i) =>
      if !s.queuedPushAfterCurrent && !s.missed {
        LoadKeepsUpToDate(s.loops[0], s.local);
      }
    case SnapshotBuilt(i) =>
      if !s.queuedPushAfterCurrent && !s.missed {
        BuiltIsUpToDate(s.loops[0], s.local, s.outbox);
      }
    case PushAccepted(i) => AfterPushKeepsInv(s);
    case LoopThrows(i, message) =>
  }

  lemma {:induction false} AfterPushKeepsInv(s: Service)
    requires Inv(s) && |s.loops| == 1 && s.loops[0].Sending?
    ensures Inv(AfterPush(s, 0))
  {
    var payload := s.loops[0].payload;
    var outbox := ClearManySpec(s.outbox, AllExactly(payload.tombstones));
    ClearingIsExact(s.outbox, payload.tombstones);
    TopIsUpToDate(s.(pushed := Some(payload), outbox := outbox));
  }

  lemma {:induction false} RunKeepsInv(s: Service, steps: seq<Step>)
    requires Inv(s) && IsRun(s, steps)
    ensures Inv(AfterRun(s, steps))
    decreases |steps|
  {
    if steps != [] {
      StepKeepsInv(s, steps[0]);
      RunKeepsInv(Apply(s, steps[0]), steps[1..]);
    }
  }

  lemma {:induction false} OnlineRunMissesNothing(s: Service, steps: seq<Step>)
    requires IsRun(s, steps) && !s.missed
    requires forall step :: step in steps ==> (step.Edit? ==> step.online) && (step.TimerFires? ==> step.online)
    ensures !AfterRun(s, steps).missed
    decreases |steps|
  {
    if steps != [] {
      assert steps[0] in steps;
      OnlineRunMissesNothing(Apply(s, steps[0]), steps[1..]);
    }
  }

  /**
   No edit is lost. Over every run at most one loop is in flight; whenever the service reports nothing pending after
   a push, the outbox is empty and the payload last accepted holds exactly the current records and secrets, unless an
   offline call interrupted that push; after an error the work is pending and a retry is scheduled.
   */
  lemma {:induction false} NoLostEdit(s: Service, steps: seq<Step>)
    requires Initial(s) && IsRun(s, steps)
    ensures var after := AfterRun(s, steps);
            && |after.loops| <= 1
            && (after.pushPromise <==> |after.loops| == 1)
            && (!after.pendingPush ==> after.loops == [])
            && (!after.pendingPush && after.pushed.Some? ==> after.outbox == [])
            && (!after.pendingPush && after.pushed.Some? && !after.missed ==> Covers(after.pushed.value, after.local))
            && (after.status == Failed && after.loops == [] ==> after.pendingPush && after.pushTimer)
    ensures (forall step :: step in steps ==> (step.Edit? ==> step.online) && (step.TimerFires? ==> step.online)) ==>
              !AfterRun(s, steps).missed
  {
    RunKeepsInv(s, steps);
    if forall step :: step in steps ==> (step.Edit? ==> step.online) && (step.TimerFires? ==> step.online) {
      OnlineRunMissesNothing(s, steps);
    }
  }

  // ---------- the one way an edit is forgotten ----------

  function ReadRecords(loop: Loop): map<string, string> {
    match loop
    case Reading(records, _, _) => records
    case Sending(payload) => payload.records
  }

  // The loop's own steps from where it is suspended to the end of its round, if nothing throws.
  function RestOfRound(loop: Loop): seq<Step>
    decreases if loop.Reading? then 1 + |loop.toRead| else 0
  {
    match loop
    case Sending(_) => [PushAccepted(0)]
    case Reading(records, toRead, secrets) =>
      if toRead == [] then [SnapshotBuilt(0), PushAccepted(0)]
      else [SecretLoaded(0)] + RestOfRound(Reading(records, toRead[1..], secrets))
  }

  // What is still in the outbox when the round ends: a payload under way holds its own tombstones, and one that is not
  // built yet will hold all.
  function LeftOver(loop: Loop, outbox: seq<Deletion>): seq<Deletion> {
    match loop
    case Sending(payload) => ClearManySpec(outbox, AllExactly(payload.tombstones))
    case Reading(_, _, _) => []
  }

  // The guard of the loop at the end of the round.
  predicate GoesRound(s: Service)
    requires |s.loops| == 1
  {
    s.queuedPushAfterCurrent || LeftOver(s.loops[0], s.outbox) != []
  }

  // A payload has been accepted that holds these records.
  predicate HasPushed(s: Service, records: map<string, string>) {
    s.pushed.Some? && s.pushed.value.records == records
  }

  ghost predicate EndsRound(s: Service, after: Service) {
    |s.loops| == 1
    && HasPushed(after, ReadRecords(s.loops[0])) && after.local == s.local
    && (after.pendingPush <==> GoesRound(s)) && (after.loops != [] <==> GoesRound(s))
    && (if GoesRound(s)
        then |after.loops| == 1 && after.loops[0].Reading? && !after.queuedPushAfterCurrent && !after.missed
        else after.status == Ready && after.errorMessage == None && after.missed == s.missed)
  }

  lemma {:induction false} RunBefore(s: Service, step: Step, next: Service, rest: seq<Step>)
    requires Enabled(s, step) && (step.Edit? ==> FixedLength(step.deletions))
    requires Apply(s, step) == next && IsRun(next, rest)
    ensures IsRun(s, [step] + rest) && AfterRun(s, [step] + rest) == AfterRun(next, rest)
  {
    assert ([step] + rest)[1..] == rest;
  }

  lemma {:induction false} ReadsOn(s: Service)
    requires |s.loops| == 1 && s.loops[0].Reading? && s.loops[0].toRead != []
    ensures var next := Apply(s, SecretLoaded(0));
            && |next.loops| == 1 && next.loops[0].Reading?
            && |next.loops[0].toRead| < |s.loops[0].toRead|
            && RestOfRound(s.loops[0]) == [SecretLoaded(0)] + RestOfRound(next.loops[0])
            && next.outbox == s.outbox && FixedLength(next.outbox) == FixedLength(s.outbox)
            && forall after :: EndsRound(next, after) ==> EndsRound(s, after)
  {
    var next := Apply(s, SecretLoaded(0));
    SecretsDoNotMatter(Reading(s.loops[0].records, s.loops[0].toRead[1..], s.loops[0].secrets), next.loops[0]);
  }

  lemma {:induction false} SecretsDoNotMatter(a: Loop, b: Loop)
    requires a.Reading? && b.Reading? && a.toRead == b.toRead
    ensures RestOfRound(a) == RestOfRound(b)
    decreases if a.Reading? then |a.toRead| else 0
  {
    if a.toRead != [] {
      SecretsDoNotMatter(a.(toRead := a.toRead[1..]), b.(toRead := b.toRead[1..]));
    }
  }

  lemma {:induction false} AcceptedEndsRound(s: Service)
    requires |s.loops| == 1 && s.loops[0].Sending?
    ensures IsRun(s, [PushAccepted(0)]) && EndsRound(s, AfterRun(s, [PushAccepted(0)]))
  {
    RunBefore(s, PushAccepted(0), Apply(s, PushAccepted(0)), []);
    assert [PushAccepted(0)] + [] == [PushAccepted(0)];
  }

  lemma {:induction false} BuiltEndsRound(s: Service)
    requires |s.loops| == 1 && s.loops[0].Reading? && s.loops[0].toRead == [] && FixedLength(s.outbox)
    ensures var steps := [SnapshotBuilt(0), PushAccepted(0)]; IsRun(s, steps) && EndsRound(s, AfterRun(s, steps))
  {
    var next := Apply(s, SnapshotBuilt(0));
    AcceptedEndsRound(next);
    RunBefore(s, SnapshotBuilt(0), next, [PushAccepted(0)]);
    assert [SnapshotBuilt(0)] + [PushAccepted(0)] == [SnapshotBuilt(0), PushAccepted(0)];
    AllSentIsCleared(s.outbox);
  }

  lemma AllSentIsCleared(outbox: seq<Deletion>)
    requires FixedLength(outbox)
    ensures ClearManySpec(outbox, AllExactly(outbox)) == []
  {
    ClearingIsExact(outbox, outbox);
    var left := ClearManySpec(outbox, AllExactly(outbox));
    FirstIsIn(left);
  }

  lemma FirstIsIn(entries: seq<Deletion>)
    ensures entries != [] ==> entries[0] in entries
  {
  }

  lemma {:induction false} RoundEnds(s: Service)
    requires |s.loops| == 1 && FixedLength(s.outbox)
    ensures IsRun(s, RestOfRound(s.loops[0])) && EndsRound(s, AfterRun(s, RestOfRound(s.loops[0])))
    decreases if s.loops[0].Reading? then |s.loops[0].toRead| else 0
  {
    if s.loops[0].Sending? {
      AcceptedEndsRound(s);
    } else if s.loops[0].toRead == [] {
      BuiltEndsRound(s);
    } else {
      var next := Apply(s, SecretLoaded(0));
      ReadsOn(s);
      RoundEnds(next);
      RunBefore(s, SecretLoaded(0), next, RestOfRound(next.loops[0]));
    }
  }

  /**
   Whatever stage the running push is at, an edit made now and the rest of the round: the work is still pending, and
   another round begun, exactly if the edit's pushDirty call was made online, or one was queued before, or a deletion
   that the payload does not hold is left. Otherwise the push clears the pending flag; and if the edit changed the
   records, which the round had read before, they were not sent.
   */
  lemma {:induction false} EditDuringPushSurvivesIff(s: Service, local: Local, deletions: seq<Deletion>, online: bool)
    requires Inv(s) && |s.loops| == 1 && FixedLength(deletions)
    ensures var edited := Apply(s, Edit(local, deletions, online));
            && edited.loops == s.loops
            && var steps := RestOfRound(s.loops[0]);
               && IsRun(edited, steps)
               && var after := AfterRun(edited, steps);
                  && (after.pendingPush <==>
                        online || s.queuedPushAfterCurrent || LeftOver(s.loops[0], UpsertAll(s.outbox, deletions)) != [])
                  && (after.loops != [] <==> after.pendingPush)
                  && after.local == local && HasPushed(after, ReadRecords(s.loops[0]))
                  && (local.records != ReadRecords(s.loops[0]) ==> !Covers(after.pushed.value, after.local))
  {
    var edited := Apply(s, Edit(local, deletions, online));
    UpsertAllKeepsOutbox(s.outbox, deletions);
    RoundEnds(edited);
  }

  // A service that has just been started.
  function Started(local: Local): Service {
    Service(local, [], Idle, false, None, false, false, false, [], None, false)
  }

  /**
   The forgotten edit is reachable from the start: after an online edit and an offline one during its push, the service is
   ready with nothing pending, no loop and no retry, and the server has the first edit only.
   */
  lemma {:induction false} OfflineEditIsForgotten(first: Local, second: Local) returns (steps: seq<Step>)
    requires first.secretRefs == [] && second.records != first.records
    ensures Initial(Started(first)) && IsRun(Started(first), steps)
    ensures var after := AfterRun(Started(first), steps);
            && after.status == Ready && !after.pendingPush && after.loops == [] && !after.pushTimer
            && after.local == second && after.pushed == Some(Payload(first.records, map[], []))
  {
    var s0 := Started(first);
    var s1 := Apply(s0, Edit(first, [], true));
    assert s1.loops == [Reading(first.records, [], map[])];
    var s2 := Apply(s1, SnapshotBuilt(0));
    var s3 := Apply(s2, Edit(second, [], false));
    assert s3.loops == [Sending(Payload(first.records, map[], []))];
    var s4 := Apply(s3, PushAccepted(0));
    RunBefore(s3, PushAccepted(0), s4, []);
    steps := [PushAccepted(0)] + [];
    RunBefore(s2, Edit(second, [], false), s3, steps);
    steps := [Edit(second, [], false)] + steps;
    RunBefore(s1, SnapshotBuilt(0), s2, steps);
    steps := [SnapshotBuilt(0)] + steps;
    RunBefore(s0, Edit(first, [], true), s1, steps);
    steps := [Edit(first, [], true)] + steps;
  }

  // ---------- deletions from the hand-over to the server ----------

  ghost predicate LastOfItsRecord(deletions: seq<Deletion>, k: nat) {
    k < |deletions| && forall j :: k < j < |deletions| ==> !SameRecord(deletions[j], deletions[k].kind, deletions[k].recordId)
  }

  lemma {:induction false} UpsertAllStays(entries: seq<Deletion>, records: seq<Deletion>, entry: Deletion)
    requires OnePerRecord(entries) && entry in entries
    requires forall j :: 0 <= j < |records| ==> !SameRecord(records[j], entry.kind, entry.recordId)
    ensures entry in UpsertAll(entries, records)
    decreases |records|
  {
    if records != [] {
      UpsertContents(entries, records[0]);
      assert forall j :: 0 <= j < |records[1..]| ==> records[1..][j] == records[j + 1];
      UpsertAllStays(Upsert(entries, records[0]), records[1..], entry);
    }
  }

  lemma {:induction false} UpsertAllTakes(entries: seq<Deletion>, records: seq<Deletion>, k: nat)
    requires OnePerRecord(entries) && LastOfItsRecord(records, k)
    ensures records[k] in UpsertAll(entries, records)
    decreases |records|
  {
    UpsertContents(entries, records[0]);
    assert forall j :: 0 <= j < |records[1..]| ==> records[1..][j] == records[j + 1];
    if k == 0 {
      UpsertAllStays(Upsert(entries, records[0]), records[1..], records[0]);
    } else {
      UpsertAllTakes(Upsert(entries, records[0]), records[1..], k - 1);
    }
  }

  lemma {:induction false} UpsertAllInvents(entries: seq<Deletion>, records: seq<Deletion>, entry: Deletion)
    requires OnePerRecord(entries) && entry in UpsertAll(entries, records)
    ensures entry in entries || entry in records
    decreases |records|
  {
    if records != [] {
      UpsertContents(entries, records[0]);
      UpsertAllInvents(Upsert(entries, records[0]), records[1..], entry);
    }
  }

  lemma EditSets(s: Service, local: Local, deletions: seq<Deletion>, online: bool)
    ensures var after := Apply(s, Edit(local, deletions, online));
            after.local == local && after.outbox == UpsertAll(s.outbox, deletions)
  {
  }

  lemma {:induction false} UpsertAllContents(entries: seq<Deletion>, records: seq<Deletion>, entry: Deletion)
    requires OnePerRecord(entries)
    ensures forall k :: 0 <= k < |records| && LastOfItsRecord(records, k) ==> records[k] in UpsertAll(entries, records)
    ensures entry in entries && (forall j :: 0 <= j < |records| ==> !SameRecord(records[j], entry.kind, entry.recordId))
            ==> entry in UpsertAll(entries, records)
    ensures entry in UpsertAll(entries, records) ==> entry in entries || entry in records
  {
    forall k | 0 <= k < |records| && LastOfItsRecord(records, k) ensures records[k] in UpsertAll(entries, records) {
      UpsertAllTakes(entries, records, k);
    }
    if entry in UpsertAll(entries, records) {
      UpsertAllInvents(entries, records, entry);
    }
    if entry in entries && forall j :: 0 <= j < |records| ==> !SameRecord(records[j], entry.kind, entry.recordId) {
      UpsertAllStays(entries, records, entry);
    }
  }

  /**
   Whether a push is running or not, online or offline, an edit puts the records where they are pushed from and each
   deletion it hands over into the outbox, unless it hands over a later one of the same record. The deletions of other
   records stay, and there are no others.
   */
  lemma {:induction false} EditReachesOutbox(s: Service, local: Local, deletions: seq<Deletion>, online: bool, entry: Deletion)
    requires OnePerRecord(s.outbox)
    ensures var after := Apply(s, Edit(local, deletions, online));
            && after.local == local
            && (forall k :: 0 <= k < |deletions| && LastOfItsRecord(deletions, k) ==> deletions[k] in after.outbox)
            && (entry in s.outbox
                && (forall j :: 0 <= j < |deletions| ==> !SameRecord(deletions[j], entry.kind, entry.recordId))
                ==> entry in after.outbox)
            && (entry in after.outbox ==> entry in s.outbox || entry in deletions)
  {
    EditSets(s, local, deletions, online);
    UpsertAllContents(s.outbox, deletions, entry);
  }

  // Some push of the run whose payload held the deletion has been accepted.
  ghost predicate SentDuring(s: Service, steps: seq<Step>, deletion: Deletion)
    requires IsRun(s, steps)
    decreases |steps|
  {
    steps != [] &&
    (|| (steps[0].PushAccepted? && deletion in s.loops[steps[0].loop].payload.tombstones
         && Apply(s, steps[0]).pushed == Some(s.loops[steps[0].loop].payload))
     || SentDuring(Apply(s, steps[0]), steps[1..], deletion))
  }

  // Some edit of the run hands over another deletion of the record.
  ghost predicate ReplacedDuring(steps: seq<Step>, deletion: Deletion) {
    exists i, k :: 0 <= i < |steps| && steps[i].Edit? && 0 <= k < |steps[i].deletions|
      && SameRecord(steps[i].deletions[k], deletion.kind, deletion.recordId) && steps[i].deletions[k] != deletion
  }

  lemma ReplacedLater(steps: seq<Step>, deletion: Deletion)
    requires steps != [] && ReplacedDuring(steps[1..], deletion)
    ensures ReplacedDuring(steps, deletion)
  {
    var i, k :| 0 <= i < |steps[1..]| && steps[1..][i].Edit? && 0 <= k < |steps[1..][i].deletions|
      && SameRecord(steps[1..][i].deletions[k], deletion.kind, deletion.recordId) && steps[1..][i].deletions[k] != deletion;
    assert steps[i + 1] == steps[1..][i];
  }

  lemma {:induction false} KeptUntilSent(s: Service, steps: seq<Step>, deletion: Deletion)
    requires Inv(s) && IsRun(s, steps) && deletion in s.outbox
    ensures deletion in AfterRun(s, steps).outbox || ReplacedDuring(steps, deletion) || SentDuring(s, steps, deletion)
    decreases |steps|
  {
    if steps != [] {
      var next := Apply(s, steps[0]);
      StepKeepsInv(s, steps[0]);
      if deletion in next.outbox {
        KeptUntilSent(next, steps[1..], deletion);
        if ReplacedDuring(steps[1..], deletion) {
          ReplacedLater(steps, deletion);
        }
      } else {
        LeavesByStep(s, steps, deletion);
      }
    }
  }

  lemma {:induction false} LeavesByStep(s: Service, steps: seq<Step>, deletion: Deletion)
    requires Inv(s) && IsRun(s, steps) && steps != [] && deletion in s.outbox && deletion !in Apply(s, steps[0]).outbox
    ensures ReplacedDuring(steps, deletion) || SentDuring(s, steps, deletion)
  {
    TombstoneLeavesOnlyWhenSent(s, steps[0], deletion);
    if steps[0].Edit? {
      var newer :| newer in steps[0].deletions && SameRecord(newer, deletion.kind, deletion.recordId) && newer != deletion;
      var k :| 0 <= k < |steps[0].deletions| && steps[0].deletions[k] == newer;
    }
  }

  /**
   A deletion handed over with an edit is, in every later state, in the outbox, or replaced by another one of its record,
   or held by a payload that the server has accepted.
   */
  lemma {:induction false} NoLostDeletion(s: Service, local: Local, deletions: seq<Deletion>, online: bool, k: nat, steps: seq<Step>)
    requires Inv(s) && LastOfItsRecord(deletions, k) && IsRun(s, [Edit(local, deletions, online)] + steps)
    ensures var edit := Edit(local, deletions, online);
            var next := Apply(s, edit);
            && IsRun(next, steps)
            && (|| deletions[k] in AfterRun(s, [edit] + steps).outbox
                || ReplacedDuring(steps, deletions[k])
                || SentDuring(next, steps, deletions[k]))
  {
    var edit := Edit(local, deletions, online);
    assert ([edit] + steps)[1..] == steps;
    StepKeepsInv(s, edit);
    EditReachesOutbox(s, local, deletions, online, deletions[k]);
    KeptUntilSent(Apply(s, edit), steps, deletions[k]);
  }

  // ---------- a push comes to an end ----------

  /**
   With no further calls and no error, a running push ends after this round or the next, ready, with nothing pending and
   an empty outbox; and then the server has exactly the current records and secrets, unless an offline call came since
   the round began and no other round followed.
   */
  lemma {:induction false} QuietPushFinishes(s: Service) returns (steps: seq<Step>)
    requires Inv(s) && |s.loops| == 1
    ensures IsRun(s, steps)
    ensures forall i :: 0 <= i < |steps| ==> steps[i].SecretLoaded? || steps[i].SnapshotBuilt? || steps[i].PushAccepted?
    ensures var after := AfterRun(s, steps);
            && after.loops == [] && after.status == Ready && !after.pendingPush && after.outbox == []
            && after.errorMessage == None && after.local == s.local && after.pushed.Some?
            && (!s.missed || GoesRound(s) ==> Covers(after.pushed.value, s.local))
  {
    var first := RestOfRound(s.loops[0]);
    OwnSteps(s.loops[0]);
    RoundEnds(s);
    RunKeepsInv(s, first);
    var mid := AfterRun(s, first);
    if GoesRound(s) {
      var second := RestOfRound(mid.loops[0]);
      OwnSteps(mid.loops[0]);
      RoundEnds(mid);
      RunKeepsInv(mid, second);
      RunsJoin(s, first, second);
      steps := first + second;
    } else {
      steps := first;
    }
  }

  // The payload holds these records, and of these secret references those that the store knows.
  ghost predicate HoldsAll(payload: Payload, local: Local) {
    && payload.records == local.records
    && (forall ref :: ref in payload.secrets <==> ref in local.secretRefs && ref in local.store)
    && (forall ref :: ref in payload.secrets ==> payload.secrets[ref] == local.store[ref])
  }

  /**
   An edit made online is delivered: whatever was going on before, if no further call comes and nothing throws, the push
   comes to an end with the service ready, nothing pending and an empty outbox, and the server has accepted a payload
   with exactly the records and secrets of the edit.
   */
  lemma {:induction false} OnlineEditIsDelivered(s: Service, local: Local, deletions: seq<Deletion>) returns (steps: seq<Step>)
    requires Inv(s) && FixedLength(deletions)
    ensures var next := Apply(s, Edit(local, deletions, true));
            && IsRun(next, steps)
            && (forall i :: 0 <= i < |steps| ==> steps[i].SecretLoaded? || steps[i].SnapshotBuilt? || steps[i].PushAccepted?)
            && var after := AfterRun(next, steps);
               && after.status == Ready && !after.pendingPush && after.errorMessage == None
               && after.outbox == [] && after.local == local
               && after.pushed.Some? && HoldsAll(after.pushed.value, local)
  {
    var next := Apply(s, Edit(local, deletions, true));
    StepKeepsInv(s, Edit(local, deletions, true));
    CallsTakeEffect(s, Edit(local, deletions, true));
    steps := QuietPushFinishes(next);
  }

  /**
   What a call of pushDirty does at once. Online it is running a push afterwards, or has one queued behind the running
   one; offline it pauses and starts nothing. Either way the work is pending, and no timer is left.
   */
  lemma {:induction false} CallsTakeEffect(s: Service, step: Step)
    requires Inv(s) && Enabled(s, step) && (step.Edit? || step.TimerFires?)
    ensures var after := Apply(s, step);
            && after.pendingPush && !after.pushTimer
            && (step.online && s.loops == [] ==> |after.loops| == 1 && !after.missed && !after.queuedPushAfterCurrent)
            && (step.online && s.loops != [] ==> after.loops == s.loops && after.queuedPushAfterCurrent)
            && (!step.online ==> after.loops == s.loops && after.status == Paused && after.errorMessage == OFFLINE_MESSAGE)
            && after.local == (if step.Edit? then step.local else s.local)
  {
  }

  /** An error ends the push, with its message, the work pending and a retry scheduled; the outbox is as it was. */
  lemma {:induction false} ErrorsAreRetried(s: Service, message: string)
    requires Inv(s) && |s.loops| == 1
    ensures var after := Apply(s, LoopThrows(0, message));
            && after.loops == [] && !after.pushPromise && after.status == Failed && after.errorMessage == Some(message)
            && after.pendingPush && after.pushTimer && Enabled(after, TimerFires(true))
            && after.outbox == s.outbox && after.local == s.local
  {
  }

  lemma {:induction false} OwnSteps(loop: Loop)
    ensures forall i :: 0 <= i < |RestOfRound(loop)| ==>
              RestOfRound(loop)[i].SecretLoaded? || RestOfRound(loop)[i].SnapshotBuilt? || RestOfRound(loop)[i].PushAccepted?
    decreases if loop.Reading? then |loop.toRead| else 0
  {
    if loop.Reading? && loop.toRead != [] {
      OwnSteps(loop.(toRead := loop.toRead[1..]));
    }
  }

  lemma RunFirst(s: Service, step: Step, rest: seq<Step>)
    requires Enabled(s, step) && (step.Edit? ==> FixedLength(step.deletions)) && IsRun(Apply(s, step), rest)
    ensures IsRun(s, [step] + rest) && AfterRun(s, [step] + rest) == AfterRun(Apply(s, step), rest)
  {
    assert ([step] + rest)[1..] == rest;
  }

  lemma JoinFirst(s: Service, a: seq<Step>, b: seq<Step>)
    requires a != [] && IsRun(s, a) && IsRun(Apply(s, a[0]), a[1..] + b)
    ensures IsRun(s, a + b) && AfterRun(s, a + b) == AfterRun(Apply(s, a[0]), a[1..] + b)
  {
    RunFirst(s, a[0], a[1..] + b);
    assert a + b == [a[0]] + (a[1..] + b);
  }

  lemma {:induction false} RunsJoin(s: Service, a: seq<Step>, b: seq<Step>)
    requires IsRun(s, a) && IsRun(AfterRun(s, a), b)
    ensures IsRun(s, a + b) && AfterRun(s, a + b) == AfterRun(AfterRun(s, a), b)
    decreases |a|
  {
    if a == [] {
      assert a + b == b;
    } else {
      RunsJoin(Apply(s, a[0]), a[1..], b);
      JoinFirst(s, a, b);
    }
  }

  // ---------- tombstones ----------

  lemma {:induction false} UpsertAllReplaces(entries: seq<Deletion>, records: seq<Deletion>, gone: Deletion)
    requires OnePerRecord(entries) && gone in entries && gone !in UpsertAll(entries, records)
    ensures exists newer :: newer in records && SameRecord(newer, gone.kind, gone.recordId) && newer != gone
    decreases |records|
  {
    UpsertContents(entries, records[0]);
    if gone in Upsert(entries, records[0]) {
      UpsertAllReplaces(Upsert(entries, records[0]), records[1..], gone);
    } else {
      assert records[0] in records;
    }
  }

  /**
   A tombstone leaves the outbox only if a newer deletion of the record replaces it or a push whose payload held
   that exact kind, id and time has been accepted.
   */
  lemma {:induction false} TombstoneLeavesOnlyWhenSent(s: Service, step: Step, gone: Deletion)
    requires Inv(s) && Enabled(s, step)
    requires gone in s.outbox && gone !in Apply(s, step).outbox
    ensures || (step.Edit? && exists newer :: newer in step.deletions && SameRecord(newer, gone.kind, gone.recordId) && newer != gone)
            || (step.PushAccepted? && gone in s.loops[0].payload.tombstones
                && Apply(s, step).pushed == Some(s.loops[0].payload))
  {
    if step.Edit? {
      UpsertAllReplaces(s.outbox, step.deletions, gone);
    } else if step.PushAccepted? {
      ClearingIsExact(s.outbox, s.loops[0].payload.tombstones);
    }
  }

  /** A deletion that was not in the payload, such as a newer one of the same record, stays and forces another round. */
  lemma {:induction false} NewerDeletionForcesAnotherRound(s: Service, kept: Deletion)
    requires Inv(s) && |s.loops| == 1 && s.loops[0].Sending?
    requires kept in s.outbox && kept !in s.loops[0].payload.tombstones
    ensures var after := Apply(s, PushAccepted(0));
            && kept in after.outbox && after.pendingPush
            && |after.loops| == 1 && after.loops[0].Reading? && UpToDate(after.loops[0], after.local)
  {
    ClearingIsExact(s.outbox, s.loops[0].payload.tombstones);
    var payload := s.loops[0].payload;
    TopIsUpToDate(s.(pushed := Some(payload), outbox := ClearManySpec(s.outbox, AllExactly(payload.tombstones))));
  }
}

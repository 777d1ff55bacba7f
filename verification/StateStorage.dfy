/**
 The crash-safe state file: written to a temporary file, flushed, the old file copied to a backup, and the new one
 renamed into place. Loading tries the state file, then the backup, then falls back to defaults.
 */
module StateStorage {
  import opened Wrappers

  // A file is absent, does not parse, or holds a serialised state.
  datatype File<S> = Missing | Torn | Holds(state: S)

  // The three files, and whether their contents have been flushed; a power loss can tear what has not.
  datatype Disk<S> = Disk(
    main: File<S>, backup: File<S>, temp: File<S>,
    mainFlushed: bool, backupFlushed: bool, tempFlushed: bool)

  // ---------- the file steps of one persist ----------

  const FILE_STEPS := 6

  function FileStep<S>(disk: Disk<S>, state: S, index: nat): Disk<S>
    requires index < FILE_STEPS
  {
    match index
    case 0 => disk.(temp := Torn, tempFlushed := false)                 // open for writing truncates
    case 1 => disk.(temp := Holds(state))                               // the whole text is written
    case 2 => disk.(tempFlushed := true)                                // fsync, close
    case 3 => if disk.main.Missing? then disk else disk.(backup := Torn, backupFlushed := false)
    case 4 => if disk.main.Missing? then disk else disk.(backup := disk.main)
    case _ => disk.(main := disk.temp, mainFlushed := disk.tempFlushed, temp := Missing)   // rename moves the contents
  }

  // The disk when the first `count` steps have been done.
  function PersistUpTo<S>(disk: Disk<S>, state: S, count: nat): Disk<S>
    requires count <= FILE_STEPS
  {
    if count == 0 then disk else FileStep(PersistUpTo(disk, state, count - 1), state, count - 1)
  }

  // Which files a crash tears, if they have not been flushed.
  datatype Tears = Tears(main: bool, backup: bool, temp: bool)

  function AfterTear<S>(file: File<S>, flushed: bool, tear: bool): File<S> {
    if file.Holds? && !flushed && tear then Torn else file
  }

  // Process death or power loss.
  function Crash<S>(disk: Disk<S>, tears: Tears): Disk<S> {
    disk.(main := AfterTear(disk.main, disk.mainFlushed, tears.main),
          backup := AfterTear(disk.backup, disk.backupFlushed, tears.backup),
          temp := AfterTear(disk.temp, disk.tempFlushed, tears.temp))
  }

  // What loading finds; None stands for the defaults.
  function Load<S>(disk: Disk<S>): Option<S> {
    if disk.main.Holds? then Some(disk.main.state)
    else if disk.backup.Holds? then Some(disk.backup.state)
    else None
  }

  class DesktopStateStorage<S> {
    const normalize: S -> S
    const defaults: S
    var state: S
    var main: File<S>
    var backup: File<S>
    var temp: File<S>
    ghost var mainFlushed: bool
    ghost var backupFlushed: bool
    ghost var tempFlushed: bool

    constructor (normalize: S -> S, defaults: S, disk: Disk<S>)
      ensures GetDisk() == disk && this.normalize == normalize && this.defaults == defaults && state == defaults
    {
      this.normalize, this.defaults, this.state := normalize, defaults, defaults;
      main, backup, temp := disk.main, disk.backup, disk.temp;
      mainFlushed, backupFlushed, tempFlushed := disk.mainFlushed, disk.backupFlushed, disk.tempFlushed;
    }

    ghost function GetDisk(): Disk<S>
      reads this
    {
      Disk(main, backup, temp, mainFlushed, backupFlushed, tempFlushed)
    }

    method LoadStateWithRecovery() returns (loaded: S)
      ensures loaded == if Load(GetDisk()).Some? then normalize(Load(GetDisk()).value) else defaults
    {
      var files := [main, backup];
      assert files[0] == main && files[1] == backup;
      for i := 0 to |files|
        invariant forall j :: 0 <= j < i ==> !files[j].Holds?
      {
        if files[i].Missing? {
          continue;
        }
        if files[i].Holds? {
          assert i == 1 ==> !files[0].Holds?;
          return normalize(files[i].state);
        }
      }
      return defaults;
    }

    // Runs until it is done or stopped before file step `stopAt`.
    method PersistState(stopAt: nat) returns (completed: bool)
      modifies this
      ensures state == old(state)
      ensures completed <==> stopAt >= FILE_STEPS
      ensures GetDisk() == PersistUpTo(old(GetDisk()), state, if completed then FILE_STEPS else stopAt)
    {
      ghost var before := GetDisk();
      if stopAt == 0 { return false; }
      temp, tempFlushed := Torn, false;
      assert GetDisk() == PersistUpTo(before, state, 1);
      if stopAt == 1 { return false; }
      temp := Holds(state);
      assert GetDisk() == PersistUpTo(before, state, 2);
      if stopAt == 2 { return false; }
      tempFlushed := true;
      assert GetDisk() == PersistUpTo(before, state, 3);
      if stopAt == 3 { return false; }
      if !main.Missing? {
        backup, backupFlushed := Torn, false;
      }
      assert GetDisk() == PersistUpTo(before, state, 4);
      if stopAt == 4 { return false; }
      if !main.Missing? {
        backup := main;
      }
      assert GetDisk() == PersistUpTo(before, state, 5);
      if stopAt == 5 { return false; }
      main, mainFlushed, temp := temp, tempFlushed, Missing;
      return true;
    }

    // A mutation of the state in memory, then a persist.
    method UpdateState(mutated: S, stopAt: nat) returns (completed: bool)
      modifies this
      ensures state == mutated
      ensures completed <==> stopAt >= FILE_STEPS
      ensures GetDisk() == PersistUpTo(old(GetDisk()), mutated, if completed then FILE_STEPS else stopAt)
    {
      state := mutated;
      completed := PersistState(stopAt);
    }
  }

  // ---------- one update ----------

  lemma StepByStep<S>(disk: Disk<S>, state: S)
    ensures PersistUpTo(disk, state, 1) == disk.(temp := Torn, tempFlushed := false)
    ensures PersistUpTo(disk, state, 2) == disk.(temp := Holds(state), tempFlushed := false)
    ensures PersistUpTo(disk, state, 3) == disk.(temp := Holds(state), tempFlushed := true)
    ensures PersistUpTo(disk, state, 4)
         == if disk.main.Missing? then PersistUpTo(disk, state, 3)
            else disk.(temp := Holds(state), tempFlushed := true, backup := Torn, backupFlushed := false)
    ensures PersistUpTo(disk, state, 5)
         == if disk.main.Missing? then PersistUpTo(disk, state, 3)
            else disk.(temp := Holds(state), tempFlushed := true, backup := disk.main, backupFlushed := false)
    ensures PersistUpTo(disk, state, 6)
         == PersistUpTo(disk, state, 5).(main := Holds(state), mainFlushed := true, temp := Missing)
  {
    assert PersistUpTo(disk, state, 1) == disk.(temp := Torn, tempFlushed := false);
    assert PersistUpTo(disk, state, 2) == disk.(temp := Holds(state), tempFlushed := false);
    assert PersistUpTo(disk, state, 3) == disk.(temp := Holds(state), tempFlushed := true);
    assert PersistUpTo(disk, state, 4) == FileStep(PersistUpTo(disk, state, 3), state, 3);
    assert PersistUpTo(disk, state, 5) == FileStep(PersistUpTo(disk, state, 4), state, 4);
  }

  // No crash can tear the state file as it is.
  predicate IsSound<S>(disk: Disk<S>) {
    disk.main.Missing? || (disk.main.Holds? && disk.mainFlushed)
  }

  /**
   An update stopped anywhere leaves the old state file until the rename and the new state after it, never a torn
   one; a finished update leaves the previous state in the backup.
   */
  lemma {:induction false} UpdateIsAtomic<S>(disk: Disk<S>, state: S, count: nat, tears: Tears)
    requires count <= FILE_STEPS && IsSound(disk) && disk.main.Holds?
    ensures var crashed := Crash(PersistUpTo(disk, state, count), tears);
            && crashed.main == (if count < FILE_STEPS then disk.main else Holds(state))
            && Load(crashed) == (if count < FILE_STEPS then Some(disk.main.state) else Some(state))
            && IsSound(crashed)
    ensures PersistUpTo(disk, state, FILE_STEPS).backup == disk.main
  {
    StepByStep(disk, state);
  }

  // ---------- why the new file is flushed before the rename ----------

  // The file steps in order, with or without the flush.
  function StepList(flush: bool): (steps: seq<nat>)
    ensures forall i :: 0 <= i < |steps| ==> steps[i] < FILE_STEPS
  {
    [0, 1] + (if flush then [2] else []) + [3, 4, 5]
  }

  function Perform<S>(disk: Disk<S>, state: S, steps: seq<nat>): Disk<S>
    requires forall i :: 0 <= i < |steps| ==> steps[i] < FILE_STEPS
  {
    if steps == [] then disk else FileStep(Perform(disk, state, steps[..|steps| - 1]), state, steps[|steps| - 1])
  }

  lemma PerformLast<S>(disk: Disk<S>, state: S, front: seq<nat>, last: nat)
    requires last < FILE_STEPS && forall i :: 0 <= i < |front| ==> front[i] < FILE_STEPS
    ensures Perform(disk, state, front + [last]) == FileStep(Perform(disk, state, front), state, last)
  {
    assert (front + [last])[..|front|] == front;
  }

  lemma {:induction false} WritePerformed<S>(disk: Disk<S>, state: S, flush: bool)
    ensures Perform(disk, state, [0, 1] + if flush then [2] else [])
         == disk.(temp := Holds(state), tempFlushed := flush)
  {
    PerformLast(disk, state, [], 0);
    assert [] + [0] == [0];
    PerformLast(disk, state, [0], 1);
    assert [0] + [1] == [0, 1];
    PerformLast(disk, state, [0, 1], 2);
    assert [0, 1] + [] == [0, 1];
  }

  lemma {:induction false} StepsPerformed<S>(disk: Disk<S>, state: S, flush: bool)
    ensures var copied := if disk.main.Missing? then disk else disk.(backup := disk.main, backupFlushed := false);
            Perform(disk, state, StepList(flush))
            == copied.(main := Holds(state), mainFlushed := flush, temp := Missing, tempFlushed := flush)
  {
    var written := [0, 1] + if flush then [2] else [];
    WritePerformed(disk, state, flush);
    PerformLast(disk, state, written, 3);
    PerformLast(disk, state, written + [3], 4);
    PerformLast(disk, state, written + [3] + [4], 5);
    assert StepList(flush) == written + [3] + [4] + [5];
  }

  /** The list with the flush is what a finished persist performs. */
  lemma {:induction false} PersistPerformsAll<S>(disk: Disk<S>, state: S)
    ensures PersistUpTo(disk, state, FILE_STEPS) == Perform(disk, state, StepList(true))
  {
    StepByStep(disk, state);
    StepsPerformed(disk, state, true);
  }

  /**
   The state file of a finished update survives every power loss exactly if the temporary file was flushed before the
   rename. Without the flush one power loss can tear it, and the unflushed backup with it, so that loading finds only
   the defaults.
   */
  lemma {:induction false} FlushIsWhatProtects<S>(disk: Disk<S>, state: S, flush: bool)
    ensures (forall tears :: !Crash(Perform(disk, state, StepList(flush)), tears).main.Torn?) <==> flush
    ensures disk.main.Holds? ==>
              ((forall tears :: Load(Crash(Perform(disk, state, StepList(flush)), tears)).Some?) <==> flush)
  {
    StepsPerformed(disk, state, flush);
    if !flush {
      var crashed := Crash(Perform(disk, state, StepList(flush)), Tears(true, true, true));
      assert crashed.main.Torn?;
      assert disk.main.Holds? ==> Load(crashed).None?;
    }
  }

  // ---------- runs of updates, crashes and restarts ----------

  // An update that was stopped before a file step (or finished, at six), followed by a crash and restart or not.
  datatype Event<S> = Update(state: S, stopAt: nat, crash: bool, tears: Tears)

  function StepsDone<S>(event: Event<S>): (count: nat)
    ensures count <= FILE_STEPS
  {
    if event.stopAt < FILE_STEPS then event.stopAt else FILE_STEPS
  }

  // A stopped update always means a crash; a finished one may be followed by one.
  function Apply<S>(disk: Disk<S>, event: Event<S>): Disk<S> {
    var after := PersistUpTo(disk, event.state, StepsDone(event));
    if event.stopAt < FILE_STEPS || event.crash then Crash(after, event.tears) else after
  }

  function Run<S>(disk: Disk<S>, events: seq<Event<S>>): Disk<S> {
    if events == [] then disk else Apply(Run(disk, events[..|events| - 1]), events[|events| - 1])
  }

  predicate Finished<S>(event: Event<S>) {
    event.stopAt >= FILE_STEPS
  }

  // The state of the last finished update.
  function LastFinished<S>(events: seq<Event<S>>): Option<S> {
    if events == [] then None
    else if Finished(events[|events| - 1]) then Some(events[|events| - 1].state)
    else LastFinished(events[..|events| - 1])
  }

  lemma {:induction false} MainAfter<S>(disk: Disk<S>, event: Event<S>)
    requires IsSound(disk)
    ensures IsSound(Apply(disk, event))
    ensures Apply(disk, event).main == if Finished(event) then Holds(event.state) else disk.main
  {
    StepByStep(disk, event.state);
  }

  /**
   Over any run of updates with crashes at any file step that tear whatever has not been flushed, starting from a state
   file that is not torn: the state file is never torn, and once an update has finished, loading finds the state of the
   last one that did, never the defaults. The update during which the last crash happened is finished exactly if its
   rename was done, so loading finds the last completed state or the one in progress.
   */
  lemma {:induction false} RunsRecover<S>(disk: Disk<S>, events: seq<Event<S>>)
    requires IsSound(disk)
    ensures IsSound(Run(disk, events))
    ensures forall tears :: !Crash(Run(disk, events), tears).main.Torn?
    ensures LastFinished(events).Some? ==> forall tears :: Load(Crash(Run(disk, events), tears)) == LastFinished(events)
    ensures Run(disk, events).main == if LastFinished(events).Some? then Holds(LastFinished(events).value) else disk.main
  {
    if events != [] {
      var front, last := events[..|events| - 1], events[|events| - 1];
      RunsRecover(disk, front);
      MainAfter(Run(disk, front), last);
    }
  }

  /** After a finished update without a crash, the backup holds the state the file held before. */
  lemma {:induction false} BackupHoldsPrevious<S>(disk: Disk<S>, events: seq<Event<S>>, event: Event<S>)
    requires IsSound(disk) && LastFinished(events).Some?
    requires Finished(event) && !event.crash
    ensures Run(disk, events + [event]).main == Holds(event.state)
    ensures Run(disk, events + [event]).backup == Holds(LastFinished(events).value)
  {
    RunsRecover(disk, events);
    assert (events + [event])[..|events|] == events;
    StepByStep(Run(disk, events), event.state);
  }

  // ---------- when a state can be lost ----------

  // Loading would find a state even after a power loss.
  predicate Recoverable<S>(disk: Disk<S>) {
    (disk.main.Holds? && disk.mainFlushed) || (disk.backup.Holds? && disk.backupFlushed)
  }

  ghost predicate LosesNothing<S>(disk: Disk<S>, state: S) {
    forall count: nat, tears :: count <= FILE_STEPS ==> Load(Crash(PersistUpTo(disk, state, count), tears)).Some?
  }

  /**
   From a recoverable disk, an update can be stopped anywhere without losing every state just when the state file is
   absent or flushed. If it is torn, or can be torn, the persist first copies it over the good backup, so a crash before
   the rename leaves only defaults.
   */
  lemma {:induction false} UpdateIsSafeIffMainSound<S>(disk: Disk<S>, state: S)
    requires Recoverable(disk)
    ensures LosesNothing(disk, state) <==> IsSound(disk)
  {
    StepByStep(disk, state);
    if !IsSound(disk) {
      assert Load(Crash(PersistUpTo(disk, state, 5), Tears(true, true, true))).None?;
    } else {
      forall count: nat, tears | count <= FILE_STEPS
        ensures Load(Crash(PersistUpTo(disk, state, count), tears)).Some?
      {
        assert count in {0, 1, 2, 3, 4, 5, 6};
      }
    }
  }
}

/**
 What the Include walk visits and what it puts out, in terms of the include graph.
 */
module IncludeReachability {
  import opened ConfigInclude

  // ---------- the include graph ----------

  // The real paths of the readable files that a file includes.
  ghost function RealTargets(fs: FileSystem, file: Path): set<Path> {
    set step | step in FileSteps(fs, file) && step.Follow? && fs.read(step.target).Some? :: fs.realpath(step.target)
  }

  ghost predicate Includes(fs: FileSystem, file: Path, target: Path) {
    exists step :: step in FileSteps(fs, file) && step.Follow? && step.target == target
  }

  lemma {:induction false} IncludedTarget(fs: FileSystem, file: Path, target: Path)
    requires Includes(fs, file, target) && fs.read(target).Some?
    ensures fs.realpath(target) in RealTargets(fs, file)
  {
    var step :| step in FileSteps(fs, file) && step.Follow? && step.target == target;
  }

  lemma {:induction false} TargetIncluded(fs: FileSystem, file: Path, n: Path) returns (target: Path)
    requires n in RealTargets(fs, file)
    ensures Includes(fs, file, target) && fs.read(target).Some? && fs.realpath(target) == n
  {
    var step :| step in FileSteps(fs, file) && step.Follow? && fs.read(step.target).Some? && fs.realpath(step.target) == n;
    target := step.target;
  }

  // Readable files, each included by the one before.
  ghost predicate IsChain(fs: FileSystem, chain: seq<Path>) {
    && |chain| > 0
    && (forall i :: 0 <= i < |chain| ==> fs.read(chain[i]).Some?)
    && (forall i :: 0 < i < |chain| ==> Includes(fs, chain[i - 1], chain[i]))
  }

  ghost predicate ChainFromTo(fs: FileSystem, chain: seq<Path>, from: Path, to: Path) {
    IsChain(fs, chain) && chain[0] == from && chain[|chain| - 1] == to
  }

  ghost predicate Reachable(fs: FileSystem, from: Path, to: Path) {
    exists chain :: ChainFromTo(fs, chain, from, to)
  }

  lemma {:induction false} ChainExtends(fs: FileSystem, chain: seq<Path>, target: Path)
    requires IsChain(fs, chain) && Includes(fs, chain[|chain| - 1], target) && fs.read(target).Some?
    ensures IsChain(fs, chain + [target])
  {
    var longer := chain + [target];
    forall i | 0 < i < |longer| ensures Includes(fs, longer[i - 1], longer[i]) {
      if i < |chain| {
        assert Includes(fs, chain[i - 1], chain[i]);
        assert longer[i - 1] == chain[i - 1] && longer[i] == chain[i];
      } else {
        assert longer[i - 1] == chain[|chain| - 1] && longer[i] == target;
      }
    }
  }

  lemma PrefixIsChain(fs: FileSystem, chain: seq<Path>, i: nat)
    requires IsChain(fs, chain) && 0 < i < |chain|
    ensures IsChain(fs, chain[..i]) && chain[..i][0] == chain[0] && chain[..i][|chain[..i]| - 1] == chain[i - 1]
    ensures Includes(fs, chain[i - 1], chain[i]) && fs.read(chain[i]).Some?
  {
    var front := chain[..i];
    forall j | 0 < j < |front| ensures Includes(fs, front[j - 1], front[j]) {
      assert Includes(fs, chain[j - 1], chain[j]);
      assert front[j - 1] == chain[j - 1] && front[j] == chain[j];
    }
  }

  lemma {:induction false} ReachableStep(fs: FileSystem, from: Path, file: Path, target: Path)
    requires Reachable(fs, from, file) && Includes(fs, file, target) && fs.read(target).Some?
    ensures Reachable(fs, from, target)
  {
    var chain :| ChainFromTo(fs, chain, from, file);
    ChainExtends(fs, chain, target);
    assert ChainFromTo(fs, chain + [target], from, target);
  }

  lemma ReachableSelf(fs: FileSystem, file: Path)
    requires fs.read(file).Some?
    ensures Reachable(fs, file, file)
  {
    assert ChainFromTo(fs, [file], file, file);
  }

  // ---------- what the walk keeps ----------

  // Every visited file has a readable name, and what is being expanded is visited.
  ghost predicate Consistent(fs: FileSystem, st: State) {
    && st.stack <= st.visited && st.names.Keys == st.visited
    && forall n :: n in st.names ==> fs.realpath(st.names[n]) == n && fs.read(st.names[n]).Some?
  }

  // The stack is restored and no name changes.
  ghost predicate Grows(before: State, after: State) {
    && after.stack == before.stack
    && forall n :: n in before.names ==> n in after.names && after.names[n] == before.names[n]
  }

  // The file has been expanded under this name between the two moments.
  ghost predicate Expanded(fs: FileSystem, before: State, after: State, file: Path) {
    var n := fs.realpath(file);
    n in after.names && n !in before.names && after.names[n] == file
  }

  lemma ExpandedInEither(fs: FileSystem, a: State, b: State, c: State, file: Path)
    requires Grows(a, b) && Grows(b, c)
    ensures Expanded(fs, a, c, file) <==> Expanded(fs, a, b, file) || Expanded(fs, b, c, file)
    ensures !(Expanded(fs, a, b, file) && Expanded(fs, b, c, file))
  {
  }

  lemma {:induction false} EnterKeepsConsistent(fs: FileSystem, path: Path, st: State)
    requires Consistent(fs, st) && fs.realpath(path) !in st.visited && fs.read(path).Some?
    ensures Consistent(fs, Enter(fs, path, st))
    ensures Expanded(fs, st, Enter(fs, path, st), path)
    ensures forall file :: Expanded(fs, st, Enter(fs, path, st), file) ==> file == path
  {
  }

  // The walk from `file` under the name `path`, when it is expanded.
  lemma {:induction false} Expansion(fs: FileSystem, path: Path, st: State)
    requires Finite(fs) && Consistent(fs, st) && fs.realpath(path) !in st.visited && fs.read(path).Some?
    ensures var (lines, after) := RunSteps(fs, path, FileSteps(fs, path), [], Enter(fs, path, st));
            && Flatten(fs, path, st).0.Ok? && Flatten(fs, path, st).0.value == lines
            && Flatten(fs, path, st).1 == after.(stack := after.stack - {fs.realpath(path)})
            && (after.stack == Enter(fs, path, st).stack ==> Flatten(fs, path, st).1.stack == st.stack)
    ensures |fs.nodes - Enter(fs, path, st).visited| < |fs.nodes - st.visited|
  {
    RestShrinks(fs.nodes, st.visited, st.visited + {fs.realpath(path)});
    assert st.stack + {fs.realpath(path)} - {fs.realpath(path)} == st.stack;
  }

  lemma {:induction false} FlattenKeeps(fs: FileSystem, path: Path, st: State)
    requires Finite(fs) && Consistent(fs, st)
    ensures var after := Flatten(fs, path, st).1; Consistent(fs, after) && Grows(st, after)
    decreases |fs.nodes - st.visited|, 0
  {
    if fs.realpath(path) !in st.visited && fs.read(path).Some? {
      EnterKeepsConsistent(fs, path, st);
      Expansion(fs, path, st);
      RunKeeps(fs, path, FileSteps(fs, path), [], Enter(fs, path, st));
    }
  }

  lemma {:induction false} RunKeeps(fs: FileSystem, file: Path, steps: seq<Step>, out: seq<ConfigLine>, st: State)
    requires Finite(fs) && Consistent(fs, st)
    ensures var after := RunSteps(fs, file, steps, out, st).1; Consistent(fs, after) && Grows(st, after)
    decreases |fs.nodes - st.visited|, |steps|
  {
    if steps != [] {
      if steps[0].Follow? {
        FlattenKeeps(fs, steps[0].target, st);
        var (r, after) := Flatten(fs, steps[0].target, st);
        RestShrinks(fs.nodes, st.visited, after.visited);
        if r.Ok? {
          RunKeeps(fs, file, steps[1..], out + r.value, after);
        } else {
          RunKeeps(fs, file, steps[1..], out, Warn(after, IncludeReadFailed(r.error, file, steps[0].lineNumber)));
        }
      } else if steps[0].Emit? {
        RunKeeps(fs, file, steps[1..], out + [steps[0].line], st);
      } else {
        RunKeeps(fs, file, steps[1..], out, Warn(st, IncludeNotFound(steps[0].pattern, file, steps[0].lineNumber)));
      }
    }
  }

  // The state after following a target, with the warning of an unreadable one, and the lines so far.
  function AfterFollow(fs: FileSystem, file: Path, target: Path, lineNumber: nat, out: seq<ConfigLine>, st: State)
    : (r: (seq<ConfigLine>, State))
    requires Finite(fs)
    ensures st.visited <= r.1.visited
  {
    var (r, after) := Flatten(fs, target, st);
    match r
    case Ok(lines) => (out + lines, after)
    case Err(unread) => (out, Warn(after, IncludeReadFailed(unread, file, lineNumber)))
  }

  lemma {:induction false} FollowFirst(
      fs: FileSystem, file: Path, target: Path, lineNumber: nat, rest: seq<Step>, out: seq<ConfigLine>, st: State)
    requires Finite(fs) && Consistent(fs, st)
    ensures var (out', next) := AfterFollow(fs, file, target, lineNumber, out, st);
            && RunSteps(fs, file, [Follow(target, lineNumber)] + rest, out, st) == RunSteps(fs, file, rest, out', next)
            && Consistent(fs, next) && Grows(st, next)
            && |fs.nodes - next.visited| <= |fs.nodes - st.visited|
  {
    RunFirst(fs, file, Follow(target, lineNumber), rest, out, st);
    FlattenKeeps(fs, target, st);
    RestShrinks(fs.nodes, st.visited, Flatten(fs, target, st).1.visited);
  }

  // ---------- what is visited is reachable, and followed up ----------

  // Every file expanded between the two moments is reachable, and has had all its readable includes visited.
  ghost predicate FollowedUp(fs: FileSystem, root: Path, before: State, after: State) {
    forall n :: n in after.names && n !in before.names ==>
      Reachable(fs, root, after.names[n]) && RealTargets(fs, after.names[n]) <= after.visited
  }

  lemma FollowedUpTwice(fs: FileSystem, root: Path, a: State, b: State, c: State)
    requires FollowedUp(fs, root, a, b) && FollowedUp(fs, root, b, c) && Grows(a, b) && Grows(b, c) && b.visited <= c.visited
    ensures FollowedUp(fs, root, a, c)
  {
  }

  // The file includes what the steps follow.
  ghost predicate AreStepsOf(fs: FileSystem, file: Path, steps: seq<Step>) {
    forall i :: 0 <= i < |steps| && steps[i].Follow? ==> Includes(fs, file, steps[i].target)
  }

  lemma StepsOfFile(fs: FileSystem, file: Path)
    ensures AreStepsOf(fs, file, FileSteps(fs, file))
  {
    var steps := FileSteps(fs, file);
    forall i | 0 <= i < |steps| && steps[i].Follow? ensures Includes(fs, file, steps[i].target) {
      assert steps[i] in steps;
    }
  }

  lemma {:induction false} FlattenFollowsUp(fs: FileSystem, root: Path, path: Path, st: State)
    requires Finite(fs) && Consistent(fs, st) && (fs.read(path).Some? ==> Reachable(fs, root, path))
    ensures var (r, after) := Flatten(fs, path, st);
            && FollowedUp(fs, root, st, after)
            && (fs.read(path).Some? ==> r.Ok? && fs.realpath(path) in after.visited)
    decreases |fs.nodes - st.visited|, 0
  {
    if fs.realpath(path) !in st.visited && fs.read(path).Some? {
      EnterKeepsConsistent(fs, path, st);
      Expansion(fs, path, st);
      StepsOfFile(fs, path);
      RunFollowsUp(fs, root, path, FileSteps(fs, path), [], Enter(fs, path, st));
      RunKeeps(fs, path, FileSteps(fs, path), [], Enter(fs, path, st));
      TargetsOfFile(fs, path, Flatten(fs, path, st).1.visited);
    }
  }

  // The readable files that the steps follow have been visited.
  ghost predicate TargetsVisited(fs: FileSystem, steps: seq<Step>, visited: set<Path>) {
    forall i :: 0 <= i < |steps| && steps[i].Follow? && fs.read(steps[i].target).Some? ==> fs.realpath(steps[i].target) in visited
  }

  lemma TargetsOfFile(fs: FileSystem, file: Path, visited: set<Path>)
    requires TargetsVisited(fs, FileSteps(fs, file), visited)
    ensures RealTargets(fs, file) <= visited
  {
  }

  lemma {:induction false} RunFollowsUp(
      fs: FileSystem, root: Path, file: Path, steps: seq<Step>, out: seq<ConfigLine>, st: State)
    requires Finite(fs) && Consistent(fs, st) && Reachable(fs, root, file) && AreStepsOf(fs, file, steps)
    ensures var after := RunSteps(fs, file, steps, out, st).1;
            FollowedUp(fs, root, st, after) && TargetsVisited(fs, steps, after.visited)
    decreases |fs.nodes - st.visited|, |steps|
  {
    if steps != [] {
      var first, rest := steps[0], steps[1..];
      assert steps == [first] + rest;
      FirstOfSteps(fs, file, first, rest);
      if first.Follow? {
        FollowFollowsUp(fs, root, file, first.target, first.lineNumber, rest, out, st);
      } else if first.Emit? {
        RunFollowsUp(fs, root, file, rest, out + [first.line], st);
      } else {
        RunFollowsUp(fs, root, file, rest, out, Warn(st, IncludeNotFound(first.pattern, file, first.lineNumber)));
      }
    }
  }

  lemma FirstOfSteps(fs: FileSystem, file: Path, first: Step, rest: seq<Step>)
    ensures AreStepsOf(fs, file, [first] + rest) ==>
              AreStepsOf(fs, file, rest) && (first.Follow? ==> Includes(fs, file, first.target))
    ensures forall visited ::
              (TargetsVisited(fs, rest, visited)
               && (first.Follow? && fs.read(first.target).Some? ==> fs.realpath(first.target) in visited))
              ==> TargetsVisited(fs, [first] + rest, visited)
  {
    var steps := [first] + rest;
    assert steps[0] == first && forall i :: 0 <= i < |rest| ==> steps[i + 1] == rest[i];
  }

  lemma {:induction false} FollowFollowsUp(
      fs: FileSystem, root: Path, file: Path, target: Path, lineNumber: nat, rest: seq<Step>, out: seq<ConfigLine>, st: State)
    requires Finite(fs) && Consistent(fs, st) && Reachable(fs, root, file)
    requires AreStepsOf(fs, file, rest) && Includes(fs, file, target)
    ensures var after := RunSteps(fs, file, [Follow(target, lineNumber)] + rest, out, st).1;
            && FollowedUp(fs, root, st, after) && TargetsVisited(fs, rest, after.visited)
            && (fs.read(target).Some? ==> fs.realpath(target) in after.visited)
    decreases |fs.nodes - st.visited|, |rest| + 1, 0
  {
    var (out', next) := AfterFollow(fs, file, target, lineNumber, out, st);
    FollowFirst(fs, file, target, lineNumber, rest, out, st);
    if fs.read(target).Some? {
      ReachableStep(fs, root, file, target);
    }
    FlattenFollowsUp(fs, root, target, st);
    RunFollowsUp(fs, root, file, rest, out', next);
    RunKeeps(fs, file, rest, out', next);
    FollowedUpTwice(fs, root, st, next, RunSteps(fs, file, rest, out', next).1);
  }

  /**
   From a readable root, on any file system and whatever cycles there are, the walk succeeds and ends with an empty
   stack. Each visited file has been expanded under one readable name, which is reachable from the root, and every
   readable file that name includes has been visited too.
   */
  lemma {:induction false} WalkFollowsItsNames(fs: FileSystem, root: Path)
    requires Finite(fs) && fs.read(root).Some?
    ensures var (r, after) := Flatten(fs, root, START);
            && r.Ok? && after.stack == {}
            && fs.realpath(root) in after.visited && after.names.Keys == after.visited
            && forall n :: n in after.names ==>
                 && fs.realpath(after.names[n]) == n && fs.read(after.names[n]).Some?
                 && Reachable(fs, root, after.names[n])
                 && RealTargets(fs, after.names[n]) <= after.visited
  {
    ReachableSelf(fs, root);
    FlattenKeeps(fs, root, START);
    FlattenFollowsUp(fs, root, root, START);
  }

  // A file that can be read under one name can be read under all its names.
  ghost predicate ReadableAlike(fs: FileSystem) {
    forall a, b :: fs.realpath(a) == fs.realpath(b) && fs.read(a).Some? ==> fs.read(b).Some?
  }

  // All names of a file include the same files.
  ghost predicate Coherent(fs: FileSystem) {
    forall a, b :: fs.realpath(a) == fs.realpath(b) ==> RealTargets(fs, a) == RealTargets(fs, b)
  }

  lemma {:induction false} ChainIsVisited(fs: FileSystem, st: State, chain: seq<Path>)
    requires Coherent(fs) && Consistent(fs, st) && IsChain(fs, chain) && fs.realpath(chain[0]) in st.visited
    requires forall n :: n in st.names ==> RealTargets(fs, st.names[n]) <= st.visited
    ensures fs.realpath(chain[|chain| - 1]) in st.visited
  {
    if |chain| > 1 {
      var front := chain[..|chain| - 1];
      var file, target := chain[|chain| - 2], chain[|chain| - 1];
      PrefixIsChain(fs, chain, |chain| - 1);
      ChainIsVisited(fs, st, front);
      IncludedTarget(fs, file, target);
      assert RealTargets(fs, st.names[fs.realpath(file)]) == RealTargets(fs, file);
    }
  }

  /**
   If a file includes the same files under all its names, the walk has expanded exactly the readable files reachable
   from the root.
   */
  lemma {:induction false} WalkVisitsExactlyReachable(fs: FileSystem, root: Path)
    requires Finite(fs) && Coherent(fs) && fs.read(root).Some?
    ensures var (r, after) := Flatten(fs, root, START);
            && r.Ok? && after.stack == {}
            && forall n :: n in after.visited <==> exists file :: Reachable(fs, root, file) && fs.realpath(file) == n
  {
    var after := Flatten(fs, root, START).1;
    WalkFollowsItsNames(fs, root);
    FlattenKeeps(fs, root, START);
    forall file | Reachable(fs, root, file) ensures fs.realpath(file) in after.visited {
      var chain :| ChainFromTo(fs, chain, root, file);
      ChainIsVisited(fs, after, chain);
    }
  }

  // ---------- each file contributes its own lines once, in order ----------

  function LinesOf(lines: seq<ConfigLine>, file: Path): seq<ConfigLine> {
    if lines == [] then []
    else (if lines[0].filePath == file then [lines[0]] else []) + LinesOf(lines[1..], file)
  }

  function OwnLines(steps: seq<Step>): seq<ConfigLine> {
    if steps == [] then [] else (if steps[0].Emit? then [steps[0].line] else []) + OwnLines(steps[1..])
  }

  lemma {:induction false} LinesOfConcat(a: seq<ConfigLine>, b: seq<ConfigLine>, file: Path)
    ensures LinesOf(a + b, file) == LinesOf(a, file) + LinesOf(b, file)
  {
    if a == [] {
      assert a + b == b;
    } else {
      LinesOfConcat(a[1..], b, file);
      assert (a + b)[1..] == a[1..] + b && (a + b)[0] == a[0];
      var head := if a[0].filePath == file then [a[0]] else [];
      assert head + (LinesOf(a[1..], file) + LinesOf(b, file)) == (head + LinesOf(a[1..], file)) + LinesOf(b, file);
    }
  }

  lemma {:induction false} RunAppends(fs: FileSystem, file: Path, steps: seq<Step>, out: seq<ConfigLine>, st: State)
    requires Finite(fs)
    ensures RunSteps(fs, file, steps, out, st)
         == (out + RunSteps(fs, file, steps, [], st).0, RunSteps(fs, file, steps, [], st).1)
    decreases |fs.nodes - st.visited|, |steps|
  {
    if steps == [] {
      assert out + [] == out;
    } else {
      match steps[0]
      case Emit(line) =>
        RunAppends(fs, file, steps[1..], out + [line], st);
        RunAppends(fs, file, steps[1..], [] + [line], st);
        Regroup(out, [line], RunSteps(fs, file, steps[1..], [], st).0);
      case NoMatch(pattern, lineNumber) =>
        RunAppends(fs, file, steps[1..], out, Warn(st, IncludeNotFound(pattern, file, lineNumber)));
      case Follow(target, lineNumber) =>
        var (r, after) := Flatten(fs, target, st);
        RestShrinks(fs.nodes, st.visited, after.visited);
        match r
        case Ok(lines) =>
          RunAppends(fs, file, steps[1..], out + lines, after);
          RunAppends(fs, file, steps[1..], [] + lines, after);
          Regroup(out, lines, RunSteps(fs, file, steps[1..], [], after).0);
        case Err(unread) => RunAppends(fs, file, steps[1..], out, Warn(after, IncludeReadFailed(unread, file, lineNumber)));
    }
  }

  lemma Regroup<T>(a: seq<T>, b: seq<T>, c: seq<T>)
    ensures (a + b) + c == a + (([] + b) + c)
  {
  }

  // Exactly the files expanded between the two moments contribute, each its own lines.
  ghost predicate Contributed(fs: FileSystem, lines: seq<ConfigLine>, before: State, after: State) {
    forall f :: LinesOf(lines, f) == if Expanded(fs, before, after, f) then OwnLines(FileSteps(fs, f)) else []
  }

  // The same, with the lines so far of a file that is being expanded.
  ghost predicate ContributedWith(
      fs: FileSystem, lines: seq<ConfigLine>, file: Path, own: seq<ConfigLine>, before: State, after: State)
  {
    forall f :: LinesOf(lines, f)
              == if f == file then own else if Expanded(fs, before, after, f) then OwnLines(FileSteps(fs, f)) else []
  }

  lemma {:induction false} FlattenContributes(fs: FileSystem, path: Path, st: State)
    requires Finite(fs) && Consistent(fs, st)
    ensures var (r, after) := Flatten(fs, path, st);
            if r.Ok? then Contributed(fs, r.value, st, after) else after == st
    decreases |fs.nodes - st.visited|, 0
  {
    if fs.realpath(path) !in st.visited && fs.read(path).Some? {
      var inner := Enter(fs, path, st);
      EnterKeepsConsistent(fs, path, st);
      Expansion(fs, path, st);
      StepsAreOwn(path, fs.read(path).value, 1);
      RunContributes(fs, path, FileSteps(fs, path), inner);
      RunKeeps(fs, path, FileSteps(fs, path), [], inner);
      EnteredContributes(fs, path, st, RunSteps(fs, path, FileSteps(fs, path), [], inner).0,
                         RunSteps(fs, path, FileSteps(fs, path), [], inner).1);
    }
  }

  lemma {:induction false} EnteredContributes(fs: FileSystem, path: Path, st: State, lines: seq<ConfigLine>, after: State)
    requires fs.realpath(path) !in st.names && Grows(Enter(fs, path, st), after)
    requires ContributedWith(fs, lines, path, OwnLines(FileSteps(fs, path)), Enter(fs, path, st), after)
    ensures Contributed(fs, lines, st, after)
  {
    forall f ensures Expanded(fs, st, after, f) <==> f == path || Expanded(fs, Enter(fs, path, st), after, f) {
      assert fs.realpath(path) in after.names;
    }
  }

  lemma {:induction false} RunContributes(fs: FileSystem, file: Path, steps: seq<Step>, st: State)
    requires Finite(fs) && Consistent(fs, st) && fs.realpath(file) in st.visited
    requires forall i :: 0 <= i < |steps| && steps[i].Emit? ==> steps[i].line.filePath == file
    ensures var (lines, after) := RunSteps(fs, file, steps, [], st);
            ContributedWith(fs, lines, file, OwnLines(steps), st, after)
    decreases |fs.nodes - st.visited|, |steps|
  {
    if steps != [] {
      var rest := steps[1..];
      match steps[0]
      case Emit(line) =>
        RunContributes(fs, file, rest, st);
        RunAppends(fs, file, rest, [] + [line], st);
        var (lines, after) := RunSteps(fs, file, rest, [], st);
        OneMoreLine(fs, file, line, lines, OwnLines(rest), st, after);
      case NoMatch(pattern, lineNumber) =>
        RunContributes(fs, file, rest, Warn(st, IncludeNotFound(pattern, file, lineNumber)));
      case Follow(target, lineNumber) =>
        assert steps == [Follow(target, lineNumber)] + rest;
        assert [] + OwnLines(rest) == OwnLines(rest);
        FollowContributes(fs, file, target, lineNumber, rest, st);
    }
  }

  lemma {:induction false} FollowContributes(
      fs: FileSystem, file: Path, target: Path, lineNumber: nat, rest: seq<Step>, st: State)
    requires Finite(fs) && Consistent(fs, st) && fs.realpath(file) in st.visited
    requires forall i :: 0 <= i < |rest| && rest[i].Emit? ==> rest[i].line.filePath == file
    ensures var (lines, after) := RunSteps(fs, file, [Follow(target, lineNumber)] + rest, [], st);
            ContributedWith(fs, lines, file, OwnLines(rest), st, after)
    decreases |fs.nodes - st.visited|, |rest| + 1, 0
  {
    var (out, mid) := AfterFollow(fs, file, target, lineNumber, [], st);
    FollowFirst(fs, file, target, lineNumber, rest, [], st);
    FlattenContributes(fs, target, st);
    RunContributes(fs, file, rest, mid);
    RunKeeps(fs, file, rest, [], mid);
    RunAppends(fs, file, rest, out, mid);
    var (lines, after) := RunSteps(fs, file, rest, [], mid);
    var r := Flatten(fs, target, st).0;
    if r.Ok? {
      JoinContributions(fs, file, r.value, lines, OwnLines(rest), st, mid, after);
    }
  }

  lemma {:induction false} OneMoreLine(
      fs: FileSystem, file: Path, line: ConfigLine, lines: seq<ConfigLine>, own: seq<ConfigLine>, before: State, after: State)
    requires line.filePath == file && ContributedWith(fs, lines, file, own, before, after)
    ensures ContributedWith(fs, [] + [line] + lines, file, [line] + own, before, after)
  {
    assert [] + [line] + lines == [line] + lines;
    forall f ensures LinesOf([line] + lines, f) == (if f == file then [line] else []) + LinesOf(lines, f) {
      LinesOfConcat([line], lines, f);
    }
    assert forall f :: [] + LinesOf(lines, f) == LinesOf(lines, f);
  }

  lemma {:induction false} JoinContributions(
      fs: FileSystem, file: Path, a: seq<ConfigLine>, b: seq<ConfigLine>, own: seq<ConfigLine>,
      before: State, mid: State, after: State)
    requires Grows(before, mid) && Grows(mid, after) && fs.realpath(file) in before.names
    requires Contributed(fs, a, before, mid) && ContributedWith(fs, b, file, own, mid, after)
    ensures ContributedWith(fs, [] + a + b, file, own, before, after)
  {
    forall f ensures LinesOf([] + a + b, f)
                  == if f == file then own else if Expanded(fs, before, after, f) then OwnLines(FileSteps(fs, f)) else []
    {
      JoinAt(a, b, f);
      ExpandedInEither(fs, before, mid, after, f);
      assert !Expanded(fs, before, mid, file);
    }
  }

  lemma {:induction false} JoinAt(a: seq<ConfigLine>, b: seq<ConfigLine>, file: Path)
    ensures LinesOf(a, file) == [] ==> LinesOf([] + a + b, file) == LinesOf(b, file)
    ensures LinesOf(b, file) == [] ==> LinesOf([] + a + b, file) == LinesOf(a, file)
  {
    assert [] + a + b == a + b;
    LinesOfConcat(a, b, file);
  }

  lemma {:induction false} StepsAreOwn(file: Path, items: seq<Item>, lineNumber: nat)
    ensures forall i :: 0 <= i < |Steps(file, items, lineNumber)| && Steps(file, items, lineNumber)[i].Emit? ==>
              Steps(file, items, lineNumber)[i].line.filePath == file
  {
    if items != [] {
      StepsAreOwn(file, items[1..], lineNumber + 1);
      if items[0].Include? {
        IncludesEmitNothing(items[0].patterns, lineNumber);
      }
    }
  }

  lemma {:induction false} IncludesEmitNothing(patterns: seq<Pattern>, lineNumber: nat)
    ensures forall i :: 0 <= i < |PatternSteps(patterns, lineNumber)| ==> !PatternSteps(patterns, lineNumber)[i].Emit?
  {
    if patterns != [] {
      IncludesEmitNothing(patterns[1..], lineNumber);
      FollowsEmitNothing(patterns[0].matches, lineNumber);
    }
  }

  lemma {:induction false} FollowsEmitNothing(matches: seq<Path>, lineNumber: nat)
    ensures forall i :: 0 <= i < |Follows(matches, lineNumber)| ==> Follows(matches, lineNumber)[i].Follow?
  {
    if matches != [] {
      FollowsEmitNothing(matches[1..], lineNumber);
    }
  }

  /**
   Each visited file is expanded under exactly one name, and the output restricted to that name is exactly the
   file's own lines in order; no other name contributes a line.
   */
  lemma {:induction false} EachFileContributesOnce(fs: FileSystem, root: Path)
    requires Finite(fs) && fs.read(root).Some?
    ensures var (r, after) := Flatten(fs, root, START);
            && after.names.Keys == after.visited
            && r.Ok?
            && forall file :: LinesOf(r.value, file)
                           == if fs.realpath(file) in after.names && after.names[fs.realpath(file)] == file
                              then OwnLines(FileSteps(fs, file)) else []
  {
    FlattenKeeps(fs, root, START);
    FlattenContributes(fs, root, START);
  }

  /** What an Include pulls in stands exactly between the lines before it and the lines after it. */
  lemma {:induction false} IncludesSpliceInPlace(
      fs: FileSystem, file: Path, before: seq<Step>, target: Path, lineNumber: nat, after: seq<Step>, st: State)
    requires Finite(fs)
    ensures var (linesBefore, st1) := RunSteps(fs, file, before, [], st);
            var (included, st2) := Flatten(fs, target, st1);
            var st3 := if included.Ok? then st2 else Warn(st2, IncludeReadFailed(included.error, file, lineNumber));
            var (linesAfter, st4) := RunSteps(fs, file, after, [], st3);
            RunSteps(fs, file, before + [Follow(target, lineNumber)] + after, [], st)
            == (linesBefore + (if included.Ok? then included.value else []) + linesAfter, st4)
  {
    var (linesBefore, st1) := RunSteps(fs, file, before, [], st);
    var (included, st2) := Flatten(fs, target, st1);
    assert before + [Follow(target, lineNumber)] + after == before + ([Follow(target, lineNumber)] + after);
    RunConcat(fs, file, before, [Follow(target, lineNumber)] + after, [], st);
    RunFirst(fs, file, Follow(target, lineNumber), after, linesBefore, st1);
    if included.Ok? {
      RunAppends(fs, file, after, linesBefore + included.value, st2);
    } else {
      RunAppends(fs, file, after, linesBefore, Warn(st2, IncludeReadFailed(included.error, file, lineNumber)));
      assert linesBefore + [] == linesBefore;
    }
  }

  lemma {:induction false} RunConcat(fs: FileSystem, file: Path, a: seq<Step>, b: seq<Step>, out: seq<ConfigLine>, st: State)
    requires Finite(fs)
    ensures var (lines, after) := RunSteps(fs, file, a, out, st);
            RunSteps(fs, file, a + b, out, st) == RunSteps(fs, file, b, lines, after)
    decreases |a|
  {
    if a == [] {
      assert a + b == b;
    } else {
      assert a + b == [a[0]] + (a[1..] + b) && a == [a[0]] + a[1..];
      RunFirst(fs, file, a[0], a[1..] + b, out, st);
      RunFirst(fs, file, a[0], a[1..], out, st);
      match a[0]
      case Emit(line) => RunConcat(fs, file, a[1..], b, out + [line], st);
      case NoMatch(pattern, lineNumber) => RunConcat(fs, file, a[1..], b, out, Warn(st, IncludeNotFound(pattern, file, lineNumber)));
      case Follow(target, lineNumber) =>
        var (r, after) := Flatten(fs, target, st);
        match r
        case Ok(lines) => RunConcat(fs, file, a[1..], b, out + lines, after);
        case Err(unread) => RunConcat(fs, file, a[1..], b, out, Warn(after, IncludeReadFailed(unread, file, lineNumber)));
    }
  }
}

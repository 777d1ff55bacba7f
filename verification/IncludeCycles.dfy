/**
 The include-cycle warning is exact: the walk gives one just when the files it expanded include each other in a circle.
 */
module IncludeCycles {
  import opened ConfigInclude
  import opened IncludeReachability

  ghost predicate WarnedOfCycle(warnings: seq<Warning>) {
    exists warning :: warning in warnings && warning.IncludeCycle?
  }

  // ---------- circles of expanded files ----------

  // The file, under the name it was expanded by, includes the other one.
  ghost predicate NodeIncludes(fs: FileSystem, names: map<Path, Path>, n: Path, m: Path) {
    n in names && m in RealTargets(fs, names[n])
  }

  // Each file of the chain includes the next.
  ghost predicate IsNodeChain(fs: FileSystem, names: map<Path, Path>, chain: seq<Path>) {
    && |chain| > 0
    && forall i :: 0 < i < |chain| ==> NodeIncludes(fs, names, chain[i - 1], chain[i])
  }

  ghost predicate NodeChainFromTo(fs: FileSystem, names: map<Path, Path>, chain: seq<Path>, from: Path, to: Path) {
    IsNodeChain(fs, names, chain) && chain[0] == from && chain[|chain| - 1] == to
  }

  ghost predicate LeadsTo(fs: FileSystem, names: map<Path, Path>, from: Path, to: Path) {
    exists chain :: NodeChainFromTo(fs, names, chain, from, to)
  }

  ghost predicate IsCircle(fs: FileSystem, names: map<Path, Path>, chain: seq<Path>) {
    IsNodeChain(fs, names, chain) && |chain| >= 2 && chain[0] == chain[|chain| - 1]
  }

  ghost predicate Circular(fs: FileSystem, names: map<Path, Path>) {
    exists chain :: IsCircle(fs, names, chain)
  }

  ghost predicate Extends(a: map<Path, Path>, b: map<Path, Path>) {
    forall n :: n in a ==> n in b && b[n] == a[n]
  }

  lemma NodeChainStays(fs: FileSystem, a: map<Path, Path>, b: map<Path, Path>, chain: seq<Path>)
    requires Extends(a, b) && IsNodeChain(fs, a, chain)
    ensures IsNodeChain(fs, b, chain)
  {
    forall i | 0 < i < |chain| ensures NodeIncludes(fs, b, chain[i - 1], chain[i]) {
      assert NodeIncludes(fs, a, chain[i - 1], chain[i]);
    }
  }

  lemma CircleStays(fs: FileSystem, a: map<Path, Path>, b: map<Path, Path>)
    requires Extends(a, b)
    ensures Circular(fs, a) ==> Circular(fs, b)
  {
    if chain :| IsCircle(fs, a, chain) {
      NodeChainStays(fs, a, b, chain);
      assert IsCircle(fs, b, chain);
    }
  }

  lemma {:induction false} NodeChainGrows(fs: FileSystem, names: map<Path, Path>, chain: seq<Path>, n: Path)
    requires IsNodeChain(fs, names, chain)
    requires NodeIncludes(fs, names, chain[|chain| - 1], n)
    ensures IsNodeChain(fs, names, chain + [n])
  {
    var longer := chain + [n];
    forall i | 0 < i < |longer| ensures NodeIncludes(fs, names, longer[i - 1], longer[i]) {
      if i < |chain| {
        assert NodeIncludes(fs, names, chain[i - 1], chain[i]);
        assert longer[i - 1] == chain[i - 1] && longer[i] == chain[i];
      } else {
        assert longer[i - 1] == chain[|chain| - 1] && longer[i] == n;
      }
    }
  }

  // ---------- a warning means a circle ----------

  // Every file being expanded leads to n.
  ghost predicate StackLeadsTo(fs: FileSystem, st: State, n: Path) {
    forall m :: m in st.stack ==> LeadsTo(fs, st.names, m, n)
  }

  // The file is being expanded under this name, and the stack leads to it.
  ghost predicate InExpansion(fs: FileSystem, st: State, file: Path) {
    var n := fs.realpath(file);
    n in st.names && st.names[n] == file && StackLeadsTo(fs, st, n)
  }

  lemma {:induction false} StillInExpansion(fs: FileSystem, st: State, next: State, file: Path)
    requires InExpansion(fs, st, file) && Grows(st, next)
    ensures InExpansion(fs, next, file)
  {
    forall m | m in next.stack ensures LeadsTo(fs, next.names, m, fs.realpath(file)) {
      var chain :| NodeChainFromTo(fs, st.names, chain, m, fs.realpath(file));
      NodeChainStays(fs, st.names, next.names, chain);
      assert NodeChainFromTo(fs, next.names, chain, m, fs.realpath(file));
    }
  }

  lemma {:induction false} BackEdgeCloses(fs: FileSystem, st: State, file: Path, n: Path)
    requires InExpansion(fs, st, file) && n in st.stack && n in RealTargets(fs, file)
    ensures Circular(fs, st.names)
  {
    var chain :| NodeChainFromTo(fs, st.names, chain, n, fs.realpath(file));
    NodeChainGrows(fs, st.names, chain, n);
    assert IsCircle(fs, st.names, chain + [n]);
  }

  lemma {:induction false} EnteredInExpansion(fs: FileSystem, st: State, file: Path, target: Path)
    requires InExpansion(fs, st, file) && fs.realpath(target) in RealTargets(fs, file) && fs.realpath(target) !in st.names
    ensures InExpansion(fs, Enter(fs, target, st), target)
  {
    var n, inner := fs.realpath(target), Enter(fs, target, st);
    forall m | m in inner.stack ensures LeadsTo(fs, inner.names, m, n) {
      if m == n {
        assert NodeChainFromTo(fs, inner.names, [n], n, n);
      } else {
        var chain :| NodeChainFromTo(fs, st.names, chain, m, fs.realpath(file));
        NodeChainStays(fs, st.names, inner.names, chain);
        NodeChainGrows(fs, inner.names, chain, n);
        assert NodeChainFromTo(fs, inner.names, chain + [n], m, n);
      }
    }
  }

  // A warning that is new comes with a circle.
  ghost predicate WarnsOnlyOfCircles(fs: FileSystem, before: State, after: State) {
    WarnedOfCycle(after.warnings) ==> WarnedOfCycle(before.warnings) || Circular(fs, after.names)
  }

  lemma {:induction false} RunWarnsOnlyOfCircles(fs: FileSystem, file: Path, steps: seq<Step>, out: seq<ConfigLine>, st: State)
    requires Finite(fs) && ReadableAlike(fs) && Consistent(fs, st) && InExpansion(fs, st, file) && AreStepsOf(fs, file, steps)
    ensures WarnsOnlyOfCircles(fs, st, RunSteps(fs, file, steps, out, st).1)
    decreases |fs.nodes - st.visited|, |steps|
  {
    if steps != [] {
      var first, rest := steps[0], steps[1..];
      assert steps == [first] + rest;
      FirstOfSteps(fs, file, first, rest);
      if first.Follow? {
        StepWarnsOnlyOfCircles(fs, file, first.target, first.lineNumber, rest, out, st);
      } else if first.Emit? {
        RunWarnsOnlyOfCircles(fs, file, rest, out + [first.line], st);
      } else {
        var next := Warn(st, IncludeNotFound(first.pattern, file, first.lineNumber));
        StillInExpansion(fs, st, next, file);
        RunWarnsOnlyOfCircles(fs, file, rest, out, next);
      }
    }
  }

  lemma {:induction false} StepWarnsOnlyOfCircles(
      fs: FileSystem, file: Path, target: Path, lineNumber: nat, rest: seq<Step>, out: seq<ConfigLine>, st: State)
    requires Finite(fs) && ReadableAlike(fs) && Consistent(fs, st) && InExpansion(fs, st, file)
    requires Includes(fs, file, target) && AreStepsOf(fs, file, rest)
    ensures WarnsOnlyOfCircles(fs, st, RunSteps(fs, file, [Follow(target, lineNumber)] + rest, out, st).1)
    decreases |fs.nodes - st.visited|, |rest| + 1, 0
  {
    var (out', next) := AfterFollow(fs, file, target, lineNumber, out, st);
    FollowFirst(fs, file, target, lineNumber, rest, out, st);
    FollowWarnsOnlyOfCircles(fs, file, target, st);
    StillInExpansion(fs, st, next, file);
    RunWarnsOnlyOfCircles(fs, file, rest, out', next);
    RunKeeps(fs, file, rest, out', next);
    CircleStays(fs, next.names, RunSteps(fs, file, rest, out', next).1.names);
  }

  lemma {:induction false} FollowWarnsOnlyOfCircles(fs: FileSystem, file: Path, target: Path, st: State)
    requires Finite(fs) && ReadableAlike(fs) && Consistent(fs, st) && InExpansion(fs, st, file) && Includes(fs, file, target)
    ensures WarnsOnlyOfCircles(fs, st, Flatten(fs, target, st).1)
    decreases |fs.nodes - st.visited|, 0
  {
    var n := fs.realpath(target);
    if n in st.stack {
      assert fs.realpath(st.names[n]) == fs.realpath(target);
      IncludedTarget(fs, file, target);
      BackEdgeCloses(fs, st, file, n);
    } else if n !in st.visited && fs.read(target).Some? {
      IncludedTarget(fs, file, target);
      EnteredInExpansion(fs, st, file, target);
      ExpansionWarnsOnlyOfCircles(fs, target, st);
    }
  }

  lemma {:induction false} ExpansionWarnsOnlyOfCircles(fs: FileSystem, path: Path, st: State)
    requires Finite(fs) && ReadableAlike(fs) && Consistent(fs, st)
    requires fs.read(path).Some? && fs.realpath(path) !in st.visited && InExpansion(fs, Enter(fs, path, st), path)
    ensures WarnsOnlyOfCircles(fs, st, Flatten(fs, path, st).1)
    decreases |fs.nodes - st.visited|, 0, 0
  {
    EnterKeepsConsistent(fs, path, st);
    Expansion(fs, path, st);
    StepsOfFile(fs, path);
    RunWarnsOnlyOfCircles(fs, path, FileSteps(fs, path), [], Enter(fs, path, st));
  }

  // ---------- without a warning the expanded files have a ranking ----------

  // The finished files are ranked below `bound`, each above everything it includes.
  ghost predicate Ranked(fs: FileSystem, names: map<Path, Path>, rank: map<Path, nat>, bound: nat) {
    forall n :: n in rank ==>
      && rank[n] < bound && n in names
      && forall m :: m in RealTargets(fs, names[n]) ==> m in rank && rank[m] < rank[n]
  }

  // All that is visited but not on the stack is ranked.
  ghost predicate RanksFinished(fs: FileSystem, st: State, rank: map<Path, nat>, bound: nat) {
    Ranked(fs, st.names, rank, bound) && rank.Keys == st.visited - st.stack
  }

  lemma {:induction false} FlattenRanks(fs: FileSystem, path: Path, st: State, rank: map<Path, nat>, bound: nat)
    returns (rank': map<Path, nat>, bound': nat)
    requires Finite(fs) && Consistent(fs, st) && RanksFinished(fs, st, rank, bound)
    requires !WarnedOfCycle(Flatten(fs, path, st).1.warnings)
    ensures RanksFinished(fs, Flatten(fs, path, st).1, rank', bound')
    ensures fs.read(path).Some? ==> fs.realpath(path) in rank'
    decreases |fs.nodes - st.visited|, 0
  {
    var n := fs.realpath(path);
    rank', bound' := rank, bound;
    if n !in st.visited && fs.read(path).Some? {
      rank', bound' := ExpansionRanks(fs, path, st, rank, bound);
    } else {
      NotOnStack(fs, path, st);
    }
  }

  lemma NotOnStack(fs: FileSystem, path: Path, st: State)
    requires Finite(fs) && !WarnedOfCycle(Flatten(fs, path, st).1.warnings)
    ensures fs.realpath(path) !in st.stack
  {
    var warnings := Flatten(fs, path, st).1.warnings;
    assert fs.realpath(path) in st.stack ==> warnings == st.warnings + [IncludeCycle(path)];
    assert fs.realpath(path) in st.stack ==> IncludeCycle(path) in warnings;
  }

  lemma {:induction false} ExpansionRanks(fs: FileSystem, path: Path, st: State, rank: map<Path, nat>, bound: nat)
    returns (rank': map<Path, nat>, bound': nat)
    requires Finite(fs) && Consistent(fs, st) && RanksFinished(fs, st, rank, bound)
    requires fs.realpath(path) !in st.visited && fs.read(path).Some?
    requires !WarnedOfCycle(Flatten(fs, path, st).1.warnings)
    ensures RanksFinished(fs, Flatten(fs, path, st).1, rank', bound')
    ensures fs.realpath(path) in rank'
    decreases |fs.nodes - st.visited|, 0, 0
  {
    var n, inner := fs.realpath(path), Enter(fs, path, st);
    EnterKeepsConsistent(fs, path, st);
    Expansion(fs, path, st);
    SameFinished(st.visited, st.stack, n);
    rank', bound' := RunRanks(fs, path, FileSteps(fs, path), [], inner, rank, bound);
    RunKeeps(fs, path, FileSteps(fs, path), [], inner);
    var after := RunSteps(fs, path, FileSteps(fs, path), [], inner).1;
    TargetsOfFile(fs, path, rank'.Keys);
    rank', bound' := LeaveRanks(fs, st, path, after, rank', bound');
  }

  lemma SameFinished(visited: set<Path>, stack: set<Path>, n: Path)
    ensures (visited + {n}) - (stack + {n}) == visited - stack - {n}
    ensures n !in visited ==> visited - stack - {n} == visited - stack
  {
  }

  // The file is finished: it leaves the stack and gets the next rank.
  lemma {:induction false} LeaveRanks(
      fs: FileSystem, st: State, path: Path, after: State, rank: map<Path, nat>, bound: nat)
    returns (rank': map<Path, nat>, bound': nat)
    requires var n := fs.realpath(path);
             n !in st.stack && after.stack == st.stack + {n} && n in after.names && after.names[n] == path && n in after.visited
    requires RanksFinished(fs, after, rank, bound) && RealTargets(fs, path) <= rank.Keys
    ensures RanksFinished(fs, after.(stack := after.stack - {fs.realpath(path)}), rank', bound')
    ensures fs.realpath(path) in rank'
  {
    var n := fs.realpath(path);
    RankOneMore(fs, after.names, n, rank, bound);
    rank', bound' := rank[n := bound], bound + 1;
    OneMoreFinished(after.visited, after.stack, n);
  }

  lemma OneMoreFinished(visited: set<Path>, stack: set<Path>, n: Path)
    requires n in visited && n in stack
    ensures visited - (stack - {n}) == (visited - stack) + {n}
  {
  }

  lemma {:induction false} RankOneMore(fs: FileSystem, names: map<Path, Path>, n: Path, rank: map<Path, nat>, bound: nat)
    requires Ranked(fs, names, rank, bound) && n in names && n !in rank && RealTargets(fs, names[n]) <= rank.Keys
    ensures Ranked(fs, names, rank[n := bound], bound + 1)
  {
  }

  // The readable files that the steps follow are ranked.
  ghost predicate TargetsRanked(fs: FileSystem, steps: seq<Step>, rank: map<Path, nat>) {
    TargetsVisited(fs, steps, rank.Keys)
  }

  lemma {:induction false} RunRanks(
      fs: FileSystem, file: Path, steps: seq<Step>, out: seq<ConfigLine>, st: State, rank: map<Path, nat>, bound: nat)
    returns (rank': map<Path, nat>, bound': nat)
    requires Finite(fs) && Consistent(fs, st) && RanksFinished(fs, st, rank, bound)
    requires !WarnedOfCycle(RunSteps(fs, file, steps, out, st).1.warnings)
    ensures RanksFinished(fs, RunSteps(fs, file, steps, out, st).1, rank', bound')
    ensures TargetsRanked(fs, steps, rank')
    decreases |fs.nodes - st.visited|, |steps|
  {
    rank', bound' := rank, bound;
    if steps != [] {
      var first, rest := steps[0], steps[1..];
      assert steps == [first] + rest;
      FirstOfSteps(fs, file, first, rest);
      if first.Follow? {
        rank', bound' := FollowRanks(fs, file, first.target, first.lineNumber, rest, out, st, rank, bound);
      } else if first.Emit? {
        rank', bound' := RunRanks(fs, file, rest, out + [first.line], st, rank, bound);
      } else {
        rank', bound' :=
          RunRanks(fs, file, rest, out, Warn(st, IncludeNotFound(first.pattern, file, first.lineNumber)), rank, bound);
      }
    }
  }

  lemma {:induction false} FollowRanks(
      fs: FileSystem, file: Path, target: Path, lineNumber: nat, rest: seq<Step>, out: seq<ConfigLine>, st: State,
      rank: map<Path, nat>, bound: nat)
    returns (rank': map<Path, nat>, bound': nat)
    requires Finite(fs) && Consistent(fs, st) && RanksFinished(fs, st, rank, bound)
    requires !WarnedOfCycle(RunSteps(fs, file, [Follow(target, lineNumber)] + rest, out, st).1.warnings)
    ensures RanksFinished(fs, RunSteps(fs, file, [Follow(target, lineNumber)] + rest, out, st).1, rank', bound')
    ensures TargetsRanked(fs, rest, rank')
    ensures fs.read(target).Some? ==> fs.realpath(target) in rank'
    decreases |fs.nodes - st.visited|, |rest| + 1, 0
  {
    var (out', next) := AfterFollow(fs, file, target, lineNumber, out, st);
    FollowFirst(fs, file, target, lineNumber, rest, out, st);
    var after := RunSteps(fs, file, rest, out', next).1;
    FewerWarnings(Flatten(fs, target, st).1.warnings, next.warnings, after.warnings);
    var rank1, bound1 := FlattenRanks(fs, target, st, rank, bound);
    rank', bound' := RunRanks(fs, file, rest, out', next, rank1, bound1);
    RunKeeps(fs, file, rest, out', next);
    assert rank1.Keys <= rank'.Keys;
  }

  lemma FewerWarnings(a: seq<Warning>, b: seq<Warning>, c: seq<Warning>)
    requires a <= b <= c && !WarnedOfCycle(c)
    ensures !WarnedOfCycle(a)
  {
    forall warning | warning in a ensures warning in c {
    }
  }

  lemma {:induction false} ChainDescends(
      fs: FileSystem, names: map<Path, Path>, rank: map<Path, nat>, bound: nat, chain: seq<Path>)
    requires Ranked(fs, names, rank, bound) && IsNodeChain(fs, names, chain) && chain[0] in rank
    ensures chain[|chain| - 1] in rank
    ensures |chain| >= 2 ==> rank[chain[|chain| - 1]] < rank[chain[0]]
  {
    if |chain| > 1 {
      ChainDescends(fs, names, rank, bound, chain[..|chain| - 1]);
      assert NodeIncludes(fs, names, chain[|chain| - 2], chain[|chain| - 1]);
    }
  }

  /**
   The walk warns of a cycle exactly when the files it expanded, each under the name it was expanded by, include each
   other in a circle.
   */
  lemma {:induction false} CycleWarningIsExact(fs: FileSystem, root: Path)
    requires Finite(fs) && ReadableAlike(fs) && fs.read(root).Some?
    ensures var after := Flatten(fs, root, START).1; WarnedOfCycle(after.warnings) <==> Circular(fs, after.names)
  {
    RootInExpansion(fs, root);
    ExpansionWarnsOnlyOfCircles(fs, root, START);
    if !WarnedOfCycle(Flatten(fs, root, START).1.warnings) {
      NoWarningNoCircle(fs, root);
    }
  }

  lemma {:induction false} NoWarningNoCircle(fs: FileSystem, root: Path)
    requires Finite(fs) && !WarnedOfCycle(Flatten(fs, root, START).1.warnings)
    ensures !Circular(fs, Flatten(fs, root, START).1.names)
  {
    var after := Flatten(fs, root, START).1;
    var rank, bound := FlattenRanks(fs, root, START, map[], 0);
    FlattenKeeps(fs, root, START);
    forall chain ensures !IsCircle(fs, after.names, chain) {
      NoCircle(fs, after, rank, bound, chain);
    }
  }

  lemma {:induction false} NoCircle(fs: FileSystem, st: State, rank: map<Path, nat>, bound: nat, chain: seq<Path>)
    requires Consistent(fs, st) && st.stack == {} && RanksFinished(fs, st, rank, bound)
    ensures !IsCircle(fs, st.names, chain)
  {
    if IsCircle(fs, st.names, chain) {
      assert NodeIncludes(fs, st.names, chain[0], chain[1]);
      ChainDescends(fs, st.names, rank, bound, chain);
    }
  }

  lemma RootInExpansion(fs: FileSystem, root: Path)
    ensures InExpansion(fs, Enter(fs, root, START), root)
  {
    var inner, n := Enter(fs, root, START), fs.realpath(root);
    assert NodeChainFromTo(fs, inner.names, [n], n, n);
  }

  // ---------- circles of files ----------

  ghost predicate ClosedChain(fs: FileSystem, chain: seq<Path>) {
    IsChain(fs, chain) && |chain| >= 2 && fs.realpath(chain[0]) == fs.realpath(chain[|chain| - 1])
  }

  // Some reachable file includes itself, directly or through other files, under whatever names.
  ghost predicate Cyclic(fs: FileSystem, root: Path) {
    exists chain :: ClosedChain(fs, chain) && Reachable(fs, root, chain[0])
  }

  function RealPaths(fs: FileSystem, chain: seq<Path>): (nodes: seq<Path>)
    ensures |nodes| == |chain| && forall i :: 0 <= i < |chain| ==> nodes[i] == fs.realpath(chain[i])
  {
    seq(|chain|, i requires 0 <= i < |chain| => fs.realpath(chain[i]))
  }

  lemma {:induction false} ChainOfNodes(fs: FileSystem, st: State, chain: seq<Path>)
    requires Coherent(fs) && Consistent(fs, st) && IsChain(fs, chain) && fs.realpath(chain[0]) in st.visited
    requires forall n :: n in st.names ==> RealTargets(fs, st.names[n]) <= st.visited
    ensures IsNodeChain(fs, st.names, RealPaths(fs, chain))
  {
    var nodes := RealPaths(fs, chain);
    forall i | 0 < i < |nodes| ensures NodeIncludes(fs, st.names, nodes[i - 1], nodes[i]) {
      PrefixIsChain(fs, chain, i);
      ChainIsVisited(fs, st, chain[..i]);
      NodeLink(fs, st, chain[i - 1], chain[i]);
    }
  }

  lemma {:induction false} NodeLink(fs: FileSystem, st: State, file: Path, target: Path)
    requires Coherent(fs) && Consistent(fs, st) && fs.realpath(file) in st.visited
    requires Includes(fs, file, target) && fs.read(target).Some?
    ensures NodeIncludes(fs, st.names, fs.realpath(file), fs.realpath(target))
  {
    IncludedTarget(fs, file, target);
    assert RealTargets(fs, st.names[fs.realpath(file)]) == RealTargets(fs, file);
  }

  lemma {:induction false} FilesAlong(fs: FileSystem, st: State, nodes: seq<Path>) returns (chain: seq<Path>)
    requires Coherent(fs) && Consistent(fs, st) && IsNodeChain(fs, st.names, nodes) && nodes[0] in st.names
    ensures IsChain(fs, chain) && |chain| == |nodes|
    ensures chain[0] == st.names[nodes[0]] && fs.realpath(chain[|chain| - 1]) == nodes[|nodes| - 1]
  {
    if |nodes| == 1 {
      chain := [st.names[nodes[0]]];
    } else {
      var front := FilesAlong(fs, st, nodes[..|nodes| - 1]);
      var last := front[|front| - 1];
      assert NodeIncludes(fs, st.names, nodes[|nodes| - 2], nodes[|nodes| - 1]);
      assert RealTargets(fs, last) == RealTargets(fs, st.names[nodes[|nodes| - 2]]);
      var target := TargetIncluded(fs, last, nodes[|nodes| - 1]);
      ChainExtends(fs, front, target);
      chain := front + [target];
    }
  }

  /**
   If a file includes the same files under all its names, that is exactly when the files reachable from the root include
   each other in a circle.
   */
  lemma {:induction false} CycleWarningMeansCircle(fs: FileSystem, root: Path)
    requires Finite(fs) && ReadableAlike(fs) && Coherent(fs) && fs.read(root).Some?
    ensures WarnedOfCycle(Flatten(fs, root, START).1.warnings) <==> Cyclic(fs, root)
  {
    CycleWarningIsExact(fs, root);
    if Cyclic(fs, root) {
      CircleOfFiles(fs, root);
    }
    if Circular(fs, Flatten(fs, root, START).1.names) {
      FilesOfCircle(fs, root);
    }
  }

  lemma {:induction false} CircleOfFiles(fs: FileSystem, root: Path)
    requires Finite(fs) && Coherent(fs) && fs.read(root).Some? && Cyclic(fs, root)
    ensures Circular(fs, Flatten(fs, root, START).1.names)
  {
    var after := Flatten(fs, root, START).1;
    var chain :| ClosedChain(fs, chain) && Reachable(fs, root, chain[0]);
    WalkFollowsItsNames(fs, root);
    WalkVisitsExactlyReachable(fs, root);
    FlattenKeeps(fs, root, START);
    ChainOfNodes(fs, after, chain);
    assert IsCircle(fs, after.names, RealPaths(fs, chain));
  }

  lemma {:induction false} FilesOfCircle(fs: FileSystem, root: Path)
    requires Finite(fs) && Coherent(fs) && fs.read(root).Some? && Circular(fs, Flatten(fs, root, START).1.names)
    ensures Cyclic(fs, root)
  {
    var after := Flatten(fs, root, START).1;
    var nodes :| IsCircle(fs, after.names, nodes);
    WalkFollowsItsNames(fs, root);
    FlattenKeeps(fs, root, START);
    assert NodeIncludes(fs, after.names, nodes[0], nodes[1]);
    var chain := FilesAlong(fs, after, nodes);
    assert ClosedChain(fs, chain);
  }
}

/**
 The warnings of the Include walk other than cycles: one for every pattern without a match and every unreadable
 include of an expanded file, and no others.
 */
module IncludeWarnings {
  import opened Wrappers
  import opened ConfigInclude
  import opened IncludeReachability

  // The steps of the file give cause for the warning.
  ghost predicate Warrants(fs: FileSystem, file: Path, steps: seq<Step>, warning: Warning) {
    match warning
    case IncludeCycle(_) => false
    case IncludeNotFound(pattern, filePath, lineNumber) => filePath == file && NoMatch(pattern, lineNumber) in steps
    case IncludeReadFailed(path, filePath, lineNumber) =>
      filePath == file && Follow(path, lineNumber) in steps && fs.read(path).None?
  }

  // Some file expanded between the two moments does.
  ghost predicate Justified(fs: FileSystem, before: State, after: State, warning: Warning) {
    !warning.IncludeCycle? && Expanded(fs, before, after, warning.filePath)
    && Warrants(fs, warning.filePath, FileSteps(fs, warning.filePath), warning)
  }

  // A pattern without a match is always warned of; an unreadable include, if it cannot be read under another name.
  ghost predicate Foreseen(fs: FileSystem, warning: Warning) {
    warning.IncludeNotFound? || (warning.IncludeReadFailed? && ReadableAlike(fs))
  }

  // The new warnings that are foreseen are those of the files expanded.
  ghost predicate WarnsExactly(fs: FileSystem, before: State, after: State) {
    forall w: Warning :: Foreseen(fs, w) ==>
      (w in after.warnings <==> w in before.warnings || Justified(fs, before, after, w))
  }

  // The same, with those of the steps of a file that is being expanded.
  ghost predicate WarnsExactlyWith(fs: FileSystem, file: Path, steps: seq<Step>, before: State, after: State) {
    forall w: Warning :: Foreseen(fs, w) ==>
      (w in after.warnings <==> w in before.warnings || Justified(fs, before, after, w) || Warrants(fs, file, steps, w))
  }

  // What following an unreadable target adds; only a file with another, readable name is not reported.
  lemma {:induction false} FollowUnreadable(fs: FileSystem, target: Path, st: State)
    requires Finite(fs) && Consistent(fs, st) && fs.read(target).None?
    ensures var (r, after) := Flatten(fs, target, st);
            && after.names == st.names
            && (after == st || after == Warn(st, IncludeCycle(target)))
            && (r.Ok? ==> !ReadableAlike(fs))
            && (r.Err? ==> r.error == target && after == st)
  {
    var n := fs.realpath(target);
    if n in st.visited {
      assert fs.realpath(st.names[n]) == fs.realpath(target);
    }
  }

  lemma {:induction false} FollowReadable(fs: FileSystem, target: Path, st: State)
    requires Finite(fs) && fs.read(target).Some?
    ensures Flatten(fs, target, st).0.Ok?
  {
  }

  lemma {:induction false} FlattenWarns(fs: FileSystem, path: Path, st: State)
    requires Finite(fs) && Consistent(fs, st)
    ensures WarnsExactly(fs, st, Flatten(fs, path, st).1)
    decreases |fs.nodes - st.visited|, 0
  {
    if fs.realpath(path) !in st.visited && fs.read(path).Some? {
      var inner := Enter(fs, path, st);
      EnterKeepsConsistent(fs, path, st);
      Expansion(fs, path, st);
      RunWarns(fs, path, FileSteps(fs, path), [], inner);
      RunKeeps(fs, path, FileSteps(fs, path), [], inner);
      EnteredWarns(fs, path, st, RunSteps(fs, path, FileSteps(fs, path), [], inner).1, Flatten(fs, path, st).1);
    }
  }

  lemma {:induction false} EnteredWarns(fs: FileSystem, path: Path, st: State, after: State, left: State)
    requires fs.realpath(path) !in st.names && Grows(Enter(fs, path, st), after)
    requires WarnsExactlyWith(fs, path, FileSteps(fs, path), Enter(fs, path, st), after)
    requires left.warnings == after.warnings && left.names == after.names
    ensures WarnsExactly(fs, st, left)
  {
    forall f ensures Expanded(fs, st, left, f) <==> f == path || Expanded(fs, Enter(fs, path, st), after, f) {
      assert fs.realpath(path) in after.names;
    }
  }

  lemma {:induction false} RunWarns(fs: FileSystem, file: Path, steps: seq<Step>, out: seq<ConfigLine>, st: State)
    requires Finite(fs) && Consistent(fs, st)
    ensures WarnsExactlyWith(fs, file, steps, st, RunSteps(fs, file, steps, out, st).1)
    decreases |fs.nodes - st.visited|, |steps|
  {
    if steps != [] {
      var first, rest := steps[0], steps[1..];
      assert steps == [first] + rest;
      WarrantsFirst(fs, file, first, rest);
      if first.Emit? {
        RunWarns(fs, file, rest, out + [first.line], st);
      } else if first.NoMatch? {
        var next := Warn(st, IncludeNotFound(first.pattern, file, first.lineNumber));
        RunWarns(fs, file, rest, out, next);
        SameNamesJustify(fs, st, next, RunSteps(fs, file, rest, out, next).1);
      } else {
        FollowWarns(fs, file, first.target, first.lineNumber, rest, out, st);
      }
    }
  }

  lemma SameNamesJustify(fs: FileSystem, a: State, b: State, after: State)
    requires a.names == b.names
    ensures forall w: Warning :: Justified(fs, a, after, w) <==> Justified(fs, b, after, w)
  {
  }

  lemma {:induction false} FollowWarns(
      fs: FileSystem, file: Path, target: Path, lineNumber: nat, rest: seq<Step>, out: seq<ConfigLine>, st: State)
    requires Finite(fs) && Consistent(fs, st)
    ensures var steps := [Follow(target, lineNumber)] + rest;
            WarnsExactlyWith(fs, file, steps, st, RunSteps(fs, file, steps, out, st).1)
    decreases |fs.nodes - st.visited|, |rest| + 1, 0
  {
    var (out', next) := AfterFollow(fs, file, target, lineNumber, out, st);
    var after := RunSteps(fs, file, rest, out', next).1;
    FollowFirst(fs, file, target, lineNumber, rest, out, st);
    WarrantsFirst(fs, file, Follow(target, lineNumber), rest);
    RunWarns(fs, file, rest, out', next);
    RunKeeps(fs, file, rest, out', next);
    if fs.read(target).None? {
      FollowUnreadable(fs, target, st);
      SameNamesJustify(fs, st, next, after);
    } else {
      FollowReadable(fs, target, st);
      FlattenWarns(fs, target, st);
      JustifiedInEither(fs, st, next, after);
    }
  }

  lemma {:induction false} JustifiedInEither(fs: FileSystem, a: State, b: State, c: State)
    requires Grows(a, b) && Grows(b, c)
    ensures forall w: Warning :: Justified(fs, a, c, w) <==> Justified(fs, a, b, w) || Justified(fs, b, c, w)
  {
    forall w: Warning ensures Justified(fs, a, c, w) <==> Justified(fs, a, b, w) || Justified(fs, b, c, w) {
      if !w.IncludeCycle? {
        ExpandedInEither(fs, a, b, c, w.filePath);
      }
    }
  }

  lemma WarrantsFirst(fs: FileSystem, file: Path, first: Step, rest: seq<Step>)
    ensures forall w: Warning :: Warrants(fs, file, [first] + rest, w) <==>
              || Warrants(fs, file, rest, w)
              || (first.NoMatch? && w == IncludeNotFound(first.pattern, file, first.lineNumber))
              || (first.Follow? && fs.read(first.target).None? && w == IncludeReadFailed(first.target, file, first.lineNumber))
  {
  }

  /**
   Besides cycles, the walk warns exactly of the patterns without a match in the files it expanded, and if a file can be
   read under all its names or none, exactly of the unreadable includes in them, each at its file and line.
   */
  lemma {:induction false} WarningsAreExact(fs: FileSystem, root: Path)
    requires Finite(fs)
    ensures var after := Flatten(fs, root, START).1;
            forall w: Warning :: Foreseen(fs, w) ==>
              (w in after.warnings <==>
                && fs.realpath(w.filePath) in after.names && after.names[fs.realpath(w.filePath)] == w.filePath
                && Warrants(fs, w.filePath, FileSteps(fs, w.filePath), w))
  {
    FlattenWarns(fs, root, START);
  }
}

/**
 The Include walk in terms of the text of the files alone: which lines come out and in what order, and which files
 are followed or warned of.
 */
module IncludeText {
  import opened Wrappers
  import opened ConfigInclude
  import opened IncludePlaces
  import opened IncludeReachability
  import opened IncludeWarnings

  // ---------- which lines come out ----------

  // A line of the output is a line of its file.
  ghost predicate IsLineOfItsFile(fs: FileSystem, line: ConfigLine) {
    var items := fs.read(line.filePath);
    items.Some? && 1 <= line.lineNumber <= |items.value| && items.value[line.lineNumber - 1] == Text(line.text)
  }

  ghost predicate Ascending(lines: seq<ConfigLine>) {
    forall k, m :: 0 <= k < m < |lines| ==> lines[k].lineNumber < lines[m].lineNumber
  }

  // Of each file, the lines are in ascending order.
  ghost predicate AscendingInEachFile(lines: seq<ConfigLine>) {
    forall k, m :: 0 <= k < m < |lines| && lines[k].filePath == lines[m].filePath ==> lines[k].lineNumber < lines[m].lineNumber
  }

  ghost predicate EmitsAscend(steps: seq<Step>) {
    forall s, t :: 0 <= s < t < |steps| && steps[s].Emit? && steps[t].Emit? ==> steps[s].line.lineNumber < steps[t].line.lineNumber
  }

  lemma {:induction false} OwnLinesAreEmitted(steps: seq<Step>)
    ensures forall line :: line in OwnLines(steps) <==> Emit(line) in steps
  {
    if steps != [] {
      OwnLinesAreEmitted(steps[1..]);
      assert steps == [steps[0]] + steps[1..];
    }
  }

  lemma {:induction false} OwnLinesAscend(steps: seq<Step>)
    requires EmitsAscend(steps)
    ensures Ascending(OwnLines(steps))
  {
    if steps != [] {
      var rest := steps[1..];
      assert EmitsAscend(rest) by {
        assert forall s :: 0 <= s < |rest| ==> rest[s] == steps[s + 1];
      }
      OwnLinesAscend(rest);
      OwnLinesAreEmitted(rest);
      if steps[0].Emit? {
        var own := OwnLines(rest);
        forall k | 0 <= k < |own| ensures steps[0].line.lineNumber < own[k].lineNumber {
          assert own[k] in own;
          var t :| 0 <= t < |rest| && rest[t] == Emit(own[k]);
          assert steps[t + 1] == rest[t];
        }
      }
    }
  }

  lemma {:induction false} LinesOfAreThere(lines: seq<ConfigLine>, file: Path)
    ensures forall line :: line in LinesOf(lines, file) <==> line in lines && line.filePath == file
  {
    if lines != [] {
      LinesOfAreThere(lines[1..], file);
    }
  }

  lemma {:induction false} AscendingFromEach(lines: seq<ConfigLine>)
    requires forall file :: Ascending(LinesOf(lines, file))
    ensures AscendingInEachFile(lines)
  {
    if lines != [] {
      var first, rest := lines[0], lines[1..];
      assert lines == [first] + rest;
      forall file ensures Ascending(LinesOf(rest, file)) {
        RestAscends(first, rest, file);
      }
      AscendingFromEach(rest);
      FirstIsLeast(first, rest);
      FirstAscends(first, rest);
    }
  }

  lemma {:induction false} FirstIsLeast(first: ConfigLine, rest: seq<ConfigLine>)
    requires Ascending(LinesOf([first] + rest, first.filePath))
    ensures forall m :: 0 <= m < |rest| && rest[m].filePath == first.filePath ==> first.lineNumber < rest[m].lineNumber
  {
    var all, mine := LinesOf([first] + rest, first.filePath), LinesOf(rest, first.filePath);
    assert ([first] + rest)[1..] == rest;
    assert all == [first] + mine;
    LinesOfAreThere(rest, first.filePath);
    forall m | 0 <= m < |rest| && rest[m].filePath == first.filePath ensures first.lineNumber < rest[m].lineNumber {
      assert rest[m] in mine;
      var k :| 0 <= k < |mine| && mine[k] == rest[m];
      assert all[0] == first && all[k + 1] == rest[m];
    }
  }

  lemma FirstAscends(first: ConfigLine, rest: seq<ConfigLine>)
    requires AscendingInEachFile(rest)
    requires forall m :: 0 <= m < |rest| && rest[m].filePath == first.filePath ==> first.lineNumber < rest[m].lineNumber
    ensures AscendingInEachFile([first] + rest)
  {
  }

  lemma {:induction false} RestAscends(first: ConfigLine, rest: seq<ConfigLine>, file: Path)
    requires Ascending(LinesOf([first] + rest, file))
    ensures Ascending(LinesOf(rest, file))
  {
    var all, mine := LinesOf([first] + rest, file), LinesOf(rest, file);
    assert ([first] + rest)[1..] == rest;
    assert forall k :: 0 <= k < |mine| ==> mine[k] == all[|all| - |mine| + k];
  }

  lemma {:induction false} OwnLinesAreTheText(fs: FileSystem, file: Path)
    requires fs.read(file).Some?
    ensures Ascending(OwnLines(FileSteps(fs, file)))
    ensures forall line :: line in OwnLines(FileSteps(fs, file)) <==> line.filePath == file && IsLineOfItsFile(fs, line)
  {
    EmitsAreInOrder(fs, file);
    OwnLinesAscend(FileSteps(fs, file));
    OwnLinesAreEmitted(FileSteps(fs, file));
    forall line ensures Emit(line) in FileSteps(fs, file) <==> line.filePath == file && IsLineOfItsFile(fs, line) {
      EmitStep(fs, file, line);
    }
  }

  lemma {:induction false} EmitsAreInOrder(fs: FileSystem, file: Path)
    requires fs.read(file).Some?
    ensures EmitsAscend(FileSteps(fs, file))
  {
    var steps := FileSteps(fs, file);
    var places := StepsAreThePlaces(fs, file);
    forall s, t | 0 <= s < t < |steps| && steps[s].Emit? && steps[t].Emit?
      ensures steps[s].line.lineNumber < steps[t].line.lineNumber
    {
      assert Before(places[s], places[t]);
      assert Says(file, fs.read(file).value, places[s], steps[s]) && Says(file, fs.read(file).value, places[t], steps[t]);
    }
  }

  lemma {:induction false} EmitStep(fs: FileSystem, file: Path, line: ConfigLine)
    requires fs.read(file).Some?
    ensures Emit(line) in FileSteps(fs, file) <==> line.filePath == file && IsLineOfItsFile(fs, line)
  {
    if Emit(line) in FileSteps(fs, file) {
      var at := PlaceOfStep(fs, file, Emit(line));
    } else if line.filePath == file && IsLineOfItsFile(fs, line) {
      var step := StepOfPlace(fs, file, Place(line.lineNumber - 1, 0, 0));
    }
  }

  lemma {:induction false} OpenedUnderItsName(fs: FileSystem, path: Path, st: State)
    requires Finite(fs) && Consistent(fs, st) && fs.realpath(path) !in st.visited && fs.read(path).Some?
    ensures var after := Flatten(fs, path, st).1;
            fs.realpath(path) in after.names && after.names[fs.realpath(path)] == path
  {
    EnterKeepsConsistent(fs, path, st);
    Expansion(fs, path, st);
    RunKeeps(fs, path, FileSteps(fs, path), [], Enter(fs, path, st));
  }

  /**
   From a readable root, which is opened under its own name, the output holds exactly the lines of the opened files that
   are not Includes, with their numbers and texts, and the lines of each file stand in the order of the file.
   */
  lemma {:induction false} OutputIsTheText(fs: FileSystem, root: Path)
    requires Finite(fs) && fs.read(root).Some?
    ensures var (r, after) := Flatten(fs, root, START);
            && r.Ok? && AscendingInEachFile(r.value)
            && fs.realpath(root) in after.names && after.names[fs.realpath(root)] == root
            && forall line :: line in r.value <==>
                 && fs.realpath(line.filePath) in after.names && after.names[fs.realpath(line.filePath)] == line.filePath
                 && IsLineOfItsFile(fs, line)
  {
    var (r, after) := Flatten(fs, root, START);
    EachFileContributesOnce(fs, root);
    WalkFollowsItsNames(fs, root);
    OpenedUnderItsName(fs, root, START);
    forall file ensures Ascending(LinesOf(r.value, file)) {
      if fs.read(file).Some? {
        OwnLinesAreTheText(fs, file);
      }
    }
    AscendingFromEach(r.value);
    forall line ensures line in r.value <==>
                     && fs.realpath(line.filePath) in after.names && after.names[fs.realpath(line.filePath)] == line.filePath
                     && IsLineOfItsFile(fs, line)
    {
      LinesOfAreThere(r.value, line.filePath);
      if fs.read(line.filePath).Some? {
        OwnLinesAreTheText(fs, line.filePath);
      }
    }
  }

  // ---------- which files are followed ----------

  lemma {:induction false} IncludesIsAMatch(fs: FileSystem, file: Path, target: Path)
    ensures Includes(fs, file, target)
       <==> fs.read(file).Some? && exists at :: IsMatch(fs.read(file).value, at) && TargetAt(fs.read(file).value, at) == target
  {
    if Includes(fs, file, target) {
      var step :| step in FileSteps(fs, file) && step.Follow? && step.target == target;
      var at := PlaceOfStep(fs, file, step);
    }
    if fs.read(file).Some? {
      forall at | IsMatch(fs.read(file).value, at) && TargetAt(fs.read(file).value, at) == target
        ensures Includes(fs, file, target)
      {
        var step := StepOfPlace(fs, file, at);
      }
    }
  }

  /**
   Every file that a pattern of an Include line of an opened file matches is visited, if it can be read.
   */
  lemma {:induction false} IncludeLinesAreFollowed(fs: FileSystem, root: Path, n: Path)
    requires Finite(fs) && fs.read(root).Some? && n in Flatten(fs, root, START).1.names
    ensures var after := Flatten(fs, root, START).1;
            fs.read(after.names[n]).Some? &&
            var items := fs.read(after.names[n]).value;
            forall i, j, k :: 0 <= i < |items| && items[i].Include? && 0 <= j < |items[i].patterns|
                              && 0 <= k < |items[i].patterns[j].matches| && fs.read(items[i].patterns[j].matches[k]).Some?
              ==> fs.realpath(items[i].patterns[j].matches[k]) in after.visited
  {
    var after := Flatten(fs, root, START).1;
    WalkFollowsItsNames(fs, root);
    var file := after.names[n];
    var items := fs.read(file).value;
    forall i, j, k | 0 <= i < |items| && items[i].Include? && 0 <= j < |items[i].patterns|
                     && 0 <= k < |items[i].patterns[j].matches| && fs.read(items[i].patterns[j].matches[k]).Some?
      ensures fs.realpath(items[i].patterns[j].matches[k]) in after.visited
    {
      var target := items[i].patterns[j].matches[k];
      assert IsMatch(items, Place(i, j, k)) && TargetAt(items, Place(i, j, k)) == target;
      IncludesIsAMatch(fs, file, target);
      IncludedTarget(fs, file, target);
    }
  }

  // ---------- which patterns and includes are warned of ----------

  /**
   A warning that a pattern has no match is given exactly for the patterns without a match in the opened files, each at
   its file and line. If a file can be read under all its names or none, a warning that an include cannot be read is
   given exactly for the unreadable matches in the opened files.
   */
  lemma {:induction false} WarningsAreInTheText(fs: FileSystem, root: Path, file: Path)
    requires Finite(fs) && fs.read(root).Some? && fs.read(file).Some?
    ensures var after := Flatten(fs, root, START).1;
            var named := fs.realpath(file) in after.names && after.names[fs.realpath(file)] == file;
            var items := fs.read(file).value;
            && (forall text, number ::
                  IncludeNotFound(text, file, number) in after.warnings
                  <==> named && exists at :: IsUnmatched(items, at) && at.line + 1 == number
                                             && items[at.line].patterns[at.pattern].text == text)
            && (ReadableAlike(fs) ==>
                  forall path, number ::
                    IncludeReadFailed(path, file, number) in after.warnings
                    <==> named && fs.read(path).None?
                         && exists at :: IsMatch(items, at) && at.line + 1 == number && TargetAt(items, at) == path)
  {
    var after := Flatten(fs, root, START).1;
    var items := fs.read(file).value;
    WarningsAreExact(fs, root);
    forall text, number ensures NoMatch(text, number) in FileSteps(fs, file)
                        <==> exists at :: IsUnmatched(items, at) && at.line + 1 == number
                                          && items[at.line].patterns[at.pattern].text == text
    {
      UnmatchedStep(fs, file, text, number);
    }
    forall text, number ensures Warrants(fs, file, FileSteps(fs, file), IncludeNotFound(text, file, number))
                        <==> NoMatch(text, number) in FileSteps(fs, file) {
    }
    forall path, number ensures Follow(path, number) in FileSteps(fs, file)
                        <==> exists at :: IsMatch(items, at) && at.line + 1 == number && TargetAt(items, at) == path
    {
      MatchStep(fs, file, path, number);
    }
  }

  lemma {:induction false} UnmatchedStep(fs: FileSystem, file: Path, text: string, number: nat)
    requires fs.read(file).Some?
    ensures var items := fs.read(file).value;
            NoMatch(text, number) in FileSteps(fs, file)
            <==> exists at :: IsUnmatched(items, at) && at.line + 1 == number && items[at.line].patterns[at.pattern].text == text
  {
    var items := fs.read(file).value;
    if NoMatch(text, number) in FileSteps(fs, file) {
      var at := PlaceOfStep(fs, file, NoMatch(text, number));
    }
    forall at | IsUnmatched(items, at) && at.line + 1 == number && items[at.line].patterns[at.pattern].text == text
      ensures NoMatch(text, number) in FileSteps(fs, file)
    {
      var step := StepOfPlace(fs, file, at);
    }
  }

  lemma {:induction false} MatchStep(fs: FileSystem, file: Path, path: Path, number: nat)
    requires fs.read(file).Some?
    ensures var items := fs.read(file).value;
            Follow(path, number) in FileSteps(fs, file)
            <==> exists at :: IsMatch(items, at) && at.line + 1 == number && TargetAt(items, at) == path
  {
    var items := fs.read(file).value;
    if Follow(path, number) in FileSteps(fs, file) {
      var at := PlaceOfStep(fs, file, Follow(path, number));
    }
    forall at | IsMatch(items, at) && at.line + 1 == number && TargetAt(items, at) == path
      ensures Follow(path, number) in FileSteps(fs, file)
    {
      var step := StepOfPlace(fs, file, at);
    }
  }

  // ---------- where included lines stand ----------

  // The line is emitted by the step, or included through it and not through an earlier one.
  ghost predicate ComesFrom(fs: FileSystem, steps: seq<Step>, s: nat, line: ConfigLine, st: State) {
    && s < |steps|
    && match steps[s]
       case Emit(own) => line == own
       case NoMatch(_, _) => false
       case Follow(target, _) =>
         && fs.read(target).Some? && Reachable(fs, target, line.filePath)
         && fs.realpath(line.filePath) !in st.names
         && forall t :: 0 <= t < s && steps[t].Follow? && fs.read(steps[t].target).Some?
              ==> fs.realpath(steps[t].target) != fs.realpath(line.filePath)
  }

  // The lines come from steps in order.
  ghost predicate ComeInOrder(fs: FileSystem, steps: seq<Step>, origins: seq<nat>, lines: seq<ConfigLine>, st: State) {
    && |origins| == |lines|
    && (forall k :: 0 <= k < |lines| ==> ComesFrom(fs, steps, origins[k], lines[k], st))
    && (forall k, m :: 0 <= k < m < |lines| ==> origins[k] <= origins[m])
  }

  // What a readable file contributes comes from files it reaches that were not opened before, itself being visited then.
  lemma {:induction false} FollowedLines(fs: FileSystem, target: Path, st: State)
    requires Finite(fs) && Consistent(fs, st)
    ensures var (r, after) := Flatten(fs, target, st);
            && (fs.read(target).Some? ==> r.Ok? && fs.realpath(target) in after.names)
            && (r.Ok? ==> forall k :: 0 <= k < |r.value| ==>
                  && fs.read(target).Some? && Reachable(fs, target, r.value[k].filePath)
                  && fs.realpath(r.value[k].filePath) !in st.names)
  {
    var (r, after) := Flatten(fs, target, st);
    FlattenKeeps(fs, target, st);
    FlattenContributes(fs, target, st);
    if fs.read(target).Some? {
      ReachableSelf(fs, target);
      FlattenFollowsUp(fs, target, target, st);
      forall k | 0 <= k < |r.value|
        ensures Reachable(fs, target, r.value[k].filePath) && fs.realpath(r.value[k].filePath) !in st.names
      {
        LinesOfAreThere(r.value, r.value[k].filePath);
        assert r.value[k] in LinesOf(r.value, r.value[k].filePath);
        assert Expanded(fs, st, after, r.value[k].filePath);
      }
    }
  }

  lemma {:induction false} Origins(fs: FileSystem, file: Path, steps: seq<Step>, st: State) returns (origins: seq<nat>)
    requires Finite(fs) && Consistent(fs, st)
    ensures ComeInOrder(fs, steps, origins, RunSteps(fs, file, steps, [], st).0, st)
    decreases |steps|
  {
    if steps == [] {
      origins := [];
    } else {
      var rest := steps[1..];
      assert steps == [steps[0]] + rest;
      match steps[0]
      case Emit(line) =>
        var later := Origins(fs, file, rest, st);
        origins := EmitOrigins(fs, file, line, rest, st, later);
      case NoMatch(pattern, lineNumber) =>
        var later := Origins(fs, file, rest, Warn(st, IncludeNotFound(pattern, file, lineNumber)));
        origins := NoMatchOrigins(fs, file, pattern, lineNumber, rest, st, later);
      case Follow(target, lineNumber) =>
        FollowFirst(fs, file, target, lineNumber, rest, [], st);
        var later := Origins(fs, file, rest, AfterFollow(fs, file, target, lineNumber, [], st).1);
        origins := FollowOrigins(fs, file, target, lineNumber, rest, st, later);
    }
  }

  lemma {:induction false} EmitOrigins(fs: FileSystem, file: Path, line: ConfigLine, rest: seq<Step>, st: State, later: seq<nat>)
    returns (origins: seq<nat>)
    requires Finite(fs) && ComeInOrder(fs, rest, later, RunSteps(fs, file, rest, [], st).0, st)
    ensures ComeInOrder(fs, [Emit(line)] + rest, origins, RunSteps(fs, file, [Emit(line)] + rest, [], st).0, st)
  {
    RunFirst(fs, file, Emit(line), rest, [], st);
    RunAppends(fs, file, rest, [] + [line], st);
    assert [] + [line] == [line];
    origins := JoinOrigins(fs, Emit(line), rest, [line], later, RunSteps(fs, file, rest, [], st).0, st, st);
  }

  lemma {:induction false} NoMatchOrigins(
      fs: FileSystem, file: Path, pattern: string, lineNumber: nat, rest: seq<Step>, st: State, later: seq<nat>)
    returns (origins: seq<nat>)
    requires Finite(fs)
    requires var next := Warn(st, IncludeNotFound(pattern, file, lineNumber));
             ComeInOrder(fs, rest, later, RunSteps(fs, file, rest, [], next).0, next)
    ensures var steps := [NoMatch(pattern, lineNumber)] + rest;
            ComeInOrder(fs, steps, origins, RunSteps(fs, file, steps, [], st).0, st)
  {
    var next := Warn(st, IncludeNotFound(pattern, file, lineNumber));
    var lines := RunSteps(fs, file, rest, [], next).0;
    RunFirst(fs, file, NoMatch(pattern, lineNumber), rest, [], st);
    assert [] + lines == lines;
    origins := JoinOrigins(fs, NoMatch(pattern, lineNumber), rest, [], later, lines, st, next);
  }

  lemma {:induction false} FollowOrigins(
      fs: FileSystem, file: Path, target: Path, lineNumber: nat, rest: seq<Step>, st: State, later: seq<nat>)
    returns (origins: seq<nat>)
    requires Finite(fs) && Consistent(fs, st)
    requires var next := AfterFollow(fs, file, target, lineNumber, [], st).1;
             ComeInOrder(fs, rest, later, RunSteps(fs, file, rest, [], next).0, next)
    ensures var steps := [Follow(target, lineNumber)] + rest;
            ComeInOrder(fs, steps, origins, RunSteps(fs, file, steps, [], st).0, st)
  {
    var (out, next) := AfterFollow(fs, file, target, lineNumber, [], st);
    FollowFirst(fs, file, target, lineNumber, rest, [], st);
    FollowedLines(fs, target, st);
    RunAppends(fs, file, rest, out, next);
    origins := JoinOrigins(fs, Follow(target, lineNumber), rest, out, later, RunSteps(fs, file, rest, [], next).0, st, next);
  }

  lemma {:induction false} JoinOrigins(
      fs: FileSystem, first: Step, rest: seq<Step>, out: seq<ConfigLine>,
      later: seq<nat>, lines: seq<ConfigLine>, st: State, next: State)
    returns (origins: seq<nat>)
    requires forall k :: 0 <= k < |out| ==> ComesFrom(fs, [first] + rest, 0, out[k], st)
    requires ComeInOrder(fs, rest, later, lines, next)
    requires st.names.Keys <= next.names.Keys
    requires first.Follow? && fs.read(first.target).Some? ==> fs.realpath(first.target) in next.names
    ensures ComeInOrder(fs, [first] + rest, origins, out + lines, st)
  {
    origins := seq(|out|, _ => 0) + seq(|lines|, k requires 0 <= k < |lines| => later[k] + 1);
    forall k | 0 <= k < |lines| ensures ComesFrom(fs, [first] + rest, later[k] + 1, lines[k], st) {
      ComesLater(fs, first, rest, later[k], lines[k], st, next);
    }
  }

  lemma {:induction false} ComesLater(fs: FileSystem, first: Step, rest: seq<Step>, s: nat, line: ConfigLine, st: State, next: State)
    requires ComesFrom(fs, rest, s, line, next)
    requires st.names.Keys <= next.names.Keys
    requires first.Follow? && fs.read(first.target).Some? ==> fs.realpath(first.target) in next.names
    ensures ComesFrom(fs, [first] + rest, s + 1, line, st)
  {
    var steps := [first] + rest;
    assert steps[s + 1] == rest[s];
    if rest[s].Follow? {
      forall t | 0 <= t < s + 1 && steps[t].Follow? && fs.read(steps[t].target).Some?
        ensures fs.realpath(steps[t].target) != fs.realpath(line.filePath)
      {
        assert steps[t] == if t == 0 then first else rest[t - 1];
      }
    }
  }

  // The line stands at the place of the file: it is the line there, or comes from a file reached from the match there,
  // which had not been opened and is not the match of an earlier place.
  ghost predicate StandsAt(fs: FileSystem, path: Path, st: State, at: Place, line: ConfigLine)
    requires fs.read(path).Some?
  {
    var items := fs.read(path).value;
    if line.filePath == path then IsText(items, at) && line == ConfigLine(path, at.line + 1, items[at.line].text)
    else
      && IsMatch(items, at) && fs.read(TargetAt(items, at)).Some?
      && Reachable(fs, TargetAt(items, at), line.filePath)
      && fs.realpath(line.filePath) !in st.names
      && forall e :: IsMatch(items, e) && Before(e, at) && fs.read(TargetAt(items, e)).Some?
           ==> fs.realpath(TargetAt(items, e)) != fs.realpath(line.filePath)
  }

  lemma {:induction false} PlaceOfOrigin(fs: FileSystem, path: Path, st: State, stepPlaces: seq<Place>, s: nat, line: ConfigLine)
    requires fs.read(path).Some? && SaysAll(path, fs.read(path).value, stepPlaces, FileSteps(fs, path)) && InOrder(stepPlaces)
    requires forall at :: IsPlace(fs.read(path).value, at) ==> at in stepPlaces
    requires ComesFrom(fs, FileSteps(fs, path), s, line, Enter(fs, path, st))
    ensures StandsAt(fs, path, st, stepPlaces[s], line)
  {
    var items, steps := fs.read(path).value, FileSteps(fs, path);
    assert Says(path, items, stepPlaces[s], steps[s]);
    if steps[s].Follow? {
      assert fs.realpath(path) in Enter(fs, path, st).names;
      forall e | IsMatch(items, e) && Before(e, stepPlaces[s]) && fs.read(TargetAt(items, e)).Some?
        ensures fs.realpath(TargetAt(items, e)) != fs.realpath(line.filePath)
      {
        assert e in stepPlaces;
        var t :| 0 <= t < |stepPlaces| && stepPlaces[t] == e;
        assert Says(path, items, stepPlaces[t], steps[t]);
        InOrderAt(stepPlaces, s, t);
      }
    }
  }

  /**
   Whenever a file is opened, each line of the output has its place in the text of that file, and the places are in
   order. So what an Include pulls in stands between the lines before it and the lines after it, pattern by pattern and
   match by match, and the first Include of a file is the one that counts.
   */
  lemma {:induction false} OutputFollowsTheText(fs: FileSystem, path: Path, st: State) returns (places: seq<Place>)
    requires Finite(fs) && Consistent(fs, st) && fs.realpath(path) !in st.visited && fs.read(path).Some?
    ensures var r := Flatten(fs, path, st).0;
            && r.Ok? && |places| == |r.value|
            && (forall k, m :: 0 <= k < m < |places| ==> !Before(places[m], places[k]))
            && (forall k :: 0 <= k < |places| ==> StandsAt(fs, path, st, places[k], r.value[k]))
  {
    var lines := RunSteps(fs, path, FileSteps(fs, path), [], Enter(fs, path, st)).0;
    EnterKeepsConsistent(fs, path, st);
    Expansion(fs, path, st);
    var stepPlaces := StepsAreThePlaces(fs, path);
    var origins := Origins(fs, path, FileSteps(fs, path), Enter(fs, path, st));
    places := PlacesOfOrigins(fs, path, st, stepPlaces, origins, lines);
  }

  lemma {:induction false} PlacesOfOrigins(
      fs: FileSystem, path: Path, st: State, stepPlaces: seq<Place>, origins: seq<nat>, lines: seq<ConfigLine>)
    returns (places: seq<Place>)
    requires fs.read(path).Some? && SaysAll(path, fs.read(path).value, stepPlaces, FileSteps(fs, path)) && InOrder(stepPlaces)
    requires forall at :: IsPlace(fs.read(path).value, at) ==> at in stepPlaces
    requires ComeInOrder(fs, FileSteps(fs, path), origins, lines, Enter(fs, path, st))
    ensures |places| == |lines|
    ensures forall k, m :: 0 <= k < m < |places| ==> !Before(places[m], places[k])
    ensures forall k :: 0 <= k < |places| ==> StandsAt(fs, path, st, places[k], lines[k])
  {
    forall k | 0 <= k < |origins| ensures origins[k] < |stepPlaces| {
      assert ComesFrom(fs, FileSteps(fs, path), origins[k], lines[k], Enter(fs, path, st));
    }
    places := seq(|origins|, k requires 0 <= k < |origins| => stepPlaces[origins[k]]);
    forall k | 0 <= k < |places| ensures StandsAt(fs, path, st, places[k], lines[k]) {
      assert ComesFrom(fs, FileSteps(fs, path), origins[k], lines[k], Enter(fs, path, st));
      PlaceOfOrigin(fs, path, st, stepPlaces, origins[k], lines[k]);
    }
    forall k, m | 0 <= k < m < |places| ensures !Before(places[m], places[k]) {
      assert origins[k] <= origins[m];
      InOrderAt(stepPlaces, origins[m], origins[k]);
    }
  }

  lemma InOrderAt(places: seq<Place>, s: nat, t: nat)
    requires InOrder(places) && s < |places| && t < |places|
    ensures Before(places[s], places[t]) <==> s < t
  {
    if s < t {
      assert Before(places[s], places[t]);
    } else if t < s {
      assert Before(places[t], places[s]);
    }
  }
}

/**
 Flattening an OpenSSH configuration file with its Include directives: a depth-first walk over a finite but
 possibly cyclic graph of files, with a set of visited files and a set of files being expanded.
 */
module ConfigInclude {
  import opened Wrappers

  type Path = string

  // One argument of an Include directive, with the paths it resolves to from the including file.
  datatype Pattern = Pattern(text: string, matches: seq<Path>)

  // One line of a file.
  datatype Item = Text(text: string) | Include(patterns: seq<Pattern>)

  // `realpath` resolves symbolic links (or leaves the path alone); `read` fails on unreadable paths.
  datatype FileSystem = FileSystem(realpath: Path -> Path, read: Path -> Option<seq<Item>>, nodes: set<Path>)

  // There are finitely many files, however many names they have.
  ghost predicate Finite(fs: FileSystem) {
    forall path :: fs.read(path).Some? ==> fs.realpath(path) in fs.nodes
  }

  datatype ConfigLine = ConfigLine(filePath: Path, lineNumber: nat, text: string)

  datatype Warning =
    | IncludeCycle(path: Path)
    | IncludeNotFound(pattern: string, filePath: Path, lineNumber: nat)
    | IncludeReadFailed(path: Path, filePath: Path, lineNumber: nat)

  datatype State = State(
    visited: set<Path>,
    stack: set<Path>,
    warnings: seq<Warning>,
    names: map<Path, Path>)      // history: the path each visited file was expanded under

  const START := State({}, {}, [], map[])

  // ---------- a file as a list of steps in textual order ----------

  datatype Step = Emit(line: ConfigLine) | NoMatch(pattern: string, lineNumber: nat) | Follow(target: Path, lineNumber: nat)

  function Follows(matches: seq<Path>, lineNumber: nat): seq<Step> {
    if matches == [] then [] else [Follow(matches[0], lineNumber)] + Follows(matches[1..], lineNumber)
  }

  function PatternSteps(patterns: seq<Pattern>, lineNumber: nat): seq<Step> {
    if patterns == [] then []
    else
      (if patterns[0].matches == [] then [NoMatch(patterns[0].text, lineNumber)] else Follows(patterns[0].matches, lineNumber))
      + PatternSteps(patterns[1..], lineNumber)
  }

  function Steps(file: Path, items: seq<Item>, lineNumber: nat): seq<Step> {
    if items == [] then []
    else
      (match items[0]
       case Text(text) => [Emit(ConfigLine(file, lineNumber, text))]
       case Include(patterns) => PatternSteps(patterns, lineNumber))
      + Steps(file, items[1..], lineNumber + 1)
  }

  function FileSteps(fs: FileSystem, file: Path): seq<Step> {
    var items := fs.read(file);
    if items.None? then [] else Steps(file, items.value, 1)
  }

  // ---------- the walk ----------

  function Warn(st: State, warning: Warning): State {
    st.(warnings := st.warnings + [warning])
  }

  lemma RestShrinks(nodes: set<Path>, before: set<Path>, after: set<Path>)
    requires before <= after
    ensures |nodes - after| <= |nodes - before|
    ensures forall n :: n in nodes && n !in before && n in after ==> |nodes - after| < |nodes - before|
  {
    var a, b := nodes - after, nodes - before;
    assert b == a + (b - a);
    forall n | n in nodes && n !in before && n in after ensures |a| < |b| {
      assert n in b - a;
    }
  }

  // The file is expanded: it is visited and on the stack.
  function Enter(fs: FileSystem, path: Path, st: State): State {
    var n := fs.realpath(path);
    st.(visited := st.visited + {n}, stack := st.stack + {n}, names := st.names[n := path])
  }

  function Flatten(fs: FileSystem, path: Path, st: State): (r: (Result<seq<ConfigLine>, Path>, State))
    requires Finite(fs)
    ensures st.visited <= r.1.visited
    ensures st.warnings <= r.1.warnings
    decreases |fs.nodes - st.visited|, 0
  {
    var realPath := fs.realpath(path);
    if realPath in st.stack then (Ok([]), Warn(st, IncludeCycle(path)))
    else if realPath in st.visited then (Ok([]), st)
    else if fs.read(path).None? then (Err(path), st)
    else
      RestShrinks(fs.nodes, st.visited, st.visited + {realPath});
      var (lines, after) := RunSteps(fs, path, FileSteps(fs, path), [], Enter(fs, path, st));
      (Ok(lines), after.(stack := after.stack - {realPath}))
  }

  function RunSteps(fs: FileSystem, file: Path, steps: seq<Step>, out: seq<ConfigLine>, st: State)
    : (r: (seq<ConfigLine>, State))
    requires Finite(fs)
    ensures st.visited <= r.1.visited
    ensures st.warnings <= r.1.warnings
    decreases |fs.nodes - st.visited|, |steps|
  {
    if steps == [] then (out, st)
    else
      match steps[0]
      case Emit(line) => RunSteps(fs, file, steps[1..], out + [line], st)
      case NoMatch(pattern, lineNumber) =>
        RunSteps(fs, file, steps[1..], out, Warn(st, IncludeNotFound(pattern, file, lineNumber)))
      case Follow(target, lineNumber) =>
        var (r, after) := Flatten(fs, target, st);
        RestShrinks(fs.nodes, st.visited, after.visited);
        match r
        case Ok(lines) => RunSteps(fs, file, steps[1..], out + lines, after)
        case Err(unread) => RunSteps(fs, file, steps[1..], out, Warn(after, IncludeReadFailed(unread, file, lineNumber)))
  }

  // One step of the walk, and the steps of a nonempty remainder.
  lemma {:induction false} RunFirst(fs: FileSystem, file: Path, first: Step, rest: seq<Step>, out: seq<ConfigLine>, st: State)
    requires Finite(fs)
    ensures RunSteps(fs, file, [first] + rest, out, st)
         == match first
            case Emit(line) => RunSteps(fs, file, rest, out + [line], st)
            case NoMatch(pattern, lineNumber) => RunSteps(fs, file, rest, out, Warn(st, IncludeNotFound(pattern, file, lineNumber)))
            case Follow(target, lineNumber) =>
              var (r, after) := Flatten(fs, target, st);
              match r
              case Ok(lines) => RunSteps(fs, file, rest, out + lines, after)
              case Err(unread) => RunSteps(fs, file, rest, out, Warn(after, IncludeReadFailed(unread, file, lineNumber)))
  {
    assert ([first] + rest)[1..] == rest;
  }

  lemma {:induction false} FirstMatch(matches: seq<Path>, k: nat, lineNumber: nat, next: seq<Step>)
    requires k < |matches|
    ensures Follows(matches[k..], lineNumber) + next
         == [Follow(matches[k], lineNumber)] + (Follows(matches[k + 1..], lineNumber) + next)
  {
    assert matches[k..][1..] == matches[k + 1..];
  }

  lemma {:induction false} FirstPattern(patterns: seq<Pattern>, j: nat, lineNumber: nat, later: seq<Step>)
    requires j < |patterns|
    ensures PatternSteps(patterns[j..], lineNumber) + later
         == (if patterns[j].matches == [] then [NoMatch(patterns[j].text, lineNumber)] else Follows(patterns[j].matches, lineNumber))
            + (PatternSteps(patterns[j + 1..], lineNumber) + later)
  {
    assert patterns[j..][1..] == patterns[j + 1..];
  }

  lemma {:induction false} FirstItem(file: Path, items: seq<Item>, i: nat)
    requires i < |items|
    ensures Steps(file, items[i..], i + 1)
         == (match items[i]
             case Text(text) => [Emit(ConfigLine(file, i + 1, text))]
             case Include(patterns) => PatternSteps(patterns, i + 1))
            + Steps(file, items[i + 1..], i + 2)
  {
    assert items[i..][1..] == items[i + 1..];
  }

  class Importer {
    const fs: FileSystem
    var visited: set<Path>
    var stack: set<Path>
    var warnings: seq<Warning>
    ghost var names: map<Path, Path>

    constructor (fs: FileSystem)
      ensures this.fs == fs && Abs() == START
    {
      this.fs := fs;
      visited, stack, warnings, names := {}, {}, [], map[];
    }

    ghost function Abs(): State
      reads this
    {
      State(visited, stack, warnings, names)
    }

    method FlattenConfigLines(path: Path) returns (r: Result<seq<ConfigLine>, Path>)
      requires Finite(fs)
      modifies this
      ensures (r, Abs()) == Flatten(fs, path, old(Abs()))
      decreases |fs.nodes - visited|, 0
    {
      var realFilePath := fs.realpath(path);
      if realFilePath in stack {
        warnings := warnings + [IncludeCycle(path)];
        return Ok([]);
      }
      if realFilePath in visited {
        return Ok([]);
      }
      var raw := fs.read(path);
      if raw.None? {
        return Err(path);
      }
      visited := visited + {realFilePath};
      stack := stack + {realFilePath};
      names := names[realFilePath := path];
      RestShrinks(fs.nodes, old(visited), visited);
      var result := ExpandLines(path, raw.value);
      stack := stack - {realFilePath};
      return Ok(result);
    }

    // The outer loop, over the lines of the file.
    method ExpandLines(path: Path, lines: seq<Item>) returns (result: seq<ConfigLine>)
      requires Finite(fs)
      modifies this
      ensures (result, Abs()) == RunSteps(fs, path, Steps(path, lines, 1), [], old(Abs()))
      decreases |fs.nodes - visited|, 3
    {
      result := [];
      ghost var outcome := RunSteps(fs, path, Steps(path, lines, 1), [], Abs());
      for i := 0 to |lines|
        invariant old(visited) <= visited
        invariant RunSteps(fs, path, Steps(path, lines[i..], i + 1), result, Abs()) == outcome
      {
        ghost var later := Steps(path, lines[i + 1..], i + 2);
        FirstItem(path, lines, i);
        match lines[i]
        case Text(text) =>
          RunFirst(fs, path, Emit(ConfigLine(path, i + 1, text)), later, result, Abs());
          result := result + [ConfigLine(path, i + 1, text)];
        case Include(patterns) =>
          RestShrinks(fs.nodes, old(visited), visited);
          result := FollowPatterns(path, patterns, i + 1, result, later);
      }
    }

    // The middle loop, over the patterns of one Include line.
    method FollowPatterns(path: Path, patterns: seq<Pattern>, lineNumber: nat, sofar: seq<ConfigLine>, ghost later: seq<Step>)
      returns (result: seq<ConfigLine>)
      requires Finite(fs)
      modifies this
      ensures old(visited) <= visited
      ensures RunSteps(fs, path, later, result, Abs())
           == RunSteps(fs, path, PatternSteps(patterns, lineNumber) + later, sofar, old(Abs()))
      decreases |fs.nodes - visited|, 2
    {
      result := sofar;
      ghost var outcome := RunSteps(fs, path, PatternSteps(patterns, lineNumber) + later, sofar, Abs());
      for j := 0 to |patterns|
        invariant old(visited) <= visited
        invariant RunSteps(fs, path, PatternSteps(patterns[j..], lineNumber) + later, result, Abs()) == outcome
      {
        ghost var next := PatternSteps(patterns[j + 1..], lineNumber) + later;
        FirstPattern(patterns, j, lineNumber, later);
        if |patterns[j].matches| == 0 {
          RunFirst(fs, path, NoMatch(patterns[j].text, lineNumber), next, result, Abs());
          warnings := warnings + [IncludeNotFound(patterns[j].text, path, lineNumber)];
          continue;
        }
        RestShrinks(fs.nodes, old(visited), visited);
        result := FollowMatches(path, patterns[j].matches, lineNumber, result, next);
      }
      assert PatternSteps([], lineNumber) + later == later;
    }

    // The inner loop, over the files one pattern matches.
    method FollowMatches(path: Path, matches: seq<Path>, lineNumber: nat, sofar: seq<ConfigLine>, ghost next: seq<Step>)
      returns (result: seq<ConfigLine>)
      requires Finite(fs)
      modifies this
      ensures old(visited) <= visited
      ensures RunSteps(fs, path, next, result, Abs())
           == RunSteps(fs, path, Follows(matches, lineNumber) + next, sofar, old(Abs()))
      decreases |fs.nodes - visited|, 1
    {
      result := sofar;
      ghost var outcome := RunSteps(fs, path, Follows(matches, lineNumber) + next, sofar, Abs());
      for k := 0 to |matches|
        invariant old(visited) <= visited
        invariant RunSteps(fs, path, Follows(matches[k..], lineNumber) + next, result, Abs()) == outcome
      {
        FirstMatch(matches, k, lineNumber, next);
        RunFirst(fs, path, Follow(matches[k], lineNumber), Follows(matches[k + 1..], lineNumber) + next, result, Abs());
        RestShrinks(fs.nodes, old(visited), visited);
        var r := FlattenConfigLines(matches[k]);
        match r
        case Ok(included) => result := result + included;
        case Err(unread) => warnings := warnings + [IncludeReadFailed(unread, path, lineNumber)];
      }
      assert Follows([], lineNumber) + next == next;
    }
  }
}

/**
 The places of a configuration file, and that its steps are what the file says at its places, in order.
 */
module IncludePlaces {
  import opened ConfigInclude

  // A line of a file, and for an Include the pattern and the match, all counted from 0.
  datatype Place = Place(line: nat, pattern: nat, nth: nat)

  predicate Before(a: Place, b: Place) {
    || a.line < b.line
    || (a.line == b.line && a.pattern < b.pattern)
    || (a.line == b.line && a.pattern == b.pattern && a.nth < b.nth)
  }

  predicate IsText(items: seq<Item>, at: Place) {
    at.line < |items| && items[at.line].Text? && at.pattern == 0 && at.nth == 0
  }

  predicate IsPattern(items: seq<Item>, at: Place) {
    at.line < |items| && items[at.line].Include? && at.pattern < |items[at.line].patterns|
  }

  predicate IsUnmatched(items: seq<Item>, at: Place) {
    IsPattern(items, at) && items[at.line].patterns[at.pattern].matches == [] && at.nth == 0
  }

  predicate IsMatch(items: seq<Item>, at: Place) {
    IsPattern(items, at) && at.nth < |items[at.line].patterns[at.pattern].matches|
  }

  predicate IsPlace(items: seq<Item>, at: Place) {
    IsText(items, at) || IsUnmatched(items, at) || IsMatch(items, at)
  }

  function TargetAt(items: seq<Item>, at: Place): Path
    requires IsMatch(items, at)
  {
    items[at.line].patterns[at.pattern].matches[at.nth]
  }

  // The step does what the file says at the place.
  predicate Says(file: Path, items: seq<Item>, at: Place, step: Step) {
    match step
    case Emit(line) => IsText(items, at) && line == ConfigLine(file, at.line + 1, items[at.line].text)
    case NoMatch(pattern, lineNumber) =>
      IsUnmatched(items, at) && lineNumber == at.line + 1 && pattern == items[at.line].patterns[at.pattern].text
    case Follow(target, lineNumber) => IsMatch(items, at) && lineNumber == at.line + 1 && target == TargetAt(items, at)
  }

  ghost predicate SaysAll(file: Path, items: seq<Item>, places: seq<Place>, steps: seq<Step>) {
    |places| == |steps| && forall s :: 0 <= s < |steps| ==> Says(file, items, places[s], steps[s])
  }

  ghost predicate InOrder(places: seq<Place>) {
    forall s, t :: 0 <= s < t < |places| ==> Before(places[s], places[t])
  }

  // The places are those from the first bound on, up to the second.
  ghost predicate Between(items: seq<Item>, from: Place, to: Place, places: seq<Place>) {
    && (forall s :: 0 <= s < |places| ==> !Before(places[s], from) && Before(places[s], to))
    && (forall at :: IsPlace(items, at) && !Before(at, from) && Before(at, to) ==> at in places)
  }

  lemma JoinSays(file: Path, items: seq<Item>, a: seq<Place>, stepsA: seq<Step>, b: seq<Place>, stepsB: seq<Step>)
    requires SaysAll(file, items, a, stepsA) && SaysAll(file, items, b, stepsB)
    ensures SaysAll(file, items, a + b, stepsA + stepsB)
  {
  }

  lemma BeforeThrough(a: Place, mid: Place, b: Place)
    requires Before(a, mid) && !Before(b, mid)
    ensures Before(a, b)
  {
  }

  lemma {:induction false} JoinOrder(items: seq<Item>, from: Place, mid: Place, to: Place, a: seq<Place>, b: seq<Place>)
    requires InOrder(a) && Between(items, from, mid, a) && InOrder(b) && Between(items, mid, to, b)
    ensures InOrder(a + b)
  {
    forall s, t | 0 <= s < t < |a + b| ensures Before((a + b)[s], (a + b)[t]) {
      if s < |a| <= t {
        BeforeThrough(a[s], mid, b[t - |a|]);
      }
    }
  }

  lemma {:induction false} JoinBetween(items: seq<Item>, from: Place, mid: Place, to: Place, a: seq<Place>, b: seq<Place>)
    requires Between(items, from, mid, a) && Between(items, mid, to, b) && !Before(mid, from) && !Before(to, mid)
    ensures Between(items, from, to, a + b)
  {
    forall s | 0 <= s < |a + b| ensures !Before((a + b)[s], from) && Before((a + b)[s], to) {
      if s < |a| {
        BeforeThrough(a[s], mid, to);
      } else if Before(b[s - |a|], from) {
        BeforeThrough(b[s - |a|], from, mid);
      }
    }
  }

  lemma JoinPlaces(
      file: Path, items: seq<Item>, from: Place, mid: Place, to: Place,
      a: seq<Place>, stepsA: seq<Step>, b: seq<Place>, stepsB: seq<Step>)
    requires SaysAll(file, items, a, stepsA) && InOrder(a) && Between(items, from, mid, a)
    requires SaysAll(file, items, b, stepsB) && InOrder(b) && Between(items, mid, to, b)
    requires !Before(mid, from) && !Before(to, mid)
    ensures SaysAll(file, items, a + b, stepsA + stepsB) && InOrder(a + b) && Between(items, from, to, a + b)
  {
    JoinSays(file, items, a, stepsA, b, stepsB);
    JoinOrder(items, from, mid, to, a, b);
    JoinBetween(items, from, mid, to, a, b);
  }

  lemma {:induction false} OnePlace(file: Path, items: seq<Item>, at: Place, to: Place, step: Step)
    requires Says(file, items, at, step) && Before(at, to)
    requires forall other :: IsPlace(items, other) && !Before(other, at) && Before(other, to) ==> other == at
    ensures SaysAll(file, items, [at], [step]) && InOrder([at]) && Between(items, at, to, [at])
  {
  }

  lemma {:induction false} MatchPlaces(file: Path, items: seq<Item>, at: Place) returns (places: seq<Place>)
    requires IsPattern(items, at)
    requires var matches := items[at.line].patterns[at.pattern].matches; matches != [] && at.nth <= |matches|
    ensures SaysAll(file, items, places, Follows(items[at.line].patterns[at.pattern].matches[at.nth..], at.line + 1))
    ensures InOrder(places) && Between(items, at, Place(at.line, at.pattern + 1, 0), places)
    decreases |items[at.line].patterns[at.pattern].matches| - at.nth
  {
    var matches := items[at.line].patterns[at.pattern].matches;
    var to := Place(at.line, at.pattern + 1, 0);
    if at.nth == |matches| {
      places := [];
    } else {
      var next := at.(nth := at.nth + 1);
      var rest := MatchPlaces(file, items, next);
      var first := Follow(matches[at.nth], at.line + 1);
      OnePlace(file, items, at, next, first);
      JoinPlaces(file, items, at, next, to, [at], [first], rest, Follows(matches[at.nth + 1..], at.line + 1));
      assert matches[at.nth..][1..] == matches[at.nth + 1..];
      places := [at] + rest;
    }
  }

  // The steps of one pattern.
  function StepsOf(p: Pattern, lineNumber: nat): seq<Step> {
    if p.matches == [] then [NoMatch(p.text, lineNumber)] else Follows(p.matches, lineNumber)
  }

  lemma {:induction false} OnePatternPlaces(file: Path, items: seq<Item>, at: Place) returns (places: seq<Place>)
    requires IsPattern(items, at) && at.nth == 0
    ensures SaysAll(file, items, places, StepsOf(items[at.line].patterns[at.pattern], at.line + 1))
    ensures InOrder(places) && Between(items, at, Place(at.line, at.pattern + 1, 0), places)
  {
    var p := items[at.line].patterns[at.pattern];
    if p.matches == [] {
      OnePlace(file, items, at, Place(at.line, at.pattern + 1, 0), NoMatch(p.text, at.line + 1));
      places := [at];
    } else {
      places := MatchPlaces(file, items, at);
      assert p.matches[0..] == p.matches;
    }
  }

  // The patterns of the line from j on.
  ghost predicate PatternsFrom(items: seq<Item>, i: nat, j: nat, rest: seq<Pattern>) {
    i < |items| && items[i].Include? && j <= |items[i].patterns| && rest == items[i].patterns[j..]
  }

  lemma NextPattern(items: seq<Item>, i: nat, j: nat, rest: seq<Pattern>)
    requires PatternsFrom(items, i, j, rest)
    ensures rest != [] ==> j < |items[i].patterns| && rest[0] == items[i].patterns[j] && PatternsFrom(items, i, j + 1, rest[1..])
    ensures rest == [] ==> j == |items[i].patterns|
  {
  }

  // The steps of the patterns from j on.
  lemma {:induction false} PatternPlaces(file: Path, items: seq<Item>, i: nat, j: nat, patterns: seq<Pattern>)
    returns (places: seq<Place>)
    requires PatternsFrom(items, i, j, patterns)
    ensures SaysAll(file, items, places, PatternSteps(patterns, i + 1))
    ensures InOrder(places) && Between(items, Place(i, j, 0), Place(i + 1, 0, 0), places)
    decreases |patterns|
  {
    NextPattern(items, i, j, patterns);
    if patterns == [] {
      places := [];
      NoMorePatterns(file, items, i, j);
    } else {
      var first := OnePatternPlaces(file, items, Place(i, j, 0));
      var rest := PatternPlaces(file, items, i, j + 1, patterns[1..]);
      JoinPlaces(file, items, Place(i, j, 0), Place(i, j + 1, 0), Place(i + 1, 0, 0),
                 first, StepsOf(patterns[0], i + 1), rest, PatternSteps(patterns[1..], i + 1));
      places := first + rest;
    }
  }

  lemma NoMorePatterns(file: Path, items: seq<Item>, i: nat, j: nat)
    requires PatternsFrom(items, i, j, [])
    ensures SaysAll(file, items, [], PatternSteps([], i + 1))
    ensures InOrder([]) && Between(items, Place(i, j, 0), Place(i + 1, 0, 0), [])
  {
    NextPattern(items, i, j, []);
  }

  lemma TextPlace(file: Path, items: seq<Item>, i: nat)
    requires i < |items| && items[i].Text?
    ensures SaysAll(file, items, [Place(i, 0, 0)], [Emit(ConfigLine(file, i + 1, items[i].text))])
    ensures InOrder([Place(i, 0, 0)]) && Between(items, Place(i, 0, 0), Place(i + 1, 0, 0), [Place(i, 0, 0)])
  {
    OnePlace(file, items, Place(i, 0, 0), Place(i + 1, 0, 0), Emit(ConfigLine(file, i + 1, items[i].text)));
  }

  // The steps of one line.
  lemma {:induction false} LinePlaces(file: Path, items: seq<Item>, i: nat) returns (places: seq<Place>)
    requires i < |items|
    ensures SaysAll(file, items, places,
                    match items[i]
                    case Text(text) => [Emit(ConfigLine(file, i + 1, text))]
                    case Include(patterns) => PatternSteps(patterns, i + 1))
    ensures InOrder(places) && Between(items, Place(i, 0, 0), Place(i + 1, 0, 0), places)
  {
    match items[i]
    case Text(text) =>
      TextPlace(file, items, i);
      places := [Place(i, 0, 0)];
    case Include(patterns) =>
      assert patterns[0..] == patterns;
      places := PatternPlaces(file, items, i, 0, patterns);
  }

  lemma {:induction false} PlacesFrom(file: Path, items: seq<Item>, i: nat) returns (places: seq<Place>)
    requires i <= |items|
    ensures SaysAll(file, items, places, Steps(file, items[i..], i + 1))
    ensures InOrder(places) && Between(items, Place(i, 0, 0), Place(|items|, 0, 0), places)
    decreases |items| - i
  {
    if i == |items| {
      places := [];
    } else {
      var first := LinePlaces(file, items, i);
      var rest := PlacesFrom(file, items, i + 1);
      FirstItem(file, items, i);
      JoinPlaces(file, items, Place(i, 0, 0), Place(i + 1, 0, 0), Place(|items|, 0, 0),
                 first, match items[i]
                        case Text(text) => [Emit(ConfigLine(file, i + 1, text))]
                        case Include(patterns) => PatternSteps(patterns, i + 1),
                 rest, Steps(file, items[i + 1..], i + 2));
      places := first + rest;
    }
  }

  /** Each step of a readable file is what the file says at one of its places; every place has its step, in order. */
  lemma {:induction false} StepsAreThePlaces(fs: FileSystem, file: Path) returns (places: seq<Place>)
    requires fs.read(file).Some?
    ensures SaysAll(file, fs.read(file).value, places, FileSteps(fs, file)) && InOrder(places)
    ensures forall at :: IsPlace(fs.read(file).value, at) ==> at in places
  {
    var items := fs.read(file).value;
    places := PlacesFrom(file, items, 0);
    assert items[0..] == items;
    forall at | IsPlace(items, at) ensures at in places {
      assert !Before(at, Place(0, 0, 0)) && Before(at, Place(|items|, 0, 0));
    }
  }

  // The step of a place.
  lemma {:induction false} StepOfPlace(fs: FileSystem, file: Path, at: Place) returns (step: Step)
    requires fs.read(file).Some? && IsPlace(fs.read(file).value, at)
    ensures step in FileSteps(fs, file) && Says(file, fs.read(file).value, at, step)
  {
    var places := StepsAreThePlaces(fs, file);
    var s :| 0 <= s < |places| && places[s] == at;
    step := FileSteps(fs, file)[s];
  }

  // The place of a step.
  lemma {:induction false} PlaceOfStep(fs: FileSystem, file: Path, step: Step) returns (at: Place)
    requires step in FileSteps(fs, file)
    ensures fs.read(file).Some? && Says(file, fs.read(file).value, at, step)
  {
    var places := StepsAreThePlaces(fs, file);
    var s :| 0 <= s < |places| && FileSteps(fs, file)[s] == step;
    at := places[s];
  }
}

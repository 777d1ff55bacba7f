/**
 Group paths as the renderer and the database treat them: raw strings with '/' between segments.
 The string tests are shown to refine the prefix order on segment sequences.
 */
module GroupPaths {
  import opened Wrappers
  import opened Text

  datatype GroupRecord = GroupRecord(
    id: string,
    name: string,
    path: string,
    parentPath: Option<string>,
    createdAt: string,
    updatedAt: string)

  datatype HostRecord = HostRecord(id: string, groupName: Option<string>, updatedAt: string)

  datatype GroupCardView = GroupCardView(path: string, name: string, hostCount: nat)

  // ---------- path functions ----------

  function CleanSegments(parts: seq<string>): seq<string> {
    if parts == [] then []
    else
      var segment := Trim(IsJsSpace, parts[0]);
      (if segment == "" then [] else [segment]) + CleanSegments(parts[1..])
  }

  function NormalizeGroupPath(groupPath: Option<string>): Option<string> {
    var raw := if groupPath.Some? then groupPath.value else "";
    var normalized := Join('/', CleanSegments(Split('/', raw)));
    if |normalized| > 0 then Some(normalized) else None
  }

  function LastIndexOf(s: string, c: char): (i: int)
    requires c in s
    ensures 0 <= i < |s| && s[i] == c && forall k :: i < k < |s| ==> s[k] != c
  {
    if s[|s| - 1] == c then |s| - 1 else LastIndexOf(s[..|s| - 1], c)
  }

  function GetParentGroupPath(groupPath: Option<string>): Option<string> {
    var normalized := NormalizeGroupPath(groupPath);
    if normalized.None? || '/' !in normalized.value then None
    else Some(normalized.value[..LastIndexOf(normalized.value, '/')])
  }

  function GetGroupLabel(groupPath: string): string {
    var parts := Split('/', groupPath);
    parts[|parts| - 1]
  }

  // An absent path and an empty one are both falsy.
  predicate IsFalsy(path: Option<string>) {
    path.None? || path.value == ""
  }

  predicate IsGroupWithinPath(groupPath: Option<string>, currentGroupPath: Option<string>) {
    if IsFalsy(currentGroupPath) then true
    else if IsFalsy(groupPath) then false
    else groupPath == currentGroupPath || currentGroupPath.value + "/" <= groupPath.value
  }

  predicate IsDirectGroupChild(groupPath: string, currentGroupPath: Option<string>) {
    GetParentGroupPath(Some(groupPath)) == currentGroupPath
  }

  predicate IsDirectHostChild(groupPath: Option<string>, currentGroupPath: Option<string>) {
    NormalizeGroupPath(groupPath) == currentGroupPath
  }

  function StripRemovedGroupSegment(groupPath: Option<string>, removedGroupPath: string): Option<string> {
    var path := NormalizeGroupPath(groupPath);
    var removed := NormalizeGroupPath(Some(removedGroupPath));
    if path.None? || removed.None? || !IsGroupWithinPath(path, removed) then path
    else
      var parentPath := GetParentGroupPath(removed);
      if path == removed then parentPath
      else
        var suffix := path.value[|removed.value| + 1..];
        NormalizeGroupPath(Some(if parentPath.Some? then parentPath.value + "/" + suffix else suffix))
  }

  // ---------- the segment view ----------

  ghost predicate ValidSegment(segment: string) {
    segment != "" && '/' !in segment && Trimmed(IsJsSpace, segment)
  }

  ghost predicate ValidSegments(segments: seq<string>) {
    forall segment :: segment in segments ==> ValidSegment(segment)
  }

  // The segments a raw path names, with blanks dropped.
  function Segments(path: Option<string>): seq<string> {
    CleanSegments(Split('/', if path.Some? then path.value else ""))
  }

  function PathOf(segments: seq<string>): Option<string> {
    if segments == [] then None else Some(Join('/', segments))
  }

  ghost predicate IsNormalized(path: Option<string>) {
    NormalizeGroupPath(path) == path
  }

  function DropLast(segments: seq<string>): seq<string> {
    if segments == [] then [] else segments[..|segments| - 1]
  }

  lemma SegmentsHaveNoSlash(segments: seq<string>)
    requires ValidSegments(segments)
    ensures forall part :: part in segments ==> '/' !in part
  {
    forall part | part in segments ensures '/' !in part {
      assert ValidSegment(part);
    }
  }

  lemma {:induction false} CleanSegmentsAreValid(parts: seq<string>)
    requires forall part :: part in parts ==> '/' !in part
    ensures ValidSegments(CleanSegments(parts))
  {
    if parts != [] {
      TrimProperties(IsJsSpace, parts[0]);
      CleanSegmentsAreValid(parts[1..]);
    }
  }

  lemma {:induction false} CleanSegmentsOfValid(parts: seq<string>)
    requires ValidSegments(parts)
    ensures CleanSegments(parts) == parts
  {
    if parts != [] {
      assert ValidSegment(parts[0]);
      TrimProperties(IsJsSpace, parts[0]);
      CleanSegmentsOfValid(parts[1..]);
    }
  }

  lemma JoinIsNonempty(segments: seq<string>)
    requires ValidSegments(segments) && segments != []
    ensures Join('/', segments) != ""
  {
    assert ValidSegment(segments[0]);
  }

  /** Normalising a raw path is reading off its segments and writing them back. */
  lemma NormalizeRefinesSegments(path: Option<string>)
    ensures ValidSegments(Segments(path))
    ensures NormalizeGroupPath(path) == PathOf(Segments(path))
  {
    CleanSegmentsAreValid(Split('/', if path.Some? then path.value else ""));
    if Segments(path) != [] {
      JoinIsNonempty(Segments(path));
    }
  }

  /** Valid segment sequences and normalised paths are in bijection. */
  lemma SegmentsOfPath(segments: seq<string>)
    requires ValidSegments(segments)
    ensures Segments(PathOf(segments)) == segments
    ensures IsNormalized(PathOf(segments))
    ensures PathOf(segments).Some? ==> PathOf(segments).value != ""
  {
    if segments == [] {
      assert Split('/', "") == [""] && Trim(IsJsSpace, "") == "";
      assert CleanSegments([""]) == CleanSegments([""][1..]);
    } else {
      SegmentsHaveNoSlash(segments);
      SplitOfJoin('/', segments);
      CleanSegmentsOfValid(segments);
      JoinIsNonempty(segments);
    }
    NormalizeRefinesSegments(PathOf(segments));
  }

  lemma PathOfIsInjective(a: seq<string>, b: seq<string>)
    requires ValidSegments(a) && ValidSegments(b)
    ensures PathOf(a) == PathOf(b) <==> a == b
  {
    SegmentsOfPath(a);
    SegmentsOfPath(b);
  }

  lemma NormalizeIsIdempotent(path: Option<string>)
    ensures IsNormalized(NormalizeGroupPath(path))
    ensures Segments(NormalizeGroupPath(path)) == Segments(path)
  {
    NormalizeRefinesSegments(path);
    SegmentsOfPath(Segments(path));
  }

  lemma NormalizedNotFalsy(path: Option<string>)
    requires IsNormalized(path)
    ensures IsFalsy(path) <==> path.None?
    ensures path.None? <==> Segments(path) == []
    ensures path == PathOf(Segments(path))
  {
    NormalizeRefinesSegments(path);
    SegmentsOfPath(Segments(path));
  }

  function Cleaned(part: string): seq<string> {
    if Trim(IsJsSpace, part) == "" then [] else [Trim(IsJsSpace, part)]
  }

  lemma CleanFirst(first: string, rest: seq<string>)
    ensures CleanSegments([first] + rest) == Cleaned(first) + CleanSegments(rest)
  {
    assert ([first] + rest)[1..] == rest;
  }

  lemma {:induction false} CleanSegmentsOfConcat(a: seq<string>, b: seq<string>)
    ensures CleanSegments(a + b) == CleanSegments(a) + CleanSegments(b)
  {
    if a == [] {
      assert a + b == b;
    } else {
      var first, rest := a[0], a[1..];
      CleanSegmentsOfConcat(rest, b);
      CleanFirst(first, rest + b);
      CleanFirst(first, rest);
      JoinParts([first], rest, b, a);
      JoinParts(Cleaned(first), CleanSegments(rest), CleanSegments(b), CleanSegments(a));
    }
  }

  lemma JoinParts(head: seq<string>, rest: seq<string>, tail: seq<string>, whole: seq<string>)
    requires whole == head + rest
    ensures whole + tail == head + (rest + tail)
  {
  }

  lemma SplitOfConcat(a: string, b: string)
    ensures Split('/', a + "/" + b) == Split('/', a) + Split('/', b)
  {
    JoinOfSplit('/', a);
    JoinOfSplit('/', b);
    JoinOfConcat('/', Split('/', a), Split('/', b));
    SplitOfJoin('/', Split('/', a) + Split('/', b));
  }

  lemma SegmentsOfConcat(a: string, b: string)
    ensures Segments(Some(a + "/" + b)) == Segments(Some(a)) + Segments(Some(b))
  {
    SplitOfConcat(a, b);
    CleanSegmentsOfConcat(Split('/', a), Split('/', b));
  }

  lemma SegmentsOfPlain(s: string)
    requires '/' !in s
    ensures Segments(Some(s)) == if Trim(IsJsSpace, s) == "" then [] else [Trim(IsJsSpace, s)]
  {
    SplitWithoutSeparator('/', s);
    assert CleanSegments([s][1..]) == [];
  }

  // Two normalised paths one below the other; an absent one leaves the other.
  function Below(upper: Option<string>, lower: Option<string>): Option<string> {
    if upper.None? then lower else if lower.None? then upper else Some(upper.value + "/" + lower.value)
  }

  lemma PathOfConcat(a: seq<string>, b: seq<string>)
    ensures PathOf(a + b) == Below(PathOf(a), PathOf(b))
  {
    if a == [] {
      assert a + b == b;
    } else if b == [] {
      assert a + b == a;
    } else {
      JoinOfConcat('/', a, b);
    }
  }

  /**
   What normalising gives, on the text: nothing for no path, the trimmed text for a piece without slash unless it is
   blank, and around a slash the two halves, each normalised.
   */
  lemma NormalizePieceByPiece(a: string, b: string)
    ensures NormalizeGroupPath(None).None?
    ensures '/' !in a ==> NormalizeGroupPath(Some(a)) == if Trim(IsJsSpace, a) == "" then None else Some(Trim(IsJsSpace, a))
    ensures NormalizeGroupPath(Some(a + "/" + b)) == Below(NormalizeGroupPath(Some(a)), NormalizeGroupPath(Some(b)))
  {
    SegmentsOfPath([]);
    NormalizeRefinesSegments(None);
    NormalizeRefinesSegments(Some(a));
    NormalizeRefinesSegments(Some(b));
    NormalizeRefinesSegments(Some(a + "/" + b));
    if '/' !in a {
      SegmentsOfPlain(a);
    }
    SegmentsOfConcat(a, b);
    PathOfConcat(Segments(Some(a)), Segments(Some(b)));
  }

  // ---------- containment ----------

  lemma {:induction false} ConcatKeepsValid(a: seq<string>, b: seq<string>)
    requires ValidSegments(a) && ValidSegments(b)
    ensures ValidSegments(a + b)
  {
    forall segment | segment in a + b ensures ValidSegment(segment) {
      assert segment in a || segment in b;
    }
  }

  /** A normalised path that starts with a raw string and a slash splits there into segments. */
  lemma SplitAtSlash(segments: seq<string>, head: string, tail: string)
    requires ValidSegments(segments) && segments != []
    requires Join('/', segments) == head + "/" + tail
    ensures segments == Split('/', head) + Split('/', tail)
  {
    var parts := Split('/', head) + Split('/', tail);
    JoinOfSplit('/', head);
    JoinOfSplit('/', tail);
    JoinOfConcat('/', Split('/', head), Split('/', tail));
    SplitOfJoin('/', parts);
    SegmentsHaveNoSlash(segments);
    SplitOfJoin('/', segments);
  }

  lemma PrefixIsWithin(a: seq<string>, b: seq<string>)
    requires ValidSegments(a) && ValidSegments(b) && a != [] && b != []
    ensures Join('/', b) + "/" <= Join('/', a) <==> b < a
    ensures b < a ==> Join('/', a)[|Join('/', b)| + 1..] == Join('/', a[|b|..])
  {
    var head := Join('/', b);
    if b < a {
      assert a == b + a[|b|..];
      JoinOfConcat('/', b, a[|b|..]);
      assert Join('/', a) == (head + "/") + Join('/', a[|b|..]);
    }
    if head + "/" <= Join('/', a) {
      var tail := Join('/', a)[|head| + 1..];
      assert Join('/', a) == head + "/" + tail;
      SplitAtSlash(a, head, tail);
      SegmentsHaveNoSlash(b);
      SplitOfJoin('/', b);
      assert |Split('/', tail)| > 0;
    }
  }

  /** On normalised paths the string test is exactly the segment-prefix relation. */
  lemma WithinIsSegmentPrefix(groupPath: Option<string>, currentGroupPath: Option<string>)
    requires IsNormalized(groupPath) && IsNormalized(currentGroupPath)
    ensures IsGroupWithinPath(groupPath, currentGroupPath) <==> Segments(currentGroupPath) <= Segments(groupPath)
  {
    NormalizedNotFalsy(groupPath);
    NormalizedNotFalsy(currentGroupPath);
    var a, b := Segments(groupPath), Segments(currentGroupPath);
    NormalizeRefinesSegments(groupPath);
    NormalizeRefinesSegments(currentGroupPath);
    if a != [] && b != [] {
      PrefixIsWithin(a, b);
      PathOfIsInjective(a, b);
      assert b <= a <==> b < a || a == b;
    }
  }

  /** Only a normalised path can contain a normalised one: no raw spelling matches by accident. */
  lemma WithinNeedsNormalized(groupPath: Option<string>, current: string)
    requires IsNormalized(groupPath) && current != "" && IsGroupWithinPath(groupPath, Some(current))
    ensures IsNormalized(Some(current))
  {
    NormalizedNotFalsy(groupPath);
    NormalizeRefinesSegments(groupPath);
    if groupPath != Some(current) {
      var a := Segments(groupPath);
      var tail := groupPath.value[|current| + 1..];
      assert groupPath.value == current + "/" + tail;
      SplitAtSlash(a, current, tail);
      var b := Split('/', current);
      JoinOfSplit('/', current);
      assert b == a[..|b|];
      SegmentsOfPath(b);
    }
  }

  // ---------- parents and removed segments ----------

  lemma {:induction false} LastIndexOfSeparator(head: string, c: char, last: string)
    requires c !in last
    ensures c in head + [c] + last
    ensures LastIndexOf(head + [c] + last, c) == |head|
  {
    var s := head + [c] + last;
    assert s[|head|] == c;
    assert forall k :: |head| < k < |s| ==> s[k] == last[k - |head| - 1];
  }

  lemma {:induction false} LastSlash(segments: seq<string>)
    requires ValidSegments(segments) && |segments| > 1
    ensures '/' in Join('/', segments)
    ensures Join('/', segments)[..LastIndexOf(Join('/', segments), '/')] == Join('/', DropLast(segments))
  {
    var front, last := DropLast(segments), segments[|segments| - 1];
    assert ValidSegment(last);
    LastIndexOfSeparator(Join('/', front), '/', last);
    assert Join('/', segments) == Join('/', front) + ['/'] + last by {
      assert segments == front + [last];
      JoinOfConcat('/', front, [last]);
    }
  }

  lemma LabelOf(path: string, parts: seq<string>)
    requires Split('/', path) == parts
    ensures parts != [] && GetGroupLabel(path) == parts[|parts| - 1]
  {
  }

  lemma LabelIsLastSegment(segments: seq<string>)
    requires ValidSegments(segments) && segments != []
    ensures GetGroupLabel(Join('/', segments)) == segments[|segments| - 1]
  {
    SegmentsHaveNoSlash(segments);
    SplitOfJoin('/', segments);
    LabelOf(Join('/', segments), segments);
  }

  /** The parent of any raw path is the path of all its segments but the last. */
  lemma ParentDropsLastSegment(path: Option<string>)
    ensures GetParentGroupPath(path) == PathOf(DropLast(Segments(path)))
    ensures ValidSegments(DropLast(Segments(path)))
  {
    NormalizeRefinesSegments(path);
    var segments := Segments(path);
    if |segments| > 1 {
      LastSlash(segments);
    } else if |segments| == 1 {
      assert ValidSegment(segments[0]);
    }
  }

  // The segments left when the last segment of `removed` is deleted from a path at or below it.
  function SegmentsAfterRemoval(segments: seq<string>, removed: seq<string>): seq<string> {
    if removed != [] && removed <= segments then DropLast(removed) + segments[|removed|..] else segments
  }

  lemma ReattachSuffix(front: seq<string>, rest: seq<string>)
    requires ValidSegments(front) && ValidSegments(rest) && rest != []
    ensures ValidSegments(front + rest)
    ensures NormalizeGroupPath(Some(
              if PathOf(front).Some? then PathOf(front).value + "/" + Join('/', rest) else Join('/', rest)))
         == PathOf(front + rest)
  {
    ConcatKeepsValid(front, rest);
    SegmentsOfPath(front + rest);
    if front != [] {
      JoinOfConcat('/', front, rest);
    } else {
      assert front + rest == rest;
    }
  }

  lemma StripOutside(a: seq<string>, b: seq<string>)
    requires ValidSegments(a) && ValidSegments(b) && b != [] && !(b <= a)
    ensures StripRemovedGroupSegment(PathOf(a), Join('/', b)) == PathOf(a)
  {
    SegmentsOfPath(a);
    SegmentsOfPath(b);
    WithinIsSegmentPrefix(PathOf(a), PathOf(b));
  }

  lemma StripSame(b: seq<string>)
    requires ValidSegments(b) && b != []
    ensures StripRemovedGroupSegment(PathOf(b), Join('/', b)) == PathOf(DropLast(b))
    ensures ValidSegments(DropLast(b))
  {
    SegmentsOfPath(b);
    WithinIsSegmentPrefix(PathOf(b), PathOf(b));
    ParentDropsLastSegment(PathOf(b));
  }

  // What the code puts together strictly below the removed path.
  function Reattached(parentPath: Option<string>, suffix: string): Option<string> {
    NormalizeGroupPath(Some(if parentPath.Some? then parentPath.value + "/" + suffix else suffix))
  }

  lemma StripBelowReattaches(a: seq<string>, b: seq<string>)
    requires ValidSegments(a) && ValidSegments(b) && b != [] && b < a
    ensures StripRemovedGroupSegment(PathOf(a), Join('/', b))
         == Reattached(GetParentGroupPath(PathOf(b)), Join('/', a[|b|..]))
  {
    SegmentsOfPath(a);
    SegmentsOfPath(b);
    WithinIsSegmentPrefix(PathOf(a), PathOf(b));
    PathOfIsInjective(a, b);
    PrefixIsWithin(a, b);
  }

  lemma StripStrictlyBelow(a: seq<string>, b: seq<string>)
    requires ValidSegments(a) && ValidSegments(b) && b != [] && b < a
    ensures StripRemovedGroupSegment(PathOf(a), Join('/', b)) == PathOf(DropLast(b) + a[|b|..])
    ensures ValidSegments(DropLast(b) + a[|b|..])
  {
    StripBelowReattaches(a, b);
    SegmentsOfPath(b);
    ParentDropsLastSegment(PathOf(b));
    ReattachSuffix(DropLast(b), a[|b|..]);
  }

  // On normalised paths, by the place of one among the segments of the other.
  lemma StripBySegments(a: seq<string>, b: seq<string>)
    requires ValidSegments(a) && ValidSegments(b) && b != []
    ensures StripRemovedGroupSegment(PathOf(a), Join('/', b)) == PathOf(SegmentsAfterRemoval(a, b))
    ensures ValidSegments(SegmentsAfterRemoval(a, b))
  {
    if !(b <= a) {
      StripOutside(a, b);
    } else if a == b {
      StripSame(b);
      assert DropLast(b) + a[|b|..] == DropLast(b);
    } else {
      StripStrictlyBelow(a, b);
    }
  }

  lemma StripDependsOnNormalized(groupPath: Option<string>, removed: string)
    ensures Segments(Some(removed)) == [] ==>
      StripRemovedGroupSegment(groupPath, removed) == NormalizeGroupPath(groupPath)
    ensures Segments(Some(removed)) != [] ==>
      NormalizeGroupPath(Some(removed)).Some? &&
      StripRemovedGroupSegment(groupPath, removed)
      == StripRemovedGroupSegment(NormalizeGroupPath(groupPath), NormalizeGroupPath(Some(removed)).value)
  {
    NormalizeRefinesSegments(Some(removed));
    NormalizeIsIdempotent(groupPath);
    NormalizeIsIdempotent(Some(removed));
  }

  /** Removing a group deletes exactly the last segment of its path from every path at or below it. */
  lemma StripDeletesLastSegment(groupPath: Option<string>, removedGroupPath: string)
    ensures StripRemovedGroupSegment(groupPath, removedGroupPath)
         == PathOf(SegmentsAfterRemoval(Segments(groupPath), Segments(Some(removedGroupPath))))
    ensures ValidSegments(SegmentsAfterRemoval(Segments(groupPath), Segments(Some(removedGroupPath))))
  {
    var b := Segments(Some(removedGroupPath));
    NormalizeRefinesSegments(groupPath);
    NormalizeRefinesSegments(Some(removedGroupPath));
    StripDependsOnNormalized(groupPath, removedGroupPath);
    if b != [] {
      StripBySegments(Segments(groupPath), b);
    }
  }

  /** Of a path at or below the removed one, the segment where the removed one ends is cut out; others are normalised. */
  lemma StripCutsOneSegment(groupPath: Option<string>, removedGroupPath: string)
    ensures var (a, b) := (Segments(groupPath), Segments(Some(removedGroupPath)));
            StripRemovedGroupSegment(groupPath, removedGroupPath)
            == PathOf(if b != [] && b <= a then a[..|b| - 1] + a[|b|..] else a)
  {
    var a, b := Segments(groupPath), Segments(Some(removedGroupPath));
    StripDeletesLastSegment(groupPath, removedGroupPath);
    assert b != [] && b <= a ==> DropLast(b) == a[..|b| - 1];
  }

  /** Strictly below the removed path no two paths are merged. */
  lemma StripIsInjectiveBelow(first: Option<string>, second: Option<string>, removedGroupPath: string)
    requires IsNormalized(first) && IsNormalized(second)
    requires Segments(Some(removedGroupPath)) < Segments(first)
    requires Segments(Some(removedGroupPath)) < Segments(second)
    requires StripRemovedGroupSegment(first, removedGroupPath) == StripRemovedGroupSegment(second, removedGroupPath)
    ensures first == second
  {
    var a1, a2, b := Segments(first), Segments(second), Segments(Some(removedGroupPath));
    StripDeletesLastSegment(first, removedGroupPath);
    StripDeletesLastSegment(second, removedGroupPath);
    NormalizedNotFalsy(first);
    NormalizedNotFalsy(second);
    var r1, r2 := SegmentsAfterRemoval(a1, b), SegmentsAfterRemoval(a2, b);
    PathOfIsInjective(r1, r2);
    if b != [] {
      assert r1[|b| - 1..] == a1[|b|..] && r2[|b| - 1..] == a2[|b|..];
      assert a1 == b + a1[|b|..] && a2 == b + a2[|b|..];
    }
  }
}

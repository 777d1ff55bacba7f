/**
 What creating and removing a group do to the tables, told by the segments of the paths.
 */
module GroupEffects {
  import opened Wrappers
  import opened Text
  import opened StableSort
  import opened GroupPaths
  import opened GroupTables

  // ---------- hosts ----------

  /**
   Reparenting cuts the target's last segment out of the group of every host at or below the target and stamps the
   host; it leaves every other host alone, and every host in its place.
   */
  lemma HostFollowsItsGroup(tables: Tables, target: string, timestamp: string, i: nat)
    requires IsNormalized(Some(target)) && Segments(Some(target)) != [] && i < |tables.hosts|
    ensures var (host, after) := (tables.hosts[i], Reparent(tables, target, timestamp).tables.hosts);
            var (a, b) := (Segments(host.groupName), Segments(Some(target)));
            && |after| == |tables.hosts|
            && after[i] == if b <= a then host.(groupName := PathOf(a[..|b| - 1] + a[|b|..]), updatedAt := timestamp) else host
  {
    var host := tables.hosts[i];
    var a, b := Segments(host.groupName), Segments(Some(target));
    HostWithinIsPrefix(host, target);
    if b <= a {
      NormalizeIsIdempotent(host.groupName);
      StripCutsOneSegment(NormalizeGroupPath(host.groupName), target);
      StripDeletesLastSegment(NormalizeGroupPath(host.groupName), target);
      SegmentsOfPath(SegmentsAfterRemoval(a, b));
    }
  }

  lemma HostWithinIsPrefix(host: HostRecord, target: string)
    requires IsNormalized(Some(target))
    ensures HostWithin(host, target) <==> Segments(Some(target)) <= Segments(host.groupName)
  {
    NormalizeIsIdempotent(host.groupName);
    WithinIsSegmentPrefix(NormalizeGroupPath(host.groupName), Some(target));
  }

  // ---------- groups ----------

  // No group outside the subtree holds the path.
  ghost predicate FreeOutside(groups: seq<GroupRecord>, b: seq<string>, path: Option<string>) {
    forall other :: other in groups && Some(other.path) == path ==> b <= Segments(Some(other.path))
  }

  // The path, the name and the parent of the record are spelled by the segments.
  ghost predicate Spells(record: GroupRecord, segments: seq<string>)
    requires segments != []
  {
    && Some(record.path) == PathOf(segments)
    && record.name == segments[|segments| - 1]
    && record.parentPath == PathOf(segments[..|segments| - 1])
  }

  // The record is the group with the segment cut out of its path where the removed one ends.
  ghost predicate IsCutFrom(group: GroupRecord, b: seq<string>, record: GroupRecord, timestamp: string)
    requires b != [] && b < Segments(Some(group.path))
  {
    var a := Segments(Some(group.path));
    && record.id == group.id && record.createdAt == group.createdAt && record.updatedAt == timestamp
    && Spells(record, a[..|b| - 1] + a[|b|..])
  }

  // The record is what the group, strictly below the removed one, becomes.
  ghost predicate IsMovedUp(groups: seq<GroupRecord>, b: seq<string>, group: GroupRecord, record: GroupRecord, timestamp: string)
    requires b != []
  {
    && b < Segments(Some(group.path)) && IsCutFrom(group, b, record, timestamp)
    && FreeOutside(groups, b, Some(record.path))
  }

  // The group is the removed one, or a group outside holds the path it would get.
  ghost predicate LosesPlace(groups: seq<GroupRecord>, b: seq<string>, group: GroupRecord)
    requires b != []
  {
    var a := Segments(Some(group.path));
    b <= a && (a == b || !FreeOutside(groups, b, PathOf(a[..|b| - 1] + a[|b|..])))
  }

  lemma GroupWithinIsPrefix(group: GroupRecord, target: string)
    requires IsNormalized(Some(target)) && IsNormalized(Some(group.path))
    ensures GroupWithin(group, target) <==> Segments(Some(target)) <= Segments(Some(group.path))
    ensures group.path == target <==> Segments(Some(target)) == Segments(Some(group.path))
  {
    WithinIsSegmentPrefix(Some(group.path), Some(target));
    NormalizedNotFalsy(Some(group.path));
    NormalizedNotFalsy(Some(target));
  }

  lemma RebasedSpells(group: GroupRecord, segments: seq<string>, record: GroupRecord, timestamp: string)
    requires ValidSegments(segments) && segments != []
    ensures record == Rebased(group, PathOf(segments).value, timestamp)
       <==> && record.id == group.id && record.createdAt == group.createdAt && record.updatedAt == timestamp
            && Spells(record, segments)
  {
    SegmentsOfPath(segments);
    LabelIsLastSegment(segments);
    ParentDropsLastSegment(PathOf(segments));
  }

  lemma CutSegments(a: seq<string>, b: seq<string>)
    requires ValidSegments(a) && b < a && b != []
    ensures ValidSegments(a[..|b| - 1] + a[|b|..]) && a[..|b| - 1] + a[|b|..] != []
  {
  }

  lemma MovedPathIsCut(group: GroupRecord, target: string)
    requires Segments(Some(target)) < Segments(Some(group.path)) && Segments(Some(target)) != []
    ensures var (a, b) := (Segments(Some(group.path)), Segments(Some(target)));
            MovedPath(group, target).Some? && MovedPath(group, target) == PathOf(a[..|b| - 1] + a[|b|..])
  {
    NormalizeRefinesSegments(Some(group.path));
    CutSegments(Segments(Some(group.path)), Segments(Some(target)));
    StripCutsOneSegment(Some(group.path), target);
  }

  lemma RebasedIsCut(group: GroupRecord, target: string, record: GroupRecord, timestamp: string)
    requires Segments(Some(target)) < Segments(Some(group.path)) && Segments(Some(target)) != []
    ensures MovedPath(group, target).Some?
    ensures IsCutFrom(group, Segments(Some(target)), record, timestamp)
       <==> record == Rebased(group, MovedPath(group, target).value, timestamp)
  {
    var a, b := Segments(Some(group.path)), Segments(Some(target));
    NormalizeRefinesSegments(Some(group.path));
    CutSegments(a, b);
    MovedPathIsCut(group, target);
    RebasedSpells(group, a[..|b| - 1] + a[|b|..], record, timestamp);
  }

  lemma {:induction false} FreeIsNotTaken(groups: seq<GroupRecord>, target: string, path: Option<string>)
    requires NormalizedPaths(groups) && IsNormalized(Some(target)) && path.Some?
    ensures FreeOutside(groups, Segments(Some(target)), path) <==> path.value !in Paths(GroupsWhere(groups, target, false))
  {
    forall group | group in groups
      ensures GroupWithin(group, target) <==> Segments(Some(target)) <= Segments(Some(group.path))
    {
      GroupWithinIsPrefix(group, target);
    }
  }

  lemma {:induction false} MovesExactlyAs(
      groups: seq<GroupRecord>, target: string, group: GroupRecord, record: GroupRecord, timestamp: string)
    requires NormalizedPaths(groups) && IsNormalized(Some(target)) && Segments(Some(target)) != [] && group in groups
    ensures IsMovedUp(groups, Segments(Some(target)), group, record, timestamp)
       <==> && GroupWithin(group, target) && KeepsPlace(group, target, Paths(GroupsWhere(groups, target, false)))
            && record == Rebased(group, MovedPath(group, target).value, timestamp)
  {
    GroupWithinIsPrefix(group, target);
    if Segments(Some(target)) < Segments(Some(group.path)) {
      RebasedIsCut(group, target, record, timestamp);
      FreeIsNotTaken(groups, target, Some(record.path));
    }
  }

  /**
   After reparenting, a record is in the table exactly if it was there outside the target's subtree, or is what a group
   strictly below the target becomes whose new path no group outside holds.
   */
  lemma {:induction false} GroupsMoveUp(tables: Tables, target: string, timestamp: string, record: GroupRecord)
    requires NormalizedPaths(tables.groups) && DistinctPaths(tables.groups)
    requires IsNormalized(Some(target)) && Segments(Some(target)) != []
    ensures var b := Segments(Some(target));
            record in Reparent(tables, target, timestamp).tables.groups
            <==> || (record in tables.groups && !(b <= Segments(Some(record.path))))
                 || exists group :: group in tables.groups && IsMovedUp(tables.groups, b, group, record, timestamp)
  {
    var outside := GroupsWhere(tables.groups, target, false);
    var affected := GroupsWhere(tables.groups, target, true);
    ReparentClosedForm(tables, target, timestamp);
    assert record in Reparent(tables, target, timestamp).tables.groups
      <==> record in outside || record in Moved(affected, target, Paths(outside), timestamp);
    if record in tables.groups {
      GroupWithinIsPrefix(record, target);
    }
    forall group | group in tables.groups
      ensures IsMovedUp(tables.groups, Segments(Some(target)), group, record, timestamp)
         <==> && group in affected && KeepsPlace(group, target, Paths(outside))
              && record == Rebased(group, MovedPath(group, target).value, timestamp)
    {
      MovesExactlyAs(tables.groups, target, group, record, timestamp);
    }
  }

  lemma {:induction false} DroppedIds(affected: seq<GroupRecord>, target: string, taken: set<string>)
    ensures forall id :: id in Dropped(affected, target, taken)
              <==> exists group :: group in affected && group.id == id && !KeepsPlace(group, target, taken)
  {
    if affected != [] {
      DroppedIds(affected[1..], target, taken);
    }
  }

  lemma {:induction false} LosesExactlyAs(groups: seq<GroupRecord>, target: string, group: GroupRecord)
    requires NormalizedPaths(groups) && IsNormalized(Some(target)) && Segments(Some(target)) != [] && group in groups
    ensures LosesPlace(groups, Segments(Some(target)), group)
       <==> GroupWithin(group, target) && !KeepsPlace(group, target, Paths(GroupsWhere(groups, target, false)))
  {
    GroupWithinIsPrefix(group, target);
    if Segments(Some(target)) < Segments(Some(group.path)) {
      MovedPathIsCut(group, target);
      FreeIsNotTaken(groups, target, MovedPath(group, target));
    }
  }

  /**
   The ids reported as removed are those of the target itself and of the groups below it whose new path a group outside
   holds.
   */
  lemma {:induction false} RemovedGroupIds(tables: Tables, target: string, timestamp: string, id: string)
    requires NormalizedPaths(tables.groups) && DistinctPaths(tables.groups)
    requires IsNormalized(Some(target)) && Segments(Some(target)) != []
    ensures id in Reparent(tables, target, timestamp).removedGroupIds
       <==> exists group :: group in tables.groups && group.id == id && LosesPlace(tables.groups, Segments(Some(target)), group)
  {
    var taken := Paths(GroupsWhere(tables.groups, target, false));
    var affected := GroupsWhere(tables.groups, target, true);
    ReparentClosedForm(tables, target, timestamp);
    DroppedIds(affected, target, taken);
    forall group | group in tables.groups
      ensures group in affected && !KeepsPlace(group, target, taken) <==> LosesPlace(tables.groups, Segments(Some(target)), group)
    {
      LosesExactlyAs(tables.groups, target, group);
    }
  }

  // ---------- which of the two, and the errors ----------

  // Something lies at or below the target: the raw path of a group, or the segments of a host's group.
  ghost predicate Found(tables: Tables, target: string) {
    || (exists group :: group in tables.groups && (group.path == target || target + "/" <= group.path))
    || (exists host :: host in tables.hosts && Segments(Some(target)) <= Segments(host.groupName))
  }

  lemma {:induction false} FoundIsAffected(tables: Tables, target: string)
    requires IsNormalized(Some(target))
    ensures Found(tables, target)
       <==> GroupsWhere(tables.groups, target, true) != [] || HostsWhere(tables.hosts, target, true) != []
  {
    NormalizedNotFalsy(Some(target));
    forall group: GroupRecord
      ensures GroupWithin(group, target) <==> group.path == target || target + "/" <= group.path
    {
    }
    forall host | host in tables.hosts ensures HostWithin(host, target) <==> Segments(Some(target)) <= Segments(host.groupName) {
      HostWithinIsPrefix(host, target);
    }
    var groups, hosts := GroupsWhere(tables.groups, target, true), HostsWhere(tables.hosts, target, true);
    assert groups != [] ==> groups[0] in groups;
    assert hosts != [] ==> hosts[0] in hosts;
  }

  /**
   Removing by any spelling of a path fails exactly if it names no segment, or if nothing lies at or below it. Deleting
   the subtree removes the hosts at or below it and keeps the others; reparenting removes no host.
   */
  lemma {:induction false} RemovalIsByMode(tables: Tables, targetPath: string, mode: GroupRemoveMode, timestamp: string)
    ensures var r := RemoveSpec(tables, targetPath, mode, timestamp);
            var b := Segments(Some(targetPath));
            && (r == Err(InvalidPath) <==> b == [])
            && (r == Err(NotFound) <==> b != [] && !Found(tables, PathOf(b).value))
            && (r.Ok? <==> b != [] && Found(tables, PathOf(b).value))
            && (r.Ok? && mode == DeleteSubtree ==>
                  && r.value == DeleteAll(tables, PathOf(b).value)
                  && forall host :: host in r.value.tables.hosts <==> host in tables.hosts && !(b <= Segments(host.groupName)))
            && (r.Ok? && mode == ReparentDescendants ==>
                  && r.value.removedHostIds == []
                  && r.value == Reparent(tables, PathOf(b).value, timestamp))
  {
    var b := Segments(Some(targetPath));
    NormalizeRefinesSegments(Some(targetPath));
    if b != [] {
      SegmentsOfPath(b);
      FoundIsAffected(tables, PathOf(b).value);
      forall host | host in tables.hosts ensures HostWithin(host, PathOf(b).value) <==> b <= Segments(host.groupName) {
        HostWithinIsPrefix(host, PathOf(b).value);
      }
    }
  }

  /** The tables handed back to the caller hold the same records in the order of the comparators, with the same ids removed. */
  lemma ReturnedInOrder(
      removal: Removal, groupLeq: (GroupRecord, GroupRecord) -> bool, hostLeq: (HostRecord, HostRecord) -> bool)
    requires TotalPreorder(groupLeq) && TotalPreorder(hostLeq)
    ensures var copy := SortedCopy(removal, groupLeq, hostLeq);
            && multiset(copy.tables.groups) == multiset(removal.tables.groups)
            && multiset(copy.tables.hosts) == multiset(removal.tables.hosts)
            && Sorted(groupLeq, copy.tables.groups) && Sorted(hostLeq, copy.tables.hosts)
            && copy.removedGroupIds == removal.removedGroupIds && copy.removedHostIds == removal.removedHostIds
  {
    SortSorts(groupLeq, removal.tables.groups);
    SortSorts(hostLeq, removal.tables.hosts);
  }

  // ---------- creating a group ----------

  /**
   A new group's path has the segments of the parent followed by those of the trimmed name. It is refused exactly if the
   name is blank, if there is no segment at all, or if a group has that path.
   */
  lemma {:induction false} CreatedGroup(
      groups: seq<GroupRecord>, id: string, name: string, parentPath: Option<string>, timestamp: string)
    ensures var r := CreateSpec(groups, id, name, parentPath, timestamp);
            var clean := Trim(IsJsSpace, name);
            var path := PathOf(Segments(parentPath) + Segments(Some(clean)));
            && (r == Err(NameRequired) <==> clean == "")
            && (r == Err(InvalidPath) <==> clean != "" && path.None?)
            && (r == Err(AlreadyExists) <==> clean != "" && exists group :: group in groups && Some(group.path) == path)
            && r != Err(NotFound)
            && (r.Ok? ==>
                  && Some(r.value.path) == path && r.value.name == clean && r.value.parentPath == PathOf(Segments(parentPath))
                  && r.value.id == id && r.value.createdAt == timestamp && r.value.updatedAt == timestamp)
  {
    var clean := Trim(IsJsSpace, name);
    var parent := NormalizeGroupPath(parentPath);
    var raw := if parent.Some? then parent.value + "/" + clean else clean;
    NormalizeRefinesSegments(parentPath);
    NormalizeIsIdempotent(parentPath);
    NormalizeRefinesSegments(Some(raw));
    if parent.Some? {
      SegmentsOfConcat(parent.value, clean);
    } else {
      SegmentsOfPath(Segments(parentPath));
      assert [] + Segments(Some(clean)) == Segments(Some(clean));
    }
    assert NormalizeGroupPath(Some(raw)) == PathOf(Segments(parentPath) + Segments(Some(clean)));
  }
}

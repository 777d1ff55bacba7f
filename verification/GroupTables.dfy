/**
 Editing the group table: creating a group, and removing one either with its subtree or by moving its
 descendants one level up.
 */
module GroupTables {
  import opened Wrappers
  import opened Text
  import opened StableSort
  import opened GroupPaths

  datatype GroupRemoveMode = DeleteSubtree | ReparentDescendants

  datatype GroupError = NameRequired | InvalidPath | AlreadyExists | NotFound

  datatype Tables = Tables(groups: seq<GroupRecord>, hosts: seq<HostRecord>)

  datatype Removal = Removal(tables: Tables, removedGroupIds: seq<string>, removedHostIds: seq<string>)

  // ---------- table helpers ----------

  predicate GroupWithin(record: GroupRecord, target: string) {
    IsGroupWithinPath(Some(record.path), Some(target))
  }

  predicate HostWithin(record: HostRecord, target: string) {
    IsGroupWithinPath(NormalizeGroupPath(record.groupName), Some(target))
  }

  function GroupsWhere(groups: seq<GroupRecord>, target: string, within: bool): (r: seq<GroupRecord>)
    ensures forall record :: record in r <==> record in groups && GroupWithin(record, target) == within
  {
    if groups == [] then []
    else
      var rest := GroupsWhere(groups[1..], target, within);
      if GroupWithin(groups[0], target) == within then [groups[0]] + rest else rest
  }

  function HostsWhere(hosts: seq<HostRecord>, target: string, within: bool): (r: seq<HostRecord>)
    ensures forall record :: record in r <==> record in hosts && HostWithin(record, target) == within
  {
    if hosts == [] then []
    else
      var rest := HostsWhere(hosts[1..], target, within);
      if HostWithin(hosts[0], target) == within then [hosts[0]] + rest else rest
  }

  function GroupIds(groups: seq<GroupRecord>): (ids: seq<string>)
    ensures |ids| == |groups| && forall i :: 0 <= i < |groups| ==> ids[i] == groups[i].id
  {
    seq(|groups|, i requires 0 <= i < |groups| => groups[i].id)
  }

  function HostIds(hosts: seq<HostRecord>): (ids: seq<string>)
    ensures |ids| == |hosts| && forall i :: 0 <= i < |hosts| ==> ids[i] == hosts[i].id
  {
    seq(|hosts|, i requires 0 <= i < |hosts| => hosts[i].id)
  }

  ghost function Paths(groups: seq<GroupRecord>): set<string> {
    set record | record in groups :: record.path
  }

  // ---------- a Map from path to record, in insertion order; every key is its record's path ----------

  predicate MapHas(m: seq<GroupRecord>, path: string) {
    exists i :: 0 <= i < |m| && m[i].path == path
  }

  function MapSet(m: seq<GroupRecord>, record: GroupRecord): seq<GroupRecord> {
    if m == [] then [record]
    else if m[0].path == record.path then [record] + m[1..]
    else [m[0]] + MapSet(m[1..], record)
  }

  function MapSetAll(m: seq<GroupRecord>, records: seq<GroupRecord>): seq<GroupRecord>
    decreases |records|
  {
    if records == [] then m else MapSetAll(MapSet(m, records[0]), records[1..])
  }

  // ---------- the specification of the two operations ----------

  function Rebased(record: GroupRecord, path: string, timestamp: string): GroupRecord {
    record.(name := GetGroupLabel(path),
            path := path,
            parentPath := GetParentGroupPath(Some(path)),
            updatedAt := timestamp)
  }

  // Moves the affected groups up one after the other, collecting the ids of those that cannot be kept.
  function RebaseAll(
      m: seq<GroupRecord>, removed: seq<string>, affected: seq<GroupRecord>, target: string, timestamp: string)
    : (seq<GroupRecord>, seq<string>)
    decreases |affected|
  {
    if affected == [] then (m, removed)
    else
      var record := affected[0];
      var path := StripRemovedGroupSegment(Some(record.path), target);
      if record.path == target || IsFalsy(path) || MapHas(m, path.value) then
        RebaseAll(m, removed + [record.id], affected[1..], target, timestamp)
      else
        RebaseAll(MapSet(m, Rebased(record, path.value, timestamp)), removed, affected[1..], target, timestamp)
  }

  function ReparentHost(record: HostRecord, target: string, timestamp: string): HostRecord {
    if !HostWithin(record, target) then record
    else
      var path := StripRemovedGroupSegment(NormalizeGroupPath(record.groupName), target);
      record.(groupName := NormalizeGroupPath(path), updatedAt := timestamp)
  }

  function ReparentHosts(hosts: seq<HostRecord>, target: string, timestamp: string): (r: seq<HostRecord>)
    ensures |r| == |hosts|
    ensures forall i :: 0 <= i < |hosts| ==> r[i] == ReparentHost(hosts[i], target, timestamp)
  {
    seq(|hosts|, i requires 0 <= i < |hosts| => ReparentHost(hosts[i], target, timestamp))
  }

  function Reparent(tables: Tables, target: string, timestamp: string): Removal {
    var (groups, removed) := RebaseAll(
      MapSetAll([], GroupsWhere(tables.groups, target, false)), [],
      GroupsWhere(tables.groups, target, true), target, timestamp);
    Removal(Tables(groups, ReparentHosts(tables.hosts, target, timestamp)), removed, [])
  }

  function DeleteAll(tables: Tables, target: string): Removal {
    Removal(
      Tables(GroupsWhere(tables.groups, target, false), HostsWhere(tables.hosts, target, false)),
      GroupIds(GroupsWhere(tables.groups, target, true)),
      HostIds(HostsWhere(tables.hosts, target, true)))
  }

  function RemoveSpec(tables: Tables, targetPath: string, mode: GroupRemoveMode, timestamp: string)
    : Result<Removal, GroupError>
  {
    var target := NormalizeGroupPath(Some(targetPath));
    if target.None? then Err(InvalidPath)
    else if GroupsWhere(tables.groups, target.value, true) == [] && HostsWhere(tables.hosts, target.value, true) == [] then
      Err(NotFound)
    else if mode == DeleteSubtree then Ok(DeleteAll(tables, target.value))
    else Ok(Reparent(tables, target.value, timestamp))
  }

  // What is returned to the caller: copies of the new tables in display order.
  function SortedCopy(
      removal: Removal, groupLeq: (GroupRecord, GroupRecord) -> bool, hostLeq: (HostRecord, HostRecord) -> bool): Removal
  {
    removal.(tables := Tables(Sort(groupLeq, removal.tables.groups), Sort(hostLeq, removal.tables.hosts)))
  }

  function CreateSpec(groups: seq<GroupRecord>, id: string, name: string, parentPath: Option<string>, timestamp: string)
    : Result<GroupRecord, GroupError>
  {
    var cleanedName := Trim(IsJsSpace, name);
    if cleanedName == "" then Err(NameRequired)
    else
      var parent := NormalizeGroupPath(parentPath);
      var path := NormalizeGroupPath(Some(if parent.Some? then parent.value + "/" + cleanedName else cleanedName));
      if path.None? then Err(InvalidPath)
      else if MapHas(groups, path.value) then Err(AlreadyExists)
      else Ok(GroupRecord(id, cleanedName, path.value, parent, timestamp, timestamp))
  }

  // ---------- the repository ----------

  method GroupsByPath(records: seq<GroupRecord>) returns (m: seq<GroupRecord>)
    ensures m == MapSetAll([], records)
  {
    m := [];
    for i := 0 to |records|
      invariant MapSetAll(m, records[i..]) == MapSetAll([], records)
    {
      m := MapSet(m, records[i]);
    }
  }

  method RebaseGroups(kept: seq<GroupRecord>, affected: seq<GroupRecord>, target: string, timestamp: string)
    returns (m: seq<GroupRecord>, removed: seq<string>)
    ensures (m, removed) == RebaseAll(kept, [], affected, target, timestamp)
  {
    m, removed := kept, [];
    ghost var result := RebaseAll(kept, [], affected, target, timestamp);
    for i := 0 to |affected|
      invariant RebaseAll(m, removed, affected[i..], target, timestamp) == result
    {
      var record := affected[i];
      if record.path == target {
        removed := removed + [record.id];
        continue;
      }
      var rebasedPath := StripRemovedGroupSegment(Some(record.path), target);
      if IsFalsy(rebasedPath) || MapHas(m, rebasedPath.value) {
        removed := removed + [record.id];
        continue;
      }
      m := MapSet(m, Rebased(record, rebasedPath.value, timestamp));
    }
  }

  class GroupRepository {
    var groups: seq<GroupRecord>
    var hosts: seq<HostRecord>

    constructor (groups: seq<GroupRecord>, hosts: seq<HostRecord>)
      ensures this.groups == groups && this.hosts == hosts
    {
      this.groups := groups;
      this.hosts := hosts;
    }

    method Create(id: string, name: string, parentPath: Option<string>, timestamp: string)
      returns (r: Result<GroupRecord, GroupError>)
      modifies this`groups
      ensures r == CreateSpec(old(groups), id, name, parentPath, timestamp)
      ensures groups == if r.Ok? then old(groups) + [r.value] else old(groups)
    {
      var cleanedName := Trim(IsJsSpace, name);
      if cleanedName == "" {
        return Err(NameRequired);
      }
      var normalizedParentPath := NormalizeGroupPath(parentPath);
      var nextPath := NormalizeGroupPath(Some(
        if normalizedParentPath.Some? then normalizedParentPath.value + "/" + cleanedName else cleanedName));
      if nextPath.None? {
        return Err(InvalidPath);
      }
      if MapHas(groups, nextPath.value) {
        return Err(AlreadyExists);
      }
      var record := GroupRecord(id, cleanedName, nextPath.value, normalizedParentPath, timestamp, timestamp);
      groups := groups + [record];
      return Ok(record);
    }

    // The two ways to change the tables.
    method RemoveSubtree(target: string) returns (removedGroupIds: seq<string>, removedHostIds: seq<string>)
      modifies this
      ensures Removal(Tables(groups, hosts), removedGroupIds, removedHostIds)
           == DeleteAll(Tables(old(groups), old(hosts)), target)
    {
      removedGroupIds := GroupIds(GroupsWhere(groups, target, true));
      removedHostIds := HostIds(HostsWhere(hosts, target, true));
      groups := GroupsWhere(groups, target, false);
      hosts := HostsWhere(hosts, target, false);
    }

    method ReparentDescendants(target: string, timestamp: string) returns (removedGroupIds: seq<string>)
      modifies this
      ensures Removal(Tables(groups, hosts), removedGroupIds, [])
           == Reparent(Tables(old(groups), old(hosts)), target, timestamp)
    {
      var affectedGroups := GroupsWhere(groups, target, true);
      var nextGroupsByPath := GroupsByPath(GroupsWhere(groups, target, false));
      nextGroupsByPath, removedGroupIds := RebaseGroups(nextGroupsByPath, affectedGroups, target, timestamp);
      groups := nextGroupsByPath;
      hosts := ReparentHosts(hosts, target, timestamp);
    }

    // The comparators stand for the order of paths and compareHosts.
    method Remove(
        targetPath: string, mode: GroupRemoveMode, timestamp: string,
        groupLeq: (GroupRecord, GroupRecord) -> bool, hostLeq: (HostRecord, HostRecord) -> bool)
      returns (r: Result<Removal, GroupError>)
      modifies this
      ensures var spec := RemoveSpec(Tables(old(groups), old(hosts)), targetPath, mode, timestamp);
              && r == (if spec.Ok? then Ok(SortedCopy(spec.value, groupLeq, hostLeq)) else Err(spec.error))
              && Tables(groups, hosts) == (if spec.Ok? then spec.value.tables else Tables(old(groups), old(hosts)))
    {
      var target := NormalizeGroupPath(Some(targetPath));
      if target.None? {
        return Err(InvalidPath);
      }
      var affectedGroups := GroupsWhere(groups, target.value, true);
      var affectedHosts := HostsWhere(hosts, target.value, true);
      if |affectedGroups| == 0 && |affectedHosts| == 0 {
        return Err(NotFound);
      }
      var removedGroupIds: seq<string>, removedHostIds: seq<string> := [], [];
      if mode == DeleteSubtree {
        removedGroupIds, removedHostIds := RemoveSubtree(target.value);
      } else {
        removedGroupIds := ReparentDescendants(target.value, timestamp);
      }
      return Ok(SortedCopy(Removal(Tables(groups, hosts), removedGroupIds, removedHostIds), groupLeq, hostLeq));
    }
  }

  // ---------- what the group table keeps ----------

  ghost predicate NormalizedPaths(groups: seq<GroupRecord>) {
    forall record :: record in groups ==> IsNormalized(Some(record.path))
  }

  ghost predicate DistinctPaths(groups: seq<GroupRecord>) {
    forall i, j :: 0 <= i < j < |groups| ==> groups[i].path != groups[j].path
  }

  ghost predicate AncestorClosed(paths: set<string>) {
    forall path :: path in paths && GetParentGroupPath(Some(path)).Some? ==> GetParentGroupPath(Some(path)).value in paths
  }

  ghost predicate ValidTree(groups: seq<GroupRecord>) {
    NormalizedPaths(groups) && DistinctPaths(groups) && AncestorClosed(Paths(groups))
  }

  // The host is ungrouped, or its group is in the table.
  ghost predicate Backed(host: HostRecord, groups: seq<GroupRecord>) {
    var path := NormalizeGroupPath(host.groupName);
    path.None? || path.value in Paths(groups)
  }

  // ---------- the closed form of reparenting ----------

  function MovedPath(record: GroupRecord, target: string): Option<string> {
    StripRemovedGroupSegment(Some(record.path), target)
  }

  // The group keeps a place after its path lost the segment: it is not the target and nobody holds the new path.
  ghost predicate KeepsPlace(record: GroupRecord, target: string, taken: set<string>) {
    record.path != target && MovedPath(record, target).Some? && MovedPath(record, target).value !in taken
  }

  ghost function Moved(affected: seq<GroupRecord>, target: string, taken: set<string>, timestamp: string)
    : (r: seq<GroupRecord>)
    ensures forall record :: record in r <==>
              exists g :: g in affected && KeepsPlace(g, target, taken) && record == Rebased(g, MovedPath(g, target).value, timestamp)
  {
    if affected == [] then []
    else
      (if KeepsPlace(affected[0], target, taken)
       then [Rebased(affected[0], MovedPath(affected[0], target).value, timestamp)] else [])
      + Moved(affected[1..], target, taken, timestamp)
  }

  ghost function Dropped(affected: seq<GroupRecord>, target: string, taken: set<string>): seq<string> {
    if affected == [] then []
    else
      (if KeepsPlace(affected[0], target, taken) then [] else [affected[0].id])
      + Dropped(affected[1..], target, taken)
  }

  lemma {:induction false} MapSetAppends(m: seq<GroupRecord>, record: GroupRecord)
    requires !MapHas(m, record.path)
    ensures MapSet(m, record) == m + [record]
  {
    if m != [] {
      assert forall i :: 0 <= i < |m[1..]| ==> m[1..][i] == m[i + 1];
      MapSetAppends(m[1..], record);
    }
  }

  lemma {:induction false} MapSetAllAppends(m: seq<GroupRecord>, records: seq<GroupRecord>)
    requires DistinctPaths(m + records)
    ensures MapSetAll(m, records) == m + records
    decreases |records|
  {
    if records != [] {
      forall i | 0 <= i < |m| ensures m[i].path != records[0].path {
        assert (m + records)[i].path != (m + records)[|m|].path;
      }
      MapSetAppends(m, records[0]);
      assert (m + [records[0]]) + records[1..] == m + records;
      MapSetAllAppends(m + [records[0]], records[1..]);
    }
  }

  lemma {:induction false} FilterKeepsDistinct(groups: seq<GroupRecord>, target: string, within: bool)
    requires DistinctPaths(groups)
    ensures DistinctPaths(GroupsWhere(groups, target, within))
  {
    if groups != [] {
      assert DistinctPaths(groups[1..]);
      FilterKeepsDistinct(groups[1..], target, within);
      forall record | record in groups[1..] ensures record.path != groups[0].path {
        var i :| 0 <= i < |groups[1..]| && groups[1..][i] == record;
        assert groups[i + 1] == record;
      }
    }
  }

  lemma MapHasIffInPaths(m: seq<GroupRecord>, path: string)
    ensures MapHas(m, path) <==> path in Paths(m)
  {
    if path in Paths(m) {
      var record :| record in m && record.path == path;
      var i :| 0 <= i < |m| && m[i] == record;
    }
  }

  // The records in `affected` lie at or below the target, on normalised and distinct paths.
  ghost predicate AffectedBy(affected: seq<GroupRecord>, target: string) {
    && NormalizedPaths(affected) && DistinctPaths(affected)
    && forall record :: record in affected ==> GroupWithin(record, target)
  }

  lemma {:induction false} MovedSegments(record: GroupRecord, target: string)
    requires IsNormalized(Some(record.path)) && IsNormalized(Some(target)) && GroupWithin(record, target)
    ensures Segments(Some(target)) != [] && Segments(Some(target)) <= Segments(Some(record.path))
    ensures MovedPath(record, target)
         == PathOf(DropLast(Segments(Some(target))) + Segments(Some(record.path))[|Segments(Some(target))|..])
    ensures ValidSegments(DropLast(Segments(Some(target))) + Segments(Some(record.path))[|Segments(Some(target))|..])
    ensures IsNormalized(MovedPath(record, target))
    ensures record.path == target <==> Segments(Some(record.path)) == Segments(Some(target))
  {
    WithinIsSegmentPrefix(Some(record.path), Some(target));
    NormalizedNotFalsy(Some(record.path));
    NormalizedNotFalsy(Some(target));
    StripDeletesLastSegment(Some(record.path), target);
    SegmentsOfPath(DropLast(Segments(Some(target))) + Segments(Some(record.path))[|Segments(Some(target))|..]);
  }

  lemma {:induction false} MovedPathsDiffer(first: GroupRecord, second: GroupRecord, target: string)
    requires IsNormalized(Some(target))
    requires IsNormalized(Some(first.path)) && GroupWithin(first, target) && first.path != target
    requires IsNormalized(Some(second.path)) && GroupWithin(second, target) && second.path != target
    requires first.path != second.path
    ensures MovedPath(first, target) != MovedPath(second, target)
  {
    MovedSegments(first, target);
    MovedSegments(second, target);
    if MovedPath(first, target) == MovedPath(second, target) {
      StripIsInjectiveBelow(Some(first.path), Some(second.path), target);
    }
  }

  // One round of the rebasing loop, when the Map holds `kept` and the records `added` so far.
  lemma {:induction false} RebaseStep(
      kept: seq<GroupRecord>, added: seq<GroupRecord>, removed: seq<string>,
      affected: seq<GroupRecord>, target: string, timestamp: string)
    requires IsNormalized(Some(target)) && AffectedBy(affected, target) && affected != []
    requires forall a :: a in added && affected[0].path != target ==> MovedPath(affected[0], target) != Some(a.path)
    ensures RebaseAll(kept + added, removed, affected, target, timestamp)
         == if KeepsPlace(affected[0], target, Paths(kept)) then
              RebaseAll(kept + (added + [Rebased(affected[0], MovedPath(affected[0], target).value, timestamp)]), removed,
                        affected[1..], target, timestamp)
            else
              RebaseAll(kept + added, removed + [affected[0].id], affected[1..], target, timestamp)
  {
    var record := affected[0];
    var path, m := MovedPath(record, target), kept + added;
    assert record in affected;
    MovedSegments(record, target);
    NormalizedNotFalsy(path);
    if path.Some? {
      MapHasIffInPaths(m, path.value);
      assert record.path != target ==> (path.value in Paths(m) <==> path.value in Paths(kept));
    }
    if KeepsPlace(record, target, Paths(kept)) {
      var moved := Rebased(record, path.value, timestamp);
      MapSetAppends(m, moved);
      assert m + [moved] == kept + (added + [moved]);
    }
  }

  // No record in `added` holds the path that a group still to be moved will get.
  ghost predicate ClearOf(added: seq<GroupRecord>, affected: seq<GroupRecord>, target: string) {
    forall g :: g in affected && g.path != target ==>
      forall a :: a in added ==> MovedPath(g, target) != Some(a.path)
  }

  lemma {:induction false} RestIsAffected(affected: seq<GroupRecord>, target: string)
    requires IsNormalized(Some(target)) && AffectedBy(affected, target) && affected != []
    ensures AffectedBy(affected[1..], target)
    ensures forall g :: g in affected[1..] && g.path != target && affected[0].path != target ==>
              MovedPath(g, target) != MovedPath(affected[0], target)
  {
    assert affected[0] in affected;
    forall g | g in affected[1..] && g.path != target && affected[0].path != target
      ensures MovedPath(g, target) != MovedPath(affected[0], target)
    {
      var i :| 0 <= i < |affected[1..]| && affected[1..][i] == g;
      assert affected[i + 1] == g;
      MovedPathsDiffer(affected[0], g, target);
    }
  }

  lemma {:induction false} StaysClear(added: seq<GroupRecord>, affected: seq<GroupRecord>, target: string, moved: GroupRecord)
    requires IsNormalized(Some(target)) && AffectedBy(affected, target) && affected != []
    requires ClearOf(added, affected, target)
    ensures ClearOf(added, affected[1..], target)
    ensures affected[0].path != target && MovedPath(affected[0], target) == Some(moved.path) ==>
              ClearOf(added + [moved], affected[1..], target)
  {
    RestIsAffected(affected, target);
    forall g | g in affected[1..] ensures g in affected {
    }
  }

  lemma {:induction false} RebaseAllIsMoved(
      kept: seq<GroupRecord>, added: seq<GroupRecord>, removed: seq<string>,
      affected: seq<GroupRecord>, target: string, timestamp: string)
    requires IsNormalized(Some(target)) && AffectedBy(affected, target) && ClearOf(added, affected, target)
    ensures RebaseAll(kept + added, removed, affected, target, timestamp)
         == (kept + (added + Moved(affected, target, Paths(kept), timestamp)), removed + Dropped(affected, target, Paths(kept)))
    decreases |affected|
  {
    var taken := Paths(kept);
    if affected == [] {
      assert added + [] == added && removed + [] == removed;
    } else {
      var record, rest := affected[0], affected[1..];
      assert record in affected;
      RebaseStep(kept, added, removed, affected, target, timestamp);
      RestIsAffected(affected, target);
      if KeepsPlace(record, target, taken) {
        var moved := Rebased(record, MovedPath(record, target).value, timestamp);
        StaysClear(added, affected, target, moved);
        RebaseAllIsMoved(kept, added + [moved], removed, rest, target, timestamp);
        AppendStep(added, moved, Moved(rest, target, taken, timestamp));
        assert [] + Dropped(rest, target, taken) == Dropped(rest, target, taken);
      } else {
        StaysClear(added, affected, target, record);
        RebaseAllIsMoved(kept, added, removed + [record.id], rest, target, timestamp);
        AppendStep(removed, record.id, Dropped(rest, target, taken));
        assert [] + Moved(rest, target, taken, timestamp) == Moved(rest, target, taken, timestamp);
      }
    }
  }

  lemma AppendStep<T>(s: seq<T>, x: T, t: seq<T>)
    ensures (s + [x]) + t == s + ([x] + t)
  {
  }

  /**
   On a table with normalised, distinct paths the Map-and-loop code leaves the groups outside the target as
   they are, followed by those below it, moved, unless a group outside already holds the new path; the others
   are reported as removed.
   */
  lemma ReparentClosedForm(tables: Tables, target: string, timestamp: string)
    requires NormalizedPaths(tables.groups) && DistinctPaths(tables.groups) && IsNormalized(Some(target))
    ensures var outside := GroupsWhere(tables.groups, target, false);
            var affected := GroupsWhere(tables.groups, target, true);
            && Reparent(tables, target, timestamp).tables.groups
               == outside + Moved(affected, target, Paths(outside), timestamp)
            && Reparent(tables, target, timestamp).removedGroupIds == Dropped(affected, target, Paths(outside))
  {
    var outside := GroupsWhere(tables.groups, target, false);
    var affected := GroupsWhere(tables.groups, target, true);
    FilterKeepsDistinct(tables.groups, target, false);
    FilterKeepsDistinct(tables.groups, target, true);
    assert [] + outside == outside;
    MapSetAllAppends([], outside);
    assert outside + [] == outside;
    RebaseAllIsMoved(outside, [], [], affected, target, timestamp);
    assert [] + Moved(affected, target, Paths(outside), timestamp) == Moved(affected, target, Paths(outside), timestamp);
    assert [] + Dropped(affected, target, Paths(outside)) == Dropped(affected, target, Paths(outside));
  }

  // ---------- every group id is accounted for ----------

  lemma BagOfCons(x: string, all: seq<string>, left: seq<string>, right: seq<string>)
    requires multiset(all) == multiset(left) + multiset(right)
    ensures multiset([x] + all) == multiset([x] + left) + multiset(right)
    ensures multiset([x] + all) == multiset(left) + multiset([x] + right)
  {
  }

  lemma IdsOfCons(record: GroupRecord, rest: seq<GroupRecord>)
    ensures GroupIds([record] + rest) == [record.id] + GroupIds(rest)
  {
  }

  lemma OneMoreId(first: GroupRecord, rest: seq<GroupRecord>, outside: seq<GroupRecord>, inside: seq<GroupRecord>)
    requires multiset(GroupIds(rest)) == multiset(GroupIds(outside)) + multiset(GroupIds(inside))
    ensures multiset(GroupIds([first] + rest)) == multiset(GroupIds([first] + outside)) + multiset(GroupIds(inside))
    ensures multiset(GroupIds([first] + rest)) == multiset(GroupIds(outside)) + multiset(GroupIds([first] + inside))
  {
    BagOfCons(first.id, GroupIds(rest), GroupIds(outside), GroupIds(inside));
    IdsOfCons(first, rest);
    IdsOfCons(first, outside);
    IdsOfCons(first, inside);
  }

  lemma {:induction false} FilterSplitsIds(groups: seq<GroupRecord>, target: string)
    ensures multiset(GroupIds(groups))
         == multiset(GroupIds(GroupsWhere(groups, target, false))) + multiset(GroupIds(GroupsWhere(groups, target, true)))
  {
    if groups != [] {
      var first, rest := groups[0], groups[1..];
      var outside, inside := GroupsWhere(rest, target, false), GroupsWhere(rest, target, true);
      FilterSplitsIds(rest, target);
      OneMoreId(first, rest, outside, inside);
      assert groups == [first] + rest;
    }
  }

  lemma BagMoves(m: seq<string>, removed: seq<string>, x: string, rest: seq<string>)
    ensures multiset(m) + multiset(removed + [x]) + multiset(rest) == multiset(m) + multiset(removed) + multiset([x] + rest)
    ensures multiset(m + [x]) + multiset(removed) + multiset(rest) == multiset(m) + multiset(removed) + multiset([x] + rest)
  {
  }

  lemma {:induction false} RebaseConservesIds(
      m: seq<GroupRecord>, removed: seq<string>, affected: seq<GroupRecord>, target: string, timestamp: string)
    ensures var (m', removed') := RebaseAll(m, removed, affected, target, timestamp);
            multiset(GroupIds(m')) + multiset(removed')
            == multiset(GroupIds(m)) + multiset(removed) + multiset(GroupIds(affected))
    decreases |affected|
  {
    if affected == [] {
      assert multiset(GroupIds(affected)) == multiset{};
    } else {
      var record, rest := affected[0], affected[1..];
      BagMoves(GroupIds(m), removed, record.id, GroupIds(rest));
      assert GroupIds(affected) == [record.id] + GroupIds(rest);
      var path := StripRemovedGroupSegment(Some(record.path), target);
      if record.path == target || IsFalsy(path) || MapHas(m, path.value) {
        RebaseConservesIds(m, removed + [record.id], rest, target, timestamp);
      } else {
        var moved := Rebased(record, path.value, timestamp);
        MapSetAppends(m, moved);
        assert GroupIds(m + [moved]) == GroupIds(m) + [record.id];
        RebaseConservesIds(m + [moved], removed, rest, target, timestamp);
      }
    }
  }

  lemma {:induction false} MapSetReplaces(m: seq<GroupRecord>, record: GroupRecord)
    requires MapHas(m, record.path)
    ensures |MapSet(m, record)| == |m|
    ensures forall i :: 0 <= i < |m| ==> MapSet(m, record)[i].path == m[i].path
  {
    if m[0].path != record.path {
      var i :| 0 <= i < |m| && m[i].path == record.path;
      assert m[1..][i - 1] == m[i];
      MapSetReplaces(m[1..], record);
    }
  }

  lemma {:induction false} MapSetAllForgetsDuplicates(m: seq<GroupRecord>, records: seq<GroupRecord>)
    requires DistinctPaths(m)
    ensures |MapSetAll(m, records)| <= |m| + |records|
    ensures !DistinctPaths(m + records) ==> |MapSetAll(m, records)| < |m| + |records|
    decreases |records|
  {
    if records == [] {
      assert m + records == m;
    } else if MapHas(m, records[0].path) {
      MapSetReplaces(m, records[0]);
      MapSetAllForgetsDuplicates(MapSet(m, records[0]), records[1..]);
    } else {
      MapSetAppends(m, records[0]);
      assert (m + [records[0]]) + records[1..] == m + records;
      MapSetAllForgetsDuplicates(m + [records[0]], records[1..]);
    }
  }

  lemma BagBalance(all: multiset<string>, outside: multiset<string>, affected: multiset<string>,
                   kept: multiset<string>, after: multiset<string>, removed: multiset<string>)
    requires all == outside + affected && after + removed == kept + affected
    ensures kept == outside ==> all == after + removed
    ensures |kept| < |outside| ==> all != after + removed
  {
    assert |all| == |outside| + |affected| && |after + removed| == |kept| + |affected|;
  }

  lemma {:induction false} KeptIds(outside: seq<GroupRecord>)
    ensures DistinctPaths(outside) ==> MapSetAll([], outside) == outside
    ensures !DistinctPaths(outside) ==> |MapSetAll([], outside)| < |outside|
  {
    assert [] + outside == outside;
    if DistinctPaths(outside) {
      MapSetAllAppends([], outside);
    } else {
      MapSetAllForgetsDuplicates([], outside);
    }
  }

  lemma {:induction false} RebaseBalance(tables: Tables, target: string, timestamp: string)
    ensures var kept := MapSetAll([], GroupsWhere(tables.groups, target, false));
            var removal := Reparent(tables, target, timestamp);
            multiset(GroupIds(removal.tables.groups)) + multiset(removal.removedGroupIds)
            == multiset(GroupIds(kept)) + multiset(GroupIds(GroupsWhere(tables.groups, target, true)))
  {
    var kept := MapSetAll([], GroupsWhere(tables.groups, target, false));
    RebaseConservesIds(kept, [], GroupsWhere(tables.groups, target, true), target, timestamp);
    var bag := multiset(GroupIds(kept));
    assert bag + multiset([]) == bag;
  }

  /**
   Reparenting splits the old group ids exactly into survivors and reported removals, for any table, just when
   no two groups outside the target share a path; such a pair would be merged without a report.
   */
  lemma {:induction false} ReparentSplitsIds(tables: Tables, target: string, timestamp: string)
    ensures multiset(GroupIds(tables.groups))
              == multiset(GroupIds(Reparent(tables, target, timestamp).tables.groups))
               + multiset(Reparent(tables, target, timestamp).removedGroupIds)
        <==> DistinctPaths(GroupsWhere(tables.groups, target, false))
  {
    var outside := GroupsWhere(tables.groups, target, false);
    var kept := MapSetAll([], outside);
    var removal := Reparent(tables, target, timestamp);
    FilterSplitsIds(tables.groups, target);
    RebaseBalance(tables, target, timestamp);
    KeptIds(outside);
    assert |multiset(GroupIds(kept))| == |kept| && |multiset(GroupIds(outside))| == |outside|;
    BagBalance(multiset(GroupIds(tables.groups)), multiset(GroupIds(outside)),
               multiset(GroupIds(GroupsWhere(tables.groups, target, true))), multiset(GroupIds(kept)),
               multiset(GroupIds(removal.tables.groups)), multiset(removal.removedGroupIds));
  }

  // ---------- the tree stays a tree ----------

  lemma {:induction false} MovedIsDistinct(affected: seq<GroupRecord>, target: string, taken: set<string>, timestamp: string)
    requires IsNormalized(Some(target)) && AffectedBy(affected, target)
    ensures DistinctPaths(Moved(affected, target, taken, timestamp))
  {
    if affected != [] {
      RestIsAffected(affected, target);
      MovedIsDistinct(affected[1..], target, taken, timestamp);
      forall record | record in Moved(affected[1..], target, taken, timestamp) && KeepsPlace(affected[0], target, taken)
        ensures Some(record.path) != MovedPath(affected[0], target)
      {
        var g :| g in affected[1..] && KeepsPlace(g, target, taken) && record == Rebased(g, MovedPath(g, target).value, timestamp);
      }
    }
  }

  lemma DropLastOfMoved(a: seq<string>, b: seq<string>)
    requires b < a
    ensures var moved := DropLast(b) + a[|b|..];
            if DropLast(a) == b then DropLast(moved) == DropLast(b)
            else b < DropLast(a) && DropLast(moved) == DropLast(b) + DropLast(a)[|b|..]
  {
  }

  // The parent of a moved path is the move of its parent, or the target's parent.
  lemma {:induction false} ParentOfMoved(record: GroupRecord, target: string)
    requires IsNormalized(Some(record.path)) && IsNormalized(Some(target)) && GroupWithin(record, target)
    requires record.path != target && GetParentGroupPath(MovedPath(record, target)).Some?
    ensures GetParentGroupPath(Some(record.path)).Some?
    ensures var parent := GetParentGroupPath(Some(record.path)).value;
            if parent == target then GetParentGroupPath(MovedPath(record, target)) == GetParentGroupPath(Some(target))
            else && IsGroupWithinPath(Some(parent), Some(target))
                 && StripRemovedGroupSegment(Some(parent), target) == GetParentGroupPath(MovedPath(record, target))
  {
    var a, b := Segments(Some(record.path)), Segments(Some(target));
    MovedSegments(record, target);
    NormalizedNotFalsy(Some(record.path));
    NormalizedNotFalsy(Some(target));
    var moved := DropLast(b) + a[|b|..];
    SegmentsOfPath(moved);
    ParentDropsLastSegment(MovedPath(record, target));
    ParentDropsLastSegment(Some(record.path));
    ParentDropsLastSegment(Some(target));
    var up := DropLast(a);
    SegmentsOfPath(up);
    PathOfIsInjective(up, b);
    DropLastOfMoved(a, b);
    if up != b {
      WithinIsSegmentPrefix(PathOf(up), Some(target));
      StripDeletesLastSegment(PathOf(up), target);
    }
  }

  lemma ParentStaysOutside(path: string, target: string)
    requires IsNormalized(Some(path)) && IsNormalized(Some(target))
    requires GetParentGroupPath(Some(path)).Some?
    requires IsGroupWithinPath(GetParentGroupPath(Some(path)), Some(target))
    ensures IsGroupWithinPath(Some(path), Some(target))
  {
    ParentDropsLastSegment(Some(path));
    SegmentsOfPath(DropLast(Segments(Some(path))));
    WithinIsSegmentPrefix(Some(path), Some(target));
    WithinIsSegmentPrefix(GetParentGroupPath(Some(path)), Some(target));
  }

  lemma ParentOfTargetIsOutside(target: string)
    requires IsNormalized(Some(target)) && GetParentGroupPath(Some(target)).Some?
    ensures !IsGroupWithinPath(GetParentGroupPath(Some(target)), Some(target))
  {
    NormalizedNotFalsy(Some(target));
    ParentDropsLastSegment(Some(target));
    SegmentsOfPath(DropLast(Segments(Some(target))));
    WithinIsSegmentPrefix(GetParentGroupPath(Some(target)), Some(target));
  }

  ghost predicate OutsideAndMoved(groups: seq<GroupRecord>, target: string, after: set<string>) {
    forall path :: path in after <==>
      || (path in Paths(groups) && !IsGroupWithinPath(Some(path), Some(target)))
      || (exists record :: record in groups && GroupWithin(record, target) && record.path != target
                           && MovedPath(record, target) == Some(path))
  }

  /** After reparenting, the paths are those outside the target and those below it without its last segment. */
  lemma ReparentedPaths(tables: Tables, target: string, timestamp: string)
    requires NormalizedPaths(tables.groups) && DistinctPaths(tables.groups) && IsNormalized(Some(target))
    ensures OutsideAndMoved(tables.groups, target, Paths(Reparent(tables, target, timestamp).tables.groups))
  {
    var outside := GroupsWhere(tables.groups, target, false);
    var affected := GroupsWhere(tables.groups, target, true);
    var after := Paths(Reparent(tables, target, timestamp).tables.groups);
    ReparentClosedForm(tables, target, timestamp);
    var moved := Moved(affected, target, Paths(outside), timestamp);
    assert after == Paths(outside) + Paths(moved);
    forall record | record in affected && record.path != target && MovedPath(record, target).Some?
      ensures MovedPath(record, target).value in after
    {
      if MovedPath(record, target).value !in Paths(outside) {
        assert Rebased(record, MovedPath(record, target).value, timestamp) in moved;
      }
    }
    forall path | path in Paths(moved)
      ensures exists record :: record in affected && record.path != target && MovedPath(record, target) == Some(path)
    {
    }
  }

  lemma ReparentKeepsAncestors(tables: Tables, target: string, timestamp: string, path: string)
    requires ValidTree(tables.groups) && IsNormalized(Some(target))
    requires path in Paths(Reparent(tables, target, timestamp).tables.groups)
    requires GetParentGroupPath(Some(path)).Some?
    ensures GetParentGroupPath(Some(path)).value in Paths(Reparent(tables, target, timestamp).tables.groups)
  {
    ReparentedPaths(tables, target, timestamp);
    var parent := GetParentGroupPath(Some(path)).value;
    if path in Paths(tables.groups) && !IsGroupWithinPath(Some(path), Some(target)) {
      if IsGroupWithinPath(Some(parent), Some(target)) {
        ParentStaysOutside(path, target);
      }
    } else {
      var record :| record in tables.groups && GroupWithin(record, target) && record.path != target
                    && MovedPath(record, target) == Some(path);
      ParentOfMoved(record, target);
      assert record.path in Paths(tables.groups);
      var above := GetParentGroupPath(Some(record.path)).value;
      assert above in Paths(tables.groups);
      if above == target {
        ParentOfTargetIsOutside(target);
      } else {
        var holder :| holder in tables.groups && holder.path == above;
        assert GroupWithin(holder, target) && MovedPath(holder, target) == Some(parent);
      }
    }
  }

  /** Reparenting turns a table of normalised, distinct and ancestor-closed paths into another one. */
  lemma ReparentKeepsTree(tables: Tables, target: string, timestamp: string)
    requires ValidTree(tables.groups) && IsNormalized(Some(target))
    ensures ValidTree(Reparent(tables, target, timestamp).tables.groups)
  {
    var outside := GroupsWhere(tables.groups, target, false);
    var affected := GroupsWhere(tables.groups, target, true);
    var after := Reparent(tables, target, timestamp).tables.groups;
    ReparentClosedForm(tables, target, timestamp);
    FilterKeepsDistinct(tables.groups, target, false);
    FilterKeepsDistinct(tables.groups, target, true);
    MovedIsDistinct(affected, target, Paths(outside), timestamp);
    forall record | record in after ensures IsNormalized(Some(record.path)) {
      if record !in outside {
        var g :| g in affected && KeepsPlace(g, target, Paths(outside)) && record == Rebased(g, MovedPath(g, target).value, timestamp);
        MovedSegments(g, target);
      }
    }
    assert DistinctPaths(after) by {
      var moved := Moved(affected, target, Paths(outside), timestamp);
      forall i, j | 0 <= i < |outside| && 0 <= j < |moved| ensures outside[i].path != moved[j].path {
        assert outside[i].path in Paths(outside) && moved[j] in moved;
      }
    }
    forall path | path in Paths(after) && GetParentGroupPath(Some(path)).Some?
      ensures GetParentGroupPath(Some(path)).value in Paths(after)
    {
      ReparentKeepsAncestors(tables, target, timestamp, path);
    }
  }

  /** No host is lost, hosts outside the target are untouched, and a host whose group existed keeps an existing one. */
  lemma ReparentKeepsHostsBacked(tables: Tables, target: string, timestamp: string, i: nat)
    requires ValidTree(tables.groups) && IsNormalized(Some(target)) && i < |tables.hosts|
    ensures var after := Reparent(tables, target, timestamp).tables;
            && |after.hosts| == |tables.hosts|
            && after.hosts[i].id == tables.hosts[i].id
            && (!HostWithin(tables.hosts[i], target) ==> after.hosts[i] == tables.hosts[i])
            && (Backed(tables.hosts[i], tables.groups) ==> Backed(after.hosts[i], after.groups))
  {
    var host := tables.hosts[i];
    var after := Reparent(tables, target, timestamp).tables;
    var path := NormalizeGroupPath(host.groupName);
    NormalizeIsIdempotent(host.groupName);
    NormalizedNotFalsy(path);
    NormalizedNotFalsy(Some(target));
    ReparentedPaths(tables, target, timestamp);
    if Backed(host, tables.groups) && path.Some? && HostWithin(host, target) {
      var record :| record in tables.groups && record.path == path.value;
      var moved := StripRemovedGroupSegment(path, target);
      MovedSegments(record, target);
      NormalizeIsIdempotent(moved);
      if path.value == target {
        StripDeletesLastSegment(path, target);
        var b := Segments(path);
        assert DropLast(b) + b[|b|..] == DropLast(b);
        ParentDropsLastSegment(path);
        if moved.Some? {
          ParentOfTargetIsOutside(target);
          assert target in Paths(tables.groups);
        }
      }
    }
  }

  /** Deleting a subtree removes exactly the groups and hosts at or below the target and reports their ids. */
  lemma DeleteSubtreeRemovesExactly(tables: Tables, target: string)
    requires ValidTree(tables.groups) && IsNormalized(Some(target))
    ensures var removal := DeleteAll(tables, target);
            && ValidTree(removal.tables.groups)
            && multiset(GroupIds(tables.groups)) == multiset(GroupIds(removal.tables.groups)) + multiset(removal.removedGroupIds)
            && multiset(HostIds(tables.hosts)) == multiset(HostIds(removal.tables.hosts)) + multiset(removal.removedHostIds)
            && (forall record :: record in removal.tables.groups <==>
                  record in tables.groups && !(Segments(Some(target)) <= Segments(Some(record.path))))
            && (forall host :: host in removal.tables.hosts <==>
                  host in tables.hosts && !(Segments(Some(target)) <= Segments(host.groupName)))
            && (forall host :: host in removal.tables.hosts && Backed(host, tables.groups) ==> Backed(host, removal.tables.groups))
  {
    var after := DeleteAll(tables, target).tables;
    FilterSplitsIds(tables.groups, target);
    HostFilterSplitsIds(tables.hosts, target);
    FilterKeepsDistinct(tables.groups, target, false);
    forall record | record in tables.groups
      ensures GroupWithin(record, target) <==> Segments(Some(target)) <= Segments(Some(record.path))
    {
      WithinIsSegmentPrefix(Some(record.path), Some(target));
    }
    forall host | host in tables.hosts
      ensures HostWithin(host, target) <==> Segments(Some(target)) <= Segments(host.groupName)
    {
      NormalizeIsIdempotent(host.groupName);
      WithinIsSegmentPrefix(NormalizeGroupPath(host.groupName), Some(target));
    }
    forall path | path in Paths(tables.groups) && !IsGroupWithinPath(Some(path), Some(target))
      ensures path in Paths(after.groups)
    {
      var record :| record in tables.groups && record.path == path;
    }
    forall path | path in Paths(after.groups) && GetParentGroupPath(Some(path)).Some?
      ensures GetParentGroupPath(Some(path)).value in Paths(after.groups)
    {
      if IsGroupWithinPath(GetParentGroupPath(Some(path)), Some(target)) {
        ParentStaysOutside(path, target);
      }
    }
  }

  lemma HostIdsOfCons(host: HostRecord, rest: seq<HostRecord>)
    ensures HostIds([host] + rest) == [host.id] + HostIds(rest)
  {
  }

  lemma OneMoreHostId(first: HostRecord, rest: seq<HostRecord>, outside: seq<HostRecord>, inside: seq<HostRecord>)
    requires multiset(HostIds(rest)) == multiset(HostIds(outside)) + multiset(HostIds(inside))
    ensures multiset(HostIds([first] + rest)) == multiset(HostIds([first] + outside)) + multiset(HostIds(inside))
    ensures multiset(HostIds([first] + rest)) == multiset(HostIds(outside)) + multiset(HostIds([first] + inside))
  {
    BagOfCons(first.id, HostIds(rest), HostIds(outside), HostIds(inside));
    HostIdsOfCons(first, rest);
    HostIdsOfCons(first, outside);
    HostIdsOfCons(first, inside);
  }

  lemma {:induction false} HostFilterSplitsIds(hosts: seq<HostRecord>, target: string)
    ensures multiset(HostIds(hosts))
         == multiset(HostIds(HostsWhere(hosts, target, false))) + multiset(HostIds(HostsWhere(hosts, target, true)))
  {
    if hosts != [] {
      var first, rest := hosts[0], hosts[1..];
      var outside, inside := HostsWhere(rest, target, false), HostsWhere(rest, target, true);
      HostFilterSplitsIds(rest, target);
      OneMoreHostId(first, rest, outside, inside);
      assert hosts == [first] + rest;
    }
  }

  lemma AppendKeepsTree(groups: seq<GroupRecord>, record: GroupRecord)
    requires ValidTree(groups) && IsNormalized(Some(record.path)) && record.path !in Paths(groups)
    ensures NormalizedPaths(groups + [record]) && DistinctPaths(groups + [record])
    ensures ValidTree(groups + [record]) <==>
      GetParentGroupPath(Some(record.path)).None? || GetParentGroupPath(Some(record.path)).value in Paths(groups)
  {
    assert Paths(groups + [record]) == Paths(groups) + {record.path};
    forall i | 0 <= i < |groups| ensures groups[i].path in Paths(groups) {
      assert groups[i] in groups;
    }
    if GetParentGroupPath(Some(record.path)).Some? {
      ParentOfTargetIsOutside(record.path);
      NormalizedNotFalsy(Some(record.path));
    }
  }

  /**
   Creating a group keeps paths normalised and distinct. It keeps them ancestor-closed just when the parent of
   the new path is in the table, which the code does not check.
   */
  lemma CreateKeepsTree(
      groups: seq<GroupRecord>, id: string, name: string, parentPath: Option<string>, timestamp: string)
    requires ValidTree(groups) && CreateSpec(groups, id, name, parentPath, timestamp).Ok?
    ensures var record := CreateSpec(groups, id, name, parentPath, timestamp).value;
            && NormalizedPaths(groups + [record]) && DistinctPaths(groups + [record])
            && (ValidTree(groups + [record]) <==>
                  GetParentGroupPath(Some(record.path)).None? || GetParentGroupPath(Some(record.path)).value in Paths(groups))
  {
    var record := CreateSpec(groups, id, name, parentPath, timestamp).value;
    var parent := NormalizeGroupPath(parentPath);
    var cleanedName := Trim(IsJsSpace, name);
    NormalizeIsIdempotent(Some(if parent.Some? then parent.value + "/" + cleanedName else cleanedName));
    MapHasIffInPaths(groups, record.path);
    AppendKeepsTree(groups, record);
  }

  // ---------- the other fields of a record ----------

  // The name and the parent are those the path spells.
  ghost predicate Consistent(record: GroupRecord) {
    record.name == GetGroupLabel(record.path) && record.parentPath == GetParentGroupPath(Some(record.path))
  }

  // The record after the removal is one from before, unchanged outside the target and moved up below it.
  ghost predicate ComesFrom(record: GroupRecord, before: GroupRecord, target: string, timestamp: string) {
    && record.id == before.id && record.createdAt == before.createdAt
    && if GroupWithin(before, target)
       then record.updatedAt == timestamp && MovedPath(before, target) == Some(record.path) && Consistent(record)
       else record == before
  }

  /** Every surviving record is an old one: outside the target untouched, below it moved, renamed and stamped, same id. */
  lemma ReparentedRecords(tables: Tables, target: string, timestamp: string, record: GroupRecord)
    requires NormalizedPaths(tables.groups) && DistinctPaths(tables.groups) && IsNormalized(Some(target))
    requires record in Reparent(tables, target, timestamp).tables.groups
    ensures exists before :: before in tables.groups && ComesFrom(record, before, target, timestamp)
  {
    var outside := GroupsWhere(tables.groups, target, false);
    var affected := GroupsWhere(tables.groups, target, true);
    ReparentClosedForm(tables, target, timestamp);
    if record in outside {
      assert ComesFrom(record, record, target, timestamp);
    } else {
      var before :| before in affected && KeepsPlace(before, target, Paths(outside))
                    && record == Rebased(before, MovedPath(before, target).value, timestamp);
      assert ComesFrom(record, before, target, timestamp);
    }
  }

  lemma {:induction false} LastIsCleaned(parent: Option<string>, name: string)
    requires IsNormalized(parent) && name == Trim(IsJsSpace, name) && name != "" && '/' !in name
    ensures var path := NormalizeGroupPath(Some(if parent.Some? then parent.value + "/" + name else name));
            path.Some? && GetGroupLabel(path.value) == name && GetParentGroupPath(path) == parent
  {
    var front := Segments(parent);
    NormalizeRefinesSegments(parent);
    NormalizedNotFalsy(parent);
    TrimProperties(IsJsSpace, name);
    assert ValidSegment(name) && ValidSegments([name]);
    ReattachSuffix(front, [name]);
    assert DropLast(front + [name]) == front;
    SegmentsOfPath(front + [name]);
    ParentDropsLastSegment(PathOf(front + [name]));
    LabelIsLastSegment(front + [name]);
  }

  /** A new record's name and parent are those of its path exactly if the name holds no slash. */
  lemma CreatedIsConsistentIffOneSegment(
      groups: seq<GroupRecord>, id: string, name: string, parentPath: Option<string>, timestamp: string)
    requires CreateSpec(groups, id, name, parentPath, timestamp).Ok?
    ensures Consistent(CreateSpec(groups, id, name, parentPath, timestamp).value) <==> '/' !in Trim(IsJsSpace, name)
  {
    var record := CreateSpec(groups, id, name, parentPath, timestamp).value;
    var cleaned := Trim(IsJsSpace, name);
    if '/' !in cleaned {
      NormalizeIsIdempotent(parentPath);
      TrimProperties(IsJsSpace, name);
      TrimProperties(IsJsSpace, cleaned);
      LastIsCleaned(NormalizeGroupPath(parentPath), cleaned);
    } else {
      LabelHasNoSlash(record.path);
    }
  }

  lemma LabelHasNoSlash(path: string)
    ensures '/' !in GetGroupLabel(path)
  {
    var parts := Split('/', path);
    assert parts[|parts| - 1] in parts;
  }

  // ---------- whole runs ----------

  datatype Command =
    | Create(id: string, name: string, parentPath: Option<string>, timestamp: string)
    | Remove(targetPath: string, mode: GroupRemoveMode, timestamp: string)

  // One call; a call that throws leaves the tables alone.
  function Apply(tables: Tables, command: Command): Tables {
    match command
    case Create(id, name, parentPath, timestamp) =>
      var r := CreateSpec(tables.groups, id, name, parentPath, timestamp);
      if r.Ok? then tables.(groups := tables.groups + [r.value]) else tables
    case Remove(targetPath, mode, timestamp) =>
      var r := RemoveSpec(tables, targetPath, mode, timestamp);
      if r.Ok? then r.value.tables else tables
  }

  function Run(tables: Tables, commands: seq<Command>): Tables
    decreases |commands|
  {
    if commands == [] then tables else Run(Apply(tables, commands[0]), commands[1..])
  }

  // Every group is created under the root or under a group that is in the table at that moment.
  ghost predicate CreatesUnderExistingGroups(tables: Tables, commands: seq<Command>)
    decreases |commands|
  {
    commands == [] ||
    (&& (commands[0].Create? ==>
           var r := CreateSpec(tables.groups, commands[0].id, commands[0].name, commands[0].parentPath, commands[0].timestamp);
           r.Ok? ==>
             var parent := GetParentGroupPath(Some(r.value.path));
             parent.None? || parent.value in Paths(tables.groups))
     && CreatesUnderExistingGroups(Apply(tables, commands[0]), commands[1..]))
  }

  ghost predicate ValidTables(tables: Tables) {
    ValidTree(tables.groups) && forall host :: host in tables.hosts ==> Backed(host, tables.groups)
  }

  lemma {:induction false} ReparentKeepsTables(tables: Tables, target: string, timestamp: string)
    requires ValidTables(tables) && IsNormalized(Some(target))
    ensures ValidTables(Reparent(tables, target, timestamp).tables)
  {
    ReparentKeepsTree(tables, target, timestamp);
    var after := Reparent(tables, target, timestamp).tables;
    forall i | 0 <= i < |after.hosts| ensures Backed(after.hosts[i], after.groups) {
      assert tables.hosts[i] in tables.hosts;
      ReparentKeepsHostsBacked(tables, target, timestamp, i);
    }
  }

  lemma {:induction false} RemoveKeepsTables(tables: Tables, targetPath: string, mode: GroupRemoveMode, timestamp: string)
    requires ValidTables(tables) && RemoveSpec(tables, targetPath, mode, timestamp).Ok?
    ensures ValidTables(RemoveSpec(tables, targetPath, mode, timestamp).value.tables)
  {
    var target := NormalizeGroupPath(Some(targetPath)).value;
    NormalizeIsIdempotent(Some(targetPath));
    if mode == DeleteSubtree {
      DeleteSubtreeRemovesExactly(tables, target);
    } else {
      ReparentKeepsTables(tables, target, timestamp);
    }
  }

  /** Over any run, the group paths stay a tree and every host stays ungrouped or in an existing group. */
  lemma {:induction false} RunKeepsTables(tables: Tables, commands: seq<Command>)
    requires ValidTables(tables) && CreatesUnderExistingGroups(tables, commands)
    ensures ValidTables(Run(tables, commands))
    decreases |commands|
  {
    if commands != [] {
      var next := Apply(tables, commands[0]);
      assert ValidTables(next) by {
        match commands[0]
        case Create(id, name, parentPath, timestamp) =>
          var r := CreateSpec(tables.groups, id, name, parentPath, timestamp);
          if r.Ok? {
            CreateKeepsTree(tables.groups, id, name, parentPath, timestamp);
          }
        case Remove(targetPath, mode, timestamp) =>
          if RemoveSpec(tables, targetPath, mode, timestamp).Ok? {
            RemoveKeepsTables(tables, targetPath, mode, timestamp);
          }
      }
      RunKeepsTables(next, commands[1..]);
    }
  }
}

/**
 The group tree the home screen shows: the set of all group paths with their ancestors, the cards
 of one level, and the host counts on them.
 */
module GroupTree {
  import opened Wrappers
  import opened Text
  import opened StableSort
  import opened GroupPaths

  // ---------- a JavaScript Set of strings: distinct values in insertion order ----------

  function SetAdd(paths: seq<string>, path: string): seq<string> {
    if path in paths then paths else paths + [path]
  }

  // ---------- collecting paths ----------

  // Adds the path of every prefix of `segments` longer than `index`.
  function AddPrefixes(paths: seq<string>, segments: seq<string>, index: nat): seq<string>
    decreases |segments| - index
  {
    if index >= |segments| then paths
    else AddPrefixes(SetAdd(paths, Join('/', segments[..index + 1])), segments, index + 1)
  }

  function WithAncestors(paths: seq<string>, targetPath: Option<string>): seq<string> {
    AddPrefixes(paths, Segments(targetPath), 0)
  }

  function AllWithAncestors(paths: seq<string>, targets: seq<Option<string>>): seq<string>
    decreases |targets|
  {
    if targets == [] then paths else AllWithAncestors(WithAncestors(paths, targets[0]), targets[1..])
  }

  function GroupTargets(groups: seq<GroupRecord>): (targets: seq<Option<string>>)
    ensures |targets| == |groups|
    ensures forall i :: 0 <= i < |groups| ==> targets[i] == Some(groups[i].path)
  {
    seq(|groups|, i requires 0 <= i < |groups| => Some(groups[i].path))
  }

  function HostTargets(hosts: seq<HostRecord>): (targets: seq<Option<string>>)
    ensures |targets| == |hosts|
    ensures forall i :: 0 <= i < |hosts| ==> targets[i] == hosts[i].groupName
  {
    seq(|hosts|, i requires 0 <= i < |hosts| => hosts[i].groupName)
  }

  function CollectedPaths(groups: seq<GroupRecord>, hosts: seq<HostRecord>, leq: (string, string) -> bool): seq<string> {
    Sort(leq, AllWithAncestors(AllWithAncestors([], GroupTargets(groups)), HostTargets(hosts)))
  }

  method AppendPathWithAncestors(paths: seq<string>, targetPath: Option<string>) returns (r: seq<string>)
    ensures r == WithAncestors(paths, targetPath)
  {
    r := paths;
    var normalized := NormalizeGroupPath(targetPath);
    NormalizeRefinesSegments(targetPath);
    if normalized.None? {
      return;
    }
    var segments := Split('/', normalized.value);
    assert segments == Segments(targetPath) by {
      NormalizeIsIdempotent(targetPath);
      forall part | part in Segments(targetPath) ensures '/' !in part {
        assert ValidSegment(part);
      }
      SplitOfJoin('/', Segments(targetPath));
    }
    var index := 0;
    while index < |segments|
      invariant 0 <= index <= |segments|
      invariant AddPrefixes(r, segments, index) == WithAncestors(paths, targetPath)
    {
      r := SetAdd(r, Join('/', segments[..index + 1]));
      index := index + 1;
    }
  }

  method CollectGroupPaths(groups: seq<GroupRecord>, hosts: seq<HostRecord>, leq: (string, string) -> bool)
    returns (r: seq<string>)
    ensures r == CollectedPaths(groups, hosts, leq)
  {
    var paths: seq<string> := [];
    ghost var groupPaths := AllWithAncestors([], GroupTargets(groups));
    for i := 0 to |groups|
      invariant AllWithAncestors(paths, GroupTargets(groups)[i..]) == groupPaths
    {
      paths := AppendPathWithAncestors(paths, Some(groups[i].path));
    }
    for i := 0 to |hosts|
      invariant AllWithAncestors(paths, HostTargets(hosts)[i..]) == AllWithAncestors(groupPaths, HostTargets(hosts))
    {
      paths := AppendPathWithAncestors(paths, hosts[i].groupName);
    }
    r := Sort(leq, paths);
  }

  // x is the path of a nonempty prefix of the segments of target.
  ghost predicate IsPrefixPath(x: string, target: Option<string>) {
    exists k :: 1 <= k <= |Segments(target)| && x == Join('/', Segments(target)[..k])
  }

  lemma {:induction false} AddPrefixesContents(paths: seq<string>, segments: seq<string>, index: nat)
    requires Distinct(paths)
    ensures Distinct(AddPrefixes(paths, segments, index))
    ensures forall x :: x in AddPrefixes(paths, segments, index) <==>
              x in paths || exists k :: index < k <= |segments| && x == Join('/', segments[..k])
    decreases |segments| - index
  {
    if index < |segments| {
      AddPrefixesContents(SetAdd(paths, Join('/', segments[..index + 1])), segments, index + 1);
    }
  }

  // Some target is the path or lies below it.
  ghost predicate IsNamed(targets: seq<Option<string>>, path: string) {
    exists i :: 0 <= i < |targets| && IsPrefixPath(path, targets[i])
  }

  lemma {:induction false} NamedByHeadOrTail(targets: seq<Option<string>>, path: string)
    requires targets != []
    ensures IsNamed(targets, path) <==> IsPrefixPath(path, targets[0]) || IsNamed(targets[1..], path)
  {
    if IsNamed(targets[1..], path) {
      var i :| 0 <= i < |targets[1..]| && IsPrefixPath(path, targets[1..][i]);
      assert targets[i + 1] == targets[1..][i];
    }
    if i :| 1 <= i < |targets| && IsPrefixPath(path, targets[i]) {
      assert targets[1..][i - 1] == targets[i];
    }
  }

  lemma NamedInConcat(a: seq<Option<string>>, b: seq<Option<string>>, path: string)
    ensures IsNamed(a + b, path) <==> IsNamed(a, path) || IsNamed(b, path)
  {
    if i :| 0 <= i < |a| && IsPrefixPath(path, a[i]) {
      assert (a + b)[i] == a[i];
    }
    if i :| 0 <= i < |b| && IsPrefixPath(path, b[i]) {
      assert (a + b)[|a| + i] == b[i];
    }
  }

  lemma {:induction false} AllWithAncestorsContents(paths: seq<string>, targets: seq<Option<string>>)
    requires Distinct(paths)
    ensures Distinct(AllWithAncestors(paths, targets))
    ensures forall x :: x in AllWithAncestors(paths, targets) <==> x in paths || IsNamed(targets, x)
    decreases |targets|
  {
    if targets != [] {
      var first := WithAncestors(paths, targets[0]);
      AddPrefixesContents(paths, Segments(targets[0]), 0);
      AllWithAncestorsContents(first, targets[1..]);
      forall x ensures x in AllWithAncestors(paths, targets) <==> x in paths || IsNamed(targets, x) {
        assert x in first <==> x in paths || IsPrefixPath(x, targets[0]);
        NamedByHeadOrTail(targets, x);
      }
    }
  }

  // The raw paths that the groups and hosts name.
  function Targets(groups: seq<GroupRecord>, hosts: seq<HostRecord>): seq<Option<string>> {
    GroupTargets(groups) + HostTargets(hosts)
  }

  /** The collected paths are exactly the prefixes of the group and host paths, each once. */
  lemma CollectedPathsContents(groups: seq<GroupRecord>, hosts: seq<HostRecord>, leq: (string, string) -> bool)
    ensures Distinct(CollectedPaths(groups, hosts, leq))
    ensures forall x :: x in CollectedPaths(groups, hosts, leq) <==> IsNamed(Targets(groups, hosts), x)
  {
    var fromGroups := AllWithAncestors([], GroupTargets(groups));
    AllWithAncestorsContents([], GroupTargets(groups));
    AllWithAncestorsContents(fromGroups, HostTargets(hosts));
    var all := AllWithAncestors(fromGroups, HostTargets(hosts));
    SortKeepsElements(leq, all);
    forall x ensures x in CollectedPaths(groups, hosts, leq) <==> IsNamed(Targets(groups, hosts), x) {
      NamedInConcat(GroupTargets(groups), HostTargets(hosts), x);
      assert x in all <==> x in fromGroups || IsNamed(HostTargets(hosts), x);
    }
  }

  lemma {:induction false} TakeKeepsValid(segments: seq<string>, k: nat)
    requires ValidSegments(segments) && k <= |segments|
    ensures ValidSegments(segments[..k])
  {
  }

  lemma {:induction false} PrefixPathsAreAncestorClosed(x: string, target: Option<string>)
    requires IsPrefixPath(x, target)
    ensures IsNormalized(Some(x))
    ensures GetParentGroupPath(Some(x)).Some? ==> IsPrefixPath(GetParentGroupPath(Some(x)).value, target)
  {
    var all := Segments(target);
    var k :| 1 <= k <= |all| && x == Join('/', all[..k]);
    NormalizeRefinesSegments(target);
    TakeKeepsValid(all, k);
    SegmentsOfPath(all[..k]);
    ParentDropsLastSegment(Some(x));
    assert DropLast(all[..k]) == all[..k - 1];
  }

  /** Every collected path is normalised and its parent is collected too. */
  lemma CollectedPathsAreAncestorClosed(
      groups: seq<GroupRecord>, hosts: seq<HostRecord>, leq: (string, string) -> bool, x: string)
    requires x in CollectedPaths(groups, hosts, leq)
    ensures IsNormalized(Some(x))
    ensures GetParentGroupPath(Some(x)).Some? ==>
              GetParentGroupPath(Some(x)).value in CollectedPaths(groups, hosts, leq)
  {
    var targets := Targets(groups, hosts);
    CollectedPathsContents(groups, hosts, leq);
    var i :| 0 <= i < |targets| && IsPrefixPath(x, targets[i]);
    PrefixPathsAreAncestorClosed(x, targets[i]);
    var parent := GetParentGroupPath(Some(x));
    assert parent.Some? ==> IsNamed(targets, parent.value);
  }

  // ---------- counting hosts ----------

  predicate HostInGroup(host: HostRecord, groupPath: string) {
    var hostGroupPath := NormalizeGroupPath(host.groupName);
    !IsFalsy(hostGroupPath) && IsGroupWithinPath(hostGroupPath, Some(groupPath))
  }

  function CountHostsInGroupTree(hosts: seq<HostRecord>, groupPath: string): nat {
    if hosts == [] then 0
    else (if HostInGroup(hosts[0], groupPath) then 1 else 0) + CountHostsInGroupTree(hosts[1..], groupPath)
  }

  function FilterHostsInGroupTree(hosts: seq<HostRecord>, currentGroupPath: Option<string>): seq<HostRecord> {
    if hosts == [] then []
    else
      var rest := FilterHostsInGroupTree(hosts[1..], currentGroupPath);
      if IsGroupWithinPath(NormalizeGroupPath(hosts[0].groupName), currentGroupPath) then [hosts[0]] + rest else rest
  }

  function DirectHosts(hosts: seq<HostRecord>, currentGroupPath: Option<string>): seq<HostRecord> {
    if hosts == [] then []
    else
      var rest := DirectHosts(hosts[1..], currentGroupPath);
      if IsDirectHostChild(hosts[0].groupName, currentGroupPath) then [hosts[0]] + rest else rest
  }

  function DirectChildren(paths: seq<string>, currentGroupPath: Option<string>): seq<string> {
    if paths == [] then []
    else
      var rest := DirectChildren(paths[1..], currentGroupPath);
      if IsDirectGroupChild(paths[0], currentGroupPath) then [paths[0]] + rest else rest
  }

  // The Map built from the group list: the last record with a path wins.
  function ExplicitName(groups: seq<GroupRecord>, path: string): Option<string> {
    if groups == [] then None
    else if groups[|groups| - 1].path == path then Some(groups[|groups| - 1].name)
    else ExplicitName(groups[..|groups| - 1], path)
  }

  function CardsOf(groups: seq<GroupRecord>, hosts: seq<HostRecord>, paths: seq<string>): (cards: seq<GroupCardView>)
    ensures |cards| == |paths|
  {
    seq(|paths|, i requires 0 <= i < |paths| =>
      var explicit := ExplicitName(groups, paths[i]);
      GroupCardView(
        paths[i],
        if explicit.Some? then explicit.value else GetGroupLabel(paths[i]),
        CountHostsInGroupTree(hosts, paths[i])))
  }

  function VisibleGroups(
      groups: seq<GroupRecord>, hosts: seq<HostRecord>, current: Option<string>, leq: (string, string) -> bool)
    : seq<GroupCardView>
  {
    CardsOf(groups, hosts, DirectChildren(CollectedPaths(groups, hosts, leq), current))
  }

  method BuildVisibleGroups(
      groups: seq<GroupRecord>, hosts: seq<HostRecord>, current: Option<string>, leq: (string, string) -> bool)
    returns (cards: seq<GroupCardView>)
    ensures cards == VisibleGroups(groups, hosts, current, leq)
  {
    var paths := CollectGroupPaths(groups, hosts, leq);
    cards := CardsOf(groups, hosts, DirectChildren(paths, current));
  }

  function SumHostCounts(cards: seq<GroupCardView>): nat {
    if cards == [] then 0 else cards[0].hostCount + SumHostCounts(cards[1..])
  }

  // ---------- the partition ----------

  function SumOfCounts(hosts: seq<HostRecord>, paths: seq<string>): nat {
    if paths == [] then 0 else CountHostsInGroupTree(hosts, paths[0]) + SumOfCounts(hosts, paths[1..])
  }

  // In how many of the groups `paths` the host is.
  function Memberships(host: HostRecord, paths: seq<string>): nat {
    if paths == [] then 0 else (if HostInGroup(host, paths[0]) then 1 else 0) + Memberships(host, paths[1..])
  }

  lemma {:induction false} SumIsSumOfCounts(groups: seq<GroupRecord>, hosts: seq<HostRecord>, paths: seq<string>)
    ensures SumHostCounts(CardsOf(groups, hosts, paths)) == SumOfCounts(hosts, paths)
  {
    if paths != [] {
      SumIsSumOfCounts(groups, hosts, paths[1..]);
      assert CardsOf(groups, hosts, paths)[1..] == CardsOf(groups, hosts, paths[1..]);
    }
  }

  lemma {:induction false} SumPeelsOneHost(hosts: seq<HostRecord>, paths: seq<string>)
    requires hosts != []
    ensures SumOfCounts(hosts, paths) == Memberships(hosts[0], paths) + SumOfCounts(hosts[1..], paths)
  {
    if paths != [] {
      SumPeelsOneHost(hosts, paths[1..]);
    }
  }

  lemma {:induction false} NoHostsSumToZero(paths: seq<string>)
    ensures SumOfCounts([], paths) == 0
  {
    if paths != [] {
      NoHostsSumToZero(paths[1..]);
    }
  }

  lemma {:induction false} MembershipsOfOutsider(host: HostRecord, paths: seq<string>)
    requires forall path :: path in paths ==> !HostInGroup(host, path)
    ensures Memberships(host, paths) == 0
  {
    if paths != [] {
      MembershipsOfOutsider(host, paths[1..]);
    }
  }

  lemma {:induction false} MembershipsInOne(host: HostRecord, paths: seq<string>, path: string)
    requires Distinct(paths) && path in paths
    requires forall p :: p in paths ==> (HostInGroup(host, p) <==> p == path)
    ensures Memberships(host, paths) == 1
  {
    if paths[0] == path {
      assert path !in paths[1..];
      MembershipsOfOutsider(host, paths[1..]);
    } else {
      MembershipsInOne(host, paths[1..], path);
    }
  }

  lemma {:induction false} DirectChildrenContents(paths: seq<string>, current: Option<string>)
    requires Distinct(paths)
    ensures Distinct(DirectChildren(paths, current))
    ensures forall x :: x in DirectChildren(paths, current) <==> x in paths && IsDirectGroupChild(x, current)
  {
    if paths != [] {
      DirectChildrenContents(paths[1..], current);
      assert paths == [paths[0]] + paths[1..];
    }
  }

  lemma {:induction false} ChildContainsHost(host: HostRecord, path: string, current: Option<string>)
    requires IsNormalized(current) && IsNormalized(Some(path)) && IsDirectGroupChild(path, current)
    ensures Segments(Some(path)) != [] && DropLast(Segments(Some(path))) == Segments(current)
    ensures HostInGroup(host, path) <==> Segments(Some(path)) <= Segments(host.groupName)
    ensures Some(path) == PathOf(Segments(Some(path)))
  {
    NormalizeIsIdempotent(host.groupName);
    NormalizedNotFalsy(NormalizeGroupPath(host.groupName));
    WithinIsSegmentPrefix(NormalizeGroupPath(host.groupName), Some(path));
    NormalizedNotFalsy(Some(path));
    ParentDropsLastSegment(Some(path));
    SegmentsOfPath(DropLast(Segments(Some(path))));
  }

  lemma OneLonger(s: seq<string>, a: seq<string>, b: seq<string>)
    requires s != [] && DropLast(s) == b
    ensures s <= a <==> b < a && s == a[..|b| + 1]
  {
    assert |s| == |b| + 1;
    if s <= a {
      assert b == a[..|b|];
    }
  }

  // The child of `current` on the way down to `segments`.
  lemma {:induction false} ChildTowards(segments: seq<string>, current: Option<string>) returns (path: string)
    requires ValidSegments(segments) && IsNormalized(current) && Segments(current) < segments
    ensures PathOf(segments[..|Segments(current)| + 1]) == Some(path)
    ensures Segments(Some(path)) == segments[..|Segments(current)| + 1]
    ensures IsNormalized(Some(path)) && IsDirectGroupChild(path, current)
  {
    var c := segments[..|Segments(current)| + 1];
    TakeKeepsValid(segments, |c|);
    SegmentsOfPath(c);
    path := PathOf(c).value;
    assert DropLast(c) == Segments(current);
    ParentDropsLastSegment(Some(path));
    NormalizedNotFalsy(current);
  }

  /** A host below `current` is in exactly one child of `current`; any other host is in none. */
  lemma {:induction false} MembershipsAmongChildren(host: HostRecord, paths: seq<string>, current: Option<string>)
    requires IsNormalized(current)
    requires Distinct(paths)
    requires forall p :: p in paths ==> IsNormalized(Some(p))
    requires forall x :: IsPrefixPath(x, host.groupName) ==> x in paths
    ensures Memberships(host, DirectChildren(paths, current))
         == if Segments(current) < Segments(host.groupName) then 1 else 0
  {
    var a, b := Segments(host.groupName), Segments(current);
    var children := DirectChildren(paths, current);
    DirectChildrenContents(paths, current);
    if b < a {
      NormalizeRefinesSegments(host.groupName);
      var path := ChildTowards(a, current);
      assert IsPrefixPath(path, host.groupName);
      forall p | p in children ensures HostInGroup(host, p) <==> p == path {
        ChildContainsHost(host, p, current);
        OneLonger(Segments(Some(p)), a, b);
      }
      MembershipsInOne(host, children, path);
    } else {
      forall p | p in children ensures !HostInGroup(host, p) {
        ChildContainsHost(host, p, current);
        OneLonger(Segments(Some(p)), a, b);
      }
      MembershipsOfOutsider(host, children);
    }
  }

  lemma {:induction false} PartitionOfHosts(hosts: seq<HostRecord>, paths: seq<string>, current: Option<string>)
    requires IsNormalized(current)
    requires Distinct(paths)
    requires forall p :: p in paths ==> IsNormalized(Some(p))
    requires forall host, x :: host in hosts && IsPrefixPath(x, host.groupName) ==> x in paths
    ensures |FilterHostsInGroupTree(hosts, current)|
         == |DirectHosts(hosts, current)| + SumOfCounts(hosts, DirectChildren(paths, current))
  {
    if hosts == [] {
      NoHostsSumToZero(DirectChildren(paths, current));
    } else {
      var host := hosts[0];
      PartitionOfHosts(hosts[1..], paths, current);
      SumPeelsOneHost(hosts, DirectChildren(paths, current));
      MembershipsAmongChildren(host, paths, current);
      var path := NormalizeGroupPath(host.groupName);
      NormalizeIsIdempotent(host.groupName);
      WithinIsSegmentPrefix(path, current);
      NormalizedNotFalsy(path);
      NormalizedNotFalsy(current);
      assert path == current <==> Segments(path) == Segments(current);
    }
  }

  lemma {:induction false} UnnormalizedLevelIsEmpty(hosts: seq<HostRecord>, paths: seq<string>, current: string)
    requires current != "" && !IsNormalized(Some(current))
    ensures FilterHostsInGroupTree(hosts, Some(current)) == []
    ensures DirectHosts(hosts, Some(current)) == []
    ensures DirectChildren(paths, Some(current)) == []
    decreases |hosts| + |paths|
  {
    if hosts != [] {
      var path := NormalizeGroupPath(hosts[0].groupName);
      NormalizeIsIdempotent(hosts[0].groupName);
      if IsGroupWithinPath(path, Some(current)) {
        WithinNeedsNormalized(path, current);
      }
      UnnormalizedLevelIsEmpty(hosts[1..], paths, current);
    } else if paths != [] {
      ParentDropsLastSegment(Some(paths[0]));
      SegmentsOfPath(DropLast(Segments(Some(paths[0]))));
      UnnormalizedLevelIsEmpty(hosts, paths[1..], current);
    }
  }

  lemma NoPathIsEmpty(path: Option<string>)
    ensures NormalizeGroupPath(path) != Some("") && GetParentGroupPath(path) != Some("")
  {
    NormalizeRefinesSegments(path);
    SegmentsOfPath(Segments(path));
    ParentDropsLastSegment(path);
    SegmentsOfPath(DropLast(Segments(path)));
  }

  lemma {:induction false} EmptyLevelKeepsHosts(hosts: seq<HostRecord>)
    ensures |FilterHostsInGroupTree(hosts, Some(""))| == |hosts|
    ensures DirectHosts(hosts, Some("")) == []
  {
    if hosts != [] {
      EmptyLevelKeepsHosts(hosts[1..]);
      NoPathIsEmpty(hosts[0].groupName);
      assert IsGroupWithinPath(NormalizeGroupPath(hosts[0].groupName), Some(""));
    }
  }

  lemma {:induction false} EmptyLevelHasNoChildren(paths: seq<string>)
    ensures DirectChildren(paths, Some("")) == []
  {
    if paths != [] {
      EmptyLevelHasNoChildren(paths[1..]);
      NoPathIsEmpty(Some(paths[0]));
    }
  }

  /**
   Host counts partition at every level: the hosts of a level's tree are its direct hosts and those counted
   on its cards. The one level at which this fails is the empty string, which the containment test takes
   for the root and the equality tests do not, and then only if there are hosts.
   */
  lemma HostCountsPartition(
      groups: seq<GroupRecord>, hosts: seq<HostRecord>, current: Option<string>, leq: (string, string) -> bool)
    ensures |FilterHostsInGroupTree(hosts, current)|
              == |DirectHosts(hosts, current)| + SumHostCounts(VisibleGroups(groups, hosts, current, leq))
        <==> current != Some("") || hosts == []
  {
    var paths := CollectedPaths(groups, hosts, leq);
    SumIsSumOfCounts(groups, hosts, DirectChildren(paths, current));
    if current == Some("") {
      EmptyLevelKeepsHosts(hosts);
      EmptyLevelHasNoChildren(paths);
    } else if IsNormalized(current) {
      CollectedPathsContents(groups, hosts, leq);
      forall p | p in paths ensures IsNormalized(Some(p)) {
        CollectedPathsAreAncestorClosed(groups, hosts, leq, p);
      }
      forall host, x | host in hosts && IsPrefixPath(x, host.groupName) ensures x in paths {
        var i :| 0 <= i < |hosts| && hosts[i] == host;
        assert IsPrefixPath(x, HostTargets(hosts)[i]);
        NamedInConcat(GroupTargets(groups), HostTargets(hosts), x);
      }
      PartitionOfHosts(hosts, paths, current);
    } else {
      NormalizeRefinesSegments(None);
      assert Split('/', "") == [""] && Trim(IsJsSpace, "") == "";
      assert CleanSegments([""]) == CleanSegments([""][1..]);
      UnnormalizedLevelIsEmpty(hosts, paths, current.value);
    }
  }

  // ---------- the cards of one level ----------

  lemma {:induction false} ChildrenStayBehind(leq: (string, string) -> bool, x: string, paths: seq<string>, current: Option<string>)
    requires forall i :: 0 <= i < |paths| ==> leq(x, paths[i])
    ensures forall j :: 0 <= j < |DirectChildren(paths, current)| ==> leq(x, DirectChildren(paths, current)[j])
  {
    if paths != [] {
      ChildrenStayBehind(leq, x, paths[1..], current);
    }
  }

  lemma {:induction false} DirectChildrenStaySorted(leq: (string, string) -> bool, paths: seq<string>, current: Option<string>)
    requires Sorted(leq, paths)
    ensures Sorted(leq, DirectChildren(paths, current))
  {
    if paths != [] {
      assert Sorted(leq, paths[1..]);
      DirectChildrenStaySorted(leq, paths[1..], current);
      ChildrenStayBehind(leq, paths[0], paths[1..], current);
    }
  }

  lemma {:induction false} ExplicitNameIsLast(groups: seq<GroupRecord>, i: nat)
    requires i < |groups| && forall j :: i < j < |groups| ==> groups[j].path != groups[i].path
    ensures ExplicitName(groups, groups[i].path) == Some(groups[i].name)
  {
    if i < |groups| - 1 {
      ExplicitNameIsLast(groups[..|groups| - 1], i);
    }
  }

  ghost predicate HasCard(cards: seq<GroupCardView>, path: string) {
    exists k :: 0 <= k < |cards| && cards[k].path == path
  }

  lemma CardPaths(groups: seq<GroupRecord>, hosts: seq<HostRecord>, paths: seq<string>, path: string)
    ensures HasCard(CardsOf(groups, hosts, paths), path) <==> path in paths
  {
    if path in paths {
      var k :| 0 <= k < |paths| && paths[k] == path;
      assert CardsOf(groups, hosts, paths)[k].path == path;
    }
  }

  lemma ChildIsOneLonger(path: string, current: Option<string>)
    requires IsNormalized(current)
    ensures IsDirectGroupChild(path, current) <==> DropLast(Segments(Some(path))) == Segments(current)
  {
    ParentDropsLastSegment(Some(path));
    NormalizeRefinesSegments(current);
    PathOfIsInjective(DropLast(Segments(Some(path))), Segments(current));
  }

  /** The cards of a level are exactly the named paths one segment below it. */
  lemma CardsAreTheChildren(
      groups: seq<GroupRecord>, hosts: seq<HostRecord>, current: Option<string>, leq: (string, string) -> bool, path: string)
    requires IsNormalized(current)
    ensures HasCard(VisibleGroups(groups, hosts, current, leq), path)
       <==> IsNamed(Targets(groups, hosts), path) && DropLast(Segments(Some(path))) == Segments(current)
  {
    var paths := CollectedPaths(groups, hosts, leq);
    CollectedPathsContents(groups, hosts, leq);
    DirectChildrenContents(paths, current);
    CardPaths(groups, hosts, DirectChildren(paths, current), path);
    ChildIsOneLonger(path, current);
  }

  /** No path has two cards, and the cards are in the order of the comparator. */
  lemma CardsAreInOrder(
      groups: seq<GroupRecord>, hosts: seq<HostRecord>, current: Option<string>, leq: (string, string) -> bool, i: nat, j: nat)
    requires TotalPreorder(leq) && i < j < |VisibleGroups(groups, hosts, current, leq)|
    ensures var cards := VisibleGroups(groups, hosts, current, leq);
            cards[i].path != cards[j].path && leq(cards[i].path, cards[j].path)
  {
    var paths := CollectedPaths(groups, hosts, leq);
    CollectedPathsContents(groups, hosts, leq);
    DirectChildrenContents(paths, current);
    SortSorts(leq, AllWithAncestors(AllWithAncestors([], GroupTargets(groups)), HostTargets(hosts)));
    DirectChildrenStaySorted(leq, paths, current);
  }

  /** A card is named after the last group record with its path. */
  lemma CardNamesAreLast(
      groups: seq<GroupRecord>, hosts: seq<HostRecord>, current: Option<string>, leq: (string, string) -> bool, k: nat, i: nat)
    requires k < |VisibleGroups(groups, hosts, current, leq)| && i < |groups|
    requires groups[i].path == VisibleGroups(groups, hosts, current, leq)[k].path
    requires forall j :: i < j < |groups| ==> groups[j].path != groups[i].path
    ensures VisibleGroups(groups, hosts, current, leq)[k].name == groups[i].name
  {
    ExplicitNameIsLast(groups, i);
  }
}

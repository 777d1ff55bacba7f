/**
 Which hosts a level of the group tree shows, and what its cards say, told by the segments of the paths.
 */
module GroupLevels {
  import opened Wrappers
  import opened Text
  import opened StableSort
  import opened GroupPaths
  import opened GroupTree

  /**
   One host is in the tree of a level if its group is at or below it, directly at the level if its group is the level
   itself, and counted on a group if its group is at or below that one.
   */
  lemma LevelOfOneHost(host: HostRecord, current: Option<string>)
    requires IsNormalized(current)
    ensures FilterHostsInGroupTree([host], current) == if Segments(current) <= Segments(host.groupName) then [host] else []
    ensures DirectHosts([host], current) == if Segments(current) == Segments(host.groupName) then [host] else []
    ensures current.Some? ==>
      CountHostsInGroupTree([host], current.value) == if Segments(current) <= Segments(host.groupName) then 1 else 0
  {
    var path := NormalizeGroupPath(host.groupName);
    assert [host][1..] == [];
    NormalizeIsIdempotent(host.groupName);
    WithinIsSegmentPrefix(path, current);
    NormalizedNotFalsy(path);
    NormalizedNotFalsy(current);
    assert path == current <==> Segments(path) == Segments(current);
  }

  function InTree(host: HostRecord, current: Option<string>): seq<HostRecord> {
    if IsGroupWithinPath(NormalizeGroupPath(host.groupName), current) then [host] else []
  }

  function AtLevel(host: HostRecord, current: Option<string>): seq<HostRecord> {
    if IsDirectHostChild(host.groupName, current) then [host] else []
  }

  lemma FilterUnfolds(host: HostRecord, rest: seq<HostRecord>, current: Option<string>)
    ensures FilterHostsInGroupTree([host] + rest, current) == InTree(host, current) + FilterHostsInGroupTree(rest, current)
  {
    assert ([host] + rest)[1..] == rest;
  }

  lemma DirectUnfolds(host: HostRecord, rest: seq<HostRecord>, current: Option<string>)
    ensures DirectHosts([host] + rest, current) == AtLevel(host, current) + DirectHosts(rest, current)
  {
    assert ([host] + rest)[1..] == rest;
  }

  lemma CountOfFirst(host: HostRecord, rest: seq<HostRecord>, path: string)
    ensures CountHostsInGroupTree([host] + rest, path) == CountHostsInGroupTree([host], path) + CountHostsInGroupTree(rest, path)
  {
    assert ([host] + rest)[1..] == rest;
  }

  lemma Regrouped(head: seq<HostRecord>, rest: seq<HostRecord>, tail: seq<HostRecord>)
    ensures (head + rest) + tail == head + (rest + tail)
  {
  }

  lemma {:induction false} FilterOfConcat(a: seq<HostRecord>, b: seq<HostRecord>, current: Option<string>)
    ensures FilterHostsInGroupTree(a + b, current) == FilterHostsInGroupTree(a, current) + FilterHostsInGroupTree(b, current)
  {
    if a == [] {
      assert a + b == b;
    } else {
      var first, rest := a[0], a[1..];
      assert a == [first] + rest;
      FilterOfConcat(rest, b, current);
      FilterUnfolds(first, rest, current);
      FilterUnfolds(first, rest + b, current);
      Regrouped([first], rest, b);
      Regrouped(InTree(first, current), FilterHostsInGroupTree(rest, current), FilterHostsInGroupTree(b, current));
    }
  }

  lemma {:induction false} DirectOfConcat(a: seq<HostRecord>, b: seq<HostRecord>, current: Option<string>)
    ensures DirectHosts(a + b, current) == DirectHosts(a, current) + DirectHosts(b, current)
  {
    if a == [] {
      assert a + b == b;
    } else {
      var first, rest := a[0], a[1..];
      assert a == [first] + rest;
      DirectOfConcat(rest, b, current);
      DirectUnfolds(first, rest, current);
      DirectUnfolds(first, rest + b, current);
      Regrouped([first], rest, b);
      Regrouped(AtLevel(first, current), DirectHosts(rest, current), DirectHosts(b, current));
    }
  }

  lemma {:induction false} CountOfConcat(a: seq<HostRecord>, b: seq<HostRecord>, path: string)
    ensures CountHostsInGroupTree(a + b, path) == CountHostsInGroupTree(a, path) + CountHostsInGroupTree(b, path)
  {
    if a == [] {
      assert a + b == b;
    } else {
      var first, rest := a[0], a[1..];
      assert a == [first] + rest;
      CountOfConcat(rest, b, path);
      CountOfFirst(first, rest, path);
      CountOfFirst(first, rest + b, path);
      Regrouped([first], rest, b);
    }
  }

  /** What a level shows of two lists of hosts is what it shows of the one followed by what it shows of the other. */
  lemma LevelOfConcat(a: seq<HostRecord>, b: seq<HostRecord>, current: Option<string>, path: string)
    ensures FilterHostsInGroupTree(a + b, current) == FilterHostsInGroupTree(a, current) + FilterHostsInGroupTree(b, current)
    ensures DirectHosts(a + b, current) == DirectHosts(a, current) + DirectHosts(b, current)
    ensures CountHostsInGroupTree(a + b, path) == CountHostsInGroupTree(a, path) + CountHostsInGroupTree(b, path)
  {
    FilterOfConcat(a, b, current);
    DirectOfConcat(a, b, current);
    CountOfConcat(a, b, path);
  }

  // The hosts at or below the segments, by their places in the list.
  ghost function HostsBelow(hosts: seq<HostRecord>, segments: seq<string>): set<nat> {
    set i: nat | i < |hosts| && segments <= Segments(hosts[i].groupName)
  }

  lemma OneMoreHostBelow(front: seq<HostRecord>, last: HostRecord, segments: seq<string>)
    ensures |HostsBelow(front + [last], segments)|
         == |HostsBelow(front, segments)| + if segments <= Segments(last.groupName) then 1 else 0
  {
    var all, before := HostsBelow(front + [last], segments), HostsBelow(front, segments);
    if segments <= Segments(last.groupName) {
      assert all == before + {|front|};
    } else {
      assert all == before;
    }
  }

  lemma {:induction false} CountIsHostsBelow(hosts: seq<HostRecord>, path: string)
    requires IsNormalized(Some(path))
    ensures CountHostsInGroupTree(hosts, path) == |HostsBelow(hosts, Segments(Some(path)))|
  {
    if hosts != [] {
      var front, last := hosts[..|hosts| - 1], hosts[|hosts| - 1];
      assert hosts == front + [last];
      CountIsHostsBelow(front, path);
      CountOfConcat(front, [last], path);
      LevelOfOneHost(last, Some(path));
      OneMoreHostBelow(front, last, Segments(Some(path)));
    }
  }

  lemma CardIsNamed(groups: seq<GroupRecord>, hosts: seq<HostRecord>, current: Option<string>, leq: (string, string) -> bool, k: nat)
    requires k < |VisibleGroups(groups, hosts, current, leq)|
    ensures var path := VisibleGroups(groups, hosts, current, leq)[k].path;
            IsNormalized(Some(path)) && Segments(Some(path)) != [] && PathOf(Segments(Some(path))) == Some(path)
  {
    var paths := CollectedPaths(groups, hosts, leq);
    var path := VisibleGroups(groups, hosts, current, leq)[k].path;
    CollectedPathsContents(groups, hosts, leq);
    DirectChildrenContents(paths, current);
    assert path in DirectChildren(paths, current);
    CollectedPathsAreAncestorClosed(groups, hosts, leq, path);
    NormalizedNotFalsy(Some(path));
  }

  /** At any level, a card counts the hosts at or below its path, and without a record it is named after its last segment. */
  lemma {:induction false} CardsTellTheirSubtree(
      groups: seq<GroupRecord>, hosts: seq<HostRecord>, current: Option<string>, leq: (string, string) -> bool, k: nat)
    requires k < |VisibleGroups(groups, hosts, current, leq)|
    ensures var card := VisibleGroups(groups, hosts, current, leq)[k];
            var segments := Segments(Some(card.path));
            && card.hostCount == |HostsBelow(hosts, segments)|
            && segments != []
            && ((forall i :: 0 <= i < |groups| ==> groups[i].path != card.path) ==> card.name == segments[|segments| - 1])
  {
    var card := VisibleGroups(groups, hosts, current, leq)[k];
    var segments := Segments(Some(card.path));
    CardIsNamed(groups, hosts, current, leq, k);
    CountIsHostsBelow(hosts, card.path);
    NormalizeRefinesSegments(Some(card.path));
    LabelIsLastSegment(segments);
    if forall i :: 0 <= i < |groups| ==> groups[i].path != card.path {
      NoRecordNoName(groups, card.path);
    }
  }

  lemma {:induction false} NoRecordNoName(groups: seq<GroupRecord>, path: string)
    requires forall i :: 0 <= i < |groups| ==> groups[i].path != path
    ensures ExplicitName(groups, path).None?
  {
    if groups != [] {
      NoRecordNoName(groups[..|groups| - 1], path);
    }
  }
}

/**
 Array.prototype.sort with a comparator: a stable sort. `leq(x, y)` stands for `compare(x, y) <= 0`.
 */
module StableSort {

  ghost predicate TotalPreorder<T(!new)>(leq: (T, T) -> bool) {
    && (forall x, y :: leq(x, y) || leq(y, x))
    && (forall x, y, z :: leq(x, y) && leq(y, z) ==> leq(x, z))
  }

  ghost predicate Sorted<T>(leq: (T, T) -> bool, s: seq<T>) {
    forall i, j :: 0 <= i < j < |s| ==> leq(s[i], s[j])
  }

  function Insert<T>(leq: (T, T) -> bool, x: T, s: seq<T>): (r: seq<T>)
    ensures multiset(r) == multiset{x} + multiset(s)
  {
    if s == [] || leq(x, s[0]) then [x] + s
    else
      assert s == [s[0]] + s[1..];
      [s[0]] + Insert(leq, x, s[1..])
  }

  function Sort<T>(leq: (T, T) -> bool, s: seq<T>): (r: seq<T>)
    ensures multiset(r) == multiset(s)
  {
    if s == [] then []
    else
      assert s == [s[0]] + s[1..];
      Insert(leq, s[0], Sort(leq, s[1..]))
  }

  lemma SameElements<T>(a: seq<T>, b: seq<T>)
    requires multiset(a) == multiset(b)
    ensures |a| == |b|
    ensures forall x :: x in a <==> x in b
  {
    assert |multiset(a)| == |a| && |multiset(b)| == |b|;
    forall x ensures x in a <==> x in b {
      assert x in a <==> x in multiset(a);
      assert x in b <==> x in multiset(b);
    }
  }

  lemma {:induction false} InsertKeepsSorted<T(!new)>(leq: (T, T) -> bool, x: T, s: seq<T>)
    requires TotalPreorder(leq) && Sorted(leq, s)
    ensures Sorted(leq, Insert(leq, x, s))
  {
    if s != [] && !leq(x, s[0]) {
      InsertKeepsSorted(leq, x, s[1..]);
      var r := Insert(leq, x, s[1..]);
      forall y | y in r ensures leq(s[0], y) {
        SameElements(r, [x] + s[1..]);
        assert y == x || y in s[1..];
      }
    } else if s != [] {
      forall y | y in s ensures leq(x, y) {
        assert leq(s[0], s[0]);
      }
    }
  }

  lemma {:induction false} SortSorts<T(!new)>(leq: (T, T) -> bool, s: seq<T>)
    requires TotalPreorder(leq)
    ensures Sorted(leq, Sort(leq, s))
  {
    if s != [] {
      SortSorts(leq, s[1..]);
      InsertKeepsSorted(leq, s[0], Sort(leq, s[1..]));
    }
  }

  /** Sorting a sorted sequence is the identity: equal elements are not exchanged. */
  lemma {:induction false} SortOfSorted<T>(leq: (T, T) -> bool, s: seq<T>)
    requires Sorted(leq, s)
    ensures Sort(leq, s) == s
  {
    if s != [] {
      assert Sorted(leq, s[1..]);
      SortOfSorted(leq, s[1..]);
      assert |s| > 1 ==> leq(s[0], s[1]);
    }
  }

  ghost predicate Distinct<T>(s: seq<T>) {
    forall i, j :: 0 <= i < j < |s| ==> s[i] != s[j]
  }

  lemma {:induction false} DistinctCounts<T>(s: seq<T>, x: T)
    requires Distinct(s)
    ensures multiset(s)[x] <= 1
  {
    if s != [] {
      assert s == [s[0]] + s[1..];
      DistinctCounts(s[1..], x);
    }
  }

  lemma {:induction false} CountsDistinct<T>(s: seq<T>)
    requires forall x :: multiset(s)[x] <= 1
    ensures Distinct(s)
  {
    if s != [] {
      assert s == [s[0]] + s[1..];
      forall x ensures multiset(s[1..])[x] <= 1 {
        assert multiset(s)[x] == multiset{s[0]}[x] + multiset(s[1..])[x];
      }
      CountsDistinct(s[1..]);
      assert multiset(s)[s[0]] == 1 + multiset(s[1..])[s[0]];
      assert s[0] !in s[1..];
    }
  }

  /** Sorting keeps the elements, and keeps them distinct. */
  lemma SortKeepsElements<T>(leq: (T, T) -> bool, s: seq<T>)
    ensures forall x :: x in Sort(leq, s) <==> x in s
    ensures Distinct(s) ==> Distinct(Sort(leq, s))
  {
    SameElements(Sort(leq, s), s);
    if Distinct(s) {
      forall x ensures multiset(Sort(leq, s))[x] <= 1 {
        DistinctCounts(s, x);
      }
      CountsDistinct(Sort(leq, s));
    }
  }
}

/** ClusterSet: the current clusters, as a list without duplicates, with
    membership by identity; it finds the closest pair under a linkage rule
    and merges two clusters into one. */
module ClusterSets {
  import opened Points
  import opened Clusters

  /** What `Add` and `Remove` report: success, or the ValueError the source raises. */
  datatype Outcome = Done | ValueError

  predicate NoDuplicates<T(==)>(s: seq<T>) {
    forall i, j :: 0 <= i < j < |s| ==> s[i] != s[j]
  }

  /** Deletes the first occurrence of `x`, as a list's `remove` does. */
  function RemoveFirst<T(==)>(s: seq<T>, x: T): (r: seq<T>)
    ensures x !in s ==> r == s
    decreases |s|
  {
    if s == [] then []
    else if s[0] == x then s[1..]
    else [s[0]] + RemoveFirst(s[1..], x)
  }

  /** Index of the first occurrence of `x` in `s`. */
  function IndexOf<T(==)>(s: seq<T>, x: T): (k: nat)
    requires x in s
    ensures k < |s| && s[k] == x
    ensures forall l :: 0 <= l < k ==> s[l] != x
    decreases |s|
  {
    if s[0] == x then 0 else 1 + IndexOf(s[1..], x)
  }

  /** Removing `x` cuts it out at its first position and keeps everything
      else in order. */
  lemma {:induction false} RemoveFirstCutsOut<T>(s: seq<T>, x: T)
    requires x in s
    ensures RemoveFirst(s, x) == s[..IndexOf(s, x)] + s[IndexOf(s, x) + 1..]
    decreases |s|
  {
    if s[0] != x {
      var t := s[1..];
      var k := IndexOf(t, x);
      RemoveFirstCutsOut(t, x);
      SliceCons(s, k);
      calc {
        RemoveFirst(s, x);
        [s[0]] + RemoveFirst(t, x);
        [s[0]] + (t[..k] + t[k + 1..]);
        ([s[0]] + t[..k]) + t[k + 1..];
        s[..k + 1] + s[k + 2..];
      }
    }
  }

  /** Slicing the tail of a list is slicing the list one position later. */
  lemma SliceCons<T>(s: seq<T>, k: int)
    requires 0 <= k < |s| - 1
    ensures [s[0]] + s[1..][..k] == s[..k + 1]
    ensures s[1..][k + 1..] == s[k + 2..]
  {
  }

  lemma NoDuplicatesCons<T>(a: T, s: seq<T>)
    requires a !in s && NoDuplicates(s)
    ensures NoDuplicates([a] + s)
  {
    var r := [a] + s;
    forall i, j | 0 <= i < j < |r| ensures r[i] != r[j] {
      assert r[j] == s[j - 1];
      if i > 0 {
        assert r[i] == s[i - 1];
      }
    }
  }

  /** On a list without duplicates, removal deletes exactly `x`: the result
      has no duplicates, one element fewer, and every other member. */
  lemma {:induction false} RemoveFirstDistinct<T>(s: seq<T>, x: T)
    requires NoDuplicates(s) && x in s
    ensures NoDuplicates(RemoveFirst(s, x))
    ensures |RemoveFirst(s, x)| == |s| - 1
    ensures forall y :: y in RemoveFirst(s, x) <==> y in s && y != x
    decreases |s|
  {
    var t := s[1..];
    assert s == [s[0]] + t;
    NoDuplicatesTail(s);
    if s[0] != x {
      RemoveFirstDistinct(t, x);
      var rt := RemoveFirst(t, x);
      assert RemoveFirst(s, x) == [s[0]] + rt;
      NoDuplicatesCons(s[0], rt);
    }
  }

  /** Removing a cluster just appended to a list that did not hold it gives the
      list back: `remove` undoes `add`. */
  lemma {:induction false} RemoveAppended<T>(s: seq<T>, x: T)
    requires x !in s
    ensures RemoveFirst(s + [x], x) == s
    decreases |s|
  {
    if s != [] {
      assert (s + [x])[1..] == s[1..] + [x];
      RemoveAppended(s[1..], x);
      assert s == [s[0]] + s[1..];
    }
  }

  ghost function Elements<T>(s: seq<T>): set<T> {
    set x | x in s
  }

  lemma ElementsCons<T>(s: seq<T>)
    requires s != []
    ensures Elements(s) == Elements(s[1..]) + {s[0]}
  {
    assert s == [s[0]] + s[1..];
  }

  lemma NoDuplicatesTail<T>(s: seq<T>)
    requires s != [] && NoDuplicates(s)
    ensures NoDuplicates(s[1..]) && s[0] !in s[1..]
  {
    var t := s[1..];
    forall a, b | 0 <= a < b < |t| ensures t[a] != t[b] {
      assert t[a] == s[a + 1] && t[b] == s[b + 1];
    }
    forall a | 0 <= a < |t| ensures t[a] != s[0] {
      assert t[a] == s[a + 1];
    }
  }

  /** A list without duplicates has as many distinct elements as entries. */
  lemma {:induction false} DistinctCount<T>(s: seq<T>)
    ensures NoDuplicates(s) ==> |Elements(s)| == |s|
    decreases |s|
  {
    if s != [] && NoDuplicates(s) {
      var t := s[1..];
      NoDuplicatesTail(s);
      DistinctCount(t);
      ElementsCons(s);
      assert s[0] !in Elements(t);
    }
  }

  /** The points of all clusters, cluster after cluster. */
  function AllPoints(ms: seq<Cluster>): seq<Point>
    decreases |ms|
  {
    if ms == [] then [] else ms[0].points + AllPoints(ms[1..])
  }

  lemma {:induction false} AllPointsAppend(ms: seq<Cluster>, c: Cluster)
    ensures AllPoints(ms + [c]) == AllPoints(ms) + c.points
    decreases |ms|
  {
    if ms == [] {
      assert [c][1..] == [];
    } else {
      AllPointsAppend(ms[1..], c);
      assert (ms + [c])[1..] == ms[1..] + [c];
    }
  }

  /** Removing a member removes exactly its points from the pool. */
  lemma {:induction false} AllPointsRemove(ms: seq<Cluster>, c: Cluster)
    requires c in ms
    ensures multiset(AllPoints(ms)) == multiset(AllPoints(RemoveFirst(ms, c))) + multiset(c.points)
    decreases |ms|
  {
    if ms[0] != c {
      AllPointsRemove(ms[1..], c);
      assert RemoveFirst(ms, c) == [ms[0]] + RemoveFirst(ms[1..], c);
      assert ([ms[0]] + RemoveFirst(ms[1..], c))[1..] == RemoveFirst(ms[1..], c);
    }
  }

  /** What replacing `c1` and `c2` by `c3` does to a list without duplicates. */
  lemma MergeFacts(ms: seq<Cluster>, c1: Cluster, c2: Cluster, c3: Cluster)
    requires NoDuplicates(ms) && c1 in ms && c2 in ms && c1 != c2 && c3 !in ms
    requires c3.points == c1.points + c2.points
    ensures c2 in RemoveFirst(ms, c1) && NoDuplicates(RemoveFirst(ms, c1))
    ensures var rest := RemoveFirst(RemoveFirst(ms, c1), c2);
      && NoDuplicates(rest) && c3 !in rest
      && |rest| == |ms| - 2
      && c1 !in rest && c2 !in rest
      && (forall d :: d in ms && d != c1 && d != c2 ==> d in rest)
      && multiset(AllPoints(rest + [c3])) == multiset(AllPoints(ms))
  {
    var middle := RemoveFirst(ms, c1);
    RemoveFirstDistinct(ms, c1);
    RemoveFirstDistinct(middle, c2);
    var rest := RemoveFirst(middle, c2);
    AllPointsRemove(ms, c1);
    AllPointsRemove(middle, c2);
    AllPointsAppend(rest, c3);
  }

  /** Every pair the search compares can be measured under `rule`. */
  predicate AllDefined(rule: Linkage, ms: seq<Cluster>) {
    forall i, j :: 0 <= i < j < |ms| ==> Defined(rule, ms[i].points, ms[j].points)
  }

  /** The table of linkages the search compares: entry [i][j] is the linkage of
      the i-th and j-th member when i < j, and 0.0 below the diagonal, which
      the search never reads. */
  ghost function Linkages(rule: Linkage, sqrt: real -> real, ms: seq<Cluster>): (t: seq<seq<real>>)
    requires AllDefined(rule, ms)
    ensures Square(t, |ms|)
  {
    seq(|ms|, i requires 0 <= i < |ms| =>
      seq(|ms|, j requires 0 <= j < |ms| =>
        if i < j then LinkageDist(rule, sqrt, ms[i].points, ms[j].points) else 0.0))
  }

  /** `t` is an n-by-n table. */
  predicate Square(t: seq<seq<real>>, n: nat) {
    |t| == n && forall i :: 0 <= i < n ==> |t[i]| == n
  }

  lemma LinkagesEntry(rule: Linkage, sqrt: real -> real, ms: seq<Cluster>, i: int, j: int)
    requires AllDefined(rule, ms) && 0 <= i < j < |ms|
    ensures Linkages(rule, sqrt, ms)[i][j] == LinkageDist(rule, sqrt, ms[i].points, ms[j].points)
  {
  }

  /** (k, l) comes before (i, j) when the outer index is scanned ascending,
      then the inner one. */
  predicate LexBefore(k: int, l: int, i: int, j: int) {
    k < i || (k == i && l < j)
  }

  /** (i, j) is the first pair above the diagonal of least value in `t`: its
      value is at most that of every pair, and strictly less than that of
      every earlier pair. */
  ghost predicate FirstMin(t: seq<seq<real>>, n: nat, i: int, j: int)
    requires Square(t, n)
  {
    && 0 <= i < j < n
    && (forall k, l :: 0 <= k < l < n ==> t[i][j] <= t[k][l])
    && (forall k, l :: 0 <= k < l < n && LexBefore(k, l, i, j) ==> t[i][j] < t[k][l])
  }

  /** (i, j) is the pair the search must return: the first pair of members of
      least linkage. */
  ghost predicate IsClosest(rule: Linkage, sqrt: real -> real, ms: seq<Cluster>, i: int, j: int)
    requires AllDefined(rule, ms)
  {
    FirstMin(Linkages(rule, sqrt, ms), |ms|, i, j)
  }

  /** A first minimum has no other first minimum before it. */
  lemma FirstMinNotBefore(t: seq<seq<real>>, n: nat, i: int, j: int, k: int, l: int)
    requires Square(t, n) && FirstMin(t, n, i, j) && FirstMin(t, n, k, l)
    ensures !LexBefore(k, l, i, j)
  {
  }

  /** At most one pair is the closest. */
  lemma ClosestUnique(rule: Linkage, sqrt: real -> real, ms: seq<Cluster>, i: int, j: int, k: int, l: int)
    requires AllDefined(rule, ms)
    requires IsClosest(rule, sqrt, ms, i, j) && IsClosest(rule, sqrt, ms, k, l)
    ensures i == k && j == l
  {
    var t := Linkages(rule, sqrt, ms);
    FirstMinNotBefore(t, |ms|, i, j, k, l);
    FirstMinNotBefore(t, |ms|, k, l, i, j);
  }

  /** The state of the search after scanning every pair before (i, j): (bi, bj)
      is the best pair so far, at value `best`, it was scanned already, it is no
      larger than any scanned pair and strictly smaller than any scanned pair
      that precedes it. */
  ghost predicate Best(t: seq<seq<real>>, n: nat, bi: int, bj: int, i: int, j: int, best: real)
    requires Square(t, n)
  {
    && 0 <= bi < bj < n
    && best == t[bi][bj]
    && !LexBefore(i, j, bi, bj)
    && forall k, l :: 0 <= k < l < n && LexBefore(k, l, i, j) ==>
         && best <= t[k][l]
         && (LexBefore(k, l, bi, bj) ==> best < t[k][l])
  }

  /** Comparing pair (i, j) extends the scan by one: the best pair stays when
      (i, j) is not strictly smaller. */
  lemma SearchKeep(t: seq<seq<real>>, n: nat, bi: int, bj: int, i: int, j: int, best: real)
    requires Square(t, n) && 0 <= i < j < n
    requires Best(t, n, bi, bj, i, j, best) && best <= t[i][j]
    ensures Best(t, n, bi, bj, i, j + 1, best)
  {
    forall k, l | 0 <= k < l < n && LexBefore(k, l, i, j + 1)
      ensures best <= t[k][l]
      ensures LexBefore(k, l, bi, bj) ==> best < t[k][l]
    {
      if !LexBefore(k, l, i, j) {
        assert k == i && l == j;
      }
    }
  }

  /** ... and (i, j) becomes the best pair when it is strictly smaller. */
  lemma SearchImprove(t: seq<seq<real>>, n: nat, bi: int, bj: int, i: int, j: int, best: real)
    requires Square(t, n) && 0 <= i < j < n
    requires Best(t, n, bi, bj, i, j, best) && t[i][j] < best
    ensures Best(t, n, i, j, i, j + 1, t[i][j])
  {
    forall k, l | 0 <= k < l < n && LexBefore(k, l, i, j + 1)
      ensures t[i][j] <= t[k][l]
      ensures LexBefore(k, l, i, j) ==> t[i][j] < t[k][l]
    {
      if LexBefore(k, l, i, j) {
        assert best <= t[k][l];
      } else {
        assert k == i && l == j;
      }
    }
  }

  /** Finishing row i is the same as starting row i + 1. */
  lemma SearchNextRow(t: seq<seq<real>>, n: nat, bi: int, bj: int, i: int, best: real)
    requires Square(t, n) && 0 <= i
    requires Best(t, n, bi, bj, i, n, best)
    ensures Best(t, n, bi, bj, i + 1, i + 2, best)
  {
  }

  /** Once every row is scanned, the best pair is the first minimum. */
  lemma SearchDone(t: seq<seq<real>>, n: nat, bi: int, bj: int, best: real)
    requires Square(t, n)
    requires Best(t, n, bi, bj, n - 1, n, best)
    ensures FirstMin(t, n, bi, bj)
  {
  }

  class ClusterSet {
    var members: seq<Cluster>

    ghost predicate Valid()
      reads this
    {
      NoDuplicates(members)
    }

    constructor ()
      ensures Valid() && members == []
    {
      members := [];
    }

    /** The number of clusters: with no duplicates, the length of the list is
        the number of distinct clusters in it. */
    function NumClusters(): (n: nat)
      reads this
      ensures Valid() ==> n == |Elements(members)|
    {
      DistinctCount(members);
      |members|
    }

    function GetClusters(): seq<Cluster>
      reads this
    {
      members
    }

    /** Appends `c` unless it is already a member, which is a ValueError. */
    method Add(c: Cluster) returns (outcome: Outcome)
      requires Valid()
      modifies this
      ensures Valid()
      ensures outcome == ValueError <==> c in old(members)
      ensures members == if c in old(members) then old(members) else old(members) + [c]
    {
      if c in members {
        return ValueError;
      }
      members := members + [c];
      return Done;
    }

    /** Deletes `c`, or reports a ValueError when it is not a member. */
    method Remove(c: Cluster) returns (outcome: Outcome)
      requires Valid()
      modifies this
      ensures Valid()
      ensures outcome == ValueError <==> c !in old(members)
      ensures members == RemoveFirst(old(members), c)
    {
      if c !in members {
        return ValueError;
      }
      RemoveFirstDistinct(members, c);
      members := RemoveFirst(members, c);
      return Done;
    }

    /** Replaces the members `c1` and `c2` by one new cluster holding c1's
        points followed by c2's, of c1's kind, appended at the end. */
    method MergeClusters(c1: Cluster, c2: Cluster)
      requires Valid() && c1 in members && c2 in members && c1 != c2
      modifies this
      ensures Valid()
      ensures |members| == |old(members)| - 1 > 0
      ensures members[..|members| - 1] == RemoveFirst(RemoveFirst(old(members), c1), c2)
      ensures fresh(members[|members| - 1])
      ensures members[|members| - 1].points == c1.points + c2.points
      ensures members[|members| - 1].pointType == c1.pointType
      ensures c1 !in members && c2 !in members
      ensures forall d :: d in old(members) && d != c1 && d != c2 ==> d in members
      ensures multiset(AllPoints(members)) == multiset(AllPoints(old(members)))
    {
      var jointPoints := [];
      for k := 0 to |c1.points|
        invariant jointPoints == c1.points[..k]
      {
        jointPoints := jointPoints + [c1.points[k]];
      }
      for k := 0 to |c2.points|
        invariant jointPoints == c1.points + c2.points[..k]
      {
        jointPoints := jointPoints + [c2.points[k]];
      }
      assert c1.points[..|c1.points|] == c1.points && c2.points[..|c2.points|] == c2.points;
      var c3 := new Cluster(jointPoints, c1.pointType);
      ghost var before := members;
      MergeFacts(before, c1, c2, c3);
      var removed1 := Remove(c1);
      var removed2 := Remove(c2);
      var added := Add(c3);
    }

    /** The first pair (in ascending i, then ascending j) of least linkage. */
    method FindClosest(rule: Linkage, sqrt: real -> real) returns (c1: Cluster, c2: Cluster)
      requires |members| >= 2 && AllDefined(rule, members)
      ensures exists i, j :: IsClosest(rule, sqrt, members, i, j) && c1 == members[i] && c2 == members[j]
    {
      var ms := members;
      ghost var t := Linkages(rule, sqrt, ms);
      var space := |ms|;
      var closestDistance := ApplyLinkage(rule, ms[0], ms[1], sqrt);
      LinkagesEntry(rule, sqrt, ms, 0, 1);
      ghost var bi, bj := 0, 1;
      c1, c2 := ms[0], ms[1];
      for i := 0 to space - 1
        invariant Best(t, space, bi, bj, i, i + 1, closestDistance)
        invariant c1 == ms[bi] && c2 == ms[bj]
      {
        for j := i + 1 to space
          invariant Best(t, space, bi, bj, i, j, closestDistance)
          invariant c1 == ms[bi] && c2 == ms[bj]
        {
          var thisDistance := ApplyLinkage(rule, ms[i], ms[j], sqrt);
          LinkagesEntry(rule, sqrt, ms, i, j);
          if thisDistance < closestDistance {
            SearchImprove(t, space, bi, bj, i, j, closestDistance);
            closestDistance := thisDistance;
            c1, c2 := ms[i], ms[j];
            bi, bj := i, j;
          } else {
            SearchKeep(t, space, bi, bj, i, j, closestDistance);
          }
        }
        SearchNextRow(t, space, bi, bj, i, closestDistance);
      }
      SearchDone(t, space, bi, bj, closestDistance);
      assert IsClosest(rule, sqrt, ms, bi, bj);
    }

    /** Merges the closest pair and returns it. */
    method MergeOne(rule: Linkage, sqrt: real -> real) returns (c1: Cluster, c2: Cluster)
      requires Valid() && |members| >= 2 && AllDefined(rule, members)
      modifies this
      ensures Valid()
      ensures exists i, j :: IsClosest(rule, sqrt, old(members), i, j) && c1 == old(members)[i] && c2 == old(members)[j]
      ensures |members| == |old(members)| - 1
      ensures members[..|members| - 1] == RemoveFirst(RemoveFirst(old(members), c1), c2)
      ensures fresh(members[|members| - 1])
      ensures members[|members| - 1].points == c1.points + c2.points
      ensures members[|members| - 1].pointType == c1.pointType
      ensures multiset(AllPoints(members)) == multiset(AllPoints(old(members)))
    {
      c1, c2 := FindClosest(rule, sqrt);
      MergeClusters(c1, c2);
    }
  }
}

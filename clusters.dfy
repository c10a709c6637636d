/** Clusters: a bag of points of one item kind, and the three linkage rules
    that measure the dissimilarity of two clusters over the cross-product of
    their points. */
module Clusters {
  import opened Points
  import Strings

  /** The kind of item a cluster holds; the city application tags every
      cluster `City`. */
  datatype PointType = PlainPoint | City

  /** Every point of `xs` has at most the dimensionality of every point of `ys`,
      so that measuring from a point of `xs` to one of `ys` never runs off the end. */
  predicate DimsFit(xs: seq<Point>, ys: seq<Point>) {
    forall i, j :: 0 <= i < |xs| && 0 <= j < |ys| ==> Dimensionality(xs[i]) <= Dimensionality(ys[j])
  }

  /** Distances from `x` to each point of `ys`, in order. */
  function Row(sqrt: real -> real, x: Point, ys: seq<Point>): (r: seq<real>)
    requires forall j :: 0 <= j < |ys| ==> Dimensionality(x) <= Dimensionality(ys[j])
    ensures |r| == |ys|
    ensures forall j :: 0 <= j < |ys| ==> r[j] == PointDistance(sqrt, x, ys[j])
    decreases |ys|
  {
    if ys == [] then []
    else Row(sqrt, x, ys[..|ys| - 1]) + [PointDistance(sqrt, x, ys[|ys| - 1])]
  }

  /** All cross-pair distances, in the order the linkage loops visit them:
      for each point of `xs`, for each point of `ys`. */
  function Cross(sqrt: real -> real, xs: seq<Point>, ys: seq<Point>): (r: seq<real>)
    requires DimsFit(xs, ys)
    ensures xs != [] && ys != [] ==> r != []
    decreases |xs|
  {
    if xs == [] then []
    else
      PrefixFits(xs, ys, |xs| - 1);
      Cross(sqrt, xs[..|xs| - 1], ys) + Row(sqrt, xs[|xs| - 1], ys)
  }

  /** Running minimum with strict `<` replacement, started at `init`. */
  function MinFrom(init: real, s: seq<real>): real
    decreases |s|
  {
    if s == [] then init
    else
      var m := MinFrom(init, s[..|s| - 1]);
      if s[|s| - 1] < m then s[|s| - 1] else m
  }

  /** Running maximum with strict `>` replacement, started at `init`. */
  function MaxFrom(init: real, s: seq<real>): real
    decreases |s|
  {
    if s == [] then init
    else
      var m := MaxFrom(init, s[..|s| - 1]);
      if s[|s| - 1] > m then s[|s| - 1] else m
  }

  function Sum(s: seq<real>): real
    decreases |s|
  {
    if s == [] then 0.0 else Sum(s[..|s| - 1]) + s[|s| - 1]
  }

  /** Single linkage: the scan starts from the distance of the two first points. */
  function SingleLinkage(sqrt: real -> real, xs: seq<Point>, ys: seq<Point>): real
    requires xs != [] && ys != [] && DimsFit(xs, ys)
  {
    MinFrom(PointDistance(sqrt, xs[0], ys[0]), Cross(sqrt, xs, ys))
  }

  /** Maximum linkage: the scan starts from 0.0. */
  function MaxLinkage(sqrt: real -> real, xs: seq<Point>, ys: seq<Point>): real
    requires DimsFit(xs, ys)
  {
    MaxFrom(0.0, Cross(sqrt, xs, ys))
  }

  /** Average linkage: the sum of all cross-pair distances over their count. */
  function AverageLinkage(sqrt: real -> real, xs: seq<Point>, ys: seq<Point>): real
    requires xs != [] && ys != [] && DimsFit(xs, ys)
  {
    var c := Cross(sqrt, xs, ys);
    Sum(c) / (|c| as real)
  }

  /** The linkage rules a caller may pass to the closest-pair search. */
  datatype Linkage = SingleLink | MaxLink | AverageLink

  /** What each rule needs in order to run without an error: a dimension fit
      for every pair, and for single and average linkage two non-empty
      clusters (single linkage reads the first points, average linkage
      divides by the pair count). */
  predicate Defined(rule: Linkage, xs: seq<Point>, ys: seq<Point>) {
    DimsFit(xs, ys) && (rule != MaxLink ==> xs != [] && ys != [])
  }

  function LinkageDist(rule: Linkage, sqrt: real -> real, xs: seq<Point>, ys: seq<Point>): real
    requires Defined(rule, xs, ys)
  {
    match rule
    case SingleLink => SingleLinkage(sqrt, xs, ys)
    case MaxLink => MaxLinkage(sqrt, xs, ys)
    case AverageLink => AverageLinkage(sqrt, xs, ys)
  }

  /** A cluster: its points never change after construction; two clusters are
      the same cluster only if they are the same object. */
  class Cluster {
    const points: seq<Point>
    const pointType: PointType

    constructor (points: seq<Point>, pointType: PointType)
      ensures this.points == points && this.pointType == pointType
    {
      this.points := points;
      this.pointType := pointType;
    }

    method SingleLinkageDist(other: Cluster, sqrt: real -> real) returns (shortest: real)
      requires points != [] && other.points != [] && DimsFit(points, other.points)
      ensures shortest == SingleLinkage(sqrt, points, other.points)
    {
      var xs, ys := points, other.points;
      var first := Distance(xs[0], ys[0], sqrt);
      shortest := first;
      for i := 0 to |xs|
        invariant shortest == MinFrom(first, Scanned(sqrt, xs, ys, i, 0))
      {
        for j := 0 to |ys|
          invariant shortest == MinFrom(first, Scanned(sqrt, xs, ys, i, j))
        {
          var thisDistance := Distance(xs[i], ys[j], sqrt);
          ScanStep(sqrt, xs, ys, i, j);
          FoldsStep(first, Scanned(sqrt, xs, ys, i, j), thisDistance);
          if thisDistance < shortest {
            shortest := thisDistance;
          }
        }
        ScanNextRow(sqrt, xs, ys, i);
      }
      ScanAll(sqrt, xs, ys);
    }

    method MaxLinkageDist(other: Cluster, sqrt: real -> real) returns (farthest: real)
      requires DimsFit(points, other.points)
      ensures farthest == MaxLinkage(sqrt, points, other.points)
    {
      var xs, ys := points, other.points;
      farthest := 0.0;
      for i := 0 to |xs|
        invariant farthest == MaxFrom(0.0, Scanned(sqrt, xs, ys, i, 0))
      {
        for j := 0 to |ys|
          invariant farthest == MaxFrom(0.0, Scanned(sqrt, xs, ys, i, j))
        {
          var thisDistance := Distance(xs[i], ys[j], sqrt);
          ScanStep(sqrt, xs, ys, i, j);
          FoldsStep(0.0, Scanned(sqrt, xs, ys, i, j), thisDistance);
          if thisDistance > farthest {
            farthest := thisDistance;
          }
        }
        ScanNextRow(sqrt, xs, ys, i);
      }
      ScanAll(sqrt, xs, ys);
    }

    method AverageLinkageDist(other: Cluster, sqrt: real -> real) returns (average: real)
      requires points != [] && other.points != [] && DimsFit(points, other.points)
      ensures average == AverageLinkage(sqrt, points, other.points)
    {
      var xs, ys := points, other.points;
      var sum, count := 0.0, 0;
      for i := 0 to |xs|
        invariant sum == Sum(Scanned(sqrt, xs, ys, i, 0))
        invariant count == |Scanned(sqrt, xs, ys, i, 0)|
      {
        for j := 0 to |ys|
          invariant sum == Sum(Scanned(sqrt, xs, ys, i, j))
          invariant count == |Scanned(sqrt, xs, ys, i, j)|
        {
          var thisDistance := Distance(xs[i], ys[j], sqrt);
          ScanStep(sqrt, xs, ys, i, j);
          FoldsStep(0.0, Scanned(sqrt, xs, ys, i, j), thisDistance);
          sum := sum + thisDistance;
          count := count + 1;
        }
        ScanNextRow(sqrt, xs, ys, i);
      }
      ScanAll(sqrt, xs, ys);
      average := sum / (count as real);
    }

    /** Whether some point of the cluster carries the name `name`. */
    method IsIn(name: string) returns (found: bool)
      ensures found <==> exists k :: 0 <= k < |points| && points[k].name == name
    {
      for k := 0 to |points|
        invariant forall l :: 0 <= l < k ==> points[l].name != name
      {
        if points[k].name == name {
          return true;
        }
      }
      return false;
    }

    /** The names of the cluster's points, sorted. */
    method GetNames() returns (sorted: seq<string>)
      ensures Strings.Sorted(sorted)
      ensures multiset(sorted) == multiset(Names(points))
    {
      var names := [];
      for k := 0 to |points|
        invariant names == Names(points[..k])
      {
        assert points[..k + 1] == points[..k] + [points[k]];
        names := names + [points[k].name];
      }
      assert points[..|points|] == points;
      sorted := Strings.Sort(names);
      Strings.SortCorrect(names);
    }
  }

  /** The names of `ps`, in order. */
  function Names(ps: seq<Point>): (r: seq<string>)
    ensures |r| == |ps|
    ensures forall k :: 0 <= k < |ps| ==> r[k] == ps[k].name
    decreases |ps|
  {
    if ps == [] then [] else Names(ps[..|ps| - 1]) + [ps[|ps| - 1].name]
  }

  /** Computes the linkage `rule` between `a` and `b` by running its scan. */
  method ApplyLinkage(rule: Linkage, a: Cluster, b: Cluster, sqrt: real -> real) returns (d: real)
    requires Defined(rule, a.points, b.points)
    ensures d == LinkageDist(rule, sqrt, a.points, b.points)
  {
    match rule
    case SingleLink => d := a.SingleLinkageDist(b, sqrt);
    case MaxLink => d := a.MaxLinkageDist(b, sqrt);
    case AverageLink => d := a.AverageLinkageDist(b, sqrt);
  }

  // ---------------------------------------------------------------------
  // Steps the scans take

  /** The pairs a scan over `xs` × `ys` has visited once it stands at row
      `i`, column `j` (for `i == |xs|`, every pair). */
  ghost function Scanned(sqrt: real -> real, xs: seq<Point>, ys: seq<Point>, i: nat, j: nat): seq<real>
    requires i <= |xs| && j <= |ys| && DimsFit(xs, ys)
    requires i == |xs| ==> j == 0
  {
    PrefixFits(xs, ys, i);
    if i == |xs| then Cross(sqrt, xs, ys)
    else Cross(sqrt, xs[..i], ys) + Row(sqrt, xs[i], ys[..j])
  }

  lemma PrefixFits(xs: seq<Point>, ys: seq<Point>, i: nat)
    requires i <= |xs| && DimsFit(xs, ys)
    ensures DimsFit(xs[..i], ys)
  {
    forall a, b | 0 <= a < i && 0 <= b < |ys|
      ensures Dimensionality(xs[..i][a]) <= Dimensionality(ys[b])
    {
      assert xs[..i][a] == xs[a];
    }
  }

  lemma ScanStep(sqrt: real -> real, xs: seq<Point>, ys: seq<Point>, i: nat, j: nat)
    requires i < |xs| && j < |ys| && DimsFit(xs, ys)
    ensures Scanned(sqrt, xs, ys, i, j + 1) == Scanned(sqrt, xs, ys, i, j) + [PointDistance(sqrt, xs[i], ys[j])]
  {
    PrefixFits(xs, ys, i);
    assert ys[..j + 1][..j] == ys[..j];
  }

  lemma ScanNextRow(sqrt: real -> real, xs: seq<Point>, ys: seq<Point>, i: nat)
    requires i < |xs| && DimsFit(xs, ys)
    ensures Scanned(sqrt, xs, ys, i, |ys|) == Scanned(sqrt, xs, ys, i + 1, 0)
  {
    PrefixFits(xs, ys, i);
    PrefixFits(xs, ys, i + 1);
    var p := xs[..i + 1];
    assert p[..|p| - 1] == xs[..i];
    assert p[|p| - 1] == xs[i];
    assert ys[..|ys|] == ys;
    if i + 1 == |xs| {
      assert p == xs;
    } else {
      assert ys[..0] == [];
    }
  }

  lemma ScanAll(sqrt: real -> real, xs: seq<Point>, ys: seq<Point>)
    requires DimsFit(xs, ys)
    ensures Scanned(sqrt, xs, ys, |xs|, 0) == Cross(sqrt, xs, ys)
  {
  }

  lemma FoldsStep(init: real, s: seq<real>, v: real)
    ensures MinFrom(init, s + [v]) == if v < MinFrom(init, s) then v else MinFrom(init, s)
    ensures MaxFrom(init, s + [v]) == if v > MaxFrom(init, s) then v else MaxFrom(init, s)
    ensures Sum(s + [v]) == Sum(s) + v
  {
    assert (s + [v])[..|s|] == s;
  }
}

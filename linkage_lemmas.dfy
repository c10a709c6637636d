/** What the three linkage rules compute: single linkage is the least
    cross-pair distance, maximum linkage the greatest, average linkage their
    mean, which lies between the two; and each is symmetric in its clusters. */
module LinkageLemmas {
  import opened Points
  import opened Clusters

  // ---------------------------------------------------------------------
  // The folds

  lemma {:induction false} MinFromBounds(init: real, s: seq<real>)
    ensures MinFrom(init, s) <= init
    ensures forall k :: 0 <= k < |s| ==> MinFrom(init, s) <= s[k]
    ensures MinFrom(init, s) == init || MinFrom(init, s) in s
    decreases |s|
  {
    if s != [] {
      var p := s[..|s| - 1];
      MinFromBounds(init, p);
      assert forall k :: 0 <= k < |p| ==> p[k] == s[k];
      assert s == p + [s[|s| - 1]];
    }
  }

  lemma {:induction false} MaxFromBounds(init: real, s: seq<real>)
    ensures init <= MaxFrom(init, s)
    ensures forall k :: 0 <= k < |s| ==> s[k] <= MaxFrom(init, s)
    ensures MaxFrom(init, s) == init || MaxFrom(init, s) in s
    decreases |s|
  {
    if s != [] {
      var p := s[..|s| - 1];
      MaxFromBounds(init, p);
      assert forall k :: 0 <= k < |p| ==> p[k] == s[k];
      assert s == p + [s[|s| - 1]];
    }
  }

  lemma {:induction false} SumBounds(s: seq<real>, lo: real, hi: real)
    requires forall k :: 0 <= k < |s| ==> lo <= s[k] <= hi
    ensures (|s| as real) * lo <= Sum(s) <= (|s| as real) * hi
    decreases |s|
  {
    if s != [] {
      var p := s[..|s| - 1];
      var n := |p| as real;
      assert forall k :: 0 <= k < |p| ==> p[k] == s[k];
      SumBounds(p, lo, hi);
      calc {
        (|s| as real) * lo;
      ==
        n * lo + lo;
      <=
        Sum(p) + s[|s| - 1];
      }
      calc {
        Sum(p) + s[|s| - 1];
      <=
        n * hi + hi;
      ==
        (|s| as real) * hi;
      }
    }
  }

  lemma {:induction false} SumAppend(a: seq<real>, b: seq<real>)
    ensures Sum(a + b) == Sum(a) + Sum(b)
    decreases |b|
  {
    if b == [] {
      assert a + b == a;
    } else {
      var q := b[..|b| - 1];
      SumAppend(a, q);
      assert (a + b)[..|a + b| - 1] == a + q;
    }
  }

  // ---------------------------------------------------------------------
  // The cross-product

  lemma {:induction false} CrossLength(sqrt: real -> real, xs: seq<Point>, ys: seq<Point>)
    requires DimsFit(xs, ys)
    ensures |Cross(sqrt, xs, ys)| == |xs| * |ys|
    decreases |xs|
  {
    if xs != [] {
      var p := xs[..|xs| - 1];
      PrefixFits(xs, ys, |xs| - 1);
      CrossLength(sqrt, p, ys);
      calc {
        |Cross(sqrt, xs, ys)|;
      ==
        |p| * |ys| + |ys|;
      ==
        (|p| + 1) * |ys|;
      }
    }
  }

  /** Every cross-pair distance occurs in the cross-product. */
  lemma {:induction false} CrossContains(sqrt: real -> real, xs: seq<Point>, ys: seq<Point>, i: nat, j: nat)
    requires DimsFit(xs, ys) && i < |xs| && j < |ys|
    ensures PointDistance(sqrt, xs[i], ys[j]) in Cross(sqrt, xs, ys)
    decreases |xs|
  {
    var p := xs[..|xs| - 1];
    PrefixFits(xs, ys, |xs| - 1);
    var row := Row(sqrt, xs[|xs| - 1], ys);
    assert Cross(sqrt, xs, ys) == Cross(sqrt, p, ys) + row;
    if i == |xs| - 1 {
      assert row[j] == PointDistance(sqrt, xs[i], ys[j]);
    } else {
      assert p[i] == xs[i];
      CrossContains(sqrt, p, ys, i, j);
    }
  }

  /** Every entry of the cross-product is the distance of some cross pair. */
  lemma {:induction false} CrossMembers(sqrt: real -> real, xs: seq<Point>, ys: seq<Point>, v: real)
    requires DimsFit(xs, ys) && v in Cross(sqrt, xs, ys)
    ensures exists i, j :: 0 <= i < |xs| && 0 <= j < |ys| && v == PointDistance(sqrt, xs[i], ys[j])
    decreases |xs|
  {
    var p := xs[..|xs| - 1];
    PrefixFits(xs, ys, |xs| - 1);
    var row := Row(sqrt, xs[|xs| - 1], ys);
    assert Cross(sqrt, xs, ys) == Cross(sqrt, p, ys) + row;
    if v in row {
      var j :| 0 <= j < |ys| && row[j] == v;
      assert v == PointDistance(sqrt, xs[|xs| - 1], ys[j]);
    } else {
      CrossMembers(sqrt, p, ys, v);
      var i, j :| 0 <= i < |p| && 0 <= j < |ys| && v == PointDistance(sqrt, p[i], ys[j]);
      assert p[i] == xs[i];
    }
  }

  // ---------------------------------------------------------------------
  // Single, maximum and average linkage

  /** Single linkage is at most every cross-pair distance and equals one of them. */
  lemma SingleLinkageIsMinimum(sqrt: real -> real, xs: seq<Point>, ys: seq<Point>)
    requires xs != [] && ys != [] && DimsFit(xs, ys)
    ensures forall i, j :: 0 <= i < |xs| && 0 <= j < |ys| ==>
      SingleLinkage(sqrt, xs, ys) <= PointDistance(sqrt, xs[i], ys[j])
    ensures exists i, j :: (0 <= i < |xs| && 0 <= j < |ys| &&
                            SingleLinkage(sqrt, xs, ys) == PointDistance(sqrt, xs[i], ys[j]))
  {
    var c := Cross(sqrt, xs, ys);
    var m := SingleLinkage(sqrt, xs, ys);
    MinFromBounds(PointDistance(sqrt, xs[0], ys[0]), c);
    forall i, j | 0 <= i < |xs| && 0 <= j < |ys|
      ensures m <= PointDistance(sqrt, xs[i], ys[j])
    {
      CrossContains(sqrt, xs, ys, i, j);
    }
    if m != PointDistance(sqrt, xs[0], ys[0]) {
      CrossMembers(sqrt, xs, ys, m);
    }
  }

  /** Maximum linkage is at least every cross-pair distance, and at least 0. */
  lemma MaxLinkageIsMaximum(sqrt: real -> real, xs: seq<Point>, ys: seq<Point>)
    requires DimsFit(xs, ys)
    ensures forall i, j :: 0 <= i < |xs| && 0 <= j < |ys| ==>
      PointDistance(sqrt, xs[i], ys[j]) <= MaxLinkage(sqrt, xs, ys)
    ensures 0.0 <= MaxLinkage(sqrt, xs, ys)
  {
    MaxFromBounds(0.0, Cross(sqrt, xs, ys));
    forall i, j | 0 <= i < |xs| && 0 <= j < |ys|
      ensures PointDistance(sqrt, xs[i], ys[j]) <= MaxLinkage(sqrt, xs, ys)
    {
      CrossContains(sqrt, xs, ys, i, j);
    }
  }

  /** Because distances are never negative, the 0.0 start does not show
      through: maximum linkage of non-empty clusters is one of the distances. */
  lemma MaxLinkageAttained(sqrt: real -> real, xs: seq<Point>, ys: seq<Point>)
    requires IsSquareRoot(sqrt)
    requires xs != [] && ys != [] && DimsFit(xs, ys)
    ensures exists i, j :: (0 <= i < |xs| && 0 <= j < |ys| &&
                            MaxLinkage(sqrt, xs, ys) == PointDistance(sqrt, xs[i], ys[j]))
  {
    var m := MaxLinkage(sqrt, xs, ys);
    MaxLinkageIsMaximum(sqrt, xs, ys);
    if m == 0.0 {
      DistanceNonNegative(sqrt, xs[0], ys[0]);
      assert m == PointDistance(sqrt, xs[0], ys[0]);
    } else {
      MaxFromBounds(0.0, Cross(sqrt, xs, ys));
      CrossMembers(sqrt, xs, ys, m);
    }
  }

  /** Average linkage divides the sum of all |xs|·|ys| cross-pair distances by |xs|·|ys|. */
  lemma AverageLinkageIsMean(sqrt: real -> real, xs: seq<Point>, ys: seq<Point>)
    requires xs != [] && ys != [] && DimsFit(xs, ys)
    ensures AverageLinkage(sqrt, xs, ys) == Sum(Cross(sqrt, xs, ys)) / ((|xs| * |ys|) as real)
  {
    CrossLength(sqrt, xs, ys);
  }

  /** single <= average <= max. */
  lemma AverageLinkageBetween(sqrt: real -> real, xs: seq<Point>, ys: seq<Point>)
    requires xs != [] && ys != [] && DimsFit(xs, ys)
    ensures SingleLinkage(sqrt, xs, ys) <= AverageLinkage(sqrt, xs, ys) <= MaxLinkage(sqrt, xs, ys)
  {
    var c := Cross(sqrt, xs, ys);
    var lo, hi := SingleLinkage(sqrt, xs, ys), MaxLinkage(sqrt, xs, ys);
    MinFromBounds(PointDistance(sqrt, xs[0], ys[0]), c);
    MaxFromBounds(0.0, c);
    SumBounds(c, lo, hi);
    var n := |c| as real;
    assert n > 0.0;
    DivideBounds(Sum(c), n, lo, hi);
  }

  lemma DivideBounds(s: real, n: real, lo: real, hi: real)
    requires n > 0.0 && n * lo <= s <= n * hi
    ensures lo <= s / n <= hi
  {
    calc {
      lo;
    ==
      (n * lo) / n;
    <=
      s / n;
    }
    calc {
      s / n;
    <=
      (n * hi) / n;
    ==
      hi;
    }
  }

  // ---------------------------------------------------------------------
  // Symmetry: linkage(a, b) == linkage(b, a) for points of one dimensionality

  /** A value in the cross-product one way round is in it the other way round. */
  lemma CrossTransposed(sqrt: real -> real, xs: seq<Point>, ys: seq<Point>, v: real)
    requires DimsFit(xs, ys) && DimsFit(ys, xs)
    requires v in Cross(sqrt, xs, ys)
    ensures v in Cross(sqrt, ys, xs)
  {
    CrossMembers(sqrt, xs, ys, v);
    var i, j :| 0 <= i < |xs| && 0 <= j < |ys| && v == PointDistance(sqrt, xs[i], ys[j]);
    DistanceSymmetric(sqrt, xs[i], ys[j]);
    CrossContains(sqrt, ys, xs, j, i);
  }

  lemma SingleLinkageSymmetric(sqrt: real -> real, xs: seq<Point>, ys: seq<Point>)
    requires xs != [] && ys != [] && DimsFit(xs, ys) && DimsFit(ys, xs)
    ensures SingleLinkage(sqrt, xs, ys) == SingleLinkage(sqrt, ys, xs)
  {
    var c, d := Cross(sqrt, xs, ys), Cross(sqrt, ys, xs);
    var a, b := SingleLinkage(sqrt, xs, ys), SingleLinkage(sqrt, ys, xs);
    MinFromBounds(PointDistance(sqrt, xs[0], ys[0]), c);
    MinFromBounds(PointDistance(sqrt, ys[0], xs[0]), d);
    CrossContains(sqrt, xs, ys, 0, 0);
    CrossContains(sqrt, ys, xs, 0, 0);
    assert a in c && b in d;
    CrossTransposed(sqrt, xs, ys, a);
    CrossTransposed(sqrt, ys, xs, b);
    MinFromBelow(PointDistance(sqrt, xs[0], ys[0]), c, b);
    MinFromBelow(PointDistance(sqrt, ys[0], xs[0]), d, a);
  }

  lemma MinFromBelow(init: real, s: seq<real>, v: real)
    requires v in s
    ensures MinFrom(init, s) <= v
  {
    MinFromBounds(init, s);
  }

  lemma MaxLinkageSymmetric(sqrt: real -> real, xs: seq<Point>, ys: seq<Point>)
    requires DimsFit(xs, ys) && DimsFit(ys, xs)
    ensures MaxLinkage(sqrt, xs, ys) == MaxLinkage(sqrt, ys, xs)
  {
    var a, b := MaxLinkage(sqrt, xs, ys), MaxLinkage(sqrt, ys, xs);
    MaxFromBounds(0.0, Cross(sqrt, xs, ys));
    MaxFromBounds(0.0, Cross(sqrt, ys, xs));
    if a != 0.0 {
      CrossTransposed(sqrt, xs, ys, a);
    }
    if b != 0.0 {
      CrossTransposed(sqrt, ys, xs, b);
    }
  }

  /** Adding a column to the cross-product adds that column's distances to its sum. */
  lemma {:induction false} SumCrossColumn(sqrt: real -> real, ys: seq<Point>, xs: seq<Point>, x: Point)
    requires DimsFit(ys, xs + [x]) && DimsFit(xs + [x], ys)
    ensures DimsFit(ys, xs) && DimsFit([x], ys)
    ensures Sum(Cross(sqrt, ys, xs + [x])) == Sum(Cross(sqrt, ys, xs)) + Sum(Row(sqrt, x, ys))
    decreases |ys|
  {
    assert DimsFit(ys, xs) by {
      forall a, b | 0 <= a < |ys| && 0 <= b < |xs|
        ensures Dimensionality(ys[a]) <= Dimensionality(xs[b])
      {
        assert (xs + [x])[b] == xs[b];
      }
    }
    assert DimsFit([x], ys) by {
      forall a, b | 0 <= a < 1 && 0 <= b < |ys|
        ensures Dimensionality([x][a]) <= Dimensionality(ys[b])
      {
        assert (xs + [x])[|xs|] == x;
      }
    }
    if ys != [] {
      var q := ys[..|ys| - 1];
      var y := ys[|ys| - 1];
      var xs' := xs + [x];
      assert DimsFit(q, xs') && DimsFit(xs', q) by {
        PrefixFits(ys, xs', |q|);
        forall a, b | 0 <= a < |xs'| && 0 <= b < |q|
          ensures Dimensionality(xs'[a]) <= Dimensionality(q[b])
        {
          assert q[b] == ys[b];
        }
      }
      SumCrossColumn(sqrt, q, xs, x);
      PrefixFits(ys, xs, |q|);
      assert Dimensionality(x) == Dimensionality(y) by {
        assert xs'[|xs|] == x;
      }
      DistanceSymmetric(sqrt, x, y);
      assert xs'[..|xs|] == xs;
      assert Row(sqrt, y, xs') == Row(sqrt, y, xs) + [PointDistance(sqrt, y, x)];
      SumAppend(Cross(sqrt, q, xs'), Row(sqrt, y, xs'));
      SumAppend(Cross(sqrt, q, xs), Row(sqrt, y, xs));
      SumAppend(Row(sqrt, y, xs), [PointDistance(sqrt, y, x)]);
      SumAppend(Row(sqrt, x, q), [PointDistance(sqrt, x, y)]);
    }
  }

  lemma {:induction false} CrossNoColumns(sqrt: real -> real, ys: seq<Point>)
    ensures DimsFit(ys, []) && Cross(sqrt, ys, []) == []
    decreases |ys|
  {
    if ys != [] {
      CrossNoColumns(sqrt, ys[..|ys| - 1]);
    }
  }

  lemma {:induction false} SumCrossTransposed(sqrt: real -> real, xs: seq<Point>, ys: seq<Point>)
    requires DimsFit(xs, ys) && DimsFit(ys, xs)
    ensures Sum(Cross(sqrt, xs, ys)) == Sum(Cross(sqrt, ys, xs))
    decreases |xs|
  {
    if xs == [] {
      CrossNoColumns(sqrt, ys);
    } else {
      var p := xs[..|xs| - 1];
      var x := xs[|xs| - 1];
      assert xs == p + [x];
      SumCrossColumn(sqrt, ys, p, x);
      PrefixFits(xs, ys, |p|);
      SumCrossTransposed(sqrt, p, ys);
      SumAppend(Cross(sqrt, p, ys), Row(sqrt, x, ys));
      calc {
        Sum(Cross(sqrt, xs, ys));
      ==
        Sum(Cross(sqrt, p, ys) + Row(sqrt, x, ys));
      ==
        Sum(Cross(sqrt, p, ys)) + Sum(Row(sqrt, x, ys));
      ==
        Sum(Cross(sqrt, ys, p)) + Sum(Row(sqrt, x, ys));
      ==
        Sum(Cross(sqrt, ys, p + [x]));
      ==
        Sum(Cross(sqrt, ys, xs));
      }
    }
  }

  lemma AverageLinkageSymmetric(sqrt: real -> real, xs: seq<Point>, ys: seq<Point>)
    requires xs != [] && ys != [] && DimsFit(xs, ys) && DimsFit(ys, xs)
    ensures AverageLinkage(sqrt, xs, ys) == AverageLinkage(sqrt, ys, xs)
  {
    SumCrossTransposed(sqrt, xs, ys);
    CrossLength(sqrt, xs, ys);
    CrossLength(sqrt, ys, xs);
    assert |xs| * |ys| == |ys| * |xs|;
  }

  /** Every linkage rule is symmetric for points of one dimensionality. */
  lemma LinkageSymmetric(rule: Linkage, sqrt: real -> real, xs: seq<Point>, ys: seq<Point>)
    requires Defined(rule, xs, ys) && Defined(rule, ys, xs)
    ensures LinkageDist(rule, sqrt, xs, ys) == LinkageDist(rule, sqrt, ys, xs)
  {
    match rule
    case SingleLink => SingleLinkageSymmetric(sqrt, xs, ys);
    case MaxLink => MaxLinkageSymmetric(sqrt, xs, ys);
    case AverageLink => AverageLinkageSymmetric(sqrt, xs, ys);
  }
}

/** Agglomerative hierarchical clustering: start with one cluster per point and
    merge the closest pair until at most the requested number of clusters is
    left, recording every merged pair. */
module Driver {
  import opened Points
  import opened Clusters
  import opened ClusterSets

  /** Every point has `d` features. */
  predicate AllOfDimension(ps: seq<Point>, d: nat) {
    forall p :: p in ps ==> Dimensionality(p) == d
  }

  /** Every cluster is non-empty and holds points of `d` features only. */
  predicate Shaped(ms: seq<Cluster>, d: nat) {
    forall c :: c in ms ==> c.points != [] && AllOfDimension(c.points, d)
  }

  /** Clusters of one shape can be compared under every rule. */
  lemma ShapedDefined(rule: Linkage, ms: seq<Cluster>, d: nat)
    requires Shaped(ms, d)
    ensures AllDefined(rule, ms)
  {
    forall i, j | 0 <= i < j < |ms|
      ensures Defined(rule, ms[i].points, ms[j].points)
    {
      var xs, ys := ms[i].points, ms[j].points;
      assert ms[i] in ms && ms[j] in ms;
      forall a, b | 0 <= a < |xs| && 0 <= b < |ys|
        ensures Dimensionality(xs[a]) <= Dimensionality(ys[b])
      {
        assert xs[a] in xs && ys[b] in ys;
      }
    }
  }

  lemma {:induction false} RemoveFirstSubset(s: seq<Cluster>, x: Cluster)
    ensures forall y :: y in RemoveFirst(s, x) ==> y in s
    decreases |s|
  {
    if s != [] && s[0] != x {
      RemoveFirstSubset(s[1..], x);
    }
  }

  /** Merging two clusters of one shape keeps every cluster of that shape. */
  lemma ShapedAfterMerge(before: seq<Cluster>, after: seq<Cluster>, c1: Cluster, c2: Cluster, d: nat)
    requires Shaped(before, d) && c1 in before && c2 in before
    requires |after| > 0
    requires after[..|after| - 1] == RemoveFirst(RemoveFirst(before, c1), c2)
    requires after[|after| - 1].points == c1.points + c2.points
    ensures Shaped(after, d)
  {
    var rest := after[..|after| - 1];
    RemoveFirstSubset(before, c1);
    RemoveFirstSubset(RemoveFirst(before, c1), c2);
    assert after == rest + [after[|after| - 1]];
  }

  /** `after` is `before` with `c1` and `c2` replaced by one cluster of their
      joint points at the end. */
  ghost predicate MergedInto(before: seq<Cluster>, after: seq<Cluster>, c1: Cluster, c2: Cluster) {
    && |after| > 0
    && after[..|after| - 1] == RemoveFirst(RemoveFirst(before, c1), c2)
    && after[|after| - 1].points == c1.points + c2.points
  }

  /** One step of the clustering loop: `c1` and `c2` are the closest pair of
      `before` under `rule`, and `after` is `before` with them merged. */
  ghost predicate MergeStep(rule: Linkage, sqrt: real -> real, before: seq<Cluster>, after: seq<Cluster>, c1: Cluster, c2: Cluster) {
    && AllDefined(rule, before)
    && (exists i, j :: IsClosest(rule, sqrt, before, i, j) && c1 == before[i] && c2 == before[j])
    && MergedInto(before, after, c1, c2)
  }

  /** `states[k]` is the member list before the k-th merge and `states[k + 1]`
      the one after it; the k-th history entry is the pair merged in between. */
  ghost predicate Trace(rule: Linkage, sqrt: real -> real, states: seq<seq<Cluster>>, history: seq<(Cluster, Cluster)>) {
    && |states| == |history| + 1
    && forall k :: 0 <= k < |history| ==>
         MergeStep(rule, sqrt, states[k], states[k + 1], history[k].0, history[k].1)
  }

  /** One more merge extends the trace by one step. */
  lemma TraceExtend(rule: Linkage, sqrt: real -> real, states: seq<seq<Cluster>>, history: seq<(Cluster, Cluster)>,
                    after: seq<Cluster>, c1: Cluster, c2: Cluster)
    requires Trace(rule, sqrt, states, history)
    requires MergeStep(rule, sqrt, states[|states| - 1], after, c1, c2)
    ensures Trace(rule, sqrt, states + [after], history + [(c1, c2)])
  {
    var states', history' := states + [after], history + [(c1, c2)];
    forall k | 0 <= k < |history'|
      ensures MergeStep(rule, sqrt, states'[k], states'[k + 1], history'[k].0, history'[k].1)
    {
      assert states'[k] == states[k];
      if k < |history| {
        assert states'[k + 1] == states[k + 1] && history'[k] == history[k];
      }
    }
  }

  /** What one round of the loop keeps: the shape of the clusters and the trace
      of merges. */
  lemma MergeRound(rule: Linkage, sqrt: real -> real, states: seq<seq<Cluster>>, history: seq<(Cluster, Cluster)>,
                   before: seq<Cluster>, after: seq<Cluster>, c1: Cluster, c2: Cluster, d: nat)
    requires Trace(rule, sqrt, states, history) && states[|states| - 1] == before
    requires Shaped(before, d) && AllDefined(rule, before)
    requires exists i, j :: IsClosest(rule, sqrt, before, i, j) && c1 == before[i] && c2 == before[j]
    requires MergedInto(before, after, c1, c2)
    ensures Shaped(after, d)
    ensures Trace(rule, sqrt, states + [after], history + [(c1, c2)])
  {
    var i, j :| IsClosest(rule, sqrt, before, i, j) && c1 == before[i] && c2 == before[j];
    ShapedAfterMerge(before, after, c1, c2, d);
    TraceExtend(rule, sqrt, states, history, after, c1, c2);
  }

  /** `ms` holds one singleton cluster per point, in the order of `ps`. */
  ghost predicate Seeded(ms: seq<Cluster>, ps: seq<Point>) {
    |ms| == |ps| && forall a :: 0 <= a < |ms| ==> ms[a].points == [ps[a]]
  }

  lemma SeededStep(ms: seq<Cluster>, ps: seq<Point>, c: Cluster, p: Point)
    requires Seeded(ms, ps) && c.points == [p]
    ensures Seeded(ms + [c], ps + [p])
  {
  }

  /** Singleton clusters of points of one dimensionality have that shape, and
      together they hold exactly the points, in order. */
  lemma {:induction false} SeededFacts(ms: seq<Cluster>, ps: seq<Point>, d: nat)
    requires Seeded(ms, ps) && AllOfDimension(ps, d)
    ensures Shaped(ms, d) && AllPoints(ms) == ps
    decreases |ms|
  {
    if ms != [] {
      assert ps[0] in ps;
      assert Seeded(ms[1..], ps[1..]) by {
        forall a | 0 <= a < |ms[1..]| ensures ms[1..][a].points == [ps[1..][a]] {
          assert ms[1..][a] == ms[a + 1];
        }
      }
      assert AllOfDimension(ps[1..], d) by {
        forall p | p in ps[1..] ensures Dimensionality(p) == d {
          assert p in ps;
        }
      }
      SeededFacts(ms[1..], ps[1..], d);
      assert ps == [ps[0]] + ps[1..];
      forall c | c in ms ensures c.points != [] && AllOfDimension(c.points, d) {
        if c != ms[0] {
          var a :| 0 <= a < |ms| && ms[a] == c;
          assert c in ms[1..] by { assert ms[1..][a - 1] == c; }
        }
      }
    }
  }

  /** Clusters `points` into `numClusters` groups under `rule`: one singleton
      cluster per point, then one merge of the closest pair at a time while
      more than `numClusters` clusters remain. The ghost `states` records the
      member list before and after every merge. */
  method HCluster(points: seq<Point>, rule: Linkage, numClusters: int, sqrt: real -> real)
      returns (cs: ClusterSet, history: seq<(Cluster, Cluster)>, ghost states: seq<seq<Cluster>>)
    requires exists d :: AllOfDimension(points, d)
    requires numClusters >= 1 || |points| <= numClusters
    ensures fresh(cs) && cs.Valid()
    ensures |cs.members| == if |points| <= numClusters then |points| else numClusters
    ensures |history| == |points| - |cs.members|
    ensures multiset(AllPoints(cs.members)) == multiset(points)
    ensures Trace(rule, sqrt, states, history)
    ensures Seeded(states[0], points)
    ensures states[|states| - 1] == cs.members
  {
    ghost var d :| AllOfDimension(points, d);
    cs := new ClusterSet();
    for k := 0 to |points|
      invariant cs.Valid()
      invariant Seeded(cs.members, points[..k])
    {
      var c := new Cluster([points[k]], City);
      ghost var before := cs.members;
      var added := cs.Add(c);
      assert added == Done;
      SeededStep(before, points[..k], c, points[k]);
      assert points[..k + 1] == points[..k] + [points[k]];
    }
    assert points[..|points|] == points;
    SeededFacts(cs.members, points, d);
    history := [];
    states := [cs.members];
    while cs.NumClusters() > numClusters
      invariant cs.Valid()
      invariant Shaped(cs.members, d)
      invariant multiset(AllPoints(cs.members)) == multiset(points)
      invariant numClusters <= |cs.members| <= |points| || |cs.members| == |points|
      invariant |history| == |points| - |cs.members|
      invariant Trace(rule, sqrt, states, history)
      invariant Seeded(states[0], points)
      invariant states[|states| - 1] == cs.members
      decreases |cs.members|
    {
      ShapedDefined(rule, cs.members, d);
      ghost var before := cs.members;
      var merged1, merged2 := cs.MergeOne(rule, sqrt);
      MergeRound(rule, sqrt, states, history, before, cs.members, merged1, merged2, d);
      history := history + [(merged1, merged2)];
      states := states + [cs.members];
    }
  }
}

# city-clusters in Dafny

This project models the core of `clusterCities.py`, an agglomerative hierarchical
clustering of cities by their feature vectors:

- a **Point** is a named vector of features, and its `distance` is the Euclidean metric;
- a **Cluster** holds a list of points and a point type, and measures its distance
  to another cluster by single linkage (closest pair of points), maximum linkage
  (farthest pair) or average linkage (mean over all pairs);
- a **ClusterSet** is a list of clusters without duplicates, compared by identity.
  It adds and removes clusters, raising `ValueError` on a duplicate add or a
  missing remove. It finds the closest pair under a linkage rule, and it merges
  two clusters into a new one appended at the end;
- **hCluster** starts with one singleton cluster per point and merges the closest
  pair until no more than the requested number of clusters remain.

Files:

- `points.dfy`: module `Points`. `Distance` is the accumulating loop of `distance`,
  specified by the recursive sum `SquaredPrefix`. The square root is a parameter
  `sqrt`, and lemmas that need its meaning assume `IsSquareRoot(sqrt)`.
- `strings.dfy`: module `Strings`, the code-point order on names and an insertion
  sort standing for Python's `sorted`.
- `clusters.dfy`: module `Clusters`, the class `Cluster` (its fields never change
  after construction, so they are `const`). Its three linkage methods keep the
  nested loops of the source and are specified by folds over the row-major list
  of pairwise distances `Cross`: `MinFrom`, `MaxFrom` and `Sum` replace the
  running value exactly where the loops do (strict `<` and `>`). The linkage
  passed to `findClosest`/`hCluster` as a function value becomes the enumeration
  `Linkage`, which `ApplyLinkage` dispatches.
- `linkage_lemmas.dfy`: module `LinkageLemmas`, the properties of the three
  linkages.
- `cluster_set.dfy`: module `ClusterSets`, the class `ClusterSet` with a mutable
  `members` list. Python's `list.remove` is the function `RemoveFirst`, and
  `findClosest`'s answer is characterised by `IsClosest`: the first pair of
  least value above the diagonal (`FirstMin`) of the table of pairwise
  linkages (`Linkages`).
- `driver.dfy`: module `Driver`, `HCluster`.

`numClusters` is `ClusterSet.NumClusters`, `getClusters` is `ClusterSet.GetClusters`
and `dimensionality` is `Points.Dimensionality`.

Where the code and its documentation differ, the model follows the code.
`distance` iterates over the coordinates of `self` only, so it needs `other` to
have at least as many features, not exactly as many; `Distance` requires just
that. Symmetry and the zero-iff-equal property are stated for points of equal
dimensionality, which is where they hold.

## Model

| member | source | states |
|---|---|---|
| Points.Dimensionality | clusterCities.py:25-26 | no contract; returns the number of features, the length of `attrs` |
| Points.Distance | clusterCities.py:29-34 | the loop's result is the root of the sum of squared coordinate differences over the dimensionality of `p` |
| Points.SquaredPrefixNonNegative | clusterCities.py:31-33 | the accumulated sum of squares is never negative |
| Points.SquaredPrefixZeroIff | clusterCities.py:31-33 | the accumulated sum of squares is zero exactly when the visited coordinates agree |
| Points.DistanceSymmetric | clusterCities.py:29-34 | distance(p, q) == distance(q, p) for points of equal dimensionality |
| Points.DistanceNonNegative | clusterCities.py:29-34 | with a true square root, a distance is never negative |
| Points.DistanceZeroIff | clusterCities.py:29-34 | with a true square root, the distance between points of equal dimensionality is zero exactly when their feature vectors are equal |
| Points.DistanceToSelf | clusterCities.py:29-34 | a point is at distance zero from itself |
| Strings.Sort | clusterCities.py:107 | no contract; an insertion sort by code-point order, whose properties Strings.SortCorrect states |
| Strings.SortCorrect | clusterCities.py:107 | the sort of a list of names is ordered and is a permutation of it |
| Clusters.Cluster.constructor | clusterCities.py:45-49 | a cluster keeps the points and point type it is built with |
| Clusters.Cluster.SingleLinkageDist | clusterCities.py:50-61 | the nested loop returns the minimum fold, seeded by the first pair, of every pairwise distance in scan order |
| Clusters.Cluster.MaxLinkageDist | clusterCities.py:62-73 | the nested loop returns the maximum fold, seeded by 0.0, of every pairwise distance in scan order |
| Clusters.Cluster.AverageLinkageDist | clusterCities.py:74-85 | the nested loop returns the sum of all pairwise distances divided by the number of pairs |
| Clusters.Cluster.IsIn | clusterCities.py:89-95 | true exactly when some point of the cluster has the given name |
| Clusters.Cluster.GetNames | clusterCities.py:101-107 | the result is ordered and is a permutation of the points' names |
| Clusters.Names | clusterCities.py:104-106 | one name per point, in point order |
| Clusters.ApplyLinkage | clusterCities.py:158 | calling the chosen linkage gives that linkage's distance |
| LinkageLemmas.CrossLength | clusterCities.py:79-85 | the scan visits the product of the two cluster sizes pairs, which is the final `count` |
| LinkageLemmas.SingleLinkageIsMinimum | clusterCities.py:50-61 | single linkage is at most every pairwise distance and equals one of them |
| LinkageLemmas.MaxLinkageIsMaximum | clusterCities.py:62-73 | maximum linkage is at least every pairwise distance and at least 0 |
| LinkageLemmas.MaxLinkageAttained | clusterCities.py:62-73 | for non-empty clusters and a true square root, maximum linkage equals one pairwise distance (the seed 0.0 is never stale) |
| LinkageLemmas.AverageLinkageIsMean | clusterCities.py:74-85 | average linkage is the sum of all pairwise distances over the product of the two cluster sizes |
| LinkageLemmas.AverageLinkageBetween | clusterCities.py:50-85 | single linkage ≤ average linkage ≤ maximum linkage |
| LinkageLemmas.SingleLinkageSymmetric | clusterCities.py:50-61 | single linkage does not depend on which cluster is `self` (equal dimensionality) |
| LinkageLemmas.MaxLinkageSymmetric | clusterCities.py:62-73 | maximum linkage does not depend on which cluster is `self` |
| LinkageLemmas.AverageLinkageSymmetric | clusterCities.py:74-85 | average linkage does not depend on which cluster is `self` |
| LinkageLemmas.SumCrossTransposed | clusterCities.py:79-85 | the total of all pairwise distances is the same from either side |
| LinkageLemmas.LinkageSymmetric | clusterCities.py:50-85 | every rule gives the same distance in both directions |
| ClusterSets.RemoveFirst | clusterCities.py:133 | `list.remove`: deletes the first occurrence; a list without the element comes back unchanged |
| ClusterSets.RemoveFirstCutsOut | clusterCities.py:133 | `list.remove` deletes the first occurrence and keeps the rest in order |
| ClusterSets.RemoveFirstDistinct | clusterCities.py:127-133 | on a list without duplicates, removal leaves no duplicates, one element fewer, and every other member |
| ClusterSets.RemoveAppended | clusterCities.py:120-133 | removing a cluster just added to a set that lacked it restores the set |
| ClusterSets.AllPointsAppend | clusterCities.py:126 | appending a cluster appends its points to the pool of all points |
| ClusterSets.AllPointsRemove | clusterCities.py:133 | removing a cluster takes exactly its points out of the pool |
| ClusterSets.MergeFacts | clusterCities.py:136-148 | replacing two distinct members by a fresh cluster of their joint points keeps the list duplicate-free, drops both, keeps every other member, and preserves the pool of points |
| ClusterSets.ClosestUnique | clusterCities.py:149-162 | at most one pair of positions is the closest pair |
| ClusterSets.SearchKeep | clusterCities.py:158-159 | a pair whose linkage is not strictly smaller leaves the best pair in place, and it stays the first of least linkage among the pairs scanned |
| ClusterSets.SearchImprove | clusterCities.py:159-161 | a pair whose linkage is strictly smaller becomes the first pair of least linkage among the pairs scanned |
| ClusterSets.SearchDone | clusterCities.py:156-162 | after the last row, the best pair is the first pair of least linkage of all |
| ClusterSets.ClusterSet.constructor | clusterCities.py:117-119 | a new set is empty |
| ClusterSets.ClusterSet.NumClusters | clusterCities.py:170-171 | the length of the member list, which on a valid set is the number of distinct clusters |
| ClusterSets.DistinctCount | clusterCities.py:170-171 | a list without duplicates has as many distinct elements as entries |
| ClusterSets.ClusterSet.GetClusters | clusterCities.py:134-135 | no contract; returns the member list (a `seq` is a value, so this is already a copy) |
| ClusterSets.ClusterSet.Add | clusterCities.py:120-126 | ValueError exactly when the cluster is already a member; otherwise it is appended; no duplicates either way |
| ClusterSets.ClusterSet.Remove | clusterCities.py:127-133 | ValueError exactly when the cluster is not a member; otherwise its first occurrence is deleted |
| ClusterSets.ClusterSet.MergeClusters | clusterCities.py:136-148 | one member fewer; the others keep their order; the last member is a new cluster with c1's points then c2's and c1's point type; c1 and c2 are gone; no point is lost or duplicated |
| ClusterSets.ClusterSet.FindClosest | clusterCities.py:149-162 | the returned clusters are the members at the first pair (i < j, ascending i then j) of least linkage |
| ClusterSets.ClusterSet.MergeOne | clusterCities.py:163-169 | the closest pair is returned and merged as MergeClusters does |
| Driver.ShapedDefined | clusterCities.py:236-243 | non-empty clusters whose points share one dimensionality can be compared under every rule |
| Driver.ShapedAfterMerge | clusterCities.py:241-243 | merging keeps every cluster non-empty and of that dimensionality |
| Driver.SeededFacts | clusterCities.py:238-239 | one singleton cluster per point, in order, holds exactly the points and is of their dimensionality |
| Driver.TraceExtend | clusterCities.py:241-243 | a further merge of the closest pair extends the recorded trace by one step |
| Driver.MergeRound | clusterCities.py:241-243 | one round of the loop keeps the cluster shape and extends the trace |
| Driver.HCluster | clusterCities.py:236-243 | the loop starts from one singleton cluster per point in input order and ends with min(n, numClusters) clusters after n − min(n, numClusters) merges; the k-th history entry is the closest pair of the k-th state and the (k+1)-th state is that pair merged; no duplicates, and every input point is in exactly one cluster |

## Left out

- Floating point: distances are `real`s, and `sqrt` is a parameter rather than `**0.5`; the round-off of float sums and divisions is not modelled. One consequence: LinkageLemmas.AverageLinkageSymmetric and LinkageLemmas.AverageLinkageBetween hold over the reals, but the program adds floats row by row, so `averageLinkageDist(a, b)` and `averageLinkageDist(b, a)` can differ in the last bit.
- `stdDev`, `scaleFeatures`, `readCityData` and `buildCityPoints`: file input and feature scaling, outside the clustering core.
- Printing: `toStr`, `__str__`, the history printout of `hCluster`, the generator `Cluster.members` it uses, `test` and the main block.
- `City` adds nothing to `Point`; it appears only as the point-type tag `PointType.City`.
- `getAttrs` and `getName` are the fields `attrs` and `name`.
- `ClusterSet.__init__` ignores its `pointType` argument, so the constructor takes none.
- `ClusterSet.getClusters` returns a copy of the list; a `seq` value is already a copy, so `GetClusters` is a plain accessor without a contract.
- ClusterSets.ClusterSet.MergeClusters: requires both clusters to be distinct members, as its documentation assumes; with a missing cluster the source raises from `remove` after partly changing the set, and that partial state is not modelled.
- The linkage methods and `FindClosest` require what the source needs to avoid an exception (non-empty clusters for single and average linkage, at least two members, a right-hand point with at least as many features); the IndexError and ZeroDivisionError paths are not modelled.
- Driver.HCluster: requires every point to have the same dimensionality, which is stronger than the source's exact crash condition, and `numClusters >= 1` unless no merge happens (otherwise the source indexes an empty or singleton list). It returns the merge history, which the source only prints, and a ghost list of the member lists between merges. Which points end up together is stated only through that step-by-step trace, not as a closed-form partition.
- The linkage passed as a function value is an enumeration of the three methods, not an arbitrary function.

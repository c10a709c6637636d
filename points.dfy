/** Points: named feature vectors and the Euclidean metric between them.
    The square root is not modelled concretely: every operation that needs it
    takes a function `sqrt`, and the lemmas that depend on its meaning assume
    `IsSquareRoot(sqrt)`. */
module Points {

  /** A named vector of real-valued features (a city is a point tagged as such
      by the cluster holding it). */
  datatype Point = Point(name: string, attrs: seq<real>)

  function Dimensionality(p: Point): nat {
    |p.attrs|
  }

  function Square(x: real): real {
    x * x
  }

  /** What a square-root function must satisfy on the non-negative reals. */
  ghost predicate IsSquareRoot(sqrt: real -> real) {
    forall x :: 0.0 <= x ==> 0.0 <= sqrt(x) && Square(sqrt(x)) == x
  }

  /** Sum of the squared differences of the first k coordinates, accumulated
      in index order. */
  function SquaredPrefix(a: seq<real>, b: seq<real>, k: nat): real
    requires k <= |a| && k <= |b|
  {
    if k == 0 then 0.0
    else SquaredPrefix(a, b, k - 1) + Square(a[k - 1] - b[k - 1])
  }

  /** The coordinates visited are those of `p`; `q` must have at least as many. */
  function SquaredDistance(p: Point, q: Point): real
    requires Dimensionality(p) <= Dimensionality(q)
  {
    SquaredPrefix(p.attrs, q.attrs, |p.attrs|)
  }

  function PointDistance(sqrt: real -> real, p: Point, q: Point): real
    requires Dimensionality(p) <= Dimensionality(q)
  {
    sqrt(SquaredDistance(p, q))
  }

  /** Euclidean distance from `p` to `other`: accumulate the squared coordinate
      differences over p's dimensionality, then take the root. */
  method Distance(p: Point, other: Point, sqrt: real -> real) returns (d: real)
    requires Dimensionality(p) <= Dimensionality(other)
    ensures d == sqrt(SquaredPrefix(p.attrs, other.attrs, |p.attrs|))
    ensures d == PointDistance(sqrt, p, other)
  {
    var result := 0.0;
    for i := 0 to Dimensionality(p)
      invariant result == SquaredPrefix(p.attrs, other.attrs, i)
    {
      result := result + Square(p.attrs[i] - other.attrs[i]);
    }
    d := sqrt(result);
  }

  lemma {:induction false} SquaredPrefixNonNegative(a: seq<real>, b: seq<real>, k: nat)
    requires k <= |a| && k <= |b|
    ensures 0.0 <= SquaredPrefix(a, b, k)
  {
    if k > 0 {
      SquaredPrefixNonNegative(a, b, k - 1);
    }
  }

  lemma {:induction false} SquaredPrefixSymmetric(a: seq<real>, b: seq<real>, k: nat)
    requires k <= |a| && k <= |b|
    ensures SquaredPrefix(a, b, k) == SquaredPrefix(b, a, k)
  {
    if k > 0 {
      SquaredPrefixSymmetric(a, b, k - 1);
    }
  }

  lemma SquarePositive(d: real)
    ensures 0.0 <= Square(d)
    ensures d != 0.0 ==> 0.0 < Square(d)
    ensures d == 0.0 ==> Square(d) == 0.0
  {
    if d > 0.0 {
      calc {
        Square(d);
      ==
        d * d;
      >
        0.0 * d;
      ==
        0.0;
      }
    } else if d < 0.0 {
      calc {
        Square(d);
      ==
        (-d) * (-d);
      >
        0.0 * (-d);
      ==
        0.0;
      }
    }
  }

  /** The sum of squares vanishes exactly when the two prefixes coincide. */
  lemma {:induction false} SquaredPrefixZeroIff(a: seq<real>, b: seq<real>, k: nat)
    requires k <= |a| && k <= |b|
    ensures SquaredPrefix(a, b, k) == 0.0 <==> a[..k] == b[..k]
  {
    if k > 0 {
      var d := a[k - 1] - b[k - 1];
      var rest := SquaredPrefix(a, b, k - 1);
      SquaredPrefixZeroIff(a, b, k - 1);
      SquaredPrefixNonNegative(a, b, k - 1);
      SquarePositive(d);
      
      assert a[..k] == a[..k - 1] + [a[k - 1]];
      assert b[..k] == b[..k - 1] + [b[k - 1]];
      if a[..k] == b[..k] {
        assert a[..k - 1] == a[..k][..k - 1] == b[..k][..k - 1] == b[..k - 1];
        assert a[k - 1] == a[..k][k - 1] == b[..k][k - 1] == b[k - 1];
        assert SquaredPrefix(a, b, k) == 0.0;
      } else if a[..k - 1] == b[..k - 1] {
        assert rest == 0.0;
        assert d != 0.0;

      } else {
        assert rest > 0.0;
      }
    }
  }

  /** distance(p, q) == distance(q, p) for points of equal dimensionality. */
  lemma DistanceSymmetric(sqrt: real -> real, p: Point, q: Point)
    requires Dimensionality(p) == Dimensionality(q)
    ensures PointDistance(sqrt, p, q) == PointDistance(sqrt, q, p)
  {
    SquaredPrefixSymmetric(p.attrs, q.attrs, |p.attrs|);
  }

  lemma DistanceNonNegative(sqrt: real -> real, p: Point, q: Point)
    requires IsSquareRoot(sqrt)
    requires Dimensionality(p) <= Dimensionality(q)
    ensures 0.0 <= PointDistance(sqrt, p, q)
  {
    SquaredPrefixNonNegative(p.attrs, q.attrs, |p.attrs|);
  }

  /** The distance is zero exactly when the coordinates are identical. */
  lemma DistanceZeroIff(sqrt: real -> real, p: Point, q: Point)
    requires IsSquareRoot(sqrt)
    requires Dimensionality(p) == Dimensionality(q)
    ensures PointDistance(sqrt, p, q) == 0.0 <==> p.attrs == q.attrs
  {
    var n := |p.attrs|;
    var s := SquaredDistance(p, q);
    SquaredPrefixNonNegative(p.attrs, q.attrs, n);
    SquaredPrefixZeroIff(p.attrs, q.attrs, n);
    assert p.attrs[..n] == p.attrs && q.attrs[..n] == q.attrs;
    SquarePositive(sqrt(s));
  }

  lemma DistanceToSelf(sqrt: real -> real, p: Point)
    requires IsSquareRoot(sqrt)
    ensures PointDistance(sqrt, p, p) == 0.0
  {
    DistanceZeroIff(sqrt, p, p);
  }
}

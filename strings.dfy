/** Ordering of names: the lexicographic comparison of strings by code point,
    and a sort under it (what Python's `sorted` does to a list of names). */
module Strings {

  /** `a` sorts before or equal to `b`, comparing character codes left to right;
      a proper prefix sorts first. */
  predicate LessEq(a: string, b: string)
    decreases |a|
  {
    a == [] || (b != [] && (a[0] < b[0] || (a[0] == b[0] && LessEq(a[1..], b[1..]))))
  }

  lemma {:induction false} LessEqTotal(a: string, b: string)
    ensures LessEq(a, b) || LessEq(b, a)
    decreases |a|
  {
    if a != [] && b != [] && a[0] == b[0] {
      LessEqTotal(a[1..], b[1..]);
    }
  }

  predicate Sorted(s: seq<string>) {
    forall k :: 0 < k < |s| ==> LessEq(s[k - 1], s[k])
  }

  function Insert(x: string, s: seq<string>): seq<string> {
    if s == [] then [x]
    else if LessEq(x, s[0]) then [x] + s
    else [s[0]] + Insert(x, s[1..])
  }

  function Sort(s: seq<string>): seq<string> {
    if s == [] then [] else Insert(s[0], Sort(s[1..]))
  }

  lemma {:induction false} InsertMultiset(x: string, s: seq<string>)
    ensures multiset(Insert(x, s)) == multiset(s) + multiset{x}
  {
    if s != [] && !LessEq(x, s[0]) {
      InsertMultiset(x, s[1..]);
      assert s == [s[0]] + s[1..];
    }
  }

  lemma InsertHead(x: string, s: seq<string>)
    ensures Insert(x, s)[0] == x || (s != [] && Insert(x, s)[0] == s[0])
  {
  }

  lemma SortedTail(s: seq<string>)
    requires s != [] && Sorted(s)
    ensures Sorted(s[1..])
  {
    var t := s[1..];
    forall k | 0 < k < |t| ensures LessEq(t[k - 1], t[k]) {
      assert t[k - 1] == s[k] && t[k] == s[k + 1];
    }
  }

  lemma {:induction false} InsertSorted(x: string, s: seq<string>)
    requires Sorted(s)
    ensures Sorted(Insert(x, s))
  {
    if s != [] && !LessEq(x, s[0]) {
      var t := s[1..];
      SortedTail(s);
      InsertSorted(x, t);
      InsertHead(x, t);
      LessEqTotal(x, s[0]);
      var u := Insert(x, t);
      var r := [s[0]] + u;
      assert Insert(x, s) == r;
      assert LessEq(s[0], u[0]) by {
        if u[0] != x {
          assert s[1] == t[0];
        }
      }
      forall k | 0 < k < |r| ensures LessEq(r[k - 1], r[k]) {
        if k > 1 {
          assert r[k - 1] == u[k - 2] && r[k] == u[k - 1];
        }
      }
    }
  }

  lemma InsertCorrect(x: string, s: seq<string>)
    requires Sorted(s)
    ensures Sorted(Insert(x, s))
    ensures multiset(Insert(x, s)) == multiset(s) + multiset{x}
  {
    InsertSorted(x, s);
    InsertMultiset(x, s);
  }

  /** The result is ordered and holds exactly the input's names. */
  lemma {:induction false} SortCorrect(s: seq<string>)
    ensures Sorted(Sort(s))
    ensures multiset(Sort(s)) == multiset(s)
  {
    if s != [] {
      SortCorrect(s[1..]);
      InsertCorrect(s[0], Sort(s[1..]));
      assert s == [s[0]] + s[1..];
    }
  }
}

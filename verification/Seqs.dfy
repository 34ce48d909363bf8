/** Lists without repetitions, as the two caches keep their keys in order of use, and their sizes. */
module Seqs {
  /** s without the first place of x. */
  function Erase<T(==)>(s: seq<T>, x: T): seq<T> {
    if s == [] then [] else if s[0] == x then s[1..] else [s[0]] + Erase(s[1..], x)
  }

  ghost predicate Distinct<T>(s: seq<T>) {
    forall i, j | 0 <= i < j < |s| :: s[i] != s[j]
  }

  lemma {:induction false} EraseMembers<T>(s: seq<T>, x: T)
    requires Distinct(s)
    ensures forall y :: y in Erase(s, x) <==> y in s && y != x
    ensures |Erase(s, x)| == |s| - if x in s then 1 else 0
  {
    if s != [] {
      assert s == [s[0]] + s[1..];
      EraseMembers(s[1..], x);
    }
  }

  lemma {:induction false} EraseDistinct<T>(s: seq<T>, x: T)
    requires Distinct(s)
    ensures Distinct(Erase(s, x))
  {
    if s != [] && s[0] != x {
      EraseDistinct(s[1..], x);
      EraseMembers(s[1..], x);
      var t := Erase(s[1..], x);
      assert Erase(s, x) == [s[0]] + t;
      assert s[0] !in s[1..];
      forall i, j | 0 <= i < j < |t| + 1
        ensures ([s[0]] + t)[i] != ([s[0]] + t)[j]
      {
        assert ([s[0]] + t)[j] == t[j - 1];
      }
    }
  }

  lemma AppendDistinct<T>(s: seq<T>, x: T)
    requires Distinct(s) && x !in s
    ensures Distinct(s + [x])
  {
  }

  ghost function Elems<T>(s: seq<T>): set<T> {
    set x | x in s
  }

  lemma {:induction false} DistinctSize<T>(s: seq<T>)
    requires Distinct(s)
    ensures |Elems(s)| == |s|
  {
    if s != [] {
      DistinctSize(s[1..]);
      assert s == [s[0]] + s[1..];
      assert Elems(s) == Elems(s[1..]) + {s[0]};
    }
  }

  lemma SubsetSize<T>(a: set<T>, b: set<T>)
    requires a <= b
    ensures |a| <= |b|
  {
    if a != {} {
      var x :| x in a;
      SubsetSize(a - {x}, b - {x});
    }
  }

  lemma EraseFirst<T>(q: seq<T>)
    requires q != []
    ensures Erase(q, q[0]) == q[1..]
  {
  }
}

/**
 * The LINQ operators the repository composes its queries from, read as
 * operations on sequences: `Where`, `Any` and `FirstOrDefault`.
 */
module Linq {
  import opened Wrappers

  /** `Where`: the elements satisfying `p`, in their original order. */
  function Where<T(!new)>(s: seq<T>, p: T -> bool): (r: seq<T>)
    ensures |r| <= |s|
    ensures forall x :: x in r <==> x in s && p(x)
  {
    if s == [] then []
    else if p(s[0]) then [s[0]] + Where(s[1..], p)
    else Where(s[1..], p)
  }

  /** `Any`: some element satisfies `p`. */
  function Any<T>(s: seq<T>, p: T -> bool): (b: bool)
    ensures b <==> exists i :: 0 <= i < |s| && p(s[i])
  {
    if s == [] then false
    else
      assert forall i :: 0 < i < |s| ==> s[i] == s[1..][i - 1];
      p(s[0]) || Any(s[1..], p)
  }

  /** `FirstOrDefault`: the first element, or null for an empty sequence. */
  function FirstOrDefault<T>(s: seq<T>): (r: Option<T>)
    ensures r.None? <==> s == []
    ensures s != [] ==> r == Some(s[0])
  {
    if s == [] then None else Some(s[0])
  }

  /** `i` is the first index of `s` whose element satisfies `p`. */
  predicate IsFirst<T>(s: seq<T>, p: T -> bool, i: int) {
    0 <= i < |s| && p(s[i]) && forall j :: 0 <= j < i ==> !p(s[j])
  }

  /** `Where` keeps the order: filtering a concatenation filters each part. */
  lemma {:induction false} WhereConcat<T(!new)>(a: seq<T>, b: seq<T>, p: T -> bool)
    ensures Where(a + b, p) == Where(a, p) + Where(b, p)
  {
    if a == [] {
      assert a + b == b;
    } else {
      assert (a + b)[1..] == a[1..] + b;
      WhereConcat(a[1..], b, p);
    }
  }

  /** `Where` keeps every element that satisfies `p` exactly as often as it occurs, and no other. */
  lemma {:induction false} WhereMultiset<T(!new)>(s: seq<T>, p: T -> bool)
    ensures forall x :: multiset(Where(s, p))[x] == if p(x) then multiset(s)[x] else 0
  {
    if s != [] {
      WhereMultiset(s[1..], p);
      assert s == [s[0]] + s[1..];
    }
  }

  /** Two `Where` calls in a row keep exactly what satisfies both predicates. */
  lemma {:induction false} WhereWhere<T(!new)>(s: seq<T>, p: T -> bool, q: T -> bool, pq: T -> bool)
    requires forall x :: pq(x) == (p(x) && q(x))
    ensures Where(Where(s, p), q) == Where(s, pq)
  {
    if s != [] {
      WhereWhere(s[1..], p, q, pq);
    }
  }

  /** The head of a non-empty `Where` is the first element satisfying `p`. */
  lemma {:induction false} WhereHead<T(!new)>(s: seq<T>, p: T -> bool)
    ensures Where(s, p) == [] <==> forall i :: 0 <= i < |s| ==> !p(s[i])
    ensures Where(s, p) != [] ==> exists i :: IsFirst(s, p, i) && Where(s, p)[0] == s[i]
  {
    if s != [] && !p(s[0]) {
      WhereHead(s[1..], p);
      assert forall i :: 0 < i < |s| ==> s[i] == s[1..][i - 1];
      if Where(s, p) != [] {
        var k :| IsFirst(s[1..], p, k) && Where(s[1..], p)[0] == s[1..][k];
        assert IsFirst(s, p, k + 1);
      }
    } else if s != [] {
      assert IsFirst(s, p, 0);
    }
  }
}

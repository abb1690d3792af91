/**
 * The orders `OrderBy` and `ThenBy` sort cities by: strings compare
 * ordinally (lexicographically by character code), and the sort is an
 * insertion sort that yields a sorted permutation of its input.
 */
module Ordering {
  import opened Entities
  import opened Linq

  /** Ordinal string comparison: `a` sorts no later than `b`. */
  predicate StrLe(a: string, b: string)
    ensures a == [] ==> StrLe(a, b)
    ensures |a| <= |b| && b[..|a|] == a ==> StrLe(a, b)
  {
    if a == [] then true
    else if b == [] then false
    else if a[0] != b[0] then a[0] < b[0]
    else StrLe(a[1..], b[1..])
  }

  lemma {:induction false} StrLeReflexive(a: string)
    ensures StrLe(a, a)
  {
    if a != [] {
      StrLeReflexive(a[1..]);
    }
  }

  lemma {:induction false} StrLeTotal(a: string, b: string)
    ensures StrLe(a, b) || StrLe(b, a)
  {
    if a != [] && b != [] && a[0] == b[0] {
      StrLeTotal(a[1..], b[1..]);
    }
  }

  lemma {:induction false} StrLeAntisymmetric(a: string, b: string)
    requires StrLe(a, b) && StrLe(b, a)
    ensures a == b
  {
    if a != [] && b != [] {
      StrLeAntisymmetric(a[1..], b[1..]);
      assert a == [a[0]] + a[1..] && b == [b[0]] + b[1..];
    }
  }

  lemma {:induction false} StrLeTransitive(a: string, b: string, c: string)
    requires StrLe(a, b) && StrLe(b, c)
    ensures StrLe(a, c)
  {
    if a != [] && b != [] && c != [] && a[0] == b[0] == c[0] {
      StrLeTransitive(a[1..], b[1..], c[1..]);
    }
  }

  /** The keys a query sorts cities by. */
  datatype CityOrder =
    | ByName                 // OrderBy(c => c.Name)
    | ByNameThenDescription  // OrderBy(c => c.Name).ThenBy(c => c.Description)

  /** `a` may come before `b` in a sequence sorted by `order`. */
  predicate Le(order: CityOrder, a: City, b: City)
    ensures Le(order, a, b) ==> StrLe(a.name, b.name)
    ensures a.name == b.name && order.ByNameThenDescription? ==>
      (Le(order, a, b) <==> StrLe(a.description, b.description))
  {
    StrLeReflexive(a.name);
    match order
    case ByName => StrLe(a.name, b.name)
    case ByNameThenDescription =>
      (StrLe(a.name, b.name) && a.name != b.name)
      || (a.name == b.name && StrLe(a.description, b.description))
  }

  lemma LeTotal(order: CityOrder, a: City, b: City)
    ensures Le(order, a, b) || Le(order, b, a)
  {
    StrLeTotal(a.name, b.name);
    StrLeTotal(a.description, b.description);
  }

  lemma LeTransitive(order: CityOrder, a: City, b: City, c: City)
    requires Le(order, a, b) && Le(order, b, c)
    ensures Le(order, a, c)
  {
    StrLeReflexive(a.name);
    StrLeReflexive(b.name);
    StrLeTransitive(a.name, b.name, c.name);
    if a.name == c.name && order.ByNameThenDescription? {
      if a.name != b.name {
        StrLeAntisymmetric(a.name, b.name);
      } else {
        StrLeTransitive(a.description, b.description, c.description);
      }
    }
  }

  predicate Sorted(order: CityOrder, s: seq<City>) {
    forall i, j :: 0 <= i < j < |s| ==> Le(order, s[i], s[j])
  }

  /** `x` may come before every element of `s`. */
  predicate LeAll(order: CityOrder, x: City, s: seq<City>) {
    forall i :: 0 <= i < |s| ==> Le(order, x, s[i])
  }

  lemma SortedCons(order: CityOrder, x: City, s: seq<City>)
    requires Sorted(order, s) && LeAll(order, x, s)
    ensures Sorted(order, [x] + s)
  {
    var r := [x] + s;
    forall i, j | 0 <= i < j < |r| ensures Le(order, r[i], r[j]) {
      if i > 0 { assert r[i] == s[i - 1] && r[j] == s[j - 1]; }
    }
  }

  lemma LeAllFromHead(order: CityOrder, x: City, s: seq<City>)
    requires Sorted(order, s) && s != [] && Le(order, x, s[0])
    ensures LeAll(order, x, s)
  {
    forall j | 0 < j < |s| ensures Le(order, x, s[j]) {
      LeTransitive(order, x, s[0], s[j]);
    }
  }

  lemma LeAllByMultiset(order: CityOrder, x: City, s: seq<City>, t: seq<City>)
    requires LeAll(order, x, s) && multiset(t) <= multiset(s)
    ensures LeAll(order, x, t)
  {
    forall j | 0 <= j < |t| ensures Le(order, x, t[j]) {
      assert t[j] in multiset(t);
    }
  }

  /** Inserts `c` into a sorted sequence before the first element that must follow it. */
  function Insert(order: CityOrder, c: City, s: seq<City>): (r: seq<City>)
    requires Sorted(order, s)
    ensures Sorted(order, r)
    ensures multiset(r) == multiset(s) + multiset{c}
  {
    if s == [] then [c]
    else if Le(order, c, s[0]) then
      LeAllFromHead(order, c, s);
      SortedCons(order, c, s);
      [c] + s
    else
      LeTotal(order, c, s[0]);
      var t := Insert(order, c, s[1..]);
      assert s == [s[0]] + s[1..];
      assert LeAll(order, s[0], s[1..]);
      assert LeAll(order, s[0], s[1..] + [c]);
      LeAllByMultiset(order, s[0], s[1..] + [c], t);
      SortedCons(order, s[0], t);
      [s[0]] + t
  }

  /** `OrderBy`: the input sorted by `order`. */
  function OrderBy(order: CityOrder, s: seq<City>): (r: seq<City>)
    ensures Sorted(order, r)
    ensures multiset(r) == multiset(s)
  {
    if s == [] then []
    else
      assert s == [s[0]] + s[1..];
      Insert(order, s[0], OrderBy(order, s[1..]))
  }

  /** Filtering a sorted sequence leaves it sorted. */
  lemma {:induction false} WhereSorted(order: CityOrder, s: seq<City>, p: City -> bool)
    requires Sorted(order, s)
    ensures Sorted(order, Where(s, p))
  {
    if s != [] {
      var t := Where(s[1..], p);
      WhereSorted(order, s[1..], p);
      if p(s[0]) {
        assert LeAll(order, s[0], s[1..]);
        forall j | 0 <= j < |t| ensures Le(order, s[0], t[j]) {
          assert t[j] in s[1..];
        }
        SortedCons(order, s[0], t);
      }
    }
  }
}

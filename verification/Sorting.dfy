/** The ascending enumeration of a finite set, as produced by sorting it. */
module Sorting {

  ghost predicate StrictOrder<T(!new)>(less: (T, T) -> bool)
  {
    && (forall x :: !less(x, x))
    && (forall x, y :: x != y ==> less(x, y) || less(y, x))
    && (forall x, y, z :: less(x, y) && less(y, z) ==> less(x, z))
  }

  predicate Ascending<T>(s: seq<T>, less: (T, T) -> bool)
  {
    forall i, j :: 0 <= i < j < |s| ==> less(s[i], s[j])
  }

  function Elements<T>(s: seq<T>): set<T>
  {
    set x | x in s
  }

  ghost predicate Enumerates<T(!new)>(r: seq<T>, s: set<T>, less: (T, T) -> bool)
  {
    Ascending(r, less) && Elements(r) == s
  }

  ghost predicate IsLeast<T(!new)>(m: T, s: set<T>, less: (T, T) -> bool)
  {
    m in s && forall x :: x in s && x != m ==> less(m, x)
  }

  lemma LeastExists<T(!new)>(s: set<T>, less: (T, T) -> bool) returns (m: T)
    requires StrictOrder(less) && s != {}
    ensures IsLeast(m, s, less)
  {
    m :| m in s;
    if s != {m} {
      var k := LeastExists(s - {m}, less);
      if less(k, m) {
        m := k;
      } else {
        assert forall x :: x in s && x != m ==> x == k || less(k, x);
      }
    }
  }

  /** A set has only one ascending enumeration. */
  lemma {:induction false} UniqueEnumeration<T(!new)>(a: seq<T>, b: seq<T>, less: (T, T) -> bool)
    requires StrictOrder(less) && Ascending(a, less) && Ascending(b, less)
    requires Elements(a) == Elements(b)
    ensures a == b
  {
    EmptyElements(a);
    EmptyElements(b);
    if a != [] {
      assert a[0] in Elements(b) && b[0] in Elements(a);
      var i :| 0 <= i < |b| && b[i] == a[0];
      var j :| 0 <= j < |a| && a[j] == b[0];
      assert a[0] == b[0];
      TailElements(a, less);
      TailElements(b, less);
      UniqueEnumeration(a[1..], b[1..], less);
      assert a == [a[0]] + a[1..] && b == [b[0]] + b[1..];
    }
  }

  lemma EmptyElements<T>(a: seq<T>)
    ensures a == [] <==> Elements(a) == {}
  {
    if a != [] {
      assert a[0] in Elements(a);
    }
  }

  predicate Distinct<T(==)>(s: seq<T>)
  {
    forall i, j :: 0 <= i < j < |s| ==> s[i] != s[j]
  }

  lemma AscendingIsDistinct<T(!new)>(a: seq<T>, less: (T, T) -> bool)
    requires StrictOrder(less) && Ascending(a, less)
    ensures Distinct(a)
  {
  }

  lemma NextElement<T>(a: seq<T>, i: nat)
    requires Distinct(a) && i < |a|
    ensures a[i] in Elements(a) && a[i] !in Elements(a[..i])
    ensures Elements(a[..i + 1]) == Elements(a[..i]) + {a[i]}
  {
    assert a[..i + 1] == a[..i] + [a[i]];
  }

  lemma TailElements<T(!new)>(a: seq<T>, less: (T, T) -> bool)
    requires StrictOrder(less) && Ascending(a, less) && a != []
    ensures Ascending(a[1..], less) && Elements(a[1..]) == Elements(a) - {a[0]}
  {
    assert forall i :: 0 < i < |a| ==> a[i] == a[1..][i - 1] && less(a[0], a[i]);
    forall x
      ensures x in a[1..] <==> x in a && x != a[0]
    {
      if x in a && x != a[0] {
        var i :| 0 <= i < |a| && a[i] == x;
        assert a[1..][i - 1] == x;
      }
    }
  }

  lemma Prepend<T(!new)>(m: T, rest: seq<T>, s: set<T>, less: (T, T) -> bool)
    requires IsLeast(m, s, less) && Enumerates(rest, s - {m}, less)
    ensures Enumerates([m] + rest, s, less)
  {
    var r := [m] + rest;
    assert forall i :: 0 <= i < |rest| ==> rest[i] in Elements(rest);
    forall x
      ensures x in Elements(r) <==> x in s
    {
      assert x in r <==> x == m || x in rest;
      assert x in rest <==> x in Elements(rest);
    }
  }

  /** The ascending enumeration of a set. */
  ghost function Sorted<T(!new)>(s: set<T>, less: (T, T) -> bool): (r: seq<T>)
    requires StrictOrder(less)
    ensures Enumerates(r, s, less)
  {
    if s == {} then []
    else
      LeastMember(s, less);
      var m :| IsLeast(m, s, less);
      var rest := Sorted(s - {m}, less);
      Prepend(m, rest, s, less);
      [m] + rest
  }

  lemma LeastMember<T(!new)>(s: set<T>, less: (T, T) -> bool)
    requires StrictOrder(less) && s != {}
    ensures exists m :: IsLeast(m, s, less)
  {
    var m := LeastExists(s, less);
  }

  method Sort<T(!new, ==)>(s: set<T>, less: (T, T) -> bool) returns (r: seq<T>)
    requires StrictOrder(less)
    ensures r == Sorted(s, less)
  {
    r := [];
    var rest := s;
    while rest != {}
      invariant Elements(r) + rest == s
      invariant Ascending(r, less)
      invariant forall x, y :: x in r && y in rest ==> less(x, y)
      decreases rest
    {
      ghost var least := LeastExists(rest, less);
      var m :| m in rest && forall x :: x in rest && x != m ==> less(m, x);
      r := r + [m];
      rest := rest - {m};
    }
    UniqueEnumeration(r, Sorted(s, less), less);
  }
}

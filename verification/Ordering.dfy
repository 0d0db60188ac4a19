/** Code-point order on text, and Python's `sorted(set)` on identifiers. */
module Ordering {
  import opened Common

  /** `a <= b` for Python strings: lexicographic by code point, a proper prefix first. */
  predicate TextLe(a: string, b: string) {
    if a == [] then true
    else if b == [] then false
    else if a[0] != b[0] then a[0] < b[0]
    else TextLe(a[1..], b[1..])
  }

  lemma {:induction false} TextLeTotal(a: string, b: string)
    ensures TextLe(a, b) || TextLe(b, a)
    ensures TextLe(a, b) && TextLe(b, a) ==> a == b
  {
    if a != [] && b != [] && a[0] == b[0] {
      TextLeTotal(a[1..], b[1..]);
      assert a == [a[0]] + a[1..] && b == [b[0]] + b[1..];
    }
  }

  lemma {:induction false} TextLeTransitive(a: string, b: string, c: string)
    requires TextLe(a, b) && TextLe(b, c)
    ensures TextLe(a, c)
  {
    if a != [] && b != [] && c != [] && a[0] == b[0] == c[0] {
      TextLeTransitive(a[1..], b[1..], c[1..]);
    }
  }

  /** Putting the same text in front of both sides changes nothing. */
  lemma {:induction false} TextLeCommonPrefix(p: string, a: string, b: string)
    ensures TextLe(p + a, p + b) <==> TextLe(a, b)
  {
    if p == [] {
      assert p + a == a && p + b == b;
    } else {
      assert (p + a)[1..] == p[1..] + a && (p + b)[1..] == p[1..] + b;
      TextLeCommonPrefix(p[1..], a, b);
    }
  }

  ghost predicate IsLeast(m: Id, s: set<Id>) {
    m in s && forall x :: x in s ==> TextLe(m, x)
  }

  lemma {:induction false} LeastExists(s: set<Id>)
    requires s != {}
    ensures exists m :: IsLeast(m, s)
  {
    var x :| x in s;
    TextLeTotal(x, x);
    if s == {x} {
      assert IsLeast(x, s);
    } else {
      LeastExists(s - {x});
      var m :| IsLeast(m, s - {x});
      TextLeTotal(m, x);
      if TextLe(m, x) {
        assert IsLeast(m, s);
      } else {
        forall y | y in s ensures TextLe(x, y) {
          if y != x {
            TextLeTransitive(x, m, y);
          }
        }
        assert IsLeast(x, s);
      }
    }
  }

  lemma LeastUnique(s: set<Id>)
    ensures forall m, n :: IsLeast(m, s) && IsLeast(n, s) ==> m == n
  {
    forall m, n | IsLeast(m, s) && IsLeast(n, s) ensures m == n {
      TextLeTotal(m, n);
    }
  }

  function Least(s: set<Id>): (m: Id)
    requires s != {}
    ensures IsLeast(m, s)
  {
    LeastExists(s);
    LeastUnique(s);
    var m :| m in s && IsLeastIn(m, s);
    m
  }

  predicate IsLeastIn(m: Id, s: set<Id>)
    ensures m in s ==> (IsLeastIn(m, s) <==> IsLeast(m, s))
  {
    forall x :: x in s ==> TextLe(m, x)
  }

  ghost predicate Ascending(s: seq<Id>) {
    forall i, j :: 0 <= i < j < |s| ==> s[i] != s[j] && TextLe(s[i], s[j])
  }

  /** `sorted(s)` for a set of identifiers. */
  function Sorted(s: set<Id>): seq<Id>
    decreases |s|
  {
    if s == {} then [] else [Least(s)] + Sorted(s - {Least(s)})
  }

  /** The members of the set, each once, in text order. */
  lemma {:induction false} SortedIs(s: set<Id>)
    ensures ToSet(Sorted(s)) == s && Ascending(Sorted(s)) && Distinct(Sorted(s))
    ensures Sorted(s) == [] <==> s == {}
    decreases |s|
  {
    if s != {} {
      SortedIs(s - {Least(s)});
      SortedStep(s, Least(s), Sorted(s - {Least(s)}));
    }
  }

  lemma SortedStep(s: set<Id>, m: Id, rest: seq<Id>)
    requires IsLeast(m, s) && ToSet(rest) == s - {m} && Ascending(rest)
    ensures ToSet([m] + rest) == s && Ascending([m] + rest) && Distinct([m] + rest)
  {
    var r := [m] + rest;
    assert forall i :: 0 <= i < |rest| ==> rest[i] in ToSet(rest);
    assert forall x :: x in r <==> x == m || x in ToSet(rest);
  }
}

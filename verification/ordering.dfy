/**
 * The order in which listings come back. Python (and a database using
 * binary collation) compares strings code point by code point, a proper
 * prefix coming first; `LexLe` is that order, and `SortBy` an ordering of
 * rows by a string key.
 */
module Ordering {

  /** `a <= b` on Python strings. */
  predicate LexLe(a: string, b: string)
    decreases |a|
  {
    |a| == 0 || (|b| > 0 && (a[0] < b[0] || (a[0] == b[0] && LexLe(a[1..], b[1..]))))
  }

  lemma {:induction false} LexLeReflexive(a: string)
    ensures LexLe(a, a)
    decreases |a|
  {
    if |a| > 0 {
      LexLeReflexive(a[1..]);
    }
  }

  lemma {:induction false} LexLeTotal(a: string, b: string)
    ensures LexLe(a, b) || LexLe(b, a)
    decreases |a|
  {
    if |a| > 0 && |b| > 0 && a[0] == b[0] {
      LexLeTotal(a[1..], b[1..]);
    }
  }

  lemma {:induction false} LexLeAntisymmetric(a: string, b: string)
    requires LexLe(a, b) && LexLe(b, a)
    ensures a == b
    decreases |a|
  {
    if |a| > 0 {
      LexLeAntisymmetric(a[1..], b[1..]);
      assert a == [a[0]] + a[1..] && b == [b[0]] + b[1..];
    }
  }

  lemma {:induction false} LexLeTransitive(a: string, b: string, c: string)
    requires LexLe(a, b) && LexLe(b, c)
    ensures LexLe(a, c)
    decreases |a|
  {
    if |a| > 0 && a[0] == b[0] && b[0] == c[0] {
      LexLeTransitive(a[1..], b[1..], c[1..]);
    }
  }

  /** Every row's key is at most the key of every later row. */
  ghost predicate SortedBy<T>(s: seq<T>, key: T -> string)
  {
    forall i, j :: 0 <= i < j < |s| ==> LexLe(key(s[i]), key(s[j]))
  }

  /** Puts `x` in front of the first row whose key it does not exceed. */
  function InsertBy<T>(x: T, s: seq<T>, key: T -> string): (r: seq<T>)
    ensures multiset(r) == multiset(s) + multiset{x}
  {
    if s == [] then [x]
    else if LexLe(key(x), key(s[0])) then [x] + s
    else
      assert s == [s[0]] + s[1..];
      [s[0]] + InsertBy(x, s[1..], key)
  }

  lemma {:induction false} InsertBySorted<T>(x: T, s: seq<T>, key: T -> string)
    requires SortedBy(s, key)
    ensures SortedBy(InsertBy(x, s, key), key)
  {
    if s != [] {
      if LexLe(key(x), key(s[0])) {
        var r := [x] + s;
        forall j | 1 <= j < |r|
          ensures LexLe(key(x), key(r[j]))
        {
          if j > 1 {
            LexLeTransitive(key(x), key(s[0]), key(s[j - 1]));
          }
        }
      } else {
        LexLeTotal(key(x), key(s[0]));
        InsertBySorted(x, s[1..], key);
        var t := InsertBy(x, s[1..], key);
        forall e | e in t
          ensures LexLe(key(s[0]), key(e))
        {
          assert e in multiset(t);
          if e != x {
            assert e in s[1..];
          }
        }
      }
    }
  }

  /** The rows of `s` arranged in ascending key order. */
  function SortBy<T>(s: seq<T>, key: T -> string): (r: seq<T>)
    ensures multiset(r) == multiset(s)
    ensures SortedBy(r, key)
  {
    if s == [] then []
    else
      var t := SortBy(s[1..], key);
      InsertBySorted(s[0], t, key);
      assert s == [s[0]] + s[1..];
      InsertBy(s[0], t, key)
  }

  function Self(s: string): string { s }

  /**
   * A set of names as a list in ascending order, each name once: the
   * `sorted(...)` applied to a set before it is reported.
   */
  method SortedNames(names: set<string>) returns (r: seq<string>)
    ensures SortedBy(r, Self)
    ensures forall e :: e in r <==> e in names
    ensures |r| == |names|
  {
    r := [];
    var rest := names;
    while rest != {}
      invariant rest <= names
      invariant SortedBy(r, Self)
      invariant forall e :: e in r <==> e in names - rest
      invariant |r| + |rest| == |names|
      decreases rest
    {
      var x :| x in rest;
      InsertBySorted(x, r, Self);
      var r' := InsertBy(x, r, Self);
      forall e
        ensures e in r' <==> e in r || e == x
      {
        calc {
          e in r';
          e in multiset(r');
          e in multiset(r) + multiset{x};
          e in r || e == x;
        }
      }
      r := r';
      rest := rest - {x};
    }
  }
}

/** Strict total orders, the least element of a finite set, and the sorted
    enumeration of a finite set: what iterating an ordered map yields. */
module Orders {

  ghost predicate StrictTotal<T(!new)>(lt: (T, T) -> bool) {
    && (forall x :: !lt(x, x))
    && (forall x, y :: x == y || lt(x, y) || lt(y, x))
    && (forall x, y, z :: lt(x, y) && lt(y, z) ==> lt(x, z))
  }

  ghost predicate IsLeast<T(!new)>(s: set<T>, lt: (T, T) -> bool, m: T) {
    m in s && forall x :: x in s && x != m ==> lt(m, x)
  }

  lemma {:induction false} LeastExists<T(!new)>(s: set<T>, lt: (T, T) -> bool)
    requires s != {} && StrictTotal(lt)
    ensures exists m :: IsLeast(s, lt, m)
    decreases |s|
  {
    var x :| x in s;
    if s == {x} {
      assert IsLeast(s, lt, x);
    } else {
      var rest := s - {x};
      assert s == rest + {x};
      LeastExists(rest, lt);
      var m :| IsLeast(rest, lt, m);
      var least := if lt(x, m) then x else m;
      forall y | y in s && y != least ensures lt(least, y) {
        if y != x && y != m { assert y in rest && lt(m, y); }
      }
      assert IsLeast(s, lt, least);
    }
  }

  ghost function Least<T(!new)>(s: set<T>, lt: (T, T) -> bool): (m: T)
    requires s != {} && StrictTotal(lt)
    ensures IsLeast(s, lt, m)
  {
    LeastExists(s, lt);
    var m :| IsLeast(s, lt, m);
    m
  }

  /** A minimum scan, in any order. */
  method FindLeast<T(==, !new)>(s: set<T>, lt: (T, T) -> bool) returns (m: T)
    requires s != {} && StrictTotal(lt)
    ensures m == Least(s, lt)
  {
    m :| m in s;
    var rest := s - {m};
    while rest != {}
      invariant m in s && rest <= s && m !in rest
      invariant forall x :: x in s && x !in rest && x != m ==> lt(m, x)
      decreases |rest|
    {
      var x :| x in rest;
      rest := rest - {x};
      if lt(x, m) { m := x; }
    }
    assert IsLeast(s, lt, m);
  }

  /** The members of `s` in increasing order. */
  ghost function Sorted<T(!new)>(s: set<T>, lt: (T, T) -> bool): (r: seq<T>)
    requires StrictTotal(lt)
    decreases |s|
  {
    if s == {} then [] else
      var m := Least(s, lt);
      [m] + Sorted(s - {m}, lt)
  }

  ghost predicate Increasing<T(!new)>(r: seq<T>, lt: (T, T) -> bool) {
    forall i, j :: 0 <= i < j < |r| ==> lt(r[i], r[j])
  }

  /** The enumeration lists every member exactly once, in increasing order. */
  lemma {:induction false} SortedEnumerates<T(!new)>(s: set<T>, lt: (T, T) -> bool)
    requires StrictTotal(lt)
    ensures |Sorted(s, lt)| == |s|
    ensures forall x :: x in Sorted(s, lt) <==> x in s
    ensures Increasing(Sorted(s, lt), lt)
    decreases |s|
  {
    if s != {} {
      var m := Least(s, lt);
      var tail := Sorted(s - {m}, lt);
      SortedEnumerates(s - {m}, lt);
      assert Sorted(s, lt) == [m] + tail;
      forall j | 0 <= j < |tail| ensures lt(m, tail[j]) {
        assert tail[j] in s - {m};
      }
    }
  }

  /** An order-preserving renaming commutes with the enumeration. */
  lemma {:induction false} SortedImage<A(!new), B(!new)>(s: set<A>, image: set<B>, lta: (A, A) -> bool,
                                                         ltb: (B, B) -> bool, f: A -> B)
    requires StrictTotal(lta) && StrictTotal(ltb)
    requires forall x, y :: lta(x, y) ==> ltb(f(x), f(y))
    requires image == set x | x in s :: f(x)
    ensures |Sorted(image, ltb)| == |Sorted(s, lta)|
    ensures forall i :: 0 <= i < |Sorted(s, lta)| ==> Sorted(image, ltb)[i] == f(Sorted(s, lta)[i])
    decreases |s|
  {
    if s == {} {
      assert image == {};
    } else {
      var m := Least(s, lta);
      assert f(m) in image;
      assert IsLeast(image, ltb, f(m));
      assert Least(image, ltb) == f(m);
      assert image - {f(m)} == set x | x in s - {m} :: f(x) by {
        forall x | x in s - {m} ensures f(x) != f(m) {
          assert lta(m, x);
        }
      }
      SortedImage(s - {m}, image - {f(m)}, lta, ltb, f);
    }
  }

  lemma SubsetIsSmaller<T>(a: set<T>, b: set<T>)
    requires a <= b
    ensures |a| <= |b|
  {
    assert b == a + (b - a);
  }

  ghost predicate Distinct<T>(s: seq<T>) {
    forall i, j :: 0 <= i < j < |s| ==> s[i] != s[j]
  }
}

/** The byte-wise order of strings, and what a common prefix does to it. */
module Strings {
  import opened Orders

  predicate Lt(a: string, b: string) {
    if b == "" then false
    else if a == "" then true
    else a[0] < b[0] || (a[0] == b[0] && Lt(a[1..], b[1..]))
  }

  lemma {:induction false} LtIrreflexive(a: string)
    ensures !Lt(a, a)
  {
    if a != "" { LtIrreflexive(a[1..]); }
  }

  lemma {:induction false} LtTotal(a: string, b: string)
    ensures a == b || Lt(a, b) || Lt(b, a)
  {
    if a != "" && b != "" && a[0] == b[0] {
      LtTotal(a[1..], b[1..]);
      assert a == [a[0]] + a[1..] && b == [b[0]] + b[1..];
    }
  }

  lemma {:induction false} LtTransitive(a: string, b: string, c: string)
    requires Lt(a, b) && Lt(b, c)
    ensures Lt(a, c)
  {
    if a != "" && a[0] == b[0] == c[0] {
      LtTransitive(a[1..], b[1..], c[1..]);
    }
  }

  lemma LtAsymmetric(a: string, b: string)
    ensures Lt(a, b) ==> !Lt(b, a)
  {
    LtIrreflexive(a);
    if Lt(a, b) && Lt(b, a) { LtTransitive(a, b, a); }
  }

  lemma LtStrictTotal()
    ensures StrictTotal(Lt)
  {
    forall x: string ensures !Lt(x, x) { LtIrreflexive(x); }
    forall x: string, y: string ensures x == y || Lt(x, y) || Lt(y, x) { LtTotal(x, y); }
    forall x: string, y: string, z: string | Lt(x, y) && Lt(y, z) ensures Lt(x, z) { LtTransitive(x, y, z); }
  }

  /** `a` and `b` agree on `n` characters, and there `a` ends or has the
      smaller one. */
  ghost predicate PartAt(a: string, b: string, n: nat) {
    n <= |a| && n < |b| && a[..n] == b[..n] && (n == |a| || a[n] < b[n])
  }

  lemma {:induction false} LtIff(a: string, b: string)
    ensures Lt(a, b) <==> exists n :: PartAt(a, b, n)
    decreases |a|
  {
    if a != "" && b != "" && a[0] == b[0] {
      LtIff(a[1..], b[1..]);
      if n: nat :| PartAt(a[1..], b[1..], n) {
        assert a[..n + 1] == [a[0]] + a[1..][..n] && b[..n + 1] == [b[0]] + b[1..][..n];
        assert PartAt(a, b, n + 1);
      }
      forall n: nat | PartAt(a, b, n) ensures Lt(a, b) {
        if n > 0 {
          assert a[1..][..n - 1] == a[..n][1..] && b[1..][..n - 1] == b[..n][1..];
          assert PartAt(a[1..], b[1..], n - 1);
        }
      }
    } else if a != "" && b != "" {
      forall n: nat | 0 < n <= |a| && n < |b| ensures a[..n] != b[..n] {
        assert a[..n][0] == a[0] && b[..n][0] == b[0];
      }
      assert a[0] < b[0] ==> PartAt(a, b, 0);
    } else if b != "" {
      assert PartAt(a, b, 0);
    }
  }

  lemma {:induction false} LtUnderPrefix(p: string, a: string, b: string)
    ensures Lt(p + a, p + b) <==> Lt(a, b)
  {
    if p == "" {
      assert p + a == a && p + b == b;
    } else {
      assert (p + a)[1..] == p[1..] + a && (p + b)[1..] == p[1..] + b;
      LtUnderPrefix(p[1..], a, b);
    }
  }

  /** A string that a prefix does not begin compares with everything under that
      prefix as it does with the prefix. */
  lemma {:induction false} LtDecidedByPrefix(p: string, c: string, k: string)
    requires !(p <= c)
    ensures Lt(c, p + k) <==> Lt(c, p)
  {
    assert (p + k)[0] == p[0] && (p + k)[1..] == p[1..] + k;
    if c != "" && c[0] == p[0] {
      assert p == [p[0]] + p[1..] && c == [c[0]] + c[1..];
      LtDecidedByPrefix(p[1..], c[1..], k);
    }
  }
}

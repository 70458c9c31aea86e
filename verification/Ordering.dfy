/**
 Strict total orders and the ascending enumeration of a finite set, the order in
 which a Rust `BTreeMap`, `BTreeSet` or a redb table is iterated.
 */
module Ordering {

  ghost predicate StrictTotal<T(!new)>(lt: (T, T) -> bool) {
    && (forall x :: !lt(x, x))
    && (forall x, y, z :: lt(x, y) && lt(y, z) ==> lt(x, z))
    && (forall x, y :: x == y || lt(x, y) || lt(y, x))
  }

  ghost predicate Ascending<T(!new)>(xs: seq<T>, lt: (T, T) -> bool) {
    forall i, j :: 0 <= i < j < |xs| ==> lt(xs[i], xs[j])
  }

  ghost predicate IsLeast<T>(m: T, s: set<T>, lt: (T, T) -> bool) {
    m in s && forall x :: x in s && x != m ==> lt(m, x)
  }

  lemma {:induction false} LeastExists<T(!new)>(s: set<T>, lt: (T, T) -> bool)
    requires StrictTotal(lt) && s != {}
    ensures exists m :: IsLeast(m, s, lt)
  {
    var x :| x in s;
    if s == {x} {
      assert IsLeast(x, s, lt);
    } else {
      LeastExists(s - {x}, lt);
      var m :| IsLeast(m, s - {x}, lt);
      if lt(x, m) {
        assert forall y :: y in s && y != x ==> y in s - {x} && (y == m || lt(m, y));
        assert IsLeast(x, s, lt);
      } else {
        assert IsLeast(m, s, lt);
      }
    }
  }

  function Least<T(!new,==)>(s: set<T>, lt: (T, T) -> bool): (m: T)
    requires StrictTotal(lt) && s != {}
    ensures IsLeast(m, s, lt)
  {
    LeastExists(s, lt);
    var m :| m in s && forall x :: x in s && x != m ==> lt(m, x);
    m
  }

  /** The elements of `s` in ascending order. */
  function Sorted<T(!new,==)>(s: set<T>, lt: (T, T) -> bool): (xs: seq<T>)
    requires StrictTotal(lt)
    ensures Ascending(xs, lt)
    ensures forall x :: x in xs <==> x in s
    ensures |xs| == |s|
  {
    if s == {} then [] else
      var m := Least(s, lt);
      var rest := Sorted(s - {m}, lt);
      assert forall x :: x in rest ==> lt(m, x);
      [m] + rest
  }

  lemma NonEmptyHasMember<T>(xs: seq<T>)
    ensures xs != [] ==> exists x :: x in xs
  {
    if xs != [] { assert xs[0] in xs; }
  }

  /** There is only one ascending enumeration of a set. */
  lemma {:induction false} AscendingUnique<T(!new)>(xs: seq<T>, ys: seq<T>, lt: (T, T) -> bool)
    requires StrictTotal(lt) && Ascending(xs, lt) && Ascending(ys, lt)
    requires forall x :: x in xs <==> x in ys
    ensures xs == ys
  {
    if xs == [] {
      NonEmptyHasMember(ys);
    } else {
      assert xs[0] in xs;
      assert xs[0] in ys;
      assert ys[0] in xs;
      assert xs[0] == ys[0];
      forall x ensures x in xs[1..] <==> x in ys[1..] {
        if x in xs[1..] { assert x in ys && x != ys[0]; }
        if x in ys[1..] { assert x in xs && x != xs[0]; }
      }
      AscendingUnique(xs[1..], ys[1..], lt);
    }
  }

  predicate NatLess(a: nat, b: nat) { a < b }

  /** Lexicographic order on code points, which is also the order of the UTF-8 bytes. */
  predicate StrLess(a: string, b: string) {
    |b| > 0 && (|a| == 0 || a[0] < b[0] || (a[0] == b[0] && StrLess(a[1..], b[1..])))
  }

  lemma {:induction false} StrLessIrreflexive(a: string)
    ensures !StrLess(a, a)
  {
    if a != [] { StrLessIrreflexive(a[1..]); }
  }

  lemma {:induction false} StrLessTransitive(a: string, b: string, c: string)
    requires StrLess(a, b) && StrLess(b, c)
    ensures StrLess(a, c)
  {
    if a != [] && a[0] == b[0] && b[0] == c[0] { StrLessTransitive(a[1..], b[1..], c[1..]); }
  }

  lemma {:induction false} StrLessTotal(a: string, b: string)
    ensures a == b || StrLess(a, b) || StrLess(b, a)
  {
    if a != [] && b != [] && a[0] == b[0] {
      StrLessTotal(a[1..], b[1..]);
      assert a == [a[0]] + a[1..] && b == [b[0]] + b[1..];
    }
  }

  lemma StrLessStrictTotal()
    ensures StrictTotal(StrLess)
  {
    forall a: string { StrLessIrreflexive(a); }
    forall a: string, b: string, c: string | StrLess(a, b) && StrLess(b, c)
      ensures StrLess(a, c)
    {
      StrLessTransitive(a, b, c);
    }
    forall a: string, b: string { StrLessTotal(a, b); }
  }

  /** The strings of a set in `BTreeSet` order. */
  function SortedStrings(s: set<string>): (xs: seq<string>)
    ensures forall x :: x in xs <==> x in s
    ensures Ascending(xs, StrLess)
  {
    StrLessStrictTotal();
    Sorted(s, StrLess)
  }
}

/**
 The canonical bytes of a member set and the digest that breaks ties between two
 contents of one version (src/store.rs, `members_hash`).
 */
module Members {
  import opened Common
  import opened Ordering

  const NUL: char := '\0'

  predicate NulFree(s: string) { NUL !in s }

  ghost predicate AllNulFree(members: set<string>) {
    forall m :: m in members ==> NulFree(m)
  }

  /** Every string followed by NUL, one after the other. */
  ghost function Terminated(xs: seq<string>): string {
    if xs == [] then [] else Terminated(xs[..|xs| - 1]) + xs[|xs| - 1] + [NUL]
  }

  ghost function Encoding(members: set<string>): string {
    Terminated(SortedStrings(members))
  }

  ghost function MembersDigest(env: Env, members: set<string>): nat {
    env.digest(Encoding(members))
  }

  /** Fills a buffer member by member and hashes it. */
  method MembersHash(env: Env, members: set<string>) returns (h: nat)
    ensures h == MembersDigest(env, members)
  {
    hide SortedStrings, Ascending;
    var sorted := SortedStrings(members);
    var buf: string := [];
    for i := 0 to |sorted|
      invariant buf == Terminated(sorted[..i])
    {
      assert sorted[..i + 1][..i] == sorted[..i];
      buf := buf + sorted[i] + [NUL];
    }
    assert sorted[..|sorted|] == sorted;
    h := env.digest(buf);
  }

  /** The text before the final NUL is read back from the last NUL before it. */
  lemma LastBlock(a: string, x: string, b: string, y: string)
    requires NulFree(x) && NulFree(y)
    requires a == [] || a[|a| - 1] == NUL
    requires b == [] || b[|b| - 1] == NUL
    requires a + x == b + y
    ensures a == b && x == y
  {
    var t := a + x;
    assert forall i :: |a| <= i < |t| ==> t[i] in x;
    assert forall i :: |b| <= i < |t| ==> (b + y)[i] in y;
    assert a != [] ==> t[|a| - 1] == NUL;
    assert b != [] ==> (b + y)[|b| - 1] == NUL;
    assert a == (a + x)[..|a|] && b == (b + y)[..|b|];
    assert x == (a + x)[|a|..] && y == (b + y)[|b|..];
  }

  lemma TerminatedEndsInNul(xs: seq<string>)
    ensures xs == [] <==> Terminated(xs) == []
    ensures Terminated(xs) != [] ==> Terminated(xs)[|Terminated(xs)| - 1] == NUL
  {}

  lemma {:induction false} TerminatedInjective(xs: seq<string>, ys: seq<string>)
    requires forall x :: x in xs || x in ys ==> NulFree(x)
    requires Terminated(xs) == Terminated(ys)
    ensures xs == ys
  {
    TerminatedEndsInNul(xs);
    TerminatedEndsInNul(ys);
    if xs != [] {
      var (a, x) := (xs[..|xs| - 1], xs[|xs| - 1]);
      var (b, y) := (ys[..|ys| - 1], ys[|ys| - 1]);
      var (ta, tb) := (Terminated(a), Terminated(b));
      assert ta + x == Terminated(xs)[..|Terminated(xs)| - 1];
      assert tb + y == Terminated(ys)[..|Terminated(ys)| - 1];
      TerminatedEndsInNul(a);
      TerminatedEndsInNul(b);
      LastBlock(ta, x, tb, y);
      TerminatedInjective(a, b);
      assert xs == a + [x] && ys == b + [y];
    }
  }

  /** Different sets of NUL-free strings have different bytes. */
  lemma EncodingInjective(a: set<string>, b: set<string>)
    requires AllNulFree(a) && AllNulFree(b)
    ensures Encoding(a) == Encoding(b) <==> a == b
  {
    if Encoding(a) == Encoding(b) {
      TerminatedInjective(SortedStrings(a), SortedStrings(b));
      assert forall x :: x in a <==> x in SortedStrings(a);
      assert forall x :: x in b <==> x in SortedStrings(b);
    }
  }

  lemma SortedPair(x: string, y: string)
    requires StrLess(x, y)
    ensures SortedStrings({x, y}) == [x, y]
  {
    StrLessStrictTotal();
    AscendingUnique(SortedStrings({x, y}), [x, y], StrLess);
  }

  lemma SortedSingle(x: string)
    ensures SortedStrings({x}) == [x]
  {
    StrLessStrictTotal();
    AscendingUnique(SortedStrings({x}), [x], StrLess);
  }

  /** The condition is needed: a member containing NUL can imitate two members. */
  lemma NulBreaksEncoding()
    ensures Encoding({"a", "b"}) == Encoding({"a" + [NUL] + "b"})
  {
    SortedPair("a", "b");
    SortedSingle("a" + [NUL] + "b");
    assert ["a", "b"][..1] == ["a"];
    calc {
      Terminated(["a", "b"]);
      Terminated(["a"]) + "b" + [NUL];
      Terminated(["a" + [NUL] + "b"]);
    }
  }
}

/** What the merge of src/store.rs promises on every state. */
module MergeLaws {
  import opened Common
  import opened Authority
  import opened Members
  import opened StoreModel

  /** Entries that only a digest collision could confuse are equal. */
  ghost predicate NoCollision(env: Env, entries: set<Entry>) {
    forall a, b :: a in entries && b in entries && a.Live? && b.Live?
                   && MembersDigest(env, a.members) == MembersDigest(env, b.members)
                   ==> a.members == b.members
  }

  /**
   With members that carry no NUL, it is enough that SHA-256 does not collide on the
   encodings at hand; the order of entries is then strict and total.
   */
  lemma TieBreakDecides(env: Env, entries: set<Entry>, a: Entry, b: Entry, c: Entry)
    requires forall e :: e in entries && e.Live? ==> AllNulFree(e.members)
    requires forall x, y :: x in entries && y in entries && x.Live? && y.Live?
                            && env.digest(Encoding(x.members)) == env.digest(Encoding(y.members))
                            ==> Encoding(x.members) == Encoding(y.members)
    requires a in entries && b in entries
    ensures NoCollision(env, entries)
    ensures a == b || Before(env, a, b) || Before(env, b, a)
    ensures !(Before(env, a, b) && Before(env, b, a))
    ensures Before(env, a, b) && Before(env, b, c) ==> Before(env, a, c)
  {
    forall x, y | x in entries && y in entries && x.Live? && y.Live?
                  && MembersDigest(env, x.members) == MembersDigest(env, y.members)
      ensures x.members == y.members
    {
      EncodingInjective(x.members, y.members);
    }
  }

  lemma BeforeTransitive(env: Env, a: Entry, b: Entry, c: Entry)
    requires !Before(env, b, a) && !Before(env, a, c)
    ensures !Before(env, b, c)
  {}

  lemma NoCollisionTotal(env: Env, entries: set<Entry>, a: Entry, b: Entry)
    requires NoCollision(env, entries) && a in entries && b in entries
    requires !Before(env, a, b) && !Before(env, b, a)
    ensures a == b
  {}

  // ---------------------------------------------------------------- one cell

  /** A merge takes the effective value to the join with the incoming entry. */
  lemma MergeIsJoin(env: Env, c: Cell, e: Entry)
    ensures Effective(MergeCell(env, c, e)) == Join(env, Effective(c), e)
  {}

  /**
   The rules of a merge in plain terms, versions counting as 0 where nothing is held. A deletion replaces what is held
   unless it is older than the live entry or the tombstone, or repeats a tombstone with nothing live beside it. A live
   entry must be newer than the tombstone, and newer than the live one or as new with the greater digest.
   */
  lemma MergeRules(env: Env, c: Cell, v: u64, ms: set<string>)
    ensures var current := if c.live.Some? then c.live.value.version else 0;
            var tombstone := if c.tomb.Some? then c.tomb.value else 0;
            && MergeCell(env, c, Tomb(v))
               == (if v < current || v < tombstone || (c.live.None? && v == tombstone) then c else Cell(None, Some(v)))
            && MergeCell(env, c, Live(v, ms))
               == (if v > tombstone
                      && (|| v > current
                          || (v == current && MembersDigest(env, c.live.value.members) < MembersDigest(env, ms)))
                   then Cell(Some(ServiceState(v, ms)), None) else c)
  {}

  /** The cell changes exactly when the entry supersedes it. */
  lemma MergeChanges(env: Env, c: Cell, e: Entry)
    ensures MergeCell(env, c, e) != c <==> Supersedes(env, c, e)
  {}

  /** Order, grouping and repetition do not matter to the join of collision-free entries. */
  lemma JoinLaws(env: Env, a: Entry, b: Entry, c: Entry)
    ensures Join(env, a, a) == a
    ensures Join(env, Join(env, a, b), c) == Join(env, a, Join(env, b, c))
    ensures Join(env, Join(env, a, b), b) == Join(env, a, b)
    ensures NoCollision(env, {a, b}) ==> Join(env, a, b) == Join(env, b, a)
  {
    if NoCollision(env, {a, b}) && !Before(env, a, b) && !Before(env, b, a) {
      NoCollisionTotal(env, {a, b}, a, b);
    }
  }

  // ---------------------------------------------------------------- merges only move forward

  ghost predicate CellLeq(env: Env, c: Cell, d: Cell) {
    || c == d
    || Before(env, Effective(c), Effective(d))
    || (Effective(c) == Effective(d) && c.live.Some? && d.live.None?)
  }

  ghost predicate SnapLeq(env: Env, s: Snapshot, t: Snapshot) {
    && s.network == t.network
    && s.indexVersion <= t.indexVersion
    && forall n :: CellLeq(env, CellOf(s, n), CellOf(t, n))
  }

  lemma SnapEqual(s: Snapshot, t: Snapshot)
    requires s.network == t.network && s.indexVersion == t.indexVersion
    requires forall n :: CellOf(s, n) == CellOf(t, n)
    ensures s == t
  {
    forall n ensures n in s.services <==> n in t.services { assert CellOf(s, n) == CellOf(t, n); }
    forall n ensures n in s.tombstones <==> n in t.tombstones { assert CellOf(s, n) == CellOf(t, n); }
    forall n | n in s.services ensures s.services[n] == t.services[n] { assert CellOf(s, n) == CellOf(t, n); }
    forall n | n in s.tombstones ensures s.tombstones[n] == t.tombstones[n] { assert CellOf(s, n) == CellOf(t, n); }
    assert s.services == t.services && s.tombstones == t.tombstones;
  }

  lemma CellLeqTransitive(env: Env, a: Cell, b: Cell, c: Cell)
    requires CellLeq(env, a, b) && CellLeq(env, b, c)
    ensures CellLeq(env, a, c)
  {}

  lemma SnapLeqTransitive(env: Env, a: Snapshot, b: Snapshot, c: Snapshot)
    requires SnapLeq(env, a, b) && SnapLeq(env, b, c)
    ensures SnapLeq(env, a, c)
  {
    forall n ensures CellLeq(env, CellOf(a, n), CellOf(c, n)) {
      CellLeqTransitive(env, CellOf(a, n), CellOf(b, n), CellOf(c, n));
    }
  }

  lemma SnapLeqAntisymmetric(env: Env, a: Snapshot, b: Snapshot)
    requires SnapLeq(env, a, b) && SnapLeq(env, b, a)
    ensures a == b
  {
    forall n ensures CellOf(a, n) == CellOf(b, n) {
      assert CellLeq(env, CellOf(a, n), CellOf(b, n)) && CellLeq(env, CellOf(b, n), CellOf(a, n));
    }
    SnapEqual(a, b);
  }

  lemma MergeOneForward(env: Env, s: Snapshot, name: string, e: Entry, index: u64)
    ensures SnapLeq(env, s, MergeOne(env, s, name, e, index))
    ensures MergeOne(env, s, name, e, index) != s <==>
              Supersedes(env, CellOf(s, name), e) || index > s.indexVersion
  {
    var c := CellOf(s, name);
    var t := MergeOne(env, s, name, e, index);
    MergeIsJoin(env, c, e);
    MergeChanges(env, c, e);
    forall n ensures CellOf(t, n) == if n == name then MergeCell(env, c, e) else CellOf(s, n) {
      WithCellFrame(s, name, MergeCell(env, c, e), n);
    }
    WithCellFrame(s, name, c, name);
  }

  lemma {:induction false} MergeAllForward(env: Env, s: Snapshot, es: seq<Named>, index: u64)
    ensures SnapLeq(env, s, MergeAll(env, s, es, index))
  {
    if es != [] {
      var prefix := es[..|es| - 1];
      var t := MergeAll(env, s, prefix, index);
      var last := es[|es| - 1];
      MergeAllForward(env, s, prefix, index);
      MergeOneForward(env, t, last.0, last.1, index);
      SnapLeqTransitive(env, s, t, MergeAll(env, s, es, index));
    }
  }

  // ---------------------------------------------------------------- many entries

  /** `m` is one of `start` and the entries for `name`, and none of them is after it. */
  ghost predicate IsMaxOf(env: Env, m: Entry, start: Entry, es: seq<Named>, name: string) {
    && (m == start || (name, m) in es)
    && !Before(env, m, start)
    && forall e :: (name, e) in es ==> !Before(env, m, e)
  }

  /** After any merges, each service stands at the maximum of where it was and what came in. */
  lemma {:induction false} MergeAllIsMax(env: Env, s: Snapshot, es: seq<Named>, index: u64, name: string)
    ensures IsMaxOf(env, Effective(CellOf(MergeAll(env, s, es, index), name)), Effective(CellOf(s, name)), es, name)
    ensures es != [] ==> MergeAll(env, s, es, index).indexVersion == Max(s.indexVersion, index)
    ensures MergeAll(env, s, es, index).network == s.network
  {
    if es != [] {
      var prefix := es[..|es| - 1];
      var t := MergeAll(env, s, prefix, index);
      var last := es[|es| - 1];
      MergeAllIsMax(env, s, prefix, index, name);
      MergeOneEffective(env, t, last.0, last.1, index, name);
      MaxExtends(env, Effective(CellOf(t, name)), Effective(CellOf(s, name)), prefix, last, name);
      assert es == prefix + [last];
    }
  }

  lemma MergeOneEffective(env: Env, t: Snapshot, n: string, e: Entry, index: u64, name: string)
    ensures Effective(CellOf(MergeOne(env, t, n, e, index), name))
            == if n == name then Join(env, Effective(CellOf(t, name)), e) else Effective(CellOf(t, name))
  {
    WithCellFrame(t, n, MergeCell(env, CellOf(t, n), e), name);
    MergeIsJoin(env, CellOf(t, n), e);
  }

  lemma MaxExtends(env: Env, m: Entry, start: Entry, prefix: seq<Named>, last: Named, name: string)
    requires IsMaxOf(env, m, start, prefix, name)
    ensures IsMaxOf(env, if last.0 == name then Join(env, m, last.1) else m, start, prefix + [last], name)
  {
    assert forall e :: (name, e) in prefix + [last] <==> (name, e) in prefix || (name, e) == last;
  }

  ghost function EntriesFor(es: seq<Named>, name: string): set<Entry> {
    set p | p in es && p.0 == name :: p.1
  }

  /** The order, the batching and the repetition of merged entries never matter to the effective values. */
  lemma MergeOrderIrrelevant(env: Env, s: Snapshot, es: seq<Named>, fs: seq<Named>, i: u64, j: u64, name: string)
    requires forall p :: p in es <==> p in fs
    requires NoCollision(env, EntriesFor(es, name) + {Effective(CellOf(s, name))})
    ensures Effective(CellOf(MergeAll(env, s, es, i), name)) == Effective(CellOf(MergeAll(env, s, fs, j), name))
  {
    MergeAllIsMax(env, s, es, i, name);
    MergeAllIsMax(env, s, fs, j, name);
    var a := Effective(CellOf(MergeAll(env, s, es, i), name));
    var b := Effective(CellOf(MergeAll(env, s, fs, j), name));
    var all := EntriesFor(es, name) + {Effective(CellOf(s, name))};
    assert a in all by { if (name, a) in es { assert (name, a).1 in EntriesFor(es, name); } }
    assert b in all by { if (name, b) in es { assert (name, b).1 in EntriesFor(es, name); } }
    NoCollisionTotal(env, all, a, b);
  }

  /** Merging a whole snapshot joins its effective values in. */
  lemma SnapshotMergeIsJoin(env: Env, s: Snapshot, other: Snapshot, name: string)
    requires NoCollision(env, {Effective(CellOf(s, name)), Effective(CellOf(other, name))})
    ensures Effective(CellOf(MergeAll(env, s, EntriesOf(other), other.indexVersion), name))
            == Join(env, Effective(CellOf(s, name)), Effective(CellOf(other, name)))
  {
    hide EntriesOf, MergeAll;
    var es := EntriesOf(other);
    MergeAllIsMax(env, s, es, other.indexVersion, name);
    var m := Effective(CellOf(MergeAll(env, s, es, other.indexVersion), name));
    var a := Effective(CellOf(s, name));
    var b := Effective(CellOf(other, name));
    EntriesOfMembership(other, name, m);
    EntriesOfMembership(other, name, b);
    forall e | (name, e) in es ensures !Before(env, b, e) { EntriesOfMembership(other, name, e); }
    assert m == a || m == b || Before(env, m, b);
    if !Before(env, a, b) && !Before(env, b, a) {
      NoCollisionTotal(env, {a, b}, a, b);
    }
  }

  /** A name held live at or below its own tombstone: only a re-creation makes one. */
  ghost predicate Shadowed(s: Snapshot, n: string) {
    n in s.services && n in s.tombstones && s.services[n].version <= s.tombstones[n]
  }

  /**
   Merging one's own snapshot changes nothing, unless some service is live at or below
   its own tombstone; then it is deleted. Disjoint services and tombstones are safe.
   */
  lemma SelfMerge(env: Env, s: Snapshot)
    ensures MergeAll(env, s, EntriesOf(s), s.indexVersion) == s <==> forall n :: !Shadowed(s, n)
  {
    if n :| Shadowed(s, n) {
      OwnTombstoneSupersedes(env, s, n);
      NewsChanges(env, s, EntriesOf(s), n, Tomb(s.tombstones[n]));
    } else {
      forall n, e | (n, e) in EntriesOf(s) ensures !Supersedes(env, CellOf(s, n), e) {
        OwnEntryIsOld(env, s, n, e);
      }
      NothingNew(env, s, EntriesOf(s));
    }
  }

  lemma OwnEntryIsOld(env: Env, s: Snapshot, n: string, e: Entry)
    requires (n, e) in EntriesOf(s) && !Shadowed(s, n)
    ensures !Supersedes(env, CellOf(s, n), e)
  {
    EntriesOfMembership(s, n, e);
  }

  lemma OwnTombstoneSupersedes(env: Env, s: Snapshot, n: string)
    requires Shadowed(s, n)
    ensures (n, Tomb(s.tombstones[n])) in EntriesOf(s)
    ensures Supersedes(env, CellOf(s, n), Tomb(s.tombstones[n]))
  {
    EntriesOfMembership(s, n, Tomb(s.tombstones[n]));
  }

  /** One superseding entry anywhere in the list makes the merged snapshot differ. */
  lemma NewsChanges(env: Env, s: Snapshot, es: seq<Named>, n: string, e: Entry)
    requires (n, e) in es && Supersedes(env, CellOf(s, n), e)
    ensures MergeAll(env, s, es, s.indexVersion) != s
  {
    var i :| 0 <= i < |es| && es[i] == (n, e);
    var before := MergeAll(env, s, es[..i], s.indexVersion);
    var after := MergeAll(env, s, es[..i + 1], s.indexVersion);
    var all := MergeAll(env, s, es, s.indexVersion);
    assert es[..i + 1][..i] == es[..i];
    MergeAllForward(env, s, es[..i], s.indexVersion);
    MergeOneForward(env, before, n, e, s.indexVersion);
    MergeSplit(env, s, es, i + 1, s.indexVersion);
    MergeAllForward(env, after, es[i + 1..], s.indexVersion);
    SnapLeqTransitive(env, before, after, all);
    if all == s {
      SnapLeqAntisymmetric(env, s, before);
      SnapLeqAntisymmetric(env, after, all);
      assert false;
    }
  }

  lemma {:induction false} NothingNew(env: Env, s: Snapshot, es: seq<Named>)
    requires forall n, e :: (n, e) in es ==> !Supersedes(env, CellOf(s, n), e)
    ensures MergeAll(env, s, es, s.indexVersion) == s
  {
    if es != [] {
      var last := es[|es| - 1];
      assert (last.0, last.1) in es;
      NothingNew(env, s, es[..|es| - 1]);
      MergeOneForward(env, s, last.0, last.1, s.indexVersion);
    }
  }

  lemma {:induction false} MergeSplit(env: Env, s: Snapshot, es: seq<Named>, k: nat, index: u64)
    requires k <= |es|
    ensures MergeAll(env, s, es, index) == MergeAll(env, MergeAll(env, s, es[..k], index), es[k..], index)
  {
    if k == |es| {
      assert es[..k] == es;
    } else {
      MergeSplit(env, s, es[..|es| - 1], k, index);
      assert es[..|es| - 1][..k] == es[..k];
      assert es[k..][..|es[k..]| - 1] == es[..|es| - 1][k..];
    }
  }

  // ---------------------------------------------------------------- local operations against the order

  /** A created service counts only where no tombstone is held: an old deletion still covers it. */
  lemma CreateCountsIff(env: Env, s: Snapshot, name: string, peers: seq<string>)
    requires Refusal(env, s, CreateService(name, peers)).None?
    ensures Effective(CellOf(Perform(env, s, CreateService(name, peers)), name)) == Live(1, ToSet(peers))
            <==> TombOf(CellOf(s, name)) == Tomb(0)
  {}

  /** A deletion moves a service forward exactly when its new tombstone reaches the one held without wrapping. */
  lemma DeleteForwardIff(env: Env, s: Snapshot, name: string)
    requires name in s.services
    ensures !Before(env, Effective(CellOf(Perform(env, s, DeleteService(name)), name)), Effective(CellOf(s, name)))
            <==> TombOf(CellOf(s, name)).version <= s.services[name].version + 1 <= U64_MAX
  {}

  /** Deleting, re-creating and deleting again takes a service backwards: its tombstone falls from 7 to 2. */
  lemma RecreateLowersTombstone(env: Env)
    ensures var dead := Snapshot("net", 1, map[], map["svc" := 7]);
            var recreated := Perform(env, dead, CreateService("svc", []));
            var again := Perform(env, recreated, DeleteService("svc"));
            && Effective(CellOf(recreated, "svc")) == Tomb(7)
            && Effective(CellOf(again, "svc")) == Tomb(2)
  {
    assert IsValidServiceName("svc");
  }
}

/** What the publisher promises over rounds and over a whole process (src/publisher.rs). */
module PublisherLaws {
  import opened Common
  import opened Ordering
  import opened Authority
  import opened StoreModel
  import opened PolicyModel
  import opened PolicyEpochs
  import opened Publisher
  import RaftStorage

  // ---------------------------------------------------------------- epoch fencing over a process

  datatype Input = Input(renew: bool, world: World)

  datatype History = History(last: Option<u64>, sent: seq<Sent>)

  /** Rounds hold a lock, so a process is a sequence of rounds, whoever asked for each. */
  function Process(signer: Signer, inputs: seq<Input>): History {
    if inputs == [] then History(None, []) else
      var h := Process(signer, inputs[..|inputs| - 1]);
      var x := inputs[|inputs| - 1];
      var r := RaftRound(signer, h.last, x.renew, x.world);
      History(r.last, h.sent + r.sends)
  }

  ghost predicate Carry(sends: seq<Sent>, item: Item) {
    forall i :: 0 <= i < |sends| ==> sends[i].item == item
  }

  lemma CarryConcat(a: seq<Sent>, b: seq<Sent>, item: Item)
    requires Carry(a, item) && Carry(b, item)
    ensures Carry(a + b, item)
  {}

  lemma {:induction false} AttemptsCarryItem(w: World, k: nat, c: u64, item: Item, a: nat)
    requires a <= PUBLISH_ATTEMPTS
    ensures Carry(Attempts(w, k, c, item, a), item)
    decreases PUBLISH_ATTEMPTS - a
  {
    if a < PUBLISH_ATTEMPTS {
      var first := [Sent(c, item, w.acks(k, c, a))];
      assert Carry(first, item);
      assert first + [] == first;
      hide Carry;
      AttemptsCarryItem(w, k, c, item, a + 1);
      CarryConcat(first, Attempts(w, k, c, item, a + 1), item);
    }
  }

  lemma {:induction false} SendsCarryItem(w: World, k: nat, item: Item, cs: seq<u64>)
    ensures Carry(SendsTo(w, k, item, cs), item)
  {
    if cs != [] {
      hide Attempts, Carry;
      SendsCarryItem(w, k, item, cs[..|cs| - 1]);
      AttemptsCarryItem(w, k, cs[|cs| - 1], item, 0);
      CarryConcat(SendsTo(w, k, item, cs[..|cs| - 1]), Attempts(w, k, cs[|cs| - 1], item, 0), item);
    }
  }

  lemma {:induction false} WhitelistSendsCarryItems(w: World, items: seq<Item>)
    ensures forall s :: s in WhitelistSends(w, items) ==> s.item in items
  {
    if items != [] {
      var n := |items| - 1;
      WhitelistSendsCarryItems(w, items[..n]);
      SendsCarryItem(w, n, items[n], w.clients(n));
    }
  }

  /** The remembered epoch does not fall, and an index sent in the round carries it. */
  lemma RoundFenced(signer: Signer, last: Option<u64>, renew: bool, w: World)
    ensures var r := RaftRound(signer, last, renew, w);
            && (last.Some? ==> r.last.Some? && last.value <= r.last.value)
            && forall s :: s in r.sends && s.item.doc.Index? ==> r.last == Some(s.item.doc.index.version)
  {
    hide SortedStrings, SendsTo, WhitelistSends, Everywhere, AllEverywhere;
    var st := SourceState(renew, w);
    var items := AllItems(signer, st.services);
    if items.Some? {
      WhitelistSendsCarryItems(w, items.value);
      var index := IndexItem(signer, st, items.value);
      if index.Some? {
        SendsCarryItem(w, |items.value|, index.value, w.clients(|items.value|));
      }
    }
  }

  ghost predicate Fenced(h: History) {
    && (forall i :: 0 <= i < |h.sent| && h.sent[i].item.doc.Index? ==>
          h.last.Some? && h.sent[i].item.doc.index.version <= h.last.value)
    && (forall i, j :: 0 <= i < j < |h.sent| && h.sent[i].item.doc.Index? && h.sent[j].item.doc.Index? ==>
          h.sent[i].item.doc.index.version <= h.sent[j].item.doc.index.version)
  }

  /**
   Over any process, across failures, retries, lost leadership and requested publications: every
   index document carries an epoch at least that of every index sent before it.
   */
  lemma {:induction false} ProcessFenced(signer: Signer, inputs: seq<Input>)
    ensures Fenced(Process(signer, inputs))
  {
    if inputs != [] {
      ProcessFenced(signer, inputs[..|inputs| - 1]);
      var h := Process(signer, inputs[..|inputs| - 1]);
      var x := inputs[|inputs| - 1];
      hide RaftRound;
      RoundFenced(signer, h.last, x.renew, x.world);
      FencedExtends(h, RaftRound(signer, h.last, x.renew, x.world));
    }
  }

  lemma FencedExtends(h: History, r: Round)
    requires Fenced(h)
    requires h.last.Some? ==> r.last.Some? && h.last.value <= r.last.value
    requires forall s :: s in r.sends && s.item.doc.Index? ==> r.last == Some(s.item.doc.index.version)
    ensures Fenced(History(r.last, h.sent + r.sends))
  {
    var all := h.sent + r.sends;
    forall i | 0 <= i < |all|
      ensures if i < |h.sent| then all[i] == h.sent[i] else all[i] == r.sends[i - |h.sent|] && all[i] in r.sends
    {}
  }

  /** `last_publish_epoch` never decreases while the process runs. */
  lemma {:induction false} LastEpochMonotone(signer: Signer, inputs: seq<Input>, m: nat)
    requires m <= |inputs| && Process(signer, inputs[..m]).last.Some?
    ensures Process(signer, inputs).last.Some?
    ensures Process(signer, inputs[..m]).last.value <= Process(signer, inputs).last.value
  {
    if m == |inputs| {
      assert inputs[..m] == inputs;
    } else {
      var prefix := inputs[..|inputs| - 1];
      assert prefix[..m] == inputs[..m];
      LastEpochMonotone(signer, prefix, m);
      var x := inputs[|inputs| - 1];
      RoundFenced(signer, Process(signer, prefix).last, x.renew, x.world);
      hide RaftRound;
    }
  }

  // ---------------------------------------------------------------- a published round is self-consistent

  /** The record the node behind connection `c` last acknowledged under `key`. */
  function LastAcked(sent: seq<Sent>, c: u64, key: string): Option<Item> {
    if sent == [] then None else
      var s := sent[|sent| - 1];
      if s.acked && s.conn == c && s.item.key == key then Some(s.item) else LastAcked(sent[..|sent| - 1], c, key)
  }

  lemma {:induction false} LastAckedConcat(a: seq<Sent>, b: seq<Sent>, c: u64, key: string)
    ensures LastAcked(a + b, c, key) == if LastAcked(b, c, key).Some? then LastAcked(b, c, key)
      else LastAcked(a, c, key)
  {
    if b == [] {
      assert a + b == a;
    } else {
      assert (a + b)[..|a + b| - 1] == a + b[..|b| - 1];
      LastAckedConcat(a, b[..|b| - 1], c, key);
    }
  }

  lemma {:induction false} AttemptsAcked(w: World, k: nat, conn: u64, item: Item, a: nat, c: u64, key: string)
    requires a <= PUBLISH_ATTEMPTS
    ensures LastAcked(Attempts(w, k, conn, item, a), c, key) ==
            if conn == c && item.key == key && (exists b :: a <= b < PUBLISH_ATTEMPTS && w.acks(k, c, b))
              then Some(item) else None
    decreases PUBLISH_ATTEMPTS - a
  {
    if a < PUBLISH_ATTEMPTS {
      var first := [Sent(conn, item, w.acks(k, conn, a))];
      assert first[..0] == [];
      if w.acks(k, conn, a) {
        assert Attempts(w, k, conn, item, a) == first;
      } else {
        var rest := Attempts(w, k, conn, item, a + 1);
        AttemptsAcked(w, k, conn, item, a + 1, c, key);
        LastAckedConcat(first, rest, c, key);
        assert LastAcked(first, c, key) == None;
        if conn == c && (exists b :: a <= b < PUBLISH_ATTEMPTS && w.acks(k, c, b)) {
          var b :| a <= b < PUBLISH_ATTEMPTS && w.acks(k, c, b);
          assert a + 1 <= b;
        }
      }
    }
  }

  lemma AttemptsDelivered(w: World, k: nat, conn: u64, item: Item, c: u64, key: string)
    ensures LastAcked(Attempts(w, k, conn, item, 0), c, key) ==
            if conn == c && item.key == key && Delivered(w, k, c) then Some(item) else None
  {
    AttemptsAcked(w, k, conn, item, 0, c, key);
  }

  lemma {:induction false} SendsAcked(w: World, k: nat, item: Item, cs: seq<u64>, c: u64, key: string)
    ensures LastAcked(SendsTo(w, k, item, cs), c, key) ==
            if c in cs && item.key == key && Delivered(w, k, c) then Some(item) else None
  {
    if cs != [] {
      hide LastAcked, Attempts, Delivered;
      var prefix := cs[..|cs| - 1];
      var conn := cs[|cs| - 1];
      AttemptsDelivered(w, k, conn, item, c, key);
      SendsAcked(w, k, item, prefix, c, key);
      LastAckedConcat(SendsTo(w, k, item, prefix), Attempts(w, k, conn, item, 0), c, key);
      assert cs == prefix + [conn];
    }
  }

  ghost predicate DistinctKeys(items: seq<Item>) {
    forall i, j :: 0 <= i < j < |items| ==> items[i].key != items[j].key
  }

  lemma {:induction false} WhitelistsAcked(w: World, items: seq<Item>, c: u64, i: nat)
    requires DistinctKeys(items) && AllEverywhere(w, |items|)
    requires i < |items| && c in w.clients(i)
    ensures LastAcked(WhitelistSends(w, items), c, items[i].key) == Some(items[i])
  {
    hide SendsTo, LastAcked, Delivered;
    var n := |items| - 1;
    var prefix := items[..n];
    SendsAcked(w, n, items[n], w.clients(n), c, items[i].key);
    LastAckedConcat(WhitelistSends(w, prefix), SendsTo(w, n, items[n], w.clients(n)), c, items[i].key);
    if i < n {
      WhitelistsAcked(w, prefix, c, i);
    } else {
      assert Everywhere(w, n);
    }
  }

  /** Signed whitelists are stored under the keys of their own services, never under that of the index. */
  lemma ItemKeys(signer: Signer, services: map<string, ServiceState>)
    requires AllItems(signer, services).Some?
    ensures var items := AllItems(signer, services).value;
            var names := SortedStrings(services.Keys);
            && |items| == |names|
            && DistinctKeys(items)
            && forall i :: 0 <= i < |items| ==>
                 && ServiceKey(signer.netHash, names[i]) == Some(items[i].key)
                 && items[i].key != IndexKey(signer.netHash)
                 && items[i].doc == Whitelist(names[i],
                   WhitelistDoc(services[names[i]].version, SortedStrings(services[names[i]].members)))
  {
    var items := AllItems(signer, services).value;
    var names := SortedStrings(services.Keys);
    hide SortedStrings;
    forall i | 0 <= i < |items|
      ensures ServiceKey(signer.netHash, names[i]) == Some(items[i].key)
      ensures items[i].key != IndexKey(signer.netHash)
      ensures items[i].doc
        == Whitelist(names[i], WhitelistDoc(services[names[i]].version, SortedStrings(services[names[i]].members)))
    {
      assert ItemFor(signer, services, names[i]) == Some(items[i]);
      KeysDisjoint(signer.netHash, names[i], names[i]);
    }
    StrLessStrictTotal();
    forall i, j | 0 <= i < j < |items| ensures items[i].key != items[j].key {
      assert StrLess(names[i], names[j]);
      KeysDisjoint(signer.netHash, names[i], names[j]);
    }
  }

  /** Connection `c` was registered at every publish call of a round over `n` services. */
  ghost predicate RegisteredThroughout(w: World, n: nat, c: u64) {
    forall k :: 0 <= k <= n ==> c in w.clients(k)
  }

  /** Node `c` last acknowledged the whitelist of `name` of this state, with the hash and length the entry names. */
  ghost predicate HoldsListed(signer: Signer, sent: seq<Sent>, c: u64, st: PolicyState, e: ServiceEntry) {
    && e.name in st.services
    && ServiceKey(signer.netHash, e.name).Some?
    && var held := LastAcked(sent, c, ServiceKey(signer.netHash, e.name).value);
       && held.Some?
       && held.value.doc
         == Whitelist(e.name, WhitelistDoc(st.services[e.name].version, SortedStrings(st.services[e.name].members)))
       && signer.hash(held.value.value) == e.hash
       && |held.value.value| == e.length
  }

  /**
   Node `c` last acknowledged an index for the epoch and expiry of `st` that lists exactly its services, and
   under each listed service key the whitelist with the listed hash and length.
   */
  ghost predicate ConsistentAt(signer: Signer, sent: seq<Sent>, c: u64, st: PolicyState) {
    var held := LastAcked(sent, c, IndexKey(signer.netHash));
    && held.Some? && held.value.doc.Index?
    && var index := held.value.doc.index;
       && index.version == st.policyEpoch
       && index.expiresAt == st.indexExpiresAt
       && |index.services| == |SortedStrings(st.services.Keys)|
       && forall i :: 0 <= i < |index.services| ==>
            && index.services[i].name == SortedStrings(st.services.Keys)[i]
            && HoldsListed(signer, sent, c, st, index.services[i])
  }

  /**
   When a round ends in Published, every node registered throughout it is left consistent, whatever was sent
   before.
   */
  lemma PublishedIsConsistent(signer: Signer, last: Option<u64>, renew: bool, w: World, earlier: seq<Sent>, c: u64)
    requires RaftRound(signer, last, renew, w).outcome.Published?
    requires RegisteredThroughout(w, |SourceState(renew, w).services|, c)
    ensures var st := SourceState(renew, w);
            var r := RaftRound(signer, last, renew, w);
            && r.outcome == Published(st.policyEpoch) && r.last == Some(st.policyEpoch)
            && ConsistentAt(signer, earlier + r.sends, c, st)
  {
    hide SortedStrings, WhitelistSends, SendsTo, Items, ConsistentAt;
    var st := SourceState(renew, w);
    PublishedSends(signer, last, renew, w);
    SortedStringsCount(st.services.Keys);
    ItemKeys(signer, st.services);
    HeldIsConsistent(signer, w, st, AllItems(signer, st.services).value, earlier, c);
  }

  lemma HeldIsConsistent(signer: Signer, w: World, st: PolicyState, items: seq<Item>, earlier: seq<Sent>, c: u64)
    requires AllItems(signer, st.services) == Some(items)
    requires forall i :: 0 <= i < |items| ==> items[i].doc.Whitelist?
    requires IndexItem(signer, st, items).Some?
    requires AllEverywhere(w, |items|) && Everywhere(w, |items|) && RegisteredThroughout(w, |items|, c)
    ensures ConsistentAt(signer, earlier + (WhitelistSends(w, items)
              + SendsTo(w, |items|, IndexItem(signer, st, items).value, w.clients(|items|))), c, st)
  {
    hide SortedStrings, WhitelistSends, SendsTo, Items, LastAcked, AllEverywhere, Everywhere;
    var index := IndexItem(signer, st, items).value;
    var sent := earlier + (WhitelistSends(w, items) + SendsTo(w, |items|, index, w.clients(|items|)));
    ItemKeys(signer, st.services);
    IndexHeld(w, items, index, earlier, c);
    forall i | 0 <= i < |items| ensures HoldsListed(signer, sent, c, st, index.doc.index.services[i]) {
      WhitelistHeld(w, items, index, earlier, c, i);
    }
  }

  /** A successful round signed everything, and sent all whitelists and then the index everywhere. */
  lemma PublishedSends(signer: Signer, last: Option<u64>, renew: bool, w: World)
    requires RaftRound(signer, last, renew, w).outcome.Published?
    ensures var st := SourceState(renew, w);
            var r := RaftRound(signer, last, renew, w);
            && r.outcome == Published(st.policyEpoch) && r.last == Some(st.policyEpoch)
            && AllItems(signer, st.services).Some?
            && var items := AllItems(signer, st.services).value;
               && IndexItem(signer, st, items).Some?
               && AllEverywhere(w, |items|) && Everywhere(w, |items|)
               && r.sends == WhitelistSends(w, items)
                 + SendsTo(w, |items|, IndexItem(signer, st, items).value, w.clients(|items|))
  {
    hide AllItems, IndexItem, WhitelistSends, SendsTo, Everywhere, AllEverywhere;
  }

  lemma IndexHeld(w: World, items: seq<Item>, index: Item, earlier: seq<Sent>, c: u64)
    requires Everywhere(w, |items|) && c in w.clients(|items|)
    ensures var sends := WhitelistSends(w, items) + SendsTo(w, |items|, index, w.clients(|items|));
            LastAcked(earlier + sends, c, index.key) == Some(index)
  {
    hide WhitelistSends, SendsTo, LastAcked, Delivered;
    var n := |items|;
    var first := WhitelistSends(w, items);
    var second := SendsTo(w, n, index, w.clients(n));
    SendsAcked(w, n, index, w.clients(n), c, index.key);
    LastAckedConcat(first, second, c, index.key);
    LastAckedConcat(earlier, first + second, c, index.key);
  }

  lemma WhitelistHeld(w: World, items: seq<Item>, index: Item, earlier: seq<Sent>, c: u64, i: nat)
    requires DistinctKeys(items) && AllEverywhere(w, |items|)
    requires i < |items| && c in w.clients(i) && items[i].key != index.key
    ensures var sends := WhitelistSends(w, items) + SendsTo(w, |items|, index, w.clients(|items|));
            LastAcked(earlier + sends, c, items[i].key) == Some(items[i])
  {
    hide WhitelistSends, SendsTo, LastAcked, Delivered;
    var n := |items|;
    var key := items[i].key;
    var first := WhitelistSends(w, items);
    var second := SendsTo(w, n, index, w.clients(n));
    WhitelistsAcked(w, items, c, i);
    SendsAcked(w, n, index, w.clients(n), c, key);
    LastAckedConcat(first, second, c, key);
    LastAckedConcat(earlier, first + second, c, key);
  }

  lemma SortedStringsCount(s: set<string>)
    ensures |SortedStrings(s)| == |s|
  {
    StrLessStrictTotal();
  }

  /** Every whitelist is the last record acknowledged under its key on every connection it was sent to. */
  ghost predicate AllHeld(w: World, items: seq<Item>, sent: seq<Sent>) {
    forall i, c :: 0 <= i < |items| && c in w.clients(i) ==> LastAcked(sent, c, items[i].key) == Some(items[i])
  }

  /**
   In every round, however it ends: before the first index leaves, every whitelist of the state has been
   acknowledged on every connection it was sent to; when some whitelist failed, no index leaves.
   */
  lemma NoIndexBeforeWhitelists(signer: Signer, last: Option<u64>, renew: bool, w: World, p: nat)
    requires var sends := RaftRound(signer, last, renew, w).sends;
             p < |sends| && sends[p].item.doc.Index?
    ensures var st := SourceState(renew, w);
            && AllItems(signer, st.services).Some?
            && var items := AllItems(signer, st.services).value;
               && AllEverywhere(w, |items|)
               && AllHeld(w, items, RaftRound(signer, last, renew, w).sends[..p])
  {
    hide *;
    var st := SourceState(renew, w);
    IndexSent(signer, last, renew, w, p);
    var items := AllItems(signer, st.services).value;
    AllItemsAreWhitelists(signer, st, items);
    var index := IndexItem(signer, st, items).value;
    ConcatTake(WhitelistSends(w, items), SendsTo(w, |items|, index, w.clients(|items|)), p);
    AllHeldBeforeIndex(w, items, index, p - |WhitelistSends(w, items)|);
  }

  lemma ConcatTake<T>(a: seq<T>, b: seq<T>, p: nat)
    requires |a| <= p <= |a + b|
    ensures (a + b)[..p] == a + b[..p - |a|]
  {}

  lemma AllItemsAreWhitelists(signer: Signer, st: PolicyState, items: seq<Item>)
    requires AllItems(signer, st.services) == Some(items)
    ensures DistinctKeys(items)
    ensures forall i :: 0 <= i < |items| ==> items[i].doc.Whitelist? && items[i].key != IndexKey(signer.netHash)
    ensures IndexItem(signer, st, items).Some? ==> IndexItem(signer, st, items).value.key == IndexKey(signer.netHash)
  {
    ItemKeys(signer, st.services);
  }

  lemma AllHeldBeforeIndex(w: World, items: seq<Item>, index: Item, m: nat)
    requires DistinctKeys(items) && AllEverywhere(w, |items|)
    requires forall i :: 0 <= i < |items| ==> items[i].key != index.key
    requires m <= |SendsTo(w, |items|, index, w.clients(|items|))|
    ensures AllHeld(w, items, WhitelistSends(w, items) + SendsTo(w, |items|, index, w.clients(|items|))[..m])
  {
    hide WhitelistSends, SendsTo, LastAcked, AllEverywhere;
    forall i, c | 0 <= i < |items| && c in w.clients(i)
      ensures LastAcked(WhitelistSends(w, items) + SendsTo(w, |items|, index, w.clients(|items|))[..m],
                        c, items[i].key) == Some(items[i])
    {
      HeldBeforeIndex(w, items, index, c, i, m);
    }
  }

  /** While the index is being sent the whitelists stay the last records acknowledged under their keys. */
  lemma HeldBeforeIndex(w: World, items: seq<Item>, index: Item, c: u64, i: nat, m: nat)
    requires DistinctKeys(items) && AllEverywhere(w, |items|)
    requires i < |items| && c in w.clients(i) && items[i].key != index.key
    requires m <= |SendsTo(w, |items|, index, w.clients(|items|))|
    ensures LastAcked(WhitelistSends(w, items) + SendsTo(w, |items|, index, w.clients(|items|))[..m], c, items[i].key)
      == Some(items[i])
  {
    hide WhitelistSends, SendsTo, LastAcked, Everywhere, AllEverywhere;
    var second := SendsTo(w, |items|, index, w.clients(|items|));
    SendsCarryItem(w, |items|, index, w.clients(|items|));
    assert forall s :: s in second[..m] ==> s in second;
    WhitelistsAcked(w, items, c, i);
    NothingUnderKey(second[..m], c, items[i].key, index);
    LastAckedConcat(WhitelistSends(w, items), second[..m], c, items[i].key);
  }

  /** If an index was sent, all whitelists had been delivered and the index came after their sends. */
  lemma IndexSent(signer: Signer, last: Option<u64>, renew: bool, w: World, p: nat)
    requires var sends := RaftRound(signer, last, renew, w).sends;
             p < |sends| && sends[p].item.doc.Index?
    ensures var st := SourceState(renew, w);
            && AllItems(signer, st.services).Some?
            && var items := AllItems(signer, st.services).value;
               && AllEverywhere(w, |items|)
               && IndexItem(signer, st, items).Some?
               && RaftRound(signer, last, renew, w).sends
                  == WhitelistSends(w, items)
                    + SendsTo(w, |items|, IndexItem(signer, st, items).value, w.clients(|items|))
               && |WhitelistSends(w, items)| <= p
  {
    hide SortedStrings, WhitelistSends, SendsTo, Items, AllEverywhere, Everywhere;
    var st := SourceState(renew, w);
    var items := AllItems(signer, st.services).value;
    var first := WhitelistSends(w, items);
    WhitelistSendsCarryItems(w, items);
    assert forall q :: 0 <= q < |first| ==> first[q] in first && first[q].item.doc.Whitelist?;
  }

  lemma {:induction false} NothingUnderKey(sent: seq<Sent>, c: u64, key: string, item: Item)
    requires item.key != key && forall s :: s in sent ==> s.item == item
    ensures LastAcked(sent, c, key) == None
  {
    if sent != [] {
      assert sent[|sent| - 1] in sent;
      NothingUnderKey(sent[..|sent| - 1], c, key, item);
    }
  }

  // ---------------------------------------------------------------- only the leader publishes

  /** A renewal is due when it was asked for or the index has expired. */
  predicate Due(renew: bool, w: World) {
    renew || w.before.indexExpiresAt <= w.now
  }

  /**
   Nothing is sent by a node that did not lead at the start and after the renewal, no index by one that did not lead
   right before it, and a node is told that it is not the leader exactly when it was not at one of the first two.
   */
  lemma OnlyLeaderSends(signer: Signer, last: Option<u64>, renew: bool, w: World)
    ensures var r := RaftRound(signer, last, renew, w);
            && (r.sends != [] || r.outcome.Published? ==>
                  w.registered && w.raftReady && w.leaderAtStart && w.leaderAfterRenew)
            && (r.outcome.Published? || (exists s :: s in r.sends && s.item.doc.Index?) ==> w.leaderBeforeIndex)
            && (r.outcome.NoConnections? <==> !w.registered)
            && (r.outcome.NotLeader? <==>
                  && w.registered && w.raftReady
                  && (!w.leaderAtStart || ((Due(renew, w) ==> w.proposeOk) && !w.leaderAfterRenew)))
  {
    hide AllItems, IndexItem, WhitelistSends, SendsTo, Everywhere, AllEverywhere;
    if !w.leaderBeforeIndex {
      forall s | s in RaftRound(signer, last, renew, w).sends ensures !s.item.doc.Index? {
        WhitelistsUntilLeader(signer, last, renew, w, s);
      }
    }
  }

  lemma WhitelistsUntilLeader(signer: Signer, last: Option<u64>, renew: bool, w: World, s: Sent)
    requires s in RaftRound(signer, last, renew, w).sends && (!w.leaderBeforeIndex || !w.seedForIndex)
    ensures s.item.doc.Whitelist?
  {
    hide AllItems, IndexItem, WhitelistSends, SendsTo, Everywhere, AllEverywhere;
    var st := SourceState(renew, w);
    var items := AllItems(signer, st.services).value;
    AllItemsAreWhitelists(signer, st, items);
    WhitelistSendsCarryItems(w, items);
  }

  /**
   A round publishes exactly when the node leads throughout, a renewal that was due went through, the state is not older
   than the last one published and has an expiry, both seeds are there, all can be signed, and all is acknowledged.
   */
  lemma PublishedIff(signer: Signer, last: Option<u64>, renew: bool, w: World)
    ensures var st := if Due(renew, w) then w.after else w.before;
            RaftRound(signer, last, renew, w).outcome == Published(st.policyEpoch) <==>
              && w.registered && w.raftReady && w.leaderAtStart && w.leaderAfterRenew && w.leaderBeforeIndex
              && (Due(renew, w) ==> w.proposeOk)
              && (last.Some? ==> last.value <= st.policyEpoch)
              && st.indexExpiresAt != 0 && w.seedForWhitelists && w.seedForIndex
              && AllItems(signer, st.services).Some?
              && var items := AllItems(signer, st.services).value;
                 && IndexItem(signer, st, items).Some?
                 && forall k, c :: 0 <= k <= |items| && c in w.clients(k) ==>
                      exists a :: 0 <= a < 3 && w.acks(k, c, a)
  {
    hide AllItems, IndexItem, WhitelistSends, SendsTo;
    var st := SourceState(renew, w);
    if AllItems(signer, st.services).Some? {
      AckedEverywhere(w, |AllItems(signer, st.services).value|);
    }
  }

  lemma AckedEverywhere(w: World, n: nat)
    ensures AllEverywhere(w, n) && Everywhere(w, n) <==>
              forall k, c :: 0 <= k <= n && c in w.clients(k) ==> exists a :: 0 <= a < 3 && w.acks(k, c, a)
  {
    if AllEverywhere(w, n) && Everywhere(w, n) {
      forall k, c | 0 <= k <= n && c in w.clients(k) ensures exists a :: 0 <= a < 3 && w.acks(k, c, a) {
        assert Everywhere(w, k);
        assert Delivered(w, k, c);
      }
    }
  }

  /** An index carries epoch and expiry of the state read after the renewal if one was due, and before it otherwise. */
  lemma IndexIsOfRenewedState(signer: Signer, last: Option<u64>, renew: bool, w: World, s: Sent)
    requires s in RaftRound(signer, last, renew, w).sends && s.item.doc.Index?
    ensures var st := if Due(renew, w) then w.after else w.before;
            s.item.doc.index.version == st.policyEpoch && s.item.doc.index.expiresAt == st.indexExpiresAt
  {
    hide RaftRound;
    var st := SourceState(renew, w);
    RoundSendsItems(signer, last, renew, w, s);
    AllItemsAreWhitelists(signer, st, AllItems(signer, st.services).value);
  }

  /** Over a whole process, all was sent in rounds of a leading node, an index in one that led to the end. */
  lemma SentOnlyByLeader(signer: Signer, inputs: seq<Input>, s: Sent)
    requires s in Process(signer, inputs).sent
    ensures exists i :: 0 <= i < |inputs| && inputs[i].world.leaderAtStart && inputs[i].world.leaderAfterRenew
                        && (s.item.doc.Index? ==> inputs[i].world.leaderBeforeIndex)
  {
    hide RaftRound;
    var i, last := SentByRound(signer, inputs, s);
    OnlyLeaderSends(signer, last, inputs[i].renew, inputs[i].world);
  }

  // ---------------------------------------------------------------- one version, one document

  /** What a round may send: the signed whitelists of its state, and the index over them. */
  ghost predicate ItemOf(signer: Signer, st: PolicyState, item: Item) {
    && AllItems(signer, st.services).Some?
    && var items := AllItems(signer, st.services).value;
       || item in items
       || IndexItem(signer, st, items) == Some(item)
  }

  lemma RoundSendsItems(signer: Signer, last: Option<u64>, renew: bool, w: World, s: Sent)
    requires s in RaftRound(signer, last, renew, w).sends
    ensures ItemOf(signer, SourceState(renew, w), s.item)
  {
    hide WhitelistSends, SendsTo, AllItems, IndexItem, Everywhere, AllEverywhere;
    var st := SourceState(renew, w);
    var items := AllItems(signer, st.services).value;
    WhitelistSendsCarryItems(w, items);
    AllItemsAreWhitelists(signer, st, items);
    if s !in WhitelistSends(w, items) {
      SendsCarryItem(w, |items|, IndexItem(signer, st, items).value, w.clients(|items|));
    }
  }

  /** States with the same content give the same record under each key. */
  lemma SameContentSameItem(signer: Signer, x: PolicyState, y: PolicyState, i: Item, j: Item)
    requires ContentOf(x) == ContentOf(y) && x.policyEpoch == y.policyEpoch
    requires ItemOf(signer, x, i) && ItemOf(signer, y, j) && i.key == j.key
    ensures i == j
  {
    hide AllItems, IndexItem;
    var items := AllItems(signer, x.services).value;
    AllItemsAreWhitelists(signer, x, items);
    SameIndex(signer, x, y, items);
    if i in items { var p :| 0 <= p < |items| && items[p] == i; }
    if j in items { var q :| 0 <= q < |items| && items[q] == j; }
  }

  lemma SameIndex(signer: Signer, x: PolicyState, y: PolicyState, items: seq<Item>)
    requires ContentOf(x) == ContentOf(y) && x.policyEpoch == y.policyEpoch
    requires forall i :: 0 <= i < |items| ==> items[i].doc.Whitelist?
    ensures IndexItem(signer, x, items) == IndexItem(signer, y, items)
  {}

  /**
   Two rounds of one authority, run by any two nodes at any two moments, that publish from states of one epoch below
   u64::MAX: whatever both send under one key, the index or a whitelist, is the same record.
   */
  lemma LeadersPublishAlike(env: Env, network: string, log: seq<RaftStorage.Entry>, c: RaftStorage.Cluster,
                            signer: Signer,
                            early: seq<RaftStorage.Step>, a: nat, lastA: Option<u64>, x: Input, s: Sent,
                            late: seq<RaftStorage.Step>, b: nat, lastB: Option<u64>, y: Input, t: Sent)
    requires RaftStorage.Ordered(log) && RaftStorage.Init(c)
    requires RaftStorage.Holds(env, network, log, c, early, a, SourceState(x.renew, x.world))
    requires RaftStorage.Holds(env, network, log, c, late, b, SourceState(y.renew, y.world))
    requires SourceState(x.renew, x.world).policyEpoch == SourceState(y.renew, y.world).policyEpoch < U64_MAX
    requires s in RaftRound(signer, lastA, x.renew, x.world).sends
      && t in RaftRound(signer, lastB, y.renew, y.world).sends
    requires s.item.key == t.item.key
    ensures s.item == t.item
  {
    hide RaftRound, RaftStorage.Holds, ItemOf;
    var (p, q) := (SourceState(x.renew, x.world), SourceState(y.renew, y.world));
    RaftStorage.NodesAgreeAtEpoch(env, network, log, c, early, a, p, late, b, q);
    RoundSendsItems(signer, lastA, x.renew, x.world, s);
    RoundSendsItems(signer, lastB, y.renew, y.world, t);
    SameContentSameItem(signer, p, q, s.item, t.item);
  }

  /** Every round of the process publishes from a state that some node of the cluster held at some moment. */
  ghost predicate ReadsCluster(env: Env, network: string, log: seq<RaftStorage.Entry>, c: RaftStorage.Cluster,
                               inputs: seq<Input>) {
    forall i :: 0 <= i < |inputs| ==>
      exists steps, who: nat
        :: RaftStorage.Holds(env, network, log, c, steps, who, SourceState(inputs[i].renew, inputs[i].world))
  }

  lemma {:induction false} SentByRound(signer: Signer, inputs: seq<Input>, s: Sent) returns (i: nat, last: Option<u64>)
    requires s in Process(signer, inputs).sent
    ensures i < |inputs| && s in RaftRound(signer, last, inputs[i].renew, inputs[i].world).sends
  {
    hide RaftRound;
    var n := |inputs| - 1;
    var h := Process(signer, inputs[..n]);
    if s in h.sent {
      i, last := SentByRound(signer, inputs[..n], s);
    } else {
      i, last := n, h.last;
    }
  }

  /**
   Over the whole life of a cluster, whichever processes on whichever nodes published, an index version below u64::MAX
   names one document: any two index records sent with it are the same.
   */
  lemma OneVersionOneIndex(env: Env, network: string, log: seq<RaftStorage.Entry>, c: RaftStorage.Cluster,
                           signer: Signer,
                           mine: seq<Input>, s: Sent, other: seq<Input>, t: Sent)
    requires RaftStorage.Ordered(log) && RaftStorage.Init(c)
    requires ReadsCluster(env, network, log, c, mine) && ReadsCluster(env, network, log, c, other)
    requires s in Process(signer, mine).sent && t in Process(signer, other).sent
    requires s.item.doc.Index? && t.item.doc.Index? && s.item.doc.index.version == t.item.doc.index.version < U64_MAX
    ensures s.item == t.item
  {
    hide RaftRound, RaftStorage.Holds, ItemOf, Process, SourceState;
    var i, lastA := SentByRound(signer, mine, s);
    var j, lastB := SentByRound(signer, other, t);
    var (x, y) := (mine[i], other[j]);
    var early, a: nat :| RaftStorage.Holds(env, network, log, c, early, a, SourceState(x.renew, x.world));
    var late, b: nat :| RaftStorage.Holds(env, network, log, c, late, b, SourceState(y.renew, y.world));
    RoundSendsItems(signer, lastA, x.renew, x.world, s);
    RoundSendsItems(signer, lastB, y.renew, y.world, t);
    IndexOfState(signer, SourceState(x.renew, x.world), s.item);
    IndexOfState(signer, SourceState(y.renew, y.world), t.item);
    LeadersPublishAlike(env, network, log, c, signer, early, a, lastA, x, s, late, b, lastB, y, t);
  }

  /** An index carries the epoch of its state and lies under the index key. */
  lemma IndexOfState(signer: Signer, st: PolicyState, item: Item)
    requires ItemOf(signer, st, item) && item.doc.Index?
    ensures item.doc.index.version == st.policyEpoch && item.key == IndexKey(signer.netHash)
  {
    var items := AllItems(signer, st.services).value;
    AllItemsAreWhitelists(signer, st, items);
  }
}

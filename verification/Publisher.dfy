/**
 The leader-only publisher of src/publisher.rs. What other parties decide during a round
 (leadership, the Raft snapshots read, registered connections, acknowledgements) is
 a `World`; signing is a deterministic function that may fail. "Acknowledged" means the
 node answered `add_key`; the `success` field of its answer is not looked at.
 */
module Publisher {
  import opened Common
  import opened Ordering
  import opened Authority
  import opened StoreModel
  import opened PolicyModel

  const PUBLISH_ATTEMPTS: nat := 3

  type Bytes = seq<bv8>

  datatype ServiceEntry = ServiceEntry(name: string, hash: Bytes, length: nat)

  datatype IndexDoc = IndexDoc(version: u64, expiresAt: u64, services: seq<ServiceEntry>)

  datatype WhitelistDoc = WhitelistDoc(version: u64, members: seq<string>)

  /** The authority of one network: its key layout and its signatures. */
  datatype Signer = Signer(
    netHash: string,
    signWhitelist: (string, WhitelistDoc) -> Option<Bytes>,
    signIndex: IndexDoc -> Option<Bytes>,
    hash: Bytes -> Bytes)

  datatype Doc = Whitelist(name: string, whitelist: WhitelistDoc) | Index(index: IndexDoc)

  /** A signed record ready to be stored under its key. */
  datatype Item = Item(key: string, value: Bytes, doc: Doc)

  /** One `add_key` call on one connection. */
  datatype Sent = Sent(conn: u64, item: Item, acked: bool)

  /**
   What a round finds. Leadership is asked three times, the state read before and after
   the renewal. Publish call `k` of the round sees the connections `clients(k)`, and
   attempt `a` on connection `c` is acknowledged or not by `acks(k, c, a)`.
   */
  datatype World = World(
    registered: bool, raftReady: bool,
    leaderAtStart: bool, leaderAfterRenew: bool, leaderBeforeIndex: bool,
    before: PolicyState, now: u64, proposeOk: bool, after: PolicyState,
    seedForWhitelists: bool, seedForIndex: bool,
    clients: nat -> seq<u64>,
    acks: (nat, u64, nat) -> bool)

  datatype Outcome = Published(policyEpoch: u64) | NoConnections | NotLeader | Failed

  // ---------------------------------------------------------------- what is sent

  /** Attempts from number `a` on: until one is acknowledged or three were made. */
  function Attempts(w: World, k: nat, c: u64, item: Item, a: nat): seq<Sent>
    requires a <= PUBLISH_ATTEMPTS
    decreases PUBLISH_ATTEMPTS - a
  {
    if a == PUBLISH_ATTEMPTS then []
    else [Sent(c, item, w.acks(k, c, a))] + if w.acks(k, c, a) then [] else Attempts(w, k, c, item, a + 1)
  }

  predicate Delivered(w: World, k: nat, c: u64) {
    exists a :: 0 <= a < PUBLISH_ATTEMPTS && w.acks(k, c, a)
  }

  /** One record to a list of connections; a failure does not stop the others. */
  function SendsTo(w: World, k: nat, item: Item, cs: seq<u64>): seq<Sent> {
    if cs == [] then [] else SendsTo(w, k, item, cs[..|cs| - 1]) + Attempts(w, k, cs[|cs| - 1], item, 0)
  }

  predicate Everywhere(w: World, k: nat) {
    forall c :: c in w.clients(k) ==> Delivered(w, k, c)
  }

  /** The whitelists in order; the first that fails somewhere is the last one sent. */
  function WhitelistSends(w: World, items: seq<Item>): seq<Sent> {
    if items == [] then [] else
      var n := |items| - 1;
      WhitelistSends(w, items[..n])
      + if AllEverywhere(w, n) then SendsTo(w, n, items[n], w.clients(n)) else []
  }

  predicate AllEverywhere(w: World, n: nat) {
    forall k :: 0 <= k < n ==> Everywhere(w, k)
  }

  /** The signed whitelist of one service of the state, if its name and the signature allow. */
  function ItemFor(signer: Signer, services: map<string, ServiceState>, name: string): Option<Item>
    requires name in services
  {
    var doc := WhitelistDoc(services[name].version, SortedStrings(services[name].members));
    var value := signer.signWhitelist(name, doc);
    var key := ServiceKey(signer.netHash, name);
    if value.None? || key.None? then None else Some(Item(key.value, value.value, Whitelist(name, doc)))
  }

  /** The signed whitelists of the named services in order, or nothing when one of them cannot be signed. */
  function Items(signer: Signer, services: map<string, ServiceState>, names: seq<string>): (r: Option<seq<Item>>)
    requires forall x :: x in names ==> x in services
    ensures r.Some? ==> |r.value| == |names| && forall i :: 0 <= i < |names| ==>
      ItemFor(signer, services, names[i]) == Some(r.value[i])
  {
    if forall i :: 0 <= i < |names| ==> ItemFor(signer, services, names[i]).Some?
    then Some(seq(|names|, i requires 0 <= i < |names| => ItemFor(signer, services, names[i]).value))
    else None
  }

  function AllItems(signer: Signer, services: map<string, ServiceState>): (r: Option<seq<Item>>)
    ensures r.Some? ==> forall i :: 0 <= i < |r.value| ==> r.value[i].doc.Whitelist?
  {
    Items(signer, services, SortedStrings(services.Keys))
  }

  function EntryOf(signer: Signer, item: Item): ServiceEntry
    requires item.doc.Whitelist?
  {
    ServiceEntry(item.doc.name, signer.hash(item.value), |item.value|)
  }

  function Entries(signer: Signer, items: seq<Item>): (es: seq<ServiceEntry>)
    requires forall i :: 0 <= i < |items| ==> items[i].doc.Whitelist?
    ensures |es| == |items| && forall i :: 0 <= i < |es| ==> es[i] == EntryOf(signer, items[i])
  {
    seq(|items|, i requires 0 <= i < |items| => EntryOf(signer, items[i]))
  }

  function IndexItem(signer: Signer, st: PolicyState, items: seq<Item>): Option<Item>
    requires forall i :: 0 <= i < |items| ==> items[i].doc.Whitelist?
  {
    var doc := IndexDoc(st.policyEpoch, st.indexExpiresAt, Entries(signer, items));
    var value := signer.signIndex(doc);
    if value.None? then None else Some(Item(IndexKey(signer.netHash), value.value, Index(doc)))
  }

  // ---------------------------------------------------------------- one round

  datatype Round = Round(outcome: Outcome, last: Option<u64>, sends: seq<Sent>)

  /** `record_failure`: the remembered epoch only grows. */
  function Raised(last: Option<u64>, epoch: u64): Option<u64> {
    Some(if last.Some? then Max(last.value, epoch) else epoch)
  }

  /** The state a round publishes from: read again when the index had to be renewed. */
  function SourceState(renew: bool, w: World): PolicyState {
    if renew || w.before.indexExpiresAt <= w.now then w.after else w.before
  }

  predicate RenewFails(renew: bool, w: World) {
    (renew || w.before.indexExpiresAt <= w.now) && !w.proposeOk
  }

  /** From the signed whitelists on: whitelists, leadership, index. */
  function SendRound(signer: Signer, w: World, st: PolicyState, items: seq<Item>): Round
    requires forall i :: 0 <= i < |items| ==> items[i].doc.Whitelist?
  {
    var n := |items|;
    var epoch := st.policyEpoch;
    var first := WhitelistSends(w, items);
    if !AllEverywhere(w, n) || !w.leaderBeforeIndex || !w.seedForIndex then Round(Failed, Some(epoch), first)
    else
      var index := IndexItem(signer, st, items);
      if index.None? then Round(Failed, Some(epoch), first)
      else
        var all := first + SendsTo(w, n, index.value, w.clients(n));
        Round(if Everywhere(w, n) then Published(epoch) else Failed, Some(epoch), all)
  }

  function RaftRound(signer: Signer, last: Option<u64>, renew: bool, w: World): Round {
    if !w.registered then Round(NoConnections, last, [])
    else if !w.raftReady then Round(Failed, last, [])
    else if !w.leaderAtStart then Round(NotLeader, last, [])
    else if RenewFails(renew, w) then Round(Failed, Raised(last, w.before.policyEpoch), [])
    else if !w.leaderAfterRenew then Round(NotLeader, last, [])
    else
      var st := SourceState(renew, w);
      if last.Some? && st.policyEpoch < last.value then Round(Failed, last, [])
      else if st.indexExpiresAt == 0 || !w.seedForWhitelists || AllItems(signer, st.services).None?
      then Round(Failed, Some(st.policyEpoch), [])
      else SendRound(signer, w, st, AllItems(signer, st.services).value)
  }

  // ---------------------------------------------------------------- the publisher in place

  class Publisher {
    const signer: Signer
    var lastEpoch: Option<u64>
    var lastOk: bool
    /** Every `add_key` call of the process so far. */
    ghost var sent: seq<Sent>

    constructor (signer: Signer)
      ensures this.signer == signer && lastEpoch == None && !lastOk && sent == []
    {
      this.signer := signer;
      lastEpoch, lastOk := None, false;
      sent := [];
    }

    method RecordSuccess(epoch: u64)
      modifies this`lastEpoch, this`lastOk
      ensures lastEpoch == Some(epoch) && lastOk
    {
      lastEpoch, lastOk := Some(epoch), true;
    }

    method RecordFailure(epoch: u64)
      modifies this`lastEpoch, this`lastOk
      ensures lastEpoch == Raised(old(lastEpoch), epoch) && !lastOk
    {
      lastEpoch := Some(if lastEpoch.Some? then Max(lastEpoch.value, epoch) else epoch);
      lastOk := false;
    }

    method AddKeyWithRetry(w: World, k: nat, c: u64, item: Item) returns (ok: bool)
      modifies this`sent
      ensures ok == Delivered(w, k, c)
      ensures sent == old(sent) + Attempts(w, k, c, item, 0)
    {
      for a := 0 to PUBLISH_ATTEMPTS
        invariant forall b :: 0 <= b < a ==> !w.acks(k, c, b)
        invariant sent + Attempts(w, k, c, item, a) == old(sent) + Attempts(w, k, c, item, 0)
      {
        var acked := w.acks(k, c, a);
        sent := sent + [Sent(c, item, acked)];
        if acked { return true; }
      }
      return false;
    }

    /** One record to every connection registered at this call. */
    method Publish(w: World, k: nat, item: Item) returns (ok: bool)
      modifies this`sent
      ensures ok == Everywhere(w, k)
      ensures sent == old(sent) + SendsTo(w, k, item, w.clients(k))
    {
      hide Attempts, Delivered;
      var cs := w.clients(k);
      ok := true;
      assert cs[..0] == [];
      for i := 0 to |cs|
        invariant sent == old(sent) + SendsTo(w, k, item, cs[..i])
        invariant ok <==> forall j :: 0 <= j < i ==> Delivered(w, k, cs[j])
      {
        assert cs[..i + 1][..i] == cs[..i];
        var one := AddKeyWithRetry(w, k, cs[i], item);
        ok := ok && one;
      }
      assert cs[..|cs|] == cs;
    }

    /** Signs the whitelist of every service; one that cannot be signed fails them all. */
    method SignAll(services: map<string, ServiceState>) returns (r: Option<seq<Item>>)
      ensures r == AllItems(signer, services)
    {
      hide SortedStrings, Ascending, ItemFor;
      var names := SortedStrings(services.Keys);
      var pending: seq<Item> := [];
      for i := 0 to |names|
        invariant |pending| == i
        invariant forall j :: 0 <= j < i ==> ItemFor(signer, services, names[j]) == Some(pending[j])
      {
        var one := ItemFor(signer, services, names[i]);
        if one.None? { return None; }
        pending := pending + [one.value];
      }
      assert Items(signer, services, names).Some?;
      assert Items(signer, services, names).value == pending;
      return Some(pending);
    }

    /** Publishes whitelist by whitelist and stops at the first that fails somewhere. */
    method SendAll(w: World, items: seq<Item>) returns (ok: bool)
      modifies this`sent
      ensures sent == old(sent) + WhitelistSends(w, items)
      ensures ok == AllEverywhere(w, |items|)
    {
      hide SendsTo, Everywhere;
      assert items[..0] == [];
      for i := 0 to |items|
        invariant sent == old(sent) + WhitelistSends(w, items[..i])
        invariant AllEverywhere(w, i)
      {
        assert items[..i + 1][..i] == items[..i];
        var one := Publish(w, i, items[i]);
        if !one {
          StoppedSends(w, items, i + 1);
          return false;
        }
      }
      assert items[..|items|] == items;
      return true;
    }

    /** Everything is signed before anything is sent. */
    method PublishWhitelists(w: World, services: map<string, ServiceState>) returns (r: Option<seq<Item>>)
      modifies this`sent
      ensures var items := AllItems(signer, services);
              if !w.seedForWhitelists || items.None? then r == None && sent == old(sent)
              else && sent == old(sent) + WhitelistSends(w, items.value)
                   && r == if AllEverywhere(w, |items.value|) then items else None
    {
      hide AllItems, WhitelistSends, AllEverywhere;
      if !w.seedForWhitelists { return None; }
      r := SignAll(services);
      if r.Some? {
        var ok := SendAll(w, r.value);
        if !ok { return None; }
      }
    }

    method PublishOnce(renew: bool, w: World) returns (outcome: Outcome)
      modifies this
      ensures var round := RaftRound(signer, old(lastEpoch), renew, w);
              outcome == round.outcome && lastEpoch == round.last && sent == old(sent) + round.sends
      ensures outcome.Published? ==> lastOk
      ensures lastOk && !old(lastOk) ==> outcome.Published?
    {
      hide WhitelistSends, AllEverywhere, Everywhere, SendsTo, Items, SortedStrings, IndexItem;
      if !w.registered { return NoConnections; }
      if !w.raftReady { return Failed; }
      if !w.leaderAtStart { return NotLeader; }
      var st := w.before;
      if renew || st.indexExpiresAt <= w.now {
        if !w.proposeOk {
          RecordFailure(st.policyEpoch);
          return Failed;
        }
        st := w.after;
      }
      if !w.leaderAfterRenew { return NotLeader; }
      var epoch := st.policyEpoch;
      if lastEpoch.Some? && epoch < lastEpoch.value {
        RecordFailure(epoch);
        return Failed;
      }
      if st.indexExpiresAt == 0 {
        RecordFailure(epoch);
        return Failed;
      }
      var items := PublishWhitelists(w, st.services);
      if items.None? || !w.leaderBeforeIndex || !w.seedForIndex {
        RecordFailure(epoch);
        return Failed;
      }
      var index := IndexItem(signer, st, items.value);
      if index.None? {
        RecordFailure(epoch);
        return Failed;
      }
      var ok := Publish(w, |items.value|, index.value);
      if !ok {
        RecordFailure(epoch);
        return Failed;
      }
      RecordSuccess(epoch);
      return Published(epoch);
    }
  }

  /** After the first whitelist that failed somewhere nothing more is sent. */
  lemma {:induction false} StoppedSends(w: World, items: seq<Item>, n: nat)
    requires n <= |items| && !AllEverywhere(w, n)
    ensures WhitelistSends(w, items) == WhitelistSends(w, items[..n])
    ensures !AllEverywhere(w, |items|)
  {
    if n == |items| {
      assert items[..n] == items;
    } else {
      StoppedSends(w, items[..|items| - 1], n);
      assert items[..|items| - 1][..n] == items[..n];
    }
  }
}

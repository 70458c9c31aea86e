/**
 Values of the single-file state store (src/store.rs): snapshots, the local
 operations, and the last-writer-wins merge seen as a join.
 */
module StoreModel {
  import opened Common
  import opened Ordering
  import opened Authority
  import opened Members

  datatype ServiceState = ServiceState(version: u64, members: set<string>)

  datatype Snapshot = Snapshot(
    network: string,
    indexVersion: u64,
    services: map<string, ServiceState>,
    tombstones: map<string, u64>)

  datatype StoreError =
    | Io
    | Parse
    | NetworkMismatch
    | InvalidService(name: string)
    | InvalidPeer(peer: string)
    | NotFound(name: string)
    | AlreadyExists(name: string)

  // ---------------------------------------------------------------- local operations

  datatype Op =
    | CreateService(service: string, peers: seq<string>)
    | DeleteService(service: string)
    | AddMembers(service: string, peers: seq<string>)
    | RemoveMembers(service: string, peers: seq<string>)
    | SetMembers(service: string, peers: seq<string>)

  /** The member set an edit asks for. */
  function Edited(op: Op, members: set<string>): set<string> {
    match op
    case AddMembers(_, peers) => members + ToSet(peers)
    case RemoveMembers(_, peers) => members - ToSet(peers)
    case SetMembers(_, peers) => ToSet(peers)
    case CreateService(_, peers) => ToSet(peers)
    case DeleteService(_) => {}
  }

  function FirstInvalid(env: Env, peers: seq<string>): (r: Option<string>)
    ensures r.None? <==> ValidPeers(env, peers)
    ensures r.Some? ==> r.value in peers && !env.validPeer(r.value)
  {
    if peers == [] then None
    else if !env.validPeer(peers[0]) then Some(peers[0])
    else
      assert peers == [peers[0]] + peers[1..];
      FirstInvalid(env, peers[1..])
  }

  /** Why an operation is refused, in the order the code checks. */
  function Refusal(env: Env, s: Snapshot, op: Op): Option<StoreError> {
    if op.CreateService? && !IsValidServiceName(op.service) then Some(InvalidService(op.service))
    else if !op.DeleteService? && FirstInvalid(env, op.peers).Some?
      then Some(InvalidPeer(FirstInvalid(env, op.peers).value))
    else if op.CreateService? then
      if op.service in s.services then Some(AlreadyExists(op.service)) else None
    else if op.service !in s.services then Some(NotFound(op.service))
    else None
  }

  /** The version an accepted operation answers with. */
  function Answer(s: Snapshot, op: Op): u64
    requires !op.CreateService? ==> op.service in s.services
  {
    if op.CreateService? then 1
    else
      var was := s.services[op.service];
      if !op.DeleteService? && Edited(op, was.members) == was.members then was.version else WrapInc(was.version)
  }

  function Perform(env: Env, s: Snapshot, op: Op): Snapshot {
    if Refusal(env, s, op).Some? then s
    else
      var v := Answer(s, op);
      match op
      case CreateService(name, peers) =>
        s.(services := s.services[name := ServiceState(1, ToSet(peers))], indexVersion := WrapInc(s.indexVersion))
      case DeleteService(name) =>
        s.(services := s.services - {name}, tombstones := s.tombstones[name := v],
          indexVersion := WrapInc(s.indexVersion))
      case _ =>
        var was := s.services[op.service];
        if Edited(op, was.members) == was.members then s
        else s.(services := s.services[op.service := ServiceState(v, Edited(op, was.members))],
                indexVersion := WrapInc(s.indexVersion))
  }

  // ---------------------------------------------------------------- entries, cells, the order

  /** One service as it travels: a deletion or a content, each with its version. */
  datatype Entry = Tomb(version: u64) | Live(version: u64, members: set<string>)

  /** What a replica holds for one service; both parts can be present after a re-creation. */
  datatype Cell = Cell(live: Option<ServiceState>, tomb: Option<u64>)

  function CellOf(s: Snapshot, name: string): Cell {
    Cell(if name in s.services then Some(s.services[name]) else None,
         if name in s.tombstones then Some(s.tombstones[name]) else None)
  }

  function WithCell(s: Snapshot, name: string, c: Cell): Snapshot {
    s.(services := if c.live.Some? then s.services[name := c.live.value] else s.services - {name},
       tombstones := if c.tomb.Some? then s.tombstones[name := c.tomb.value] else s.tombstones - {name})
  }

  lemma WithCellFrame(s: Snapshot, name: string, c: Cell, other: string)
    ensures CellOf(WithCell(s, name, c), other) == if other == name then c else CellOf(s, other)
    ensures WithCell(s, name, CellOf(s, name)) == s
  {}

  /** Version first, then deleted over live, then the greater digest. */
  ghost predicate Before(env: Env, a: Entry, b: Entry) {
    || a.version < b.version
    || (a.version == b.version && a.Live?
        && (b.Tomb? || MembersDigest(env, a.members) < MembersDigest(env, b.members)))
  }

  /** The greater entry; the first one when neither is before the other. */
  ghost function Join(env: Env, a: Entry, b: Entry): Entry {
    if Before(env, a, b) then b else a
  }

  /** A missing tombstone counts as a deletion at version 0, as `unwrap_or(0)` makes it. */
  function TombOf(c: Cell): Entry {
    Tomb(if c.tomb.Some? then c.tomb.value else 0)
  }

  /** The greater of the live entry and the tombstone: what the cell stands for. */
  ghost function Effective(c: Cell): Entry {
    if c.live.Some? && c.live.value.version > TombOf(c).version
    then Live(c.live.value.version, c.live.value.members)
    else TombOf(c)
  }

  function Only(e: Entry): Cell {
    match e
    case Tomb(v) => Cell(None, Some(v))
    case Live(v, ms) => Cell(Some(ServiceState(v, ms)), None)
  }

  /** When a merge replaces the cell: the entry is news, or a deletion that finds a live service it covers. */
  ghost predicate Supersedes(env: Env, c: Cell, e: Entry) {
    || Before(env, Effective(c), e)
    || (e.Tomb? && c.live.Some? && !Before(env, e, Effective(c)))
  }

  ghost function MergeCell(env: Env, c: Cell, e: Entry): Cell {
    if Supersedes(env, c, e) then Only(e) else c
  }

  predicate ValidEntry(env: Env, name: string, e: Entry) {
    IsValidServiceName(name) && (e.Live? ==> forall m :: m in e.members ==> env.validPeer(m))
  }

  ghost function MergeOne(env: Env, s: Snapshot, name: string, e: Entry, index: u64): Snapshot {
    WithCell(s, name, MergeCell(env, CellOf(s, name), e)).(indexVersion := Max(s.indexVersion, index))
  }

  type Named = (string, Entry)

  ghost function MergeAll(env: Env, s: Snapshot, es: seq<Named>, index: u64): Snapshot {
    if es == [] then s else
      var last := es[|es| - 1];
      MergeOne(env, MergeAll(env, s, es[..|es| - 1], index), last.0, last.1, index)
  }

  function LiveEntries(services: map<string, ServiceState>, names: seq<string>): (es: seq<Named>)
    requires forall n :: n in names ==> n in services
    ensures |es| == |names|
    ensures forall i :: 0 <= i < |es| ==>
      es[i] == (names[i], Live(services[names[i]].version, services[names[i]].members))
  {
    seq(|names|, i requires 0 <= i < |names| =>
      (names[i], Live(services[names[i]].version, services[names[i]].members)))
  }

  function TombEntries(tombstones: map<string, u64>, names: seq<string>): (es: seq<Named>)
    requires forall n :: n in names ==> n in tombstones
    ensures |es| == |names|
    ensures forall i :: 0 <= i < |es| ==> es[i] == (names[i], Tomb(tombstones[names[i]]))
  {
    seq(|names|, i requires 0 <= i < |names| => (names[i], Tomb(tombstones[names[i]])))
  }

  /** A snapshot in the order in which it is merged: services by name, then tombstones by name. */
  function EntriesOf(s: Snapshot): seq<Named> {
    LiveEntries(s.services, SortedStrings(s.services.Keys))
      + TombEntries(s.tombstones, SortedStrings(s.tombstones.Keys))
  }

  lemma LiveEntriesMembership(services: map<string, ServiceState>, names: seq<string>, n: string, e: Entry)
    requires forall x :: x in names ==> x in services
    ensures (n, e) in LiveEntries(services, names) <==>
              n in names && e == Live(services[n].version, services[n].members)
  {
    var es := LiveEntries(services, names);
    if n in names {
      var i :| 0 <= i < |names| && names[i] == n;
      assert es[i] in es;
    }
  }

  lemma TombEntriesMembership(tombstones: map<string, u64>, names: seq<string>, n: string, e: Entry)
    requires forall x :: x in names ==> x in tombstones
    ensures (n, e) in TombEntries(tombstones, names) <==> n in names && e == Tomb(tombstones[n])
  {
    var es := TombEntries(tombstones, names);
    if n in names {
      var i :| 0 <= i < |names| && names[i] == n;
      assert es[i] in es;
    }
  }

  lemma EntriesOfMembership(s: Snapshot, n: string, e: Entry)
    ensures (n, e) in EntriesOf(s) <==>
              || (n in s.services && e == Live(s.services[n].version, s.services[n].members))
              || (n in s.tombstones && e == Tomb(s.tombstones[n]))
  {
    LiveEntriesMembership(s.services, SortedStrings(s.services.Keys), n, e);
    TombEntriesMembership(s.tombstones, SortedStrings(s.tombstones.Keys), n, e);
  }
}

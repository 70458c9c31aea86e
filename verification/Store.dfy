/**
 The state store of src/store.rs: a state updated in place and a file written after
 each change. Whether a write succeeds is a parameter of every operation.
 */
module Store {
  import opened Common
  import opened Ordering
  import opened Authority
  import opened Members
  import opened StoreModel
  import opened MergeLaws

  /** Stops at the first peer that does not parse. */
  method ValidatePeers(env: Env, peers: seq<string>) returns (bad: Option<string>)
    ensures bad == FirstInvalid(env, peers)
  {
    for i := 0 to |peers|
      invariant FirstInvalid(env, peers) == FirstInvalid(env, peers[i..])
    {
      if !env.validPeer(peers[i]) {
        return Some(peers[i]);
      }
      assert peers[i..][1..] == peers[i + 1..];
    }
    return None;
  }

  lemma ToSetSnoc(xs: seq<string>, i: nat)
    requires i < |xs|
    ensures ToSet(xs[..i + 1]) == ToSet(xs[..i]) + {xs[i]}
    ensures ToSet(xs[..|xs|]) == ToSet(xs)
  {
    assert xs[..i + 1] == xs[..i] + [xs[i]];
    assert xs[..|xs|] == xs;
  }

  /** Inserts peer by peer; the flag tells whether any of them made a difference. */
  method InsertEach(members: set<string>, peers: seq<string>) returns (next: set<string>, changed: bool)
    ensures next == members + ToSet(peers)
    ensures changed <==> next != members
  {
    next, changed := members, false;
    for i := 0 to |peers|
      invariant next == members + ToSet(peers[..i])
      invariant changed <==> next != members
    {
      ToSetSnoc(peers, i);
      changed := changed || peers[i] !in next;
      next := next + {peers[i]};
    }
    assert peers[..|peers|] == peers;
  }

  /** Removes peer by peer; the flag tells whether any of them made a difference. */
  method RemoveEach(members: set<string>, peers: seq<string>) returns (next: set<string>, changed: bool)
    ensures next == members - ToSet(peers)
    ensures changed <==> next != members
  {
    next, changed := members, false;
    for i := 0 to |peers|
      invariant next == members - ToSet(peers[..i])
      invariant changed <==> next != members
    {
      ToSetSnoc(peers, i);
      changed := changed || peers[i] in next;
      next := next - {peers[i]};
    }
    assert peers[..|peers|] == peers;
  }

  class Store {
    const env: Env
    const network: string
    var indexVersion: u64
    var services: map<string, ServiceState>
    var tombstones: map<string, u64>
    /** Content of the state file. */
    var file: Snapshot

    function View(): Snapshot
      reads this
    {
      Snapshot(network, indexVersion, services, tombstones)
    }

    /** A store opened from its state file. */
    constructor (env: Env, content: Snapshot)
      ensures this.env == env && View() == content && file == content
    {
      this.env := env;
      network := content.network;
      indexVersion := content.indexVersion;
      services := content.services;
      tombstones := content.tombstones;
      file := content;
    }

    method Save(saveOk: bool) returns (ok: bool)
      modifies this`file
      ensures ok == saveOk
      ensures file == if saveOk then View() else old(file)
    {
      if saveOk {
        file := View();
      }
      return saveOk;
    }

    /** Raises the versions of a changed service; a failed write is not reported. */
    method FinishChange(service: string, changed: bool, saveOk: bool) returns (version: u64)
      requires service in services
      modifies this`services, this`indexVersion, this`file
      ensures version == if changed then WrapInc(old(services)[service].version) else old(services)[service].version
      ensures services == old(services)[service := old(services)[service].(version := version)]
      ensures indexVersion == if changed then WrapInc(old(indexVersion)) else old(indexVersion)
      ensures file == if changed && saveOk then View() else old(file)
    {
      if !changed {
        return services[service].version;
      }
      var state := services[service];
      version := WrapInc(state.version);
      services := services[service := state.(version := version)];
      indexVersion := WrapInc(indexVersion);
      var _ := Save(saveOk);
    }

    method AddMembers(service: string, peers: seq<string>, saveOk: bool) returns (r: Result<u64, StoreError>)
      modifies this`services, this`indexVersion, this`file
      ensures View() == Perform(env, old(View()), StoreModel.AddMembers(service, peers))
      ensures r == EditResult(env, old(View()), StoreModel.AddMembers(service, peers))
      ensures file == if saveOk && View() != old(View()) then View() else old(file)
    {
      var bad := ValidatePeers(env, peers);
      if bad.Some? { return Err(InvalidPeer(bad.value)); }
      if service !in services { return Err(NotFound(service)); }
      var state := services[service];
      var members, changed := InsertEach(state.members, peers);
      services := services[service := state.(members := members)];
      var version := FinishChange(service, changed, saveOk);
      r := Ok(version);
    }

    method RemoveMembers(service: string, peers: seq<string>, saveOk: bool) returns (r: Result<u64, StoreError>)
      modifies this`services, this`indexVersion, this`file
      ensures View() == Perform(env, old(View()), StoreModel.RemoveMembers(service, peers))
      ensures r == EditResult(env, old(View()), StoreModel.RemoveMembers(service, peers))
      ensures file == if saveOk && View() != old(View()) then View() else old(file)
    {
      var bad := ValidatePeers(env, peers);
      if bad.Some? { return Err(InvalidPeer(bad.value)); }
      if service !in services { return Err(NotFound(service)); }
      var state := services[service];
      var members, changed := RemoveEach(state.members, peers);
      services := services[service := state.(members := members)];
      var version := FinishChange(service, changed, saveOk);
      r := Ok(version);
    }

    method SetMembers(service: string, peers: seq<string>, saveOk: bool) returns (r: Result<u64, StoreError>)
      modifies this`services, this`indexVersion, this`file
      ensures View() == Perform(env, old(View()), StoreModel.SetMembers(service, peers))
      ensures r == EditResult(env, old(View()), StoreModel.SetMembers(service, peers))
      ensures file == if saveOk && View() != old(View()) then View() else old(file)
    {
      var bad := ValidatePeers(env, peers);
      if bad.Some? { return Err(InvalidPeer(bad.value)); }
      if service !in services { return Err(NotFound(service)); }
      var wanted := ToSet(peers);
      var state := services[service];
      var changed := state.members != wanted;
      if changed {
        services := services[service := state.(members := wanted)];
      }
      var version := FinishChange(service, changed, saveOk);
      r := Ok(version);
    }

    method CreateService(service: string, peers: seq<string>, saveOk: bool) returns (r: Result<u64, StoreError>)
      modifies this`services, this`indexVersion, this`file
      ensures View() == Perform(env, old(View()), StoreModel.CreateService(service, peers))
      ensures r == SavedResult(env, old(View()), StoreModel.CreateService(service, peers), saveOk)
      ensures r.Ok? ==> saveOk && file == View()
      ensures file == if saveOk && View() != old(View()) then View() else old(file)
    {
      if !IsValidServiceName(service) { return Err(InvalidService(service)); }
      var bad := ValidatePeers(env, peers);
      if bad.Some? { return Err(InvalidPeer(bad.value)); }
      if service in services { return Err(AlreadyExists(service)); }
      services := services[service := ServiceState(1, ToSet(peers))];
      indexVersion := WrapInc(indexVersion);
      var ok := Save(saveOk);
      return if ok then Ok(1) else Err(Io);
    }

    method DeleteService(service: string, saveOk: bool) returns (r: Result<u64, StoreError>)
      modifies this`services, this`tombstones, this`indexVersion, this`file
      ensures View() == Perform(env, old(View()), StoreModel.DeleteService(service))
      ensures r == SavedResult(env, old(View()), StoreModel.DeleteService(service), saveOk)
      ensures r.Ok? ==> saveOk && file == View()
      ensures file == if saveOk && View() != old(View()) then View() else old(file)
    {
      if service !in services { return Err(NotFound(service)); }
      var removed := services[service];
      services := services - {service};
      var tombstone := WrapInc(removed.version);
      tombstones := tombstones[service := tombstone];
      indexVersion := WrapInc(indexVersion);
      var ok := Save(saveOk);
      return if ok then Ok(tombstone) else Err(Io);
    }

    method BumpIndexVersion(saveOk: bool) returns (version: u64)
      modifies this`indexVersion, this`file
      ensures View() == old(View()).(indexVersion := WrapInc(old(indexVersion))) && version == indexVersion
      ensures file == if saveOk then View() else old(file)
    {
      indexVersion := WrapInc(indexVersion);
      var _ := Save(saveOk);
      return indexVersion;
    }

    /** Merges one entry; the flag tells exactly whether the service's cell changed. */
    method MergeService(service: string, version: u64, members: seq<string>, deleted: bool)
      returns (r: Result<bool, StoreError>)
      modifies this`services, this`tombstones
      ensures r.Ok? <==> ValidEntry(env, service, EntryFrom(version, members, deleted))
      ensures r.Err? ==> View() == old(View())
      ensures r.Err? ==>
                if IsValidServiceName(service)
                then r.error.InvalidPeer? && r.error.peer in members && !env.validPeer(r.error.peer)
                else r.error == InvalidService(service)
      ensures r.Ok? ==> View() == WithCell(old(View()), service,
                          MergeCell(env, CellOf(old(View()), service), EntryFrom(version, members, deleted)))
      ensures r.Ok? ==> r.value == Supersedes(env, CellOf(old(View()), service), EntryFrom(version, members, deleted))
    {
      ghost var e := EntryFrom(version, members, deleted);
      WithCellFrame(View(), service, CellOf(View(), service), service);
      if !IsValidServiceName(service) { return Err(InvalidService(service)); }
      var current := if service in services then services[service].version else 0;
      var tombstone := if service in tombstones then tombstones[service] else 0;
      if deleted {
        if version < current || version < tombstone { return Ok(false); }
        if service !in services && tombstone >= version { return Ok(false); }
        services := services - {service};
        tombstones := tombstones[service := version];
        return Ok(true);
      }
      var bad := ValidatePeers(env, members);
      if bad.Some? { return Err(InvalidPeer(bad.value)); }
      if version <= tombstone || version < current { return Ok(false); }
      var incoming := ToSet(members);
      if version == current {
        assert service in services;
        var existing := services[service];
        if existing.members == incoming { return Ok(false); }
        var mine := MembersHash(env, existing.members);
        var theirs := MembersHash(env, incoming);
        if mine >= theirs { return Ok(false); }
      }
      services := services[service := ServiceState(version, incoming)];
      tombstones := tombstones - {service};
      return Ok(true);
    }

    /** Merges one entry and raises the index version, even when the entry itself is old. */
    method MergeEntry(service: string, version: u64, members: seq<string>, index: u64, deleted: bool)
      returns (r: Result<bool, StoreError>)
      modifies this`services, this`tombstones, this`indexVersion
      ensures r.Ok? <==> ValidEntry(env, service, EntryFrom(version, members, deleted))
      ensures r.Err? ==> View() == old(View())
      ensures r.Ok? ==> View() == MergeOne(env, old(View()), service, EntryFrom(version, members, deleted), index)
      ensures r.Ok? ==> (r.value <==> View() != old(View()))
    {
      MergeOneForward(env, View(), service, EntryFrom(version, members, deleted), index);
      r := MergeService(service, version, members, deleted);
      if r.Err? { return; }
      var indexChanged := index > indexVersion;
      if indexChanged {
        indexVersion := index;
      }
      r := Ok(r.value || indexChanged);
    }

    /**
     A received change: merged in memory, and written if anything changed. After Ok the file agrees with
     memory exactly if something changed or it agreed before.
     */
    method ApplyReplicated(service: string, version: u64, members: seq<string>, index: u64, deleted: bool, saveOk: bool)
      returns (r: Result<bool, StoreError>)
      modifies this`services, this`tombstones, this`indexVersion, this`file
      ensures View() == (if ValidEntry(env, service, EntryFrom(version, members, deleted))
                         then MergeOne(env, old(View()), service, EntryFrom(version, members, deleted), index)
                         else old(View()))
      ensures r.Ok? <==>
                ValidEntry(env, service, EntryFrom(version, members, deleted)) && (saveOk || View() == old(View()))
      ensures r.Ok? ==> (r.value <==> View() != old(View()))
      ensures file == if saveOk && View() != old(View()) then View() else old(file)
      ensures r.Ok? ==> (file == View() <==> r.value || old(file == View()))
    {
      r := MergeEntry(service, version, members, index, deleted);
      if r.Ok? && r.value {
        var ok := Save(saveOk);
        if !ok { return Err(Io); }
      }
    }

    /** One iteration: merges entry `i` of `es` into a state that has merged those before it. */
    method MergeNth(version: u64, members: seq<string>, deleted: bool, name: string, index: u64,
                    ghost start: Snapshot, ghost es: seq<Named>, ghost i: nat)
      returns (one: Result<bool, StoreError>)
      requires i < |es| && es[i] == (name, EntryFrom(version, members, deleted))
      requires View() == MergeAll(env, start, es[..i], index) && AllValid(env, es[..i])
      modifies this`services, this`tombstones, this`indexVersion
      ensures one.Ok? ==> View() == MergeAll(env, start, es[..i + 1], index) && AllValid(env, es[..i + 1])
      ensures one.Ok? ==> (View() != start <==> old(View()) != start || one.value)
      ensures one.Err? ==> Merged(env, start, es, index, View(), one)
    {
      ForwardStep(env, start, View(), es, i, index);
      one := MergeEntry(name, version, members, index, deleted);
      if one.Err? {
        assert FirstBad(env, es, i);
      }
    }

    /** The first loop of `merge_snapshot`: the services by name. */
    method MergeServices(snapshot: Snapshot) returns (r: Result<bool, StoreError>)
      modifies this`services, this`tombstones, this`indexVersion
      ensures Merged(env, old(View()), LiveOf(snapshot), snapshot.indexVersion, View(), r)
    {
      hide SortedStrings, Ascending, MergeOne, ValidEntry, FirstBad;
      ghost var start := View();
      var names := SortedStrings(snapshot.services.Keys);
      ghost var es := LiveOf(snapshot);
      var changed := false;
      assert es[..0] == [];
      for i := 0 to |names|
        invariant View() == MergeAll(env, start, es[..i], snapshot.indexVersion)
        invariant AllValid(env, es[..i])
        invariant changed <==> View() != start
      {
        var state := snapshot.services[names[i]];
        var members := SortedStrings(state.members);
        assert EntryFrom(state.version, members, false) == es[i].1 by { assert ToSet(members) == state.members; }
        var one := MergeNth(state.version, members, false, names[i], snapshot.indexVersion, start, es, i);
        if one.Err? { return one; }
        changed := changed || one.value;
      }
      assert es[..|es|] == es;
      return Ok(changed);
    }

    /** The second loop of `merge_snapshot`: the tombstones by name. */
    method MergeTombstones(snapshot: Snapshot) returns (r: Result<bool, StoreError>)
      modifies this`services, this`tombstones, this`indexVersion
      ensures Merged(env, old(View()), TombsOf(snapshot), snapshot.indexVersion, View(), r)
    {
      hide SortedStrings, Ascending, MergeOne, ValidEntry, FirstBad;
      ghost var start := View();
      var names := SortedStrings(snapshot.tombstones.Keys);
      ghost var es := TombsOf(snapshot);
      var changed := false;
      assert es[..0] == [];
      for i := 0 to |names|
        invariant View() == MergeAll(env, start, es[..i], snapshot.indexVersion)
        invariant AllValid(env, es[..i])
        invariant changed <==> View() != start
      {
        var one := MergeNth(snapshot.tombstones[names[i]], [], true, names[i], snapshot.indexVersion, start, es, i);
        if one.Err? { return one; }
        changed := changed || one.value;
      }
      assert es[..|es|] == es;
      return Ok(changed);
    }

    /**
     Merges a whole snapshot and writes once. The flag is exact, and after Ok the file agrees with memory
     exactly if something changed or it agreed before. An entry that does not validate stops the loop and
     leaves what came before it merged in memory, unsaved.
     */
    method MergeSnapshot(snapshot: Snapshot, saveOk: bool) returns (r: Result<bool, StoreError>)
      modifies this`services, this`tombstones, this`indexVersion, this`file
      ensures AllValid(env, EntriesOf(snapshot)) ==>
                && View() == MergeAll(env, old(View()), EntriesOf(snapshot), snapshot.indexVersion)
                && (r.Ok? <==> saveOk || View() == old(View()))
                && (r.Ok? ==> (r.value <==> View() != old(View())))
                && file == if saveOk && View() != old(View()) then View() else old(file)
      ensures r.Ok? ==> (file == View() <==> r.value || old(file == View()))
      ensures !AllValid(env, EntriesOf(snapshot)) ==>
                && r.Err? && file == old(file)
                && StoppedAtFirstBad(env, old(View()), EntriesOf(snapshot), snapshot.indexVersion, View())
    {
      hide SortedStrings, Ascending, MergeOne, MergeAll, ValidEntry, FirstBad, AllValid, StoppedAtFirstBad;
      ghost var start := View();
      var changed := false;
      r := MergeServices(snapshot);
      ghost var mid := View();
      if r.Err? {
        StopEarly(env, start, LiveOf(snapshot), TombsOf(snapshot), snapshot.indexVersion, mid);
        return;
      }
      changed := r.value;
      r := MergeTombstones(snapshot);
      if r.Err? {
        StopLate(env, start, LiveOf(snapshot), TombsOf(snapshot), snapshot.indexVersion, View());
        return;
      }
      changed := changed || r.value;
      MergeBoth(env, start, LiveOf(snapshot), TombsOf(snapshot), snapshot.indexVersion);
      if changed {
        var ok := Save(saveOk);
        if !ok { return Err(Io); }
      }
      return Ok(changed);
    }
  }

  /** An edit whose save failed unnoticed, then a merge that changes nothing: Ok, and the file is behind. */
  method StaleFileAfterOk(env: Env)
    returns (store: Store, edit: Result<u64, StoreError>, merge: Result<bool, StoreError>)
    requires env.validPeer("p")
    ensures edit == Ok(2) && merge == Ok(false)
    ensures store.services == map["svc" := ServiceState(2, {"p"})]
    ensures store.file.services == map["svc" := ServiceState(1, {})]
  {
    store := new Store(env, Snapshot("net", 1, map["svc" := ServiceState(1, {})], map[]));
    assert ToSet(["p"]) == {"p"};
    edit := store.AddMembers("svc", ["p"], false);
    ghost var edited := store.View();
    var nothing := Snapshot("net", 0, map[], map[]);
    assert EntriesOf(nothing) == [];
    merge := store.MergeSnapshot(nothing, true);
    assert store.View() == edited;
  }

  // ---------------------------------------------------------------- vocabulary of the contracts

  /** The answer of an edit, which ignores a failed write. */
  function EditResult(env: Env, s: Snapshot, op: Op): Result<u64, StoreError> {
    var refusal := Refusal(env, s, op);
    if refusal.Some? then Err(refusal.value) else Ok(Answer(s, op))
  }

  /** The answer of a creation or deletion, which reports a failed write. */
  function SavedResult(env: Env, s: Snapshot, op: Op, saveOk: bool): Result<u64, StoreError> {
    var r := EditResult(env, s, op);
    if r.Ok? && !saveOk then Err(Io) else r
  }

  function EntryFrom(version: u64, members: seq<string>, deleted: bool): Entry {
    if deleted then Tomb(version) else Live(version, ToSet(members))
  }

  ghost predicate AllValid(env: Env, es: seq<Named>) {
    forall i :: 0 <= i < |es| ==> ValidEntry(env, es[i].0, es[i].1)
  }

  ghost predicate FirstBad(env: Env, es: seq<Named>, k: int) {
    && 0 <= k < |es| && !ValidEntry(env, es[k].0, es[k].1)
    && forall i :: 0 <= i < k ==> ValidEntry(env, es[i].0, es[i].1)
  }

  /** Merges never come back: once something changed, the snapshot stays different. */
  lemma ForwardStep(env: Env, start: Snapshot, before: Snapshot, es: seq<Named>, i: nat, index: u64)
    requires i < |es| && before == MergeAll(env, start, es[..i], index)
    ensures var after := MergeOne(env, before, es[i].0, es[i].1, index);
            && after == MergeAll(env, start, es[..i + 1], index)
            && (after != start <==> before != start || after != before)
  {
    assert es[..i + 1][..i] == es[..i];
    var after := MergeOne(env, before, es[i].0, es[i].1, index);
    MergeAllForward(env, start, es[..i], index);
    MergeOneForward(env, before, es[i].0, es[i].1, index);
    if after == start {
      SnapLeqAntisymmetric(env, start, before);
    }
  }

  ghost function LiveOf(s: Snapshot): seq<Named> { LiveEntries(s.services, SortedStrings(s.services.Keys)) }

  ghost function TombsOf(s: Snapshot): seq<Named> { TombEntries(s.tombstones, SortedStrings(s.tombstones.Keys)) }

  ghost predicate StoppedAtFirstBad(env: Env, start: Snapshot, es: seq<Named>, index: u64, end: Snapshot) {
    exists k :: FirstBad(env, es, k) && end == MergeAll(env, start, es[..k], index)
  }

  /** The result of merging a list: everything with an exact flag, or the part before the first bad entry. */
  ghost predicate Merged(env: Env, start: Snapshot, es: seq<Named>, index: u64, end: Snapshot,
                         r: Result<bool, StoreError>) {
    && (r.Ok? <==> AllValid(env, es))
    && (r.Ok? ==> end == MergeAll(env, start, es, index) && (r.value <==> end != start))
    && (r.Err? ==> StoppedAtFirstBad(env, start, es, index, end))
  }

  lemma StopEarly(env: Env, start: Snapshot, es: seq<Named>, fs: seq<Named>, index: u64, end: Snapshot)
    requires StoppedAtFirstBad(env, start, es, index, end)
    ensures !AllValid(env, es + fs) && StoppedAtFirstBad(env, start, es + fs, index, end)
  {
    var k :| FirstBad(env, es, k) && end == MergeAll(env, start, es[..k], index);
    assert (es + fs)[k] == es[k];
    assert FirstBad(env, es + fs, k) && (es + fs)[..k] == es[..k];
  }

  lemma StopLate(env: Env, start: Snapshot, es: seq<Named>, fs: seq<Named>, index: u64, end: Snapshot)
    requires AllValid(env, es)
    requires StoppedAtFirstBad(env, MergeAll(env, start, es, index), fs, index, end)
    ensures !AllValid(env, es + fs) && StoppedAtFirstBad(env, start, es + fs, index, end)
  {
    var k :| FirstBad(env, fs, k) && end == MergeAll(env, MergeAll(env, start, es, index), fs[..k], index);
    assert (es + fs)[|es| + k] == fs[k];
    assert FirstBad(env, es + fs, |es| + k);
    assert (es + fs)[..|es| + k] == es + fs[..k];
    MergeBoth(env, start, es, fs[..k], index);
  }

  lemma MergeBoth(env: Env, start: Snapshot, es: seq<Named>, fs: seq<Named>, index: u64)
    ensures var mid := MergeAll(env, start, es, index);
            var end := MergeAll(env, mid, fs, index);
            && end == MergeAll(env, start, es + fs, index)
            && (end != start <==> mid != start || end != mid)
    ensures AllValid(env, es + fs) <==> AllValid(env, es) && AllValid(env, fs)
  {
    var mid := MergeAll(env, start, es, index);
    var end := MergeAll(env, mid, fs, index);
    assert (es + fs)[..|es|] == es && (es + fs)[|es|..] == fs;
    MergeSplit(env, start, es + fs, |es|, index);
    MergeAllForward(env, start, es, index);
    MergeAllForward(env, mid, fs, index);
    if end == start { SnapLeqAntisymmetric(env, start, mid); }
    forall i | 0 <= i < |fs| ensures (es + fs)[|es| + i] == fs[i] {}
    if AllValid(env, es + fs) {
      forall i | 0 <= i < |es| ensures ValidEntry(env, es[i].0, es[i].1) { assert (es + fs)[i] == es[i]; }
      forall i | 0 <= i < |fs| ensures ValidEntry(env, fs[i].0, fs[i].1) { assert (es + fs)[|es| + i] == fs[i]; }
    }
  }
}

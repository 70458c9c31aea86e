/** The Raft log of src/raft/storage.rs: a table of entries by index and the id of the last purged one. */
module LogStore {
  import opened Common
  import opened Ordering
  import opened RaftStorage

  type Table = map<nat, Entry>

  datatype LogState = LogState(lastPurged: Option<LogId>, last: Option<LogId>)

  lemma NatLessStrictTotal()
    ensures StrictTotal(NatLess)
  {}

  /** The keys of a table in the order it is iterated. */
  function Keys(t: Table): (ks: seq<nat>)
    ensures forall k :: k in ks <==> k in t
    ensures Ascending(ks, NatLess)
  {
    NatLessStrictTotal();
    Sorted(t.Keys, NatLess)
  }

  /** The entries of a table from `lo` up to, not including, `hi`, in key order. */
  function Within(t: Table, lo: nat, hi: nat): Table {
    map k | k in t && lo <= k < hi :: t[k]
  }

  function Values(t: Table, ks: seq<nat>): seq<Entry>
    requires forall k :: k in ks ==> k in t
  {
    seq(|ks|, i requires 0 <= i < |ks| => t[ks[i]])
  }

  function Inserted(t: Table, es: seq<Entry>): Table {
    if es == [] then t else
      var last := es[|es| - 1];
      Inserted(t, es[..|es| - 1])[last.logId.index := last]
  }

  class LogStore {
    var table: Table
    var lastPurged: Option<LogId>

    constructor ()
      ensures table == map[] && lastPurged == None
    {
      table := map[];
      lastPurged := None;
    }

    method Append(entries: seq<Entry>, commitOk: bool) returns (ok: bool)
      modifies this`table
      ensures ok == commitOk && table == if commitOk then Inserted(old(table), entries) else old(table)
    {
      var t := table;
      assert entries[..0] == [];
      for i := 0 to |entries|
        invariant t == Inserted(table, entries[..i])
      {
        assert entries[..i + 1][..i] == entries[..i];
        t := t[entries[i].logId.index := entries[i]];
      }
      assert entries[..|entries|] == entries;
      if commitOk { table := t; }
      return commitOk;
    }

    /** Collects the keys from the given index on and removes them one by one. */
    method Truncate(id: LogId, commitOk: bool) returns (ok: bool)
      modifies this`table
      ensures ok == commitOk
      ensures table == if commitOk then (map k | k in old(table) && k < id.index :: old(table)[k]) else old(table)
    {
      hide Keys, Ascending;
      var all := Keys(table);
      var keys: seq<nat> := [];
      for i := 0 to |all|
        invariant forall k :: k in keys <==> k in all[..i] && k >= id.index
      {
        if all[i] >= id.index { keys := keys + [all[i]]; }
      }
      assert all[..|all|] == all;
      var t := RemoveEach(table, keys);
      if commitOk {
        table := t;
      }
      return commitOk;
    }

    /** Removes the keys up to the given index and remembers the id, in one transaction. */
    method Purge(id: LogId, commitOk: bool) returns (ok: bool)
      modifies this
      ensures ok == commitOk
      ensures table == if commitOk then (map k | k in old(table) && k > id.index :: old(table)[k]) else old(table)
      ensures lastPurged == if commitOk then Some(id) else old(lastPurged)
    {
      hide Keys, Ascending;
      var all := Keys(table);
      var keys: seq<nat> := [];
      for i := 0 to |all|
        invariant forall k :: k in keys <==> k in all[..i] && k <= id.index
      {
        if all[i] <= id.index { keys := keys + [all[i]]; }
      }
      assert all[..|all|] == all;
      var t := RemoveEach(table, keys);
      if commitOk {
        table := t;
        lastPurged := Some(id);
      }
      return commitOk;
    }

    /** Walks the whole table; the last entry seen gives the last id. */
    method GetLogState() returns (s: LogState)
      ensures s == Reported(table, lastPurged)
    {
      hide Ascending;
      var keys := Keys(table);
      var last: Option<LogId> := None;
      for i := 0 to |keys|
        invariant last == if i == 0 then None else Some(table[keys[i - 1]].logId)
      {
        last := Some(table[keys[i]].logId);
      }
      return LogState(lastPurged, if last.Some? then last else lastPurged);
    }

    method TryGetLogEntries(lo: nat, hi: nat) returns (entries: seq<Entry>)
      ensures entries == Values(table, Keys(Within(table, lo, hi)))
    {
      hide Ascending;
      var keys := Keys(Within(table, lo, hi));
      entries := [];
      assert forall j :: 0 <= j < |keys| ==> keys[j] in keys && keys[j] in Within(table, lo, hi);
      for i := 0 to |keys|
        invariant forall j :: 0 <= j < |keys| ==> keys[j] in table
        invariant entries == Values(table, keys[..i])
      {
        entries := entries + [table[keys[i]]];
      }
      assert keys[..|keys|] == keys;
    }
  }

  /** The id of the entry with the greatest key, or the purged id of an empty table. */
  function Reported(t: Table, lastPurged: Option<LogId>): LogState {
    var keys := Keys(t);
    LogState(lastPurged, if keys == [] then lastPurged else Some(t[keys[|keys| - 1]].logId))
  }

  method RemoveEach(t: Table, keys: seq<nat>) returns (r: Table)
    ensures r == map k | k in t && k !in keys :: t[k]
  {
    r := t;
    for i := 0 to |keys|
      invariant r == map k | k in t && k !in keys[..i] :: t[k]
    {
      assert keys[..i + 1] == keys[..i] + [keys[i]];
      r := r - {keys[i]};
    }
    assert keys[..|keys|] == keys;
  }

  // ---------------------------------------------------------------- the log it stands for

  /** A log as Raft sees it: what was purged, then entries without gaps. */
  datatype Log = Log(purged: Option<LogId>, entries: seq<Entry>) {
    function First(): nat {
      if purged.None? then 0 else purged.value.index + 1
    }

    ghost predicate Contiguous() {
      forall i :: 0 <= i < |entries| ==> entries[i].logId.index == First() + i
    }

    function LastId(): Option<LogId> {
      if entries == [] then purged else Some(entries[|entries| - 1].logId)
    }

    /** The entries with index in `[lo, hi)`. */
    function Slice(lo: nat, hi: nat): seq<Entry> {
      var from := Clamp(lo);
      var to := Clamp(hi);
      if from <= to then entries[from..to] else []
    }

    function Clamp(index: nat): (i: nat)
      ensures i <= |entries|
    {
      if index <= First() then 0 else if index - First() >= |entries| then |entries| else index - First()
    }
  }

  datatype Op = Append(entries: seq<Entry>) | Truncate(id: LogId) | Purge(id: LogId)

  /** What Raft asks for: appends continue the log, purges go forward. A failed commit is no operation. */
  ghost predicate Asked(log: Log, op: Op) {
    match op
    case Append(es) => forall i :: 0 <= i < |es| ==> es[i].logId.index == log.First() + |log.entries| + i
    case Truncate(_) => true
    case Purge(id) => log.purged.Some? ==> id.index >= log.purged.value.index
  }

  function LogStep(log: Log, op: Op): Log {
    match op
    case Append(es) => log.(entries := log.entries + es)
    case Truncate(id) => log.(entries := log.entries[..log.Clamp(id.index)])
    case Purge(id) => Log(Some(id), log.entries[log.Clamp(id.index + 1)..])
  }

  datatype Stored = Stored(table: Table, lastPurged: Option<LogId>)

  /** The effect of a committed method call, as their contracts state it. */
  function StoredStep(s: Stored, op: Op): Stored {
    match op
    case Append(es) => s.(table := Inserted(s.table, es))
    case Truncate(id) => s.(table := map k | k in s.table && k < id.index :: s.table[k])
    case Purge(id) => Stored(map k | k in s.table && k > id.index :: s.table[k], Some(id))
  }

  /** The table holds exactly the entries above the purged id, each under its index. */
  ghost predicate Refines(s: Stored, log: Log) {
    && log.Contiguous()
    && s.lastPurged == log.purged
    && (forall k :: k in s.table <==> log.First() <= k < log.First() + |log.entries|)
    && (forall i :: 0 <= i < |log.entries| ==> s.table[log.First() + i] == log.entries[i])
  }

  lemma {:induction false} InsertedContent(t: Table, es: seq<Entry>, start: nat)
    requires forall i :: 0 <= i < |es| ==> es[i].logId.index == start + i
    ensures forall k :: k in Inserted(t, es) <==> k in t || start <= k < start + |es|
    ensures forall k :: k in Inserted(t, es) ==>
              Inserted(t, es)[k] == if start <= k < start + |es| then es[k - start] else t[k]
  {
    if es != [] {
      InsertedContent(t, es[..|es| - 1], start);
    }
  }

  lemma AppendRefines(s: Stored, log: Log, es: seq<Entry>)
    requires Refines(s, log) && Asked(log, Append(es))
    ensures Refines(StoredStep(s, Append(es)), LogStep(log, Append(es)))
  {
    hide Inserted;
    InsertedContent(s.table, es, log.First() + |log.entries|);
  }

  lemma TruncateRefines(s: Stored, log: Log, id: LogId)
    requires Refines(s, log)
    ensures Refines(StoredStep(s, Truncate(id)), LogStep(log, Truncate(id)))
  {
    assert LogStep(log, Truncate(id)).First() == log.First();
  }

  lemma PurgeRefines(s: Stored, log: Log, id: LogId)
    requires Refines(s, log) && Asked(log, Purge(id))
    ensures Refines(StoredStep(s, Purge(id)), LogStep(log, Purge(id)))
  {
    var next := LogStep(log, Purge(id));
    var cut := log.Clamp(id.index + 1);
    assert next.entries != [] ==> next.First() == log.First() + cut;
    forall i | 0 <= i < |next.entries|
      ensures next.First() + i in StoredStep(s, Purge(id)).table
      ensures StoredStep(s, Purge(id)).table[next.First() + i] == next.entries[i]
    {
      assert next.entries[i] == log.entries[cut + i];
      assert log.First() + (cut + i) in s.table;
    }
  }

  lemma StepRefines(s: Stored, log: Log, op: Op)
    requires Refines(s, log) && Asked(log, op)
    ensures Refines(StoredStep(s, op), LogStep(log, op))
  {
    match op
    case Append(es) => AppendRefines(s, log, es);
    case Truncate(id) => TruncateRefines(s, log, id);
    case Purge(id) => PurgeRefines(s, log, id);
  }

  function LogRun(log: Log, ops: seq<Op>): Log {
    if ops == [] then log else LogStep(LogRun(log, ops[..|ops| - 1]), ops[|ops| - 1])
  }

  function StoredRun(s: Stored, ops: seq<Op>): Stored {
    if ops == [] then s else StoredStep(StoredRun(s, ops[..|ops| - 1]), ops[|ops| - 1])
  }

  ghost predicate AllAsked(log: Log, ops: seq<Op>) {
    ops != [] ==> AllAsked(log, ops[..|ops| - 1]) && Asked(LogRun(log, ops[..|ops| - 1]), ops[|ops| - 1])
  }

  /** From an empty store, after any asked operations, the table is the log. */
  lemma {:induction false} RunRefines(ops: seq<Op>)
    requires AllAsked(Log(None, []), ops)
    ensures Refines(StoredRun(Stored(map[], None), ops), LogRun(Log(None, []), ops))
  {
    if ops != [] {
      RunRefines(ops[..|ops| - 1]);
      StepRefines(StoredRun(Stored(map[], None), ops[..|ops| - 1]), LogRun(Log(None, []), ops[..|ops| - 1]),
        ops[|ops| - 1]);
    }
  }

  function Count(from: nat, n: nat): (ks: seq<nat>)
    ensures |ks| == n && forall i :: 0 <= i < n ==> ks[i] == from + i
  {
    seq(n, i => from + i)
  }

  lemma KeysOfInterval(t: Table, from: nat, n: nat)
    requires forall k :: k in t <==> from <= k < from + n
    ensures Keys(t) == Count(from, n)
  {
    NatLessStrictTotal();
    var ks := Count(from, n);
    forall k ensures k in ks <==> k in t { if from <= k < from + n { assert ks[k - from] == k; } }
    AscendingUnique(Keys(t), ks, NatLess);
  }

  /** A range read of a store that refines a log is the matching slice of the log. */
  lemma RangeReadIsSlice(s: Stored, log: Log, lo: nat, hi: nat)
    requires Refines(s, log)
    ensures Values(s.table, Keys(Within(s.table, lo, hi))) == log.Slice(lo, hi)
  {
    hide Refines, Keys, Within;
    var c := log.Clamp(lo);
    var n := |log.Slice(lo, hi)|;
    WithinInterval(s, log, lo, hi);
    KeysOfInterval(Within(s.table, lo, hi), log.First() + c, n);
    ValuesOfCount(s, log, c, n);
  }

  lemma ValuesOfCount(s: Stored, log: Log, c: nat, n: nat)
    requires Refines(s, log) && c + n <= |log.entries|
    ensures forall k :: k in Count(log.First() + c, n) ==> k in s.table
    ensures Values(s.table, Count(log.First() + c, n)) == log.entries[c..c + n]
  {
    var ks := Count(log.First() + c, n);
    forall i | 0 <= i < n ensures ks[i] in s.table && s.table[ks[i]] == log.entries[c..c + n][i] {
      assert s.table[log.First() + (c + i)] == log.entries[c + i];
    }
  }

  lemma WithinInterval(s: Stored, log: Log, lo: nat, hi: nat)
    requires Refines(s, log)
    ensures var from := log.First() + log.Clamp(lo);
            forall k :: k in Within(s.table, lo, hi) <==> from <= k < from + |log.Slice(lo, hi)|
  {}

  /** The reported state is the true last id, or the purged one when no entry is left. */
  lemma LogStateIsTrue(s: Stored, log: Log)
    requires Refines(s, log)
    ensures Reported(s.table, s.lastPurged) == LogState(log.purged, log.LastId())
  {
    hide Refines, Keys;
    TableKeys(s, log);
  }

  lemma TableKeys(s: Stored, log: Log)
    requires Refines(s, log)
    ensures s.lastPurged == log.purged
    ensures Keys(s.table) == Count(log.First(), |log.entries|)
    ensures log.entries != [] ==>
              var k := log.First() + (|log.entries| - 1);
              k in s.table && s.table[k] == log.entries[|log.entries| - 1]
  {
    hide Keys;
    KeysOfInterval(s.table, log.First(), |log.entries|);
  }
}

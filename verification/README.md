# NexusAuth: a verified model

NexusAuth keeps, for every service of a network, a whitelist of members with a version, and
publishes signed whitelists and a signed index to the nodes of a DHT. It does this in two ways. In
the older one every replica accepts writes and the replicas merge each other's changes. In the newer
one the writes go through a Raft log and only the leader publishes. This project models both, and
proves what they promise over whole runs. `dafny verify dfyconfig.toml` checks it.

The modules follow the program:

- `StoreModel`, `MergeLaws`, `Store`, `Members`: the state store, its merge rules, the tie-break bytes.
- `Replication`: any number of replicas that restart, whose saves fail and whose messages are lost,
  repeated and reordered.
- `Effects`: what every operation and command does, peer by peer and along a log.
- `PolicyModel`, `PolicyMachine`, `PolicyEpochs`, `Idempotency`, `Retention`, `JoinTokens`,
  `Simulation`: the replicated policy state machine.
- `RaftStorage`, `LogStore`: its durable store and the log under it.
- `Publisher`, `PublisherLaws`, `Authority`: publication rounds.
- `Requests`, `Replay`, `Joins`, `Seeds`, `Overlap`: request identity, the nonce guard, concurrent
  joins, and membership changes with the authority seed, one at a time and overlapping.
- `Common`, `Ordering`: shared values and sorted listings.

Code that changes state in place is a class (`Store.Store`, `PolicyMachine.Machine`,
`RaftStorage.StateMachineStore`, `LogStore.LogStore`, `Publisher.Publisher`, `Replay.ReplayGuard`).
Each method is proved against a function on values, and the theorems are about
those functions.

What the code does not decide is a parameter: whether a peer id parses, the SHA-256 digest,
signatures, whether a file write or a database commit succeeds, clocks, leadership, the registered
connections and their acknowledgements, and whether a call to Raft or to another node fails, with or
without having taken effect.

The central idea for the merge is the *effective value* of a service: the greater of its live entry
and its tombstone, ordered by version, then deleted over live, then digest of the members. A missing
tombstone counts as a tombstone of version 0, as the comparison in the code treats it. On every
state, also one with a re-created service beside an old tombstone, a merge is the join of effective
values.

## Where the code differs from what one expects

- A service created over a tombstone starts at version 1 again and stays covered by the tombstone; a
  later deletion can then lower that tombstone. `CreateCountsIff`,
  `LocalIsMergeIff` and `DeleteForwardIff` give the exact conditions, `RecreateLowersTombstone` and
  `RecreationHides` the failing inputs.
- Merging one's own snapshot changes nothing exactly when no service is live at or below its own
  tombstone (`SelfMerge`).
- The applied log id is written as an option and read back as a plain id, so a node that commits
  before it has applied anything cannot be reopened. `ReopenLostIff` says which steps do this and
  `EmptyBatchBlocksReopen` gives one.
- Token commands report a change without advancing the epoch, so the epoch identifies services,
  tombstones and expiry, but not tokens. At `u64::MAX` it no longer identifies those either
  (`EpochExhausted`).
- A failed member operation can leave the seed with someone who is not a voter.
  `FailedPromotionBalancedIff`, `DemotionBalancedIff` and `RemovalBalancedIff` say exactly when, in
  terms of which calls took effect; `PromotionLeavesSeed`, `DemotionLeavesSeed` and
  `RemovalLeavesSeed` give inputs. The last needs no lost reply: when a voter has lost its vote and
  then cannot be taken out of the group, giving its seed back leaves a learner with the seed.
- Member operations take no lock. When two overlap, each asks for a whole voter set computed from what
  it read before, and a voter can end without the seed although both report success: because one
  reading was out of date (`OverlapLosesSeed`), or because both worked on one node
  (`SameNodeLosesSeed`). `ChangeUpToDateIff` and `SeedFollowsVote` say exactly when seeds follow the
  votes. The voter set never empties in any case (`VotersSurviveOverlap`).
- An edit does not report a failed save, so a later merge can answer Ok with a file behind memory
  (`StaleFileAfterOk`), and a restart then takes a service back (`RestartForgets`). The contracts of
  `ApplyReplicated` and `MergeSnapshot` and `RestartAtMaxIff` are exact about this, and
  `SavedIsCurrent` covers runs whose saves succeed.
- A request is applied again once its record has expired or been pushed out (`DuplicateIff`,
  `AppliedTwice`).
- A member containing NUL would make the tie-break bytes ambiguous (`NulBreaksEncoding`).

## Model

| member | source | states |
|---|---|---|
| `Authority.KeysDisjoint` | src/authority.rs:181-191 | two services of one network never share a DHT key, and no service has the key of the index |
| `Members.MembersHash` | src/store.rs:450-457 | the buffer filled member by member is the sorted NUL-terminated encoding of the set, and its digest is returned |
| `Members.EncodingInjective` | src/store.rs:450-457 | two sets of NUL-free strings have equal bytes if and only if they are equal |
| `Members.NulBreaksEncoding` | src/store.rs:450-457 | without the NUL-free condition two different sets share their bytes |
| `MergeLaws.TieBreakDecides` | src/store.rs:347-357 | if SHA-256 does not collide on the encodings at hand, the order behind the merge is a strict total order on the entries: asymmetric, transitive and total |
| `MergeLaws.MergeIsJoin` | src/store.rs:316-367 | on every state, the effective value after merging an entry is the join of the old one and the entry |
| `MergeLaws.MergeRules` | src/store.rs:316-367 | the merge in plain versions and digests: a deletion wins at an equal version and loses to anything newer, a live entry must be newer than the tombstone, and at an equal version the greater digest wins |
| `MergeLaws.MergeChanges` | src/store.rs:316-367 | a service and its tombstone change if and only if the entry supersedes them |
| `MergeLaws.JoinLaws` | src/store.rs:312-315 | the join is idempotent, associative, absorbs repetition, and is commutative without digest collisions |
| `MergeLaws.MergeOneForward` | src/store.rs:296-310 | a merged entry never moves any service or the index version back, and changes the state exactly when it supersedes or raises the index |
| `MergeLaws.MergeAllIsMax` | src/store.rs:386-400 | after any sequence of merges each service stands at the maximum of where it was and what came in, and the index version is raised only if there was an entry |
| `MergeLaws.MergeOrderIrrelevant` | src/store.rs:386-400 | the order, batching and repetition of merged entries never matter to the effective values |
| `MergeLaws.SnapshotMergeIsJoin` | src/store.rs:386-400 | merging a snapshot joins its effective value of each service in |
| `MergeLaws.SelfMerge` | src/store.rs:386-400 | merging one's own snapshot changes nothing if and only if no service is live at or below its own tombstone |
| `MergeLaws.NewsChanges` | src/store.rs:386-400 | one superseding entry anywhere in a snapshot makes the merged state differ: nothing later hides it |
| `MergeLaws.CreateCountsIff` | src/store.rs:260-278 | a created service becomes the effective value if and only if no tombstone above version 0 is held |
| `MergeLaws.DeleteForwardIff` | src/store.rs:281-291 | a deletion does not move the effective value back if and only if its tombstone does not wrap and reaches the one held |
| `MergeLaws.RecreateLowersTombstone` | src/store.rs:260-291 | creating over a tombstone at version 7 and deleting again leaves a tombstone at version 2 |
| `Store.ValidatePeers` | src/store.rs:440-447 | the reported peer is the first that does not parse, and none is reported if all parse |
| `Store.Store.constructor` | src/store.rs:110-116 | a store opened from its file holds exactly the content of the file |
| `Store.Store.FinishChange` | src/store.rs:419-429 | service and index version rise by one, with wrap-around, exactly on a change; a failed save is not reported |
| `Store.Store.AddMembers` | src/store.rs:217-228 | the loop adds the set of the peers, the versions move exactly if the members changed, refusals leave everything, the file follows a change |
| `Store.Store.RemoveMembers` | src/store.rs:231-242 | the same for removing the set of the peers |
| `Store.Store.SetMembers` | src/store.rs:245-257 | the same for replacing the members |
| `Store.Store.CreateService` | src/store.rs:260-278 | a new service at version 1, tombstones untouched; after Ok the file equals memory; a failed save is an error although memory has changed |
| `Store.Store.DeleteService` | src/store.rs:281-291 | the service becomes a tombstone one version up, whatever tombstone was held; after Ok the file equals memory; a failed save is an error although memory has changed |
| `Store.Store.BumpIndexVersion` | src/store.rs:412-416 | only the index version moves, by one with wrap-around |
| `Store.Store.MergeService` | src/store.rs:316-367 | the branches compute the merged cell of the lattice, the flag is exact, an invalid entry changes nothing, and the lookup after the version test never fails |
| `Store.Store.MergeEntry` | src/store.rs:296-310 | the index version rises even for an old entry, and the flag says exactly whether the state changed |
| `Store.Store.ApplyReplicated` | src/store.rs:370-383 | the merge and an exact flag; after Ok the file equals memory if and only if something changed or it did before; only a changing merge is written |
| `Store.Store.MergeServices` | src/store.rs:388-392 | the loop merges every service in name order, or stops at the first invalid one with those before it merged |
| `Store.Store.MergeTombstones` | src/store.rs:393-395 | the same for the tombstones |
| `Store.Store.MergeSnapshot` | src/store.rs:386-400 | all entries valid: the state is the merge of all and the flag is exact; otherwise an error, the entries before the first invalid one merged in memory, the file untouched; after Ok the file equals memory if and only if something changed or it did before |
| `Store.StaleFileAfterOk` | src/store.rs:419-429 | an edit whose save fails unnoticed and a merge of an empty snapshot both answer Ok, and the file is behind memory |
| `Effects.AcceptedIff` | src/store.rs:217-291 | an operation is accepted if and only if its name, all its peers and the presence of its service allow it |
| `Effects.RefusedWith` | src/store.rs:217-291 | a refusal names the first obstacle: the name, then the first peer that does not parse, then the service |
| `Effects.StoreEffect` | src/store.rs:217-291 | after an operation, peer by peer: an addition keeps and adds, a removal takes away exactly its peers, a replacement leaves exactly its peers; version and index move by one exactly if some peer made a difference; nothing else moves |
| `Replication.LocalIsMergeIff` | src/store.rs:217-291 | on every state an accepted operation is, for the effective value, the merge of the entry it announces if and only if it does not go back (a deletion below the held tombstone, or an uncovered wrap of the counter); other services are untouched |
| `Replication.RunKeepsOk` | src/replicate.rs:329-435 | in every run of local operations, lossy broadcasts, stale pulls, failed saves and restarts, whatever is held, filed, sent or offered was made by some operation, and validates on every replica |
| `Replication.LocalAtMaxIff` | src/store.rs:217-291 | a local operation keeps its replica at the maximum of what it absorbed if and only if it does not go back |
| `Replication.RestartAtMaxIff` | src/store.rs:100-116 | a restart keeps a replica at the maximum of what it absorbed if and only if its file is not behind memory on that service |
| `Replication.SavedIsCurrent` | src/store.rs:431-437 | in every run, a replica whose saves succeed has its memory on file at every moment, so that its restarts take nothing back |
| `Replication.RestartForgets` | src/store.rs:419-429 | an edit announced at version 2 whose save failed unnoticed stands at version 1 after a restart |
| `Replication.SteadyAtMax` | src/replicate.rs:329-435 | in every run, whatever other replicas do, a replica that never took a service back stands at the maximum of what it absorbed for it |
| `Replication.LocalPlainIff` | src/store.rs:260-278 | an operation leaves a service live beside a tombstone, or at version 0, if and only if it creates over a held tombstone or counts past u64::MAX; going back needs one of these first |
| `Replication.Convergence` | src/replicate.rs:329-435 | in every run, a replica that never took a service back stands at the maximum of what it absorbed for it; two such replicas that absorbed the same entries agree on its effective value, and on service and tombstone unless one holds it live beside a tombstone |
| `Replication.SameHistorySameState` | src/service.rs:1329-1352 | two replicas that absorbed the same entries have equal services and tombstones if neither of the two created over a held tombstone, counted past u64::MAX or restarted from a file behind, whatever the other replicas did |
| `Replication.ExchangeConverges` | src/replicate.rs:375-435 | from any point of any run, two replicas that pull each other once accept everything and agree on every effective value, on service and tombstone where neither held both, and on the index version unless a snapshot was empty |
| `Replication.RecreationHides` | src/store.rs:260-278 | after re-creating over a held tombstone, two replicas with the same history hold different services |
| `PolicyMachine.Machine.CreateService` | src/raft/state_machine.rs:341-362 | state and outcome of creation, with all refusals in order |
| `PolicyMachine.Machine.DeleteService` | src/raft/state_machine.rs:364-373 | the service becomes a tombstone one version up and the epoch rises |
| `PolicyMachine.Machine.AddMembers` | src/raft/state_machine.rs:375-390 | the loop adds the set of the peers and reports exactly whether the members changed |
| `PolicyMachine.Machine.RemoveMembers` | src/raft/state_machine.rs:392-407 | the loop removes the set of the peers and reports exactly whether the members changed |
| `PolicyMachine.Machine.SetMembers` | src/raft/state_machine.rs:409-425 | the members are replaced, and a change is reported exactly if they differ |
| `PolicyMachine.Machine.FinishChange` | src/raft/state_machine.rs:427-435 | version and epoch rise by one, saturating, exactly on a change |
| `PolicyMachine.Machine.ApplyInner` | src/raft/state_machine.rs:211-258 | one bare command leads to the state and outcome of the step function; a nested admin command is refused |
| `PolicyMachine.Machine.PruneDedup` | src/raft/state_machine.rs:192-208 | the two loops end and leave the pruned table that `Idempotency.PruneExact` describes |
| `PolicyMachine.Machine.ApplyAdmin` | src/raft/state_machine.rs:126-190 | a known request id is answered from the table, a new one applied, recorded and pruned |
| `PolicyMachine.Machine.ApplyCommandAt` | src/raft/state_machine.rs:100-124 | one log entry takes the machine through one step of the fold that all log theorems are about |
| `Effects.PolicyEffect` | src/raft/state_machine.rs:341-435 | the same peer by peer for the state machine, with saturating counters, and an answer that names the service, its new version and whether anything changed |
| `Effects.OtherEffects` | src/raft/state_machine.rs:211-258 | a renewal sets exactly the expiry and raises the epoch, token commands touch tokens only, a refusal changes nothing |
| `Effects.LastWordDecides` | src/raft/state_machine.rs:100-258 | after any log, a peer is on a whitelist if and only if the last carried-out command that says anything about it there says so; refused commands and retries say nothing |
| `Effects.AnswersNameEpoch` | src/raft/state_machine.rs:100-190 | along any log, every answer that is not a duplicate names the epoch that holds right after its entry |
| `PolicyEpochs.StepEpoch` | src/raft/state_machine.rs:211-258 | a command never lowers the epoch, raises it by at most one, and raises it whenever services, tombstones or expiry change |
| `Effects.EpochRisesIff` | src/raft/state_machine.rs:211-258 | below u64::MAX the epoch rises by one if and only if the command is a renewal or an accepted service command that makes a difference |
| `PolicyEpochs.OneEpochOneContent` | src/raft/state_machine.rs:211-258 | two prefixes of one log at one epoch below u64::MAX have the same services, tombstones and expiry, and a longer prefix is never at a lower epoch |
| `PolicyEpochs.EpochExhausted` | src/raft/state_machine.rs:239-243 | at u64::MAX the content changes under one epoch |
| `Simulation.StepSimulates` | src/raft/state_machine.rs:341-435 | from matching states, one write keeps store and state machine equal if and only if no counter overflows, and then the answers and error codes agree |
| `Simulation.RunSimulates` | src/raft/state_machine.rs:84-91 | any sequence of writes that never overflows keeps the two snapshots equal and gets the same answer at every write |
| `Idempotency.RetriesDropOut` | src/raft/state_machine.rs:126-190 | deleting from any log every admin entry whose request id was recorded leaves the whole final state unchanged |
| `Idempotency.RecordOrigin` | src/raft/state_machine.rs:162-190 | every record of the table was made by an entry of the log with that id, hash, time and index, and holds the answer it got |
| `Idempotency.DuplicateRepeatsFirst` | src/raft/state_machine.rs:134-160 | an answer marked duplicate repeats the first answer to the same id and hash, or refuses because the id has another hash; the state is untouched |
| `Idempotency.TableBounded` | src/raft/state_machine.rs:192-208 | along any log the table never exceeds 10,000 records |
| `Idempotency.EvictKeepsNewest` | src/raft/state_machine.rs:195-207 | eviction keeps a record if and only if fewer than the limit are newer by log index and id |
| `Idempotency.PruneExact` | src/raft/state_machine.rs:192-208 | pruning keeps exactly the records at most 24 hours old with fewer than 10,000 newer ones of that age |
| `Idempotency.RecordSurvives` | src/raft/state_machine.rs:162-208 | a record outlives every run that records too few requests to push it out and none stamped more than 24 hours after it |
| `Idempotency.ExactlyOnce` | src/raft/state_machine.rs:100-190 | a request sent again with fewer than 10,000 recorded in between, none stamped over 24 hours after it, is not applied again: the same hash gets the first outcome, epoch and index, another hash a conflict |
| `Retention.RetainedIff` | src/raft/state_machine.rs:162-208 | over any run that does not repeat the id, a record is kept if and only if no request is stamped over 24 hours after it and at no moment 10,000 newer requests, none of them driven out by a later stamp, stand in its way |
| `Retention.DuplicateIff` | src/raft/state_machine.rs:100-208 | in any log, a request sent again is answered as a duplicate if and only if its record was kept by that condition, and is otherwise applied as new |
| `Retention.DuplicateInOrderIff` | src/raft/state_machine.rs:100-208 | where no request in between is stamped before the first one, the condition is that none is stamped over 24 hours after it and fewer than 10,000 were recorded: the bounds of exactly-once are exact |
| `Retention.AppliedTwice` | src/raft/state_machine.rs:192-195 | three requests, the second stamped 86,401 seconds after the first, of which the third repeats the first and is applied again |
| `JoinTokens.StepToken` | src/raft/state_machine.rs:260-339 | a command counts a use of a token exactly when it answers as a carried-out consumption, within the token's peer, expiry and limit, and never alters terms |
| `JoinTokens.UsesAreConsumptions` | src/raft/state_machine.rs:307-339 | along any log the uses of a token are exactly its carried-out consumptions, and at most its limit |
| `JoinTokens.TokenTermsFixed` | src/raft/state_machine.rs:260-305 | a recorded token is never altered, issued again or removed |
| `JoinTokens.ConsumptionHonoursToken` | src/raft/state_machine.rs:319-338 | every counted consumption was in time and by the bound peer, by the terms the token still has at the end |
| `JoinTokens.TokenOrigin` | src/raft/state_machine.rs:260-305 | along any log a token is recorded if and only if an entry issued it and was answered as carried out, with the terms of that entry, and at most one entry does |
| `JoinTokens.ConsumptionIff` | src/raft/state_machine.rs:307-339 | at any place of any log a consumption that is no retry is carried out if and only if its token was issued, fewer than its limit were carried out before, and it is in time and by the bound peer |
| `JoinTokens.IssueIff` | src/raft/state_machine.rs:260-305 | at any place of any log an issue that is no retry is carried out if and only if its version is 1, its id is not blank, it allows a use, its network is right, and no entry before issued that id |
| `JoinTokens.TokenCodes` | src/raft/state_machine.rs:260-339 | the code of a refused token command names an obstacle that is there, the first in order |
| `RaftStorage.StateMachineStore.ApplyBatch` | src/raft/storage.rs:473-522 | a batch is applied to a copy and replaces memory and disk together, or nothing when the commit fails; one answer per entry in order |
| `RaftStorage.StateMachineStore.InstallSnapshot` | src/raft/storage.rs:534-568 | memory, disk and stored snapshot become the installed one together, or nothing changes |
| `RaftStorage.Open` | src/raft/storage.rs:345-366 | a file opens if and only if its applied id decodes, and memory is then what the disk holds |
| `RaftStorage.FoldMeaning` | src/raft/storage.rs:473-522 | folding a log prefix gives its last id, its last membership and its commands applied in order |
| `RaftStorage.NodesAreFolds` | src/raft/storage.rs:393-568 | in every run with any batching, failed commits, crashes, reopenings, late snapshots and installs: memory equals disk, both are the fold of the log up to their applied id with its last membership, and a stored snapshot is the fold up to its own meta |
| `RaftStorage.ReopenLostIff` | src/raft/storage.rs:350-352 | a file stops being openable if and only if a missing applied id is committed |
| `RaftStorage.FilesReopen` | src/raft/storage.rs:345-366 | in every run without such a commit every file can be opened at any time |
| `RaftStorage.EmptyBatchBlocksReopen` | src/raft/storage.rs:350-352 | an empty batch on a fresh node is such a commit |
| `RaftStorage.SameAnswerEverywhere` | src/raft/storage.rs:473-522 | whichever node applies an entry, in whatever batch of whatever run, answers it alike: a command as the sequential fold does at that place of the log, any other entry with the epoch there, marked as a change for a membership |
| `RaftStorage.NodesAgreeAtEpoch` | src/raft/storage.rs:473-568 | two states of one epoch below u64::MAX, held by any two nodes at any two moments of any runs on one log, have the same services, tombstones and expiry |
| `LogStore.LogStore.Append` | src/raft/storage.rs:237-274 | the entries are in the table under their indexes, later ones over earlier ones, or none when the commit fails |
| `LogStore.LogStore.Truncate` | src/raft/storage.rs:276-297 | removing collected keys one by one leaves exactly the entries below the given index |
| `LogStore.LogStore.Purge` | src/raft/storage.rs:299-327 | exactly the entries above the given index stay, and its id is remembered in the same transaction |
| `LogStore.LogStore.GetLogState` | src/raft/storage.rs:157-179 | the walk over the table reports the id of its greatest key, or the purged id when it is empty |
| `LogStore.LogStore.TryGetLogEntries` | src/raft/storage.rs:133-151 | the entries of the range in index order |
| `LogStore.RunRefines` | src/raft/storage.rs:237-327 | from an empty store, after any contiguous appends, truncations and monotone purges, the table is exactly the abstract log above the last purged entry |
| `LogStore.RangeReadIsSlice` | src/raft/storage.rs:133-151 | a range read of a store that refines a log is the matching slice, for every range |
| `LogStore.LogStateIsTrue` | src/raft/storage.rs:157-179 | the reported state is the true last id, or the purged one when no entry is left |
| `Publisher.Publisher.AddKeyWithRetry` | src/publisher.rs:483-501 | at most three attempts, ending with the first acknowledged; success if and only if one was |
| `Publisher.Publisher.Publish` | src/publisher.rs:220-236 | the record goes to every registered connection whatever fails; success if and only if all acknowledged |
| `Publisher.Publisher.SignAll` | src/publisher.rs:438-454 | the signed whitelists of all services in name order, or none if one cannot be signed |
| `Publisher.Publisher.SendAll` | src/publisher.rs:456-459 | whitelists go out in order up to the first that fails somewhere |
| `Publisher.Publisher.PublishWhitelists` | src/publisher.rs:430-460 | nothing is sent before everything is signed, and entries are returned if and only if all were acknowledged |
| `Publisher.Publisher.PublishOnce` | src/publisher.rs:349-428 | a round sends, remembers and returns what the round function says, for every outcome of leadership, proposal, signing and sending; the status is good after a publication and turns good by nothing else |
| `PublisherLaws.OnlyLeaderSends` | src/publisher.rs:361-418 | nothing is sent by a node that did not lead at the start and after the renewal, no index by one that did not lead right before it, and a node is told it does not lead if and only if it did not at one of the first two questions |
| `PublisherLaws.PublishedIff` | src/publisher.rs:349-428 | a round publishes if and only if the node leads throughout, a due renewal went through, the state is not behind the last epoch and has an expiry, seeds and signatures are there, and every record is acknowledged within three attempts everywhere |
| `PublisherLaws.IndexIsOfRenewedState` | src/publisher.rs:365-376 | an index carries epoch and expiry of the state read after the renewal if one was due, and of the one read before otherwise |
| `PublisherLaws.SentOnlyByLeader` | src/publisher.rs:349-428 | over a whole process, everything was sent in a round of a leading node, an index in one that led to the end |
| `PublisherLaws.ProcessFenced` | src/publisher.rs:349-428 | over a whole process, every index document sent carries an epoch at least that of every index sent before |
| `PublisherLaws.LastEpochMonotone` | src/publisher.rs:180-199 | the remembered epoch never decreases while the process runs |
| `PublisherLaws.ItemKeys` | src/publisher.rs:438-454 | signed whitelists lie under the distinct keys of their own services, never under the index key, and carry the version and sorted members of the state |
| `PublisherLaws.PublishedIsConsistent` | src/publisher.rs:349-481 | after Published, every node registered throughout holds the index of the epoch, and under each listed key a value of the listed hash and length, whatever was sent before |
| `PublisherLaws.NoIndexBeforeWhitelists` | src/publisher.rs:406-423 | in every round, however it ends, whenever an index is sent all whitelists of the state have been acknowledged by every connection they went to |
| `PublisherLaws.LeadersPublishAlike` | src/publisher.rs:381-428 | two rounds run by any two nodes at any two moments from states of one epoch below u64::MAX send the same record under each key, index or whitelist |
| `PublisherLaws.OneVersionOneIndex` | src/publisher.rs:349-481 | over the whole life of a cluster, whichever processes on whichever nodes published, any two index records sent with one version below u64::MAX are the same |
| `Replay.ReplayGuard.CheckAndInsert` | src/replay.rs:26-41 | the remembered nonces are exactly the last 10,000 accepted, without repeats; a call succeeds if and only if its nonce is non-empty and not among them |
| `Replay.ReacceptedOnlyAfterWindow` | src/replay.rs:26-41 | over any run of calls, two acceptances of one nonce are more than 10,000 acceptances apart |
| `Replay.VerifyAdmin` | src/admin_v2.rs:287-341 | a request is accepted exactly if shape, key, signature, time and nonce all pass, only an accepted one uses up its nonce, and each error stands for exactly its own check: the shape limits, an unknown key, a bad signature, a stamp more than 300 seconds off |
| `Requests.CanonicalPeers` | src/admin_v2.rs:167-174 | the canonical list has the same peers, strictly ascending |
| `Requests.HashIgnoresRetryFields` | src/admin_v2.rs:400-429 | changing nonce, time stamp or signature, reordering or repeating peers keeps the request hash |
| `Requests.SameIdentitySameCommand` | src/service.rs:1139-1170 | equal request identities give the same request id, key id and policy command |
| `Requests.DuplicateIsSameCommand` | src/service.rs:513-540 | if the hash tells the identities at hand apart, a duplicate answer that is no conflict is the answer an earlier entry got for that id and that very command |
| `Requests.CommandSaysRequest` | src/service.rs:1139-1170 | a request has a command if and only if its operation is known and has what it needs, and the command says about every peer what operation and peers of the request say |
| `Requests.LastRequestDecides` | src/service.rs:513-540 | after any log made of admin requests, a peer is on a whitelist if and only if the last carried-out request that says anything about it there, by its operation and peers, says so |
| `Joins.JoinsConserved` | src/service.rs:1480-1558 | in every interleaving of joins on any leaders, learners added on a token, also by calls whose handler was told of a failure or gave up, are at most its counted uses, which are at most its limit, and each follows its own accepted, unexpired, peer-bound consumption of the recorded token |
| `Joins.JoinAloneIff` | src/service.rs:1480-1558 | a join that nothing disturbs adds its node if and only if the node is no member, the token is the recorded one, has a use left, and is used in time and by its peer; a use is asked for if and only if the first three hold |
| `Seeds.RemainingVoters` | src/raft/mod.rs:886-895 | the voters without the given one, refused exactly if none would remain |
| `Seeds.SuccessMeans` | src/service.rs:681-859 | after success a node added is a learner, one promoted votes and holds the seed, one demoted is a learner without vote and seed, one removed is no member and holds no seed if it voted |
| `Seeds.SuccessIff` | src/service.rs:681-859 | an operation succeeds if and only if its node is what it must be, another voter remains where one is taken, and every call it needs is done |
| `Seeds.VotersNeverEmpty` | src/raft/mod.rs:468-546 | over any run of non-overlapping member operations with any failures the voter set is never empty, and voters and learners stay apart |
| `Seeds.DamageConfined` | src/service.rs:681-859 | starting with seed holders equal to voters, after any run of non-overlapping operations with any failures they differ only on nodes that an operation failed on |
| `Seeds.SeedsFollowVoters` | src/service.rs:681-859 | starting with seed holders equal to voters, any run of operations that report success keeps them equal |
| `Seeds.FailedPromotionBalancedIff` | src/service.rs:732-740 | a failed promotion leaves them equal if and only if the delivery did nothing, or exactly one of rollback and vote change took effect |
| `Seeds.DemotionBalancedIff` | src/service.rs:762-785 | a demotion leaves them equal if and only if vote and seed went together |
| `Seeds.RemovalBalancedIff` | src/service.rs:810-836 | the removal of a remote voter leaves them equal under an exact condition on which calls took effect |
| `Seeds.RemovalLeavesSeed` | src/service.rs:829-836 | a removal that fails after the vote was taken leaves a learner with the seed, although every reply arrived |
| `Seeds.PromotionLeavesSeed` | src/service.rs:732-740 | a promotion whose rollback fails leaves a learner with the seed |
| `Seeds.DemotionLeavesSeed` | src/service.rs:772-785 | a demotion whose seed removal fails leaves a learner with the seed |
| `Overlap.AloneIsPromotion` | src/service.rs:710-761 | a promotion taken call by call without interruption ends in the group and with the success the operation has as a whole |
| `Overlap.AloneIsDemotion` | src/service.rs:762-809 | the same for a demotion |
| `Overlap.AloneIsRemoval` | src/service.rs:810-859 | the same for a removal |
| `Overlap.AloneSuccessMeans` | src/service.rs:681-859 | a handler that ends in success without interruption has done what it was asked for: the node votes with the seed, is a learner without it, or is no member |
| `Overlap.EndsInEffect` | src/raft/mod.rs:468-546 | also amid other handlers, the step to success has the vote in place or the seed gone, and the step out of the group leaves no member |
| `Overlap.VotersSurviveOverlap` | src/raft/mod.rs:468-546 | however member operations on any nodes interleave call by call, with any failures, the voter set is never empty and voters and learners stay apart, although each change is computed from an older reading |
| `Overlap.ChangeBalancesIff` | src/raft/mod.rs:488-495 | a change of voters that takes effect keeps a balanced node balanced if and only if it keeps that node's vote |
| `Overlap.ChangeUpToDateIff` | src/raft/mod.rs:488-495 | it leaves all nodes but the handler's own balanced if and only if the voters it was computed from are, but for that node, the current ones |
| `Overlap.SeedFollowsVote` | src/service.rs:681-859 | in every interleaving with any failures, a node that was left to one handler at a time, and whose vote no other handler's change altered, holds the seed exactly if it votes, once no handler is at work on it and none failed on it |
| `Overlap.SeedsFollowVotesOverlapping` | src/service.rs:681-859 | if that holds of every node and all handlers ended in success, seed holders are exactly the voters |
| `Overlap.OverlapLosesSeed` | src/service.rs:762-809 | two overlapping demotions of different nodes that both report success leave a voter without the seed |
| `Overlap.SameNodeLosesSeed` | src/service.rs:710-809 | a promotion that runs within a demotion of the same node leaves a voter without the seed, although both report success and no reading was out of date |

## Left out

- Raft itself (elections, commitment, joint membership): nodes are assumed to apply prefixes of one log with increasing indexes, and membership calls to succeed, fail, or fail after taking effect.
- The database and the codecs (redb, CBOR, JSON, TOML): transactions are atomic and encodings round-trip, except for the applied id, whose mismatch is modelled.
- Cryptography (signatures, COSE envelopes, seed sealing, join encryption, message authentication): deterministic functions or a yes-or-no outcome; digests are numbers, so a collision is an explicit condition where it matters.
- Loading a missing, unreadable or foreign state file (`load_or_create`), `from_snapshot`, `set_index_version`.
- Publication in the multi-writer mode and the renewal timer: the Raft round has the stronger promises.
- The registration of connections and the pending-reply table of src/connection.rs: a round is given the registered connections of each call and the acknowledgement of each attempt.
- Status fields without influence on behaviour: publication times, error texts, snapshot identifiers; rejections keep their code and drop their text.
- The Raft vote and the committed id, stored beside the log.
- Frame reading, command line, configuration, logging, backup and the dispatch of operations to their handlers; the member operations are modelled from their own entry point.
- Leader transfer: an outcome, not a protocol; task cancellation at any await.
- Replicas, joins and member operations are step relations on values, not tasks on shared objects; the replica steps use the functions that the class methods are proved against.
- Convergence: says nothing of a replica that took the service back itself, because by LocalAtMaxIff and RestartAtMaxIff such a step is exactly what loses the maximum.
- ExactlyOnce: holds within the retention bounds of the table only, which DuplicateIff and DuplicateInOrderIff show to be exact.
- PublishedIsConsistent: speaks of acknowledged calls, since the code does not look at the success field of an acknowledgement.
- Store.Store.FinishChange: counters wrap as in an optimised build; a checked build would stop instead.
- Strings are compared by code point, which is the order of their UTF-8 bytes.

# NimbusVault: a verified model

NimbusVault is an object store. One fixed metadata leader writes every change to a write-ahead
log, ships the entries to followers and waits for a majority; each metadata node folds the
committed entries into a chunk table. A reconfiguration driver moves chunks between sets of
storage nodes, storage nodes keep versioned bytes in an ordered key-value store and repair
themselves from their peers, and a client reads with a version floor. A separate tool checks
recorded histories for linearizability.

This project models that behaviour in Dafny and proves what it is there for:

- **Replication** (`Wal`, `Replication`, `Protocol`, `AckCounts`): the log on disk, the two ends of the
  protocol as classes, and the protocol as a state machine over a network that loses, repeats
  and reorders messages, with restarts. Every follower log is a prefix of the leader's; OK writes
  are durable; with replication calls in index order they are on a strict majority, and the
  acknowledgement counters are right exactly when nothing is booked twice.
- **The metadata state machine** (`Coordinator`, `Payload`, `MetaNode`, `Snapshot`, `Bootstrap`):
  overlapping replay converges, entries and snapshots survive their text and binary formats,
  restart rebuilds the live table, and exactly when bootstrapping from a snapshot does.
- **Reconfiguration and reads** (`Placement`, `Planner`, `Cluster`, `Brackets`, `Leader`,
  `Repair`, `Client`, `Disks`, `StaleReads`): a cluster-wide state machine of puts, copies, verifications,
  repairs and reads, with read safety and the START/COMMIT bracket proved over all runs, and the
  handlers as programs that only take steps of that machine; run on the storage nodes' keys, the
  machine's reads are those of the real stores.
- **Storage** (`ChunkStore`, `Streaming`): the ordered store refines a map from chunk and version
  to bytes; streamed transfers rebuild what was sent.
- **Policy** (`Policy`): tier changes happen exactly at the end of full runs of windows.
- **The history checker** (`Linearizability`, `DocumentedRegister`): its depth-first search
  terminates and decides its specification exactly, and the register it documents exactly when no
  GET may run on an unwritten register.

`Text` and `Sets` hold shared formats and cardinality facts. Byte strings are `string`s whose
characters stand for byte values, integers are unbounded with 32- and 64-bit limits written out
where they matter, scores, rates and weights are `real`, and the outcomes of remote calls, clocks
and shuffles are arguments. `dafny verify dfyconfig.toml` checks everything.

## Model

| member | source | states |
|---|---|---|
| `Coordinator.OverlappingReplay` | src/meta/meta_coordinator.cpp:10-56 | applying the entries after position k to the table of any prefix at least k long gives the table of the whole log, for every log |
| `Coordinator.CrawlConverges` | src/meta/meta_coordinator.cpp:10-56 | any number of returns to earlier entries, moving on by at most one each time, still ends in the log's table |
| `Coordinator.SkippingAheadDiverges` | src/meta/meta_coordinator.cpp:10-30 | after any log, a put and a delete of one chunk applied the wrong way round leave the chunk standing |
| `Coordinator.SummaryActs` | src/meta/meta_coordinator.cpp:10-56 | the effect of a whole log on one chunk is one of three summaries composed entry by entry |
| `Coordinator.LeaderEntriesKeepTable` | src/meta/meta_coordinator.cpp:10-56 | entries of the shape a leader writes, in any order and number, keep every chunk's replica set non-empty with distinct node ids, its factor equal to the set's size, and STABLE exactly when the old set is empty |
| `Coordinator.MetaCoordinator.ApplyPutChunk` | src/meta/meta_coordinator.cpp:10-24 | the table becomes the specified one, whatever entry was there |
| `Coordinator.MetaCoordinator.ApplyDeleteChunk` | src/meta/meta_coordinator.cpp:26-30 | exactly this chunk's entry disappears |
| `Coordinator.MetaCoordinator.ApplyReconfigStart` | src/meta/meta_coordinator.cpp:32-44 | placement fields change and version and size stay; an unknown chunk is ignored |
| `Coordinator.MetaCoordinator.ApplyReconfigCommit` | src/meta/meta_coordinator.cpp:46-56 | the new set stands alone and the chunk is STABLE; an unknown chunk is ignored |
| `Coordinator.MetaCoordinator.RestoreSnapshot` | src/meta/meta_coordinator.cpp:106-113 | both tables hold exactly the given entries, later ones winning |
| `Coordinator.MetaCoordinator.EvictStaleNodes` | src/meta/meta_coordinator.cpp:115-124 | exactly the alive nodes whose wrapped 64-bit age exceeds the timeout are marked dead, nothing else changes |
| `Coordinator.EvictsByAge` | src/meta/meta_coordinator.cpp:115-124 | on a clock that does not step back an alive node is evicted if and only if it was last heard of longer ago than the timeout |
| `Coordinator.FutureHeartbeatEvicts` | src/meta/meta_coordinator.cpp:115-124 | a node heard of later than now is evicted if and only if its wrapped age exceeds the timeout |
| `Payload.SplitNonEmpty` | src/bin/meta_server.cpp:41-54 | cutting at a delimiter yields the non-empty pieces in order |
| `Payload.EncodeReconfigStart` | src/meta/reconfig_driver.cpp:9-17 | the payload is the id and the two terminated lists |
| `Payload.EncodeReconfigCommit` | src/meta/reconfig_driver.cpp:19-24 | the payload is the id and the terminated list |
| `Payload.PutPayloadExact` | src/meta/meta_rpc.cpp:155-159 | a PUT payload decodes to the put it encodes if and only if id and replica names are non-empty and separator-free, the list is not empty and the numbers fit |
| `Payload.StartPayloadExact` | src/bin/meta_server.cpp:195-207 | a RECONFIGURE_START payload decodes to the command it encodes if and only if the id and all names are non-empty and separator-free and both lists are not empty |
| `Payload.CommitPayloadExact` | src/bin/meta_server.cpp:208-218 | the same for RECONFIGURE_COMMIT and its list |
| `Payload.HeartbeatExact` | src/meta/meta_rpc.cpp:68-75 | a heartbeat arrives with its id, address and byte counters, and its floats as printed, if and only if the names are non-empty and separator-free and the counters fit |
| `Payload.ApplyWalEntry` | src/bin/meta_server.cpp:175-239 | the chunk table changes as the decoded command says, a delete entry removing exactly its chunk and later kinds changing nothing, and a well-formed heartbeat registers its node as alive; malformed payloads change nothing and bad numbers in a put throw |
| `Payload.DeleteEntryExact` | src/bin/meta_server.cpp:191-194 | the entry a DeleteChunk call writes removes exactly that chunk from every table |
| `Payload.OtherKindsKeepChunks` | src/bin/meta_server.cpp:216-239 | heartbeats, policy updates and unknown kinds leave every chunk table alone and never throw |
| `Payload.HeartbeatRegisters` | src/bin/meta_server.cpp:216-236 | an encoded heartbeat registers its node, alive and heard of now, and changes no other |
| `Text.StoullRoundTrip` | src/bin/meta_server.cpp:175-194 | decimal text reads back as the number exactly when it fits 64 bits |
| `Text.StoiRoundTrip` | src/bin/meta_server.cpp:175-194 | signed decimal text reads back as the number exactly when it fits 32 bits |
| `Wal.EntryRoundTrip` | src/meta/meta_wal.cpp:29-53 | decoding inverts the big-endian encoding if and only if the payload is shorter than 2^32 bytes |
| `Wal.KeyBytesInjective` | src/meta/meta_wal.cpp:13-27 | entry, commit and counter keys never collide for 64-bit indices |
| `Wal.CrashLeavesOldLog` | src/meta/meta_wal.cpp:106-126 | a crash between the two writes of an append or a commit leaves the old log and commit position durable |
| `Wal.AppendIsDurable` | src/meta/meta_wal.cpp:106-115 | after both writes of an append the longer log is durable |
| `Wal.CommitIsDurable` | src/meta/meta_wal.cpp:117-126 | after both writes of a commit the new position is durable |
| `Wal.MetaWal.Open` | src/meta/meta_wal.cpp:55-100 | opening a database recovers exactly the log and position it durably holds |
| `Wal.MetaWal.Append` | src/meta/meta_wal.cpp:106-115 | the log grows by the entry at the next index, which wraps at 64 bits; the commit position stays |
| `Wal.MetaWal.Commit` | src/meta/meta_wal.cpp:117-126 | the commit position becomes the maximum, so it never falls and never exceeds the last index |
| `Wal.MetaWal.ReadEntry` | src/meta/meta_wal.cpp:141-147 | every index of the log reads back its own entry, index zero reads nothing |
| `Wal.MetaWal.Replay` | src/meta/meta_wal.cpp:128-139 | replay hands over exactly the committed prefix in order |
| `MetaNode.Node.Start` | src/bin/meta_server.cpp:276-284 | start-up rebuilds the table of the committed prefix, and throws if and only if one of its entries does |
| `MetaNode.Node.CommitNext` | src/bin/meta_server.cpp:293-301 | committing the next entry keeps the live table equal to the table of the committed prefix, unless the entry throws |
| `MetaNode.Restart` | src/bin/meta_server.cpp:281-284 | after any run of in-order commits, reopening and replaying gives the same chunk table as live application |
| `MetaNode.TableOfCommands` | src/bin/meta_server.cpp:175-239 | entry logs build the table of the commands they decode to, so the replay theorems cover them |
| `MetaNode.TimedOutEntryReplays` | src/meta/meta_wal.cpp:122-139 | an entry that timed out before a later commit is replayed although it was never applied live |
| `Replication.PrefixAccepts` | src/meta/meta_follower.cpp:9-56 | a follower whose log is a prefix accepts every entry it has and the next one, keeps a prefix, and refuses the rest as a gap |
| `Replication.BootstrapNeedsLog` | src/bin/meta_server.cpp:102-138 | a follower takes the first entry after a snapshot's position if and only if its own log reaches that position |
| `Replication.MetaFollower.HandleAppend` | src/meta/meta_follower.cpp:9-56 | the answer, the new log and the new term are those of the branch the request falls into, index zero included |
| `Replication.MetaFollower.HandleCommit` | src/meta/meta_follower.cpp:58-67 | commits exactly when the index is in the log |
| `Replication.MetaReplication.RecordAck` | src/meta/meta_replication.cpp:70-89 | counts the acknowledgement of a tracked entry and raises the match index, never lowers it |
| `Replication.MetaReplication.AwaitQuorum` | src/meta/meta_replication.cpp:48-68 | succeeds exactly when some look before the deadline finds enough acknowledgements |
| `Replication.MetaReplication.Write` | src/meta/meta_replication.cpp:29-68 | logs the entry, succeeds if and only if a majority acknowledges in time, and only then commits |
| `Replication.MajorityIsLeast` | src/meta/meta_replication.cpp:49-49 | the number of acknowledgements waited for is the least that makes leader and ackers a strict majority of all nodes |
| `Replication.MetaReplication.Send` | src/meta/meta_replication.cpp:114-141 | an entry the follower has or needs next is accepted and its log stays a prefix |
| `Replication.MetaReplication.CatchUp` | src/meta/meta_replication.cpp:157-203 | whatever else is appended meanwhile no delivered request is rejected, and without failed calls the follower's log and match index reach the target |
| `Protocol.RunKeepsInv` | src/meta/meta_replication.cpp:29-205 | the inductive invariant holds in every state of every run |
| `Protocol.FollowersArePrefixes` | src/meta/meta_follower.cpp:9-56 | in every run each follower log is a prefix of the leader's and covers its match index, and no delivered request is judged stale, unreadable, conflicting or misplaced |
| `Protocol.OkWriteIsDurable` | src/meta/meta_replication.cpp:29-89 | an OK write with at least one follower is, from then on, with its whole prefix on some follower |
| `Protocol.CatchUpIsAccepted` | src/meta/meta_replication.cpp:157-203 | in every run the entry a catching-up thread sends next is accepted, and a thread past its target has log and match index there |
| `Protocol.CountsAreDistinctAckers` | src/meta/meta_replication.cpp:70-89 | with calls in index order the counter of an entry is the number of distinct followers that acknowledged it, all of which hold it |
| `Protocol.OkWriteOnMajority` | src/meta/meta_replication.cpp:29-68 | with calls in index order an OK write is on a strict majority of all nodes for good, whatever their number |
| `AckCounts.CountExactly` | src/meta/meta_replication.cpp:70-89 | in every run, ordered or not, a counter equals the number of distinct ackers if and only if no acknowledgement of its entry was booked twice since the leader last started, and is never less |
| `AckCounts.CountIsAckersAndRepeats` | src/meta/meta_replication.cpp:70-89 | in every run a counter is the number of distinct ackers plus the number of acknowledgements booked again |
| `AckCounts.OrderedNeverRepeats` | src/meta/meta_replication.cpp:114-205 | calls in index order never book an acknowledgement twice |
| `Protocol.OkWriteSurvivesLeader` | src/meta/meta_replication.cpp:29-68 | so every group of followers that is itself a majority of all nodes holds the write with its prefix, even without the leader |
| `Protocol.OutOfOrderCountsTwice` | src/meta/meta_replication.cpp:70-89 | without that order a follower can be counted twice and a write reported OK that only two of five nodes hold; the exact condition is `AckCounts.CountExactly` |
| `Snapshot.FramesRead` | src/meta/meta_snapshot.cpp:11-28 | length-prefixed frames read back one by one, each ending on the next boundary, inside any buffer |
| `Snapshot.ChunkTextExact` | src/meta/meta_snapshot.cpp:148-166 | a chunk's text parses back to the entry if and only if its names are non-empty and separator-free and its numbers fit |
| `Snapshot.NodeTextParses` | src/meta/meta_snapshot.cpp:127-146 | a node's text parses back with id, address, byte counters and time, always alive and with rounded floats |
| `Snapshot.SnapshotDecodes` | src/meta/meta_snapshot.cpp:172-240 | the whole buffer decodes to its position, nodes and chunks |
| `Snapshot.TableRoundTrip` | src/meta/meta_snapshot.cpp:172-240 | installing a snapshot of a table restores exactly that table and position |
| `Snapshot.NodeTableRoundTrip` | src/meta/meta_snapshot.cpp:172-240 | installing a snapshot of a node table brings back the same nodes with their addresses, byte counters and times |
| `Snapshot.TakeSnapshot` | src/meta/meta_snapshot.cpp:172-195 | the loops produce the specified bytes |
| `Snapshot.InstallSnapshot` | src/meta/meta_snapshot.cpp:197-240 | installs what the bytes decode to, with the two checked errors, and leaves the coordinator alone when they do not decode |
| `Bootstrap.EntriesOverlap` | src/meta/meta_snapshot.cpp:172-175 | overlapping replay for encoded log entries: a snapshot newer than its position converges |
| `Bootstrap.ReplayLog` | src/bin/meta_server.cpp:102-138 | either all fetched entries are appended, committed and applied, or, when the follower's log is short of the snapshot, none |
| `Bootstrap.Bootstrap` | src/bin/meta_server.cpp:69-146 | the follower ends with the leader's whole log and its table when its log reached the snapshot's position; otherwise it keeps the snapshot's table and its old log |
| `Bootstrap.BootstrapFromLeader` | src/bin/meta_server.cpp:69-146 | from taking and streaming the snapshot to the last fetched entry: the follower's log becomes the leader's if and only if it reached the snapshot's position before, and then its table is that of the whole log |
| `Streaming.Split` | src/storage/storage_rpc.cpp:57-74 | the 64 KiB pieces carry the bytes with exactly one last flag, at the end |
| `Streaming.Receive` | src/storage/replica_repair.cpp:125-146 | joins the pieces up to the first last flag and takes the greatest version, unless it is below the target |
| `Streaming.Transfer` | src/storage/replica_repair.cpp:97-147 | every byte string, the empty one included, arrives exactly, or is refused when its version is below the target |
| `Streaming.TransferSnapshot` | src/meta/meta_rpc.cpp:357-377 | a snapshot stream delivers every non-empty buffer exactly; an empty one sends nothing |
| `Streaming.ReceiveSnapshot` | src/bin/meta_server.cpp:84-93 | joins the pieces up to the first last flag, and fails if and only if none came |
| `ChunkStore.KeyOrder` | src/storage/chunk_store.cpp:16-20 | zero-padded keys of one chunk sort as their versions |
| `ChunkStore.KeyInjective` | src/storage/chunk_store.cpp:16-20 | keys determine id and version, whatever the id |
| `ChunkStore.PrefixOwner` | src/storage/chunk_store.cpp:22-24 | a key starts with an id's prefix if and only if it belongs to that id or to one nested in it |
| `ChunkStore.RangeIsOneChunk` | src/storage/chunk_store.cpp:89-102 | the deleted key range holds every version of the chunk and otherwise only keys of chunks nested in it |
| `ChunkStore.RemoveExact` | src/storage/chunk_store.cpp:89-102 | a remove deletes exactly the versions of the id if and only if no key of another chunk lies in the deleted range |
| `ChunkStore.WriteRefines` | src/storage/chunk_store.cpp:50-56 | a write is the write on the map from id and version to bytes |
| `ChunkStore.RemoveRefines` | src/storage/chunk_store.cpp:89-102 | a remove deletes all versions of the id and nothing else where no stored chunk is nested in it |
| `ChunkStore.PredecessorIsLatest` | src/storage/chunk_store.cpp:58-87 | the predecessor of the greatest possible key is the greatest stored version of the chunk, when it has the prefix at all |
| `ChunkStore.ReadsExactly` | src/storage/chunk_store.cpp:58-87 | the answer a database gives to a read is exactly the greatest stored version and its bytes, or nothing when all are below the floor, where no stored chunk is nested in the id |
| `ChunkStore.Store.Write` | src/storage/chunk_store.cpp:50-56 | the database goes on holding the model, with the new version in it |
| `ChunkStore.Store.Read` | src/storage/chunk_store.cpp:58-87 | returns the database's answer: exactly the greatest stored version and its bytes, or nothing when all are below the floor |
| `ChunkStore.Store.LatestVersion` | src/storage/chunk_store.cpp:104-125 | the greatest stored version, or zero |
| `ChunkStore.Store.Remove` | src/storage/chunk_store.cpp:89-102 | the database goes on holding the model without the chunk, where no stored chunk is nested in it |
| `ChunkStore.Store.ListChunkIds` | src/storage/chunk_store.cpp:127-150 | exactly the ids that have a version |
| `ChunkStore.NestedIdIntrudes` | src/storage/chunk_store.cpp:58-87 | the key of a chunk nested in another passes for a version of the outer one, below the seek key |
| `ChunkStore.NestedIdIsRead` | src/storage/chunk_store.cpp:58-87 | with a chunk and one nested in it stored, a read of the outer one answers with the inner one's bytes |
| `ChunkStore.WideVersionSortsLow` | src/storage/chunk_store.cpp:16-20 | the first eleven-digit version sorts below the seek key |
| `Placement.SelectNodes` | src/meta/placement.cpp:25-65 | greedy selection equals the static top n, with min(n, candidates) distinct, non-excluded ids; whoever is chosen, every candidate ahead by the weighted differences of load, free share and reliability was chosen before it, and every earlier one not behind it |
| `Placement.BetterIsChosenFirst` | src/meta/placement.cpp:10-57 | with weights that are not negative a node better in some dimension that counts and worse in none is chosen before the other, and one no worse before a later one |
| `Placement.BetterIsAhead` | src/meta/placement.cpp:10-23 | each weight counts its own dimension only, a weight of zero none, and a node without capacity has no free share |
| `Placement.ScoresByAdvantage` | src/meta/placement.cpp:10-23 | scores differ by exactly the weighted differences of load, free share and reliability |
| `Placement.CandidatesKeepOrder` | src/meta/placement.cpp:33-38 | candidates stay in the order of the alive nodes |
| `Placement.TopRanks` | src/meta/placement.cpp:45-57 | that ranking is sorted by score and no candidate left out beats one taken |
| `Placement.UnchosenScoresStatically` | src/meta/placement.cpp:10-23 | the diversity term does not affect which unchosen node is best |
| `Placement.SelectShuffled` | src/meta/placement.cpp:40-44 | random placement takes as many distinct candidates |
| `Planner.Plan` | src/meta/reconfig_driver.cpp:67-131 | a plan is the kept nodes topped up to exactly the factor with the best-scored other alive nodes, all distinct, and there is none if and only if the added node is dead, the factor negative or the candidates too few |
| `Planner.Trim` | src/meta/reconfig_driver.cpp:99-113 | trimming keeps the first nodes other than the added one; its re-insertion never runs |
| `Planner.PolicyPlan` | src/meta/reconfig_driver.cpp:67-131 | a policy plan contains or is contained in the old nodes and shares as many as the smaller set has |
| `Planner.AddPlan` | src/meta/meta_rpc.cpp:243-249 | AddReplica plans the old nodes followed by the new one |
| `Planner.RemovePlan` | src/meta/meta_rpc.cpp:264-280 | RemoveReplica plans exactly the old nodes without the removed one |
| `Planner.PolicyPlanIs` | src/meta/reconfig_driver.cpp:67-131 | a policy call has a plan if and only if there are nodes enough, and it extends or shortens the old ids at the end |
| `Planner.AddPlanIs` | src/meta/meta_rpc.cpp:248-249 | an add call has a plan if and only if the node is alive: the old ids and the node |
| `Planner.RemovePlanIs` | src/meta/meta_rpc.cpp:279-280 | a remove call always has a plan: the old ids with the node cut out |
| `Planner.AddedUnlessTrimmed` | src/meta/reconfig_driver.cpp:86-113 | in any call the added node is planned if and only if nothing is trimmed |
| `Planner.RemovedReturnsExactly` | src/meta/reconfig_driver.cpp:78-121 | in any call some plan contains the removed node if and only if the targets must be topped up, the node is alive and there are enough candidates |
| `Planner.EncodedTarget` | src/meta/reconfig_driver.cpp:31-52 | encoding keeps the node id, and an alive node resolves to its own address |
| `Planner.EncodedDistinct` | src/meta/reconfig_driver.cpp:128-131 | distinct planned ids give entries with distinct node ids |
| `Cluster.RollbackHolds` | src/meta/meta_rpc.cpp:144-170 | a failed put leaves no unacknowledged bytes on any node |
| `Cluster.StepKeepsData` | src/meta/reconfig_driver.cpp:176-256 | every step keeps: all stored and in-flight bytes are those of acknowledged puts, the table has each chunk's latest version, a job copies its current bytes, ids are not nested in each other and versions fit the keys |
| `Cluster.UpToDateHolds` | src/meta/reconfig_driver.cpp:258-285 | a node that answers with a chunk's version or more holds the bytes of its latest acknowledged put |
| `Cluster.SourceIsFirst` | src/meta/reconfig_driver.cpp:194-199 | copies come from the first old replica that has an address, and there is none only when no old replica has one |
| `Cluster.StepVersion` | src/meta/meta_coordinator.cpp:126-131 | only an acknowledged put creates a chunk or changes its version, by one |
| `Cluster.VersionIsLastPut` | src/meta/meta_rpc.cpp:96-175 | over every run a chunk's version and bytes are those of its last acknowledged put, and versions never fall |
| `Cluster.ReadSafety` | src/client/nimbus_client.cpp:67-106 | over every run any node's answer to a get is an acknowledged put no older than its floor, and the last one when no put intervenes and the floor is zero or at least the metadata's version |
| `Disks.StepBacked` | src/storage/chunk_store.cpp:50-102 | run on the keys of the databases, every step keeps each of them holding exactly what the cluster says its node stores |
| `Disks.RunBacked` | src/storage/chunk_store.cpp:50-102 | the same over every run |
| `Disks.ReadIsServed` | src/storage/storage_rpc.cpp:20-43 | for a known chunk a database answers a read exactly as the cluster's store serves it |
| `Disks.DiskReadSafety` | src/client/nimbus_client.cpp:67-106 | read safety of what the stores themselves return, over every run |
| `Disks.NestedPutIsRead` | src/storage/chunk_store.cpp:58-87 | why ids must stand apart: written to one node, a nested chunk is returned for the outer one |
| `StaleReads.StaleReadPossible` | src/client/nimbus_client.cpp:76-76 | for every floor strictly between zero and the version some run lets a replica answer with an older put |
| `StaleReads.LostRollbackIsRead` | src/meta/meta_rpc.cpp:145-148 | when a put of a known chunk fails and the delete on one of the written replicas is lost, a get that asks that replica is served bytes never acknowledged |
| `Brackets.RunKeepsInv` | src/meta/reconfig_driver.cpp:54-174 | every state of every run keeps the data, table and history invariants, well-formed chunk entries among them |
| `Brackets.CommitClosesStart` | src/meta/reconfig_driver.cpp:136-165 | over every run a COMMIT closes a START with the same new set, nothing about the chunk lies between them, and there every new replica answered with at least the version of the last put |
| `Brackets.StartHoldsOthersOff` | src/meta/reconfig_driver.cpp:57-65 | over every run no PUT and no second START follows a START before a COMMIT |
| `Brackets.RunIsReplayable` | src/meta/reconfig_driver.cpp:136-165 | over every run the table is the fold of the committed entries, each of which survives its payload format, and every chunk entry is well formed |
| `Brackets.StepKeepsWritten` | src/meta/meta_replication.cpp:29-68 | every entry written to the log, its quorum reached or not, has a leader's shape and survives its format |
| `Brackets.AnyReplayIsWellFormed` | src/meta/meta_coordinator.cpp:10-56 | whichever written entries a node applies, timed-out ones included, in any order, repeated and mixed with deletes, every chunk entry is well formed |
| `Brackets.WrittenNeverThrows` | src/bin/meta_server.cpp:175-239 | no log of written entries throws when it is applied |
| `Leader.ReadLatest` | src/storage/storage_rpc.cpp:20-43 | a read answers with the latest version, unless it is below the floor |
| `Leader.Service.PutChunk` | src/meta/meta_rpc.cpp:96-175 | a put that is admitted is exactly one step of the cluster on the best-scored nodes and answers with the next version if and only if a storage majority and the metadata quorum took it; one that is not changes nothing |
| `Leader.PutOutcome` | src/meta/meta_rpc.cpp:124-174 | a successful put is the chunk's latest version and held by a majority of its replica set; a failed one leaves table, puts and the origin of all stored bytes as they were |
| `Leader.Service.WriteReplicas` | src/meta/meta_rpc.cpp:126-142 | writes the placed replicas that can be reached and remembers which |
| `Leader.Service.Rollback` | src/meta/meta_rpc.cpp:145-148 | removes all versions of the chunk from the written replicas |
| `Leader.Service.CopyToNewReplicas` | src/meta/reconfig_driver.cpp:176-256 | a run of the cluster that succeeds if and only if for every new replica outside the old set both addresses are known, the source has the version and the calls get through; then all of them hold the bytes of the current put |
| `Leader.Service.VerifyReplicas` | src/meta/reconfig_driver.cpp:258-285 | a run of the cluster that succeeds if and only if every new replica can be asked and has at least the required version |
| `Leader.Service.Reconfig` | src/meta/reconfig_driver.cpp:54-174 | a run of the cluster. An unknown chunk, one in transition, a refused caller (factor not positive, no node named, node to add already there, node to remove absent or the last) or too few nodes: nothing happens. A START without quorum only enters the log. Otherwise the chunk ends with the old ids and the added one, the old ids with the removed one cut out, or as many as the policy wants, extending or shortening the old ones; it is stable, with all replicas up to date, if and only if copying, verification and COMMIT succeed, and in transition otherwise; puts never change |
| `Leader.CallerPlan` | src/meta/meta_rpc.cpp:224-284 | the driver has a plan exactly for callers that are not refused and nodes that suffice, and the plan is what the caller asked for |
| `Repair.FindPeer` | src/storage/replica_repair.cpp:50-62 | returns the address of the first reached entry that names another node at another address and has the version, with what it serves, or there is none |
| `Repair.ReportedEntry` | src/meta/meta_rpc.cpp:57-66 | reported metadata keeps the node of an entry and completes its address |
| `Repair.RunOnce` | src/storage/replica_repair.cpp:19-76 | a run of the cluster: the node ends with assigned chunks only, each whose metadata could be had is up to date whenever some reached entry of its replica set names another node at another address that has the version, and no other node changes |
| `Client.NimbusClient.GetOrCreateStub` | src/client/nimbus_client.cpp:24-37 | a connection is opened once per node, to the address known then, and never moved; there is none only without any address |
| `Client.NimbusClient.TryAll` | src/client/nimbus_client.cpp:96-99 | one pass returns the answer of the first replica that gives one, or every reachable one with a known address was too old |
| `Client.NimbusClient.Get` | src/client/nimbus_client.cpp:67-106 | over the current replicas followed by the old ones, in each of sixty passes the first that answers wins: the answer is not below the floor, and with no put in between and a safe floor it is the last acknowledged put; a get fails only when the metadata call fails, the chunk is unknown, or every reachable replica with a known address was too old in all passes |
| `Client.OldReplicaIsFallback` | src/client/nimbus_client.cpp:59-65 | an answer from an old replica means every reachable current one with a known address refused in that pass |
| `Client.OldReplicasWereAsked` | src/client/nimbus_client.cpp:59-106 | a get that fails was refused by the old replicas as well as by the current ones |
| `Policy.CountersMeasureStreaks` | src/meta/policy.cpp:45-68 | each counter is exactly the length of the current streak of windows on its side |
| `Policy.OneCounterRuns` | src/meta/policy.cpp:47-68 | the two counters are never both positive |
| `Policy.ChangeExactlyAfterRun` | src/meta/policy.cpp:19-75 | over every trace a window reports a change if and only if it completes a full run above or below the current tier |
| `Policy.NoRunNoChange` | src/meta/policy.cpp:19-75 | a trace without such a run never changes tier |
| `Policy.CloseWindow` | src/meta/policy.cpp:19-75 | closing a window consumes all pending accesses, advances the history and reports a change as the history says |
| `Policy.WindowByRate` | src/meta/policy.cpp:19-45 | a window is hot or cold by its accesses per second, the first counting as two seconds and none as less than a tenth of one |
| `Policy.TierIntervals` | src/meta/policy.cpp:83-87 | the three rate intervals of the tiers |
| `Policy.BusierIsHigher` | src/meta/policy.cpp:83-96 | with ordered thresholds and factors a busier window never gets a lower tier or a smaller factor |
| `Policy.AdaptivePolicy.RecordAccesses` | src/meta/policy.cpp:10-17 | recorded accesses stay pending: recorded equals consumed plus pending |
| `Policy.AdaptivePolicy.Evaluate` | src/meta/policy.cpp:19-75 | each recorded access is consumed by exactly one evaluation or still pending, and decisions follow the trace |
| `Linearizability.Candidates` | tests/linearizability/check.py:100-112 | exactly the pending operations that no other pending operation precedes |
| `Linearizability.ExpandFrame` | tests/linearizability/check.py:117-142 | a state can be completed if and only if one of the states pushed for it can |
| `Linearizability.RoundOfSearch` | tests/linearizability/check.py:117-144 | a round keeps the answer and strictly lowers the weighted sum over the stack |
| `Linearizability.IsLinearizableRegister` | tests/linearizability/check.py:90-144 | the search terminates and answers True if and only if some order respects real time and the register rules |
| `DocumentedRegister.NoFalseAlarm` | tests/linearizability/check.py:90-144 | every history linearizable in the documented sense passes |
| `DocumentedRegister.MissedViolation` | tests/linearizability/check.py:137-142 | if some successful GET may run on an unwritten register, a history of the same intervals, kinds and results passes that is not linearizable as documented |
| `DocumentedRegister.ExactWhenCovered` | tests/linearizability/check.py:90-144 | on histories with data in which no successful GET is so exposed, the checker decides the documented register |
| `DocumentedRegister.ExactlyWhenCovered` | tests/linearizability/check.py:90-144 | for intervals that run forward, the checker decides the documented register for all data if and only if no successful GET is exposed (each has a successful PUT before it in real time that no DELETE may undo), or nothing of that shape passes at all |
| `DocumentedRegister.DatalessIsFree` | tests/linearizability/check.py:122-142 | leaving out a failed operation, or a PUT or GET without recorded data, changes no verdict |
| `DocumentedRegister.BackToBackIsOrdered` | tests/linearizability/check.py:84-86 | operations that meet in one instant are ordered |

## Where code and documentation differ

- The checker is described as deciding linearizability of a register that starts empty; its code
  lets a GET on a register no write has reached return anything. The model follows the code.
- Bootstrapping is meant to bring a new follower up from a snapshot. Installing a snapshot does not
  advance the follower's log, so an empty follower refuses the first fetched entry after a
  non-empty snapshot (`Replication.BootstrapNeedsLog`, `Bootstrap.Bootstrap`) and depends on the
  leader's catch-up from entry 1.
- The planner's re-insertion of the node to add after trimming cannot run (`Planner.Trim`).
- A snapshot carries no liveness: every node parsed from it is alive.

## Left out

- gRPC, threads, deadlines, sleeps and mutexes: each handler or remote call is one atomic step that takes effect or does nothing; the append race that makes an index unreadable appears only as index zero.
- RocksDB, files, logging, signals, command line, workload generator, statistics and plotting: input and output, or easy arithmetic.
- DeleteChunk in the cluster machine: versions restart at 1 after a delete while old bytes may remain, so read safety is stated without deletes, as for restarts of the leader in the middle of a put.
- Random placement in the handlers: `Placement.SelectShuffled` covers the selection, the handlers use the scored one; the cluster machine allows both.
- Concurrent puts of one chunk and partly executed puts: PutChunk is one step of the cluster machine, as in a sequential run; copies, verifications, repairs and gets interleave freely.
- The node table over replay: heartbeats register nodes with the wall-clock time of their application and floats printed with six digits, so replay equality is stated for the chunk table.
- Leader.Service.PutChunk: assumes an id without '|' that is not nested in a known one or the other way round, a version of at most ten digits and node names free of separators; `Payload.PutPayloadExact`, `Disks.NestedPutIsRead` and `ChunkStore.WideVersionSortsLow` show what goes wrong otherwise.
- Disks.DiskReadSafety: the same condition on the ids and versions of puts; it is a guard a caller can check against the table, and sufficient, not claimed necessary for every nested id.
- DocumentedRegister.ExactlyWhenCovered: assumes intervals that do not end before they start, as recorded histories have.
- Leading white space and plus signs in `std::stoull` and `std::stoi`: no encoder writes them.
- send_heartbeats and follower health (LAGGING, missed pings): they change no log, match index or counter.
- The smoothed access rate of the policy: it is computed and reported but decides nothing.
- Liveness: a failed reconfiguration leaves the chunk in transition, and nothing forces retries.
- cleanup_uncommitted_puts in src/meta/recovery.cpp: its deletions are the cluster machine's drops.
- Snapshot.InstallSnapshot: reads past the end of the buffer, unchecked in the source, are the error Malformed here.
- Snapshot.NodeTextParses: floats go through an abstract print and parse, since their text is lossy.
- Wal.MetaWal.Append: keeps the log for payloads below 2^32 bytes and indices below 2^64; beyond that only the wrapped index is stated.
- Replication.MetaReplication.Write: assumes a payload below 2^32 bytes and an index below 2^64, as the log format does.

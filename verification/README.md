# custom-dmq in Dafny

A model of the broker of custom-dmq, a Kafka-shaped message queue, and proofs about it. Every
module can be read on its own; the imports give the order.

| part | modules |
|---|---|
| partition log, segment file, replay | `PartitionLogs`, `LogStore` |
| fetch batches, paging, the fetch consumer, the stress client | `FetchBatch`, `Paging`, `FetchWire`, `StressClient` |
| one hosted partition, idempotent producers | `Hosts`, `IdempotentRuns` |
| replication under a fixed leader | `Replication`, `ReplicationRuns` |
| cluster metadata, failover, codecs | `Cluster`, `Codecs`, `Texts`, `ClusterCodec`, `ClusterWire` |
| controller, snapshot syncs, restarts | `ControlPlane`, `SyncWire`, `ControlRuns` |
| consumer groups | `RangeAssigner`, `Coordinator`, `CoordinatorRuns` |
| ring buffers and the legacy push path | `Rings`, `LegacyTopic` |
| messages, frames, layouts, connections, requests in frames | `Messages`, `Frames`, `Layouts`, `Connections`, `RequestWire` |

How it is built. What the source updates in place is a class (`PartitionLog`, `Segment`, `Host`,
`LiveCluster`, `Broker`, `GroupState`, `MmapQueue`, `Queue`, `LegacyBroker`) whose methods are proved
against functions on values. Runs are step systems over those values: a run is a sequence of states
and actions, and the theorems quantify over all of them. Clocks, iteration orders of hash tables,
network outcomes and environment settings are parameters. Lemmas named `...Exactly` say in plain terms what a
specification function does on every input, without naming it on the other side. A file is a byte sequence. An abort of the
task (an out-of-range slice, a failed `expect`) is the outcome `Panic`, apart from the error `Err`.

What the run theorems assume:

- every produced payload is refused by the limit or held by the segment. Every payload that arrives in
  a frame is (`RequestWire.FramesBoundPayloads`), whatever the limit; one step keeps log and segment in
  agreement exactly then (`Hosts.ProduceInStep`, `IdempotentRuns.ServedConsistent`);
- in idempotent runs the partition is within the topic's partition count (`Hosts.RestartKeepsRecords`);
- replication runs allow any restart of a follower, whether it reloads or forgets. They exclude a
  retry with other bytes, a leader restart that forgets records, and listing a follower whose log and
  segment already differ. The invariant behind the prefix property survives a step exactly when it is
  none of these (`ReplicationRuns.StepKeepsLogs`), and runs from the initial state show that each of them
  breaks the prefix property itself (`RetryWithOtherBytesForks`, `LeaderForgets`, `RegisterAfterLossForks`);
- a replica loses records at its own forgetful restarts and at no other step (`ReplicationRuns.StepGrowsExactly`);
  an ack count is exact for replica lists without repeats (`Replication.CountIsExactWhenDistinct`);
- in control runs the seed fits its encoding (`ClusterCodec.ConfigRoundTrip`), all brokers share one
  `DMQ_CONTROLLER_ID` setting, and equal epochs are compared below the counter's limit
  (`ControlRuns.SaturatedEpochNamesTwoLeaders`);
- in paging, payloads fit a batch entry (65535 bytes, `FetchBatch.BatchRoundTrip`);
- in legacy runs no ring is full in any state; a full one shows nothing of its contents
  (`Rings.MapIsFifoBelowCapacity`, `LegacyTopic.DrainMovesShown`). What is said about seats holds while a
  group has had at most 65536 consumers, the most a u16 can number (`LegacyTopic.NextConsumerIndex`).

What turned out not to hold, with the exact condition proved beside it:

- replicate requests travel in version 1 frames, which carry 239 payload bytes, while the default
  limit is 255: no follower ever grows past the first longer record, and from there on only the
  leader acknowledges (`RequestWire.ReplicateArrivesExactly`, `ReplicationRuns.LongRecordStopsFollowers`,
  `ReplicationRuns.LongRecordEndsAcks`);
- cluster snapshots travel in version 1 frames too: when a cluster's response exceeds 254 bytes, a size
  fixed by the seed, no follower's table ever leaves the seed (`ControlRuns.FollowersCatchUpExactly`);
- the broker hangs up after every version 1 request that is not a handshake (`Connections.AnsweredExactly`),
  and both paging clients send version 1 requests on one connection. The fetch consumer gets one page,
  so with a page budget from 251 bytes on it reads the retained records exactly when they fit one
  frame, ten bytes a record plus payloads up to 251 (`FetchWire.OneConnectionReadsExactly`); a longer page
  aborts it or ends its loop (`FetchWire.PageArrivesExactly`), and its commit is not received
  (`FetchWire.CommitIsNotAnswered`);
- the stress client drops no codec byte: it returns the retained records exactly when there are none
  (`StressClient.StressClientReadsNothingExactly`), on one connection it never returns a record
  (`StressClient.OneConnectionEnds`), and its page budget of 64 bytes does not keep a response
  within a version 1 frame, although the comment in `crates/dmq-stress/src/client.rs` says so
  (`StressClient.SmallBudgetStillOverflows`);
- a message of 255 bytes is a legal version 1 frame in `docs/protocol.md`, but the broker's reader
  refuses it (`Frames.FrameRoundTrip`);
- a restart forgets the log of a partition whose topic is not listed or whose id is not below the
  partition count, while its file and producer table stay (`Hosts.RestartKeepsRecords`,
  `IdempotentRuns.OutOfRangeReusesOffsets`, `ReplicationRuns.RegisterAfterLossForks`);
- a retry that carries other bytes than the first attempt is replicated with those bytes
  (`ReplicationRuns.RetryWithOtherBytesForks`);
- with a limit above 65535, memory and segment drift apart on a payload over 65535 bytes, which only a
  caller inside the process can hand over (`Hosts.ProduceInStep`, `IdempotentRuns.OversizedPayloadAppendedAgain`);
- an ack count is a number of distinct replicas only if the replica list has no repeats
  (`Replication.CountIsExactWhenDistinct`);
- a joining member is given ranges that older members still hold, and a rebalance after expiry reaches
  everyone only in the uniform case (`CoordinatorRuns.SecondJoinOverlaps`,
  `CoordinatorRuns.RebalanceSplitsWhenUniform`); `docs/architecture.md` promises a rebalance on every join and leave;
- no heartbeat answer ever announces a rebalance to a live member (`CoordinatorRuns.AliveMeansNoRebalanceFlag`);
- at the limit of the epoch counter two leaders share an epoch (`ControlRuns.SaturatedEpochNamesTwoLeaders`);
- two decoders abort on malformed input (`ClusterCodec.DecodersPanicExactly`, `Messages.ParsePanicsExactly`);
- the memory-mapped queue loses a whole turn when it fills (`Rings.MapIsFifoBelowCapacity`, `Rings.MapBeyondCapacity`);
- an acknowledging follower may forget the record it was counted for (`ReplicationRuns.AckerForgets`);
- in the push path the partition of a consumer that disconnects is never handed out again, and after
  a restart no consumer reads a partition that existed before it, up to 65536 consumers
  (`LegacyTopic.NoPartitionIsGivenTwice`, `LegacyTopic.RestartOrphansPartitions`).

## Model

| member | source | states |
|---|---|---|
| PartitionLogs.AppendsRetainNewest | crates/dmq-storage/src/partition_log.rs:68-132 | after any number of appends the log is the last min(n, max) records of the history, contiguous from base to next offset |
| PartitionLogs.LogOfExactly | crates/dmq-storage/src/partition_log.rs:68-132 | the reference log in numbers: how many records are kept, their offsets and payloads, base and next offset |
| PartitionLogs.PartitionLog.constructor | crates/dmq-storage/src/partition_log.rs:36-50 | a new log has an empty history |
| PartitionLogs.PartitionLog.Append | crates/dmq-storage/src/partition_log.rs:68-77 | the offset is the number of earlier appends; the log is that of the longer history |
| PartitionLogs.PartitionLog.EnforceRetention | crates/dmq-storage/src/partition_log.rs:114-132 | drops the oldest records over the limit and points the base at the first one left, or at the end |
| PartitionLogs.Fetched | crates/dmq-storage/src/partition_log.rs:79-112 | a fetch is the longest run from max(from, base) within the byte budget, never fewer than one record when one exists |
| PartitionLogs.LongestRunUnique | crates/dmq-storage/src/partition_log.rs:98-105 | the budget conditions allow one result length only |
| PartitionLogs.FetchedExactly | crates/dmq-storage/src/partition_log.rs:84-112 | a fetch in numbers: where it starts, when it is empty, which records it holds, that two or more stay within the budget and one more would not |
| PartitionLogs.PartitionLog.Fetch | crates/dmq-storage/src/partition_log.rs:84-112 | the loop with its saturating byte counter returns exactly that run |
| LogStore.Segment.AppendRecord | crates/dmq-storage/src/log_store.rs:17-43 | a record is appended in the segment layout, or nothing is written when the payload exceeds 65535 bytes |
| LogStore.PrefixRecovery | crates/dmq-storage/src/log_store.rs:89-106 | on every byte prefix of a segment, replay yields exactly the complete records when fewer than 8 bytes are left over and fails otherwise |
| LogStore.WholeFileRecovery | crates/dmq-storage/src/log_store.rs:74-106 | replay of the whole segment is the in-memory log, and every stored offset matches the assigned one |
| LogStore.ReplayAppendsRecovered | crates/dmq-storage/src/log_store.rs:90-104 | on arbitrary bytes replay is the appends of the payloads recovered from them |
| LogStore.LoadPartitionLog | crates/dmq-storage/src/log_store.rs:74-106 | the load loop computes that replay, in release builds and with the debug offset check |
| FetchBatch.BatchRoundTrip | crates/dmq-core/src/fetch_batch.rs:16-70 | a batch decodes to its first 65535 records with payloads cut at 65535 bytes |
| FetchBatch.BatchDecodesTo | crates/dmq-core/src/fetch_batch.rs:16-70 | in numbers: the first 65535 records come back with their offsets and the first 65535 bytes of their payloads |
| FetchBatch.UnwrapExactly | crates/dmq-core/src/compression.rs:56-75 | codec byte 0 is dropped, 1 hands the rest to the decompressor, anything else is an error |
| FetchBatch.ConsumerDecodesExactly | crates/dmq-cli/src/consumer_fetch.rs:41-42 | the fetch consumer falls back to the raw bytes whenever unwrapping fails |
| FetchBatch.StressDecodesExactly | crates/dmq-stress/src/client.rs:159-165 | the stress client unwraps after codec byte 1 only, failing with it, and decodes the raw bytes in every other case |
| FetchBatch.EncodeRecords | crates/dmq-core/src/fetch_batch.rs:16-27 | the encode loop produces the batch bytes |
| FetchBatch.DecodeRecords | crates/dmq-core/src/fetch_batch.rs:29-70 | the decode loop agrees with the parser on every input, errors included |
| FetchBatch.ConsumerReadsBatch | crates/dmq-cli/src/consumer_fetch.rs:41-42 | the fetch consumer recovers the batch from the dispatcher's uncompressed response |
| FetchBatch.StressMisreadsBatch | crates/dmq-stress/src/client.rs:159-165 | the stress client recovers the batch exactly when it is empty; any batch under 256 records looks empty to it |
| Paging.PageOfHistory | crates/dmq-storage/src/partition_log.rs:84-112 | a page is a stretch of the history from the first retained offset asked for, empty only at the end |
| Paging.TakePage | crates/dmq-cli/src/consumer_fetch.rs:52-59 | the page is taken over record by record; the next offset is the last record's offset plus one |
| Paging.CommitIsLogEnd | crates/dmq-cli/src/consumer_fetch.rs:58-66 | the offset sent in the commit after all retained records were read is the end of the log, exactly unless a limit of zero kept nothing of a non-empty history |
| Paging.RunAccounts | crates/dmq-cli/src/consumer_fetch.rs:16-59 | over every interleaving of appends and polls, delivered records are the log's, at strictly increasing offsets, and every offset passed is delivered or missed, never both |
| Paging.MissedWasEvicted | crates/dmq-storage/src/partition_log.rs:79-85 | a missed offset was below the base of the log when the poll that skipped it asked |
| FetchWire.PageArrivesExactly | crates/dmq-cli/src/consumer_fetch.rs:34-42 | a page in a version 1 frame reaches the consumer intact exactly when ten bytes a record plus payloads are at most 251; a longer one aborts it, or ends its loop when the length byte is zero |
| FetchWire.ResponseIntactExactly | crates/dmq-protocol/src/message.rs:844-861 | the response message is read as it was sent exactly up to that size |
| FetchWire.FetchPage | crates/dmq-cli/src/consumer_fetch.rs:18-42 | one request and response, through batch, codec byte and frame, has that outcome; a page received splits the unread tail into itself and the tail after it |
| Connections.HandleConnection | crates/dmq-cli/src/runner.rs:172-222 | the connection loop answers exactly the frames the specification says, for every stream |
| Connections.AnsweredExactly | crates/dmq-cli/src/runner.rs:172-222 | of any frames their formats carry, frame i is answered exactly when every frame up to it has an answer and none before it, handshakes apart, is a version 1 frame or in a session whose last accepted handshake did not ask for version 2 |
| Connections.VersionIsLastAccepted | crates/dmq-cli/src/runner.rs:231-240 | the session is in version 2 exactly when a handshake with an accepted token asked for version 2 and none with an accepted token has asked for version 1 since |
| Connections.OneAnswer | crates/dmq-cli/src/runner.rs:212-220 | a client that starts with a version 1 request that is no handshake gets one answer per connection |
| FetchWire.FetchLoop | crates/dmq-cli/src/consumer_fetch.rs:16-59 | the consumer's loop over a fixed log, on a connection whose peer answers a given number of fetch requests, reads what the specification says and ends as it says |
| FetchWire.TurnExactly | crates/dmq-cli/src/consumer_fetch.rs:18-59 | one turn: a page over 251 bytes ends or aborts the loop by its length byte with nothing of it read; any other page is read and the loop goes on behind its last record |
| FetchWire.CommitIsNotAnswered | crates/dmq-cli/src/consumer_fetch.rs:61-74 | of a fetch request and any later version 1 messages on its connection, commits included, only the fetch is answered |
| FetchWire.OneConnectionReadsExactly | crates/dmq-cli/src/consumer_fetch.rs:16-59 | for every log, the one page of a connection is exactly the retained records exactly when ten bytes a record plus payloads are at most 251 and the budget does not split them; from a budget of 251 on, exactly when the former |
| FetchWire.KeptConnectionReadsExactly | crates/dmq-cli/src/consumer_fetch.rs:16-59 | from a peer that keeps the connection the consumer reads the retained records exactly when every page fits its frame; from any peer, a beginning of them |
| StressClient.ResponseArrivesAsPrefix | crates/dmq-protocol/src/message.rs:844-861 | what arrives of a fetch response is the beginning that its length byte counts, or an error |
| StressClient.StressReceivesFewer | crates/dmq-stress/src/client.rs:152-165 | the stress client decodes a page of n records to n / 256 records or an error, never to all of them unless there are none |
| StressClient.FetchAll | crates/dmq-stress/src/client.rs:168-182 | the loop over a fixed log, on a connection whose peer answers a given number of requests, returns what the specification says |
| StressClient.StressClientReadsNothingExactly | crates/dmq-stress/src/client.rs:168-182 | for every log, empty payloads included, and any number of answered requests, the loop returns the retained records exactly when there are none and the first request is answered |
| StressClient.OneConnectionEnds | crates/dmq-stress/src/client.rs:168-182 | on one connection to the broker the loop ends with nothing on its first page or with an error on its first or second request |
| StressClient.StressClientSeesNothing | crates/dmq-stress/src/client.rs:140-182 | on every log without empty payloads the first page decodes to nothing or an error, where the loop stops |
| StressClient.SmallBudgetStillOverflows | crates/dmq-stress/src/client.rs:140-152 | twenty-four one-byte records fit the 64-byte budget and their response does not arrive as sent |
| Hosts.Host.constructor | crates/dmq-broker/src/broker.rs:445-450 | a new partition is empty |
| Hosts.Host.AppendLog | crates/dmq-broker/src/broker.rs:456-478 | limit check, listing, memory append, segment append, with the error that leaves memory ahead |
| Hosts.Host.ProduceIdempotent | crates/dmq-broker/src/broker.rs:480-501 | resolve, then append and record, or return the stored offset, or refuse |
| Hosts.Host.ApplyReplica | crates/dmq-broker/src/broker.rs:503-541 | old offsets ignored, gaps and non-replicas refused, the exact next offset appended |
| Hosts.Host.FetchLog | crates/dmq-broker/src/broker.rs:550-567 | replicas answer with the fetched run under the clamped budget, others refuse |
| Hosts.Host.Reopen | crates/dmq-broker/src/broker.rs:395-410 | start-up reloads the producer table, and the log only for listed topics and partitions in range; fails exactly on torn files |
| Hosts.ProduceInStep | crates/dmq-broker/src/broker.rs:462-475 | a produce keeps log and segment equal exactly unless a payload over 65535 bytes passes the limit |
| Hosts.ProducedExactly | crates/dmq-broker/src/broker.rs:456-478 | a produce over the limit is refused and changes nothing; any other is appended, lists the topic and answers with the number of records before it, or with an error when the segment cannot hold it |
| Hosts.AppliedExactly | crates/dmq-broker/src/broker.rs:503-541 | Ok exactly for a replica that already holds that offset or takes it now; appended exactly at the next offset, else nothing changes |
| Hosts.ReopenedExactly | crates/dmq-broker/src/broker.rs:395-410 | start-up takes the producer table from its files and the log from its segment, the latter only for listed topics and partitions in range |
| Hosts.RestartKeepsRecords | crates/dmq-broker/src/broker.rs:395-410 | a restart keeps the records exactly when it reloads the segment or there are none |
| Hosts.EntryRoundTrip | crates/dmq-storage/src/metadata.rs:41-73 | the stored producer entry reads back |
| RequestWire.FramesBoundPayloads | crates/dmq-protocol/src/protocol.rs:73-116 | a request read from any stream has at most 65525 (produce), 65509 (idempotent) or 65515 (replicate) payload bytes |
| RequestWire.BoundsAreReached | crates/dmq-protocol/src/protocol.rs:73-139 | every produce and idempotent produce payload up to those bounds arrives in some frame |
| RequestWire.ReplicateArrivesExactly | crates/dmq-broker/src/replication.rs:50-67 | a replicate request reaches the follower exactly when its payload has at most 239 bytes; up to 65535 the follower's read fails, beyond that the leader's encoding aborts |
| IdempotentRuns.EveryRunIsExactlyOnce | crates/dmq-storage/src/idempotency.rs:29-82 | under any limit, over every run of produces, retries, gaps, stale sequences and restarts with payloads the limit refuses or the segment holds, each producer's appended sequences are exactly 0..last, once each, at increasing offsets; log, segment, table and table files agree |
| IdempotentRuns.EveryFramedRunIsExactlyOnce | crates/dmq-broker/src/broker.rs:456-501 | the same for every run of requests that arrived in frames, under any limit |
| IdempotentRuns.ServedConsistent | crates/dmq-broker/src/broker.rs:456-501 | one request keeps log, segment, table and table files in agreement exactly when it does not append a payload that the segment cannot hold |
| IdempotentRuns.RetryReturnsOriginalOffset | crates/dmq-broker/src/broker.rs:480-501 | after any such run: over the limit a request is refused; else only the next sequence is appended, the last one returns the offset where it was appended and changes nothing, and all others are refused |
| IdempotentRuns.OutOfRangeReusesOffsets | crates/dmq-broker/src/broker.rs:399-407 | outside the partition count a restart makes the next sequence reuse offset 0 |
| IdempotentRuns.OversizedPayloadAppendedAgain | crates/dmq-storage/src/log_store.rs:26-31 | a payload the segment cannot hold, handed over by a direct library call only, is appended in memory at every retry |
| Replication.ReplicateToFollowers | crates/dmq-broker/src/replication.rs:22-48 | the loop counts the local broker and every addressable replica that answered Ok |
| Replication.CountIsExactWhenDistinct | crates/dmq-broker/src/replication.rs:30-47 | the count is the number of distinct acking replicas for all answers exactly when the list has no repeats |
| Replication.AckCountExactly | crates/dmq-broker/src/replication.rs:30-47 | the count is the number of places in the list that are the broker itself or have a known address and answered Ok |
| ReplicationRuns.ApplyKeepsPrefix | crates/dmq-broker/src/broker.rs:519-540 | applying a truthful record keeps the follower a prefix of the leader, and Ok means it holds the record |
| ReplicationRuns.StepKeepsLogs | crates/dmq-broker/src/broker.rs:456-541 | one step keeps the invariant (every log a prefix of the leader's, the leader and whatever would be reloaded in step with the segment, all requests truthful) exactly when it is not a retry with other bytes, a forgetful leader restart, a listing after loss or an oversized produce |
| ReplicationRuns.FramedProduceIsTame | crates/dmq-protocol/src/protocol.rs:73-116 | a produce that arrived in a frame is never oversized, under any limit |
| ReplicationRuns.FollowersArePrefixes | crates/dmq-broker/src/broker.rs:503-541 | in every state of every such run, with any follower restarts and with requests lost, repeated or reordered, each follower's history is a prefix of the leader's |
| ReplicationRuns.FetchedRecordIsLeaders | crates/dmq-broker/src/broker.rs:550-567 | in every such run any record fetched from any replica is the leader's record at that offset |
| ReplicationRuns.StepGrowsExactly | crates/dmq-broker/src/broker.rs:395-410 | one step takes no record from a given broker exactly when it is not a restart of that broker that drops one |
| ReplicationRuns.HistoriesGrow | crates/dmq-broker/src/broker.rs:456-541 | in every run a broker that does not itself restart that way never loses a record |
| ReplicationRuns.AcksMeanHeld | crates/dmq-broker/src/replication.rs:30-47 | in every run, with any follower restarts and a repeat-free replica list, an ack count k counts k distinct listed replicas; each held that payload at that offset when it was counted, and holds it at every later step unless it has itself forgotten since |
| ReplicationRuns.AskCountsExactly | crates/dmq-broker/src/replication.rs:31-46 | one turn counts a broker exactly when it is the leader itself, or is addressable, got the request and was heard back, is listed, holds that offset or lacks just this record, and the payload has at most 239 bytes |
| ReplicationRuns.FinishedCallCounts | crates/dmq-broker/src/replication.rs:30-47 | in every run a finished call has counted exactly the leader and every addressable listed replica that answered Ok |
| ReplicationRuns.AckerForgets | crates/dmq-broker/src/broker.rs:395-410 | a run in which a follower is counted, restarts without reloading and holds nothing |
| ReplicationRuns.ReachExtendsExactly | crates/dmq-broker/src/replication.rs:50-67 | a delivered request extends a broker's log exactly when the broker is listed, lacks just this record and the payload has at most 239 bytes |
| ReplicationRuns.LongRecordStopsFollowers | crates/dmq-broker/src/replication.rs:30-67 | in every run no follower ever grows past the leader's first record of more than 239 bytes |
| ReplicationRuns.LongRecordEndsAcks | crates/dmq-broker/src/replication.rs:30-47 | in every run, from that record on only the leader itself is ever counted |
| ReplicationRuns.RetryWithOtherBytesForks | crates/dmq-cli/src/runner.rs:425-495 | a run in which a retry with other bytes reaches a follower that lacks the offset: different records at the same offset |
| ReplicationRuns.LeaderForgets | crates/dmq-broker/src/broker.rs:395-410 | a run in which a leader that does not reload is behind its follower |
| ReplicationRuns.RegisterAfterLossForks | crates/dmq-broker/src/broker.rs:395-443 | a run in which a follower, listed after it forgot its log, reloads a history that is no prefix of the leader's |
| ReplicationRuns.LossyRestartForks | crates/dmq-broker/src/broker.rs:510-522 | the same on one broker: it forgets its log, accepts offset 0 again, and later reloads a forked history |
| Cluster.LowestId | crates/dmq-core/src/cluster_state.rs:35-35 | the lowest broker id, if there is a broker |
| Cluster.OneController | crates/dmq-core/src/cluster_state.rs:31-36 | a broker is the controller exactly when the setting names it, or there is no setting and its id is the lowest; under a garbled setting none is |
| Cluster.Find | crates/dmq-core/src/cluster_state.rs:137-150 | lookups use the first matching assignment |
| Cluster.LookupsExactly | crates/dmq-core/src/cluster_state.rs:137-150 | leader and epoch are those of the first entry for the partition; without one there is no leader and the epoch is 0 |
| Cluster.Candidate | crates/dmq-core/src/cluster_state.rs:164-167 | the first live replica other than the leader, if any |
| Cluster.FailoverComplete | crates/dmq-core/src/cluster_state.rs:153-177 | afterwards the leader is live or no other replica is |
| Cluster.FailoverMinimal | crates/dmq-core/src/cluster_state.rs:153-177 | a partition changes exactly when its leader is dead and another replica lives; then to the first such replica and the next epoch; nothing else changes and leaders stay in the replica list |
| Cluster.FailoverIdempotent | crates/dmq-core/src/cluster_state.rs:153-177 | a second pass at the same time changes and reports nothing |
| Cluster.UpAfterHeartbeat | crates/dmq-core/src/cluster_state.rs:124-135 | after a recorded heartbeat a broker is alive exactly as long as the timeout has not passed since |
| Cluster.PassReplacesSilentLeaders | crates/dmq-core/src/cluster_state.rs:130-177 | in times: a leader is replaced exactly when it has been silent for longer than the timeout and another replica has not, by the first such replica, at the next epoch; nothing else changes |
| Cluster.DiffExactly | crates/dmq-core/src/cluster_state.rs:161-177 | the reported list has one entry for every assignment that changed, the new one |
| Cluster.RecordedExactly | crates/dmq-core/src/cluster_state.rs:124-128 | only a known broker's time is set, and nothing else changes |
| Cluster.SeedState | crates/dmq-core/src/cluster_state.rs:60-79 | every broker boots as just heard from, every partition at epoch 1 with its static leader |
| Cluster.LiveCluster.RecordHeartbeat | crates/dmq-core/src/cluster_state.rs:124-128 | only known brokers are recorded |
| Cluster.LiveCluster.DeadLeaders | crates/dmq-core/src/cluster_state.rs:154-160 | exactly the assignments with a dead leader, in order |
| Cluster.LiveCluster.PromoteNext | crates/dmq-core/src/cluster_state.rs:163-174 | one assignment is promoted in place and reported if it changed |
| Cluster.LiveCluster.FailoverDeadLeaders | crates/dmq-core/src/cluster_state.rs:153-177 | the two loops apply the promotion to every assignment and return exactly what changed |
| Cluster.SeedProjectsBack | crates/dmq-core/src/cluster_state.rs:60-114 | the view of a freshly booted state is the seed |
| Cluster.ViewNamesLiveLeader | crates/dmq-core/src/cluster.rs:65-73 | a lookup in the cached view gives the live state's leader |
| Texts.Utf8Exactly | crates/dmq-core/src/cluster_state.rs:274-275 | the check on host names accepts exactly the encodings of sequences of Unicode scalar values |
| ClusterCodec.FileRoundTrip | crates/dmq-core/src/cluster_state.rs:179-218 | the stored state survives encode and decode, for every iteration order of the liveness table, exactly when every host is text and no host or count is cut |
| ClusterCodec.InfoRoundTrip | crates/dmq-core/src/cluster_state.rs:221-261 | the GET_CLUSTER form preserves all but liveness under the same exact condition |
| ClusterCodec.InfoRefusesPrefix | crates/dmq-core/src/cluster_state.rs:263-317 | every strict prefix of a GET_CLUSTER response is an error |
| ClusterCodec.ParsedIsEncodable | crates/dmq-core/src/cluster_state.rs:263-317 | whatever decodes is within the limits of the format, hosts being well-formed text |
| ClusterCodec.TableExactly | crates/dmq-core/src/cluster_state.rs:305-310 | the liveness table holds the last time given for each broker, and nothing else |
| ClusterCodec.InfoVersions | crates/dmq-core/src/cluster_state.rs:246-261 | a version 1 response boots like a seed, heard from now; version 2 is the state that follows; any other version is an error |
| ClusterCodec.DecodersPanicExactly | crates/dmq-core/src/cluster_state.rs:210-317 | on arbitrary bytes the file and version 2 decoders never read out of bounds; the version 1 form does exactly when a host overruns |
| ClusterCodec.ConfigPanicsExactly | crates/dmq-core/src/cluster.rs:119-156 | the static decoder aborts exactly when a counted broker entry, after complete ones whose hosts are text, declares a host longer than what is left |
| ClusterCodec.NodePanicsExactly | crates/dmq-core/src/cluster.rs:124-132 | one broker entry: when it aborts, when it is complete, and where it ends |
| ClusterCodec.VersionOnePanics | crates/dmq-core/src/cluster_state.rs:250-253 | an eight-byte version 1 response that aborts |
| ClusterCodec.ConfigRoundTrip | crates/dmq-core/src/cluster.rs:95-156 | the static configuration survives encode and decode exactly when every host is text and nothing is cut |
| ClusterWire.ReadU8 | crates/dmq-core/src/cluster_state.rs:329-336 | a bounds-checked read at the cursor is the parser on the rest |
| ClusterWire.ReadU16 | crates/dmq-core/src/cluster_state.rs:338-345 | the same for two bytes |
| ClusterWire.ReadU64 | crates/dmq-core/src/cluster_state.rs:347-363 | the same for eight bytes |
| ClusterWire.ReadBroker | crates/dmq-core/src/cluster_state.rs:269-278 | the same for a broker entry |
| ClusterWire.ReadBrokers | crates/dmq-core/src/cluster_state.rs:267-279 | the broker loop |
| ClusterWire.ReadReplicas | crates/dmq-core/src/cluster_state.rs:287-290 | the replica loop |
| ClusterWire.ReadLive | crates/dmq-core/src/cluster_state.rs:283-298 | an assignment entry |
| ClusterWire.ReadAssignments | crates/dmq-core/src/cluster_state.rs:281-299 | the assignment loop |
| ClusterWire.ReadLiveness | crates/dmq-core/src/cluster_state.rs:305-310 | the liveness loop, later entries winning |
| ClusterWire.DecodeBody | crates/dmq-core/src/cluster_state.rs:263-317 | the cursor decoder agrees with the parser on every input |
| ClusterWire.EncodeState | crates/dmq-core/src/cluster_state.rs:179-208 | the buffer is the stored form under some iteration order of the liveness table |
| ClusterWire.Iterate | crates/dmq-core/src/cluster_state.rs:202-206 | iterating the liveness table lists each entry once |
| ControlPlane.Broker.SyncClusterView | crates/dmq-broker/src/broker.rs:210-214 | the cached view becomes the projection of the live state |
| ControlPlane.Broker.Store | crates/dmq-core/src/cluster_state.rs:92-97 | the file holds the live state |
| ControlPlane.Broker.ApplyClusterState | crates/dmq-broker/src/broker.rs:216-221 | state, file and view are replaced together |
| ControlPlane.Broker.HandleBrokerHeartbeat | crates/dmq-broker/src/broker.rs:223-237 | the controller records, fails over, stores and refreshes; others answer 1 and do nothing |
| ControlPlane.Broker.RunFailoverAt | crates/dmq-broker/src/broker.rs:255-269 | stores and refreshes only when some leader changed, and returns how many |
| ControlPlane.Broker.ControllerTick | crates/dmq-broker/src/broker.rs:239-253 | the controller records itself and runs a pass |
| ControlPlane.OpenOrBootstrap | crates/dmq-core/src/cluster_state.rs:81-90 | starts from the decoded file, or from the seed when there is none |
| ControlPlane.HeartbeatProtectsLeader | crates/dmq-broker/src/broker.rs:223-237 | a broker whose heartbeat is being handled keeps the partitions it leads |
| ControlPlane.SilentLeaderIsReplaced | crates/dmq-broker/src/broker.rs:255-269 | in times: a pass of the controller replaces exactly the leaders silent for longer than the timeout while another replica is not |
| ControlPlane.HeartbeatReplacesSilentLeaders | crates/dmq-broker/src/broker.rs:223-237 | so does a heartbeat it handles, with the sender just heard from |
| ControlPlane.TickProtectsController | crates/dmq-broker/src/broker.rs:239-253 | the controller's own tick keeps the partitions it leads |
| SyncWire.SyncedExactly | crates/dmq-cli/src/runner.rs:649-665 | a response in its version 1 frame is received as the snapshot it was made from exactly when it has at most 254 bytes, and is an error otherwise |
| SyncWire.InfoSizeFixed | crates/dmq-core/src/cluster_state.rs:221-244 | the size of a response depends on hosts and replica lists only: 7 bytes, 5 and the host per broker, 16 and two per replica per partition |
| ControlRuns.DeliveryIsSnapshot | crates/dmq-cli/src/runner.rs:649-665 | in a cluster with that seed a delivered response is the snapshot, or always an error |
| ControlRuns.StatesOk | crates/dmq-broker/src/broker.rs:210-269 | in every reachable state the cached view is the projection of the live state and the stored file decodes to the same assignments and epochs |
| ControlRuns.RestartSucceeds | crates/dmq-core/src/cluster_state.rs:81-90 | a restart always finds a decodable file with the assignments in memory |
| ControlRuns.EveryTableIsPastTruth | crates/dmq-cli/src/runner.rs:602-665 | every broker's table is the controller's at some earlier moment, and its pending response one no earlier |
| ControlRuns.SameEpochSameLeader | crates/dmq-core/src/cluster_state.rs:153-177 | any two brokers at any two moments of a run with the same epoch below the limit name the same leader |
| ControlRuns.EpochNeverDecreases | crates/dmq-cli/src/runner.rs:602-665 | no broker's epoch for a partition ever decreases, over failovers, syncs and restarts |
| ControlRuns.LeadersStayReplicas | crates/dmq-core/src/cluster_state.rs:164-173 | leaders stay in their replica list in every table of every run, if the seed put them there |
| ControlRuns.LongResponsesFreezeFollowers | crates/dmq-cli/src/runner.rs:602-665 | if the responses exceed 254 bytes, no follower's table ever leaves the seed, in any run |
| ControlRuns.ShortResponsesSync | crates/dmq-cli/src/runner.rs:602-665 | if they do not, any run can go on so that a given follower takes over the controller's table |
| ControlRuns.FollowersCatchUpExactly | crates/dmq-cli/src/runner.rs:602-665 | at any moment of any run a follower can still learn the controller's table exactly when the responses have at most 254 bytes or that table is the seed's |
| ControlRuns.SaturatedEpochNamesTwoLeaders | crates/dmq-core/src/cluster_state.rs:173-173 | a promotion keeps the epoch exactly at the counter's limit |
| RangeAssigner.SortDedup | crates/dmq-broker/src/coordinator.rs:137-138 | the ids in increasing order, each once |
| RangeAssigner.SortIsUnique | crates/dmq-broker/src/coordinator.rs:129-138 | that order is unique, so the table's iteration order cannot matter |
| RangeAssigner.SharesPartition | crates/dmq-broker/src/coordinator.rs:143-155 | the shares partition 0..count, pairwise disjoint, with sizes differing by at most one |
| RangeAssigner.ShareExactly | crates/dmq-broker/src/coordinator.rs:143-155 | the range of the i-th of n members in closed form: the first count mod n members get one more |
| RangeAssigner.TakeShare | crates/dmq-broker/src/coordinator.rs:148-153 | one member's run of partitions; the u16 counter never saturates |
| RangeAssigner.AssignRanges | crates/dmq-broker/src/coordinator.rs:139-156 | the loop gives members in id order their consecutive shares |
| Coordinator.GroupState.constructor | crates/dmq-broker/src/coordinator.rs:31-39 | a new group has generation 1 and no members |
| Coordinator.GroupState.NextMemberId | crates/dmq-broker/src/coordinator.rs:159-165 | the smallest positive unused id, without overflow |
| Coordinator.GroupState.CollectCurrent | crates/dmq-broker/src/coordinator.rs:129-133 | the ids of members of the generation or without partitions |
| Coordinator.GroupState.CollectAll | crates/dmq-broker/src/coordinator.rs:134-136 | all ids, used when none is current |
| Coordinator.GroupState.RangeAssign | crates/dmq-broker/src/coordinator.rs:124-157 | the range assignment of the eligible members, whatever the iteration order |
| Coordinator.Install | crates/dmq-broker/src/coordinator.rs:64-70 | members named in the assignment, and no others, take it over |
| Coordinator.GroupState.Join | crates/dmq-broker/src/coordinator.rs:41-74 | generation bumped, member inserted, eligible members reassigned and stamped, the joiner's range returned |
| Coordinator.GroupState.Heartbeat | crates/dmq-broker/src/coordinator.rs:76-90 | codes 1, 2 and 0 and the refreshed time |
| Coordinator.GroupState.ExpireStaleMembers | crates/dmq-broker/src/coordinator.rs:92-108 | exactly the stale members go, and only then the generation moves |
| Coordinator.GroupState.Rebalance | crates/dmq-broker/src/coordinator.rs:110-120 | eligible members are reassigned without a new stamp |
| Coordinator.GroupState.GroupHeartbeat | crates/dmq-broker/src/broker.rs:303-312 | expiry, a rebalance if someone left, then the answer |
| CoordinatorRuns.EveryRunOk | crates/dmq-broker/src/coordinator.rs:41-120 | in every run current-generation members hold disjoint partitions of the topic, stamps never exceed the generation, keys are ids, nothing is left pending |
| CoordinatorRuns.EligibleExactly | crates/dmq-broker/src/coordinator.rs:129-136 | who takes part: members of the generation and those without partitions, or everyone when there are none |
| CoordinatorRuns.AssignedExactly | crates/dmq-broker/src/coordinator.rs:124-157 | the whole assignment in closed form, by the rank of a member's id among those who take part |
| CoordinatorRuns.JoinExactly | crates/dmq-broker/src/coordinator.rs:41-74 | what a join does to every member: stamp, time and table, and who is left alone |
| CoordinatorRuns.BeatExactly | crates/dmq-broker/src/coordinator.rs:76-90 | code 0 exactly for a known member with its own stamp, 1 exactly for an unknown one, else 2; only code 0 changes anything, and that only this member's time |
| CoordinatorRuns.ExpireExactly | crates/dmq-broker/src/coordinator.rs:92-108 | gone are exactly the members last seen more than the timeout ago; the generation moves exactly then |
| CoordinatorRuns.RebalanceExactly | crates/dmq-broker/src/coordinator.rs:110-120 | who takes part gets its range and a new time, no stamp changes, nobody else changes |
| CoordinatorRuns.SweepExactly | crates/dmq-broker/src/broker.rs:306-308 | a heartbeat request removes exactly the stale members and rebalances exactly then |
| CoordinatorRuns.OldStampsAreRefused | crates/dmq-broker/src/coordinator.rs:76-90 | below the generation limit, at any moment of any run after a member joined again, a heartbeat with a stamp from before is refused and changes nothing |
| CoordinatorRuns.EveryJoinCovers | crates/dmq-broker/src/coordinator.rs:41-74 | right after every join each partition has exactly one current holder |
| CoordinatorRuns.RebalanceSplitsWhenUniform | crates/dmq-broker/src/coordinator.rs:92-136 | after expiry the rebalance splits all partitions over all survivors exactly when someone survived and all or none of them pass the filter |
| CoordinatorRuns.UniformBelowLimit | crates/dmq-broker/src/coordinator.rs:129-136 | below the generation limit: no survivor empty-handed, or all of them |
| CoordinatorRuns.SecondJoinOverlaps | crates/dmq-broker/src/coordinator.rs:52-70 | two joins leave partition 0 with both members |
| CoordinatorRuns.AliveMeansNoRebalanceFlag | crates/dmq-broker/src/broker.rs:306-312 | a heartbeat answered 0 never carries the rebalance flag |
| CoordinatorRuns.AcceptedBeatSurvives | crates/dmq-broker/src/coordinator.rs:76-98 | an accepted heartbeat protects its member for one session timeout |
| Rings.MapIsFifoBelowCapacity | crates/dmq-storage/src/mmap_queue.rs:88-123 | exact FIFO below 10000 messages; empty-looking at 10000 |
| Rings.MapBeyondCapacity | crates/dmq-storage/src/mmap_queue.rs:88-115 | beyond 10000 the front is a message of a later turn |
| Rings.QueueKeepsNewest | crates/dmq-core/src/topic.rs:39-85 | the evicting queue holds the newest 10000 unpopped payloads, cut at 255 bytes |
| Rings.AgreeExactlyUntilFull | crates/dmq-core/src/topic.rs:39-85 | on every sequence of operations both queues show the same pops and lengths exactly as long as the mapped one never holds 10000 |
| Rings.MmapQueue.LiveLen | crates/dmq-storage/src/mmap_queue.rs:117-123 | appends minus pops modulo 10000 |
| Rings.MmapQueue.Append | crates/dmq-storage/src/mmap_queue.rs:88-100 | writes the slot in place, keeps head and tail in-range multiples of 255, returns the old length |
| Rings.MmapQueue.PopFront | crates/dmq-storage/src/mmap_queue.rs:102-115 | returns the last payload written to the head slot, or nothing when head meets tail |
| Rings.Queue.Append | crates/dmq-core/src/topic.rs:39-57 | evicts the oldest when full and returns the running offset |
| Rings.Queue.ReadAt | crates/dmq-core/src/topic.rs:59-71 | the payload appended at that offset while it is live, else nothing |
| Rings.Queue.PopFront | crates/dmq-core/src/topic.rs:77-85 | the oldest live payload |
| LegacyTopic.SmallestOf | crates/dmq-core/src/cgroup.rs:62-73 | the first partition with the fewest messages |
| LegacyTopic.LegacyBroker.SmallestPartitionIndex | crates/dmq-core/src/cgroup.rs:62-73 | the loop finds it |
| LegacyTopic.LegacyBroker.DrainInto | crates/dmq-broker/src/broker.rs:723-725 | staged messages move over until the staging queue looks empty |
| LegacyTopic.DrainMovesAll | crates/dmq-broker/src/broker.rs:723-725 | draining a staging queue that is not full moves every message |
| LegacyTopic.DrainMovesShown | crates/dmq-broker/src/broker.rs:723-725 | draining moves as many messages as the queue shows, which is all of them exactly when it is not full |
| LegacyTopic.DrainKeepsOrder | crates/dmq-broker/src/broker.rs:723-725 | what was staged comes, in order, after what was queued |
| LegacyTopic.FedGroupInOrder | crates/dmq-broker/src/broker.rs:721-727 | a group's turn: its first partition with the fewest messages gets what was staged and then the payload, cut at 255 bytes; no other partition changes |
| LegacyTopic.OnePartitionIsFifo | crates/dmq-broker/src/broker.rs:705-730 | in every run, what a group with one partition was handed, then what is queued, then for the first group what is staged, is what was produced for it, in the order of production |
| LegacyTopic.PopExactly | crates/dmq-broker/src/broker.rs:822-842 | a pop delivers the oldest message of the named partition and touches nothing else |
| LegacyTopic.RegisterExactly | crates/dmq-broker/src/broker.rs:692-703 | a registration creates the group if need be and counts one more consumer in it; no other group changes |
| LegacyTopic.LegacyBroker.ProducePcm | crates/dmq-broker/src/broker.rs:705-730 | staging without groups, answering with the larger of log offset and staged length; else every group in turn drains and appends, answering with the log offset |
| LegacyTopic.AnswerIsLogOffset | crates/dmq-broker/src/broker.rs:705-717 | in every run, for every log offset from the number of produces on, the answer is the log offset, because never more is staged than was produced |
| LegacyTopic.LegacyBroker.RegisterConsumer | crates/dmq-broker/src/broker.rs:692-703 | group found or created, consumer seated, its partition index returned as a u16 |
| LegacyTopic.LegacyBroker.Reload | crates/dmq-core/src/cgroup.rs:15-29 | queues keep their contents, and every group counts as many consumers as it has partitions |
| LegacyTopic.LegacyBroker.PopFront | crates/dmq-broker/src/broker.rs:822-842 | one message leaves the named partition |
| LegacyTopic.EveryRunBalances | crates/dmq-broker/src/broker.rs:705-730 | in every run, disconnects and restarts included, with no full ring in any state and payloads up to 255 bytes, staged, queued and delivered messages of the first group are everything produced, and queued and delivered ones of a later group everything since its creation |
| LegacyTopic.NoPartitionIsGivenTwice | crates/dmq-core/src/cgroup.rs:41-59 | in every run, disconnects and restarts included, up to 65536 consumers of a group: no partition index is handed out twice, and a partition has a connected reader exactly when it was handed out since the last restart and its reader has not disconnected |
| LegacyTopic.NextConsumerIndex | crates/dmq-core/src/cgroup.rs:41-59 | in every run the next consumer gets a new partition and is told its index exactly if fewer than 65536 came before; the 65537th is told index 0 |
| LegacyTopic.RestartOrphansPartitions | crates/dmq-core/src/cgroup.rs:15-59 | up to 65536 consumers, none that connects after a restart ever reads a partition that existed before it |
| Messages.MessageRoundTrip | crates/dmq-protocol/src/message.rs:621-842 | every message survives encode and decode exactly when its length field holds its length |
| Messages.ParsePanicsExactly | crates/dmq-protocol/src/message.rs:735-739 | the decoder aborts on exactly one body, an error response without payload |
| Layouts.ProduceLayout | crates/dmq-protocol/src/message.rs:443-451 | type 7, topic, partition, payload, each at its position in big-endian form |
| Layouts.FetchLayout | crates/dmq-protocol/src/message.rs:366-376 | type 5, topic, partition, offset, byte budget, wait, each at its position in big-endian form |
| Layouts.IdempotentProduceLayout | crates/dmq-protocol/src/message.rs:575-585 | type 14, topic, partition, producer, sequence, payload, each at its position in big-endian form |
| Layouts.ReplicateLayout | crates/dmq-protocol/src/message.rs:531-542 | type 12, topic, partition, offset, length, payload, each at its position in big-endian form |
| Layouts.CommitOffsetLayout | crates/dmq-protocol/src/message.rs:408-417 | type 6, group, topic, partition, offset, each at its position in big-endian form |
| Layouts.JoinGroupLayout | crates/dmq-protocol/src/message.rs:258-266 | type 16, group, topic, member, each at its position in big-endian form |
| Layouts.GroupHeartbeatLayout | crates/dmq-protocol/src/message.rs:291-299 | type 17, group, member, generation, each at its position in big-endian form |
| Layouts.CreateTopicLayout | crates/dmq-protocol/src/message.rs:467-475 | type 8, topic, partition count, retention, each at its position in big-endian form |
| Layouts.ConsumerRegisterLayout | crates/dmq-protocol/src/message.rs:213-224 | type 3, port, topic, group, each at its position in big-endian form |
| Layouts.HandshakeLayout | crates/dmq-protocol/src/message.rs:335-343 | type 18, version, token length, token, each at its position in big-endian form |
| Layouts.ShortRequestLayout | crates/dmq-protocol/src/message.rs:747-800 | type byte and fields of every other request, each at its position in big-endian form |
| Layouts.ResponseLayout | crates/dmq-protocol/src/message.rs:747-800 | type byte and fields of every response, each at its position in big-endian form |
| Layouts.FrameLayout | crates/dmq-protocol/src/protocol.rs:118-139 | a version 1 frame is length and message; a version 2 frame is 255, 2, the length of the rest, 2, correlation id, message |
| Layouts.BrokerLayout | crates/dmq-core/src/cluster_state.rs:179-208 | a broker entry is id, host length, host, port |
| Layouts.LiveLayout | crates/dmq-core/src/cluster_state.rs:179-208 | an assignment entry is topic, partition, leader, replica count, replicas, epoch |
| Layouts.StateLayout | crates/dmq-core/src/cluster_state.rs:179-244 | the stored file begins with its magic, the response with its version, then replication minimum and broker count |
| Bytes.BeAt | crates/dmq-core/src/cluster_state.rs:338-363 | numbers are big-endian: byte i of n counts the multiples of 256 to the power n - 1 - i |
| Frames.MessageOnStream | crates/dmq-protocol/src/message.rs:844-861 | a client reads a version 1 message back exactly up to 255 bytes |
| Frames.FrameRoundTrip | crates/dmq-protocol/src/protocol.rs:73-139 | a frame is read back with format and correlation id, leaving what follows, exactly when the message has at most 254 bytes in version 1 (no correlation id) or 65530 in version 2 |
| Frames.V1MistakenForV2 | crates/dmq-protocol/src/protocol.rs:74-82 | a version 1 message of 255 bytes or more is refused once its length byte 255 has the reader take it for version 2 |
| Frames.StreamRoundTrip | crates/dmq-protocol/src/protocol.rs:73-139 | any mix of frames the formats carry is read back as the same sequence |
| Frames.ClusterResponseArrivesAsPrefix | crates/dmq-protocol/src/message.rs:844-861 | a GET_CLUSTER response too long for version 1 arrives as a prefix of its bytes or as an error |

## Left out

- TCP, TLS, tasks, timeouts and long polling; only the step order they impose is kept.
- Real files, memory mapping, fsync policy and the log metadata file, which no start-up reads.
- LZ4: a decompressor is a parameter, and responses are the uncompressed ones.
- Access control, principals and token checks (which tokens are accepted is a parameter), TOML loading, and environment variables other than as parameters.
- Metrics, logging, probes, command-line and admin printing, stress scheduling.
- The lossy text conversion of echo and error messages: their text is kept as its bytes.
- Brokers with different `DMQ_CONTROLLER_ID` settings, and a setting that names no broker.
- Leader changes in the replication model, and `DMQ_ACKS=all`: the source neither catches a new leader up nor refuses a produce with too few acks, so neither is promised.
- A heartbeat names its group without its topic; the search over all groups is not modelled, one group is.
- A partition is modelled by itself (`Hosts`): the broker's maps from topic and partition to logs, and from topic, partition and producer to entries, keep partitions apart.
- PartitionLogs.PartitionLog.Append: assumes fewer than 2^64 appends; the wrap-around of the offset counter is not modelled.
- Paging.RunAccounts: polls are pages before framing, each answered; `FetchWire.PageArrivesExactly` says which pages a version 1 frame carries, and a consumer of this broker polls once per connection.
- Groups with more than 65536 partitions, whose queues share files.
- FetchWire.FetchLoop: after an empty page the source sleeps before it asks again, and with its once flag it stops after one page; neither is modelled.
- LegacyTopic.LegacyBroker.ProducePcm: takes the offset of the preceding append to partition log 0, which is `Hosts.Host.AppendLog`, as a parameter; the queues inside a topic are the values that `Rings.MmapQueue` refines, so their update in place is not repeated there.
- ControlPlane.Broker.Store: says the file holds the state under some iteration order of the liveness table, because the source does not fix one.

# A replicated, segmented commit log

This project models the core of a Kafka-like message broker and proves what it guarantees. A topic
is cut into partitions. A partition is a log that one leader node writes and that follower nodes
copy; on disk it is a chain of append-only segment files. The configuration of topics, and the
choice of one controller node among all, live in etcd.

The modules follow the layers of the broker.

- **Bytes and files.** `Codec` is the record format, the scan of a file and its recovery after a
  torn write; `SegmentFile` is the segment object with its index; `FileNames` is the naming scheme
  and the order of a directory listing.
- **One partition.** `SegmentChain` says what it means that files hold one log; `Partition` is the
  object with rotation, rollback, retention, reads and restart, every method proved to be one
  operation of the plain log of `Log`. `Pool` is the range arithmetic of client reads, `Stream` a
  consumer that reads history and then follows the live log, `CatchUp` the loop that brings a
  replica up to date.
- **Replication.** `Replication` is a step system: any number of produce calls at once, follower
  logs, and a network that delays, reorders and loses messages (each is delivered at most once).
  `ReplicationInvariant` holds the inductive invariant, `ReplicationSafety` what follows for whole
  runs with somebody in sync, `ReplicationOrigin` the same from the creation of a partition on, when
  only the leader is in sync, `ReplicationJoin` when a follower may be counted in sync, `Serving`
  what consumers of a follower see, `Progress` what the protocol can always bring about, `Produce`
  the leader's own code for one call. `Simulation` joins the two layers: whatever a method of the partition object does,
  under every fault of the file system, is what named steps of the protocol do to that node's log,
  and what a dying process leaves on disk is the log after those steps and a crash.
- **Cluster metadata.** `TopicMeta` and `TopicStore` are the topic configuration and its
  compare-and-swap updates; `Election` is the controller election; `NodeLoad`, `Assignment` and
  `Balance` place the replicas and leaders of a new topic; `Candidate` and `Reconcile` add missing
  replicas later.

Objects that the broker updates in place (`Segment`, `PartitionProcessor`) are classes, and its
loops are loops; a ghost field holds the records that the object stores. File system, etcd and
network faults are parameters or steps. A file is a sequence of bytes; a timeout is a lost reply.

## What the code guarantees only under a condition

The conditions below are proved, in most cases as exact ones: both that they suffice and that they
are needed.

- **Replication needs an in-sync follower.** With none, two concurrent calls are both told success
  at one offset and one message is lost: the leader's commit skips an offset that is already
  written. For every fixed in-sync set, all runs keep their promises if and only if the set is not
  empty (`PromisesIffFollower`).
- **Joining the in-sync set.** A follower whose catch-up has reached an older high watermark can
  miss a record that was committed since (`FinishedCatchUpMayLag`). Take a follower that every
  unfinished call waits for, without an ack from it and with no ack or rollback about it on its way:
  all of this can be looked up. It may be the first follower that is counted: every partition starts
  with the leader alone. The logs agree in every run that follows if and only if the leader's log is a
  prefix of its log and it has at most one record more (`JoinKeepsAgreementIff`); all acknowledgements,
  earlier and later ones, are kept in every run that follows if and only if the leader and the follower
  hold every record that has been acknowledged so far (`JoinKeepsPromisesIff`; a leader that was alone
  may have skipped one). That calls wait for it matters: an unfinished call that does not commits
  without it (`StaleCallBreaksJoin`).
- **From creation on.** Leaving is harmless, even if nobody remains: in all runs whose joins are sound,
  whatever the first in-sync set is, the logs of in-sync followers agree with the leader's
  (`AgreementFromCreation`), each acknowledgement is kept for ever or never, and kept exactly if the
  leader holds the record (`AcknowledgementKeptIff`), which it does whenever a follower was in sync at
  the commit (`NoAcknowledgedMessageLostFromCreation`). A join is sound if it keeps the invariant, and
  no less would do for the invariant (`JoinKeepsIff`).
- **Two meanings of in sync.** The leader waits for the followers that it counts; a follower serves
  reads by its own flag, which it sets itself at the end of a catch-up. A follower that the leader
  counts serves the leader's records and at most one more (`FollowerServesCommitted`). One that it does
  not count can serve, at an offset where the leader has another record, the record of a call that has
  not succeeded (`StrayIsServed`). Where all followers start with the leader's log, all that are in sync
  by their own flag serve committed records in all runs with a fixed in-sync set if and only if the
  leader counts every follower (`AllServeIffAllCounted`).
- **Nothing is stuck for good.** Over level followers a produce call can always succeed
  (`CallCanSucceed`) and one that the leader cannot write can always be taken back
  (`FailedCallCanBeUndone`); a follower that lags can always get level (`CatchUpCanFinish`), a node can
  always become controller (`AnyNodeCanLead`), an undisturbed update of a topic goes through
  (`UndisturbedCallEnds`), and a consumer receives all there is (`ConsumerGetsEverything`). That these
  things happen in time is not claimed: the network and other callers may always interfere.
- **A failed append is not always a clean one.** A failed sync leaves the whole record in the file
  although the call reports an error, and a short write can leave bytes that could not be cut off;
  a segment file that cannot be created leaves the full segment listed twice. The partition is
  usable afterwards exactly when none of this happened; otherwise the node is taken to stop, and
  what it left on disk is accounted for: on a follower a whole record is a push whose ack was lost.
- **Rollback reaches only the active segment.** After an append that opened a new segment file and
  failed to write to it, the last record lies in a closed segment and a rollback is refused, although
  the record is the last one (`FailedRotationRefusesRollback`); the code's own comment takes this to
  be impossible. It is, for an in-sync follower with a rollback on its way: an append past that record
  would need a leader whose log is longer (`FailPushKeeps`, `RollbackIsExact`, `DeliverRollbackTo`).
- **Retention keeps one log exactly when it removes the oldest files and every removal succeeds**
  (`CleanOldMessages`). A file that is not the oldest leaves a gap; a failed removal leaves a
  segment with a closed file.
- **Catch-up ends if and only if the leader still has the next record** (`CatchUpEndsIff`). Below
  the leader's base no number of rounds fails, moves the replica or ends (`CatchUpRounds`).
- **Record size.** The size is computed in 32 bits: a payload that does not leave room for the 20
  fixed bytes makes the append panic or is cut without an error (`StoredUnchangedIff`). This concerns
  the segment's own interface: the TCP server refuses bodies above 64 KiB.
- **Pushes ignore the life cycle.** `TryApplyPush` has no test of a stopped or deleted partition,
  which the two other writers have.
- **A role switch is two assignments.** Role and epoch change together only for readers that take
  the node's lock; between the two assignments two controllers can show one epoch
  (`SameEpochBetweenAssignments`).
- **Node 0.** Ids are not checked, and 0 also stands for "none". A node with id 0 takes an absent
  controller key for its own and becomes controller without an election; all controllers of all
  runs have been elected if and only if no node has that id (`ElectedIffNoNodeZero`). Reconciliation
  never assigns it, forgets other nodes when it finds node 0 to hold more, and assigns nobody where
  node 0 would be the choice (`NoCandidateIff`); all runs of passes over a set of members converge if
  and only if 0 is not in it (`ConvergesIffNoNodeZero`).
- **Leaders are balanced if and only if every alive node is a replica** of every partition of the
  new topic (`LeadersBoundedIff`); the replica counts always are.

## Model

| member | source | states |
|---|---|---|
| Codec.StoredUnchangedIff | server/persistent/aol/segment.go:61-71 | for every payload: the append writes a record, and the same one, if and only if payload plus 20 bytes fits in 32 bits |
| Codec.BufferIsEncoding | server/persistent/aol/segment.go:61-71 | whatever buffer the wrapping size arithmetic builds is the encoding of a well-formed record |
| Codec.OversizedIsCut | server/persistent/aol/segment.go:61-71 | for a payload of any size: exactly when the append panics, and how much of the payload is kept otherwise |
| Codec.RecordLayout | server/persistent/aol/segment.go:63-71 | body size, offset, timestamp and payload lie at bytes 0, 4, 12 and 20 of a record |
| Codec.PutUintIsBigEndian | server/persistent/aol/segment.go:67-69 | each byte of an encoded integer is its base-256 digit, most significant first |
| Codec.ReadRecord | server/persistent/aol/segment.go:152-180 | every record of a file reads back as written, whatever bytes follow |
| Codec.RecoverTornFile | server/persistent/aol/segment.go:188-239 | over any whole records and any torn tail the scan keeps exactly the whole records, ends where they end and rebuilds their index |
| Codec.CrashDuringAppend | server/persistent/aol/segment.go:61-101 | a crash after any number of bytes of an append leaves the old records or those and the new one, and recovery is idempotent |
| SegmentFile.Segment.constructor | server/persistent/aol/segment.go:24-58 | opening a file that holds records up to a torn tail gives a valid segment with exactly those records |
| SegmentFile.Segment.RecoverIndex | server/persistent/aol/segment.go:188-239 | the loop computes the scan over the file and cuts the file where the scan ends |
| SegmentFile.Segment.Append | server/persistent/aol/segment.go:61-101 | for every write fault: what is in the file, what a restart would recover, and that the segment stays consistent exactly when no bytes are left behind |
| SegmentFile.BytesLeftMeans | server/persistent/aol/segment.go:74-96 | a failed sync leaves the whole record in the file, a short write what was written unless it is cut off |
| SegmentFile.Segment.TruncateFrom | server/persistent/aol/segment.go:111-149 | takes back exactly the records from the offset on, or says why not; exact condition for staying consistent |
| SegmentFile.Segment.Read | server/persistent/aol/segment.go:152-180 | the record at the offset, found exactly within the segment's range |
| FileNames.NameOrderIsOffsetOrder | server/persistent/aol/segment.go:25 | for all 64-bit offsets, string order of the zero-padded names is numeric order of the offsets |
| FileNames.NameRoundTrip | server/broker/partition_proccessor.go:125-140 | every 64-bit base offset is read back from its file name |
| FileNames.NameIsDecimal | server/persistent/aol/segment.go:25 | a segment file is named by the twenty decimal digits of its base offset and ".log" |
| FileNames.EndsInLog | server/broker/partition_proccessor.go:127 | the suffix test holds exactly for names that end in ".log" |
| FileNames.SortFindsOrder | server/broker/partition_proccessor.go:125-140 | however a directory is listed, sorting gives its one name order |
| SegmentChain.OwnerIsUnique | server/broker/partition_proccessor.go:230-240 | no offset lies in two segments of a chain |
| SegmentChain.OwnerExists | server/broker/partition_proccessor.go:230-240 | every live offset lies in some segment |
| SegmentChain.ChainJoins | server/broker/partition_proccessor.go:142-165 | a chain of segments determines its log |
| SegmentChain.SortedListingIsChainOrder | server/broker/partition_proccessor.go:114-141 | among any other files, sorting the names of the segment files puts them in chain order and each name parses to its own base |
| SegmentChain.LogFilesCount | server/broker/partition_proccessor.go:125-130 | of a listing exactly the files whose names end in ".log" are kept, each as often as it is listed |
| Partition.OpenSegments | server/broker/partition_proccessor.go:125-150 | reopening any directory that lists the files of a chain, among others not named ".log", gives valid segments with the same parts |
| Partition.PartitionProcessor.constructor | server/broker/partition_proccessor.go:81-168 | whatever log the files recover to is the log of the new partition, whatever else the directory lists; one without ".log" files starts an empty log at the given offset |
| Partition.PartitionProcessor.AppendLocked | server/broker/partition_proccessor.go:191-212 | adds one record to the plain log, in a new segment file that starts with it exactly when the active one is full, or adds nothing; exactly when the partition stays usable, and what a crash would recover, for every fault |
| Partition.PlainAppend | server/broker/partition_proccessor.go:191-212 | an append of ordinary size stores the record as it is exactly when the file system does its part |
| Partition.PartitionProcessor.RotateIfFull | server/broker/partition_proccessor.go:192-202 | a full active segment is closed and a new, empty one starts at the next offset; any other is left alone; if the new file cannot be created the full segment is listed twice and the disk holds what it held |
| Partition.SegmentSizes | server/broker/partition_proccessor.go:192-202 | every closed segment has reached the size limit and no segment passes it by as much as its last record; each method and every restart keeps the sizes so |
| Partition.PartitionProcessor.AppendEntry | server/broker/partition_proccessor.go:468-487 | accepted below the next offset without a change, refused above it, appended at it; the new log, the segment that owns the record, and what a crash would recover, for every outcome |
| Partition.PartitionProcessor.TryApplyPush | server/broker/partition_proccessor.go:574-597 | refused as not in sync exactly by a replica that is not; accepted exactly at the next offset if the append succeeds, in every life cycle state; the segment that owns the record, and what a crash would recover |
| Partition.PartitionProcessor.InvalidateOffset | server/broker/partition_proccessor.go:507-548 | at or past the end nothing is to be done, before the last record it is refused, and the last record is taken back exactly when it lies in the active segment; what a crash would recover, also when the truncation fails half way |
| Partition.FailedRotationRefusesRollback | server/broker/partition_proccessor.go:529-535 | drives any full partition through a failed append to a refused rollback of its last record |
| Partition.PartitionProcessor.TryFinalizeInSync | server/broker/partition_proccessor.go:635-643 | flips to in sync exactly when the log has reached the watermark |
| Partition.PartitionProcessor.FindSegment | server/broker/partition_proccessor.go:230-240 | finds the unique owner of every live offset and nothing for any other |
| Partition.PartitionProcessor.ReadBatch | server/broker/partition_proccessor.go:648-671 | exactly the next records, at most the limit (500 by default), with the high watermark |
| Partition.PartitionProcessor.ReadFromRange | server/broker/partition_proccessor.go:256-284 | the read loop returns the records from the start on and stops only at the end of the range, at the end of the log or at the limit |
| Partition.ReadIsSlice | server/broker/partition_proccessor.go:256-284 | what such a read returns is exactly the slice of the log between start and its limit |
| Partition.PartitionProcessor.CleanOldMessages | server/broker/partition_proccessor.go:378-411 | retention drops a prefix of the log; the rest is one log if and only if the removed files are the oldest and every removal succeeds |
| Partition.KeptMeans | server/broker/partition_proccessor.go:378-411 | a closed segment goes off the list exactly if its file is known to be older than the cutoff and could be removed |
| Partition.GapIsNoChain | server/broker/partition_proccessor.go:378-411 | a segment missing from the middle leaves segments that are no log at all |
| Partition.FilesOfPartition | server/broker/partition_proccessor.go:114-168 | the files of every valid partition recover to its log |
| Partition.Restart | server/broker/partition_proccessor.go:114-168 | restart is the identity on the log, the sizes and the place of the last record, whatever order the directory is listed in and whatever else lies in it |
| Partition.Reopen | server/broker/partition_proccessor.go:114-168 | a process that dies in any state comes back with what its disk recovers to |
| Partition.RecordOf | server/broker/partition_proccessor.go:648-671 | the record that a segment holds at a live offset is the log's record there |
| Pool.RangeConversionsCancel | server/broker/pool.go:119-128 | for all 64-bit start and till the signed and unsigned conversions cancel |
| Pool.ReadMessages | server/broker/pool.go:110-131 | over a partition that may change between the four locked sections: a bounded read returns exactly the records in [start, till) that are there at the last one, an open one those up to the end that the third has seen and a stream from there, also where the last offset underflows |
| Stream.Poll | server/broker/partition_proccessor.go:301-362 | one locked section of the stream loop: it waits exactly at the end, jumps exactly below the base and gets the record at every live offset |
| Stream.StreamIsSeamless | server/broker/partition_proccessor.go:256-362 | in every run with appends, rollbacks and retention in between, history and stream deliver strictly increasing offsets, each message as the log held it, and pass over an offset only if retention had removed it |
| Stream.AnyLogChangeIsAStep | server/broker/partition_proccessor.go:378-548 | every append, rollback and retention of the log is a step that may come between a consumer's sections |
| Stream.ConsumerGetsEverything | server/broker/partition_proccessor.go:256-362 | over a log that stays as it is, a consumer can receive every record from its start on, and then waits at the end |
| CatchUp.CatchUpEndsIff | server/broker/broker.go:723-765 | against an unchanging leader some number of rounds reaches its end, if and only if it has the record that the replica needs next |
| CatchUp.CatchUpRounds | server/broker/broker.go:723-765 | where the replica stands after any number of rounds; below the leader's base it never changes and stays replicating |
| CatchUp.CatchUpRound | server/broker/broker.go:731-758 | one round appends exactly the fetched batch and ends the loop exactly at the leader's watermark |
| CatchUp.CatchUpPartition | server/broker/broker.go:702-765 | against an unchanging leader that has the next record: exactly max(1, ceil((HW - n) / 500)) fetches, every record, then in sync |
| Produce.SelectTargets | server/broker/topic_proccessor.go:228-239 | the record is sent to the reachable replicas except the leader |
| Produce.TargetsAreReplicas | server/broker/topic_proccessor.go:228-239 | membership in the list of targets, both directions |
| Produce.CountQuorum | server/broker/topic_proccessor.go:288-302 | the two counters agree exactly when every replica marked in sync, other than the leader, has acked |
| Produce.FinishProduce | server/broker/topic_proccessor.go:285-317 | refused exactly if some in-sync replica other than the leader has not acked; otherwise success exactly if the leader has or can write the record; rollback requests to all targets exactly when that fails |
| ReplicationInvariant.StepKeeps | server/broker/topic_proccessor.go:177-317 | every step of every node and of the network keeps the invariant |
| ReplicationInvariant.CommittingIsAlone | server/broker/topic_proccessor.go:285-317 | a call that may commit has all in-sync followers at its own record: no other call is acked and no rollback is under way |
| ReplicationInvariant.DeliverPushKeeps | server/broker/broker.go:456-478 | accepting a pushed record keeps the invariant: the follower was level with the leader |
| ReplicationInvariant.CommitFailsKeeps | server/broker/topic_proccessor.go:307-315 | a failed leader commit keeps the invariant, with its rollbacks in flight |
| ReplicationInvariant.DeliverInvalidationKeeps | server/broker/broker.go:494-517 | a rollback, however late, keeps the invariant |
| ReplicationInvariant.FailPushKeeps | server/broker/partition_proccessor.go:191-212 | an append that opens a new file and fails keeps the invariant: it never happens past a record that waits for a rollback |
| ReplicationInvariant.JoinKeepsIff | server/cluster/etcd.go:836-847 | exactly when the invariant survives a join |
| ReplicationInvariant.QuietFollowerMayJoin | server/cluster/etcd.go:836-847 | for a follower that calls wait for and nothing in flight is about, this is so exactly when its log agrees with the leader's |
| ReplicationJoin.JoinKeepsAgreementIff | server/cluster/etcd.go:836-847 | counting such a follower in sync, as the first one or beside others, keeps the logs in agreement in every run that follows, if and only if its log agrees at that moment |
| ReplicationJoin.JoinKeepsPromisesIff | server/cluster/etcd.go:836-847 | it keeps every acknowledgement, earlier or later, in every run that follows, if and only if the leader and the follower hold every record acknowledged so far |
| ReplicationJoin.JoinedStepKeeps | server/broker/topic_proccessor.go:177-317 | every step keeps the weaker invariant of a follower that was counted beside others with all acknowledged records, although its log need not agree |
| ReplicationJoin.SoleStepKeeps | server/broker/topic_proccessor.go:177-317 | every step keeps such an invariant of a follower that was counted as the first one |
| ReplicationJoin.StaleCallBreaksJoin | server/broker/topic_proccessor.go:200-206 | a run in which an up-to-date follower joins while a call that does not wait for it is unfinished, and an acknowledged record is missing on it |
| ReplicationSafety.AgreementAlways | server/broker/topic_proccessor.go:177-317 | in every state of every run the leader's log is a prefix of each in-sync log, which is at most one record longer |
| ReplicationSafety.NoAcknowledgedMessageLost | server/broker/topic_proccessor.go:285-317 | an acknowledged record stays where the call said, on the leader and on every in-sync follower, for ever, and no two calls get one offset |
| ReplicationSafety.CommitAlwaysWrites | server/broker/partition_proccessor.go:475-487 | the leader's commit never meets an offset that is already written |
| ReplicationSafety.RollbackIsExact | server/broker/topic_proccessor.go:307-315 | while a rollback is on its way to an in-sync follower, that follower has exactly the failed record more than the leader, in its active segment, and delivering it removes that record only |
| ReplicationSafety.LoneLeaderLosesWrite | server/broker/partition_proccessor.go:475-477 | without in-sync followers two calls succeed at one offset |
| ReplicationSafety.PromisesIffFollower | server/broker/topic_proccessor.go:285-317 | for every fixed in-sync set: all runs keep their acknowledgements if and only if it is not empty |
| ReplicationSafety.CatchUpIsSafe | server/broker/broker.go:723-765 | a replicating follower that is a prefix of the leader stays one, and when it flips it holds every record below the watermark it saw |
| ReplicationSafety.FinishedCatchUpMayLag | server/broker/partition_proccessor.go:635-643 | a run in which a follower that has just caught up joins the in-sync set without a committed record |
| Progress.DeliverPushMeans | server/broker/broker.go:456-478 | a push is acked, and its record put at the end of the follower's log, exactly if the follower is in sync and the record is for its next offset |
| Progress.DeliverInvalidationMeans | server/broker/broker.go:494-517 | a rollback takes the last record of the follower and no other, exactly if it can be reached |
| Progress.CommitMeans | server/broker/topic_proccessor.go:307-317 | what each outcome of the leader's append does to the call, to the leader's log and to the rollbacks |
| Progress.ApplyFetchedMeans | server/broker/broker.go:744-750 | catch-up skips a record below the follower's end, appends the one at it and ends at a gap |
| Progress.AnyMemberMayLeave | server/cluster/topic_metadata.go:165-177 | a follower may leave the in-sync set at any time |
| Progress.CallCanSucceed | server/broker/topic_proccessor.go:177-317 | whatever else is under way, a new call over level followers can put its record at the leader's next offset on the leader and on all of them |
| Progress.FailedCallCanBeUndone | server/broker/topic_proccessor.go:307-315 | a call that the leader cannot write can leave the whole state as it was, but that the call has failed |
| Progress.CatchUpCanFinish | server/broker/broker.go:723-765 | a follower whose log is a prefix of the leader's can get level with it and in sync, by any number of batches, and may then be counted |
| ReplicationOrigin.OriginKeeps | server/broker/topic_proccessor.go:177-317 | every step keeps the invariant from creation on, through an empty in-sync set and the first join |
| ReplicationOrigin.AgreementFromCreation | server/cluster/control_api.go:189-194 | in every run with sound joins, from the leader alone or any in-sync set, the leader's log is a prefix of each in-sync log, which is at most one record longer |
| ReplicationOrigin.AcknowledgementKeptIff | server/broker/topic_proccessor.go:285-317 | an acknowledged record is on the leader and on all in-sync followers in every later state, or in none; exactly if the leader holds it when the call has succeeded |
| ReplicationOrigin.NoAcknowledgedMessageLostFromCreation | server/broker/topic_proccessor.go:285-317 | a record committed while somebody was in sync is never lost, whatever joins and leaves follow, and no other record held by the leader has its offset |
| Serving.FollowerServesCommitted | server/broker/topic_proccessor.go:285-297 | a follower that the leader counts in sync serves the leader's records and at most one more, which is the last |
| Serving.StrayIsServed | server/broker/broker.go:366-372 | any follower that the leader does not count can be brought to serve, in sync by its own flag, a record of a call that has not succeeded, where the leader has another one |
| Serving.AllServeIffAllCounted | server/broker/broker.go:366-372 | all followers that are in sync by their own flag serve committed records and at most one more, in all runs with a fixed in-sync set that start with equal logs, if and only if the leader counts every follower |
| Simulation.DeliverPushTo | server/broker/partition_proccessor.go:574-597 | TryApplyPush under every fault is a delivered, failed or lost push, or one whose ack was lost; the object, and the disk, then hold the protocol's log |
| Simulation.DeliverRollbackTo | server/broker/partition_proccessor.go:507-548 | InvalidateOffset under every fault is a delivered or lost rollback; an in-sync follower that is running is never refused one and then holds the leader's log |
| Simulation.ServeFetch | server/broker/partition_proccessor.go:648-671 | what the leader's partition serves is the response that the protocol's follower gets |
| Simulation.ApplyFetchedTo | server/broker/partition_proccessor.go:468-487 | AppendEntry in catch-up under every fault is an applied record, a failed one, or the end of the round, or an applied record and then its end |
| Simulation.FinishRoundOf | server/broker/partition_proccessor.go:635-643 | TryFinalizeInSync is the protocol's end of a round |
| Simulation.CrashAndReopen | server/broker/partition_proccessor.go:114-168 | whatever was left on disk, a restart is the protocol's crash |
| Simulation.RestartRunning | server/broker/partition_proccessor.go:114-168 | a partition that was running loses its sync state in a restart and nothing else |
| Simulation.RestartMember | server/cluster/etcd.go:836-839 | an in-sync member that crashes in any state, is reopened and forced in sync without catch-up keeps the invariant, from creation on, and agrees with the leader |
| Simulation.FinishCall | server/broker/topic_proccessor.go:285-317 | the end of a produce call on the leader's partition is the protocol's decision and commit, with its rollbacks; exactly what the disk holds |
| Simulation.ReopenLeader | server/broker/partition_proccessor.go:114-168 | reopening what the leader left on disk is the protocol's crash of the leader: no call is left unfinished, and the partition holds the leader's log if the disk did |
| Simulation.LeadsKeeps | server/broker/topic_proccessor.go:177-317 | the simulating steps keep the invariant, also with the calls given up that had finished before the first join |
| Simulation.InvUpToHolds | server/broker/topic_proccessor.go:177-317 | every state that a run reaches from the creation of the partition, with somebody in sync, meets the premise of the lemmas above |
| TopicMeta.RemoveInt64 | server/cluster/topic_metadata.go:179-187 | the in-place filter leaves exactly the other ids, in order, at the front |
| TopicMeta.WithoutDistinct | server/cluster/topic_metadata.go:179-187 | filtering keeps lists duplicate-free |
| TopicMeta.WithoutSplits | server/cluster/topic_metadata.go:179-187 | filtering works piece by piece, so it keeps order and number of the other ids |
| TopicMeta.MutateInPlace | server/cluster/topic_metadata.go:126-177 | each mutator's loop, in place, does what it should to the first partition with the id and leaves all others alone, or fails and changes nothing |
| TopicMeta.MutateMeans | server/cluster/topic_metadata.go:126-177 | an assignment adds the node to the replicas, a mark adds a replica to the in-sync set and fails for others, a removal takes exactly the node out of both; exactly when each is an error |
| TopicMeta.MutateSound | server/cluster/topic_metadata.go:126-177 | every mutator keeps replicas duplicate-free and the in-sync set inside them |
| TopicMeta.OnlyAddAssigns | server/cluster/topic_metadata.go:126-177 | only an assignment makes a node a replica |
| TopicMeta.RemoveTakesOut | server/cluster/topic_metadata.go:165-177 | a removed node is in neither set |
| TopicStore.StepKeeps | server/cluster/topic_metadata.go:64-121 | every interleaving of reads, writes, lost replies and aborts keeps the store's invariant |
| TopicStore.UpdatesSerialise | server/cluster/topic_metadata.go:64-121 | the stored topic is the fold of the committed mutations in commit order; success means committed once, failure not at all, a lost reply at most once |
| TopicStore.NoLostUpdate | server/cluster/topic_metadata.go:93-120 | a successful write applies its mutation to the topic as it is then, not to the copy that was read |
| TopicStore.WriteSucceedsIff | server/cluster/topic_metadata.go:93-120 | a write succeeds if and only if no mutation has been committed since its caller read the topic; a fifth failure ends the call |
| TopicStore.UndisturbedCallEnds | server/cluster/topic_metadata.go:93-120 | a call that nobody disturbs goes through at its first attempt, unless there is no topic or the mutator refuses |
| TopicStore.CallCanAbort | server/cluster/topic_metadata.go:93-120 | until it has written, a call can end without a trace |
| TopicStore.ReplicaSetsStaySound | server/cluster/topic_metadata.go:123-177 | in every state of every run, replicas are duplicate-free and the in-sync set is inside them |
| TopicStore.RemovedStaysOut | server/cluster/topic_metadata.go:142-177 | a removed node does not come back into the in-sync set without a new assignment, however stale the callers |
| Election.StepKeeps | server/cluster/etcd.go:340-501 | every step of loops, watchers and restarts keeps the election's invariant |
| Election.OneControllerPerEpoch | server/cluster/etcd.go:351-470 | a settled controller's epoch is one that it wrote itself (or 0 on node 0), and no two of them ever have the same epoch, in every state of every run |
| Election.EpochsGrowByOne | server/cluster/etcd.go:440-470 | each takeover writes the epoch after the one in etcd and forgets no earlier winner |
| Election.AnyNodeCanLead | server/cluster/etcd.go:340-470 | from every state a new loop of any node that is not in the middle of a switch can make it the settled controller, with the key's own epoch if the key names it and the next one otherwise |
| Election.TakeOverSucceedsIff | server/cluster/etcd.go:433-470 | a takeover succeeds if and only if nobody has taken over since the loop read the key and the node's own key is unchanged |
| Election.StaysDown | server/cluster/etcd.go:266-284 | after a lost session, a restart or news of another controller a node is no controller until a loop of its own has been elected |
| Election.AnyNodeCanFail | server/cluster/etcd.go:266-284 | a lost session takes only the role, and a restart all that the node held in memory; the key stays |
| Election.FollowsWithEpoch | server/cluster/node.go:195-204 | a node that follows another controller ends up with that controller's epoch |
| Election.ElectedIffNoNodeZero | server/cluster/etcd.go:362-381 | all controllers of all runs have been elected if and only if no node has id 0 |
| Election.SameEpochBetweenAssignments | server/cluster/node.go:183-204 | a run in which two controllers show one epoch between the two assignments of a switch |
| NodeLoad.ComputeNodeLoadFrom | server/cluster/controller.go:323-335 | the loops count, for every node, its replicas and the partitions that it leads |
| NodeLoad.LoadIsPartitions | server/cluster/controller.go:323-335 | the counts are the sizes of the sets of partitions that a node takes part in, and that it leads |
| NodeLoad.SortSlice | server/cluster/control_api.go:165-171 | the list of alive nodes in order by load and id, nothing lost |
| NodeLoad.SortMeans | server/cluster/control_api.go:165-171 | the sorted list has the same nodes, by count, and by the smaller id between equals |
| NodeLoad.OnlyOneOrder | server/cluster/control_api.go:165-171 | (load, id) is a total order: two ordered lists of the same nodes are the same list |
| Assignment.PickLeader | server/cluster/control_api.go:174-180 | the loop finds the chosen node with the least leader count, and the smallest id among equals |
| Assignment.ChosenIsLeast | server/cluster/control_api.go:165-172 | the chosen nodes are rf different alive ones and come before every other |
| Assignment.AssignPartitions | server/cluster/control_api.go:159-195 | the loop, re-sorting its list in place, computes the plan whatever order it starts from |
| Assignment.CreateTopic | server/cluster/control_api.go:101-214 | created exactly when every test passes; which error otherwise; the partitions are sound and follow the plan |
| Assignment.PlanHasEveryPartition | server/cluster/control_api.go:189-194 | partition i has rf different alive replicas, its leader among them, and only the leader in sync |
| Assignment.PlanIsGreedy | server/cluster/control_api.go:161-187 | each partition goes to the least loaded nodes, and the one that leads least leads it, by the counts after the partitions before it |
| Assignment.PlanIgnoresOrder | server/cluster/control_api.go:144-195 | the plan does not depend on the order in which the node map is gone through |
| Assignment.CountersAreRecomputed | server/cluster/control_api.go:159-195 | the running counters equal counting all topics again with the new one among them |
| Assignment.ReplicasStayBalanced | server/cluster/control_api.go:161-195 | for any number of partitions and nodes the spread of replica counts stays within max(initial spread, 1) |
| Assignment.LeadersStayBalanced | server/cluster/control_api.go:174-187 | with every alive node a replica the leader counts obey the same bound |
| Balance.TotalsGrow | server/cluster/control_api.go:184-187 | totals grow by rf times the partitions, and by the partitions |
| Balance.SpreadSettles | server/cluster/control_api.go:161-195 | with rf below the number of nodes, any uneven cluster is within a spread of 1 after a computable number of partitions and stays so |
| Balance.FullReplicationKeepsSpread | server/cluster/control_api.go:161-195 | with every node a replica the spread never changes |
| Balance.LeadersBoundedIff | server/cluster/control_api.go:174-187 | the leader bound holds for all counters if and only if every alive node is a replica |
| Candidate.PickReplicaCandidate | server/cluster/controller.go:355-420 | the candidate is eligible and holds most of the partition's data, or is the least loaded when nobody holds any; with node 0 among the holders, what is found after the nodes that it made the controller forget |
| Candidate.PickedMeans | server/cluster/controller.go:355-420 | without a node 0: a node that reports most of this partition of this topic, or the least loaded one when nobody reports any |
| Candidate.NoCandidateIff | server/cluster/controller.go:379-419 | the controller can find nobody exactly when nobody is eligible, or node 0 is the least loaded and nobody holds data or node 0 holds more than all others |
| Reconcile.ReconcileReplication | server/cluster/controller.go:270-302 | a pass is its visits in order, each adding the candidate for what the store then holds |
| Reconcile.PassRepairs | server/cluster/controller.go:270-302 | a pass adds exactly one eligible node to each partition that lacks one, or none where node 0 is eligible, and touches no other |
| Reconcile.PassesOnlyRepair | server/cluster/controller.go:270-302 | along any passes a partition only gains replicas, never one twice and never above the desired factor |
| Reconcile.RepairConverges | server/cluster/controller.go:270-302 | without a member 0, the exact number of replicas after n passes: one more each time, up to the desired factor and to the nodes that there are |
| Reconcile.ConvergesIffNoNodeZero | server/cluster/controller.go:289-292 | all runs of passes over a set of members converge if and only if 0 is not in it |
| Reconcile.NodeZeroIsMissed | server/cluster/controller.go:289-292 | with a member whose id is 0, a partition that needs every node is never repaired |

## Left out

- SegmentFile.Segment.Append: is called with the segment's next offset, as every caller does; the code does not test it.
- Partition.PartitionProcessor.AppendLocked: the offset counter is not followed past the last 64-bit offset, and likewise in the methods that append.
- Partition.PartitionProcessor.Restart: a crash of the file system itself (lost directory entries, damaged bytes before the tail) is not modelled; a torn last write is.
- FileNames.ParseName: accepts twenty digits only; other names that the code's number parser would take for an offset do not occur among the files that it writes.
- Partition.PartitionProcessor.ReadOne: errors of the operating system while reading are not modelled.
- CatchUp.CatchUpPartition: RPC errors and cancellation end the loop early and are not modelled; the responder is taken to host the partition (one that does not answers watermark 0, and the replica would count as caught up).
- ReplicationSafety.CatchUpIsSafe: catch-up fetches from the leader's log. When the leader of a partition is unknown at startup, the code asks the controller node instead (server/broker/broker.go:668-671), which may be a follower with one record that is not committed; this is not modelled.
- Replication.Apply: a follower has one fetch at a time. Recovery at startup and the watch of the topic can each start a catch-up loop on one partition, and two at once are not modelled.
- Replication.Apply: logs are histories with a common base, so that retention is not a step of the protocol; it is part of Partition and Stream.
- ReplicationSafety.NoAcknowledgedMessageLost: assumes fail-stop after an I/O error that leaves bytes behind; a leader that restarts with the record of a commit that failed is outside the protocol (Simulation.FinishCall says exactly when its disk holds one).
- Assignment.CreateTopic: the three answers of etcd are parameters; TopicStore says what its compare-and-swap write does.
- Reconcile.ReconcileReplication: a failed etcd write leaves the partition for the next pass; the passes here are those without such errors.
- Failover of partition leaders: the code reassigns no leader, so nothing says that a partition's leader is among its replicas after a node is lost, or that produce calls make progress.
- Rebalancing after the loss of a node (server/cluster/controller.go:168-244): a removal and an assignment of TopicMeta with the candidate of Reconcile.
- Topic and partition deletion, life cycles and shutdown, and the removal of a topic's key: resource handling.
- Transport (gRPC, TCP, HTTP, protobuf), the command line client, the web UI, and the mapping to DTOs.
- Clocks, tickers, timeouts, backoff and jitter, except as steps that may happen at any time.
- The cluster view cache, membership watches, peer connections, the manifest in MongoDB, and the event bus.
- PushQueue (server/broker/partition_proccessor.go:219-228): nothing calls it.
- Goroutines inside one node: each method of the partition is one critical section of its lock; the step systems interleave these sections.

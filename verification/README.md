# The replicated key-value store and the mail and file services above it

A cluster of key-value nodes stores cells addressed by a row and a column. Each partition has one primary, chosen by a
master that runs health rounds; the primary locks a row, calls every peer, logs, applies and acknowledges. Each node
keeps a write-ahead log and a checkpoint file. A mail server (SMTP) and a web server keep mailboxes and files in the
store, with lists held as comma-joined strings that are changed by read, compute, conditional put and retry.

This project models that system in Dafny and proves what it promises. `dafny verify dfyconfig.toml` checks all of it.

| files | what they model |
|---|---|
| `Tablets` | the in-memory tablet, the two operations, replay of an operation sequence |
| `Decimals`, `Format`, `LogDamage`, `Disk`, `FileLoops` | the bytes of the log and of the checkpoint file: printers, readers, what a damaged record costs |
| `Durable` | one node between memory, log and checkpoint, step by step |
| `Replication`, `Guarantees` | a partition as a state machine over interleaved steps, its invariant, what every run guarantees |
| `KvNode`, `Writes` | the node process as a class, with the loops that write and read its files; its write calls as runs of the state machine |
| `KvMaster` | the master process, health rounds, what the nodes believe about the primary |
| `KvClient` | the client's five attempts at a conditional put |
| `Lists`, `MailStore`, `MailDeletion` | comma-joined lists, the string edits that remove an id, concurrent append and delete loops, where a deleted id ends up |
| `Storage`, `StorageMoves`, `StorageFolders`, `StorageUpload`, `StorageHandler` | the file index, download, movefile, movefolder, upload |
| `SmtpSession`, `SmtpMail`, `SmtpWorker`, `SmtpBytes` | the SMTP command machine (sections 3.3, 4.1.1.4 and 4.1.4 of RFC 5321), its commands as text, the reading loop, from bytes to mail |
| `Json` | the flat JSON reader of the web server (sections 2, 4 and 7 of RFC 8259) |

A `char` stands for one byte and a `string` for a byte string. A peer call is delivered or fails; the outcome of a
health check, the moment of a crash, the order of steps, the cutting of a stream into reads and the staleness of a read
are arbitrary.

## Where the code departs from its intent

The theorems are about the code where it does what it is for. Each departure below is kept as written beside the
intended form, with the exact condition or a failing run.

- `src/kv.cc:215` skips one byte too many after a DELETE record. `Disk.LogReadsBackIff` says when the log still reads
  back; `Disk.DeleteThenPutLosesThePut` is the failure.
- `src/kv.cc:448-449` lets a checkpoint run between logging and applying. `Durable.CheckpointIffNothingPending`;
  `Durable.CheckpointLosesALoggedPut`. Runs of `Replication` take a checkpoint only when nothing is pending.
- `src/kvmaster.cc:72-79` appoints the first node that is alive, which may have missed a delivery whose failure the
  primary only reports (`src/kv.cc:369-372`). `Guarantees.AppointmentLosesIff` says for whichever node is appointed
  exactly when acknowledged operations are lost; `Guarantees.StaleSuccessorLosesAcknowledgedPut` is the failure.
- `src/kv.cc:143-144` synchronises by puts only. `Durable.SyncIffNothingDeleted`.
- `src/kv.cc:135-147` puts what a peer streams into memory and logs none of it, so a node that ends before its first
  checkpoint may lose it. `Durable.UnsavedRecoverableIff`, `Durable.RejoinRecoverableIff`.
- `src/kv.cc:622-630` keeps the view of a node that is disabled and enabled again. `KvMaster.ReenabledIffOneBeliever`
  and `KvMaster.ReenabledIffOneForward` say exactly when that breaks something; `KvMaster.DisableAppointEnable` and
  `KvMaster.EnableTakesTwoForwards` are the failures.
- `src/kv/client.cc:154-174` retries a conditional put whose reply was lost. `KvClient.CPutTruthfulIff` for one call,
  `MailStore.NoLostOrDoubledAppend` for a list over any run; `MailStore.LostReplyDoublesAppend` is the failure.
- `src/fe_servers/request_handler.cc:607-630` bins an id even when its removal has failed.
  `MailStore.StepConservesIff`.
- `src/fe_servers/request_handler.cc:917` multiplies an offset that is already in bytes, and line 910 looks for a whole
  entry that names no key, so an earlier upload is not noticed. `StorageUpload.UploadThenDownload` has the exact
  condition.
- `src/fe_servers/request_handler.cc:777-834` does not check where a moved folder's files land.
  `StorageFolders.MoveFolderKeepsContentIff`; `StorageFolders.MoveFolderOntoItselfLosesTheFile` is the simplest failure.
- `src/fe_servers/request_handler.cc:868-894` moves the chunks before the index is written.
  `StorageMoves.RefusedMoveStrandsIff`.
- `src/webmail/webmail.cc:209-212` answers an over-long line for ever. `SmtpWorker.SpinsIffLongLine`.
- `src/webmail/webmail.cc:440-443` leaves the inner loop at QUIT in debug mode only. `SmtpWorker.UpToQuit`.

## Model

| member | source | states |
|---|---|---|
| `Tablets.ApplyCell` | src/kv.cc:308-340 | an operation changes exactly the cell it names, to its effect |
| `Tablets.ReplayCell` | src/kv.cc:195-239 | after a replay each cell is the effect of the last operation on it, or what it was |
| `Tablets.ReplayIdempotent` | src/kv.cc:195-239 | replaying a log twice equals replaying it once, rows included, for every log and tablet |
| `Tablets.ReplayByRows` | src/kv.cc:195-239 | logs with equal restrictions to every row rebuild equal tablets |
| `Tablets.GetIsCell` | src/kv.cc:458-481 | a get answers the value of the cell that is there, and not found where there is none |
| `Tablets.ReplayedGet` | src/kv.cc:195-239 | after a replay a get answers what the last operation on the cell put there, not found if that was a delete |
| `Tablets.SameCellsSameReplies` | src/kv.cc:468-474 | tablets that differ only in empty rows answer every get alike, code and value |
| `Tablets.SameCellsSameChecks` | src/kv.cc:504-518 | a conditional put cannot tell an empty row from a missing one |
| `Decimals.DecimalReadsBack` | src/kv.cc:288 | a printed size reads back as itself |
| `Decimals.SizeOfDecimal` | src/kv.cc:200-206 | reading a printed size gives it back exactly below 2^31 and raises an exception from there on |
| `Format.RoundTrip` | src/kv.cc:186-241 | printed records of arbitrary bytes read back as the same sequence when sizes fit and no skip damages one |
| `LogDamage.ReadsBackIffClean` | src/kv.cc:186-241 | the records read back if and only if sizes fit and no record after which the reader skips precedes another |
| `LogDamage.DamagedNeverReadsBack` | src/kv.cc:215 | a record whose first byte has been skipped never reads back with those after it, whatever they contain |
| `Disk.LogReadsBackIff` | src/kv.cc:186-241 | the log reader recovers exactly the logged operations if and only if sizes are below 2^31 and, as written, no DELETE precedes another record |
| `Disk.DeleteThenPutLosesThePut` | src/kv.cc:214-215 | as written, a DELETE followed by a PUT of plain lines replays as the DELETE alone |
| `Disk.PrintLogSnoc` | src/kv.cc:285-306 | appending a record to the file appends its operation to the log |
| `Disk.TabletRoundTrip` | src/kv.cc:57-125 | loading a saved tablet gives it back without its empty rows, for every order of rows and columns |
| `Disk.TabletRoundTripReplies` | src/kv.cc:458-481 | after save and load a get answers with the cell that was saved, and not found where there was none |
| `Durable.LogOpRecoverable` | src/kv.cc:447-448 | logging keeps: recovery gives memory plus what is logged and not applied |
| `Durable.ApplyPendingRecoverable` | src/kv.cc:449 | so does applying |
| `Durable.SaveDbRecoverable` | src/kv.cc:93-125 | so does writing the checkpoint, even if the crash comes before the log is truncated |
| `Durable.TruncateLogRecoverable` | src/kv.cc:127-130 | so does truncating the log, whatever was on disk before the checkpoint |
| `Durable.CheckpointIffNothingPending` | src/kv.cc:93-133 | a checkpoint keeps recovery if and only if every operation logged but not applied rewrites what memory holds |
| `Durable.CheckpointLosesALoggedPut` | src/kv.cc:448-449 | log, checkpoint, apply, crash: memory had the value, the files do not |
| `Durable.LogOpTraced` | src/kv.cc:447-448 | logging keeps: memory with what is pending is what the node started with and then every record it has logged since |
| `Durable.ApplyPendingTraced` | src/kv.cc:449 | so does applying |
| `Durable.UnsavedRecoverableIff` | src/kv.cc:135-147 | a node that has rejoined and not yet checkpointed recovers what it holds if and only if the cells it got from its peer are in its files or written over since |
| `Durable.RejoinRecoverableIff` | src/kv.cc:658-690 | right after it has rejoined, if and only if its files already have every cell of the peer |
| `Durable.SyncIffNothingDeleted` | src/kv.cc:135-147 | after a sync a node has the peer's cells if and only if the peer has every cell the node had |
| `Durable.RecoverFromBytes` | src/kv.cc:658-664 | start-up on the bytes of the two files gives the replay of the log over the checkpoint |
| `Replication.BeginKeeps` | src/kv.cc:443-444 | locking a row for a put or delete keeps the invariant |
| `Replication.BeginCPutKeeps` | src/kv.cc:501-518 | so does passing the check of a conditional put, which may create an empty row |
| `Replication.LogKeeps` | src/kv.cc:565-568 | so does a log step, at a peer or at the primary |
| `Replication.PeerApplyKeeps` | src/kv.cc:569-571 | so does an apply at a peer, also of a call whose primary has crashed |
| `Replication.PeerFailKeeps` | src/kv.cc:365-373 | so does a failed call, which only takes the peer out of the current nodes |
| `Replication.CommitKeeps` | src/kv.cc:448-451 | so does the primary's apply and acknowledgement |
| `Replication.CheckpointKeeps` | src/kv.cc:93-133 | so does either half of a checkpoint that finds nothing pending |
| `Replication.CrashKeeps` | src/kv.cc:658-697 | so does a crash of any node at any step |
| `Replication.LateLogKeeps` | src/kv.cc:565-568 | so does a call of a dead primary that arrives before the next appointment |
| `Replication.AppointKeeps` | src/kvmaster.cc:67-94 | so does the appointment of any node that is alive, which starts a new line of primaries if it does not hold what the last one made |
| `Replication.RejoinKeeps` | src/kv.cc:658-690 | so does a restart from the files and a peer, with writes under way or not |
| `Replication.StartAloneKeeps` | src/kv.cc:658-684 | so does a restart when no peer answers |
| `Replication.NextInv` | src/kv.cc:426-586 | every step keeps the invariant |
| `Replication.RunInv` | src/kv.cc:426-586 | every state of every run satisfies it |
| `Guarantees.CurrentRow` | src/kv.cc:442-452 | with faults of any kind, a current node holds each row committed, or as the operation in flight leaves it |
| `Guarantees.ReplicaAgreement` | src/kv.cc:355-406 | in fault-free runs, under any interleaving, every node holds the committed row where the lock is free, and the row before or after the operation where it is not |
| `Guarantees.FreshReads` | src/kv.cc:458-481 | in fault-free runs a get at any node answers OK with the committed value of the cell or what the operation in flight puts there, or not found where that leaves none |
| `Guarantees.AckedGrows` | src/kv.cc:449-451 | what has been acknowledged stays acknowledged, in order |
| `Guarantees.NoAcknowledgedWriteLost` | src/kvmaster.cc:63-96 | through any later crashes, failed calls, restarts and appointments of nodes that hold what the line of primaries has made, no current node holds a value older than an acknowledged operation |
| `Guarantees.WholeLine` | src/kvmaster.cc:63-96 | while no appointment breaks the line it has acknowledged all that was ever acknowledged |
| `Guarantees.AppointmentKeepsLineIff` | src/kvmaster.cc:67-80 | whichever node that is alive is appointed, it holds what the line has made if and only if its last record on every cell is up to date; otherwise what it holds replaces it |
| `Guarantees.AppointmentLosesIff` | src/kvmaster.cc:67-80 | an appointment loses an acknowledged operation if and only if on the cell of one the node's last record is not up to date |
| `Guarantees.SurvivorsDifferOnlyInFlight` | src/kv.cc:442-452 | when the primary crashes at any step, the current survivors hold the committed value of every cell that no operation in flight touches |
| `Guarantees.StaleSuccessorLosesAcknowledgedPut` | src/kvmaster.cc:72-79 | a run in which the one survivor, past a failed call, is appointed and answers that an acknowledged cell is not found |
| `Guarantees.RecoveryFromFiles` | src/kv.cc:658-664 | at every moment of every run the bytes of a node's files rebuild its memory plus what it had logged and not applied; before the first checkpoint after a rejoin if and only if the peer's cells are in the files or written over |
| `Guarantees.WholePartitionRestart` | src/kv.cc:658-664 | after a fault-free run with no write under way every node recovers the committed tablet |
| `Guarantees.LogAgreement` | src/kv.cc:444-449 | in fault-free runs each node's log on a row with a free lock is exactly the acknowledged operations on it |
| `Guarantees.ReplicasReplayAlike` | src/kv.cc:186-241 | so differently interleaved logs, not yet truncated, replay to the same committed tablet |
| `FileLoops.AllWritten` | src/kv.cc:102-125 | when the save loops end, the records written are an enumeration of the tablet |
| `FileLoops.ReadRecord` | src/kv.cc:196-239 | one round of a reading loop takes one record off the front of what the reader still has to read |
| `KvNode.Resolve` | src/kv.cc:166-180 | a node files an address as itself, as that peer, or as unknown, each exactly when it is |
| `KvNode.KVStore.ApplyPut` | src/kv.cc:308-314 | puts the cell and counts its bytes |
| `KvNode.KVStore.ApplyDelete` | src/kv.cc:328-340 | removes the cell, keeps the row, and says whether the cell was there |
| `KvNode.KVStore.LogPut` | src/kv.cc:285-306 | extends the file by the text of the record and returns the bytes written |
| `KvNode.KVStore.LogDelete` | src/kv.cc:316-326 | the same for a delete |
| `KvNode.PutText` | src/kv.cc:285-296 | the bytes of a PUT record |
| `KvNode.DeleteText` | src/kv.cc:316-326 | the bytes of a DELETE record |
| `KvNode.KVStore.PPut` | src/kv.cc:561-572 | a serving peer logs and applies; a disabled one refuses and is unchanged |
| `KvNode.KVStore.PDelete` | src/kv.cc:575-586 | the same for a delete |
| `KvNode.KVStore.Get` | src/kv.cc:458-481 | a serving node answers the value of the cell that is there and not found where there is none, a disabled one that it is unavailable |
| `KvNode.KVStore.GetPeerIdx` | src/kv.cc:158-164 | the first peer with that address, or -1 |
| `KvNode.KVStore.NextView` | src/kv.cc:166-180 | a node with no view takes the address the master names for itself exactly if it is its own, for the peer that has it, and for unknown exactly if no peer has; a view it has is kept |
| `KvNode.KVStore.UpdatePrimaryIdx` | src/kv.cc:166-180 | the new view is the one `Resolve` gives |
| `KvNode.KVStore.EnsurePartitionJoined` | src/kv.cc:247-269 | asks the master only when the primary is unknown, raises when it cannot be reached, and answers whether the primary is known afterwards |
| `KvNode.KVStore.PrimaryUpdate` | src/kv.cc:596-601 | a serving node takes the new view; a disabled one refuses it |
| `KvNode.KVStore.AdminShutdown` | src/kv.cc:622-625 | the node stops serving and keeps everything else |
| `KvNode.KVStore.AdminStartup` | src/kv.cc:627-630 | the node serves again and keeps everything else, its view of the primary included |
| `KvNode.KVStore.Multicast` | src/kv.cc:355-374 | exactly the serving peers whose call gets through have logged and applied the operation |
| `KvNode.KVStore.Put` | src/kv.cc:426-456 | every outcome and every effect, by view: unavailable, invalid, raised, forwarded with nothing changed, or applied here and at the peers reached |
| `KvNode.KVStore.CPut` | src/kv.cc:483-531 | the same with the check; a refused one changes no node |
| `KvNode.KVStore.Delete` | src/kv.cc:533-558 | the same for a delete, whose row and column are not checked |
| `KvNode.KVStore.SaveTablet` | src/kv.cc:93-133 | for every order of rows and columns the file lists the tablet's cells and the log is empty |
| `KvNode.KVStore.LoadTablet` | src/kv.cc:57-91 | the loop builds the tablet that the file's bytes denote, or ends the process exactly when they denote none |
| `KvNode.KVStore.ApplyLog` | src/kv.cc:186-241 | the loop, extra skip included, replays the operations that the file's bytes denote and counts them |
| `KvNode.KVStore.Init` | src/kv.cc:658-687 | start-up recovers what the bytes of the two files denote and puts what a peer streams; where the log reads back it is the restart of the model |
| `KvNode.KVStore.SyncTabletFromPeer` | src/kv.cc:135-147 | the streamed cells are put over the local ones |
| `Writes.WriteIsARun` | src/kv.cc:442-452 | from the locked row on, the calls of one write are a run of the partition, for every pattern of failed calls |
| `Writes.WholeWrite` | src/kv.cc:442-452 | with its first step too, from invariant to invariant, ending acknowledged |
| `Writes.LateDelivery` | src/kv.cc:565-571 | a call that arrives after its primary has crashed does at the peer what it would have done before |
| `Writes.ClientPut` | src/kv.cc:426-456 | the processes mirror the state machine before and after a put at the primary, which knows that it is or is told so by the master, by a run that acknowledges it; the value is in the memory of every node its calls reached |
| `Writes.ClientCPut` | src/kv.cc:483-531 | the same for a conditional put; it is acknowledged exactly when its check passes |
| `Writes.ClientDelete` | src/kv.cc:533-558 | the same for a delete |
| `Writes.RestartNode` | src/kv.cc:658-687 | the same for a node that starts again and is filled by a peer |
| `Writes.ResolveFindsTheNode` | src/kv.cc:158-180 | with distinct addresses a node told of a primary acts on that very node: itself, or the peer it forwards to |
| `Writes.PutAtNode` | src/kv.cc:426-456 | a put at a node that knows of no primary and is told the address of p answers with the index of p among its peers and changes no node; handed on, it is the run of the partition that the put is at p |
| `Writes.DeleteAtNode` | src/kv.cc:533-558 | the same for a delete |
| `Writes.CPutAtNode` | src/kv.cc:483-531 | the same for a conditional put |
| `Writes.ViewNamed` | src/kv.cc:265-269 | the index such a node forwards to is that of the process whose address it is told |
| `KvMaster.FirstTrue` | src/kvmaster.cc:73-80 | the first node that passes, or none |
| `KvMaster.KVMaster.GetPartitionPrimary` | src/kvmaster.cc:42-60 | the address of the primary and the nodes, nothing while it is unknown, invalid out of range |
| `KvMaster.KVMaster.CheckNodes` | src/kv/master_client.cc:44-73 | every alive flag is the outcome of that node's check, nothing else changes |
| `KvMaster.KVMaster.DoHealthcheck` | src/kvmaster.cc:63-96 | one round on every partition, with the announcements it sends |
| `KvMaster.RoundKeepsPrimaryAlive` | src/kvmaster.cc:67-86 | after a round the primary is -1 if and only if no node is alive, otherwise alive; it changed only if the old one was unknown or dead, and then to the first node that passed; its address is announced if and only if there is a new appointment |
| `KvMaster.PrimaryAliveAlways` | src/kvmaster.cc:63-96 | the same after every run of rounds |
| `KvMaster.ViewsAgreeAlways` | src/kv/master_client.cc:75-86 | over every run in which updates reach the nodes that later serve, each serving node's view is unknown or the last appointment |
| `KvMaster.AtMostOnePrimary` | src/kv.cc:166-180 | in those runs at most one serving node believes it is primary |
| `KvMaster.AtMostOneForward` | src/kv.cc:453-455 | in those runs the node a write is forwarded to does not forward it again |
| `KvMaster.ActsOnThePrimary` | src/kv.cc:265-269 | in those runs every serving node acts on the primary the master names, as long as it names one |
| `KvMaster.AskedIsBelieved` | src/kv.cc:247-259 | a node that asks, or starts and reaches the master, believes what the master does |
| `KvMaster.AppointmentIsBelieved` | src/kv/master_client.cc:75-86 | an appointment that reaches every serving node is what each believes, the node appointed of itself |
| `KvMaster.EnableIffNotOvertaken` | src/kv.cc:622-630 | enabling a node keeps all views in agreement if and only if no later appointment has overtaken its view |
| `KvMaster.EnableIffOneBeliever` | src/kv.cc:622-630 | after enabling a node at most one serving node believes it is primary if and only if it does not itself believe so while another serving node does |
| `KvMaster.EnableIffOneForward` | src/kv.cc:622-630 | and no write is forwarded twice if and only if neither the node it takes for the primary nor, for nodes that take it for the primary, it itself hands writes on |
| `KvMaster.ReenabledIffOneBeliever` | src/kv.cc:622-630 | over every run from disabling a node to enabling it: two believe if and only if it believed so when it was disabled and another node, appointed in between, still serves and believes so |
| `KvMaster.ReenabledIffOneForward` | src/kv.cc:622-630 | a write is forwarded twice if and only if the node it took for the primary serves and acts on another, appointed in between |
| `KvMaster.DisableAppointEnable` | src/kv.cc:622-630 | a run that ends with two serving nodes that believe they are primary |
| `KvMaster.EnableTakesTwoForwards` | src/kv.cc:622-630 | a run that ends with a write forwarded twice |
| `KvClient.CPut` | src/kv/client.cc:150-176 | the loop over five attempts, with the error it maps each reply to |
| `KvClient.RetryRefused` | src/kv/client.cc:163-175 | a refused request changes nothing and is reported as not found, no match, or an error after the last attempt |
| `KvClient.FirstReplyDecides` | src/kv/client.cc:150-176 | when one of the five attempts comes through and none before it has reached the server, the call answers by the cell: the bytes written if it holds what is expected, not found if it is missing, no match otherwise, whatever is written |
| `KvClient.FiveUnansweredFail` | src/kv/client.cc:155-175 | when none of the five attempts is answered the call fails |
| `KvClient.CPutTruthfulIff` | src/kv/client.cc:150-176 | a put that changes the value reports what happened if and only if it is not the case that the first attempt to reach the server succeeded and its reply was lost |
| `KvClient.SameValueTruthfulIff` | src/kv/client.cc:150-176 | a put of the very value it expects reports what happened if and only if it is not the case that it created the cell and was never answered |
| `Lists.SplitJoin` | src/fe_servers/request_handler.cc:337-357 | split after join is the identity if and only if the last entry is not empty |
| `Lists.JoinSplit` | src/fe_servers/request_handler.cc:337-357 | join after split is the identity if and only if the string does not end with the delimiter |
| `Lists.RemoveInPlace` | src/fe_servers/request_handler.cc:584-599 | the edits one after the other |
| `Lists.RemoveRefines` | src/fe_servers/request_handler.cc:584-599 | on a joined list of 32-digit ids the string edits give the join of the list without the first occurrence |
| `Lists.RemovedListSplits` | src/fe_servers/request_handler.cc:582-600 | so what is read back is the list with the first occurrence removed |
| `MailStore.CellCheckIsCPutCheck` | src/kv.cc:504-518 | a conditional put depends on its cell alone |
| `MailStore.AppendLoop` | src/webmail/webmail.cc:300-318 | the loop ends on the first round whose stale read still matches, having appended once; while it tries again the cell is as others have made it |
| `MailStore.NoLostOrDoubledAppend` | src/webmail/webmail.cc:300-339 | for any number of loops, any stale reads, lost replies and interleaving, the list splits to what it was and an id for every put that took place, in commit order; it holds each successful loop's id once and no other if and only if no put took place whose reply was lost |
| `MailStore.LostReplyDoublesAppend` | src/webmail/webmail.cc:300-318 | a lost reply makes the loop append twice |
| `MailStore.StepConservesIff` | src/fe_servers/request_handler.cc:580-630 | a delivery or half a deletion accounts for every id if and only if it is not ended by an exception and a removed id is present at its commit |
| `MailStore.IdsConserved` | src/fe_servers/request_handler.cc:580-630 | over every interleaving the ids in the inbox, in transit and deleted are those there were and those that arrived |
| `MailDeletion.ArriveEffect` | src/webmail/webmail.cc:300-318 | a delivery appends its id to the list as it is read back if and only if the list is what was seen, and otherwise changes nothing |
| `MailDeletion.RemoveEffect` | src/fe_servers/request_handler.cc:580-606 | the first half of a deletion leaves the list without the first occurrence of the id if and only if the list is what was seen, and otherwise as it was |
| `MailDeletion.BinEffect` | src/fe_servers/request_handler.cc:607-630 | the second half appends the id to the deleted list if and only if that is what was seen, and otherwise leaves it as it was |
| `MailDeletion.RunEffect` | src/fe_servers/request_handler.cc:580-630 | over every interleaving the deleted list is what it was and then each id put there, in that order; what was removed and not yet put there is in transit |
| `MailDeletion.DeletedEndInTheList` | src/fe_servers/request_handler.cc:580-630 | nothing is in transit if and only if everything removed has been put in the deleted list, and then each removed id is found there |
| `MailDeletion.InboxBalance` | src/fe_servers/request_handler.cc:580-630 | the inbox holds what was there and what arrived, less what was removed |
| `SmtpSession.CommandEffect` | src/webmail/webmail.cc:216-430 | what each command changes, and that only the dot in state 4 delivers |
| `SmtpSession.OrderRules` | src/webmail/webmail.cc:216-430 | outside message data each command is answered 500, 503 or its success by its form and its place in the order of section 4.1.4 of RFC 5321, and changes the session only on success |
| `SmtpSession.SessionExplained` | src/webmail/webmail.cc:216-430 | in every reachable state recipients exist if and only if the state is 3 or 4, content only in state 4, and all fields are what the commands since the last MAIL make them |
| `SmtpSession.DeliveryIsATransaction` | src/webmail/webmail.cc:282-392 | each delivery carries the latest accepted sender, exactly the recipients accepted since, in order, and exactly the lines since DATA |
| `SmtpMail.VerbIsSpelled` | src/webmail/webmail.cc:214-421 | a line has the verb it starts with, each letter in either case |
| `SmtpMail.HostOf` | src/webmail/webmail.cc:235-255 | the host of any line is what follows the first at sign up to the first closing bracket, all of it if that comes before or not at all |
| `SmtpMail.UserOf` | src/webmail/webmail.cc:236-256 | the user is what stands between the first opening bracket and the first at sign, with what is read when the bracket is missing or late |
| `SmtpMail.AddressIsNamed` | src/webmail/webmail.cc:235-256 | of an address in brackets the user and the host are read |
| `SmtpMail.PlainCommands` | src/webmail/webmail.cc:217-226 | HELO, RSET, NOOP and QUIT in any letter case: reply and effect |
| `SmtpMail.TransactionDelivers` | src/webmail/webmail.cc:216-392 | MAIL, any RCPT lines, DATA, lines and the dot, wherever they stand in a conversation, deliver to each recipient at this host and then to each other, in the order named, from the sender named, the lines said |
| `SmtpMail.OneHereOneElsewhere` | src/webmail/webmail.cc:216-392 | with the texts of the lines written out, for one recipient of each kind |
| `SmtpBytes.LinesSent` | src/webmail/webmail.cc:199-202 | lines sent with a carriage return and a line feed each are the lines received |
| `SmtpBytes.ConversationServed` | src/webmail/webmail.cc:194-452 | the bytes of a conversation in which nobody quits, in any reads and either mode, give the replies and the deliveries of its commands in order |
| `SmtpBytes.BytesToMail` | src/webmail/webmail.cc:194-452 | from the bytes of a greeting and a transaction, however cut, to the mail that goes out |
| `SmtpWorker.LinesConcat` | src/webmail/webmail.cc:199-202 | the lines of a stream do not depend on where it is cut |
| `SmtpWorker.Worker` | src/webmail/webmail.cc:194-452 | the nested loops on any list of reads |
| `SmtpWorker.ChunkIndependent` | src/webmail/webmail.cc:194-452 | in debug mode two cuttings of one stream give the same replies, states and deliveries |
| `SmtpWorker.UpToQuit` | src/webmail/webmail.cc:440-450 | outside debug mode the connection does all of that, and more if and only if lines follow QUIT in its read |
| `SmtpWorker.ChunkIndependentUpToQuit` | src/webmail/webmail.cc:194-452 | so outside debug mode cuttings agree when no lines follow QUIT in its read |
| `SmtpWorker.StuckIsForEver` | src/webmail/webmail.cc:194-452 | the connection's result says stuck if and only if its rounds reach a point from which, for every n, n further rounds write n errors and change nothing else |
| `SmtpWorker.SpinsIffLongLine` | src/webmail/webmail.cc:202-212 | that happens if and only if a line over 1000 characters is reached: none before it is, and none is a QUIT outside message data, save, outside debug mode, in the same read |
| `SmtpWorker.BatchesAreLines` | src/webmail/webmail.cc:199-202 | the lines the reads complete are together the lines of the stream |
| `StorageHandler.Handler.DownloadFile` | src/fe_servers/request_handler.cc:671-691 | the loops return the download, up to the first missing chunk |
| `StorageHandler.Handler.MoveChunks` | src/fe_servers/request_handler.cc:868-873 | get, put and delete of each key in order, stopped by a missing one |
| `StorageHandler.Handler.MoveFileTo` | src/fe_servers/request_handler.cc:836-899 | the loops of movefile, error paths included |
| `StorageHandler.Handler.MoveFolderTo` | src/fe_servers/request_handler.cc:777-834 | the loops of movefolder, error paths included |
| `StorageMoves.SplitJoinSettles` | src/fe_servers/request_handler.cc:337-357 | an index written and read back loses at most one trailing empty entry |
| `StorageMoves.MoveKeysCells` | src/fe_servers/request_handler.cc:808-813 | moving distinct stored keys takes each from the old row to the new one, out of existence if they are the same, and touches no other cell |
| `StorageMoves.RefusedMoveStrandsIff` | src/fe_servers/request_handler.cc:868-894 | when another client's write makes the index put refuse, the next round raises at the first chunk; the file can be downloaded afterwards if and only if it has no chunk |
| `StorageFolders.MoveAllCompletes` | src/fe_servers/request_handler.cc:800-819 | the loop over the index completes whatever the new paths collide with, and renames every entry of the folder |
| `StorageFolders.CellLeft` | src/fe_servers/request_handler.cc:800-819 | a cell that no chunk is brought to is emptied if a chunk is taken from it and otherwise left alone |
| `StorageFolders.ChunkArrives` | src/fe_servers/request_handler.cc:800-819 | a chunk arrives at its new row unless the file itself or one later in the index takes it from there |
| `StorageMoves.MoveFileKeepsContent` | src/fe_servers/request_handler.cc:836-899 | a completed movefile leaves every listed file downloading the same bytes, the moved one at the target with none of its chunks left behind; order, other cells and other rows are kept; it refuses if and only if an entry starts with the target |
| `StorageMoves.MovedFileIsWhereAsked` | src/fe_servers/request_handler.cc:836-899 | on the path of the request, which loses one slash at its end: it is refused if and only if an entry starts with it; otherwise the file downloads the same bytes there, under an entry of that path and its keys, its chunks are in that row and gone from the old one, and every other entry and file is as it was |
| `StorageFolders.MoveFolderEffect` | src/fe_servers/request_handler.cc:777-834 | movefolder refuses if and only if the target is listed, and otherwise completes; what the index and every cell that receives nothing then hold |
| `StorageFolders.MoveFolderKeepsContent` | src/fe_servers/request_handler.cc:777-834 | every listed file downloads the same bytes afterwards if every collision of a new path with a listed one is harmless |
| `StorageFolders.MoveFolderKeepsContentIff` | src/fe_servers/request_handler.cc:777-834 | and only if, where no chunk is empty: harmless means that the other file moves and is earlier in the index or has no key in common, or that neither has a chunk |
| `StorageFolders.MovedFolderIsWhereAsked` | src/fe_servers/request_handler.cc:777-834 | on the path of the request, which gains a slash if it has none: a file below the folder downloads the same bytes below that path, under an entry of its new path and its keys; a file outside stays |
| `StorageFolders.MoveFolderOntoItselfLosesTheFile` | src/fe_servers/request_handler.cc:777-834 | a folder moved onto itself loses the file while the index still lists it |
| `StorageUpload.UploadFile` | src/fe_servers/request_handler.cc:901-940 | the loop stores the chunks, names their keys in one entry and appends it to the index |
| `StorageUpload.BytesIff` | src/fe_servers/request_handler.cc:913-922 | whatever the test, the chunks joined are the body if and only if the test notices every chunk that another follows |
| `StorageUpload.MeantNotices` | src/fe_servers/request_handler.cc:917 | the test as it is meant always does |
| `StorageUpload.WrittenNotices` | src/fe_servers/request_handler.cc:917 | as written, over mathematical integers, if and only if the body has at most 4,000,000 bytes |
| `StorageUpload.WrappingNotices` | src/fe_servers/request_handler.cc:917 | as written, on 32-bit integers that wrap around, the same for every body of at most 1,387,447,424 bytes |
| `StorageUpload.UploadThenDownload` | src/fe_servers/request_handler.cc:901-940 | upload then download returns the body if and only if no chunk was listed at the path before and the test notices every chunk; no other file or cell changes |
| `StorageUpload.UploadedAs` | src/fe_servers/request_handler.cc:901-940 | the chunks are stored at untitled under k0, k2000000 and so on, each with its part of the body, and the index goes on with one entry that lists these keys |
| `Json.ParseJson` | src/fe_servers/request_handler.cc:1244-1291 | the loop over flag variables computes the character machine's result |
| `Json.RunMembers` | src/fe_servers/request_handler.cc:1251-1284 | every printed pair but the last is stored when its comma is read, the last is left in the buffers |
| `Json.JsonRoundTrip` | src/fe_servers/request_handler.cc:1244-1291 | a printed flat object, with any white space between tokens, parses back to its map if and only if its last key and last value are not empty |
| `Json.PutAllHolds` | src/fe_servers/request_handler.cc:1264-1271 | that map holds every pair of a list with distinct keys |

## Left out

- gRPC, sockets, threads, deadlines, DNS: a call is delivered or fails, a request that is forwarded is the outcome `Forward`, and the processes of `KvNode` run one call at a time; interleaving is modelled in `Replication`.
- Data races on the shared map and the status copies at `src/kv.cc:360-361`: each put or delete in memory is one step and a failed peer call is ignored, as in effect it is.
- Torn writes: a log record is written whole or not at all, and no crash falls inside the rewrite of the checkpoint file at `src/kv.cc:96`, which the code does not survive; failing writes to a file are not modelled.
- Peer calls still outstanding when a primary crashes are delivered or lost before the next appointment, not after it.
- Replication.RejoinKeeps: a node filled by a peer that is being written to does not count as current until it is appointed holding what the line has made, or rejoins again.
- KvMaster.AtMostOneForward: a forward to a node that is down, and an exception for want of a master, are failures of the call, not forwards.
- SmtpSession.SessionExplained: the lower-casing is that of ASCII, and the Date header, the digest that names a message and the sending to remote hosts are parameters outside the model; a delivery is the record of sender, recipients and text.
- SmtpWorker.Worker: the reads of one connection are given as a list, each of any length.
- KvClient.CPut: the client's put, get, getdefault and del have the same five attempts and simpler replies; partition refresh and the digest that picks a partition are not modelled.
- MailStore.AppendLoop: the number of rounds is given; the code has no bound on it.
- MailStore.IdsConserved: its runs hold no step that `StepConservesIff` shows to lose or double an id; `front()` and `back()` of an empty string change nothing.
- StorageMoves.MoveFileKeepsContent: for one client, with every store call succeeding unless its cell is missing; beside another client only a refused index put is modelled (`RefusedMoveStrandsIff`), and an empty target is read as one that does not end in a slash.
- StorageUpload.UploadFile: the offset itself and the body's length do not overflow; the product with the offset does in the form `Wrapping`.
- Storage.MoveEntry: the exception of a prefix longer than the path ends the request like a store error.
- Rename, createfolder and delete of files: rename repeats the moves on one path component, and `handle_delete_storage` uses the wrong row for folders (`src/fe_servers/request_handler.cc:1092-1104`), so it has no clean specification.
- Json.JsonRoundTrip: escapes, nested values and numbers are not supported by the reader.
- `src/webmail/webmail_utils.cc` (`expectToRead`) and `src/fe_lb/loadbalancer.cc` (`get_next_frontend_port`): small loops that would only add easy members.
- HTTP dispatch, sessions, HTML pages, the admin console and server, shells, tests and build files.

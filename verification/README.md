# Verified models of birdwatcher's stateful cores

This project models the parts of birdwatcher whose correctness depends on several functions working
together over many steps, and proves what those parts are for. Go objects that change in place are
Dafny classes with the same fields; each of their methods is proved against a function or relation on
plain values, and the properties over whole runs are lemmas about those values. Code that runs
concurrently is a state machine whose steps are the atomic operations of the source, and its theorems
hold for every interleaving. `dafny verify dfyconfig.toml` checks everything.

## The parts

- **The WAL scanner pipeline** (`MessageHeap`, `ReorderBuffer`, `TxnModel`, `TxnAtomicity`, `TxnBuffer`,
  `PendingQueue`, `ScannerModel`, `ScannerOrder`, `ScannerLedger`, `ScannerDuplicates`, `ScannerAdaptor`). Raw
  messages enter a heap with an id set, time ticks release a sorted prefix, transaction messages wait for
  their commit, and a pending queue feeds the consumer. The classes are composed as in the source and
  refine one state machine, for which order, watermark, conservation, atomicity and the exact limit of
  deduplication are proved over all runs.
- **The comparator of N channels** (`Comparator`, `ComparatorVerdict`, `PChannelComparer`). The verdict is
  right under every arrival schedule, every schedule that serves each channel again and again, in whatever
  order, decides, and any two such schedules agree.
- **The key-value store** (`KeyOrder`, `MetaStore`, `KeyPaths`, `PrefixWalk`, `LeakedMeta`, `RootPaths`):
  paging by "last key plus a zero byte", walking while the callback deletes, the sweep of leaked
  collection meta, and the skip-scan over root paths.
- **Backup and restore** (`Framing`, `MetricsBackup`, `Loops`, `EtcdBackup`, `RestoreMachine`, `RestoreRuns`,
  `RestoreReport`, `RestorePanic`, `EtcdRestore`): length-prefixed frames, the paged backup and when it ends,
  crashes or goes on, the restore with a reader, a channel of ten batches and three workers, for which parts
  it always reports the truth, and for which it can panic.
- **The segment scan** (`SegmentFiles`, `SegmentRows`, `SegmentReader`, `SegmentScan`, `SegmentIterator`,
  `DeleteFilter`, `ScanPool`, `Dedup`): several files read side by side, batch after batch; the delete maps
  against the linear scan they replace; the worker pool; concurrent duplicate counting.
- **Insert messages** (`InsertColumns`, `InsertMessage`, `InsertAppend`): row counts, the alignment check,
  cutting one row out of a message, and rebuilding the columns row by row without sharing storage.

`Prelude`, `Bags`, `Runs` and `Messages` hold what these share: filters, multisets over maps, and runs of
a step function.

## What the proofs found

- `addDeltaRecords` (states/scan_binlog.go:153) looks the new timestamp up as if it were a primary key.
  No key of that type is ever stored, so the test always succeeds and the map keeps the timestamp last
  written for a key, not the latest. `DeleteFilter.FoldKeepsLast` states this, and
  `DeleteFilter.FastAgreesIffLastIsLatest` says exactly when the fast filter is still right. The fold also
  reads only the first event of a file and leaves a segment at the first file it cannot read;
  `DeleteFilter.ScanAgreesIff` takes both into account. `EarlierRecordLast`, `LaterEventIsMissed` and
  `UnreadableEndsItsSegmentOnly` are inputs with a row that is deleted by the one and kept by the other.
- The fast filter compares unsigned timestamps and the linear scan signed ones. The conditions above cover
  all 64-bit delete timestamps; with negative row timestamps the two practically never agree
  (`DeleteFilter.EveryRowAgreesIff`).
- `BackupKV` (states/kv/kv.go:275-305) leaves its loop only when a page is empty of all keys, but the page
  key moves only past keys with the prefix. It ends exactly if no stored key sorts after the prefix range
  (`EtcdBackup.BackupEndsIffNothingAfter`). If some key does, it goes on forever when there is something
  under the prefix (`EtcdBackup.BackupGoesOnIff`) and otherwise divides by the zero count on its first page
  (`EtcdBackup.BackupCrashesIffNothingToCount`). The keys of the repository's own backup test, with the
  prefix key among them, make it go on forever (`EtcdBackup.OwnTestNeverEnds`).
- A part of a backup cut between two frames, its stopper missing, counts as properly ended: exactly then, and
  when nothing is missing (`EtcdRestore.CutPart`). Cut inside a frame behind a whole entry it does not, and
  yet some run of the restore reports success (`EtcdRestore.CutPartCanPass`). A metrics stream also counts as
  finished when it is cut right behind a session's length (`MetricsBackup.CutMetrics`).
- The progress line of the restore divides by the entry count of the part's header
  (states/etcd_restore.go:209): `RestoreMachine.ZeroCountNeverReturns`.
- The workers of the restore assign their outcome to the variable in which the caller keeps the reader's
  error (states/etcd_restore.go:235 and 245). A restore returns with the right report under every
  interleaving exactly if the part has no entries (`RestoreReport.AlwaysRightIffNoEntries`). Success can be
  reported wrongly for every part with an entry and a count other than zero, truncated or not
  (`RestoreReport.MisreportedIff`): a late save hides the truncation (`LateSaveHidesTruncation`), or all
  entries are lost and a late receive hides that (`LateErrorHidesLoss`). An error, however, is never reported
  for nothing (`RestoreReport.ErrorIsReal`).
- A worker tests that shared error and reads it again to print it (states/etcd_restore.go:237-238). If it has
  become nil in between, the process panics. This can happen exactly for parts with an entry and a count
  other than zero that end properly or hold more than ten entries (`RestorePanic.PanicsIffRisky`).
- `GetAllRootPath` jumps from a key to its first segment plus "0". A key without a slash, such as "a", can
  thereby pass over another root, such as "a!" (`RootPaths.SecondRootIsMissed`);
  `RootPaths.CompleteIffNothingHidden` gives the exact condition.
- Duplicates are recognized only while the first copy is still held. When time ticks never go back, a copy
  of any message that has left the reorder buffer, in a transaction or not, is taken in again exactly if its
  tick is the last popped tick and its id is not held (`ScannerDuplicates.AcceptedAgainIff`). A message
  outside transactions is then delivered once more (`ScannerDuplicates.DeliveredAgainIff`), and so any number
  of times (`ScannerDuplicates.DeliveredAnyNumberOfTimes`).
- The scan pool hangs when started with no workers and at least one segment, and only then
  (`ScanPool.DeadlockIffNoWorkers`).
- The sweep for leaked segment meta uses the prefix "datacoord-meta/s", so every key beginning that way
  and not under the excluded statistics prefix is swept, whatever it stands for
  (`LeakedMeta.LeftUnderPrefix`); stats tasks, stored under "datacoord-meta/stats-task", are
  (`LeakedMeta.StatsTaskIsSwept`).
- `AppendFieldData` carries neither the valid data of a nullable column nor the dynamic flag over to a new
  column (mq/utils.go:141-148 and 218-226): a message rebuilt from its rows is the same exactly if no column
  has either (`InsertMessage.SplitThenRejoin`).

## Foreign parts

A message is a record of id, tick, size, kind, virtual channel, transaction id and persistence flag. When
a transaction builder expires, and whether a commit can be built from it, are uninterpreted functions of
the builder. Protobuf and JSON encodings are an encode function with a decode function; the round trips
require that the values actually written read back and do not encode to nothing, and lemmas beside them
give an encoding that does so. The store is a list of entries sorted by key. The choices made by `select`, by
schedulers, and by iteration over Go maps are arbitrary.

## Model

| member | source | states |
|---|---|---|
| MessageHeaps.RootIsMinimal | wal/utility/message_heap.go:44-46 | the peeked root of a heap-ordered slice has the least tick of all |
| MessageHeaps.RisingStep | wal/utility/message_heap.go:19-24 | a sift-up swap moves the only violated heap edge to the parent |
| MessageHeaps.SinkingStep | wal/utility/message_heap.go:19-24 | a sift-down swap with the smaller child moves the only violated edge to that child |
| MessageHeaps.MessageHeap.Swap | wal/utility/message_heap.go:23-24 | the two places are exchanged and the contents, with multiplicity, stay |
| MessageHeaps.MessageHeap.Push | wal/utility/message_heap.go:26-31 | the slice is heap-ordered again and holds one more message, the pushed one |
| MessageHeaps.MessageHeap.Pop | wal/utility/message_heap.go:33-46 | the former root is returned, the slice is heap-ordered and holds everything else |
| ReorderBuffers.ReorderBuffer.constructor | wal/utility/reorder_buffer.go:23-29 | an empty buffer whose bookkeeping agrees with its heap |
| ReorderBuffers.AcceptedMeans | wal/utility/reorder_buffer.go:31-41 | a message is taken in if and only if it is not before the last popped tick and no held message has its id, the tick being looked at first |
| ReorderBuffers.ReorderBuffer.Push | wal/utility/reorder_buffer.go:31-46 | a message before the last popped tick or with a held id is refused and nothing changes; any other is added, and ids, bytes and heap stay consistent |
| ReorderBuffers.ReorderBuffer.PopTop | wal/utility/reorder_buffer.go:52-56 | one pop removes the peeked message from heap, id set and byte count together |
| ReorderBuffers.ReorderBuffer.PopWhileReady | wal/utility/reorder_buffer.go:52-56 | the pop loop ends with every message still held past the tick, its result in order |
| ReorderBuffers.ReorderBuffer.PopUtilTimeTick | wal/utility/reorder_buffer.go:48-59 | returns exactly the held messages at or below the tick, in nondecreasing order, leaves exactly the others, and records the tick |
| ReorderBuffers.PopsUntilCounts | wal/utility/reorder_buffer.go:48-59 | a pop takes every copy of every message at or below the tick and none above |
| ReorderBuffers.PopTicksAreUnique | wal/utility/reorder_buffer.go:48-59 | however the heap breaks ties, two pops of equal contents yield the same ticks in the same order |
| ReorderBuffers.PopProgressStep | wal/utility/reorder_buffer.go:52-56 | taking a minimal message extends the sorted result and keeps the rest at or after it |
| ReorderBuffers.PushDescribes | wal/utility/reorder_buffer.go:42-44 | the id set and byte count describe the held messages again after a push |
| ReorderBuffers.PopDescribes | wal/utility/reorder_buffer.go:53-55 | the id set and byte count describe the held messages again after a pop |
| ReorderBuffers.PushKeepsIds | wal/utility/reorder_buffer.go:38-43 | held ids stay pairwise distinct, and exactly the new id joins them |
| ReorderBuffers.PopKeepsIds | wal/utility/reorder_buffer.go:54-55 | held ids stay pairwise distinct, and exactly the popped id leaves them |
| TxnModel.BuilderSize | wal/utility/txn_buffer.go:107-107 | a builder's size is the total size of its begin and bodies |
| TxnModel.BeginKeeps | wal/utility/txn_buffer.go:62-83 | a begin message is then in an open builder, or dropped as a repetition |
| TxnModel.BodyKeeps | wal/utility/txn_buffer.go:149-162 | a body message is then in its builder, or dropped as an orphan |
| TxnModel.CommitKeeps | wal/utility/txn_buffer.go:85-124 | at a commit the builder's messages and the commit are emitted together, or all dropped |
| TxnModel.RollbackKeeps | wal/utility/txn_buffer.go:126-147 | at a rollback the builder's messages and the rollback are dropped and nothing else changes |
| TxnModel.ExpireKeeps | wal/utility/txn_buffer.go:164-180 | the sweep drops exactly the messages of the overdue builders |
| TxnModel.TxnStepConserves | wal/utility/txn_buffer.go:39-58 | messages held before plus the one arriving are those held after, emitted and dropped |
| TxnModel.TxnRunConserves | wal/utility/txn_buffer.go:34-60 | over any run no message is lost or duplicated: each is still held, emitted once or dropped |
| TxnModel.BatchIncoming | wal/utility/txn_buffer.go:37-60 | a call takes in exactly the messages of its batch |
| TxnModel.SweepComesLast | wal/utility/txn_buffer.go:34-60 | a call emits what its messages emit one after the other from the builders there, and then exactly the builders left by them that are overdue are gone |
| TxnModel.CommitInBatchEmits | wal/utility/txn_buffer.go:37-60 | a commit of a transaction open when it arrives emits it, however late the sweep of the same call |
| TxnAtomicity.OpenIsUnique | wal/utility/txn_buffer.go:73-81 | at any point at most one begin of an id is open |
| TxnAtomicity.BuildersMirrorStream | wal/utility/txn_buffer.go:34-60 | the builders after any prefix are exactly the open transactions of the stream, each with its bodies since its begin in order |
| TxnAtomicity.EmittedIsAllowed | wal/utility/txn_buffer.go:37-124 | every emission is a message outside transactions, or a transaction whose begin is open at its commit, with exactly its bodies |
| TxnAtomicity.AllowedIsEmitted | wal/utility/txn_buffer.go:37-124 | conversely everything the stream allows at an event is emitted there |
| TxnAtomicity.Atomicity | wal/utility/txn_buffer.go:34-180 | each event emits at most one delivery, and exactly what the stream allows, across any split into batches |
| TxnAtomicity.BeginEmitsOnce | wal/utility/txn_buffer.go:85-124 | two transaction messages emitted at different events come from begins at different events |
| TxnAtomicity.RunEmitsInOrder | wal/utility/txn_buffer.go:38-59 | a run's emissions are those of its events in stream order |
| TxnBuffers.AccountsBegin | wal/utility/txn_buffer.go:81-82 | bytes equals the size of all held messages after a begin |
| TxnBuffers.AccountsBody | wal/utility/txn_buffer.go:160-161 | bytes equals the size of all held messages after a body |
| TxnBuffers.AccountsRemove | wal/utility/txn_buffer.go:107-109 | bytes equals the size of all held messages after a builder is removed |
| TxnBuffers.TxnBuffer.HandleBeginTxn | wal/utility/txn_buffer.go:62-83 | updates the builders as the stream model says, keeping the byte account |
| TxnBuffers.TxnBuffer.HandleCommitTxn | wal/utility/txn_buffer.go:85-124 | removes the builder and returns the transaction message the stream model says, if any |
| TxnBuffers.TxnBuffer.HandleRollbackTxn | wal/utility/txn_buffer.go:126-147 | removes an open builder and nothing else, keeping the byte account |
| TxnBuffers.TxnBuffer.HandleTxnBodyMessage | wal/utility/txn_buffer.go:149-162 | adds the body to its open builder, keeping the byte account |
| TxnBuffers.TxnBuffer.ClearExpiredTxn | wal/utility/txn_buffer.go:164-180 | in whatever order the map is visited, exactly the overdue builders are gone |
| TxnBuffers.TxnBuffer.HandleImmutableMessages | wal/utility/txn_buffer.go:34-60 | emits what the messages in order emit, and only then sweeps the overdue ones of the builders they leave |
| PendingQueues.QueueSizeAppend | wal/utility/pending_queue.go:23-28 | the queue's size is additive over appended batches |
| PendingQueues.PendingQueue.Add | wal/utility/pending_queue.go:23-28 | the batch joins the end of the queue in order and bytes is the size of what is queued |
| PendingQueues.PendingQueue.AddOne | wal/utility/pending_queue.go:30-33 | the message joins the end and bytes is the size of what is queued |
| PendingQueues.PendingQueue.UnsafeAdvance | wal/utility/pending_queue.go:35-38 | the first message leaves and bytes is the size of what is queued |
| ScannerModel.HistoryStep | wal/adaptor/scanner_adaptor.go:159-241 | every event extends delivered-then-pending at its end only |
| ScannerModel.LastIsLatest | wal/utility/reorder_buffer.go:57-57 | the last popped tick is that of the latest time tick received |
| ScannerModel.FilterMeans | wal/adaptor/scanner_adaptor.go:187-233 | a kept message that is no time tick is taken in, held or rejected, if the scanner wants every channel, the message has none, or the two are equal; otherwise nothing happens |
| ScannerModel.TickIsSeen | wal/adaptor/scanner_adaptor.go:197-219 | after a kept time tick something is queued: a persisted tick last of all, any other exactly if nothing else is |
| ScannerOrder.BatchTicks | wal/adaptor/scanner_adaptor.go:200-203 | a batch popped at t emits in tick order, from the batch's lower bound up to t |
| ScannerOrder.HistoryIsOrdered | wal/adaptor/scanner_adaptor.go:159-241 | with nondecreasing time ticks, delivered plus pending messages are always in tick order, and every held message is at or after the last popped tick |
| ScannerOrder.HistoryOnlyGrows | wal/adaptor/scanner_adaptor.go:170-183 | what was delivered or queued is never withdrawn, reordered or replaced |
| ScannerOrder.LastIsMonotone | wal/utility/reorder_buffer.go:57-57 | with nondecreasing time ticks the last popped tick never goes back |
| ScannerOrder.NothingLateIsDelivered | wal/adaptor/scanner_adaptor.go:187-219 | once a time tick t has been received nothing joining the history afterwards is before t |
| ScannerOrder.LateMessageIsRejected | wal/adaptor/scanner_adaptor.go:228-233 | a message strictly before a tick already popped is rejected and changes nothing else |
| ScannerLedger.StepBalances | wal/adaptor/scanner_adaptor.go:187-241 | every event keeps the ledger: heap, open transactions, history, rejected and dropped gain exactly what passed the filters |
| ScannerLedger.Conservation | wal/adaptor/scanner_adaptor.go:159-241 | after any run each message that passed the filters is in exactly one place, as often as it arrived |
| ScannerLedger.PipelineEmitsTxnStream | wal/adaptor/scanner_adaptor.go:197-207 | the history without time ticks is exactly what the transaction stream emits, for every interleaving with the consumer |
| ScannerLedger.DeliveriesAreAtomic | wal/adaptor/scanner_adaptor.go:159-241 | every delivery of the whole pipeline is a message outside transactions or a complete transaction whose begin was open at its commit |
| ScannerDuplicates.ReleasedWerePopped | wal/adaptor/scanner_adaptor.go:197-219 | what the time ticks popped is exactly what is in open transactions, delivered or pending alone or inside a transaction, or dropped, with multiplicity |
| ScannerDuplicates.PoppedNotAfterLast | wal/utility/reorder_buffer.go:48-59 | with nondecreasing time ticks no popped message is past the last popped tick |
| ScannerDuplicates.AcceptedAgainIff | wal/utility/reorder_buffer.go:31-46 | a copy of any message a time tick has popped, begins, bodies and commits included, is taken in again if and only if its tick is the last popped tick and its id is not held |
| ScannerDuplicates.TickDelivers | wal/adaptor/scanner_adaptor.go:197-219 | a time tick delivers every held copy of a message outside transactions that is not past it, and no other |
| ScannerDuplicates.DeliveredAgainIff | wal/adaptor/scanner_adaptor.go:187-241 | a copy followed by the next time tick adds one delivery if and only if its tick was the last popped tick and its id was not held |
| ScannerDuplicates.DeliveredAnyNumberOfTimes | wal/utility/reorder_buffer.go:35-41 | for every n there is a run that delivers one message n times |
| ScannerAdaptors.ScannerAdaptor.Release | wal/adaptor/scanner_adaptor.go:200-200 | pops up to the tick, leaving the rest of the pipeline as it was |
| ScannerAdaptors.ScannerAdaptor.Confirm | wal/adaptor/scanner_adaptor.go:203-203 | passes a batch through the transaction buffer, as its run says |
| ScannerAdaptors.ScannerAdaptor.Enqueue | wal/adaptor/scanner_adaptor.go:205-217 | queues the batch, then the time tick if it is persisted or nothing else is queued |
| ScannerAdaptors.ScannerAdaptor.HandleTimeTick | wal/adaptor/scanner_adaptor.go:197-219 | the three buffers together make the time-tick step of the model |
| ScannerAdaptors.ScannerAdaptor.PushMessage | wal/adaptor/scanner_adaptor.go:222-240 | a message that is no time tick enters the reorder buffer or is rejected, as the model says |
| ScannerAdaptors.ScannerAdaptor.HandleUpstream | wal/adaptor/scanner_adaptor.go:187-241 | the three buffers together make the upstream step: a message not kept or of another channel than the wanted one changes nothing, any other is taken in, and a time tick leaves something queued |
| ScannerAdaptors.ScannerAdaptor.Advance | wal/adaptor/scanner_adaptor.go:178-180 | the first pending message becomes the last delivered one |
| ScannerAdaptors.ScannerAdaptor.Choose | wal/adaptor/scanner_adaptor.go:161-183 | an enabled choice of the select is taken and adds its event to the run; a disabled one, upstream being disabled above sixteen pending messages, changes nothing |
| ScannerAdaptors.ScannerAdaptor.ConsumeEventLoop | wal/adaptor/scanner_adaptor.go:159-185 | every enabled choice up to the first cancellation is taken, in order, and the pipeline ends where the model's run of those events ends |
| ComparatorVerdict.PairPasses | states/consumev2_cmp.go:158-186 | two held messages pass if and only if both are configuration changes, or neither is and their kinds and source ids are equal, the source id being the replicate id when there is one and else the own id |
| ComparatorVerdict.AgreeIsEquivalence | states/consumev2_cmp.go:175-186 | being replicas of one message is reflexive, symmetric and transitive |
| ComparatorVerdict.ReferenceIsEnough | states/consumev2_cmp.go:165-189 | all messages agree with the first exactly when all are pairwise replicas of one message |
| ComparatorVerdict.ReadInStep | states/consumev2_cmp.go:91-119 | a visit keeps its channel counted at the completed rounds, plus one exactly when ready, holding its entry for the current round |
| ComparatorVerdict.HeldAreEntries | states/consumev2_cmp.go:122-134 | when all are ready the held messages are every channel's entry at the current round, self-controlled messages removed |
| ComparatorVerdict.ComparisonIsRight | states/consumev2_cmp.go:132-148 | a comparison fails exactly when the current round is the first at which the channels disagree |
| ComparatorVerdict.IterateIsRight | states/consumev2_cmp.go:82-151 | an iteration keeps all completed rounds in agreement and reports only the first disagreement |
| ComparatorVerdict.VerdictIsRight | states/consumev2_cmp.go:58-152 | under any arrival schedule an inconsistency is reported only at the first index where the filtered streams disagree |
| ComparatorVerdict.FirstDisagreementIsUnique | states/consumev2_cmp.go:58-152 | there is at most one first disagreement |
| ComparatorVerdict.InconsistencyIsFinal | states/consumev2_cmp.go:134-139 | nothing that arrives after an inconsistency changes it |
| ComparatorVerdict.BlockReads | states/consumev2_cmp.go:89-130 | while a disagreement lies ahead, a block of passes that serves every channel at least once, in whatever order, reads a message |
| ComparatorVerdict.GoingMakesProgress | states/consumev2_cmp.go:89-130 | while a disagreement lies ahead, a schedule of n such blocks has read at least n messages |
| ComparatorVerdict.FairScheduleDecides | states/consumev2_cmp.go:58-152 | if the channels disagree, every schedule that serves each channel more often than there are messages, one at a time or together, reports it, in that round |
| ComparatorVerdict.FairVerdictIff | states/consumev2_cmp.go:58-152 | under such a schedule an inconsistency is reported if and only if at some index every channel has a message and two of them are not replicas of one |
| ComparatorVerdict.VerdictIsScheduleIndependent | states/consumev2_cmp.go:58-152 | any two fair schedules give the same verdict, in the same round, on the same messages |
| PChannelComparers.PChannelComparer.ReadChannel | states/consumev2_cmp.go:94-118 | one visit of a channel updates the three maps as the model's visit |
| PChannelComparers.PChannelComparer.Pass | states/consumev2_cmp.go:89-119 | a pass over the channels is the model's pass |
| PChannelComparers.PChannelComparer.EveryoneReady | states/consumev2_cmp.go:121-129 | the ready check answers whether every channel holds a message |
| PChannelComparers.PChannelComparer.CompareCurrentMessages | states/consumev2_cmp.go:154-190 | the early-exit loop answers whether every held message is a replica of the same message as the first |
| PChannelComparers.PChannelComparer.ResetRound | states/consumev2_cmp.go:144-148 | every ready flag is cleared and every held message removed |
| PChannelComparers.PChannelComparer.Iteration | states/consumev2_cmp.go:82-151 | one turn of the outer loop is the model's iteration |
| PChannelComparers.PChannelComparer.ComparePChannelsMessage | states/consumev2_cmp.go:58-152 | the loop over an arrival schedule reaches the model's verdict |
| KeyOrder.NextKey | states/kv/kv.go:345-345 | appending a zero byte to a key gives its immediate successor |
| KeyOrder.PrefixIsRange | states/kv/kv.go:325-325 | the keys with a prefix are exactly those from it up to its range end |
| MetaStore.AfterEntry | states/kv/kv.go:345-345 | the entries from a key plus a zero byte on are exactly those after it |
| MetaStore.NextPage | states/kv/kv.go:328-346 | restarting after the n-th entry of a range read yields exactly the rest |
| PrefixWalk.PageIsNext | states/kv/kv.go:330-330 | though entries are being deleted, each page holds the next entries of the original range |
| PrefixWalk.VisitOne | states/kv/kv.go:335-339 | a visit removes at most the visited entry |
| PrefixWalk.EtcdKV.Call | states/kv/kv.go:335-339 | the one application of the callback: it is logged, and deletes the entry if the callback does |
| PrefixWalk.EtcdKV.VisitPage | states/kv/kv.go:335-339 | the callback is applied to the page's entries in order, each once, up to its first failure, and deletes only what it was given |
| PrefixWalk.EtcdKV.WalkPage | states/kv/kv.go:330-345 | the log of callback applications is extended by one page's entries, and the walk moves on, is complete, or stops at the callback's failure |
| PrefixWalk.EtcdKV.WalkWithPrefix | states/kv/kv.go:318-349 | terminates, having applied the callback to every initially present entry under the prefix exactly once in key order, up to and including the first failure, whatever the callback deleted |
| LeakedMeta.CleanLeaked | states/etcd/remove/collection_clean.go:37-64 | leaves exactly the entries every swept prefix spares; without the run flag nothing changes |
| LeakedMeta.CollectionMetaLeaked | states/etcd/remove/collection_clean.go:66-107 | with the run flag exactly the keys that are to remain are left, without it all |
| LeakedMeta.StatsLogsRemain | states/etcd/remove/collection_clean.go:95-101 | every key under base/datacoord-meta/statslog remains |
| LeakedMeta.OnlyLiveRemains | states/etcd/remove/collection_clean.go:46-101 | under each of the seven prefixes, spelled out, and apart from the stats logs, a key remains if and only if a segment behind the prefix names a live collection |
| LeakedMeta.ElsewhereRemains | states/etcd/remove/collection_clean.go:66-107 | a key under none of them remains |
| LeakedMeta.SweepPrefix | states/etcd/remove/collection_clean.go:37-64 | one sweep leaves exactly the entries it spares, or without the run flag all |
| LeakedMeta.SweepOne | states/etcd/remove/collection_clean.go:86-93 | sweeping one more prefix spares exactly what that prefix spares too |
| LeakedMeta.SweptApart | states/etcd/remove/collection_clean.go:66-100 | no key lies under two of the seven swept prefixes |
| LeakedMeta.LeftUnderPrefix | states/etcd/remove/collection_clean.go:46-107 | under a swept prefix an entry remains if and only if it is excluded or a path segment names a live collection |
| LeakedMeta.LeftElsewhere | states/etcd/remove/collection_clean.go:66-107 | an entry under no swept prefix is spared by every sweep |
| LeakedMeta.StatsTaskIsSwept | states/etcd/remove/collection_clean.go:96-103 | the key of a stats task (states/etcd/common/consts.go:41) is deleted unless "tats-task" or the task's own name is that of a live collection |
| KeyPaths.FirstSegment | states/kv/kv.go:192-193 | splitting at slashes, the first part is the key up to its first slash |
| KeyPaths.SplitMeans | states/etcd/remove/collection_clean.go:47-52 | splitting a key at slashes yields exactly what stands between slashes or at the ends and holds none |
| RootPaths.GetAllRootPath | states/kv/kv.go:182-206 | the paged loop terminates with what the skip-scan finds |
| RootPaths.JumpForward | states/kv/kv.go:196-197 | the cursor strictly increases past the key just read |
| RootPaths.ScanIsSound | states/kv/kv.go:193-195 | everything returned is the nonempty first segment of a stored key |
| RootPaths.ScanIsOrdered | states/kv/kv.go:184-205 | the result is strictly ordered by segment plus slash, hence without repetition |
| RootPaths.HiddenIsMissed | states/kv/kv.go:196-197 | of a slashless key and a key its jump passes over, at least one segment is missed |
| RootPaths.SecondRootIsMissed | states/kv/kv.go:196-197 | of the roots "a" and "a!" only the first is found |
| RootPaths.CompleteIffNothingHidden | states/kv/kv.go:182-206 | every nonempty first segment is returned if and only if no slashless key hides another key |
| RootPaths.SlashedKeysAreComplete | states/kv/kv.go:182-206 | when every key has a slash no first segment is missed |
| Framing.LittleEndianRoundTrip | states/etcd_backup.go:352-352 | a number below 256 to the size is read back from its little-endian bytes |
| Framing.LengthRoundTrip | states/etcd_backup.go:352-376 | an 8-byte length is read back |
| Framing.LengthBytes | states/etcd_backup.go:351-352 | a length is eight bytes, the lowest first |
| Framing.FrameRoundTrip | states/etcd_backup.go:350-389 | a frame is read back exactly, empty or not, and nothing after it is consumed |
| Framing.CutFrame | states/etcd_backup.go:359-389 | a frame cut short fails, with the end of the file if nothing or exactly its length is there, else short |
| Framing.Writer.WriteBackupBytes | states/etcd_backup.go:350-357 | appends the length frame and the data, and keeps what was written |
| Framing.Reader.ReadFull | states/etcd_backup.go:362-362 | a full read returns the next n bytes, or reports the end or a short read |
| Framing.Reader.ReadBackupBytes | states/etcd_backup.go:359-389 | reads the frame the parse function says, with its error cases |
| MetricsBackup.BackupMetrics | states/etcd_backup.go:156-195 | writes the header, three frames for each session whose fetch succeeded, and the stopper |
| MetricsBackup.FetchedInOrder | states/etcd_backup.go:176-186 | the sessions whose fetch succeeded are written in order, the others left out |
| MetricsBackup.ReadSample | states/etcd_restore.go:256-284 | one round reads a session and its two bodies, the stopper, or an error |
| MetricsBackup.RestoreMetrics | states/etcd_restore.go:254-286 | the read loop hands on exactly what parsing the stream yields; of a written stream cut anywhere, the samples whole before the cut |
| MetricsBackup.CutMetrics | states/etcd_restore.go:256-284 | of a stream cut anywhere the whole samples are handed on; it counts as finished if and only if the cut falls between two samples, after the stopper, or right behind a session's length, and fails otherwise, with the end of the file exactly at a frame's end or behind a body's length |
| MetricsBackup.BadSessionStops | states/etcd_restore.go:268-272 | a session that does not decode stops the restore, its metrics unread |
| MetricsBackup.RoundReadsBack | states/etcd_restore.go:256-284 | the three frames of one session whose encoding reads back are read back, empty bodies included |
| MetricsBackup.MetricsRoundTrip | states/etcd_restore.go:254-286 | if the written sessions read back, parsing the samples and the stopper gives back exactly those samples and leaves all following bytes |
| MetricsBackup.NamedSessionsRoundTrip | states/etcd_restore.go:254-286 | the round trip holds for any number of sessions under a concrete encoding |
| EtcdBackup.WritePage | states/kv/kv.go:285-301 | writes a page's entries under the prefix and moves the page key past the last of them |
| EtcdBackup.DoPage | states/kv/kv.go:275-304 | one page: the end, the division by a zero count, or further progress |
| EtcdBackup.BackupKV | states/kv/kv.go:272-315 | any number of turns of the page loop do what the model's pages do |
| EtcdBackup.PageAdvances | states/kv/kv.go:275-301 | with nothing after the prefix range and entries left, one page writes at least one more |
| EtcdBackup.ProgressIsBounded | states/kv/kv.go:301-304 | cut off anywhere, at most cnt entries were written and they are the first ones in key order |
| EtcdBackup.BackupEndsIffNothingAfter | states/kv/kv.go:272-315 | the loop ends, with every entry under the prefix written once in key order and the stopper, if and only if no stored key sorts after the prefix range |
| EtcdBackup.BackupCrashesIffNothingToCount | states/kv/kv.go:303-303 | it divides by zero if and only if nothing is under the prefix and some key sorts after its range |
| EtcdBackup.BackupGoesOnIff | states/kv/kv.go:275-305 | it goes on forever if and only if something is under the prefix and some key sorts after its range |
| EtcdBackup.OwnTestNeverEnds | states/kv/kv_test.go:298-333 | with the prefix key and the one after it that the repository's own backup test stores, it is still going after any number of pages |
| RestoreMachine.StepKeepsEverything | states/etcd_restore.go:146-243 | every step of reader, channel and workers moves entries without losing or duplicating one |
| RestoreMachine.StepKeepsControl | states/etcd_restore.go:146-251 | every step keeps the program points consistent: the channel is closed only once the last batch is in it, no worker leaves before it is drained, and what is returned is the shared error |
| RestoreMachine.NoDeadlock | states/etcd_restore.go:146-251 | until the caller has returned some step is possible |
| RestoreMachine.StepsRunOut | states/etcd_restore.go:146-251 | every step leaves strictly less to do |
| RestoreMachine.NeverDividesByZero | states/etcd_restore.go:208-209 | with a count other than zero, or no entry, the progress division never fails |
| RestoreMachine.ZeroCountNeverReturns | states/etcd_restore.go:208-209 | with a zero count and an entry the restore never returns without crashing |
| RestoreMachine.LastAssignmentRules | states/etcd_restore.go:235-247 | the shared error is what was assigned to it last, by the caller or a worker |
| RestoreMachine.EveryEntryOnce | states/etcd_restore.go:142-251 | every interleaving is bounded, and a complete one either ends in a worker's panic or has put each decoded entry, the last partial batch included, through exactly one save and returned the error assigned last |
| RestoreMachine.CanFinish | states/etcd_restore.go:146-251 | from any state in which no worker prints a nil error some run goes on to the return, its saves all successful or all failed as one likes |
| RestoreRuns.ReadsOn | states/etcd_restore.go:146-215 | a part can be read to its end with its last batches still unsaved, workers saving only to make room in the channel |
| RestoreReport.ErrorIsReal | states/etcd_restore.go:235-251 | whatever the interleaving, an error is reported only for a truncated part or a lost entry |
| RestoreReport.AlwaysRightIffNoEntries | states/etcd_restore.go:142-251 | every complete run returns, with an error exactly if the part was truncated or an entry lost, if and only if the part has no entries |
| RestoreReport.MisreportedIff | states/etcd_restore.go:235-251 | some run reports success for a truncated part or one with a lost entry, if and only if the part has an entry and its count is not zero |
| RestoreReport.CleanAndSavedIsSuccess | states/etcd_restore.go:142-251 | a part that ends properly and whose saves all succeed is always reported as restored, and no worker panics |
| RestoreReport.LateSaveHidesTruncation | states/etcd_restore.go:235-247 | every part with an entry, truncated or not, has a run in which a save after the receive makes the report a success |
| RestoreReport.LateErrorHidesLoss | states/etcd_restore.go:235-247 | every part has a run in which all entries are lost and the reader's verdict alone is reported |
| RestorePanic.PanicsIffRisky | states/etcd_restore.go:235-239 | some run makes a worker print an error that has become nil, if and only if the part has an entry, a count other than zero, and a proper end or more than ten entries |
| RestorePanic.SafePartsAreRestored | states/etcd_restore.go:142-251 | for all other parts, the count not being zero or no entry there, every complete run returns with each entry put through exactly one save |
| EtcdRestore.ReadNext | states/etcd_restore.go:155-201 | one round of the reader yields an entry, a skipped frame, or the end |
| EtcdRestore.ReadPart | states/etcd_restore.go:155-215 | the read loop consumes exactly what parsing the part says; of a written part cut anywhere it yields the whole entries and says whether the cut counts as a proper end |
| EtcdRestore.FrameIsOneItem | states/etcd_restore.go:179-201 | any frame that is not empty is one item, and one that does not decode is passed over |
| EtcdRestore.CutPart | states/etcd_restore.go:155-192 | a part cut anywhere reads as its entries whole before the cut, and counts as properly ended if and only if the cut falls between two frames or after the stopper |
| EtcdRestore.CutPartCanPass | states/etcd_restore.go:183-251 | a part cut inside a frame, behind at least one whole entry, has a run of the restore that reports success |
| EtcdRestore.PartRoundTrip | states/kv/kv.go:286-310 | if the written entries read back, their frames and the stopper decode to exactly those entries in order, the rest of the stream untouched |
| EtcdRestore.SavesOverwrite | states/etcd_restore.go:224-240 | saved in any order, each of distinct keys ends with its own value and every other key is as before |
| EtcdRestore.AnyOrderOverwrites | states/etcd_restore.go:218-243 | saves of the same entries in any order leave the store overwritten by exactly them |
| EtcdRestore.RestoreOverwrites | states/etcd_restore.go:142-251 | a complete run with successful saves and no panic leaves the initial store overwritten by exactly the part's entries |
| EtcdRestore.BackupRestoreRoundTrip | states/etcd_restore.go:118-252 | if the stored entries read back, backup then restore into an empty store reports success and yields exactly the map of the entries under the prefix |
| EtcdRestore.EntryRoundTrip | states/etcd_restore.go:195-196 | a concrete encoding reads back every entry that fits a frame |
| EtcdRestore.EveryStoreComesBack | states/etcd_restore.go:118-252 | with that encoding every store with nothing after the prefix range has a complete restore that brings back exactly its entries under the prefix |
| ScanPool.StepKeepsAccounts | states/scan_binlog.go:195-224 | every segment handed out is with one worker, worked or failed, once |
| ScanPool.NoSegmentTwice | states/scan_binlog.go:188-226 | after any run each segment handed out is in exactly one place, with one worker, worked once or failed once, and no other is anywhere |
| ScanPool.StepKeepsControl | states/scan_binlog.go:205-223 | while dispatching, if a worker has quit an error is there for the dispatcher to take |
| ScanPool.NoDeadlock | states/scan_binlog.go:188-226 | with at least one worker some step is possible until the pool has finished |
| ScanPool.DeadlockIffNoWorkers | states/scan_binlog.go:188-226 | the pool can deadlock if and only if it has no worker and at least one segment |
| ScanPool.RunsAreBounded | states/scan_binlog.go:188-232 | every run is bounded in length |
| ScanPool.EachSegmentWorkedOnce | states/scan_binlog.go:188-232 | if every work call succeeds or reaches the end of its data, the summary comes after each segment was worked exactly once |
| Dedup.StepKeepsTotals | storage/tasks/dedup.go:22-32 | every atomic step keeps counter equal to the per-key counts plus the increments in flight |
| Dedup.StepKeepsKey | storage/tasks/dedup.go:22-32 | every atomic step keeps the books of every key |
| Dedup.NeverBlocked | storage/tasks/dedup.go:22-32 | an unfinished call can always take its next step |
| Dedup.NeverOvercounted | storage/tasks/dedup.go:25-29 | at any moment of any interleaving the per-key counts sum to at most the counter |
| Dedup.KeyWhenDone | storage/tasks/dedup.go:22-32 | when all calls are done a key is listed exactly if repeated, with its occurrences less one |
| Dedup.FinalCounts | storage/tasks/dedup.go:22-32 | when all calls are done the counter is the sum of the per-key counts and equals scans minus distinct keys |
| DeleteFilter.DeltaData.Append | storage/delta_data.go:38-42 | the record joins the end, the three lists staying in step |
| DeleteFilter.DeltaData.Merge | storage/delta_data.go:52-60 | the other batch joins the end; with another key type it is refused and nothing changes |
| DeleteFilter.DeltaData.Deleted | states/check_partition_key.go:193-204 | the early-exit scan answers whether some record of the key is strictly later |
| DeleteFilter.DeleteRecords.Range | states/scan_binlog.go:152-157 | folds the records into the map, one after the other |
| DeleteFilter.DeleteRecords.AddDeltaRecords | states/scan_binlog.go:137-161 | folds the first event of each deltalog, up to the first file that fails, and says whether one did |
| DeleteFilter.DeleteRecords.AddSegments | states/scan_binlog.go:163-165 | folds the L0 segments one after the other, a file that fails ending only its own segment |
| DeleteFilter.FoldKeepsLast | states/scan_binlog.go:152-157 | since the lookup by timestamp never succeeds, the map keeps the last timestamp written per key |
| DeleteFilter.DeleteRecords.Match | storage/entry_filter.go:28-30 | on the fold of some records a row passes exactly if the last timestamp written for its key is not above its own |
| DeleteFilter.FastAgreesIffLastIsLatest | states/scan_binlog.go:135-176 | over all 64-bit delete timestamps the chain of maps agrees with the linear scan on every row with a nonnegative timestamp, if and only if for each key the last one held is below the sign bit and no record below it is later |
| DeleteFilter.EveryRowAgreesIff | states/scan_binlog.go:135-176 | on all rows, negative timestamps included, the two agree if and only if the maps hold nothing and every record is at the sign bit |
| DeleteFilter.NondecreasingLogsAgree | states/scan_binlog.go:135-176 | with timestamps nondecreasing per key in each log, the chain is the linear scan over all records, if and only if none is beyond the sign bit |
| DeleteFilter.ComparisonsAgreeIff | states/check_partition_key.go:196-196 | over all 64-bit values the unsigned and the signed comparison agree exactly when both timestamps are on the same side of the sign bit |
| DeleteFilter.SameRecords | states/check_partition_key.go:294-323 | with one event in every deltalog the two readers see the same records |
| DeleteFilter.ScanAgreesIff | states/scan_binlog.go:137-176 | on the files of any L0 segments and a segment of its own the two agree if and only if nothing readable is later than what the maps hold last, and on negative rows too if and only if there is nothing to act on |
| DeleteFilter.EarlierRecordLast | states/scan_binlog.go:152-157 | with a key deleted at 20 and later in the log at 10, a row at 15 is deleted for the linear scan and kept by the fold |
| DeleteFilter.LaterEventIsMissed | states/scan_binlog.go:148-157 | the second event of a file is lost to the fold, so that a row it deletes is kept |
| DeleteFilter.UnreadableEndsItsSegmentOnly | states/scan_binlog.go:137-165 | a row deleted after an unreadable file is kept within its segment, and deleted when it is in the next |
| SegmentFiles.ShortestFieldCounts | storage/common/binlog_selector.go:25-28 | a batch exists exactly if every field, selected or not, has a file for it |
| SegmentFiles.SelectedExactly | storage/common/binlog_selector.go:66-87 | a batch holds exactly the kept fields' files, each field its own; a wide-column selector also keeps ids below 100 |
| SegmentFiles.SelectBinlogs | storage/common/binlog_selector.go:20-35 | the early-exit loop returns the batch's files, or the end once some field has run out |
| SegmentFiles.ChunkPlace | storage/segment_reader.go:122-147 | record (g, r) of a field's file holds that field's values from the row offset of (g, r), the same for every field |
| SegmentFiles.BatchHeight | storage/segment_reader.go:122-147 | all output fields of an aligned batch have the same number of rows |
| SegmentRows.BatchRowsAreItsData | storage/segment_iterator.go:66-86 | row i of a batch carries index i and every output field's i-th value in that batch |
| SegmentRows.MovingOnSkipsNothing | storage/segment_reader.go:45-113 | moving to the next record, group or batch skips no row, and the offset restarts exactly at a new batch |
| SegmentRows.EndIsAfterAllRows | storage/common/binlog_selector.go:26-28 | the end is reached only after all rows of all batches |
| SegmentReaders.AddColumns | storage/segment_reader.go:135-144 | in any map order the file's output columns go to distinct free places, found through the index |
| SegmentReaders.Compose | storage/segment_reader.go:122-147 | the composed record carries every output field's column at the readers' common position, or none is left in the group |
| SegmentReaders.AdvanceGroups | storage/segment_reader.go:34-42 | all files move to their next group together; at the end none moves |
| SegmentReaders.OpenFiles | storage/segment_reader.go:80-111 | in any map order exactly the files holding an output field are opened, each at its first group |
| SegmentReaders.OpenedDisjoint | storage/segment_reader.go:89-100 | no output field is in two opened files |
| SegmentReaders.OpenedSomewhere | storage/segment_reader.go:89-100 | every output field is in some opened file |
| SegmentScan.SegmentReader.NextBatch | storage/common/batch_iterator.go:26-52 | the next batch's number and files, advancing by one, or the end |
| SegmentScan.SegmentReader.IterateNext | storage/segment_reader.go:45-113 | goes to the next group, else to the next batch, else reports the end |
| SegmentScan.SegmentReader.Next | storage/segment_reader.go:115-162 | returns the next record in order, carrying every output field's column, with its batch, or the end after the last |
| SegmentIterator.VersionSelects | storage/segment_reader.go:183-192 | versions 0 and 1 read the files of the output fields, version 2 also those with an id below 100, and no other version any |
| SegmentIterator.Scan | storage/segment_iterator.go:90-101 | a row is handed on exactly if every filter matches |
| SegmentIterator.ReadRow | storage/segment_iterator.go:66-80 | a row's values are every output field's value at its index, its key the primary-key field's |
| SegmentIterator.ScanRecord | storage/segment_iterator.go:66-86 | the passing rows of a record are handed on in order with the offset counted up from the batch's |
| SegmentIterator.RecordPlace | storage/segment_iterator.go:66-86 | the record at a position is the slice of the batch's columns from the current offset |
| SegmentIterator.Range | storage/segment_iterator.go:27-88 | hands on every row of every batch up to the shortest field's log count, exactly once and in order, less those a filter rejects; other versions and key types are refused |
| InsertColumns.CountIsExact | mq/utils.go:67-90 | a column counts n rows exactly if its kind is supported, its dimension fits and its data are n rows of its width |
| InsertColumns.CountMeans | mq/msg.go:716-761 | n scalars of six kinds, n times dim floats, or n times dim / 8 bytes with dim a positive multiple of 8, count n rows, and nothing else does |
| InsertColumns.ScalarAppended | mq/utils.go:139-214 | a scalar goes behind those of its kind, in place of scalars of another kind, or into a new column |
| InsertColumns.VectorAppended | mq/utils.go:215-256 | a vector goes behind those of its kind, in place of vectors of another kind with their dimension kept, or into a new column |
| InsertColumns.AppendRowsCopies | mq/utils.go:136-259 | rows 0 to k-1 appended to a missing column copy the column's first k rows, whatever its kind, without valid data and dynamic flag |
| InsertColumns.AppendRowsRebuild | mq/utils.go:135-259 | appending all rows, at least one, to a missing column rebuilds it, floats by dim, bytes by dim/8, but for valid data and dynamic flag: it is the same column if and only if it has neither |
| InsertColumns.OneRowCountsOne | mq/msg.go:716-761 | one row cut out of an aligned column slices in bounds and is a column of one row |
| InsertColumns.OneRowStandsForIt | mq/utils.go:136-259 | appending the only row of a cut-out column is appending the row it was cut from |
| InsertMessage.CheckAligned | mq/msg.go:202-228 | accepts a row-based message exactly if ids, timestamps and rows are equally many, a column-based one exactly if they and every column's count are its row number; otherwise reports the first bad column, else the lengths that differ |
| InsertMessage.AlignedCanIndex | mq/msg.go:230-283 | in an aligned message every row index below the row count is in bounds everywhere |
| InsertMessage.IndexMsgIsAligned | mq/msg.go:230-296 | every row of an aligned message can be cut out as an aligned message of that one row, with its own timestamp and id |
| InsertMessage.RejoinIsAppendRows | mq/msg.go:252-276 | appending the columns of the one-row messages is appending the source's rows |
| InsertMessage.SplitThenRejoin | mq/msg.go:252-276 | an aligned column-based message of at least one row is rebuilt, column by column, from its one-row messages, if and only if no column has valid data or a dynamic flag; otherwise just these are missing |
| InsertAppend.Column.Extend | mq/utils.go:160-160 | append grows the column in place or into a larger fresh array; the contents gain exactly the row |
| InsertAppend.Column.Replace | mq/utils.go:153-158 | data of another kind are replaced by a fresh array of just the row |
| InsertAppend.AppendColumn | mq/utils.go:137-258 | one column ends as the value model says, in the same or a fresh object with the same or a fresh array |
| InsertAppend.AppendFieldData | mq/utils.go:135-259 | every destination column ends as the value model says; the source is unchanged and still shares no storage with the destination |

## Left out

- gRPC, etcd, MinIO, TiKV, Pulsar and Kafka clients, gzip, progress output, logging, command and prompt UI: input and output around the modelled logic.
- Protobuf, JSON, Parquet and Arrow formats, and the binlog file readers: replaced by an encode/decode pair and by chunk sequences.
- Expression filters, hashing, balance scores, enum tables, and the show, set and repair commands: library calls or members without a property of their own.
- Conversion failures of begin, commit and rollback messages: the source calls them critical and the message kinds of the model exclude them.
- Byte counters and timestamps are not bounded to machine width, except where `DeleteFilter` compares unsigned with signed 64-bit values and `Framing` fixes the 8-byte length.
- TxnModel.ExpireKeeps: holds for any expiry function; the arithmetic that computes a builder's expiry tick is not part of this model.
- ScannerAdaptors.ScannerAdaptor.ConsumeEventLoop: processes a given list of choices of the select statement, because the source loops until its context is cancelled.
- ComparatorVerdict.VerdictIsScheduleIndependent: requires distinct channel names, which the source does not check; with a repeated name two channels share one place in its maps.
- PChannelComparers.PChannelComparer.ComparePChannelsMessage: the end of the schedule stands for the context and the interrupt signal; what is printed is left out.
- PrefixWalk.EtcdKV.WalkWithPrefix: requires that stored keys under the prefix are left alone by joinPath, since Remove cleans the key it is given and would otherwise delete another one; that etcd refuses an empty start key, and errors of the store, are left out.
- LeakedMeta.CollectionMetaLeaked: takes the base path as cleaned and not empty, so that joining it to a prefix puts one slash between them.
- EtcdBackup.BackupKV: is cut off after a given number of pages, because the source's loop need not end; it covers backups at a fixed revision, not those that ignore the revision, and not the part header written first.
- EtcdRestore.RestoreOverwrites: is about saves that succeed; a save that fails is taken to have stored nothing of its batch.
- RestoreMachine.EveryEntryOnce: with a zero count it covers only parts without entries; the other case is RestoreMachine.ZeroCountNeverReturns. Each read and each assignment of the shared error, unsynchronized in the source, is taken to be atomic and to see the latest value.
- The V2 parts after the metrics, and the fixed-length file header read with a plain Read.
- Errors other than the end of the data while reading the events of a deltalog.
- ScanPool.EachSegmentWorkedOnce: error reporting and a negative worker count are left out; work calls are assumed to end.
- SegmentIterator.Range: is about segments whose batches fit together, each output field in exactly one file, all files in the same nonempty chunks; elsewhere the source ends early, panics, or pairs values of different rows. Opening a file and decoding a cell always succeed, filters and scan tasks return no error, and the key object reused from row to row is a value.
- InsertMessage.CheckAligned: knows the two declared message versions only.
- InsertAppend.AppendFieldData: takes and returns the list of destination columns as a value, the columns themselves being updated in place; it requires that destination and source share no storage beforehand, and that the row exists in every source column, where the source would panic.

# A verified model of etmem

etmem extends the memory of a host: it watches how often the pages of chosen processes are used, keeps hot
pages in fast memory and moves cold ones to slower memory or to swap. This project models the parts of it
whose correctness is not visible in any single function, and proves what they promise.

| part | files |
|---|---|
| page lists of one migration round, and counting pages into them | `Pages`, `PageStore`, `CslideCount` |
| byte ledger of a node pair, the three selection passes, a whole round | `FlowControl`, `FlowSafety`, `PassSpec`, `CslideRound`, `CslideFilter`, `CslideLaw`, `CslidePriority`, `CslidePolicy`, `CslideEngine`, `NodePairs` |
| life cycle of the parameter blocks shared by two threads | `Factory` |
| cutting a page list into messages, rebuilding it in memRouter | `MemdcdProtocol`, `MemdcdSender`, `MemdcdReceiver`, `MemdcdRouter`, `MemdcdRoundTrip` |
| choosing what memRouter swaps out, and handing it to userswap | `ThresholdPolicy`, `Userswap` |
| the rounds of a task's thread pool and its process list | `RoundBarrier`, `TaskPids` |
| page records over repeated scans, and the kernel's byte stream | `VisitStats`, `ScanMerge`, `ScanDecode`, `ScanAccess`, `ScanLoop` |
| the slide engine's choice of pages | `Slide` |
| the text message between client and daemon | `RpcMessage` |

Code that changes state step by step is modelled by classes and methods with loops, each proved against a
function or predicate on values; what the code promises is then proved about those. The linked lists of a
cslide round and of a task's processes are real heap lists, since there it matters which node is which.
Concurrent protocols (parameter blocks, memRouter, thread pool) are step relations, and their results hold
for every run of every length. Numbers are unbounded unless a width is written out.

Kernel and libc calls are parameters: where a page is (`move_pages`), the order `qsort` leaves, what a
socket delivers, free memory, the clock, the text that `pgrep` prints, `log` and `sqrt`.

Where the documentation and the code disagree the model follows the code. The READMEs describe a
`node_pair` entry as slow node first, while `fill_node_pair` takes the first number as the hot node. They
call `node_mig_quota` a limit per direction, while the ledger charges both directions to one quota; the
model proves the stronger bound.

What a selection round does is stated twice: as the result of its passes, rows and ledgers (`CslideFilter`),
and without them (`CslideLaw`, `CslidePriority`), as a law about buckets, bytes and single pages: which pages
can go, which go first, where they arrive, and which limit a page that stays behind would have broken.

Some promises do not hold on all inputs. For each the model keeps the code as it is and proves exactly
when the promise holds:

- neither node of a pair overfills: `FlowSafety.OccupancyExact`, with `FlowSafety.LargePagesOverfill` for a
  failing case on figures the statistics can produce and `CslidePolicy.TwoMegabytePagesFit` for two-megabyte pages, where it cannot
- the cursor merge equals a search from the head: `ScanMerge.CursorExact`, with `ScanMerge.RepeatDisorders`
- a decoded run covers exactly its address range: `ScanDecode.RunTiles`, with
  `ScanDecode.LargerBasePagesLeaveGaps`
- the spread of a page's intervals: `VisitStats.SpreadHistory` (it is never the standard deviation, and the
  lemma says by how much it is larger)
- a process that is still there keeps its node: `TaskPids.SurvivorsRule` and `TaskPids.AllSurvive`, with
  `TaskPids.UnsortedLosesNode`
- merging ranges keeps the pages: `Userswap.MergeExact`, with `Userswap.LongerEntryIsCut`
- a message is read back as it was written: `RpcMessage.RoundTrip`, with `RpcMessage.DashIsLost`

Parameter blocks of the cslide engine are released exactly once because tasks are stopped only in a started
project (`etmemd_project.c`, lines 245, 286, 913 and 932), which is part of the step relation.

## Model

| member | source | states |
|---|---|---|
| `Pages.FitIsLongest` | etmem/src/etmemd_src/etmemd_cslide.c:363-392 | a prefix of a page list fits a budget exactly when it is no longer than the prefix that is taken |
| `Pages.FitConcat` | etmem/src/etmemd_src/etmemd_cslide.c:1102-1129 | spending a budget list by list takes the same pages as spending it on the lists joined together |
| `PageStores.PageStore.Cut` | etmem/src/etmemd_src/etmemd_cslide.c:363-380 | finds the last page that still fits and the bytes up to it, with the shortcut for a whole list giving the same answer |
| `PageStores.PageStore.MoveToList` | etmem/src/etmemd_src/etmemd_cslide.c:363-392 | the longest prefix within the budget goes, in order, to the front of the target list; every list stays a proper chain with right tail and size |
| `PageStores.MovedGood` | etmem/src/etmemd_src/etmemd_cslide.c:363-392 | relinking keeps all lists null-terminated chains without cycles or sharing, and neither loses nor invents a page |
| `PageStores.SpliceKeepsOwners` | etmem/src/etmemd_src/etmemd_cslide.c:1131-1149 | moving a prefix between lists leaves every page in exactly one list |
| `PageStores.ExactlyOneList` | etmem/src/etmemd_src/etmemd_cslide.c:341-392 | in a good store every page is in exactly one bucket, hot list or cold list, at one position |
| `CslideCount.PartMembers` | etmem/src/etmemd_src/etmemd_cslide.c:427-449 | bucket (c, n) of the partition holds exactly the scanned pages with count c on node n |
| `CslideCount.Counter.NpfAdd` | etmem/src/etmemd_src/etmemd_cslide.c:341-354 | appends one page: head, tail, size, number and the old tail's link, nothing else |
| `CslideCount.Counter.InsertCountPfs` | etmem/src/etmemd_src/etmemd_cslide.c:427-449 | one batch extends the stable partition and leaves the links that the walk still needs |
| `CslideCount.Counter.NextVmaPf` | etmem/src/etmemd_src/etmemd_cslide.c:753-768 | takes the next memory area that has pages, skipping empty ones and detaching its list |
| `CslideCount.Counter.LinkNextVma` | etmem/src/etmemd_src/etmemd_cslide.c:770-829 | at the end of an area's list the walk goes on with the next area, so that it visits every page in scan order |
| `CslideCount.Counter.SetupTails` | etmem/src/etmemd_src/etmemd_cslide.c:356-361 | every bucket is cut after its last page, and none loses one |
| `CslideCount.Counter.CountPages` | etmem/src/etmemd_src/etmemd_cslide.c:770-829 | batched counting in place equals the stable partition of the whole scan, whatever the batch size |
| `CslideCount.Counter.CountNodePfs` | etmem/src/etmemd_src/etmemd_cslide.c:770-829 | afterwards bucket (c, n) is a closed list of exactly its pages in scan order with right size, number and tail; other lists are untouched and no page stays in an area's list |
| `FlowControl.FlowCtrl.CalPass` | etmem/src/etmemd_src/etmemd_cslide.c:1001-1074 | opens a pass for every pair; the counter equals the number of pairs without budget |
| `FlowControl.FlowCtrl.IsEnough` | etmem/src/etmemd_src/etmemd_cslide.c:1012-1079 | the counter says "enough" exactly when every pair is exhausted |
| `FlowControl.FlowCtrl.Grant` | etmem/src/etmemd_src/etmemd_cslide.c:1017-1094 | grants what is asked for or what is left, charges it to that pair only, and keeps the counter equal to the number of exhausted pairs |
| `FlowSafety.HotCapGreatest` | etmem/src/etmemd_src/etmemd_cslide.c:850-872 | an amount is within the cap of the first pass exactly when its charge, with replaced cold bytes counted twice, fits the quota, and the replaced bytes fit the cold bytes and the cold node's room |
| `FlowSafety.PrefetchCapGreatest` | etmem/src/etmemd_src/etmemd_cslide.c:901-918 | an amount is within the prefetch cap exactly when, after the first pass, it fits the quota and leaves the reserve free |
| `FlowSafety.ColdCapGreatest` | etmem/src/etmemd_src/etmemd_cslide.c:939-954 | an amount is within the cold cap exactly when what goes beyond the replaced bytes fits the quota, the gap to the reserve and the cold node's room after both passes |
| `FlowSafety.Balance` | etmem/src/etmemd_src/etmemd_cslide.c:884-937 | after the two passes to the hot node the free bytes of one node have become free bytes of the other, and the quota has paid for every byte and again for every replaced one |
| `FlowSafety.ChargesGreatest` | etmem/src/etmemd_src/etmemd_cslide.c:850-965 | each pass charges the largest amount that is allowed after the passes before it and asked for |
| `FlowSafety.HotPass` | etmem/src/etmemd_src/etmemd_cslide.c:850-899 | the first pass stays within quota, free space plus replaceable cold bytes, and the cold node's room; quota and free space stay non-negative |
| `FlowSafety.PrefetchPass` | etmem/src/etmemd_src/etmemd_cslide.c:901-937 | prefetching never takes the hot node's free space below the reserve, nor the quota below zero, and does not happen after a replacement |
| `FlowSafety.QuotaSafe` | etmem/src/etmemd_src/etmemd_cslide.c:837-965 | over all three passes at most the quota is charged, although replaced cold bytes are paid in the first pass and spent in the third |
| `FlowSafety.RoomSuffices` | etmem/src/etmemd_src/etmemd_cslide.c:850-965 | with pages of one size, and room of whole pages or hardly anything beside them, what moves into a node less what leaves it fits the free space of either node, for any quota, reserve and demand |
| `FlowSafety.OccupancyExact` | etmem/src/etmemd_src/etmemd_cslide.c:850-965 | that room is exactly what is needed: with any other some quota, reserve and pages overfill a node |
| `FlowSafety.NoOverfill` | etmem/src/etmemd_src/etmemd_cslide.c:850-965 | the same on lists of pages and their longest fitting prefixes |
| `FlowSafety.LargePagesOverfill` | etmem/src/etmemd_src/etmemd_cslide.c:850-954 | a failing case on figures the statistics can produce: 32 MB pages, 16 MB free on either node, quota 48 MB, one hot page, eight cold pages counted as 2 MB each |
| `PassSpec.FillHotThreshold` | etmem/src/etmemd_src/etmemd_cslide.c:2021-2038 | a negative threshold is refused; the cut of a large one keeps it in range and changes no decision about any count |
| `PassSpec.CellsExist` | etmem/src/etmemd_src/etmemd_cslide.c:1102-1191 | every count that a pass looks at is between 0 and loop * 3 and has its lists |
| `PassSpec.TakenIsLongestPrefix` | etmem/src/etmemd_src/etmemd_cslide.c:1102-1129 | what is taken bucket by bucket is the longest fitting prefix of everything offered; `CslideLaw.OfferedMembers` and `CslideLaw.OfferedOrder` say what is offered and in which order |
| `CslideRound.Round.Policy` | etmem/src/etmemd_src/etmemd_cslide.c:1131-1149 | serving one pair from one bucket advances that pair's prefix and leaves the other pairs' progress as it was |
| `CslideRound.EarlyExit` | etmem/src/etmemd_src/etmemd_cslide.c:1102-1129 | when every pair is exhausted, no bucket still to be offered would give up a page |
| `CslideRound.Round.DoFilter` | etmem/src/etmemd_src/etmemd_cslide.c:1102-1129 | for every pair the nested loops with early return move exactly the longest prefix that fits its cap, and charge the ledger as if all that was offered had been asked for |
| `CslideFilter.FilterPages` | etmem/src/etmemd_src/etmemd_cslide.c:1151-1208 | after the three passes each pair's buckets, hot list, cold list and ledger are those of three longest prefixes of the original buckets, and no other list changes |
| `CslideLaw.OfferedMembers` | etmem/src/etmemd_src/etmemd_cslide.c:1151-1191 | a pass offers exactly the pages on the cold node from the threshold up (hot pages), on the cold node below it (prefetched ones), or on the hot node below it (cold ones) |
| `CslideLaw.OfferedOrder` | etmem/src/etmemd_src/etmemd_cslide.c:1151-1191 | pages of a larger count are offered first to the hot node and pages of a smaller count first to the cold node, within one count by process |
| `CslideLaw.DrainedLaw` | etmem/src/etmemd_src/etmemd_cslide.c:1102-1129 | a pass empties its buckets from the front, in that order, and moves all of them or as much as is charged: the next page would be too much |
| `CslideLaw.ResultObeysLaw` | etmem/src/etmemd_src/etmemd_cslide.c:1193-1208 | the whole round: three passes by that law with the largest charges quota, free space, cold bytes and reserve allow; the hot and cold lists gain exactly the pages that left the buckets, and hot pages of the hot node stay |
| `CslidePriority.HotLeftBehind` | etmem/src/etmemd_src/etmemd_cslide.c:850-872 | a hot page is left on the cold node only if one more would exceed the quota, the free and cold bytes of the hot node, or the cold node's room |
| `CslidePriority.HotBeforePrefetch` | etmem/src/etmemd_src/etmemd_cslide.c:1193-1208 | while a hot page is left nothing is prefetched |
| `CslidePriority.PrefetchLeftBehind` | etmem/src/etmemd_src/etmemd_cslide.c:901-918 | a page below the threshold is left on the cold node only if a hot one is, or one more would exceed the quota or use the reserve |
| `CslidePriority.ColdLeftBehind` | etmem/src/etmemd_src/etmemd_cslide.c:939-954 | a cold page is left on the hot node only if one more goes beyond the replaced bytes and would exceed the quota, the reserve or the cold node's room |
| `CslidePriority.HottestFirst` | etmem/src/etmemd_src/etmemd_cslide.c:1151-1177 | on the pages' own counts: no page is selected for the hot node while one of a larger count stays on the cold node, hot and prefetched pages together |
| `CslidePriority.ColdestFirst` | etmem/src/etmemd_src/etmemd_cslide.c:1179-1191 | only pages below the threshold are selected for the cold node, and none while one of a smaller count stays on the hot node |
| `CslideFilter.QuotaNeverExceeded` | etmem/src/etmemd_src/etmemd_cslide.c:1193-1208 | the bytes selected on a pair in one round, both directions together, never exceed its quota |
| `CslideFilter.NodesNeverOverfilled` | etmem/src/etmemd_src/etmemd_cslide.c:1193-1208 | with pages of one size and room that fits them, the selected pages fit both nodes of the pair |
| `CslidePolicy.ColdPagesCounted` | etmem/src/etmemd_src/etmemd_cslide.c:1487-1511 | the pages counted as cold on the hot node are as many as the cold pass can offer |
| `CslidePolicy.TaskPages` | etmem/src/etmemd_src/etmemd_cslide.c:1487-1511 | cold and hot kilobytes of a process on a node are two megabytes per page below, and from, the threshold |
| `CslidePolicy.HostPages` | etmem/src/etmemd_src/etmemd_cslide.c:1513-1524 | the sums over all working processes |
| `CslidePolicy.InitFigures` | etmem/src/etmemd_src/etmemd_cslide.c:967-994 | every pair's ledger starts with free bytes, cold bytes, quota and reserve of its own nodes |
| `CslidePolicy.FiguresAre` | etmem/src/etmemd_src/etmemd_cslide.c:967-994 | the figures are the free bytes of both nodes, two megabytes per page counted as cold, and quota and reserve in megabytes |
| `CslidePolicy.SelectPages` | etmem/src/etmemd_src/etmemd_cslide.c:1526-1543 | for every pair the lists are those of the three passes run with the pair's own figures, they obey the law of a round with the room written out in free bytes, counted pages and settings, and quota and room of the pair are respected; no other list changes and every page is in one list |
| `CslidePolicy.TwoMegabytePagesFit` | etmem/src/etmemd_src/etmemd_cslide.c:253-283 | free space is counted in two-megabyte pages, so with pages of that size neither node of any pair ever overfills |
| `CslideEngine.CountAll` | etmem/src/etmemd_src/etmemd_cslide.c:1526-1537 | counting the processes one after the other gives every process its own stable partition, with lists and pages of the others untouched |
| `CslideEngine.CountedBucket` | etmem/src/etmemd_src/etmemd_cslide.c:1526-1537 | bucket (c, n) of a process holds exactly its own scanned pages with that count on that node, whatever else was counted |
| `CslideEngine.CountedGraded` | etmem/src/etmemd_src/etmemd_cslide.c:427-449 | counting leaves every page in the bucket of its own count |
| `CslideEngine.Policy` | etmem/src/etmemd_src/etmemd_cslide.c:1526-1543 | counting all processes and then selecting: for every pair the selection obeys the law of a round over the scans themselves, stays within its limits, takes the most used pages of the cold node and the least used ones of the hot node first, and loses no page |
| `NodePairs.FillNodePair` | etmem/src/etmemd_src/etmemd_cslide.c:1952-2019 | accepts exactly the settings that name every node once, stores them in order with their index, and never reaches the "too much pair" failure |
| `NodePairs.NodeVerifier.IsNodeValid` | etmem/src/etmemd_src/etmemd_cslide.c:522-536 | a node is accepted exactly when it is in range and was not named before |
| `NodePairs.NodeVerifier.HasNodeUnmap` | etmem/src/etmemd_src/etmemd_cslide.c:538-551 | reports a missing node exactly when some node was not named |
| `NodePairs.NodeMap.Add` | etmem/src/etmemd_src/etmemd_cslide.c:491-503 | a pair is appended with its position as index unless the map is full |
| `NodePairs.NextToken` | etmem/src/etmemd_src/etmemd_cslide.c:1971-2006 | a pair whose nodes passed the check always still has room in the map |
| `Factory.InvStep` | etmem/src/etmemd_src/etmemd_cslide.c:666-739 | every action of either thread keeps the life-cycle invariant |
| `Factory.LifecycleSafe` | etmem/src/etmemd_src/etmemd_cslide.c:666-739 | in every reachable state no block is linked twice, nothing on the hand-over list, taken from it or on the working list is released, and nothing is released twice or while its owner has it |
| `Factory.DroppedReleased` | etmem/src/etmemd_src/etmemd_cslide.c:708-739 | in every run a dropped block is released by the end of the first sweep that begins with a later update: the sweep passes over no freed block |
| `Factory.NeverStuck` | etmem/src/etmemd_src/etmemd_cslide.c:666-739 | in every reachable state an operation begun by the control thread can go on, and the worker has a next step until it has destroyed the engine |
| `Factory.ShutdownReleases` | etmem/src/etmemd_src/etmemd_cslide.c:1614-1663 | when the engine is destroyed both lists are empty and every block was released exactly once |
| `MemdcdSender.SegmentsPartition` | etmem/src/etmemd_src/etmemd_memdcd.c:164-236 | the messages join to the list, every one but the last is full, their number is the rounded-up quotient, and they are tagged START, PROCESS, END by position |
| `MemdcdSender.DoMigrate` | etmem/src/etmemd_src/etmemd_memdcd.c:164-236 | exactly those messages arrive up to the first failing send, whose own message may arrive or not; also for empty lists and exact multiples of 512; success exactly when no send failed |
| `MemdcdReceiver.KeptRecords` | memRouter/src/memdcd_process.c:146-155 | a due recycle pass keeps exactly the records written at most the timeout ago or with a running worker |
| `MemdcdReceiver.RecycledExactly` | memRouter/src/memdcd_process.c:129-158 | a pass is due when recycling is on, the clock was read before and the timeout has passed since; then exactly the needed records stay, in order, and else all of them; the clock is remembered either way |
| `MemdcdReceiver.StaleForgotten` | memRouter/src/memdcd_process.c:129-158 | after a due pass a further piece for a record that was too old and had no worker is turned away, and no record of the process is left |
| `MemdcdReceiver.InvNext` | memRouter/src/memdcd_process.c:129-158 | every message, recycle pass and worker end keeps the invariant, and only a worker's own end removes the record it works on |
| `MemdcdReceiver.ReassemblySafe` | memRouter/src/memdcd_process.c:178-247 | in every run: one record per process, never more pages than announced, always the pages accepted since the last START; a worker starts only on a complete such list |
| `MemdcdReceiver.WorkerKeepsRecord` | memRouter/src/memdcd_process.c:129-158 | while a worker runs its record stays in the list unchanged |
| `MemdcdRouter.Daemon.Search` | memRouter/src/memdcd_process.c:84-97 | the first record of a process, or the end of the list |
| `MemdcdRouter.Daemon.Remove` | memRouter/src/memdcd_process.c:63-82 | removes that record and nothing else |
| `MemdcdRouter.Daemon.RecyclePass` | memRouter/src/memdcd_process.c:129-158 | walking and unlinking takes the list to that state: a due pass keeps exactly the recent records and those with a running worker, in order, and any other pass keeps all |
| `MemdcdRouter.Daemon.CollectPages` | memRouter/src/memdcd_process.c:178-247 | the stored state and the decision to start a worker are those of the step relation |
| `MemdcdRouter.Daemon.GetPages` | memRouter/src/memdcd_process.c:323-344 | one message takes the daemon to the state of the step relation, and 0 is returned exactly when a worker was started |
| `MemdcdRouter.Daemon.WorkerEnd` | memRouter/src/memdcd_process.c:254-298 | a worker's end is the corresponding step |
| `MemdcdRoundTrip.OtherEvent` | memRouter/src/memdcd_process.c:178-247 | no event of another process disturbs a record that waits for more pages |
| `MemdcdRoundTrip.RoundTrip` | memRouter/src/memdcd_process.c:178-247 | for every non-empty list the sender's messages, mixed with any events of other processes and without a pause beyond the collection timeout, start nothing until the last one, which starts a worker on exactly the original list |
| `ThresholdPolicy.Parse` | memRouter/src/memdcd_policy_threshold.c:122-191 | the in-place pass returns the specified pages, and fails exactly when pages cannot be located or their sizes overflow 64 bits |
| `ThresholdPolicy.Compact` | memRouter/src/memdcd_policy_threshold.c:155-175 | compaction from the back never overwrites an unread entry and leaves the swapped pages at the end |
| `ThresholdPolicy.KeptIsLongest` | memRouter/src/memdcd_policy_threshold.c:155-175 | the kept pages stay below the threshold and every longer hottest-first run reaches it |
| `ThresholdPolicy.PolicySound` | memRouter/src/memdcd_policy_threshold.c:117-191 | kept and swapped pages are all resident pages once; every kept page is at least as hot as every swapped one; swapped pages come in ascending visit count |
| `Userswap.SendToUserswap` | memRouter/src/memdcd_migrate.c:109-150 | sends the batches up to the first failing connection, whatever the answers; 0 exactly when all were sent and answered |
| `Userswap.BatchesJoin` | memRouter/src/memdcd_migrate.c:127-146 | the batches have 1 to 512 entries and join to the list |
| `Userswap.VmaMerge` | userswap/src/lib_uswap.c:490-525 | the two-index loop computes the specified merge within the 512-entry buffer |
| `Userswap.MergeKeepsPages` | userswap/src/lib_uswap.c:500-522 | the merged ranges, taken apart, are the pages asked for, in order, when entries that continue a single page are single pages |
| `Userswap.MergeExact` | userswap/src/lib_uswap.c:500-522 | for entries of whole pages, exactly then |
| `Userswap.PartPageGoesUnnoticed` | userswap/src/lib_uswap.c:505-516 | why `MergeExact` asks for whole pages: an absorbed entry with part of a second page loses that part, and the page sequences agree all the same |
| `Userswap.MergeIsComplete` | userswap/src/lib_uswap.c:505-516 | for single pages no range is directly followed by its own continuation |
| `Userswap.DeliveryExact` | memRouter/src/memdcd_migrate.c:109-150 | batching, merging and taking apart gives back exactly the pages of the list |
| `Userswap.LongerEntryIsCut` | userswap/src/lib_uswap.c:505-516 | a longer entry right behind a single page is cut to one page |
| `RoundBarrier.InvStep` | etmem/src/etmemd_src/etmemd_threadpool.c:53-88 | every step of the timer thread and of any pool thread keeps the round invariant |
| `RoundBarrier.BarrierSafe` | etmem/src/etmemd_src/etmemd_pool_adapter.c:43-76 | in every run scheduled = executed + queued + held; counters are reset only when each process's job ran exactly once; no queued or running job refers to a freed node |
| `RoundBarrier.EditFreesNothingHeld` | etmem/src/etmemd_src/etmemd_pool_adapter.c:52-55 | when the process list is edited nothing is queued and no thread holds a job |
| `RoundBarrier.FreedNeverUsed` | etmem/src/etmemd_src/etmemd_pool_adapter.c:52-57 | in every run a node freed by an edit is never again in the process list, queued or being run |
| `RoundBarrier.RoundEnds` | etmem/src/etmemd_src/etmemd_pool_adapter.c:43-76 | every round ends: whatever the interleaving it takes exactly four steps per process and five of the timer thread, and until then some thread can go on |
| `TaskPids.KeptOrDropped` | etmem/src/etmemd_src/etmemd_task.c:135-154 | every old node is either kept or freed, for any list and any stream |
| `TaskPids.SurvivorsRule` | etmem/src/etmemd_src/etmemd_task.c:135-154 | for any stream, a node of an ascending list survives exactly when its pid is reported and nothing as large is reported before it |
| `TaskPids.AllSurvive` | etmem/src/etmemd_src/etmemd_task.c:135-154 | every process that is still reported keeps its node exactly when each of them is reported in turn |
| `TaskPids.SurvivorsExact` | etmem/src/etmemd_src/etmemd_task.c:135-154 | with both sides ascending exactly the nodes of pids still in the stream survive |
| `TaskPids.UnsortedLosesNode` | etmem/src/etmemd_src/etmemd_task.c:146-151 | out of order, a process that is still there loses its node |
| `TaskPids.Task.Insert` | etmem/src/etmemd_src/etmemd_task.c:123-133 | links a new node at the cursor of a sound list |
| `TaskPids.Task.Update` | etmem/src/etmemd_src/etmemd_task.c:135-154 | frees the smaller nodes, then keeps the node of the pid or inserts one; the cursor is behind it |
| `TaskPids.Task.Clean` | etmem/src/etmemd_src/etmemd_task.c:91-100 | frees everything behind the cursor, each node once |
| `TaskPids.Task.ReadChildren` | etmem/src/etmemd_src/etmemd_task.c:181-206 | fails exactly at a line that is no number; otherwise the children are the stream, the survivors are the very same nodes, and exactly the others were freed; no node is lost either way |
| `TaskPids.Task.FillTarget` | etmem/src/etmemd_src/etmemd_task.c:156-179 | keeps the list when its head is the target, else frees all of it and starts anew |
| `TaskPids.Task.GetPids` | etmem/src/etmemd_src/etmemd_task.c:343-375 | the whole update, with and without children: success exactly when all inputs can be read; a failed lookup changes nothing; a failed child update leaves an empty list with every old node freed |
| `TaskPids.Task.FreeAll` | etmem/src/etmemd_src/etmemd_task.c:328-341 | frees every node of the list once |
| `TaskPids.ReconcileExact` | etmem/src/etmemd_src/etmemd_task.c:181-206 | with ascending children and stream: same nodes for surviving pids, vanished nodes freed once, children ascending again for the next round |
| `VisitStats.StatisticsExact` | etmem/src/etmemd_src/etmemd_scan.c:482-566 | for any sequence of reports m + 2 is the number of visits, the last time is the latest visit, the mean times the number of intervals is their sum, and std is -2 exactly without an interval and at least 1 with one |
| `VisitStats.LoggedAt` | etmem/src/etmemd_src/etmemd_scan.c:545-546 | a logged interval is the logarithm of the time between two consecutive visits, and -1 without any |
| `VisitStats.MeanOfIntervals` | etmem/src/etmemd_src/etmemd_scan.c:543-562 | the running average is the arithmetic mean of all logged intervals |
| `VisitStats.SpreadHistory` | etmem/src/etmemd_src/etmemd_scan.c:543-562 | for any sequence of reports and an exact root, the number of intervals times the squared spread exceeds the squared distances from the mean by at least 4, and by exactly 4 unless an update was cut at 1 |
| `ScanMerge.PageList.Update` | etmem/src/etmemd_src/etmemd_scan.c:509-586 | enters a report at its place behind the cursor, or updates the record there, and moves the cursor behind it |
| `ScanMerge.CursorIsHead` | etmem/src/etmemd_src/etmemd_scan.c:509-586 | for strictly ascending reports the cursor gives the list of a search from the head, strictly ascending |
| `ScanMerge.CursorExact` | etmem/src/etmemd_src/etmemd_scan.c:509-586 | and for no other stream |
| `ScanMerge.RepeatDisorders` | etmem/src/etmemd_src/etmemd_scan.c:509-586 | an address reported twice in a row leaves the list out of order |
| `ScanMerge.HeadRunExact` | etmem/src/etmemd_src/etmemd_scan.c:509-586 | the list holds a record for exactly the reported pages, each determined by its own reports alone |
| `ScanMerge.KindIsFirst` | etmem/src/etmemd_src/etmemd_scan.c:482-507 | the page type is that of the page's first report |
| `ScanMerge.ScansExact` | etmem/src/etmemd_src/etmemd_scan.c:509-586 | over any number of scans the list is ascending and every record carries type, count, latest visit, mean and spread of its page's own reports |
| `ScanDecode.ParseVma` | etmem/src/etmemd_src/etmemd_scan.c:723-772 | the byte loop enters exactly the reports that the stream of items means (which are they: `ScanAccess.WalkTimed`), and fails exactly at a run before any address |
| `ScanDecode.Record` | etmem/src/etmemd_src/etmemd_scan.c:644-679 | enters the pages of an aligned run one by one, and nothing for an unaligned one (with which times: `ScanAccess.RunTimes`) |
| `ScanAccess.RunTimes` | etmem/src/etmemd_src/etmemd_scan.c:644-679 | a run reports exactly the aligned pages of its range, of kinds 0 to 4 as visited in the middle of the scan, of kinds 5 to 7 as idle, with the type of the kind |
| `ScanAccess.WalkTimed` | etmem/src/etmemd_src/etmemd_scan.c:723-772 | a stream reports exactly the pages of its runs of kinds 0 to 7, as visited exactly those of kinds 0 to 4 |
| `ScanDecode.DecodeEncode` | etmem/src/etmemd_src/etmemd_scan.c:446-479 | every stream of items is read back from its bytes |
| `ScanDecode.BlockSize` | etmem/src/etmemd_src/etmemd_scan.c:72-92 | 512 base pages make up one block exactly for 4 KB pages |
| `ScanAccess.KindSizes` | etmem/src/etmemd_src/etmemd_scan.c:39-92 | page size and step of every kind: base pages, tables of eight-byte entries and tables of tables; 4 KB, 2 MB and 1 GB with 4 KB base pages |
| `ScanDecode.RunTiles` | etmem/src/etmemd_src/etmemd_scan.c:755-768 | an aligned run records exactly the pages between the address before and after it, if and only if it is no block of idle small pages or base pages are 4 KB |
| `ScanDecode.LargerBasePagesLeaveGaps` | etmem/src/etmemd_src/etmemd_scan.c:755-768 | with 16 KB base pages a block of idle small pages does not cover its range |
| `ScanDecode.WalkMerges` | etmem/src/etmemd_src/etmemd_scan.c:723-772 | a walk in which no command byte sets the address back reports in strictly ascending order, so the cursor merge is exact |
| `ScanLoop.GetPageRefs` | etmem/src/etmemd_src/etmemd_scan.c:821-877 | the buffers of all memory areas go into the list in order with one cursor; fails exactly when one of them does |
| `ScanLoop.DoScan` | etmem/src/etmemd_src/etmemd_scan.c:909-959 | all scans of a round go into one list; a failing scan leaves none |
| `ScanLoop.ScanAscends` | etmem/src/etmemd_src/etmemd_scan.c:821-877 | buffers that go upwards report in strictly ascending order from one to the next |
| `ScanLoop.VisitsAreAccesses` | etmem/src/etmemd_src/etmemd_scan.c:909-959 | of all reports of a page, the visits are the scans in which a run of kinds 0 to 4 reports it |
| `ScanLoop.DoScanExact` | etmem/src/etmemd_src/etmemd_scan.c:909-959 | from the bytes of any number of scans to the records: ascending; a record for exactly the pages that a run of kinds 0 to 7 reports; m + 2 is the number of scans in which a run of kinds 0 to 4 reports the page, the last time that of the latest of them, the mean that of the intervals between them |
| `Slide.Grading.SortPages` | etmem/src/etmemd_src/etmemd_scan.c:1078-1104 | each of the five lists holds exactly the pages of its band, with limits 0.05, 0.1, 0.2 and 0.4, as often as they were scanned, latest first |
| `Slide.Bands` | etmem/src/etmemd_src/etmemd_scan.c:1067-1073 | the list number grows with the likelihood and changes at exactly those four limits |
| `Slide.SortedByBand` | etmem/src/etmemd_src/etmemd_scan.c:1095-1101 | a page is in a list exactly when its likelihood is in the list's band |
| `Slide.Grading.Split` | etmem/src/etmemd_src/etmemd_slide.c:52-64 | without a target the pages are split by their likelihood |
| `Slide.Grading.Select` | etmem/src/etmemd_src/etmemd_slide.c:66-88 | cold pages are the first min(need, first page to stay) pages offered, the page that stopped the search is hot, all others stay in their lists |
| `Slide.SplitKeepsAll` | etmem/src/etmemd_src/etmemd_slide.c:52-64 | every page goes to exactly one of the two lists |
| `Slide.LikelyMeans` | etmem/src/etmemd_src/etmemd_slide.c:55-61 | the hot list holds only pages at or above the threshold, the cold list only pages below it |
| `Slide.HotMeans` | etmem/src/etmemd_src/etmemd_slide.c:55-58 | a page stays exactly when its likelihood is at least t percent for positive t, and more than t - 1 percent otherwise |
| `Slide.SelectionSound` | etmem/src/etmemd_src/etmemd_slide.c:66-88 | no page is lost or duplicated, no selected page is likely enough to stay, the search stops at a page that is, when the need is met or when no page is left, and an unselected page is at least as likely as a selected one unless both are in the same band |
| `Slide.TargetRespected` | etmem/src/etmemd_src/etmemd_migrate.c:266-275 | swapping out no more pages than needed never takes resident memory below the target, and one page more would |
| `Slide.TargetIsShare` | etmem/src/etmemd_src/etmemd_migrate.c:266-275 | the target is the set share of resident and swapped memory, counted in full hundreds |
| `RpcMessage.Send` | etmem/src/etmem_src/etmem_rpc.c:106-149 | refuses exactly the messages longer than 512 characters, and what is sent fits the computed buffer |
| `RpcMessage.MessageIsTemplate` | etmem/src/etmem_src/etmem_rpc.c:106-129 | the message is the client's template with the six values filled in, in the order of the template |
| `RpcMessage.BufferSuffices` | etmem/src/etmem_src/etmem_rpc.c:82-104 | the computed length always leaves room for the message and its terminator, by an amount that depends on the absent fields and the command only |
| `RpcMessage.Server.GetParamStr` | etmem/src/etmemd_src/etmemd_rpc.c:381-415 | the text up to the next blank, and none when it is empty |
| `RpcMessage.Server.Decode` | etmem/src/etmemd_src/etmemd_rpc.c:458-481 | one field is skipped, stored or refused as specified, and the index is behind it |
| `RpcMessage.Server.ParseMessage` | etmem/src/etmemd_src/etmemd_rpc.c:483-522 | the parser over the shared index computes the specified result |
| `RpcMessage.ParsedWritable` | etmem/src/etmemd_src/etmemd_rpc.c:381-481 | whatever is parsed, a stored text is non-empty, has no blank and does not start with a dash |
| `RpcMessage.DecimalBack` | etmem/src/etmemd_src/etmemd_common.c:149-169 | a number is read back from its decimal form, also behind a plus sign, exactly when it is an `int` |
| `RpcMessage.SpacesSkipped` | etmem/src/etmemd_src/etmemd_common.c:149-169 | white space in front of a number makes no difference |
| `RpcMessage.RoundTrip` | etmem/src/etmemd_src/etmemd_rpc.c:483-522 | parsing a formatted record gives back the record exactly when its present fields are non-empty, blank-free and do not start with a dash, and the command is not negative |
| `RpcMessage.DashIsLost` | etmem/src/etmemd_src/etmemd_rpc.c:449-456 | a project named "-" is read as absent |

## Left out

- Userswap.MergeExact: is about entries of whole pages; an absorbed entry that is to be skipped, or that holds part of a page, can leave the page sequences equal (`PartPageGoesUnnoticed`).
- FlowSafety.OccupancyExact: is about pages of one size, and ranges over every cold figure up to the bytes of the cold pages, not only over the 2 MB per page that the statistics give.
- ScanLoop.GetPageRefs: the read of a memory area is an input; where a read starts after the one before went too far is not modelled.
- CslideCount.Counter.CountNodePfs: takes every reported node to be a valid one; the path that frees a batch whose pages are on no node is not modelled.
- MemdcdReceiver.ReassemblySafe: handling one message, one recycle pass and one worker end are single steps, because the list head is read before the lock is taken; thread ids are not reused while a record refers to them.
- ThresholdPolicy.Parse: the comparison of visit counts is exact, as it is for non-negative counts; allocation failures are not modelled.
- ScanDecode.ParseVma: page kinds the kernel does not define are excluded, addresses do not wrap around at 64 bits, and page sizes beyond the range of `int` are not cut.
- RpcMessage.Server.ParseMessage: what follows the received text in the buffer reads as zero.
- TaskPids.Task.GetPids: allocation of a node succeeds.
- The possibility of a future visit (`update_possibility`) is an input to the slide engine; it is floating-point arithmetic with the error function.
- The 32-bit kilobyte counters of the page statistics are natural numbers here.
- RoundBarrier.RoundEnds: counts the steps that do something; a poll that finds jobs missing, sleeping and waking up, a failing push of a job and the cancelling of the thread pool are not modelled.
- Swapping pages out and in (`do_swapout`, `swapin_thread`) depends on the kernel and on callbacks.
- Projects, engines and tasks as registries, configuration files, permissions, logging, help texts, third-party engines, and writing to the damon files are not modelled: they would add only easy members.

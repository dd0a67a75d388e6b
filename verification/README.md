# Verified models of the sorting, reporting, traffic and notification code

This project models the algorithms and state machines behind several programs of the repository and
proves what they promise: that three quicksort drivers sort and stay inside their queues, that hourly and
daily reports mean the same as one report over everything, that traffic accounting neither loses nor
invents bytes, that a hash-chained registry is a map, that shared buffers keep their contents in every
interleaving, that a fixed-slot index finds what a linear scan finds, that a cached log level is exact, and
that a counter barrier really waits for its workers.

Code that works by changing things step by step is modelled by methods over arrays, objects and fields;
each method is tied to a specification function, and the promises are lemmas about that function or
invariants over all runs.

| files | what they model |
|---|---|
| Ordering, Partitioning, Worklist | comparators, sortedness, permutations; the partition and the segment queue on sequences |
| LongSwap | swapping C `long`s through an `int`, and what it means for a sort to have lost elements |
| QuickSort, QuickSortQueues | the recursive driver, the linked FIFO driver and the fixed-array driver of `cluster/quicksort/main.c` |
| LcsSort, PivotQuickSort | the comparator quicksort of the reporting library; the quicksort that places its pivot |
| Text, Rows, RowText, MergeList, RollUp | C strings, report rows, their text, merging by key, and the hour and day jobs |
| Traffic, TrafficLaws | the session table and its laws over runs of reports and takes |
| Hash, Registry, Forward | the device hash, the chained registry, and the forward list with its sender |
| SharedBuffer, SharedBufferRuns, GenList | the resetting buffer under a lock in every interleaving, and the growing buffer |
| SlotIndex, SlotLookup | the fixed-slot hash index and its two users |
| Vlog | log levels, log file, and the cached minimum level |
| Barrier, DayTotals | the fork/join counter in every interleaving, and the daily totals behind it |

## Where the code does less than it seems

Each of these is stated as a lemma with the exact condition under which the code does meet the
expectation, and most of them with an input that breaks it.

* A swap in the `long` quicksorts goes through an `int`. It keeps the elements exactly when that value
  fits an `int` (`LongSwap.SwapKeepsElements`). Every driver terminates inside its range on every array of
  `long`s, and its result is sorted exactly when no element was cut (`LongSwap.SortedExactlyIfKept`), which
  is always so for arrays of `int`s. A pair is sorted exactly when it was in order or its first element is
  an `int` (`LongSwap.PairSorted`); 2^31 before 0 is not (`LongSwap.PairLost`).
* Running the day job again without removing its old result counts everything twice, unless there were
  only zeros (`RollUp.RerunDoubles`); `RollUp.DayTwice` runs the job twice, `RollUp.RerunOfOne` shows it
  on a file of one row.
* An expired session is not closed by every report, only by one whose scan passes it
  (`TrafficLaws.ExpiryNoticedExactlyBefore`; `TrafficLaws.ExpiredStaysOpen` for a table of two).
* Sessions are regrouped by the first 24 characters of the address and 4 of the protocol, so long
  addresses can collide (`TrafficLaws.LongAddressesCollide`, `TrafficLaws.ShortNamesGroupExactly`).
* The comment above `compare_traffic_info` says that a smaller first argument gives 1. That holds exactly
  when the ports differ or the groups are equal; on one port the direction is the opposite one
  (`Traffic.CompareDirection`), as for "tcp" and "udp" (`Traffic.CompareReversed`). The model follows the
  code.
* The hash of an id is the plain polynomial exactly when all its characters are 7-bit
  (`Hash.PlainExactlyFor7Bit`); every negative `char` adds 2^64 to the sum (`Hash.NegativeCharDiffers` for
  an id of one byte).
* With `clear` not set, the sender of the forward list can send a message for an unregistered device to
  the zero address; `Forward.KeepingSendsPrefixExactlyWhen` gives the exact condition and
  `Forward.StaleReceiver` a concrete case.
* An agent whose number is not numeric is indexed under bucket 0 but never searched for, unless there is
  only one bucket (`SlotLookup.AgentFind`, `SlotLookup.NonNumericAgentLost`).
* `add_item_gen_list` reports whether locking and unlocking worked, not whether the item was added;
  `GenList.GenList.AddItem` states exactly when the result tells the one from the other.

## Model

| member | source | states |
|---|---|---|
| LongSwap.SwapKeepsElements | cluster/quicksort/main.c:112-114 | a swap through the `int` temporary keeps the multiset of elements exactly when that element fits an `int` |
| LongSwap.SortedExactlyIfKept | cluster/quicksort/main.c:85-232 | a driver's result is a sort exactly when it has the elements of the input, and always if those in the range are `int`s |
| LongSwap.SortAscends | cluster/quicksort/main.c:129-232 | a sort is the same elements, ascending in the range by `<=`, with everything outside as it was |
| LongSwap.ToInt32Meaning | cluster/quicksort/main.c:112-112 | the temporary holds the `int` with the same low 32 bits, the value itself exactly for values between -2147483648 and 2147483647 |
| LongSwap.PairSorted | cluster/quicksort/main.c:120-125 | two `long`s come out sorted exactly when they were in order or the first one is an `int` |
| LongSwap.PairLost | cluster/quicksort/main.c:120-125 | 2^31 before 0 comes out as 0 before -2^31 |
| QuickSort.Partition | cluster/quicksort/main.c:85-128 | for every array of `long`s: touches only `low..hi`; the result `j` lies in `low+1..hi` for two or more elements; unless an element was cut, it rearranges, and everything left of `j` is at most everything from `j` on |
| QuickSort.QuickSort | cluster/quicksort/main.c:129-136 | for every array of `long`s: terminates although the right half contains `j`, touches only `low..hi`, and leaves a sorted permutation unless an element was cut; always for `int`s |
| Worklist.StepWeight | cluster/quicksort/main.c:161-189 | one partition lowers the weight of the queue (sum of length minus one) by exactly one, however it splits |
| Worklist.StepQueued | cluster/quicksort/main.c:161-189 | queued segments stay inside the range and disjoint |
| Worklist.StepOrdered | cluster/quicksort/main.c:161-189 | positions that share no queued segment are in order, before and after a step, although the queue is not in position order |
| QuickSortQueues.QuickSortNonRecursive | cluster/quicksort/main.c:138-191 | the linked FIFO driver terminates on every array, with a sorted permutation unless an element was cut; an empty or one-element range is left alone |
| QuickSortQueues.QuickSortNonRecursiveImprove | cluster/quicksort/main.c:194-232 | never writes outside its two arrays of `hi-low+1` entries, queues exactly `hi-low` segments on every array, and leaves a sorted permutation unless an element was cut |
| QuickSortQueues.SlotsSentinel | cluster/quicksort/main.c:214-214 | the entry at `jump` is positive exactly while a queued segment is left |
| QuickSort.DriversAgree | cluster/quicksort/main.c:129-232 | any two drivers that sort end with the same array from the same input |
| Ordering.SortIsUnique | cluster/quicksort/main.c:129-232 | for a comparator that separates elements, two sorts of one input are equal |
| LcsSort.PartitionExt | cluster/common/lcs_common.c:428-475 | for every total preorder: a rearrangement split at `j` with `low < j <= hi`, nothing left of `j` above anything from `j` on |
| LcsSort.QuickSortExt | cluster/common/lcs_common.c:477-486 | for every total preorder: terminates with a sorted permutation of `low..hi` |
| PivotQuickSort.Partition | quicksort/quicksort.c:43-119 | through all five exits, unless an element was cut: the old first element ends at `j`, nothing larger on its left, nothing smaller on its right |
| PivotQuickSort.QuickSortAround | quicksort/quicksort.c:189-199 | recursion that leaves out `j` terminates on every array and sorts it unless an element was cut; an empty or one-element range is left alone |
| Rows.KeysMirrored | cluster/common/lcs_common.c:488-499 | the key comparison is zero exactly on equal keys and changes sign when swapped |
| Rows.KeysTransitive | cluster/common/lcs_common.c:488-499 | the key comparison is transitive, strictly if either part is strict |
| Rows.KeysAscend | cluster/common/lcs_common.c:488-499 | the comparison is negative exactly if the date comes first in dictionary order, or the dates are equal and the hour does |
| Text.StrcmpIsDictionaryOrder | cluster/common/lcs_common.c:488-499 | `strcmp` is negative exactly if the first string is a proper prefix or has the smaller character at the first difference |
| Text.PrintScan | cluster/common/lcs_common.c:526-561 | a number printed with `%d` is a token that `%d` reads back |
| Text.PrintIntForm | cluster/common/lcs_common.c:662-667 | `%d` prints a minus sign exactly for negative numbers, then decimal digits without leading zeros |
| Text.ScanNumber | cluster/common/lcs_common.c:526-561 | `%d` reads digits up to the first character that is none |
| Text.ScanDecimal | cluster/common/lcs_common.c:526-561 | a digit read behind a number multiplies it by ten and is added |
| Text.ScanSign | cluster/common/lcs_common.c:526-561 | `%d` reads one sign, and fails without a digit |
| Text.TokensConcat | cluster/common/lcs_common.c:513-578 | appending to a text that ends in a delimiter appends its tokens |
| RowText.CleanConcat | cluster/A_000005_day/a_000005_day.c:262-269 | appending one report file to another appends their rows |
| RowText.RowsRoundTrip | cluster/common/lcs_common.c:513-578 | rows printed by the merge are read back exactly, keys and all eight counters |
| RowText.RowIsLine | cluster/common/lcs_common.c:662-667 | a row is written as date, hour and the eight counters in their order, tabs between them and a newline at the end |
| RowText.OnlyNewline | cluster/common/lcs_common.c:662-667 | the newline at the end of a written line is its only one |
| RowText.CountersByField | cluster/common/lcs_common.c:526-561 | each counter read is what its field says; an unreadable field repeats the counter before it |
| RowText.RowsByTokens | cluster/common/lcs_common.c:513-578 | row `i` of a clean text is spelled by tokens `10i` to `10i+9`: date, hour and the eight counters |
| Rows.MergedIsMerge | cluster/common/lcs_common.c:628-669 | the merge has strictly increasing keys, the same keys as its input, the same sum under every key and in every column |
| Rows.MergeRowsAreSums | cluster/common/lcs_common.c:651-661 | each row of a merge carries the sums over the input rows with its key |
| Rows.MergeInNumbers | cluster/common/lcs_common.c:628-669 | a merge lists every key of its input once, ascending by date and hour, with the integer sum of each of the eight columns over the rows of the key |
| Rows.MergeIsUnique | cluster/common/lcs_common.c:598-680 | strictly increasing keys and equal totals determine the merge, so the unstable sort before it does not matter |
| MergeList.GroupPrinted | cluster/common/lcs_common.c:628-668 | the line written for a run of equal keys extends the printed merge of everything before the run |
| MergeList.Merge005List | cluster/common/lcs_common.c:598-680 | the file written is the printed merge of the rows in the list, whatever order they came in |
| MergeList.CollectSum | cluster/common/lcs_common.c:501-595 | for every text of whole rows: nothing is written without rows, otherwise the printed merge of the rows read, ascending by date and hour and with the column sums of the text |
| MergeList.CollectedReports | cluster/common/lcs_common.c:501-680 | the rows of the file written ascend by date and hour, have the keys of the text, and carry the column sums of the text |
| RollUp.HourJob | cluster/A_000005_hour/a_000005_hour.c:193-225 | the hour file is the merge of the appended 5-minute texts; missing and empty files contribute nothing |
| RollUp.DayJob | cluster/A_000005_day/a_000005_day.c:224-259 | if workers were launched, the day file is the merge of the hour files alone, whatever the old one was; otherwise the merged text begins with the old file |
| Rows.MergePiecesFirst | cluster/common/lcs_common.c:598-680 | merging pieces first and then the merged pieces gives what merging all rows at once gives |
| RollUp.DayOfHoursIsDayOfAll | cluster/A_000005_day/a_000005_day.c:238-259 | for every split of report files into hours, the day text built from hour texts equals the one built from all 5-minute texts at once |
| RollUp.DayFromScratch | cluster/A_000005_day/a_000005_day.c:188-260 | hour jobs for every hour followed by the day job leave the day file that merging all 5-minute files at once would, for every split into hours and every old day file |
| RollUp.RerunDoubles | cluster/A_000005_day/a_000005_day.c:224-259 | merging on top of an old result leaves it unchanged exactly when every sum is zero |
| RollUp.DayTwice | cluster/A_000005_day/a_000005_day.c:188-260 | the day job run twice, the second time with nothing to launch: the files are equal exactly when every sum is zero |
| RollUp.RerunOfOne | cluster/A_000005_day/a_000005_day.c:224-259 | a second run over a file of one row prints every counter doubled |
| Traffic.SessionTable.AnalyseData | notify.system/rubbish/skylab_shared_data.cc:384-493 | the table becomes the fold of all reports, in order |
| Traffic.SessionTable.Scan | notify.system/rubbish/skylab_shared_data.cc:401-441 | the scan closes expired sessions up to and including the one where it stops and leaves the later ones alone; it stops at the first session with the report's stream key, or behind the table if none has it |
| Traffic.SessionTable.UpdateSession | notify.system/rubbish/skylab_shared_data.cc:457-490 | the session found gets maxima, grown deltas, a restart of both deltas on a first update, and the cut protocol |
| Traffic.SessionTable.TakeTrafficData | notify.system/rubbish/skylab_shared_data.cc:564-684 | returns the regrouped sessions, closing ones included, and keeps the open ones in order with zero deltas |
| Traffic.CompareTrafficGroups | notify.system/rubbish/skylab_shared_data.cc:691-729 | the comparison is zero exactly for equal port, protocol prefix and address prefix, and changes sign when swapped |
| Traffic.CompareDirection | notify.system/rubbish/skylab_shared_data.cc:703-729 | a smaller first argument gives 1, as the comment promises, exactly when the ports differ or the groups are equal; on one port it gives -1 |
| Traffic.CompareReversed | notify.system/rubbish/skylab_shared_data.cc:714-718 | on one port "tcp" is smaller than "udp" and gives -1 |
| TrafficLaws.ReportedSession | notify.system/rubbish/skylab_shared_data.cc:391-491 | a report updates or appends its own stream's session; any other session can only be closed, and only if expired |
| TrafficLaws.ReportedInPlace | notify.system/rubbish/skylab_shared_data.cc:391-491 | a report moves no session; a stream without one joins at the end, as reported |
| TrafficLaws.RunUnique | notify.system/rubbish/skylab_shared_data.cc:391-491 | no run of reports and takes ever holds two sessions of one stream |
| TrafficLaws.BatchIsRun | notify.system/rubbish/skylab_shared_data.cc:391-391 | a batch read from the buffer acts as its reports one by one |
| TrafficLaws.AfterTakeSession | notify.system/rubbish/skylab_shared_data.cc:596-616 | a take removes exactly the closed sessions and clears the others |
| TrafficLaws.KeptInOrder | notify.system/rubbish/skylab_shared_data.cc:593-616 | a take keeps all open sessions in the order of the table and changes nothing but their deltas |
| TrafficLaws.Telescoping | notify.system/rubbish/skylab_shared_data.cc:391-491 | over any run in which a session stays, its counters are running maxima, and delivered plus pending is the growth on top of what was pending |
| TrafficLaws.HighestIsMaximum | notify.system/rubbish/skylab_shared_data.cc:464-473 | the running maximum is none below any reported counter, and one of them or the first |
| TrafficLaws.TakeSettles | notify.system/rubbish/skylab_shared_data.cc:593-616 | after a take exactly the growth has been delivered, also when that take drops the session |
| TrafficLaws.BeforeFirstUpdate | notify.system/rubbish/skylab_shared_data.cc:452-455 | until its first update a session inserted as a first report keeps its counters; the first take hands out what the insertion had pending |
| TrafficLaws.TelescopingFromFirst | notify.system/rubbish/skylab_shared_data.cc:474-479 | from the insertion on, with any steps in between: the first update starts over with the whole counter and the run telescopes from there, on top of what a take handed out before |
| TrafficLaws.DescriptionIsLastReported | notify.system/rubbish/skylab_shared_data.cc:459-488 | over the same runs, time, port, protocol and address are the last ones reported; an empty string or a port of zero reports nothing |
| TrafficLaws.SaysWhat | notify.system/rubbish/skylab_shared_data.cc:459-488 | a report says a port above zero, at most four characters of a protocol, at most 63 of an address |
| TrafficLaws.ClosedFlag | notify.system/rubbish/skylab_shared_data.cc:407-480 | over any run in which a session stays, it is closed as its last own report says, unless a report of another stream noticed its expiry later |
| TrafficLaws.TakeDropsClosed | notify.system/rubbish/skylab_shared_data.cc:593-616 | a take after such a run drops the session exactly if it is closed in that sense |
| TrafficLaws.ClosingReportLeaves | notify.system/rubbish/skylab_shared_data.cc:480-480 | a take after a report drops the stream's session exactly if the report closes it |
| TrafficLaws.ExpiryNoticedExactlyBefore | notify.system/rubbish/skylab_shared_data.cc:401-441 | a report closes another stream's expired session exactly when it lies before the point where the scan stops |
| TrafficLaws.NoticedCloses | notify.system/rubbish/skylab_shared_data.cc:407-410 | the session of another stream is closed after a report exactly if it was, or if it is silent for more than 600 seconds and stands before the session the scan stops at |
| TrafficLaws.ScanEndIsFirst | notify.system/rubbish/skylab_shared_data.cc:401-441 | the scan stops at the first session of the stream, or behind the table |
| TrafficLaws.ExpiredStaysOpen | notify.system/rubbish/skylab_shared_data.cc:401-441 | a report for the first of two sessions leaves the expired second one open |
| TrafficLaws.TakeConserves | notify.system/rubbish/skylab_shared_data.cc:628-680 | records have pairwise different groups, the table's groups and no other, each group's sum and the overall sum are kept, nothing stays pending |
| TrafficLaws.RecordIsGroupTotal | notify.system/rubbish/skylab_shared_data.cc:655-668 | a record carries exactly the sum over the table's sessions of its group |
| TrafficLaws.RecordsAreFirstSessions | notify.system/rubbish/skylab_shared_data.cc:628-680 | the records are, but for their deltas, the first sessions of their groups, in the order of the table |
| TrafficLaws.ReportedTotal | notify.system/rubbish/skylab_shared_data.cc:452-479 | one report adds to the pending total its own delta, or the whole counter less the delta it replaces, or the growth of the counter, as its stream is new, at its first update, or known |
| TrafficLaws.RunConserves | notify.system/rubbish/skylab_shared_data.cc:391-680 | over any run and all streams, what the records of all takes carry plus what is pending is what was pending plus what the reports added |
| TrafficLaws.RunStorable | notify.system/rubbish/skylab_shared_data.h:30-31 | while reports fit their fields so does every session, and the copied address is never cut |
| TrafficLaws.ShortNamesGroupExactly | notify.system/rubbish/skylab_shared_data.cc:715-720 | within the compared lengths, sharing a record means equal port, protocol and address |
| TrafficLaws.SharedRecordExactly | notify.system/rubbish/skylab_shared_data.cc:709-722 | two sessions share a record exactly if their ports, four characters of the protocols and 24 of the addresses agree |
| TrafficLaws.LongAddressesCollide | notify.system/rubbish/skylab_shared_data.cc:720-720 | two different IPv6 addresses that fit the field and agree in 24 characters share a record |
| Hash.HashFunc | notify.system/msg_notify.c:147-162 | always below the table size; for ids up to 1200 characters the closed form, without 32-bit overflow |
| Hash.PlainExactlyFor7Bit | notify.system/msg_notify.c:158-158 | the hash is the sum of `id[i]*71^i` modulo 10001 exactly for ids of 7-bit characters |
| Hash.NegativeCharDiffers | notify.system/msg_notify.c:158-158 | the one-byte id 255 hashes to 6498, the polynomial gives 10000 |
| Registry.Registry.Register | notify.system/msg_notify.c:180-269 | returns 1 exactly when the id is new; the map gains the id without an address and is otherwise unchanged; bucket counts, hashes and uniqueness are kept |
| Registry.Registry.Track | notify.system/msg_notify.c:273-340 | returns 1 exactly when the id is known and then changes exactly its binding |
| Registry.ReplacedFinds | notify.system/msg_notify.c:329-329 | replacing the address of one item changes the lookup of its id only |
| Forward.ForwardList.Add | notify.system/msg_notify.c:374-390 | the newest message goes in front |
| Forward.ForwardList.SendToDst | notify.system/msg_notify.c:538-669 | detaches the whole list; what is sent, the count and the error flag follow the routing loop, stale receiver included |
| Forward.ClearingSendsPrefix | notify.system/msg_notify.c:574-667 | with `clear`, exactly the longest newest-first deliverable prefix is sent, each once to its target's address; the flag tells whether it stopped at an unregistered target |
| Forward.ClearingRoutes | notify.system/msg_notify.c:574-625 | with `clear`: a message from a client for a notifier goes to its `ntf_id`, one of the four other routes to its `dev_id`; a message of any other route ends the batch with flag 0, an unregistered receiver with flag 1 |
| Forward.KeepingRoutes | notify.system/msg_notify.c:574-666 | without `clear`: the same, but a later message whose unregistered receiver shares a bucket with a registered device goes to address zero |
| Forward.KeepingSendsPrefixExactlyWhen | notify.system/msg_notify.c:604-666 | without `clear` the same holds exactly when no sent message is followed by an unregistered target in a non-empty bucket |
| Forward.StaleReceiver | notify.system/msg_notify.c:604-666 | a concrete batch whose second message goes to the zero address |
| Forward.EveryPushInOnePlace | notify.system/msg_notify.c:374-390 | in every interleaving of pushes and detaches, the pushed messages are the detached batches and the rest of the list, in order |
| SharedBuffer.SharedData.Write | common/shared_data.c:288-366 | a message with `n + used + header < total` is appended, any other one replaces everything unread; reports the reader's sleep; argument and lock errors change nothing; the region is full to its last byte only after a message of that size |
| SharedBuffer.SharedData.Read | common/shared_data.c:368-446 | hands out and clears the whole contents and wakes, or marks the reader sleeping when there is nothing |
| SharedBufferRuns.StepKeepsInv | common/shared_data.c:288-446 | every small step of every process keeps the invariant tying buffer, lock and history |
| SharedBufferRuns.OthersWait | common/shared_data.c:315-318 | while one process is in its critical section no other changes the buffer |
| SharedBufferRuns.WriteSection | common/shared_data.c:325-348 | the small steps of a write section add up to what the write promises; it fills the region to its last byte exactly if its message alone does |
| SharedBufferRuns.WriteLikeSection | common/shared_data.c:325-348 | on a state like its own the write method discards in the same cases and ends with the same buffer as the small steps |
| SharedBufferRuns.ReadSection | common/shared_data.c:409-424 | the small steps of a read section on a buffer that holds something take exactly what is pending, clear it and leave the reader awake |
| SharedBufferRuns.EmptyReadSection | common/shared_data.c:409-413 | on an empty buffer it takes nothing and marks the reader as sleeping |
| SharedBufferRuns.FreeLockSettled | common/shared_data.c:288-446 | in every interleaving, with the lock free, the buffer is what was written since the last read or reset and lies inside the region, with `used + header < total` if that holds for the longest message |
| SharedBufferRuns.BytesConserved | common/shared_data.c:330-344 | bytes written are bytes read, discarded by resets, or pending |
| SharedBufferRuns.ReadReturnsWrites | common/shared_data.c:409-424 | a non-empty read returns the in-order concatenation of the writes since the last non-empty read or reset |
| SharedBufferRuns.WritesReportSleep | common/shared_data.c:330-334 | a write reports sleeping exactly when an empty read came before it with no non-empty read in between |
| GenList.RoundUpIsLeast | notify.system/gen_list.c:77-81 | rounding up gives the least sufficient multiple of the step |
| GenList.StepsOf32K | notify.system/gen_list.c:36-36 | the step is 32768 bytes |
| GenList.GenList.Reserve | notify.system/gen_list.c:74-91 | growth picks the least sufficient multiple of the step and keeps the contents |
| GenList.GenList.AddItemTraffic | notify.system/gen_list.c:38-100 | appends the item, sets the flag exactly when the buffer was empty, keeps capacity sufficient; bad arguments change nothing |
| GenList.GenList.AddItem | notify.system/gen_list.c:9-33 | returns the result of locking or unlocking, also when the item was refused; zero tells that something was added exactly if the lock fails, or if the item is accepted and unlocking works, or neither |
| GenList.GenList.GetData | notify.system/gen_list.c:102-137 | hands out everything pending; all additions are what was handed out followed by what is pending |
| SlotIndex.SlotTable.Write | cluster/shmcreate_audd/main.c:251-298 | stores the row and indexes it in its bucket exactly if a slot is left |
| SlotIndex.SlotTable.Find | cluster/A_000009_05m/main.c:289-306 | finds the first indexed row of the bucket with the key, and nothing exactly if no indexed row has it |
| SlotIndex.BucketSearchAgrees | cluster/A_000009_05m/main.c:289-306 | bucket search finds the first row with the key exactly when fewer than `width` earlier rows share its bucket |
| SlotIndex.RankCounts | cluster/shmcreate_audd/main.c:266-277 | the rank of a row in its bucket is the number of earlier rows of its class |
| SlotIndex.WindowRank | cluster/shmcreate_audd/main.c:266-277 | different ids inside `width*n` consecutive values fill no bucket beyond its slots |
| SlotLookup.AuddWrite | cluster/shmcreate_audd/main.c:251-298 | a call detail joins the bucket of its id modulo the row count |
| SlotLookup.AuddFind | cluster/A_000009_05m/main.c:287-306 | returns the linear scan's row if fewer than two earlier rows have the remainder of the id, otherwise nothing |
| SlotLookup.AuddWindowComplete | cluster/A_000009_05m/main.c:287-306 | with different ids in a window of `2n` the search is the linear scan for every key |
| SlotLookup.ThirdIsLost | cluster/A_000009_05m/main.c:289-306 | a third row of one remainder is not among those the search finds |
| SlotLookup.AgentWrite | cluster/shmcreate/main.c:242-271 | an agent joins the bucket of its number, of 0 if it is no number |
| SlotLookup.AgentFind | cluster/A_000009_05m/main.c:308-326 | returns the linear scan's row if fewer than four earlier rows have the remainder of its number and it is a number or there is one bucket, otherwise nothing |
| SlotLookup.AgentWindowComplete | cluster/A_000009_05m/main.c:308-326 | with different numbers in a window of `4n` every agent is found |
| SlotLookup.NonNumericAgentLost | cluster/A_000009_05m/main.c:308-310 | a non-numeric agent is indexed under 0 and searched under -1 |
| Vlog.VlogModule.UpdateMinLevel | log/vlog.c:259-273 | the cache becomes the highest level of the active destinations |
| Vlog.VlogModule.Destinations | log/vlog.c:1101-1118 | which destinations a message goes to, and whether it goes anywhere |
| Vlog.Vlog.InsertModule | log/vlog.c:215-221 | a freshly defined module joins with its cache in step |
| Vlog.Vlog.SetDestinationLevel | log/vlog.c:275-294 | sets one destination of one module or of all, and nothing else, with every cache in step |
| Vlog.Vlog.SetLevels | log/vlog.c:299-313 | wildcards over modules and destinations set exactly the levels they cover |
| Vlog.Vlog.SetLogFile | log/vlog.c:349-419 | failure or the same file change nothing; otherwise the new file is installed with every cache in step |
| Vlog.Vlog.Close | log/vlog.c:709-729 | no file is open afterwards and every cache is in step |
| Vlog.EnabledExactlyIfEmits | log/vlog.c:943-947 | a cache in step answers exactly whether a message reaches a destination |
| Vlog.CacheExact | log/vlog.c:943-947 | in every valid state the quick check of every listed module is exact for every level |
| Vlog.Vlog.PerformAll | log/vlog.c:215-419 | over any run of insertions, level settings, and opening and closing of the file, the state is what the operations make of it one by one, and at its end every quick check is exact |
| Vlog.LevelIsLastSet | log/vlog.c:299-313 | over any run, a destination of a module has the level of the last setting that covers it |
| Barrier.LaunchKeepsInv | cluster/A_000001_day/main.c:177-212 | every step of the launching thread keeps counter, workers and files related |
| Barrier.WorkKeepsInv | cluster/A_000001_day/main.c:327-354 | every step of every worker does too |
| Barrier.LeftMeansAllDone | cluster/A_000005_day/a_000005_day.c:200-236 | in every interleaving and with either launch order, past the poll loop all spawned workers are done and all wanted files exist |
| Barrier.OneWorkerForEachMissing | cluster/A_000005_day/a_000005_day.c:200-222 | when the launching thread polls, exactly one worker was created for each wanted file that was missing, and none for a file that existed |
| Barrier.NeverStuck | cluster/A_000005_day/a_000005_day.c:228-236 | from every state of every run some continuation leaves the poll loop |
| Barrier.CounterBounds | cluster/manager/manager.c:616-641 | counting first keeps the counter non-negative; creating first lets it reach -1 and no less |
| Barrier.CounterDips | cluster/manager/manager.c:628-629 | a run in which the manager's counter is -1 |
| DayTotals.CollectLines | cluster/A_000001_day/main.c:257-290 | over the text of a file, each disposition's counter grows by the counts of the lines that name it, modulo 2^32 |
| DayTotals.LineReads | cluster/A_000001_day/main.c:272-272 | a line of digits, a tab and a name counts the number for the name, whatever follows a blank |
| DayTotals.KeyOfName | cluster/A_000001_day/main.c:275-286 | a name stands for the one disposition, of ANSWERED, BUSY, FAILED and NO ANSWER, that begins with it |
| DayTotals.DayJob | cluster/A_000001_day/main.c:214-248 | the text written has one line for each disposition, with the sum over all hour files, modulo 2^32; missing and empty files count for nothing |
| DayTotals.TotalsText | cluster/A_000001_day/main.c:241-247 | the text of the totals, spelled out |
| DayTotals.SmallSumsUnreduced | cluster/A_000001_day/main.c:53-53 | sums below 4294967296 are printed as they are |
| DayTotals.TotalRoundTrip | cluster/A_000001_day/main.c:244-281 | a written total reads back as the same count for the same disposition, the two-word one included |
| DayTotals.FileRoundTrip | cluster/A_000001_day/main.c:239-281 | the text of a file of totals, split into lines again, contributes exactly its four totals |
| DayTotals.DayIsSumOfHours | cluster/A_000001_day/main.c:214-248 | over the texts the hour jobs wrote, the sums are the per-disposition sums of the hours' totals |

## Left out

- Registry.Registry.Register: does not model a device id that fills its 40-byte field without a terminating NUL, because the length taken by `strlen` then depends on the bytes after the field; memory and public-key handling are not modelled.
- Forward.ForwardList.SendToDst: encryption and the socket are taken to succeed, and no registration or tracking runs while a batch is routed, although the code reads the registry without the lock.
- Traffic.SessionTable.UpdateSession: counters are unbounded integers; the wrap of `unsigned long long` is not modelled. Strings carry no field size; the code's fields hold an address of 31 and a protocol of 6 characters.
- Traffic.CompareDirection: the null arguments of the comparison are not modelled.
- MergeList.Merge005List: the eight counters are unbounded integers; `int` overflow is not modelled, and the list of rows is a sequence of row objects instead of linked nodes.
- SharedBuffer.SharedData.Write: a message of more than `total - header` bytes is excluded, because the code then copies past the region.
- SharedBufferRuns.StepKeepsInv: a lock call that fails and a message of zero bytes are steps without effect, so only the method contracts treat them.
- GenList.GenList.GetData: reads the buffer pointer inside the lock, while callers in the code read it before.
- Barrier.LeftMeansAllDone: thread creation and the subtasks are taken to succeed; sleeping between polls only removes interleavings.
- Vlog.Vlog.SetLogFile: opening the file and comparing inodes are parameters; asynchronous writing, patterns, facilities and rate limits are not modelled.
- DayTotals.CollectLines: counts beyond `unsigned long` and names of more than 63 characters, which the C code does not define, are read like any other.
- SlotIndex.SlotTable.Write: the columns of a row other than its key are not modelled.
- The string quicksort `lcs_partition`/`lcs_quick_sort`, which is `lcs_quick_sort_ext` at `strcmp`.
- The non-recursive driver of `quicksort/quicksort.c`, which queues nothing when the pivot lands first and so does not sort.
- `vlog_fatal` and `vlog_abort`, which lower a level without refreshing the cache and then end the process.
- Sockets, databases, shared-memory mapping, signals, configuration parsing, cryptography, time windows, and the other near-identical report programs.
- Running out of memory and freeing memory.

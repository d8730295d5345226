# Word-count MapReduce over MPI and pthreads, modelled in Dafny

The repository counts the words of the files under a directory. Several variants
of the program do this:

- **`cmake-build-debug/wordcountone.cpp`**: a single-threaded walk driven by a FIFO
  of paths.
- **`main.cpp`**: a thread-pool walk on top of a work-queue manager. The queue
  manager is `cmake-build-debug/workq.c`. A global `work_count` of outstanding
  requests decides when the walk is over.
- **`wordcountmpithreaded.cpp`**: a distributed word count.
  - Rank 0 lists the input directory and deals the entries round-robin over the
    ranks. It keeps its own share and sends the others tagged messages, then sends
    every other rank one end message.
  - Every rank counts its share with a few threads.
  - The non-root ranks pack their count maps into fixed-width `kv` records. Rank 0
    adds them all into its own map and writes the result file.
- **`mapreduce.cpp`**: the same set-up and distribution code as a `MapReduce`
  class.
- **`wordcountmain.cpp`**: a word count written against that class. It has a
  `(word, 1)` mapper and a `sum_vector` reducer.
- **`mpiMR/mpiSendStr.c`** and **`mpiSendStr.c`**: two earlier
  distribution-only programs.
  - Neither keeps work on rank 0.
  - The first deals paths to ranks 1 .. world_size - 1.
  - The second's round-robin also targets rank world_size, which does not
    exist (see Findings).
  - The first ends with tag-1 messages.
  - The second ends with the string "done".

The Dafny project models each of these files as the code stands. Four places where
the code goes wrong are listed under Findings. For each of them the model has one
member that does what the code does and one member with the evident correction:
- `ThreadedWalk.ThreadedWalk.EngineAsWritten` and `RunAsWritten`, next to the corrected
  `Engine` and `Run`;
- `SendStr`'s `...AsWritten` members, next to `WorkersOnly`;
- `Shuffle.KeyCopyAsWritten`, next to `Shuffle.KeyField`;
- `SendStr.PathMaxAsWritten`, next to `SendStr.EngineReceivesShare`.

**How the environment is represented:**
- The filesystem is a finite tree of `Node`s. This covers:
  - what `stat` reports;
  - whether `opendir` and `ifstream::open` succeed;
  - the `readdir` listing with its "." and ".." entries and `d_type`;
  - file contents.
- MPI point-to-point traffic is the sequence of messages rank 0 sends. Each rank's
  inbox is the subsequence addressed to it, in sending order.
- Every mutex-protected section of the work queue is one method of a class. It
  works over a real linked list of heap nodes.
- Waits, timeouts and system-call results are parameters.

**Modules:**
- **`Common`, `CStrings`, `Words`, `CountMaps`, `KeyOrder`, `FileTree`,
  `Messages`, `Limits`, `OutputFormat`**: what the programs share.
  - paths;
  - C strings in fixed buffers;
  - whitespace tokens and counting;
  - sum-merge of count maps;
  - `std::map` key order;
  - the filesystem;
  - messages;
  - `pathconf` limits;
  - the output file.
- **`WorkQueue`**: `cmake-build-debug/workq.c`.
- **`SequentialWalk`**: `cmake-build-debug/wordcountone.cpp`.
- **`ThreadedWalk`**: `main.cpp`.
- **`Distribution`**, **`MpiThreaded`** and **`Shuffle`**:
  `wordcountmpithreaded.cpp`, whose distribution code is shared with
  `mapreduce.cpp`.
- **`MapReduce`**: the `MapReduce` class of `mapreduce.cpp`.
- **`WordCountMain`**: `wordcountmain.cpp`.
- **`WorkersOnly`**: `mpiMR/mpiSendStr.c`.
- **`SendStr`**: `mpiSendStr.c`.

**Notes on the code:**
- **Separator.** `main.cpp` and `wordcountone.cpp` write `key value` with a space.
  Only the threaded MPI program uses a tab. `OutputFormat.WriteToFile` takes the
  separator as a parameter.
- **`masterSendPath`.** It hands out every entry other than "." and "..", not only
  regular files. Only `distributeTask` filters on `DT_REG`.
- **`distributeTask`.** An entry whose `stat` fails is still recorded.
- **Non-directory input.** It is handled differently in each variant:
  - `wordcountmpithreaded.cpp` and `mapreduce.cpp` call `exit(1)` in
    `masterSendPath`, and `MPI_Abort` in `distributeTask`;
  - `mpiMR/mpiSendStr.c` just sends the end messages;
  - `mpiSendStr.c` just sends "done".
- **`reduce`.** It sends one record per key with that key's total, not one per
  emitted value.

## Model

| member | source | states |
|---|---|---|
| `Common.JoinPath` | main.cpp:114-116 | the new path is the directory, then one '/', then the entry name, and nothing else |
| `Common.JoinPathInjective` | cmake-build-debug/wordcountone.cpp:88-90 | two entries of one directory give the same path only when their names are equal, so no path is queued twice |
| `Common.JoinPathHasSlash` | mpiSendStr.c:85-87 | a joined path always holds a '/', so it can never spell a slash-free marker such as "done" |
| `CStrings.StrcpyInto` | wordcountmpithreaded.cpp:163-166 | `char newpath[path_max]` after the copy holds the path, then a NUL, in exactly `path_max` characters; the copy needs the path and its NUL to fit |
| `CStrings.CStr` | wordcountmpithreaded.cpp:211 | `string(buf)` is the NUL-free prefix of the buffer, ending at the first NUL or at the end of the buffer |
| `CStrings.CStrUnique` | mapreduce.cpp:222 | a NUL-free prefix that stops at a NUL or at the buffer end is exactly what `string(buf)` reads |
| `CStrings.StrcpyRoundTrip` | wordcountmpithreaded.cpp:174 | a NUL-free path shorter than `path_max` survives being copied into the buffer, sent, and read back with `string(buf)` |
| `Words.WordLength` | main.cpp:46 | `file >> word` takes the longest run of non-space characters: none of them is a space and the next character, if any, is one |
| `Words.Tokens` | main.cpp:45-48 | every word `while (file >> word)` yields is a non-empty run of non-space characters |
| `Words.TokensOfUnwords` | cmake-build-debug/wordcountone.cpp:27-30 | tokenising words joined by spaces gives back exactly those words in order |
| `Words.Tally` | main.cpp:47 | the count map has a key for exactly the words that occur |
| `Words.TallyStep` | main.cpp:47 | `result[word]++` on the counts of a prefix gives the counts of the prefix one word longer: the entry of that word goes up by one, a missing one starting from 0 |
| `Words.WordCount` | main.cpp:36-51 | an unopenable file gives the empty map; otherwise the result maps each whitespace-delimited token to its number of occurrences (the same function is `cmake-build-debug/wordcountone.cpp:18-33`) |
| `CountMaps.AddCommutative` | main.cpp:85-86 | merging count maps by addition does not depend on which side is merged into which |
| `CountMaps.AddAssociative` | wordcountmpithreaded.cpp:314-318 | merging packages one after another is the same as merging their sum |
| `CountMaps.AddIdentity` | main.cpp:85-86 | merging the empty map changes nothing |
| `CountMaps.AddKeepsOtherKeys` | main.cpp:85-86 | a key absent from the file's counts keeps its presence and value in `output` |
| `CountMaps.MergeInto` | cmake-build-debug/wordcountone.cpp:63-65 | `output[kv.first] += kv.second` for every pair of `temp` yields the sum-merge of the two maps |
| `CountMaps.SumAppend` | wordcountmpithreaded.cpp:314-321 | adding up two runs of maps one after the other is merging their sums |
| `CountMaps.SumPermutation` | wordcountmpithreaded.cpp:306-312 | the sum of maps received in any order is the same |
| `CountMaps.MapEachPermutation` | wordcountmpithreaded.cpp:306-312 | permuting the packages permutes their count maps the same way |
| `CountMaps.SumEachPermutation` | wordcountmpithreaded.cpp:306-318 | adding up the counts of packages does not depend on their order of arrival |
| `CountMaps.CountsAppend` | main.cpp:82-86 | counting two texts separately and merging the maps is counting the two one after the other |
| `KeyOrder.LessIrreflexive` | main.cpp:57 | no key sorts before itself under `std::string`'s `operator<` |
| `KeyOrder.LessTransitive` | main.cpp:57 | the key order is transitive |
| `KeyOrder.LessTotal` | main.cpp:57 | any two distinct keys are ordered one way or the other |
| `KeyOrder.AscendingKeys` | main.cpp:56-58 | iterating a `std::map` visits every key once, in strictly ascending order |
| `KeyOrder.AscendingUnique` | wordcountmpithreaded.cpp:344-346 | two strictly ascending key sequences with the same keys are equal, so the file order depends only on the key set |
| `FileTree.ChildrenAppend` | cmake-build-debug/wordcountone.cpp:75-94 | the requests a listing produces keep the listing order: the listing split in two gives the requests of both halves, one after the other |
| `FileTree.ChildrenOne` | cmake-build-debug/wordcountone.cpp:83-92 | a single entry produces no request when it is "." or "..", and otherwise the one request `path + "/" + name` for its node |
| `FileTree.Paths` | cmake-build-debug/wordcountone.cpp:92 | the queued paths, in queue order, one per request |
| `FileTree.ChildrenCounts` | main.cpp:100-122 | replacing a readable directory by the requests for its entries keeps what remains to be counted |
| `FileTree.ChildrenBlocked` | cmake-build-debug/wordcountone.cpp:70-74 | the requests of a readable directory lead to an unopenable directory exactly when the directory itself does |
| `FileTree.ChildrenSize` | cmake-build-debug/wordcountone.cpp:83-92 | the requests of a listing stand for no more of the tree than its entries, so every walk terminates |
| `Limits.ConfiguredMax` | mapreduce.cpp:58-62 | `pathconf` returning -1 aborts when `errno` is set and gives the fallback otherwise; the limit is then incremented by one for the NUL |
| `Limits.Configure` | wordcountmpithreaded.cpp:354-366 | the configuration exists exactly when neither query aborts, and holds the two configured limits |
| `Limits.ConfiguredLimitFits` | mpiMR/mpiSendStr.c:53-54 | the `path_max++` makes room for the terminator: a NUL-free path as long as the reported or fallback limit fits the configured buffer and reads back unchanged |
| `Limits.IndeterminateDefaults` | mpiMR/mpiSendStr.c:42-54 | with both limits indeterminate and no error, `path_max` is 1025 and `name_max` 257 |
| `Messages.Inbox` | wordcountmpithreaded.cpp:204 | a rank receives only messages addressed to it, each one sent by rank 0 |
| `Messages.InboxAppend` | wordcountmpithreaded.cpp:174 | what a rank receives of two runs of sends is what it receives of each, in order (messages between two ranks do not overtake) |
| `Messages.EndMessages` | wordcountmpithreaded.cpp:192-193 | the closing loop sends `world_size - 1` end messages, the `i`-th to rank `i + 1` |
| `Messages.EndMessagesInbox` | mapreduce.cpp:203-204 | every rank 1 .. world_size - 1 receives exactly one end message and rank 0 none |
| `Messages.HasEndAppend` | wordcountmpithreaded.cpp:207-209 | work messages in front of an inbox do not change whether an end message arrives |
| `Messages.WorkBeforeEndAppend` | wordcountmpithreaded.cpp:200-214 | work messages in front of an inbox are all queued, in order, before anything that follows them |
| `Messages.ReceiveWork` | wordcountmpithreaded.cpp:196-215 | the receive loop stops exactly when a tag-1 message arrives, having pushed `string(buf)` of every earlier message onto the queue in arrival order |
| `Distribution.SendCountFair` | wordcountmpithreaded.cpp:120-131 | each `sendcounts[i]` is `numFiles / world_size` or one more, and it is one more exactly for the first `numFiles % world_size` ranks |
| `Distribution.PrefixOfCounts` | wordcountmpithreaded.cpp:132-133 | the running sum of the first `k` counts is `k` quotients plus the extra files the first `k` ranks took |
| `Distribution.CountsTotal` | wordcountmpithreaded.cpp:126-134 | all `sendcounts` add up to `numFiles` |
| `Distribution.Partition` | wordcountmpithreaded.cpp:120-134 | the loop fills `sendcounts[i]` with the fair count and `displacement[i]` with the sum of the counts before it, and the counts add up to `numFiles` |
| `Distribution.RegularFiles` | mapreduce.cpp:94-117 | the scan records at most one path per listing entry |
| `Distribution.RegularFilesSound` | mapreduce.cpp:101-106 | every recorded path is `dirPath/name` of a `DT_REG` entry that is neither "." nor ".." |
| `Distribution.RegularFilesComplete` | mapreduce.cpp:107-117 | every `DT_REG` entry other than "." and ".." is recorded |
| `Distribution.RegularFilesMembers` | mapreduce.cpp:101-117 | a path is recorded exactly when it belongs to a regular, non-dot entry |
| `Distribution.DistributeTask` | wordcountmpithreaded.cpp:55-137 | a non-directory aborts with -1 and an unopenable one with `errno`; otherwise the regular files are recorded and their number is partitioned fairly, with prefix-sum displacements |
| `Distribution.ShareSize` | wordcountmpithreaded.cpp:153-180 | dealing the entries round-robin gives rank `r` exactly the number of items the partition of `distributeTask` assigns it |
| `Distribution.ShareOfItem` | wordcountmpithreaded.cpp:168-180 | the `k`-th entry lands in the share of rank `k % world_size` |
| `Distribution.ShareStep` | wordcountmpithreaded.cpp:180 | one more item extends only the share of the rank whose turn it is |
| `Distribution.WorkSendsRanks` | wordcountmpithreaded.cpp:168-175 | no work message goes to rank 0 or outside the world, and every one carries tag 0 |
| `Distribution.SendOfInbox` | wordcountmpithreaded.cpp:172-175 | the message for the `k`-th item reaches rank `r` exactly when `k % world_size == r`, and reads back as the path |
| `Distribution.PayloadsAppend` | wordcountmpithreaded.cpp:211 | the paths read from two runs of messages are those of each run, in order |
| `Distribution.WorkSendsInbox` | wordcountmpithreaded.cpp:174 | what a rank `r > 0` receives of the work messages reads back as its share, in order, all with tag 0 |
| `Distribution.WorkPaths` | wordcountmpithreaded.cpp:154-166 | the readdir loop hands out at most one path per entry |
| `Distribution.ShareSendsStep` | wordcountmpithreaded.cpp:168-180 | one more path joins rank 0's share when its position is a multiple of `world_size`, and adds one message otherwise |
| `Distribution.EntryStep` | wordcountmpithreaded.cpp:160-166 | an entry adds nothing when it is "." or "..", and its joined path otherwise |
| `Distribution.WorkPathsStep` | wordcountmpithreaded.cpp:154-166 | the paths handed out so far plus those of the remaining entries stay the paths of the whole listing |
| `Distribution.WorkPathsDone` | wordcountmpithreaded.cpp:156-158 | once `readdir` returns NULL, the paths handed out are all of them |
| `Distribution.EntriesFitPaths` | wordcountmpithreaded.cpp:163-166 | when every joined path fits `char newpath[path_max]`, every handed-out path fits |
| `Distribution.NextRank` | wordcountmpithreaded.cpp:180 | `dest = (dest+1) % world_size` keeps `dest` equal to the next position modulo `world_size` |
| `Distribution.HandOutStep` | wordcountmpithreaded.cpp:168-180 | after one path, the queue is rank 0's share and the messages are the other ranks' shares, in both cases of `dest` |
| `Distribution.HandOut` | wordcountmpithreaded.cpp:168-180 | rank 0's paths go onto its own queue and all others into a tag-0 message to `dest`; then `dest` advances |
| `Distribution.Visit` | wordcountmpithreaded.cpp:154-181 | one pass of the readdir loop skips "." and ".." and hands out any other entry, keeping the loop's invariant |
| `Distribution.SendEntries` | wordcountmpithreaded.cpp:153-181 | after the loop, rank 0's queue has gained its round-robin share and the other shares have been sent, in listing order |
| `Distribution.SendEnds` | wordcountmpithreaded.cpp:192-193 | the closing loop appends one end message per rank 1 .. world_size - 1 |
| `Distribution.MasterSendPath` | wordcountmpithreaded.cpp:139-194 | a non-directory exits and an unopenable one returns early, neither sending anything; otherwise the entries are dealt round-robin (rank 0 keeping its share) and followed by the end messages |
| `Distribution.InboxNone` | wordcountmpithreaded.cpp:192 | a rank no message is addressed to receives nothing |
| `Distribution.DistributedWork` | wordcountmpithreaded.cpp:174-214 | end to end: rank 0 receives nothing, and every other rank queues exactly its share, in order, and sees its end message |
| `MapReduce.MapReduce.constructor` | mapreduce.cpp:17-26 | the object records the communicator's size and this rank, with an empty work queue, and runs the set-up: the limits are the configured ones, or `aborted` is set exactly when a `pathconf` query aborts |
| `MapReduce.MapReduce.SetupMachineSpecifics` | mapreduce.cpp:56-71 | the limits are set to the configured values unless a query aborts, which `aborted` records and which leaves them as they were; the queue is untouched |
| `MapReduce.MapReduce.DistributeTask` | mapreduce.cpp:73-148 | same as `Distribution.DistributeTask`, for rank 0 of the object |
| `MapReduce.MapReduce.MasterSendPath` | mapreduce.cpp:150-205 | rank 0's share joins `workqueue`, the other shares and the end messages are sent; the limits are untouched |
| `MapReduce.MapReduce.ReceiveWork` | mapreduce.cpp:207-226 | `workqueue` gains the paths before the first tag-1 message, in order, and the loop ends exactly when one arrives |
| `MpiThreaded.WordCountPath` | wordcountmpithreaded.cpp:217-248 | a regular file that opens adds its counts into `result`; directories, unopenable files and anything else add nothing |
| `MpiThreaded.Threads` | wordcountmpithreaded.cpp:271 | the number of engine threads is at most 5 and at most the queue length, at least one when there is work, and 5 once the queue holds 5 |
| `MpiThreaded.QueuedCountsStep` | wordcountmpithreaded.cpp:258-261 | popping the next path and counting it adds that path's counts |
| `MpiThreaded.SlaveMap` | wordcountmpithreaded.cpp:250-281 | draining the queue adds the counts of every queued path into `result` |
| `MpiThreaded.DrainOrderIrrelevant` | wordcountmpithreaded.cpp:252-262 | the counts of a queue are the same whatever order the threads take its paths in |
| `MpiThreaded.SharesExtend` | wordcountmpithreaded.cpp:180 | one more entry adds one copy of it to the shares of the ranks below `n` exactly when its rank is below `n` |
| `MpiThreaded.SharesPermute` | wordcountmpithreaded.cpp:153-180 | taken together, the shares of all ranks are a permutation of the listing |
| `MpiThreaded.SharesOfNothing` | wordcountmpithreaded.cpp:154-158 | an empty listing gives every rank nothing |
| `MpiThreaded.QueuedCountsAppend` | wordcountmpithreaded.cpp:252-262 | the counts of two queues one after the other are the merge of their counts |
| `MpiThreaded.RankTotalsShares` | wordcountmpithreaded.cpp:396-400 | what ranks 0 .. n - 1 count of their shares, added up, is the count of those shares one after another |
| `MpiThreaded.EveryPathCountedOnce` | wordcountmpithreaded.cpp:385-400 | added up over all ranks, every path of the listing is counted exactly once |
| `MpiThreaded.WorkerTotals` | wordcountmpithreaded.cpp:306-312 | rank 0 receives one total from each of the `world_size - 1` other ranks |
| `MpiThreaded.RankTotalsFromRoot` | wordcountmpithreaded.cpp:300-321 | the rank totals are rank 0's own count merged with the sum of the others' |
| `MpiThreaded.RootTotal` | wordcountmpithreaded.cpp:300-321 | when the maps rank 0 unpacks are the other ranks' totals, in whatever order they arrive, rank 0's final `result` is the count of every path of the listing (`Shuffle.ReduceTotal` derives the premise from the packages) |
| `Shuffle.KeyCopyAsWritten` | wordcountmpithreaded.cpp:330 | `strcpy(package[i].key, ...)` writes the word and its NUL, one character more than the word, whatever its length |
| `Shuffle.KeyField` | wordcountmpithreaded.cpp:28-31 | the key buffer always has the 128 characters of `kv.key`, and a shorter word is copied as `strcpy` copies it |
| `Shuffle.KeyFieldRoundTrip` | wordcountmpithreaded.cpp:316-317 | a NUL-free word shorter than 128 characters is read back unchanged by `result[temp.key]` |
| `Shuffle.LongWordOverflowsAsWritten` | wordcountmpithreaded.cpp:330 | a 128-character word is a token of a file, and copying it as written needs 129 characters, more than `kv.key` holds |
| `Shuffle.Records` | wordcountmpithreaded.cpp:329-332 | the package has one record per key |
| `Shuffle.BumpIsAdd` | wordcountmpithreaded.cpp:317 | `result[temp.key] += temp.value` is merging a one-key map |
| `Shuffle.RecordsOfDistinctKeys` | wordcountmpithreaded.cpp:325-332 | the records of distinct storable keys add up to the map restricted to those keys |
| `Shuffle.PackRoundTrip` | wordcountmpithreaded.cpp:325-332 | unpacking a package gives back exactly the map it was packed from, when every key is short enough and NUL-free |
| `Shuffle.Pack` | wordcountmpithreaded.cpp:325-332 | the package holds exactly `result.size()` records, one per key, in ascending key order |
| `Shuffle.MergeStep` | wordcountmpithreaded.cpp:316-317 | adding record `j` extends the merge of the records before it |
| `Shuffle.MergePackage` | wordcountmpithreaded.cpp:315-318 | every record of one package is added into `result` |
| `Shuffle.Contents` | wordcountmpithreaded.cpp:303-312 | one record sequence per received array, holding exactly its elements |
| `Shuffle.PackagesStep` | wordcountmpithreaded.cpp:314-318 | merging one more package extends the merge of the packages before it |
| `Shuffle.MergePackages` | wordcountmpithreaded.cpp:314-321 | rank 0's `result` gains the counts of every received package |
| `Shuffle.ArrivalOrderIrrelevant` | wordcountmpithreaded.cpp:306-311 | packages probed from `MPI_ANY_SOURCE` in any order give the same merged result |
| `Shuffle.PackagesCarryMaps` | wordcountmpithreaded.cpp:325-332 | unpacking the packages the workers built gives back the workers' maps, in order |
| `Shuffle.ReduceTotal` | wordcountmpithreaded.cpp:300-332 | when every worker packs its total as `reduce` does and every word is shorter than 128 characters and NUL-free, the packages merged at rank 0 in any order of arrival make rank 0's count the count of every path of the listing |
| `Shuffle.RootReduce` | wordcountmpithreaded.cpp:300-321 | rank 0's merge loop over the received arrays, starting from its own count, ends with the count of every path of the listing under the same conditions |
| `OutputFormat.Digits` | main.cpp:58 | a count is written as a non-empty run of decimal digits |
| `OutputFormat.Decimal` | main.cpp:58 | an `int` is written as digits with a leading minus sign when negative |
| `OutputFormat.DigitsRoundTrip` | main.cpp:58 | reading the digits back gives the number |
| `OutputFormat.DecimalRoundTrip` | cmake-build-debug/wordcountone.cpp:40 | reading a written count back gives the count, negative ones included |
| `OutputFormat.FirstIndex` | main.cpp:58 | the position of the first separator, with no separator before it |
| `OutputFormat.LineRoundTrip` | wordcountmpithreaded.cpp:346 | a line `key<sep>value` reads back as the key and the value when the key holds no separator |
| `OutputFormat.ConcatFront` | main.cpp:57-58 | the file is its first line followed by the rest |
| `OutputFormat.SplitConcat` | main.cpp:57-59 | splitting the written file at its newlines gives back the lines written |
| `OutputFormat.Lines` | main.cpp:57-58 | one line per key |
| `OutputFormat.LinesStep` | main.cpp:57-58 | writing one more entry appends its line |
| `OutputFormat.WriteToFile` | wordcountmpithreaded.cpp:340-349 | the file is one `key<sep>value` line per entry of the map, in strictly ascending key order, covering every key |
| `OutputFormat.OutputRoundTrip` | main.cpp:53-61 | reading the file back line by line gives every entry once, in key order, with its count |
| `OutputFormat.WordKeysReadBack` | main.cpp:46 | a word holds no space, tab or newline, so every line of a word count reads back |
| `SequentialWalk.ProcessFile` | cmake-build-debug/wordcountone.cpp:45-100 | the front is popped; a file adds its counts, a readable directory appends its non-dot entries at the back in listing order, an unopenable one exits, and anything else is dropped |
| `SequentialWalk.QueueFront` | cmake-build-debug/wordcountone.cpp:47-49 | the front item and the rest split what the queue still has to count, its size and whether it is blocked |
| `SequentialWalk.ProcessFileProgress` | cmake-build-debug/wordcountone.cpp:45-100 | a call that does not exit keeps `output` plus what the queue owes, keeps whether an unopenable directory lies ahead, and shrinks what remains |
| `SequentialWalk.Run` | cmake-build-debug/wordcountone.cpp:102-121 | the walk exits exactly when some reachable directory cannot be opened, and otherwise ends with the count of every file of the tree |
| `ThreadedWalk.Remove` | main.cpp:63-64 | handing one request to a thread leaves the others, one fewer |
| `ThreadedWalk.QueueRemove` | main.cpp:63-140 | the request taken and the rest split what the queue still has to count and its size |
| `ThreadedWalk.StartInv` | main.cpp:169-174 | the start state, `work_count` 1 with the root queued, satisfies the invariant that `work_count` counts the outstanding requests |
| `ThreadedWalk.EngineKeepsInv` | main.cpp:63-140 | every engine call on any queued request keeps `work_count` equal to the outstanding requests, keeps `output` plus what they owe equal to the tree's count, broadcasts `done` exactly when nothing is outstanding, and leaves less to do |
| `ThreadedWalk.UnreadableRootHangsAsWritten` | main.cpp:95-98 | as written, an unopenable input directory leaves nothing outstanding with `work_count` still 1 and `done` never broadcast |
| `ThreadedWalk.UnreadableOverCountsAsWritten` | main.cpp:95-98 | as written, each unopenable directory leaves `work_count` one above the outstanding requests |
| `ThreadedWalk.ThreadedWalk.constructor` | main.cpp:28-34 | the globals start empty and zero |
| `ThreadedWalk.ThreadedWalk.Start` | main.cpp:169-174 | `work_count++` and the input path becomes a request |
| `ThreadedWalk.ThreadedWalk.QueueEntries` | main.cpp:100-122 | each entry other than "." and ".." becomes a request, in listing order, and increments `work_count` once |
| `ThreadedWalk.ThreadedWalk.Finish` | main.cpp:128-139 | `work_count--`, and `done` is broadcast once the count is at most 0 |
| `ThreadedWalk.ThreadedWalk.Engine` | main.cpp:63-140 | one engine call as intended: the request is removed, a file's counts are added, a readable directory's entries are queued, and `work_count` is decremented in every case |
| `ThreadedWalk.ThreadedWalk.EngineAsWritten` | main.cpp:91-99 | as written, an unopenable directory returns before the decrement; every other request is handled as intended |
| `ThreadedWalk.AsWrittenUnblocked` | main.cpp:91-99 | with no unopenable directory ahead, the as-written engine call is the intended one and leaves no unopenable directory ahead |
| `ThreadedWalk.ThreadedWalk.Run` | main.cpp:142-185 | the corrected walk: however the threads schedule the requests, it ends with `done`, nothing outstanding, `work_count` 0 and `output` the count of every file of the tree |
| `ThreadedWalk.ThreadedWalk.RunAsWritten` | main.cpp:63-185 | the walk as written, on a tree whose directories all open: however the threads schedule the requests, it ends with `done`, `work_count` 0 and `output` the count of every file of the tree; with an unopenable directory it hangs (see Findings) |
| `WordCountMain.SumVector` | wordcountmain.cpp:77-82 | `sum_vector` returns the sum of the elements, 0 for an empty vector |
| `WordCountMain.SumIntsAppend` | wordcountmain.cpp:79-80 | the sum of two vectors one after the other is the sum of their sums |
| `WordCountMain.Emits` | wordcountmain.cpp:66-68 | one `(word, 1)` pair per token |
| `WordCountMain.MapPath` | wordcountmain.cpp:44-75 | a directory is skipped, an unopenable file returns, any other non-file aborts; a regular file emits `(word, 1)` per token in order and only then |
| `WordCountMain.Output` | wordcountmain.cpp:84-93 | `emit_final` is called once per collated key, in ascending key order, with the sum of that key's values |
| `WordCountMain.CollateLast` | wordcountmain.cpp:68 | emitting one more token appends a 1 to that token's values only |
| `WordCountMain.ReducedStep` | wordcountmain.cpp:68 | one more token keeps every word's summed values equal to its count |
| `WordCountMain.ReducedIsCount` | wordcountmain.cpp:66-68 | collating the emitted pairs gives a key per word, and summing a word's values gives its number of occurrences |
| `WorkersOnly.WorkerOf` | mpiMR/mpiSendStr.c:89-92 | the `k`-th path goes to rank `1 + k % (world_size - 1)`, a rank in 1 .. world_size - 1 |
| `WorkersOnly.Visit` | mpiMR/mpiSendStr.c:74-92 | one pass of the readdir loop skips "." and ".." and sends any other path to `slave + 1`, with `slave` advancing modulo `world_size - 1` |
| `WorkersOnly.FirstWork` | mpiMR/mpiSendStr.c:74-82 | finds whether the listing has any entry other than "." and ".." |
| `WorkersOnly.SendToWorkers` | mpiMR/mpiSendStr.c:72-93 | with a single rank the first path has no valid destination; otherwise every path is sent round-robin to the workers |
| `WorkersOnly.MasterSendPath` | mpiMR/mpiSendStr.c:58-101 | an unopenable directory returns with nothing sent; otherwise the paths are sent to ranks 1 .. world_size - 1 round-robin, and each of those ranks gets one end message, also when the input is not a directory |
| `WorkersOnly.Engine` | mpiMR/mpiSendStr.c:103-123 | the loop consumes the messages before the first tag-1 message and ends exactly when one arrives |
| `WorkersOnly.WorkerSendsRanks` | mpiMR/mpiSendStr.c:89-91 | no path goes to rank 0 or outside the world; every message has tag 0 and `path_max` characters |
| `WorkersOnly.WorkerSendInbox` | mpiMR/mpiSendStr.c:91 | the message for one path reaches exactly its worker |
| `WorkersOnly.WorkerSendsInbox` | mpiMR/mpiSendStr.c:74-92 | worker `r` receives its share of the paths, in order, all with tag 0 |
| `WorkersOnly.WorkersReceive` | mpiMR/mpiSendStr.c:99-119 | rank 0 receives nothing; every worker consumes exactly its share and then its end message |
| `WorkersOnly.EveryPathToOneWorker` | mpiMR/mpiSendStr.c:89-92 | the workers' shares together are a permutation of the listing, and each path is in its worker's share |
| `SendStr.DoneMessage` | mpiSendStr.c:96-97 | the marker is five characters in all, "done" then its NUL, with tag 0 |
| `SendStr.DoneMessageReadsDone` | mpiSendStr.c:111 | `strcmp(buf, "done")` finds the marker |
| `SendStr.DoneMessages` | mpiSendStr.c:96-97 | one marker per rank 1 .. world_size - 1 |
| `SendStr.DoneMessagesInbox` | mpiSendStr.c:97 | every rank but 0 receives exactly one marker |
| `SendStr.SlotAsWritten` | mpiSendStr.c:89-91 | as written, the destination runs over 1 .. world_size |
| `SendStr.SendsAsWritten` | mpiSendStr.c:74-92 | as written, one message per path |
| `SendStr.SendsAsWrittenAt` | mpiSendStr.c:89-91 | as written, the `k`-th path goes to rank `1 + k % world_size` with tag 0 |
| `SendStr.VisitAsWritten` | mpiSendStr.c:76-92 | one pass of the as-written loop: "." and ".." are skipped, any other path is sent to `slave + 1`, with `slave` advancing modulo `world_size` |
| `SendStr.SendEntriesAsWritten` | mpiSendStr.c:74-92 | the as-written loop sends every path of the listing by the `1 + k % world_size` rule |
| `SendStr.MasterSendPathAsWritten` | mpiSendStr.c:59-99 | an unopenable directory sends nothing, not even the marker; otherwise the paths go out as written and every rank but 0 is sent "done" |
| `SendStr.OutOfWorldAsWritten` | mpiSendStr.c:89-91 | as written, with at least `world_size` paths one of them is sent to rank `world_size`, which does not exist |
| `SendStr.TwoEntryPaths` | mpiSendStr.c:76-87 | a directory `d` listing `a` and `b` yields the paths `d/a` and `d/b` |
| `SendStr.TwoRanksAsWritten` | mpiSendStr.c:89-91 | with two ranks, the second path goes to rank 2 |
| `SendStr.Engine` | mpiSendStr.c:101-121 | the loop consumes paths until the buffer reads "done"; a message longer than the buffer truncates the receive, and an inbox that runs out blocks |
| `SendStr.PathMaxAsWritten` | mpiSendStr.c:15 | only rank 0 configures `path_max`; every other rank keeps the zero of the global |
| `SendStr.PayloadsNonEmpty` | mpiSendStr.c:90 | every message sent has at least one character |
| `SendStr.WorkersTruncateAsWritten` | mpiSendStr.c:28-34 | as written, every worker's first receive into `char buf[0]` is truncated, so no worker gets a path or the marker (for a rank sent no path, this relies on the point-to-point stand-in for the marker's `MPI_Bcast`) |
| `SendStr.WorkPathsNotDone` | mpiSendStr.c:111 | no joined path spells "done" |
| `SendStr.ShareMembers` | mpiSendStr.c:89-91 | every path in a worker's share comes from the listing |
| `SendStr.ConsumeStep` | mpiSendStr.c:110-117 | a path that fits the buffer and is not "done" is consumed and the loop goes on |
| `SendStr.ConsumeWork` | mpiSendStr.c:105-118 | a run of such paths is consumed in order before whatever follows |
| `SendStr.WorkerInboxFits` | mpiSendStr.c:109-111 | with the corrected destinations, what worker `r` receives fits its buffer, never reads "done", and is its share |
| `SendStr.EngineReceivesShare` | mpiSendStr.c:105-118 | with the corrected destinations and `path_max` configured on every rank, each worker consumes exactly its share, in order, and stops at "done" |
| `SendStr.Start` | mpiSendStr.c:39-56 | a failing `pathconf` aborts before anything is sent; otherwise rank 0 distributes with the configured `path_max` |
| `WorkQueue.Element.constructor` | cmake-build-debug/workq.c:147-150 | a new element holds the request and links to nothing |
| `WorkQueue.WorkQ.constructor` | main.cpp:23 | the global `workq_t` starts with every field zero and the queue empty |
| `WorkQueue.WorkQ.Init` | cmake-build-debug/workq.c:12-44 | the first failing initialisation is returned and nothing is set; otherwise the queue is valid, empty, not quitting, with `parllelism` the thread count and `idle` and `counter` 0 |
| `WorkQueue.WorkQ.Add` | cmake-build-debug/workq.c:138-173 | `EINVAL` on an invalid queue, `ENOMEM` or the lock error before linking, all without change; otherwise the request is appended at the tail, and a server is counted only while fewer than `parllelism` run and `pthread_create` succeeds; `idle` stays 0 and `counter` never exceeds `parllelism` |
| `WorkQueue.WorkQ.Link` | cmake-build-debug/workq.c:154-156 | the new element becomes `first` of an empty queue or follows `last`, and becomes `last` |
| `WorkQueue.WorkQ.IsEmpty` | cmake-build-debug/workq.c:74 | `first == NULL` exactly when no request is queued |
| `WorkQueue.WorkQ.Dequeue` | cmake-build-debug/workq.c:90-94 | the head is removed and returned and the rest keeps its order; `last` is cleared when the head was the only element |
| `WorkQueue.WorkQ.RetireOnQuit` | cmake-build-debug/workq.c:110-117 | with no work and `quit` set the server leaves, decrementing `counter` once, and broadcasts exactly when it brings `counter` to 0 |
| `WorkQueue.WorkQ.RetireOnTimeout` | cmake-build-debug/workq.c:122-125 | a timed-out server leaves, decrementing `counter` once, only when no work arrived meanwhile |
| `WorkQueue.WorkQ.RetireOnWaitError` | cmake-build-debug/workq.c:81-85 | a failed wait makes the server leave at once, decrementing `counter` |
| `WorkQueue.WorkQ.ServeStep` | cmake-build-debug/workq.c:66-127 | one pass of the server loop takes the head if there is one and leaves, decrementing `counter` once, when no work is left and `quit` is set or the wait ended |
| `WorkQueue.WorkQ.Serve` | cmake-build-debug/workq.c:54-134 | a server that gets the lock runs every queued request in FIFO order and then leaves, decrementing `counter` exactly once |
| `WorkQueue.WorkQ.AwaitServers` | cmake-build-debug/workq.c:199-202 | the wait loop returns only once `counter` is 0, the servers having run every queued request in order, or with the first failing wait's status |
| `WorkQueue.WorkQ.Destroy` | cmake-build-debug/workq.c:180-209 | `EINVAL` on an invalid queue, and the lock's status with nothing changed when the lock fails; otherwise `valid` is cleared so later adds fail and `quit` is set when servers run (kept if already set). If servers run, the call waits until `counter` is 0 with every queued request run, or returns a failing wait's status with the queue as it was. With no server, the queue is left as it was and queued requests are never run. When no wait fails, the first failing teardown status is returned |

## Left out

- **MPI runtime.** `MPI_Init`, `MPI_Barrier`, `MPI_Probe`/`MPI_Get_count`, `MPI_Type_struct`, `MPI_Abort` and `MPI_Finalize` are not modelled. Sends become a sequence of `Message`s, and receives read a rank's inbox.
- **MPI receive errors.** An error is printed and the loop goes on, so the model ignores it.
- **A send to a rank that does not exist.** This is an MPI error. The model records the destination instead of aborting.
- **The marker in `mpiSendStr.c`.** It is sent with `MPI_Bcast` but received with `MPI_Recv`. MPI does not match these, so the marker is modelled as one point-to-point tag-0 message per rank.
- **Threads and locks.**
  - Thread creation, detaching and joining are not modelled.
  - Each mutex-protected section is one atomic method.
  - Each mutex, condition-variable and lock failure inside `workq_server` becomes a parameter or is not modelled.
  - The 2-second `pthread_cond_timedwait` becomes "the wait ended".
- **Races between threads.**
  - The scheduling of `main.cpp`'s engine threads is a nondeterministic choice of request.
  - The race between `workq_add` and `work_count++` in main.cpp:117-121 is not modelled, because each engine call is one step.
- **WorkQueue.WorkQ.Serve: no other thread.** It models one server running while no other thread touches the queue. Interleavings of several servers with adds are not modelled.
- **WorkQueue.WorkQ.Destroy: one wait status.** It takes a single status for all the condition waits in its loop. A wait that fails after some servers have left is not modelled.
- **Filesystem and OS calls.**
  - The filesystem is given as data.
  - `stat` follows links, so `S_ISLNK` after `stat` is never true, and the "link" branches of main.cpp:73, wordcountone.cpp:58, wordcountmpithreaded.cpp:221 and wordcountmain.cpp:49 have no model.
  - A `stat` that fails (uninitialised `st_mode` in the code) is `Missing`, neither a file nor a directory.
  - `readdir` errors are not modelled.
- **Fields in `distributeTask` that are not modelled.**
  - File sizes and `totalSize` are only accumulated, never used.
  - `filesPerTask` is broadcast before it is initialised.
  - On non-root ranks `numFiles` is uninitialised, so only rank 0's `distributeTask` is modelled.
- **Memory management.** `malloc`/`free` of queue nodes and `new`/`delete` of paths and packages are not modelled. This includes `delete` on `new[]` memory in main.cpp:97 and 127.
- **Timing output.** `clock()` and the `double` elapsed time of main.cpp:200-206 are I/O and floating point.
- **Integer widths.** Counts, `int` values in `kv`, `sendcounts` and `work_count` are unbounded integers, so `int` overflow is not modelled.
- **`strcpy` into `char newpath[path_max]`.** In `Distribution`, `MapReduce`, `WorkersOnly` and `SendStr`, overflow is excluded by a precondition (`EntriesFit`), which the code demands of its input.
- ThreadedWalk.ThreadedWalk.Start, QueueEntries, Run and RunAsWritten: the model has no `path_max`. main.cpp:166-167 copies the input path, and main.cpp:112-116 builds every child path, with `strcpy`/`strcat` into `new char[path_max]`. A tree whose paths reach `path_max` overflows that heap buffer, but the model walks it normally.
- Shuffle.Pack: packs with the bounded copy `Shuffle.KeyField`, not with the `strcpy` of wordcountmpithreaded.cpp:330. A word of 128 or more characters becomes its first 127, and a key holding a NUL is cut at the NUL. The as-written overflow is exhibited under Findings.
- **Stubs with no behaviour.**
  - `mapper`, `reducer`, `emit` and `sort_and_shuffle` in mapreduce.cpp:35-53 are empty.
  - keyvalue.cpp only allocates, and wordcountmpi.cpp, simpleSend.c and helloworld.c are MPI hello-world programs.
  - `wordcountmain.cpp` calls the `MapReduce` interface, whose collation is not implemented in the repository. `WordCountMain.Collate` stands for it.
- MpiThreaded.SlaveMap: `DEBUG` is defined, and the `DPRINTF` at wordcountmpithreaded.cpp:266 calls `workqueue.front()` first. That is undefined for a rank with an empty share, for example ranks 1 and 2 of three ranks with one file. The model treats the empty queue as draining nothing.
- ThreadedWalk.ThreadedWalk.Engine and EngineAsWritten: main.cpp:78-80 forms and prints `&path[len-4]`. For a file path shorter than 4 characters, such as "d/a", that points before the buffer. The model leaves this debugging print out.
- MapReduce.MapReduce: mapreduce.cpp does not compile as written. It defines non-template `MapReduce::` members of the class template declared in mapreduce.h, and `masterSendPath(char*, queue<string>&)` does not match the declaration `void masterSendPath();` there. The module models the evident bodies. Rank 0's share goes to the `workqueue` field, where mapreduce.cpp:181 pushes onto its `masterWQ` argument.
- **OutputFormat.WriteToFile: text only.** It returns the text written. Opening and closing the file are not modelled.

## Findings

| source | as written | input that shows it | evidently intended | confidence | as-written member | corrected member |
|---|---|---|---|---|---|---|
| mpiSendStr.c:89-91 | `slave = (slave+1) % world_size`, `dest = slave + 1` sends to ranks 1 .. world_size | two ranks and a directory `d` with entries `a`, `b`: `d/b` is sent to rank 2, which does not exist | `slave` modulo `world_size - 1`, as in mpiMR/mpiSendStr.c:92 | high, not executed | `SendStr.TwoRanksAsWritten` | `WorkersOnly.WorkerSendsRanks` |
| main.cpp:95-98 | an unopenable directory returns before `work_count--` | an unopenable input directory: `work_count` stays 1, `done` is never broadcast, `start` waits for ever | decrement and broadcast on every path out of `engine` | high, not executed | `ThreadedWalk.UnreadableRootHangsAsWritten` | `ThreadedWalk.EngineKeepsInv` |
| wordcountmpithreaded.cpp:330 | `strcpy(package[i].key, word)` into `char key[128]` | a file holding a 128-character word: 129 characters are written into 128 | a bounded copy that keeps the key and its NUL in the buffer | high, not executed | `Shuffle.LongWordOverflowsAsWritten` | `Shuffle.KeyFieldRoundTrip` |
| mpiSendStr.c:28-34 | only rank 0 calls `start`, so other ranks size `buf` with `path_max` still 0 | any run with two ranks and one file: the worker's first receive into `char buf[0]` is truncated | every rank configures `path_max`, as mpiMR/mpiSendStr.c:28 does | medium, not executed | `SendStr.WorkersTruncateAsWritten` | `SendStr.EngineReceivesShare` |

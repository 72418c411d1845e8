# A verified model of the Redis core

This project models the self-contained algorithms and protocols of the Redis 2.9.11 core
(`lib/src`) in Dafny and proves what they promise:

| part | files | source |
|---|---|---|
| Hash table with incremental rehashing, safe iteration and SCAN | `Words`, `DictTables`, `Dict`, `DictScan`, `DictIterator` | `dict.c` |
| LZF compression | `LzfFormat`, `Lzf` | `lzf_c.c`, `lzf_d.c` |
| Partial quicksort | `Pqsort` | `pqsort.c` |
| Cluster slots and failover election | `ClusterSlots`, `ClusterElection` | `cluster.c` |
| Append-only file | `AofFormat`, `AofRewrite`, `AofSnapshot`, `AofBuffer`, `AofServer` | `aof.c` |
| Integer set | `Intset` | `intset.c` |
| MULTI, EXEC and WATCH | `Multi` | `multi.c` |
| Event-port back end of the event loop | `EventPort` | `ae_evport.c`, `ae.c` |
| BITOP and BITCOUNT | `Bitops`, `Popcount` | `bitops.c` |
| Doubly linked list | `Adlist` | `adlist.c` |

`Common` holds two types that several modules share. `dafny verify dfyconfig.toml` verifies everything.

Code that updates state in place is a class or a method on an array, and its contract ties the new state
to a function of the old one, or states outright what the source promises. What holds over whole runs is
proved as lemmas about those functions.

Machine words are natural numbers with the bitwise operators defined on their binary digits (`Words`), so
that word tricks are proved for every word. Only sizes that the source fixes are literal (64-bit addresses
in LZF, 32-bit words in BITCOUNT, 2048-byte slot bitmaps, the buffer sizes of the append-only file).

## Where the code does not do what is written about it

- The comment at `dict.c:673-674` promises that SCAN returns every element present throughout. This fails
  when the table shrinks by a factor of four or more between calls: `ShrinkingScanLosesKey` is such an
  iteration. `CompleteIff` gives the exact condition on the cursor for a single call to visit all it must,
  `ScanCoverage` proves the promise for every iteration whose calls satisfy it, and `BadCallLoses` the
  converse: one call that does not satisfy it leaves a hash that the iteration misses, unless the scanned
  table shrinks again later.
- The comment at `lzf.h:58` bounds the compressed size by 104% of the input. The bound holds for all inputs of
  length L exactly if `25 * ((L + 31) / 32) < L`: `RoundTrip` proves it for these lengths (26 to 32, 51 to 64,
  76 to 96 and all above 100), and `NotBelow104` gives for every other length an input that no stream of the
  format keeps below it.
- An election in `cluster.c` can count a vote of the previous election, if it arrives between the reset of
  the counter and the next request for votes. `TwoWinnersWithStaleAcks` is a run in which two slaves then
  win the same epoch; `StaleAckIff` says exactly when a late vote spoils the count; `OneWinnerPerEpoch` is
  proved for all runs without such a delivery.
- `aof.c:1135` resets `aof_selected_db` to make sure that SELECT is logged again. `SwitchResetRedundant`
  proves that this reset changes nothing for recovery; `ForkResetNeeded` says exactly when the other one, at
  `aof.c:1000`, is needed.
- Rewriting the log drops a key that holds an empty list, set, sorted set or hash, and aborts at an empty sorted
  set in a ziplist (`aof.c:720`); `RewriteExact` proves that it yields a log that preserves a dataset exactly if
  there is none. Commands are meant to leave no such value, but loading an RDB file does not rule it out.
- `aeCreateFileEvent` with an empty mask associates a descriptor that counts as unregistered;
  `CreateKeepsIff` gives the exact condition.

## Model

| member | source | states |
|---|---|---|
| Words.Rev | lib/src/dict.c:654-662 | the swap of ever smaller blocks reverses the digits of a word of any width 2^w |
| Words.RankInvolution | lib/src/dict.c:654-662 | reversing twice gives the word back |
| DictTables.MoveHeadKeeps | lib/src/dict.c:262-275 | moving the head of the bucket at rehashidx keeps the two tables valid and representing the same map |
| DictTables.InsertKeeps | lib/src/dict.c:351-359 | an entry pushed into the table that receives inserts adds exactly its key to the map and keeps counters and placement right |
| DictTables.UnlinkKeeps | lib/src/dict.c:414-432 | unlinking an entry removes exactly its key from the map |
| DictTables.SetValKeeps | lib/src/dict.c:375-385 | overwriting a value changes the map at that key only |
| Dicts.NextPower | lib/src/dict.c:844-854 | the smallest power of two from 4 on that is at least the size |
| Dicts.Dict.constructor | lib/src/dict.c:174-194 | a new dictionary represents the empty map |
| Dicts.Dict.Expand | lib/src/dict.c:210-237 | fails exactly while rehashing or if the entries would not fit; otherwise makes the table, or the second table, a power of two below twice the size asked for, and changes nothing observable |
| Dicts.Dict.Resize | lib/src/dict.c:198-207 | starts a resize to the smallest table that holds the entries, exactly if resizing is allowed and none is in progress |
| Dicts.Dict.MoveBucket | lib/src/dict.c:262-277 | all entries of one bucket move, rehashidx advances by one, and the map is the same |
| Dicts.Dict.Rehash | lib/src/dict.c:243-280 | n steps move exactly n buckets that are not empty, or exchange the tables, exactly if there are fewer; the map never changes |
| Dicts.Dict.RehashStep | lib/src/dict.c:309-311 | one bucket, and none while a safe iterator is open |
| Dicts.Dict.Find | lib/src/dict.c:481-500 | returns what the map holds at the key, from whichever table it is in |
| Dicts.Dict.ExpandIfNeeded | lib/src/dict.c:822-841 | the table is never empty afterwards; growth to between two and four times the entries starts exactly at load factor 1, or above 5 when resizing is disabled |
| Dicts.Dict.KeyIndex | lib/src/dict.c:862-884 | -1 exactly if the key is there, otherwise its bucket in the table that receives inserts |
| Dicts.Dict.Add | lib/src/dict.c:314-361 | adds exactly the keys that are not there, in front of their chains, whatever growth and rehashing it triggers |
| Dicts.Dict.Replace | lib/src/dict.c:367-386 | afterwards the map holds the value at the key; says whether the key is new |
| Dicts.Dict.Delete | lib/src/dict.c:401-436 | removes exactly the key, and says whether it was there |
| DictScan.Scan | lib/src/dict.c:748-817 | one call emits exactly the entries of the cursor's bucket and of its reached expansions, none twice, and returns the reverse increment of the cursor |
| DictScan.ScanExpansions | lib/src/dict.c:790-804 | the inner loop emits exactly the entries of the larger table whose extra digits are reached by counting up from the cursor's own |
| DictScan.CursorRank | lib/src/dict.c:807-814 | the digit reversal of the next cursor is that of the cursor's bucket plus one, so the cursor moves through reversed hashes in order |
| DictScan.DueIsBucket | lib/src/dict.c:763-814 | the hashes a call must visit are those of its bucket that are not behind the cursor |
| DictScan.CompleteIff | lib/src/dict.c:790-804 | a call visits all it must exactly if the cursor digits between the two masks are ones from the bottom |
| DictScan.ScanCoverage | lib/src/dict.c:748-817 | over any iteration from 0 back to 0, with any changes between calls, a key present throughout is emitted if every call satisfies that condition |
| DictScan.BadCallLoses | lib/src/dict.c:790-804 | if one call of an iteration does not satisfy it and the scanned table is not smaller at later calls, there is a hash such that no call emits a key with it that was then in the larger table |
| DictScan.EmittedOnce | lib/src/dict.c:748-817 | over any such iteration no key is emitted by two calls, unless the scanned table is smaller at the later one |
| DictScan.GrowingScanCoverage | lib/src/dict.c:748-817 | adds, deletes, finds, rehash steps and growth never lose a key |
| DictScan.HalvingScanCoverage | lib/src/dict.c:748-817 | no changes of size lose a key while the tables differ by at most a factor of two |
| DictScan.ShrinkingScanLosesKey | lib/src/dict.c:673-674 | an iteration over a table that shrinks from 16 to 4 buckets and never emits a key present throughout |
| DictIterator.AfterReturns | lib/src/dict.c:567-600 | a step returns an entry still to come and leaves one less of it to come, or nothing is left |
| DictIterator.SafeOpKeepsRemaining | lib/src/dict.c:309-311 | lookups, adds, a started expansion and deletion of the returned entry do not change how often an entry is still to come |
| DictIterator.ReturnedExactlyOnce | lib/src/dict.c:560-611 | in every run of a safe iterator with such operations between the steps, an entry present throughout is returned exactly once |
| DictIterator.Walk | lib/src/dict.c:569-599 | the loop of the iterator finds the next entry |
| DictIterator.SafeIterator.Next | lib/src/dict.c:567-600 | the first step suspends rehashing; every step moves the iterator to the next entry and changes nothing else |
| LzfFormat.DecodeEncoded | lib/src/lzf_d.c:55-149 | any stream of literal runs and references decodes to what it stands for |
| LzfFormat.CopyOfMatch | lib/src/lzf_d.c:133-143 | copying byte by byte from a matching earlier place reproduces the text, also when source and target overlap |
| Lzf.CopyReference | lib/src/lzf_d.c:133-143 | the copy loop writes exactly the self-overlapping copy |
| Lzf.DecodeToken | lib/src/lzf_d.c:63-146 | one iteration decodes one token, or reports which error |
| Lzf.Decompress | lib/src/lzf_d.c:55-149 | on any non-empty input: terminates, stays within bounds, returns the decoded bytes or the right errno |
| Lzf.RoomDecides | lib/src/lzf.h:82-89 | a stream that decodes at all gives the same text whenever there is room for it, and E2BIG otherwise |
| LzfFormat.DecodeSample | lib/src/lzf_c.c:88-95 | four equal bytes as a literal and a reference |
| Lzf.Probe | lib/src/lzf_c.c:149-166 | an address from the table is accepted exactly if it is a place within reach where the next three bytes occur, whatever the table held |
| Lzf.MatchLength | lib/src/lzf_c.c:168-209 | the unrolled search stops at the first difference or at the limits, and all bytes before agree |
| Lzf.HashIs | lib/src/lzf_c.c:48-55 | the slot depends on the three bytes only, whatever is left in the high bits |
| Lzf.HashMatchEnd | lib/src/lzf_c.c:231-246 | the last two positions of a match enter the table, and nothing else changes in it |
| Lzf.NotUsable | lib/src/lzf_c.c:147-166 | if the slot of the next three bytes holds nothing usable, then no hashed repetition of them is left within reach |
| Lzf.EqualFound | lib/src/lzf_c.c:147-166 | in a text of equal bytes every position from the third on finds a match |
| Lzf.CompressStep | lib/src/lzf_c.c:144-277 | one iteration keeps the stream decodable and greedy and the table in step with it; it fails only within four bytes of the end of the output |
| Lzf.PutMatch | lib/src/lzf_c.c:167-250 | after a match the output still decodes to the text read, three or more bytes further; it fails only within four bytes of the end of the output |
| Lzf.Compress | lib/src/lzf_c.c:98-294 | for every input and every initial content of the hash table: the result fits, a result above 0 decodes to the input, enough room guarantees success, and the size stays below 33/32 of the input plus one; no literal repeats three bytes that a hashed position within reach has, unless another one has taken the slot, and references are as long as can be; L equal bytes take at most L/88 + 13 |
| Lzf.RoundTrip | lib/src/lzf.h:52-64 | decompressing what was compressed gives the input back; the size stays below 104% for every length L with 25 * ((L + 31) / 32) < L |
| Lzf.DistinctIsLong | lib/src/lzf_d.c:55-149 | every stream for a text without repeated bytes needs a header for each 32 bytes |
| Lzf.NotBelow104 | lib/src/lzf.h:57-58 | for every other length above 0 there is an input for which no stream is below 104% |
| Pqsort.Med3 | lib/src/pqsort.c:88-96 | the index of a median of three |
| Pqsort.VecSwap | lib/src/pqsort.c:86-86 | two disjoint blocks change places and nothing else moves |
| Pqsort.InsertionSort | lib/src/pqsort.c:107-113 | sorts short ranges by permuting them |
| Pqsort.ScanUp | lib/src/pqsort.c:130-137 | the upward scan keeps smaller elements below and parks equal ones at the left end, up to the first greater one |
| Pqsort.ScanDown | lib/src/pqsort.c:138-145 | the downward scan does the same from above with the right end |
| Pqsort.EqualToMiddle | lib/src/pqsort.c:152-156 | the two vector swaps bring the parked equal elements into the middle |
| Pqsort.Partition | lib/src/pqsort.c:127-156 | smaller, equal and greater elements end up in three consecutive parts, as a permutation |
| Pqsort.SkipsIff | lib/src/pqsort.c:157-175 | the address comparison skips a sub-range exactly if it does not meet the window |
| Pqsort.SortRange | lib/src/pqsort.c:98-177 | a range is permuted so that every position of it inside the window is placed; terminates |
| Pqsort.PartialSort | lib/src/pqsort.c:179-185 | the whole array is permuted and every window position has nothing greater before it and nothing smaller after it |
| Pqsort.PlacedIsFullSort | lib/src/pqsort.c:179-185 | a placed position holds what a full sort would hold there, up to ties |
| ClusterSlots.SetBitTest | lib/src/cluster.c:2136-2140 | setting a bit changes that bit of the bitmap only |
| ClusterSlots.ClearBitTest | lib/src/cluster.c:2143-2147 | clearing a bit changes that bit of the bitmap only |
| ClusterSlots.CountBitsFlip | lib/src/cluster.c:2150-2163 | one more bit is one more slot in the count |
| ClusterSlots.Cluster.AddSlot | lib/src/cluster.c:2174-2179 | assigns a free slot in table, bitmap and count, and refuses a taken one |
| ClusterSlots.Cluster.DelSlot | lib/src/cluster.c:2184-2191 | frees a slot in table, bitmap and count; the assertion in it cannot fail |
| ClusterSlots.Cluster.DelNodeSlots | lib/src/cluster.c:2195-2203 | frees exactly the slots of the node, and returns the number of all slots |
| ClusterSlots.Cluster.DelNode | lib/src/cluster.c:570-583 | frees exactly the slots of the node and removes it |
| ClusterSlots.Cluster.SetSlotNode | lib/src/cluster.c:2653-2654 | the slot belongs to the node, whoever had it |
| ClusterSlots.Cluster.TakeOver | lib/src/cluster.c:1897-1906 | exactly the slots of the old master change to the new one, under the epoch of the election |
| ClusterSlots.Cluster.UpdateSlotsConfigWith | lib/src/cluster.c:959-992 | rebinds exactly the claimed slots that are free or held under a smaller epoch, and says whether the current master lost one |
| ClusterSlots.Cluster.ReceiveClaim | lib/src/cluster.c:1069-1080 | a claim raises the epoch of its sender and then rebinds, unless the bitmap is the known one, and says whether the current master lost a slot |
| ClusterSlots.HighestEpochOwns | lib/src/cluster.c:1238-1252 | after any sequence of claims, with repeats, each slot belongs to its claimant of highest epoch |
| ClusterSlots.ObserversConverge | lib/src/cluster.c:959-992 | observers that hear the same claims in any order end with the same table |
| ClusterElection.Elector.ReceiveHeader | lib/src/cluster.c:1069-1074 | the current epoch never falls behind what has been seen |
| ClusterElection.Elector.SendFailoverAuthIfNeeded | lib/src/cluster.c:1749-1797 | votes exactly if all conditions hold, among them that no claimed slot is served under a greater configEpoch, and records epoch and time of the vote |
| ClusterElection.Elector.ReceiveAck | lib/src/cluster.c:1338-1351 | counts a vote exactly if it is of a master with slots and not older than the election |
| ClusterElection.Elector.HandleSlaveFailover | lib/src/cluster.c:1807-1884 | when an election is scheduled, started, won or left alone, and what each does to the state |
| ClusterElection.RunFailoverHandler | lib/src/cluster.c:1807-1884 | whatever the handler does at a slave is the action of the cluster of that name, and a win has the majority that the cluster asks for |
| ClusterElection.ProcessRequest | lib/src/cluster.c:1335-1337 | handling a request at a node is the delivery of that message in the cluster, with its vote and ACK |
| ClusterElection.ProcessAck | lib/src/cluster.c:1338-1351 | handling an ACK at a node is the delivery of that message in the cluster |
| ClusterElection.AnnounceWin | lib/src/cluster.c:1779-1789 | what the condition on the slots is for: a voter accepts all slots that the winner takes over, if the epoch of the election is newer than the configuration it replaces |
| ClusterElection.EpochsRise | lib/src/cluster.c:1069-1074 | no step lets an epoch fall, and the receiver of a message is not behind its sender |
| ClusterElection.StepKeeps | lib/src/cluster.c:1749-1907 | every step keeps: one vote per master and epoch, ACKs in flight are votes, counters count distinct voters, winners have a majority |
| ClusterElection.OneWinnerPerEpoch | lib/src/cluster.c:1807-1907 | in every run under loss, delay and reordering, no two slaves win in the same epoch |
| ClusterElection.OneVotePerEpoch | lib/src/cluster.c:1763-1795 | in every such run a master votes for one slave only in each epoch |
| ClusterElection.CountsDistinctVoters | lib/src/cluster.c:1338-1351 | in every such run a counter is the number of different masters that voted for the slave in its current election |
| ClusterElection.StaleAckIff | lib/src/cluster.c:1338-1351 | an ACK between reset and request leaves the next count right exactly if it is older than the previous election |
| ClusterElection.TwoWinnersWithStaleAcks | lib/src/cluster.c:1845-1872 | a run with two winners in one epoch when stale ACKs are counted |
| AofFormat.CatAppendOnlyGenericCommand | lib/src/aof.c:322-345 | appends exactly the encoding of the command |
| AofFormat.EncodeSample | lib/src/aof.c:322-345 | the bytes of SET k v |
| AofFormat.ReadCommand | lib/src/aof.c:516-535 | the loader's loop parses what the byte-level definition of fgets, atoi, strtol and fread says |
| AofFormat.RoundTrip | lib/src/aof.c:502-535 | parsing the encodings of any commands, with any bytes in them, gives those commands |
| AofFormat.EncodeInjective | lib/src/aof.c:322-345 | different logs are different bytes |
| AofFormat.TruncationDetected | lib/src/aof.c:516-535 | a log cut inside a command is refused after executing exactly the commands before it |
| AofFormat.ParseContinued | lib/src/aof.c:502-535 | whatever wrote a file, if it loads to its end then what is appended to it is parsed on its own |
| AofRewrite.OpenChunk | lib/src/aof.c:637-650 | a header announces exactly the number of arguments that follow, for every chunk size and length |
| AofRewrite.RewriteAggregate | lib/src/aof.c:604-831 | the loop with its two counters writes exactly the chunked commands, for any number of items per command |
| AofRewrite.ReplayChunks | lib/src/aof.c:604-831 | replaying the chunks adds all items in order, whatever the chunk size |
| AofRewrite.ChunkSizes | lib/src/aof.c:604-831 | every command but the last has as many items as allowed, and the last not more |
| AofRewrite.OneItemCommands | lib/src/aof.c:604-831 | the command for one item of each kind of value, with its arguments in order |
| AofSnapshot.AddListed | lib/src/aof.c:604-831 | adding the items of a value to a missing key gives that value back |
| AofSnapshot.RewriteAppendOnlyFile | lib/src/aof.c:840-923 | writes the log of all databases in the order of iteration, or aborts exactly at an empty sorted set in a ziplist |
| AofSnapshot.SnapshotReplays | lib/src/aof.c:840-923 | loading the log rebuilds every database, except for empty aggregates |
| AofSnapshot.RewriteExact | lib/src/aof.c:840-923 | there is a log and it rebuilds the dataset exactly if there are no empty aggregates |
| AofSnapshot.NonEmptyNeverAborts | lib/src/aof.c:717-722 | without empty aggregates the assertion on the ziplist cannot fail |
| AofSnapshot.SnapshotPrintable | lib/src/aof.c:840-923 | every command of a rewritten log can be parsed back |
| AofBuffer.RewriteBuffer.Append | lib/src/aof.c:89-126 | the blocks hold the old bytes and then the new ones, all but the last block full |
| AofBuffer.RewriteBuffer.Reset | lib/src/aof.c:68-74 | the buffer is empty |
| AofBuffer.RewriteBuffer.Size | lib/src/aof.c:77-86 | the size computed from the last block is the number of bytes held |
| AofBuffer.RewriteBuffer.Write | lib/src/aof.c:131-151 | writes exactly the bytes held, or as many as the file takes and reports -1 |
| AofServer.AppendOnlyFile.FeedAppendOnlyFile | lib/src/aof.c:384-432 | logs the command, behind a SELECT if needed, to the buffer, the diff, both or neither |
| AofServer.AppendOnlyFile.Call | lib/src/redis.c:1837-1844 | a command is executed, and logged if it changed something and the log is not off |
| AofServer.AppendOnlyFile.FlushAppendOnlyFile | lib/src/aof.c:229-320 | the buffered log moves to the file, unless postponed; on a short write the process exits, with the file as before if it could be cut |
| AofServer.AppendOnlyFile.RewriteAppendOnlyFileBackground | lib/src/aof.c:956-1005 | a child gets the dataset, unless there is one; the log forgets its database |
| AofServer.AppendOnlyFile.BackgroundRewriteDoneHandler | lib/src/aof.c:1044-1178 | the file becomes the rewritten log and the diff if all went well, and stays otherwise; a log that waited for this is on then; the diff is dropped |
| AofServer.AppendOnlyFile.StopAppendOnly | lib/src/aof.c:165-188 | flushes, closes, and kills the child with its diff, unless the process exits while flushing |
| AofServer.AppendOnlyFile.StartAppendOnly | lib/src/aof.c:192-209 | waits for a first rewrite, or fails and stays off |
| AofServer.LoadAppendOnlyFile | lib/src/aof.c:477-567 | executes the parsed commands, or reports that the file is bad |
| AofServer.LoadedIsSane | lib/src/aof.c:477-567 | whatever loads is a dataset the server can hold |
| AofServer.BootWithLog | lib/src/redis.c:3054-3060 | a server started with the log on runs exactly if the file loads, on what was loaded |
| AofServer.StepKeeps | lib/src/aof.c:384-1178 | every step keeps the log, and the diff of a running child, replayable to the dataset |
| AofServer.AlwaysRecoverable | lib/src/aof.c:384-432 | in every state of every run with the log on, started with it on or off and on any file that loads, loading the file and the buffered log gives the live dataset |
| AofServer.FileAlwaysLoads | lib/src/aof.c:229-320 | in every such state the file alone loads to its end and misses only the last commands |
| AofServer.OnIff | lib/src/aof.c:1149-1150 | in every run the log is on exactly if the server was booted with it, or was told to start it and has rewritten it since, and was not told to stop it after that; in between it waits |
| AofServer.StartThenDone | lib/src/aof.c:192-209 | after a start, whatever happens but a stop, the next successful rewrite leaves the log on and loading to the live dataset |
| AofServer.WaitingIsServed | lib/src/aof.c:1174-1178 | while the log waits, a rewrite is running or scheduled |
| AofServer.FlushedFileLoads | lib/src/aof.c:229-320 | after a flush, and after a stop, the file alone loads to the live dataset |
| AofServer.RewriteInvisible | lib/src/aof.c:944-1005 | while a child runs, what it will write followed by the diff loads to the live dataset too |
| AofServer.SwitchResetRedundant | lib/src/aof.c:1135-1135 | the switch keeps the invariant also without that reset |
| AofServer.ForkResetNeeded | lib/src/aof.c:996-1000 | without the reset at the fork, a SET survives the switch exactly if the rewritten log ends in its database, or it changes nothing in either |
| Intset.ValueEncoding | lib/src/intset.c:45-52 | the narrowest encoding that holds the value |
| Intset.PackRoundTrip | lib/src/intset.c:55-94 | reading back a stored integer gives it back, in every encoding |
| Intset.WiderIsExtreme | lib/src/intset.c:209-211 | a value that needs a wider encoding is a new minimum or a new maximum |
| Intset.WidenStep | lib/src/intset.c:170-171 | widening one element in place leaves all unread elements as they were |
| Intset.IntSet.Get | lib/src/intset.c:76-78 | the element at a position |
| Intset.IntSet.Set | lib/src/intset.c:81-94 | stores one element and no other byte |
| Intset.IntSet.Resize | lib/src/intset.c:105-109 | a block of the new size that keeps the bytes that fit |
| Intset.IntSet.Widen | lib/src/intset.c:167-171 | the loop from the back moves every element to its wider place |
| Intset.IntSet.Search | lib/src/intset.c:115-154 | the position of the value, or the position where it belongs |
| Intset.IntSet.UpgradeAndAdd | lib/src/intset.c:157-180 | all elements are kept in the wider encoding, with the value before or behind them |
| Intset.IntSet.MoveTail | lib/src/intset.c:182-201 | the elements from a position on are moved, overlapping or not |
| Intset.IntSet.Add | lib/src/intset.c:204-231 | the set gains exactly the value, stays strictly increasing, and the encoding never narrows |
| Intset.IntSet.Remove | lib/src/intset.c:234-251 | the set loses exactly the value |
| Intset.IntSet.Find | lib/src/intset.c:254-257 | membership |
| Multi.LinkedInverse | lib/src/multi.c:184-199 | a client is in the list of a key exactly if the key is in the list of the client |
| Multi.SpoiledAppend | lib/src/multi.c:259-278 | an event spoils a client exactly if it touches a key the client watches; EXEC, DISCARD and UNWATCH clear it |
| Multi.Transactions.WatchForKey | lib/src/multi.c:202-229 | the key is watched once, in both records |
| Multi.Transactions.WatchCommand | lib/src/multi.c:307-317 | watches all keys, but nothing inside a transaction |
| Multi.Transactions.UnwatchAllKeys | lib/src/multi.c:233-257 | the client leaves every list and no empty list stays |
| Multi.Transactions.UnwatchCommand | lib/src/multi.c:319-323 | unwatches and clears the dirty flag |
| Multi.Transactions.TouchWatchedKey | lib/src/multi.c:261-278 | exactly the clients that watch the key become dirty |
| Multi.Transactions.TouchWatchedKeysOnFlush | lib/src/multi.c:284-305 | exactly the clients that watch an existing key of the flushed databases become dirty |
| Multi.Transactions.Call | lib/src/db.c:202-204 | a command marks exactly the clients that watch one of the keys it touches |
| Multi.Transactions.MultiCommand | lib/src/multi.c:86-93 | opens a transaction, once |
| Multi.Transactions.QueueMultiCommand | lib/src/multi.c:56-70 | the command goes to the end of the queue |
| Multi.Transactions.FlagTransaction | lib/src/multi.c:81-84 | an error while queueing dooms the transaction |
| Multi.Transactions.DiscardTransaction | lib/src/multi.c:72-77 | the client is as new, and watches nothing |
| Multi.Transactions.DiscardCommand | lib/src/multi.c:95-102 | discards, but only inside a transaction |
| Multi.Transactions.Connect | lib/src/networking.c:118-124 | a new client watches nothing and is clean |
| Multi.Transactions.Disconnect | lib/src/networking.c:677-678 | a client that leaves is in no list |
| Multi.Transactions.RunQueue | lib/src/multi.c:144-165 | all queued commands run in order, and exactly the clients that watch a key touched by one of them become dirty |
| Multi.Transactions.ExecCommand | lib/src/multi.c:114-172 | runs the whole queue in order exactly if no watched key was touched since and no command failed to be queued, otherwise none of it; then exactly the other clients that watch a key touched by it become dirty |
| EventPort.Placement | lib/src/ae_evport.c:44-65 | a registered descriptor is with the kernel or pending, never both, with the mask of the loop; an unregistered one is in neither |
| EventPort.CreateKeepsIff | lib/src/ae.c:135-153 | adding an event keeps this exactly if the mask is not empty or the descriptor was registered |
| EventPort.DeleteKeeps | lib/src/ae.c:155-171 | deleting events keeps it, and the highest descriptor stays right |
| EventPort.RestoreKeeps | lib/src/ae_evport.c:250-270 | giving the pending descriptors back keeps it |
| EventPort.RunKeeps | lib/src/ae_evport.c:152-316 | it holds in every run of adding, deleting, polling and resizing |
| EventPort.PollSeesAll | lib/src/ae_evport.c:243-270 | when the kernel is asked, it watches exactly the registered descriptors for exactly their events |
| EventPort.RegisteredIff | lib/src/ae.c:135-171 | in every run a descriptor is registered for exactly the events that were added to it and not deleted since |
| EventPort.EventLoop.LookupPending | lib/src/ae_evport.c:109-118 | the slot of a pending descriptor, or -1 |
| EventPort.EventLoop.ApiAddEvent | lib/src/ae_evport.c:152-181 | the full mask goes to the pending slot, or to the kernel, which may refuse |
| EventPort.EventLoop.ApiDelEvent | lib/src/ae_evport.c:183-241 | exactly the given events leave the pending slot, or the kernel gets what is left, and the descriptor goes with its last event |
| EventPort.EventLoop.CreateFileEvent | lib/src/ae.c:135-153 | succeeds exactly if the descriptor is in range and pending or accepted by the kernel; then exactly the given events are added to it and no other descriptor changes; on failure nothing changes |
| EventPort.EventLoop.DeleteFileEvent | lib/src/ae.c:155-171 | exactly the given events leave the descriptor, in the loop and in the pending slot or the kernel, and no other descriptor changes |
| EventPort.EventLoop.ApiPoll | lib/src/ae_evport.c:243-316 | the pending descriptors go back to the kernel, and the reported ones become pending |
| EventPort.EventLoop.ResizeSetSize | lib/src/ae.c:106-122 | the table has the new size and all registered descriptors, or nothing changes |
| Bitops.WordIsBytewise | lib/src/bitops.c:270-320 | an operation on words is the operation on each of their bytes |
| Bitops.CombineRound | lib/src/bitops.c:270-320 | a round of the fast path folds 32 bytes over all sources |
| Bitops.FoldByte | lib/src/bitops.c:323-336 | the byte loop folds one byte over all sources, padded with zero |
| Bitops.FoldBit | lib/src/bitops.c:323-336 | each bit of a fold is the operation on that bit of all sources, and a missing byte has none |
| Bitops.Bitop | lib/src/bitops.c:213-337 | for any number of keys and any lengths the result has the maximum length, and each of its bits is set exactly if all, some, an odd number or none of the sources have it, whichever mix of paths ran |
| Popcount.CountWordIs | lib/src/bitops.c:77-88 | the arithmetic on fields of a word counts its ones |
| Popcount.BitsInByteIs | lib/src/bitops.c:65-65 | the table is right for every byte |
| Popcount.RedisPopcount | lib/src/bitops.c:61-94 | the number of ones of any string |
| Adlist.LinkedList.AddNodeHead | lib/src/adlist.c:80-98 | a new node in front of the sequence |
| Adlist.LinkedList.AddNodeTail | lib/src/adlist.c:106-124 | a new node behind the sequence |
| Adlist.LinkedList.InsertNode | lib/src/adlist.c:126-153 | a new node right before or after the given one |
| Adlist.LinkedList.DelNode | lib/src/adlist.c:159-172 | exactly the given node leaves the sequence |
| Adlist.LinkedList.Index | lib/src/adlist.c:313-325 | the node at a position, counted from the tail if negative, or null |
| Adlist.LinkedList.Rotate | lib/src/adlist.c:328-341 | the last node becomes the first |
| Adlist.ListIter.Next | lib/src/adlist.c:221-232 | returns the node at the position of the iterator and moves to its neighbour |
| Adlist.Sweep | lib/src/adlist.c:207-220 | deleting nodes just returned while iterating, from either end: every node is visited once, in order from that end, and exactly those at the chosen positions go |
| Adlist.KeptAt | lib/src/adlist.c:207-220 | the nodes left are those at the other positions, in their order |
| Adlist.Dup | lib/src/adlist.c:242-274 | a new list with the copies of the values in the same order, or none exactly if copying a value fails |

## Left out

- Everything that is input and output: sockets, files, fork, signals, clocks. Files are byte sequences, the kernel's
  event port is a map, a forked child is a copy of the dataset, and outcomes of system calls are parameters.
- Memory management and reference counts; allocation does not fail.
- Dicts.Dict: chains and bucket arrays are sequences, so sharing of entries between them is not modelled. Hash functions are arbitrary.
- Dicts.NextPower: sizes from LONG_MAX on, where the source stops doubling, are not modelled.
- DictScan.Scan: the emitted entries are characterised as a set, not by the order of the callbacks.
- DictIterator.SafeIterator.Next: entries are named by their keys, and unsafe iterators with their fingerprint are not modelled.
- Lzf.Compress: the output buffer has one byte beyond the length passed in, because the run header is written before the length is checked. The input lies above the first 8192 addresses.
- Pqsort.PartialSort: the choice between swapping words and bytes is not modelled; elements are swapped whole.
- ClusterSlots.Cluster.DelNode: migrating and importing slots and failure reports are not modelled.
- ClusterSlots.Cluster: migrating and importing slots, slave lists, handshakes, gossip and UPDATE packets are not modelled.
- ClusterElection.OneWinnerPerEpoch: the set of masters with slots is fixed and known to all, nodes do not restart, and messages are not duplicated.
- ClusterElection.Elector.HandleSlaveFailover: clocks and random delays are the parameters that say which conditions on them hold.
- AofFormat.RoundTrip: arguments and their number fit the types `long` and `int` that hold their sizes.
- AofRewrite.RewriteAggregate: encodings of objects in memory are not modelled, and scores are their printed text.
- AofServer.AlwaysRecoverable: expiry times, MULTI in the log and unknown command names are not modelled. Commands other than those that rewriting
  emits act through an arbitrary function of the arguments, the database and the dataset that leaves no empty aggregates.
- AofSnapshot.RewriteAppendOnlyFile: expiry times, write errors and the rename are not modelled; a rewrite that fails is one that is not switched to.
- AofServer.AppendOnlyFile.FeedAppendOnlyFile: the translation of EXPIRE and SETEX is not modelled, as there are no expiry times.
- AofServer.AppendOnlyFile.Call: propagation flags and additional commands to propagate are not modelled.
- AofServer.LoadAppendOnlyFile: an empty file loads as an empty log, and unknown commands act through the arbitrary function.
- AofRewrite.ExecSelect: a SELECT in a log is read as leniently as `strtol` does.
- Intset.IntSet.Resize: the 32-bit size of the block does not wrap, which holds below 2^29 elements.
- Multi.Transactions.ExecCommand: which keys a command touches is a parameter; propagation to the log and to slaves and monitors is not modelled.
- EventPort.EventLoop.CreateFileEvent: handlers and their data are not modelled, nor are time events.
- Bitops.Bitop: storing the result and replying are not modelled.
- Adlist.LinkedList.DelNode: the list's own free and match functions are not modelled.
- Skip lists, ziplists, RDB files, replication, scripting, Sentinel, the client libraries and the JavaScript glue: no part of this model.

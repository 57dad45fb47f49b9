# Verified models of the systems programming labs

The repository is a set of teaching labs in C. Most of them drive system calls; some contain real algorithms
and protocols. This project models those and proves what they are for, one Dafny module for each program:

- `FuseFat`, `FatRead`, `FatImage`, `FatChain`, `FatHalting`, `FatDriver`: the read-only FAT16 driver. Layout
  arithmetic with C's wrap-around, the cluster chain, 8.3 names, the path walk, `readdir`, the read loop against a
  flat file, what all this makes of the bytes of an image, and exactly when the read loop ends.
- `DnsName`, `DnsEnds`, `DnsCut`, `DnsRoundTrip`, `DnsMessage`: the DNS client's name encoder, its decoder with
  compression pointers against a reference expansion, exactly when that decoder ends, when it recovers a name
  longer than its buffer and which names survive encoding, and the walk over the answers (RFC 1035, sections
  2.3.4, 3.1 and 4.1.4).
- `ThreadPool`, `PoolService`, `TaskQueue`: the thread pool as a transition system, what it does with what it is
  given, and its linked queue on the heap.
- `ProducerConsumer`, `Ring`: the bounded buffer with condition variables, and its ring in place.
- `ShmRing`: the shared-memory ring with three semaphores.
- `Rcu`, `RcuProgress`: the RCU demo with any number of readers, callbacks and the module's exit, and how far each
  thread gets.
- `Barrier`: message passing on a weakly ordered machine, with each barrier optional.
- `EpollServer`: the edge-triggered event loop, interleaved with its peers.
- `SelectServer`: the client array and the service pass that removes while iterating.
- `MiniProtocol`, `MiniServer`, `MiniClient`: framing, server and client session over streams that move any
  positive number of bytes at a time.
- `Checksum`: the Internet checksum of the ping demo (RFC 1071).
- `Prime`: the primality test.
- `LostUpdates`, `LockedCounter`: the racy counters and the one under a mutex.
- `MemFs`, `MemFsDriver`, `MemFsCalls`: the in-memory filesystem on 64 slots against a map from path to node, and
  what its callers see.

`Bytes`, `Common` and `Sums` are shared helpers.

Concurrent programs are transition systems: a state with one program counter for each thread, an event for
each step of a thread or of its surroundings, `Enabled` and `Next`, and theorems over every sequence of events
(`Runs`, `After`). Programs that change buffers, arrays or fields in place are methods and classes, each
proved against functions on the contents; the properties are lemmas about those functions. Loops that end only
under conditions the code does not check are modelled by iterating their turn, with termination as a property.

The code was followed where its comments say something else. The header comment of the barrier demo shows
the two stores the other way round, and a comment in its wait loop credits the loop's barrier with ordering the
message, which `Barrier.MessagePassing` shows it does not do. The ping demo's padding comment gives a payload of
56 bytes where the struct has 64.

## Model

| member | source | states |
|---|---|---|
| `FatRead.ReadRefinesFlatFile` | SystemProgramming/Handson/lab18_fuse_fat/fuse_fat.c:226-263 | a read of a well-stored file (its clusters are numbered 2 to 0xFFF7 and lie inside an image below 4 GiB) ends within as many turns as the file has clusters, even if the chain is cyclic beyond them, and returns bytes offset .. min(offset + size, file_size) of the concatenated clusters |
| `FatRead.AdjacentReadsConcatenate` | SystemProgramming/Handson/lab18_fuse_fat/fuse_fat.c:226-263 | two adjacent reads give what one long read gives |
| `FatChain.FlatFileOnDisk` | SystemProgramming/Handson/lab18_fuse_fat/fuse_fat.c:72-82 | told from the bytes of the image: a file is well stored exactly when a chain of as many clusters as its size needs stands on the disk, each cluster's FAT entry at fat_start + 2c holding the next number low byte first and its data at data_start + (c - 2) * cluster_size, and the flat file is the start of their contents |
| `FatChain.ChainFileRead` | SystemProgramming/Handson/lab18_fuse_fat/fuse_fat.c:226-263 | a file whose chain stands on the disk and ends in an end mark or holds all its bytes: a read at any offset ends within as many turns as the chain has clusters and returns the stretch of the contents, cut to the file's size and to the chain |
| `FatChain.LinkRead` | SystemProgramming/Handson/lab18_fuse_fat/fuse_fat.c:72-77 | the link is the little-endian word at fat_start + 2c, modulo 2^32 |
| `FatHalting.HaltsExactly` | SystemProgramming/Handson/lab18_fuse_fat/fuse_fat.c:239-260 | a read runs for ever exactly when its chain comes back to a cluster through data clusters only, the image holds no byte of the clusters on the way round, and it holds fewer bytes of the chain up to there than are wanted; this shows within 0xFFF8 links |
| `FatHalting.GoingExactly` | SystemProgramming/Handson/lab18_fuse_fat/fuse_fat.c:248-260 | the loop is still going after n turns exactly when the first n links stay among data clusters and the image holds too few bytes of the clusters read |
| `FatHalting.HeldExactly` | SystemProgramming/Handson/lab18_fuse_fat/fuse_fat.c:249-257 | what the image holds of a cluster placed below 4 GiB is what lies between the read position and the end of the cluster or of the image |
| `FatHalting.ReadDiverges` | SystemProgramming/Handson/lab18_fuse_fat/fuse_fat.c:248-260 | a concrete image that mounts and whose root directory lists a file any read of which never ends |
| `FatRead.LoopCollects` | SystemProgramming/Handson/lab18_fuse_fat/fuse_fat.c:248-260 | the read loop collects exactly the wanted stretch of the clusters from where it stands and needs no more turns than there are clusters |
| `FatRead.SkipInChain` | SystemProgramming/Handson/lab18_fuse_fat/fuse_fat.c:244-246 | the skip loop drops exactly the first k clusters of the flat contents |
| `FatRead.OutcomeUnique` | SystemProgramming/Handson/lab18_fuse_fat/fuse_fat.c:248-262 | however long one lets it run, a read that ends has one outcome |
| `FatRead.LayoutRegionsDisjoint` | SystemProgramming/Handson/lab18_fuse_fat/fuse_fat.c:296-301 | when the sums fit in 32 bits, a FAT slot ends before the root directory, the root directory ends where the data area starts, and two data clusters never overlap |
| `FatRead.PlacedExactly` | SystemProgramming/Handson/lab18_fuse_fat/fuse_fat.c:296-301 | for every boot record the computed places of the root directory, the data area and a cluster are the true ones exactly when the true place of the cluster is below 2^32; the FAT's place, the cluster size and the number of root entries always are |
| `FatImage.BootRoundTrip` | SystemProgramming/Handson/lab18_fuse_fat/fuse_fat.c:19-40 | from the packed boot record, laid out field by field, mounting reads the fields that were put there |
| `FatImage.SlotRoundTrip` | SystemProgramming/Handson/lab18_fuse_fat/fuse_fat.c:42-56 | from the packed directory entry, laid out field by field, the driver reads the name, attribute, cluster and size that were put there |
| `FatImage.AttributesRead` | SystemProgramming/Handson/lab18_fuse_fat/fuse_fat.c:133-136 | the attribute's bit 4 makes a directory; its bit 3, or a first name byte of 0xE5, hides the entry |
| `FatImage.ListingExactly` | SystemProgramming/Handson/lab18_fuse_fat/fuse_fat.c:207-217 | a directory lists, in slot order, exactly the entries of the slots on the image with no first byte 0 up to and including their own, a first byte other than 0xE5, an attribute other than 0x0F and bit 3 of it clear, each with the name, attribute, cluster and size its 32 bytes spell |
| `FatImage.DirectoryShows` | SystemProgramming/Handson/lab18_fuse_fat/fuse_fat.c:195-217 | which slots those are: root_entry_count ones at root_dir_start for the root, cluster_size / 32 ones at the directory's cluster otherwise |
| `FatImage.RootResolves` | SystemProgramming/Handson/lab18_fuse_fat/fuse_fat.c:98-103 | the root resolves, to a directory |
| `FatImage.SameNameExactly` | SystemProgramming/Handson/lab18_fuse_fat/fuse_fat.c:141 | two names match exactly when they agree in upper case |
| `FuseFat.ShortNameShown` | SystemProgramming/Handson/lab18_fuse_fat/fuse_fat.c:85-95 | a stored name is shown as what stands before the first space of each of its two fields, with a dot only if the extension has something before it |
| `FuseFat.ShortNameRoundTrip` | SystemProgramming/Handson/lab18_fuse_fat/fuse_fat.c:85-95 | a space-padded 8.3 name comes back as BASE.EXT, or BASE when there is no extension |
| `FuseFat.DirectoryAgreement` | SystemProgramming/Handson/lab18_fuse_fat/fuse_fat.c:98-160 | below any path that resolves to a directory, lookup and readdir agree on a component (it resolves exactly when a name equal to it ignoring case is listed, to the first such entry, and otherwise fails with ENOENT) exactly when the joined path fits the 511-character buffer, or the buffer keeps a part of the component and neither that part nor the whole is listed, or it keeps nothing and the directory's own entry is the first listed one with that name |
| `FuseFat.LookupBelow` | SystemProgramming/Handson/lab18_fuse_fat/fuse_fat.c:98-160 | for every length, the lookup of a component below a directory searches that directory for what the buffer keeps of the component, and finds the directory again if it keeps nothing |
| `FuseFat.NothingBelowFile` | SystemProgramming/Handson/lab18_fuse_fat/fuse_fat.c:146 | below a path that resolves to a file every lookup fails with ENOTDIR, except that a path filling the buffer finds the file again |
| `FuseFat.FirstMatchIsFirst` | SystemProgramming/Handson/lab18_fuse_fat/fuse_fat.c:128-154 | the search of one directory returns the first listed entry with the name, and fails only if none has it |
| `FatDriver.FatDriver.FindEntry` | SystemProgramming/Handson/lab18_fuse_fat/fuse_fat.c:98-160 | the strtok walk with its file position and buffers computes the lookup on the image |
| `FatDriver.FatDriver.ScanFor` | SystemProgramming/Handson/lab18_fuse_fat/fuse_fat.c:128-154 | the inner scan returns the first entry that readdir's listing of the same region has under that name |
| `FatDriver.FatDriver.Readdir` | SystemProgramming/Handson/lab18_fuse_fat/fuse_fat.c:186-223 | the names handed to the filler are the two dots and the listing of the directory, in slot order; errors are those of the lookup |
| `FatDriver.FatDriver.Read` | SystemProgramming/Handson/lab18_fuse_fat/fuse_fat.c:226-263 | the errors of the lookup, EISDIR for a directory, otherwise the bytes of the terminating read in the buffer and the rest of the buffer untouched; for a well-stored file exactly the stretch of the flat file |
| `FatDriver.FatDriver.FatNextCluster` | SystemProgramming/Handson/lab18_fuse_fat/fuse_fat.c:72-77 | reads the little-endian 16-bit link of a cluster at fat_start + 2c, and 0xFFFF where the image ends |
| `FatDriver.FatDriver.SkipClusters` | SystemProgramming/Handson/lab18_fuse_fat/fuse_fat.c:244-246 | follows at most that many links, stopping at an end-of-chain mark |
| `FatDriver.FatDriver.ReadClusters` | SystemProgramming/Handson/lab18_fuse_fat/fuse_fat.c:248-262 | the read loop over the image and the caller's buffer yields what the iterated turn yields |
| `FatDriver.FatDriver.Mount` | SystemProgramming/Handson/lab18_fuse_fat/fuse_fat.c:290-301 | succeeds exactly for images that hold a boot sector, and leaves the layout computed from it with C's wrap-around |
| `FatDriver.FormatNameInto` | SystemProgramming/Handson/lab18_fuse_fat/fuse_fat.c:85-95 | the name written into the 13-byte buffer, read as a C string, is the entry's 8.3 name |
| `FatDriver.OutcomeOfRead` | SystemProgramming/Handson/lab18_fuse_fat/fuse_fat.c:235-262 | the outcome of a read does not depend on the number of turns that ends it; a read at or past the end of the file is empty |
| `DnsName.EncodeName` | NetworkProgramming/Handson/lab01_socket_basics/dns_client.c:42-62 | writes the label encoding of the name; fails with -1 exactly when that is longer than the buffer, and then leaves exactly the labels that fit |
| `DnsName.FittingIsLongest` | NetworkProgramming/Handson/lab01_socket_basics/dns_client.c:47-56 | what a failing call leaves is the longest run of whole labels that keeps a byte of the buffer free |
| `DnsName.DecodeFollows` | NetworkProgramming/Handson/lab01_socket_basics/dns_client.c:73-96 | wherever the reference expansion of section 4.1.4 of RFC 1035 is defined (each pointer targets an offset below the start of its label run), the decoder ends, leaves the dotted name and returns the offset past the first pointer or the root label |
| `DnsName.ParseEnds` | NetworkProgramming/Handson/lab01_socket_basics/dns_client.c:73-93 | on any packet the decoder ends if each jump it makes targets an offset strictly below the start of the label run it jumps from, by the lexicographic measure of run start and bytes left |
| `DnsEnds.LoopsExactly` | NetworkProgramming/Handson/lab01_socket_basics/dns_client.c:73-93 | on any packet the loop runs for ever exactly when it comes back to a position with the output length it had there, which shows within as many turns as there are positions times output lengths; one that ends does so within as many |
| `DnsEnds.ParsesExactly` | NetworkProgramming/Handson/lab01_socket_basics/dns_client.c:73-93 | the decoder does its work inside the buffer exactly when it neither comes back so nor reads the second byte of a pointer outside the buffer |
| `DnsEnds.StepAlike` | NetworkProgramming/Handson/lab01_socket_basics/dns_client.c:73-93 | what a turn does next depends only on the position and on how much is in the output buffer |
| `DnsCut.RecoveredExactly` | NetworkProgramming/Handson/lab01_socket_basics/dns_client.c:73-96 | a name that expands is recovered, text and offset, exactly when it fits the buffer, or its parse ends and it had jumped before the buffer was full or the first zero or pointer byte behind that place is the name's end |
| `DnsCut.CutReads` | NetworkProgramming/Handson/lab01_socket_basics/dns_client.c:90-96 | a name too long for the buffer whose parse ends gives the name cut short, whatever its bytes, and an offset fixed by where the buffer was full |
| `DnsCut.ZeroEnds` | NetworkProgramming/Handson/lab01_socket_basics/dns_client.c:76-79 | with the buffer full a zero byte, even inside a label, ends the parse behind itself |
| `DnsCut.TextRecovered` | NetworkProgramming/Handson/lab01_socket_basics/dns_client.c:204-207 | the text alone, which is all a CNAME target needs, is recovered whenever the parse ends |
| `DnsName.ParseName` | NetworkProgramming/Handson/lab01_socket_basics/dns_client.c:65-97 | the decoder over its buffers: a terminated string, and for every expandable name the dotted name and the offset just past the name's own bytes, however many jumps follow |
| `DnsName.ParsedAsExpanded` | NetworkProgramming/Handson/lab01_socket_basics/dns_client.c:65-97 | any terminating parse of an expandable name has that one outcome |
| `DnsName.ParseUnique` | NetworkProgramming/Handson/lab01_socket_basics/dns_client.c:73-96 | a parse that ends has one outcome |
| `DnsName.CopyBytes` | NetworkProgramming/Handson/lab01_socket_basics/dns_client.c:91-92 | the copy loop stops at the label's end, the packet's end or the buffer's end, whichever comes first |
| `DnsMessage.WireOfDotted` | NetworkProgramming/Handson/lab01_socket_basics/dns_client.c:47-60 | each label goes out behind its length, then the root label |
| `DnsMessage.NameRoundTrip` | NetworkProgramming/Handson/lab01_socket_basics/dns_client.c:42-97 | encoding then decoding, anywhere in a packet, gives the name back and consumes exactly the encoded length, for labels of 1 to 63 characters |
| `DnsRoundTrip.RestoredExactly` | NetworkProgramming/Handson/lab01_socket_basics/dns_client.c:42-97 | an encoded name, whatever its bytes and wherever it stands, comes back with exactly its encoded length consumed if and only if it is shorter than the output buffer and is empty or has only pieces of 1 to 191 bytes between its dots |
| `DnsMessage.StandardNamesFit` | NetworkProgramming/Handson/lab01_socket_basics/dns_client.c:177 | names within the 255 octets of section 2.3.4 of RFC 1035 fit the 256-byte buffers |
| `DnsMessage.ExpandOfCompressed` | NetworkProgramming/Handson/lab01_socket_basics/dns_client.c:82-86 | labels followed by a pointer to an earlier name stand for the labels followed by that name |
| `DnsMessage.TargetBeforePointerNotEnough` | NetworkProgramming/Handson/lab01_socket_basics/dns_client.c:175-179 | a pointer whose target lies before itself can still be followed for ever: a 16-byte response whose question never ends, so that nothing is printed |
| `DnsMessage.CutNameMisread` | NetworkProgramming/Handson/lab01_socket_basics/dns_client.c:177-178 | in a 512-byte response a question of 261 octets is cut in the 256-byte buffer before a label that holds a zero byte: the text is right, the offset is 271 where the name ends at 273 |
| `DnsMessage.AnswersRecovered` | NetworkProgramming/Handson/lab01_socket_basics/dns_client.c:183-212 | the answer walk recovers name, type, ttl and rdata of every stored record, in order, and goes on behind them, when each owner is recovered by the exact condition of `DnsCut.RecoveredExactly` and the parse of each CNAME target ends |
| `DnsMessage.WholeRecordsRecovered` | NetworkProgramming/Handson/lab01_socket_basics/dns_client.c:183-212 | a response cut short, or announcing more records than it holds, gives exactly the records that are whole |
| `DnsMessage.RefusedExactly` | NetworkProgramming/Handson/lab01_socket_basics/dns_client.c:161-172 | a response is refused exactly when the low four bits of its flags word, in network order, are not 0, and with that number, whatever follows |
| `DnsMessage.MessageRecovered` | NetworkProgramming/Handson/lab01_socket_basics/dns_client.c:161-212 | a one-question response yields exactly its records, in order, when its names are recovered by those conditions |
| `DnsMessage.StandardMessageRecovered` | NetworkProgramming/Handson/lab01_socket_basics/dns_client.c:161-212 | a one-question response whose names keep to the 255 octets of section 2.3.4 of RFC 1035 yields exactly its records, in order, whatever bytes the labels hold |
| `DnsMessage.PrintAnswers` | NetworkProgramming/Handson/lab01_socket_basics/dns_client.c:183-212 | the answer loop over the buffer yields the answers the walk defines |
| `DnsMessage.PrintAnswer` | NetworkProgramming/Handson/lab01_socket_basics/dns_client.c:187-211 | one turn behind the name: the right case by type and length, and the offset of the next record |
| `DnsMessage.HandleResponse` | NetworkProgramming/Handson/lab01_socket_basics/dns_client.c:161-212 | an error code is refused with its number, otherwise the question is skipped and the answers walked |
| `ThreadPool.PoolCorrect` | SystemProgramming/Handson/lab08_thread_management/thread_pool.c:44-146 | after any run with at least one worker, spurious wakeups included: the queue holds the youngest tasks in submission order, submitted = queued + held + run but not yet counted + completed, no task runs twice, no wakeup is lost, when all workers are joined everything has run exactly once, and work never gets stuck |
| `ThreadPool.InvAlways` | SystemProgramming/Handson/lab08_thread_management/thread_pool.c:44-146 | the invariant holds after every interleaving |
| `ThreadPool.InvKept` | SystemProgramming/Handson/lab08_thread_management/thread_pool.c:44-146 | every step of a worker, a submitter, the destroyer or a spurious wakeup keeps the invariant |
| `ThreadPool.TasksConserved` | SystemProgramming/Handson/lab08_thread_management/thread_pool.c:61-76 | each submitted task is queued, in one worker's hands, or counted as completed |
| `ThreadPool.NeverTwice` | SystemProgramming/Handson/lab08_thread_management/thread_pool.c:60-72 | run and held tasks together contain each dequeued task exactly once |
| `ThreadPool.NoLostWakeup` | SystemProgramming/Handson/lab08_thread_management/thread_pool.c:50-53 | before shutdown, outside the window between append and signal, at least min(queue length, workers) workers do not wait |
| `ThreadPool.DrainedWhenJoined` | SystemProgramming/Handson/lab08_thread_management/thread_pool.c:129-131 | when every worker has been joined the queue is empty and each task has run exactly once |
| `ThreadPool.NeverStuck` | SystemProgramming/Handson/lab08_thread_management/thread_pool.c:44-146 | while there is work, or a destroy is under way, some step of the pool itself is enabled |
| `ThreadPool.DestroyTerminates` | SystemProgramming/Handson/lab08_thread_management/thread_pool.c:123-131 | once shutdown is set every step lowers a measure, so pool_destroy returns under every schedule |
| `ThreadPool.DestroyBounded` | SystemProgramming/Handson/lab08_thread_management/thread_pool.c:123-131 | the measure bounds the number of steps still to come |
| `ThreadPool.StepsCharged` | SystemProgramming/Handson/lab08_thread_management/thread_pool.c:44-146 | every step of any thread lowers what is left to do, but for a spurious wakeup and the beginning of a submit, which raise it by 2 and 13 |
| `ThreadPool.WorkBounded` | SystemProgramming/Handson/lab08_thread_management/thread_pool.c:44-146 | a run takes at most 14 steps for each submit begun, 3 for each spurious wakeup and 6 for each worker and for the destroy, so queued tasks do not wait long |
| `ThreadPool.AtRestAllIsDone` | SystemProgramming/Handson/lab08_thread_management/thread_pool.c:44-146 | whenever the pool comes to rest, with no step of its own left, the queue is empty and every task submitted has run exactly once |
| `PoolService.SubmitsCounted` | SystemProgramming/Handson/lab08_thread_management/thread_pool.c:105-117 | each submit that has begun has added a task to the count or is about to: none is dropped |
| `PoolService.Settle` | SystemProgramming/Handson/lab08_thread_management/thread_pool.c:44-146 | left to itself the pool comes to rest from every reachable state, by its own steps alone |
| `PoolService.PoolServes` | SystemProgramming/Handson/lab08_thread_management/thread_pool.c:44-146 | for every number n, from the start of any pool there is a run that submits n tasks, runs each once and returns from pool_destroy |
| `TaskQueue.TaskQueue.Append` | SystemProgramming/Handson/lab08_thread_management/thread_pool.c:105-117 | the linked queue gains the task at its end, in a fresh node |
| `TaskQueue.TaskQueue.Take` | SystemProgramming/Handson/lab08_thread_management/thread_pool.c:61-66 | the oldest task is unlinked, with tail reset when the queue empties |
| `TaskQueue.TaskQueue.Release` | SystemProgramming/Handson/lab08_thread_management/thread_pool.c:134-139 | the cleanup loop releases every remaining node exactly once, in order |
| `ProducerConsumer.TransferCorrect` | SystemProgramming/Handson/lab08_thread_management/producer_consumer.c:36-103 | n producers and n consumers of any number of items, every interleaving and spurious wakeup: consumed is a prefix of produced and the ring holds the rest, no run deadlocks, a run that cannot go on has delivered everything, and for up to 1000 items, where the item numbers stay apart, each producer's items come in its own order exactly once |
| `ProducerConsumer.OrderAlways` | SystemProgramming/Handson/lab08_thread_management/producer_consumer.c:39-53 | for up to 1000 items each producer's items are produced in order, each once |
| `ProducerConsumer.InvAlways` | SystemProgramming/Handson/lab08_thread_management/producer_consumer.c:36-103 | after every run: mutual exclusion, FIFO contents, quotas, and that a waiting thread is covered by signalled threads of its side |
| `ProducerConsumer.InvKept` | SystemProgramming/Handson/lab08_thread_management/producer_consumer.c:36-103 | every step keeps the invariant |
| `ProducerConsumer.NeverDeadlocked` | SystemProgramming/Handson/lab08_thread_management/producer_consumer.c:45-58 | although only signal is used, until every thread has moved its quota some thread can step without a spurious wakeup |
| `ProducerConsumer.StalledIsFinished` | SystemProgramming/Handson/lab08_thread_management/producer_consumer.c:45-98 | with equal numbers on both sides, all threads stalled means all finished |
| `ProducerConsumer.WakeKeptByProducer` | SystemProgramming/Handson/lab08_thread_management/producer_consumer.c:45-59 | a producer's steps keep the covering of waiting threads by signalled ones |
| `ProducerConsumer.WakeKeptByConsumer` | SystemProgramming/Handson/lab08_thread_management/producer_consumer.c:79-93 | a consumer's steps keep it too |
| `ProducerConsumer.RunLength` | SystemProgramming/Handson/lab08_thread_management/producer_consumer.c:36-103 | a run takes at most 2n(8 items + 6) steps and three more for each spurious wakeup |
| `ProducerConsumer.AllDelivered` | SystemProgramming/Handson/lab08_thread_management/producer_consumer.c:36-103 | when all have finished, consumed equals produced and has n times items elements |
| `Ring.PutAppends` | SystemProgramming/Handson/lab08_thread_management/producer_consumer.c:51-53 | a put into a ring that is not full appends to its window |
| `Ring.TakeDrops` | SystemProgramming/Handson/lab08_thread_management/producer_consumer.c:84-86 | a take from a ring that is not empty removes the oldest item |
| `Ring.BoundedBuffer.Insert` | SystemProgramming/Handson/lab08_thread_management/producer_consumer.c:51-53 | the array and counters in place: the contents gain the item at the end |
| `Ring.BoundedBuffer.Remove` | SystemProgramming/Handson/lab08_thread_management/producer_consumer.c:84-86 | the array and counters in place: the oldest item is returned and dropped |
| `ShmRing.RingCorrect` | SystemProgramming/Handson/lab09_ipc/shm_demo.c:63-96 | every interleaving: the two counting semaphores and the two slots in hand add up to the ring size, at most one process is inside, the i-th value consumed is 10 * i, nothing gets stuck, and after exactly 10 steps an item both loops have ended with everything transferred |
| `ShmRing.InvKept` | SystemProgramming/Handson/lab09_ipc/shm_demo.c:63-96 | every step keeps semaphore, counter and data invariants |
| `ShmRing.NeverStuck` | SystemProgramming/Handson/lab09_ipc/shm_demo.c:66-85 | until both loops have ended one of the processes can step |
| `Rcu.RcuCorrect` | KernelProgramming/Handson/lab14_sync/rcu_demo.c:31-122 | every run with any number of readers: a held version is fully initialised and not freed, no reader sees an older version after a newer one, every version made is in exactly one of current, callback pending, writer's hands and freed, none is freed twice, and after exit each is freed or its callback is still pending |
| `Rcu.InvAlways` | KernelProgramming/Handson/lab14_sync/rcu_demo.c:31-122 | the invariant holds after every run |
| `Rcu.PlaceKept` | KernelProgramming/Handson/lab14_sync/rcu_demo.c:48-78 | every step keeps each version in exactly one place |
| `Rcu.HeldKept` | KernelProgramming/Handson/lab14_sync/rcu_demo.c:36-40 | what a reader holds stays whole and unfreed through any step of anyone |
| `Rcu.OrderKept` | KernelProgramming/Handson/lab14_sync/rcu_demo.c:55-69 | published versions only grow, so a reader's successive versions never decrease |
| `Rcu.CallbacksDrain` | KernelProgramming/Handson/lab14_sync/rcu_demo.c:23-28 | from any exited state the pending callbacks can all run, after which every version made is freed |
| `Rcu.ExitLeavesCallback` | KernelProgramming/Handson/lab14_sync/rcu_demo.c:109-122 | a run exists that leaves exit with a callback still pending, since exit waits for readers only |
| `Rcu.NothingPendingExactly` | KernelProgramming/Handson/lab14_sync/rcu_demo.c:71-72 | in every run that has exited no callback is left pending exactly when the callback of each replaced version has run |
| `RcuProgress.RcuProgresses` | KernelProgramming/Handson/lab14_sync/rcu_demo.c:31-76 | after any run, told from the threads' own steps: each reader has dereferenced once for each section it got into, the writer has numbered a version every seven steps, or two where kmalloc failed, all others got memory, and the newest of these is current unless it is still being built |
| `RcuProgress.NothingStale` | KernelProgramming/Handson/lab14_sync/rcu_demo.c:36-40 | from any moment on a reader dereferences only versions at least as new as the one current then |
| `Barrier.MessagePassing` | KernelProgramming/Handson/lab15_signals_barriers/barrier_demo.c:29-71 | when stores and loads may be reordered except across barriers, every run that takes the branch prints flag = 1 and message = 42 exactly when the writer's barrier and the one after the test are both there; the barrier in the wait loop makes no difference |
| `Barrier.BarriersSuffice` | KernelProgramming/Handson/lab15_signals_barriers/barrier_demo.c:34-69 | with both barriers every such run prints 42, for every number of rounds of the wait loop |
| `Barrier.FlagStoredFirst` | KernelProgramming/Handson/lab15_signals_barriers/barrier_demo.c:34-43 | without the write barrier a run prints the old message |
| `Barrier.MessageLoadedFirst` | KernelProgramming/Handson/lab15_signals_barriers/barrier_demo.c:67-70 | without the read barrier after the test a run prints the old message, whatever the wait loop's barrier |
| `Barrier.BranchReached` | KernelProgramming/Handson/lab15_signals_barriers/barrier_demo.c:67-70 | whatever barriers are there, some run takes the branch and prints the message, so that none of this holds for want of runs |
| `Barrier.InvKept` | KernelProgramming/Handson/lab15_signals_barriers/barrier_demo.c:34-70 | the flag is set only after the message, and what is printed is loaded after the test |
| `EpollServer.EdgesNeverLost` | NetworkProgramming/Handson/lab06_advanced_io/epoll_server.c:79-143 | whatever arrives during a batch: each time control is back at epoll_wait every open client is registered and counted, and one with unread bytes or a departed peer has an edge queued; a client is closed only when it was reset or all it sent has been read; no byte is lost or read twice, and connections are accepted in order, each once |
| `EpollServer.PassAccepts` | NetworkProgramming/Handson/lab06_advanced_io/epoll_server.c:88-114 | if the batch holds the listener and no accept fails while something is queued, then by the next epoll_wait every connection queued at this one has left the queue and is open, registered and counted |
| `EpollServer.PassDrains` | NetworkProgramming/Handson/lab06_advanced_io/epoll_server.c:115-143 | a client of the batch has been read, by the next epoll_wait, at least up to all it had sent at this one, and has been closed if its peer had left by then |
| `EpollServer.ReportedOnce` | NetworkProgramming/Handson/lab06_advanced_io/epoll_server.c:80-119 | if no peer stirs, a client of the batch is not reported again after the pass |
| `EpollServer.Conversation` | NetworkProgramming/Handson/lab06_advanced_io/epoll_server.c:79-143 | a run in which a client connects, sends, is accepted, read, leaves, is read to its end and closed |
| `EpollServer.BytesKept` | NetworkProgramming/Handson/lab06_advanced_io/epoll_server.c:119-134 | each step keeps, for every connection, that what was sent has been read or is still unread |
| `EpollServer.OrderKept` | NetworkProgramming/Handson/lab06_advanced_io/epoll_server.c:90-102 | each step keeps the queue in order of arrival and each connection under one descriptor |
| `EpollServer.InvAlways` | NetworkProgramming/Handson/lab06_advanced_io/epoll_server.c:79-143 | the invariant holds after every run of peers and server |
| `EpollServer.RememberedKept` | NetworkProgramming/Handson/lab06_advanced_io/epoll_server.c:119-134 | every step keeps a readable client in the queued edges, the rest of the batch or the server's hands |
| `EpollServer.BatchKept` | NetworkProgramming/Handson/lab06_advanced_io/epoll_server.c:87-142 | the batch names distinct registered clients other than the one at work, also across closes and reused descriptors |
| `EpollServer.CountKept` | NetworkProgramming/Handson/lab06_advanced_io/epoll_server.c:102-140 | num_clients follows the registered descriptors through every step |
| `EpollServer.CloseKept` | NetworkProgramming/Handson/lab06_advanced_io/epoll_server.c:120-139 | a client reaches its close only with its peer gone and nothing unread, or reset |
| `EpollServer.PassProgresses` | NetworkProgramming/Handson/lab06_advanced_io/epoll_server.c:87-142 | if the peers keep still every server step lowers a lexicographic measure, so a pass over a batch ends |
| `EpollServer.PassNeverStuck` | NetworkProgramming/Handson/lab06_advanced_io/epoll_server.c:87-142 | the server always has a step that is no failing accept |
| `SelectServer.PassServesEachOnce` | NetworkProgramming/Handson/lab06_advanced_io/select_server.c:98-116 | the pass with swap-removal reads each ready descriptor from its start index on exactly once and no other, closes those that hung up, and leaves the rest, each once |
| `SelectServer.SwapRemoveKeeps` | NetworkProgramming/Handson/lab06_advanced_io/select_server.c:108-110 | moving the last element into the freed slot loses only the removed descriptor, also from the part still to visit |
| `SelectServer.RoundServes` | NetworkProgramming/Handson/lab06_advanced_io/select_server.c:57-117 | one round reads every marked client exactly once and not the newcomer, and leaves the old clients and the newcomer less those that hung up; the newcomer is turned away exactly when 64 clients are open |
| `SelectServer.ClientsAlways` | NetworkProgramming/Handson/lab06_advanced_io/select_server.c:57-117 | after any rounds the array is the duplicate-free set of open client descriptors, at most 64 |
| `SelectServer.Server.ServicePass` | NetworkProgramming/Handson/lab06_advanced_io/select_server.c:98-116 | the loop on the array, with its decremented index, does what the pass does, read and close calls in order |
| `SelectServer.Server.ServeRound` | NetworkProgramming/Handson/lab06_advanced_io/select_server.c:79-116 | one round on the array, including the client turned away when it is full |
| `SelectServer.Server.Watch` | NetworkProgramming/Handson/lab06_advanced_io/select_server.c:58-67 | the watched set is the listener and the clients, and maxfd is its maximum |
| `MiniProtocol.HeaderRoundTrip` | NetworkProgramming/Handson/project_mini_protocol/protocol.h:25-64 | a header survives its 12 big-endian bytes |
| `MiniProtocol.ReceivedExactly` | NetworkProgramming/Handson/project_mini_protocol/protocol.h:25-73 | every stream, from its bytes: refused with -1 exactly when bytes 0 to 3 are not 4D 49 4E 49, else with -2 when byte 4 is not 1, else with -3 when bytes 8 to 11 spell more than 4096; otherwise the message that bytes 5 to 7 and the payload spell, unless the stream ends before it does |
| `MiniProtocol.FrameBytes` | NetworkProgramming/Handson/project_mini_protocol/protocol.h:55-64 | the twelve bytes a message goes out behind |
| `MiniProtocol.ReceiveFrame` | NetworkProgramming/Handson/project_mini_protocol/mini_server.c:75-92 | a frame is received whole and what follows it is left alone |
| `MiniProtocol.FramesReceived` | NetworkProgramming/Handson/project_mini_protocol/mini_server.c:55-92 | the messages received from a stream are exactly those sent |
| `MiniProtocol.ServeFrames` | NetworkProgramming/Handson/project_mini_protocol/mini_server.c:74-137 | a run of requests is answered one by one and the server goes on with whatever follows |
| `MiniProtocol.ServeContinues` | NetworkProgramming/Handson/project_mini_protocol/mini_server.c:74-137 | serving a stream equals serving some whole frames of it and going on with the rest from the state they leave |
| `MiniProtocol.SessionAnswered` | NetworkProgramming/Handson/project_mini_protocol/mini_server.c:74-137 | a session ended by BYE: every request gets exactly one reply, the BYE included, and what comes after it is not looked at |
| `MiniProtocol.BadHeaderEnds` | NetworkProgramming/Handson/project_mini_protocol/mini_server.c:79-84 | after any whole requests: twelve bytes that are refused draw one error with sequence number 0, whatever follows, and end the session; a message cut short ends it without a reply; neither is counted |
| `MiniProtocol.NameIsLast` | NetworkProgramming/Handson/project_mini_protocol/mini_server.c:101-110 | the name a client ends up with is that of its last HELLO of at least 32 bytes, and no other message changes it |
| `MiniProtocol.ReplyMeans` | NetworkProgramming/Handson/project_mini_protocol/mini_server.c:100-136 | the reply carries the request's number; DATA gets its own payload back; STATUS carries the uptime at that message, the connections and the messages so far including itself, modulo 2^32; an unknown type gets an error |
| `MiniServer.Connection.ReadAll` | NetworkProgramming/Handson/project_mini_protocol/mini_server.c:32-41 | exactly n bytes however the stream is cut into chunks, or 0 when it ends before |
| `MiniServer.Connection.WriteAll` | NetworkProgramming/Handson/project_mini_protocol/mini_server.c:44-53 | all bytes are written however the stream takes them |
| `MiniServer.Connection.SendMessage` | NetworkProgramming/Handson/project_mini_protocol/mini_server.c:55-63 | what goes out is the frame of the message |
| `MiniServer.ReceiveMessage` | NetworkProgramming/Handson/project_mini_protocol/mini_server.c:75-92 | the status and message of the next frame, independent of chunking, with the rest of the stream unread |
| `MiniServer.MiniServer.Answer` | NetworkProgramming/Handson/project_mini_protocol/mini_server.c:100-136 | the switch sends the reply and sets the name a HELLO gives |
| `MiniServer.MiniServer.HandleClient` | NetworkProgramming/Handson/project_mini_protocol/mini_server.c:65-141 | for every stream and every chunking, the bytes sent, the message counter and the name are those the stream alone determines |
| `MiniClient.RecvMessage` | NetworkProgramming/Handson/project_mini_protocol/mini_client.c:54-73 | 0 and the message of the next frame, -1 for a stream that ends first or a refused header |
| `MiniClient.Exchange` | NetworkProgramming/Handson/project_mini_protocol/mini_client.c:124-129 | a request sent to a server that answers as above is followed by exactly its reply |
| `MiniClient.Session` | NetworkProgramming/Handson/project_mini_protocol/mini_client.c:99-157 | the session sends exactly the requests of its input lines and receives exactly one reply to each, in order |
| `MiniClient.SessionAndServer` | NetworkProgramming/Handson/project_mini_protocol/mini_client.c:99-157 | the bytes a session sends, given to the server's own loop in whatever chunks, draw exactly the replies the client received: one for each request, in order, under its number |
| `MiniClient.RequestNumbers` | NetworkProgramming/Handson/project_mini_protocol/mini_client.c:119-157 | requests are numbered one by one modulo 65536 and only the last can be a BYE |
| `MiniClient.EveryRequestAnswered` | NetworkProgramming/Handson/project_mini_protocol/mini_client.c:99-157 | the bytes of the whole session draw from the server one reply to each request, under the request's own number, and advance its counter by that many |
| `MiniClient.NameLearned` | NetworkProgramming/Handson/project_mini_protocol/mini_client.c:104-108 | a name of up to 31 bytes reaches the server unchanged |
| `MiniClient.FirstTyped` | NetworkProgramming/Handson/project_mini_protocol/mini_client.c:119-157 | what a line makes the client send: nothing for an empty one, BYE and no more for /quit, STATUS for /status, else the text as DATA, each under the next number |
| `MiniClient.TextsEchoed` | NetworkProgramming/Handson/project_mini_protocol/mini_client.c:119-157 | every text typed that is no command comes back in the reply to its request, under its number |
| `Checksum.ComputeChecksum` | NetworkProgramming/Handson/lab04_raw_sockets/ping_demo.c:23-39 | the loop with 32-bit wrap-around and two folds computes the folded complement of the word sum |
| `Checksum.ChecksumIsComplement` | NetworkProgramming/Handson/lab04_raw_sockets/ping_demo.c:23-39 | for every length an int can hold, the result is the complement of the one's complement sum of RFC 1071, section 1, exactly when the plain sum is below 2^32 |
| `Checksum.OddPadded` | NetworkProgramming/Handson/lab04_raw_sockets/ping_demo.c:33-34 | an odd last byte counts as if a zero byte followed it (RFC 1071, section 4.1) |
| `Checksum.NoWrapUpTo` | NetworkProgramming/Handson/lab04_raw_sockets/ping_demo.c:28-34 | up to 131074 bytes the sum never wraps |
| `Checksum.LongestSafeLength` | NetworkProgramming/Handson/lab04_raw_sockets/ping_demo.c:28-34 | with one byte more it can, and the result is then wrong |
| `Checksum.FoldedIsCanonical` | NetworkProgramming/Handson/lab04_raw_sockets/ping_demo.c:36-38 | two folds of any 32-bit sum leave its 16-bit one's complement representative |
| `Checksum.StoredChecksumCancels` | NetworkProgramming/Handson/lab04_raw_sockets/ping_demo.c:99-100 | storing the checksum in a zero field at an even offset makes the checksum of the whole 0 |
| `Checksum.ByteOrderIndependent` | NetworkProgramming/Handson/lab04_raw_sockets/ping_demo.c:23-39 | swapping the bytes of every word swaps the bytes of the checksum (RFC 1071, section 2) |
| `Checksum.BuildEchoRequest` | NetworkProgramming/Handson/lab04_raw_sockets/ping_demo.c:93-100 | the packet has 72 bytes, type 8 and code 0, identifier and sequence number in network order, the timestamp and zeros, and checksum 0 over the whole |
| `Prime.MathlibIsPrime` | SystemProgramming/Handson/lab03_libraries/mathlib_advanced.c:42-51 | 1 exactly for primes, 0 for other numbers, and a signed overflow of i * i exactly for the primes from 46337 squared on |
| `Prime.RootSuffices` | SystemProgramming/Handson/lab03_libraries/mathlib_advanced.c:46-50 | a number without a divisor below i, and below i squared, is prime |
| `Prime.StepOfSix` | SystemProgramming/Handson/lab03_libraries/mathlib_advanced.c:46-47 | trying i and i + 2 rules out all of i .. i + 5 |
| `Prime.LargestSquare` | SystemProgramming/Handson/lab03_libraries/mathlib_advanced.c:46 | 46343 is the first loop value whose square exceeds the int range |
| `LostUpdates.FinalValues` | Debugging/Handson/lab01_gdb/thread_debug.c:28-32 | for every number of threads and increments the counter can end with exactly the values from a least one, which is 2 from two threads of two increments on, 1 for several threads of one, all for a single thread, up to threads * n |
| `LostUpdates.NothingLostExactly` | Debugging/Handson/lab01_gdb/thread_debug.c:28-32 | every complete interleaving ends at threads * n exactly when there is at most one thread or nothing to do |
| `LostUpdates.FinalBounds` | Debugging/Handson/lab01_gdb/thread_debug.c:28-32 | every complete interleaving ends between that least value and threads * n |
| `LostUpdates.LoseMany` | SystemProgramming/Handson/lab08_thread_management/thread_lab.c:57-59 | any number of lost updates up to (threads - 1) * n can occur |
| `LostUpdates.LoseAlmostAll` | SystemProgramming/Handson/lab08_thread_management/thread_lab.c:57-59 | for every j below n a run ends with 2 + j |
| `LockedCounter.CountsEveryIncrement` | SystemProgramming/Handson/lab08_thread_management/thread_lab.c:87-95 | under the mutex every run is finite, and where no thread can step all have finished and the counter is exactly threads * n |
| `LockedCounter.InvKept` | SystemProgramming/Handson/lab08_thread_management/thread_lab.c:89-93 | only the holder is inside, what it loaded is current, and the counter has every increment made |
| `MemFs.MemfsCorrect` | SystemProgramming/Handson/lab17_fuse/memfs.c:37-253 | over every sequence of calls from empty that creates under existing directories and never under a path too long for a name: the slots stand for the map from path to node, answers agree, no name is used twice, and every used name's parent is a directory |
| `MemFs.RunRefines` | SystemProgramming/Handson/lab17_fuse/memfs.c:37-253 | over any sequence of calls the slots stand for the map all along exactly when nothing is created under a path of more than 255 bytes, and then all answers agree |
| `MemFs.ShortPathsStorable` | SystemProgramming/Handson/lab17_fuse/memfs.c:127-132 | which holds when all created paths have at most 255 bytes |
| `MemFs.StepRefines` | SystemProgramming/Handson/lab17_fuse/memfs.c:123-253 | each call answers as the map operation does, error codes included, and has its effect exactly when it does not create under a path of more than 255 bytes |
| `MemFs.TreeAlways` | SystemProgramming/Handson/lab17_fuse/memfs.c:123-235 | every path keeps a directory as parent through any calls that create under directories |
| `MemFs.TreeKept` | SystemProgramming/Handson/lab17_fuse/memfs.c:206-235 | no unlink and no rmdir takes away a directory that something hangs from |
| `MemFs.FullExactly` | SystemProgramming/Handson/lab17_fuse/memfs.c:47-57 | the slots are full exactly when there are as many paths as slots |
| `MemFs.CreateKeepsDistinct` | SystemProgramming/Handson/lab17_fuse/memfs.c:127-132 | a creation that succeeds keeps names apart exactly when the name it stores, the path cut to 255 bytes, is not in use |
| `MemFs.ShortPathsStayDistinct` | SystemProgramming/Handson/lab17_fuse/memfs.c:127-132 | which holds for every path of at most 255 bytes |
| `MemFs.LongPathCreatedTwice` | SystemProgramming/Handson/lab17_fuse/memfs.c:127-132 | a longer path can be created twice, leaving two slots with one name |
| `MemFs.ReaddirLists` | SystemProgramming/Handson/lab17_fuse/memfs.c:94-121 | readdir lists each direct child exactly once and nothing else |
| `MemFs.ListedInOrder` | SystemProgramming/Handson/lab17_fuse/memfs.c:102-120 | and it lists them in slot order |
| `MemFs.ParentOfJoin` | SystemProgramming/Handson/lab17_fuse/memfs.c:108-117 | what is listed under a directory has that directory as parent |
| `MemFs.ReadRefines` | SystemProgramming/Handson/lab17_fuse/memfs.c:151-163 | a read returns exactly the covered range of the node's bytes |
| `MemFs.ReadsBack` | SystemProgramming/Handson/lab17_fuse/memfs.c:166-188 | what was written is read back, with the old bytes around it and zeros in a gap |
| `MemFsCalls.AnswersExactly` | SystemProgramming/Handson/lab17_fuse/memfs.c:123-253 | when each call succeeds, and with which error number it fails: the path in use or not, its kind, the 64 slots, the megabyte, what lies under it |
| `MemFsCalls.FailureKeeps` | SystemProgramming/Handson/lab17_fuse/memfs.c:123-253 | a call that fails changes nothing |
| `MemFsCalls.OthersUntouched` | SystemProgramming/Handson/lab17_fuse/memfs.c:123-253 | a call at one path is not seen by a read at another |
| `MemFsCalls.CreatedEmpty` | SystemProgramming/Handson/lab17_fuse/memfs.c:123-204 | what is created is empty and a file or a directory as asked |
| `MemFsCalls.RemovedGone` | SystemProgramming/Handson/lab17_fuse/memfs.c:206-235 | what is removed is gone, and its path can be created again |
| `MemFsCalls.WrittenBack` | SystemProgramming/Handson/lab17_fuse/memfs.c:165-188 | a write within the limit is read back, with the old bytes around it and zeros in a gap, and the file is no longer than it must be |
| `MemFsCalls.TruncatedTo` | SystemProgramming/Handson/lab17_fuse/memfs.c:237-253 | a truncate leaves the first bytes, and zeros beyond the old end |
| `MemFsCalls.LimitAlways` | SystemProgramming/Handson/lab17_fuse/memfs.c:165-253 | no file ever grows beyond a megabyte |
| `MemFsDriver.FileSystem.FindEntry` | SystemProgramming/Handson/lab17_fuse/memfs.c:37-44 | the scan returns the first used slot with the name |
| `MemFsDriver.FileSystem.AllocEntry` | SystemProgramming/Handson/lab17_fuse/memfs.c:47-57 | the first free slot is cleared and taken, others untouched |
| `MemFsDriver.FileSystem.Readdir` | SystemProgramming/Handson/lab17_fuse/memfs.c:94-121 | the loop over the slots lists the two dots and the children in slot order |
| `MemFsDriver.FileSystem.CreateFile` | SystemProgramming/Handson/lab17_fuse/memfs.c:124-141 | the array changes as the call's step says, with its answer |
| `MemFsDriver.FileSystem.MakeDirectory` | SystemProgramming/Handson/lab17_fuse/memfs.c:191-204 | likewise for directories |
| `MemFsDriver.FileSystem.Read` | SystemProgramming/Handson/lab17_fuse/memfs.c:151-163 | bytes and answer of the read, nothing changed |
| `MemFsDriver.FileSystem.WriteFile` | SystemProgramming/Handson/lab17_fuse/memfs.c:166-188 | whatever the grown memory held, the file is the old bytes, a zeroed gap and the new bytes |
| `MemFsDriver.FileSystem.UnlinkFile` | SystemProgramming/Handson/lab17_fuse/memfs.c:207-215 | the slot is freed, or ENOENT, or EISDIR |
| `MemFsDriver.FileSystem.RemoveDirectory` | SystemProgramming/Handson/lab17_fuse/memfs.c:218-235 | the slot is freed only if nothing lies under it |
| `MemFsDriver.FileSystem.TruncateFile` | SystemProgramming/Handson/lab17_fuse/memfs.c:238-253 | the file is cut or zero-extended, and a negative or too large size is ENOSPC |

## Left out

- FatDriver.FatDriver.Read: a method has to end, so it requires that the loop does; `FatHalting.HaltsExactly` says exactly when that is, and `FatRead.ReadRefinesFlatFile` gives it for every well-stored file. A cluster size of 0, by which the source divides, is excluded.
- FatDriver.FatDriver.ReadClusters: likewise.
- FatRead.LayoutRegionsDisjoint: requires the layout sums to fit in 32 bits, which the mount code does not check; `FatRead.PlacedExactly` says that this is exactly when the computed places are the true ones.
- DnsName.DecodeFollows: for a name that fits, or whose labels hold no byte that reads as an end or a pointer; `DnsCut.RecoveredExactly` gives the exact condition for the others.
- DnsName.ParseEnds: a sufficient condition that can be read off the jumps; `DnsEnds.ParsesExactly` is the exact one.
- DnsName.ParseName: a method has to end, and reading past the buffer is undefined in C, so it requires a parse that ends inside the buffer; `DnsEnds.ParsesExactly` says exactly when that is.
- DnsMessage.PrintAnswers: likewise requires that the parses of the walk end and stay inside the 512-byte buffer.
- DnsMessage.PrintAnswer: likewise for one record: its address data inside the buffer, its CNAME parse ending there.
- DnsMessage.HandleResponse: likewise.
- The query that main of dns_client.c builds around `encode_name`: constant header and question bytes.
- DnsMessage.AnswersRecovered: a name with a zero byte is shown up to that byte, as printf does.
- ThreadPool.PoolCorrect: no submit starts once pool_destroy has, as in the source's main; tasks are numbered in submission order and end when run.
- ProducerConsumer.TransferCorrect: the order of each producer's items is told from their numbers, so for at most 1000 items each; the rest holds for any number.
- Barrier.MessagePassing: the machine also lets loads of the same variable pass each other, which real processors do not; the property holds all the same and the counterexamples do not use it.
- MiniServer.Connection.WriteAll: a write that fails is not modelled; the source ignores the result.
- MiniServer.MiniServer.HandleClient: the clock is a function of the message count, and the connection counters are unbounded, which the 32-bit cut on the wire does not tell apart from their 64-bit wrap-around.
- MemFs.MemfsCorrect: requires what the kernel's path lookup provides, that a parent exists as a directory when something is created under it; and no creation under a path too long for a name, which `MemFs.RunRefines` shows to be needed.
- MiniClient.Exchange: within a session the far end answers by `MiniProtocol.Serve`, one request at a time as they arrive; `MiniProtocol.ServeContinues` and `MiniClient.SessionAndServer` tie that to the server's own loop on the whole stream. The client and the server are not interleaved step by step.
- LostUpdates.FinalValues: each load and each store of the counter is taken as atomic; in C the race is undefined.
- Checksum.BuildEchoRequest: the timestamp is a parameter.
- Memory ordering in the other concurrent programs: mutexes, semaphores, condition variables and the RCU publish order are taken as sequentially consistent steps; a mutex does not choose fairly.
- RCU's grace period is a step rule: a callback, or synchronize_rcu, waits for the readers inside at that moment. The two error paths of the module's init are not modelled.
- C's unsigned conversions of the layout arithmetic assume two's complement; signed overflow there is taken as wrap-around.
- `strtok`, `strncpy`, `strcasecmp`, `fread`, `realloc`, `snprintf` and `memcpy` are modelled by what their manuals promise; FUSE is taken to pass nonempty absolute paths, and offsets and sizes within off_t and memory.
- getattr, open and chmod-like fields of both filesystems, times, modes and owners: plain field access.
- Directories longer than one cluster, long names and the `.` and `..` slots of FAT: the source does not read them.
- Allocation failures, failing epoll_ctl calls, descriptors of FD_SETSIZE or more, and how many bytes an echo delivers.
- Signals, timeouts, `pthread_cancel` in the producer and consumer demo, sleeping, printing, sockets and process setup.
- Floating point, the kernel modules without an algorithm, and the sequential debugging labs.

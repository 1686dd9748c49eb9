# Models of TDLib components, verified in Dafny

Each module models one component of TDLib and proves what that component is for.
Imperative code is modelled by methods, classes, arrays and loops; each of them is proved
against a function, and the theorems are about that function. Concurrent code is a state
machine over its atomic accesses, in every interleaving. Check everything with
`dafny verify dfyconfig.toml`.

- **Source splitter** (`SplitSource.php`): `UnionFind`, `StableSort`, `Packing`,
  `SplitSource`, `SplitTheorems`. Union-find with random linking, grouping, and
  longest-first packing. The files do not depend on the coin flips and are close to the
  best possible split.
- **Queues** (`bench_queue.cpp`): `SpscRing` (the ring with 32-bit indices), `BufferQueue`
  (the same as a class), `FdQueue` (sleeping and waking through an event counter),
  `EchoTokens` and `Echo` (the echo benchmark over two such queues), `EchoTermination`
  (every run of it is finite).
- **Memory profiler** (`memprof.cpp`): `AllocTable` (the concurrent table of allocation
  sites), `Memprof` (accounting of malloc, free and realloc), `ConcurrentMemprof` (the same
  accounting with many threads).
- **TL code generator** (`tl_writer_cpp.cpp`, `tl_writer_td.cpp`, `tl_generate.cpp`):
  `TlBytes`, `TlSchema` (schemas, values and the reference encoding), `TlWriter` (the
  generator), `TlWriterLoops` (its loops), `TlRuntime` (what emitted code does),
  `TlStoreProof`, `TlFetchProof`, `TlTheorems`, `TlRewrite`. Storing and fetching emitted
  for one schema undo each other.
- **Session state** (`AuthData`): `DuplicateChecker`, `MessageIds`, `Session`, with
  `Doubles` for the rounding of floating-point numbers.
- **Packets** (`CryptoStorer.h`, `PacketStorer.h`): `PacketStorer`, `PacketWriter`,
  `Container`, `ServiceMessages`, `CryptoPacket`.
- **Key exchange** (`DhHandshake`, `Handshake.cpp`): `NumberTheory`, `GaussLemma`,
  `QuadraticCharacter`, `DhConfig` (the check of parameters is exactly a check for
  squares), `DhExchange` and `DhHandshake` (one side of an exchange), `HandshakeData`,
  `Handshake` (the five-state client), `HonestHandshake` (a whole exchange),
  `AuthKeyHandshake` (the client as an object).
- **Codecs**: `Bytes`, `ProxySecret` (links), `TlsReader` (a stream of records).
- `Wrappers` and `Sequences` hold what several components need.

Some promises do not hold of the code on all inputs. For each the exact condition is proved,
and an input that fails:

- Code generated for storing tests a variable that it never sets if a conditional `#` field
  is absent while a field that depends on it is stored. Storing and fetching work exactly
  for the other values (`TlTheorems.RoundTrip`, `TlTheorems.ConditionalFlagsLoseData`).
- `get_used_memory_size` keeps sizes in 32 bits. It is the number of bytes held exactly if
  every block is below 2^31 bytes (`Memprof.Profiler.UsedMemory`, `Memprof.TruncatedBlock`).
  For the same reason `realloc` can lose bytes; it copies all it should exactly under the
  condition in `Memprof.CopiesCommonPrefix` (`Memprof.ReallocLosesBytes`).
- A Diffie-Hellman exchange that is stored and parsed forgets the hash of the other value.
  It reaches the verdict it would have reached exactly if no commitment was broken
  (`DhExchange.ReloadedChecks`, `DhExchange.RevealedAfterReload`, `DhExchange.LostCommitment`).
- A burst of message identifiers stays valid up to number 30 * 2^19 - 512. The next one can
  be rounded onto the bound and refused (`MessageIds.ValidWhenCreated`,
  `MessageIds.OneTooMany`).
- The comment on packets promises to refuse those from too far in the future. None is
  refused for that, since the packet corrects the clock estimate first
  (`Session.NeverTooNew`).

## Model

| member | source | states |
|---|---|---|
| UnionFind.Find | td-master/SplitSource.php:3-8 | finding returns the representative of the element and relinks the element to it; which elements belong together does not change, and the search ends |
| UnionFind.Union | td-master/SplitSource.php:10-21 | exactly the two classes become one, whichever way the coin falls; all other pairs are related as before |
| SplitSource.ConnectAll | td-master/SplitSource.php:157-184 | after all unions two functions have the same representative exactly when a chain of shared dependency names links them |
| SplitSource.GroupsPartition | td-master/SplitSource.php:185-195 | the groups hold every function exactly once; two functions are in one group exactly when they are linked |
| SplitSource.GroupFunctions | td-master/SplitSource.php:185-195 | the sets built under random representatives are, in order, the groups that the links alone determine, with their sizes |
| SplitSource.PackFiles | td-master/SplitSource.php:196-204 | the loop over sets, sorted by size, leaves in every file what the greedy rule assigns to it |
| SplitSource.SplitFile | td-master/SplitSource.php:152-204 | the files are a function of the functions and the dependencies, so they do not depend on the coin flips; too few functions are refused |
| SplitTheorems.EveryFunctionOnce | td-master/SplitSource.php:185-204 | every function lands in exactly one file, exactly once |
| SplitTheorems.LinkedInSameFile | td-master/SplitSource.php:157-204 | functions linked through shared dependencies land in the same file |
| SplitTheorems.SplitNearBest | td-master/SplitSource.php:157-204 | the largest file is at most (4/3 - 1/(3m)) times the largest file of any split into m files that keeps linked functions together |
| Packing.FindSmallest | td-master/SplitSource.php:201 | the chosen file is the first of the smallest ones |
| Packing.LoadsConserve | td-master/SplitSource.php:198-204 | packing loses no bytes: the file sizes add up to the set sizes |
| Packing.SpreadBound | td-master/SplitSource.php:198-204 | no two files ever differ by more than the largest set, in whatever order sets are packed |
| Packing.LongestFirstBound | td-master/SplitSource.php:196-204 | longest-first packing is within (4/3 - 1/(3m)) of every packing into m files (Graham) |
| Packing.BoundIsReached | td-master/SplitSource.php:196-204 | the bound cannot be improved: sizes 3, 3, 2, 2, 2 in two files reach it |
| StableSort.SortPermutes | td-master/SplitSource.php:196 | sorting by size permutes the sets |
| StableSort.SortDescends | td-master/SplitSource.php:196 | sizes descend after sorting |
| StableSort.SortStable | td-master/SplitSource.php:196 | sets of equal size keep their order |
| StableSort.SortCommutes | td-master/SplitSource.php:196 | sorting keys by size and then looking up their sets is sorting the sets |
| SpscRing.TestsAreExact | td-master/benchmark/bench_queue.cpp:241-255 | the 32-bit tests for empty and full and the two ready counts are exact differences of unbounded counters |
| SpscRing.StepRefines | td-master/benchmark/bench_queue.cpp:257-281 | every atomic access of reader or writer does to the wrapping indices and slots what it does to unbounded counters and the history; no unread slot is overwritten |
| SpscRing.RunRefines | td-master/benchmark/bench_queue.cpp:210-281 | in every interleaving every reached ring is described by its history |
| SpscRing.HistoryIsTrace | td-master/benchmark/bench_queue.cpp:257-276 | the history is exactly the values given to put and returned by get |
| SpscRing.FirstInFirstOut | td-master/benchmark/bench_queue.cpp:210-331 | in every interleaving the values taken are a prefix of the values put |
| BufferQueue.Queue.UpdateReader | td-master/benchmark/bench_queue.cpp:265-268 | returns how many published values are unread |
| BufferQueue.Queue.UpdateWriter | td-master/benchmark/bench_queue.cpp:278-281 | returns how many slots are free |
| BufferQueue.Queue.GetUnsafe | td-master/benchmark/bench_queue.cpp:257-259 | takes the oldest value not taken yet |
| BufferQueue.Queue.PutUnsafe | td-master/benchmark/bench_queue.cpp:270-272 | adds a value without touching unread ones |
| BufferQueue.Queue.Get | td-master/benchmark/bench_queue.cpp:293-311 | returns the next value in order and releases its slot |
| BufferQueue.Queue.Put | td-master/benchmark/bench_queue.cpp:313-327 | publishes the value, and ends the program exactly when all slots are unreleased |
| FdQueue.RunInv | td-master/benchmark/bench_queue.cpp:334-430 | the invariant of flag, event counter and ring holds in every reachable state |
| FdQueue.NoLostWakeup | td-master/benchmark/bench_queue.cpp:346-366 | a reader asleep on a zero event counter while the writer is outside put and flush has taken every published value |
| FdQueue.WokenInTwo | td-master/benchmark/bench_queue.cpp:348-354 | a sleeping reader with an unread published value is woken within the two remaining steps of the writer |
| FdQueue.WakesUp | td-master/benchmark/bench_queue.cpp:394-400 | a woken reader finds the value: it leaves the sleeping loop with it |
| FdQueue.DiesWhenFull | td-master/benchmark/bench_queue.cpp:313-322 | "Put strong failed" happens exactly when no slot has been released |
| FdQueue.FirstInFirstOut | td-master/benchmark/bench_queue.cpp:403-425 | values come out in order, and never more than the capacity are under way |
| EchoTokens.TokensNameConnections | td-master/benchmark/bench_queue.cpp:707-711 | 32-bit tokens name their connection exactly as long as there are at most 128 of them |
| EchoTokens.SentInOrder | td-master/benchmark/bench_queue.cpp:728-740 | if tokens arrive in order of query numbers, what is sent back is in order |
| EchoTokens.UnderWay | td-master/benchmark/bench_queue.cpp:729-739 | tokens sent, minus tokens seen, is connections started minus connections finished |
| EchoTokens.AllAnswered | td-master/benchmark/bench_queue.cpp:729-740 | when everything sent has been seen, every connection has had all its queries answered |
| Echo.NoCheckFails | td-master/benchmark/bench_queue.cpp:704-742 | no CHECK fails and "Put strong failed" is unreachable, in every interleaving |
| Echo.TokensConserved | td-master/benchmark/bench_queue.cpp:704-742 | one token is under way for every active connection, in every reachable state |
| Echo.NoDeadlock | td-master/benchmark/bench_queue.cpp:704-742 | as long as one of the two has not finished, one of them can move |
| Echo.EndsWithAllAnswered | td-master/benchmark/bench_queue.cpp:721-742 | at the end every query of every connection has been answered exactly once and in order |
| EchoTermination.EveryRunEnds | td-master/benchmark/bench_queue.cpp:704-742 | no interleaving takes more than 2 * 519 * T + 11 * n + 1022 steps for n connections with T queries in all: polling is bounded, each put wakes at most once |
| EchoTermination.EndsAnswered | td-master/benchmark/bench_queue.cpp:704-742 | a run that cannot go on has ended in both threads, with all T replies in order |
| AllocTable.NoSlotBeyond | td-master/memprof/memprof.cpp:157-189 | a search that reaches an empty slot knows that its hash is nowhere in the table |
| AllocTable.InsertKeeps | td-master/memprof/memprof.cpp:171-175 | filling that slot leaves no gaps on any probe path and no hash twice |
| AllocTable.OneSlotPerSite | td-master/memprof/memprof.cpp:154-191 | in every interleaving each hash occupies at most one slot and its probe path has no gaps |
| AllocTable.SlotsStay | td-master/memprof/memprof.cpp:171-178 | an occupied slot keeps its hash for ever |
| AllocTable.ResultStays | td-master/memprof/memprof.cpp:175-178 | a returned position stays valid for its hash, or that of the fallback, for ever, and is what any other thread gets for it |
| AllocTable.CounterLags | td-master/memprof/memprof.cpp:160-175 | with T threads at most half the table plus T + 1 slots are ever occupied, although the counter is read before and increased after the insertion |
| AllocTable.NeverTooFull | td-master/memprof/memprof.cpp:161-188 | with few enough threads neither the 70% assertion fails nor a search wraps around twice |
| AllocTable.ProgramNeverTooFull | td-master/memprof/memprof.cpp:146-188 | the same for the table of ten million slots and fewer than a fifth of that, minus one, threads |
| Memprof.Profiler.GetHtPos | td-master/memprof/memprof.cpp:154-191 | the position holds the hash that was asked for, or that of the unknown site when the table is more than half full; everything else stays |
| Memprof.Profiler.Malloc | td-master/memprof/memprof.cpp:203-237 | a new block is charged to its own site, or to the unknown one exactly if the site is new and the table is more than half full; it fails exactly for sizes whose 32-bit header is negative |
| Memprof.Profiler.Free | td-master/memprof/memprof.cpp:252-267 | the block disappears and its slot is credited; the underflow assertion holds |
| Memprof.Profiler.Realloc | td-master/memprof/memprof.cpp:276-286 | the new block starts with the copied part of the old one and is charged to the site of the call; the old block is gone |
| Memprof.Profiler.WriteBytes | td-master/memprof/memprof.cpp:276-286 | what the program writes into a block changes no accounting |
| Memprof.Profiler.UsedMemory | td-master/memprof/memprof.cpp:193-201 | the sum over slots is the sum of charged sizes; it equals the bytes held exactly when every block is below 2^31 bytes |
| Memprof.TruncatedBlock | td-master/memprof/memprof.cpp:193-237 | a block of 2^32 bytes passes the test of its header and is charged nothing |
| Memprof.SlotsAddUp | td-master/memprof/memprof.cpp:327-331 | slot sizes add up to what is charged to all live blocks |
| Memprof.ChargedIsHeld | td-master/memprof/memprof.cpp:229-232 | charged bytes never exceed held bytes, and are equal exactly when no size was truncated |
| Memprof.CopiesCommonPrefix | td-master/memprof/memprof.cpp:282-283 | never more than the common prefix is copied, and all of it exactly if the smaller block is below 2^31 bytes and the 32-bit size of the larger is not below the size of the smaller |
| Memprof.ReallocLosesBytes | td-master/memprof/memprof.cpp:276-286 | reallocation between 100 and 2^32 + 5 bytes, either way, keeps five bytes |
| ConcurrentMemprof.SlotsBalance | td-master/memprof/memprof.cpp:203-267 | in every interleaving of allocations and releases, down to single accesses, each slot is the sum of the blocks charged to it in the hands of the program and of threads inside malloc and free |
| ConcurrentMemprof.NoUnderflow | td-master/memprof/memprof.cpp:203-211 | in every interleaving the assertion on the old value holds, and the one on the size fails only for sizes whose 32-bit header is negative |
| ConcurrentMemprof.ChargedToSite | td-master/memprof/memprof.cpp:215-237 | in every interleaving each block is charged to the slot of its site or of the unknown site, until it is freed |
| ConcurrentMemprof.NeverStuck | td-master/memprof/memprof.cpp:154-267 | with few enough threads no search fails, and a thread inside malloc or free can always go on |
| ConcurrentMemprof.SlotsTotal | td-master/memprof/memprof.cpp:193-211 | at any moment all slots add up to the charged sizes of all blocks, those inside calls included |
| ConcurrentMemprof.ExactAtRest | td-master/memprof/memprof.cpp:193-201 | while no thread is inside a call, the sum over slots is the bytes held exactly when every block is below 2^31 bytes |
| TlBytes.IntRoundTrip | td-master/tdutils/td/utils/tl_parsers.h:74-84 | a stored word is fetched again and the bytes after it are left |
| TlBytes.StringRoundTrip | td-master/tdutils/td/utils/tl_parsers.h:126-162 | a stored string of any of the three header sizes is fetched again with nothing more |
| TlBytes.StringStoredLength | td-master/tdutils/td/utils/tl_storers.h:124-136 | the counted length of a string is its stored length |
| TlBytes.SetBitTests | td-master/td/generate/tl_writer_cpp.cpp:504-513 | or-ing a shifted boolean sets that bit and no other |
| TlSchema.FirstExists | td-master/td/generate/tl_writer_cpp.cpp:399-405 | there is a first supported constructor exactly when there is any |
| TlWriterLoops.WriteConstructorFetch | td-master/tdtl/td/tl/tl_generate.cpp:235-250 | the loop over arguments, with its mutable variable marks, emits the code that the recursive generator defines, or stops at the same assertion |
| TlWriterLoops.WriteConstructorStore | td-master/tdtl/td/tl/tl_generate.cpp:258-273 | the same for the storing code |
| TlStoreProof.OrAllIsWithFlags | td-master/td/generate/tl_writer_cpp.cpp:502-515 | the emitted chain of or-operations computes the flag word from all True fields of that variable |
| TlStoreProof.StoreCorrect | td-master/td/generate/tl_writer_cpp.cpp:382-407 | the emitted storing code writes the reference encoding, at every nesting depth, for every value of every schema that compiles, if each stored field other than True has the setter of its guard present; otherwise it tests a variable that was never set |
| TlFetchProof.BoxAgrees | td-master/td/generate/tl_writer_cpp.cpp:185-209 | the fetching code expects a constructor in front exactly where the storing code writes one, and the same one |
| TlFetchProof.FetchCorrect | td-master/td/generate/tl_writer_cpp.cpp:140-209 | the emitted fetching code, run on an encoding and any bytes after it, returns the normal form and exactly those bytes, or fails exactly when the value is not acceptable |
| TlFetchProof.FetchSwitch | td-master/td/generate/tl_writer_cpp.cpp:682-699 | the switch over constructor numbers finds the constructor that was stored |
| TlTheorems.RoundTrip | td-master/td/generate/tl_writer_cpp.cpp:185-299 | generated store is defined exactly if the value is settled, and then generated fetch undoes it: the normal form of the value and exactly the rest of the input, or an error exactly for negative flags and vectors longer than the input |
| TlTheorems.FlagBits | td-master/td/generate/tl_writer_cpp.cpp:498-515 | a bit of a stored flag word is set exactly if it was set in the value or some True field of that bit is true |
| TlTheorems.TrueFieldsSurvive | td-master/td/generate/tl_writer_cpp.cpp:245-253 | a True field comes back true exactly if its flag word is present and the field, another one of the same bit, or the bit in the word itself was set |
| TlTheorems.ConditionalFlagsLoseData | td-master/td/generate/tl_writer_cpp.cpp:490-527 | two values of one class with a conditional `#` field: storing one tests a variable that was never set, storing the other writes its encoding |
| TlTheorems.ConditionalSound | td-master/td/generate/tl_writer_cpp.cpp:490-527 | that class meets all that the round trip asks of a schema |
| TlTheorems.PlainIsSettled | td-master/td/generate/tl_writer_cpp.cpp:490-527 | if every guard has an unconditional `#` field, all values are settled |
| TlRewrite.WritesTheSame | td-master/td/generate/tl_writer_cpp.cpp:382-407 | storing what was fetched writes the same bytes again, and is defined exactly if it was |
| DuplicateChecker.InsertAdds | td-master/td/mtproto/AuthData.cpp:42-44 | insertion adds the id and keeps the others |
| DuplicateChecker.InsertSorted | td-master/td/mtproto/AuthData.cpp:42-44 | insertion keeps ids sorted |
| DuplicateChecker.OldIsNew | td-master/benchmark/bench_misc.cpp:485-529 | the two set-based checkers decide alike |
| DuplicateChecker.CheckAgrees | td-master/td/mtproto/AuthData.cpp:19-46 | one call of the array checker agrees with one call of the set checker on its top N ids |
| DuplicateChecker.TopIsSet | td-master/benchmark/bench_misc.cpp:594-616 | after any run the top min(N, end) entries of the array are exactly the set |
| DuplicateChecker.SaysAgree | td-master/benchmark/bench_misc.cpp:594-616 | the array accepts all that the set accepts; what it accepts beyond that the set calls very old, and very old for the array is very old for the set |
| DuplicateChecker.AcceptsOnce | td-master/td/mtproto/AuthData.cpp:19-46 | no id is accepted twice in any run |
| DuplicateChecker.MessageIdDuplicateChecker.Check | td-master/td/mtproto/AuthData.h:44-54 | the in-place array with its shifts and binary search does what the function on sorted sequences does |
| DuplicateChecker.MessageIdDuplicateChecker.LowerBound | td-master/td/mtproto/AuthData.cpp:38 | binary search finds the first id not below the given one |
| MessageIds.StrictlyIncreasing | td-master/td/mtproto/AuthData.cpp:107-125 | identifiers grow and are multiples of 4 in every run, whatever clock and random bits do |
| MessageIds.ValidWhenCreated | td-master/td/mtproto/AuthData.cpp:107-131 | with a clock that does not go back, each of the first 30 * 2^19 - 512 identifiers is valid when it is created, although the test rounds the identifier and both bounds to floating-point numbers |
| MessageIds.ValidDespiteRounding | td-master/td/mtproto/AuthData.cpp:127-131 | an identifier at least 8192 units below the upper bound, and at most a second old, passes the rounded test |
| MessageIds.RoundedOntoBound | td-master/td/mtproto/AuthData.cpp:127-131 | the cause: an identifier four units below the upper bound is rounded onto it |
| Doubles.RoundError | td-master/td/mtproto/AuthData.cpp:127-137 | the conversion of an identifier to a double is off by at most one part in 2^53 |
| MessageIds.OneTooMany | td-master/td/mtproto/AuthData.cpp:107-131 | the bound is exact: with a clock frozen at 1700000000 and all random bits set, number 30 * 2^19 - 511 is refused |
| MessageIds.SeqNoCounts | td-master/td/mtproto/AuthData.h:267-274 | a sequence number is twice the number of content-related messages before, plus one for a content-related one |
| Session.AuthData.NextMessageId | td-master/td/mtproto/AuthData.cpp:107-125 | the new identifier is larger than the last one and becomes the last one |
| Session.AuthData.NextSeqNo | td-master/td/mtproto/AuthData.h:267-274 | the number is as specified and the counter moves by two only for content |
| Session.SaltsCompose | td-master/td/mtproto/AuthData.cpp:169-175 | how often salts are looked at in between does not matter |
| Session.SaltIsLatestDue | td-master/td/mtproto/AuthData.cpp:91-99 | the salt in use is the one that became due last; exactly the salts not yet due are kept |
| Session.AuthData.UpdateSalt | td-master/td/mtproto/AuthData.cpp:169-175 | the loop leaves the salt for the time, and the salts for later |
| Session.LatestFirst | td-master/td/mtproto/AuthData.cpp:96-97 | sorting arranges the same salts, latest first |
| Session.AuthData.SetFutureSalts | td-master/td/mtproto/AuthData.cpp:91-99 | the new salts, sorted latest first, replace the old ones and take effect at once; no salts change nothing |
| Session.AuthData.UpdateServerTimeDifference | td-master/td/mtproto/AuthData.cpp:70-83 | the estimate is set once and then only grows by more than 0.0001 |
| Session.NeverTooNew | td-master/td/mtproto/AuthData.cpp:155-164 | since the clock estimate is corrected first, no packet is ever refused for being too new, with all sums rounded |
| Session.AuthData.CheckPacket | td-master/td/mtproto/AuthData.cpp:139-167 | the verdict for every packet, which ids are remembered, and when the clock estimate moves |
| PacketStorer.SizeIsLength | td-master/tdutils/td/utils/tl_storers.h:95-141 | the counting run and the writing run agree, nested length fields included |
| PacketWriter.PacketStorer.GetSize | td-master/td/mtproto/PacketStorer.h:22-29 | the cached size is the counted size |
| PacketWriter.PacketStorer.Store | td-master/td/mtproto/PacketStorer.h:31-35 | exactly the described bytes are written through the pointer, nothing else in the buffer changes |
| PacketWriter.Write | td-master/tdutils/td/utils/tl_storers.h:18-93 | writing through a moving pointer lays out all parts one after the other |
| Container.LongRoundTrip | td-master/tdutils/td/utils/tl_storers.h:38-40 | a stored 64-bit number is read again |
| Container.ParseStored | td-master/td/mtproto/SessionConnection.cpp:187-212 | a receiver reads a stored message exactly if its length is a whole number of words |
| Container.PacketArrives | td-master/td/mtproto/CryptoStorer.h:188-203 | a packet of parts, alone or in a container, is taken apart into exactly its messages, in order |
| Container.CountIsExact | td-master/td/mtproto/CryptoStorer.h:234-236 | the count written into a container is the number of messages in it |
| Container.RequestArrives | td-master/td/mtproto/CryptoStorer.h:212-326 | every request is received as its queries and service messages, in order |
| ServiceMessages.ServicesRead | td-master/td/mtproto/CryptoStorer.h:212-236 | reading the bodies of the service messages gives back every service request with its arguments, in order |
| ServiceMessages.QueryReads | td-master/td/mtproto/CryptoStorer.h:109-161 | after the header a query names the queries it waits for and then holds its packet, packed or plain |
| ServiceMessages.MessagesRead | td-master/td/mtproto/CryptoStorer.h:136-203 | position by position: queries keep identifier, number and bytes, service requests have the identifiers drawn for them |
| CryptoPacket.Build | td-master/td/mtproto/CryptoStorer.h:207-288 | identifiers are drawn in member order, the container is used exactly when needed and its identifier is drawn last; the reported identifiers are those of the messages |
| CryptoPacket.DrawIds | td-master/td/mtproto/CryptoStorer.h:37-44 | identifiers drawn one after the other increase, from the last one of the session |
| CryptoPacket.BuiltArrives | td-master/td/mtproto/CryptoStorer.h:290-326 | what is built is received as exactly the requested messages |
| CryptoPacket.ContainerIsLargest | td-master/td/mtproto/CryptoStorer.h:249-256 | the identifier of a container is greater than every identifier in it |
| GaussLemma.Gauss | td-master/td/mtproto/DhHandshake.cpp:28-35 | g^h is congruent to the sign of g, for p = 2h + 1 prime (Gauss) |
| GaussLemma.PowerIsSign | td-master/td/mtproto/DhHandshake.cpp:28-35 | g^h mod p is 1 or p - 1, by the sign |
| QuadraticCharacter.SignIsCrossings | td-master/td/mtproto/DhHandshake.cpp:28-35 | the sign is the parity of the number of multiples of g in the upper halves |
| QuadraticCharacter.SignByResidue | td-master/td/mtproto/DhHandshake.cpp:28-35 | the sign depends only on p modulo 4g, as the comment in the source uses |
| DhConfig.ModOkIsSquare | td-master/td/mtproto/DhHandshake.cpp:39-63 | for every safe prime above 15 and g from 2 to 7 the remainder test holds exactly if g^((p-1)/2) mod p = 1 |
| DhConfig.PrimeOrder | td-master/td/mtproto/DhHandshake.cpp:28-29 | a power of g is one exactly for exponents divisible by q, if q is prime, g^q is one and g is not |
| DhConfig.GoodConfigOrder | td-master/td/mtproto/DhHandshake.cpp:28-29 | an accepted g generates a subgroup of prime order (p - 1) / 2 |
| DhConfig.CheckConfig | td-master/td/mtproto/DhHandshake.cpp:21-93 | accepts exactly the good configurations, with or without remembered primes, and only true answers are remembered |
| DhConfig.DhCheckExcludesTrivial | td-master/td/mtproto/DhHandshake.cpp:95-126 | accepted values lie strictly between 1 and p - 1 |
| DhConfig.SharedKey | td-master/td/mtproto/DhHandshake.cpp:212-217 | both sides compute the same power |
| DhExchange.BothSides | td-master/td/mtproto/DhHandshake.cpp:128-195 | one side commits first and both sides reach the same verdict and the same key |
| DhExchange.CommitmentHolds | td-master/td/mtproto/DhHandshake.cpp:151-188 | after a commitment the checks report a mismatch exactly for a value with another hash |
| DhExchange.PublicValueFits | td-master/td/mtproto/DhHandshake.cpp:219-223 | an accepted exchange has public values of at most, and keys of exactly, 256 bytes |
| DhExchange.StoreThenParse | td-master/td/mtproto/DhHandshake.h:51-97 | parsing what was stored restores everything but the hash of the other value, and reads no byte more |
| DhExchange.ReloadedChecks | td-master/td/mtproto/DhHandshake.h:51-97 | an exchange with both values that is stored and parsed keeps its key, and its verdict exactly when no mismatch of the hash was known |
| DhExchange.RevealedAfterReload | td-master/td/mtproto/DhHandshake.h:51-97 | if the value arrives after storing and parsing, the verdict is the same exactly when the value does not break a commitment |
| DhExchange.CommitStoreParseReveal | td-master/td/mtproto/DhHandshake.h:51-97 | a whole run of commitment, storing, parsing and value: no mismatch is ever found, and the verdict is that without storing exactly if the value has the announced hash |
| DhExchange.LostCommitment | td-master/td/mtproto/DhHandshake.h:51-97 | a concrete exchange that loses its commitment |
| DhHandshake.DhHandshake.SetConfig | td-master/td/mtproto/DhHandshake.cpp:128-143 | sets the parameters and the own public value |
| DhHandshake.DhHandshake.SetGaHash | td-master/td/mtproto/DhHandshake.cpp:151-156 | remembers the hash and forgets earlier matches |
| DhHandshake.DhHandshake.SetGa | td-master/td/mtproto/DhHandshake.cpp:158-166 | takes the other value and compares its hash |
| DhHandshake.DhHandshake.RunChecks | td-master/td/mtproto/DhHandshake.cpp:183-195 | the verdict, in the order of the checks |
| DhHandshake.DhHandshake.GenKey | td-master/td/mtproto/DhHandshake.cpp:219-223 | the key of 256 bytes |
| DhHandshake.DhHandshake.Store | td-master/td/mtproto/DhHandshake.h:51-72 | the fields written one after the other |
| DhHandshake.DhHandshake.Parse | td-master/td/mtproto/DhHandshake.h:73-97 | the fields read one after the other, also after an error of the parser |
| HandshakeData.RsaPadRoundTrip | td-master/td/mtproto/Handshake.cpp:127-150 | the server undoes RSA_PAD and finds the data, which fill 256 bytes |
| HandshakeData.PqRoundTrip | td-master/td/mtproto/Handshake.cpp:113-125 | the inner data of the second query are parsed again, whatever padding follows |
| HandshakeData.SealRoundTrip | td-master/td/mtproto/KDF.cpp:52-72 | what one side seals under the temporary key the other one opens |
| HandshakeData.OpenServerRoundTrip | td-master/td/mtproto/Handshake.cpp:177-219 | the client opens what an honest server has sealed, with any padding below 16 bytes |
| HandshakeData.OpenClientRoundTrip | td-master/td/mtproto/Handshake.cpp:230-239 | the server opens what the client has sealed |
| Handshake.OneStep | td-master/td/mtproto/Handshake.cpp:315-345 | one event keeps the state, moves one step on, or starts all over; Finish needs the right hash |
| Handshake.RunRemembers | td-master/td/mtproto/Handshake.cpp:287-313 | a waiting client remembers the query it waits for, with the agreed nonces, in every run |
| Handshake.InOrder | td-master/td/mtproto/Handshake.cpp:86-285 | no state is reached but through all earlier ones in order since the last start |
| Handshake.AnyKeyWorks | td-master/td/mtproto/Handshake.cpp:136-155 | whichever random key RSA accepts completes the second step |
| HonestHandshake.ServeTwice | td-master/td/mtproto/Handshake.cpp:299-313 | a query that arrives again gets the same answer |
| HonestHandshake.HeardBefore | td-master/td/mtproto/Handshake.cpp:299-313 | a delivery ends the same, for client and server, if the server has had the query before |
| HonestHandshake.DeliverFirst | td-master/td/mtproto/Handshake.cpp:86-161 | after the first answer the server can open what it is sent |
| HonestHandshake.DeliverSecond | td-master/td/mtproto/Handshake.cpp:163-254 | after the second answer the client has the key g^ab and the salt |
| HonestHandshake.DeliverThird | td-master/td/mtproto/Handshake.cpp:256-276 | after the third answer both sides have the same key and salt |
| HonestHandshake.KeysAgree | td-master/td/mtproto/DhHandshake.cpp:212-223 | (g^a)^b and (g^b)^a are the same key |
| HonestHandshake.EndsWithEqualKeys | td-master/td/mtproto/Handshake.cpp:86-345 | an exchange with an honest server ends in Finish with equal keys and salts, however often each query reaches the server and its answer is lost |
| AuthKeyHandshake.AuthKeyHandshake.Clear | td-master/td/mtproto/Handshake.cpp:61-66 | starts all over |
| AuthKeyHandshake.AuthKeyHandshake.OnStart | td-master/td/mtproto/Handshake.cpp:315-325 | draws a nonce and sends the first query, only from the start |
| AuthKeyHandshake.AuthKeyHandshake.PadAndEncrypt | td-master/td/mtproto/Handshake.cpp:136-155 | ends with a random key for which RSA takes the padded data |
| AuthKeyHandshake.AuthKeyHandshake.OnResPq | td-master/td/mtproto/Handshake.cpp:86-161 | the step of the machine, also in what an error leaves behind |
| AuthKeyHandshake.AuthKeyHandshake.OnServerDhParams | td-master/td/mtproto/Handshake.cpp:163-254 | the step of the machine, with the checks of the exchange object and its cache of primes |
| AuthKeyHandshake.AuthKeyHandshake.OnDhGenResponse | td-master/td/mtproto/Handshake.cpp:256-285 | finishes exactly for the right nonces and hash |
| AuthKeyHandshake.AuthKeyHandshake.OnMessage | td-master/td/mtproto/Handshake.cpp:327-345 | dispatches by state; every error clears |
| AuthKeyHandshake.AuthKeyHandshake.Resume | td-master/td/mtproto/Handshake.cpp:299-313 | sends the last query again, starts from the start, clears otherwise |
| Bytes.XorBytesTwice | td-master/td/mtproto/Handshake.cpp:147-150 | xor with the same bytes twice changes nothing |
| Bytes.FromToBinary | td-master/tdutils/td/utils/BigNum.cpp:202-212 | the bytes of a number spell that number |
| ProxySecret.HexRoundTrip | td-master/tdutils/td/utils/misc.cpp:117-142 | hex encoding is undone by decoding |
| ProxySecret.HexValueReads | td-master/tdutils/td/utils/misc.cpp:117-131 | the hex digits of either case are exactly the characters with a value |
| ProxySecret.Base64RoundTrip | td-master/tdutils/td/utils/base64.cpp:39-158 | unpadded base64url is undone by decoding, for all three remainders |
| ProxySecret.TlsLinkIsNotHex | td-master/td/mtproto/ProxySecret.cpp:15-19 | the first byte 0xee makes the second character lie between g and v, so that hex decoding fails |
| ProxySecret.LinkRoundTrip | td-master/td/mtproto/ProxySecret.cpp:15-53 | every accepted secret is read again from its link |
| TlsReader.ScanPieces | td-master/td/mtproto/TlsReaderByteFlow.cpp:15-37 | cutting the stream in two changes nothing |
| TlsReader.RecordsRead | td-master/td/mtproto/TlsReaderByteFlow.cpp:15-37 | the payloads of all records in front are put out, in order |
| TlsReader.StreamIsRecords | td-master/td/mtproto/TlsReaderByteFlow.cpp:15-37 | every stream is some records, whose payloads are the output, and what is left |
| TlsReader.RestIsStuck | td-master/td/mtproto/TlsReaderByteFlow.cpp:16-32 | what is left is an incomplete record or begins with a wrong header; with fewer bytes than asked for nothing more can be read |
| TlsReader.TlsReaderByteFlow.Loop | td-master/td/mtproto/TlsReaderByteFlow.cpp:15-37 | takes one record if there is one; the input gets shorter |
| TlsReader.TlsReaderByteFlow.Wakeup | td-master/tdutils/td/utils/ByteFlow.h:50-100 | repeated calls end, with all complete records taken |
| TlsReader.ReadAll | td-master/td/mtproto/TlsReaderByteFlow.cpp:15-37 | however the stream is cut into chunks, output, remainder and error are those of the whole stream |

## Left out

- TlFetchProof.FetchCorrect: the depth of recursion of the parser is an argument; any bound not below the depth of the value will do. Text is cleaned by an arbitrary function, as the parser does with invalid strings.
- TlWriterLoops.WriteConstructorFetch: fields of a variable type and functions that take functions are not modelled; the generator skips such constructors.
- MessageIds.ValidWhenCreated: until identifiers need more than 64 bits, 2^32 seconds after 1970. Exponents of floating-point numbers are not bounded, and the clock is any real number.
- Session.NeverTooNew: for clocks within 2^40 seconds of 1970.
- BufferQueue.Queue.Get: needs a published value, as waiting for one takes a second thread; that is in SpscRing and FdQueue.
- MessageIds.StrictlyIncreasing: the clock of the server is not before 1970.
- ServiceMessages.QueryReads: for fewer than 2^31 identifiers; the conversion of a larger count ends the program.
- CryptoPacket.Build: needs that 64-bit identifiers have not run out.
- Memprof.Profiler.Malloc: one thread at a time; interleavings are in AllocTable and ConcurrentMemprof. The 64-bit wrap of slot sizes is not modelled, and hashes are not zero, which the table uses for an empty slot.
- ConcurrentMemprof.SlotsBalance: the allocator below always has memory, the program frees only blocks that it has, and slot sizes do not wrap at 2^64.
- ConcurrentMemprof.SlotsTotal: the slots of one moment; a reader that goes over the slots while other threads allocate is not modelled.
- HonestHandshake.EndsWithEqualKeys: needs that the server is honest, that answers come in time, that the random values of both sides pass the range check, and that RSA takes the padded data for the random key drawn.
- AuthKeyHandshake.AuthKeyHandshake.PadAndEncrypt: the loop ends because one of the random keys drawn works; with what probability is not modelled.
- AuthKeyHandshake.AuthKeyHandshake.OnServerDhParams: a zero prime, for which the arithmetic library ends the process, counts as not acceptable. The estimate of the server's clock and the expiration times are not kept.
- TlsReader.TlsReaderByteFlow.Wakeup: watermarks and closing of the input are not modelled.
- SpscRing.StepRefines: accesses are sequentially consistent steps; weaker memory orders are not modelled.
- FdQueue.NoLostWakeup: the event counter does not overflow.
- DuplicateChecker.OldIsNew: the variants of the set-based checker that differ only in messages are not modelled.
- SplitSource.SplitFile: regular expressions, pruning of includes and writing of files; functions and their dependencies are given.
- AES, SHA, RSA and factorization: any functions with the needed laws; big numbers are naturals.
- Capturing of backtraces, operators new and delete, memprof_stat.cpp: weaker versions of the same accounting.
- One-cell queues and the other benchmarks: nothing harder than the queues here.
- Header, Java, .NET and JSON writers, text of emitted code, TL string output: templates.
- Sockets, actors, timers and logging: plumbing.
- Setters and getters of AuthData and of the proxy secret: easy members.

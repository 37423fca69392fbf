# A verified model of the rsync transfer engine

This project models the parts of an rsync fork in which several functions have to agree with each other, and proves that
they do. Everything is Dafny 4.11; `dafny verify dfyconfig.toml` checks the whole project.

| files | what they model |
|---|---|
| `Bytes`, `Registers`, `Rolling` | the weak checksum, in plain sums and in wrapping 32-bit registers |
| `Delta`, `Match`, `Emission`, `WeakTable`, `Coverage`, `HashSearch`, `Receiver` | block search with a chained hash table, the choice among hits, in-place realignment, the token stream and its replay |
| `SumSizes`, `BlockSums` | block lengths, the sum header and the block sums, and one file from end to end |
| `Codec`, `NdxCodec` | variable-length integers and the stateful index coding |
| `Frames`, `Ring`, `OutBuffers`, `Multiplex`, `Demultiplex` | the multiplexed stream over three ring buffers |
| `EntryFlags`, `FileEntry`, `FileList`, `FileListRun`, `OwnerNames` | the delta-coded file list, and the names of owners in it |
| `NameOrder`, `FileSort`, `DirIndex`, `FlistFind`, `FlistClean` | the order of names, the stable merge sort, search and duplicate removal |
| `DirTree`, `ExtraLists` | incremental recursion |
| `HashTable`, `Inodes`, `HardLinks` | the hash table, the inode tables and the hard-link chains |
| `MapFile`, `SparseFile` | the sliding file window and the sparse writer |
| `Negotiate` | choosing a checksum or compression by name |

Code that changes things step by step is modelled by classes and methods that change them, each proved against a
specification on values; the laws are lemmas about those specifications. Sockets, files and other system calls are
nondeterministic: a read or write may take any number of bytes. The strong checksum is an arbitrary function; where it
matters, the absence of collisions is a hypothesis about the blocks and windows of the one transfer.

## Where the code does not do what one would expect

Each of these has a lemma or method at a concrete input, and the exact condition under which the expected law holds.

- In-place realignment overwrites the computed sums before it falls back to the want_i check, so that a block of the
  aligned window can be copied to the current one (`Match.MisreadExample`, `Match.ChooseExact`). A whole run rebuilds the
  source if and only if none of its choices was misread (`HashSearch.Search.HashSearch`, `Receiver.Transfer`), and no choice
  is when all full blocks of weak sum 0 are equal (`Match.NeverMisread`).
- A full flush computes what it wants from the size of a buffer that may be shortened for a moment, and can leave as many
  bytes as the buffer was short, up to three; a normal flush right after a frame was started in a full buffer computes a
  negative amount, which ends the program (`Multiplex.FlushExample`, `Multiplex.OverfullExample`, `Multiplex.Output.Flush`).
- write_ndx sends two differences of negative indexes in four bytes that read_ndx would take in two, and write_longint small
  negative numbers in twelve that read_longint would take in four; every other encoding is the shortest there is
  (`NdxCodec.NdxSpread`, `NdxCodec.NdxShortest`, `Codec.LongintShortest`).
- The group flags of the previous entry are applied to an abbreviated hard-link entry (`FileListRun.StaleExample`,
  `FileListRun.SkipGroups`).
- f_name_cmp steps over the terminators of two equal names when the second is a "." directory reached by its dirname
  (`NameOrder.PastEndExample`, `NameOrder.CompareNames`); on paths, that is when the first is that directory, or its "." with
  another copy of the dirname (`NameOrder.ComparableIs`). Sort, search and cleaning call it and ask that no pair of theirs is
  such a pair. Its comment says that removed entries sort last; the code sorts
  them first, and so does the model.
- A file called "." survives beside a "." directory (`FlistClean.DotClash`, `FlistClean.NoClash`, `FlistClean.DotKeeps`).
- A list in which every entry is cleared gets the window [0,0], which holds no entry (`FlistClean.EmptyWindow`); a list with
  an entry gets a window with an entry at either end, and no other non-empty list does (`FlistClean.Clean`).
- A cached window can run past the end of the file and report missing data for a request that is in range
  (`MapFile.SpillExample`). While no read fails that is so exactly when a new window must be longer than the default one and
  its rounded length passes the end (`MapFile.PastTheEnd`, `MapFile.Map.MapPtr`).
- The last name of a list as long as the table of ordinals is never chosen. The default list of a server with a full build is
  such a list, and the two sides can choose differently (`Negotiate.DisagreeExample`); they choose alike if and only if both
  or neither miss the best common choice in this way (`Negotiate.Negotiation`, `Negotiate.WhenAgree`).

## Model

| member | source | states |
|---|---|---|
| `Rolling.GetChecksum1` | checksum.c:286-301 | four bytes a turn and the tail, in wrapping 32-bit arithmetic, give the weak sum defined from plain sums and sums of prefix sums, for every buffer |
| `Rolling.Slide` | match.c:355-366 | dropping the first byte and appending one changes both plain sums exactly as the two subtractions and two additions say |
| `Rolling.RollRegisters` | match.c:355-366 | the same turn on wrapping 32-bit registers keeps their low 16 bits equal to the sums of the moved window |
| `Rolling.WeakOfRegisters` | match.c:190-194 | registers that track a window combine to that window's weak sum |
| `Emission.RollTracks` | match.c:349-366 | one turn of the rolling update, with or without a next byte, leaves the registers at the window one byte on |
| `Emission.EmitLiteral` | match.c:129-163 | sending the pending bytes as literals keeps the output a replayable prefix of the source with bounded literal runs |
| `Emission.EmitCopy` | match.c:129-163 | sending a fitting block keeps that invariant, and keeps the replay exact if and only if the block holds the source bytes of its place |
| `WeakTable.BuildStep` | match.c:79-112 | putting one more block at the head of its bucket keeps every chain strictly descending and complete |
| `WeakTable.Unlink` | match.c:235-242 | taking a bypassed block out of a chain loses no block that is still usable, whether it is the head or not |
| `WeakTable.WalkBounds` | match.c:229-276 | a chain walk strictly descends, and when it ends no usable block of the bucket is a hit |
| `WeakTable.WalkPassed` | match.c:229-276 | no usable block passed on the way is a hit, so that the block found is the last one of the file that fits |
| `HashSearch.Search.BuildHashTable` | match.c:79-112 | after building, every block is in the chain of its bucket for either table size |
| `HashSearch.Search.FindBlock` | match.c:218-276 | what it returns is the last usable block that agrees in length and both sums; it returns none only if there is none or more blocks share the weak sum than the chain cap |
| `HashSearch.Search.Matched` | match.c:129-163 | the tokens grow by the pending literal and the block reference or end marker, and last_match moves behind them |
| `HashSearch.Align` | match.c:281-286 | the aligned position becomes the first block boundary at or after the offset |
| `Match.ChooseExact` | match.c:281-338 | for every candidate the want_i and realignment steps choose a block that fits and is intact, and it holds the bytes of its place if and only if the choice is not misread |
| `Match.NeverMisread` | match.c:306-331 | if all full blocks of weak sum 0 are equal, no choice is ever misread |
| `Match.PrefersAdjacent` | match.c:324-336 | into a fresh file the block after the last one copied is taken whenever it fits; otherwise the one found is |
| `Match.PrefersInPlace` | match.c:281-322 | in place a block that fits at its own position is kept there, and zeros move on to the boundary when they fit there as well |
| `Match.MisreadExample` | match.c:306-331 | a concrete basis and source on which the in-place realignment copies a block that differs from the source there |
| `HashSearch.Search.TryMatch` | match.c:218-347 | below the chain cap a block is emitted if and only if some usable block agrees in length and both sums; the registers stay those of the window |
| `HashSearch.Search.HashSearch` | match.c:166-380 | the literals and copies partition the source in order, literal runs stay within 2*blength+2*CHUNK_SIZE, in-place copies are safe, and the copies are the logged choices one for one, each hinted at by the one before; replaying them gives the source if and only if no logged choice was misread; and every position sent as a literal, up to the last block length, was looked at in vain or jumped over by a realignment |
| `Coverage.FreshThorough` | match.c:207-376 | into a fresh file no block fits, in length and both sums, where a literal is sent, unless more blocks share its weak sum than a chain is followed |
| `Coverage.LookFound` | match.c:319-347 | a find keeps that true: what lies between the look and the copy was jumped over, and later marks concern later positions |
| `Coverage.AllLooked` | match.c:376-380 | at the end only what is shorter than the last block has not been looked at |
| `HashSearch.Search.MatchSums` | match.c:397-445 | the same for a whole file, with or without sums, ending in exactly one end marker |
| `Receiver.StillReadable` | receiver.c:467-490 | while the basis is overwritten, a block ahead of the write position or kept in place still reads as in the basis |
| `Receiver.ReceiveStep` | receiver.c:381-504 | one safe token extends the output by what it means, also when it is only skipped in place |
| `Receiver.ReceiveData` | receiver.c:381-504 | an invalid block index is reported if and only if a token has one; otherwise the file is the replay, in place too when the tokens are safe, and what is written is all of it except, in place, the blocks that are copied onto themselves |
| `Receiver.Transfer` | match.c:397-445 | search and replay together leave what the tokens mean on an untouched basis, in place too, with as many bytes as the source; that is the source if and only if no choice was misread, and always into a fresh file or when all full blocks of weak sum 0 are equal; nothing that fits is sent as a literal |
| `SumSizes.RootPower` | generator.c:712-713 | the shift loop yields the power of 2 whose square brackets the length |
| `SumSizes.RootDownTo8` | generator.c:716-723 | the bit loop yields the multiple of 8 with blength^2 <= len < (blength+8)^2 |
| `SumSizes.BlockLength` | generator.c:706-725 | the user's size, 700, that multiple of 8, or 2^17, each on its exact range of lengths |
| `SumSizes.StrongSize` | generator.c:727-748 | the two halving loops and the cuts give the strong sum length defined from the exponents of the highest bits |
| `SumSizes.Log2Is` | generator.c:743-744 | the halving loops count to the exponent of the highest bit |
| `SumSizes.StrongEnough` | generator.c:690-748 | for every file and block length, 31 + 8n bits are worth more than 2^8 times the squared file length over the block length unless the digest ends, and 23 + 8n bits less than 2^10 times it unless more is asked for |
| `SumSizes.SumSizesSqroot` | generator.c:697-758 | count, remainder, block length and strong length for every file length, with -1 exactly when the count overflows or the length is negative |
| `BlockSums.HeadArrives` | io.c:2025-2084 | every header that can be made passes all checks of read_sum_head and arrives unchanged |
| `BlockSums.HeadChecked` | io.c:2025-2064 | of any four integers exactly those with all fields in range are accepted; the two overflow tests never fire |
| `BlockSums.Tiling` | generator.c:794-800 | block i starts at i*blength, the blocks follow each other and the last ends at the end of the file |
| `BlockSums.GenerateSums` | generator.c:794-820 | the loop sends the weak and strong sum of each block of that tiling, in order |
| `BlockSums.PairsArrive` | sender.c:103-106 | the sums arrive as sent, for every count and strong length |
| `BlockSums.ReceiveSums` | sender.c:103-127 | offsets and lengths that the sender derives from the header are those of the tiling |
| `BlockSums.SumsDescribe` | sender.c:74-130 | the received sums describe the basis file, and the receiver derives the same layout |
| `BlockSums.Synchronize` | match.c:397-445 | block length, header, sums, search and replay from end to end: the new file is the source without hash collisions, in place if and only if no choice was misread; nothing that fits is sent as a literal; only a file of too many blocks is not described |
| `Codec.VarRoundTrip` | io.c:120-125 | decoding an encoded word of min..min+5 bytes gives it back and leaves the following bytes |
| `Codec.VarShortest` | io.c:2164-2216 | no shorter string decodes to the same word |
| `Codec.IntRoundTrip` | io.c:1795-1814 | fixed 4-byte integers, for every int32 |
| `Codec.VarintRoundTrip` | io.c:1816-1846 | varint, for every int32 |
| `Codec.VarlongRoundTrip` | io.c:1848-1887 | varlong, for every int64 and min_bytes 3 to 8 |
| `Codec.LongintRoundTrip` | io.c:1928-1945 | longint, for every int64, also when its first word is all ones |
| `Codec.LongintShortest` | io.c:2222-2240 | no shorter string decodes to the same number, except for small negative ones |
| `NdxCodec.WriteVar` | io.c:2164-2216 | the byte-shuffling loop of write_varint and write_varlong produces the encoding |
| `NdxCodec.NdxRoundTrip` | io.c:2318-2397 | one index is read back and the reader's previous values become the writer's, for every index above -2^31 |
| `NdxCodec.RunRoundTrip` | io.c:2318-2397 | every sequence of indexes is read back from the concatenated bytes, both ends finishing in the same state |
| `NdxCodec.NdxShortest` | io.c:2318-2397 | no shorter string decodes to the same index, with two exceptions |
| `NdxCodec.NdxSpread` | io.c:2318-2397 | in those two cases, differences 0 and 255 of negative indexes, a string of two bytes does |
| `NdxCodec.NdxWriter.WriteNdx` | io.c:2318-2360 | the stateful writer emits that encoding and updates its two previous values accordingly |
| `Frames.HeaderWord` | io.c:1495-1510 | a frame header is taken apart into the code and length it was made of |
| `Frames.PrefixDecode` | io.c:1495-1528 | if one encoding of whole frames starts with another, the frame sequences do too |
| `Frames.PartialDecode` | io.c:1495-1528 | the same with an unfinished data frame at the end |
| `Frames.ReadIsPrefix` | io.c:1967-1989 | whole frames and part of one give data and messages that are prefixes of what was framed |
| `Ring.PutExtends` | io.c:2262-2281 | bytes put behind the contents of a ring, around its end, extend what is read from it |
| `Ring.Double` | io.c:996-1000 | growing a ring moves its wrapped part so that the contents read the same |
| `OutBuffers.StartFrameOk` | io.c:682-708 | filling in the reserved header turns all pending bytes into one frame, also when the header wraps or the size is cut for it |
| `OutBuffers.AdvanceOk` | io.c:831-876 | a partial write removes exactly what was written and keeps what is pending, restoring the size at the right moment |
| `OutBuffers.PostOk` | io.c:1004-1050 | a message goes behind the queued ones with its header unbroken |
| `OutBuffers.DoubledOk` | io.c:996-1000 | doubling the message buffer keeps the queued bytes |
| `Multiplex.FrameStarts` | io.c:682-708 | starting a data frame keeps the stream invariant: wire plus buffers is an encoding of whole frames |
| `Multiplex.DataSent` | io.c:831-876 | so does a partial write of a data frame; queued messages follow only when it is complete |
| `Multiplex.MsgSent` | io.c:831-876 | so does a partial write of messages |
| `Multiplex.DataWritten` | io.c:2255-2284 | so does accepting data |
| `Multiplex.MsgPosted` | io.c:965-1058 | so does accepting a message, also in the middle of a data frame |
| `Multiplex.Output.Pump` | io.c:679-723 | one turn puts more bytes on the wire and keeps the stream invariant, so that no message lands in a started frame |
| `Multiplex.Output.PerformIo` | io.c:593-657 | room is made unless it can never be, for every way the socket takes the bytes; nothing is written if there was room |
| `Multiplex.Output.WriteBuf` | io.c:2255-2284 | all of the data is accepted or none, exactly when it can fit; nothing is written to the socket if it fits at once |
| `Multiplex.Output.SendMsg` | io.c:965-1058 | the message joins the queue in order, exactly when it can fit, without output if it fits at once; a process that is no sender never waits and must fit it into the doubled buffer, which it makes without looking again |
| `Multiplex.Output.Flush` | io.c:2136-2147 | a full flush leaves no more bytes than the buffer was short, and exactly what waited if that was no more; so everything is on the wire if it had its full size; a normal flush sends something, or fails if and only if the contents exceed the buffer by more than one |
| `Multiplex.FlushExample` | io.c:682-708 | a state after three calls in which two bytes outlast a full flush |
| `Multiplex.OverfullExample` | io.c:682-708 | a started frame whose reserved header makes the contents larger than the buffer |
| `Demultiplex.Input.ReadSome` | io.c:781-823 | a read of any length moves bytes from the socket to the ring, losing none |
| `Demultiplex.Input.RawReadInt` | io.c:933-941 | a header word, also when it runs over the end of the ring |
| `Demultiplex.Input.ReadAMsg` | io.c:1495-1528 | a header and the message behind it, without touching the data stream; on a stream of whole frames with acceptable messages it succeeds if and only if another frame comes |
| `Demultiplex.Input.ReadBuf` | io.c:1967-1989 | exactly the wanted bytes of the data stream, whatever frames they come in; on a stream of whole frames with acceptable messages it succeeds if and only if that many data bytes, and at least one, are still to come |
| `Demultiplex.StreamSafety` | io.c:562-941 | in every pair of reachable states the data delivered and the messages handled are prefixes of what the writer was given |
| `Demultiplex.FlushedComing` | io.c:2136-2147 | when nothing is left to send, a reader of the whole wire can read exactly what was written |
| `EntryFlags.FlagsRoundTrip` | flist.c:557-571 | the 16 transfer flags survive the flag word |
| `EntryFlags.FlagBits` | rsync.h:47-73 | every flag has its bit |
| `EntryFlags.FlagsArrive` | flist.c:557-571 | the flags of every entry arrive as sent in one byte, two bytes or a varint, and none reads as an end-of-list marker |
| `EntryFlags.FlagBytes` | flist.c:557-571 | a second byte of flags is sent only when it says something, or when a directory has no flag at all |
| `FileEntry.NameArrives` | flist.c:729-749 | a name coded as a shared prefix and a rest is rebuilt |
| `FileEntry.Common` | flist.c:547-549 | the shared prefix is as long as it can be, up to 255 bytes |
| `FileList.TimesArrive` | flist.c:840-904 | length, times and mode arrive, sent or taken from the previous entry |
| `FileList.IdArrives` | flist.c:909-931 | a user or group id arrives translated, with or without its name |
| `FileList.RestArrives` | flist.c:933-976 | device numbers, link target and checksum arrive |
| `FileList.RepeatIsShort` | flist.c:593-633 | what an entry has in common with the previous one is not sent |
| `FileList.EntryArrives` | flist.c:695-1247 | a whole entry, ordinary or abbreviated, is rebuilt from its bytes, with the names that go with its ids, and both ends' static variables stay in step |
| `FileList.MirrorKept` | flist.c:393-693 | the agreement of the static variables, the received files and the inode table survives every entry |
| `FileListRun.EndArrives` | flist.c:2129-2139 | each form of the end marker is read as the end, with its error flags |
| `FileListRun.ListArrives` | flist.c:2668-2723 | a whole list with its end marker is rebuilt, for every list in which the names of one inode agree, and both ends are ready for the next |
| `FileListRun.ListsArrive` | flist.c:2141-2242 | any number of incremental lists is rebuilt from their concatenated bytes, every file with the group number that the sender has for its inode at the end |
| `FileListRun.GroupsArrive` | flist.c:1185-1215 | two received files, of one list or of two, have one group number if and only if the sender's inodes are the same |
| `FileListRun.SkipGroups` | flist.c:920-931 | every skip-group flag is right if and only if no abbreviated entry follows an entry whose group is treated differently |
| `FileListRun.ListSane` | flist.c:695-1247 | whatever bytes arrive, the files built from them have legal names, link targets, types and times, and hard-link numbers that point back |
| `FileListRun.StaleExample` | flist.c:709-1093 | a concrete list for which the flag of an abbreviated entry is wrong |
| `FileListRun.Incoming.RecvFileList` | flist.c:2668-2723 | the receiving loop computes that list, or the error it meets first |
| `OwnerNames.NamesArrive` | flist.c:478-497 | after any run of incremental lists the receiver has read the names of exactly the owners and groups that occur and have one, in order of first occurrence |
| `OwnerNames.FirstNamesAre` | uidlist.c:340-371 | every id that has a name is there with it, nothing else is, and no id twice |
| `OwnerNames.EntryIntroduced` | flist.c:909-931 | one entry: a name goes out exactly with the first entry of its id |
| `NameOrder.OnePass` | flist.c:3320-3381 | one turn of the comparison either decides as the keys do or drops one equal element from each |
| `NameOrder.CompareNames` | flist.c:3286-3386 | the comparison has the sign of the keys' order and its prefix flag; it runs past the end if and only if the keys are equal and the second name is a "." directory reached by its dirname |
| `NameOrder.NameCmp` | flist.c:3269-3386 | the same with cleared entries, which sort first, and with the same-pointer shortcut; it runs past the end if and only if the pair is not comparable |
| `NameOrder.Shortcut` | flist.c:3286-3289 | leaving out a shared dirname changes neither order nor prefix relation |
| `NameOrder.CompareFlips` | flist.c:3269-3386 | the order of the keys is antisymmetric and total |
| `NameOrder.CompareChains` | flist.c:3269-3386 | it is transitive, strictly so if one step is strict |
| `NameOrder.EqualNames` | flist.c:3249-3268 | two names compare equal if and only if path and kind are equal, however the path is cut into dirname and basename |
| `NameOrder.WithinIsPrefix` | flist.c:3388-3397 | an entry is a directory or lies below it if and only if it has the directory's key as a prefix |
| `NameOrder.DirFirst` | flist.c:3252-3268 | a directory sorts before all its contents |
| `NameOrder.ContentsTogether` | flist.c:3252-3268 | whatever sorts between two entries of a directory belongs to it |
| `NameOrder.KindsApart` | flist.c:3252-3268 | in one directory, whatever copies of its dirname the names have, "." comes first, then other files, then directories |
| `NameOrder.ByteOrder` | flist.c:3320-3383 | in one directory names of one kind are in the order of their bytes, a directory's with its slash |
| `NameOrder.PastEndExample` | flist.c:3351-3359 | two names of one directory for which the comparison runs past the end |
| `NameOrder.ComparableIs` | flist.c:3351-3359 | the comparison stays inside the strings unless the second is a "." with a dirname and the first is that directory, or its "." with another copy of the dirname |
| `FileSort.MergeSorted` | flist.c:1774-1795 | merging sorted runs gives a sorted run |
| `FileSort.MergeStable` | flist.c:1774-1795 | merging keeps equal names in order, the left run's first |
| `FileSort.SortWorks` | flist.c:1758-1795 | the sort is sorted, a permutation and stable |
| `FileSort.SortUnique` | flist.c:1797-1800 | there is only one stable sort of a list |
| `FileSort.MergeRuns` | flist.c:1774-1795 | the in-place merge with half a buffer, comparing by f_name_cmp, merges the two runs and changes nothing else |
| `FileSort.FSortTmp` | flist.c:1758-1795 | the recursion on an array slice, comparing by f_name_cmp, leaves the stable sort in it and nothing else changed, for all entries of which no two make it run past the end |
| `FileSort.FSort` | flist.c:1801-1812 | the same for any length, with its own buffer |
| `DirIndex.DirsOfSort` | flist.c:1797-1800 | the directories of the sorted list are the sorted list of the directories |
| `DirIndex.SendingIndex.AddDirs` | flist.c:1828-1835 | the sender's index grows by the directories of the sorted list, and the counted loop stays in the list |
| `DirIndex.ReceivingIndex.RecvDirs` | flist.c:2718-2773 | the receiver's index grows by the sort of the directories as received |
| `DirIndex.IndexesAgree` | flist.c:1797-1800 | after any number of incremental lists both indexes are the same |
| `DirIndex.RunIndexes` | flist.c:1816-1838 | the two loops, run list by list with the in-place sort on either side, end with equal indexes |
| `FlistFind.Shortened` | flist.c:2858-2874 | making a cached distance exact leaves all distances right |
| `FlistFind.FileTable.Climb` | flist.c:2858-2864 | the next entry above a cleared one; its distance becomes exact, nothing else changes, and no distance jumps over an entry |
| `FlistFind.FileTable.Descend` | flist.c:2868-2874 | the next entry below, likewise |
| `FlistFind.FileTable.Find` | flist.c:2844-2891 | comparing by f_name_cmp, an entry of that name and kind if and only if the window holds one, leaving every entry in place |
| `FlistClean.KindsDiffer` | flist.c:3046-3121 | a directory and another kind of file never compare equal |
| `FlistClean.CleanOne` | flist.c:3062-3117 | one turn keeps exactly the entries that survive so far, their merged flags, the window and the distances |
| `FlistClean.Clean` | flist.c:3040-3121 | exactly the first entry of each name survives, unless it is no directory and a directory has its name; the window of a non-empty list has an entry at either end if and only if the list had an entry |
| `FlistClean.EmptyWindow` | flist.c:3048-3060 | cleaning a list of one cleared entry gives a window that holds no entry |
| `FlistClean.NoTwins` | flist.c:3046-3121 | no two entries that are left compare equal |
| `FlistClean.NoneLost` | flist.c:3046-3121 | every entry has one of its key that is left, or a directory of its name that is |
| `FlistClean.NoClash` | flist.c:3069-3100 | a directory other than "." that is left shares its path with no other kind of file that is left |
| `FlistClean.DotClash` | flist.c:3069-3100 | a "." directory and a file called "." are both left |
| `FlistClean.DotKeeps` | flist.c:3069-3100 | beside a "." directory the first file of its path is left, always |
| `FlistClean.FlagsMean` | flist.c:3091-3095 | the flags left: TOP_DIR or CONTENT_DIR of any equal directory, IMPLIED_DIR only if all have it |
| `FlistClean.SortedIsOk` | flist.c:3044-3053 | the sorted list meets what the cleaning relies on, if no two entries make f_name_cmp run past the end |
| `DirTree.AddDirs` | flist.c:1816-1853 | the loop appends all directories and links all but the "." ones as siblings below the parent |
| `DirTree.ListIsChain` | flist.c:1816-1853 | the directories of a list form one chain in which duplicates follow their first sibling |
| `ExtraLists.LastDup` | flist.c:2178-2189 | the loop over duplicates stops at the last directory of the group |
| `ExtraLists.ClimbOn` | flist.c:2221-2236 | climbing reaches the next directory in preorder, or the end of the tree |
| `ExtraLists.OneList` | flist.c:2156-2237 | one list scans the next group in preorder and puts its directories in front of what is left |
| `ExtraLists.ListSender.SendExtra` | flist.c:2141-2242 | any number of calls keeps the invariant; a call sends nothing if there are enough files already, else it stops with the list that makes them enough or at the end, and nothing is sent after the end; each list is for the first directory of its name, with the directories its scan found |
| `ExtraLists.ListSender.constructor` | flist.c:2586-2599 | the first list starts the invariant, and the end is said at once if and only if nothing is linked |
| `ExtraLists.SentOk` | flist.c:2156-2237 | every list sent is for a directory in range that has had none, so neither check of the receiver fires |
| `ExtraLists.AllScanned` | flist.c:2141-2242 | what was scanned is a prefix of the preorder, and all of it exactly at the end |
| `HashTable.NotThere` | hashtable.c:152-170 | a probe that meets a free slot proves the key absent |
| `HashTable.Inserted` | hashtable.c:172-180 | taking that slot keeps the table a map with all keys in reach |
| `HashTable.Table.Probe` | hashtable.c:152-170 | the probe ends, at the key or at the slot where it belongs |
| `HashTable.Table.Find` | hashtable.c:80-185 | lookup and insertion act as on a finite map; the table doubles exactly when it is over its load, and while growing it never grows again |
| `HashTable.Table.Grow` | hashtable.c:92-117 | growth keeps every key with its data, zero data included |
| `HashTable.Table.constructor` | hashtable.c:24-56 | an empty table |
| `HashTable.PowerFor` | hashtable.c:31-36 | the smallest power of 2, from 16 on, that holds the request |
| `Inodes.DevTable.Find` | hlink.c:67-85 | on the real hash tables, with the cached device node as an address: the address returned is a slot of the device's table that holds the inode and its data; after every call the cached address is in the current node array, also when the call grew the table |
| `Inodes.DevTable.OpenDevice` | hlink.c:72-82 | the cached address becomes the slot of this device in the array the search left, and a new device gets a table of its own |
| `Inodes.FoundIs` | hlink.c:67-85 | a search finds the node of the pair with its old data or makes it as new, and leaves every other pair's node as it was |
| `Inodes.DevTable.NodesDiffer` | hlink.c:67-85 | two pairs share a node address if and only if device and inode are equal |
| `HardLinks.MatchGnums` | hlink.c:114-180 | the shared-iterator loop gives every entry the link and flags of its place in its group, although links overwrite group numbers |
| `HardLinks.GroupIsChain` | hlink.c:128-167 | from the unique LAST entry the links visit every member once by descending index and end with -1 at the unique FIRST entry |
| `HardLinks.SingleUnlinked` | hlink.c:160-166 | an entry alone in its group is no hard link any more |
| `HardLinks.GroupWhole` | hlink.c:100-112 | in the sorted list a group is exactly the entries of its number |
| `HardLinks.MatchHardLinks` | hlink.c:186-208 | all hard-linked entries are matched and no others |
| `MapFile.WindowCovers` | fileio.c:327-334 | the chosen window covers the request, and stays in the file unless the request is longer than the default window |
| `MapFile.StartIs` | fileio.c:327-346 | a window starts at the boundary before the request |
| `MapFile.WindowIs` | fileio.c:327-334 | it has the default size unless the file ends before or the request needs more |
| `MapFile.PastTheEnd` | fileio.c:327-334 | direct and mapped windows stay in the file; a cached window runs past the end exactly when it must be longer than the default one and its rounded length does not fit |
| `MapFile.SpillExample` | fileio.c:327-334 | 2500 bytes of a file of 3000, through a default window of 1024: all bytes are right and missing data is reported |
| `MapFile.Map.constructor` | fileio.c:227-249 | the default window is no smaller than the read size, and the map starts with an empty window that is valid |
| `MapFile.Map.ReadAll` | fileio.c:415-428 | reads of any length fill the window with the file's bytes, or zeros and a status; a window past the end always sets it |
| `MapFile.Map.FillCached` | fileio.c:376-428 | bytes kept by memmove and bytes read make the new window, and only what the old window did not have is read; while reads do not fail the status is set exactly by a window past the end; the invalid read_size exit is not reached |
| `MapFile.Map.FillDirect` | fileio.c:336-368 | one aligned read makes the window, or sets the status; it does not while pread returns all that the file has |
| `MapFile.Map.FillSynthetic` | fileio.c:270-297 | the copied pattern is position mod 256 |
| `MapFile.Map.MapPtr` | fileio.c:251-431 | for every in-range request in every mode the returned bytes are the file's, unless a status is set; while reads do not fail they always are, and a status is set exactly by a new cached window that runs past the end; a request inside the window changes nothing |
| `SparseFile.CountZeros` | fileio.c:92-93 | the two loops split a chunk into leading zeros, middle and trailing zeros |
| `SparseFile.Writer.WriteSparse` | fileio.c:87-132 | position plus pending hole stays the logical offset, for every short write; a chunk of zeros is not written and adds to the hole; of any other exactly the bytes from its first to its last non-zero one are handed over, at their place |
| `SparseFile.Writer.Flush` | fileio.c:138-154 | the buffer reaches the file whole, however the system takes it, unless a write fails |
| `SparseFile.Writer.WriteFile` | fileio.c:158-196 | all bytes are written in order, with or without holes, or less than all are reported, and that only if a system call fails; zeros leave a sparse file untouched, and a plain one is not touched before the buffer is full |
| `SparseFile.Writer.End` | fileio.c:52-82 | after the end the file is exactly what was written, always if no system call fails |
| `SparseFile.WriteAll` | fileio.c:158-196 | any split into calls, sparse or plain, leaves the concatenation, always if no system call fails; no write of a sparse file begins or ends with a zero, and a file of zeros is not written at all |
| `Negotiate.ParseOwn` | compat.c:284-333 | the words of a list become its known algorithms, each once, with their ordinals |
| `Negotiate.OwnOrder` | compat.c:284-333 | the list holds the known names that were given, in the order in which they were first given |
| `Negotiate.MainIsFirst` | compat.c:266-277 | the name that is sent for a number is that of its first row |
| `Negotiate.DefaultIs` | compat.c:464-506 | the default list names every algorithm once, without "none" on a client |
| `Negotiate.DefaultOrder` | compat.c:464-506 | the default list follows the order of the table |
| `Negotiate.DefaultList` | compat.c:464-506 | the loop computes that list and the ordinal of each of its names |
| `Negotiate.ParseOther` | compat.c:335-366 | a server takes the client's first name that it lists, a client the one it lists first itself; the last of a list of saw_len names is never taken |
| `Negotiate.HeardAlike` | compat.c:225-240 | the names each side receives mean the same numbers there, so that each rule depends on the two lists alone |
| `Negotiate.ClientMisses` | compat.c:335-366 | with a full list the client misses that choice if and only if it is its last name |
| `Negotiate.ServerMisses` | compat.c:335-366 | the server likewise |
| `Negotiate.WhenAgree` | compat.c:335-366 | both rules take the best common choice unless it ends a full list of their own, and they take the same if and only if that is so for both or for neither |
| `Negotiate.BuildsUnderstand` | compat.c:225-240 | any two builds of one table understand each other's names |
| `Negotiate.Negotiation` | compat.c:508-533 | for any two builds, with words from the environment or the default list on either side: each side takes the first of the client's list that the server lists unless it ends a full list of its own, and the two agree if and only if that is so for both or for neither |
| `Negotiate.DisagreeExample` | compat.c:335-366 | with the default compressions on the server and "none zstd" on the client, the client takes none and the server zstd |

## Left out

- HashSearch.Search.MatchSums: append mode, the file-sum trailer and the RDMA transport are not modelled.
- Multiplex.Output.SendMsg: keepalives and message conversion are not modelled.
- Multiplex.Output.Flush: input that perform_io reads meanwhile is modelled on its own, in `Demultiplex`.
- Demultiplex.Input.ReadAMsg: a message other than data is taken whole; what each kind of message then does is not modelled.
- FileList.EntryArrives: protocol 30 and later, without iconv, ACLs, xattrs and --chmod; ids are translated by fixed functions,
  and the names are as clean as the sender leaves them. The id lists sent after a list without incremental recursion are not
  modelled.
- FileListRun.ListArrives: the sender's loop is modelled on values, as the bytes it appends; so is the run of lists in
  `FileListRun.ListsArrive`.
- NameOrder.NameCmp: protocol 29 and later.
- FileSort.FSort: the qsort option is not modelled; what happens once a comparison has run past the end is undefined.
- FlistClean.Clean: the receiver's case; the sender only marks duplicates. Stripping leading slashes and pruning empty
  directories are not modelled.
- ExtraLists.ListSender.SendExtra: what a scan finds is given with the directory; a directory whose first spelling in the list
  ends in "/." does not count as the first of its duplicates here. Unsorted mode is not modelled.
- HashTable.Table.Find: the two Jenkins hashes are one arbitrary function.
- Inodes.DevTable.Find: the table pointer that a device node holds as its data is a number; destroying the tables is not
  modelled.
- HardLinks.MatchGnums: without incremental recursion and with sorted indexes; qsort is replaced by insertion, which has the
  same result because no two elements compare equal.
- MapFile.Map.MapPtr: window sizes are unbounded integers; a failing mmap, lseek or allocation ends the program and is not
  modelled.
- SparseFile.Writer.WriteSparse: a new file without preallocation; punching holes and seeking over matching data in place are
  not modelled.
- SumSizes.SumSizesSqroot: protocol 30 and later; the intermediate power of 2 is not cut to 32 bits, which makes no
  difference because it is compared with 2^17 first.
- Negotiate.ParseOwn: works on words; splitting a string, ignoring case and the 256-byte buffer are not modelled.
- sum_update's chunk buffering and the digests themselves: the strong sum is an arbitrary function.
- Filters, options, configuration, the daemon, backups, deletion, logging and batch mode: mostly tables and file-system calls.
- recv_generator and the itemized output: dominated by file-system side effects.
- Timeouts, keepalive policy, bandwidth limits and signals: behaviour of the environment.

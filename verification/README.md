# A verified model of the download and Kad core

This project models the parts of the repository that carry its protocols: the zlib/DEFLATE
decoder, the download allocator with its files, the wire formats and the datagram
obfuscation of Kad, the bounded state of the Kad service, the routing table, and the two
codecs beside them. Nothing here performs I/O: files are values with explicit operations,
clocks, random bytes and MD5 are parameters, and concurrency is the command loop's own
order of steps.

Each part consists of specification functions, imperative code in the form of the original
(classes whose methods update their fields, loops over buffers), and lemmas about the
specification:

- **Shared** (`Wrappers`, `Integers`, `Collections`, `LittleEndian`).
- **Decompression** (`Bits`, `BitReader`, `CanonicalCodes`, `HuffmanTable`, `Deflate`,
  `Inflate`, `FixedCodes`, `DeflateEncoding`, `DeflateStreams`, `Conformance`,
  `StreamConformance`, `StreamLimits`, `KnownStreams`, `KnownDynamic`): the table-driven decoder
  against a bit-list decoder, that one against RFC 1950 and RFC 1951, an encoder whose every
  stream is decoded to its meaning, and whole streams byte by byte.
- **Downloads** (`ByteRanges`, `Downloads`, `DownloadInvariant`, `Reservation`,
  `DownloadRuns`, `LeaseTimes`, `DownloadLaws`, `DownloadService`): missing, in-flight and
  received bytes over whole runs, and the life of a lease in times.
- **Transfer** (`Protocol`, `Transfer`, `Ingest`, `PacketSamples`): framing, requests, answers,
  and taking blocks in.
- **Files** (`Files`, `PartStore`, `CrashSafety`, `ServiceRuns`, `Creation`, `IncomingNames`,
  `Finalization`, `FinalizationRuns`, `FinalizationPass`, `PassGuards`, `FinalizationMany`,
  `Delivery`): ordered file operations, crashes inside any of them, and the way of a file from its first block to the
  incoming directory.
- **Kad service** (`Windows`, `SendLog`, `Shaper`, `ShaperLimits`, `OutRequests`, `InRequests`,
  `RequestNumbers`, `SourceStore`): rate, matching and capacity over whole runs, and the same in
  the fields of the configuration and the opcodes of the wire.
- **Kad wire** (`Tags`, `TagEncoding`, `WireReader`, `TagLists`, `Messages`,
  `MessageEncoding`, `ContactEncoding`, `WireSamples`, `Rc4`, `KeyStreams`, `KnownKey`,
  `UdpCrypto`): both parsers of tag lists, the messages, their round trips and their bytes, and
  the stream cipher with a known answer.
- **Routing and codecs** (`Xor`, `Distances`, `Sorting`, `Routing`, `RoutingReports`, `Closest`,
  `Ranks`, `Base64`, `Md4`).

## What the code does not do

Some properties one would expect do not hold; each is stated with its exact condition.

- The oversubscription test of `HuffmanTable::build` works in 16 bits. The lengths
  1, 1, 1, 1 are accepted although they use twice the code space; a tree is wrongly accepted
  exactly when its last first-code wraps to a small value (`AcceptsExactlyWhen`); of symbols
  that share a code, the last one is then decoded (`LastWriterWins`).
- Streams outside RFC 1950 and RFC 1951 are taken: exactly those that are readable and declare a
  window above 32768 bytes, more than 286 literal and length codes, such an oversubscribed tree
  or lengths that overshoot their number, or refer beyond the window (`OutsideExactlyWhen`,
  with `WideIsOutside`, `ManyIsOutside`, `FarIsOutside`).
- `downloaded_bytes` counts blocks in flight (`DownloadedCountsInflight`), and a restart
  does not recompute it: over whole runs it is the number of received bytes exactly when no
  block was in flight at its last recomputation (`DownloadedIsReceivedExactlyWhen`,
  `RestartOverstates`).
- A cancelled download with blocks still leased can leave that state and even complete
  (`CancelledIsLeftExactlyWhen`).
- A request whose block ends at the largest 64-bit offset does not survive the wire
  (`RequestRoundTrip`).
- When a known node is reported with another destination and the report is let through, the
  node keeps its stored destination but loses the entry that led to it, so the two indexes of
  the routing table stop being inverse (`InverseExactlyWhen`, `RunInverseExactlyWhen`,
  `TwoReportsBreak`).
- A complete download whose part file is gone is declared finished whenever some incoming
  file has one of its names (`MissingPartFinishesExactlyWhen`, `AnotherFileFinishes`).
- A download that cannot be finished ends the whole pass: those behind it wait, and those
  before it keep their metadata although they are done (`PassSettlesExactlyWhen`,
  `SettledKeepsMetadata`). On a timer tick it ends the service itself, and the first tick comes
  at once after every start (`TimerTick`, `LostStopsEveryPass`).
- A block is written before its lease is looked at, so a packet without lease can change
  bytes already received (`ReceivedChangesExactlyWhen`, `ReceivedByteChanges`).
- An uploader answers a block it does not have with zeros (`AnswerIsGenuineExactlyWhen`).
- A packet encrypted with the receiver key is not opened as it was sent when the key stream of
  our identifier, which is tried first, agrees with its own in the first four bytes and leaves
  room for the padding it reads, without being the same (`ReceiverRoundTrip`).
- A tag text of more than 4096 bytes is written but not read (`TagReadsBack`).
- MD4 counts bits with saturation, so from 2^61 bytes on its padding is not that of RFC 1320
  (`CountIsRightExactlyWhen`).
- The search for a free incoming name runs for ever when all of its 2^32 + 1 names are taken
  (`SearchEndsExactlyWhen`).
- A source cap of zero does not mean an empty store: with a zero cap the store ends empty
  exactly when no file held the local source (`EnforceLimits`).

In the contracts, bytes are numbers from 0 to 255, 16- and 32-bit wrap-around and saturation
are written out, and times are natural numbers on a clock that does not go back.

## Model

| member | source | states |
|---|---|---|
| `BitReaders.BitReader.Fill` | src/kad/packed.rs:291-302 | tops the bit buffer up to n bits without changing the unread bits, or fails exactly when fewer than n are left |
| `BitReaders.BitReader.ReadBits` | src/kad/packed.rs:304-310 | returns the next n bits, least significant first, and moves on by n; fails exactly when fewer are left |
| `BitReaders.BitReader.PeekBits` | src/kad/packed.rs:312-315 | returns the next n bits and does not move |
| `BitReaders.BitReader.DropBits` | src/kad/packed.rs:317-322 | moves on by n bits |
| `BitReaders.BitReader.AlignToByte` | src/kad/packed.rs:324-330 | moves on to the next byte boundary of the stream, whatever is buffered |
| `CanonicalCodes.CodesFit` | src/kad/packed.rs:346-404 | RFC 1951 section 3.2.2: with Kraft sum at most 1 the codes of every length fit into that length, so the 16-bit counters never overflow |
| `CanonicalCodes.PrefixFree` | src/kad/packed.rs:346-404 | no canonical code is a prefix of another one |
| `HuffmanTables.HitsIsMatch` | src/kad/packed.rs:346-414 | a table slot belongs to a symbol exactly when the bits the slot stands for start with the canonical code of the symbol |
| `HuffmanTables.HitsAtMostOne` | src/kad/packed.rs:346-404 | no two symbols write the same table slot |
| `HuffmanTables.AcceptsExactlyWhen` | src/kad/packed.rs:346-404 | the 16-bit oversubscription test accepts every tree with Kraft sum at most 1; it accepts an oversubscribed one exactly when the last first-code wraps round to a small value |
| `HuffmanTables.OversubscribedTreeAccepted` | src/kad/packed.rs:346-404 | concrete lengths 1, 1, 1, 1: twice the code space, and accepted |
| `HuffmanTables.LastWriterWins` | src/kad/packed.rs:346-404 | what that tree decodes to: a 0 bit is symbol 2 and a 1 bit symbol 3 |
| `HuffmanTables.ReverseBits` | src/kad/packed.rs:417-425 | reverses the low len bits of a code |
| `HuffmanTables.FirstCodes16` | src/kad/packed.rs:346-404 | the 16-bit loop computes the first code of every length modulo 2^16 |
| `HuffmanTables.WriteSlots` | src/kad/packed.rs:346-404 | writes exactly the slots congruent to the reversed code, and no other |
| `HuffmanTables.FillEntries` | src/kad/packed.rs:346-404 | when the loop ends every slot holds the last symbol that hits it, and no other |
| `HuffmanTables.SlotIsCanonical` | src/kad/packed.rs:346-404 | for a tree of the format that is the one symbol whose canonical code starts the slot |
| `HuffmanTables.Build` | src/kad/packed.rs:346-404 | which length vectors are accepted, on every input, and what the table of every accepted one holds |
| `HuffmanTables.Decode` | src/kad/packed.rs:406-414 | returns the last symbol whose code starts the remaining bits and consumes exactly its length; for every accepted tree, oversubscribed or not |
| `HuffmanTables.StartIsMatch` | src/kad/packed.rs:346-414 | for a tree of the format the codes the source computes are the canonical ones |
| `Deflate.Copy` | src/kad/packed.rs:201-227 | length and unchanged prefix of an overlapping byte-by-byte copy (RFC 1951 section 3.2.3), the reference for the copying loop |
| `Inflate.DecodeStoredBlock` | src/kad/packed.rs:88-105 | agrees with the stored blocks of RFC 1951 section 3.2.4, on success and on failure |
| `Inflate.CopyFromHistory` | src/kad/packed.rs:201-227 | indexing modulo the distance equals the overlapping byte-by-byte copy; fails exactly when the distance leaves the output or the limit is passed |
| `Inflate.DecodeBackReference` | src/kad/packed.rs:107-261 | length and distance with their extra bits are those of RFC 1951 section 3.2.5 |
| `Inflate.DecodeCompressedBlock` | src/kad/packed.rs:107-148 | agrees with the Huffman blocks of the format and consumes bits at every step |
| `Inflate.ReadCodeLengths` | src/kad/packed.rs:150-199 | the run-length coded lengths (symbols 16, 17, 18) are those of RFC 1951 section 3.2.7 |
| `Inflate.DecodeDynamicTables` | src/kad/packed.rs:150-199 | yields tables for exactly the two trees a dynamic block declares |
| `Inflate.FixedTreesComplete` | src/kad/packed.rs:427-439 | the fixed trees use the whole code space, so building them cannot fail |
| `Inflate.FixedTables` | src/kad/packed.rs:427-439 | the two fixed tables hold the trees of RFC 1951 section 3.2.6 |
| `Inflate.Adler32` | src/kad/packed.rs:263-272 | reducing at every byte gives the checksum of RFC 1950, which is defined without intermediate reduction |
| `Inflate.DecodeBlocks` | src/kad/packed.rs:47-74 | agrees with the block sequence of the format; terminates because each block consumes bits |
| `Inflate.InflateZlib` | src/kad/packed.rs:28-86 | ends on every input with at most max_out bytes, and succeeds exactly on the streams the bit-list decoder reads whose content fits the limit, with that content |
| `Inflate.SymbolIsLastStart` | src/kad/packed.rs:406-414 | the symbol of the bit-list decoder, which is the canonical one for every tree of the format, is the one the table holds |
| `FixedCodes.FixedSymbol` | src/kad/packed.rs:427-434 | which bits are which symbol of the fixed literal and length code of RFC 1951 section 3.2.6, as numbers of 7, 8 and 9 bits: read exactly when they are next |
| `FixedCodes.FixedDistance` | src/kad/packed.rs:436-439 | distance symbol s is read exactly when the next five bits are s |
| `FixedCodes.LengthNamed` | src/kad/packed.rs:229-244 | every length from 3 to 258: its symbol, the number of extra bits and their value |
| `FixedCodes.DistanceNamed` | src/kad/packed.rs:246-261 | every distance from 1 to 32768: behind the first four, two symbols for each number of extra bits |
| `FixedCodes.CodeLengthPlaces` | src/kad/packed.rs:150-199 | at which bit of a declaration each of the 19 code-length codes has its length, and that those left out are unused |
| `FixedCodes.CopyRepeats` | src/kad/packed.rs:201-227 | every byte a reference copies is the one that far before it, also where the copy overlaps what it produces |
| `KnownStreams.EmptyInflates` | src/kad/packed.rs:28-434 | the eight bytes 78 9C 03 00 00 00 00 01 inflate to nothing |
| `KnownStreams.HelloInflates` | src/kad/packed.rs:447-459 | the stream of the unit test inflates to hello |
| `KnownStreams.StoredInflates` | src/kad/packed.rs:88-105 | a stream with a stored block of one byte, byte by byte |
| `KnownStreams.StreamsRefused` | src/kad/packed.rs:28-80 | another method, a header that is no multiple of 31, a preset dictionary and a wrong checksum are refused |
| `KnownStreams.SumOfMany` | src/kad/packed.rs:263-272 | a checksum that passes the modulus 65521 |
| `KnownDynamic.DynamicInflates` | src/kad/packed.rs:150-199 | a stream of 24 bytes whose block declares its own trees, with all three kinds of runs, four letters, a reference back and the end, inflates to abcdddd |
| `Conformance.OutsideExactlyWhen` | src/kad/packed.rs:28-86 | every zlib stream of RFC 1950 section 2.2 and RFC 1951 is taken with its content; a stream that is taken is outside the two exactly when its header declares a window above 32768 bytes, or a block has more than 286 literal and length codes, an accepted oversubscribed tree, a run past the declared lengths, or a reference that is not allowed |
| `Conformance.HeaderDecidesNothing` | src/kad/packed.rs:28-46 | two streams with accepted headers and the same rest are decoded alike: the window is not looked at |
| `DeflateEncoding.SymbolDecodes` | src/kad/packed.rs:406-414 | the canonical code of a symbol decodes to that symbol, whatever follows |
| `DeflateEncoding.BlockDecodes` | src/kad/packed.rs:107-148 | any list of literals and back references written with any usable pair of trees decodes to what it means |
| `DeflateStreams.BlocksDecode` | src/kad/packed.rs:47-74 | any sequence of stored, fixed and dynamic blocks comes back, wherever in the stream it starts |
| `DeflateStreams.DeclarationDecodes` | src/kad/packed.rs:150-199 | any declaration of trees, with any code of the code lengths and any runs that give them, is read as those trees |
| `DeflateStreams.ZlibDecodes` | src/kad/packed.rs:28-86 | whatever blocks an encoder writes behind whatever accepted header, and whatever literals, references and trees it chooses: the stream is decoded to what it means |
| `StreamConformance.WrittenConformsExactlyWhen` | src/kad/packed.rs:28-86 | such a stream is one of the RFCs exactly when its window is at most 32768 bytes and every block keeps the rules on codes, runs and references |
| `StreamConformance.PlainDeclares` | src/kad/packed.rs:150-199 | every pair of trees with at most 288 and 32 codes can be declared |
| `StreamConformance.WideIsOutside` | src/kad/packed.rs:28-46 | taken outside the RFCs: a stream whose header 88 1C declares a window of 65536 bytes |
| `StreamConformance.ManyIsOutside` | src/kad/packed.rs:150-199 | taken outside the RFCs: a block that declares 288 literal and length codes |
| `StreamConformance.FarIsOutside` | src/kad/packed.rs:201-227 | taken outside the RFCs: a reference 257 bytes back where the header declares a window of 256 |
| `StreamLimits.CodesLimit` | src/kad/packed.rs:150-199 | whatever trees a block declares, its stream is one of the RFCs exactly with at most 286 literal and length codes |
| `StreamLimits.ReferenceLimit` | src/kad/packed.rs:201-244 | a stream with one reference is one of the RFCs exactly when its window is at most 32768 bytes, the distance is within it, and length 258 is not written as symbol 284 |
| `ByteRanges.CanonicalUnique` | src/download/service.rs:1919-1936 | sorted ranges with a gap of at least one byte between them are determined by the bytes they cover |
| `ByteRanges.TotalIsSize` | src/download/service.rs:1912-1917 | total_missing is the number of bytes covered |
| `ByteRanges.MergedCorrect` | src/download/service.rs:1919-1936 | the merged list is canonical and covers exactly the same bytes |
| `ByteRanges.MergeRanges` | src/download/service.rs:1919-1936 | for every list of ranges, sorting and sweeping keeps exactly the bytes and leaves ranges with a gap between them; without inverted ranges the result is that canonical list |
| `ByteRanges.SubtractedCorrect` | src/download/service.rs:1938-1959 | subtraction is exact set difference and keeps the list canonical |
| `ByteRanges.SubtractRange` | src/download/service.rs:1938-1959 | the loop computes that subtraction |
| `Downloads.BackoffDoubles` | src/download/service.rs:1033-1037 | the retry delay starts at 200 ms and doubles with every failure up to 5 s |
| `Downloads.FindLease` | src/download/service.rs:1970-1981 | the position returned holds a lease of this block by this peer; none is returned exactly when there is none |
| `DownloadInvariant.Partition` | src/download/service.rs:1242-1917 | missing, in-flight and received bytes partition the file |
| `DownloadInvariant.DropLease` | src/download/service.rs:1961-1981 | releasing a lease removes exactly its in-flight range |
| `DownloadInvariant.DownloadedCountsInflight` | src/download/service.rs:1242-1273 | the recomputed downloaded_bytes is the received plus the in-flight bytes |
| `DownloadInvariant.ReceiveKeeps` | src/download/service.rs:1242-1273 | a received block moves from in flight to received and nothing else moves; the invariant is kept |
| `DownloadInvariant.FailKeeps` | src/download/service.rs:1275-1311 | a failed block moves back to missing and nothing else moves; the invariant is kept |
| `DownloadInvariant.ReclaimFromFilters` | src/download/service.rs:1313-1401 | the index loop removes exactly the leases of the peer, or the expired ones |
| `DownloadInvariant.ReclaimKeeps` | src/download/service.rs:1313-1401 | exactly the reclaimed blocks return to the missing bytes; the invariant is kept |
| `DownloadInvariant.WithStateKeeps` | src/download/service.rs:1112-1133 | pause, resume and cancel move no byte |
| `DownloadInvariant.RecoveredKeeps` | src/download/service.rs:590-615 | a restart returns the in-flight bytes to missing, forgets the leases, keeps the received bytes and does not recompute downloaded_bytes |
| `DownloadInvariant.RestartIsRightExactlyWhen` | src/download/service.rs:590-615 | where downloaded_bytes was up to date, it is the number of received bytes after a restart exactly when no block was in flight |
| `DownloadInvariant.CreatedInv` | src/download/service.rs:1039-1110 | a new download satisfies the invariant with nothing received |
| `Reservation.FirstBlockIsLowest` | src/download/service.rs:1135-1240 | the block taken next is the lowest stretch of missing bytes, cut at the block size |
| `Reservation.GrantTakesLowest` | src/download/service.rs:1135-1240 | the granted blocks are, in order and disjoint, precisely the lowest missing bytes, each at most a block long |
| `Reservation.GrantCounts` | src/download/service.rs:1135-1240 | the new leases are the granted blocks, all of this peer, at most the budget |
| `Reservation.ReserveKeeps` | src/download/service.rs:1135-1240 | a reservation keeps the invariant, moves bytes only from missing to in flight, and respects 32 leases a peer and 256 a download |
| `DownloadRuns.StepKeeps` | src/download/service.rs:590-1401 | every command keeps the invariant; it adds to the received bytes exactly the leased block reported received |
| `DownloadRuns.ReceivedNeverShrinks` | src/download/service.rs:590-1401 | over any run, restarts included, received bytes only grow |
| `DownloadRuns.EveryRun` | src/download/service.rs:590-1401 | in every run of a created download: partition, one lease per in-flight range, both caps, and Completing implies every byte received and downloaded_bytes equal to the size, so the size-mismatch branch of finalization is dead |
| `DownloadRuns.CountInRuns` | src/download/service.rs:590-1391 | in every run, restarts included, downloaded_bytes is the received bytes plus those in flight when it was last recomputed |
| `DownloadRuns.DownloadedIsReceivedExactlyWhen` | src/download/service.rs:590-1391 | over every run, downloaded_bytes is the number of received bytes exactly when no block was in flight at its last recomputation |
| `DownloadRuns.RestartOverstates` | src/download/service.rs:590-615 | a concrete run: of two leased bytes one arrives, the process restarts, and downloaded_bytes says that the file is complete |
| `DownloadRuns.CancelledIsLeftExactlyWhen` | src/download/service.rs:1242-1311 | Cancelled is left exactly when a block still leased fails, or the last outstanding block arrives |
| `DownloadRuns.CancelledCanComplete` | src/download/service.rs:1242-1273 | a concrete cancelled download that becomes Completing |
| `LeaseTimes.LeaseLife` | src/download/service.rs:1135-1401 | what every event of a run does to the lease of a block by a peer, both directions: granted by a reservation, gone when it is used, its peer is gone or the process restarts, and taken back by a tick exactly 15 seconds after its reservation or later |
| `LeaseTimes.Survives` | src/download/service.rs:1135-1401 | over runs: a lease granted at t survives every tick before t plus 15 seconds, unless it is received, failed, disconnected or restarted |
| `LeaseTimes.TickReturns` | src/download/service.rs:1135-1401 | after a later tick no lease granted at t is left, and its bytes are missing again |
| `DownloadLaws.StateMoves` | src/download/service.rs:590-1391 | when a download changes its state, and to which: exactly, for every event |
| `DownloadLaws.ReserveAnswer` | src/download/service.rs:1135-1240 | exactly when a reservation is answered with blocks, in numbers, and that it stops only at the number wanted, at 32 leases of the peer, at 256 of the download, or with nothing missing |
| `DownloadLaws.NoBlocksWhileCooling` | src/download/service.rs:1135-1401 | over runs: from a setback on no reservation is answered with a block until the delay for the number of retries is over |
| `DownloadLaws.RetriesAreSetbacks` | src/download/service.rs:590-1391 | over runs, restarts included: the retry count is the number of failed, disconnected and timed-out events, and the last error is that of the last one nothing made up for |
| `DownloadServices.DownloadService.AllocateNextPartNumber` | src/download/store.rs:80-111 | the lowest free part number, or none exactly when all 65535 are used |
| `DownloadServices.DownloadService.CreateDownload` | src/download/service.rs:1047-1054 | adds a queued download under the lowest number not in use; fails exactly for an empty file or when every number is in use |
| `Creation.CreateDownload` | src/download/service.rs:1039-1110 | a zero-filled part file and the saved metadata under the lowest number no file carries, in the order of the source, and the download itself: the world every run starts from |
| `Creation.CreateCrash` | src/download/service.rs:1039-1110 | a crash while a download is created leaves its metadata whole, with a whole part file, or leaves no metadata |
| `DownloadServices.DownloadService.SetState` | src/download/service.rs:1112-1133 | changes the state exactly from an allowed one, and nothing else |
| `DownloadServices.DownloadService.GrantBlocks` | src/download/service.rs:1135-1240 | the granting loop computes the grant whose properties are stated by the lemmas above |
| `DownloadServices.DownloadService.ReserveBlocks` | src/download/service.rs:1135-1240 | all refusals in the order of the source, otherwise the grant; every download stays valid |
| `DownloadServices.DownloadService.MarkBlockReceived` | src/download/service.rs:1242-1273 | succeeds exactly when the peer holds a lease of the block; only that download changes |
| `DownloadServices.DownloadService.MarkBlockFailed` | src/download/service.rs:1275-1311 | succeeds exactly when the peer holds a lease of the block; only that download changes |
| `DownloadServices.DownloadService.ReclaimLeases` | src/download/service.rs:1313-1401 | the removing index loop computes the reclaiming, with the number of leases taken back |
| `DownloadServices.DownloadService.ReclaimEverywhere` | src/download/service.rs:1313-1401 | every download is reclaimed; the total is zero exactly when none lost a lease |
| `Protocol.EncodeRequestParts` | src/download/protocol.rs:98-116 | hash, three starts, three exclusive ends; more than three blocks are refused |
| `Protocol.DecodeRequestParts` | src/download/protocol.rs:160-202 | the slots of a 64-byte request in order, empty slots skipped, an empty or inverted range refused |
| `Protocol.RequestRoundTrip` | src/download/protocol.rs:98-202 | a request of up to three blocks survives the wire exactly when every block is a range ending before the largest 64-bit offset |
| `Protocol.SendingPartRoundTrip` | src/download/protocol.rs:118-257 | a payload is the encoding of an answer exactly when it decodes to that answer |
| `Transfer.EncodeDecode` | src/download/transfer.rs:92-137 | a frame is the encoding of a packet exactly when it decodes to that packet |
| `Transfer.FrontIsEncoding` | src/download/transfer.rs:140-164 | read_packet takes a packet off a stream exactly when the stream starts with its encoding, and leaves the rest |
| `Transfer.FramesReadBack` | src/download/transfer.rs:140-174 | any concatenation of encoded packets is read back as the same packets |
| `Transfer.ByteStream.ReadPacket` | src/download/transfer.rs:140-164 | reads header and payload as specified; errors for end of stream, protocol, zero and excessive length |
| `Transfer.RequestBlock` | src/download/transfer.rs:176-195 | writes the encoded request for one block, whatever comes back, and accepts as answer exactly the two part opcodes |
| `Transfer.ServeRequest` | src/app.rs:1055-1088 | one answer for each requested block, up to the first that cannot be answered; malformed and foreign requests are refused |
| `Transfer.AnswerIsGenuineExactlyWhen` | src/upload.rs:147-211 | an answer carries the bytes of the file exactly when the uploader has them, or they are all zeros anyway |
| `Transfer.BlockExchange` | src/download/transfer.rs:176-195 | with an uploader that holds the file, request and answer arrive intact and the answer carries exactly the bytes of the block |
| `PacketSamples.RequestLayout` | src/download/protocol.rs:98-116 | every byte of the frame that requests one block |
| `PacketSamples.AnswerLayout` | src/download/protocol.rs:118-158 | every byte of the frame that answers it |
| `PacketSamples.PacketLimits` | src/download/transfer.rs:140-164 | in numbers: blocks of at most 4194304 bytes are answered, and packets of the three protocols with at most 4194368 bytes of payload are read |
| `Ingest.HashRoundTrip` | src/download/service.rs:1983-1997 | a hash written in lower-case hexadecimal is parsed back |
| `PacketSamples.HexSamples` | src/download/service.rs:1983-1997 | letters of either case, and a plus sign for a leading zero |
| `Ingest.DecodeInbound` | src/download/service.rs:1414-1482 | a packet is rejected or yields a block with exactly its bytes, compressed parts by inflating; on every packet |
| `PacketSamples.DeliveredByOpcode` | src/download/service.rs:1414-1482 | opcode 2A brings in its bytes as they are, at their offset; opcodes other than 2A and 46 bring in nothing |
| `PacketSamples.DeliveredCompressed` | src/download/service.rs:1414-1482 | opcode 46 brings in what its zlib stream inflates to, at its offset |
| `Ingest.IngestInboundPacket` | src/download/service.rs:1403-1521 | what every packet does to the part file, the metadata files and the download; the bytes are written before the lease is checked; without its part file the packet fails |
| `CrashSafety.ReceivedChangesExactlyWhen` | src/download/service.rs:1489-1490 | a packet changes a byte already received exactly when its block covers the byte with another value; a leased block never does, and one without lease changes nothing but the part file |
| `CrashSafety.ReceivedByteChanges` | src/download/service.rs:1489-1490 | a concrete packet without lease that changes the one byte of a complete download |
| `PartStore.SavePartMet` | src/download/store.rs:113-143 | the new primary, the old one as backup, no temporary file, everything else unchanged; the operations in the order of the source |
| `PartStore.SaveCrash` | src/download/store.rs:113-143 | a crash anywhere in a save leaves the primary as it was or whole with the new content |
| `PartStore.SaveIsRecoverable` | src/download/store.rs:113-160 | after any crash the primary loads as the old or the new metadata; a ruined primary loads the value before it from the backup |
| `CrashSafety.MoveSound` | src/download/service.rs:1242-1521 | one move, completed or cut short by a crash in any file operation and followed by a restart, keeps part file and metadata consistent |
| `CrashSafety.CrashSafe` | src/download/service.rs:1242-1521 | over every run with crashes: the primary metadata loads, whatever it lists as neither missing nor in flight is in the part file, no received byte is lost |
| `CrashSafety.CompleteEqualsSource` | src/download/service.rs:1403-1491 | when every packet let in brings bytes of the source file, a Completing download has a part file equal to the source |
| `CrashSafety.AnswerIsTruthful` | src/app.rs:1062-1088 | the answer of an uploader that holds the file is such a packet |
| `CrashSafety.LeasedBlockArrives` | src/download/service.rs:1403-1491 | that answer for a leased block is received: its bytes count as received and stand at their offset |
| `ServiceRuns.OpsLeaveOthers` | src/download/service.rs:1242-1521 | whatever happens to one download, completed or cut short, leaves the files of every other one alone |
| `ServiceRuns.ServiceSafe` | src/download/service.rs:581-1521 | crash safety of a service with any number of downloads: over every run with crashes and restarts of everything, each of them stays sound and loses no received byte |
| `IncomingNames.CandidatesDiffer` | src/download/service.rs:1765-1804 | the names tried for a finished file are pairwise different |
| `IncomingNames.UniqueIncomingName` | src/download/service.rs:1765-1804 | the search ends with the first free name, after looking at the names in order |
| `IncomingNames.SearchEndsExactlyWhen` | src/download/service.rs:1765-1804 | going on for ever with its saturating counter, the search comes upon a free name exactly when one of the first 2^32 + 1 names is free |
| `IncomingNames.FewFilesLeaveAFreeName` | src/download/service.rs:1765-1804 | a directory of at most 2^32 files leaves a name free, so the search terminates |
| `IncomingNames.CandidateIsRecognised` | src/download/service.rs:1806-1831 | a file moved under any of the names is found again |
| `IncomingNames.NamesInOrder` | src/download/service.rs:1765-1804 | a file keeps its own name when that is free; otherwise the name with part number and completed, then with the lowest free counter from 1 |
| `IncomingNames.ThreeDigits` | src/download/service.rs:1765-1804 | the part number in a name has three digits |
| `Finalization.AppendKnownEntry` | src/download/store.rs:219-253 | adds the lower-cased entry exactly when none with its hash, ignoring case, and size is listed; fails and changes nothing when the file does not parse |
| `Finalization.SameKeyExactlyWhen` | src/download/service.rs:1868-1870 | entries share a key exactly when their sizes are equal and their hashes differ at most in the case of letters |
| `Finalization.PersistKnownEntry` | src/download/service.rs:1662-1686 | fails exactly when the key is not remembered and the file does not parse; otherwise the key is listed afterwards, and the remembered keys stay listed keys |
| `Finalization.MovePartFile` | src/download/service.rs:1688-1734 | moves the part file to the first free name; without a part file succeeds exactly when a file with one of the names is there |
| `Finalization.DropMetadata` | src/download/service.rs:1736-1763 | removes primary, then backup |
| `Finalization.Visit` | src/download/service.rs:1610-1639 | for every state of a download, what its visit by a pass does, in which order the files change, and exactly when it fails |
| `FinalizationPass.FinalizeCompletedDownloads` | src/download/service.rs:1601-1645 | the pass over all downloads: it ends with the first one that is stuck, and only a pass that gets through removes metadata |
| `PassGuards.SettlesExactly` | src/download/service.rs:1601-1645 | a pass settles exactly the downloads before the first that cannot be finished, by guards on the files before the pass: its part file or an incoming file with one of its names is there, and its entry is remembered or known.met parses |
| `PassGuards.GetsThroughExactlyWhen` | src/download/service.rs:1601-1645 | when no complete download has lost its part file, a pass gets through exactly when known.met parses or all their keys are remembered |
| `PassGuards.PassSettlesExactlyWhen` | src/download/service.rs:1601-1645 | exactly what a pass settles, by the same guards: a download is moved and recorded when it and all before it can be finished, untouched when one before it cannot, and its metadata goes exactly when all can be finished and it is complete |
| `PassGuards.SettledKeepsMetadata` | src/download/service.rs:1601-1645 | a concrete pass that settles a download and leaves its metadata |
| `PassGuards.TimerTick` | src/download/service.rs:624-633 | a failed pass on the timer tick ends the service; it goes on exactly when every download can be finished |
| `PassGuards.LostStopsEveryPass` | src/download/service.rs:624-633 | a complete download without its part file stops every pass with nothing left to do before it, and such a pass changes nothing |
| `FinalizationPass.FewFilesEndSearches` | src/download/service.rs:1601-1804 | the name searches of a pass all end as long as there are fewer files than names |
| `FinalizationPass.PassOfOne` | src/download/service.rs:1601-1645 | a pass over a single complete download does the file operations that the runs with crashes are about |
| `FinalizationRuns.Attempt` | src/download/service.rs:1601-1645 | from any resumable state a pass that runs through settles everything, and one cut short anywhere leaves a resumable state |
| `FinalizationRuns.FinishesOnce` | src/download/service.rs:1601-1763 | crash idempotence over any number of starts: the file arrives once under the first of its names that was free, no other incoming file changes, at most one known entry is added and the key is listed, the metadata goes |
| `FinalizationRuns.PersistedCompletedMeansDone` | src/download/service.rs:1601-1645 | metadata saying Completed is on disk only when the move and the known entry are done |
| `FinalizationRuns.MissingPartFinishesExactlyWhen` | src/download/service.rs:1688-1831 | a complete download without its part file is finished exactly when some incoming file has one of its names |
| `FinalizationRuns.AnotherFileFinishes` | src/download/service.rs:1688-1831 | a concrete complete download declared finished because of another file that has its name |
| `FinalizationMany.PassCrash` | src/download/service.rs:1601-1645 | a crash anywhere inside a pass over any number of downloads leaves each of them on its way |
| `FinalizationMany.PassDone` | src/download/service.rs:1601-1645 | a pass that gets through settles every complete download, and none of them stops it |
| `FinalizationMany.FinishesAll` | src/download/service.rs:1601-1763 | crash idempotence for any number of downloads over any number of starts: every part file arrives once under a name of its own that no file had, no earlier incoming file is touched, no key is added twice, all metadata goes |
| `Delivery.SourceIsDelivered` | src/download/service.rs:1403-1760 | from creation through failures, crashes and finalization: the source file ends in the incoming directory, under its own name when no file has it and otherwise under a name that was free |
| `Windows.TwiceTheCap` | src/kad/service.rs:1874-1881 | counting in windows that start at least their length apart lets at most twice the cap through in any span of that length |
| `Shapers.TwiceTheCapIsReached` | src/kad/service.rs:1874-2110 | a run of the shaper that lets exactly twice the cap of a class through within one second, for every configuration without a cap for single peers |
| `SendLog.RateBound` | src/kad/service.rs:1874-2066 | at most 2 x the enabled cap of sends of a class, and of a class to one peer, in any second |
| `SendLog.Scaled` | src/kad/service.rs:1953-2002 | a scaled cap is disabled exactly when the base cap is |
| `Shapers.Shaper.CleanupStalePeers` | src/kad/service.rs:1893-1913 | a peer is forgotten only when its entry is older than an hour, or when 8192 at least as recent ones are kept |
| `Shapers.Shaper.RollWindow` | src/kad/service.rs:1874-1881 | counters are cleared exactly when the window is a second old |
| `Shapers.Shaper.ScheduleSend` | src/kad/service.rs:2012-2066 | refuses exactly when a cap is reached; otherwise gives the earliest time not before now nor within the minimum intervals |
| `Shapers.Shaper.MarkSent` | src/kad/service.rs:2068-2080 | records the send at its later time, counts it in the window of that time, and keeps caps and distances of the whole history |
| `Shapers.Shaper.Send` | src/kad/service.rs:2082-2110 | goes out exactly when taken by the socket, below both caps and, for classes that are not delayed, not too early; every send is recorded once; any peer is forgotten only for age or for want of room |
| `Shapers.Shaper.History` | src/kad/service.rs:2082-2110 | over every run: the rate bounds, the minimum interval between sends of a class, and between sends to a remembered peer |
| `ShaperLimits.RatesInNumbers` | src/kad/service.rs:1953-2066 | how many packets of each class go out in any second, in all and to one destination, in fields of the configuration: twice the configured cap for queries, scaled with their least values and 32 bits for the others |
| `ShaperLimits.ClassesApart` | src/kad/service.rs:1953-2066 | how far apart any two sends of a class are, by the configured interval, halved for bootstrap packets |
| `ShaperLimits.PeersApart` | src/kad/service.rs:1953-2066 | how far a send is from the one before it to the same remembered destination, by the configured interval, halved for HELLO and bootstrap packets |
| `ShaperLimits.SendInNumbers` | src/kad/service.rs:1953-2110 | a packet goes out exactly when the socket takes it, the sends since the window started are below the caps, said in fields of the configuration, and it is far enough from the last ones; peers are forgotten only after an hour or beyond 8192 |
| `OutRequests.OutTracker.Cleanup` | src/kad/service.rs:1666-1672 | keeps exactly the requests at most 180 s old; tracked = live + matched + expired |
| `OutRequests.OutTracker.Track` | src/kad/service.rs:1645-1664 | appends the request under its canonical opcode and the next number; opcodes that are no requests are ignored |
| `OutRequests.OutTracker.Consume` | src/kad/service.rs:1674-1734 | takes off the first live request to this destination with an expected opcode; each answer has its own request, at most 180 s old |
| `InRequests.NextFine` | src/kad/service.rs:1750-1815 | counting one more request keeps the windows a minute apart and at most the limit in each |
| `InRequests.TrimOpcodes` | src/kad/service.rs:1830-1846 | the eight most recent counters stay, unchanged; with at most eight nothing is trimmed |
| `InRequests.InTracker.Cleanup` | src/kad/service.rs:1817-1828 | drops exactly the counters older than 15 minutes and the sources left empty |
| `InRequests.InTracker.EvictOldest` | src/kad/service.rs:1848-1872 | drops the source holding the oldest counter, and only it |
| `InRequests.InTracker.CountRequest` | src/kad/service.rs:1750-1815 | counts in the right slot and refuses exactly above the limit |
| `InRequests.InTracker.Allowed` | src/kad/service.rs:1750-1815 | unlimited opcodes pass; a limited one is allowed exactly when its last minute is over or fewer than the limit have passed in it, and is recorded among the passed exactly then |
| `InRequests.InTracker.FloodBound` | src/kad/service.rs:1750-1815 | at most twice the limit of one canonical opcode of one source in any minute since the source was last evicted; at most 4096 sources with 8 opcodes each, so the opcode trim never acts |
| `RequestNumbers.AnswersInNumbers` | src/kad/service.rs:1554-1734 | over runs: every answer taken belongs to a request to the same destination, at most three minutes older, whose opcode goes with it; all pairs as numbers |
| `RequestNumbers.AnsweredInNumbers` | src/kad/service.rs:1554-1584 | which opcodes are answers, and which requests each of them answers |
| `RequestNumbers.RequestsInNumbers` | src/kad/service.rs:1539-1552 | which opcodes are requests, and that the two old ones count as their successors |
| `RequestNumbers.LimitsInNumbers` | src/kad/service.rs:1736-1748 | which opcodes are limited, and to 2, 3 or 30 requests a minute |
| `RequestNumbers.FloodInNumbers` | src/kad/service.rs:1736-1815 | the flood bound in numbers, opcode by opcode |
| `RequestNumbers.WaitedForInNumbers` | src/kad/service.rs:1666-1672 | a request is waited for three minutes, to the nanosecond |
| `RequestNumbers.KeptInNumbers` | src/kad/service.rs:1817-1828 | a counter is kept for fifteen minutes, to the nanosecond |
| `SourceStores.SourceStore.EnforceFilesCap` | src/kad/service.rs:1258-1277 | the files kept are those ranked last by (has the local source, number of sources, identifier) |
| `SourceStores.DropsInOrder` | src/kad/service.rs:1258-1277 | which of two files goes first: the one without the local source, then the one with fewer sources, then the smaller identifier |
| `SourceStores.SourceStore.EnforcePerFileCap` | src/kad/service.rs:1279-1309 | each file keeps its local source and its largest other ones, up to the cap |
| `SourceStores.SourceStore.EnforceTotalCap` | src/kad/service.rs:1311-1353 | the total drops to exactly the cap; a local source goes only when no other source is left anywhere |
| `SourceStores.SourceStore.EnforceLimits` | src/kad/service.rs:1252-1256 | terminates; every cap that is not zero holds in the end together with the others; whatever the caps, some file with the local source stays exactly when there was one, so with a zero cap the store ends empty exactly when there was none |
| `SourceStores.FilesCapKeepsLocal` | src/kad/service.rs:1258-1277 | the file cap leaves a file with the local source whenever there was one |
| `SourceStores.TotalKeepsLocal` | src/kad/service.rs:1311-1353 | the total cap leaves a local source whenever there was one |
| `SourceStores.Total` | src/kad/service/source_probe.rs:5-9 | the sum of the sizes is the number of stored (file, source) pairs |
| `Tags.ParsersAgree` | src/kad/wire.rs:677-1519 | strict and lenient reading of one tag list agree on names, types, destinations and source type; the lenient size is that of the last size tag, the strict one that of the last wider than a byte |
| `Tags.SameSizeWithoutByteSize` | src/kad/wire.rs:677-1519 | without a one-byte size tag both report the same size |
| `TagEncoding.TagReadsBack` | src/kad/wire.rs:1025-1057 | every written tag is read back; a text longer than 4096 bytes is lost |
| `TagEncoding.TagListReadsBack` | src/kad/wire.rs:1376-1392 | a written tag list is read in the normal layout, so the debug layout is never tried |
| `WireReader.SwapTwice` | src/kad/wire.rs:1227-1234 | the word order of identifiers on the wire is its own inverse |
| `WireReader.Reader.ReadKadId` | src/kad/wire.rs:1227-1234 | four little-endian words become the big-endian identifier |
| `WireReader.Reader.ReadHeader` | src/kad/wire.rs:1398-1418 | type and name of a tag in both layouts and both name styles |
| `WireReader.Reader.ReadStrictValue` | src/kad/wire.rs:1425-1515 | every tag type of the strict parser, with what it takes from it |
| `WireReader.Reader.ReadLenientValue` | src/kad/wire.rs:706-801 | every tag type of the lenient parser, which also takes one-byte sizes and publish info |
| `WireReader.Reader.ReadHelloValue` | src/kad/wire.rs:1281-1362 | every tag type of the HELLO parser |
| `TagLists.ReadStrictInfo` | src/kad/wire.rs:1376-1392 | the normal layout or else the debug layout from the same place, or an error |
| `TagLists.ReadLenientInfo` | src/kad/wire.rs:666-675 | the same in the lenient parser |
| `TagLists.ReadHelloInfo` | src/kad/wire.rs:1236-1250 | the same for HELLO |
| `Messages.DecodePublishKeyReq` | src/kad/wire.rs:548-572 | succeeds exactly on complete messages, with every entry |
| `Messages.DecodePublishKeyReqLenient` | src/kad/wire.rs:610-841 | keyword, declared count, completeness and the readable entries |
| `Messages.DecodersAgree` | src/kad/wire.rs:548-841 | the strict decoder succeeds exactly when the lenient one reports complete; then both give the same entries in order, up to one-byte sizes |
| `Messages.LongestPrefix` | src/kad/wire.rs:610-841 | an incomplete message yields its longest readable prefix: the entry after it cannot be read |
| `Messages.DecodeSearchRes` | src/kad/wire.rs:1112-1137 | decodes the container of search results |
| `Messages.DecodePublishSourceReq` | src/kad/wire.rs:540-546 | decodes file, source and tags |
| `Messages.DecodeHello` | src/kad/wire.rs:390-403 | decodes version, identifier, destination and tags |
| `Messages.DecodeRes` | src/kad/wire.rs:457-479 | decodes target and contacts |
| `Messages.DecodeBootstrapRes` | src/kad/wire.rs:300-331 | decodes sender and contacts |
| `Messages.DecodeReq` | src/kad/wire.rs:405-424 | low five bits as the count, zero refused, the sender only where 16 more bytes are there |
| `MessageEncoding.EncodeSearchResSources` | src/kad/wire.rs:920-937 | at most 65535 results, each with its source tags |
| `MessageEncoding.EncodeSearchResKeyword` | src/kad/wire.rs:939-960 | at most 65535 results, each with its keyword tags |
| `MessageEncoding.EncodePublishKeyReq` | src/kad/wire.rs:858-874 | at most 65535 entries, each with its keyword tags |
| `MessageEncoding.SourcesRoundTrip` | src/kad/wire.rs:920-1137 | source results come back with both destinations and source type 1 |
| `MessageEncoding.KeywordsRoundTrip` | src/kad/wire.rs:939-1137 | keyword results come back; a name or type arrives exactly when it has at most 4096 bytes |
| `MessageEncoding.PublishKeyRoundTrip` | src/kad/wire.rs:548-874 | published entries come back from both decoders alike |
| `MessageEncoding.PublishSourceRoundTrip` | src/kad/wire.rs:540-856 | a published source comes back with destinations and optional size |
| `ContactEncoding.HelloRoundTrip` | src/kad/wire.rs:356-403 | HELLO and HELLO_REQ come back; the agent exactly when it has at most 4096 bytes |
| `ContactEncoding.PatchIsSecondTag` | src/kad/bootstrap.rs:416-427 | overwriting the tag count and appending three bytes yields a HELLO with a second, well-formed tag |
| `ContactEncoding.AskForAckRoundTrip` | src/kad/bootstrap.rs:416-427 | the patched HELLO_RES comes back with the option set and everything else as before |
| `ContactEncoding.EncodeRes` | src/kad/wire.rs:445-455 | the first 255 contacts at most |
| `ContactEncoding.ResRoundTrip` | src/kad/wire.rs:445-479 | the contacts sent come back |
| `ContactEncoding.EncodeBootstrapRes` | src/kad/wire.rs:333-354 | the first 65535 contacts at most |
| `ContactEncoding.BootstrapResRoundTrip` | src/kad/wire.rs:300-354 | sender and contacts come back |
| `ContactEncoding.ReqRoundTrip` | src/kad/wire.rs:405-443 | a request comes back with its count brought into 1..31, so it is never refused |
| `WireSamples.IdLayout` | src/kad/wire.rs:1227-1234 | the order of the 16 bytes of an identifier on the wire |
| `WireSamples.HelloLayout` | src/kad/wire.rs:356-403 | every byte of HELLO and HELLO_REQ |
| `WireSamples.AckLayout` | src/kad/bootstrap.rs:416-427 | every byte of the HELLO_RES that asks for an acknowledgement |
| `WireSamples.SourceLayout` | src/kad/wire.rs:920-937 | every byte of a source in a list of results |
| `WireSamples.FileLayout` | src/kad/wire.rs:939-960 | every byte of a file in a list of results or published files |
| `WireSamples.PublishSourceLayout` | src/kad/wire.rs:540-856 | every byte of a published source |
| `WireSamples.ListLayout` | src/kad/wire.rs:920-960 | identifiers, a count of two bytes, and the entries in order |
| `WireSamples.ContactLayout` | src/kad/wire.rs:333-455 | every byte of RES and BOOTSTRAP_RES with two contacts |
| `WireSamples.ReqLayout` | src/kad/wire.rs:426-443 | every byte of REQ |
| `WireSamples.ReqReads` | src/kad/wire.rs:405-424 | what is read of a REQ: the low five bits, which may not be zero, and a sender only where 16 more bytes are there |
| `WireSamples.TypeLengths` | src/kad/wire.rs:1425-1515 | how many bytes a value takes by the number of its type, and which numbers are no types |
| `WireSamples.TypeValues` | src/kad/wire.rs:1425-1515 | what is kept of a value, by the number of its type |
| `WireSamples.TagSays` | src/kad/wire.rs:706-801 | what a single tag says to each parser, by its number |
| `WireSamples.HeadForms` | src/kad/wire.rs:1398-1418 | the three forms of the head of a tag and the serial number of the debug layout, byte by byte |
| `Rc4s.CryptConcat` | src/kad/udp_crypto.rs:378-382 | encrypting piece by piece equals encrypting the concatenation |
| `Rc4s.CryptTwice` | src/kad/udp_crypto.rs:378-382 | encrypting twice from the same state gives the data back |
| `Rc4s.AlwaysPermutation` | src/kad/udp_crypto.rs:361-397 | whatever the key and however far the stream has run, the table is a permutation |
| `Rc4s.Rc4.constructor` | src/kad/udp_crypto.rs:361-376 | the key schedule |
| `Rc4s.Rc4.Next` | src/kad/udp_crypto.rs:390-396 | one step of the generator, in place |
| `KeyStreams.StepLaw` | src/kad/udp_crypto.rs:390-396 | one step by entries: the entries at the two new indices are exchanged, all others stay, and the byte given is the entry at their sum after that |
| `KeyStreams.RoundLaw` | src/kad/udp_crypto.rs:361-376 | one round of the key schedule by entries, and the table it starts from |
| `KeyStreams.IdentityStream` | src/kad/udp_crypto.rs:390-396 | the table of all bytes in order gives 2, 5, 7 |
| `KnownKey.Entries` | src/kad/udp_crypto.rs:361-376 | ten entries of the table scheduled from the 128-bit key 01 to 10 of RFC 6229, worked out over all 256 rounds |
| `KnownKey.StreamStarts` | src/kad/udp_crypto.rs:361-397 | the stream of that key starts with 9A C7 CC 9A, as in RFC 6229 |
| `Rc4s.Rc4.Apply` | src/kad/udp_crypto.rs:378-382 | encrypts a buffer in place and moves the generator on by its length |
| `Rc4s.Rc4.Discard` | src/kad/udp_crypto.rs:384-388 | moves the generator on |
| `UdpCrypto.ChooseMarker` | src/kad/udp_crypto.rs:318-352 | never the first byte of a plain packet, low bit clear, second bit telling the key in use; the first usable draw |
| `UdpCrypto.EncryptKadPacket` | src/kad/udp_crypto.rs:54-106 | the packet keyed by the target identifier, cipher applied in pieces |
| `UdpCrypto.EncryptKadPacketWithReceiverKey` | src/kad/udp_crypto.rs:111-155 | the packet keyed by the receiver verify key |
| `UdpCrypto.DecryptKadWithKey` | src/kad/udp_crypto.rs:236-290 | magic, padding and verify keys are read at their places in the stream; too short or wrong packets fail |
| `UdpCrypto.UdpVerifyKey` | src/kad/udp_crypto.rs:293-316 | a verify key is never zero and fits 32 bits |
| `PacketSamples.VerifyKeyFolds` | src/kad/udp_crypto.rs:293-316 | the key is made of the digest of target and secret, in this order, by folding its words onto each other, plus one after the remainder by 2^32 - 2 |
| `PacketSamples.DatagramLayout` | src/kad/udp_crypto.rs:54-106 | every byte of an obfuscated datagram, those behind the first three before enciphering |
| `PacketSamples.KeyedWith` | src/kad/udp_crypto.rs:54-155 | what the cipher is keyed with: the digest of identifier or receiver key, followed by the two random bytes |
| `PacketSamples.TakenAsTheyAre` | src/kad/udp_crypto.rs:162-210 | datagrams of at most eight bytes or with one of eight first bytes are taken as they are |
| `UdpCrypto.DecryptKadPacket` | src/kad/udp_crypto.rs:162-210 | plain packets pass unchanged, then the identifier key is tried, then the receiver key |
| `UdpCrypto.NodeRoundTrip` | src/kad/udp_crypto.rs:54-210 | a packet encrypted to our identifier is opened with its payload and both keys |
| `UdpCrypto.TrialExactlyWhen` | src/kad/udp_crypto.rs:236-290 | what a wrong key makes of a packet, by the two key streams: refused exactly when they differ in the first four bytes or make the padding longer than the payload, read as written exactly when they are equal |
| `UdpCrypto.ReceiverRoundTrip` | src/kad/udp_crypto.rs:111-210 | a packet encrypted with the receiver key is opened exactly when the key stream of the identifier, tried first, differs in its first four bytes, or makes the padding longer than the payload, or is the same throughout |
| `Distances.DistanceInjective` | src/kad/routing.rs:668-674 | no two identifiers are equally far from a third |
| `Distances.LeadingZeros` | src/kad/routing.rs:691-702 | the byte loop counts the leading zero bits |
| `Distances.BucketIsSharedPrefix` | src/kad/routing.rs:678-702 | the bucket index is the length of the common prefix |
| `Distances.HigherBucketIsCloser` | src/kad/routing.rs:678-702 | a higher bucket is strictly closer to us |
| `Distances.CloserExactlyWhen` | src/kad/routing.rs:668-674 | of two identifiers the one closer to a third is the one that agrees with it at the first bit where the two differ |
| `Distances.BucketExists` | src/kad/routing.rs:678-689 | every identifier but ours and zero has a bucket, so the range checks never fire |
| `Routing.RoutingTable.Upsert` | src/kad/routing.rs:143-243 | the method computes the table that the lemmas below are about |
| `RoutingReports.KeyIsKept` | src/kad/routing.rs:143-243 | reports never replace a datagram key: a known node that stays keeps key and owner, and a report of it with another key changes nothing at all, timers included |
| `RoutingReports.KeyUntilShown` | src/kad/routing.rs:143-665 | over runs: as long as a node stays in the table, its key changes only when its sender shows another one |
| `RoutingReports.KnownAfterReport` | src/kad/routing.rs:143-243 | what a report makes of a known node, in the fields of its entry before and after |
| `RoutingReports.SuspectChangesNothing` | src/kad/routing.rs:143-243 | a report from another destination of a verified or newer node, with another key, or of an old node that sent a HELLO, changes nothing |
| `RoutingReports.NewAfterReport` | src/kad/routing.rs:143-243 | a new node is taken in as reported, unless the node at its destination stands its ground |
| `RoutingReports.OthersAfterReport` | src/kad/routing.rs:143-243 | all other nodes stay as they are, except the one at the destination when it does not stand its ground |
| `RoutingReports.MarksInFields` | src/kad/routing.rs:244-318 | what hearing from a node, a query, a HELLO, a failure and its keys do to its entry, field by field |
| `Routing.InverseExactlyWhen` | src/kad/routing.rs:143-243 | the two indexes stay inverse exactly when no report is let through that moves a known node to another destination |
| `Routing.MovedIsLost` | src/kad/routing.rs:143-243 | a node moved that way keeps its stored destination but no index entry leads to it |
| `Routing.VerifiedStays` | src/kad/routing.rs:143-243 | in every state, a verified node stays in the table at its destination |
| `Routing.RunInverseExactlyWhen` | src/kad/routing.rs:143-665 | in every run of reports, marks, key updates and drops, the indexes are inverse all along exactly when no report moves a node known at that point |
| `Routing.TwoReportsBreak` | src/kad/routing.rs:143-243 | two reports of one node at two destinations leave indexes that are not inverse |
| `Routing.RunWellKeyed` | src/kad/routing.rs:143-665 | in every run a node is stored under its own identifier, which is neither ours nor zero |
| `Routing.VerifiedUntilDropped` | src/kad/routing.rs:143-665 | in every run a verified node stays, verified and at its destination, until it is dropped for failing or for room |
| `Routing.RoutingTable.MarkByDest` | src/kad/routing.rs:244-318 | what is learned about the node a destination leads to; the second index and all other nodes stay |
| `Routing.IndexIsDetermined` | src/kad/routing.rs:143-665 | the second index is determined by the first |
| `Routing.RoutingTable.Evict` | src/kad/routing.rs:609-624 | removes exactly the nodes with enough failures and age |
| `Routing.RoutingTable.EnforceCapacity` | src/kad/routing.rs:626-665 | leaves at most max nodes, every survivor ranked at least as high as every removed one |
| `Ranks.RankInFields` | src/kad/routing.rs:626-665 | which of two nodes goes first when the table is full, in the fields of their entries |
| `Ranks.StaleInFields` | src/kad/routing.rs:609-624 | which nodes are evicted, in the fields of their entries |
| `Ranks.GivenExactlyWhen` | src/kad/routing.rs:370-399 | a node is given exactly when its version is high enough, its destination is not the excluded one, and fewer than the maximum of such nodes are closer; liveness decides nothing |
| `Closest.ClosestIsNearest` | src/kad/routing.rs:319-331 | exactly the nearest eligible nodes up to the maximum, in strictly increasing distance |
| `Closest.PreferLiveIsClosest` | src/kad/routing.rs:370-399 | with minimum version 1 the list is identical: the liveness tie-breakers never act |
| `Sorting.SortCorrect` | src/kad/routing.rs:319-399 | stable sorting yields an ascending rearrangement |
| `Base64.EncodeText` | src/i2p/b64.rs:56-105 | the loop with its two tails encodes as RFC 4648 section 4 with the I2P alphabet |
| `Base64.DecodeText` | src/i2p/b64.rs:107-168 | the loop decodes groups of four, skipping blanks, padding counting as zero, a padded group ending the text |
| `Base64.EncodeDecode` | src/i2p/b64.rs:56-157 | decoding undoes encoding on all inputs |
| `Base64.RoundTrip` | src/i2p/b64.rs:56-157 | also when blanks are strewn in |
| `Base64.EncodeInjective` | src/i2p/b64.rs:56-105 | texts identify what they encode |
| `Base64.Alphabet` | src/i2p/b64.rs:56-168 | the 64 letters in order, and that nothing else is one |
| `Base64.KnownTexts` | src/i2p/b64.rs:56-105 | the texts of f, fo and foo in section 10 of RFC 4648 |
| `Base64.KnownVariant` | src/i2p/b64.rs:56-105 | the last two letters are those of I2P |
| `Base64.MisplacedPadding` | src/i2p/b64.rs:107-168 | a misplaced padding counts as zero |
| `Base64.EndedByPadding` | src/i2p/b64.rs:107-157 | what follows a padded group is not read |
| `Base64.BlanksAreSkipped` | src/i2p/b64.rs:107-157 | all five kinds of blanks are skipped |
| `Base64.Refused` | src/i2p/b64.rs:107-157 | a length that is no multiple of four and letters that are none are refused |
| `Md4s.Md4.Update` | src/kad/md4.rs:74-85 | feeding any piece keeps the state the fold over the processed blocks, with less than 64 bytes buffered |
| `Md4s.Md4.Finalize` | src/kad/md4.rs:87-98 | the digest is the fold over everything fed in, padded |
| `Md4s.StartsWith` | src/kad/md4.rs:66-72 | the state before the first block is that of RFC 1320 section 3.3, byte by byte |
| `Md4s.ShortMessage` | src/kad/md4.rs:87-98 | every byte of the one block of a message of at most 55 bytes, and that its digest is one application of the block function |
| `Md4s.CountIsRightExactlyWhen` | src/kad/md4.rs:87-98 | the bit count in the padding is that of RFC 1320 section 3.2 exactly for messages under 2^61 bytes |
| `Md4s.DigestChunks` | src/kad/md4.rs:104-121 | any sequence of chunks gives the digest of the whole padded message (RFC 1320 section 3) |

## Left out

- Sockets, SAM, TCP, UDP, the actor's channels, HTTP, authentication, user interface, logging and configuration: input and output without a property of their own.
- The bit buffer of `BitReader` is a number below 2^24 instead of a 64-bit word; the LEN/NLEN check of stored blocks is written as a sum.
- The fixed tables are built at each use instead of being cached.
- Texts of errors, time stamps in metadata, the rolling transfer rate, pipeline statistics and the publication of status.
- JSON: a metadata file is its value, a file cut off in the middle does not parse.
- `fsync`, permissions, I/O errors other than a missing part file or an unreadable `known.met`, the quarantine of a corrupt `known.met` at start-up and the copy-and-remove fallback of a failed rename.
- `sanitize_download_file_name`: file names are taken to be plain names, on which it changes nothing.
- `ServiceRuns.ServiceSafe`: downloads that are created or deleted in the middle of a run; a new one starts as `Creation.CreateDownload` says.
- Trees that leave some code space unused: neither the decoder nor `Conformance` rejects them.
- `delete_download` and `scan_recoverable_downloads` beyond loading one part.
- The activity records of uploads.
- `Answer`: an oversized block is an error here where the source panics.
- `UniqueIncomingName`: requires a free name, because without one the source does not return.
- Wrap-around of request and packet counters beyond their saturation.
- The publish tracker, keyword store, node files, preferences, `select_*` candidate lists, bucket refresh times and the remaining timers of routing entries.
- `closest_to_prefer_live`, `snapshot_nodes` and the other rankings that are not used for publishing and searching.
- Kad messages without a list (search requests, publish responses, Kad 1 messages) and the packed protocol byte: they would only add easier members.
- The arithmetic of MD5 and of the MD4 block function: both are parameters.
- Jitter of the shaper: bounded by a parameter; the only class that would be delayed by it has none.
- UTF-8: texts are the bytes of valid UTF-8, on which lossy decoding changes nothing.

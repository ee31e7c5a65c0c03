# Verified model of the bzip2 codec and the zlib checksums

This Dafny project models the two pieces of compression code vendored with the
server: the bzip2 1.0.6 codec in `dep/bzip2` and the CRC-32 and Adler-32 modules
in `dep/zlib`. Each stage has a short mathematical specification (sorted
rotations, list move-to-front, bijective base-2 run lengths, canonical prefix
codes, a sequence of bits, a two-sum modulo 65521, a polynomial register) and the
in-place code of the source, written as methods over arrays and classes, is
proved against it. The stages are then composed.

The main results:

- **Whole-stream round trip.** For every input, every legal schedule of
  run/flush/finish calls and every sequence of input and output piece sizes, what
  the compressor delivered when it reports the end of the stream decodes to
  exactly the input it consumed, block and combined CRCs included; the fast and
  the small decompressor both deliver it, in any pieces
  (`WholeStream.FinishedStreamDecodes`, `WholeStream.Session`,
  `WholeStream.Unpack`, `WholeStream.ThereAndBack`).
- **The format, from outside.** Whatever bits the decoder accepts are framed as the
  format says, in literal magic numbers, and every checksum in them is that of the
  data delivered (`AcceptedStreams.AcceptedIsFramed`); it reports the magic error
  exactly for streams that do not begin with BZh and a digit 1 to 9
  (`AcceptedStreams.HeaderChecked`). What the encoder writes has the same literal
  frame (`StreamFormat`); a stream without data is fourteen given bytes
  (`WholeStream.EmptyFile`), and the 39 bytes of "banana" are derived field by field
  and decode to it (`KnownStream`).
- **The compressor's state machine.** One invariant holds in every reachable
  state: input consumed is the data of the blocks sent, then of the block being
  filled, then of the pending run; the bits on the wire are exactly the image of
  the blocks sent; the trailer goes out once (`Compressor`). The data of a block
  falls into maximal runs in one way only, so its bytes are determined
  (`RunLength`), the use map marks exactly its bytes, and without a flush every
  block but the last is full (`WholeStream.Session`).
- **The resumable decoder.** `BZ2_decompress` works on the fields of its DState:
  on every call it restores its locals from the save area, runs from the label it
  stopped at, and saves them again. For every label and all bits, an arm takes
  fields and locals that stand for a state of the decoding machine to ones that
  stand for its next state (`BlockReader.Reader.Arm`, with the two-level
  move-to-front list of `TwoLevelMtf` and the loops of `DecoderLoops`); input in
  any pieces leaves the state and the unread bits that all of it at once leaves
  (`Decompressor.Decoder.Decompress`, `Decompressor.Decoder.DecompressPieces`).
  On any input, valid or not, ranks, groups, lists, tables and counters stay in
  range and no table entry is read that was not filled in (`DecoderBounds`); the
  selectors do not, see below.
- **Sorting.** Both block sorts give a permutation in the order of all rotations,
  also for periodic and one-byte blocks: the exponential radix sort with its
  quicksort and word-at-a-time bucket scan (`FallbackSort`, `FallbackQSort`,
  `HeaderBits`), and the main sort with its quadrants, multikey quicksort and the
  scans that order small buckets while reading rows they are still writing
  (`BigBuckets`, `CopyScan`, `SmallBuckets`, `MainSort`). The last column does not
  depend on which such permutation is used (`Rotations`).
- **Coding.** The code lengths are optimal: no prefix code whatever sends the symbols
  in fewer bits, for their frequencies or, when the best code found is too long, for
  the weights after so many rescalings (`CodeLengths.MakeCodeLengths`,
  `OptimalCodes`). They meet Kraft with equality and the rescaling loop terminates;
  codes are prefix-free; limit/base/perm decode them (`CodeLengths`,
  `CanonicalCode`). The whole plan of `sendMTFValues` is pinned: the first tables
  from the split of the alphabet, then four rounds of cheapest tables and best
  codes for exactly the symbols they were chosen for (`SendMtf`). The image of a
  block always fits its buffer (`Capacity`).
- **Checksums.** The literal table of `crctable.c` is that of the polynomial, the
  block checksum is the bit-serial register over it, and it notices any damage
  confined to four bytes in a row (`BlockCrcLaws`). CRC-32 of a message and its own
  checksum is one constant, whatever the message (`Crc32Laws.Residue`). Slicing by four in either byte order, the table construction and
  the matrix operator of `crc32_combine` agree with the bit-serial register
  (`Crc32`, `Crc32Combine`); Adler-32 with its deferred reductions agrees with the
  definition in section 2.2 of RFC 1950, and NMAX is the largest safe block
  (`Adler32`).

Places where the code differs from what is said about it, or from what its data
structures allow:

- The decoder checks the count of selectors only for being positive, and stores
  that many of them. Its two arrays hold 18002. Whatever follows, the selectors of
  a block stay inside them exactly when the count read at `BZ_X_SELECTOR_2` is at
  most 18002 (`SelectorStores.InBoundsIffCounted`), and a stream that announces
  18003 leads to a store one beyond (`SelectorStores.OverlongStores`).
- A comment at `dep/bzip2/blocksort.c:1059-1061` says the compressed stream is the
  same whichever sort is used. That holds for the last column
  (`Rotations.LastColumnIsCanonical`), and for `origPtr` when no other rotation of
  the block equals the block itself (`SortTies.AperiodicFixesRow`). It fails for
  every block of one byte: the main sort leaves rotation 0 first and the fallback
  sort leaves it last (`SortTies.SortBothWays`), the block heads differ
  (`SortTies.HeadsDiffer`), and the front end produces such blocks of any multiple
  of five bytes (`SortTies.ConstantPacking`).
- `adler32` of a single byte (`dep/zlib/adler32.c:78-86`) leaves a result that is
  not reduced when it is given a starting value whose high half is far enough
  above the modulus; `Adler32.Checksum` says exactly when, and
  `Adler32.OneByteUnreduced` is a case. Likewise `adler32_combine` for checksums
  that are not reduced (`Adler32.Combine`, `Adler32.CombineUnreduced`).

One module per file; `Arith`, `Bits` and `CountingSort` hold the shared arithmetic,
bit strings and the stable order of positions by value.

## Model

| member | source | states |
|---|---|---|
| WholeStream.ThereAndBack | dep/bzip2/bzlib.c:407-464 | any session that reaches the end of the stream, decompressed by either decoder from any pieces into any room: every byte delivered is the input's, in order; if the decoder says the stream is over it delivered all of it; it never reports an error, and stops early only because room ran out |
| WholeStream.FinishedStreamDecodes | dep/bzip2/bzlib.c:452-461 | in every reachable idle state of the compressor, the bytes delivered are the image of the blocks sent, filled up with zero bits, and decode to exactly the input consumed, with all checksums right |
| WholeStream.Session | dep/bzip2/bzlib.c:407-464 | for every list of calls (input piece, output room, action): if the session ends, its output is the image of good blocks and zero bits to fill the last byte, the blocks hold all the input offered up to then, and it decodes to that input; if no call flushed, every block but the last was closed because it was full |
| WholeStream.EmptyFile | dep/bzip2/compress.c:622-666 | a stream without data is exactly the fourteen bytes BZh, level digit, 17 72 45 38 50 90 and four zero bytes |
| WholeStream.OneCall | dep/bzip2/bzlib.c:407-464 | one call moves input from the stream to what is consumed, and without a flush cuts no block but the last |
| WholeStream.OnlyLastIsCut | dep/bzip2/bzlib.c:382-398 | without a flush all blocks but the last are full |
| WholeStream.Unpack | dep/bzip2/bzlib.c:808-858 | feeding a stream in any pieces with any output room gives the outcome of decoding it all at once: what is delivered is always a prefix of the data, all of it when the end is reported, and when an error is (but for a block whose runs overrun its end, where the fast decoder returns without accounting for its last bytes); the same error, the same end; with room left over and no end, the stream is cut short |
| Compressor.EState.BzCompress | dep/bzip2/bzlib.c:407-464 | keeps the invariant (input consumed = data of sent blocks, current block, pending run; wire = image of sent blocks); refuses exactly the illegal calls and changes nothing then; STREAM_END exactly when it becomes idle, with no input left; RUN fails only for want of progress; a FINISH call that leaves output room ends the stream; FLUSH_OK only when output room is gone; a completed flush leaves no data behind |
| Compressor.EState.FinishCall | dep/bzip2/bzlib.c:452-461 | the finishing arm: the end of the stream, or output room is gone; a sequence error iff nothing moved, which between calls happens only without room |
| Compressor.EState.FlushCall | dep/bzip2/bzlib.c:442-450 | the flushing arm: either room ran out or all input is in blocks sent and delivered to the last whole byte |
| Compressor.EState.HandleCompress | dep/bzip2/bzlib.c:360-403 | terminates; moves only whole bytes from input to account and from image to output; reports progress iff something moved; stops in RUNNING only with input or room exhausted, in FINISHING only when room is gone or the trailer is out, in FLUSHING only when room is gone or nothing is pending |
| Compressor.EState.OutputTurn | dep/bzip2/bzlib.c:369-380 | the OUTPUT arm: goes on only with a non-empty pending run, and stops for exactly the three reasons of the source |
| Compressor.EState.InputTurn | dep/bzip2/bzlib.c:382-398 | the INPUT arm: stops only while running with no input left, and otherwise leaves a compressed block behind having made progress if a run is still pending; a block is closed because it is full, by a flush or by the end, and without a flush no block but the last is cut |
| Compressor.EState.CompressBlock | dep/bzip2/compress.c:602-667 | afterwards all of the current block's data is in sent blocks whose images are on the wire, followed by the trailer iff it is the last block; every block sent is full or was closed at a cut; block and image together fit in the 4 * (100000 k + 34) bytes they share |
| Compressor.EState.EndImage | dep/bzip2/compress.c:657-666 | the image is closed with the trailer iff the block is the last, and what is delivered and waiting is then the image due |
| Compressor.EState.PutHeaderBits | dep/bzip2/compress.c:621-628 | the stream header goes out once, before the first block |
| Compressor.EState.PutBlockBits | dep/bzip2/compress.c:604-617 | a non-empty block becomes the next block of the stream, its checksum joins the combined one, and its data leaves the account of the current block |
| Compressor.EState.PutTrailerBits | dep/bzip2/compress.c:657-666 | all bytes delivered and waiting are the image of the whole stream and fewer than eight zero bits |
| Compressor.EState.PrepareNewBlock | dep/bzip2/bzlib.c:116-126 | a delivered image makes way for an empty block, the pending run staying pending |
| Compressor.EState.CopyInputUntilStop | dep/bzip2/bzlib.c:288-329 | takes input until the block is full, input is out or the expected amount is in; nothing is lost, and the block stays at or below 100000 k - 15 |
| Compressor.EState.CopyOutputUntilStop | dep/bzip2/bzlib.c:333-356 | copies image bytes in order until room or image is out; progress iff a byte was copied |
| Compressor.EState.TakeByte | dep/bzip2/bzlib.c:302-304 | one input byte enters the account and leaves the input |
| Compressor.EState.FlushPending | dep/bzip2/bzlib.c:251-256 | the pending run enters the block and nothing stays pending |
| Compressor.EState.constructor | dep/bzip2/bzlib.c:148-211 | a new compressor satisfies the invariant with nothing consumed |
| Compressor.EState.PendingIsEmpty | dep/bzip2/bzlib.c:137-144 | isempty_RL is true iff no run is pending, and with an empty block all input consumed is then in sent blocks |
| Compressor.BlocksSnoc | dep/bzip2/compress.c:602-667 | a further good block extends the stream's image and its data by that block's |
| RunFrontEnd.FrontEnd.AddCharToBlock | dep/bzip2/bzlib.c:260-284 | fast track and general case alike append one byte to the data held, use at most five block bytes and keep block and CRC those of the maximal runs so far (a run ends at another byte or at 255), and the use map that of exactly the block bytes |
| RunFrontEnd.FrontEnd.AddPairToBlock | dep/bzip2/bzlib.c:215-247 | one more run is in the block and CRC, and the use map marks exactly the bytes of the block |
| RunFrontEnd.FrontEnd.FlushRL | dep/bzip2/bzlib.c:251-256 | all data held is then in the block |
| RunFrontEnd.FrontEnd.PrepareNewBlock | dep/bzip2/bzlib.c:116-126 | an empty block with a use map that marks nothing and a fresh CRC |
| RunFrontEnd.FrontEnd.PutRun | dep/bzip2/bzlib.c:224-246 | a run of n bytes becomes its 1 to 5 block bytes, and a count byte is marked as used |
| RunFrontEnd.RunPacked | dep/bzip2/bzlib.c:215-247 | any step that adds a run's bytes, marks them and no others and feeds its CRC keeps the block the packing of its runs, the map exact |
| RunFrontEnd.PackedFacts | dep/bzip2/bzlib.c:215-247 | a packed block decodes to its data, is the only packing of it by maximal runs, has an exact use map, and its finished CRC is the checksum of the data |
| RunLength.UnRleOfPacked | dep/bzip2/bzlib.c:215-247 | the run-length decoder restores the data of every list of runs the front end can produce |
| RunLength.PackedSnoc | dep/bzip2/bzlib.c:260-284 | runs are added at the end: packing and data grow by that run's |
| RunLength.RunsAreUnique | dep/bzip2/bzlib.c:260-284 | given data falls into maximal runs of at most 255 in one way only |
| RunLength.SqueezedOnce | dep/bzip2/bzlib.c:215-247 | so its block bytes are determined |
| RunLength.RunFormat | dep/bzip2/bzlib.c:224-246 | a run of four to 255 bytes is stored as four of them and the count less four, a shorter run as it is |
| RunLength.TailIsUnRle | dep/bzip2/bzlib.c:782-800 | reading runs by position, as the output loops do, agrees with list decoding from every position, and fails on exactly the same blocks |
| BlockCrc.UpdateConcat | dep/bzip2/bzlib_private.h:167-172 | the CRC of a concatenation is the CRC of the second part started from the first's |
| BlockCrcLaws.UpdateAllIsSerial | dep/bzip2/bzlib_private.h:157-172 | with the table of the polynomial, the checksum register is the bit-serial one fed every byte from its highest bit, x^32 + x^26 + ... + 1 being 0x04c11db7 |
| BlockCrcLaws.UpdateIsByte | dep/bzip2/bzlib_private.h:167-172 | one table step feeds the eight bits of a byte, highest first |
| BlockCrcLaws.EntryHolds | dep/bzip2/crctable.c:31-100 | each of the 256 literal entries is eight register steps of its index on top of the register |
| BlockCrcLaws.TableHolds | dep/bzip2/crctable.c:31-100 | BZ2_crc32Table is the table of the polynomial |
| BlockCrcLaws.KnownSums | dep/bzip2/bzlib_private.h:157-172 | the checksum of no data is 0 and that of the letter a is 0x19939b6b |
| BlockCrcLaws.TableTells | dep/bzip2/crctable.c:31-100 | the low bytes of the entries of such a table are pairwise different |
| BlockCrcLaws.BurstDetected | dep/bzip2/bzlib_private.h:157-172 | two equally long data strings that differ only within four bytes in a row, in whatever way, have different checksums |
| BlockCrcLaws.ExchangeDetected | dep/bzip2/compress.c:609-611 | exchanging two blocks changes the combined checksum, unless their checksums are equal or complementary |
| CompressBlock.BlockSort | dep/bzip2/blocksort.c:1031-1089 | whichever sort runs, for any work factor and also when the main sort gives up, the order is a permutation that sorts all rotations and origPtr is the row of rotation 0, so assertion 1003 holds; on a block of one byte origPtr is the last row below 10000 bytes and row 0 from there on |
| CompressBlock.MainOrder | dep/bzip2/blocksort.c:1052-1068 | unless its budget ran out, the main sort's order sorts all rotations; on a block of one byte the budget never runs out and the rotations stay in order |
| CompressBlock.FallbackOrder | dep/bzip2/blocksort.c:1044-1045 | the fallback sort's order sorts all rotations; on a block of one byte it is the order reversed |
| CompressBlock.BlockSymbols | dep/bzip2/compress.c:650-651 | the symbols are those of the last column of the sorted rotations, at most nblock + 1 of them, with their exact frequencies |
| CompressBlock.PutHead | dep/bzip2/compress.c:632-650 | the block head: magic, CRC, the zero randomised bit, 24 bits of origPtr |
| CompressBlock.PutBlock | dep/bzip2/compress.c:604-653 | the bits added are the image of a good block whose bytes are the unique packing of the given data, with an exact use map |
| CompressBlock.PutHeader | dep/bzip2/compress.c:621-628 | the four bytes of the stream header |
| CompressBlock.PutTrailer | dep/bzip2/compress.c:656-666 | trailer magic, combined CRC and fewer than eight zero bits of padding, all in whole bytes |
| BlockImage.CodingCovers | dep/bzip2/compress.c:544-594 | one selector for every 50 symbols and codes within 17 bits make every symbol of the block codable |
| BlockImage.BlockIsCodable | dep/bzip2/compress.c:602-667 | every good block has an image |
| BlockImage.AlphabetOfBlock | dep/bzip2/compress.c:106-118 | every table of a block has as many lengths as the block has distinct bytes, and two |
| GenerateMtf.UsedAreDistinct | dep/bzip2/compress.c:106-118 | an exact use map lists the distinct bytes of the block |
| StreamFormat.HeadFormat | dep/bzip2/compress.c:632-650 | a block begins with the 48 bits 0x314159265359, 32 bits of checksum, a zero bit and 24 bits of origPtr |
| StreamFormat.StreamHeaderFormat | dep/bzip2/compress.c:622-628 | a stream begins with the 24 bits 0x425A68 and the digit of its level |
| StreamFormat.TrailerFormat | dep/bzip2/compress.c:657-662 | it ends with the 48 bits 0x177245385090 and 32 bits of combined checksum |
| StreamFormat.GroupsOfFifty | dep/bzip2/compress.c:544-594 | symbol i of a block is coded with the table that selector i / 50 names |
| KnownStream.BananaFile | dep/bzip2/compress.c:602-667 | the image of the block "banana", coded as bzip2 does, is the 39 bytes 42 5a 68 39 31 41 59 26 53 59 ef b6 ec 01 ... d8 02 |
| KnownStream.BananaDecodes | dep/bzip2/decompress.c:105-641 | those 39 bytes decode to "banana" and end well |
| KnownStream.KnownIsGood | dep/bzip2/compress.c:602-667 | "banana" with its sorted rotations, its map and its two tables is a good block |
| KnownStream.BananaSum | dep/bzip2/bzlib_private.h:157-172 | the checksum of "banana" is 0xefb6ec01 |
| KnownStream.KnownSymbols | dep/bzip2/compress.c:120-230 | its last column has the symbols 3, RUNA, 3, 3, RUNB, EOB |
| Capacity.ImageLength | dep/bzip2/compress.c:494-594 | the image of any block is no longer than a bound in nblock alone |
| Capacity.ImageFits | dep/bzip2/bzlib.c:176-178 | that bound with headers, trailer and unfinished byte stays within what the block leaves of arr2, for every block size |
| Capacity.SymbolsLength | dep/bzip2/compress.c:544-594 | at most 17 bits a symbol |
| Capacity.TableLength | dep/bzip2/compress.c:531-539 | at most 33 bits a symbol of delta-coded lengths, however they jump |
| BitWriter.WriteWord | dep/bzip2/compress.c:76-77 | or-ing a value below the live bits appends its bits and touches no other, as long as 32 bits are not exceeded |
| BitWriter.ShiftOut | dep/bzip2/compress.c:60-66 | taking the top byte out and shifting, in 32 bits with wrap-around, moves exactly eight bits to the output |
| BitWriter.BitStream.W | dep/bzip2/compress.c:73-78 | up to 24 bits are appended to everything sent; bsLive stays below 32 |
| BitWriter.BitStream.NeedW | dep/bzip2/compress.c:58-67 | fewer than eight bits stay in the buffer and nothing sent changes |
| BitWriter.BitStream.FinishWrite | dep/bzip2/compress.c:46-54 | everything sent is in whole bytes, with fewer than eight zero bits of padding |
| BitWriter.BitStream.PutUInt32 | dep/bzip2/compress.c:83-89 | four bytes, high first |
| BitWriter.BitStream.PutUChar | dep/bzip2/compress.c:94-97 | eight bits |
| BitWriter.BitStream.constructor | dep/bzip2/compress.c:37-41 | a new bit stream has sent nothing |
| SendMtf.SendMTFValues | dep/bzip2/compress.c:239-598 | the coding comes about as planned: two to six tables by the number of symbols, each favouring one stretch of the alphabet at first, then four rounds; the tables are complete codes (Kraft sum exactly one) with lengths 1..17 and best for the symbols they code, one selector in range for each 50 symbols (at most 18002), and the bits sent are map, selectors, tables and symbols under that coding |
| SendMtf.PrepareCoding | dep/bzip2/compress.c:266-492 | from the initial tables four rounds lead to the coding: every fifty symbols take the cheapest table, then every table becomes a best code within 17 bits for the symbols it was taken for; the code arrays hold the canonical codes of the length arrays |
| SendMtf.PackedCosts | dep/bzip2/compress.c:358-385 | two 16-bit sums kept in one word never carry into each other: both halves equal the plain sums |
| SendMtf.GroupCosts | dep/bzip2/compress.c:356-393 | the fast track for six tables and fifty symbols and the general path give the same cost for every table |
| SendMtf.PlainCost | dep/bzip2/compress.c:388-393 | the general path's sum, within 16 bits |
| SendMtf.CostBound | dep/bzip2/compress.c:360-385 | a group costs at most 17 bits for each of its symbols |
| SendMtf.Cheapest | dep/bzip2/compress.c:399-401 | the first table of least cost |
| SendMtf.PickTable | dep/bzip2/compress.c:349-401 | the first table of least cost for one group, whichever way the costs are added up |
| SendMtf.ChooseTables | dep/bzip2/compress.c:342-435 | one selector for every fifty symbols, naming the first of the tables that code them with the fewest bits, no more than the selector array holds; rfreq holds exactly how often each symbol occurs in the groups that take each table |
| SendMtf.InitialTables | dep/bzip2/compress.c:279-317 | the alphabet falls into consecutive stretches, each the shortest with an equal share of the frequency left (every second inner one of two symbols or more then gives up its last); table n - 1 - k has length 0 on stretch k and 15 elsewhere |
| SendMtf.Stretch | dep/bzip2/compress.c:287-293 | the stretch found is the shortest with the frequency wanted, or all that is left, and its frequency sum is that of its symbols |
| SendMtf.MakeTables | dep/bzip2/compress.c:449-451 | all tables become complete codes, Kraft sum exactly one, with lengths 1..17, each best for its counts within that limit |
| SendMtf.RefineTables | dep/bzip2/compress.c:319-452 | exactly four rounds of choosing and adapting, from the initial tables to the final ones |
| SendMtf.OccursGroup | dep/bzip2/compress.c:408-432 | the symbols of a group are counted for the table it takes and for no other |
| SendMtf.CountGroup | dep/bzip2/compress.c:408-432 | each symbol of the group adds one to its count |
| SendMtf.RankOne | dep/bzip2/compress.c:466-476 | one step of the selectors' move-to-front: the old rank, and the list with that selector in front |
| SendMtf.RankSelectors | dep/bzip2/compress.c:461-478 | the ranks of all selectors under move-to-front |
| SendMtf.AssignAll | dep/bzip2/compress.c:480-492 | every table gets the canonical codes of its lengths; assertions 3004 and 3005 hold |
| SendMtf.SendMap | dep/bzip2/compress.c:494-515 | 16 row bits, then 16 bits for every used row |
| SendMtf.SendSelectors | dep/bzip2/compress.c:518-524 | table count, selector count and every rank in unary |
| SendMtf.SendTable | dep/bzip2/compress.c:531-539 | first length in five bits, then every length by unit steps from the one before |
| SendMtf.SendSteps | dep/bzip2/compress.c:535-536 | unit steps up or down until the length is reached |
| SendMtf.SendGroup | dep/bzip2/compress.c:549-588 | the codes of one group's symbols under its selected table |
| SendMtf.SendSymbols | dep/bzip2/compress.c:544-594 | every symbol's code under its group's table; assertion 3006 holds, and the count of groups is the count of selectors (assertion 3007) |
| GenerateMtf.GenerateMTFValues | dep/bzip2/compress.c:120-231 | although 16-bit symbols overwrite the 32-bit order as it is read, the symbols are exactly those of the last column and end marker, at most nblock + 1, with exact frequencies |
| GenerateMtf.CodeByte | dep/bzip2/compress.c:163-210 | one byte: symbols so far plus what is pending encode exactly the column so far, and wr + zPend stays at or below i, so unread order entries survive |
| GenerateMtf.PointersSurvive | dep/bzip2/compress.c:138-140 | an order entry is intact as long as only cells at or below its index were written |
| GenerateMtf.PutRun | dep/bzip2/compress.c:174-188 | a run of zeros becomes its bijective base-2 digits, no longer than the run |
| GenerateMtf.MoveUp | dep/bzip2/compress.c:190-205 | the list with the byte moved to the front, and its old rank |
| GenerateMtf.CodeMove | dep/bzip2/compress.c:174-206 | pending run, then rank plus one |
| GenerateMtf.FinishCoding | dep/bzip2/compress.c:212-230 | the last run and the end marker complete the encoding |
| GenerateMtf.MakeMaps | dep/bzip2/compress.c:106-115 | every used byte gets its sequence number among the used bytes |
| MoveToFront.RoundTrip | dep/bzip2/decompress.c:375-486 | decoding runs and ranks restores every column over every list of distinct values, whatever run is pending |
| MoveToFront.RunRoundTrip | dep/bzip2/decompress.c:381-398 | bijective base-2 recovers every run length |
| MoveToFront.RunCodeIsShort | dep/bzip2/decompress.c:384-390 | a run of at most a block has at most 19 digits, so the decoder's guard on N never fires on it |
| MoveToFront.MoveFrontFacts | dep/bzip2/compress.c:190-205 | moving to the front keeps a list of distinct values one, with the same members |
| TwoLevelMtf.MtfList.Move | dep/bzip2/decompress.c:423-475 | sixteen sliding windows of sixteen behave as one list: the entry returned and the list after are those of plain move-to-front, windows staying disjoint, ordered and in range |
| TwoLevelMtf.MtfList.MoveNear | dep/bzip2/decompress.c:429-444 | an index below 16, with the unrolled shift by four |
| TwoLevelMtf.MtfList.MoveFar | dep/bzip2/decompress.c:447-462 | an index of 16 or more: one window gains and every earlier one hands over an entry |
| TwoLevelMtf.MtfList.Repack | dep/bzip2/decompress.c:463-472 | repacking in place to the top of the array keeps the list |
| TwoLevelMtf.MtfList.constructor | dep/bzip2/decompress.c:358-370 | the list 0, 1, ..., 255 |
| TwoLevelMtf.FarIsMoveFront | dep/bzip2/decompress.c:447-462 | the array after a far move reads as move-to-front of the list before, for every window layout |
| TwoLevelMtf.NearIsMoveFront | dep/bzip2/decompress.c:429-444 | the array after a near move reads as move-to-front of the list before |
| TwoLevelMtf.PackedList | dep/bzip2/decompress.c:464-471 | windows laid out at the top of the array are valid and read as the packed list |
| CodeLengths.MakeCodeLengths | dep/bzip2/huffman.c:63-148 | terminates for every frequency table; lengths meet Kraft with equality and lie in 1..maxLen; no prefix code whatever, however long, sends the symbols in fewer bits, counted by their frequencies (at least one each), or, when a best code for these went beyond maxLen, by the weights of the first rescaling for which the one found does not (for maxLen of at least 12 and total frequency below 2^23) |
| CodeLengths.OneRound | dep/bzip2/huffman.c:82-123 | one tree over all symbols and the depths of its leaves: a best code for the weights, within the limit, or a best code beyond it and a total weight above two a symbol |
| CodeLengths.Outcome | dep/bzip2/huffman.c:114-147 | after each round the lengths are a best code for the weights; either all fit and the code is complete, or the total weight still exceeds two a symbol |
| CodeLengths.TreeIsOptimal | dep/bzip2/huffman.c:100-121 | the depths in a forest grown by always joining two lightest trees cost no more than any lengths that meet Kraft's inequality |
| CodeLengths.OptimalFrom | dep/bzip2/huffman.c:100-110 | the same for the roots at any stage of the joining |
| CodeLengths.JoinGreedy | dep/bzip2/huffman.c:101-109 | every inner node was made of the two lightest nodes without a parent |
| CodeLengths.CommonIsShort | dep/bzip2/huffman.c:79-121 | in a best code a commoner symbol never has the longer code |
| OptimalCodes.Siblings | dep/bzip2/huffman.c:101-105 | in any prefix code two lightest symbols can be given the same, longest length at no cost |
| OptimalCodes.Shorten | dep/bzip2/huffman.c:101-105 | a symbol that alone has the longest code can take the next shorter length |
| CodeLengths.LightIsShallow | dep/bzip2/huffman.c:123 | once all weights are 1 or 2, a Fibonacci bound keeps every depth at 12 or less, so tooLong cannot recur |
| CodeLengths.RescaleShrinks | dep/bzip2/huffman.c:142-146 | rescaling never grows the total weight, and leaves it equal only when it is at most two a symbol |
| CodeLengths.CompleteCode | dep/bzip2/huffman.c:115-121 | depths of the leaves of any such tree meet Kraft with equality |
| CodeLengths.DepthFits | dep/bzip2/huffman.c:29-31 | depth stays below 33, so the depth byte of a weight never overflows into the weight and the sum fits 31 bits |
| CodeLengths.DepthBound | dep/bzip2/huffman.c:100-110 | a weight below Fib(n + 2) cannot reach depth n |
| CodeLengths.RootIsLightest | dep/bzip2/huffman.c:33-59 | the root of the heap is a lightest entry |
| CodeLengths.UpHeap | dep/bzip2/huffman.c:33-42 | the new entry joins the heap's members and order is restored |
| CodeLengths.DownHeap | dep/bzip2/huffman.c:44-59 | order is restored below the root, the same members |
| CodeLengths.PopLightest | dep/bzip2/huffman.c:101 | removes one lightest member |
| CodeLengths.JoinLightest | dep/bzip2/huffman.c:101-109 | joins the two lightest trees of the forest: the invariant of forest, weights and heap holds with one tree fewer |
| CodeLengths.JoinAll | dep/bzip2/huffman.c:100-112 | one tree over all symbols; assertion 2002 holds |
| CodeLengths.BuildHeap | dep/bzip2/huffman.c:84-98 | a heap of all symbols, a forest of single leaves; assertion 2001 holds |
| CodeLengths.ReadLengths | dep/bzip2/huffman.c:114-121 | each length is the node's depth, and tooLong iff one exceeds maxLen |
| CodeLengths.Rescale | dep/bzip2/huffman.c:142-146 | every weight becomes one more than half of itself, depth cleared |
| CanonicalCode.PrefixFree | dep/bzip2/huffman.c:152-166 | no code is a prefix of another, for any lengths whose codes fit |
| CanonicalCode.CodesFit | dep/bzip2/huffman.c:152-166 | lengths that meet Kraft give codes that fit their lengths |
| CanonicalCode.FirstIsKraft | dep/bzip2/huffman.c:160-165 | the first code of a length, scaled, is the Kraft sum of all shorter ones |
| CanonicalCode.LongerCodeIsBeyond | dep/bzip2/huffman.c:160-165 | every prefix of a longer code lies beyond the last code of that shorter length |
| CanonicalCode.AssignCodes | dep/bzip2/huffman.c:152-166 | the array holds the canonical codes |
| CanonicalCode.AssignRound | dep/bzip2/huffman.c:161-165 | the round for one length assigns consecutive codes to its symbols and no others |
| CanonicalCode.CreateDecodeTables | dep/bzip2/huffman.c:170-200 | limit, base and perm are the tables of the canonical code |
| CanonicalCode.Lookup | dep/bzip2/decompress.c:88-101 | every proper prefix of a code exceeds its limit, the code itself does not, and perm at code minus base is its symbol |
| CanonicalCode.FillPerm | dep/bzip2/huffman.c:180-183 | symbols in the stable order of their lengths |
| CanonicalCode.FillBase | dep/bzip2/huffman.c:185-188 | how many symbols have a shorter code |
| CanonicalCode.FillLimit | dep/bzip2/huffman.c:190-197 | the last code of every length |
| CanonicalCode.RebaseCodes | dep/bzip2/huffman.c:198-199 | the distance from code to place in perm |
| Rotations.LastColumnIsCanonical | dep/bzip2/blocksort.c:1059-1061 | any two orders that sort the rotations, whatever they do with equal ones, have the same last column |
| Rotations.SortedListsAgree | dep/bzip2/blocksort.c:1059-1061 | any two such orders have the same rotation in every row |
| Rotations.KeyIsLex | dep/bzip2/blocksort.c:968-985 | comparing rotations by their key in base 256 is lexicographic comparison of their bytes |
| SortTies.AperiodicFixesRow | dep/bzip2/blocksort.c:1083-1088 | if no other rotation equals rotation 0, every sorting order has the same origPtr |
| SortTies.SortBothWays | dep/bzip2/blocksort.c:1059-1061 | on every block of one byte, run on the same block with any budget, the main sort puts rotation 0 first and the fallback sort puts it last |
| SortTies.HeadsDiffer | dep/bzip2/compress.c:631-652 | block heads with different origPtr are different bits |
| SortTies.ConstantPacking | dep/bzip2/bzlib.c:212-249 | 255 * n copies of byte 251 are n maximal runs and fill a block with 5 * n copies of it, so such blocks of 10000 bytes and more come out of the front end |
| FallbackSort.Sort | dep/bzip2/blocksort.c:211-329 | terminates, also on periodic blocks, with a permutation that sorts all rotations, and the block is back in eclass; on a block of one byte the order is from the last rotation to the first |
| FallbackSort.RefinePass | dep/bzip2/blocksort.c:273-306 | from classes of rotations equal on H bytes, a pass leaves header bits that delimit exactly the classes equal on 2H bytes, in order; zero not-done means all rows are singletons |
| FallbackSort.RefineBucket | dep/bzip2/blocksort.c:294-305 | sorting one bucket by the class of the rotation H bytes on splits it into exactly its classes on 2H bytes |
| FallbackSort.RefinedIsSorted | dep/bzip2/blocksort.c:311-312 | when H exceeds the block or all rows are singletons, the rotations are sorted |
| FallbackSort.RefineSingletons | dep/bzip2/blocksort.c:277-285 | rows that are singletons need no pass |
| FallbackSort.ComputeClasses | dep/bzip2/blocksort.c:266-271 | class numbers order as the first H bytes do, for every rotation, while each word written destroys the four bytes of the block it lies over |
| FallbackSort.MarkBucket | dep/bzip2/blocksort.c:299-304 | header bits at exactly the rows where the class changes |
| FallbackSort.MarkStarts | dep/bzip2/blocksort.c:243-257 | header bits at exactly the first rows of non-empty byte buckets, and sentinels past the end |
| FallbackSort.CountBytes | dep/bzip2/blocksort.c:231-234 | cumulative and plain byte counts |
| FallbackSort.Distribute | dep/bzip2/blocksort.c:236-241 | a permutation grouped by first byte |
| FallbackSort.RadixRefines | dep/bzip2/blocksort.c:225-257 | the radix pass sets up the invariant for one byte |
| FallbackSort.Reconstruct | dep/bzip2/blocksort.c:322-328 | handing out bytes in row order restores the block; assertion 1005 holds |
| HeaderBits.NextClear | dep/bzip2/blocksort.c:278-283 | the word-at-a-time scan finds the first clear bit, as a bit-by-bit scan would, and stops at the sentinel |
| HeaderBits.NextSet | dep/bzip2/blocksort.c:286-290 | the word-at-a-time scan finds the first set bit, as a bit-by-bit scan would |
| HeaderBits.SetBH | dep/bzip2/blocksort.c:205 | sets one bit and no other |
| HeaderBits.ClearBH | dep/bzip2/blocksort.c:206 | clears one bit and no other |
| FallbackQSort.FallbackQSort3 | dep/bzip2/blocksort.c:92-180 | the range is a sorted rearrangement of itself, nothing outside it changes, the loop ends and assertion 1004 holds; a range of one class is left as it is |
| FallbackQSort.SortOrSplit | dep/bzip2/blocksort.c:108-170 | one range off the stack is sorted outright, found to be of one class, or split into less, equal and greater |
| FallbackQSort.StackBound | dep/bzip2/blocksort.c:172-178 | with the smaller side on top each stack entry is at most half the one below, so fewer than 19 are ever on the stack |
| FallbackQSort.Partition | dep/bzip2/blocksort.c:132-170 | less, equal and greater parts in place, a rearrangement of the range |
| FallbackQSort.ScanUp | dep/bzip2/blocksort.c:136-146 | passes entries up to the median, gathering equal ones at the low end |
| FallbackQSort.ScanDown | dep/bzip2/blocksort.c:147-157 | passes entries down to the median, gathering equal ones at the high end, and stops below a larger entry with a smaller one |
| FallbackQSort.VSwap | dep/bzip2/blocksort.c:66-75 | exchanges two stretches, nothing else |
| FallbackQSort.FallbackSimpleSort | dep/bzip2/blocksort.c:32-59 | stride-four then stride-one insertion sorts the range |
| FallbackQSort.Insert | dep/bzip2/blocksort.c:44-57 | one insertion with any gap |
| FallbackQSort.PushParts | dep/bzip2/blocksort.c:172-178 | both parts are pushed, the smaller one on top |
| MainSort.MainGtU | dep/bzip2/blocksort.c:345-469 | decides the weak order of two rotations whenever quadrants respect it; reads nothing at or beyond nblock + 34 from starts below nblock + 15, and reads index nblock + 33 when nothing tells the rotations apart and one starts at nblock + 14; the budget falls by one for every eight bytes found equal after the first twelve, at most nblock / 8 + 2 times |
| MainSort.CompareTwelve | dep/bzip2/blocksort.c:357-405 | the first twelve bytes decide the order or are a common prefix |
| MainSort.ConstantIsFlat | dep/bzip2/blocksort.c:411-458 | a block of one byte with cleared quadrants is a case in which nothing tells rotations apart |
| MainSort.CompareByte | dep/bzip2/blocksort.c:360-362 | one step: different bytes decide the order, equal bytes extend the common prefix |
| MainSort.CompareEight | dep/bzip2/blocksort.c:411-458 | eight steps of byte and quadrant decide the order or extend the common prefix by eight |
| MainSort.QuadrantDecides | dep/bzip2/blocksort.c:957-986 | after an equal prefix and an equal byte, different quadrants decide the whole rotations |
| MainSort.AllAgree | dep/bzip2/blocksort.c:408-468 | two rotations that agree on nblock bytes are equal, so answering false after the last round is right |
| MainSort.MainSimpleSort | dep/bzip2/blocksort.c:484-555 | a rearrangement of the range, sorted unless the budget ran out |
| MainSort.ShellPass | dep/bzip2/blocksort.c:507-553 | a pass rearranges the range and, with gap one, sorts it unless the budget ran out |
| MainSort.SinkEntry | dep/bzip2/blocksort.c:512-522 | one entry sinks to its place: with gap one the sorted stretch grows by it |
| MainSort.MainQSort3 | dep/bzip2/blocksort.c:620-717 | on rotations that share d bytes: a rearrangement of the range, sorted by whole rotations unless the budget ran out; terminates, and assertion 1001 holds |
| MainSort.ThirdsBound | dep/bzip2/blocksort.c:706-715 | pushing the largest part first keeps fewer than 36 entries on the stack |
| MainSort.PartitionByByte | dep/bzip2/blocksort.c:656-700 | parts with a byte below, at and above the median at depth d |
| MainSort.OrderBySize | dep/bzip2/blocksort.c:702-711 | three swaps order the three parts by size, largest first |
| MainSort.Med3 | dep/bzip2/blocksort.c:581-592 | one of the three, with the other two on either side |
| BigBuckets.Sort | dep/bzip2/blocksort.c:750-1011 | unless the budget runs out, ptr is a permutation that sorts all rotations, for every block, all-equal and periodic ones included; the block itself is unchanged; assertions 1002, 1006 and 1007 hold and all loops end; on a block of one byte nothing moves and the budget is untouched |
| BigBuckets.FinishBucket | dep/bzip2/blocksort.c:868-1006 | one big bucket: rows stay in their small buckets, marked small buckets are sorted, quadrants never contradict the order, and this big bucket is then finished |
| BigBuckets.CopyColumn | dep/bzip2/blocksort.c:917-946 | from big bucket [ss], sorted but for [ss, ss], the two scans sort every small bucket [t, ss] of an open big bucket and [ss, ss] itself, and leave all others as they are |
| BigBuckets.ScanUp | dep/bzip2/blocksort.c:923-928 | the scan from the low end reads rows it is itself writing: it ends having read its outer rows and every predecessor it found in [ss, ss], in order |
| BigBuckets.ScanDown | dep/bzip2/blocksort.c:929-934 | the scan from the high end likewise reads rows it is writing and finds every predecessor on its side, without touching what the other scan wrote |
| BigBuckets.CompleteBucket | dep/bzip2/blocksort.c:886-907 | every small bucket [ss, j] with j other than ss is sorted and marked |
| BigBuckets.SortBucket | dep/bzip2/blocksort.c:888-905 | a small bucket not known to be sorted is quicksorted from depth two; all others stay as they were |
| BigBuckets.UpdateQuadrants | dep/bzip2/blocksort.c:989-1004 | quadrants fit 16 bits, repeat in the overshoot, and are sound for the finished bucket as for all before |
| BigBuckets.UpdatedSound | dep/bzip2/blocksort.c:964-1003 | scaled-down rows of a sorted big bucket are quadrants that never contradict the order |
| BigBuckets.QuadrantsSound | dep/bzip2/blocksort.c:957-986 | such quadrants have the meaning the comparison relies on, in the overshoot too |
| BigBuckets.CountPairs | dep/bzip2/blocksort.c:769-792 | the count of every two-byte value, the last byte pairing with the first |
| BigBuckets.Overshoot | dep/bzip2/blocksort.c:794-798 | the first 34 bytes repeat behind the block, which is unchanged |
| BigBuckets.SumPairs | dep/bzip2/blocksort.c:803 | one past the last row of every small bucket |
| BigBuckets.PlacePairs | dep/bzip2/blocksort.c:805-830 | a permutation with every rotation in its small bucket, and the table holds each bucket's first row |
| BigBuckets.OrderBuckets | dep/bzip2/blocksort.c:832-860 | a permutation of the 256 big buckets, least full first |
| BigBuckets.SinkBucket | dep/bzip2/blocksort.c:849-857 | one insertion, h places at a time |
| BigBuckets.FindColumn | dep/bzip2/blocksort.c:919-922 | the first and last row of every small bucket [j, ss], marks cleared |
| BigBuckets.MarkColumn | dep/bzip2/blocksort.c:946 | exactly the small buckets [j, ss] are newly marked |
| CopyScan.Copied | dep/bzip2/blocksort.c:917-944 | after both scans the order is a permutation by small buckets with every open [t, ss] sorted and all others untouched, and the scans meet unless the whole block is one byte (assertion 1007) |
| CopyScan.CopyTurn | dep/bzip2/blocksort.c:923-934 | one turn of either scan keeps: what it read is a run in order, each open bucket holds from either end exactly the predecessors found, everything between is as before |
| CopyScan.NextRow | dep/bzip2/blocksort.c:923-934 | the row looked at holds the next rotation to read, be it an old one or one copied there by this scan |
| CopyScan.WholeSide | dep/bzip2/blocksort.c:912-917 | a scan that has read all it can has read every rotation whose run of ss ends on its side |
| CopyScan.QueueGood | dep/bzip2/blocksort.c:912-917 | predecessors of a sorted run that start with ss follow the outer rotations in order, each once |
| CopyScan.Room | dep/bzip2/blocksort.c:926-933 | copies into a bucket from both ends together never exceed its size |
| CopyScan.MeetOrConstant | dep/bzip2/blocksort.c:937-944 | the scans read every rotation that starts with ss, or the block is all ss |
| CopyScan.ConstantBlock | dep/bzip2/blocksort.c:939-943 | in a block of one byte nothing is copied and nothing needs to be |
| CopyScan.BucketCopied | dep/bzip2/blocksort.c:926-933 | what came from below, then what came from above, is sorted |
| SmallBuckets.BucketsTogether | dep/bzip2/blocksort.c:950-951 | sorted small buckets side by side are sorted throughout |
| SmallBuckets.UpBelowDown | dep/bzip2/blocksort.c:912-917 | a rotation that leaves its run for a smaller byte precedes one that leaves it for a larger one |
| SmallBuckets.AllOneByte | dep/bzip2/blocksort.c:939-943 | a rotation that never leaves its run means the block is one byte |
| InverseBwt.UnsortRestores | dep/bzip2/decompress.c:494-576 | walking the last column from the row of rotation 0 gives the block back, also when it is periodic and the walk closes early |
| InverseBwt.UnsortGivesRotation | dep/bzip2/decompress.c:559-573 | from any row the walk spells that row's rotation |
| InverseBwt.WalkFollows | dep/bzip2/decompress.c:559-566 | after m steps the walk stands on a row whose rotation equals the one m bytes on |
| InverseBwt.ShiftedSorts | dep/bzip2/decompress.c:559-564 | stepping every row to its successor gives another order that sorts the rotations |
| InverseBwt.BuildFast | dep/bzip2/decompress.c:559-564 | the packed array holds the byte column in its low bits and the successor of each row above them |
| InverseBwt.BuildRows | dep/bzip2/decompress.c:526-534 | the split 16 + 4 bit array holds the row of every byte |
| InverseBwt.SetLL | dep/bzip2/bzlib_private.h:458-473 | writing one 20-bit entry reads back and leaves all others, sharing a nibble or not |
| InverseBwt.ReversePointers | dep/bzip2/decompress.c:536-545 | reversing the links along origPtr's cycle inverts the permutation on that whole cycle; the loop ends |
| InverseBwt.CycleIsReversed | dep/bzip2/decompress.c:536-545 | after the last link is turned every row of the cycle points to its predecessor |
| InverseBwt.IndexIntoF | dep/bzip2/bzlib.c:687-698 | binary search finds the one byte whose bucket holds the row |
| InverseBwt.BucketIsFirstColumn | dep/bzip2/bzlib.c:687-698 | that byte is the first byte of the row's rotation |
| OutputStage.DState.EmitFast | dep/bzip2/bzlib.c:589-682 | with locals for fields and the jump into the one-byte case: emits a prefix of what was due, updates the CRC by it, fills the room or finishes the block; reports corruption only of corrupt blocks, and then leaves every field as it was |
| OutputStage.DState.EmitPlain | dep/bzip2/bzlib.c:536-585 | the loop of the small decoder, and of either decoder on a randomised block: emits a prefix of what was due, updates the CRC by it, and fills the room or finishes the block; corruption is found only of corrupt blocks, with everything due delivered |
| OutputStage.DState.Emit | dep/bzip2/bzlib.c:820-822 | either decoder emits a prefix of what was due and fills the room or finishes the block; what each has done when it finds corruption |
| OutputStage.DState.Deliver | dep/bzip2/bzlib.c:817-840 | for any sequence of output sizes both decoders deliver the same pieces: the data due, cut at those sizes |
| OutputStage.DState.StartRunFast | dep/bzip2/bzlib.c:640-660 | in the fast decoder, the next run starts with the byte and length the block prescribes |
| OutputStage.DState.StartRunPlain | dep/bzip2/bzlib.c:563-585 | there the next run starts with the byte and length the block prescribes, its mask taken off |
| OutputStage.DState.GetFast | dep/bzip2/bzlib_private.h:451-456 | the next byte and position of the walk; the range test never fires |
| OutputStage.DState.GetSmall | dep/bzip2/bzlib_private.h:475-479 | by search and reversed links, the next byte and position of the same walk; the range test never fires |
| OutputStage.DState.Get | dep/bzip2/bzlib.c:565-566 | the next byte of the walk, with its lowest bit flipped where the mask of a randomised block says so |
| OutputStage.DState.UpdateMask | dep/bzip2/bzlib_private.h:143-149 | the counters move to the next byte |
| OutputStage.DState.Start | dep/bzip2/decompress.c:545-575 | the first byte of the block is got, masked or not |
| Randomise.FlipsInSpan | dep/bzip2/bzlib_private.h:137-149 | the block falls into stretches of the 512 lengths in the table, over and over, and exactly the last byte but one of each is flipped |
| Randomise.UnmaskedTwice | dep/bzip2/bzlib_private.h:141 | masking twice restores a block |
| OutputStage.DState.constructor | dep/bzip2/decompress.c:518-576 | a fresh reader has fetched one byte of the block and owes all of it |
| OutputStage.FreshReaderOwesBlock | dep/bzip2/decompress.c:545-575 | what a fresh reader owes is the run-length decoding of the inverse transform, unmasked if the block was randomised; it is clean iff that decoding exists, and otherwise it owes the runs as far as they go, the last count read beyond the end |
| OutputStage.ReversedAt | dep/bzip2/bzlib_private.h:472-479 | along the walk the reversed links give the next position |
| BlockReader.Reader.constructor | dep/bzip2/bzlib.c:492-528 | a new reader stands for the machine before the first magic byte |
| BlockReader.Reader.Arm | dep/bzip2/decompress.c:195-608 | one visit to any label: if locals and fields stand for a machine state that asks for bits, then after the arm they stand for the next state, for every label and all the bits that may arrive |
| BlockReader.Reader.Family | dep/bzip2/decompress.c:195-608 | the label alone says which locals and fields are live |
| BlockReader.Reader.WantedIsNeed | dep/bzip2/decompress.c:43-71 | the GET_BITS at every label asks for as many bits as the machine needs |
| BlockReader.Reader.Save | dep/bzip2/decompress.c:613-640 | saving the locals is enough: what they and the fields stand for is what the save area and the fields stand for |
| BlockReader.Reader.MagicArm | dep/bzip2/decompress.c:197-204 | the three bytes of the stream magic |
| BlockReader.Reader.LevelArm | dep/bzip2/decompress.c:206-220 | the announced size, and arrays for it |
| BlockReader.Reader.BlockMagicArm | dep/bzip2/decompress.c:222-240 | block magic, end magic, or a data error |
| BlockReader.Reader.CrcArm | dep/bzip2/decompress.c:241-249 | the block checksum, byte by byte |
| BlockReader.Reader.RandomisedArm | dep/bzip2/decompress.c:251-253 | the randomised bit |
| BlockReader.Reader.OrigPtrArm | dep/bzip2/decompress.c:254-264 | the row of rotation 0, and its first check |
| BlockReader.Reader.MapArm1 | dep/bzip2/decompress.c:266-276 | the rows in use; after the sixteenth, the first row used is entered |
| BlockReader.Reader.MapArm2 | dep/bzip2/decompress.c:276-280 | the bytes of a row; after its last, the next row used is entered |
| BlockReader.Reader.EnterNextRow | dep/bzip2/decompress.c:276-284 | unused rows leave their bytes clear; after the last row the map is complete |
| BlockReader.Reader.FindRow | dep/bzip2/decompress.c:276-277 | the loop over the rows finds the next one in use |
| BlockReader.Reader.GroupsArm | dep/bzip2/decompress.c:287-288 | the number of tables, 2 to 6 |
| BlockReader.Reader.CountArm | dep/bzip2/decompress.c:289-290 | the number of selectors, at least 1 |
| BlockReader.Reader.RankArm | dep/bzip2/decompress.c:291-300 | one bit of a rank in unary, stored when it is complete |
| BlockReader.Reader.LastRank | dep/bzip2/decompress.c:302-314 | the move-to-front of all selectors undone |
| BlockReader.Reader.FirstLengthArm | dep/bzip2/decompress.c:316-321 | the first length of a table |
| BlockReader.Reader.LengthArm | dep/bzip2/decompress.c:319-328 | a length is complete, or a step is asked for |
| BlockReader.Reader.StepArm | dep/bzip2/decompress.c:320-325 | one step of a length, up or down, within 1 to 20 |
| BlockReader.Reader.NextTable | dep/bzip2/decompress.c:317-356 | after the last length of a table, the next table, or the decoding tables and the first symbol |
| BlockReader.Reader.PrepareTables | dep/bzip2/decompress.c:331-347 | every table is looked up as the machine looks it up |
| BlockReader.Reader.StartSymbols | dep/bzip2/decompress.c:351-372 | the locals, counts and list the symbols start with |
| BlockReader.Reader.BeginGet | dep/bzip2/decompress.c:74-89 | GET_MTF_VAL up to its first GET_BITS, entering a new group every fifty symbols |
| BlockReader.Reader.EnterGroup | dep/bzip2/decompress.c:76-88 | the table and shortest code of the group in force, or a data error when the selectors are used up |
| BlockReader.Reader.TryArm | dep/bzip2/decompress.c:90-102 | one more bit, or the symbol the code stands for, or a data error |
| BlockReader.Reader.FindSymbol | dep/bzip2/decompress.c:98-101 | within the limit, base and perm give a symbol of the alphabet |
| BlockReader.Reader.GotArm | dep/bzip2/decompress.c:375-401 | a symbol extends the run, ends it, or is dealt with at the top of the loop, by the label it was read under |
| BlockReader.Reader.TopOfLoop | dep/bzip2/decompress.c:375-425 | end of block, a digit, or a byte |
| BlockReader.Reader.DigitArm | dep/bzip2/decompress.c:381-394 | one digit of a run, with the guard on N |
| BlockReader.Reader.RunArm | dep/bzip2/decompress.c:396-417 | a finished run is counted and written out, or a data error when the block has no room for it |
| BlockReader.Reader.FillRun | dep/bzip2/decompress.c:401-415 | the run is written in full exactly when the block has room for it |
| BlockReader.Reader.ByteArm | dep/bzip2/decompress.c:419-486 | one byte: moved to the front, counted and stored |
| BlockReader.Reader.TakeEntry | dep/bzip2/decompress.c:423-481 | the two-level list does what the machine does to a plain list |
| BlockReader.Reader.EndBlock | dep/bzip2/decompress.c:488-522 | the checks on origPtr and on the counts, and cftab summed up |
| BlockReader.Reader.CheckCounts | dep/bzip2/decompress.c:495-516 | the checks on unzftab and cftab fail exactly when some sum exceeds nblock; the last one never fails |
| BlockReader.Reader.NextBlock | dep/bzip2/bzlib.c:836 | a delivered block makes way for the next block header |
| BlockReader.SameLabel | dep/bzip2/decompress.c:195-608 | readers that stand for the same state ask for the same bits under the same label, or under one of the two labels that lead to the same code |
| BlockReader.SameSymbols | dep/bzip2/decompress.c:167-191 | readers that stand for the same state between symbols agree in every saved local that is live there, and in all bytes stored |
| DecoderInvariant.AlwaysSane | dep/bzip2/decompress.c:105-641 | in every reachable state level, origPtr, number of tables (2 to 6), number of groups and rank are in the ranges announced, the block stays within the announced size, no GET_BITS asks for more than 20 bits, and a block is delivered only with origPtr inside it |
| AcceptedStreams.AcceptedIsFramed | dep/bzip2/decompress.c:197-641 | any bits the decoder accepts to the end are BZh and a digit 1 to 9, then blocks, each behind 0x314159265359 and the checksum of the data delivered for it, then 0x177245385090 and the combined checksum of all blocks, in the order delivered |
| AcceptedStreams.HeaderChecked | dep/bzip2/decompress.c:197-209 | of 32 bits and more, the magic error is reported iff they do not begin with BZh and a digit 1 to 9, whatever follows |
| AcceptedStreams.HeadRead | dep/bzip2/decompress.c:222-240 | where a block may begin, only the block magic and a checksum, or the trailer magic and a checksum, are read on |
| AcceptedStreams.BodyRead | dep/bzip2/decompress.c:247-641 | until a block is delivered, its level, checksum and randomised bit stay those of its head, and what is read is a prefix of the bits |
| AcceptedStreams.NextAccepted | dep/bzip2/bzlib.c:819-852 | an accepted stream goes on with a block whose checksum is right, or ends with the right combined checksum |
| AcceptedStreams.NoMagicError | dep/bzip2/decompress.c:205-641 | past the header no magic error is reported |
| DecoderBounds.AlwaysBounded | dep/bzip2/decompress.c:105-641 | on every input, valid or not: ranks, groups, lists and tables index within what was read, N and es stay far below 2^31 and zvec below 2^zn, and the machine never meets a table entry that was not filled in; selectors are bounded by their 15-bit count only |
| SelectorStores.InBoundsIffCounted | dep/bzip2/decompress.c:289-314 | whatever follows, every selector of a block is stored inside its array of 18002 bytes iff the count read at BZ_X_SELECTOR_2 is at most 18002 |
| SelectorStores.StoreBelowCount | dep/bzip2/decompress.c:291-300 | no selector is stored at or beyond the count announced |
| SelectorStores.OverlongStores | dep/bzip2/decompress.c:289-300 | a stream of one header, one byte in use, two tables and a count of 18003 makes the decoder store selector number 18002, one beyond the array |
| DecoderBounds.EntryIsFilled | dep/bzip2/decompress.c:93-101 | a value within the limit for its length finds an entry of perm that a symbol filled, for any lengths at all, so the upper range check is dead |
| DecoderBounds.TryBounded | dep/bzip2/decompress.c:74-102 | from a bounded state every symbol found is in the alphabet and leads to a bounded state |
| DecoderBounds.DigitBounded | dep/bzip2/decompress.c:384-394 | the guard on N keeps es from overflowing |
| DecoderBounds.ByteBounded | dep/bzip2/decompress.c:419-486 | every rank read is an index into the listed part of the move-to-front list, whose values all have a byte |
| WholeStream.NeverUndefined | dep/bzip2/bzlib.c:808-858 | decoding any bits whatever never depends on a table entry that was not filled in |
| Histogram.AlwaysCounted | dep/bzip2/decompress.c:375-486 | in every reachable state unzftab is the histogram of the bytes stored |
| Histogram.FinishChecksOrigPtr | dep/bzip2/decompress.c:488-516 | of the checks before output only the one on origPtr can fail |
| Histogram.CftabCounts | dep/bzip2/decompress.c:500-503 | cftab counts the bytes below each value |
| Histogram.HistInRange | dep/bzip2/decompress.c:495-499 | no count exceeds nblock |
| DecoderLoops.MakeMapsD | dep/bzip2/decompress.c:25-36 | the used bytes in order |
| DecoderLoops.UndoSelectors | dep/bzip2/decompress.c:302-314 | the selectors the ranks stand for |
| DecoderLoops.Front1 | dep/bzip2/decompress.c:308-311 | the entry at the rank, moved to the front |
| DecoderLoops.PrepareTable | dep/bzip2/decompress.c:331-347 | the arrays built from the lengths agree with the machine's limit, base and perm wherever it looks |
| DecoderLoops.TablesAgree | dep/bzip2/huffman.c:170-200 | the tables built by the source and the ones the machine reads are the same on all lengths up to 20 |
| DecodeImage.ReadStreamHeader | dep/bzip2/decompress.c:197-209 | the header written is read back to its level |
| DecodeImage.ReadBlockHead | dep/bzip2/decompress.c:222-264 | magic, CRC, randomised bit and origPtr are read back |
| DecodeImage.ReadMap | dep/bzip2/decompress.c:266-284 | the two-level map of used bytes is read back |
| DecodeImage.ReadSelectors | dep/bzip2/decompress.c:286-314 | the unary ranks are read back and undone to the selectors |
| DecodeImage.UnrankRanks | dep/bzip2/decompress.c:302-314 | undoing the ranks of any selectors restores them |
| DecodeImage.ReadTable | dep/bzip2/decompress.c:318-328 | delta-coded lengths are read back |
| DecodeImage.ReadTables | dep/bzip2/decompress.c:316-329 | all tables are read back |
| DecodeImage.ReadTrailer | dep/bzip2/decompress.c:582-606 | the trailer ends the stream with the combined CRC written |
| DecodeSymbols.ReadCode | dep/bzip2/decompress.c:74-102 | reading bit by bit stops at exactly the end of a code and finds its symbol |
| DecodeSymbols.ReadSymbol | dep/bzip2/decompress.c:74-102 | every symbol of a coding is read back, across group changes, with the table its group selects |
| DecodeSymbols.ReadRun | dep/bzip2/decompress.c:379-417 | the digits of a run store that many copies of the front byte, the guard on N never firing |
| DecodeSymbols.ReadColumn | dep/bzip2/decompress.c:375-486 | the symbols of any column store that column |
| StreamRoundTrip.ReadBody | dep/bzip2/decompress.c:266-516 | map, selectors, tables and symbols of a good coding lead to the last column they encode |
| StreamRoundTrip.ReadBlock | dep/bzip2/decompress.c:222-578 | the image of a good block leads to output of that block |
| StreamRoundTrip.DeliveredWell | dep/bzip2/bzlib.c:819-836 | output of a good block delivers its data and finds the stored CRC right |
| StreamRoundTrip.DeliveredMasked | dep/bzip2/bzlib.c:536-585 | a block masked before it was sorted, with the randomised bit set, delivers its data as well |
| StreamRoundTrip.DecodeBlocks | dep/bzip2/bzlib.c:817-853 | any number of block images decode to their data in order, the combined CRC running along |
| StreamRoundTrip.DecodeTrailer | dep/bzip2/bzlib.c:841-850 | a trailer with the combined CRC ends the stream, whatever padding follows |
| StreamRoundTrip.StreamDecodes | dep/bzip2/bzlib.c:808-858 | every stream of good blocks decodes to all their data and ends well |
| StreamRoundTrip.CombineAllIsFrom | dep/bzip2/compress.c:607-608 | the combined CRC kept by the compressor is the one the decompressor computes |
| Decompressor.Decoder.BzDecompress | dep/bzip2/bzlib.c:808-858 | for every continuation of the input: what this call emits and what is still to come is what was to come before; it stops only when room or input is out; the end or an error is reported exactly as the stream has it, with a prefix of the data delivered, and all of it but in the one case of the fast decoder and an overrun block |
| Decompressor.Decoder.Decompress | dep/bzip2/decompress.c:105-641 | locals restored, run and saved: reservoir and unread bytes advance the state that the fields stand for exactly as their bits do, it suspends only when input is out and too few bits are left, and the save area and the fields then stand for where it stopped |
| Decompressor.Decoder.DecompressPieces | dep/bzip2/decompress.c:105-641 | input in any pieces, one call each: the fields and the save area stand for the state, and the reservoir holds the bits left, that all of the input at once leads to |
| Decompressor.Decoder.Take | dep/bzip2/decompress.c:46-53 | taking n bits from the reservoir is reading n bits, and the code up to the next GET_BITS is one step |
| Decompressor.Decoder.Fetch | dep/bzip2/decompress.c:54-64 | shifting a byte in, modulo 2^32, moves its bits from input to reservoir |
| Decompressor.Decoder.Prepare | dep/bzip2/decompress.c:488-578 | building the output tables keeps what is to come |
| Decompressor.Decoder.OutputVisit | dep/bzip2/bzlib.c:819-839 | emitting keeps emitted plus to-come; a finished block's checksum is compared before the next begins; on an error what was emitted is a prefix of the data due |
| Decompressor.Decoder.EmitVisit | dep/bzip2/bzlib.c:819-824 | what there is room for is emitted, and emitted plus to-come stays the same |
| Decompressor.Decoder.FinishVisit | dep/bzip2/bzlib.c:825-836 | a wrong checksum is an error of the stream; a right one joins the combined checksum and leads to the next block |
| Decompressor.Decoder.EndVisit | dep/bzip2/bzlib.c:842-851 | the end is reported iff the combined checksum is right, and any other stop is the error the stream has |
| Decompressor.Decoder.InputVisit | dep/bzip2/bzlib.c:841-852 | reading keeps what is to come |
| Decompressor.Decoder.constructor | dep/bzip2/bzlib.c:492-528 | a new decoder stands before the first magic byte with an empty reservoir |
| Decompressor.NewStage | dep/bzip2/decompress.c:524-576 | from the bytes read and their counts, in the arrays they were read into, either decoder builds its tables and the reader is fresh |
| Decompressor.SumsAreCounts | dep/bzip2/decompress.c:501-503 | the sums of the counts of a block count its bytes below each value |
| Decompressor.ShiftIn | dep/bzip2/decompress.c:55-59 | a byte shifted in is appended to the live bits, though older bits fall off the word |
| Decompressor.TakeTop | dep/bzip2/decompress.c:46-50 | shift and mask give the first n live bits |
| Decompressor.FreshOutlook | dep/bzip2/bzlib.c:824-836 | what a fresh reader and the rest of the input will deliver is what decoding from that block delivers |
| Decompressor.UncleanOutlook | dep/bzip2/bzlib.c:632-634 | a block whose runs overrun its end is an error whenever it is discovered, with all its runs due before |
| Adler32.Checksum | dep/zlib/adler32.c:65-133 | the checksum equals the two-sum definition modulo 65521 for every buffer and start iff it is not a single byte whose upper sum needs a second subtraction, which no reduced start value leads to |
| Adler32.Long | dep/zlib/adler32.c:104-132 | sixteen bytes or more, in blocks of NMAX |
| Adler32.Short | dep/zlib/adler32.c:92-102 | fewer than sixteen bytes, with one subtraction and the short reduction |
| Adler32.OneByte | dep/zlib/adler32.c:77-86 | a single byte; the upper sum is reduced iff it was below twice the modulus |
| Adler32.OneByteUnreduced | dep/zlib/adler32.c:77-86 | halves 65520 and 65535 and one zero byte: the result is not the checksum |
| Adler32.WholeBlock | dep/zlib/adler32.c:105-114 | NMAX bytes without an intermediate above 32 bits |
| Adler32.BlockFits | dep/zlib/adler32.c:15-16 | no sum over NMAX bytes exceeds 32 bits, from any 16-bit halves; below sixteen bytes one subtraction suffices |
| Adler32.NmaxIsExact | dep/zlib/adler32.c:15-16 | NMAX is the largest block length for which that holds |
| Adler32.SumsBounded | dep/zlib/adler32.c:16 | the bound behind NMAX, for every buffer |
| Adler32.WorstCase | dep/zlib/adler32.c:16 | bytes of 255 reach it |
| Adler32.Chop | dep/zlib/adler32.c:29-34 | keeps the residue and shrinks the value |
| Adler32.Mod28 | dep/zlib/adler32.c:35-39 | equals % BASE below 2^28 |
| Adler32.Mod | dep/zlib/adler32.c:40-44 | equals % BASE on 32 bits |
| Adler32.Fold | dep/zlib/adler32.c:47-49 | folding 63 bits at 32 keeps the residue |
| Adler32.Mod63 | dep/zlib/adler32.c:45-57 | equals % BASE on 63 bits |
| Adler32.Combine | dep/zlib/adler32.c:136-162 | for any two values: 0xffffffff for a negative length, and otherwise the combination formula modulo 65521 iff the two sums formed stay below three and four times the modulus |
| Adler32.CombineHalves | dep/zlib/adler32.c:149-160 | for any 16-bit halves no intermediate overflows and the residues are right; each sum is reduced iff it was below the multiple of the modulus that its subtractions take off |
| Adler32.TotalsReduced | dep/zlib/adler32.c:153-160 | reduced checksums never form sums that need more |
| Adler32.CombineUnreduced | dep/zlib/adler32.c:136-162 | low halves of 65535 on both sides: the result is not the formula |
| Adler32.CombineIsWhole | dep/zlib/adler32.c:136-162 | the combination formula on the checksums of two parts is the checksum of the whole |
| Adler32.InTwoParts | dep/zlib/adler32.c:165-171 | checksum, checksum, combine: the checksum of the concatenation |
| Adler32.Concat | dep/zlib/adler32.c:65-133 | summing a concatenation is summing its second part from the first's sums |
| Adler32.KnownSum | dep/zlib/adler32.c:67-134 | the checksum of abc from 1 is 0x024d0127 |
| Crc32.AnyPath | dep/zlib/crc32.c:204-236 | with the tables as built, every path (bytewise, little-endian, big-endian) and every alignment gives the bit-serial checksum |
| Crc32.Crc32Bytewise | dep/zlib/crc32.c:227-235 | eight bytes at a time and then one gives the bit-serial checksum |
| Crc32.Crc32Little | dep/zlib/crc32.c:247-278 | four bytes at a time on a little-endian word, from any alignment, gives the bit-serial checksum |
| Crc32.Crc32Big | dep/zlib/crc32.c:287-320 | four bytes at a time on a byte-swapped register, from any alignment, gives the bit-serial checksum |
| Crc32.ByteAtOnce | dep/zlib/crc32.c:200 | feeding eight bits one by one is eight steps from the register xored with the byte |
| Crc32.TableStep | dep/zlib/crc32.c:200 | eight register steps are the entry of the low byte xored with the register shifted by a byte |
| Crc32.SliceIsZeros | dep/zlib/crc32.c:241-243 | four table entries xored are 32 register steps |
| Crc32.WordAtOnce | dep/zlib/crc32.c:241-243 | 32 steps from the register xored with a word are its four bytes fed bit by bit, low byte first |
| Crc32.SliceSwappedIsZeros | dep/zlib/crc32.c:281-283 | four entries of the swapped tables xored are 32 steps of the swapped register |
| Crc32.NextSwappedIsNext | dep/zlib/crc32.c:298 | one byte on the swapped register is one byte on the plain one |
| Crc32.FirstTable | dep/zlib/crc32.c:110-116 | each entry is the register after eight steps from its index |
| Crc32.FirstEntry | dep/zlib/crc32.c:112-115 | the loop for one entry |
| Crc32.MoreTables | dep/zlib/crc32.c:118-129 | the other tables hold two, three and four bytes' steps and the byte reversals of all four |
| Crc32.Polynomial | dep/zlib/crc32.c:105-108 | the listed exponents give 0xedb88320 |
| Crc32.ZerosLinear | dep/zlib/crc32.c:76-82 | feeding zeros is linear over GF(2) |
| Crc32.RegisterConcat | dep/zlib/crc32.c:204-236 | the register after a concatenation is the second part fed from the first's register |
| Crc32Laws.Residue | dep/zlib/crc32.c:204-236 | a message followed by its own checksum, low byte first, has the checksum 0x2144df1c, for every message and every starting value |
| Crc32Laws.KnownChecksums | dep/zlib/crc32.c:227-235 | from 0: nothing gives 0, the byte 0 gives 0xd202ef8d, the letter a gives 0xe8b7be43 |
| Crc32Laws.ZeroRunsTold | dep/zlib/crc32.c:227-235 | one zero byte more changes the checksum of a run of zeros, at every length, iff the starting value is not 0xffffffff, where the register starts as zero |
| Crc32Laws.BurstDetected | dep/zlib/crc32.c:204-236 | two messages that differ only within four bytes in a row have different checksums |
| Crc32Laws.RegisterWord | dep/zlib/crc32.c:241-243 | four more bytes are 32 register steps with their word mixed in |
| Crc32Combine.Crc32Combine | dep/zlib/crc32.c:355-408 | square and multiply over alternating matrices feeds exactly 8 * len2 zero bits to crc1 and adds crc2; a length of zero or less returns crc1 |
| Crc32Combine.CombineIsWhole | dep/zlib/crc32.c:355-408 | zeros fed to the first part's checksum, xored with the second's, are the checksum of the whole, whatever value the first started from |
| Crc32Combine.InTwoParts | dep/zlib/crc32.c:411-417 | checksum, checksum, combine: the checksum of the concatenation |
| Crc32Combine.Turn | dep/zlib/crc32.c:385-403 | one turn: squares the operator, applies it for a set bit, and leaves the remaining work equal |
| Crc32Combine.TimesIsZeros | dep/zlib/crc32.c:327-341 | a matrix whose columns feed n zeros to unit vectors feeds n zeros to every vector |
| Crc32Combine.MatrixTimes | dep/zlib/crc32.c:327-341 | the product by xoring columns |
| Crc32Combine.MatrixSquare | dep/zlib/crc32.c:344-352 | the square of the operator for n zeros is the operator for 2n |
| Crc32Combine.OneBitOperator | dep/zlib/crc32.c:369-375 | the starting matrix feeds one zero bit |
| Crc32Combine.RegisterSplit | dep/zlib/crc32.c:383-407 | feeding bytes to a xor of registers splits into zeros fed to one and the bytes to the other |

## Left out

- MainSort.MainQSort3: keeps its three parallel stacks as one sequence of triples.
- BigBuckets.CountPairs: the loop unrolled four times in the source is a plain loop over the same positions in the same order.
- BigBuckets.PlacePairs: unrolled in the source, a plain loop here, in the same way.
- CodeLengths.MakeCodeLengths: stated for a maximum length of at least 12 (the source passes 17) and total frequency below 2^23 (a block has at most 900001 symbols).
- BlockReader.Reader.Arm: the pointers gLimit, gBase and gPerm are the table number gSel; zt and zj, which are not live across a suspension, are left out of the save area. The two selector arrays are sequences that grow: what a store beyond the fixed size of the source destroys is not modelled, only when there is one (`SelectorStores`).
- BlockReader.Reader.LevelArm: arrays are allocated anew when the stream announces its block size, and allocation does not fail.
- Decompressor.Decoder.BzDecompress: a call after an error, which the source leaves to chance, is answered with the sequence error. When the fast decoder finds that the runs of a block overrun its end it returns without accounting for the bytes of that call; what it has written by then is not modelled.
- BitWriter.BitStream.W: bsBuff is a natural number with its 32-bit wrap-around written out; the shift amounts are the source's.
- GenerateMtf.GenerateMTFValues: the order array has exactly nblock 32-bit words, each read as two 16-bit cells; the source's array is larger. Arrays of one block are allocated anew where the source reuses arr1 and arr2, whose sharing is covered by `GenerateMtf` and `Capacity`.
- Crc32.Crc32Big: as for Crc32.Crc32Little.
- Crc32.Crc32Little: the address is a number of which only the remainder by four matters, and the unrolled loops of 32 bytes are loops of eight words.
- CodeLengths.BestWithin: which of several equally good codes is found, when weights tie, is not stated.
- OutputStage.DState.EmitPlain: the source writes the loop three times, for the small decoder and for either decoder on a randomised block; it is one loop here, around the get that differs.
- The whole-stream results hold for any table of 256 checksum words; `BlockCrcLaws` says what the literal one computes.
- Null buffers, null streams and invalid parameters of the init calls (`dep/bzip2/bzlib.c:157-162`, `dep/zlib/crc32.c:209`, `dep/zlib/adler32.c:88-90`).
- Allocation, out-of-memory returns, the 64-bit byte counters, verbosity output and configuration checks.
- The stdio layer of bzip2 (`BZ2_bzRead`, `BZ2_bzWrite` and the functions around them).
- zlib's deflate and inflate and its file wrappers: outside this model, which takes only the checksums from `dep/zlib`.
- The generated SOAP code, the SFMT generator and the remaining vendored headers.

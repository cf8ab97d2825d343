# Verified models of the codec and the protocol code

Two parts of the client are modelled here and proved correct in Dafny: the bundled bzip2 codec, which packs and unpacks
file lists, and five components of the client proper (search in file lists, the socket buffer with its framing, ADC
commands, the grouping of search extensions, Base32). `dafny verify dfyconfig.toml` checks everything.

Loops over arrays are methods over arrays, objects with state are classes, and every such method is proved against a
function or relation that says what the result means. C integers are unbounded integers; where a bound is the point
(the 32-bit bit buffers, the 8-bit depth in a packed weight, the 20-bit cells of the SMALL decoder, 16-bit quadrants,
selector and symbol counts) it is stated and proved.

## How the parts fit

- Block sorting: `Rotations`, `Counting`, `Permutations` and `Segments` hold the mathematics; `FallbackQSort`,
  `Buckets` and `FallbackSort` the doubling sort; `MainCompare`, `MainQSort`, `TwoByteSort`, `CopyPhase` and
  `MainSort` the bucket sort; `BlockSort` chooses. `Bwt` is the transform and its inverse, `InverseBwt` the two
  decoders' vectors, `FastSmall` the two decoders side by side.
- Move-to-front: `Mtf` says what the symbols mean, `MtfTable` is the two-level table, `MtfEncode` and `MtfDecode` the
  loops.
- Huffman: `HuffmanHeap`, `HuffmanTree` and `HuffmanLengths` build the lengths, which `HuffmanOptimal` shows to be the
  best, `Canonical` the codes and decoding tables, `Bits` and `BitIo` the bit streams.
- Blocks: `CodingTables` and `SendBlock` write, `DecodeMachine` is BZ2_decompress as a machine that can stop at any
  read, `BlockFormat`, `SymbolFormat` and `BlockRoundTrip` run it over what was written, `CompressBlock` joins the
  encoder.
- Streams: `Rle`, `Blocks` (where the input is cut into blocks), `Compressor`, `CompressCalls`, `EncodeStream`,
  `EncoderTrace` and `CompressStream` are the compressor, `TwoCompressions` compares two sessions of it; `Unpack`,
  `StreamMeaning` and `Decompressor` are the decompressor, `StreamRoundTrip` and `EndToEnd` join them. `FileFormat` and
  `OneByteBlock` spell out the magic numbers, the file of no data and the block of one byte.
- Client: `DirectoryTree`, `DirectoryCursor` and `DirectoryMatch`; `SocketBuffer`, `Framing`, `Cuts` and `Receiving`;
  `ExtGroups`, `ExtQuery` and `ExtTables`; `AdcText`, `AdcCommand` and `AdcRoundTrip`; `Base32`.

The headline result is `EndToEnd.RoundTrip`: any bytes, any calls on either side, any cuts. It rests on every stage
above, each with its own round trip or refinement.

## Findings

Where the code does not do what one would expect, the code is modelled as it is, a concrete case is given, and the exact
condition is proved.

- A comment in bzip2/blocksort.c:1056-1062 says that the compressed stream is the same whichever sort ran. That both
  sorts give sorted orders settles it for the last column (`Bwt.LastColumnUnique`), and for origPtr exactly when the
  block equals none of its other rotations (`BlockSort.OrigPtrUnique`): other blocks, such as two equal bytes, have
  sorted orders with different rows (`BlockSort.TwoOrders`). Whether the two sorts ever do differ on such a block is
  left open.
- The blocks, and so the compressed bytes, depend on more than the data and the places where it is flushed. A block that a
  RUN call fills is compressed at once, and the run still in the run buffer starts the next one; when the last byte before
  the end of a FLUSH or FINISH fills it, flush_RL first adds that run to the same block (bzip2/bzlib.c:383-396). So with
  the same data flushed at the same places the blocks are the same if and only if no such byte is taken by the flush
  itself in one session and before it in the other (`TwoCompressions.Compressions`, `Blocks.SameBlocks`;
  `Blocks.TurnsDiffer` is a case for every block size). How RUN calls and space are cut makes no other difference.
- unRLE_obuf_to_output_FAST returns on corrupt data without saving its place (bzip2/bzlib.c:589-681), so for a block
  that ends in the middle of a run the bytes delivered depend on how the output space is cut. It happens for those
  blocks and no others (`Unpack.CutsMatterWhenCorrupt`, with `Unpack.FourEqual` as a case); SMALL does not lose
  anything.
- SearchContext::next stops at a found file of the root directory itself (client/DirectoryListing.cpp:1409-1420). No
  item is cut off exactly when the root has no such file or nothing else is found (`DirectoryCursor.RootFilesStop`;
  `DirectoryCursor.TwoRootFiles` is a case). Likewise prev never reaches a file of the root.
- A read of BufferedSocket asks for no bytes, which looks like a closed connection, when the largest buffer is full of
  one unfinished line that began in its lower half, or when the listener has asked for data of size 0. The buffer ends
  at 1 MiB (client/BufferedSocket.cpp:57) while the longest command allowed is 16 MiB by default
  (client/ConfCore.cpp:363), so whether a line of more than half a MiB arrives can depend on how the network cuts it.
  `Receiving.Receive` shows that the socket does what `Cuts.Run` says, `Cuts.SomeCutCloses` for which streams some cut
  is blocked, `Cuts.SomeCutDelivers` for which some cut gets through, `Cuts.CutDecides` has one stream for both, and
  `Cuts.LimitsDecide` says which limits are safe: those whose longest line stays below half the buffer.
- AdcSearchParam::hasExt takes RX out with set_difference, which needs sorted lists, but the list holds one group
  table behind the other (client/ShareManager.cpp:2616-2629). A search for all audio extensions but mp3 and all video
  extensions but 3gp finds mp3 files (`ExtTables.AudioAndVideo`). A search is read right exactly when every RX is
  greater than all that is listed between the RX before it and itself (`ExtQuery.GroupedRight`), so always with one
  group (`ExtQuery.OneGroupInTurn`); nothing asked for is ever lost.
- AdcCommand::escape in its older form leaves a newline behind the backslash, which parse refuses: a command in the
  $ADC form comes back exactly when no parameter has a newline (`AdcRoundTrip.NmdcPrintedParses`). An empty last
  parameter is dropped by parse in every form, and an F command with no features and no parameters does not parse
  (`AdcRoundTrip.PrintedParses`; `AdcRoundTrip.DoNotComeBack` has a case of each). parse reports
  PARSE_ERROR_ESCAPE_AT_EOL for an unknown escape too; the status of its own in client/AdcCommand.h:82 is never
  returned.

## Model

| member | source | states |
|---|---|---|
| `EndToEnd.RoundTrip` | bzip2/bzlib.c:407-853 | The two sessions together: every call of the compressor answers as it should (AllMove) and every call of the decompressor tells the truth (History); once the compressor has said that the stream has ended, what has come out is always a prefix of the bytes taken, the only final reply is the end of the stream, and then all of them are out; fed everything, the decompressor asks to be called again only with its last room filled |
| `EndToEnd.EndReached` | bzip2/bzlib.c:808-853 | Fed all of the compressed bytes, with room for one byte more than there is, the decompressor reports the end of the stream, and all bytes are out |
| `CompressStream.Session` | bzip2/bzlib.c:148-464 | Whatever the calls, the bytes taken are a prefix of the data in order and every call answers as Compress says from where the one before left off; at any time the blocks made and what is being gathered are those of the bytes taken, flushed where the calls have flushed; once the stream has ended nothing more is taken or given, undoing the run-length coding of the blocks gives the bytes taken, and the bytes given out are a file of exactly those bytes: header, blocks, trailer and padding |
| `TwoCompressions.Compression` | bzip2/bzlib.c:289-464 | Once a session has ended its blocks are AllChunks of the bytes taken, cut at the flushes of its calls; when no call has flushed, every block but the last has nblockMAX bytes or more |
| `TwoCompressions.Compressions` | bzip2/bzlib.c:289-464 | Two sessions over the same data, whatever their calls and space, that have ended and flushed at the same places: they make the same blocks if and only if, wherever just one of two flushes has itself taken some bytes, the last byte before it does not fill a block; the same blocks come out as the same bytes when BZ2_compressBlock makes the same of the same |
| `Blocks.SameBlocks` | bzip2/bzlib.c:289-398 | The same bytes between the same flushes make the same blocks if and only if, wherever a flush took the last byte itself on one side only, that byte does not fill a block; otherwise the contents of some block differ |
| `Blocks.TurnsDiffer` | bzip2/bzlib.c:289-398 | Two bytes in turn, one more of them than a block holds, make a full block and a block of one byte when a RUN call takes them and a single block when the FINISH call does |
| `Blocks.OnlyLastShort` | bzip2/bzlib.c:363-398 | Without a flush every block but the last is full, and only the last is marked as the last |
| `CompressCalls.EndedThere` | bzip2/bzlib.c:407-464 | If the stream has ended, the last flush place is where the data taken ends, and nothing is taken after it; otherwise no place is the last |
| `EncoderTrace.SameBytes` | bzip2/compress.c:602-668 | Calls of BZ2_compressBlock for the same blocks, each going on where the one before stopped, are the same calls with the same bytes when equal arguments give equal results |
| `CompressStream.Compress` | bzip2/bzlib.c:407-464 | The return code and the next mode for every mode, action and amount of input: BZ_FLUSH_OK and BZ_FINISH_OK only with the space filled, BZ_RUN_OK for RUN exactly with progress and with the input used up or the space filled, BZ_STREAM_END only with all input taken, in finished blocks and every byte made given out, the same after a completed flush; a call that does not fit changes nothing |
| `CompressStream.HandleCompress` | bzip2/bzlib.c:361-403 | The loop ends; progress is reported exactly when something was taken or given; it stops with the space filled, or in a run with no input left, or in a flush or finish with all promised input in finished blocks and the run buffer empty; a block is made only when it is full, or once for the flush or finish when all promised input is in it, and what it holds is what has been taken since the block before |
| `CompressStream.Encode` | bzip2/compress.c:602-668 | BZ2_compressBlock keeps: all bytes made so far are the header and the blocks so far, and after the last call they are a whole stream that decodes to all input |
| `EncodeStream.EncodeChunk` | bzip2/compress.c:602-656 | Header on the first call, a block only when there is one: bytes made plus the bits in the buffer are the header followed by blocks each of which any decoder reads back, and the combined CRC is the one over those blocks |
| `EncodeStream.EncodeLast` | bzip2/compress.c:656-668 | With trailer and flushed buffer the bytes made so far are a file of all blocks: header, blocks, end magic number, their combined CRC and fewer than eight zero bits |
| `StreamRoundTrip.StreamComesBack` | bzip2/decompress.c:197-613 | Header, any number of blocks and the trailer decode to the bytes of the blocks in order, ending well, whatever follows |
| `StreamRoundTrip.TrailerDecides` | bzip2/bzlib.c:828-848 | For any blocks with their right CRCs and any stored combined CRC: all bytes come out, and the stream ends well if and only if the stored value is the combination of the CRCs of the blocks; otherwise it is a data error |
| `StreamRoundTrip.WrongBlockRefused` | bzip2/bzlib.c:828-842 | A block that stores another CRC than that of its bytes is a data error once its bytes are out, whatever follows |
| `StreamRoundTrip.HeaderDecides` | bzip2/decompress.c:197-219 | Any four bytes at the start are accepted exactly if they are B, Z, h and a digit from 1 to 9 |
| `FileFormat.BlockMagicNumber` | bzip2/compress.c:630-635 | A block starts with the 48 bits of 0x314159265359 |
| `FileFormat.BlockStarts` | bzip2/decompress.c:222-237 | Whatever bits a decoder takes for a block start with the 48 bits of 0x314159265359 |
| `FileFormat.EndMagicNumber` | bzip2/compress.c:656-662 | The trailer starts with the 48 bits of 0x177245385090 |
| `FileFormat.NoDataFile` | bzip2/compress.c:622-668 | No data, in blocks of 900000 bytes, is compressed to fourteen bytes, which are given one by one |
| `FileFormat.NoDataWrongCrc` | bzip2/bzlib.c:843-848 | The same stream with another combined CRC is a data error |
| `OneByteBlock.BlockIs` | bzip2/compress.c:633-652 | The bits of the block of the one byte 97, spelled out from magic number to end of block |
| `OneByteBlock.StreamOfA` | bzip2/decompress.c:197-527 | Header, those bits with the CRC 0x19939b6b, and the trailer decode to the byte 97 and end well |
| `OneByteBlock.ColumnSpelled` | bzip2/compress.c:119-231 | A column of five front bytes and two others is RUNA, RUNB, 2, RUNA, end of block |
| `OneByteBlock.CodesSpelled` | bzip2/huffman.c:152-166 | Lengths 2, 1, 3, 3 get the codes 10, 0, 110, 111 |
| `CompressBlock.CompressBlock` | bzip2/compress.c:602-652 | Sort, move-to-front, table choice and coding of one block: every decoder that meets the bits written, whatever follows them, returns this block and this CRC after exactly those bits; and the bits are those of a sorted order of its rotations, with tables that four passes have made from two to six parts of the alphabet |
| `Decompressor.DState.Decompress` | bzip2/bzlib.c:808-853 | For one call: the reply and all that has come out are those of the bits fed so far, whatever comes later; BZ_OK only with the space filled or all input used up; an error exactly where the meaning of the stream is that error |
| `Decompressor.Session` | bzip2/bzlib.c:808-853 | Over any sequence of calls every reply tells the truth about the stream up to it, and what has come out is a prefix of what the stream means whatever comes later |
| `Decompressor.TwoSessions` | bzip2/bzlib.c:808-853 | Two sessions that cut one stream into calls in two ways, with the histories of both: if both come to an end they end with the same reply, and the same bytes unless the stream has a block that ends in the middle of a run |
| `DecodeMachine.RunResumes` | bzip2/decompress.c:43-65 | Stopping at any bit read and going on with more input is the same as never having stopped |
| `BlockRoundTrip.BlockComesBack` | bzip2/decompress.c:222-527 | The decoder machine reads the bits of a block back to the block, and uses exactly those bits |
| `BlockSort.Sort` | bzip2/blocksort.c:1031-1091 | For every non-empty block of at most 900000 bytes, with either algorithm: the rotations are sorted, the block is as before, origPtr is the row of rotation 0, and the inverse transform gives the block; any other sorted order gives the same last column, and the same origPtr when the block is not periodic |
| `BlockSort.OrigPtrUnique` | bzip2/blocksort.c:1056-1090 | Every sorted order has rotation 0 in the same row if and only if no other rotation equals the block |
| `BlockSort.TwoOrders` | bzip2/blocksort.c:1056-1090 | A block of two equal bytes has two sorted orders with rotation 0 in different rows |
| `MainSort.Sort` | bzip2/blocksort.c:751-1011 | If the budget lasts, ptr is a permutation that lists all rotations in order; the block is as before either way |
| `MainSort.UpdateQuadrants` | bzip2/blocksort.c:948-1002 | After a big bucket is finished the new quadrants again never put a greater rotation first, and the scaled numbers fit 16 bits |
| `MainSort.RenumberedQuadrants` | bzip2/blocksort.c:948-1002 | Numbering the rotations of a sorted big bucket, scaled, keeps the meaning of all quadrants |
| `MainSort.SortBig` | bzip2/blocksort.c:878-909 | Sorts and marks every small bucket of a big bucket that is not marked yet, leaving the other buckets as they are |
| `MainSort.CopyBig` | bzip2/blocksort.c:911-946 | Every small bucket [t, ss] of the big buckets not done yet gets its rotations in order |
| `CopyPhase.CopyBucket` | bzip2/blocksort.c:911-946 | The two scans fill each open small bucket [t, ss] completely and in order, and assertion 1007 holds: the scans meet, or the block is one byte over and over |
| `CopyPhase.MissingMeansOneByte` | bzip2/blocksort.c:935-946 | If a rotation is missing after both scans, the block consists of one byte |
| `MainCompare.GtU` | bzip2/blocksort.c:347-469 | True only for a rotation not smaller, false only for one not greater; every read is below nblock + BZ_N_OVERSHOOT; ends for equal rotations |
| `MainQSort.QSort3` | bzip2/blocksort.c:621-733 | Rearranges its range only, and if the budget lasts sorts it by whole rotations; the stack stays far below 100 entries (assertion 1001) |
| `MainQSort.SimpleSort` | bzip2/blocksort.c:485-557 | The shell sort rearranges its range and sorts it by whole rotations if the budget lasts |
| `TwoByteSort.RadixSort` | bzip2/blocksort.c:769-830 | ptr is the stable order of the first two bytes, ftab the start of each small bucket, the overshoot repeats the block and all quadrants are 0 |
| `TwoByteSort.RunningOrder` | bzip2/blocksort.c:832-860 | The order is a permutation of the 256 big buckets by size |
| `FallbackSort.Sort` | bzip2/blocksort.c:212-329 | Ends for every non-empty block; fmap lists all rotations in order; the block, which served as eclass, is restored |
| `FallbackSort.RoundDoubles` | bzip2/blocksort.c:259-313 | From order and buckets for the first H bytes one round makes order and buckets for the first 2H |
| `FallbackSort.Restore` | bzip2/blocksort.c:315-329 | The block is rebuilt from the order and the byte counts |
| `FallbackQSort.QSort3` | bzip2/blocksort.c:93-180 | Sorts its range by class; the stack never trips assertion 1004 because the larger part is pushed first |
| `FallbackQSort.SimpleSort` | bzip2/blocksort.c:32-58 | The insertion sort in steps of four and one sorts its range by class and touches nothing else |
| `Buckets.Round` | bzip2/blocksort.c:259-313 | One round splits every bucket by class and marks where the new ones start |
| `Partition.ThreeWay` | bzip2/blocksort.c:127-165 | Smaller, equal and larger values end up in three neighbouring ranges, with only its range rearranged |
| `Bwt.UnsortInvertsSort` | bzip2/decompress.c:565-579 | For any sorted order of the rotations, equal ones included, last column and origPtr give back the block |
| `Bwt.LastColumnUnique` | bzip2/compress.c:163-167 | Any two sorted orders give the same last column |
| `InverseBwt.BuildFast` | bzip2/decompress.c:565-579 | The upper 24 bits of the cells become the inverse of T, the low bytes stay |
| `InverseBwt.BuildT` | bzip2/decompress.c:530-541 | The 20-bit cells get T, each computed before its byte is overwritten |
| `InverseBwt.ReverseCycle` | bzip2/decompress.c:542-558 | The pointer reversal comes back to origPtr, and then every cell on its cycle holds the inverse of T |
| `InverseBwt.IndexIntoF` | bzip2/bzlib.c:687-698 | The binary search returns the first-column byte of the row |
| `InverseBwt.SmallCells.Set` | bzip2/bzlib_private.h:458-470 | A 20-bit value is stored and every other cell keeps its own |
| `FastSmall.UnsortBoth` | bzip2/decompress.c:530-582 | For every column and origPtr the FAST and the SMALL construction emit the same bytes |
| `FastSmall.FastAndSmall` | bzip2/bzlib.c:536-801 | A block through FAST and through SMALL in any calls: the same bytes for the same total room, and no complaint, unless the block ends in the middle of a run; then when exactly each complains |
| `Unpack.Fast` | bzip2/bzlib.c:589-681 | In one call as much of the block comes out as there is room for; corrupt exactly when the room reaches the end of a block that ends in the middle of a run, and then the place is not saved |
| `Unpack.Small` | bzip2/bzlib.c:761-801 | The same bytes; corrupt exactly when there is room beyond the end of such a block, with nothing lost |
| `Unpack.CutsMatterWhenCorrupt` | bzip2/bzlib.c:589-681 | What FAST delivers of a column depends on the total room alone if and only if the block does not end in the middle of a run; then it is as much as there is room for |
| `Unpack.FourEqual` | bzip2/bzlib.c:589-681 | The column of four equal bytes is a block for which it fails |
| `MtfTable.Table.Take` | bzip2/decompress.c:429-481 | The two-level table returns and moves to the front the byte that the plain list does, with its rows apart and inside the array |
| `MtfTable.Table.Repack` | bzip2/decompress.c:463-478 | Repacking, when the first row has reached the start of the array, keeps the list |
| `Mtf.DecodeInvertsEncode` | bzip2/compress.c:119-231 | Decoding the move-to-front and RUNA/RUNB symbols of any column gives back the column and never meets the size bound |
| `Mtf.ReadRunInverts` | bzip2/decompress.c:390-408 | The digits of every run length are read back to that length |
| `MtfEncode.Generate` | bzip2/compress.c:119-231 | The symbols and their counts are those of the column, at most nblock + 1 of them, and no ptr entry is overwritten before it is read |
| `MtfEncode.FindAndMove` | bzip2/compress.c:189-212 | Finds the byte and moves it to the front in one pass |
| `MtfDecode.DecodeValues` | bzip2/decompress.c:381-492 | The decoder loop over two-level table, byte counts and column computes what the plain list decoder does, refusals included |
| `HuffmanLengths.MakeCodeLengths` | bzip2/huffman.c:63-148 | For every table of frequencies the compressor can pass, ends with lengths in 1..maxLen whose Kraft sum is exactly one; no code of any lengths costs fewer bits for the frequencies, with 1 for 0, scaled down as often as it took, which is the least number of times for which the lengths fit; without scaling, for the frequencies themselves |
| `HuffmanLengths.FrequentShorter` | bzip2/huffman.c:63-148 | Lengths that are best give a letter that occurs more often no longer a code |
| `HuffmanLengths.EightToOne` | bzip2/huffman.c:63-148 | Lengths that fit the frequencies 8, 1, 1, 1 without scaling give the first letter length 1 |
| `HuffmanOptimal.RootsOptimal` | bzip2/huffman.c:84-121 | Joining the two lightest again and again leaves trees for which the lengths of no code are cheaper, whatever their limit |
| `HuffmanOptimal.TreeBest` | bzip2/huffman.c:84-140 | The depths of the leaves of the finished tree make a code, and no lengths with Kraft sum at most one cost less |
| `HuffmanOptimal.HeavierShorter` | bzip2/huffman.c:84-140 | In a code that is best a heavier letter has no longer a code |
| `HuffmanLengths.CompressorCall` | bzip2/compress.c:444-459 | At most 900001 symbols, 2 to 258 letters and length limit 17 meet what construction needs |
| `HuffmanLengths.BuildTree` | bzip2/huffman.c:84-121 | Joining the two lightest until one is left builds a tree over all letters with the weights given, every join of two that no other root is lighter than, every weight cell below 2^31 with its depth below 256 in the low byte |
| `HuffmanLengths.AddWeights` | bzip2/huffman.c:26-30 | Packed weights add their upper 24 bits and take one more than the larger depth |
| `HuffmanTree.JoinWeighed` | bzip2/huffman.c:99-119 | Joining the two lightest keeps every tree at least as heavy as the Fibonacci number of its depth |
| `HuffmanTree.LeavesComplete` | bzip2/huffman.c:122-140 | The depths of the leaves of a finished tree have Kraft sum one |
| `HuffmanHeap.UpHeap` | bzip2/huffman.c:33-42 | Restores the heap by rearranging it |
| `HuffmanHeap.DownHeap` | bzip2/huffman.c:44-58 | Restores the heap from the root down by rearranging it |
| `HuffmanHeap.Pop` | bzip2/huffman.c:91-97 | Takes out a lightest node and leaves a heap of the others |
| `Canonical.ReadInverts` | bzip2/decompress.c:74-102 | A code written with the assigned codes is read back as its symbol by limit, base and perm, with exactly its own bits |
| `Canonical.CodesFit` | bzip2/huffman.c:152-166 | With Kraft sum at most one every assigned code fits its length |
| `Canonical.AssignCodes` | bzip2/huffman.c:152-166 | The codes are the canonical ones of the lengths |
| `Canonical.CreateDecodeTables` | bzip2/huffman.c:170-200 | limit, base and perm are the tables that decode the canonical code |
| `BitIo.Writer.Put` | bzip2/compress.c:58-78 | Appends the n bits of v and loses no bit of the 32-bit buffer |
| `BitIo.Writer.Finish` | bzip2/compress.c:46-54 | All bits come out, followed by fewer than eight zeros |
| `BitIo.Reader.Get` | bzip2/decompress.c:43-65 | Returns the next n bits if there are that many, and otherwise keeps all it has |
| `CodingTables.AssignAll` | bzip2/compress.c:480-492 | Every table gets the canonical codes of its lengths |
| `CodingTables.Refine` | bzip2/compress.c:319-459 | Four passes: in each every group of fifty symbols picks the first of the tables that code it in the fewest bits, and every table is made anew, as good as any for the exact counts of the symbols whose groups picked it; the last tables and selectors are returned, each table a complete code with lengths of 1 to 17 and one selector for every group |
| `CodingTables.InitialTables` | bzip2/compress.c:282-317 | The alphabet is cut into as many parts of about the same frequency as there are tables, from the left, every second part trimmed but the first and the last; each part makes the table that is cheap for it |
| `CodingTables.SelectTables` | bzip2/compress.c:352-440 | Each group picks the first cheapest table, and the counts of a table are exactly those of the symbols in the groups that picked it |
| `CodingTables.AddGroup` | bzip2/compress.c:419-440 | Every symbol of the group is counted once, and nothing else |
| `SendBlock.CodeSelectors` | bzip2/compress.c:461-478 | The selectors as move-to-front positions |
| `SendBlock.PutSymbols` | bzip2/compress.c:544-598 | The codes of all symbols, each with the table of its group |
| `SymbolFormat.ReadSymbols` | bzip2/decompress.c:381-492 | The machine reads the codes of all symbols back, group by group, to the column |
| `SymbolFormat.GroupTables` | bzip2/decompress.c:337-353 | The tables the decoder makes are those of the code the encoder used |
| `BlockFormat.ReadHead` | bzip2/decompress.c:222-335 | Reading a written header leaves the machine with this CRC, origPtr, byte table, selectors and lengths |
| `Rle.UnRleInvertsRle` | bzip2/bzlib.c:215-286 | Undoing the initial run-length coding of any runs, whatever two bytes are fetched behind the block, gives back the input |
| `Compressor.EState.AddChar` | bzip2/bzlib.c:260-286 | The byte goes to the run buffer, and what was there into the block, with the CRC kept |
| `Compressor.EState.CopyInput` | bzip2/bzlib.c:289-329 | Takes bytes in order into the block and the run buffer, until the block is full, and not before, or the promised input is used up |
| `Compressor.EState.Turn` | bzip2/bzlib.c:363-398 | One turn leads to a block ready to compress or to a stop, and makes progress; a block is ready only when it is full, or when a flush or finish has all its input in it and the run buffer emptied into it |
| `Compressor.BlocksDecode` | bzip2/bzlib.c:216-255 | Undoing the coding of all blocks one by one gives back everything taken in |
| `DirectoryMatch.Match` | client/DirectoryListing.cpp:1269-1361 | Whatever flags were set before, the walk leaves exactly those of what matches, the cursor on the first found item in pre-order, and the counts of found files and directories |
| `DirectoryMatch.SearchAndVisit` | client/DirectoryListing.cpp:1269-1487 | After a search repeated next visits all matches in pre-order, or only the first when a file of the root itself matches |
| `DirectoryMatch.MarkAsFound` | client/DirectoryListing.cpp:1716-1726 | Stopping at the first ancestor that has FLAG_HAS_FOUND still leaves it on all of them, and the flags consistent |
| `DirectoryTree.HasFoundMeans` | client/DirectoryListing.cpp:1269-1361 | With consistent flags a directory has FLAG_HAS_FOUND exactly when something in it or below it is found |
| `DirectoryTree.ClearedBare` | client/DirectoryListing.cpp:885-902 | The pruned walk of clearMatches clears every flag when they are consistent |
| `DirectoryCursor.SearchContext.Next` | client/DirectoryListing.cpp:1409-1487 | Moves to the next found item exactly when there is one, and otherwise stays; from a file of the root itself it does not move |
| `DirectoryCursor.SearchContext.Prev` | client/DirectoryListing.cpp:1489-1572 | Moves to the found item before exactly when there is one that is not a file of the root itself, and otherwise stays |
| `DirectoryCursor.Visit` | client/DirectoryListing.cpp:1409-1487 | Repeated next lists every found item once, in pre-order; only the first when that is a file of the root |
| `DirectoryCursor.VisitBack` | client/DirectoryListing.cpp:1489-1572 | Repeated prev lists every found item once, in reverse pre-order, but for the files of the root, of which it lists the last when there is nothing else |
| `DirectoryCursor.StepsUndo` | client/DirectoryListing.cpp:1409-1572 | Next and then prev is back at the same item |
| `DirectoryCursor.StepsUndoBack` | client/DirectoryListing.cpp:1409-1572 | Prev and then next is back at the same item |
| `DirectoryCursor.RootFilesStop` | client/DirectoryListing.cpp:1409-1420 | Next can leave every found item that is not the last if and only if no file of the root is found or there is at most one found item |
| `DirectoryCursor.TwoRootFiles` | client/DirectoryListing.cpp:1409-1420 | A list with two found files in its root, of which only the first is visited |
| `SocketBuffer.Buffer.Append` | client/BufferedSocket.cpp:68-87 | Adds to the end of the queue, shifting or growing; refused exactly when all of it does not fit the largest buffer |
| `SocketBuffer.Buffer.Remove` | client/BufferedSocket.cpp:89-94 | Takes from the front of the queue |
| `SocketBuffer.Buffer.Grow` | client/BufferedSocket.cpp:113-126 | Keeps the queue; capacity and positions become those of Grown: doubled up to the largest, the queue at the front |
| `SocketBuffer.Buffer.MaybeShift` | client/BufferedSocket.cpp:137-141 | Keeps the queue; it moves to the front exactly when it is empty or starts in the upper half |
| `Receiving.Receive` | client/BufferedSocket.cpp:276-334 | However a stream is cut into reads, the socket stops exactly where Cuts.Run says, blocked or not, with its buffer of that shape; the listener has got exactly the lines and data that the bytes read determine, and the buffer holds the unfinished line |
| `Cuts.ClosedBlocked` | client/BufferedSocket.cpp:276-334 | A read asks for nothing only at a place that can be blocked: the listener has asked for no data, or the largest buffer, begun where something started, is full and half or more of it is one unfinished line |
| `Cuts.SomeCutCloses` | client/BufferedSocket.cpp:276-334 | For every stream and listener: some cut is blocked if and only if the stream has a place that can be blocked, which is a matter of the stream and the capacities the buffer grows through |
| `Cuts.SomeCutDelivers` | client/BufferedSocket.cpp:276-334 | Some cut gets the whole stream through if and only if no unfinished line takes the largest buffer, and then the cut into single bytes does |
| `Cuts.ShortNeverClosed` | client/BufferedSocket.cpp:276-334 | No cut is blocked when every line is shorter than half the largest buffer and data is asked for only to get some |
| `Cuts.SinglesNeat` | client/BufferedSocket.cpp:276-334 | Byte by byte a read is blocked only by a line as long as the largest buffer or by a listener that asks for no data |
| `Cuts.Progress` | client/BufferedSocket.cpp:276-334 | Every piece moves on, until the end, a line that is too long or a blocked read |
| `Cuts.LongLineBlockable` | client/BufferedSocket.cpp:276-334 | For lines, once the stream has gone on for twice the largest buffer: a full buffer whose half or more is one line, begun where a line began, is a place that can be blocked |
| `Cuts.LimitsDecide` | client/BufferedSocket.cpp:54-61 | For lines: some stream has a cut that is blocked if and only if the longest line allowed takes half the largest buffer |
| `Receiving.TwoCuts` | client/BufferedSocket.cpp:276-334 | Two sockets that read one stream in two cuts, each standing where Cuts.Run says: if they got equally far they have told the listener the same and hold the same; with short lines and enough pieces both get to the end |
| `Cuts.CutDecides` | client/BufferedSocket.cpp:276-334 | One stream that some cut blocks and that comes through to its end, long line and all, byte by byte |
| `Receiving.Receiver.ReadTurn` | client/BufferedSocket.cpp:276-334 | One turn reads what the mode and the buffer allow of what is to be had, is blocked exactly when that is nothing, acts on all it can, and leaves the buffer in the shape of Absorbed |
| `Receiving.Receiver.ParseData` | client/BufferedSocket.cpp:420-449 | Hands out lines until the mode changes, a line is too long or none is complete |
| `Receiving.Receiver.ConsumeData` | client/BufferedSocket.cpp:451-476 | Hands out exactly the data asked for, then returns to lines |
| `Framing.EveryByteOnce` | client/BufferedSocket.cpp:420-476 | Every byte is in exactly one event or in the unfinished line, in order |
| `ExtGroups.Group` | client/AdcHub.cpp:1328-1379 | The chosen groups without RX and with EX mean exactly the extensions asked for; at most two RX per group; a group is chosen exactly when at most two of its extensions are not asked for |
| `ExtQuery.Query` | client/ShareManager.cpp:2516-2629 | A search sent in groups and read by AdcSearchParam: a name is wanted exactly when it ends with an extension that is kept; every extension asked for is kept, and no other if and only if no group was sent or every RX is greater than all that is listed between the RX before it and itself |
| `ExtQuery.AdcSearchParam.HasExt` | client/ShareManager.cpp:2616-2629 | The first call takes RX out by set_difference in place; true exactly for an empty list or a name that ends with one of the extensions left |
| `ExtQuery.AdcSearchParam.constructor` | client/ShareManager.cpp:2516-2562 | EX is appended, the tables of GR are put in front, RX is kept apart, in the order of the parameters |
| `ExtQuery.RightInTurn` | client/ShareManager.cpp:2616-2624 | On a list without duplicates set_difference takes out a sublist if and only if each of its members comes in turn: greater than all that is listed between the one before it and itself |
| `ExtQuery.SetDifference` | client/ShareManager.cpp:2616-2624 | The merge with its output over its input leaves exactly Difference of the two lists, sorted or not |
| `ExtQuery.GroupedRight` | client/ShareManager.cpp:2543-2624 | Of any search that is sent in groups nothing asked for is lost, and nothing else is kept if and only if RX comes in turn in the list of the receiver |
| `ExtQuery.OneGroupInTurn` | client/ShareManager.cpp:2543-2624 | A search with one group is always read right |
| `ExtTables.TablesGood` | client/AdcHub.cpp:45-54 | The extension tables are sorted and no extension is in two of them |
| `ExtTables.AudioAndVideo` | client/AdcHub.cpp:1281-1400 | With the tables as they are, a search for all audio extensions but mp3 and all video extensions but 3gp takes an mp3 file |
| `AdcText.Escape` | client/AdcCommand.cpp:182-210 | The in-place edit makes the text that has, in the newer form, a backslash and s for a space, a backslash and n for a newline, two backslashes for a backslash and every other character as it is; in the older form a backslash before each space, newline and backslash |
| `AdcText.EscapedHasNoBreaks` | client/AdcCommand.cpp:182-210 | The newer escaping leaves no space and no newline |
| `AdcText.UnescapesAre` | client/AdcCommand.cpp:83-101 | What the letters behind a backslash stand for: s a space, n a newline, a backslash itself, in the older form a space for a space, and nothing else |
| `AdcRoundTrip.DirectLine` | client/AdcCommand.cpp:43-170 | A D line with both escapes and two SIDs, printed and parsed, character by character: which SID is which, and the parameters |
| `AdcRoundTrip.OlderLine` | client/AdcCommand.cpp:43-170 | A line of the $ADC form with an escaped space, printed and parsed |
| `AdcCommand.AdcCommand.Parse` | client/AdcCommand.cpp:43-170 | Status and all fields, also after an error, are those of the words of the line placed one by one |
| `AdcCommand.AdcCommand.ToString` | client/AdcCommand.cpp:177-268 | The header words and the escaped parameters, each after a space, and the end of line |
| `AdcRoundTrip.PrintedParses` | client/AdcCommand.cpp:43-268 | A printed command parses without error if and only if its SIDs are not zero and free of space and backslash and its features fit, and then to its type, code, SIDs and parameters, less one empty parameter at the end |
| `AdcRoundTrip.NmdcPrintedParses` | client/AdcCommand.cpp:43-268 | In the $ADC form a command parses back if and only if no parameter has a newline in it |
| `AdcRoundTrip.DoNotComeBack` | client/AdcCommand.cpp:43-268 | A newline in the $ADC form and an F command with nothing in it do not parse; an empty last parameter is lost |
| `AdcRoundTrip.CidPrintedParses` | client/AdcCommand.cpp:242-252 | The form with a CID parses back with the CID as first parameter |
| `AdcRoundTrip.SentParsesBack` | client/AdcCommand.cpp:43-268 | Commands sent one after the other come out of the socket as their lines and parse back in order |
| `Base32.ToBase32` | client/Base32.cpp:46-78 | Appends the groups of five bits of the bytes, the last filled up with zeros, as letters of the RFC 4648 section 6 alphabet |
| `Base32.FromBase32` | client/Base32.cpp:80-126 | The array gets the bits of the recognised digits; a strict reading fails exactly at the first other character while room is left |
| `Base32.TextReadsBack` | client/Base32.cpp:46-126 | The text of any bytes is read back to them |
| `Base32.CaseDoesNotMatter` | client/Base32.cpp:24-42 | Lower case reads the same |
| `Base32.WrittenIsTight` | client/Base32.cpp:46-126 | What toBase32 writes has the right length and only zeros in its spare bits |
| `Base32.TightIsWritten` | client/Base32.cpp:46-126 | Every such text is what toBase32 writes for the bytes read from it |
| `Base32.WriteAndRead` | client/Base32.cpp:46-126 | Writing and strictly reading gives every non-empty byte string back |

## Left out

- Randomised blocks: the decoder reports them as a case of its own and the output side is not modelled.
- The CRC polynomial: the CRC is any fold with any final step and any way to combine, of which only the width of 32
  bits is used; both sides run it over the same bytes. The byte order of the four CRC bytes is modelled.
- `TwoCompressions.Compressions`: equal blocks come out as equal bytes on the condition that BZ2_compressBlock makes the
  same of the same arguments (`EncoderTrace.SameMakesSame`); its contract leaves open the order of equal rotations and
  the choice among tables that are equally good, so that it does not say so by itself.
- SMALL inside `Decompressor.DState`: the stream theorems are for the FAST output loop; `FastSmall` shows that the
  SMALL loop puts out the same bytes block by block.
- `Unpack.Fast`: the tight loop that keeps fields in local variables is modelled on the fields, and its return on
  corrupt data as one that leaves them as they were.
- Memory shared between arrays: ptr and mtfv share theirs, as in the source; block, quadrant, eclass, ftab and zbits
  are arrays of their own, and BZ2_compressBlock gets fresh ones of the block's size.
- Loops unrolled by hand, the packed costs of the fast track in sendMTFValues and the word-wise skipping of bhtab bits
  are modelled by what they do one step at a time; bhtab is an array of booleans.
- Entries of perm behind the last symbol, which the source leaves unset, are 0 in the decoder machine.
- `DecodeMachine`: the list of the move-to-front decoder is a plain list there; `MtfTable` and `MtfDecode` show that
  the two-level table stands for it.
- Allocation, verbosity, the stdio layer and BZ2_bzBuffToBuff of bzip2/bzlib.c, and total_in and total_out.
- `BlockSort.Sort`: blocks of up to 900000 bytes, the largest the format has.
- `DirectoryMatch.Match`: what matches is given, not computed from names and sizes, and the copy of the matches into a
  second list is not made.
- goToFirstFound and setFound of the search cursor, which repeat parts of match.
- MODE_ZPIPE, proxies, TLS, throttling, the separator chosen by the first byte, and writing in BufferedSocket. The
  listener chooses the mode after a line, not in the middle of data.
- `Cuts.SomeCutDelivers`: for streams on which the listener never asks for data of size 0 with more bytes to follow; a
  cut that gets past such a place has to read across it.
- `ExtGroups.Group`: extensions are numbers in alphabetical order, and the list is sorted and without duplicates on
  entry.
- `ExtQuery.Query`: the number in GR is the list of its bits, a name is the set of extensions it ends with, and the
  parameters other than EX, GR and RX are left out.
- `AdcRoundTrip.PrintedParses`: features are taken to be free of spaces and backslashes; codes have three characters
  other than NUL, as those of the constructors have.
- `Base32.FromBase32`: an empty array is excluded, since the source would write outside it.
- Message handlers, hub and connection management, database, settings and everything with a user interface.

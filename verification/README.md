# bzip2 and execution-provider dependencies, verified

This project models two parts of the repository in Dafny and proves what they promise.

**The bzip2 library** (`deps/bzip2`): the block sorter, the Huffman and move-to-front coders, the bit stream, and the
compressor and decompressor as objects that are called with whatever input and room the caller has. The main result is
the round trip as a caller sees it: for every input and every way of cutting up input and output on both sides, both
loops end and decompression gives the input back. It rests on

- the sorts: the main sort (radix buckets, three-way quicksort with explicit stack, shell sort, bucket scanning and
  quadrants) and the fallback sort (exponential radix sort) both order the rotations, and every such order can be undone;
- the coders: code lengths from the heap-based tree are those of a best code, canonical codes decode, move-to-front with run
  digits and its two-level form in the decoder are inverse to the encoder;
- the stream: a deterministic machine that reads bits and writes bytes, and the decompressor object is always on that
  machine's one run, wherever it was suspended; on malformed input too, the one exception to what its callers see being
  stated exactly;
- the format, stated apart from both programs as which bits stand for which data: the decoder accepts exactly the inputs
  in the format, writes exactly what they stand for, and refuses exactly what cannot be part of it, at the first bit that
  shows it; what the compressor writes is in the format and stands for its input.

**Dependencies between execution providers** (`src/CIL/ep_dependencies_config.cpp`): conditions as OR of AND-clauses,
their combination, the depth-first search that collects files under inherited conditions, and the filtering by
configurations. Here some natural properties fail; for each there is a witness and the exact condition under which it
holds.

Files follow the source: one module per component. Code that changes arrays and objects in place is modelled by methods
over arrays and classes, each proved against specification functions; the laws are lemmas about those functions.

## Model

| member | source | states |
|---|---|---|
| RoundTrip.CompressThenDecompress | deps/bzip2/bzlib.c:407-464 | Total round trip: for every input, block size, work factor and decoder representation, whatever RUN calls and completed flushes the compressor's caller makes, whatever calls the decompressor's caller makes, and however little room the repeated last calls have, both loops end and the result is the input; what was compressed is in the format and stands for the input, and its length is bounded. |
| RoundTrip.DecompressUntilStop | deps/bzip2/bzlib.c:808-858 | The loop "call until the code is not BZ_OK" on any input at all, after any calls, with however little room each call has: it ends. BZ_STREAM_END means that the input begins with a stream in the format and that the output is what it stands for, and every such input ends so. BZ_DATA_ERROR means that the input is refused for one of the reasons stated apart from the decoder, that its total checksum is wrong, or that a block is not complete, and every such input ends so. BZ_DATA_ERROR_MAGIC: exactly if one of the first four bytes is there and wrong. |
| Verified.AcceptedIff | deps/bzip2/decompress.c:195-612 | The decoder accepts exactly the format: on any bytes, its machine comes to an end with the right combined checksum having written `data` if and only if the input begins with the text of a stream of intact blocks that stand for `data`. |
| Verified.RefusedIff | deps/bzip2/decompress.c:195-612 | The decoder refuses exactly what is not the beginning of the format: on any bytes its machine comes to BZ_DATA_ERROR if and only if the input consists of a header, texts of intact blocks, and then a text that no block begins with (and whose last bit shows it), or a whole block with a wrong checksum. |
| Verified.EndIsIntact | deps/bzip2/bzlib.c:824-836 | One half, for any bytes: at an accepted end every block was whole and had the checksum of its own data in front of it, the stored combined checksum is theirs bit by bit, the bits taken are the texts of these blocks in order, and the output is their data. |
| Verified.TextEnds | deps/bzip2/decompress.c:195-612 | The other half: any text of a stream, with every choice the format leaves to a writer, is taken to its end, and nothing behind it is looked at. |
| Verified.WrittenIsIntact | deps/bzip2/bzlib.c:808-858 | Anywhere on the way, short of an error, what has been taken is texts of intact blocks and the beginning of one more, and what has been written is their data and the beginning of the last one's. |
| Verified.DamagedGoes | deps/bzip2/bzlib.c:824-829 | From anywhere in a whole block whose stored checksum is not that of its data, the block is written to its end and then the input is rejected. |
| Verified.DamagedEnds | deps/bzip2/bzlib.c:824-829 | Whatever else an input holds: if it leads to such a block, it ends rejected. |
| Verified.Unambiguous | deps/bzip2/decompress.c:195-612 | No input stands for two different things. |
| Format.OwnCode | deps/bzip2/huffman.c:152-165 | Under the Kraft inequality the format's notion of a symbol's code, which makes sense for any lengths, is just the canonical code. |
| FormatSeen.SeenNext | deps/bzip2/decompress.c:195-491 | Whatever bits come, what the parser has taken stays the beginning of a block's text; where it stops with a column, the bits are the text of a block with that column; and where it gives up, they are one of the texts that no block begins with. (So nothing outside the format is accepted, and nothing is refused too early.) |
| FormatLeads.BlockLeads | deps/bzip2/decompress.c:220-584 | Every text of a block leads the parser to exactly its head and its column: rows that mark no byte, selectors that are never used or are surplus, detours between code lengths and incomplete codes included. |
| FormatRejected.RejectedFails | deps/bzip2/decompress.c:201-494 | Every text that no block begins with leads to the error at its last bit: a wrong byte of either magic number, origPtr out of range, no byte in use, too few or too many tables, no selectors, a selector beyond the tables, a code length out of range, bits that are no code, selectors used up, a run or block too long, and an end where origPtr is none of the rows. |
| FormatLeads.MapLeads | deps/bzip2/decompress.c:266-288 | Every form of the mapping table is read. |
| FormatLeads.SelectorsLead | deps/bzip2/decompress.c:290-320 | Every list of selectors is read, those beyond the 18002 usable ones dropped. |
| FormatLeads.TablesLead | deps/bzip2/decompress.c:322-335 | Every way of stepping from length to length is read. |
| FormatLeads.SymbolsLead | deps/bzip2/decompress.c:379-491 | Symbols in groups of fifty, each group under its own table, are read. |
| FormatPrinted.PrintedBlock | deps/bzip2/compress.c:602-653 | What the compressor writes for a block is one of the block's texts. |
| FormatCodes.LookUpExact | deps/bzip2/decompress.c:90-101 | For any code lengths and any bits: the comparison with the limits finds a symbol exactly when its code has been read, and asks for more exactly when no code can have been. |
| MtfUnique.ColumnSymbols | deps/bzip2/decompress.c:381-492 | Whatever symbols the decoder turns into bytes, they are the ones the encoder emits for those bytes: the coding has no redundancy. |
| Sample.FileStandsForText | deps/bzip2/compress.c:602-667 | One file byte by byte, with a run, a sorted block and codes of two lengths: these bytes stand for that text, so no convention can be another one on both sides. |
| Header.HeaderEnds | deps/bzip2/decompress.c:197-208 | An input is refused as not being a stream exactly if one of its first four bytes is there and wrong. |
| Header.SixBytes | deps/bzip2/decompress.c:222-236 | Between blocks the six bytes of the block magic go on to a block, those of the trailer to the end, and all others are rejected. |
| RoundTrip.Compress | deps/bzip2/bzlib.c:407-464 | The loop "call FINISH until BZ_STREAM_END" ends after any orderly calls before it, with a stream of well-formed blocks that is in the format and stands for exactly the input. |
| RoundTrip.Decompress | deps/bzip2/bzlib.c:808-858 | For every well-formed stream, whoever wrote it: after any calls, the loop "call until the code is not BZ_OK" ends with exactly the data of its blocks, for both decoder representations. |
| RoundTrip.CompressAtOnce | deps/bzip2/bzlib.c:407-464 | All input in one FINISH call: it reports the end or uses up all its room, and room above the stated bound forces the end. |
| RoundTrip.DecompressAtOnce | deps/bzip2/bzlib.c:808-858 | All of a stream in one call with more room than its data: BZ_STREAM_END and exactly the data. |
| RoundTrip.CompressAndDecompress | deps/bzip2/bzlib.c:407-464 | Any two schedules at all, unfinished or out of order included: what has been taken is a prefix of the input; if the compressor ended, what the decompressor has written so far is a prefix of it, no error is reported, the end is reported only with all of it, and with all of the stream given it stops short only for lack of room. |
| RoundTrip.ChunksDoNotMatter | deps/bzip2/decompress.c:43-65 | Two decompressors, of either representation, fed the same bytes, well-formed or not, in different pieces: one has reported a prefix of what the other has, and when both have come as far as they can they stand at the same place with the same combined checksum and the same final code. They have then reported the same bytes if the input leads to no block that ends between the four bytes of a run and its count. |
| RoundTrip.DecompressTwice | deps/bzip2/bzlib.c:808-858 | Any input at all in two calls, the first with any room and the second with enough: what is reported, exactly, for either representation. When the call that finds a run past the end of its block is one of the fast routine, nothing that this call wrote is reported. |
| AnyInput.PiecesMatter | deps/bzip2/bzlib.c:633-679 | What is reported of an input depends on the representation, and in the fast one on how the room is divided, if and only if the input leads to a block that ends between the four bytes of a run and its count. |
| AnyInput.FourEqualBytes | deps/bzip2/bzlib.c:633-634 | The smallest such block, four equal bytes x and no count, for every x, level and stored checksum: the small routine reports 4 + x bytes, the fast one none of them, or as many as the call before had room for. |
| AnyInput.IncompleteBlock | deps/bzip2/bzlib.c:656-660 | Well-formed blocks followed by one that is not complete: everything before it is written, then its decoded bytes and as many copies of the last byte as the byte read past its end says, and there the machine stays. |
| AnyInput.EveryInputEnds | deps/bzip2/bzlib.c:808-858 | On any bytes at all the machine stops. |
| RoundTrip.Follows | deps/bzip2/bzlib.c:808-858 | A decompressor that has been fed any prefix of a well-formed stream has written a prefix of the data, reports no fault, and reports the end exactly when all is written. |
| RoundTrip.CompressUntilDone | deps/bzip2/bzlib.c:442-461 | Repeating FLUSH or FINISH with any positive room completes it; the loop ends because output is bounded by input. |
| Expansion.StreamAdds | deps/bzip2/compress.c:602-667 | A stream is no longer than a linear bound in the input it stands for, frame and filling included. |
| Expansion.BlocksAdd | deps/bzip2/compress.c:602-667 | There are no more blocks than input bytes, and their bits are bounded by their number and the length of the input. |
| Expansion.RunLengthAdds | deps/bzip2/bzlib.c:215-247 | Run-length coding lengthens its input by at most a quarter. |
| Stream.StreamGoes | deps/bzip2/decompress.c:195-612 | The decoder's machine takes every well-formed stream to its end, having written the data of all blocks, with the stored combined checksum equal to the computed one. |
| Stream.OneBlockGoes | deps/bzip2/decompress.c:220-584 | One block takes the machine from a block header to the next one, its data written and its checksum accepted. |
| StreamMachine.GoesMore | deps/bzip2/decompress.c:43-65 | A run of the machine is not changed by bits that arrive later. |
| StreamMachine.GoesUnique | deps/bzip2/decompress.c:106-646 | The machine is deterministic: of two runs from one state the shorter is the beginning of the longer. |
| StreamMachine.OutputGrows | deps/bzip2/bzlib.c:591-679 | Whatever happens later, what the machine has written stays a prefix of what it writes. |
| StreamMachine.OutputGoes | deps/bzip2/bzlib.c:591-679 | The output stage writes exactly the decoded bytes of a complete block and accepts its checksum. |
| StreamMachine.IncompleteGoes | deps/bzip2/bzlib.c:633-634 | From anywhere in a block that is not complete the output stage runs past its end and stays there, its checksum never compared. |
| StreamMachine.AllWritten | deps/bzip2/bzlib.c:633-639 | When the last run has been written the read-ahead stands at the end of the block exactly if the block is complete, and past it otherwise; what has been written is stated for both. |
| OutputStage.NextRunRight | deps/bzip2/bzlib.c:640-660 | Every run the output stage takes with its one byte of read-ahead is a run of the block, at the end of the block too; only a block that ends before the count of its last run has that run counted by the byte read past the end. |
| Decompressor.DState.BzDecompress | deps/bzip2/bzlib.c:808-858 | BZ2_bzDecompress: the object stays on the machine's one run, conserves input and output, and its return code says what state that is; BZ_SEQUENCE_ERROR exactly after the end. BZ_DATA_ERROR within a block comes only if the block is not complete; the small representation then stands past its end, and the fast one where it stood when the call took the block up, although there was room for all the rest. |
| Decompressor.DState.Decompress | deps/bzip2/decompress.c:139-191 | BZ2_decompress goes on until input is missing, a block is complete, or the stream ends or is found bad. |
| Decompressor.DState.Fill | deps/bzip2/decompress.c:45-65 | GET_BITS refills byte by byte; it gives up only with no input left, and no bit is lost. |
| Decompressor.DState.TakeBits | deps/bzip2/decompress.c:46-52 | The bits taken from the 32-bit buffer are the next ones of the stream, as a number. |
| Decompressor.DState.UnRleFast | deps/bzip2/bzlib.c:591-679 | The fast output routine stops without room or at the end of the block, with its copies stored back; on a run past that end, which it finds exactly in blocks that are not complete, it leaves the stream record, the run, the read-ahead and the checksum as they were on entry. |
| Decompressor.DState.UnRleSmall | deps/bzip2/bzlib.c:743-803 | The small output routine: it stops without room, at the end of the block, or past that end with every byte written and reported; it does nothing without room. |
| Decompressor.DState.ReadRun | deps/bzip2/bzlib.c:640-660 | Reading ahead over up to three equal bytes, or four and a count, yields the machine's next run. |
| Decompressor.DState.FinishBlock | deps/bzip2/bzlib.c:824-836 | The end of a block: the object goes where the machine does, which accepts the block exactly if the stored checksum is that of what was written, and takes it into the combined one (Verified.EndIsIntact, Verified.DamagedGoes). |
| TableReader.Reader.Turn | deps/bzip2/decompress.c:195-360 | Between two requests for bits outside the symbols, the labels, counters and tables updated in place go where the parser's specification goes, so a suspension at any label resumes correctly. |
| TableReader.Reader.Mapping2Turn | deps/bzip2/decompress.c:276-284 | The two nested mapping loops, re-entered at any (i, j), build the map of bytes in use; rows marked unused are skipped. |
| TableReader.Reader.SkipRows | deps/bzip2/decompress.c:276-283 | The outer mapping loop up to the next row in use, or to the end of the map. |
| TableReader.Reader.Selector3Turn | deps/bzip2/decompress.c:291-306 | The selector loops: a unary value reaching nGroups is an error, selectors beyond the usable number are read but not stored. |
| TableReader.Reader.UndoSelectors | deps/bzip2/decompress.c:308-320 | Undoing the move-to-front coding of the selectors in place gives the specified list. |
| TableReader.Reader.NextLength | deps/bzip2/decompress.c:322-335 | The three nested loops over coding tables: out-of-range lengths are errors, complete tables lead on to the next one or to the symbols. |
| TableReader.Reader.NextSymbol | deps/bzip2/decompress.c:76-88 | Every fifty symbols the next selector is taken; running out of selectors is an error. |
| TableReader.Reader.Labels | deps/bzip2/bzlib_private.h:291-334 | The label alone determines the place in the parser. |
| DecodeTables.MakeDecodeTable | deps/bzip2/decompress.c:337-353 | Minimum, maximum and BZ2_hbCreateDecodeTables for one table. |
| DecodeTables.FindSymbol | deps/bzip2/decompress.c:90-101 | The comparison with the limit of the current length, on arbitrary bits. |
| DecodeTables.FoundInAlphabet | deps/bzip2/decompress.c:98-101 | Only symbols of the alphabet are ever found. |
| BlockReader.Receiver.Turn | deps/bzip2/decompress.c:195-584 | Every turn of the parser, symbols and end of block included, takes lists, runs and column where the specification goes. |
| BlockReader.Receiver.TakeDigit | deps/bzip2/decompress.c:385-402 | A run digit; the bound on its weight comes before the addition. |
| BlockReader.Receiver.TakePosition | deps/bzip2/decompress.c:425-491 | A list position: pending run flushed, byte moved to front, stored and counted, or the block is too long. |
| BlockReader.Receiver.TakeEnd | deps/bzip2/decompress.c:494-561 | The end of a block: run flushed, origPtr checked against the length, the walk through the rows set up. |
| BlockReader.Receiver.GetByte | deps/bzip2/bzlib_private.h:444-479 | The next byte of the block; the check that the row is in range cannot fail, on damaged input either. |
| BlockReader.Receiver.PutNext | deps/bzip2/decompress.c:427-487 | The map entries looked up are always those of the current block: stale entries beyond the bytes in use are never read. |
| DecoderStore.Column.Prepare | deps/bzip2/decompress.c:500-582 | Counts, cumulative counts and vector for either representation; the consistency checks on the counts cannot fail. |
| DecoderStore.Column.Get | deps/bzip2/bzlib_private.h:444-479 | BZ_GET_FAST and BZ_GET_SMALL read the same bytes, one per row of the walk. |
| BlockParser.ParseSplit | deps/bzip2/decompress.c:43-65 | Parsing a stream in two pieces is parsing it at once, wherever it is cut. |
| BlockParser.HandleOk | deps/bzip2/decompress.c:195-584 | Every well-formed place leads to a well-formed place, on any bits. |
| BlockPrinter.SelInversion | deps/bzip2/compress.c:461-478 | The decoder's undoing of selector coding inverts the encoder's coding. |
| Encoder.EState.BzCompress | deps/bzip2/bzlib.c:407-464 | BZ2_bzCompress in every mode with every action: what code comes back when (a wrong action or changed input while flushing or finishing is BZ_SEQUENCE_ERROR and changes nothing; so is finishing without progress, and nothing else), what has been consumed and emitted, and that nothing is lost; FLUSH and FINISH in order with room never fail. Blocks are cut only when they are full, or at the end of a completed request. |
| Encoder.EState.HandleCompress | deps/bzip2/bzlib.c:360-403 | The main loop ends, reports progress exactly if input or output moved, and stops only for the reasons stated; it cuts a block only when it is full or all requested input is in. |
| Encoder.EState.CompressBlock | deps/bzip2/compress.c:602-667 | Sorting, header, block and trailer: what is in the output buffer is the next part of one well-formed stream for the input taken. |
| Encoder.EState.PutBlock | deps/bzip2/compress.c:632-652 | The bits appended are the printed form of a block that fits the format and stands for the block's input bytes, within the room computed for it. |
| Encoder.EState.PutTrailer | deps/bzip2/compress.c:657-665 | The trailer completes the stream, filled up to a byte. |
| Encoder.EState.CopyInputUntilStop | deps/bzip2/bzlib.c:288-329 | Input is taken until the block is full or there is no more; all of it is in the block or pending. |
| Encoder.EState.CopyOutputUntilStop | deps/bzip2/bzlib.c:333-356 | Output is handed out in order until there is no room or no more. |
| Encoder.EState.PrepareNewBlock | deps/bzip2/bzlib.c:117-127 | A new block begins empty but for the pending run, which survives. |
| Encoder.EState.SentBound | deps/bzip2/bzlib.c:333-356 | At any time what has been handed out is bounded by what has been taken. |
| Encoder.EState.constructor | deps/bzip2/bzlib.c:148-211 | The state BZ2_bzCompressInit sets up. |
| Encoder.BzCompressInit | deps/bzip2/bzlib.c:148-166 | The parameter checks: an object exactly if the block size and work factor are in range. |
| Compressor.BlockHasRoom | deps/bzip2/compress.c:619-619 | The compressed block, header and trailer fit behind the block in the second array, for every block size. |
| Compressor.WriteSections | deps/bzip2/compress.c:651-652 | Map, selectors, tables and symbols of the sorted block, read off the sorted order, in this order; tables and selectors are those of the four rounds. |
| RunLength.BlockBuilder.AddCharToBlock | deps/bzip2/bzlib.c:260-284 | ADD_CHAR_TO_BLOCK: block plus pending run decode to the input taken, with checksum and bytes in use kept up; a run goes on unless the byte changes or it is 255 long, and then exactly its bytes are written. |
| RunLength.BlockBuilder.AddPairToBlock | deps/bzip2/bzlib.c:215-247 | The pending run is written so that the block decodes to all input taken and never ends inside a run's count. |
| RunLength.BlockBuilder.FlushRL | deps/bzip2/bzlib.c:251-256 | Flushing empties the pending run into the block. |
| RunLength.UnRlePair | deps/bzip2/bzlib.c:224-246 | A written run decodes to itself, provided it does not continue the one before it. |
| BlockSort.SortSpace.Sort | deps/bzip2/blocksort.c:1031-1089 | Whichever algorithm runs, and whether or not the main sort gives up, the order is weakly sorted by rotation, the block is as it was, and row 0 is found (assertion 1003). |
| MainSort.MainSort | deps/bzip2/blocksort.c:751-1011 | The main sort: with budget left the rotations are weakly sorted; without, it stops early with the block intact (assertions 1002, 1006 and 1007 hold). |
| MainSort.ScanBigBucket | deps/bzip2/blocksort.c:918-946 | Step 2: the scan from both ends synthesises the sorted order of every small bucket [t, ss], [ss, ss] included. |
| BucketScan.BucketComplete | deps/bzip2/blocksort.c:923-934 | What the two scans have put into a bucket is all of it. |
| BucketScan.ScanEnd | deps/bzip2/blocksort.c:937-944 | After the scans the two ends meet in every bucket, and every bucket is sorted. |
| MainSort.UpdateQuadrants | deps/bzip2/blocksort.c:987-1004 | Step 3: scaled positions in a done bucket are quadrants that order rotations consistently, in the overshoot area too. |
| MainSort.RunningOrder | deps/bzip2/blocksort.c:837-860 | The shell sort of the big buckets yields a permutation of them in order of size. |
| MainSort.SortSmallBuckets | deps/bzip2/blocksort.c:886-907 | Step 1: every small bucket but [ss, ss] is sorted, or known to be. |
| MainCompare.MainGtU | deps/bzip2/blocksort.c:345-469 | mainGtU decides the order of two rotations that agree in their first bytes, with the quadrants as shortcut, whatever the budget. |
| MainShellSort.MainSimpleSort | deps/bzip2/blocksort.c:484-554 | The shell sort of a short stretch sorts it by rotation, or gives up with the stretch rearranged. |
| MainQSort.MainQSort3 | deps/bzip2/blocksort.c:620-717 | The three-way radix quicksort with its explicit stack sorts a bucket by rotation; the stack of 100 entries never overflows (assertion 1001), and it terminates. |
| ThreeWay.Partition | deps/bzip2/blocksort.c:132-162 | The partition scans of both quicksorts: below, equal and above, the equal keys gathered at the ends, the stretch rearranged. |
| ThreeWay.TurnRound | deps/bzip2/blocksort.c:164-170 | The equal keys are exchanged into the middle. |
| TwoByteBuckets.PlaceByKey | deps/bzip2/blocksort.c:803-830 | The initial radix sort puts every position into the bucket of its first two bytes. |
| TwoByteBuckets.CountKeys | deps/bzip2/blocksort.c:772-792 | The table counts every two-byte key. |
| FallbackSort.FallbackSort | deps/bzip2/blocksort.c:211-329 | The fallback sort: weakly sorted rotations for every non-empty block, with the block rebuilt from the order (assertion 1005 holds). |
| FallbackSort.RefineBuckets | deps/bzip2/blocksort.c:273-306 | One pass refines every bucket from H to 2H bytes. |
| FallbackSort.FindBucket | deps/bzip2/blocksort.c:277-292 | The word-wise scan of the header bits finds the next bucket of more than one entry, or the end by the sentinels. |
| FallbackSort.RadixSort | deps/bzip2/blocksort.c:231-245 | The initial sort by first byte with its header bits. |
| FallbackSort.Rebuild | deps/bzip2/blocksort.c:322-328 | The block is rebuilt from the sorted order and the byte counts. |
| FallbackQSort.FallbackQSort3 | deps/bzip2/blocksort.c:92-180 | The three-way quicksort by class sorts its stretch; its stack of 100 entries never overflows (assertion 1004). |
| FallbackQSort.FallbackSimpleSort | deps/bzip2/blocksort.c:30-60 | The insertion sort, step four and step one. |
| Rotations.LeqIsLex | deps/bzip2/blocksort.c:964-985 | The rotation order used throughout is lexicographic order of the rotated blocks. |
| InverseBwt.InverseTransform | deps/bzip2/decompress.c:563-582 | Walking the inverse vector from the row of rotation 0 of any weakly sorted order gives the block back, periodic blocks included. |
| InverseBwt.LastColumnUnique | deps/bzip2/blocksort.c:1056-1062 | All weakly sorted orders have the same last column, so main and fallback sort lead to the same symbols. |
| InverseBwt.StartRowIrrelevant | deps/bzip2/blocksort.c:1083-1086 | If several rows hold the same rotation, starting from any of them gives the same block. |
| InverseBwt.StartRowIff | deps/bzip2/blocksort.c:1056-1062 | The comment that the stream is the same with either sort needs more than both being sorted: being sorted fixes origPtr, the one thing left open, exactly if no other rotation of the block is equal to the block itself. |
| InverseBwt.MakeCumTable | deps/bzip2/decompress.c:506-509 | The cumulative counts. |
| InverseBwt.CheckTables | deps/bzip2/decompress.c:501-522 | None of the range and monotonicity checks on the counts can fail. |
| InverseBwt.MakeWalkTable | deps/bzip2/decompress.c:565-570 | The combined table holds each row's successor above each row's byte. |
| InverseBwt.GetFast | deps/bzip2/bzlib_private.h:444-449 | One step of the walk yields the next byte. |
| SmallDecoder.ReverseCycle | deps/bzip2/decompress.c:542-551 | Pointer reversal turns the vector around on the cycle of origPtr, in place, and terminates. |
| SmallDecoder.MakeT | deps/bzip2/decompress.c:535-540 | The 20-bit vector in two arrays. |
| SmallDecoder.IndexIntoF | deps/bzip2/bzlib.c:687-698 | The binary search finds the byte whose stretch of rows holds the index. |
| SmallDecoder.GetSmall | deps/bzip2/bzlib_private.h:475-479 | One step of the walk in the small representation yields the same byte. |
| SmallDecoder.SetLL | deps/bzip2/bzlib_private.h:458-473 | Packing and unpacking of 4-bit halves changes only the entry meant. |
| MoveToFront.MtfInversion | deps/bzip2/decompress.c:381-492 | Feeding the encoder's symbols to the decoder trips no guard and yields exactly the coded bytes. |
| MtfEncoder.GenerateMtfValues | deps/bzip2/compress.c:119-231 | The symbols written over the order being read are the specified ones, with their counts. |
| MtfEncoder.MakeMapsE | deps/bzip2/compress.c:105-115 | The map from bytes to their number among the bytes in use. |
| MtfEncoder.MakeMapsD | deps/bzip2/decompress.c:26-36 | The map back. |
| MtfEncoder.BytesOfSeqs | deps/bzip2/decompress.c:26-36 | The decoder's map undoes the encoder's. |
| TwoLevelMtf.DecodeMtf | deps/bzip2/decompress.c:429-480 | The two-level list with its sliding segments is the plain move-to-front list, rebuilding included. |
| TwoLevelMtf.InitMtf | deps/bzip2/decompress.c:364-376 | The initial segments spell the identity list. |
| HuffmanLengths.MakeCodeLengths | deps/bzip2/huffman.c:63-148 | For frequencies of up to the largest block and any limit too large for a tree over weights of 1 and 2 to exceed: the lengths are those of a complete code within the limit that is optimal for the frequencies (zero counted as one), no code at all having fewer bits; or, if a tree over those is too deep, for the frequencies halved as often as needed. The scaling loop terminates. |
| HuffmanOptimal.TreeOptimal | deps/bzip2/huffman.c:97-121 | Joining the two lightest roots again and again gives leaf depths with the least weighted sum of all lengths that meet the Kraft inequality. |
| HuffmanOptimal.LightestDeepest | deps/bzip2/huffman.c:101-104 | Some best lengths put the two lightest roots at the same, greatest depth: the exchange argument. |
| HuffmanOptimal.Merge | deps/bzip2/huffman.c:105-111 | Joining two roots of one depth takes their weights off the cost, whatever the lengths. |
| HuffmanOptimal.FrequentIsShort | deps/bzip2/huffman.c:63-148 | In an optimal code a symbol of larger weight never has the longer code. |
| HuffmanLengths.TwelveReachable | deps/bzip2/huffman.c:121-134 | A limit of 12 or more will do for every alphabet. |
| HuffmanTree.DeepIsHeavy | deps/bzip2/huffman.c:114-121 | A leaf at depth d needs at least Fibonacci(d) of weight. |
| HuffmanTree.TreeKraft | deps/bzip2/huffman.c:114-121 | Leaf depths of a tree meet the Kraft equality. |
| WeightHeap.UpHeap | deps/bzip2/huffman.c:33-42 | UPHEAP restores the heap order and keeps the entries. |
| WeightHeap.DownHeap | deps/bzip2/huffman.c:44-59 | DOWNHEAP likewise. |
| WeightHeap.Pop | deps/bzip2/huffman.c:101-102 | Taking the root gives a lightest entry and leaves a heap of the others. |
| HuffmanCodes.PrefixFree | deps/bzip2/huffman.c:152-165 | Under the Kraft inequality no code is a prefix of another symbol's code. |
| HuffmanCodes.AssignCodes | deps/bzip2/huffman.c:152-165 | The codes given out are the canonical ones. |
| HuffmanCodes.DecodeSymbol | deps/bzip2/decompress.c:88-101 | In front of any bits, the reading loop takes exactly the bits of a symbol's code and the tables lead back to that symbol. |
| HuffmanCodes.DecodeWhole | deps/bzip2/decompress.c:93-101 | With all bits of a code read, the limit is met and the tables lead to its symbol. |
| HuffmanCodes.DecodePart | deps/bzip2/decompress.c:93-97 | With fewer bits the limit of that length is exceeded, so the decoder reads on. |
| HuffmanCodes.WithinAlphabet | deps/bzip2/decompress.c:98-101 | On any bits, well-formed or not, an index within the limit never lies beyond the alphabet; only the test for a negative index can fail. |
| HuffmanCodes.CreateDecodeTables | deps/bzip2/huffman.c:170-200 | The limit, base and perm arrays are the specified functions of the lengths. |
| SendMtf.SendMtfValues | deps/bzip2/compress.c:238-598 | The sections written are the printed map, selectors, tables and symbols under complete codes, within the stated number of bits. |
| SendMtf.EncodeSelectors | deps/bzip2/compress.c:461-478 | Move-to-front coding of the selectors. |
| SendMtf.PutTables | deps/bzip2/compress.c:528-539 | Delta coding of the lengths. |
| TableChoice.ChooseTables | deps/bzip2/compress.c:271-458 | The number of tables follows from the number of symbols. The first tables divide the alphabet into parts of about equal frequency; then in each of exactly four rounds every group of fifty symbols takes the first of its cheapest tables, and every table becomes a best code of at most 17 bits for the symbols of the groups that took it. |
| TableChoice.FastCosts | deps/bzip2/compress.c:358-386 | The unrolled path with two 16-bit sums in one word gives the same costs as the plain loop. |
| TableChoice.PlainCosts | deps/bzip2/compress.c:387-393 | The 16-bit sums do not overflow. |
| TableChoice.ChooseSelectors | deps/bzip2/compress.c:342-435 | One selector for every fifty symbols, each the first cheapest table. |
| BitIO.BitWriter.BsW | deps/bzip2/compress.c:58-78 | bsW appends exactly the low n bits, through the 32-bit buffer. |
| BitIO.BitWriter.FinishWrite | deps/bzip2/compress.c:45-54 | The last bits go out, filled up with zeros. |
| BitIO.BitsOut | deps/bzip2/decompress.c:46-52 | Shift and mask of the 32-bit buffer take the oldest live bits. |
| BitIO.ByteIn | deps/bzip2/decompress.c:55-59 | Shifting a byte in keeps the live bits although the word overflows. |
| Crc.UpdateIsDivision | deps/bzip2/bzlib_private.h:167-172 | The table-driven update is bitwise division by the polynomial 0x04c11db7. |
| CrcDivision.ChecksumIsRemainder | deps/bzip2/bzlib_private.h:157-172 | The checksum of any bytes is the complement of the remainder of one long division by hand: of their bits, the first 32 inverted and 32 zeros behind, by the generator given by its exponents. |
| CrcDivision.CombineBits | deps/bzip2/bzlib.c:830-833 | Every bit of the combined checksum: the one below it before, compared with the block's. |
| EpConditions.CombinedMeansBoth | src/CIL/ep_dependencies_config.cpp:94-123 | CombineConditions means both conditions exactly if one is empty or some pair of clauses does not clash, for lists spelled alike; otherwise the empty result is read as "always". |
| EpMatching.MatchesMeets | src/CIL/ep_dependencies_config.cpp:22-58 | A condition matches exactly if it is empty, or the configuration gives every key of some clause one of its values: a string as it is, a number by its shown text, true and false by name, nothing else; letters compared without regard to case, and all other characters exactly. |
| EpMatching.SameTextIff | src/CIL/ep_dependencies_config.cpp:31-34 | Comparing in lower case: same length, and at every place the same character or the two cases of one of the 26 letters. |
| EpImplication.CombinedExact | src/CIL/ep_dependencies_config.cpp:94-123 | For any two non-empty conditions, with no assumption on spelling or on empty lists: their combination means both exactly if some pair of clauses does not clash and every choice of values that two clauses allow together is allowed by some merged clause. |
| EpImplication.NoPairFits | src/CIL/ep_dependencies_config.cpp:94-123 | When every pair of clauses clashes, however spelled, the combination is empty and holds for a configuration for which not both conditions hold. |
| EpImplication.ImpliesIff | src/CIL/ep_dependencies_config.cpp:22-58 | One condition implies another for all configurations exactly if every choice of values from a clause of the one is allowed by a clause of the other. |
| EpConditions.OneClauseExact | src/CIL/ep_dependencies_config.cpp:99-121 | For one clause each, with no assumption on spelling: both are meant exactly if they do not clash and their common values are spelled alike. |
| EpConditions.CombinedEmptyIff | src/CIL/ep_dependencies_config.cpp:94-123 | The combination of two non-empty conditions is empty exactly if no configuration meets both. |
| EpConditions.SpellingMatters | src/CIL/ep_dependencies_config.cpp:109-117 | "CUDA" and "cuda" match alike but do not intersect: a configuration that meets both conditions for which the combination says otherwise. |
| EpConditions.MergeExact | src/CIL/ep_dependencies_config.cpp:99-121 | Per pair of clauses: merging loses nothing exactly if common values are spelled alike. |
| EpConditions.CombineConditions | src/CIL/ep_dependencies_config.cpp:94-123 | The loops compute all pairs of clauses that do not clash, merged. |
| EpConditions.ParseCondition | src/CIL/ep_dependencies_config.cpp:60-90 | The clauses are those of the items with at least one usable key, in order. A key is in a clause exactly if its field is a string or a list with at least one string, and its values are that string, or the list's strings in order; so there is never an empty list of values. |
| EpDependencies.InheritedExact | src/CIL/ep_dependencies_config.cpp:240-246 | Along a route, with lower-case values: the inherited condition means all conditions on it exactly if some configuration meets them all. |
| EpDependencies.CollectAll | src/CIL/ep_dependencies_config.cpp:192-206 | A search succeeds exactly if no cycle and no missing name can be reached; then it has one file for every file name of every provider reached, the one at the end of the first route, gated by the conditions on it, and the files come in the order of their routes. |
| EpDependencies.Collector.Collect | src/CIL/ep_dependencies_config.cpp:210-261 | The depth-first search with its stack and visited set. |
| EpDependencies.FirstRouteUnique | src/CIL/ep_dependencies_config.cpp:221-239 | There is only one first route to a file name. |
| EpResolution.Config.FromEntries | src/CIL/ep_dependencies_config.cpp:183-209 | Resolving every entry in place, in any order: it succeeds exactly if every provider can be resolved; then every provider has the file names of all it reaches, its own first, and every added file stands for the one meant in the original entries. |
| EpResolution.WhatIsKept | src/CIL/ep_dependencies_config.cpp:127-144 | Filtering the resolved entry keeps an inherited file exactly if some configuration given meets everything on the first route to it; for all configurations, exactly if no combination of the conditions on the way comes out empty. |
| EpResolution.NothingLost | src/CIL/ep_dependencies_config.cpp:221-223 | A file is never kept when no route needs it, and kept whenever some route does exactly if, clause by clause, the conditions on every other route to a file of that name allow no choice of values that those on the first route do not allow. |
| EpResolution.DiamondLoses | src/CIL/ep_dependencies_config.cpp:221-223 | Two routes with different conditions: resolving the four entries succeeds, and a configuration that needs the file by the second route does not get it. |
| EpResolution.RankedResolvable | src/CIL/ep_dependencies_config.cpp:210-219 | Entries whose edges all lead to a provider of higher rank can be resolved. |
| EpResolution.OwnFilesWin | src/CIL/ep_dependencies_config.cpp:146-157 | Under a name a provider lists itself only its own files count. |
| EpResolution.AddExtraFiles | src/CIL/ep_dependencies_config.cpp:146-157 | Own files first and unchanged, then exactly the first of every new name, in order. |
| EpResolution.FilterFiles | src/CIL/ep_dependencies_config.cpp:127-144 | Exactly the files that are unconditional or for which some configuration gives every key of some clause one of its values, in order. |

## Left out

- The file layer (`BZ2_bzRead`, `BZ2_bzWrite` and the rest of the stdio interface) and the two buffer-to-buffer helpers.
- Randomised blocks: the decoder still accepts them, the model stops at them with the code Unsupported; the encoder never
  writes them.
- Allocation, its failures and freeing: the decoder's column arrays have the size for the largest block from the start.
- Progress messages (verbosity), version and error strings, and checks for null pointers and foreign state records.
- Sample.FileStandsForText: leaves the checksum of the text to CrcDivision.ChecksumIsRemainder instead of working it out.
- Calls after an error: a decoder that found its input malformed or a block checksum wrong stays in that error, where the
  source leaves its label and would go on from there. After a run past the end of its block it does go on as in the source.
- The 32-bit totals of bytes in and out and the 32-bit width of the main sort's budget.
- Storage overlaid in the source is separate here: `quadrant` and `zbits` in the second array (`zbits` has exactly the
  bytes behind the block), the header bits in `ftab`, the symbols in the sorted order (copied to halves of words and then
  overwritten there), and the block in `eclass` (overwritten by arbitrary bytes instead).
- `bhtab` is an array of bits whose words are read 32 at a time; bitwise "or" into clear bits is addition, and the mark
  bit 21 of `ftab` is added and removed arithmetically.
- Loops unrolled by four, twelve or eight are plain loops, apart from the packed sums of a group of fifty symbols, which
  are modelled; the fifty unrolled increments and writes are loops.
- The stacks of the quicksorts are one array of records instead of two or three arrays; both quicksorts share the
  partition code.
- `len`, `code`, `rfreq` and `selector` of the encoder are sequences that are replaced; `limit`, `base` and `perm` of the
  decoder are one value per table, made anew for each block.
- The decoder's three places that ask for a symbol (first, after a run digit, after a position) are one place: what
  follows depends on the symbol and the pending run only. The pending run is kept in the two variables at all times.
- DOWNHEAP on a heap that has become empty is skipped, as it does nothing.
- Decompressor.DState.UnRleFast: works on the fields and puts them back where the source drops its copies; keeps its run length at 0 after the last byte of a run, where the source leaves a stale 1 it no longer reads.
- Encoder.EState.AddBlock: the finalised block checksum is not stored back into the builder, which starts a new one anyway.
- HuffmanLengths.MakeCodeLengths: says nothing of limits smaller than `Reachable` asks for, with which the scaling loop need not
  end; from 12 on every limit will do, and the only caller passes 17.
- TableChoice.ChooseTables: says nothing about how close four rounds come to the best choice of tables, which the source does not promise.
- FallbackSort.FallbackSort: its speed, and that of the other sorts, is not modelled beyond termination and the budget.
- Reading and validating the JSON file, and how numbers are printed: a number is the text it is compared by.
- Maps are visited in any order, where `std::map` is in order of keys; the results do not depend on it.
- EpResolution.WhatIsKept: assumes that all value lists are in lower case; without it the spelling of common values would enter every
  route.
- After a failed resolution the entries extended so far stay extended; nothing more is stated of them.

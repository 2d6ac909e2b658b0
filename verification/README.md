# bzip2, CRC-32 and part-file verification

This project models the three algorithmic parts of baulk that everything it
downloads passes through, and proves what they promise.

**The bzip2 compressor and its decoder** (`lib/archive/bzip2`). The compressor is
modelled as the machine its caller drives: run-length coding with a pending run
carried from block to block (`RunBlocks`), sorting of all cyclic rotations
(`BlockSort`: the main sort in `Main*`, from its two-byte radix sort to the
copying of small buckets, and the fallback sort in `Fallback*`), move-to-front
and zero-run coding written over the sorted order in place (`MtfValues`), choice
of coding tables and their code lengths (`CodingTables`, `SendValues`,
`Huffman*`), the 32-bit bit writer (`BitWriters`), and the call-by-call state
machine around them (`Encoders`). The decoder's side is the
reading of a stream (`StreamReader`, `BlockBody`, `SideInfo`, `Codes`,
`MtfCoding`), the two inverse vectors (`BwtVectors`) and the two output-side
decoders (`UnRleFast`, `UnRleSmall`, `BlockDecoding`). The main theorem is
`StreamReader.CompressDecompress`: for every run of the compressor that ends a
stream, decoding what was delivered gives back exactly what was consumed. Its
partner `StreamAccepted.StreamAccepted` says what the reader accepts at all.

**The CRC-32 family** (`lib/archive/crc32.cc`): one definition, bit at a time, and
nine faster forms proved equal to it on every message, length and starting value,
plus `crc32_combine` by squaring matrices over the two-element field. The fast
forms are proved once for any linear shift register (`ShiftRegister`,
`Gf2Matrix`) and instantiated.

**The resumable part file** (`lib/net/file.hpp`): payload, 96-byte trailer, and
the checks of a later run, on a file modelled as bytes and a position, and whole
download sessions on it (`Downloads`).

Conventions. Machine words are sequences of 32 booleans, bytes are integers from 0
to 255 (or eight booleans where bits matter); the aliasing of arrays the
compressor relies on (block bytes over class words, 16-bit values over 32-bit
order, output behind the block) is modelled explicitly in `WordBytes` or as a
bound. Bits or-ed into a clear field are added. Lookup tables are the functions
their generators compute. I/O outcomes, clocks and the caller's buffers are
parameters. Where code and comments disagree the code is followed: see
`SortOrigins.BothSorts` (on one byte repeated the two sorts give different
origins), `SortOrigins.MeaningLost` and `MainLoop.CachedDecided` (when the
quadrants lose their documented meaning) and `PartFile.WrongCount` (a count is
taken from the trailer unchecked; `Downloads.Session` shows that files left by
this program have the right one).

`dafny verify dfyconfig.toml` checks everything.

## Model

| member | source | states |
|---|---|---|
| StreamReader.CompressDecompress | lib/archive/bzip2/bzlib.c:407-464 | Whenever a compressor, after any calls with any slicing of input and output, has reported the end of the stream, reading its whole output back, by a reader that takes its block limit from the header and checks every checksum, gives exactly the bytes it consumed |
| StreamAccepted.StreamAccepted | lib/archive/bzip2/decompress.c:195-260 | The converse: whatever the reader accepts is "BZh", a digit from 1 to 9, blocks within the limit of that digit whose bodies give bytes with the stored checksum, and a trailer with their combined checksum; what it returns is what the blocks give |
| StreamAccepted.BodyAccepted | lib/archive/bzip2/decompress.c:262-356 | A body is accepted only with a byte in use, two to six tables of lengths from 1 to 20, selectors within them, and values up to a single end marker; reading consumes exactly its bits |
| StreamAccepted.BlockAccepted | lib/archive/bzip2/bzlib.c:815-835 | A block is accepted only if its stored checksum is that of its bytes and neither its size nor its origin exceeds what the header allows |
| StreamReader.StreamReads | lib/archive/bzip2/compress.c:602-667 | Header, any blocks, trailer and padding read back as the bytes that went into the blocks; the decoder's running combination of block checksums matches the stored one |
| StreamReader.BlocksRead | lib/archive/bzip2/bzlib.c:825-835 | From any block on, given the combined checksum of the blocks before it, the decoder accumulates exactly what the encoder stored |
| StreamReader.BlockReads | lib/archive/bzip2/compress.c:630-653 | One stored block reads back to the bytes its runs stand for, its checksum agreeing, and reading stops exactly at its end |
| Bzip2Streams.Drive | lib/archive/bzip2/bzlib.c:148-464 | With bzip2's own checksums and from BZ2_bzCompressInit on, for every sequence of calls: once one of them reports the end of the stream, what was delivered reads back as what was taken in, and every later call is a sequence error |
| Encoders.Encoder.constructor | lib/archive/bzip2/bzlib.c:148-211 | A new stream satisfies the invariant, is running, and has consumed, closed and delivered nothing |
| Encoders.Encoder.Compress | lib/archive/bzip2/bzlib.c:407-464 | Every call keeps the invariant, takes a prefix of its input, gives no more than its space; end of stream exactly when the stream becomes idle, with no input left; a completed flush leaves no open run; parameter and sequence errors exactly for the actions, input sizes and idle calls that earn them, and then nothing moves |
| Encoders.Encoder.Handle | lib/archive/bzip2/bzlib.c:360-403 | Terminates for all sizes; conserves consumed plus remaining input; stops only when input is used up, output space is used up, or the finished stream is drained; progress is reported exactly when bytes moved |
| Encoders.Encoder.DrainStep | lib/archive/bzip2/bzlib.c:369-380 | Draining keeps the invariant; it goes on to input only if a run is pending |
| Encoders.Encoder.FillStep | lib/archive/bzip2/bzlib.c:382-398 | Filling keeps the invariant; a block is closed only when it is full, or when a flush or the end of the stream has taken all input |
| Encoders.Encoder.ContinueFlush | lib/archive/bzip2/bzlib.c:442-450 | A flush is over exactly when nothing is open; otherwise it stays under way, and a changed amount of input is a sequence error that moves nothing |
| Encoders.Encoder.ContinueFinish | lib/archive/bzip2/bzlib.c:452-461 | The stream ends only with all input consumed; a sequence error exactly for a changed amount of input or a call that moves nothing, still within the invariant |
| Encoders.Encoder.Leftover | lib/archive/bzip2/bzlib.c:288-329 | Conservation spelled out: consumed grew by exactly the part of the input no longer there |
| Encoders.Encoder.Conservation | lib/archive/bzip2/bzlib.c:215-284 | At every point of every run: consumed = un-RLE of all closed blocks ++ un-RLE of the open block ++ the pending run; the open block's checksum is that of the bytes it decodes to |
| Encoders.Encoder.AtEnd | lib/archive/bzip2/bzlib.c:458-461 | At the end of a stream everything consumed is in closed blocks, and the output is exactly one header, the blocks, one trailer and less than a byte of zeros |
| Encoders.Encoder.BlockFits | lib/archive/bzip2/bzlib.c:176-194 | A block never exceeds 100000k-10 bytes, `inUse` is exactly the set of its bytes, and block plus output fit the array they share |
| Encoders.Encoder.CopyInput | lib/archive/bzip2/bzlib.c:288-329 | Stops only for a full block or for lack of input; a full block always leaves a pending run; at most four bytes over the limit |
| Encoders.Encoder.CopyOutput | lib/archive/bzip2/bzlib.c:333-356 | Delivers the next bytes of the stream until space or bytes run out |
| Encoders.Encoder.CompressBlock | lib/archive/bzip2/compress.c:602-667 | Closing a block appends header (first time only), block and (last time only) trailer to the stream, updates the combined checksum, and what is written fits behind the block |
| Encoders.Encoder.NextBlock | lib/archive/bzip2/bzlib.c:116-126 | A new block starts with the pending run; nothing of the output account is lost |
| Encoders.Encoder.CloseBlock | lib/archive/bzip2/bzlib.c:384-393 | Closing moves the open runs into the closed blocks and leaves exactly the pending run open; no closed block is longer than the header allows, and each is full unless a flush or the end closed it |
| Encoders.Encoder.FirstBytes | lib/archive/bzip2/compress.c:621-627 | The output of a finished stream begins with the bytes 42, 5A, 68 and 30 plus the level |
| Encoders.DecodedIs | lib/archive/bzip2/bzlib.c:215-284 | What closed blocks decode to is what went into them |
| Encoders.OutClose | lib/archive/bzip2/compress.c:621-653 | The stream account after closing a block |
| Encoders.OutFinish | lib/archive/bzip2/compress.c:656-666 | The stream account after the trailer |
| StreamFormat.Summing.EmittedMore | lib/archive/bzip2/compress.c:621-666 | How one more block extends the stream, with the header exactly once |
| Rle.RoundTrip | lib/archive/bzip2/bzlib.c:215-284 | A block written as runs, neighbours sharing a byte only after a run of 255, decodes to exactly those runs and never breaks off |
| Rle.FirstRun | lib/archive/bzip2/bzlib.c:224-246 | A run followed by anything that does not extend it is read with its own length, and reading goes on right after it |
| RunBlocks.RunBlock.AddChar | lib/archive/bzip2/bzlib.c:260-284 | The runs stand for one byte more, a run is always pending afterwards, and the block grows by at most five bytes |
| RunBlocks.RunBlock.AddPair | lib/archive/bzip2/bzlib.c:216-247 | The pending run is written as bytes; contents, checksum and `inUse` stay exact |
| RunBlocks.RunBlock.Flush | lib/archive/bzip2/bzlib.c:252-256 | All runs are in the block, none is pending |
| RunBlocks.RunBlock.Prepare | lib/archive/bzip2/bzlib.c:116-126 | An empty block that keeps the pending run |
| RunBlocks.BuiltMore | lib/archive/bzip2/bzlib.c:216-247 | Writing one run keeps contents, checksum and used bytes those of the runs |
| RunBlocks.UsingIs | lib/archive/bzip2/bzlib.c:223-238 | The used-byte marks stay exactly the set of bytes in the block |
| UnRleFast.FastDecoder.Drain | lib/archive/bzip2/bzlib.c:592-680 | Delivers exactly the prefix of the block's bytes that fits the space offered so far; reports corruption only for a block that breaks off, and then whenever space is left over; checksum of what was delivered |
| UnRleFast.FastDecoder.Get | lib/archive/bzip2/bzlib_private.h:451-456 | The n-th fetch yields byte n of the block, wrapping around |
| UnRleFast.FastDecoder.NextRun | lib/archive/bzip2/bzlib.c:632-655 | Reads one run as the format defines it, in this decoder's order of tests |
| UnRleSmall.SmallDecoder.Drain | lib/archive/bzip2/bzlib.c:757-801 | The same contract as the fast decoder |
| UnRleSmall.SmallDecoder.Get | lib/archive/bzip2/bzlib_private.h:475-479 | The n-th fetch yields byte n of the block, by bisection and links |
| UnRleSmall.SmallDecoder.NextRun | lib/archive/bzip2/bzlib.c:778-798 | Reads one run as the format defines it |
| UnRleSmall.IndexIntoF | lib/archive/bzip2/bzlib.c:687-698 | Bisection finds the byte whose bucket holds the place |
| UnRleSmall.SortedColumn | lib/archive/bzip2/bzlib_private.h:475-479 | The byte of that bucket is the one the successor vector leads to |
| UnRleSmall.BuildSmall | lib/archive/bzip2/decompress.c:532-553 | After building the inverse vector and reversing pointers, the links follow the walk from the origin |
| BothDecoders.SameOutput | lib/archive/bzip2/bzlib.c:535-804 | For every schedule of output space the two decoders have delivered the same prefix of the same bytes, with the same checksum |
| BlockDecoding.DecodeFast | lib/archive/bzip2/decompress.c:500-582 | From the last column of a body the compressor wrote for some runs: counting, building the fast vector and draining it into any sequence of output spaces delivers exactly the beginning of the runs' bytes that fits, with its checksum and no error |
| BlockDecoding.DecodeSmall | lib/archive/bzip2/decompress.c:500-563 | The same through the inverse vector, pointer reversal and the small decoder |
| BlockDecoding.BucketStarts | lib/archive/bzip2/decompress.c:506-509 | The table of bucket starts from the byte counts |
| BlockMeaning.LastIs | lib/archive/bzip2/decompress.c:376-490 | A body holds the last column of the block it means |
| Delivery.PrefixMore | lib/archive/bzip2/bzlib.c:535-804 | Deliveries add up: after any sequence of offers, exactly what fits in their sum |
| BwtVectors.BuildFast | lib/archive/bzip2/decompress.c:566-572 | The fast vector holds byte and successor of every row |
| BwtVectors.BuildInverse | lib/archive/bzip2/decompress.c:534-542 | Row i links to where a stable sort puts byte i |
| BwtVectors.ReverseCycle | lib/archive/bzip2/decompress.c:544-553 | Terminates, and turns the links along the cycle through the origin into successors |
| BwtVectors.SetLL | lib/archive/bzip2/bzlib_private.h:458-473 | Writing a 20-bit link changes that link and no other |
| BwtVectors.CycleReversed | lib/archive/bzip2/decompress.c:544-553 | Every row of the walk is on the reversed cycle |
| Bwt.WalkReadsBlock | lib/archive/bzip2/decompress.c:556-582 | For every sorted order, ties included, walking the successors from the origin reads the block over and over |
| Bwt.NextRotation | lib/archive/bzip2/decompress.c:566-572 | One step goes to a rotation equal to the next one along |
| Bwt.LastColumnUnique | lib/archive/bzip2/blocksort.c:1056-1059 | The transformed block does not depend on which sort produced the order |
| Bwt.OriginDetermined | lib/archive/bzip2/blocksort.c:1056-1083 | Any two sorted orders must have the block itself in the same place exactly when it differs from all its other rotations |
| SortOrigins.BothSorts | lib/archive/bzip2/blocksort.c:1056-1088 | Running both sorts on one block: if the main sort is not abandoned the transformed blocks are the same, and for a block that differs from its other rotations so are the origins; for one byte repeated the main sort is never abandoned and leaves origin 0 where fallbackSort leaves n-1, so the comment that the stream does not depend on the sort is false there |
| Bwt.SortedAgree | lib/archive/bzip2/blocksort.c:199-201 | Any two sorted orders agree place by place up to equal rotations |
| FallbackSort.Sort | lib/archive/bzip2/blocksort.c:211-329 | For every non-empty block the order is a permutation listing all rotations in non-decreasing order, and the block bytes are back in place; one repeated byte comes out in reverse |
| FallbackSort.Pass | lib/archive/bzip2/blocksort.c:266-312 | One doubling round turns order by H bytes, with header bits at exactly the class starts, into order by 2H bytes |
| FallbackSort.Round | lib/archive/bzip2/blocksort.c:273-306 | Every non-singleton bucket is sorted by class and its header bits refined; the others are untouched |
| FallbackSort.AssignClasses | lib/archive/bzip2/blocksort.c:266-271 | Every rotation gets the class of the rotation H places on |
| FallbackSort.FindBucket | lib/archive/bzip2/blocksort.c:277-292 | The bit scans find the next bucket with more than one entry, or the end |
| FallbackSort.MarkHeaders | lib/archive/bzip2/blocksort.c:299-304 | Header bits at exactly the places where the class changes |
| FallbackSort.FirstPass | lib/archive/bzip2/blocksort.c:225-257 | After the one-byte radix sort: order by one byte, header bits at bucket starts, sentinels set |
| FallbackRounds.Doubling | lib/archive/bzip2/blocksort.c:266-271 | Comparing 2H bytes is comparing ranks, then the ranks H places on |
| FallbackRounds.RoundDoubles | lib/archive/bzip2/blocksort.c:261-313 | A refined order by ranks and classes is an order by 2H bytes |
| FallbackRounds.RoundsSuffice | lib/archive/bzip2/blocksort.c:311-313 | Order by at least n bytes, or all classes single, is the order of whole rotations |
| RadixSort.Distribute | lib/archive/bzip2/blocksort.c:236-241 | Every position lands in its bucket, later positions first; the table ends as bucket starts |
| RadixSort.Rebuild | lib/archive/bzip2/blocksort.c:322-327 | The block is rebuilt from sorted order and byte counts, over the words it shares |
| FallbackStack.QSort3 | lib/archive/bzip2/blocksort.c:92-180 | Sorts the range by class, only permutes it, and the stack of 100 never overflows for any 32-bit range |
| FallbackStack.Shallow | lib/archive/bzip2/blocksort.c:109-111 | A range worth splitting sits at most 28 slots up, since slot i holds at most a 2^i-th of all entries |
| FallbackStack.Replaced | lib/archive/bzip2/blocksort.c:172-178 | Splitting one pending range keeps everything sorted except for pending ranges |
| FallbackPartition.Partition | lib/archive/bzip2/blocksort.c:132-170 | Three-way partition: smaller, equal, greater; a permutation of the range |
| FallbackQSort.SimpleSort | lib/archive/bzip2/blocksort.c:30-59 | Sorts a short range in place and permutes nothing else |
| FallbackQSort.Insert | lib/archive/bzip2/blocksort.c:43-58 | One gapped insertion is a rearrangement; with gap one it extends the sorted range |
| MainCompare.GtU | lib/archive/bzip2/blocksort.c:345-469 | With quadrants as documented: true exactly when the first rotation is strictly greater; with quadrants that merely contradict no order: never wrong. Reads only the block and its 34 overshoot bytes, and takes one from the budget for exactly every eight places after the first twelve that agree |
| MainCompare.ByQuadrants | lib/archive/bzip2/blocksort.c:410-422 | Deciding by quadrants after equal bytes is right |
| MainQuadrants.UpdateQuadrants | lib/archive/bzip2/blocksort.c:987-1004 | Caching the places of a sorted bucket, scaled to 16 bits, contradicts no order, overshoot area included; from quadrants with the documented meaning it keeps that meaning exactly if the bucket is empty or its scale is a multiple of the number of equal rotations |
| MainQuadrants.LevelAfter | lib/archive/bzip2/blocksort.c:987-1003 | Equal rotations of the bucket share a quadrant after the update exactly if the bucket is empty or the number of equal rotations divides its scale; other buckets are as before |
| MainQuadrants.SmallSteady | lib/archive/bzip2/blocksort.c:992-994 | For a bucket of 1 to 65534 entries that condition says the block has no equal rotations |
| MainRepeats.GroupStart | lib/archive/bzip2/blocksort.c:987-1003 | In a sorted bucket equal rotations come in groups that begin exactly at the multiples of how often the block repeats itself |
| MainRepeats.EquallyMany | lib/archive/bzip2/blocksort.c:964-986 | Every rotation has as many equals as the block itself |
| MainLoop.CachedDecided | lib/archive/bzip2/blocksort.c:964-986 | At every point of the loop the quadrants mean what the comment says exactly if all buckets cached so far meet the condition; always, for a block that differs from its other rotations |
| SortOrigins.MeaningLost | lib/archive/bzip2/blocksort.c:964-1004 | The main sort on u ++ u, where one byte occurs once in u and all others more often, ends with quadrants that do not mean what the comment says |
| MainSimpleSort.SimpleSort | lib/archive/bzip2/blocksort.c:484-555 | Always a rearrangement of the range; sorted, for entries that agree on their first d bytes, unless the budget is exhausted |
| MainSimpleSort.InsertBack | lib/archive/bzip2/blocksort.c:510-522 | One insertion with gap h; with gap one it extends the sorted range |
| MainSimpleSort.VerdictRanks | lib/archive/bzip2/blocksort.c:514-516 | A comparison d bytes on orders entries that agree on d bytes |
| MainQSort3.QSort3 | lib/archive/bzip2/blocksort.c:620-717 | Always a rearrangement; sorted unless the budget is exhausted; depth never exceeds 15, so no comparison reads beyond the overshoot; the stack of 100 never overflows |
| MainQSort3.FrameShallow | lib/archive/bzip2/blocksort.c:644-646 | A range worth splitting sits at most 54 slots up, since each slot holds at most two thirds of the one below |
| MainQSort3.SplitFrame | lib/archive/bzip2/blocksort.c:656-711 | Partition by the byte at depth d: three parts, the middle one byte deeper, the largest first; or the whole range one byte deeper |
| MainQSort3.KeyParted | lib/archive/bzip2/blocksort.c:696-704 | Parts by key are in order among each other and share their first bytes |
| MainQSort3.Median | lib/archive/bzip2/blocksort.c:581-592 | The median of three bytes |
| MainSimpleSort.RankOf | lib/archive/bzip2/blocksort.c:345-469 | Every block has ranks that mirror the order of its rotations |
| BlockSort.SortBlock | lib/archive/bzip2/blocksort.c:1031-1081 | For every block of up to 900000 bytes and every work factor the rotations end up sorted, whichever sort did it; one repeated byte in reverse below 10000 bytes, in its own order from there on |
| BlockSort.Sort | lib/archive/bzip2/blocksort.c:751-1011 | mainSort: if the budget lasts, all rotations are in order, and the quadrants end with their documented meaning exactly if every byte but a most frequent one meets the condition of the quadrant update; the block is unchanged; one repeated byte costs nothing and stays in its own order |
| MainLoop.AllBuckets | lib/archive/bzip2/blocksort.c:868-1006 | Taking the big buckets in any order, each once, sorts all rotations unless the budget runs out; the quadrants stay consistent throughout and are spoiled exactly by the buckets that can |
| MainLoop.BigBucket | lib/archive/bzip2/blocksort.c:876-1004 | One big bucket: sorted, scanned, marked and cached; a bucket of two entries takes at most one comparison from the budget |
| MainSort.Sweep | lib/archive/bzip2/blocksort.c:918-944 | Scanning a sorted big bucket from both ends puts every small bucket [t, ss] not yet done in order, [ss, ss] included, and moves nothing else; the marks meet, or one byte fills the block |
| MainCopied.EntriesOrdered | lib/archive/bzip2/blocksort.c:923-934 | Two entries copied into a small bucket, from the same end or from both, are different and in order |
| MainCopied.FilledExactly | lib/archive/bzip2/blocksort.c:937-944 | The two scans together fill every small bucket exactly |
| MainScan.ScanComplete | lib/archive/bzip2/blocksort.c:923-928 | The scan, which reads entries it writes itself, reaches every rotation of the big bucket on its side |
| MainRadix.DropPairs | lib/archive/bzip2/blocksort.c:802-830 | The two-byte radix sort is stable and leaves the table holding bucket starts |
| MainOrder.RunningOrder | lib/archive/bzip2/blocksort.c:837-860 | The shell sort lists the 256 big buckets once each, smallest first |
| CompressBlock.FindOrigin | lib/archive/bzip2/blocksort.c:1082-1088 | Finds the place of the block itself |
| MtfValues.Generator.Generate | lib/archive/bzip2/compress.c:119-231 | The MTF values decode to the ranks of the last column, end with the only end marker, number at most nblock+1, are counted exactly, and overwrite no part of the order before it is read |
| MtfValues.Generator.FlushRun | lib/archive/bzip2/compress.c:174-188 | A zero run is written as digits 0 and 1 that add up to its length, the sum of (digit + 1) * 2^j, over the order, without overtaking the reader |
| MtfValues.Generator.MoveToFront | lib/archive/bzip2/compress.c:189-205 | The shift loop terminates and is move-to-front |
| MtfValues.Generator.Emit | lib/archive/bzip2/compress.c:206-206 | A 16-bit value is stored and counted; words further on are untouched |
| MtfCoding.DigitsRead | lib/archive/bzip2/decompress.c:383-404 | The decoder reads digits s_0..s_k as a run of the sum of (s_j + 1) * 2^j, and accepts up to 21 of them |
| MtfCoding.RunDigit | lib/archive/bzip2/compress.c:176-186 | Each digit keeps what the decoder still lacks; weights stay below the decoder's limit |
| MtfCoding.StepMoves | lib/archive/bzip2/compress.c:189-207 | After a place value the decoder has the next byte and the same list |
| UsedBytes.MakeMaps | lib/archive/bzip2/compress.c:106-115 | Used bytes are numbered in order |
| UsedBytes.ListedRank | lib/archive/bzip2/decompress.c:26-36 | The decoder's map undoes the numbering |
| BlockMeaning.Decodes | lib/archive/bzip2/decompress.c:376-490 | A body decodes to the block it was made from |
| BlockMeaning.UntransformIs | lib/archive/bzip2/decompress.c:499-582 | Undoing the transform gives the block back |
| SideInfo.MapReads | lib/archive/bzip2/compress.c:494-511 | The used-byte map reads back |
| SideInfo.UnariesRead | lib/archive/bzip2/compress.c:521-524 | Unary selectors read back |
| SideInfo.TableReads | lib/archive/bzip2/compress.c:531-539 | Delta-coded lengths read back |
| SideInfo.TablesRead | lib/archive/bzip2/compress.c:531-539 | All tables read back one after the other |
| BlockBody.BodyReads | lib/archive/bzip2/compress.c:494-594 | A whole body reads back uniquely, and reading stops at its end |
| BlockBody.DataReads | lib/archive/bzip2/compress.c:544-593 | The coded values read back group by group |
| SendBits.WriteMap | lib/archive/bzip2/compress.c:494-511 | Writes exactly the used-byte map |
| SendBits.WriteSelectors | lib/archive/bzip2/compress.c:517-524 | Writes exactly group count, selector count and unary selectors |
| SendBits.WriteTables | lib/archive/bzip2/compress.c:528-539 | Writes exactly the delta-coded tables |
| SendBits.WriteData | lib/archive/bzip2/compress.c:544-593 | Writes exactly the codes of all values |
| SendBlock.SendBody | lib/archive/bzip2/compress.c:238-598 | The bits written are a well-formed body of exactly these values, with code lengths from 1 to 17, one selector for every fifty, and the tables and selectors that four rounds choose |
| SendBlock.ChooseTables | lib/archive/bzip2/compress.c:271-452 | From the first guess, with two to six tables by the number of values, exactly four rounds: in each every group of fifty picks its cheapest table and every table becomes a cheapest code for the values of the groups that picked it; the selectors are those of the last round |
| SendBlock.Improve | lib/archive/bzip2/compress.c:323-452 | One such round |
| SendBlock.FrequenciesSum | lib/archive/bzip2/compress.c:279-285 | Symbol frequencies add up to the number of values |
| SendValues.Pass | lib/archive/bzip2/compress.c:342-435 | Every group gets its cheapest table, and every table's uses are counted exactly |
| SendValues.SelectorPlaces | lib/archive/bzip2/compress.c:461-478 | Undoing the move-to-front of the places gives the selectors back |
| SendValues.SelectorsFit | lib/archive/bzip2/compress.c:456-458 | The largest block has at most 18002 groups |
| CodingTables.InitialTables | lib/archive/bzip2/compress.c:279-317 | The first guess divides the whole alphabet into ranges, that of the last table first: a table costs 0 for the symbols of its range and 15 for all others, and each range is the shortest with an equal part of the frequency left, every second one less its last symbol |
| CodingTables.RangeEnd | lib/archive/bzip2/compress.c:287-300 | A range is the shortest that reaches the frequency aimed at, less its last symbol where the source steps back; the last range takes all that is left |
| CodingTables.PackedCost | lib/archive/bzip2/compress.c:358-385 | Sums of fifty packed lengths never carry across 16 bits |
| CodingTables.BestTable | lib/archive/bzip2/compress.c:356-401 | Fast and slow way pick the same table: the first of the cheapest |
| HuffmanLengths.MakeCodeLengths | lib/archive/bzip2/huffman.c:62-148 | Terminates, rescaling included, and gives every symbol a length from 1 to 17 that satisfies the Kraft inequality; no lengths that satisfy it cost less for the frequencies, zeros counted as one, rescaled k times, and for each of the k before a cheapest code had more than 17 bits |
| HuffmanCheap.TreeOptimal | lib/archive/bzip2/huffman.c:100-121 | The depths in the finished tree cost no more than any lengths that satisfy the Kraft inequality |
| HuffmanCheap.JoinCheap | lib/archive/bzip2/huffman.c:100-110 | Joining the two lightest keeps: whatever other lengths the leaves had, the trees so far and some lengths for their roots cost no more |
| HuffmanCost.Reduce | lib/archive/bzip2/huffman.c:100-106 | From any lengths that satisfy the Kraft inequality come lengths for the entries with the two lightest joined that do, and that cost less by at least the weight of the two |
| HuffmanCost.Shorten | lib/archive/bzip2/huffman.c:100-121 | If a single entry is longest, it can be one shorter without breaking the Kraft inequality |
| HuffmanCost.LightestDeepest | lib/archive/bzip2/huffman.c:100-106 | Some lengths that cost no more make the two lightest entries the longest |
| HuffmanLengths.TooLongIsHeavy | lib/archive/bzip2/huffman.c:114-146 | A code longer than 17 bits takes more total weight than twice the alphabet, which is why rescaling ends |
| HuffmanLengths.TreeIsKraft | lib/archive/bzip2/huffman.c:100-121 | Depths in the finished tree satisfy the Kraft inequality |
| HuffmanForest.JoinTall | lib/archive/bzip2/huffman.c:100-106 | Joining the two lightest trees keeps every tree at least as heavy as a Fibonacci number of its height |
| HuffmanLengths.JoinTwo | lib/archive/bzip2/huffman.c:100-110 | Joining the two lightest roots keeps the heap, the forest and its weights |
| HuffmanHeap.DownHeap | lib/archive/bzip2/huffman.c:44-59 | The top of the heap sinks to its place; the heap is a rearrangement, in order again |
| Codes.AssignCodes | lib/archive/bzip2/huffman.c:152-166 | Every symbol gets its canonical code |
| Codes.PrefixFree | lib/archive/bzip2/huffman.c:152-166 | No code is the beginning of another |
| Codes.FitIffKraft | lib/archive/bzip2/huffman.c:152-166 | All codes fit their lengths exactly when the Kraft inequality holds |
| Codes.SymbolReads | lib/archive/bzip2/decompress.c:73-102 | The decoder's bit-by-bit search finds the symbol |
| CompressBlock.WriteBody | lib/archive/bzip2/compress.c:648-652 | For a sorted block: what is written is a body that decodes to the block, within the length limit |
| CompressBlock.CodeBlock | lib/archive/bzip2/blocksort.c:1031-1089 | Sorting, by whichever sort size and work factor choose, and coding gives a body that decodes to the block |
| Capacity.BodyLength | lib/archive/bzip2/compress.c:494-594 | No body is longer than its limit |
| Capacity.BlockFits | lib/archive/bzip2/compress.c:619-619 | Everything written for a block fits behind it |
| BitWriters.BitWriter.W | lib/archive/bzip2/compress.c:71-78 | Appends exactly the n low bits of v, most significant first, for n up to 24 |
| BitWriters.BitWriter.Need | lib/archive/bzip2/compress.c:58-67 | Whole bytes go out; the bit string is unchanged |
| BitWriters.BitWriter.FinishWrite | lib/archive/bzip2/compress.c:45-54 | Fills up the last byte with zeros and leaves nothing behind |
| BitWriters.BitWriter.PutUInt32 | lib/archive/bzip2/compress.c:82-89 | Appends the 32 bits of a word |
| BitStream.OrIn | lib/archive/bzip2/compress.c:76-76 | Or-ing shifted bits below the live ones appends them |
| BitStream.LowNumber | lib/archive/bzip2/compress.c:71-78 | Bits written read back as the number |
| BzMirror.CrcMirrored | lib/archive/bzip2/bzlib_private.h:160-172 | A block's checksum with its bits in reverse is the CRC-32 of RFC 1952 of the bytes with their bits in reverse |
| BzMirror.UpdateMirrored | lib/archive/bzip2/bzlib_private.h:167-172 | One table lookup, mirrored, is one byte fed to the reflected register |
| BzMirror.PolynomialMirrored | lib/archive/bzip2/crctable.c:32-35 | Bit i of the polynomial the table is built from is bit 31 - i of the reflected one |
| BzCombined.CombinedBits | lib/archive/bzip2/compress.c:606-608 | Bit k of the combined checksum is the parity, over the non-empty blocks, of bit k - d of the block's checksum, d being the number of non-empty blocks after it |
| BzCrc.UpdateIsEightSteps | lib/archive/bzip2/bzlib_private.h:167-172 | One table lookup is eight single-bit steps, most significant bit first |
| Crc32.Bitwise | lib/archive/crc32.cc:99-119 | Equals the defining bit-at-a-time register for every message and starting value |
| Crc32.HalfByte | lib/archive/crc32.cc:122-138 | Equals the definition for every message and starting value |
| Crc32.OneByte | lib/archive/crc32.cc:142-150 | Equals the definition |
| Crc32Tableless.Tableless | lib/archive/crc32.cc:154-196 | Equals the definition, multiplication trick included |
| Crc32Tableless.Tableless2 | lib/archive/crc32.cc:199-216 | Equals the definition |
| Crc32.FourBytes | lib/archive/crc32.cc:220-245 | Equals the definition for every length and remainder |
| Crc32.EightBytes | lib/archive/crc32.cc:250-279 | Equals the definition |
| Crc32.FourTimesEightBytes | lib/archive/crc32.cc:282-317 | Equals the definition |
| Crc32.SixteenBytes | lib/archive/crc32.cc:322-366 | Equals the definition |
| Crc32.SixteenBytesPrefetch | lib/archive/crc32.cc:369-418 | Equals the definition for every prefetch distance |
| ShiftRegister.Register.LookupIs | lib/archive/crc32.cc:539-551 | Slice k of the table, built by the recurrence, is the index pushed through 8k+8 steps |
| ShiftRegister.Register.FourLookupsAre | lib/archive/crc32.cc:226-234 | Four lookups carry a word through 32 steps and more |
| Crc32Spec.CrcConcat | lib/archive/crc32.cc:99-119 | Resuming from a checksum covers the concatenation |
| Crc32Spec.CrcLaws | lib/archive/crc32.cc:104-115 | The register is linear and shifts, which is all the fast forms need |
| Crc32Combine.Combine | lib/archive/crc32.cc:437-531 | Pushes the first checksum through 8n zero bits and adds the second |
| Crc32Combine.CombineConcat | lib/archive/crc32.cc:437-531 | crc32_combine(crc(A), crc(B), |B|) = crc(A ++ B) for all A, B |
| Crc32Combine.ConcatIsSum | lib/archive/crc32.cc:441-456 | The checksum of a concatenation is that sum |
| Gf2Matrix.BitSpace.ApplyBytes | lib/archive/crc32.cc:499-527 | The matrices are the operators for 8*2^k zero bits, applied for exactly the binary digits of the length |
| Gf2Matrix.BitSpace.MatrixSquare | lib/archive/crc32.cc:504-511 | Squaring an operator's matrix gives the matrix of twice as many steps |
| Gf2Matrix.BitSpace.MatrixTimes | lib/archive/crc32.cc:515-520 | Multiplying by a matrix applies its operator |
| Crc32.Summator.Update | include/baulk/archive/crc32.hpp:11-16 | The state is the checksum of all chunks so far |
| Crc32.Summator.Valid | include/baulk/archive/crc32.hpp:17-22 | Accepts exactly when there is no target or the whole stream's checksum equals it |
| PartFile.SavedThenOpened | lib/net/file.hpp:161-314 | A saved file reopens with exactly its payload and count for every hash text of the same meaning, and starts over for every other text |
| PartFile.ResumedIff | lib/net/file.hpp:255-313 | A file resumes exactly if it is a payload and a trailer for the hash the text stands for; what comes back is what the trailer says |
| PartFile.WrongCount | lib/net/file.hpp:299-313 | A file whose trailer gives another size resumes with that size: the count is not compared with the payload |
| PartFile.TornSave | lib/net/file.hpp:187-191 | A trailer cut short resumes only if the payload has the magic in its last 96 bytes, and then with what precedes it |
| Downloads.Session | lib/net/client.cc:239-352 | One download session on a part file left by earlier ones: the server is asked to go on from exactly the size of what is there; the state is saved exactly if the transfer broke off and can be resumed, with all that was kept and received and the right count and total; a file is finished exactly if the transfer went ahead, all of a known total was announced and renaming worked, and then has that total if every chunk was read and written |
| Downloads.Sessions | lib/net/client.cc:239-352 | The same over any number of sessions with any outcomes |
| Downloads.Transfer | lib/net/client.cc:285-352 | The transfer after the answer: what is on disk afterwards, saved, finished or gone |
| Downloads.BreakOff | lib/net/client.cc:307-347 | A broken transfer is saved exactly if the server and the hash text allow it, every announced byte was read and written, and seek and write work; otherwise the file is deleted |
| Downloads.Receive | lib/net/client.cc:320-340 | The file grows by no more than was announced, and by that much exactly if every chunk was read and written whole |
| PartFile.MakeFilePart | lib/net/file.hpp:239-314 | File and object are as the trailer check decides, positioned at the end of the payload, or as for a fresh start if the trailer cannot be read; no object, and the file unchanged, exactly if a non-empty file cannot be cut |
| PartFile.FilePart.SaveOverlayData | lib/net/file.hpp:161-195 | Succeeds exactly if nothing was saved before, sizes agree, the hash text is valid and seek and write work; then the file is payload ++ trailer with the payload's size, and is kept on close; otherwise at most a proper part of the trailer was added |
| PartFile.FilePart.WriteFull | lib/net/file.hpp:198-211 | After any sequence of partial writes the file is overwritten by exactly the part written; succeeds exactly if the calls write everything before one fails |
| PartFile.FilePart.Truncated | lib/net/file.hpp:153-160 | Back to an empty file and zero counts, or nothing changed |
| PartFile.FilePart.Solidified | lib/net/file.hpp:213-237 | The part file becomes the finished file, or nothing changed |
| PartFile.FilePart.Close | lib/net/file.hpp:323-330 | An open file is deleted unless its state was saved |
| Overlay.RoundTrip | lib/net/file.hpp:29-37 | The 96-byte trailer decodes to the record it encodes |
| Overlay.RoundBack | lib/net/file.hpp:29-37 | Every 96 bytes are the encoding of the record they decode to |
| Overlay.Layout | lib/net/file.hpp:29-37 | Where every field of the trailer is, the low byte of each number first, negative numbers in two's complement |
| HashText.Construct | lib/net/file.hpp:58-86 | Method and bytes a hash text stands for, or an error |
| HashText.HashDecode | include/baulk/net/types.hpp:88-99 | Hex pairs into the buffer; odd and surplus digits ignored |
| HashText.PlainMeaning | lib/net/file.hpp:59-61 | A text without a colon means a hash exactly if it is hex digits of either case, pair by pair, and then a SHA256 hash padded with zeros |
| HashText.NamedMeaning | lib/net/file.hpp:45-85 | A name, a colon and digits mean a hash exactly if the name is one of the ten, each letter in either case, with that name's method number and size, and the digits are hex digits of either case |
| HashText.TableIs | lib/net/file.hpp:45-73 | The table lookup finds exactly the ten names |

## Left out

- `BlockSort.Sort` and `BlockSort.SortBlock` give block, quadrants and words arrays of their own; that the source lays the quadrants out behind the block in one allocation is not modelled.
- `HuffmanLengths.MakeCodeLengths`: the alphabet has at least two symbols and the frequencies, zeros counted as one, add up to at most a million, as at every call, so that no 24-bit weight overflows; the limit of 17 bits is the one the compressor passes.
- `BZ2_hbCreateDecodeTables` and the two-level move-to-front array of the decoder: the decoder is modelled by the search and the list they speed up; its suspension in the middle of a block header is not modelled.
- Blocks marked as randomised, in both decoders: legacy, never written.
- `UnRleFast.FastDecoder.Drain`: when corruption is reported the source returns without saving its local copies of the fields; the model leaves them changed, and promises nothing about a later call.
- The bound test on `tPos` in the fetch macros: on a vector built from a block it never fires.
- `BitWriters.BitWriter.W`: v must fit n bits, as at every call; a larger v would overwrite earlier bits.
- `Encoders.Encoder.constructor`: parameter errors, null streams and failed allocations of `BZ2_bzCompressInit` are not modelled, nor the null checks of `BZ2_bzCompress`.
- The 32-bit halves of the byte totals, verbosity output, and the stdio layer of bzlib.c.
- After a flush up to 31 bits stay in the bit buffer, as in the source; what a flush guarantees is stated for the blocks, not for a decoder of the bytes delivered so far.
- `MainCompare.GtU`, `MainSimpleSort.SimpleSort` and `MainQSort3.QSort3` take blocks of at least 34 bytes, the length of the overshoot area; the main sort is only called from 10000 bytes on.
- `BlockSort.SortBlock`: which of the two sorts produced the order for a block of 10000 bytes or more, and so the budget computed from the work factor, is not in the contract: for blocks that differ from their other rotations the outcome is the same.
- `SortOrigins.BothSorts`: for blocks that repeat a shorter one, other than a single byte, it does not say whether the origins differ.
- Big-endian branches and prefetch instructions of crc32.cc: no effect on the result.
- `Downloads.Session`: requests, redirects, the progress bar and the handle leaked when truncation fails are not modelled; file sizes and lengths stay below 2^63.
- File renaming, sharing modes and error codes of the part file.
- zlib, xz, zstd, brotli, Ppmd, archive readers, network and user-interface code: foreign or without algorithmic depth of their own.

# Verified models of the loader's vendored and native algorithms

This project models, in Dafny 4.11, the parts of the repository whose correctness rests on dense
algorithms, and proves what their documentation and standards promise: the DEFLATE coder and
decoder, the hash table, the option scanner, the region machinery and the callback scheduler of
dearxan, the ZIP name index, the trampoline slot allocator, and the Adler-32 checksum.
`dafny verify dfyconfig.toml` checks everything.

## How the modules fit together

**DEFLATE (RFC 1951).** `Bits` has bit strings in stream order, `CanonicalCode` the codes that a
vector of sizes assigns (section 3.2.2). `DeflateStream` says which bits a sequence of blocks is (`Message`)
and which bytes it stands for (`Played`).

`DeflateLists` ties the numbers that coder and decoder share to the lists of the RFC, and `KnownStreams` reads three streams
byte by byte.

The coder's tables come from `RadixSort`, `HuffmanPlan` and `WeightedLengths` (the theory of greedy merging),
`MinimumRedundancy` (the in-place routine), `CodeSizeLimit`, `CodeCost` (what the limit costs) and `HuffmanTable`.
`HashChains` says where the chains lead, `MatchSearch` what a search along them has to find, and `LazyParse` what the parser
makes of the input, as a sequence of decisions. `LzWindow` is the ring with its mirror and its chains, `LzBuffer` the packed
code buffer. `CodeSizeRle`, `BlockHeader`,
`BlockWriter` and `BitWriter` write a block, `BlockSize` bounds it, `BlockFlush` chooses its form, and `Compressor` is the
lazy parser. What the coder records is tied to ghost token sequences: `Packed` for the code buffer, `Expand` for their
meaning, `Decided` for the decisions they come from, `CutUp` for the blocks they are written in.

`InflateSpec` reads a stream bit by bit, with no tables, buffers or fast paths; it is defined for every string of bits,
also for those that begin with no code word.
`InflateTables`, `HuffmanDecode`, `BlockReader`, `BodyReader`, `OutputBuffer` and `Inflate` are the decoder, each method
proved to do what that reading says, for every input. `HeaderMeaning` and `StreamMeaning` show that the reading makes of
the bits of valid blocks what the blocks stand for, and `RoundTrip` puts both halves together.

Coder and decoder are methods over arrays and class fields in the order of the source.

**Hash table.** `ProbePath` is the number theory of triangular probing, `KHash` the table with its
tombstones and kick-out rehash, refined to a finite map over any run of operations.

**Option scanner.** `PermuteArgs` is the cycle exchange, `Getopt` the scanner; `Split` sorts words out as if
nothing were ever moved, and the scanner is proved to arrive there by its exchanges. `WrittenOptions` states the law for the
user: options and operands written in any of the allowed ways are reported as what they are.

**dearxan.** `RegionTable` (variable-length numbers and region tables), `TeaCipher`, `TeaRegions` (the lazily
decrypting reader), `StreamDecrypt` (all three ciphers over whole streams), `RegionSweep` (conflicts between
region lists), `VisitedMap` (the analyser's visited addresses), `Scheduler`, `SchedulerCalls` and `NeuterOnce` (state machines
whose steps are the critical sections, over any number of threads; what a call means for its caller).

**ZIP name index.** `ZipIndex`: heap sort, binary search and scan over the central directory's bytes.

**Slot allocator.** `FreeRegion` and `SlotAllocator`: addresses and memory words are explicit, so that free
lists live in the slots themselves and owners may overwrite them.

**Checksum.** `Adler32`.

`Optional` holds the one option type.

## Findings

Where the code does not do what one might expect, or does more than it says:

- The option scanner stops dead at a "-" at the end of a cluster of letters (`-a-`) when "-" is no option letter and it
  was given no long options; with long options, as in launcher.c:127, every scan ends in order (`EndsInOrder`). If an
  operand was passed before it stopped, the vector is then not partitioned and the index is past the operand. `ScanAll`
  states exactly what is left, `OrderedExactly` and `StoppedExactly` exactly when, as a walk over the words that a
  caller can make beforehand (`StopsAfter`), and `DashStopsScan` gives an input.
- The binary search for a ZIP entry takes the name's length in 32 bits, the scan does not: a name of 4 GiB or more is cut
  by the one and rejected by the other. They disagree exactly when some entry has the name so cut (`SearchesAgree`,
  `LocateBothWays`).
- The deflater checks whether a block with its own codes fits the output buffer and calls the opposite extremely
  unlikely, if not impossible (miniz_tdef.c:677). It is impossible (`SmallBody`, `TryBlock`, `FlushBlock`): the second attempt with
  static codes is never made, and what a flush adds behind the block always fits too.
- The deflater's chains store sixteen bits of a position and take 0 for their end, so a repeat of what begins at a multiple of
  65536, as at the very first byte, is not found, and no chain goes on beyond it (`ChainBreaks`; miniz_tdef.c:847). It also drops a match
  whose distance happens to equal the place in the ring (miniz_tdef.c:1181). Neither harms the output; `RepeatIsFound` and
  `LiteralsAreNew` say what is found all the same.
- The checks for overflow of the sum in the varint readers and of the stream offset in the parsers never fire.
- The reach of the slot allocator is 1 GiB to either side, as its constant says; a comment beside it says 512 MB.

## Model

| member | source | states |
|---|---|---|
| RoundTrip.DeflateThenInflate | deps/miniz/miniz_tdef.c:1100-1332 | For any input in any chunks, any flushes and any parsing options: compressing, finishing and inflating is done and gives back exactly the input, from exactly the bytes written, whatever bytes follow and for every output buffer that can hold it |
| RoundTrip.Deflate | deps/miniz/miniz_tdef.c:1266-1332 | Any sequence of compress calls ends with a stream that is read as all the input, its blocks playing back exactly this, only the last block marked final; the blocks hold, in the forms chosen for them, exactly the tokens of a lazy parse of the whole input |
| RoundTrip.CompleteMeans | deps/miniz/miniz_tinfl.c:187-628 | A finished stream followed by anything reads as what its blocks play, and what is left over is exactly what follows it |
| CanonicalCode.PrefixFree | deps/miniz/miniz_tdef.c:255-268 | No canonical code word of an accepted size vector is a prefix of another (section 3.2.2 of RFC 1951) |
| CanonicalCode.UniquePrefix | deps/miniz/miniz_tinfl.c:143-175 | Two used symbols whose code words both begin a bit string are the same symbol |
| CanonicalCode.Covering | deps/miniz/miniz_tinfl.c:340-352 | When the Kraft sum is one, every 15-bit string begins with a code word: nothing is left undecodable |
| InflateTables.ReverseCode | deps/miniz/miniz_tinfl.c:358-360 | The bit-reversed code is the number whose lowest bit is the first bit sent |
| InflateTables.StartCodes | deps/miniz/miniz_tinfl.c:340-352 | A size vector is accepted exactly when its Kraft sum is one or at most one symbol is used, and the first code of each size is the canonical one |
| InflateTables.BuildTables | deps/miniz/miniz_tinfl.c:327-392 | Building succeeds exactly on the accepted vectors and leaves a lookup table and a tree that hold every code word, every shared path, and nothing else; the tree arrays never overflow |
| InflateTables.InsertSymbol | deps/miniz/miniz_tinfl.c:353-391 | Adding one symbol extends a table that holds the symbols before it to one that holds it too, by the lookup table for sizes up to ten and by tree nodes beyond |
| InflateTables.FillShort | deps/miniz/miniz_tinfl.c:361-370 | A short code fills exactly the lookup entries whose ten bits begin with it |
| InflateTables.InsertLong | deps/miniz/miniz_tinfl.c:371-391 | A long code is threaded through the tree from its first ten bits without disturbing any code already there |
| HuffmanDecode.LookupEntry | deps/miniz/miniz_tinfl.c:143-150 | The lookup entry of the next ten bits is the short code word they begin with, a tree node, or nothing |
| HuffmanDecode.TreeEntry | deps/miniz/miniz_tinfl.c:165-172 | The tree cell below a node is a deeper node, the long code word that ends there, or nothing, and lies inside the array |
| HuffmanDecode.ResolveCode | deps/miniz/miniz_tinfl.c:143-175 | If the bits at hand begin with the code word of a symbol, the tables give that symbol and exactly its size |
| HuffmanDecode.BitReader.HuffDecode | deps/miniz/miniz_tinfl.c:143-175 | If the stream begins with the code word of a symbol, decoding returns it and consumes exactly that word; with a complete code every symbol returned is one the stream began with; if no code word begins the stream, a complete code returns none and an incomplete one symbol 0 from exactly the bits that stray, or none when fewer than fifteen are left |
| HuffmanDecode.BitReader.StrayTaken | deps/miniz/miniz_tinfl.c:143-175 | What the tables make of bits that begin with no code word: symbol 0, from the bits that leave a long code word or from none |
| HuffmanDecode.BitReader.Fill | deps/miniz/miniz_tinfl.c:112-140 | Near the end of input bytes are read one at a time only while what is at hand does not decode; no bit is lost or repeated |
| HuffmanDecode.BitReader.GetBits | deps/miniz/miniz_tinfl.c:95-108 | Reading n bits returns the number they form and leaves the rest; it fails exactly when fewer are left, changing nothing |
| MinimumRedundancy.CalculateMinimumRedundancy | deps/miniz/miniz_tdef.c:134-187 | In place, ascending positive frequencies with sum below 65536 become non-increasing code lengths whose Kraft sum is exactly one and whose weighted total no lengths satisfying Kraft's inequality can beat; no length exceeds 22, and a symbol with a code of d bits is at most one part in Fibonacci(d + 1) of the total |
| MinimumRedundancy.BuildParents | deps/miniz/miniz_tdef.c:144-163 | The first phase is a greedy merge of the two lightest at every step, leaving parents in the array, without 16-bit overflow |
| MinimumRedundancy.FindDepths | deps/miniz/miniz_tdef.c:164-166 | The second phase turns parents into the depths of the internal nodes |
| MinimumRedundancy.AssignLengths | deps/miniz/miniz_tdef.c:167-186 | The third phase turns internal depths into leaf depths that belong to the same tree |
| HuffmanPlan.Optimal | deps/miniz/miniz_tdef.c:134-187 | The leaf depths of any greedy merge have Kraft sum one and minimal weighted total among all lengths with Kraft sum at most one |
| HuffmanPlan.LowerBound | deps/miniz/miniz_tdef.c:134-187 | No lengths that satisfy Kraft's inequality cost less than the weights of the internal nodes still to be made |
| HuffmanPlan.DepthBound | deps/miniz/miniz_tdef.c:189-191 | With total weight below 65536 no leaf lies deeper than 22, so the 32 length counters suffice |
| HuffmanPlan.LeafWeight | deps/miniz/miniz_tdef.c:134-187 | A leaf d levels down weighs at most one part in Fibonacci(d + 1) of the whole |
| WeightedLengths.SwapHelps | deps/miniz/miniz_tdef.c:134-187 | Giving the longer code to the lighter symbol never costs more |
| CodeSizeLimit.EnforceMaxCodeSize | deps/miniz/miniz_tdef.c:194-216 | From a complete code of at most 2^max symbols the limiter terminates with Kraft total exactly 2^max, the same number of codes, none longer than max and no count negative; beyond some number of lightest symbols no code gets longer, and lengthening all of those to max would free fewer than two units a symbol |
| CodeSizeLimit.MovePair | deps/miniz/miniz_tdef.c:207-213 | An adjustment takes one of the longest codes and the lightest shorter one, and touches no symbol but the lightest ones |
| CodeSizeLimit.LightRoom | deps/miniz/miniz_tdef.c:204-215 | Lengthening the fewest lightest symbols that make the code fit leaves less than one unit a symbol unused |
| CodeCost.LimitedCost | deps/miniz/miniz_tdef.c:194-216 | Lengths limited to fifteen bits cost at most n parts in 270 of the symbols more than any lengths that satisfy Kraft's inequality |
| CodeCost.StretchCost | deps/miniz/miniz_tdef.c:194-216 | Stretching the lightest codes to fifteen bits costs in proportion to the room that frees, as long codes belong to symbols rare by the Fibonacci bound |
| CodeSizeLimit.Folded | deps/miniz/miniz_tdef.c:200-203 | Folding all longer codes into the longest allowed size overfills the code by less than the number of codes of that size |
| CodeSizeLimit.MoveExists | deps/miniz/miniz_tdef.c:204-215 | As long as the code is overfull there is a code of the longest size to drop and a shorter one to lengthen |
| CodeSizeLimit.MoveOne | deps/miniz/miniz_tdef.c:204-215 | One adjustment lowers the total by exactly one and keeps the number of codes and the bound on the excess |
| RadixSort.RadixSortSyms | deps/miniz/miniz_tdef.c:100-131 | The radix sort returns the array that holds the same items in ascending order of their 16-bit keys, also when the pass over the high bytes is skipped |
| RadixSort.Pass | deps/miniz/miniz_tdef.c:121-128 | One pass puts every item in its own place, ordered by digit and stable among equal digits |
| RadixSort.PlaceOrder | deps/miniz/miniz_tdef.c:115-127 | Running offsets are in range and order the items by digit and then by position |
| RadixSort.TwoPasses | deps/miniz/miniz_tdef.c:112-129 | Sorting by the high byte after the low byte sorts by the whole key |
| HuffmanTable.OptimizeTable | deps/miniz/miniz_tdef.c:218-269 | From any frequencies: exactly the used symbols get codes of at most the limit, the code is complete when two or more are used, and the codes are the canonical words with the first bit lowest; with the limit of fifteen the weighted size is within n parts in 270 of the symbols of every alternative that satisfies Kraft's inequality |
| HuffmanTable.HandedBest | deps/miniz/miniz_tdef.c:190-253 | Sizes that are the optimal lengths cost no more than any sizes that satisfy Kraft's inequality |
| CodeSizeLimit.NothingToCut | deps/miniz/miniz_tdef.c:190-213 | Lengths within the limit are left alone: they fill the code exactly |
| HuffmanTable.CollectSyms | deps/miniz/miniz_tdef.c:230-238 | The used symbols are collected in order, each once, with their frequencies |
| HuffmanTable.MeasureLengths | deps/miniz/miniz_tdef.c:240-244 | Sorted symbols get optimal lengths, counted by length |
| HuffmanTable.HandOutSizes | deps/miniz/miniz_tdef.c:250-252 | The limited sizes go out so that each size is given to as many symbols as the limiter counted, the shortest to the most frequent, each symbol exactly the limited length of its place |
| HuffmanTable.CostPicked | deps/miniz/miniz_tdef.c:250-252 | Summed over the alphabet or over the sorted symbols, the weighted size is the same |
| HuffmanTable.AssignCodes | deps/miniz/miniz_tdef.c:255-268 | Numbering the symbols of each size in order and reversing yields the canonical code words |
| CodeSizeRle.PackCodeSizes | deps/miniz/miniz_tdef.c:358-397 | Packing any code sizes 0 to 15 yields items whose expansion is exactly these sizes, no repeat comes first, every extra value fits, and every symbol sent has been counted (section 3.2.7 of RFC 1951); the items go run by run, each run cut into pieces of the largest size an item takes and what is left |
| CodeSizeRle.RunDone | deps/miniz/miniz_tdef.c:289-397 | The packed form goes run by run: zeros 138 at a time, others once and then repeated six at a time, and what is left of the run |
| CodeSizeRle.RunSplit | deps/miniz/miniz_tdef.c:289-397 | A run held back in part and flushed in full items is the same as the run packed at once |
| CodeSizeRle.Packer.Take | deps/miniz/miniz_tdef.c:363-389 | Taking in one more size adds exactly this size to what the items and the held-back run stand for; runs are cut at 6 and 138 |
| CodeSizeRle.Packer.FlushRepeats | deps/miniz/miniz_tdef.c:289-307 | Flushing the held-back repeats changes nothing about the sizes taken in |
| CodeSizeRle.Packer.FlushZeros | deps/miniz/miniz_tdef.c:309-333 | Flushing the held-back zeros writes exactly that many zeros |
| CodeSizeRle.Packer.Finish | deps/miniz/miniz_tdef.c:390-397 | After the last flush the items alone stand for all sizes taken in |
| BlockReader.ReadSizes | deps/miniz/miniz_tinfl.c:393-417 | Expanding the items of a header yields the sizes the bits say, to the last bit used, and fails exactly when they run past the total, repeat nothing or break off; each run fits the buffer |
| BlockReader.ReadItem | deps/miniz/miniz_tinfl.c:397-412 | One symbol and its extra bits append what they stand for; a repeat with nothing to repeat fails |
| BitWriter.Writer.PutBits | deps/miniz/miniz_tdef.c:271-287 | Putting bits appends exactly these bits to everything sent so far, also when the buffer is full and whole bytes are dropped |
| BitWriter.Writer.Rewind | deps/miniz/miniz_tdef.c:661-662 | Going back to a saved position forgets exactly what was written since |
| BitWriter.ByteBitsConcat | deps/miniz/miniz_tdef.c:271-287 | The bits of two byte strings in a row are the bits of the one and then of the other |
| BlockHeader.SwizzlePermutes | deps/miniz/miniz_tdef.c:335 | The order in which the code-length sizes are sent lists each of the 19 symbols once |
| DeflateLists.SwizzleList | deps/miniz/miniz_tinfl.c:193 | This order is the one of section 3.2.7 of RFC 1951 |
| DeflateLists.LengthLists | deps/miniz/miniz_tinfl.c:189-190 | Extra bits and bases of the length symbols are the lists of section 3.2.5, and zero for the reserved two |
| DeflateLists.DistanceLists | deps/miniz/miniz_tinfl.c:191-192 | Extra bits and bases of the distance symbols are the lists of section 3.2.5, and zero for the reserved two |
| DeflateLists.LengthSymbol | deps/miniz/miniz_tdef.c:39-56 | The symbol the deflater lists for a length is the last one whose base is no greater, and 285 exactly for 258 |
| DeflateLists.DistanceSymbol | deps/miniz/miniz_tdef.c:57-90 | The symbol the deflater lists for a distance is the last one whose base is no greater |
| DeflateLists.RunLists | deps/miniz/miniz_tinfl.c:401-411 | What the three run symbols repeat, how often at least, and how many extra bits they have, by section 3.2.7 |
| DeflateLists.StaticSizes | deps/miniz/miniz_tinfl.c:295-310 | The static code sizes are the lists of section 3.2.6 |
| DeflateLists.StaticWords | deps/miniz/miniz_tdef.c:424-443 | The static code words are the ones that section 3.2.6 lists |
| DeflateLists.ExampleWords | deps/miniz/miniz_tdef.c:255-268 | The code words of the example of section 3.2.2 |
| KnownStreams.StoredStream | deps/miniz/miniz_tinfl.c:243-288 | Seven bytes of a stored block, by the byte, are read as "AA" |
| KnownStreams.StaticStream | deps/miniz/miniz_tinfl.c:295-310 | Nine bytes of a static block, with a match that has extra bits in length and distance, are read as the twenty bytes they stand for |
| KnownStreams.DynamicStream | deps/miniz/miniz_tinfl.c:311-421 | The thirteen bytes 05 c0 81 00 00 00 00 00 90 36 ff 53 10 of a block with its own codes are read as "AA" |
| KnownStreams.FourthType | deps/miniz/miniz_tinfl.c:289-292 | The fourth block type is refused, whatever follows |
| KnownStreams.Complement | deps/miniz/miniz_tinfl.c:247-288 | A stored block whose second length is not the complement of the first is refused; any other has so many bytes |
| KnownStreams.NothingToRepeat | deps/miniz/miniz_tinfl.c:401-404 | A repeat of the size before is refused where there is none |
| KnownStreams.OutOfReach | deps/miniz/miniz_tinfl.c:535-553 | A match that reaches back before the first byte, or runs past the room for output, is refused |
| BlockWriter.StartDynamicBlock | deps/miniz/miniz_tdef.c:337-422 | The header sent describes tables that code every symbol the block needs, is one a decoder accepts, and ends no list of sizes with unused symbols beyond the least number that must be sent; the sizes are packed run by run |
| BlockWriter.BlockTables | deps/miniz/miniz_tdef.c:343-346 | Counting the end of block once and building both tables gives a code to every symbol of the tokens and none to the four reserved ones |
| BlockSize.TallyOnce | deps/miniz/miniz_tdef.c:343-346 | A block's own codes are the best for its symbols when these number less than 1597, and nearly so otherwise |
| BlockWriter.TablesCover | deps/miniz/miniz_tdef.c:343-346 | Every symbol some token sends has a code, and no symbol above 285 or 29 has one |
| BlockWriter.MakesHeader | deps/miniz/miniz_tdef.c:348-422 | The counts, sizes and packed items together form a valid header |
| BlockWriter.CompressLzCodes | deps/miniz/miniz_tdef.c:544-589 | Reading the packed flag, literal and match bytes back sends exactly the coded tokens and the end of block |
| BlockWriter.ReadNext | deps/miniz/miniz_tdef.c:549-584 | At any point the lowest flag says what the next code is, its bytes are those of the next token, and shifting leaves the rest in order |
| BlockWriter.StartStaticBlock | deps/miniz/miniz_tdef.c:424-443 | The static tables are the ones of section 3.2.6 of RFC 1951, with canonical codes |
| BlockWriter.StaticCodes | deps/miniz/miniz_tdef.c:424-443 | The static codes can send every token |
| BlockFormat.LengthRoundTrip | deps/miniz/miniz_tinfl.c:189-190 | The length symbol and extra bits the deflater sends mean the same length in the inflater's tables |
| BlockFormat.DistanceRoundTrip | deps/miniz/miniz_tinfl.c:191-192 | The distance symbol and extra bits the deflater sends mean the same distance in the inflater's tables |
| BlockFormat.StaticComplete | deps/miniz/miniz_tinfl.c:295-310 | Both static codes have Kraft sum one |
| BlockReader.ReadHeader | deps/miniz/miniz_tinfl.c:311-420 | For every stream the header read is the one the bits say, and reading fails exactly when they do not say one |
| BlockReader.ReadCounts | deps/miniz/miniz_tinfl.c:313-317 | The three counts of a header are read, in their ranges |
| BlockReader.ReadLens | deps/miniz/miniz_tinfl.c:318-325 | The code-length sizes go to their places in the order in which they are sent; unsent ones are zero |
| HeaderMeaning.CutCodes | deps/miniz/miniz_tinfl.c:418-419 | Dropping trailing zero sizes changes neither the code words nor whether the vector is accepted |
| BlockReader.DecodeTable.Decode | deps/miniz/miniz_tinfl.c:143-175 | For every stream decoding takes exactly the symbol that the bits say, or fails exactly when they say none |
| BlockReader.DecodeTable.DecodeFast | deps/miniz/miniz_tinfl.c:442-500 | With fifteen bits at hand the unguarded lookup takes the same code word |
| BodyReader.ReadBody | deps/miniz/miniz_tinfl.c:422-599 | For every stream, tables and output buffer: decoding a body, with its fast and slow paths, is done with the output and at the bit that reading symbol by symbol says, and fails when that fails |
| BodyReader.FastLiterals | deps/miniz/miniz_tinfl.c:438-511 | The fast loop of up to two literals from one refill goes on as reading one by one does |
| BodyReader.SlowLiteral | deps/miniz/miniz_tinfl.c:427-437 | One symbol at a time near the end of either buffer |
| BodyReader.ReadMatch | deps/miniz/miniz_tinfl.c:513-598 | A match copies what its length, distance and extra bits say, and fails exactly when these break off, reach back too far or overrun the output |
| StreamMeaning.MatchMeans | deps/miniz/miniz_tinfl.c:516-598 | The bits of a match token are read as the copy the token stands for |
| StreamMeaning.TokensMean | deps/miniz/miniz_tinfl.c:422-599 | The bits of a block's body are read as what its tokens stand for, and reading stops exactly behind the end of block |
| HeaderMeaning.HeaderMeans | deps/miniz/miniz_tinfl.c:311-420 | Reading the header of any valid block gives back both size vectors and takes exactly its bits |
| HeaderMeaning.RunsMean | deps/miniz/miniz_tinfl.c:393-417 | The items of a header are read as the sizes they stand for |
| HeaderMeaning.LengthsMean | deps/miniz/miniz_tinfl.c:318-325 | The code-length sizes come back in place, whatever order they were sent in |
| StreamMeaning.StoredMeans | deps/miniz/miniz_tinfl.c:247-288 | A stored block is read as its bytes, wherever it starts |
| StreamMeaning.StreamMeans | deps/miniz/miniz_tinfl.c:243-612 | Every stream of valid blocks, whatever follows it, is read as what the blocks play, to its last bit |
| StreamMeaning.LoneReads | deps/miniz/miniz_tinfl.c:143-175 | What a code with one symbol makes of any bits: the symbol after as many zeros as its size, else symbol 0 from the zeros and the one that leaves a long code word, or from no bits at all, or nothing when fewer than fifteen are left |
| StreamMeaning.EmptyReads | deps/miniz/miniz_tinfl.c:143-175 | A code without symbols reads symbol 0 from no bits as long as fifteen are left |
| OutputBuffer.Output.CopyMatch | deps/miniz/miniz_tinfl.c:535-597 | Copying a match equals copying byte by byte from the given distance, overlapping or not; it stops exactly when the output is full |
| OutputBuffer.Output.CopyThrees | deps/miniz/miniz_tinfl.c:582-597 | The three-bytes-a-turn copy equals the byte-at-a-time copy for every distance, also below three |
| OutputBuffer.CopyAdds | deps/miniz/miniz_tinfl.c:545-597 | Copying in two pieces is copying in one |
| Inflate.InflateAll | deps/miniz/miniz_tinfl.c:243-612 | For every input and output size: the inflater is done exactly when the bit-by-bit reading of RFC 1951 succeeds, and then with the output and the number of bytes it says |
| Inflate.ReadOne | deps/miniz/miniz_tinfl.c:243-600 | Each block type is recognised and read; the fourth type fails |
| Inflate.ReadStoredBlock | deps/miniz/miniz_tinfl.c:247-288 | A stored block appends its bytes, taken first from the bit buffer and then in chunks straight from the input; a wrong complement, a short input or a full output fails |
| Inflate.ReadStaticBlock | deps/miniz/miniz_tinfl.c:295-310 | A block with static codes is read with the tables built for these |
| Inflate.ReadDynamicBlock | deps/miniz/miniz_tinfl.c:311-421 | A block with its own codes is read with the tables its header says, if these are accepted |
| Inflate.SkipToByte | deps/miniz/miniz_tinfl.c:249 | Skipping to the byte boundary drops exactly the padding |
| Inflate.GiveBack | deps/miniz/miniz_tinfl.c:604-611 | The bytes read ahead and not used are given back, so the position is the end of the stream |
| DeflateStream.AppendBlock | deps/miniz/miniz_tdef.c:603-757 | A block appended to a message adds its bits and its effect |
| LzBuffer.TokenBuffer.RecordLiteral | deps/miniz/miniz_tdef.c:1059-1070 | Recording a literal appends one token to what buffer and counts stand for |
| LzBuffer.TokenBuffer.RecordMatch | deps/miniz/miniz_tdef.c:1072-1098 | Recording a match appends one token; length and distance symbols are counted |
| LzBuffer.TokenBuffer.Close | deps/miniz/miniz_tdef.c:618-619 | After closing, the buffer holds exactly the packed tokens; an empty last flag byte is dropped |
| LzBuffer.ShiftFlag | deps/miniz/miniz_tdef.c:1059-1088 | Shifting a flag in keeps the flags of the open group in the top bits, whatever the byte held before |
| LzBuffer.PackedAppend | deps/miniz/miniz_tdef.c:1059-1098 | Tokens packed in groups of eight can be packed group by group |
| LzBuffer.TallyCovers | deps/miniz/miniz_tdef.c:1069-1097 | Every symbol a recorded token sends has a positive count |
| LzBuffer.NeverSent | deps/miniz/miniz_tdef.c:1069-1097 | No recorded token counts symbol 256, one above 285, or a distance symbol above 29 |
| LzWindow.AddByte | deps/miniz/miniz_tdef.c:1118-1128 | One more byte keeps the ring and its 257-byte mirror equal to the last 32768 bytes of input |
| LzWindow.ReadAt | deps/miniz/miniz_tdef.c:829-871 | Reading on past the end of the ring into the mirror yields the input |
| LzWindow.Window.Fill | deps/miniz/miniz_tdef.c:1109-1150 | Filling takes in as much input as fits the lookahead, by the rolling hash or byte by byte, and forgets history to match; every position with three known bytes is the head of its chain or linked from it |
| HashChains.Enters | deps/miniz/miniz_tdef.c:1129-1146 | With one more byte the position where the last three begin becomes the head of its hash's chain and links to the old head; all other links in the ring stay |
| HashChains.RollsOn | deps/miniz/miniz_tdef.c:1112-1127 | The rolling hash is the hash of the last three bytes, and rolls on |
| LzWindow.Window.FindMatch | deps/miniz/miniz_tdef.c:829-871 | The match found repeats the input in full length, is longer than the length known, and is the nearest of its length on the chain; no position that is looked at repeats further, and looked at are three for each probe counted, less only by rounds that end early at close ones |
| MatchSearch.RepeatIsFound | deps/miniz/miniz_tdef.c:829-871 | For all inputs: a repeat of the lookahead within the history is found, or a longer one, unless as many other positions with its hash as there are rounds lie in between, or one of these is a multiple of 65536 |
| MatchSearch.ChainBreaks | deps/miniz/miniz_tdef.c:847 | A chain ends at a position that is a multiple of 65536, which therefore is never found |
| MatchSearch.FirstByteLost | deps/miniz/miniz_tdef.c:847 | So it is with the very first byte: what it begins is not found even where it is the only repeat |
| MatchSearch.OnTheChain | deps/miniz/miniz_tdef.c:829-871 | A position with k others of its hash in between is reached by following k + 1 links |
| LzWindow.Window.Compare | deps/miniz/miniz_tdef.c:857-861 | The length found is the longest for which lookahead and candidate agree |
| LzWindow.Window.FindRun | deps/miniz/miniz_tdef.c:1159-1176 | A run is reported exactly if the previous byte repeats at least three times, in full length |
| LzWindow.ChainDistance | deps/miniz/miniz_tdef.c:844-848 | The 16-bit difference to a chained position is how far back it lies, although positions wrap |
| Compressor.CopyIsInput | deps/miniz/miniz_tdef.c:1189-1222 | Copying at a distance at which the input repeats reproduces the input |
| Compressor.Deflater.ParseStep | deps/miniz/miniz_tdef.c:1154-1227 | One step of the lazy parser records, holds back and moves on as decided from what the search at this position has found, and keeps: expanding what is recorded gives the input before the lookahead, less the byte of a held-back match |
| Compressor.Deflater.Consider | deps/miniz/miniz_tdef.c:1154-1184 | The match considered is what the search by chains or for runs finds; three bytes from 8 KiB back or more, filtered ones, and one as far back as the place in the ring are dropped |
| LazyParse.ConsideredIs | deps/miniz/miniz_tdef.c:1154-1184 | A candidate repeats the input and is longer than what is known, or there is none |
| LazyParse.DroppedIs | deps/miniz/miniz_tdef.c:1181-1184 | Where no match is considered, none was found, or the one found is three bytes from 8 KiB back or more, one as far back as the place in the ring, or a filtered one |
| LazyParse.LiteralsAreNew | deps/miniz/miniz_tdef.c:1151-1227 | Over whole runs: a byte recorded by itself begins no repeat of three bytes or more within reach of the search, except that the search then found one that is dropped |
| LazyParse.DecidedNext | deps/miniz/miniz_tdef.c:1151-1227 | All tokens ever recorded are what the decisions taken so far amount to; a step adds exactly its decision |
| LazyParse.ReplayMore | deps/miniz/miniz_tdef.c:1100-1243 | More input changes nothing about the decisions taken |
| Compressor.Deflater.TakeStep | deps/miniz/miniz_tdef.c:1151-1227 | Each step searches with all of the lookahead and all of the history not forgotten |
| Compressor.Deflater.FlushIfDue | deps/miniz/miniz_tdef.c:1228-1238 | The tokens are written out exactly if the code buffer is nearly full, or if 31 KiB and more would not shrink or are to be stored |
| Compressor.Deflater.Improve | deps/miniz/miniz_tdef.c:1185-1202 | A held-back match gives way to a longer one: its byte is recorded as a literal, and the longer match is recorded at once from 128 bytes on, else held back |
| Compressor.Deflater.RecordSaved | deps/miniz/miniz_tdef.c:1203-1209 | A held-back match not improved on is recorded as it is, and the lookahead moves past it |
| Compressor.Deflater.Begin | deps/miniz/miniz_tdef.c:1210-1222 | With nothing held back exactly one of three happens: a literal is recorded, the match is recorded, or it is held back |
| Compressor.Deflater.CompressNormal | deps/miniz/miniz_tdef.c:1100-1243 | For any input in any chunking the parser takes in all of it, or all but less than 258 bytes when more may come; it searches with a full lookahead or up to the end of the input, and writes a block only when it is due |
| Compressor.Deflater.FlushBlock | deps/miniz/miniz_tdef.c:603-757 | A flush writes the recorded tokens, in the form chosen, as a block that stands for the same input, and what the flush kind adds; it always fits the output buffer |
| Compressor.Deflater.Compress | deps/miniz/miniz_tdef.c:1266-1332 | After any flush the blocks written play back as all input so far, after the finishing call the stream is complete, no call fails, output once delivered is never changed, only a full flush forgets history, and the blocks hold the tokens of a lazy parse |
| Compressor.HeldBack | deps/miniz/miniz_tdef.c:1151-1222 | An empty lookahead holds no match back, so nothing is missing when the stream is finished |
| Compressor.Flushed | deps/miniz/miniz_tdef.c:685-716 | A block and what a flush adds extend a delivered stream to a delivered stream, or to a complete one |
| Compressor.CutMore | deps/miniz/miniz_tdef.c:603-757 | Each block holds the next tokens of the parse, in the form chosen for them |
| LazyParse.MakeOptions | deps/miniz/miniz_tdef.c:1340-1374 | As many positions are searched as the flag word says, in whole rounds of three, and a quarter of them once 32 bytes match |
| BlockFlush.WriteBlock | deps/miniz/miniz_tdef.c:647-683 | The block written stands for the recorded tokens whichever form is chosen: own codes, static codes, or stored |
| BlockFlush.WriteBody | deps/miniz/miniz_tdef.c:649-683 | The form is exactly: stored if asked for, or if the codes take no fewer bytes than the input, as far as the window reaches; else static if asked for or for less than 48 bytes; else own codes. What is written again from the saved position stands for the same bytes |
| BlockFlush.GrewBy | deps/miniz/miniz_tdef.c:659 | The test for expansion counts the whole bytes that the block's bits and those before them fill |
| BlockFlush.CompressBlock | deps/miniz/miniz_tdef.c:592-601 | Header and body of the tokens are sent with the codes asked for, the result says whether they fit, and own codes are the best there are or nearly so |
| BlockFlush.TryBlock | deps/miniz/miniz_tdef.c:655-682 | An attempt at a compressed block stands for the tokens and, in a fresh output buffer, always fits, so that the second attempt is never made |
| BlockFlush.StoreBlock | deps/miniz/miniz_tdef.c:663-675 | A stored block out of the ring holds exactly the bytes the tokens stand for |
| BlockFlush.WriteSync | deps/miniz/miniz_tdef.c:703-715 | A sync flush adds an empty stored block |
| BlockSize.SmallBody | deps/miniz/miniz_tdef.h:93-110 | The output buffer holds every block: stored, or any code buffer with static codes or with its own |
| BlockSize.BestIsNearStatic | deps/miniz/miniz_tdef.c:343-346 | A block's own codes take at most 32 bits for every 27 tokens, and a constant, more than the static codes would |
| BlockSize.BodyCost | deps/miniz/miniz_tdef.c:544-589 | The bits of a block's body are the weighted sizes of both code tables and the extra bits |
| BlockSize.StaticLoads | deps/miniz/miniz_tdef.h:93-110 | With static codes and that surcharge a token takes at most 8690 bits for every 6750 bits it takes in the code buffer |
| BlockSize.HeaderLength | deps/miniz/miniz_tdef.c:337-422 | A header takes at most 71 bits and fourteen for each of 316 code sizes |
| KHash.Run | deps/klib/khash.h:230-355 | Over any sequence of lookups, insertions, deletions and resizes the table answers as a finite map does |
| KHash.Table.Get | deps/klib/khash.h:230-243 | A lookup finds the bucket of a present key and reports every absent one |
| KHash.Table.Put | deps/klib/khash.h:307-348 | A key is entered once, into a tombstone or the empty bucket that ended the search, as the return code says; present keys keep their bucket and no other key changes |
| KHash.Table.Probe | deps/klib/khash.h:319-335 | The search returns the key's bucket, or when it is absent the last tombstone on its path before the first empty bucket, or else that bucket |
| KHash.Table.Del | deps/klib/khash.h:349-355 | Deleting removes exactly the key of the bucket and leaves a tombstone |
| KHash.Table.Resize | deps/klib/khash.h:244-306 | Growing, shrinking or same size: the map stays the same and no tombstone is left; a size too small for the elements changes nothing |
| KHash.Table.Rehash | deps/klib/khash.h:268-304 | The in-place rehash keeps exactly the same map, and every bucket before a key on its new path is occupied |
| KHash.Table.Settle | deps/klib/khash.h:276-292 | The chain of kick-outs from one element ends and puts every element it picks up in a new bucket |
| KHash.KickOut | deps/klib/khash.h:283-286 | Kicking out swaps the element in hand with the one whose bucket is needed and loses neither |
| KHash.PutDown | deps/klib/khash.h:287-291 | Putting the element in hand into a free bucket |
| KHash.PickUp | deps/klib/khash.h:270-276 | Taking an element out of its old bucket |
| KHash.DoneMoving | deps/klib/khash.h:295-303 | When no old bucket is left the new table holds the whole map |
| KHash.Table.MakeRoom | deps/klib/khash.h:310-318 | Before an insertion there is room: nothing happens if there was, else tombstones are cleared when at most half the buckets hold elements, else the table doubles |
| KHash.StillAhead | deps/klib/khash.h:230-243 | A search that has missed a present key so far has not reached an empty bucket |
| ProbePath.ProbesDiffer | deps/klib/khash.h:230-243 | Triangular probes modulo a power of two never meet within one table length |
| ProbePath.EveryBucket | deps/klib/khash.h:230-243 | Every bucket is on every probe path |
| Getopt.ScanAll | deps/getopt/getopt.c:318-505 | A whole scan reports each option with its argument in order and leaves the vector as options with their arguments and "--", then the skipped operands, then the rest, each in original order, with the index at the first operand; when a dash inside a word stops it, the options have moved only up to the last operand and the index is at that word |
| WrittenOptions.ScansAsWritten | deps/getopt/getopt.c:318-505 | For every list of options written as -x, -xARG, -x ARG, several letters in one word, --name, --name=ARG, --name ARG, -name where one dash may do, or behind -W, with operands in between and words after a "--": a scan reports exactly these options with these arguments, forbidden, missing, unknown and ambiguous ones as such, and leaves the operands |
| WrittenOptions.LeftAsWritten | deps/getopt/getopt.c:353-425 | The vector is left as the options in order, any "--", the operands in order, and the words after the "--", with the index behind the options |
| WrittenOptions.LauncherScans | src/launcher/launcher.c:116-127 | With the launcher's options, --config=x game --susp -sd m.dll gives c with x, s, s, and d with m.dll, and the operand game |
| Getopt.OrderedExactly | deps/getopt/getopt.c:318-505 | For all options and words: the scan leaves the vector in order and the index at the first operand exactly unless there are no long options and, going over the words, one that is read as an option leads to a dash that is no option letter after an operand has been passed |
| Getopt.InOrder | deps/getopt/getopt.c:450-459 | The vector is in order with the index at the first operand exactly unless a scan was stopped after it had skipped an operand |
| Getopt.StoppedAtDash | deps/getopt/getopt.c:450-459 | A scan is stopped only without long options, only when the dash is no option letter, and only at a word of two or more letters, other than "--", that ends in a dash |
| Getopt.EndsInOrder | deps/getopt/getopt.c:318-505 | With long options, or with the dash among the option letters, or without a word that ends in a dash, no scan is stopped |
| Getopt.StoppedExactly | deps/getopt/getopt.c:450-459 | For all options and words: a scan is stopped exactly if there are no long options and, going over the words past options and their arguments, some word before any "--" ends in a dash that is no option letter and no letter before it takes an argument |
| Getopt.WordStops | deps/getopt/getopt.c:450-505 | With short options one word stops the scan exactly if its last dash is reached, and else the scan goes on behind the word or behind the argument its first argument letter takes |
| Getopt.SplitIsStable | deps/getopt/getopt.c:353-425 | A stable partition of the words before the rest: the operands are, in order, exactly the operand words that no option takes as its argument, the options and their arguments, in order, all others, and the rest is a tail |
| Getopt.DashStopsScan | deps/getopt/getopt.c:450-459 | For prog x -a- the one option is reported, the vector stays as it is and the index is at the third word |
| Getopt.Scanner.Getopt | deps/getopt/getopt.c:318-505 | Every call reports the next option and makes progress, or ends the scan with everything reported and the vector arranged |
| Getopt.Scanner.FindOption | deps/getopt/getopt.c:353-425 | Between options operands are skipped and moved, until an option or the end |
| Getopt.Scanner.SkipOperand | deps/getopt/getopt.c:391-403 | Skipping an operand keeps skipped operands together and in order |
| Getopt.Scanner.FinishVector | deps/getopt/getopt.c:356-371 | At the end of the vector the partition is complete |
| Getopt.Scanner.FinishDashes | deps/getopt/getopt.c:411-425 | At "--" the partition is complete, the dashes counting as an option |
| Getopt.Scanner.OptionStep | deps/getopt/getopt.c:428-505 | One step consumes what the option and its argument take: one word, two, or part of a word |
| Getopt.Scanner.ShortOption | deps/getopt/getopt.c:450-505 | A short option with its attached, separate, optional or missing argument |
| Getopt.Scanner.ParseLong | deps/getopt/getopt.c:191-311 | A long option with its attached, separate, optional, missing or forbidden argument |
| Getopt.MatchLong | deps/getopt/getopt.c:215-246 | The matching loop finds the exact name, else the only meaning of an abbreviation, else reports it ambiguous or unknown |
| Getopt.MeansOnce | deps/getopt/getopt.c:215-246 | A name has one such meaning only |
| PermuteArgs.PermuteArgs | deps/getopt/getopt.c:155-183 | The two adjacent blocks are exchanged, order inside each kept and nothing else touched |
| PermuteArgs.TurnCycle | deps/getopt/getopt.c:169-182 | One cycle of swaps moves each of its elements to its final place and no other |
| PermuteArgs.CycleDistinct | deps/getopt/getopt.c:164-182 | The positions of one cycle are all different |
| PermuteArgs.CycleCovers | deps/getopt/getopt.c:164-182 | Every position lies on the cycle of its residue |
| PermuteArgs.CycleResidue | deps/getopt/getopt.c:164-182 | A cycle stays within one residue, so cycles are disjoint |
| PermuteArgs.Gcd | deps/getopt/getopt.c:135-147 | The loop computes the greatest common divisor |
| PermuteArgs.Bezout | deps/getopt/getopt.c:135-147 | It divides both numbers and is a combination of both |
| Scheduler.StepKeeps | src/dearxan/disabler.c:197-246 | Every step of every thread keeps the invariant |
| Scheduler.Always | src/dearxan/disabler.c:400-455 | The invariant holds after every interleaving of any number of threads |
| Scheduler.PhaseMovesOn | src/dearxan/disabler.c:215-246 | The state only moves 0, 1, 2, 3 |
| Scheduler.RunsOnceInOrder | src/dearxan/disabler.c:197-246 | No callback runs twice, queued callbacks start in the order in which they were queued, and the queue is empty in the end |
| Scheduler.NothingLost | src/dearxan/disabler.c:400-455 | When the drain is over every queued callback has run to its end, and every other accepted one past the lock is run by its own caller |
| Scheduler.DrainAdvances | src/dearxan/disabler.c:215-246 | While the drain lasts every step of the draining thread shortens what is left, and no other step lengthens it but a new call |
| Scheduler.DrainEnds | src/dearxan/disabler.c:215-246 | Unless more is scheduled the draining thread takes no more steps in the drain than there is work at its beginning |
| Scheduler.WaitersSeeTheirOwn | src/dearxan/disabler.c:442-449 | A waiting caller goes on only after its own callback has finished |
| SchedulerCalls.CallsReturn | src/dearxan/disabler.c:400-455 | Every call in every run: its thread is still in it, or its callback has finished, or the callback is queued and will be run by a drain not yet over, and the call came before the entry point, was the first, or met the drain |
| SchedulerCalls.LateCallersWait | src/dearxan/disabler.c:442-449 | A thread that looks at the state after the entry point, and not during the drain, takes no further step before its callback has finished |
| SchedulerCalls.LookWaits | src/dearxan/disabler.c:442-449 | The look decides: the caller waits, or before the entry point and during the drain it goes on at once |
| SchedulerCalls.AlwaysFirst | src/dearxan/disabler.c:423-430 | The first in the queue, and nobody else, sets up the hook, and it never waits |
| SchedulerCalls.ToldTheResult | src/dearxan/disabler.c:215-246 | The drain publishes the result it was given and every callback is told that |
| SchedulerCalls.NoneStuck | src/dearxan/disabler.c:400-455 | Every thread can schedule, go on with what it does, or waits for a drain that is not over; an idle thread can begin the drain |
| Scheduler.DrainerNeverWaits | src/dearxan/disabler.c:442-449 | While it drains, the draining thread can always take a step: it never waits for itself |
| Scheduler.ToldTheSame | src/dearxan/disabler.c:197-246 | All callbacks are told one published result |
| NeuterOnce.StepKeeps | src/dearxan/disabler.c:537-590 | Every step keeps the invariant of the result hand-over, and a published result never changes |
| NeuterOnce.Always | src/dearxan/disabler.c:537-590 | The invariant holds after every interleaving |
| NeuterOnce.OneResult | src/dearxan/disabler.c:559-590 | The work is done at most once and all threads get the same result |
| NeuterOnce.PublishedResult | src/dearxan/disabler.c:559-590 | This result is the one that was published |
| NeuterOnce.CanGoOn | src/dearxan/disabler.c:537-590 | A thread at any place can take the next step on its way to the result |
| NeuterOnce.WaitEnds | src/dearxan/disabler.c:559-590 | A thread waits only while another can still publish, or may go on |
| RegionTable.ReadVarint | src/dearxan/encryption.c:42-61 | Reading yields the base-128 number up to the first byte below 128, fails exactly when that takes more than 32 bits or the bytes run out, and its check for overflow of the sum never fires |
| RegionTable.VarintRoundTrip | src/dearxan/encryption.c:42-61 | Every 32-bit number written in seven-bit groups is read back, whatever follows |
| RegionTable.ParseRegions | src/dearxan/encryption.c:63-101 | Parsing yields the table the bytes stand for, and the overflow check of the offset never fires |
| RegionTable.AcceptedTables | src/dearxan/encryption.c:63-101 | Every accepted table has positive sizes, gaps of at least one, contiguous stream offsets, and a stream as long as the sizes together |
| RegionTable.TableRoundTrip | src/dearxan/encryption.c:63-101 | Parsing inverts the encoding of every ascending, gap-separated region list |
| RegionTable.TableVector | src/dearxan/encryption.c:63-101 | A table of two regions, byte by byte |
| TeaRegions.ParseTeaRegions | src/dearxan/analysis.c:436-473 | Decrypting lazily, block by block, gives the same regions and stream size, and fails exactly when, as decrypting every whole block and parsing the result |
| TeaRegions.ParseDecrypted | src/dearxan/encryption.c:63-101 | The batch form of the same |
| TeaRegions.TeaReader.ReadByte | src/dearxan/analysis.c:401-414 | The reader yields the plaintext of all whole blocks byte by byte |
| TeaRegions.TeaReader.ReadVarint | src/dearxan/analysis.c:416-434 | The reader's varint equals the batch varint on the plaintext left |
| TeaCipher.DecryptUndoes | src/dearxan/encryption.c:20-29 | Decryption undoes encryption for every block, key and number of rounds |
| TeaCipher.TeaDecrypt | src/dearxan/encryption.c:20-29 | The loop with its running sum is 32 inverse rounds of the cipher |
| TeaCipher.ZeroKeyVector | src/dearxan/encryption.c:20-29 | Under the zero key 41EA3A0A 94BAA940 decrypts to 00000000 00000000 |
| TeaCipher.FourKeyVector | src/dearxan/encryption.c:20-29 | Under 00112233 44556677 8899AABB CCDDEEFF 126C6B92 C0653A3E decrypts to 01234567 89ABCDEF |
| TeaCipher.RotateVectors | src/dearxan/encryption.c:15-18 | Rotation by five places, by the low five bits of a larger count, and by none |
| TeaCipher.SumIs | src/dearxan/encryption.c:21 | The starting sum is the sum after 32 rounds |
| TeaCipher.RmxUndoes | src/dearxan/encryption.c:31-36 | A whole stream comes back although each word changes the key of the next |
| TeaCipher.SubUndoes | src/dearxan/encryption.c:38-40 | Subtraction from the key is its own inverse |
| StreamDecrypt.DecryptStream | src/dearxan/analysis.c:354-390 | With any of the three ciphers: it fails exactly when the whole blocks are not there, and a stream that was encrypted comes back whatever follows it |
| StreamDecrypt.StreamRoundTrip | src/dearxan/analysis.c:354-390 | Decryption of what was encrypted is the plaintext, for every cipher and key |
| StreamDecrypt.TeaStreamVector | src/dearxan/analysis.c:365-377 | Eight bytes of a stream, lowest byte of each word first, decrypt to eight known bytes |
| StreamDecrypt.RmxVector | src/dearxan/analysis.c:361-383 | Three words under a rotating key, of which the last is not rotated, decrypt to three known words |
| StreamDecrypt.SubVector | src/dearxan/analysis.c:384 | Two words subtracted from a key |
| StreamDecrypt.RmxInPlace | src/dearxan/analysis.c:380-388 | The in-place loop that carries the rotating key equals the decryption of the whole word stream |
| RegionSweep.Sweep | src/dearxan/encryption.c:299-328 | The surviving lists are disjoint; the last survivor is never removed; a strictly lowest-entropy candidate is kept; a list goes only because one of its regions intersects a region of a candidate of lower entropy, or an earlier one of no greater entropy |
| RegionSweep.NoAddressTwice | src/dearxan/encryption.c:299-328 | No address belongs to regions of two surviving lists |
| RegionSweep.IntersectIs | src/dearxan/encryption.c:174-179 | The overlap test means that the regions have an address in common |
| RegionSweep.AcceptedAreSorted | src/dearxan/encryption.c:236-253 | The regions of any lists that the parsers accept, each once and sorted by address and size, are what the sweep starts from |
| RegionTable.AscendingApart | src/dearxan/encryption.c:63-101 | Regions of an accepted table are not empty and lie apart, in order |
| RegionSweep.DropBest | src/dearxan/encryption.c:320-322 | Removing the list of the best region leaves the survivors disjoint |
| RegionSweep.DropCurrent | src/dearxan/encryption.c:323-325 | Removing the list of the current region leaves the survivors disjoint |
| VisitedMap.Map.Find | src/dearxan/analysis.c:787-797 | A lookup finds exactly the visited addresses and what is stored with each |
| VisitedMap.Map.Insert | src/dearxan/analysis.c:822-844 | An address is entered once; one already there keeps what is stored with it; a table more than half full doubles first |
| VisitedMap.Map.Resize | src/dearxan/analysis.c:799-820 | Moving to another table of at least 16 slots keeps every entry; a size that is no power of two is refused and changes nothing |
| VisitedMap.Map.SetInfo | src/dearxan/analysis.c:1093-1096 | What is written through the slot of an address changes what is stored with it and nothing else |
| VisitedMap.SearchEnds | src/dearxan/analysis.c:787-797 | A linear search that passes only other addresses is decided by the slot where it stops |
| ZipIndex.LocateFile | deps/miniz/miniz_zip.c:1479-1542 | With the index and without, a plain lookup succeeds exactly when some entry has the name up to the case of letters; other lookups return the first entry that fits |
| ZipIndex.SortOffsets | deps/miniz/miniz_zip.c:552-602 | The heap sort leaves the same indices sorted by lower-cased name |
| ZipIndex.BuildIndex | deps/miniz/miniz_zip.c:838-849 | The index of an opened archive lists every entry once, sorted |
| ZipIndex.EntryRoundTrip | deps/miniz/miniz_zip.c:236-252 | Name and comment of an entry laid out as the ZIP specification says are read back, for all entries |
| ZipIndex.SiftDown | deps/miniz/miniz_zip.c:569-579 | Sinking one entry restores the heap and keeps the entries |
| ZipIndex.FilenameLess | deps/miniz/miniz_zip.c:523-543 | The byte loop decides dictionary order of the lower-cased names |
| ZipIndex.FoldsCapitals | deps/miniz/miniz_zip.c:212 | Folding turns exactly the capital letters into the small ones, in order |
| ZipIndex.LessIsStrict | deps/miniz/miniz_zip.c:523-543 | This order is total and strict |
| ZipIndex.LessTransitive | deps/miniz/miniz_zip.c:523-543 | This order is transitive |
| ZipIndex.FilenameCompare | deps/miniz/miniz_zip.c:1413-1428 | The comparison is zero exactly on equal names, and has the right sign although the length difference may wrap |
| ZipIndex.BinarySearch | deps/miniz/miniz_zip.c:1430-1468 | The search succeeds exactly when some entry has the name, cut to what a 32-bit length reaches, and returns such an entry |
| ZipIndex.Scan | deps/miniz/miniz_zip.c:1497-1541 | The scan returns the first entry that fits name, comment, path and case options, finds none only if none fits, and rejects exactly names and comments above 65535 |
| ZipIndex.SearchesAgree | deps/miniz/miniz_zip.c:1430-1541 | Search and scan agree on a name exactly if it is shorter than 4 GiB or no entry has the name that is left when its length is cut to 32 bits |
| ZipIndex.LocateBothWays | deps/miniz/miniz_zip.c:1479-1542 | The same of what the lookups return, with the index and without it; where both find an entry both have the name |
| ZipIndex.LongNamesDiffer | deps/miniz/miniz_zip.c:1438 | Names on which they disagree: each entry is found by the search, and not by the scan, under its name followed by any 4 GiB |
| ZipIndex.LeafOf | deps/miniz/miniz_zip.c:1521-1532 | The part after the last separator |
| ZipIndex.LeafAfter | deps/miniz/miniz_zip.c:1521-1532 | What follows a slash, backslash or colon and has none of them in it is that part |
| SlotAllocator.Allocator.AllocateBuffer | deps/minhook/buffer.c:247-263 | A slot that was not in use, 64-byte aligned, every byte within 1 GiB of the origin and in application memory; exactly this slot becomes in use, contents of all others stay; a new block is made only when every listed block in reach is full, and none is returned only when no page is to be had either |
| SlotAllocator.Allocator.FreeBuffer | deps/minhook/buffer.c:266-303 | Exactly the given slot leaves use; a block leaves the list exactly when its last slot does, the list otherwise unchanged |
| SlotAllocator.Allocator.GetMemoryBlock | deps/minhook/buffer.c:151-244 | The first listed block in reach with a free slot, else a new one in front of the list |
| SlotAllocator.Allocator.FindReachable | deps/minhook/buffer.c:174-185 | Listed blocks are searched in order and passed over only if full or out of reach |
| SlotAllocator.Allocator.Write | deps/minhook/buffer.c:40-50 | What an owner writes into a slot, where links of free slots are kept, disturbs neither the lists nor other slots |
| SlotAllocator.UsedCounts | deps/minhook/buffer.c:52-58 | The count in a block header is the number of its slots in use, and with the free list makes 63 |
| SlotAllocator.BuildSlots | deps/minhook/buffer.c:224-236 | A new block lists 63 distinct slots |
| SlotAllocator.ReservePage | deps/minhook/buffer.c:187-221 | A page for a new block lies in reach and was free; none only when every free granule in reach is refused, on either side as far as the queries succeed |
| SlotAllocator.SlotsNear | deps/minhook/buffer.c:163-171 | Every slot of a block within the limits is within reach of the origin |
| SlotAllocator.HeaderIs | deps/minhook/buffer.c:40-58 | The free list of a block begins in the second word of its header, the third word counts its used slots, and the slots lie 64 bytes apart behind it |
| SlotAllocator.LimitsAre | deps/minhook/buffer.c:163-171 | A block lies within the limits exactly if it is in application memory and all of it within 1 GiB of the origin |
| FreeRegion.FindPrevFreeRegion | deps/minhook/buffer.c:89-115 | The nearest free granule below, skipping whole reservations; none only when none is free, or when the query fails at a granule between which and the address none is free |
| FreeRegion.FindNextFreeRegion | deps/minhook/buffer.c:120-147 | The nearest free granule above; none only when none is free, or when the query fails at a granule between the address and which none is free |
| Adler32.Adler | deps/miniz/miniz.c:40-66 | One reduction per 5552 bytes gives the checksum that reduces at every byte, for every buffer and every 32-bit starting value, and no 32-bit sum ever wraps (section 2.2 of RFC 1950) |
| Adler32.Compositional | deps/miniz/miniz.c:40-66 | The checksum of a concatenation continues from the checksum of the first part |
| Adler32.ClosedForm | deps/miniz/miniz.c:40-66 | Reducing at every byte equals reducing the plain sums in closed form |
| Adler32.NoOverflow | deps/miniz/miniz.c:43 | From two 16-bit halves, 5552 bytes cannot bring either sum to 32 bits |
| Adler32.NineLetters | deps/miniz/miniz.c:40-66 | The checksum of "Wikipedia" is 11E60398 |
| Adler32.BothReduced | deps/miniz/miniz.c:40-66 | Both sums are reduced modulo 65521 |

## Left out

DEFLATE

- The zlib header and the checksum trailer around a stream, and the checksum's use in both coders: the stream modelled is the raw one.
- The inflater's suspension and resumption at every byte and its wrapping output buffer: the input is whole and the buffer does not wrap. Status codes are reduced to done and failed.
- The deflater's caller-supplied output pointer, in which output is handed over piece by piece: output goes to the callback, which does not fail.
- Symbol indices are kept beside the keys while the minimum-redundancy routine overwrites the keys.
- The fast compressor, the unaligned variants, which this build does not use, and 16-bit wrap-around of symbol counts beyond one block, which cannot occur.

Hash table

- Packing of flags two bits each, the bit trick that rounds up to a power of two, more than 2^31 buckets, and failing allocation. The load factor 0.77 is the integer `(77 * n + 50) / 100`, which agrees with the rounding in the source for powers of two.

Option scanner

- The modes chosen by a leading "+" or "-" of the option string and by POSIXLY_CORRECT, messages, the letter left in `optopt` and which of "?" and ":" stands for an error, the write through a long option's flag pointer (the option is reported instead), and reset by the caller.

dearxan

- Mutexes, events, mappings and module pinning: each critical section is one atomic step. At most one drain is started per process, by the hook or by the first caller; the paths without shared state or memory are not modelled. Callbacks are told the published result; that the entry point is being executed, their second argument, is left out.
- The sweep starts from regions sorted by address and the lists not yet removed, so collecting, entropies and the base-image comparison are parameters; an entropy is a real number or not a number.
- The x86 decoding and emulation around the analysis, and failing allocation in the array and map growth.
- The visited map's check for overflow of its capacity in the address width.

ZIP name index

- Reading the archive: the central directory's bytes and entry offsets are given, every entry inside the directory as opening the archive has checked.

Slot allocator

- Queries and allocations of the operating system are parameters that keep to stated rules: an answer is about the address asked for, a reservation begins on a granule, memory held is not free, and a free granule is granted whole or not at all. The origin lies in application memory, as its caller has checked.
- The 32-bit variant, in which blocks may lie anywhere, the debug fill patterns, and the final release of all blocks.

Not modelled at all: ZIP reading and writing, PNG writing, the hook and trampoline writer, and the loader itself.

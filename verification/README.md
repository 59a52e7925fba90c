# FPGA compression kernels: Huffman coding, LZ77 with LZ4, Snappy and DEFLATE, and their buffers

This project models the compression and decompression kernels of the Vitis data compression library
(and one checksum kernel of the security library) in Dafny, and proves what they are for: compressed
data decode to the input, code lengths are optimal, decoders agree with encoders, buffers shared by a
reader and a writer lose nothing.

Conventions. A stream is a sequence; what a kernel reads from it is a position or the rest of the
sequence, what it writes is appended. C arrays are arrays (or sequences where a kernel only looks them
up), an `ap_uint` is a natural number whose wrap-around is written out (`% 0x1_0000`,
`Modular.Wrapped`) and proved not to happen where the code relies on it. A loop that updates
registers is a `while` loop; where one pass through it is long, the pass is a method of its own.
`Pow2(width)` stands for the range of a `width`-bit frequency. Pragmas have no counterpart.

The modules follow four clusters.

* **Huffman coding.** `RadixSort`, `HuffmanTree` (createTree), `HuffmanHeight` (how high the tree
  gets), `HuffmanLengths` (computeBitLength),
  `HuffmanLimit` (truncateTree), `HuffmanAssign` (canonizeTree), `HuffmanCodec` (createCodeword, the
  comparator tables and look-up), `HuffmanConstruct` (all of these in sequence), `TableDecoder` (the
  two-level tables), `CodeLengthRuns`, `CodeLengthCoding` and `CodeLengthWay` (run lengths of the code
  lengths, their own tree, and back),
  `BitPacking`, `BitReading`, `DeflateBlock`, `DeflateEncode`, `DeflateTables`, `DeflateRoundTrip`, `DeflateTrees`,
  `DeflateFormat` (the tables of lengths and distances against the rule of RFC 1951, section 3.2.5),
  `CrowdedCode` (a code the comparator misreads), `DeflateHeader`, `DeflateStream` and `DeflateWhole`
  (a block from its bytes to one bit stream of header and body, and back). `HuffmanOptimality` and
  `CanonicalCodes` are the independent theory: prefix codes as sets of bit strings, Kraft sums, the
  canonical code of RFC 1951, section 3.2.2.
* **LZ77 with LZ4 and Snappy.** `LzCore` (tokens, words, the byte-serial copy), `LzSearch` (what the
  match finder is to find, said without its dictionary), `BitVectors` (its hash), `LzCompress`, `LzStatic`
  (its static mode), `LzOptional` (filter and booster), `LzPipeline`, `Lz4*`, `Snappy*`, `LzDecompress`.
* **Wide decompression.** `WideCopy`, `LzPreProcess`, `LzMultiByte`.
* **Buffers and order.** `SequenceReverse`, `SequenceResize`, `LiteralSplit` (zstd), `CoreStreams`,
  `CoreDistributor`, `StoredBlocks` (a reader of headers, stored blocks and trailers), `CorePacker`, `BytePacking`, `CoreOrder` (gzip over many cores), `Adler32`.

What the proofs found out about the code.

* `genBitLenFreq` puts the value 15 behind the last code length, so a final run of lengths of 15 may
  not be counted although it is sent. The tokens counted are the tokens sent exactly when
  `CodeLengthRuns.Counted` holds, which looks only at that final run. What is lost matters less often:
  every token sent still has a code exactly when `Kept` holds for both trees, that is, unless a final
  run of fewer than seven 15s is the only use of 15 (or, from four on, of the repetition 16) in both
  trees (`CodeLengthWay.CodedExactly`). `LostFifteen` is a complete distance code, 1, 2, ..., 14, 15,
  15, for which 15 is left without a code.
* The histogram of code lengths has 18 entries and the tree builder does not check them. Its indices
  stay inside exactly when `HuffmanTree.TreeHeight` of the ascending weights is below 18
  (`HuffmanLengths.IndicesInside`). A total below 6765 suffices; the literal frequencies 1, 1, 3, 4, 7,
  11, ..., 3571 with the end symbol, 9348 in all, give height 18 (`HuffmanConstruct.SteepFrequencies`).
* The comparator's tables tell codes of more than 8 bits apart by their low 8 bits, and a later symbol
  overwrites an earlier one in its slot. The decoder is modelled for every list of lengths that leaves
  room for its codes: it returns every symbol from its code exactly when no length above 8 has more
  than 256 codes (`HuffmanCodec.ReadsExactly`), and a single symbol exactly when it is among the last
  256 of its length (`ReadRight`). `CrowdedCode.Crowded` is a complete code of 265 literal and length
  symbols with 258 of 9 bits; in every stream that starts with 0 1111 1110, which is the code of its symbol
  0, the decoder sees symbol 256 instead (`CrowdedCode.MisreadStream`).
* The streaming `multicoreDistributor` makes a block longer than `BLOCK_SIZE` exactly when the input
  leaves `MIN_BLCK_SIZE / 8` words behind its whole blocks (`CoreDistributor.LongBlockIff`,
  `LongBlockExample`).
* `snappyDecompress` steps its position back before it looks at a byte again. Its loop ends exactly
  when no byte before the last is read as a tag whose two low bits are both set, the
  four-byte-offset copy of the format, which its encoder never writes (`SnappyLoop.EndsExactly`);
  otherwise the position never gets past that tag (`NeverPasses`). The block [1, 3, 0] keeps it going
  for ever, the block [1, 3] does not (`EndlessBlock`).
* `lzCompress` keeps its flush flag and its block counter between calls in static mode, but not its
  dictionary, which is a local array. A call that finds the flag up flushes first and reports genuine matches
  only. A later call neither flushes nor finds a defined dictionary: it is safe for every dictionary exactly
  when it flushes (`LzStatic.SafeExactly`, with the stale entry of `StaleMatch`). If the dictionary happens to hold
  what the last call left there, every match is genuine again (`LzCompress.Compressor.Compress`).
* A round for the end of its data counts as well: a call after a block always has room for the next block,
  but calls without any block move the counter on unchecked.
* The 512 entries of each array of second-level tables suffice for every feasible code of up to 288 symbols with a
  root of 9 bits, and for every code no longer than the root (`TableDecoder.BuildTables`).
* `snappyCompressPart1` never raises the flag it returns.
* `createTree` goes once round its loop beyond the root and writes a node nobody uses; its reads one
  entry past the live heap are given an arbitrary value (`junk`), which changes nothing.

## Model

| member | source | states |
|---|---|---|
| HuffmanOptimality.KraftInequality | components/data_compression/include/huffman_treegen.hpp:884-912 | every prefix code, as a list of bit strings, satisfies Kraft's inequality |
| HuffmanOptimality.LowerBound | components/data_compression/include/huffman_treegen.hpp:538-597 | no list of lengths within Kraft's inequality has a smaller weighted sum than repeatedly merging the two least weights |
| HuffmanOptimality.EveryPrefixCodeCostsAtLeast | components/data_compression/include/huffman_treegen.hpp:538-597 | so no prefix code for the symbols is cheaper than the merging cost |
| HuffmanConstruct.Filter | components/data_compression/include/huffman_treegen.hpp:103-129 | the heap holds just the symbols that occur, in order of value, the end-of-block symbol always and with frequency 1, and the last symbol in use is reported |
| RadixSort.RadixSort | components/data_compression/include/huffman_treegen.hpp:187-242 | for any frequency width the digit passes, with their early exit, leave the heap sorted by frequency and stable, and touch nothing beyond the live entries |
| RadixSort.PassIsStable | components/data_compression/include/huffman_treegen.hpp:201-240 | one pass by a digit keeps the order of equal frequencies and extends the sortedness by that digit |
| HuffmanTree.OnePick | components/data_compression/include/huffman_treegen.hpp:559-579 | the cheaper of the two queue heads is the least of all waiting nodes, and weighs at least Fib of its height |
| HuffmanTree.OnTrackStep | components/data_compression/include/huffman_treegen.hpp:555-596 | each round of the two-queue loop is one step of merging the two least weights, so cost so far plus cost still to come is Huffman's cost |
| HuffmanTree.CreateTree | components/data_compression/include/huffman_treegen.hpp:538-597 | parent array and child marks describe a finished two-queue tree whose node weights add up to Huffman's cost and whose height is the one computed from the weights, for all ascending positive frequencies |
| HuffmanLengths.CodeLengthsOfTree | components/data_compression/include/huffman_treegen.hpp:750-784 | the depths of the leaves satisfy Kraft's equality, stay below the height and cost the sum of the weights of all internal nodes |
| HuffmanLengths.HeightWeight | components/data_compression/include/huffman_treegen.hpp:36 | a tree of height h has total frequency at least Fib(h + 2) |
| HuffmanHeight.HeightBound | components/data_compression/include/huffman_treegen.hpp:36 | so a total below Fib(size + 2) keeps the height, computed from the weights alone, below the size of the histogram |
| HuffmanHeight.SafeTotals | components/data_compression/include/huffman_treegen.hpp:36 | that is a total below 6765 for the 18 entries, and 316 lengths are safe for 15 entries |
| HuffmanHeight.SteepHeight | components/data_compression/include/huffman_treegen.hpp:538-597 | the weights 1, 1 and then the Lucas numbers make the tree a chain, one level less high than there are symbols, for every number of symbols |
| HuffmanLengths.IndicesInside | components/data_compression/include/huffman_treegen.hpp:750-784 | every index into the histogram is a code's length, and all of them are below its size if and only if the height computed from the weights is |
| HuffmanConstruct.SteepFrequencies | components/data_compression/include/huffman_treegen.hpp:36 | 18 literals occurring 1, 1, 3, 4, 7, 11, ... times and the end symbol, 9348 in all, give height 18, outside the 18 entries |
| HuffmanLengths.ComputeBitLength | components/data_compression/include/huffman_treegen.hpp:750-784 | the histogram counts the leaf depths of the tree the builder left, without its 12-bit entries wrapping |
| HuffmanLengths.ComputeBitLengthLL | components/data_compression/include/huffman_treegen.hpp:708-748 | the version that stalls a cycle when the parent changes gives the same depths and histogram, and terminates |
| HuffmanLimit.DeepestEven | components/data_compression/include/huffman_treegen.hpp:786-817 | the deepest level of a full tree holds an even number of leaves |
| HuffmanLimit.ShallowLeafExists | components/data_compression/include/huffman_treegen.hpp:786-817 | while leaves lie below the limit, some leaf lies above it, so the search for one succeeds |
| HuffmanLimit.TruncateTree | components/data_compression/include/huffman_treegen.hpp:786-817 | terminates on every full histogram with at most 2^max leaves, keeps the leaf count and the Kraft sum, leaves nothing below the limit, and changes nothing if nothing was; the leaves above the limit pay from the deepest level up |
| HuffmanLimit.DeeperFirst | components/data_compression/include/huffman_treegen.hpp:797-803 | a level loses a leaf only once every deeper level above the limit is down to two leaves or fewer |
| HuffmanLimit.OnlyOne | components/data_compression/include/huffman_treegen.hpp:797-812 | so leaf count, Kraft sum and the order in which levels pay fix the truncated histogram: there is just one |
| HuffmanAssign.ListDownSorts | components/data_compression/include/huffman_treegen.hpp:884-912 | the lengths a histogram lists from the deepest level up are its lengths in descending order |
| HuffmanAssign.AssignmentIsOptimal | components/data_compression/include/huffman_treegen.hpp:884-912 | handing the tree's lengths to the ascending symbols longest first costs exactly Huffman's cost |
| HuffmanAssign.CanonizeTree | components/data_compression/include/huffman_treegen.hpp:884-912 | each of the sorted symbols gets the next length from the deepest level up, no other symbol's length changes |
| HuffmanConstruct.AssignedLengths | components/data_compression/include/huffman_treegen.hpp:1596-1655 | the lengths handed out agree with the histogram and leave room for all canonical codes; only symbols that occur get one |
| HuffmanConstruct.HuffConstructTree | components/data_compression/include/huffman_treegen.hpp:1596-1655 | filter, sort, tree, histogram, limit, lengths and codes in sequence: Kraft equality, all lengths at most maxBits, the tree's lengths cut off from the deepest level up and handed out longest to rarest, optimal among all prefix codes and no longer than the tree is high whenever that is at most maxBits, canonical codewords, the last symbol in use; also for no symbol and for one; for all frequencies whose tree fits the histogram |
| CanonicalCodes.TreeLengthsFeasible | components/data_compression/include/huffman_treegen.hpp:961-1043 | lengths counted by a full histogram leave room for every canonical code in its length |
| CanonicalCodes.PrefixFreeCodes | components/data_compression/include/huffman_treegen.hpp:961-1043 | no codeword, as bits in stream order, is a prefix of another |
| CanonicalCodes.CodesInOrder | components/data_compression/include/huffman_treegen.hpp:961-1043 | codes of one length are consecutive in the order of their symbols, and shorter codes come before longer ones (RFC 1951, section 3.2.2) |
| CanonicalCodes.UniqueStart | components/data_compression/include/huffman_decoder.hpp:328-363 | no bit stream starts with the codes of two symbols |
| CanonicalCodes.ReversedInStream | components/data_compression/include/huffman_treegen.hpp:961-1043 | a bit-reversed code sent lowest bit first arrives highest bit first |
| HuffmanCodec.CreateCodeword | components/data_compression/include/huffman_treegen.hpp:1001-1043 | every symbol gets its canonical code, reversed and in range, of its length; with no symbol, symbol 0 gets one empty bit; the lengths are cleared |
| HuffmanCodec.SentCodeStarts | components/data_compression/include/huffman_treegen.hpp:1001-1043 | the bits sent for a symbol start every stream they start with that symbol's canonical code |
| HuffmanCodec.BuildComparator | components/data_compression/include/huffman_decoder.hpp:733-835 | for every list of lengths that leaves room for its codes: first codes by length, and in each slot of the table of a length the last symbol whose code points there |
| HuffmanCodec.IndexableExactly | components/data_compression/include/huffman_decoder.hpp:810-829 | the table entries of the codes are all different if and only if no length above 8 has more than 256 codes |
| HuffmanCodec.ReadRight | components/data_compression/include/huffman_decoder.hpp:810-829 | a symbol is read from its own code if and only if it is among the last 256 symbols of its length |
| HuffmanCodec.ReadsExactly | components/data_compression/include/huffman_decoder.hpp:328-363 | every symbol with a code is read from it if and only if no length above 8 has more than 256 codes |
| HuffmanCodec.Compare | components/data_compression/include/huffman_decoder.hpp:328-363 | whatever bits follow, the comparisons find the length of the code the stream starts with, and the symbol filed last in its slot; on any other stream they find some length |
| BitStrings.NextHuff | components/data_compression/include/huffman_decoder.hpp:687-695 | stepping a bit-reversed code yields the reversal of the next canonical code |
| TableDecoder.SortCodes | components/data_compression/include/huffman_decoder.hpp:607-619 | the code buffer lists the symbols by length and then by value |
| TableDecoder.KindsAreValid | components/data_compression/include/huffman_decoder.hpp:579-635 | no entry of the three base tables can be mistaken for a link to a second table |
| TableDecoder.FillTable | components/data_compression/include/huffman_decoder.hpp:663-683 | exactly the entries whose low bits are the code get it; all others stay |
| TableDecoder.SizeTable | components/data_compression/include/huffman_decoder.hpp:713-725 | a second table is wide enough for every code that shares its first bits |
| TableDecoder.NextCode | components/data_compression/include/huffman_decoder.hpp:687-702 | the symbol, length and reversed code that follow in canonical order |
| TableDecoder.GoOn | components/data_compression/include/huffman_decoder.hpp:704-729 | a new second table is opened exactly at a new combination of first bits, and all codes entered before stay readable |
| TableDecoder.BuildTables | components/data_compression/include/huffman_decoder.hpp:525-731 | for any feasible lengths up to 15 bits, looking a stream up yields symbol, operation and bit count of the code it starts with; the 512 entries of the second-level tables suffice for at most 288 symbols and a root of 9 bits, or codes no longer than the root |
| TableDecoder.LeanBound | components/data_compression/include/huffman_decoder.hpp:713-725 | all second-level tables together have at most as many entries as there are symbols, and three times what the bits beyond the root can number: 480 for 288 symbols and a root of 9 bits |
| TableDecoder.CompleteAnswers | components/data_compression/include/huffman_decoder.hpp:182-273 | with a complete code every stream is answered, with exactly one symbol |
| TableDecoder.CompleteHasShort | components/data_compression/include/huffman_decoder.hpp:525-731 | a complete code of fewer than 2^(root + 1) symbols has a code no longer than the root, as the table builder needs |
| TableDecoder.SentIsAnswered | components/data_compression/include/huffman_decoder.hpp:182-273 | what the encoder sends for a symbol is looked up as that symbol whatever follows: encoder and table decoder agree |
| CodeLengthRuns.TokensMean | components/data_compression/include/huffman_treegen.hpp:1925-2026 | the tokens 16, 17 and 18 sent for a list of lengths stand for just that list, unless its last length equals what the pass finds behind it |
| CodeLengthRuns.GenBitLenFreq | components/data_compression/include/huffman_treegen.hpp:1662-1750 | the frequencies are the uses of each code-length symbol in the tokens of both trees, as the counting pass divides them |
| CodeLengthRuns.CountedAreSent | components/data_compression/include/huffman_treegen.hpp:1662-1750 | the tokens counted are the tokens sent if and only if the final run of lengths is not a run of 15s that leaves some held back |
| CodeLengthRuns.SentServed | components/data_compression/include/huffman_treegen.hpp:1662-1750 | every token sent has a symbol that was counted if and only if what each tree's final run of 15s loses is counted elsewhere in the two trees; a run of seven or more always is |
| CodeLengthRuns.LostFifteen | components/data_compression/include/huffman_treegen.hpp:1700 | 1, 2, ..., 14, 15, 15 are the lengths of a complete code; as distance lengths both lengths of 15 are sent and neither is counted, so 15 is left at frequency 0 unless the literal tree uses it |
| CodeLengthCoding.SendTree | components/data_compression/include/huffman_treegen.hpp:1925-2026 | the fields written are the codes and extra bits of the tokens, in order |
| CodeLengthCoding.RepeatByFormat | components/data_compression/include/huffman_treegen.hpp:1925-2026 | the bits behind the symbols 16, 17 and 18 are two, three and seven and give the count less 3, 3 and 11 (RFC 1951, section 3.2.7) |
| CodeLengthCoding.ByteGen | components/data_compression/include/huffman_decoder.hpp:427-523 | from the bit register, refilled by 16 bits after every step, reads the lengths back from the bits of the tokens and leaves just the bits behind them, whatever they are |
| CodeLengthCoding.BothMean | components/data_compression/include/huffman_treegen.hpp:1925-2026 | the tokens sent for both trees stand for the lengths of both, one list after the other |
| CodeLengthWay.LengthTreeFits | components/data_compression/include/huffman_treegen.hpp:2331 | the tree for at most 286 and 30 lengths always fits its 15 histogram entries |
| CodeLengthWay.CodedExactly | components/data_compression/include/huffman_treegen.hpp:1662-1750 | with the constructed codes, every token sent has a non-empty code if and only if what the counting pass loses is counted elsewhere; always, if the tokens counted are the tokens sent |
| CodeLengthWay.LengthTree | components/data_compression/include/huffman_treegen.hpp:2325-2333 | counting both lists and building the code for the lengths gives codes of at most 7 bits, agreed with the decoder, that serve every token sent if and only if what the counting pass loses is counted elsewhere |
| DeflateHeader.LastRank | components/data_compression/include/huffman_treegen.hpp:1877-1886 | the search down the odd order of the lengths stops at the last one that is not zero, and never below the fourth |
| DeflateHeader.SendTrees | components/data_compression/include/huffman_treegen.hpp:1888-2026 | kind of block, the three counts, the lengths of the code for the lengths in the order of RFC 1951, section 3.2.7, said by a formula, and the tokens of both trees |
| DeflateHeader.TablesAgree | components/data_compression/include/huffman_decoder.hpp:874 | the tables of writer and reader are both that order: 16, 17, 18, 0, then 8 and its neighbours in turn |
| DeflateHeader.CountsReadBack | components/data_compression/include/huffman_decoder.hpp:1040-1052 | the first 17 bits are those of a dynamic block that is not the last, and give the three counts from 257, 1 and 4 |
| DeflateHeader.ReadLengths | components/data_compression/include/huffman_decoder.hpp:1053-1068 | the three-bit lengths return to the places of their symbols in that order, and those not sent are zero |
| DeflateHeader.ReadTrees | components/data_compression/include/huffman_decoder.hpp:1040-1078 | from the bit register: kind, counts and the lengths of both trees come back from every header whose tokens all have codes, whatever follows it, and the register stands right behind it |
| DeflateHeader.LengthsThereAndBack | components/data_compression/include/huffman_treegen.hpp:2325-2333 | counting, tree, codes, header fields, packing and reading in sequence return the lengths of both trees, for all lists the kernels send for which what the counting pass loses is counted elsewhere |
| BitPacking.BitPackingStream | components/data_compression/include/huffman_encoder.hpp:124-207 | the bytes are the bits of all fields in order, then an empty stored block (RFC 1951, section 3.2.4) that ends on a byte |
| BitPacking.EmptyBlockReads | components/data_compression/include/huffman_encoder.hpp:180-207 | the bits at the end are three zeros, zeros up to the next byte, and a length of zero with its complement |
| BitReading.BitReader.Load | components/data_compression/include/huffman_decoder.hpp:52-64 | a refill keeps the bits to come and leaves at least 16 in the register, or all that are left; the 32-bit register never overflows |
| BitReading.BitReader.Discard | components/data_compression/include/huffman_decoder.hpp:71-75 | takes exactly the next n bits away |
| BitReading.ReadFields | components/data_compression/include/huffman_decoder.hpp:52-75 | given the widths alone, the fields come back one by one, and what follows them is next |
| BitReading.PackAndRead | components/data_compression/include/huffman_encoder.hpp:124-207 | every list of fields of 1 to 15 bits is read back, and the empty stored block comes next |
| DeflateBlock.HuffmanBytegenLL | components/data_compression/include/huffman_decoder.hpp:280-425 | on the bits of a block with 32 or more behind it, the words handed out are those of the block and its end is seen if and only if the tables read every symbol of the block right; then not a bit more is taken; in any case the loop ends |
| DeflateEncode.HuffmanEncoderStream | components/data_compression/include/huffman_encoder.hpp:413-556 | passes the header fields through, then sends code and extra bits of every literal and match, then the end symbol |
| DeflateEncode.BlockLinked | components/data_compression/include/huffman_encoder.hpp:413-556 | extra bits are sent just behind the symbols for which the decoder expects them |
| DeflateTables.TablesAreSound | components/data_compression/include/huffman_encoder.hpp:33 | look-up tables with the entry 256 + distance / 128 for far distances reach every length and distance from their base values: the tables found by search do |
| DeflateFormat.LengthsByFormat | components/data_compression/include/zlib_tables.hpp:68-69 | base values and extra bits of the length symbols in the tables of encoder, comparator, table decoder and inflater are all those of the rule behind RFC 1951, section 3.2.5 |
| DeflateFormat.DistancesByFormat | components/data_compression/include/zlib_tables.hpp:64-66 | the same for the distance symbols |
| DeflateRoundTrip.FieldsCarry | components/data_compression/include/huffman_encoder.hpp:413-556 | the fields are 1 to 15 bits wide and carry exactly the bits of the block |
| DeflateRoundTrip.MeantAll | components/data_compression/include/inflate.hpp:288-365 | by the tables of the inflater, base values plus extra bits of the decoder's output are the lengths and distances that were encoded |
| DeflateRoundTrip.SendBlock | components/data_compression/include/huffman_encoder.hpp:413-556 | encoder and bit packing turn header fields and block into words that carry just their bits and then the empty stored block |
| DeflateRoundTrip.ReadBlock | components/data_compression/include/huffman_decoder.hpp:280-425 | from these bits the decoder hands out the words of the block, and sees its end, if and only if its tables read every symbol the block uses right; then they mean the literals and matches encoded |
| DeflateTrees.ConstructedAgreed | components/data_compression/include/huffman_decoder.hpp:733-835 | whatever the frequencies, the bit lengths of the constructed codes determine the same codes at the decoder, also for no symbol and for one |
| DeflateTrees.FewIndexable | components/data_compression/include/huffman_decoder.hpp:810-829 | with at most 256 symbols in use the 256-entry tables of the comparator have room |
| CrowdedCode.Crowded | components/data_compression/include/huffman_decoder.hpp:810-829 | a complete code of 265 symbols, 258 of them of 9 bits, for which two codes share a table entry |
| CrowdedCode.MisreadStream | components/data_compression/include/huffman_decoder.hpp:328-363 | every stream that starts with the bits 0 1111 1110 starts with the code of symbol 0 of that code, and tables and comparisons make symbol 256 of it |
| DeflateStream.CutServes | components/data_compression/include/huffman_decoder.hpp:1078-1088 | tables built from the list of lengths up to the last code serve the whole code |
| DeflateStream.BuildBlock | components/data_compression/include/huffman_treegen.hpp:2346-2370 | from frequencies whose trees fit the histogram: codes for every symbol that occurs, agreed with the decoder, the last symbols in use, and the code for their lengths; below height 15 the counting pass loses nothing |
| DeflateStream.BlockThereAndBack | components/data_compression/include/huffman_decoder.hpp:1026-1102 | header and body in one bit stream through one register: the lengths of both trees come back, and with the tables built from them the decoder hands out the words of the block, and sees its end, if and only if the literal tables have room for every symbol the block uses |
| DeflateTrees.RoomyExactly | components/data_compression/include/huffman_decoder.hpp:810-829 | the tables read all symbols of a block right if and only if each of its literal, length and end symbols is among the last 256 of its length |
| DeflateWhole.Lz77DivideStream | components/data_compression/include/lz_optional.hpp:130-236 | the nine-bit words of the tokens, and frequencies that are the number of uses of each literal, length and distance symbol |
| DeflateWhole.HuffmanProcessingUnit | components/data_compression/include/huffman_encoder.hpp:215-281 | joins the nine-bit words to the tokens they came from |
| DeflateWhole.FindBlockMatches | components/data_compression/include/zlib_compress.hpp:69-72 | the streaming match finder, the streaming filter with one token of look-ahead and the booster account for one block, with matches of 3 to 255 bytes within 32 KB; the tokens are those the block determines |
| DeflateWhole.DeflateAndInflate | components/data_compression/include/zlib_compress.hpp:54-111 | match finder, filter, booster, division, trees, header, codes, bits and decoder in sequence. If both trees fit the histogram and what the counting pass loses is counted elsewhere, the lengths come back from the header, and the decoder hands out the words of the block if and only if no length above 8 has more than 256 literal codes; copying then gives the input block. Below 1596 bytes the first two conditions always hold, with at most 256 symbols in use the third |
| LzCore.ParsedWordsProduce | components/data_compression/include/lz_decompress.hpp:48-106 | tokens that account for the input, one after the other, reproduce it by the byte-serial copy |
| LzCompress.BestMatch | components/data_compression/include/lz_compress.hpp:313-340 | the match reported is the longest qualifying one in its slot, the most recent of several |
| LzSearch.OnlyBest | components/data_compression/include/lz_compress.hpp:311-340 | the best tokens are determined by the block alone, whatever the dictionary looked like |
| LzSearch.HashSeparates | components/data_compression/include/lz_compress.hpp:291-298 | windows that differ in just one of the bytes hashed hash differently |
| LzSearch.HashByFront | components/data_compression/include/lz_compress.hpp:291-298 | windows that agree in the bytes hashed, three or four of them, hash alike |
| LzSearch.RunIsFound | components/data_compression/include/lz_compress.hpp:311-340 | in a run of equal bytes the full window is found, given more levels than the least offset |
| LzCompress.WorthIsGenuine | components/data_compression/include/lz_compress.hpp:315-335 | a qualifying entry of a true dictionary is a true repetition that starts inside the current block |
| LzCompress.PushKeepsTruth | components/data_compression/include/lz_compress.hpp:300-309 | a dictionary that tells the truth about the block so far keeps doing so when the next window is pushed |
| LzCompress.SlotHolds | components/data_compression/include/lz_compress.hpp:301-309 | with c windows of the same hash since position m, level c of the slot holds the window and the index of m, as long as there are that many levels |
| LzCompress.SlotFrom | components/data_compression/include/lz_compress.hpp:301-309 | whatever a level of a slot holds that was not there before the block is the window of such a position |
| LzCompress.TokenAtLongest | components/data_compression/include/lz_compress.hpp:311-340 | on any dictionary no repetition to be found is longer than the token of its position |
| LzCompress.TokenAtBest | components/data_compression/include/lz_compress.hpp:311-340 | on a harmless dictionary the token of a position is the longest repetition to be found among the windows of the same hash, and of several the latest |
| LzCompress.LzCompress | components/data_compression/include/lz_compress.hpp:57-167 | one token for every position, each match genuine, within its limits and clear of the bytes left over, and each the best there is: nothing longer is to be found, and of several the latest is taken |
| LzCompress.CompressBlock | components/data_compression/include/lz_compress.hpp:251-359 | one block of the streaming version, on any dictionary: the tokens and the dictionary afterwards are those of the positions one by one, and nothing longer was to be found |
| LzCompress.Compressor.Compress | components/data_compression/include/lz_compress.hpp:199-249 | one call in static mode, on a dictionary with arbitrary contents: nothing longer was to be found; if the flag is up, or no entry claims an index from the first block on, every match is genuine and the best, and the dictionary left behind would do for the next call; after a call with a block there is room for another; a call without one moves the counter on |
| LzStatic.StaleMatch | components/data_compression/include/lz_compress.hpp:199-249 | for every size of window and every base index, a dictionary with a stale entry and a block on which a match is reported that is none |
| LzStatic.SafeExactly | components/data_compression/include/lz_compress.hpp:199-249 | a call reports genuine matches only, whatever its dictionary holds, if and only if it finds the flush flag up |
| LzCompress.LzCompressStream | components/data_compression/include/lz_compress.hpp:192-367 | a single call: over any number of blocks the 24-bit index never reaches the mark of an empty slot before the flush, every match lies inside its block and is genuine, and every token is the best for its position |
| LzOptional.LzBestMatchFilter | components/data_compression/include/lz_optional.hpp:312-359 | exactly the matches that a later one overtakes become literals; nothing else changes |
| LzOptional.LzBestMatchFilterStream | components/data_compression/include/lz_optional.hpp:361-406 | the streaming version does so against one following token |
| LzOptional.FilterKeepsTruth | components/data_compression/include/lz_optional.hpp:312-359 | filtering keeps every token true and every match within its limits |
| LzOptional.SendComplete | components/data_compression/include/lz_optional.hpp:575-615 | a token sent accounts for just the bytes that went by since the one before |
| LzOptional.LzBooster | components/data_compression/include/lz_optional.hpp:557-621 | given true tokens the output expands exactly to the input and ends in a literal; each token sent comes from the one of the position it starts at, and a match within the booster's memory goes on until the greatest length, a mismatch or the bytes left over |
| LzOptional.LzBoosterBlock | components/data_compression/include/lz_optional.hpp:425-548 | the streaming version does so for a block, with its left-over tokens in a queue |
| LzOptional.OnlyBoosted | components/data_compression/include/lz_optional.hpp:557-621 | so the tokens that come in determine the tokens sent |
| LzPipeline.FindMatches | components/data_compression/include/lz4_compress.hpp:290-323 | match finder, filter and booster together account for the input: the best token for every position, the ones no better match overtakes, boosted |
| LzPipeline.OnlyFound | components/data_compression/include/lz4_compress.hpp:290-323 | so the block alone determines the tokens the encoder gets |
| Lz4Divide.Lz4CompressPart1 | components/data_compression/include/lz4_compress.hpp:44-101 | literals and entries carry all tokens in order unless a run of literals reaches the limit; the flag is raised if and only if one does |
| Lz4Encode.Lz4CompressPart2 | components/data_compression/include/lz4_compress.hpp:103-255 | the bytes are the LZ4 sequences of the entries (LZ4 Block Format, section "Compressed block format"), cut off at the size of the input, and the size reported is their number |
| Lz4Decode.DecodesEncoded | components/data_compression/include/lz4_decompress.hpp:201-263 | the decoder's states return exactly the literals and matches of every list of sequences, whatever its lengths |
| Lz4Decode.Lz4Decompress | components/data_compression/include/lz4_decompress.hpp:201-263 | the loop computes what the states make of the bytes |
| LzDecompress.LzDecompress | components/data_compression/include/lz_decompress.hpp:48-106 | shift register and history ring together output the byte-serial copy of the words, as far as asked for |
| Lz4RoundTrip.RoundTrip | components/data_compression/include/lz4_compress.hpp:290-323 | a block that is not flagged and got smaller than the input decompresses to the input; the tokens it carries are those the input determines, and what makes the flag and the cut is stated too |
| SnappyDivide.SnappyCompressPart1 | components/data_compression/include/snappy_compress.hpp:46-113 | runs of literals are divided at the limit, all tokens are carried in order, and the flag is never raised |
| SnappyEncode.SnappyCompressPart2 | components/data_compression/include/snappy_compress.hpp:115-364 | preamble and sections of the Snappy format (literal tags of one to three bytes, both copy forms), cut off at the size of the input |
| SnappyDecode.PreambleReadBack | components/data_compression/include/snappy_decompress.hpp:88-103 | the length preamble of one to three bytes is recognised and skipped, and read seven bits at a time, by the decoder and by section 1 of the format, it gives the length |
| SnappyDecode.DecodesSections | components/data_compression/include/snappy_decompress.hpp:105-181 | the decoder's states return exactly the literals and copies of every list of sections |
| SnappyDecode.SnappyDecompress | components/data_compression/include/snappy_decompress.hpp:55-181 | on every block whose loop ends, the loop with its re-read flag computes what the states make of each byte once, and the length read is that of the preamble |
| SnappyLoop.EndsExactly | components/data_compression/include/snappy_decompress.hpp:105-181 | the loop over position, registers and re-read flag ends if and only if no byte before the last is read as a tag with both low bits set, and then with the words the states make of each byte once |
| SnappyLoop.NeverPasses | components/data_compression/include/snappy_decompress.hpp:105-181 | at such a tag the position stays, after any number of passes |
| SnappyLoop.EndlessBlock | components/data_compression/include/snappy_decompress.hpp:105-181 | the block [1, 3, 0] is one for which the loop never ends; [1, 3] is not |
| SnappyRoundTrip.RoundTrip | components/data_compression/include/snappy_compress.hpp:390-420 | a block that got smaller than the input decompresses to the input, for matches of up to 64 bytes; the length in front is that of the input, and the tokens carried are those the input determines |
| WideCopy.DoubledCopy | components/data_compression/include/inflate.hpp:190-273 | copying from twice the distance is the same copy once the output repeats with that distance |
| WideCopy.ChunkedCopy | components/data_compression/include/inflate.hpp:190-273 | a match is its first chunk, which does not overlap itself, and the rest from the doubled distance |
| LzPreProcess.LzPreProcessingUnitLL | components/data_compression/include/inflate.hpp:190-273 | the words handed on do what the items say one byte at a time, in steps of at most P bytes that never overlap their source, with positions wrapped to the ring |
| LzMultiByte.NearAgrees | components/data_compression/include/lz_decompress.hpp:398-451 | the register ring holds the words read for every near distance, the current partial word included |
| LzMultiByte.FarAgrees | components/data_compression/include/lz_decompress.hpp:398-451 | the memory ring holds the words read for every distance up to history size less P |
| LzMultiByte.Recall | components/data_compression/include/lz_decompress.hpp:398-423 | the two words looked up, shifted, begin with the source bytes of the match |
| LzMultiByte.LzMultiByteDecompressLL | components/data_compression/include/lz_decompress.hpp:325-497 | outputs exactly the bytes of the steps, in whole words but for the last |
| LzMultiByte.DecompressItems | components/data_compression/include/lz_decompress.hpp:325-497 | both wide stages together refine the byte-serial copy of the literals and matches, distances below P included |
| SequenceReverse.BufferCycle | components/data_compression/include/zstd_compress_internal.hpp:678-706 | a written entry never lands on one still to be read |
| SequenceReverse.StreamCycle | components/data_compression/include/zstd_compress_internal.hpp:707-728 | each step emits the next entry of the reversed block or its end mark |
| SequenceReverse.ReverseSeqIntl | components/data_compression/include/zstd_compress_internal.hpp:649-733 | terminates and emits each non-empty block reversed, in block order, with its end mark, while reader and writer share one memory from both ends |
| SequenceResize.DownSizeLitlen | components/data_compression/include/zstd_compress_internal.hpp:566-603 | a literal length too wide for a byte becomes a marker entry in front; blocks stay apart |
| SequenceResize.UpSizeLitlen | components/data_compression/include/zstd_compress_internal.hpp:606-647 | joins the entries again, block by block |
| SequenceResize.ResizedReversal | components/data_compression/include/zstd_compress_internal.hpp:566-647 | splitting, reversing and joining is plain reversal with match lengths counted from the minimum |
| SequenceResize.ReverseSeq | components/data_compression/include/zstd_compress_internal.hpp:735-751 | the three stages in sequence do that for every list of blocks |
| LiteralSplit.QuarterSize | components/data_compression/include/zstd_compress_internal.hpp:346-357 | the stream size of RFC 8878, section 3.1.1.3.1.6: a quarter rounded up, or the whole up to 255 literals |
| LiteralSplit.Overlap | components/data_compression/include/zstd_compress_internal.hpp:386-413 | while one stream leaves the quarter buffer backwards the next one enters it, and no byte is overwritten unread |
| LiteralSplit.PreProcessLitBlock | components/data_compression/include/zstd_compress_internal.hpp:323-430 | one or four streams, their sizes first, each backwards, from a buffer of a quarter block |
| LiteralSplit.PreProcessLitStream | components/data_compression/include/zstd_compress_internal.hpp:323-430 | the blocks one after the other, up to the first without literals, which looks like the end of the data |
| LiteralSplit.NoMarksNeeded | components/data_compression/include/zstd_compress_internal.hpp:425-426 | a reader that takes a block's sizes, lowest byte first, and then as many bytes gets every block of what was sent back, without end marks |
| LiteralSplit.BlockReadBack | components/data_compression/include/zstd_compress_internal.hpp:346-430 | one block is read back from its sizes and streams, whatever follows |
| LiteralSplit.StreamsJoin | components/data_compression/include/zstd_compress_internal.hpp:323-430 | the streams together are the literals |
| CoreStreams.ShareAppend | components/data_compression/include/zlib_compress_details.hpp:213-235 | one more block goes to the next core round the ring and to no other |
| CoreStreams.NextCore | components/data_compression/include/zlib_compress_details.hpp:213-235 | the four-bit core counter goes round a ring of up to 16 cores |
| CoreDistributor.NoShortBlock | components/data_compression/include/zlib_compress_details.hpp:196-275 | no core gets a block of MIN_BLCK_SIZE bytes or less, and the stored tail is never longer than that |
| CoreDistributor.LongBlockIff | components/data_compression/include/zlib_compress_details.hpp:213-262 | a block is longer than BLOCK_SIZE if and only if the input leaves just one packet less than the queue holds behind its whole blocks |
| CoreDistributor.LongBlockExample | components/data_compression/include/zlib_compress_details.hpp:213-262 | with the default sizes 32832 bytes become one such block |
| CoreDistributor.AllWritten | components/data_compression/include/zlib_compress_details.hpp:230-262 | the two wrapping byte counters are equal just when only the end of the input is left in the queue |
| CoreDistributor.MulticoreDistributor | components/data_compression/include/zlib_compress_details.hpp:173-283 | for any core count and first core every packet goes once and in order to a block or to the stored tail, block j to core first + j, with the block flags, the stored size and the file size that fit, although the 32-bit byte counters wrap |
| CorePacker.BlockRead | components/data_compression/include/zlib_compress_details.hpp:397-409 | reading a block from the core whose turn it is leaves the shares of the later blocks |
| CorePacker.GzipZlibPackerEngine | components/data_compression/include/zlib_compress_details.hpp:373-460 | header, all blocks in the order of the input, stored tail with length and complement, final empty block, checksum and size; read by the formats, body, tail, checksum and size come back; every core's stream is read to its end |
| CorePacker.StoredReadBack | components/data_compression/include/zlib_compress_details.hpp:411-432 | the stored block is read back as exactly the tail, whatever follows |
| CorePacker.PackedReadBack | components/data_compression/include/zlib_compress_details.hpp:411-455 | a reader written from RFC 1950, 1951 and 1952 finds header and body, the tail in stored blocks whose length and complement fit, then checksum and size, modulo 2^32, in the byte order of each format |
| BytePacking.BytePacker | components/data_compression/include/zlib_compress_details.hpp:462-511 | the same bytes without gaps: whole words, at most one shorter word, then the end |
| CoreOrder.CoreOnBlocks | components/data_compression/include/zlib_compress_details.hpp:373-460 | a core that treats its blocks one by one keeps them apart and in order, whatever it makes of them |
| CoreOrder.BytesConserved | components/data_compression/include/zlib_compress_details.hpp:173-283 | the bytes of the blocks and of the tail are the bytes of the input |
| CoreOrder.StoredWords | components/data_compression/include/zlib_compress_details.hpp:263-274 | the bare words and the size sent for the tail stand for exactly its bytes |
| CoreOrder.CompressInOrder | components/data_compression/include/zlib_compress_details.hpp:373-511 | distributor, cores, gzipZlibPackerEngine and bytePacker in sequence: one gap-free byte string with the treated blocks in input order, which reads as header, these blocks, the tail, the checksum and the size of the input, for any number of cores, any first core and any work on the blocks |
| Adler32.AdlerConcat | components/security/include/adler32.hpp:229-296 | the checksum of a message can be taken part by part |
| Adler32.ReducedOnce | components/security/include/adler32.hpp:229-296 | reducing once after W bytes gives what reducing after every byte gives |
| Adler32.Reduce | components/security/include/adler32.hpp:257-262 | one look-up among the 17 multiples brings the sum below the modulus |
| Adler32.WordSums | components/security/include/adler32.hpp:249-254 | the 12-bit and the 16-bit sum of up to 16 bytes never wrap |
| Adler32.FullStep | components/security/include/adler32.hpp:244-275 | one step of W bytes is W steps of the byte-wise checksum |
| Adler32.Checksum | components/security/include/adler32.hpp:228-296 | for 1 to 16 bytes per step the result is the Adler-32 of RFC 1950, section 8.2, of the message's bytes |

## Left out

- TableDecoder.BuildTables: needs some code no longer than the root, which every complete code of the sizes in use has.
- HuffmanConstruct.HuffConstructTree: claims optimality when the tree is no deeper than maxBits; for a deeper one, whose lengths HuffmanLimit.OnlyOne fixes, it does not compare the cost with the least possible within maxBits.
- HuffmanLengths.ComputeBitLength: needs a tree lower than the histogram is long, since the code does not check the index; HuffmanLengths.IndicesInside gives the exact condition, HuffmanConstruct.SteepFrequencies an input outside it. What is written beyond the array is not modelled.
- DeflateWhole.DeflateAndInflate: covers one block; nothing is claimed when a tree does not fit the histogram, or when a token of the header has an empty code, whose field looks like the end of the header to the encoder.
- DeflateStream.BlockThereAndBack: the decoder's loop over the blocks of a file, stored and fixed blocks and the file headers are not part of this model; the reader starts at the header of a block.
- LzCompress.Compressor.Compress: needs room for one more block after calls without any block; indices beyond 24 bits are not modelled.
- CoreDistributor.MulticoreDistributor: has the 32-bit byte counters of its uses in zlib_compress.hpp:354 and 502; the 64-bit default is not modelled.
- DeflateEncode.HuffmanEncoderStream: takes length_code and dist_code as look-up data with the property that base value and extra bits reach the value; the tables' 771 entries are not written out (DeflateTables.TablesAreSound shows that such tables exist).
- SnappyRoundTrip.RoundTrip: matches of more than 64 bytes, for which the encoder writes no valid tag, are excluded by a precondition.
- LzCompress.LzCompressStream: memReadBegin's 16-bit wrap, which nothing depends on, is not modelled.
- SnappyDecode.SnappyDecompress: is given blocks whose loop ends, which SnappyLoop.EndsExactly characterises.
- LzMultiByte.DecompressItems: needs the history size to be a multiple of the word size and distances of at most that size less P.
- Bit sets `left` and `right` of the tree builder are sets of node numbers.
- The end-of-stream markers of the LZ4 and Snappy token streams (a zero word or a flag) are the end of a sequence.
- huffmanBytegen and huffmanBytegenStatic beyond their table look-up: the low-latency decoder stands for the decoding loop.
- lzProcessingUnitLL: it leaves an output flag unassigned in one branch; the model starts from literals, lengths and distances.
- truncateTreeStream, createTreeStream and the partial radix stages: streaming copies of modelled functions (the first never truncates).
- createZstdCodeword, FSE encoding, zstd frame headers, container header parsing, crc32: not part of this model.
- AXI adapters, memory movers, host code and wrappers: no visible algorithm.

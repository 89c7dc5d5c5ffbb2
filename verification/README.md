# Verified model of two components

The repository is KINT, an integer-error analyser for LLVM bitcode, together with the programs
it is run on. Two of its parts carry deep properties, and this project models both in Dafny and
proves them:

- **The bzip2 compressor and decompressor in `tests/bzip2.c`**: run-length coding of the input,
  rotation sort by prefix doubling, inverse Burrows-Wheeler transform in its fast and its
  small-memory form, move-to-front with bijective base-2 run lengths, Huffman length
  construction, canonical codes and decoding tables, the choice of coding tables, the cutting of the
  input into blocks, the 32-bit bit buffers, and the two state machines that feed bytes in and hand
  bytes out. Each stage is a module with its own theorem; `BlockPipeline.RoundTrip` joins the stages
  of one block,
  `StreamRoundTrip.RoundTrip` decodes the very bytes that any calls of the compressor hand out, and
  `StreamRoundTrip.FileRoundTrip` does the same for a file written with the library's own loops.
- **KINT's path and check encoding**: the translation of values and of the cut control-flow
  graph into logical formulas, the inserted division and shift checks, observability, and the
  worklist that decides which edges are cut.

The modules that run in place in the source run in place here: arrays that are sorted, reversed
and overwritten (`fmap`, `eclass`, `heap`, `parent`, `mtfa`, `tt`, `ll16`, `ll4`, the 16-bit
symbols laid over `ptr`), and classes for the bit buffers (`BitStream.Writer`, `BitStream.Reader`),
the compressor (`Compressor.EState`), the decompressor (`Decompressor.DStream`) and its output side
(`RunDecode.DState`), the symbol reader and the range pass. Methods are proved against functions on
sequences; the lemmas about those functions carry the theorems.

## How it is laid out

| part | files |
|---|---|
| words and bits | `Bits`, `WordLanes`, `BucketBits`, `BitStream` |
| block sort | `Rotations`, `Counting`, `QuickSort`, `PrefixDoubling`, `FallbackSort` |
| inverse transform | `BwtTheory`, `InverseBwt` |
| move to front and runs | `MoveToFront`, `TwoLevelMtf`, `RunCode`, `MtfEncode`, `MtfDecode` |
| Huffman coding | `HuffmanHeap`, `HuffmanLengths`, `HuffmanTree`, `HuffmanDepth`, `HuffmanOptimal`, `OptimalLengths`, `CodeLengths`, `HuffmanCodes`, `GroupTables` |
| block format | `StreamTables`, `SymbolStream`, `BlockTables`, `BlockPipeline`, `BlockSize` |
| stream format | `Checksums`, `StreamFormat` |
| state machines | `RunLength`, `BlockCutting`, `Compressor`, `FileWriter`, `RunDecode`, `Decompressor`, `StreamRoundTrip` |
| KINT | `BitVectors`, `ValueConstraint`, `PathConstraint`, `PathRuns`, `Reachability`, `BackEdges`, `Checks` |

`dafny verify dfyconfig.toml` checks the whole project. Integers are unbounded in Dafny; where the
source relies on a width, the model writes it out (`Shl32`, `% 0x1_0000_0000`, 16-bit sums, bytes
stored modulo 256, w-bit vectors as integers modulo 2^w).

## Hypotheses

- The control-flow graph is well formed as LLVM's verifier demands: the entry block has no
  predecessor, phi nodes have an operand for every predecessor, switch case values are distinct,
  conditions are one bit wide. For the statements about runs it is in SSA form.
- `FindFunctionBackedges` is LLVM's; what it provides is stated as a rank that grows along every
  edge that is kept.
- `PathRuns.SatisfiableIffReached` and the check theorems need the two arms of each conditional
  branch to differ. Without that the edge condition is wrong in exactly the cases that
  `PathRuns.EdgeExact` describes, and `PathRuns.EqualArmsMissed` gives one. They also need every
  terminator to be one `EdgeCondition` knows; the uniqueness statements (`OneSuccessor`,
  `PathsAgree`, `OnePath`) are for functions whose blocks end only in `br`, `switch` or `ret`.
- Executions read every value through `ValueConstraint.Run`, which has no result for a division,
  remainder or shift that LLVM leaves undefined. Z3's operators are total there, so a formula can
  hold where no execution gets: `PathRuns.EndsRunExactly` says exactly when a satisfying valuation
  is that of an execution, and `PathRuns.UndefinedConditionTaken` gives a graph in which it is not.
- What is handed to the decoder is a complete stream written by the encoder.
- Frequencies given to `MakeCodeLengths` add up to less than 2^23, so that weights stay within 32
  bits; a block has at most 900001 symbols. The limit is roomy for the alphabet
  (`HuffmanDepth.Roomy`), as every limit from 15 on is; the source passes 20. With more symbols
  than 2^maxLen the loop never ends (`CodeLengths.Round`); for limits in between nothing is claimed
  about its end.
- The checksum step is a function parameter with 32-bit results: the statements hold for every
  choice of it, `BZ_UPDATE_CRC` over any table among them (`Checksums.TableStep`).

## Where the code and its text differ

- The comment in `generateMTFValues` says there are no more symbols than block bytes. With the
  end-of-block symbol there is one more, except exactly when the sequence numbers start with two
  zeros or three neighbours are equal (`RunCode.SymbolCount`); a block of one byte gives two symbols
  (`RunCode.OneByte`). 16-bit symbols over 32-bit words leave room for it, and
  `MtfEncode.GenerateMtfValues` covers it.
- A first `BZ_FINISH` or `BZ_FLUSH` call changes the mode even when it then makes no progress; for
  `BZ_FINISH` the caller sees `BZ_SEQUENCE_ERROR` although the mode is now finishing. This happens
  exactly without room and with no input or with coded bytes waiting (`Compressor.EState.FinishCall`).
  `BZ_FLUSH` answers `BZ_FLUSH_OK` then; `Compressor.EState.FlushCall` says exactly when.
- How calls cut the input makes no difference to the blocks, but for one case that the interface
  does not mention: a block that is full just as the input ends. If a `BZ_RUN` call took the last
  byte, the full block is emitted and the pending run goes into a last block of its own; if the
  `BZ_FINISH` call took it, the block takes the run in and is the last (`BlockCutting.SameBlocks`,
  with the instance `BlockCutting.TakenByFinish`). Both streams decode to the same bytes.
  `BZ2_bzWriteClose64` hands no bytes to the finish, so the blocks of a file do not depend on the
  buffers (`FileWriter.WriteFile`).
- `unRLE_obuf_to_output_FAST` fetches the next run even when there is no room, the SMALL form
  returns first. The states at return differ; what was given and what is owed do not.
- `EdgeCondition` handles `indirectbr`, although the comment on its last branch lists it among the
  ignored terminators.

## Model

| member | source | states |
|---|---|---|
| QuickSort.SimpleSort | tests/bzip2.c:815-842 | Sorts a stretch of fmap by eclass: a rearrangement, in order, with everything outside unchanged, whichever of the two insertion passes run |
| QuickSort.Rotate | tests/bzip2.c:849-858 | One conditional-length vector swap (the shorter side) exchanges the two stretches as wholes, whatever their lengths |
| QuickSort.Partition | tests/bzip2.c:918-943 | The four-finger scan: equal keys at both ends, smaller and larger in between, as a rearrangement |
| QuickSort.Gather | tests/bzip2.c:949-953 | After both vector swaps the equal keys lie between n and m, smaller before, larger after, and n, m are the bounds the source computes |
| QuickSort.Split3 | tests/bzip2.c:897-960 | One turn either sorts the part or leaves two strictly smaller parts, larger one first, with every pair across them already in order |
| QuickSort.StackDepth | tests/bzip2.c:893-894 | Each stacked part is at most half the one below it, so a part of a 32-bit range never lies 32 deep: the bound of 100 is never reached |
| QuickSort.WorkShrinks | tests/bzip2.c:892-962 | The stacked parts cover less and less: the explicit-stack loop ends |
| QuickSort.Sort | tests/bzip2.c:876-963 | fallbackQSort3: fmap[lo..hi] is rearranged and sorted by eclass, everything outside unchanged, termination, stack index always below 100 |
| BucketBits.SetBH | tests/bzip2.c:988 | Sets one bucket bit and no other |
| BucketBits.ClearBH | tests/bzip2.c:989 | Clears one bucket bit and no other |
| BucketBits.SkipFlags | tests/bzip2.c:1062-1066 | Bit steps, word steps and bit steps together stop at the first bit with the other value |
| PrefixDoubling.LevelSorted | tests/bzip2.c:1042-1058 | Bucket bits that mark exactly the places where the first h characters change mean fmap is sorted by the first h characters |
| PrefixDoubling.RankPair | tests/bzip2.c:1049-1054 | The bucket starts order rotations exactly as their first h characters do |
| PrefixDoubling.StartsRank | tests/bzip2.c:1049-1054 | The class numbers written into eclass rank each position by the h characters that follow the first h |
| PrefixDoubling.RefineBucket | tests/bzip2.c:1077-1088 | Sorting one bucket by class and marking class changes deepens that bucket from h to 2h characters and leaves the rest of the invariant alone |
| PrefixDoubling.DeepEnough | tests/bzip2.c:1094-1096 | Sorted by the first h characters with h at least the block length means whole rotations are in order |
| FallbackSort.CountBytes | tests/bzip2.c:1014-1016 | Byte counts of the block |
| FallbackSort.Place | tests/bzip2.c:1019-1024 | Filling buckets from their ends lists every position once, in byte order, and leaves the bucket starts in ftab |
| FallbackSort.MarkBuckets | tests/bzip2.c:1026-1040 | Exactly the bucket starts are flagged below nblock, and the sentinel bits at nblock and nblock + 1 are set and clear |
| FallbackSort.RadixPass | tests/bzip2.c:1014-1040 | The invariant of the doubling loop holds for one character |
| FallbackSort.FillEclass | tests/bzip2.c:1049-1054 | eclass ranks every position by its h-character rotation prefix, shifted by h with wrap-around |
| FallbackSort.FindBucket | tests/bzip2.c:1060-1075 | The search brackets the next bucket of more than one entry, or finds all entries flagged |
| FallbackSort.Remark | tests/bzip2.c:1083-1087 | A flag at every change of class in the bucket and nowhere else |
| FallbackSort.SortBucket | tests/bzip2.c:1078-1088 | One bucket: sorted, reflagged, and first characters untouched |
| FallbackSort.Round | tests/bzip2.c:1046-1094 | One round of the doubling loop: sorted to h characters becomes sorted to 2h; nothing left to do means fully sorted |
| FallbackSort.Double | tests/bzip2.c:1042-1096 | The log(N) loop ends with all rotations in order |
| FallbackSort.Reconstruct | tests/bzip2.c:1105-1111 | The bytes written back over eclass are the original block, and the byte counter stays below 256 |
| FallbackSort.Sort | tests/bzip2.c:995-1112 | For every block: fmap becomes a permutation whose cyclic rotations do not decrease, and eclass holds the block again |
| BwtTheory.TurnedSorted | tests/bzip2.c:3366-3371 | Rotations each turned back by one character and picked by stable counting sort are again in order |
| BwtTheory.TurnedMultiset | tests/bzip2.c:3366-3371 | Turning all rotations back permutes the rotations |
| BwtTheory.WalkStep | tests/bzip2.c:3366-3373 | Following the link of row j leads to a row spelling the rotation one later, also when rotations are equal |
| BwtTheory.AtRowStep | tests/bzip2.c:739-742 | A walk that spells the block from character k goes on to spell it from k + 1 |
| InverseBwt.Cumulate | tests/bzip2.c:3326-3329 | Cumulated byte counts are the bucket starts of the last column |
| InverseBwt.LinkStep | tests/bzip2.c:3367-3371 | Oring i << 8 into the bucket slot of character i adds that one link and disturbs no character and no earlier link |
| InverseBwt.BuildFast | tests/bzip2.c:3366-3371 | The table built in place holds every character in its low byte and the stable counting-sort order in its links |
| InverseBwt.GetFast | tests/bzip2.c:739-742 | BZ_GET_FAST returns character k of the block, for every k, going round |
| InverseBwt.StartFast | tests/bzip2.c:3373 | The walk starts at the first character |
| InverseBwt.SetLL | tests/bzip2.c:758-761 | SET_LL stores any 20-bit link without disturbing its neighbours |
| InverseBwt.GetLL | tests/bzip2.c:763-764 | GET_LL reads the 20-bit link back |
| InverseBwt.BuildForward | tests/bzip2.c:3333-3341 | T computed in place over the characters: entry i is the counting-sort position of row i |
| InverseBwt.ReversePointers | tests/bzip2.c:3343-3352 | The reversal inverts T exactly on the cycle through origPtr and leaves every other entry alone |
| InverseBwt.IndexIntoF | tests/bzip2.c:4101-4112 | The bisection finds the bucket that contains the index |
| InverseBwt.FirstColumn | tests/bzip2.c:766-768 | The bucket of a row is its first character |
| InverseBwt.GetSmall | tests/bzip2.c:766-768 | BZ_GET_SMALL returns character k of the block, the same as BZ_GET_FAST |
| InverseBwt.BuildSmall | tests/bzip2.c:3326-3354 | The whole small-memory preparation leaves a table from which the block is read |
| BitStream.AddBits | tests/bzip2.c:2253-2258 | Oring v << (32 - bsLive - n) appends exactly n bits: the shift count is never negative, bits below the live part stay zero |
| BitStream.Writer.Need | tests/bzip2.c:2238-2247 | Shipping bytes changes nothing of what has been written and leaves fewer than 8 live bits |
| BitStream.Writer.W | tests/bzip2.c:2253-2258 | bsW appends the n bits of v, most significant first, and nothing else |
| BitStream.Writer.Finish | tests/bzip2.c:2226-2234 | The shipped bytes are everything written, padded with fewer than 8 zero bits |
| BitStream.MaskBits | tests/bzip2.c:2880-2883 | The mask and shift of GET_BITS deliver the n oldest live bits |
| BitStream.Reader.GetBits | tests/bzip2.c:2876-2898 | GET_BITS delivers the next n bits however the input is cut into buffers, or takes all input and loses no bit when there are not enough |
| BitStream.RoundTrip | tests/bzip2.c:2226-2258 | Any list of fields of 1 to 24 bits written, finished, cut into buffers of any sizes and read with the same widths comes back |
| StreamTables.SendMapping | tests/bzip2.c:2672-2689 | Sixteen row flags, then the sixteen flags of each used row |
| StreamTables.RecvMapping | tests/bzip2.c:3099-3114 | The mapping table is read back unchanged, reading exactly its bits |
| StreamTables.MtfSelectors | tests/bzip2.c:2639-2656 | Selectors as positions in a list that moves to the front |
| StreamTables.UndoSelectors | tests/bzip2.c:3135-3147 | Undoing the positions gives the selectors back, for any selectors that name tables |
| StreamTables.SendSelectors | tests/bzip2.c:2699-2702 | Each position as that many ones and a zero |
| StreamTables.RecvSelectors | tests/bzip2.c:3124-3133 | The unary positions are read back unchanged; the test against nGroups never fires on them |
| StreamTables.SendLengths | tests/bzip2.c:2709-2717 | Five bits and then steps of one up or down to each length |
| StreamTables.RecvLengths | tests/bzip2.c:3150-3162 | Delta-coded lengths of 1 to 20 are read back unchanged; the range test never fires on them |
| HuffmanCodes.FirstIsKraft | tests/bzip2.c:2005-2009 | After the codes of length n the next free code is the Kraft sum up to n |
| HuffmanCodes.CodeRange | tests/bzip2.c:1996-2010 | For every length vector within Kraft's inequality each code fits its length |
| HuffmanCodes.PrefixFree | tests/bzip2.c:1996-2010 | No code starts another symbol's code |
| HuffmanCodes.AssignCodes | tests/bzip2.c:1996-2010 | The codes assigned are the canonical ones |
| HuffmanCodes.FillPerm | tests/bzip2.c:2024-2027 | perm lists the symbols by length, then number |
| HuffmanCodes.CreateDecodeTables | tests/bzip2.c:2014-2044 | limit, base and perm are what decoding needs, for every length of the range |
| HuffmanCodes.Compare | tests/bzip2.c:2926 | The test against limit stops exactly at the symbol's own length |
| HuffmanCodes.Decode | tests/bzip2.c:2921-2934 | Decoding any code through limit, base and perm gives its symbol after exactly its length in bits, and neither error test fires |
| HuffmanLengths.MergedHeavier | tests/bzip2.c:1890-1892 | A merged weight is above both parts; its frequency is their sum, or one more if the depth byte spilled over, which `HuffmanOptimal.LowByte` rules out |
| HuffmanHeap.UpHeap | tests/bzip2.c:1894-1903 | UPHEAP restores the heap order and keeps the nodes; the sentinel ends the climb |
| HuffmanHeap.DownHeap | tests/bzip2.c:1905-1920 | DOWNHEAP restores the heap order and keeps the nodes |
| HuffmanLengths.Pop | tests/bzip2.c:1962 | The lightest root leaves the heap and the heap order is restored |
| HuffmanLengths.TwoLightest | tests/bzip2.c:1962-1963 | The two nodes merged are the two lightest roots |
| HuffmanLengths.Merge | tests/bzip2.c:1961-1971 | One merge keeps the forest: the heap holds exactly the roots, parents are numbered above children, every merge joins the two lightest roots under the node ADDWEIGHTS makes of them, weights stay within 32 bits |
| HuffmanTree.FinishedTree | tests/bzip2.c:1961-1973 | At the end there is one tree over all 2n - 1 nodes with the last node as its only root |
| HuffmanTree.FrontierFull | tests/bzip2.c:1961-1971 | Opening the tree from the root down always covers the whole code space |
| HuffmanTree.CompleteCode | tests/bzip2.c:1975-1982 | The sum of 2^(D - depth) over the leaves is exactly 2^D, for any D no depth exceeds |
| HuffmanDepth.GrowsUp | tests/bzip2.c:1890-1892 | Weights along the way from a leaf to the root grow at least like the Fibonacci numbers |
| HuffmanDepth.DepthBound | tests/bzip2.c:1961-1971 | A leaf d links deep needs a total of at least Fib(d) in the weights of all leaves but the last |
| HuffmanDepth.DeepMeansHeavy | tests/bzip2.c:1981-1990 | Where the limit is roomy for the alphabet (Fib(limit + 1) > 3n - 4), a leaf deeper than the limit means some weight other than the last can still shrink |
| HuffmanDepth.RoomyFrom15 | tests/bzip2.c:2628 | Every limit from 15 on is roomy for alphabets of up to 258 symbols; the source passes 20 |
| HuffmanOptimal.LowByte | tests/bzip2.c:1886-1892 | The depth byte of a node is its height, at most 33: it never spills over into the frequency |
| HuffmanOptimal.ExactSum | tests/bzip2.c:1890-1892 | A merged frequency is the sum of its parts |
| HuffmanOptimal.Lightest | tests/bzip2.c:1962-1963 | The two nodes joined are no heavier than any other root standing at the time |
| HuffmanOptimal.Best | tests/bzip2.c:1961-1971 | At every stage of the merging, no lengths for the roots that fit a code space cost less than all merges still to come |
| HuffmanOptimal.DepthCost | tests/bzip2.c:1961-1979 | With their depths the roots of every stage cost exactly the merges still to come |
| OptimalLengths.TreeOptimal | tests/bzip2.c:1961-1979 | The leaf depths of the tree are optimal: no length vector within Kraft's inequality, for any limit, makes the text shorter |
| OptimalLengths.FrequentShorter | tests/bzip2.c:1961-1979 | Optimal lengths never give the more frequent symbol the longer code |
| CodeLengths.SetWeights | tests/bzip2.c:1930-1931 | The leaves weigh the frequencies, each counted at least once, above an empty depth byte |
| CodeLengths.WalkUp | tests/bzip2.c:1977-1979 | Following parent links from a leaf counts its depth and ends |
| CodeLengths.ReadDepths | tests/bzip2.c:1975-1982 | The bytes stored are the depths modulo 256 and tooLong is raised exactly if some depth exceeds maxLen |
| CodeLengths.RescaleStep | tests/bzip2.c:1986-1990 | Rescaling adds no weight, and removes some unless every weight but the last is 1 or 2 |
| CodeLengths.CompleteFits | tests/bzip2.c:1981-1984 | A complete code of lengths up to m has at most 2^m symbols |
| CodeLengths.Round | tests/bzip2.c:1934-1991 | One turn of the outer loop, for any limit up to 255: the tree is a Huffman tree of the frequencies the weights carry; either no depth is too long and the bytes are its leaf depths and a complete code, or some depth is and all frequencies but the last are halved and raised by one; with more than 2^maxLen symbols always the second, so the loop never ends; with a roomy limit the second lowers the weights |
| CodeLengths.MakeCodeLengths | tests/bzip2.c:1924-1992 | For 2 to 258 symbols and any roomy limit (every one from 15 on): the rescaling loop ends, the lengths are between 1 and maxLen and fill the code space 2^maxLen exactly; they are the leaf depths of a Huffman tree of the frequencies, flattened once for each tree before that was too deep (not at all exactly if the first is not), and optimal for them among all lengths within Kraft's inequality |
| CodeLengths.MoreFrequent | tests/bzip2.c:1924-1992 | Of two symbols the more frequent, after the flattening, never has the longer code |
| GroupTables.LanesApart | tests/bzip2.c:2514-2565 | Two sums of fifty lengths of at most 20 never carry between 16-bit lanes or out of the word |
| GroupTables.FastCosts | tests/bzip2.c:2538-2565 | The packed fast track gives the six plain costs |
| GroupTables.SlowCosts | tests/bzip2.c:2567-2573 | The 16-bit sums of the slow loop are the plain costs |
| GroupTables.ChooseTable | tests/bzip2.c:2536-2585 | The first cheapest table, the same on both tracks |
| GroupTables.SelectTables | tests/bzip2.c:2522-2615 | One selector for every group of 50, each the first cheapest table, and frequencies that count exactly the symbols of the groups that chose each table |
| GroupTables.RebuildTables | tests/bzip2.c:2627-2629 | Every rebuilt table is a complete code of lengths 1 to 20, and has Huffman lengths for the symbols of the groups that chose the table |
| GroupTables.ImproveTables | tests/bzip2.c:2502-2630 | Four rounds from any first tables: in each, every group of 50 chooses its first cheapest table of the round before and each table gets Huffman lengths for the symbols of the groups that chose it; the selectors are the choices of the last round, the tables its results, each a complete code |
| SymbolStream.SendData | tests/bzip2.c:2722-2772 | Every symbol in the code of its group's table, on the fast track and the slow |
| SymbolStream.SymbolReader.GetMtfVal | tests/bzip2.c:2907-2935 | The next symbol of the stream under its group's table; no error is reported |
| SymbolStream.ReadSymbols | tests/bzip2.c:3205-3210 | All symbols up to the end-of-block symbol are read back, and not one bit more |
| BlockTables.GroupCount | tests/bzip2.c:2453-2457 | Two tables, and one more for each of the marks 200, 600, 1200 and 2400 that the number of symbols reaches |
| BlockTables.RangeEnd | tests/bzip2.c:2467-2480 | A range ends at the first symbol with which its frequencies reach the target, or at the last of the alphabet, and where the source backs off one symbol before |
| BlockTables.InitialTables | tests/bzip2.c:2459-2497 | The tables are cheap for consecutive ranges of symbols, the last table for the first range, and dear elsewhere; each range ends where its share of the frequencies that are left is first reached, every second of the middle ones a symbol earlier; with frequencies that count the symbols the ranges cover the alphabet, so every symbol is cheap in exactly one table |
| BlockTables.MakeTables | tests/bzip2.c:2446-2636 | For the symbols of any block the selectors and tables made can be sent: at most 18002 selectors, two to six tables; they come from the first guess over the frequencies by four rounds of choosing and rebuilding |
| BlockTables.Send | tests/bzip2.c:2672-2772 | Mapping table, counts, selectors, lengths and data, in this order |
| BlockTables.Recv | tests/bzip2.c:3099-3210 | All of it is read back: used bytes, symbols, and a map from sequence numbers to bytes that inverts the encoder's; none of the error returns is taken |
| MoveToFront.FrontKeepsDistinct | tests/bzip2.c:2369-2385 | Moving an entry to the front loses and doubles none |
| TwoLevelMtf.MoveNear | tests/bzip2.c:3255-3270 | Positions below 16: the unrolled shift is the plain move to front on the joined sublists |
| TwoLevelMtf.PassStep | tests/bzip2.c:3281-3286 | Handing one entry down a sublist boundary overwrites no entry still needed |
| TwoLevelMtf.CopyStep | tests/bzip2.c:3290-3297 | The in-place rebuild overwrites no entry still to be read |
| TwoLevelMtf.Rebuild | tests/bzip2.c:3289-3298 | The rebuild moves the sublists to the top of the buffer and keeps the list |
| TwoLevelMtf.MoveFar | tests/bzip2.c:3271-3299 | Positions 16 to 255: the sublists joined are the plain move to front, sublists stay apart and inside the 4096 slots |
| TwoLevelMtf.Move | tests/bzip2.c:3249-3301 | For every position 0 to 255 the structure returns the entry there and then stands for the list with it in front |
| TwoLevelMtf.Init | tests/bzip2.c:3191-3203 | The list 0 to 255 |
| RunCode.RunValue | tests/bzip2.c:2354-2368 | Every run length n is written in at most n digits that decode to n |
| RunCode.ValueRun | tests/bzip2.c:3214-3224 | Every string of run digits is the encoding of what it counts: the digits are bijective |
| RunCode.EncLength | tests/bzip2.c:2345 | The symbols written and the pending run together never exceed the bytes read |
| RunCode.SymbolCount | tests/bzip2.c:2300-2411 | There is one symbol more than sequence numbers, except exactly when these start with two zeros or three neighbours are equal |
| RunCode.OneByte | tests/bzip2.c:2300-2411 | A block of one byte gives two symbols |
| RunCode.AlwaysInStep | tests/bzip2.c:2343-2390 | After any prefix of the block the decoder of the symbols written so far has the encoder's list and lacks only the pending run |
| RunCode.RoundTrip | tests/bzip2.c:2343-2408 | Decoding the symbols up to the end-of-block symbol gives the sequence back, for every sequence |
| MtfEncode.MakeMapsE | tests/bzip2.c:2286-2295 | Sequence numbers count the used bytes below |
| MtfEncode.MakeMapsD | tests/bzip2.c:2860-2869 | The decoder's map is the inverse of the encoder's |
| MtfEncode.WriteRun | tests/bzip2.c:2354-2368 | The pending run in halves over ptr, counted in mtfFreq |
| MtfEncode.FindToFront | tests/bzip2.c:2369-2385 | The register-shifting search finds the position and moves the entry to the front |
| MtfEncode.CodeOne | tests/bzip2.c:2343-2390 | One byte of the block keeps: symbols so far in the first halves, frequencies exact, wr + zPend <= i, every word from i on unread and unchanged |
| MtfEncode.GenerateMtfValues | tests/bzip2.c:2300-2411 | The halves from the start of ptr are all symbols of the block closed by the end-of-block symbol, mtfFreq counts each, and no entry of ptr was overwritten before it was read |
| MtfDecode.ReadRun | tests/bzip2.c:3214-3224 | es is the length the digits stand for, up to the first symbol that is not a digit |
| MtfDecode.RunTurn | tests/bzip2.c:3212-3243 | A run is stored and counted, or reported exactly if it does not fit |
| MtfDecode.MoveTurn | tests/bzip2.c:3245-3311 | A move is stored and counted, or reported exactly if it does not fit |
| MtfDecode.DecodeSymbols | tests/bzip2.c:3184-3312 | The cells are the bytes the symbols stand for, unzftab counts them, and an error is returned exactly if they do not fit in nblockMAX |
| RunLength.DecodePacked | tests/bzip2.c:3642-3671 | Decoding the runs stored in a block gives the bytes of the runs |
| RunLength.PackedWhole | tests/bzip2.c:3642-3671 | In a block the encoder makes no run of four is cut off before its count |
| Compressor.EState.AddPairToBlock | tests/bzip2.c:3642-3671 | The pending run is appended in its stored form; flags and checksum follow; at most five cells |
| Compressor.EState.FlushRL | tests/bzip2.c:3678-3682 | The pending run moves into the block, in its stored form, and the run is empty |
| Compressor.EState.AddCharToBlock | tests/bzip2.c:3686-3710 | One more byte is in the block and the pending run together, exactly as the run rules say, on the fast track and the general one |
| Compressor.EState.CopyInputUntilStop | tests/bzip2.c:3715-3755 | Input is taken from the front until the block is full or the input is used up, and is accounted for byte by byte |
| Compressor.EState.CopyOutputUntilStop | tests/bzip2.c:3760-3782 | Coded bytes are handed out in order until none is left or there is no room |
| Checksums.TableStep | tests/bzip2.c:462-467 | BZ_UPDATE_CRC over any table of 256 words is one of the checksum steps the model allows |
| Checksums.TableDivides | tests/bzip2.c:462-467 | Over the table of eight division steps for each byte, BZ_UPDATE_CRC is eight steps of division by the polynomial |
| Checksums.TableEntries | tests/bzip2.c:2064-2076 | That table begins as the source's does |
| Checksums.FinalisedDigits | tests/bzip2.c:457-460 | Finalising complements every one of the 32 digits |
| Checksums.CombineDigits | tests/bzip2.c:2785-2786 | The combined checksum: the digits of the old one a place to the left, going round, each against the digit of the block's |
| StreamFormat.EmptyChecksum | tests/bzip2.c:452-460 | The checksum of no bytes is 0 |
| StreamFormat.PutUInt32 | tests/bzip2.c:2263-2269 | The 32 bits of the word, most significant first |
| StreamFormat.PutEmission | tests/bzip2.c:2780-2845 | Written is the header exactly before the first block, magic number, finalised checksum and coding exactly of a block that is not empty, the trailer with the combined checksum exactly after the last; then everything is shipped; exactly the bytes of the block are marked as used |
| StreamFormat.SameChecksums | tests/bzip2.c:2782-2786 | Blocks that agree byte by byte have the same checksums, each and all together |
| BlockSize.FitsBehind | tests/bzip2.c:2797 | For every block that fits the block size, block, header, coding and trailer together fit the 4 * (100000 * blockSize100k + 34) bytes of arr2 they share |
| Compressor.EState.CompressBlock | tests/bzip2.c:2780-2845 | The block emitted carries its bytes, flags and checksum and is coded by its sorted rotations; the bytes handed out, those waiting and the bits in the buffer stay the stream of all emitted blocks; block and coded bytes fit arr2; nothing follows a last block |
| BlockCutting.OnlyFull | tests/bzip2.c:3787-3829 | Every block but those that a flush or finish ends reaches nblockMAX, and each flush and finish ends exactly one |
| BlockCutting.FullButLast | tests/bzip2.c:3787-3829 | Without a flush every block but the one the finish ends reaches nblockMAX |
| BlockCutting.SameBlocks | tests/bzip2.c:3715-3755 | The same bytes make the same blocks whichever calls take them, exactly unless a block is full just as the bytes end and the last byte is taken by the finishing call in one case and not in the other |
| BlockCutting.TakenByFinish | tests/bzip2.c:3808-3819 | An instance: nblockMAX + 1 bytes 0 and 1 by turns make two blocks when taken before the finish and one when taken by it |
| Compressor.EState.EndBlock | tests/bzip2.c:3810-3813 | A flush or finish whose bytes are read gives up the block with the pending run, as the last one exactly when finishing |
| Compressor.EState.FullBlock | tests/bzip2.c:3815-3818 | A block is given up without the pending run only when it reaches nblockMAX |
| Compressor.EState.OutputTurn | tests/bzip2.c:3795-3806 | Handing out a block; a new one is begun unless the last was emitted; the work left does not grow, and shrinks if a byte was handed out |
| Compressor.EState.InputTurn | tests/bzip2.c:3808-3824 | Filling a block; a full one keeps the pending run back, an ending one takes it in, and nothing else is given up: the blocks stay those that the bytes read and the flushes ended determine; outside flushing each turn that goes on leaves less work |
| Compressor.EState.HandleCompress | tests/bzip2.c:3787-3829 | The loop ends, returns only in one of four rest states, reports progress exactly if input was read or output written, and then leaves less work; the blocks stay those that the bytes read determine; a flush at rest without coded bytes waiting has given up its block; without room it makes progress exactly if a block is being filled and there is input |
| Compressor.EState.constructor | tests/bzip2.c:3574-3637 | A new compressor satisfies the invariant with nothing read |
| Compressor.EState.RunCall | tests/bzip2.c:3848-3851 | BZ_PARAM_ERROR exactly if nothing was read and nothing written, which is exactly if a block is being filled and there is no input, or coded bytes wait and there is no room |
| Compressor.EState.FlushCall | tests/bzip2.c:3868-3876 | Nothing is read and nothing written exactly if coded bytes wait and there is no room, or there is no input and either no room or nothing to emit; the mode is then still flushing exactly if there is no room and coded bytes wait or, without input, there is something to emit |
| Compressor.EState.FinishCall | tests/bzip2.c:3878-3887 | BZ_SEQUENCE_ERROR exactly if nothing was read and nothing written, which is exactly if there was no room and either no input or coded bytes waiting |
| Compressor.EState.Compress | tests/bzip2.c:3833-3890 | Every call, with any input and room, keeps the books: the blocks emitted are those that the bytes read and the flushes and finishes carried out determine; BZ_STREAM_END only after a block emitted as last and the whole stream handed out; an accepted BZ_FINISH answers BZ_SEQUENCE_ERROR exactly if nothing was read and nothing written, with the mode finishing; BZ_RUN refuses exactly without progress; an accepted BZ_FLUSH leaves the mode flushing exactly with BZ_FLUSH_OK; for all three the lack of progress is told from the call beforehand; BZ_FLUSH_OK and BZ_FINISH_OK only with the room used up; after a flush everything read is emitted; BZ_RUN_OK and BZ_FINISH_OK leave less work |
| Compressor.RunAll | tests/bzip2.c:3833-3890 | Over every sequence of calls the blocks emitted are a function of the bytes the calls took, of which kind of call took them, and of the flushes and finishes carried out; without a flush every block but the last is full; the bytes read are what the emitted blocks decode to, then the block and run in hand, and the bytes given, those waiting and the bits in the buffer are the stream of the emitted blocks; after BZ_STREAM_END the blocks are all of the input and the bytes given are the whole stream, trailer included, filled up with fewer than eight zeros |
| Compressor.SameRuns | tests/bzip2.c:3833-3890 | Two finished runs without a flush that took the same input emitted the same blocks, however the calls cut input and room, exactly unless a block is full just as the input ends and the last byte is taken by the finish in one run and before it in the other |
| Compressor.RunTwice | tests/bzip2.c:3833-3890 | The same for any two runs of the compressor; and equal blocks have equal checksums |
| FileWriter.Write | tests/bzip2.c:4366-4410 | For any buffer no call is refused, the loop ends, and the whole buffer was taken |
| FileWriter.WriteClose | tests/bzip2.c:4423-4466 | No call is refused, the loop ends with BZ_STREAM_END, and the bytes written since the start are the whole stream |
| FileWriter.WriteFile | tests/bzip2.c:4366-4466 | For any buffers the file is the complete stream of good blocks that decode to all the buffers; the blocks are a function of the bytes alone, however they are cut into buffers, and all but the last are full |
| RunDecode.DState.FetchRunFast | tests/bzip2.c:4055-4075 | The fetches find the run at p and the start of the next, wherever the block ends |
| RunDecode.DState.FetchRunSmall | tests/bzip2.c:4186-4204 | The same fetches from the packed table |
| RunDecode.DState.UnRleFast | tests/bzip2.c:4009-4095 | Fills the room or finishes the block; what is given and what is owed make up the decoded block at every return |
| RunDecode.DState.UnRleSmall | tests/bzip2.c:4167-4207 | The same for small-memory decoding |
| RunDecode.DState.DoneMeansAll | tests/bzip2.c:4226-4233 | nblock_used == save_nblock + 1 with no run left holds exactly when all bytes were given, and the checksum is then that of the decoded block |
| RunDecode.OutputAll | tests/bzip2.c:4222-4226 | For any sequence of avail_out values, and from either table, the output is the decoded block up to the total room, and it is finished exactly if the room suffices |
| BlockPipeline.FindOrigPtr | tests/bzip2.c:1866-1871 | The search finds the row that starts the block; its assertion never fires |
| BlockPipeline.SortAndCode | tests/bzip2.c:2794-2829 | Sort, origPtr and symbols of the last column |
| BlockPipeline.CompressBlock | tests/bzip2.c:2826-2830 | The randomised bit, origPtr, tables and data of the block, in this order; the used bytes are those given, and the tables are made from the frequencies of the symbols |
| BlockPipeline.RecvColumn | tests/bzip2.c:3084-3318 | The decoder has the last column, its byte counts and origPtr |
| BlockPipeline.RoundTrip | tests/bzip2.c:2794-2830 | For every block that fits the block size: sorted, coded, written, read with the limit of that block size, decoded and handed out in any portions, in either memory mode, it gives the bytes it stands for up to the total room, and is finished, with their checksum, exactly if the room suffices |
| Decompressor.BlocksKeep | tests/bzip2.c:2782-2831 | Leaving out the empty blocks changes neither the bytes, nor the bits, nor the combined checksum |
| Decompressor.GetUInt32 | tests/bzip2.c:3074-3082 | Four bytes shifted in are the word that was written |
| Decompressor.GetHeader | tests/bzip2.c:3030-3042 | The header gives the block size it was written with; its error tests do not fire |
| Decompressor.GetBlock | tests/bzip2.c:3057-3452 | Magic number, stored checksum and block: the table to hand the block out from, under the limit of the stream's block size, in either memory mode |
| Decompressor.DStream.Parse | tests/bzip2.c:2939-3415 | From a complete stream: the next block ready to be handed out, or after the last the end of the stream with equal combined checksums |
| Decompressor.DStream.EndBlock | tests/bzip2.c:4226-4238 | The stored checksum is the calculated one, and is combined |
| Decompressor.DStream.Decompress | tests/bzip2.c:4212-4258 | With any room, and going on through as many input buffers as it takes: BZ_OK exactly with the room used up and bytes still to come, BZ_STREAM_END with all bytes given, no data error; the bytes extend what was given before |
| StreamRoundTrip.StreamOpening | tests/bzip2.c:2800-2840 | Every complete stream begins with 0x42 0x5a 0x68, the digit of its block size, and the six bytes of a block's magic number, or of the end's if it holds no bytes |
| StreamRoundTrip.DecodeStream | tests/bzip2.c:4212-4258 | A complete stream, however it is cut into input buffers, decoded by calls with any rooms gives its bytes up to the total room, and BZ_STREAM_END exactly if the room suffices |
| StreamRoundTrip.RoundTrip | tests/bzip2.c:3833-3890 | For every sequence of compressor calls that ends with BZ_STREAM_END, decoding the very bytes the calls gave, with any input and output buffers, returns exactly the input they took; the bytes begin with "BZh", the digit of the block size, and the magic number of a block, or of the end if there was no input |
| StreamRoundTrip.FileRoundTrip | tests/bzip2.c:4366-4466 | A file written from any buffers, read and decoded with any buffers gives the same bytes |
| ValueConstraint.GetTyped | kint/constraint.cpp:183-230 | Every term has the width of its value and a value that fits, at every valuation |
| ValueConstraint.GetPreserves | kint/constraint.cpp:153-218 | Whenever an execution computes a value, the term evaluates to it: 13 operators, 10 comparisons, truncation and extensions, at every width |
| ValueConstraint.BitwiseMeaning | kint/constraint.cpp:211-216 | The bit-vector conjunction, disjunction and exclusive or make every digit from the two digits in its place |
| BitVectors.SdivMeaning | kint/constraint.cpp:199-200 | Signed division of bit vectors truncates toward zero |
| BitVectors.SremMeaning | kint/constraint.cpp:203-204 | The signed remainder takes the sign of the dividend |
| BitVectors.AshrMeaning | kint/constraint.cpp:209-210 | The arithmetic shift is division rounding down |
| PathConstraint.EdgeCondition | kint/constraint.cpp:265-309 | The formula built for an edge holds exactly when the edge condition does |
| PathConstraint.PhiAssignment | kint/constraint.cpp:311-329 | The formula built for a predecessor holds exactly when every analysed phi equation does |
| PathConstraint.Path | kint/constraint.cpp:238-263 | The path formula is true under a valuation exactly if some path from the entry over kept edges has every edge condition and phi equation true; the recursion ends by rank |
| PathRuns.EdgeExact | kint/constraint.cpp:265-309 | Where the value branched on has a result, the edge condition is what an execution does, exactly unless both arms of a conditional branch lead to the block while the condition is false, or the terminator is an unhandled one; where it has none, no execution takes the edge |
| PathRuns.EqualArmsMissed | kint/constraint.cpp:280 | An instance: a conditional branch with equal arms that is taken while its edge condition is false |
| PathRuns.OneSuccessor | kint/constraint.cpp:265-309 | Under every valuation a branching block has exactly one successor whose edge condition holds |
| PathRuns.PathsAgree | kint/constraint.cpp:238-263 | Two satisfied paths under one valuation agree as far as both go |
| PathRuns.OnePath | kint/constraint.cpp:238-263 | Blocks whose path formulas hold under one valuation lie on one path |
| PathRuns.EndsRunExactly | kint/constraint.cpp:238-329 | A valuation is the last of a run along a path exactly if it satisfies the path and every branch condition and phi operand on the path has a result |
| PathRuns.StuckOnTheWay | kint/constraint.cpp:238-329 | A satisfied path that is no run has a front that is a run and meets a division, remainder or shift without a result |
| PathRuns.AlwaysRuns | kint/constraint.cpp:187-230 | A value has a result at every valuation if each division, remainder and shift under it has a harmless constant on the right |
| PathRuns.SatisfiableIffReached | kint/constraint.cpp:238-329 | If an execution reaches the block its path formula is satisfiable; if it is, an execution reaches the block or some execution meets a value without a result; without such values in conditions and phi operands the formula is satisfiable exactly if an execution reaches the block |
| PathRuns.UndefinedConditionTaken | kint/constraint.cpp:196-197 | An instance: behind a branch on 7 / %x == 255 the path formula is satisfiable, and no execution gets there |
| PathRuns.CheckFailsIffSatisfiable | kint/smt_query.cpp:31-34 | An execution that reaches the check and computes its operand as true makes P && V satisfiable; if P && V is satisfiable there is one, or an execution meets a value without a result; without such values it is satisfiable exactly if there is one |
| ValueConstraint.OverflowCase | kint/check_insertion.cpp:125-142 | A signed quotient is undefined exactly for a zero divisor and for the least value over -1, at every width |
| Checks.DivCheckExact | kint/check_insertion.cpp:114-145 | The inserted division check is true exactly if the division or remainder is undefined, at every width |
| Checks.ShiftCheckExact | kint/check_insertion.cpp:147-161 | The inserted shift check is true exactly if the shift amount is at least the width, at every width |
| Checks.HitIsUndefined | kint/check_insertion.cpp:114-145 | Where the operands are computed, an execution computes the inserted check as true exactly if the division it guards has no result |
| Checks.ShiftHitIsUndefined | kint/check_insertion.cpp:147-161 | Where the operands are computed, an execution computes the inserted check as true exactly if the shift it guards has no result |
| Checks.UndefinedDivisionIffSatisfiable | kint/check_insertion.cpp:114-145 | From inserted check to query: an execution that reaches the division with computed operands and no result makes the constraint satisfiable; where nothing on the way can be without a result, it is satisfiable exactly if there is such an execution |
| Checks.UndefinedShiftIffSatisfiable | kint/check_insertion.cpp:147-161 | The same for shifts: an execution that reaches the shift with computed operands and no result makes the constraint satisfiable; where nothing on the way can be without a result, it is satisfiable exactly if there is such an execution |
| Checks.IsObservable | kint/check_insertion.cpp:172-199 | True exactly if some chain of instruction users leads to a directly observable instruction; the worklist ends |
| BackEdges.RangePass.Search | kint/smt_solving.cpp:38-49 | The set recorded for a block is exactly the other blocks reachable from it; the worklist ends |
| BackEdges.RangePass.BackEdgeAnalysis | kint/smt_solving.cpp:34-52 | Every block has its exact set; sets already in the map are kept |
| BackEdges.OnlySelfLoops | kint/range_helper.cpp:49-51 | Dropping the edges from recorded predecessors leaves no cycle but self-loops |
| BackEdges.KeptExactly | kint/range_helper.cpp:49-51 | An edge is kept exactly if it is a self-loop or lies on no cycle |

## Left out

- mainSort and its helpers (`tests/bzip2.c:1130-1794`), and so the choice between the two sorts by block length and work budget: `BlockPipeline` sorts every block with `fallbackSort`, which meets the same contract.
- Randomised blocks: never written by this version of the encoder.
- Malformed streams: the error tests are in the modelled code, and it is proved that they do not fire on what the encoder writes; what happens on other input is not stated.
- Suspending `BZ2_decompress` for lack of input and resuming it from the saved scalars: where the source returns `BZ_OK` to be called again with the next buffer, the model's reader takes the next buffer and goes on, so that one call of `Decompressor.DStream.Decompress` stands for the calls until the room is used up or the stream ends.
- The interleaving of symbol reading and move-to-front decoding: the model reads all symbols of a block first and then undoes them, with the same results.
- The sharing of `arr2` between the block being filled, the sort and the coded output: the compressor's block is an array of bytes that is laid into fresh words when it is coded, and `zbits` is a sequence of its own; that block and coded bytes fit the shared storage is `BlockSize.FitsBehind`. The sharing of `arr1` between rotation starts and symbols is modelled.
- CodeLengths.MakeCodeLengths: asks for a roomy limit and for frequencies below 2^23 in total; above that the source's 32-bit weights overflow, and below a roomy limit nothing is claimed about the end of the loop, except that it has none with more than 2^maxLen symbols (`CodeLengths.Round`, which holds for every limit).
- Unrolled stretches of fifty statements are loops over the same index.
- Code lengths, selectors and symbols of a block are sequences between stages; the source keeps them in fixed two-dimensional arrays.
- Local copies that `unRLE_obuf_to_output_FAST` makes of the state and stores back at its end.
- Which of several Huffman trees of equal cost the heap produces: the lengths are tied to the frequencies through the relation `CodeLengths.LengthsOf`, which leaves the order of equal weights open.
- How good four rounds of choosing tables are against the best choice there is: each round is stated as it is.
- The 64-bit byte counters, verbosity output, allocation failures, parameter checks on null pointers, the stdio interface apart from the loops of `BZ2_bzWrite` and `BZ2_bzWriteClose64`, and the command line.
- The 256 numbers of the CRC table, apart from its first three: the checksum step is a parameter, and `Checksums.CrcTable` makes the table from the polynomial.
- The number of blocks (`blockNo`) is unbounded; the source counts in 32 bits.
- KINT range analysis (`kint/range.cpp`, `kint/range_helper.cpp`, `kint/init_range.cpp`) apart from the edges it skips, its path solver, and taint marking.
- Select instructions, GEP, pointer casts and bitcasts in `ValueConstraint`: they depend on LLVM's data layout, and select hands Z3 a bit vector where a condition is required and reads its true operand for both arms. They, loads and calls are opaque values here.
- The overflow predicates of `kint/smt_query.cpp:46-64`: their definitions are Z3's.
- The verdict printed by `Solve`: it asserts the negation of the constraint it is given. The model speaks of the constraint P && V itself.
- Caching and term sharing in the formulas, symbol names, and Z3 itself: formulas are a datatype with a semantics.

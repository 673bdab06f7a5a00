# Verified models of the 7-Zip codecs and of the session that calls them

A model, in Dafny, of the algorithms that 7-Zip-JBinding bundles in `7zip/C` and of its own session bookkeeping, with
proofs of what they are for: what a coder writes its decoder reads back, a sort sorts, a filter can be undone, a ring
of threads neither mixes up its blocks nor gets stuck, an allocator hands nothing out twice. `dafny verify
dfyconfig.toml` checks all of it.

The C code works in place, and so do the models: they are classes and methods that update fields and arrays, with the
loops of the source, and each is proved equal to a function on sequences about which the promised property is then
proved. The thread protocols are state machines whose steps are the atomic steps of the threads, with any
interleaving. 32-bit arithmetic is written out with its wrap-around where the C code relies on it.

## The parts

- **Range coder and LZMA.** `RangeCoder` is the coder as mathematics: an interval, a list of decisions and the number
  that the output spells. `RangeEncoder` and `RangeDecoder` are the two objects of the source, with the cached byte,
  the pending 0xFF bytes and the carry. `LzmaSymbols` holds the bit trees, matched literals, lengths and distances,
  `LzmaModel` the symbols of a whole stream with the 12-state machine and the last four distances. `LzmaEncoder` is
  the emission loop, for any choices of the optimiser. `LzmaDecoder` is the restartable decoder with its circular
  dictionary, its look-ahead buffer and the dry run of `RangeProbe`; `LzmaStream` says how runs on parts of the input
  and of the output fit together. `RangeBudget` and `SymbolBudget` bound the bytes of one symbol. `LzmaWhole` puts
  both sides together. `LzmaFormat` gives the format in numbers and `LzmaAnswers` the bytes of the smallest streams,
  so that what both sides share is fixed too.
- **Match finder.** `MatchTree` is the search tree as a datatype, `MatchFinder` the cyclic array of links that holds
  it, `MatchRun` the finder over a whole run: a forest with one tree for each bucket, a moving window, renumbering.
- **Block sort.** `Rotations` defines the order of the cyclic rotations, `GroupOrder` the order that group numbers
  stand for while they are being refined, `GroupWords` the sizes packed into the top bits of the index words. Then the
  steps: `PairGrouping` (the radix sort by two bytes), `KeySorting` and `GroupSorting` (the two ways to sort a group),
  `RangeSorting` (the recursion), `SortRounds` and `BlockSorting` (the rounds). `HeapSorting` is the sort they use.
- **Huffman codes.** `HuffmanSymbols`, `HuffmanTree`, `HuffmanLengths`, `HuffmanCodes` follow the four phases that
  share one array; `HuffmanOptimal` proves the tree optimal; `HuffmanCoding` is the whole function, and
  `HuffmanAnswers` says which of several good trees it builds.
- **PPMd7 allocator.** `UnitClasses` holds the block sizes, `UnitHeap` the memory as a partition into blocks and the
  linked lists of the free ones, `UnitAllocator` the operations.
- **Checksum and framing.** `Crc` is CRC-32 by tables, by words and by bits. `XzVarInt`, `XzIndex` and `XzBlockHeader`
  are parts of the .xz format, with bytes that are known beforehand in `XzAnswers`; `Lzma2Chunks` is what LZMA2 puts
  around its data, and `Lzma2Format` which streams are legal.
- **x86 filter.** `BranchX86`.
- **PPMd8 range coder.** `Ppmd8RangeCoder`, and some of its bytes in `Ppmd8Answers`.
- **Threads.** `CoderRing` is the multithreaded coder. `BlockRing` is a producer and a consumer of blocks with
  semaphores, start and stop, and `ChainedRings` two such rings in a row, with the stop inside the stop. `Session` is
  the bookkeeping of native calls, callbacks and attached threads in `jbinding-cpp`.

`Words`, `Counting` and `Permutations` hold what several of these share.

## Model

| member | source | states |
|---|---|---|
| RangeCoder.DecodeAll | 7zip/C/LzmaDec.c:17-25 | For every list of adaptive and direct decisions, a decoder that stands where the encoder stood reads every decision back from any bytes that lie in the encoder's final interval, and stays in step with it: range, code relative to low, position and every probability. |
| RangeEncoder.RangeEnc.ShiftLow | 7zip/C/LzmaEnc.c:509-528 | The number spelled by the bytes sent, the cached byte, the pending 0xFF bytes and `low` is multiplied by 256: a carry is propagated through all pending bytes and never passes the cached byte. |
| RangeEncoder.RangeEnc.EncodeBit | 7zip/C/LzmaEnc.c:552-573 | The object moves exactly as the interval of the mathematical coder does for one adaptive decision, its probability array included, and keeps room for a carry. |
| RangeEncoder.RangeEnc.EncodeDirectBits | 7zip/C/LzmaEnc.c:537-550 | The same for a run of bits of equal probability. |
| RangeEncoder.RangeEnc.FlushData | 7zip/C/LzmaEnc.c:530-535 | Five shifts write out, in full, the lower end of the interval of everything that was encoded. |
| RangeEncoder.RcTreeEncode | 7zip/C/LzmaEnc.c:666-678 | The bits of a symbol go out from the top, each with the probability of its tree node. |
| RangeEncoder.RcTreeReverseEncode | 7zip/C/LzmaEnc.c:680-691 | The same from the bottom bit. |
| LzmaEncoder.LitEncEncodeMatched | 7zip/C/LzmaEnc.c:586-598 | The mask trick selects, for each bit, the half of the literal's tree that the byte at the last distance guides to, until the first bit that differs. |
| LzmaEncoder.FastPosInit | 7zip/C/LzmaEnc.c:107-120 | Every entry of the table is the distance slot of its index, found independently by halving. |
| LzmaEncoder.GetPosSlot | 7zip/C/LzmaEnc.c:122-133 | The look-up with the sign trick that picks one of two shifts gives the distance slot of every distance within the dictionary limit. |
| LzmaEncoder.ChoiceAdds | 7zip/C/LzmaEnc.c:1779-1845 | A choice of the optimiser adds its length in bytes: the current byte, or those before at one of the last four distances for positions 0 to 3, or at its own distance from position 4 on. |
| LzmaEncoder.LzmaEnc.CodeOneBlock | 7zip/C/LzmaEnc.c:1749-1892 | Whatever valid choices the optimiser makes, the emission loop sends the decisions of the symbols they stand for and leaves the state, the distances and the position of those symbols. |
| LzmaEncoder.LzmaEnc.Flush | 7zip/C/LzmaEnc.c:1597-1632 | The end marker, if wanted, is the match with the greatest distance, and after it the output is complete. |
| LzmaEncoder.LzmaEncode | 7zip/C/LzmaEnc.c:1749-1892 | For every lc/lp/pb, all data and all valid choices, the bytes written start with 0 and decode to the data, up to its length or up to the end marker, with code 0 and every byte used; up to any smaller limit they decode to the data before it, with what the limit cuts off a match still to come. One byte alone, nothing at all, and nothing with an end marker give the bytes stated, whatever the settings. |
| LzmaAnswers.FreshEven | 7zip/C/LzmaEnc.c:1957-1995 | In a fresh model both outcomes of a decision are equally likely, in every context: bit 0 takes range / 2048 * 1024. |
| LzmaAnswers.OneLiteral | 7zip/C/LzmaEnc.c:1749-1763 | The six bytes of a stream of one literal and no end marker, as a closed form in the literal, for any lc/lp/pb. |
| LzmaAnswers.OnlyMark | 7zip/C/LzmaEnc.c:1597-1632 | No data and an end marker are the ten bytes 00 83 FF FB FF FF C0 00 00 00. |
| LzmaFormat.AdaptMeans | 7zip/C/LzmaDec.c:20-21 | A probability moves a 32nd part, rounded down, towards the outcome seen. |
| LzmaFormat.LiteralDecisions | 7zip/C/LzmaDec.c:160-192 | A literal takes nine decisions; each bit has the context of the bits before it, and after a match, while these agree with the byte at the last distance, the half of a further tree that this byte's next bit chooses. |
| LzmaFormat.ReverseDecision | 7zip/C/LzmaDec.c:309-318 | In a reverse tree decision k is bit k of the value, and each context is the node that the bits so far lead to. |
| LzmaFormat.LengthDecisions | 7zip/C/LzmaDec.c:261-292 | A length from 2 on: one or two choices and a tree of 3, 3 or 8 levels, the short ones by position. |
| LzmaFormat.DistanceDecisions | 7zip/C/LzmaDec.c:294-353 | A distance of m + 1 bits: a slot of its magnitude and second bit, then reverse-tree bits below 128, and direct and align bits from there on, in contexts given in numbers. |
| LzmaFormat.MatchDecisions | 7zip/C/LzmaDec.c:197-260 | The path to each kind of match and repeat, in contexts of the state given in numbers. |
| LzmaFormat.ViewNumbers | 7zip/C/LzmaDec.c:158-178 | The literal table is chosen by the low bits of the position and the high bits of the last byte, and lies inside the array. |
| LzmaFormat.StatesTurn | 7zip/C/LzmaEnc.c:445-448 | The 12 states after each kind of symbol are the four tables of the source. |
| LzmaFormat.LastTurn | 7zip/C/LzmaDec.c:228-365 | Of the last four distances a repeated one moves to the front, and a new one comes first and drops the oldest. |
| LzmaFormat.BytesAdded | 7zip/C/LzmaDec.c:376-408 | A match adds its length in bytes, each the same as the one its distance before it, also where that is a byte just added. |
| LzmaFormat.RefusedWhen | 7zip/C/LzmaDec.c:354-373 | A symbol is refused exactly when it reaches back before the data or out of the dictionary; the end marker never is. |
| LzmaSymbols.GuidedParses | 7zip/C/LzmaDec.c:131-426 | On any input at all, walking down a tree with a guide byte finds a value exactly when the value's decisions are what the input holds, and leaves the same coder. |
| LzmaSymbols.ReverseParses | 7zip/C/LzmaDec.c:131-426 | The same for a tree whose bits come from the bottom up, as in distances. |
| LzmaSymbols.LengthParses | 7zip/C/LzmaDec.c:131-426 | The same for a length: two choices and a tree of 3, 3 or 8 levels. |
| LzmaSymbols.DistanceParses | 7zip/C/LzmaDec.c:131-426 | The same for a distance: the slot tree, then reverse-tree, direct and align bits. |
| LzmaSymbols.SymbolParses | 7zip/C/LzmaDec.c:131-426 | The parser of a whole symbol and the list of a symbol's decisions are inverse to each other, in both directions. |
| LzmaModel.RoundTrip | 7zip/C/LzmaDec.c:131-426 | For every lc/lp/pb and every valid sequence of literals, short reps, reps and matches, decoding what was encoded gives the data, the same state, distances and probabilities, code 0, and every byte consumed. |
| LzmaStream.RoundTripPart | 7zip/C/LzmaDec.c:131-426 | The same up to any limit in the data: what comes out is the data before it, and what the limit cuts off a symbol is still to come. |
| RangeBudget.TwentyBytes | 7zip/C/LzmaDec.h:45-48 | From a normalised range, any run of at most 22 adaptive and 26 direct decisions (or 23 and none) with its last normalisation takes at most 20 bytes, whatever the input holds. |
| SymbolBudget.SymbolTwentyBytes | 7zip/C/LzmaDec.h:45-48 | Any one symbol does, on any input, so the decoder may go on without a check while 20 bytes are left. |
| RangeDecoder.RangeDec.GetBit | 7zip/C/LzmaDec.c:17-25 | The macros move range, code, position and one probability exactly as the mathematical decoder does. |
| LzmaDecoder.LzmaDec.DecodeReal | 7zip/C/LzmaDec.c:131-426 | The loop is the run of the mathematical decoder from the same state, cut at the output limit or at the input limit, and fails exactly when that run does; it never reads past the input. |
| LzmaDecoder.LzmaDec.WriteRem | 7zip/C/LzmaDec.c:428-452 | The bytes of a match that an earlier limit cut off are completed, as far as the new limit allows. |
| LzmaDecoder.LzmaDec.DecodeReal2 | 7zip/C/LzmaDec.c:454-477 | The same as `DecodeReal` across the point where the dictionary fills up and the distance check changes. |
| LzmaDecoder.LzmaDec.TryDummy | 7zip/C/LzmaDec.c:487-676 | The dry run changes nothing and reports an error exactly when decoding the next symbol would need more bytes than are there, and otherwise whether it is a literal, a match or a repeat. |
| LzmaDecoder.LzmaDec.InitDicAndState | 7zip/C/LzmaDec.c:685-699 | A new run starts with the old or an empty history and with the old or fresh probabilities, as asked for. |
| LzmaDecoder.LzmaDec.DecodeToDic | 7zip/C/LzmaDec.c:719-838 | A call, from any state that earlier calls left, ends as one run of the mathematical decoder on all input so far would: data, state, probabilities, bytes consumed and result. At the limit the status is MAYBE_FINISHED_WITHOUT_MARK exactly when nothing of a match is to come and the code is 0, else NOT_FINISHED; after the end marker FINISHED_WITH_MARK, and only with code 0; before either NEEDS_MORE_INPUT. A stream that does not begin with 0 is refused. |
| LzmaDecoder.LzmaDec.DecodeInPieces | 7zip/C/LzmaDec.c:719-838 | For every way of cutting the input into pieces, a call for each piece gives what a single call with all of it gives, up to the number of bytes consumed, with the same status by the same rule. |
| LzmaDecoder.LzmaDec.DecodeToBuf | 7zip/C/LzmaDec.c:840-878 | The same through a circular buffer that is filled, emptied and started again, as long as it covers the distances, and with the same rule for the status. |
| LzmaWhole.EncodeThenDecode | 7zip/C/LzmaDec.c:719-838 | Encode anything, cut the stream anywhere, decode piece by piece: the data comes back and the end is recognised, with and without end marker. |
| LzmaWhole.EncodeThenDecodeSome | 7zip/C/LzmaDec.c:748-760 | Decoding what was encoded up to a limit anywhere in the data gives the data before it, and a limit inside a match that the optimiser chose is always reported as NOT_FINISHED. |
| LzmaWhole.EncodeThenDecodeToBuf | 7zip/C/LzmaDec.c:840-878 | The same through a buffer that may be much smaller than the data. |
| MatchTree.InsertOrdered | 7zip/C/LzFind.c:353-456 | Splitting a search tree at the string of the new position and putting that on top keeps the tree ordered, with newer positions above older ones. |
| MatchTree.PartKeeps | 7zip/C/LzFind.c:353-456 | If the cut limit is not reached, no position is lost in the split except one with the same string as the new one. |
| MatchTree.FoundGenuine | 7zip/C/LzFind.c:376-389 | Every reported pair is a match of exactly that length, or of the limit, and the lengths grow strictly. |
| MatchTree.FoundLongest | 7zip/C/LzFind.c:353-406 | If the cut limit is not reached, no string in the tree has more in common with the current one than the longest pair reported. |
| MatchFinder.RelinkParts | 7zip/C/LzFind.c:390-403 | Following and rewriting links in the cyclic array carries out exactly the split of the tree, and no other cell changes. |
| MatchFinder.Inserted | 7zip/C/LzFind.c:353-456 | After a search the cells of the current position hold the old tree with that position inserted. |
| MatchFinder.GetMatches | 7zip/C/LzFind.c:353-406 | The loop, which compares only from the shorter of two known common prefixes on, changes the links as said and reports the matches that full comparisons would find. |
| MatchFinder.SkipMatches | 7zip/C/LzFind.c:408-456 | Skipping makes exactly the same change to the links. |
| MatchRun.ForestKept | 7zip/C/LzFind.c:353-456 | Over a whole run a search in one bucket keeps all trees proper, ordered and in disjoint cells; the others lose only what leaves the window. |
| MatchRun.ForestPasses | 7zip/C/LzFind.c:467-470 | Moving on without a search keeps the trees, each without what leaves the window. |
| MatchRun.ForestRenumbered | 7zip/C/LzFind.c:285-309 | Subtracting a number from all positions, and clearing those that get too old, keeps the trees. |
| MatchRun.Finder.Find | 7zip/C/LzFind.c:477-493 | A search at the current position reports its genuine matches and leaves the trees as described, at the next position. |
| MatchRun.Finder.Skip | 7zip/C/LzFind.c:481-482 | A skip leaves exactly the same trees. |
| MatchRun.Finder.Pass | 7zip/C/LzFind.c:467-470 | Near the end of the data the position alone moves. |
| MatchRun.Finder.Normalize | 7zip/C/LzFind.c:285-309 | Renumbering by a multiple of 1024 changes positions and nothing else that a search can see. |
| GroupWords.SetGroupSize | 7zip/C/BwtSort.c:43-53 | A size of up to 2^20 is packed into the spare bits of one or two words and can be read back with the index words intact. |
| GroupWords.SetFinishedGroupSize | 7zip/C/BwtSort.c:38-41 | The same with the mark of a group that needs no more work. |
| GroupOrder.KeyDecides | 7zip/C/BwtSort.c:63-349 | Inside an old group the numbers h places ahead decide the order of two rotations, even while those numbers are being refined. |
| GroupOrder.SplitKeeps | 7zip/C/BwtSort.c:248-252 | Renumbering part of a group by those keys keeps that invariant. |
| GroupOrder.DeepDoubles | 7zip/C/BwtSort.c:425-498 | When all groups have been refined, equal numbers mean equal first 2h bytes. |
| HeapSorting.HeapSort | 7zip/C/Sort.c:15-59 | The part of the array is sorted and a permutation of what it was; nothing else changes. |
| KeySorting.NumbersFollowKeys | 7zip/C/BwtSort.c:118-160 | The new numbers order the positions just as the sorted keys do, equal for equal ones. |
| KeySorting.SortSmall | 7zip/C/BwtSort.c:81-170 | A small group is sorted by its keys: its places hold the same positions in order, its numbers are refined, its sizes are set; the result says whether a group is left. |
| GroupSorting.Partition | 7zip/C/BwtSort.c:207-228 | The two-pointer swap separates the keys below and not below the middle, and keeps the positions. |
| RangeSorting.SortGroup | 7zip/C/BwtSort.c:63-349 | The recursion does the same for a group of any size, with any range that holds its keys. |
| PairGrouping.PairsOrdered | 7zip/C/BwtSort.c:361-400 | The first grouping follows the first two bytes of the rotations. |
| PairGrouping.MarkPairs | 7zip/C/BwtSort.c:402-414 | After the radix sort every pair's places are one group, and the words are a permutation. |
| SortRounds.Step | 7zip/C/BwtSort.c:431-495 | One turn joins a finished group to the run of finished ones before it, or sorts it, and keeps the layout of sizes, numbers and positions. |
| SortRounds.LastWeak | 7zip/C/BwtSort.c:477-486 | In the last round the rotations of a group are equal, so numbering them in any order is right. |
| BlockSorting.SortRound | 7zip/C/BwtSort.c:425-498 | A round turns an order by h bytes into one by 2h bytes, every word stays in 32 bits, and the rounds end only when the order is complete. |
| BlockSorting.ClearSizes | 7zip/C/BwtSort.c:501-512 | All size flags are cleared and the positions are left. |
| BlockSorting.BlockSort | 7zip/C/BwtSort.c:352-515 | For every block of 1 to 2^20 bytes the indices end as a permutation that lists the cyclic rotations in non-decreasing order, and the result is the place of rotation 0. |
| HuffmanSymbols.SortSymbols | 7zip/C/HuffEnc.c:20-64 | The words of the used symbols end sorted by frequency and then number, through the counting sort with its heap-sorted last bucket. |
| HuffmanTree.BuildTree | 7zip/C/HuffEnc.c:82-98 | Two queues in one array join the two lightest nodes each time and leave for each node its parent; every word fits 32 bits. |
| HuffmanLengths.FullMoved | 7zip/C/HuffEnc.c:113-114 | Taking a code of one length and giving two longer ones keeps the Kraft sum at exactly 1. |
| HuffmanLengths.RoomLeft | 7zip/C/HuffEnc.c:111-112 | The search for a shorter length stops inside the array exactly when not all 2^maxLen codes are given. |
| HuffmanLengths.CountLengths | 7zip/C/HuffEnc.c:100-115 | The counters end full, with no length over the limit, and equal to the depths of the tree when the tree is not deeper than the limit. They come about, node by node from the root, by splitting a code of the node's depth, or, if that reaches the limit, of the greatest length below it that still has a code. |
| HuffmanLengths.FindShorter | 7zip/C/HuffEnc.c:111-112 | The length found is below the limit and has a code, and no length between it and the limit has one. |
| HuffmanLengths.SplittingOn | 7zip/C/HuffEnc.c:105-115 | One more node is one more such splitting. |
| HuffmanCodes.AssignLengths | 7zip/C/HuffEnc.c:117-126 | The longest codes go to the rarest symbols. |
| HuffmanCodes.PrefixFree | 7zip/C/HuffEnc.c:128-143 | No code is the beginning of another. |
| HuffmanCoding.CodesInOrder | 7zip/C/HuffEnc.c:128-143 | Codes are given out in order of length and then of symbol, each behind the last one. |
| HuffmanCodes.SharesFull | 7zip/C/HuffEnc.c:117-126 | The Kraft sum of the lengths of all symbols is exactly 1. |
| HuffmanCodes.AssignCodes | 7zip/C/HuffEnc.c:128-143 | Every used symbol gets its canonical code. |
| HuffmanOptimal.CostAtLeast | 7zip/C/HuffEnc.c:85-98 | No lengths that meet the Kraft inequality cost less than always joining the two lightest. |
| HuffmanOptimal.TreeOptimal | 7zip/C/HuffEnc.c:85-98 | So no prefix code is shorter than the tree's. |
| HuffmanCoding.Generate | 7zip/C/HuffEnc.c:15-146 | Every used symbol gets a length of 1 to maxLen, the Kraft sum is 1, no more frequent symbol gets a longer code, nor a later one of equally frequent ones, and the total is the least possible when the limit does not bind. How many symbols have each length is what splitting, node by node, leaves, with the greatest length below the limit for nodes too deep. The codes are prefix-free and in order of length, then of symbol. |
| HuffmanAnswers.LeavesFirst | 7zip/C/HuffEnc.c:85-98 | A node is joined only when it is lighter than every leaf left, so among equals leaves come first. |
| HuffmanAnswers.TieAnswer | 7zip/C/HuffEnc.c:82-146 | For frequencies 1, 1, 2, 2 the result is the lengths 2, 2, 2, 2 and the codes 0 to 3. |
| HuffmanAnswers.LimitAnswer | 7zip/C/HuffEnc.c:100-126 | For frequencies 1, 1, 2, 4, 8 and at most three bits the lengths are 3, 3, 3, 3, 1. |
| HuffmanCoding.GenerateTwo | 7zip/C/HuffEnc.c:66-80 | With fewer than two used symbols there are two codes of one bit. |
| BranchX86.FlippedOnce | 7zip/C/Bra86.c:54-69 | When the rewritten operand has a forbidden watched byte, one flip and one more addition mend it. |
| BranchX86.MoveOperand | 7zip/C/Bra86.c:53-69 | So the inner loop takes at most two turns. |
| BranchX86.MovedBack | 7zip/C/Bra86.c:52-73 | An operand that was converted and stored is converted back to exactly what it was. |
| BranchX86.FrontMoved | 7zip/C/Bra86.c:50-74 | The bytes that replace an operand as a closed form, for mask 0 and for masks 1, 2 and 4 with their watched byte, and what follows is filtered with mask 0. |
| BranchX86.FrontLeft | 7zip/C/Bra86.c:25-49 | In all other cases one byte is passed as it is and the mask moves up, with a bit for an opcode left alone. |
| BranchX86.Untouched | 7zip/C/Bra86.c:19-30 | Without E8 or E9 before the last four bytes nothing changes, and all but the last four are passed. |
| BranchX86.JudgedByteKeeps | 7zip/C/Bra86.c:38-46 | A byte by which an opcode was judged may be rewritten later, but stays on the same side of the test. |
| BranchX86.Inverse | 7zip/C/Bra86.c:11-85 | For every buffer, address and state the other direction restores the data and ends at the same place in the same state. |
| BranchX86.InParts | 7zip/C/Bra86.c:11-85 | A second call from where the first one stopped gives what a single call gives. |
| BranchX86.Wraps | 7zip/C/Bra86.c:11-85 | Addresses count modulo 2^32. |
| BranchX86.Convert | 7zip/C/Bra86.c:11-85 | The loop over the buffer in place is that filter. In numbers: an opcode E8 or E9 at the front whose fifth byte is 0 or FF, and which no opcode left alone forbids, has its operand replaced by itself plus or minus the address, modulo 2^25 with the top byte repeating bit 24, mended once if the watched byte asks for it; five places are passed. Data in which no E8 or E9 can begin stay as they are. |
| BranchX86.ConvertInCalls | 7zip/C/Bra86.c:11-85 | Data that arrives in any portions, one call each, is filtered as if at once. |
| CoderRing.StepKeeps | 7zip/C/MtCoder.c:185-247 | Every atomic step of any thread, whatever the stream or the coder answers, keeps the invariant of the two tokens. |
| CoderRing.RingSafe | 7zip/C/MtCoder.c:185-247 | In every interleaving at most one thread reads and at most one writes, and what is written is a beginning of the coded blocks in input order; a thread stopped by another's error never reports its own. |
| CoderRing.NoDeadlock | 7zip/C/MtCoder.c:303-322 | When no thread can move, all have finished, after the end of the input as well as after errors. |
| CoderRing.RunsEnd | 7zip/C/MtCoder.c:226-247 | Every run is finite, with a bound known beforehand. |
| CoderRing.AllWritten | 7zip/C/MtCoder.c:187-224 | Without an error every block has been written when all have finished. |
| CoderRing.ErrorNamesCall | 7zip/C/MtCoder.c:206-242 | In every run the error kept is that of the thread which reported one first, and it names the call of that thread, reading, coding or writing, which failed right before. |
| CoderRing.OnlyTheseFail | 7zip/C/MtCoder.c:206-242 | So if only reads fail the result is no error or the read error, and so for coding and writing. |
| CoderRing.NothingHidden | 7zip/C/MtCoder.c:303-326 | When all have finished there is no error exactly if no call has failed. |
| BlockRing.RingSafe | 7zip/C/LzFindMt.c:21-70 | In every interleaving, with stops and restarts, the producer never writes the block that the consumer holds, and blocks are consumed in the order of production. |
| BlockRing.StopRestores | 7zip/C/LzFindMt.c:49-70 | Whenever a stop has returned, all blocks are free, none is filled, and the ring can be started again. |
| BlockRing.NoDeadlock | 7zip/C/LzFindMt.c:148-216 | A consumer that cannot go on waits for a producer that can. |
| BlockRing.StopReturns | 7zip/C/LzFindMt.c:49-70 | A stop returns within 3n + 11 steps of the two threads, for n blocks. |
| ChainedRings.ChainSafe | 7zip/C/LzFindMt.c:148-216 | Two rings in a row, one thread the consumer of one and the producer of the other: both are safe, and the window is not moved while a block is in use. |
| ChainedRings.ChainStops | 7zip/C/LzFindMt.c:405-429 | When the stop of the last ring has returned, the stop inside it has too, and both rings are as at the beginning. |
| ChainedRings.ChainNoDeadlock | 7zip/C/LzFindMt.c:405-429 | While the main thread waits, one of the other two threads can move. |
| Ppmd8RangeCoder.KeptShort | 7zip/C/Ppmd8Enc.c:21-22 | Cutting the range to the next multiple of 2^15 never empties it, and then every number in it has the same top byte. |
| Ppmd8RangeCoder.ShiftedInside | 7zip/C/Ppmd8Enc.c:19-28 | Low + Range stays within 2^32, so no carry is lost, and the loop ends. |
| Ppmd8RangeCoder.OutputInside | 7zip/C/Ppmd8Enc.c:19-35 | Whatever is still to come, the bytes written stay inside the interval. |
| Ppmd8RangeCoder.RoundTrip | 7zip/C/Ppmd8Dec.c:12-42 | For every sequence of parts (total at most 2^15), each threshold falls into the part that was encoded, and the end is code 0 with every byte read. |
| Ppmd8RangeCoder.RangeEnc.Encode | 7zip/C/Ppmd8Enc.c:30-35 | The object writes what that mathematical coder writes. |
| Ppmd8RangeCoder.RangeDec.Decode | 7zip/C/Ppmd8Dec.c:28-42 | The other object follows the mathematical decoder. |
| Ppmd8RangeCoder.Transmit | 7zip/C/Ppmd8Dec.c:12-42 | One object encodes, the other finds every part again and ends clean. |
| Ppmd8Answers.OneByte | 7zip/C/Ppmd8Enc.c:12-35 | One part in 256, whichever it is, is written as the bytes stated, as a closed form. |
| Ppmd8Answers.CutShort | 7zip/C/Ppmd8Enc.c:19-35 | Two parts whose range reaches over the boundary of a byte and is cut short twice give the six bytes stated. |
| UnitClasses.Construct | 7zip/C/Ppmd7.c:64-69 | The loops fill the two tables: the 38 class sizes, listed, and for each size up to 128 units the smallest class with room for it. |
| UnitClasses.RestIsClass | 7zip/C/Ppmd7.c:135-139 | Any size that is not a class is a class and 1 to 3 units more, which are a class too, so no unit of a split is lost. |
| UnitAllocator.FreedMeans | 7zip/C/Ppmd7.c:131-141 | Freed units that are a class become one block of it; others become one of the greatest class below and one of the 1 to 3 units left, put on its list first. |
| UnitHeap.CutTiled | 7zip/C/Ppmd7.c:131-141 | A block cut in two leaves the memory a partition: every word of it belongs to exactly one block or to the gap. |
| UnitHeap.AddedTiled | 7zip/C/Ppmd7.c:241-254 | So does a new block from either end of the gap or from below. |
| UnitHeap.Pushed | 7zip/C/Ppmd7.c:118-122 | The free lists in memory stay well-formed and hold just the free blocks of their class when a block is put on one. |
| UnitAllocator.Allocator.constructor | 7zip/C/Ppmd7.c:285-304 | A fresh model starts with one context and one block for 256 symbols, at the addresses the size asks for, the rest free, and the lists empty. |
| UnitAllocator.Allocator.InsertNode | 7zip/C/Ppmd7.c:118-122 | A freed block goes to the front of its list and leaves the live ones, whose contents do not change. |
| UnitAllocator.Allocator.RemoveNode | 7zip/C/Ppmd7.c:124-129 | The first block of the list is taken off it; it was in no live block before. |
| UnitAllocator.Allocator.SplitBlock | 7zip/C/Ppmd7.c:131-141 | The block keeps its first units with what they hold; the rest is free again, in blocks of exact class sizes at the front of their lists. |
| UnitAllocator.Allocator.GlueFreeBlocks | 7zip/C/Ppmd7.c:197-212 | Dealing out joined runs of free units again, in blocks of 128 units and what is left, loses none and changes no live block. |
| UnitAllocator.Allocator.AllocUnitsRare | 7zip/C/Ppmd7.c:215-239 | The result is a new block apart from all live ones, or NULL, and then there is no free block of the size or larger and the text is too near. It is the first block of the class after gluing, or of the next class that has one, whose rest is put back, or the units below the lowest block. |
| UnitAllocator.Allocator.AllocUnits | 7zip/C/Ppmd7.c:241-254 | The same, with the first block of the list and then the lower end of the gap tried before. |
| UnitAllocator.Allocator.AllocContext | 7zip/C/Ppmd7.c:392-402 | The same for a single unit, with the upper end of the gap tried first and the list second. |
| UnitAllocator.Allocator.ShrinkUnits | 7zip/C/Ppmd7.c:260-275 | The smaller block begins with what the larger one began with; it is the same block if the class is the same, else the first of its list, else the larger one cut; no other live block changes. |
| Crc.CrcGenerateTable | 7zip/C/7zCrc.c:49-74 | Entry i of table k is the number i after 8(k + 1) bit steps of section 8 of RFC 1952. |
| Crc.ByteByTable | 7zip/C/7zCrc.c:22-30 | Eight bit steps are one look-up of the low byte and one shift. |
| Crc.WordByTables | 7zip/C/7zCrcOpt.c:15-25 | Thirty-two bit steps on a word are four look-ups, one in each table. |
| Crc.CrcUpdateT4 | 7zip/C/7zCrcOpt.c:10-27 | For all data, every address and every initial value, the loops by bytes and by words give what the bit-at-a-time definition gives. |
| Crc.CrcUpdateT1 | 7zip/C/7zCrc.c:24-30 | So does the loop by bytes. |
| Crc.CheckValue | 7zip/C/7zCrc.c:44-47 | The checksum of the nine digits 1 to 9 is CBF43926. |
| Crc.BurstDetected | 7zip/C/7zCrc.c:44-47 | Two messages that differ only within four bytes in a row never have the same checksum. |
| XzVarInt.ReadExact | 7zip/C/XzDec.c:30-44 | What is accepted are exactly the shortest forms of the numbers below 2^63, so no two readings are possible. |
| XzVarInt.VarIntsDiffer | 7zip/C/XzDec.c:30-44 | No number's bytes are the beginning of another's, so what follows a number is found without its length. |
| XzAnswers.VarIntDigits | 7zip/C/Xz.c:12-23 | A number is written as its digits to the base 128, the lowest first, each but the last with 128 added, and as few as it has. |
| XzVarInt.WriteVarInt | 7zip/C/Xz.c:12-23 | The writing loop, with its mark on every byte but the last, gives that shortest form. |
| XzVarInt.ReadVarInt | 7zip/C/XzDec.c:30-44 | The reading loop, of at most nine bytes, is that reading. |
| XzIndex.WriteIndex | 7zip/C/XzEnc.c:83-111 | Written piece by piece with a running checksum, the index is the sizes in order, padding, and the checksum of all before it. |
| XzIndex.ReadIndexExact | 7zip/C/XzIn.c:71-114 | What is accepted as an index are exactly the bytes written for some list of sizes in range, and that list is read. |
| XzIndex.ReadIndex2 | 7zip/C/XzIn.c:71-114 | The parsing loops accept exactly that. |
| XzAnswers.EmptyIndex | 7zip/C/XzEnc.c:83-111 | The index of no blocks is 00 00 00 00 1C DF 44 21. |
| XzAnswers.OneRecord | 7zip/C/XzEnc.c:83-111 | The index of one block: a zero, the count, the total size, the unpacked size, zeros up to a multiple of four, the checksum. |
| XzBlockHeader.WriteHeader | 7zip/C/XzEnc.c:53-77 | The bytes written are a header of the block, with no more padding than is needed. |
| XzAnswers.Lzma2Header | 7zip/C/XzEnc.c:53-77 | The shortest header of a block with the LZMA2 filter and no sizes is 02 00 21 01 16 00 00 00 74 2F E5 A3. |
| XzAnswers.HeaderFields | 7zip/C/XzEnc.c:53-77 | Where a header has what: its size in words, the flags for sizes and filters, the fields in order, zeros, and the checksum of all before it. |
| XzBlockHeader.ParseExact | 7zip/C/XzDec.c:505-556 | A block is read from a header if and only if the header is one of that block and its sizes, the packed one together with the header, are in range. |
| XzBlockHeader.WriteThenParse | 7zip/C/XzDec.c:505-556 | So a written header is read back exactly when the packed size is not 0 and leaves room for the header below 2^63, and never as another block. |
| Lzma2Chunks.StreamRead | 7zip/C/Lzma2Dec.c:98-157 | For every sequence of blocks and of coded or copied parts the decoder finds in the bytes exactly the chunks written, with control, sizes, properties and data, and never refuses one. |
| Lzma2Format.StreamExact | 7zip/C/Lzma2Dec.c:98-157 | Whoever wrote it, a stream decodes to a sequence of chunks if and only if the sequence is legal (dictionary, state and properties are set before they are needed) and the stream is its bytes and the end mark. |
| Lzma2Format.Layout | 7zip/C/Lzma2Dec.c:15-26 | The bytes of a chunk: control byte, sizes less one with the highest byte first, properties, data. |
| Lzma2Format.EncoderChooses | 7zip/C/Lzma2Enc.c:96-163 | LZMA data are sent when they were made, save more than two bytes and fit a chunk, and bring what is still to be set; else the data are copied in pieces of 2^16 bytes. |
| Lzma2Chunks.WriteThenRead | 7zip/C/Lzma2Dec.c:98-157 | One object writes a stream of blocks and parts, the other reads it: all chunks come back. |
| Lzma2Chunks.CopiedData | 7zip/C/Lzma2Enc.c:106-135 | Cut into chunks of at most 2^16 bytes, copied data are all there. |
| Lzma2Chunks.Lzma2EncInt.EncodeSubblock | 7zip/C/Lzma2Enc.c:72-164 | The object writes those chunks and updates what it owes the decoder. |
| Lzma2Chunks.Lzma2Dec.UpdateState | 7zip/C/Lzma2Dec.c:98-157 | One byte of a header moves the object as the state machine says. |
| Lzma2Chunks.Lzma2Dec.BeginData | 7zip/C/Lzma2Dec.c:217-257 | The checks before the data of a chunk. |
| Lzma2Chunks.Lzma2Dec.DecodeChunks | 7zip/C/Lzma2Dec.c:177-257 | The loop over a whole stream gives the chunks that the state machine gives. |
| Session.JBindingSession.RegisterNativeContext | jbinding-cpp/JBindingTools.h:69-76 | The native call is the newest of its thread, whose entry is made if need be. |
| Session.JBindingSession.UnregisterNativeContext | jbinding-cpp/JBindingTools.h:78-91 | The newest native call of the thread goes, and the entry with the last thing open. |
| Session.JBindingSession.BeginCallback | jbinding-cpp/JBindingTools.h:104-137 | A thread with nothing open is attached; the environment is that of the attachment or of the newest native call. |
| Session.JBindingSession.EndCallback | jbinding-cpp/JBindingTools.h:139-155 | With its last callback an attached thread is detached and its entry goes. |
| Session.EntryWhileOpen | jbinding-cpp/JBindingTools.h:69-91 | In every interleaving a thread has an entry exactly while something is open on it, and an attached one has a callback open. |
| Session.AttachedInTurns | jbinding-cpp/JBindingTools.h:104-155 | Each attaching is followed by exactly one detaching, on the same thread, and the count is the number of attached threads. |
| Session.EnvironmentIsOwn | jbinding-cpp/JBindingTools.h:307-316 | A callback never uses an environment of another thread or of an attachment that has ended. |
| Session.AssertionsHold | jbinding-cpp/JBindingTools.h:78-155 | No assertion of the source is ever broken. |
| Session.AllUnwound | jbinding-cpp/JBindingTools.h:188-201 | When everything has ended the map is empty and every attached thread has been detached. |
| Session.OutlivedLeavesEntry | jbinding-cpp/JBindingTools.h:139-155 | The nesting is needed: a callback that outlives the native call around it leaves its entry in the map. |

## Left out

- The optimiser (`GetOptimum`, `GetOptimumFast`) and the price tables: the encoder takes any list of choices that
  describes the data, since the choice never affects decoding.
- Output buffering and errors of the encoder (`RangeEnc_FlushStream`, `CheckErrors`) and the size limits of
  `LzmaEnc_CodeOneBlock`: output goes to a sequence and does not fail.
- The encoder's separate probability arrays are one array here, with the decoder's offsets.
- Finish mode END of `LzmaDec_DecodeToDic`: calls use finish mode ANY.
- After a data error only the error is promised, not what is left in the dictionary, nor what
  `LzmaDec_DecodeToBuf` copies out before it returns the error.
- The comment at `7zip/C/LzmaDec.h:45-48` counts 22 adaptive and 26 direct bits. A short distance can take 23 adaptive
  bits but then no direct one, so the bound of 20 bytes stands; the model proves both cases.
- The dry run reads the probability array without the updates that earlier bits of the same symbol would make. That is
  harmless because no symbol uses a probability twice, which is proved.
- Counters of 64 bits (bytes read and written) are unbounded numbers. Words of 32 bits wrap explicitly.
- One C loop is often several methods here, one for each branch, so that each proof is short.
- BlockSorting.BlockSort: the one buffer that the caller passes is three arrays here (indices, temporary part, groups).
  Only the default build is modelled, without external flags and without the heap-sort variant.
- HuffmanCoding.Generate: requires at most 2^maxLen used symbols, which `7zip/C/HuffEnc.c` does not say but needs: with
  more, the search at lines 111-112 runs off the array, as `HuffmanLengths.RoomLeft` shows. It requires the sum of the
  frequencies below 2^22, as `7zip/C/HuffEnc.h:13-19` does. The code of an unused symbol is taken from an uninitialised
  counter and is not described.
- MatchFinder.GetMatches: `maxLen` is below the length limit, as all callers have it.
- MatchRun.Finder: the hash functions are left out, a search names its bucket. The length limit only shrinks over a run.
  Reading the input and moving the buffer are left out, so a position is an index of the text.
- Hash chains (`Hc_GetMatchesSpec`) and the small 2- and 3-byte hashes of `7zip/C/LzFind.c`.
- CoderRing: a block is its number in the input. Failing events (`SZ_ERROR_THREAD` from a wait or a set) and progress
  reports are left out; a thread that cannot be started is included.
- BlockRing, ChainedRings: the contents of the blocks, the mixing of matches, and closing a chained pair for good
  (`MtSync_Destruct`).
- Ppmd8RangeCoder: the PPMd model that chooses the parts. The tests `(Low ^ (Low + Range)) < kTop` and
  `& (kBot - 1)` are written as equal top bytes and a remainder.
- UnitAllocator.Allocator.GlueFreeBlocks: how the runs of neighbouring free units are found in memory, by stamps and a
  doubly linked list, is not described: they are given, as any grouping of the free units. Addresses count words of 32
  bits, and what the PPMd model keeps in its blocks is not described.
- UnitAllocator.Allocator.AllocUnitsRare: requires the list of the class to be empty, which all callers have tested.
- Crc: the tables for eight bytes at a time (`CrcUpdateT8` calls the loop for four). A word is read with its lowest byte
  first.
- XzBlockHeader.ParseBlock: the caller has seen that the first byte is not 0, which would be an index.
- The footer of an .xz file after the index, stream headers, and the backward scan.
- Lzma2Chunks: the LZMA data inside a chunk are bytes here, and the encoder's output buffer is large enough
  (`LZMA2_CHUNK_SIZE_COMPRESSED_MAX`). The decoder has the whole stream at once.
- Session: a failing `AttachCurrentThread`, which ends the program, exceptions and error messages. Native calls and
  callbacks on a thread end in the opposite order to that in which they begin, since both are local objects. The calls
  into the virtual machine are counted events.
- Archive databases, file access, AES and SHA-256, and the other filters, which are simpler than the x86 one.

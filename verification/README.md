# Verified models of the CoreMark kernels, the ISP link, the embedded printf and two Capstone parts

The files here model five self-contained parts of the repository and prove what their code keeps and where it falls
short. `dafny verify dfyconfig.toml` checks everything.

- **Benchmark list** (`software/coremark_app/cmark.c`): `MergeOrder`, `ListCells`, `ListSort`, `ListOps`, `ListBench`,
  `ListFinds`, `ListRuns`, `ListTies`, `ListInit`, `ListFit`. Cells are heap objects relinked through `next` and `info`; the comparators write
  into the cells they look at. The iterative mergesort is proved stable and in place under both comparators, and a
  run of the benchmark is followed from the shuffling find phase back to the original list.
- **State and matrix kernels, CRC, counters** (same file): `StateScanner`, `StateBench`, `StateInit`, `MatrixBench`,
  `MatrixSums`, `MatrixInit`, `Crc16`, `CrcPolynomial`, `Counters`, with machine integers in `Words` and lemmas on quotients in
  `Division`.
- **ISP link** (`tools/bootloader-isp.py`): `IspCrc`, `IspFrame`, `IspLink`: the table-driven check value, the framing
  sender, the byte-stepped receiver, and sessions over arbitrary byte streams.
- **Embedded printf** (`software/coremark_app/printf.c`): `PrintfText` (what a format prints), `Printf` (the interpreter
  writing through its output function), `PrintfNumbers` (what printed numbers mean, after section 7.19.6.1 of C99) and
  `PrintfFormats` (what a format means, directive by directive as it is written).
- **Capstone** (`model/components/capstone/`): `Disasm` (batch disassembly against stepping, growth of the result),
  `Mnemonics` (the list of customised mnemonics as a map), `ZeroCounts`, `Population`, `WordMath` (bit tricks against
  bit-level definitions).

Where the code changes state step by step the model does too: classes and arrays with `modifies`, each method proved
against a function of the old state, and the laws proved about that function. `model/testcode/coremark/cmark.c` repeats
the benchmark with other constants and is not modelled a second time.

## Model

| member | source | states |
|---|---|---|
| ListSort.MergeSort | software/coremark_app/cmark.c:790-860 | For every non-empty chain of distinct cells and either comparator the sort ends and returns the head of a NULL-terminated chain of exactly these cells, in stable order of the keys the cells end up with; a cell's data changes only as the comparator is meant to change it, and in a list of two or more every cell has been seen by it. Under the comparator by value, kernel runs so far plus cells not yet cached stay constant, so sorting two or more runs the kernel of each uncached cell exactly once |
| ListSort.MergePass | software/coremark_app/cmark.c:799-857 | One pass turns blocks of width insize, each stably sorted, into blocks of twice that width, closes the chain with NULL, and reports more than one merge only if 2 * insize is still below the list length |
| ListSort.MergeStep | software/coremark_app/cmark.c:824-846 | One round of the merge loop takes the head of one of the two runs, keeps the order of everything taken and waiting, and leaves the cells not yet taken linked as they were |
| MergeOrder.TakeP | software/coremark_app/cmark.c:832-842 | Taking the head of the first run when its key is not greater keeps the output in stable order and below all that waits: ties go to the first run |
| MergeOrder.TakeQ | software/coremark_app/cmark.c:828-842 | Taking the head of the second run when the first is empty or its head's key is greater keeps the same invariant |
| MergeOrder.Settle | software/coremark_app/cmark.c:427-469 | Keys that a comparator fixes at first sight of a cell change no order already established in the merge |
| MergeOrder.AddBlock | software/coremark_app/cmark.c:799-857 | The run just merged joins the blocks merged before it as one sorted block of twice the width |
| ListCells.CalcFunc | software/coremark_app/cmark.c:427-461 | A cached cell is read and nothing changes; an uncached one runs its kernel once, gets the low 7 bits of the outcome with bit 7 set, keeps its high byte, and feeds the outcome to the CRC |
| ListCells.RunKernel | software/coremark_app/cmark.c:434-456 | Type 0 runs the state benchmark with the replicated stride (at least 0x22), type 1 the matrix benchmark, any other returns the data; the state buffer keeps its two zeros and matrix A its contents |
| ListCells.DataTypeIs | software/coremark_app/cmark.c:435-441 | The argument of a kernel is the nibble of bits 3 to 6 written twice, that is seventeen times it; the stride is that, and 34 at least |
| ListCells.CachesValue | software/coremark_app/cmark.c:457-459 | What calc_func stores is marked as cached, keeps the high byte, and is what every later call returns |
| ListCells.CmpComplex | software/coremark_app/cmark.c:465-473 | Both cells end up cached, changed only by caching, and the result is the difference of their cached values |
| ListCells.CmpIdx | software/coremark_app/cmark.c:476-482 | Without results both data words are regenerated from their high bytes; the result is the difference of the indices |
| ListOps.PositionFrom | software/coremark_app/cmark.c:734-746 | The place of the first match is the one with no match in front of it |
| ListOps.CoreListFind | software/coremark_app/cmark.c:734-746 | Returns the first cell with the wanted index or, for a negative index, the wanted low data byte, and NULL if there is none |
| ListOps.CoreListReverse | software/coremark_app/cmark.c:759-768 | Returns the chain of the same cells in reverse order, contents untouched |
| ListOps.CoreListRemove | software/coremark_app/cmark.c:680-692 | The cell behind item leaves the chain and hands its data to item |
| ListOps.CoreListUndoRemove | software/coremark_app/cmark.c:709-720 | The removed cell returns behind item and the two swap their data back |
| ListOps.CacheNext | software/coremark_app/cmark.c:519-526 | The cell behind a hit moves to the place behind the head, everything else keeps its order |
| ListBench.FindRound | software/coremark_app/cmark.c:505-528 | A round of the find phase on the heap does what FindStep does on the contents: reverse always, on a hit move one cell up, and count hit or miss |
| ListBench.OutAndBack | software/coremark_app/cmark.c:537-552 | Taking the second cell out, walking the rest for the CRC and undoing the removal leaves cells, links and contents as they were |
| ListBench.CoreBenchList | software/coremark_app/cmark.c:496-563 | A whole run, find phase, optional sort by data, removal, undo and sort by index: the same cells in order of index, every data word regenerated from its high byte, and the return value computed from the contents before and, after a sort by data, from the cached values it leaves |
| ListFinds.BalanceIsSum | software/coremark_app/cmark.c:505-534 | What the find phase hands on is, modulo 2^16, the sum of one term for every round: 4 for a hit, 5 if the word found is odd and has bit 9 set; -1 for a miss, 0 if the last word but one, the second of the reversed list, has bit 8 set |
| ListFinds.RunCounts | software/coremark_app/cmark.c:505-528 | Hits and misses together are the rounds, in 16 bits |
| ListFinds.RunStartsWithSum | software/coremark_app/cmark.c:505-563 | The return value of a run is the CRC of the data of its cells that starts from that sum |
| ListBench.DataComesBack | software/coremark_app/cmark.c:457-482 | Whatever the value comparator cached, the index comparator ends with the data the original high byte stands for |
| ListBench.SortedByIndex | software/coremark_app/cmark.c:555-556 | After the last sort the indices never fall |
| ListRuns.RestoredIff | software/coremark_app/cmark.c:496-563 | For every list: a run leaves the index in every place and the data of every cell unchanged exactly if the list came in order of index and each low byte equalled its backup |
| ListRuns.OnlyTiesMove | software/coremark_app/cmark.c:555-563 | In a list that came in order of index, only cells that share an index can have traded places |
| ListRuns.BackInPlace | software/coremark_app/cmark.c:555-563 | Where no two cells share an index, equal indices place by place mean that every cell is back in its own place |
| ListTies.HeadKeptIff | software/coremark_app/cmark.c:496-563 | For every rising sequence of three or more indices: every run, of any kind, on every list with these indices and own backups keeps its first cell in front exactly if the first index is shared by no other cell |
| ListTies.PlacesKeptIff | software/coremark_app/cmark.c:496-563 | Every such run keeps every cell in its place exactly if no two cells share an index |
| ListTies.RunRearranges | software/coremark_app/cmark.c:496-563 | Whatever is found, moved and sorted in between, the cells after a run are the cells before it in order of index |
| ListRuns.Iterate | software/coremark_app/cmark.c:898-916 | Any number of iterations leaves a list that starts at res->list, has the same index in every place and the same data in every cell; without shared indices it is exactly the list it was |
| ListInit.CoreListInsertNew | software/coremark_app/cmark.c:646-665 | A new cell goes right behind the head while a slot beyond it is free; the last slot is never used |
| ListInit.CoreListInit | software/coremark_app/cmark.c:577-633 | The result is the chain of size - 1 cells with the computed data and indices, sorted by index |
| ListInit.ItemDataBits | software/coremark_app/cmark.c:601-605 | The data of an item: bits 0 to 2 are its number, bits 3 to 6 its number XOR the seed, bit 7 is clear, and the high byte is the low one again |
| ListInit.InitIdxBits | software/coremark_app/cmark.c:611-617 | The index in a place of the first fifth is the place; behind that it has 14 bits, those of the place XOR the seed with the low bits of the next place over bits 8 to 10 |
| ListFit.BuiltInOrder | software/coremark_app/cmark.c:577-633 | The final sort of a new list only rearranges: each cell carries exactly the data and index it was built with |
| ListFit.FreshListReady | software/coremark_app/cmark.c:577-633 | For every seed and size the new list is in order of index with every low byte equal to its backup, and its indices differ exactly if the computed ones do |
| ListFit.HeadAloneIff | software/coremark_app/cmark.c:612-622 | Up to 163840 slots, where the first fifth does not wrap, the head of the new list shares its index exactly if some mixed index is 0 |
| ListFit.SeedTiesHead | software/coremark_app/cmark.c:612-622 | Seed 7 in 31 slots, what the standard 2000 bytes leave for the list, ties the head |
| ListFit.DifferIff | software/coremark_app/cmark.c:609-622 | For all seeds and sizes: the indices differ exactly if there are fewer than 323 slots and no mixed index falls among the first fifth |
| ListFit.LargeCollide | software/coremark_app/cmark.c:615-620 | From 323 slots on, two cells share an index for every seed: an even place with bit 8 clear and the place 256 further on |
| ListFit.HighSeedsDiffer | software/coremark_app/cmark.c:615-620 | Seeds with a high bit set, the default seed 0x3415 among them, keep all indices different below 323 slots |
| ListFit.ZeroSeedDiffers | software/coremark_app/cmark.c:615-620 | So does the other default seed, 0 |
| ListFit.SeedCollision | software/coremark_app/cmark.c:615-620 | Seed 22 gives places 1 and 23 the same index in the standard sizes, against the comment that mixed items end up after those in sequence |
| StateScanner.ScanDecides | software/coremark_app/cmark.c:1739-1832 | The scanner ends in INT, FLOAT or SCIENTIFIC exactly for the texts [+-]?d+, [+-]?d*.d* and [+-]?d*.d*[eE][+-]d+ |
| StateScanner.InvalidIffHopeless | software/coremark_app/cmark.c:1739-1832 | It ends in INVALID exactly if no continuation of the text is a number |
| StateBench.CoreStateTransition | software/coremark_app/cmark.c:1739-1832 | On every NUL-terminated block: the state is that of the token, the pointer stops behind a comma, at the NUL or just behind the offending byte, and each count grows by the transitions of the token |
| StateBench.SlotsCounted | software/coremark_app/cmark.c:327-337 | By number: slots 0 to 7 have grown by how often the token leaves START, INVALID, S1, S2, INT, FLOAT, EXPONENT and SCIENTIFIC |
| StateBench.TimesIsLeaving | software/coremark_app/cmark.c:1743-1828 | A token raises each count by at most one, and does so exactly if the run leaves that state |
| StateBench.UndoneIff | software/coremark_app/cmark.c:1613-1640 | The two corruptions give the block back exactly if nothing was touched or the seeds agree in their low byte and no touched byte becomes a comma in between |
| StateBench.ScansStayInside | software/coremark_app/cmark.c:1598-1640 | With a stride of at least two, a block that ends in two zeros still has a terminator after the corruption |
| StateBench.StrideOneEscapes | software/coremark_app/cmark.c:1613-1619 | With a stride of one it need not have |
| StateBench.ZerosKeptIff | software/coremark_app/cmark.c:1613-1640 | Two zeros at the end are there again after a run exactly if the seeds agree in their low byte and it is no comma, or the stride misses both |
| StateBench.CoreBenchState | software/coremark_app/cmark.c:1598-1654 | The block ends as twice corrupted, and the CRC is that of the counts of both scans |
| StateBench.BenchValueIs | software/coremark_app/cmark.c:1647-1654 | The CRC runs over sixteen words in this order: for each of the eight states, START first and SCIENTIFIC last, how many tokens of both scans ended in it and how often they left it |
| StateInit.CoreInitState | software/coremark_app/cmark.c:1671-1721 | The block holds the patterns that fit, one per step of the seed, each with its comma, then zeros |
| StateInit.PatternIs | software/coremark_app/cmark.c:1657-1711 | Which of the sixteen texts a seed chooses: by its remainder modulo 8 the kind, three for whole numbers, two for floats, two for scientific numbers and one for errors, and by the next two bits the text |
| StateInit.BlockEndsInZeros | software/coremark_app/cmark.c:1671-1721 | A block of two bytes or more ends in at least two zeros |
| StateInit.FreshBlockRestored | software/coremark_app/cmark.c:1598-1721 | On a fresh block the two corruptions cancel for every seed whose low byte turns no byte of the patterns into a comma |
| StateInit.ApplicationSeedsRestore | software/coremark_app/cmark.c:963-993 | The seeds of the application are such seeds |
| StateInit.PatternVerdicts | software/coremark_app/cmark.c:1657-1660 | The scanner classifies each pattern as its table is named, except -87e+832, which it rejects |
| MatrixBench.MatrixTest | software/coremark_app/cmark.c:1364-1395 | Matrix A is back to its contents for every 16-bit val, wrap-around included, and the CRC is that of the four results |
| MatrixBench.BigIs | software/coremark_app/cmark.c:1293 | The clip value lies in -4096 to -1 and agrees with val modulo 4096 |
| MatrixBench.TestValueIs | software/coremark_app/cmark.c:1364-1395 | With the one number that does, the value is the CRC of the four ratings, each ten for a clipped and one for a risen cell, in order |
| MatrixBench.AddConstUndone | software/coremark_app/cmark.c:1367-1393 | Adding -val undoes adding val in 16 bits, also for -32768 |
| MatrixBench.MatrixMulMatrix | software/coremark_app/cmark.c:1526-1540 | Each cell of C is the 32-bit wrapping product of a row of A and a column of B |
| MatrixBench.MatrixMulMatrixBitextract | software/coremark_app/cmark.c:1543-1560 | The same with bits 2-5 and 5-11 of each product multiplied |
| MatrixBench.BitsExtracted | software/coremark_app/cmark.c:1294 | The two factors are bits 2 to 5 and bits 5 to 11 of the product |
| MatrixBench.MatrixSum | software/coremark_app/cmark.c:1453-1481 | The result is, in 16 bits, ten for every cell at which the sum of its segment goes over clipval and one for every other cell greater than the one before; a segment starts behind the last cell so clipped |
| MatrixSums.SumCounts | software/coremark_app/cmark.c:1453-1481 | After any number of cells the accumulator of the loop is the wrapped sum of the segment under way and the result that count |
| MatrixSums.SumBounded | software/coremark_app/cmark.c:1453-1481 | Up to 3276 cells the result is that count itself, at most ten a cell |
| MatrixBench.ExactUpTo128 | software/coremark_app/cmark.c:1526-1540 | No partial sum leaves 32 bits for any A of 0 to 255 plus a val of 0 to 255 and any 16-bit B exactly if N is at most 128 |
| MatrixInit.Dimension | software/coremark_app/cmark.c:1423-1428 | The search ends with the largest N such that 8 * N * N is below the block size |
| MatrixInit.LargestIsUnique | software/coremark_app/cmark.c:1423-1428 | No other N fits that description |
| MatrixInit.LargeBlocksOverflow | software/coremark_app/cmark.c:1423-1428 | For block sizes beyond the largest 32-bit product, wherever the search ends the matrices do not fit |
| MatrixInit.LayoutFits | software/coremark_app/cmark.c:1429-1433 | A, B and C lie aligned and apart; they stay inside the block exactly if the bytes left over cover the padding, and always if the block is aligned to four bytes |
| MatrixInit.UnalignedOverrun | software/coremark_app/cmark.c:1429-1433 | An unaligned block can be overrun |
| MatrixInit.CoreInitMatrix | software/coremark_app/cmark.c:1435-1446 | Both matrices hold the values of the running seed, and those of A lie in 0 to 255 |
| MatrixInit.CellsAre | software/coremark_app/cmark.c:1435-1446 | The running seed is congruent to order times the one before modulo 65536, below that in magnitude and of the sign of the product; B is congruent to seed plus order modulo 2^16, A to seed plus twice the order modulo 256 |
| MatrixInit.FreshProductsExact | software/coremark_app/cmark.c:1328-1335 | With what the code puts into A and adds to it, no product overflows up to N = 128 |
| Crc16.Crcu8 | software/coremark_app/cmark.c:1974-1996 | The loop over carries computes eight steps of the reflected register |
| Crc16.Crcu32 | software/coremark_app/cmark.c:1998-2010 | The wider forms are the fold over the little-endian bytes |
| Crc16.LittleEndianIs | software/coremark_app/cmark.c:1998-2010 | The bytes of a word, low one first, make up the word again |
| CrcPolynomial.CrcIsRemainder | software/coremark_app/cmark.c:1974-1996 | The register after any message is the remainder of polynomial division by x^16 + x^15 + x^2 + 1 |
| CrcPolynomial.CrcIsLinear | software/coremark_app/cmark.c:1974-1996 | It is XOR-linear in message and start value together |
| CrcPolynomial.CrcIsInjectiveInStart | software/coremark_app/cmark.c:1974-1996 | For a fixed message it is one-to-one in the start value |
| CrcPolynomial.BurstDetected | software/coremark_app/cmark.c:1974-1996 | Messages that differ only inside 16 consecutive bits never share a register |
| CrcPolynomial.WindowDetected | software/coremark_app/cmark.c:1974-1996 | Nor do byte sequences that differ only inside a window of two adjacent bytes |
| Counters.ReadCounter | software/coremark_app/cmark.c:2194-2211 | Against a counter that moves during the reads, the high/low/high loop ends and returns the value held at the instant of the low read |
| Counters.Untorn | software/coremark_app/cmark.c:2194-2211 | Equal high halves around a low read mean that the two halves belong together |
| Counters.TornWithoutLoop | software/coremark_app/cmark.c:2194-2211 | Without the second look they can make up a value the counter never had |
| Counters.Measure | software/coremark_app/cmark.c:2194-2238 | Stop minus start is the exact count between two instants inside the two readings |
| Counters.ReadBranches | software/coremark_app/cmark.c:2134-2172 | Under one exit test for both, each of the two counters is read at an instant of its own without tearing |
| IspCrc.TableIsEightShifts | tools/bootloader-isp.py:11-36 | Every table entry is eight bitwise steps of its index for x^8 + x^2 + x + 1 |
| IspCrc.TableIsPermutation | tools/bootloader-isp.py:11-36 | The table is a permutation of the bytes |
| IspCrc.Crc8L | tools/bootloader-isp.py:39-48 | The table-driven loop computes the bitwise fold that starts from the length modulo 256 |
| IspCrc.CheckRuns | tools/bootloader-isp.py:39-48 | Any sequence of registers that starts from the length modulo 256 and moves by the table ends in the check value |
| IspCrc.OneByteDetected | tools/bootloader-isp.py:39-48 | Buffers of one length that differ in exactly one byte never share a check value |
| IspFrame.Sender.SendPack | tools/bootloader-isp.py:60-84 | Appends HEAD, the escaped check value and data, and TAIL |
| IspFrame.WireIs | tools/bootloader-isp.py:50-84 | On the wire: 0x55, then every byte as itself but 0x55, 0xAA and 0xCC as 0xCC 0x05, 0xCC 0x0A and 0xCC 0x0C, then 0xAA |
| IspFrame.RevPack | tools/bootloader-isp.py:86-146 | The receiving loop is the automaton Receive on every stream |
| IspLink.SessionIsRepeatedCalls | tools/bootloader-isp.py:86-146 | A session is what one call after another on the rest of the stream returns |
| IspLink.FeedFrame | tools/bootloader-isp.py:73-146 | Outside an escape a frame yields its data exactly if its check value is right and it fits |
| IspLink.FramesDelivered | tools/bootloader-isp.py:73-146 | From any state a run of frames is delivered completely and in order, oversized ones aside; only the first is lost if the receiver stands in the middle of an escape |
| IspLink.NoiseThenFrames | tools/bootloader-isp.py:73-146 | After any noise whatever the second of two frames gets through |
| IspLink.CorruptionRejected | tools/bootloader-isp.py:86-146 | A frame with one payload byte changed is never delivered |
| IspLink.ReceivedIsFrame | tools/bootloader-isp.py:86-146 | On every stream: a packet that is returned fits, and the bytes just read are byte for byte the frame sent for it, exactly unless a TAIL directly follows its HEAD, and then it is empty |
| IspLink.BareHeadTailAccepted | tools/bootloader-isp.py:108-112 | HEAD TAIL alone is taken for an empty packet although no frame is sent like that |
| Printf.Vsnprintf | software/coremark_app/printf.c:604-884 | For every complete format and argument list the interpreter sends exactly the text Render to its output function, then NUL at the end, and returns the length of the text whatever maxlen is |
| Printf.Snprintf | software/coremark_app/printf.c:900-917 | The buffer holds the first min(ret, count - 1) characters of the text and a NUL, nothing behind that changes, and the return value does not depend on count; without a buffer only the length is returned |
| Printf.PrintfToPort | software/coremark_app/printf.c:889-897 | Every character but NUL reaches the port, in order |
| Printf.LongerShowsMore | software/coremark_app/printf.c:160-165 | Of two bounded runs the one with less room shows a prefix of the other |
| Printf.BufferAfter | software/coremark_app/printf.c:160-165 | Characters put from index 0 on fill the buffer up to maxlen and touch nothing else |
| Printf.PutConcat | software/coremark_app/printf.c:160-182 | Sending two texts one behind the other is sending their concatenation |
| Printf.OutRev | software/coremark_app/printf.c:226-250 | Sends blanks, the digits in reverse, blanks, as width and flags ask |
| Printf.NtoaFormat | software/coremark_app/printf.c:254-304 | Zeros, base prefix and sign go into the digit buffer as far as its 32 places reach, in the order of the code |
| Printf.StrnlenS | software/coremark_app/printf.c:198-203 | The lesser of the length and the limit |
| Printf.Atoi | software/coremark_app/printf.c:215-222 | The 32-bit value of the digits and the place behind them |
| PrintfFormats.FormatRendered | software/coremark_app/printf.c:604-884 | For every format made up of plain texts and directives %[flags][width][.precision][length]specifier, and every list of enough arguments: the format is complete, and what is printed is, piece by piece, the text itself or what the directive means for the arguments that those in front of it left |
| PrintfFormats.ParsedIs | software/coremark_app/printf.c:628-712 | Reading a directive yields exactly the flags written in any order, the width and precision as digits or from the arguments, and the length modifier, and stops at its specifier |
| PrintfFormats.DirectiveIs | software/coremark_app/printf.c:714-872 | Every specifier prints what it stands for: base 16 for x and X, 8 for o, 2 for b and 10 for d, i and u, the value narrowed to 8 or 16 bits or widened to 64 as the modifier says and read as signed by d and i alone, a character, a cut string, a pointer of eight places, or the character itself |
| PrintfFormats.WordPrinted | software/coremark_app/printf.c:720-795 | %u, %x, %X, %o and %b print every 32-bit word as its one numeral in base 10, 16, 16, 8 and 2, in lower or upper case, which reads back as the word |
| PrintfFormats.SignedPrinted | software/coremark_app/printf.c:750-772 | %d and %i print a word below 2^31 like %u and any other as a minus sign and its distance to 2^32 |
| PrintfFormats.ShortPrinted | software/coremark_app/printf.c:685-692 | h and hh print the low 16 and 8 bits |
| PrintfFormats.LongPrinted | software/coremark_app/printf.c:678-707 | l, z and t print the word of 32 bits |
| PrintfFormats.LongLongPrinted | software/coremark_app/printf.c:678-707 | ll and j print all 64 bits, in one way only, and they read back |
| PrintfFormats.LongLongSigned | software/coremark_app/printf.c:752-757 | %lld does so with the sign |
| PrintfFormats.PaddedHexPrinted | software/coremark_app/printf.c:720-872 | %04x prints the digits of %x filled up with zeros to four places, and %p those of %X to eight |
| PrintfFormats.TextPrinted | software/coremark_app/printf.c:823-850 | %s prints the string and %.*s as much of it as the argument says |
| PrintfFormats.CharPrinted | software/coremark_app/printf.c:804-880 | %c prints the character and %% a percent sign |
| PrintfFormats.NegativePrecisionIff | software/coremark_app/printf.c:666-670 | For every string and precision argument %.*s prints what the standard asks for exactly if the argument is not negative or the string is empty |
| PrintfFormats.SignedCharIff | software/coremark_app/printf.c:764 | For every word %hhd prints the signed character of the standard exactly if it is below 128 |
| PrintfNumbers.DigitsReadBack | software/coremark_app/printf.c:308-328 | The digits produced in any base of 2 to 16 read back as the value modulo the base to the power of the room |
| PrintfNumbers.WordsFit | software/coremark_app/printf.c:308-328 | Every 32-bit value reads back exactly, in every base |
| PrintfNumbers.LongLongBinaryTruncated | software/coremark_app/printf.c:333-353 | A 64-bit value in base two does not: 2^32 prints as zeros |
| PrintfNumbers.NumberPrinted | software/coremark_app/printf.c:254-353 | Without '#' and '-', if zeros, digits and sign fit the 32 places, the output is the layout of the standard, of max(width, max(digits, precision) + sign) characters, and its digits read back as the value, in every base, for every value below the base to the power 32 |
| PrintfNumbers.LayoutIff | software/coremark_app/printf.c:254-304 | Without '#' and '-' the output is the layout of the standard exactly if zeros, digits and sign fit the 32 places, or if only a blank sign is lost that the width pads |
| PrintfNumbers.LeftIff | software/coremark_app/printf.c:254-304 | With '-' the output is the layout of the standard exactly if the digits are no fewer than the precision |
| PrintfNumbers.LeftNumberIff | software/coremark_app/printf.c:254-353 | The same for whole numbers |
| PrintfNumbers.LeftForgetsPrecision | software/coremark_app/printf.c:257-268 | '-' with precision 3 prints 5 as "5" where the standard asks for "005" |
| PrintfNumbers.HashReadsBackIff | software/coremark_app/printf.c:270-291 | Under '#' the text is the digits, less those that gave way, and as much of the prefix as fits the 32 places; the digits left read back as the value exactly if they have room for it |
| PrintfNumbers.HashLosesDigits | software/coremark_app/printf.c:270-291 | A width of eight makes %#8x of eight digits lose the two highest |
| PrintfNumbers.DecimalRoundTrip | software/coremark_app/printf.c:215-328 | _atoi of what %u prints is the value, for every 32-bit value |
| Disasm.CsDisasm | model/components/capstone/cs.c:823-1027 | The call succeeds exactly if the allocator grants the requests a result of that length takes; it then returns exactly the instructions All describes, in a block of exactly that many slots, and otherwise zero; the slots in use and the cache stay inside the block through every growth |
| Disasm.EnoughMemory | model/components/capstone/cs.c:852-1019 | Memory for three times the instructions and one cache is enough for success |
| Disasm.NoWrap | model/components/capstone/cs.c:960-962 | The 32-bit growth product wraps for no block of fewer than 1861635745 slots |
| Disasm.CsDisasmIter | model/components/capstone/cs.c:1071-1163 | One step moves code and address past the instruction it fills in, or fails and moves nothing |
| Disasm.StepThrough | model/components/capstone/cs.c:1071-1163 | Stepping until failure or count yields what Steps describes |
| Disasm.BatchIsStepping | model/components/capstone/cs.c:823-1163 | Without skipping, or with a callback on which the difference has no effect, batch and stepping yield the same instructions |
| Disasm.SteppingIff | model/components/capstone/cs.c:906-926 | For a callback, batch and stepping agree on every handle, buffer, address and count exactly if for every buffer and offset its answers to the whole buffer and to the rest are equal or both end the disassembly |
| Disasm.CallbackSeesMore | model/components/capstone/cs.c:910-911 | A callback whose answer grows with the offset makes them differ |
| Disasm.ResultContiguous | model/components/capstone/cs.c:823-1027 | Each instruction starts where the one before it ended |
| Disasm.ResultCoversPrefix | model/components/capstone/cs.c:823-1027 | The bytes of the instructions are a prefix of the buffer |
| Disasm.ResultEndsWell | model/components/capstone/cs.c:823-1027 | The result ends early only at count or where no step is possible |
| Disasm.ResultFields | model/components/capstone/cs.c:880-960 | Every instruction of the result, at the offset and address that the sizes in front of it give: decoded, it has the id, mnemonic and operands of the decoder and the last 24 bytes at most; skipped, id 0, the mnemonic and the text set for data, and the bytes skipped |
| Mnemonics.Engine.SetMnemonic | model/components/capstone/cs.c:718-746 | As a map, the list gets the truncated mnemonic at this id and nothing else changes; ids stay distinct and the chain acyclic |
| Mnemonics.TruncatedIs | model/components/capstone/cs.c:728-743 | What is kept of a mnemonic is its longest beginning of at most 31 characters |
| Mnemonics.Engine.DeleteMnemonic | model/components/capstone/cs.c:747-772 | As a map, the list loses this id and nothing else |
| Mnemonics.Engine.FillMnemonic | model/components/capstone/cs.c:570-587 | The lookup finds the entry of the id and replaces as many characters as the default name has, if the outcome fits |
| Mnemonics.NameReplaced | model/components/capstone/cs.c:518-533 | Where the text starts with the default name, the customised mnemonic takes exactly its place |
| Mnemonics.PrefixIff | model/components/capstone/cs.c:518-563 | Behind a prefix and a blank the outcome is the prefix, the customised mnemonic and the rest exactly if that mnemonic is the default name itself and the prefix starts with it |
| Mnemonics.LastOptionCounts | model/components/capstone/cs.c:718-772 | After any run of options an id has the mnemonic it was last given, or none if it was deleted since |
| Mnemonics.Configure | model/components/capstone/cs.c:718-772 | The list after any run of options is the map of that run |
| Mnemonics.MapRemoved | model/components/capstone/cs.c:751-768 | Taking an entry out of a list of distinct ids takes its id out of the map |
| ZeroCounts.CountLeadingZeros32 | model/components/capstone/MathExtras.h:95-118 | The bisection finds the count whose shift leaves exactly the highest one |
| ZeroCounts.LeadingIsUnique32 | model/components/capstone/MathExtras.h:95-118 | No other count does |
| ZeroCounts.BisectLeadingZeros64 | model/components/capstone/MathExtras.h:132-178 | The same for 64 bits by bisection |
| ZeroCounts.CountLeadingZeros64 | model/components/capstone/MathExtras.h:132-178 | And by halves of 32 bits |
| ZeroCounts.CountTrailingZeros32 | model/components/capstone/MathExtras.h:190-204 | The table indexed by the lowest one modulo 37 gives the number of zeros below it |
| ZeroCounts.CountTrailingZeros64 | model/components/capstone/MathExtras.h:218-234 | The table modulo 67 does for 64 bits |
| Population.CountPopulation32 | model/components/capstone/MathExtras.h:247-256 | The parallel sums are the number of ones |
| Population.CountPopulation64 | model/components/capstone/MathExtras.h:259-268 | For 64 bits too |
| WordMath.MaskIff | model/components/capstone/MathExtras.h:68-70 | A mask is a run of ones from the lowest bit on |
| WordMath.ShiftedMaskIff | model/components/capstone/MathExtras.h:75-83 | A shifted mask is a run of ones anywhere, or zero, which the documentation does not mean to admit |
| WordMath.NextPowerOf2 | model/components/capstone/MathExtras.h:364-376 | A power of two above a, half of which is not, and zero exactly if none fits |
| WordMath.LeastPowerAbove | model/components/capstone/MathExtras.h:364-376 | That is the least power of two above a |
| WordMath.MinAlign | model/components/capstone/MathExtras.h:353-362 | A power of two that divides both, unless both are zero |
| WordMath.MinAlignGreatest | model/components/capstone/MathExtras.h:353-362 | No greater power of two divides both |
| WordMath.Log2Of32 | model/components/capstone/MathExtras.h:270-276 | The place of the highest one, all ones for zero |
| WordMath.Log2CeilOf32 | model/components/capstone/MathExtras.h:284-289 | The least power of two not below the value |
| WordMath.GreatestCommonDivisor64 | model/components/capstone/MathExtras.h:296-305 | A common divisor that every common divisor divides |
| WordMath.RoundUpIff | model/components/capstone/MathExtras.h:378-391 | The next multiple of align modulo 2^64 exactly if the sum does not wrap or align divides 2^64 |
| WordMath.CountLeadingZerosInt | model/components/capstone/MathExtras.h:421-437 | The loop gives 32 less the number of binary digits, and 0 for a negative number |

## Findings

What the code does not keep, each with an input and the exact condition:

- core_list_init can give two cells the same index, against its comment: seed 22 does in the standard sizes, and from
  323 slots on every seed does (`ListFit.DifferIff`, `ListFit.LargeCollide`, `ListFit.SeedCollision`). A run then still
  keeps the index of every place and the data of every cell (`ListRuns.RestoredIff`), but cells that share an index
  may trade places: the head can be replaced exactly if it shares its index (`ListTies.HeadKeptIff`), as it does with seed
  7 (`ListFit.SeedTiesHead`), and some cell can move exactly if two share an index (`ListTies.PlacesKeptIff`).
- The state scanner rejects the pattern -87e+832 of the table of scientific numbers: an exponent needs a point before it
  (`StateInit.PatternVerdicts`).
- core_init_matrix overruns a block whose address is not a multiple of four when the spare bytes do not cover the padding
  (`MatrixInit.LayoutFits`, `MatrixInit.UnalignedOverrun`), and finds too large an N for blocks close to 4 GB
  (`MatrixInit.LargeBlocksOverflow`).
- rev_pack accepts a bare HEAD TAIL as an empty packet (`IspLink.BareHeadTailAccepted`).
- A number loses zeros and sign beyond 32 places (`PrintfNumbers.LayoutIff`). With '-' it loses the zeros of its precision (`PrintfNumbers.LeftIff`); with '#' and a width or precision that the
  digits just fill it loses its highest digits (`PrintfNumbers.HashReadsBackIff`); a 64-bit number in base two loses
  all but 32 digits (`PrintfNumbers.LongLongBinaryTruncated`, condition in `PrintfNumbers.DigitsExactIff`).
- A negative precision among the arguments counts as zero instead of as none, so %.*s prints nothing
  (`PrintfFormats.NegativePrecisionIff`), and %hhd prints the characters from 128 on as positive numbers
  (`PrintfFormats.SignedCharIff`).
- cs_disasm and cs_disasm_iter show a skipdata callback different arguments and can differ in their results
  (`Disasm.SteppingIff`, `Disasm.CallbackSeesMore`).
- A customised mnemonic behind an instruction prefix overwrites the wrong characters: "plus" for "add" makes "plusk add" of
  "lock add", and no mnemonic but the default one survives a prefix (`Mnemonics.PrefixIff`).
- isShiftedMask accepts zero (`WordMath.ShiftedMaskIff`), and RoundUpToAlignment returns zero when its sum wraps, which is
  right only for divisors of 2^64 (`WordMath.RoundUpIff`).

## Left out

- User interface, sockets and the native call under model/controller, tools/socket_share.py, and the socket, option and
  file parts of tools/bootloader-isp.py (send_cmd, wait_line, main): input and output.
- sim/batch_sim.py, tools/bank_file_generate.py, Dhrystone, CoreMark's main, reporting and memset: easy members or
  straight-line constants.
- Floating-point printf, which is not compiled in, the UART and _out_fct.
- Architecture tables, decoders and printers of Capstone, the IT block of ARM, instruction details, the DIET build, and
  the per-architecture copies in cs_op_count and cs_op_index. The decoder is a function that returns 1 to all of the
  bytes left; handles of ARM are outside the model.
- Compiler-builtin branches and float casts of MathExtras.h; isUIntN, SignExtend, abs64 and OffsetToAlignment, which are
  one expression each. The 32-bit mask tests and the 64-bit logarithms repeat the members given.
- Printf.Vsnprintf: asks for a format that does not end inside a directive, and for output shorter than 2^32; arguments of the wrong
  kind, undefined in C, read as zero or as the empty string.
- PrintfFormats.FormatRendered: takes directives in the documented form, with a specifier that is none of the characters
  the parts in front of it are made of; an argument of the wrong kind reads as zero or as the empty string.
- ListInit.CoreListInit: the memory for cells and the memory for their data advance together, so one index stands for
  both, and three slots at least are asked for, the head, the tail cell and the one never used.
- ListBench.CoreBenchList: asks for three cells, since the removal takes the second of them. With finder_idx above zero the
  cached values, and so the return value, depend on the order in which the sort calls the kernels and are left open; the
  data words after the run are not.
- ListSort.MergeSort: under the comparator by value asks that the two state seeds agree in their low byte and that this byte
  is no comma. Otherwise a run of the state kernel can take a zero off the end of its buffer
  (StateBench.ZerosKeptIff), and a later scan would leave the buffer. insize is unbounded; it stays below the length of a
  list that fits the target's memory.
- ListCells.CalcFunc: asks for such seeds, for the same reason.
- ListCells.RunKernel: asks for such seeds, for the same reason.
- ListCells.CmpComplex: asks for such seeds, for the same reason.
- ListRuns.Iterate: asks for such seeds too, and for a head that shares its index with no other cell: otherwise res->list
  can point into the middle of the list after a run (ListTies.HeadKeptIff), and the next run sees only the rest.
- ListFit.HeadAloneIff: from 163845 slots on the indices of the first fifth wrap below zero, and the cell built as the head
  does not stay in front.
- MatrixInit.Dimension: asks for a block no larger than the largest 32-bit product of the search; larger ones are the
  subject of MatrixInit.LargeBlocksOverflow.
- MatrixInit.CoreInitMatrix: the signed 32-bit product of order and seed wraps, as it does on the target, where C leaves
  it undefined.
- StateInit.CoreInitState: asks for fewer than 2^31 bytes, so that the unsigned sum of the loop does not wrap, and for one byte
  at least; with none the size would wrap below zero.
- Disasm.CsDisasm: asks that no block of 1861635745 instructions is granted, where the 32-bit product of the growth wraps.
- Mnemonics.Engine.FillMnemonic: asks for a default name no longer than the text; with a longer one the code reads behind
  the text.

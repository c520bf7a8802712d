# TeleClassic26 core: verified models

TeleClassic26 is a Classic-protocol game server. What it is made of that is hard to get right is the compression
library it vendors (`zlib/`), the NBT reader and writer for its maps (`cNBT/`), the worker pool that runs every session
(`src/thread_pool.c`) and the backlog of tasks that wait for a result (`src/task_backlog.c`). This project models that
code in Dafny 4.11 and proves what it is for. `dafny verify dfyconfig.toml` checks all of it.

The main results, each for all inputs, all runs or all reachable states:

* **What is deflated inflates back.** `RoundTrip.PackAndUnpack` deflates any byte string at any parameters and hands the
  result, followed by anything, to inflate() in pieces of any size: the string comes back, the stream ends, and what
  follows it is left alone. On the way in, `Stream.Compress` runs lazy matching, tree building and bit output; it rests
  on `Deflate.Deflater.DeflateSlow` (what is tallied expands to the input, across window slides, flushes and early
  returns) and on the round trips of the three block forms.
* **deflate() finds what there is to find.** `Deflate.Session` and `Stream.Compress` also say which symbols come out.
  Every position that is not inside a match is looked at, with all earlier positions in the dictionary unless more
  input comes in the middle of a flush; a pair is the first of the longest candidates within the chain budget, and no
  longer one is found at the next position; a byte stands alone only if there was nothing of three bytes in reach, the
  distance and strategy rules dropped it, or a longer match follows (`LazyMatch.EachReasoned`). Input and dictionary
  determine the outcome (`LazyMatch.SoughtOnce`).
* **Each block goes out in its smallest form.** In `FlushBlock.TrFlushBlock` both predictions are the exact sizes
  whatever is sent, and the form sent takes no more bytes than either other; the bytes for a stored block are at hand
  whenever it is no longer than matches reach.
* **The Huffman trees are optimal, exactly when they can be.** `TreeBuild.BuildTree` gives a complete code within the
  limit, with `opt_len` and `static_len` grown by the exact cost. For frequencies within 16 bits it costs no more than
  any prefix code if and only if some cheapest prefix code keeps to the limit; the tie-breaking by depth is what makes
  this true (`TreeCost.MergeTall`). `FlushBlock.TrFlushBlock` turns it into bits: no other codes send the symbols of a
  block in fewer, unless a code has 15 bits.
* **inflate() is exact however it is called.** `Inflate.InflateAll` gives, for every byte string, exactly the output,
  the verdict and the end that the format specifies, and `Inflate.Run` cuts input and output space into calls at will.
  Every state of raw streams is a method: block types, stored blocks, table headers and coded blocks.
  `InflateTable.InflateTable` builds two-level tables that decode exactly the canonical code and refuses exactly the bad
  length sets; `InflateFast.InflateFast` gives the same result as the slow states.
* **852 and 592 table entries are enough.** `TableSpace.EnoughRoom` proves the two numbers that `zlib/inftrees.h` takes
  from an exhaustive search, so `inflate_table()` never runs out of room where inflate() calls it.
* **Length limits are met.** `BitLengths.Repair` always finds a code to move and ends with a Kraft sum of one over as
  many codes, and the longest codes still go to the rarest symbols.
* **The formats in numbers.** `Rfc1951` states what a DEFLATE stream means without the model's own constants: bit order,
  code words, block types, the fixed code, the header and its order, repeats, lengths and distances. `NbtBytes` does the
  same for NBT, byte by byte, for reading and for writing.
* **Checksums combine.** `Crc32.Combine` for strings of any length, because x^(2^32) = x modulo the CRC polynomial
  (`Crc32.FullCircle`); `Adler32.CombineLaw` and the deferred reduction of `Adler32.Adler32Z` without overflow.
* **The pool loses nothing.** In every run no continuation is refused and no wakeup is lost; with a blocking cap of at
  least 1 every accepted task is started exactly once before a worker exits; a task with k others before it in a
  buffer other than the blocking one is among the next (k + 1)·|pattern| tasks started. The task taken is the first
  runnable one in the order of priorities from the pattern's letter on (`ThreadPool.Pool.PoolDequeue`).
* **NBT round trip.** Parsing a dumped tree gives it back before any suffix if and only if the tree is well formed,
  and a dump fails exactly for the trees that are not dumpable.
* **Backlog conservation.** Whatever allocations and schedulings fail, each entry is scheduled or failed exactly once,
  and no memory or reference is used before it is held.

## How the model is built

Bit streams are sequences of booleans, least significant bit first. Code words are numbers compared by their low bits,
as the tables index them. Code that changes state is written as methods and classes on arrays and fields and proved
against functions on values; the functions then carry the laws. Window positions are also tracked as stream positions,
so that a slide changes no statement. The thread pool appears twice: as class methods on ring buffers
(`ThreadPool.Pool`), each proved to do what a function on queues does, and as a state machine over those functions whose
steps are the critical sections of any number of workers and callers (`PoolRuns`).

| file | models |
|---|---|
| `Bits`, `Huffman`, `Ranks`, `Sums` | numbers as bits, canonical codes, Kraft sums, costs |
| `DecodeTable`, `TableSpace`, `InflateTable` | `zlib/inftrees.c` |
| `InflateSpec`, `BitReader`, `InflateWindow`, `InflateSteps`, `InflateCopy`, `InflateFast`, `CodedStates`, `BlockTables` | coded blocks of `zlib/inflate.c`, `zlib/inffast.c` |
| `StreamSpec`, `StreamStates`, `StreamTurns`, `Inflate` | whole raw streams of `zlib/inflate.c` |
| `Rfc1951` | the DEFLATE format in the numbers of RFC 1951 |
| `BitWriter`, `StaticTables`, `Block`, `CodeLengths`, `TreeCoding`, `Header`, `BlockTypes` | output of `zlib/trees.c` and its reading |
| `TreeHeap`, `TreeGrowth`, `TreeShape`, `BitLengths`, `TreeBuild`, `BlockCost`, `FlushBlock` | trees and sizes of `zlib/trees.c` |
| `TreeCost`, `TreeWeight`, `TreeHeight`, `TreeWitness`, `BestCodes` | why the trees are optimal and when they cannot be |
| `Hash`, `HashChains`, `Lz77`, `LazyMatch`, `Deflate`, `Stream`, `RoundTrip` | `zlib/deflate.c`, the stream it writes, and both directions together |
| `Crc32`, `Adler32` | the two checksums |
| `RingBuffer`, `PoolSpec`, `PoolRuns`, `Fairness`, `ThreadPool`, `Backlog` | `src/thread_pool.c`, `src/task_backlog.c` |
| `NbtFormat`, `NbtRoundTrip`, `NbtCode`, `NbtBytes` | `cNBT/nbt_parsing.c` |

## Where the code and its comments differ

* `zlib/trees.c:660` says a forced code is 0 or 1. A forced code is 2 if and only if symbol 1 is the only one in use
  (`TreeBuild.ForcedTwo`, frequencies in `TreeBuild.ForcedTwoWitness`). The cost stays exact, because codes 0, 1 and 2
  have no extra bits in any of the three trees (`TreeBuild.ForcedFree`).
* `zlib/trees.c:531-535` and `zlib/trees.c:623` say the lengths are optimal. With frequencies within 16 bits, as the
  source keeps them, they are if and only if a cheapest code keeps to the maximal length (`TreeBuild.BuildTree`). For
  nine Fibonacci numbers as frequencies of code length symbols none does (`TreeWitness.NoneInSeven`).
* `zlib/inffast.c:29` asks for fewer than 8 bits on entry. Between calls the LEN state holds fewer than 8 bits in all
  cases if and only if no literal/length code is longer than 8 bits (`BlockTables.FewBitsHeld`). With a longer code, as
  in the fixed code (`BlockTables.FixedLong`), a call that is given its first 8 bits keeps them
  (`BlockTables.HoldsEight`). `InflateFast` is proved from the condition that does hold: fewer than 8 bits, or too few
  for the next code.
* `include/TeleClassic26/thread_pool.h:71` says the blocking cap is clamped to the number of threads; initialization
  stores it as given. With a cap of 0 an accepted blocking task is never run (`PoolRuns.LeftBehind`); the drain is
  complete if and only if the cap is at least 1 or no blocking task was ever accepted (`PoolRuns.DrainedExactly`).
* `cNBT/nbt.h` says a failed dump returns a null buffer. It never does: the buffer holds at least the type byte
  (`NbtCode.NbtDumpBinary`), as for the two trees of `NbtCode.FailedDump`, a node of no known type and a string of 32768
  bytes; so the statement holds if and only if the dump does not fail, that is for `NbtRoundTrip.Dumpable` trees.
* The CODELENS state does not look at the entry's `op`, so the invalid marker of an empty code length code reads as
  length 0; `CodeLengths.ReadLens` does the same.

## Model

| member | source | states |
|---|---|---|
| `Huffman.CanonFits` | zlib/trees.c:203-232 | a canonical code fits its length when the lengths are not over-subscribed |
| `Huffman.PrefixFree` | zlib/trees.c:203-232 | no code word of a set with Kraft sum at most one is a prefix of another, in the reversed form that is sent |
| `Huffman.CompleteDecodes` | zlib/inftrees.c:140-147 | with Kraft sum one every word starts with some code word |
| `Ranks.CodeNext` | zlib/inftrees.c:246-262 | in sorted order the next code word is the last one plus one, appended with zeros and read backwards |
| `DecodeTable.NoClash` | zlib/inftrees.c:237-244 | no two symbols claim the same table index |
| `DecodeTable.FillSub` | zlib/inftrees.c:237-244 | filling a second-level table places the symbol and keeps all earlier ones |
| `DecodeTable.AddLink` | zlib/inftrees.c:289-293 | linking a new sub-table keeps every symbol already placed |
| `DecodeTable.PlacedDecodes` | zlib/inftrees.c:220-311 | once all symbols are placed, every word that starts with a code word finds that symbol in one or two lookups and drops its length; other words find the invalid marker |
| `InflateTable.CodesLeft` | zlib/inftrees.c:139-147 | the loop is negative exactly for over-subscribed lengths, else the Kraft deficit |
| `InflateTable.SortSymbols` | zlib/inftrees.c:149-156 | the counting sort puts every symbol at its rank by length, then symbol |
| `InflateTable.Fill` | zlib/inftrees.c:237-244 | exactly the indices with the given low bits are replaced |
| `InflateTable.BackwardsIncrement` | zlib/inftrees.c:246-255 | adds one to the code seen with its bits reversed, zero after the last |
| `InflateTable.SubTableBits` | zlib/inftrees.c:273-281 | the look-ahead finds a size that holds every code behind the same root entry |
| `InflateTable.EnterAll` | zlib/inftrees.c:220-295 | the main loop places every symbol or stops for lack of room |
| `InflateTable.BuildTables` | zlib/inftrees.c:204-311 | the finished tables decode the lengths, incomplete one-bit codes included |
| `TableSpace.CellNext` | zlib/inftrees.c:257-295 | from one code to the next behind a root entry, its rank plus the codes of its length still missing there, less its length, does not fall; the last one leaves none missing |
| `TableSpace.LastInCell` | zlib/inftrees.c:264-295 | behind each root entry there is a last code, which fills it |
| `TableSpace.ThriftyNew` | zlib/inftrees.c:264-287 | the bound on the space holds again after a new sub-table |
| `TableSpace.SpaceBound` | zlib/inftrees.c:283-287 | the entries used are at most the root table, the symbols that are not short, and the last sub-table less its bits |
| `TableSpace.ManyShort` | zlib/inftrees.h:38-48 | with a long code, at least two of 286 codes have at most 9 bits and at least three of 30 at most 6 |
| `TableSpace.EnoughRoom` | zlib/inftrees.h:38-57 | 286 symbols and 9 root bits never need more than 852 entries, 30 symbols and 6 root bits never more than 592 |
| `InflateTable.InflateTable` | zlib/inftrees.c:46-311 | -1 exactly for over-subscribed or, but for a single one-bit code, incomplete lengths; 0 means the tables decode exactly the canonical code; 1 means too little table space, which needs a code longer than the root index and does not happen for the numbers of symbols and root bits that inflate() uses |
| `InflateSpec.LengthKind` | zlib/inftrees.c:69-74 | length symbols stand for 3 to 258 with at most 5 extra bits |
| `InflateSpec.DistKind` | zlib/inftrees.c:75-82 | distance symbols stand for 1 to 32768 with at most 13 extra bits |
| `InflateSpec.CopyMeaning` | zlib/inflate.c:1020-1065 | each copied byte equals the one the distance before it, overlap included |
| `InflateSpec.CopySplit` | zlib/inflate.c:1020-1065 | a match copied in pieces is the match copied at once |
| `BitReader.NeedBits` | zlib/inflate.c:368-373 | pulls just enough bytes; the stream of unused bits stays the same |
| `BitReader.DropKeeps` | zlib/inflate.c:374-383 | the low bits are the next bits of the stream and dropping skips exactly them |
| `BitReader.AcceptedIsUsable` | zlib/inflate.c:884-907 | what inflate_table accepts is what the decoding loops need |
| `BitReader.HitIsSymbol` | zlib/inflate.c:923-940 | a decided entry is the symbol whose code word starts the stream |
| `BitReader.MissNeedsBits` | zlib/inflate.c:923-940 | with too few bits the stream holds no whole symbol yet |
| `BitReader.FetchCode` | zlib/inflate.c:923-940 | both lookup loops pull no byte more than the next code needs |
| `InflateWindow.ReplaceAll` | zlib/inflate.c:273-278 | a window's worth of output replaces the window in order |
| `InflateWindow.Append` | zlib/inflate.c:279-293 | output that fits is appended |
| `InflateWindow.Wrap` | zlib/inflate.c:279-288 | output past the end wraps around and the last 32K stay in order |
| `InflateWindow.Window.Update` | zlib/inflate.c:252-296 | the circular window holds the last min(total, wsize) output bytes in order |
| `InflateSteps.StepLen` | zlib/inflate.c:914-963 | a step of LEN keeps the meaning of the rest, or stops unchanged for input |
| `InflateSteps.StepDist` | zlib/inflate.c:975-1002 | the same for DIST |
| `InflateSteps.StepExtra` | zlib/inflate.c:964-1019 | the same for LENEXT and DISTEXT |
| `InflateCopy.TooFar` | zlib/inffast.c:167-176 | the two-part distance check rejects exactly matches from before all output |
| `InflateCopy.AroundWindow` | zlib/inffast.c:208-226 | a match that wraps in the window and goes on in the output is the plain copy |
| `InflateCopy.FastCopy` | zlib/inffast.c:167-262 | all window layouts copy what the plain definition copies |
| `InflateCopy.SlowCopy` | zlib/inflate.c:1020-1065 | a turn of MATCH copies a part of the match and leaves the rest for later |
| `InflateFast.FastPair` | zlib/inffast.c:119-166 | length and distance of a pair with at most 48 bits read |
| `InflateFast.FastTurn` | zlib/inffast.c:100-288 | a turn takes at most 6 bytes and writes at most 258, keeping the meaning of the rest |
| `InflateFast.GiveBackKeeps` | zlib/inffast.c:290-295 | giving back whole unused bytes leaves the stream as it was |
| `InflateFast.InflateFast` | zlib/inffast.c:50-305 | same bytes, same verdict, same bit position as the slow states |
| `CodedStates.CodedTurn` | zlib/inflate.c:914-1071 | each turn in a coded block keeps the final result and makes progress, or stops for output, for input, or at the end; input that does not complete the next code is kept in full |
| `CodedStates.StarvedIncomplete` | zlib/inflate.c:914-1071 | stopping for input at the end of the data is exactly an incomplete block |
| `BlockTables.MakeTable` | zlib/inflate.c:884-907 | the table decodes the lengths, and with room it is built exactly for lengths that are not refused |
| `BlockTables.MakeLenTable` | zlib/inflate.c:808-817 | the table of the code length code is built exactly for lengths that are not refused |
| `BlockTables.MakeTables` | zlib/inflate.c:884-907 | the same for both tables of a block |
| `BlockTables.FixedTables` | zlib/inftrees.c:327-373 | the tables of the fixed code are always built |
| `BlockTables.EightBits` | zlib/inflate.c:923-927 | the first eight bits of a longer code decide nothing |
| `BlockTables.FewBitsHeld` | zlib/inffast.c:23-29 | the LEN state never holds eight bits between calls if and only if no literal/length code is longer than eight |
| `BlockTables.HoldsEight` | zlib/inffast.c:23-29 | given the first byte of a longer code the LEN state keeps its eight bits |
| `BlockTables.FixedLong` | zlib/inftrees.c:332-338 | the fixed code has such codes |
| `StreamSpec.BlockShrinks` | zlib/inflate.c:711-910 | reading a block takes bits, so reading a stream ends |
| `StreamStates.HeadStep` | zlib/inflate.c:711-746 | behind the three bits of a block header the stream goes on in the state its type says |
| `StreamStates.StoredSkip` | zlib/inflate.c:747-748 | a stored block means the same before and behind the bits to the next byte |
| `StreamStates.CopyStep` | zlib/inflate.c:765-778 | bytes of a stored block can be copied in parts |
| `StreamStates.InflatedExtends` | zlib/inflate.c:711-1071 | output only grows over all blocks |
| `StreamStates.HungryIncomplete` | zlib/inflate.c:368-373 | a state that waits at the end of the data is exactly an incomplete stream, in every state |
| `StreamStates.WholeStream` | zlib/inflate.c:708-717 | at the start the state machine means what the stream means, with the last byte's unused bits skipped |
| `StreamTurns.HeadTurn` | zlib/inflate.c:711-746 | type and last flag are read, or the stream ends at a byte, keeping the final result |
| `StreamTurns.NeedWord` | zlib/inflate.c:747-749 | the accumulator ends up with exactly the 32 bits behind the padding, or waits with whole bytes |
| `StreamTurns.StoredLength` | zlib/inflate.c:750-761 | the length is taken if and only if its complement matches |
| `StreamTurns.StoredTurn` | zlib/inflate.c:747-761 | keeps the final result, or waits for input |
| `StreamTurns.CopyTurn` | zlib/inflate.c:765-781 | copies as much as input and output allow, keeping the final result |
| `StreamTurns.CountsTurn` | zlib/inflate.c:782-801 | keeps the final result, too many symbols being an error |
| `StreamTurns.LenLensLoop` | zlib/inflate.c:802-807 | reads the lengths in their order, resumable at each |
| `StreamTurns.LenLensTurn` | zlib/inflate.c:802-823 | keeps the final result up to the table of the code length code |
| `StreamTurns.CodeLensTurn` | zlib/inflate.c:824-910 | keeps the final result through the lengths, the end-of-block check and both tables |
| `StreamTurns.BlockTurn` | zlib/inflate.c:914-1071 | a turn in a coded block as part of the stream |
| `StreamTurns.Turns` | zlib/inflate.c:504-1131 | the turns of one call end, keep the final result, and stop only at the end, on an error, with output full or input short |
| `Inflate.Inflater.Inflate` | zlib/inflate.c:504-1138 | one call keeps the final result whatever input comes later, and the window for the next call |
| `Inflate.StateMeans` | zlib/inflate.c:1111-1116 | what was sent is a prefix of the final output; at the end it is all of it and the next byte is the next input; an error is the specified one |
| `Inflate.Run` | zlib/inflate.c:504-1138 | however calls cut input and output space, the bytes so far are a prefix of the specified output; end and error are exact |
| `Inflate.InflateAll` | zlib/inflate.c:504-1153 | for every input and all sizes of the pieces: output, verdict and unused input are those of the stream |
| `BitWriter.Writer.SendBits` | zlib/trees.c:274-286 | the bits sent are the old ones followed by the value's bits, also when the buffer overflows |
| `BitWriter.Writer.Windup` | zlib/trees.c:181-193 | pads with zeros to a byte |
| `BitWriter.Writer.Flush` | zlib/trees.c:166-176 | keeps the bits, leaves at most seven in the buffer |
| `BitWriter.BiReverse` | zlib/trees.c:154-161 | the first len bits in the opposite order |
| `BitWriter.NextCodes` | zlib/trees.c:203-220 | the first code of each length is the canonical one |
| `BitWriter.GenCodes` | zlib/trees.c:203-232 | every symbol gets its canonical code reversed; symbols without a length are untouched |
| `StaticTables.InitLengths` | zlib/trees.c:317-330 | code and base of every length lead back to that length through the decoder's tables |
| `StaticTables.InitDists` | zlib/trees.c:332-348 | the same for every distance up to 32768 |
| `Block.DecodeCode` | zlib/trees.c:239-246 | a sent code word decodes to its symbol before any rest |
| `Block.EvalSym` | zlib/trees.c:900-951 | one entry of the symbol buffer decodes to its literal or match |
| `Block.BlockRoundTrip` | zlib/trees.c:900-951 | the code words of a block decode to the LZ77 expansion, stop at end of block and leave the rest |
| `Block.CompressBlock` | zlib/trees.c:900-951 | the loop sends exactly those code words |
| `CodeLengths.EmitApplies` | zlib/trees.c:772-785 | the items for a run rebuild exactly that run |
| `CodeLengths.RleApplies` | zlib/trees.c:753-794 | the repeat codes rebuild the lengths |
| `CodeLengths.TreeByRuns` | zlib/trees.c:753-794 | the items of a tree run by run: zeros in lots of 138, then 11 or 3 at least; another length once and again in sixes, then 3 at least; the rest one by one |
| `CodeLengths.ReadItem` | zlib/inflate.c:824-872 | a sent item is read back and applied |
| `CodeLengths.LengthsRoundTrip` | zlib/trees.c:753-794 | reading what is sent for both trees gives exactly their lengths and no error |
| `TreeCoding.ScanTree` | zlib/trees.c:712-747 | counts exactly the codes that send_tree sends |
| `TreeCoding.SendTree` | zlib/trees.c:753-794 | sends exactly the items of the tree |
| `TreeCoding.LensStarvedShort` | zlib/inflate.c:824-872 | waiting for a code length symbol or its repeat count at the end of the data is exactly an incomplete header |
| `TreeCoding.ReadCount` | zlib/inflate.c:835-869 | the repeat count behind a decided symbol, resumable |
| `TreeCoding.ReadOne` | zlib/inflate.c:824-872 | one code length symbol with its repeat count, resumable |
| `TreeCoding.ReadCodeLens` | zlib/inflate.c:824-872 | the loop reads what the specification reads, stops for input and goes on later |
| `Header.OrderPlace` | zlib/inflate.c:491-492 | the order of code length codes is a permutation; its numbers are in Rfc1951.OrderNumbers |
| `Header.LenLensRoundTrip` | zlib/trees.c:844-847 | the code length code lengths come back in their places |
| `Header.CompleteAccepted` | zlib/inflate.c:802-907 | complete codes pass the decoder's checks |
| `Header.HeaderRoundTrip` | zlib/trees.c:833-855 | the decoder rebuilds all three sets of lengths, accepts them and goes on behind the header |
| `Rfc1951.ByteBits` | zlib/trees.c:154-161 | the bits of a byte come least significant first |
| `Rfc1951.FirstWord` | zlib/trees.c:203-232 | the code word of the first symbol by length, then number, is all zeros |
| `Rfc1951.NextWord` | zlib/trees.c:203-232 | every further code word, most significant bit first, is the one before plus one with zeros appended |
| `Rfc1951.DecodedWord` | zlib/inflate.c:923-940 | a decoded symbol is the one whose code word comes next |
| `Rfc1951.BlockType` | zlib/inflate.c:720-745 | bits two and three of a block are its type: stored, fixed, dynamic, or an error |
| `Rfc1951.FinalBit` | zlib/inflate.c:711-718 | the first bit of a block ends the stream behind it |
| `Rfc1951.StoredRead` | zlib/inflate.c:747-781 | a stored block is a length and its complement in two bytes each, lower byte first, and so many bytes |
| `Rfc1951.FixedRead` | zlib/inftrees.c:327-338 | type 1 is read with lengths 8, 9, 7 and 8 on the four ranges and 5 for distances |
| `Rfc1951.OrderNumbers` | zlib/inflate.c:491-492 | the order of code length codes in numbers |
| `Rfc1951.HeaderRead` | zlib/inflate.c:782-823 | the counts of a header less 257, 1 and 4, more than 286 or 30 an error, then three bits for each length in that order |
| `Rfc1951.RepeatRead` | zlib/inflate.c:824-872 | symbols below 16 are lengths; 16, 17 and 18 repeat 3 to 6, 3 to 10 and 11 to 138 times with 2, 3 and 7 bits; too many are an error |
| `Rfc1951.CodesRead` | zlib/inflate.c:877-907 | the lengths are taken if and only if the end of the block has a code and both codes are complete, one code of one bit, or empty |
| `Rfc1951.LengthSymbols` | zlib/inftrees.c:69-74 | what each length symbol stands for, by a formula for its base and extra bits |
| `Rfc1951.DistanceSymbols` | zlib/inftrees.c:75-82 | the same for distance symbols |
| `Rfc1951.PlainRead` | zlib/inflate.c:941-963 | a symbol below 256 is a byte, 256 the end of the block, 286 and 287 are errors |
| `Rfc1951.LengthRead` | zlib/inflate.c:964-974 | the extra bits are added to the shortest length of the symbol |
| `Rfc1951.DistanceRead` | zlib/inflate.c:975-1065 | the extra bits are added to the nearest distance; beyond the output is an error, otherwise each byte equals the one that far back |
| `BlockTypes.StoredRoundTrip` | zlib/trees.c:860-875 | a stored block decodes to its bytes at any bit position |
| `BlockTypes.FixedComplete` | zlib/trees.c:350-367 | the fixed codes are complete |
| `BlockTypes.FixedRoundTrip` | zlib/trees.c:1058-1061 | a block with fixed trees decodes to the expansion |
| `BlockTypes.DynamicRoundTrip` | zlib/trees.c:1065-1070 | a block with its own trees decodes to the expansion |
| `TreeHeap.LiftOrder` | zlib/trees.c:521-525 | moving the smaller son up keeps the order of the heap |
| `TreeHeap.TopIsLeast` | zlib/trees.c:488-493 | the top of the heap is a least node |
| `TreeHeap.DownHeap` | zlib/trees.c:509-528 | restores the heap from k on with the same nodes |
| `TreeGrowth.GrownMerge` | zlib/trees.c:669-695 | pairing two nodes keeps the growing forest well shaped |
| `TreeGrowth.FinishedShape` | zlib/trees.c:669-697 | the finished heap is a tree with fathers before sons |
| `TreeShape.WeightStep` | zlib/trees.c:561-576 | a step of the first pass keeps the relation between Kraft sum, open nodes and overflow |
| `TreeShape.PassEnd` | zlib/trees.c:556-577 | after clamping the Kraft sum exceeds one by exactly half the overflow; without overflow the lengths are the levels in the tree, with it some level is above the limit |
| `TreeShape.RemakeLeaf` | zlib/trees.c:600-612 | handing out one more repaired length keeps counts and lengths in step, longer ones to later leaves |
| `BitLengths.RepairStep` | zlib/trees.c:583-593 | moving one leaf takes one unit off the excess and keeps the number of codes |
| `BitLengths.ShorterExists` | zlib/trees.c:584-585 | while there is excess some code is shorter than the limit |
| `BitLengths.Repair` | zlib/trees.c:582-593 | terminates with Kraft sum one over as many codes, some of the maximal length |
| `BitLengths.Builder.FirstPass` | zlib/trees.c:554-576 | lengths, counts, overflow and costs of the first pass |
| `BitLengths.Builder.Recompute` | zlib/trees.c:595-612 | every leaf gets a repaired length, no later leaf a shorter one, and opt_len is corrected exactly |
| `BitLengths.Builder.GenBitlen` | zlib/trees.c:540-613 | all lengths within the limit, Kraft sum one, exact costs; the levels in the tree unless it is deeper than the limit |
| `TreeBuild.Collect` | zlib/trees.c:639-648 | the heap gets exactly the symbols in use |
| `TreeBuild.Force` | zlib/trees.c:650-661 | at least two codes: 0 and 1 without any symbol, the next or 0 beside a single one; and what is taken off in advance |
| `TreeBuild.ForcedTwo` | zlib/trees.c:655-660 | code 2 is forced if and only if symbol 1 is the only one in use |
| `TreeBuild.ForcedTwoWitness` | zlib/trees.c:660-660 | frequencies of distance codes for which it is |
| `TreeBuild.Remove` | zlib/trees.c:488-493 | takes out a node than which none is rarer, nor as rare and less deep, and keeps the heap |
| `TreeBuild.MergeOnce` | zlib/trees.c:673-693 | combines the first two nodes by frequency, then depth, under one that weighs their sum; keeps what the fathers weigh a lower bound on the cost of any code |
| `TreeBuild.ForcedFree` | zlib/trees.c:655-661 | the deduction is exactly what the forced codes cost |
| `TreeBuild.NotWithin` | zlib/trees.c:579-612 | if the tree is deeper than the limit no cheapest code keeps to it |
| `TreeCost.Shorten` | zlib/trees.c:620-626 | a code longer than all others can be cut to the next longest |
| `TreeCost.RarerLonger` | zlib/trees.c:620-626 | in a code of least cost a rarer symbol never has the shorter code |
| `TreeCost.MergeTall` | zlib/trees.c:499-501 | joining the first two nodes by frequency, then depth, keeps every bound on cost and, among codes of that cost, on depth |
| `TreeWeight.WeighedMerge` | zlib/trees.c:673-693 | each merge keeps what the fathers weigh the cost of the leaves above the nodes, and a lower bound for every code |
| `TreeWeight.FinishedLeast` | zlib/trees.c:669-697 | the levels of the finished tree are a code, and no code costs less |
| `TreeHeight.HeightBound` | zlib/trees.c:681-683 | frequencies of 16 bits in all keep depths at 23 or less, so eight bits are enough |
| `TreeHeight.FinishedSteep` | zlib/trees.c:499-501 | a code that costs no more than the tree is at least as deep |
| `TreeWitness.NoneInSeven` | zlib/trees.c:556-558 | frequencies of code length symbols for which no cheapest code keeps to seven bits |
| `TreeBuild.BuildTree` | zlib/trees.c:627-706 | complete code over all symbols in use within the limit, rarer symbols never shorter; of least cost among all prefix codes unless a length is maximal and, with frequencies of 16 bits in all, if and only if a cheapest code keeps to the limit; opt_len and static_len grow by exactly the cost |
| `BlockCost.SymSize` | zlib/trees.c:909-944 | an entry takes what its symbols are priced |
| `BlockCost.BlockSize` | zlib/trees.c:900-951 | the bits of a block are the price of its symbols and the end code |
| `BlockCost.FrequencyCost` | zlib/trees.c:570-575 | the cost from frequencies is the cost of the symbols |
| `BlockCost.CountsAreBumps` | zlib/trees.c:712-747 | scan_tree's counts are the frequencies of the items sent |
| `BlockCost.ItemsSize` | zlib/trees.c:753-794 | the items of a tree take what they are priced |
| `BestCodes.CodesSize` | zlib/trees.c:900-951 | the size of the entries with any codes, from the frequencies |
| `BestCodes.CheapestBest` | zlib/trees.c:900-951 | cheapest lengths for both alphabets send the entries in the fewest bits of all codes a decoder takes |
| `FlushBlock.BodySize` | zlib/trees.c:1009-1019 | after both trees opt_len and static_len are the exact sizes of the block data |
| `FlushBlock.TreesSize` | zlib/trees.c:800-826 | what build_bl_tree adds is the exact size of the header |
| `FlushBlock.PlainLength` | zlib/trees.c:817-821 | some code length symbol below 16 has a code, so the search for the last one stops in time |
| `FlushBlock.LastRank` | zlib/trees.c:813-819 | one past the last rank with a code, at least four |
| `FlushBlock.StaticTrees` | zlib/trees.c:350-367 | the static trees hold the codes of the fixed lengths |
| `FlushBlock.Coder.InitBlock` | zlib/trees.c:440-451 | only the end code has been counted |
| `FlushBlock.Coder.Tally` | zlib/trees.c:1104-1117 | frequencies stay those of the tallied entries |
| `FlushBlock.Coder.BuildTrees` | zlib/trees.c:1009-1024 | all trees ready and both predicted sizes exact; no other codes take fewer bits for the entries unless one of these has 15 |
| `FlushBlock.SendAllTrees` | zlib/trees.c:833-855 | sends exactly the header |
| `FlushBlock.StoredBlock` | zlib/trees.c:860-875 | sends exactly a stored block |
| `FlushBlock.SendBlock` | zlib/trees.c:1047-1074 | the bits are exactly those of the chosen form and decode to the expansion |
| `FlushBlock.TrFlushBlock` | zlib/trees.c:997-1089 | static_len and opt_len are the sizes of the fixed and the dynamic form whichever is sent; the form sent takes no more bytes than either other and decodes to the expansion of its symbols; the counters are reset |
| `FlushBlock.TrInit` | zlib/trees.c:456-478 | the coder starts with an empty block |
| `Hash.RollNext` | zlib/deflate.c:141-141 | the rolling hash is that of the last three bytes |
| `Hash.ThirdByte` | zlib/deflate.c:1487-1492 | equal hashes and two equal bytes make the third equal |
| `Hash.HashBit` | zlib/deflate.c:141-141 | each bit of the hash is the exclusive or of one bit of each of the three bytes, a third of the width apart |
| `HashChains.PriorInsert` | zlib/deflate.c:160-163 | which string is the latest earlier one of a hash, before and after an insertion |
| `HashChains.InsertKeeps` | zlib/deflate.c:160-163 | an insertion keeps every head and live link leading to exactly the latest earlier string of the same hash |
| `HashChains.SlideKeeps` | zlib/deflate.c:187-210 | sliding keeps every chain in stream positions |
| `HashChains.Follow` | zlib/deflate.c:1525-1526 | a link above the limit leads strictly back to the latest earlier string of the same hash |
| `Lz77.CopyIsMatch` | zlib/deflate.c:1956-2076 | expanding a true match gives the next bytes of the input |
| `Lz77.CommonIsMatch` | zlib/deflate.c:1499-1510 | bytes that agree in the window are a match in the stream |
| `Lz77.CommonBelow` | zlib/deflate.c:1482-1485 | rejecting on one byte loses no longer match |
| `Lz77.SearchLongest` | zlib/deflate.c:1434-1526 | the search finds a match at least as long as every candidate the chain reaches above the limit and within the budget, unless a nice one ended it |
| `Lz77.SearchCandidate` | zlib/deflate.c:1434-1526 | what it finds is the first of the longest of those candidates, measured in full, or the match before |
| `LazyMatch.LengthMeaning` | zlib/deflate.c:1493-1510 | a candidate's length is the greatest, up to 258 and the end of the input, for which the bytes are equal |
| `LazyMatch.NthCand` | zlib/deflate.c:1525-1526 | following the chain visits exactly the earlier positions of the same hash, latest first |
| `LazyMatch.ChainNear` | zlib/deflate.c:1396-1397 | down to exactly those within the window less 262 |
| `LazyMatch.SearchFinds` | zlib/deflate.c:1389-1530 | a longer match found is the first of the longest candidates within the budget, or the first nice one |
| `LazyMatch.SearchFails` | zlib/deflate.c:1389-1530 | otherwise no candidate within the budget is longer than what waits |
| `LazyMatch.SoughtOnce` | zlib/deflate.c:1980-2009 | length and distance of a look are determined by the input, the dictionary and the waiting length |
| `LazyMatch.EachReasoned` | zlib/deflate.c:2013-2061 | every pair tallied is what there is to find and not outdone at the next position; every byte tallied has nothing of three bytes to find, a dropped match, or a longer one at the next position |
| `Deflate.FaithfulPair` | zlib/deflate.c:2013-2020 | tallying the waiting match keeps the expansion exact |
| `Deflate.FaithfulLit` | zlib/deflate.c:2040-2046 | so does cutting it to a literal |
| `Deflate.FaithfulFlush` | zlib/deflate.c:1630-1636 | a flushed block expands to exactly the bytes offered for a stored one |
| `Deflate.Compare` | zlib/deflate.c:1493-1510 | eight comparisons to a check still give the common length |
| `Deflate.SlideTable` | zlib/deflate.c:192-207 | each entry moves down by the window size or becomes NIL |
| `Deflate.Deflater.constructor` | zlib/deflate.c:682-701 | the empty state is valid whatever prev[] holds |
| `Deflate.Deflater.LongestMatch` | zlib/deflate.c:1389-1530 | finds what the plain search finds; any length above prev_length is a true match at most MAX_DIST back although byte 2 is never compared |
| `Deflate.Deflater.InsertString` | zlib/deflate.c:160-163 | the string heads its chain and all invariants stay |
| `Deflate.Deflater.Slide` | zlib/deflate.c:282-295 | in stream positions nothing moves |
| `Deflate.Deflater.Reinsert` | zlib/deflate.c:314-333 | the positions left over from earlier input enter the dictionary |
| `Deflate.Deflater.FillWindow` | zlib/deflate.c:252-338 | conserves stream and input; ends with enough lookahead or no input |
| `Deflate.Deflater.FindMatch` | zlib/deflate.c:1975-2009 | a match found is a true one and what there is to find at the position, recorded with the dictionary it was looked for in |
| `Deflate.Deflater.LookFor` | zlib/deflate.c:1980-2009 | looks exactly when there is a chain, what waits is short enough and the first candidate near enough |
| `Deflate.Deflater.FlushBlock` | zlib/deflate.c:1630-1636 | a block that is not longer than the window less 262 comes with its bytes |
| `Deflate.Deflater.TakeMatch` | zlib/deflate.c:2013-2038 | the waiting match is tallied because none longer was found |
| `Deflate.Deflater.LetGo` | zlib/deflate.c:2040-2052 | the waiting byte is tallied because nothing waited or something longer was found |
| `Deflate.Deflater.PassMatch` | zlib/deflate.c:2022-2036 | inserts the strings inside a match and moves behind it |
| `Deflate.Deflater.Turn` | zlib/deflate.c:1961-2061 | one turn keeps the expansion exact and every symbol the choice that the looks call for, flushing and returning early included |
| `Deflate.Deflater.DeflateSlow` | zlib/deflate.c:1956-2076 | on every return the tallied symbols expand to the input before strstart - match_available, unless it needs more to all of it, and they are the matches and bytes that the looks call for, taken with full lookahead except at the ends given |
| `Deflate.Session` | zlib/deflate.c:1956-2076 | over any sequence of calls the symbols expand to a prefix of the input given, to all of it when flushed, and are what there was to find |
| `Stream.BlockStep` | zlib/trees.c:997-1089 | a block sent behind others is read where they end |
| `Stream.EncodeAll` | zlib/trees.c:997-1089 | the blocks of a session become one stream for all its bytes, each in its smallest form |
| `Stream.LastBlock` | zlib/trees.c:1081-1086 | behind the last block and its padding the stream ends, whatever follows |
| `Stream.Compress` | zlib/deflate.c:1956-2076 | the output, whatever follows it, inflates to exactly the input and ends in its last byte; it is made of the matches there were to find, in blocks of full size, each in its smallest form with the best codes |
| `RoundTrip.PackAndUnpack` | zlib/test/example.c:172-240 | deflate then inflate, in pieces of any size, gives the data back and uses exactly the compressed bytes |
| `Crc32.MultModP` | zlib/crc32.c:163-178 | the product of two polynomials modulo p, for a not zero |
| `Crc32.ProductLeft` | zlib/crc32.c:163-178 | the product is linear in its other argument |
| `Crc32.MulTimes1` | zlib/crc32.c:163-178 | a factor x moves through the product |
| `Crc32.PowerAdd` | zlib/crc32.c:180-195 | powers of x multiply by adding exponents |
| `Crc32.FullCircle` | zlib/crc32.c:184-190 | x^(2^32) = x: squaring returns to x after 32 steps |
| `Crc32.PowersWrap` | zlib/crc32.c:190-190 | the index k & 31 is right for every k |
| `Crc32.MakeX2n` | zlib/crc32.c:258-262 | the table holds x^(2^n) |
| `Crc32.X2nModP` | zlib/crc32.c:184-195 | x^(n 2^k) for every n and k |
| `Crc32.RegisterConcat` | zlib/crc32.c:922-937 | data can be given in pieces |
| `Crc32.RegisterSplit` | zlib/crc32.c:922-937 | the register is linear in its start |
| `Crc32.MakeCrcTable` | zlib/crc32.c:243-256 | the table holds eight bit steps of each byte |
| `Crc32.TableStep` | zlib/crc32.c:925-925 | one table step is eight bit steps of the register |
| `Crc32.Crc32Z` | zlib/crc32.c:922-941 | the bytewise loops give the bit-by-bit definition |
| `Crc32.CombineLaw` | zlib/crc32.c:969-978 | the checksum of a concatenation from those of its parts |
| `Crc32.CombineGen` | zlib/crc32.c:954-961 | the operator is x^(8 len2) |
| `Crc32.CombineOp` | zlib/crc32.c:969-973 | applies the operator, 0 for the invalid one |
| `Crc32.Combine` | zlib/crc32.c:976-978 | crc(A) and crc(B) give crc(A ++ B) for every length |
| `Crc32.KnownChecksums` | zlib/crc32.c:922-941 | the checksums of a zero byte and of the nine digits are d202ef8d and cbf43926 |
| `Adler32.Deferred` | zlib/adler32.c:61-125 | reducing at the end equals reducing at every byte |
| `Adler32.NmaxLargest` | zlib/adler32.c:11-12 | NMAX is the largest block length within the 32-bit bound |
| `Adler32.Steps16` | zlib/adler32.c:14-18 | sixteen unrolled 32-bit sums do not wrap within a block |
| `Adler32.ModReduces` | zlib/adler32.c:25-41 | the division-free form is the remainder for every word |
| `Adler32.Mod28Reduces` | zlib/adler32.c:32-36 | one step is enough up to 28 bits |
| `Adler32.Mod63Reduces` | zlib/adler32.c:42-53 | the form for lengths is the remainder for 63 bits |
| `Adler32.Blocks` | zlib/adler32.c:94-105 | whole blocks, reduced once each |
| `Adler32.Tail` | zlib/adler32.c:107-121 | the rest, reduced once |
| `Adler32.Adler32Z` | zlib/adler32.c:61-125 | from any start word congruent to the definition, from a reduced one equal to it; 1 for a null buffer |
| `Adler32.KnownSums` | zlib/adler32.c:61-125 | the start word is 1, the first sum is the low half, and a nine-letter word sums to 11e60398 |
| `Adler32.CombineLaw` | zlib/adler32.c:133-155 | the sums of a concatenation from those of its parts |
| `Adler32.CombineSums` | zlib/adler32.c:133-155 | the straight-line code computes those sums from reduced words |
| `Adler32.Combine` | zlib/adler32.c:133-155 | adler(A) and adler(B) give adler(A ++ B); an invalid word for a negative length |
| `RingBuffer.Ring.Remaining` | src/thread_pool.c:15-19 | the free slots but one |
| `RingBuffer.Ring.Push` | src/thread_pool.c:68-74 | appends to the queue unless full |
| `RingBuffer.Ring.Pop` | src/thread_pool.c:79-86 | takes the oldest task, nothing from an empty queue |
| `PoolSpec.ChoiceExists` | src/thread_pool.c:98-110 | with an eligible task the search never reaches its impossible end |
| `PoolSpec.SearchFirst` | src/thread_pool.c:100-106 | the buffer found is eligible and none between it and the start is |
| `PoolRuns.InitInv` | src/thread_pool.c:155-215 | the initial state satisfies the invariant |
| `PoolRuns.OpenReserved` | src/thread_pool.c:61-66 | tasks that may still continue never outnumber the reserved slots |
| `PoolRuns.ContinuationAccepted` | src/thread_pool.c:54-75 | so a continuation always finds a slot |
| `PoolRuns.FinishKeeps` | src/thread_pool.c:140-150 | a finished task keeps the invariant |
| `PoolRuns.NewKeeps` | src/thread_pool.c:246-282 | so does a new task |
| `PoolRuns.ContinueKeeps` | src/thread_pool.c:285-318 | so does a continuation |
| `PoolRuns.StopKeeps` | src/thread_pool.c:233-243 | so does stopping |
| `PoolRuns.NextInv` | src/thread_pool.c:112-152 | every step of every worker or caller keeps the invariant |
| `PoolRuns.NoRefusedContinuation` | src/thread_pool.c:307-314 | the enqueue assertions never fire in any run |
| `PoolRuns.NoLostWakeup` | src/thread_pool.c:116-125 | when all live workers sleep there is nothing eligible and no shutdown pending |
| `PoolRuns.DrainedAtExit` | src/thread_pool.c:118-123 | once a worker exits, every accepted task has been started exactly once and returned, nobody sleeps and nothing more is accepted |
| `PoolRuns.NoneStarted` | src/thread_pool.c:29-38 | with cap 0 no blocking task is ever started |
| `PoolRuns.DrainedExactly` | src/thread_pool.c:29-38 | once a worker has exited, all accepted tasks were started if and only if the cap is at least 1 or no blocking task was ever accepted |
| `PoolRuns.LeftBehind` | src/thread_pool.c:29-38 | a run with cap 0 that leaves an accepted task behind |
| `Fairness.OutInTime` | src/thread_pool.c:89-110 | a task at place k is out after (k + 1) rounds of the pattern |
| `Fairness.BoundedWaiting` | src/thread_pool.c:89-110 | it is itself dequeued within k + 1 pattern lengths of dequeues, with exactly k tasks of its buffer before it |
| `Fairness.StepMoves` | src/thread_pool.c:112-152 | every step of the pool is a move on its queues, and exactly the dequeues start a task |
| `Fairness.StartedInTime` | src/thread_pool.c:89-110 | in every run a task with k others before it, outside the blocking buffer, is among the next k + 1 pattern lengths of tasks started |
| `ThreadPool.Pool.constructor` | src/thread_pool.c:173-193 | empty buffers of the four sizes |
| `ThreadPool.Pool.BufferEligible` | src/thread_pool.c:29-38 | non-empty, and below the cap for the blocking buffer |
| `ThreadPool.Pool.HasWork` | src/thread_pool.c:41-48 | some buffer is eligible |
| `ThreadPool.Pool.BufferEnqueue` | src/thread_pool.c:54-75 | accepted exactly when more slots are free than one for each thread or blocking task, or one for a continuation; then appended |
| `ThreadPool.Pool.SearchFrom` | src/thread_pool.c:100-106 | the first eligible buffer from the start on, one by one and round again; none only without any |
| `ThreadPool.Pool.PoolDequeue` | src/thread_pool.c:89-110 | the oldest task of the first runnable priority from the pattern's letter on, in the order A, B, C, D and round again; none only without one; the index moves on by one |
| `ThreadPool.Pool.WorkerLook` | src/thread_pool.c:116-135 | runs a task exactly when one is runnable, counting it; leaves exactly on a shutdown with nothing running |
| `ThreadPool.Pool.WorkerDone` | src/thread_pool.c:140-150 | counters and wakeups after a task |
| `ThreadPool.Pool.ScheduleNew` | src/thread_pool.c:246-282 | refused exactly on a shutdown or without room beyond the reserve; otherwise one worker is woken |
| `ThreadPool.Pool.ScheduleNext` | src/thread_pool.c:285-318 | never refused; on a shutdown the other function runs |
| `ThreadPool.Pool.ScheduleNext2` | src/thread_pool.c:321-359 | refused exactly on a shutdown or for a null function |
| `ThreadPool.Pool.Stop` | src/thread_pool.c:233-243 | only the shutdown flag changes; all workers are woken |
| `Backlog.Backlog.Push` | src/task_backlog.c:28-53 | appends to the list; fails, changing nothing, exactly when a block is needed and there is no memory |
| `Backlog.Backlog.ScheduleBacklog` | src/task_backlog.c:55-126 | walks all blocks and handles every entry in order |
| `Backlog.HandleOne` | src/task_backlog.c:66-121 | the loop body for one entry |
| `Backlog.EachOnce` | src/task_backlog.c:55-126 | every entry comes to exactly one end in order: scheduled if there is a result, memory and room, else failed |
| `Backlog.OneContinuation` | src/task_backlog.c:85-105 | at most one entry continues the chain |
| `Backlog.Balanced` | src/task_backlog.c:55-126 | allocations minus frees, and acquires minus releases, are the scheduled entries |
| `Backlog.AllInOrder` | src/task_backlog.c:55-126 | every schedule directly follows the acquire or allocation for it, every release a failure, and every free the release or failure |
| `Backlog.AlwaysSafe` | src/task_backlog.c:55-126 | at every point of the log no more is freed or released than is held |
| `Backlog.InvokeHandler` | src/task_backlog.c:128-174 | does what a backlog of one entry does; continues nothing at the invalid priority |
| `NbtFormat.ParsePayload` | cNBT/nbt_parsing.c:386-453 | terminates on every input and takes at least one byte; what it reads is in NbtBytes |
| `NbtBytes.NumberRead` | cNBT/nbt_parsing.c:400-417 | tags 1 to 6 are read from 1, 2, 4, 8, 4 and 8 bytes, the highest first, in two's complement |
| `NbtBytes.ArrayRead` | cNBT/nbt_parsing.c:173-257 | tags 7, 11 and 12 are a count of four bytes and elements of 1, 4 and 8 bytes |
| `NbtBytes.TextRead` | cNBT/nbt_parsing.c:126-149 | a string is a count of two bytes and so many bytes |
| `NbtBytes.ListRead` | cNBT/nbt_parsing.c:288-332 | a list is a type, a count of four bytes and the items |
| `NbtBytes.ItemsRead` | cNBT/nbt_parsing.c:307-322 | items follow each other, as many as the count says, none for a negative one |
| `NbtBytes.CompoundRead` | cNBT/nbt_parsing.c:334-381 | a compound is named nodes one behind the other up to a zero byte; a field that fails or a missing end is an error |
| `NbtBytes.NamedRead` | cNBT/nbt_parsing.c:151-171 | a named node is a type, a string and the payload |
| `NbtBytes.OtherRead` | cNBT/nbt_parsing.c:437-453 | no other types are read |
| `NbtBytes.NumberWritten` | cNBT/nbt_parsing.c:789-806 | numbers are written in 1, 2, 4 and 8 bytes, the highest first |
| `NbtBytes.ArrayWritten` | cNBT/nbt_parsing.c:632-685 | arrays as a count of four bytes and elements of 1, 4 and 8 |
| `NbtBytes.TextWritten` | cNBT/nbt_parsing.c:687-706 | strings as a count of two bytes and the bytes, more than 32767 refused |
| `NbtBytes.ListWritten` | cNBT/nbt_parsing.c:710-747 | lists as the type of the items, their count and the items |
| `NbtBytes.CompoundWritten` | cNBT/nbt_parsing.c:749-766 | compounds as their fields with types, one behind the other, and a zero byte |
| `NbtBytes.TypesWritten` | cNBT/nbt_parsing.c:775-780 | the type bytes of strings, lists and compounds are 8, 9 and 10, and a number or array has its own |
| `NbtBytes.ItemsWritten` | cNBT/nbt_parsing.c:735-760 | items one behind the other, with their types in a compound and without in a list |
| `NbtRoundTrip.FitsRange` | cNBT/nbt.h:75-80 | the widths of the number types |
| `NbtRoundTrip.EncodeDecode` | cNBT/nbt_parsing.c:49-73 | every byte string is the encoding of the number read from it |
| `NbtRoundTrip.NamedIsShaped` | cNBT/nbt_parsing.c:151-171 | whatever the bytes, a parsed tree has named fields, unnamed list items of the list's type, and values in range |
| `NbtRoundTrip.NamedBack` | cNBT/nbt_parsing.c:687-827 | such a tree is dumped, and parsing the bytes before any suffix gives it back with strings cut at their first null byte |
| `NbtRoundTrip.RoundTripExactly` | cNBT/nbt_parsing.c:687-827 | the round trip holds for a tree before every suffix if and only if it is well formed |
| `NbtRoundTrip.DumpedExactly` | cNBT/nbt_parsing.c:687-827 | a dump succeeds if and only if types are known, strings short enough and lists of one valid type |
| `NbtRoundTrip.RefusedTrees` | cNBT/nbt_parsing.c:687-827 | two trees that are refused, a node of no known type and a string one byte too long |
| `NbtRoundTrip.ParseDumpParse` | cNBT/nbt_parsing.c:151-171 | what was parsed can be dumped and parses again |
| `NbtCode.SwapBytes` | cNBT/nbt_parsing.c:32-46 | reverses the bytes in place |
| `NbtCode.Reader.ReadString` | cNBT/nbt_parsing.c:126-149 | reads a string as the format says, an error otherwise |
| `NbtCode.Reader.ReadArray` | cNBT/nbt_parsing.c:173-257 | the same for the three arrays |
| `NbtCode.Reader.ReadList` | cNBT/nbt_parsing.c:288-332 | the same for a list; type 0 becomes compound, a negative length is empty |
| `NbtCode.Reader.ReadCompound` | cNBT/nbt_parsing.c:334-381 | the same for a compound up to its end tag |
| `NbtCode.Reader.ReadPayload` | cNBT/nbt_parsing.c:386-453 | the same for any type; never succeeds once an error is set |
| `NbtCode.Reader.ReadNamed` | cNBT/nbt_parsing.c:151-171 | a name that cannot be read makes the parse fail although it goes on |
| `NbtCode.NbtParse` | cNBT/nbt_parsing.c:455-463 | succeeds exactly on the format's inputs, with its tree |
| `NbtCode.ListIsHomogeneous` | cNBT/nbt_parsing.c:259-286 | the one type of the items, the sentinel's for none, invalid if mixed |
| `NbtCode.Buffer.PutString` | cNBT/nbt_parsing.c:687-706 | writes the string up to its null byte, refused beyond 32767 bytes |
| `NbtCode.Buffer.PutNode` | cNBT/nbt_parsing.c:773-827 | writes exactly the node's bytes, or fails keeping what was there |
| `NbtCode.NbtDumpBinary` | cNBT/nbt_parsing.c:829-840 | the bytes of the tree if it is dumpable, otherwise an error beside a buffer that starts with its type |
| `NbtCode.FailedDump` | cNBT/nbt_parsing.c:829-840 | two trees whose dumps fail with buffers that are not null |

## Left out

- zlib/deflate.c: deflate_fast, deflate_rle, deflate_huff, deflate_stored, deflateParams, preset dictionaries and the zlib and gzip headers and trailers; they would add cases without harder properties.
- zlib/deflate.c:340-372: the zeroing behind the data; the window is modelled with arbitrary contents there and the results do not depend on it.
- Stream.Compress: one call sequence with all input at once and Z_FINISH; input and output in pieces are in Deflate.Session and, for decoding, in Inflate.InflateAll. Pending output is not cut by avail_out.
- FlushBlock.StaticTrees: the static distance tree has 32 entries, the source keeps the 30 that can be sent.
- TreeBuild.BuildTree: frequencies and costs are unbounded numbers; in the source the symbol buffer keeps them within 16 and 32 bits.
- FlushBlock.TrFlushBlock: where a code has 15 bits the repaired lengths are not compared with other codes of at most 15.
- Inflate.Inflater.Inflate: raw streams; the zlib and gzip headers and trailers and preset dictionaries are left out, and so are Z_BLOCK and Z_TREES, which only add places to return.
- BlockTables.FixedTables: builds the tables of the fixed code as BUILDFIXED does; that inffixed.h holds the same entries is not shown.
- Inflate.Inflater.constructor: window size 32K only, and inflateUndermine (sane == 0) is not modelled.
- ThreadPool.Pool.constructor: thread creation and its failure returns are left out.
- InflateTable.InflateTable: the tables of a block lie in arrays of their own, of ENOUGH_LENS and ENOUGH_DISTS entries, not behind each other in one.
- Crc32.Crc32Z: the bytewise loops; the braided, big-endian, ARM and S390 forms are not modelled.
- Adler32.Combine: equality is stated for reduced words, which is what adler32 returns.
- ThreadPool.Pool: thread creation, joining and logging; the lock makes each method one step, and what it sends on the condition variable is a result.
- PoolRuns: tasks continue at most once and at their own priority, as the interface demands of them.
- Backlog.Backlog.ScheduleBacklog: handlers are recorded as events and their answers are given for each entry, so that any behaviour of the pool between two entries is covered; finalization is left out.
- NbtCode.NbtDumpBinary: the assertions in cNBT/nbt_parsing.c at lines 269 and 719 are taken as compiled out; a list without one valid type fails in the model, where a build with assertions stops. NbtRoundTrip.ParseDumpParse shows that no parsed tree gets there.
- NbtCode: linked lists are sequences and memory is always found; a zero-byte allocation counts as found. Floats are their bit patterns. ASCII dumping, files and compression wrappers are left out.
- src/map.c, src/map_cache.c, src/server.c, src/protocol.c, src/handler.c and the network, logging and entry code: field copying and plumbing.
- nbt_clone, nbt_filter and nbt_eq of cNBT: not part of this model.

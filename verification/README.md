# Verified models of nekosys and its PNG codec

nekosys is a small x86 operating system with its own kernel, C library and utility library, and
carries a port of the LodePNG codec. The modules here model its densest code and prove what that
code promises. Every function below is stated for all inputs, all settings and, for the kernel and
the allocator, all runs or all reachable states. `dafny verify dfyconfig.toml` checks everything.

Code that the source writes as loops over buffers and objects is written here as methods on arrays
and classes; each method is proved against a specification function or a predicate, and the lemmas
named after the properties are about those.

## Components

**Huffman codes and bit streams** (`Bits`, `BitReader`, `BitWriter`, `Canonical`, `PrefixCode`,
`DecodeTable`, `HuffmanTree`, `DecodeSymbol`, `FixedTrees`). A canonical code is a set of intervals of
15-bit strings that tile the numbers up to the Kraft sum. From this follow prefix freeness,
completeness, and that the two-level table is accepted exactly for complete codes (or fewer than two
symbols) and then decodes them.

**Code lengths** (`MergeSort`, `PackageMerge`, `BpmPool`, `PackageLists`, `PackageWalk`, `PackageBound`, `PackageWeights`, `BlockWeights`, `CodeLengths`). Boundary package-merge is
first stated on values, with an invariant that ties the two look-ahead chains of each list to the full
list they stand for. The algorithm on the node pool, with its free list and its mark-and-collect
pass, refines that. The pool never runs dry, the result is always a complete code, no code within the
limit takes fewer bits, and 32-bit weights do not wrap.

**LZ77** (`Lz77`, `LzChains`, `LzHash`, `LzSearch`, `LzEncode`). The hash chains are stale in many ways, and
every match is checked to be a true one; but within a block they are linked: each slot leads to the
latest earlier position with its key. So a search finds the longest match that is near enough, and each token
is what the searches choose.

**Inflate and deflate** (`DeflateTables`, `DeflateExamples`, `InflateSpec`, `InflateTrees`, `Inflate`, `DeflateFormat`, `DeflateStream`,
`EncoderTrees`, `RunLengths`, `DeflateWrite`, `DynamicHeader`, `DeflateBlocks`, `Deflate`). The decoder is
proved equal, errors included, to a specification on the bit stream, whose tables are pinned down by laws and by
streams given as bytes; the encoder is proved to write
the bits of a list of blocks; and any such stream is proved to inflate to what its blocks stand for.
`Deflate.RoundTrip` runs both. An end code that reaches past the data is accepted, as in the code
(libpng/lodepng.cpp:1333-1338).

**Adler-32 and zlib** (`Adler32`, `Zlib`, `ZlibShort`, `ZlibExamples`). Deferred reduction in 32-bit numbers equals the
byte-wise definition. A zlib stream of three bytes makes the code read the byte in front of it as part
of the checksum (`ZlibShort.ThreeByteExample`); that byte is a parameter, and is proved never to matter.

**PNG scanlines** (`PngLines`, `PngFilter`, `PngFilterLoops`, `PngUnfilterLoops`, `PngUnfilter`,
`PngStrategy`, `SingleBits`, `PngBits`, `PngPadding`, `Adam7`, `PngInterlace`, `PngEncodeImage`, `PngScanlines`,
`PngDecodeImage`, `PngPostProcess`). Filters, strategies, bit padding, interlacing and their in-place
inverses, and the round trip of whole images.

**Colour** (`ColorTree`, `ColorStats`, `ColorPacking`, `ColorChoice`, `ColorConvert`, `ColorMinimal`).
Statistics of an RGBA image, the automatic choice of a colour type, conversion to it and back without
loss. The comment before the choice (libpng/lodepng.cpp:3893-3899) promises the fewest bits; that
holds exactly unless the code avoids a palette or key chunk (`ColorMinimal.MinimalExactly`).

**Scheduler and pipes** (`SchedulerModel`, `SchedulerInvariant`, `SchedulerReturns`, `SchedulerFairness`, `SchedulerStale`,
`PipeHistory`, `Scheduler`). A world with
threads, blockers, pipes, keyboard buffer and clock; actions are timer ticks, system calls up to
their Block, and returns from Block. Invariants, safety, conservation and bounded waiting are proved
over runs. `Scheduler` holds the objects and methods of the source and refines the world's steps. One
finding: `ContextSwitch` returns early when it picks the same thread, before it clears the blocker.
`SchedulerStale.StaleExactly` says when; `SchedulerStale.StaleBlocker` is a run from boot in which a
thread that waits for nothing is passed over because of it.

**Memory** (`LiballocHeap`, `LiballocLinks`, `Liballoc`, `PageManager`, `KernelHeap`, `PageDirectory`). For the
user-space allocator the ghost field `heap` is the sequence of blocks with their pieces; `Valid` says
that the records in raw memory are exactly its doubly linked lists and that all totals are its sums.
The page directory is modelled as words of physical memory with the two-level walk, and the rights it gives, as meaning.

**Files** (`Fat16`, `NekoPath`). Reading a cluster chain, with the exact condition under which the loop ends,
and the path parser, printer and resolver.

## Model

| member | source | states |
|---|---|---|
| Canonical.IntervalsDisjoint | libpng/lodepng.cpp:810-844 | Prefix freeness: a 15-bit string that continues the code of `s` and the code of `t` has `s == t`. No condition on the Kraft sum. |
| Canonical.IntervalsOrdered | libpng/lodepng.cpp:810-844 | The order canonical codes promise: a symbol of smaller length, or of equal length and smaller number, has its whole interval of strings before the other's. |
| Canonical.IntervalInKraft | libpng/lodepng.cpp:810-844 | Every symbol's interval lies below the Kraft sum (in units of 2^-15), so no code is too long for its bits when the sum is at most 1. |
| Canonical.CoverKraft | libpng/lodepng.cpp:810-844 | Completeness: every string below the Kraft sum continues the code of some present symbol. |
| Canonical.CodeInRange | libpng/lodepng.cpp:831-839 | A code assigned within a Kraft sum of at most 1 fits its length, so the encoder's masking changes nothing. |
| PrefixCodes.UniqueMatch | libpng/lodepng.cpp:690-803 | On streams as the decoder reads them (codes most significant bit first, inside bytes filled from the low end), at most one symbol's code is next when the Kraft sum is at most 1. |
| PrefixCodes.SomeMatch | libpng/lodepng.cpp:690-803 | With a Kraft sum of exactly 1 some symbol's code is next on every stream. |
| PrefixCodes.NoMatch | libpng/lodepng.cpp:792-800 | With a Kraft sum below 1 there is a stream on which no symbol's code is next. |
| PrefixCodes.Oversubscribed | libpng/lodepng.cpp:745-755 | With at most 512 symbols and a Kraft sum above 1 two different symbols' codes are next on the all-zero stream, and one of them is short enough to be caught by the first-table collision test. |
| DecodeTables.CollisionRejected | libpng/lodepng.cpp:745-755 | When a short code finds its entry taken, the lengths are not those of a complete prefix code. |
| DecodeTables.FullTableAccepted | libpng/lodepng.cpp:792-800 | At most 512 symbols: if filling met no collision and left no entry unused, the Kraft sum is exactly 1. |
| DecodeTables.UnusedEntryRejected | libpng/lodepng.cpp:792-800 | If filling left any entry unused, the Kraft sum is not 1. |
| DecodeTables.AcceptedUnique | libpng/lodepng.cpp:690-803 | For accepted lengths at most one symbol's code is next on any stream, including the trees of a single symbol that the code tolerates. |
| DecodeTables.TableDecodes | libpng/lodepng.cpp:690-803 | Refinement: for every accepted set of lengths the finished two-level table gives, on every stream, the symbol whose canonical code comes next and that symbol's length, or the invalid symbol when there is none. |
| HuffmanTrees.ReverseBits | libpng/lodepng.cpp:607-612 | The result is the number whose low-end-first bits are the argument's high-end-first bits. |
| HuffmanTrees.GenerateCodes | libpng/lodepng.cpp:818-839 | For every present symbol the stored code equals its canonical code in the bits of its length, although the code also counts absent symbols and lets the running code wrap. |
| HuffmanTrees.ComputeMaxlens | libpng/lodepng.cpp:697-707 | For every 9-bit prefix: the longest code that starts with it, or zero. |
| HuffmanTrees.PlaceShortSymbol | libpng/lodepng.cpp:745-755 | Placing one more symbol of at most 9 bits keeps the table filled for all symbols so far, or finds a collision, and then the lengths are not acceptable. |
| HuffmanTrees.PlaceLongSymbol | libpng/lodepng.cpp:756-773 | Placing one more symbol of over 9 bits in its secondary table keeps the table filled for all symbols so far; the error return at line 766 is never taken. |
| HuffmanTrees.FinishTable | libpng/lodepng.cpp:776-803 | Succeeds if and only if the lengths have fewer than two present symbols or a Kraft sum of exactly 1; on success the table decodes them. |
| HuffmanTrees.HuffmanTree.MakeTable | libpng/lodepng.cpp:690-803 | Error 0 if and only if the lengths are accepted, otherwise 55; on success the table decodes the canonical code. |
| HuffmanTrees.HuffmanTree.MakeFromLengths2 | libpng/lodepng.cpp:810-844 | The same from code lengths alone, leaving the lengths as they were. |
| HuffmanTrees.HuffmanTree.MakeFromLengths | libpng/lodepng.cpp:851-862 | The same for a given list of at most 512 lengths: both directions of "accepted if and only if complete". |
| DecodeSymbols.WrittenSymbol | libpng/lodepng.cpp:1098-1112 | If the stream continues with the code of present symbol `s`, the next symbol is `s`. |
| DecodeSymbols.HuffmanDecodeSymbol | libpng/lodepng.cpp:1098-1112 | The two look-ups return exactly the symbol whose code comes next and move the reader by exactly its length; the invalid symbol only when no code matches. |
| BitReaders.BitReader.EnsureBits9 | libpng/lodepng.cpp:494-507 | Afterwards at least 9 bits of look-ahead equal the stream's next bits (zero past the end); true if and only if the requested bits exist; position kept. |
| BitReaders.BitReader.EnsureBits17 | libpng/lodepng.cpp:510-525 | The same for 17 bits. |
| BitReaders.BitReader.EnsureBits25 | libpng/lodepng.cpp:528-545 | The same for 25 bits. |
| BitReaders.BitReader.EnsureBits32 | libpng/lodepng.cpp:547-565 | The same for 32 bits, with the fifth byte shifted in at the top. |
| BitReaders.BitReader.PeekBits | libpng/lodepng.cpp:568-572 | The low-end-first number in the next bits of the stream, below 2^n. |
| BitReaders.BitReader.AdvanceBits | libpng/lodepng.cpp:574-577 | The look-ahead still equals the stream after the position moves by n. |
| BitReaders.BitReader.ReadBits | libpng/lodepng.cpp:580-584 | Returns the number in the next bits and moves past them. |
| BitWriters.BitWriter.WriteBit | libpng/lodepng.cpp:418-424 | Appends exactly one bit to the bits written so far, in a byte position counter that wraps at 256. |
| BitWriters.BitWriter.WriteBits | libpng/lodepng.cpp:432-443 | Appends the number's bits low end first. |
| BitWriters.BitWriter.WriteBitsReversed | libpng/lodepng.cpp:445-451 | Appends the number's bits high end first. |
| MergeSorts.SortFromCorrect | libpng/lodepng.cpp:919-939 | Bottom-up merging of sorted runs gives a sorted rearrangement. |
| MergeSorts.SortLeaves | libpng/lodepng.cpp:919-939 | The buffer-swapping loops leave the leaves sorted and a rearrangement of the input. |
| PackageMerge.StepInvariant | libpng/lodepng.cpp:942-964 | One recursive step from any reachable pair of look-ahead lists keeps the invariant: each list's length, active-leaf count and weight order stay what lazily built full lists would have. |
| PackageMerge.RunInvariant | libpng/lodepng.cpp:1027-1028 | The invariant holds before every one of the 2n-2 requests, however many. |
| PackageMerge.FinalKraft | libpng/lodepng.cpp:1027-1032 | Conservation: reading lengths off the final chain gives a Kraft sum of exactly 1, no length above the limit, and no leaf of length 0, for every sorted list of two or more weights that fits the limit. |
| BpmPools.SomeNodeFree | libpng/lodepng.cpp:890-906 | In any state reachable with shallow chains, a pool of 2·m·(m+1) nodes has a node on no look-ahead chain. |
| BpmPools.BpmLists.CollectGarbage | libpng/lodepng.cpp:894-906 | Collection keeps every chain, changes no node but its mark, and always leaves a free node. |
| BpmPools.BpmLists.Create | libpng/lodepng.cpp:890-916 | The node handed out is on no live chain and not on the remaining free list; all chains stay as they were and the tail is kept. |
| BpmPools.BpmLists.AddItem | libpng/lodepng.cpp:950-963 | Advancing a list by one node does in the pool what it does on values. |
| BpmPools.BpmLists.BoundaryPM | libpng/lodepng.cpp:942-964 | Refinement: the pointer algorithm on the pool does exactly the step on values, for every list and state. |
| PackageLists.MergedLightest | libpng/lodepng.cpp:942-964 | The first a + b items of the merge of two ascending lists weigh no more than any first a of one and first b of the other. |
| PackageWalk.StepWalks | libpng/lodepng.cpp:942-964 | Every step of the boundary algorithm moves its chains along the full package-merge lists, which it never builds: same items, same number of leaves, same total weight. |
| PackageWalk.FinalCost | libpng/lodepng.cpp:1027-1032 | The final chain weighs exactly what the lightest 2n-2 items of the last full list weigh. |
| PackageBound.KraftUses | libpng/lodepng.cpp:1027-1032 | Any lengths within the limit whose Kraft sum is at most 1 make use of at least 2n-2 items of the last list. |
| PackageBound.Lightest | libpng/lodepng.cpp:967-1043 | Optimality on sorted weights: no lengths within the limit with a Kraft sum of at most 1 have a smaller weighted sum than those of the final chain. |
| PackageWeights.StepFits | libpng/lodepng.cpp:942-964 | One step of any list, with all its recursive steps, adds up only weights below any number that exceeds, for each list c, the heaviest leaf times 2^c while that power is less than the number of leaves, and from there on 2c times the sum of all leaves. |
| PackageWeights.RunSums | libpng/lodepng.cpp:1027-1028 | The same of every request of the whole run. |
| PackageWeights.NoOverflow | libpng/lodepng.cpp:869-876 | With up to 512 symbols, a limit of up to 15 bits and frequencies of less than 2^23 in all, every sum of two weights in the run is below 2^31, so the 32-bit weights never wrap. |
| PackageWeights.HeavyPackage | libpng/lodepng.cpp:951 | The sum of all frequencies is no bound: with 1, 1, 1 and 3 a package weighs 7. |
| CodeLengths.PackageMergeCorrect | libpng/lodepng.cpp:967-1043 | From leaves back to symbols: the lengths sum to a Kraft sum of 1 within the limit, and a length is 0 exactly when the frequency is 0. |
| CodeLengths.PackageMergeOptimal | libpng/lodepng.cpp:967-1043 | From leaves back to symbols: no prefix code within the limit that has a code for every occurring symbol takes fewer bits in total. |
| CodeLengths.HuffmanCodeLengths | libpng/lodepng.cpp:967-1043 | Error 80 exactly when there are no symbols or too many for the limit; otherwise a complete code within the limit in which every occurring symbol has a code, with two or more of them no other symbol has, and no admissible code takes fewer bits. |
| Lz77.CopyIsInput | libpng/lodepng.cpp:1651-1668 | A true match, also one that overlaps its own output, copies exactly the input bytes. |
| Lz77.SearchCodeIndex | libpng/lodepng.cpp:1452-1463 | The binary search returns the index of the largest base that is not above the value. |
| Lz77.IndexUnique | libpng/lodepng.cpp:1452-1463 | That index is unique. |
| Lz77.ExtraBitsFit | libpng/lodepng.cpp:1466-1480 | For every length 3 to 258 and distance 1 to 32768 the remainder over its base fits the table's extra bits. |
| DeflateTables.LengthRanges | libpng/lodepng.cpp:628-635 | Lengths 3 to 258 are cut into ranges without gap or overlap, four symbols for each number of extra bits, and the last symbol is 258 alone. |
| DeflateTables.DistanceRanges | libpng/lodepng.cpp:638-646 | Distances 1 to 32768 are cut into ranges without gap or overlap, two symbols for each number of extra bits. |
| DeflateTables.OrderFansOut | libpng/lodepng.cpp:649-650 | Code length code lengths come in the order 16, 17, 18, 0, and then alternately from 8 up and from 7 down. |
| Lz77.AddLengthDistance | libpng/lodepng.cpp:1466-1480 | Appends exactly the four numbers that stand for the match. |
| LzHashes.CountZeros | libpng/lodepng.cpp:1563-1571 | A run of real zero bytes from the position, which stops early only at a non-zero byte, at the end or at 258. |
| LzHashes.GetHash | libpng/lodepng.cpp:1544-1561 | The hash of the next up to three bytes, below the table size. |
| LzHashes.HashExample | libpng/lodepng.cpp:1544-1561 | The bytes 1, 2, 3 hash to 801; the last two and the last one of the data to what is left of that, and no bytes to 0. |
| LzHashes.Hash.constructor | libpng/lodepng.cpp:1507-1541 | Fresh chains satisfy the invariant for every window that is a power of two, and are linked. |
| LzHashes.Hash.Update | libpng/lodepng.cpp:1574-1590 | Leaves exactly the heads, links, keys and zero counts that inserting the position at the head of both of its chains gives, and keeps the invariant: each used slot names the latest position with its remainder and a true count of zeros there; a link leads to a used slot or to itself. |
| LzHashes.Hash.Forget | libpng/lodepng.cpp:1707-1708 | Drops exactly the two heads, and keeps the invariant. |
| LzChains.NewLinks | libpng/lodepng.cpp:1574-1590 | With slots used again after a window, inserting a position keeps every slot linked to, or behind, each earlier position with its key that is still in the window. |
| LzHashes.InsertKeeps | libpng/lodepng.cpp:1574-1590 | Inserting the next position, or again the one whose heads were dropped, keeps both chains linked and what the slots hold exact. |
| LzHashes.ForgetPends | libpng/lodepng.cpp:1707-1708 | After the heads of the last position are dropped, all is linked but for that position, until it is inserted again. |
| LzEncode.PowerOfTwo | libpng/lodepng.cpp:1615-1616 | A window that passes the `w & (w-1)` test is a power of two. |
| LzEncode.MaskIsLow | libpng/lodepng.cpp:1621-1621 | Masking with 2^k - 1 is the remainder. |
| LzSearches.TestCandidate | libpng/lodepng.cpp:1651-1668 | Comparing one candidate, with the skip over equal zero runs, yields the longest match at its distance of at most 258 bytes inside the window and inside the input, however stale the chain is. |
| LzSearches.FindMatch | libpng/lodepng.cpp:1635-1689 | The chain walk ends, and what it compares are exactly the distances that the chains lead to. The result is a true match inside window and input, the longest with any of these, and of equally long ones the nearest; and no position of the block that is less than a window and no more than a chain's length away has a longer match, unless the one found is long enough. |
| LzSearches.LengthIs | libpng/lodepng.cpp:1651-1668 | The length that comparing a candidate gives, with its skipped zeros, is that of the longest match at the distance of its slot, whatever the zeros. |
| LzSearches.WalkFinds | libpng/lodepng.cpp:1641-1689 | From any slot on the way, a walk with enough steps compares the target, or finds as long a match before it, or one that is long enough, also where it changes from the chain of equal hashes to that of equal zero counts. |
| LzSearches.SameZeros | libpng/lodepng.cpp:1680-1682 | A match that is longer than the zeros at a position starts with exactly as many zeros, so nothing is lost by that change. |
| LzSearches.FindsAll | libpng/lodepng.cpp:1641-1689 | Every match of three bytes or more that starts in the block, less than a window and no more than a chain's length away, is no longer than the one found, or the one found is long enough. |
| LzEncode.ResolveLazy | libpng/lodepng.cpp:1698-1711 | If the match found one further is longer by two or more, the previous byte becomes a literal and that match is the next choice; otherwise the encoder goes back one byte to the delayed match, with the heads dropped. |
| LzEncode.EncodeLZ77 | libpng/lodepng.cpp:1593-1740 | Error 60 or 90 exactly for the windows the code refuses and never 81 or 86; otherwise the numbers are those of tokens that expand to `in[inpos..insize)` after the earlier input, and each token is what the searches choose at its place: the match found there, or a literal if that is not worth it or was dropped for a longer match one further. |
| LzEncode.LiteralExactly | libpng/lodepng.cpp:1714-1725 | A token is a literal if and only if its match was dropped, is shorter than 3 or than asked for, or has length 3 and a distance above 4096; otherwise it is exactly the match found. |
| LzEncode.DroppedForLonger | libpng/lodepng.cpp:1691-1711 | A match is dropped only with lazy matching, only if it is of at most 64 bytes (257 for windows from 8192), and only for one that is longer by two or more, which is then written and not put off again. |
| LzEncode.NoMissedMatch | libpng/lodepng.cpp:1593-1740 | Where a literal stands that was not dropped, every match that starts in the block and in the window, for windows below 8192 no further than an eighth of it, is shorter than 4 or than asked for. |
| LzEncode.TenBytes | libpng/lodepng.cpp:1717-1737 | Ten times the byte 97 give 97, 263, 0, 0, 0. |
| InflateTrees.ReadLengths | libpng/lodepng.cpp:1180-1241 | Expanding codes 16, 17 and 18 into two arrays gives the specified single list of lengths, with repeats running over the boundary, and the code's errors for a repeat before any length, too many lengths, and a cut stream. |
| InflateTrees.GetTreeInflateDynamic | libpng/lodepng.cpp:1130-1260 | Trees, position and error number are those the header specification gives for the stream. |
| InflateTrees.GetTreeInflateFixed | libpng/lodepng.cpp:1123-1127 | Both fixed trees are built and never refused. |
| FixedTrees.GenerateFixedLitLenTree | libpng/lodepng.cpp:1062-1077 | The 288 fixed lengths are accepted: the tree decodes them. |
| FixedTrees.GenerateFixedDistanceTree | libpng/lodepng.cpp:1080-1092 | The 32 fixed lengths are accepted: the tree decodes them. |
| Inflate.CopyMatch | libpng/lodepng.cpp:1317-1332 | The block copy, followed by the byte loop when the match overlaps its own output, equals copying byte by byte from the distance back. |
| Inflate.InflateStep | libpng/lodepng.cpp:1276-1345 | One symbol, literal, match or end, does what the stream specification says, with the same error number. |
| Inflate.InflateData | libpng/lodepng.cpp:1276-1348 | All symbols of a block, with the output limit. |
| Inflate.InflateHuffmanBlock | libpng/lodepng.cpp:1263-1353 | A fixed or dynamic block gives the specified output, end position or error. |
| Inflate.InflateNoCompression | libpng/lodepng.cpp:1356-1386 | A stored block gives the specified output, end position or error 52, 21 or 23. |
| Inflate.InflateV | libpng/lodepng.cpp:1388-1411 | For every byte string and setting the decoder returns exactly the specified bytes or error. |
| Inflate.LodepngInflate | libpng/lodepng.cpp:1413-1421 | The same from an empty output. |
| DeflateTables.DecodedStep | libpng/lodepng.cpp:1279-1331 | Whatever the stream holds, a decoded symbol appends one byte, or a copy of 3 to 258 bytes from 1 to 32768 bytes back that starts inside the output. |
| DeflateTables.FixedCode | libpng/lodepng.cpp:1062-1079 | The fixed codes are the four runs of consecutive numbers of RFC 1951 section 3.2.6. |
| DeflateTables.FixedDistanceCode | libpng/lodepng.cpp:1081-1094 | The fixed code of a distance symbol is its number in five bits. |
| DeflateExamples.FixedExample | libpng/lodepng.cpp:1263-1340 | The bytes 63 18 05 8C 00 inflate to 259 zeros and a 1. |
| DeflateExamples.DynamicExample | libpng/lodepng.cpp:1131-1253 | A stream of sixteen bytes with a dynamic header that uses every kind of code length symbol inflates to its three bytes. |
| DeflateExamples.StoredExample | libpng/lodepng.cpp:1358-1411 | Two stored bytes are returned; a wrong complement of the length gives error 21 unless ignored, missing data 23, and the reserved block type 20. |
| DeflateFormat.TokensDecode | libpng/lodepng.cpp:1263-1353 | Wherever the bits of a list of tokens stand in a stream, the decoder's symbol loop continues behind them with the tokens expanded, for every accepted pair of trees that has codes for them. |
| DeflateFormat.ItemsDecode | libpng/lodepng.cpp:1180-1241 | Wherever the bits of a list of length items stand, reading code lengths continues behind them with the lengths the items stand for. |
| DeflateFormat.HeaderDecodes | libpng/lodepng.cpp:1130-1260 | Wherever the bits of a dynamic header stand, its two trees come out and the position is behind it. |
| DeflateStream.BlockInflates | libpng/lodepng.cpp:1388-1411 | Wherever the bits of a block of any type stand, the decoder goes on behind it with the block's bytes appended, or stops if it is final; only a final empty stored block with no byte behind it is refused, with error 52. |
| DeflateStream.PrefixInflates | libpng/lodepng.cpp:1388-1411 | Any number of blocks in front, empty stored ones too, are decoded to what they stand for. |
| DeflateStream.StreamInflates | libpng/lodepng.cpp:1388-1411 | Any well-formed stream inflates to the concatenation its blocks stand for, whatever bytes follow it, with one exact exception: error 52 if and only if its last block is an empty stored one and no byte follows it. |
| DeflateStream.EmptyStoredExample | libpng/lodepng.cpp:1366 | The stream 01 00 00 FF FF, one empty stored block, is refused with error 52, and accepted when any byte follows it. |
| EncoderTrees.PadCodeBits | libpng/lodepng.cpp:1046-1059 | The encoder trims trailing unused symbols and the decoder pads them again: every code stays the same. |
| EncoderTrees.PadAccepted | libpng/lodepng.cpp:1046-1059 | Padding a complete code keeps it accepted. |
| EncoderTrees.MakeFromFrequencies | libpng/lodepng.cpp:1046-1059 | The tree is ready, complete, within the limit, trimmed no further than asked, has a code for every occurring symbol, and takes the fewest bits. |
| RunLengths.EncodeRuns | libpng/lodepng.cpp:1908-1942 | The numbers returned are those of items that expand back to exactly the given lengths, are never more than the lengths, and store runs as runs: no length stands four times in a row, zero not three times, and no run of zeros or repetitions is cut shorter than it could be. |
| RunLengths.CountItems | libpng/lodepng.cpp:1944-1950 | Counts each code length symbol and skips the repeat numbers. |
| DeflateWrite.CountTokens | libpng/lodepng.cpp:1876-1886 | The frequencies are the numbers of tokens using each literal/length and each distance symbol. |
| DeflateWrite.TreesHaveCodes | libpng/lodepng.cpp:1876-1895 | Trees built from these frequencies have a code for every symbol of every token and for the end code. |
| DeflateWrite.WriteLZ77Data | libpng/lodepng.cpp:1782-1804 | Appends exactly the bits of the tokens. |
| DynamicHeaders.MakeLengthTree | libpng/lodepng.cpp:1908-1953 | Error-free; compact items that expand to the lengths, and a length tree of at most 7 bits with a code for every item that takes the fewest bits. |
| DynamicHeaders.TrimLengths | libpng/lodepng.cpp:1956-1961 | No non-zero length is cut off, at least four stay, and no more than needed. |
| DynamicHeaders.WriteHeader | libpng/lodepng.cpp:1979-2004 | Appends exactly the bits of the header. |
| DynamicHeaders.EncoderHeader | libpng/lodepng.cpp:1979-2004 | The header the encoder writes stands for its own two trees, padded, and both are accepted by a decoder. |
| BlockWeights.FrequenciesFit | libpng/lodepng.cpp:967-1028 | For any frequencies of up to 512 symbols that total less than 2^23, no sum of two weights in the run on their sorted leaves reaches 2^31. |
| BlockWeights.BlockFrequencies | libpng/lodepng.cpp:2085-2091 | The frequencies of both trees of a block of up to 262144 bytes, cut off anywhere, total at most the block's bytes and one more, and so are small enough. |
| DeflateBlocks.EncodeBlock | libpng/lodepng.cpp:1867-1874 | With or without LZ77 as set, the numbers stand for tokens that expand to the block's bytes, and these are the tokens the searches choose, or literals alone. |
| DeflateBlocks.WriteData | libpng/lodepng.cpp:2005-2011 | Error 64 cannot happen; appends the tokens and the end code. |
| DeflateBlocks.DeflateDynamic | libpng/lodepng.cpp:1807-2027 | Appends exactly the bits of one well-formed dynamic block that stands for `data[datapos..dataend)`, with the chosen tokens, trees that take the fewest bits for them, and a header that wastes no room; errors only for a refused window. |
| DeflateBlocks.DeflateFixed | libpng/lodepng.cpp:2029-2072 | The same for a fixed block. |
| Deflate.DeflateNoCompression | libpng/lodepng.cpp:1744-1775 | Behind what the output held: for non-empty data a well-formed stream of stored blocks of 65535 bytes, the last one with the rest; for empty data nothing. |
| Deflate.DeflateV | libpng/lodepng.cpp:2074-2113 | Errors exactly as the settings decide; otherwise, behind what the output held, a well-formed stream that stands for the data, cut into blocks of the code's size, each of the type asked for and with the tokens and trees asked for. |
| Deflate.LodepngDeflate | libpng/lodepng.cpp:2115-2123 | The same into an empty output. |
| Deflate.DeflatedInflates | libpng/lodepng.cpp:1388-1411 | Whatever the encoder produced, followed by any further bytes, inflates to the data. |
| Deflate.NothingInflates | libpng/lodepng.cpp:1744-1751 | The empty output of stored mode on empty data is refused with error 52. |
| Deflate.RoundTrip | libpng/lodepng.cpp:2074-2113 | For all data, block types, windows, minmatch, nicematch and lazy settings: if deflating succeeds, inflating gives back exactly the data, except that stored mode on empty data inflates to error 52. |
| Adler32.PerByteConcat | libpng/lodepng.cpp:2143-2161 | Updating with two pieces one after the other equals updating with their concatenation. |
| Adler32.AdlerIsSums | libpng/lodepng.cpp:2143-2166 | The checksum's halves are the byte sum plus one and the sum of its running values, modulo 65521. |
| Adler32.OneByteDetected | libpng/lodepng.cpp:2143-2166 | Changing any one byte always changes the checksum. |
| Adler32.SumsFit | libpng/lodepng.cpp:2149-2157 | Up to 5552 bytes from any 16-bit halves neither sum reaches 2^32. |
| Adler32.AddBytes | libpng/lodepng.cpp:2151-2155 | Deferring the reduction over up to 5552 bytes keeps both sums congruent to the byte-wise ones, in 32-bit numbers. |
| Adler32.UpdateAdler32 | libpng/lodepng.cpp:2143-2161 | For every start value and every byte string the result is the byte-wise reduced one, and no 32-bit sum overflows. |
| Adler32.ComputeAdler32 | libpng/lodepng.cpp:2164-2166 | The Adler-32 of RFC 1950. |
| Adler32.KnownChecksum | libpng/lodepng.cpp:2164-2166 | The checksum of the letters of Wikipedia is 11E60398. |
| Adler32.ReducedChecksum | libpng/lodepng.cpp:2143-2161 | For 258 bytes of 255 the low half is 270, the sum 65791 reduced once. |
| Zlib.ReadSet32 | libpng/lodepng.cpp:322-336 | Reading what was stored gives the number back. |
| Zlib.SetRead32 | libpng/lodepng.cpp:322-336 | Storing what was read gives the four bytes back. |
| Zlib.ZlibDecompress | libpng/lodepng.cpp:2174-2215 | For every input the output and error number are the specified ones: header checks in the code's order, inflate, then the checksum over the last four bytes. |
| Zlib.ZlibCompress | libpng/lodepng.cpp:2255-2297 | Header 78 01, a well-formed stream for the data, and its checksum. |
| Zlib.PackedUnpacks | libpng/lodepng.cpp:2174-2215 | Any such output unpacks to the data, with every check passing. |
| Zlib.EmptyStoredFails | libpng/lodepng.cpp:1744-1751 | The output for empty data in stored mode is refused with error 52. |
| Zlib.ZlibRoundTrip | libpng/lodepng.cpp:2255-2297 | Compressing and decompressing gives the data back for all data and settings; error 52 exactly for empty data in stored mode. |
| ZlibExamples.ZlibExample | libpng/lodepng.cpp:2174-2215 | 78 01 63 18 05 8C 00 01 05 00 02 unpacks to 259 zeros and a 1; with 03 at the end the checksum is refused with error 58 unless ignored. |
| ZlibExamples.HeaderExamples | libpng/lodepng.cpp:2180-2195 | Headers that are accepted, and ones with errors 24, 25 and 26. |
| ZlibShort.ThreeByteStream | libpng/lodepng.cpp:2174-2215 | Of the three-byte streams with a good header exactly those with third byte 3 reach the checksum, and they are refused unless checksums are ignored. |
| ZlibShort.ByteBeforeIrrelevant | libpng/lodepng.cpp:2205-2209 | The byte in front of the stream, which the checksum of a three-byte stream starts at, never changes result or error, for any stream. |
| ZlibShort.ThreeByteExample | libpng/lodepng.cpp:1333-1338 | 78 01 03 is such a stream: a fixed block whose end code runs past the data and is accepted. |
| PngFilters.PaethPredictor | libpng/lodepng.cpp:3974-3981 | The conditional-swap form picks the nearest of left, up and upper-left in the standard's order. |
| PngFilters.PaethEdges | libpng/lodepng.cpp:5406-5418 | With no left pixel or no line above the predictor is the remaining neighbour, which justifies the code's special cases. |
| PngFilters.UnfilterFilter | libpng/lodepng.cpp:4101-4196 | Undoing a filter restores the line, for every filter type, line above and pixel width. |
| PngFilters.FilterUnfilter | libpng/lodepng.cpp:5379-5421 | And the other way round: filtering is a bijection on lines. |
| PngFilters.LinesRoundTrip | libpng/lodepng.cpp:4198-4227 | A whole image filtered with any type 0 to 4 for each line unfilters to itself. |
| PngFilters.BadFilterIff | libpng/lodepng.cpp:4193-4195 | Unfiltering fails if and only if some line's type is above 4. |
| PngFilters.UnfilteredStands | libpng/lodepng.cpp:4101-4196 | Each byte of an unfiltered line differs from its filtered byte, modulo 256, by nothing, the left byte, the upper byte, the floor of half their exact sum, or the nearest of three neighbours, with bytes outside the image as zero. |
| PngFilters.FilteredStands | libpng/lodepng.cpp:5379-5421 | The same of a line and what it is filtered to. |
| PngFilters.StandsForOne | libpng/lodepng.cpp:4101-4196 | These conditions hold of one line only. |
| PngFilterLoops.FilterScanline | libpng/lodepng.cpp:5379-5421 | The loops write exactly the filtered row, whose bytes differ from the line's by what the standard predicts in whole numbers, and touch nothing else; types above 4 write nothing. |
| PngUnfilterLoops.PaethByFour | libpng/lodepng.cpp:4145-4156 | The unrolled loop that reads four bytes before writing them computes the same bytes, in place too. |
| PngUnfilterLoops.PaethByThree | libpng/lodepng.cpp:4157-4167 | The same for three. |
| PngUnfilterLoops.PaethByTwo | libpng/lodepng.cpp:4168-4178 | The same for two. |
| PngUnfilterLoops.UndoPaeth | libpng/lodepng.cpp:4137-4182 | All Paeth loops together restore the row. |
| PngUnfilterLoops.UnfilterScanline | libpng/lodepng.cpp:4101-4196 | Writes exactly the unfiltered row, whose bytes differ from the filtered ones by what the standard predicts in whole numbers, also when input and output overlap in one buffer; error 36 exactly for types above 4. |
| PngUnfilter.RawSizeIdat | libpng/lodepng.cpp:2808-2813 | The overflow-avoiding formula is the height times one byte more than the line size. |
| PngUnfilter.SmallestBytes | libpng/lodepng.cpp:2808-2813 | A line and a pixel take the smallest numbers of whole bytes that hold them. |
| PngUnfilter.Unfilter | libpng/lodepng.cpp:4198-4227 | Writes the decoded lines, from the same or another buffer; error 36 exactly when some line has a bad type. |
| PngStrategies.Ilog2 | libpng/lodepng.cpp:5424-5432 | The stepwise 16-8-4-1 shifts give the base-two logarithm. |
| PngStrategies.Log2Bounds | libpng/lodepng.cpp:5424-5432 | That logarithm is the exponent of the largest power of two not above the number. |
| PngStrategies.Ilog2i | libpng/lodepng.cpp:5435-5442 | The entropy term computed from it. |
| PngStrategies.PixelBits | libpng/lodepng.cpp:2648-2662 | A pixel of colour type 0, 2, 3, 4 or 6 has 1, 3, 1, 2 or 4 samples, and of any other none. |
| PngStrategies.EntropySum | libpng/lodepng.cpp:5554-5559 | The entropy of the row and its type, over the 256 byte counts. |
| PngStrategies.ChooseMinSum | libpng/lodepng.cpp:5490-5536 | The chosen type has the smallest sum of absolute values, the first such, and the row kept is that filter's. |
| PngStrategies.ChooseEntropy | libpng/lodepng.cpp:5537-5575 | The same for the entropy heuristic, whose comparison keeps the largest sum. |
| PngStrategies.ChooseBruteForce | libpng/lodepng.cpp:5585-5631 | A type up to 4 and exactly its row: with accepted settings the first one with the fewest bytes among five outputs, each a zlib stream for its row; with refused settings type 0. That the outputs are those of the encoder is not stated. |
| PngStrategies.Filter | libpng/lodepng.cpp:5444-5636 | Error 31 or 88 exactly as settings decide; otherwise each line holds its type and its filtered row, and nothing else in the buffer changes. The type is the one the strategy calls for; for brute force, some type up to 4. |
| PngStrategies.FilterResultDecodes | libpng/lodepng.cpp:5444-5636 | What was filtered decodes to the lines if and only if all its types are at most 4. |
| PngBits.SetBit | libpng/lodepng.cpp:2455-2460 | Changes exactly the one bit of the buffer. |
| PngBits.GetBit | libpng/lodepng.cpp:2438-2442 | Reads that bit. |
| PngBits.ByteBits | libpng/lodepng.cpp:2438-2443 | The eight bits of a byte, the first one highest, are that byte. |
| PngBits.CutPad | libpng/lodepng.cpp:5638-5657 | Cutting the padding of padded lines gives the lines back. |
| PngBits.RemovePaddingBits | libpng/lodepng.cpp:4279-4302 | The output bits are the input's lines without padding, also in place, where earlier writes never reach later reads. |
| PngPadding.AddPaddingBits | libpng/lodepng.cpp:5638-5657 | The output bits are the input's lines, each followed by zero bits. |
| PngPadding.PaddedImage | libpng/lodepng.cpp:5638-5657 | The pixels of the padded buffer's lines are the image's bits. |
| Adam7.PixelInPass | libpng/lodepng.cpp:3985-3988 | Every pixel of the image lies in the pass and place computed for it. |
| Adam7.PassInImage | libpng/lodepng.cpp:3985-3988 | Every place of every pass is a pixel of the image, and that pixel's own pass and place: with `PixelInPass`, the seven passes partition the image. |
| Adam7.PassPattern | libpng/lodepng.cpp:3984-3988 | The pass of every pixel is the one in the standard's pattern of eight by eight, repeated over the image. |
| Adam7.PassPosDisjoint | libpng/lodepng.cpp:4005-4032 | Different pixels occupy disjoint bits in the pass layout. |
| Adam7.LayoutsOrdered | libpng/lodepng.cpp:4005-4032 | Pass by pass the packed layout starts no later than the padded one, and that no later than the filtered one: what lets a decoder work in place. |
| Adam7.GetPassValues | libpng/lodepng.cpp:4005-4032 | All pass sizes and the three running offsets. |
| PngInterlace.Interlace | libpng/lodepng.cpp:5668-5705 | For every pixel the bits at its pass place equal its bits in the image, at every depth. |
| PngInterlace.Deinterlace | libpng/lodepng.cpp:4239-4277 | The same relation from passes to image. |
| PngInterlace.SamePasses | libpng/lodepng.cpp:4239-4277 | Two images with the same passes agree on every pixel. |
| PngInterlace.SameBits | libpng/lodepng.cpp:4239-4277 | Images that agree on every pixel agree on all w·h·bpp bits. |
| PngScanlines.PreProcessScanlines | libpng/lodepng.cpp:5709-5780 | The output is the scanlines of the image, whole or in seven passes; errors as the filter settings decide. |
| PngDecodeImages.PostProcessWhole | libpng/lodepng.cpp:4313-4319 | Unfiltering and removing padding, with the input as scratch space, gives the decoded image's bits; error 36 exactly when a line's type is bad. |
| PngPostProcess.PostPass | libpng/lodepng.cpp:4326-4336 | One pass unfiltered and packed in place: its bits are the decoded ones, earlier passes and later input stay untouched. |
| PngPostProcess.PostProcessPasses | libpng/lodepng.cpp:4320-4339 | All seven passes decoded and put in their places. |
| PngPostProcess.PostProcessScanlines | libpng/lodepng.cpp:4306-4347 | Error 31, 36 or 0 exactly as specified; otherwise the image that the scanlines stand for. |
| PngPostProcess.ScanlinesDecode | libpng/lodepng.cpp:4306-4347 | What the encoder writes decodes if and only if all predefined filter types are at most 4. |
| PngPostProcess.ScanlineRoundTrip | libpng/lodepng.cpp:5709-5780 | Encoding and decoding returns the first w·h·bpp bits of the image, for every depth, strategy and interlace method; error 36 exactly when a predefined filter type is above 4, although the documentation (libpng/include/png/lodepng.h:743-747) allows 5. |
| PngPostProcess.PredefinedTypeFive | libpng/lodepng.cpp:5576-5584 | One pixel filtered with the predefined type 5 is written without error and decoded with error 36. |
| ColorTrees.GetAdd | libpng/lodepng.cpp:3131-3164 | Looking up after adding finds the new index for that colour and the old answer for every other, at any level. |
| ColorTrees.BuildTree | libpng/lodepng.cpp:3542-3570 | The tree finds an index of exactly that colour for each palette colour and -1 for every other. |
| ColorStatistics.RequiredBits | libpng/lodepng.cpp:3684-3689 | The smallest depth that holds the grey value. |
| ColorStatistics.NoteAlpha | libpng/lodepng.cpp:3810-3829 | One more pixel keeps: no alpha means that every pixel is opaque or is the colour key with alpha 0. |
| ColorStatistics.ComputeColorStats | libpng/lodepng.cpp:3692-3873 | From fresh statistics: bit depth, grey, alpha, colour key and palette are all true of all pixels and noted only where needed; no opaque pixel has the key's colour. |
| ColorPacking.AddColorBits | libpng/lodepng.cpp:3092-3100 | Puts the sample in its place and keeps all earlier samples, in a byte that may hold rubbish before its first sample. |
| ColorPacking.SampleBits | libpng/lodepng.cpp:2445-2453 | A sample is its bits of the buffer, most significant first. |
| ColorPacking.ReadSample | libpng/lodepng.cpp:2445-2453 | Reading bit by bit gives the sample. |
| ColorPacking.ScaledBack | libpng/lodepng.cpp:3254-3322 | Shifting a grey value to its depth and scaling it back gives the value. |
| ColorChoices.AutoChooseColor | libpng/lodepng.cpp:3902-3965 | The branches choose the mode the decision function gives. |
| ColorChoices.ChosenFits | libpng/lodepng.cpp:3902-3965 | Whatever the statistics and permissions, every pixel of an image they are true of can be expressed in the chosen mode. |
| ColorMinimal.MinimalExactly | libpng/lodepng.cpp:3893-3965 | The chosen mode has the fewest bits per pixel of all permitted modes of up to 8 bits that can hold the image, if and only if no chunk is avoided. On the statistics: there is no smaller palette with fewer than two pixels for each colour, and no key with up to 16 pixels unless a smaller palette with enough pixels is there to be chosen. |
| ColorMinimal.OnePixelExample | libpng/lodepng.cpp:3925-3929 | A single coloured pixel is stored as RGB, although a palette would need one bit. |
| ColorMinimal.FewPixelsExample | libpng/lodepng.cpp:3916-3920 | A coloured and a transparent pixel, without a palette, are stored with an alpha channel, although a key would need 24 bits. |
| ColorMinimal.PaletteTakenExample | libpng/lodepng.cpp:3916-3929 | With each of these pixels twice and palettes allowed, the key is avoided too, and the choice is minimal. |
| ColorConversion.FitsExactly | libpng/lodepng.cpp:3167-3220 | A pixel stays what it is in a mode if and only if it fits it. |
| ColorConversion.Rgba8ToPixel | libpng/lodepng.cpp:3167-3220 | Error 82 exactly for a colour missing from the palette; otherwise what can be read back is what the mode makes of the pixel, and earlier pixels are kept. |
| ColorConversion.GetPixel | libpng/lodepng.cpp:3254-3322 | Reads the pixel the buffer holds in that mode. |
| ColorConversion.ChannelOrder | libpng/lodepng.cpp:3254-3322 | In memory a pixel is red, green, blue, alpha; grey and alpha; or grey. |
| ColorConversion.GreyLevels | libpng/lodepng.cpp:3262-3273 | Grey values of 1, 2 and 4 bits are multiples of 255, 85 and 17, and transparent if and only if they are the key. |
| ColorConversion.ConvertTo | libpng/lodepng.cpp:3524-3596 | Error 82 exactly if a colour is missing from the palette; otherwise all pixels can be read back as the mode expresses them, whatever the output held before. |
| ColorConversion.ConvertFrom | libpng/lodepng.cpp:3524-3596 | All pixels as the buffer holds them. |
| ColorConversion.LosslessRoundTrip | libpng/lodepng.cpp:3902-3965 | For every RGBA image and permission: statistics, automatic choice, conversion there and back give exactly the image, with no error. |
| SchedulerInvariants.SomebodyRuns | kernel/tasks/scheduler.cpp:138-148 | If any listed thread can run, the search chooses one within as many probes as there are threads. |
| SchedulerInvariants.ChosenCanRun | kernel/tasks/scheduler.cpp:138-148 | The chosen thread is listed and can run, and the counter says where it was found. |
| SchedulerInvariants.NextKeeps | kernel/tasks/scheduler.cpp:52-136 | Every step (timer, block, return, kill, exit, spawn, pipe calls, key presses) keeps the invariant: lists and table agree, at most the current thread is Running, a waiting thread holds its own blocker, the idle thread can run. |
| SchedulerInvariants.InvAlways | kernel/tasks/scheduler.cpp:52-136 | The invariant holds in every state of every run. |
| SchedulerInvariants.RunningIsCurrent | kernel/tasks/scheduler.cpp:90-136 | In every state of every run a Running thread is the current one and the current thread is not Dead. |
| SchedulerInvariants.DeadStaysDead | kernel/tasks/scheduler.cpp:52-76 | No step brings a dead thread back. |
| SchedulerInvariants.DeadForever | kernel/tasks/thread.cpp:107-116 | A dead thread stays dead and is never current again, in every run. |
| SchedulerInvariants.BlockReturnsUnblocked | kernel/tasks/thread.cpp:118-133 | Whenever a thread returns from Block in a run, the blocker it waited for is satisfied in that state. |
| SchedulerInvariants.ReceiveFindsPacket | kernel/syscalls.cpp:336-373 | A receive that returns finds the pipe broken or a packet for its own process: -EWTF cannot happen, even with several receivers in one process. |
| SchedulerReturns.NextKeepsWaiting | kernel/tasks/thread.cpp:118-124 | No step of any thread but its own return changes what a thread inside Block waits for. |
| SchedulerReturns.SleepEnds | kernel/tasks/blockers.cpp:8-16 | In every run, a thread that sleeps for ms from clock c returns at clock c + ms or later, and off the processor it can run exactly from then on. |
| SchedulerReturns.WaitEnds | kernel/tasks/blockers.cpp:23-26 | A thread that waits for a process returns, and can run, exactly when every thread of that process is dead. |
| SchedulerReturns.JoinEnds | kernel/tasks/blockers.cpp:61-64 | A thread that joins another returns, and can run, exactly when that one is dead. |
| SchedulerReturns.ReadLineEnds | kernel/tasks/blockers.cpp:33-36 | A thread that reads a line returns, and can run, exactly when a newline is among the keys. |
| SchedulerReturns.ReceiveEnds | kernel/tasks/blockers.cpp:43-54 | A thread that receives returns, and can run, exactly when the pipe is broken or holds a packet for its process. |
| SchedulerReturns.WhoDies | kernel/tasks/thread.cpp:107-116 | Killing ends the current thread and no other, exiting all threads of the process and no other. |
| SchedulerReturns.SpawnedRuns | kernel/tasks/scheduler.cpp:29-32 | A new thread is listed last, belongs to its process and can run. |
| SchedulerInvariants.BoundedWaiting | kernel/tasks/scheduler.cpp:138-148 | Over as many successive decisions as there are listed threads, with the list unchanged, a thread that can run at each of them is chosen at one of them. |
| SchedulerFairness.TicksBound | kernel/tasks/scheduler.cpp:52-76 | In every part of a run the timer ticks are at most 26 for each search for a next thread, plus the ticks of the last slice. |
| SchedulerFairness.TurnComesInTicks | kernel/tasks/scheduler.cpp:52-148 | Bounded waiting in runs: while the list stays the same and a thread can run whenever the next one is looked for, it becomes current within 26 timer ticks for each listed thread. |
| SchedulerInvariants.BootIsFine | kernel/kernel.cpp:38-47 | The invariant holds at boot. |
| SchedulerStale.StaleExactly | kernel/tasks/scheduler.cpp:90-104 | In every state of the invariant: after Block the current thread is Runnable with its blocker still set if and only if the search finds the blocking thread itself, the guard of the early return. |
| SchedulerStale.NeverStaleOverSameList | kernel/tasks/scheduler.cpp:90-148 | In every run: it does not happen to a thread that blocks while the list is what it was when the thread was chosen, with no search in between. |
| SchedulerStale.StaleBlocker | kernel/tasks/scheduler.cpp:92-96 | A run from boot in which it does happen: the thread list grows, the thread receives a packet that is already there, and goes on; it waits for nothing, but its old blocker blocks, and the next timer tick passes it over. |
| PipeHistories.TakeFirst | kernel/syscalls.cpp:349-366 | Removing the first packet for one process takes it from that process's queue and leaves every other process's queue as it was. |
| PipeHistories.NextConserves | kernel/syscalls.cpp:315-400 | Every step keeps: for each pipe and destination, packets sent are packets received followed by packets queued, in order. |
| PipeHistories.AlwaysConserved | kernel/syscalls.cpp:336-400 | Conservation in every state of every run that starts without pipes. |
| PipeHistories.DeliveredInOrder | kernel/syscalls.cpp:336-400 | First in, first out: in every run what a process got from a pipe is a prefix of what was sent to it there. |
| PipeHistories.NextNumbered | kernel/namedpipe.cpp:13-32 | Pipe numbers stay consecutive, so each number names one pipe. |
| PipeHistories.OpenedIsFound | kernel/namedpipe.cpp:13-45 | An opened pipe is found by name and by number, and opening it again changes nothing; a new one belongs to the process that opens it, is whole and empty. |
| PipeHistories.SentIsQueued | kernel/syscalls.cpp:368-400 | A packet of at most 16384 bytes goes to the end of the named pipe's queue, from the sender's process to the process named, or to the pipe's owner; no other pipe changes. |
| PipeHistories.BrokenByOwner | kernel/syscalls.cpp:321-334 | A pipe's owner never changes, broken stays broken, and only the owner's close breaks it. |
| Scheduler.Scheduler.ProcessIsRunning | kernel/tasks/process.cpp:65-71 | True if and only if the process has a thread that is not dead. |
| Scheduler.Scheduler.PipeHasPacket | kernel/tasks/blockers.cpp:43-54 | True if and only if some packet is addressed to the process. |
| Scheduler.Scheduler.IsBlocked | kernel/tasks/blockers.cpp:8-64 | The five predicates of the model, to which `SchedulerReturns` gives their meaning over runs. |
| Scheduler.Scheduler.CanRun | kernel/tasks/scheduler.cpp:150-153 | Neither dead nor blocked. |
| Scheduler.Scheduler.FindNextThread | kernel/tasks/scheduler.cpp:138-148 | The loop ends, chooses the model's thread and leaves the model's counter. |
| Scheduler.Scheduler.ContextSwitch | kernel/tasks/scheduler.cpp:90-136 | The new state, including the early return that changes nothing. |
| Scheduler.Scheduler.PreemptCurrent | kernel/tasks/scheduler.cpp:78-86 | The objects after preemption stand for the model's state. |
| Scheduler.Scheduler.HandleInterrupt | kernel/tasks/scheduler.cpp:52-76 | The objects after an interrupt stand for the model's state; a next thread is always found. |
| Scheduler.Scheduler.Block | kernel/tasks/thread.cpp:118-122 | Refines the model's step and keeps the invariant. |
| Scheduler.Scheduler.Kill | kernel/tasks/thread.cpp:107-116 | Refines the model's step and keeps the invariant. |
| Scheduler.Scheduler.TimerTick | kernel/tasks/scheduler.cpp:52-76 | Refines the model's step and keeps the invariant. |
| Scheduler.Scheduler.Spawn | kernel/tasks/scheduler.cpp:30-33 | Adds one runnable thread at the end of the list and changes nothing else. |
| Scheduler.Scheduler.FindPipe | kernel/namedpipe.cpp:34-45 | The first pipe with that number, or none. |
| Scheduler.Scheduler.FindOrCreatePipe | kernel/namedpipe.cpp:13-32 | The number of the first pipe with that name, appended with the next number if there was none. |
| Scheduler.Scheduler.PipeClose | kernel/syscalls.cpp:321-334 | Breaks the pipe and returns 0 for its owner only; -ENOENT without such a pipe, -EPERM for anybody else, and then nothing changes. |
| Scheduler.Scheduler.PipeReceive | kernel/syscalls.cpp:336-345 | -ENOENT without such a pipe; otherwise the thread blocks on a packet for its own process, and the invariant stays. |
| Scheduler.Scheduler.PipeSend | kernel/syscalls.cpp:375-400 | Appends the addressed packet (destination 0 means the owner) and returns 0; -EINVAL above 16384 bytes and -ENOENT without such a pipe, and then nothing changes. |
| Scheduler.Scheduler.TakeFromPipe | kernel/syscalls.cpp:349-372 | Result, sender and truncated bytes are those of the first packet for the process, which is removed; or the broken pipe's error. |
| Scheduler.Scheduler.FinishReceive | kernel/syscalls.cpp:336-373 | A receive that was waiting ends with a packet or a broken pipe and keeps the invariant. |
| LiballocHeaps.InsertOk | libc/liballoc/liballoc.c:376-536 | A piece put in a gap it fits keeps the pieces in address order, disjoint and in bounds. |
| LiballocHeaps.NoGapWhenFull | libc/liballoc/liballoc.c:343-372 | A block whose free total is too small has no gap that is large enough, so skipping it loses nothing. |
| LiballocHeaps.PiecesDisjoint | libc/liballoc/liballoc.c:241-584 | Different live pieces, in the same or in different blocks, do not overlap. |
| LiballocHeaps.UserRanges | libc/liballoc/liballoc.c:20-33 | User ranges are 16-aligned, inside their block and disjoint from one another. |
| LiballocLinks.InsertMinor | libc/liballoc/liballoc.c:376-536 | The pointer writes that link a piece in make the records the doubly linked list of the new heap, for every position. |
| LiballocLinks.RemoveMinor | libc/liballoc/liballoc.c:671-683 | The pointer writes that link a piece out make the records the list without it. |
| LiballocLinks.MajorAppended | libc/liballoc/liballoc.c:366-369 | Linking a new block behind the last. |
| LiballocLinks.MajorRemoved | libc/liballoc/liballoc.c:688-697 | Linking a block out, wherever it is. |
| Liballoc.UnalignAlign | libc/liballoc/liballoc.c:20-44 | UNALIGN of ALIGN is the header's address, as long as the stored offset stands. |
| Liballoc.Allocator.AllocateNewPage | libc/liballoc/liballoc.c:185-235 | A system block of enough pages with an empty record and the running total raised, or nothing changed. |
| Liballoc.Allocator.TryMajor | libc/liballoc/liballoc.c:376-536 | The placement cases take the first gap that fits and keep all records and totals; if none is taken, no gap of that size exists in the block. |
| Liballoc.Allocator.Search | libc/liballoc/liballoc.c:312-584 | The search from the best bet, round to the root again, ends; it fails only if no block has a large enough gap and the system gives no memory. |
| Liballoc.Allocator.Malloc | libc/liballoc/liballoc.c:241-584 | The heap after is the heap before with one piece of the requested size inserted, possibly in a new block; records, links, totals and the stored offset stand for it; other memory is unchanged. |
| Liballoc.Allocator.Free | libc/liballoc/liballoc.c:594-717 | NULL counts a warning, a pointer to no live piece an error; otherwise exactly that piece is gone, and its block too if it was the last. |
| Liballoc.FreeUndoesMalloc | libc/liballoc/liballoc.c:594-717 | Freeing what malloc just returned restores the heap as it was, including the block list. |
| Liballoc.Allocator.MemCopy | libc/liballoc/liballoc.c:115-135 | Word-wise then byte-wise copying copies exactly the bytes of disjoint ranges. |
| Liballoc.Allocator.Realloc | libc/liballoc/liballoc.c:739-828 | Size 0 frees, NULL allocates, a foreign pointer is refused, a smaller size only changes the recorded request; otherwise a new piece holds the old contents, the old one is freed, and no byte outside the new piece changes. |
| PageManagers.PageManager.AllocPageframe | kernel/memory/pagemanager.cpp:73-87 | Succeeds if and only if a frame is free, returns the lowest, and never one handed out before; the hint stays below every free frame. |
| PageManagers.PageManager.AllocContinuous | kernel/memory/pagemanager.cpp:48-71 | Succeeds if and only if a free run starts at some frame, takes the lowest, and changes only it. |
| PageManagers.RunPastEnd | kernel/memory/pagemanager.cpp:50-55 | The run found reaches past the last page if and only if there is no run inside. |
| PageManagers.RunPastEndExample | kernel/memory/pagemanager.cpp:50-55 | Two pages, the first in use: the run of two that is found lies half outside. |
| PageManagers.PageManager.MarkPageframeAsUsed | kernel/memory/pagemanager.cpp:89-103 | Marks exactly the named frame, and so the frame of every address handed out; the cell one past the last page can be named too, anything behind it is ignored. |
| PageManagers.PageManager.FreePageframe | kernel/memory/pagemanager.cpp:105-114 | Frees exactly the named frame, and so the frame of every address handed out, and lowers the hint when needed; the cell one past the last page can be named too, anything behind it is ignored. |
| KernelHeaps.KernelHeap.FindFreeUnits | kernel/memory/heap.cpp:73-100 | Finds a run if and only if there is one, and the lowest. |
| KernelHeaps.KernelHeap.GetFreeHeap | kernel/memory/heap.cpp:54-61 | The bytes of the units not in use. |
| KernelHeaps.KernelHeap.Kmalloc | kernel/memory/heap.cpp:107-141 | Fails if and only if no run is long enough; otherwise the lowest start, a new owner of exactly these units, and the used units rise by their number. The units hold the request if and only if adding the entry does not wrap at 2^32, and lie inside the heap's memory if and only if, in the map before the call, some long enough free run ends in front of the last units, whose place the map takes. |
| KernelHeaps.LastByteOutside | kernel/memory/heap.cpp:37-45 | In a new heap of 1024 bytes a request of 1016 is served, and its last byte lies one past the end. |
| KernelHeaps.KernelHeap.Kfree | kernel/memory/heap.cpp:143-157 | Removes exactly that owner; used units fall by its number; NULL changes nothing. |
| KernelHeaps.CalcExact | kernel/memory/heap.cpp:102-105 | The signed computation gives the units that the bytes need up to 2^31 - 128; behind that it gives none, or more than any heap has. |
| KernelHeaps.LastUnits | kernel/memory/heap.cpp:37-45 | A unit lies inside the heap's memory if and only if it is not among the last ones, whose place the map takes. |
| PageDirectories.SelfMapFaithful | kernel/memory/pagedirectory.cpp:97-141 | Walking the self-mapped address of a table entry reaches that entry's physical word, if the table is present, with the table's right to write and never for user code. |
| PageDirectories.DirectoryVisible | kernel/memory/pagedirectory.cpp:97-103 | Walking the self-mapped address of a directory entry reaches the directory's own word, to be written, and not by user code. |
| PageDirectories.NewTable | kernel/memory/pagedirectory.cpp:115-141 | Hanging in a table without present entries changes no translation and no rights. |
| PageDirectories.NewTableExactly | kernel/memory/pagedirectory.cpp:115-141 | Hanging a frame in as a table keeps all translations if and only if it holds no present entry; the code does not clear it. |
| PageDirectories.NewPageEntry | kernel/memory/pagedirectory.cpp:73-95 | Writing one table entry changes the translation and rights of exactly that page's addresses. |
| PageDirectories.PageDirectory.GetPageTable | kernel/memory/pagedirectory.cpp:115-141 | With and without paging: the table's address in the respective address space, created if missing, no translation changed. |
| PageDirectories.PageDirectory.MapPage | kernel/memory/pagedirectory.cpp:73-95 | Refuses unaligned addresses; otherwise exactly the named page translates to the frame, writable and open to user code as the permissions say, and every other address and its rights are as before. |
| PageDirectories.LoaderPage | kernel/tasks/elfloader.cpp:162-162 | A page mapped with permissions 6 is writable and open to user code. |
| PageDirectories.PageDirectory.MapRange | kernel/memory/pagedirectory.cpp:60-71 | Exactly the addresses of the named pages translate to the range, with the rights of the permissions; every other address as before. |
| PageDirectories.PageDirectory.CopyTo | kernel/memory/pagedirectory.cpp:33-53 | The copy, whatever its frame held, maps itself and translates every address below the self-map as the original does, with the same rights. |
| Fat16.Read | kernel/fs/fat16.cpp:79-128 | From offset 0, for every walk that is not trapped: the destination starts with the requested bytes of the chain's clusters, leaving out clusters numbered below the first, and is unchanged behind them. |
| Fat16.EndsExactly | kernel/fs/fat16.cpp:97-127 | The loop ends if and only if the walk is not trapped: it never comes, with bytes still to read, to a cycle of clusters all numbered below the first. |
| Fat16.NeverBelow | kernel/fs/fat16.cpp:97-127 | A walk that never goes below the first cluster is not trapped, also when it is cyclic. |
| Fat16.TrapExample | kernel/fs/fat16.cpp:97-127 | A file at cluster 2 that goes on with cluster 1, which follows itself, is never read to its end. |
| Fat16.NothingSkipped | kernel/fs/fat16.cpp:218-240 | No cluster is left out if and only if none is numbered below the first. |
| Fat16.WholeFile | kernel/fs/fat16.cpp:79-128 | Under that condition, and with a chain long enough, the bytes are those of the chain itself. |
| NekoPaths.Path.constructor | libneko/include/nk/path.h:29-55 | The loop parses as specified; parts are non-empty and without slashes. |
| NekoPaths.Path.ToString | libneko/include/nk/path.h:108-118 | The printed form of the path. |
| NekoPaths.ParsePrint | libneko/include/nk/path.h:29-118 | Parsing a printed path gives it back, for every path with non-empty slash-free parts. |
| NekoPaths.PrintRoundTrip | libneko/include/nk/path.h:29-118 | For every text: parsing, printing and parsing again gives the same path. |
| NekoPaths.DownAndUp | libneko/include/nk/path.h:75-106 | Going down any named parts and up as many times comes back to the start. |
| NekoPaths.DotIgnored | libneko/include/nk/path.h:88-103 | A part "." can be left out wherever it stands. |
| NekoPaths.UpUndone | libneko/include/nk/path.h:88-103 | A named part with ".." right behind it can be left out. |
| NekoPaths.UpFromNothing | libneko/include/nk/path.h:88-103 | With nothing to go up from, every second ".." is kept and the next one takes it away. |
| NekoPaths.ResolveExample | libneko/include/nk/path.h:75-118 | From /a/b the path ../c/./d leads to /a/c/d/. |
| NekoPaths.ResolvePart | libneko/include/nk/path.h:88-103 | One part pushes, is skipped or pops; the index stays at or above the number of parts, which is why removing at it removes the last. |
| NekoPaths.Resolve | libneko/include/nk/path.h:75-106 | The result is the stack machine's: an empty path gives the base, an absolute one itself, any other the base's parts pushed and popped. |

## Left out

- Allocation failure (error 83) and custom zlib and deflate callbacks of the codec.
- PNG chunk framing, CRC, ancillary chunks, error texts and unknown chunks: field copying.
- 16-bit colour and background colour: the 8-bit argument again.
- Wrap-around of sizes: image sizes, and inputs of 2^32 bytes or more, are assumed not to overflow `size_t`.
- Deflate.DeflateV: asks for non-empty data in block type 1, where the code divides by a block size of zero (libpng/lodepng.cpp:2085-2093).
- HuffmanTrees.HuffmanTree.MakeFromLengths: at most 512 symbols, since collisions in secondary tables are not checked by the code; every alphabet of the codec is smaller.
- CodeLengths.HuffmanCodeLengths: not for a single symbol, where the code writes a second length past the array.
- PackageWeights.NoOverflow: for frequencies of less than 2^23 in all, as those of a block are (`BlockWeights.BlockFrequencies`); callers that pass frequencies of their own above that are outside it.
- PngStrategies.ChooseBruteForce: the sizes compared are those of streams for the rows, and not shown to be those of the encoder's own output, which is not a function in this model.
- PngStrategies.Filter: for the same reason a brute-force line is only promised a type up to 4.
- LzSearches.FindMatch: a longer match that starts in an earlier block, or further away than the chain limit, may be missed, as in the code.
- ColorConversion.ConvertTo: input modes other than RGBA are converted from only back to RGBA, and the specialised loops for RGB and RGBA targets are the general one.
- Read-only input buffers, the colour tree and the Huffman tree's arrays are values, so aliasing with output buffers is modelled only where the code works in place (unfiltering, removing padding).
- PngInterlace.Interlace: interlacing and its inverse, two copies of one pair of loops in the source, share methods with a direction flag.
- Liballoc.Allocator.Malloc: sizes do not wrap at 2^32, and the system's answer is a parameter that is NULL or fresh page-aligned memory; `calloc` is left out.
- Liballoc.Allocator.Free: headers are as the allocator wrote them; user code that overruns its range is not modelled.
- Liballoc.Allocator.Realloc: not when a piece must move, no gap is large enough and the system has no memory left, where the code copies to NULL.
- Interrupts inside a system call outside its Block, deletion of thread objects, wrap-around of clock and scheduling counter.
- Exit, join, sleep, wait and key reading are actions of the scheduling model, without methods of their own; `waitp` on an unknown process is left out.
- PageManagers.PageManager.AllocContinuous: the frame map is long enough for the cells the code reads behind the last page.
- KernelHeaps.KernelHeap.constructor: heap sizes are multiples of 1024 below 2^32; the entry headers are kept beside the map and not as bytes of heap memory.
- PageDirectories.PageDirectory.MapPage: asks for new page-table frames without present entries, which is exactly when the property holds (`PageDirectories.NewTableExactly`); addresses in the self-map region, the TLB and `invlpg`, and supervisor writes to read-only pages are left out.
- Fat16.Read: offset 0 only; disk sectors are clusters of bytes, and directory search is left out.
- NUL characters in paths.
- ELF loading, drawing, windows, shell, devices and boot code.

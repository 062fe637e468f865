# A Dafny model of the un7z decoders

`un7z` unpacks 7z archives with decoders written in safe Rust, where nearly
every operation is checked. These files model the decoders and the code that
schedules and delivers their output, and prove what the code is for: that a
decoder inverts what an encoder may write, that a fast, stateful form computes
a simple one, and that defensive error arms can never fire.

| files | what they model |
|---|---|
| `Ppmd*` | the PPMd7 sub-allocator: size classes, intrusive free lists, splitting, gluing, and the text region that grows against the units |
| `Lzma*`, `Lz77` | the range decoder and its arithmetic coder, bit trees, distance slots, the literal and match state machine, and the LZMA2 chunk automaton |
| `Deflate64*` | the bit reader, canonical Huffman codes, dynamic trees, overlapping copies, and the block loop |
| `Graph*`, `Folder*`, `CoderRoundTrips` | validation and scheduling of coder graphs, the port-moving executor, the executor with its decoders in place, which decoder each method runs, and what a whole folder can carry |
| `PackedStreams`, `PackedLayout` | the place, the owner and the digest of packed streams |
| `Substreams*`, `MemberMapping`, `Extraction*`, `NaturalExtraction`, `OutputCaps` | the substream section of a header; how members partition folder outputs; random access, natural-order extraction and verification; what output limits do |
| `BranchFilters`, `ThumbFilter`, `Ia64Filter`, `DeltaFilter`, `Bcj2Filter` | the filters, each with its inverse |
| `BranchTargets`, `Bcj2Laws`, `Learning` | the instructions that filters rewrite and what they become; adaptive coding by named contexts |
| `Checksum*`, `HeaderNumbers` | CRC-32 and the 7z integer encoding |
| `Prelude`, `BitStrings` | machine integers, results, powers, byte and bit strings |

Each decoder comes in two forms. A functional form follows the source branch by
branch; round trips and invariants are lemmas about it. Classes and methods
then follow the source's own loops over arrays, cursors and fields, and their
postconditions equate what they compute with the functional form. A bounded
integer type stands for each machine integer, so that assigning the result of a
checked operation proves that its overflow error cannot occur; wrap-around is
written out where the source asks for it. `dafny verify dfyconfig.toml` checks
everything.

What decoder and encoder share is pinned down by itself: tables, code orders and
states by what they mean (`LengthUnique`, `OrderRule`, `CodeMeans`), the contexts of
LZMA and BCJ2 by name (`CodeSays`, `StreamsAre`), filters by the instructions and
addresses they are about, and output caps by the archives they let through
(`VerifiedExactly`). The inverses of all coders meet in `EveryGraphCarries`: a
folder of any accepted shape can hold any bytes.

The LZMA, LZMA2 and Deflate64 decoders are characterized completely: each gives
an output if and only if its input is something an encoder may write for it
(`SizedExact`, `EndedExact`, `Lzma2Exact`, `DecodesExactly`), and for LZMA and
LZMA2 in one way only (`SizedUnique`, `EndedUnique`, `ChunksUnique`).

Where a property fails for some inputs, the code is modelled as it is, a failing
input is given, and the condition is exact:

- branch filters are undone if and only if they start at an aligned offset
  (`PpcScanInverse`, `SparcScanInverse`, `ThumbInverse`, `Ia64Inverse`);
- an LZMA direct bit takes the code out of the range for some stream if and only
  if the interval before it has odd width (`OddUnitLost`), then for one number
  only (`BreaksOnly`); `OddUnitReached` leads a fresh decoder there, and
  `EndedCanonical` says what hangs on it: an accepted stream is byte for byte the
  one an arithmetic coder writes if and only if this never happens on it;
- `allocate_units` fails if and only if its request is out of range or the new
  bound of the gap leaves 32 bits (its own contract); the latter never happens
  in heaps of fewer than 2^32 - 1537 bytes (`GapNeverOverflows`) and does
  happen in every larger one that can be laid out (`RequestBehindGap`);
- an intact archive verifies and extracts if and only if, in every folder with an
  unknown last size, the known sizes and the entry limit add up to less than 2^64
  (`VerifiedExactly`; `SumOverflows` is an archive that is turned down).

## Model

| member | source | states |
|---|---|---|
| PpmdAllocator.SubAllocator.New | crates/un7z/src/decode/ppmd.rs:614-677 | a zeroed heap is laid out as one byte array with text, units, list heads and a scratch block in that order, and refused exactly when its last address would not fit 32 bits |
| PpmdAllocator.SubAllocator.Initialize | crates/un7z/src/decode/ppmd.rs:772-896 | from any heap contents it establishes the allocator invariant (tiling, free lists, region order, size-class tables) with nothing held, all lists empty and the gap of 7/8 of the memory in whole units; no byte below the list heads changes |
| PpmdAllocator.SubAllocator.FillTables | crates/un7z/src/decode/ppmd.rs:828-894 | the loops fill the class table with steps of 1, 2, 3 and 4 units and the reverse table with the first class each count of units fits in |
| PpmdAllocator.SubAllocator.InsertNode | crates/un7z/src/decode/ppmd.rs:708-717 | the two word writes that put a node in front of a list, as an exact function of the heap bytes |
| PpmdAllocator.SubAllocator.RemoveNode | crates/un7z/src/decode/ppmd.rs:719-734 | the head of a list is returned and replaced by its successor; an empty list is the only error |
| PpmdLists.InsertedChains | crates/un7z/src/decode/ppmd.rs:708-717 | after those writes the chain of that list is the node followed by the old chain, and every other chain is as it was |
| PpmdLists.RemovedChains | crates/un7z/src/decode/ppmd.rs:719-734 | after a removal the chain of that list lost its first node and every other chain is as it was |
| PpmdLists.RingInsert | crates/un7z/src/decode/ppmd.rs:581-586 | the four link writes of insert_at put the block right behind the sentinel of the doubly linked ring and change link words only |
| PpmdLists.RingRemove | crates/un7z/src/decode/ppmd.rs:588-593 | the two link writes of remove leave the ring without that block and change link words only |
| PpmdLists.ClassFor | crates/un7z/src/decode/ppmd.rs:874-894 | the class of a count of units is the first that is large enough, overshoots by at most 3 units, and is exact for up to 4, which is what makes the raw index `remainder_units - 1` right |
| PpmdTiling.Disjoint | crates/un7z/src/decode/ppmd.rs:708-948 | two different blocks of a tiling share no byte |
| PpmdAllocator.SubAllocator.SplitBlock | crates/un7z/src/decode/ppmd.rs:736-770 | the tail of a held block becomes free, in one or two listed pieces of exactly their class: the set of free bytes grows by exactly that tail, every other held block keeps its place, length and bytes, and the lists are an exact function of those before |
| PpmdAllocator.SubAllocator.TakeListed | crates/un7z/src/decode/ppmd.rs:719-734 | the head of a list becomes a held block of exactly its class; all other blocks and bytes are kept |
| PpmdAllocator.SubAllocator.AllocateContext | crates/un7z/src/decode/ppmd.rs:898-918 | over every valid state the invariant is kept and the result is a newly held block of one unit, the last below the top of the gap if there is one, else the head of list 0, else what the rare path finds, disjoint from all held ones; 0 comes only with the gap empty, every class empty and no room below the units; books, bounds and counter afterwards are exactly those of that choice |
| PpmdAllocator.SubAllocator.AllocateUnits | crates/un7z/src/decode/ppmd.rs:920-948 | the same for 1 to 128 units: the head of their list, else the old bottom of the gap if they fit it, else the rare path, and 0 only if the gap is too small; the call fails if and only if the request is outside that range or the list is empty and the new gap bound would leave 32 bits, and then changes nothing; held blocks keep their place, length and bytes |
| PpmdAllocator.SubAllocator.BumpLow | crates/un7z/src/decode/ppmd.rs:934-945 | the lower bound of the gap moves up by one block, or back down again exactly when the block does not fit |
| PpmdAllocator.GapNeverOverflows | crates/un7z/src/decode/ppmd.rs:934-938 | no state of a heap of fewer than 2^32 - 1537 bytes can see the overflow of the gap bound |
| PpmdAllocator.RequestBehindGap | crates/un7z/src/decode/ppmd.rs:934-938 | and above that some state does: on every heap whose layout fits 32 bits, taking one unit until the gap is used up and then asking for 1 to 128 units gives the overflow error if and only if a block of their class behind the unit area would end past the last 32-bit address |
| PpmdAllocator.SubAllocator.AllocateUnitsRare | crates/un7z/src/decode/ppmd.rs:950-1009 | the block found and all books afterwards are an exact function of the books before, of the completely glued ones when gluing is due; the invariant and all held blocks are kept, and 0 means that no class from this one on has a block and no room is left |
| PpmdChoices.OwnClassFirst | crates/un7z/src/decode/ppmd.rs:920-933 | a block of the class itself comes from the front of its list; the other lists, the bounds and the counter stay |
| PpmdChoices.GapSecond | crates/un7z/src/decode/ppmd.rs:934-946 | else the bottom of the gap, down to its last byte; the lists stay |
| PpmdChoices.LargerThird | crates/un7z/src/decode/ppmd.rs:963-1008 | else, unless gluing is due, the front of the smallest larger class that has a block; the counter stays |
| PpmdChoices.RoomLast | crates/un7z/src/decode/ppmd.rs:963-1000 | else the room above the text if more than its bytes are left there, else 0; either way the counter goes down |
| PpmdChoices.GluedWhenDue | crates/un7z/src/decode/ppmd.rs:950-961 | with the counter at zero the same choices are made over the glued lists, with the counter at 255 |
| PpmdChoices.ContextFromTop | crates/un7z/src/decode/ppmd.rs:898-908 | a context takes the top unit of the gap and nothing else |
| PpmdChoices.ContextElsewhere | crates/un7z/src/decode/ppmd.rs:909-918 | and with the gap used up exactly what an allocation of one unit gives |
| PpmdAllocator.SubAllocator.FindLarger | crates/un7z/src/decode/ppmd.rs:963-1004 | the first larger class that has a block |
| PpmdAllocator.SubAllocator.GrowDown | crates/un7z/src/decode/ppmd.rs:966-991 | a block from the space between text and units, exactly when more than its bytes are left there; both unit starts move together |
| PpmdAllocator.SubAllocator.ExpandUnits | crates/un7z/src/decode/ppmd.rs:1011-1023 | one more unit: the same block if its class has room; otherwise the head of the next list, else the old bottom of the gap if the block fits it, else what the rare path finds, with the old contents, the old block in front of its own list, and every other held byte and the text unchanged; 0 only if the gap is too small; the exact error conditions |
| PpmdAllocator.SubAllocator.ShrinkUnits | crates/un7z/src/decode/ppmd.rs:1025-1050 | fewer units: unchanged, moved with its contents into the head of the smaller list, or cut in place, each under its exact condition and with exactly those books afterwards |
| PpmdAllocator.SubAllocator.FreeUnits | crates/un7z/src/decode/ppmd.rs:1052-1058 | the block leaves the held ones and goes to the front of the list of its class; nothing outside free bytes changes |
| PpmdAllocator.SubAllocator.CopyAndFree | crates/un7z/src/decode/ppmd.rs:1017-1022 | the copied bytes and the list insertion as an exact function of the heap |
| PpmdAllocator.SubAllocator.GlueFreeBlocks | crates/un7z/src/decode/ppmd.rs:1060-1174 | if no held block begins with the stamp 0xffff, gluing keeps the invariant, conserves the set of free bytes exactly, keeps every held block and byte, ends with exactly the pieces of runs of free blocks that cannot be merged any further, each piece in the list of its size, and leaves the lists in exactly the order that ring and merging give; the cycle error cannot occur |
| PpmdAllocator.SubAllocator.GatherFree | crates/un7z/src/decode/ppmd.rs:1067-1084 | every free list is emptied into the ring and every ring block stamped with its length |
| PpmdAllocator.SubAllocator.MergeFree | crates/un7z/src/decode/ppmd.rs:1085-1124 | neighbouring ring blocks are merged until none ends at another it could swallow within 16 bits; the free bytes and everything outside them stay |
| PpmdAllocator.SubAllocator.DealFree | crates/un7z/src/decode/ppmd.rs:1125-1174 | every ring block is cut into pieces of 128 units and one or two of exactly their class, as a function of its length, and the ring ends empty |
| PpmdGlue.StampMeansRing | crates/un7z/src/decode/ppmd.rs:1098-1108 | the two bytes behind a ring block are the stamp only if a ring block starts there, so no held or foreign bytes are absorbed |
| PpmdAllocator.SubAllocator.AppendText | crates/un7z/src/decode/ppmd.rs:1937-1943 | a symbol is stored at the text pointer; unless the text has now reached the units, which is reported, the invariant is kept |
| PpmdAllocator.SubAllocator.RetractText | crates/un7z/src/decode/ppmd.rs:1953-1959 | taking a symbol back keeps the invariant |
| LzmaRange.BitStep | crates/un7z/src/decode/lzma.rs:39-74 | whatever the adaptive bit, the range it leaves is again at least 2^24 |
| LzmaRange.BoundInside | crates/un7z/src/decode/lzma.rs:44-68 | for every probability in 31..2017 and every range of 24 bits both parts of the split are at least 2^16 wide, so no checked operation fails |
| LzmaLaws.MovesThirtySecond | crates/un7z/src/decode/lzma.rs:44-68 | a probability starts at one half and moves a thirty-second of the way to the bit that was seen |
| LzmaLaws.SplitsInParts | crates/un7z/src/decode/lzma.rs:44-52 | a range is split at the probability out of 2048 whole parts |
| LzmaRange.RangeDecoder.DecodeBit | crates/un7z/src/decode/lzma.rs:39-74 | the registers, the cursor and the probability are updated in lockstep exactly as the functional step says |
| LzmaRange.RangeDecoder.DecodeDirectBit | crates/un7z/src/decode/lzma.rs:129-142 | the same for a bit without probability |
| LzmaRange.RangeDecoder.New | crates/un7z/src/decode/lzma.rs:85-103 | the initial state is accepted exactly when the first byte is zero, five bytes are there and the code is below the full range |
| LzmaRange.NumberInverts | crates/un7z/src/decode/lzma.rs:39-142 | for every sequence of adaptive and direct decisions, any number of the interval they carve out, whatever bytes follow it, replays exactly those decisions |
| LzmaRange.CodeBytesDecode | crates/un7z/src/decode/lzma.rs:39-151 | the lower end of that interval as a byte string decodes to the decisions, consumes every byte and leaves the code at zero |
| LzmaRange.BitKeepsCode | crates/un7z/src/decode/lzma.rs:39-74 | an adaptive bit keeps the code below the range on arbitrary input |
| LzmaRange.DirectKeepsCode | crates/un7z/src/decode/lzma.rs:129-142 | a direct bit keeps it there if and only if the code was not the odd unit of the range that halving drops |
| LzmaIntervals.PresentsInside | crates/un7z/src/decode/lzma.rs:39-142 | a number replays a list of decisions with the code below the range throughout if and only if it lies in their interval |
| LzmaIntervals.StreamsOf | crates/un7z/src/decode/lzma.rs:39-142 | the byte streams that do so are exactly those that begin with a zero byte and a number of the interval |
| LzmaIntervals.CodeUnique | crates/un7z/src/decode/lzma.rs:39-151 | a stream that does so and whose input and code are used up is the one stream the arithmetic coder writes for the decisions, and conversely |
| LzmaIntervals.BreaksOnly | crates/un7z/src/decode/lzma.rs:129-142 | after given decisions a direct bit takes the code out of the range for exactly one number: the highest of their interval, when its width is odd |
| LzmaIntervals.OddUnitLost | crates/un7z/src/decode/lzma.rs:129-142 | so for every list of decisions some stream loses the code at the direct bit behind it if and only if its interval has odd width |
| LzmaOddUnit.OddUnitReached | crates/un7z/src/decode/lzma.rs:360-416 | LZMA reaches that: after a literal and two matches of a fresh model, the first direct bit of a third match loses the code on some input |
| LzmaTrees.TreeInverse | crates/un7z/src/decode/lzma.rs:179-205 | a bit tree decodes to a value if and only if the decisions are those that encode it, and both trees adapt alike |
| LzmaTrees.ReverseInverse | crates/un7z/src/decode/lzma.rs:207-231 | the same for a reverse bit tree |
| LzmaTrees.DirectInverse | crates/un7z/src/decode/lzma.rs:386-404 | the same for a run of direct bits |
| LzmaTrees.DecodeTree | crates/un7z/src/decode/lzma.rs:179-205 | the loop over the tree computes the functional decoder and never leaves the table |
| LzmaTrees.DecodeReverse | crates/un7z/src/decode/lzma.rs:207-231 | the same for the reverse tree |
| LzmaSymbols.LengthInverse | crates/un7z/src/decode/lzma.rs:270-308 | each of the 272 length offsets decodes exactly from its own decisions |
| LzmaSymbols.SlotOf | crates/un7z/src/decode/lzma.rs:360-416 | every 32-bit distance has a slot below 64; from 4 on it lies in the interval that the slot and its footer bits span |
| LzmaSymbols.SlotUnique | crates/un7z/src/decode/lzma.rs:360-416 | every slot from 4 to 63 with every footer of its width is a 32-bit distance of at least 4, and the slot found for that distance is that slot: no two pairs meet and none overflows |
| LzmaSymbols.DistanceInverse | crates/un7z/src/decode/lzma.rs:360-416 | each 32-bit distance, the end marker included, is decoded if and only if the decisions are those that encode it |
| LzmaSymbols.LiteralInverse | crates/un7z/src/decode/lzma.rs:453-526 | each literal is decoded if and only if the decisions are those that encode it, with or without a byte to compare it with |
| LzmaSymbols.ReadLength | crates/un7z/src/decode/lzma.rs:270-308 | the length decoder computes the functional one |
| LzmaSymbols.ReadDistance | crates/un7z/src/decode/lzma.rs:360-416 | the distance decoder computes the functional one |
| LzmaSymbols.ReadLiteral | crates/un7z/src/decode/lzma.rs:453-526 | the literal decoder computes the functional one, its indices staying inside the selected 768 probabilities |
| LzmaMachine.LzmaState.Reset | crates/un7z/src/decode/lzma.rs:571-584 | a reset gives the initial model with the same three properties |
| LzmaMachine.LzmaState.Decode | crates/un7z/src/decode/lzma.rs:779-957 | the state machine with its in-place probabilities, states and distances computes the functional operation |
| LzmaOperations.OperationInverse | crates/un7z/src/decode/lzma.rs:779-957 | whatever an encoder chooses (literal, short repetition, repetition of any of the four distances, new match or end marker), its decisions decode to that operation, and both models stay equal |
| LzmaChoices.OperationExact | crates/un7z/src/decode/lzma.rs:779-957 | conversely every operation that decodes, from any model and any bytes, is decoded from the decisions of a choice with that meaning |
| LzmaChoices.OperationUnique | crates/un7z/src/decode/lzma.rs:779-957 | and of no other: the decisions of two different choices never replay from the same registers |
| LzmaOperations.OperationKeeps | crates/un7z/src/decode/lzma.rs:779-957 | an operation keeps the properties, puts the distance used first, ends in a literal state exactly for literals, and never leaves the end marker among the distances while decoding goes on |
| LzmaStates.OneMeaning | crates/un7z/src/decode/lzma.rs:586-606 | each of the twelve states means something about the kinds of the last operations, and no history has two |
| LzmaStates.CodeMeans | crates/un7z/src/decode/lzma.rs:586-606 | after every list of choices the state is the one that means its last kinds (literal, new match, long repetition, short repetition) |
| LzmaStates.DecodedMeans | crates/un7z/src/decode/lzma.rs:779-957 | so it is in every decoder that started fresh, whatever bytes it was given |
| LzmaContexts.ChoiceSays | crates/un7z/src/decode/lzma.rs:779-957 | without naming a table: what an encoder writes for a choice is the list of bits the format prescribes, each in a named context and weighed by what that context alone has learned, and afterwards every probability of the model is again what its context has learned |
| LzmaContexts.CodeSays | crates/un7z/src/decode/lzma.rs:959-1020 | the same for every list of choices, with the state that its history means |
| LzmaContexts.EventsDecode | crates/un7z/src/decode/lzma.rs:1022-1061 | so decode_lzma of the arithmetic code of those events is the expansion of the choices |
| LzmaContexts.SlotDigits | crates/un7z/src/decode/lzma.rs:360-416 | a slot is the number of binary digits of the distance and the digit behind the first |
| LzmaLaws.LiteralsLearnTogether | crates/un7z/src/decode/lzma.rs:453-475 | two literals share probabilities if and only if their positions agree in the low lp bits and the bytes before them in the high lc bits |
| LzmaLaws.BitsLearnApart | crates/un7z/src/decode/lzma.rs:476-526 | bits of plain literals and bits beside a clear or a set bit never share a probability |
| LzmaLaws.ComparedWithNext | crates/un7z/src/decode/lzma.rs:800-811 | a literal behind a copy is compared with the byte the copy would have given next |
| LzmaLaws.SeenOfOutput | crates/un7z/src/decode/lzma.rs:786-800 | the byte before is the last one of the whole output, zero at first, and the position is the length of the whole output |
| LzmaLaws.Remembered | crates/un7z/src/decode/lzma.rs:862-900 | a repeated distance comes to the front and the others keep their order |
| LzmaLaws.NewMatchMeans | crates/un7z/src/decode/lzma.rs:834-860 | every copy of 2 to 273 bytes from 1 to 2^32 - 1 back is one new match, and the last distance ends the stream |
| LzmaLaws.CopiesReach | crates/un7z/src/decode/lzma.rs:719-761 | a stream copies from anywhere in its output that its dictionary reaches |
| LzmaTotality.OperationSucceeds | crates/un7z/src/decode/lzma.rs:779-957 | with 48 bytes left an operation succeeds on any bytes: no index, overflow or end-of-stream arm can be reached |
| LzmaRuns.AfterKeeps | crates/un7z/src/decode/lzma.rs:959-1020 | in every state a run over any bytes reaches, the model is well formed, no remembered distance is the end marker, the properties are those at the start and the output has only grown |
| LzmaRuns.RunFails | crates/un7z/src/decode/lzma.rs:959-1020 | a run fails if and only if it reaches a point with fewer than 48 bytes left and an operation cut short, with an output over its limit, with a match before the history or the dictionary, with a match past the declared size, or with an end marker that is not allowed there |
| LzmaRuns.StreamFails | crates/un7z/src/decode/lzma.rs:959-1020 | so a stream fails for its announced size, its first five bytes or one of those points, and for nothing else |
| LzmaRuns.PackedFails | crates/un7z/src/decode/lzma.rs:1172-1206 | a compressed LZMA2 chunk fails for its header, its announced sizes or one of those points, and for nothing else |
| LzmaRuns.StreamBelow | crates/un7z/src/decode/lzma.rs:1132-1222 | every state between two chunks of any LZMA2 stream is one of which that holds |
| LzmaStream.RunInverts | crates/un7z/src/decode/lzma.rs:959-1020 | decoding the code of a choice list gives its LZ77 expansion and continues where the code ends |
| LzmaStream.StreamInverts | crates/un7z/src/decode/lzma.rs:959-1020 | a stream of known size decodes to the expansion of its choices, whatever bytes follow them |
| LzmaStream.EndedStreamInverts | crates/un7z/src/decode/lzma.rs:959-1020 | a stream closed by the end marker decodes to the expansion and is consumed to its last byte |
| LzmaExact.EndBeforeSize | crates/un7z/src/decode/lzma.rs:959-1020 | a stream that closes its choices with the end marker short of the declared size is refused, whatever follows |
| LzmaStream.PropertiesInverse | crates/un7z/src/decode/lzma.rs:764-777 | a property byte is accepted exactly when it encodes a legal triple, and gives that triple |
| LzmaStream.LzmaInverts | crates/un7z/src/decode/lzma.rs:1022-1061 | decode_lzma of an encoded choice list with declared size is its expansion, for every legal property byte, dictionary and trailing bytes |
| LzmaStream.EndedLzmaInverts | crates/un7z/src/decode/lzma.rs:1022-1061 | the same with an end marker and no declared size |
| LzmaExact.StreamExact | crates/un7z/src/decode/lzma.rs:959-1020 | from any model and output, a range-coded stream produces a given number of bytes and a given end state if and only if it carries choices that lead there |
| LzmaExact.SizedExact | crates/un7z/src/decode/lzma.rs:1022-1061 | decode_lzma with a declared size gives an output if and only if the input carries choices that expand to it |
| LzmaExact.SizedUnique | crates/un7z/src/decode/lzma.rs:1022-1061 | for a given size those choices are determined by the input |
| LzmaExact.EndedExact | crates/un7z/src/decode/lzma.rs:1022-1061 | decode_lzma without a size gives an output if and only if the input is choices that expand to it and an end marker after which neither input nor code is left |
| LzmaExact.EndedUnique | crates/un7z/src/decode/lzma.rs:1022-1061 | those choices and the end marker are determined by the input |
| LzmaExact.EndedCanonical | crates/un7z/src/decode/lzma.rs:1022-1061 | such an input is byte for byte the stream the arithmetic coder writes, if and only if no direct bit lost the odd unit of its range |
| LzmaExact.PropertiesExact | crates/un7z/src/decode/lzma.rs:1022-1040 | accepted properties are five bytes of which the first encodes a legal triple |
| LzmaDecoder.Output.CopyMatch | crates/un7z/src/decode/lzma.rs:719-761 | the byte-by-byte copy gives the overlapping LZ77 copy, and is refused exactly for a distance of zero, beyond the dictionary or beyond the history, or an output over its limit |
| LzmaDecoder.Output.ResetDictionary | crates/un7z/src/decode/lzma.rs:641-643 | a dictionary reset moves only the dictionary start; the output stays |
| LzmaDecoder.DecodeStream | crates/un7z/src/decode/lzma.rs:959-1020 | the operation loop over the decoder, the state and the output computes the functional run |
| LzmaDecoder.DecodeLzma | crates/un7z/src/decode/lzma.rs:1041-1061 | the in-place decoder computes the functional one |
| Lz77.CopiedPeriodic | crates/un7z/src/decode/lzma.rs:719-761 | an overlapping copy repeats the last `distance` bytes periodically |
| Lzma2.Lzma2Inverts | crates/un7z/src/decode/lzma.rs:1132-1222 | for every list of chunks an encoder may write (raw or compressed, with every combination of resets), with or without a declared size, decode_lzma2 of the printed chunks is what they produce |
| Lzma2.ChunksInvert | crates/un7z/src/decode/lzma.rs:1149-1219 | the same from any state between two chunks |
| Lzma2Exact.Lzma2Exact | crates/un7z/src/decode/lzma.rs:1132-1222 | decode_lzma2 gives an output if and only if the input is the bytes of a list of legal chunks that produce it |
| Lzma2Exact.ChunksUnique | crates/un7z/src/decode/lzma.rs:1149-1219 | no two lists of legal chunks have the same bytes |
| Lzma2.Dictionary | crates/un7z/src/decode/lzma.rs:1063-1077 | a property is accepted if and only if it is one byte of at most 40; sizes lie between 4 KiB and 4 GiB |
| Lzma2.DictionaryDoubles | crates/un7z/src/decode/lzma.rs:1070-1076 | every second size is twice the one before |
| Lzma2.DictionaryEnds | crates/un7z/src/decode/lzma.rs:1070-1076 | the first two sizes are 4 KiB and 6 KiB and the last is 4 GiB |
| Lzma2.DictionaryGrows | crates/un7z/src/decode/lzma.rs:1070-1076 | no two property bytes share a size, and sizes grow with the byte |
| Lzma2Decoder.DecodeLzma2 | crates/un7z/src/decode/lzma.rs:1132-1222 | the chunk loop over cursor, state and output computes the functional automaton |
| Lzma2Decoder.ChunkReader.ReadChunk | crates/un7z/src/decode/lzma.rs:1149-1219 | one turn of that loop |
| Lzma2Decoder.SliceCursor.ReadBytes | crates/un7z/src/decode/lzma.rs:1109-1125 | the next bytes of the input, or an error exactly when too few are left |
| Lzma2Decoder.WriteUncompressed | fuzz/fuzz_targets/support.rs:645-661 | the writer splits its input into chunks of at most 64 KiB, the first with a dictionary reset |
| Lzma2Decoder.UncompressedInverts | fuzz/fuzz_targets/support.rs:645-661 | decode_lzma2 of lzma2_uncompressed is the identity on every byte string, for any number of chunks |
| Deflate64Tables.DistanceSymbol | crates/un7z/src/decode/deflate64.rs:31-40 | every distance from 1 to 65536 lies in the interval of the code found for it, so none is left out |
| Deflate64Tables.DistanceUnique | crates/un7z/src/decode/deflate64.rs:31-40 | every code with every extra value of its width is a distance from 1 to 65536, and the code found for that distance is that code |
| Deflate64Tables.DistanceRule | crates/un7z/src/decode/deflate64.rs:33-40 | the distance table is the one of powers of two: two codes for each width |
| Deflate64Tables.LengthNext | crates/un7z/src/decode/deflate64.rs:26-32 | length codes are adjacent: each ends where the next begins |
| Deflate64Tables.LengthUnique | crates/un7z/src/decode/deflate64.rs:26-32 | codes 257 to 284 with their extra bits are the lengths 3 to 258, each exactly once |
| Deflate64Tables.LongLength | crates/un7z/src/decode/deflate64.rs:26-32 | code 285 is 3 and 16 bits |
| Deflate64Tables.LengthRule | crates/un7z/src/decode/deflate64.rs:26-32 | the length table is the one of powers of two: four codes for each width |
| Deflate64Bits.BitReader.ReadBits | crates/un7z/src/decode/deflate64.rs:73-104 | for up to 24 bits the reader takes exactly the next bits, the least significant first, fails exactly when too few are left, and keeps at most 7 bits buffered |
| Deflate64Bits.BitReader.AlignToByte | crates/un7z/src/decode/deflate64.rs:106-109 | aligning drops exactly the unread bits of the current byte, never a whole byte |
| Deflate64Huffman.FromLengths | crates/un7z/src/decode/deflate64.rs:123-199 | a length vector is accepted exactly when it is not oversubscribed (and not empty unless that is allowed), and the tables then list its symbols by length |
| Deflate64Kraft.AcceptedMeans | crates/un7z/src/decode/deflate64.rs:123-199 | a length vector is accepted if and only if it has at most 320 entries, none over 15, its codes take at most all strings (Kraft), and there is one unless none is needed |
| Deflate64Huffman.PrefixFree | crates/un7z/src/decode/deflate64.rs:123-199 | no canonical code is a prefix of another symbol's code |
| Deflate64Huffman.DecodeExact | crates/un7z/src/decode/deflate64.rs:201-247 | decoding gives a symbol and a rest if and only if the bits are that symbol's canonical code (RFC 1951, section 3.2.2) followed by the rest |
| Deflate64Huffman.DecodeSymbol | crates/un7z/src/decode/deflate64.rs:201-247 | the counting loop over the tables computes that decoding; its code never falls below the first of its length and its symbol index is always in range |
| Deflate64Trees.FixedTreesOk | crates/un7z/src/decode/deflate64.rs:339-370 | both fixed length tables are accepted, so their errors cannot occur |
| Deflate64Trees.FixedCodes | crates/un7z/src/decode/deflate64.rs:339-370 | the fixed codes are those of RFC 1951, section 3.2.6 |
| Deflate64Trees.OrderRule | crates/un7z/src/decode/deflate64.rs:22-24 | code lengths come in the order of RFC 1951, section 3.2.7: 16, 17, 18, 0, then outwards from 8 |
| Deflate64Trees.DynamicInverts | crates/un7z/src/decode/deflate64.rs:372-485 | any trees, spelled out by any runs under any code-length tree (RFC 1951, section 3.2.7), are read back |
| Deflate64Blocks.TokenExact | crates/un7z/src/decode/deflate64.rs:487-539 | a token decodes only from its own code and extra bits |
| Deflate64Blocks.BlockInverts | crates/un7z/src/decode/deflate64.rs:487-539 | for every accepted pair of trees, every list of literals and in-history matches decodes from its bits to its expansion, overlapping copies included |
| Deflate64Blocks.BlockExact | crates/un7z/src/decode/deflate64.rs:487-539 | conversely the bits of an accepted block are those of a token list, and the output is its expansion |
| Deflate64Stream.Deflate64Inverts | crates/un7z/src/decode/deflate64.rs:564-641 | every sequence of stored, fixed and dynamic blocks, packed into bytes with any padding, decodes to what its blocks produce, with its size declared or not |
| Deflate64Exact.DynamicExact | crates/un7z/src/decode/deflate64.rs:372-485 | accepted dynamic trees are those of the header the bits spell out |
| Deflate64Exact.BodyExact | crates/un7z/src/decode/deflate64.rs:564-641 | an accepted block of any of the three kinds is one an encoder may write there |
| Deflate64Exact.DecodesExactly | crates/un7z/src/decode/deflate64.rs:564-641 | an input decodes to an output if and only if some list of blocks and padding is written as that input and produces that output, and the output is within the limit and the declared size |
| Deflate64Decoder.Output.CopyMatch | crates/un7z/src/decode/deflate64.rs:307-337 | the copy loop gives the overlapping LZ77 copy and is refused exactly for missing history or an output over its limit |
| Deflate64Decoder.BuildFixedTrees | crates/un7z/src/decode/deflate64.rs:339-370 | the array-filling loops build the fixed tables |
| Deflate64Decoder.DecodeDynamicTrees | crates/un7z/src/decode/deflate64.rs:372-485 | the in-place reading of the length tables computes the functional one |
| Deflate64Decoder.DecodeCompressedBlock | crates/un7z/src/decode/deflate64.rs:487-539 | the token loop computes the functional block, with the remaining bits as termination measure |
| Deflate64Decoder.DecodeStoredBlock | crates/un7z/src/decode/deflate64.rs:541-562 | the stored block computes the functional one, errors included |
| Deflate64Decoder.DecodeDeflate64 | crates/un7z/src/decode/deflate64.rs:564-641 | the block loop computes the functional decoder |
| Deflate64Stored.DeflateStored | fuzz/fuzz_targets/support.rs:663-682 | the writer's stored chunks of at most 65,535 bytes, the last marked final |
| Deflate64Stored.StoredInverse | fuzz/fuzz_targets/support.rs:663-682 | decode_deflate64 of deflate_stored is the identity on every byte string, for any number of blocks |
| GraphOrder.TopologicalOrder | crates/un7z/src/graph.rs:66-137 | the queue loop succeeds if and only if the ports are in range and the coder graph has no cycle; the result is a permutation with every bind pair pointing forward, at a cost of exactly n + n times edges work units |
| GraphValidation.ValidateBindPair | crates/un7z/src/graph.rs:36-64 | a pair is accepted exactly when both ports are in range and unused, and then marks them used |
| GraphValidation.ValidateFolderGraph | crates/un7z/src/graph.rs:140-273 | a folder is accepted exactly when its ports are distinct and in range, one output is unbound, the packed inputs are the unbound ones and the graph has no cycle; the result is the pairs, packed inputs, root and a valid order |
| GraphValidation.ParsedGraphs | crates/un7z/src/raw.rs:455-493 | for folders as parsed, with one pair fewer than outputs, acceptance comes down to distinct ports in range and no cycle: the root and partition errors cannot occur |
| GraphValidation.OwnerOfPort | crates/un7z/src/validate.rs:316-368 | port numbering and port ownership agree: port `Sum(counts[..i]) + r` belongs to coder `i` |
| FolderExecution.AssignRanges | crates/un7z/src/validate.rs:316-368 | the port ranges are consecutive in coder order |
| FolderExecution.OutputDestinations | crates/un7z/src/execute.rs:334-356 | each bound output gets the input it feeds, the root none |
| PackedStreams.LoadPack | crates/un7z/src/execute.rs:365-401 | a packed stream is its range of the archive, or an error exactly when it is missing, has no size, leaves the archive or fails its digest |
| PackedLayout.PlaceStreams | crates/un7z/src/validate.rs:485-560 | packed streams are accepted exactly when all sizes are known and they end before the next header inside the archive, and then stand one behind the other |
| PackedLayout.AssignStreams | crates/un7z/src/validate.rs:592-625 | folders take the packed streams in order, exactly when their counts add up |
| PackedLayout.OneOwner | crates/un7z/src/validate.rs:592-625 | so every packed stream belongs to exactly one folder |
| PackedLayout.OnlyIntact | crates/un7z/src/execute.rs:365-401 | no packed stream is handed to a coder unless it is its range of the archive and has its digest |
| PackedLayout.NothingLost | crates/un7z/src/validate.rs:485-625 | and the packed bytes of all folders together are the archive from the first stream to the last |
| PackedStreams.ChecksumData | crates/un7z/src/execute.rs:29-39 | the digest over chunks of 4096 bytes is the bitwise CRC of the whole |
| FolderExecution.LoadPackedInputs | crates/un7z/src/execute.rs:358-413 | succeeds if and only if all packed streams of the folder do, and then each lands in its declared input, each exactly once |
| FolderExecution.DecodeFolder | crates/un7z/src/execute.rs:415-573 | for a validated folder with intact packed streams the port-moving executor returns exactly the recursive evaluation of the coder tree from the root output; the errors for unavailable, doubly populated or unconsumed ports and for several roots cannot occur; several outputs per coder are refused |
| FolderExecution.FailureReachesRoot | crates/un7z/src/execute.rs:464-573 | a failing coder makes the root fail, so running every coder in turn fails exactly when the recursive evaluation does |
| FolderExecution.ScheduleIrrelevant | crates/un7z/src/execute.rs:464-573 | any other valid order gives every coder, the root included, the same bytes or failure |
| FolderDecoding.CheckRegistrations | crates/un7z/src/execute.rs:87-170 | a folder is registered if and only if every coder has one output, the inputs of its method and properties of its kind |
| CoderRoundTrips.RunCoder | crates/un7z/src/execute.rs:206-331 | decode_coder over the real, in-place decoders computes the dispatch of the executor |
| CoderRoundTrips.DecodeFilter | crates/un7z/src/decode/filters.rs:363-385 | so does decode_filter over a copy of its input |
| CoderRoundTrips.LzmaRoundTrips | crates/un7z/src/execute.rs:233-236 | an LZMA coder returns what the choices of its input expand to, with and without a declared size |
| CoderRoundTrips.Lzma2RoundTrip | crates/un7z/src/execute.rs:237-240 | an LZMA2 coder what its chunks produce |
| CoderRoundTrips.Deflate64RoundTrip | crates/un7z/src/execute.rs:284-287 | a Deflate64 coder what its blocks produce |
| CoderRoundTrips.Bcj2RoundTrip | crates/un7z/src/execute.rs:277-279 | a BCJ2 coder the program its four streams come from |
| CoderRoundTrips.WordRoundTrips | crates/un7z/src/execute.rs:253-276 | a PowerPC or SPARC coder from a multiple of 4 the code that its own rewriting was applied to |
| CoderRoundTrips.ArmRoundTrip | crates/un7z/src/execute.rs:253-276 | an ARM coder from anywhere, two instructions ahead |
| CoderRoundTrips.Arm64RoundTrip | crates/un7z/src/execute.rs:253-276 | an ARM64 coder from anywhere |
| CoderRoundTrips.ThumbRoundTrip | crates/un7z/src/execute.rs:253-276 | a Thumb coder from an even start |
| CoderRoundTrips.ShortProgram | crates/un7z/src/decode/phase5_filters.rs:137-145 | a Thumb program under four bytes stays as it is, whatever the properties |
| CoderRoundTrips.Ia64RoundTrip | crates/un7z/src/execute.rs:253-276 | an IA-64 coder from a multiple of 16 |
| CoderRoundTrips.DeltaRoundTrip | crates/un7z/src/execute.rs:253-276 | a Delta coder the bytes whose differences at its distance it is given |
| CoderRoundTrips.CopyRoundTrip | crates/un7z/src/execute.rs:221-232 | a Copy coder its input |
| CoderRoundTrips.EveryOutput | crates/un7z/src/execute.rs:87-331 | every byte string the limit allows is the output of any registered coder of this model, from as many inputs as its registration says |
| CoderRoundTrips.OnlyRegistered | crates/un7z/src/execute.rs:87-331 | and a coder that decodes anything is registered, but for properties that Deflate64 always and Thumb on programs under 4 bytes ignore |
| CoderRoundTrips.PpmdProperties | crates/un7z/src/coder_properties.rs:27-67 | PPMd properties are accepted exactly for an order from 2 to 64, at least 2 KiB of memory and nothing or two zero bytes behind them |
| CoderRoundTrips.SizesNeeded | crates/un7z/src/execute.rs:172-217 | PPMd, the framed formats and AES are refused without a declared size |
| FolderDecoding.DecodeFolder | crates/un7z/src/execute.rs:415-583 | with the decoders of this model in place, from the dictionary limit through registration, packed streams and coders to the digest verdict, the executor under a cap returns the evaluation with the root coder held to the cap; its early refusal of a declared root size never differs from that (which decoder a method runs: the CoderRoundTrips rows) |
| FolderDecoding.CoderObeys | crates/un7z/src/execute.rs:206-331 | every coder turns down outputs over its limit and changes nothing else |
| FolderDecoding.FolderObeys | crates/un7z/src/execute.rs:415-573 | so does the executor: under a smaller cap a folder gives the same bytes if they fit, an error otherwise |
| FolderDecoding.ExecutorIsMonotone | crates/un7z/src/execute.rs:415-583 | hence the folder decoder built from the executor satisfies the hypothesis of the extraction results |
| FolderDecoding.ExecutorIsPrecise | crates/un7z/src/execute.rs:415-583 | its outputs are let through by every cap they fit and have the declared root size |
| FolderCarries.Delivers | crates/un7z/src/execute.rs:464-573 | if every coder has inputs from which it computes what is wanted of it, the whole graph has packed streams from which the root does, whatever its shape |
| FolderCarries.EveryGraphCarries | crates/un7z/src/execute.rs:87-573 | any graph that validation accepts, made of any coders of this model, carries any bytes: with the right sizes where sizes are declared, some packed streams make the executor return exactly them, once the total limit leaves room for the streams in between |
| FolderDecoding.VerifyThenExtract | crates/un7z/src/archive.rs:703-996 | an archive whose folders this executor decodes, once verified, extracts completely into any willing sink |
| OutputCaps.LzmaObeys | crates/un7z/src/decode/lzma.rs:1041-1061 | LZMA under a smaller limit: the same output if it fits, an error otherwise |
| OutputCaps.Lzma2Obeys | crates/un7z/src/decode/lzma.rs:1132-1222 | the same for LZMA2 |
| OutputCaps.Deflate64Obeys | crates/un7z/src/decode/deflate64.rs:564-641 | the same for Deflate64 |
| OutputCaps.Bcj2Obeys | crates/un7z/src/decode/filters.rs:510-586 | the same for BCJ2 |
| Substreams.CountValues | crates/un7z/src/raw.rs:612-650 | the counting loops accept exactly totals within the substream limit and return the numbers of explicit sizes and digests |
| Substreams.BuildSubstreams | crates/un7z/src/validate.rs:402-483 | one folder consumes exactly the explicit sizes and digests it needs, and fails exactly when its explicit sizes do not fit its root size |
| Substreams.BuildAll | crates/un7z/src/validate.rs:628-701 | for counted input the "too short" and "unused values" errors cannot occur; the result is, folder by folder, its sizes and digests |
| SubstreamsInfo.ParseSizes | crates/un7z/src/raw.rs:313-324 | the loop reads exactly the next numbers |
| SubstreamsInfo.ParseBits | crates/un7z/src/raw.rs:254-275 | the mask loop reads flag k from bit 7 - k % 8 of byte k / 8 and uses up whole bytes |
| SubstreamsInfo.ParseDigests | crates/un7z/src/raw.rs:278-311 | mark, optional bit vector and defined digests as the functional reader takes them |
| SubstreamsInfo.BitsInverse | crates/un7z/src/raw.rs:254-275 | flags packed eight to a byte, most significant first, read back whatever follows |
| SubstreamsInfo.DigestsInverse | crates/un7z/src/raw.rs:278-311 | so do digests, with a bit vector or with the mark for all defined |
| SubstreamsInfo.ParseSubstreamsInfo | crates/un7z/src/raw.rs:587-668 | the parser computes the functional reader, whose lists always have the lengths that the counts announce |
| SubstreamsInfo.InfoInverse | crates/un7z/src/raw.rs:587-668 | every section with lists of those lengths reads back as it was written, in every style, and the parser stops right behind it |
| SubstreamsInfo.TwoMembers | crates/un7z/src/raw.rs:587-668 | the section of one folder with two members is the bytes 0d 02 09, the first size, 0a 01, both digests and 00 |
| SubstreamsInfo.EmptySection | crates/un7z/src/raw.rs:587-668 | an empty section stands for one member in every folder, within the substream limit |
| SubstreamsRoundTrip.ReadFolders | crates/un7z/src/validate.rs:628-701 | parser and validator together fail exactly when the bytes do not parse or explicit sizes do not fit; no list is ever too short or left over |
| SubstreamsRoundTrip.SectionInverse | crates/un7z/src/validate.rs:402-483 | the section of any expressible folders is parsed and cut up into exactly those folders |
| Substreams.SizesPartition | crates/un7z/src/validate.rs:402-483 | known sizes of a non-empty folder of known size add up to the root size |
| MemberMapping.CollectMappings | crates/un7z/src/validate.rs:715-749 | the mappings are all substreams in folder order, as many as there are |
| MemberMapping.MapFiles | crates/un7z/src/validate.rs:1008-1107 | files with a stream take the mappings in order, files without one take the next empty and anti flags; accepted exactly when the counts agree |
| MemberMapping.MapMembers | crates/un7z/src/validate.rs:1008-1107 | the k-th streamed file maps to the k-th substream of the archive |
| Extraction.MemberBounds | crates/un7z/src/archive.rs:1534-1585 | the range of a member is the sum of the known sizes before it, an unknown last size reaching to the end; errors exactly for ranges outside the folder or an unknown size before the last |
| Extraction.FolderDecodeMaximum | crates/un7z/src/archive.rs:1393-1448 | the loop computes the cap of a folder, with every refusal under its exact condition (that it is large enough: the ExtractionExact rows) |
| Extraction.OpenMember | crates/un7z/src/archive.rs:525-615 | a reader is returned exactly when the member has contents and its folder decodes to an output that holds its range within the limits, and covers exactly that range with the digest and the folder verdict to check at its end |
| Extraction.MemberReader.ReadChunk | crates/un7z/src/archive.rs:1693-1734 | a chunk is the next bytes of the member, at most the limit; none exactly at its end |
| Extraction.MemberReader.Finish | crates/un7z/src/archive.rs:1736-1771 | finishing succeeds exactly when the digest of all the member's bytes and that of the folder are right |
| Extraction.ExtractEntry | crates/un7z/src/archive.rs:625-651 | exactly the member's bytes, exactly when everything about it is right |
| NaturalExtraction.Deliver | crates/un7z/src/archive.rs:786-996 | a delivered member is one begin, its bytes in writes, and a finish that follows a passing digest; with a wrong digest a willing sink has seen all but the finish, and any failure leaves a prefix without finish |
| NaturalExtraction.WritesAt | crates/un7z/src/archive.rs:786-996 | a member is written in stretches of 4096 bytes, the last perhaps shorter |
| NaturalExtraction.ExtractEntries | crates/un7z/src/archive.rs:786-996 | whatever happens, the sink has seen the groups of the first k members in archive order plus an unfinished part of the next; on success it has seen all of them, each with exactly the bytes of extracting that member alone; no folder is decoded twice |
| NaturalExtraction.ExtractAll | crates/un7z/src/archive.rs:786-996 | extraction into a willing sink succeeds exactly when every folder that has members decodes under its cap, in order and within the total limit, and those members lie in range and have their digests |
| NaturalExtraction.VerifyMembers | crates/un7z/src/archive.rs:1450-1532 | the members of a folder pass exactly when their ranges and digests and the folder digest are right; the mapping errors cannot occur |
| NaturalExtraction.Verify | crates/un7z/src/archive.rs:703-768 | verification succeeds exactly when every folder decodes under its cap, within the total, and every member lies in range and has its digest |
| NaturalExtraction.VerifyThenExtract | crates/un7z/src/archive.rs:703-996 | after a successful verification, extraction into a sink that never fails succeeds completely, an unknown last size included |
| ExtractionExact.CapSuffices | crates/un7z/src/archive.rs:1393-1448 | the cap lets through every output that the declared sizes cut up exactly, an unknown last size included, whatever allowance of at least its length is left |
| ExtractionExact.VerifiedExactly | crates/un7z/src/archive.rs:703-768 | without naming caps or allowances: verification asks for exactly an archive whose folders decode to outputs of their root sizes with right digests, cut up by known member sizes that add up or leave the rest to the last, no member over the entry limit and all within the total limit, and for sums that fit 64 bits |
| ExtractionExact.NeededExactly | crates/un7z/src/archive.rs:786-996 | without naming caps: exactly when those folders are intact and their outputs together stay within the total limit |
| ExtractionExact.MemberReads | crates/un7z/src/archive.rs:525-651 | every streamed member of such an archive reads as its own piece of its folder's output |
| ExtractionExact.OnlyMatching | crates/un7z/src/archive.rs:525-651 | no member reads unless its bytes have its digest and are a stretch of its folder, decoded with the right digest |
| ExtractionExact.Unstreamed | crates/un7z/src/archive.rs:525-545 | without a stream a member opens exactly if it is an empty file and no anti-item |
| ExtractionExact.VerifyAndExtract | crates/un7z/src/archive.rs:703-996 | such an archive verifies, and any willing sink then receives every member in order, each with its own bytes |
| ExtractionExact.SumOverflows | crates/un7z/src/archive.rs:1437-1439 | the sum in 64 bits turns down an intact archive: two members, the last of unknown size, and the largest entry limit |
| BranchFilters.ArmScanInverse | crates/un7z/src/decode/filters.rs:261-324 | the ARM and ARM64 scans are undone by the same scan with addition from any start offset, on every buffer |
| BranchFilters.PpcScanInverse | crates/un7z/src/decode/filters.rs:229-259 | the PPC scan is undone on every buffer exactly from start offsets that are multiples of 4; a single branch shows it for the others |
| BranchFilters.SparcScanInverse | crates/un7z/src/decode/filters.rs:326-359 | the same for SPARC |
| BranchFilters.DecodePpc | crates/un7z/src/decode/filters.rs:229-259 | the in-place loop computes the scan from the property offset; only a wrong property length is an error |
| BranchFilters.DecodeArm | crates/un7z/src/decode/filters.rs:261-287 | the same for ARM, whose positions run 8 bytes ahead |
| BranchFilters.DecodeArm64 | crates/un7z/src/decode/filters.rs:289-324 | the same for ARM64 branches and ADRP pages |
| BranchFilters.DecodeSparc | crates/un7z/src/decode/filters.rs:326-359 | the same for SPARC |
| BranchTargets.ArmWords | crates/un7z/src/decode/filters.rs:261-287 | the words ARM rewrites are the encodings of BL |
| BranchTargets.ArmAbsolute | crates/un7z/src/decode/filters.rs:261-287 | the rewriting that decoding undoes turns the displacement of an ARM branch into the address it goes to |
| BranchTargets.PpcWords | crates/un7z/src/decode/filters.rs:229-259 | the words PowerPC rewrites are the encodings of BL |
| BranchTargets.PpcAbsolute | crates/un7z/src/decode/filters.rs:229-259 | the rewriting that decoding undoes turns the displacement of a PowerPC branch into the address it goes to |
| BranchTargets.SparcWords | crates/un7z/src/decode/filters.rs:326-359 | the words SPARC rewrites are the calls whose displacement fits 23 bits with its sign |
| BranchTargets.SparcAbsolute | crates/un7z/src/decode/filters.rs:326-359 | and that of a SPARC call |
| BranchTargets.CallWords | crates/un7z/src/decode/filters.rs:289-324 | the words ARM64 rewrites are the encodings of BL |
| BranchTargets.PageWords | crates/un7z/src/decode/filters.rs:289-324 | and of ADRP with a displacement that fits 18 bits with its sign |
| BranchTargets.Arm64Absolute | crates/un7z/src/decode/filters.rs:289-324 | and that of an ARM64 BL |
| BranchTargets.Arm64AbsolutePage | crates/un7z/src/decode/filters.rs:289-324 | an ADRP then holds the page it computes, its register unchanged |
| BranchTargets.ScanAt | crates/un7z/src/decode/filters.rs:229-359 | word k of a scanned buffer is word k of the buffer rewritten for its own address |
| ThumbFilter.ThumbInverse | crates/un7z/src/decode/phase5_filters.rs:137-217 | the ARM Thumb scan is undone on every buffer exactly from even start offsets |
| ThumbFilter.DecodeThumb | crates/un7z/src/decode/phase5_filters.rs:137-217 | the in-place loop computes the scan; buffers under 4 bytes stay as they are |
| BranchTargets.ThumbPairs | crates/un7z/src/decode/phase5_filters.rs:137-217 | the pairs Thumb rewrites are two halfwords with 11 bits of a displacement each |
| BranchTargets.ThumbAbsolute | crates/un7z/src/decode/phase5_filters.rs:137-217 | the rewriting turns the displacement of a Thumb branch into the address it goes to |
| Ia64Filter.ScanInverse | crates/un7z/src/decode/phase5_filters.rs:219-288 | on any one buffer the opposite scan restores the input if and only if the start is a multiple of 16 or no bundle holds an instruction to rewrite |
| Ia64Filter.Ia64Inverse | crates/un7z/src/decode/phase5_filters.rs:219-288 | so the filter is undone on every buffer exactly from multiples of 16 |
| Ia64Filter.WindowStep | crates/un7z/src/decode/phase5_filters.rs:245-283 | writing back into the window of six bytes changes exactly the 41 bits of one instruction of its 128-bit bundle |
| Ia64Filter.DecodeIa64 | crates/un7z/src/decode/phase5_filters.rs:219-288 | the in-place loops over bundles and slots compute the scan |
| BranchTargets.Ia64Branch | crates/un7z/src/decode/phase5_filters.rs:245-283 | a branch is opcode 5 in bits 37 to 40 with type 0 in bits 9 to 11, its target in bits 13 to 32 and 36 |
| BranchTargets.BranchSlots | crates/un7z/src/decode/phase5_filters.rs:219-245 | the filter looks at exactly the slots of branch units in the 32 templates |
| BranchTargets.Ia64Absolute | crates/un7z/src/decode/phase5_filters.rs:245-283 | the rewriting turns the displacement of an IA-64 branch into the address it goes to |
| DeltaFilter.SummedAt | crates/un7z/src/decode/filters.rs:65-97 | each output byte is its input plus the output `d` places back, modulo 256, zero before the start |
| DeltaFilter.DeltaInverse | crates/un7z/src/decode/filters.rs:65-97 | that sum and byte differencing at distance `d` undo each other |
| DeltaFilter.DecodeDelta | crates/un7z/src/decode/filters.rs:65-97 | the decrementing ring of 256 bytes computes that sum for every distance from 1 to 256 |
| Bcj2Filter.Bcj2Inverts | crates/un7z/src/decode/filters.rs:510-586 | whatever branches an encoder converts, its main, call and jump streams and the arithmetic code of its flags merge into the program |
| Bcj2Filter.UnconvertedExpands | crates/un7z/src/decode/filters.rs:510-586 | every byte string is such a program |
| Bcj2Laws.BranchBytes | crates/un7z/src/decode/filters.rs:480-482 | the branches of BCJ2 are CALL, JMP and the two-byte conditional jumps |
| Bcj2Laws.FlagsLearnTogether | crates/un7z/src/decode/filters.rs:484-490 | two flags share a probability if and only if both are of calls behind the same byte, of jumps, or of conditional jumps |
| Bcj2Laws.StreamsAre | crates/un7z/src/decode/filters.rs:510-586 | the streams of a program are its bytes, the absolute targets of its converted calls, those of its other converted branches, and a flag for every branch weighed by what its own context has learned |
| Bcj2Filter.Bcj2Range.Decode | crates/un7z/src/decode/filters.rs:444-477 | the flag decoder takes the same arithmetic-coding step as LZMA and adapts the selected probability |
| Bcj2Filter.Bcj2Range.New | crates/un7z/src/decode/filters.rs:430-442 | the five initial bytes give the code; the first is shifted out unchecked |
| Bcj2Filter.DecodeStreams | crates/un7z/src/decode/filters.rs:510-586 | the merging loop over four cursors computes the functional merge; its 32-bit position is the output length modulo 2^32 |
| Checksum.StepsAgree | crates/un7z/src/checksum.rs:43-55 | for every state and byte the table-driven step and the eight bitwise steps give the same state |
| Checksum.UpdatesAgree | fuzz/fuzz_targets/support.rs:242-255 | so do both updates over every byte string |
| Checksum.UpdateAppend | crates/un7z/src/checksum.rs:43-55 | updating chunk by chunk is updating with the concatenation |
| Checksum.MakeTable | crates/un7z/src/checksum.rs:9-31 | the nested loops fill the table with the eight-step images of all bytes |
| Checksum.PolynomialValue | crates/un7z/src/checksum.rs:5 | the polynomial of the model is 0xedb88320 |
| Checksum.ChecksumOf | crates/un7z/src/checksum.rs:34-71 | fed any list of chunks, the checksum is the bitwise CRC of their concatenation |
| ChecksumVector.CheckNumber | crates/un7z/src/checksum.rs:34-71 | the checksum of the digits 1 to 9 is 0xcbf43926 |
| HeaderNumbers.UintInverse | crates/un7z/src/bounded.rs:58-77 | read_7z_uint after push_uint gives every 64-bit number back and stops right after its encoding |
| HeaderNumbers.ShortestUint | fuzz/fuzz_targets/support.rs:276-297 | no encoding that read_7z_uint accepts for a number is shorter than the one push_uint writes |
| HeaderNumbers.UintFits | crates/un7z/src/bounded.rs:58-77 | every accepted encoding is of a number below 2^64 |
| HeaderNumbers.BoundedReader.ReadUint | crates/un7z/src/bounded.rs:58-77 | the mask loop over the reader computes that decoding and moves the position exactly past it |
| HeaderNumbers.BoundedReader.ReadU32Le | crates/un7z/src/bounded.rs:42-48 | the next four bytes as a little-endian number, or an error exactly when fewer are left, which moves nothing |
| HeaderNumbers.BoundedReader.ReadBytes | crates/un7z/src/bounded.rs:15-33 | the next bytes, or an error exactly when too few are left, which moves nothing |
| HeaderNumbers.PushUint | fuzz/fuzz_targets/support.rs:276-297 | the loop over widths writes that encoding |

## Left out

- The PPMd probability model (contexts, escape estimation, rescaling) and its range decoder: only the allocator and the text pointer it moves are modelled, with one method for a store into a held block and two for the text pointer.
- PpmdAllocator.SubAllocator.AllocateContext: like every operation that may glue, it assumes that no held block begins with the bytes 0xff 0xff; whether the probability model ever stores them there is not modelled.
- The x86 BCJ, RISC-V, Swap2 and Swap4 filters, AES and SHA-256.
- The adapters around external crates (Deflate, BZip2, Brotli, LZ4, Zstandard), whose decoders are not in the repository; in FolderDecoding they, PPMd and the filters above are one function that is assumed to obey its output limit.
- Cancellation, work budgets and allocation failure, except for the work units of the topological order.
- Method identifiers: methods are named, not read from their identifier bytes.
- Error kinds and messages: a result is `Ok` with a value or `Err`, and postconditions say exactly when, not with which message.
- Header parsing other than integers, graph counts and the substream section: names, times, attributes, archive properties, and the signature scan; SubstreamsInfo.ParseSubstreamsInfo takes the substream limit of one section, without those counted before it.
- File and volume access, path checks and passwords.
- Positions and sizes are unbounded where the source uses 64-bit numbers that input sizes keep far below the limit; 32-bit and 16-bit arithmetic is exact.
- Checksum: words are lists of 32 bits and shifts and exclusive-or act on lists, because the equality of the two forms is an argument about bits.
- BranchFilters, ThumbFilter and Ia64Filter: masks of contiguous bits are written as quotients and remainders, and or-ing disjoint bits as addition.
- Rust structs held by value (probability trees, Huffman tables, probability arrays) are sequences in fields that methods reassign; aliasing of such parts does not arise in the source.
- NaturalExtraction.ExtractEntries: the sink is a log with a function that says which calls it refuses; a real sink's own effects are not modelled.
- Extraction.OpenMember: the decoder of folders is a function of the folder and its cap, so repeated decoding gives the same bytes by assumption.

# Verified models of the repository's algorithms

This project models the algorithms of the repository that are hardest to get right and proves what they are for. Each
part pairs the program as it runs (methods with loops, mutable buffers and linked nodes) with a specification it is
proved against, and then proves the promise of the program about that specification.

- **Vorbis codebooks, packets and floor 1** (`Powers`, `BitReversal`, `HuffmanCodes`, `PacketBits`, `HuffmanDecode`,
  `HuffmanTables`, `Floor1`; source `caterer/whisper.cpp/examples/stb_vorbis.c`). Codeword assignment with a table of free
  leaves, the byte reader over laced segments, the bit accumulator, three decoders that agree, the amplitude unwrapping
  and the rendered curve.
- **JSON Pointer, Patch and Merge Patch** (`JsonTree`, `JsonCompare`, `MemberSort`, `JsonPointer`, `PatchKeys`, `JsonPatch`,
  `PatchRoundTrip`, `PatchFailure`, `PatchSuccess`, `PatchProgram`, `MergeTree`, `MergePatch`, `MergeGenerate`, `MergeOrders`,
  `MergeProgram`; source `caterer/cjson/cJSON_Utils.c`). Generators and appliers that undo each other, for trees of any size,
  exactly under stated conditions, and what every patch does to a document, whether it succeeds or fails.
- **JSON nodes** (`SiblingList`, `SiblingSort`, `SiblingCopy`, `NodePointer`; sources `caterer/cjson/cJSON.c` and `cJSON_Utils.c`). Doubly
  linked lists in the heap whose first `prev` caches the tail, the in-place merge sort, deep copies, and pointers to nodes.
- **JSON text** (`JsonText`, `JsonTextRoundTrip`, `Utf8Definition`, `JsonNotation`, `JsonReading`, `JsonMark`, `JsonParser`,
  `JsonPrinter`; source `caterer/cjson/cJSON.c`). Printing into a growing buffer, parsing, the round trip between them, and
  reading every other way of writing a value.
- **Grammar compiler** (`EbnfSyntax`, `EbnfNotation`, `EbnfReading`, `EbnfWriting`, `EbnfPlain`, `EbnfCode`, `EbnfState`,
  `EbnfLanguage`, `EbnfCompile`, `EbnfPrint`; source `caterer/whisper.cpp/examples/grammar-parser.cpp`). A one-pass compiler
  from a notation with groups and repetitions to flat rules: exactly which texts are read for which rules, with a meaning
  for both sides and their equality. The meaning of flat rules is the one the matcher in
  `caterer/whisper.cpp/src/whisper.cpp` gives them (lines 5539 to 5561 and 5615 to 5666); derivations are counted by depth, so
  a word is derived when it is derived at some depth.
- **Pyash sentences** (`PyashIr`, `PyashRead`, `PyashRoundTrip`, `PyashNotation`, `PyashReading`, `PyashEmitter`,
  `PyashParser`; sources `program/runtime/c_ir.c` and `program/runtime/c_ir_parse.c`). Emitter, tokenizer and parser with
  nested sentences, and sentences as people write them.
- **String similarity and the audio ring** (`EditDistance`, `AudioRing`; sources `caterer/whisper.cpp/examples/common.cpp`
  and `common-sdl.cpp`).

`Decimals`, `HexDigits`, `CStrings` and `Options` are shared.

## Where the code does less than its documentation or its peer promises

Each of these is proved, with the exact condition under which the promise holds.

- A Vorbis codeword longer than 25 bits may not fit the accumulator after a refill, and the decoder then gives up
  (`HuffmanTables.LongestReach`: l is reachable after every refill exactly when l is at most 25; `HuffmanDecode.Decode` and
  `HuffmanDecode.DecodeRun` state the condition for each read and for each run, in both directions).
- In a book that is not sparse, a codeword of at most 10 bits whose entry number is 32767 or more is in neither table
  (`HuffmanTables.LateShortCodewordIsLost`; `HuffmanDecode.Decode` has the exact condition).
- When a packet fills its page and the next page is not marked as a continuation, the end of the packet is reported once,
  and a further read delivers bytes of that page (`PacketBits.PacketReader.Get8PacketRaw`,
  `PacketBits.BitReader.PrepHuffman`). Decoding is not misled, because those bits join the stream behind the packet
  (`HuffmanDecode.DecodeRun`).
- The in-place unescaping used by patch application moves only escape sequences, so most keys with `/`, and keys with
  other characters behind a `~`, do not come back (`PatchKeys.DecodesBack`, `PatchProgram.AddingOneMember`: both directions).
- Detaching by path ignores the case flag, so another member may be removed (`PatchProgram.RemovingOneMember`: both
  directions).
- A patch that fails leaves the document alone if and only if it is neither a replacement without a value that finds its
  target nor a move that finds its source and no place; such a patch has taken the value out by then
  (`PatchFailure.FailingPatch`: both directions; `PatchFailure.HalfReplaced`: the smallest case; `PatchSuccess.MoveInside`: a
  member that is moved into itself is lost). A list that fails leaves the document as the patches before the failure,
  and that half of the failing one, have made it (`PatchFailure.FailingList`).
- A merge patch cannot write null members, and one that is generated leads back exactly when it does not need to
  (`MergeTree.DiffExact`, `MergeGenerate.GenerateThenMerge`: both directions).
- Case-insensitive merge patch generation walks lists sorted by folded keys with a byte comparison
  (`MergeOrders.OrdersMustAgree` for two members of any values, `MergeOrders.OrdersDecide` for any set of keys: both
  directions).
- An array index in a pointer may go on with characters above `9` after its first, and an empty token is index 0
  (`JsonPointer.IndexExactly`: what each token stands for, in both directions).
- A `\u` escape with a character that is no digit reads as U+0000 (`JsonReading.BadDigitsRead`).
- An empty last alternate of a grammar rule takes the line break for a blank, and with it the next rule for a part of its
  own, so only the last rule can end with one (`EbnfPlain.WritableExactly`: both directions).
- Sorting does not restore the cached tail, so an append right after it may drop the new node or cut the list
  (`SiblingSort.SortObject`, `SiblingSort.SortThenAdd`: both directions).
- Printing into a caller's buffer needs exactly two bytes more than the text; the comment in `caterer/cjson/cJSON.h` asks for five
  bytes more than needed (`JsonPrinter.PrintPreallocated`).
- A Pyash sentence with a following sentence (`then`) is never read back, as long as the parts of every sentence in the chain
  are canonical (`PyashRoundTrip.ChainRefused`); with a nameless part at its end it is read as another one
  (`PyashRoundTrip.NamelessNextIsRead`). Vectors come back only when empty, maps never, and `exists` only in mood ya
  (`PyashRoundTrip.ValueExact`, `PyashRoundTrip.RoundTrip`).

## Model

| member | source | states |
|---|---|---|
| BitReversal.NetworkReverses | caterer/whisper.cpp/examples/stb_vorbis.c:1010-1018 | The five swap stages reverse the order of all 32 bits, for every word, against a bit-by-bit reference |
| HuffmanCodes.FirstFitUnique | caterer/whisper.cpp/examples/stb_vorbis.c:1110-1112 | "Each used symbol in turn gets the lowest word that collides with no earlier code" determines every code, so the first-fit specification used below has one solution |
| HuffmanCodes.DeepLeavesAreSmall | caterer/whisper.cpp/examples/stb_vorbis.c:1112-1115 | The free leaves deeper than level d together hold less than one word of length d: one leaf a level never adds up to a shallower one |
| HuffmanCodes.NoCover | caterer/whisper.cpp/examples/stb_vorbis.c:1110-1116 | Whatever aligned word of length d one takes, the free leaves deeper than d leave a gap in it; this is why a deeper leaf is never missed when the search only goes upwards |
| HuffmanCodes.SplitCovers | caterer/whisper.cpp/examples/stb_vorbis.c:1121-1127 | Handing out the front of a free leaf and putting back one leaf a level frees exactly the rest of that leaf and nothing else |
| HuffmanCodes.NextAllocation | caterer/whisper.cpp/examples/stb_vorbis.c:1110-1127 | One step of the loop keeps the whole table invariant: free leaves strictly decrease with depth without overlap, free leaves and assigned codes tile the code space without overlap, and all codes so far are first-fit. This is the property the source comment calls not "totally trivial to prove" |
| HuffmanCodes.NoLeafNoCode | caterer/whisper.cpp/examples/stb_vorbis.c:1116-1117 | When no free leaf is found, the lengths already break the Kraft inequality, so the failure is never premature |
| HuffmanCodes.Codebook.AddEntry | caterer/whisper.cpp/examples/stb_vorbis.c:1075-1084 | A dense book writes the code at the symbol; a sparse one writes code, length and symbol at the running count; all other entries stay |
| HuffmanCodes.OpenRoot | caterer/whisper.cpp/examples/stb_vorbis.c:1099-1100 | The special first step leaves exactly the table that splitting an all-free root would leave |
| HuffmanCodes.FindLeaf | caterer/whisper.cpp/examples/stb_vorbis.c:1116 | The deepest free leaf not below the wanted length, or none |
| HuffmanCodes.Propagate | caterer/whisper.cpp/examples/stb_vorbis.c:1122-1127 | The loop that puts leaves back computes the split of the leaf |
| HuffmanCodes.Codebook.ComputeCodewords | caterer/whisper.cpp/examples/stb_vorbis.c:1086-1130 | Succeeds if and only if the used lengths satisfy the Kraft inequality; on success every used symbol has its unique lowest free codeword, stored bit-reversed in the layout of the book |
| PacketBits.PacketReader.constructor | caterer/whisper.cpp/examples/stb_vorbis.c:1503-1516 | A packet started at any segment of any page will deliver the payloads from there on, across pages, up to and including the first lacing value below 255 |
| PacketBits.PacketReader.OpenSegment | caterer/whisper.cpp/examples/stb_vorbis.c:1548-1557 | Entering a segment loses no byte; an empty one ends the packet |
| PacketBits.PacketReader.NextSegment | caterer/whisper.cpp/examples/stb_vorbis.c:1539-1558 | 0 is returned only at the end of the packet. If the next page does not claim to continue a packet that filled its page, 0 is returned once, but the reader is left inside that page: its segments are what is read next |
| PacketBits.PacketReader.Get8PacketRaw | caterer/whisper.cpp/examples/stb_vorbis.c:1563-1573 | Takes exactly the next byte of the packet, or reports its end exactly when nothing remains; what a further read finds is the page that ought to have continued the packet, and otherwise nothing |
| PacketBits.PacketReader.NothingBeyond | caterer/whisper.cpp/examples/stb_vorbis.c:1539-1573 | When pages are marked as continuations wherever a packet fills one, nothing lies beyond the end of a packet: its end is lasting |
| PacketBits.RefillOne | caterer/whisper.cpp/examples/stb_vorbis.c:1643-1644 | Moving a byte above the held bits keeps the value of held bits plus rest, and the held value below 2^bits |
| PacketBits.TakeBits | caterer/whisper.cpp/examples/stb_vorbis.c:1624-1626 | The low bits of the accumulator are the low bits of the whole stream, and shifting them out shifts the stream |
| PacketBits.BitReader.constructor | caterer/whisper.cpp/examples/stb_vorbis.c:1503-1516 | At the start the stream is all bits of the packet, least significant first, however its pages are marked |
| PacketBits.BitReader.RefillByte | caterer/whisper.cpp/examples/stb_vorbis.c:1611-1619 | Refilling keeps the stream; it fails exactly when fewer than eight further bits exist, and then everything left is held and what lies beyond the packet (a page that ought to have continued it, or nothing) comes next |
| PacketBits.BitReader.TakeHeld | caterer/whisper.cpp/examples/stb_vorbis.c:1623-1627 | Returns the next n bits of the stream and removes exactly those |
| PacketBits.BitReader.GetBits | caterer/whisper.cpp/examples/stb_vorbis.c:1599-1628 | With enough bits left, returns the next n bits (0 to 32, through the split above 24) and removes exactly those; otherwise the reader becomes invalid and delivers 0, except that a split read keeps its first 24 bits, and the bytes that lie beyond the packet are next |
| PacketBits.BitReader.AccumulatorBound | caterer/whisper.cpp/examples/stb_vorbis.c:1599-1647 | The accumulator stays below 2^valid_bits (with no bits held it is cleared before it is used) |
| PacketBits.BitReader.PrepHuffman | caterer/whisper.cpp/examples/stb_vorbis.c:1634-1647 | Holds as many whole bytes as fit without passing the packet end and keeps the stream. When that takes the last byte and leaves room, the accumulator is the whole rest of the packet, and the bits of a page that ought to have continued it join the stream behind it |
| HuffmanDecode.PrefixFree | caterer/whisper.cpp/examples/stb_vorbis.c:1116-1120 | No word begins with the codewords of two symbols |
| HuffmanDecode.BinarySearch | caterer/whisper.cpp/examples/stb_vorbis.c:1675-1686 | Ends at the last sorted code not above the word, or at the first of all |
| HuffmanDecode.SearchFinds | caterer/whisper.cpp/examples/stb_vorbis.c:1675-1689 | That place holds the one sorting symbol whose codeword the bit-reversed word begins with |
| HuffmanDecode.LinearSearch | caterer/whisper.cpp/examples/stb_vorbis.c:1701-1712 | Finds a symbol whose codeword the word begins with, and fails only when there is none |
| HuffmanDecode.OneTableEach | caterer/whisper.cpp/examples/stb_vorbis.c:1141-1168 | In a book that is not sparse a used symbol is for the sorted tables exactly when its codeword is too long for an index of the direct table |
| HuffmanDecode.Search | caterer/whisper.cpp/examples/stb_vorbis.c:1667-1712 | Binary and linear search agree: either finds the symbol the word begins with exactly when its tables list it |
| HuffmanDecode.DecodeScalarRaw | caterer/whisper.cpp/examples/stb_vorbis.c:1656-1713 | Finds the next symbol exactly when the search tables list it and a refilled accumulator can hold its codeword, and then removes exactly that codeword; only bits from beyond the packet can join the stream behind it; a failure empties the accumulator unless the book has no tables |
| HuffmanDecode.RefilledEnough | caterer/whisper.cpp/examples/stb_vorbis.c:1634-1647 | A refill holds at least 25 bits or all that is left |
| HuffmanDecode.FastHit | caterer/whisper.cpp/examples/stb_vorbis.c:1717-1728 | A hit in the direct table is the symbol the stream begins with, with its length |
| HuffmanDecode.FastMiss | caterer/whisper.cpp/examples/stb_vorbis.c:1717-1731 | A miss means that the sorted tables list the symbol, or that its entry number is beyond the 16-bit limit |
| HuffmanDecode.PeekTable | caterer/whisper.cpp/examples/stb_vorbis.c:1736-1739 | The index into the direct table is the next 10 bits of the stream, whether or not a refill was due; a refill that meets the end of the packet loses none of it |
| HuffmanDecode.Decode | caterer/whisper.cpp/examples/stb_vorbis.c:1717-1756 | The three decoders together: with the codeword of symbol i next and complete in the packet, the result is i if and only if i is not a late short codeword and its length fits a refilled accumulator, and then exactly that codeword is consumed and the rest of the packet is still next, whatever page follows; any result is -1 or a used symbol |
| HuffmanDecode.CarriesFirst | caterer/whisper.cpp/examples/stb_vorbis.c:1717-1756 | A stream that carries a coded sequence begins with its first codeword and then carries the others |
| HuffmanDecode.CarriesFront | caterer/whisper.cpp/examples/stb_vorbis.c:1717-1756 | What a stream carries depends on its front only, so bits that join behind the packet change nothing |
| HuffmanDecode.StepReaches | caterer/whisper.cpp/examples/stb_vorbis.c:1634-1756 | Whether the rest of a run can be decoded does not change when one of its codewords is taken, with or without bits from a page that follows |
| HuffmanDecode.DecodeRun | caterer/whisper.cpp/examples/stb_vorbis.c:1717-1756 | Decoding a concatenation of codewords returns the symbol sequence if and only if each codeword in turn fits the accumulator as it is refilled by then and none is a late short one, whatever page follows the packet; exactly its bits are consumed when no stray page follows |
| HuffmanDecode.ShortReach | caterer/whisper.cpp/examples/stb_vorbis.c:1634-1647 | With all lengths at most 25 and no late short codeword, every run can be decoded |
| HuffmanTables.CollectCodes | caterer/whisper.cpp/examples/stb_vorbis.c:1182-1195 | Collects exactly the codes of the symbols that sort, in symbol order |
| HuffmanTables.Place | caterer/whisper.cpp/examples/stb_vorbis.c:1206-1228 | The second binary search finds the code of the entry, writes its symbol there, and disturbs no entry with another code |
| HuffmanTables.PlaceDense | caterer/whisper.cpp/examples/stb_vorbis.c:1206-1229 | Every symbol with a long codeword ends up beside its sorted code |
| HuffmanTables.PlaceSparse | caterer/whisper.cpp/examples/stb_vorbis.c:1206-1229 | Every used symbol and its length end up beside its sorted code |
| HuffmanTables.ComputeSortedHuffman | caterer/whisper.cpp/examples/stb_vorbis.c:1179-1230 | The sorted codes increase strictly, list exactly the sorting symbols, each with its own symbol and, in a sparse book, its length |
| HuffmanTables.FillSlots | caterer/whisper.cpp/examples/stb_vorbis.c:1148-1151 | Writes exactly the slots whose low bits are the codeword |
| HuffmanTables.ComputeAcceleratedHuffman | caterer/whisper.cpp/examples/stb_vorbis.c:1134-1154 | The direct table answers exactly the 10-bit words that begin with a short codeword of an entry below 32767 |
| HuffmanTables.Build | caterer/whisper.cpp/examples/stb_vorbis.c:3785-3844 | A book is built if and only if the lengths satisfy the Kraft inequality, and then all its tables describe the same first-fit code, as the decoders require |
| HuffmanTables.LongestReach | caterer/whisper.cpp/examples/stb_vorbis.c:1634-1647 | Codewords of length l can always be decoded after a refill if and only if l is at most 25 |
| HuffmanTables.LateShortCodewordIsLost | caterer/whisper.cpp/examples/stb_vorbis.c:1141-1145 | A book that satisfies the Kraft inequality and whose entry 32767 has a short codeword: neither the direct table nor the sorted tables list it |
| Floor1.PredictBetween | caterer/whisper.cpp/examples/stb_vorbis.c:1935-1943 | The predicted point lies between the two ends |
| Floor1.DrawLine | caterer/whisper.cpp/examples/stb_vorbis.c:2034-2081 | For every x from x0 to the smaller of x1 and the limit, the value accumulated by additions alone is the value of the division formula; everything else stays |
| Floor1.Neighbors | caterer/whisper.cpp/examples/stb_vorbis.c:1303-1312 | The places of the greatest x below and the least x above among the earlier points |
| Floor1.UnwrapBijective | caterer/whisper.cpp/examples/stb_vorbis.c:3246-3268 | For every prediction in range, unwrapping and its inverse map [0, range) onto itself and undo each other |
| Floor1.NearestFirst | caterer/whisper.cpp/examples/stb_vorbis.c:3246-3268 | Amplitudes are numbered by their distance from the prediction, and of two at the same distance the one below comes first; with the bijection this leaves only one way of unwrapping |
| Floor1.UnwrapSides | caterer/whisper.cpp/examples/stb_vorbis.c:3249-3268 | While both sides have room, value v lies (v + 1) / 2 away, odd values below and even ones above; after that the amplitudes run on at the roomier side |
| Floor1.AmplitudesInRange | caterer/whisper.cpp/examples/stb_vorbis.c:3238-3269 | All final amplitudes stay in [0, range) when the decoded values are |
| Floor1.DecodeWhatWasSent | caterer/whisper.cpp/examples/stb_vorbis.c:3238-3269 | Unwrapping the values an encoder sends for any amplitudes in range returns those amplitudes |
| Floor1.SendWhatWasDecoded | caterer/whisper.cpp/examples/stb_vorbis.c:3238-3269 | The values an encoder sends for unwrapped amplitudes are the ones that were decoded |
| Floor1.UnwrapPoints | caterer/whisper.cpp/examples/stb_vorbis.c:3238-3269 | The in-place loop computes the amplitudes and marks exactly the points that are not predicted or are a neighbour of such a point |
| Floor1.UnwrapFloor | caterer/whisper.cpp/examples/stb_vorbis.c:3238-3278 | Points that are not drawn become -1 and only those |
| Floor1.DoFloor | caterer/whisper.cpp/examples/stb_vorbis.c:3072-3108 | The rendered curve follows the division formula between consecutive drawn points in x order and is flat after the last |
| Floor1.RangeIsGreatest | caterer/whisper.cpp/examples/stb_vorbis.c:3209-3210 | For each multiplier the range is the greatest number of amplitudes that scale into the 256-entry table |
| Floor1.CurveIndexInTable | caterer/whisper.cpp/examples/stb_vorbis.c:3072-3108 | Every scaled amplitude and every value between two of them lies in 0 to 255, so masking the table index changes nothing |
| JsonPointer.CompareEncoded | caterer/cjson/cJSON_Utils.c:120-154 | A name matches the front token of a pointer, case-sensitively, exactly when the token is the escaped form of that name, for names with `~` and `/` too |
| JsonPointer.DecodeDecimal | caterer/cjson/cJSON_Utils.c:274-299 | A printed array index decodes to itself |
| JsonPointer.IndexExactly | caterer/cjson/cJSON_Utils.c:274-299 | What decoding gives for every token: its decimal value if it has no leading zero, starts with no character above `9` and has none below `0`; nothing otherwise |
| JsonPointer.ChildChosen | caterer/cjson/cJSON_Utils.c:301-346 | The token made for a child leads to that child and no other, at any place of an array or of an object with distinct keys |
| JsonPointer.PointerRoundTrip | caterer/cjson/cJSON_Utils.c:198-259 | Looking up the pointer built for a location returns exactly that location, for any tree with distinct sibling keys |
| NodePointer.FindPointerFromObjectTo | caterer/cjson/cJSON_Utils.c:198-259 | Searching linked nodes by address finds the pointer that is built for the place of the target, and fails exactly when the target is nowhere below arrays and objects only |
| NodePointer.ItemAt | caterer/cjson/cJSON_Utils.c:262-272 | Walking the links reaches the child at that index, or none |
| NodePointer.MemberAt | caterer/cjson/cJSON_Utils.c:326-331 | The first child whose name compares equal with the token, or none |
| NodePointer.GetItemFromPointer | caterer/cjson/cJSON_Utils.c:301-346 | Following a pointer through linked nodes ends at the node at the place the pointer stands for, or at none |
| NodePointer.FoundLeadsBack | caterer/cjson/cJSON_Utils.c:198-346 | The pointer that is found for a node in memory leads to exactly that node, for any tree with distinct sibling keys, whatever characters the keys contain |
| PatchKeys.DecodesBack | caterer/cjson/cJSON_Utils.c:359-389 | The in-place unescaping returns the key it was made from if and only if the key has no slash and no other character moves: skipped characters are never shifted |
| PatchKeys.PlainRecoverable | caterer/cjson/cJSON_Utils.c:359-389 | Keys without `~` and `/` always come back |
| PatchKeys.DecodePointerInPlace | caterer/cjson/cJSON_Utils.c:359-389 | The two-cursor loop on the buffer computes that unescaping |
| MemberSort.SortSorts | caterer/cjson/cJSON_Utils.c:484-593 | Merge sorting members whose keys the variant tells apart yields strictly increasing keys, in both case variants |
| MemberSort.SortKeeps | caterer/cjson/cJSON_Utils.c:484-593 | Sorting keeps the same members and the same meaning as an unordered object, in both case variants |
| MemberSort.LessIs | caterer/cjson/cJSON_Utils.c:83-111 | The order of keys is that of strcmp: the first difference decides, and a proper prefix comes first |
| MemberSort.FoldExactly | caterer/cjson/cJSON_Utils.c:83-111 | Two keys are the same up to case exactly when they have the same length and are, at every place, equal or the two cases of one of the 26 letters |
| JsonPatch.PatchReads | caterer/cjson/cJSON_Utils.c:1096-1134 | A composed patch object reads back with its operation, its path and its value |
| JsonPatch.ApplyGenerated | caterer/cjson/cJSON_Utils.c:807-1036 | Applying a composed patch object is applying the operation it was composed for |
| JsonPatch.ApplyAllGenerated | caterer/cjson/cJSON_Utils.c:1038-1094 | The same for whole patch lists, with the first failing status ending the run |
| PatchRoundTrip.ApplyBelow | caterer/cjson/cJSON_Utils.c:807-1036 | A patch that works on a child works on its parent with the child's token put before the path, and changes only that child |
| PatchRoundTrip.ItemsYield | caterer/cjson/cJSON_Utils.c:1170-1213 | Array differences: common places first, then repeated removal at one index, then additions at the end; from any partly patched array the rest of the patches succeeds and yields the new array |
| PatchRoundTrip.MembersYield | caterer/cjson/cJSON_Utils.c:1215-1274 | Object differences: walking both sorted member lists, from any partly patched object in any member order the rest of the patches succeeds and yields the new members |
| PatchRoundTrip.CreateYields | caterer/cjson/cJSON_Utils.c:1141-1279 | The generated patches succeed at every step and yield the new value, where only keys that are detached must have no earlier key equal up to case |
| PatchRoundTrip.GenerateThenApply | caterer/cjson/cJSON_Utils.c:1038-1279 | For any two values with distinct sibling keys and any reordering of `from`: applying the generated patches ends with status 0 and yields `to` up to member order, provided each key that is detached has no earlier key equal to it up to case when its turn comes, and keys that are added, removed or replaced as a whole come back from the unescaping |
| PatchRoundTrip.CaseTidyDetachable | caterer/cjson/cJSON_Utils.c:430-481 | When sibling keys differ even up to case, nothing else is ever detached, whatever the target |
| PatchProgram.GetItemFromPointer | caterer/cjson/cJSON_Utils.c:301-346 | The pointer walk computes the lookup the round trips are about |
| PatchProgram.PatchList.ComposePatch | caterer/cjson/cJSON_Utils.c:1096-1134 | Appends one patch object, with the suffix escaped behind the path |
| PatchProgram.PatchList.RemoveItems | caterer/cjson/cJSON_Utils.c:1192-1205 | Appends one removal at the same index for every surplus item |
| PatchProgram.PatchList.AddItems | caterer/cjson/cJSON_Utils.c:1206-1210 | Appends one addition at "-" for every further item |
| PatchProgram.PatchList.CreateArrayPatches | caterer/cjson/cJSON_Utils.c:1170-1213 | Appends the array difference of the specification that is proved to yield the new array |
| PatchProgram.PatchList.CreateObjectPatches | caterer/cjson/cJSON_Utils.c:1215-1274 | Appends the object difference, for both cursors over the sorted lists |
| PatchProgram.PatchList.CreatePatches | caterer/cjson/cJSON_Utils.c:1141-1279 | Appends the whole difference and leaves earlier patches alone |
| PatchProgram.Document.ApplyOnePatch | caterer/cjson/cJSON_Utils.c:807-1036 | Status and document after one patch of any of the six operations: the status is the first thing that is wrong; with status 0 lookups find what the operation means and everything else as before; a failing patch changes the document if and only if it is a replacement without a value that finds its target or a move that finds its source and no place, and then it has removed that |
| PatchProgram.Document.Compares | caterer/cjson/cJSON_Utils.c:831-836 | The test operation compares what the pointer finds with the given value, and fails when either is missing |
| PatchProgram.Document.Fetch | caterer/cjson/cJSON_Utils.c:905-939 | A move takes its value out of the document and a copy leaves it there; status 4 without a `from`, 5 when nothing is found |
| PatchSuccess.EditedAt | caterer/cjson/cJSON_Utils.c:430-481 | An edit that succeeds exchanges the container that lookup finds at the pointer; every other place of the document, told by array indices and first keys, is as before |
| PatchSuccess.AttachPuts | caterer/cjson/cJSON_Utils.c:978-1019 | In the container: the value is at the index and later items move up by one, or is the last item for "-", or is what the key finds, and nothing else changes; distinct keys stay distinct |
| PatchSuccess.DetachTakes | caterer/cjson/cJSON_Utils.c:430-481 | In the container: the item at the index is gone and later ones move down, or the first key equal to the token up to case is gone, and nothing else changes |
| PatchSuccess.OneMoreToken | caterer/cjson/cJSON_Utils.c:301-346 | A pointer with one more token finds a child of what the pointer finds |
| PatchSuccess.FoundAtPath | caterer/cjson/cJSON_Utils.c:301-346 | After an addition or a replacement, lookup at the path finds the value, when the last token leads lookup to the child that its unescaped form names |
| PatchSuccess.PointerOn | caterer/cjson/cJSON_Utils.c:301-346 | A pointer that goes on finds what the rest of it finds in what its front finds |
| PatchSuccess.EditSucceeds | caterer/cjson/cJSON_Utils.c:807-1036 | Every addition, onto a missing or an existing key, removal or replacement that ends with status 0 does exactly that, at any depth of any document with distinct sibling keys |
| PatchSuccess.FromSucceeds | caterer/cjson/cJSON_Utils.c:905-1019 | A move that succeeds is a removal followed by an addition of what was removed; a copy that succeeds is an addition of what lookup finds at `from` |
| PatchSuccess.PassesIs | caterer/cjson/cJSON_Utils.c:831-836 | A test passes if and only if there is a value at the path and it equals the given one up to member order |
| PatchSuccess.MemberGone | caterer/cjson/cJSON_Utils.c:430-481 | A member that a path leads to, the first with its key up to case, can be taken, and is not found then |
| PatchSuccess.MoveInside | caterer/cjson/cJSON_Utils.c:905-1026 | Moving such a member to a place inside itself ends with status 9 and without the member |
| PatchSuccess.PatchMeans | caterer/cjson/cJSON_Utils.c:807-1036 | Both for every patch: its status by the name of its operation, and with status 0 what lookups find afterwards |
| PatchSuccess.StatusIs | caterer/cjson/cJSON_Utils.c:807-1036 | The status of every patch is the first thing that is wrong with it, told by lookups, and 0 exactly if nothing is |
| PatchProgram.Document.ApplyAllPatches | caterer/cjson/cJSON_Utils.c:1067-1094 | Status and document after a patch list; when it fails, the document is the one before the first failing patch, less what that patch took out |
| PatchFailure.FailingPatch | caterer/cjson/cJSON_Utils.c:807-1036 | For every document and patch that fails: the document is unchanged if and only if the patch is neither a replacement at a non-empty path, without a value, that finds something to detach (status 7) nor a move that finds something to detach and then no place; in those cases the document has lost exactly that |
| PatchFailure.StoppedList | caterer/cjson/cJSON_Utils.c:1067-1094 | A list whose patches before place n succeed and whose patch n fails ends with that status and the document of that point, less what the failing patch took out |
| PatchFailure.FailingList | caterer/cjson/cJSON_Utils.c:1067-1094 | Every failing list has such a place, so nothing else can be left behind |
| PatchFailure.HalfReplaced | caterer/cjson/cJSON_Utils.c:887-949 | Replacing "/a" without a value in {"a":1} fails with status 7 and leaves {} |
| PatchProgram.Synchronise | caterer/cjson/cJSON_Utils.c:1067-1279 | Generate and apply as a program: a copy of `from` becomes `to`, under the conditions of the round trip |
| PatchProgram.AddingOneMember | caterer/cjson/cJSON_Utils.c:359-389 | For a single added member the round trip holds if and only if the key comes back from the unescaping |
| PatchProgram.RemovingOneMember | caterer/cjson/cJSON_Utils.c:430-481 | Removing a member removes that member if and only if no earlier key equals it up to case: the detach step ignores the case flag |
| MergeTree.DiffExact | caterer/cjson/cJSON_Utils.c:1391-1471 | Whenever a difference exists, merging it into the old tree gives the new tree if and only if null members of the new tree are already in the old one |
| MergeTree.PlainExact | caterer/cjson/cJSON_Utils.c:1321-1379 | Merging a tree into nothing gives that tree if and only if it has no null members inside objects |
| MergeTree.Idempotent | caterer/cjson/cJSON_Utils.c:1321-1379 | Merging the same patch twice is merging it once |
| MergePatch.MergeMeans | caterer/cjson/cJSON_Utils.c:1321-1379 | The list-based merge computes the merge on unordered trees (RFC 7396, section 2), in both case variants, when at every level it visits the keys of target and patch meet only where they are equal |
| MergePatch.OneMember | caterer/cjson/cJSON_Utils.c:1340-1376 | One patch member takes away the first member whose key equals its own, up to case where case does not matter, and unless it is null puts the merged value at the end |
| MergePatch.MergedList | caterer/cjson/cJSON_Utils.c:1340-1376 | One level: distinct keys stay distinct, and key by key the merged list holds what merging the two values gives |
| MergePatch.MergeableAgain | caterer/cjson/cJSON_Utils.c:1321-1379 | That condition holds again for the merged value, so a patch can be applied any number of times |
| MemberSort.SortListIs | caterer/cjson/cJSON_Utils.c:484-593 | Sorting up to case is sorting by bytes where the two orders agree on the keys |
| MergeGenerate.SameValueMeans | caterer/cjson/cJSON_Utils.c:604-690 | Comparison, which sorts as it goes, holds exactly for values that are equal up to member order, when at every level it visits keys that the variant takes for the same are the same |
| MergeGenerate.GenerateMeans | caterer/cjson/cJSON_Utils.c:1391-1471 | The two-cursor walk computes the difference of the unordered trees, or nothing exactly when there is none, when at every level it visits the order of the sorting and byte order agree on the keys of both |
| MergeGenerate.GenerateThenMerge | caterer/cjson/cJSON_Utils.c:1321-1471 | No patch means equal values; otherwise merging the generated patch into any reordering of `from` gives `to` if and only if `to` is expressible against `from`, in both case variants, under that condition on the keys of each level |
| MergePatch.MergeTwice | caterer/cjson/cJSON_Utils.c:1321-1379 | Applying a merge patch twice is applying it once, on the list representation and in both case variants |
| MergeOrders.OrdersMustAgree | caterer/cjson/cJSON_Utils.c:1406-1423 | Case-insensitive generation walks lists sorted by folded keys with a byte comparison: for a removed and a changed member, whatever their values, the round trip holds if and only if the two orders agree on their keys |
| MergeOrders.OrdersDecide | caterer/cjson/cJSON_Utils.c:1406-1423 | A set of keys is safe for the case-insensitive variant if and only if the two orders agree on it: exactly then every two values over these keys lead back |
| MergeOrders.KeysSuffice | caterer/cjson/cJSON_Utils.c:1391-1471 | Agreement on the keys that occur is enough at every level, in both case variants |
| MergeProgram.ApplyMergePatch | caterer/cjson/cJSON_Utils.c:1321-1379 | The loop over the patch members computes the merge |
| MergeProgram.CompareJson | caterer/cjson/cJSON_Utils.c:604-690 | The comparison loops compute that equality |
| MergeProgram.GenerateMergePatch | caterer/cjson/cJSON_Utils.c:1391-1471 | The generator computes the patch of the round trip, in both case variants |
| MergeProgram.WalkLists | caterer/cjson/cJSON_Utils.c:1409-1462 | The walk over both sorted lists, with its three branches |
| SiblingList.GetArrayItem | caterer/cjson/cJSON.c:1869-1886 | Walking the links reaches the node at that place of the abstract list, or none |
| SiblingList.AddItemToArray | caterer/cjson/cJSON.c:1974-2005 | Appends behind the node the first one takes for the last: with an intact list the item comes last and the invariant holds; with a stale tail what follows it is cut off; with none the item is dropped; a node is never added to itself |
| SiblingList.DetachItemViaPointer | caterer/cjson/cJSON.c:2205-2239 | Removes exactly that node from the abstract list, keeps the invariant and clears the node's links |
| SiblingList.DetachItemFromArray | caterer/cjson/cJSON.c:2241-2249 | Detaches the node at a place, and nothing when there is none |
| SiblingList.LinkBefore | caterer/cjson/cJSON.c:2301-2311 | Puts a node before another one and keeps the invariant |
| SiblingList.InsertItemInArray | caterer/cjson/cJSON.c:2281-2313 | Inserts at the place, or at the end when the place is past it, and refuses negative places |
| SiblingList.ReplaceItemViaPointer | caterer/cjson/cJSON.c:2315-2362 | Replaces exactly that node in the abstract list and keeps the invariant, for the only, the first, an inner and the last node |
| SiblingSort.IsRising | caterer/cjson/cJSON_Utils.c:498-507 | The early exit is taken exactly for strictly rising lists |
| SiblingSort.FindMiddle | caterer/cjson/cJSON_Utils.c:509-521 | The fast and slow pointers meet the list's upper half |
| SiblingSort.Split | caterer/cjson/cJSON_Utils.c:522-527 | Cuts the list into two non-empty lists |
| SiblingSort.Merge | caterer/cjson/cJSON_Utils.c:534-590 | Merges two disjoint lists in place into one properly linked list of the same nodes |
| SiblingSort.SortHalves | caterer/cjson/cJSON_Utils.c:529-531 | Sorts both halves without touching the other |
| SiblingSort.SortList | caterer/cjson/cJSON_Utils.c:484-593 | Terminates and relinks the nodes into the sorted order with mutual inner links; the first node keeps its old `prev` if it was first before, and has none otherwise |
| SiblingSort.SortNodesSorts | caterer/cjson/cJSON_Utils.c:484-593 | That order is non-decreasing in the keys, in both case variants |
| SiblingSort.SortAlike | caterer/cjson/cJSON_Utils.c:484-593 | Sorting nodes gives the members in the order of the value-level sort |
| SiblingSort.SortObject | caterer/cjson/cJSON_Utils.c:595-602 | After sorting, the head-to-tail link is right if and only if the first and the last node did not move |
| SiblingSort.SortThenAdd | caterer/cjson/cJSON_Utils.c:595-602 | A member added after sorting is appended without loss in exactly the same cases |
| SiblingCopy.LinkKid | caterer/cjson/cJSON.c:2781-2793 | Linking a copied child extends the list of copies |
| SiblingCopy.Duplicate | caterer/cjson/cJSON.c:2729-2810 | Builds a wholly new tree with the same keys, values and shape at any depth, whose sibling lists satisfy the same invariant, and leaves the original alone |
| JsonTextRoundTrip.CharBack | caterer/cjson/cJSON.c:827-1027 | Every character's printed form, plain, escaped or \u00xx, reads as that character and hides no quote |
| JsonTextRoundTrip.StringBack | caterer/cjson/cJSON.c:781-1030 | A printed string reads back as itself and the reader stops right behind it |
| JsonTextRoundTrip.SignedExactly | caterer/cjson/cJSON.c:553-620 | A printed integer has a minus sign exactly if it is negative, and its decimal digits have no leading zero and its value |
| JsonTextRoundTrip.NumberBack | caterer/cjson/cJSON.c:307-381 | A printed 32-bit integer reads back as itself, with any non-number character behind it |
| JsonTextRoundTrip.ValueBack | caterer/cjson/cJSON.c:1325-1843 | Any printed value at any place, formatted or not, reads back as itself if its nesting fits under the limit from there, and is refused otherwise |
| JsonTextRoundTrip.PrintThenRead | caterer/cjson/cJSON.c:1104-1261 | Reading the printout of any tree gives the tree if its depth is at most 1000 and fails otherwise, formatted or not, with and without the terminator check |
| JsonReading.Utf8Exactly | caterer/cjson/cJSON.c:660-778 | The bytes written for a code point are its one well-formed encoding by the table of RFC 3629: decoding them gives the code point, and no other bytes do |
| JsonReading.StringReads | caterer/cjson/cJSON.c:660-908 | A string reads as its bytes however they are written: as themselves, by each one-character escape, by a code unit in digits of either case, or by a surrogate pair, against an independent decoder |
| JsonReading.StraySurrogate | caterer/cjson/cJSON.c:660-720 | A low surrogate, or a high one with no low one behind it, makes the string unreadable, whatever stands around it |
| JsonReading.BadEscape | caterer/cjson/cJSON.c:838-885 | A backslash in front of anything but `u` and the characters of the short escapes makes the string unreadable |
| JsonReading.EscapeExactly | caterer/cjson/cJSON.c:838-866 | The characters behind a backslash, apart from `u`, are exactly those of the short escapes, with their bytes |
| JsonReading.NumberCharExactly | caterer/cjson/cJSON.c:325-349 | The number characters are exactly sign, digits, point and exponent letters |
| JsonReading.HexExactly | caterer/cjson/cJSON.c:623-657 | The hexadecimal digits are exactly those that can be written, with their values |
| JsonReading.BadDigitsRead | caterer/cjson/cJSON.c:623-657 | A code unit with a character that is no digit is not refused but reads as U+0000 |
| JsonReading.ValueReads | caterer/cjson/cJSON.c:1325-1729 | Every way of writing a value, with any blanks before and after each value, key and mark, reads as that value if its nesting fits under the limit, and is refused otherwise |
| JsonReading.TextReads | caterer/cjson/cJSON.c:1047-1182 | The same for a whole text with blanks around it, with or without a byte order mark |
| JsonMark.MarkChangesNothing | caterer/cjson/cJSON.c:1073-1087 | Any text, well-formed or not, reads behind a byte order mark as it reads without it |
| JsonParser.ParseBuffer.SkipWhitespace | caterer/cjson/cJSON.c:1047-1070 | Moves to the next character above 32, but never past the last byte of the buffer |
| JsonParser.ParseBuffer.FindQuote | caterer/cjson/cJSON.c:794-816 | Finds the closing quote that is not escaped, or that there is none |
| JsonParser.ParseBuffer.CopyOut | caterer/cjson/cJSON.c:827-885 | Unescapes the text between the quotes, or fails as the reading specification does |
| JsonParser.ParseBuffer.ParseString | caterer/cjson/cJSON.c:781-908 | Reads a string and stops behind it |
| JsonParser.ParseBuffer.CollectNumber | caterer/cjson/cJSON.c:320-353 | Collects number characters up to the limit of its buffer |
| JsonParser.ParseBuffer.ParseNumber | caterer/cjson/cJSON.c:307-381 | Reads a number and stops behind what the library conversion took |
| JsonParser.ParseBuffer.ParseValue | caterer/cjson/cJSON.c:1325-1377 | Reads the value the specification reads, stops where it stops, fails where it fails and restores the depth |
| JsonParser.ParseBuffer.ParseArray | caterer/cjson/cJSON.c:1454-1549 | The same for arrays, with the nesting limit |
| JsonParser.ParseBuffer.ParseItems | caterer/cjson/cJSON.c:1486-1526 | The item loop |
| JsonParser.ParseBuffer.ParseObject | caterer/cjson/cJSON.c:1614-1729 | The same for objects, with the nesting limit |
| JsonParser.ParseBuffer.ParseMember | caterer/cjson/cJSON.c:1670-1700 | One member: key, colon, value |
| JsonParser.ParseBuffer.ParseMembers | caterer/cjson/cJSON.c:1644-1707 | The member loop |
| JsonParser.Parse | caterer/cjson/cJSON.c:1104-1182 | The whole parse, with the byte order mark and the terminator check, as the reading specification of the round trip; every way of writing a value gives that value exactly if its depth is at most 1000 |
| JsonPrinter.PrintBuffer.Ensure | caterer/cjson/cJSON.c:447-530 | Room is granted exactly within the limit of the buffer (its size when it may not grow), and growing keeps the text |
| JsonPrinter.PrintBuffer.UpdateOffset | caterer/cjson/cJSON.c:533-543 | The offset lands behind what was last written |
| JsonPrinter.CountEscapes | caterer/cjson/cJSON.c:938-962 | The counting pass finds exactly how much longer the escaped text is |
| JsonPrinter.PrintBuffer.WriteEscaped | caterer/cjson/cJSON.c:970-1027 | The writing pass writes exactly the escaped text within the room asked for |
| JsonPrinter.PrintBuffer.PrintStringPtr | caterer/cjson/cJSON.c:911-1030 | Succeeds exactly when quotes, escaped text and terminator fit, and appends exactly that |
| JsonPrinter.PrintBuffer.PrintNumber | caterer/cjson/cJSON.c:553-620 | The same for 32-bit integers |
| JsonPrinter.PrintBuffer.PrintValue | caterer/cjson/cJSON.c:1380-1451 | Printing into the growing buffer succeeds if and only if the text and two more bytes fit the limit, and then appends exactly the text of the specification |
| JsonPrinter.PrintBuffer.PrintArray | caterer/cjson/cJSON.c:1552-1611 | The same for arrays, with the separators of both formats |
| JsonPrinter.PrintBuffer.PrintItem | caterer/cjson/cJSON.c:1575-1599 | One item and its separator; what has been written plus what is to come never changes |
| JsonPrinter.PrintBuffer.PrintObject | caterer/cjson/cJSON.c:1732-1843 | The same for objects, with indentation |
| JsonPrinter.PrintBuffer.PrintMember | caterer/cjson/cJSON.c:1759-1823 | One member: indentation, key, colon, value, separator |
| JsonPrinter.Print | caterer/cjson/cJSON.c:1196-1261 | Returns the text the round trip reads, whenever its length fits an int |
| JsonPrinter.PrintPreallocated | caterer/cjson/cJSON.c:1305-1322 | Succeeds if and only if the caller's buffer has two bytes more than the text, and then holds the terminated text |
| EbnfState.MadeNameIsNew | caterer/whisper.cpp/examples/grammar-parser.cpp:33-37 | A made-up name is no name of the table and no name that can be written, so synthesised symbols never collide |
| EbnfState.NameAdded | caterer/whisper.cpp/examples/grammar-parser.cpp:27-37 | A new name gets the next number: the numbering stays a bijection onto 0 to size-1 and every stored rule stays valid |
| EbnfState.SynthStored | caterer/whisper.cpp/examples/grammar-parser.cpp:39-47 | Storing a synthesised rule keeps every invariant of the tables |
| EbnfState.UserStored | caterer/whisper.cpp/examples/grammar-parser.cpp:39-47 | Storing a written rule keeps every invariant of the tables |
| EbnfReading.HexBack | caterer/whisper.cpp/examples/grammar-parser.cpp:53-75 | The number that digits stand for, last digit first, is what reading them from the front gives |
| EbnfReading.GapBack | caterer/whisper.cpp/examples/grammar-parser.cpp:77-90 | Blanks and comments, written in any way that fits what follows, are skipped as a whole |
| EbnfReading.LitBack | caterer/whisper.cpp/examples/grammar-parser.cpp:141-149 | A literal reads as its characters, however each is escaped |
| EbnfReading.RangesBack | caterer/whisper.cpp/examples/grammar-parser.cpp:150-172 | A class reads as its ranges, where a dash may be written as itself only between two characters, after a range or at the end |
| EbnfReading.ItemBack | caterer/whisper.cpp/examples/grammar-parser.cpp:132-230 | Every way of writing an item, nested to any depth, reads as that item behind the ones before it |
| EbnfReading.AltsBack | caterer/whisper.cpp/examples/grammar-parser.cpp:232-248 | The same for alternates, with the bars and the gaps behind them |
| EbnfReading.RuleBack | caterer/whisper.cpp/examples/grammar-parser.cpp:250-272 | The same for a rule and the end of its line |
| EbnfReading.GrammarBack | caterer/whisper.cpp/examples/grammar-parser.cpp:274-286 | Every way of writing a list of rules reads as exactly these rules |
| EbnfWriting.ReadExactly | caterer/whisper.cpp/examples/grammar-parser.cpp:49-286 | A text reads as a list of rules if and only if it is one of the ways of writing them, so the reader accepts nothing else |
| EbnfPlain.WritableExactly | caterer/whisper.cpp/examples/grammar-parser.cpp:132-286 | Which lists of rules can be written at all: names that are names, 32-bit characters, no empty group, nothing empty repeated, and an empty last alternate only in the last rule |
| EbnfCompile.ParseState.GetSymbolId | caterer/whisper.cpp/examples/grammar-parser.cpp:27-31 | The number of a name, the next free one if it is new; nothing else changes |
| EbnfCompile.ParseState.GenerateSymbolId | caterer/whisper.cpp/examples/grammar-parser.cpp:33-37 | A number that no name and no rule has used, under a new name |
| EbnfCompile.ParseState.AddRule | caterer/whisper.cpp/examples/grammar-parser.cpp:39-47 | Stores the rule at its number, growing the table with empty rules |
| EbnfCompile.ParseLiteral | caterer/whisper.cpp/examples/grammar-parser.cpp:141-149 | Appends exactly the code of the literal that is read, and fails exactly when none can be read |
| EbnfCompile.ParseClass | caterer/whisper.cpp/examples/grammar-parser.cpp:150-172 | The same for character classes, negated or not, with ranges |
| EbnfCompile.RepetitionRule | caterer/whisper.cpp/examples/grammar-parser.cpp:202-217 | Builds the rewrite rule of `*`, `+` or `?` |
| EbnfCompile.ParseState.ParseRepetition | caterer/whisper.cpp/examples/grammar-parser.cpp:191-224 | Refused exactly when there is no preceding item or it is the empty literal; otherwise the last item is replaced by its repetition |
| EbnfCompile.ParseState.ParseGroup | caterer/whisper.cpp/examples/grammar-parser.cpp:179-190 | A group becomes a reference to a new rule that holds exactly its alternates |
| EbnfCompile.ParseState.ParseSequence | caterer/whisper.cpp/examples/grammar-parser.cpp:132-230 | Succeeds exactly when the notation can be read, stops where reading stops, appends exactly the code of what was read, and every table invariant is kept |
| EbnfCompile.ParseState.ParseAlternates | caterer/whisper.cpp/examples/grammar-parser.cpp:232-248 | The same for alternates, stored under the given number |
| EbnfCompile.ParseState.ParseRule | caterer/whisper.cpp/examples/grammar-parser.cpp:250-272 | One rule: the last definition of its name now means what was read, all others mean what they meant |
| EbnfCompile.Parse | caterer/whisper.cpp/examples/grammar-parser.cpp:274-286 | Succeeds exactly when the text is a way of writing some rules, with any escapes, blanks and comments; then every name derives exactly the language of its last definition in the rules that are written; otherwise the state is empty |
| EbnfLanguage.ItemSound | caterer/whisper.cpp/examples/grammar-parser.cpp:132-230 | Whatever the code of an item derives, the item stands for |
| EbnfLanguage.ItemComplete | caterer/whisper.cpp/examples/grammar-parser.cpp:132-230 | Whatever an item stands for, its code derives |
| EbnfLanguage.RepSound | caterer/whisper.cpp/examples/grammar-parser.cpp:196-218 | A word of a repetition rule is a sequence of words of the item: any number for `*`, at least one for `+`, at most one for `?` |
| EbnfLanguage.RepComplete | caterer/whisper.cpp/examples/grammar-parser.cpp:196-218 | Every such sequence is a word of the rule |
| EbnfLanguage.RuleExact | caterer/whisper.cpp/examples/grammar-parser.cpp:132-248 | The compiled rule of a name derives a word if and only if its last definition stands for it, for all grammars, recursive and undefined names included |
| EbnfCompile.CompiledExact | caterer/whisper.cpp/examples/grammar-parser.cpp:27-286 | Tables that satisfy the invariant of a run compile the grammar they were filled from |
| EbnfPrint.PrintRule | caterer/whisper.cpp/examples/grammar-parser.cpp:337-397 | The checks of the printer pass exactly for rules that end in their only end mark, refer to numbered symbols and modify only characters |
| EbnfPrint.PrintGrammar | caterer/whisper.cpp/examples/grammar-parser.cpp:399-414 | Printing goes through exactly when every stored rule passes |
| EbnfPrint.StoredRulesPrint | caterer/whisper.cpp/examples/grammar-parser.cpp:337-397 | A rule stored by the compiler passes if and only if it was defined |
| PyashEmitter.Output.EmitText | program/runtime/c_ir.c:10-19 | Appends the word `text` and the quoted, escaped text |
| PyashEmitter.Output.EmitName | program/runtime/c_ir.c:21-31 | Appends the words of a name, without missing parts |
| PyashEmitter.Output.EmitGenitive | program/runtime/c_ir.c:33-44 | Appends base and steps of a path |
| PyashEmitter.Output.EmitVector | program/runtime/c_ir.c:46-57 | Appends `ve`, the element type and the elements as values |
| PyashEmitter.Output.EmitValue | program/runtime/c_ir.c:59-101 | Appends the words of the value, single spaces between them, at any nesting depth |
| PyashEmitter.Output.EmitFields | program/runtime/c_ir.c:115-138 | Appends the fields that are present, in table order |
| PyashEmitter.Output.EmitNext | program/runtime/c_ir.c:147-152 | Appends a following sentence with its own mood |
| PyashEmitter.Output.EmitSentenceBody | program/runtime/c_ir.c:108-176 | Appends exactly the words of the sentence, single spaces between them, and a line end unless it is embedded |
| PyashEmitter.Output.EmitSentence | program/runtime/c_ir.c:178-180 | Appends the written sentence of the round trip |
| PyashIr.JoinedBack | program/runtime/c_ir_parse.c:32-71 | Tokenizing words that were written, quoted and escaped as the emitter does, gives those words back, whatever follows |
| PyashParser.TakeQuoted | program/runtime/c_ir_parse.c:50-58 | Takes a quoted token off the text, unescaped |
| PyashParser.TakePlain | program/runtime/c_ir_parse.c:59-63 | Takes a plain token up to the next space |
| PyashParser.Tokenize | program/runtime/c_ir_parse.c:32-71 | Returns the tokens of the specification for every text |
| PyashParser.FindClose | program/runtime/c_ir_parse.c:145-159 | Finds the `ko` that closes an opened `la`, or that there is none |
| PyashParser.ParseVector | program/runtime/c_ir_parse.c:216-274 | Reads a vector as the specification does, with its default element type |
| PyashParser.ParseBase | program/runtime/c_ir_parse.c:276-300 | Reads `this` or a name with or without type |
| PyashParser.ParseSteps | program/runtime/c_ir_parse.c:302-317 | Reads all steps of a path |
| PyashParser.ParseEmbedded | program/runtime/c_ir_parse.c:145-176 | Reads an embedded sentence, with its mood or the default one |
| PyashParser.ParseValue | program/runtime/c_ir_parse.c:140-340 | Reads the value the specification reads, and fails where it fails |
| PyashParser.ParseSentenceTokens | program/runtime/c_ir_parse.c:342-419 | Reads the parts of a sentence in any order, later ones replacing earlier ones |
| PyashParser.ParseSentence | program/runtime/c_ir_parse.c:421-446 | Reads a whole text as the specification of the round trip does, and every text that says a sentence, with its parts in any order, bare vectors and any blanks, as that sentence |
| PyashRoundTrip.SentenceSound | program/runtime/c_ir_parse.c:145-157 | The words of every canonical sentence survive tokenizing and, inside a bracket, open and close brackets evenly, at any nesting depth |
| PyashRoundTrip.CloseFound | program/runtime/c_ir_parse.c:145-157 | Behind evenly bracketed words, the closing bracket that is found is the right one |
| PyashRoundTrip.NameExact | program/runtime/c_ir_parse.c:283-300 | A written name reads back if and only if it has a literal, its type is a type word, and an untyped literal is none, except as the last word |
| PyashRoundTrip.PathExact | program/runtime/c_ir_parse.c:302-324 | A written path reads back if and only if it has steps and its base reads back |
| PyashRoundTrip.VectorExact | program/runtime/c_ir_parse.c:216-274 | A written vector reads back if and only if it is empty and has an element type of the language |
| PyashReading.VectorRead | program/runtime/c_ir_parse.c:216-274 | Bare elements behind `ve` or `vec` read as exactly that vector, in order, up to a word that begins the next part: numbers that scan, texts, `truth` and `lie`, names; without a type they are numbers |
| PyashReading.ElementExactly | program/runtime/c_ir_parse.c:249-268 | A bare word reads as exactly the element it stands for, or not at all; every truth value but `truth` is a lie |
| PyashRoundTrip.ValueExact | program/runtime/c_ir_parse.c:140-340 | Exactly which values read back from their own words; maps never do |
| PyashRoundTrip.EmbeddedBack | program/runtime/c_ir_parse.c:145-176 | A canonical embedded sentence reads back, at any nesting depth |
| PyashRoundTrip.HeadBack | program/runtime/c_ir_parse.c:342-419 | The words of everything but a following sentence read back, with further words behind them |
| PyashRoundTrip.NextRefused | program/runtime/c_ir_parse.c:376-388 | A written following sentence whose parts are canonical, as are those of every sentence that follows it in turn, is never read: its mood is left among its words |
| PyashRoundTrip.ChainRefused | program/runtime/c_ir_parse.c:376-388 | The same for any number of following sentences, with the moods of all of them left at the end |
| PyashRoundTrip.NamelessNextIsRead | program/runtime/c_ir_parse.c:376-388 | Without that condition it may be read, but as something else: after a subject without a literal the mood word is taken for the literal |
| PyashRoundTrip.WrittenReads | program/runtime/c_ir_parse.c:421-446 | What reading a written sentence with canonical parts all along its chain gives: nothing if a sentence follows, and otherwise the sentence, with `exists` kept only in mood ya |
| PyashRoundTrip.RoundTrip | program/runtime/c_ir_parse.c:421-446 | A sentence with canonical parts all along its chain reads back as itself if and only if nothing follows it and `exists` is set only in mood ya |
| PyashReading.PartsRead | program/runtime/c_ir_parse.c:342-419 | Parts in any order read as what they say one after the other, a later one replacing an earlier one for the same case |
| PyashReading.LayoutRead | program/runtime/c_ir_parse.c:32-71 | Words with any blanks before, between and after them are those words |
| PyashReading.SaysRead | program/runtime/c_ir_parse.c:421-446 | Every text that says a sentence reads as that sentence |
| EditDistance.DistanceIsLeast | caterer/whisper.cpp/examples/common.cpp:648-670 | No edit script from one string to the other costs less than the distance |
| EditDistance.BestReaches | caterer/whisper.cpp/examples/common.cpp:648-670 | Some edit script from one string to the other costs exactly the distance |
| EditDistance.DistanceZero | caterer/whisper.cpp/examples/common.cpp:648-670 | Zero exactly for equal strings |
| EditDistance.Symmetric | caterer/whisper.cpp/examples/common.cpp:648-670 | The distance is the same in both directions |
| EditDistance.Triangle | caterer/whisper.cpp/examples/common.cpp:648-670 | The triangle inequality |
| EditDistance.LengthBounds | caterer/whisper.cpp/examples/common.cpp:648-670 | The distance lies between the difference of the lengths and the greater length |
| EditDistance.FillColumn | caterer/whisper.cpp/examples/common.cpp:659-664 | One round of the inner loop computes the next column from the one before, even when row 0 is computed again |
| EditDistance.TwoColumns | caterer/whisper.cpp/examples/common.cpp:648-667 | The two swapped columns end with the distance |
| EditDistance.Similarity | caterer/whisper.cpp/examples/common.cpp:648-670 | In 0 to 1, 1 exactly for equal strings, and undefined exactly for two empty ones |
| AudioRing.AudioAsync.constructor | caterer/whisper.cpp/examples/common-sdl.cpp:74-78 | A new buffer holds nothing |
| AudioRing.AudioAsync.Resume | caterer/whisper.cpp/examples/common-sdl.cpp:81-97 | Starts a stopped device and says whether it did |
| AudioRing.AudioAsync.Pause | caterer/whisper.cpp/examples/common-sdl.cpp:99-115 | Stops a running device and says whether it did |
| AudioRing.AudioAsync.Clear | caterer/whisper.cpp/examples/common-sdl.cpp:117-136 | Forgets all samples when running, and nothing otherwise |
| AudioRing.BlockPushed | caterer/whisper.cpp/examples/common-sdl.cpp:154-167 | Overwriting the ring from the write position on keeps it holding the last samples, wrapped or not |
| AudioRing.LongBlock | caterer/whisper.cpp/examples/common-sdl.cpp:146-150 | Skipping the front of a block longer than the buffer loses nothing that could still be held |
| AudioRing.AudioAsync.WriteBlock | caterer/whisper.cpp/examples/common-sdl.cpp:157-164 | The two copies overwrite exactly the places from the write position on |
| AudioRing.AudioAsync.Callback | caterer/whisper.cpp/examples/common-sdl.cpp:139-168 | A running device adds the whole block to the samples, of which the ring then holds the last ones; a stopped one changes nothing |
| AudioRing.LastSamples | caterer/whisper.cpp/examples/common-sdl.cpp:197-209 | The window before the write position is the last samples in order |
| AudioRing.AudioAsync.ReadWindow | caterer/whisper.cpp/examples/common-sdl.cpp:202-209 | The two copies read exactly that window |
| AudioRing.AudioAsync.Get | caterer/whisper.cpp/examples/common-sdl.cpp:170-211 | After any run of callbacks and clears: exactly the last samples pushed since the last clear, in order, as many as asked for or held |

## Left out

Vorbis:

- Page headers, capture patterns, checksums, seeking and file input: pages are given as values with their lacing values, bodies
  and continuation flags. A missing next page is the end of the input.
- HuffmanTables.Build: takes the final sparse flag and the lengths; reading them from the setup header and turning a sparse book
  into a dense one (lines 3713 to 3783) are not part of the model. The tables are built as sequences, `qsort` as a function
  that sorts.
- HuffmanDecode.Decode: what a book that does not use its whole code space returns for bits that begin no codeword is only said
  to be -1 or a used symbol, because the binary search does not compare codewords; nothing more is promised there.
- PacketBits.BitReader.GetBits: a 32-bit read while 32 bits are held would shift by the word size, which C leaves undefined, so it
  is excluded.
- The multiplication of the spectrum by the floor table: the curve holds the table index instead.
- Vector lookup, residues, the inverse transform, windows and floor type 0: floating point.

JSON:

- Patch, merge patch and text are modelled on values with member sequences, so aliasing between documents is not captured
  there; the heap nodes are modelled in `SiblingList`, `SiblingSort`, `SiblingCopy` and `NodePointer`. Sorting the arguments of the
  generators in place appears as reordered values.
- The case-insensitive variants of pointer lookup, patch application and patch generation.
- PatchProgram.Document.ApplyOnePatch: the objects that the test operation compares are sorted in place by the source and keep their
  order here, so a document is meant up to member order; a move whose `from` is not text is excluded, because the source looks
  into that text without asking.
- Numbers that are not 32-bit integers, and decimal points: `strtod` is a parameter that is only required to read integers, and
  `%d` is modelled; comparisons of doubles are equality of integers.
- JsonParser.ParseBuffer.ParseNumber: the saturated integer copy of a number out of range is not modelled.
- Array indices that wrap around `size_t`, lengths above `INT_MAX` except where a limit is stated, allocation failure, hooks, and
  error positions.
- JsonReading.ValueReads: which texts are refused beyond stray surrogates and deep nesting; the parser as a program computes the
  reading specification for every text.
- Strings with an embedded NUL, raw nodes, reference nodes and constant keys.
- JsonParser.ParseBuffer.ParseArray: builds a sequence of items where the program links nodes; the same for objects. Linking at the
  end is modelled in `SiblingList` and `SiblingCopy`.
- SiblingList.AddItemToArray: null arguments are not modelled; nor are they in the other list operations.
- SiblingList.DetachItemViaPointer: for a node of the list; what happens to a node that is not in the list is undefined in the
  program too.
- SiblingCopy.Duplicate: the recursive form only; the shallow form copies one node.
- PatchRoundTrip.GenerateThenApply: needs each detached key to have no earlier one equal to it up to case at that time, because
  detaching ignores case, and changed keys to survive unescaping; for one member each condition is shown to be exact
  (`PatchProgram.RemovingOneMember`, `PatchProgram.AddingOneMember`).
- MergeGenerate.GenerateThenMerge: needs the two orders to agree on the keys of each level that is visited, because generation walks
  both orders at once; for sets of keys the condition is shown to be exact (`MergeOrders.OrdersDecide`).

Grammar compiler:

- UTF-8 decoding: the text is a sequence of code points, and escapes read as in the program.
- The characters that the grammar printer writes; only its checks are modelled. Error messages.
- The matcher that runs the compiled grammar is not modelled, only the meaning of its rules.

Pyash:

- PyashReading.SaysRead: an embedded sentence is one in its canonical written form; its own parts are not spoken freely.
- Printing and scanning of numbers (`%g` and `strtod`) are parameters; a number is canonical when it comes back through both.
- Error messages, allocation failure and freeing. A name or path with a null word is an absent word, and an absent and an empty word
  are written alike.
- PyashRoundTrip.RoundTrip: for sentences whose parts, and those of all that follow them, are canonical: words without spaces or a leading quote, none of them
  `la` or `ko` inside a bracket, `be` a single word or one of the two map names.

Other:

- AudioRing.AudioAsync.Get: threads, locks and the device are left out: callback, clear and get are atomic steps. The product of rate
  and milliseconds does not overflow. An unknown buffer size after a failed start is excluded.
- EditDistance.Similarity: exact in the rationals, where the program rounds to single precision; two empty strings give no value
  where the program divides zero by zero.
- The remaining examples, the user interfaces, command scripts, model converters and wrappers: they would add little, or depend
  on libraries outside the repository.

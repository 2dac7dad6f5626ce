# Verification of the presence device

This project models, in Dafny, the parts of the presence device's firmware where correctness is hard to see, and
proves what they promise: the JSON utilities and the JSON text of cJSON, the service cache, transmit queue, probing,
one-shot searches and TXT records of the mDNS component, and the message layout and paging of the device itself.

`dafny verify dfyconfig.toml` checks everything.

## The parts

**JSON trees.** `Json` holds trees as cJSON does, and says what a tree means: arrays are sequences, objects are maps
from keys. `Sorting` is the merge sort of the utilities on values, `ListSort` the same algorithm on linked nodes, and
`SiblingList` the sibling list with its tail link. `TreeCopy` is cJSON_Duplicate on linked nodes. `Compare` says
exactly when each of the two comparisons holds, and when they agree.
`Pointer` covers JSON Pointer: escaping, the in-place decoder, indexes, finding and resolving. `Patch`, `PatchFrames`,
`PatchRoundTrip` and `PatchTheorem` cover JSON Patch; the round trip holds for ints, keys distinct even when case is
ignored, and arrays that fit size_t, if the keys at the ends of paths survive the in-place decoder (all keys without
`~` and `/` do) and the values put in can be copied. `StoredKeys` and `PatchExact` prove that it holds for no others.
`PatchMeaning` says of every patch, generated or not, what RFC 6902 makes of the value.
`MergePatch` proves merge_patch equal to section 2 of RFC 7396 and its generator's round trip, with its exact
condition on nulls. The generator walks by strcmp objects that it has sorted ignoring case, so below the first level,
or everywhere without case sensitivity, it needs keys on which the two orders agree.

**JSON text.** `Text` defines the printed text and the parser on values. `Grammar` is the grammar of RFC 8259 by
itself, with what the parser allows beyond it; `GrammarParse` proves that the parser accepts its texts and no others,
and `GrammarPrint` which of them is printed. `TextRoundTrip` proves that parsing undoes printing. `TextParser` is the parser over one buffer, `TextStrings` the reason why the two passes of parse_string
agree on space, and `TextPrinter` the printer into growing and fixed buffers with its exact space bound. cJSON.h asks
for 5 spare bytes in a fixed buffer (line 168); the code needs exactly 2, and the proof follows the code.

**mDNS cache and browsers.** `MdnsCache` models cache, browsers and runs; `MdnsViews` and `MdnsProofs` carry the
invariant through each update; `MdnsRuns` holds the main results. `MdnsHeard` keeps a plain table of what the records
said last and proves that cache and browsers agree with it; `MdnsBrowsers` is about the browsers themselves, and
`MdnsService` the same component step by step.

**mDNS sending, searching, TXT.** `TxQueue`, `TxProofs`, `TxProbes`, `TxAnnounce` and `TxService` take each critical
section as one step of a run. `Querier`, `QuerierTimes` and `QuerierService` do so for one-shot searches, whose result
lists are in `SearchResults` and `SearchHeard`.
`TxWrap` says when the transmit queue survives the wrap of its counter. `TxtRecord` is the TXT round trip.

**Layout and presence.** `Layout` is the word wrap, `Presence` pages, presses and the timeout on a 32-bit tick.

`Options`, `Sequences`, `Clock` and `MdnsCommon` hold what these parts share.

Bytes are characters, and a C string is its bytes before the terminator. Where the code and its documentation
differ, the model follows the code.

## Model

| member | source | states |
|---|---|---|
| CStrings.CompareStrings | managed_components/espressif__cjson/cJSON/cJSON_Utils.c:83-109 | The loop of compare_strings gives the sign of strcmp on the keys, or on the keys in lower case: zero exactly for equal keys, negative exactly when the first comes before the second. |
| Sorting.SortSorts | managed_components/espressif__cjson/cJSON/cJSON_Utils.c:484-593 | sort_list, as a function on key and item pairs, leaves a permutation of its input in ascending key order. |
| Sorting.SortStrict | managed_components/espressif__cjson/cJSON/cJSON_Utils.c:484-593 | With distinct keys the result is strictly ascending, which is what the two-cursor walks of compare_json, create_patches and generate_merge_patch rely on. |
| ListSort.SortList | managed_components/espressif__cjson/cJSON/cJSON_Utils.c:484-593 | On linked nodes the same algorithm terminates and returns a chain of exactly the input nodes, `next` and inner `prev` mutually inverse, in the order that Sorting.Sort gives; nothing is claimed about the head's `prev`. |
| ListSort.MergeLists | managed_components/espressif__cjson/cJSON/cJSON_Utils.c:536-589 | The relinking merge of two chains is one chain whose keys are the merge of the two key sequences. |
| ListSort.FindMiddle | managed_components/espressif__cjson/cJSON/cJSON_Utils.c:509-520 | The two-speed walk stops at the middle node of the chain, so both halves are shorter than the whole. |
| Compare.CompareJsonExact | managed_components/espressif__cjson/cJSON/cJSON_Utils.c:604-690 | compare_json, with its sort-and-zip over objects, holds exactly when the two trees mean the same (arrays as sequences, objects as maps). |
| Compare.CompareJsonUnraw | managed_components/espressif__cjson/cJSON/cJSON_Utils.c:604-690 | On every two trees with distinct keys, whatever their nodes, compare_json holds exactly when they mean the same but for the texts of raw nodes, which it does not look at. |
| Compare.LookupCompareExact | managed_components/espressif__cjson/cJSON/cJSON.c:3072-3195 | On every two trees with distinct keys, cJSON_Compare, with its two passes of lookups, holds exactly when they mean the same, raw texts included, and hold no invalid node. |
| Compare.CompareNodesExact | managed_components/espressif__cjson/cJSON/cJSON.c:3072-3105 | With its shortcut for one and the same node, cJSON_Compare differs from that only for a tree with an invalid node inside, which it takes for equal to itself. |
| Compare.ComparisonsAgreeExact | managed_components/espressif__cjson/cJSON/cJSON_Utils.c:604-690 | The two comparisons give the same answer exactly when the trees, if equal but for raw texts, are equal in those too and hold no invalid node. |
| Compare.ComparisonsAgree | managed_components/espressif__cjson/cJSON/cJSON_Utils.c:604-690 | So they agree on all trees with distinct keys and neither raw nor invalid nodes. |
| Compare.RawNodesDiffer | managed_components/espressif__cjson/cJSON/cJSON_Utils.c:617-685 | The simplest pair on which they disagree: two raw nodes with different texts. |
| TreeCopy.DuplicateItem | managed_components/espressif__cjson/cJSON/cJSON.c:2784-2873 | On linked nodes: the copy is NULL exactly when there is no item or Json.Duplicate fails; otherwise all its nodes and links are new, its tree equals that of the source, and in every child list of it `next` and `prev` are inverse and the `prev` of the head is the last node. The source is left as it is, also when its own lists lack the ways back. |
| TreeCopy.DuplicateRec | managed_components/espressif__cjson/cJSON/cJSON.c:2789-2873 | The recursion with its depth: NULL exactly when the depth and the height of the source pass CJSON_CIRCULAR_LIMIT. |
| TreeCopy.CloseList | managed_components/espressif__cjson/cJSON/cJSON.c:2859-2862 | Setting the `prev` of the head makes the copied children a list that is linked both ways. |
| Json.DuplicateExact | managed_components/espressif__cjson/cJSON/cJSON.c:2789-2873 | A copy succeeds, and is the same tree, exactly when the tree is no deeper than CJSON_CIRCULAR_LIMIT. |
| Pointer.PointerEncodedLength | managed_components/espressif__cjson/cJSON/cJSON_Utils.c:157-170 | The counted length is the length of the escaped key. |
| Pointer.EncodeStringAsPointer | managed_components/espressif__cjson/cJSON/cJSON_Utils.c:173-195 | The loop writes exactly the escaped key behind what the buffer already holds, and stays inside the buffer. |
| Pointer.DecodePointerInplace | managed_components/espressif__cjson/cJSON/cJSON_Utils.c:359-390 | The in-place loop, which writes a slash at index 1 and skips plain bytes after an escape, computes DecodeInPlace on the buffer. |
| Pointer.DecodeInPlaceExact | managed_components/espressif__cjson/cJSON/cJSON_Utils.c:359-390 | Decoding in place undoes escaping exactly for the keys that Decodable describes; it is not an inverse in general. |
| Pointer.TildeKeys | managed_components/espressif__cjson/cJSON/cJSON_Utils.c:359-390 | Concrete keys with a tilde that survive the decoder, and one that does not. |
| Pointer.ComparePointersLoop | managed_components/espressif__cjson/cJSON/cJSON_Utils.c:120-154 | The two-cursor loop computes ComparePointers, in both case modes. |
| Pointer.ComparePointersExact | managed_components/espressif__cjson/cJSON/cJSON_Utils.c:120-154 | A name matches the escape of a key, whatever token follows, exactly when name and key are equal up to the case mode. |
| Pointer.DecodeArrayIndexLoop | managed_components/espressif__cjson/cJSON/cJSON_Utils.c:274-299 | The digit loop refuses a leading zero and trailing garbage and otherwise gives the number in the width of size_t. |
| Pointer.IndexRoundTrip | managed_components/espressif__cjson/cJSON/cJSON_Utils.c:274-299 | Reading a printed index gives the index modulo the width of size_t; section 4 of RFC 6901. |
| Pointer.GetItemFromPointer | managed_components/espressif__cjson/cJSON/cJSON_Utils.c:301-346 | Walking the pointer step by step through the tree ends at the node that Resolve names, or at none. |
| Pointer.FoundExactlyInTree | managed_components/espressif__cjson/cJSON/cJSON_Utils.c:198-259 | A pointer is produced for every node of the tree and for no other. |
| Pointer.FindResolveRoundTrip | managed_components/espressif__cjson/cJSON/cJSON_Utils.c:198-346 | Resolving the pointer that was built for a node gives that node exactly when every key on the way is the first of its name and every index fits size_t; keys may hold tildes and slashes. |
| Pointer.DistinctReachable | managed_components/espressif__cjson/cJSON/cJSON_Utils.c:301-346 | In a tree with distinct keys and arrays that fit size_t every node is reachable in that sense. |
| Patch.Document.ApplyPatches | managed_components/espressif__cjson/cJSON/cJSON_Utils.c:1038-1094 | The loop over a patch array stops at the first status that is not zero and leaves the tree as it then is. |
| Patch.PatchList.Create | managed_components/espressif__cjson/cJSON/cJSON_Utils.c:1141-1279 | The differ, appending to its patch list as it walks, produces the composed patches of CreateEdits behind what the list held. |
| Patch.PatchList.CreateForMembers | managed_components/espressif__cjson/cJSON/cJSON_Utils.c:1215-1273 | The two-cursor walk over two sorted objects appends the edits of MemberEdits. |
| Patch.PatchList.CreateForItems | managed_components/espressif__cjson/cJSON/cJSON_Utils.c:1170-1213 | The array walk appends the edits of the common prefix, then of the leftovers. |
| Patch.PatchList.Compose | managed_components/espressif__cjson/cJSON/cJSON_Utils.c:1096-1134 | A patch carries the operation, the path with the escaped suffix behind it, and a copy of the value if it can be copied. |
| PatchFrames.ComposedPatchApplies | managed_components/espressif__cjson/cJSON/cJSON_Utils.c:807-1036 | apply_patch decodes what compose_patch built: applying the composed patch does the edit. |
| PatchFrames.CreateEditsPrefix | managed_components/espressif__cjson/cJSON/cJSON_Utils.c:1141-1279 | The edits below a path are the edits below the root with the path in front. |
| PatchFrames.CreateEditsShape | managed_components/espressif__cjson/cJSON/cJSON_Utils.c:1141-1279 | Every edit is a replacement of the root or lies strictly below it. |
| PatchFrames.EditUnderChild | managed_components/espressif__cjson/cJSON/cJSON_Utils.c:807-1036 | An edit below a child changes that child as it would change the child alone, and nothing beside it. |
| PatchExact.PatchRoundTripsExact | managed_components/espressif__cjson/cJSON/cJSON_Utils.c:1141-1279 | The JSON Patch round trip, exactly: for every two trees without raw nodes and with keys distinct even when case is ignored, in both case modes, applying the generated patch to any document that means the same as `from` returns 0 and gives a tree that means the same as `to` if and only if the trees are Usable for each other; RFC 6902. |
| PatchExact.StrayKeyFails | managed_components/espressif__cjson/cJSON/cJSON_Utils.c:359-390 | With a key at the end of a path that does not survive the in-place decoder the patch fails, whatever else it does, since no other key can be stored in its place. |
| PatchExact.WalkSpares | managed_components/espressif__cjson/cJSON/cJSON_Utils.c:1215-1273 | Whatever its keys, a walk over two objects leaves alone the members under every key that it neither stores to nor goes below. |
| StoredKeys.DecodeShifts | managed_components/espressif__cjson/cJSON/cJSON_Utils.c:359-390 | The in-place decoder as a stream: what stays at each place is the first byte between the place it writes to and the place it reads from. |
| StoredKeys.RankRises | managed_components/espressif__cjson/cJSON/cJSON_Utils.c:359-390 | A key that comes out of the decoder changed comes out with a longer first part that stays, so no keys change places. |
| StoredKeys.NobodysImage | managed_components/espressif__cjson/cJSON/cJSON_Utils.c:359-390 | Among keys with one that does not survive there is one that does not and that none, ignoring case, is stored as. |
| PatchTheorem.PatchRoundTrips | managed_components/espressif__cjson/cJSON/cJSON_Utils.c:1141-1279 | One half of it: for trees Usable for each other, applying the generated patch to any document that means the same as `from` returns 0 and gives a tree that means the same as `to`, in both case modes; RFC 6902. |
| PatchTheorem.NodeRoundTrip | managed_components/espressif__cjson/cJSON/cJSON_Utils.c:1141-1279 | The same for the edit list, at every node, whatever order the members of the document are in. |
| PatchRoundTrip.DecodableUsable | managed_components/espressif__cjson/cJSON/cJSON_Utils.c:359-390 | Trees are Usable when every key survives the in-place decoder and the target can be copied; Usable itself asks for the first only where a key ends the path of an edit, and for the second only where a value is put in. |
| PatchTheorem.AddedKeyExact | managed_components/espressif__cjson/cJSON/cJSON_Utils.c:359-390 | Where a key is added, that matters: it can be added by a patch exactly when it survives the in-place decoder. |
| PatchTheorem.ReplacedRootExact | managed_components/espressif__cjson/cJSON/cJSON_Utils.c:784-1036 | Where a value is put in, depth matters: a new root arrives exactly when it can be copied, and status 7 is returned otherwise. |
| PatchTheorem.RemovalExact | managed_components/espressif__cjson/cJSON/cJSON_Utils.c:426-482 | With distinct keys and in both case modes, a generated removal returns 0, and leaves the other fields as they were exactly when the first member found ignoring case is the member meant. |
| PatchTheorem.CaseCollision | managed_components/espressif__cjson/cJSON/cJSON_Utils.c:466-477 | The simplest case in which it is not: the case-sensitive patch removes the other member, because detach_path ignores its case argument. |
| PatchMeaning.PatchesPerform | managed_components/espressif__cjson/cJSON/cJSON_Utils.c:1038-1094 | Any patch document whose operations are those of section 4 of RFC 6902, on pointers for any names, succeeds exactly when its operations do one after the other on the value that the tree denotes, and then leaves a tree for the value they make. The operations are defined on values; keys are distinct. The last name of a path to add, remove, replace, move or copy to must survive the in-place decoder, and with case sensitivity a removed name must be that of one key at most, ignoring case. |
| PatchMeaning.PatchPerforms | managed_components/espressif__cjson/cJSON/cJSON_Utils.c:807-1036 | The same for one patch object of each of the six operations, by its `op`, `path`, `from` and `value`. |
| PatchMeaning.MoveMeans | managed_components/espressif__cjson/cJSON/cJSON_Utils.c:903-1036 | MOVE takes the value away from its old place first and adds it at the new one; it fails with status 5 and changes nothing when nothing is there, and when the value cannot be added it is lost. |
| PatchMeaning.CopiedMeans | managed_components/espressif__cjson/cJSON/cJSON_Utils.c:903-1036 | COPY adds the value at the old place, which stays, at the new one; its failures change nothing. |
| PatchMeaning.TestMeans | managed_components/espressif__cjson/cJSON/cJSON_Utils.c:831-837 | TEST succeeds exactly when the value at the path is the given one but for raw texts, and never changes anything. |
| PatchMeaning.AddedMeans | managed_components/espressif__cjson/cJSON/cJSON_Utils.c:936-1036 | ADD goes before an array element or at the end, and replaces a member that exists; its failures change nothing. |
| PatchMeaning.RemovedMeans | managed_components/espressif__cjson/cJSON/cJSON_Utils.c:860-1036 | REMOVE and REPLACE take the value away first; a REPLACE whose value is missing, too deep or cannot be added leaves the old one away. |
| PatchMeaning.IndexExact | managed_components/espressif__cjson/cJSON/cJSON_Utils.c:274-299 | A name is an array index exactly when it is a printed number, which counts modulo the width of size_t, or empty, which counts as zero. |
| PatchMeaning.ResolveMeans | managed_components/espressif__cjson/cJSON/cJSON_Utils.c:301-346 | The pointer for a list of names leads to a node exactly when the names lead to a value, and that is the value of the node. |
| MergePatch.Target.MergeObject | managed_components/espressif__cjson/cJSON/cJSON_Utils.c:1338-1378 | The loop over the members of a patch changes the target object as MergeMembers says. |
| MergePatch.MergeExact | managed_components/espressif__cjson/cJSON/cJSON_Utils.c:1321-1379 | merge_patch succeeds exactly when every value to be copied can be copied, and then means what section 2 of RFC 7396 computes. |
| MergePatch.ComparesUnder | managed_components/espressif__cjson/cJSON/cJSON_Utils.c:1391-1471 | compare_json decides equality under either reading of keys, its own or, when strcmp and the order ignoring case agree on the keys, the other. |
| MergePatch.GenerateExact | managed_components/espressif__cjson/cJSON/cJSON_Utils.c:1391-1471 | For keys fit for the mode, and whichever way keys are read afterwards, the generator returns NULL exactly for objects that mean the same; otherwise its patch means the field-wise difference. |
| MergePatch.MergePatchRoundTrip | managed_components/espressif__cjson/cJSON/cJSON_Utils.c:1321-1471 | For such keys, in both modes, merging the generated patch into any document that means the same as `from` gives `to` exactly when no null of `to` has to be put in. |
| MergePatch.KeysInOrderly | managed_components/espressif__cjson/cJSON/cJSON_Utils.c:1391-1471 | Trees whose keys are all among such on which strcmp and the order ignoring case agree are fit for both modes. |
| MergePatch.LowerKeysAgree | managed_components/espressif__cjson/cJSON/cJSON_Utils.c:1391-1471 | On keys in lower case the two orders agree. |
| MergePatch.FlatOrderly | managed_components/espressif__cjson/cJSON/cJSON_Utils.c:1391-1471 | Flat objects are fit for the case-sensitive mode whatever their keys. |
| MergePatch.NestedMemberLost | managed_components/espressif__cjson/cJSON/cJSON_Utils.c:1404-1455 | Where the orders disagree members are lost: the case-sensitive patch that should take one member out of a nested object empties it. |
| MergePatch.NoNullsKept | managed_components/espressif__cjson/cJSON/cJSON_Utils.c:1391-1471 | A `to` without null members outside arrays meets that condition. |
| MergePatch.MergeGeneratedValue | managed_components/espressif__cjson/cJSON/cJSON_Utils.c:1391-1471 | On meanings: RFC 7396 applied to the difference gives back the target exactly under that condition. |
| SiblingList.Parent.Append | managed_components/espressif__cjson/cJSON/cJSON.c:2027-2058 | On a list whose tail link is good, or an empty one, adding at the end is sequence append through the head's `prev`, and keeps the list invariant. When the head's `prev` is NULL nothing is linked, the item is dropped, and success is reported all the same. |
| SiblingList.Parent.Detach | managed_components/espressif__cjson/cJSON/cJSON.c:2258-2292 | Detaching takes out exactly that node, keeps the order of the others and the tail link, and leaves the node unlinked. |
| SiblingList.Parent.Insert | managed_components/espressif__cjson/cJSON/cJSON_Utils.c:693-728 | insert_item_in_array puts the node before the given position, or at the end for the position just behind the last, and refuses any position past that; the list invariant holds either way. |
| SiblingList.Parent.InsertItemInArray | managed_components/espressif__cjson/cJSON/cJSON.c:2334-2366 | cJSON_InsertItemInArray puts the node before the given position, or at the end for any position past it; it refuses a negative position, no item, and a node there that is not the head and has no `prev`, and then changes nothing. |
| SiblingList.Parent.Replace | managed_components/espressif__cjson/cJSON/cJSON.c:2368-2415 | Replacing changes one element of the sequence and no other, and keeps the list invariant. |
| SiblingList.Parent.GetArrayItem | managed_components/espressif__cjson/cJSON/cJSON.c:1922-1939 | The walk returns the node at the index, or NULL past the end. |
| TextRoundTrip.ParsePrint | managed_components/espressif__cjson/cJSON/cJSON.c:1368-1896 | Every text printed for nulls, booleans, ints, strings, arrays and objects, formatted or not and within the nesting limit, parses back to the same tree, with or without the demand for a terminator. |
| TextRoundTrip.ValueRoundTrip | managed_components/espressif__cjson/cJSON/cJSON.c:1368-1896 | The same inside any text: at any depth and before any text that cannot continue a number, the parser stops right behind the printed value. |
| TextRoundTrip.StringRoundTrip | managed_components/espressif__cjson/cJSON/cJSON.c:824-1073 | A printed string, escapes and all, parses back to the string. |
| TextRoundTrip.NumberRoundTrip | managed_components/espressif__cjson/cJSON/cJSON.c:307-408 | A printed int parses back to the int, whatever text follows that is not part of a number. |
| TextRoundTrip.PrintParsed | managed_components/espressif__cjson/cJSON/cJSON.c:1131-1304 | Whatever the parser accepts, from any buffer, can be printed, and its print parses to the same tree again. |
| GrammarParse.ParseExact | managed_components/espressif__cjson/cJSON/cJSON.c:1368-1420 | parse_value accepts exactly the texts that begin with a value of the grammar, and as its tree: RFC 8259 with ints for numbers, and beyond it every control character as a blank or inside a string, leading zeros, and four characters that are no hexadecimal number as the number zero. |
| GrammarParse.DocumentExact | managed_components/espressif__cjson/cJSON/cJSON.c:1147-1224 | A text is parsed to its end exactly when it is an optional byte order mark, blanks, a value of the grammar and blanks, and then as the tree that the value writes. |
| GrammarParse.StrictStr | managed_components/espressif__cjson/cJSON/cJSON.c:837-863 | For strings of section 7 of RFC 8259 the grammar asks for nothing more: the first pass ends at the quote that closes them. |
| GrammarParse.FirstPiece | managed_components/espressif__cjson/cJSON/cJSON.c:870-928 | Each step of the second pass takes one plain byte, one escape with a letter of its own, or one \u escape or pair with digits of either case, and writes what it stands for. |
| GrammarPrint.PrintExact | managed_components/espressif__cjson/cJSON/cJSON.c:1423-1494 | The text of a tree is that of its layout and no other: a minus sign for negative ints alone and no leading zero; quotes, backslashes and control characters escaped and nothing else, by a letter where there is one and by lower-case digits otherwise; no blank between tokens, or a blank behind a comma in an array and one member of an object to a line, indented by tabs, with a tab behind its colon. |
| GrammarPrint.LaidOk | managed_components/espressif__cjson/cJSON/cJSON.c:1423-1494 | That layout is a text of the grammar for the same tree, in both formats. |
| TextParser.Parser.ParseValue | managed_components/espressif__cjson/cJSON/cJSON.c:1368-1420 | The recursive descent, moving one offset and one depth counter, computes Text.ParseValue on what is left of the buffer, and restores the depth. |
| TextParser.Parser.ParseArray | managed_components/espressif__cjson/cJSON/cJSON.c:1497-1592 | The same for an array, entered at its bracket. |
| TextParser.Parser.ParseObject | managed_components/espressif__cjson/cJSON/cJSON.c:1662-1777 | The same for an object, entered at its brace. |
| TextParser.Parser.Parse | managed_components/espressif__cjson/cJSON/cJSON.c:1147-1224 | A whole buffer: byte order mark, leading blanks, one value, and the terminator if it is required. |
| TextParser.Parser.SkipWhitespace | managed_components/espressif__cjson/cJSON/cJSON.c:1090-1113 | Blanks are skipped; at the end of the buffer the offset steps back to the last byte. |
| TextParser.Parser.ParseString | managed_components/espressif__cjson/cJSON/cJSON.c:824-951 | The offset ends behind the closing quote and the value is the C string of the decoded bytes. |
| TextParser.FirstPass | managed_components/espressif__cjson/cJSON/cJSON.c:837-863 | The first pass finds the first quote that no backslash covers, and counts the escapes before it. |
| TextParser.SecondPass | managed_components/espressif__cjson/cJSON/cJSON.c:870-928 | Every byte the second pass writes, and the terminator, lies inside the array that the first pass sized, also when it fails; the bytes are the decoded literal. |
| TextParser.WriteLiteral | managed_components/espressif__cjson/cJSON/cJSON.c:703-821 | A \u escape or a surrogate pair becomes its UTF-8 bytes; a bad one writes nothing. |
| TextStrings.DecodedFits | managed_components/espressif__cjson/cJSON/cJSON.c:837-928 | For every literal that ends in an unescaped quote, however a bad \u escape misaligns the passes, the decoded length is at most the literal length less the escapes counted. |
| TextStrings.EscapesInStretch | managed_components/espressif__cjson/cJSON/cJSON.c:837-863 | Any k bytes of a literal hold at most half of k plus one escape starts. |
| TextStrings.EscapedCodePoint | managed_components/espressif__cjson/cJSON/cJSON.c:703-821 | Every code point that is not a surrogate, written as one escape or as a surrogate pair with digits of either case, decodes to its own UTF-8. |
| TextStrings.Hex4Exact | managed_components/espressif__cjson/cJSON/cJSON.c:666-700 | Four digits of either case are read as the number they spell, and four characters that are not all digits as zero. |
| TextStrings.Utf8Spells | managed_components/espressif__cjson/cJSON/cJSON.c:766-815 | The bytes written for a code point spell that code point for a reference decoder. |
| TextPrinter.Printer.Ensure | managed_components/espressif__cjson/cJSON/cJSON.c:490-573 | Room is made exactly when the offset, the need and one byte fit the capacity, and what has been printed is kept. |
| TextPrinter.Printer.UpdateOffset | managed_components/espressif__cjson/cJSON/cJSON.c:576-586 | The strlen walk stops exactly behind the text that was written. |
| TextPrinter.Printer.PrintString | managed_components/espressif__cjson/cJSON/cJSON.c:954-1073 | The counted size is right: the quoted string is written in full, exactly when two more bytes than it takes fit. |
| TextPrinter.Printer.PrintValue | managed_components/espressif__cjson/cJSON/cJSON.c:1423-1494 | Printing succeeds exactly when the tree is printable at its depth and offset, text and two bytes fit the capacity; then the text stands behind what was printed, terminated. |
| TextPrinter.Printer.PrintArray | managed_components/espressif__cjson/cJSON/cJSON.c:1595-1659 | The same for arrays. |
| TextPrinter.Printer.PrintObject | managed_components/espressif__cjson/cJSON/cJSON.c:1780-1896 | The same for objects, formatted or not. |
| TextPrinter.PrintPreallocated | managed_components/espressif__cjson/cJSON/cJSON.c:1348-1365 | A fixed buffer suffices exactly when it has two bytes more than the text. |
| TextPrinter.PrintBuffered | managed_components/espressif__cjson/cJSON/cJSON.c:1317-1346 | A growing buffer gives the same text whatever its first size. |
| TextPrinter.Print | managed_components/espressif__cjson/cJSON/cJSON.c:1239-1304 | cJSON_Print and cJSON_PrintUnformatted give the text of the tree exactly when it is printable and within INT_MAX. |
| MdnsRuns.BrowsersSeeTheCache | managed_components/espressif__mdns/mdns_cache.c:414-977 | After every event of every run, what a running browser has been told, with TTL zero deleting, is exactly the projection of the cached services of its type that have a PTR record. |
| MdnsHeard.BrowsersHear | managed_components/espressif__mdns/mdns_cache.c:414-977 | In every run of packets with fully named SRV and TXT records, a running browser has been told, on balance, of exactly the services of its type whose PTR record was heard and not taken back, each with the TTL of that record, the host and port of its last SRV record, the addresses last heard of that host, and the items of its last TXT record or of one that txt_list_equal takes for it. |
| MdnsHeard.PtrShows | managed_components/espressif__mdns/mdns_cache.c:414-475 | A PTR record sets the presence and TTL of the one service of its link and names, which is made if need be, and a goodbye takes that service away; nothing else that was heard changes. |
| MdnsHeard.SrvHeardShows | managed_components/espressif__mdns/mdns_cache.c:505-566 | A SRV record gives that service the priority, weight, port and TTL of the record and puts it under the host of the record, with the addresses known of that host; nothing else changes. |
| MdnsHeard.SrvGoodbyeShows | managed_components/espressif__mdns/mdns_cache.c:511-530 | A SRV goodbye takes those back, and the service with its last record. |
| MdnsHeard.TxtShows | managed_components/espressif__mdns/mdns_cache.c:644-699 | The same for TXT records and their goodbyes. |
| MdnsHeard.AddrUpdateShows | managed_components/espressif__mdns/mdns_cache.c:701-773 | An address heard of a host that has services is known with its TTL to all of them, each address once; a goodbye takes it back; other hosts stay as they are. |
| MdnsHeard.TypeForgotten | managed_components/espressif__mdns/mdns_cache.c:387-412 | The services of a type that loses its last browser are forgotten, and no others. |
| MdnsHeard.SameItemsExact | managed_components/espressif__mdns/mdns_cache.c:608-620 | Item lists with each key once are taken for one another exactly when they say the same of every key, ignoring case. |
| MdnsHeard.ChangeUnheard | managed_components/espressif__mdns/mdns_cache.c:608-620 | With a key twice a changed list can be taken for the one cached, and then browsers never hear of it. |
| MdnsBrowsers.OneBrowserEach | managed_components/espressif__mdns/mdns_browser.c:122-358 | In every run no two browsers of one type are on; making one for a type leaves one on, deleting leaves none. |
| MdnsRuns.CacheInOrder | managed_components/espressif__mdns/mdns_cache.c:81-785 | In every reachable cache: one entry for each host and link and none without a service; one service for each link, instance, type and protocol over all entries; each with a record; PTR implies a positive TTL; nothing stays marked between packets. |
| MdnsRuns.CacheInPacket | managed_components/espressif__mdns/mdns_cache.c:81-785 | The same inside a packet, after any of its records: a service is marked for the browsers exactly when one of its records has changed, and what is not marked is shown as it is. |
| MdnsRuns.PacketKeeps | managed_components/espressif__mdns/mdns_receive.c:1396-1400 | A processed packet, whatever records it holds, ends with exact views and a clean cache. |
| MdnsRuns.StartBrowseKeeps | managed_components/espressif__mdns/mdns_browser.c:188-200 | A browser that starts with a replay of the cache sees it exactly. |
| MdnsRuns.FinishBrowseKeeps | managed_components/espressif__mdns/mdns_browser.c:135-149 | The end of a browser, which may drop all services of its type, leaves every other browser's view exact. |
| MdnsRuns.RemoveTypeBag | managed_components/espressif__mdns/mdns_cache.c:387-412 | remove_service_caches takes every service of the type and no other. |
| MdnsProofs.PtrKeeps | managed_components/espressif__mdns/mdns_cache.c:414-475 | A PTR record or goodbye keeps the views right: what is clean is shown, and nothing is shown that is not cached. |
| MdnsProofs.SrvKeeps | managed_components/espressif__mdns/mdns_cache.c:505-566 | The same for SRV records, also when the service moves to another host. |
| MdnsProofs.TxtKeeps | managed_components/espressif__mdns/mdns_cache.c:644-699 | The same for TXT records. |
| MdnsProofs.AddrKeeps | managed_components/espressif__mdns/mdns_cache.c:701-773 | The same for addresses, which mark every service of the host. |
| MdnsProofs.SyncSettles | managed_components/espressif__mdns/mdns_cache.c:933-947 | Draining the marks makes every view exact and leaves no mark. |
| MdnsProofs.MoveBag | managed_components/espressif__mdns/mdns_cache.c:333-357 | Moving a service changes its host and addresses and no other cached service, even when its old entry goes. |
| MdnsViews.NoticesView | managed_components/espressif__mdns/mdns_browser.c:397-431 | Notices about many services leave each shown as it is, and change nothing else in the view. |
| MdnsViews.GoodbyeView | managed_components/espressif__mdns/mdns_browser.c:433-450 | A goodbye takes exactly the one service from the view. |
| MdnsService.Mdns.UpdatePtr | managed_components/espressif__mdns/mdns_cache.c:414-475 | The step-by-step update reaches the state, the notices and the result of MdnsCache.UpdatePtr. |
| MdnsService.Mdns.UpdateSrv | managed_components/espressif__mdns/mdns_cache.c:505-566 | The same for SRV records, with the field-by-field comparison and the move. |
| MdnsService.Mdns.UpdateTxt | managed_components/espressif__mdns/mdns_cache.c:644-699 | The same for TXT records. |
| MdnsService.Mdns.UpdateAddr | managed_components/espressif__mdns/mdns_cache.c:701-773 | The same for addresses, in both creation modes. |
| MdnsService.Mdns.ProcessSync | managed_components/espressif__mdns/mdns_cache.c:933-947 | The nested loops tell the browsers about each marked service in list order and clear the marks. |
| MdnsService.Mdns.RemoveServiceCaches | managed_components/espressif__mdns/mdns_cache.c:387-412 | Unlinking while walking leaves exactly the services of other types, in order, and no bare entry. |
| MdnsService.Mdns.NotifyBrowse | managed_components/espressif__mdns/mdns_cache.c:949-964 | The replay to one browser visits every cached service once, in list order. |
| MdnsService.Mdns.Receive | managed_components/espressif__mdns/mdns_receive.c:1396-1400 | A packet's records in order and then the synchronisation are one step of the runs above. |
| MdnsService.Mdns.NewBrowse | managed_components/espressif__mdns/mdns_browser.c:288-324 | A browser is added in front unless one of its type is live. |
| MdnsService.Mdns.DeleteBrowse | managed_components/espressif__mdns/mdns_browser.c:326-358 | The first live browser of the type goes off. |
| MdnsService.SearchService | managed_components/espressif__mdns/mdns_cache.c:154-179 | The nested search finds the first matching service on the link, with its owner. |
| MdnsService.EqualTxt | managed_components/espressif__mdns/mdns_cache.c:582-620 | The nested loops decide equal counts and containment of the first list in the second; no value is not the empty value. |
| TxProofs.TransmitOrder | managed_components/espressif__mdns/mdns_send.c:1634-1854 | In an interleaving it holds all the time that the queue is in order of time, queued packets are a prefix of it and are the live pending actions in their order, and the next action takes its packet from the head if it is still there, exactly when the action queue never refuses a packet and accepts a later one in the same pass of the timer. |
| TxProofs.TimerKeepsExact | managed_components/espressif__mdns/mdns_send.c:1720-1752 | In any ordered state, one pass of the timer keeps the order exactly when no due packet that is refused stands before one that is accepted. |
| TxProofs.MarkedPrefixExact | managed_components/espressif__mdns/mdns_send.c:1734-1750 | The packets marked as queued form a prefix exactly under that condition. |
| TxWrap.InsertExact | managed_components/espressif__mdns/mdns_send.c:1634-1652 | On stored 32-bit times, compared without a sign, a packet goes to its place exactly when no wrap of the counter lies between it and the packets up to the first that is later. |
| TxWrap.SendPacketsWraps | managed_components/espressif__mdns/mdns_send.c:1720-1752 | The timer compares with a sign: on stored times it does the same as on unbounded ones for times less than half the range from now. |
| TxWrap.WrapDelays | managed_components/espressif__mdns/mdns_send.c:1634-1752 | What a wrap does: a packet from behind it is put in front of an earlier one, which is not sent while the other is not due. |
| TxProofs.ActionFindsHead | managed_components/espressif__mdns/mdns_send.c:1843-1854 | A transmit action whose packet is still in the queue is never skipped. |
| TxProofs.SendAfterKeeps | managed_components/espressif__mdns/mdns_send.c:1634-1652 | Inserting a packet behind all that are not later keeps that order. |
| TxProofs.ClearKeeps | managed_components/espressif__mdns/mdns_send.c:1673-1693 | Clearing one interface keeps it, and leaves the other packets in their order. |
| TxProofs.TimerKeeps | managed_components/espressif__mdns/mdns_send.c:1720-1752 | Under that condition the packets that are due are queued in queue order, for any set of refusals. |
| TxProbes.ThreeSpacedProbes | managed_components/espressif__mdns/mdns_pcb.c:211-259 | In every run, with restarts of all control blocks, failed probes and services that go away, whenever a control block goes from probing to announcing exactly three probes have gone out since it began to probe, each more than 250 ms after the one before; section 8.1 of RFC 6762. |
| TxAnnounce.ThreeAnnouncements | managed_components/espressif__mdns/mdns_pcb.c:211-259 | In every run, whenever the handling of a packet takes a control block from announcing to running, exactly three packets of it have gone out since it last began to announce. |
| TxAnnounce.SpacedAnnouncements | managed_components/espressif__mdns/mdns_pcb.c:211-259 | After its probes, and as long as nothing is queued for the interface, taken from it or begun on it, a control block sends exactly three announcements, the first more than 250 ms after the last probe and each of the others more than a second after the one before, and always has one in the queue until the third; section 8.3 of RFC 6762. |
| TxAnnounce.AnnouncementsWait | managed_components/espressif__mdns/mdns_pcb.c:43-259 | In every run an announcing control block has a packet in the queue, as long as a packet emptied by the removal of a service has lost its answers by it. |
| TxAnnounce.AnnounceBegins | managed_components/espressif__mdns/mdns_pcb.c:43-84 | A running interface begins to announce with a packet due at once, and an announcing one with a packet begins again. |
| TxAnnounce.FirstProbeWaits | managed_components/espressif__mdns/mdns_pcb.c:339-387 | The first probe of an interface waits 120 to 247 ms, or 1000 to 1127 ms after more than five failures. |
| TxAnnounce.RestartProbesFor | managed_components/espressif__mdns/mdns_responder.c:265-287 | After a restart every interface that was ready probes for exactly the services that are wished, up to 255 of them. |
| TxAnnounce.ServiceForgotten | managed_components/espressif__mdns/mdns_pcb.c:261-300 | A service that goes away is not probed for any more, the others are; the probing ends with the last of them unless an address is probed for, and an announcement ends when it loses its answers. |
| TxProbes.StartProbeProbing | managed_components/espressif__mdns/mdns_pcb.c:339-424 | Beginning to probe leaves exactly one packet of the interface in the queue. |
| TxProbes.RestartProbing | managed_components/espressif__mdns/mdns_responder.c:265-287 | A restart clears the whole queue, and afterwards every control block that probes has its one packet again. |
| TxProbes.RemoveProbing | managed_components/espressif__mdns/mdns_send.c:1784-1831 | A service that goes away never takes the packet of a control block that goes on probing. |
| TxProbes.ProbedExact | managed_components/espressif__mdns/mdns_pcb.c:342-424 | Beginning to probe while probing adds the services that are new to those probed for, each once, and loses none while they are fewer than 256. |
| TxProbes.ActProbing | managed_components/espressif__mdns/mdns_send.c:1833-1854 | Handling a packet keeps one packet for every control block that probes, not due before its next probe may go. |
| TxProbes.RefusalStrands | managed_components/espressif__mdns/mdns_send.c:1734-1750 | What a refusal before an acceptance can lead to: when the interface of the refused packet goes down, the next packet is stranded at the head, and nothing behind it is sent in any run of timers, actions and answers. |
| TxProbes.StrandedStays | managed_components/espressif__mdns/mdns_send.c:1720-1752 | No timer, action or answer frees a stranded head. |
| TxService.Transmitter.SendAfter | managed_components/espressif__mdns/mdns_send.c:1634-1652 | The loop inserts where Insert says. |
| TxService.Transmitter.ClearIf | managed_components/espressif__mdns/mdns_send.c:1673-1693 | The two loops, at the head and behind it, drop exactly the packets of the interface. |
| TxService.Transmitter.SendPackets | managed_components/espressif__mdns/mdns_send.c:1720-1752 | The two loops pass the queued packets and queue those due, with refusals put back. |
| TxService.Transmitter.SendPacket | managed_components/espressif__mdns/mdns_send.c:1843-1854 | The next action sends the head only if it is its packet and queued, and is dropped otherwise. |
| TxService.Transmitter.InitPcbProbe | managed_components/espressif__mdns/mdns_pcb.c:389-424 | Beginning to probe clears the interface, merges the services, and inserts one packet after the delay that the failures call for, or none without a host name. |
| TxService.Transmitter.RestartAllPcbs | managed_components/espressif__mdns/mdns_responder.c:265-287 | The emptied queue and the walk over the table of control blocks are one step of the runs above. |
| TxService.Transmitter.HandlePacket | managed_components/espressif__mdns/mdns_pcb.c:211-259 | The state switch and its rescheduling are one Handle step. |
| Querier.EachSearchEndsOnce | managed_components/espressif__mdns/mdns_querier.c:60-241 | In every interleaving each search ever made is in one place; one that left the list through search_finish had its notifier called and its semaphore given exactly once, a deleted one at most once, any other never. |
| Querier.FinishKeeps | managed_components/espressif__mdns/mdns_querier.c:81-94 | Ending a search that may be gone already keeps that. |
| Querier.DeleteKeeps | managed_components/espressif__mdns/mdns_querier.c:786-808 | A deletion in the window between the timer and the end action keeps it too. |
| Querier.ResultsInOrder | managed_components/espressif__mdns/mdns_querier.c:541-757 | In every interleaving, for searches that run, have ended or were deleted: the count is the length of the result list modulo 256; with a limit it is the length, never above the limit; no two results stand for the same thing (one link, instance or host, by the kind of search); and no result has an address twice. |
| QuerierTimes.SendsInTime | managed_components/espressif__mdns/mdns_querier.c:166-193 | In every interleaving the query of a search is handed on only between its beginning and its timeout, and each time more than a second after the time before. |
| QuerierTimes.TimerAsks | managed_components/espressif__mdns/mdns_querier.c:166-193 | A timer event asks for the end of exactly the searches that are on and past their timeout, and for the sending of exactly those on and not past it that are new or were last tried over a second ago, where there is room for the action. |
| QuerierTimes.PacketEndsComplete | managed_components/espressif__mdns/mdns_querier.c:230-241 | In every run the end of a packet ends exactly the searches with a limit that have that many results. |
| QuerierTimes.DeleteExact | managed_components/espressif__mdns/mdns_querier.c:786-808 | Deleting changes nothing for a search that is not off, and takes exactly that search from the list when it is. |
| QuerierTimes.RecordReaches | managed_components/espressif__mdns/mdns_querier.c:246-320 | An address reaches every search that is on and wants it, any other record the first of them alone. |
| QuerierTimes.NewSearchAsks | managed_components/espressif__mdns/mdns_querier.c:461-517 | A new search asks for the kind and the names it was made for, empty names being none. |
| SearchHeard.SrvHeard | managed_components/espressif__mdns/mdns_querier.c:678-715 | A SRV record gives one result for each host, with the host, the port heard first and the names searched for, when there is room; nothing else changes but the TTL of a result that is there. |
| SearchHeard.TxtHeard | managed_components/espressif__mdns/mdns_querier.c:541-586 | A TXT record gives the one result of its link the items heard first, or opens it with them when there is room. |
| SearchHeard.AddressHeard | managed_components/espressif__mdns/mdns_querier.c:620-673 | An address joins the addresses of the result of its host or link, once, or opens one with the host and the address. |
| SearchHeard.PtrHeard | managed_components/espressif__mdns/mdns_querier.c:720-757 | A PTR record gives one result for each instance, with its names, when there is room. |
| SearchHeard.InstanceHeard | managed_components/espressif__mdns/mdns_receive.c:1072-1234 | In a search for PTR records the first SRV record of an instance gives its result the host and port, and the first TXT record the items; the result is made when it is not there and there is room. |
| SearchHeard.ServiceWanted | managed_components/espressif__mdns/mdns_querier.c:246-320 | A search for the SRV or TXT records of a service wants exactly those of its names, in any case. |
| SearchHeard.AddressWanted | managed_components/espressif__mdns/mdns_querier.c:246-320 | A search for addresses wants exactly those of its host and kind, a search for services those of hosts that it has found. |
| SearchHeard.OthersUnwanted | managed_components/espressif__mdns/mdns_querier.c:246-320 | Records of another kind than a search is for are not wanted by it. |
| SearchResults.UpdateKeeps | managed_components/espressif__mdns/mdns_querier.c:541-757 | Whatever record a search hears, all of that is kept, and every result found before stays where it was from the end of the list, with what it had, more addresses at most, and a TTL that is not longer. |
| SearchResults.OpenedKeeps | managed_components/espressif__mdns/mdns_querier.c:559-577 | A new result goes in front when there is room, and the count goes with it. |
| SearchResults.AddAddressKeeps | managed_components/espressif__mdns/mdns_querier.c:620-673 | The same for an address: it joins the first result of its link or host that is found, or opens one. |
| Querier.RecordKeeps | managed_components/espressif__mdns/mdns_receive.c:958-1340 | A record, heard by the first search that wants it or, for an address, by all of them, keeps every search in its place and in order. |
| QuerierService.ResultAddTxt | managed_components/espressif__mdns/mdns_querier.c:541-586 | The loop over the results and the new result are AddTxt. |
| QuerierService.ResultAddAddress | managed_components/espressif__mdns/mdns_querier.c:591-673 | The loops for the two groups of searches, with result_add_ip, are AddAddress. |
| QuerierService.ResultAddSrv | managed_components/espressif__mdns/mdns_querier.c:678-715 | The loop over the results and the new result are AddSrv. |
| QuerierService.ResultAddPtr | managed_components/espressif__mdns/mdns_querier.c:720-757 | The loop over the results and the new result are AddPtr, with the result that is returned, if any. |
| QuerierService.ParseRecord | managed_components/espressif__mdns/mdns_receive.c:1012-1234 | What the parser does with a record for the search that it found, with its own loops over the results, is Update. |
| QuerierService.SearchOnce.FindFrom | managed_components/espressif__mdns/mdns_querier.c:246-320 | The walk stops at the next running search that wants the record. |
| QuerierService.SearchOnce.HearRecord | managed_components/espressif__mdns/mdns_receive.c:958-1340 | A record in the parser, with the walk on from search to search for an address, is one step of the runs above. |
| QuerierService.SearchOnce.StartStop | managed_components/espressif__mdns/mdns_querier.c:166-193 | The walk of the timer is one step of the runs above. |
| QuerierService.SearchOnce.QueryDone | managed_components/espressif__mdns/mdns_querier.c:230-241 | Ending searches while walking the list ends exactly the full ones, in order. |
| QuerierService.SearchOnce.AsyncDelete | managed_components/espressif__mdns/mdns_querier.c:786-808 | A running search is not deleted; one that is off is, from the list if it is still there. |
| QuerierService.SearchOnce.SearchFinish | managed_components/espressif__mdns/mdns_querier.c:81-94 | The search is taken off the list, told once and its semaphore given. |
| TxtRecord.TxtRoundTrip | managed_components/espressif__mdns/mdns_receive.c:195-411 | The items of a record read back in order, an empty value as no value, for keys that are not empty and hold no equals sign and entries of at most 255 bytes; section 6 of RFC 6763. |
| TxtRecord.ReadBackExact | managed_components/espressif__mdns/mdns_receive.c:195-411 | Entries of at most 255 bytes read back as they were written exactly when every key is a C string that is not empty and holds no equals sign. |
| TxtRecord.EqualsInKey | managed_components/espressif__mdns/mdns_receive.c:222-269 | An equals sign in a key splits it: the rest reads back as the value. |
| TxtRecord.AppendEntry | managed_components/espressif__mdns/mdns_send.c:115-133 | One entry is written in full, or nothing is. |
| TxtRecord.AppendData | managed_components/espressif__mdns/mdns_send.c:1022-1042 | The record's data is written exactly when all entries fit the packet; an empty record is one zero byte. |
| TxtRecord.CountItems | managed_components/espressif__mdns/mdns_receive.c:195-217 | The counting loop, its early stop and its error. |
| TxtRecord.CreateList | managed_components/espressif__mdns/mdns_receive.c:354-411 | The parsing loop builds the list that Parse describes, skipping items without a key. |
| Layout.LayoutBody | main/presence_layout.c:24-94 | The loop ends although its position jumps back, and gives lines of at most 21 bytes that end at a newline, at the end or where they must wrap, in order, with only blanks and passed newlines between them; with more slots than bytes the whole body is laid out. |
| Layout.LayoutDetermined | main/presence_layout.c:24-94 | Those properties leave no choice: two layouts of one body are equal. |
| Layout.OnlyBlanksDropped | main/presence_layout.c:24-94 | A byte that is on no line is a space, a tab or a newline. |
| Layout.SequencesStayWhole | main/presence_layout.c:5-22 | A sequence that utf8_sequence_length recognises is on one line or on none, for arbitrary bytes. |
| Layout.LinesInOrder | main/presence_layout.c:24-94 | Lines are ordered and disjoint. |
| Presence.Display.ShowMessage | main/presence.c:100-123 | A message makes the device unread on its first page, with all lines of the shortened body laid out in 512 slots. |
| Presence.Display.NextPage | main/presence.c:125-139 | A press reads on by one page, stops at the last, sets the timeout, and does nothing to an idle device. |
| Presence.Display.Acknowledge | main/presence.c:141-152 | A long press makes the device idle. |
| Presence.Display.Update | main/presence.c:154-167 | A reading device goes idle exactly when its timeout has passed since the last press, an unread one stays unread, when looks at the clock are less than half the tick range apart. |
| Presence.Display.Rows | main/presence.c:58-76 | The rows drawn are the lines of the current page, and empty past the last line. |
| Clock.ReachedExact | main/presence.c:161-162 | The wrapped signed comparison agrees with unbounded time for moments less than half the range apart. |
| Presence.PagesShowLines | main/presence.c:58-76 | Page after page, the rows drawn show every line of the message once and in order, and then less than a page of blanks. |
| Presence.RunSound | main/presence.c:100-167 | In every run of messages, presses, ticks and timely updates the page is one of the pages, and a reading device was last looked at before its time ran out. |
| Presence.UnreadStays | main/presence_state.c:10-44 | Without a press, no run of messages, ticks and updates takes a device from unread, or from the first page. |
| Presence.ReadsOn | main/presence_state.c:17-27 | As long as a device is not idle and gets no message, its page is the number of presses further on, up to the last. |
| Presence.ReadingUntilTimeout | main/presence.c:154-167 | Left alone, a reading device goes idle exactly at the first update that comes no earlier than its timeout after the last press. |
| Presence.SafePrefixExact | main/presence.c:29-36 | The shortened text ends between two UTF-8 sequences exactly when its last byte is a sequence of its own. |
| Presence.LastSequenceCut | main/presence.c:29-36 | Even a text that fits loses the second byte of a two-byte sequence at its end. |
| Presence.CountFits | main/presence.c:112-116 | The fallback for a page count out of range is never needed. |

## Left out

- Patch.Document.ApplyPatches: works on tree values, not on linked nodes, so relinking and sharing inside apply_patch are not captured; ListSort and SiblingList show the linked lists.
- PatchTheorem.PatchRoundTrips: arrays are limited to what size_t can index and trees to CJSON_CIRCULAR_LIMIT, which the code enforces; the members of a result are compared as a map, not in their order. The document is one with intact sibling links: the generator sorts `from` and `to` in place and leaves the `prev` of their heads stale, so neither may itself be patched or appended to afterwards, where an addition can be dropped.
- PatchMeaning.PatchesPerform: patches whose `path` or `from` is no pointer at all, or holds a bad escape, are not covered; a last name that does not survive the in-place decoder is stored as another key (StoredKeys.DecodeShifts says which).
- Compare.CompareNodesExact: the shortcut is modelled for the two nodes given, not for nodes that two different trees share.
- Compare.CompareJsonExact: sorting both objects in place is modelled as sorting copies, so the order of members left behind is not captured; the same holds for the TEST operation, create_patches and generate_merge_patch.
- TreeCopy.DuplicateItem: allocation succeeds; the links of a node are kept in an object of their own beside it, and references and constant keys are copied like any other.
- ListSort.SortList: the key of a node does not change while it is linked.
- MergePatch.GenerateExact: `to` is a tree; a NULL `to`, for which the generator returns a null node, is not modelled.
- TextRoundTrip.NumberRoundTrip: numbers are ints; a number with a fraction or exponent, or outside the range of int, is reported by the parser model as Beyond, with nothing said about it.
- TextParser.Parser.Parse: the error position and the parse end of a failure are not modelled, nor are parse trees as linked nodes.
- TextPrinter.Printer.Ensure: allocation succeeds, and the buffer holds no more than INT_MAX bytes, as cJSON_PrintBuffered and cJSON_PrintPreallocated demand.
- MdnsHeard.BrowsersHear: SRV and TXT records with an empty name never reach the cache (mdns_receive.c, lines 1105 and 1186), so the runs have none.
- TxAnnounce.AnnouncementsWait: which packets a service leaves empty, and which lose their answers, is given by the environment; that the first implies the second for announcements is assumed of it.
- MdnsRuns.BrowsersSeeTheCache: allocation succeeds; names are cut to no length; a packet is its list of cache updates, so the parsing of packets and the choice of records by running browsers are not modelled.
- MdnsService.Mdns.Receive: entries and services are values in sequences, so their addresses and links are not captured.
- TxProofs.TransmitOrder: times are unbounded numbers in the runs; TxWrap.InsertExact says for each insertion when the wrap of the millisecond counter does no harm. A packet is a fresh identity, its contents are not modelled.
- TxService.Transmitter.HandlePacket: packet contents are not modelled, nor the case that an announcement cannot be made from a probe for want of memory.
- TxProbes.RemoveProbing: which packets a service leaves empty is given by the environment; a probe that is still for something keeps its questions, since the packet has one for each service it probes for and one for the host.
- SearchResults.UpdateKeeps: allocation succeeds; comparing a name with a NULL string of a search, which C leaves undefined, matches nothing; PTR records that a browser takes never come here.
- TxtRecord.CreateList: allocation succeeds; result_txt_create, the array form of the same parser, is not modelled.
- Layout.LayoutBody: offsets are unbounded; for the 511 bytes of the device they fit the 16 bits of the source.
- Presence.Display.Update: the 10 seconds are a number of ticks given to the display, below half the tick range.
- Presence.Display.ShowMessage: source and title lines, and drawing itself, are not modelled.
- apply_patch with a MOVE or COPY whose `from` is no string: the code reads a NULL pointer; the model gives status 5.
- Floating point: compare_double, printing and reading of numbers that are not ints.
- DNS names and their compression, packet headers, and the other record types on the wire.
- cJSON_Minify, the cJSON_Create and cJSON_Add helpers, references and type predicates: easy members, or no property to keep.
- Device and network input and output, locks and the operating system: each critical section is one step.

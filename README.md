# graphlite storage layer in Dafny

This project models the storage layer of graphlite, a small graph database written in Go. It covers the little-endian integer codec of `util/` and the record stores of `data/`:

- the id allocators: the recyclable 16- and 32-bit id stores, with one class over both widths, and the row allocator of the text store;
- the text store, which keeps length-prefixed strings at row addresses behind a list of pending writes;
- the label store, an AVL tree of 21-byte label records linked by id, behind a map of pending writes;
- the fixed-layout records and their stores: attribute (15 bytes), edge (22), vertex (13) and class (9);
- the linked lists kept inside those records, and the caches built from them: each owner's attribute chain, each vertex's outbound and inbound edge chains, and the class tree (`sub`/`nextSub`) with each class's set of vertex ids.

Every `os.File` is a byte sequence (`Bytes`). `FileModel.WriteAt` extends the file with zero bytes where Go's `WriteAt` would, and a short `ReadAt` is a read of the bytes that exist. Go's `Assert` calls become preconditions. A Go panic is the `Panicked` case of `Outcome`, and a returned `*DataError` is `None` or an error case. Integer widths are subset types of `int`, with every wrap-around written out as `%`.

Where the Go code is wrong, the model has two members. The as-written member follows the code, and a lemma shows the input that goes wrong. The corrected member is what the rest of the model uses, and the intended property is proved about it (see "## Findings").

Files: `conversion.dfy`, `file_model.dfy`, `id_store.dfy`; the label tree in `label.dfy`, `label_tree.dfy`, `label_edit.dfy`, `label_remove.dfy`, `label_entries.dfy`, `label_search.dfy` and `label_store.dfy`; `text.dfy`, `text_id.dfy`, `text_id_store.dfy`, `text_store.dfy`; `attribute.dfy`, `attribute_map.dfy`, `attribute_store.dfy`, `attribute_chain.dfy`, `attributable.dfy`; `edge.dfy`, `edge_list.dfy`, `edge_map.dfy`, `edge_store.dfy`, `edge_chain.dfy`; `vertex.dfy`, which holds both the vertex and its store; and `class.dfy`, `class_id_index.dfy`, `class_store.dfy`.

## Model

| member | source | states |
|---|---|---|
| Conversion.Decode | util/conversion.go:10-41 | `binary.Read` of a `width`-byte little-endian integer: it succeeds exactly when the slice has at least `width` bytes, with the value of the first `width` bytes; an empty slice gives `Eof`, a short non-empty one `UnexpectedEof` |
| Conversion.BytesToUint16 | util/conversion.go:37-41 | succeeds exactly on 2 or more bytes, with the value `b[0] + 256 * b[1]` |
| Conversion.BytesToUint32 | util/conversion.go:23-27 | succeeds exactly on 4 or more bytes, with the little-endian value of the first 4 |
| Conversion.BytesToUint64 | util/conversion.go:10-14 | succeeds exactly on 8 or more bytes, with the little-endian value of the first 8 |
| Conversion.Uint16ToBytes | util/conversion.go:43-48 | 2 bytes, low byte first, whose little-endian value is the number |
| Conversion.Uint32ToBytes | util/conversion.go:29-34 | 4 bytes, low byte first, whose little-endian value is the number |
| Conversion.Uint64ToBytes | util/conversion.go:16-21 | 8 bytes, low byte first, whose little-endian value is the number |
| Conversion.DecodeEncode16 | util/conversion.go:37-48 | decoding the encoding of a uint16 gives it back |
| Conversion.DecodeEncode32 | util/conversion.go:23-34 | decoding the encoding of a uint32 gives it back |
| Conversion.DecodeEncode64 | util/conversion.go:10-21 | decoding the encoding of a uint64 gives it back |
| Conversion.EncodeDecode16 | util/conversion.go:37-48 | every 2-byte slice decodes, and re-encoding the value gives the slice back |
| Conversion.EncodeDecode32 | util/conversion.go:23-34 | every 4-byte slice decodes, and re-encoding the value gives the slice back |
| Conversion.EncodeDecode64 | util/conversion.go:10-21 | every 8-byte slice decodes, and re-encoding the value gives the slice back |
| Conversion.DecodeIgnoresTrailing | util/conversion.go:10-41 | bytes after the width do not change the decoded result |
| Conversion.DecodeEncodePrefix | util/conversion.go:10-41 | an encoding followed by anything decodes to the encoded value |
| Conversion.LittleEndianInjective | util/conversion.go:10-41 | two slices of one length with the same little-endian value are equal |
| IdStores.FreshPoolIssuesOne | data/uint32_id_store.go:87-95 | a fresh allocator (counter 0, empty pool) hands out 1 first |
| IdStores.NextNeverReissues | data/uint32_id_store.go:87-95 | on a well-kept pool, while the counter does not wrap, `nextId` returns a non-zero id not in use, and afterwards the ids in use are the old ones plus that id |
| IdStores.PopNeverReissues | data/uint32_id_store.go:88-91 | popping the head of the pool returns an id not in use and keeps the pool well kept |
| IdStores.BumpNeverReissues | data/uint32_id_store.go:93-94 | with an empty pool the id is `lastId + 1`, not in use, and becomes the new counter |
| IdStores.AddReleases | data/uint32_id_store.go:97-99 | returning an id in use takes it out of the ids in use and keeps the pool well kept |
| IdStores.DoubleAddReissues | data/uint32_id_store.go:97-99 | `addId` does not detect an id added twice, so the allocator then hands it out twice in a row |
| IdStores.NextWrapsToZero | data/uint32_id_store.go:93-94 | after the largest id of the width the counter wraps and `nextId` returns 0 |
| IdStores.PoolIsFifo | data/uint32_id_store.go:87-99 | freed ids come back in the order they were freed |
| IdStores.FlattenLength | data/uint32_id_store.go:77-85 | the pooled ids take `width` bytes each |
| IdStores.FlattenSnoc | data/uint32_id_store.go:77-85 | writing one more id appends its encoding after the others |
| IdStores.ParseFlatten | data/uint32_id_store.go:65-75 | reading whole `width`-byte chunks back gives the ids written, and a short tail is ignored |
| IdStores.ParseIdsInRange | data/uint32_id_store.go:65-75 | every id `readIds` collects fits the id width |
| IdStores.ReloadRestoresPool | data/uint32_id_store.go:42-75 | after `write`, `readLastId` and `readIds` give back the counter and the pool |
| IdStores.IdStore.Create | data/uint32_id_store.go:29-40 | a created store has counter 0, an empty pool and the counter written at offset 0 |
| IdStores.IdStore.Open | data/uint32_id_store.go:15-27 | an opened store holds the file, its counter is the header's little-endian value and its pool the whole chunks after it; with `ReloadRestoresPool`, opening a written store restores its state |
| IdStores.IdStore.NextId | data/uint32_id_store.go:87-95 | pops the pool head if there is one, else increments the counter modulo 2^(8·width) and returns it; agrees with `Next` |
| IdStores.IdStore.AddId | data/uint32_id_store.go:97-99 | appends the id to the pool; agrees with `Add` |
| IdStores.IdStore.Write | data/uint32_id_store.go:42-46 | the file is truncated and then holds the counter followed by the pool |
| IdStores.IdStore.WriteLastId | data/uint32_id_store.go:59-63 | writes the counter's bytes at offset 0 |
| IdStores.IdStore.WriteIds | data/uint32_id_store.go:77-85 | writes pooled id i at `width + width * i`, which is the flattened pool at offset `width` |
| IdStores.IdStore.ReadLastId | data/uint32_id_store.go:48-57 | the little-endian value of the first `width` bytes, with missing bytes read as 0 |
| IdStores.IdStore.ReadIds | data/uint32_id_store.go:65-75 | the ids of the whole chunks after the counter, stopping at the first short read |
| Labels.NewLabel | data/label.go:71-80 | a new label refers to its text and has id 0, no references, no children and height 0 |
| Labels.Data | data/label.go:93-104 | the 21-byte record: text id (8 bytes), reference count (8), left id (2) and right id (2), all little-endian, then the height byte |
| Labels.ConstructLabel | data/label.go:33-65 | decodes each field of a 21-byte record from the byte range `data` writes it to, under the given id |
| Labels.ConstructData | data/label.go:33-104 | decoding the record of a label gives the label back |
| Labels.DataConstruct | data/label.go:33-104 | encoding a decoded 21-byte record gives the record back |
| Labels.LessIrreflexive | data/label.go:180 | Go's byte-wise string order never puts a string below itself |
| Labels.LessTransitive | data/label.go:180 | the string order is transitive |
| Labels.LessTotal | data/label.go:180 | of two different strings one is below the other |
| Labels.LessAsymmetric | data/label.go:180 | a string below another is not above it and differs from it |
| Labels.LabelOf | data/label_store.go:145-169 | a label of the tree is found by its id |
| Labels.Int8 | data/label.go:107-112 | the height byte read as a signed 8-bit number |
| Labels.Height | data/label.go:107-112 | a missing node has height -1, a node the signed value of its height byte |
| Labels.SetHeight | data/label.go:116-147 | only the height changes; it becomes one more than the taller child (as a byte), and the flag says whether the label changed |
| Labels.LeafHeight | data/label.go:116-147 | a node without children gets height 0 |
| Labels.RotateRight | data/label.go:309-329 | the left child becomes the root; the in-order id sequence and the id set are kept; the three moved subtrees land where a right rotation puts them; both labels go into `writes` |
| Labels.RotateLeft | data/label.go:332-351 | the mirror image of `RotateRight` |
| Labels.BalanceIdle | data/label.go:261-294 | a node whose height is current and whose balance is within one is left as it is and nothing is written |
| LabelTrees.HeightIsActual | data/label.go:107-147 | where every stored height is current, `height` is the actual height of the subtree |
| LabelTrees.SetHeightOk | data/label.go:116-147 | over children with current heights, `setHeight` makes the node's height current |
| LabelTrees.RotateRightKeeps | data/label.go:309-329 | a right rotation keeps the search order, the links, the distinct ids, the set of strings and current heights, and every changed label is in `writes` |
| LabelTrees.RotateLeftKeeps | data/label.go:332-351 | the same for a left rotation |
| LabelTrees.BalanceKeeps | data/label.go:261-294 | over two AVL subtrees whose heights differ by at most two, `balance` gives an AVL tree with the same ids and strings, at most one level lower, unchanged in height when it was already balanced, with every changed label in `writes` |
| LabelTrees.RebalanceKeeps | data/label.go:264-293 | the rotations of `balance` on a node whose height is current give an AVL tree with the same ids and strings |
| LabelTrees.LeftHeavy | data/label.go:264-278 | a node two levels heavier on the left is rotated into an AVL tree (single or double rotation) |
| LabelTrees.RightHeavy | data/label.go:279-293 | a node two levels heavier on the right is rotated into an AVL tree |
| LabelEdits.AddNodeAvl | data/label.go:168-198 | adding a new string to an AVL tree (with the flag at line 196 honoured) gives an AVL tree with the new id and string added, at most one level taller, in which every label that changed is in `writes` |
| LabelEdits.AddNodeAsWrittenLosesHeight | data/label.go:196 | with the flag dropped, a three-node AVL tree plus one string yields a node whose new height is never put into `writes` |
| LabelEdits.ExampleInsert | data/label.go:168-198 | the concrete insertion behind that finding: the only label marked is the relinked leaf |
| LabelRemovals.RightmostFacts | data/label.go:363-369 | the rightmost node belongs to the tree and holds its largest string |
| LabelRemovals.LeftmostFacts | data/label.go:354-360 | the leftmost node belongs to the tree and holds its smallest string |
| LabelRemovals.RemoveNodeAvl | data/label.go:201-258 | removing a label of an AVL tree (taking the leftmost node of the right subtree out of the right subtree) gives an AVL tree without that id and string, at most one level lower, in which every label that changed is in `writes` |
| LabelRemovals.ExampleRemove | data/label.go:229-236 | removing the root of the three-node tree with line 233 as written leaves the replacement twice in the tree |
| LabelRemovals.RemoveNodeAsWrittenBreaksOrder | data/label.go:233 | with line 233 as written, removing the root of an AVL tree can give a tree whose ids are not distinct and whose order is broken |
| LabelEntries.BalanceEntries | data/label.go:261-294 | balancing keeps every (id, text, count) entry of the tree |
| LabelEntries.AddNodeEntries | data/label.go:168-198 | adding a node adds exactly its entry |
| LabelEntries.RemoveNodeEntries | data/label.go:201-258 | removing a label of an AVL tree removes exactly its entry |
| LabelEntries.SetRefsEntries | data/label_store.go:239 | changing the count of one label changes only that label's entry |
| LabelSearches.SearchFinds | data/label_store.go:183-212 | on an ordered tree the descent of `findByValue` finds a label exactly when the string is in the tree, and the label it finds is one of the tree's and has that string |
| LabelSearches.SetRefs | data/label_store.go:239 | changing a count keeps the root, the ids and the strings |
| LabelSearches.SetRefsKeeps | data/label_store.go:239 | changing a count keeps the tree AVL at the same height and touches only that label |
| LabelSearches.AvlSize | data/label.go:261-294 | an AVL tree of height h has at least the Fibonacci-like minimum of nodes |
| LabelSearches.AvlHeightBound | data/label.go:107-147 | with at most 65535 ids an AVL tree is lower than 22 levels, so the height byte never wraps |
| LabelSearches.RemoveNodeByKey | data/label_store.go:264-281 | `removeNode` uses only the id and the text of the label it is given, so a copy with a different count removes the same node |
| LabelStores.LabelOffset | data/label_store.go:160 | a record lies after the 2-byte header |
| LabelStores.LabelRecordsApart | data/label_store.go:106 | the records of two different ids do not overlap |
| LabelStores.LabelOffsetAsWrittenExact | data/label_store.go:160 | the uint16 offset of the source is the intended one up to id 3121 |
| LabelStores.LabelOffsetWraps | data/label_store.go:106 | the uint16 offset of id 3122 wraps to 7, inside the record of label 1 |
| LabelStores.ReadLabel | data/label_store.go:158-168 | a record is found exactly when the file holds all 21 bytes at the id's offset, and it gets that id |
| LabelStores.ReadLabelAfterWrite | data/label_store.go:97-168 | the record written for a label reads back as that label |
| LabelStores.ReadLabelFrame | data/label_store.go:97-168 | a write outside a record leaves that record as it was |
| LabelStores.ReadRoot | data/label_store.go:118-126 | the header's root id is the little-endian value of the first two bytes |
| LabelStores.ReadRootAfterWrite | data/label_store.go:118-137 | the root written into the header reads back |
| LabelStores.LabelStore.Create | data/label_store.go:66-95 | an empty store: header with root 0, no records, nothing pending, an empty tree |
| LabelStores.LabelStore.Open | data/label_store.go:33-64 | the file is attached, nothing is pending and the root is read from the header; when the file's records describe an AVL tree rooted there (as after `Write`), the opened store is valid for every label operation |
| LabelStores.LabelStore.ReadHeader | data/label_store.go:118-127 | the root becomes the value in the header |
| LabelStores.LabelStore.WriteHeader | data/label_store.go:130-137 | the root goes to offset 0; every record reads as before |
| LabelStores.LabelStore.Find | data/label_store.go:145-169 | a pending label first, else the record in the file |
| LabelStores.LabelStore.FindAllowZero | data/label_store.go:171-176 | id 0 gives nothing; any other id is looked up as `find` does |
| LabelStores.LabelStore.RootNode | data/label_store.go:298-300 | the label at the root of the tree |
| LabelStores.LabelStore.FindByValue | data/label_store.go:183-212 | the loop agrees with the descent `Search`: a label exactly when the string is in the tree, and then one with that string |
| LabelStores.LabelStore.AddLabel | data/label_store.go:214-244 | a known string gets one more reference and keeps its id and the allocator, whatever the allocator's state; a new string gets a fresh non-zero id from the allocator and a label with one reference, added to the tree; the tree stays AVL and described by file plus pending labels, and the strings grow by the value |
| LabelStores.LabelStore.RemoveLabel | data/label_store.go:246-262 | an unknown string changes nothing; a known one loses a reference (wrapping below 0) and is pending; at count 0 its id returns to the allocator, it leaves the tree and its text id is returned |
| LabelStores.LabelStore.DeleteLabel | data/label_store.go:264-285 | id 0 changes nothing; any other label's id returns to the allocator and it leaves the tree with its string and entry, and its text id is returned |
| LabelStores.LabelStore.Write | data/label_store.go:97-115 | every pending label reads back from the file, the header holds the root, nothing is pending, and every label `find` returned before it returns after |
| LabelStores.WrittenConsistent | data/label_store.go:97-115 | once the pending labels are in the file, the file alone describes the tree |
| LabelStores.InsertStep | data/label_store.go:222-232 | the new label with a fresh id, put into the tree and marked, keeps the store consistent |
| LabelStores.DeleteStep | data/label_store.go:274-279 | releasing the id and removing the node keeps the store consistent |
| Texts.TextData | data/text.go:44-51 | a stored string is its length as 4 little-endian bytes (modulo 2^32), then its bytes |
| Texts.TextDataDecodes | data/text_store.go:106-118 | reading the length prefix and then that many bytes gives the string back |
| Texts.Text.NewText | data/text.go:28-32 | a new string has id 0 and stored length 0 |
| Texts.Text.ConstructText | data/text.go:18-26 | a string read from the store has the id, the stored length and the bytes given |
| Texts.Text.Value | data/text.go:34-37 | the string's bytes |
| Texts.Text.Len | data/text.go:39-42 | the byte length, as a uint32 |
| Texts.Text.Data | data/text.go:44-51 | the length prefix equal to `Len`, then the bytes |
| TextIds.NewTextId | data/text_id.go:49-55 | a run of free rows with the given first id and row count |
| TextIds.Data | data/text_id.go:58-66 | 12 bytes: the first id (8, little-endian), then the row count (4) |
| TextIds.ConstructTextId | data/text_id.go:27-46 | decodes both fields from the ranges `data` writes them to |
| TextIds.ConstructData | data/text_id.go:27-66 | decoding the record of a run gives the run back |
| TextIds.DataConstruct | data/text_id.go:27-66 | encoding a decoded 12-byte record gives the record back |
| TextIds.ZeroRecord | data/text_id.go:27-66 | an all-zero record is the empty run (0, 0) and back |
| TextIdStores.CalculateTextRows | data/text_id_store.go:173-180 | without uint32 overflow, the least number of 16-byte rows that hold the string and its 4-byte length |
| TextIdStores.TextRowsWrap | data/text_id_store.go:174 | adding the 4 bytes wraps: a length of 2^32 - 4 needs 0 rows and 2^32 - 1 needs 1 |
| TextIdStores.FirstFit | data/text_id_store.go:150-151 | with the intended guard, the first run with at least the rows needed, or none when every run is smaller |
| TextIdStores.FirstFitAsWritten | data/text_id_store.go:150-151 | with the guard as written, the first run with at most the rows needed, or none when every run is larger |
| TextIdStores.AllocateTakesFreeRows | data/text_id_store.go:142-167 | the rows `nextId` hands out were free and exactly they stop being free; on a disjoint layout the layout stays disjoint, so no row is handed out twice |
| TextIdStores.AddRunFrees | data/text_id_store.go:61-65 | giving a run back frees exactly its rows |
| TextIdStores.AllocateAsWrittenReissues | data/text_id_store.go:151-156 | with the guard as written, a run of 2 rows at 5 and the cursor at 7, the third allocation hands out row 7 a second time |
| TextIdStores.AllocateDoesNotReissue | data/text_id_store.go:142-167 | with the intended guard the same history hands out rows 5, 7 and 8 |
| TextIdStores.Normalize | data/text_id_store.go:117-132 | the runs `writeIds` leaves behind: runs with rows are kept at their places, empty ones become zero records, and trailing empty ones are not written |
| TextIdStores.NormalizeKeepsFreeRows | data/text_id_store.go:117-132 | dropping empty runs frees no row and takes none |
| TextIdStores.FlattenRunsAppend | data/text_id_store.go:117-132 | the records of two lists of runs are the records of the first followed by those of the second |
| TextIdStores.ParseFlattenRuns | data/text_id_store.go:101-132 | reading back the records written gives the runs written |
| TextIdStores.ReloadRuns | data/text_id_store.go:68-132 | after `write`, `readNextId` and `readIds` give back the cursor and the normalised runs |
| TextIdStores.TextIdStore.Create | data/text_id_store.go:45-58 | a created allocator has cursor 1, no runs, and the cursor written to the file |
| TextIdStores.TextIdStore.Open | data/text_id_store.go:29-41 | an opened allocator holds the file, its cursor is the first 8 bytes and its runs the whole 12-byte records after them; with `ReloadRuns`, opening a written allocator restores the cursor and the normalised runs |
| TextIdStores.TextIdStore.NextId | data/text_id_store.go:142-167 | the loop returns what `Allocate` gives on the store's runs and cursor, and the store takes its new runs and cursor |
| TextIdStores.TextIdStore.NextIdAsWritten | data/text_id_store.go:142-167 | the same loop with the guard as written agrees with `AllocateAsWritten` |
| TextIdStores.TextIdStore.AddId | data/text_id_store.go:61-65 | the run is appended to the free runs |
| TextIdStores.TextIdStore.Write | data/text_id_store.go:68-75 | the file is truncated and then holds the cursor followed by the normalised runs |
| TextIdStores.TextIdStore.WriteNextId | data/text_id_store.go:94-98 | the cursor's 8 bytes at offset 0 |
| TextIdStores.TextIdStore.WriteIds | data/text_id_store.go:117-132 | after the cursor, each run with rows at `8 + 12 * index` |
| TextIdStores.TextIdStore.ReadNextId | data/text_id_store.go:79-91 | the little-endian value of the first 8 bytes, with missing bytes read as 0 |
| TextIdStores.TextIdStore.ReadIds | data/text_id_store.go:101-114 | the runs of the whole 12-byte records after the cursor |
| TextStores.TextOffset | data/text_store.go:108 | the string with id `id` starts at `16 * (id - 1)` when that is a valid file offset |
| TextStores.ReadText | data/text_store.go:106-118 | the stored length, then that many bytes, with missing bytes read as 0 |
| TextStores.ReadAfterWriteText | data/text_store.go:106-118 | a string written at its id's offset reads back as its length and bytes (also `data/text_store.go:206-211`) |
| TextStores.ReadTextFrame | data/text_store.go:106-118 | a write that ends before, or starts after, a stored string leaves it as it was |
| TextStores.FindAfterWriteTexts | data/text_store.go:206-211 | after `write`, each pending string not overwritten by a later one reads back |
| TextStores.TextStore.Create | data/text_store.go:65-91 | an empty file, nothing pending and a new allocator |
| TextStores.TextStore.Open | data/text_store.go:35-59 | the existing file is attached, nothing is pending, and the allocator is opened over its own file: its cursor is that file's first 8 bytes and its runs the 12-byte records after them |
| TextStores.TextStore.Find | data/text_store.go:93-119 | the first pending string with this id; only when there is none, a new string read from the file |
| TextStores.TextStore.AddText | data/text_store.go:125-138 | the string gets the id `nextId` allocates for its length, records that length and becomes pending |
| TextStores.TextStore.RemoveTextAsWritten | data/text_store.go:143-160 | a saved string gives its rows back and its id becomes 0, while it stays pending |
| TextStores.TextStore.RemoveText | data/text_store.go:143-160 | as written, and the string also stops being pending |
| TextStores.AddThenRemoveAsWritten | data/text_store.go:143-160 | adding a string and removing it leaves a pending string with id 0, on which `write` panics (also `data/text_store.go:207`) |
| TextStores.AddThenRemove | data/text_store.go:143-160 | with the correction, adding and removing a string leaves the pending list as it was and `write` can run |
| TextStores.TextStore.SaveText | data/text_store.go:166-196 | a new string is added; one that shrinks keeps its id and gives back the rows past its new end; one of the same size keeps its id; one that grows gives its rows back and is allocated anew |
| TextStores.TextStore.Write | data/text_store.go:199-218 | every pending string goes to its id's offset in order, nothing is pending, and the allocator is flushed |
| TextStores.Without | data/text_store.go:143-160 | the pending list without the string, and nothing else removed |
| Attributes.ConstructAttribute | data/attribute.go:34-57 | decodes the label id (2 bytes), the type byte, the 8 value bytes and the next id (4 bytes) of a 15-byte record, under the given id |
| Attributes.AttributeLayout | data/attribute.go:26-44 | a 15-byte record in the layout `constructAttribute` reads |
| Attributes.ConstructLayout | data/attribute.go:34-57 | decoding the record of an attribute with 8 value bytes gives the attribute back |
| Attributes.LayoutConstruct | data/attribute.go:34-57 | laying out a decoded 15-byte record gives the record back |
| Attributes.AttributeValue | data/attribute.go:59-101 | corrected at line 78: the empty type is an error; integer, boolean, list and map decode the 8 value bytes (an error when fewer), a boolean being true iff non-zero and a list or map id truncated to 32 bits; a real keeps its bits; a text is the empty string; any other type byte gives the nil value without an error |
| Attributes.AttributeValueAsWritten | data/attribute.go:59-101 | as written: every boolean with 8 value bytes is true, because the uint64 held in the interface `val` never equals the `int` constant 0; it errs exactly where the corrected decoding errs, and every other type decodes as there |
| Attributes.ZeroBooleanAsWritten | data/attribute.go:73-82 | a boolean of eight zero bytes is true as written and false when corrected |
| Attributes.BooleanFalseIffZero | data/attribute.go:73-82 | corrected: a boolean is false exactly when its 8 value bytes are all zero |
| Attributes.ConstructedValue | data/attribute.go:34-101 | an attribute read from a record has no value exactly when its type byte is the empty type |
| AttributeMaps.PutFinds | data/attribute_map.go:10-20 | after `add` the attribute is under its key and every other key is unchanged |
| AttributeMaps.DropForgets | data/attribute_map.go:22-32 | after `remove` the key is gone and every other key is unchanged |
| AttributeMaps.DropPut | data/attribute_map.go:10-32 | removing an attribute just added under a new key gives the map back |
| AttributeMaps.HasByKey | data/attribute_map.go:34-40 | `has` depends only on the attribute's label, not on its value |
| AttributeMaps.AttributeMap.Add | data/attribute_map.go:10-20 | the attribute goes under its key when the label has a name; otherwise the map is unchanged and the error is reported |
| AttributeMaps.AttributeMap.Remove | data/attribute_map.go:22-32 | the attribute's key leaves the map when the label has a name; otherwise the map is unchanged and the error is reported |
| AttributeMaps.AttributeMap.Has | data/attribute_map.go:34-40 | whether the attribute's key (the empty string when the label has none) is in the map |
| AttributeMaps.AttributeMap.HasKey | data/attribute_map.go:42-47 | whether the key is in the map |
| AttributeMaps.AttributeMap.Get | data/attribute_map.go:49-52 | the attribute under the key, exactly when there is one |
| AttributeStores.AttributeOffset | data/attribute_store.go:81 | the uint32 offset `(id - 1) * 15` |
| AttributeStores.AttributeOffsetExact | data/attribute_store.go:81 | the offset is exact up to id 286331154 |
| AttributeStores.AttributeOffsetWraps | data/attribute_store.go:81 | the offset of id 286331155 wraps to 14, inside the record of attribute 1 |
| AttributeStores.LookupId | data/attribute_store.go:71-90 | what `Find` returns for an id has that id |
| AttributeStores.AttributeStore.Open | data/attribute_store.go:22-45 | the file and the allocator are attached and nothing is tracked |
| AttributeStores.AttributeStore.Find | data/attribute_store.go:71-90 | a tracked attribute first; else the record at the id's offset when the file holds all 15 bytes of it, decoded under that id, else nothing |
| AttributeStores.AttributeStore.Track | data/attribute_store.go:93-101 | the attribute is tracked under its id; every other id finds what it found before |
| AttributeStores.AttributeStore.Remove | data/attribute_store.go:104-117 | the id goes back to the allocator and the attribute is tracked with the empty type, so it has no value; every other id finds what it found before |
| AttributeStores.AttributeStore.NextId | data/attribute_store.go:119-123 | the allocator's next id and state |
| AttributeStores.AttributeStore.NextOf | data/attribute.go:141-151 | `Next`: nothing for a next id of 0, else what `Find` returns for it |
| AttributeChains.LinkedWalk | data/attributable.go:23-39 | a chain linked from `firstAtt` whose elements the store returns is exactly what the walk of `Attributes` visits |
| AttributeChains.CollectIsCache | data/attributable.go:27-36 | the map `Attributes` builds from a chain with distinct keys holds each element under its key |
| AttributeChains.CacheKeys | data/attributable.go:27-36 | the keys of that map are the keys of the chain |
| AttributeChains.PrependKeeps | data/attributable.go:57-64 | prepending an attribute with a fresh id and a new key keeps the owner's invariant and adds it to the cache |
| AttributeChains.UpdateKeeps | data/attributable.go:51-56 | changing type and value of an element keeps the owner's invariant |
| AttributeChains.UnlinkHeadKeeps | data/attributable.go:80-85 | unlinking the first attribute keeps the owner's invariant, and its id returns to the allocator |
| AttributeChains.UnlinkKeeps | data/attributable.go:88-96 | unlinking a later attribute past its predecessor keeps the owner's invariant, and its id returns to the allocator |
| Attributables.FirstAttributeCorrected | data/attributable.go:13-19 | for an owner with attributes the corrected first attribute is what the code as written returns; for one without, the code as written panics and the corrected one gives nothing |
| Attributables.FindPredecessor | data/attributable.go:88-96 | the key of a cached attribute whose `next` is the id, or none when no cached attribute points to it |
| Attributables.Attributable.constructor | data/attributable.go:8-11 | a new owner has no attributes and no cache |
| Attributables.Attributable.FirstAttribute | data/attributable.go:13-19 | nothing for `firstAtt` 0, else what the store finds for it |
| Attributables.Attributable.Attributes | data/attributable.go:23-39 | the first call walks the chain and caches the map of its attributes by key; later calls return the cached map |
| Attributables.Attributable.SetAttribute | data/attributable.go:43-66 | a key the owner has: the cached attribute takes the new type and value and is tracked, whatever the allocator's state; a new key: the attribute gets a fresh id and the old first attribute as `next`, becomes the first attribute, and is cached and tracked; the owner's invariant holds after either |
| Attributables.Attributable.SetAttributeAsWritten | data/attributable.go:43-66 | it panics exactly when the key is new, in `attributable.track`; the state left at that point is stated as for `SetAttribute`: on an existing key the cached attribute is updated and tracked with the allocator untouched, on a new key the attribute has a fresh id, heads the chain and is tracked |
| Attributables.Attributable.RemoveAttribute | data/attributable.go:68-97 | nothing unless the key is cached; the first attribute moves `firstAtt` on; a later one relinks its predecessor; either way the attribute is removed from the store, its id recycled and its key dropped from the cache, and the invariant holds |
| Attributables.Attributable.RemoveAttributeAsWritten | data/attributable.go:68-97 | it panics exactly when the attribute is the first one, in `attributable.track`, before the store and the cache see the removal |
| Attributables.Attributable.RemoveAttributeByKey | data/attributable.go:99-107 | removes the cached attribute under the key when there is one; the chain loses exactly that key |
| Edges.Relinked | data/vertex.go:116-118 | an edge whose link in one direction is replaced; every other field, the other link included, is unchanged (also `data/vertex.go:136-138`) |
| Edges.ConstructEdge | data/edge.go:23-59 | decodes label (2 bytes), from, to, outNext, inNext and first attribute (4 bytes each) from the first 22 bytes, under the given id |
| Edges.EdgeLayout | data/edge.go:23-59 | a 22-byte record in the layout `constructEdge` reads |
| Edges.ConstructLayout | data/edge.go:23-59 | decoding the record of an edge gives the edge back |
| Edges.LayoutConstruct | data/edge.go:23-59 | laying out a decoded 22-byte record gives the record back |
| Edges.TrailingIgnored | data/edge.go:23-59 | bytes after the 22nd do not change the edge |
| Edges.Key | data/edge.go:70-74 | the name of the edge's label |
| EdgeLists.WithWithout | data/edge_list.go:10-22 | `add` files the edge under its id and `remove` drops its id; other ids keep their edges, and removing an absent id changes nothing |
| EdgeLists.WithoutUndoesWith | data/edge_list.go:10-22 | removing an edge just added under a new id gives the list back |
| EdgeLists.EdgeList.Add | data/edge_list.go:10-15 | the edge is filed under its id |
| EdgeLists.EdgeList.Remove | data/edge_list.go:17-22 | the edge's id leaves the list |
| EdgeMaps.InsertFinds | data/edge_map.go:10-25 | after `add` the edge is in the list under its key, created when missing, and nothing else changes |
| EdgeMaps.DeleteForgets | data/edge_map.go:27-41 | after `remove` the edge is gone from the list under its key, and nothing else changes |
| EdgeMaps.NoEmptyListKept | data/edge_map.go:27-41 | `remove` drops a list it empties, so neither operation leaves an empty list behind |
| EdgeMaps.DeleteUndoesInsert | data/edge_map.go:10-41 | removing an edge just added gives the map back |
| EdgeMaps.EdgeMap.Add | data/edge_map.go:10-25 | the map becomes `Insert` of the edge under its label's name |
| EdgeMaps.EdgeMap.Remove | data/edge_map.go:27-41 | the map becomes `Delete` of the edge under its label's name |
| EdgeMaps.EdgeMap.Has | data/edge_map.go:43-46 | whether the key has a list |
| EdgeMaps.EdgeMap.Get | data/edge_map.go:48-51 | the list under the key, or the empty list; with no empty lists kept, empty exactly when the key is missing |
| EdgeStores.EdgeOffset | data/edge_store.go:81 | the uint32 offset `(id - 1) * 22` |
| EdgeStores.EdgeOffsetExact | data/edge_store.go:81 | the offset is exact up to id 195225787 |
| EdgeStores.EdgeOffsetWraps | data/edge_store.go:81 | the offset of id 195225788 wraps to 18, inside the record of edge 1 |
| EdgeStores.NextCorrected | data/edge.go:92-106 | `OutNext`/`InNext` as written give what the store finds for a non-zero link and panic on a link of 0, where the corrected walk ends |
| EdgeStores.LookupId | data/edge_store.go:71-90 | what `Find` returns for an id has that id |
| EdgeStores.TrackedLookup | data/edge_store.go:71-101 | after tracking an edge, its id finds it and every other id finds what it found before |
| EdgeStores.EdgeStore.Open | data/edge_store.go:22-45 | the file and the allocator are attached and nothing is tracked |
| EdgeStores.EdgeStore.Find | data/edge_store.go:71-90 | a tracked edge first; else the record at the id's offset when the file holds all 22 bytes of it, else nothing |
| EdgeStores.EdgeStore.Track | data/edge_store.go:93-101 | the edge is tracked under its id; every other id finds what it found before |
| EdgeStores.EdgeStore.Remove | data/edge_store.go:104-117 | the id goes back to the allocator and the edge is tracked with label 0; every other id finds what it found before |
| EdgeStores.EdgeStore.Next | data/edge.go:92-106 | the next edge in the direction, corrected to give nothing at a link of 0 |
| EdgeStores.EdgeStore.First | data/vertex.go:62-68 | the head edge of a chain, corrected to give nothing at a head of 0 (also `data/vertex.go:85-91`) |
| EdgeChains.WalkAsWrittenPanics | data/vertex.go:62-105 | as written, the walk of `Out`/`In` panics on every well-kept chain: an empty chain hands its head 0 to `Find`, a non-empty one the link 0 of its last edge |
| EdgeChains.WalkStep | data/vertex.go:70-105 | on a well-kept chain each step of the walk of `Out`/`In` finds the next edge of the chain |
| EdgeChains.CoherentAppend | data/vertex.go:70-105 | adding the next edge of the walk to the map keeps the map equal to the chain walked so far |
| EdgeChains.PredecessorUnique | data/vertex.go:113-121 | on a coherent cache the only cached edge linking to a later edge of the chain is its predecessor (also `data/vertex.go:133-141`) |
| EdgeChains.NoPredecessorOffChain | data/vertex.go:113-121 | no cached edge links to an edge off the chain (also `data/vertex.go:133-141`) |
| EdgeChains.UnlinkedAt | data/vertex.go:107-144 | removing the edge at position j leaves the other ids in order, distinct, without it |
| EdgeChains.UnlinkHead | data/vertex.go:109-111 | moving the head on to the first edge's link leaves a well-kept chain without it (also `data/vertex.go:129-131`) |
| EdgeChains.UnlinkLater | data/vertex.go:116-118 | relinking the predecessor past a later edge, and tracking it, leaves a well-kept chain without it |
| EdgeChains.OtherChainKept | data/vertex.go:116-118 | the relink changes only one direction's link, so the chain in the other direction stays well kept |
| EdgeChains.CoherentRefresh | data/vertex.go:116-118 | refreshing a cache with the relinked predecessor keeps it coherent with the store |
| EdgeChains.CoherentCut | data/vertex.go:124 | dropping the removed edge from the cache keeps it coherent with the shortened chain (also `data/vertex.go:143`) |
| Vertices.DecodeVertex | data/vertex.go:25-39 | class id, then the heads of the outbound and inbound chains and the first attribute, little-endian, from the first 13 bytes |
| Vertices.DecodeLayout | data/vertex.go:25-39 | decoding the record of a vertex gives the fields back |
| Vertices.LayoutDecode | data/vertex.go:25-39 | laying out a decoded 13-byte record gives the record back |
| Vertices.VertexTrailingIgnored | data/vertex.go:25-39 | bytes after the 13th do not change the vertex |
| Vertices.VertexOffset | data/vertex_store.go:92 | the uint32 offset `(id - 1) * 13` |
| Vertices.VertexOffsetExact | data/vertex_store.go:92 | the offset is exact up to id 330382100 |
| Vertices.VertexOffsetWraps | data/vertex_store.go:92 | the offset of id 330382101 wraps to 4, inside the record of vertex 1 |
| Vertices.RecordAt | data/vertex_store.go:91-99 | a record exactly when the file holds all 13 bytes at the id's offset, and then the bytes there |
| Vertices.BuildCache | data/vertex.go:70-83 | the walk from the head builds a fresh map holding exactly the chain's edges under their keys (also `data/vertex.go:93-105`) |
| Vertices.FindPredecessor | data/vertex.go:113-121 | a cached edge whose link in the direction is the target, or none when no cached edge links to it (also `data/vertex.go:133-141`) |
| Vertices.RefreshCache | data/vertex.go:116-118 | the cache holds the relinked edge in place of its old copy |
| Vertices.Vertex.Construct | data/vertex.go:25-39 | a vertex with the id and the decoded fields, and no caches |
| Vertices.Vertex.New | data/vertex.go:41-46 | a new vertex of the class, with id 0, no edges, no attributes and no caches |
| Vertices.Vertex.Out | data/vertex.go:70-83 | the cached map when there is one; else a fresh map of the outbound chain, which is cached |
| Vertices.Vertex.In | data/vertex.go:93-105 | the same for the inbound chain |
| Vertices.Vertex.RemoveOutboundEdge | data/vertex.go:107-125 | corrected to one shared copy per edge: the head edge moves the head on and the vertex is tracked; a later edge has its predecessor relinked and tracked, and both caches see the relinked predecessor; the edge leaves the cache, and both chains stay well kept |
| Vertices.Vertex.RemoveInboundEdge | data/vertex.go:127-144 | corrected in the same way, and at line 138 the relinked predecessor is tracked: the same for the inbound chain |
| Vertices.Vertex.RemoveInboundEdgeAsWritten | data/vertex.go:136-138 | when the predecessor is not tracked, the store is left unchanged and its inbound chain still runs through the edge the cache has dropped; the outbound cache, which then holds its own copy of the predecessor, is left as it was |
| Vertices.StaleCopyKeepsRemovedLink | data/vertex.go:70-144 | as written, a loop heading both chains is decoded from the file once for each cache; removing the next outbound edge relinks and tracks only the outbound cache's copy, so the inbound cache's copy still links to the removed edge, and removing the next inbound edge relinks that copy alone, leaving the store's inbound link to the removed edge; were line 138 to track as line 118 does, the store would take the stale copy and link to the removed outbound edge again; relinking what the store finds now ends both links |
| Vertices.Vertex.RemoveEdge | data/vertex.go:146-153 | with the shared-copy correction of `RemoveOutboundEdge` and the corrected `RemoveInboundEdge`, which tracks the predecessor at line 138 where Go does not: the edge is unlinked from the outbound chain when the vertex is its origin and from the inbound chain when it is its destination, each independently: the heads move past it where it led, the predecessor on each chain it left is relinked and tracked, the vertex is tracked only when a head moved, and the vertex stays well kept; when the vertex is neither end, nothing changes |
| Vertices.Vertex.RemoveLoop | data/vertex.go:146-153 | with the shared-copy correction of `RemoveOutboundEdge` and the corrected `RemoveInboundEdge`, which tracks the predecessor at line 138 where Go does not: an edge from the vertex to itself leaves both chains and both caches: each head it led moves on, its predecessor on each chain is relinked and tracked, the vertex is tracked when a head moved, and the vertex stays well kept |
| Vertices.VertexStore.Open | data/vertex_store.go:24-47 | the file is attached and nothing is tracked |
| Vertices.VertexStore.Track | data/vertex_store.go:73-80 | the vertex is tracked under its id |
| Vertices.VertexStore.Find | data/vertex_store.go:82-101 | a tracked vertex first; else a vertex decoded from the record when the file holds all 13 bytes, else nothing |
| Classes.Data | data/class.go:77-86 | 9 bytes: the count and the label little-endian, then the super, sub and nextSub ids |
| Classes.ConstructClass | data/class.go:29-55 | corrected decoder: a class exactly when the slice has 9 bytes, with the given id, and then writing it out with `Data` gives the slice back |
| Classes.ConstructData | data/class.go:29-55 | decoding what `Data` wrote, under the class's id, gives the class back (also `data/class.go:77-86`) |
| Classes.DataRefusedAsWritten | data/class.go:30 | as written, an 8-byte slice panics (it reads index 8), every other length is refused, so the 9 bytes of `Data` never decode, where the corrected decoder gives the class back (also `data/class.go:39`) |
| Classes.CreateClass | data/class.go:57-75 | a class with no vertices and no children; with no super class its super and nextSub are 0; with one, super is its id, nextSub its old first child and the super class's first child becomes the new class |
| ClassIdIndexes.IdSetAppend | data/class_id_index.go:57-96 | one more 4-byte id after whole chunks adds exactly that id to the set read back |
| ClassIdIndexes.PackedIds | data/class_id_index.go:57-96 | reading back the bytes `write` emits for any order of ids gives exactly the ids written |
| ClassIdIndexes.DuplicatesCollapse | data/class_id_index.go:57-78 | an id stored twice reads back as one id |
| ClassIdIndexes.ClassIdIndex.Attach | data/class_id_index.go:22-53 | the index holds the file and an empty set until `ReadIds` fills it |
| ClassIdIndexes.ClassIdIndex.ReadIds | data/class_id_index.go:57-78 | the set becomes the ids of the file's 4-byte chunks; a file whose length is not a multiple of 4 panics and leaves the set as it was |
| ClassIdIndexes.ClassIdIndex.Write | data/class_id_index.go:81-96 | the file becomes 4 little-endian bytes per id, in some order of the set, 4 times the set's size in all, and reads back as the same set |
| ClassIdIndexes.ClassIdIndex.HasId | data/class_id_index.go:100-103 | true exactly when the id is in the set |
| ClassIdIndexes.ClassIdIndex.AllIds | data/class_id_index.go:106-108 | the set |
| ClassIdIndexes.ClassIdIndex.AddId | data/class_id_index.go:110-112 | the id joins the set and nothing else changes |
| ClassIdIndexes.ClassIdIndex.RemoveId | data/class_id_index.go:114-116 | the id leaves the set and nothing else changes |
| ClassStores.FirstFree | data/class_store.go:137-142 | the first slot whose class has label 0, or none when every class has a label |
| ClassStores.NextIdOf | data/class_store.go:131-144 | the id of the first class with label 0, else the number of classes plus one, truncated to 8 bits |
| ClassStores.AddedOk | data/class_store.go:64-76 | adding a class under the next id keeps every class at the slot of its id with links in range, and grows the list by one exactly when no slot was free |
| ClassStores.ChildrenKept | data/class.go:57-75 | the children of a class depend only on the nextSub links of the classes, so a store that keeps those links and grows keeps every list of children |
| ClassStores.PrependChild | data/class.go:57-75 | after adding a class below a super class, the super class's children are the new class followed by its old children (also `data/class_store.go:64-76`) |
| ClassStores.HasIdSubtree | data/class.go:116-134 | `hasId` is true exactly when the id is in the index of the class or of a class below it |
| ClassStores.SubsSubtrees | data/class.go:125-131 | the walk along the children is true exactly when the id is in the index of one of them or of a class below one of them |
| ClassStores.ByName | data/class_store.go:85-93 | the first class whose name is the one asked for; nothing exactly when every class has a name that differs; a class with label 0 panics in the label lookup |
| ClassStores.FlatRecord | data/class_store.go:95-99 | at 9 bytes per record, the bytes of record k are the `Data` of class k |
| ClassStores.LoadedLength | data/class_store.go:107-128 | reading from an offset gives one class per 9 bytes started |
| ClassStores.FlatRead | data/class_store.go:115-117 | reading 9 bytes at record k of the written file gives that class's `Data` |
| ClassStores.RecordAtData | data/class_store.go:117 | the record of class k + 1 decodes to that class |
| ClassStores.LoadedFlat | data/class_store.go:107-128 | reading a file written at 9 bytes per record from record k gives the classes from k on |
| ClassStores.WriteReadRoundTrip | data/class_store.go:95-128 | the corrected `write` followed by the corrected `readClasses` gives the same classes back |
| ClassStores.WriteAsWrittenOverlaps | data/class_store.go:98 | as written, class 1's nextSub byte is overwritten by class 2's first count byte, so class 1 loses its next sibling |
| ClassStores.PrefillHidesFirstClass | data/class_store.go:113-120 | as written, a store of one class reads back as a nil slot followed by the class, where the corrected reader gives the class alone |
| ClassStores.ClassStore.Open | data/class_store.go:18-57 | the file is attached and the classes are those the corrected `readClasses` decodes from it (Go's `constructClass` refuses every record, data/class.go:30, 39, so as written any non-empty file fails to open); a file written from well-formed classes opens as exactly those classes, and the store is then valid for `Find`, `AddClass` and the rest |
| ClassStores.ClassStore.Find | data/class_store.go:78-83 | nothing for id 0; otherwise the class at slot id - 1, which has that id |
| ClassStores.ClassStore.Super | data/class.go:104-106 | nothing exactly when the super link is 0; otherwise the class with that id |
| ClassStores.ClassStore.Sub | data/class.go:108-110 | nothing exactly when the sub link is 0; otherwise the class with that id |
| ClassStores.ClassStore.NextSub | data/class.go:112-114 | nothing exactly when the nextSub link is 0; otherwise the class with that id |
| ClassStores.ClassStore.NextId | data/class_store.go:131-144 | the id `NextIdOf` gives |
| ClassStores.ClassStore.AddClass | data/class_store.go:64-76 | returns the next id; the class is appended when its id is past the end, else overwrites its slot, and its super class gets it as first child |
| ClassStores.ClassStore.FindByName | data/class_store.go:85-93 | the first class whose name matches, as `ByName` gives it |
| ClassStores.ClassStore.HasId | data/class.go:116-134 | the value `HasIdIn` gives, the walk of the children done by a loop |
| ClassStores.ClassStore.Write | data/class_store.go:95-105 | corrected: the file becomes the classes' records at 9 bytes apart, which read back as the same classes |
| ClassStores.ClassStore.WriteAsWritten | data/class_store.go:95-99 | as written: the records are placed 8 bytes apart |
| ClassStores.ClassStore.ReadClasses | data/class_store.go:107-128 | corrected: one class per 9 bytes started, decoded with ids 1, 2, … |
| ClassStores.ClassStore.ReadClassesAsWritten | data/class_store.go:107-128 | as written: an empty file gives no classes and any other file is an error, because `constructClass` refuses every 9-byte buffer |

## Left out

- File I/O: opening, creating, statting and closing files is not modelled, and neither are I/O errors. A file is its contents, and a store's `construct*`/`create*` constructor is modelled as `Open`/`Create` on those contents. `shutdown` has nothing to model.
- Floating point: `Float64ToBytes`/`BytesToFloat64` (util/conversion.go:50-61) and the `real_t` branch of `Value`. A real attribute keeps its raw 8 bytes.
- Text and label contents come from stores that are parameters. The label tree compares names through a `text` function, and classes, edges and attributes get their names from a `names` function (`Labels.Names`).
- Paths and orchestration (`storePath`, `indexPath`, data/graph.go, data/db.go) are not part of this model. So `Class.openIdIndex`/`createIdIndex` are not modelled: the vertex ids of each class are the parameter `index` of `ClassStores.HasIdIn`.
- `classStore.initialize` (data/class_store.go:59-62) is not modelled separately. It is `AddClass("Vertex", nil)` followed by `write`, and both are modelled.
- data/vertex_store.go:103-108 (`Remove`) does not compile: `v.Key` is undefined and `removeLabel` is called with one argument. The vertex store's `write` (110-112) is empty. Neither is modelled.
- Go pointer aliasing between caches and tracked records: caches (`aMap`, `out`, `in`) hold copies of records. An update to a cached record that the store does not track is lost, which is the behaviour the Go code shows once the record is re-read.
- Vertices.Vertex.RemoveOutboundEdge, Vertices.Vertex.RemoveInboundEdge, Vertices.Vertex.RemoveEdge, Vertices.Vertex.RemoveLoop, Vertices.Vertex.RemoveInboundEdgeAsWritten treat the vertex's two caches as sharing each edge: a relinked predecessor is refreshed in the other cache too. Go's caches share an edge only when it was tracked before both were built. An untracked edge is decoded afresh by each `Find` (data/edge_store.go:71-90), so `Out` and `In` each hold their own copy, and relinking one leaves the other stale. As written, `In` then goes on handing out the edge with the link the other removal took away, and a removal through that copy changes memory only (`Vertices.StaleCopyKeepsRemovedLink`). Were line 138 to track the predecessor as line 118 does, the stale copy would reach the store and its outbound chain would run through the removed edge again. `Vertices.Vertex.RemoveInboundEdgeAsWritten` likewise takes the tracked branch to relink the very edge the store tracks, which holds only when the inbound cache was built after that edge was tracked. The model does not follow the stale copies; it keeps both chains well kept, as the one-copy design intends.
- Go map iteration order: where the Go code ranges over a map, the model admits any order. `FindPredecessor` may return any matching key, `ClassIdIndex.Write` emits the ids in some order, and `FindByName`'s slice order is kept.
- Unimplemented stubs (data/list.go, data/map.go, their stores, the `text_t` placeholder) and `printTree` are not part of this model.
- `fmt.Println` in `nextId` (data/class_store.go:135) is console output and is dropped. Its panic on a nil `classes` slice cannot happen in the model, where the classes are always a sequence.
- ClassStores.ClassStore.HasId: the recursion of `hasId` has no bound in Go, so here it is bounded by `fuel`, one unit per step to a first child or a next sibling. `HasIdSubtree` describes the classes reached within that fuel. The model does not prove that some fuel reaches the whole subtree, which would need the links to be acyclic.
- ClassStores.ClassStore.Find: `Find` on an id past the end of the slice panics in Go. Here that is a precondition, `id <= |classes|`.
- ClassStores.ClassStore.AddClass requires `NextIdOf(classes) != 0`. Once 255 classes are in use the next id wraps to 0, and Go then writes `classes[c.Id - 1]`, which wraps to index 255, one past the end, and panics.
- ClassStores.ClassStore.Write writes the class records only. The indexes are written by `ClassIdIndexes.ClassIdIndex.Write`, as the loop at data/class_store.go:100-104 calls it.
- Labels.Rebalance: where the stored heights disagree with the tree, Go's `balance` can dereference a missing child and panic. Here the node is left unrotated. On trees whose stored heights are correct, as `Avl` requires, this cannot happen.
- LabelEdits.AddNodeAvl, LabelRemovals.RemoveNodeAvl require a tree of height below 126, so that the 8-bit height field cannot wrap. The trees a label store holds always meet this (LabelSearches.AvlHeightBound bounds them below 22 levels); on a free-standing taller tree the heights written are not modelled.
- Vertices.Vertex.RemoveOutboundEdge, Vertices.Vertex.RemoveInboundEdge, Vertices.Vertex.RemoveInboundEdgeAsWritten, Vertices.Vertex.RemoveEdge and Vertices.Vertex.RemoveLoop require the edge passed in to be equal, as a value, to what the edge store's `Find` returns for its id (`store.View()(e.Id) == Some(e)`). Go accepts any `*Edge`, including a stale copy that `find` decoded earlier (an untracked edge is decoded afresh on every call) and that differs from the store's record; what Go does with such a stale edge, unlinking it by its own `outNext`/`inNext`, is not modelled.
- Attributables.Attributable.RemoveAttribute and Attributables.Attributable.RemoveAttributeAsWritten require that, when the attribute's key is cached, the attribute passed in equals the cached one as a value (`Cache(chain, names)[key] == a`). Go accepts an attribute that differs from the cached one under the same key; that case is not modelled.
- LabelStores.LabelStore.AddLabel and LabelStores.LabelStore.AddNewLabel require, for a string not yet in the tree, that the allocator is not exhausted (a pooled id, or `lastId + 1 < 2^16`). A known string needs no new id and is not restricted. At exhaustion Go's `nextId` wraps to 0 and a label with id 0 is linked into the tree; 0 is the nil link of the tree, so the model's tree cannot describe that label, and that outcome is not modelled.
- Attributables.Attributable.SetAttribute and Attributables.Attributable.SetAttributeAsWritten require, for a key the owner does not have, that the allocator is not exhausted (a pooled id, or `lastId + 1 < 2^32`). An existing key is updated without a new id and is not restricted. At exhaustion `nextId` wraps to 0 and the new attribute reaches the store's `Track` with id 0, whose assertion (data/attribute_store.go:96) fails; as with every Go `Assert`, that is a precondition here rather than a modelled panic.
- Labels.AddNodeAsWritten keeps the new height of every node in the tree it returns, marked or not. In Go a child whose height changed without being put into `writes` (data/label.go:196) is re-read from the file by its parent's `setHeight` and `balance` (data/label_store.go:153-166), with its old height. On paths of three or more levels that stale height can change the heights and rotations further up, and the as-written member does not follow that. LabelEdits.AddNodeAsWrittenLosesHeight and LabelEdits.ExampleInsert are two-level cases, where the two agree.
- Labels.RotateLeft and Labels.RotateRight compute the new root's height from the rotated-down node's new height. As the inner rotation of a double rotation (data/label.go:280, 288), Go's `setHeight` (data/label.go:323, 345) re-reads that node from the file, because it is not yet in `writes`, and so sees its old height. The outer rotation recomputes that height from the current children, so the tree `Balance` returns is the same; only the intermediate height differs.
- Attributables.Attributable.SetAttribute and Attributables.Attributable.SetAttributeAsWritten require that the attribute's label can be found, or else that the owner already has an attribute under the empty key. Go ignores the lookup error (data/attributable.go:50) and goes on with the key `""`. When no attribute has that key, Go gives the attribute an id, links it at the head of the chain and tracks it, but `add` skips it (data/attribute_map.go:14-17). The chain then holds an attribute that the cache never holds. The owner's invariant cannot describe that state, so this path is not modelled.
- Attributes.Key and Edges.Key read the label name through the `names` parameter for every label id, 0 included. In Go `labelStore.find` asserts that the id is not 0 (data/label_store.go:147), so the key of an attribute or edge with label 0 panics. That panic is not modelled: `names(0)` is whatever the parameter gives.
- `Vertex.Class`, `Vertex.ClassName` (data/vertex.go:48-60), `Class.Label` and `Class.Name` (data/class.go:88-102) have no members of their own. Each is one lookup in another store: `ClassStores.ClassStore.Find` at the vertex's class id, and the `names` function (`Labels.Names`) at the class's label id.

## Findings

| source | as written | input that shows it | evidently intended | confidence | as-written member | corrected member |
|---|---|---|---|---|---|---|
| data/label.go:196 | `addNode` discards the changed flag `setHeight` returns | inserting "\x04" into the AVL tree "\x02"("\x01", "\x03"): the root's height goes from 1 to 2, but only "\x03" is put into `writes` | every label whose height changes is written back | not executed | LabelEdits.AddNodeAsWrittenLosesHeight | LabelEdits.AddNodeAvl |
| data/label.go:233 | `removeNode` removes the right subtree's leftmost node from the left subtree (`cl` for `cr`) | removing the root "\x02" from "\x02"("\x01", "\x03"): "\x01" hangs on both sides of "\x03" | the successor leaves the right subtree and the tree stays an ordered AVL tree | not executed | LabelRemovals.RemoveNodeAsWrittenBreaksOrder | LabelRemovals.RemoveNodeAvl |
| data/label_store.go:106, 160 | the label record offset `(id - 1) * 21` is computed in uint16 | label id 3122 gets offset 7 inside the record of label 1 | every label has its own 21 bytes | not executed | LabelStores.LabelOffsetWraps | LabelStores.LabelRecordsApart |
| data/text_id_store.go:151-156 | the first-fit guard is inverted (`id.rows <= rows`) and the run's row count underflows | free run of rows 5-6 below cursor 7; requests of 2, 1 and 1 rows get rows 5, 7 and 7 again (the emptied run passes the guard and wraps to 2^32 - 1 rows) | take a free run only when it has enough rows, never hand out rows twice | not executed | TextIdStores.AllocateAsWrittenReissues | TextIdStores.AllocateTakesFreeRows |
| data/text_store.go:143-160, 207 | `removeText` leaves the string in `writes`, so the assert in `write` fires | `addText` then `removeText` of the same string, then `write` | a removed pending string leaves `writes` | not executed | TextStores.AddThenRemoveAsWritten | TextStores.AddThenRemove |
| data/attributable.go:64 | `v.track(g)` binds to `attributable.track`, which panics | `SetAttribute` on a vertex with a new attribute | the owner record is tracked by its own store | not executed | Attributables.Attributable.SetAttributeAsWritten | Attributables.Attributable.SetAttribute |
| data/attributable.go:82 | the same call in `RemoveAttribute` | removing the first attribute of a vertex | the same | not executed | Attributables.Attributable.RemoveAttributeAsWritten | Attributables.Attributable.RemoveAttribute |
| data/attributable.go:13-19 | `FirstAttribute` looks up `firstAtt` even when it is 0 | an owner with no attributes: `Find(0)` fails its assertion and panics | no first attribute when `firstAtt` is 0 | not executed | Attributables.FirstAttributeCorrected | Attributables.Attributable.FirstAttribute |
| data/edge.go:92-106 | `OutNext`/`InNext` look up a link of 0 | the last edge of a chain | the walk ends at a link of 0 | not executed | EdgeStores.NextCorrected | EdgeStores.EdgeStore.Next |
| data/vertex.go:62-105 | `FirstOut`/`FirstIn` (lines 67 and 90) look up the head even when it is 0, and the walk of `Out`/`In` looks up the last link 0 | a vertex with no outbound edges: `Find(0)` fails its assertion; with edges, the last edge's link 0 does the same, so `Out` and `In` panic on every vertex | the walk ends at a head or link of 0 | not executed | EdgeChains.WalkAsWrittenPanics | Vertices.BuildCache |
| data/attribute.go:78 | `val == 0` compares the interface `val`, holding a uint64, with the `int` constant 0, which is never equal | a boolean attribute of eight zero bytes decodes as true | a boolean is false when its value is 0 | not executed | Attributes.ZeroBooleanAsWritten | Attributes.BooleanFalseIffZero |
| data/vertex.go:70-144 | `Out` and `In` each decode their own copy of an untracked edge, and a removal relinks only the copy of its own cache | a loop 10 on a vertex heading the outbound chain 10, 11 and the inbound chain 10, 12, nothing tracked, both caches built: after removing 11 the store's edge 10 has `outNext` 0, but `In` still hands out edge 10 with `outNext` 11; removing 12 then relinks only that copy, so the store's edge 10 keeps `inNext` 12; with `Track` added at :138 as at :118, the store would take `outNext` 11 back | both caches see the relinked predecessor, and the chains stay well kept | not executed | Vertices.StaleCopyKeepsRemovedLink | Vertices.Vertex.RemoveOutboundEdge |
| data/vertex.go:136-138 | the inbound predecessor is relinked without being tracked | removing a later inbound edge whose predecessor is not tracked: the store's chain still runs through the removed edge | the predecessor is tracked, as the outbound case does at :116-118 | not executed | Vertices.Vertex.RemoveInboundEdgeAsWritten | Vertices.Vertex.RemoveInboundEdge |
| data/class.go:30, 39 | `constructClass` refuses every length but 8, then reads `bytes[8]` | the 9 bytes `Data` writes are refused, and 8 bytes panic | decode the 9-byte record `Data` writes | not executed | Classes.DataRefusedAsWritten | Classes.ConstructData |
| data/class_store.go:98 | `write` places class i at `i * 8`, so 9-byte records overlap | class 1 with next sibling 2, followed by class 2 with count 0: class 1 reads back with no next sibling | records 9 bytes apart | not executed | ClassStores.WriteAsWrittenOverlaps | ClassStores.WriteReadRoundTrip |
| data/class_store.go:113-120 | `readClasses` pre-fills `size / 9` nil slots and then appends | with the corrected record decoder, a file of one class reads back as `[nil, class 1]`, so `Find(1)` gives nil; as written, `constructClass` (data/class.go:30) already refuses every record, so the shift shows only once that is corrected | the class with id i at slot i - 1 | not executed | ClassStores.PrefillHidesFirstClass | ClassStores.ClassStore.ReadClasses |

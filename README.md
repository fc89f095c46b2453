# A verified model of a small SSTable engine

This project models, in Dafny, the core of a TypeScript sorted-string-table
(SSTable) library:

- the **block** format, with its builder and decoder;
- the **table writer**, which packs sorted records into data blocks and
  then writes index blocks and a trailer;
- the **table reader**, which parses the trailer and index and answers
  point lookups;
- the **table cursor**;
- the **merged view** over several tables and cursors;
- the in-memory **memtable**, which a save replays, sorted, into the
  writer.

## Overview

A file is a byte sequence (`seq<byte>`, with `byte` ranging over 0..255). The
writer appends to it. The reader takes it as a constant and reads slices of
it. A positioned read returns what the file holds from that position on,
never more than the file has. The reader's checks on the number of bytes
read come from that.

Every `assert.ok`, `throw` and `RangeError` in the source becomes a value
of the `Error` datatype in `results.dfy`: `OutOfOrder`, `OversizeField`,
`CorruptBlock`, `CorruptTable`, `OffsetOutOfRange`, `NoHandle`,
`EmptyTable` and `InvalidBlock`. An operation that can fail returns a
`Result`.

Modules, one per source file:

| module | file | what it is |
|---|---|---|
| `Bytes` | `bytes.dfy` | Shared: bytes, big-endian numbers of a fixed width, and the byte-wise order that `Buffer.compare` implements. |
| `Results` | `results.dfy` | Shared: `Option`, `Result` and `Error`. |
| `Seqs` | `seqs.dfy` | Shared: small sequence facts. |
| `Block` | `block.dfy` | `BlockBuilder` (a class), the record encoding, and the decoder. |
| `TableFormat` | `table_format.dfy` | The writer's specification: the greedy packing rule, the file layout, and the index and trailer encodings. |
| `TableBuilder` | `table_builder.dfy` | The writer. |
| `Table` | `table.dfy` | The reader. |
| `TableCursor` | `table_cursor.dfy` | The table cursor. |
| `MergedTable` | `merged_table.dfy` | The merged view. |
| `Memtable` | `memtable.dfy` | The memtable. |

The modelling follows one pattern throughout:

- **Stateful classes stay classes.** The source's stateful classes are
  `BlockBuilder`, `TableBuilder`, `Table`, `TableCursor`, `MergedCursor`
  and `Memtable`. Each is a Dafny class with the same fields, and its
  methods modify those fields.
- **Each class has a value-level specification.** The state is a datatype
  (`Writer`, `Cursor`, a sequence of cursors, a sequence of entries). One
  step function per operation says what the operation does to that state.
- **Methods are proved equal to their steps.** Each method's `ensures`
  says that it computes exactly what its step function computes. The
  properties the library promises are then lemmas about the step
  functions.

Where the code does something other than what its authors evidently
intend, the model follows the code. A lemma then exhibits the
consequence:

- **The reader recovers the wrong offset.** The writer stores a data
  block's offset as two zero bytes followed by a 48-bit big-endian number,
  in the 8-byte index value (src/table-builder.ts:79-80). The reader
  reads bytes 0..4 of that value as an unsigned 32-bit number
  (src/table.ts:71), which gives the offset divided by 2^32
  (`Table.IndexValueQuirk`). In any table under 4 GiB every offset
  therefore reads as 0 (`Table.OffsetsReadAsZero`). A lookup whose key
  falls in the second data block or later then reads a byte range it
  cannot decode a match from, and reports the key absent
  (`Table.LaterBlocksNotFound`). On a one-block table the first `get`
  on a fresh reader is answered correctly (`Table.GetOneBlockTable`).
- **Repeated `get`s on a one-block table find nothing.** Because
  `ensureOpen` appends the index again on every call (below), the second
  `get` sees the block's reference twice, both at offset 0. A key at or
  above the first key then selects the empty range [0, 0), and is
  reported absent (`Table.SecondGetOneBlock`). A fresh reader's first
  `get` answers from the block and its second finds nothing
  (`Table.GetTwiceOneBlock`).
- **`blockIdx` indexes the wrong copy.** It returns an index into a
  reversed copy of `blockEntries`, but `blockRange` uses that index on
  the original list (src/table.ts:78-92). `Table.BlockIdx` states what
  it returns; `Table.Lookup` uses it exactly as `get` does.
- **The merged cursor indexes the wrong list.** `nextCursorIndex` indexes
  the list of present peeks, but `next` then uses that index on all the
  cursors (src/merged-table.ts:34-47, 58, 67). When an exhausted source
  comes before a pending one, a pending entry can be skipped and
  `undefined` returned (`MergedTable.FilteredIndexQuirk`).
- **`peek` advances.** The merged cursor's `peek` calls `next` on the
  chosen source, so it advances exactly as `next` does
  (src/merged-table.ts:53-60).
- **`ensureOpen` repeats its work.** Every call, and so every `get`,
  re-reads the index and appends all its entries to `blockEntries` again
  (src/table.ts:16-76). `Table.Table.EnsureOpen` states the appended
  sequence.
- **`seek` keeps the loaded block.** The table cursor's `seek` does not
  clear `currentBlock`. If a block is already loaded, `seek` keeps it
  and searches it, even when the candidate block is another one
  (`TableCursor.SeekKeepsLoadedBlock`).
- **`seek` can pass over an equal key.** The writer accepts equal keys
  (it refuses only a smaller one, src/table-builder.ts:22). When equal
  keys straddle a block boundary, `blockIdx` picks the later block, so
  `seek` to that key and `next` return the later copy and the earlier
  one is passed over (`TableCursor.SeekSkipsDuplicate`). The entry
  returned still holds the least stored key at or above the search key
  (`TableCursor.SeekThenNextLeast`).
- **A fresh seek can fail with no match.** On a fresh cursor, a `seek`
  to a key below every first key leaves no block loaded. The following
  `next` then fails its "invalid block" assertion
  (`TableCursor.SeekNoCandidate`).

The code keeps no block cache: every lookup reads its block range from
the file again.

`readBlock` and the free `blockIdx` that the cursor imports are not part
of this model's source. They are given as described:

- block `i` is `blocks[i]`, a first key with its decoded entries;
- the candidate block is the rightmost block whose first key is at most
  the search key (`TableCursor.Candidate`).

## Model

| member | source | states |
|---|---|---|
| Block.FieldLimitIsU32Max | src/block.ts:4-10 | The 4294967295 field limit is the largest unsigned 32-bit value, so every length that passes the limit check fits its 4-byte header field. |
| Block.KeysOf | src/block.ts:100-102 | `keys`: the i-th key is the key of the i-th entry. |
| Block.RecordBytes | src/block.ts:22-37 | A record is 12 + key length + value length bytes long. |
| Block.BuildRecord | src/block.ts:22-37 | Fails with `OversizeField` exactly when the key or value is longer than the field limit. Otherwise it fills an allocated buffer in place to exactly the record encoding: a zero u32, the key length and value length as u32, then the key and value. |
| Block.CopyInto | src/block.ts:33-34 | `Buffer.copy`: the target equals the old bytes before `at`, then the copied bytes, then the old bytes after them. |
| Block.RecordsBytes | src/block.ts:61-66 | The records laid end to end take exactly the block's byte count. |
| Block.EncodedSizeZero | src/block.ts:45-55 | A block's byte count is zero exactly when it has no records, and at least 12 once it has one. |
| Block.BlockBuilder.constructor | src/block.ts:12-19 | A new builder holds no entries and satisfies the builder invariant. |
| Block.BlockBuilder.Add | src/block.ts:40-59 | A key below the previous key gives `OutOfOrder`; an equal key is accepted. A builder with no bytes always admits the record. Otherwise the record is refused (false) when it would take the block past 65536 bytes. That refusal leaves `records`, `byteLength` and `previousKey` unchanged. An oversize field gives `OversizeField`. An accepted record is appended, and `byteLength` grows by exactly its record size. The invariant keeps the keys non-decreasing and `byteLength` at most 65536 once two records are held. |
| Block.BuilderAppend | src/block.ts:53-56 | Appending an admitted record that fits and is in order keeps the builder invariant. |
| Block.AppendKeepsOrder | src/block.ts:41-43 | A key at or above the last key keeps the sequence of keys non-decreasing. |
| Block.BlockBuilder.Close | src/block.ts:61-66 | Returns the encoded block: all records in order, then four zero bytes. |
| Block.EncodeBlock | src/block.ts:61-66 | The bytes `close` returns: the records laid end to end, then a four-byte zero trailer. `Block.BlockRoundTrip` proves that decoding them gives back the entries. |
| Block.EmptyBlock | src/block.ts:61-66 | An empty builder closes to exactly `[0,0,0,0]`. |
| Block.DecodeBlock | src/block.ts:72-89 | The decoding loop returns exactly `ParseRecords` of the buffer without its last four bytes. A record header that runs past the end gives `CorruptBlock`; key and value slices clamp to the end, as `slice` does. |
| Block.ParseRecords | src/block.ts:75-88 | The records of a block body, in order. A record header cut short (fewer than 12 bytes left) is `CorruptBlock`, as `readUInt32BE` throws; a key or value running past the end is cut at the end, as `slice` clamps. `Block.ParseRecordsOfEncoding` proves it inverts `Block.RecordsBytes`. |
| Block.ValueEnd | src/block.ts:77-84 | The end of the first record's value lies between the end of its key and the end of the body, past the 12-byte header. |
| Block.ParseAt | src/block.ts:76-88 | One loop iteration at `offset` yields the entry whose key and value are the header-sized slices, then continues at the value's end. |
| Block.ParseFromSlice | src/block.ts:76-88 | Parsing from an offset equals parsing the body from that offset on. |
| Block.RecordsBytesCons | src/block.ts:61-66 | The encoding of a record followed by more records is the first record's bytes followed by the rest's encoding. |
| Block.ParseFirstRecord | src/block.ts:22-89 | Decoding the bytes of one record followed by anything yields that record, then the decoding of the rest. |
| Block.ParseRecordsOfEncoding | src/block.ts:61-89 | The records' bytes decode to exactly the same entries. |
| Block.BlockRoundTrip | src/block.ts:61-89 | Decoding a closed block yields exactly the entries added, in order. |
| Block.Find | src/block.ts:91-98 | `get`: nothing exactly when no entry has the key; otherwise the value of the first entry whose key equals it. |
| Bytes.BeRoundTrip | src/table-builder.ts:111-116 | A number written big-endian in a width that holds it reads back as the same number. |
| Bytes.BeBytesOfValue | src/table.ts:32-51 | Reading a byte string as a big-endian number and writing it back in the same width gives the same bytes. |
| Bytes.BeBytesPrefix | src/table.ts:71 | The first k bytes of a big-endian number are the number divided by 256 to the power of the dropped width. |
| Bytes.Compare | src/block.ts:41 | `Buffer.compare`: negative, zero or positive exactly when the first argument is byte-wise less than, equal to, or greater than the second. |
| Bytes.LessIrreflexive | src/block.ts:41 | No byte string is less than itself. |
| Bytes.LessAsymmetric | src/block.ts:41 | The order never holds both ways. |
| Bytes.LessTotal | src/merged-table.ts:44 | Any two byte strings are equal or ordered one way. |
| Bytes.LessTransitive | src/table-builder.ts:22-24 | The byte-wise order is transitive, for strict order and for least-or-equal. |
| TableFormat.Pack | src/table-builder.ts:34-38 | The blocks a run of adds forms: each entry joins the current block when the size rule admits it, and otherwise closes that block and starts the next. `TableFormat.PackProperties` and `TableFormat.PackGreedy` state its properties. |
| TableFormat.PackProperties | src/table-builder.ts:34-58 | Packing records one at a time by the block rule keeps each closed block non-empty and its size within the rule. The closed blocks and the open one hold exactly the input records, in order. |
| TableFormat.PackGreedy | src/table-builder.ts:34-38 | A new block is started only when the previous block refused its first record. |
| TableFormat.FirstKeysKey | src/table-builder.ts:40-55 | Index pair i holds the first key of data block i. |
| TableFormat.FirstKeysOffsetsIncrease | src/table-builder.ts:53-57 | The recorded block offsets increase strictly, and each one lies inside the bytes written. |
| TableFormat.FirstKeysSorted | src/table-builder.ts:22-42 | Blocks cut from a sorted run have non-decreasing first keys. |
| TableFormat.Offset48LimitIsPow | src/table-builder.ts:80 | The limit of `writeUIntBE(_, 2, 6)` is 2^48. |
| TableFormat.IndexValue | src/table-builder.ts:79-80 | Each index value is 8 bytes: two zero bytes, then the offset as a 48-bit big-endian number. |
| TableFormat.OffsetsBytes | src/table-builder.ts:111-114 | The trailer's offset area is 6 bytes per index block. |
| TableFormat.IndexBlocksShape | src/table-builder.ts:78-108 | At least one index block is written, and the index blocks hold exactly one entry per data block, in the order of the data blocks. |
| TableFormat.IndexBlocksFit | src/table-builder.ts:78-108 | Every index entry fits the field limits, so no index `add` throws. |
| TableFormat.PackIndex | src/table-builder.ts:78-108 | The packed index blocks encode without error. |
| TableFormat.BlocksSnoc | src/table-builder.ts:53-56 | Writing one more block appends its encoding to the file and records its start at the old file length. |
| TableFormat.FirstKeysSnoc | src/table-builder.ts:55 | Writing one more block appends the pair of its first key and its start offset. |
| TableFormat.TableFile | src/table-builder.ts:61-117 | The file `close` leaves for given data blocks: `EmptyTable` with no block, `OffsetOutOfRange` when an offset reaches 2^48 or the index-block count exceeds the u32 limit, and otherwise the data blocks, the index blocks and the trailer. `Table.OpenWrittenTable` reads it back. |
| TableBuilder.TableBuilder.constructor | src/table-builder.ts:17-19 | A new writer has no handle, no bytes, offset 0, no pairs, no block builder and no previous key. |
| TableBuilder.AddStep | src/table-builder.ts:21-45 | One `add` on the writer's state. A key below the previous one is `OutOfOrder` with nothing changed. Otherwise the handle is opened and a builder created; when the size rule refuses the record the current block is written first. A record whose lengths exceed the u32 limit is then `OversizeField`, and otherwise it is appended and the keys noted. |
| TableBuilder.TableBuilder.Add | src/table-builder.ts:21-45 | One `add` exactly as `AddStep` states. A key below the previous key gives `OutOfOrder` and changes nothing. Otherwise it opens the handle if needed and creates a block builder if there is none. When the builder refuses the record, it writes the current block and adds the record to the fresh builder. It sets `blockFirstKey` if unset and sets `previousKey`. |
| TableBuilder.TableBuilder.AddInOrder | src/table-builder.ts:26-45 | The part of `add` after the order check, as `AddStep` states. |
| TableBuilder.TableBuilder.Prepare | src/table-builder.ts:26-32 | Opens the handle and creates a block builder when missing. |
| TableBuilder.TableBuilder.PushRecord | src/table-builder.ts:34-38 | Adds the record, writing the current block first when the builder refuses it. Fails with `OversizeField` exactly when the record does not fit. |
| TableBuilder.TableBuilder.MarkKey | src/table-builder.ts:40-44 | Sets `blockFirstKey` when unset, and sets `previousKey` to the key. |
| TableBuilder.TableBuilder.WriteCurrentBlock | src/table-builder.ts:48-59 | Appends the closed block to the file and pushes the pair of the block's first key and the old offset. The offset grows by the block's length. `blockFirstKey` is cleared, and a fresh, empty block builder replaces the old one. |
| TableBuilder.WriteBlock | src/table-builder.ts:48-59 | `writeCurrentBlock` on the state: the block's bytes go on the file at the current offset, the `(firstKey, offset)` pair is recorded, the offset moves past the block, and a fresh builder with no first key starts. |
| TableBuilder.AddStepWritable | src/table-builder.ts:21-45 | Every `add`, failed or not, leaves the writer in a state from which `add` and `close` are defined. |
| TableBuilder.AddStepCoherent | src/table-builder.ts:21-45 | Every `add` keeps the writer's invariant. The pending records are sorted, with `blockFirstKey` the first and `previousKey` the last. The recorded first keys are sorted and at or below everything added later. |
| TableBuilder.WriteBlockLayout | src/table-builder.ts:48-59 | Writing the current block keeps the layout invariant: the file is exactly the written blocks, the offset is its length, and the pairs name each block's first key and start. |
| TableBuilder.AddStepLayout | src/table-builder.ts:21-45 | An in-order `add` succeeds exactly when the record fits. On success it makes exactly the packing step of the block rule on the written and pending blocks. |
| TableBuilder.RunCoherent | src/table-builder.ts:21-45 | Any run of `add` calls keeps the writer's invariant. |
| TableBuilder.RunLayout | src/table-builder.ts:21-59 | Adding a sorted run of fitting records from a new writer never fails. The file then holds exactly the closed blocks of the greedy packing, the pending records are its open block, and `previousKey` is the last key. |
| TableBuilder.RunFile | src/table-builder.ts:21-120 | For a sorted run of fitting records, closing after adding them gives `NoHandle` when the run is empty. Otherwise it gives exactly the table file of the greedy packing of the run. |
| TableBuilder.RunFileTable | src/table-builder.ts:21-120 | For a non-empty sorted run, the file written is the table file of its greedy packing, with every block non-empty. |
| TableBuilder.CloseFile | src/table-builder.ts:61-120 | The bytes `close` writes: `NoHandle` with no open handle; after the current block is flushed, `EmptyTable` with no data block and `OffsetOutOfRange` for an offset of 2^48 or more; otherwise the data, index and trailer bytes. `TableBuilder.CloseFileTable` proves it equals `TableFormat.TableFile` of the written blocks. |
| TableBuilder.CloseFileTable | src/table-builder.ts:61-120 | Closing an open writer whose file is the written blocks gives the table file of those blocks plus the pending one. |
| TableBuilder.IndexAdd | src/table-builder.ts:82-97 | One index-loop `add`. Without a builder, a fresh one takes the entry. When the current builder admits the entry, it is appended. Otherwise the old block's encoding is returned to be written, and a fresh builder takes the entry. |
| TableBuilder.IndexStep | src/table-builder.ts:78-98 | One iteration of the index loop keeps the loop invariant: the bytes and offsets written so far are those of the index packing of the pairs seen. |
| TableBuilder.IndexClose | src/table-builder.ts:100-108 | After the trailing index block is written, the bytes and offsets are exactly those of the packed index blocks. |
| TableBuilder.WriteIndex | src/table-builder.ts:74-108 | Writes the packed index blocks from the given offset and returns their start offsets. Fails with `OffsetOutOfRange` when a block offset does not fit 48 bits. |
| TableBuilder.TooFar | src/table-builder.ts:80 | One offset of 2^48 or more makes the index unwritable. |
| TableBuilder.BuildTrailer | src/table-builder.ts:110-116 | The trailer is the 6-byte big-endian index offsets followed by their count as a u32. Fails with `OffsetOutOfRange` when a value does not fit its field. |
| TableBuilder.TableBuilder.Close | src/table-builder.ts:61-120 | Succeeds exactly when `CloseFile` does, and the file is then its bytes. Without a handle it fails with `NoHandle`; without a data block, with `EmptyTable`. |
| TableBuilder.TableBuilder.WriteTail | src/table-builder.ts:69-117 | Writes the index blocks and the trailer after the last data block, with the same errors as `CloseFlushed`. |
| Table.ReadAt | src/table.ts:27-66 | A positioned read returns at most the requested length. The read is full exactly when it lies inside the file, and then it is that slice. |
| Table.Filled | src/table.ts:61-66 | The buffer after a read always has the requested length, and holds the slice when the read lies inside the file. |
| Table.RefOffsets | src/table.ts:49-52 | One offset per 6-byte field. |
| Table.ReadOffsets | src/table.ts:49-52 | The loop reads exactly the N 6-byte big-endian offsets. |
| Table.Table.constructor | src/table.ts:12-14 | A new reader is not open, has no index entries, and has `metaBlockStart` 0. |
| Table.ParseTrailer | src/table.ts:21-52 | `CorruptTable` for a file of four bytes or fewer, or one too short for the count in its last four bytes. Otherwise the count's u48 offsets from the bytes before the count, and where they start (`metaBlockPos`). `Table.TrailerOfTable` reads back what the writer wrote. |
| Table.Table.ReadTrailer | src/table.ts:21-52 | Exactly `ParseTrailer`. A file of 4 bytes or fewer gives `CorruptTable`. N is the big-endian u32 in the last four bytes. The offsets are N 6-byte values starting at size − 6N − 4, and a short read of them gives `CorruptTable`. |
| Table.TrailerOfTable | src/table.ts:21-52 | The trailer the writer appends parses back to the same offsets and index position. |
| Table.OffsetsOfTrailer | src/table.ts:49-52 | The offsets the writer encodes read back unchanged. |
| Table.Table.ReadIndexBlock | src/table.ts:56-73 | Reads index block i, taken as `[off[i], off[i+1])` or ending at size − 6N − 4 for the last one. A short read gives `CorruptTable`. It appends the pair of each decoded key and the u32 from bytes 0..4 of the value. |
| Table.Table.PushRefs | src/table.ts:70-73 | Appends one index entry per decoded entry, in order. It fails with `CorruptBlock` on a value too short to hold a u32, as `readUInt32BE` does. |
| Table.Table.ScanIndex | src/table.ts:54-75 | The index loop appends exactly the entries `ScanFrom` gives, stopping at the first error. It sets `metaBlockStart` to `off[0]` once the first index block has been read. |
| Table.Table.EnsureOpen | src/table.ts:16-76 | Every call appends the whole index again and sets `metaBlockStart` as `OpenScan` states; the result is `OpenScan`'s. |
| Table.OpenScan | src/table.ts:16-76 | One `ensureOpen` as a value: the trailer's error, or the index blocks scanned in order up to the first that fails, the references pushed before that, and `metaBlockStart` set once the first index block was read. `Table.OpenWrittenTable` states it for a written file. |
| Table.ValueRefsIndex | src/table.ts:70-73 | The index entries the writer makes read back as the pairs of each first key and its offset divided by 2^32. |
| Table.IndexValueQuirk | src/table.ts:71 | Bytes 0..4 of an index value read as offset div 2^32, not as the offset written. |
| Table.OpenWrittenTable | src/table.ts:16-76 | Opening a file the writer produced succeeds. The index entries are the blocks' first keys with offset div 2^32, and `metaBlockStart` is the end of the data blocks. |
| Table.OffsetsReadAsZero | src/table.ts:71 | In a table whose data is under 4 GiB, every offset taken from the index is 0. |
| Table.Reversed | src/table.ts:79-81 | The reversed copy holds the entries in reverse order. |
| Table.FindAtMost | src/table.ts:82 | `findIndex` of the first entry whose key is at most the search key, or −1 exactly when none is. |
| Table.BlockIdx | src/table.ts:78-83 | −1 exactly when every index key is greater than the search key. Otherwise `r` counts from the end: entry `len−1−r` is the rightmost entry with key at most the search key. |
| Table.BlockRange | src/table.ts:85-92 | The byte range of reference `idx`: from its offset to the next reference's offset, or to `metaBlockStart` for the last reference. |
| Table.Lookup | src/table.ts:95-109 | `get` once open: nothing when `blockIdx` is -1; `CorruptTable` for a negative range, as `Buffer.alloc` throws; the block decoder's error; otherwise `Block.Find` in the decoded range. `Table.LookupSingle` and `Table.LookupPastFirst` state its outcomes on the reader's references. |
| Table.Table.Get | src/table.ts:95-109 | Opens (re-appending the index) and passes on any open error. Otherwise it returns `Lookup`: nothing when `blockIdx` is −1, `CorruptTable` for a negative byte range, and otherwise `get` on the decoded bytes of the block range at the returned index. |
| Table.LookupSingle | src/table.ts:85-109 | With one index entry at offset 0, the lookup decodes the bytes before `metaBlockStart` and finds the key there, when the key is at or above the first key. |
| Table.LookupPastFirst | src/table.ts:78-109 | With all offsets 0 and a key at or above the second index key, the byte range is empty and the lookup finds nothing. |
| Table.GetOneBlockTable | src/table.ts:16-109 | On a one-block table as written, the first `get` after one `ensureOpen` returns the block's value for the key, and nothing for a key below the first key. |
| Table.SecondGetOneBlock | src/table.ts:16-109 | With the one-block table's reference appended twice, as the second `ensureOpen` leaves it, every key reads as absent. |
| Table.GetTwiceOneBlock | src/table.ts:95-109 | On a fresh reader of a one-block table, the first `get` answers from the block and the second `get` of the same key returns nothing. |
| Table.LaterBlocksNotFound | src/table.ts:71-109 | On a written table under 4 GiB with two or more data blocks, `get` of any key at or above the second block's first key returns nothing. |
| TableCursor.TableCursor.constructor | src/table-cursor.ts:12-25 | A new cursor is at block 0, offset 0, with no block loaded. |
| TableCursor.EnsureStep | src/table-cursor.ts:32-65 | `ensureBlock` on the cursor's state: false past the last block; the block at the index is loaded when none is; at the end of the loaded block the cursor moves to offset 0 of the next block and loads it, giving false when there is none. |
| TableCursor.TableCursor.EnsureBlock | src/table-cursor.ts:32-65 | `ensureBlock` as `EnsureStep` states. It is false past the last block. It loads the block if none is loaded. At the end of a loaded block it moves to offset 0 of the next block and loads it, or returns false past the last. |
| TableCursor.PeekStep | src/table-cursor.ts:67-76 | `peek`: `InvalidBlock` when no block is loaded after `ensureBlock`, nothing when it says false, and otherwise the entry at the offset (nothing past the end), with the offset kept. |
| TableCursor.TableCursor.Peek | src/table-cursor.ts:67-76 | As `PeekStep` states: `InvalidBlock` when no block is loaded, nothing when not ready, and otherwise the entry at the offset (nothing past the block's end). |
| TableCursor.NextStep | src/table-cursor.ts:78-89 | `next`: as `peek`, and a returned entry moves the offset on by one. `TableCursor.NextRemaining` proves it returns the first remaining entry. |
| TableCursor.TableCursor.Next | src/table-cursor.ts:78-89 | As `NextStep` states: the same answer as `peek`, and the offset goes up by exactly one when ready. |
| TableCursor.SeekStep | src/table-cursor.ts:91-117 | `seek`: with no candidate block the index goes past the last block at offset 0; otherwise to the candidate at offset 0, `ensureBlock` runs, and the offset goes to the first entry of the loaded block at or above the key, or its end. |
| TableCursor.TableCursor.Seek | src/table-cursor.ts:91-117 | As `SeekStep` states. With no candidate block, the index becomes the block count and the offset 0. Otherwise it moves to the candidate, loads it if none is loaded, and sets the offset to the first entry at or above the key, or to the block's end. |
| TableCursor.Candidate | src/table-cursor.ts:92 | The rightmost block whose first key is at most the key, or −1 exactly when there is none. |
| TableCursor.FirstAtLeast | src/table-cursor.ts:108-110 | The first entry whose key is at least the search key, or −1 exactly when every key is below it. |
| TableCursor.ExhaustedSticky | src/table-cursor.ts:33-83 | Past the last block, `next` and `peek` keep answering nothing, or `InvalidBlock` if no block was ever loaded, and change nothing. |
| TableCursor.PeekIsNext | src/table-cursor.ts:67-89 | `peek` answers what `next` answers. `next` leaves the state `peek` leaves, with the offset one higher when ready. |
| TableCursor.PeekThenNext | src/table-cursor.ts:67-89 | After `peek` returns an entry, `next` returns the same entry and advances by one. |
| TableCursor.NextRemaining | src/table-cursor.ts:32-89 | `next` returns the first entry still ahead and drops exactly it. When none is ahead, it returns nothing, or `InvalidBlock` with no block loaded. |
| TableCursor.NextInBlock | src/table-cursor.ts:78-89 | Inside a block, `next` returns the entry at the offset and moves one entry on. |
| TableCursor.NextNextBlock | src/table-cursor.ts:48-89 | At the end of a block, `next` returns the first entry of the next block. |
| TableCursor.NextLastBlock | src/table-cursor.ts:48-54 | At the end of the last block, `next` returns nothing. |
| TableCursor.PullRemaining | src/table-cursor.ts:78-89 | n calls of `next` return the next n entries ahead, in order, and leave the rest ahead. |
| TableCursor.DrainFresh | src/table-cursor.ts:32-89 | Draining a new cursor over non-empty blocks returns every entry of every block in block order, then nothing. With no blocks it fails with `InvalidBlock`. |
| TableCursor.PullAll | src/table-cursor.ts:32-89 | From any position, calling `next` once more than the entries ahead returns them all, then nothing. |
| TableCursor.SeekNoCandidate | src/table-cursor.ts:94-99 | With no candidate block, `seek` moves to the end with offset 0. The following `next` returns nothing, or `InvalidBlock` when no block was loaded. |
| TableCursor.SeekKeepsLoadedBlock | src/table-cursor.ts:101-116 | With a block already loaded, `seek` does not reload: it searches the loaded block, whatever the candidate is. |
| TableCursor.SeekFreshState | src/table-cursor.ts:101-116 | On a new cursor with a candidate, `seek` loads the candidate block and sits at the first entry at or above the key, or at the block's end. |
| TableCursor.SeekFresh | src/table-cursor.ts:91-117 | On a new cursor over a table with strictly increasing keys, the entries ahead after `seek` are a suffix of the table. Every entry before it is below the key, and every entry in it is at or above the key. |
| TableCursor.SeekThenNext | src/table-cursor.ts:78-117 | On a new cursor over a table with strictly increasing keys, the `next` after `seek` returns the smallest stored entry at or above the key, or nothing when there is none. |
| TableCursor.SeekThenNextLeast | src/table-cursor.ts:78-117 | On a new cursor over any table the writer accepts, equal keys included: the `next` after `seek` returns an entry holding the least stored key at or above the key, or nothing exactly when every stored key is below it. Entries before it are at or below the key, those from it on at or above. |
| TableCursor.SeekSkipsDuplicate | src/table-cursor.ts:91-117 | With blocks `[(1,0),(5,1)]` and `[(5,2),(9,3)]`, a new cursor's `seek(5)` then `next` returns `(5,2)`, passing over the earlier `(5,1)` with the same key. |
| MergedTable.FirstError | src/merged-table.ts:13 | The first failing answer, in list order, or none exactly when every answer succeeded. |
| MergedTable.FirstFound | src/merged-table.ts:14 | `find((r) => r !== undefined)`: nothing exactly when every table answered nothing; otherwise the first defined answer. |
| MergedTable.MergedGet | src/merged-table.ts:12-15 | `get` given each table's answer: the first failing table's error, otherwise the first defined answer in list order, or nothing when there is none. `MergedTable.MergedGetPriority` states which table wins. |
| MergedTable.MergedGetPriority | src/merged-table.ts:12-15 | `get` returns the value of the earliest table, in list order, that has the key. |
| MergedTable.Present | src/merged-table.ts:34-36 | The filtered peeks number at most the peeks. |
| MergedTable.PresentEmpty | src/merged-table.ts:34-40 | The filtered list is empty exactly when every peek is undefined. |
| MergedTable.PresentAll | src/merged-table.ts:34-36 | With every peek defined, the filter keeps them all, in order. |
| MergedTable.MinKeyIsMin | src/merged-table.ts:42-45 | The first key after sorting is one of the keys and at most every key. |
| Block.FirstWithKey | src/merged-table.ts:47 | `findIndex` of the first entry with the key, or −1 exactly when none has it. The memtable uses it for where its map holds a key. |
| MergedTable.MinIndex | src/merged-table.ts:34-50 | `nextCursorIndex` over the peeks: -1 when none is defined, otherwise an index into the filtered list, below its length, at the first entry holding the smallest key. `MergedTable.MinIndexSpec` states which entry it picks. |
| MergedTable.MinIndexSpec | src/merged-table.ts:30-51 | `nextCursorIndex` is −1 exactly when every peek is undefined. Otherwise it indexes the filtered list at the first entry holding the minimum key. |
| MergedTable.PeekAll | src/merged-table.ts:31 | Peeks every source once, in order. |
| MergedTable.MergedCursor.constructor | src/merged-table.ts:26-28 | The merged cursor holds the given sources. |
| MergedTable.MergedCursor.NextCursorIndex | src/merged-table.ts:30-51 | The loop peeks every source and returns `NextIndexStep`'s answer, failing with the first error of any peek. |
| MergedTable.MergedCursor.Next | src/merged-table.ts:62-69 | As `AdvanceStep` states: nothing when the index is −1, otherwise `next` on the cursor at that index. |
| MergedTable.MergedCursor.Peek | src/merged-table.ts:53-60 | The same step as `next`, including advancing the chosen source. |
| MergedTable.AdvanceStep | src/merged-table.ts:53-69 | `next` and `peek` on the sources: a failing peek's error; nothing when `nextCursorIndex` is -1; otherwise `next` on the source at the filtered index, with that source replaced. `MergedTable.AdvanceAllPending` and `MergedTable.FilteredIndexQuirk` state its outcomes. |
| MergedTable.MergedCursor.Advance | src/merged-table.ts:53-69 | The body the source repeats in `peek` and `next`. |
| MergedTable.MergedCursor.Seek | src/merged-table.ts:71-73 | Forwards the key to every source and changes nothing else. |
| MergedTable.SeekAll | src/merged-table.ts:72 | One sought source per source. |
| MergedTable.NextIndexAllPending | src/merged-table.ts:30-51 | With no source exhausted, `nextCursorIndex` is the minimum-key index over all heads. |
| MergedTable.AdvanceAllPending | src/merged-table.ts:47-68 | With no source exhausted, `next` returns the smallest pending key, breaking ties by the lowest source index. It advances exactly that source by one and leaves the others as peeked. |
| MergedTable.AdvanceAt | src/merged-table.ts:62-69 | When the index is r, `next` is the source's `next` on cursor r and changes only cursor r. |
| MergedTable.AdvanceNonePending | src/merged-table.ts:38-66 | When every source's peek is undefined, `next` returns nothing. |
| MergedTable.AdvanceFails | src/merged-table.ts:31-63 | A failing peek of any source makes `next` fail. |
| MergedTable.FilteredIndexQuirk | src/merged-table.ts:34-67 | An exhausted first source and a pending second: the filtered index 0 selects the exhausted cursor, and `next` returns nothing although an entry is pending. |
| MergedTable.PeekSingleBlock | src/table-cursor.ts:67-76 | Peeking a new one-block cursor loads the block and returns its first entry. |
| MergedTable.DuplicatesFirst | src/merged-table.ts:44-68 | Duplicate keys in two sources are both kept: `next` first returns the earlier source's entry. |
| MergedTable.DuplicatesSecond | src/merged-table.ts:44-68 | After that, `next` returns the later source's entry with the same key. |
| Memtable.Upsert | src/memtable.ts:15-25 | `Map.set` on the entries: a key already held keeps its place and takes the new value; a new key goes at the end. `Memtable.UpsertGetSame`, `Memtable.UpsertGetOther` and `Memtable.UpsertKeys` state its effect. |
| Memtable.UpsertGetSame | src/memtable.ts:15-29 | After `put(k, v)`, `get(k)` is v. |
| Memtable.UpsertGetOther | src/memtable.ts:15-29 | After `put(k, v)`, every other key's value is unchanged. |
| Memtable.UpsertKeys | src/memtable.ts:11-23 | `put` keeps keys distinct and adds exactly k to the key set. The entry count grows by one exactly when k was absent, so re-putting a key keeps the size. |
| Memtable.UpsertTotal | src/memtable.ts:15-25 | `put` takes the old entry's bytes off the total when the key was held, and adds the new key and value bytes. |
| Memtable.DistinctCount | src/memtable.ts:11-13 | With distinct keys, the number of keys is the number of entries. |
| Memtable.Memtable.constructor | src/memtable.ts:3-5 | A new memtable is empty, with `byteLength` 0. |
| Memtable.Memtable.Put | src/memtable.ts:15-25 | Sets the key's value in place and keeps `byteLength` equal to the total key and value bytes held. |
| Memtable.Memtable.Get | src/memtable.ts:27-29 | Nothing exactly when the key was never put; otherwise the value held for it. |
| Memtable.Memtable.ByteLength | src/memtable.ts:7-9 | `byteLength` is the sum over the held entries of key length plus value length. |
| Memtable.Memtable.Size | src/memtable.ts:11-13 | `size` is the number of distinct keys. |
| Memtable.SortByKey | src/memtable.ts:32-33 | The entries sorted by key, as an insertion sort; `Memtable.SortByKeySorted` proves it a permutation in ascending key order. |
| Memtable.SortByKeySorted | src/memtable.ts:32-33 | The sorted copy is a permutation of the entries, in ascending key order. |
| Memtable.AscendingKeys | src/memtable.ts:33 | Ascending entries have strictly increasing, and so non-decreasing, keys. |
| Memtable.PermutationFits | src/memtable.ts:32-33 | Sorting keeps every entry, so whether all fit is unchanged. |
| Memtable.AddAll | src/memtable.ts:37-39 | The loop adds every entry once, in order, stopping at the first error, exactly as the run of `AddStep` states. |
| Memtable.RunOkFits | src/memtable.ts:37-39 | A run of adds that succeeds only held entries whose fields fit. |
| Memtable.RunStops | src/memtable.ts:37-39 | After the first failing add, the rest of the run is not attempted. |
| Memtable.SaveFile | src/memtable.ts:31-42 | What `save` writes: the sorted entries added one by one to a fresh writer, stopping at the first failing add, then `close`. `Memtable.SaveWritesTable` states the file it writes. |
| Memtable.Memtable.Save | src/memtable.ts:31-42 | Returns exactly `SaveFile` of the entries, and changes nothing in the memtable, since the sort works on a copy. |
| Memtable.SaveWritesTable | src/memtable.ts:31-42 | For a non-empty memtable whose fields fit, `save` sorts a permutation of the entries into strictly ascending keys, so no order check fires. It writes the table file of their greedy packing into non-empty blocks that hold exactly those entries in order. |
| Memtable.SaveEmpty | src/memtable.ts:31-42 | Saving an empty memtable fails, because `close` finds no handle. |
| Memtable.SaveNeedsFit | src/memtable.ts:37-41 | A save that succeeds held only entries whose fields fit. |

## Left out

- I/O is not modelled. The file is a byte sequence.
  - Paths, `fs.open` with `"wx"` and `"r"`, `stat` and `handle.close` are left out.
  - The failure of `"wx"` on an existing path is left out.
  - The writer's handle is a three-state value (`Unopened`, `Open`, `Closed`).
  - A `Table` is built from the file's bytes rather than from a path.
  - `Table.close` is left out.
- `async` and `Promise.all` are modelled sequentially, in list order. When several tables fail at once, `get` reports the first failure in list order (`MergedTable.FirstError`); the source rejects with whichever promise rejects first.
- Keys in the memtable are taken as ASCII. The source keys its map by `key.toString()` and sorts with JavaScript's `<` on strings; both are identical to byte order and byte equality only for ASCII keys. The map is a sequence of entries in insertion order with distinct keys.
- `Memtable.SortByKey` is an insertion sort. The source's `Array.sort` gives the same result because the keys are distinct.
- `MergedTable.MergedCursor` holds its sources as `TableCursor.Cursor` values and drives them by the cursor's step functions. It does not hold references to `TableCursor` objects, so aliasing between sources is not modelled.
- `TableCursor` is given its blocks already decoded, because `readBlock` is not part of this model. A failure of `readBlock` is therefore not modelled: loading a block always succeeds.
- `TableCursor.SeekFresh` and `TableCursor.SeekThenNext`: the search property is proved for a fresh cursor only. After reads, `seek` searches whatever block is loaded, as `TableCursor.SeekKeepsLoadedBlock` states.
- `TableCursor.SeekFresh` and `TableCursor.SeekThenNext` also require strictly increasing keys, since with equal keys across a block boundary an earlier entry equal to the key is passed over (`TableCursor.SeekSkipsDuplicate`) and "every entry before is below the key" fails. For the tables the writer accepts, equal keys included, `TableCursor.SeekThenNextLeast` states what then holds: the least stored key at or above the key.
- Use of the writer after a successful `close` is not modelled as the source does it. The source would fail in the file system on the closed handle. In the model, `add` keeps buffering, and a second `close` fails with `NoHandle`.
- `TableBuilder.TableBuilder.Close`: after a failed `close` the model states only the result; the writer's fields are then left as the method left them.
- `Memtable.SaveNeedsFit` states that a successful save had fitting fields. It does not state the converse, that an oversize field makes `save` fail with `OversizeField`.
- `Table.ParseTrailer` refuses at once, with `CorruptTable`, a file too short for the count in its last four bytes. The code instead goes on with a negative `metaBlockPos`, and a later read or allocation fails: for -1, the offsets come from the handle's current position and the index loop then calls `Buffer.alloc` with a negative size. Either way the call ends in an error; the model does not distinguish which step fails.
- `TableCursor.close` is left out. It only throws "not implemented".
- The `Cursor` interface in `cursor.ts` is left out. It has no behaviour; the cursor's operations are modelled as `TableCursor`'s.
- The code stores blocks uncompressed, with a block target of 65536 bytes (src/block.ts:4); there is no compression to model.
- Numbers are unbounded, except where the source writes a fixed-width field:
  - u32 lengths and counts, and 48-bit offsets, are range-checked and give `OversizeField` or `OffsetOutOfRange`, as `writeUInt32BE`/`writeUIntBE` throw;
  - JavaScript's 2^53 limit on `number` is not modelled.

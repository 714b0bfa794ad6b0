# automerge-go: a verified model

automerge-go wraps the Automerge CRDT engine, compiled to WASM, in a Go API. The engine itself is an
external crate. This project models the layers around it in Dafny and proves what they promise:

* **The document tree** (`GoValues`, `Utf8Text`, `Meanings`, `Stores`, `Document`, `Paths`, `Handles`). The engine is a heap of
  map, list and text objects. Every document that any run of engine calls can reach is a tree, which is
  what makes reading terminate. A nested value that is written is read back as its normalized form,
  whatever order Go visits map keys in; a write through a path creates what is missing on the way and,
  whether it succeeds or fails, leaves everything alone that is not reached through the path.
* **The binary format** (`Words`, `Leb128`, `Leb128Errors`, `Chunks`, `ChangeStream`,
  `ChangePieces`, `Columns`). The bit-level LEB128
  loops are proved against the numbers that encodings denote (section 7.6 of DWARF 5): the strict readers
  accept exactly the shortest encodings. From that follow exact results about chunks, compression,
  checksum repair, stream splitting and the column printers.
* **The call protocol** (`CallProtocol`, `CallAnswers`, `Locks`, `Orders`, `ConcurrentAppend`, `ConcurrentSets`,
  `HandleTable`). Two-phase calls by any number of goroutines, the document mutexes with their one-shot
  unlock, concurrent appends and writes through paths, and the table of object handles, as state
  machines; the results hold in every reachable state.
* **Printers and codecs** (`JsonGrammar`, `RichTextJson`, `RichTextSpans`, `LittleEndian`, `Codes`,
  `Framing`, `ChangeRecords`, `TaggedValues`). The JSON printed for rich text is parsed back to the tree
  that was printed, under the grammar of sections 2 to 7 of RFC 8259. The binary records that Go and Rust
  write and read independently are exact codes: what is written is read back whatever follows, only what
  is written is accepted, and every strict prefix is rejected.

Code that works by updating variables or objects is written as methods and classes, each proved against
a function of its inputs or of the old state; the theorems are lemmas about those functions and states.
`dafny verify dfyconfig.toml` checks the whole project.

## Where the code differs from its documentation

* `LoadChanges` promises an error for malformed input. `splitChangeChunks` adds offset and length in
  wrapping uint64, so some malformed streams make it loop for ever (`DivergingStream`) or panic
  (`PanickingStream`); `StuckExactlyWhenWrappingBack` says exactly which streams do it.
* `List.Append` says that it adds at the end. Under concurrency a value lands at the end exactly if
  nothing was inserted since the length was read (`LandsAtEnd`). One goroutine's own values can end in
  reverse order (`OwnOrderIsNotKept`); they keep their order exactly if at none of its insertions its
  latest value has been pushed to the index that it read, or beyond (`OwnOrderExactly`).
* `Path.Set` says that it sets the value. Two calls that create the same parent can both succeed although
  one value is lost (`LosingRun`). A call that succeeded is what its path reads exactly if no other call
  wrote an entry that it had passed, nor its last entry after it (`SetReadsBackExactly`).
* `List.Delete` on a list that is still bound to a path always fails: the path is not resolved, and the
  handle is that of the root map. `DeleteThroughPathFails` builds such a list and deletes from it.
* A detached text or counter can be written once. A value that contains the same one twice is refused
  half way (`TextsInOneList`).
* A comment in `scalar_to_json` speaks of base64; the code prints hexadecimal digits.
* A length field of 2^32 or more cannot be written; `EncodeLengthPrefixedList` then writes the length
  modulo 2^32. `ListRoundTrip` says exactly when lists survive.
* A 32-bit sum in `am_apply_changes` overflows for some truncated items; the call then traps instead of
  returning -5. `ApplyChanges` gives the exact condition, `TrappingData` four bytes that do it.

## Model

| member | source | states |
|---|---|---|
| `Leb128.Leb128` | cmd/automerge-debug/main.go:20-34 | The writer's loop produces the shortest unsigned LEB128 encoding of every 64-bit number. |
| `Leb128.ReadULEB` | cmd/automerge-debug/main.go:36-61 | The loop over bits with 64-bit shifts computes value, rest and error as defined by the denoted number, on every input including truncated, overlong and too large ones. |
| `Leb128.ReadSLEB` | cmd/automerge-debug/main.go:63-93 | The same for the signed reader, sign extension included. |
| `Leb128.FinishSLEB` | cmd/automerge-debug/main.go:76-90 | Or-ing in the sign bits gives the two's complement value of what was read, and the three checks in their order. |
| `Leb128.ReadULEB128` | internal/wazero/wazero.go:197-211 | The lenient reader computes the denoted number modulo 2^64 within ten bytes. |
| `Leb128.ULEBShape` | cmd/automerge-debug/main.go:20-34 | A written number has one terminating byte, denotes the number, and has no zero group at the end. |
| `Leb128.WrittenIsRead` | cmd/automerge-debug/main.go:20-61 | Reading what was written, in front of anything, gives the number and exactly that rest. |
| `Leb128.ReadIsWritten` | cmd/automerge-debug/main.go:36-61 | Whatever the strict reader accepts is byte for byte what the writer writes for the result. |
| `Leb128.StrictReadInvertsWrite` | cmd/automerge-debug/main.go:20-61 | Reader and writer are exact inverses over all 64-bit values: acceptance with (n, r) if and only if the input is the encoding of n followed by r. |
| `Leb128.ULEBFits` | cmd/automerge-debug/main.go:48-59 | The length and tenth-byte checks admit exactly the numbers below 2^64. |
| `Leb128.LenientAgreesWithStrict` | internal/wazero/wazero.go:197-211 | Where the strict reader accepts, the lenient one gives the same value and length. |
| `Leb128.LenientExcess` | internal/wazero/wazero.go:197-211 | What the lenient reader accepts in addition: exactly padded encodings of up to ten bytes and ten-byte encodings whose last byte does not fit. |
| `Leb128.EncodedIsRead` | cmd/automerge-debug/main.go:63-93 | Every int64 in its shortest signed encoding is read back, with the rest untouched. |
| `Leb128.ReadIsEncoded` | cmd/automerge-debug/main.go:63-93 | The signed reader returns the true sign-extended value, and accepts only shortest encodings. |
| `Leb128.SignedReadInvertsEncoding` | cmd/automerge-debug/main.go:63-93 | Every int64, both extremes included, has exactly one accepted encoding (if and only if). |
| `Leb128.SLEBFits` | cmd/automerge-debug/main.go:80-89 | The signed reader's checks admit exactly the int64 range. |
| `Leb128Errors.UnsignedErrorsMean` | cmd/automerge-debug/main.go:36-61 | Each error of the unsigned reader means what it says: truncated, a shorter encoding exists, or the number does not fit 64 bits (each if and only if). |
| `Leb128Errors.SignedErrorsMean` | cmd/automerge-debug/main.go:63-93 | The same for the signed reader and the int64 range. |
| `Chunks.ValidIsFrame` | cmd/automerge-debug/main.go:172-200 | A chunk is valid with payload p if and only if it is the frame around p: the length field has one encoding. |
| `Chunks.FrameIsValid` | cmd/automerge-debug/main.go:97-102 | A framed payload validates to itself for any kind and checksum, and header fields sit where they should. |
| `Chunks.HeaderMatches` | cmd/automerge-debug/main.go:97-102 | A built header carries the digest of the kind, length and payload behind it. |
| `Chunks.CompressSucceedsExactly` | cmd/automerge-debug/main.go:202-227 | Compressing succeeds if and only if the input is a valid change chunk; the result is a valid compressed chunk of the deflated payload with the same first eight bytes. |
| `Chunks.DecompressSucceedsExactly` | cmd/automerge-debug/main.go:229-245 | Decompressing succeeds if and only if the input is a valid compressed chunk that inflates; the result is a valid change chunk of the inflated payload. |
| `Chunks.CompressedIsFrame` | cmd/automerge-debug/main.go:202-227 | Compression keeps the checksum, changes the kind to 2 and frames the deflated payload. |
| `Chunks.DecompressInvertsCompress` | cmd/automerge-debug/main.go:202-245 | Decompressing what compressing produced gives the chunk back byte for byte, for any lossless DEFLATE. |
| `Chunks.WriteChecksum` | cmd/automerge-debug/main.go:261-265 | Writes four digest bytes into the caller's slice and nothing else. |
| `Chunks.FixChecksum` | cmd/automerge-debug/main.go:247-272 | In place for plain chunks, into fresh bytes for compressed ones (the caller's bytes stay); errors leave the input as it was. |
| `Chunks.FixChecksumSettles` | cmd/automerge-debug/main.go:247-272 | Repair leaves a matching checksum for plain and compressed chunks, keeps the kind, and repairing again changes nothing. |
| `Chunks.FixSucceedsExactly` | cmd/automerge-debug/main.go:247-272 | Repair succeeds if and only if the chunk is valid, no document and, if compressed, inflates; it keeps kind and contents. |
| `ChangeStream.StepOn` | internal/wazero/wazero.go:163-190 | One round of the loop, with wrapping uint64 sums; an accepted piece never reaches past the data. |
| `ChangeStream.SplitChangeChunks` | internal/wazero/wazero.go:157-193 | The loop gives the pieces, the error, the panic or the divergence that cutting the stream step by step gives. |
| `ChangeStream.SaveChanges` | changes.go:90-96 | Saving concatenates the raw changes. |
| `Cutting.PiecesPartition` | internal/wazero/wazero.go:157-193 | For any stepper: the pieces are not empty and concatenate back to the stream. |
| `ChangeStream.AcceptedPiecesPartition` | internal/wazero/wazero.go:157-193 | The pieces of any accepted input concatenate to it and none is empty, so the offset strictly increases. |
| `ChangeStream.SplitDistributes` | internal/wazero/wazero.go:157-193 | Splitting the concatenation of accepted streams gives the chunks of both, in order. |
| `ChangeStream.ChangeChunkSplits` | internal/wazero/wazero.go:157-193 | A well-formed change chunk, by the strict reader, is one piece for the lenient one. |
| `ChangeStream.SplitInvertsSave` | changes.go:76-96 | Splitting what was saved gives exactly the saved chunks. |
| `ChangeStream.HeaderAcceptedByBoth` | cmd/automerge-debug/main.go:97-102 | A chunk built with kind 1 or 2 is accepted by the tool and by the splitter, with the same payload. |
| `ChangePieces.AcceptedExactly` | internal/wazero/wazero.go:157-193 | A stream is accepted as given pieces if and only if it is their concatenation and each is, by its bytes, a chunk of type 1 or 2 whose length field denotes its length; documents and all else are never accepted. |
| `ChangePieces.OverflowIsRejected` | internal/wazero/wazero.go:183-189 | A length whose sum overflows but still ends behind the start is followed by a round that fails. |
| `ChangeStream.WrapsBackExactly` | internal/wazero/wazero.go:183-184 | A round makes no progress exactly if the declared length wraps the end back. |
| `ChangeStream.StuckExactlyWhenWrappingBack` | internal/wazero/wazero.go:157-193 | The promised error is missing (divergence or panic) if and only if the loop reaches a length field that wraps back. |
| `ChangeStream.DivergingStream` | internal/wazero/wazero.go:183-184 | A concrete 19-byte stream on which the loop never ends. |
| `ChangeStream.PanickingStream` | internal/wazero/wazero.go:183-188 | A concrete 29-byte stream on which the second chunk would end before it starts, and the slice allocation panics. |
| `GoValues.NormalizeGivesNormal` | normalize.go:12-114 | Normalizing leaves only plain values, lists and string-keyed maps, at every depth. |
| `GoValues.NormalIsFixed` | normalize.go:12-114 | Normalizing twice is normalizing once, so nested writes may normalize again. |
| `Meanings.NormalizeKeepsMeaning` | normalize.go:12-114 | The result of normalize means the same as its argument: numbers, pointers, lists, maps and structs by the last field of each name that is not omitted; smaller integers become floats. |
| `Meanings.NormalizeFailsExactly` | normalize.go:12-114 | normalize fails if and only if an unsupported value can be reached through pointers, items, entries, and fields that are not omitted. |
| `Meanings.StoredMeansTheSame` | value.go:169-206 | What Interface returns after a value was written means the same as the value, texts as strings and counters as numbers included. |
| `Utf8Text.Utf8Exactly` | wasi/src/map_ops.rs:34-37 | What is taken as UTF-8 is exactly what encodes some sequence of Unicode scalar values. |
| `GoValues.TextsInOneList` | list.go:244-259 | Two detached texts in one list can be stored exactly if they are UTF-8 and not the same object. |
| `Stores.ApplyKeepsTree` | wasi/src/map_ops.rs:22-73 | Every engine operation keeps the document a tree: children above parents, one parent slot each. |
| `Stores.ListPutKeepsTree` | wasi/src/list_ops.rs:15-72 | The same for inserting and overwriting in lists, where indexes shift. |
| `Stores.ListDeleteKeepsTree` | wasi/src/list_ops.rs:117-128 | The same for deleting from lists. |
| `Stores.EveryDocumentIsATree` | map.go:172-224 | Every reachable document is acyclic with one parent slot for each object, because objects are only ever created in place. |
| `Stores.ReadFrame` | value.go:169-206 | A deep read depends only on the object and on objects created after it. |
| `Stores.OnePath` | path.go:37-73 | Only one path leads to an object. |
| `Stores.LookupAfterGrowth` | path.go:93-137 | Creating missing parents changes what no existing path reads. |
| `Stores.LookupAfterWrite` | path.go:77-86 | A write to one slot changes only paths through that slot. |
| `Document.Doc.Do` | wasi/src/map_ops.rs:22-73 | One engine call takes effect, or returns an error and changes nothing. |
| `Document.Doc.PutInMap` | map.go:115-231 | Deep write: succeeds exactly for valid keys and storable values whose texts and counters are not attached yet; then the slot reads back as the value and they are attached; only that slot of any existing object changes, also on failure. |
| `Document.Doc.PutNewInMap` | map.go:150-170 | The cases that create a child and then fill it: same promise. |
| `Document.Doc.Fill` | map.go:150-229 | Filling a fresh child touches only it and objects made for it. |
| `Document.Doc.PutInList` | list.go:165-290 | Deep write into a list, overwriting or inserting: result, exact success condition, order of the other items, and frame. |
| `Document.Doc.PutNewInList` | list.go:214-283 | The creating cases of the same. |
| `Document.Doc.AppendAll` | list.go:113-121 | Appending the items of a nested list gives exactly that list. |
| `Document.Doc.AppendRound` | list.go:114-119 | One round: the item is stored and attached, or the whole list cannot be. |
| `Document.Doc.FillMap` | map.go:159-170 | Writing a nested map's keys, in any order, gives exactly that map. |
| `Document.Doc.FillRound` | map.go:166-170 | One round: the entry is stored and attached, or the whole map cannot be. |
| `Document.Doc.MapSet` | map.go:100-231 | For any Go value: success if and only if key and value can be stored, each detached text and counter occurring once and not attached before; then Interface of the slot is the normalized value; every other slot of every object is unchanged. |
| `Document.Doc.ListPutValue` | list.go:165-290 | The same for lists, with the exact index condition. |
| `Document.Doc.Interface` | value.go:169-206 | The recursive reader terminates on every reachable document and returns the deep value, whatever order keys are visited in. |
| `Paths.Get` | path.go:37-73 | The loop over segments computes the lookup: value, void, or not traversable. |
| `Paths.MapGet` | map.go:40-57 | One step into a map; an empty or malformed key reads as void. |
| `Paths.ListGet` | list.go:89-110 | One step into a list; an index out of range reads as void. |
| `Paths.Ensure` | path.go:182-230 | Only adds slots, changes nothing if the path is there, succeeds exactly if the parent can be made, and returns the slot and its current value. |
| `Paths.EnsureMap` | path.go:93-116 | Yields a map at the path exactly if one is there or can be created; a new one is empty. |
| `Paths.EnsureList` | path.go:118-137 | The same for lists. |
| `Paths.Create` | path.go:104-108 | The setter applied to a new object where there was nothing. |
| `Paths.Assign` | path.go:197-226 | The setter closure: exact success condition, one slot changed, value read back. |
| `Paths.Set` | path.go:77-86 | Succeeds if and only if the path can be placed and the value stored; then the path reads back the normalized value; in every case each path not through p leads to what it led to. |
| `Paths.Delete` | path.go:89-91 | Exact success condition; a deleted key reads as void; a deleted index moves later items down; other paths are unchanged. |
| `Paths.LookupAround` | path.go:37-73 | Changes inside one object do not affect paths that do not go through it. |
| `Paths.WrittenIsFound` | path.go:77-86 | What was written to the target slot is what the path leads to. |
| `Handles.GoMap.CreateOnPath` | map.go:24-37 | Binding a map to its path: resolves or creates, then keeps the handle and drops the path; on failure the path stays. |
| `Handles.GoMap.Get` | map.go:40-57 | Reading through a map, bound or attached, is reading the path of its entry; a detached map is an error. |
| `Handles.GoMap.Set` | map.go:100-231 | Writing through a map is writing through the path of its entry, with the same success condition, result and frame; the map stays where it is. |
| `Handles.GoMap.SetMap` | map.go:172-184 | A detached map is created fresh and attached to the slot, exactly if the slot can be written; an attached one is refused and stays as it was; paths not through the slot are unchanged. |
| `Handles.GoList.Len` | list.go:25-46 | The number of items shown; 0 for detached lists and paths that lead to no list. |
| `Handles.GoList.Put` | list.go:165-290 | For detached, bound and attached lists: exact success condition, the item shown, the order of the others, and what stays elsewhere. |
| `Handles.GoList.PutNext` | list.go:113-142 | One round of the appending and inserting loops: one more value in place, or the promise for a loop that stops half way. |
| `Handles.GoList.Append` | list.go:113-121 | Succeeds exactly if every value can be stored and the list reached; the values follow the old items in order; on failure the old items are still there. |
| `Handles.GoList.Insert` | list.go:132-142 | The same before any index; an index out of range changes nothing. |
| `Handles.GoList.Set` | list.go:124-129 | Overwrites exactly one existing index. |
| `Handles.GoList.Delete` | list.go:145-155 | Removes exactly one index; fails on lists still bound to a path. |
| `Handles.DeleteThroughPathFails` | list.go:145-155 | A document with a one-item list at a path: the list bound to the path has length 1, and deleting index 0 through it fails. |
| `CallProtocol.StepKeepsInv` | internal/wazero/wazero.go:248-293 | Every action of every goroutine keeps the protocol's invariant. |
| `CallProtocol.RunKeepsInv` | internal/wazero/wazero.go:369-399 | So does every schedule. |
| `CallProtocol.EveryRunIsSafe` | doc.go:29-38 | In every interleaving each finished read returned exactly the bytes its own call produced, each error text that was fetched is the one that was there, and no block is live while the mutex is free. |
| `CallAnswers.ReadsReturnTheAnswers` | internal/wazero/wazero.go:369-399 | In every interleaving, the reads that a goroutine has finished returned, one for one and byte for byte, what the engine answered to it last, as the schedule alone says. |
| `CallAnswers.ReadsHaveTheExpectedLength` | internal/wazero/wazero.go:924-936 | A read that insists on a length, as that of a commit hash on 32, returns that length. |
| `CallAnswers.FetchedTextsAreTheLatest` | internal/wazero/wazero.go:223-246 | The error texts that a goroutine has fetched are, one for one, those that were stored last, as the schedule alone says. |
| `CallProtocol.EveryCopyFits` | wasi/src/state.rs:133-154 | Whenever a blind copy is made, its block is live and exactly as long as the buffer, and the buffer is the goroutine's own. |
| `CallProtocol.EveryErrorCopyFits` | internal/wazero/wazero.go:223-246 | The copy of an error text is as long as its own block and apart from the blocks of the method that failed. |
| `CallProtocol.ArgumentsAreIntact` | internal/wazero/wazero.go:266-280 | Argument blocks hold the bytes that were passed until they are freed. |
| `CallAnswers.AllArgumentsArrive` | internal/wazero/wazero.go:266-280 | When the engine is called, the blocks hold all arguments of the call that are not empty, in order. |
| `CallProtocol.NothingLiveAtUnlock` | internal/wazero/wazero.go:260-264 | Whoever gives the mutex back has freed every block, error exits and fetched error texts included. |
| `Locks.PutIsDisciplined` | map.go:100-231 | The text of Map.Set and List.put, for values of every shape and depth, calls no other method while it holds its lock, since it unlocks early. |
| `Locks.AppendIsDisciplined` | list.go:113-121 | The same for List.Append, which takes no lock of its own. |
| `Locks.EnsureContainerIsDisciplined` | path.go:93-137 | The same for creating missing parents, at every depth. |
| `Locks.MergeIsDisciplined` | doc.go:274-292 | The same for Doc.Merge, of a document with itself or another. |
| `Locks.ExitsAreDisciplined` | map.go:150-170 | Leaving a method early with an error, at any statement and any depth, keeps the discipline. |
| `Locks.EveryCallIsFlat` | map.go:150-170 | Every method of the API, run to the end or left early anywhere: it never waits for a mutex while it holds one, calls the module of a document only while it holds its lock, and holds none when it returns. |
| `Locks.StuckWithoutEarlyUnlock` | map.go:151 | Without the early unlock, writing any list, map or text gets one goroutine stuck for good on its own lock. |
| `Locks.PutMakesEveryCall` | map.go:100-231 | Writing a value makes one call into the module for each of its parts, and the extra ones for texts and list lengths. |
| `Locks.MergeTrace` | doc.go:274-292 | Doc.Merge locks, saves and unlocks the other document before it locks its own. |
| `Locks.RunKeepsInv` | doc.go:29-38 | Every schedule keeps ownership and the one-shot closures consistent. |
| `Locks.NoDeadlock` | doc.go:29-38 | Goroutines that run any methods on any documents, nested writes, writes through paths, self-merges and mutual merges included: none waits for a mutex while holding one, whoever calls the module of a document has it locked, and as long as anyone has work left someone can move. |
| `Locks.EveryRunEnds` | doc.go:29-38 | Every schedule uses up work, so every run ends with all calls finished. |
| `ConcurrentAppend.NoInsertFails` | list.go:113-121 | No interleaving of appends makes the engine refuse an insertion. |
| `ConcurrentAppend.EveryInterleavingKeepsAll` | list.go:113-121 | The initial contents stay as a prefix, and in the end the list holds exactly the multiset of all values. |
| `ConcurrentAppend.LandsAtEnd` | list.go:113-121 | One append with any steps of others between reading the length and inserting: the value gets the index that was the end, and that is the last one if and only if nothing was inserted in between. |
| `ConcurrentAppend.LandsBehind` | list.go:113-121 | Any earlier value ends in front of the new one if and only if the insertions in between do not push it to the index that was the end, or beyond. |
| `ConcurrentAppend.OwnAreThere` | list.go:113-121 | Over any run, the followed indexes hold a goroutine's own values, in the order in which it appended them. |
| `ConcurrentAppend.OwnOrderExactly` | list.go:113-121 | Over any run, a goroutine's own values are in order if and only if at none of its insertions its latest value has been overtaken. |
| `ConcurrentAppend.OwnOrderIsNotKept` | list.go:113-121 | A concrete run in which one goroutine's two values end in reverse order. |
| `ConcurrentSets.StepKeepsInv` | path.go:93-116 | Every step of every concurrent Path.Set keeps the document a tree, and every object in the entry in which it was created. |
| `ConcurrentSets.HoldsExactly` | path.go:182-230 | Over any run, a call's trail still holds if and only if no step of another call disturbed it. |
| `ConcurrentSets.SetReadsBackExactly` | path.go:77-86 | In every interleaving of any number of calls on any document, a call that succeeded is what its path reads if and only if no other call wrote an entry that it had passed, nor its last entry after it; it then reads back its value. |
| `ConcurrentSets.UntouchedPathsStay` | path.go:93-137 | In every interleaving, whatever a path led to, it still leads to, unless the whole path of one of the calls goes through it; no scalar on the way is replaced by a map. |
| `ConcurrentSets.AloneSucceedsExactly` | path.go:77-86 | A call that runs by itself to its end succeeds if and only if Path.Set can place the value there and it decodes; otherwise it fails. |
| `ConcurrentSets.HomesExist` | path.go:93-116 | Every document can be the one to begin with. |
| `ConcurrentSets.LosingRun` | path.go:99-108 | A concrete run in which two calls create the same parent, both succeed, and one value is lost. |
| `HandleTable.FreeSlot` | wasi/src/state.rs:28-34 | The scan finds the first free slot. |
| `HandleTable.ObjHandleTable.constructor` | wasi/src/state.rs:15-20 | A new table holds only the root's slot. |
| `HandleTable.ObjHandleTable.Insert` | wasi/src/state.rs:24-38 | The scanning loop fills the first free slot or appends one. |
| `HandleTable.ObjHandleTable.Get` | wasi/src/state.rs:41-51 | Resolves handles; handle 0 is the root and nothing else is. |
| `HandleTable.ObjHandleTable.Remove` | wasi/src/state.rs:54-62 | Frees one slot, never the root's. |
| `HandleTable.ObjHandleTable.Clear` | wasi/src/state.rs:65-69 | Frees every slot but the root's and keeps their number. |
| `HandleTable.InsertIsFresh` | wasi/src/state.rs:24-38 | Insert returns a handle that was not live and changes no other. |
| `HandleTable.RemoveIsExact` | wasi/src/state.rs:54-62 | Remove frees that handle and no other. |
| `HandleTable.SlotsArePeakUse` | wasi/src/state.rs:24-69 | Over every run the slot count is one plus the peak number of simultaneously live handles since the reset. |
| `HandleTable.HandlesAreStable` | wasi/src/state.rs:83-93 | A live handle keeps its object until freed, cleared or reset; only the insert that returns a handle makes it live. |
| `HandleTable.LiveHandleKeepsObject` | wasi/src/state.rs:24-69 | Over any run that does not free it, a live handle stays live and keeps its object. |
| `Columns.PrintBoolColumn` | cmd/automerge-debug/main.go:746-758 | The loop prints the lines that reading run after run gives, and terminates on every input. |
| `Columns.PrintRunLengthEncoded` | cmd/automerge-debug/main.go:881-920 | The same for run-length columns, for any way of reading values that moves forward. |
| `Columns.PrintLiterals` | cmd/automerge-debug/main.go:907-918 | The inner loop over literal values. |
| `Columns.PrintDeltaColumn` | cmd/automerge-debug/main.go:679-744 | The same for delta columns, with the running value. |
| `Columns.PrintDeltaLiterals` | cmd/automerge-debug/main.go:719-741 | The inner loop over literal deltas. |
| `Columns.BoolColumnKeepsBytes` | cmd/automerge-debug/main.go:746-758 | Every input byte is printed once and in order, malformed numbers included. |
| `Columns.BoolColumnReadsRuns` | cmd/automerge-debug/main.go:746-758 | A well-formed column is printed as its runs, alternating from false. |
| `Columns.RunColumnKeepsBytes` | cmd/automerge-debug/main.go:881-920 | Every input byte is printed once and in order, however the values are read. |
| `Columns.RunColumnReadsRows` | cmd/automerge-debug/main.go:881-920 | A well-formed column of null runs, runs and literals is printed as exactly these, for any cell reader that undoes an encoding. |
| `Columns.StringCellsGoForward` | cmd/automerge-debug/main.go:760-782 | Reading a string cell, truncated ones included, moves forward through the bytes. |
| `Columns.StringCellTakesItsBytes` | cmd/automerge-debug/main.go:767-780 | A string takes as many bytes as its length says, or all there are if there are fewer. |
| `Columns.NumberCellsGoForward` | cmd/automerge-debug/main.go:667-677 | The same for numbers. |
| `Columns.DeltaColumnKeepsBytes` | cmd/automerge-debug/main.go:679-744 | Every input byte is printed once and in order. |
| `Columns.ClosedFormIsWalk` | cmd/automerge-debug/main.go:706-715 | The closed form i + delta*n equals n wrapping additions. |
| `Columns.DeltaColumnIsTruthful` | cmd/automerge-debug/main.go:679-744 | On every input the values shown are those of stepping through the rows one at a time; nulls leave the running value alone. |
| `Columns.DeltaColumnReadsRows` | cmd/automerge-debug/main.go:679-744 | A well-formed column of null runs, runs and literals is printed with exactly its rows. |
| `Columns.LebReaders` | cmd/automerge-debug/main.go:36-93 | The tool's readers move forward, invert the encodings, and its sums wrap: all that the column results assume. |
| `Columns.ToolColumns` | cmd/automerge-debug/main.go:635-782 | With the tool's own readers, on every input: no byte of the number, string, boolean and delta columns is lost, doubled or moved. |
| `Columns.ToolNumberColumn` | cmd/automerge-debug/main.go:667-677 | A well-formed number column, with the tool's readers, shows exactly what it encodes. |
| `Columns.ToolStringColumn` | cmd/automerge-debug/main.go:760-782 | The same for string columns. |
| `Columns.ToolBoolColumn` | cmd/automerge-debug/main.go:746-758 | The same for boolean columns. |
| `Columns.ToolDeltaColumn` | cmd/automerge-debug/main.go:679-744 | The same for delta columns. |
| `RichTextJson.JsonEscape` | wasi/src/richtext_ops.rs:242-258 | The loop escapes character by character. |
| `RichTextJson.HydrateValueToJson` | wasi/src/richtext_ops.rs:391-413 | The recursive printer prints the value. |
| `RichTextJson.HydrateMapToJson` | wasi/src/richtext_ops.rs:375-388 | The loop over entries prints the object. |
| `RichTextJson.HydrateListToJson` | wasi/src/richtext_ops.rs:395-407 | The loop over items prints the array. |
| `RichTextJson.NumberComesBack` | wasi/src/richtext_ops.rs:416-437 | Printed integers, of either sign and any size, parse back. |
| `RichTextJson.CharsComeBack` | wasi/src/richtext_ops.rs:242-258 | Every string, quotes, backslashes and control characters included, parses back from its escaped form. |
| `RichTextJson.HexByPosition` | wasi/src/richtext_ops.rs:424-432 | Byte strings are printed as two hexadecimal digits for each byte, the high one first. |
| `RichTextJson.ValueComesBack` | wasi/src/richtext_ops.rs:375-437 | A printed value parses back at any depth, in front of whatever may follow a value. |
| `RichTextJson.PrintedJsonParses` | wasi/src/richtext_ops.rs:375-437 | The whole text is JSON and parses to exactly the tree that was printed. |
| `RichTextSpans.MarksToJson` | wasi/src/richtext_ops.rs:205-239 | The text for marks parses to the array of objects with name, value, start and end, in order; the value is the string itself, a text that reads as the boolean or integer, or null. |
| `RichTextSpans.MarksOptionToJson` | wasi/src/richtext_ops.rs:352-372 | The text for the active marks parses to the object from names to values, shown in the same way; none gives the empty object. |
| `RichTextSpans.SpanToJson` | wasi/src/richtext_ops.rs:331-344 | The format strings of both kinds of span print the object they mean. |
| `RichTextSpans.SpansToJson` | wasi/src/richtext_ops.rs:321-349 | The text for spans parses to the array of text and block objects, in order. |
| `Codes.PrefixRejected` | internal/backend/backend.go:417-471 | For every exact code: strict prefixes of what is written are rejected. |
| `Codes.PairIsExact` | wasi/src/changes.rs:172-210 | A record of exact parts is exact. |
| `Codes.AllComeBack` | internal/backend/backend.go:383-414 | Lists of elements that fit are read back, whatever follows. |
| `Codes.AllIsWritten` | internal/backend/backend.go:383-398 | What a list reader accepts, written again, is what it accepted; the rest starts no element. |
| `Codes.RoundTripExactlyWhenFits` | internal/backend/backend.go:383-414 | For every exact code: reading undoes writing if and only if every element fits. |
| `Codes.PrefixGivesWholeElements` | internal/backend/backend.go:383-398 | A prefix of an encoded list gives exactly the elements that lie wholly inside it. |
| `Codes.PrefixGivesPrefix` | internal/backend/backend.go:383-398 | Any prefix of an encoded list gives a prefix of the list, the whole gives all of it. |
| `LittleEndian.LEDigit` | internal/backend/backend.go:216-240 | Byte i of a little-endian integer is its digit of 256 to the i. |
| `Framing.ItemsAreExact` | internal/backend/backend.go:383-414 | Items behind 32-bit lengths are an exact code for items shorter than 2^32 bytes. |
| `Framing.ParseLengthPrefixedList` | internal/backend/backend.go:383-398 | The loop over offsets returns the complete items from the start on. |
| `Framing.EncodeLengthPrefixedList` | internal/backend/backend.go:401-414 | The loop writes every item behind its length. |
| `Framing.ListRoundTrip` | internal/backend/backend.go:383-414 | Parsing undoes encoding if and only if every item is shorter than 2^32 bytes. |
| `Framing.ListPrefix` | internal/backend/backend.go:383-414 | A prefix of an encoded list parses to a prefix of the list. |
| `Framing.ApplyChanges` | wasi/src/changes.rs:81-112 | Complete items are applied in order up to the first failure; truncated items, trailing bytes and 32-bit overflow end as the code ends. |
| `Framing.TrappingData` | wasi/src/changes.rs:90-96 | Four concrete bytes on which am_apply_changes traps. |
| `Framing.SendChanges` | internal/wazero/wazero.go:1073-1089 | Through Go's encoder, writeBytes and Rust's loop, exactly the given changes are applied in order; success exactly if there are any, they take fewer than 2^32 bytes, and each can be applied. |
| `Framing.ParseChangeHashes` | internal/backend/backend.go:357-368 | The loop returns all whole 32-byte hashes. |
| `Framing.EncodeChangeHashes` | internal/backend/backend.go:371-381 | The concatenation, which reads back as the same hashes. |
| `Framing.HashesKeepBytes` | internal/backend/backend.go:357-368 | Parsing drops only an incomplete hash at the end. |
| `ChangeRecords.RecordsAreExact` | wasi/src/changes.rs:172-210 | The record of hash, time, sequence number, actor, message and dependencies is an exact code. |
| `ChangeRecords.ChangeInfoBuffer` | wasi/src/changes.rs:172-210 | The Rust side's buffer, extended field by field and dependency by dependency, is the layout. |
| `ChangeRecords.ParseChangeInfo` | internal/backend/backend.go:417-471 | The Go parser with its offsets and checks accepts and returns what the record code says. |
| `ChangeRecords.ParseBody` | internal/backend/backend.go:434-468 | Actor, message and dependencies, each with its truncation errors. |
| `ChangeRecords.ReadDeps` | internal/backend/backend.go:459-468 | The loop over dependencies, error on the first missing one. |
| `ChangeRecords.InfoComesBack` | internal/backend/backend.go:417-471 | Every record that is laid out is recovered, also with trailing bytes. |
| `ChangeRecords.AcceptedExactlyWhenLaidOut` | internal/backend/backend.go:417-471 | Data parse to a record if and only if they start with that record's layout. |
| `ChangeRecords.EveryStrictPrefixIsRejected` | internal/backend/backend.go:417-471 | No truncated record is accepted. |
| `TaggedValues.ReadCrosses` | wasi/src/value.rs:36-94 | Go decodes what the module encodes to the corresponding value; unknown scalars read as void. |
| `TaggedValues.WriteCrosses` | wasi/src/value.rs:104-148 | The module parses what Go encodes to the corresponding scalar; only strings that are not UTF-8 are refused. |
| `TaggedValues.WriteThenRead` | internal/backend/backend.go:207-312 | A primitive written and read again, through both codecs, is unchanged. |
| `TaggedValues.DecodingFailsExactlyWhenShort` | internal/backend/backend.go:242-312 | Decoding fails if and only if the payload is shorter than its tag demands. |
| `TaggedValues.VoidAndUnknownExactly` | internal/backend/backend.go:243-312 | Which data read as void and which as unknown (if and only if). |
| `TaggedValues.ParsingFailsExactly` | wasi/src/value.rs:104-148 | The module refuses a put if and only if the tag is none of the twelve, or the payload of a scalar is too short or not UTF-8. |
| `TaggedValues.WireIsUnambiguous` | wasi/src/value.rs:36-94 | Two values with their handles have equal encodings if and only if they are the same, except that tables are sent as maps and scalars have no handle. |

## Left out

- The Automerge engine: merging, hashing, dependency queueing, sync, cursors, mark expansion. Its effect on one replica is modelled as a heap; deleting a missing key is taken to succeed.
- The WASM runtime, SHA-256 and DEFLATE: an allocator contract, an arbitrary digest function, and an arbitrary pair of functions of which the second undoes the first.
- Handles in the document model are identified with object ids; the handle table is proved separately, over natural numbers rather than u32.
- Lengths of slices and strings are below 2^63 where the code converts them, and `int` is 64 bits wide.
- Document.Doc.MapSet: values may hold detached texts and counters, and objects read from a document, which are refused; a detached *Map or *List inside a nested value is not modelled (Handles.GoMap.SetMap models the direct case). Of the fields of a text or counter, only whether it is attached is kept.
- Handles.GoMap.SetMap: Map.Set with a *List is the same code and has no member of its own.
- GoValues.NormalizeGivesNormal: floats are reals and conversions of integers to floats are exact; nil pointers, struct tags and times below a millisecond are not modelled.
- CallProtocol.EveryErrorCopyFits: the text of an error may be that of an earlier call, as in the code.
- Locks.NoDeadlock: reads, commits and the other methods that lock once are one program; Map.Values and List.Values, which lock once too, are among them.
- ConcurrentSets.SetReadsBackExactly: paths of keys and scalar values; List indexes and nested values are not modelled there.
- Framing.SendChanges: allocation in the module succeeds.
- Columns.ToolColumns: printValueMetaColumn uses the run-length printer but its list of value sizes, and printValueColumn, are left out, as are prettyPrintChunk, prettyPrintDoc and prettyPrintChange.
- RichTextJson.PrintedJsonParses: floats are excluded; numbers keep their exact value; strings are sequences of Unicode scalar values; duplicate keys, if any, are kept in order.
- ChangeRecords.ParseChangeInfo: preallocating the list of dependencies may exhaust memory for a huge count; allocation always succeeds here. Times are their milliseconds.
- TaggedValues.ReadCrosses: a float is its bit pattern.
- ObjItems, DecodeValueList and TaggedValueSize: no public call uses them.
- Path.ensureText, Path.ensureCounter, Map.Delete, Map.Values, List.Values, increments and text editing: they would repeat what is proved for maps, lists and texts.
- unmarshal, As, Commit options, actor ids, debug output, flag parsing and file access.

# Lookup records, notarization history, round exclusions and quorums: a verified model

This project models five parts of a blockchain node written in Go and proves what they are
for. `dafny verify dfyconfig.toml` checks everything.

**The wire codec of the lookup records** (`Bits`, `Varint`, `Wire`, `UnknownFields`, `ResultsCodec`,
`ResultsMessages`, `MetadataCodec`, `MetadataMessages`, `WireErrors`, `RecordBytes`). The node stores records as protocol
buffers. A generated writer fills a pre-sized buffer from back to front, a generated reader
walks over the bytes with a cursor, and a skipper passes over fields the reader does not know.
The specification is a list of fields printed one after the other (`PrintFields`) and a
decoder that applies one field per turn (`Decode`), with the cursor, the 64-bit wrap-around of
lengths and the narrowing to 32 bits written out. The classes `GroupMessage`, `ResultsMessage`
and `MetadataMessage` have the generated methods in imperative form, over a real byte array for
the writer; each is proved equal to the specification on every input, malformed ones with
their errors and the half-filled message they leave (`Remains`) included. About the
specification the project proves round trips, merge by concatenation, that unknown fields,
nested groups included, never matter in any number and at any level, that an error keeps
what was decoded before it, that an encoding cut off anywhere is either an unexpected end or
the whole encoding of what is decoded, exactly which tags and lengths are refused and how, and
which bytes every record has, field numbers and all
(Protocol Buffers Encoding, sections "Base 128 Varints", "Length-Delimited Records",
"Last One Wins" and "Groups").

**The history repository** (`HistoryState`, `HistoryBlocks`, `HistoryRepositoryObject`, `HistoryRuns`,
`HistoryFates`, `HistoryTracking`, `HistoryTheorems`, `HistoryTransactions`, `HistoryExamples`).
Blocks are recorded and notarization notifications arrive in any order; notifications wait in
three pending maps until a consume pass patches the stored metadata, and a deduplication cache
keeps later recordings from erasing patches. The class has the source's methods, each proved
equal to a function on the state; what a recording stores, what it indexes and where a
notification goes is stated besides by the fields of the miniblock and of its header. On top of these functions stands a step machine in which the
writes of one recording are separate steps, so that a consume pass, a notification or a cache
eviction may fall between any two of them. Index agreement holds in every run without any
hypothesis. The other theorems assume only what the hash function guarantees: a miniblock's hash
fixes sender and receiver and is not the hash of a block header. They allow recordings in later
epochs and evictions at any time, and say exactly what these do: after a final consume a
miniblock shows the recording that took effect last, stamped with the last notification for each
side, except where that was *erased*; and it was erased exactly if, after it was sent, a consume
pass found metadata of the miniblock and later a recording stored new metadata (`Erased`). For a
miniblock that is recorded in one epoch, and whose deduplication key is not evicted and then
needed again, nothing is erased, and the result does not depend on the interleaving. A transaction
leads to the last effective recording that holds it, and to its final metadata. Concrete
runs exhibit both ways of losing a notification: a key evicted too early, and a miniblock of a
fork that the canonical chain records again in the next epoch.

**The results-by-transaction index** (`ResultsIndex`). A batch of smart contract results and
receipts is grouped by transaction and merged with the encoded records in the storer. Over runs
of batches the stored groups are append-only; the receipt is not, and the exact condition under
which it survives a batch is proved, with a run that loses one.

**Round exclusions and the recovery checkpoint** (`RoundExclusions`, `RecoveryCheckpoints`,
`ExclusionHandlers`). Sorting, comparing neighbours and bisection agree with naive membership in
the unsorted configuration; construction succeeds exactly for valid configurations; the
configured handler excludes exactly the rounds of the configured intervals and the competitors
of the pinned headers.

**Quorums, proof keys and health records** (`Quorum`, `Text`, `ProofKeys`, `HealthRecords`).
The bitmap check accepts exactly the quorums and any two quorums intersect; printed keys parse
back; the bounded record list holds the most important records ever offered.

`Machine`, `Chain` and `Sequences` hold machine integers, shared names and a few facts about
sequences. Bytes and machine integers are bounded subsets of `int`; `Bits` defines `|` and `&`
bit by bit, the codec's loops use them as the source does, and its lemmas relate them to sums
and remainders for accumulators of either width.

## Model

| member | source | states |
|---|---|---|
| ResultsCodec.ResultsRoundTrip | dblookupext/resultsHashesByTxHash.pb.go:285-339 | Decoding the encoding of any record into an empty one gives the record back, with both levels of order, for any number of groups, empty groups and empty hashes included. |
| ResultsCodec.GroupRoundTrip | dblookupext/resultsHashesByTxHash.pb.go:248-283 | The same for one epoch group. |
| ResultsCodec.DecodeOfEncodedResults | dblookupext/resultsHashesByTxHash.pb.go:522-642 | Decoding an encoding into a message that is not empty takes over the receipt if one was emitted and appends the groups. |
| ResultsCodec.ResultsConcatenationMerges | dblookupext/resultsHashesByTxHash.pb.go:522-642 | Decoding the encodings of x and y one after the other gives y's receipt where it is not empty, x's otherwise, and x's groups followed by y's. |
| ResultsCodec.ResultsIgnoreUnknownFields | dblookupext/resultsHashesByTxHash.pb.go:619-634 | Fields numbered above 2, nested groups included, in any number and at any boundaries, between the fields of the record and inside its nested epoch groups, whose length prefixes change, leave the decoded record unchanged. |
| ResultsCodec.GroupIgnoresUnknownFields | dblookupext/resultsHashesByTxHash.pb.go:498-514 | The same for one epoch group. |
| ResultsCodec.GarbageKeepsResults | dblookupext/resultsHashesByTxHash.pb.go:522-642 | Whatever bytes follow an encoding, and whether or not they end in an error, the reader leaves what it makes of these bytes starting from the encoded record, and the record's groups come first in that. |
| ResultsCodec.EncodingInjective | dblookupext/resultsHashesByTxHash.pb.go:300-327 | Different records never share an encoding. |
| RecordBytes.BytesOfGroup | dblookupext/resultsHashesByTxHash.pb.go:263-283 | The bytes of every epoch group: tag 0x08 and the epoch unless it is zero, then tag 0x12, length and bytes of each hash, empty ones too. |
| RecordBytes.BytesOfResults | dblookupext/resultsHashesByTxHash.pb.go:300-327 | The bytes of every record: tag 0x0a, length and receipt unless it is empty, then tag 0x12, length and bytes of each encoded group. |
| RecordBytes.TruncatedResults | dblookupext/resultsHashesByTxHash.pb.go:522-642 | An encoding cut off after any number of bytes is an unexpected end, or it is exactly the encoding of the record decoded from it, whose groups are the first ones of the original. |
| RecordBytes.CutEpoch | dblookupext/resultsHashesByTxHash.pb.go:447-465 | An epoch cut short after k bytes is an unexpected end, and the group keeps the low digits read so far as its epoch and everything else. |
| RecordBytes.HalfDecodedGroup | dblookupext/resultsHashesByTxHash.pb.go:614-617 | A nested group that fails to decode ends the record with its error and is left at the end of the list with what it holds by then. |
| RecordBytes.SmallExample | dblookupext/resultsHashesByTxHash.pb.go:263-283 | The digits of 300 and the bytes of a group, as literals. |
| MetadataCodec.MetadataRoundTrip | dblookupext/miniblockMetadata.pb.go:307-400 | All thirteen fields survive encoding and decoding, negative types included. |
| MetadataCodec.ApplyFieldAt | dblookupext/miniblockMetadata.pb.go:518-840 | Decoding the field with number k replaces exactly that field, and only if it was emitted; the type is sign-extended and narrowed back without loss. |
| MetadataCodec.DecodeOfEncodedMetadata | dblookupext/miniblockMetadata.pb.go:490-864 | Decoding an encoding into any message replaces exactly the fields that the encoding holds. |
| MetadataCodec.MetadataConcatenationMerges | dblookupext/miniblockMetadata.pb.go:490-864 | Decoding the encodings of x and y one after the other gives, field by field, y's value where it is not empty and x's otherwise. |
| MetadataCodec.MetadataIgnoresUnknownFields | dblookupext/miniblockMetadata.pb.go:841-857 | Fields numbered above 13, nested groups included, in any number and at any boundaries, leave the decoded metadata unchanged. |
| MetadataCodec.GarbageKeepsMetadata | dblookupext/miniblockMetadata.pb.go:490-864 | Whatever bytes follow an encoding, the reader leaves what it makes of these bytes starting from the encoded metadata. |
| MetadataCodec.NegativeTypeTakesTenBytes | dblookupext/miniblockMetadata.pb.go:312-316 | A negative type is written as a varint of exactly ten bytes. |
| RecordBytes.BytesOfMetadata | dblookupext/miniblockMetadata.pb.go:307-388 | The bytes of all metadata: thirteen parts in the order of their numbers, each with its literal tag, left out when empty; a negative type as its 64-bit two's complement. |
| RecordBytes.TruncatedMetadata | dblookupext/miniblockMetadata.pb.go:490-864 | An encoding cut off after any number of bytes is an unexpected end, or it is exactly the encoding of the metadata decoded from it. |
| RecordBytes.CutRoundAndType | dblookupext/miniblockMetadata.pb.go:822-840 | A round or a type cut short leaves the low digits read so far in its field, the type as a signed number. |
| UnknownFields.SkipOfField | dblookupext/miniblockMetadata.pb.go:865-942 | The skipper passes every well-formed field, groups nested to any depth included, exactly to its end, whatever surrounds it and however many groups are open. |
| UnknownFields.UnknownFieldsTransparent | dblookupext/miniblockMetadata.pb.go:841-857 | For every message type: a well-formed field with an unmatched number, placed after any decodable prefix, changes neither success nor result, whatever bytes follow. |
| UnknownFields.InsertedFieldIgnored | dblookupext/resultsHashesByTxHash.pb.go:619-634 | The same between printed fields: the result is what the printed fields alone give. |
| UnknownFields.ForeignFieldsIgnored | dblookupext/resultsHashesByTxHash.pb.go:498-514 | For every message type: of emitted and foreign fields in any mixture only the emitted ones count, for the result and for the error. |
| Wire.UnknownFieldTransparent | dblookupext/resultsHashesByTxHash.pb.go:619-634 | The same for any bytes that the skipper consumes exactly, well-formed or not. |
| Wire.SkipStable | dblookupext/resultsHashesByTxHash.pb.go:643-720 | Once the skipper answers on some bytes, no suffix changes its answer. |
| Wire.DecodeConcatenation | dblookupext/resultsHashesByTxHash.pb.go:418-521 | For every message type: decoding a decodable part followed by any bytes is decoding those bytes into the message decoded so far. |
| Wire.RemainsOfDecodable | dblookupext/resultsHashesByTxHash.pb.go:418-521 | For every message type: the message that the reader leaves without an error is the decoded one. |
| Wire.RemainsOfConcatenation | dblookupext/resultsHashesByTxHash.pb.go:418-521 | For every message type: behind a decodable part, an error leaves what it would leave of the message decoded so far. |
| Wire.ReaderTurn | dblookupext/resultsHashesByTxHash.pb.go:446-515 | One turn of the reader's loop: either it goes on with the message after one field, or it stops and leaves the bits collected so far in a varint field, or a half-decoded nested message, and nothing else. |
| Wire.DecodeOfPrinted | dblookupext/resultsHashesByTxHash.pb.go:418-521 | For every message type: decoding printed fields applies these fields in order. |
| Wire.NextFieldOfPrinted | dblookupext/resultsHashesByTxHash.pb.go:422-514 | A printed field is read back with its number and value wherever it stands, and the cursor ends exactly behind it. |
| Wire.NextFieldInWindow | dblookupext/resultsHashesByTxHash.pb.go:421-515 | A field that was read is read in the same way at any place of any buffer; an error at the end of the buffer remains one. |
| Wire.NextField | dblookupext/resultsHashesByTxHash.pb.go:421-515 | Totality: on every byte sequence the cursor strictly increases and an accepted field ends within the buffer. |
| Wire.SkipSwitch | dblookupext/resultsHashesByTxHash.pb.go:664-714 | What each wire type does to cursor and depth; a cursor sum that exceeds 63 bits shows up as a negative cursor. |
| Wire.Skip | dblookupext/resultsHashesByTxHash.pb.go:643-720 | The skipper's loop terminates on every byte sequence and returns the specified end or the specified error. |
| Wire.ReadTagAt | dblookupext/resultsHashesByTxHash.pb.go:423-445 | The tag loop and its two checks give the specified field number, wire type and cursor, or the specified error. |
| Wire.ReadVarintAt | dblookupext/resultsHashesByTxHash.pb.go:447-465 | A varint field is read with its value narrowed to the accumulator's width, or fails with the specified error and the bits collected until then. |
| Wire.ReadBytesAt | dblookupext/resultsHashesByTxHash.pb.go:466-497 | A length-delimited field gives exactly its payload, or an error when its length is negative, wraps around or exceeds the buffer. |
| Wire.SkipUnknownAt | dblookupext/resultsHashesByTxHash.pb.go:498-514 | The default branch skips the field from its tag on, or fails when its end wraps around or exceeds the buffer. |
| WireErrors.RefusedTags | dblookupext/resultsHashesByTxHash.pb.go:438-445 | For every tag, known or not: an end of group, a number whose low 32 bits are zero or negative, a wire type that does not fit a known field or does not exist, each with its error. |
| WireErrors.RefusedLengths | dblookupext/resultsHashesByTxHash.pb.go:483-494 | For every length: an error if it is negative as an int64, leads beyond the last index there is or beyond the buffer, each with its error; otherwise exactly that payload. |
| WireErrors.UnknownLengths | dblookupext/resultsHashesByTxHash.pb.go:498-514 | The same for an unknown length-delimited field anywhere in the buffer, skipped exactly to its end otherwise. |
| WireErrors.RefusedBySkipper | dblookupext/resultsHashesByTxHash.pb.go:701-711 | An end of group that was not opened, and a wire type that does not exist, each with its error. |
| WireErrors.LengthRefusedBySkipper | dblookupext/resultsHashesByTxHash.pb.go:680-698 | A length that is negative as an int64 or leads beyond the last index there is. |
| WireErrors.CutSkip | dblookupext/resultsHashesByTxHash.pb.go:643-720 | A well-formed unknown field cut short anywhere, in nested groups of any depth too, makes the skipper report an unexpected end, or the index at which the field would end. |
| WireErrors.DecodeOfCut | dblookupext/resultsHashesByTxHash.pb.go:418-521 | For every message type: printed fields, foreign ones among them, cut off after any number of bytes decode to the fields before the cut if a field ends there; everywhere else it is an unexpected end. |
| Varint.SovIsLength | dblookupext/resultsHashesByTxHash.pb.go:377-379 | For every uint64, sov is the length of the base-128 encoding. |
| Varint.AtMostTenBytes | dblookupext/resultsHashesByTxHash.pb.go:329-339 | A uint64 takes at most ten bytes, so the reading loop never rejects a written varint. |
| Varint.EncodeVarintAt | dblookupext/resultsHashesByTxHash.pb.go:329-339 | Exactly the bytes before the offset that the varint needs are written, and nothing else in the buffer changes. |
| Varint.ReadVarintOfEncoded | dblookupext/resultsHashesByTxHash.pb.go:423-437 | Reading a written uint64 gives it back, wherever it stands. |
| Varint.ReadVarintLoop | dblookupext/miniblockMetadata.pb.go:523-537 | Or-ing truncated seven-bit chunks into a 32 or 64 bit accumulator gives the low bits of the unbounded value; too long and cut off varints are errors, and the accumulator then holds what was collected. |
| Varint.ReadRawFails | dblookupext/resultsHashesByTxHash.pb.go:423-437 | A varint overflows if and only if ten bytes in a row have the high bit, and the buffer ends inside it if and only if all of fewer than ten remaining bytes have. |
| Varint.LowDigitsAreRemainder | dblookupext/resultsHashesByTxHash.pb.go:450-464 | The k low digits of a number are its remainder by 128 to the k. |
| Varint.AccumulateNarrowed | dblookupext/miniblockMetadata.pb.go:523-537 | For both widths, or-ing a chunk, shifted and truncated, into the narrowed value so far gives the narrowed value with the chunk added, although the last chunks shift bits out. |
| Bits.OrAboveIsSum | dblookupext/resultsHashesByTxHash.pb.go:433-433 | Or-ing a value shifted above all the bits collected so far is adding it. |
| Bits.LowSevenBits | dblookupext/resultsHashesByTxHash.pb.go:333-334 | Masking with 0x7f leaves the remainder by 128. |
| Machine.SignExtendNarrows | dblookupext/miniblockMetadata.pb.go:312-313 | The low 32 bits of a sign-extended int32 are that int32 again. |
| ResultsMessages.GroupMessage.Size | dblookupext/resultsHashesByTxHash.pb.go:340-357 | The size is the length of the encoding. |
| ResultsMessages.GroupMessage.MarshalToSizedBuffer | dblookupext/resultsHashesByTxHash.pb.go:263-283 | The encoding stands right before the end given, and no other byte of the buffer changes. |
| ResultsMessages.GroupMessage.Marshal | dblookupext/resultsHashesByTxHash.pb.go:248-256 | Sizing and writing fit: the buffer of the computed size is filled exactly, from index 0. |
| ResultsMessages.GroupMessage.Unmarshal | dblookupext/resultsHashesByTxHash.pb.go:418-521 | On every byte sequence the loop ends with the decoded message or the specified error, and in either case the message holds exactly the specified remains: the fields decoded before the error, and the bits of an epoch cut short. |
| ResultsMessages.ResultsMessage.Size | dblookupext/resultsHashesByTxHash.pb.go:358-375 | The size of the nested message is the length of the encoding. |
| ResultsMessages.ResultsMessage.MarshalToSizedBuffer | dblookupext/resultsHashesByTxHash.pb.go:300-327 | The nested encoding stands right before the end given, although each group is sized by writing it first; no other byte changes. |
| ResultsMessages.ResultsMessage.Marshal | dblookupext/resultsHashesByTxHash.pb.go:285-293 | The buffer of the computed size is filled exactly, from index 0. |
| ResultsMessages.ResultsMessage.UnmarshalGroup | dblookupext/resultsHashesByTxHash.pb.go:614-617 | A fresh object is appended and a nested message decoded into it; on an error it stays in the list as far as it came; earlier groups keep their values. |
| ResultsMessages.ResultsMessage.Unmarshal | dblookupext/resultsHashesByTxHash.pb.go:522-642 | On every byte sequence the loop ends with the decoded message or the specified error, and in either case the message holds exactly the specified remains, a half-decoded group at the end of the list included. |
| MetadataMessages.MetadataMessage.Size | dblookupext/miniblockMetadata.pb.go:401-452 | The size is the length of the encoding. |
| MetadataMessages.MetadataMessage.MarshalToSizedBuffer | dblookupext/miniblockMetadata.pb.go:307-388 | The thirteen blocks, written from the back with their literal tags, leave exactly the encoding before the end given; no other byte changes. |
| MetadataMessages.MetadataMessage.Marshal | dblookupext/miniblockMetadata.pb.go:292-300 | The buffer of the computed size is filled exactly, from index 0. |
| MetadataMessages.MetadataMessage.StoreVarint | dblookupext/miniblockMetadata.pb.go:518-840 | The narrowed value lands in the field of its number and in no other. |
| MetadataMessages.MetadataMessage.Unmarshal | dblookupext/miniblockMetadata.pb.go:490-864 | On every byte sequence the loop ends with the decoded metadata or the specified error, and in either case it holds exactly the specified remains: the fields decoded before the error, and the bits of a number cut short. |
| HistoryTheorems.FinalMetadata | dblookupext/historyRepository.go:282-568 | In every run, recordings in later epochs and evictions included, after a final consume a recorded miniblock shows, field by field, the recording that took effect last, with the last source and the last destination notification sent for it, zeros where one was erased or never sent, and nothing is pending for it. |
| HistoryTheorems.LastNotificationShown | dblookupext/historyRepository.go:331-347 | Exactly when the last notification is shown in the end: if and only if it was not erased, or it holds nothing but zeros; erased means that a consume pass found metadata after it was sent and new metadata was stored later. |
| HistoryTheorems.InterleavingMatters | dblookupext/historyRepository.go:446-568 | Two runs with the same last effective recording and the same last notifications end with the same metadata if and only if they erase the same notifications, all-zero ones aside. |
| HistoryTheorems.OrderIndependence | dblookupext/historyRepository.go:446-568 | If the miniblock is recorded in one epoch and its key is kept as long as it is needed, two runs with the same recordings of it and the same notifications for it end with the same metadata: the first recording with the last notifications. Other miniblocks may be treated in any order. |
| HistoryTheorems.NothingErased | dblookupext/historyRepository.go:331-347 | Under these two conditions the first recording is the one that takes effect and no notification is erased. |
| HistoryTheorems.NothingDropped | dblookupext/historyRepository.go:446-568 | In every reachable state of every run the last notification for either side is pending, or a lookup shows it, or it was erased and a lookup shows zeros, except between the first two writes of a recording; before the first recording it is pending; and no hash is pending for both sides and for one at once. |
| HistoryTheorems.RecordingKeepsNotes | dblookupext/historyRepository.go:282-325 | In every state with agreeing indexes, one more recording of a stored miniblock keeps the note that a consume pass would show if and only if the deduplication cache turns it away, the note is still pending, or the stored note is all zeros. |
| HistoryFates.FateTold | dblookupext/historyRepository.go:446-568 | Step by step, the last notification is unsent, waiting, stored or lost; which one is told by the events alone: stored or lost if and only if a consume pass found metadata after it, lost if and only if new metadata was stored after that. |
| HistoryTracking.TrackedAlways | dblookupext/historyRepository.go:492-568 | The invariant behind these, miniblock by miniblock, holds in every reachable state of every run, in the middle of a recording too: what is pending is what waits, and metadata shows the last recording with what was patched into it and nothing else. |
| HistoryTracking.StepKeepsTracked | dblookupext/historyRepository.go:282-568 | Every single write of a recording, notification, consume pass and eviction keeps that invariant. |
| HistoryRuns.UninterruptedRecording | dblookupext/historyRepository.go:282-325 | The separate writes of one recording with nothing in between are recordMiniblock. |
| HistoryTransactions.AgreementAlways | dblookupext/historyRepository.go:359-396 | In every run, evictions and recordings in later epochs included, each stored metadata carries the epoch and the hash of its slot. |
| HistoryTransactions.TransactionsStayFindable | dblookupext/historyRepository.go:350-396 | In every run an indexed transaction leads to metadata of its miniblock in that miniblock's latest epoch, except between the first two writes of a new recording of it; with no recording in progress it is the miniblock of the last effective recording that holds the transaction. |
| HistoryTransactions.TransactionsIndexed | dblookupext/historyRepository.go:318-326 | In every run that ends with no recording in progress, a transaction leads to the miniblock of the last effective recording that holds it, and to none if there is none. |
| HistoryTransactions.FinalTransaction | dblookupext/historyRepository.go:350-357 | After a final consume, a lookup by transaction shows that miniblock as it was recorded last with the notifications that were not erased; a transaction of no effective recording shows nothing. |
| HistoryExamples.EvictionErasesNotarization | dblookupext/historyRepository.go:331-347 | A concrete run: after its deduplication key was evicted, recording a miniblock again erases its notarization. |
| HistoryExamples.LaterEpochLosesNotarization | dblookupext/historyRepository.go:336-343 | A concrete run: recorded again in the next epoch, a miniblock is looked up without the notarization it had. |
| HistoryState.NotificationBetween | dblookupext/historyRepository.go:532-568 | A notification that arrives after a key's metadata was patched and before the key is removed is handled as if it had come after both if and only if it is not for the same key and side; such a one is lost, as if never sent. |
| HistoryState.ConsumeKeyIsLocal | dblookupext/historyRepository.go:553-566 | A patch goes back to the slot it was read from, changes only the four notarization fields there and nothing elsewhere. |
| HistoryState.ConsumeOneMore | dblookupext/historyRepository.go:532-568 | Visiting the pending keys one by one in any order is patching all of them at once. |
| HistoryState.RecordKeepsAgreement | dblookupext/historyRepository.go:282-325 | Recording stores metadata only in the slot whose epoch and hash it carries. |
| HistoryState.RecordingStores | dblookupext/historyRepository.go:292-322 | Field by field, what a recording that is not turned away stores and indexes; all other entries stay. |
| HistoryState.RecordingTurnedAway | dblookupext/historyRepository.go:288-290 | A recording whose key is in the deduplication cache changes nothing. |
| HistoryState.NotifyByFields | dblookupext/historyRepository.go:446-488 | Where a notification goes, by the fields of its header, for every combination of shards. |
| HistoryBlocks.BlockStored | dblookupext/historyRepository.go:247-275 | Every miniblock of a block that is no peer miniblock and whose key is new is stored under the block's epoch with its own fields and the block's hash, nonce and round, and its transactions lead to it unless a later one of the block holds them too. |
| HistoryBlocks.BlockKeepsOthers | dblookupext/historyRepository.go:247-275 | Recording a block gives the header's hash the block's epoch and changes no entry of any other hash or transaction; peer miniblocks leave no trace. |
| HistoryBlocks.HeadersNotified | dblookupext/historyRepository.go:436-488 | After the headers of one shard's block, exactly the headers that concern the shard are pending for both sides, source or destination with the metachain block's coordinates, and nothing else changes. |
| HistoryRepositoryObject.HistoryRepository.RecordMiniblock | dblookupext/historyRepository.go:282-325 | If the key is in the cache nothing changes. Otherwise the metadata stored has, field by field, the arguments and no notarization; the hash is indexed under the epoch and every transaction under the hash; all other entries stay; agreement of indexes is kept. |
| HistoryRepositoryObject.HistoryRepository.RecordBlock | dblookupext/historyRepository.go:247-275 | The header's epoch is saved, then every miniblock that is not a peer miniblock is recorded, in order. |
| HistoryRepositoryObject.HistoryRepository.GetMiniblockMetadataByMiniblockHash | dblookupext/historyRepository.go:378-396 | What the storer holds under the epoch indexed for the hash, and none if either entry is missing; it carries that hash and that epoch. |
| HistoryRepositoryObject.HistoryRepository.GetMiniblockMetadataByTxHash | dblookupext/historyRepository.go:350-357 | The metadata of the miniblock indexed for the transaction, and none for a transaction without an entry. |
| HistoryRepositoryObject.HistoryRepository.OnNotarizedMiniblock | dblookupext/historyRepository.go:446-488 | By the fields of the header: nothing unless it is from or to the shard itself and no peer miniblock; pending for both sides within a shard or to the metachain; otherwise for its source if the containing shard sent it, else for its destination if the containing shard receives it. |
| HistoryRepositoryObject.HistoryRepository.OnNotarizedInMetaBlock | dblookupext/historyRepository.go:436-444 | All headers are notified in order, and none for a metachain block below nonce 1. |
| HistoryRepositoryObject.HistoryRepository.ConsumePendingNotificationsWithLock | dblookupext/historyRepository.go:492-530 | Source, destination and both are consumed in this order; the early return changes nothing that the passes would change. |
| HistoryRepositoryObject.HistoryRepository.ConsumePendingNotificationsNoLock | dblookupext/historyRepository.go:532-568 | The loop, which removes entries while visiting keys in any order, patches every slot that a pending key leads to and leaves exactly the others pending. |
| ResultsIndex.GroupingIsPartition | dblookupext/eventsHashesByTxHashIndex.go:73-101 | Each result hash stands once, in the group of its original transaction and in no other; groups hold nothing else and none is empty. |
| ResultsIndex.GroupingIgnoresOrder | dblookupext/eventsHashesByTxHashIndex.go:78-98 | Another iteration order of the map changes at most the order within a group. |
| ResultsIndex.IterationOrder | dblookupext/eventsHashesByTxHashIndex.go:56-98 | Within a group the hashes come in iteration order, and of several receipts the one visited last counts. |
| ResultsIndex.EventsHashesByTxHash.GroupSmartContractResults | dblookupext/eventsHashesByTxHashIndex.go:73-101 | The loop that creates and extends groups builds, for each original transaction, one group with its hashes in iteration order. |
| ResultsIndex.EventsHashesByTxHash.GroupTransactionOutcomesByTransactionHash | dblookupext/eventsHashesByTxHashIndex.go:50-71 | A receipt replaces whatever the batch holds for its transaction, and the receipt visited last stays. |
| ResultsIndex.EventsHashesByTxHash.MergeRecordsFromStorageIfExists | dblookupext/eventsHashesByTxHashIndex.go:103-122 | In any visiting order each record gets the stored groups in front; missing and undecodable records change nothing. |
| ResultsIndex.EventsHashesByTxHash.SaveResultsHashes | dblookupext/eventsHashesByTxHashIndex.go:28-48 | The new content of the storer after a batch: grouped, merged and encoded, with all other keys unchanged. |
| ResultsIndex.SaveAt | dblookupext/eventsHashesByTxHashIndex.go:28-48 | A batch that does not touch a transaction leaves its bytes alone; otherwise exactly its contribution and receipt are merged in. |
| ResultsIndex.SaveByEntries | dblookupext/eventsHashesByTxHashIndex.go:28-122 | One save by the entries of the batch: without entries for a transaction its bytes stay; with a receipt the stored groups stay and the receipt is one of the batch; with results only, one group of this epoch with exactly these results is added behind the stored groups. |
| ResultsIndex.StoredIsExpected | dblookupext/eventsHashesByTxHashIndex.go:28-122 | After any run of batches the stored bytes decode to all contributions in order and the receipt of the last batch that touched the transaction. |
| ResultsIndex.AppendOnly | dblookupext/eventsHashesByTxHashIndex.go:28-122 | The stored groups are the in-order concatenation over exactly the batches with results and no receipt for the transaction, and any earlier list is a prefix. |
| ResultsIndex.ReceiptSurvives | dblookupext/eventsHashesByTxHashIndex.go:103-122 | A stored receipt survives a batch if and only if the batch does not touch the transaction or brings the same receipt. |
| ResultsIndex.LaterResultsLoseReceipt | dblookupext/eventsHashesByTxHashIndex.go:103-122 | A concrete run of two batches in which a stored receipt is lost. |
| RoundExclusions.PermutationKeepsValidity | common/roundExclusions.go:69-74 | Sorting neither hides nor creates a malformed or overlapping interval, repeated intervals included. |
| RoundExclusions.SortByStart | common/roundExclusions.go:71-74 | The copy is ordered by start round and holds the same intervals as often. |
| RoundExclusions.SearchByEnd | common/roundExclusions.go:110-113 | Bisection finds the first interval that does not end before the round. |
| ExclusionHandlers.NewRoundExclusionHandler | common/roundExclusions.go:69-92 | Construction succeeds if and only if all input intervals are well formed and pairwise disjoint; then the handler's intervals contain the same rounds as the unsorted list, and each error names a defect that the input has. |
| ExclusionHandlers.RoundExclusionHandler.IsRoundExcluded | common/roundExclusions.go:110-116 | A round is excluded if and only if some interval begins at or before it and ends at or after it. |
| ExclusionHandlers.RoundExclusionHandler.IsHeaderExcluded | common/roundExclusions.go:118-120 | A header is excluded if and only if its round is, or the checkpoint discards it. |
| ExclusionHandlers.RoundExclusionHandler.HasExcludedRounds | common/roundExclusions.go:106-108 | The number of intervals tells whether any round is excluded at all. |
| ExclusionHandlers.NewConfiguredRoundExclusionHandler | common/roundExclusions.go:40-55 | A handler exists if and only if the intervals are valid and the checkpoint is acceptable; it answers for the configured list. |
| ExclusionHandlers.IsConfiguredHeaderExcluded | common/roundExclusions.go:40-120 | With a configuration: a header is excluded if and only if some configured interval contains its round, or it is at the enabled checkpoint's round with a hash other than the one pinned for its shard. |
| RecoveryCheckpoints.NewRecoveryCheckpoint | common/recoveryCheckpoint.go:25-70 | The two loops and their checks accept exactly what the specification accepts, with the specified range and pinned hashes. |
| RecoveryCheckpoints.CheckpointAccepted | common/recoveryCheckpoint.go:33-63 | With valid intervals, a disabled checkpoint is none; an enabled one is accepted if and only if its round is in range and not excluded, an interval begins right after it, and the headers have distinct shards, 32-byte hashes, at least two entries and one for the metachain. |
| RecoveryCheckpoints.DiscardedRangeIsConfigured | common/recoveryCheckpoint.go:37-48 | The discarded range after an accepted checkpoint is exactly one configured interval. |
| RecoveryCheckpoints.DiscardedIsNaive | common/recoveryCheckpoint.go:97-110 | Together with the intervals, the checkpoint excludes nothing but competitors of the pinned headers; on its own it discards the whole interval that begins right after its round, and no round but that interval's and its own. |
| RecoveryCheckpoints.DiscardedExactly | common/recoveryCheckpoint.go:97-110 | On its own, an accepted checkpoint discards a header if and only if it is enabled and the round lies in the configured interval that begins right after the checkpoint's round, or is the checkpoint's and the hash is not the one pinned for the shard. |
| RecoveryCheckpoints.ScanIntervalsExactly | common/recoveryCheckpoint.go:37-45 | For any intervals, malformed or overlapping ones too, the scan fails if and only if one contains the round, and otherwise takes the end of the last interval that begins right after it, or zero. |
| RecoveryCheckpoints.ScanHeadersFinds | common/recoveryCheckpoint.go:50-60 | The map built from the headers holds a hash for a shard if and only if the configuration pins it. |
| RecoveryCheckpoints.HeaderHashIsPinned | common/recoveryCheckpoint.go:72-82 | An accepted checkpoint hands out a hash for a shard if and only if the configuration enables it and pins that hash; it hands out none if and only if the checkpoint is disabled or no entry names the shard. |
| RecoveryCheckpoints.HasAllShards | common/recoveryCheckpoint.go:84-95 | True if and only if the pinned shards are exactly 0 to n - 1 and the metachain, each with a non-empty hash; by pigeonhole on the length. |
| Quorum.GetBitmapSize | common/common.go:139-148 | The least number of bytes with a bit for every member. |
| Quorum.IsConsensusBitmapValid | common/common.go:151-198 | Accepts if and only if the bitmap has the right size, denotes only members, and denotes more than two thirds of the group, or with the fallback more than half; size and padding errors are characterized exactly. |
| Quorum.CountOnes | common/common.go:175-178 | The ones counted byte by byte are the signers denoted. |
| Quorum.PaddingIsOutside | common/common.go:167-173 | The padding mask meets the last byte if and only if the bitmap denotes a signer outside the group. |
| Quorum.QuorumsIntersect | common/common.go:151-198 | Two quorums of one group lie within it and share more than a third of its members; with the fallback on either side they share at least one. |
| Quorum.IntersectionIsTight | common/common.go:151-198 | Two quorums of a group of four that share just two members. |
| Quorum.FallbackIsTight | common/common.go:151-198 | Two fallback quorums of a group of three that share just one member. |
| Quorum.ThresholdMeaning | common/common.go:180-187 | The required number of signatures is the least one above two thirds of the group, or above half of it with the fallback. |
| ProofKeys.HashShardKeyRoundTrip | common/common.go:227-250 | Parsing a printed hash-shard key gives the pair back for every byte string and every shard; its text is lower-case hexadecimal, a hyphen, and the shard in decimal without leading zeros. |
| ProofKeys.NonceShardKeyRoundTrip | common/common.go:222-271 | Parsing a printed nonce-shard key gives the pair back if and only if the nonce is below 2^63; above, the printed key is rejected. |
| ProofKeys.NonceShardKeyInjective | common/common.go:222-224 | Different pairs have different keys, large nonces included. |
| ProofKeys.NonceShardKeyText | common/common.go:222-224 | The text of a nonce-shard key: the nonce in decimal, a hyphen, and the shard in decimal, without leading zeros. |
| ProofKeys.HashShardKeyParses | common/common.go:232-250 | Any key is accepted with a hash and a shard if and only if it has one hyphen, hexadecimal text of that hash before it and a 64-bit number behind it whose low 32 bits are the shard. |
| ProofKeys.NonceShardKeyParses | common/common.go:253-271 | Any key is accepted with a nonce and a shard if and only if it has one hyphen and 64-bit numbers on both sides that convert to them. |
| ProofKeys.RefusedKeys | common/common.go:232-271 | Which error a refused key gives: the wrong number of parts, text that is not hexadecimal, or a number that is none or does not fit. |
| Text.HexRoundTrip | common/common.go:228-238 | Hexadecimal text reads back, is lower-case and never contains the separator. |
| Text.HexDecodes | common/common.go:239-242 | Hexadecimal text is accepted if and only if it has an even number of digits of either case, and printing what was read gives it back in lower case. |
| Text.AtoiOfSigned | common/common.go:244-247 | Decimal text with an optional sign is read as its value if that fits 64 bits, and is an error otherwise. |
| Text.AtoiOfOther | common/common.go:244-247 | Any other text is not a number. |
| HealthRecords.Records.AddRecord | health/records.go:21-40 | The specified list, sorted and within the capacity: unchanged if it is full of records with more memory; else, without its last record if it is full, and with the incoming one right behind all records with at least as much memory. |
| HealthRecords.Records.MakeRoomForRecordNoLock | health/records.go:42-53 | At capacity the least important record goes, unless it is more important than the incoming one; otherwise nothing changes. |
| HealthRecords.Records.FindInsertionPlaceNoLock | health/records.go:70-80 | The first record that the incoming one is more important than, or the end. |
| HealthRecords.KeepsTheTop | health/records.go:21-80 | After any additions the list is sorted, within capacity, and its importance values are the first ones of all values ever offered in descending order. |
| HealthRecords.AddKeepsTheTop | health/records.go:21-53 | One addition, with or without eviction, turns the top of the values offered so far into the top of one value more. |
| HealthRecords.DescendingHoldsAll | health/records.go:21-80 | The reference list that KeepsTheTop compares with is a rearrangement of all values offered. |
| HealthRecords.KeptWereOffered | health/records.go:21-40 | The list never holds a record that was not offered, nor one more often than it was offered. |

## Left out

Codec:

- Encodings longer than 2^63 - 1 bytes: lemmas and writers require the length to fit a Go `int`, as the length of every Go slice does.
- Nil entries of the repeated message field: the generated writer dereferences them; here the type of the list excludes them. Nil and empty byte slices, which `Equal` does not tell apart, are one value.
- The reading loop that the generated code repeats for each field stands once, as `ReadVarintLoop`, with the width of the accumulator as a parameter; a varint field of the message gets the accumulator's value when the loop ends, at its end or at an error. A prefix `dAtA[:i]` of the buffer is the array together with `i`.
- The blocks of the thirteen-field writer and of its `Size` are methods with ghost parameters that say which field is written; the writer's thirteen calls stand in three methods.
- The decoding of a record's epoch in `epochByHash.pb.go`, the other generated codecs and the generated descriptors, getters, `Equal`, `String` and `GoString`: the same templates without nesting, or boilerplate.

History repository:

- Storage failures, logging, hashing and marshalling errors: storers are maps that always succeed, hashes are opaque, and stored metadata is kept as the value that `MetadataRoundTrip` shows its bytes to decode to.
- Steps between the reads and writes of one consume pass: in runs a pass, which the source runs under its mutex, is a single step, and so is a notification. `NotificationBetween` says for one key which notifications would be treated differently.
- The capacity and the order of eviction of the deduplication cache: an eviction is a step that may remove any key at any time.
- `RecordBlock`, `OnNotarizedBlocks` and `putHashByRound` around the modelled operations, execution results, and token supplies: calls into code that is not part of this model.
- The numbers of `block.PeerBlock` (60) and of the metachain shard (0xFFFFFFFF) come from a library that is not part of this model and are assumed.

Results index:

- The marshaller is the codec as functions (`EncodeResults`, `DecodeResults`), which the methods of `ResultsMessages` are proved equal to. Storage failures and reading from a given epoch are left out.
- A Go map comes as the sequence of its entries in iteration order; the loops over the record map and over the storer's new entries visit keys in any order.

Round exclusions and checkpoint:

- `sort.Slice` and `sort.Search` are library code: they stand as an insertion sort and a bisection with the contracts the source relies on.
- `ResolveRoundExclusionHandler` and the free function `IsHeaderExcluded`, which choose between handlers, and the wording of error messages.

Quorum and keys:

- `core.GetPBFTThreshold` and `core.GetPBFTFallbackThreshold` are in a library that is not part of this model; they are assumed to be floor(2n/3) + 1 and floor(n/2) + 1.
- Which of its own errors a hexadecimal or decimal conversion of the standard library returns.

Health records:

- HealthRecords.Records.AddRecord: requires a capacity of at least 1; with a smaller one the source dereferences the back of an empty list at the first addition.
- Saving and deleting files, the mutex, and records of other kinds, which no memory record is more important than. The linked list is a sequence field of the object.

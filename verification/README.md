# A verified model of the incremental keyword-PIR store

The repository serves private look-ups over a segmented cuckoo store and keeps its clients in step
while the store changes. This project models four parts of it in Dafny and proves what they promise.

**The hint-delta wire codec** (`wire.rs`). A bundle of sparse cell edits is a bit string with
geometry-dependent field widths. Encoding and decoding are specified as functions between bundles and
bit strings (`WireFormat.dfy`, `WireLayout.dfy`), proved inverse in both directions
(`WireRoundTrip.dfy`, `WireTheorems.dfy`), prefix-free (`WirePrefix.dfy`), of the documented size
(`WireSize.dfy`) and cheapest among all ways to split a row into runs (`WireCost.dfy`); each broken rule
has its error (`WireErrors.dfy`). The loops over byte buffers (`BitIO.dfy`, `WireCodec.dfy`) are proved
to compute those functions, errors included.

**The cuckoo filter** (`filter.rs` and below). Base-`d` digit addition (`Digits.dfy`) underlies all six
index schemes (`Hash.dfy`, `Scheme.dfy`): the candidate buckets of a fingerprint form an orbit that is
rebuilt from any of its members. `HashLaws.dfy` says in plain arithmetic what the hashes are. The packed fingerprint table (`Window.dfy`, `Fields.dfy`,
`FingerprintTable.dfy`) behaves like an array of slots. On top of both, the filter
(`FilterClasses.dfy`, `CuckooFilter.dfy`) refines a multiset of classes, a class being a fingerprint
with its orbit, whatever the random kicks do; a failed insertion restores every byte, and fails only
after its budget of kicks came to nothing (`KickChains.dfy`).

**Cell storage** (`fingerprint_value_table.rs`, `store.rs`). Fields that straddle cells, slots packed
into cells, and values converted between bytes and cells (`CellBits.dfy`, `SlotCodec.dfy`,
`CellTable.dfy`, `ValueCodec.dfy`). On them runs the key-value store with its kick chain, rollback and
mutation log (`Store.dfy`, specified in `StoreSpec.dfy`): inserts, updates and deletes change exactly
one entry, and what they log is related cell by cell to what they rewrite (`SlotEdit.dfy`,
`StoreLog.dfy`).

**The update protocol** (`server.rs`, `hint_patch.rs`, `pending.rs`, the two clients and the LWE
backend). Linear algebra modulo 2^32 (`LinearAlgebra.dfy`, `Lwe.dfy`, `Matvec.dfy`,
`BackendEdits.dfy`), sparse edits and their folding (`Deltas.dfy`, `OrderedKeys.dfy`, `Pending.dfy`,
`HintFold.dfy`), slot scanning (`Lookup.dfy`), the server and both clients as classes (`Server.dfy`,
`RewindClient.dfy`, `HintPatchClient.dfy`, `ClientSteps.dfy`) over value-level specifications
(`Messages.dfy`, `ClientSpec.dfy`, `ClientSync.dfy`), a state machine over whole runs
(`Protocol.dfy`), and the path from the store's slots to what a client reads (`EndToEnd.dfy`).

`Words.dfy` and `Geometry.dfy` hold what several parts share. `dafny verify dfyconfig.toml` checks
everything.

## How to read the model

- A machine word is a natural number; wrapping, truncation and bit operations are written out
  (`Words.And`, `Words.Shl`, `% U64`, `LinearAlgebra.W`). A bit string is a `seq<bool>`, least
  significant bit first.
- Randomness is arbitrary: kicks, secrets, errors and public matrices are chosen by `:|`, so every
  contract holds for every outcome. Item and key digests are arbitrary numbers.
- The seed of a segment is represented by the matrix it expands to.
- A log is consistent (`HintFold.Consistent`) when each mutation records the entry its slot held at
  that moment. The cells of a store are flat; the server reads them as segments of rows, one row per
  bucket (`StoreLog.DatabaseOf`).
- Noise is bounded without probabilities: `Lwe.NoiseBounded` asks `rows * (p - 1) < 2^(31 - bits)`, so
  no choice of ternary errors can reach half a rounding step.
- A client decodes only the answer to its latest query; `Protocol.World` forgets a query on reset.
- A client takes any delta; only where an edit indexes a matrix must it lie inside its segment
  (`ClientSpec.BundleInRange`, `ClientSpec.PendingInRange`). Everything the wire decoder delivers does.

## Where code and documentation part

The wire-format document calls the run split optimal and unique. It is optimal
(`WireCost.SplitIsOptimal`). It is unique exactly when no gap between neighbouring non-zero cells costs
as many literal bits as a run head (`WireCost.SplitUniqueIffNoTie`); `WireCost.TieExample` is a row
with two cheapest splits.

The store logs the filling of an empty slot with an all-zero old value. That is right on every cell
exactly when empty slots have zero values (`StoreSpec.FillsTrackIffZeroEmpty`); otherwise the log of
the insert, and with it the server's hint, is off by what was left in the slot. Every store built
empty keeps its empty slots zero. A store restored from cells need not: the checks of a restore accept
such cells (`StoreSpec.ResidueIsAccepted`). `Store.Store.Insert` therefore states when its log is
consistent, and `Server.Server.Insert` asks that empty slots have zero values
(`StoreSpec.ZeroEmpty`), which every operation preserves.

## Model

| member | source | states |
|---|---|---|
| `WireTheorems.RoundTrip` | crates/ikpir-common/src/wire.rs:788-836 | decoding the padded encoding of any bundle that passes validation returns that bundle, for every legal geometry, zero-width fields and bridged gaps included |
| `WireTheorems.CanonicalForm` | crates/ikpir-common/src/wire.rs:862-979 | whatever byte string is accepted, the bundle it yields passes validation and encodes to exactly those bytes |
| `WireTheorems.AcceptedIffEncoded` | crates/ikpir-common/src/wire.rs:862-979 | a byte string decodes to a bundle if and only if it is the encoding of that bundle |
| `WireTheorems.EncodingUnique` | crates/ikpir-common/src/wire.rs:788-836 | two valid bundles of one geometry with the same byte encoding are equal |
| `WirePrefix.ProperPrefixRejected` | crates/ikpir-common/src/wire.rs:876-971 | cutting an accepted byte string anywhere before its end is rejected as truncated |
| `WirePrefix.ExtensionRejected` | crates/ikpir-common/src/wire.rs:969-971 | appending bytes to an accepted byte string is rejected as trailing bytes |
| `WireErrors.BucketPastEnd` | crates/ikpir-common/src/wire.rs:878-884 | behind any valid rows and whatever follows, a bucket index past the last bucket is reported as out of range |
| `WireErrors.BucketRepeated` | crates/ikpir-common/src/wire.rs:885-889 | behind any valid rows and whatever follows, a bucket index that does not ascend is reported as non-canonical rows |
| `WireErrors.RunFaultRejected` | crates/ikpir-common/src/wire.rs:898-951 | behind any valid rows and runs and whatever follows: a start or end past the row is an offset error, a run too close to the one before or with a zero boundary or an unbridgeable gap is a non-canonical run, and the reserved code is a delta error |
| `WireErrors.PaddingRejected` | crates/ikpir-common/src/wire.rs:963-968 | a set bit in the padding of a valid bundle is reported, whatever follows |
| `WireSize.BundleSize` | crates/ikpir-common/src/wire.rs:335-349 | the encoding has exactly the bit count and byte count of the size formula at the bundle's row, run and literal totals |
| `WireFormat.LayoutTight` | crates/ikpir-common/src/wire.rs:297-316 | bucket, offset and delta fields have the least width that writes every bucket, every offset and every one of the 2p - 1 code points, and a gap is bridged if and only if its zeros cost no more bits than a run head |
| `WireLayout.NoEditBits` | crates/ikpir-common/src/wire.rs:788-836 | a bundle without edits is its epoch and one closing flag |
| `WireLayout.OneEditBits` | crates/ikpir-common/src/wire.rs:788-836 | for every geometry, a bundle with one edit is its epoch, a flag, the global bucket, the edit's run and a closing flag |
| `WireLayout.OneEditRow` | crates/ikpir-common/src/wire.rs:788-836 | that run is the offset, a zero for the length less one, the delta plus p - 1, and a closing flag |
| `WireCost.SplitIsOptimal` | crates/ikpir-common/src/wire.rs:297-316 | in every legal geometry, among all covers of a row's non-zero cells by disjoint runs that start and end on non-zero cells, the split at gaps longer than the derived threshold costs least |
| `WireCost.SplitUniqueIffNoTie` | crates/ikpir-common/src/wire.rs:297-316 | in every legal geometry, the cheapest cover is unique if and only if no gap between neighbours costs exactly one run head |
| `WireCost.TieExample` | crates/ikpir-common/src/wire.rs:297-316 | in a legal geometry whose layout is worked out, a row with such a gap has two different covers of equal cost, and no cover costs less |
| `WireCost.CostOfSplit` | crates/ikpir-common/src/wire.rs:552-562 | the cost of the split is the number of bits its runs, literals and continuation flags take on the wire |
| `WireCost.RowEncodingIsShortest` | crates/ikpir-common/src/wire.rs:788-836 | in every legal geometry, a row's encoding takes no more bits than any cover of the row would cost |
| `Words.Bitlen` | crates/ikpir-common/src/wire.rs:238-244 | the number of bits needed to write a number as an index, and no fewer |
| `BitIO.BitWriter.WriteBits` | crates/ikpir-common/src/wire.rs:476-485 | appends exactly the low bits of the value to what was written, low bit first |
| `BitIO.BitReader.ReadBits` | crates/ikpir-common/src/wire.rs:518-540 | returns the next field and advances past it, or reports truncation when too few bits remain |
| `WireCodec.Validate` | crates/ikpir-common/src/wire.rs:662-716 | accepts exactly the canonical bundles: segment count, ascending rows and offsets, ranges, no zero or oversized edit |
| `WireCodec.WireStats` | crates/ikpir-common/src/wire.rs:734-761 | counts the rows, runs and literals the encoding writes |
| `WireCodec.EncodeRun` | crates/ikpir-common/src/wire.rs:802-823 | writes one run: start, length less one, and every covered cell as a biased literal |
| `WireCodec.EncodeRow` | crates/ikpir-common/src/wire.rs:796-825 | writes the runs of one row, each followed by its continuation flag |
| `WireCodec.Encode` | crates/ikpir-common/src/wire.rs:788-836 | fails exactly on bundles that do not pass validation, and otherwise fills the buffer with exactly the encoding under the tightest layout |
| `WireCodec.DecodeDeltas` | crates/ikpir-common/src/wire.rs:920-951 | reads a run's literals and rejects zero boundaries, bridged gaps that should have split, and the reserved code |
| `WireCodec.DecodeRun` | crates/ikpir-common/src/wire.rs:899-951 | reads one run or reports the error the format prescribes, in the order the checks are made |
| `WireCodec.DecodeRowList` | crates/ikpir-common/src/wire.rs:872-959 | reads all rows, requires ascending buckets and routes each to its segment; ends because every row consumes bits |
| `WireCodec.CheckPadding` | crates/ikpir-common/src/wire.rs:963-971 | accepts exactly zero bits up to the byte boundary followed by nothing |
| `WireCodec.Decode` | crates/ikpir-common/src/wire.rs:862-979 | computes the decoding function on every byte string, errors included, and always ends |
| `Hash.SumDigits` | crates/segmented-cuckoo/src/hash.rs:296-304 | the digit loop of one table entry computes the digit-wise sum of four base-3 digits |
| `Hash.BuildXor3T81` | crates/segmented-cuckoo/src/hash.rs:290-310 | every entry of the 81 by 81 table is the digit-wise sum of its indices and fits a byte |
| `Hash.Xor3IsDigitAdd` | crates/segmented-cuckoo/src/hash.rs:352-362 | five chunk look-ups compute base-3 digit-wise addition of digits 0 to 19, on all numbers |
| `Hash.LookUpXor3` | crates/segmented-cuckoo/src/hash.rs:352-362 | the look-ups over the built table compute the same sum |
| `Hash.Xor4IsDigitAdd` | crates/segmented-cuckoo/src/hash.rs:366-377 | the bit trick computes base-4 digit-wise addition of 16 digits, on all numbers |
| `Hash.Xor3Cycle` | crates/segmented-cuckoo/src/hash.rs:322-362 | sums of indices below 3^t stay below it and three applications are the identity |
| `Hash.Xor4Cycle` | crates/segmented-cuckoo/src/hash.rs:364-377 | sums of indices below 4^t stay below it and four applications are the identity |
| `Hash.FingerprintInRange` | crates/segmented-cuckoo/src/hash.rs:224-235 | an extracted fingerprint is never zero and fits its width |
| `HashLaws.FingerprintIs` | crates/segmented-cuckoo/src/hash.rs:224-235 | a fingerprint is the digest modulo 2^bits, with 1 in place of 0 |
| `HashLaws.SameFingerprintIff` | crates/segmented-cuckoo/src/hash.rs:224-235 | two digests share a fingerprint if and only if their low bits agree or are both in {0, 1} |
| `HashLaws.ItemIs` | crates/segmented-cuckoo/src/hash.rs:272-277 | for all six schemes the fingerprint comes from the low half of the digest and the first bucket is the high half modulo the range |
| `HashLaws.MixIsUpperWord` | crates/segmented-cuckoo/src/hash.rs:102-104 | the mixed value is the upper word of the wrapped product, not the lower |
| `HashLaws.OffsetIs` | crates/segmented-cuckoo/src/hash.rs:102-180 | each offset is the upper word of the product with its own multiplier, modulo the range |
| `HashLaws.StandardOffsetIs` | crates/segmented-cuckoo/src/hash.rs:386-388 | the offset of a standard scheme is that word modulo the number of buckets |
| `HashLaws.OffsetsSeeUpperWord` | crates/segmented-cuckoo/src/hash.rs:61-68 | fingerprints that differ only above bit 31 share an offset if and only if the differing words agree modulo the range |
| `Hash.MaskBound` | crates/segmented-cuckoo/src/hash.rs:102-104 | masking with a power-of-two range less one gives an offset inside the range |
| `Scheme.OrbitInRange` | crates/segmented-cuckoo/src/scheme.rs:42-118 | the rebuilt candidates are buckets of the table and include the bucket started from, for all six schemes |
| `Scheme.OrbitSame` | crates/segmented-cuckoo/src/hash.rs:466-481 | rebuilding from any candidate gives the same candidate set, and for segmented schemes the identical array |
| `Scheme.OrbitsPartition` | crates/segmented-cuckoo/src/scheme.rs:42-118 | two orbits of one fingerprint are equal or disjoint |
| `Scheme.ItemOrbit` | crates/segmented-cuckoo/src/hash.rs:425-435 | an item hashes to a non-zero fingerprint and to the array rebuilt from its primary bucket, so to the orbit of each of its candidates |
| `Scheme.SegmentedSame` | crates/segmented-cuckoo/src/hash.rs:561-576 | candidate k lies in segment k at the first index with the offsets 1 to k added in turn, and the array is rebuilt from each of its entries |
| `Scheme.StandardClosed` | crates/segmented-cuckoo/src/hash.rs:864-875 | candidate j of candidate k is candidate j + k, wrapping around, for the three standard schemes |
| `Scheme.StandardCandidates` | crates/segmented-cuckoo/src/hash.rs:959-971 | candidate k of a standard scheme is the current bucket with the offset added k times digit by digit |
| `Window.ReadField` | crates/segmented-cuckoo/src/fingerprint_table.rs:264-300 | reading through an 8-byte or a 16-byte little-endian word returns the field of the bit stream |
| `Window.WriteField` | crates/segmented-cuckoo/src/fingerprint_table.rs:349-385 | writing through a word of either width replaces the field and no other bit of the buffer |
| `FingerprintTable.Table.constructor` | crates/segmented-cuckoo/src/fingerprint_table.rs:148-157 | a table of empty slots in a buffer with 16 bytes of padding |
| `FingerprintTable.Table.Read` | crates/segmented-cuckoo/src/fingerprint_table.rs:264-300 | returns the stored slot |
| `FingerprintTable.Table.Write` | crates/segmented-cuckoo/src/fingerprint_table.rs:349-385 | replaces the slot by the low bits of the value and leaves every other slot and the padding alone |
| `FingerprintTable.Table.SameBytes` | crates/segmented-cuckoo/src/fingerprint_table.rs:119-130 | tables with the same slots have the same bytes |
| `FingerprintTable.Table.Contain` | crates/segmented-cuckoo/src/fingerprint_table.rs:427-434 | true iff the bucket holds the fingerprint |
| `FingerprintTable.Table.Insert` | crates/segmented-cuckoo/src/fingerprint_table.rs:564-574 | fills the first empty slot of the bucket iff there is one, and otherwise changes nothing |
| `FingerprintTable.Table.Delete` | crates/segmented-cuckoo/src/fingerprint_table.rs:514-524 | clears the first occurrence of the fingerprint iff there is one, and otherwise changes nothing |
| `FilterClasses.ClassesUpdate` | crates/segmented-cuckoo/src/filter.rs:1046 | overwriting a slot exchanges its old class for its new one in the stored multiset |
| `FilterClasses.ItemMember` | crates/segmented-cuckoo/src/filter.rs:1131-1146 | an item's class is stored iff one of its candidate buckets holds its fingerprint |
| `FilterClasses.ClassCount` | crates/segmented-cuckoo/src/filter.rs:1224-1226 | the multiset has one element for each non-zero slot |
| `FilterClasses.RunMatchesBalance` | crates/segmented-cuckoo/src/filter.rs:1016-1197 | in every run of observed operations the filter holds each class as often as the successful inserts and deletes of it say |
| `FilterClasses.AnswersByBalance` | crates/segmented-cuckoo/src/filter.rs:1016-1197 | look-ups and deletes of a run answer by that balance, so there are no false negatives |
| `CuckooFilter.PowerTest` | crates/segmented-cuckoo/src/util.rs:146-155 | the division loop accepts exactly the powers of the base |
| `CuckooFilter.SchemeForIsValid` | crates/segmented-cuckoo/src/filter.rs:281-304 | every bucket count a constructor accepts gives a valid scheme of the kind asked for over exactly that table |
| `CuckooFilter.SchemeForFits` | crates/segmented-cuckoo/src/filter.rs:281-304 | a bucket count is accepted if and only if some scheme of the kind asked for has orbits over exactly that table, and then that scheme is used |
| `CuckooFilter.ValidParamsIff` | crates/segmented-cuckoo/src/filter.rs:221-242 | a filter's sizes pass if and only if a bucket has 1 to 4 slots and the fingerprints outnumber an item's slots |
| `CuckooFilter.NewFilter` | crates/segmented-cuckoo/src/filter.rs:221-242 | a filter is built iff a scheme of the kind fits the bucket count and the sizes pass; it is then new, empty, has that scheme and the sizes asked for, and allows 500 kicks |
| `CuckooFilter.UndoKick` | crates/segmented-cuckoo/src/filter.rs:1045-1046 | a kick recorded with the slot's old contents is undone by writing them back, however often the slot is visited |
| `KickChains.RelievedNeverGivesUp` | crates/segmented-cuckoo/src/filter.rs:1039-1085 | if every fingerprint in an item's candidate buckets has room in another of its own candidates, no chain of one kick or more comes to nothing |
| `CuckooFilter.Filter.Evict` | crates/segmented-cuckoo/src/filter.rs:1040-1046 | swapping into a full bucket keeps stored classes plus the class in hand, the evicted fingerprint is non-zero, and undoing the chain still gives the starting table |
| `CuckooFilter.Filter.KickOnce` | crates/segmented-cuckoo/src/filter.rs:1039-1084 | one kick either places the evicted fingerprint, adding exactly the class that was in hand, or leaves it in hand at another of its own candidates, all of them full, as one more kick of the chain |
| `CuckooFilter.Filter.Rollback` | crates/segmented-cuckoo/src/filter.rs:1086-1089 | restoring the originals in reverse gives the table the chain started from |
| `CuckooFilter.Filter.Insert` | crates/segmented-cuckoo/src/filter.rs:1016-1091 | success adds exactly the item's class, in the first empty slot of the first candidate bucket with room if there is one; failure restores every byte and means that all candidate buckets are full and that exactly the budget of kicks came to nothing, each in a candidate of what was in hand; with a budget, it cannot fail when every fingerprint in the candidate buckets has room elsewhere |
| `CuckooFilter.Filter.Contain` | crates/segmented-cuckoo/src/filter.rs:1131-1146 | true iff the item's class is stored |
| `CuckooFilter.Filter.Delete` | crates/segmented-cuckoo/src/filter.rs:1184-1197 | removes one occurrence of the item's class iff there is one, and otherwise changes nothing |
| `CuckooFilter.Filter.SetMaxKicks` | crates/segmented-cuckoo/src/filter.rs:1315-1318 | changes the kick budget and nothing stored |
| `CuckooFilter.Execute` | crates/segmented-cuckoo/src/filter.rs:1016-1197 | serving any list of requests from an empty filter is a run in that sense, so every look-up and delete of the execution answers by the balance of the inserts and deletes before it |
| `CellBits.ReadBits` | crates/segmented-cuckoo/src/fingerprint_value_table.rs:251-280 | reads a field of up to 64 bits that may straddle any number of cells |
| `CellBits.WriteBits` | crates/segmented-cuckoo/src/fingerprint_value_table.rs:288-327 | replaces exactly that field of the payload and keeps the high bits of every cell clear |
| `CellTable.Table.New` | crates/segmented-cuckoo/src/fingerprint_value_table.rs:109-146 | a table whose slots are all empty, with zero values |
| `CellTable.Table.ReadFingerprint` | crates/segmented-cuckoo/src/fingerprint_value_table.rs:366-369 | returns the fingerprint of the slot |
| `CellTable.Table.WriteFingerprint` | crates/segmented-cuckoo/src/fingerprint_value_table.rs:387-394 | replaces the fingerprint field of one slot and no other slot |
| `CellTable.Table.ReadValue` | crates/segmented-cuckoo/src/fingerprint_value_table.rs:418-436 | returns exactly the value bits, high and ragged bits clear |
| `CellTable.Table.WriteValue` | crates/segmented-cuckoo/src/fingerprint_value_table.rs:456-473 | replaces the value field of one slot, ignoring stray high bits of the input |
| `CellTable.Table.Write` | crates/segmented-cuckoo/src/fingerprint_value_table.rs:503-506 | the entry reads back as written, the bits after it stay, and every other slot is unchanged |
| `CellTable.Table.Find` | crates/segmented-cuckoo/src/fingerprint_value_table.rs:551-553 | the first slot of the bucket with the fingerprint, or none |
| `CellTable.Table.Insert` | crates/segmented-cuckoo/src/fingerprint_value_table.rs:583-599 | stores the entry in the first empty slot of the bucket iff there is one, and otherwise changes nothing |
| `CellTable.Table.Delete` | crates/segmented-cuckoo/src/fingerprint_value_table.rs:625-637 | clears fingerprint and value of the first matching slot iff there is one, and otherwise changes nothing |
| `CellTable.FromCells` | crates/segmented-cuckoo/src/fingerprint_value_table.rs:675-715 | accepts cells iff the fingerprint width, their number and their clear high bits are right |
| `Geometry.SizesLeast` | crates/segmented-cuckoo/src/store.rs:120-137 | the cells of a slot and of a value, and the bytes of a value, are the fewest that hold their bits |
| `CellTable.OtherSlots` | crates/segmented-cuckoo/src/fingerprint_value_table.rs:20-26 | replacing one slot of the payload leaves every other slot as it was |
| `SlotCodec.PackSlotCells` | crates/segmented-cuckoo/src/store.rs:534-560 | produces the one cell array that holds fingerprint, value and zero fill |
| `SlotCodec.UnpackSlotCells` | crates/segmented-cuckoo/src/store.rs:581-630 | returns the fingerprint and the value bytes of a slot, unused bits of the last byte clear |
| `SlotCodec.PackRoundTrip` | crates/segmented-cuckoo/src/store.rs:534-630 | reading back packed cells returns the fingerprint and the value |
| `ValueCodec.PackValueBytes` | crates/segmented-cuckoo/src/store.rs:404-432 | packs value bytes into cells that hold exactly the value bits, by either path |
| `ValueCodec.StoreAndRead` | crates/segmented-cuckoo/src/store.rs:404-630 | bytes without stray bits come back unchanged through packing and unpacking |
| `Matvec.BlockPass` | crates/ikpir-common/src/backend/matvec.rs:199-225 | adds the plain product modulo 2^32 to the accumulator, for every block size and every tail |
| `Matvec.MatvecAccumulate` | crates/ikpir-common/src/backend/matvec.rs:163-187 | whatever block size the width and target select, the result is the plain product |
| `Matvec.ServerAnswer` | crates/ikpir-common/src/backend/frodo/backend.rs:295-310 | computes bᵀ·D over the row-major cells |
| `Matvec.ClientDecode` | crates/ikpir-common/src/backend/frodo/backend.rs:312-350 | computes the rounding of response less sᵀ·H by adding the negated secret |
| `Lwe.RoundRecovers` | crates/ikpir-common/src/backend/frodo/arith.rs:43-76 | rounding recovers a scaled plaintext under any noise of less than half a step, including wrap-around |
| `Lwe.DecodeRecovers` | crates/ikpir-common/src/backend/frodo/mod.rs:4-6 | decoding the answer to a query with the hint of the same cells returns the queried row, for every secret and every ternary error within the bound |
| `Lwe.RewindUndoes` | crates/ikpir-common/src/backend/frodo/backend.rs:918-931 | rewinding an answer over the edits since the pin gives the answer of the pinned cells |
| `Lwe.PatchFollows` | crates/ikpir-common/src/backend/frodo/backend.rs:778-930 | patching a hint with the edits gives the hint of the edited cells |
| `Lwe.RewoundDecodes` | crates/ikpir-client/src/client_rewind.rs:536-541 | a rewound answer decodes, under the pinned hint, to the pinned row |
| `LinearAlgebra.Exchange` | crates/ikpir-common/src/backend/frodo/mod.rs:4-6 | (a·s)·d equals s·(dᵀ·a): the exchange of sums behind the hint |
| `BackendEdits.PatchHintInPlace` | crates/ikpir-common/src/backend/frodo/backend.rs:778-905 | both patch modes add aᵀ·delta to the hint, cell by cell modulo 2^32 |
| `BackendEdits.RewindResponse` | crates/ikpir-common/src/backend/frodo/backend.rs:918-931 | subtracts bᵀ·delta from the response, one edit at a time |
| `Deltas.MergeRowsAdds` | crates/ikpir-client/src/pending.rs:101-123 | a merge that does not overflow adds the edits cell by cell and leaves no zero entry |
| `Deltas.MergeRowsSucceeds` | crates/ikpir-client/src/pending.rs:101-123 | merging an ordered list cannot overflow when every resulting sum fits an i64 |
| `Deltas.SegmentUnique` | crates/ikpir-client/src/pending.rs:79-90 | canonical lists with the same edits are the same list |
| `Pending.PendingDelta.AsRowDeltas` | crates/ikpir-client/src/pending.rs:79-90 | materialises exactly the pending edits, rows and offsets ascending |
| `Pending.PendingDelta.Row` | crates/ikpir-client/src/pending.rs:68-72 | the pending edits of one row, offsets ascending |
| `Pending.PendingDelta.Merge` | crates/ikpir-client/src/pending.rs:101-123 | folds a bundle in, keeps the maps zero-free, and reports overflow exactly when a sum overflows |
| `Pending.PendingDelta.Clear` | crates/ikpir-client/src/pending.rs:49-53 | forgets every pending edit |
| `Pending.TidyCanonical` | crates/ikpir-common/src/wire.rs:662-716 | an ordered list of non-zero edits in range passes wire validation |
| `HintFold.FoldMutationsIntoRowDeltas` | crates/ikpir-server/src/hint_patch.rs:65-115 | the fold lists exactly what the log adds to each cell, ordered, without zero cells or empty rows |
| `HintFold.Telescopes` | crates/ikpir-server/src/hint_patch.rs:65-115 | a consistent log adds up, cell by cell, to the change from the old cells to the new |
| `HintFold.FoldIsDiff` | crates/ikpir-server/src/hint_patch.rs:65-115 | the folded deltas of a consistent log carry each segment's old cells exactly to its new cells |
| `HintFold.FoldIsCanonical` | crates/ikpir-server/src/hint_patch.rs:65-115 | the fold of a consistent log has edits below the cell modulus and passes wire validation |
| `HintFold.NetChangeFits` | crates/ikpir-server/src/hint_patch.rs:65-115 | every net edit of a consistent log is below the cell modulus |
| `HintFold.MergeIsFold` | crates/ikpir-client/src/pending.rs:92-123 | merging the fold of a later log into the fold of an earlier one never overflows and holds the fold of the concatenated log |
| `HintFold.LogConcat` | crates/ikpir-server/src/hint_patch.rs:65-115 | what a concatenated log adds is the sum of what its parts add |
| `SlotEdit.ChangeIffHeld` | crates/ikpir-server/src/hint_patch.rs:65-115 | rewriting an entry changes every cell of its slot by the difference of the two packed entries if and only if the slot held the old one, whatever its fill bits |
| `HintFold.TracksIffRecords` | crates/ikpir-server/src/hint_patch.rs:65-115 | a logged mutation adds to every cell of every segment exactly what the write changes if and only if it records the entry its slot held |
| `HintFold.TelescopesIffLastRecords` | crates/ikpir-server/src/hint_patch.rs:65-115 | a log right up to its last mutation adds up on every cell if and only if the last one is right too |
| `StoreLog.TableMirrors` | crates/ikpir-server/src/server.rs:183-208 | the rows the server slices out of the flat cells are exactly the slots of the table |
| `StoreLog.MirrorsReplay` | crates/segmented-cuckoo/src/store.rs:1657-1662 | a log does to the served rows what it does to the slots, and is consistent over both or neither |
| `StoreLog.SlotsDetermineCells` | crates/segmented-cuckoo/src/fingerprint_value_table.rs:20-26 | tables with the same slots, fill bits included, have the same cells |
| `StoreSpec.FillsTrackIffZeroEmpty` | crates/segmented-cuckoo/src/store.rs:1090-1110 | the mutations an insert logs for filling empty slots, with all-zero old values, are right on every cell if and only if every empty slot has a zero value |
| `StoreSpec.ResidueIsAccepted` | crates/segmented-cuckoo/src/store.rs:1780-1823 | cells that pass every check of a restore may hold an empty slot with a value left in it |
| `StoreSpec.KickMore` | crates/segmented-cuckoo/src/store.rs:1121-1157 | one kick keeps the stored entries plus the one in hand, the empty slots as they were, and the log consistent |
| `StoreSpec.PlaceEnds` | crates/segmented-cuckoo/src/store.rs:1170-1196 | placing the entry in hand adds exactly the inserted entry, and the log is consistent if and only if the slot filled had a zero value |
| `StoreSpec.HeldIffFound` | crates/segmented-cuckoo/src/store.rs:1244-1250 | an entry of an item's class is stored iff the probe of its candidate buckets finds one |
| `StoreSpec.RowsFollow` | crates/segmented-cuckoo/src/store.rs:1568-1573 | the served rows before and after an operation differ by the consistent replay of what it logged |
| `Store.Store.New` | crates/segmented-cuckoo/src/store.rs:658-704 | an empty store whose empty slots have zero values, allowing 500 kicks |
| `Store.Store.Restore` | crates/segmented-cuckoo/src/store.rs:1780-1823 | a store over restored cells, with the item count the caller vouches for |
| `Store.Store.KickOnce` | crates/segmented-cuckoo/src/store.rs:1121-1210 | one kick either places what it displaced, completing the insert and its log, or has it in hand at another of its own candidates, all of them full, as one more kick of the chain |
| `Store.Store.Rollback` | crates/segmented-cuckoo/src/store.rs:1212-1223 | writing back what the chain displaced, last kick first, restores every slot |
| `Store.Store.Insert` | crates/segmented-cuckoo/src/store.rs:1069-1226 | success adds exactly the item's entry with its value, its fingerprint in the first empty slot of the first candidate bucket with room if there is one, and logs what was rewritten, consistently if and only if the empty slot filled had a zero value; failure restores every cell, logs nothing, and means a wrong value length, or full candidate buckets and exactly the budget of kicks come to nothing; with a budget, it cannot fail for want of room when every fingerprint there has room elsewhere |
| `Store.Store.SetMaxKicks` | crates/segmented-cuckoo/src/store.rs:1504-1513 | changes the kick budget and nothing stored or logged |
| `Store.Store.Contain` | crates/segmented-cuckoo/src/store.rs:1244-1250 | true iff an entry of the item's class is stored |
| `Store.Store.Delete` | crates/segmented-cuckoo/src/store.rs:1367-1394 | clears the first entry found iff there is one, removing exactly it, and logs its old contents consistently; otherwise changes nothing |
| `Store.Store.Update` | crates/segmented-cuckoo/src/store.rs:1432-1467 | replaces the value of the first entry found iff there is one and the length is right, exchanging exactly that entry, and logs it consistently; otherwise changes nothing |
| `Store.Store.DrainMutations` | crates/segmented-cuckoo/src/store.rs:1568-1573 | hands over the log and empties it |
| `Lookup.CtEqMask` | crates/ikpir-client/src/ct.rs:10-13 | all ones if the fingerprints are equal, else zero |
| `Lookup.ScanRow` | crates/ikpir-client/src/client_rewind.rs:672-682 | scanning a row ORs in exactly the values of its matching slots |
| `Lookup.LookupUnique` | crates/ikpir-client/src/client_rewind.rs:672-685 | rows and fingerprint determine the look-up result |
| `Lookup.SingleMatch` | crates/ikpir-client/src/client_rewind.rs:672-685 | with a single matching slot the result is that slot's value |
| `Server.Server.Build` | crates/ikpir-server/src/server.rs:183-223 | every segment's hint is that of its cells, at epoch 0 |
| `Server.Server.Setup` | crates/ikpir-server/src/server.rs:254-261 | the setup bundle is that of the current version |
| `Server.Server.Answer` | crates/ikpir-server/src/server.rs:309-345 | answers queries of the current epoch with the product of the query and the current cells, computed by the kernel on each segment's slice, and refuses stale or malformed ones |
| `Server.Server.FullRebuild` | crates/ikpir-server/src/server.rs:381-418 | fresh hints for the current cells under the next epoch, and no delta for that epoch |
| `Server.Server.DropHintMaterial` | crates/ikpir-server/src/server.rs:441-445 | forgets the expanded matrices and keeps the hint invariant |
| `Server.Server.Insert` | crates/ikpir-server/src/server.rs:577-580 | when empty slots have zero values: success adds the item's entry, placed directly if a candidate bucket has room, and is committed under the next epoch with a genuine delta; a refusal changes no cell, epoch or version and is for a wrong value length or a full table, the latter only after the whole budget of kicks came to nothing |
| `Server.Server.Update` | crates/ikpir-server/src/server.rs:602-605 | granted iff the length is right and an entry exists; then the first entry found has the new value, every other slot is as before, and the change is committed under the next epoch with a genuine delta; a refusal changes nothing |
| `Server.Server.Delete` | crates/ikpir-server/src/server.rs:623-626 | granted iff an entry exists; then the first entry found is removed, every other slot is as before, and the change is committed under the next epoch with a genuine delta; a refusal changes nothing |
| `Server.Server.CommitMutations` | crates/ikpir-server/src/server.rs:628-659 | hints follow the cells modulo 2^32, the epoch rises by one, and the bundle is exactly the change from the version before |
| `Server.FoldIsDelta` | crates/ikpir-server/src/server.rs:628-659 | the fold of a consistent log is the canonical list of the changes of each segment |
| `Server.SegmentSlice` | crates/ikpir-server/src/server.rs:324-339 | the slice of flat cells handed to the backend is the segment's matrix, row by row |
| `ClientSpec.KeyRowIsCandidate` | crates/ikpir-client/src/client_rewind.rs:285-302 | the row queried in segment j is the key's candidate bucket j |
| `RewindClient.Client.FromSetup` | crates/ikpir-client/src/client_rewind.rs:138-182 | a client pinned at the bundle's epoch with nothing pending |
| `RewindClient.Client.ResetFrom` | crates/ikpir-client/src/client_rewind.rs:188-190 | starting over leaves nothing of the old state |
| `RewindClient.Client.BuildQuery` | crates/ikpir-client/src/client_rewind.rs:285-302 | one query per segment for the key's rows, matching the secrets now in flight, under the client's epoch |
| `RewindClient.Client.AccumulateDelta` | crates/ikpir-client/src/client_rewind.rs:389-416 | merges a well-formed delta of exactly the next epoch if its sums fit; an older epoch is stale, a later one is from the future, and either leaves the client as it was, as does a delta for another geometry; edits stay inside their segments if the delta's are |
| `RewindClient.Client.CollectGarbage` | crates/ikpir-client/src/client_rewind.rs:434-447 | patches the hints with what is pending and pins the current epoch |
| `RewindClient.Client.TryAccumulateDeltaOrResync` | crates/ikpir-client/src/client_rewind.rs:502-520 | starts over from the fetched bundle if and only if the delta skips an epoch; a delta of the client's epoch or an older one is stale and leaves the client as it was |
| `RewindClient.Client.Decode` | crates/ikpir-client/src/client_rewind.rs:599-685 | returns the look-up in the corrected rows; or the header error that applies; or the error of the first segment that does not decode: a malformed bundle for a response row of the wrong width, else the first corrected cell out of range |
| `RewindClient.CorrectedRow` | crates/ikpir-client/src/client_rewind.rs:632-671 | rewinds, decodes at the pin and moves the queried row forward, or names the first cell that leaves its range |
| `HintPatchClient.Client.FromSetup` | crates/ikpir-client/src/client_hint_patch.rs:68-104 | a client whose hints are the bundle's |
| `HintPatchClient.Client.ResetFrom` | crates/ikpir-client/src/client_hint_patch.rs:112-116 | starting over keeps only the patch mode |
| `HintPatchClient.Client.BuildQuery` | crates/ikpir-client/src/client_hint_patch.rs:177-194 | one query per segment for the key's rows, matching the secrets now in flight, under the client's epoch |
| `HintPatchClient.Client.ApplyDelta` | crates/ikpir-client/src/client_hint_patch.rs:308-336 | patches the hints with a well-formed delta of exactly the next epoch inside the segments, in either mode; an older epoch is stale, a later one is from the future, and either leaves the client as it was, as does a delta for another geometry |
| `HintPatchClient.Client.TryApplyDeltaOrResync` | crates/ikpir-client/src/client_hint_patch.rs:391-408 | starts over from the fetched bundle if and only if the delta skips an epoch; a delta of the client's epoch or an older one is stale and leaves the client as it was |
| `HintPatchClient.Client.Decode` | crates/ikpir-client/src/client_hint_patch.rs:206-246 | returns the look-up in the decoded rows if every response row has the right width, else a malformed bundle; an epoch mismatch comes first |
| `Messages.PendingGrows` | crates/ikpir-client/src/client_rewind.rs:406-415 | merging a genuine delta into what is pending never overflows and reaches one version further |
| `ClientSync.AccumulateSyncs` | crates/ikpir-client/src/client_rewind.rs:389-416 | a genuine delta for the next epoch is always taken and keeps the rewind client in step |
| `ClientSync.ApplySyncs` | crates/ikpir-client/src/client_hint_patch.rs:308-336 | applying a genuine delta keeps the patching client's hint that of the server's cells |
| `ClientSync.CollectSyncs` | crates/ikpir-client/src/client_rewind.rs:434-447 | collecting garbage keeps the client in step and pins its own epoch |
| `ClientSync.PinnedAtHeadIsEmpty` | crates/ikpir-client/src/client_rewind.rs:434-437 | a client pinned at its own epoch has nothing pending |
| `ClientSync.HeadRowIsCurrent` | crates/ikpir-client/src/client_rewind.rs:632-671 | rewinding to the pin, decoding there and moving the row forward gives the server's current row |
| `ClientSync.RewindDecodesCurrent` | crates/ikpir-client/src/client_rewind.rs:599-685 | the rewind client in step returns the look-up in the server's current candidate rows, never an error |
| `ClientSync.PatchDecodesCurrent` | crates/ikpir-client/src/client_hint_patch.rs:206-246 | the patching client in step returns the same look-up |
| `Protocol.RunSafe` | crates/ikpir-client/src/client_rewind.rs:389-415 | in every run with lost, duplicated or reordered messages both clients stay in step with the version of their epoch, and each latest query matches the secrets in flight |
| `Protocol.DuplicateHarmless` | crates/ikpir-client/src/client_rewind.rs:389-402 | a step that delivers a delta the client has passed changes nothing, and every resync step is for a delta that skips an epoch |
| `Protocol.DuplicatesHarmless` | crates/ikpir-client/src/client_rewind.rs:502-520 | in every run, a stretch of such deliveries, however long, leaves the world as it was |
| `Protocol.NoClientCrossesRebuild` | crates/ikpir-server/src/server.rs:381-418 | a client behind a rebuild stays behind it until it is reset |
| `Protocol.GenuineDeltaTravels` | crates/ikpir-server/src/server.rs:628-659 | every issued delta arrives unchanged through encoding and decoding |
| `Protocol.RewindEndToEnd` | crates/ikpir-client/src/client_rewind.rs:599-685 | in every run, whatever the rewind client may return for the answer to its latest query is the look-up in the cells served at that epoch, or an epoch mismatch if it has moved on |
| `Protocol.PatchEndToEnd` | crates/ikpir-client/src/client_hint_patch.rs:206-246 | the same for the patching client |
| `Protocol.ClientsAgree` | crates/ikpir-client/src/client_rewind.rs:599-685 | asked for the same key at the same epoch both clients return the same result |
| `Protocol.CollectInvisible` | crates/ikpir-client/src/client_rewind.rs:434-447 | in every run, collecting garbage between query and decode changes no result |
| `EndToEnd.LookupIsStored` | crates/ikpir-client/src/client_rewind.rs:672-685 | a look-up in a version's rows finds something iff the store held an entry of the key's class, and the bytes of its value if it held exactly one |
| `EndToEnd.InsertedIsRead` | crates/ikpir-client/src/client_rewind.rs:672-685 | the value inserted for an absent class is what decoding brings back, byte for byte |
| `EndToEnd.UpdatedIsRead` | crates/ikpir-server/src/server.rs:602-605 | after an update of a class held exactly once, decoding returns the new bytes |
| `EndToEnd.DeletedIsGone` | crates/ikpir-server/src/server.rs:623-626 | after a delete, decoding finds something iff the class was held more than once |
| `EndToEnd.RewindReadsStored` | crates/ikpir-client/src/client_rewind.rs:599-685 | in every run, the rewind client reads what the store held at the epoch of its query |
| `EndToEnd.PatchReadsStored` | crates/ikpir-client/src/client_hint_patch.rs:206-246 | in every run, so does the hint-patching client |

## Left out

- Sizing helpers (`from_num_items`, `load_factor`, `pir_params.rs`): floating-point targets and tail bounds; the integer noise bound stands in for the latter.
- LWE security, sampling distributions, seed expansion, hash independence and constant-time execution: not statements about results.
- Precomputed queries and decodes, the `_parallel` twins and the SimplePIR reshape: they change speed or layout, not what is decoded.
- The run coalescing of `backend/patch.rs`: patching is modelled edit by edit, which is the sum the coalesced pass computes.
- `reset_for_replay`: a bench helper that sets the epoch back on purpose.
- `get`, iteration, snapshots and parameter checks of the key-value store, and a store whose log is switched off: variations of members that are modelled.
- Server.Server.Insert: asks for zero values in empty slots, because without them the source issues a delta that is not the change.
- Backend assertions and index panics: a query of the wrong length, an edit outside its segment, and a response row of the wrong width that the backend refuses before the client can; the model's clients report the last as a malformed bundle.
- Wire sizes of the other three bundles, error display, `util.rs` growth helpers and `outcome.rs`: easy members.
- `FingerprintTable::find`, `update_value` and the chunked value reader: variations of members that are modelled.
- WireCodec.Encode: the source panics on a bundle that fails validation; the model returns `None` instead.
- Pending.PendingDelta.Merge: on overflow the source leaves a partly merged map behind; the contract then bounds its keys but does not say which sums were taken.
- RewindClient.Client.Decode: asks for pending edits inside their segments, because rewinding indexes the query and the response by them before the client's own offset check can report one.
- Integer widths of counters (`num_items`, epochs, row and run counts): unbounded here; the bounds of a real table keep them far below their limits.

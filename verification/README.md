# Kamino: a verified model

Kamino is a distributed in-memory cache. This project models the parts of it where correctness is
hardest to see, in Dafny, and proves what they promise for every input, every run or every reachable
state:

- **Storage** (`Bytes`, which also holds small shared modules, `Entry`, `TableModel`, `Table`, `TableRuns`, `Compaction`, `RamBlockModel`,
  `RamBlockRuns`, `RamBlock`): from the bytes of an append-only block, through a table's indexes and
  counters, to an engine that overlays tables newest first. The classes are updated in place as in the
  source; pure functions on their views state what each call does, and runs of those functions are proved
  to be a stack of versions per key.
- **Glob matching** (`Glob`, `GlobMeaning`): the iterative matcher that backtracks only to the last star, against the
  declarative matching relation.
- **RESP2/RESP3** (`Text`, `Resp`, `RespProofs`, `RespStream`, `RespChunks`, `RespLimits`, `RespCodec`): printing and parsing of
  frames, partial input and arbitrary chunking.
- **Commands** (`Command`, `CommandProofs`, `CommandMeaning`, `CommandLoops`): the command AST, its printed form and the
  option parsers.
- **Locker** (`Locker`): the per-key lock registry as interleaved atomic steps.
- **Replication** (`Timestamps`, `Replication`, `ReplicationRuns`, `ConditionalPuts`, `ReadRepair`): stamps, commits, delayed and repeated
  delivery, write quorum, quorum reads and repair.
- **Migration** (`Migration`, `Balancer`, `BalancerTick`): the payload that moves a partition, its
  last-write-wins import, interleaved migrations with failures, and one balancer tick.
- **Forwarder** (`Forwarder`): one pipelined connection with permits, timeouts and FIFO replies.
- **Membership** (`Membership`, `Coordinator`, `Gossip`): SWIM states and incarnations (section 4.2 of Das,
  Gupta and Motivala, "SWIM", 2002), the order that picks the coordinator, and the gossip queue.

Byte strings are sequences of integers 0 to 255, and fixed-width integers carry their ranges; wrap-around,
saturation and truncation are written out where the code has them. Clocks, hashes, routing tables, message
delays, failures and the decision that a table holds too much garbage are arbitrary inputs.

## Where the code departs from its comments

The model follows the code. Each departure has a lemma.

- `RamBlock::put` leaves a shadow when it seals the head that holds the key: `ShadowedPutThenDelete`,
  `ShadowReachable`; `PutThenDeleteRemovesIff`, `LenCountsKeysIff`, `VisitsOnceIff` and `PlainMapWithoutPush` say
  exactly when nothing of it shows. A put that is refused still drops a sealed copy: `RefusedPutPops`.
- A refused put still makes room for itself. One that asks for 4 GiB and 29 bytes or more leaves a head so large
  that later records start beyond 32 bits, where `offset_to_u32` panics: `OffsetsStayFitIff` is exact, `OffsetsFitU32` proves
  all other runs safe, and `LargeTablesOverflow` bounds the configured capacity.
- `pattern_matches` answers true at the first mismatch of an unclosed bracket after a star:
  `HazardFoolsMatcher`, and the exact set of affected patterns, over byte strings, in `MatcherDecidesIffSafe`.
- A partial inline `PING` is rejected instead of awaited: `InlinePingMustArriveWhole`. `ChunkingInvisibleIff` says
  exactly which chunkings of a stream show.
- `Locker::get_or_create` counts itself after it has left the map mutex, so a reap can slip in between:
  `CarelessReapReachable`, `CarelessReapBreaksExclusion`, `ExclusionBreaksFromStart`; `CarefulRunsExclude` proves the
  promise for all other runs. The guard's clean-up runs before the inner mutex is released, contrary to the comment
  at crates/kamino-storage/src/locker.rs:50-51; the model keeps the code's order.
- `dm_put` stamps and commits separately: `OvertakenCommitDiverges`, with the exact condition for agreement in
  `AgreementIff`. No backups means OK whatever the quorum: `NoBackupsIgnoreQuorum`.
- The unexpired copy with the highest timestamp does not always survive a migration: an expired copy at the
  receiver that is at least as new beats it. `MoveKeepsIff` is exact, and `NewestCopySurvives` is proved
  where no such copy exists.
- A migration payload of more than `u32::MAX` entries carries only that many: `PayloadBack`, `MoveTakesAllIff`.
- The snapshot's coordinator flag goes by the position before dead members are dropped: `CoordinatorFlag`.
  Alive and Suspect override each other at equal incarnations: `AliveAndSuspectOverride`. A death heard before
  the first Alive is not recorded: `UnknownMemberOrderMatters`. A tombstone made by a Dead event carries no
  deadline and is never evicted: `DeclaredDeadIsNeverEvicted`.
- The reader fails the slots in flight before it sets the terminal flag, so a writer that has just looked at the
  flag can add a slot nobody will answer; its caller ends by timeout. A shutdown that ends the reader does the same
  to every slot in flight until both tasks are gone. `StrandedIff` proves these two steps the only ones,
  `SmoothRunsStrandNobody` that runs without them strand nobody, `StrandedUntilDropped` how long it lasts, and
  `RacingPushStrands` that the first is reached.
- `budget_for` is three times the rounded-up logarithm exactly from 1 to `u32::MAX` members: `BudgetIsLogIff`.
- `HELLO` with a password but no user prints the user `default`, which parses as a name: `HelloBack`.

## Model

| member | source | states |
|---|---|---|
| `Entries.Decode` | crates/kamino-storage/src/entry.rs:102-154 | a decoded entry is encodable and used exactly its encoded length; every failure is a truncation that names a positive number of missing bytes |
| `Entries.EncodeError` | crates/kamino-storage/src/entry.rs:69-82 | encoding is refused exactly when the key or the value is longer than its length field can say |
| `Entries.DecodeLayout` | crates/kamino-storage/src/entry.rs:69-154 | decoding an encoding followed by any bytes gives the entry back and uses exactly the encoding |
| `Entries.LayoutUnfolded` | crates/kamino-storage/src/entry.rs:84-97 | the fields of an entry in the order they are written |
| `Entries.LayoutDecode` | crates/kamino-storage/src/entry.rs:69-154 | the bytes a decode used are the encoding of what it returned |
| `Entries.DecodeTruncated` | crates/kamino-storage/src/entry.rs:102-154 | every proper prefix of an encoding is refused |
| `Bytes.U32LittleEndian` | crates/kamino-storage/src/entry.rs:92-95 | the four bytes of a length, least significant first |
| `Bytes.I64LittleEndian` | crates/kamino-storage/src/entry.rs:89-91 | the eight bytes of a time are the low and the high half of its two's complement |
| `TableModel.ExtentsDisjoint` | crates/kamino-storage/src/table.rs:96-122 | the byte ranges of two live records never overlap, and their keys differ |
| `TableModel.WithoutFacts` | crates/kamino-storage/src/table.rs:134-145 | dropping a record takes exactly its key from map and index and exactly its bytes from the live count |
| `TableModel.WithoutStarts` | crates/kamino-storage/src/table.rs:134-145 | the offset index loses exactly the dropped record's offset |
| `TableModel.AppendFacts` | crates/kamino-storage/src/table.rs:96-122 | an append replaces the key's record in map, index, offsets and byte counts at once |
| `Tables.InsertKeeps` | crates/kamino-storage/src/table.rs:107-121 | indexing a record keeps both indexes and all counters what the live records dictate, so offset is live plus garbage bytes |
| `Tables.DeleteKeeps` | crates/kamino-storage/src/table.rs:134-145 | moving a record's bytes to garbage keeps the same, and the saturating subtraction does not saturate |
| `Tables.Table.WithCapacity` | crates/kamino-storage/src/table.rs:29-40 | a new table is valid and empty |
| `Tables.Table.Append` | crates/kamino-storage/src/table.rs:96-122 | says no when the record does not fit, an error when it cannot be encoded, and otherwise writes it; validity (bytes, indexes, counters) is kept |
| `Tables.Table.Get` | crates/kamino-storage/src/table.rs:125-131 | decodes from the block exactly the live entry of the key |
| `Tables.Table.Delete` | crates/kamino-storage/src/table.rs:134-145 | removes exactly the key and reports whether it was there |
| `Tables.Table.Scan` | crates/kamino-storage/src/table.rs:149-167 | visits the live records in the order of their offsets, all of them or up to the first at which the callback says stop |
| `Tables.NextStart` | crates/kamino-storage/src/table.rs:149-167 | the least offset not yet visited is the next record's |
| `Tables.IndexInjective` | crates/kamino-storage/src/table.rs:149-167 | no two keys share an offset, so a scan can name the key of each offset |
| `Tables.Table.Seal` | crates/kamino-storage/src/table.rs:170-174 | a writable table becomes read-only; nothing else changes |
| `Tables.Table.Recycle` | crates/kamino-storage/src/table.rs:177-179 | the table becomes recycled; nothing else changes |
| `TableRuns.StepSound` | crates/kamino-storage/src/table.rs:96-145 | one append or delete keeps records in place and disjoint within the block and changes the map as a map would |
| `TableRuns.IndexDecodesLatest` | crates/kamino-storage/src/table.rs:96-189 | after any run of appends and deletes exactly the keys last appended are indexed and the bytes at a key's offset decode to the entry last appended for it |
| `Compaction.PackedFacts` | crates/kamino-storage/src/compaction.rs:14-30 | packing keeps the key-to-entry map and fits in the live bytes |
| `Compaction.PackedOrder` | crates/kamino-storage/src/compaction.rs:14-30 | packing keeps the scan order and moves records only towards the front |
| `Compaction.CompactTable` | crates/kamino-storage/src/compaction.rs:14-30 | the copy has the same entries in the same order and no garbage, so no append in it was refused |
| `RamBlockModel.FindLive` | crates/kamino-storage/src/ramblock.rs:91-102 | finds the newest table that has the key, or none has it |
| `RamBlockModel.FindLiveTop` | crates/kamino-storage/src/ramblock.rs:91-102 | what it finds is the top of the key's stack of versions |
| `RamBlockModel.DeletePops` | crates/kamino-storage/src/ramblock.rs:138-143 | a delete pops the key's stack and leaves every other key alone |
| `RamBlockModel.EnsureWritableFacts` | crates/kamino-storage/src/ramblock.rs:49-82 | making room seals at most the head, always leaves room, and changes no key's versions |
| `RamBlockModel.NewTableWhenFull` | crates/kamino-storage/src/ramblock.rs:49-82 | the head stays while the record fits; else it is sealed and an empty table of the configured capacity, or of the record's size if that is larger, follows it |
| `RamBlockModel.PutReplacesOrPushes` | crates/kamino-storage/src/ramblock.rs:106-127 | a put replaces the top of the key's stack, or pushes exactly when it seals the head that held the key |
| `RamBlockModel.RefusedPutPops` | crates/kamino-storage/src/ramblock.rs:106-127 | a put that cannot be encoded still pops a copy held in a sealed table |
| `RamBlockModel.CompactKeeps` | crates/kamino-storage/src/ramblock.rs:233-263 | compaction changes no key's versions |
| `RamBlockRuns.RunRefinesStacks` | crates/kamino-storage/src/ramblock.rs:49-143 | in every run each key's versions are what replace, push, pop and no-op make of a stack |
| `RamBlockRuns.PlainMapWithoutPush` | crates/kamino-storage/src/ramblock.rs:105-143 | every run without such a push is a plain map |
| `RamBlockRuns.DeleteRemovesIff` | crates/kamino-storage/src/ramblock.rs:138-143 | a delete removes the key exactly when it has at most one version |
| `RamBlockRuns.PutThenDeleteRemovesIff` | crates/kamino-storage/src/ramblock.rs:106-143 | putting and deleting a key without a shadow leaves it absent exactly when the put did not seal the head that held it |
| `RamBlockRuns.ShadowedPutThenDelete` | crates/kamino-storage/src/ramblock.rs:109-143 | after such a put, a delete brings the older value back |
| `RamBlockRuns.ShadowReachable` | crates/kamino-storage/src/ramblock.rs:109-118 | that state is reached by two puts from the empty engine |
| `RamBlockRuns.LenCountsKeysIff` | crates/kamino-storage/src/ramblock.rs:167-169 | the length counts each key once exactly when no key has a shadow |
| `RamBlockRuns.SlimStepIff` | crates/kamino-storage/src/ramblock.rs:49-82 | a step leaves a head that is too large and not full exactly when it is a refused put that asks for too much room |
| `RamBlockRuns.OffsetsFitU32` | crates/kamino-storage/src/table.rs:191-193 | with table capacities up to 4 GiB and 28 bytes, no run of puts that encode, or are refused below that size, makes an append whose offset does not fit a `u32` |
| `RamBlockRuns.OffsetsStayFitIff` | crates/kamino-storage/src/ramblock.rs:106-127 | after such a run the next put leaves every continuation within 32 bits exactly when it encodes or asks for no more room than that |
| `RamBlockRuns.LargeTablesOverflow` | crates/kamino-storage/src/table.rs:191-193 | with a larger configured capacity one put is enough to have the next record start beyond 32 bits |
| `RamBlockRuns.VisitsOnceIff` | crates/kamino-storage/src/ramblock.rs:145-153 | a scan names each key at most once exactly when no key has a shadow |
| `RamBlockRuns.TablesAreLargeEnough` | crates/kamino-storage/src/ramblock.rs:49-82 | in every run all tables have the configured capacity or more |
| `RamBlockRuns.LwwReadsHighest` | crates/kamino-storage/src/engine.rs:69-77 | after any sequence of merges every key reads its write with the highest timestamp |
| `RamBlockRuns.LwwOrderFree` | crates/kamino-storage/src/engine.rs:69-77 | order and repetition of merges with distinct timestamps per key do not matter |
| `RamBlocks.RamBlock.constructor` | crates/kamino-storage/src/ramblock.rs:33-40 | starts valid with one empty writable table |
| `RamBlocks.RamBlock.FindLiveTable` | crates/kamino-storage/src/ramblock.rs:91-102 | the loop over tables finds what the specification finds |
| `RamBlocks.RamBlock.Get` | crates/kamino-storage/src/ramblock.rs:129-136 | returns the top of the key's stack of versions |
| `RamBlocks.AllVisitsTimes` | crates/kamino-storage/src/ramblock.rs:145-153 | scanning all tables names each key as often as it has versions |
| `RamBlocks.RamBlock.Scan` | crates/kamino-storage/src/ramblock.rs:145-153 | visits the tables oldest first until the callback says stop; a finished scan names each key as often as it has versions |
| `RamBlocks.RamBlock.Len` | crates/kamino-storage/src/ramblock.rs:167-169 | the sum of the tables' key counts, shadows included |
| `RamBlocks.RamBlock.InUse` | crates/kamino-storage/src/ramblock.rs:171-173 | the sum of the tables' live bytes, shadows included |
| `RamBlocks.RamBlock.Delete` | crates/kamino-storage/src/ramblock.rs:138-143 | changes the tables as specified and reports whether the key had a version |
| `RamBlocks.RamBlock.EnsureWritableFor` | crates/kamino-storage/src/ramblock.rs:49-82 | seals and allocates as specified, touching nothing else |
| `RamBlocks.RamBlock.Put` | crates/kamino-storage/src/ramblock.rs:106-127 | changes the tables as specified; fails exactly when the entry cannot be encoded |
| `RamBlocks.RamBlock.PutLww` | crates/kamino-storage/src/engine.rs:69-77 | merges as specified; false means nothing changed, true that the key now reads the entry |
| `RamBlocks.RamBlock.Compact` | crates/kamino-storage/src/ramblock.rs:233-263 | replaces exactly the tables that are sealed and whose garbage and total bytes are over the threshold, keeps every other table as it is, returns the garbage of those replaced, and leaves no sealed table over a threshold that tolerates tables without garbage |
| `Glob.SearchDecides` | crates/kamino-cluster/src/pubsub.rs:448-536 | in every state of the search a remaining match is found, and in a safe pattern only matches are |
| `Glob.NoMatchIsMissed` | crates/kamino-cluster/src/pubsub.rs:448-536 | the matcher accepts everything the glob relation accepts, for every pattern |
| `Glob.SafeMatcherDecides` | crates/kamino-cluster/src/pubsub.rs:448-536 | without a reachable unclosed bracket after a star it accepts nothing else |
| `Glob.HazardFoolsMatcher` | crates/kamino-cluster/src/pubsub.rs:468-479 | with one there is a byte string it accepts wrongly |
| `Glob.MatcherDecidesIffSafe` | crates/kamino-cluster/src/pubsub.rs:448-536 | the matcher agrees with the relation on all byte strings exactly for the safe patterns |
| `GlobMeaning.PatternMeaning` | crates/kamino-cluster/src/pubsub.rs:444-522 | a pattern matches exactly the concatenations of what its pieces stand for: any run, any byte, a byte in or not in a set, a byte itself |
| `GlobMeaning.EveryPatternHasPieces` | crates/kamino-cluster/src/pubsub.rs:457-512 | every byte string is spelled by such pieces, so every pattern has that meaning |
| `GlobMeaning.NegatedSetMeaning` | crates/kamino-cluster/src/pubsub.rs:480-494 | `[^s]` matches exactly the single bytes not in s |
| `GlobMeaning.SetMeaning` | crates/kamino-cluster/src/pubsub.rs:480-494 | `[s]` matches exactly the single bytes in s |
| `GlobMeaning.WildcardMeaning` | crates/kamino-cluster/src/pubsub.rs:458-467 | `?` matches exactly the single bytes, and `*` everything |
| `GlobMeaning.PlainTextMeaning` | crates/kamino-cluster/src/pubsub.rs:496-507 | a pattern without special bytes matches exactly itself |
| `GlobMeaning.MatcherFollowsMeaning` | crates/kamino-cluster/src/pubsub.rs:448-522 | the matcher accepts everything the pieces stand for and, without an unclosed bracket, nothing else |
| `Glob.TryElement` | crates/kamino-cluster/src/pubsub.rs:457-512 | one comparison consumes exactly when the pattern element accepts the byte, and moves past that element |
| `Glob.Run` | crates/kamino-cluster/src/pubsub.rs:448-522 | the loop over positions terminates with the verdict of the search |
| `Glob.PatternMatches` | crates/kamino-cluster/src/pubsub.rs:448-522 | misses no match, and decides the relation for safe patterns |
| `Text.ParseIntText` | crates/kamino-protocol/src/command.rs:619-632 | a printed integer parses back in every type that can hold it |
| `Text.ParseIntForms` | crates/kamino-protocol/src/command.rs:619-632 | a plus, a minus for signed types, and digits are accepted, and nothing else |
| `Text.ParseIntOutside` | crates/kamino-protocol/src/command.rs:619-632 | a number the type cannot hold is refused |
| `Text.EncodedTextIsUtf8` | crates/kamino-protocol/src/codec.rs:218-231 | the UTF-8 encoding of any sequence of Unicode scalar values is accepted as text |
| `Text.Utf8IsEncodedText` | crates/kamino-protocol/src/codec.rs:218-231 | and nothing else is |
| `RespProofs.ParseFrameStable` | crates/kamino-protocol/src/codec.rs:199-513 | a parse that is settled, by success or error, is unchanged by more bytes |
| `RespProofs.RoundTrip` | crates/kamino-protocol/src/codec.rs:199-640 | every legal frame's encoding parses back to the frame and is used up |
| `RespProofs.RoundTripInContext` | crates/kamino-protocol/src/codec.rs:199-640 | the same with any bytes following |
| `RespProofs.ProperPrefixIncomplete` | crates/kamino-protocol/src/codec.rs:199-409 | every proper prefix of a legal encoding is reported incomplete |
| `RespChunks.PrefixFailsIff` | crates/kamino-protocol/src/codec.rs:90-135 | the decoder fails on a prefix of a stream exactly when it ends strictly inside a part that must not be cut |
| `RespChunks.ChunkingIsInvisible` | crates/kamino-protocol/src/codec.rs:90-135 | a stream of encoded frames cut into any pieces decodes to those frames with nothing left over |
| `RespChunks.ChunkingInvisibleIff` | crates/kamino-protocol/src/codec.rs:90-135 | a stream of encoded frames and inline pings decodes to all its frames with nothing left over exactly when no piece ends strictly inside an inline ping |
| `RespChunks.InlinePingMustArriveWhole` | crates/kamino-protocol/src/codec.rs:96-114 | every inline ping, in any case and with either line end, is a frame when it arrives whole, and every proper prefix of it is an error |
| `RespLimits.LineBytes` | crates/kamino-protocol/src/codec.rs:517-640 | the exact bytes written for every frame that is not an aggregate |
| `RespLimits.AggregateBytes` | crates/kamino-protocol/src/codec.rs:517-640 | an aggregate is its type byte, its count, and its items' bytes |
| `RespLimits.Resp2SendsResp2` | crates/kamino-protocol/src/codec.rs:517-530 | what can be encoded for RESP2 holds no RESP3 kind at any depth |
| `RespLimits.LineBreaksRefused` | crates/kamino-protocol/src/codec.rs:517-640 | a simple string or error is encoded exactly when it holds no CR and no LF |
| `RespLimits.OversizeBulkRefused` | crates/kamino-protocol/src/codec.rs:333-371 | a bulk string is refused as soon as a length above the limit, or a negative one other than null, is announced |
| `RespLimits.OversizeAggregateRefused` | crates/kamino-protocol/src/codec.rs:373-513 | so is an aggregate that announces too many items or a negative count; only arrays may be null |
| `RespLimits.TooDeepRefused` | crates/kamino-protocol/src/codec.rs:199-211 | more than 32 levels of nesting are refused whatever is inside |
| `RespLimits.NestingLimit` | crates/kamino-protocol/src/codec.rs:199-211 | arrays are accepted nested 32 deep and no deeper |
| `RespLimits.BigNumberForm` | crates/kamino-protocol/src/codec.rs:283-302 | a big number is digits with at most one leading sign, of either kind |
| `RespLimits.UnknownStartRefused` | crates/kamino-protocol/src/codec.rs:96-114 | a first byte that starts no frame is an inline command if it is a letter and an encoding error otherwise |
| `RespLimits.InlinePingSpelled` | crates/kamino-protocol/src/codec.rs:179-195 | an inline ping is PING in any case, then LF or CR LF, and nothing else is |
| `RespCodec.ReadLineLoop` | crates/kamino-protocol/src/codec.rs:313-324 | returns the bytes before the first CR LF, or says incomplete when there is none |
| `RespCodec.ParseItemsLoop` | crates/kamino-protocol/src/codec.rs:393-409 | the item loop parses what the specification parses |
| `RespCodec.ParseFrameLoop` | crates/kamino-protocol/src/codec.rs:199-311 | the recursive parser with its loops equals the specification |
| `RespCodec.Codec.Decode` | crates/kamino-protocol/src/codec.rs:90-135 | consumes exactly a decoded frame's bytes and otherwise leaves the buffer as it was |
| `CommandProofs.VerbOfExact` | crates/kamino-protocol/src/command.rs:246-292 | a verb is recognised exactly when the first 32 bytes spell it in some case |
| `CommandProofs.PutOptionsBack` | crates/kamino-protocol/src/command.rs:527-554 | every combination of DM.PUT options is read back as printed |
| `CommandProofs.DmPutBack` | crates/kamino-protocol/src/command.rs:808-918 | a printed DM.PUT is accepted exactly when it has at most one expiry and not both conditions, and is then unchanged |
| `CommandProofs.ScanOptionsBack` | crates/kamino-protocol/src/command.rs:1018-1068 | scan options are read back, whatever bytes the pattern holds |
| `CommandProofs.HelloBack` | crates/kamino-protocol/src/command.rs:507-525 | HELLO comes back with a missing user name turned into `default` |
| `CommandProofs.ParseInvertsToFrame` | crates/kamino-protocol/src/command.rs:224-497 | parsing a printed command gives it back exactly when it is well formed |
| `CommandProofs.CommandOverTheWire` | crates/kamino-protocol/src/command.rs:224-554 | printing, encoding, decoding before any other bytes and parsing gives the command back |
| `CommandProofs.PipelineArrives` | crates/kamino-protocol/src/codec.rs:90-135 | a pipeline of commands cut into any pieces arrives as the same commands |
| `CommandMeaning.VerbInAnyCase` | crates/kamino-protocol/src/command.rs:248-292 | a verb is recognised exactly when it spells its name, each letter in either case |
| `CommandMeaning.PutKeywords` | crates/kamino-protocol/src/command.rs:817-888 | the option keywords of DM.PUT, in any case |
| `CommandMeaning.PutOptionMeaning` | crates/kamino-protocol/src/command.rs:817-888 | each valued option sets its own field to its number and nothing else |
| `CommandMeaning.RepeatedOptionConflicts` | crates/kamino-protocol/src/command.rs:817-888 | a valued option given twice is a conflict |
| `CommandMeaning.AcceptedPut` | crates/kamino-protocol/src/command.rs:808-918 | an accepted DM.PUT has its first three arguments as given, at most one expiry and not both conditions |
| `CommandMeaning.BadOptionRefused` | crates/kamino-protocol/src/command.rs:817-888 | an unknown option, a missing value or a value that is no number is an invalid argument |
| `CommandMeaning.ScanOptionMeaning` | crates/kamino-protocol/src/command.rs:1028-1060 | the options of DM.SCAN: what each sets, conflicts and refusals |
| `CommandMeaning.HelloClauseMeaning` | crates/kamino-protocol/src/command.rs:700-724 | the clauses of HELLO: what each sets, the last of a kind counts, and refusals |
| `CommandMeaning.HelloVersionMeaning` | crates/kamino-protocol/src/command.rs:690-698 | a number after HELLO is the protocol version |
| `CommandMeaning.NotACommand` | crates/kamino-protocol/src/command.rs:224-294 | what is not a non-empty array is refused, and an unknown verb is named in the error |
| `CommandMeaning.WireForm` | crates/kamino-protocol/src/command.rs:298-495 | on the wire a command is its word, then its arguments in their order, then its options |
| `CommandMeaning.NoArgumentIgnored` | crates/kamino-protocol/src/command.rs:568-1159 | an accepted command accounts for every argument, so wrong arity is never accepted; only DM.PUT flags and HELLO clauses may repeat |
| `CommandLoops.CollectArgs` | crates/kamino-protocol/src/command.rs:231-243 | the arguments, or the error of the first item that is not a bulk string |
| `CommandLoops.VerbBuffer` | crates/kamino-protocol/src/command.rs:248-255 | the 32-byte buffer ends up holding the upper-case verb |
| `CommandLoops.PutOptionLoop` | crates/kamino-protocol/src/command.rs:816-888 | the option loop reads what the specification reads |
| `CommandLoops.ScanOptionLoop` | crates/kamino-protocol/src/command.rs:1028-1060 | the option loop reads what the specification reads |
| `CommandLoops.HelloLoop` | crates/kamino-protocol/src/command.rs:700-724 | the clause loop reads what the specification reads |
| `Locker.CountsKept` | crates/kamino-storage/src/locker.rs:71-156 | every step of every thread keeps each refcount equal to holders plus waiters |
| `Locker.NoLeakKept` | crates/kamino-storage/src/locker.rs:71-156 | every step keeps a tending thread for each registered entry nobody counts |
| `Locker.RegistryNeverLeaks` | crates/kamino-storage/src/locker.rs:71-156 | in every interleaving counts are exact, an uncounted registered entry is about to be counted or reaped, and the registry is empty when all threads are idle |
| `Locker.SafeKeptIffCareful` | crates/kamino-storage/src/locker.rs:72-92 | a step keeps the registry faithful exactly when it is not a reap over a clone that has not counted itself |
| `Locker.SafeIsExclusive` | crates/kamino-storage/src/locker.rs:107-156 | in a faithful state no key has two holders and every counted entry is the registered one |
| `Locker.CarefulRunsExclude` | crates/kamino-storage/src/locker.rs:63-156 | in every interleaving without such a reap counts equal holders plus waiters, counted entries are registered, and holders exclude each other |
| `Locker.CarelessReapBreaksExclusion` | crates/kamino-storage/src/locker.rs:141-156 | from every faithful state, such a reap can be followed by steps that give one key two holders |
| `Locker.CarelessReapReachable` | crates/kamino-storage/src/locker.rs:141-156 | with two threads or more a faithful state in which such a reap is about to happen is reached from the start |
| `Locker.ExclusionBreaksFromStart` | crates/kamino-storage/src/locker.rs:72-156 | so some run from the start ends with two holders of one key |
| `Timestamps.NextStamp` | crates/kamino-server/src/replication.rs:46-60 | the next stamp is later than the last, below the end of the range, and not before the wall clock |
| `Timestamps.TimestampSource.Next` | crates/kamino-server/src/replication.rs:46-60 | however often other threads interfere, the stamp is later than the clock was and than everything they stored |
| `Timestamps.TimestampSource.Observe` | crates/kamino-server/src/replication.rs:63-65 | raises the clock to what was observed and never lowers it |
| `Replication.Aggregate` | crates/kamino-server/src/replication.rs:198-237 | counts acks and failures of all replies and keeps the first failure |
| `Replication.BackupsAreJoinsKept` | crates/kamino-server/src/handlers.rs:367-382 | each backup always holds, for each key, a latest one of the writes delivered to it |
| `Replication.PrimaryIsLastKept` | crates/kamino-server/src/handlers.rs:387-409 | the primary always holds, for each key, the write committed last |
| `ConditionalPuts.CommitRefusedIff` | crates/kamino-server/src/handlers.rs:401-409 | a put is refused exactly when it asks for a missing key and the log has a write of it, or for a present key and the log has none; refused, it changes nothing and its client is told so |
| `ConditionalPuts.ConditionsHoldInEveryRun` | crates/kamino-client/src/embedded.rs:418-424 | in every run a committed NX put has no earlier write of its key in the log, a committed XX put has one, and other puts are never rejected |
| `Replication.AcksDeliveredKept` | crates/kamino-server/src/replication.rs:95-119 | an ack recorded for a put means that the put reached that backup |
| `ReplicationRuns.StampsIncrease` | crates/kamino-server/src/replication.rs:46-60 | without client timestamps, stamps strictly increase in every run below the end of the range |
| `ReplicationRuns.BackupsNeverAhead` | crates/kamino-server/src/handlers.rs:365-443 | one write at a time: no backup is ever ahead of the primary, under any delay, order and repetition |
| `ReplicationRuns.AgreementIff` | crates/kamino-server/src/handlers.rs:387-443 | with everything delivered a backup agrees on a key exactly when the last commit has the highest stamp |
| `ReplicationRuns.AgreementInEveryRun` | crates/kamino-server/src/handlers.rs:387-443 | the same for every concurrent run without client timestamps |
| `ReplicationRuns.DeliveredBackupsEqualPrimary` | crates/kamino-server/src/handlers.rs:365-443 | one write at a time: with everything delivered each backup's store equals the primary's |
| `ReplicationRuns.OkMeansQuorum` | crates/kamino-server/src/handlers.rs:415-443 | one write at a time: OK for a put with a backup means that the primary and enough backups hold that stamp or a later one |
| `ReplicationRuns.SyncAnswerIff` | crates/kamino-server/src/handlers.rs:419-443 | a committed put with backups waits for all answers and is then OK exactly when the acknowledgements and the primary make up the quorum |
| `ReplicationRuns.DeliveryMeaning` | crates/kamino-server/src/handlers.rs:367-382 | a delivery stores the write if the backup lacks the key or has it strictly older, changes nothing else, and repeated does nothing |
| `ReplicationRuns.PutCanComplete` | crates/kamino-server/src/handlers.rs:387-443 | a stamped put that meets its condition can be committed, delivered, acknowledged and answered OK with a quorum of two |
| `ReplicationRuns.AckKinds` | crates/kamino-server/src/replication.rs:203-234 | OK, integers and bulk strings, null or not, are acknowledgements; nothing else is |
| `ReplicationRuns.NoBackupsIgnoreQuorum` | crates/kamino-server/src/handlers.rs:415-417 | without backups the answer is OK for every quorum, and no backup holds the write |
| `ReplicationRuns.OvertakenCommitDiverges` | crates/kamino-server/src/handlers.rs:387-400 | two concurrent puts can leave the primary and a fully delivered backup with different writes |
| `ReadRepair.PicksWinner` | crates/kamino-server/src/handlers.rs:622-628 | the reply picked has the highest stamp and is the last with it; none is picked exactly when there is none |
| `ReadRepair.StaleReplicas` | crates/kamino-server/src/handlers.rs:647-660 | lists exactly the replicas whose reply is missing or older than the winner |
| `ReadRepair.RepairConverges` | crates/kamino-server/src/handlers.rs:580-618 | whatever newer writes arrive in between, repair brings every replica asked to the winner or beyond, never back, and truthful ones exactly to it unless they have passed it |
| `ReadRepair.ReadReturnsLastCommit` | crates/kamino-server/src/handlers.rs:563-582 | in every run of one write at a time a read over any answering backups returns the write committed last |
| `Migration.EncodeFragmentPayload` | crates/kamino-client/src/migration.rs:39-54 | the buffer is header and entries, one after another |
| `Migration.DecodeFragmentPayload` | crates/kamino-client/src/migration.rs:60-91 | the cursor loop decodes what the specification decodes, with its errors |
| `Migration.PayloadBack` | crates/kamino-client/src/migration.rs:39-91 | a payload decodes to the partition and the entries encoded, up to `u32::MAX` of them; only an empty export is no longer than a header |
| `Migration.PayloadBytes` | crates/kamino-client/src/migration.rs:39-54 | the bytes of a payload: version, partition, count, entries |
| `Migration.CutPayloadRefused` | crates/kamino-client/src/migration.rs:60-91 | a payload cut short anywhere is refused, with the error of the place where it ends |
| `Migration.ImportPartition` | crates/kamino-client/src/embedded.rs:192-219 | rejects bad payloads and foreign partitions without change, otherwise merges entry by entry and counts the winners |
| `Migration.ImportJoins` | crates/kamino-client/src/embedded.rs:206-218 | after an import every key holds the newest of what it had and what came |
| `Migration.ReimportAppliesNothing` | crates/kamino-client/src/embedded.rs:206-218 | importing a payload again, in any order and any part, applies nothing |
| `Migration.AppliedCountsWinners` | crates/kamino-client/src/embedded.rs:206-218 | the count reported is the number of entries the receiver lacked or had older |
| `Balancer.MergeHandsOver` | crates/kamino-cluster/src/balancer.rs:356-395 | a merge, however late, leaves a node that keeps whatever the nodes it dooms were keeping |
| `Balancer.KeptByStep` | crates/kamino-cluster/src/balancer.rs:356-395 | no undisturbed step leaves a key without a node that keeps it |
| `Balancer.NewestCopySurvives` | crates/kamino-cluster/src/balancer.rs:279-395 | in every run of exports, failures and clears on any number of nodes, with payloads merged in part, repeatedly or long after their sender gave up, a copy stays somewhere unexpired and no older |
| `Balancer.PermanentCopySurvives` | crates/kamino-cluster/src/balancer.rs:279-395 | in the same runs a key whose copies have no time to live keeps such a copy somewhere, whatever the time |
| `Balancer.MigrationCanComplete` | crates/kamino-cluster/src/balancer.rs:356-395 | an idle node can export, have the peer merge everything, and clear the partition |
| `BalancerTick.MoveKeepsIff` | crates/kamino-client/src/embedded.rs:168-219 | a move keeps an unexpired entry exactly when the receiver holds no expired copy at least as new |
| `BalancerTick.MoveTakesAllIff` | crates/kamino-client/src/migration.rs:39-54 | a move to a peer without the partition takes every unexpired entry along exactly when there are at most `u32::MAX` |
| `BalancerTick.DisturbedClearLosesWrite` | crates/kamino-client/src/embedded.rs:242-262 | a write that arrives between export and clear is lost |
| `BalancerTick.ExportPartition` | crates/kamino-client/src/embedded.rs:168-190 | lists exactly the partition's entries that have no time to live or have not reached it, each once |
| `BalancerTick.ClearPartition` | crates/kamino-client/src/embedded.rs:242-262 | removes exactly the partition's keys and counts them |
| `BalancerTick.MigrateOne` | crates/kamino-cluster/src/balancer.rs:356-395 | the sender keeps everything or clears the partition, which then has reached the peer if a payload can carry it; a confirmed send leaves nothing that lasts |
| `BalancerTick.Plan` | crates/kamino-cluster/src/balancer.rs:299-317 | plans exactly the local partitions whose known primary is another node |
| `BalancerTick.RunTick` | crates/kamino-cluster/src/balancer.rs:279-344 | whatever fails, no entry without a time to live, or before it, is lost from a node whose entries a payload can carry; owned partitions stay and other nodes only gain; with every send confirmed no such orphan is left |
| `Forwarder.PermitsKept` | crates/kamino-cluster/src/forwarder.rs:493-656 | every step keeps free plus held permits at the cap |
| `Forwarder.InStepKept` | crates/kamino-cluster/src/forwarder.rs:564-656 | while replies are read, slots in flight are the unanswered commands in order, or all were failed and the writer has ended |
| `Forwarder.OwnRepliesKept` | crates/kamino-cluster/src/forwarder.rs:619-646 | the reply read next belongs to the slot at the head |
| `Forwarder.RepliesMatchAndPermitsBalance` | crates/kamino-cluster/src/forwarder.rs:493-656 | in every interleaving with timeouts, failures and shutdown a reply reaches only its own caller, permits are conserved, at most the cap is in flight and no call is forgotten |
| `Forwarder.OnePlaceKept` | crates/kamino-cluster/src/forwarder.rs:493-656 | every step keeps each call's slot in one place at most, and in none once the call is answered |
| `Forwarder.StrandedIff` | crates/kamino-cluster/src/forwarder.rs:564-656 | a step strands a call exactly when it pushes its slot behind a reader that has failed the slots, or ends a reader while the slot is in flight |
| `Forwarder.StrandedUntilDropped` | crates/kamino-cluster/src/forwarder.rs:570-606 | a stranded call stays so exactly until the writer fails all slots or the list is dropped with both tasks, and is then answered unless it gave up |
| `Forwarder.SmoothRunsStrandNobody` | crates/kamino-cluster/src/forwarder.rs:493-656 | in every run without those two steps no call is ever stranded |
| `Forwarder.RacingPushStrands` | crates/kamino-cluster/src/forwarder.rs:636-655 | such a slot is reached: the writer looks at the flag, the reader fails the slots, the writer pushes before the flag is set |
| `Forwarder.OutcomesFinal` | crates/kamino-cluster/src/forwarder.rs:507-516 | what a caller was told never changes and callers who gave up are told nothing |
| `Forwarder.TerminalSendsNothingNew` | crates/kamino-cluster/src/forwarder.rs:564-577 | after the connection is marked terminal no command the writer had not let through yet is ever sent, in any continuation |
| `Forwarder.CallAfterTerminal` | crates/kamino-cluster/src/forwarder.rs:493-499 | a call on a terminal connection is told so at once and takes no permit |
| `Forwarder.CallCanComplete` | crates/kamino-cluster/src/forwarder.rs:493-646 | a call on a ready connection can be sent and get its own reply, after which the connection is ready again |
| `Membership.LocalStaysAlive` | crates/kamino-cluster/src/membership.rs:156-171 | in every run the local member is alive at the local incarnation |
| `Membership.ApplyJoins` | crates/kamino-cluster/src/membership.rs:265-390 | one event takes a known member's (incarnation, dead) to its join with the event's |
| `Membership.GossipIsJoin` | crates/kamino-cluster/src/membership.rs:190-224 | after any run of events it is the join of them all |
| `Membership.GossipOrderFree` | crates/kamino-cluster/src/membership.rs:190-224 | any permutation and repetition of the same events gives the same (incarnation, dead) |
| `Membership.RankNeverFalls` | crates/kamino-cluster/src/membership.rs:190-241 | in every run without eviction it never decreases |
| `Membership.DeadLeftOnlyUpward` | crates/kamino-cluster/src/membership.rs:284-293 | death is left only at a strictly higher incarnation |
| `Membership.DeclaredDeadIsNeverEvicted` | crates/kamino-cluster/src/membership.rs:244-262 | a member declared dead by gossip stays recorded through every run without a higher incarnation, evictions included |
| `Membership.UnknownMemberOrderMatters` | crates/kamino-cluster/src/membership.rs:374-376 | for an unknown member Dead before Alive and Alive before Dead end differently |
| `Membership.AliveAndSuspectOverride` | crates/kamino-cluster/src/membership.rs:294-313 | at one incarnation the later of Alive and Suspect wins |
| `Membership.AliveEventMeaning` | crates/kamino-cluster/src/membership.rs:265-337 | exactly when an Alive event is new, taken or ignored, and the entry it stores |
| `Membership.BadNewsAboutSelf` | crates/kamino-cluster/src/membership.rs:346-376 | suspicion or death of the local member changes nothing and asks for a refutation; of an unknown member it is ignored |
| `Membership.SuspicionTimeline` | crates/kamino-cluster/src/membership.rs:228-262 | a suspected member is dead after a reap exactly when its timeout has passed, and forgotten by an eviction exactly when it has been overdue long enough |
| `Membership.RefutationIff` | crates/kamino-cluster/src/membership.rs:276-313 | an Alive event refutes a suspicion from its incarnation on and a death only above it |
| `Membership.DeathIff` | crates/kamino-cluster/src/membership.rs:370-390 | death and leave are taken from the known incarnation on, once, and stored without a deadline |
| `Coordinator.SnapshotStartsLeast` | crates/kamino-cluster/src/membership.rs:105-122 | a snapshot is empty exactly when nobody is live and otherwise starts with the least live member |
| `Coordinator.CoordinatorFlag` | crates/kamino-cluster/src/membership.rs:111-118 | only the first of a snapshot can be flagged coordinator, and it is exactly when the oldest known member is not dead |
| `Coordinator.CoordinatorIsLeastLive` | crates/kamino-cluster/src/membership.rs:105-122 | in every valid view the snapshot starts with the least live member of all |
| `Coordinator.SnapshotListsLive` | crates/kamino-cluster/src/membership.rs:105-122 | a snapshot lists exactly the members that are not dead, each once, by (birthdate, id) |
| `Coordinator.SameLiveSameCoordinator` | crates/kamino-cluster/src/membership.rs:105-122 | two views with the same live ids and birthdates choose the same coordinator |
| `Coordinator.ReSorted` | crates/kamino-cluster/src/membership.rs:392-403 | lists exactly the known ids, once each, by (birthdate, id) |
| `Coordinator.MembershipView.Bootstrap` | crates/kamino-cluster/src/membership.rs:84-103 | starts sound with the local member alive at incarnation 1 |
| `Coordinator.MembershipView.Apply` | crates/kamino-cluster/src/membership.rs:190-224 | changes the view and answers as specified; order and local member stay right |
| `Coordinator.MembershipView.ApplyAliveInPlace` | crates/kamino-cluster/src/membership.rs:265-337 | the branches update the map as specified and the order follows |
| `Coordinator.MembershipView.ApplySuspectInPlace` | crates/kamino-cluster/src/membership.rs:339-368 | the same, and the order needs no sort |
| `Coordinator.MembershipView.ApplyDeadInPlace` | crates/kamino-cluster/src/membership.rs:370-390 | the same for death |
| `Coordinator.MembershipView.ReapSuspects` | crates/kamino-cluster/src/membership.rs:228-241 | turns exactly the overdue suspects dead and reports exactly them |
| `Coordinator.MembershipView.EvictTombstones` | crates/kamino-cluster/src/membership.rs:244-262 | removes exactly the dead entries whose deadline is set and old enough |
| `Coordinator.MembershipView.BumpLocalIncarnation` | crates/kamino-cluster/src/membership.rs:158-171 | raises the local incarnation by one and keeps the local member alive at it |
| `Coordinator.MembershipView.TakeSnapshot` | crates/kamino-cluster/src/membership.rs:105-122 | returns the stored members of exactly the ids that are not dead, each once, strictly increasing by (birthdate, id) |
| `Gossip.BudgetIsLogIff` | crates/kamino-cluster/src/gossip.rs:101-107 | the budget is three times the logarithm of n + 1, rounded up, exactly from 1 to `u32::MAX` members |
| `Gossip.PushFits` | crates/kamino-cluster/src/gossip.rs:52-65 | a push keeps events distinct, within a positive capacity and with budget left |
| `Gossip.PushKeepsOthers` | crates/kamino-cluster/src/gossip.rs:52-65 | after a push the event is pending with at least its budget, the others keep budget and order, and only the oldest can be gone |
| `Gossip.DrainFits` | crates/kamino-cluster/src/gossip.rs:70-88 | a drain keeps the same and takes exactly one from the total budget for each event sent |
| `Gossip.QueueStaysFit` | crates/kamino-cluster/src/gossip.rs:52-88 | in every run all that holds, and budget granted equals transmissions made, budget pending and budget evicted |
| `Gossip.DrainLoop` | crates/kamino-cluster/src/gossip.rs:74-87 | the index loop with removals sends the oldest events and leaves what the specification leaves |
| `Gossip.GossipQueue.Push` | crates/kamino-cluster/src/gossip.rs:52-65 | changes the queue as specified and keeps it fit |
| `Gossip.GossipQueue.DrainForSend` | crates/kamino-cluster/src/gossip.rs:70-88 | returns the oldest events in order and lowers the total budget by their number |

## Left out

- Commands.Parse: does not model DM.INCRBYFLOAT or error texts; that verb is unknown to the model, because its argument is a float.
- RespProofs.RoundTrip: leaves out RESP3 doubles, because their text form is a matter of floating point; a map lists keys and values alternately.
- Tables.Table.Append: requires the offset to fit a `u32`, beyond which the source panics; a block's capacity is exactly what was asked for, while a `Vec` may get more; `usize` does not overflow.
- RamBlocks.RamBlock.Put: requires the offset of the append to fit a `u32`, beyond which the source panics; `RamBlockRuns.OffsetsStayFitIff` and `RamBlockRuns.OffsetsFitU32` say exactly which puts lead there.
- RamBlocks.RamBlock.Compact: replaces tables as it goes, where the source collects the replacements first; the garbage threshold is an arbitrary predicate.
- Glob.MatcherDecidesIffSafe: is exact over byte strings, while the source takes UTF-8; for a pattern whose sets hold single bytes of longer characters the wrongly accepted candidate need not be UTF-8. What the matcher accepts rightly is proved for all byte strings.
- RespLimits.UnknownStartRefused: excludes the comma, which starts a double in RESP3.
- ConditionalPuts.CommitRefusedIff: has no expiry, so a key once committed stays present; reading the condition and writing are one step.
- Locker.CarefulRunsExclude: tasks are not cancelled between clone and release; which waiter gets the inner mutex next is arbitrary.
- Replication.Aggregate: counters do not overflow, and the first error is kept as the reply, not as text.
- ReplicationRuns.BackupsNeverAhead: has no deletes, expiry, eviction or client timestamps, and stays below the largest `i64`; the code promises no convergence for deletes.
- Balancer.NewestCopySurvives: is about one map, whose entries never collide by hash.
- Migration.EncodeFragmentPayload: requires entries that encode, as the source does by panicking otherwise; nothing else is ever stored.
- ReadRepair.ReadReturnsLastCommit: asks backups only; previous owners of a partition are not part of the replication model.
- RamBlocks.RamBlock.PutLww: has the same requirement as `RamBlocks.RamBlock.Put`.
- Coordinator.MembershipView.Bootstrap: a view is never used before its bootstrap, and incarnations do not overflow.
- `RamBlock::export` and `import`, regex scans: the import hashes keys anew and is not meant as an inverse.
- Sockets, transports, handshakes, retries and back-off, tracing, metrics, configuration, discovery.
- Routing ring, routing store and SWIM probing: a routing table is an arbitrary map from partition to node.
- Embedded locks, leases, LRU eviction and last-access updates: separate fragment operations without an atomic claim.
- Pub/sub registry, event rendering, AUTH and HELLO handlers, MessagePack: easy members.

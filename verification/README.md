# vecdb: one shard from the bytes up, and the coordinator over several

This project models the storage and search core of vecdb and proves what it promises. Everything is
stated for all inputs, all sampled layers, all ways ties may break, and all runs.

- **The index** (`HnswIndex`, `NeighbourStore`, `HnswSpec`, `GreedyProofs`, `BeamProofs`, `BeamOrders`, `HnswTheorems`, `InsertLaws`,
  `Graphs`, `Hits`, `Sorting`). A class with the source's fields; greedy descent, two-heap beam search, linking and pruning are loops
  over it. What one search or insert does is a relation between values; the theorems are about that
  relation: the graph invariant, the beam closure, exactness of small indexes and of wide beams,
  which links a new node gets, links that only improve, and one outcome where distances do not tie. The metric is an arbitrary real-valued function, the sampled layer any layer.
  The level of a node, which the source does not store, is a ghost field.
- **The log** (`Wal`, `WalSpec`, `FileLayout`, `Crc32`, `CrcCheck`, `Bytes`). An array of bytes changed in place. Its slots refine a
  sequence of entries through append, growth, checkpoint, truncation, reopening and a torn last slot. The
  table-driven CRC is proved equal to the shift register, and to detect every change of up to four
  consecutive bytes.
- **Files** (`Segment`, `Growth`, `GraphText`, `GraphReader`, `GraphRoundTrip`, `GraphLaws`, `Snapshot`,
  `SnapshotLaws`). The segment file with its
  self-validating header; the printer and the cursor parser of the graph file, which undo each other; save
  and load.
- **Recovery** (`Shard`, `Recovery`). A shard is an index, a log and the files of its last snapshot. Each of
  its methods is a step of a small protocol over values; the protocol's theorems say exactly when a restart
  brings back the live vectors.
- **The coordinator** (`ShardManager`, `Merge`, `Ring`, `Fnv`). Scatter, gather and merge; the
  consistent-hash ring and what adding a shard moves.
- **Two numeric loops** (`Kernels`, `CosineLaws`, `RateLimiter`). The blocked distance kernels and the token bucket, over reals.

Where the comments and the code of the source disagree, the model follows the code:

- `replay` is described as starting at the checkpoint; it starts at number 0 (vecdb/src/wal/wal.cpp:311-315).
- `truncate` does nothing when the log was checkpointed at its last entry (vecdb/src/wal/wal.cpp:366), so a
  snapshot at that moment keeps the log and the next restart inserts its entries a second time
  (`Recovery.SnapshotThenRestart`, `Recovery.FirstSnapshotDoubles`).
- `load_all` skips a shard that has no snapshot, log and all (vecdb/src/shard/shard_manager.cpp:137,
  `Recovery.LostWithoutSnapshot`).
- `degraded` reports the shards that threw in this search; shards that were already unhealthy are skipped and
  counted as ok (vecdb/src/shard/shard_manager.cpp:73).
- `affected_shards_on_add` and the claim of minimal movement depend on how the unstable sort orders equal
  positions; `Rings.AddingAShard` gives the exact condition, and on rings of up to 255 shards with up to 256
  virtual nodes each no positions are equal (`Rings.AddingAShardToSmallRing`).
- The constructor of the index accepts an `M_max0` of 0 or less. With 0 no node is linked on layer 0; with a
  negative one every insert but the first throws after it has stored the vector (vecdb/src/hnsw/index.cpp:179-180).
- The visited flags are set when a node is first met, not when it is popped (vecdb/src/hnsw/index.cpp:107-141).
- After a rejection the bucket is empty, not merely short of one token, so a client that keeps asking too fast
  is never admitted again (`RateLimiters.Starved`).

## Model

| member | source | states |
|---|---|---|
| `HnswIndexes.HnswIndex.Create` | vecdb/src/hnsw/index.cpp:22-25 | an index is built exactly for the configurations the constructor accepts, and starts empty and valid |
| `HnswIndexes.HnswIndex.GreedySearchLayer` | vecdb/src/hnsw/index.cpp:67-87 | terminates (fewer and fewer nodes are strictly closer) having always moved to the first of the closest neighbours, at a node none of whose neighbours is closer; every neighbour access is in range |
| `HnswIndexes.HnswIndex.Descend` | vecdb/src/hnsw/index.cpp:244-247 | the walks over the layers from top to bottom, each ending at a local minimum of its layer |
| `HnswIndexes.HnswIndex.SearchLayer` | vecdb/src/hnsw/index.cpp:101-167 | when the loop ends, also by its early break: nodes were expanded best first and only while fewer than ef of those met were closer, every result was expanded, and the result lists in distance order the min(ef, seen) closest of all seen nodes |
| `HnswIndexes.HnswIndex.Expand` | vecdb/src/hnsw/index.cpp:138-155 | exactly the unvisited neighbours of one node are marked and offered, and the beam invariant is kept |
| `HnswIndexes.HnswIndex.Offer` | vecdb/src/hnsw/index.cpp:143-154 | one neighbour: pushed on both heaps or refused so that the results stay the closest of all nodes seen |
| `HnswIndexes.HnswIndex.SelectNeighbours` | vecdb/src/hnsw/index.cpp:176-186 | the ids of the first min(M, size) candidates; an exception exactly for a negative M |
| `HnswIndexes.HnswIndex.PruneConnections` | vecdb/src/hnsw/index.cpp:193-211 | a list within the bound is untouched, a longer one becomes its nearest M_max entries in order of distance then id, all other lists stay |
| `HnswIndexes.HnswIndex.Nearest` | vecdb/src/hnsw/index.cpp:197-208 | the M_max entries nearest to the node, nearest first, each a member of the old list; nothing nearer was dropped |
| `HnswIndexes.HnswIndex.LinkBack` | vecdb/src/hnsw/index.cpp:263-265 | one back link: added, then the list is pruned; all other lists stay |
| `HnswIndexes.HnswIndex.Connect` | vecdb/src/hnsw/index.cpp:257-266 | the new node gets exactly the selected list, each selected node the new node and a pruning, and no other list of any layer changes |
| `HnswIndexes.HnswIndex.ConnectLayers` | vecdb/src/hnsw/index.cpp:250-270 | every layer from the top one down is searched on the graph as it was before the insert and linked once; each search starts at the closest hit of the layer above; throws at layer 0 exactly for a negative M_max0 |
| `HnswIndexes.HnswIndex.Insert` | vecdb/src/hnsw/index.cpp:216-279 | returns the next id, keeps the whole graph invariant, and relates the old state to the new one: vectors appended, descent, layer searches, links, entry point and top layer; for a negative M_max0 every insert but the first throws, with the vector stored and the layers above 0 linked |
| `HnswIndexes.HnswIndex.Search` | vecdb/src/hnsw/index.cpp:290-315 | the descent, the layer-0 beam of width max(ef, top_k) and the first top_k hits; throws exactly for a negative top_k on a non-empty index |
| `HnswIndexes.HnswIndex.SearchDefault` | vecdb/src/hnsw/index.cpp:285-287 | the two-argument search is the search with the configured width |
| `HnswIndexes.HnswIndex.LoadFromSnapshot` | vecdb/src/hnsw/index.cpp:330-360 | the state becomes exactly what was saved, missing lists empty |
| `NeighbourStores.NeighbourStore.Resize` | vecdb/src/hnsw/neighbour_store.cpp:23-37 | old lists are kept, each new node gets max_layers empty lists, shrinking is ignored |
| `NeighbourStores.NeighbourStore.SetNeighbours` | vecdb/src/hnsw/neighbour_store.cpp:42-50 | one list is replaced, all others are unchanged |
| `NeighbourStores.NeighbourStore.AddNeighbour` | vecdb/src/hnsw/neighbour_store.cpp:55-59 | one id is appended to one list, all others are unchanged |
| `BeamProofs.OfferKeeps` | vecdb/src/hnsw/index.cpp:145-154 | whichever way ties at the heap top are broken, offering a node keeps the results the closest of all nodes seen |
| `BeamProofs.SwapKeeps` | vecdb/src/hnsw/index.cpp:146-153 | replacing a worst result by a closer node keeps that, and keeps every result on the candidate heap or expanded |
| `BeamProofs.EarlyStop` | vecdb/src/hnsw/index.cpp:130-135 | when the closest candidate is farther than the worst result, no result is waiting on the candidate heap any more |
| `BeamProofs.Finish` | vecdb/src/hnsw/index.cpp:158-166 | the sorted results then satisfy the specification of the beam search |
| `BeamProofs.PrunedIsPruned` | vecdb/src/hnsw/index.cpp:198-208 | sorting the pairs and keeping the first M_max gives distinct old neighbours, the nearest ones in order |
| `BeamOrders.PopIsNext` | vecdb/src/hnsw/index.cpp:127-135 | unless the search stops, the popped candidate is a closest node not yet expanded, and fewer than ef of the nodes met are closer |
| `BeamOrders.FrontierKeeps` | vecdb/src/hnsw/index.cpp:145-154 | an offer leaves every node not yet expanded on the candidate heap or refused by a full beam |
| `BeamOrders.NothingNext` | vecdb/src/hnsw/index.cpp:130-135 | without ties, a search that has expanded all its results has no node left to expand, so it neither stops early nor late |
| `BeamOrders.BeamUnique` | vecdb/src/hnsw/index.cpp:101-167 | without ties, a beam search has one answer and meets one set of nodes |
| `GreedyProofs.GreedyUnique` | vecdb/src/hnsw/index.cpp:67-87 | a greedy walk has one end, ties included |
| `GreedyProofs.GreedyBeatsNeighbours` | vecdb/src/hnsw/index.cpp:76-84 | it ends no farther than any neighbour of where it started |
| `HnswTheorems.InsertKeeps` | vecdb/src/hnsw/index.cpp:216-279 | for every accepted configuration, every insert keeps: lists with distinct in-range ids, no self-loop, size within M or M_max0; links of layer l only between nodes of level l or more; entry point at the top level; every node linked on layer 0 once there are two and M_max0 is positive; and, up to M_max0 + 1 vectors, layer 0 symmetric and connected |
| `HnswTheorems.GraphKeeps` | vecdb/src/hnsw/index.cpp:216-279 | the part of that invariant that holds at every size |
| `HnswTheorems.SearchLevels` | vecdb/src/hnsw/index.cpp:250-270 | each layer's search in an insert starts at, and only meets, old nodes that live on that layer |
| `HnswTheorems.DescentLevel` | vecdb/src/hnsw/index.cpp:244-247 | the greedy descent ends at an old node of at least the level it stopped at |
| `HnswTheorems.NewList` | vecdb/src/hnsw/index.cpp:250-270 | after an insert every list is unchanged, the new node's selection, or the old list with the new node added and pruned |
| `HnswTheorems.PrunedListOk` | vecdb/src/hnsw/index.cpp:193-211 | adding one id and pruning gives min(d + 1, cap) entries, still distinct, in range and without a self-loop |
| `HnswTheorems.NothingPruned` | vecdb/src/hnsw/index.cpp:193-195 | as long as the index holds at most M_max0 + 1 vectors, pruning never fires on layer 0 |
| `HnswTheorems.ConnectedKeeps` | vecdb/src/hnsw/index.cpp:250-266 | so layer 0 stays symmetric and connected |
| `HnswTheorems.Attach` | vecdb/src/hnsw/index.cpp:257-266 | linking a node both ways without dropping links keeps a symmetric connected layer symmetric and connected |
| `BeamProofs.BeamClosure` | vecdb/src/hnsw/index.cpp:101-167 | every layer neighbour of a result is itself a result, or no closer than every result and the beam was full; the first result is no farther than the start |
| `HnswTheorems.WideBeam` | vecdb/src/hnsw/index.cpp:101-167 | with ef at least the number of reachable nodes, the beam returns all of them |
| `HnswTheorems.ReachableExact` | vecdb/src/hnsw/index.cpp:290-315 | a search with such an ef returns the exact top_k of what layer 0 reaches from where the descent ends |
| `HnswTheorems.PrefixIsTopK` | vecdb/src/hnsw/index.cpp:311-313 | cutting a full ranking to top_k leaves the top_k nearest |
| `HnswTheorems.SmallExact` | vecdb/src/hnsw/index.cpp:193-315 | up to M_max0 + 1 vectors, a search with max(ef, top_k) at least their number is the brute-force top_k in distance order |
| `HnswTheorems.SmallRunExact` | vecdb/src/hnsw/index.cpp:193-315 | the same for every run of inserts from the empty index, for all sampled layers, all ways ties break and every query |
| `HnswTheorems.RunKeeps` | vecdb/src/hnsw/index.cpp:216-279 | after any run of inserts the invariant holds and the vectors are exactly the inserted ones at their ids |
| `HnswTheorems.DescentCloser` | vecdb/src/hnsw/index.cpp:303-305 | the descent never ends farther from the query than it started |
| `HnswTheorems.FirstResult` | vecdb/src/hnsw/index.cpp:290-315 | the first hit of a search is never farther than the global entry point |
| `HnswTheorems.LinksImprove` | vecdb/src/hnsw/index.cpp:193-211 | an insert gives a list min(d + 1, cap) entries or leaves it; a dropped neighbour is no closer than any kept one; a full list's farthest distance does not grow |
| `HnswTheorems.ListsNeverShrink` | vecdb/src/hnsw/index.cpp:193-279 | over any run no list ever gets shorter |
| `HnswTheorems.FullListsImprove` | vecdb/src/hnsw/index.cpp:193-279 | over any run a full list stays full and its farthest distance never grows |
| `HnswTheorems.NoRoomNoLinks` | vecdb/src/hnsw/index.cpp:176-186 | the second and every later node has no layer-0 link of its own if and only if M_max0, which the constructor does not check, is 0 or less |
| `InsertLaws.NewLinksNearest` | vecdb/src/hnsw/index.cpp:176-186 | on every linked layer the new node gets min(bound, ef_construction, seen) links: nodes that layer's search met, nearest first, and no node it met and left out is nearer than a linked one |
| `InsertLaws.NewLinksClosed` | vecdb/src/hnsw/index.cpp:250-258 | an old neighbour of a new link is linked too, or is no nearer than any link and the list or the beam was full |
| `InsertLaws.InsertDescends` | vecdb/src/hnsw/index.cpp:244-247 | the first link is no farther than a local minimum of the layer above the new node's, reached through the upper layers, nor than any top-layer neighbour of the entry point |
| `InsertLaws.FirstLinksDescend` | vecdb/src/hnsw/index.cpp:268-269 | from layer to layer downwards the first link never gets farther |
| `InsertLaws.BackLinks` | vecdb/src/hnsw/index.cpp:260-266 | an old list changes exactly if the new node links to it: the new node goes to its end while there is room, otherwise the nearest entries stay, smaller ids first among equals |
| `InsertLaws.InsertExplores` | vecdb/src/hnsw/index.cpp:250-251 | each layer of an insert is searched best first with width ef_construction |
| `InsertLaws.InsertUnique` | vecdb/src/hnsw/index.cpp:216-279 | given the sampled layer and no ties, an insert has exactly one outcome |
| `InsertLaws.EntryIsFirstTop` | vecdb/src/hnsw/index.cpp:272-276 | over any run the entry point is the first node of the highest layer |
| `InsertLaws.DescentFinds` | vecdb/src/hnsw/index.cpp:303-305 | a descent ends at a local minimum of its last layer, reached layer by layer, no farther than any top-layer neighbour of its start |
| `InsertLaws.SearchDescends` | vecdb/src/hnsw/index.cpp:302-308 | the first hit is no farther than a local minimum of layer 1 that the upper layers lead to, nor than any top-layer neighbour of the entry point |
| `InsertLaws.SearchExplores` | vecdb/src/hnsw/index.cpp:297-314 | the beam is searched best first with width max(ef, top_k), and the first top_k of what it keeps are returned |
| `InsertLaws.SearchUnique` | vecdb/src/hnsw/index.cpp:290-315 | without ties a search has exactly one answer, so an index that was saved and loaded answers as before |
| `InsertLaws.ExactMeans` | vecdb/src/hnsw/index.cpp:290-315 | an exact answer in plain terms: right distances, nearest first, distinct vectors, none left out nearer |
| `Crc32.BuildTable` | vecdb/src/wal/wal.cpp:22-30 | every table entry is eight steps of the shift register from its index |
| `Crc32.Checksum` | vecdb/src/wal/wal.cpp:32-39 | the table-driven loop computes the bit-at-a-time CRC-32 of section 8 of RFC 1952 |
| `Crc32.TableForm` | vecdb/src/wal/wal.cpp:36-37 | one table lookup replaces eight shift steps, for every register value |
| `Crc32.BitLinear` | vecdb/src/wal/wal.cpp:25-26 | the shift register is linear over exclusive or |
| `Crc32.Bits8Injective` | vecdb/src/wal/wal.cpp:25-26 | eight steps never bring two registers together |
| `Crc32.RegisterInjective` | vecdb/src/wal/wal.cpp:36-37 | reading the same bytes never brings two different registers together |
| `Crc32.MeetingRegisters` | vecdb/src/wal/wal.cpp:36-37 | two registers that meet after k bytes each can differ in at most their k low bytes |
| `Crc32.BurstDetected` | vecdb/src/wal/wal.cpp:36-37 | from one register, different runs of at most four bytes lead to different registers |
| `Crc32.ChangeDetected` | vecdb/src/wal/wal.cpp:32-39 | changing up to four consecutive bytes anywhere in a buffer always changes its checksum |
| `Crc32.WordBytesInjective` | vecdb/src/wal/wal.cpp:278 | different checksums are stored as different bytes |
| `CrcChecks.CheckValue` | vecdb/src/wal/wal.cpp:22-39 | the checksum of the digits 123456789 is 0xCBF43926, the published check value |
| `CrcChecks.Residue` | vecdb/src/wal/wal.cpp:22-39 | a buffer followed by its checksum always has the checksum 0x2144DF1C, and the empty one has 0: these pin polynomial, initial value and final xor |
| `WalSpec.EncodeDecode` | vecdb/src/wal/wal.cpp:271-279 | a written slot is accepted and gives the entry back |
| `WalSpec.DecodeEncode` | vecdb/src/wal/wal.cpp:323-351 | an accepted slot holds exactly the bytes append writes for the entry it decodes to |
| `WalSpec.ScanOfImage` | vecdb/src/wal/wal.cpp:234-254 | scanning the image of a log gives exactly the log: nothing behind it is ever read as an entry |
| `WalSpec.ZeroTail` | vecdb/src/wal/wal.cpp:249 | zero-filled space is no entry, because a zero slot names dimension 0 and dim is positive |
| `WalSpec.AppendImage` | vecdb/src/wal/wal.cpp:268-281 | writing one entry into the next slot turns the image of a log into the image of the log with that entry at the end |
| `WalSpec.GrowImage` | vecdb/src/wal/wal.cpp:158-179 | zero-filled growth leaves the log |
| `WalSpec.ShiftEntries` | vecdb/src/wal/wal.cpp:375-380 | after the move to the front, slot k holds kept entry k under its old number |
| `WalSpec.RenumberOne` | vecdb/src/wal/wal.cpp:384-388 | rewriting one number renumbers that kept entry and touches no other |
| `WalSpec.CutImage` | vecdb/src/wal/wal.cpp:395-416 | cutting the file behind the kept entries and mapping it again gives the image of the kept entries |
| `WalSpec.TornImage` | vecdb/src/wal/wal.cpp:268-279 | a crash in the middle of an append leaves the log, or the log and one entry if the slot happens to be valid |
| `WalSpec.ScanStopsAtDamage` | vecdb/src/wal/wal.cpp:333-341 | changing up to four consecutive payload bytes of entry k makes every scan deliver exactly the entries before it |
| `WalSpec.ImageOfScan` | vecdb/src/wal/wal.cpp:234-254 | a file whose tail is zero behind what the scan accepts, but for one slot, is the image of what was accepted |
| `WalSpec.HeaderRoundTrip` | vecdb/src/wal/wal.cpp:108-153 | a written header is read back, and refused by a log of another dimension |
| `WalSpec.HeaderPatched` | vecdb/src/wal/wal.cpp:295-304 | the header patched by a checkpoint is the header written afresh |
| `WalSpec.ReopenFinds` | vecdb/src/wal/wal.cpp:205-254 | opening the file of a log again finds every entry and the checkpoint |
| `WalSpec.ReopenAfterCrash` | vecdb/src/wal/wal.cpp:205-254 | so does opening it with arbitrary bytes in the one slot behind the last entry, plus that entry exactly if the slot is valid |
| `WalSpec.OneGrowSuffices` | vecdb/src/wal/wal.cpp:262-266 | one grow per append makes room when an entry is at most 16 MB |
| `WalSpec.GrowthBound` | vecdb/src/wal/wal.cpp:262-266 | every append of a new log finds room if and only if an entry is at most 16 MB |
| `WalSpec.TruncateThenReplay` | vecdb/src/wal/wal.cpp:365-393 | what a replay delivers after a truncation: everything when it was skipped, else the entries from keep_from_lsn on, renumbered from 0 |
| `WalSpec.CheckpointsEvery` | vecdb/src/wal/wal.cpp:281-287 | a new log is checkpointed at every multiple of checkpoint_every, and never when that is 0 |
| `FileLayouts.EntryLayout` | vecdb/src/wal/wal.cpp:44-52 | number, id, dimension, checksum and payload of an entry at their offsets |
| `FileLayouts.EntryDamage` | vecdb/src/wal/wal.cpp:323-351 | up to four consecutive changed bytes of one field make a written entry invalid, except that a changed id goes unnoticed |
| `FileLayouts.EntryPosition` | vecdb/src/wal/wal.cpp:87-89 | entry k starts k entries behind the 64-byte header |
| `FileLayouts.LogHeaderLayout` | vecdb/src/wal/wal.cpp:108-122 | magic number, version, checkpoint, dimension, checksum of these 20 bytes, zeros, at their offsets |
| `FileLayouts.NoDimensionAccepted` | vecdb/src/wal/wal.cpp:148-149 | a header that names dimension 0 is accepted by every log |
| `FileLayouts.LogHeaderDamage` | vecdb/src/wal/wal.cpp:139-149 | up to four consecutive changed bytes of the header fields, or of their checksum, make every opening refuse the log, with the error that is found first |
| `FileLayouts.LogSizes` | vecdb/src/wal/wal.cpp:212-217 | the mapping is at least 4 MB, zero-filled, and grows by 16 MB |
| `Wals.Wal.OpenOrCreate` | vecdb/src/wal/wal.cpp:184-256 | fails exactly as the checks say; otherwise the log is what the scan of the mapped file accepts, with the checkpoint of the header |
| `Wals.Wal.SlotOk` | vecdb/src/wal/wal.cpp:318-341 | the slot tests of both scan loops decide validity of the slot |
| `Wals.Wal.Scan` | vecdb/src/wal/wal.cpp:234-254 | counts exactly the accepted entries |
| `Wals.Wal.Replay` | vecdb/src/wal/wal.cpp:313-359 | calls back exactly the entries of the log, in order, with their numbers, ids and payloads, from slot 0 on |
| `Wals.Wal.WriteHeader` | vecdb/src/wal/wal.cpp:108-122 | writes the 64 header bytes and leaves the data |
| `Wals.Wal.Grow` | vecdb/src/wal/wal.cpp:158-179 | the log is unchanged in a larger mapping |
| `Wals.Wal.WriteEntry` | vecdb/src/wal/wal.cpp:275-279 | the five stores put exactly the encoded slot in place |
| `Wals.Wal.Append` | vecdb/src/wal/wal.cpp:261-290 | one entry is added at the end under the returned number, with a checkpoint every checkpoint_every appends; the mapping grows at most once |
| `Wals.Wal.Checkpoint` | vecdb/src/wal/wal.cpp:295-308 | the checkpoint moves to the end of the log, which stays as it is |
| `Wals.Wal.Truncate` | vecdb/src/wal/wal.cpp:365-420 | skipped up to the checkpoint; otherwise the first entries go, the rest is renumbered from 0 with ids and payloads kept, and the file is cut |
| `Wals.Wal.ShiftDown` | vecdb/src/wal/wal.cpp:370-380 | the kept entries move to the front |
| `Wals.Wal.RenumberAll` | vecdb/src/wal/wal.cpp:383-388 | the loop renumbers every kept entry |
| `Wals.Wal.Remap` | vecdb/src/wal/wal.cpp:395-416 | the cut and remapped file is the image of the kept entries |
| `Segments.HeaderReadsBack` | vecdb/src/storage/mmap_store.cpp:151-204 | the header of a segment with any number of rows validates and gives dimension and count back |
| `Segments.CountPatched` | vecdb/src/storage/mmap_store.cpp:241-247 | patching count and checksum gives the header of one more row |
| `Segments.AppendStores` | vecdb/src/storage/mmap_store.cpp:227-250 | row, count and checksum together append one row and keep all others |
| `Segments.OneGrowSuffices` | vecdb/src/storage/mmap_store.cpp:228-232 | one grow per append makes room when a row is at most 64 MB |
| `Segments.GrowthBound` | vecdb/src/storage/mmap_store.cpp:228-232 | every append of a new segment finds room if and only if a row is at most 64 MB |
| `Growth.GrowthExact` | vecdb/src/storage/mmap_store.cpp:228-232 | the bound behind both: files that grow by one fixed step hold every slot if and only if a slot is no larger than the step |
| `FileLayouts.SegmentHeaderLayout` | vecdb/src/storage/mmap_store.cpp:151-176 | magic number, version, flags, count, dimension and checksum at their offsets |
| `FileLayouts.RowPosition` | vecdb/src/storage/mmap_store.cpp:254-259 | row i lies i rows behind the 64-byte header |
| `FileLayouts.CountNarrowed` | vecdb/src/storage/mmap_store.cpp:202-203 | a stored count of 2^32 or more is read modulo 2^32 |
| `FileLayouts.SegmentSizes` | vecdb/src/storage/mmap_store.cpp:227-232 | the segment grows by 64 MB when the next row does not fit |
| `FileLayouts.SegmentHeaderDamage` | vecdb/src/storage/mmap_store.cpp:193-200 | up to four consecutive changed bytes of the header fields, or of their checksum, make every opening refuse the segment |
| `Segments.Segment.Create` | vecdb/src/storage/mmap_store.cpp:65-92 | a new valid segment without rows; fails exactly for dimension 0 |
| `Segments.Segment.Open` | vecdb/src/storage/mmap_store.cpp:96-120 | opening fails exactly as the header checks say; a stored segment opens with its dimension and rows |
| `Segments.Segment.Append` | vecdb/src/storage/mmap_store.cpp:227-250 | the row is appended under the returned id, and the header still validates |
| `Segments.Segment.Get` | vecdb/src/storage/mmap_store.cpp:254-259 | out of range exactly past the count; otherwise where the i-th appended row lies in the mapping |
| `GraphRoundTrip.ParsePrint` | vecdb/src/storage/snapshot.cpp:33-78 | parsing a printed graph gives every field and every list back, for every size, the empty index included |
| `GraphRoundTrip.IntRead` | vecdb/src/storage/snapshot.cpp:122-129 | a printed integer is read back, and reading stops right behind it |
| `GraphRoundTrip.ArrayRead` | vecdb/src/storage/snapshot.cpp:132-145 | a printed list is read back |
| `GraphRoundTrip.NodeRead` | vecdb/src/storage/snapshot.cpp:148-173 | a printed node is read back, layer by layer |
| `GraphRoundTrip.NodesRead` | vecdb/src/storage/snapshot.cpp:211-217 | all printed nodes are read back |
| `GraphRoundTrip.LineRead` | vecdb/src/storage/snapshot.cpp:187-206 | a printed field is read back into the field of its key and no other |
| `GraphRoundTrip.AdjRead` | vecdb/src/storage/snapshot.cpp:206-219 | the adjacency lists and the end of the file are read back |
| `GraphReaders.Reader.ParseInt` | vecdb/src/storage/snapshot.cpp:122-129 | the digit loop reads what the grammar says and leaves the cursor behind it |
| `GraphReaders.Reader.ParseKey` | vecdb/src/storage/snapshot.cpp:112-119 | the quoted key, or the exception |
| `GraphReaders.Reader.ParseU32Array` | vecdb/src/storage/snapshot.cpp:132-145 | the list, or the exception, for every text |
| `GraphReaders.Reader.ParseNodeAdj` | vecdb/src/storage/snapshot.cpp:148-173 | the lists of one node, or the exception, for every text |
| `GraphReaders.Reader.ParseValue` | vecdb/src/storage/snapshot.cpp:196-219 | the value of one key; an unknown key consumes nothing |
| `GraphReaders.Reader.ParseJsonGraph` | vecdb/src/storage/snapshot.cpp:175-222 | the cursor parser terminates on every text and agrees with the grammar |
| `GraphLaws.EveryKeyWritten` | vecdb/src/storage/snapshot.cpp:43-53 | the printed text carries every number on its own line under its own key |
| `GraphLaws.Decimal` | vecdb/src/storage/snapshot.cpp:45-63 | numbers are printed in decimal without leading zeros |
| `GraphLaws.NarrowingWraps` | vecdb/src/storage/snapshot.cpp:196-205 | the 32-bit conversions wrap around |
| `GraphLaws.LeadingSpace` | vecdb/src/storage/snapshot.cpp:98-100 | white space in front of a number, a list, a node or the text does not matter |
| `GraphLaws.NodeShape` | vecdb/src/storage/snapshot.cpp:148-173 | the text of every accepted node has exactly the punctuation of the lists it was read as |
| `GraphLaws.NodesShape` | vecdb/src/storage/snapshot.cpp:206-218 | so has the text of all nodes |
| `GraphLaws.UnknownKeyRefused` | vecdb/src/storage/snapshot.cpp:187-219 | an unknown key is not skipped with its value: the text is refused |
| `Snapshots.WriteIds` | vecdb/src/storage/snapshot.cpp:62-65 | the comma loop prints exactly the list |
| `Snapshots.WriteLayers` | vecdb/src/storage/snapshot.cpp:58-68 | the layer loop prints exactly the lists of the node |
| `Snapshots.WriteJsonGraph` | vecdb/src/storage/snapshot.cpp:33-78 | the nested loops print the graph of the index |
| `Snapshots.SnapshotRoundTrip` | vecdb/src/storage/snapshot.cpp:226-275 | loading what was saved gives back the vectors, every list, the entry point and the top layer |
| `SnapshotLaws.ConfigSaved` | vecdb/src/storage/snapshot.cpp:43-54 | parsing the saved graph gives back every value of the configuration in its own place |
| `SnapshotLaws.ConfigWritten` | vecdb/src/storage/snapshot.cpp:43-54 | the saved text names each of them by its own key |
| `SnapshotLaws.MixedFiles` | vecdb/src/storage/snapshot.cpp:254-270 | a graph file and a segment of two different saves load if and only if all three dimensions and both counts agree; otherwise the first disagreement is reported |
| `SnapshotLaws.BadFiles` | vecdb/src/storage/snapshot.cpp:254-270 | unreadable graphs, other versions and bad segment headers are refused, and what loads has version, dimension and count right |
| `Snapshots.Save` | vecdb/src/storage/snapshot.cpp:226-250 | the segment holds the vectors in id order, the graph file the printed graph |
| `Snapshots.Load` | vecdb/src/storage/snapshot.cpp:254-275 | loads or refuses exactly as the checks say; a loaded index equals the saved one, a refusing one is untouched |
| `Snapshots.ReadRows` | vecdb/src/hnsw/index.cpp:341-346 | the vectors are the rows of the segment |
| `Shards.Shard.Create` | vecdb/src/shard/shard_manager.cpp:32-42 | a shard without files is the new shard of the recovery protocol |
| `Shards.Shard.Insert` | vecdb/src/shard/shard_manager.cpp:51-55 | log first, then index: the Insert step of the protocol |
| `Shards.Shard.InsertSteps` | vecdb/src/shard/shard_manager.cpp:53-54 | log before index: if the process dies between the two, the entry is in the log and the index unchanged |
| `Shards.Shard.Snapshot` | vecdb/src/storage/snapshot.cpp:279-284 | both files, then the truncation at the last number: the Snapshot step of the protocol |
| `Shards.Shard.SnapshotSteps` | vecdb/src/storage/snapshot.cpp:282-283 | files before truncation: if the process dies between the two, both files are complete and the log still holds everything |
| `Shards.Shard.LoadIndex` | vecdb/src/shard/shard_manager.cpp:138 | the loaded index equals the saved one in every field and list; files that are refused leave it empty |
| `Shards.Shard.ReplayLog` | vecdb/src/shard/shard_manager.cpp:139-142 | every logged vector is inserted behind the loaded ones, in order |
| `Shards.Shard.Restart` | vecdb/src/shard/shard_manager.cpp:133-143 | opening the log and loading one shard in a new process gives the saved vectors followed by the whole log, and nothing without both files; it fails exactly when the log cannot be opened or the files are refused |
| `Shards.Shard.FilesAt` | vecdb/src/wal/wal.cpp:261-290 | the files a crash leaves: the log opens as before it, or with the interrupted entry; the snapshot is the old one, or the one just written |
| `Shards.Shard.Crash` | vecdb/src/shard/shard_manager.cpp:133-143 | a crash when idle, with any bytes in the slot being written, after the log took an entry, or between the files and the truncation of a snapshot: the restarted shard is the one the protocol predicts |
| `Recovery.StepSound` | vecdb/src/shard/shard_manager.cpp:48-56 | every step keeps: the vectors are the snapshot followed by the log entries that are not in it |
| `Recovery.RecoveryExact` | vecdb/src/shard/shard_manager.cpp:133-143 | after any run, a restart recovers the vectors at their ids if and only if the last snapshot met an empty log or entries past the checkpoint, or has been loaded since (without a snapshot: if and only if there are no vectors) |
| `Recovery.SnapshotCleanExactly` | vecdb/src/wal/wal.cpp:365-367 | a snapshot leaves such a state if and only if the log was empty or reached past the checkpoint, since truncation returns early otherwise |
| `Recovery.SnapshotThenRestart` | vecdb/src/storage/snapshot.cpp:279-284 | snapshot, any inserts, restart: the recovered vectors equal the live ones if and only if at the snapshot the log was empty or reached past the checkpoint |
| `Recovery.SnapshotThenCrash` | vecdb/src/storage/snapshot.cpp:279-284 | the same for a crash inside an insert: the live vectors and the interrupted one come back, under exactly that condition |
| `Recovery.CounterIsGuard` | vecdb/src/wal/wal.cpp:365-367 | whether logged entries are already in the snapshot is decided by the guard of truncate at the last snapshot |
| `Recovery.UncleanRestartRepeats` | vecdb/src/shard/shard_manager.cpp:137-142 | otherwise exactly the entries the snapshot already held are inserted a second time |
| `Recovery.RestartLosesNothing` | vecdb/src/shard/shard_manager.cpp:133-143 | a restart loses no vector if and only if a snapshot exists or there is none to lose |
| `Recovery.RestartIdempotent` | vecdb/src/shard/shard_manager.cpp:133-143 | a second restart changes nothing |
| `Recovery.HistoryKept` | vecdb/src/shard/shard_manager.cpp:48-56 | over every run that snapshots before it restarts, crashes included, no logged insert is missing, and the vectors are exactly the logged inserts in order if and only if every snapshot that was loaded had met an empty log or entries past the checkpoint and no crash fell inside a snapshot with a log that was not empty |
| `Recovery.CrashInSnapshotRepeats` | vecdb/src/storage/snapshot.cpp:279-284 | a crash between the files and the truncation brings everything in the log back a second time |
| `Recovery.LostWithoutSnapshot` | vecdb/src/shard/shard_manager.cpp:137 | a concrete run: insert, then restart without a snapshot, leaves an empty index and the entry in the log |
| `Recovery.AfterInserts` | vecdb/src/wal/wal.cpp:284-287 | a new shard after n inserts has its checkpoint at the last multiple of 1000 |
| `Recovery.FirstSnapshotDoubles` | vecdb/src/storage/snapshot.cpp:279-284 | insert, snapshot, restart on a new shard: every vector comes back twice exactly when 1000 divides their number |
| `Merging.MergeResults` | vecdb/src/shard/shard_manager.cpp:102-119 | k closest hits of all partial results in distance order, k the smaller of their number and top_k |
| `Merging.PrefixSmallest` | vecdb/src/shard/shard_manager.cpp:115-117 | what the partial sort and the cut leave is a k-smallest part |
| `Merging.SmallestMeans` | vecdb/src/shard/shard_manager.cpp:102-119 | in plain terms: distance order, each hit as often as it came, nothing left over nearer |
| `Merging.MergeExact` | vecdb/src/shard/shard_manager.cpp:102-119 | if every partial result is its shard's exact top-k, the merged list is the exact top-k of all shards together |
| `Merging.NoRoom` | vecdb/src/shard/shard_manager.cpp:115-117 | a hit beats a shard's dropped hit unless the merge holds all k hits of that shard |
| `Merging.TopKIsSmallest` | vecdb/src/hnsw/index.cpp:290-315 | an exact search result is a k-smallest part of the brute-force list of its shard |
| `ShardManagers.ShardManager.SearchShard` | vecdb/src/shard/shard_manager.cpp:72-75 | an unhealthy shard answers with nothing; a healthy one searches, and throws exactly for a negative top_k when it is not empty |
| `ShardManagers.ShardManager.Gather` | vecdb/src/shard/shard_manager.cpp:84-94 | shards_ok + shards_err is the shard count, degraded if and only if some shard threw, and exactly the throwing shards become unhealthy |
| `ShardManagers.ShardManager.Search` | vecdb/src/shard/shard_manager.cpp:60-98 | those counts, the health flags, each shard's contribution and the merge; an ef of 0 or less means the configured one; no shard fails for top_k of 0 or more |
| `ShardManagers.NothingFound` | vecdb/src/shard/shard_manager.cpp:107 | with a negative top_k every populated shard throws, so the merge has nothing to sort |
| `ShardManagers.SmallShardsExact` | vecdb/src/shard/shard_manager.cpp:60-119 | with small healthy shards and a wide enough ef the answer is the brute-force top_k over the vectors of all shards |
| `Fnv.HashKey` | vecdb/src/shard/consistent_hash.cpp:16-24 | the loop computes the FNV-1a hash |
| `Fnv.AbsorbInjective` | vecdb/src/shard/consistent_hash.cpp:20-21 | one hash step is injective in the state and in the byte |
| `Fnv.OneByteApart` | vecdb/src/shard/consistent_hash.cpp:16-24 | keys that differ in exactly one byte have different hashes |
| `Fnv.ShardNeverCollides` | vecdb/src/shard/consistent_hash.cpp:28-33 | virtual nodes of one shard whose numbers differ only in the low byte never share a position: up to 256 of them are all apart |
| `Fnv.LowHashesApart` | vecdb/src/shard/consistent_hash.cpp:16-24 | after the four low bytes of a key, two small virtual node numbers are never within one byte of each other |
| `Fnv.SmallRingNeverCollides` | vecdb/src/shard/consistent_hash.cpp:28-33 | with up to 256 shards and 256 virtual nodes each, no two virtual nodes share a position |
| `Fnv.PublishedValues` | vecdb/src/shard/consistent_hash.cpp:13-24 | the published 64-bit FNV-1a values of no bytes, of a and of foobar |
| `Fnv.KeyLayout` | vecdb/src/shard/consistent_hash.cpp:28-32 | a virtual node is hashed from its number and its shard, four bytes each, the number first |
| `Rings.Ring.Create` | vecdb/src/shard/consistent_hash.cpp:37-58 | refuses 0 shards or 0 virtual nodes; otherwise the ring holds exactly all virtual nodes, sorted, equal positions in any order |
| `Rings.NodesExactly` | vecdb/src/shard/consistent_hash.cpp:46-53 | the ring has one node for each number below virtual_nodes of each shard below shard_count, and no other |
| `Rings.Ring.Search` | vecdb/src/shard/consistent_hash.cpp:66-67 | the first node at or after the hash |
| `Rings.Ring.GetShard` | vecdb/src/shard/consistent_hash.cpp:62-73 | the shard of an id is the owner of its hash, and exists |
| `Rings.Ring.GetShardOfKey` | vecdb/src/shard/consistent_hash.cpp:77-85 | the shard of a string key likewise |
| `Rings.Ring.AffectedShardsOnAdd` | vecdb/src/shard/consistent_hash.cpp:91-112 | the owners of the positions of one more shard, each exactly once |
| `Rings.OwnerIsNext` | vecdb/src/shard/consistent_hash.cpp:66-72 | the owner is a node at the least clockwise distance on the 64-bit circle, wrap-around included |
| `Rings.OneOwner` | vecdb/src/shard/consistent_hash.cpp:62-73 | when no two shards share a position, any such node names the same shard |
| `Rings.PointKeepsOrMoves` | vecdb/src/shard/consistent_hash.cpp:37-58 | when no two old shards share a position, adding a shard moves a point to the new shard or not at all |
| `Rings.MovementExactly` | vecdb/src/shard/consistent_hash.cpp:37-58 | that holds for every point and every order of equal positions if and only if no two old shards share a position |
| `Rings.LostAtNewNode` | vecdb/src/shard/consistent_hash.cpp:96-104 | a shard that loses a point loses the position of a new virtual node |
| `Rings.FreeSpotTaken` | vecdb/src/shard/consistent_hash.cpp:56-72 | a new virtual node at a position of its own takes that position, however ties are sorted |
| `Rings.LosersExactly` | vecdb/src/shard/consistent_hash.cpp:91-112 | a shard loses a point in every order of ties if and only if it owns a new position that no old node shares |
| `Rings.AffectedExactly` | vecdb/src/shard/consistent_hash.cpp:91-112 | the owners of the new positions are exactly the losers in every order of ties if and only if each of them owns one that no old node shares |
| `Rings.AddingAShard` | vecdb/src/shard/consistent_hash.cpp:37-112 | from S to S + 1 shards of the source's ring: every point keeps its owner or moves to the new shard and affected_shards_on_add lists exactly the shards that lose a point, for every order of ties, if and only if no two old shards share a position and each listed shard owns a new position that is free |
| `Rings.AddingAShardToSmallRing` | vecdb/src/shard/consistent_hash.cpp:37-112 | with up to 255 shards and 256 virtual nodes each, the default of 150 included, that is always so |
| `Kernels.HorizontalSum` | vecdb/src/simd/distance.cpp:82-87 | the halving and the two horizontal adds sum all eight lanes |
| `Kernels.Block` | vecdb/src/simd/distance.cpp:75-80 | one block of lanes extends the running sum by the whole block |
| `Kernels.L2Scalar` | vecdb/src/simd/distance.cpp:38-47 | the loop is the sum of the squared differences |
| `Kernels.L2Avx2` | vecdb/src/simd/distance.cpp:70-91 | eight lanes, reduction and scalar tail give the same sum, for every dimension |
| `Kernels.L2Avx512` | vecdb/src/simd/distance.cpp:126-143 | sixteen lanes likewise |
| `Kernels.L2Separates` | vecdb/src/simd/distance.cpp:38-47 | the sum is never negative, symmetric, and zero exactly between equal vectors |
| `CosineLaws.L2Components` | vecdb/src/simd/distance.cpp:38-47 | it adds up over the components, and on one component it is the square of the difference |
| `Kernels.CosineScalar` | vecdb/src/simd/distance.cpp:50-62 | the three sums and the guarded division |
| `Kernels.CosineBlocks` | vecdb/src/simd/distance.cpp:97-107 | the three lane accumulators hold the three sums of the blocks |
| `Kernels.CosineAvx2` | vecdb/src/simd/distance.cpp:94-121 | eight lanes give the scalar result, for every dimension |
| `Kernels.CosineAvx512` | vecdb/src/simd/distance.cpp:146-170 | sixteen lanes likewise |
| `CosineLaws.LawOfCosines` | vecdb/src/simd/distance.cpp:50-62 | the law of cosines: the squared distance is the sum of the squared lengths less twice (1 - distance) times the lengths, unless these are negligible |
| `CosineLaws.CauchySchwarz` | vecdb/src/simd/distance.cpp:54-58 | the square of the dot product is at most the product of the squared lengths |
| `CosineLaws.CosineBounds` | vecdb/src/simd/distance.cpp:59-61 | the distance lies between 0 and 2 |
| `CosineLaws.CosineSelf` | vecdb/src/simd/distance.cpp:59-61 | equal vectors are at distance 0, negligible ones at 1 |
| `CosineLaws.CosineOrthogonal` | vecdb/src/simd/distance.cpp:59-61 | orthogonal vectors, and negligible ones, are at distance 1 |
| `CosineLaws.CosineSymmetric` | vecdb/src/simd/distance.cpp:50-62 | the order of the vectors does not matter |
| `CosineLaws.CosineScaled` | vecdb/src/simd/distance.cpp:50-62 | scaling a vector by a positive factor does not matter, as long as the lengths are not negligible |
| `RateLimiters.RateLimiter.Check` | vecdb/src/server/rate_limiter.cpp:10-40 | the verdict and the new bucket of the client; other buckets, and everything when disabled, are untouched |
| `RateLimiters.OwnRequestsOnly` | vecdb/src/server/rate_limiter.cpp:16-28 | a client's bucket depends on its own requests only |
| `RateLimiters.TokensInRange` | vecdb/src/server/rate_limiter.cpp:27-36 | tokens stay between 0 and the capacity |
| `RateLimiters.Spent` | vecdb/src/server/rate_limiter.cpp:27-36 | admitted requests plus the tokens left never exceed a full bucket plus the refill, despite the clamp to 0 |
| `RateLimiters.WindowBound` | vecdb/src/server/rate_limiter.cpp:10-40 | in every window of length t a client gets at most capacity + refill * t requests admitted |
| `RateLimiters.BoundedExactly` | vecdb/src/server/rate_limiter.cpp:17-20 | that bound holds for all runs if and only if the capacity is at least 1 |
| `RateLimiters.SpacedAdmitted` | vecdb/src/server/rate_limiter.cpp:27-33 | a request at least 1/refill after the client's previous one is admitted |
| `RateLimiters.AfterRejection` | vecdb/src/server/rate_limiter.cpp:33-36 | after a rejection the next request is admitted if and only if it comes at least 1/refill later |
| `RateLimiters.Starved` | vecdb/src/server/rate_limiter.cpp:33-36 | so a client that keeps asking faster is refused every time |
| `RateLimiters.Burst` | vecdb/src/server/rate_limiter.cpp:16-30 | of a burst of a new client exactly the first capacity requests, rounded down, are admitted |
| `RateLimiters.AdmittedExactly` | vecdb/src/server/rate_limiter.cpp:16-36 | until its first refusal, a request is admitted if and only if, counted from every earlier request, a full bucket and the refill since cover the requests between |
| `RateLimiters.AdmittedAfterRefusal` | vecdb/src/server/rate_limiter.cpp:26-36 | after a refusal the same count starts from an empty bucket |
| `RateLimiters.AdmittedWhileDraining` | vecdb/src/server/rate_limiter.cpp:26-33 | while nothing is refused and the bucket is never refilled to the capacity, request k is admitted if and only if capacity + refill * (t_k - t_0) - k is at least 1 |

## Left out

- Float rounding, NaN and the order of float additions: distances and tokens are reals, and the metric of the index is any function. The index does not use the non-negativity of a distance.
- HnswIndexes.HnswIndex.Insert: ids are unbounded, so the wrap at 2^32 vectors is not modelled; saving and recovering require fewer.
- HnswIndexes.HnswIndex.Search: `int` arithmetic does not overflow in the model; the conversion of a negative `ef` to `size_t` is modelled.
- HnswIndexes.HnswIndex.SampleLayer: any layer of the configuration; the logarithm and the random generator are not modelled.
- Heaps are multisets whose top is any extremal element, and `std::sort` any sorted order, so every tie-break is covered; the array layout of the heaps is not modelled. The `visited` array is a sequence that the loop updates.
- Vectors are a sequence with one entry a node, not one flat array; adjacency lists are nested sequences in a field of the store. Arena, alignment and reserve calls are not modelled.
- Locks, atomics and threads: calls are sequential. The tasks of a search only read, so they are modelled one after another.
- System calls: a file is its bytes, growth fills with zeros, and contents survive the process; failures of open, mmap, ftruncate and msync, and loss of power, are not modelled.
- Wals.Wal.Append: requires that one grow makes room; `WalSpec.OneGrowSuffices` and `WalSpec.GrowthBound` say exactly when it does. The check that an offset fits `off_t` is a precondition.
- WalSpec.ReopenAfterCrash: one torn slot behind the last entry. Valid slots farther behind, left by several crashes, are not covered.
- WalSpec.ScanStopsAtDamage: damage that spans two fields of a slot is not covered; within one field `FileLayouts.EntryDamage` is exact, and damage to the id goes unnoticed, because the source's checksum covers the payload only.
- Crash inside `save` or inside `truncate`: each is one step; a crash between the two is covered. The old segment is removed before the new one is written.
- Snapshots.Load: requires the segment file to be as long as its header says, since `open` does not check it and `load` would read beyond the mapping, and that no node has more lists than the index has layers, which the source asserts.
- GraphReaders.Reader.ParseInt: `int64_t` overflow of a long digit run is not modelled; the casts to `int` and `uint32_t` are.
- The clock (segment timestamps, rate limiter) and the random layers are parameters or arbitrary choices.
- Shards.Shard.Snapshot: the loops over all shards in `snapshot_all` and `load_all`, and the one line of `insert` that picks the shard on the ring, are not modelled; each shard's step is. Shards share no state.
- Shards.Shard.Restart: files that load must hold a saved state of this shard, and the log file, if it opens, must be one this code wrote, with at most one torn slot. The shard's `M_max0` is not negative, since an insert that throws in the replay aborts `load_all`.
- `ShardManager::total_vectors`, `shard_size`, `load_distribution`, `node_count`, `file_size_bytes`: one-line accessors.
- CPU feature detection and dispatch of the kernels; `_mm512_reduce_add_ps` is the sum of the lanes. Load balance and recall percentages are statistical.
- gRPC and HTTP servers, authentication, metrics, generated protocol code, the demo and the user interface.

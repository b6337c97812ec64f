# Tracklet labelling and raw-event bookkeeping, in Dafny

This project models two stages of module0_flow, the h5flow-based
processing chain for LArPix liquid-argon TPC data, and proves properties of
each.

* **The tracklet reconstruction stage** (`TrackletReconstruction`):
  * `find_tracks` is a per-event loop of rounds. Each round runs DBSCAN on
    the hits that are still eligible. It then fits a RANSAC line to each
    large enough cluster. A fit that keeps at least two inliers becomes the
    event's next local track id, and those hits become ineligible.
  * `calc_tracks` turns the labels into an event x slot table of track
    records.
  * `run` numbers the valid slots with durable ids. It then builds the
    track -> hit and event -> track reference lists.
* **The raw event generator** (`RawEventGenerator`):
  * the round-robin partition of the packet dataset into buffers across
    MPI ranks;
  * `next()`, which filters one buffer by packet type, pairs every packet
    with its latest unix-timestamp packet, wraps timestamps to 31 bits,
    applies the sync-noise window and the nhit cut, and lays out the raw
    events, their packets and the event -> packet references;
  * the generator's state: `iteration`, and the `last_unix_ts` packet
    carried from buffer to buffer and from rank to rank.

Modules:

* `Seqs` (`seqs.dfy`): numpy idioms as sequence functions. Covers boolean
  selection `a[m]` and scatter `a[m] = v`, `count_nonzero`, order-preserving
  filtering, prefix sums, concatenation and the `u4` cast.
* `Geometry` (`geometry.dfy`): real-valued point arithmetic, the
  bounding-box clip of `_projected_limits`, the PCA centroid and `xyp`.
* `TrackFinding` (`track_finding.dfy`): `find_tracks`.
  * DBSCAN and RANSAC are function parameters. The only facts known about
    them are their shapes: one label of at least -1 per point, and one flag
    per point.
  * The round loop is a pure specification, `Iterate`. The methods update
    `track_id` and `iter_mask` arrays in place and are proved against it.
* `TrackGeometry` (`track_geometry.dfy`): `calc_tracks`, with the PCA axis as
  a function parameter. The double loop fills an `array2` of slots in place.
* `TrackEmitter` (`track_emitter.dfy`): `run`. `np.place` writes the durable
  ids into an `array2` in place. The two reference lists are derived from
  that array.
* `PacketStream` (`packet_stream.dfy`): the buffer partition and the
  transforms of `next()`, as functions on sequences of packets.
  `build_events` is a function parameter.
* `RawEvents` (`raw_event_generator.dfy`): the `RawEventGenerator` class.
  * Its `Next` method advances `iteration`, exchanges and updates
    `last_unix_ts`, and wraps timestamps in place in an array.
  * `Next` is proved against the pure `Process`.
  * `data_manager.reserve_data` is modelled by the first reserved rows
    (`rawStart`, `packetStart`), which are parameters.
  * The packet received by `pass_last_unix_ts` is also a parameter.

## Model

| member | source | states |
|---|---|---|
| TrackFinding.DoDbscan | h5flow_modules/combined/tracklet_reco.py:188-199 | one label per hit, each at least -1; a hit that is not eligible always gets -1, so it can never join a cluster (zero eligible hits: see Left out) |
| TrackFinding.FitsFromEligible | h5flow_modules/combined/tracklet_reco.py:124-147 | from a state with an eligible hit, no later round hands DBSCAN zero points, since the loop only goes on after a round that leaves an eligible hit |
| TrackFinding.EmptyFitOnlyAtStart | h5flow_modules/combined/tracklet_reco.py:118-147 | some round of an event calls `fit` on zero points (the ValueError of sklearn) iff the event has no valid hit, and then it is the first round |
| TrackFinding.LabelBound | h5flow_modules/combined/tracklet_reco.py:128 | a tight exclusive bound of the labels: visiting 0 .. bound-1 covers every id `np.unique` yields |
| TrackFinding.AbsentClusterIsNoOp | h5flow_modules/combined/tracklet_reco.py:128-133 | a cluster id no hit carries changes nothing, so visiting every id below the bound is the same as iterating `np.unique` |
| TrackFinding.Inliers | h5flow_modules/combined/tracklet_reco.py:136-137 | `mask[mask] = inliers` keeps only members of the cluster |
| TrackFinding.InitialInv | h5flow_modules/combined/tracklet_reco.py:118-123 | the starting state (valid hits eligible, all labels -1, counter -1) satisfies the invariant |
| TrackFinding.InvDeterminesElig | h5flow_modules/combined/tracklet_reco.py:118-144 | under the invariant, `iter_mask` is a function of the labels |
| TrackFinding.ClusterStepFacts | h5flow_modules/combined/tracklet_reco.py:129-144 | one cluster visit keeps the invariant; it either accepts, adding one id and removing at least two hits from the eligible set, or changes nothing |
| TrackFinding.StepTouchesOnly | h5flow_modules/combined/tracklet_reco.py:131-144 | a visit of cluster c changes neither the label nor the eligibility of a hit outside c |
| TrackFinding.StepJustified | h5flow_modules/combined/tracklet_reco.py:131-143 | a hit relabelled by a visit is a RANSAC inlier of a cluster with more than `ransac_min_samples` members and at least two inliers, and gets the next id |
| TrackFinding.KeepsInv | h5flow_modules/combined/tracklet_reco.py:128-144 | visiting cluster j keeps the invariant and the accounting: ids handed out, at least two hits removed per id |
| TrackFinding.KeepsTouch | h5flow_modules/combined/tracklet_reco.py:128-144 | visiting cluster j leaves later clusters and noise untouched, and every changed label is justified |
| TrackFinding.ClustersFacts | h5flow_modules/combined/tracklet_reco.py:128-144 | the whole inner loop of a round keeps the loop invariant |
| TrackFinding.RoundFacts | h5flow_modules/combined/tracklet_reco.py:124-147 | a round keeps the invariant and never overwrites a label; new ids are handed out in order, only to justified hits; each accepted track removes at least two hits from the eligible count, and a round that accepts nothing changes nothing |
| TrackFinding.QuietRoundIsNoOp | h5flow_modules/combined/tracklet_reco.py:146-147 | a round whose clustering is all noise, or that has no eligible hit, changes nothing |
| TrackFinding.LoopFacts | h5flow_modules/combined/tracklet_reco.py:124-147 | a round-preserved property holds at the loop's end; when the exit test fires, the loop ends at a fixed point |
| TrackFinding.LoopStuck | h5flow_modules/combined/tracklet_reco.py:124-147 | a state left unchanged by a round that does not pass the exit test is never left, and every budget runs out |
| TrackFinding.RoundsKeepLabels | h5flow_modules/combined/tracklet_reco.py:124-147 | each round keeps the invariant and all labels set before it |
| TrackFinding.StopsAreFixed | h5flow_modules/combined/tracklet_reco.py:146-147 | when the exit test fires, a further round would change nothing |
| TrackFinding.IterateFacts | h5flow_modules/combined/tracklet_reco.py:124-147 | the round loop keeps the invariant and never overwrites a label; if it stops by its own test, the state is a fixed point of a round |
| TrackFinding.StuckRoundRepeats | h5flow_modules/combined/tracklet_reco.py:124-147 | a round that finds a cluster but accepts none leaves the state unchanged and fails the exit test, so the unbounded loop never exits |
| TrackFinding.TwoHitClusterNeverSettles | h5flow_modules/combined/tracklet_reco.py:124-147 | a concrete event (two hits in one cluster, which needs `dbscan_min_samples` of 2 or less; default `ransac_min_samples` = 2) on which every round budget runs out |
| TrackFinding.IterateContinues | h5flow_modules/combined/tracklet_reco.py:146-147 | a round that fails the exit test is followed by another round |
| TrackFinding.IterateStops | h5flow_modules/combined/tracklet_reco.py:146-147 | a round that passes the exit test ends the loop, with exactly that round's state |
| TrackFinding.EventOutcomeFacts | h5flow_modules/combined/tracklet_reco.py:116-149 | per event: eligible = valid and unlabelled; masked hits keep -1; every label is -1 or below the number of accepted tracks; each accepted id labels at least two hits |
| TrackFinding.ApplyTrack | h5flow_modules/combined/tracklet_reco.py:143-144 | in place: `track_id[i, mask] = id` and `iter_mask[i, mask] = False`, nothing else changed |
| TrackFinding.AcceptCluster | h5flow_modules/combined/tracklet_reco.py:129-144 | the arrays and the counter after one cluster visit are those of `ClusterStep` |
| TrackFinding.RunClusters | h5flow_modules/combined/tracklet_reco.py:128-145 | the arrays and the counter after the inner loop are those of `Clusters` |
| TrackFinding.RunRound | h5flow_modules/combined/tracklet_reco.py:124-147 | after one round the arrays are those of `Round`, and `quiet` is exactly the loop's exit test |
| TrackFinding.FindEventTracks | h5flow_modules/combined/tracklet_reco.py:121-147 | the labels, track count and exit status of one event are those of the round loop `Iterate` |
| TrackFinding.FindTracks | h5flow_modules/combined/tracklet_reco.py:106-149 | over a batch, each event's labels and count are those of its own round loop |
| Geometry.BoxContainsPoints | h5flow_modules/combined/tracklet_reco.py:230 | every member point lies in the bounding box given by `amin`/`amax` |
| Geometry.ClipPoint | h5flow_modules/combined/tracklet_reco.py:231-232 | `np.clip` lands in the box, and is the identity on points already inside |
| Geometry.Projections | h5flow_modules/combined/tracklet_reco.py:229 | `s` holds one projection per point, the dot product of its offset with the axis |
| Geometry.ProjectedLimits | h5flow_modules/combined/tracklet_reco.py:228-233 | both `r_min` and `r_max` lie in the members' bounding box whatever centroid and axis the fit returns |
| Geometry.ProjectedLimitsUnclipped | h5flow_modules/combined/tracklet_reco.py:228-233 | when the extreme projections are inside the box, the end points are exactly the line points at min(s) and max(s) |
| Geometry.SumOfBounds | h5flow_modules/combined/tracklet_reco.py:223 | a sum of n entries lies between n times their lower and upper bound |
| Geometry.MeanOf | h5flow_modules/combined/tracklet_reco.py:223 | the mean lies between the minimum and the maximum |
| Geometry.Centroid | h5flow_modules/combined/tracklet_reco.py:223 | the centroid lies in the members' bounding box |
| Geometry.Xyp | h5flow_modules/combined/tracklet_reco.py:246-248 | for an axis parallel to z = 0, the result is the centroid's (x, y) |
| Geometry.XypIsPlaneCrossing | h5flow_modules/combined/tracklet_reco.py:246-250 | for any parameter t that reaches z = 0, `xyp` is the (x, y) of that line point |
| Geometry.XypOnPlane | h5flow_modules/combined/tracklet_reco.py:249-250 | the line point `xyp` uses lies on z = 0 |
| TrackGeometry.RowMax | h5flow_modules/combined/tracklet_reco.py:154 | the largest unmasked label of an event (none iff all hits are masked), both bound and attained |
| TrackGeometry.TableMax | h5flow_modules/combined/tracklet_reco.py:154 | `track_ids.max()` over unmasked hits: bound and attained, none iff all are masked |
| TrackGeometry.SlotCount | h5flow_modules/combined/tracklet_reco.py:154-155 | `n_tracks` is max label + 1 when some hit is unmasked (every label below it, the top one attained), and 1 otherwise |
| TrackGeometry.MemberTimes | h5flow_modules/combined/tracklet_reco.py:177-178 | `ts_start`/`ts_end` bound every member's time and are attained by members |
| TrackGeometry.MakeTrackFacts | h5flow_modules/combined/tracklet_reco.py:165-182 | the record's `nhit`, `q`, `ts_start`, `ts_end`; `start` and `end` share one spatial point (`r_min`) inside the bounding box; their time entries are relative to t0 |
| TrackGeometry.ValidSlotFacts | h5flow_modules/combined/tracklet_reco.py:160-184 | a slot is valid iff at least two unmasked hits carry its label; a valid slot records their count, charge sum, time range and the shared `r_min` end point |
| TrackGeometry.SlotValidIffAccepted | h5flow_modules/combined/tracklet_reco.py:142-161 | on the cluster finder's labels, slot j is valid iff j is one of the accepted local ids |
| TrackGeometry.TrackedSlots | h5flow_modules/combined/tracklet_reco.py:121-161 | slot j of an event is valid exactly when j is below the number of tracks its round loop accepted |
| TrackGeometry.AcceptedFitSlots | h5flow_modules/combined/tracklet_reco.py:154-156 | every event's accepted tracks fit in the `n_tracks` columns |
| TrackGeometry.FillRow | h5flow_modules/combined/tracklet_reco.py:159-184 | in place: every slot of row i becomes that event's slot, and other rows are unchanged |
| TrackGeometry.CalcTracks | h5flow_modules/combined/tracklet_reco.py:151-186 | a fresh table of \|t0\| x `n_tracks` slots; slot (i, j) is the track record of event i's hits labelled j, or masked |
| TrackEmitter.RankBounds | h5flow_modules/combined/tracklet_reco.py:75-79 | a valid slot's row-major rank lies in [0, n_tracks) |
| TrackEmitter.RankIncreasing | h5flow_modules/combined/tracklet_reco.py:79 | ranks strictly increase along row-major order |
| TrackEmitter.RankOnto | h5flow_modules/combined/tracklet_reco.py:75-79 | every rank below n_tracks belongs to some valid slot, so the ranks are exactly 0 .. n_tracks-1 |
| TrackEmitter.DurableIdsDistinct | h5flow_modules/combined/tracklet_reco.py:79 | with at most 2^32 tracks, no two valid slots share a durable id |
| TrackEmitter.PlaceRow | h5flow_modules/combined/tracklet_reco.py:79 | in place: the valid slots of row i get `start + rank` as u4; all else is unchanged |
| TrackEmitter.AssignIds | h5flow_modules/combined/tracklet_reco.py:79 | in place: every valid slot gets the durable id of its row-major rank; other ids are unchanged |
| TrackEmitter.WrittenTracksFacts | h5flow_modules/combined/tracklet_reco.py:75-80 | `tracks[tracks_mask]` has as many records as rows reserved, and all of them are valid slots |
| TrackEmitter.EventHitRefsExact | h5flow_modules/combined/tracklet_reco.py:83-85 | exactly one (durable id, hit index) pair per labelled hit with a valid slot, and no other pair |
| TrackEmitter.PaddingHitReferenced | h5flow_modules/combined/tracklet_reco.py:83-85 | as numpy's masked arrays evaluate line 84, a padding hit with label data -1 is kept iff its event's last slot is valid, while the corrected mask drops it |
| TrackEmitter.PaddingHitExample | h5flow_modules/combined/tracklet_reco.py:83-85 | a concrete event (two hits on track 0 and one padding hit) on which the mask as written keeps all three hits and the corrected one two |
| TrackEmitter.PaddingHitsUnreferenced | h5flow_modules/combined/tracklet_reco.py:83-85 | with the labels `find_tracks` leaves, every track -> hit pair belongs to an unmasked, labelled hit |
| TrackEmitter.TrackHitRefsLayout | h5flow_modules/combined/tracklet_reco.py:83-86 | event i's pairs form one contiguous block of the batch list, placed after those of earlier events |
| TrackEmitter.TrackHitRefsSound | h5flow_modules/combined/tracklet_reco.py:83-86 | every pair of the batch list belongs to a labelled hit with a valid slot |
| TrackEmitter.EventTrackRow | h5flow_modules/combined/tracklet_reco.py:89-90 | one event -> track pair per valid slot of the event, in slot order: valid slot j is pair number Count(valid slots before j), carrying the event index and slot j's id, and there is no other pair |
| TrackEmitter.EventTrackRefsOrder | h5flow_modules/combined/tracklet_reco.py:88-90 | the valid slot (i, j) is pair number `Rank(i, j)` of the batch list, its row-major position among the valid slots, and carries source row `sliceStart + i` and that slot's id |
| TrackEmitter.EventTrackRefsExact | h5flow_modules/combined/tracklet_reco.py:88-90 | a pair is in the event -> track list iff it is (`sliceStart + i`, id of slot j) for a valid slot (i, j) |
| TrackEmitter.EventTrackRefsCount | h5flow_modules/combined/tracklet_reco.py:89-91 | the event -> track list has one pair per valid slot, n_tracks in all |
| TrackEmitter.HitRefHasEventRef | h5flow_modules/combined/tracklet_reco.py:83-91 | every track a hit refers to is listed as a track of that hit's event |
| TrackEmitter.TakeAlongAxis | h5flow_modules/combined/tracklet_reco.py:83 | numpy's look-up as written: -1 reads the last entry, and an index out of range raises |
| TrackEmitter.WrappedLookupAgrees | h5flow_modules/combined/tracklet_reco.py:83-84 | with at least one slot, the unguarded look-up plus the `!= -1` filter keeps the same hits and ids as the guarded one |
| TrackEmitter.UnlabelledBatchRaises | h5flow_modules/combined/tracklet_reco.py:154-155 | as written: a batch with unmasked hits but no labels gets zero slot columns, and the look-up of label -1 raises |
| TrackEmitter.UnlabelledBatchExample | h5flow_modules/combined/tracklet_reco.py:83 | a concrete batch (one event, two unlabelled valid hits) that reaches that IndexError |
| TrackEmitter.NoSlotsNoHitRefs | h5flow_modules/combined/tracklet_reco.py:83-85 | with the guard, a table with no slots gives no track -> hit pairs |
| TrackEmitter.TrackedLabels | h5flow_modules/combined/tracklet_reco.py:73-74 | the round loop's labels are valid input for `calc_tracks`: masked hits have -1, and every label and every event's track count lies below n_tracks |
| TrackEmitter.LabelledHitsReferenced | h5flow_modules/combined/tracklet_reco.py:83-85 | on the round loop's labels, every labelled hit gets a track -> hit pair |
| TrackEmitter.LabelBatch | h5flow_modules/combined/tracklet_reco.py:73 | `find_tracks` over the batch, with the facts `calc_tracks` and `run` rely on |
| TrackEmitter.Emit | h5flow_modules/combined/tracklet_reco.py:78-91 | in place: the durable ids are written, the ids of masked slots are left as they were, and both reference lists are derived from the ids |
| TrackEmitter.EmittedEventRefs | h5flow_modules/combined/tracklet_reco.py:75-90 | after `np.place`, the event -> track list has n_tracks pairs, and the pair at the row-major rank of valid slot (i, j) is (`sliceStart + i`, that slot's durable id) |
| TrackEmitter.Run | h5flow_modules/combined/tracklet_reco.py:67-91 | `run`: labels from the round loop, the slot table, durable ids and both reference lists |
| PacketStream.EndPosition | h5flow_modules/charge/raw_event_generator.py:85-86 | `end_position` is min(end, packet count), and the packet count when absent |
| PacketStream.Range | h5flow_modules/charge/raw_event_generator.py:87 | every element of `range(a, b, step)` lies in [a, b) |
| PacketStream.RangeTerms | h5flow_modules/charge/raw_event_generator.py:87 | term k of the range is a + k * step |
| PacketStream.RangeComplete | h5flow_modules/charge/raw_event_generator.py:87 | every a + k * step below b is a term of the range |
| PacketStream.SliceLayout | h5flow_modules/charge/raw_event_generator.py:83-87 | rank r's k-th buffer starts at start + (r + k * size) * buffer_size, below end, and spans one buffer |
| PacketStream.SlicesDisjoint | h5flow_modules/charge/raw_event_generator.py:87 | no buffer start is shared by two ranks or by two buffers of one rank |
| PacketStream.SlicesCover | h5flow_modules/charge/raw_event_generator.py:87 | every buffer offset in [start, end) is read, by rank j % size as its buffer j / size |
| PacketStream.PacketFilterExact | h5flow_modules/charge/raw_event_generator.py:138-143 | `block[mask]` is the order-preserving filter: membership iff the packet passes, and it distributes over concatenation |
| PacketStream.LastTimestamp | h5flow_modules/charge/raw_event_generator.py:149 | the position of the last timestamp packet, with none after it; none iff there is no timestamp packet |
| PacketStream.GroupsPartition | h5flow_modules/charge/raw_event_generator.py:149 | `np.split` at the timestamp packets: the pieces concatenate back; each piece after the first starts with the only timestamp packet it holds; the first piece holds none |
| PacketStream.GroupingPairsLatest | h5flow_modules/charge/raw_event_generator.py:145-153 | with a timestamp packet in front, `unix_ts` pairs each remaining packet, in order, with its latest preceding timestamp packet, and has their number |
| PacketStream.PairedTimestamps | h5flow_modules/charge/raw_event_generator.py:150 | every entry of `unix_ts` is a timestamp packet |
| PacketStream.GroupingMisaligned | h5flow_modules/charge/raw_event_generator.py:145-153 | without a timestamp packet in front, `unix_ts` is one entry shorter than the packets it pairs |
| PacketStream.NextLastUnixTs | h5flow_modules/charge/raw_event_generator.py:155 | the new `last_unix_ts` is the old one or an entry of `unix_ts` |
| PacketStream.LastUnixTsLatest | h5flow_modules/charge/raw_event_generator.py:155 | the new `last_unix_ts` is the timestamp packet paired with the buffer's last non-timestamp packet, or the old one when there is none |
| PacketStream.Wrap | h5flow_modules/charge/raw_event_generator.py:154 | the timestamp becomes its residue in [0, 2^31); the type and parity are kept; timestamps already in range are unchanged |
| PacketStream.WrapAllIdempotent | h5flow_modules/charge/raw_event_generator.py:154 | wrapping twice equals wrapping once, and wrapping keeps the packet types |
| PacketStream.SyncCut | h5flow_modules/charge/raw_event_generator.py:157-161 | the cut raises iff `unix_ts` is not as long as the packets |
| PacketStream.SyncCutLockstep | h5flow_modules/charge/raw_event_generator.py:157-161 | the cut keeps exactly the in-window packets in order, and each stays paired with its unix-timestamp packet |
| PacketStream.CutBounds | h5flow_modules/charge/raw_event_generator.py:159 | indexing `sync_noise_cut` succeeds iff it is a pair |
| PacketStream.SyncCutAsWritten | h5flow_modules/charge/raw_event_generator.py:159 | the cut as written returns a result only for a pair parameter |
| PacketStream.DefaultSyncCutRaises | h5flow_modules/charge/raw_event_generator.py:46-47 | with the defaults, the cut is enabled and raises on every buffer |
| PacketStream.NhitCutExact | h5flow_modules/charge/raw_event_generator.py:167-172 | the events kept are exactly those with at least `nhit_cut` packets, in order and still paired; the cut distributes over concatenation and is idempotent |
| PacketStream.SurvivorsLarge | h5flow_modules/charge/raw_event_generator.py:164-172 | every event written has at least `nhit_cut` packets |
| PacketStream.RawEvents | h5flow_modules/charge/raw_event_generator.py:175-180 | one raw event per surviving event; raises iff some event has no unix-timestamp packet |
| PacketStream.RawEventIds | h5flow_modules/charge/raw_event_generator.py:176-180 | ids are the reserved rows in order (as u4), distinct below 2^32 events; `unix_ts` is the event's first unix-timestamp packet's timestamp |
| PacketStream.PacketRefs | h5flow_modules/charge/raw_event_generator.py:194 | one ref block per event |
| PacketStream.RefBlockAt | h5flow_modules/charge/raw_event_generator.py:192-194 | block i is `ids[sum(len[:i]):sum(len[:i+1])]`, as long as event i |
| PacketStream.RefsCover | h5flow_modules/charge/raw_event_generator.py:184-194 | the ref blocks concatenate to exactly the reserved packet ids, in order: they partition the range |
| PacketStream.RefLength | h5flow_modules/charge/raw_event_generator.py:192-194 | block i has as many refs as event i has packets |
| PacketStream.RefPoints | h5flow_modules/charge/raw_event_generator.py:184-194 | ref k of block i points at the written row holding packet k of event i |
| PacketStream.EventRefs | h5flow_modules/charge/raw_event_generator.py:184-195 | the refs cover the packet rows in order, with one block per event of its length, pointing at its own packets |
| PacketStream.BatchLayout | h5flow_modules/charge/raw_event_generator.py:172-195 | one raw event and one ref block per event; the packets are the events' packets concatenated |
| RawEvents.FirstTimestamp | h5flow_modules/charge/raw_event_generator.py:91 | the position of the first timestamp packet, with none before it; none iff there is none |
| RawEvents.FirstUnixTs | h5flow_modules/charge/raw_event_generator.py:91 | line 91 as intended, an elementwise `packet_type == 4` over the column: the dataset's first timestamp packet, or packet 0 when there is none (as written, see Findings) |
| RawEvents.FirstBufferMisaligned | h5flow_modules/charge/raw_event_generator.py:91-161 | as written, packet 0 is carried in; when it is not a timestamp packet, the first buffer's `unix_ts` is one entry short and the enabled cut raises |
| RawEvents.FirstUnixTsExample | h5flow_modules/charge/raw_event_generator.py:91 | a concrete dataset (a data packet, then a timestamp packet) on which line 91 as written carries in the data packet and the intended reading the timestamp packet |
| RawEvents.FirstBufferAligned | h5flow_modules/charge/raw_event_generator.py:91-161 | with the first timestamp packet carried in, a dataset that has one starts its first buffer aligned, and the cut never raises |
| RawEvents.Block | h5flow_modules/charge/raw_event_generator.py:136 | EMPTY reads nothing; a slice inside the dataset reads exactly its rows; one that runs past the end reads from its start to the end; one starting at or past the end reads nothing |
| RawEvents.RingExchange | h5flow_modules/charge/raw_event_generator.py:199-212 | each rank receives from the rank that sends to it; the destination is (rank + 1) % size |
| RawEvents.MaxTimestampAt | h5flow_modules/charge/raw_event_generator.py:208 | the first timestamp packet with the largest timestamp; none iff there is no timestamp packet |
| RawEvents.MaxUnixTs | h5flow_modules/charge/raw_event_generator.py:207-208 | when the buffer holds a timestamp packet, `max_unix_ts` is one of them with the largest timestamp; otherwise it is the old `last_unix_ts` |
| RawEvents.ExchangeFacts | h5flow_modules/charge/raw_event_generator.py:199-212 | one rank exchanges nothing; with more ranks, each takes on what it receives and sends one packet to (rank + 1) % size, a timestamp packet when its own was |
| RawEvents.PreparedAligned | h5flow_modules/charge/raw_event_generator.py:145-161 | with a timestamp packet carried in, the packets and `unix_ts` match one to one; every timestamp is in [0, 2^31); no timestamp packet is handed on; the cut never raises |
| RawEvents.MisalignedRaises | h5flow_modules/charge/raw_event_generator.py:145-161 | with a non-timestamp packet carried in, `unix_ts` is one short and the enabled cut raises |
| RawEvents.CarriedTimestamp | h5flow_modules/charge/raw_event_generator.py:155 | `last_unix_ts` stays a timestamp packet |
| RawEvents.ProcessWrites | h5flow_modules/charge/raw_event_generator.py:157-195 | the rows written are those of the builder, nhit cut and layout applied to the packets inside the window |
| RawEvents.WrapTimestamps | h5flow_modules/charge/raw_event_generator.py:154 | in place: the array becomes the wrap of its old contents |
| RawEvents.RawEventGenerator.constructor | h5flow_modules/charge/raw_event_generator.py:83-94 | the slices of this rank's partition, `iteration` = 0, and as `last_unix_ts` the first timestamp packet, in the intended reading of line 91 (see Findings) |
| RawEvents.RawEventGenerator.Next | h5flow_modules/charge/raw_event_generator.py:129-197 | `iteration` goes up by one; the message sent, the new `last_unix_ts` and the result are those of `Process` on the current buffer; `last_unix_ts` stays a timestamp packet if what was carried in was one |
| RawEvents.ExhaustedIsEmpty | h5flow_modules/charge/raw_event_generator.py:130-131 | once the slices are used up, nothing is read and the call returns EMPTY unless it raises |
| RawEvents.ReadReturnsRows | h5flow_modules/charge/raw_event_generator.py:197 | a buffer that is read returns the reserved raw-event rows it wrote |

## Left out

- `theta`, `phi`, `length` and `_track_residual`: floating-point trigonometry, square roots and mean residuals. The record keeps the fields the properties are about.
- PCA: the principal axis is a function parameter of the points. The centroid is the exact mean over reals.
- DBSCAN and RANSAC are function parameters with shape facts only. RANSAC's randomness is not modelled: each call is a deterministic function of its points.
- `_hit_xyz`: positions are given inputs. The calibration lives in global resources that are not part of this model.
- `init`, `finish`, `set_attrs`, `create_dset` and `write_data` / `write_ref`: storage I/O. `reserve_data` is modelled only by the first reserved row, which is a parameter.
- h5py file handling, `comm.bcast` (every rank gets rank 0's `last_unix_ts`; the constructor computes it directly), and the MPI transport of `pass_last_unix_ts`. The packet received is a parameter and the packet sent is a result.
- `build_events` is a function parameter. The builder classes are not part of this model.
- TrackFinding.DoDbscan: sklearn's `fit` raises ValueError on zero points; the model instead labels every hit -1. `TrackFinding.EmptyFitOnlyAtStart` shows this happens only in the first round of an event with no valid hit. For such an event `TrackFinding.FindEventTracks` returns all -1 and no tracks where the source raises, and `TrackEmitter.Run` goes on with the batch.
- TrackFinding.FindEventTracks: the unbounded `while True` is given a round budget `maxRounds`. The result says whether the loop stopped by its own test; see Findings.
- The tracklet model works on one sequence per event with a validity mask. It does not use numpy's masked 2-D arrays.
- TrackGeometry.CalcTracks: requires labels of -1 or more (`Labelled`), as `find_tracks` produces. `TrackEmitter.TrackedLabels` proves that the round loop's labels meet it.
- TrackEmitter.Run: the id array starts at 0 for every slot. numpy's `np.empty` leaves it undefined, and masked slots are never read.
- Timestamps are mathematical integers. The `u8` `unix_ts` field is not cast.
- The `u4` dtype of `packets_idcs` is not applied to the packet refs: the refs are `packetStart + k`.
- RawEvents.RawEventGenerator.constructor: requires `start_position` to be absent or non-negative. It also requires a non-empty dataset, because `argmax` on an empty array raises. It also requires `buffer_size` > 0: a size of 0 makes `range` raise ValueError at line 87, and a negative size gives no slices; neither case is modelled.
- Packet fields other than `packet_type`, `valid_parity` and `timestamp` are not modelled.
- RawEvents.Block: slicing with the EMPTY slice is taken to read no rows.
- The last buffer of a rank may stop past `end_position`. It is clamped to the dataset only, as the source does.
- RawEvents.FirstUnixTs: takes line 91 as an elementwise comparison over the `packet_type` column. As written it always gives packet 0, which is a Findings row. Even in the intended reading, a dataset without timestamp packets carries packet 0 in as `last_unix_ts`. `RawEvents.MisalignedRaises` shows that the enabled cut then raises.

## Findings

| source | as written | input that shows it | evidently intended | confidence | as-written member | corrected member |
|---|---|---|---|---|---|---|
| h5flow_modules/combined/tracklet_reco.py:124-147 | the `while True` round loop has no cap; a round that finds a cluster but accepts none leaves the state unchanged and fails the exit test | one event with two valid hits in one DBSCAN cluster, which needs `dbscan_min_samples` set to 2 or less (the default is 5), and the default `ransac_min_samples` of 2: the cluster is skipped every round | the loop ends, e.g. when a round accepts nothing | not executed | TrackFinding.TwoHitClusterNeverSettles | TrackFinding.FindEventTracks |
| h5flow_modules/combined/tracklet_reco.py:154-155 | `n_tracks` is `track_ids.max() + 1`, which is 0 when every unmasked hit has label -1; the look-up of label -1 in a zero-width id row then raises IndexError | one event with two valid hits that the round loop left unlabelled (`[[-1, -1]]`, all valid) | no track -> hit pairs for such a batch | not executed | TrackEmitter.UnlabelledBatchExample | TrackEmitter.NoSlotsNoHitRefs |
| h5flow_modules/charge/raw_event_generator.py:159 | `sync_noise_cut` defaults to the scalar 100000 (lines 46 and 65) while the enabled cut indexes it as a pair | any buffer with the default configuration: indexing an int raises TypeError | a (low, high) pair of bounds | not executed | PacketStream.DefaultSyncCutRaises | PacketStream.SyncCutLockstep |
| h5flow_modules/combined/tracklet_reco.py:83-85 | line 84's mask is a masked array; at a padding hit `track_ids != -1` holds True in its data, `take_along_axis` reads label data -1, i.e. the last slot, and the boolean index reads the data, so a padding hit is kept when its event's last slot is valid | one event with two hits on track 0 and one padding hit: three pairs, one of them for the padding hit | masked hits get no track -> hit pair | not executed; rests on numpy's masked-array rules for `!=` and boolean indexing | TrackEmitter.PaddingHitExample | TrackEmitter.PaddingHitsUnreferenced |
| h5flow_modules/charge/raw_event_generator.py:91 | `self.packets.fields('packet_type') == 4` compares h5py's lazy field reader, which defines no `==`, with 4; the result is the plain value False, and `np.argmax(False)` is 0, so `last_unix_ts` is always packet 0 | a dataset whose packet 0 is a data packet and whose packet 1 is a timestamp packet, with a pair-valued cut enabled: the first buffer's `unix_ts` is one short and line 161 raises | the first timestamp packet of the dataset, e.g. `fields('packet_type')[:] == 4` | not executed; rests on h5py's field reader having no `==`, which is outside this model | RawEvents.FirstBufferMisaligned | RawEvents.FirstBufferAligned |

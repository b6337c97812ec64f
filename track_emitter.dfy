/** The output stage of the tracklet reconstruction (`run` in
    h5flow_modules/combined/tracklet_reco.py).

    The valid slots of the event x slot table are counted and a contiguous
    range of that many rows is reserved; `np.place` then writes the durable
    ids start, start + 1, ... into the valid slots in row-major order.  Two
    reference lists follow: one (durable id, hit index) pair per labelled hit
    whose slot is valid, and one (event index, durable id) pair per valid
    slot.  The reservation itself is storage I/O: its first row is a
    parameter here. */
module TrackEmitter {
  import opened Seqs
  import opened Geometry
  import opened TrackFinding
  import opened TrackGeometry

  /** Every row of `table` has `w` entries. */
  predicate Rect<T>(table: seq<seq<T>>, w: nat)
  {
    forall i :: 0 <= i < |table| ==> |table[i]| == w
  }

  /** The rows of a two-dimensional array. */
  function Grid<T>(a: array2<T>): (g: seq<seq<T>>)
    reads a
    ensures |g| == a.Length0 && Rect(g, a.Length1)
    ensures forall i, j :: 0 <= i < a.Length0 && 0 <= j < a.Length1 ==> g[i][j] == a[i, j]
  {
    seq(a.Length0, i requires 0 <= i < a.Length0 reads a =>
      seq(a.Length1, j requires 0 <= j < a.Length1 reads a => a[i, j]))
  }

  /** The valid slots of one event (`~tracks['id'].mask[i]`). */
  function RowMask(row: seq<Slot>): (m: seq<bool>)
    ensures |m| == |row| && forall j :: 0 <= j < |row| ==> (m[j] <==> row[j].Filled?)
  {
    seq(|row|, j requires 0 <= j < |row| => row[j].Filled?)
  }

  /** The number of valid slots of each event. */
  function RowCounts(table: seq<seq<Slot>>): (r: seq<int>)
    ensures |r| == |table| && forall i :: 0 <= i < |table| ==> r[i] == Count(RowMask(table[i]))
  {
    seq(|table|, i requires 0 <= i < |table| => Count(RowMask(table[i])))
  }

  /** `n_tracks = np.count_nonzero(~tracks['id'].mask)`. */
  function Total(table: seq<seq<Slot>>): int
  {
    Sum(RowCounts(table))
  }

  /** Position of slot (i, j) among the valid slots in row-major order: the
      number of valid slots before it. */
  function Rank(table: seq<seq<Slot>>, i: nat, j: nat): int
    requires i < |table| && j <= |table[i]|
  {
    Sum(RowCounts(table)[..i]) + Count(RowMask(table[i])[..j])
  }

  lemma RankNext(table: seq<seq<Slot>>, i: nat, j: nat)
    requires i < |table| && j < |table[i]|
    ensures Rank(table, i, j + 1) == Rank(table, i, j) + (if table[i][j].Filled? then 1 else 0)
  {
    CountPrefix(RowMask(table[i]), j);
  }

  lemma RankRowEnd(table: seq<seq<Slot>>, i: nat)
    requires i < |table|
    ensures Rank(table, i, |table[i]|) == Sum(RowCounts(table)[..i + 1])
  {
    var rc := RowCounts(table);
    assert RowMask(table[i])[..|table[i]|] == RowMask(table[i]);
    assert rc[..i + 1][..i] == rc[..i];
  }

  lemma RowCountsNonNegative(table: seq<seq<Slot>>, i: nat)
    requires i <= |table|
    ensures Sum(RowCounts(table)[..i]) >= 0
  {
    SumNonNegative(RowCounts(table)[..i]);
  }

  /** A valid slot's rank lies in [0, n_tracks). */
  lemma RankBounds(table: seq<seq<Slot>>, i: nat, j: nat)
    requires i < |table| && j < |table[i]| && table[i][j].Filled?
    ensures 0 <= Rank(table, i, j) < Total(table)
  {
    var rc := RowCounts(table);
    RankNext(table, i, j);
    CountPrefix(RowMask(table[i]), j);
    RankRowEnd(table, i);
    assert RowMask(table[i])[..|table[i]|] == RowMask(table[i]);
    assert rc[..|rc|] == rc;
    SumPrefixMonotone(rc, i + 1, |rc|);
    RowCountsNonNegative(table, i);
  }

  /** Ranks strictly increase along the row-major order of valid slots. */
  lemma RankIncreasing(table: seq<seq<Slot>>, i: nat, j: nat, i2: nat, j2: nat)
    requires i < |table| && j < |table[i]| && table[i][j].Filled?
    requires i2 < |table| && j2 <= |table[i2]|
    requires i < i2 || (i == i2 && j < j2)
    ensures Rank(table, i, j) < Rank(table, i2, j2)
  {
    var m := RowMask(table[i]);
    RankNext(table, i, j);
    if i == i2 {
      CountPrefix(m[..j2], j);
      assert m[..j2][..j + 1] == m[..j + 1];
    } else {
      var rc := RowCounts(table);
      CountPrefix(m, j);
      RankRowEnd(table, i);
      assert m[..|table[i]|] == m;
      SumPrefixMonotone(rc, i + 1, i2);
    }
  }

  /** Every rank below the count of a row's mask is taken by a valid slot. */
  lemma {:induction false} RowOnto(m: seq<bool>, r: int)
    requires 0 <= r < Count(m)
    ensures exists j :: 0 <= j < |m| && m[j] && Count(m[..j]) == r
  {
    var n := |m| - 1;
    CountPrefix(m, n);
    assert m[..n + 1] == m;
    if r < Count(m[..n]) {
      RowOnto(m[..n], r);
      var j :| 0 <= j < n && m[..n][j] && Count(m[..n][..j]) == r;
      assert m[..n][..j] == m[..j];
    } else {
      assert m[n] && Count(m[..n]) == r;
    }
  }

  lemma {:induction false} TableOnto(table: seq<seq<Slot>>, r: int, i: nat)
    requires i <= |table| && 0 <= r < Sum(RowCounts(table)[..i])
    ensures exists e, j :: 0 <= e < i && 0 <= j < |table[e]| && table[e][j].Filled? && Rank(table, e, j) == r
  {
    var rc := RowCounts(table);
    if i == 0 {
      assert false;
    }
    assert rc[..i][..i - 1] == rc[..i - 1];
    if r < Sum(rc[..i - 1]) {
      TableOnto(table, r, i - 1);
    } else {
      var m := RowMask(table[i - 1]);
      RowOnto(m, r - Sum(rc[..i - 1]));
      var j :| 0 <= j < |m| && m[j] && Count(m[..j]) == r - Sum(rc[..i - 1]);
      assert Rank(table, i - 1, j) == r;
    }
  }

  /** The ranks of the valid slots are exactly 0, 1, ..., n_tracks - 1:
      every rank in that range belongs to a valid slot. */
  lemma RankOnto(table: seq<seq<Slot>>, r: int)
    requires 0 <= r < Total(table)
    ensures exists i, j :: 0 <= i < |table| && 0 <= j < |table[i]| && table[i][j].Filled? && Rank(table, i, j) == r
  {
    assert RowCounts(table)[..|table|] == RowCounts(table);
    TableOnto(table, r, |table|);
  }

  /** The durable id of a valid slot: row `start + rank` of the reserved
      range, stored into the `u4` id field. */
  function DurableId(table: seq<seq<Slot>>, start: int, i: nat, j: nat): int
    requires i < |table| && j <= |table[i]|
  {
    U32(start + Rank(table, i, j))
  }

  /** While the batch has at most 2^32 tracks, no two valid slots share a durable id. */
  lemma DurableIdsDistinct(table: seq<seq<Slot>>, start: int, i: nat, j: nat, i2: nat, j2: nat)
    requires Total(table) <= U32Modulus
    requires i < |table| && j < |table[i]| && table[i][j].Filled?
    requires i2 < |table| && j2 < |table[i2]| && table[i2][j2].Filled?
    requires DurableId(table, start, i, j) == DurableId(table, start, i2, j2)
    ensures i == i2 && j == j2
  {
    RankBounds(table, i, j);
    RankBounds(table, i2, j2);
    U32Injective(start, Rank(table, i, j), Rank(table, i2, j2), Total(table));
    if i < i2 || (i == i2 && j < j2) {
      RankIncreasing(table, i, j, i2, j2);
    } else if i2 < i || (i == i2 && j2 < j) {
      RankIncreasing(table, i2, j2, i, j);
    }
  }

  /** One row of `np.place(tracks['id'], tracks_mask, ids)`: the valid slots of
      row `i` get the next durable ids, counting on from `k`. */
  method PlaceRow(tracks: array2<Slot>, ids: array2<int>, start: int, i: nat, k0: int)
    returns (k: int)
    requires ids.Length0 == tracks.Length0 && ids.Length1 == tracks.Length1 && i < tracks.Length0
    requires k0 == Rank(Grid(tracks), i, 0)
    modifies ids
    ensures k == Rank(Grid(tracks), i, tracks.Length1)
    ensures forall e, c :: 0 <= e < ids.Length0 && 0 <= c < ids.Length1 ==>
              ids[e, c] == if e == i && tracks[e, c].Filled? then DurableId(Grid(tracks), start, e, c)
                           else old(ids[e, c])
  {
    ghost var table := Grid(tracks);
    k := k0;
    for j := 0 to tracks.Length1
      invariant k == Rank(table, i, j)
      invariant forall c :: 0 <= c < j ==>
                  ids[i, c] == if tracks[i, c].Filled? then DurableId(table, start, i, c) else old(ids[i, c])
      invariant forall c :: j <= c < ids.Length1 ==> ids[i, c] == old(ids[i, c])
      invariant forall e, c :: 0 <= e < ids.Length0 && e != i && 0 <= c < ids.Length1 ==>
                  ids[e, c] == old(ids[e, c])
    {
      RankNext(table, i, j);
      if tracks[i, j].Filled? {
        ids[i, j] := U32(start + k);
        k := k + 1;
      }
    }
  }

  /** `np.place(tracks['id'], tracks_mask, np.r_[tracks_slice].astype('u4'))`:
      the valid slots get the durable ids of their row-major rank; the id
      field of the other slots is left as it was. */
  method AssignIds(tracks: array2<Slot>, ids: array2<int>, start: int)
    requires ids.Length0 == tracks.Length0 && ids.Length1 == tracks.Length1
    modifies ids
    ensures forall i, j :: 0 <= i < ids.Length0 && 0 <= j < ids.Length1 ==>
              ids[i, j] == if tracks[i, j].Filled? then DurableId(Grid(tracks), start, i, j) else old(ids[i, j])
  {
    ghost var table := Grid(tracks);
    var k := 0;
    for i := 0 to tracks.Length0
      invariant k == Sum(RowCounts(table)[..i])
      invariant forall e, c :: 0 <= e < ids.Length0 && 0 <= c < ids.Length1 ==>
                  ids[e, c] == if e < i && tracks[e, c].Filled? then DurableId(table, start, e, c) else old(ids[e, c])
    {
      assert RowMask(table[i])[..0] == [];
      k := PlaceRow(tracks, ids, start, i, k);
      RankRowEnd(table, i);
    }
  }

  /** The records written to the track dataset (`tracks[tracks_mask]`): the
      valid slots in row-major order. */
  function WrittenTracks(table: seq<seq<Slot>>): seq<Slot>
  {
    Concat(seq(|table|, i requires 0 <= i < |table| => Select(table[i], RowMask(table[i]))))
  }

  /** As many records are written as rows are reserved, and each is a track. */
  lemma WrittenTracksFacts(table: seq<seq<Slot>>)
    ensures |WrittenTracks(table)| == Total(table)
    ensures forall x :: x in WrittenTracks(table) ==> x.Filled?
  {
    var blocks := seq(|table|, i requires 0 <= i < |table| => Select(table[i], RowMask(table[i])));
    ConcatLength(blocks);
    assert Lens(blocks) == RowCounts(table);
    forall x | x in WrittenTracks(table) ensures x.Filled? {
      var p :| 0 <= p < |Concat(blocks)| && Concat(blocks)[p] == x;
      ConcatLocate(blocks, p);
      var i, k :| 0 <= i < |blocks| && 0 <= k < |blocks[i]| && Concat(blocks)[p] == blocks[i][k];
      SelectMembership(table[i], RowMask(table[i]));
      assert blocks[i][k] in Select(table[i], RowMask(table[i]));
    }
  }

  /** Every entry of a concatenation comes from one of its parts. */
  lemma {:induction false} ConcatLocate<T>(ss: seq<seq<T>>, p: nat)
    requires p < |Concat(ss)|
    ensures exists i, k :: 0 <= i < |ss| && 0 <= k < |ss[i]| && Concat(ss)[p] == ss[i][k]
  {
    var n := |ss| - 1;
    assert Concat(ss) == Concat(ss[..n]) + ss[n];
    if p < |Concat(ss[..n])| {
      ConcatLocate(ss[..n], p);
      var i, k :| 0 <= i < n && 0 <= k < |ss[..n][i]| && Concat(ss[..n])[p] == ss[..n][i][k];
      assert Concat(ss)[p] == ss[i][k];
    } else {
      assert Concat(ss)[p] == ss[n][p - |Concat(ss[..n])|];
    }
  }

  /** The hits of one event that get a track -> hit pair
      (`(~track_ref_id.mask) & (track_ids != -1)`): labelled hits whose slot
      is valid.  The slot is looked up only for labelled hits, so label -1
      never reaches the table. */
  function HitKeep(row: seq<Slot>, ls: seq<int>): (m: seq<bool>)
    requires forall k :: 0 <= k < |ls| ==> -1 <= ls[k] < |row|
    ensures |m| == |ls|
    ensures forall k :: 0 <= k < |ls| ==> (m[k] <==> ls[k] != -1 && row[ls[k]].Filled?)
  {
    seq(|ls|, k requires 0 <= k < |ls| => ls[k] != -1 && row[ls[k]].Filled?)
  }

  /** The durable id of each labelled hit's slot (`take_along_axis`, guarded);
      unlabelled hits get a placeholder that `HitKeep` always drops. */
  function RefIds(idRow: seq<int>, ls: seq<int>): (r: seq<int>)
    requires forall k :: 0 <= k < |ls| ==> -1 <= ls[k] < |idRow|
    ensures |r| == |ls|
    ensures forall k :: 0 <= k < |ls| && ls[k] != -1 ==> r[k] == idRow[ls[k]]
  {
    seq(|ls|, k requires 0 <= k < |ls| => if ls[k] == -1 then 0 else idRow[ls[k]])
  }

  /** The track -> hit pairs of one event:
      `np.c_[track_ref_id[mask], hit_idx[mask]]`. */
  function EventHitRefs(row: seq<Slot>, idRow: seq<int>, ls: seq<int>, hidx: seq<int>): seq<(int, int)>
    requires |idRow| == |row| && |hidx| == |ls|
    requires forall k :: 0 <= k < |ls| ==> -1 <= ls[k] < |row|
  {
    var keep := HitKeep(row, ls);
    SelectLockstep(RefIds(idRow, ls), hidx, keep);
    Zip(Select(RefIds(idRow, ls), keep), Select(hidx, keep))
  }

  /** One pair per hit that is labelled and whose slot is valid, and no other
      pair: each carries the id stored in the hit's slot and the hit's index. */
  lemma EventHitRefsExact(row: seq<Slot>, idRow: seq<int>, ls: seq<int>, hidx: seq<int>)
    requires |idRow| == |row| && |hidx| == |ls|
    requires forall k :: 0 <= k < |ls| ==> -1 <= ls[k] < |row|
    ensures |EventHitRefs(row, idRow, ls, hidx)| == Count(HitKeep(row, ls))
    ensures forall x :: x in EventHitRefs(row, idRow, ls, hidx) <==>
              exists k :: 0 <= k < |ls| && ls[k] != -1 && row[ls[k]].Filled? && x == (idRow[ls[k]], hidx[k])
  {
    var keep := HitKeep(row, ls);
    var pairs := Zip(RefIds(idRow, ls), hidx);
    SelectLockstep(RefIds(idRow, ls), hidx, keep);
    SelectMembership(pairs, keep);
    forall x | (exists k :: 0 <= k < |ls| && ls[k] != -1 && row[ls[k]].Filled? && x == (idRow[ls[k]], hidx[k]))
      ensures x in EventHitRefs(row, idRow, ls, hidx)
    {
      var k :| 0 <= k < |ls| && ls[k] != -1 && row[ls[k]].Filled? && x == (idRow[ls[k]], hidx[k]);
      assert pairs[k] == x;
    }
  }

  /** The shapes `run` works on: a table of `w` slots per event, its id field,
      and per event one label and one hit index per hit, each label -1 or a slot. */
  predicate RefShapes(table: seq<seq<Slot>>, idRows: seq<seq<int>>, labels: seq<seq<int>>, hitIdx: seq<seq<int>>, w: nat)
  {
    && |table| == |idRows| == |labels| == |hitIdx|
    && Rect(table, w) && Rect(idRows, w)
    && (forall i :: 0 <= i < |labels| ==> |labels[i]| == |hitIdx[i]|)
    && (forall i, k :: 0 <= i < |labels| && 0 <= k < |labels[i]| ==> -1 <= labels[i][k] < w)
  }

  function HitRefBlocks(table: seq<seq<Slot>>, idRows: seq<seq<int>>, labels: seq<seq<int>>, hitIdx: seq<seq<int>>, w: nat)
    : (b: seq<seq<(int, int)>>)
    requires RefShapes(table, idRows, labels, hitIdx, w)
    ensures |b| == |table|
    ensures forall i :: 0 <= i < |table| ==> b[i] == EventHitRefs(table[i], idRows[i], labels[i], hitIdx[i])
  {
    seq(|table|, i requires 0 <= i < |table| => EventHitRefs(table[i], idRows[i], labels[i], hitIdx[i]))
  }

  /** The track -> hit reference list of the batch, event by event. */
  function TrackHitRefs(table: seq<seq<Slot>>, idRows: seq<seq<int>>, labels: seq<seq<int>>, hitIdx: seq<seq<int>>, w: nat)
    : seq<(int, int)>
    requires RefShapes(table, idRows, labels, hitIdx, w)
  {
    Concat(HitRefBlocks(table, idRows, labels, hitIdx, w))
  }

  /** Event i's pairs form one contiguous block of the batch's list, after
      the pairs of the events before it, and every pair of the list is a
      pair of one labelled hit with a valid slot. */
  lemma TrackHitRefsLayout(table: seq<seq<Slot>>, idRows: seq<seq<int>>, labels: seq<seq<int>>,
                           hitIdx: seq<seq<int>>, w: nat, i: nat, k: nat)
    requires RefShapes(table, idRows, labels, hitIdx, w)
    requires i < |table| && k < |EventHitRefs(table[i], idRows[i], labels[i], hitIdx[i])|
    ensures var b := HitRefBlocks(table, idRows, labels, hitIdx, w);
            && 0 <= Sum(Lens(b)[..i])
            && Sum(Lens(b)[..i]) + k < |TrackHitRefs(table, idRows, labels, hitIdx, w)|
            && TrackHitRefs(table, idRows, labels, hitIdx, w)[Sum(Lens(b)[..i]) + k]
               == EventHitRefs(table[i], idRows[i], labels[i], hitIdx[i])[k]
  {
    var b := HitRefBlocks(table, idRows, labels, hitIdx, w);
    assert b[i] == EventHitRefs(table[i], idRows[i], labels[i], hitIdx[i]);
    ConcatIndex(b, i, k);
  }

  /** Every pair of the batch's track -> hit list belongs to one hit of one
      event that is labelled and whose slot is valid. */
  lemma TrackHitRefsSound(table: seq<seq<Slot>>, idRows: seq<seq<int>>, labels: seq<seq<int>>,
                          hitIdx: seq<seq<int>>, w: nat, x: (int, int))
    requires RefShapes(table, idRows, labels, hitIdx, w)
    requires x in TrackHitRefs(table, idRows, labels, hitIdx, w)
    ensures exists i, k :: 0 <= i < |table| && 0 <= k < |labels[i]| && labels[i][k] != -1
              && table[i][labels[i][k]].Filled? && x == (idRows[i][labels[i][k]], hitIdx[i][k])
  {
    var b := HitRefBlocks(table, idRows, labels, hitIdx, w);
    var p :| 0 <= p < |Concat(b)| && Concat(b)[p] == x;
    ConcatLocate(b, p);
    var i, q :| 0 <= i < |b| && 0 <= q < |b[i]| && Concat(b)[p] == b[i][q];
    EventHitRefsExact(table[i], idRows[i], labels[i], hitIdx[i]);
    assert x in b[i];
  }

  /** The event -> track pairs of one event: its event index and the id of
      each of its valid slots, in slot order: the valid slot `j` is pair
      number `Count(RowMask(row)[..j])`, and there is no other pair. */
  function EventTrackRow(row: seq<Slot>, idRow: seq<int>, ev: int): (r: seq<(int, int)>)
    requires |idRow| == |row|
    ensures |r| == Count(RowMask(row))
    ensures forall x :: x in r <==> exists j :: 0 <= j < |row| && row[j].Filled? && x == (ev, idRow[j])
    ensures forall j :: 0 <= j < |row| && row[j].Filled? ==>
              Count(RowMask(row)[..j]) < |r| && r[Count(RowMask(row)[..j])] == (ev, idRow[j])
  {
    var pairs := seq(|row|, j requires 0 <= j < |row| => (ev, idRow[j]));
    SelectMembership(pairs, RowMask(row));
    SelectPositions(pairs, RowMask(row));
    Select(pairs, RowMask(row))
  }

  function EventRefBlocks(table: seq<seq<Slot>>, idRows: seq<seq<int>>, sliceStart: int): (b: seq<seq<(int, int)>>)
    requires |idRows| == |table| && forall i :: 0 <= i < |table| ==> |idRows[i]| == |table[i]|
    ensures |b| == |table|
    ensures forall i :: 0 <= i < |table| ==> b[i] == EventTrackRow(table[i], idRows[i], sliceStart + i)
  {
    seq(|table|, i requires 0 <= i < |table| => EventTrackRow(table[i], idRows[i], sliceStart + i))
  }

  /** The event -> track reference list: `np.c_[ev_id[tracks_mask],
      tracks['id'][tracks_mask]]`, with event `i` of the batch standing for
      source row `sliceStart + i`. */
  function EventTrackRefs(table: seq<seq<Slot>>, idRows: seq<seq<int>>, sliceStart: int): seq<(int, int)>
    requires |idRows| == |table| && forall i :: 0 <= i < |table| ==> |idRows[i]| == |table[i]|
  {
    Concat(EventRefBlocks(table, idRows, sliceStart))
  }

  /** One event -> track pair per valid slot. */
  lemma EventTrackRefsCount(table: seq<seq<Slot>>, idRows: seq<seq<int>>, sliceStart: int)
    requires |idRows| == |table| && forall i :: 0 <= i < |table| ==> |idRows[i]| == |table[i]|
    ensures |EventTrackRefs(table, idRows, sliceStart)| == Total(table)
  {
    var b := EventRefBlocks(table, idRows, sliceStart);
    ConcatLength(b);
    assert Lens(b) == RowCounts(table);
  }

  /** The valid slot (i, j) carries pair number `Rank(table, i, j)` of the
      event -> track list, its row-major position among the valid slots:
      source row `sliceStart + i` and the slot's id. */
  lemma EventTrackRefsOrder(table: seq<seq<Slot>>, idRows: seq<seq<int>>, sliceStart: int)
    requires |idRows| == |table| && forall i :: 0 <= i < |table| ==> |idRows[i]| == |table[i]|
    ensures forall i, j :: 0 <= i < |table| && 0 <= j < |table[i]| && table[i][j].Filled? ==>
              0 <= Rank(table, i, j) < |EventTrackRefs(table, idRows, sliceStart)|
              && EventTrackRefs(table, idRows, sliceStart)[Rank(table, i, j)] == (sliceStart + i, idRows[i][j])
  {
    var b := EventRefBlocks(table, idRows, sliceStart);
    assert Lens(b) == RowCounts(table);
    forall i, j | 0 <= i < |table| && 0 <= j < |table[i]| && table[i][j].Filled?
      ensures 0 <= Rank(table, i, j) < |Concat(b)| && Concat(b)[Rank(table, i, j)] == (sliceStart + i, idRows[i][j])
    {
      var q := Count(RowMask(table[i])[..j]);
      assert b[i][q] == (sliceStart + i, idRows[i][j]);
      ConcatIndex(b, i, q);
      assert Lens(b)[..i] == RowCounts(table)[..i];
    }
  }

  /** A pair is in the event -> track list iff it is the source row of some
      event together with the id of one of that event's valid slots. */
  lemma EventTrackRefsExact(table: seq<seq<Slot>>, idRows: seq<seq<int>>, sliceStart: int)
    requires |idRows| == |table| && forall i :: 0 <= i < |table| ==> |idRows[i]| == |table[i]|
    ensures forall x :: x in EventTrackRefs(table, idRows, sliceStart) <==>
              exists i, j :: 0 <= i < |table| && 0 <= j < |table[i]| && table[i][j].Filled?
                             && x == (sliceStart + i, idRows[i][j])
  {
    var b := EventRefBlocks(table, idRows, sliceStart);
    EventTrackRefsOrder(table, idRows, sliceStart);
    forall x | x in Concat(b)
      ensures exists i, j :: 0 <= i < |table| && 0 <= j < |table[i]| && table[i][j].Filled?
                             && x == (sliceStart + i, idRows[i][j])
    {
      var p :| 0 <= p < |Concat(b)| && Concat(b)[p] == x;
      ConcatLocate(b, p);
      var i, q :| 0 <= i < |b| && 0 <= q < |b[i]| && Concat(b)[p] == b[i][q];
      assert x in EventTrackRow(table[i], idRows[i], sliceStart + i);
    }
  }

  /** Every track that a hit of event `i` refers to is a track of event `i`
      in the event -> track list. */
  lemma HitRefHasEventRef(row: seq<Slot>, idRow: seq<int>, ls: seq<int>, hidx: seq<int>, ev: int, x: (int, int))
    requires |idRow| == |row| && |hidx| == |ls|
    requires forall k :: 0 <= k < |ls| ==> -1 <= ls[k] < |row|
    requires x in EventHitRefs(row, idRow, ls, hidx)
    ensures (ev, x.0) in EventTrackRow(row, idRow, ev)
  {
    EventHitRefsExact(row, idRow, ls, hidx);
    var k :| 0 <= k < |ls| && ls[k] != -1 && row[ls[k]].Filled? && x == (idRow[ls[k]], hidx[k]);
    var pairs := seq(|row|, j requires 0 <= j < |row| => (ev, idRow[j]));
    SelectMembership(pairs, RowMask(row));
    assert pairs[ls[k]] == (ev, x.0);
  }

  /** numpy's index look-up along an axis, as written: a negative index counts
      from the end, and one outside [-|row|, |row|) raises IndexError (`None`). */
  function TakeAlongAxis<T>(row: seq<T>, idx: int): (r: Option<T>)
    ensures r.Some? <==> -|row| <= idx < |row|
    ensures idx == -1 && |row| > 0 ==> r == Some(row[|row| - 1])
  {
    if 0 <= idx < |row| then Some(row[idx])
    else if -|row| <= idx < 0 then Some(row[|row| + idx])
    else None
  }

  /** Where the event has at least one slot, the unguarded look-up followed by
      the `track_ids != -1` filter keeps the same hits, with the same ids, as
      the guarded one: label -1 reads the last slot and is then dropped. */
  lemma WrappedLookupAgrees(row: seq<Slot>, idRow: seq<int>, ls: seq<int>, k: nat)
    requires |idRow| == |row| > 0 && k < |ls|
    requires forall k :: 0 <= k < |ls| ==> -1 <= ls[k] < |row|
    ensures TakeAlongAxis(row, ls[k]).Some? && TakeAlongAxis(idRow, ls[k]).Some?
    ensures (TakeAlongAxis(row, ls[k]).value.Filled? && ls[k] != -1) == HitKeep(row, ls)[k]
    ensures HitKeep(row, ls)[k] ==> TakeAlongAxis(idRow, ls[k]).value == RefIds(idRow, ls)[k]
  {
  }

  /** Line 84's mask as numpy's masked arrays evaluate it.  At a masked
      (padding) hit `track_ids != -1` holds True in its data (an entry masked
      on one side compares unequal), `take_along_axis` reads the label data
      there, and the boolean index reads the data; so a padding hit is kept
      when the slot its label data points at is valid.  Unmasked hits keep
      the mask `HitKeep` gives. */
  function MaskedHitKeep(row: seq<Slot>, ls: seq<int>, valid: seq<bool>): (m: seq<bool>)
    requires |valid| == |ls| && forall k :: 0 <= k < |ls| ==> -1 <= ls[k] < |row|
    ensures |m| == |ls|
    ensures forall k :: 0 <= k < |ls| && valid[k] ==> m[k] == HitKeep(row, ls)[k]
  {
    seq(|ls|, k requires 0 <= k < |ls| =>
      if valid[k] then ls[k] != -1 && row[ls[k]].Filled?
      else match TakeAlongAxis(row, ls[k])
           case None => false
           case Some(slot) => slot.Filled?)
  }

  /** As written, a padding hit whose label data is -1 (as `find_tracks`
      leaves it) gets a pair whenever its event's last slot is valid, though
      it belongs to no track; `HitKeep` drops it. */
  lemma PaddingHitReferenced(row: seq<Slot>, ls: seq<int>, valid: seq<bool>, k: nat)
    requires |valid| == |ls| && forall k :: 0 <= k < |ls| ==> -1 <= ls[k] < |row|
    requires k < |ls| && !valid[k] && ls[k] == -1
    ensures MaskedHitKeep(row, ls, valid)[k] <==> |row| > 0 && row[|row| - 1].Filled?
    ensures !HitKeep(row, ls)[k]
  {
  }

  /** A concrete event: two valid hits on track 0 and one padding hit; as
      written all three hits are kept, while `HitKeep` keeps the two. */
  lemma PaddingHitExample(t: Track)
    ensures MaskedHitKeep([Filled(t)], [0, 0, -1], [true, true, false]) == [true, true, true]
    ensures HitKeep([Filled(t)], [0, 0, -1]) == [true, true, false]
  {
    PaddingHitReferenced([Filled(t)], [0, 0, -1], [true, true, false], 2);
  }

  /** With the labels `find_tracks` leaves (padding hits unlabelled), only
      unmasked hits get a track -> hit pair. */
  lemma PaddingHitsUnreferenced(row: seq<Slot>, idRow: seq<int>, ls: seq<int>, hidx: seq<int>, valid: seq<bool>)
    requires |idRow| == |row| && |hidx| == |ls| == |valid|
    requires forall k :: 0 <= k < |ls| ==> -1 <= ls[k] < |row|
    requires forall k :: 0 <= k < |ls| && !valid[k] ==> ls[k] == -1
    ensures forall x :: x in EventHitRefs(row, idRow, ls, hidx) ==>
              exists k :: 0 <= k < |ls| && valid[k] && ls[k] != -1 && x == (idRow[ls[k]], hidx[k])
  {
    EventHitRefsExact(row, idRow, ls, hidx);
  }

  /** As written, a batch in which some hit is unmasked but no hit is
      labelled gets zero slot columns, and the look-up of each unmasked hit's
      label -1 in its event's empty id row raises IndexError. */
  lemma UnlabelledBatchRaises(labels: seq<seq<int>>, valid: seq<seq<bool>>, i: nat, k: nat)
    requires |labels| == |valid| && forall e :: 0 <= e < |labels| ==> |labels[e]| == |valid[e]|
    requires forall e, c :: 0 <= e < |labels| && 0 <= c < |labels[e]| ==> labels[e][c] == -1
    requires i < |labels| && k < |labels[i]| && valid[i][k]
    ensures SlotCount(labels, valid) == 0
    ensures forall idRow: seq<int> :: |idRow| == SlotCount(labels, valid) ==> TakeAlongAxis(idRow, labels[i][k]).None?
  {
  }

  /** A concrete input: one event with two valid hits that the round loop left
      unlabelled. */
  lemma UnlabelledBatchExample()
    ensures SlotCount([[-1, -1]], [[true, true]]) == 0
    ensures var noSlots: seq<int> := []; TakeAlongAxis(noSlots, -1).None?
  {
    UnlabelledBatchRaises([[-1, -1]], [[true, true]], 0, 0);
  }

  /** With the guard, the same batch has no track -> hit pairs at all and no
      look-up is made. */
  lemma NoSlotsNoHitRefs(table: seq<seq<Slot>>, idRows: seq<seq<int>>, labels: seq<seq<int>>, hitIdx: seq<seq<int>>)
    requires RefShapes(table, idRows, labels, hitIdx, 0)
    ensures TrackHitRefs(table, idRows, labels, hitIdx, 0) == []
  {
    var b := HitRefBlocks(table, idRows, labels, hitIdx, 0);
    forall i | 0 <= i < |table| ensures |b[i]| == 0 {
      EventHitRefsExact(table[i], idRows[i], labels[i], hitIdx[i]);
      CountZero(HitKeep(table[i], labels[i]));
    }
    ConcatLength(b);
    assert Lens(b) == seq(|b|, _ => 0);
    ZeroSum(|b|);
  }

  lemma {:induction false} ZeroSum(n: nat)
    ensures Sum(seq(n, _ => 0)) == 0
  {
    if n > 0 {
      assert seq(n, _ => 0)[..n - 1] == seq(n - 1, _ => 0);
      ZeroSum(n - 1);
    }
  }

  /** The labels the round loop leaves for a batch: masked hits unlabelled,
      every label -1 or below `n_tracks`, and every event's accepted tracks
      within the `n_tracks` columns. */
  lemma TrackedLabels(dbscan: seq<Point> -> seq<int>, ransac: seq<Point> -> seq<bool>, minSamples: int,
                      xyz: seq<seq<Point>>, valid: seq<seq<bool>>, maxRounds: nat,
                      labels: seq<seq<int>>, counts: seq<nat>)
    requires ClusterOracle(dbscan) && LineOracle(ransac)
    requires |xyz| == |valid| == |labels| == |counts| && forall e :: 0 <= e < |xyz| ==> |xyz[e]| == |valid[e]|
    requires forall e :: 0 <= e < |labels| ==>
               EventTracked(dbscan, ransac, minSamples, xyz[e], valid[e], maxRounds, labels[e], counts[e])
    ensures forall e :: 0 <= e < |labels| ==> |labels[e]| == |valid[e]|
    ensures Labelled(labels)
    ensures forall e, k :: 0 <= e < |labels| && 0 <= k < |labels[e]| && !valid[e][k] ==> labels[e][k] == -1
    ensures forall e, k :: 0 <= e < |labels| && 0 <= k < |labels[e]| ==> labels[e][k] < SlotCount(labels, valid)
    ensures forall e :: 0 <= e < |labels| ==> counts[e] <= SlotCount(labels, valid)
  {
    forall e | 0 <= e < |labels|
      ensures |labels[e]| == |valid[e]|
      ensures forall k :: 0 <= k < |labels[e]| ==> -1 <= labels[e][k] < counts[e]
      ensures forall k :: 0 <= k < |labels[e]| && !valid[e][k] ==> labels[e][k] == -1
      ensures forall id :: 0 <= id < counts[e] ==> CountLabel(labels[e], id) >= 2
    {
      EventOutcomeFacts(valid[e], dbscan, ransac, minSamples, xyz[e], maxRounds);
    }
    forall e | 0 <= e < |labels| ensures counts[e] <= SlotCount(labels, valid) {
      AcceptedFitSlots(labels, valid, counts, e);
    }
  }

  /** With the labels of the round loop, every labelled hit of an event gets
      a track -> hit pair: its slot is always valid. */
  lemma LabelledHitsReferenced(dbscan: seq<Point> -> seq<int>, ransac: seq<Point> -> seq<bool>, minSamples: int,
                               xyz: seq<Point>, valid: seq<bool>, maxRounds: nat, labels: seq<int>, count: nat,
                               axisFit: seq<Point> -> Point, hs: seq<Hit>, t0: int, row: seq<Slot>)
    requires ClusterOracle(dbscan) && LineOracle(ransac) && |xyz| == |valid| == |hs|
    requires EventTracked(dbscan, ransac, minSamples, xyz, valid, maxRounds, labels, count)
    requires forall j :: 0 <= j < |row| ==> row[j] == SlotOf(axisFit, hs, t0, labels, valid, j)
    requires forall k :: 0 <= k < |labels| ==> -1 <= labels[k] < |row|
    ensures forall k :: 0 <= k < |labels| ==> (HitKeep(row, labels)[k] <==> labels[k] != -1)
  {
    EventOutcomeFacts(valid, dbscan, ransac, minSamples, xyz, maxRounds);
    forall k | 0 <= k < |labels| && labels[k] != -1 ensures row[labels[k]].Filled? {
      TrackedSlots(dbscan, ransac, minSamples, xyz, valid, maxRounds, labels, count, axisFit, hs, t0, labels[k]);
    }
  }

  /** What `find_tracks` leaves for a batch: per event the labels and the
      number of accepted tracks of its round loop, every label below
      `n_tracks`. */
  ghost predicate Clustered(dbscan: seq<Point> -> seq<int>, ransac: seq<Point> -> seq<bool>, minSamples: int,
                            hits: seq<seq<Hit>>, valid: seq<seq<bool>>, maxRounds: nat,
                            labels: seq<seq<int>>, counts: seq<nat>)
    requires ClusterOracle(dbscan) && LineOracle(ransac)
  {
    && |labels| == |counts| == |hits| == |valid|
    && (forall e :: 0 <= e < |hits| ==> |hits[e]| == |labels[e]| == |valid[e]|)
    && Labelled(labels)
    && (forall e :: 0 <= e < |hits| ==>
          EventTracked(dbscan, ransac, minSamples, Positions(hits[e]), valid[e], maxRounds, labels[e], counts[e]))
    && (forall e, k :: 0 <= e < |labels| && 0 <= k < |labels[e]| ==> labels[e][k] < SlotCount(labels, valid))
  }

  /** `find_tracks` over a batch of hits, with the facts `calc_tracks` and
      `run` rely on. */
  method LabelBatch(dbscan: seq<Point> -> seq<int>, ransac: seq<Point> -> seq<bool>, minSamples: int,
                    hits: seq<seq<Hit>>, valid: seq<seq<bool>>, maxRounds: nat)
    returns (labels: seq<seq<int>>, counts: seq<nat>)
    requires ClusterOracle(dbscan) && LineOracle(ransac)
    requires |hits| == |valid| && forall i :: 0 <= i < |hits| ==> |hits[i]| == |valid[i]|
    ensures Clustered(dbscan, ransac, minSamples, hits, valid, maxRounds, labels, counts)
  {
    var xyz := seq(|hits|, i requires 0 <= i < |hits| => Positions(hits[i]));
    labels, counts := FindTracks(dbscan, ransac, minSamples, xyz, valid, maxRounds);
    TrackedLabels(dbscan, ransac, minSamples, xyz, valid, maxRounds, labels, counts);
  }

  /** What `calc_tracks` leaves: the table of the batch's slots. */
  ghost predicate Tabulated(axisFit: seq<Point> -> Point, hits: seq<seq<Hit>>, t0: seq<int>,
                            labels: seq<seq<int>>, valid: seq<seq<bool>>, tracks: array2<Slot>)
    reads tracks
  {
    && Shapes(hits, t0, labels, valid) && Labelled(labels)
    && tracks.Length0 == |hits| && tracks.Length1 == SlotCount(labels, valid)
    && (forall i, j :: 0 <= i < tracks.Length0 && 0 <= j < tracks.Length1 ==>
          tracks[i, j] == SlotOf(axisFit, hits[i], t0[i], labels[i], valid[i], j))
  }

  /** What the second half of `run` writes: the durable ids of the valid
      slots and the two reference lists. */
  ghost predicate Emitted(tracks: array2<Slot>, ids: array2<int>, reserved: int, sliceStart: int,
                          labels: seq<seq<int>>, hitIdx: seq<seq<int>>,
                          hitRefs: seq<(int, int)>, eventRefs: seq<(int, int)>)
    reads tracks, ids
  {
    && tracks.Length0 == ids.Length0 && tracks.Length1 == ids.Length1
    && (forall i, j :: 0 <= i < tracks.Length0 && 0 <= j < tracks.Length1 && tracks[i, j].Filled? ==>
          ids[i, j] == DurableId(Grid(tracks), reserved, i, j))
    && RefShapes(Grid(tracks), Grid(ids), labels, hitIdx, tracks.Length1)
    && hitRefs == TrackHitRefs(Grid(tracks), Grid(ids), labels, hitIdx, tracks.Length1)
    && eventRefs == EventTrackRefs(Grid(tracks), Grid(ids), sliceStart)
  }

  /** The second half of `run`: the durable ids written with `np.place`, then
      the track -> hit and event -> track reference lists. */
  method Emit(tracks: array2<Slot>, ids: array2<int>, reserved: int, sliceStart: int,
              labels: seq<seq<int>>, hitIdx: seq<seq<int>>)
    returns (hitRefs: seq<(int, int)>, eventRefs: seq<(int, int)>)
    requires ids.Length0 == tracks.Length0 == |labels| == |hitIdx| && ids.Length1 == tracks.Length1
    requires forall i :: 0 <= i < |labels| ==> |labels[i]| == |hitIdx[i]|
    requires forall i, k :: 0 <= i < |labels| && 0 <= k < |labels[i]| ==> -1 <= labels[i][k] < tracks.Length1
    modifies ids
    ensures Emitted(tracks, ids, reserved, sliceStart, labels, hitIdx, hitRefs, eventRefs)
    ensures forall i, j :: 0 <= i < ids.Length0 && 0 <= j < ids.Length1 && !tracks[i, j].Filled? ==>
              ids[i, j] == old(ids[i, j])
  {
    AssignIds(tracks, ids, reserved);
    assert RefShapes(Grid(tracks), Grid(ids), labels, hitIdx, tracks.Length1);
    hitRefs := TrackHitRefs(Grid(tracks), Grid(ids), labels, hitIdx, tracks.Length1);
    eventRefs := EventTrackRefs(Grid(tracks), Grid(ids), sliceStart);
  }

  /** After the ids are written, the event -> track list holds, at the
      row-major position of each valid slot (i, j), source row
      `sliceStart + i` and the slot's durable id, and nothing else: it has
      exactly one pair per valid slot. */
  lemma EmittedEventRefs(tracks: array2<Slot>, ids: array2<int>, reserved: int, sliceStart: int,
                         labels: seq<seq<int>>, hitIdx: seq<seq<int>>,
                         hitRefs: seq<(int, int)>, eventRefs: seq<(int, int)>)
    requires Emitted(tracks, ids, reserved, sliceStart, labels, hitIdx, hitRefs, eventRefs)
    ensures |eventRefs| == Total(Grid(tracks))
    ensures forall i, j :: 0 <= i < tracks.Length0 && 0 <= j < tracks.Length1 && tracks[i, j].Filled? ==>
              0 <= Rank(Grid(tracks), i, j) < |eventRefs|
              && eventRefs[Rank(Grid(tracks), i, j)] == (sliceStart + i, DurableId(Grid(tracks), reserved, i, j))
  {
    var table, idRows := Grid(tracks), Grid(ids);
    EventTrackRefsCount(table, idRows, sliceStart);
    EventTrackRefsOrder(table, idRows, sliceStart);
  }

  /** `run`: the cluster finder, the track table, the durable ids and both
      reference lists for one batch of events.  `reserved` is the first row
      of the range `reserve_data` returns, and `sliceStart` the first source
      row of the batch. */
  method Run(dbscan: seq<Point> -> seq<int>, ransac: seq<Point> -> seq<bool>, minSamples: int,
             axisFit: seq<Point> -> Point, hits: seq<seq<Hit>>, t0: seq<int>, valid: seq<seq<bool>>,
             hitIdx: seq<seq<int>>, sliceStart: int, reserved: int, maxRounds: nat)
    returns (labels: seq<seq<int>>, counts: seq<nat>, tracks: array2<Slot>, ids: array2<int>,
             hitRefs: seq<(int, int)>, eventRefs: seq<(int, int)>)
    requires ClusterOracle(dbscan) && LineOracle(ransac)
    requires |hits| == |t0| == |valid| == |hitIdx|
    requires forall i :: 0 <= i < |hits| ==> |hits[i]| == |valid[i]| == |hitIdx[i]|
    ensures fresh(tracks) && fresh(ids)
    ensures Clustered(dbscan, ransac, minSamples, hits, valid, maxRounds, labels, counts)
    ensures Tabulated(axisFit, hits, t0, labels, valid, tracks)
    ensures Emitted(tracks, ids, reserved, sliceStart, labels, hitIdx, hitRefs, eventRefs)
  {
    labels, counts := LabelBatch(dbscan, ransac, minSamples, hits, valid, maxRounds);
    tracks := CalcTracks(axisFit, hits, t0, labels, valid);
    ids := new int[tracks.Length0, tracks.Length1]((_, _) => 0);
    hitRefs, eventRefs := Emit(tracks, ids, reserved, sliceStart, labels, hitIdx);
  }
}

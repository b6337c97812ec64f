/** The track table of the tracklet reconstruction (`calc_tracks` in
    h5flow_modules/combined/tracklet_reco.py).

    The labels left by the cluster finder are turned into a rectangular
    event x slot table with one column per track id of the batch.  Slot
    (i, j) holds a track when at least two unmasked hits of event i carry
    label j; otherwise it stays masked.  A track records its hit count, its
    total charge, its first and last hit time, the crossing of its fitted
    line with the z = 0 plane, and start and end points.  The principal-axis
    fit is a foreign library call and appears as a function parameter. */
module TrackGeometry {
  import opened Seqs
  import opened Geometry
  import opened TrackFinding

  /** The fields of a hit the table uses: its position (an input here), its
      charge `q` and its time stamp `ts`. */
  datatype Hit = Hit(pos: Point, q: real, ts: int)

  /** A four-vector `start` / `end`: a point and a time relative to the
      event's t0. */
  datatype Mark = Mark(at: Point, dt: int)

  /** The fields of a tracklet record that the model computes. */
  datatype Track = Track(xp: real, yp: real, nhit: nat, q: real,
                         tsStart: int, tsEnd: int, start: Mark, end: Mark)

  /** A table entry: masked, or holding a track. */
  datatype Slot = Empty | Filled(track: Track)

  function Positions(hs: seq<Hit>): (r: seq<Point>)
    ensures |r| == |hs| && forall k :: 0 <= k < |hs| ==> r[k] == hs[k].pos
  { seq(|hs|, k requires 0 <= k < |hs| => hs[k].pos) }

  function Charges(hs: seq<Hit>): (r: seq<real>)
    ensures |r| == |hs| && forall k :: 0 <= k < |hs| ==> r[k] == hs[k].q
  { seq(|hs|, k requires 0 <= k < |hs| => hs[k].q) }

  function Times(hs: seq<Hit>): (r: seq<int>)
    ensures |r| == |hs| && forall k :: 0 <= k < |hs| ==> r[k] == hs[k].ts
  { seq(|hs|, k requires 0 <= k < |hs| => hs[k].ts) }

  /** `xyz - centroid`, the points handed to the principal-axis fit. */
  function Centered(pts: seq<Point>, c: Point): (r: seq<Point>)
    ensures |r| == |pts| && forall k :: 0 <= k < |pts| ==> r[k] == Sub(pts[k], c)
  { seq(|pts|, k requires 0 <= k < |pts| => Sub(pts[k], c)) }

  /** Per event, one hit row, one label row and one mask row of equal width,
      and one t0 per event. */
  predicate Shapes(hits: seq<seq<Hit>>, t0: seq<int>, labels: seq<seq<int>>, valid: seq<seq<bool>>)
  {
    && |hits| == |t0| == |labels| == |valid|
    && forall i :: 0 <= i < |hits| ==> |hits[i]| == |labels[i]| == |valid[i]|
  }

  /** The labels are -1 (no track) or a track id, as the cluster finder leaves them. */
  predicate Labelled(labels: seq<seq<int>>)
  {
    forall i, k :: 0 <= i < |labels| && 0 <= k < |labels[i]| ==> labels[i][k] >= -1
  }

  /** Largest label among the unmasked hits of one event, if there is one. */
  function RowMax(ls: seq<int>, vs: seq<bool>): (r: Option<int>)
    requires |ls| == |vs|
    ensures r.None? <==> forall k :: 0 <= k < |ls| ==> !vs[k]
    ensures r.Some? ==> forall k :: 0 <= k < |ls| && vs[k] ==> ls[k] <= r.value
    ensures r.Some? ==> exists k :: 0 <= k < |ls| && vs[k] && ls[k] == r.value
  {
    if |ls| == 0 then None
    else
      var rest := RowMax(ls[1..], vs[1..]);
      assert forall k :: 1 <= k < |ls| ==> ls[k] == ls[1..][k - 1] && vs[k] == vs[1..][k - 1];
      if !vs[0] then rest
      else if rest.None? || ls[0] >= rest.value then Some(ls[0])
      else rest
  }

  /** Largest label among the unmasked hits of the batch (`track_ids.max()`
      of the masked array), if there is an unmasked hit. */
  function TableMax(labels: seq<seq<int>>, valid: seq<seq<bool>>): (r: Option<int>)
    requires |labels| == |valid| && forall i :: 0 <= i < |labels| ==> |labels[i]| == |valid[i]|
    ensures r.None? <==> forall i, k :: 0 <= i < |labels| && 0 <= k < |labels[i]| ==> !valid[i][k]
    ensures r.Some? ==>
              forall i, k :: 0 <= i < |labels| && 0 <= k < |labels[i]| && valid[i][k] ==> labels[i][k] <= r.value
    ensures r.Some? ==>
              exists i, k :: 0 <= i < |labels| && 0 <= k < |labels[i]| && valid[i][k] && labels[i][k] == r.value
  {
    if |labels| == 0 then None
    else
      var here := RowMax(labels[0], valid[0]);
      var rest := TableMax(labels[1..], valid[1..]);
      assert forall i :: 1 <= i < |labels| ==> labels[i] == labels[1..][i - 1] && valid[i] == valid[1..][i - 1];
      if here.None? then rest
      else if rest.None? || here.value >= rest.value then here
      else rest
  }

  /** `n_tracks` of `calc_tracks`: one more than the largest unmasked label
      when some hit is unmasked, and 1 when every hit is masked.  It is 0
      when every unmasked hit is unlabelled. */
  function SlotCount(labels: seq<seq<int>>, valid: seq<seq<bool>>): (n: nat)
    requires |labels| == |valid| && forall i :: 0 <= i < |labels| ==> |labels[i]| == |valid[i]|
    requires Labelled(labels)
    ensures (exists i, k :: 0 <= i < |labels| && 0 <= k < |labels[i]| && valid[i][k]) ==>
              && (forall i, k :: 0 <= i < |labels| && 0 <= k < |labels[i]| && valid[i][k] ==> labels[i][k] < n)
              && (exists i, k :: 0 <= i < |labels| && 0 <= k < |labels[i]| && valid[i][k] && labels[i][k] == n - 1)
    ensures (forall i, k :: 0 <= i < |labels| && 0 <= k < |labels[i]| ==> !valid[i][k]) ==> n == 1
  {
    match TableMax(labels, valid)
    case None => 1
    case Some(top) => top + 1
  }

  /** The hits of one event that belong to slot `j`:
      `(track_ids[i] == j) & ~track_ids.mask[i]`. */
  function SlotMembers(ls: seq<int>, vs: seq<bool>, j: int): (m: seq<bool>)
    requires |ls| == |vs|
    ensures |m| == |ls|
    ensures forall k :: 0 <= k < |ls| ==> (m[k] <==> ls[k] == j && vs[k])
  {
    seq(|ls|, k requires 0 <= k < |ls| => ls[k] == j && vs[k])
  }

  /** The record of a slot with member hits `m` (at least one): PCA centroid
      and axis, the projected end points, the z = 0 crossing, and the
      aggregates of the members.  Both `start` and `end` carry `r_min`. */
  function MakeTrack(axisFit: seq<Point> -> Point, hs: seq<Hit>, t0: int, m: seq<bool>): Track
    requires |hs| == |m| && Count(m) > 0
  {
    var members := Select(hs, m);
    var pts := Positions(members);
    var centroid := Centroid(pts);
    var axis := axisFit(Centered(pts, centroid));
    var (rMin, rMax) := ProjectedLimits(centroid, axis, pts);
    var (xp, yp) := Xyp(axis, centroid);
    var tsStart := MinInt(Times(members));
    var tsEnd := MaxInt(Times(members));
    Track(xp, yp, Count(m), SumOf(Charges(members)), tsStart, tsEnd,
          Mark(rMin, tsStart - t0), Mark(rMin, tsEnd - t0))
  }

  /** A record builder for a slot's member hits: defined on every non-empty
      member set. */
  ghost predicate Builds(build: (seq<Hit>, seq<bool>) --> Track)
  {
    forall hs: seq<Hit>, m: seq<bool> :: |hs| == |m| && Count(m) > 0 ==> build.requires(hs, m)
  }

  /** The record builder of `calc_tracks` for an event with t0 `t0`. */
  function TrackBuilder(axisFit: seq<Point> -> Point, t0: int): (build: (seq<Hit>, seq<bool>) --> Track)
    ensures Builds(build)
  {
    (hs: seq<Hit>, m: seq<bool>) requires |hs| == |m| && Count(m) > 0 => MakeTrack(axisFit, hs, t0, m)
  }

  /** Slot `j` of one event with record builder `build`: a track when at
      least two hits belong to it, masked otherwise. */
  function SlotWith(build: (seq<Hit>, seq<bool>) --> Track, hs: seq<Hit>, ls: seq<int>, vs: seq<bool>, j: int): Slot
    requires |hs| == |ls| == |vs| && Builds(build)
  {
    var m := SlotMembers(ls, vs, j);
    if Count(m) < 2 then Empty else Filled(build(hs, m))
  }

  /** Slot `j` of one event. */
  function SlotOf(axisFit: seq<Point> -> Point, hs: seq<Hit>, t0: int, ls: seq<int>, vs: seq<bool>, j: int): Slot
    requires |hs| == |ls| == |vs|
  {
    SlotWith(TrackBuilder(axisFit, t0), hs, ls, vs, j)
  }

  /** The time range of a set of member hits: it bounds every member's time
      stamp and both ends are the time stamp of some member. */
  lemma MemberTimes(hs: seq<Hit>, m: seq<bool>)
    requires |hs| == |m| && Count(m) > 0
    ensures var times := Times(Select(hs, m));
            && (forall k :: 0 <= k < |hs| && m[k] ==> MinInt(times) <= hs[k].ts <= MaxInt(times))
            && (exists k :: 0 <= k < |hs| && m[k] && hs[k].ts == MinInt(times))
            && (exists k :: 0 <= k < |hs| && m[k] && hs[k].ts == MaxInt(times))
  {
    var members := Select(hs, m);
    var times := Times(members);
    SelectMembership(hs, m);
    forall k | 0 <= k < |hs| && m[k] ensures MinInt(times) <= hs[k].ts <= MaxInt(times) {
      var p :| 0 <= p < |members| && members[p] == hs[k];
      assert times[p] == hs[k].ts;
    }
    var p :| 0 <= p < |times| && times[p] == MinInt(times);
    assert members[p] in members;
    var q :| 0 <= q < |times| && times[q] == MaxInt(times);
    assert members[q] in members;
  }

  /** The fields of a track record, given its members. */
  lemma MakeTrackFacts(axisFit: seq<Point> -> Point, hs: seq<Hit>, t0: int, m: seq<bool>)
    requires |hs| == |m| && Count(m) > 0
    ensures var t := MakeTrack(axisFit, hs, t0, m);
            var members := Select(hs, m);
            && t.nhit == Count(m)
            && t.q == SumOf(Charges(members))
            && t.tsStart == MinInt(Times(members))
            && t.tsEnd == MaxInt(Times(members))
            && t.start.at == t.end.at
            && InBox(t.start.at, BoxMin(Positions(members)), BoxMax(Positions(members)))
            && t.start.dt == t.tsStart - t0
            && t.end.dt == t.tsEnd - t0
  {
  }

  /** What a filled slot records about the hits that carry its label: their
      number (at least two), their total charge, their earliest and latest
      time, and one spatial point, shared by `start` and `end`, inside the
      members' bounding box. */
  lemma ValidSlotFacts(axisFit: seq<Point> -> Point, hs: seq<Hit>, t0: int, ls: seq<int>, vs: seq<bool>, j: int)
    requires |hs| == |ls| == |vs|
    ensures var m := SlotMembers(ls, vs, j);
            SlotOf(axisFit, hs, t0, ls, vs, j).Filled? <==> Count(m) >= 2
    ensures var m := SlotMembers(ls, vs, j);
            var slot := SlotOf(axisFit, hs, t0, ls, vs, j);
            slot.Filled? ==>
              var t := slot.track;
              && t.nhit == Count(m)
              && t.q == SumOf(Charges(Select(hs, m)))
              && (forall k :: 0 <= k < |hs| && m[k] ==> t.tsStart <= hs[k].ts <= t.tsEnd)
              && (exists k :: 0 <= k < |hs| && m[k] && hs[k].ts == t.tsStart)
              && (exists k :: 0 <= k < |hs| && m[k] && hs[k].ts == t.tsEnd)
              && t.start.at == t.end.at
              && InBox(t.start.at, BoxMin(Positions(Select(hs, m))), BoxMax(Positions(Select(hs, m))))
              && t.start.dt == t.tsStart - t0
              && t.end.dt == t.tsEnd - t0
  {
    var m := SlotMembers(ls, vs, j);
    if Count(m) >= 2 {
      MakeTrackFacts(axisFit, hs, t0, m);
      MemberTimes(hs, m);
    }
  }

  /** On the labels the cluster finder leaves for an event (masked hits
      unlabelled, labels below the number of accepted tracks, two hits or
      more per accepted id), slot `j` is filled exactly when `j` is one of
      the accepted track ids. */
  lemma {:induction false} SlotValidIffAccepted(ls: seq<int>, vs: seq<bool>, count: nat, j: int)
    requires |ls| == |vs|
    requires forall k :: 0 <= k < |ls| && !vs[k] ==> ls[k] == -1
    requires forall k :: 0 <= k < |ls| ==> -1 <= ls[k] < count
    requires forall id :: 0 <= id < count ==> CountLabel(ls, id) >= 2
    requires j >= 0
    ensures Count(SlotMembers(ls, vs, j)) >= 2 <==> j < count
  {
    assert SlotMembers(ls, vs, j) == Members(ls, j);
    if j < count {
      assert CountLabel(ls, j) >= 2;
    } else {
      CountZero(Members(ls, j));
    }
  }

  /** Slot `j` of an event whose labels come from the round loop is filled
      exactly when `j` is one of the event's accepted track ids. */
  lemma TrackedSlots(dbscan: seq<Point> -> seq<int>, ransac: seq<Point> -> seq<bool>, minSamples: int,
                     xyz: seq<Point>, valid: seq<bool>, maxRounds: nat, labels: seq<int>, count: nat,
                     axisFit: seq<Point> -> Point, hs: seq<Hit>, t0: int, j: int)
    requires ClusterOracle(dbscan) && LineOracle(ransac) && |xyz| == |valid| == |hs|
    requires EventTracked(dbscan, ransac, minSamples, xyz, valid, maxRounds, labels, count)
    requires j >= 0
    ensures SlotOf(axisFit, hs, t0, labels, valid, j).Filled? <==> j < count
  {
    EventOutcomeFacts(valid, dbscan, ransac, minSamples, xyz, maxRounds);
    SlotValidIffAccepted(labels, valid, count, j);
  }

  /** Every accepted track of an event gets a column: the event's number of
      accepted tracks never exceeds `n_tracks`. */
  lemma AcceptedFitSlots(labels: seq<seq<int>>, valid: seq<seq<bool>>, counts: seq<nat>, i: nat)
    requires |labels| == |valid| && forall e :: 0 <= e < |labels| ==> |labels[e]| == |valid[e]|
    requires Labelled(labels) && |counts| == |labels| && i < |labels|
    requires forall k :: 0 <= k < |labels[i]| && !valid[i][k] ==> labels[i][k] == -1
    requires forall id :: 0 <= id < counts[i] ==> CountLabel(labels[i], id) >= 2
    ensures counts[i] <= SlotCount(labels, valid)
  {
    if counts[i] > 0 {
      var top := counts[i] - 1;
      var m := Members(labels[i], top);
      assert CountLabel(labels[i], top) >= 2;
      if forall k :: 0 <= k < |m| ==> !m[k] {
        CountZero(m);
        assert false;
      }
      var k :| 0 <= k < |m| && m[k];
      assert valid[i][k] && labels[i][k] == top;
    }
  }

  /** The inner loop of `calc_tracks` for event `i`: every slot of row `i`,
      masked until then, becomes that event's slot; the other rows are kept. */
  method FillRow(build: (seq<Hit>, seq<bool>) --> Track, hs: seq<Hit>, ls: seq<int>, vs: seq<bool>,
                 tracks: array2<Slot>, i: nat)
    requires |hs| == |ls| == |vs| && Builds(build) && i < tracks.Length0
    requires forall c :: 0 <= c < tracks.Length1 ==> tracks[i, c] == Empty
    modifies tracks
    ensures forall e, c :: 0 <= e < tracks.Length0 && 0 <= c < tracks.Length1 ==>
              tracks[e, c] == if e == i then SlotWith(build, hs, ls, vs, c) else old(tracks[e, c])
  {
    for j := 0 to tracks.Length1
      invariant forall c :: 0 <= c < j ==> tracks[i, c] == SlotWith(build, hs, ls, vs, c)
      invariant forall c :: j <= c < tracks.Length1 ==> tracks[i, c] == Empty
      invariant forall e, c :: 0 <= e < tracks.Length0 && e != i && 0 <= c < tracks.Length1 ==>
                  tracks[e, c] == old(tracks[e, c])
    {
      var mask := SlotMembers(ls, vs, j);
      if Count(mask) < 2 {
        continue;
      }
      assert SlotWith(build, hs, ls, vs, j) == Filled(build(hs, mask));
      tracks[i, j] := Filled(build(hs, mask));
    }
  }

  /** `calc_tracks`: fills the event x slot table in a double loop; slot
      (i, j) is the track of the hits of event i labelled j, or masked. */
  method CalcTracks(axisFit: seq<Point> -> Point, hits: seq<seq<Hit>>, t0: seq<int>,
                    labels: seq<seq<int>>, valid: seq<seq<bool>>)
    returns (tracks: array2<Slot>)
    requires Shapes(hits, t0, labels, valid) && Labelled(labels)
    ensures fresh(tracks)
    ensures tracks.Length0 == |t0| && tracks.Length1 == SlotCount(labels, valid)
    ensures forall i, j :: 0 <= i < tracks.Length0 && 0 <= j < tracks.Length1 ==>
              tracks[i, j] == SlotOf(axisFit, hits[i], t0[i], labels[i], valid[i], j)
  {
    var n := SlotCount(labels, valid);
    tracks := new Slot[|t0|, n]((_, _) => Empty);
    for i := 0 to |t0|
      invariant forall e, j :: 0 <= e < |t0| && 0 <= j < n ==>
                  tracks[e, j] == if e < i then SlotOf(axisFit, hits[e], t0[e], labels[e], valid[e], j) else Empty
    {
      FillRow(TrackBuilder(axisFit, t0[i]), hits[i], labels[i], valid[i], tracks, i);
    }
  }
}

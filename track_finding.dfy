/** The cluster finder of the tracklet reconstruction (`find_tracks` and
    `_do_dbscan` in h5flow_modules/combined/tracklet_reco.py).

    Per event, a mask of still-eligible hits starts as the valid hits and a
    label array starts at -1.  Each round clusters the eligible hits; every
    non-noise cluster with more than `ransac_min_samples` hits is given to a
    robust line fit, and when at least two of its hits are inliers they get
    the next local track id and leave the eligible set.  The round loop stops
    when a round's clustering is all noise or no eligible hit is left.

    DBSCAN and RANSAC are foreign library calls; they appear here as function
    parameters of which only the shape of the output is known. */
module TrackFinding {
  import opened Seqs
  import opened Geometry

  /** DBSCAN's labels: one per input point, each -1 (noise) or a cluster number. */
  ghost predicate ClusterOracle(dbscan: seq<Point> -> seq<int>)
  {
    forall pts :: |dbscan(pts)| == |pts| && forall k :: 0 <= k < |pts| ==> dbscan(pts)[k] >= -1
  }

  /** RANSAC's inlier flags: one per input point. */
  ghost predicate LineOracle(ransac: seq<Point> -> seq<bool>)
  {
    forall pts :: |ransac(pts)| == |pts|
  }

  /** `_do_dbscan`: clusters the eligible hits only; every other hit gets -1,
      so an ineligible hit can never be part of a cluster. */
  function DoDbscan(dbscan: seq<Point> -> seq<int>, xyz: seq<Point>, elig: seq<bool>): (lab: seq<int>)
    requires |xyz| == |elig| && ClusterOracle(dbscan)
    ensures |lab| == |xyz|
    ensures forall k :: 0 <= k < |lab| ==> lab[k] >= -1
    ensures forall k :: 0 <= k < |lab| && !elig[k] ==> lab[k] == -1
  {
    var found := dbscan(Select(xyz, elig));
    var lab := Scatter(elig, found, -1);
    assert forall k :: 0 <= k < |lab| && elig[k] ==> lab[k] >= -1 by {
      forall k | 0 <= k < |lab| && elig[k] ensures lab[k] >= -1 {
        var j :| 0 <= j < |found| && found[j] == lab[k];
      }
    }
    lab
  }

  /** The hits that carry label `c` (`track_ids == id_`). */
  function Members(lab: seq<int>, c: int): (m: seq<bool>)
    ensures |m| == |lab|
    ensures forall k :: 0 <= k < |lab| ==> (m[k] <==> lab[k] == c)
  {
    seq(|lab|, k requires 0 <= k < |lab| => lab[k] == c)
  }

  /** How many hits carry label `id`. */
  function CountLabel(labels: seq<int>, id: int): nat
  {
    Count(Members(labels, id))
  }

  predicate AllNoise(lab: seq<int>)
  {
    forall k :: 0 <= k < |lab| ==> lab[k] == -1
  }

  predicate Any(m: seq<bool>)
  {
    exists k :: 0 <= k < |m| && m[k]
  }

  /** Exclusive upper bound of the labels, tight: `np.unique` visits the
      labels that occur in ascending order, and 0 .. bound - 1 covers them. */
  function LabelBound(lab: seq<int>): (r: nat)
    ensures forall k :: 0 <= k < |lab| ==> lab[k] < r
    ensures r > 0 ==> exists k :: 0 <= k < |lab| && lab[k] == r - 1
  {
    if |lab| == 0 then 0
    else
      var rest := LabelBound(lab[1..]);
      assert forall k :: 1 <= k < |lab| ==> lab[k] == lab[1..][k - 1];
      if lab[0] + 1 > rest then lab[0] + 1 else rest
  }

  /** Hit `k` is in a non-noise cluster with more than `minSamples` members
      and is one of that cluster's line inliers, of which there are at least two. */
  ghost predicate Justified(ransac: seq<Point> -> seq<bool>, minSamples: int, xyz: seq<Point>,
                            lab: seq<int>, k: int)
    requires LineOracle(ransac) && |lab| == |xyz| && 0 <= k < |lab|
  {
    && lab[k] >= 0
    && Count(Members(lab, lab[k])) > minSamples
    && Inliers(ransac, xyz, Members(lab, lab[k]))[k]
    && Count(Inliers(ransac, xyz, Members(lab, lab[k]))) >= 2
  }

  /** The per-event state of `find_tracks`: row `i` of `iter_mask`, row `i` of
      `track_id`, and the number of accepted tracks (`current_track_id + 1`). */
  datatype EventState = EventState(elig: seq<bool>, labels: seq<int>, count: nat)

  predicate Shaped(xyz: seq<Point>, s: EventState)
  {
    |s.elig| == |xyz| && |s.labels| == |xyz|
  }

  /** The state before the first round: the valid hits are eligible, no hit is labelled. */
  function Initial(valid: seq<bool>): EventState
  {
    EventState(valid, seq(|valid|, _ => -1), 0)
  }

  /** The members of a cluster that the line fit keeps (`mask[mask] = inliers`). */
  function Inliers(ransac: seq<Point> -> seq<bool>, xyz: seq<Point>, m: seq<bool>): (acc: seq<bool>)
    requires |xyz| == |m| && LineOracle(ransac)
    ensures |acc| == |m|
    ensures forall k :: 0 <= k < |m| && acc[k] ==> m[k]
  {
    Scatter(m, ransac(Select(xyz, m)), false)
  }

  /** `track_id[i, acc] = id`. */
  function LabelWith(labels: seq<int>, acc: seq<bool>, id: int): (r: seq<int>)
    requires |labels| == |acc|
    ensures |r| == |labels|
    ensures forall k :: 0 <= k < |acc| ==> r[k] == if acc[k] then id else labels[k]
  {
    seq(|labels|, k requires 0 <= k < |labels| => if acc[k] then id else labels[k])
  }

  /** The body of the inner loop for cluster `c` of the current round. */
  function ClusterStep(ransac: seq<Point> -> seq<bool>, minSamples: int, xyz: seq<Point>,
                       lab: seq<int>, s: EventState, c: int): (r: EventState)
    requires LineOracle(ransac) && |lab| == |xyz| && Shaped(xyz, s)
    ensures Shaped(xyz, r)
  {
    var m := Members(lab, c);
    if Count(m) <= minSamples then s
    else
      var acc := Inliers(ransac, xyz, m);
      if Count(acc) < 2 then s
      else EventState(AndNot(s.elig, acc), LabelWith(s.labels, acc, s.count), s.count + 1)
  }

  /** The inner loop as a fold: `step(x, j)` visits cluster `j`, for
      j = 0 .. c - 1 in ascending order. */
  ghost function Fold(step: (EventState, nat) -> EventState, s0: EventState, c: nat): EventState
    decreases c
  {
    if c == 0 then s0 else step(Fold(step, s0, c - 1), c - 1)
  }

  /** A property that each visit carries from cluster `j` to `j + 1` holds
      after the whole fold. */
  lemma {:induction false} FoldKeeps(step: (EventState, nat) -> EventState, p: (EventState, nat) -> bool,
                                     s0: EventState, c: nat)
    requires p(s0, 0)
    requires forall x, j :: 0 <= j < c && p(x, j) ==> p(step(x, j), j + 1)
    ensures p(Fold(step, s0, c), c)
    decreases c
  {
    if c > 0 {
      FoldKeeps(step, p, s0, c - 1);
    }
  }

  /** The visit of cluster `j` on a state of the right shape. */
  ghost function StepOf(ransac: seq<Point> -> seq<bool>, minSamples: int, xyz: seq<Point>, lab: seq<int>)
    : (EventState, nat) -> EventState
    requires LineOracle(ransac) && |lab| == |xyz|
  {
    (x: EventState, j: nat) => if Shaped(xyz, x) then ClusterStep(ransac, minSamples, xyz, lab, x, j) else x
  }

  /** The inner loop over clusters 0 .. c - 1 (`for id_ in np.unique(...)`). */
  ghost function Clusters(ransac: seq<Point> -> seq<bool>, minSamples: int, xyz: seq<Point>,
                          lab: seq<int>, s0: EventState, c: nat): EventState
    requires LineOracle(ransac) && |lab| == |xyz|
  {
    Fold(StepOf(ransac, minSamples, xyz, lab), s0, c)
  }

  /** One round of the `while True` loop: cluster the eligible hits, then
      visit every cluster. */
  ghost function Round(dbscan: seq<Point> -> seq<int>, ransac: seq<Point> -> seq<bool>, minSamples: int,
                       xyz: seq<Point>, s: EventState): EventState
    requires ClusterOracle(dbscan) && LineOracle(ransac) && Shaped(xyz, s)
  {
    var lab := DoDbscan(dbscan, xyz, s.elig);
    Clusters(ransac, minSamples, xyz, lab, s, LabelBound(lab))
  }

  /** Where the round loop ended: the state, and whether the loop's own exit
      test fired (false: the round budget ran out first). */
  datatype Outcome = Outcome(state: EventState, settled: bool)

  /** A round loop with a budget of `fuel` rounds: `round` computes the next
      state and `stop(before, after)` is the exit test after a round. */
  ghost function Loop(round: EventState -> EventState, stop: (EventState, EventState) -> bool,
                      s: EventState, fuel: nat): Outcome
    decreases fuel
  {
    if fuel == 0 then Outcome(s, false)
    else
      var next := round(s);
      if stop(s, next) then Outcome(next, true)
      else Loop(round, stop, next, fuel - 1)
  }

  /** A property every round preserves holds where the loop ends; and if
      every round that fires the exit test reaches a fixed point of the
      round, the loop ends, when its test fires, at a state a further round
      leaves unchanged. */
  lemma {:induction false} LoopFacts(round: EventState -> EventState, stop: (EventState, EventState) -> bool,
                                     p: EventState -> bool, s: EventState, fuel: nat)
    requires p(s)
    requires forall x :: p(x) ==> p(round(x))
    requires forall x :: p(x) && stop(x, round(x)) ==> round(round(x)) == round(x)
    ensures var o := Loop(round, stop, s, fuel);
            p(o.state) && (o.settled ==> round(o.state) == o.state)
    decreases fuel
  {
    if fuel > 0 && !stop(s, round(s)) {
      LoopFacts(round, stop, p, round(s), fuel - 1);
    }
  }

  /** A state the round leaves as it is without firing the exit test is never
      left: the loop spends its whole budget and ends there unsettled. */
  lemma {:induction false} LoopStuck(round: EventState -> EventState, stop: (EventState, EventState) -> bool,
                                     s: EventState, fuel: nat)
    requires round(s) == s && !stop(s, s)
    ensures Loop(round, stop, s, fuel) == Outcome(s, false)
    decreases fuel
  {
    if fuel > 0 {
      LoopStuck(round, stop, s, fuel - 1);
    }
  }

  /** The round of this event, on states of the right shape. */
  ghost function RoundOf(dbscan: seq<Point> -> seq<int>, ransac: seq<Point> -> seq<bool>, minSamples: int,
                         xyz: seq<Point>): EventState -> EventState
    requires ClusterOracle(dbscan) && LineOracle(ransac)
  {
    x => if Shaped(xyz, x) then Round(dbscan, ransac, minSamples, xyz, x) else x
  }

  /** The exit test of the round loop (`if np.all(track_ids == -1) or not
      np.any(iter_mask): break`): the round's clustering was all noise, or no
      eligible hit is left after it. */
  ghost function StopOf(dbscan: seq<Point> -> seq<int>, xyz: seq<Point>): (EventState, EventState) -> bool
    requires ClusterOracle(dbscan)
  {
    (x: EventState, next: EventState) =>
      |x.elig| == |xyz| && (AllNoise(DoDbscan(dbscan, xyz, x.elig)) || !Any(next.elig))
  }

  /** The round loop of one event with a budget of `fuel` rounds. */
  ghost function Iterate(dbscan: seq<Point> -> seq<int>, ransac: seq<Point> -> seq<bool>, minSamples: int,
                         xyz: seq<Point>, s: EventState, fuel: nat): Outcome
    requires ClusterOracle(dbscan) && LineOracle(ransac)
  {
    Loop(RoundOf(dbscan, ransac, minSamples, xyz), StopOf(dbscan, xyz), s, fuel)
  }

  /** The invariant of the per-event state: a hit is eligible exactly when it
      is valid and unlabelled, masked hits are never labelled, every label is
      -1 or a number already handed out, and each handed-out id labels at
      least two hits. */
  ghost predicate Inv(valid: seq<bool>, s: EventState)
  {
    && |s.elig| == |valid| && |s.labels| == |valid|
    && (forall k :: 0 <= k < |valid| ==> (s.elig[k] <==> valid[k] && s.labels[k] == -1))
    && (forall k :: 0 <= k < |valid| && !valid[k] ==> s.labels[k] == -1)
    && (forall k :: 0 <= k < |valid| ==> -1 <= s.labels[k] < s.count)
    && (forall id :: 0 <= id < s.count ==> CountLabel(s.labels, id) >= 2)
  }

  /** The eligibility that the invariant forces: valid and unlabelled. */
  function Eligible(valid: seq<bool>, labels: seq<int>): (e: seq<bool>)
    requires |valid| == |labels|
    ensures |e| == |valid|
    ensures forall k :: 0 <= k < |valid| ==> (e[k] <==> valid[k] && labels[k] == -1)
  {
    seq(|valid|, k requires 0 <= k < |valid| => valid[k] && labels[k] == -1)
  }

  lemma InitialInv(valid: seq<bool>)
    ensures Inv(valid, Initial(valid))
  {
  }

  /** Under the invariant the eligibility mask is determined by the labels. */
  lemma InvDeterminesElig(valid: seq<bool>, s: EventState)
    requires Inv(valid, s)
    ensures s == EventState(Eligible(valid, s.labels), s.labels, s.count)
  {
    assert s.elig == Eligible(valid, s.labels);
  }

  /** A label that no hit carries is skipped whether or not RANSAC is called:
      visiting 0 .. bound - 1 does what visiting `np.unique(track_ids)` does. */
  lemma AbsentClusterIsNoOp(ransac: seq<Point> -> seq<bool>, minSamples: int, xyz: seq<Point>,
                            lab: seq<int>, s: EventState, c: int)
    requires LineOracle(ransac) && |lab| == |xyz| && Shaped(xyz, s)
    requires forall k :: 0 <= k < |lab| ==> lab[k] != c
    ensures ClusterStep(ransac, minSamples, xyz, lab, s, c) == s
  {
    var m := Members(lab, c);
    CountZero(m);
    var acc := Inliers(ransac, xyz, m);
    CountZero(acc);
  }

  /** One cluster step keeps the invariant; when it accepts, the eligible set
      shrinks by at least two; otherwise nothing changes. */
  lemma {:induction false} ClusterStepFacts(valid: seq<bool>, ransac: seq<Point> -> seq<bool>, minSamples: int,
                                            xyz: seq<Point>, lab: seq<int>, s: EventState, c: int)
    requires LineOracle(ransac) && |lab| == |xyz| == |valid| && Inv(valid, s)
    requires forall k :: 0 <= k < |lab| && lab[k] == c ==> s.elig[k]
    ensures var r := ClusterStep(ransac, minSamples, xyz, lab, s, c);
      && Inv(valid, r)
      && (r.count == s.count || r.count == s.count + 1)
      && (r.count == s.count ==> r == s)
      && (r.count == s.count + 1 ==> Count(r.elig) + 2 <= Count(s.elig))
  {
    var m := Members(lab, c);
    if Count(m) > minSamples {
      var acc := Inliers(ransac, xyz, m);
      if Count(acc) >= 2 {
        var r := ClusterStep(ransac, minSamples, xyz, lab, s, c);
        assert r == EventState(AndNot(s.elig, acc), LabelWith(s.labels, acc, s.count), s.count + 1);
        assert forall k :: 0 <= k < |acc| && acc[k] ==> s.elig[k] && s.labels[k] == -1;
        CountAndNot(s.elig, acc);
        forall id | 0 <= id < r.count ensures CountLabel(r.labels, id) >= 2 {
          if id == s.count {
            forall k | 0 <= k < |acc| ensures Members(r.labels, id)[k] == acc[k] {
              assert r.labels[k] == if acc[k] then s.count else s.labels[k];
            }
            assert Members(r.labels, id) == acc;
          } else {
            forall k | 0 <= k < |acc| ensures Members(r.labels, id)[k] == Members(s.labels, id)[k] {
              assert r.labels[k] == if acc[k] then s.count else s.labels[k];
            }
            assert Members(r.labels, id) == Members(s.labels, id);
            assert CountLabel(s.labels, id) >= 2;
          }
        }
      }
    }
  }

  /** A cluster step only touches the hits of cluster `c`. */
  lemma StepTouchesOnly(ransac: seq<Point> -> seq<bool>, minSamples: int, xyz: seq<Point>,
                        lab: seq<int>, s: EventState, c: int, k: int)
    requires LineOracle(ransac) && |lab| == |xyz| && Shaped(xyz, s)
    requires 0 <= k < |lab| && lab[k] != c
    ensures ClusterStep(ransac, minSamples, xyz, lab, s, c).elig[k] == s.elig[k]
    ensures ClusterStep(ransac, minSamples, xyz, lab, s, c).labels[k] == s.labels[k]
  {
    var m := Members(lab, c);
    if Count(m) > minSamples {
      var acc := Inliers(ransac, xyz, m);
      assert !acc[k];
    }
  }

  /** A hit whose label a cluster step changes is an inlier of cluster `c`,
      which has more than `minSamples` members and at least two inliers, and
      it receives the next id. */
  lemma StepJustified(ransac: seq<Point> -> seq<bool>, minSamples: int, xyz: seq<Point>,
                      lab: seq<int>, s: EventState, c: nat, k: int)
    requires LineOracle(ransac) && |lab| == |xyz| && Shaped(xyz, s)
    requires 0 <= k < |lab|
    requires ClusterStep(ransac, minSamples, xyz, lab, s, c).labels[k] != s.labels[k]
    ensures Justified(ransac, minSamples, xyz, lab, k)
    ensures lab[k] == c && ClusterStep(ransac, minSamples, xyz, lab, s, c).labels[k] == s.count
    ensures ClusterStep(ransac, minSamples, xyz, lab, s, c).count == s.count + 1
  {
    var m := Members(lab, c);
    var acc := Inliers(ransac, xyz, m);
    assert acc[k] && m[k];
  }

  /** What holds after the clusters below `j` of a round that started in `s0`:
      the invariant; the ids handed out are `s0.count ..`, none when nothing
      changed, each removing at least two hits from the eligible set; the hits
      of the clusters from `j` on and of noise are untouched; and every hit
      whose label changed is justified by its cluster below `j`. */
  ghost predicate ClusterLoopInv(valid: seq<bool>, ransac: seq<Point> -> seq<bool>, minSamples: int,
                                 xyz: seq<Point>, lab: seq<int>, s0: EventState, x: EventState, j: int)
    requires LineOracle(ransac) && |lab| == |xyz| == |valid| && Shaped(xyz, s0)
  {
    && Inv(valid, x)
    && s0.count <= x.count
    && (x.count == s0.count ==> x == s0)
    && Count(x.elig) + 2 * (x.count - s0.count) <= Count(s0.elig)
    && (forall k :: 0 <= k < |lab| && (lab[k] < 0 || lab[k] >= j) ==>
          x.elig[k] == s0.elig[k] && x.labels[k] == s0.labels[k])
    && (forall k :: 0 <= k < |lab| && x.labels[k] != s0.labels[k] ==>
          lab[k] < j && Justified(ransac, minSamples, xyz, lab, k) && s0.count <= x.labels[k] < x.count)
  }

  /** Visiting cluster `j` keeps the invariant and the accounting. */
  lemma KeepsInv(valid: seq<bool>, ransac: seq<Point> -> seq<bool>, minSamples: int,
                 xyz: seq<Point>, lab: seq<int>, s0: EventState, x: EventState, j: nat)
    requires LineOracle(ransac) && |lab| == |xyz| == |valid| && Inv(valid, s0)
    requires forall k :: 0 <= k < |lab| && lab[k] >= 0 ==> s0.elig[k]
    requires ClusterLoopInv(valid, ransac, minSamples, xyz, lab, s0, x, j)
    ensures var r := ClusterStep(ransac, minSamples, xyz, lab, x, j);
      && Inv(valid, r)
      && x.count <= r.count
      && s0.count <= r.count
      && (r.count == s0.count ==> r == s0)
      && Count(r.elig) + 2 * (r.count - s0.count) <= Count(s0.elig)
  {
    forall k | 0 <= k < |lab| && lab[k] == j ensures x.elig[k] {
      assert x.elig[k] == s0.elig[k];
    }
    ClusterStepFacts(valid, ransac, minSamples, xyz, lab, x, j);
  }

  /** Visiting cluster `j` leaves the hits of the later clusters and of noise
      untouched, and every changed label justified. */
  lemma KeepsTouch(valid: seq<bool>, ransac: seq<Point> -> seq<bool>, minSamples: int,
                   xyz: seq<Point>, lab: seq<int>, s0: EventState, x: EventState, j: nat)
    requires LineOracle(ransac) && |lab| == |xyz| == |valid| && Shaped(xyz, s0)
    requires ClusterLoopInv(valid, ransac, minSamples, xyz, lab, s0, x, j)
    ensures var r := ClusterStep(ransac, minSamples, xyz, lab, x, j);
      && x.count <= r.count
      && (forall k :: 0 <= k < |lab| && (lab[k] < 0 || lab[k] >= j + 1) ==>
            r.elig[k] == s0.elig[k] && r.labels[k] == s0.labels[k])
      && (forall k :: 0 <= k < |lab| && r.labels[k] != s0.labels[k] ==>
            lab[k] < j + 1 && Justified(ransac, minSamples, xyz, lab, k) && s0.count <= r.labels[k] < r.count)
  {
    var r := ClusterStep(ransac, minSamples, xyz, lab, x, j);
    forall k | 0 <= k < |lab| && (lab[k] < 0 || lab[k] >= j + 1)
      ensures r.elig[k] == s0.elig[k] && r.labels[k] == s0.labels[k]
    {
      StepTouchesOnly(ransac, minSamples, xyz, lab, x, j, k);
    }
    forall k | 0 <= k < |lab| && r.labels[k] != s0.labels[k]
      ensures lab[k] < j + 1 && Justified(ransac, minSamples, xyz, lab, k) && s0.count <= r.labels[k] < r.count
    {
      if r.labels[k] != x.labels[k] {
        StepJustified(ransac, minSamples, xyz, lab, x, j, k);
      }
    }
  }

  /** The inner loop of a round that started in `s0`, where only eligible
      hits carry a cluster label, keeps `ClusterLoopInv` up to cluster `c`. */
  lemma ClustersFacts(valid: seq<bool>, ransac: seq<Point> -> seq<bool>, minSamples: int,
                      xyz: seq<Point>, lab: seq<int>, s0: EventState, c: nat)
    requires LineOracle(ransac) && |lab| == |xyz| == |valid| && Inv(valid, s0)
    requires forall k :: 0 <= k < |lab| && lab[k] >= 0 ==> s0.elig[k]
    ensures ClusterLoopInv(valid, ransac, minSamples, xyz, lab, s0, Clusters(ransac, minSamples, xyz, lab, s0, c), c)
  {
    var step := StepOf(ransac, minSamples, xyz, lab);
    var p := (x: EventState, j: nat) => ClusterLoopInv(valid, ransac, minSamples, xyz, lab, s0, x, j);
    forall x, j | 0 <= j < c && p(x, j) ensures p(step(x, j), j + 1) {
      KeepsInv(valid, ransac, minSamples, xyz, lab, s0, x, j);
      KeepsTouch(valid, ransac, minSamples, xyz, lab, s0, x, j);
    }
    FoldKeeps(step, p, s0, c);
  }

  /** A round keeps the invariant, never relabels a labelled hit, hands out
      only new ids, only to hits that passed the size and inlier tests of
      their cluster, and either accepts some cluster, removing at least two
      hits per accepted track from the eligible set, or changes nothing. */
  lemma RoundFacts(valid: seq<bool>, dbscan: seq<Point> -> seq<int>, ransac: seq<Point> -> seq<bool>,
                   minSamples: int, xyz: seq<Point>, s: EventState)
    requires ClusterOracle(dbscan) && LineOracle(ransac) && |xyz| == |valid| && Inv(valid, s)
    ensures var r := Round(dbscan, ransac, minSamples, xyz, s);
      && Inv(valid, r)
      && s.count <= r.count
      && (r.count == s.count ==> r == s)
      && Count(r.elig) + 2 * (r.count - s.count) <= Count(s.elig)
      && (forall k :: 0 <= k < |valid| && s.labels[k] != -1 ==> r.labels[k] == s.labels[k])
      && (forall k :: 0 <= k < |valid| && r.labels[k] != s.labels[k] ==>
            && s.count <= r.labels[k] < r.count
            && Justified(ransac, minSamples, xyz, DoDbscan(dbscan, xyz, s.elig), k))
  {
    var lab := DoDbscan(dbscan, xyz, s.elig);
    ClustersFacts(valid, ransac, minSamples, xyz, lab, s, LabelBound(lab));
    var r := Round(dbscan, ransac, minSamples, xyz, s);
    forall k | 0 <= k < |valid| && s.labels[k] != -1 ensures r.labels[k] == s.labels[k] {
      assert !s.elig[k] && lab[k] == -1;
    }
  }

  /** A round whose clustering is all noise, or that starts with no eligible
      hit, changes nothing. */
  lemma QuietRoundIsNoOp(dbscan: seq<Point> -> seq<int>, ransac: seq<Point> -> seq<bool>,
                         minSamples: int, xyz: seq<Point>, s: EventState)
    requires ClusterOracle(dbscan) && LineOracle(ransac) && Shaped(xyz, s)
    requires AllNoise(DoDbscan(dbscan, xyz, s.elig)) || !Any(s.elig)
    ensures Round(dbscan, ransac, minSamples, xyz, s) == s
  {
    var lab := DoDbscan(dbscan, xyz, s.elig);
    assert AllNoise(lab);
    assert LabelBound(lab) == 0;
  }

  /** `x` satisfies the invariant and still carries every label of `s`. */
  ghost predicate KeepsLabels(valid: seq<bool>, s: EventState, x: EventState)
  {
    && Inv(valid, x) && |s.labels| == |valid|
    && forall k :: 0 <= k < |valid| && s.labels[k] != -1 ==> x.labels[k] == s.labels[k]
  }

  /** Every round, as the loop applies it, keeps `KeepsLabels`. */
  lemma RoundsKeepLabels(valid: seq<bool>, dbscan: seq<Point> -> seq<int>,
                         ransac: seq<Point> -> seq<bool>, minSamples: int,
                         xyz: seq<Point>, s: EventState)
    requires ClusterOracle(dbscan) && LineOracle(ransac) && |xyz| == |valid|
    ensures var round := RoundOf(dbscan, ransac, minSamples, xyz);
            forall x :: KeepsLabels(valid, s, x) ==> KeepsLabels(valid, s, round(x))
  {
    forall x | KeepsLabels(valid, s, x)
      ensures KeepsLabels(valid, s, RoundOf(dbscan, ransac, minSamples, xyz)(x))
    {
      RoundFacts(valid, dbscan, ransac, minSamples, xyz, x);
    }
  }

  /** When the loop's exit test fires, the state it leaves is a fixed point
      of a round. */
  lemma StopsAreFixed(valid: seq<bool>, dbscan: seq<Point> -> seq<int>,
                      ransac: seq<Point> -> seq<bool>, minSamples: int, xyz: seq<Point>)
    requires ClusterOracle(dbscan) && LineOracle(ransac) && |xyz| == |valid|
    ensures var round := RoundOf(dbscan, ransac, minSamples, xyz);
            forall x :: Inv(valid, x) && StopOf(dbscan, xyz)(x, round(x)) ==> round(round(x)) == round(x)
  {
    var round := RoundOf(dbscan, ransac, minSamples, xyz);
    forall x | Inv(valid, x) && StopOf(dbscan, xyz)(x, round(x))
      ensures round(round(x)) == round(x)
    {
      RoundFacts(valid, dbscan, ransac, minSamples, xyz, x);
      if AllNoise(DoDbscan(dbscan, xyz, x.elig)) {
        QuietRoundIsNoOp(dbscan, ransac, minSamples, xyz, x);
      } else {
        QuietRoundIsNoOp(dbscan, ransac, minSamples, xyz, Round(dbscan, ransac, minSamples, xyz, x));
      }
    }
  }

  /** The round loop keeps the invariant and never overwrites a label, and
      when it stops by its own test the state it leaves is a fixed point of a
      round. */
  lemma IterateFacts(valid: seq<bool>, dbscan: seq<Point> -> seq<int>,
                     ransac: seq<Point> -> seq<bool>, minSamples: int,
                     xyz: seq<Point>, s: EventState, fuel: nat)
    requires ClusterOracle(dbscan) && LineOracle(ransac) && |xyz| == |valid| && Inv(valid, s)
    ensures var o := Iterate(dbscan, ransac, minSamples, xyz, s, fuel);
      && KeepsLabels(valid, s, o.state)
      && (o.settled ==> Round(dbscan, ransac, minSamples, xyz, o.state) == o.state)
  {
    RoundsKeepLabels(valid, dbscan, ransac, minSamples, xyz, s);
    StopsAreFixed(valid, dbscan, ransac, minSamples, xyz);
    LoopFacts(RoundOf(dbscan, ransac, minSamples, xyz), StopOf(dbscan, xyz),
              x => KeepsLabels(valid, s, x), s, fuel);
  }

  /** The source's loop has no round cap: a round that finds a cluster but
      accepts none of it leaves the state as it was, with the same clustering
      to come, so every budget is spent without the loop exiting. */
  lemma StuckRoundRepeats(dbscan: seq<Point> -> seq<int>, ransac: seq<Point> -> seq<bool>,
                          minSamples: int, xyz: seq<Point>, s: EventState, fuel: nat)
    requires ClusterOracle(dbscan) && LineOracle(ransac) && Shaped(xyz, s)
    requires Round(dbscan, ransac, minSamples, xyz, s) == s
    requires !AllNoise(DoDbscan(dbscan, xyz, s.elig)) && Any(s.elig)
    ensures Iterate(dbscan, ransac, minSamples, xyz, s, fuel) == Outcome(s, false)
  {
    LoopStuck(RoundOf(dbscan, ransac, minSamples, xyz), StopOf(dbscan, xyz), s, fuel);
  }

  /** A clustering that puts every point in cluster 0. */
  function OneCluster(pts: seq<Point>): (lab: seq<int>)
    ensures |lab| == |pts| && forall k :: 0 <= k < |pts| ==> lab[k] == 0
  {
    seq(|pts|, _ => 0)
  }

  /** A line fit that keeps every point. */
  function AllOnLine(pts: seq<Point>): (acc: seq<bool>)
    ensures |acc| == |pts| && forall k :: 0 <= k < |pts| ==> acc[k]
  {
    seq(|pts|, _ => true)
  }

  /** A concrete event on which the uncapped loop never ends: two valid hits
      that DBSCAN puts in one cluster (as it does for two points within `eps`
      once `dbscan_min_samples` is set to 2 or less; the default is 5), and
      the default `ransac_min_samples` of 2, so the cluster is skipped every
      round and the round budget always runs out. */
  lemma TwoHitClusterNeverSettles(fuel: nat)
    ensures ClusterOracle(OneCluster) && LineOracle(AllOnLine)
    ensures Iterate(OneCluster, AllOnLine, 2, [Point(0.0, 0.0, 0.0), Point(1.0, 0.0, 0.0)],
                    Initial([true, true]), fuel)
            == Outcome(Initial([true, true]), false)
  {
    var xyz := [Point(0.0, 0.0, 0.0), Point(1.0, 0.0, 0.0)];
    var s := Initial([true, true]);
    assert s.elig == [true, true];
    var lab := DoDbscan(OneCluster, xyz, s.elig);
    assert Select(xyz, s.elig) == xyz by {
      assert Select(xyz[1..], s.elig[1..]) == [xyz[1]];
    }
    assert lab == Scatter([true, true], [0, 0], -1);
    assert lab == [0, 0] by {
      assert Scatter([true, true][1..], [0, 0][1..], -1) == [0];
    }
    assert LabelBound(lab) == 1 by {
      assert LabelBound(lab[1..]) == 1;
    }
    var m := Members(lab, 0);
    assert m == [true, true];
    assert Count(m) == 2 by {
      assert Count(m[1..]) == 1;
    }
    assert ClusterStep(AllOnLine, 2, xyz, lab, s, 0) == s;
    assert Clusters(AllOnLine, 2, xyz, lab, s, 1) == s;
    assert Round(OneCluster, AllOnLine, 2, xyz, s) == s;
    assert !AllNoise(lab) by { assert lab[0] != -1; }
    assert Any(s.elig) by { assert s.elig[0]; }
    StuckRoundRepeats(OneCluster, AllOnLine, 2, xyz, s, fuel);
  }

  /** The inner loop after one more cluster. */
  lemma ClustersNext(ransac: seq<Point> -> seq<bool>, minSamples: int, xyz: seq<Point>,
                     lab: seq<int>, s0: EventState, c: nat)
    requires LineOracle(ransac) && |lab| == |xyz|
    requires Shaped(xyz, Clusters(ransac, minSamples, xyz, lab, s0, c))
    ensures Clusters(ransac, minSamples, xyz, lab, s0, c + 1)
            == ClusterStep(ransac, minSamples, xyz, lab, Clusters(ransac, minSamples, xyz, lab, s0, c), c)
  {
  }

  /** The round loop after a round from `s` to `next` that fails the exit
      test of `find_tracks`: the loop goes on from `next`. */
  lemma IterateContinues(dbscan: seq<Point> -> seq<int>, ransac: seq<Point> -> seq<bool>, minSamples: int,
                         xyz: seq<Point>, s: EventState, next: EventState, fuel: nat)
    requires ClusterOracle(dbscan) && LineOracle(ransac) && Shaped(xyz, s) && fuel > 0
    requires next == Round(dbscan, ransac, minSamples, xyz, s)
    requires !AllNoise(DoDbscan(dbscan, xyz, s.elig)) && Any(next.elig)
    ensures Iterate(dbscan, ransac, minSamples, xyz, s, fuel)
            == Iterate(dbscan, ransac, minSamples, xyz, next, fuel - 1)
  {
  }

  /** A round from `s` to `next` that passes the exit test ends the loop
      at `next`, settled. */
  lemma IterateStops(dbscan: seq<Point> -> seq<int>, ransac: seq<Point> -> seq<bool>, minSamples: int,
                     xyz: seq<Point>, s: EventState, next: EventState, fuel: nat)
    requires ClusterOracle(dbscan) && LineOracle(ransac) && Shaped(xyz, s) && fuel > 0
    requires next == Round(dbscan, ransac, minSamples, xyz, s)
    requires AllNoise(DoDbscan(dbscan, xyz, s.elig)) || !Any(next.elig)
    ensures Iterate(dbscan, ransac, minSamples, xyz, s, fuel) == Outcome(next, true)
  {
  }

  /** Whether some round of the loop, run from `s` with a budget of `fuel`
      rounds, hands DBSCAN no point at all (`xyz[mask]` with zero rows, on
      which sklearn's `fit` raises ValueError). */
  ghost predicate EmptyFit(dbscan: seq<Point> -> seq<int>, ransac: seq<Point> -> seq<bool>, minSamples: int,
                           xyz: seq<Point>, s: EventState, fuel: nat)
    requires ClusterOracle(dbscan) && LineOracle(ransac)
    decreases fuel
  {
    && fuel > 0 && Shaped(xyz, s)
    && (|Select(xyz, s.elig)| == 0
        || var next := Round(dbscan, ransac, minSamples, xyz, s);
           !StopOf(dbscan, xyz)(s, next) && EmptyFit(dbscan, ransac, minSamples, xyz, next, fuel - 1))
  }

  /** From a state with an eligible hit, no round of the loop clusters zero
      points: the loop only goes on after a round that leaves one eligible. */
  lemma {:induction false} FitsFromEligible(dbscan: seq<Point> -> seq<int>, ransac: seq<Point> -> seq<bool>,
                                            minSamples: int, xyz: seq<Point>, s: EventState, fuel: nat)
    requires ClusterOracle(dbscan) && LineOracle(ransac) && Any(s.elig)
    ensures !EmptyFit(dbscan, ransac, minSamples, xyz, s, fuel)
    decreases fuel
  {
    if fuel > 0 && Shaped(xyz, s) {
      CountZero(s.elig);
      var next := Round(dbscan, ransac, minSamples, xyz, s);
      if !StopOf(dbscan, xyz)(s, next) {
        FitsFromEligible(dbscan, ransac, minSamples, xyz, next, fuel - 1);
      }
    }
  }

  /** The only DBSCAN call of an event that gets zero points is its first
      round, and it gets them exactly when the event has no valid hit. */
  lemma EmptyFitOnlyAtStart(dbscan: seq<Point> -> seq<int>, ransac: seq<Point> -> seq<bool>, minSamples: int,
                            xyz: seq<Point>, valid: seq<bool>, fuel: nat)
    requires ClusterOracle(dbscan) && LineOracle(ransac) && |xyz| == |valid| && fuel > 0
    ensures EmptyFit(dbscan, ransac, minSamples, xyz, Initial(valid), fuel) <==> !Any(valid)
  {
    CountZero(valid);
    if Any(valid) {
      FitsFromEligible(dbscan, ransac, minSamples, xyz, Initial(valid), fuel);
    }
  }

  /** `track_id[i, acc] = id; iter_mask[i, acc] = False`, in place. */
  method ApplyTrack(trackId: array<int>, iterMask: array<bool>, acc: seq<bool>, id: int)
    requires trackId.Length == iterMask.Length == |acc|
    modifies trackId, iterMask
    ensures trackId[..] == LabelWith(old(trackId[..]), acc, id)
    ensures iterMask[..] == AndNot(old(iterMask[..]), acc)
  {
    for k := 0 to |acc|
      invariant forall j :: 0 <= j < k ==> trackId[j] == (if acc[j] then id else old(trackId[j]))
      invariant forall j :: k <= j < |acc| ==> trackId[j] == old(trackId[j])
      invariant forall j :: 0 <= j < k ==> iterMask[j] == (old(iterMask[j]) && !acc[j])
      invariant forall j :: k <= j < |acc| ==> iterMask[j] == old(iterMask[j])
    {
      if acc[k] {
        trackId[k] := id;
        iterMask[k] := false;
      }
    }
  }

  /** One pass of the loop over cluster ids: a cluster with more than
      `min_samples` members is fitted, and a fit with at least two inliers
      becomes the next track. */
  method AcceptCluster(ransac: seq<Point> -> seq<bool>, minSamples: int, xyz: seq<Point>,
                       lab: seq<int>, c: int, trackId: array<int>, iterMask: array<bool>,
                       current: int, ghost s: EventState) returns (next: int, ghost r: EventState)
    requires LineOracle(ransac) && |lab| == |xyz| == trackId.Length == iterMask.Length && current >= -1
    requires s == EventState(iterMask[..], trackId[..], current + 1)
    modifies trackId, iterMask
    ensures current <= next
    ensures r == EventState(iterMask[..], trackId[..], next + 1)
    ensures r == ClusterStep(ransac, minSamples, xyz, lab, s, c)
  {
    next := current;
    var m := Members(lab, c);
    if Count(m) > minSamples {
      var acc := Inliers(ransac, xyz, m);
      if Count(acc) >= 2 {
        next := current + 1;
        ApplyTrack(trackId, iterMask, acc, next);
      }
    }
    r := EventState(iterMask[..], trackId[..], next + 1);
  }

  /** The loop over cluster ids of one round, in ascending order, from
      `s` with the clustering `lab`. */
  method RunClusters(ransac: seq<Point> -> seq<bool>, minSamples: int, xyz: seq<Point>, lab: seq<int>,
                     trackId: array<int>, iterMask: array<bool>, current: int, ghost s: EventState)
    returns (next: int, ghost r: EventState)
    requires LineOracle(ransac) && |lab| == |xyz| == trackId.Length == iterMask.Length && current >= -1
    requires s == EventState(iterMask[..], trackId[..], current + 1)
    modifies trackId, iterMask
    ensures next >= -1
    ensures r == EventState(iterMask[..], trackId[..], next + 1)
    ensures r == Clusters(ransac, minSamples, xyz, lab, s, LabelBound(lab))
  {
    var top := LabelBound(lab);
    next := current;
    r := s;
    var c := 0;
    while c < top
      invariant 0 <= c <= top && next >= -1
      invariant r == EventState(iterMask[..], trackId[..], next + 1)
      invariant r == Clusters(ransac, minSamples, xyz, lab, s, c)
    {
      ClustersNext(ransac, minSamples, xyz, lab, s, c);
      next, r := AcceptCluster(ransac, minSamples, xyz, lab, c, trackId, iterMask, next, r);
      c := c + 1;
    }
  }

  /** One round of `find_tracks`: DBSCAN on the eligible hits, then every
      cluster id in ascending order.  `quiet` is the loop's exit test: the
      clustering was all noise, or no eligible hit is left. */
  method RunRound(dbscan: seq<Point> -> seq<int>, ransac: seq<Point> -> seq<bool>, minSamples: int,
                  xyz: seq<Point>, trackId: array<int>, iterMask: array<bool>, current: int,
                  ghost s: EventState)
    returns (next: int, quiet: bool, ghost r: EventState)
    requires ClusterOracle(dbscan) && LineOracle(ransac)
    requires |xyz| == trackId.Length == iterMask.Length && current >= -1
    requires s == EventState(iterMask[..], trackId[..], current + 1)
    modifies trackId, iterMask
    ensures next >= -1
    ensures r == EventState(iterMask[..], trackId[..], next + 1)
    ensures r == Round(dbscan, ransac, minSamples, xyz, s)
    ensures quiet == (AllNoise(DoDbscan(dbscan, xyz, s.elig)) || !Any(r.elig))
  {
    var lab := DoDbscan(dbscan, xyz, iterMask[..]);
    next, r := RunClusters(ransac, minSamples, xyz, lab, trackId, iterMask, current, s);
    quiet := AllNoise(lab) || !Any(iterMask[..]);
  }

  /** What the round loop leaves for an event that starts with its valid
      hits eligible: the eligible mask is the valid, unlabelled hits; masked
      hits keep -1; every label is -1 or one of the accepted ids; each
      accepted id labels at least two hits; and when the loop stops by its
      own test a further round would change nothing. */
  lemma EventOutcomeFacts(valid: seq<bool>, dbscan: seq<Point> -> seq<int>,
                          ransac: seq<Point> -> seq<bool>, minSamples: int,
                          xyz: seq<Point>, maxRounds: nat)
    requires ClusterOracle(dbscan) && LineOracle(ransac) && |xyz| == |valid|
    ensures var o := Iterate(dbscan, ransac, minSamples, xyz, Initial(valid), maxRounds);
      && |o.state.labels| == |valid|
      && o.state.elig == Eligible(valid, o.state.labels)
      && (forall k :: 0 <= k < |valid| && !valid[k] ==> o.state.labels[k] == -1)
      && (forall k :: 0 <= k < |valid| ==> -1 <= o.state.labels[k] < o.state.count)
      && (forall id :: 0 <= id < o.state.count ==> CountLabel(o.state.labels, id) >= 2)
      && (o.settled ==> Round(dbscan, ransac, minSamples, xyz, o.state) == o.state)
  {
    var o := Iterate(dbscan, ransac, minSamples, xyz, Initial(valid), maxRounds);
    InitialInv(valid);
    IterateFacts(valid, dbscan, ransac, minSamples, xyz, Initial(valid), maxRounds);
    InvDeterminesElig(valid, o.state);
  }

  /** `find_tracks` for one event, with a budget of `maxRounds` rounds in
      place of the source's unbounded `while True`: the labels and the number
      of accepted tracks it leaves, and whether it stopped by its own exit
      test, are those of the round loop `Iterate`. */
  method FindEventTracks(dbscan: seq<Point> -> seq<int>, ransac: seq<Point> -> seq<bool>, minSamples: int,
                         xyz: seq<Point>, valid: seq<bool>, maxRounds: nat)
    returns (labels: seq<int>, count: nat, settled: bool)
    requires ClusterOracle(dbscan) && LineOracle(ransac) && |xyz| == |valid|
    ensures |labels| == |valid|
    ensures Iterate(dbscan, ransac, minSamples, xyz, Initial(valid), maxRounds)
            == Outcome(EventState(Eligible(valid, labels), labels, count), settled)
  {
    var n := |valid|;
    var iterMask := new bool[n](k requires 0 <= k < n => valid[k]);
    var trackId := new int[n](_ => -1);
    var current := -1;
    var left := maxRounds;
    settled := false;
    ghost var init := Initial(valid);
    ghost var st := EventState(iterMask[..], trackId[..], current + 1);
    assert st == init;
    while left > 0
      invariant current >= -1
      invariant st == EventState(iterMask[..], trackId[..], current + 1)
      invariant Iterate(dbscan, ransac, minSamples, xyz, init, maxRounds)
                == Iterate(dbscan, ransac, minSamples, xyz, st, left)
    {
      ghost var s0 := st;
      var quiet;
      current, quiet, st := RunRound(dbscan, ransac, minSamples, xyz, trackId, iterMask, current, s0);
      if quiet {
        IterateStops(dbscan, ransac, minSamples, xyz, s0, st, left);
        settled := true;
        break;
      }
      IterateContinues(dbscan, ransac, minSamples, xyz, s0, st, left);
      left := left - 1;
    }
    assert Iterate(dbscan, ransac, minSamples, xyz, init, maxRounds) == Outcome(st, settled);
    labels, count := trackId[..], current + 1;
    EventOutcomeFacts(valid, dbscan, ransac, minSamples, xyz, maxRounds);
  }

  /** The labels and the number of accepted tracks of one event are those
      of its round loop. */
  ghost predicate EventTracked(dbscan: seq<Point> -> seq<int>, ransac: seq<Point> -> seq<bool>, minSamples: int,
                               xyz: seq<Point>, valid: seq<bool>, maxRounds: nat, labels: seq<int>, count: nat)
    requires ClusterOracle(dbscan) && LineOracle(ransac)
  {
    && |labels| == |valid|
    && Iterate(dbscan, ransac, minSamples, xyz, Initial(valid), maxRounds).state
       == EventState(Eligible(valid, labels), labels, count)
  }

  /** `find_tracks` over a batch: each event's labels and number of accepted
      tracks are those of its own round loop. */
  method FindTracks(dbscan: seq<Point> -> seq<int>, ransac: seq<Point> -> seq<bool>, minSamples: int,
                    xyz: seq<seq<Point>>, valid: seq<seq<bool>>, maxRounds: nat)
    returns (labels: seq<seq<int>>, counts: seq<nat>)
    requires ClusterOracle(dbscan) && LineOracle(ransac)
    requires |xyz| == |valid| && forall i :: 0 <= i < |xyz| ==> |xyz[i]| == |valid[i]|
    ensures |labels| == |valid| && |counts| == |valid|
    ensures forall e :: 0 <= e < |labels| ==>
              EventTracked(dbscan, ransac, minSamples, xyz[e], valid[e], maxRounds, labels[e], counts[e])
  {
    ghost var tracked := (e: int, l: seq<int>, c: nat) =>
      0 <= e < |valid| && EventTracked(dbscan, ransac, minSamples, xyz[e], valid[e], maxRounds, l, c);
    labels, counts := [], [];
    while |labels| < |valid|
      invariant |labels| == |counts| <= |valid|
      invariant forall e :: 0 <= e < |labels| ==> tracked(e, labels[e], counts[e])
    {
      var l, c, _ := FindEventTracks(dbscan, ransac, minSamples, xyz[|labels|], valid[|labels|], maxRounds);
      AppendPointwise(tracked, labels, counts, l, c);
      labels, counts := labels + [l], counts + [c];
    }
  }
}

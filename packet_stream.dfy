/** The packet-stream bookkeeping of the raw event generator: the round-robin
    partition of the packet dataset into buffers, and the transforms `next()`
    applies to one buffer - the packet-type filter, the unix-timestamp
    grouping, the 31-bit timestamp wrap, the sync-noise window cut, the nhit
    cut and the event -> packet references. */
module PacketStream {
  import opened Seqs

  // ------------------------------------------------------------------ packets

  /** The larpix packet fields the generator reads: `packet_type`,
      `valid_parity` and `timestamp`. */
  datatype Packet = Packet(kind: int, validParity: bool, timestamp: int)

  const DataKind: int := 0
  const TimestampKind: int := 4
  const SyncKind: int := 6
  const TriggerKind: int := 7

  // --------------------------------------------------------- buffer partition

  /** A buffer: rows `[start, stop)` of the packet dataset. */
  datatype Slice = Slice(start: int, stop: int)

  /** `start_position`, 0 when not given. */
  function StartPosition(start: Option<int>): int
  {
    if start.None? then 0 else start.value
  }

  /** `end_position`, clamped to the packet count. */
  function EndPosition(end: Option<int>, nPackets: nat): (e: int)
    ensures e <= nPackets
    ensures e == nPackets || (end.Some? && e == end.value)
    ensures end.Some? && end.value <= nPackets ==> e == end.value
  {
    if end.None? || end.value > nPackets then nPackets else end.value
  }

  /** `range(a, b, step)` for a positive step. */
  function Range(a: int, b: int, step: int): (r: seq<int>)
    requires step > 0
    ensures forall k :: 0 <= k < |r| ==> a <= r[k] < b
    decreases b - a
  {
    if a >= b then [] else [a] + Range(a + step, b, step)
  }

  /** Term `k` of `range(a, b, step)` is `a + k*step`. */
  lemma {:induction false} RangeTerms(a: int, b: int, step: int)
    requires step > 0
    ensures forall k :: 0 <= k < |Range(a, b, step)| ==> Range(a, b, step)[k] == a + k * step
    decreases b - a
  {
    if a < b {
      RangeTerms(a + step, b, step);
      var r, rest := Range(a, b, step), Range(a + step, b, step);
      forall k | 0 < k < |r| ensures r[k] == a + k * step {
        assert r[k] == rest[k - 1] == a + step + (k - 1) * step;
      }
    }
  }

  /** Every term `a + k*step` below `b` is in `range(a, b, step)`. */
  lemma {:induction false} RangeComplete(a: int, b: int, step: int, k: nat)
    requires step > 0 && a + k * step < b
    ensures k < |Range(a, b, step)|
    decreases k
  {
    if k > 0 {
      assert a + step + (k - 1) * step == a + k * step;
      RangeComplete(a + step, b, step, k - 1);
    }
  }

  lemma MulPositive(x: int, y: int)
    requires x > 0 && y > 0
    ensures x * y > 0
  {
  }

  /** `self.slices` of rank `rank` out of `size`: buffers of `bufferSize` rows
      starting at `start + rank*bufferSize` and stepping by
      `size*bufferSize` while below `end`. */
  function Slices(start: int, end: int, rank: nat, size: nat, bufferSize: nat): seq<Slice>
    requires rank < size && bufferSize > 0
  {
    MulPositive(size, bufferSize);
    var starts := Range(start + rank * bufferSize, end, size * bufferSize);
    seq(|starts|, k requires 0 <= k < |starts| => Slice(starts[k], starts[k] + bufferSize))
  }

  /** Buffer `k` of rank `rank` is buffer number `rank + k*size` of the
      whole range: it starts that many buffer sizes after `start`, lies
      below `end` and spans one buffer size. */
  lemma SliceLayout(start: int, end: int, rank: nat, size: nat, bufferSize: nat, k: nat)
    requires rank < size && bufferSize > 0
    requires k < |Slices(start, end, rank, size, bufferSize)|
    ensures var s := Slices(start, end, rank, size, bufferSize)[k];
            && s.start == start + (rank + k * size) * bufferSize
            && start <= s.start < end
            && s.stop == s.start + bufferSize
  {
    MulPositive(size, bufferSize);
    RangeTerms(start + rank * bufferSize, end, size * bufferSize);
    assert (rank + k * size) * bufferSize == rank * bufferSize + k * (size * bufferSize);
    assert rank * bufferSize >= 0 && k * (size * bufferSize) >= 0;
  }

  /** No buffer is read by two ranks, nor twice by one rank. */
  lemma SlicesDisjoint(start: int, end: int, size: nat, bufferSize: nat,
                       r1: nat, k1: nat, r2: nat, k2: nat)
    requires r1 < size && r2 < size && bufferSize > 0
    requires k1 < |Slices(start, end, r1, size, bufferSize)|
    requires k2 < |Slices(start, end, r2, size, bufferSize)|
    requires Slices(start, end, r1, size, bufferSize)[k1].start
             == Slices(start, end, r2, size, bufferSize)[k2].start
    ensures r1 == r2 && k1 == k2
  {
    SliceLayout(start, end, r1, size, bufferSize, k1);
    SliceLayout(start, end, r2, size, bufferSize, k2);
    var j1, j2 := r1 + k1 * size, r2 + k2 * size;
    MulCancel(j1, j2, bufferSize);
    assert (k1 - k2) * size == r2 - r1;
    MulSign(k1 - k2, size);
  }

  /** Every buffer offset `start + j*bufferSize` below `end` is read, by rank
      `j % size` as its buffer `j / size`. */
  lemma SlicesCover(start: int, end: int, size: nat, bufferSize: nat, j: nat)
    requires 0 < size && bufferSize > 0 && start + j * bufferSize < end
    ensures j / size < |Slices(start, end, j % size, size, bufferSize)|
    ensures Slices(start, end, j % size, size, bufferSize)[j / size].start == start + j * bufferSize
  {
    var r, k := j % size, j / size;
    assert j == r + k * size;
    MulPositive(size, bufferSize);
    assert start + r * bufferSize + k * (size * bufferSize) == start + j * bufferSize;
    RangeComplete(start + r * bufferSize, end, size * bufferSize, k);
    SliceLayout(start, end, r, size, bufferSize, k);
  }

  lemma MulCancel(x: int, y: int, b: int)
    requires b > 0 && x * b == y * b
    ensures x == y
  {
    if x < y {
      assert y * b - x * b == (y - x) * b;
      MulPositive(y - x, b);
    } else if y < x {
      assert x * b - y * b == (x - y) * b;
      MulPositive(x - y, b);
    }
  }

  lemma MulMonotone(d: int, size: int)
    requires d >= 1 && size >= 0
    ensures d * size >= size
  {
    assert d * size == (d - 1) * size + size;
    assert (d - 1) * size >= 0;
  }

  lemma MulSign(d: int, size: int)
    requires size > 0
    ensures d >= 1 ==> d * size >= size
    ensures d <= -1 ==> d * size <= -size
  {
    if d >= 1 {
      MulMonotone(d, size);
    } else if d <= -1 {
      MulMonotone(-d, size);
      assert (-d) * size == -(d * size);
    }
  }

  // -------------------------------------------------------- packet-type filter

  /** A packet survives the type filter: a data packet with valid parity, or a
      timestamp, external-trigger or sync packet. */
  predicate Kept(p: Packet)
  {
    (p.validParity && p.kind == DataKind) || p.kind == TimestampKind
    || p.kind == TriggerKind || p.kind == SyncKind
  }

  function KeepMask(block: seq<Packet>): (m: seq<bool>)
    ensures |m| == |block|
    ensures forall k :: 0 <= k < |block| ==> (m[k] <==> Kept(block[k]))
  {
    seq(|block|, k requires 0 <= k < |block| => Kept(block[k]))
  }

  /** `block[mask]`: the buffer after the packet-type filter. */
  function FilterPackets(block: seq<Packet>): seq<Packet>
  {
    Select(block, KeepMask(block))
  }

  /** The filter keeps exactly the packets that pass, and keeps their order:
      it is the order-preserving filter, and it filters consecutive pieces of
      a buffer piece by piece. */
  lemma PacketFilterExact(a: seq<Packet>, b: seq<Packet>, p: Packet)
    ensures FilterPackets(a) == Filter(a, Kept)
    ensures p in FilterPackets(a) <==> p in a && Kept(p)
    ensures FilterPackets(a + b) == FilterPackets(a) + FilterPackets(b)
  {
    SelectIsFilter(a, KeepMask(a), Kept);
    SelectIsFilter(b, KeepMask(b), Kept);
    SelectIsFilter(a + b, KeepMask(a + b), Kept);
    FilterMembership(a, Kept, p);
    FilterConcat(a, b, Kept);
  }

  // ------------------------------------------------------ unix-ts grouping

  predicate IsTimestamp(p: Packet)
  {
    p.kind == TimestampKind
  }

  /** `~ts_mask`. */
  function NotTimestampMask(s: seq<Packet>): (m: seq<bool>)
    ensures |m| == |s|
    ensures forall k :: 0 <= k < |s| ==> (m[k] <==> !IsTimestamp(s[k]))
  {
    seq(|s|, k requires 0 <= k < |s| => !IsTimestamp(s[k]))
  }

  /** Position of the last timestamp packet of `s`, if there is one. */
  function LastTimestamp(s: seq<Packet>): (r: Option<nat>)
    ensures r.Some? ==> r.value < |s| && IsTimestamp(s[r.value])
                        && forall k :: r.value < k < |s| ==> !IsTimestamp(s[k])
    ensures r.None? ==> forall k :: 0 <= k < |s| ==> !IsTimestamp(s[k])
  {
    if |s| == 0 then None
    else if IsTimestamp(s[|s| - 1]) then Some(|s| - 1)
    else LastTimestamp(s[..|s| - 1])
  }

  /** Position `i` holds the last timestamp packet of `s`. */
  predicate LastTimestampIs(s: seq<Packet>, i: nat)
  {
    i < |s| && IsTimestamp(s[i]) && forall k :: i < k < |s| ==> !IsTimestamp(s[k])
  }

  /** A timestamp packet with none after it is the last one. */
  lemma LastTimestampAt(s: seq<Packet>, j: nat)
    requires LastTimestampIs(s, j)
    ensures LastTimestamp(s) == Some(j)
  {
  }

  /** `np.split(s, np.argwhere(ts_mask).flatten())`: `s` cut in front of every
      timestamp packet; the first piece is what precedes the first of them. */
  function Groups(s: seq<Packet>): seq<seq<Packet>>
    decreases |s|
  {
    match LastTimestamp(s)
    case None => [s]
    case Some(i) => Groups(s[..i]) + [s[i..]]
  }

  /** Splitting loses nothing, and every piece but the first is one
      timestamp packet followed by packets of other kinds. */
  lemma GroupsPartition(s: seq<Packet>)
    ensures Concat(Groups(s)) == s
    ensures forall g :: 0 < g < |Groups(s)| ==> |Groups(s)[g]| > 0 && IsTimestamp(Groups(s)[g][0])
    ensures forall g, k :: 0 <= g < |Groups(s)| && 0 < k < |Groups(s)[g]| ==> !IsTimestamp(Groups(s)[g][k])
    ensures forall k :: 0 <= k < |Groups(s)[0]| ==> !IsTimestamp(Groups(s)[0][k])
  {
    GroupsConcat(s);
    GroupsShape(s);
  }

  lemma {:induction false} GroupsConcat(s: seq<Packet>)
    ensures Concat(Groups(s)) == s
    decreases |s|
  {
    match LastTimestamp(s)
    case None =>
    case Some(i) =>
      GroupsConcat(s[..i]);
      var front := Groups(s[..i]);
      assert Groups(s) == front + [s[i..]];
      assert (front + [s[i..]])[..|front|] == front;
      assert s[..i] + s[i..] == s;
  }

  lemma {:induction false} GroupsShape(s: seq<Packet>)
    ensures forall g :: 0 < g < |Groups(s)| ==> |Groups(s)[g]| > 0 && IsTimestamp(Groups(s)[g][0])
    ensures forall g, k :: 0 <= g < |Groups(s)| && 0 < k < |Groups(s)[g]| ==> !IsTimestamp(Groups(s)[g][k])
    ensures forall k :: 0 <= k < |Groups(s)[0]| ==> !IsTimestamp(Groups(s)[0][k])
    decreases |s|
  {
    match LastTimestamp(s)
    case None =>
    case Some(i) =>
      GroupsShape(s[..i]);
      assert Groups(s) == Groups(s[..i]) + [s[i..]];
  }

  /** `np.full(len(g[1:]), g[0])` for a piece of more than one packet, and
      nothing for the others (`if len(ts_grp) > 1`). */
  function GroupFill(g: seq<Packet>): (r: seq<Packet>)
  {
    if |g| > 1 then seq(|g| - 1, _ => g[0]) else []
  }

  function Fills(gs: seq<seq<Packet>>): (r: seq<seq<Packet>>)
    ensures |r| == |gs|
    ensures forall k :: 0 <= k < |gs| ==> r[k] == GroupFill(gs[k])
  {
    seq(|gs|, k requires 0 <= k < |gs| => GroupFill(gs[k]))
  }

  /** `unix_ts`: the concatenated fills of the pieces. */
  function UnixTs(s: seq<Packet>): seq<Packet>
  {
    Concat(Fills(Groups(s)))
  }

  /** Position of the latest timestamp packet at or before position `k`, or 0
      when there is none. */
  function LatestAt(s: seq<Packet>, k: nat): (j: nat)
    requires k < |s|
    ensures j <= k
  {
    match LastTimestamp(s[..k + 1])
    case None => 0
    case Some(j) => j
  }

  /** Each packet's latest timestamp packet. */
  function Latest(s: seq<Packet>): (r: seq<Packet>)
    ensures |r| == |s|
    ensures forall k :: 0 <= k < |s| ==> r[k] == s[LatestAt(s, k)]
  {
    seq(|s|, k requires 0 <= k < |s| => s[LatestAt(s, k)])
  }

  /** The reference pairing: each packet that is not a timestamp packet,
      in order, with the latest timestamp packet before it. */
  function Paired(s: seq<Packet>): seq<Packet>
  {
    Select(Latest(s), NotTimestampMask(s))
  }

  /** One step of `UnixTs`: the fills of the front and of the last piece. */
  lemma UnixTsStep(s: seq<Packet>, i: nat)
    requires LastTimestamp(s) == Some(i)
    ensures UnixTs(s) == UnixTs(s[..i]) + GroupFill(s[i..])
  {
    var front := Groups(s[..i]);
    assert Groups(s) == front + [s[i..]];
    var f := Fills(front + [s[i..]]);
    assert f == Fills(front) + [GroupFill(s[i..])];
    assert f[..|f| - 1] == Fills(front);
  }

  /** The masks of the parts before and from the last timestamp packet; only
      that packet is masked out of the last part. */
  lemma MaskStep(s: seq<Packet>, i: nat)
    requires LastTimestampIs(s, i)
    ensures NotTimestampMask(s) == NotTimestampMask(s[..i]) + NotTimestampMask(s[i..])
    ensures |s[i..]| > 0 && !NotTimestampMask(s[i..])[0]
    ensures forall k :: 0 <= k < |s| - i - 1 ==> NotTimestampMask(s[i..])[1..][k]
  {
    assert NotTimestampMask(s) == NotTimestampMask(s[..i]) + NotTimestampMask(s[i..]);
  }

  /** Before the last timestamp packet the latest timestamp packets are
      those of the front part. */
  lemma LatestFront(s: seq<Packet>, i: nat, k: nat)
    requires k < i <= |s|
    ensures Latest(s)[k] == Latest(s[..i])[k]
  {
    assert s[..i][..k + 1] == s[..k + 1];
  }

  /** From the last timestamp packet on, it is the latest one. */
  lemma LatestBack(s: seq<Packet>, i: nat, k: nat)
    requires LastTimestampIs(s, i) && i <= k < |s|
    ensures Latest(s)[k] == s[i]
  {
    LastTimestampAt(s[..k + 1], i);
  }

  lemma LatestStep(s: seq<Packet>, i: nat)
    requires LastTimestampIs(s, i)
    ensures Latest(s) == Latest(s[..i]) + seq(|s| - i, _ => s[i])
  {
    var front, tail := Latest(s[..i]), seq(|s| - i, _ => s[i]);
    forall k | 0 <= k < |s| ensures Latest(s)[k] == (front + tail)[k] {
      if k < i {
        LatestFront(s, i, k);
      } else {
        LatestBack(s, i, k);
      }
    }
  }

  /** Selecting with a mask that is off only at its head, from copies of one
      value, gives one copy fewer. */
  lemma SelectCopies<T>(x: T, n: nat, m: seq<bool>)
    requires |m| == n > 0 && !m[0]
    requires forall k :: 1 <= k < n ==> m[k]
    ensures Select(seq(n, _ => x), m) == seq(n - 1, _ => x)
  {
    var c := seq(n, _ => x);
    SelectAll(c[1..], m[1..]);
    assert c[1..] == seq(n - 1, _ => x);
  }

  /** Selecting the non-timestamp packets of the last piece from copies of its
      head gives that piece's fill. */
  lemma FillStep(s: seq<Packet>, i: nat)
    requires LastTimestampIs(s, i)
    ensures Select(seq(|s| - i, _ => s[i]), NotTimestampMask(s[i..])) == GroupFill(s[i..])
  {
    MaskStep(s, i);
    var m := NotTimestampMask(s[i..]);
    assert forall k :: 1 <= k < |s| - i ==> m[k] == m[1..][k - 1];
    SelectCopies(s[i], |s| - i, m);
  }

  /** One step of `Paired`: the front pairs, then every packet after the last
      timestamp packet paired with it. */
  lemma PairedStep(s: seq<Packet>, i: nat)
    requires LastTimestampIs(s, i)
    ensures Paired(s) == Paired(s[..i]) + GroupFill(s[i..])
  {
    LatestStep(s, i);
    MaskStep(s, i);
    FillStep(s, i);
    SelectConcat(Latest(s[..i]), seq(|s| - i, _ => s[i]), NotTimestampMask(s[..i]), NotTimestampMask(s[i..]));
  }

  /** With a timestamp packet in front (`np.insert(..., [0], last_unix_ts)`),
      the grouping pairs each packet that is not a timestamp packet, in
      order, with the latest timestamp packet before it; so `unix_ts` is as
      long as `packet_buffer[~ts_mask]`. */
  lemma {:induction false} GroupingPairsLatest(s: seq<Packet>)
    requires |s| == 0 || IsTimestamp(s[0])
    ensures UnixTs(s) == Paired(s)
    ensures |UnixTs(s)| == |Select(s, NotTimestampMask(s))|
    decreases |s|
  {
    match LastTimestamp(s)
    case None =>
      assert |s| == 0 && Groups(s) == [s];
      assert Fills([s]) == [[]];
    case Some(i) =>
      GroupingPairsLatest(s[..i]);
      UnixTsStep(s, i);
      PairedStep(s, i);
  }

  /** The pairs are timestamp packets. */
  lemma PairedTimestamps(s: seq<Packet>)
    requires |s| > 0 && IsTimestamp(s[0])
    ensures forall x :: x in Paired(s) ==> IsTimestamp(x)
  {
    SelectMembership(Latest(s), NotTimestampMask(s));
    forall k | 0 <= k < |s| ensures IsTimestamp(Latest(s)[k]) {
      assert s[..k + 1][0] == s[0];
    }
  }

  /** Without a timestamp packet in front, `unix_ts` comes out one entry
      shorter than the packets it is meant to pair with. */
  lemma {:induction false} GroupingMisaligned(s: seq<Packet>)
    requires |s| > 0 && !IsTimestamp(s[0])
    ensures |UnixTs(s)| + 1 == Count(NotTimestampMask(s))
    decreases |s|
  {
    match LastTimestamp(s)
    case None =>
      assert Groups(s) == [s];
      assert Fills([s]) == [GroupFill(s)];
      assert Concat([GroupFill(s)]) == Concat([GroupFill(s)][..0]) + GroupFill(s);
      CountFull(NotTimestampMask(s));
    case Some(i) =>
      GroupingMisaligned(s[..i]);
      UnixTsStep(s, i);
      MaskStep(s, i);
      var m := NotTimestampMask(s[i..]);
      CountConcat(NotTimestampMask(s[..i]), m);
      CountFull(m[1..]);
  }

  /** `unix_ts[-1] if len(unix_ts) else last_unix_ts`. */
  function NextLastUnixTs(unixTs: seq<Packet>, last: Packet): (r: Packet)
    ensures r == last || r in unixTs
  {
    if |unixTs| > 0 then unixTs[|unixTs| - 1] else last
  }

  /** The next `last_unix_ts` is the timestamp packet paired with the last
      packet of the buffer that is not one; it is `last_unix_ts` itself
      when there is no such packet, and a timestamp packet either way. */
  lemma LastUnixTsLatest(s: seq<Packet>)
    requires |s| > 0 && IsTimestamp(s[0])
    ensures IsTimestamp(NextLastUnixTs(UnixTs(s), s[0]))
    ensures Count(NotTimestampMask(s)) == 0 ==> NextLastUnixTs(UnixTs(s), s[0]) == s[0]
    ensures Count(NotTimestampMask(s)) > 0 ==>
              exists p :: 0 <= p < |s| && !IsTimestamp(s[p]) && (forall q :: p < q < |s| ==> IsTimestamp(s[q]))
                          && NextLastUnixTs(UnixTs(s), s[0]) == s[LatestAt(s, p)]
  {
    GroupingPairsLatest(s);
    PairedTimestamps(s);
    if Count(NotTimestampMask(s)) > 0 {
      SelectLast(Latest(s), NotTimestampMask(s));
    }
  }

  // -------------------------------------------------------- timestamp wrap

  const TimestampModulus: int := 0x8000_0000

  /** `timestamp.astype(int) % 2**31`: drops the 32nd bit set by pacman
      triggers; the result is the residue of the timestamp in [0, 2^31). */
  function Wrap(p: Packet): (r: Packet)
    ensures 0 <= r.timestamp < TimestampModulus
    ensures (p.timestamp - r.timestamp) % TimestampModulus == 0
    ensures r.kind == p.kind && r.validParity == p.validParity
    ensures 0 <= p.timestamp < TimestampModulus ==> r == p
  {
    p.(timestamp := p.timestamp % TimestampModulus)
  }

  function WrapAll(s: seq<Packet>): (r: seq<Packet>)
    ensures |r| == |s|
    ensures forall k :: 0 <= k < |s| ==> r[k] == Wrap(s[k])
  {
    seq(|s|, k requires 0 <= k < |s| => Wrap(s[k]))
  }

  /** Wrapping twice is wrapping once, and wrapping keeps the kinds. */
  lemma WrapAllIdempotent(s: seq<Packet>)
    ensures WrapAll(WrapAll(s)) == WrapAll(s)
    ensures NotTimestampMask(WrapAll(s)) == NotTimestampMask(s)
  {
  }

  // --------------------------------------------------------- sync-noise cut

  /** The sync-noise window `cut[0] < timestamp < cut[1]`. */
  function InWindow(lo: int, hi: int): Packet -> bool
  {
    (p: Packet) => lo < p.timestamp < hi
  }

  function WindowMask(s: seq<Packet>, lo: int, hi: int): (m: seq<bool>)
    ensures |m| == |s|
    ensures forall k :: 0 <= k < |s| ==> (m[k] <==> InWindow(lo, hi)(s[k]))
  {
    seq(|s|, k requires 0 <= k < |s| => InWindow(lo, hi)(s[k]))
  }

  /** `packet_buffer[m]` and `unix_ts[m]` with the window mask of the
      packets; the second raises IndexError when `unix_ts` is not as long as
      the mask. */
  function SyncCut(s: seq<Packet>, unixTs: seq<Packet>, lo: int, hi: int)
    : (r: Option<(seq<Packet>, seq<Packet>)>)
    ensures r.Some? <==> |unixTs| == |s|
  {
    if |unixTs| != |s| then None
    else Some((Select(s, WindowMask(s, lo, hi)), Select(unixTs, WindowMask(s, lo, hi))))
  }

  /** The cut keeps exactly the packets inside the window, in order, and
      keeps each one paired with its unix-timestamp packet. */
  lemma SyncCutLockstep(s: seq<Packet>, unixTs: seq<Packet>, lo: int, hi: int)
    requires |unixTs| == |s|
    ensures var (ps, us) := SyncCut(s, unixTs, lo, hi).value;
            && |ps| == |us|
            && ps == Filter(s, InWindow(lo, hi))
            && Zip(ps, us) == Filter(Zip(s, unixTs), (x: (Packet, Packet)) => InWindow(lo, hi)(x.0))
  {
    var m := WindowMask(s, lo, hi);
    SelectLockstep(s, unixTs, m);
    SelectIsFilter(s, m, InWindow(lo, hi));
    SelectIsFilter(Zip(s, unixTs), m, (x: (Packet, Packet)) => InWindow(lo, hi)(x.0));
  }

  /** `sync_noise_cut` as it may be configured: the scalar of the default
      and of the documentation, or the pair the cut indexes. */
  datatype CutParam = Scalar(value: int) | Pair(lo: int, hi: int)

  const DefaultSyncNoiseCut: CutParam := Scalar(100000)
  const DefaultSyncNoiseCutEnabled: bool := true

  /** `(sync_noise_cut[0], sync_noise_cut[1])`; indexing a scalar raises
      TypeError. */
  function CutBounds(c: CutParam): (r: Option<(int, int)>)
    ensures r.Some? <==> c.Pair?
  {
    if c.Scalar? then None else Some((c.lo, c.hi))
  }

  /** The cut as written, reading its bounds from the parameter. */
  function SyncCutAsWritten(s: seq<Packet>, unixTs: seq<Packet>, c: CutParam)
    : (r: Option<(seq<Packet>, seq<Packet>)>)
    ensures r.Some? ==> c.Pair?
  {
    match CutBounds(c)
    case None => None
    case Some((lo, hi)) => SyncCut(s, unixTs, lo, hi)
  }

  /** With the defaults the cut is enabled and raises on every buffer. */
  lemma DefaultSyncCutRaises(s: seq<Packet>, unixTs: seq<Packet>)
    ensures DefaultSyncNoiseCutEnabled
    ensures SyncCutAsWritten(s, unixTs, DefaultSyncNoiseCut).None?
  {
  }

  // ----------------------------------------------------------- the nhit cut

  /** One built event: its packets and its unix-timestamp packets. */
  datatype Event = Event(packets: seq<Packet>, unixTs: seq<Packet>)

  /** `event_builder.build_events(packet_buffer, unix_ts)`: the events and
      their unix-timestamp arrays. */
  type Builder = (seq<Packet>, seq<Packet>) -> (seq<seq<Packet>>, seq<seq<Packet>>)

  /** `zip(events, event_unix_ts)`, which stops at the shorter list. */
  function PairUp(evs: seq<seq<Packet>>, ts: seq<seq<Packet>>): (r: seq<Event>)
    ensures |r| == if |evs| <= |ts| then |evs| else |ts|
    ensures forall k :: 0 <= k < |r| ==> r[k] == Event(evs[k], ts[k])
  {
    var n := if |evs| <= |ts| then |evs| else |ts|;
    seq(n, k requires 0 <= k < n => Event(evs[k], ts[k]))
  }

  function Large(nhitCut: int): Event -> bool
  {
    (e: Event) => |e.packets| >= nhitCut
  }

  /** `filter(lambda x: len(x[0]) >= nhit_cut, ...)`. */
  function NhitCut(events: seq<Event>, nhitCut: int): seq<Event>
  {
    Filter(events, Large(nhitCut))
  }

  /** The events left are exactly those with at least `nhitCut` packets, in
      their order, each with its own unix timestamps. */
  lemma NhitCutExact(a: seq<Event>, b: seq<Event>, nhitCut: int, e: Event)
    ensures e in NhitCut(a, nhitCut) <==> e in a && |e.packets| >= nhitCut
    ensures NhitCut(a + b, nhitCut) == NhitCut(a, nhitCut) + NhitCut(b, nhitCut)
    ensures NhitCut(NhitCut(a, nhitCut), nhitCut) == NhitCut(a, nhitCut)
  {
    FilterMembership(a, Large(nhitCut), e);
    FilterConcat(a, b, Large(nhitCut));
    FilterIdempotent(a, Large(nhitCut));
  }

  // ---------------------------------------------- raw events and references

  /** A raw-event row: `id` (u4) and `unix_ts`. */
  datatype RawEvent = RawEvent(id: int, unixTs: int)

  /** `raw_event_array`: ids from the reserved rows starting at `rawStart`,
      stored as u4, and the timestamp of each event's first unix-timestamp
      packet (`p[0]` raises IndexError when an event has none). */
  function RawEvents(events: seq<Event>, rawStart: int): (r: Option<seq<RawEvent>>)
    ensures r.Some? <==> forall i :: 0 <= i < |events| ==> |events[i].unixTs| > 0
    ensures r.Some? ==> |r.value| == |events|
  {
    if exists i :: 0 <= i < |events| && |events[i].unixTs| == 0 then None
    else Some(seq(|events|, i requires 0 <= i < |events| =>
                 RawEvent(U32(rawStart + i), events[i].unixTs[0].timestamp)))
  }

  /** The raw events take the reserved rows in order as ids - distinct as
      long as fewer than 2^32 are written - and the unix time of their first
      unix-timestamp packet. */
  lemma RawEventIds(events: seq<Event>, rawStart: int, i: nat, j: nat)
    requires RawEvents(events, rawStart).Some?
    requires i < |events| && j < |events| && |events| <= U32Modulus
    ensures var r := RawEvents(events, rawStart).value;
            && (0 <= rawStart + i < U32Modulus ==> r[i].id == rawStart + i)
            && (r[i].id == r[j].id ==> i == j)
            && r[i].unixTs == events[i].unixTs[0].timestamp
  {
    var r := RawEvents(events, rawStart).value;
    if r[i].id == r[j].id {
      U32Injective(rawStart, i, j, |events|);
    }
  }

  function PacketsOf(events: seq<Event>): (r: seq<seq<Packet>>)
    ensures |r| == |events|
    ensures forall i :: 0 <= i < |events| ==> r[i] == events[i].packets
  {
    seq(|events|, i requires 0 <= i < |events| => events[i].packets)
  }

  /** `np.arange(a, a + n)`. */
  function Arange(a: int, n: nat): (r: seq<int>)
    ensures |r| == n
    ensures forall k :: 0 <= k < n ==> r[k] == a + k
  {
    seq(n, k requires 0 <= k < n => a + k)
  }

  /** `packets_idcs[sum(lens[:i]):sum(lens[:i+1])]`. */
  function RefBlock(lens: seq<int>, ids: seq<int>, i: nat): seq<int>
    requires i < |lens| && Sum(lens) <= |ids|
    requires forall k :: 0 <= k < |lens| ==> lens[k] >= 0
  {
    SumPrefixMonotone(lens, 0, i);
    SumPrefixMonotone(lens, i, i + 1);
    SumPrefixMonotone(lens, i + 1, |lens|);
    assert lens[..|lens|] == lens;
    ids[PrefixSum(lens, i)..PrefixSum(lens, i + 1)]
  }

  /** `ref`: one block of packet ids per event. */
  function PacketRefs(lens: seq<int>, ids: seq<int>): (r: seq<seq<int>>)
    requires Sum(lens) <= |ids|
    requires forall k :: 0 <= k < |lens| ==> lens[k] >= 0
    ensures |r| == |lens|
  {
    seq(|lens|, i requires 0 <= i < |lens| => RefBlock(lens, ids, i))
  }

  /** The refs of parts written one after the other from row `packetStart`. */
  function RefsOf(parts: seq<seq<Packet>>, packetStart: int): (r: seq<seq<int>>)
    ensures |r| == |parts|
  {
    ConcatLength(parts);
    PacketRefs(Lens(parts), Arange(packetStart, |Concat(parts)|))
  }

  /** One `next()` call's output rows: raw events, packets and refs. */
  datatype Batch = Batch(rawEvents: seq<RawEvent>, packets: seq<Packet>, refs: seq<seq<int>>)

  /** The events the nhit cut lets through. */
  function Surviving(ps: seq<Packet>, unixTs: seq<Packet>, nhitCut: int, build: Builder): seq<Event>
  {
    var built := build(ps, unixTs);
    NhitCut(PairUp(built.0, built.1), nhitCut)
  }

  /** The rows written for the surviving events: raw events from row
      `rawStart`, their packets one event after the other and the event ->
      packet references into the packet rows reserved from `packetStart`;
      None when `p[0]` raises. */
  function BatchOf(events: seq<Event>, rawStart: int, packetStart: int): Option<Batch>
  {
    match RawEvents(events, rawStart)
    case None => None
    case Some(raw) => Some(Batch(raw, Concat(PacketsOf(events)), RefsOf(PacketsOf(events), packetStart)))
  }

  /** The tail of `next()`: run the event builder, apply the nhit cut and
      lay out the rows to write. */
  function Emit(ps: seq<Packet>, unixTs: seq<Packet>, nhitCut: int, build: Builder,
                rawStart: int, packetStart: int): Option<Batch>
  {
    BatchOf(Surviving(ps, unixTs, nhitCut, build), rawStart, packetStart)
  }

  /** Block `i` of the refs is the slice of `ids` at offset `sum(lens[:i])`
      as long as part `i`. */
  lemma RefBlockAt(lens: seq<int>, ids: seq<int>, i: nat)
    requires i < |lens| && Sum(lens) <= |ids|
    requires forall k :: 0 <= k < |lens| ==> lens[k] >= 0
    ensures SliceAt(ids, lens, PacketRefs(lens, ids), i)
    ensures |RefBlock(lens, ids, i)| == lens[i]
    ensures forall k :: 0 <= k < lens[i] ==>
              0 <= PrefixSum(lens, i) + k < |ids| && RefBlock(lens, ids, i)[k] == ids[PrefixSum(lens, i) + k]
  {
    SumPrefixMonotone(lens, 0, i);
    SumPrefixMonotone(lens, i + 1, |lens|);
    assert lens[..|lens|] == lens;
    assert lens[..i + 1][..i] == lens[..i];
    assert PacketRefs(lens, ids)[i] == RefBlock(lens, ids, i);
  }

  /** The ref blocks cover the reserved ids in order. */
  lemma RefsCover(parts: seq<seq<Packet>>, packetStart: int)
    ensures Concat(RefsOf(parts, packetStart)) == Arange(packetStart, |Concat(parts)|)
  {
    var lens := Lens(parts);
    ConcatLength(parts);
    var ids := Arange(packetStart, |Concat(parts)|);
    var refs := RefsOf(parts, packetStart);
    forall i | 0 <= i < |refs| ensures SliceAt(ids, lens, refs, i) {
      RefBlockAt(lens, ids, i);
    }
    ConcatSlices(ids, lens, refs);
    assert ids[..Sum(lens)] == ids;
  }

  /** Block `i` is as long as part `i`. */
  lemma RefLength(parts: seq<seq<Packet>>, packetStart: int, i: nat)
    requires i < |parts|
    ensures |RefsOf(parts, packetStart)[i]| == |parts[i]|
  {
    var lens := Lens(parts);
    ConcatLength(parts);
    var ids := Arange(packetStart, |Concat(parts)|);
    RefBlockAt(lens, ids, i);
    assert RefsOf(parts, packetStart)[i] == RefBlock(lens, ids, i);
  }

  /** Ref `k` of block `i` exists and points at packet `k` of part `i`. */
  ghost predicate RefHits(parts: seq<seq<Packet>>, packetStart: int, i: nat, k: nat)
    requires i < |parts|
  {
    var refs := RefsOf(parts, packetStart);
    && k < |refs[i]|
    && 0 <= refs[i][k] - packetStart < |Concat(parts)|
    && k < |parts[i]|
    && Concat(parts)[refs[i][k] - packetStart] == parts[i][k]
  }

  lemma RefPoints(parts: seq<seq<Packet>>, packetStart: int, i: nat, k: nat)
    requires i < |parts| && k < |parts[i]|
    ensures RefHits(parts, packetStart, i, k)
  {
    var lens := Lens(parts);
    ConcatLength(parts);
    var ids := Arange(packetStart, |Concat(parts)|);
    RefBlockAt(lens, ids, i);
    assert RefsOf(parts, packetStart)[i] == RefBlock(lens, ids, i);
    ConcatIndex(parts, i, k);
  }

  /** Event `i`'s refs are as many as its packets and point at exactly
      those packet rows; the blocks together cover the reserved packet ids
      in order. */
  lemma EventRefs(events: seq<Event>, packetStart: int)
    ensures Concat(RefsOf(PacketsOf(events), packetStart)) == Arange(packetStart, |Concat(PacketsOf(events))|)
    ensures forall i :: 0 <= i < |events| ==> |RefsOf(PacketsOf(events), packetStart)[i]| == |events[i].packets|
    ensures forall i, k :: 0 <= i < |events| && 0 <= k < |events[i].packets| ==>
              RefHits(PacketsOf(events), packetStart, i, k)
  {
    RefsCover(PacketsOf(events), packetStart);
    RefLengths(events, packetStart);
    RefTargets(events, packetStart);
  }

  lemma RefLengths(events: seq<Event>, packetStart: int)
    ensures forall i :: 0 <= i < |events| ==> |RefsOf(PacketsOf(events), packetStart)[i]| == |events[i].packets|
  {
    var parts := PacketsOf(events);
    forall i | 0 <= i < |events| ensures |RefsOf(parts, packetStart)[i]| == |events[i].packets| {
      RefLength(parts, packetStart, i);
    }
  }

  lemma RefTargets(events: seq<Event>, packetStart: int)
    ensures forall i, k :: 0 <= i < |events| && 0 <= k < |events[i].packets| ==>
              RefHits(PacketsOf(events), packetStart, i, k)
  {
    forall i, k | 0 <= i < |events| && 0 <= k < |events[i].packets|
      ensures RefHits(PacketsOf(events), packetStart, i, k)
    {
      assert PacketsOf(events)[i] == events[i].packets;
      RefPoints(PacketsOf(events), packetStart, i, k);
    }
  }

  /** What `next()` writes for the surviving events: one raw event each,
      their packets one event after the other, and the refs of
      `EventRefs`. */
  lemma BatchLayout(events: seq<Event>, rawStart: int, packetStart: int)
    requires BatchOf(events, rawStart, packetStart).Some?
    ensures var b := BatchOf(events, rawStart, packetStart).value;
            && |b.rawEvents| == |b.refs| == |events|
            && b.packets == Concat(PacketsOf(events))
            && b.refs == RefsOf(PacketsOf(events), packetStart)
            && b.rawEvents == RawEvents(events, rawStart).value
  {
  }

  /** Every event `Emit` writes has at least `nhitCut` packets. */
  lemma SurvivorsLarge(ps: seq<Packet>, unixTs: seq<Packet>, nhitCut: int, build: Builder)
    ensures forall e :: e in Surviving(ps, unixTs, nhitCut, build) ==> |e.packets| >= nhitCut
  {
    var built := build(ps, unixTs);
    forall e | e in Surviving(ps, unixTs, nhitCut, build) ensures |e.packets| >= nhitCut {
      FilterMembership(PairUp(built.0, built.1), Large(nhitCut), e);
    }
  }
}

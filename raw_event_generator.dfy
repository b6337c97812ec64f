/** The raw event generator of one rank: its buffers of the packet dataset,
    its position in them (`iteration`) and the unix-timestamp packet it
    carries from one buffer to the next (`last_unix_ts`); `Next` is one call
    of `next()`. */
module RawEvents {
  import opened Seqs
  import opened PacketStream

  /** The generator's parameters, with `sync_noise_cut` in the pair form the
      cut reads. */
  datatype Config = Config(bufferSize: nat, nhitCut: int, syncNoiseCutEnabled: bool, syncNoiseCut: (int, int))

  /** How `next()` ends: with an exception, or with the rows it wrote and the
      slice of raw events it returns (None for EMPTY). */
  datatype NextResult = Raised | Returned(batch: Batch, rows: Option<Slice>)

  /** The position of the first timestamp packet, if there is one. */
  function FirstTimestamp(s: seq<Packet>): (r: Option<nat>)
    ensures r.Some? ==> r.value < |s| && IsTimestamp(s[r.value])
                        && forall k :: 0 <= k < r.value ==> !IsTimestamp(s[k])
    ensures r.None? ==> forall k :: 0 <= k < |s| ==> !IsTimestamp(s[k])
  {
    if |s| == 0 then None
    else if IsTimestamp(s[0]) then Some(0)
    else match FirstTimestamp(s[1..])
         case None => None
         case Some(j) => Some(j + 1)
  }

  /** `packets[np.argmax(packet_type == 4)]` with the comparison taken
      elementwise over the column, as intended (`FirstUnixTsAsWritten` is
      line 91 as written): the first timestamp packet of the dataset, or its
      first packet when it has none (argmax of an all-false mask is 0). */
  function FirstUnixTs(packets: seq<Packet>): (p: Packet)
    requires |packets| > 0
    ensures (exists k :: 0 <= k < |packets| && IsTimestamp(packets[k])) ==>
              IsTimestamp(p) && exists j :: 0 <= j < |packets| && p == packets[j]
                                             && forall k :: 0 <= k < j ==> !IsTimestamp(packets[k])
    ensures (forall k :: 0 <= k < |packets| ==> !IsTimestamp(packets[k])) ==> p == packets[0]
  {
    match FirstTimestamp(packets)
    case None => packets[0]
    case Some(j) => packets[j]
  }

  /** `self.slices[self.iteration]`, or EMPTY once the slices are used up. */
  function CurrentSlice(slices: seq<Slice>, iteration: nat): (r: Option<Slice>)
    ensures r.None? <==> iteration >= |slices|
    ensures r.Some? ==> r.value == slices[iteration]
  {
    if iteration >= |slices| then None else Some(slices[iteration])
  }

  function Clamp(x: int, lo: int, hi: int): (r: int)
    requires lo <= hi
    ensures lo <= r <= hi
  {
    if x < lo then lo else if x > hi then hi else x
  }

  /** `self.packets[sl]` for a buffer starting at a non-negative row: the
      stop is cut back to the dataset's end; EMPTY reads nothing. */
  function Block(packets: seq<Packet>, sl: Option<Slice>): (b: seq<Packet>)
    ensures sl.None? ==> b == []
    ensures sl.Some? && 0 <= sl.value.start <= sl.value.stop <= |packets| ==>
              b == packets[sl.value.start..sl.value.stop]
    ensures sl.Some? && 0 <= sl.value.start <= |packets| < sl.value.stop ==>
              b == packets[sl.value.start..]
    ensures sl.Some? && |packets| <= sl.value.start ==> b == []
  {
    match sl
    case None => []
    case Some(s) =>
      var lo := Clamp(s.start, 0, |packets|);
      packets[lo..Clamp(s.stop, lo, |packets|)]
  }

  /** The rank `pass_last_unix_ts` receives from: the previous rank, rank 0
      from the last one. */
  function Source(rank: nat, size: nat): nat
    requires rank < size
  {
    if rank > 0 then rank - 1 else size - 1
  }

  /** The rank `pass_last_unix_ts` sends to: the next rank, the last rank to
      rank 0. */
  function Dest(rank: nat, size: nat): nat
    requires rank < size
  {
    if rank == size - 1 then 0 else rank + 1
  }

  /** The ranks pass timestamps round a ring: each rank receives from the
      rank that sends to it. */
  lemma RingExchange(rank: nat, size: nat)
    requires rank < size
    ensures Source(rank, size) < size && Dest(rank, size) < size
    ensures Dest(Source(rank, size), size) == rank
    ensures Source(Dest(rank, size), size) == rank
    ensures Dest(rank, size) == (rank + 1) % size
  {
  }

  /** The position of the first timestamp packet with the largest timestamp
      (`np.argmax` over the timestamp packets' timestamps), if there is a
      timestamp packet. */
  function MaxTimestampAt(s: seq<Packet>): (r: Option<nat>)
    ensures r.Some? ==> r.value < |s| && IsTimestamp(s[r.value])
                        && (forall k :: 0 <= k < |s| && IsTimestamp(s[k]) ==> s[k].timestamp <= s[r.value].timestamp)
                        && (forall k :: 0 <= k < r.value && IsTimestamp(s[k]) ==> s[k].timestamp < s[r.value].timestamp)
    ensures r.None? ==> forall k :: 0 <= k < |s| ==> !IsTimestamp(s[k])
  {
    if |s| == 0 then None
    else
      var rest := MaxTimestampAt(s[1..]);
      if !IsTimestamp(s[0]) then
        (if rest.None? then None else Some(rest.value + 1))
      else if rest.None? || s[0].timestamp >= s[rest.value + 1].timestamp then Some(0)
      else Some(rest.value + 1)
  }

  /** `max_unix_ts`: the timestamp packet of the buffer with the largest
      timestamp, or `last` when the buffer has none. */
  function MaxUnixTs(packets: seq<Packet>, last: Packet): (p: Packet)
    ensures p == last || (p in packets && IsTimestamp(p))
    ensures IsTimestamp(last) ==> IsTimestamp(p)
    ensures p != last ==> forall k :: 0 <= k < |packets| && IsTimestamp(packets[k]) ==> packets[k].timestamp <= p.timestamp
    ensures (exists k :: 0 <= k < |packets| && IsTimestamp(packets[k])) ==>
              && p in packets && IsTimestamp(p)
              && forall k :: 0 <= k < |packets| && IsTimestamp(packets[k]) ==> packets[k].timestamp <= p.timestamp
    ensures (forall k :: 0 <= k < |packets| ==> !IsTimestamp(packets[k])) ==> p == last
  {
    match MaxTimestampAt(packets)
    case None => last
    case Some(j) => packets[j]
  }

  /** `pass_last_unix_ts` on rank `rank` of `size`: the new `last_unix_ts`
      (the packet `received` from `Source` when there are two ranks or more)
      and the message sent, as its destination and packet: the last rank
      sends its `last_unix_ts` on to rank 0, every other rank the largest
      timestamp packet of its buffer. */
  function PassLastUnixTs(packets: seq<Packet>, last: Packet, rank: nat, size: nat,
                          received: Packet): (r: (Packet, Option<(nat, Packet)>))
    requires rank < size
  {
    if size < 2 then (last, None)
    else (received, Some((Dest(rank, size), if rank == size - 1 then last else MaxUnixTs(packets, last))))
  }

  /** With one rank nothing is exchanged; with more, every rank sends one
      timestamp packet (when its own is one) to the next rank round the
      ring and takes on what it receives. */
  lemma ExchangeFacts(packets: seq<Packet>, last: Packet, rank: nat, size: nat, received: Packet)
    requires rank < size
    ensures size < 2 ==> PassLastUnixTs(packets, last, rank, size, received) == (last, None)
    ensures size >= 2 ==>
              var (next, sent) := PassLastUnixTs(packets, last, rank, size, received);
              && next == received && sent.Some?
              && sent.value.0 == (rank + 1) % size
              && (IsTimestamp(last) ==> IsTimestamp(sent.value.1))
              && (rank < size - 1 ==> sent.value.1 == last || sent.value.1 in packets)
  {
    RingExchange(rank, size);
  }

  /** What `next()` hands on from a buffer, up to the sync-noise cut: the
      packets that are not timestamp packets, wrapped to 31 bits, and the
      `unix_ts` array, both taken after `last` is put in front. */
  function Prepared(block: seq<Packet>, last: Packet): (seq<Packet>, seq<Packet>)
  {
    var buffer := [last] + FilterPackets(block);
    (WrapAll(Select(buffer, NotTimestampMask(buffer))), UnixTs(buffer))
  }

  /** The sync-noise cut when it is enabled. */
  function Cut(ps: seq<Packet>, unixTs: seq<Packet>, config: Config): Option<(seq<Packet>, seq<Packet>)>
  {
    if config.syncNoiseCutEnabled then SyncCut(ps, unixTs, config.syncNoiseCut.0, config.syncNoiseCut.1)
    else Some((ps, unixTs))
  }

  /** The rows `next()` writes for a buffer, or None when it raises. */
  function Process(block: seq<Packet>, last: Packet, config: Config, build: Builder,
                   rawStart: int, packetStart: int): Option<Batch>
  {
    var (ps, unixTs) := Prepared(block, last);
    match Cut(ps, unixTs, config)
    case None => None
    case Some((kept, keptTs)) => Emit(kept, keptTs, config.nhitCut, build, rawStart, packetStart)
  }

  /** The value `next()` ends with: the reserved raw-event rows, or EMPTY
      when the buffer read was EMPTY. */
  function Outcome(batch: Option<Batch>, sl: Option<Slice>, rawStart: int): NextResult
  {
    if batch.None? then Raised
    else Returned(batch.value, if sl.None? then None else Some(Slice(rawStart, rawStart + |batch.value.rawEvents|)))
  }

  /** With a timestamp packet carried in, the packets and `unix_ts` stay
      paired one to one: each packet with the latest timestamp packet before
      it; every packet's timestamp is in [0, 2^31); no timestamp packet is
      handed on, and so the cut never raises. */
  lemma PreparedAligned(block: seq<Packet>, last: Packet, config: Config)
    requires IsTimestamp(last)
    ensures var (ps, unixTs) := Prepared(block, last);
            && |ps| == |unixTs|
            && unixTs == Paired([last] + FilterPackets(block))
            && (forall k :: 0 <= k < |ps| ==> 0 <= ps[k].timestamp < TimestampModulus && !IsTimestamp(ps[k]))
            && (forall x :: x in unixTs ==> IsTimestamp(x))
            && Cut(ps, unixTs, config).Some?
  {
    var buffer := [last] + FilterPackets(block);
    GroupingPairsLatest(buffer);
    PairedTimestamps(buffer);
    var rest := Select(buffer, NotTimestampMask(buffer));
    SelectMembership(buffer, NotTimestampMask(buffer));
    forall k | 0 <= k < |rest| ensures !IsTimestamp(rest[k]) {
      assert rest[k] in rest;
    }
  }

  /** Carrying in a packet that is not a timestamp packet - as happens when
      the dataset has none - leaves `unix_ts` one entry short, and the
      enabled cut then raises. */
  lemma MisalignedRaises(block: seq<Packet>, last: Packet, config: Config, build: Builder,
                         rawStart: int, packetStart: int)
    requires !IsTimestamp(last)
    ensures |Prepared(block, last).1| + 1 == |Prepared(block, last).0|
    ensures config.syncNoiseCutEnabled ==> Process(block, last, config, build, rawStart, packetStart).None?
  {
    var buffer := [last] + FilterPackets(block);
    GroupingMisaligned(buffer);
  }

  /** The next `last_unix_ts` is a timestamp packet again. */
  lemma CarriedTimestamp(block: seq<Packet>, last: Packet)
    requires IsTimestamp(last)
    ensures IsTimestamp(NextLastUnixTs(UnixTs([last] + FilterPackets(block)), last))
  {
    LastUnixTsLatest([last] + FilterPackets(block));
  }

  /** Line 91 as written: `packets.fields('packet_type')` is h5py's lazy
      field reader, not an array, and it defines no `==`; so `== 4` is the
      plain value False, `np.argmax(False)` is 0, and the packet carried in
      is packet 0 whatever the dataset holds. */
  function FirstUnixTsAsWritten(packets: seq<Packet>): Packet
    requires |packets| > 0
  {
    packets[0]
  }

  /** As written, a dataset whose packet 0 is not a timestamp packet starts
      its first buffer with `unix_ts` one entry short, and with the cut
      enabled `next()` raises, even when the dataset has timestamp packets;
      the first timestamp packet, as intended, keeps the buffer aligned. */
  lemma FirstBufferMisaligned(packets: seq<Packet>, block: seq<Packet>, config: Config, build: Builder,
                              rawStart: int, packetStart: int)
    requires |packets| > 0 && !IsTimestamp(packets[0])
    ensures var (ps, unixTs) := Prepared(block, FirstUnixTsAsWritten(packets));
            |unixTs| + 1 == |ps|
    ensures config.syncNoiseCutEnabled ==>
              Process(block, FirstUnixTsAsWritten(packets), config, build, rawStart, packetStart).None?
  {
    MisalignedRaises(block, packets[0], config, build, rawStart, packetStart);
  }

  /** A concrete dataset: a data packet followed by a timestamp packet.  As
      written the data packet is carried in; the first timestamp packet is
      the one intended. */
  lemma FirstUnixTsExample()
    ensures !IsTimestamp(FirstUnixTsAsWritten([Packet(DataKind, true, 5), Packet(TimestampKind, true, 100)]))
    ensures FirstUnixTs([Packet(DataKind, true, 5), Packet(TimestampKind, true, 100)])
            == Packet(TimestampKind, true, 100)
  {
    var s := [Packet(DataKind, true, 5), Packet(TimestampKind, true, 100)];
    assert FirstTimestamp(s[1..]) == Some(0);
  }

  /** With the first timestamp packet carried in, as intended, a dataset that
      has a timestamp packet starts its first buffer aligned: `unix_ts` pairs
      every packet and the cut never raises. */
  lemma FirstBufferAligned(packets: seq<Packet>, block: seq<Packet>, config: Config)
    requires |packets| > 0 && exists k :: 0 <= k < |packets| && IsTimestamp(packets[k])
    ensures IsTimestamp(FirstUnixTs(packets))
    ensures var (ps, unixTs) := Prepared(block, FirstUnixTs(packets));
            |ps| == |unixTs| && Cut(ps, unixTs, config).Some?
  {
    PreparedAligned(block, FirstUnixTs(packets), config);
  }

  /** The rows written are those of `Emit` for the packets inside the window. */
  lemma ProcessWrites(block: seq<Packet>, last: Packet, config: Config, build: Builder,
                      rawStart: int, packetStart: int)
    requires IsTimestamp(last)
    ensures var (ps, unixTs) := Prepared(block, last);
            var cut := SyncCut(ps, unixTs, config.syncNoiseCut.0, config.syncNoiseCut.1);
            && cut.Some?
            && Process(block, last, config, build, rawStart, packetStart)
               == if config.syncNoiseCutEnabled
                  then Emit(cut.value.0, cut.value.1, config.nhitCut, build, rawStart, packetStart)
                  else Emit(ps, unixTs, config.nhitCut, build, rawStart, packetStart)
  {
    PreparedAligned(block, last, config);
  }

  /** `packet_buffer['timestamp'] = packet_buffer['timestamp'] % 2**31`, in
      place. */
  method WrapTimestamps(a: array<Packet>)
    modifies a
    ensures a[..] == WrapAll(old(a[..]))
  {
    ghost var before := a[..];
    for k := 0 to a.Length
      invariant forall j :: 0 <= j < k ==> a[j] == Wrap(before[j])
      invariant forall j :: k <= j < a.Length ==> a[j] == before[j]
    {
      a[k] := a[k].(timestamp := a[k].timestamp % TimestampModulus);
    }
  }

  class RawEventGenerator {
    /** The packet dataset of the input file. */
    const packets: seq<Packet>
    const config: Config
    const rank: nat
    const size: nat
    const slices: seq<Slice>
    var iteration: nat
    var lastUnixTs: Packet

    /** `__init__` on rank `rank` of `size`: the buffers of this rank and
        the first timestamp packet of the dataset (the intended reading of
        `np.argmax`), which every rank gets. */
    constructor (packets: seq<Packet>, startPosition: Option<int>, endPosition: Option<int>,
                 rank: nat, size: nat, config: Config)
      requires |packets| > 0 && rank < size && config.bufferSize > 0
      requires startPosition.None? || startPosition.value >= 0
      ensures this.packets == packets && this.config == config
      ensures this.rank == rank && this.size == size
      ensures slices == Slices(StartPosition(startPosition), EndPosition(endPosition, |packets|),
                               rank, size, config.bufferSize)
      ensures iteration == 0 && lastUnixTs == FirstUnixTs(packets)
    {
      this.packets := packets;
      this.config := config;
      this.rank := rank;
      this.size := size;
      slices := Slices(StartPosition(startPosition), EndPosition(endPosition, |packets|),
                       rank, size, config.bufferSize);
      iteration := 0;
      lastUnixTs := FirstUnixTs(packets);
    }

    /** `__len__`: the number of buffers of this rank. */
    function Length(): (n: nat)
      reads this
      ensures n == |slices|
    {
      |slices|
    }

    /** `next()`: reads the current buffer (or nothing once the buffers are
        used up), advances `iteration`, exchanges `last_unix_ts` with the
        neighbouring ranks - `received` is what arrives, `sent` what leaves -
        and updates it again before the cut; the rows written begin at the
        reserved rows `rawStart` and `packetStart`. */
    method Next(build: Builder, received: Packet, rawStart: int, packetStart: int)
      returns (r: NextResult, sent: Option<(nat, Packet)>)
      requires rank < size
      modifies this
      ensures iteration == old(iteration) + 1
      ensures var sl := CurrentSlice(slices, old(iteration));
              var kept := FilterPackets(Block(packets, sl));
              var (last, message) := PassLastUnixTs(kept, old(lastUnixTs), rank, size, received);
              && sent == message
              && lastUnixTs == NextLastUnixTs(UnixTs([last] + kept), last)
              && r == Outcome(Process(Block(packets, sl), last, config, build, rawStart, packetStart), sl, rawStart)
      ensures IsTimestamp(old(lastUnixTs)) && (size < 2 || IsTimestamp(received)) ==> IsTimestamp(lastUnixTs)
      ensures IsTimestamp(old(lastUnixTs)) && sent.Some? ==> IsTimestamp(sent.value.1)
    {
      var sl := CurrentSlice(slices, iteration);
      iteration := iteration + 1;
      var block := Block(packets, sl);
      var kept := FilterPackets(block);
      ExchangeFacts(kept, lastUnixTs, rank, size, received);
      var exchanged := PassLastUnixTs(kept, lastUnixTs, rank, size, received);
      lastUnixTs, sent := exchanged.0, exchanged.1;
      var buffer := [lastUnixTs] + kept;
      var unixTs := UnixTs(buffer);
      var rest := Select(buffer, NotTimestampMask(buffer));
      var a := new Packet[|rest|](k requires 0 <= k < |rest| => rest[k]);
      assert a[..] == rest;
      WrapTimestamps(a);
      rest := a[..];
      ghost var last := lastUnixTs;
      lastUnixTs := NextLastUnixTs(unixTs, lastUnixTs);
      if IsTimestamp(last) {
        CarriedTimestamp(block, last);
      }
      var cut := Cut(rest, unixTs, config);
      if cut.None? {
        r := Raised;
      } else {
        var batch := Emit(cut.value.0, cut.value.1, config.nhitCut, build, rawStart, packetStart);
        r := Outcome(batch, sl, rawStart);
      }
    }
  }

  /** Once the buffers are used up `next()` reads nothing and returns
      EMPTY, unless it raises. */
  lemma ExhaustedIsEmpty(packets: seq<Packet>, slices: seq<Slice>, iteration: nat, last: Packet,
                         config: Config, build: Builder, rawStart: int, packetStart: int)
    requires iteration >= |slices|
    ensures Block(packets, CurrentSlice(slices, iteration)) == []
    ensures var r := Outcome(Process([], last, config, build, rawStart, packetStart),
                             CurrentSlice(slices, iteration), rawStart);
            r.Raised? || r.rows.None?
  {
  }

  /** A buffer that is read returns the raw-event rows it wrote. */
  lemma ReadReturnsRows(batch: Option<Batch>, slices: seq<Slice>, iteration: nat, rawStart: int)
    requires iteration < |slices| && batch.Some?
    ensures var r := Outcome(batch, CurrentSlice(slices, iteration), rawStart);
            r.Returned? && r.rows == Some(Slice(rawStart, rawStart + |r.batch.rawEvents|))
  {
  }
}

/** psn_encoder::encode_data: greedy packing of a tracker map into datagrams of
    at most 1500 bytes, with backtracking and back-patched lengths. */
module PsnEncoder {
  import opened Basics
  import opened PsnDefs
  import opened PsnPacking
  import OrderedKeys

  // ------------------------------------------- what the packing must compute

  /** The ids of the map in the order of `std::map` iteration. */
  function Ids(m: TrackerMap): (ids: seq<int>)
    ensures Tracked(ids, m) && OrderedKeys.Ascending(ids)
    ensures forall id :: id in ids <==> id in m
  {
    OrderedKeys.Sorted(m.Keys)
  }

  function SizesOf(m: TrackerMap): (sizes: Sizes)
    requires ValidMap(m)
    ensures sizes.Keys == m.Keys
  {
    map id | id in m :: |TrackerBytes(id, m[id])|
  }

  /** The ids of each packet that `encode_data` produces. */
  function Chunks(m: TrackerMap): seq<seq<int>>
    requires ValidMap(m)
  {
    Pack(Ids(m), SizesOf(m))
  }

  lemma {:induction false} ListBytesSize(ids: seq<int>, m: TrackerMap)
    requires ValidMap(m) && Tracked(ids, m)
    ensures Sized(ids, SizesOf(m)) && |ListBytes(ids, m)| == Total(ids, SizesOf(m))
  {
    if ids != [] {
      ListBytesSize(ids[1..], m);
    }
  }

  /** The bytes of one datagram; `padding` is the tail of `packet_header` that
      the encoder never writes. */
  predicate IsPacket(packet: seq<byte>, frameId: byte, count: byte, timestamp: seq<byte>, ids: seq<int>, m: TrackerMap)
    requires ValidMap(m) && |timestamp| == 8
  {
    && LIST_OFFSET <= |packet| <= MAX_UDP_PACKET_SIZE
    && Tracked(ids, m)
    && |ListBytes(ids, m)| + LIST_OFFSET <= MAX_UDP_PACKET_SIZE
    && packet == PacketBytes(HeaderBytes(frameId, count, timestamp, packet[20..24]), ListBytes(ids, m))
  }

  // ------------------------------------------------------- buffer operations

  method FillChunkHeader(buffer: array<byte>, pos: nat, h: ChunkHeader) returns (ok: bool, next: nat)
    requires pos <= buffer.Length
    modifies buffer
    ensures ok <==> pos + CHUNK_HEADER_SIZE <= buffer.Length
    ensures ok ==> next == pos + CHUNK_HEADER_SIZE && buffer[..next] == old(buffer[..pos]) + EncodeHeader(h)
    ensures !ok ==> next == pos && buffer[..] == old(buffer[..])
  {
    if buffer.Length - pos < CHUNK_HEADER_SIZE {
      return false, pos;
    }
    var b := EncodeHeader(h);
    buffer[pos], buffer[pos + 1], buffer[pos + 2], buffer[pos + 3] := b[0], b[1], b[2], b[3];
    ok, next := true, pos + CHUNK_HEADER_SIZE;
    assert buffer[..pos] == old(buffer[..pos]);
    assert buffer[pos..next] == b;
    assert buffer[..next] == buffer[..pos] + buffer[pos..next];
  }

  /** `chunk->data_len = len` on a header already in the buffer. */
  method PatchLength(buffer: array<byte>, at: nat, len: U15, end: nat, ghost h: ChunkHeader, ghost front: seq<byte>,
                     ghost back: seq<byte>)
    requires at == |front| && at + CHUNK_HEADER_SIZE + |back| == end <= buffer.Length
    requires buffer[..end] == front + EncodeHeader(h) + back
    modifies buffer
    ensures buffer[..end] == front + EncodeHeader(h.(dataLen := len)) + back
  {
    ghost var b := EncodeHeader(h);
    ghost var all := buffer[..end];
    assert all[at] == b[0] && all[at + 1] == b[1] && all[at + 2] == b[2] && all[at + 3] == b[3];
    assert all[..at] == front && all[at + 4..] == back;
    var flag := buffer[at + 3] >= 128;
    buffer[at + 2], buffer[at + 3] := len % 256, len / 256 + if flag then 128 else 0;
    assert buffer[at..at + 4] == EncodeHeader(h.(dataLen := len));
    assert buffer[..at] == all[..at];
    assert buffer[at + 4..end] == all[at + 4..];
    assert buffer[..end] == buffer[..at] + buffer[at..at + 4] + buffer[at + 4..end];
  }

  method CopyIn(buffer: array<byte>, pos: nat, v: seq<byte>)
    requires pos + |v| <= buffer.Length
    modifies buffer
    ensures buffer[..pos + |v|] == old(buffer[..pos]) + v
  {
    forall i | 0 <= i < |v| { buffer[pos + i] := v[i]; }
    assert buffer[..pos] == old(buffer[..pos]);
    assert buffer[pos..pos + |v|] == v;
    assert buffer[..pos + |v|] == buffer[..pos] + buffer[pos..pos + |v|];
  }

  /** Writes the header fields but neither the packet count, patched later, nor
      the padding. */
  method FillPacketHeader(buffer: array<byte>, pos: nat, frameId: byte, timestamp: seq<byte>)
    returns (ok: bool, next: nat)
    requires pos <= buffer.Length && |timestamp| == 8
    modifies buffer
    ensures ok <==> pos + 20 <= buffer.Length
    ensures ok ==> next == pos + 20
    ensures ok ==> buffer[..pos + 15] ==
                   old(buffer[..pos]) + EncodeHeader(ChunkHeader(DATA_PACKET_HEADER, PACKET_HEADER_SIZE, false)) +
                   timestamp + [2, 0, frameId]
  {
    ok, next := FillChunkHeader(buffer, pos, ChunkHeader(DATA_PACKET_HEADER, PACKET_HEADER_SIZE, false));
    if !ok {
      return;
    }
    if buffer.Length - next < PACKET_HEADER_SIZE {
      return false, next;
    }
    CopyIn(buffer, next, timestamp + [2, 0, frameId]);
    next := next + PACKET_HEADER_SIZE;
  }

  method FillTrackerField(buffer: array<byte>, pos: nat, k: nat, v: seq<byte>) returns (ok: bool, next: nat)
    requires pos <= buffer.Length && k < FIELD_COUNT && |v| == FieldSize(k)
    modifies buffer
    ensures ok <==> pos + |FieldBytes(k, v)| <= buffer.Length
    ensures ok ==> next == pos + |FieldBytes(k, v)| && buffer[..next] == old(buffer[..pos]) + FieldBytes(k, v)
    ensures !ok ==> buffer[..pos] == old(buffer[..pos])
  {
    ok, next := FillChunkHeader(buffer, pos, ChunkHeader(k, |v|, false));
    if !ok {
      return;
    }
    if buffer.Length - next < |v| {
      assert buffer[..pos] == buffer[..next][..pos];
      return false, next;
    }
    CopyIn(buffer, next, v);
    next := next + |v|;
  }

  /** The chain of conditions over the seven fields: stops at the first set
      field that does not fit. */
  lemma FieldsNext(t: Tracker, k: nat)
    requires ValidTracker(t) && k < FIELD_COUNT
    ensures FieldsBytes(t, k) == if k in t then FieldBytes(k, t[k]) + FieldsBytes(t, k + 1) else FieldsBytes(t, k + 1)
  {
  }

  lemma FieldsEnd(t: Tracker)
    requires ValidTracker(t)
    ensures FieldsBytes(t, FIELD_COUNT) == []
  {
  }

  lemma FrontKept(done: seq<byte>, rest: seq<byte>, before: seq<byte>, all: seq<byte>, pos: nat)
    requires done + rest == before + all && |before| == pos <= |done|
    ensures done[..pos] == before
  {
    assert done[..pos] == (done + rest)[..pos];
  }

  method FillTrackerFields(buffer: array<byte>, pos: nat, t: Tracker) returns (ok: bool, next: nat)
    requires pos <= buffer.Length && ValidTracker(t)
    modifies buffer
    ensures ok <==> pos + |FieldsBytes(t, 0)| <= buffer.Length
    ensures ok ==> next == pos + |FieldsBytes(t, 0)| && buffer[..next] == old(buffer[..pos]) + FieldsBytes(t, 0)
    ensures !ok ==> buffer[..pos] == old(buffer[..pos])
  {
    hide EncodeHeader, FieldsBytes, FieldBytes;
    next := pos;
    ghost var before := buffer[..pos];
    for k := 0 to FIELD_COUNT
      invariant pos <= next <= buffer.Length
      invariant next + |FieldsBytes(t, k)| == pos + |FieldsBytes(t, 0)|
      invariant buffer[..next] + FieldsBytes(t, k) == before + FieldsBytes(t, 0)
    {
      if k in t {
        ghost var start, done := next, buffer[..next];
        FieldsNext(t, k);
        ok, next := FillTrackerField(buffer, next, k, t[k]);
        if !ok {
          assert buffer[..pos] == buffer[..start][..pos];
          FrontKept(done, FieldsBytes(t, k), before, FieldsBytes(t, 0), pos);
          return;
        }
        assert buffer[..next] + FieldsBytes(t, k + 1) == done + FieldsBytes(t, k);
      } else {
        FieldsNext(t, k);
      }
    }
    ok := true;
    FieldsEnd(t);
    assert buffer[..next] == before + FieldsBytes(t, 0);
  }

  /** One tracker chunk. The caller backtracks to `pos` when it does not fit. */
  method FillTracker(buffer: array<byte>, pos: nat, id: U16, t: Tracker) returns (ok: bool, next: nat)
    requires pos <= buffer.Length && ValidTracker(t)
    modifies buffer
    ensures ok <==> pos + |TrackerBytes(id, t)| <= buffer.Length
    ensures ok ==> next == pos + |TrackerBytes(id, t)| && buffer[..next] == old(buffer[..pos]) + TrackerBytes(id, t)
    ensures !ok ==> buffer[..pos] == old(buffer[..pos])
  {
    hide EncodeHeader, FieldsBytes;
    ghost var before := buffer[..pos];
    var h := ChunkHeader(id, 0, true);
    var fieldsAt;
    ok, fieldsAt := FillChunkHeader(buffer, pos, h);
    if !ok {
      return false, pos;
    }
    ghost var withHeader := buffer[..fieldsAt];
    ok, next := FillTrackerFields(buffer, fieldsAt, t);
    if !ok {
      assert buffer[..pos] == buffer[..fieldsAt][..pos] == withHeader[..pos] == before;
      return false, pos;
    }
    PatchLength(buffer, pos, next - fieldsAt, next, h, before, FieldsBytes(t, 0));
  }

  /** `taken` of the trackers `ids` are in the packet, which is `used` bytes
      long; `rest` is where the iterator stands. */
  ghost predicate Filled(ids: seq<int>, taken: seq<int>, rest: seq<int>, m: TrackerMap, used: nat)
    requires ValidMap(m) && Tracked(ids, m) && Tracked(taken, m) && Tracked(rest, m)
  {
    && ids == taken + rest
    && Sized(ids, SizesOf(m)) && Sized(rest, SizesOf(m))
    && used == LIST_OFFSET + |ListBytes(taken, m)|
    && Fit(ids, SizesOf(m), LIST_OFFSET) == |taken| + Fit(rest, SizesOf(m), used)
  }

  lemma FilledStart(ids: seq<int>, m: TrackerMap)
    requires ValidMap(m) && Tracked(ids, m)
    ensures Tracked([], m) && Filled(ids, [], ids, m, LIST_OFFSET) && ListBytes([], m) == []
  {
    ListBytesSize(ids, m);
    assert ids == [] + ids;
  }

  lemma FilledNext(ids: seq<int>, taken: seq<int>, rest: seq<int>, m: TrackerMap, used: nat)
    requires ValidMap(m) && Tracked(ids, m) && Tracked(taken, m) && Tracked(rest, m)
    requires Filled(ids, taken, rest, m, used) && rest != []
    ensures rest[0] in m && Tracked(taken + [rest[0]], m) && Tracked(rest[1..], m)
    ensures ListBytes(taken + [rest[0]], m) == ListBytes(taken, m) + TrackerBytes(rest[0], m[rest[0]])
    ensures var end := used + |TrackerBytes(rest[0], m[rest[0]])|;
            if end <= MAX_UDP_PACKET_SIZE then Filled(ids, taken + [rest[0]], rest[1..], m, end)
            else used <= MAX_UDP_PACKET_SIZE ==> Closed(ids, taken, rest, m)
  {
    hide TrackerBytes;
    ListBytesSnoc(taken, rest[0], m);
    assert (taken + [rest[0]]) + rest[1..] == taken + rest;
  }

  lemma FilledEnd(ids: seq<int>, taken: seq<int>, m: TrackerMap, used: nat)
    requires ValidMap(m) && Tracked(ids, m) && Tracked(taken, m) && Tracked([], m)
    requires Filled(ids, taken, [], m, used) && used <= MAX_UDP_PACKET_SIZE
    ensures Closed(ids, taken, [], m)
  {
  }

  /** What the turn of the outer loop leaves: a packet of a greedy packing. */
  ghost predicate Closed(ids: seq<int>, taken: seq<int>, rest: seq<int>, m: TrackerMap)
    requires ValidMap(m)
  {
    && Tracked(ids, m) && Tracked(taken, m) && Tracked(rest, m)
    && ids == taken + rest && Sized(ids, SizesOf(m)) && |taken| == Fit(ids, SizesOf(m), LIST_OFFSET)
    && LIST_OFFSET + |ListBytes(taken, m)| <= MAX_UDP_PACKET_SIZE
  }

  /** The list chunk written so far, behind the `front` of the packet. */
  function ListPrefix(front: seq<byte>, list: seq<byte>): seq<byte>
    requires |list| < 0x8000
  {
    front + EncodeHeader(ChunkHeader(DATA_TRACKER_LIST, |list|, true)) + list
  }

  /** One turn of the loop over trackers: appends a tracker chunk and adds its
      size to the length of the list, or leaves the list as it was. */
  method AppendTracker(buffer: array<byte>, pos: nat, id: U16, t: Tracker, ghost front: seq<byte>,
                       ghost list: seq<byte>)
    returns (ok: bool, next: nat)
    requires ValidTracker(t) && buffer.Length == MAX_UDP_PACKET_SIZE
    requires |front| + CHUNK_HEADER_SIZE == LIST_OFFSET && pos == LIST_OFFSET + |list| <= buffer.Length
    requires buffer[..pos] == ListPrefix(front, list)
    modifies buffer
    ensures ok <==> pos + |TrackerBytes(id, t)| <= buffer.Length
    ensures next == if ok then pos + |TrackerBytes(id, t)| else pos
    ensures ok ==> buffer[..next] == ListPrefix(front, list + TrackerBytes(id, t))
    ensures !ok ==> buffer[..pos] == ListPrefix(front, list)
  {
    hide EncodeHeader, TrackerBytes;
    ok, next := FillTracker(buffer, pos, id, t);
    if !ok {
      return false, pos;
    }
    var h := ChunkHeader(DATA_TRACKER_LIST, pos - LIST_OFFSET, true);
    ghost var longer := list + TrackerBytes(id, t);
    assert buffer[..next] == front + EncodeHeader(h) + longer;
    PatchLength(buffer, LIST_OFFSET - CHUNK_HEADER_SIZE, next - LIST_OFFSET, next, h, front, longer);
  }

  /** Fills the tracker list of one packet from the front of `ids` and stops at
      the first tracker that does not fit. */
  method FillTrackerList(buffer: array<byte>, ids: seq<int>, m: TrackerMap, ghost front: seq<byte>)
    returns (ghost taken: seq<int>, rest: seq<int>, next: nat)
    requires ValidMap(m) && Tracked(ids, m)
    requires buffer.Length == MAX_UDP_PACKET_SIZE && |front| + CHUNK_HEADER_SIZE == LIST_OFFSET
    requires buffer[..LIST_OFFSET] == ListPrefix(front, [])
    modifies buffer
    ensures Closed(ids, taken, rest, m)
    ensures next == LIST_OFFSET + |ListBytes(taken, m)| <= buffer.Length
    ensures buffer[..next] == ListPrefix(front, ListBytes(taken, m))
  {
    hide TrackerBytes, ListBytes, ListPrefix, Tracked, ValidMap, Filled, Closed;
    FilledStart(ids, m);
    taken, rest, next := [], ids, LIST_OFFSET;
    while rest != []
      invariant Tracked(taken, m) && Tracked(rest, m) && Filled(ids, taken, rest, m, next)
      invariant next == LIST_OFFSET + |ListBytes(taken, m)| <= buffer.Length
      invariant buffer[..next] == ListPrefix(front, ListBytes(taken, m))
      decreases |rest|
    {
      FilledNext(ids, taken, rest, m, next);
      MapEntry(rest[0], m);
      var ok, end := AppendTracker(buffer, next, rest[0], m[rest[0]], front, ListBytes(taken, m));
      if !ok {
        return;
      }
      taken, rest, next := taken + [rest[0]], rest[1..], end;
    }
    assert rest == [];
    FilledEnd(ids, taken, m, next);
  }

  lemma MapEntry(id: int, m: TrackerMap)
    requires ValidMap(m) && id in m
    ensures 0 <= id < 0x1_0000 && ValidTracker(m[id])
  {
  }

  // ------------------------------------------------------------- the encoder

  /** A packet whose count byte still holds whatever the buffer held. */
  predicate IsUncounted(packet: seq<byte>, frameId: byte, timestamp: seq<byte>, ids: seq<int>, m: TrackerMap)
    requires ValidMap(m) && |timestamp| == 8
  {
    |packet| > COUNT_OFFSET && IsPacket(packet, frameId, packet[COUNT_OFFSET], timestamp, ids, m)
  }

  lemma ApplyCount(packet: seq<byte>, frameId: byte, count: byte, timestamp: seq<byte>, ids: seq<int>, m: TrackerMap)
    requires ValidMap(m) && |timestamp| == 8
    requires IsUncounted(packet, frameId, timestamp, ids, m)
    ensures IsPacket(packet[COUNT_OFFSET := count], frameId, count, timestamp, ids, m)
  {
    hide EncodeHeader, ListBytes;
    var patched := packet[COUNT_OFFSET := count];
    var pad, list := packet[20..24], ListBytes(ids, m);
    assert patched[20..24] == pad;
    var h, h' := HeaderBytes(frameId, packet[COUNT_OFFSET], timestamp, pad), HeaderBytes(frameId, count, timestamp, pad);
    assert h' == h[11 := count];
    assert PacketBytes(h', list) == PacketBytes(h, list)[COUNT_OFFSET := count];
  }

  const HEADER_CHUNK := ChunkHeader(DATA_PACKET_HEADER, PACKET_HEADER_SIZE, false)

  /** Main header and packet header; the count byte and the padding keep what
      the buffer held. */
  method FillFront(buffer: array<byte>, frameId: byte, timestamp: seq<byte>) returns (pos: nat, ghost header: seq<byte>)
    requires buffer.Length == MAX_UDP_PACKET_SIZE && |timestamp| == 8
    modifies buffer
    ensures pos == 24 && |header| == PACKET_HEADER_SIZE
    ensures header == HeaderBytes(frameId, header[11], timestamp, header[12..])
    ensures buffer[..pos] == EncodeHeader(ChunkHeader(DATA_PACKET, 0, true)) + EncodeHeader(HEADER_CHUNK) + header
  {
    hide EncodeHeader;
    var ok;
    ok, pos := FillChunkHeader(buffer, 0, ChunkHeader(DATA_PACKET, 0, true));
    ok, pos := FillPacketHeader(buffer, pos, frameId, timestamp);
    header := buffer[8..24];
    ghost var start := buffer[..19];
    assert header == start[8..] + buffer[19..24];
    assert start[8..] == timestamp + [2, 0, frameId];
    assert buffer[..24] == start[..8] + header;
  }

  /** The body of the outer loop of `encode_data`: one packet of the trackers at
      the front of `ids`, its count byte and padding left as the buffer had them. */
  method EncodePacket(ids: seq<int>, m: TrackerMap, frameId: byte, timestamp: seq<byte>)
    returns (packet: seq<byte>, ghost taken: seq<int>, rest: seq<int>)
    requires ValidMap(m) && |timestamp| == 8 && Tracked(ids, m)
    ensures Closed(ids, taken, rest, m)
    ensures IsUncounted(packet, frameId, timestamp, taken, m)
  {
    hide EncodeHeader, ListBytes, SizesOf, Fit, Tracked, Sized, ValidMap;
    var buffer := new byte[MAX_UDP_PACKET_SIZE];
    var pos;
    ghost var header;
    pos, header := FillFront(buffer, frameId, timestamp);
    ghost var main, front := ChunkHeader(DATA_PACKET, 0, true), buffer[..pos];
    var ok, listAt := FillChunkHeader(buffer, pos, ChunkHeader(DATA_TRACKER_LIST, 0, true));
    var end;
    taken, rest, end := FillTrackerList(buffer, ids, m, front);
    ghost var list := ListBytes(taken, m);
    ghost var back := EncodeHeader(HEADER_CHUNK) + header + EncodeHeader(ChunkHeader(DATA_TRACKER_LIST, |list|, true)) + list;
    assert buffer[..end] == [] + EncodeHeader(main) + back;
    PatchLength(buffer, 0, end - CHUNK_HEADER_SIZE, end, main, [], back);
    packet := buffer[..end];
    assert packet == PacketBytes(header, list);
    assert packet[8..24] == header;
    assert packet[COUNT_OFFSET] == packet[8..24][11] && packet[20..24] == packet[8..24][12..];
  }

  /** Packets of one frame with the ids that each carries. */
  ghost predicate Parts(ps: seq<seq<byte>>, cs: seq<seq<int>>, frameId: byte, count: byte, timestamp: seq<byte>,
                        m: TrackerMap)
    requires ValidMap(m) && |timestamp| == 8
  {
    && |ps| == |cs|
    && forall i :: 0 <= i < |ps| ==> IsPacket(ps[i], frameId, count, timestamp, cs[i], m)
  }

  /** The packets of one frame. */
  ghost predicate IsFrame(packets: seq<seq<byte>>, frameId: byte, timestamp: seq<byte>, m: TrackerMap)
    requires ValidMap(m) && |timestamp| == 8
  {
    Parts(packets, Chunks(m), frameId, |packets| % 256, timestamp, m)
  }

  /** The packets made so far, for the ids before `rest`. */
  ghost predicate Uncounted(packets: seq<seq<byte>>, chunks: seq<seq<int>>, frameId: byte, timestamp: seq<byte>,
                            m: TrackerMap)
    requires ValidMap(m) && |timestamp| == 8
  {
    && |packets| == |chunks|
    && forall i :: 0 <= i < |packets| ==> IsUncounted(packets[i], frameId, timestamp, chunks[i], m)
  }

  lemma UncountedSnoc(packets: seq<seq<byte>>, chunks: seq<seq<int>>, packet: seq<byte>, taken: seq<int>,
                      frameId: byte, timestamp: seq<byte>, m: TrackerMap)
    requires ValidMap(m) && |timestamp| == 8
    requires Uncounted(packets, chunks, frameId, timestamp, m) && IsUncounted(packet, frameId, timestamp, taken, m)
    ensures Uncounted(packets + [packet], chunks + [taken], frameId, timestamp, m)
  {
    hide IsUncounted;
    var ps, cs := packets + [packet], chunks + [taken];
    forall i | 0 <= i < |ps|
      ensures IsUncounted(ps[i], frameId, timestamp, cs[i], m)
    {
      if i < |packets| {
        assert ps[i] == packets[i] && cs[i] == chunks[i];
      } else {
        assert ps[i] == packet && cs[i] == taken;
      }
    }
  }

  /** The chunks made so far, for the ids before `rest`. */
  ghost predicate Packed(chunks: seq<seq<int>>, rest: seq<int>, m: TrackerMap)
    requires ValidMap(m)
  {
    Tracked(rest, m) && Sized(rest, SizesOf(m)) && chunks + Pack(rest, SizesOf(m)) == Chunks(m)
  }

  lemma PackedNext(chunks: seq<seq<int>>, ids: seq<int>, taken: seq<int>, rest: seq<int>, m: TrackerMap)
    requires ValidMap(m) && Packed(chunks, ids, m) && Closed(ids, taken, rest, m) && ids != []
    ensures Packed(chunks + [taken], rest, m) && |rest| < |ids|
  {
    hide TrackerBytes, ListBytes, Pack, Fit, Chunks, SizesOf, ValidMap;
    ListBytesSize(rest, m);
    PackFirst(ids, taken, rest, SizesOf(m));
    assert chunks + ([taken] + Pack(rest, SizesOf(m))) == (chunks + [taken]) + Pack(rest, SizesOf(m));
  }

  lemma PackFirst(ids: seq<int>, taken: seq<int>, rest: seq<int>, sizes: Sizes)
    requires Sized(ids, sizes) && Sized(rest, sizes) && ids != []
    requires ids == taken + rest && |taken| == Fit(ids, sizes, EMPTY_PACKET)
    ensures Pack(ids, sizes) == [taken] + Pack(rest, sizes) && |rest| < |ids|
  {
    FitAtLeast(ids, sizes, EMPTY_PACKET, 1);
    assert ids[..|taken|] == taken && ids[|taken|..] == rest;
  }

  class Encoder {
    var dataFrameId: byte

    constructor ()
      ensures dataFrameId == 0
    {
      dataFrameId := 0;
    }

    /** The datagrams of one frame: packet `i` carries the trackers of chunk `i`
        of the greedy packing and states the number of packets (as one byte). */
    method EncodeData(m: TrackerMap, timestamp: seq<byte>) returns (packets: seq<seq<byte>>)
      requires ValidMap(m) && |timestamp| == 8
      modifies this
      ensures dataFrameId == (old(dataFrameId) + 1) % 256
      ensures IsFrame(packets, dataFrameId, timestamp, m)
    {
      dataFrameId := (dataFrameId + 1) % 256;
      ghost var chunks;
      packets, chunks := EncodeUncounted(m, dataFrameId, timestamp);
      packets := ApplyCounts(packets, chunks, dataFrameId, timestamp, m);
    }
  }

  /** The outer loop of `encode_data`. */
  method EncodeUncounted(m: TrackerMap, frameId: byte, timestamp: seq<byte>)
    returns (packets: seq<seq<byte>>, ghost chunks: seq<seq<int>>)
    requires ValidMap(m) && |timestamp| == 8
    ensures chunks == Chunks(m) && Uncounted(packets, chunks, frameId, timestamp, m)
  {
    var rest := Ids(m);
    packets, chunks := [], [];
    ListBytesSize(rest, m);
    assert Packed(chunks, rest, m) && Uncounted(packets, chunks, frameId, timestamp, m);
    hide IsUncounted, Packed, Tracked, ValidMap, Closed, Chunks, Uncounted;
    while rest != []
      invariant Tracked(rest, m) && Packed(chunks, rest, m)
      invariant Uncounted(packets, chunks, frameId, timestamp, m)
      decreases |rest|
    {
      var packet, later;
      ghost var taken;
      packet, taken, later := EncodePacket(rest, m, frameId, timestamp);
      PackedNext(chunks, rest, taken, later, m);
      PackedTracked(chunks + [taken], later, m);
      UncountedSnoc(packets, chunks, packet, taken, frameId, timestamp, m);
      packets, chunks, rest := packets + [packet], chunks + [taken], later;
    }
    assert rest == [];
    PackedEnd(chunks, m);
  }

  lemma PackedTracked(chunks: seq<seq<int>>, rest: seq<int>, m: TrackerMap)
    requires ValidMap(m) && Packed(chunks, rest, m)
    ensures Tracked(rest, m)
  {
  }

  lemma PackedEnd(chunks: seq<seq<int>>, m: TrackerMap)
    requires ValidMap(m) && Packed(chunks, [], m)
    ensures chunks == Chunks(m)
  {
    assert chunks + [] == chunks;
  }

  /** The loop at the end of `encode_data`, once the number of packets is known. */
  method ApplyCounts(uncounted: seq<seq<byte>>, ghost chunks: seq<seq<int>>, frameId: byte, timestamp: seq<byte>,
                     ghost m: TrackerMap)
    returns (packets: seq<seq<byte>>)
    requires ValidMap(m) && |timestamp| == 8
    requires chunks == Chunks(m) && Uncounted(uncounted, chunks, frameId, timestamp, m)
    ensures IsFrame(packets, frameId, timestamp, m)
  {
    hide IsPacket, Chunks, ValidMap;
    packets := uncounted;
    var count: byte := |packets| % 256;
    var i := 0;
    while i < |packets|
      invariant 0 <= i <= |packets| == |uncounted|
      invariant forall j :: 0 <= j < i ==> IsPacket(packets[j], frameId, count, timestamp, chunks[j], m)
      invariant forall j :: i <= j < |packets| ==> packets[j] == uncounted[j]
    {
      assert IsUncounted(uncounted[i], frameId, timestamp, chunks[i], m);
      if |packets[i]| > COUNT_OFFSET {
        ApplyCount(packets[i], frameId, count, timestamp, chunks[i], m);
        var patched: seq<byte> := packets[i][COUNT_OFFSET := count];
        packets := packets[i := patched];
      }
      i := i + 1;
    }
  }
}

/** PosiStageNet v2 wire elements: chunk headers, tracker fields and the bytes
    of a data packet. Values of tracker fields are kept as the bytes that
    `*data = value` copies into the packet. */
module PsnDefs {
  import opened Basics

  type U15 = x: int | 0 <= x < 0x8000
  type U16 = x: int | 0 <= x < 0x1_0000

  const MAX_UDP_PACKET_SIZE := 1500
  const DATA_PACKET: U16 := 0x6755
  const INFO_PACKET: U16 := 0x6756
  const DATA_PACKET_HEADER: U16 := 0
  const DATA_TRACKER_LIST: U16 := 1
  const CHUNK_HEADER_SIZE := 4
  const PACKET_HEADER_SIZE := 16
  const FIELD_COUNT := 7

  // ---------------------------------------------------------------- chunks

  datatype ChunkHeader = ChunkHeader(id: U16, dataLen: U15, hasSubchunks: bool)

  /** The 32-bit bit-field: 16 bits of id, 15 of length, one flag, little-endian. */
  function EncodeHeader(h: ChunkHeader): (b: seq<byte>)
    ensures |b| == CHUNK_HEADER_SIZE
  {
    [h.id % 256, h.id / 256, h.dataLen % 256, h.dataLen / 256 + if h.hasSubchunks then 128 else 0]
  }

  function DecodeHeader(b: seq<byte>): ChunkHeader
    requires |b| >= CHUNK_HEADER_SIZE
  {
    var (b0, b1, b2, b3) := (b[0] as int, b[1] as int, b[2] as int, b[3] as int);
    ChunkHeader(b0 + 256 * b1, b2 + 256 * (b3 % 128), b3 >= 128)
  }

  lemma HeaderRoundTrip(h: ChunkHeader, rest: seq<byte>)
    ensures DecodeHeader(EncodeHeader(h) + rest) == h
    ensures (EncodeHeader(h) + rest)[CHUNK_HEADER_SIZE..] == rest
  {
    var b := EncodeHeader(h) + rest;
    assert b[0] == h.id % 256 && b[1] == h.id / 256 && b[2] == h.dataLen % 256;
    assert b[3] == h.dataLen / 256 + if h.hasSubchunks then 128 else 0;
  }

  // -------------------------------------------------------------- trackers

  /** Bytes of field `k`: three floats, one float (status) or a 64-bit time. */
  function FieldSize(k: nat): (n: nat)
    requires k < FIELD_COUNT
    ensures 4 <= n <= 12
  {
    if k == 3 then 4 else if k == 6 then 8 else 12
  }

  /** The fields whose mask bit is set, each with its value. */
  type Tracker = map<int, seq<byte>>

  type TrackerMap = map<int, Tracker>

  /** What the constructor and the setters of `tracker` can build: the
      position is always set and no setter clears a field. */
  predicate ValidTracker(t: Tracker) {
    0 in t && forall k :: k in t ==> 0 <= k < FIELD_COUNT && |t[k]| == FieldSize(k)
  }

  predicate ValidMap(m: TrackerMap) {
    forall id :: id in m ==> 0 <= id < 0x1_0000 && ValidTracker(m[id])
  }

  function FieldBytes(k: nat, v: seq<byte>): (b: seq<byte>)
    requires k < FIELD_COUNT && |v| == FieldSize(k)
    ensures |b| == CHUNK_HEADER_SIZE + FieldSize(k)
  {
    EncodeHeader(ChunkHeader(k, |v|, false)) + v
  }

  /** The set fields numbered `k` and above, in the order they are written. */
  function FieldsBytes(t: Tracker, k: nat): (b: seq<byte>)
    requires ValidTracker(t) && k <= FIELD_COUNT
    ensures |b| <= 16 * (FIELD_COUNT - k)
    ensures k <= 3 ==> |b| <= 16 * (FIELD_COUNT - k) - 12
    decreases FIELD_COUNT - k
  {
    if k == FIELD_COUNT then []
    else (if k in t then FieldBytes(k, t[k]) else []) + FieldsBytes(t, k + 1)
  }

  function TrackerBytes(id: U16, t: Tracker): (b: seq<byte>)
    requires ValidTracker(t)
    ensures 4 <= |b| <= 104
  {
    var fields := FieldsBytes(t, 0);
    EncodeHeader(ChunkHeader(id, |fields|, true)) + fields
  }

  /** Every id of the list is a tracker of the map. */
  predicate Tracked(ids: seq<int>, m: TrackerMap) {
    forall i :: 0 <= i < |ids| ==> ids[i] in m
  }

  function ListBytes(ids: seq<int>, m: TrackerMap): (b: seq<byte>)
    requires ValidMap(m) && Tracked(ids, m)
  {
    if ids == [] then [] else TrackerBytes(ids[0], m[ids[0]]) + ListBytes(ids[1..], m)
  }

  lemma {:induction false} ListBytesSnoc(a: seq<int>, id: int, m: TrackerMap)
    requires ValidMap(m) && Tracked(a, m) && id in m
    ensures ListBytes(a + [id], m) == ListBytes(a, m) + TrackerBytes(id, m[id])
  {
    if a == [] {
      assert ListBytes([id][1..], m) == [];
    } else {
      assert (a + [id])[1..] == a[1..] + [id];
      ListBytesSnoc(a[1..], id, m);
    }
  }

  // --------------------------------------------------------------- packets

  /** Offset of the tracker list, and of a packet holding no tracker. */
  const LIST_OFFSET := 28
  const COUNT_OFFSET := 19

  function HeaderBytes(frameId: byte, count: byte, timestamp: seq<byte>, padding: seq<byte>): (b: seq<byte>)
    requires |timestamp| == 8 && |padding| == 4
    ensures |b| == PACKET_HEADER_SIZE
  {
    timestamp + [2, 0, frameId, count] + padding
  }

  function PrefixBytes(listLen: nat, header: seq<byte>): (b: seq<byte>)
    requires |header| == PACKET_HEADER_SIZE && listLen + 24 < 0x8000
    ensures |b| == LIST_OFFSET
  {
    EncodeHeader(ChunkHeader(DATA_PACKET, listLen + 24, true)) +
    EncodeHeader(ChunkHeader(DATA_PACKET_HEADER, PACKET_HEADER_SIZE, false)) + header +
    EncodeHeader(ChunkHeader(DATA_TRACKER_LIST, listLen, true))
  }

  /** A data packet: every chunk length is the exact size of what it contains. */
  function PacketBytes(header: seq<byte>, list: seq<byte>): seq<byte>
    requires |header| == PACKET_HEADER_SIZE && |list| + 24 < 0x8000
  {
    PrefixBytes(|list|, header) + list
  }
}

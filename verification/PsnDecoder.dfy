/** psn_decoder: nested chunk parsing and reassembly of a frame from its
    packets. A `packet_t`, a pointer and a size passed by value, is the
    sequence of bytes still ahead of the cursor. */
module PsnDecoder {
  import opened Basics
  import opened PsnDefs

  // -------------------------------------------------------- parsing, by value

  /** `packet.apply_offset(n)`: never past the end. */
  function Advance(p: seq<byte>, n: nat): seq<byte> {
    p[if n < |p| then n else |p|..]
  }

  function Zeros(n: nat): (b: seq<byte>)
    ensures |b| == n
  {
    seq(n, _ => 0)
  }

  /** `psn::tracker(id, name)`: only the position is set. */
  function NewTracker(): Tracker {
    map[0 := Zeros(12)]
  }

  /** One child of a tracker chunk. A value cut short is stored as zeros before
      the failure is reported; unknown ids are skipped. */
  function ParseField(p: seq<byte>, id: U16, t: Tracker): (bool, Tracker) {
    if id >= FIELD_COUNT then (true, t)
    else if |p| < FieldSize(id) then (false, t[id := Zeros(FieldSize(id))])
    else (true, t[id := p[..FieldSize(id)]])
  }

  function ParseFields(p: seq<byte>, len: int, t: Tracker): (bool, Tracker)
    decreases len
  {
    if len <= 0 then (true, t)
    else if |p| < CHUNK_HEADER_SIZE then (false, t)
    else
      var h := DecodeHeader(p);
      var rest := p[CHUNK_HEADER_SIZE..];
      var (ok, t') := ParseField(rest, h.id, t);
      if !ok then (false, t')
      else ParseFields(Advance(rest, h.dataLen), len - h.dataLen - CHUNK_HEADER_SIZE, t')
  }

  function ParseList(p: seq<byte>, len: int, trackers: TrackerMap): (bool, TrackerMap)
    decreases len
  {
    if len <= 0 then (true, trackers)
    else if |p| < CHUNK_HEADER_SIZE then (false, trackers)
    else
      var h := DecodeHeader(p);
      var rest := p[CHUNK_HEADER_SIZE..];
      var (ok, t) := ParseFields(rest, h.dataLen, NewTracker());
      var trackers' := trackers[h.id := t];
      if !ok then (false, trackers')
      else ParseList(Advance(rest, h.dataLen), len - h.dataLen - CHUNK_HEADER_SIZE, trackers')
  }

  // --------------------------------------------------------- decoder states

  /** `data_t`: the last packet header, as its bytes, and the trackers. */
  datatype Data = Data(header: seq<byte>, trackers: TrackerMap) {
    predicate Valid() { |header| == PACKET_HEADER_SIZE }
    function FrameId(): byte requires Valid() { header[10] }
    function PacketCount(): byte requires Valid() { header[11] }
  }

  datatype State = State(data: Data, pending: Data, count: nat) {
    predicate Valid() { data.Valid() && pending.Valid() }

    /** No packet of a frame has been received yet. */
    predicate BetweenFrames() { Valid() && count == 0 && pending.trackers == map[] }
  }

  /** `decode_data_header`, with its way out when a packet was missed. */
  function ParseHeader(p: seq<byte>, s: State): (r: (bool, State))
    requires s.Valid()
    ensures r.1.Valid()
  {
    if |p| < PACKET_HEADER_SIZE then (false, s)
    else
      var pending := s.pending.(header := p[..PACKET_HEADER_SIZE]);
      if pending.FrameId() != s.pending.FrameId() && s.count != 0 then (true, State(pending, pending, 0))
      else (true, s.(pending := pending))
  }

  function ParseChild(p: seq<byte>, h: ChunkHeader, s: State): (r: (bool, State))
    requires s.Valid()
    ensures r.1.Valid()
  {
    if h.id == DATA_PACKET_HEADER then ParseHeader(p, s)
    else if h.id == DATA_TRACKER_LIST then
      var (ok, trackers) := ParseList(p, h.dataLen, s.pending.trackers);
      (ok, s.(pending := s.pending.(trackers := trackers)))
    else (true, s)
  }

  function ParseChildren(p: seq<byte>, len: int, s: State): (r: (bool, State))
    requires s.Valid()
    ensures r.1.Valid()
    decreases len
  {
    if len <= 0 then (true, s)
    else if |p| < CHUNK_HEADER_SIZE then (false, s)
    else
      var h := DecodeHeader(p);
      var rest := p[CHUNK_HEADER_SIZE..];
      var (ok, s') := ParseChild(rest, h, s);
      if !ok then (false, s')
      else ParseChildren(Advance(rest, h.dataLen), len - h.dataLen - CHUNK_HEADER_SIZE, s')
  }

  /** The end of `decode_data`: commit once the announced number is reached. */
  function Commit(s: State): (r: State)
    requires s.Valid()
    ensures r.Valid()
  {
    var count := s.count + 1;
    if count >= s.pending.PacketCount() then State(s.pending, s.pending.(trackers := map[]), 0)
    else s.(count := count)
  }

  /** `decode` of one datagram. Info packets touch none of this state. */
  function Receive(packet: seq<byte>, s: State): (r: State)
    requires s.Valid()
    ensures r.Valid()
  {
    if |packet| < CHUNK_HEADER_SIZE || DecodeHeader(packet).id != DATA_PACKET then s
    else Commit(ParseChildren(packet[CHUNK_HEADER_SIZE..], DecodeHeader(packet).dataLen, s).1)
  }

  function ReceiveAll(packets: seq<seq<byte>>, s: State): (r: State)
    requires s.Valid()
    ensures r.Valid()
  {
    if packets == [] then s else ReceiveAll(packets[1..], Receive(packets[0], s))
  }

  // ------------------------------------------------------------- the decoder

  class Decoder {
    var data: Data
    var pending: Data
    var count: nat

    predicate Valid()
      reads this
    {
      data.Valid() && pending.Valid()
    }

    function Abstract(): (s: State)
      requires Valid()
      reads this
      ensures s.Valid()
    {
      State(data, pending, count)
    }

    constructor ()
      ensures Valid() && Abstract().BetweenFrames() && data.trackers == map[]
    {
      data := Data(Zeros(PACKET_HEADER_SIZE), map[]);
      pending := Data(Zeros(PACKET_HEADER_SIZE), map[]);
      count := 0;
    }

    method Decode(packet: seq<byte>) returns (ok: bool)
      requires Valid()
      modifies this
      ensures Valid() && Abstract() == Receive(packet, old(Abstract()))
      ensures if |packet| < CHUNK_HEADER_SIZE then !ok
              else var h := DecodeHeader(packet);
                if h.id == DATA_PACKET then ok == ParseChildren(packet[CHUNK_HEADER_SIZE..], h.dataLen, old(Abstract())).0
                else h.id == INFO_PACKET || ok
    {
      if |packet| < CHUNK_HEADER_SIZE {
        return false;
      }
      var h := DecodeHeader(packet);
      if h.id == DATA_PACKET {
        ok := DecodeData(packet[CHUNK_HEADER_SIZE..], h);
      } else {
        ok := true;
      }
    }

    method DecodeData(packet: seq<byte>, h: ChunkHeader) returns (ok: bool)
      requires Valid()
      modifies this
      ensures Valid() && Abstract() == Commit(ParseChildren(packet, h.dataLen, old(Abstract())).1)
      ensures ok == ParseChildren(packet, h.dataLen, old(Abstract())).0
    {
      ghost var expected := ParseChildren(packet, h.dataLen, Abstract());
      hide *;
      ok := DecodeDataChildren(packet, h.dataLen);
      assert Abstract() == expected.1;
      CommitFields();
    }

    /** The commit at the end of `decode_data`. */
    method CommitFields()
      requires Valid()
      modifies this
      ensures Valid() && Abstract() == Commit(old(Abstract()))
    {
      count := count + 1;
      if count >= pending.PacketCount() {
        data := pending;
        pending := pending.(trackers := map[]);
        count := 0;
      }
    }

    /** `decode_children` with the callback of `decode_data`. */
    method DecodeDataChildren(packet: seq<byte>, len: U15) returns (ok: bool)
      requires Valid()
      modifies this
      ensures Valid() && (ok, Abstract()) == ParseChildren(packet, len, old(Abstract()))
    {
      hide ParseList, ParseHeader, DecodeHeader, Advance;
      var p, decoded := packet, 0;
      while decoded < len
        invariant Valid()
        invariant ParseChildren(p, len - decoded, Abstract()) == ParseChildren(packet, len, old(Abstract()))
        decreases len - decoded
      {
        if |p| < CHUNK_HEADER_SIZE {
          return false;
        }
        var h := DecodeHeader(p);
        p := p[CHUNK_HEADER_SIZE..];
        var childOk;
        if h.id == DATA_PACKET_HEADER {
          childOk := DecodeDataHeader(p);
        } else if h.id == DATA_TRACKER_LIST {
          var trackers;
          childOk, trackers := DecodeTrackerList(p, h.dataLen, pending.trackers);
          pending := pending.(trackers := trackers);
        } else {
          childOk := true;
        }
        if !childOk {
          return false;
        }
        p := Advance(p, h.dataLen);
        decoded := decoded + h.dataLen + CHUNK_HEADER_SIZE;
      }
      return true;
    }

    method DecodeDataHeader(packet: seq<byte>) returns (ok: bool)
      requires Valid()
      modifies this
      ensures Valid() && (ok, Abstract()) == ParseHeader(packet, old(Abstract()))
    {
      var lastFrameId := pending.FrameId();
      var expectNewFrame := count == 0;
      if |packet| < PACKET_HEADER_SIZE {
        return false;
      }
      pending := pending.(header := packet[..PACKET_HEADER_SIZE]);
      if pending.FrameId() != lastFrameId && !expectNewFrame {
        data := pending;
        count := 0;
      }
      return true;
    }
  }

  /** `decode_data_tracker_list`: the entry of `data_to_commit_.trackers` is
      replaced even when its chunk turns out to be cut short. */
  method DecodeTrackerList(packet: seq<byte>, len: U15, before: TrackerMap) returns (ok: bool, trackers: TrackerMap)
    ensures (ok, trackers) == ParseList(packet, len, before)
  {
    hide ParseFields, DecodeHeader, Advance;
    var p, decoded := packet, 0;
    trackers := before;
    while decoded < len
      invariant ParseList(p, len - decoded, trackers) == ParseList(packet, len, before)
      decreases len - decoded
    {
      if |p| < CHUNK_HEADER_SIZE {
        return false, trackers;
      }
      var h := DecodeHeader(p);
      p := p[CHUNK_HEADER_SIZE..];
      var t;
      ok, t := DecodeTracker(p, h.dataLen);
      trackers := trackers[h.id := t];
      if !ok {
        return false, trackers;
      }
      p := Advance(p, h.dataLen);
      decoded := decoded + h.dataLen + CHUNK_HEADER_SIZE;
    }
    ok := true;
  }

  method DecodeTracker(packet: seq<byte>, len: U15) returns (ok: bool, t: Tracker)
    ensures (ok, t) == ParseFields(packet, len, NewTracker())
  {
    var p, decoded := packet, 0;
    t := NewTracker();
    while decoded < len
      invariant ParseFields(p, len - decoded, t) == ParseFields(packet, len, NewTracker())
      decreases len - decoded
    {
      if |p| < CHUNK_HEADER_SIZE {
        return false, t;
      }
      var h := DecodeHeader(p);
      p := p[CHUNK_HEADER_SIZE..];
      ok, t := ParseField(p, h.id, t).0, ParseField(p, h.id, t).1;
      if !ok {
        return false, t;
      }
      p := Advance(p, h.dataLen);
      decoded := decoded + h.dataLen + CHUNK_HEADER_SIZE;
    }
    ok := true;
  }
}

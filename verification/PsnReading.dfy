/** What a decoder makes of the packets of any sender, and what it learns of the
    frame besides its trackers. */
module PsnReading {
  import opened Basics
  import opened PsnDefs
  import opened PsnDecoder
  import opened PsnEncoder
  import opened PsnRoundTrip

  /** Position, speed, orientation, status, acceleration, target position and
      timestamp: three floats, but a float for the status and 64 bits of time. */
  const SIZES: seq<nat> := [12, 12, 12, 4, 12, 12, 8]

  /** The bit-field of a chunk, read as one little-endian number. */
  function LittleEndian(b0: int, b1: int, b2: int, b3: int): int { b0 + 256 * b1 + 0x1_0000 * b2 + 0x100_0000 * b3 }

  lemma HeaderIsBitField(h: ChunkHeader)
    ensures var b := EncodeHeader(h);
            LittleEndian(b[0], b[1], b[2], b[3]) ==
            h.id + 0x1_0000 * h.dataLen + if h.hasSubchunks then 0x8000_0000 else 0
  {
  }

  function Chunk(id: U16, body: seq<byte>, sub: bool): seq<byte>
    requires |body| < 0x8000
  {
    EncodeHeader(ChunkHeader(id, |body|, sub)) + body
  }

  lemma ChunkRead(id: U16, body: seq<byte>, sub: bool, rest: seq<byte>)
    requires |body| < 0x8000
    ensures var p := Chunk(id, body, sub) + rest;
            && |p| >= 4 && DecodeHeader(p) == ChunkHeader(id, |body|, sub) && p[4..] == body + rest
            && Advance(p[4..], |body|) == rest
  {
    hide EncodeHeader, DecodeHeader;
    HeaderRoundTrip(ChunkHeader(id, |body|, sub), body + rest);
    assert Chunk(id, body, sub) + rest == EncodeHeader(ChunkHeader(id, |body|, sub)) + (body + rest);
    assert (body + rest)[|body|..] == rest;
  }

  /** A field of any sender: an unknown one is skipped, a known one takes as many
      bytes as its type has, from wherever they are, and one that the packet ends
      in becomes zeros and ends the tracker. */
  lemma AnyFieldRead(id: U16, body: seq<byte>, sub: bool, rest: seq<byte>, len: int, t: Tracker)
    requires |body| < 0x8000 && len >= 0
    ensures ParseFields(Chunk(id, body, sub) + rest, 4 + |body| + len, t) ==
            if id >= 7 then ParseFields(rest, len, t)
            else if |body + rest| < SIZES[id] then (false, t[id := seq(SIZES[id], _ => 0)])
            else ParseFields(rest, len, t[id := (body + rest)[..SIZES[id]]])
  {
    hide EncodeHeader, DecodeHeader, Advance;
    ChunkRead(id, body, sub, rest);
  }

  /** A tracker of any sender takes the place of what was there; its position is
      zero until it is read. */
  lemma AnyTrackerRead(id: U16, body: seq<byte>, sub: bool, rest: seq<byte>, len: int, trackers: TrackerMap)
    requires |body| < 0x8000 && len >= 0
    ensures var (ok, t) := ParseFields(body + rest, |body|, map[0 := seq(12, _ => 0)]);
            ParseList(Chunk(id, body, sub) + rest, 4 + |body| + len, trackers) ==
            if ok then ParseList(rest, len, trackers[id := t]) else (false, trackers[id := t])
  {
    hide EncodeHeader, DecodeHeader, Advance, ParseFields;
    ChunkRead(id, body, sub, rest);
    assert NewTracker() == map[0 := seq(12, _ => 0)];
  }

  /** A list or tracker that its length or the packet ends. */
  lemma ListEnds(p: seq<byte>, len: int, t: Tracker, trackers: TrackerMap)
    ensures len <= 0 ==> ParseFields(p, len, t) == (true, t) && ParseList(p, len, trackers) == (true, trackers)
    ensures len > 0 && |p| < 4 ==> ParseFields(p, len, t) == (false, t) && ParseList(p, len, trackers) == (false, trackers)
  {
  }

  /** A child of a data packet: the trackers of a list join those pending, a
      header counts from now on, and a header of another frame in mid-frame
      commits what was pending first; anything else is skipped. A header cut
      short or a list that cannot be read ends the packet. */
  lemma AnyChildRead(id: U16, body: seq<byte>, sub: bool, rest: seq<byte>, len: int, s: State)
    requires |body| < 0x8000 && len >= 0 && s.Valid()
    ensures var (all, p) := (body + rest, Chunk(id, body, sub) + rest);
            ParseChildren(p, 4 + |body| + len, s) ==
            if id == 0 then
              (if |all| < 16 then (false, s)
               else
                 var pending := Data(all[..16], s.pending.trackers);
                 ParseChildren(rest, len, if s.count > 0 && all[10] != s.pending.header[10] then State(pending, pending, 0)
                                          else State(s.data, pending, s.count)))
            else if id == 1 then
              (var (ok, trackers) := ParseList(all, |body|, s.pending.trackers);
               var s' := State(s.data, Data(s.pending.header, trackers), s.count);
               if ok then ParseChildren(rest, len, s') else (false, s'))
            else ParseChildren(rest, len, s)
  {
    hide EncodeHeader, DecodeHeader, Advance, ParseList;
    ChunkRead(id, body, sub, rest);
  }

  /** A datagram: only data packets matter, and after one the frame is committed
      when as many packets have come as the last header says, or it says none. */
  lemma AnyPacketRead(id: U16, body: seq<byte>, sub: bool, rest: seq<byte>, s: State)
    requires |body| < 0x8000 && s.Valid()
    ensures var s' := ParseChildren(body + rest, |body|, s).1;
            Receive(Chunk(id, body, sub) + rest, s) ==
            if id != 0x6755 then s
            else if s'.count + 1 >= s'.pending.header[11] then State(s'.pending, Data(s'.pending.header, map[]), 0)
            else State(s'.data, s'.pending, s'.count + 1)
    ensures |rest| < 4 ==> Receive(rest, s) == s
  {
    hide EncodeHeader, DecodeHeader, ParseChildren;
    ChunkRead(id, body, sub, rest);
  }

  /** Whatever the order of its packets, the header of a committed frame has the
      timestamp that the frame was sent with, version 2.0, the number of the frame
      and how many packets it has. */
  lemma HeaderComesBack(packets: seq<seq<byte>>, order: seq<nat>, frameId: byte, timestamp: seq<byte>, m: TrackerMap, s: State)
    requires ValidMap(m) && |timestamp| == 8 && IsFrame(packets, frameId, timestamp, m)
    requires 1 <= |packets| <= 255 && s.BetweenFrames()
    requires Permutation(order, |packets|)
    ensures var header := ReceiveAll(Shuffle(packets, order), s).data.header;
            header[..12] == timestamp + [2, 0, frameId, |packets|]
  {
    hide ReceiveAll, ValidMap, Chunks, Ids, Permutation, Shuffle, Restrict, Collecting, IsPacket, Receive;
    FrameParts(packets, frameId, timestamp, m);
    var ps, cs, n := Shuffle(packets, order), Shuffle(Chunks(m), order), |packets| - 1;
    ShuffledParts(packets, Chunks(m), order, frameId, |packets|, timestamp, m);
    CollectingNothing(s, frameId, m);
    PartialFrame(ps[..n], cs[..n], frameId, |packets|, timestamp, m, map[], [], s);
    assert ps == ps[..n] + [ps[n]];
    ReceiveAppend(ps[..n], [ps[n]], s);
    LastPacket(ps[n], frameId, |packets|, timestamp, cs[n], m, ReceiveAll(ps[..n], s));
  }

  lemma LastPacket(packet: seq<byte>, frameId: byte, count: byte, timestamp: seq<byte>, ids: seq<int>, m: TrackerMap, s: State)
    requires ValidMap(m) && |timestamp| == 8 && IsPacket(packet, frameId, count, timestamp, ids, m)
    requires s.Valid() && (s.count != 0 ==> s.pending.FrameId() == frameId) && s.count + 1 >= count
    ensures ReceiveAll([packet], s).data.header[..12] == timestamp + [2, 0, frameId, count]
  {
    hide Receive, ListBytes, EncodeHeader, ValidMap, Restrict;
    PacketReceived(packet, frameId, count, timestamp, ids, m, s);
    assert [packet][1..] == [];
    assert ReceiveAll([packet], s) == Receive(packet, s);
    assert packet[8..24] == HeaderBytes(frameId, count, timestamp, packet[20..24]);
  }
}

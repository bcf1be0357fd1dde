/** What a decoder holds after the packets of an encoder. */
module PsnRoundTrip {
  import opened Basics
  import opened PsnDefs
  import opened PsnPacking
  import opened PsnEncoder
  import opened PsnDecoder
  import OrderedKeys

  // -------------------------------------------------------- one tracker chunk

  /** The fields numbered `k` and above. */
  function From(t: Tracker, k: int): Tracker {
    map j | j in t && j >= k :: t[j]
  }

  lemma AdvancePast(front: seq<byte>, rest: seq<byte>)
    ensures Advance(front + rest, |front|) == rest
  {
  }

  lemma {:induction false} FieldsRoundTrip(t: Tracker, k: nat, got: Tracker, rest: seq<byte>)
    requires ValidTracker(t) && k <= FIELD_COUNT
    ensures ParseFields(FieldsBytes(t, k) + rest, |FieldsBytes(t, k)|, got) == (true, got + From(t, k))
    decreases FIELD_COUNT - k
  {
    hide ParseFields, FieldsBytes, From;
    if k == FIELD_COUNT {
      NoField(t, got, rest);
    } else if k !in t {
      SkippedField(t, k);
      FieldsRoundTrip(t, k + 1, got, rest);
    } else {
      FieldStep(t, k, got, rest);
      FieldsRoundTrip(t, k + 1, got[k := t[k]], rest);
      FromHead(t, k, got);
    }
  }

  lemma FromHead(t: Tracker, k: nat, got: Tracker)
    requires k in t
    ensures got[k := t[k]] + From(t, k + 1) == got + From(t, k)
  {
  }

  lemma NoField(t: Tracker, got: Tracker, rest: seq<byte>)
    requires ValidTracker(t)
    ensures ParseFields(FieldsBytes(t, FIELD_COUNT) + rest, |FieldsBytes(t, FIELD_COUNT)|, got) == (true, got + From(t, FIELD_COUNT))
  {
    assert got + From(t, FIELD_COUNT) == got;
  }

  lemma SkippedField(t: Tracker, k: nat)
    requires ValidTracker(t) && k < FIELD_COUNT && k !in t
    ensures FieldsBytes(t, k) == FieldsBytes(t, k + 1) && From(t, k) == From(t, k + 1)
  {
  }

  lemma FieldHead(t: Tracker, k: nat)
    requires ValidTracker(t) && k < FIELD_COUNT && k in t
    ensures FieldsBytes(t, k) == EncodeHeader(ChunkHeader(k, |t[k]|, false)) + t[k] + FieldsBytes(t, k + 1)
  {
    hide EncodeHeader;
  }

  lemma FieldStep(t: Tracker, k: nat, got: Tracker, rest: seq<byte>)
    requires ValidTracker(t) && k < FIELD_COUNT && k in t
    ensures ParseFields(FieldsBytes(t, k) + rest, |FieldsBytes(t, k)|, got) ==
            ParseFields(FieldsBytes(t, k + 1) + rest, |FieldsBytes(t, k + 1)|, got[k := t[k]])
  {
    hide FieldsBytes, EncodeHeader, DecodeHeader;
    FieldHead(t, k);
    var h, v, later := ChunkHeader(k, |t[k]|, false), t[k], FieldsBytes(t, k + 1);
    var p := FieldsBytes(t, k) + rest;
    assert p == EncodeHeader(h) + (v + (later + rest));
    HeaderRoundTrip(h, v + (later + rest));
    AdvancePast(v, later + rest);
    assert (v + (later + rest))[..|v|] == v;
    assert ParseField(p[CHUNK_HEADER_SIZE..], h.id, got) == (true, got[k := v]);
  }

  lemma TrackerRoundTrip(t: Tracker, rest: seq<byte>)
    requires ValidTracker(t)
    ensures ParseFields(FieldsBytes(t, 0) + rest, |FieldsBytes(t, 0)|, NewTracker()) == (true, t)
  {
    hide ParseFields, FieldsBytes;
    FieldsRoundTrip(t, 0, NewTracker(), rest);
    FromTheFirst(t);
  }

  lemma FromTheFirst(t: Tracker)
    requires ValidTracker(t)
    ensures NewTracker() + From(t, 0) == t
  {
  }

  // ------------------------------------------------------------- tracker lists

  /** The part of the map with these ids. */
  function Restrict(m: TrackerMap, ids: seq<int>): TrackerMap {
    map id | id in m && id in ids :: m[id]
  }

  lemma {:induction false} ListRoundTrip(ids: seq<int>, m: TrackerMap, got: TrackerMap, rest: seq<byte>)
    requires ValidMap(m) && Tracked(ids, m)
    ensures ParseList(ListBytes(ids, m) + rest, |ListBytes(ids, m)|, got) == (true, got + Restrict(m, ids))
  {
    hide ParseList, ListBytes, ValidMap;
    if ids == [] {
      NoTracker(m, got, rest);
    } else {
      var id := ids[0];
      ListStep(ids, m, got, rest);
      ListRoundTrip(ids[1..], m, got[id := m[id]], rest);
      RestrictHead(ids, m, got);
    }
  }

  lemma NoTracker(m: TrackerMap, got: TrackerMap, rest: seq<byte>)
    requires ValidMap(m)
    ensures ParseList(ListBytes([], m) + rest, |ListBytes([], m)|, got) == (true, got + Restrict(m, []))
  {
    assert got + Restrict(m, []) == got;
  }

  lemma RestrictHead(ids: seq<int>, m: TrackerMap, got: TrackerMap)
    requires ids != [] && ids[0] in m
    ensures got[ids[0] := m[ids[0]]] + Restrict(m, ids[1..]) == got + Restrict(m, ids)
  {
    assert ids == [ids[0]] + ids[1..];
  }

  lemma ListHead(ids: seq<int>, m: TrackerMap)
    requires ValidMap(m) && Tracked(ids, m) && ids != []
    ensures 0 <= ids[0] < 0x1_0000 && ValidTracker(m[ids[0]]) && Tracked(ids[1..], m)
    ensures var fields := FieldsBytes(m[ids[0]], 0);
            ListBytes(ids, m) == EncodeHeader(ChunkHeader(ids[0], |fields|, true)) + fields + ListBytes(ids[1..], m)
  {
    hide EncodeHeader, FieldsBytes;
  }

  lemma ListStep(ids: seq<int>, m: TrackerMap, got: TrackerMap, rest: seq<byte>)
    requires ValidMap(m) && Tracked(ids, m) && ids != []
    ensures Tracked(ids[1..], m)
    ensures ParseList(ListBytes(ids, m) + rest, |ListBytes(ids, m)|, got) ==
            ParseList(ListBytes(ids[1..], m) + rest, |ListBytes(ids[1..], m)|, got[ids[0] := m[ids[0]]])
  {
    hide ListBytes, FieldsBytes, ParseFields, EncodeHeader, DecodeHeader, ValidMap, ValidTracker;
    ListHead(ids, m);
    var id, t, later := ids[0], m[ids[0]], ListBytes(ids[1..], m);
    var fields := FieldsBytes(t, 0);
    var h := ChunkHeader(id, |fields|, true);
    var p := ListBytes(ids, m) + rest;
    assert p == EncodeHeader(h) + (fields + (later + rest));
    HeaderRoundTrip(h, fields + (later + rest));
    TrackerRoundTrip(t, later + rest);
    AdvancePast(fields, later + rest);
  }

  // --------------------------------------------------------------- one packet

  /** Receiving a packet of a frame between frames, or in the course of the
      same frame, adds its trackers and commits when it completes the count. */
  lemma PacketReceived(packet: seq<byte>, frameId: byte, count: byte, timestamp: seq<byte>, ids: seq<int>,
                       m: TrackerMap, s: State)
    requires ValidMap(m) && |timestamp| == 8 && IsPacket(packet, frameId, count, timestamp, ids, m)
    requires s.Valid() && (s.count != 0 ==> s.pending.FrameId() == frameId)
    ensures var header := packet[8..24];
            && |header| == PACKET_HEADER_SIZE && header[10] == frameId && header[11] == count
            && Receive(packet, s) ==
               Commit(s.(pending := Data(header, s.pending.trackers + Restrict(m, ids))))
  {
    hide ListBytes, ParseList, EncodeHeader, DecodeHeader;
    var list := ListBytes(ids, m);
    var header := HeaderBytes(frameId, count, timestamp, packet[20..24]);
    var main := ChunkHeader(DATA_PACKET, |list| + 24, true);
    var h1, h2 := ChunkHeader(DATA_PACKET_HEADER, PACKET_HEADER_SIZE, false), ChunkHeader(DATA_TRACKER_LIST, |list|, true);
    var p2 := EncodeHeader(h2) + list;
    var p1 := EncodeHeader(h1) + (header + p2);
    assert packet == EncodeHeader(main) + p1;
    assert packet[8..24] == header;
    HeaderRoundTrip(main, p1);
    HeaderRoundTrip(h1, header + p2);
    HeaderRoundTrip(h2, list);
    AdvancePast(header, p2);
    assert (header + p2)[..PACKET_HEADER_SIZE] == header;
    var s1 := s.(pending := s.pending.(header := header));
    assert ParseHeader(header + p2, s) == (true, s1);
    ListRoundTrip(ids, m, s.pending.trackers, []);
    assert list + [] == list;
    var s2 := s.(pending := Data(header, s.pending.trackers + Restrict(m, ids)));
    assert ParseChild(list, h2, s1) == (true, s2);
    assert ParseChildren(p2, |list| + 4, s1) == (true, s2);
    assert ParseChildren(p1, |list| + 24, s) == ParseChildren(p2, |list| + 4, s1);
  }

  // ------------------------------------------------------------ whole frames

  /** The decoder has received no packet of a frame yet, or it is in the frame of
      `m`; the trackers `seen` are pending, over what was pending before. */
  ghost predicate Collecting(s: State, base: TrackerMap, seen: seq<int>, frameId: byte, m: TrackerMap) {
    && s.Valid()
    && (s.count != 0 ==> s.pending.FrameId() == frameId)
    && s.pending.trackers == base + Restrict(m, seen)
  }

  lemma OnePart(ps: seq<seq<byte>>, cs: seq<seq<int>>, frameId: byte, count: byte, timestamp: seq<byte>,
                m: TrackerMap, base: TrackerMap, seen: seq<int>, s: State)
    requires ValidMap(m) && |timestamp| == 8 && Parts(ps, cs, frameId, count, timestamp, m) && ps != []
    requires Collecting(s, base, seen, frameId, m)
    ensures |cs| == |ps| && s.Valid() && Receive(ps[0], s).Valid()
    ensures Parts(ps[1..], cs[1..], frameId, count, timestamp, m)
    ensures (seen + cs[0]) + Flatten(cs[1..]) == seen + Flatten(cs)
    ensures var s' := Receive(ps[0], s);
            if s.count + 1 >= count then
              s'.BetweenFrames() && s'.data.trackers == base + Restrict(m, seen + cs[0])
            else
              s'.data == s.data && s'.count == s.count + 1 && Collecting(s', base, seen + cs[0], frameId, m)
  {
    hide IsPacket, Receive, ValidMap, Restrict;
    PacketReceived(ps[0], frameId, count, timestamp, cs[0], m, s);
    RestrictAppend(base, m, seen, cs[0]);
  }

  lemma RestrictAppend(base: TrackerMap, m: TrackerMap, a: seq<int>, b: seq<int>)
    ensures (base + Restrict(m, a)) + Restrict(m, b) == base + Restrict(m, a + b)
  {
    assert forall id :: id in a + b <==> id in a || id in b;
  }

  /** Short of the announced number of packets nothing is committed, and what
      was received is pending. */
  lemma {:induction false} PartialFrame(ps: seq<seq<byte>>, cs: seq<seq<int>>, frameId: byte, count: byte,
                                        timestamp: seq<byte>, m: TrackerMap, base: TrackerMap, seen: seq<int>, s: State)
    requires ValidMap(m) && |timestamp| == 8 && Parts(ps, cs, frameId, count, timestamp, m)
    requires Collecting(s, base, seen, frameId, m) && s.count + |ps| < (if count == 0 then 1 else count)
    ensures var r := ReceiveAll(ps, s);
            && r.data == s.data && r.count == s.count + |ps| && |cs| == |ps|
            && Collecting(r, base, seen + Flatten(cs), frameId, m)
            && (ps != [] ==> r.pending.FrameId() == frameId)
    decreases |ps|
  {
    hide IsPacket, ValidMap, Receive, Restrict;
    if ps == [] {
      assert seen + [] == seen;
    } else {
      OnePart(ps, cs, frameId, count, timestamp, m, base, seen, s);
      PartialFrame(ps[1..], cs[1..], frameId, count, timestamp, m, base, seen + cs[0], Receive(ps[0], s));
    }
  }

  /** The packet that completes the number commits everything received. */
  lemma {:induction false} WholeFrame(ps: seq<seq<byte>>, cs: seq<seq<int>>, frameId: byte, count: byte,
                                      timestamp: seq<byte>, m: TrackerMap, base: TrackerMap, seen: seq<int>, s: State)
    requires ValidMap(m) && |timestamp| == 8 && Parts(ps, cs, frameId, count, timestamp, m) && ps != []
    requires Collecting(s, base, seen, frameId, m) && s.count + |ps| == (if count == 0 then 1 else count)
    ensures var r := ReceiveAll(ps, s);
            r.BetweenFrames() && r.data.trackers == base + Restrict(m, seen + Flatten(cs))
    decreases |ps|
  {
    hide IsPacket, Collecting, ValidMap, Receive, Restrict;
    OnePart(ps, cs, frameId, count, timestamp, m, base, seen, s);
    if |ps| == 1 {
      assert Flatten(cs[1..]) == [] && (seen + cs[0]) + [] == seen + cs[0];
      assert ReceiveAll(ps, s) == Receive(ps[0], s);
    } else {
      WholeFrame(ps[1..], cs[1..], frameId, count, timestamp, m, base, seen + cs[0], Receive(ps[0], s));
    }
  }

  predicate InSome(cs: seq<seq<int>>, x: int) { exists i :: 0 <= i < |cs| && x in cs[i] }

  lemma SomeHead(cs: seq<seq<int>>, x: int)
    requires cs != []
    ensures InSome(cs, x) <==> x in cs[0] || InSome(cs[1..], x)
  {
    if InSome(cs[1..], x) {
      var i :| 0 <= i < |cs[1..]| && x in cs[1..][i];
      assert x in cs[i + 1];
    }
    if InSome(cs, x) && x !in cs[0] {
      var i :| 0 <= i < |cs| && x in cs[i];
      assert x in cs[1..][i - 1];
    }
  }

  lemma {:induction false} FlattenContains(cs: seq<seq<int>>, x: int)
    ensures x in Flatten(cs) <==> InSome(cs, x)
  {
    if cs != [] {
      hide InSome;
      FlattenContains(cs[1..], x);
      SomeHead(cs, x);
    }
  }

  lemma FrameParts(packets: seq<seq<byte>>, frameId: byte, timestamp: seq<byte>, m: TrackerMap)
    requires ValidMap(m) && |timestamp| == 8 && IsFrame(packets, frameId, timestamp, m)
    ensures Parts(packets, Chunks(m), frameId, |packets| % 256, timestamp, m)
    ensures Flatten(Chunks(m)) == Ids(m)
    ensures packets != [] ==> Ids(m) != []
  {
    hide IsPacket;
    ListBytesSize(Ids(m), m);
    PackIsGreedyPartition(Ids(m), SizesOf(m));
  }

  /** `order` names each of `n` positions at least once, hence exactly once. */
  predicate Permutation(order: seq<nat>, n: nat) {
    && |order| == n
    && (forall i :: 0 <= i < n ==> order[i] < n)
    && (forall k :: 0 <= k < n ==> k in order)
  }

  function Shuffle<T>(xs: seq<T>, order: seq<nat>): (r: seq<T>)
    requires Permutation(order, |xs|)
    ensures |r| == |xs|
  {
    seq(|xs|, i requires 0 <= i < |xs| => xs[order[i]])
  }

  lemma ShuffledParts(ps: seq<seq<byte>>, cs: seq<seq<int>>, order: seq<nat>, frameId: byte, count: byte,
                      timestamp: seq<byte>, m: TrackerMap)
    requires ValidMap(m) && |timestamp| == 8 && Parts(ps, cs, frameId, count, timestamp, m)
    requires Permutation(order, |ps|)
    ensures Parts(Shuffle(ps, order), Shuffle(cs, order), frameId, count, timestamp, m)
  {
    hide IsPacket;
  }

  lemma RestrictAll(m: TrackerMap, ids: seq<int>)
    requires forall id :: id in m ==> id in ids
    ensures Restrict(m, ids) == m
  {
    forall id | id in m ensures id in Restrict(m, ids) { assert id in ids; }
  }

  lemma ShuffledKeeps(chunks: seq<seq<int>>, order: seq<nat>, id: int)
    requires Permutation(order, |chunks|) && InSome(chunks, id)
    ensures InSome(Shuffle(chunks, order), id)
  {
    var k :| 0 <= k < |chunks| && id in chunks[k];
    assert k in order;
    var i :| 0 <= i < |order| && order[i] == k;
    assert Shuffle(chunks, order)[i] == chunks[k];
  }

  lemma ShuffledIds(chunks: seq<seq<int>>, order: seq<nat>, m: TrackerMap)
    requires Flatten(chunks) == Ids(m) && Permutation(order, |chunks|)
    ensures Restrict(m, [] + Flatten(Shuffle(chunks, order))) == m
  {
    hide Ids, InSome, Restrict, Shuffle, Permutation, Flatten;
    var cs := Shuffle(chunks, order);
    assert [] + Flatten(cs) == Flatten(cs);
    AllIds(m);
    forall id | id in m
      ensures id in Flatten(cs)
    {
      FlattenContains(chunks, id);
      ShuffledKeeps(chunks, order, id);
      FlattenContains(cs, id);
    }
    RestrictAll(m, Flatten(cs));
  }

  lemma OverNothing(m: TrackerMap)
    ensures map[] + m == m
  {
  }

  lemma CollectingNothing(s: State, frameId: byte, m: TrackerMap)
    requires s.BetweenFrames()
    ensures Collecting(s, map[], [], frameId, m)
  {
  }

  /** Packets of one call of `encode_data`, received in any order by a decoder
      that is between frames, leave the committed data alone until the last one
      and then make it the encoded map. */
  lemma AnyOrderRoundTrip(packets: seq<seq<byte>>, order: seq<nat>, frameId: byte, timestamp: seq<byte>,
                          m: TrackerMap, s: State)
    requires ValidMap(m) && |timestamp| == 8 && IsFrame(packets, frameId, timestamp, m)
    requires 1 <= |packets| <= 255 && s.BetweenFrames()
    requires Permutation(order, |packets|)
    ensures var received := Shuffle(packets, order);
            && (forall n :: 0 <= n < |packets| ==> ReceiveAll(received[..n], s).data == s.data)
            && ReceiveAll(received, s).data.trackers == m
            && ReceiveAll(received, s).BetweenFrames()
  {
    hide IsPacket, ReceiveAll, ValidMap, Chunks, Ids, Permutation, Shuffle, Restrict, Collecting;
    FrameParts(packets, frameId, timestamp, m);
    var ps, cs := Shuffle(packets, order), Shuffle(Chunks(m), order);
    ShuffledParts(packets, Chunks(m), order, frameId, |packets|, timestamp, m);
    CollectingNothing(s, frameId, m);
    forall n | 0 <= n < |packets|
      ensures ReceiveAll(ps[..n], s).data == s.data
    {
      PartialFrame(ps[..n], cs[..n], frameId, |packets|, timestamp, m, map[], [], s);
    }
    WholeFrame(ps, cs, frameId, |packets|, timestamp, m, map[], [], s);
    OverNothing(Restrict(m, [] + Flatten(cs)));
    ShuffledIds(Chunks(m), order, m);
  }

  lemma AllIds(m: TrackerMap)
    ensures OrderedKeys.Ascending(Ids(m)) && forall id :: id in Ids(m) <==> id in m
  {
  }

  // ------------------------------------------- frames of more than 255 packets

  lemma {:induction false} FlattenAppend(a: seq<seq<int>>, b: seq<seq<int>>)
    ensures Flatten(a + b) == Flatten(a) + Flatten(b)
  {
    if a == [] {
      assert a + b == b;
    } else {
      assert (a + b)[1..] == a[1..] + b;
      FlattenAppend(a[1..], b);
    }
  }

  /** Once tracker `a` is neither pending nor to come, it can only be in data
      committed before, which lacks tracker `z`. */
  lemma {:induction false} NeverAgain(ps: seq<seq<byte>>, cs: seq<seq<int>>, frameId: byte, count: byte,
                                      timestamp: seq<byte>, m: TrackerMap, s: State, a: int, z: int)
    requires ValidMap(m) && |timestamp| == 8 && Parts(ps, cs, frameId, count, timestamp, m)
    requires s.Valid() && (s.count != 0 ==> s.pending.FrameId() == frameId)
    requires a !in s.pending.trackers && a !in Flatten(cs)
    requires a !in s.data.trackers || z !in s.data.trackers
    ensures var r := ReceiveAll(ps, s); a !in r.data.trackers || z !in r.data.trackers
    decreases |ps|
  {
    hide IsPacket, ValidMap, Receive;
    if ps != [] {
      PacketReceived(ps[0], frameId, count, timestamp, cs[0], m, s);
      NeverAgain(ps[1..], cs[1..], frameId, count, timestamp, m, Receive(ps[0], s), a, z);
    }
  }

  lemma {:induction false} ReceiveAppend(a: seq<seq<byte>>, b: seq<seq<byte>>, s: State)
    requires s.Valid()
    ensures ReceiveAll(a + b, s) == ReceiveAll(b, ReceiveAll(a, s))
  {
    if a == [] {
      assert a + b == b;
    } else {
      assert (a + b)[1..] == a[1..] + b;
      ReceiveAppend(a[1..], b, Receive(a[0], s));
    }
  }

  /** The number of packets after which a decoder commits: what the count byte
      says, and one packet when it says none. */
  function Announced(packets: nat): (n: nat)
    ensures packets > 0 ==> 1 <= n <= packets
  {
    if packets % 256 == 0 then 1 else packets % 256
  }

  /** With 256 packets or more the count byte has wrapped: a part of the frame is
      committed on its own, and neither then nor after any later packet is the
      whole map what is committed. */
  lemma TooManyPackets(packets: seq<seq<byte>>, frameId: byte, timestamp: seq<byte>, m: TrackerMap, s: State)
    requires ValidMap(m) && |timestamp| == 8 && IsFrame(packets, frameId, timestamp, m)
    requires |packets| > 255 && s.BetweenFrames()
    ensures forall n :: 0 <= n < Announced(|packets|) ==> ReceiveAll(packets[..n], s).data == s.data
    ensures forall n :: Announced(|packets|) <= n <= |packets| ==> ReceiveAll(packets[..n], s).data.trackers != m
  {
    hide IsPacket, ReceiveAll, ValidMap, Chunks, Ids, Collecting, Flatten, IsFrame;
    var first := Announced(|packets|);
    forall n | 0 <= n < first ensures ReceiveAll(packets[..n], s).data == s.data {
      BeforeTheCount(packets, n, frameId, timestamp, m, s);
    }
    forall n | first <= n <= |packets| ensures ReceiveAll(packets[..n], s).data.trackers != m {
      AfterTheCount(packets, n, frameId, timestamp, m, s);
    }
  }

  lemma BeforeTheCount(packets: seq<seq<byte>>, n: nat, frameId: byte, timestamp: seq<byte>, m: TrackerMap, s: State)
    requires ValidMap(m) && |timestamp| == 8 && IsFrame(packets, frameId, timestamp, m)
    requires s.BetweenFrames() && n < Announced(|packets|) && n <= |packets|
    ensures ReceiveAll(packets[..n], s).data == s.data
  {
    hide IsPacket, ReceiveAll, ValidMap, Chunks, Ids, Collecting, Flatten;
    FrameParts(packets, frameId, timestamp, m);
    CollectingNothing(s, frameId, m);
    PartialFrame(packets[..n], Chunks(m)[..n], frameId, |packets| % 256, timestamp, m, map[], [], s);
  }

  /** What is committed when the count byte says that the frame is complete. */
  lemma FirstCommit(ps: seq<seq<byte>>, cs: seq<seq<int>>, frameId: byte, count: byte, timestamp: seq<byte>,
                    m: TrackerMap, s: State)
    requires ValidMap(m) && |timestamp| == 8 && Parts(ps, cs, frameId, count, timestamp, m) && ps != []
    requires s.BetweenFrames() && |ps| == (if count == 0 then 1 else count)
    ensures var r := ReceiveAll(ps, s); r.BetweenFrames() && r.data.trackers == Restrict(m, Flatten(cs))
  {
    hide IsPacket, ReceiveAll, ValidMap, Parts, Collecting, Flatten, Restrict;
    CollectingNothing(s, frameId, m);
    WholeFrame(ps, cs, frameId, count, timestamp, m, map[], [], s);
    assert [] + Flatten(cs) == Flatten(cs);
    OverNothing(Restrict(m, Flatten(cs)));
  }

  lemma AfterTheCount(packets: seq<seq<byte>>, n: nat, frameId: byte, timestamp: seq<byte>, m: TrackerMap, s: State)
    requires ValidMap(m) && |timestamp| == 8 && IsFrame(packets, frameId, timestamp, m)
    requires |packets| > 255 && s.BetweenFrames() && Announced(|packets|) <= n <= |packets|
    ensures ReceiveAll(packets[..n], s).data.trackers != m
  {
    hide IsPacket, IsFrame, ReceiveAll, ValidMap, Chunks, Ids, Flatten;
    FrameParts(packets, frameId, timestamp, m);
    var first, count := Announced(|packets|), |packets| % 256;
    var (ps, ps', cs') := (packets[..first], packets[first..n], Chunks(m)[first..n]);
    FirstCommit(ps, Chunks(m)[..first], frameId, count, timestamp, m, s);
    assert packets[..n] == ps + ps';
    ReceiveAppend(ps, ps', s);
    var a, z := FarEnds(m, first, n);
    NeverAgain(ps', cs', frameId, count, timestamp, m, ReceiveAll(ps, s), a, z);
  }

  /** The first tracker comes in no later packet, the last one in no earlier. */
  lemma FarEnds(m: TrackerMap, first: nat, n: nat) returns (a: int, z: int)
    requires ValidMap(m) && 0 < first < |Chunks(m)| && first <= n <= |Chunks(m)|
    ensures a in m && z in m && a !in Flatten(Chunks(m)[first..n]) && z !in Flatten(Chunks(m)[..first])
  {
    hide ValidMap, Chunks, Ids, Flatten;
    ChunkFacts(m);
    AllIds(m);
    var (ids, chunks) := (Ids(m), Chunks(m));
    var (cs, later) := (chunks[..first], chunks[first..]);
    assert chunks == cs + later && later == chunks[first..n] + chunks[n..];
    assert cs[0] == chunks[0] && later[0] == chunks[first];
    Ends(ids, cs, later);
    FlattenAppend(chunks[first..n], chunks[n..]);
    a, z := ids[0], ids[|ids| - 1];
    assert [] + Flatten(cs) == Flatten(cs);
  }

  lemma ChunkFacts(m: TrackerMap)
    requires ValidMap(m)
    ensures Flatten(Chunks(m)) == Ids(m)
    ensures forall i :: 0 <= i < |Chunks(m)| ==> Chunks(m)[i] != []
  {
    hide TrackerBytes;
    ListBytesSize(Ids(m), m);
    PackIsGreedyPartition(Ids(m), SizesOf(m));
  }

  lemma FlattenNonEmpty(cs: seq<seq<int>>)
    requires cs != [] && cs[0] != []
    ensures Flatten(cs) != []
  {
  }

  /** The first id is only in the first packets, the last only in the others. */
  lemma Ends(ids: seq<int>, cs: seq<seq<int>>, cs': seq<seq<int>>)
    requires OrderedKeys.Ascending(ids) && ids == Flatten(cs + cs')
    requires cs != [] && cs[0] != [] && cs' != [] && cs'[0] != []
    ensures ids != [] && ids[0] !in Flatten(cs') && ids[|ids| - 1] !in [] + Flatten(cs)
  {
    hide Flatten;
    FlattenAppend(cs, cs');
    FlattenNonEmpty(cs);
    FlattenNonEmpty(cs');
    var front, back := Flatten(cs), Flatten(cs');
    assert forall i :: 0 <= i < |back| ==> back[i] == ids[|front| + i];
    assert forall i :: 0 <= i < |front| ==> front[i] == ids[i];
  }

  /** The committed map equals the encoded one exactly when the call yields at
      most 255 packets. */
  lemma RoundTripIff(packets: seq<seq<byte>>, frameId: byte, timestamp: seq<byte>, m: TrackerMap, s: State)
    requires ValidMap(m) && |timestamp| == 8 && IsFrame(packets, frameId, timestamp, m)
    requires packets != [] && s.BetweenFrames()
    ensures ReceiveAll(packets, s).data.trackers == m <==> |packets| <= 255
  {
    hide ReceiveAll, ValidMap, IsFrame;
    if |packets| <= 255 {
      var order := seq(|packets|, i requires 0 <= i < |packets| => i);
      forall k | 0 <= k < |packets|
        ensures k in order
      {
        assert order[k] == k;
      }
      AnyOrderRoundTrip(packets, order, frameId, timestamp, m, s);
      assert Shuffle(packets, order) == packets;
    } else {
      TooManyPackets(packets, frameId, timestamp, m, s);
      assert packets[..|packets|] == packets;
    }
  }

  /** A map of at most 3570 trackers always comes back. */
  lemma SmallMapsRoundTrip(packets: seq<seq<byte>>, frameId: byte, timestamp: seq<byte>, m: TrackerMap, s: State)
    requires ValidMap(m) && |timestamp| == 8 && IsFrame(packets, frameId, timestamp, m)
    requires 1 <= |m| <= 3570 && s.BetweenFrames()
    ensures ReceiveAll(packets, s).data.trackers == m
  {
    hide ReceiveAll, IsPacket, TrackerBytes;
    ListBytesSize(Ids(m), m);
    PackCount(Ids(m), SizesOf(m), 255);
    RoundTripIff(packets, frameId, timestamp, m, s);
  }

  // ---------------------------------------------------------- maps that are too big

  /** All seven fields are set. */
  predicate Complete(t: Tracker) { forall k :: 0 <= k < FIELD_COUNT ==> k in t }

  lemma CompleteSize(id: U16, t: Tracker)
    requires ValidTracker(t) && Complete(t)
    ensures |TrackerBytes(id, t)| == MAX_TRACKER
  {
    hide EncodeHeader, FieldBytes;
    assert |FieldsBytes(t, 7)| == 0;
    assert |FieldsBytes(t, 6)| == 12;
    assert |FieldsBytes(t, 5)| == 28;
    assert |FieldsBytes(t, 4)| == 44;
    assert |FieldsBytes(t, 3)| == 52;
    assert |FieldsBytes(t, 2)| == 68;
    assert |FieldsBytes(t, 1)| == 84;
  }

  lemma CompletePackets(packets: seq<seq<byte>>, frameId: byte, timestamp: seq<byte>, m: TrackerMap)
    requires ValidMap(m) && |timestamp| == 8 && IsFrame(packets, frameId, timestamp, m)
    requires forall id :: id in m ==> Complete(m[id])
    ensures |packets| == (|m| + 13) / 14
  {
    hide IsPacket, TrackerBytes, Pack, ListBytes;
    var ids, sizes := Ids(m), SizesOf(m);
    ListBytesSize(ids, m);
    forall i | 0 <= i < |ids| ensures sizes[ids[i]] == MAX_TRACKER {
      assert ids[i] in m;
      CompleteSize(ids[i], m[ids[i]]);
    }
    GreatestPack(ids, sizes);
    assert ids == OrderedKeys.Sorted(m.Keys);
  }

  function CompleteTracker(): Tracker { map k | 0 <= k < FIELD_COUNT :: Zeros(FieldSize(k)) }

  /** Trackers 0 to `n - 1` with all fields. */
  function CompleteMap(n: nat): TrackerMap {
    if n == 0 then map[] else CompleteMap(n - 1)[n - 1 := CompleteTracker()]
  }

  lemma CompleteIsValid()
    ensures ValidTracker(CompleteTracker()) && Complete(CompleteTracker())
  {
  }

  lemma {:induction false} CompleteMapSize(n: nat)
    requires n <= 0x1_0000
    ensures ValidMap(CompleteMap(n)) && |CompleteMap(n)| == n && forall id :: id in CompleteMap(n) ==> 0 <= id < n && Complete(CompleteMap(n)[id])
  {
    hide ValidTracker, CompleteTracker, Complete;
    CompleteIsValid();
    if n > 0 {
      CompleteMapSize(n - 1);
      assert n - 1 !in CompleteMap(n - 1);
    }
  }

  /** Of the maps of `n` trackers that have all fields, exactly those up to 3570
      come back: the bound cannot be improved, and bigger maps are lost. */
  lemma CompleteMapsComeBackIff(n: nat, packets: seq<seq<byte>>, frameId: byte, timestamp: seq<byte>, s: State)
    requires 1 <= n <= 0x1_0000 && |timestamp| == 8 && s.BetweenFrames()
    ensures ValidMap(CompleteMap(n))
    ensures IsFrame(packets, frameId, timestamp, CompleteMap(n)) ==>
              (ReceiveAll(packets, s).data.trackers == CompleteMap(n) <==> n <= 3570)
  {
    hide ReceiveAll, ValidMap, IsFrame, CompleteMap, Complete;
    CompleteMapSize(n);
    if IsFrame(packets, frameId, timestamp, CompleteMap(n)) {
      CompletePackets(packets, frameId, timestamp, CompleteMap(n));
      RoundTripIff(packets, frameId, timestamp, CompleteMap(n), s);
    }
  }
}

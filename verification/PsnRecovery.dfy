/** What a lost packet does to the frame after it: the decoder commits what it
    has when the next frame begins, but does not clear it. */
module PsnRecovery {
  import opened Basics
  import opened PsnDefs
  import opened PsnPacking
  import opened PsnEncoder
  import opened PsnDecoder
  import opened PsnRoundTrip
  import OrderedKeys

  /** The first packet of another frame in mid-frame: what is pending is
      committed and stays pending, as if the decoder had been between frames. */
  lemma OtherFrame(packet: seq<byte>, frameId: byte, count: byte, timestamp: seq<byte>, ids: seq<int>, m: TrackerMap,
                   s: State)
    requires ValidMap(m) && |timestamp| == 8 && IsPacket(packet, frameId, count, timestamp, ids, m)
    requires s.Valid() && s.count != 0 && s.pending.FrameId() != frameId
    ensures |packet| >= 24 && Receive(packet, s) == Receive(packet, State(Data(packet[8..24], s.pending.trackers), s.pending, 0))
  {
    hide ListBytes, ParseList, EncodeHeader, DecodeHeader;
    var list := ListBytes(ids, m);
    var header := HeaderBytes(frameId, count, timestamp, packet[20..24]);
    var main := ChunkHeader(DATA_PACKET, |list| + 24, true);
    var h1, h2 := ChunkHeader(DATA_PACKET_HEADER, PACKET_HEADER_SIZE, false), ChunkHeader(DATA_TRACKER_LIST, |list|, true);
    var p2 := EncodeHeader(h2) + list;
    var p1 := EncodeHeader(h1) + (header + p2);
    assert packet == EncodeHeader(main) + p1;
    assert packet[8..24] == header;
    HeaderRoundTrip(main, p1);
    HeaderRoundTrip(h1, header + p2);
    AdvancePast(header, p2);
    assert (header + p2)[..PACKET_HEADER_SIZE] == header;
    var was := Data(header, s.pending.trackers);
    var s' := State(was, s.pending, 0);
    assert ParseHeader(header + p2, s) == (true, State(was, was, 0)) == ParseHeader(header + p2, s');
    assert ParseChildren(p1, |list| + 24, s) == ParseChildren(p2, |list| + 4, State(was, was, 0)) == ParseChildren(p1, |list| + 24, s');
  }

  /** A whole frame received in the middle of another one is committed on top of
      the trackers that were pending. */
  lemma FrameInMidFrame(packets: seq<seq<byte>>, frameId: byte, timestamp: seq<byte>, m: TrackerMap, s: State)
    requires ValidMap(m) && |timestamp| == 8 && IsFrame(packets, frameId, timestamp, m) && 1 <= |packets| <= 255
    requires s.Valid() && s.count != 0 && s.pending.FrameId() != frameId
    ensures var r := ReceiveAll(packets, s); r.BetweenFrames() && r.data.trackers == s.pending.trackers + m
  {
    hide IsPacket, ValidMap, Chunks, Ids, Restrict, Flatten, Receive;
    FrameParts(packets, frameId, timestamp, m);
    OtherFrame(packets[0], frameId, |packets|, timestamp, Chunks(m)[0], m, s);
    var s' := State(Data(packets[0][8..24], s.pending.trackers), s.pending, 0);
    AllOfNothing(s.pending.trackers, m);
    WholeFrame(packets, Chunks(m), frameId, |packets|, timestamp, m, s.pending.trackers, [], s');
    assert [] + Ids(m) == Ids(m);
    AllIds(m);
    RestrictAll(m, Ids(m));
  }

  lemma AllOfNothing(base: TrackerMap, m: TrackerMap)
    ensures base + Restrict(m, []) == base
  {
  }

  function Selected<T>(xs: seq<T>, which: seq<nat>): (r: seq<T>)
    requires forall i :: 0 <= i < |which| ==> which[i] < |xs|
    ensures |r| == |which|
  {
    seq(|which|, i requires 0 <= i < |which| => xs[which[i]])
  }

  lemma SelectedParts(ps: seq<seq<byte>>, cs: seq<seq<int>>, which: seq<nat>, frameId: byte, count: byte,
                      timestamp: seq<byte>, m: TrackerMap)
    requires ValidMap(m) && |timestamp| == 8 && Parts(ps, cs, frameId, count, timestamp, m)
    requires forall i :: 0 <= i < |which| ==> which[i] < |ps|
    ensures Parts(Selected(ps, which), Selected(cs, which), frameId, count, timestamp, m)
  {
    hide IsPacket;
  }

  /** Some packets of one frame are lost and the next frame arrives whole. Then
      the decoder is between frames again, and what it has committed is the new
      frame exactly if every tracker received of the broken one is in it too:
      others survive although their sender has dropped them. */
  lemma RecoveryIff(packets: seq<seq<byte>>, which: seq<nat>, frameId: byte, timestamp: seq<byte>, m: TrackerMap,
                    packets': seq<seq<byte>>, frameId': byte, timestamp': seq<byte>, m': TrackerMap, s: State)
    requires ValidMap(m) && |timestamp| == 8 && IsFrame(packets, frameId, timestamp, m) && |packets| <= 255
    requires ValidMap(m') && |timestamp'| == 8 && IsFrame(packets', frameId', timestamp', m') && 1 <= |packets'| <= 255
    requires s.BetweenFrames() && frameId != frameId'
    requires 1 <= |which| < |packets| && forall i :: 0 <= i < |which| ==> which[i] < |packets|
    ensures |Chunks(m)| == |packets|
    ensures var r := ReceiveAll(Selected(packets, which) + packets', s);
            r.BetweenFrames() && (r.data.trackers == m' <==> forall id :: InSome(Selected(Chunks(m), which), id) ==> id in m')
  {
    hide IsPacket, ValidMap, Chunks, Ids, Restrict, Flatten, Receive, ReceiveAll, InSome;
    FrameParts(packets, frameId, timestamp, m);
    var ps, cs := Selected(packets, which), Selected(Chunks(m), which);
    SelectedParts(packets, Chunks(m), which, frameId, |packets|, timestamp, m);
    CollectingNothing(s, frameId, m);
    PartialFrame(ps, cs, frameId, |packets|, timestamp, m, map[], [], s);
    var mid := ReceiveAll(ps, s);
    assert [] + Flatten(cs) == Flatten(cs);
    OverNothing(Restrict(m, Flatten(cs)));
    FrameInMidFrame(packets', frameId', timestamp', m', mid);
    ReceiveAppend(ps, packets', s);
    SelectedAreEncoded(m, which);
    Survivors(m, cs, m');
  }

  lemma SelectedAreEncoded(m: TrackerMap, which: seq<nat>)
    requires ValidMap(m) && forall i :: 0 <= i < |which| ==> which[i] < |Chunks(m)|
    ensures forall id :: InSome(Selected(Chunks(m), which), id) ==> id in m
  {
    hide Ids, Chunks, ValidMap;
    ChunkFacts(m);
    AllIds(m);
    var cs := Selected(Chunks(m), which);
    forall id | InSome(cs, id) ensures id in m {
      var i :| 0 <= i < |cs| && id in cs[i];
      assert id in Chunks(m)[which[i]];
      FlattenContains(Chunks(m), id);
    }
  }

  lemma Survivors(m: TrackerMap, cs: seq<seq<int>>, m': TrackerMap)
    requires forall id :: InSome(cs, id) ==> id in m
    ensures Restrict(m, Flatten(cs)) + m' == m' <==> forall id :: InSome(cs, id) ==> id in m'
  {
    hide InSome;
    var kept := Restrict(m, Flatten(cs));
    forall id ensures id in kept <==> InSome(cs, id) { FlattenContains(cs, id); }
    if kept + m' == m' {
      forall id | InSome(cs, id) ensures id in m' { assert id in kept + m'; }
    }
    if forall id :: InSome(cs, id) ==> id in m' {
      forall id ensures id in kept + m' <==> id in m' { assert id in kept ==> InSome(cs, id); }
    }
  }

  // --------------------------------------------------------------- duplicates

  lemma {:induction false} OnceInFlatten(cs: seq<seq<int>>, i: nat, j: nat, x: int)
    requires OrderedKeys.Ascending(Flatten(cs)) && i < j < |cs| && x in cs[i]
    ensures x !in cs[j]
  {
    hide Flatten, InSome;
    var (a, b) := (cs[..j], cs[j..]);
    assert cs == a + b;
    FlattenAppend(a, b);
    FlattenContains(a, x);
    FlattenContains(b, x);
    assert a[i] == cs[i] && b[0] == cs[j];
    InSomeAt(a, i, x);
    NotAgain(Flatten(a), Flatten(b), x);
    if x in cs[j] { InSomeAt(b, 0, x); }
  }

  lemma NotAgain(a: seq<int>, b: seq<int>, x: int)
    requires OrderedKeys.Ascending(a + b) && x in a
    ensures x !in b
  {
    var p :| 0 <= p < |a| && a[p] == x;
    forall q | 0 <= q < |b| ensures b[q] != x {
      assert (a + b)[p] == x && (a + b)[|a| + q] == b[q];
    }
  }

  lemma InSomeAt(cs: seq<seq<int>>, i: nat, x: int)
    requires i < |cs| && x in cs[i]
    ensures InSome(cs, x)
  {
  }

  /** As many packets as the frame has, in any order and with repetitions: the
      last of them commits, and what it commits is the map exactly when every
      packet was among them, each once. */
  lemma DuplicatesIff(packets: seq<seq<byte>>, which: seq<nat>, frameId: byte, timestamp: seq<byte>, m: TrackerMap,
                      s: State)
    requires ValidMap(m) && |timestamp| == 8 && IsFrame(packets, frameId, timestamp, m) && 1 <= |packets| <= 255
    requires s.BetweenFrames() && |which| == |packets| && forall i :: 0 <= i < |which| ==> which[i] < |packets|
    ensures var r := ReceiveAll(Selected(packets, which), s);
            r.BetweenFrames() && (r.data.trackers == m <==> Permutation(which, |packets|))
  {
    hide IsPacket, ValidMap, Chunks, Ids, Restrict, Flatten, Receive, ReceiveAll, Permutation, Collecting;
    FrameParts(packets, frameId, timestamp, m);
    var ps, cs := Selected(packets, which), Selected(Chunks(m), which);
    SelectedParts(packets, Chunks(m), which, frameId, |packets|, timestamp, m);
    CollectingNothing(s, frameId, m);
    WholeFrame(ps, cs, frameId, |packets|, timestamp, m, map[], [], s);
    assert [] + Flatten(cs) == Flatten(cs);
    OverNothing(Restrict(m, Flatten(cs)));
    SelectedIsAllIff(m, which);
  }

  lemma SelectedIsAllIff(m: TrackerMap, which: seq<nat>)
    requires ValidMap(m) && |which| == |Chunks(m)| && forall i :: 0 <= i < |which| ==> which[i] < |Chunks(m)|
    ensures Restrict(m, Flatten(Selected(Chunks(m), which))) == m <==> Permutation(which, |which|)
  {
    hide ValidMap, Chunks, Ids, Restrict, Flatten, InSome;
    var chunks := Chunks(m);
    var cs := Selected(chunks, which);
    ChunkFacts(m);
    AllIds(m);
    if k :| 0 <= k < |which| && k !in which {
      var id := chunks[k][0];
      InSomeAt(chunks, k, id);
      FlattenContains(chunks, id);
      if id in Flatten(cs) {
        FlattenContains(cs, id);
        MissedChunk(chunks, which, k, id);
      }
      NotRestricted(m, Flatten(cs), id);
    } else {
      assert Shuffle(chunks, which) == cs;
      ShuffledIds(chunks, which, m);
      assert [] + Flatten(cs) == Flatten(cs);
    }
  }

  lemma MissedChunk(chunks: seq<seq<int>>, which: seq<nat>, k: nat, id: int)
    requires (forall i :: 0 <= i < |which| ==> which[i] < |chunks|) && k < |chunks| && k !in which && id in chunks[k]
    requires OrderedKeys.Ascending(Flatten(chunks))
    ensures !InSome(Selected(chunks, which), id)
  {
    hide Flatten;
    var cs := Selected(chunks, which);
    if i :| 0 <= i < |cs| && id in cs[i] {
      assert which[i] in which && cs[i] == chunks[which[i]];
      if which[i] < k { OnceInFlatten(chunks, which[i], k, id); } else { OnceInFlatten(chunks, k, which[i], id); }
    }
  }

  lemma NotRestricted(m: TrackerMap, ids: seq<int>, id: int)
    requires id in m && id !in ids
    ensures Restrict(m, ids) != m
  {
    assert id !in Restrict(m, ids);
  }
}

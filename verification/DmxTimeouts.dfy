/** Who holds the two slots of an output port, and how long a silent source
    stays in the output. */
module DmxTimeouts {
  import opened Basics
  import opened DmxMerge

  /** Nothing was heard for more than ten seconds. */
  predicate Silent(time: int, now: int) { now > time + 10 }

  function Kept(ip: int, time: int, now: int): int { if Silent(time, now) then 0 else ip }

  /** The first channels are those of the packet. */
  predicate Over(now: seq<byte>, e: Event, was: seq<byte>) {
    |now| == |was| == |e.data| && forall i :: 0 <= i < |now| ==> now[i] == if i < e.length then e.data[i] else was[i]
  }

  predicate FiledA(p: Port, src: int) { p.ipA == src || (p.ipA == 0 && p.ipB == 0) }

  predicate FiledB(p: Port, src: int) { p.ipA != src && (p.ipB == src || (p.ipA != 0 && p.ipB == 0)) }

  /** Each slot by itself: a silent source goes, any other stays. The time that
      counts is the one before the packet, so a source that is heard again after
      more than ten seconds loses its slot nevertheless. A packet in a free slot
      takes it; one that is filed refreshes its slot only. */
  lemma SlotsAfter(p: Port, e: Event)
    requires p.Valid() && e.Valid() && Distinct(p)
    ensures var q := OnDmx(p, e);
            && q.ipA == (if FiledA(p, e.src) && p.ipA == 0 then e.src else Kept(p.ipA, p.timeA, e.now))
            && q.ipB == (if FiledB(p, e.src) && p.ipB == 0 then e.src else Kept(p.ipB, p.timeB, e.now))
            && q.timeA == (if FiledA(p, e.src) then e.now else p.timeA)
            && q.timeB == (if FiledB(p, e.src) then e.now else p.timeB)
            && (if FiledA(p, e.src) then Over(q.dataA, e, p.dataA) else q.dataA == p.dataA)
            && (if FiledB(p, e.src) then Over(q.dataB, e, p.dataB) else q.dataB == p.dataB)
            && q.length == (if FiledA(p, e.src) || FiledB(p, e.src) then e.Len() else p.length)
            && (!FiledA(p, e.src) && !FiledB(p, e.src) ==> q.data == p.data)
            && q.mode == p.mode
  {
  }

  /** When a source was last heard. */
  function LastTime(events: seq<Event>, src: int): Option<int>
    decreases |events|
  {
    if events == [] then None
    else if events[|events| - 1].src == src then Some(events[|events| - 1].now)
    else LastTime(events[..|events| - 1], src)
  }

  predicate SlotTimed(ip: int, time: int, events: seq<Event>) {
    ip != 0 ==> LastTime(events, ip) == Some(time)
  }

  /** The time of a slot is that of the last packet of its source. */
  lemma {:induction false} SlotsAreTimed(p: Port, events: seq<Event>)
    requires p.Valid() && p.ipA == p.ipB == 0 && forall i :: 0 <= i < |events| ==> events[i].Valid()
    ensures var q := Run(p, events); SlotTimed(q.ipA, q.timeA, events) && SlotTimed(q.ipB, q.timeB, events)
    decreases |events|
  {
    hide OnDmx;
    if events != [] {
      var k := |events| - 1;
      SlotsAreTimed(p, events[..k]);
      SlotsStayDistinct(p, events[..k]);
      SlotsAfter(Run(p, events[..k]), events[k]);
    }
  }

  /** Everybody but `b` was silent at `now`. */
  ghost predicate OthersSilent(events: seq<Event>, b: int, now: int) {
    forall src :: src != b && LastTime(events, src).Some? ==> Silent(LastTime(events, src).value, now)
  }

  predicate OnlyFrom(q: Port, b: int) { q.ipA in {0, b} && q.ipB in {0, b} }

  lemma OnlyOneLeft(q: Port, events: seq<Event>, e: Event)
    requires q.Valid() && e.Valid() && Distinct(q)
    requires SlotTimed(q.ipA, q.timeA, events) && SlotTimed(q.ipB, q.timeB, events) && OthersSilent(events, e.src, e.now)
    ensures OnlyFrom(OnDmx(q, e), e.src)
  {
    hide OnDmx, LastTime;
    SlotsAfter(q, e);
  }

  /** Alone in the slots, a source goes out as it is. */
  lemma AloneIsUnmerged(q: Port, e: Event)
    requires q.Valid() && e.Valid() && Distinct(q) && OnlyFrom(q, e.src)
    ensures OnlyFrom(OnDmx(q, e), e.src) && Over(OnDmx(q, e).data, e, q.data)
  {
  }

  /** Once all others have been silent for more than ten seconds, the second
      packet of a source from then on goes out unmerged, and so does every later
      one. In the first they still count. */
  lemma {:induction false} SilentSourceLeaves(p: Port, events: seq<Event>, k: nat, b: int)
    requires p.Valid() && p.ipA == p.ipB == 0 && k < |events| && forall i :: 0 <= i < |events| ==> events[i].Valid()
    requires forall i :: k <= i < |events| ==> events[i].src == b
    requires OthersSilent(events[..k], b, events[k].now)
    ensures var q := Run(p, events); var n := |events| - 1;
            && OnlyFrom(q, b)
            && (k < n ==> Over(q.data, events[n], Run(p, events[..n]).data))
    decreases |events|
  {
    hide OnDmx, OthersSilent;
    var n := |events| - 1;
    SlotsStayDistinct(p, events[..n]);
    if k == n {
      SlotsAreTimed(p, events[..n]);
      OnlyOneLeft(Run(p, events[..n]), events[..n], events[n]);
    } else {
      assert events[..n][..k] == events[..k];
      SilentSourceLeaves(p, events[..n], k, b);
      AloneIsUnmerged(Run(p, events[..n]), events[n]);
    }
  }

  /** A silent source leaves room: a new one is let in after any packet that has
      emptied the second slot, and not before. */
  lemma RoomIff(p: Port, e: Event)
    requires p.Valid() && e.Valid() && Distinct(p) && e.src != p.ipA && e.src != p.ipB
    ensures var q := OnDmx(p, e);
            && (e.src in {q.ipA, q.ipB} <==> p.ipB == 0)
            && (p.ipB != 0 ==> (q.ipB == 0 <==> Silent(p.timeB, e.now)))
  {
    SlotsAfter(p, e);
  }
}

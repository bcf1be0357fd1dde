/** Art-Net output ports: `handle_dmx`, `check_merge_timeouts` and `merge`. */
module DmxMerge {
  import opened Basics

  const CHANNELS := 512
  const MERGE_TIMEOUT_SECONDS := 10

  datatype Mode = HTP | LTP

  /** An output port. Address 0 means an empty slot. */
  datatype Port = Port(ipA: int, ipB: int, timeA: int, timeB: int,
                       dataA: seq<byte>, dataB: seq<byte>, data: seq<byte>, length: nat, mode: Mode) {
    predicate Valid() { |dataA| == |dataB| == |data| == CHANNELS }
    predicate Merging() { ipA != 0 && ipB != 0 }
  }

  /** An ArtDmx packet for the port and the time of its arrival; `length` is
      the length field of the packet. */
  datatype Event = Event(src: int, data: seq<byte>, length: nat, now: int) {
    predicate Valid() { |data| == CHANNELS && src != 0 }
    function Len(): (n: nat) ensures n <= CHANNELS { if length < CHANNELS then length else CHANNELS }
  }

  function Max(a: byte, b: byte): (m: byte)
    ensures m >= a && m >= b && (m == a || m == b)
  {
    if a > b then a else b
  }

  /** `memcpy(dst, src, n)`. */
  function Copy(dst: seq<byte>, src: seq<byte>, n: nat): (r: seq<byte>)
    requires n <= |dst| == |src|
    ensures |r| == |dst|
  {
    src[..n] + dst[n..]
  }

  function HighestOf(a: seq<byte>, b: seq<byte>): (r: seq<byte>)
    requires |a| == |b|
    ensures |r| == |a| && forall i :: 0 <= i < |r| ==> r[i] == Max(a[i], b[i])
  {
    seq(|a|, i requires 0 <= i < |a| => Max(a[i], b[i]))
  }

  function CheckTimeouts(p: Port, now: int): Port {
    p.(ipA := if now - p.timeA > MERGE_TIMEOUT_SECONDS then 0 else p.ipA,
       ipB := if now - p.timeB > MERGE_TIMEOUT_SECONDS then 0 else p.ipB)
  }

  function Merge(p: Port, n: nat, latest: seq<byte>): (r: Port)
    requires p.Valid() && n <= CHANNELS && |latest| == CHANNELS
    ensures r.Valid()
  {
    p.(data := Copy(p.data, if p.mode == HTP then HighestOf(p.dataA, p.dataB) else latest, n))
  }

  /** The slot a packet is filed under. The decision is made on the addresses
      read before the timeouts are checked. */
  datatype Slot = A(taken: bool) | B(taken: bool) | Discard

  function SlotFor(p: Port, src: int): Slot {
    if p.ipA == 0 && p.ipB == 0 then A(true)
    else if p.ipA == src && p.ipB == 0 then A(false)
    else if p.ipA == 0 && p.ipB == src then B(false)
    else if p.ipA != src && p.ipB == 0 then B(true)
    else if p.ipA == src && p.ipB != src then A(false)
    else if p.ipA != src && p.ipB == src then B(false)
    else Discard
  }

  function OnDmx(p: Port, e: Event): (r: Port)
    requires p.Valid() && e.Valid()
    ensures r.Valid()
  {
    var q, n := CheckTimeouts(p, e.now), e.Len();
    match SlotFor(p, e.src)
    case A(taken) =>
      var q := q.(ipA := if taken then e.src else q.ipA, timeA := e.now, dataA := Copy(q.dataA, e.data, n), length := n);
      if p.ipB == 0 then q.(data := Copy(q.data, e.data, n)) else Merge(q, n, q.dataA)
    case B(taken) =>
      var q := q.(ipB := if taken then e.src else q.ipB, timeB := e.now, dataB := Copy(q.dataB, e.data, n), length := n);
      if p.ipA == 0 then q.(data := Copy(q.data, e.data, n)) else Merge(q, n, q.dataB)
    case Discard => q
  }

  // -------------------------------------------------------------- single steps

  /** A packet from an address that is in neither slot is taken exactly when
      slot B is empty: with B occupied it is discarded even if A is free. */
  lemma NewSourceTakenIff(p: Port, e: Event)
    requires p.Valid() && e.Valid() && p.ipA != e.src && p.ipB != e.src
    ensures var q := OnDmx(p, e); (q.ipA == e.src || q.ipB == e.src) <==> p.ipB == 0
    ensures p.ipB != 0 ==> OnDmx(p, e) == CheckTimeouts(p, e.now)
  {
  }

  /** The comment's truth table starts a merge when A is empty and B belongs to
      another address; the code discards the packet. */
  lemma TruthTableDiffers(e: Event)
    requires e.Valid() && e.src == 1 && e.now == 0
    ensures var zeros := seq(CHANNELS, _ => 0 as byte);
            var p := Port(0, 2, 0, 0, zeros, zeros, zeros, 0, HTP);
            p.Valid() && OnDmx(p, e) == p
  {
  }

  /** The output after a packet that is not discarded: in a merge with highest
      takes precedence the other source counts, whether or not it has timed out
      by now; otherwise the packet itself goes out. Channels past its length
      keep their level. */
  lemma OutputAfter(p: Port, e: Event, i: nat)
    requires p.Valid() && e.Valid() && i < CHANNELS && SlotFor(p, e.src) != Discard
    ensures var q := OnDmx(p, e);
            var other := if SlotFor(p, e.src).A? then p.ipB else p.ipA;
            var level := if SlotFor(p, e.src).A? then p.dataB[i] else p.dataA[i];
            q.data[i] == if i >= e.Len() then p.data[i]
                         else if other != 0 && p.mode == HTP then Max(e.data[i], level)
                         else e.data[i]
  {
  }

  // --------------------------------------------------------------- whole runs

  function Run(p: Port, events: seq<Event>): (r: Port)
    requires p.Valid() && forall i :: 0 <= i < |events| ==> events[i].Valid()
    ensures r.Valid()
    decreases |events|
  {
    if events == [] then p else OnDmx(Run(p, events[..|events| - 1]), events[|events| - 1])
  }

  predicate Distinct(p: Port) {
    p.ipA != 0 ==> p.ipA != p.ipB
  }

  /** The two slots never hold the same address. */
  lemma {:induction false} SlotsStayDistinct(p: Port, events: seq<Event>)
    requires p.Valid() && Distinct(p) && forall i :: 0 <= i < |events| ==> events[i].Valid()
    ensures Distinct(Run(p, events))
    decreases |events|
  {
    if events != [] {
      SlotsStayDistinct(p, events[..|events| - 1]);
    }
  }

  /** While two addresses hold the slots, packets from others change neither the
      output nor the stored frames. */
  lemma {:induction false} ThirdAddressesChangeNothing(p: Port, events: seq<Event>)
    requires p.Valid() && p.Merging()
    requires forall i :: 0 <= i < |events| ==> events[i].Valid() && events[i].src != p.ipA && events[i].src != p.ipB
    requires forall i :: 0 <= i < |events| ==> events[i].now - p.timeA <= MERGE_TIMEOUT_SECONDS && events[i].now - p.timeB <= MERGE_TIMEOUT_SECONDS
    ensures Run(p, events) == p
    decreases |events|
  {
    if events != [] {
      ThirdAddressesChangeNothing(p, events[..|events| - 1]);
    }
  }

  /** Packet `k` has reached channel `i` in the merge that is still going on: it
      was filed under its source, and both slots have been held ever since. */
  predicate Covers(p: Port, events: seq<Event>, i: nat, k: nat)
    requires p.Valid() && forall j :: 0 <= j < |events| ==> events[j].Valid()
  {
    && k < |events| && i < CHANNELS && i < events[k].length
    && events[k].src in {Run(p, events[..k + 1]).ipA, Run(p, events[..k + 1]).ipB}
    && forall j :: k < j <= |events| ==> Run(p, events[..j]).Merging()
  }

  /** Highest takes precedence, packets of any length: during a merge the output
      is the channel-wise maximum of the two stored frames on every channel that
      some packet of this merge has reached. */
  lemma {:induction false} OutputIsMaximumWhereCovered(p: Port, events: seq<Event>, i: nat, k: nat)
    requires p.Valid() && p.mode == HTP && !p.Merging() && forall j :: 0 <= j < |events| ==> events[j].Valid()
    requires Covers(p, events, i, k)
    ensures var q := Run(p, events); q.data[i] == Max(q.dataA[i], q.dataB[i])
    decreases |events|
  {
    hide OnDmx;
    var n := |events| - 1;
    var (before, e) := (events[..n], events[n]);
    assert events[..n + 1] == events;
    ModeKept(p, before);
    SlotsStayDistinct(p, before);
    assert Run(p, events) == OnDmx(Run(p, before), e);
    SlotCases(Run(p, before), e, i);
    if k < n {
      assert before[..k + 1] == events[..k + 1];
      forall j | k < j <= n ensures Run(p, before[..j]).Merging() { assert before[..j] == events[..j]; }
      assert before[..n] == before;
      OutputIsMaximumWhereCovered(p, before, i, k);
    }
  }

  lemma {:induction false} ModeKept(p: Port, events: seq<Event>)
    requires p.Valid() && forall k :: 0 <= k < |events| ==> events[k].Valid()
    ensures Run(p, events).mode == p.mode
    decreases |events|
  {
    if events != [] {
      ModeKept(p, events[..|events| - 1]);
    }
  }

  lemma SlotCases(q: Port, e: Event, i: nat)
    requires q.Valid() && e.Valid() && Distinct(q) && q.mode == HTP && i < CHANNELS
    ensures var r := OnDmx(q, e);
            r.Merging() ==>
              if q.Merging() && e.src != q.ipA && e.src != q.ipB then r.data == q.data && r.dataA == q.dataA && r.dataB == q.dataB && e.src != r.ipA && e.src != r.ipB
              else if i < e.Len() then r.data[i] == Max(r.dataA[i], r.dataB[i])
              else q.data[i] == Max(q.dataA[i], q.dataB[i]) ==> r.data[i] == Max(r.dataA[i], r.dataB[i])
  {
  }

  /** The frame of the last packet from `src`. */
  function LastFrom(events: seq<Event>, src: int): seq<byte>
    decreases |events|
  {
    if events == [] then []
    else if events[|events| - 1].src == src then events[|events| - 1].data
    else LastFrom(events[..|events| - 1], src)
  }

  predicate FullFrames(events: seq<Event>) {
    forall i :: 0 <= i < |events| ==> events[i].Valid() && events[i].length >= CHANNELS
  }

  predicate Tracks(q: Port, events: seq<Event>) {
    && (q.ipA != 0 ==> q.dataA == LastFrom(events, q.ipA))
    && (q.ipB != 0 ==> q.dataB == LastFrom(events, q.ipB))
  }

  lemma TracksStep(q: Port, events: seq<Event>, e: Event)
    requires q.Valid() && e.Valid() && e.length >= CHANNELS && Tracks(q, events) && Distinct(q)
    ensures Tracks(OnDmx(q, e), events + [e])
  {
    var all := events + [e];
    assert all[|all| - 1] == e && all[..|all| - 1] == events;
    assert forall d: seq<byte> :: |d| == CHANNELS ==> Copy(d, e.data, CHANNELS) == e.data;
  }

  /** Highest takes precedence, full frames: with both slots occupied the output
      is the channel-wise maximum of the last frames received from the two
      addresses. */
  lemma {:induction false} OutputIsMaximumOfLastFrames(p: Port, events: seq<Event>)
    requires p.Valid() && p.ipA == p.ipB == 0 && p.mode == HTP && FullFrames(events)
    ensures var q := Run(p, events); var (a, b) := (LastFrom(events, q.ipA), LastFrom(events, q.ipB));
            && Tracks(q, events)
            && (q.Merging() ==> |a| == |b| == CHANNELS && q.data == HighestOf(a, b))
    decreases |events|
  {
    if events != [] {
      var before, e := events[..|events| - 1], events[|events| - 1];
      OutputIsMaximumOfLastFrames(p, before);
      SlotsStayDistinct(p, before);
      ModeKept(p, before);
      assert events == before + [e];
      TracksStep(Run(p, before), before, e);
      MergeStep(Run(p, before), e);
    }
  }

  lemma MergeStep(q: Port, e: Event)
    requires q.Valid() && e.Valid() && Distinct(q) && e.length >= CHANNELS && q.mode == HTP
    requires q.Merging() ==> q.data == HighestOf(q.dataA, q.dataB)
    ensures var r := OnDmx(q, e); r.Merging() ==> r.data == HighestOf(r.dataA, r.dataB)
  {
    var r := OnDmx(q, e);
    if r.Merging() {
      forall i | 0 <= i < CHANNELS
        ensures r.data[i] == Max(r.dataA[i], r.dataB[i])
      {
        SlotCases(q, e, i);
      }
    }
  }
}

/** What the sources of a run hold, read off its events: which packets the levels,
    priorities and addresses that are arbitrated come from, and when a universe
    is announced. */
module SacnHistory {
  import opened Basics
  import opened SacnMerge
  import opened SacnReceiver
  import OrderedKeys

  // --------------------------------------------------------------- one packet

  predicate Has(e: Engine, c: int, u: int) { c in e.sources && u in e.sources[c] }

  /** What source `c` holds of universe `u` is as it was. */
  predicate Untouched(e: Engine, e': Engine, c: int, u: int) {
    (Has(e', c, u) <==> Has(e, c, u)) && (Has(e, c, u) ==> e'.sources[c][u] == e.sources[c][u])
  }

  /** The slots are in front, and behind them is what was there, zeros at first. */
  predicate Over(now: seq<byte>, slots: seq<byte>, present: bool, was: seq<byte>) {
    |now| == UNIVERSE_SIZE &&
    forall i :: 0 <= i < UNIVERSE_SIZE ==>
      now[i] == if i < |slots| then slots[i] else if present && i < |was| then was[i] else 0
  }

  function Level(e: Engine, c: int, u: int): seq<byte> { if Has(e, c, u) then e.sources[c][u].dmx else [] }
  function Priorities(e: Engine, c: int, u: int): seq<byte> { if Has(e, c, u) then e.sources[c][u].channelPriority else [] }
  function Priority(e: Engine, c: int, u: int): int { if Has(e, c, u) then e.sources[c][u].priority else 0 }
  function Ip(e: Engine, c: int, u: int): int { if Has(e, c, u) then e.sources[c][u].ip else 0 }
  predicate PerChannel(e: Engine, c: int, u: int) { Has(e, c, u) && e.sources[c][u].hasPerChannelPriority }

  lemma CopyIsOver(buffer: seq<byte>, slots: seq<byte>, present: bool, was: seq<byte>)
    requires |buffer| == UNIVERSE_SIZE && buffer == if present then was else Zeros()
    ensures Over(CopySlots(buffer, slots), slots, present, was)
  {
  }

  lemma CopyNothing(buffer: seq<byte>)
    requires |buffer| == UNIVERSE_SIZE
    ensures CopySlots(buffer, []) == buffer
  {
  }

  /** A packet leaves its slots, priority and address with its own source and
      universe, as its start code says, and nothing anywhere else. */
  lemma PacketIsStored(e: Engine, c: int, u: int, ip: int, priority: byte, startCode: byte, slots: seq<byte>)
    requires ValidEngine(e)
    ensures var (e', had) := (OnData(e, c, u, ip, priority, startCode, slots), Has(e, c, u));
            && Has(e', c, u)
            && Over(Level(e', c, u), if startCode == 0x00 then slots else [], had, Level(e, c, u))
            && Over(Priorities(e', c, u), if startCode == 0xDD then slots else [], had, Priorities(e, c, u))
            && Priority(e', c, u) == (if startCode == 0x00 then priority else Priority(e, c, u))
            && Ip(e', c, u) == (if startCode == 0x00 || startCode == 0xDD then ip else Ip(e, c, u))
            && (PerChannel(e', c, u) <==> startCode == 0xDD || PerChannel(e, c, u))
            && (forall d, v :: d != c || v != u ==> Untouched(e, e', d, v))
            && e'.merged == e.merged
            && e'.dirty == if startCode == 0x00 || startCode == 0xDD then e.dirty + {u} else e.dirty
  {
    hide CopySlots, Over;
    var x := Stored(e, c, u);
    assert x.Valid();
    CopyIsOver(x.dmx, if startCode == 0x00 then slots else [], Has(e, c, u), Level(e, c, u));
    CopyIsOver(x.channelPriority, if startCode == 0xDD then slots else [], Has(e, c, u), Priorities(e, c, u));
    CopyNothing(x.dmx);
    CopyNothing(x.channelPriority);
  }

  /** A lost universe is gone from its source, and the source with its last one. */
  lemma LossIsStored(e: Engine, c: int, u: int)
    requires ValidEngine(e)
    ensures var e' := OnSourceLost(e, c, u);
            && !Has(e', c, u)
            && (c in e'.sources <==> c in e.sources && (Has(e, c, u) ==> exists v :: v != u && v in e.sources[c]))
            && (forall d, v :: d != c || v != u ==> Untouched(e, e', d, v))
            && e'.merged == e.merged && e'.dirty == if Has(e, c, u) then e.dirty + {u} else e.dirty
  {
    var e' := OnSourceLost(e, c, u);
    if Has(e, c, u) {
      var rest := e.sources[c] - {u};
      if rest.Keys != {} {
        var v := OrderedKeys.Pick(rest.Keys);
        assert v != u && v in e.sources[c];
      } else {
        forall v | v in e.sources[c] ensures v == u { assert v !in rest; }
      }
    }
  }

  /** An expiry takes the priorities per channel from the universe, and keeps them
      for when they come back. */
  lemma ExpiryIsStored(e: Engine, c: int, u: int)
    requires ValidEngine(e)
    ensures var e' := OnPriorityExpired(e, c, u);
            && (Has(e', c, u) <==> Has(e, c, u)) && !PerChannel(e', c, u)
            && Level(e', c, u) == Level(e, c, u) && Priorities(e', c, u) == Priorities(e, c, u)
            && Priority(e', c, u) == Priority(e, c, u) && Ip(e', c, u) == Ip(e, c, u)
            && (forall d, v :: d != c || v != u ==> Untouched(e, e', d, v))
            && e'.merged == e.merged && e'.dirty == if PerChannel(e, c, u) then e.dirty + {u} else e.dirty
  {
  }

  // ------------------------------------------------------------- what was heard

  /** Whether source `c` has sent data for `u` since it was last lost there. */
  predicate Carries(events: seq<Event>, c: int, u: int)
    decreases |events|
  {
    events != [] &&
    var before := events[..|events| - 1];
    match events[|events| - 1]
    case Data(d, v, _, _, _, _) => (d == c && v == u) || Carries(before, c, u)
    case Lost(d, v) => !(d == c && v == u) && Carries(before, c, u)
    case _ => Carries(before, c, u)
  }

  /** The slot of the last packet with this start code that was long enough. */
  function SlotHeard(events: seq<Event>, startCode: byte, c: int, u: int, i: nat): byte
    decreases |events|
  {
    if events == [] then 0
    else
      var before := SlotHeard(events[..|events| - 1], startCode, c, u, i);
      match events[|events| - 1]
      case Data(d, v, _, _, code, slots) => if d == c && v == u && code == startCode && i < |slots| then slots[i] else before
      case Lost(d, v) => if d == c && v == u then 0 else before
      case _ => before
  }

  /** The priority of the last packet of levels. */
  function PriorityHeard(events: seq<Event>, c: int, u: int): int
    decreases |events|
  {
    if events == [] then 0
    else
      var before := PriorityHeard(events[..|events| - 1], c, u);
      match events[|events| - 1]
      case Data(d, v, _, priority, code, _) => if d == c && v == u && code == 0x00 then priority as int else before
      case Lost(d, v) => if d == c && v == u then 0 else before
      case _ => before
  }

  /** The address of the last packet of levels or priorities. */
  function IpHeard(events: seq<Event>, c: int, u: int): int
    decreases |events|
  {
    if events == [] then 0
    else
      var before := IpHeard(events[..|events| - 1], c, u);
      match events[|events| - 1]
      case Data(d, v, ip, _, code, _) => if d == c && v == u && (code == 0x00 || code == 0xDD) then ip else before
      case Lost(d, v) => if d == c && v == u then 0 else before
      case _ => before
  }

  /** Whether there were priorities per channel since they last expired. */
  predicate PerChannelHeard(events: seq<Event>, c: int, u: int)
    decreases |events|
  {
    events != [] &&
    var before := PerChannelHeard(events[..|events| - 1], c, u);
    match events[|events| - 1]
    case Data(d, v, _, _, code, _) => (d == c && v == u && code == 0xDD) || before
    case Lost(d, v) => !(d == c && v == u) && before
    case Expired(d, v) => !(d == c && v == u) && before
    case Receive(_) => before
  }

  /** Every source holds just what was heard of it. */
  ghost predicate HoldsHeard(events: seq<Event>, c: int, u: int) {
    var e := Run(events);
    && (Has(e, c, u) <==> Carries(events, c, u))
    && (Has(e, c, u) ==>
          && (forall i :: 0 <= i < UNIVERSE_SIZE ==> i < |Level(e, c, u)| && Level(e, c, u)[i] == SlotHeard(events, 0x00, c, u, i))
          && (forall i :: 0 <= i < UNIVERSE_SIZE ==> i < |Priorities(e, c, u)| && Priorities(e, c, u)[i] == SlotHeard(events, 0xDD, c, u, i)))
    && (!Has(e, c, u) ==> forall i :: SlotHeard(events, 0x00, c, u, i) == SlotHeard(events, 0xDD, c, u, i) == 0)
    && Priority(e, c, u) == PriorityHeard(events, c, u)
    && Ip(e, c, u) == IpHeard(events, c, u)
    && (PerChannel(e, c, u) <==> PerChannelHeard(events, c, u))
  }

  lemma {:induction false} EveryRunHoldsHeard(events: seq<Event>, c: int, u: int)
    ensures HoldsHeard(events, c, u)
    decreases |events|
  {
    if events != [] {
      var k := |events| - 1;
      EveryRunHoldsHeard(events[..k], c, u);
      HeardNext(events, c, u);
    }
  }

  lemma HeardNext(events: seq<Event>, c: int, u: int)
    requires events != [] && HoldsHeard(events[..|events| - 1], c, u)
    ensures HoldsHeard(events, c, u)
  {
    hide OnData, OnSourceLost, OnPriorityExpired, Refreshed;
    var k := |events| - 1;
    var e := Run(events[..k]);
    match events[k] {
      case Data(d, v, ip, priority, code, slots) => HeardPacket(events, c, u);
      case Lost(d, v) => HeardLoss(events, c, u);
      case Expired(d, v) => HeardExpiry(events, c, u);
      case Receive(changesOnly) => UnheardStays(events, c, u);
    }
  }

  predicate Concerns(e: Event, c: int, u: int) { (e.Data? || e.Lost?) && e.cid == c && e.universe == u }

  lemma SlotsUnheard(events: seq<Event>, c: int, u: int)
    requires events != [] && !Concerns(events[|events| - 1], c, u)
    ensures forall i :: SlotHeard(events, 0x00, c, u, i) == SlotHeard(events[..|events| - 1], 0x00, c, u, i)
    ensures forall i :: SlotHeard(events, 0xDD, c, u, i) == SlotHeard(events[..|events| - 1], 0xDD, c, u, i)
  {
  }

  lemma RestUnheard(events: seq<Event>, c: int, u: int)
    requires events != []
    requires var x := events[|events| - 1]; x.Receive? || x.cid != c || x.universe != u
    ensures var before := events[..|events| - 1];
            && Carries(events, c, u) == Carries(before, c, u) && PriorityHeard(events, c, u) == PriorityHeard(before, c, u)
            && IpHeard(events, c, u) == IpHeard(before, c, u) && PerChannelHeard(events, c, u) == PerChannelHeard(before, c, u)
  {
  }

  lemma UnheardStays(events: seq<Event>, c: int, u: int)
    requires events != [] && HoldsHeard(events[..|events| - 1], c, u)
    requires var x := events[|events| - 1]; x.Receive? || x.cid != c || x.universe != u
    requires Untouched(Run(events[..|events| - 1]), Run(events), c, u)
    ensures HoldsHeard(events, c, u)
  {
    hide Run, SlotHeard, Carries, PriorityHeard, IpHeard, PerChannelHeard;
    var before := events[..|events| - 1];
    SlotsUnheard(events, c, u);
    RestUnheard(events, c, u);
    var (e, e') := (Run(before), Run(events));
    assert Level(e', c, u) == Level(e, c, u) && Priorities(e', c, u) == Priorities(e, c, u);
    forall i | 0 <= i < UNIVERSE_SIZE && Has(e', c, u)
      ensures i < |Level(e', c, u)| && Level(e', c, u)[i] == SlotHeard(events, 0x00, c, u, i)
      ensures i < |Priorities(e', c, u)| && Priorities(e', c, u)[i] == SlotHeard(events, 0xDD, c, u, i)
    {
      assert Level(e, c, u)[i] == SlotHeard(before, 0x00, c, u, i) && Priorities(e, c, u)[i] == SlotHeard(before, 0xDD, c, u, i);
    }
  }

  lemma HeardExpiry(events: seq<Event>, c: int, u: int)
    requires events != [] && events[|events| - 1].Expired? && HoldsHeard(events[..|events| - 1], c, u)
    ensures HoldsHeard(events, c, u)
  {
    hide OnPriorityExpired;
    var before, x := events[..|events| - 1], events[|events| - 1];
    ExpiryIsStored(Run(before), x.cid, x.universe);
    if x.cid == c && x.universe == u {
      SlotsUnheard(events, c, u);
      assert Priority(Run(events), c, u) == PriorityHeard(events, c, u) && Ip(Run(events), c, u) == IpHeard(events, c, u);
    } else {
      UnheardStays(events, c, u);
    }
  }

  lemma HeardLoss(events: seq<Event>, c: int, u: int)
    requires events != [] && events[|events| - 1].Lost? && HoldsHeard(events[..|events| - 1], c, u)
    ensures HoldsHeard(events, c, u)
  {
    hide OnSourceLost;
    var before, x := events[..|events| - 1], events[|events| - 1];
    LossIsStored(Run(before), x.cid, x.universe);
    if x.cid == c && x.universe == u {
      forall i ensures SlotHeard(events, 0x00, c, u, i) == SlotHeard(events, 0xDD, c, u, i) == 0 {}
    } else {
      UnheardStays(events, c, u);
    }
  }

  lemma HeardPacket(events: seq<Event>, c: int, u: int)
    requires events != [] && events[|events| - 1].Data? && HoldsHeard(events[..|events| - 1], c, u)
    ensures HoldsHeard(events, c, u)
  {
    hide OnData, Over;
    var before, x := events[..|events| - 1], events[|events| - 1];
    var (e, e') := (Run(before), Run(events));
    assert e' == OnData(e, x.cid, x.universe, x.ip, x.priority, x.startCode, x.slots);
    PacketIsStored(e, x.cid, x.universe, x.ip, x.priority, x.startCode, x.slots);
    if x.cid == c && x.universe == u {
      HeardSlots(before, events, 0x00, c, u, Level(e, c, u), Level(e', c, u));
      HeardSlots(before, events, 0xDD, c, u, Priorities(e, c, u), Priorities(e', c, u));
    } else {
      UnheardStays(events, c, u);
    }
  }

  lemma HeardSlots(before: seq<Event>, events: seq<Event>, startCode: byte, c: int, u: int, was: seq<byte>, now: seq<byte>)
    requires events != [] && before == events[..|events| - 1] && events[|events| - 1].Data?
    requires events[|events| - 1].cid == c && events[|events| - 1].universe == u
    requires var x := events[|events| - 1]; Over(now, if x.startCode == startCode then x.slots else [], was != [], was)
    requires was != [] ==> |was| == UNIVERSE_SIZE && forall i :: 0 <= i < UNIVERSE_SIZE ==> was[i] == SlotHeard(before, startCode, c, u, i)
    requires was == [] ==> forall i :: SlotHeard(before, startCode, c, u, i) == 0
    ensures |now| == UNIVERSE_SIZE && forall i :: 0 <= i < UNIVERSE_SIZE ==> now[i] == SlotHeard(events, startCode, c, u, i)
  {
  }

  // ----------------------------------------------------- the merge, as it was heard

  function EffectiveHeard(events: seq<Event>, c: int, u: int, i: nat): int {
    if PerChannelHeard(events, c, u) then SlotHeard(events, 0xDD, c, u, i) else PriorityHeard(events, c, u)
  }

  /** Of those that send the universe, the first with the greatest priority. */
  ghost predicate HeardWins(events: seq<Event>, u: int, i: nat, c: int) {
    && Carries(events, c, u)
    && forall d :: Carries(events, d, u) ==>
                     && EffectiveHeard(events, d, u, i) <= EffectiveHeard(events, c, u, i)
                     && (d < c ==> EffectiveHeard(events, d, u, i) < EffectiveHeard(events, c, u, i))
  }

  ghost predicate HeardWinsSome(events: seq<Event>, u: int, c: int) {
    exists i :: 0 <= i < UNIVERSE_SIZE && HeardWins(events, u, i, c)
  }

  ghost predicate HeardLast(events: seq<Event>, u: int, c: int) {
    HeardWinsSome(events, u, c) && forall d :: HeardWinsSome(events, u, d) ==> d <= c
  }

  lemma ColumnHeard(events: seq<Event>, u: int, c: int)
    ensures var col := ColumnOf(Run(events).sources, u);
            && (c in col <==> Carries(events, c, u))
            && (c in col ==>
                  && col[c].ip == IpHeard(events, c, u)
                  && (forall i :: 0 <= i < UNIVERSE_SIZE ==> col[c].dmx[i] == SlotHeard(events, 0x00, c, u, i))
                  && (forall i :: 0 <= i < UNIVERSE_SIZE ==> col[c].Effective(i) as int == EffectiveHeard(events, c, u, i)))
  {
    hide Run, Carries, SlotHeard, PriorityHeard, IpHeard, PerChannelHeard;
    EveryRunHoldsHeard(events, c, u);
    var e := Run(events);
    if Has(e, c, u) {
      assert e.sources[c][u].Valid() && ColumnOf(e.sources, u)[c] == e.sources[c][u];
      assert Ip(e, c, u) == IpHeard(events, c, u) && Priority(e, c, u) == PriorityHeard(events, c, u);
      forall i | 0 <= i < UNIVERSE_SIZE
        ensures e.sources[c][u].dmx[i] == SlotHeard(events, 0x00, c, u, i)
        ensures e.sources[c][u].channelPriority[i] == SlotHeard(events, 0xDD, c, u, i)
      {
        assert Level(e, c, u)[i] == SlotHeard(events, 0x00, c, u, i) && Priorities(e, c, u)[i] == SlotHeard(events, 0xDD, c, u, i);
      }
    }
  }

  lemma WinnersHeard(events: seq<Event>, u: int, i: nat, c: int)
    requires i < UNIVERSE_SIZE
    ensures Wins(ColumnOf(Run(events).sources, u), i, c) <==> HeardWins(events, u, i, c)
  {
    hide Run, Carries, EffectiveHeard, ColumnOf;
    forall d { ColumnHeard(events, u, d); }
  }

  ghost predicate ChannelHeard(events: seq<Event>, u: int, i: nat, m: Universe, c: int)
    requires m.Valid() && i < UNIVERSE_SIZE
  {
    && HeardWins(events, u, i, c)
    && m.dmx[i] == SlotHeard(events, 0x00, c, u, i)
    && m.Effective(i) as int == EffectiveHeard(events, c, u, i)
  }

  ghost predicate ChannelIsHeard(events: seq<Event>, u: int, i: nat, m: Universe)
    requires m.Valid() && i < UNIVERSE_SIZE
  {
    exists c :: ChannelHeard(events, u, i, m, c)
  }

  lemma SomebodyHeard(events: seq<Event>, u: int)
    ensures ColumnOf(Run(events).sources, u) != map[] <==> exists c :: Carries(events, c, u)
  {
    hide Run, Carries, ColumnOf;
    var col := ColumnOf(Run(events).sources, u);
    if c :| Carries(events, c, u) { ColumnHeard(events, u, c); }
    if col.Keys != {} {
      var c := OrderedKeys.Pick(col.Keys);
      ColumnHeard(events, u, c);
    } else {
      assert col == map[];
    }
  }

  /** Over every run: a universe that is not marked dirty is cached exactly when
      some source has sent it and has not been lost since, and each channel has
      the last slot of the first source with the greatest priority, the address
      being that of the last source that wins a channel. */
  lemma EveryRunAsHeard(events: seq<Event>, u: int)
    requires forall k :: 0 <= k < |events| ==> events[k].Handled()
    requires u !in Run(events).dirty
    ensures var e := Run(events);
            && (u in e.merged <==> exists c :: Carries(events, c, u))
            && (u in e.merged ==>
                  && (forall i :: 0 <= i < UNIVERSE_SIZE ==> ChannelIsHeard(events, u, i, e.merged[u]))
                  && exists c :: HeardLast(events, u, c) && e.merged[u].ip == IpHeard(events, c, u))
  {
    hide Run, Carries, SlotHeard, HeardWins, IpHeard, EffectiveHeard, ColumnOf, Wins;
    EveryRun(events, u);
    var e := Run(events);
    var col := ColumnOf(e.sources, u);
    SomebodyHeard(events, u);
    forall c { ColumnHeard(events, u, c); }
    if u in e.merged {
      var m := e.merged[u];
      forall i | 0 <= i < UNIVERSE_SIZE ensures ChannelIsHeard(events, u, i, m) {
        assert ChannelAgrees(col, m, i);
        var c :| c in col && Wins(col, i, c) && m.dmx[i] == col[c].dmx[i] && m.Effective(i) == col[c].Effective(i);
        WinnersHeard(events, u, i, c);
        assert ChannelHeard(events, u, i, m, c);
      }
      var c :| LastWinner(col, c) && m.ip == col[c].ip;
      LastHeard(events, u, c);
    }
  }

  lemma LastHeard(events: seq<Event>, u: int, c: int)
    requires LastWinner(ColumnOf(Run(events).sources, u), c)
    ensures HeardLast(events, u, c)
  {
    hide Run, Carries, EffectiveHeard, ColumnOf, Wins, HeardWins;
    var col := ColumnOf(Run(events).sources, u);
    forall d, i | 0 <= i < UNIVERSE_SIZE ensures Wins(col, i, d) <==> HeardWins(events, u, i, d) { WinnersHeard(events, u, i, d); }
    forall d ensures WinsSome(col, d) <==> HeardWinsSome(events, u, d) {
      if WinsSome(col, d) {
        var i :| 0 <= i < UNIVERSE_SIZE && Wins(col, i, d);
        assert HeardWins(events, u, i, d);
      }
      if HeardWinsSome(events, u, d) {
        var i :| 0 <= i < UNIVERSE_SIZE && HeardWins(events, u, i, d);
        assert Wins(col, i, d);
      }
    }
  }

  /** One source: its packet comes through with the next refresh. */
  lemma SoleSourceComesThrough(before: seq<Event>, c: int, u: int, ip: int, priority: byte, slots: seq<byte>, changesOnly: bool)
    requires forall k :: 0 <= k < |before| ==> before[k].Handled()
    requires forall d :: d != c ==> !Carries(before, d, u)
    ensures var e := Run(before + [Data(c, u, ip, priority, 0x00, slots), Receive(changesOnly)]);
            && u in e.merged && e.merged[u].Valid() && e.merged[u].ip == ip
            && (forall i :: 0 <= i < UNIVERSE_SIZE && i < |slots| ==> e.merged[u].dmx[i] == slots[i])
            && (!PerChannelHeard(before, c, u) ==> forall i :: 0 <= i < UNIVERSE_SIZE ==> e.merged[u].Effective(i) == priority)
  {
    hide Run, HeardWins, HeardWinsSome;
    var x, r := Data(c, u, ip, priority, 0x00, slots), Receive(changesOnly);
    var (one, all) := (before + [x], before + [x, r]);
    assert all[..|all| - 1] == one && one[..|one| - 1] == before && all[|all| - 1] == r && one[|one| - 1] == x;
    RunEnds(all);
    EveryRunAsHeard(all, u);
    assert Carries(one, c, u) && Carries(all, c, u);
    forall d | d != c ensures !Carries(all, d, u) { assert !Carries(one, d, u); }
    var m := Run(all).merged[u];
    forall i | 0 <= i < UNIVERSE_SIZE
      ensures i < |slots| ==> m.dmx[i] == slots[i]
      ensures !PerChannelHeard(before, c, u) ==> m.Effective(i) == priority
    {
      assert ChannelIsHeard(all, u, i, m);
      var d :| ChannelHeard(all, u, i, m, d);
      WinnerCarries(all, u, i, d);
      assert SlotHeard(all, 0x00, c, u, i) == SlotHeard(one, 0x00, c, u, i);
      assert PerChannelHeard(all, c, u) == PerChannelHeard(one, c, u) && PriorityHeard(all, c, u) == PriorityHeard(one, c, u);
    }
    var d :| HeardLast(all, u, d) && m.ip == IpHeard(all, d, u);
    LastCarries(all, u, d);
    assert IpHeard(all, c, u) == IpHeard(one, c, u);
  }

  lemma RunEnds(events: seq<Event>)
    requires events != [] && events[|events| - 1].Receive?
    ensures Run(events).dirty == {}
  {
    hide Refreshed;
  }

  lemma WinnerCarries(events: seq<Event>, u: int, i: nat, c: int)
    requires HeardWins(events, u, i, c)
    ensures Carries(events, c, u)
  {
  }

  lemma LastCarries(events: seq<Event>, u: int, c: int)
    requires HeardLast(events, u, c)
    ensures Carries(events, c, u)
  {
    hide Carries;
    var i :| 0 <= i < UNIVERSE_SIZE && HeardWins(events, u, i, c);
  }

  // -------------------------------------------------------------- announcements

  lemma {:induction false} GatherKeepsPrevious(sources: Sources, cids: seq<int>, u: int, stale: Option<Universe>)
    requires ValidSources(sources) && (forall i :: 0 <= i < |cids| ==> cids[i] in sources)
    requires Entry(false, stale).Valid()
    ensures var e := Gather(sources, cids, u, stale);
            && (stale.Some? ==> e.cached.Some?)
            && (e.cached.Some? ==> e.cached.value.prevDMX == if stale.Some? then stale.value.prevDMX else None)
    decreases |cids|
  {
    hide MergeIn;
    if cids != [] {
      var k := |cids| - 1;
      GatherKeepsPrevious(sources, cids[..k], u, stale);
      var before := Gather(sources, cids[..k], u, stale);
      var c := cids[k];
      if u in sources[c] {
        assert sources[c][u].Valid();
        if before.active { MergeKeepsPrevious(before.cached.value, sources[c][u]); }
      }
    }
  }

  lemma MergeKeepsPrevious(m: Universe, x: Universe)
    requires m.Valid() && x.Valid()
    ensures MergeIn(m, x).prevDMX == m.prevDMX
  {
  }

  /** The levels remembered for a universe. */
  function Remembered(e: Engine, u: int): Option<seq<byte>> {
    if u in e.merged then e.merged[u].prevDMX else None
  }

  lemma RefreshedEntry(e: Engine, u: int, changesOnly: bool)
    requires ValidEngine(e)
    ensures var (m, r) := (Refresh(e, changesOnly).merged, Refreshed(e, u));
            && (r.active <==> ColumnOf(e.sources, u) != map[])
            && (r.active ==> r.cached.value.prevDMX == Remembered(e, u))
            && (u in e.dirty ==> (u in m <==> r.active))
            && (u in e.dirty && r.active ==>
                  && m[u].dmx == r.cached.value.dmx && m[u].ip == r.cached.value.ip
                  && m[u].prevDMX == if changesOnly then Some(m[u].dmx) else Remembered(e, u))
  {
    hide Agrees, Gather;
    RefreshedAgrees(e, u);
    GatherKeepsPrevious(e.sources, OrderedKeys.Sorted(e.sources.Keys), u, Cached(e.merged, u));
  }

  lemma {:induction false} QueueContains(e: Engine, us: seq<int>, changesOnly: bool, u: int, ip: int)
    requires ValidEngine(e) && OrderedKeys.Ascending(us)
    ensures var r := Refreshed(e, u);
            (u, ip) in Queue(e, us, changesOnly) <==>
            u in us && r.active && Announced(r.cached.value, changesOnly) && ip == r.cached.value.ip
    decreases |us|
  {
    hide Refreshed, Announced;
    if us != [] {
      var k := |us| - 1;
      QueueContains(e, us[..k], changesOnly, u, ip);
      assert us == us[..k] + [us[k]];
    }
  }

  /** In ascending order, so each universe once at most. */
  lemma {:induction false} QueueAscends(e: Engine, us: seq<int>, changesOnly: bool)
    requires ValidEngine(e) && OrderedKeys.Ascending(us)
    ensures OnlyOf(Queue(e, us, changesOnly), us) && Ascends(Queue(e, us, changesOnly))
    decreases |us|
  {
    hide Refreshed, Announced;
    if us != [] {
      var k := |us| - 1;
      var q := Queue(e, us[..k], changesOnly);
      QueueAscends(e, us[..k], changesOnly);
      forall i | 0 <= i < |q| ensures exists j :: 0 <= j < k && us[j] == q[i].0 {
        var j :| 0 <= j < k && us[..k][j] == q[i].0;
        assert us[j] == q[i].0;
      }
    }
  }

  predicate OnlyOf(q: seq<(int, int)>, us: seq<int>) {
    forall i :: 0 <= i < |q| ==> exists j :: 0 <= j < |us| && us[j] == q[i].0
  }

  predicate Ascends(q: seq<(int, int)>) {
    forall i, j :: 0 <= i < j < |q| ==> q[i].0 < q[j].0
  }

  function Announcements(e: Engine, changesOnly: bool): seq<(int, int)>
    requires ValidEngine(e)
  {
    Queue(e, OrderedKeys.Sorted(e.dirty), changesOnly)
  }

  /** A refresh announces the marked universes that some source carries, each
      under the address it is now merged from; where only changes count, those
      whose levels differ from the ones remembered, which it then remembers. */
  lemma AnnouncedIff(e: Engine, changesOnly: bool, u: int, ip: int)
    requires ValidEngine(e)
    ensures var (q, e') := (Announcements(e, changesOnly), Refresh(e, changesOnly));
            && ((u, ip) in q <==>
                  && u in e.dirty && u in e'.merged && ip == e'.merged[u].ip
                  && (changesOnly ==> Remembered(e, u) != Some(e'.merged[u].dmx)))
            && (u in e.dirty ==> (u in e'.merged <==> ColumnOf(e.sources, u) != map[]))
            && Remembered(e', u) ==
               (if u in e.dirty && u !in e'.merged then None
                else if changesOnly && u in e.dirty then Some(e'.merged[u].dmx)
                else Remembered(e, u))
            && Ascends(q)
  {
    hide Refreshed, Queue, OrderedKeys.Sorted;
    RefreshedEntry(e, u, changesOnly);
    QueueContains(e, OrderedKeys.Sorted(e.dirty), changesOnly, u, ip);
    QueueAscends(e, OrderedKeys.Sorted(e.dirty), changesOnly);
  }

  predicate ChangesOnly(events: seq<Event>) {
    forall k :: 0 <= k < |events| ==> events[k].Receive? ==> events[k].changesOnly
  }

  ghost predicate IsAnnounced(e: Engine, u: int)
    requires ValidEngine(e)
  {
    exists ip :: (u, ip) in Announcements(e, true)
  }

  /** The levels with which a universe was last announced, unless nobody has sent
      it since. */
  ghost function LastAnnounced(events: seq<Event>, u: int): Option<seq<byte>>
    decreases |events|
  {
    if events == [] then None
    else
      var before := events[..|events| - 1];
      if !events[|events| - 1].Receive? then LastAnnounced(before, u)
      else if u !in Run(events).merged then None
      else if IsAnnounced(Run(before), u) then Some(Run(events).merged[u].dmx)
      else LastAnnounced(before, u)
  }

  lemma {:induction false} RemembersLastAnnounced(events: seq<Event>, u: int)
    requires ChangesOnly(events)
    ensures Remembered(Run(events), u) == LastAnnounced(events, u)
    decreases |events|
  {
    hide Refresh, OnData, OnSourceLost, OnPriorityExpired, Announcements;
    if events != [] {
      var k := |events| - 1;
      var e := Run(events[..k]);
      RemembersLastAnnounced(events[..k], u);
      match events[k] {
        case Data(d, v, ip, priority, code, slots) => PacketIsStored(e, d, v, ip, priority, code, slots);
        case Lost(d, v) => LossIsStored(e, d, v);
        case Expired(d, v) => ExpiryIsStored(e, d, v);
        case Receive(changesOnly) => RemembersAnnouncement(e, u);
      }
    }
  }

  lemma RemembersAnnouncement(e: Engine, u: int)
    requires ValidEngine(e)
    ensures var e' := Refresh(e, true);
            Remembered(e', u) == if u !in e'.merged then None else if IsAnnounced(e, u) then Some(e'.merged[u].dmx) else Remembered(e, u)
  {
    hide Refresh, Announcements;
    forall ip { AnnouncedIff(e, true, u, ip); }
    AnnouncedIff(e, true, u, 0);
    if u in Refresh(e, true).merged { AnnouncedIff(e, true, u, Refresh(e, true).merged[u].ip); }
  }

  /** Over every run in which only changes count: a refresh announces a universe
      exactly when it is marked, some source sends it, and its levels differ from
      those it was last announced with. */
  lemma EveryRunAnnouncesChanges(events: seq<Event>, u: int)
    requires ChangesOnly(events)
    ensures var (e, e') := (Run(events), Refresh(Run(events), true));
            IsAnnounced(e, u) <==>
            u in e.dirty && u in e'.merged && (exists c :: Carries(events, c, u)) && LastAnnounced(events, u) != Some(e'.merged[u].dmx)
  {
    hide Refresh, Announcements, Run, Carries, LastAnnounced, ColumnOf;
    var e := Run(events);
    RemembersLastAnnounced(events, u);
    forall ip { AnnouncedIff(e, true, u, ip); }
    AnnouncedIff(e, true, u, if u in Refresh(e, true).merged then Refresh(e, true).merged[u].ip else 0);
    SomebodyHeard(events, u);
  }
}

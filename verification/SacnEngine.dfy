/** The sACN state of the router thread, updated in place. `std::array` buffers
    are copied by value in the source and are sequences here. */
module SacnEngine {
  import opened Basics
  import opened SacnMerge
  import opened SacnReceiver
  import OrderedKeys

  /** The first `n` channels are merged, the others as they were. */
  ghost predicate MergedUpTo(cached: Universe, x: Universe, m: Universe, n: nat)
    requires cached.Valid() && x.Valid() && n <= UNIVERSE_SIZE
  {
    && m.Valid()
    && m == cached.(hasPerChannelPriority := true, dmx := m.dmx, channelPriority := m.channelPriority, ip := m.ip)
    && (forall j :: 0 <= j < n ==> m.dmx[j] == if Takes(cached, x, j) then x.dmx[j] else cached.dmx[j])
    && (forall j :: 0 <= j < n ==> m.channelPriority[j] == if Takes(cached, x, j) then x.Effective(j) else cached.Effective(j))
    && (forall j :: n <= j < UNIVERSE_SIZE ==> m.dmx[j] == cached.dmx[j] && m.channelPriority[j] == cached.channelPriority[j])
    && m.ip == if exists j :: 0 <= j < n && Takes(cached, x, j) then x.ip else cached.ip
  }

  lemma MergedAll(cached: Universe, x: Universe, m: Universe)
    requires cached.Valid() && x.Valid() && (cached.hasPerChannelPriority || x.hasPerChannelPriority)
    requires MergedUpTo(cached, x, m, UNIVERSE_SIZE)
    ensures m == MergeIn(cached, x)
  {
    hide Takes;
    var r := MergeIn(cached, x);
    assert m.dmx == r.dmx && m.channelPriority == r.channelPriority;
  }

  /** Per channel priorities on both sides. */
  method MergeChannels(cached: Universe, x: Universe) returns (m: Universe)
    requires cached.Valid() && x.Valid() && cached.hasPerChannelPriority && x.hasPerChannelPriority
    ensures m == MergeIn(cached, x)
  {
    m := cached;
    for channel := 0 to UNIVERSE_SIZE
      invariant MergedUpTo(cached, x, m, channel)
    {
      if x.channelPriority[channel] > m.channelPriority[channel] {
        m := m.(dmx := m.dmx[channel := x.dmx[channel]],
                channelPriority := m.channelPriority[channel := x.channelPriority[channel]], ip := x.ip);
      }
    }
    MergedAll(cached, x, m);
  }

  /** Per channel priorities into a universe with one priority. */
  method MergeChannelsIntoBasic(cached: Universe, x: Universe) returns (m: Universe)
    requires cached.Valid() && x.Valid() && !cached.hasPerChannelPriority && x.hasPerChannelPriority
    ensures m == MergeIn(cached, x)
  {
    m := cached.(hasPerChannelPriority := true);
    for channel := 0 to UNIVERSE_SIZE
      invariant MergedUpTo(cached, x, m, channel)
    {
      if x.channelPriority[channel] > m.priority {
        m := m.(dmx := m.dmx[channel := x.dmx[channel]],
                channelPriority := m.channelPriority[channel := x.channelPriority[channel]], ip := x.ip);
      } else {
        m := m.(channelPriority := m.channelPriority[channel := m.priority]);
      }
    }
    MergedAll(cached, x, m);
  }

  /** One priority into a universe with per channel priorities. */
  method MergeBasicIntoChannels(cached: Universe, x: Universe) returns (m: Universe)
    requires cached.Valid() && x.Valid() && cached.hasPerChannelPriority && !x.hasPerChannelPriority
    ensures m == MergeIn(cached, x)
  {
    m := cached;
    for channel := 0 to UNIVERSE_SIZE
      invariant MergedUpTo(cached, x, m, channel)
    {
      if x.priority > m.channelPriority[channel] {
        m := m.(dmx := m.dmx[channel := x.dmx[channel]],
                channelPriority := m.channelPriority[channel := x.priority], ip := x.ip);
      }
    }
    MergedAll(cached, x, m);
  }

  /** A further source of a universe. */
  method MergeUniverse(cached: Universe, x: Universe) returns (m: Universe)
    requires cached.Valid() && x.Valid()
    ensures m == MergeIn(cached, x)
  {
    m := cached;
    if x.hasPerChannelPriority {
      if m.hasPerChannelPriority {
        m := MergeChannels(m, x);
      } else {
        m := MergeChannelsIntoBasic(m, x);
      }
    } else if m.hasPerChannelPriority {
      m := MergeBasicIntoChannels(m, x);
    } else if x.priority > m.priority {
      m := m.(dmx := x.dmx, priority := x.priority, ip := x.ip);
    }
  }

  /** What the loops of the refresh know about dirty universe `u` after the
      sources `cids`. */
  ghost predicate Entered(e: Engine, cids: seq<int>) {
    forall i :: 0 <= i < |cids| ==> cids[i] in e.sources
  }

  ghost predicate Gathered(e: Engine, merged: map<int, Universe>, active: set<int>, cids: seq<int>, u: int)
    requires ValidEngine(e) && Entered(e, cids)
  {
    Entry(u in active, Cached(merged, u)) == Gather(e.sources, cids, u, Cached(e.merged, u))
  }

  ghost predicate AllGathered(e: Engine, merged: map<int, Universe>, active: set<int>, cids: seq<int>, us: seq<int>)
    requires ValidEngine(e) && Entered(e, cids)
  {
    forall k :: 0 <= k < |us| ==> Gathered(e, merged, active, cids, us[k])
  }

  class Receiver {
    var sources: Sources
    var merged: map<int, Universe>
    var dirtyUniverses: set<int>

    function Abstract(): Engine
      reads this
    {
      Engine(sources, merged, dirtyUniverses)
    }

    constructor ()
      ensures Abstract() == Run([])
    {
      sources, merged, dirtyUniverses := map[], map[], {};
    }

    method UniverseData(cid: int, u: int, ip: int, priority: byte, startCode: byte, slots: seq<byte>)
      requires ValidEngine(Abstract())
      modifies this
      ensures Abstract() == OnData(old(Abstract()), cid, u, ip, priority, startCode, slots)
    {
      var universes := if cid in sources then sources[cid] else map[];
      var x := if u in universes then universes[u] else NewUniverse();
      assert x == Stored(Abstract(), cid, u);
      if startCode == STARTCODE_DMX {
        x := x.(priority := priority, ip := ip);
        dirtyUniverses := dirtyUniverses + {u};
        x := x.(dmx := CopySlots(x.dmx, slots));
      } else if startCode == STARTCODE_PRIORITY {
        x := x.(hasPerChannelPriority := true, ip := ip);
        dirtyUniverses := dirtyUniverses + {u};
        x := x.(channelPriority := CopySlots(x.channelPriority, slots));
      }
      sources := sources[cid := universes[u := x]];
    }

    method SourceDisappeared(cid: int, u: int)
      modifies this
      ensures Abstract() == OnSourceLost(old(Abstract()), cid, u)
    {
      if cid !in sources || u !in sources[cid] {
        return;
      }
      sources := sources[cid := sources[cid] - {u}];
      dirtyUniverses := dirtyUniverses + {u};
      if sources[cid] == map[] {
        sources := sources - {cid};
      }
      assert sources == OnSourceLost(old(Abstract()), cid, u).sources;
    }

    method SourcePCPExpired(cid: int, u: int)
      modifies this
      ensures Abstract() == OnPriorityExpired(old(Abstract()), cid, u)
    {
      if cid !in sources || u !in sources[cid] || !sources[cid][u].hasPerChannelPriority {
        return;
      }
      sources := sources[cid := sources[cid][u := sources[cid][u].(hasPerChannelPriority := false)]];
      dirtyUniverses := dirtyUniverses + {u};
    }

    /** One source universe of the refresh: `merged[u]` is inserted if absent and
        then replaced or merged into. */
    method GatherOne(u: int, x: Universe, active: set<int>) returns (active': set<int>)
      requires x.Valid() && (u in merged ==> merged[u].Valid()) && (u in active ==> u in merged)
      modifies this`merged
      ensures active' == active + {u}
      ensures merged == old(merged)[u := Add(Entry(u in active, Cached(old(merged), u)), x).cached.value]
    {
      var cached := if u in merged then merged[u] else NewUniverse();
      if u !in active {
        cached := First(cached, x);
      } else {
        cached := MergeUniverse(cached, x);
      }
      merged := merged[u := cached];
      active' := active + {u};
    }

    /** All dirty universes of source `cids[i]`. */
    method GatherSource(cids: seq<int>, i: nat, us: seq<int>, active: set<int>,
                        ghost e: Engine) returns (active': set<int>)
      requires ValidEngine(e) && sources == e.sources && Entered(e, cids) && i < |cids|
      requires OrderedKeys.Ascending(us) && Entered(e, cids[..i]) && Entered(e, cids[..i + 1])
      requires AllGathered(e, merged, active, cids[..i], us)
      modifies this`merged
      ensures AllGathered(e, merged, active', cids[..i + 1], us)
      ensures forall u :: u !in us ==> Cached(merged, u) == Cached(old(merged), u) && (u in active' <==> u in active)
    {
      hide Gather;
      active' := active;
      var universes := sources[cids[i]];
      for j := 0 to |us|
        invariant forall k :: 0 <= k < j ==> Gathered(e, merged, active', cids[..i + 1], us[k])
        invariant forall k :: j <= k < |us| ==> Gathered(e, merged, active', cids[..i], us[k])
        invariant forall u :: u !in us ==> Cached(merged, u) == Cached(old(merged), u) && (u in active' <==> u in active)
      {
        var u := us[j];
        GatherNext(e, cids, i, u);
        assert Gathered(e, merged, active', cids[..i], u);
        if u in universes {
          active' := GatherOne(u, universes[u], active');
        }
      }
    }

    /** `RecvsACN`: refreshes the dirty universes and queues the announcements. */
    method RecvsACN(changesOnly: bool) returns (queue: seq<(int, int)>)
      requires ValidEngine(Abstract())
      modifies this
      ensures Abstract() == Refresh(old(Abstract()), changesOnly)
      ensures queue == Queue(old(Abstract()), OrderedKeys.Sorted(old(dirtyUniverses)), changesOnly)
    {
      hide Refreshed, Refresh, Queue, OrderedKeys.Sorted, OrderedKeys.Ascending, ValidSources;
      ghost var e := Abstract();
      var us, cids := OrderedKeys.Sorted(dirtyUniverses), OrderedKeys.Sorted(sources.Keys);
      var active := GatherAll(us, cids, e);
      merged := map u | u in merged && (u in dirtyUniverses ==> u in active) :: merged[u];
      queue := Announce(us, active, changesOnly, e);
      dirtyUniverses := {};
      RefreshedMap(e, merged, changesOnly);
      RefreshRest(e, changesOnly);
    }

    method GatherAll(us: seq<int>, cids: seq<int>, ghost e: Engine) returns (active: set<int>)
      requires ValidEngine(e) && e == Abstract() && OrderedKeys.Ascending(us)
      requires cids == OrderedKeys.Sorted(sources.Keys) && forall u :: u in us <==> u in e.dirty
      modifies this`merged
      ensures forall u :: u in e.dirty ==> Entry(u in active, Cached(merged, u)) == Refreshed(e, u)
      ensures forall u :: u !in e.dirty ==> Cached(merged, u) == Cached(e.merged, u) && u !in active
    {
      hide Gathered, Refreshed, Entered, OrderedKeys.Sorted, OrderedKeys.Ascending, AllGathered;
      active := {};
      AllEntered(e, cids);
      GatheredStart(e, cids, us);
      for i := 0 to |cids|
        invariant AllGathered(e, merged, active, cids[..i], us)
        invariant forall u :: u !in us ==> Cached(merged, u) == Cached(e.merged, u) && u !in active
      {
        active := GatherSource(cids, i, us, active, e);
      }
      GatheredEnd(e, merged, active, cids, us);
    }

    method Announce(us: seq<int>, active: set<int>, changesOnly: bool, ghost e: Engine) returns (queue: seq<(int, int)>)
      requires ValidEngine(e) && OrderedKeys.Ascending(us)
      requires forall k :: 0 <= k < |us| ==> (us[k] in active <==> Refreshed(e, us[k]).active)
      requires forall k :: 0 <= k < |us| && us[k] in active ==> Cached(merged, us[k]) == Refreshed(e, us[k]).cached
      modifies this`merged
      ensures queue == Queue(e, us, changesOnly)
      ensures merged.Keys == old(merged.Keys)
      ensures forall u :: u in merged ==> merged[u] == if u in us && u in active then Remember(old(merged)[u], changesOnly) else old(merged)[u]
    {
      hide Refreshed;
      queue := [];
      for k := 0 to |us|
        invariant queue == Queue(e, us[..k], changesOnly)
        invariant merged.Keys == old(merged.Keys)
        invariant forall u :: u in merged ==> merged[u] == if u in us[..k] && u in active then Remember(old(merged)[u], changesOnly) else old(merged)[u]
      {
        var u := us[k];
        assert us[..k + 1][..k] == us[..k] && us[..k + 1] == us[..k] + [u];
        assert u !in us[..k];
        if u in active {
          var m := merged[u];
          var announced := true;
          if changesOnly {
            if m.prevDMX == Some(m.dmx) {
              announced := false;
            } else {
              m := m.(prevDMX := Some(m.dmx));
              merged := merged[u := m];
            }
          }
          if announced {
            queue := queue + [(u, m.ip)];
          }
        }
      }
      assert us[..|us|] == us;
    }
  }

  lemma GatherNext(e: Engine, cids: seq<int>, i: nat, u: int)
    requires ValidEngine(e) && (forall j :: 0 <= j < |cids| ==> cids[j] in e.sources) && i < |cids|
    ensures var before, c, stale := Gather(e.sources, cids[..i], u, Cached(e.merged, u)), cids[i], Cached(e.merged, u);
            && (u in e.sources[c] ==> e.sources[c][u].Valid())
            && Gather(e.sources, cids[..i + 1], u, stale) == if u in e.sources[c] then Add(before, e.sources[c][u]) else before
  {
    assert cids[..i + 1][..i] == cids[..i];
  }

  lemma RefreshedMap(e: Engine, merged: map<int, Universe>, changesOnly: bool)
    requires ValidEngine(e)
    requires forall u :: u in merged <==> if u in e.dirty then Refreshed(e, u).active else u in e.merged
    requires forall u :: u in merged ==>
               merged[u] == if u in e.dirty then Remember(Refreshed(e, u).cached.value, changesOnly) else e.merged[u]
    ensures merged == Refresh(e, changesOnly).merged
  {
    hide Refreshed;
    var m := Refresh(e, changesOnly).merged;
    forall u
      ensures u in merged <==> u in m
      ensures u in m && u in merged ==> m[u] == merged[u]
    {
      assert u in e.merged.Keys + e.dirty <==> u in e.merged || u in e.dirty;
    }
  }

  lemma RefreshRest(e: Engine, changesOnly: bool)
    requires ValidEngine(e)
    ensures Refresh(e, changesOnly).sources == e.sources && Refresh(e, changesOnly).dirty == {}
  {
  }

  lemma AllEntered(e: Engine, cids: seq<int>)
    requires cids == OrderedKeys.Sorted(e.sources.Keys)
    ensures forall i :: 0 <= i <= |cids| ==> Entered(e, cids[..i])
    ensures Entered(e, cids)
  {
    hide OrderedKeys.Sorted;
    forall i | 0 <= i < |cids| ensures cids[i] in e.sources { assert cids[i] in cids; }
  }

  lemma GatheredStart(e: Engine, cids: seq<int>, us: seq<int>)
    requires ValidEngine(e) && Entered(e, cids)
    ensures Entered(e, cids[..0]) && AllGathered(e, e.merged, {}, cids[..0], us)
  {
  }

  lemma GatheredEnd(e: Engine, merged: map<int, Universe>, active: set<int>, cids: seq<int>, us: seq<int>)
    requires ValidEngine(e) && cids == OrderedKeys.Sorted(e.sources.Keys) && Entered(e, cids[..|cids|])
    requires AllGathered(e, merged, active, cids[..|cids|], us) && forall u :: u in us <==> u in e.dirty
    ensures forall u :: u in e.dirty ==> Entry(u in active, Cached(merged, u)) == Refreshed(e, u)
  {
    hide Gather, OrderedKeys.Sorted;
    assert cids[..|cids|] == cids;
    forall u | u in e.dirty ensures Entry(u in active, Cached(merged, u)) == Refreshed(e, u) {
      assert u in us;
      var k :| 0 <= k < |us| && us[k] == u;
      assert Gathered(e, merged, active, cids, us[k]);
    }
  }
}

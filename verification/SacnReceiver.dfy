/** `RecvsACN` and the callbacks that feed it. Every callback and every refresh
    holds one mutex from beginning to end, so each is one step. */
module SacnReceiver {
  import opened Basics
  import opened SacnMerge
  import OrderedKeys

  // ------------------------------------------------------ refreshing the cache

  /** What the refresh has made of one dirty universe so far: whether a source
      had it, and the entry of the cache, possibly a stale one. */
  datatype Entry = Entry(active: bool, cached: Option<Universe>) {
    predicate Valid() { (active ==> cached.Some?) && (cached.Some? ==> cached.value.Valid()) }
  }

  function Add(e: Entry, x: Universe): (r: Entry)
    requires e.Valid() && x.Valid()
    ensures r.Valid()
  {
    var m := if e.cached.Some? then e.cached.value else NewUniverse();
    Entry(true, Some(if e.active then MergeIn(m, x) else First(m, x)))
  }

  function Gather(sources: Sources, cids: seq<int>, u: int, stale: Option<Universe>): (e: Entry)
    requires ValidSources(sources) && (forall i :: 0 <= i < |cids| ==> cids[i] in sources)
    requires Entry(false, stale).Valid()
    ensures e.Valid()
    decreases |cids|
  {
    if cids == [] then Entry(false, stale)
    else
      var k := |cids| - 1;
      var before := Gather(sources, cids[..k], u, stale);
      var c := cids[k];
      if u in sources[c] then
        assert sources[c][u].Valid();
        Add(before, sources[c][u])
      else before
  }

  function Among(sources: Sources, cids: seq<int>, u: int): (col: Column)
    requires ValidSources(sources)
    ensures ValidColumn(col)
  {
    map c | c in sources && c in cids && u in sources[c] :: sources[c][u]
  }

  /** The entry is the arbitration of the sources gathered; nothing of a stale
      entry is left once a source has the universe. */
  lemma {:induction false} GatherAgrees(sources: Sources, cids: seq<int>, u: int, stale: Option<Universe>)
    requires ValidSources(sources) && (forall i :: 0 <= i < |cids| ==> cids[i] in sources)
    requires OrderedKeys.Ascending(cids) && Entry(false, stale).Valid()
    ensures var e, col := Gather(sources, cids, u, stale), Among(sources, cids, u);
            && (e.active <==> col != map[])
            && (if e.active then Agrees(col, e.cached.value) else e.cached == stale)
    decreases |cids|
  {
    hide Agrees, MergeIn, First;
    if cids == [] {
      assert Among(sources, cids, u) == map[];
    } else {
      var k := |cids| - 1;
      var c := cids[k];
      GatherAgrees(sources, cids[..k], u, stale);
      var before, col := Gather(sources, cids[..k], u, stale), Among(sources, cids[..k], u);
      AmongNext(sources, cids, u);
      if u in sources[c] {
        assert c in Among(sources, cids, u);
        if before.active {
          MergeAgrees(col, c, sources[c][u], before.cached.value);
        } else {
          FirstAgrees(if stale.Some? then stale.value else NewUniverse(), sources[c][u], c);
          assert col[c := sources[c][u]] == map[c := sources[c][u]];
        }
      }
    }
  }

  lemma AmongNext(sources: Sources, cids: seq<int>, u: int)
    requires ValidSources(sources) && (forall i :: 0 <= i < |cids| ==> cids[i] in sources)
    requires OrderedKeys.Ascending(cids) && cids != []
    ensures var k := |cids| - 1; var col := Among(sources, cids[..k], u);
            && (forall d :: d in col ==> d < cids[k])
            && Among(sources, cids, u) == if u in sources[cids[k]] then col[cids[k] := sources[cids[k]][u]] else col
  {
    var k := |cids| - 1;
    assert cids == cids[..k] + [cids[k]];
  }

  function Cached(merged: map<int, Universe>, u: int): Option<Universe> {
    if u in merged then Some(merged[u]) else None
  }

  /** Dirty universe `u` after all sources have been gathered. */
  function Refreshed(e: Engine, u: int): (r: Entry)
    requires ValidEngine(e)
    ensures r.Valid()
  {
    Gather(e.sources, OrderedKeys.Sorted(e.sources.Keys), u, Cached(e.merged, u))
  }

  lemma RefreshedAgrees(e: Engine, u: int)
    requires ValidEngine(e)
    ensures var r, col := Refreshed(e, u), ColumnOf(e.sources, u);
            && (r.active <==> col != map[])
            && (r.active ==> Agrees(col, r.cached.value))
  {
    hide Agrees;
    var cids := OrderedKeys.Sorted(e.sources.Keys);
    GatherAgrees(e.sources, cids, u, Cached(e.merged, u));
    assert Among(e.sources, cids, u) == ColumnOf(e.sources, u);
  }

  /** Whether a refreshed universe is announced. */
  predicate Announced(m: Universe, changesOnly: bool) {
    !(changesOnly && m.prevDMX == Some(m.dmx))
  }

  function Remember(m: Universe, changesOnly: bool): Universe {
    if changesOnly then m.(prevDMX := Some(m.dmx)) else m
  }

  function Refresh(e: Engine, changesOnly: bool): Engine
    requires ValidEngine(e)
  {
    e.(merged := map u | u in e.merged.Keys + e.dirty && (u in e.dirty ==> Refreshed(e, u).active) ::
                   if u in e.dirty then Remember(Refreshed(e, u).cached.value, changesOnly) else e.merged[u],
       dirty := {})
  }

  /** The packets queued, in ascending universe order. */
  function Queue(e: Engine, us: seq<int>, changesOnly: bool): seq<(int, int)>
    requires ValidEngine(e)
    decreases |us|
  {
    if us == [] then []
    else
      var u := us[|us| - 1];
      var r := Refreshed(e, u);
      Queue(e, us[..|us| - 1], changesOnly) +
      if r.active && Announced(r.cached.value, changesOnly) then [(u, r.cached.value.ip)] else []
  }

  lemma AgreesIgnoresPrevious(col: Column, m: Universe, changesOnly: bool)
    requires ValidColumn(col) && Agrees(col, m)
    ensures Agrees(col, Remember(m, changesOnly))
  {
    hide Wins;
    var m' := Remember(m, changesOnly);
    forall channel | 0 <= channel < UNIVERSE_SIZE
      ensures ChannelAgrees(col, m', channel)
    {
      assert ChannelAgrees(col, m, channel);
      var c :| c in col && Wins(col, channel, c) && m.dmx[channel] == col[c].dmx[channel] && m.Effective(channel) == col[c].Effective(channel);
      assert Wins(col, channel, c) && m'.dmx[channel] == col[c].dmx[channel] && m'.Effective(channel) == col[c].Effective(channel);
    }
  }

  /** After a refresh every universe is in sync, whatever stale entries there
      were before. */
  lemma RefreshSynchronises(e: Engine, changesOnly: bool)
    requires CacheInv(e)
    ensures CacheInv(Refresh(e, changesOnly)) && forall u :: InSync(Refresh(e, changesOnly), u)
  {
    hide Agrees, Refreshed;
    var e' := Refresh(e, changesOnly);
    forall u
      ensures u in e'.merged ==> e'.merged[u].Valid()
      ensures (u in e'.merged <==> ColumnOf(e.sources, u) != map[]) && (u in e'.merged ==> Agrees(ColumnOf(e.sources, u), e'.merged[u]))
    {
      if u in e.dirty {
        RefreshedAgrees(e, u);
        if u in e'.merged {
          AgreesIgnoresPrevious(ColumnOf(e.sources, u), Refreshed(e, u).cached.value, changesOnly);
        }
      } else {
        assert InSync(e, u);
      }
    }
  }

  // ---------------------------------------------------------------- every run

  datatype Event =
    | Data(cid: int, universe: int, ip: int, priority: byte, startCode: byte, slots: seq<byte>)
    | Lost(cid: int, universe: int)
    | Expired(cid: int, universe: int)
    | Receive(changesOnly: bool)
  {
    predicate Handled() { Data? ==> startCode in {STARTCODE_DMX, STARTCODE_PRIORITY} }
  }

  function Step(e: Engine, event: Event): Engine
    requires ValidEngine(e)
  {
    match event
    case Data(cid, u, ip, priority, code, slots) => OnData(e, cid, u, ip, priority, code, slots)
    case Lost(cid, u) => OnSourceLost(e, cid, u)
    case Expired(cid, u) => OnPriorityExpired(e, cid, u)
    case Receive(changesOnly) => Refresh(e, changesOnly)
  }

  lemma StepIsValid(e: Engine, event: Event)
    requires ValidEngine(e)
    ensures ValidEngine(Step(e, event))
  {
    hide Refreshed, CopySlots;
    match event {
      case Data(cid, u, ip, priority, code, slots) =>
        var x := Stored(e, cid, u);
        ColumnsAfterStore(e, cid, u, x);
        ColumnsAfterStore(e, cid, u, x.(priority := priority, ip := ip, dmx := CopySlots(x.dmx, slots)));
        ColumnsAfterStore(e, cid, u, x.(hasPerChannelPriority := true, ip := ip, channelPriority := CopySlots(x.channelPriority, slots)));
      case Lost(cid, u) =>
        ColumnsAfterLoss(e, cid, u);
      case Expired(cid, u) =>
        if cid in e.sources && u in e.sources[cid] {
          ColumnsAfterStore(e, cid, u, e.sources[cid][u].(hasPerChannelPriority := false));
        }
      case Receive(changesOnly) =>
        forall u | u in e.dirty && Refreshed(e, u).active ensures Refreshed(e, u).cached.value.Valid() {
          RefreshedAgrees(e, u);
        }
    }
  }

  ghost function Run(events: seq<Event>): (e: Engine)
    ensures ValidEngine(e)
    decreases |events|
  {
    if events == [] then Engine(map[], map[], {})
    else
      var k := |events| - 1;
      var before := Run(events[..k]);
      StepIsValid(before, events[k]);
      Step(before, events[k])
  }

  lemma StepKeepsInv(e: Engine, event: Event)
    requires CacheInv(e) && event.Handled()
    ensures CacheInv(Step(e, event))
  {
    hide CacheInv, Refresh, OnData, OnSourceLost, OnPriorityExpired;
    match event {
      case Data(cid, u, ip, priority, code, slots) => EventsKeepInv(e, cid, u, ip, priority, code, slots);
      case Lost(cid, u) => EventsKeepInv(e, cid, u, 0, 0, 0, []);
      case Expired(cid, u) => EventsKeepInv(e, cid, u, 0, 0, 0, []);
      case Receive(changesOnly) => RefreshSynchronises(e, changesOnly);
    }
  }

  lemma {:induction false} RunKeepsInv(events: seq<Event>)
    requires forall i :: 0 <= i < |events| ==> events[i].Handled()
    ensures CacheInv(Run(events))
    decreases |events|
  {
    hide CacheInv, Step;
    if events == [] {
      NothingCached();
    } else {
      var k := |events| - 1;
      RunKeepsInv(events[..k]);
      StepKeepsInv(Run(events[..k]), events[k]);
    }
  }

  lemma NothingCached()
    ensures CacheInv(Engine(map[], map[], {}))
  {
  }

  /** Over every run: a universe that is not marked dirty is cached exactly when
      a source carries it, and then the first source in CID order with the
      greatest effective priority has every channel. */
  lemma {:induction false} EveryRun(events: seq<Event>, u: int)
    requires forall i :: 0 <= i < |events| ==> events[i].Handled()
    requires u !in Run(events).dirty
    ensures var e := Run(events); var col := ColumnOf(e.sources, u);
            && (u in e.merged <==> col != map[])
            && (u in e.merged ==> Agrees(col, e.merged[u]))
  {
    hide Run, Agrees;
    RunKeepsInv(events);
    assert InSync(Run(events), u);
  }
}

/** sACN arbitration: the universes of all sources are merged channel by channel
    into a cache that is refreshed lazily, for dirty universes only. */
module SacnMerge {
  import opened Basics

  const UNIVERSE_SIZE := 512
  const STARTCODE_DMX := 0x00
  const STARTCODE_PRIORITY := 0xDD

  /** `prevDMX` is `None` while `hasPrevDMX` is false. */
  datatype Universe = Universe(priority: byte, ip: int, hasPerChannelPriority: bool,
                               dmx: seq<byte>, channelPriority: seq<byte>, prevDMX: Option<seq<byte>>) {
    predicate Valid() { |dmx| == UNIVERSE_SIZE && |channelPriority| == UNIVERSE_SIZE }

    /** The priority that counts for a channel. */
    function Effective(channel: nat): byte
      requires Valid() && channel < UNIVERSE_SIZE
    {
      if hasPerChannelPriority then channelPriority[channel] else priority
    }
  }

  function Zeros(): (z: seq<byte>)
    ensures |z| == UNIVERSE_SIZE
  {
    seq(UNIVERSE_SIZE, _ => 0)
  }

  function NewUniverse(): (u: Universe)
    ensures u.Valid()
  {
    Universe(0, 0, false, Zeros(), Zeros(), None)
  }

  // ------------------------------------------------ what a merge has to be

  /** One universe as its sources send it, by CID. */
  type Column = map<int, Universe>

  predicate ValidColumn(col: Column) {
    forall c :: c in col ==> col[c].Valid()
  }

  /** The first source in CID order with the greatest effective priority. */
  predicate Wins(col: Column, channel: nat, c: int)
    requires ValidColumn(col) && channel < UNIVERSE_SIZE
  {
    c in col && forall d :: d in col ==>
                  && col[d].Effective(channel) <= col[c].Effective(channel)
                  && (d < c ==> col[d].Effective(channel) < col[c].Effective(channel))
  }

  predicate WinsSome(col: Column, c: int)
    requires ValidColumn(col)
  {
    exists channel :: 0 <= channel < UNIVERSE_SIZE && Wins(col, channel, c)
  }

  /** The last source in CID order that wins a channel. */
  ghost predicate LastWinner(col: Column, c: int)
    requires ValidColumn(col)
  {
    c in col && WinsSome(col, c) && forall d :: WinsSome(col, d) ==> d <= c
  }

  ghost predicate ChannelAgrees(col: Column, m: Universe, channel: nat)
    requires ValidColumn(col) && m.Valid() && channel < UNIVERSE_SIZE
  {
    exists c :: c in col && Wins(col, channel, c) && m.dmx[channel] == col[c].dmx[channel] && m.Effective(channel) == col[c].Effective(channel)
  }

  ghost predicate IpAgrees(col: Column, m: Universe)
    requires ValidColumn(col)
  {
    exists c :: LastWinner(col, c) && m.ip == col[c].ip
  }

  /** `m` carries the arbitration of all the sources of `col`. */
  ghost predicate Agrees(col: Column, m: Universe)
    requires ValidColumn(col)
  {
    && m.Valid()
    && (forall channel :: 0 <= channel < UNIVERSE_SIZE ==> ChannelAgrees(col, m, channel))
    && IpAgrees(col, m)
    && (m.hasPerChannelPriority <==> exists c :: c in col && col[c].hasPerChannelPriority)
  }

  /** There is one winner for a channel, so levels, priorities and ip are
      determined by the sources: two merges of the same sources agree. */
  lemma AgreesDetermines(col: Column, m: Universe, m': Universe)
    requires ValidColumn(col) && Agrees(col, m) && Agrees(col, m')
    ensures m.dmx == m'.dmx && m.ip == m'.ip && m.hasPerChannelPriority == m'.hasPerChannelPriority
    ensures forall channel :: 0 <= channel < UNIVERSE_SIZE ==> m.Effective(channel) == m'.Effective(channel)
  {
    forall channel | 0 <= channel < UNIVERSE_SIZE
      ensures m.dmx[channel] == m'.dmx[channel] && m.Effective(channel) == m'.Effective(channel)
    {
      assert ChannelAgrees(col, m, channel) && ChannelAgrees(col, m', channel);
    }
  }

  // ----------------------------------------------------- the incremental merge

  /** The first instance of a universe replaces what the cache held, except for
      the priorities that the kind of universe does not use. */
  function First(stale: Universe, x: Universe): (m: Universe)
    requires stale.Valid() && x.Valid()
    ensures m.Valid()
  {
    var m := stale.(ip := x.ip, dmx := x.dmx, hasPerChannelPriority := x.hasPerChannelPriority);
    if x.hasPerChannelPriority then m.(channelPriority := x.channelPriority) else m.(priority := x.priority)
  }

  /** The four cases for a further source. */
  function MergeIn(m: Universe, x: Universe): (r: Universe)
    requires m.Valid() && x.Valid()
    ensures r.Valid()
  {
    if !x.hasPerChannelPriority && !m.hasPerChannelPriority then
      if x.priority > m.priority then m.(dmx := x.dmx, priority := x.priority, ip := x.ip) else m
    else
      m.(hasPerChannelPriority := true,
         dmx := seq(UNIVERSE_SIZE, i requires 0 <= i < UNIVERSE_SIZE => if Takes(m, x, i) then x.dmx[i] else m.dmx[i]),
         channelPriority := seq(UNIVERSE_SIZE, i requires 0 <= i < UNIVERSE_SIZE =>
                                  if Takes(m, x, i) then x.Effective(i) else m.Effective(i)),
         ip := if exists i :: 0 <= i < UNIVERSE_SIZE && Takes(m, x, i) then x.ip else m.ip)
  }

  predicate Takes(m: Universe, x: Universe, channel: nat)
    requires m.Valid() && x.Valid() && channel < UNIVERSE_SIZE
  {
    x.Effective(channel) > m.Effective(channel)
  }

  lemma FirstAgrees(stale: Universe, x: Universe, c: int)
    requires stale.Valid() && x.Valid()
    ensures Agrees(map[c := x], First(stale, x))
  {
    var col, m := map[c := x], First(stale, x);
    forall channel | 0 <= channel < UNIVERSE_SIZE
      ensures ChannelAgrees(col, m, channel)
    {
      assert Wins(col, channel, c);
    }
    assert Wins(col, 0, c);
    assert LastWinner(col, c);
  }

  /** Channel by channel the incremental step computes the greater priority, the
      earlier source winning ties. */
  lemma MergeChannel(m: Universe, x: Universe, i: nat)
    requires m.Valid() && x.Valid() && i < UNIVERSE_SIZE
    ensures var r := MergeIn(m, x);
            && r.dmx[i] == (if Takes(m, x, i) then x.dmx[i] else m.dmx[i])
            && r.Effective(i) == (if Takes(m, x, i) then x.Effective(i) else m.Effective(i))
            && r.hasPerChannelPriority == (m.hasPerChannelPriority || x.hasPerChannelPriority)
            && (Takes(m, x, i) ==> r.ip == x.ip)
  {
  }

  lemma MergeIp(m: Universe, x: Universe)
    requires m.Valid() && x.Valid() && forall i :: 0 <= i < UNIVERSE_SIZE ==> !Takes(m, x, i)
    ensures MergeIn(m, x).ip == m.ip
  {
    assert !Takes(m, x, 0);
  }

  /** The winners after source `c` joined: it takes the channels on which its
      priority is greater than the merged one, the others keep the rest. */
  predicate Shifts(col: Column, c: int, x: Universe, m: Universe, channel: nat, d: int)
    requires ValidColumn(col) && x.Valid() && m.Valid() && channel < UNIVERSE_SIZE
  {
    Wins(col[c := x], channel, d) <==>
    if d == c then Takes(m, x, channel) else Wins(col, channel, d) && !Takes(m, x, channel)
  }

  lemma WinsAfter(col: Column, c: int, x: Universe, m: Universe, channel: nat)
    requires ValidColumn(col) && x.Valid() && (forall d :: d in col ==> d < c) && channel < UNIVERSE_SIZE
    requires m.Valid() && ChannelAgrees(col, m, channel)
    ensures ChannelAgrees(col[c := x], MergeIn(m, x), channel)
    ensures forall d :: Shifts(col, c, x, m, channel, d)
  {
    hide MergeIn;
    MergeChannel(m, x, channel);
    var w :| w in col && Wins(col, channel, w) && m.dmx[channel] == col[w].dmx[channel] && m.Effective(channel) == col[w].Effective(channel);
    var col' := col[c := x];
    if Takes(m, x, channel) {
      assert Wins(col', channel, c);
    } else {
      assert w != c && col'[w] == col[w] && x.Effective(channel) <= col[w].Effective(channel);
      assert Wins(col', channel, w);
    }
  }

  lemma IpTaken(col: Column, c: int, x: Universe, m: Universe, i: nat)
    requires ValidColumn(col) && x.Valid() && m.Valid() && (forall d :: d in col ==> d < c)
    requires i < UNIVERSE_SIZE && Takes(m, x, i) && Shifts(col, c, x, m, i, c)
    ensures IpAgrees(col[c := x], MergeIn(m, x))
  {
    hide MergeIn;
    MergeChannel(m, x, i);
    assert Wins(col[c := x], i, c);
    assert LastWinner(col[c := x], c);
  }

  lemma IpKept(col: Column, c: int, x: Universe, m: Universe)
    requires ValidColumn(col) && x.Valid() && m.Valid() && (forall d :: d in col ==> d < c)
    requires forall i :: 0 <= i < UNIVERSE_SIZE ==> !Takes(m, x, i)
    requires forall i, d :: 0 <= i < UNIVERSE_SIZE ==> Shifts(col, c, x, m, i, d)
    requires IpAgrees(col, m)
    ensures IpAgrees(col[c := x], MergeIn(m, x))
  {
    hide MergeIn, Takes, Wins;
    var col' := col[c := x];
    MergeIp(m, x);
    var w :| LastWinner(col, w) && m.ip == col[w].ip;
    forall d
      ensures WinsSome(col', d) <==> d != c && WinsSome(col, d)
    {
      if i :| 0 <= i < UNIVERSE_SIZE && Wins(col', i, d) {
        assert Shifts(col, c, x, m, i, d);
      }
      if i :| d != c && 0 <= i < UNIVERSE_SIZE && Wins(col, i, d) {
        assert Shifts(col, c, x, m, i, d);
        assert Wins(col', i, d);
      }
    }
    assert LastWinner(col', w);
  }

  /** Adding the next source in CID order. */
  lemma MergeAgrees(col: Column, c: int, x: Universe, m: Universe)
    requires ValidColumn(col) && x.Valid() && (forall d :: d in col ==> d < c)
    requires Agrees(col, m)
    ensures Agrees(col[c := x], MergeIn(m, x))
  {
    hide MergeIn, Takes, Wins, IpAgrees, Shifts;
    var col', r := col[c := x], MergeIn(m, x);
    forall channel | 0 <= channel < UNIVERSE_SIZE
      ensures ChannelAgrees(col', r, channel)
    {
      WinsAfter(col, c, x, m, channel);
    }
    forall channel, d | 0 <= channel < UNIVERSE_SIZE
      ensures Shifts(col, c, x, m, channel, d)
    {
      WinsAfter(col, c, x, m, channel);
    }
    MergeChannel(m, x, 0);
    if i :| 0 <= i < UNIVERSE_SIZE && Takes(m, x, i) {
      IpTaken(col, c, x, m, i);
    } else {
      IpKept(col, c, x, m);
    }
    assert c in col' && col'[c] == x;
    assert forall e :: e in col ==> e in col' && col'[e] == col[e];
  }

  // --------------------------------------------------------- the shared state

  /** Universes by source; a CID is identified with its place in the order. */
  type Sources = map<int, map<int, Universe>>

  datatype Engine = Engine(sources: Sources, merged: map<int, Universe>, dirty: set<int>)

  predicate ValidSources(sources: Sources) {
    forall c, u :: c in sources && u in sources[c] ==> sources[c][u].Valid()
  }

  predicate ValidEngine(e: Engine) {
    ValidSources(e.sources) && forall u :: u in e.merged ==> e.merged[u].Valid()
  }

  function ColumnOf(sources: Sources, u: int): (col: Column)
    requires ValidSources(sources)
    ensures ValidColumn(col)
  {
    map c | c in sources && u in sources[c] :: sources[c][u]
  }

  /** What the cache holds for a universe is what its sources send now. */
  ghost predicate InSync(e: Engine, u: int)
    requires ValidEngine(e)
  {
    var col := ColumnOf(e.sources, u);
    && (u in e.merged <==> col != map[])
    && (u in e.merged ==> Agrees(col, e.merged[u]))
  }

  /** Every universe that is not marked dirty is in sync. */
  ghost predicate CacheInv(e: Engine) {
    ValidEngine(e) && forall u :: u !in e.dirty ==> InSync(e, u)
  }

  // ------------------------------------------------------------ network events

  function Store(e: Engine, cid: int, u: int, x: Universe): Engine {
    var universes := if cid in e.sources then e.sources[cid] else map[];
    e.(sources := e.sources[cid := universes[u := x]], dirty := e.dirty + {u})
  }

  function Stored(e: Engine, cid: int, u: int): (x: Universe)
    requires ValidEngine(e)
    ensures x.Valid()
  {
    if cid in e.sources && u in e.sources[cid] then e.sources[cid][u] else NewUniverse()
  }

  /** `memcpy` of at most 512 slots over the front of a buffer; nothing when the
      packet carries none. */
  function CopySlots(buffer: seq<byte>, slots: seq<byte>): (r: seq<byte>)
    requires |buffer| == UNIVERSE_SIZE
    ensures |r| == UNIVERSE_SIZE
  {
    var n := if |slots| < UNIVERSE_SIZE then |slots| else UNIVERSE_SIZE;
    slots[..n] + buffer[n..]
  }

  /** `UniverseData`. Other start codes leave the universe as it was, but make
      sure that the source has it. */
  function OnData(e: Engine, cid: int, u: int, ip: int, priority: byte, startCode: byte, slots: seq<byte>): Engine
    requires ValidEngine(e)
  {
    var x := Stored(e, cid, u);
    if startCode == STARTCODE_DMX then
      Store(e, cid, u, x.(priority := priority, ip := ip, dmx := CopySlots(x.dmx, slots)))
    else if startCode == STARTCODE_PRIORITY then
      Store(e, cid, u, x.(hasPerChannelPriority := true, ip := ip, channelPriority := CopySlots(x.channelPriority, slots)))
    else
      Store(e, cid, u, x).(dirty := e.dirty)
  }

  /** `SourceDisappeared`. */
  function OnSourceLost(e: Engine, cid: int, u: int): Engine {
    if cid !in e.sources || u !in e.sources[cid] then e
    else
      var rest := e.sources[cid] - {u};
      e.(sources := if rest == map[] then e.sources - {cid} else e.sources[cid := rest], dirty := e.dirty + {u})
  }

  /** `SourcePCPExpired`. */
  function OnPriorityExpired(e: Engine, cid: int, u: int): Engine {
    if cid !in e.sources || u !in e.sources[cid] || !e.sources[cid][u].hasPerChannelPriority then e
    else Store(e, cid, u, e.sources[cid][u].(hasPerChannelPriority := false))
  }

  lemma ColumnsAfterStore(e: Engine, cid: int, u: int, x: Universe)
    requires ValidEngine(e) && x.Valid()
    ensures ValidEngine(Store(e, cid, u, x))
    ensures ColumnOf(Store(e, cid, u, x).sources, u) == ColumnOf(e.sources, u)[cid := x]
    ensures forall v :: v != u ==> ColumnOf(Store(e, cid, u, x).sources, v) == ColumnOf(e.sources, v)
  {
    var e' := Store(e, cid, u, x);
    assert forall c, v :: c in e'.sources && v in e'.sources[c] && (c != cid || v != u) ==> c in e.sources && v in e.sources[c] && e'.sources[c][v] == e.sources[c][v];
  }

  lemma ColumnsAfterLoss(e: Engine, cid: int, u: int)
    requires ValidEngine(e)
    ensures ValidEngine(OnSourceLost(e, cid, u))
    ensures ColumnOf(OnSourceLost(e, cid, u).sources, u) == ColumnOf(e.sources, u) - {cid}
    ensures forall v :: v != u ==> ColumnOf(OnSourceLost(e, cid, u).sources, v) == ColumnOf(e.sources, v)
  {
    hide ColumnOf;
    var e' := OnSourceLost(e, cid, u);
    assert forall c, v :: c in e'.sources && v in e'.sources[c] ==> c in e.sources && v in e.sources[c] && e'.sources[c][v] == e.sources[c][v];
    forall v | v != u
      ensures ColumnOf(e'.sources, v) == ColumnOf(e.sources, v)
    {
      ColumnBesideLoss(e, cid, u, v);
    }
    ColumnOfLoss(e, cid, u);
  }

  lemma ColumnOfLoss(e: Engine, cid: int, u: int)
    requires ValidEngine(e) && ValidEngine(OnSourceLost(e, cid, u))
    ensures ColumnOf(OnSourceLost(e, cid, u).sources, u) == ColumnOf(e.sources, u) - {cid}
  {
    var e' := OnSourceLost(e, cid, u);
    var (col, col') := (ColumnOf(e.sources, u), ColumnOf(e'.sources, u));
    forall c
      ensures c in col' <==> c in col && c != cid
      ensures c in col' ==> col'[c] == col[c]
    {
      assert c != cid ==> (c in e'.sources <==> c in e.sources);
    }
  }

  lemma ColumnBesideLoss(e: Engine, cid: int, u: int, v: int)
    requires ValidEngine(e) && ValidEngine(OnSourceLost(e, cid, u)) && v != u
    ensures ColumnOf(OnSourceLost(e, cid, u).sources, v) == ColumnOf(e.sources, v)
  {
    if cid in e.sources && u in e.sources[cid] && cid in ColumnOf(e.sources, v) {
      assert v in e.sources[cid] - {u};
    }
  }

  /** No event makes a universe that is not marked dirty go out of sync, as long
      as its start code is one of the two that carry levels or priorities. */
  lemma EventsKeepInv(e: Engine, cid: int, u: int, ip: int, priority: byte, startCode: byte, slots: seq<byte>)
    requires CacheInv(e)
    ensures startCode in {STARTCODE_DMX, STARTCODE_PRIORITY} ==> CacheInv(OnData(e, cid, u, ip, priority, startCode, slots))
    ensures CacheInv(OnSourceLost(e, cid, u))
    ensures CacheInv(OnPriorityExpired(e, cid, u))
  {
    hide Agrees;
    var x := Stored(e, cid, u);
    ColumnsAfterStore(e, cid, u, x.(priority := priority, ip := ip, dmx := CopySlots(x.dmx, slots)));
    ColumnsAfterStore(e, cid, u, x.(hasPerChannelPriority := true, ip := ip, channelPriority := CopySlots(x.channelPriority, slots)));
    ColumnsAfterStore(e, cid, u, x.(hasPerChannelPriority := false));
    ColumnsAfterLoss(e, cid, u);
  }

  // ------------------------------------------------------- other start codes

  predicate Idle(m: Universe, channel: nat)
    requires m.Valid() && channel < UNIVERSE_SIZE
  {
    m.Effective(channel) == 0
  }

  predicate WinsBusy(col: Column, m: Universe, c: int)
    requires ValidColumn(col) && m.Valid()
  {
    exists channel :: 0 <= channel < UNIVERSE_SIZE && !Idle(m, channel) && Wins(col, channel, c)
  }

  /** The last source in CID order that wins a channel of priority above 0. */
  ghost predicate LastBusyWinner(col: Column, m: Universe, c: int)
    requires ValidColumn(col) && m.Valid()
  {
    c in col && WinsBusy(col, m, c) && forall d :: WinsBusy(col, m, d) ==> d <= c
  }

  predicate AllIdle(m: Universe)
    requires m.Valid()
  {
    forall channel :: 0 <= channel < UNIVERSE_SIZE ==> Idle(m, channel)
  }

  /** A further source without levels and priority makes no difference to what
      is cached: a source before it has every channel that it could win, or the
      channels that it wins are at 0 and the ip is that of the last other winner. */
  ghost predicate Harmless(col: Column, m: Universe, cid: int)
    requires ValidColumn(col) && m.Valid()
  {
    || (exists c :: c in col && c < cid)
    || ((forall channel :: 0 <= channel < UNIVERSE_SIZE && Idle(m, channel) ==> m.dmx[channel] == 0)
        && if AllIdle(m) then m.ip == 0 else exists c :: LastBusyWinner(col, m, c) && m.ip == col[c].ip)
  }

  /** Who wins once the silent source is there. */
  lemma WinsBesideSilent(col: Column, m: Universe, cid: int, channel: nat, d: int)
    requires ValidColumn(col) && cid !in col && m.Valid() && channel < UNIVERSE_SIZE && ChannelAgrees(col, m, channel)
    ensures var col' := col[cid := NewUniverse()];
            var first := !exists c :: c in col && c < cid;
            Wins(col', channel, d) <==> if first && Idle(m, channel) then d == cid else Wins(col, channel, d)
  {
    var col' := col[cid := NewUniverse()];
    var w :| w in col && Wins(col, channel, w) && m.dmx[channel] == col[w].dmx[channel] && m.Effective(channel) == col[w].Effective(channel);
    assert col'[cid].Effective(channel) == 0;
    assert forall c :: c in col ==> c in col' && col'[c] == col[c];
    if !exists c :: c in col && c < cid {
      if Idle(m, channel) {
        assert Wins(col', channel, cid);
      } else {
        assert Wins(col', channel, w);
      }
    } else {
      var c :| c in col && c < cid;
      assert w <= c || col[w].Effective(channel) > col[c].Effective(channel);
      assert Wins(col', channel, w);
    }
  }

  lemma ChannelBesideSilent(col: Column, m: Universe, cid: int, channel: nat)
    requires ValidColumn(col) && cid !in col && m.Valid() && channel < UNIVERSE_SIZE && ChannelAgrees(col, m, channel)
    ensures ChannelAgrees(col[cid := NewUniverse()], m, channel) <==>
            (exists c :: c in col && c < cid) || !Idle(m, channel) || m.dmx[channel] == 0
  {
    hide Wins;
    var col' := col[cid := NewUniverse()];
    var w :| w in col && Wins(col, channel, w) && m.dmx[channel] == col[w].dmx[channel] && m.Effective(channel) == col[w].Effective(channel);
    WinsBesideSilent(col, m, cid, channel, w);
    WinsBesideSilent(col, m, cid, channel, cid);
    if ChannelAgrees(col', m, channel) && Idle(m, channel) && !exists c :: c in col && c < cid {
      var d :| d in col' && Wins(col', channel, d) && m.dmx[channel] == col'[d].dmx[channel] && m.Effective(channel) == col'[d].Effective(channel);
      WinsBesideSilent(col, m, cid, channel, d);
    }
  }

  lemma WinnersBesideSilent(col: Column, m: Universe, cid: int, d: int)
    requires ValidColumn(col) && cid !in col && m.Valid()
    requires forall channel :: 0 <= channel < UNIVERSE_SIZE ==> ChannelAgrees(col, m, channel)
    ensures var first := !exists c :: c in col && c < cid;
            WinsSome(col[cid := NewUniverse()], d) <==>
            if !first then WinsSome(col, d) else WinsBusy(col, m, d) || (d == cid && exists i :: 0 <= i < UNIVERSE_SIZE && Idle(m, i))
  {
    hide Wins, ChannelAgrees, Idle;
    var col' := col[cid := NewUniverse()];
    if i :| 0 <= i < UNIVERSE_SIZE && Wins(col', i, d) {
      WinsBesideSilent(col, m, cid, i, d);
    }
    if i :| 0 <= i < UNIVERSE_SIZE && Wins(col, i, d) && ((exists c :: c in col && c < cid) || !Idle(m, i)) {
      WinsBesideSilent(col, m, cid, i, d);
    }
    if i :| 0 <= i < UNIVERSE_SIZE && Idle(m, i) && d == cid && !exists c :: c in col && c < cid {
      WinsBesideSilent(col, m, cid, i, d);
    }
  }

  lemma IpBesideSilent(col: Column, m: Universe, cid: int)
    requires ValidColumn(col) && cid !in col && col != map[] && m.Valid() && IpAgrees(col, m)
    requires forall channel :: 0 <= channel < UNIVERSE_SIZE ==> ChannelAgrees(col, m, channel)
    ensures IpAgrees(col[cid := NewUniverse()], m) <==>
            || (exists c :: c in col && c < cid)
            || (if AllIdle(m) then m.ip == 0 else exists c :: LastBusyWinner(col, m, c) && m.ip == col[c].ip)
  {
    hide WinsSome, WinsBusy, ChannelAgrees;
    var col' := col[cid := NewUniverse()];
    assert forall c :: c in col ==> c in col' && col'[c] == col[c];
    forall d
      ensures WinsSome(col', d) <==>
              if exists c :: c in col && c < cid then WinsSome(col, d) else WinsBusy(col, m, d) || (d == cid && exists i :: 0 <= i < UNIVERSE_SIZE && Idle(m, i))
    {
      WinnersBesideSilent(col, m, cid, d);
    }
    forall d | WinsSome(col, d) || WinsBusy(col, m, d) ensures d in col { WinnersCarry(col, m, d); }
    if exists c :: c in col && c < cid {
      var w :| LastWinner(col, w) && m.ip == col[w].ip;
      assert LastWinner(col', w);
    } else if AllIdle(m) {
      assert Idle(m, 0);
      forall d ensures !WinsBusy(col, m, d) { NobodyBusy(col, m, d); }
      assert LastWinner(col', cid);
    } else {
      forall d ensures LastWinner(col', d) <==> LastBusyWinner(col, m, d) { LastBesideSilent(col, m, cid, d); }
    }
  }

  lemma WinnersCarry(col: Column, m: Universe, d: int)
    requires ValidColumn(col) && m.Valid()
    ensures WinsSome(col, d) || WinsBusy(col, m, d) ==> d in col
  {
  }

  lemma NobodyBusy(col: Column, m: Universe, d: int)
    requires ValidColumn(col) && m.Valid() && AllIdle(m)
    ensures !WinsBusy(col, m, d)
  {
  }

  lemma SomebodyBusy(col: Column, m: Universe) returns (w: int)
    requires ValidColumn(col) && m.Valid() && !AllIdle(m)
    requires forall channel :: 0 <= channel < UNIVERSE_SIZE ==> ChannelAgrees(col, m, channel)
    ensures WinsBusy(col, m, w) && w in col
  {
    var i :| 0 <= i < UNIVERSE_SIZE && !Idle(m, i);
    assert ChannelAgrees(col, m, i);
    w :| w in col && Wins(col, i, w);
  }

  lemma LastBesideSilent(col: Column, m: Universe, cid: int, d: int)
    requires ValidColumn(col) && cid !in col && m.Valid() && !AllIdle(m) && !exists c :: c in col && c < cid
    requires forall channel :: 0 <= channel < UNIVERSE_SIZE ==> ChannelAgrees(col, m, channel)
    requires forall e :: WinsSome(col[cid := NewUniverse()], e) <==>
                           WinsBusy(col, m, e) || (e == cid && exists i :: 0 <= i < UNIVERSE_SIZE && Idle(m, i))
    ensures LastWinner(col[cid := NewUniverse()], d) <==> LastBusyWinner(col, m, d)
  {
    hide WinsSome, WinsBusy, ChannelAgrees, AllIdle;
    var w := SomebodyBusy(col, m);
    assert w > cid;
    var col' := col[cid := NewUniverse()];
    forall e | WinsBusy(col, m, e) ensures e in col && WinsSome(col', e) { WinnersCarry(col, m, e); }
    if LastWinner(col', d) {
      assert w <= d;
      assert WinsBusy(col, m, d);
    }
    if LastBusyWinner(col, m, d) {
      assert w <= d;
      forall e | WinsSome(col', e) ensures e <= d { assert e == cid || WinsBusy(col, m, e); }
    }
  }

  lemma SilentSourceIff(col: Column, m: Universe, cid: int)
    requires ValidColumn(col) && cid !in col && col != map[] && Agrees(col, m)
    ensures Agrees(col[cid := NewUniverse()], m) <==> Harmless(col, m, cid)
  {
    hide Wins, ChannelAgrees, IpAgrees, LastBusyWinner;
    var col' := col[cid := NewUniverse()];
    forall channel | 0 <= channel < UNIVERSE_SIZE
      ensures ChannelAgrees(col', m, channel) <==> (exists c :: c in col && c < cid) || !Idle(m, channel) || m.dmx[channel] == 0
    {
      assert ChannelAgrees(col, m, channel);
      ChannelBesideSilent(col, m, cid, channel);
    }
    IpBesideSilent(col, m, cid);
    assert (exists c :: c in col' && col'[c].hasPerChannelPriority) <==> exists c :: c in col && col[c].hasPerChannelPriority by {
      assert forall c :: c in col ==> c in col' && col'[c] == col[c];
    }
  }

  /** A packet with another start code keeps the cache invariant exactly when the
      universe is dirty, or its source had the universe already, or other sources
      have it and a silent one beside them is harmless. */
  lemma OtherStartCodesIff(e: Engine, cid: int, u: int, ip: int, priority: byte, startCode: byte, slots: seq<byte>)
    requires CacheInv(e) && startCode !in {STARTCODE_DMX, STARTCODE_PRIORITY}
    ensures var col := ColumnOf(e.sources, u);
            CacheInv(OnData(e, cid, u, ip, priority, startCode, slots)) <==>
            u in e.dirty || cid in col || (col != map[] && u in e.merged && Harmless(col, e.merged[u], cid))
  {
    hide Agrees, Harmless;
    var x := Stored(e, cid, u);
    ColumnsAfterStore(e, cid, u, x);
    var e' := OnData(e, cid, u, ip, priority, startCode, slots);
    var col, col' := ColumnOf(e.sources, u), ColumnOf(e'.sources, u);
    assert ValidEngine(e') && (forall v :: v != u && v !in e.dirty ==> (InSync(e', v) <==> InSync(e, v)));
    assert CacheInv(e') <==> u in e.dirty || InSync(e', u);
    if u !in e.dirty {
      assert InSync(e, u) && cid in col';
      if cid in col {
        assert col' == col;
      } else {
        assert x == NewUniverse();
        if col != map[] { SilentSourceIff(col, e.merged[u], cid); }
      }
    }
  }

  /** Level 255 on all channels at priority 0. */
  function Loud(): (u: Universe)
    ensures u.Valid()
  {
    NewUniverse().(dmx := seq(UNIVERSE_SIZE, _ => 255), ip := 7)
  }

  function OneLoud(): Engine { Engine(map[5 := map[1 := Loud()]], map[1 := Loud()], {}) }

  lemma OneLoudInSync()
    ensures CacheInv(OneLoud()) && ColumnOf(OneLoud().sources, 1) == map[5 := Loud()]
  {
    hide Agrees;
    FirstAgrees(NewUniverse(), Loud(), 5);
    assert First(NewUniverse(), Loud()) == Loud();
    assert ColumnOf(OneLoud().sources, 1) == map[5 := Loud()];
    assert 5 in ColumnOf(OneLoud().sources, 1);
    assert InSync(OneLoud(), 1);
    forall u | u != 1 ensures InSync(OneLoud(), u) {
      assert ColumnOf(OneLoud().sources, u) == map[];
    }
  }

  /** No universe appears, and still the cache goes out of sync when the source
      comes first in CID order; when it comes later, nothing happens. */
  lemma OtherStartCodeBreaks()
    ensures CacheInv(OneLoud())
    ensures !CacheInv(OnData(OneLoud(), 3, 1, 9, 0, 1, [])) && CacheInv(OnData(OneLoud(), 8, 1, 9, 0, 1, []))
  {
    hide CacheInv, OnData, LastBusyWinner, AllIdle;
    OneLoudInSync();
    OtherStartCodesIff(OneLoud(), 3, 1, 9, 0, 1, []);
    OtherStartCodesIff(OneLoud(), 8, 1, 9, 0, 1, []);
    assert Idle(Loud(), 0) && Loud().dmx[0] == 255;
    assert 5 in ColumnOf(OneLoud().sources, 1);
  }
}

/** An OTP producer remembers which consumers have advertised which module types
    and keeps the union of their interests in `mods`, recomputed only when an
    advert or an expiry may have changed it. It sends of its points what somebody
    has asked for. A consumer is named by the place of its CID in CID order. */
module OtpProducer {
  import opened Basics
  import opened OtpText
  import opened OtpWire
  import opened OtpMessage
  import OtpWriter
  import OrderedKeys

  const ADVERT_DATA_LOSS_TIMEOUT := 30000
  const TRANSFORM_RATE := 3000

  datatype Endpoint = Endpoint(name: Text, addr: int, types: set<int>, timepoint: int)
  type Endpoints = map<int, Endpoint>

  predicate Expired(e: Endpoint, now: int) { now - e.timepoint > ADVERT_DATA_LOSS_TIMEOUT }

  // ------------------------------------------------------------ interest cache

  datatype Interest = Interest(consumers: Endpoints, mods: set<int>)

  predicate Asked(consumers: Endpoints, t: int) {
    exists c :: c in consumers && t in consumers[c].types
  }

  /** The module types that some held consumer has asked for. */
  predicate Agrees(s: Interest) {
    && (forall c, t :: c in s.consumers && t in s.consumers[c].types ==> t in s.mods)
    && (forall t :: t in s.mods ==> Asked(s.consumers, t))
  }

  function Union(consumers: Endpoints): (mods: set<int>)
    ensures Agrees(Interest(consumers, mods))
  {
    set c, t | c in consumers && t in consumers[c].types :: t
  }

  lemma UnionIsOnly(s: Interest)
    requires Agrees(s)
    ensures s.mods == Union(s.consumers)
  {
    forall t ensures t in s.mods <==> t in Union(s.consumers) {
      if t in s.mods { assert Asked(s.consumers, t); }
      if t in Union(s.consumers) { assert Asked(s.consumers, t); }
    }
  }

  /** A module advert, with the test that decides whether to recompute. */
  function Advertised(s: Interest, cid: int, name: Text, addr: int, types: set<int>, now: int): Interest {
    var inserted := cid !in s.consumers;
    var was := if inserted then Endpoint([], 0, {}, now) else s.consumers[cid];
    var dirty := (inserted && types != {}) || was.types != types;
    var consumers := s.consumers[cid := if inserted || dirty || was.name != name || was.addr != addr
                                        then Endpoint(name, addr, types, now) else was.(timepoint := now)];
    Interest(consumers, if dirty then Union(consumers) else s.mods)
  }

  function Alive(consumers: Endpoints, now: int): Endpoints {
    map c | c in consumers && !Expired(consumers[c], now) :: consumers[c]
  }

  /** Expired consumers go, and only one that had asked for something makes it recompute. */
  function Ticked(s: Interest, now: int): Interest {
    var dirty := exists c :: c in s.consumers && Expired(s.consumers[c], now) && s.consumers[c].types != {};
    Interest(Alive(s.consumers, now), if dirty then Union(Alive(s.consumers, now)) else s.mods)
  }

  datatype Event =
    | Advert(cid: int, name: Text, addr: int, types: set<int>, now: int)
    | Tick(now: int)

  function Step(s: Interest, e: Event): Interest {
    match e
    case Advert(cid, name, addr, types, now) => Advertised(s, cid, name, addr, types, now)
    case Tick(now) => Ticked(s, now)
  }

  lemma AdvertKeeps(s: Interest, cid: int, name: Text, addr: int, types: set<int>, now: int)
    requires Agrees(s)
    ensures Agrees(Advertised(s, cid, name, addr, types, now))
    ensures Advertised(s, cid, name, addr, types, now).consumers == s.consumers[cid := Endpoint(name, addr, types, now)]
  {
    var n := Advertised(s, cid, name, addr, types, now);
    if n.mods == s.mods {
      forall t | t in n.mods ensures Asked(n.consumers, t) {
        var c :| c in s.consumers && t in s.consumers[c].types;
        assert c in n.consumers && (c != cid ==> n.consumers[c] == s.consumers[c]);
      }
    }
  }

  lemma TickKeeps(s: Interest, now: int)
    requires Agrees(s)
    ensures Agrees(Ticked(s, now))
  {
    var n := Ticked(s, now);
    if !exists c :: c in s.consumers && Expired(s.consumers[c], now) && s.consumers[c].types != {} {
      forall t | t in n.mods ensures Asked(n.consumers, t) {
        var c :| c in s.consumers && t in s.consumers[c].types;
        assert !Expired(s.consumers[c], now);
        assert c in n.consumers && n.consumers[c] == s.consumers[c];
      }
    }
  }

  function Run(events: seq<Event>): Interest
    decreases |events|
  {
    if events == [] then Interest(map[], {}) else Step(Run(events[..|events| - 1]), events[|events| - 1])
  }

  /** What a run leaves of one consumer: its last advert, unless a later tick
      found that older than thirty seconds. */
  function LastAdvert(events: seq<Event>, cid: int): Option<Endpoint>
    decreases |events|
  {
    if events == [] then None
    else
      var before := LastAdvert(events[..|events| - 1], cid);
      match events[|events| - 1]
      case Advert(c, name, addr, types, now) => if c == cid then Some(Endpoint(name, addr, types, now)) else before
      case Tick(now) => if before.Some? && now > before.value.timepoint + 30_000 then None else before
  }

  predicate Wanted(events: seq<Event>, t: int, cid: int) {
    LastAdvert(events, cid).Some? && t in LastAdvert(events, cid).value.types
  }

  /** In every reachable state the cached interests are exactly the types that
      the last advert of some consumer still held asked for. */
  lemma {:induction false} EveryRun(events: seq<Event>)
    ensures Agrees(Run(events))
    ensures forall c :: c in Run(events).consumers <==> LastAdvert(events, c).Some?
    ensures forall c :: c in Run(events).consumers ==> LastAdvert(events, c) == Some(Run(events).consumers[c])
    decreases |events|
  {
    if events != [] {
      var before := events[..|events| - 1];
      EveryRun(before);
      match events[|events| - 1]
      case Advert(cid, name, addr, types, now) => AdvertKeeps(Run(before), cid, name, addr, types, now);
      case Tick(now) => TickKeeps(Run(before), now);
    }
  }

  lemma CacheIsInterest(events: seq<Event>, t: int)
    ensures t in Run(events).mods <==> exists cid :: Wanted(events, t, cid)
  {
    hide Run, LastAdvert;
    EveryRun(events);
    if t in Run(events).mods {
      var c :| c in Run(events).consumers && t in Run(events).consumers[c].types;
      assert Wanted(events, t, c);
    }
    if cid :| Wanted(events, t, cid) {
      assert cid in Run(events).consumers;
    }
  }

  // ------------------------------------------------------------------- filter

  /** `applyFilter`. */
  function Filtered(m: Modules, mods: set<int>): (r: Modules)
    ensures forall k :: r.Has(k) <==> m.Has(k) && k in mods
    ensures r.pos.Some? ==> r.pos == m.pos
    ensures r.posVelAccel.Some? ==> r.posVelAccel == m.posVelAccel
    ensures r.rot.Some? ==> r.rot == m.rot
    ensures r.rotVelAccel.Some? ==> r.rotVelAccel == m.rotVelAccel
    ensures r.scale.Some? ==> r.scale == m.scale
    ensures r.frame.Some? ==> r.frame == m.frame
  {
    Modules(if 0 in mods then m.pos else None, if 1 in mods then m.posVelAccel else None, if 2 in mods then m.rot else None,
            if 3 in mods then m.rotVelAccel else None, if 4 in mods then m.scale else None, if 5 in mods then m.frame else None)
  }

  predicate Carries(pt: Point, mods: set<int>) { Filtered(pt.modules, mods) != NO_MODULES }

  function FilteredPoints(points: Points, mods: set<int>): Points {
    map p | p in points && Carries(points[p], mods) :: points[p].(modules := Filtered(points[p].modules, mods))
  }

  function FilteredGroups(groups: Groups, mods: set<int>): Groups {
    map g | g in groups && FilteredPoints(groups[g], mods) != map[] :: FilteredPoints(groups[g], mods)
  }

  /** The transforms for the systems `ids`: none for a system without anything to send. */
  function Sent(data: map<int, System>, ids: seq<int>, mods: set<int>, full: bool): seq<(int, System)>
    requires forall i :: 0 <= i < |ids| ==> ids[i] in data
    decreases |ids|
  {
    if ids == [] then []
    else
      var n := |ids| - 1;
      var groups := FilteredGroups(data[ids[n]].groups, mods);
      Sent(data, ids[..n], mods, full) +
      if groups == map[] then [] else [(ids[n], System(data[ids[n]].timestamp, full, groups))]
  }

  lemma {:induction false} NothingAsked(data: map<int, System>, ids: seq<int>, full: bool)
    requires forall i :: 0 <= i < |ids| ==> ids[i] in data
    ensures Sent(data, ids, {}, full) == []
    decreases |ids|
  {
    if ids != [] {
      var n := |ids| - 1;
      NothingAsked(data, ids[..n], full);
      forall g | g in data[ids[n]].groups ensures FilteredPoints(data[ids[n]].groups[g], {}) == map[] {
        NothingCarried(data[ids[n]].groups[g]);
      }
    }
  }

  lemma NothingCarried(points: Points)
    ensures FilteredPoints(points, {}) == map[]
  {
    forall p | p in points ensures !Carries(points[p], {}) {
      assert Filtered(points[p].modules, {}) == NO_MODULES;
    }
    assert FilteredPoints(points, {}).Keys == {};
  }

  predicate NothingEmpty(system: System) {
    && system.groups != map[]
    && forall g :: g in system.groups ==>
         && system.groups[g] != map[]
         && forall p :: p in system.groups[g] ==> system.groups[g][p].modules != NO_MODULES
  }

  /** Of what is sent for a system nothing is empty, and the points are exactly
      the stored ones with a wanted module, cut down to the wanted modules. */
  lemma {:induction false} SentIsWhatWasAsked(data: map<int, System>, ids: seq<int>, mods: set<int>, full: bool, i: nat)
    requires (forall j :: 0 <= j < |ids| ==> ids[j] in data) && i < |Sent(data, ids, mods, full)|
    ensures var (n, system) := Sent(data, ids, mods, full)[i];
            && n in ids && n in data && system.fullPointSet == full && system.timestamp == data[n].timestamp && NothingEmpty(system)
            && system.groups == FilteredGroups(data[n].groups, mods)
    decreases |ids|
  {
    var n := |ids| - 1;
    var before := Sent(data, ids[..n], mods, full);
    if i < |before| {
      SentIsWhatWasAsked(data, ids[..n], mods, full, i);
    } else {
      assert ids[n] in ids;
    }
  }

  /** Point by point: a frame is sent exactly when a stored module of it is wanted. */
  lemma PointIsSentIff(groups: Groups, mods: set<int>, g: int, p: int)
    ensures var sent := FilteredGroups(groups, mods);
            && (g in sent && p in sent[g] <==> g in groups && p in groups[g] && exists k :: groups[g][p].modules.Has(k) && k in mods)
            && (g in sent && p in sent[g] ==> sent[g][p] == groups[g][p].(modules := Filtered(groups[g][p].modules, mods)))
  {
    if g in groups && p in groups[g] {
      var r := Filtered(groups[g][p].modules, mods);
      EmptyIff(r);
      if r != NO_MODULES { assert p in FilteredPoints(groups[g], mods); }
    }
  }

  lemma EmptyIff(m: Modules)
    ensures m == NO_MODULES <==> forall k :: !m.Has(k)
  {
    if m != NO_MODULES {
      assert m.Has(0) || m.Has(1) || m.Has(2) || m.Has(3) || m.Has(4) || m.Has(5);
    }
  }

  /** Every system with a wanted module stored is sent. */
  lemma {:induction false} NothingWantedIsMissing(data: map<int, System>, ids: seq<int>, mods: set<int>, full: bool,
                                                  i: nat)
    requires (forall j :: 0 <= j < |ids| ==> ids[j] in data) && i < |ids|
    requires FilteredGroups(data[ids[i]].groups, mods) != map[]
    ensures exists j :: 0 <= j < |Sent(data, ids, mods, full)| && Sent(data, ids, mods, full)[j].0 == ids[i]
    decreases |ids|
  {
    var n := |ids| - 1;
    var (before, all) := (Sent(data, ids[..n], mods, full), Sent(data, ids, mods, full));
    if i == n {
      assert all[|before|].0 == ids[i];
    } else {
      NothingWantedIsMissing(data, ids[..n], mods, full, i);
      var j :| 0 <= j < |before| && before[j].0 == ids[..n][i];
      assert all[j] == before[j];
    }
  }

  // ------------------------------------------------------------------ the class

  datatype Change = Unchanged | SystemAppeared | GroupAppeared | PointAppeared | PointUpdated

  function Stored(data: map<int, System>, f: Frame): Option<Point> {
    if f.system in data && f.group in data[f.system].groups && f.point in data[f.system].groups[f.group]
    then Some(data[f.system].groups[f.group][f.point]) else None
  }

  predicate NoEmptyGroup(groups: Groups) {
    groups != map[] && forall g :: g in groups ==> groups[g] != map[]
  }

  predicate NoEmptySystem(data: map<int, System>) {
    forall s :: s in data ==> NoEmptyGroup(data[s].groups)
  }

  function Transforms(props: Props, sent: seq<(int, System)>): seq<(int, seq<byte>)> {
    seq(|sent|, i requires 0 <= i < |sent| => (sent[i].0, TransformBytes(props, sent[i].0, sent[i].1)))
  }

  /** Just one point, as `SendPoint` makes it up. */
  function Lone(f: Frame, pt: Point): map<int, System> {
    map[f.system := System(0, false, map[f.group := map[f.point := pt]])]
  }

  function Novelty(data: map<int, System>, f: Frame, pt: Point): Change {
    if f.system !in data then SystemAppeared
    else if f.group !in data[f.system].groups then GroupAppeared
    else if f.point !in data[f.system].groups[f.group] then PointAppeared
    else if data[f.system].groups[f.group][f.point] != pt then PointUpdated
    else Unchanged
  }

  function With(data: map<int, System>, f: Frame, pt: Point): map<int, System> {
    if f.system !in data then data[f.system := System(0, false, map[f.group := map[f.point := pt]])]
    else if Stored(data, f) == Some(pt) then data
    else
      var groups := data[f.system].groups;
      var points := if f.group in groups then groups[f.group] else map[];
      data[f.system := data[f.system].(groups := groups[f.group := points[f.point := pt]])]
  }

  lemma WithStored(data: map<int, System>, f: Frame, pt: Point)
    ensures Stored(data, f) == Some(pt) <==> Novelty(data, f, pt) == Unchanged
    ensures forall h :: Stored(With(data, f, pt), h) == if h == f then Some(pt) else Stored(data, h)
    ensures SameHeads(data, With(data, f, pt), f.system)
  {
  }

  /** Every system that was there keeps its timestamp and its mark, and one that
      appears has neither. */
  ghost predicate SameHeads(before: map<int, System>, after: map<int, System>, number: int) {
    && after.Keys == before.Keys + {number}
    && (forall n :: n in before ==> after[n].timestamp == before[n].timestamp && after[n].fullPointSet == before[n].fullPointSet)
    && (number !in before ==> after[number].timestamp == 0 && !after[number].fullPointSet)
  }

  /** What is new about a point: whether anything was stored in its system, in
      its group, for its frame, and whether that was something else. */
  lemma NoveltyIff(data: map<int, System>, f: Frame, pt: Point)
    requires NoEmptySystem(data)
    ensures var n := Novelty(data, f, pt);
            && (n == SystemAppeared <==> forall g, p :: Stored(data, Frame(f.system, g, p)) == None)
            && (n == GroupAppeared <==> (exists g, p :: Stored(data, Frame(f.system, g, p)) != None)
                                         && forall p :: Stored(data, Frame(f.system, f.group, p)) == None)
            && (n == PointAppeared <==> (exists p :: Stored(data, Frame(f.system, f.group, p)) != None) && Stored(data, f) == None)
            && (n == PointUpdated <==> Stored(data, f) != None && Stored(data, f) != Some(pt))
            && (n == Unchanged <==> Stored(data, f) == Some(pt))
  {
    if f.system in data {
      var groups := data[f.system].groups;
      assert NoEmptyGroup(groups);
      var g := OrderedKeys.Pick(groups.Keys);
      var p := OrderedKeys.Pick(groups[g].Keys);
      assert Stored(data, Frame(f.system, g, p)) != None;
      if f.group in groups {
        var q := OrderedKeys.Pick(groups[f.group].Keys);
        assert Stored(data, Frame(f.system, f.group, q)) != None;
      }
    }
  }

  lemma WithNothingEmpty(data: map<int, System>, f: Frame, pt: Point)
    requires NoEmptySystem(data)
    ensures NoEmptySystem(With(data, f, pt))
  {
    var after := With(data, f, pt);
    var groups := after[f.system].groups;
    assert f.point in groups[f.group];
    forall s | s in after ensures NoEmptyGroup(after[s].groups) {
      assert s != f.system ==> s in data && NoEmptyGroup(data[s].groups);
      assert s == f.system ==> f.group in groups && (s in data ==> NoEmptyGroup(data[s].groups));
    }
  }

  lemma LoneSorted(f: Frame, pt: Point)
    ensures OrderedKeys.Sorted(Lone(f, pt).Keys) == [f.system]
  {
    hide OrderedKeys.Sorted;
    var r := OrderedKeys.Sorted(Lone(f, pt).Keys);
    assert Lone(f, pt).Keys == {f.system};
    assert |r| == 1 && r[0] in r;
  }

  class Producer {
    const props: Props
    var consumers: Endpoints
    var mods: set<int>
    var data: map<int, System>
    var resend: Option<int>

    ghost predicate Valid() reads this {
      Agrees(State()) && NoEmptySystem(data)
    }

    ghost function State(): Interest reads this { Interest(consumers, mods) }

    constructor (cid: seq<byte>, name: Text)
      ensures Valid() && State() == Run([]) && data == map[] && props == Props(cid, 0, 0, 0, name)
    {
      props := Props(cid, 0, 0, 0, name);
      consumers, mods, data, resend := map[], {}, map[], None;
    }

    method UpdateModulesTypes()
      modifies this`mods
      ensures mods == Union(consumers)
    {
      var todo := consumers.Keys;
      var found: set<int> := {};
      while todo != {}
        invariant todo <= consumers.Keys
        invariant forall c, t :: c in consumers && c !in todo && t in consumers[c].types ==> t in found
        invariant forall t :: t in found ==> Asked(consumers, t)
        decreases |todo|
      {
        var c := OrderedKeys.Minimum(todo);
        found := found + consumers[c].types;
        todo := todo - {c};
      }
      UnionIsOnly(Interest(consumers, found));
      if mods != found { mods := found; }
    }

    /** A module advert is remembered as of now, and the interests stay right. */
    method HandleModuleAdvert(cid: int, name: Text, addr: int, types: set<int>, now: int)
      requires Valid()
      modifies this
      ensures Valid() && data == old(data)
      ensures State() == Advertised(old(State()), cid, name, addr, types, now)
      ensures consumers == old(consumers)[cid := Endpoint(name, addr, types, now)]
    {
      AdvertKeeps(State(), cid, name, addr, types, now);
      var inserted := cid !in consumers;
      if inserted { consumers := consumers[cid := Endpoint([], 0, {}, now)]; }
      consumers := consumers[cid := consumers[cid].(timepoint := now)];
      var dirty := (inserted && types != {}) || consumers[cid].types != types;
      if inserted || dirty || consumers[cid].name != name || consumers[cid].addr != addr {
        consumers := consumers[cid := consumers[cid].(name := name, addr := addr, types := types)];
        assert consumers == old(consumers)[cid := Endpoint(name, addr, types, now)];
        if dirty { UpdateModulesTypes(); }
      } else {
        assert consumers == old(consumers)[cid := Endpoint(name, addr, types, now)];
      }
    }

    /** A system request is answered with the systems that hold points. */
    method HandleSystemAdvert(response: bool) returns (reply: Option<seq<byte>>)
      ensures reply == if response || data == map[] then None else Some(SystemAdvertBytes(props, data.Keys, true))
    {
      if response || data == map[] { return None; }
      var datagram := OtpWriter.SystemAdvertDatagram(props, data.Keys, true);
      return Some(datagram);
    }

    method TickConsumers(now: int)
      requires Valid()
      modifies this
      ensures Valid() && data == old(data)
      ensures State() == Ticked(old(State()), now)
    {
      ghost var was := consumers;
      TickKeeps(State(), now);
      var dirty := false;
      var todo := consumers.Keys;
      while todo != {}
        invariant todo <= was.Keys && mods == old(mods) && data == old(data)
        invariant consumers == map c | c in was && (c in todo || !Expired(was[c], now)) :: was[c]
        invariant dirty <==> exists c :: c in was && c !in todo && Expired(was[c], now) && was[c].types != {}
        decreases |todo|
      {
        var c := OrderedKeys.Minimum(todo);
        var consumer := consumers[c];
        if Expired(consumer, now) {
          consumers := consumers - {c};
          if consumer.types != {} { dirty := true; }
        }
        todo := todo - {c};
      }
      assert consumers == Alive(was, now);
      if dirty { UpdateModulesTypes(); }
    }

    /** `SendPoints`: the datagrams and the systems they are addressed to. */
    method SendPoints(points: map<int, System>, full: bool) returns (sent: seq<(int, seq<byte>)>)
      ensures InOrder(points) && sent == Transforms(props, Sent(points, OrderedKeys.Sorted(points.Keys), mods, full))
    {
      hide Sent, TransformBytes, OrderedKeys.Sorted, FilteredGroups, Transforms;
      SortedIn(points);
      sent := [];
      var ids := OrderedKeys.Sorted(points.Keys);
      if mods == {} {
        NothingAsked(points, ids, full);
        TransformsNone(props);
        return;
      }
      SentNone(points, mods, full);
      TransformsNone(props);
      assert ids[..0] == [];
      for i := 0 to |ids|
        invariant sent == Transforms(props, Sent(points, ids[..i], mods, full))
      {
        var n := ids[i];
        SentNext(points, ids, i, mods, full);
        var groups := FilterGroups(points[n].groups);
        if groups != map[] {
          var system := System(points[n].timestamp, full, groups);
          assert map[n := system].Keys == {n};
          var ok, datagram := OtpWriter.TransformDatagram(props, map[n := system]);
          TransformsSnoc(props, Sent(points, ids[..i], mods, full), n, system);
          sent := sent + [(n, datagram)];
        } else {
          assert Sent(points, ids[..i], mods, full) + [] == Sent(points, ids[..i], mods, full);
        }
      }
      assert ids[..|ids|] == ids;
    }

    method TickResend(now: int) returns (sent: seq<(int, seq<byte>)>)
      requires Valid()
      modifies this`resend
      ensures Valid()
      ensures var due := mods != {} && (old(resend).None? || now - old(resend).value >= TRANSFORM_RATE);
              && resend == (if due then Some(now) else old(resend))
              && InOrder(data)
              && sent == if due then Transforms(props, Sent(data, OrderedKeys.Sorted(data.Keys), mods, true)) else []
    {
      SortedIn(data);
      if mods == {} || (resend.Some? && now - resend.value < TRANSFORM_RATE) { return []; }
      sent := SendPoints(data, true);
      resend := Some(now);
    }

    /** `SendPoint`: the one point goes out in a message of its own. */
    method SendPoint(f: Frame, pt: Point) returns (sent: seq<(int, seq<byte>)>)
      ensures sent == Transforms(props, Sent(Lone(f, pt), [f.system], mods, false))
    {
      if mods == {} {
        NothingAsked(Lone(f, pt), [f.system], false);
        return [];
      }
      LoneSorted(f, pt);
      sent := SendPoints(Lone(f, pt), false);
    }

    /** The frame has the point and no other frame changes; only news is sent. */
    method SetPoint(f: Frame, pt: Point) returns (change: Change, sent: seq<(int, seq<byte>)>)
      requires Valid()
      modifies this`data
      ensures Valid()
      ensures forall h :: Stored(data, h) == if h == f then Some(pt) else Stored(old(data), h)
      ensures SameHeads(old(data), data, f.system)
      ensures change == Novelty(old(data), f, pt)
      ensures sent == if change == Unchanged then [] else Transforms(props, Sent(Lone(f, pt), [f.system], mods, false))
    {
      hide Stored, NoEmptySystem, Transforms, Sent, Lone, SameHeads;
      WithStored(data, f, pt);
      WithNothingEmpty(data, f, pt);
      if f.system !in data {
        data := data[f.system := System(0, false, map[f.group := map[f.point := pt]])];
        change := SystemAppeared;
      } else {
        var groups := data[f.system].groups;
        if f.group !in groups {
          data := data[f.system := data[f.system].(groups := groups[f.group := map[f.point := pt]])];
          change := GroupAppeared;
        } else if f.point !in groups[f.group] {
          data := data[f.system := data[f.system].(groups := groups[f.group := groups[f.group][f.point := pt]])];
          change := PointAppeared;
        } else if groups[f.group][f.point] != pt {
          data := data[f.system := data[f.system].(groups := groups[f.group := groups[f.group][f.point := pt]])];
          change := PointUpdated;
        } else {
          change := Unchanged;
        }
      }
      sent := [];
      if change != Unchanged { sent := SendPoint(f, pt); }
    }

    /** The frame is gone, and with it a group or system that it leaves empty. */
    method RemovePoint(f: Frame) returns (ok: bool)
      requires Valid()
      modifies this`data
      ensures Valid()
      ensures ok == Stored(old(data), f).Some?
      ensures forall h :: Stored(data, h) == if h == f then None else Stored(old(data), h)
      ensures forall n :: n in data ==> n in old(data) && data[n] == old(data)[n].(groups := data[n].groups)
    {
      ghost var was := data;
      if f.system !in data { return false; }
      var groups := data[f.system].groups;
      if f.group !in groups { return false; }
      var points := groups[f.group];
      if f.point !in points { return false; }
      ok := true;
      assert NoEmptyGroup(groups);
      points := points - {f.point};
      if points != map[] {
        groups := groups[f.group := points];
        assert f.group in groups;
        data := data[f.system := data[f.system].(groups := groups)];
      } else {
        groups := groups - {f.group};
        data := if groups != map[] then data[f.system := data[f.system].(groups := groups)] else data - {f.system};
      }
      forall s | s in data ensures NoEmptyGroup(data[s].groups) {
        assert s != f.system ==> s in was && data[s] == was[s] && NoEmptyGroup(was[s].groups);
      }
      ghost var rest := was[f.system].groups[f.group] - {f.point};
      forall h ensures Stored(data, h) == if h == f then None else Stored(was, h) {
        if h.system == f.system {
          if h.group == f.group {
            assert h.point in was[f.system].groups[f.group] && h.point != f.point ==> h.point in rest;
          } else {
            assert h.group in was[f.system].groups ==> h.group in groups;
          }
        }
      }
    }

    method FilterGroups(was: Groups) returns (groups: Groups)
      ensures groups == FilteredGroups(was, mods)
    {
      hide FilteredPoints;
      groups := was;
      var todo := was.Keys;
      while todo != {}
        invariant todo <= was.Keys
        invariant groups.Keys == set g | g in was && (g in todo || FilteredPoints(was[g], mods) != map[])
        invariant forall g :: g in groups ==> groups[g] == if g in todo then was[g] else FilteredPoints(was[g], mods)
        decreases |todo|
      {
        var g := OrderedKeys.Minimum(todo);
        var points := FilterPoints(groups[g]);
        groups := if points == map[] then groups - {g} else groups[g := points];
        todo := todo - {g};
      }
      assert groups.Keys == FilteredGroups(was, mods).Keys;
      assert forall g :: g in groups ==> groups[g] == FilteredGroups(was, mods)[g];
    }

    method FilterPoints(was: Points) returns (points: Points)
      ensures points == FilteredPoints(was, mods)
    {
      hide Filtered;
      points := was;
      var todo := was.Keys;
      while todo != {}
        invariant todo <= was.Keys
        invariant points.Keys == set p | p in was && (p in todo || Carries(was[p], mods))
        invariant forall p :: p in points ==> points[p] == if p in todo then was[p] else was[p].(modules := Filtered(was[p].modules, mods))
        decreases |todo|
      {
        var p := OrderedKeys.Minimum(todo);
        var modules := ApplyFilter(points[p].modules);
        points := if modules == NO_MODULES then points - {p} else points[p := points[p].(modules := modules)];
        todo := todo - {p};
      }
      assert points.Keys == FilteredPoints(was, mods).Keys;
      assert forall p :: p in points ==> points[p] == FilteredPoints(was, mods)[p];
    }

    method ApplyFilter(was: Modules) returns (m: Modules)
      ensures m == Filtered(was, mods)
    {
      m := was;
      if m.pos.Some? && 0 !in mods { m := m.(pos := None); }
      if m.posVelAccel.Some? && 1 !in mods { m := m.(posVelAccel := None); }
      if m.rot.Some? && 2 !in mods { m := m.(rot := None); }
      if m.rotVelAccel.Some? && 3 !in mods { m := m.(rotVelAccel := None); }
      if m.scale.Some? && 4 !in mods { m := m.(scale := None); }
      if m.frame.Some? && 5 !in mods { m := m.(frame := None); }
    }
  }

  predicate InOrder(points: map<int, System>) {
    var ids := OrderedKeys.Sorted(points.Keys);
    forall i :: 0 <= i < |ids| ==> ids[i] in points
  }

  lemma SortedIn(points: map<int, System>)
    ensures InOrder(points)
  {
    hide OrderedKeys.Sorted;
    var ids := OrderedKeys.Sorted(points.Keys);
    forall i | 0 <= i < |ids| ensures ids[i] in points { assert ids[i] in ids; }
  }

  lemma TransformsNone(props: Props)
    ensures Transforms(props, []) == []
  {
  }

  lemma TransformsSnoc(props: Props, sent: seq<(int, System)>, n: int, s: System)
    ensures Transforms(props, sent + [(n, s)]) == Transforms(props, sent) + [(n, TransformBytes(props, n, s))]
  {
  }

  lemma SentNone(data: map<int, System>, mods: set<int>, full: bool)
    ensures Sent(data, [], mods, full) == []
  {
  }

  lemma SentNext(data: map<int, System>, ids: seq<int>, i: nat, mods: set<int>, full: bool)
    requires (forall j :: 0 <= j < |ids| ==> ids[j] in data) && i < |ids|
    ensures var groups := FilteredGroups(data[ids[i]].groups, mods);
            Sent(data, ids[..i + 1], mods, full) ==
            Sent(data, ids[..i], mods, full) + if groups == map[] then [] else [(ids[i], System(data[ids[i]].timestamp, full, groups))]
  {
    hide FilteredGroups;
    assert ids[..i + 1][..i] == ids[..i];
  }
}

/** An OTP consumer keeps, for every point of the systems it has subscribed to,
    one received point: the merge of transform messages by priority and age. */
module OtpConsumer {
  import opened Basics
  import opened OtpWire
  import opened OtpMessage
  import OrderedKeys

  const TRANSFORM_DATA_LOSS_TIMEOUT := 7500

  /** A point and when it was received; the comparison of points ignores the time. */
  datatype Held = Held(point: Point, received: int)

  type HeldPoints = map<int, Held>
  type HeldGroups = map<int, HeldPoints>
  datatype HeldSystem = HeldSystem(timestamp: int, groups: HeldGroups)
  type Systems = map<int, HeldSystem>

  predicate Expired(h: Held, now: int) { now - h.received > TRANSFORM_DATA_LOSS_TIMEOUT }

  // ------------------------------------------------------------- specification

  function Replaced(was: Held, got: Held, now: int): Held {
    if (got.point.priority >= was.point.priority || Expired(was, now)) && was.point != got.point then got else was
  }

  function Lookup<T>(m: map<int, T>, k: int): Option<T> {
    if k in m then Some(m[k]) else None
  }

  function Merged(was: Option<Held>, got: Option<Held>, now: int): Option<Held> {
    if got.None? then was else if was.None? then got else Some(Replaced(was.value, got.value, now))
  }

  function MergedPoints(was: HeldPoints, got: HeldPoints, now: int): HeldPoints {
    map p | p in was.Keys + got.Keys :: Merged(Lookup(was, p), Lookup(got, p), now).value
  }

  function PointsOf(groups: HeldGroups, g: int): HeldPoints { if g in groups then groups[g] else map[] }

  function MergedGroups(was: HeldGroups, got: HeldGroups, now: int): HeldGroups {
    map g | g in was.Keys + got.Keys :: MergedPoints(PointsOf(was, g), PointsOf(got, g), now)
  }

  /** Whether a point of `got` is new or may replace what is there. */
  ghost predicate Touched(was: HeldPoints, got: HeldPoints, now: int) {
    exists p :: p in got && (p in was ==> got[p].point.priority >= was[p].point.priority || Expired(was[p], now))
  }

  /** Whether the message gives the system its timestamp: a new group does so
      even without points. */
  ghost predicate Stamped(was: HeldGroups, got: HeldGroups, now: int) {
    exists g :: g in got && (g in was ==> Touched(was[g], got[g], now))
  }

  ghost function MergedSystem(was: HeldSystem, got: HeldSystem, now: int): HeldSystem {
    HeldSystem(if Stamped(was.groups, got.groups, now) then got.timestamp else was.timestamp,
               MergedGroups(was.groups, got.groups, now))
  }

  ghost function MergedSystems(was: Systems, got: Systems, now: int): Systems {
    map s | s in was :: if s in got then MergedSystem(was[s], got[s], now) else was[s]
  }

  /** What is held for a frame. */
  function At(systems: Systems, f: Frame): Option<Held> {
    if f.system in systems then Lookup(PointsOf(systems[f.system].groups, f.group), f.point) else None
  }

  /** The three levels are one merge, frame by frame, of the subscribed systems. */
  lemma MergeIsPointwise(was: Systems, got: Systems, now: int, f: Frame)
    ensures MergedSystems(was, got, now).Keys == was.Keys
    ensures At(MergedSystems(was, got, now), f) ==
            if f.system in was then Merged(At(was, f), At(got, f), now) else None
  {
    if f.system in was && f.system in got {
      var (a, b) := (was[f.system].groups, got[f.system].groups);
      var merged := MergedGroups(a, b, now);
      if f.group in a.Keys + b.Keys {
        assert merged[f.group] == MergedPoints(PointsOf(a, f.group), PointsOf(b, f.group), now);
      }
    }
  }

  /** A system that is not subscribed to is not there; another one takes the
      timestamp of the message when that has a group that is new, a point that is
      new, or one of no lower priority than what is held for it or where that was
      received more than 7.5 seconds ago. */
  lemma TimestampIff(was: Systems, got: Systems, now: int, s: int)
    requires s in was && s in got
    ensures MergedSystems(was, got, now)[s].timestamp ==
            if exists g :: Newer(was, got, now, s, g) then got[s].timestamp else was[s].timestamp
  {
    var (a, b) := (was[s].groups, got[s].groups);
    forall g ensures Newer(was, got, now, s, g) <==> g in b && (g in a ==> Touched(a[g], b[g], now)) {
      if g in b && g in a { NewerIsTouched(was, got, now, s, g); }
    }
    if Stamped(a, b, now) {
      var g :| g in b && (g in a ==> Touched(a[g], b[g], now));
      assert Newer(was, got, now, s, g);
    }
  }

  lemma NewerIsTouched(was: Systems, got: Systems, now: int, s: int, g: int)
    requires s in was && s in got && g in was[s].groups && g in got[s].groups
    ensures NewerGroup(was, got, now, s, g) <==> Touched(was[s].groups[g], got[s].groups[g], now)
  {
    var (a, b) := (was[s].groups[g], got[s].groups[g]);
    if NewerGroup(was, got, now, s, g) {
      var p :| NewerAt(was, got, now, Frame(s, g, p));
      assert p in b;
    }
    if p :| p in b && (p in a ==> b[p].point.priority >= a[p].point.priority || Expired(a[p], now)) {
      assert NewerAt(was, got, now, Frame(s, g, p));
    }
  }

  ghost predicate Newer(was: Systems, got: Systems, now: int, s: int, g: int)
    requires s in was && s in got
  {
    g in got[s].groups && (g in was[s].groups ==> NewerGroup(was, got, now, s, g))
  }

  ghost predicate NewerGroup(was: Systems, got: Systems, now: int, s: int, g: int) {
    exists p :: NewerAt(was, got, now, Frame(s, g, p))
  }

  predicate NewerAt(was: Systems, got: Systems, now: int, f: Frame) {
    match (At(got, f), At(was, f))
    case (None, _) => false
    case (Some(_), None) => true
    case (Some(x), Some(y)) => x.point.priority >= y.point.priority || now > y.received + 7_500
  }

  // ---------------------------------------------------------------------- runs

  datatype Event = Event(systems: Systems, now: int)

  ghost function After(start: Systems, events: seq<Event>): Systems
    decreases |events|
  {
    if events == [] then start
    else
      var e := events[|events| - 1];
      MergedSystems(After(start, events[..|events| - 1]), e.systems, e.now)
  }

  /** What a run delivers to a frame, in order. */
  function Delivered(events: seq<Event>, f: Frame): seq<Held>
    decreases |events|
  {
    if events == [] then []
    else
      Delivered(events[..|events| - 1], f) +
      match At(events[|events| - 1].systems, f)
      case None => []
      case Some(h) => [h]
  }

  /** What is held for the frame is never expired when the frame is delivered to. */
  ghost predicate NeverExpires(start: Systems, events: seq<Event>, f: Frame)
    decreases |events|
  {
    events == [] ||
    var before := events[..|events| - 1];
    var e := events[|events| - 1];
    && NeverExpires(start, before, f)
    && (At(e.systems, f).Some? && At(After(start, before), f).Some? ==> !Expired(At(After(start, before), f).value, e.now))
  }

  /** The last of those with the highest priority. */
  predicate LastOfHighest(ds: seq<Held>, i: int) {
    && 0 <= i < |ds|
    && (forall j :: 0 <= j < i ==> ds[j].point.priority <= ds[i].point.priority)
    && (forall j :: i < j < |ds| ==> ds[j].point.priority < ds[i].point.priority)
  }

  predicate HoldsPointOf(ds: seq<Held>, i: int, point: Point) {
    LastOfHighest(ds, i) && ds[i].point == point
  }

  lemma {:induction false} Subscribed(start: Systems, events: seq<Event>)
    ensures After(start, events).Keys == start.Keys
    decreases |events|
  {
    if events != [] { Subscribed(start, events[..|events| - 1]); }
  }

  /** As long as nothing expires, every frame of a subscribed system holds the
      last received point among those of the highest priority, and a frame of
      another system holds nothing. */
  lemma {:induction false} HoldsLastOfHighest(start: Systems, events: seq<Event>, f: Frame)
    requires At(start, f).None? && NeverExpires(start, events, f)
    ensures f.system !in start || Delivered(events, f) == [] ==> At(After(start, events), f).None?
    ensures f.system in start && Delivered(events, f) != [] ==>
              && At(After(start, events), f).Some?
              && exists i :: HoldsPointOf(Delivered(events, f), i, At(After(start, events), f).value.point)
    decreases |events|
  {
    if events != [] {
      var n := |events| - 1;
      var (before, e) := (events[..n], events[n]);
      HoldsLastOfHighest(start, before, f);
      Subscribed(start, before);
      MergeIsPointwise(After(start, before), e.systems, e.now, f);
      var (ds, got) := (Delivered(before, f), At(e.systems, f));
      if got.None? { assert Delivered(events, f) == ds; }
      if f.system in start && got.Some? {
        HighestNext(ds, got.value, At(After(start, before), f), e.now);
        assert Delivered(events, f) == ds + [got.value];
      }
    }
  }

  lemma HighestNext(ds: seq<Held>, got: Held, was: Option<Held>, now: int)
    requires was.None? <==> ds == []
    requires was.Some? ==> !Expired(was.value, now) && exists i :: HoldsPointOf(ds, i, was.value.point)
    ensures exists i :: HoldsPointOf(ds + [got], i, Merged(was, Some(got), now).value.point)
  {
    var all := ds + [got];
    var n := |ds|;
    assert all[n] == got && forall j :: 0 <= j < n ==> all[j] == ds[j];
    var point := Merged(was, Some(got), now).value.point;
    if was.None? {
      assert HoldsPointOf(all, 0, point);
    } else {
      var i :| HoldsPointOf(ds, i, was.value.point);
      assert HoldsPointOf(all, if got.point.priority >= was.value.point.priority then n else i, point);
    }
  }

  /** Every delivery to the frame is the same point but for the time. */
  predicate OnlyRepeats(ds: seq<Held>, point: Point) {
    forall i :: 0 <= i < |ds| ==> ds[i].point == point
  }

  lemma {:induction false} RepeatsKeepFirst(start: Systems, events: seq<Event>, f: Frame, first: Held)
    requires At(start, f) == Some(first) && OnlyRepeats(Delivered(events, f), first.point)
    ensures At(After(start, events), f) == Some(first)
    decreases |events|
  {
    if events != [] {
      var n := |events| - 1;
      var (before, e) := (events[..n], events[n]);
      var ds := Delivered(before, f);
      assert Delivered(events, f)[..|ds|] == ds;
      forall i | 0 <= i < |ds| ensures ds[i].point == first.point { assert Delivered(events, f)[i] == ds[i]; }
      if At(e.systems, f).Some? { assert Delivered(events, f)[|ds|] == At(e.systems, f).value; }
      RepeatsKeepFirst(start, before, f, first);
      MergeIsPointwise(After(start, before), e.systems, e.now, f);
    }
  }

  /** Receiving a point again unchanged does not renew it: however often it was
      repeated, a point of lower priority takes its place exactly when the first
      reception is more than 7.5 seconds old. */
  lemma LowerPriorityTakesOverIff(start: Systems, events: seq<Event>, f: Frame, first: Held, last: Event)
    requires At(start, f) == Some(first) && OnlyRepeats(Delivered(events, f), first.point)
    requires At(last.systems, f).Some? && At(last.systems, f).value.point.priority < first.point.priority
    ensures At(After(start, events + [last]), f) == At(last.systems, f) <==> last.now > first.received + 7_500
  {
    var all := events + [last];
    assert all[..|all| - 1] == events;
    RepeatsKeepFirst(start, events, f, first);
    MergeIsPointwise(After(start, events), last.systems, last.now, f);
  }

  // ------------------------------------------------------------------ the class

  /** The systems `keys`, those that were there with all they held. */
  function Subscription(was: Systems, keys: set<int>): Systems {
    map s | s in keys :: if s in was then was[s] else HeldSystem(0, map[])
  }

  /** As far as the loop has come that has yet to add `todo`. */
  function Added(was: Systems, wanted: set<int>, todo: set<int>): Systems {
    map s | s in was.Keys + wanted && (s in was || s !in todo) :: if s in was then was[s] else HeldSystem(0, map[])
  }

  lemma AddedEnds(was: Systems, wanted: set<int>)
    ensures Added(was, wanted, wanted) == was
    ensures Added(was, wanted, {}) == Subscription(was, was.Keys + wanted)
  {
  }

  lemma AddedNext(was: Systems, wanted: set<int>, todo: set<int>, s: int)
    requires s in wanted
    ensures var before := Added(was, wanted, todo);
            Added(was, wanted, todo - {s}) == if s in before then before else before[s := HeldSystem(0, map[])]
  {
  }

  class Consumer {
    var systems: Systems

    constructor ()
      ensures systems == map[]
    {
      systems := map[];
    }

    method AddSystems(wanted: set<int>)
      modifies this
      ensures systems == Subscription(old(systems), old(systems.Keys) + wanted)
    {
      hide Added, Subscription, OrderedKeys.Minimum;
      ghost var was := systems;
      var todo := wanted;
      AddedEnds(was, wanted);
      while todo != {}
        invariant todo <= wanted && systems == Added(was, wanted, todo)
        decreases |todo|
      {
        var s := OrderedKeys.Minimum(todo);
        AddedNext(was, wanted, todo, s);
        if s !in systems { systems := systems[s := HeldSystem(0, map[])]; }
        todo := todo - {s};
      }
    }

    method RemoveSystems(wanted: set<int>)
      modifies this
      ensures systems == map s | s in old(systems) && s in wanted :: old(systems)[s]
    {
      ghost var was := systems;
      var todo := systems.Keys;
      while todo != {}
        invariant systems == map s | s in was && (s in wanted || s in todo) :: was[s]
        decreases |todo|
      {
        var s := OrderedKeys.Minimum(todo);
        if s !in wanted { systems := systems - {s}; }
        todo := todo - {s};
      }
    }

    /** New systems start empty, others are dropped with all they hold. */
    method SetSystems(wanted: set<int>)
      modifies this
      ensures systems == Subscription(old(systems), wanted)
      ensures systems.Keys == wanted
      ensures forall s :: s in wanted ==> systems[s] == if s in old(systems) then old(systems)[s] else HeldSystem(0, map[])
    {
      AddSystems(wanted);
      RemoveSystems(wanted);
    }

    /** Only subscribed systems change, each to the merge of the three levels. */
    method MergeTransform(got: Systems, now: int)
      modifies this
      ensures systems == MergedSystems(old(systems), got, now)
    {
      var todo := got.Keys;
      ghost var was := systems;
      MergedSystemsNone(was, now);
      assert got - todo == map[];
      while todo != {}
        invariant todo <= got.Keys && systems == MergedSystems(was, got - todo, now)
        decreases |todo|
      {
        var s := OrderedKeys.Minimum(todo);
        MergedSystemsNext(was, got, todo, s, now);
        if s in systems {
          assert systems[s] == was[s];
          var groups, stamped := MergeGroups(systems[s].groups, got[s].groups, now);
          systems := systems[s := HeldSystem(if stamped then got[s].timestamp else systems[s].timestamp, groups)];
        }
        todo := todo - {s};
      }
      assert got - {} == got;
    }
  }

  lemma MergedSystemsNone(was: Systems, now: int)
    ensures MergedSystems(was, map[], now) == was
  {
  }

  lemma MergedSystemsNext(was: Systems, got: Systems, todo: set<int>, s: int, now: int)
    requires s in todo && todo <= got.Keys
    ensures var before := MergedSystems(was, got - todo, now);
            && before.Keys == was.Keys
            && MergedSystems(was, got - (todo - {s}), now) == if s in was then before[s := MergedSystem(was[s], got[s], now)] else before
    ensures s in was ==> MergedSystems(was, got - todo, now)[s] == was[s]
  {
    hide MergedSystem;
  }

  method MergeGroups(was: HeldGroups, got: HeldGroups, now: int) returns (groups: HeldGroups, stamped: bool)
    ensures groups == MergedGroups(was, got, now) && stamped == Stamped(was, got, now)
  {
    hide MergedPoints, Touched;
    groups, stamped := was, false;
    var todo := got.Keys;
    MergedGroupsNone(was, now);
    assert got - todo == map[];
    while todo != {}
      invariant todo <= got.Keys && groups == MergedGroups(was, got - todo, now) && stamped == Stamped(was, got - todo, now)
      decreases |todo|
    {
      var g := OrderedKeys.Minimum(todo);
      MergedGroupsNext(was, got, todo, g, now);
      StampedNext(was, got, todo, g, now);
      if g !in groups {
        groups, stamped := groups[g := got[g]], true;
      } else {
        var points, touched := MergePoints(groups[g], got[g], now);
        groups, stamped := groups[g := points], stamped || touched;
      }
      todo := todo - {g};
    }
    assert got - {} == got;
  }

  lemma MergedGroupsNone(was: HeldGroups, now: int)
    ensures MergedGroups(was, map[], now) == was
  {
    forall g | g in was ensures MergedPoints(was[g], map[], now) == was[g] {}
    assert MergedGroups(was, map[], now).Keys == was.Keys;
  }

  lemma MergedGroupsNext(was: HeldGroups, got: HeldGroups, todo: set<int>, g: int, now: int)
    requires g in todo && todo <= got.Keys
    ensures var before := MergedGroups(was, got - todo, now);
            && (g in before <==> g in was) && (g in was ==> before[g] == was[g])
            && MergedGroups(was, got - (todo - {g}), now) == before[g := if g in was then MergedPoints(was[g], got[g], now) else got[g]]
  {
    hide MergedPoints;
    NothingMerged(PointsOf(was, g), now);
    NothingBefore(got[g], now);
    var (before, after) := (MergedGroups(was, got - todo, now), MergedGroups(was, got - (todo - {g}), now));
    assert after.Keys == before.Keys + {g};
    forall h | h in before && h != g ensures after[h] == before[h] {}
  }

  lemma NothingMerged(was: HeldPoints, now: int)
    ensures MergedPoints(was, map[], now) == was
  {
  }

  lemma NothingBefore(got: HeldPoints, now: int)
    ensures MergedPoints(map[], got, now) == got
  {
  }

  lemma StampedNext(was: HeldGroups, got: HeldGroups, todo: set<int>, g: int, now: int)
    requires g in todo && todo <= got.Keys
    ensures Stamped(was, got - (todo - {g}), now) <==> Stamped(was, got - todo, now) || (g in was ==> Touched(was[g], got[g], now))
  {
    hide Touched;
    var (before, after) := (got - todo, got - (todo - {g}));
    assert after == before[g := got[g]];
    if Stamped(was, before, now) {
      var h :| h in before && (h in was ==> Touched(was[h], before[h], now));
      assert h in after && after[h] == before[h];
    }
    if Stamped(was, after, now) {
      var h :| h in after && (h in was ==> Touched(was[h], after[h], now));
      assert h == g || (h in before && before[h] == after[h]);
    }
    assert g in after;
  }

  method MergePoints(was: HeldPoints, got: HeldPoints, now: int) returns (points: HeldPoints, touched: bool)
    ensures points == MergedPoints(was, got, now) && touched == Touched(was, got, now)
  {
    hide MergedPoints, Replaced, Touched, OrderedKeys.Minimum;
    points, touched := was, false;
    UntouchedByNothing(was, now);
    var todo := got.Keys;
    NothingMerged(was, now);
    assert got - todo == map[];
    while todo != {}
      invariant todo <= got.Keys && points == MergedPoints(was, got - todo, now) && touched == Touched(was, got - todo, now)
      decreases |todo|
    {
      var p := OrderedKeys.Minimum(todo);
      MergedPointsNext(was, got, todo, p, now);
      TouchedNext(was, got, todo, p, now);
      if p !in points {
        points, touched := points[p := got[p]], true;
      } else if got[p].point.priority >= points[p].point.priority || Expired(points[p], now) {
        ReplacedBy(points[p], got[p], now);
        if points[p].point != got[p].point { points := points[p := got[p]]; }
        touched := true;
      } else {
        ReplacedBy(points[p], got[p], now);
      }
      todo := todo - {p};
    }
    assert got - {} == got;
  }

  lemma UntouchedByNothing(was: HeldPoints, now: int)
    ensures !Touched(was, map[], now)
  {
  }

  lemma ReplacedBy(was: Held, got: Held, now: int)
    ensures Replaced(was, got, now) ==
            if (got.point.priority >= was.point.priority || Expired(was, now)) && was.point != got.point then got else was
  {
  }

  lemma MergedPointsNext(was: HeldPoints, got: HeldPoints, todo: set<int>, p: int, now: int)
    requires p in todo && todo <= got.Keys
    ensures var before := MergedPoints(was, got - todo, now);
            && (p in before <==> p in was) && (p in was ==> before[p] == was[p])
            && MergedPoints(was, got - (todo - {p}), now) == before[p := if p in was then Replaced(was[p], got[p], now) else got[p]]
  {
    var (before, after) := (MergedPoints(was, got - todo, now), MergedPoints(was, got - (todo - {p}), now));
    assert after.Keys == before.Keys + {p};
    forall q | q in before && q != p ensures after[q] == before[q] {}
  }

  lemma TouchedNext(was: HeldPoints, got: HeldPoints, todo: set<int>, p: int, now: int)
    requires p in todo && todo <= got.Keys
    ensures Touched(was, got - (todo - {p}), now) <==>
            Touched(was, got - todo, now) || (p in was ==> got[p].point.priority >= was[p].point.priority || Expired(was[p], now))
  {
    var (before, after) := (got - todo, got - (todo - {p}));
    assert after == before[p := got[p]];
    if Touched(was, before, now) {
      var q :| q in before && (q in was ==> before[q].point.priority >= was[q].point.priority || Expired(was[q], now));
      assert q in after && after[q] == before[q];
    }
    if Touched(was, after, now) {
      var q :| q in after && (q in was ==> after[q].point.priority >= was[q].point.priority || Expired(was[q], now));
      assert q == p || (q in before && before[q] == after[q]);
    }
    assert p in after;
  }
}

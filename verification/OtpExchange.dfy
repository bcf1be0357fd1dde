/** From a producer's point through a datagram into a consumer. */
module OtpExchange {
  import opened Basics
  import opened OtpText
  import opened OtpWire
  import opened OtpMessage
  import opened OtpReader
  import opened OtpRoundTrip
  import Producer = OtpProducer
  import Consumer = OtpConsumer

  /** What a consumer is to hold of the point: its wanted modules, under the name
      and CID of the sender. */
  function Arriving(props: Props, pt: Point, mods: set<int>): Point {
    Point(pt.priority, pt.timestamp, Producer.Filtered(pt.modules, mods), Received(props.name), props.cid)
  }

  predicate Wants(pt: Point, mods: set<int>) { exists k :: pt.modules.Has(k) && k in mods }

  function LoneSystem(f: Frame, pt: Point): System { System(0, false, map[f.group := map[f.point := pt]]) }

  lemma LoneSent(f: Frame, pt: Point, mods: set<int>)
    ensures Producer.Sent(Producer.Lone(f, pt), [f.system], mods, false) ==
            if Wants(pt, mods) then [(f.system, LoneSystem(f, pt.(modules := Producer.Filtered(pt.modules, mods))))] else []
  {
    var (data, groups) := (Producer.Lone(f, pt), map[f.group := map[f.point := pt]]);
    var sent := Producer.FilteredGroups(groups, mods);
    Producer.PointIsSentIff(groups, mods, f.group, f.point);
    if Wants(pt, mods) {
      assert sent.Keys == {f.group} && sent[f.group].Keys == {f.point};
      assert sent[f.group] == map[f.point := pt.(modules := Producer.Filtered(pt.modules, mods))];
      assert sent == map[f.group := map[f.point := pt.(modules := Producer.Filtered(pt.modules, mods))]];
    } else {
      assert f.point !in Producer.FilteredPoints(groups[f.group], mods);
      assert Producer.FilteredPoints(groups[f.group], mods).Keys == {};
      assert sent.Keys == {};
    }
    Producer.SentNone(data, mods, false);
    Producer.SentNext(data, [f.system], 0, mods, false);
    assert [f.system][..0] == [] && [f.system][..1] == [f.system];
  }

  /** A point that nobody wants is not sent. Otherwise one datagram is, and it is
      read as that one point, its wanted modules unchanged. */
  lemma PointArrives(props: Props, f: Frame, pt: Point, mods: set<int>)
    requires props.Valid() && f.Valid() && pt.Valid()
    ensures var sent := Producer.Transforms(props, Producer.Sent(Producer.Lone(f, pt), [f.system], mods, false));
            if !Wants(pt, mods) then sent == []
            else |sent| == 1 && sent[0].0 == f.system &&
                 Read(sent[0].1) == Transform(props.(name := Received(props.name)), f.system, LoneSystem(f, Arriving(props, pt, mods)))
  {
    hide Read, TransformBytes, Received, Producer.Sent;
    LoneSent(f, pt, mods);
    if Wants(pt, mods) {
      var received := props.(name := Received(props.name));
      var cut := pt.(modules := Producer.Filtered(pt.modules, mods));
      var s := LoneSystem(f, cut);
      assert Single(s.groups, f.group, f.point);
      TransformRoundTripIff(props, f.system, s);
      OwnedSingle(s.groups, f.group, f.point, received);
    }
  }

  /** A read system with the time it was received. */
  function Stamp(s: System, now: int): Consumer.HeldSystem {
    Consumer.HeldSystem(s.timestamp, map g | g in s.groups :: map p | p in s.groups[g] :: Consumer.Held(s.groups[g][p], now))
  }

  function Delivery(r: Reading, now: int): Consumer.Systems
    requires r.Transform?
  {
    map[r.number := Stamp(r.system, now)]
  }

  /** A consumer that has subscribed to the system and holds nothing for the
      frame holds the point afterwards, and no other frame has changed. */
  lemma PointIsHeld(systems: Consumer.Systems, props: Props, f: Frame, pt: Point, mods: set<int>, now: int, h: Frame)
    requires props.Valid() && f.Valid() && pt.Valid() && Wants(pt, mods)
    requires f.system in systems && Consumer.At(systems, f).None?
    ensures var sent := Producer.Transforms(props, Producer.Sent(Producer.Lone(f, pt), [f.system], mods, false));
            && |sent| == 1 && Read(sent[0].1).Transform?
            && Consumer.At(Consumer.MergedSystems(systems, Delivery(Read(sent[0].1), now), now), h) ==
               if h == f then Some(Consumer.Held(Arriving(props, pt, mods), now)) else Consumer.At(systems, h)
  {
    hide Read, Received, Producer.Sent, Producer.Transforms, Consumer.MergedSystems;
    PointArrives(props, f, pt, mods);
    var sent := Producer.Transforms(props, Producer.Sent(Producer.Lone(f, pt), [f.system], mods, false));
    var got := Delivery(Read(sent[0].1), now);
    Consumer.MergeIsPointwise(systems, got, now, h);
  }
}

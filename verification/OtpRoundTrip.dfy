/** What reading makes of a written message. */
module OtpRoundTrip {
  import opened Basics
  import opened OtpText
  import opened OtpWire
  import opened OtpMessage
  import opened OtpReader
  import OrderedKeys

  // ------------------------------------------------------------------ modules

  /** The modules of the types below `k`. */
  function Upto(m: Modules, k: int): Modules {
    Modules(if k > 0 then m.pos else None, if k > 1 then m.posVelAccel else None, if k > 2 then m.rot else None,
            if k > 3 then m.rotVelAccel else None, if k > 4 then m.scale else None, if k > 5 then m.frame else None)
  }

  lemma FieldsOfModule(m: Modules, k: int)
    requires m.Valid() && m.Has(k)
    ensures AllFit(ModuleFields(m, k)) && Widths(ModuleFields(m, k)) == TypeWidths(k)
    ensures Apply(Upto(m, k), k, Values(ModuleFields(m, k))) == Upto(m, k + 1)
  {
    Powers();
    var fs := ModuleFields(m, k);
    forall i | 0 <= i < |fs| ensures fs[i].Fits() {}
  }

  lemma ModuleRead(total: nat, m: Modules, k: nat, rest: seq<byte>)
    requires m.Valid() && k < TYPE_COUNT && m.Has(k)
    ensures ReadModule(total, LayerBytes(ModuleLay(m, k)) + rest, Upto(m, k)) == Some((Upto(m, k + 1), rest))
  {
    hide Put, Get, Apply, Upto, ModuleFields, TypeWidths, LayerBytes;
    var fs := ModuleFields(m, k);
    var l := ModuleLay(m, k);
    GetLayer(l, rest);
    FieldsOfModule(m, k);
    PutAppend([F(2, k + 1)], fs);
    assert l.body + rest == Put([F(2, k + 1)]) + (Put(fs) + rest);
    GetNumber(k + 1, Put(fs) + rest);
    GetFitting(fs, TypeWidths(k), rest);
  }

  lemma GetNumber(n: int, rest: seq<byte>)
    requires 0 <= n < 0x1_0000
    ensures Get([2], Put([F(2, n)]) + rest) == Some(([n], rest))
  {
    hide Put, Get;
    Powers();
    GetFitting([F(2, n)], [2], rest);
    assert Values([F(2, n)]) == [n];
  }

  lemma {:induction false} ModulesRead(total: nat, m: Modules, k: nat)
    requires m.Valid() && k <= TYPE_COUNT
    ensures ReadModules(total, Concat(ModuleLays(m, k)), Upto(m, k)) == Some(m)
    decreases TYPE_COUNT - k
  {
    hide Get, LayerBytes, ReadModule, ModuleLay;
    if k == TYPE_COUNT {
      assert Upto(m, k) == m;
    } else {
      ModulesRead(total, m, k + 1);
      if m.Has(k) {
        var rest := Concat(ModuleLays(m, k + 1));
        assert ModuleLays(m, k) == [ModuleLay(m, k)] + ModuleLays(m, k + 1);
        assert ModuleLays(m, k)[1..] == ModuleLays(m, k + 1);
        ModuleRead(total, m, k, rest);
        LayerSize(ModuleLay(m, k));
      } else {
        assert ModuleLays(m, k) == ModuleLays(m, k + 1);
        assert Upto(m, k) == Upto(m, k + 1);
      }
    }
  }

  // ------------------------------------------------------------------- points

  function OwnedPoint(pt: Point, props: Props): Point {
    pt.(name := props.name, cid := props.cid)
  }

  lemma PointFieldsFit(g: int, p: int, pt: Point)
    requires U16(g) && U32(p) && pt.Valid()
    ensures AllFit(PointFields(g, p, pt)) && Widths(PointFields(g, p, pt)) == [1, 2, 4, 8, 1, 4]
    ensures Values(PointFields(g, p, pt)) == [pt.priority, g, p, pt.timestamp, 0, 0]
  {
    Powers();
  }

  lemma PointRead(total: nat, props: Props, g: int, p: int, pt: Point)
    requires U16(g) && U32(p) && pt.Valid()
    ensures ReadPoints(total, props, LayerBytes(PointLay(g, p, pt)), map[]) == Some(map[g := map[p := OwnedPoint(pt, props)]])
  {
    hide Put, Get, ReadModules, PointFields, ModuleLays, LayerBytes;
    var l := PointLay(g, p, pt);
    var modules := Concat(ModuleLays(pt.modules, 0));
    GetLayer(l, []);
    LayerSize(l);
    assert LayerBytes(l) + [] == LayerBytes(l) && l.body + [] == l.body;
    PointFieldsFit(g, p, pt);
    GetFitting(PointFields(g, p, pt), [1, 2, 4, 8, 1, 4], modules);
    ModulesRead(total, pt.modules, 0);
    assert Upto(pt.modules, 0) == NO_MODULES;
    assert Inserted(map[], g, p, OwnedPoint(pt, props)) == map[g := map[p := OwnedPoint(pt, props)]];
  }

  // ----------------------------------------------------------------- messages

  predicate Single(groups: Groups, g: int, p: int) {
    g in groups && p in groups[g] && groups == map[g := map[p := groups[g][p]]]
  }

  /** At most one point, and no group without a point. */
  ghost predicate AtMostOnePoint(groups: Groups) {
    groups == map[] || exists g, p :: Single(groups, g, p)
  }

  lemma {:induction false} ReadsAtMostOne(total: nat, props: Props, r: seq<byte>)
    ensures var o := ReadPoints(total, props, r, map[]); o.Some? ==> AtMostOnePoint(o.value)
    decreases |r|
  {
    hide Get, ReadModules;
    if r != [] {
      var head := Get([2, 2], r);
      if head.Some? {
        var fields := Get([1, 2, 4, 8, 1, 4], head.value.1);
        if fields.Some? {
          var (vs, rest) := fields.value;
          if head.value.0[0] != LAYER_MODULE {
            ReadsAtMostOne(total, props, Sought(head.value.1, head.value.0[1], rest));
          } else {
            var modules := ReadModules(total, rest, NO_MODULES);
            if modules.Some? {
              var pt := Point(vs[0], vs[3], modules.value, props.name, props.cid);
              assert Single(Inserted(map[], vs[1], vs[2], pt), vs[1], vs[2]);
            }
          }
        }
      }
    }
  }

  /** No datagram at all is read as more than one point. */
  lemma NeverMoreThanOnePoint(d: seq<byte>)
    ensures Read(d).Transform? ==> AtMostOnePoint(Read(d).system.groups)
  {
    hide Get, ReadHead, ReadPoints;
    if HEADER <= d {
      var head := ReadHead(d[|HEADER|..]);
      if head.Some? {
        var h := Get([2, 2, 1, 8, 1, 4], head.value.2);
        if h.Some? { ReadsAtMostOne(|d|, head.value.1, h.value.1); }
      }
    }
  }

  /** The points as a reader attributes them: to the sender of the message. */
  function Owned(groups: Groups, props: Props): Groups {
    map g | g in groups :: map p | p in groups[g] :: OwnedPoint(groups[g][p], props)
  }

  lemma OwnedKeepsShape(groups: Groups, props: Props)
    requires AtMostOnePoint(Owned(groups, props))
    ensures AtMostOnePoint(groups)
  {
    var owned := Owned(groups, props);
    if owned == map[] {
      assert forall g :: g in groups ==> g in owned;
      assert groups == map[];
    } else {
      var g, p :| Single(owned, g, p);
      assert g in groups && p in groups[g];
      assert forall h :: h in groups <==> h in owned;
      assert forall q :: q in groups[g] <==> q in owned[g];
      assert groups[g] == map[p := groups[g][p]];
      assert Single(groups, g, p);
    }
  }

  lemma HeadRead(kind: int, props: Props, body: seq<byte>)
    requires U16(kind) && props.Valid()
    ensures ReadHead(LayerBytes(Lay(kind, OtpBody(props, body)))) == Some((kind, props.(name := Received(props.name)), body))
  {
    hide Put, Get, FromProtocolString, ProtocolString;
    Powers();
    var l := Lay(kind, OtpBody(props, body));
    var pages := Put(PageFields(props));
    var name := ProtocolString(props.name);
    var fs := [F(2, kind), F(2, |l.body|)] + [F(1, 0), F(1, 0)];
    PutAppend([F(2, kind), F(2, |l.body|)], [F(1, 0), F(1, 0)]);
    var afterPages := name + body;
    var afterCid := pages + afterPages;
    var afterHead := props.cid + afterCid;
    assert LayerBytes(l) == Put(fs) + afterHead;
    GetPut(fs, afterHead);
    assert Widths(fs) == [2, 2, 1, 1] && Reduced(fs)[0] == kind;
    assert afterHead[..16] == props.cid && afterHead[16..] == afterCid;
    PagesRead(props, afterPages);
    assert afterPages[..32] == name && afterPages[32..] == body;
  }

  lemma PagesRead(props: Props, rest: seq<byte>)
    requires props.Valid()
    ensures Get([4, 2, 2, 1, 4], Put(PageFields(props)) + rest) == Some(([props.folio, props.page, props.lastPage, 0, 0], rest))
  {
    hide Put, Get;
    Powers();
    GetFitting(PageFields(props), [4, 2, 2, 1, 4], rest);
    assert Values(PageFields(props)) == [props.folio, props.page, props.lastPage, 0, 0];
  }

  lemma MessageRead(kind: int, props: Props, body: seq<byte>)
    requires U16(kind) && props.Valid()
    ensures var received := props.(name := Received(props.name));
            var d := MessageBytes(kind, props, body);
            Read(d) == if kind == MESSAGE_TRANSFORM then ReadTransform(|d|, received, body)
                       else if kind == MESSAGE_ADVERT then ReadAdvert(received, body) else Rejected
  {
    hide Put, Get, LayerBytes, ReadHead, OtpBody, ReadTransform, ReadAdvert, Received;
    var d := MessageBytes(kind, props, body);
    HeadRead(kind, props, body);
    assert d[|HEADER|..] == LayerBytes(Lay(kind, OtpBody(props, body)));
    assert d[..|HEADER|] == HEADER;
  }

  lemma SystemRead(total: nat, props: Props, number: int, s: System)
    requires U8(number) && U64(s.timestamp)
    ensures var groups := ReadPoints(total, props, Concat(AllPoints(s)), map[]);
            ReadTransform(total, props, LayerBytes(SystemLay(number, s))) ==
            if groups.None? then Rejected else Transform(props, number, System(s.timestamp, s.fullPointSet, groups.value))
  {
    hide Put, Get, ReadPoints, AllPoints, Concat;
    Powers();
    var l := SystemLay(number, s);
    var fs := [F(2, LAYER_POINT), F(2, |l.body|)] + SystemFields(number, s);
    PutAppend([F(2, LAYER_POINT), F(2, |l.body|)], SystemFields(number, s));
    assert LayerBytes(l) == Put(fs) + Concat(AllPoints(s));
    GetPut(fs, Concat(AllPoints(s)));
    assert Widths(fs) == [2, 2, 1, 8, 1, 4];
    var vs := Reduced(fs);
    assert vs[0] == LAYER_POINT && vs[2] == number && vs[3] == s.timestamp;
    assert vs[4] == if s.fullPointSet then 0x80 else 0;
  }

  lemma SortedOne(k: int)
    ensures OrderedKeys.Sorted({k}) == [k]
  {
    var r := OrderedKeys.Sorted({k});
    assert |r| == 1 && r[0] in r;
  }

  lemma OnePointBytes(s: System, g: int, p: int)
    requires Single(s.groups, g, p)
    ensures Concat(AllPoints(s)) == LayerBytes(PointLay(g, p, s.groups[g][p]))
  {
    hide LayerBytes, PointLay, OrderedKeys.Sorted;
    var points := s.groups[g];
    assert points == map[p := points[p]];
    assert s.groups.Keys == {g} && points.Keys == {p};
    SortedOne(g);
    SortedOne(p);
    var lays := [PointLay(g, p, points[p])];
    assert [p][1..] == [] && [g][1..] == [];
    assert PointLays(g, points, [p]) == lays;
    assert GroupLays(s.groups, [g]) == lays;
    assert lays[1..] == [];
    assert LayerBytes(lays[0]) + [] == LayerBytes(lays[0]);
  }

  /** A transform message comes back as it was, attributed to its sender,
      exactly when it has at most one point and no empty group. */
  lemma TransformRoundTripIff(props: Props, number: int, s: System)
    requires props.Valid() && U8(number) && s.Valid()
    ensures var received := props.(name := Received(props.name));
            Read(TransformBytes(props, number, s)) == Transform(received, number, s.(groups := Owned(s.groups, received)))
            <==> AtMostOnePoint(s.groups)
  {
    hide LayerBytes, SystemLay, ReadTransform, ReadPoints, Received, Read, Concat, PointLay, AllPoints, MessageBytes;
    var received := props.(name := Received(props.name));
    var d := TransformBytes(props, number, s);
    var owned := Owned(s.groups, received);
    MessageRead(MESSAGE_TRANSFORM, props, LayerBytes(SystemLay(number, s)));
    SystemRead(|d|, received, number, s);
    if Read(d) == Transform(received, number, s.(groups := owned)) {
      NeverMoreThanOnePoint(d);
      OwnedKeepsShape(s.groups, received);
    }
    if AtMostOnePoint(s.groups) { ReadsItsPoint(|d|, received, s); }
  }

  lemma ReadsItsPoint(total: nat, props: Props, s: System)
    requires s.Valid() && AtMostOnePoint(s.groups)
    ensures ReadPoints(total, props, Concat(AllPoints(s)), map[]) == Some(Owned(s.groups, props))
  {
    hide LayerBytes, PointLay;
    if s.groups == map[] {
      assert OrderedKeys.Sorted(s.groups.Keys) == [];
      assert Owned(s.groups, props) == map[];
    } else {
      var g, p :| Single(s.groups, g, p);
      OnePointBytes(s, g, p);
      PointRead(total, props, g, p, s.groups[g][p]);
      OwnedSingle(s.groups, g, p, props);
    }
  }

  lemma OwnedSingle(groups: Groups, g: int, p: int, props: Props)
    requires Single(groups, g, p)
    ensures Owned(groups, props) == map[g := map[p := OwnedPoint(groups[g][p], props)]]
  {
    var points := groups[g];
    assert points == map[p := points[p]];
    assert Owned(groups, props)[g] == map[p := OwnedPoint(points[p], props)];
  }

  // ------------------------------------------------------------------- adverts

  predicate AllTypes(types: seq<int>) { forall i :: 0 <= i < |types| ==> 0 <= types[i] < TYPE_COUNT }
  predicate AllU8(numbers: seq<int>) { forall i :: 0 <= i < |numbers| ==> U8(numbers[i]) }
  function Elements(s: seq<int>): set<int> { set i | 0 <= i < |s| :: s[i] }

  lemma {:induction false} TypesRead(types: seq<int>, before: set<int>)
    requires AllTypes(types)
    ensures ReadTypes(TypesBytes(types), before) == Some(before + Elements(types))
    decreases |types|
  {
    hide Put, Get;
    if types == [] {
      assert before + Elements([]) == before;
    } else {
      var fs := [F(2, ESTA), F(2, types[0] + 1)];
      Powers();
      GetFitting(fs, [2, 2], TypesBytes(types[1..]));
      assert Values(fs) == [ESTA, types[0] + 1];
      PutSize(fs);
      TypesRead(types[1..], before + {types[0]});
      HeadElement(types);
      assert before + {types[0]} + Elements(types[1..]) == before + Elements(types);
    }
  }

  lemma HeadElement(s: seq<int>)
    requires s != []
    ensures Elements(s) == {s[0]} + Elements(s[1..])
  {
    forall x | x in Elements(s) ensures x in {s[0]} + Elements(s[1..]) {
      var i :| 0 <= i < |s| && s[i] == x;
      if i > 0 { assert s[1..][i - 1] == x; }
    }
    forall x | x in Elements(s[1..]) ensures x in Elements(s) {
      var i :| 0 <= i < |s[1..]| && s[1..][i] == x;
      assert s[i + 1] == x;
    }
  }

  lemma PutSize(fs: seq<Field>)
    requires fs != [] && fs[0].width > 0
    ensures |Put(fs)| > 0
  {
  }

  lemma {:induction false} SystemsRead(numbers: seq<int>, before: set<int>)
    requires AllU8(numbers)
    ensures ReadSystems(SystemsBytes(numbers), before) == Some(before + Elements(numbers))
    decreases |numbers|
  {
    hide Put, Get;
    if numbers == [] {
      assert before + Elements([]) == before;
    } else {
      var fs := [F(1, numbers[0])];
      Powers();
      GetFitting(fs, [1], SystemsBytes(numbers[1..]));
      assert Values(fs) == [numbers[0]];
      PutSize(fs);
      SystemsRead(numbers[1..], before + {numbers[0]});
      HeadElement(numbers);
      assert before + {numbers[0]} + Elements(numbers[1..]) == before + Elements(numbers);
    }
  }

  lemma SortedElements(s: set<int>)
    ensures Elements(OrderedKeys.Sorted(s)) == s
    ensures forall i :: 0 <= i < |OrderedKeys.Sorted(s)| ==> OrderedKeys.Sorted(s)[i] in s
  {
    hide OrderedKeys.Sorted;
    var r := OrderedKeys.Sorted(s);
    forall i | 0 <= i < |r| ensures r[i] in s { assert r[i] in r; }
    forall x | x in s ensures x in Elements(r) {
      assert x in r;
      var i :| 0 <= i < |r| && r[i] == x;
    }
  }

  /** The fields at the head of a layer, the length among them. */
  lemma LayerHead(number: int, fs: seq<Field>, inner: seq<byte>) returns (length: int)
    requires U16(number) && AllFit(fs)
    ensures Get([2, 2] + Widths(fs), LayerBytes(Lay(number, Put(fs) + inner))) == Some(([number, length] + Values(fs), inner))
  {
    hide Put, Get;
    Powers();
    var l := Lay(number, Put(fs) + inner);
    var all := [F(2, number), F(2, |l.body|)] + fs;
    PutAppend([F(2, number), F(2, |l.body|)], fs);
    assert LayerBytes(l) == Put(all) + inner;
    GetPut(all, inner);
    FittingIsKept(fs);
    length := |l.body| % 0x1_0000;
    assert Widths(all) == [2, 2] + Widths(fs);
    assert Reduced(all) == [number, length] + Reduced(fs);
  }

  /** Module adverts come back with the same set of types. */
  lemma ModuleAdvertRoundTrip(props: Props, types: set<int>)
    requires props.Valid() && forall t :: t in types ==> 0 <= t < TYPE_COUNT
    ensures Read(ModuleAdvertBytes(props, types)) == ModuleAdvert(props.(name := Received(props.name)), types)
  {
    hide Put, Get, LayerBytes, Received, Read, ReadTypes, TypesBytes, OrderedKeys.Sorted;
    var (list, zero) := (ModuleListLay(types), [F(4, 0)]);
    Powers();
    MessageRead(MESSAGE_ADVERT, props, LayerBytes(AdvertLay(ADVERT_MODULE, list)));
    assert Widths(zero) == [4] && Values(zero) == [0];
    assert [2, 2] + [4] == [2, 2, 4];
    var outer := LayerHead(ADVERT_MODULE, zero, LayerBytes(list));
    var inner := LayerHead(ADVERT_LIST, zero, TypesBytes(OrderedKeys.Sorted(types)));
    SortedElements(types);
    TypesRead(OrderedKeys.Sorted(types), {});
    assert {} + types == types;
  }

  /** System adverts come back with the same systems and the same operation. */
  lemma SystemAdvertRoundTrip(props: Props, systems: set<int>, response: bool)
    requires props.Valid() && forall s :: s in systems ==> U8(s)
    ensures Read(SystemAdvertBytes(props, systems, response)) == SystemAdvert(props.(name := Received(props.name)), systems, response)
  {
    hide Put, Get, LayerBytes, Received, Read, ReadSystems, SystemsBytes, OrderedKeys.Sorted;
    var (list, zero) := (SystemListLay(systems, response), [F(4, 0)]);
    var fs := [F(1, if response then 0x80 else 0), F(4, 0)];
    Powers();
    MessageRead(MESSAGE_ADVERT, props, LayerBytes(AdvertLay(ADVERT_SYSTEM, list)));
    assert Widths(zero) == [4] && Values(zero) == [0] && Widths(fs) == [1, 4] && Values(fs)[0] == fs[0].value;
    assert [2, 2] + [4] == [2, 2, 4] && [2, 2] + [1, 4] == [2, 2, 1, 4];
    var outer := LayerHead(ADVERT_SYSTEM, zero, LayerBytes(list));
    var inner := LayerHead(ADVERT_LIST, fs, SystemsBytes(OrderedKeys.Sorted(systems)));
    SortedElements(systems);
    SystemsRead(OrderedKeys.Sorted(systems), {});
    assert {} + systems == systems;
  }

  // ------------------------------------------------------------------- lengths

  lemma PointFieldsSize(g: int, p: int, pt: Point)
    ensures |Put(PointFields(g, p, pt))| == 20
  {
    hide BE;
    var f0 := PointFields(g, p, pt);
    var f1 := f0[1..];
    var f2 := f1[1..];
    var f3 := f2[1..];
    var f4 := f3[1..];
    var f5 := f4[1..];
    assert f5 == [F(4, 0)] && f5[1..] == [];
    assert |Put(f5)| == 4;
    assert |Put(f4)| == 5;
    assert |Put(f3)| == 13;
    assert |Put(f2)| == 17;
    assert |Put(f1)| == 19;
  }

  lemma SystemFieldsSize(number: int, s: System)
    ensures |Put(SystemFields(number, s))| == 14
  {
    hide BE;
    var f0 := SystemFields(number, s);
    var f1 := f0[1..];
    var f2 := f1[1..];
    var f3 := f2[1..];
    assert f3 == [F(4, 0)] && f3[1..] == [];
    assert |Put(f3)| == 4;
    assert |Put(f2)| == 5;
    assert |Put(f1)| == 13;
  }

  lemma HeadSize(props: Props, body: seq<byte>)
    requires props.Valid()
    ensures |OtpBody(props, body)| == 63 + |body| && OtpBody(props, body)[63..] == body
  {
    hide BE;
    var zeros := [F(1, 0), F(1, 0)];
    assert zeros[1..] == [F(1, 0)] && zeros[1..][1..] == [];
    assert |Put(zeros[1..])| == 1;
    var f0 := PageFields(props);
    var f1 := f0[1..];
    var f2 := f1[1..];
    var f3 := f2[1..];
    var f4 := f3[1..];
    assert f4 == [F(4, 0)] && f4[1..] == [];
    assert |Put(f4)| == 4;
    assert |Put(f3)| == 5;
    assert |Put(f2)| == 7;
    assert |Put(f1)| == 9;
  }

  lemma {:induction false} PutBound(fs: seq<Field>)
    requires forall i :: 0 <= i < |fs| ==> fs[i].width <= 8
    ensures |Put(fs)| <= 8 * |fs|
    decreases |fs|
  {
    hide BE;
    if fs != [] { PutBound(fs[1..]); }
  }

  lemma {:induction false} ModuleLaysFit(m: Modules, k: nat)
    requires k <= TYPE_COUNT
    ensures LaysFit(ModuleLays(m, k))
    decreases TYPE_COUNT - k
  {
    hide Put;
    if k < TYPE_COUNT {
      ModuleLaysFit(m, k + 1);
      if m.Has(k) { PutBound([F(2, k + 1)] + ModuleFields(m, k)); }
    }
  }

  lemma {:induction false} PointLaysNumber(g: int, points: Points, ids: seq<int>)
    requires forall p :: p in ids ==> p in points
    ensures forall i :: 0 <= i < |PointLays(g, points, ids)| ==> PointLays(g, points, ids)[i].number == LAYER_MODULE
    decreases |ids|
  {
    hide Put, Concat;
    if ids != [] { PointLaysNumber(g, points, ids[1..]); }
  }

  lemma {:induction false} GroupLaysNumber(groups: Groups, ids: seq<int>)
    requires forall i :: 0 <= i < |ids| ==> ids[i] in groups
    ensures forall i :: 0 <= i < |GroupLays(groups, ids)| ==> GroupLays(groups, ids)[i].number == LAYER_MODULE
    decreases |ids|
  {
    hide PointLays, OrderedKeys.Sorted;
    if ids != [] {
      PointLaysNumber(ids[0], groups[ids[0]], OrderedKeys.Sorted(groups[ids[0]].Keys));
      GroupLaysNumber(groups, ids[1..]);
    }
  }

  /** Of one point, any number of modules: the lengths alone delimit them. */
  lemma ModuleLengths(g: int, p: int, pt: Point)
    ensures var body := PointLay(g, p, pt).body; |body| >= 20 && Walk(body[20..]) == Some(ModuleLays(pt.modules, 0))
  {
    hide Put, Concat, Walk, ModuleLays;
    PointFieldsSize(g, p, pt);
    var body := PointLay(g, p, pt).body;
    assert body[20..] == Concat(ModuleLays(pt.modules, 0));
    ModuleLaysFit(pt.modules, 0);
    WalkConcat(ModuleLays(pt.modules, 0));
  }

  /** The outermost length is right exactly while the body of the OTP layer is
      under 64 KiB, and then every length field below it delimits exactly what
      it is for, however many groups, points and modules the message has. */
  lemma LengthsDelimitIff(props: Props, number: int, s: System)
    requires props.Valid() && U8(number)
    ensures var d := TransformBytes(props, number, s);
            var otp := Lay(MESSAGE_TRANSFORM, OtpBody(props, LayerBytes(SystemLay(number, s))));
            && (Walk(d[12..]) == Some([otp]) <==> |d| < 0x1_0010)
            && |otp.body| >= 63 && |SystemLay(number, s).body| >= 14
            && (|d| < 0x1_0010 ==> Walk(otp.body[63..]) == Some([SystemLay(number, s)]))
            && (|d| < 0x1_0010 ==> Walk(SystemLay(number, s).body[14..]) == Some(AllPoints(s)))
  {
    hide Put, Concat, Walk, AllPoints, OtpBody, LayerBytes;
    var system := SystemLay(number, s);
    var otp := Lay(MESSAGE_TRANSFORM, OtpBody(props, LayerBytes(system)));
    HeadSize(props, LayerBytes(system));
    SystemFieldsSize(number, s);
    LayerSize(otp);
    LayerSize(system);
    assert TransformBytes(props, number, s)[12..] == LayerBytes(otp);
    WalkOne(otp);
    WalkOne(system);
    assert system.body[14..] == Concat(AllPoints(s));
    if |otp.body| >= 0x1_0000 { return; }
    forall i | 0 <= i < |AllPoints(s)| ensures LayFits(AllPoints(s)[i]) {
      ConcatBounds(AllPoints(s), i);
      AllArePoints(s, i);
    }
    WalkConcat(AllPoints(s));
  }

  lemma AllArePoints(s: System, i: nat)
    requires i < |AllPoints(s)|
    ensures AllPoints(s)[i].number == LAYER_MODULE
  {
    hide GroupLays, OrderedKeys.Sorted;
    var ids := OrderedKeys.Sorted(s.groups.Keys);
    forall j | 0 <= j < |ids| ensures ids[j] in s.groups { assert ids[j] in ids; }
    GroupLaysNumber(s.groups, ids);
  }

  lemma WalkOne(l: Lay)
    requires 0 <= l.number < 0x1_0000
    ensures Walk(LayerBytes(l)) == Some([l]) <==> |l.body| < 0x1_0000
  {
    hide LayerBytes, Get;
    assert LayerBytes(l) + [] == LayerBytes(l) && l.body + [] == l.body;
    if |l.body| < 0x1_0000 {
      WalkConcat([l]);
      assert [l][1..] == [];
    } else {
      GetLayer(l, []);
      LayerSize(l);
      assert LayerBytes(l) != [];
      var w := Walk(LayerBytes(l));
      if w.Some? { assert |w.value[0].body| == |l.body| % 0x1_0000; }
    }
  }
}

/** The writing half of `Message`: every layer is written with a zero length,
    and the length is patched in by seeking back once the layer is complete. */
module OtpWriter {
  import opened Basics
  import opened OtpText
  import opened OtpWire
  import opened OtpMessage
  import OrderedKeys

  function Overwritten(buf: seq<byte>, pos: nat, b: seq<byte>): seq<byte>
    requires pos <= |buf|
  {
    buf[..pos] + b + (if pos + |b| <= |buf| then buf[pos + |b|..] else [])
  }

  /** A `QDataStream` over a growing byte array. */
  class Stream {
    var buf: seq<byte>
    var pos: nat

    constructor ()
      ensures buf == [] && pos == 0
    {
      buf, pos := [], 0;
    }

    ghost predicate AtEnd() reads this { pos == |buf| }

    method Raw(b: seq<byte>)
      requires pos <= |buf|
      modifies this
      ensures buf == Overwritten(old(buf), old(pos), b) && pos == old(pos) + |b|
      ensures old(AtEnd()) ==> AtEnd() && buf == old(buf) + b
    {
      buf := Overwritten(buf, pos, b);
      pos := pos + |b|;
    }

    method Seek(p: nat)
      requires p <= |buf|
      modifies this`pos
      ensures pos == p
    {
      pos := p;
    }

    method Write(fs: seq<Field>)
      requires pos <= |buf|
      modifies this
      ensures buf == Overwritten(old(buf), old(pos), Put(fs)) && pos == old(pos) + |Put(fs)|
      ensures old(AtEnd()) ==> AtEnd() && buf == old(buf) + Put(fs)
    {
      Raw(Put(fs));
    }

    /** Patches the length of the layer `l` begun behind `start`: the layer
        becomes right and no other byte changes. */
    method PatchLength(lengthPos: nat, ghost start: seq<byte>, ghost l: Lay)
      requires AtEnd() && lengthPos == |start| + 2
      requires buf == start + Put([F(2, l.number)]) + Put([F(2, 0)]) + l.body
      modifies this
      ensures AtEnd() && buf == start + LayerBytes(l)
    {
      PutTwo(l.number, |l.body|);
      PutOne(l.number);
      PutOne(0);
      PutOne(|l.body|);
      var p := pos;
      Seek(lengthPos);
      Write([F(2, p - lengthPos - 2)]);
      Seek(p);
      assert buf == start + BE(2, l.number) + BE(2, |l.body|) + l.body;
    }
  }

  lemma PutOne(n: int)
    ensures Put([F(2, n)]) == BE(2, n)
  {
    assert [F(2, n)][1..] == [];
  }

  lemma PutTwo(n: int, m: int)
    ensures Put([F(2, n), F(2, m)]) == BE(2, n) + BE(2, m)
  {
    PutOne(m);
    assert [F(2, n), F(2, m)][1..] == [F(2, m)];
  }

  lemma PutMore(f: Field, fs: seq<Field>)
    ensures Put([f] + fs) == Put([f]) + Put(fs)
  {
    assert ([f] + fs)[1..] == fs && [f][1..] == [];
  }

  /** Begins a layer: its number, a zero length and the fields in front of its
      inner layers. */
  method OpenLayer(st: Stream, number: int, fs: seq<Field>) returns (lengthPos: nat)
    requires st.AtEnd()
    modifies st
    ensures st.AtEnd() && lengthPos == |old(st.buf)| + 2
    ensures st.buf == old(st.buf) + Put([F(2, number)]) + Put([F(2, 0)]) + Put(fs)
  {
    st.Write([F(2, number)]);
    PutOne(number);
    lengthPos := st.pos;
    PutMore(F(2, 0), fs);
    st.Write([F(2, 0)] + fs);
  }

  method WriteModule(st: Stream, m: Modules, k: nat)
    requires st.AtEnd() && k < TYPE_COUNT
    modifies st
    ensures st.AtEnd()
    ensures st.buf == old(st.buf) + if m.Has(k) then LayerBytes(ModuleLay(m, k)) else []
  {
    if !m.Has(k) { return; }
    ghost var start := st.buf;
    var lengthPos := OpenLayer(st, ESTA, [F(2, k + 1)] + ModuleFields(m, k));
    st.PatchLength(lengthPos, start, ModuleLay(m, k));
  }

  method WriteModules(st: Stream, m: Modules)
    requires st.AtEnd()
    modifies st
    ensures st.AtEnd() && st.buf == old(st.buf) + Concat(ModuleLays(m, 0))
  {
    hide Concat, LayerBytes, ModuleLay, ModuleLays;
    ghost var target := st.buf + Concat(ModuleLays(m, 0));
    for k := 0 to TYPE_COUNT
      invariant st.AtEnd() && st.buf + Concat(ModuleLays(m, k)) == target
    {
      ModulesNext(m, k);
      WriteModule(st, m, k);
    }
    ModulesDone(m);
  }

  lemma ModulesDone(m: Modules)
    ensures Concat(ModuleLays(m, TYPE_COUNT)) == []
  {
  }

  method WritePoint(st: Stream, g: int, p: int, pt: Point)
    requires st.AtEnd()
    modifies st
    ensures st.AtEnd() && st.buf == old(st.buf) + LayerBytes(PointLay(g, p, pt))
  {
    hide Put, Concat, ModuleLays, LayerBytes;
    ghost var start := st.buf;
    var lengthPos := OpenLayer(st, LAYER_MODULE, PointFields(g, p, pt));
    WriteModules(st, pt.modules);
    st.PatchLength(lengthPos, start, PointLay(g, p, pt));
  }

  lemma ModulesNext(m: Modules, k: nat)
    requires k < TYPE_COUNT
    ensures Concat(ModuleLays(m, k)) ==
            (if m.Has(k) then LayerBytes(ModuleLay(m, k)) else []) + Concat(ModuleLays(m, k + 1))
  {
    hide LayerBytes, ModuleLay;
    if m.Has(k) {
      assert ModuleLays(m, k) == [ModuleLay(m, k)] + ModuleLays(m, k + 1);
      assert ModuleLays(m, k)[1..] == ModuleLays(m, k + 1);
    } else {
      assert ModuleLays(m, k) == ModuleLays(m, k + 1);
      assert [] + Concat(ModuleLays(m, k + 1)) == Concat(ModuleLays(m, k + 1));
    }
  }

  method WriteGroup(st: Stream, g: int, points: Points)
    requires st.AtEnd()
    modifies st
    ensures st.AtEnd()
    ensures st.buf == old(st.buf) + Concat(PointLays(g, points, OrderedKeys.Sorted(points.Keys)))
  {
    hide Concat, LayerBytes, PointLay, PointLays, OrderedKeys.Sorted;
    var ids := OrderedKeys.Sorted(points.Keys);
    ghost var target := st.buf + Concat(PointLays(g, points, ids));
    assert ids[0..] == ids;
    for i := 0 to |ids|
      invariant st.AtEnd() && st.buf + Concat(PointLays(g, points, ids[i..])) == target
    {
      PointsNext(g, points, ids, i);
      assert ids[i] in ids;
      WritePoint(st, g, ids[i], points[ids[i]]);
    }
    PointsDone(g, points, ids);
  }

  lemma PointsDone(g: int, points: Points, ids: seq<int>)
    requires forall p :: p in ids ==> p in points
    ensures Concat(PointLays(g, points, ids[|ids|..])) == []
  {
    assert ids[|ids|..] == [];
  }

  lemma PointsNext(g: int, points: Points, ids: seq<int>, i: nat)
    requires i < |ids| && forall p :: p in ids ==> p in points
    ensures ids[i] in points
    ensures Concat(PointLays(g, points, ids[i..])) ==
            LayerBytes(PointLay(g, ids[i], points[ids[i]])) + Concat(PointLays(g, points, ids[i + 1..]))
  {
    hide LayerBytes, PointLay;
    assert ids[i..][1..] == ids[i + 1..];
    assert PointLays(g, points, ids[i..])[1..] == PointLays(g, points, ids[i + 1..]);
  }

  lemma GroupsNext(groups: Groups, ids: seq<int>, i: nat)
    requires i < |ids| && forall i :: 0 <= i < |ids| ==> ids[i] in groups
    ensures ids[i] in groups
    ensures var points := groups[ids[i]];
            Concat(GroupLays(groups, ids[i..])) ==
            Concat(PointLays(ids[i], points, OrderedKeys.Sorted(points.Keys))) + Concat(GroupLays(groups, ids[i + 1..]))
  {
    hide PointLays, OrderedKeys.Sorted;
    var points := groups[ids[i]];
    assert ids[i..][1..] == ids[i + 1..];
    ConcatAppend(PointLays(ids[i], points, OrderedKeys.Sorted(points.Keys)), GroupLays(groups, ids[i + 1..]));
  }

  /** `ToDatagramTransform`: only the system with the lowest number is written,
      and a message without one is refused. */
  method WriteTransform(st: Stream, systems: map<int, System>) returns (ok: bool)
    requires st.AtEnd()
    modifies st
    ensures ok == (systems.Keys != {})
    ensures !ok ==> st.buf == old(st.buf)
    ensures ok ==> var n := OrderedKeys.Minimum(systems.Keys); st.AtEnd() && st.buf == old(st.buf) + LayerBytes(SystemLay(n, systems[n]))
  {
    hide Put, LayerBytes, AllPoints, OrderedKeys.Minimum;
    if systems.Keys == {} { return false; }
    var n := OrderedKeys.Minimum(systems.Keys);
    var s := systems[n];
    ghost var start := st.buf;
    var lengthPos := OpenLayer(st, LAYER_POINT, SystemFields(n, s));
    WriteGroups(st, s);
    st.PatchLength(lengthPos, start, SystemLay(n, s));
    ok := true;
  }

  method WriteGroups(st: Stream, s: System)
    requires st.AtEnd()
    modifies st
    ensures st.AtEnd() && st.buf == old(st.buf) + Concat(AllPoints(s))
  {
    hide Concat, PointLays, GroupLays, OrderedKeys.Sorted;
    var ids := OrderedKeys.Sorted(s.groups.Keys);
    ghost var target := st.buf + Concat(GroupLays(s.groups, ids));
    assert ids[0..] == ids;
    for i := 0 to |ids|
      invariant st.AtEnd() && st.buf + Concat(GroupLays(s.groups, ids[i..])) == target
    {
      GroupsNext(s.groups, ids, i);
      assert ids[i] in ids;
      WriteGroup(st, ids[i], s.groups[ids[i]]);
    }
    GroupsDone(s.groups, ids);
  }

  lemma GroupsDone(groups: Groups, ids: seq<int>)
    requires forall i :: 0 <= i < |ids| ==> ids[i] in groups
    ensures Concat(GroupLays(groups, ids[|ids|..])) == []
  {
    assert ids[|ids|..] == [];
  }

  /** Everything in front of the body: the fixed header, the number of the
      message and the OTP layer with a zero length. */
  function Head(kind: int, props: Props): seq<byte> {
    HEADER + Put([F(2, kind)]) + Put([F(2, 0)]) + OtpBody(props, [])
  }

  method WriteHead(st: Stream, kind: int, props: Props) returns (lengthPos: nat)
    requires st.AtEnd() && st.buf == []
    modifies st
    ensures st.AtEnd() && st.buf == Head(kind, props) && lengthPos == |HEADER| + 2
  {
    hide Put, ProtocolString, PageFields;
    st.Raw(HEADER);
    lengthPos := OpenLayer(st, kind, [F(1, 0), F(1, 0)]);
    st.Raw(props.cid);
    st.Write(PageFields(props));
    var name := ToProtocolString(props.name);
    st.Raw(name);
    HeadParts(kind, props);
  }

  lemma HeadParts(kind: int, props: Props)
    ensures Head(kind, props) ==
            [] + HEADER + Put([F(2, kind)]) + Put([F(2, 0)]) + Put([F(1, 0), F(1, 0)]) + props.cid + Put(PageFields(props)) + ProtocolString(props.name)
  {
    hide Put, ProtocolString, PageFields;
  }

  method PatchHead(st: Stream, lengthPos: nat, ghost kind: int, ghost props: Props, ghost body: seq<byte>)
    requires st.AtEnd() && st.buf == Head(kind, props) + body && lengthPos == |HEADER| + 2
    modifies st
    ensures st.buf == MessageBytes(kind, props, body)
  {
    assert OtpBody(props, []) + body == OtpBody(props, body);
    st.PatchLength(lengthPos, HEADER, Lay(kind, OtpBody(props, body)));
  }

  /** `ToDatagram` for a transform message. */
  method TransformDatagram(props: Props, systems: map<int, System>) returns (ok: bool, datagram: seq<byte>)
    ensures ok == (systems.Keys != {})
    ensures ok ==> var n := OrderedKeys.Minimum(systems.Keys); datagram == TransformBytes(props, n, systems[n])
  {
    var st := new Stream();
    var lengthPos := WriteHead(st, MESSAGE_TRANSFORM, props);
    ok := WriteTransform(st, systems);
    if ok {
      ghost var n := OrderedKeys.Minimum(systems.Keys);
      PatchHead(st, lengthPos, MESSAGE_TRANSFORM, props, LayerBytes(SystemLay(n, systems[n])));
    }
    datagram := st.buf;
  }

  /** `ToDatagram` for a module advert; an empty list is refused. */
  method ModuleAdvertDatagram(props: Props, types: set<int>) returns (ok: bool, datagram: seq<byte>)
    ensures ok == (types != {})
    ensures ok ==> datagram == ModuleAdvertBytes(props, types)
  {
    hide Put, LayerBytes, TypesBytes, Head, MessageBytes, OrderedKeys.Sorted;
    var st := new Stream();
    var lengthPos := WriteHead(st, MESSAGE_ADVERT, props);
    ghost var outer := st.buf;
    var advertPos := OpenLayer(st, ADVERT_MODULE, [F(4, 0)]);
    ghost var inner := st.buf;
    var listPos := OpenLayer(st, ADVERT_LIST, [F(4, 0)]);
    var modulesPos := st.pos;
    WriteTypes(st, OrderedKeys.Sorted(types));
    TypesSize(OrderedKeys.Sorted(types));
    if st.pos <= modulesPos { return false, st.buf; }
    st.PatchLength(listPos, inner, ModuleListLay(types));
    st.PatchLength(advertPos, outer, AdvertLay(ADVERT_MODULE, ModuleListLay(types)));
    PatchHead(st, lengthPos, MESSAGE_ADVERT, props, LayerBytes(AdvertLay(ADVERT_MODULE, ModuleListLay(types))));
    return true, st.buf;
  }

  lemma TypesSize(types: seq<int>)
    ensures types == [] <==> TypesBytes(types) == []
  {
    if types != [] {
      PutTwo(ESTA, types[0] + 1);
    }
  }

  method WriteTypes(st: Stream, types: seq<int>)
    requires st.AtEnd()
    modifies st
    ensures st.AtEnd() && st.buf == old(st.buf) + TypesBytes(types)
  {
    ghost var target := st.buf + TypesBytes(types);
    for i := 0 to |types|
      invariant st.AtEnd() && st.buf + TypesBytes(types[i..]) == target
    {
      assert types[i..][1..] == types[i + 1..];
      st.Write([F(2, ESTA), F(2, types[i] + 1)]);
    }
    assert types[|types|..] == [];
  }

  method WriteSystems(st: Stream, numbers: seq<int>)
    requires st.AtEnd()
    modifies st
    ensures st.AtEnd() && st.buf == old(st.buf) + SystemsBytes(numbers)
  {
    ghost var target := st.buf + SystemsBytes(numbers);
    for i := 0 to |numbers|
      invariant st.AtEnd() && st.buf + SystemsBytes(numbers[i..]) == target
    {
      assert numbers[i..][1..] == numbers[i + 1..];
      st.Write([F(1, numbers[i])]);
    }
    assert numbers[|numbers|..] == [];
  }

  /** `ToDatagram` for a system advert. */
  method SystemAdvertDatagram(props: Props, systems: set<int>, response: bool) returns (datagram: seq<byte>)
    ensures datagram == SystemAdvertBytes(props, systems, response)
  {
    hide Put, LayerBytes, SystemsBytes, Head, MessageBytes, OrderedKeys.Sorted;
    var st := new Stream();
    var lengthPos := WriteHead(st, MESSAGE_ADVERT, props);
    ghost var outer := st.buf;
    var advertPos := OpenLayer(st, ADVERT_SYSTEM, [F(4, 0)]);
    ghost var inner := st.buf;
    var listPos := OpenLayer(st, ADVERT_LIST, [F(1, if response then 0x80 else 0), F(4, 0)]);
    WriteSystems(st, OrderedKeys.Sorted(systems));
    st.PatchLength(listPos, inner, SystemListLay(systems, response));
    st.PatchLength(advertPos, outer, AdvertLay(ADVERT_SYSTEM, SystemListLay(systems, response)));
    PatchHead(st, lengthPos, MESSAGE_ADVERT, props, LayerBytes(AdvertLay(ADVERT_SYSTEM, SystemListLay(systems, response))));
    datagram := st.buf;
  }
}

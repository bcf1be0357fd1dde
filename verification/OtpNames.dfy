/** Name adverts: what is written streams every name behind its length, what is
    read expects the name alone. */
module OtpNames {
  import opened Basics
  import opened OtpText
  import opened OtpWire
  import opened OtpMessage
  import opened OtpWriter
  import opened OtpRoundTrip
  import Reader = OtpReader
  import OrderedKeys

  // ------------------------------------------------------------------ writing

  method WriteNameEntry(st: Stream, s: int, g: int, p: int, name: Text)
    requires st.AtEnd()
    modifies st
    ensures st.AtEnd() && st.buf == old(st.buf) + NameEntry(s, g, p, name)
  {
    hide Put, ProtocolString;
    st.Write([F(1, s), F(2, g), F(4, p)]);
    var utf8 := ToProtocolString(name);
    st.Write([F(4, |utf8|)]);
    st.Raw(utf8);
  }

  method WritePointNames(st: Stream, s: int, g: int, points: Points)
    requires st.AtEnd()
    modifies st
    ensures st.AtEnd() && st.buf == old(st.buf) + PointNames(s, g, points, OrderedKeys.Sorted(points.Keys))
  {
    hide OrderedKeys.Sorted, NameEntry;
    var ids := OrderedKeys.Sorted(points.Keys);
    ghost var target := st.buf + PointNames(s, g, points, ids);
    assert ids[0..] == ids;
    for i := 0 to |ids|
      invariant st.AtEnd() && st.buf + PointNames(s, g, points, ids[i..]) == target
    {
      assert ids[i..][1..] == ids[i + 1..];
      assert ids[i] in ids;
      WriteNameEntry(st, s, g, ids[i], points[ids[i]].name);
    }
    assert ids[|ids|..] == [];
  }

  method WriteGroupNames(st: Stream, s: int, groups: Groups)
    requires st.AtEnd()
    modifies st
    ensures st.AtEnd() && st.buf == old(st.buf) + GroupNames(s, groups, OrderedKeys.Sorted(groups.Keys))
  {
    hide OrderedKeys.Sorted, PointNames, GroupNames;
    var ids := OrderedKeys.Sorted(groups.Keys);
    KeysSorted(groups);
    ghost var target := st.buf + GroupNames(s, groups, ids);
    assert ids[0..] == ids;
    for i := 0 to |ids|
      invariant st.AtEnd() && st.buf + GroupNames(s, groups, ids[i..]) == target
    {
      GroupNamesNext(s, groups, ids, i);
      WritePointNames(st, s, ids[i], groups[ids[i]]);
    }
    GroupNamesNext(s, groups, ids, |ids|);
  }

  lemma GroupNamesNext(s: int, groups: Groups, ids: seq<int>, i: nat)
    requires i <= |ids| && forall i :: 0 <= i < |ids| ==> ids[i] in groups
    ensures GroupNames(s, groups, ids[i..]) ==
            if i == |ids| then []
            else PointNames(s, ids[i], groups[ids[i]], OrderedKeys.Sorted(groups[ids[i]].Keys)) + GroupNames(s, groups, ids[i + 1..])
  {
    hide PointNames, OrderedKeys.Sorted;
    if i < |ids| { assert ids[i..][1..] == ids[i + 1..]; }
  }

  method WriteSystemNames(st: Stream, systems: map<int, System>)
    requires st.AtEnd()
    modifies st
    ensures st.AtEnd() && st.buf == old(st.buf) + SystemNames(systems, OrderedKeys.Sorted(systems.Keys))
  {
    hide OrderedKeys.Sorted, GroupNames, SystemNames;
    var ids := OrderedKeys.Sorted(systems.Keys);
    KeysSorted(systems);
    ghost var target := st.buf + SystemNames(systems, ids);
    assert ids[0..] == ids;
    for i := 0 to |ids|
      invariant st.AtEnd() && st.buf + SystemNames(systems, ids[i..]) == target
    {
      SystemNamesNext(systems, ids, i);
      WriteGroupNames(st, ids[i], systems[ids[i]].groups);
    }
    SystemNamesNext(systems, ids, |ids|);
  }

  lemma SystemNamesNext(systems: map<int, System>, ids: seq<int>, i: nat)
    requires i <= |ids| && forall i :: 0 <= i < |ids| ==> ids[i] in systems
    ensures SystemNames(systems, ids[i..]) ==
            if i == |ids| then []
            else GroupNames(ids[i], systems[ids[i]].groups, OrderedKeys.Sorted(systems[ids[i]].groups.Keys)) + SystemNames(systems, ids[i + 1..])
  {
    hide GroupNames, OrderedKeys.Sorted;
    if i < |ids| { assert ids[i..][1..] == ids[i + 1..]; }
  }

  lemma KeysSorted<T>(m: map<int, T>)
    ensures var ids := OrderedKeys.Sorted(m.Keys); forall i :: 0 <= i < |ids| ==> ids[i] in m
  {
    hide OrderedKeys.Sorted;
    var ids := OrderedKeys.Sorted(m.Keys);
    forall i | 0 <= i < |ids| ensures ids[i] in m { assert ids[i] in ids; }
  }

  /** `ToDatagram` for a name advert. */
  method NameAdvertDatagram(props: Props, systems: map<int, System>) returns (datagram: seq<byte>)
    ensures datagram == NameAdvertBytes(props, systems)
  {
    hide Put, LayerBytes, SystemNames, Head, MessageBytes, OrderedKeys.Sorted;
    var st := new Stream();
    var lengthPos := WriteHead(st, MESSAGE_ADVERT, props);
    ghost var outer := st.buf;
    var advertPos := OpenLayer(st, ADVERT_NAME, [F(4, 0)]);
    ghost var inner := st.buf;
    var listPos := OpenLayer(st, ADVERT_LIST, [F(1, 0), F(4, 0)]);
    WriteSystemNames(st, systems);
    st.PatchLength(listPos, inner, NameListLay(systems));
    st.PatchLength(advertPos, outer, AdvertLay(ADVERT_NAME, NameListLay(systems)));
    PatchHead(st, lengthPos, MESSAGE_ADVERT, props, LayerBytes(AdvertLay(ADVERT_NAME, NameListLay(systems))));
    datagram := st.buf;
  }

  // ------------------------------------------------------------------ reading

  function GroupCount(groups: Groups, ids: seq<int>): nat
    requires forall i :: 0 <= i < |ids| ==> ids[i] in groups
  {
    if ids == [] then 0 else |groups[ids[0]]| + GroupCount(groups, ids[1..])
  }

  function SystemCount(systems: map<int, System>, ids: seq<int>): nat
    requires forall i :: 0 <= i < |ids| ==> ids[i] in systems
  {
    if ids == [] then 0
    else
      var groups := systems[ids[0]].groups;
      GroupCount(groups, OrderedKeys.Sorted(groups.Keys)) + SystemCount(systems, ids[1..])
  }

  /** The points of all systems. */
  function PointCount(systems: map<int, System>): nat {
    SystemCount(systems, OrderedKeys.Sorted(systems.Keys))
  }

  lemma EntrySize(s: int, g: int, p: int, name: Text)
    ensures |NameEntry(s, g, p, name)| == 43
  {
    hide BE, ProtocolString;
    var fs := [F(1, s), F(2, g), F(4, p)];
    assert fs[1..][1..] == [F(4, p)] && [F(4, p)][1..] == [];
    assert [F(4, NAME_BYTES + 1)][1..] == [];
    assert |Put(fs[1..][1..])| == 4;
    assert |Put(fs[1..])| == 6;
  }

  lemma {:induction false} PointNamesSize(s: int, g: int, points: Points, ids: seq<int>)
    requires forall p :: p in ids ==> p in points
    ensures |PointNames(s, g, points, ids)| == 43 * |ids|
    decreases |ids|
  {
    hide NameEntry;
    if ids != [] {
      EntrySize(s, g, ids[0], points[ids[0]].name);
      PointNamesSize(s, g, points, ids[1..]);
    }
  }

  lemma {:induction false} GroupNamesSize(s: int, groups: Groups, ids: seq<int>)
    requires forall i :: 0 <= i < |ids| ==> ids[i] in groups
    ensures |GroupNames(s, groups, ids)| == 43 * GroupCount(groups, ids)
    decreases |ids|
  {
    hide PointNames, OrderedKeys.Sorted;
    if ids != [] {
      var points := groups[ids[0]];
      PointNamesSize(s, ids[0], points, OrderedKeys.Sorted(points.Keys));
      GroupNamesSize(s, groups, ids[1..]);
    }
  }

  lemma {:induction false} SystemNamesSize(systems: map<int, System>, ids: seq<int>)
    requires forall i :: 0 <= i < |ids| ==> ids[i] in systems
    ensures |SystemNames(systems, ids)| == 43 * SystemCount(systems, ids)
    decreases |ids|
  {
    hide GroupNames, GroupCount, OrderedKeys.Sorted;
    if ids != [] {
      var groups := systems[ids[0]].groups;
      KeysSorted(groups);
      GroupNamesSize(ids[0], groups, OrderedKeys.Sorted(groups.Keys));
      SystemNamesSize(systems, ids[1..]);
    }
  }

  lemma GetSize(r: seq<byte>)
    ensures var o := Get([1, 2, 4], r); (o.Some? <==> |r| >= 7) && (o.Some? ==> |o.value.1| == |r| - 7)
  {
    assert [1, 2, 4][1..] == [2, 4] && [2, 4][1..] == [4] && [4][1..] == [];
    if |r| >= 7 {
      assert Get([], r[1..][2..][4..]).Some?;
      assert Get([4], r[1..][2..]).Some?;
      assert Get([2, 4], r[1..]).Some?;
    }
  }

  /** A list is read exactly when it consists of whole entries of 39 bytes. */
  lemma {:induction false} NamesReadIff(r: seq<byte>, names: map<Frame, Text>)
    ensures Reader.ReadNames(r, names).Some? <==> |r| % 39 == 0
    decreases |r|
  {
    hide Get, FromProtocolString;
    if r != [] {
      GetSize(r);
      var at := Get([1, 2, 4], r);
      if at.Some? && |at.value.1| >= 32 {
        var (vs, b) := (at.value.0, at.value.1);
        NamesReadIff(b[32..], names[Frame(vs[0], vs[1], vs[2]) := FromProtocolString(b[..32])]);
        assert |r| == |b[32..]| + 39;
      }
    }
  }

  /** The four bytes too many make the entries of both sides fall apart: a name
      advert is read back exactly when the number of its points is a multiple
      of 39, and then as a request; only an empty one comes back as it was. */
  lemma NameAdvertReadIff(props: Props, systems: map<int, System>)
    requires props.Valid()
    ensures var reading := Reader.Read(NameAdvertBytes(props, systems));
            && (PointCount(systems) % 39 != 0 ==> reading == Reader.Rejected)
            && (PointCount(systems) % 39 == 0 ==>
                  reading.NameAdvert? && reading.props == props.(name := Received(props.name)) && !reading.response)
            && (PointCount(systems) == 0 ==> reading == Reader.NameAdvert(props.(name := Received(props.name)), map[], false))
  {
    hide Put, Get, LayerBytes, Received, Reader.Read, Reader.ReadNames, SystemNames, SystemCount, OrderedKeys.Sorted;
    var (list, zero, fs) := (NameListLay(systems), [F(4, 0)], [F(1, 0), F(4, 0)]);
    var entries := SystemNames(systems, OrderedKeys.Sorted(systems.Keys));
    Powers();
    MessageRead(MESSAGE_ADVERT, props, LayerBytes(AdvertLay(ADVERT_NAME, list)));
    assert Widths(zero) == [4] && Values(zero) == [0] && Widths(fs) == [1, 4] && Values(fs) == [0, 0];
    assert [2, 2] + [4] == [2, 2, 4] && [2, 2] + [1, 4] == [2, 2, 1, 4];
    var outer := LayerHead(ADVERT_NAME, zero, LayerBytes(list));
    var inner := LayerHead(ADVERT_LIST, fs, entries);
    KeysSorted(systems);
    SystemNamesSize(systems, OrderedKeys.Sorted(systems.Keys));
    NamesReadIff(entries, map[]);
    Divisible(PointCount(systems));
    NothingRead(map[]);
  }

  lemma NothingRead(names: map<Frame, Text>)
    ensures Reader.ReadNames([], names) == Some(names)
  {
  }

  lemma Divisible(n: nat)
    ensures 43 * n % 39 == 0 <==> n % 39 == 0
  {
    if 43 * n % 39 == 0 {
      var k := 43 * n / 39;
      assert n == 39 * (10 * k - 11 * n);
    }
    if n % 39 == 0 {
      assert 43 * n == 39 * (43 * (n / 39));
    }
  }
}

/** The reading half of `Message`. The lengths of known layers are not looked
    at: the module loop runs to the end of the datagram. */
module OtpReader {
  import opened Basics
  import opened OtpText
  import opened OtpWire
  import opened OtpMessage

  /** A datagram is rejected, or it holds a message. */
  datatype Reading =
    | Rejected
    | NameAdvert(props: Props, names: map<Frame, Text>, response: bool)
    | Transform(props: Props, number: int, system: System)
    | ModuleAdvert(props: Props, types: set<int>)
    | SystemAdvert(props: Props, systems: set<int>, response: bool)

  // ------------------------------------------------------------------ modules

  /** The widths of the fields of module type `k`, behind its number. */
  function TypeWidths(k: int): seq<nat> {
    if k == 0 then [1, 4, 4, 4]
    else if k == 1 || k == 3 then [4, 4, 4, 4, 4, 4]
    else if k == 2 || k == 4 then [4, 4, 4]
    else [1, 2, 4]
  }

  /** Bit 7 of the options says that the unit is millimetres. */
  predicate HighBit(options: int) { options / 128 % 2 == 1 }

  /** Multiplication of a 32-bit pattern, wrapping around. */
  function Scaled(options: int, v: int): int {
    if HighBit(options) then v * 1000 % 0x1_0000_0000 else v
  }

  function Apply(m: Modules, k: int, vs: seq<int>): Modules
    requires 0 <= k < TYPE_COUNT && |vs| == |TypeWidths(k)|
  {
    if k == 0 then m.(pos := Some(Vec(Scaled(vs[0], vs[1]), Scaled(vs[0], vs[2]), Scaled(vs[0], vs[3]))))
    else if k == 1 then m.(posVelAccel := Some(VelAccel(Vec(vs[0], vs[1], vs[2]), Vec(vs[3], vs[4], vs[5]))))
    else if k == 2 then m.(rot := Some(Vec(vs[0], vs[1], vs[2])))
    else if k == 3 then m.(rotVelAccel := Some(VelAccel(Vec(vs[0], vs[1], vs[2]), Vec(vs[3], vs[4], vs[5]))))
    else if k == 4 then m.(scale := Some(Vec(vs[0], vs[1], vs[2])))
    else m.(frame := Some(Frame(vs[0], vs[1], vs[2])))
  }

  /** A relative skip stops at the end of the datagram. */
  function Skipped(r: seq<byte>, n: int): seq<byte> {
    if n < 0 then r else if n <= |r| then r[n..] else []
  }

  /** One turn of the module loop in a datagram of `total` bytes: an unknown
      module is skipped by its absolute end, taken as a relative distance. */
  function ReadModule(total: nat, r: seq<byte>, m: Modules): (o: Option<(Modules, seq<byte>)>)
    ensures o.Some? ==> |o.value.1| < |r|
  {
    var head := Get([2, 2], r);
    if head.None? then None
    else
      var kind := Get([2], head.value.1);
      if kind.None? then None
      else
        var (maker, length, k, body) := (head.value.0[0], head.value.0[1], kind.value.0[0] - 1, kind.value.1);
        if maker != ESTA || !(0 <= k < TYPE_COUNT) then Some((m, Skipped(body, total - |head.value.1| + length)))
        else
          var fields := Get(TypeWidths(k), body);
          if fields.None? then None else Some((Apply(m, k, fields.value.0), fields.value.1))
  }

  function ReadModules(total: nat, r: seq<byte>, m: Modules): Option<Modules>
    decreases |r|
  {
    if r == [] then Some(m)
    else
      var one := ReadModule(total, r, m);
      if one.None? then None else ReadModules(total, one.value.1, one.value.0)
  }

  // ------------------------------------------------------------------- points

  /** A new point is taken, and one that is there gives way to equal priority. */
  function Inserted(groups: Groups, g: int, p: int, pt: Point): Groups {
    var points := if g in groups then groups[g] else map[];
    groups[g := if p !in points || pt.priority >= points[p].priority then points[p := pt] else points]
  }

  /** An absolute seek beyond the end of the datagram fails and moves nothing. */
  function Sought(from: seq<byte>, length: int, current: seq<byte>): seq<byte> {
    if 0 <= length <= |from| then from[length..] else current
  }

  function ReadPoints(total: nat, props: Props, r: seq<byte>, groups: Groups): Option<Groups>
    decreases |r|
  {
    if r == [] then Some(groups)
    else
      var head := Get([2, 2], r);
      if head.None? then None
      else
        var fields := Get([1, 2, 4, 8, 1, 4], head.value.1);
        if fields.None? then None
        else
          var (vs, rest) := fields.value;
          if head.value.0[0] != LAYER_MODULE then ReadPoints(total, props, Sought(head.value.1, head.value.0[1], rest), groups)
          else
            var modules := ReadModules(total, rest, NO_MODULES);
            if modules.None? then None
            else Some(Inserted(groups, vs[1], vs[2], Point(vs[0], vs[3], modules.value, props.name, props.cid)))
  }

  // ----------------------------------------------------------------- messages

  function ReadTransform(total: nat, props: Props, r: seq<byte>): Reading {
    var head := Get([2, 2, 1, 8, 1, 4], r);
    if head.None? || head.value.0[0] != LAYER_POINT then Rejected
    else
      var (vs, rest) := head.value;
      var groups := ReadPoints(total, props, rest, map[]);
      if groups.None? then Rejected else Transform(props, vs[2], System(vs[3], HighBit(vs[4]), groups.value))
  }

  function ReadTypes(r: seq<byte>, types: set<int>): Option<set<int>>
    decreases |r|
  {
    if r == [] then Some(types)
    else
      var pair := Get([2, 2], r);
      if pair.None? then None
      else
        var k := pair.value.0[1] - 1;
        ReadTypes(pair.value.1, if pair.value.0[0] == ESTA && 0 <= k < TYPE_COUNT then types + {k} else types)
  }

  function ReadSystems(r: seq<byte>, systems: set<int>): Option<set<int>>
    decreases |r|
  {
    if r == [] then Some(systems)
    else
      var one := Get([1], r);
      if one.None? then None else ReadSystems(one.value.1, systems + {one.value.0[0]})
  }

  function Raw(n: nat, r: seq<byte>): Option<(seq<byte>, seq<byte>)> {
    if |r| < n then None else Some((r[..n], r[n..]))
  }

  /** Entries of an address and a text of fixed length; a later one replaces an
      earlier one of the same point. */
  function ReadNames(r: seq<byte>, names: map<Frame, Text>): Option<map<Frame, Text>>
    decreases |r|
  {
    if r == [] then Some(names)
    else
      var at := Get([1, 2, 4], r);
      if at.None? then None
      else
        var name := Raw(NAME_BYTES + 1, at.value.1);
        if name.None? then None
        else
          var vs := at.value.0;
          ReadNames(name.value.1, names[Frame(vs[0], vs[1], vs[2]) := FromProtocolString(name.value.0)])
  }

  function ReadAdvert(props: Props, r: seq<byte>): Reading {
    var head := Get([2, 2, 4], r);
    if head.None? then Rejected
    else if head.value.0[0] == ADVERT_MODULE then
      var list := Get([2, 2, 4], head.value.1);
      if list.None? || list.value.0[0] != ADVERT_LIST then Rejected
      else
        var types := ReadTypes(list.value.1, {});
        if types.None? then Rejected else ModuleAdvert(props, types.value)
    else if head.value.0[0] == ADVERT_NAME then
      var list := Get([2, 2, 1, 4], head.value.1);
      if list.None? || list.value.0[0] != ADVERT_LIST then Rejected
      else
        var names := ReadNames(list.value.1, map[]);
        if names.None? then Rejected else NameAdvert(props, names.value, HighBit(list.value.0[2]))
    else if head.value.0[0] == ADVERT_SYSTEM then
      var list := Get([2, 2, 1, 4], head.value.1);
      if list.None? || list.value.0[0] != ADVERT_LIST then Rejected
      else
        var systems := ReadSystems(list.value.1, {});
        if systems.None? then Rejected else SystemAdvert(props, systems.value, HighBit(list.value.0[2]))
    else Rejected
  }

  /** The OTP layer: number of the message, sender and the rest of the datagram. */
  function ReadHead(r: seq<byte>): Option<(int, Props, seq<byte>)> {
    var head := Get([2, 2, 1, 1], r);
    if head.None? then None
    else
      var cid := Raw(16, head.value.1);
      if cid.None? then None
      else
        var pages := Get([4, 2, 2, 1, 4], cid.value.1);
        if pages.None? then None
        else
          var name := Raw(NAME_BYTES + 1, pages.value.1);
          if name.None? then None
          else
            var vs := pages.value.0;
            Some((head.value.0[0], Props(cid.value.0, vs[0], vs[1], vs[2], FromProtocolString(name.value.0)), name.value.1))
  }

  function Read(d: seq<byte>): Reading {
    if !(HEADER <= d) then Rejected
    else
      var head := ReadHead(d[|HEADER|..]);
      if head.None? then Rejected
      else
        var (kind, props, rest) := head.value;
        if kind == MESSAGE_TRANSFORM then ReadTransform(|d|, props, rest)
        else if kind == MESSAGE_ADVERT then ReadAdvert(props, rest)
        else Rejected
  }

  // ------------------------------------------------------------ the stream code

  /** A `QDataStream` over a datagram that is only read. */
  class Stream {
    const data: seq<byte>
    var pos: nat

    constructor (d: seq<byte>)
      ensures data == d && pos == 0
    {
      data, pos := d, 0;
    }

    predicate Valid() reads this { pos <= |data| }

    function Rest(): seq<byte>
      requires Valid()
      reads this
    {
      data[pos..]
    }

    /** A chain of `>>` in a transaction: all of it is read, or nothing. */
    method Read(ws: seq<nat>) returns (ok: bool, vs: seq<int>)
      requires Valid()
      modifies this`pos
      ensures Valid()
      ensures var o := Get(ws, old(Rest()));
              ok == o.Some? && if ok then (vs, Rest()) == o.value else pos == old(pos)
      ensures ok ==> |vs| == |ws|
    {
      hide Get, ValueBE;
      var start := pos;
      vs := [];
      ghost var goal := Get(ws, Rest());
      assert ws[0..] == ws;
      Joined(Get(ws, Rest()));
      for i := 0 to |ws|
        invariant Valid() && |vs| == i && Join(vs, Get(ws[i..], Rest())) == goal
      {
        ghost var r := Rest();
        GetNext(ws[i..], r);
        assert ws[i..][1..] == ws[i + 1..];
        if |data| - pos < ws[i] {
          pos := start;
          return false, vs;
        }
        assert r[ws[i]..] == data[pos + ws[i]..] && r[..ws[i]] == data[pos..pos + ws[i]];
        JoinStep(vs, ValueBE(r[..ws[i]]), Get(ws[i + 1..], r[ws[i]..]));
        vs := vs + [ValueBE(data[pos..pos + ws[i]])];
        pos := pos + ws[i];
      }
      assert ws[|ws|..] == [];
      GetNext([], Rest());
      assert vs + [] == vs;
      ok := true;
    }

    method ReadRaw(n: nat) returns (ok: bool, b: seq<byte>)
      requires Valid()
      modifies this`pos
      ensures Valid()
      ensures var o := Raw(n, old(Rest()));
              ok == o.Some? && if ok then (b, Rest()) == o.value else pos == old(pos)
    {
      if |data| - pos < n { return false, []; }
      ghost var r := Rest();
      b := data[pos..pos + n];
      pos := pos + n;
      assert r[..n] == b && r[n..] == Rest();
      ok := true;
    }

    method Seek(p: int)
      requires Valid()
      modifies this`pos
      ensures Valid() && pos == if 0 <= p <= |data| then p else old(pos)
    {
      if 0 <= p <= |data| { pos := p; }
    }

    method SkipRawData(n: nat)
      requires Valid()
      modifies this`pos
      ensures Valid() && Rest() == Skipped(old(Rest()), n)
    {
      pos := if pos + n <= |data| then pos + n else |data|;
    }
  }

  function Join(vs: seq<int>, o: Option<(seq<int>, seq<byte>)>): Option<(seq<int>, seq<byte>)> {
    if o.None? then None else Some((vs + o.value.0, o.value.1))
  }

  lemma Joined(o: Option<(seq<int>, seq<byte>)>)
    ensures Join([], o) == o
  {
    if o.Some? { assert [] + o.value.0 == o.value.0; }
  }

  lemma JoinStep(vs: seq<int>, v: int, o: Option<(seq<int>, seq<byte>)>)
    ensures Join(vs, Join([v], o)) == Join(vs + [v], o)
  {
    if o.Some? { assert vs + ([v] + o.value.0) == vs + [v] + o.value.0; }
  }

  lemma GetNext(ws: seq<nat>, r: seq<byte>)
    ensures Get(ws, r) ==
            if ws == [] then Some(([], r)) else if |r| < ws[0] then None
            else Join([ValueBE(r[..ws[0]])], Get(ws[1..], r[ws[0]..]))
  {
  }

  method FromDatagramModule(st: Stream, m: Modules) returns (ok: bool, n: Modules)
    requires st.Valid()
    modifies st`pos
    ensures st.Valid()
    ensures var o := ReadModule(|st.data|, old(st.Rest()), m);
            ok == o.Some? && (ok ==> (n, st.Rest()) == o.value && st.pos > old(st.pos))
  {
    hide Get, Apply;
    var got, head := st.Read([2, 2]);
    if !got { return false, m; }
    var skipPos := st.pos;
    var typed, kind := st.Read([2]);
    if !typed { return false, m; }
    var k := kind[0] - 1;
    if head[0] != ESTA || !(0 <= k < TYPE_COUNT) {
      LengthNatural(old(st.Rest()));
      st.SkipRawData(skipPos + head[1]);
      return true, m;
    }
    var full, vs := st.Read(TypeWidths(k));
    if !full { return false, m; }
    return true, Apply(m, k, vs);
  }

  lemma LengthNatural(r: seq<byte>)
    ensures var o := Get([2, 2], r); o.Some? ==> o.value.0[0] >= 0 && o.value.0[1] >= 0
  {
    if |r| >= 4 {
      assert [2, 2][1..] == [2];
    }
  }

  method FromDatagramModules(st: Stream) returns (ok: bool, m: Modules)
    requires st.Valid()
    modifies st`pos
    ensures st.Valid()
    ensures var o := ReadModules(|st.data|, old(st.Rest()), NO_MODULES);
            ok == o.Some? && (ok ==> m == o.value && st.Rest() == [])
  {
    hide ReadModule;
    m := NO_MODULES;
    ghost var goal := ReadModules(|st.data|, st.Rest(), m);
    while st.pos < |st.data|
      invariant st.Valid() && ReadModules(|st.data|, st.Rest(), m) == goal
      decreases |st.data| - st.pos
    {
      ok, m := FromDatagramModule(st, m);
      if !ok { return; }
    }
    ok := true;
  }

  method FromDatagramPoints(st: Stream, props: Props) returns (ok: bool, groups: Groups)
    requires st.Valid()
    modifies st`pos
    ensures st.Valid()
    ensures var o := ReadPoints(|st.data|, props, old(st.Rest()), map[]);
            ok == o.Some? && (ok ==> groups == o.value)
  {
    hide Get, ReadModules, Inserted;
    groups := map[];
    ghost var goal := ReadPoints(|st.data|, props, st.Rest(), groups);
    while st.pos < |st.data|
      invariant st.Valid() && ReadPoints(|st.data|, props, st.Rest(), groups) == goal
      decreases |st.data| - st.pos
    {
      LengthNatural(st.Rest());
      var got, head := st.Read([2, 2]);
      if !got { return false, groups; }
      var skipPos := st.pos;
      var full, vs := st.Read([1, 2, 4, 8, 1, 4]);
      if !full { return false, groups; }
      if head[0] != LAYER_MODULE {
        st.Seek(skipPos + head[1]);
      } else {
        var read, modules := FromDatagramModules(st);
        if !read { return false, groups; }
        ReadNothing(|st.data|, props, Inserted(groups, vs[1], vs[2], Point(vs[0], vs[3], modules, props.name, props.cid)));
        groups := Inserted(groups, vs[1], vs[2], Point(vs[0], vs[3], modules, props.name, props.cid));
      }
    }
    ok := true;
  }

  lemma ReadNothing(total: nat, props: Props, groups: Groups)
    ensures ReadPoints(total, props, [], groups) == Some(groups)
  {
  }

  method FromDatagramTransform(st: Stream, props: Props) returns (reading: Reading)
    requires st.Valid()
    modifies st`pos
    ensures reading == ReadTransform(|st.data|, props, old(st.Rest()))
  {
    hide Get, ReadPoints;
    var ok, vs := st.Read([2, 2, 1, 8, 1, 4]);
    if !ok || vs[0] != LAYER_POINT { return Rejected; }
    var full, groups := FromDatagramPoints(st, props);
    if !full { return Rejected; }
    return Transform(props, vs[2], System(vs[3], HighBit(vs[4]), groups));
  }

  method FromDatagramTypes(st: Stream) returns (ok: bool, types: set<int>)
    requires st.Valid()
    modifies st`pos
    ensures st.Valid()
    ensures var o := ReadTypes(old(st.Rest()), {}); ok == o.Some? && (ok ==> types == o.value)
  {
    hide Get;
    types := {};
    ghost var goal := ReadTypes(st.Rest(), types);
    while st.pos < |st.data|
      invariant st.Valid() && ReadTypes(st.Rest(), types) == goal
      decreases |st.data| - st.pos
    {
      var got, pair := st.Read([2, 2]);
      if !got { return false, types; }
      if pair[0] == ESTA && 0 <= pair[1] - 1 < TYPE_COUNT { types := types + {pair[1] - 1}; }
    }
    ok := true;
  }

  method FromDatagramSystems(st: Stream) returns (ok: bool, systems: set<int>)
    requires st.Valid()
    modifies st`pos
    ensures st.Valid()
    ensures var o := ReadSystems(old(st.Rest()), {}); ok == o.Some? && (ok ==> systems == o.value)
  {
    hide Get;
    systems := {};
    ghost var goal := ReadSystems(st.Rest(), systems);
    while st.pos < |st.data|
      invariant st.Valid() && ReadSystems(st.Rest(), systems) == goal
      decreases |st.data| - st.pos
    {
      var got, one := st.Read([1]);
      if !got { return false, systems; }
      systems := systems + {one[0]};
    }
    ok := true;
  }

  method FromDatagramNames(st: Stream) returns (ok: bool, names: map<Frame, Text>)
    requires st.Valid()
    modifies st`pos
    ensures st.Valid()
    ensures var o := ReadNames(old(st.Rest()), map[]); ok == o.Some? && (ok ==> names == o.value)
  {
    hide Get, FromProtocolString;
    names := map[];
    ghost var goal := ReadNames(st.Rest(), names);
    while st.pos < |st.data|
      invariant st.Valid() && ReadNames(st.Rest(), names) == goal
      decreases |st.data| - st.pos
    {
      var got, at := st.Read([1, 2, 4]);
      if !got { return false, names; }
      var full, name := st.ReadRaw(NAME_BYTES + 1);
      if !full { return false, names; }
      names := names[Frame(at[0], at[1], at[2]) := FromProtocolString(name)];
    }
    ok := true;
  }

  method FromDatagramAdvert(st: Stream, props: Props) returns (reading: Reading)
    requires st.Valid()
    modifies st`pos
    ensures reading == ReadAdvert(props, old(st.Rest()))
  {
    hide Get, ReadTypes, ReadNames, ReadSystems;
    var ok, head := st.Read([2, 2, 4]);
    if !ok { return Rejected; }
    if head[0] == ADVERT_MODULE {
      var listed, list := st.Read([2, 2, 4]);
      if !listed || list[0] != ADVERT_LIST { return Rejected; }
      var full, types := FromDatagramTypes(st);
      return if full then ModuleAdvert(props, types) else Rejected;
    } else if head[0] == ADVERT_NAME {
      var listed, list := st.Read([2, 2, 1, 4]);
      if !listed || list[0] != ADVERT_LIST { return Rejected; }
      var full, names := FromDatagramNames(st);
      return if full then NameAdvert(props, names, HighBit(list[2])) else Rejected;
    } else if head[0] == ADVERT_SYSTEM {
      var listed, list := st.Read([2, 2, 1, 4]);
      if !listed || list[0] != ADVERT_LIST { return Rejected; }
      var full, systems := FromDatagramSystems(st);
      return if full then SystemAdvert(props, systems, HighBit(list[2])) else Rejected;
    }
    return Rejected;
  }

  method FromDatagram(datagram: seq<byte>) returns (reading: Reading)
    ensures reading == Read(datagram)
  {
    hide Get, FromProtocolString, ReadTransform, ReadAdvert;
    if !(HEADER <= datagram) { return Rejected; }
    var st := new Stream(datagram);
    st.SkipRawData(|HEADER|);
    var ok, head := st.Read([2, 2, 1, 1]);
    if !ok { return Rejected; }
    var identified, cid := st.ReadRaw(16);
    if !identified { return Rejected; }
    var paged, pages := st.Read([4, 2, 2, 1, 4]);
    if !paged { return Rejected; }
    var named, name := st.ReadRaw(NAME_BYTES + 1);
    if !named { return Rejected; }
    var props := Props(cid, pages[0], pages[1], pages[2], FromProtocolString(name));
    if head[0] == MESSAGE_TRANSFORM {
      reading := FromDatagramTransform(st, props);
    } else if head[0] == MESSAGE_ADVERT {
      reading := FromDatagramAdvert(st, props);
    } else {
      reading := Rejected;
    }
  }
}

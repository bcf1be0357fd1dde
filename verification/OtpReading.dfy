/** What is read of the layers of any sender, whatever it sets in the options:
    bit 7 is the unit of a position, marks a full set of points, and tells a
    response from a request. */
module OtpReading {
  import opened Basics
  import opened OtpText
  import opened OtpWire
  import opened OtpMessage
  import opened OtpRoundTrip
  import Reader = OtpReader

  /** In micrometres as it is, in millimetres a thousand times, in 32 bits. */
  function Micrometres(options: int, v: int): int {
    if options < 128 then v else 1000 * v % 0x1_0000_0000
  }

  /** A position is read by its unit, and no other module changes. */
  lemma PositionRead(total: nat, options: int, x: int, y: int, z: int, rest: seq<byte>, m: Modules)
    requires U8(options) && U32(x) && U32(y) && U32(z)
    ensures var l := Lay(0, Put([F(2, 1), F(1, options), F(4, x), F(4, y), F(4, z)]));
            var v := Vec(Micrometres(options, x), Micrometres(options, y), Micrometres(options, z));
            Reader.ReadModule(total, LayerBytes(l) + rest, m) ==
            Some((Modules(Some(v), m.posVelAccel, m.rot, m.rotVelAccel, m.scale, m.frame), rest))
  {
    hide Put, Get, LayerBytes;
    Powers();
    var fs := [F(1, options), F(4, x), F(4, y), F(4, z)];
    var l := Lay(0, Put([F(2, 1)] + fs));
    assert [F(2, 1)] + fs == [F(2, 1), F(1, options), F(4, x), F(4, y), F(4, z)];
    GetLayer(l, rest);
    PutAppend([F(2, 1)], fs);
    assert l.body + rest == Put([F(2, 1)]) + (Put(fs) + rest);
    GetNumber(1, Put(fs) + rest);
    GetFitting(fs, [1, 4, 4, 4], rest);
    assert Values(fs) == [options, x, y, z];
  }

  /** The system layer of a transform: number, timestamp and the full-set mark
      are the sender's, whatever the other bits and the reserved field. */
  lemma SystemHeadRead(total: nat, props: Props, number: int, timestamp: int, options: int, reserved: int, points: seq<byte>)
    requires U8(number) && U64(timestamp) && U8(options) && U32(reserved)
    ensures var l := Lay(1, Put([F(1, number), F(8, timestamp), F(1, options), F(4, reserved)]) + points);
            var groups := Reader.ReadPoints(total, props, points, map[]);
            Reader.ReadTransform(total, props, LayerBytes(l)) ==
            if groups == None then Reader.Rejected
            else Reader.Transform(props, number, System(timestamp, options >= 128, groups.value))
  {
    hide Put, Get, LayerBytes, Reader.ReadPoints;
    Powers();
    var fs := [F(1, number), F(8, timestamp), F(1, options), F(4, reserved)];
    var length := LayerHead(1, fs, points);
    assert [2, 2] + Widths(fs) == [2, 2, 1, 8, 1, 4];
    assert Values(fs) == [number, timestamp, options, reserved];
  }

  /** A system advert from anyone. */
  lemma SystemAdvertRead(props: Props, reserved: int, options: int, zero: int, numbers: seq<int>)
    requires U32(reserved) && U8(options) && U32(zero) && AllU8(numbers)
    ensures var list := Lay(1, Put([F(1, options), F(4, zero)]) + SystemsBytes(numbers));
            Reader.ReadAdvert(props, LayerBytes(Lay(3, Put([F(4, reserved)]) + LayerBytes(list)))) ==
            Reader.SystemAdvert(props, Elements(numbers), options >= 128)
  {
    hide Put, Get, LayerBytes, Reader.ReadSystems, SystemsBytes, Elements;
    Powers();
    var (outer, inner) := ([F(4, reserved)], [F(1, options), F(4, zero)]);
    var list := Lay(1, Put(inner) + SystemsBytes(numbers));
    var a := LayerHead(3, outer, LayerBytes(list));
    var b := LayerHead(1, inner, SystemsBytes(numbers));
    assert Widths(outer) == [4] && Values(outer) == [reserved] && Widths(inner) == [1, 4] && Values(inner) == [options, zero];
    assert [2, 2] + [4] == [2, 2, 4] && [2, 2] + [1, 4] == [2, 2, 1, 4];
    SystemsRead(numbers, {});
    NothingMore(Elements(numbers));
  }

  lemma NothingMore(s: set<int>)
    ensures {} + s == s
  {
  }

  // ------------------------------------------------------------ unknown layers

  /** What is left when `n` bytes are skipped, or all of it is. */
  function Behind(r: seq<byte>, n: int): seq<byte> {
    if n <= 0 then r else if n >= |r| then [] else r[n..]
  }

  /** A module of another maker or of an unknown number changes nothing. What is
      skipped from behind its number is as many bytes as the whole datagram has
      up to the end of the module, not as the module has. */
  lemma UnknownModuleRead(total: nat, maker: int, length: int, number: int, rest: seq<byte>, m: Modules)
    requires U16(maker) && U16(length) && U16(number) && (maker != 0 || number == 0 || number > 6)
    ensures var position := total - |rest| - 2;
            Reader.ReadModule(total, Put([F(2, maker), F(2, length), F(2, number)]) + rest, m) == Some((m, Behind(rest, position + length)))
  {
    hide Put, Get;
    Powers();
    var (head, kind) := ([F(2, maker), F(2, length)], [F(2, number)]);
    PutAppend(head, kind);
    assert head + kind == [F(2, maker), F(2, length), F(2, number)];
    assert Put(head) + Put(kind) + rest == Put(head) + (Put(kind) + rest);
    GetFitting(head, [2, 2], Put(kind) + rest);
    assert Values(head) == [maker, length];
    GetNumber(number, rest);
    NumberSize(number);
  }

  lemma NumberSize(n: int)
    ensures |Put([F(2, n)])| == 2
  {
    assert [F(2, n)][1..] == [];
  }

  /** A layer of points with another number is passed over by its length when
      that stays in the datagram, and else only its fields are. */
  lemma UnknownPointRead(total: nat, props: Props, number: int, length: int, fields: seq<byte>, rest: seq<byte>, groups: Groups)
    requires U16(number) && U16(length) && number != 1 && |fields| == 20
    ensures Reader.ReadPoints(total, props, Put([F(2, number), F(2, length)]) + fields + rest, groups) ==
            Reader.ReadPoints(total, props, if length <= |fields + rest| then (fields + rest)[length..] else rest, groups)
  {
    hide Put, Get, Reader.ReadModules;
    Powers();
    var (head, all) := ([F(2, number), F(2, length)], fields + rest);
    assert Put(head) + fields + rest == Put(head) + all;
    GetFitting(head, [2, 2], all);
    assert Values(head) == [number, length];
    PutTwoSize(number, length);
    TwentyBytes(fields, rest);
  }

  lemma PutTwoSize(a: int, b: int)
    ensures |Put([F(2, a), F(2, b)])| == 4
  {
    assert [F(2, a), F(2, b)][1..] == [F(2, b)];
    NumberSize(b);
  }

  lemma TwentyBytes(fields: seq<byte>, rest: seq<byte>)
    requires |fields| == 20
    ensures Get([1, 2, 4, 8, 1, 4], fields + rest).Some? && Get([1, 2, 4, 8, 1, 4], fields + rest).value.1 == rest
  {
    hide ValueBE;
    var r := fields + rest;
    GetDrops([4], r[16..]);
    GetDrops([1, 4], r[15..]);
    GetDrops([8, 1, 4], r[7..]);
    GetDrops([4, 8, 1, 4], r[3..]);
    GetDrops([2, 4, 8, 1, 4], r[1..]);
    GetDrops([1, 2, 4, 8, 1, 4], r);
    assert r[1..][2..] == r[3..] && r[3..][4..] == r[7..] && r[7..][8..] == r[15..] && r[15..][1..] == r[16..] && r[16..][4..] == rest;
    GetNothing(rest);
  }

  lemma GetDrops(ws: seq<nat>, r: seq<byte>)
    requires ws != [] && |r| >= ws[0]
    ensures var o := Get(ws[1..], r[ws[0]..]);
            Get(ws, r).Some? == o.Some? && (o.Some? ==> Get(ws, r).value.1 == o.value.1)
    ensures |ws| == 1 ==> ws[1..] == []
  {
  }

  /** Of a list of module types those of this maker that are known count. */
  lemma {:induction false} AnyTypesRead(pairs: seq<(int, int)>, before: set<int>)
    requires forall i :: 0 <= i < |pairs| ==> U16(pairs[i].0) && U16(pairs[i].1)
    ensures Reader.ReadTypes(PairBytes(pairs), before) ==
            Some(before + Known(pairs))
    decreases |pairs|
  {
    hide Put, Get, Known;
    if pairs == [] {
      NoneKnown(before);
    } else {
      var (maker, number) := pairs[0];
      var known := if maker == 0 && 1 <= number <= 6 then {number - 1} else {};
      var tail := PairBytes(pairs[1..]);
      Powers();
      GetFitting([F(2, maker), F(2, number)], [2, 2], tail);
      assert Values([F(2, maker), F(2, number)]) == [maker, number];
      PutTwoSize(maker, number);
      AnyTypesRead(pairs[1..], before + known);
      KnownTypes(pairs);
      assert before + {} == before;
      assert before + known + Known(pairs[1..]) == before + Known(pairs);
      assert Get([2, 2], PairBytes(pairs)) == Some(([maker, number], tail));
      assert PairBytes(pairs) != [];
      assert Reader.ReadTypes(PairBytes(pairs), before) == Reader.ReadTypes(tail, before + known);
    }
  }

  lemma NoneKnown(before: set<int>)
    ensures before + Known([]) == before
  {
  }

  function PairBytes(pairs: seq<(int, int)>): seq<byte> {
    if pairs == [] then [] else Put([F(2, pairs[0].0), F(2, pairs[0].1)]) + PairBytes(pairs[1..])
  }

  function Known(pairs: seq<(int, int)>): set<int> {
    set i | 0 <= i < |pairs| && pairs[i].0 == 0 && 1 <= pairs[i].1 <= 6 :: pairs[i].1 - 1
  }

  lemma KnownTypes(pairs: seq<(int, int)>)
    requires pairs != []
    ensures Known(pairs) == (if pairs[0].0 == 0 && 1 <= pairs[0].1 <= 6 then {pairs[0].1 - 1} else {}) + Known(pairs[1..])
  {
    var tail := pairs[1..];
    forall k | k in Known(pairs) ensures k in Known(tail) || (pairs[0].0 == 0 && 1 <= pairs[0].1 <= 6 && k == pairs[0].1 - 1) {
      var i :| 0 <= i < |pairs| && pairs[i].0 == 0 && 1 <= pairs[i].1 <= 6 && k == pairs[i].1 - 1;
      if i > 0 { assert tail[i - 1] == pairs[i]; }
    }
    forall k | k in Known(tail) ensures k in Known(pairs) {
      var i :| 0 <= i < |tail| && tail[i].0 == 0 && 1 <= tail[i].1 <= 6 && k == tail[i].1 - 1;
      assert pairs[i + 1] == tail[i];
    }
  }
}

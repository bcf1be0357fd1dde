/** OTP (ANSI E1.59) on the wire: big-endian fields and layers, a layer being a
    number, a 16-bit length and a body. */
module OtpWire {
  import opened Basics

  // ------------------------------------------------------ big-endian numbers

  function Pow256(k: nat): (p: nat)
    ensures p > 0
  {
    if k == 0 then 1 else 256 * Pow256(k - 1)
  }

  /** The low `k` bytes of `n`, the highest first. */
  function BE(k: nat, n: int): (b: seq<byte>)
    ensures |b| == k
  {
    if k == 0 then [] else BE(k - 1, n / 256) + [n % 256]
  }

  function ValueBE(b: seq<byte>): nat {
    if b == [] then 0 else 256 * ValueBE(b[..|b| - 1]) + (b[|b| - 1] as int)
  }

  lemma {:induction false} MultiplesApart(d: nat, q: int, a: int)
    requires q < a
    ensures d * q + d <= d * a
    decreases a - q
  {
    assert d * a == d * (a - 1) + d;
    if q < a - 1 { MultiplesApart(d, q, a - 1); }
  }

  lemma RemainderUnique(n: int, d: nat, a: int, m: nat)
    requires d > 0 && n == d * a + m && m < d
    ensures n % d == m
  {
    var (q, r) := (n / d, n % d);
    assert n == d * q + r;
    if q < a { MultiplesApart(d, q, a); }
    if a < q { MultiplesApart(d, a, q); }
  }

  lemma RemainderStep(n: int, p: nat)
    requires p > 0
    ensures 256 * ((n / 256) % p) + n % 256 == n % (256 * p)
  {
    var (q, r) := (n / 256, n % 256);
    var (a, c) := (q / p, q % p);
    assert q == p * a + c;
    assert 256 * (p * a) == (256 * p) * a;
    assert n == (256 * p) * a + (256 * c + r);
    assert 256 * (c + 1) <= 256 * p;
    RemainderUnique(n, 256 * p, a, 256 * c + r);
  }

  /** Writing `k` bytes and reading them back is reduction modulo 256^k, as the
      narrowing casts of the source do it. */
  lemma {:induction false} RoundTripBE(k: nat, n: int)
    ensures ValueBE(BE(k, n)) == n % Pow256(k)
  {
    if k == 0 {
      assert n % 1 == 0;
    } else {
      RoundTripBE(k - 1, n / 256);
      assert BE(k, n)[..k - 1] == BE(k - 1, n / 256);
      RemainderStep(n, Pow256(k - 1));
    }
  }

  lemma Powers()
    ensures Pow256(1) == 0x100 && Pow256(2) == 0x1_0000 && Pow256(4) == 0x1_0000_0000
    ensures Pow256(8) == 0x1_0000_0000_0000_0000
  {
    assert Pow256(2) == 256 * Pow256(1);
    assert Pow256(3) == 256 * Pow256(2);
    assert Pow256(4) == 256 * Pow256(3);
    assert Pow256(5) == 256 * Pow256(4);
    assert Pow256(6) == 256 * Pow256(5);
    assert Pow256(7) == 256 * Pow256(6);
    assert Pow256(8) == 256 * Pow256(7);
  }

  // ------------------------------------------------------------------- fields

  datatype Field = F(width: nat, value: int) {
    predicate Fits() { 0 <= value < Pow256(width) }
  }

  predicate AllFit(fs: seq<Field>) { forall i :: 0 <= i < |fs| ==> fs[i].Fits() }

  function Widths(fs: seq<Field>): (ws: seq<nat>) { seq(|fs|, i requires 0 <= i < |fs| => fs[i].width) }
  function Values(fs: seq<Field>): (vs: seq<int>) { seq(|fs|, i requires 0 <= i < |fs| => fs[i].value) }

  /** What a chain of `<<` writes. */
  function Put(fs: seq<Field>): seq<byte> {
    if fs == [] then [] else BE(fs[0].width, fs[0].value) + Put(fs[1..])
  }

  /** What a chain of `>>` inside a transaction reads from the rest `r` of the
      datagram, and the rest behind it; nothing when the datagram ends first. */
  function Get(ws: seq<nat>, r: seq<byte>): (o: Option<(seq<int>, seq<byte>)>)
    ensures o.Some? ==> |o.value.0| == |ws| && |o.value.1| <= |r|
    ensures o.Some? && ws != [] ==> |o.value.1| + ws[0] <= |r|
  {
    if ws == [] then Some(([], r))
    else if |r| < ws[0] then None
    else
      var tail := Get(ws[1..], r[ws[0]..]);
      if tail.None? then None else Some(([ValueBE(r[..ws[0]])] + tail.value.0, tail.value.1))
  }

  /** What is left of each value when it is cut to its field. */
  function Reduced(fs: seq<Field>): seq<int> {
    seq(|fs|, i requires 0 <= i < |fs| => fs[i].value % Pow256(fs[i].width))
  }

  lemma FittingIsKept(fs: seq<Field>)
    requires AllFit(fs)
    ensures Reduced(fs) == Values(fs)
  {
    forall i | 0 <= i < |fs| ensures Reduced(fs)[i] == Values(fs)[i] {
      assert fs[i].Fits();
      Small(fs[i].value, Pow256(fs[i].width));
    }
  }

  lemma Small(n: int, p: int)
    requires 0 <= n < p
    ensures n % p == n
  {
  }

  lemma GetStep(f: Field, ws: seq<nat>, rest: seq<byte>)
    ensures var o := Get(ws, rest);
            Get([f.width] + ws, BE(f.width, f.value) + rest) ==
            if o.None? then None else Some(([f.value % Pow256(f.width)] + o.value.0, o.value.1))
  {
    hide BE, ValueBE, Pow256;
    RoundTripBE(f.width, f.value);
    var r := BE(f.width, f.value) + rest;
    assert r[..f.width] == BE(f.width, f.value) && r[f.width..] == rest;
    assert ([f.width] + ws)[1..] == ws;
  }

  /** Every value comes back cut to its field, and nothing behind the fields is touched. */
  lemma {:induction false} GetPut(fs: seq<Field>, rest: seq<byte>)
    ensures Get(Widths(fs), Put(fs) + rest) == Some((Reduced(fs), rest))
    decreases |fs|
  {
    hide BE, Get;
    if fs == [] {
      GetNothing(rest);
      assert Widths(fs) == [] && Reduced(fs) == [] && Put(fs) + rest == rest;
    } else {
      var f := fs[0];
      GetPut(fs[1..], rest);
      GetStep(f, Widths(fs[1..]), Put(fs[1..]) + rest);
      assert Widths(fs) == [f.width] + Widths(fs[1..]);
      assert Reduced(fs) == [f.value % Pow256(f.width)] + Reduced(fs[1..]);
      assert Put(fs) + rest == BE(f.width, f.value) + (Put(fs[1..]) + rest);
    }
  }

  /** Values that fit come back as they were. */
  lemma GetFitting(fs: seq<Field>, ws: seq<nat>, rest: seq<byte>)
    requires AllFit(fs) && ws == Widths(fs)
    ensures Get(ws, Put(fs) + rest) == Some((Values(fs), rest))
  {
    GetPut(fs, rest);
    FittingIsKept(fs);
  }

  lemma {:induction false} PutAppend(a: seq<Field>, b: seq<Field>)
    ensures Put(a + b) == Put(a) + Put(b)
    decreases |a|
  {
    if a == [] {
      assert a + b == b;
    } else {
      assert (a + b)[1..] == a[1..] + b;
      PutAppend(a[1..], b);
    }
  }

  lemma GetNothing(r: seq<byte>)
    ensures Get([], r) == Some(([], r))
  {
  }

  // ------------------------------------------------------------------- layers

  datatype Lay = Lay(number: int, body: seq<byte>)

  /** The length counts the bytes from behind its own field to the end of the layer. */
  function LayerBytes(l: Lay): seq<byte> {
    Put([F(2, l.number), F(2, |l.body|)]) + l.body
  }

  function Concat(ls: seq<Lay>): seq<byte> {
    if ls == [] then [] else LayerBytes(ls[0]) + Concat(ls[1..])
  }

  lemma {:induction false} ConcatAppend(a: seq<Lay>, b: seq<Lay>)
    ensures Concat(a + b) == Concat(a) + Concat(b)
    decreases |a|
  {
    if a == [] {
      assert a + b == b;
    } else {
      assert (a + b)[1..] == a[1..] + b;
      ConcatAppend(a[1..], b);
    }
  }

  predicate LayFits(l: Lay) { 0 <= l.number < 0x1_0000 && |l.body| < 0x1_0000 }
  predicate LaysFit(ls: seq<Lay>) { forall i :: 0 <= i < |ls| ==> LayFits(ls[i]) }

  /** Splits bytes into layers by nothing but their length fields. */
  function Walk(r: seq<byte>): (o: Option<seq<Lay>>)
    decreases |r|
  {
    if r == [] then Some([])
    else
      var head := Get([2, 2], r);
      if head.None? || head.value.0[1] < 0 || head.value.0[1] > |head.value.1| then None
      else
        var (n, length, rest) := (head.value.0[0], head.value.0[1], head.value.1);
        var tail := Walk(rest[length..]);
        if tail.None? then None else Some([Lay(n, rest[..length])] + tail.value)
  }

  /** A layer is read with its length modulo 64 KiB. */
  lemma GetLayer(l: Lay, rest: seq<byte>)
    ensures Get([2, 2], LayerBytes(l) + rest) == Some(([l.number % 0x1_0000, |l.body| % 0x1_0000], l.body + rest))
  {
    hide Put, Get;
    var fs := [F(2, l.number), F(2, |l.body|)];
    Powers();
    GetPut(fs, l.body + rest);
    assert LayerBytes(l) + rest == Put(fs) + (l.body + rest);
    assert Widths(fs) == [2, 2] && Reduced(fs) == [l.number % 0x1_0000, |l.body| % 0x1_0000];
  }

  /** The length fields of layers under 64 KiB delimit them exactly. */
  lemma {:induction false} WalkConcat(ls: seq<Lay>)
    requires LaysFit(ls)
    ensures Walk(Concat(ls)) == Some(ls)
    decreases |ls|
  {
    if ls != [] {
      var l := ls[0];
      assert LayFits(l);
      GetLayer(l, Concat(ls[1..]));
      var rest := l.body + Concat(ls[1..]);
      assert rest[..|l.body|] == l.body && rest[|l.body|..] == Concat(ls[1..]);
      WalkConcat(ls[1..]);
      assert ls == [l] + ls[1..];
    }
  }

  lemma {:induction false} ConcatBounds(ls: seq<Lay>, i: nat)
    requires i < |ls|
    ensures |ls[i].body| + 4 <= |Concat(ls)|
    decreases |ls|
  {
    LayerSize(ls[0]);
    if i > 0 { ConcatBounds(ls[1..], i - 1); }
  }

  lemma LayerSize(l: Lay)
    ensures |LayerBytes(l)| == |l.body| + 4
  {
    var fs := [F(2, l.number), F(2, |l.body|)];
    assert fs[1..] == [fs[1]] && fs[1..][1..] == [];
    assert Put(fs[1..]) == BE(2, |l.body|) + Put([]);
  }
}

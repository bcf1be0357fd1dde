/** Names: texts in UTF-16, sent as at most 31 bytes of UTF-8 in a field of 32.
    The conversions are those of Qt: half of a surrogate pair is written as a
    question mark, bytes that are no UTF-8 are read as U+FFFD one by one, and a
    byte order mark in front is dropped. */
module OtpText {
  import opened Basics

  type Unit = x: int | 0 <= x < 0x1_0000
  type Text = seq<Unit>

  const NAME_BYTES := 31
  const MARK: seq<byte> := [0xEF, 0xBB, 0xBF]
  const MARK_UNIT: Unit := 0xFEFF

  predicate High(c: Unit) { 0xD800 <= c < 0xDC00 }
  predicate Low(c: Unit) { 0xDC00 <= c < 0xE000 }

  predicate PairAhead(s: Text) { |s| >= 2 && High(s[0]) && Low(s[1]) }

  /** The units of the first character. */
  function Lead(s: Text): (n: nat)
    requires s != []
    ensures 0 < n <= |s|
  {
    if PairAhead(s) then 2 else 1
  }

  predicate LoneAhead(s: Text) { s != [] && !PairAhead(s) && (High(s[0]) || Low(s[0])) }

  /** Every half of a surrogate pair has its other half. */
  predicate Whole(s: Text)
    decreases |s|
  {
    s == [] || (!LoneAhead(s) && Whole(s[Lead(s)..]))
  }

  // -------------------------------------------------------------------- UTF-8

  /** The code points of a pair, and of the bytes of a character. */
  function PairPoint(h: int, l: int): int { 0x1_0000 + (h - 0xD800) * 0x400 + (l - 0xDC00) }
  function Point2(a: int, b: int): int { (a - 0xC0) * 64 + (b - 0x80) }
  function Point3(a: int, b: int, c: int): int { (a - 0xE0) * 0x1000 + (b - 0x80) * 64 + (c - 0x80) }
  function Point4(a: int, b: int, c: int, d: int): int {
    (a - 0xF0) * 0x4_0000 + (b - 0x80) * 0x1000 + (c - 0x80) * 64 + (d - 0x80)
  }

  /** The bytes of the first character. */
  function Code(s: Text): (b: seq<byte>)
    requires s != []
    ensures Lead(s) <= |b|
  {
    if PairAhead(s) then
      var v := PairPoint(s[0], s[1]);
      [0xF0 + v / 0x4_0000, 0x80 + v / 0x1000 % 64, 0x80 + v / 64 % 64, 0x80 + v % 64]
    else
      var c: int := s[0];
      if LoneAhead(s) then ['?' as int]
      else if c < 0x80 then [c]
      else if c < 0x800 then [0xC0 + c / 64, 0x80 + c % 64]
      else [0xE0 + c / 0x1000, 0x80 + c / 64 % 64, 0x80 + c % 64]
  }

  /** `QString::toUtf8`. */
  function Utf8(s: Text): (b: seq<byte>)
    ensures |s| <= |b|
    decreases |s|
  {
    if s == [] then [] else Code(s) + Utf8(s[Lead(s)..])
  }

  /** At least `n` continuation bytes follow. */
  predicate Behind(b: seq<byte>, n: nat) {
    n < |b| && forall i :: 1 <= i <= n ==> 0x80 <= b[i] < 0xC0
  }

  predicate ThreeAhead(b: seq<byte>) {
    && Behind(b, 2) && 0xE0 <= b[0] < 0xF0
    && 0x800 <= Point3(b[0], b[1], b[2]) && !(0xD800 <= Point3(b[0], b[1], b[2]) < 0xE000)
  }

  predicate FourAhead(b: seq<byte>) {
    Behind(b, 3) && 0xF0 <= b[0] < 0xF5 && 0x1_0000 <= Point4(b[0], b[1], b[2], b[3]) < 0x11_0000
  }

  /** The character that bytes begin with, and how many bytes it takes. */
  function First(b: seq<byte>): (r: (Text, nat))
    requires b != []
    ensures 0 < r.1 <= |b| && r.0 != [] && Lead(r.0) == |r.0| && !LoneAhead(r.0)
  {
    if b[0] < 0x80 then ([b[0]], 1)
    else if 0xC2 <= b[0] < 0xE0 && Behind(b, 1) then ([Point2(b[0], b[1])], 2)
    else if ThreeAhead(b) then ([Point3(b[0], b[1], b[2])], 3)
    else if FourAhead(b) then
      var v := Point4(b[0], b[1], b[2], b[3]) - 0x1_0000;
      ([0xD800 + v / 0x400, 0xDC00 + v % 0x400], 4)
    else ([0xFFFD], 1)
  }

  function Decoded(b: seq<byte>): Text
    decreases |b|
  {
    if b == [] then [] else First(b).0 + Decoded(b[First(b).1..])
  }

  /** `QString::fromUtf8`. */
  function FromUtf8(b: seq<byte>): Text {
    Decoded(if MARK <= b then b[3..] else b)
  }

  /** What is read for the first character. */
  function Echo(s: Text): Text
    requires s != []
  {
    if LoneAhead(s) then ['?' as int] else s[..Lead(s)]
  }

  lemma TwoBytes(v: int)
    requires 0x80 <= v < 0x800
    ensures 0xC2 <= 0xC0 + v / 64 < 0xE0 && Point2(0xC0 + v / 64, 0x80 + v % 64) == v
  {
  }

  lemma ThreeBytes(v: int)
    requires 0x800 <= v < 0x1_0000
    ensures 0xE0 + v / 0x1000 < 0xF0 && Point3(0xE0 + v / 0x1000, 0x80 + v / 64 % 64, 0x80 + v % 64) == v
  {
    assert v / 0x1000 == v / 64 / 64;
  }

  lemma FourBytes(v: int)
    requires 0x1_0000 <= v < 0x11_0000
    ensures 0xF0 + v / 0x4_0000 < 0xF5
    ensures Point4(0xF0 + v / 0x4_0000, 0x80 + v / 0x1000 % 64, 0x80 + v / 64 % 64, 0x80 + v % 64) == v
  {
    assert v / 0x1000 == v / 64 / 64 && v / 0x4_0000 == v / 0x1000 / 64;
  }

  lemma PairSplits(h: int, l: int)
    requires 0xD800 <= h < 0xDC00 <= l < 0xE000
    ensures var v := PairPoint(h, l) - 0x1_0000; 0xD800 + v / 0x400 == h && 0xDC00 + v % 0x400 == l
  {
  }

  lemma PointsOfCode(s: Text)
    requires s != []
    ensures var b := Code(s);
            && (forall i :: 1 <= i < |b| ==> 0x80 <= b[i] < 0xC0)
            && (|b| == 1 ==> b[0] < 0x80 && Echo(s) == [b[0]])
            && (|b| == 2 ==> 0xC2 <= b[0] < 0xE0 && Point2(b[0], b[1]) == s[0] && Echo(s) == [s[0]])
            && (|b| == 3 ==> 0xE0 <= b[0] < 0xF0 && Point3(b[0], b[1], b[2]) == s[0] && Echo(s) == [s[0]]
                             && s[0] >= 0x800 && !High(s[0]) && !Low(s[0]))
            && (|b| == 4 ==> 0xF0 <= b[0] < 0xF5 && PairAhead(s) && Point4(b[0], b[1], b[2], b[3]) == PairPoint(s[0], s[1])
                             && Echo(s) == [s[0], s[1]])
            && 1 <= |b| <= 4
  {
    hide Point2, Point3, Point4;
    if PairAhead(s) {
      FourBytes(PairPoint(s[0], s[1]));
    } else if 0x80 <= s[0] < 0x800 {
      TwoBytes(s[0]);
    } else if 0x800 <= s[0] {
      ThreeBytes(s[0]);
    }
  }

  lemma FirstOfCode(s: Text, rest: seq<byte>)
    requires s != []
    ensures First(Code(s) + rest) == (Echo(s), |Code(s)|)
  {
    hide Code, Echo, Point2, Point3, Point4;
    var (c, b) := (Code(s), Code(s) + rest);
    PointsOfCode(s);
    assert forall i :: 0 <= i < |c| ==> b[i] == c[i];
    assert Behind(b, |c| - 1);
    if |c| == 3 {
      assert !(0xD800 <= s[0] < 0xE000);
      assert ThreeAhead(b);
    } else if |c| == 4 {
      assert FourAhead(b);
      PairSplits(s[0], s[1]);
    }
  }

  /** What is written is read with as many units, and is the same text exactly
      when that has no half of a pair. */
  lemma {:induction false} Utf8RoundTripIff(s: Text)
    ensures |Decoded(Utf8(s))| == |s| && (Decoded(Utf8(s)) == s <==> Whole(s))
    decreases |s|
  {
    hide Code, First;
    if s != [] {
      var (n, tail) := (Lead(s), s[Lead(s)..]);
      var rest := Utf8(tail);
      Utf8RoundTripIff(tail);
      FirstOfCode(s, rest);
      var b := Code(s) + rest;
      assert b[|Code(s)|..] == rest;
      var d := Decoded(rest);
      assert Decoded(b) == Echo(s) + d;
      assert s == s[..n] + tail;
      if Decoded(b) == s {
        assert d == Decoded(b)[n..] == tail;
        assert Echo(s)[0] == s[0];
      }
    }
  }

  // ----------------------------------------------------------- protocol strings

  /** A text up to its first zero. */
  function UpToZero(s: Text): (r: Text)
    ensures r <= s && (r == s <==> 0 !in s)
  {
    if s == [] || s[0] == 0 then [] else [s[0]] + UpToZero(s[1..])
  }

  function Chopped(s: Text): Text {
    if |Utf8(s)| <= NAME_BYTES then s else Chopped(s[..|s| - 1])
  }

  /** The part of a name that is sent. */
  function Cut(s: Text): Text {
    Chopped(if |s| <= NAME_BYTES then s else s[..NAME_BYTES])
  }

  function ProtocolString(s: Text): (b: seq<byte>)
    ensures |b| == NAME_BYTES + 1
  {
    Fitting(if |s| <= NAME_BYTES then s else s[..NAME_BYTES]);
    Utf8(Cut(s)) + seq(NAME_BYTES + 1 - |Utf8(Cut(s))|, _ => 0)
  }

  function FromProtocolString(b: seq<byte>): Text {
    FromUtf8(UpToZero(b))
  }

  function Received(name: Text): Text {
    FromProtocolString(ProtocolString(name))
  }

  lemma {:induction false} Fitting(s: Text)
    ensures var c := Chopped(s);
            c <= s && |Utf8(c)| <= NAME_BYTES && forall k :: |c| < k <= |s| ==> |Utf8(s[..k])| > NAME_BYTES
    decreases |s|
  {
    hide Utf8;
    Empty();
    assert s[..|s|] == s;
    if |Utf8(s)| > NAME_BYTES {
      var t := s[..|s| - 1];
      Fitting(t);
      forall k | |Chopped(t)| < k <= |s| ensures |Utf8(s[..k])| > NAME_BYTES {
        if k < |s| { assert s[..k] == t[..k]; }
      }
    }
  }

  /** What is sent of a name is its longest part that fits, in whole units. */
  lemma CutIsLongest(s: Text, k: nat)
    requires k <= |s|
    ensures Cut(s) <= s && |Utf8(Cut(s))| <= NAME_BYTES
    ensures |Cut(s)| < k ==> |Utf8(s[..k])| > NAME_BYTES
  {
    hide Utf8, Chopped;
    var left := if |s| <= NAME_BYTES then s else s[..NAME_BYTES];
    Fitting(left);
    if |Cut(s)| < k <= |left| { assert s[..k] == left[..k]; }
  }

  lemma UpToZeroNext(c: Unit, s: Text)
    requires c != 0
    ensures UpToZero([c] + s) == [c] + UpToZero(s)
  {
    assert ([c] + s)[1..] == s;
  }

  lemma {:induction false} PassNonZero(a: seq<byte>, rest: seq<byte>)
    requires 0 !in a
    ensures UpToZero(a + rest) == a + UpToZero(rest)
  {
    hide UpToZero;
    if a == [] {
      assert a + rest == rest;
    } else {
      var tail := a[1..];
      PassNonZero(tail, rest);
      UpToZeroNext(a[0], tail + rest);
      assert a + rest == [a[0]] + (tail + rest);
      assert a + UpToZero(rest) == [a[0]] + (tail + UpToZero(rest));
    }
  }

  lemma SameCode(s: Text, z: Text)
    requires s != [] && z != [] && s[0] == z[0] && PairAhead(s) == PairAhead(z) && (PairAhead(s) ==> s[1] == z[1])
    ensures Lead(s) == Lead(z) && Code(s) == Code(z)
  {
  }

  lemma CodeHasNoZero(s: Text)
    requires s != [] && s[0] != 0
    ensures 0 !in Code(s)
  {
    hide Code, Point2, Point3, Point4;
    PointsOfCode(s);
    forall i | 0 <= i < |Code(s)| ensures Code(s)[i] != 0 {}
  }

  lemma UpToZeroAhead(s: Text)
    requires s != [] && s[0] != 0
    ensures var z := UpToZero(s); z != [] && Lead(z) == Lead(s) && Code(z) == Code(s) && z[Lead(s)..] == UpToZero(s[Lead(s)..])
  {
    hide Code;
    var (z, tail) := (UpToZero(s), UpToZero(s[1..]));
    assert z == [s[0]] + tail;
    assert z[1..] == tail;
    if PairAhead(s) {
      assert s[1..][1..] == s[2..];
      assert tail == [s[1]] + UpToZero(s[2..]);
    } else if |tail| > 0 {
      assert tail[0] == s[1];
    }
    SameCode(s, z);
  }

  /** The first zero byte is the first zero of the text. */
  lemma {:induction false} ZeroOfUtf8(s: Text, pad: seq<byte>)
    requires pad == [] || pad[0] == 0
    ensures UpToZero(Utf8(s) + pad) == Utf8(UpToZero(s))
    decreases |s|
  {
    hide Code, UpToZero, Lead;
    if s == [] {
      assert Utf8(s) + pad == pad;
      NothingBeforeZero(pad);
      NothingBeforeZero(s);
    } else if s[0] == 0 {
      CodeOfZero(s);
      NothingBeforeZero(s);
      NothingBeforeZero(Utf8(s) + pad);
    } else {
      var tail := s[Lead(s)..];
      ZeroOfUtf8(tail, pad);
      UpToZeroAhead(s);
      CodeHasNoZero(s);
      PassNonZero(Code(s), Utf8(tail) + pad);
      assert Utf8(s) + pad == Code(s) + (Utf8(tail) + pad);
    }
  }

  lemma NothingBeforeZero(s: Text)
    requires s == [] || s[0] == 0
    ensures UpToZero(s) == []
  {
  }

  lemma CodeOfZero(s: Text)
    requires s != [] && s[0] == 0
    ensures Code(s) == [0]
  {
  }

  lemma CodeOfMark(s: Text)
    requires s != [] && s[0] == MARK_UNIT
    ensures Code(s) == MARK
  {
  }

  lemma FirstOfMark(b: seq<byte>)
    requires MARK <= b
    ensures First(b) == ([MARK_UNIT], 3)
  {
    assert b[0] == 0xEF && b[1] == 0xBB && b[2] == 0xBF;
    assert Behind(b, 2);
  }

  lemma MarkAhead(s: Text)
    ensures MARK <= Utf8(s) <==> s != [] && s[0] == MARK_UNIT
    ensures MARK <= Utf8(s) ==> Utf8(s)[3..] == Utf8(s[1..])
  {
    hide Code, First;
    if s != [] {
      var rest := Utf8(s[Lead(s)..]);
      assert Utf8(s) == Code(s) + rest;
      if s[0] == MARK_UNIT { CodeOfMark(s); }
      if MARK <= Utf8(s) {
        FirstOfMark(Utf8(s));
        FirstOfCode(s, rest);
        assert |Code(s)| == 3 && Echo(s) == [MARK_UNIT];
        assert Lead(s) == 1;
      }
    }
  }

  /** A name survives exactly when its UTF-8 has at most 31 bytes, it has no
      zero and no half of a pair, and no byte order mark is in front. */
  lemma NameRoundTripIff(name: Text)
    ensures Received(name) == name <==>
            |Utf8(name)| <= NAME_BYTES && 0 !in name && Whole(name) && !(name != [] && name[0] == MARK_UNIT)
  {
    hide Utf8, Decoded, Chopped, UpToZero, Whole, Cut;
    var z := UpToZero(Cut(name));
    CutIsLongest(name, |name|);
    assert name[..|name|] == name;
    MarkAhead(z);
    var w := if MARK <= Utf8(z) then z[1..] else z;
    ReceivedAs(name);
    Utf8RoundTripIff(w);
    if w == name { assert |w| <= |z| <= |Cut(name)| <= |name|; }
  }

  /** What arrives: the part up to a zero, without a mark in front. */
  lemma ReceivedAs(name: Text)
    ensures var z := UpToZero(Cut(name)); Received(name) == Decoded(Utf8(if MARK <= Utf8(z) then z[1..] else z))
  {
    hide Utf8, Decoded, UpToZero, Cut;
    CutIsLongest(name, 0);
    var (c, z) := (Cut(name), UpToZero(Cut(name)));
    ZeroOfUtf8(c, seq(NAME_BYTES + 1 - |Utf8(c)|, _ => 0));
    MarkAhead(z);
  }

  /** `Message::ToProtocolString`. The test for a failed chop is left out: the
      loop ends before the text is empty. */
  method ToProtocolString(str: Text) returns (utf8: seq<byte>)
    ensures utf8 == ProtocolString(str)
  {
    hide Utf8;
    var chopped := if |str| <= NAME_BYTES then str else str[..NAME_BYTES];
    utf8 := Utf8(chopped);
    while |utf8| > NAME_BYTES
      invariant utf8 == Utf8(chopped) && Chopped(chopped) == Cut(str)
      decreases |chopped|
    {
      Empty();
      chopped := chopped[..|chopped| - 1];
      utf8 := Utf8(chopped);
    }
    utf8 := utf8 + seq(NAME_BYTES + 1 - |utf8|, _ => 0);
  }

  lemma Empty()
    ensures Utf8([]) == []
  {
  }
}

/** What rewriting a template in place computes: a filling from left to right
    that does not look at the characters skipped after a short insertion, and
    exactly when that is the substitution of all holes at once. */
module SendPathRefines {
  import opened Basics
  import opened Decimal
  import opened SendPath

  // --------------------------------------------- the scan, read off the template

  /** Characters in which no number is looked for after a hole of `n` digits. */
  function Blind(n: nat, ins: string): nat {
    if |ins| >= n then 0 else n - |ins|
  }

  /** The rest of the work from position `p` of the template with `n` digits
      passed, `t[b..]` being untouched. */
  function Fill(t: string, b: nat, p: nat, n: nat, src: Source): Outcome
    requires b <= |t| && b + n <= p
    decreases if p > |t| then 0 else |t| + 1 - p
  {
    if p > |t| then Path(t[b..])
    else if p < |t| && IsDigit(t[p]) then Fill(t, b, p + 1, n + 1, src)
    else if AtMark(t, b, p, n) then
      var start := p - n - 1;
      if Escaped(t, b, start) then Prefixed(t[b..start] + t[start + 1..p], Fill(t, p, p + 1, 0, src))
      else
        var ins := Replacement(t[start + 1..p], src);
        if ins == "" then Missing
        else if '%' in ins then Wild
        else Prefixed(t[b..start] + ins, Fill(t, p, p + 1 + Blind(n, ins), 0, src))
    else Fill(t, b, p + 1, 0, src)
  }

  lemma FillMark(t: string, b: nat, p: nat, n: nat, src: Source)
    requires b + n <= p <= |t| && AtMark(t, b, p, n) && (p < |t| ==> !IsDigit(t[p]))
    ensures var start := p - n - 1;
            Fill(t, b, p, n, src) ==
            if Escaped(t, b, start) then Prefixed(t[b..start] + t[start + 1..p], Fill(t, p, p + 1, 0, src))
            else var ins := Replacement(t[start + 1..p], src);
              if ins == "" then Missing
              else if '%' in ins then Wild
              else Prefixed(t[b..start] + ins, Fill(t, p, p + 1 + Blind(n, ins), 0, src))
  {
    hide Replacement;
  }

  lemma FillDigit(t: string, b: nat, p: nat, n: nat, src: Source)
    requires b + n <= p < |t| && IsDigit(t[p])
    ensures Fill(t, b, p, n, src) == Fill(t, b, p + 1, n + 1, src)
  {
    hide Replacement;
  }

  lemma FillPlain(t: string, b: nat, p: nat, n: nat, src: Source)
    requires b + n <= p <= |t| && !AtMark(t, b, p, n) && (p < |t| ==> !IsDigit(t[p]))
    ensures Fill(t, b, p, n, src) == if p < |t| then Fill(t, b, p + 1, 0, src) else Path(t[b..])
  {
    hide Replacement;
  }

  lemma FillEnd(t: string, b: nat, p: nat, n: nat, src: Source)
    requires b <= |t| < p && b + n <= p
    ensures Fill(t, b, p, n, src) == Path(t[b..])
  {
  }

  /** `done` is final, `t[b..]` still the template, and the scan stands at `p`. */
  ghost predicate InStep(done: string, t: string, b: nat, p: nat, n: nat) {
    && b <= |t| && b + n <= p
    && (if b == 0 then done == "" else done != "" && done[|done| - 1] != '%' && b + n < p)
    && (p <= |t| ==> Digits(t[p - n..p]))
  }

  /** Looking back from the end of a run, the rewritten path and the template
      show the same characters. */
  lemma LooksBack(done: string, t: string, b: nat, p: nat, n: nat)
    requires InStep(done, t, b, p, n) && n > 0 && p <= |t|
    ensures var s, i := done + t[b..], |done| + p - b;
            var st, start := i - n - 1, p - n - 1;
            && n <= i && s[i..] == t[p..]
            && (st > 0 && s[st] == '%' <==> start > 0 && start >= b && t[start] == '%')
            && (start > 0 && start >= b ==>
                  && s[..st] == done + t[b..start] && s[st + 1..] == t[start + 1..] && s[st + 1..i] == t[start + 1..p]
                  && (st - 1 > 0 && s[st - 1] == '%' <==> start - 1 > 0 && start - 1 >= b && t[start - 1] == '%'))
  {
  }

  /** Text just inserted before position `m` is passed over without effect. */
  lemma {:induction false} PassInserted(s: string, lo: nat, i: nat, n: nat, m: nat, src: Source)
    requires lo + n < i <= m <= |s| && '%' !in s[lo..m]
    requires m < |s| ==> !IsDigit(s[m])
    ensures Scan(s, i, n, src) == Scan(s, m + 1, 0, src)
    decreases m - i
  {
    hide Replacement;
    assert i - n - 1 >= lo;
    assert s[i - n - 1] == s[lo..m][i - n - 1 - lo];
    if i < m {
      PassInserted(s, lo, i + 1, if IsDigit(s[i]) then n + 1 else 0, m, src);
    }
  }

  lemma {:induction false} EscapedRun(done: string, t: string, b: nat, p: nat, n: nat, src: Source)
    requires p <= |t| && InStep(done, t, b, p, n) && AtMark(t, b, p, n) && Escaped(t, b, p - n - 1)
    requires p < |t| ==> !IsDigit(t[p])
    ensures var done' := done + (t[b..p - n - 1] + t[p - n..p]);
            && InStep(done', t, p, p + 1, 0)
            && Scan(done + t[b..], |done| + p - b, n, src) == Scan(done' + t[p..], |done'| + 1, 0, src)
  {
    hide Replacement, Scan;
    LooksBack(done, t, b, p, n);
    var s, i, start := done + t[b..], |done| + p - b, p - n - 1;
    var done' := done + (t[b..start] + t[start + 1..p]);
    assert t[start + 1..] == t[start + 1..p] + t[p..];
    assert s[..i - n - 1] + s[i - n..] == done' + t[p..];
    assert done'[|done'| - 1] == t[p - n..p][n - 1];
    assert i == |done'| + 1;
    ScanStop(s, i, n, src);
  }

  lemma FilledText(done: string, t: string, b: nat, p: nat, n: nat, ins: string)
    requires b + n + 1 <= p <= |t| && ins != ""
    ensures var s, done' := done + t[b..], done + (t[b..p - n - 1] + ins);
            var i := |done| + p - b;
            && s[..i - n - 1] + ins + s[i..] == done' + t[p..]
            && done'[i - n - 1..] == ins && done'[|done'| - 1] == ins[|ins| - 1]
            && i == |done'| + 1 + n - |ins|
  {
    var s, i := done + t[b..], |done| + p - b;
    assert s[..i - n - 1] == done + t[b..p - n - 1];
    assert s[i..] == t[p..];
  }

  lemma FilledStop(done: string, t: string, b: nat, p: nat, n: nat, src: Source)
    requires p <= |t| && InStep(done, t, b, p, n) && AtMark(t, b, p, n) && !Escaped(t, b, p - n - 1)
    requires p < |t| ==> !IsDigit(t[p])
    ensures n > 0 && b + n + 1 <= p
    ensures var s, i, ins := done + t[b..], |done| + p - b, Replacement(t[p - n..p], src);
            Scan(s, i, n, src) ==
            if ins == "" then Missing else if '%' in ins then Wild else Scan(s[..i - n - 1] + ins + s[i..], i, 0, src)
  {
    hide Replacement, Scan;
    LooksBack(done, t, b, p, n);
    ScanStop(done + t[b..], |done| + p - b, n, src);
  }

  lemma {:induction false} FilledRun(done: string, t: string, b: nat, p: nat, n: nat, src: Source)
    requires p <= |t| && InStep(done, t, b, p, n) && AtMark(t, b, p, n) && !Escaped(t, b, p - n - 1)
    requires p < |t| ==> !IsDigit(t[p])
    ensures var ins := Replacement(t[p - n..p], src);
            var done' := done + (t[b..p - n - 1] + ins);
            Scan(done + t[b..], |done| + p - b, n, src) ==
            if ins == "" then Missing else if '%' in ins then Wild
            else Scan(done' + t[p..], |done'| + 1 + Blind(n, ins), 0, src)
  {
    hide Replacement, Scan, InStep, Escaped, AtMark, Blind;
    FilledStop(done, t, b, p, n, src);
    var i, ins := |done| + p - b, Replacement(t[p - n..p], src);
    if ins != "" && '%' !in ins {
      FilledText(done, t, b, p, n, ins);
      AfterInsertion(done + (t[b..p - n - 1] + ins), t, p, i, n, ins, src);
    }
  }

  lemma AfterInsertion(done: string, t: string, p: nat, i: nat, n: nat, ins: string, src: Source)
    requires p <= |t| && (p < |t| ==> !IsDigit(t[p])) && n > 0
    requires i >= n + 1 && i - n - 1 <= |done| && done[i - n - 1..] == ins && '%' !in ins && i == |done| + 1 + n - |ins|
    ensures Scan(done + t[p..], i, 0, src) == Scan(done + t[p..], |done| + 1 + Blind(n, ins), 0, src)
  {
    hide Replacement, Scan;
    if i <= |done| {
      assert (done + t[p..])[i - n - 1..|done|] == ins;
      PassInserted(done + t[p..], i - n - 1, i, 0, |done|, src);
    }
  }

  lemma DigitStep(done: string, t: string, b: nat, p: nat, n: nat, src: Source)
    requires InStep(done, t, b, p, n) && p < |t| && IsDigit(t[p])
    ensures InStep(done, t, b, p + 1, n + 1)
    ensures Scan(done + t[b..], |done| + p - b, n, src) == Scan(done + t[b..], |done| + (p + 1) - b, n + 1, src)
  {
    hide Replacement, Scan;
    assert (done + t[b..])[|done| + p - b] == t[p];
    ScanDigit(done + t[b..], |done| + p - b, n, src);
    LongerRun(t, p, n);
  }

  lemma PlainStep(done: string, t: string, b: nat, p: nat, n: nat, src: Source)
    requires InStep(done, t, b, p, n) && p <= |t| && !AtMark(t, b, p, n) && (p < |t| ==> !IsDigit(t[p]))
    ensures InStep(done, t, b, p + 1, 0)
    ensures Scan(done + t[b..], |done| + p - b, n, src) == Scan(done + t[b..], |done| + (p + 1) - b, 0, src)
  {
    hide Replacement, Scan;
    if n > 0 { LooksBack(done, t, b, p, n); }
    ScanPlain(done + t[b..], |done| + p - b, n, src);
  }

  lemma EndStep(done: string, t: string, b: nat, p: nat, n: nat, src: Source)
    requires InStep(done, t, b, p, n) && |t| < p
    ensures Scan(done + t[b..], |done| + p - b, n, src) == Path(done + t[b..])
  {
    hide Replacement, Scan;
    ScanEnd(done + t[b..], |done| + p - b, n, src);
  }

  lemma InBounds(done: string, t: string, b: nat, p: nat, n: nat)
    requires InStep(done, t, b, p, n)
    ensures b <= |t| && b + n <= p
  {
  }

  /** In every step the scan does what the template says. */
  lemma {:induction false} ScanFills(done: string, t: string, b: nat, p: nat, n: nat, src: Source)
    requires InStep(done, t, b, p, n)
    ensures Scan(done + t[b..], |done| + p - b, n, src) == Prefixed(done, Fill(t, b, p, n, src))
    decreases if p > |t| then 0 else |t| + 1 - p
  {
    hide Replacement, Scan, Fill, InStep, AtMark;
    InBounds(done, t, b, p, n);
    if p > |t| {
      EndStep(done, t, b, p, n, src);
      FillEnd(t, b, p, n, src);
    } else if p < |t| && IsDigit(t[p]) {
      FillDigit(t, b, p, n, src);
      DigitStep(done, t, b, p, n, src);
      ScanFills(done, t, b, p + 1, n + 1, src);
    } else if AtMark(t, b, p, n) {
      ScanFillsMark(done, t, b, p, n, src);
    } else {
      FillPlain(t, b, p, n, src);
      PlainStep(done, t, b, p, n, src);
      if p < |t| {
        ScanFills(done, t, b, p + 1, 0, src);
      } else {
        EndStep(done, t, b, p + 1, 0, src);
      }
    }
  }

  lemma {:induction false} ScanFillsMark(done: string, t: string, b: nat, p: nat, n: nat, src: Source)
    requires p <= |t| && InStep(done, t, b, p, n) && AtMark(t, b, p, n) && (p < |t| ==> !IsDigit(t[p]))
    ensures Scan(done + t[b..], |done| + p - b, n, src) == Prefixed(done, Fill(t, b, p, n, src))
    decreases |t| + 1 - p, 0
  {
    hide Replacement, Scan, Fill, Blind;
    FillMark(t, b, p, n, src);
    var start := p - n - 1;
    if Escaped(t, b, start) {
      EscapedRun(done, t, b, p, n, src);
      var front := t[b..start] + t[start + 1..p];
      ScanFills(done + front, t, p, p + 1, 0, src);
      PrefixedTwice(done, front, Fill(t, p, p + 1, 0, src));
    } else {
      FilledRun(done, t, b, p, n, src);
      var ins := Replacement(t[start + 1..p], src);
      if ins != "" && '%' !in ins {
        var front := t[b..start] + ins;
        assert (done + front)[|done + front| - 1] == ins[|ins| - 1];
        ScanFills(done + front, t, p, p + 1 + Blind(n, ins), 0, src);
        PrefixedTwice(done, front, Fill(t, p, p + 1 + Blind(n, ins), 0, src));
      }
    }
  }

  lemma PrefixedTwice(a: string, b: string, o: Outcome)
    ensures Prefixed(a, Prefixed(b, o)) == Prefixed(a + b, o)
  {
    if o.Path? { assert a + (b + o.text) == a + b + o.text; }
  }

  // ---------------------------------------------------- the filling, piece by piece

  /** Fills holes and strips escapes from left to right. In the first `blind`
      characters no '%' is seen that is followed by its number there. */
  function Walked(pieces: seq<Piece>, blind: nat, src: Source): Outcome {
    if pieces == [] then Path("")
    else
      var piece, rest := pieces[0], pieces[1..];
      match piece
      case Text(text) => Prefixed(text, Walked(rest, Less(blind, |text|), src))
      case Escape(digits) =>
        if blind <= 1 then Prefixed("%" + digits, Walked(rest, 0, src))
        else Prefixed(Written(piece), Walked(rest, Less(blind, |Written(piece)|), src))
      case Hole(digits) =>
        var ins := Replacement(digits, src);
        if blind > 0 then Prefixed(Written(piece), Walked(rest, Less(blind, |Written(piece)|), src))
        else if ins == "" then Missing
        else if '%' in ins then Wild
        else Prefixed(ins, Walked(rest, Blind(|digits|, ins), src))
  }

  function Less(a: nat, b: nat): nat { if a > b then a - b else 0 }

  /** Where the scan stands when it looks at `t[b..]`. */
  predicate Stands(b: nat, p: nat, blind: nat) {
    p == b + 1 + blind || (p == b && blind == 0)
  }

  /** The filling that started at `p` as it stands at `x`. */
  function Look(t: string, b: nat, x: nat, m: nat, p: nat, src: Source): Outcome
    requires b + m <= x <= |t| && b <= p
  {
    if p > x then Fill(t, b, p, 0, src) else Fill(t, b, x, if m <= x - p then m else x - p, src)
  }

  /** What has been passed can as well be final. */
  lemma {:induction false} Rebased(t: string, b: nat, c: nat, p: nat, n: nat, src: Source)
    requires b <= c <= |t| && c + n < p && 0 < c && t[c - 1] != '%'
    ensures Fill(t, b, p, n, src) == Prefixed(t[b..c], Fill(t, c, p, n, src))
    decreases if p > |t| then 0 else |t| + 1 - p
  {
    hide Replacement, Fill, Blind;
    if p > |t| {
      FillEnd(t, b, p, n, src);
      FillEnd(t, c, p, n, src);
      assert t[b..] == t[b..c] + t[c..];
    } else if p < |t| && IsDigit(t[p]) {
      FillDigit(t, b, p, n, src);
      FillDigit(t, c, p, n, src);
      Rebased(t, b, c, p + 1, n + 1, src);
    } else if AtMark(t, b, p, n) {
      RebasedMark(t, b, c, p, n, src);
    } else {
      FillPlain(t, b, p, n, src);
      FillPlain(t, c, p, n, src);
      if p < |t| {
        Rebased(t, b, c, p + 1, 0, src);
      } else {
        assert t[b..] == t[b..c] + t[c..];
      }
    }
  }

  lemma RebasedMark(t: string, b: nat, c: nat, p: nat, n: nat, src: Source)
    requires b <= c <= |t| && c + n < p <= |t| && 0 < c && t[c - 1] != '%'
    requires AtMark(t, b, p, n) && (p < |t| ==> !IsDigit(t[p]))
    ensures Fill(t, b, p, n, src) == Prefixed(t[b..c], Fill(t, c, p, n, src))
  {
    hide Replacement, Fill, Blind;
    var start := p - n - 1;
    FillMark(t, b, p, n, src);
    FillMark(t, c, p, n, src);
    assert t[b..start] == t[b..c] + t[c..start];
    assert Escaped(t, b, start) <==> Escaped(t, c, start);
    var ins := Replacement(t[start + 1..p], src);
    var tail := t[start + 1..p];
    if Escaped(t, b, start) {
      assert t[b..start] + tail == t[b..c] + (t[c..start] + tail);
      PrefixedTwice(t[b..c], t[c..start] + tail, Fill(t, p, p + 1, 0, src));
    } else {
      assert t[b..start] + ins == t[b..c] + (t[c..start] + ins);
      PrefixedTwice(t[b..c], t[c..start] + ins, Fill(t, p, p + 1 + Blind(n, ins), 0, src));
    }
  }

  lemma WalkedText(text: string, blind: nat, src: Source)
    ensures Walked([], blind, src) == Path("") && Walked([Text(text)], blind, src) == Path(text)
  {
    assert [Text(text)][1..] == [];
    assert text + "" == text;
  }

  lemma WalkedPair(a: Piece, c: Piece, rest: seq<Piece>, blind: nat, src: Source)
    requires a.Text? && !c.Text?
    ensures var left := Less(blind, |a.text|);
            Walked([a, c] + rest, blind, src) ==
            if c.Escape? && left <= 1 then Prefixed(a.text + ("%" + c.digits), Walked(rest, 0, src))
            else if c.Escape? || left > 0 then Prefixed(a.text + Written(c), Walked(rest, Less(left, |Written(c)|), src))
            else var ins := Replacement(c.digits, src);
              if ins == "" then Missing else if '%' in ins then Wild
              else Prefixed(a.text + ins, Walked(rest, Blind(|c.digits|, ins), src))
  {
    hide Replacement, Blind;
    var left := Less(blind, |a.text|);
    assert ([a, c] + rest)[1..] == [c] + rest && ([c] + rest)[1..] == rest;
    PrefixedTwice(a.text, "%" + c.digits, Walked(rest, 0, src));
    PrefixedTwice(a.text, Written(c), Walked(rest, Less(left, |Written(c)|), src));
    PrefixedTwice(a.text, Replacement(c.digits, src), Walked(rest, Blind(|c.digits|, Replacement(c.digits, src)), src));
  }

  /** The filling of the template is the walk over its pieces. */
  lemma {:induction false} FillWalks(t: string, b: nat, x: nat, m: nat, p: nat, blind: nat, src: Source)
    requires b + m <= x <= |t| && Digits(t[x - m..x]) && Stands(b, p, blind)
    ensures Look(t, b, x, m, p, src) == Walked(PiecesFrom(t, b, x, m), blind, src)
    decreases |t| - x
  {
    hide Replacement, Fill, Walked, PiecesFrom;
    var k := if p > x then 0 else if m <= x - p then m else x - p;
    if x < |t| && IsDigit(t[x]) {
      PiecesDigit(t, b, x, m);
      if p <= x { FillDigit(t, b, x, k, src); }
      LongerRun(t, x, m);
      FillWalks(t, b, x + 1, m + 1, p, blind, src);
    } else if AtMark(t, b, x, m) {
      if p <= x - m {
        SeenMark(t, b, x, m, p, blind, src);
      } else {
        PassedMark(t, b, x, m, p, blind, src);
      }
    } else {
      PiecesPlain(t, b, x, m);
      if p <= x {
        NoMark(t, b, x, m, k);
        FillPlain(t, b, x, k, src);
      }
      if x < |t| {
        FillWalks(t, b, x + 1, 0, p, blind, src);
      } else {
        WalkedText(t[b..], blind, src);
        if p > x { FillEnd(t, b, p, 0, src); }
      }
    }
  }

  lemma NoMark(t: string, b: nat, x: nat, m: nat, k: nat)
    requires b + m <= x <= |t| && Digits(t[x - m..x]) && k <= m && (k < m || !AtMark(t, b, x, m))
    ensures !AtMark(t, b, x, k)
  {
    if 0 < k < m { assert IsDigit(t[x - m..x][m - k - 1]); }
  }

  lemma {:induction false} SeenMark(t: string, b: nat, x: nat, m: nat, p: nat, blind: nat, src: Source)
    requires b + m <= x <= |t| && Digits(t[x - m..x]) && Stands(b, p, blind)
    requires AtMark(t, b, x, m) && (x < |t| ==> !IsDigit(t[x])) && p <= x - m
    ensures Look(t, b, x, m, p, src) == Walked(PiecesFrom(t, b, x, m), blind, src)
    decreases |t| - x, 1
  {
    hide Replacement, Fill, Walked, PiecesFrom, Blind;
    var start, rest := x - m - 1, PiecesAfter(t, x);
    PiecesAtMark(t, b, x, m);
    FillMark(t, b, x, m, src);
    if Escaped(t, b, start) {
      WalkedPair(Text(t[b..start - 1]), Escape(t[start + 1..x]), rest, blind, src);
      assert t[b..start] + t[start + 1..x] == t[b..start - 1] + ("%" + t[start + 1..x]);
      AfterMark(t, x, 0, src);
    } else {
      WalkedPair(Text(t[b..start]), Hole(t[start + 1..x]), rest, blind, src);
      AfterMark(t, x, Blind(m, Replacement(t[start + 1..x], src)), src);
    }
  }

  lemma {:induction false} AfterMark(t: string, x: nat, blind: nat, src: Source)
    requires 0 < x <= |t| && (x < |t| ==> !IsDigit(t[x]))
    ensures Fill(t, x, x + 1 + blind, 0, src) == Walked(PiecesAfter(t, x), blind, src)
    decreases |t| - x, 0
  {
    hide Replacement, Fill, Walked, PiecesFrom;
    if x < |t| {
      FillWalks(t, x, x + 1, 0, x + 1 + blind, blind, src);
    } else {
      FillEnd(t, x, x + 1 + blind, 0, src);
      WalkedText("", blind, src);
    }
  }

  lemma PassedLook(t: string, b: nat, x: nat, m: nat, p: nat, blind: nat, src: Source)
    requires b + m <= x <= |t| && Digits(t[x - m..x]) && Stands(b, p, blind)
    requires AtMark(t, b, x, m) && (x < |t| ==> !IsDigit(t[x])) && p > x - m
    ensures var p' := x + 1 + Less(blind, x - b);
            Look(t, b, x, m, p, src) == Fill(t, b, p', 0, src) == Prefixed(t[b..x], Fill(t, x, p', 0, src))
  {
    hide Replacement, Fill;
    var left := Less(blind, x - b);
    if p <= x {
      NoMark(t, b, x, m, x - p);
      FillPlain(t, b, x, x - p, src);
      if x == |t| { FillEnd(t, b, x + 1, 0, src); }
    }
    assert t[x - 1] == t[x - m..x][m - 1];
    Rebased(t, b, x, x + 1 + left, 0, src);
  }

  /** A mark that is not seen is copied. */
  lemma WalkedPast(a: Piece, c: Piece, rest: seq<Piece>, blind: nat, src: Source)
    requires a.Text? && !c.Text? && Less(blind, |a.text|) > if c.Escape? then 1 else 0
    ensures var front := a.text + Written(c);
            Walked([a, c] + rest, blind, src) == Prefixed(front, Walked(rest, Less(blind, |front|), src))
  {
    hide Replacement, Walked, Blind;
    WalkedPair(a, c, rest, blind, src);
  }

  lemma WrittenBack(t: string, b: nat, x: nat, start: nat)
    requires b <= start < x <= |t| && t[start] == '%'
    ensures t[b..start] + ("%" + t[start + 1..x]) == t[b..x]
    ensures Escaped(t, b, start) ==> t[b..start - 1] + ("%%" + t[start + 1..x]) == t[b..x]
  {
  }

  lemma PassedWalk(t: string, b: nat, x: nat, m: nat, p: nat, blind: nat, src: Source)
    requires b + m <= x <= |t| && Digits(t[x - m..x]) && Stands(b, p, blind)
    requires AtMark(t, b, x, m) && (x < |t| ==> !IsDigit(t[x])) && p > x - m
    ensures Walked(PiecesFrom(t, b, x, m), blind, src) == Prefixed(t[b..x], Walked(PiecesAfter(t, x), Less(blind, x - b), src))
  {
    hide Replacement, Walked, PiecesFrom, PiecesAfter, Blind, Digits;
    var start, rest := x - m - 1, PiecesAfter(t, x);
    PiecesAtMark(t, b, x, m);
    WrittenBack(t, b, x, start);
    if Escaped(t, b, start) {
      WalkedPast(Text(t[b..start - 1]), Escape(t[start + 1..x]), rest, blind, src);
    } else {
      WalkedPast(Text(t[b..start]), Hole(t[start + 1..x]), rest, blind, src);
    }
  }

  lemma {:induction false} PassedMark(t: string, b: nat, x: nat, m: nat, p: nat, blind: nat, src: Source)
    requires b + m <= x <= |t| && Digits(t[x - m..x]) && Stands(b, p, blind)
    requires AtMark(t, b, x, m) && (x < |t| ==> !IsDigit(t[x])) && p > x - m
    ensures Look(t, b, x, m, p, src) == Walked(PiecesFrom(t, b, x, m), blind, src)
    decreases |t| - x, 1
  {
    hide Replacement, Fill, Walked, PiecesFrom, Look;
    PassedLook(t, b, x, m, p, blind, src);
    PassedWalk(t, b, x, m, p, blind, src);
    AfterMark(t, x, Less(blind, x - b), src);
  }

  /** For every template and every source: rewriting in place is the walk. */
  lemma ScanIsWalk(t: string, src: Source)
    ensures Scan(t, 0, 0, src) == Walked(Pieces(t), 0, src)
  {
    hide Scan, Fill, Walked, PiecesFrom, Replacement;
    assert "" + t[0..] == t;
    ScanFills("", t, 0, 0, 0, src);
    FillWalks(t, 0, 0, 0, 0, 0, src);
    var o := Fill(t, 0, 0, 0, src);
    if o.Path? { assert "" + o.text == o.text; }
  }

  // ------------------------------------------------------- the shape of a template

  /** Text, mark, text, mark, and so on; every mark has a number. */
  predicate Shaped(pieces: seq<Piece>) {
    pieces == [] ||
    (pieces[0].Text? &&
     (|pieces| == 1 || (!pieces[1].Text? && pieces[1].digits != "" && Digits(pieces[1].digits) && Shaped(pieces[2..]))))
  }

  lemma ShapedPair(a: Piece, c: Piece, rest: seq<Piece>)
    requires a.Text? && !c.Text? && c.digits != "" && Digits(c.digits) && Shaped(rest)
    ensures Shaped([a, c] + rest)
  {
    assert ([a, c] + rest)[2..] == rest;
  }

  lemma {:induction false} PiecesShaped(t: string, b: nat, p: nat, n: nat)
    requires b + n <= p <= |t| && Digits(t[p - n..p])
    ensures Shaped(PiecesFrom(t, b, p, n))
    decreases |t| - p
  {
    hide PiecesFrom;
    if p < |t| && IsDigit(t[p]) {
      PiecesDigit(t, b, p, n);
      LongerRun(t, p, n);
      PiecesShaped(t, b, p + 1, n + 1);
    } else if AtMark(t, b, p, n) {
      var start := p - n - 1;
      PiecesAtMark(t, b, p, n);
      if p < |t| { PiecesShaped(t, p, p + 1, 0); }
      if Escaped(t, b, start) {
        ShapedPair(Text(t[b..start - 1]), Escape(t[start + 1..p]), PiecesAfter(t, p));
      } else {
        ShapedPair(Text(t[b..start]), Hole(t[start + 1..p]), PiecesAfter(t, p));
      }
    } else {
      PiecesPlain(t, b, p, n);
      if p < |t| { PiecesShaped(t, b, p + 1, 0); }
    }
  }

  // ------------------------------------------------ when it is the substitution

  /** The next number, if there is one, begins behind what is skipped. */
  predicate Room(pieces: seq<Piece>, blind: nat) {
    |pieces| >= 2 && pieces[0].Text? ==> blind <= |pieces[0].text| + if pieces[1].Escape? then 1 else 0
  }

  /** If piece `i` is a hole, its text makes up, together with the text up to the
      next '%', or the second one of an escape, for its own number. */
  predicate RoomAfter(pieces: seq<Piece>, i: nat, src: Source)
    requires i + 2 < |pieces|
  {
    pieces[i].Hole? && pieces[i + 1].Text? && Replacement(pieces[i].digits, src) != "" ==>
      |pieces[i].digits| <= |Replacement(pieces[i].digits, src)| + |pieces[i + 1].text| + if pieces[i + 2].Escape? then 1 else 0
  }

  /** No insertion is so short that the next number is skipped. */
  predicate Roomy(pieces: seq<Piece>, src: Source) {
    forall i :: 0 <= i < |pieces| - 2 ==> RoomAfter(pieces, i, src)
  }

  lemma RoomAfterShifts(a: Piece, c: Piece, rest: seq<Piece>, i: nat, src: Source)
    requires i + 2 < |rest|
    ensures RoomAfter([a, c] + rest, i + 2, src) <==> RoomAfter(rest, i, src)
  {
    hide Replacement;
    var all := [a, c] + rest;
    assert all[i + 2] == rest[i] && all[i + 3] == rest[i + 1] && all[i + 4] == rest[i + 2];
  }

  lemma RoomAfterFirst(a: Piece, c: Piece, rest: seq<Piece>, src: Source)
    requires a.Text? && !c.Text? && Shaped(rest) && |rest| > 0
    ensures RoomAfter([a, c] + rest, 0, src)
    ensures |rest| >= 2 ==>
              (RoomAfter([a, c] + rest, 1, src) <==>
               (c.Hole? && Replacement(c.digits, src) != "" ==> Room(rest, Blind(|c.digits|, Replacement(c.digits, src)))))
  {
    hide Replacement;
    var all := [a, c] + rest;
    assert all[0] == a && all[1] == c && all[2] == rest[0];
    if |rest| >= 2 { assert all[3] == rest[1]; }
  }

  lemma RoomyPair(a: Piece, c: Piece, rest: seq<Piece>, src: Source)
    requires a.Text? && !c.Text? && Shaped(rest)
    ensures Roomy([a, c] + rest, src) <==>
            Roomy(rest, src) &&
            (c.Hole? && Replacement(c.digits, src) != "" ==> Room(rest, Blind(|c.digits|, Replacement(c.digits, src))))
  {
    hide Replacement, RoomAfter, Blind, Shaped;
    var all := [a, c] + rest;
    if rest != [] { RoomAfterFirst(a, c, rest, src); }
    forall i | 0 <= i < |rest| - 2
      ensures RoomAfter(all, i + 2, src) <==> RoomAfter(rest, i, src)
    {
      RoomAfterShifts(a, c, rest, i, src);
    }
    if Roomy(rest, src) {
      forall i | 2 <= i < |all| - 2 ensures RoomAfter(all, i, src) {
        assert RoomAfter(rest, i - 2, src);
        assert RoomAfter(all, (i - 2) + 2, src);
      }
    }
  }

  lemma FilledNothing(text: string, src: Source)
    ensures Filled([], src) == Some("") && Filled([Text(text)], src) == Some(text)
  {
    assert [Text(text)][1..] == [];
    assert text + "" == text;
  }

  lemma FilledPair(a: Piece, c: Piece, rest: seq<Piece>, src: Source)
    requires a.Text? && !c.Text?
    ensures var o := Filled(rest, src);
            var text := if c.Escape? then "%" + c.digits else Replacement(c.digits, src);
            Filled([a, c] + rest, src) == if (c.Hole? && text == "") || o.None? then None else Some(a.text + text + o.value)
  {
    hide Replacement;
    assert ([a, c] + rest)[1..] == [c] + rest && ([c] + rest)[1..] == rest;
    var o := Filled(rest, src);
    var text := if c.Escape? then "%" + c.digits else Replacement(c.digits, src);
    if o.Some? { assert a.text + (text + o.value) == a.text + text + o.value; }
  }

  lemma PlainPair(a: Piece, c: Piece, rest: seq<Piece>, src: Source)
    requires PlainTexts([a, c] + rest, src)
    ensures PlainTexts(rest, src) && (c.Hole? ==> '%' !in Replacement(c.digits, src))
  {
    hide Replacement;
    var all := [a, c] + rest;
    assert all[1] == c;
    assert forall i :: 0 <= i < |rest| ==> all[i + 2] == rest[i];
  }

  /** A number that is skipped leaves a '%' where the substitution has none. */
  lemma SkippedDiffers(a: Piece, c: Piece, blind: nat, w: Outcome, sub: string, src: Source)
    requires a.Text? && !c.Text? && c.digits != "" && Digits(c.digits)
    requires c.Hole? ==> Replacement(c.digits, src) != "" && '%' !in Replacement(c.digits, src)
    ensures Prefixed(a.text + Written(c), w) != Path(a.text + (if c.Escape? then "%" + c.digits else Replacement(c.digits, src)) + sub)
  {
    hide Replacement;
    if w.Path? {
      var k := |a.text| + if c.Escape? then 1 else 0;
      assert (a.text + Written(c) + w.text)[k] == '%';
      if c.Escape? {
        assert (a.text + ("%" + c.digits) + sub)[k] == c.digits[0];
      } else {
        var ins := Replacement(c.digits, src);
        assert (a.text + ins + sub)[k] == ins[0];
      }
    }
  }

  lemma SamePrefix(front: string, w: Outcome, sub: string)
    ensures Prefixed(front, w) == Path(front + sub) <==> w == Path(sub)
  {
    if w.Path? && front + w.text == front + sub {
      assert (front + w.text)[|front|..] == w.text && (front + sub)[|front|..] == sub;
    }
  }

  lemma {:induction false} WalkIsFilledIff(pieces: seq<Piece>, blind: nat, src: Source)
    requires Shaped(pieces) && PlainTexts(pieces, src) && Filled(pieces, src).Some?
    ensures Walked(pieces, blind, src) == Path(Filled(pieces, src).value) <==> Room(pieces, blind) && Roomy(pieces, src)
    decreases |pieces|
  {
    hide Replacement, Walked, Filled, PlainTexts, Roomy, Blind;
    if |pieces| >= 2 {
      var a, c, rest := pieces[0], pieces[1], pieces[2..];
      assert pieces == [a, c] + rest;
      FilledPair(a, c, rest, src);
      PlainPair(a, c, rest, src);
      RoomyPair(a, c, rest, src);
      WalkedPair(a, c, rest, blind, src);
      var sub := Filled(rest, src).value;
      var text := if c.Escape? then "%" + c.digits else Replacement(c.digits, src);
      if Room(pieces, blind) {
        var blind' := if c.Escape? then 0 else Blind(|c.digits|, text);
        WalkIsFilledIff(rest, blind', src);
        SamePrefix(a.text + text, Walked(rest, blind', src), sub);
      } else {
        SkippedDiffers(a, c, blind, Walked(rest, Less(Less(blind, |a.text|), |Written(c)|), src), sub, src);
      }
    } else {
      FewPieces(pieces, blind, src);
    }
  }

  lemma FewPieces(pieces: seq<Piece>, blind: nat, src: Source)
    requires Shaped(pieces) && |pieces| < 2
    ensures Filled(pieces, src).Some? && Walked(pieces, blind, src) == Path(Filled(pieces, src).value) && Roomy(pieces, src)
    ensures !Clears(pieces, blind, src)
  {
    if |pieces| == 1 {
      var text := pieces[0].text;
      assert pieces == [Text(text)];
      WalkedText(text, blind, src);
      FilledNothing(text, src);
    }
  }

  // ------------------------------------------------------- numbers without a text

  /** A hole without a text is come to. */
  predicate Clears(pieces: seq<Piece>, blind: nat, src: Source) {
    pieces != [] &&
    var piece, rest := pieces[0], pieces[1..];
    match piece
    case Text(text) => Clears(rest, Less(blind, |text|), src)
    case Escape(digits) => Clears(rest, if blind <= 1 then 0 else Less(blind, |Written(piece)|), src)
    case Hole(digits) =>
      if blind > 0 then Clears(rest, Less(blind, |Written(piece)|), src)
      else Replacement(digits, src) == "" || Clears(rest, Blind(|digits|, Replacement(digits, src)), src)
  }

  lemma {:induction false} WalkIsMissingIff(pieces: seq<Piece>, blind: nat, src: Source)
    requires PlainTexts(pieces, src)
    ensures Walked(pieces, blind, src) != Wild
    ensures Walked(pieces, blind, src) == Missing <==> Clears(pieces, blind, src)
    decreases |pieces|
  {
    hide Replacement, Blind;
    if pieces != [] {
      var piece, rest := pieces[0], pieces[1..];
      assert PlainTexts(rest, src) by {
        forall i | 0 <= i < |rest| && rest[i].Hole? ensures '%' !in Replacement(rest[i].digits, src) {
          assert pieces[i + 1] == rest[i];
        }
      }
      match piece
      case Text(text) => WalkIsMissingIff(rest, Less(blind, |text|), src);
      case Escape(digits) => WalkIsMissingIff(rest, if blind <= 1 then 0 else Less(blind, |Written(piece)|), src);
      case Hole(digits) =>
        WalkIsMissingIff(rest, if blind > 0 then Less(blind, |Written(piece)|) else Blind(|digits|, Replacement(digits, src)), src);
    }
  }

  lemma {:induction false} FilledIff(pieces: seq<Piece>, src: Source)
    ensures Filled(pieces, src).Some? <==> forall i :: 0 <= i < |pieces| && pieces[i].Hole? ==> Replacement(pieces[i].digits, src) != ""
    decreases |pieces|
  {
    hide Replacement;
    if pieces != [] {
      FilledIff(pieces[1..], src);
      assert forall i :: 1 <= i < |pieces| ==> pieces[i] == pieces[1..][i - 1];
    }
  }

  /** With room after every hole that has a text, one without a text is come to. */
  lemma {:induction false} RoomyClears(pieces: seq<Piece>, blind: nat, src: Source)
    requires Shaped(pieces) && Room(pieces, blind) && Roomy(pieces, src) && Filled(pieces, src).None?
    ensures Clears(pieces, blind, src)
    decreases |pieces|
  {
    hide Replacement, Roomy, Blind, Filled;
    if |pieces| < 2 {
      FewPieces(pieces, blind, src);
    } else {
      var a, c, rest := pieces[0], pieces[1], pieces[2..];
      assert pieces == [a, c] + rest && pieces[1..][0] == c && pieces[1..][1..] == rest;
      FilledPair(a, c, rest, src);
      RoomyPair(a, c, rest, src);
      if c.Escape? {
        RoomyClears(rest, 0, src);
      } else if Replacement(c.digits, src) != "" {
        RoomyClears(rest, Blind(|c.digits|, Replacement(c.digits, src)), src);
      }
    }
  }

  // ---------------------------------------------------------------- the main result

  /** For every template whose holes stand for texts without a '%':
      when every hole has a text, rewriting in place is the substitution of all
      holes at once exactly when no insertion is so short that the number after
      it is skipped; and when a hole has none, the path is cleared exactly when
      such a hole is come to. */
  lemma SendPathIsSubstitutionIff(t: string, src: Source)
    requires PlainTexts(Pieces(t), src)
    ensures var o := Filled(Pieces(t), src);
            && Scan(t, 0, 0, src) != Wild
            && (o.Some? ==> (Scan(t, 0, 0, src) == Path(o.value) <==> Roomy(Pieces(t), src)))
            && (o.None? ==> (Scan(t, 0, 0, src) == Missing <==> Clears(Pieces(t), 0, src)))
            && (o.None? && Roomy(Pieces(t), src) ==> Scan(t, 0, 0, src) == Missing)
  {
    hide Scan, Filled, Walked, PlainTexts, Roomy, Clears, Replacement, PiecesFrom, Shaped;
    var pieces := Pieces(t);
    ScanIsWalk(t, src);
    PiecesShaped(t, 0, 0, 0);
    WalkIsMissingIff(pieces, 0, src);
    if Filled(pieces, src).Some? {
      WalkIsFilledIff(pieces, 0, src);
    } else if Roomy(pieces, src) {
      RoomyClears(pieces, 0, src);
    }
  }

  // -------------------------------------------------------------------- examples

  /** Arguments "5" and "6" for the numbers 10 and 11. */
  const SHORT_TEXTS := Source("", Args([None, None, None, None, None, None, None, None, None, Some("5"), Some("6")]))

  lemma ShortTexts()
    ensures Replacement("10", SHORT_TEXTS) == "5" && Replacement("11", SHORT_TEXTS) == "6" && Replacement("12", SHORT_TEXTS) == ""
  {
    assert "10"[..1] == "1" && "11"[..1] == "1" && "12"[..1] == "1" && "1"[..0] == "";
    assert Value("1") == 1 && Value("10") == 10 && Value("11") == 11 && Value("12") == 12;
  }

  lemma ShortSlices(number: string)
    requires |number| == 2 && Digits(number)
    ensures var t := "/%10%" + number;
            && t[0..1] == "/" && t[2..4] == "10" && t[4..4] == "" && t[5..7] == number
            && IsDigit(t[5]) && IsDigit(t[6]) && t[1] == '%' && t[4] == '%'
  {
    var t := "/%10%" + number;
    assert t[0..1] == "/" && t[2..4] == "10" && t[4..4] == "" && t[5..7] == number;
    assert t[5] == number[0] && t[6] == number[1];
  }

  lemma ShortPieces(number: string)
    requires |number| == 2 && Digits(number)
    ensures Pieces("/%10%" + number) == [Text("/"), Hole("10")] + ([Text(""), Hole(number)] + [])
  {
    hide PiecesFrom, Digits;
    var t := "/%10%" + number;
    ShortSlices(number);
    PiecesPlain(t, 0, 0, 0);
    PiecesPlain(t, 0, 1, 0);
    PiecesDigit(t, 0, 2, 0);
    PiecesDigit(t, 0, 3, 1);
    PiecesAtMark(t, 0, 4, 2);
    PiecesDigit(t, 4, 5, 0);
    PiecesDigit(t, 4, 6, 1);
    PiecesAtMark(t, 4, 7, 2);
    assert PiecesAfter(t, 4) == PiecesFrom(t, 4, 5, 0);
  }

  lemma ShortScan(number: string)
    requires |number| == 2 && Digits(number)
    ensures Scan("/%10%" + number, 0, 0, SHORT_TEXTS) == Path("/5%" + number)
  {
    hide Scan, Pieces, Walked, Replacement;
    ShortTexts();
    ShortPieces(number);
    ScanIsWalk("/%10%" + number, SHORT_TEXTS);
    WalkedPair(Text("/"), Hole("10"), [Text(""), Hole(number)] + [], 0, SHORT_TEXTS);
    WalkedPair(Text(""), Hole(number), [], 1, SHORT_TEXTS);
    WalkedText("", 0, SHORT_TEXTS);
    assert "/" + "5" + ("" + ("%" + number) + "") == "/5%" + number;
  }

  /** "%11" stays as it is because "5" replaced "%10" right before it, and
      "%12", which has no text, does not clear the path there. */
  lemma ShortInsertionsDiffer()
    ensures Filled(Pieces("/%10%11"), SHORT_TEXTS) == Some("/56") && Scan("/%10%11", 0, 0, SHORT_TEXTS) == Path("/5%11")
    ensures Filled(Pieces("/%10%12"), SHORT_TEXTS) == None && Scan("/%10%12", 0, 0, SHORT_TEXTS) == Path("/5%12")
  {
    hide Replacement, Pieces, Scan;
    ShortTexts();
    assert "/%10%" + "11" == "/%10%11" && "/%10%" + "12" == "/%10%12";
    assert "/5%" + "11" == "/5%11" && "/5%" + "12" == "/5%12";
    ShortPieces("11");
    ShortPieces("12");
    ShortScan("11");
    ShortScan("12");
    FilledNothing("", SHORT_TEXTS);
    FilledPair(Text(""), Hole("11"), [], SHORT_TEXTS);
    FilledPair(Text(""), Hole("12"), [], SHORT_TEXTS);
    FilledPair(Text("/"), Hole("10"), [Text(""), Hole("11")] + [], SHORT_TEXTS);
    FilledPair(Text("/"), Hole("10"), [Text(""), Hole("12")] + [], SHORT_TEXTS);
    assert "" + "6" + "" == "6" && "/" + "5" + "6" == "/56";
  }
}

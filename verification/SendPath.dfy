/** `MakeSendPath`: the destination path of a route is a template whose "%n" are
    replaced, in place, by parts of the source path, levels or arguments. */
module SendPath {
  import opened Basics
  import opened Decimal

  // ----------------------------------------------------------- replacement text

  /** What the numbers after the path parts stand for: DMX levels (sACN,
      Art-Net), OSC arguments as text where they have one, or nothing. */
  datatype Extra = Levels(levels: seq<byte>) | Args(args: seq<Option<string>>) | NoExtra

  datatype Source = Source(path: string, extra: Extra)

  /** `QString::toInt`: 0 if the number does not fit. */
  function ToInt(digits: string): nat {
    var v := Value(digits);
    if v > 0x7fff_ffff then 0 else v
  }

  /** The non-empty parts of a path. */
  function Parts(path: string, part: string): seq<string> {
    if path == "" then (if part == "" then [] else [part])
    else if path[0] == '/' then (if part == "" then [] else [part]) + Parts(path[1..], "")
    else Parts(path[1..], part + [path[0]])
  }

  /** The text for "%digits"; empty when there is none. */
  function Replacement(digits: string, src: Source): string {
    var split := Parts(src.path, "");
    var parts := if split == [] then [src.path] else split;
    var k := if src.path == "" then ToInt(digits) else ToInt(digits) - 1;
    if k < 0 then ""
    else if k < |parts| then parts[k]
    else
      var j := k - |parts|;
      match src.extra
      case Levels(levels) => Number(if j < |levels| then levels[j] else 0)
      case Args(args) => if j < |args| && args[j].Some? then args[j].value else ""
      case NoExtra => ""
  }

  // ------------------------------------------------------------ the in-place scan

  function Percents(s: string): nat {
    if s == "" then 0 else (if s[0] == '%' then 1 else 0) + Percents(s[1..])
  }

  lemma {:induction false} PercentsAppend(a: string, b: string)
    ensures Percents(a + b) == Percents(a) + Percents(b)
  {
    if a == "" {
      assert a + b == b;
    } else {
      assert (a + b)[1..] == a[1..] + b;
      PercentsAppend(a[1..], b);
    }
  }

  lemma {:induction false} NoPercents(s: string)
    requires '%' !in s
    ensures Percents(s) == 0
  {
    if s != "" {
      NoPercents(s[1..]);
    }
  }

  /** Taking out one '%', or replacing it and its digits, makes progress. */
  lemma FewerPercents(s: string, start: nat, end: nat, ins: string)
    requires start < end <= |s| && s[start] == '%' && '%' !in ins
    ensures Percents(s[..start] + ins + s[end..]) < Percents(s)
  {
    var middle := s[start..end];
    assert s == s[..start] + (middle + s[end..]);
    PercentsAppend(s[..start], middle + s[end..]);
    PercentsAppend(middle, s[end..]);
    PercentsAppend(s[..start] + ins, s[end..]);
    PercentsAppend(s[..start], ins);
    NoPercents(ins);
    assert Percents(middle) > 0;
  }

  /** How the rewriting ends: with a path, without one because a number has no
      text, or outside what is followed here because a text that holds a '%' is
      about to be inserted. */
  datatype Outcome = Path(text: string) | Missing | Wild

  function Prefixed(front: string, o: Outcome): Outcome {
    if o.Path? then Path(front + o.text) else o
  }

  /** The loop: `s` is the path being rewritten, `i` the position in it and `n`
      the number of digits just passed. */
  function Scan(s: string, i: nat, n: nat, src: Source): Outcome
    requires n <= i
    decreases Percents(s), |s| + 1 - i
  {
    if i > |s| then Path(s)
    else if i < |s| && IsDigit(s[i]) then Scan(s, i + 1, n + 1, src)
    else if n > 0 && i - n - 1 > 0 && s[i - n - 1] == '%' then
      var start := i - n - 1;
      if start - 1 > 0 && s[start - 1] == '%' then
        FewerPercents(s, start, start + 1, "");
        assert s[..start] + "" + s[start + 1..] == s[..start] + s[start + 1..];
        Scan(s[..start] + s[start + 1..], i, 0, src)
      else
        var ins := Replacement(s[start + 1..i], src);
        if ins == "" then Missing
        else if '%' in ins then Wild
        else
          FewerPercents(s, start, i, ins);
          Scan(s[..start] + ins + s[i..], i, 0, src)
    else Scan(s, i + 1, 0, src)
  }

  /** No text for a hole of the template holds a '%'. */
  predicate PlainTexts(pieces: seq<Piece>, src: Source) {
    forall i :: 0 <= i < |pieces| && pieces[i].Hole? ==> '%' !in Replacement(pieces[i].digits, src)
  }

  // ------------------------------------------------ simultaneous substitution

  /** A template is text, holes "%12" and escapes "%%12". */
  datatype Piece = Text(text: string) | Hole(digits: string) | Escape(digits: string)

  function Written(p: Piece): string {
    match p
    case Text(text) => text
    case Hole(digits) => "%" + digits
    case Escape(digits) => "%%" + digits
  }

  function Rendered(pieces: seq<Piece>): string {
    if pieces == [] then "" else Written(pieces[0]) + Rendered(pieces[1..])
  }

  /** Every hole filled at once, left to right; "%%12" gives "%12"; nothing if a
      hole has no text. */
  function Filled(pieces: seq<Piece>, src: Source): Option<string> {
    if pieces == [] then Some("")
    else
      var rest := Filled(pieces[1..], src);
      match pieces[0]
      case Text(text) => if rest.None? then None else Some(text + rest.value)
      case Escape(digits) => if rest.None? then None else Some("%" + digits + rest.value)
      case Hole(digits) =>
        var ins := Replacement(digits, src);
        if ins == "" || rest.None? then None else Some(ins + rest.value)
  }

  /** The pieces of `t[b..]`, seen from position `p` with `n` digits passed. A
      '%' at the very start of the template is text. */
  function PiecesFrom(t: string, b: nat, p: nat, n: nat): seq<Piece>
    requires b + n <= p <= |t|
    decreases |t| - p
  {
    if p < |t| && IsDigit(t[p]) then PiecesFrom(t, b, p + 1, n + 1)
    else if n > 0 && p - n - 1 > 0 && p - n - 1 >= b && t[p - n - 1] == '%' then
      var start := p - n - 1;
      if start - 1 > 0 && start - 1 >= b && t[start - 1] == '%' then
        [Text(t[b..start - 1]), Escape(t[start + 1..p])] + PiecesAfter(t, p)
      else [Text(t[b..start]), Hole(t[start + 1..p])] + PiecesAfter(t, p)
    else if p < |t| then PiecesFrom(t, b, p + 1, 0)
    else [Text(t[b..])]
  }

  /** A run of digits ended at `p`. */
  function PiecesAfter(t: string, p: nat): seq<Piece>
    requires p <= |t|
    decreases |t| - p, 0
  {
    if p < |t| then PiecesFrom(t, p, p + 1, 0) else []
  }

  function Pieces(t: string): seq<Piece> {
    PiecesFrom(t, 0, 0, 0)
  }

  predicate AtMark(t: string, b: nat, p: nat, n: nat)
    requires b + n <= p <= |t|
  {
    n > 0 && p - n - 1 > 0 && p - n - 1 >= b && t[p - n - 1] == '%'
  }

  predicate Escaped(t: string, b: nat, start: nat)
    requires start <= |t|
  {
    start - 1 > 0 && start - 1 >= b && t[start - 1] == '%'
  }

  lemma LongerRun(t: string, p: nat, n: nat)
    requires n <= p < |t| && Digits(t[p - n..p]) && IsDigit(t[p])
    ensures Digits(t[p - n..p + 1])
  {
    var run := t[p - n..p + 1];
    forall j | 0 <= j < |run| ensures IsDigit(run[j]) {
      if j < n { assert run[j] == t[p - n..p][j]; }
    }
  }

  lemma PiecesAtMark(t: string, b: nat, p: nat, n: nat)
    requires b + n <= p <= |t| && AtMark(t, b, p, n) && (p < |t| ==> !IsDigit(t[p]))
    ensures var start := p - n - 1;
            PiecesFrom(t, b, p, n) ==
            (if Escaped(t, b, start) then [Text(t[b..start - 1]), Escape(t[start + 1..p])]
             else [Text(t[b..start]), Hole(t[start + 1..p])]) + PiecesAfter(t, p)
  {
  }

  lemma PiecesDigit(t: string, b: nat, p: nat, n: nat)
    requires b + n <= p < |t| && IsDigit(t[p])
    ensures PiecesFrom(t, b, p, n) == PiecesFrom(t, b, p + 1, n + 1)
  {
  }

  lemma PiecesPlain(t: string, b: nat, p: nat, n: nat)
    requires b + n <= p <= |t| && !AtMark(t, b, p, n) && (p < |t| ==> !IsDigit(t[p]))
    ensures PiecesFrom(t, b, p, n) == if p < |t| then PiecesFrom(t, b, p + 1, 0) else [Text(t[b..])]
  {
  }

  lemma RenderedPair(a: Piece, c: Piece, rest: seq<Piece>)
    ensures Rendered([a, c] + rest) == Written(a) + Written(c) + Rendered(rest)
  {
    assert ([a, c] + rest)[1..] == [c] + rest && ([c] + rest)[1..] == rest;
  }

  /** The pieces are the template, nothing lost or reordered. */
  lemma {:induction false} PiecesRender(t: string, b: nat, p: nat, n: nat)
    requires b + n <= p <= |t|
    ensures Rendered(PiecesFrom(t, b, p, n)) == t[b..]
    decreases |t| - p
  {
    hide PiecesFrom, Rendered;
    if p < |t| && IsDigit(t[p]) {
      PiecesDigit(t, b, p, n);
      PiecesRender(t, b, p + 1, n + 1);
    } else if AtMark(t, b, p, n) {
      RenderedMark(t, b, p, n);
      RenderedText("");
      if p < |t| {
        PiecesRender(t, p, p + 1, 0);
      }
    } else {
      PiecesPlain(t, b, p, n);
      RenderedText(t[b..]);
      if p < |t| {
        PiecesRender(t, b, p + 1, 0);
      }
    }
  }

  lemma SplitMark(t: string, b: nat, p: nat, n: nat)
    requires b + n <= p <= |t| && AtMark(t, b, p, n)
    ensures var start := p - n - 1;
            && t[b..] == t[b..start] + ("%" + t[start + 1..p]) + t[p..]
            && (Escaped(t, b, start) ==> t[b..] == t[b..start - 1] + ("%%" + t[start + 1..p]) + t[p..])
  {
  }

  lemma RenderedMark(t: string, b: nat, p: nat, n: nat)
    requires b + n <= p <= |t| && AtMark(t, b, p, n) && (p < |t| ==> !IsDigit(t[p]))
    ensures Rendered(PiecesAfter(t, p)) == t[p..] ==> Rendered(PiecesFrom(t, b, p, n)) == t[b..]
  {
    hide PiecesFrom, Rendered, PiecesAfter;
    PiecesAtMark(t, b, p, n);
    SplitMark(t, b, p, n);
    var start := p - n - 1;
    if Escaped(t, b, start) {
      RenderedPair(Text(t[b..start - 1]), Escape(t[start + 1..p]), PiecesAfter(t, p));
    } else {
      RenderedPair(Text(t[b..start]), Hole(t[start + 1..p]), PiecesAfter(t, p));
    }
  }

  lemma RenderedText(text: string)
    ensures Rendered([]) == "" && Rendered([Text(text)]) == text
  {
    assert Rendered([Text(text)]) == text + "";
  }

  // -------------------------------------------------------- one turn at a time

  /** The loop as it is, whatever the texts hold. */
  datatype Loop = Running(s: string, i: nat, n: nat) | Ended(path: string) {
    predicate Valid() { Running? ==> n <= i }
  }

  function Step(l: Loop, src: Source): (r: Loop)
    requires l.Valid()
    ensures r.Valid()
  {
    match l
    case Ended(_) => l
    case Running(s, i, n) =>
      if i > |s| then Ended(s)
      else if i < |s| && IsDigit(s[i]) then Running(s, i + 1, n + 1)
      else if n > 0 && i - n - 1 > 0 && s[i - n - 1] == '%' then
        var start := i - n - 1;
        if start - 1 > 0 && s[start - 1] == '%' then Running(s[..start] + s[start + 1..], i, 0)
        else
          var ins := Replacement(s[start + 1..i], src);
          if ins == "" then Ended("") else Running(s[..start] + ins + s[i..], i, 0)
      else Running(s, i + 1, 0)
  }

  function Steps(l: Loop, k: nat, src: Source): (r: Loop)
    requires l.Valid()
    ensures r.Valid()
    decreases k
  {
    if k == 0 then l else Steps(Step(l, src), k - 1, src)
  }

  function Result(o: Outcome): string { if o.Path? then o.text else "" }

  /** As long as no text with a '%' is met the turns end, with what `Scan` says. */
  lemma {:induction false} TurnsEnd(s: string, i: nat, n: nat, src: Source) returns (k: nat)
    requires n <= i && Scan(s, i, n, src) != Wild
    ensures Steps(Running(s, i, n), k, src) == Ended(Result(Scan(s, i, n, src)))
    decreases Percents(s), |s| + 1 - i
  {
    hide Replacement;
    var l := Running(s, i, n);
    var l' := Step(l, src);
    if l'.Ended? {
      k := 1;
      assert Steps(l, 1, src) == Steps(l', 0, src);
    } else {
      ScanStep(s, i, n, src);
      k := TurnsEnd(l'.s, l'.i, l'.n, src);
      assert Steps(l, k + 1, src) == Steps(l', k, src);
      k := k + 1;
    }
  }

  lemma ScanStep(s: string, i: nat, n: nat, src: Source)
    requires n <= i && Scan(s, i, n, src) != Wild && Step(Running(s, i, n), src).Running?
    ensures var l := Step(Running(s, i, n), src);
            && Scan(s, i, n, src) == Scan(l.s, l.i, l.n, src)
            && (Percents(l.s) < Percents(s) || (l.s == s && l.i == i + 1 && i <= |s|))
  {
    hide Replacement, Percents;
    if i < |s| && IsDigit(s[i]) {
    } else if n > 0 && i - n - 1 > 0 && s[i - n - 1] == '%' {
      var start := i - n - 1;
      if start - 1 > 0 && s[start - 1] == '%' {
        FewerPercents(s, start, start + 1, "");
        assert s[..start] + "" + s[start + 1..] == s[..start] + s[start + 1..];
      } else {
        FewerPercents(s, start, i, Replacement(s[start + 1..i], src));
      }
    }
  }

  /** One step of the scan at the end of a run that follows a '%'. */
  lemma ScanStop(s: string, i: nat, n: nat, src: Source)
    requires n <= i <= |s| && n > 0 && (i < |s| ==> !IsDigit(s[i])) && i - n - 1 > 0 && s[i - n - 1] == '%'
    ensures var start := i - n - 1;
            Scan(s, i, n, src) ==
            if start - 1 > 0 && s[start - 1] == '%' then Scan(s[..start] + s[start + 1..], i, 0, src)
            else var ins := Replacement(s[start + 1..i], src);
              if ins == "" then Missing else if '%' in ins then Wild else Scan(s[..start] + ins + s[i..], i, 0, src)
  {
    hide Replacement;
  }

  lemma ScanDigit(s: string, i: nat, n: nat, src: Source)
    requires n <= i < |s| && IsDigit(s[i])
    ensures Scan(s, i, n, src) == Scan(s, i + 1, n + 1, src)
  {
    hide Replacement;
  }

  lemma ScanPlain(s: string, i: nat, n: nat, src: Source)
    requires n <= i <= |s| && (i < |s| ==> !IsDigit(s[i])) && !(n > 0 && i - n - 1 > 0 && s[i - n - 1] == '%')
    ensures Scan(s, i, n, src) == Scan(s, i + 1, 0, src)
  {
    hide Replacement;
  }

  lemma ScanEnd(s: string, i: nat, n: nat, src: Source)
    requires |s| < i && n <= i
    ensures Scan(s, i, n, src) == Path(s)
  {
    hide Replacement;
  }

  // ------------------------------------------------------------------ the method

  /** `MakeSendPath`. */
  method MakeSendPath(dstPath: string, src: Source, isLevels: bool) returns (sendPath: string)
    requires isLevels == src.extra.Levels?
    requires Scan(dstPath, 0, 0, src) != Wild
    ensures sendPath == if dstPath == "" && !isLevels then src.path else Result(Scan(dstPath, 0, 0, src))
  {
    hide Replacement, Scan;
    if dstPath == "" && !isLevels {
      return src.path;
    }
    sendPath := dstPath;
    if '%' !in sendPath {
      NothingToReplace(sendPath, 0, 0, src);
      return;
    }
    var digitCount, i := 0, 0;
    while i <= |sendPath|
      invariant digitCount <= i
      invariant Scan(sendPath, i, digitCount, src) == Scan(dstPath, 0, 0, src)
      decreases Percents(sendPath), |sendPath| + 1 - i
    {
      if i < |sendPath| && IsDigit(sendPath[i]) {
        ScanDigit(sendPath, i, digitCount, src);
        digitCount := digitCount + 1;
      } else if digitCount > 0 {
        var startIndex := i - digitCount - 1;
        if startIndex > 0 && sendPath[startIndex] == '%' {
          ScanStop(sendPath, i, digitCount, src);
          if startIndex - 1 > 0 && sendPath[startIndex - 1] == '%' {
            FewerPercents(sendPath, startIndex, startIndex + 1, "");
            assert sendPath[..startIndex] + "" + sendPath[startIndex + 1..] == sendPath[..startIndex] + sendPath[startIndex + 1..];
            sendPath := sendPath[..startIndex] + sendPath[startIndex + 1..];
            i := i - 1;
          } else {
            var insertStr := Replacement(sendPath[startIndex + 1..i], src);
            if insertStr == "" {
              return "";
            }
            FewerPercents(sendPath, startIndex, i, insertStr);
            var midIndex := startIndex + digitCount + 1;
            sendPath := sendPath[..startIndex] + insertStr + sendPath[midIndex..];
            i := midIndex - 1;
          }
        } else {
          ScanPlain(sendPath, i, digitCount, src);
        }
        digitCount := 0;
      } else {
        ScanPlain(sendPath, i, digitCount, src);
      }
      i := i + 1;
    }
    ScanEnd(sendPath, i, digitCount, src);
  }

  lemma {:induction false} NothingToReplace(s: string, i: nat, n: nat, src: Source)
    requires '%' !in s && n <= i
    ensures Scan(s, i, n, src) == Path(s)
    decreases |s| + 1 - i
  {
    if i <= |s| {
      NothingToReplace(s, i + 1, if i < |s| && IsDigit(s[i]) then n + 1 else 0, src);
    }
  }

  // ------------------------------------------------- texts that contain a '%'

  function Xs(k: nat): (x: string)
    ensures |x| == k && forall i :: 0 <= i < k ==> x[i] == 'x'
  {
    seq(k, _ => 'x')
  }

  const PERCENT_SOURCE := Source("/x%1", NoExtra)

  lemma PercentText()
    ensures Replacement("1", PERCENT_SOURCE) == "x%1"
  {
    assert Value("1") == 1 by { assert "1"[..0] == ""; }
    var path := PERCENT_SOURCE.path;
    assert path[1..] == "x%1" && "x%1"[1..] == "%1" && "%1"[1..] == "1" && "1"[1..] == "";
    assert "" + ['x'] == "x" && "x" + ['%'] == "x%" && "x%" + ['1'] == "x%1";
    assert Parts("", "x%1") == ["x%1"];
    assert Parts("1", "x%") == Parts("", "x%1");
    assert Parts("%1", "x") == Parts("1", "x%");
    assert Parts("x%1", "") == Parts("%1", "x");
  }

  function Grown(k: nat): Loop { Running("/" + Xs(k) + "%1", k + 3, 1) }

  lemma GrowsOnce(k: nat)
    ensures Steps(Grown(k), 2, PERCENT_SOURCE) == Grown(k + 1)
  {
    hide Replacement, Xs;
    PercentText();
    var s := "/" + Xs(k) + "%1";
    var s' := "/" + Xs(k + 1) + "%1";
    assert s[k + 1] == '%' && s[k + 2..k + 3] == "1" && s[k] != '%';
    assert Xs(k) + "x" == Xs(k + 1);
    assert s[..k + 1] + "x%1" + s[k + 3..] == s';
    var l := Running(s', k + 3, 0);
    assert Step(Grown(k), PERCENT_SOURCE) == l;
    assert s'[k + 3] == '1' && Step(l, PERCENT_SOURCE) == Grown(k + 1);
    assert Steps(Grown(k), 2, PERCENT_SOURCE) == Steps(l, 1, PERCENT_SOURCE) == Steps(Grown(k + 1), 0, PERCENT_SOURCE);
  }

  lemma {:induction false} StepsAppend(l: Loop, j: nat, k: nat, src: Source)
    requires l.Valid()
    ensures Steps(l, j + k, src) == Steps(Steps(l, j, src), k, src)
    decreases j
  {
    hide Step;
    if j > 0 { StepsAppend(Step(l, src), j - 1, k, src); }
  }

  lemma Starts()
    ensures Steps(Running("/%1", 0, 0), 3, PERCENT_SOURCE) == Grown(0)
  {
    hide Replacement;
    var (l, l1, l2) := (Running("/%1", 0, 0), Running("/%1", 1, 0), Running("/%1", 2, 0));
    assert Step(l, PERCENT_SOURCE) == l1 && Step(l1, PERCENT_SOURCE) == l2;
    assert "/" + Xs(0) + "%1" == "/%1";
    assert Step(l2, PERCENT_SOURCE) == Grown(0);
    assert Steps(l, 3, PERCENT_SOURCE) == Steps(l1, 2, PERCENT_SOURCE) == Steps(l2, 1, PERCENT_SOURCE) == Steps(Grown(0), 0, PERCENT_SOURCE);
  }

  lemma {:induction false} GrowsForever(k: nat)
    ensures Steps(Running("/%1", 0, 0), 3 + 2 * k, PERCENT_SOURCE) == Grown(k)
  {
    hide Steps, Step, Grown;
    if k == 0 {
      Starts();
    } else {
      GrowsForever(k - 1);
      GrowsOnce(k - 1);
      StepsAppend(Running("/%1", 0, 0), 3 + 2 * (k - 1), 2, PERCENT_SOURCE);
    }
  }

  lemma {:induction false} EndedStays(l: Loop, k: nat, src: Source)
    requires l.Ended?
    ensures Steps(l, k, src) == l
  {
    if k > 0 { EndedStays(l, k - 1, src); }
  }

  /** The text for "%1" of the path "/x%1" brings a new "%1": in the template
      "/%1" the loop makes the path longer and longer and never ends. */
  lemma NeverEnds(k: nat)
    ensures Steps(Running("/%1", 0, 0), k, PERCENT_SOURCE).Running?
  {
    hide Step;
    var l := Running("/%1", 0, 0);
    GrowsForever(k);
    if Steps(l, k, PERCENT_SOURCE).Ended? {
      StepsAppend(l, k, 3 + k, PERCENT_SOURCE);
      EndedStays(Steps(l, k, PERCENT_SOURCE), 3 + k, PERCENT_SOURCE);
    }
  }
}

/** Which text a number of a template stands for. */
module SendPathTexts {
  import opened Basics
  import opened Decimal
  import opened SendPath

  predicate Part(s: string) { s != "" && '/' !in s }

  predicate AllParts(parts: seq<string>) { forall i :: 0 <= i < |parts| ==> Part(parts[i]) }

  /** The path with these parts. */
  function Slashed(parts: seq<string>): string {
    if parts == [] then "" else "/" + parts[0] + Slashed(parts[1..])
  }

  /** What the numbers behind the path parts stand for, counted from 0. */
  ghost predicate ExtraText(extra: Extra, j: nat, t: string) {
    match extra
    case Levels(levels) => t == if j < |levels| then Number(levels[j]) else "0"
    case Args(args) => t == if j < |args| && args[j] != None then args[j].value else ""
    case NoExtra => t == ""
  }

  /** `t` is the text for number `n`: the parts of the path from 1 on, then what
      is behind them. Number 0, and one too great for an int, has none, except
      that an empty path counts as one part of number 0. */
  ghost predicate StandsFor(parts: seq<string>, extra: Extra, n: nat, t: string) {
    var number := if n > 0x7fff_ffff then 0 else n;
    if parts == [] then (if number == 0 then t == "" else ExtraText(extra, number - 1, t))
    else if number == 0 then t == ""
    else if number <= |parts| then t == parts[number - 1]
    else ExtraText(extra, number - |parts| - 1, t)
  }

  lemma {:induction false} PartsOf(path: string, part: string, rest: string)
    requires '/' !in path && (rest == "" || rest[0] == '/')
    ensures Parts(path + rest, part) == (if part + path == "" then [] else [part + path]) + Parts(rest, "")
    decreases |path|
  {
    if path == "" {
      assert path + rest == rest && part + path == part;
    } else {
      assert (path + rest)[1..] == path[1..] + rest;
      assert part + [path[0]] + path[1..] == part + path;
      PartsOf(path[1..], part + [path[0]], rest);
    }
  }

  /** Slashes only separate: any path is cut into its non-empty parts. */
  lemma PartsBetweenSlashes(part: string, rest: string)
    requires '/' !in part
    ensures Parts(part + "/" + rest, "") == (if part == "" then [] else [part]) + Parts(rest, "")
    ensures Parts(part, "") == if part == "" then [] else [part]
  {
    PartsOf(part, "", "/" + rest);
    PartsOf(part, "", "");
    assert part + "/" + rest == part + ("/" + rest) && "" + part == part && part + "" == part;
    assert ("/" + rest)[1..] == rest;
    assert [] + Parts(rest, "") == Parts(rest, "");
  }

  lemma {:induction false} PartsOfSlashed(parts: seq<string>)
    requires AllParts(parts)
    ensures Parts(Slashed(parts), "") == parts
    decreases |parts|
  {
    if parts != [] {
      var rest := Slashed(parts[1..]);
      assert Part(parts[0]);
      PartsOfSlashed(parts[1..]);
      PartsOf(parts[0], "", rest);
      var path := Slashed(parts);
      assert path[1..] == parts[0] + rest;
      assert "" + parts[0] == parts[0] && parts == [parts[0]] + parts[1..];
    }
  }

  lemma SlashedIsEmptyIff(parts: seq<string>)
    ensures Slashed(parts) == "" <==> parts == []
  {
  }

  lemma TextOfNumber(parts: seq<string>, extra: Extra, digits: string, t: string)
    requires AllParts(parts) && StandsFor(parts, extra, Value(digits), t)
    ensures Replacement(digits, Source(Slashed(parts), extra)) == t
  {
    hide Value, Number;
    PartsOfSlashed(parts);
    SlashedIsEmptyIff(parts);
    NumberOfZero();
  }

  lemma NumberOfZero()
    ensures Number(0) == "0"
  {
  }

  /** A path of nothing but slashes is its own only part. */
  lemma {:induction false} OnlySlashes(path: string)
    requires forall i :: 0 <= i < |path| ==> path[i] == '/'
    ensures Parts(path, "") == []
  {
    if path != "" { OnlySlashes(path[1..]); }
  }

  lemma TextOfSlashes(path: string, extra: Extra, digits: string, t: string)
    requires path != "" && (forall i :: 0 <= i < |path| ==> path[i] == '/')
    requires if Value(digits) == 1 then t == path
             else if 1 < Value(digits) <= 0x7fff_ffff then ExtraText(extra, Value(digits) - 2, t)
             else t == ""
    ensures Replacement(digits, Source(path, extra)) == t
  {
    hide Value, Number;
    OnlySlashes(path);
    NumberOfZero();
  }

  // --------------------------------------------------------------- one number

  /** What is sent for the template "/%digits": the text that the number stands
      for, or nothing at all when it stands for none. */
  lemma OneNumberIsSent(parts: seq<string>, extra: Extra, digits: string, t: string)
    requires AllParts(parts) && digits != "" && Digits(digits)
    requires StandsFor(parts, extra, Value(digits), t) && '%' !in t
    ensures var sent := Result(Scan("/%" + digits, 0, 0, Source(Slashed(parts), extra)));
            sent == if t == "" then "" else "/" + t
  {
    hide Scan, Replacement, Slashed, StandsFor, Value;
    var (src, s) := (Source(Slashed(parts), extra), "/%" + digits);
    var m := |s|;
    TextOfNumber(parts, extra, digits, t);
    ScanPlain(s, 0, 0, src);
    ScanPlain(s, 1, 0, src);
    DigitsPassed(s, 2, 0, src);
    assert s[2..] == digits;
    ScanStop(s, m, |digits|, src);
    assert s[1 + 1..m] == digits;
    if t != "" {
      var after := s[..1] + t + s[m..];
      assert after == "/" + t;
      NothingToReplace(after, m, 0, src);
    }
  }

  lemma {:induction false} DigitsPassed(s: string, i: nat, n: nat, src: Source)
    requires n <= i <= |s| && Digits(s[i..])
    ensures Scan(s, i, n, src) == Scan(s, |s|, n + |s| - i, src)
    decreases |s| - i
  {
    hide Scan;
    if i < |s| {
      assert s[i] == s[i..][0];
      var rest := s[i + 1..];
      forall k | 0 <= k < |rest| ensures IsDigit(rest[k]) { assert rest[k] == s[i..][k + 1]; }
      ScanDigit(s, i, n, src);
      DigitsPassed(s, i + 1, n + 1, src);
    }
  }
}

/** How the settings and variable lines are printed: by `QString::arg`, one
    text after the other into a template, so that every text but the last is
    scanned again for numbered marks. */
module ConfigPrint {
  import opened Decimal
  import opened ConfigText
  import opened ConfigFile
  import opened ConfigRoundTrip

  // -------------------------------------------------------------------- marks

  /** The length of the mark in front: '%', perhaps an 'L', one or two digits. */
  function Mark(t: string): (n: nat)
    ensures n <= |t| && (n > 0 ==> n >= 2)
  {
    if |t| < 2 || t[0] != '%' then 0
    else
      var d := if t[1] == 'L' then 2 else 1;
      if |t| <= d || !IsDigit(t[d]) then 0
      else if d + 1 < |t| && IsDigit(t[d + 1]) then d + 2 else d + 1
  }

  function Digit(c: char): (n: nat)
    requires IsDigit(c)
    ensures n < 10
  {
    (c - '0') as nat
  }

  function MarkNumber(t: string): (n: nat)
    requires Mark(t) > 0
    ensures n < NO_MARK
  {
    var d := if t[1] == 'L' then 2 else 1;
    if Mark(t) == d + 1 then Digit(t[d]) else 10 * Digit(t[d]) + Digit(t[d + 1])
  }

  /** Greater than the number of any mark. */
  const NO_MARK := 100

  function Min(a: nat, b: nat): nat { if a <= b then a else b }

  function Lowest(t: string): (m: nat)
    ensures m <= NO_MARK
    decreases |t|
  {
    if t == "" then NO_MARK
    else if Mark(t) == 0 then Lowest(t[1..])
    else Min(MarkNumber(t), Lowest(t[Mark(t)..]))
  }

  function Replaced(t: string, m: nat, a: string): string
    decreases |t|
  {
    if t == "" then ""
    else if Mark(t) == 0 then [t[0]] + Replaced(t[1..], m, a)
    else (if MarkNumber(t) == m then a else t[..Mark(t)]) + Replaced(t[Mark(t)..], m, a)
  }

  /** `QString::arg`: all marks with the lowest number give way to `a`. */
  function Arg(t: string, a: string): string {
    Replaced(t, Lowest(t), a)
  }

  function Printed(t: string, args: seq<string>): string
    decreases |args|
  {
    if args == [] then t else Printed(Arg(t, args[0]), args[1..])
  }

  /** What the template is meant for. */
  function Listed(t: string, args: seq<string>): string
    decreases |args|
  {
    if args == [] then t else Listed(t + ("," + args[0]), args[1..])
  }

  predicate AtComma(tail: string) { tail == "" || tail[0] == ',' }

  lemma Next(t: string, m: nat, a: string)
    requires t != ""
    ensures Lowest(t) == if Mark(t) == 0 then Lowest(t[1..]) else Min(MarkNumber(t), Lowest(t[Mark(t)..]))
    ensures Replaced(t, m, a) ==
            if Mark(t) == 0 then [t[0]] + Replaced(t[1..], m, a)
            else (if MarkNumber(t) == m then a else t[..Mark(t)]) + Replaced(t[Mark(t)..], m, a)
  {
    hide Mark, MarkNumber;
  }

  lemma NothingLeft(m: nat, a: string)
    ensures Lowest("") == NO_MARK && Replaced("", m, a) == ""
  {
  }

  /** No mark reaches over a comma. */
  lemma {:induction false} SplitAtComma(t: string, tail: string, m: nat, a: string)
    requires AtComma(tail)
    ensures Lowest(t + tail) == Min(Lowest(t), Lowest(tail))
    ensures Replaced(t + tail, m, a) == Replaced(t, m, a) + Replaced(tail, m, a)
    decreases |t|
  {
    hide Mark, MarkNumber, Lowest, Replaced;
    var s := t + tail;
    if t == "" {
      NothingLeft(m, a);
      assert s == tail;
    } else {
      MarkBeforeComma(t, tail);
      Next(t, m, a);
      Next(s, m, a);
      var n := Mark(t);
      if n == 0 {
        assert s[1..] == t[1..] + tail;
        SplitAtComma(t[1..], tail, m, a);
      } else {
        assert s[n..] == t[n..] + tail && s[..n] == t[..n];
        SplitAtComma(t[n..], tail, m, a);
      }
    }
  }

  lemma MarkBeforeComma(t: string, tail: string)
    requires t != "" && AtComma(tail)
    ensures Mark(t + tail) == Mark(t) && (Mark(t) > 0 ==> MarkNumber(t + tail) == MarkNumber(t))
  {
  }

  lemma {:induction false} HigherMarksStay(t: string, m: nat, a: string)
    requires m < Lowest(t)
    ensures Replaced(t, m, a) == t
    decreases |t|
  {
    hide Mark, MarkNumber;
    if t != "" {
      HigherMarksStay(if Mark(t) == 0 then t[1..] else t[Mark(t)..], m, a);
      assert t == [t[0]] + t[1..] == t[..Mark(t)] + t[Mark(t)..];
    }
  }

  /** Short texts make nothing longer, and a mark replaced makes it shorter. */
  lemma {:induction false} ReplacedShrinks(t: string, m: nat, a: string)
    requires |a| <= 1
    ensures |Replaced(t, m, a)| <= |t| && (m < NO_MARK && Lowest(t) == m ==> |Replaced(t, m, a)| < |t|)
    decreases |t|
  {
    hide MarkNumber;
    if t != "" { ReplacedShrinks(if Mark(t) == 0 then t[1..] else t[Mark(t)..], m, a); }
  }

  lemma ShortHasNoMark(a: string)
    requires |a| <= 1
    ensures Lowest(a) == NO_MARK
  {
    if a != "" { assert a[1..] == ""; }
  }

  // ---------------------------------------------------------------- templates

  function Hole(k: nat): string
    requires k < 10
  {
    ['%', '0' + k as char]
  }

  /** ",%k" to ",%n". */
  function Holes(k: nat, n: nat): (t: string)
    requires n < 10
    ensures AtComma(t) && (k <= n ==> t != "" && t[|t| - 1] == '0' + n as char)
    decreases if k <= n then n - k + 1 else 0
  {
    if k > n then "" else "," + Hole(k) + Holes(k + 1, n)
  }

  lemma OneHole(k: nat, m: nat, a: string)
    requires k < 10
    ensures Lowest("," + Hole(k)) == k && Replaced("," + Hole(k), m, a) == if m == k then "," + a else "," + Hole(k)
  {
    var (t, h) := ("," + Hole(k), Hole(k));
    assert t[1..] == h && h[2..] == "" && h[..2] == h;
    assert IsDigit(h[1]) && Digit(h[1]) == k;
    assert Mark(h) == 2 && MarkNumber(h) == k && Mark(t) == 0;
    NothingLeft(m, a);
    Next(h, m, a);
    Next(t, m, a);
  }

  lemma {:induction false} HolesReplaced(k: nat, n: nat, m: nat, a: string)
    requires n < 10 && m <= k
    ensures Lowest(Holes(k, n)) == if k <= n then k else NO_MARK
    ensures Replaced(Holes(k, n), m, a) == if k <= n && m == k then "," + a + Holes(k + 1, n) else Holes(k, n)
    decreases if k <= n then n - k + 1 else 0
  {
    hide Lowest, Replaced, Hole;
    if k <= n {
      HolesReplaced(k + 1, n, m, a);
      OneHole(k, m, a);
      SplitAtComma("," + Hole(k), Holes(k + 1, n), m, a);
    } else {
      NothingLeft(m, a);
    }
  }

  /** One text into a template of which `t` is done: it goes where it belongs
      only if no mark in what is done is lower. */
  lemma ArgStep(t: string, k: nat, n: nat, a: string)
    requires k <= n < 10
    ensures Arg(t + Holes(k, n), a) ==
            if Lowest(t) < k then Replaced(t, Lowest(t), a) + Holes(k, n)
            else Replaced(t, k, a) + ("," + a) + Holes(k + 1, n)
  {
    hide Lowest, Replaced, Holes;
    var m := Min(Lowest(t), k);
    SplitAtComma(t, Holes(k, n), m, a);
    HolesReplaced(k, n, m, a);
    assert Replaced(t, k, a) + ("," + a + Holes(k + 1, n)) == Replaced(t, k, a) + ("," + a) + Holes(k + 1, n);
  }

  lemma LowestWith(t: string, a: string)
    ensures Lowest(t + ("," + a)) == Min(Lowest(t), Lowest(a))
  {
    SplitAtComma(t, "," + a, 0, "");
    assert ("," + a)[1..] == a;
  }

  /** Texts without low marks, the last one being free, are printed as meant. */
  lemma {:induction false} PrintedAsListed(t: string, k: nat, n: nat, args: seq<string>)
    requires n < 10 && k + |args| == n + 1 && (k <= n ==> n < Lowest(t))
    requires forall i :: 0 <= i < |args| - 1 ==> n < Lowest(args[i])
    ensures Printed(t + Holes(k, n), args) == Listed(t, args)
    decreases |args|
  {
    hide Lowest, Replaced, Arg;
    if args == [] {
      assert t + Holes(k, n) == t;
    } else {
      ArgStep(t, k, n, args[0]);
      HigherMarksStay(t, k, args[0]);
      LowestWith(t, args[0]);
      PrintedAsListed(t + ("," + args[0]), k + 1, n, args[1..]);
    }
  }

  /** With fewer texts than holes a hole is left at the end. */
  lemma {:induction false} HoleIsLeft(t: string, k: nat, n: nat, args: seq<string>)
    requires k <= n < 10 && k + |args| <= n
    ensures var p := Printed(t + Holes(k, n), args); p != "" && p[|p| - 1] == '0' + n as char
    decreases |args|
  {
    hide Lowest, Replaced, Arg;
    if args != [] {
      ArgStep(t, k, n, args[0]);
      if Lowest(t) < k {
        HoleIsLeft(Replaced(t, Lowest(t), args[0]), k, n, args[1..]);
      } else {
        HoleIsLeft(Replaced(t, k, args[0]) + ("," + args[0]), k + 1, n, args[1..]);
      }
    }
  }

  predicate Short(args: seq<string>) { forall i :: 0 <= i < |args| ==> |args[i]| <= 1 }

  lemma {:induction false} ListedSize(t: string, u: string, args: seq<string>)
    ensures |t| <= |u| ==> |Listed(t, args)| <= |Listed(u, args)|
    ensures |t| < |u| ==> |Listed(t, args)| < |Listed(u, args)|
    decreases |args|
  {
    if args != [] { ListedSize(t + ("," + args[0]), u + ("," + args[0]), args[1..]); }
  }

  lemma {:induction false} ListedEnd(t: string, args: seq<string>)
    requires args != [] && args[|args| - 1] == ""
    ensures var l := Listed(t, args); l != "" && l[|l| - 1] == ','
    decreases |args|
  {
    if |args| > 1 {
      ListedEnd(t + ("," + args[0]), args[1..]);
    } else {
      assert args[1..] == [] && Listed(t, args) == t + ("," + "");
    }
  }

  /** Short texts are printed with a hole left, or not longer than meant. */
  lemma {:induction false} HoleOrNotLonger(t: string, k: nat, n: nat, args: seq<string>)
    requires 0 < n < 10 && k + |args| == n + 1 && Short(args)
    ensures var p := Printed(t + Holes(k, n), args);
            (p != "" && p[|p| - 1] == '0' + n as char && k <= n) || |p| <= |Listed(t, args)|
    decreases |args|
  {
    hide Lowest, Replaced, Arg;
    if args == [] {
      assert t + Holes(k, n) == t;
    } else {
      var a := args[0];
      ArgStep(t, k, n, a);
      if Lowest(t) < k {
        HoleIsLeft(Replaced(t, Lowest(t), a), k, n, args[1..]);
      } else {
        ReplacedShrinks(t, k, a);
        var t' := Replaced(t, k, a) + ("," + a);
        HoleOrNotLonger(t', k + 1, n, args[1..]);
        ListedSize(t', t + ("," + a), args[1..]);
      }
    }
  }

  /** With short texts to come, the last one empty, what is done stays as it is
      exactly when it has no mark that the template uses. */
  lemma {:induction false} PrintedAsListedIff(t: string, k: nat, n: nat, args: seq<string>)
    requires 0 < n < 10 && k + |args| == n + 1 && args != [] && Short(args) && args[|args| - 1] == ""
    ensures Printed(t + Holes(k, n), args) == Listed(t, args) <==> n < Lowest(t)
    decreases |args|
  {
    hide Lowest, Replaced, Arg;
    forall i | 0 <= i < |args| ensures Lowest(args[i]) == NO_MARK { ShortHasNoMark(args[i]); }
    if n < Lowest(t) {
      PrintedAsListed(t, k, n, args);
      return;
    }
    var a := args[0];
    ArgStep(t, k, n, a);
    ListedEnd(t, args);
    if Lowest(t) < k {
      HoleIsLeft(Replaced(t, Lowest(t), a), k, n, args[1..]);
    } else if Lowest(t) == k {
      ReplacedShrinks(t, k, a);
      var t' := Replaced(t, k, a) + ("," + a);
      HoleOrNotLonger(t', k + 1, n, args[1..]);
      ListedSize(t', t + ("," + a), args[1..]);
    } else {
      HigherMarksStay(t, k, a);
      LowestWith(t, a);
      PrintedAsListedIff(t + ("," + a), k + 1, n, args[1..]);
    }
  }

  /** The text at `j`, with safe ones before it and short ones behind it. */
  lemma {:induction false} TextIsKeptIff(t: string, k: nat, n: nat, args: seq<string>, j: nat)
    requires 0 < n < 10 && k + |args| == n + 1 && n < Lowest(t) && j < |args| - 1
    requires forall i :: 0 <= i < j ==> n < Lowest(args[i])
    requires Short(args[j + 1..]) && args[|args| - 1] == ""
    ensures Printed(t + Holes(k, n), args) == Listed(t, args) <==> n < Lowest(args[j])
    decreases j
  {
    hide Lowest, Replaced, Arg;
    var t' := t + ("," + args[0]);
    ArgStep(t, k, n, args[0]);
    HigherMarksStay(t, k, args[0]);
    LowestWith(t, args[0]);
    if j == 0 {
      PrintedAsListedIff(t', k + 1, n, args[1..]);
    } else {
      assert args[1..][j..] == args[j + 1..];
      TextIsKeptIff(t', k + 1, n, args[1..], j - 1);
    }
  }

  lemma {:induction false} WordHasNoMark(word: string)
    requires '%' !in word
    ensures Lowest(word) == NO_MARK
    decreases |word|
  {
    if word != "" { WordHasNoMark(word[1..]); }
  }

  // ---------------------------------------------------------- listed and joined

  lemma {:induction false} ListedBehind(t: string, u: string, args: seq<string>)
    ensures Listed(t + u, args) == t + Listed(u, args)
    decreases |args|
  {
    if args != [] {
      ListedBehind(t, u + ("," + args[0]), args[1..]);
      assert t + u + ("," + args[0]) == t + (u + ("," + args[0]));
    }
  }

  lemma {:induction false} ListedTwice(t: string, a: seq<string>, b: seq<string>)
    ensures Listed(t, a + b) == Listed(Listed(t, a), b)
    decreases |a|
  {
    if a == [] {
      assert a + b == b;
    } else {
      assert (a + b)[1..] == a[1..] + b;
      ListedTwice(t + ("," + a[0]), a[1..], b);
    }
  }

  lemma SameEnd(t: string, u: string, args: seq<string>)
    ensures Listed(t, args) == Listed(u, args) <==> t == u
  {
    hide Listed;
    ListedBehind(t, "", args);
    ListedBehind(u, "", args);
    var end := Listed("", args);
    assert t + "" == t && u + "" == u;
    if t + end == u + end {
      assert t == (t + end)[..|t|] && u == (u + end)[..|u|];
    }
  }

  function Quoted(fields: seq<string>): (q: seq<string>)
    ensures |q| == |fields| && forall i :: 0 <= i < |fields| ==> q[i] == QuotedString(fields[i])
  {
    seq(|fields|, i requires 0 <= i < |fields| => QuotedString(fields[i]))
  }

  lemma {:induction false} JoinIsListed(word: string, fields: seq<string>)
    ensures Join([word] + fields) == Listed(QuotedString(word), Quoted(fields))
    decreases |fields|
  {
    hide QuotedString;
    var all, q := [word] + fields, QuotedString(word);
    assert all[1..] == fields;
    if fields != [] {
      JoinIsListed(fields[0], fields[1..]);
      assert fields == [fields[0]] + fields[1..];
      assert Quoted(fields)[1..] == Quoted(fields[1..]);
      ListedBehind(q + ",", QuotedString(fields[0]), Quoted(fields[1..]));
      assert q + "," + QuotedString(fields[0]) == q + ("," + QuotedString(fields[0]));
    }
  }

  // ---------------------------------------------------------------- variables

  function PrintedVariable(v: Variable): string {
    Printed("Variable,%1,%2", [QuotedString(v.name), QuotedString(v.value)])
  }

  /** What the savers write for it holds no mark with a number up to `n`. */
  predicate Safe(text: string, n: nat) { n < Lowest(QuotedString(text)) }

  lemma Templates()
    ensures "Variable" + Holes(1, 2) == "Variable,%1,%2" && "Settings" + Holes(1, 5) == "Settings,%1,%2,%3,%4,%5"
  {
    assert Holes(2, 2) == ",%2" + Holes(3, 2) == ",%2";
    assert Holes(5, 5) == ",%5" + Holes(6, 5) == ",%5";
    assert Holes(4, 5) == ",%4,%5";
    assert Holes(3, 5) == ",%3,%4,%5";
    assert Holes(2, 5) == ",%2,%3,%4,%5";
  }

  predicate VariableAsMeant(v: Variable) { PrintedVariable(v) == Join(VariableFields(v)) }

  lemma VariableLine(v: Variable)
    ensures Join(VariableFields(v)) == Listed("Variable", [QuotedString(v.name), QuotedString(v.value)])
  {
    hide QuotedString, Join, Listed;
    VariableWord();
    JoinIsListed("Variable", [v.name, v.value]);
    assert VariableFields(v) == ["Variable"] + [v.name, v.value];
    assert Quoted([v.name, v.value]) == [QuotedString(v.name), QuotedString(v.value)];
  }

  lemma NoTextNoMark()
    ensures QuotedString("") == ""
  {
    assert Double("") == "" && Escape("") == "";
  }

  /** A variable is printed as meant, whatever its value, exactly when its name
      has no mark with a number up to 2. */
  lemma VariablePrintedIff(name: string)
    ensures (forall value :: VariableAsMeant(Variable(name, value))) <==> Safe(name, 2)
  {
    hide QuotedString, Join, Listed, Printed, Lowest, Holes;
    Templates();
    WordHasNoMark("Variable");
    forall value ensures Safe(name, 2) ==> VariableAsMeant(Variable(name, value)) {
      VariableLine(Variable(name, value));
      if Safe(name, 2) { PrintedAsListed("Variable", 1, 2, [QuotedString(name), QuotedString(value)]); }
    }
    var v := Variable(name, "");
    NoTextNoMark();
    VariableLine(v);
    TextIsKeptIff("Variable", 1, 2, [QuotedString(name), ""], 0);
    if forall value :: VariableAsMeant(Variable(name, value)) { assert VariableAsMeant(v); }
  }

  /** The value of the variable "%1" becomes its name. */
  lemma VariableMisprinted(value: string)
    requires '"' !in value && ',' !in value && '\n' !in value
    ensures PrintedVariable(Variable("%1", value)) == "Variable," + value + ",%2"
  {
    hide QuotedString, Double, Escape, NeedsQuotes, Arg, Printed;
    Unquoted("%1");
    Unquoted(value);
    PrintedTwo("Variable,%1,%2", "%1", value);
    FirstMarkAgain(value);
  }

  lemma FirstMarkAgain(value: string)
    ensures Arg(Arg("Variable,%1,%2", "%1"), value) == "Variable," + value + ",%2"
  {
    hide Holes, Lowest, Replaced, Arg;
    FirstMark();
    FirstMarkReplaced(value);
    ArgStep("Variable" + ",%1", 2, 2, value);
    LastHole();
    assert "Variable" + ("," + value) + ",%2" == "Variable," + value + ",%2";
  }

  lemma FirstMark()
    ensures Arg("Variable,%1,%2", "%1") == "Variable" + ",%1" + Holes(2, 2)
  {
    hide Holes, Lowest, Replaced, Arg;
    Templates();
    WordHasNoMark("Variable");
    ArgStep("Variable", 1, 2, "%1");
    HigherMarksStay("Variable", 1, "%1");
    assert "," + "%1" == ",%1";
  }

  lemma FirstMarkReplaced(value: string)
    ensures Lowest("Variable" + ",%1") == 1 && Replaced("Variable" + ",%1", 1, value) == "Variable" + ("," + value)
  {
    hide Lowest, Replaced;
    WordHasNoMark("Variable");
    OneHole(1, 1, value);
    assert "," + Hole(1) == ",%1";
    SplitAtComma("Variable", ",%1", 1, value);
    HigherMarksStay("Variable", 1, value);
  }

  lemma PrintedTwo(t: string, a: string, b: string)
    ensures Printed(t, [a, b]) == Arg(Arg(t, a), b)
  {
    hide Arg;
    assert [a, b][1..] == [b] && [b][1..] == [];
    assert Printed(Arg(t, a), [b]) == Printed(Arg(Arg(t, a), b), []);
  }

  lemma LastHole()
    ensures Holes(2, 2) == ",%2"
  {
    assert Holes(3, 2) == "";
  }

  // ----------------------------------------------------------------- settings

  function SettingsTexts(s: Settings): seq<string> {
    [QuotedString(s.sacnIp), QuotedString(s.artNetIp), Flag(s.levelChangesOnly), QuotedString(s.script), QuotedString(s.otpIp)]
  }

  function ModuleFlags(s: Settings): (flags: seq<string>)
    ensures |flags| == MODULE_COUNT
  {
    [Flag(0 in s.otpModules), Flag(1 in s.otpModules), Flag(2 in s.otpModules), Flag(3 in s.otpModules), Flag(4 in s.otpModules),
     Flag(5 in s.otpModules)]
  }

  /** `SaveSettings`: the flags of the modules are appended to what is printed. */
  function PrintedSettings(s: Settings): string {
    Listed(Printed("Settings,%1,%2,%3,%4,%5", SettingsTexts(s)), ModuleFlags(s))
  }

  predicate SettingsAsMeant(s: Settings) { PrintedSettings(s) == Join(SettingsFields(s)) }

  predicate SafeSettings(s: Settings) { Safe(s.sacnIp, 5) && Safe(s.artNetIp, 5) && Safe(s.script, 5) }

  lemma FlagIsShort(b: bool)
    ensures |Flag(b)| == 1 && QuotedString(Flag(b)) == Flag(b)
  {
    Unquoted(Flag(b));
  }

  lemma QuotedSettings(s: Settings)
    ensures var fields := SettingsFields(s); fields == ["Settings"] + fields[1..] && Quoted(fields[1..]) == SettingsTexts(s) + ModuleFlags(s)
  {
    hide QuotedString, Flag, Quoted;
    var texts := [s.sacnIp, s.artNetIp, Flag(s.levelChangesOnly), s.script, s.otpIp];
    assert SettingsFields(s)[1..] == texts + ModuleFlags(s);
    QuotedAppend(texts, ModuleFlags(s));
    QuotedFlags(s);
    FlagIsShort(s.levelChangesOnly);
    assert Quoted(texts) == SettingsTexts(s);
  }

  lemma QuotedAppend(a: seq<string>, b: seq<string>)
    ensures Quoted(a + b) == Quoted(a) + Quoted(b)
  {
    hide QuotedString;
  }

  lemma QuotedFlags(s: Settings)
    ensures Quoted(ModuleFlags(s)) == ModuleFlags(s)
  {
    hide QuotedString, Flag;
    FlagIsShort(true);
    FlagIsShort(false);
    var flags := ModuleFlags(s);
    forall i | 0 <= i < |flags| ensures Quoted(flags)[i] == flags[i] {
      assert flags[i] == Flag(true) || flags[i] == Flag(false);
    }
  }

  lemma SettingsLine(s: Settings)
    ensures SettingsAsMeant(s) <==> Printed("Settings,%1,%2,%3,%4,%5", SettingsTexts(s)) == Listed("Settings", SettingsTexts(s))
  {
    hide QuotedString, Join, Listed, Printed, Quoted, SettingsFields, SettingsTexts, ModuleFlags;
    SettingsWord();
    QuotedSettings(s);
    JoinIsListed("Settings", SettingsFields(s)[1..]);
    ListedTwice("Settings", SettingsTexts(s), ModuleFlags(s));
    SameEnd(Printed("Settings,%1,%2,%3,%4,%5", SettingsTexts(s)), Listed("Settings", SettingsTexts(s)), ModuleFlags(s));
  }

  /** Blank texts show whether those before them are safe. */
  lemma SettingsKeptIff(s: Settings, j: nat)
    requires s.otpIp == "" && (j == 0 || j == 1 || j == 3)
    requires (j == 0 ==> s.artNetIp == "") && (j <= 1 ==> s.script == "")
    requires (j > 0 ==> Safe(s.sacnIp, 5)) && (j > 1 ==> Safe(s.artNetIp, 5))
    ensures SettingsAsMeant(s) <==> Safe(if j == 0 then s.sacnIp else if j == 1 then s.artNetIp else s.script, 5)
  {
    hide QuotedString, Join, Listed, Flag, Printed, Lowest, Holes, SettingsAsMeant;
    Templates();
    WordHasNoMark("Settings");
    FlagIsShort(s.levelChangesOnly);
    ShortHasNoMark(Flag(s.levelChangesOnly));
    NoTextNoMark();
    SettingsLine(s);
    TextIsKeptIff("Settings", 1, 5, SettingsTexts(s), j);
  }

  /** The settings line is printed as meant, also with the later of its texts
      blank, exactly when no text but the last has a mark with a number up to 5. */
  lemma SettingsPrintedIff(s: Settings)
    ensures SafeSettings(s) ==> SettingsAsMeant(s)
    ensures SafeSettings(s) <==>
            && SettingsAsMeant(s.(artNetIp := "", script := "", otpIp := ""))
            && SettingsAsMeant(s.(script := "", otpIp := ""))
            && SettingsAsMeant(s.(otpIp := ""))
  {
    hide QuotedString, Join, Listed, Flag, Printed, Lowest, Holes, SettingsAsMeant;
    if SafeSettings(s) { SafeIsAsMeant(s); }
    SettingsKeptIff(s.(artNetIp := "", script := "", otpIp := ""), 0);
    if Safe(s.sacnIp, 5) {
      SettingsKeptIff(s.(script := "", otpIp := ""), 1);
      if Safe(s.artNetIp, 5) { SettingsKeptIff(s.(otpIp := ""), 3); }
    }
  }

  lemma SafeIsAsMeant(s: Settings)
    requires SafeSettings(s)
    ensures SettingsAsMeant(s)
  {
    hide QuotedString, Join, Listed, Flag, Printed, Lowest, Holes, SettingsAsMeant;
    Templates();
    WordHasNoMark("Settings");
    FlagIsShort(s.levelChangesOnly);
    ShortHasNoMark(Flag(s.levelChangesOnly));
    SettingsLine(s);
    PrintedAsListed("Settings", 1, 5, SettingsTexts(s));
  }

  // --------------------------------------------------------------- whole files

  function PrintedVariables(vs: seq<Variable>): seq<string> {
    if vs == [] then [] else (if vs[0].name == "" then [] else [PrintedVariable(vs[0])]) + PrintedVariables(vs[1..])
  }

  /** What `SaveSettings` and `SaveVariables` print. */
  function PrintedHead(c: Contents): Head { Head(PrintedSettings(c.settings), PrintedVariables(c.variables)) }

  lemma {:induction false} VariablesAsMeant(vs: seq<Variable>)
    requires forall i :: 0 <= i < |vs| ==> Safe(vs[i].name, 2)
    ensures PrintedVariables(vs) == VariableLines(vs)
    decreases |vs|
  {
    hide PrintedVariable, Safe, Join;
    if vs != [] {
      VariablePrintedIff(vs[0].name);
      assert vs[0] == Variable(vs[0].name, vs[0].value);
      assert VariableAsMeant(Variable(vs[0].name, vs[0].value));
      VariablesAsMeant(vs[1..]);
    }
  }

  /** Saving and loading with everything printed the way the source does. */
  lemma PrintedFileRoundTrip(c: Contents, env: Env)
    requires StorableContents(c, env) && StorableSettings(c.settings)
    requires forall i :: 0 <= i < |c.variables| ==> c.variables[i].name != "" && Plain(c.variables[i].name) && Plain(c.variables[i].value)
    requires NoKeyword(c) && forall i :: 0 <= i < |c.connections| ==> c.connections[i].port != 0
    requires forall i, j :: 0 <= i < j < |c.connections| ==> !SameAddress(c.connections[i], c.connections[j])
    requires SafeSettings(c.settings) && forall i :: 0 <= i < |c.variables| ==> Safe(c.variables[i].name, 2)
    ensures Load(Save(c, PrintedHead(c)), env) == c
  {
    hide Load, Save, StorableContents, StorableSettings, NoKeyword, Plain, SameAddress, SafeSettings, Safe, PrintedSettings,
         PrintedVariables, VariableLines, Join;
    SafeIsAsMeant(c.settings);
    VariablesAsMeant(c.variables);
    FileRoundTripExact(c, env);
  }

  // ------------------------------------------------- one line with its keyword

  lemma {:induction false} ReplacedBehind(word: string, t: string, m: nat, a: string)
    requires '%' !in word
    ensures Replaced(word + t, m, a) == word + Replaced(t, m, a)
    decreases |word|
  {
    hide MarkNumber;
    if word == "" {
      assert word + t == t;
    } else {
      assert (word + t)[1..] == word[1..] + t;
      ReplacedBehind(word[1..], t, m, a);
    }
  }

  lemma {:induction false} ReplacedOneLine(t: string, m: nat, a: string)
    requires OneLine(t) && OneLine(a)
    ensures OneLine(Replaced(t, m, a))
    decreases |t|
  {
    hide MarkNumber;
    if t != "" { ReplacedOneLine(if Mark(t) == 0 then t[1..] else t[Mark(t)..], m, a); }
  }

  lemma {:induction false} PrintedBegins(word: string, t: string, args: seq<string>)
    requires Begins(t, word) && '%' !in word && forall i :: 0 <= i < |args| ==> OneLine(args[i])
    ensures Begins(Printed(t, args), word)
    decreases |args|
  {
    hide OneLine, Replaced, Lowest;
    if args != [] {
      var rest := t[|word|..];
      assert t == word + rest;
      ReplacedBehind(word, rest, Lowest(t), args[0]);
      ReplacedOneLine(t, Lowest(t), args[0]);
      PrintedBegins(word, Arg(t, args[0]), args[1..]);
    }
  }

  lemma {:induction false} ListedBegins(word: string, t: string, args: seq<string>)
    requires Begins(t, word) && forall i :: 0 <= i < |args| ==> OneLine(args[i])
    ensures Begins(Listed(t, args), word)
    decreases |args|
  {
    if args != [] { ListedBegins(word, t + ("," + args[0]), args[1..]); }
  }

  predicate NoReturn(c: Contents) {
    && '\r' !in c.settings.sacnIp && '\r' !in c.settings.artNetIp && '\r' !in c.settings.script && '\r' !in c.settings.otpIp
    && forall i :: 0 <= i < |c.variables| ==> '\r' !in c.variables[i].name && '\r' !in c.variables[i].value
  }

  /** What is printed, as meant or not, is one settings line and variable lines. */
  lemma PrintedHeadIsValid(c: Contents)
    requires NoReturn(c)
    ensures ValidHead(PrintedHead(c))
  {
    hide QuotedString, Listed, Printed, PrintedVariable, PrintedVariables;
    var s := c.settings;
    QuotedOneLine(s.sacnIp);
    QuotedOneLine(s.artNetIp);
    QuotedOneLine(s.script);
    QuotedOneLine(s.otpIp);
    assert "Settings,%1,%2,%3,%4,%5"[..9] == "Settings,";
    PrintedBegins("Settings,", "Settings,%1,%2,%3,%4,%5", SettingsTexts(s));
    ListedBegins("Settings,", Printed("Settings,%1,%2,%3,%4,%5", SettingsTexts(s)), ModuleFlags(s));
    VariablesBegin(c.variables);
  }

  lemma VariableBegins(v: Variable)
    requires '\r' !in v.name && '\r' !in v.value
    ensures Begins(PrintedVariable(v), "Variable,")
  {
    hide QuotedString, Printed;
    QuotedOneLine(v.name);
    QuotedOneLine(v.value);
    assert "Variable,%1,%2"[..9] == "Variable,";
    PrintedBegins("Variable,", "Variable,%1,%2", [QuotedString(v.name), QuotedString(v.value)]);
  }

  lemma {:induction false} VariablesBegin(vs: seq<Variable>)
    requires forall i :: 0 <= i < |vs| ==> '\r' !in vs[i].name && '\r' !in vs[i].value
    ensures forall i :: 0 <= i < |PrintedVariables(vs)| ==> Begins(PrintedVariables(vs)[i], "Variable,")
    decreases |vs|
  {
    hide PrintedVariable, Begins;
    if vs != [] {
      VariableBegins(vs[0]);
      VariablesBegin(vs[1..]);
    }
  }
}

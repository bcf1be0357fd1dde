/** What is made of records that the savers would not write: shorter ones, and
    fields with other numbers or with none. */
module ConfigReading {
  import opened Basics
  import opened Decimal
  import opened ConfigText
  import opened ConfigFile
  import opened ConfigRoundTrip

  /** The fields that a route line may leave out, from the twelfth on: no script,
      no interface, the first protocol twice, enabled, not muted, nothing else. */
  const LEFT_OUT: seq<string> := ["", "", "0", "0", "1", "1", "", ""]

  function Completed(items: seq<string>): seq<string>
    requires |items| > 10
  {
    if |items| < 19 then items + LEFT_OUT[|items| - 11..] else items[..19]
  }

  /** A shorter line is read as the completed one, and of a longer one the rest
      is ignored. */
  lemma ShortRouteReads(items: seq<string>, env: Env)
    requires |items| > 10
    ensures ReadRoute(items, env) == ReadRoute(Completed(items), env)
  {
    hide ReadTransform, ToUShort;
    SmallNumbers();
    var (n, all) := (|items|, Completed(items));
    assert |all| == 19 && forall i :: 0 <= i < n && i < 19 ==> all[i] == items[i];
    forall i | n <= i < 19 ensures all[i] == LEFT_OUT[i - 11] {}
  }

  lemma SmallNumbers()
    ensures IntOr0("0") == 0 && IntOr0("1") == 1
  {
    assert Value("") == 0 && "0"[..0] == "" && "1"[..0] == "";
  }

  /** A number is read with its sign exactly when it fits an int. */
  lemma AnyNumberReads(n: int)
    ensures ParseInt(Signed(n)) == if -0x8000_0000 <= n < 0x8000_0000 then Some(n) else None
    ensures n >= 0 ==> ParseInt("+" + Number(n)) == if n < 0x8000_0000 then Some(n) else None
  {
    hide Number;
    NumberRoundTrip(if n < 0 then -n else n);
    var digits := Number(if n < 0 then -n else n);
    assert IsDigit(digits[0]);
    var (minus, plus) := ("-" + digits, "+" + digits);
    assert minus[1..] == digits && plus[1..] == digits;
  }

  /** Ports are 16-bit, an unknown protocol is the first one, and a flag is any
      number but 0. */
  lemma RouteNumbers(items: seq<string>, n: int, env: Env)
    requires |items| > 16 && -0x8000_0000 <= n < 0x8000_0000
    ensures var r := ReadRoute(items, env);
            && (items[2] == Signed(n) ==> r.srcPort == if 0 <= n < 0x1_0000 then n else 0)
            && (items[7] == Signed(n) ==> r.dstPort == if 0 <= n < 0x1_0000 then n else 0)
            && (items[13] == Signed(n) ==> r.srcProtocol == if 0 <= n < 6 then n else 0)
            && (items[14] == Signed(n) ==> r.dstProtocol == if 0 <= n < 6 then n else 0)
            && (items[15] == Signed(n) ==> (r.enable <==> n != 0))
            && (items[16] == Signed(n) ==> (r.mute <==> n == 0))
  {
    hide Signed, ParseInt, ReadTransform;
    AnyNumberReads(n);
  }

  lemma ConnectionNumbers(items: seq<string>, n: int, env: Env)
    requires |items| == 5 && -0x8000_0000 <= n < 0x8000_0000
    ensures var c := ReadConnection(items, env);
            && c.name == items[0] && c.ip == items[3]
            && (items[1] == Signed(n) ==> (c.server <==> n != 0))
            && (items[2] == Signed(n) ==> c.frameMode == if 0 <= n < env.modeCount then n else env.invalidMode)
            && (items[4] == Signed(n) ==> c.port == if 0 <= n < 0x1_0000 then n else 0)
  {
    hide Signed, ParseInt;
    AnyNumberReads(n);
  }

  /** A text that has anything but digits behind its sign, or none, is no number. */
  predicate NoNumber(s: string) {
    s in {"", "+", "-"} || (exists i :: 0 < i < |s| && !IsDigit(s[i])) || (s[0] !in "+-" && !IsDigit(s[0]))
  }

  lemma NoNumberReads(s: string)
    requires NoNumber(s)
    ensures ParseInt(s) == None && IntOr0(s) == 0 && ToUShort(s) == 0
  {
    if s != "" {
      if i :| 0 < i < |s| && !IsDigit(s[i]) { assert s[1..][i - 1] == s[i]; }
    }
  }

  /** What a settings line leaves out from the fourth item on stays as it was; of
      the modules those that are left out are off, unless all are. */
  lemma ShortSettingsRead(items: seq<string>, s: Settings)
    requires |items| >= 3 && forall k :: k in s.otpModules ==> 0 <= k < 6
    ensures var (n, r) := (|items|, ReadSettings(items, s));
            && r.sacnIp == items[1] && r.artNetIp == items[2]
            && (if n < 4 then r.levelChangesOnly == s.levelChangesOnly else r.levelChangesOnly == (IntOr0(items[3]) != 0))
            && r.script == (if n < 5 then s.script else items[4])
            && r.otpIp == (if n < 6 then s.otpIp else items[5])
            && forall k :: k in r.otpModules <==> if n < 7 then k in s.otpModules else 0 <= k < 6 && k + 6 < n && IntOr0(items[k + 6]) != 0
  {
    hide IntOr0;
  }

  // ------------------------------------------------------------------- labels

  /** The same letters, upper-case where `lower` has small ones or not. */
  predicate SameLetters(s: string, lower: string) {
    |s| == |lower| &&
    forall i :: 0 <= i < |s| ==> s[i] == lower[i] || ('a' <= lower[i] <= 'z' && s[i] as int == lower[i] as int - 32)
  }

  lemma LowerIsSameLetters(s: string, word: string)
    requires forall i :: 0 <= i < |word| ==> 'a' <= word[i] <= 'z'
    ensures Lower(s) == word <==> SameLetters(s, word)
  {
    if Lower(s) == word {
      forall i | 0 <= i < |s| ensures s[i] == word[i] || s[i] as int == word[i] as int - 32 { assert Lower(s)[i] == word[i]; }
    }
    if SameLetters(s, word) {
      forall i | 0 <= i < |s| ensures Lower(s)[i] == word[i] {}
    }
  }

  /** The labels that routes and connections cannot have, in any spelling. */
  lemma KeywordIff(s: string)
    ensures IsKeyword(s) <==> SameLetters(s, "settings") || SameLetters(s, "mute") || SameLetters(s, "variable")
  {
    hide Lower, SameLetters;
    LowerIsSameLetters(s, "settings");
    LowerIsSameLetters(s, "mute");
    LowerIsSameLetters(s, "variable");
  }

  // -------------------------------------------------------------- connections

  /** A connection with a port whose address has not come before. */
  predicate IsFirst(cs: seq<Connection>, k: nat)
    requires k < |cs|
  {
    cs[k].port > 0 && forall j :: 0 <= j < k ==> cs[j].ip != cs[k].ip || cs[j].port != cs[k].port
  }

  function Firsts(cs: seq<Connection>): seq<Connection>
    decreases |cs|
  {
    if cs == [] then []
    else
      var k := |cs| - 1;
      Firsts(cs[..k]) + if IsFirst(cs, k) then [cs[k]] else []
  }

  /** What is kept has the address of a connection before it, and the other way
      round if that had a port. */
  lemma {:induction false} FirstsHaveAddresses(cs: seq<Connection>, ip: string, port: nat)
    ensures (exists i :: 0 <= i < |Firsts(cs)| && At(Firsts(cs)[i], ip, port)) <==>
            port > 0 && exists j :: 0 <= j < |cs| && At(cs[j], ip, port)
    decreases |cs|
  {
    if cs != [] {
      var k := |cs| - 1;
      var before := Firsts(cs[..k]);
      FirstsHaveAddresses(cs[..k], ip, port);
      if i :| 0 <= i < |before| && At(before[i], ip, port) {
        assert At(Firsts(cs)[i], ip, port);
        var j :| 0 <= j < k && At(cs[..k][j], ip, port);
        assert At(cs[j], ip, port);
      } else if port > 0 && At(cs[k], ip, port) {
        assert forall j :: 0 <= j < k ==> cs[..k][j] == cs[j];
        forall j | 0 <= j < k ensures cs[j].ip != ip || cs[j].port != port { assert !At(cs[..k][j], ip, port); }
        assert IsFirst(cs, k);
        assert At(Firsts(cs)[|before|], ip, port);
      } else {
        forall j | 0 <= j < |cs| ensures !(port > 0 && At(cs[j], ip, port)) {
          if j < k { assert cs[..k][j] == cs[j]; }
        }
        forall i | 0 <= i < |Firsts(cs)| ensures !At(Firsts(cs)[i], ip, port) {
          if i < |before| { assert Firsts(cs)[i] == before[i]; }
        }
      }
    }
  }

  predicate At(c: Connection, ip: string, port: nat) { c.ip == ip && c.port == port }

  /** Just the first connections of all usable addresses are kept, in order. */
  lemma {:induction false} ValidatedIsFirsts(cs: seq<Connection>)
    ensures Validated(cs) == Firsts(cs)
    decreases |cs|
  {
    if cs != [] {
      var k := |cs| - 1;
      var (x, kept) := (cs[k], Firsts(cs[..k]));
      ValidatedIsFirsts(cs[..k]);
      FirstsHaveAddresses(cs[..k], x.ip, x.port);
      KeptNext(cs, kept);
    }
  }

  lemma KeptNext(cs: seq<Connection>, kept: seq<Connection>)
    requires cs != []
    requires var k := |cs| - 1; var x := cs[k];
             (exists i :: 0 <= i < |kept| && At(kept[i], x.ip, x.port)) <==> x.port > 0 && exists j :: 0 <= j < k && At(cs[..k][j], x.ip, x.port)
    ensures var k := |cs| - 1; var x := cs[k];
            (x.port == 0 || exists i :: 0 <= i < |kept| && SameAddress(kept[i], x)) <==> !IsFirst(cs, k)
  {
    var k := |cs| - 1;
    var x := cs[k];
    assert forall j :: 0 <= j < k ==> cs[..k][j] == cs[j];
    if i :| 0 <= i < |kept| && SameAddress(kept[i], x) { assert At(kept[i], x.ip, x.port); }
    if i :| 0 <= i < |kept| && At(kept[i], x.ip, x.port) { assert SameAddress(kept[i], x); }
    if j :| 0 <= j < k && At(cs[..k][j], x.ip, x.port) { assert cs[j].ip == x.ip && cs[j].port == x.port; }
    if !IsFirst(cs, k) && x.port > 0 {
      var j :| 0 <= j < k && !(cs[j].ip != x.ip || cs[j].port != x.port);
      assert At(cs[..k][j], x.ip, x.port);
    }
  }

  /** Flags are written as the numbers 0 and 1. */
  lemma FlagIsNumber(b: bool)
    ensures Flag(b) == Number(if b then 1 else 0)
  {
    assert Number(0) == "0" && Number(1) == "1";
  }

  // -------------------------------------------------------------------- blanks

  predicate Blank(c: char) { c == ' ' || '\t' <= c <= '\r' }

  predicate Blanks(s: string) { forall i :: 0 <= i < |s| ==> Blank(s[i]) }

  predicate NoOuterBlank(s: string) { s != "" ==> !Blank(s[0]) && !Blank(s[|s| - 1]) }

  lemma {:induction false} LeftTrimmed(front: string, text: string)
    requires Blanks(front) && (text == "" || !Blank(text[0]))
    ensures TrimLeft(front + text) == text
    decreases |front|
  {
    if front == "" {
      assert front + text == text;
    } else {
      assert (front + text)[1..] == front[1..] + text;
      LeftTrimmed(front[1..], text);
    }
  }

  lemma {:induction false} RightTrimmed(text: string, end: string)
    requires Blanks(end) && (text == "" || !Blank(text[|text| - 1]))
    ensures TrimRight(text + end) == text
    decreases |end|
  {
    if end == "" {
      assert text + end == text;
    } else {
      var n := |end| - 1;
      assert (text + end)[..|text + end| - 1] == text + end[..n];
      RightTrimmed(text, end[..n]);
    }
  }

  lemma {:induction false} AllTrimmed(blanks: string)
    requires Blanks(blanks)
    ensures TrimLeft(blanks) == ""
  {
    if blanks != "" { AllTrimmed(blanks[1..]); }
  }

  lemma {:induction false} PlainStays(text: string)
    requires '"' !in text && '\\' !in text
    ensures UnDouble(text) == text && Unescape(text) == text
  {
    if text != "" { PlainStays(text[1..]); }
  }

  /** Blanks around an item do not belong to it, those inside do. */
  lemma BlanksAreTrimmed(front: string, text: string, end: string)
    requires Blanks(front) && Blanks(end) && NoOuterBlank(text)
    ensures Item(front + text + end) == Item(text)
    ensures '"' !in text && '\\' !in text ==> Item(text) == text
  {
    hide Blank;
    LeftTrimmed("", text);
    RightTrimmed(text, "");
    assert "" + text == text && text + "" == text;
    if text == "" {
      assert front + text + end == front + end;
      AllTrimmed(front + end);
    } else {
      assert front + text + end == front + (text + end);
      assert (text + end)[0] == text[0];
      LeftTrimmed(front, text + end);
      RightTrimmed(text, end);
    }
    if '"' !in text && '\\' !in text { PlainStays(text); }
  }
}

/** Saving a configuration and loading it again. */
module ConfigRoundTrip {
  import opened Decimal
  import opened ConfigText
  import opened ConfigFile

  // ------------------------------------------------------------------------ lines

  predicate OneLine(s: string) { '\n' !in s && '\r' !in s }

  lemma {:induction false} EscapeOneLine(s: string)
    requires '\r' !in s
    ensures OneLine(Escape(s))
  {
    if s != "" {
      assert s[0] in s;
      EscapeOneLine(s[1..]);
    }
  }

  lemma {:induction false} DoubleNoReturn(s: string)
    requires '\r' !in s
    ensures '\r' !in Double(s)
  {
    if s != "" {
      assert s[0] in s;
      DoubleNoReturn(s[1..]);
    }
  }

  lemma QuotedOneLine(s: string)
    requires '\r' !in s
    ensures OneLine(QuotedString(s))
  {
    hide Escape, Double;
    DoubleNoReturn(s);
    EscapeOneLine(Double(s));
    EscapeOneLine("\"" + Double(s) + "\"");
  }

  lemma {:induction false} JoinOneLine(fields: seq<string>)
    requires AllPlain(fields)
    ensures OneLine(Join(fields))
    decreases |fields|
  {
    hide QuotedString, Storable;
    if fields != [] {
      QuotedOneLine(fields[0]);
      JoinOneLine(fields[1..]);
    }
  }

  lemma {:induction false} SplitAtNewline(front: string, rest: string, line: string)
    requires OneLine(front)
    ensures SplitLines(front + ("\n" + rest), line) == [line + front] + SplitLines(rest, "")
    decreases |front|
  {
    var text := front + ("\n" + rest);
    if front == "" {
      assert text == "\n" + rest && text[1..] == rest && line + front == line;
    } else {
      assert front[0] in front && text[1..] == front[1..] + ("\n" + rest);
      SplitAtNewline(front[1..], rest, line + [front[0]]);
      assert (line + [front[0]]) + front[1..] == line + front;
    }
  }

  predicate AllOneLine(lines: seq<string>) {
    forall i :: 0 <= i < |lines| ==> OneLine(lines[i])
  }

  /** The lines come back, with an empty one behind the last newline. */
  lemma {:induction false} LinesRoundTrip(lines: seq<string>)
    requires AllOneLine(lines)
    ensures SplitLines(Text(lines), "") == lines + [""]
    decreases |lines|
  {
    hide OneLine;
    if lines != [] {
      LinesRoundTrip(lines[1..]);
      SplitAtNewline(lines[0], Text(lines[1..]), "");
      assert Text(lines) == lines[0] + ("\n" + Text(lines[1..]));
      assert "" + lines[0] == lines[0];
      assert lines == [lines[0]] + lines[1..];
    } else {
      assert lines == [] && lines + [""] == [""];
    }
  }

  lemma {:induction false} LoadAllAppend(a: seq<string>, b: seq<string>, c: Contents, env: Env)
    ensures LoadAll(a + b, c, env) == LoadAll(b, LoadAll(a, c, env), env)
    decreases |a|
  {
    hide LoadLine;
    if a == [] {
      assert a + b == b;
    } else {
      assert (a + b)[1..] == a[1..] + b;
      LoadAllAppend(a[1..], b, LoadLine(a[0], c, env), env);
    }
  }

  // ------------------------------------------------------------ what comes back

  /** The routes that a file brings back. */
  function Kept(rs: seq<Route>): seq<Route> {
    if rs == [] then [] else (if IsKeyword(rs[0].name) then [] else [Canonical(rs[0])]) + Kept(rs[1..])
  }

  function KeptConnections(ks: seq<Connection>): seq<Connection> {
    if ks == [] then [] else (if IsKeyword(ks[0].name) then [] else [ks[0]]) + KeptConnections(ks[1..])
  }

  /** What routes labelled as settings make of the settings. */
  function SettingsAfterRoutes(rs: seq<Route>, s: Settings): Settings {
    if rs == [] then s
    else SettingsAfterRoutes(rs[1..], if Lower(rs[0].name) == "settings" then ReadSettings(RouteFields(rs[0]), s) else s)
  }

  function SettingsAfterConnections(ks: seq<Connection>, s: Settings): Settings {
    if ks == [] then s
    else SettingsAfterConnections(ks[1..], if Lower(ks[0].name) == "settings" then ReadSettings(ConnectionFields(ks[0]), s) else s)
  }

  /** What the settings line and the variable lines say. */
  function SettingsFrom(line: string, s: Settings): Settings {
    if |Items(line)| >= 3 then ReadSettings(Items(line), s) else s
  }

  function VariablesFrom(lines: seq<string>): seq<Variable> {
    if lines == [] then []
    else
      var items := Items(lines[0]);
      (if |items| == 3 then [Variable(items[1], items[2])] else []) + VariablesFrom(lines[1..])
  }

  /** The lines of the head begin with their keywords; what follows is open. */
  predicate Begins(line: string, word: string) {
    |line| >= |word| && line[..|word|] == word && OneLine(line)
  }

  predicate ValidHead(head: Head) {
    && Begins(head.settingsLine, "Settings,")
    && forall i :: 0 <= i < |head.variableLines| ==> Begins(head.variableLines[i], "Variable,")
  }

  predicate StorableContents(c: Contents, env: Env) {
    && (forall i :: 0 <= i < |c.routes| ==> StorableRoute(c.routes[i], env))
    && (forall i :: 0 <= i < |c.connections| ==> StorableConnection(c.connections[i], env))
  }

  lemma {:induction false} RouteLinesLoad(rs: seq<Route>, c: Contents, env: Env)
    requires forall i :: 0 <= i < |rs| ==> StorableRoute(rs[i], env)
    ensures LoadAll(RouteLines(rs), c, env) ==
            c.(routes := c.routes + Kept(rs), settings := SettingsAfterRoutes(rs, c.settings))
    decreases |rs|
  {
    hide LoadLine, StorableRoute, Join, RouteFields, IsKeyword, Canonical, ReadSettings, Lower;
    if rs != [] {
      assert RouteLines(rs)[1..] == RouteLines(rs[1..]);
      RouteLineLoads(rs[0], c, env);
      RouteLinesLoad(rs[1..], LoadLine(RouteLines(rs)[0], c, env), env);
      KeptNext(rs, c.routes);
      SettingsAreKeyword(rs[0].name);
    } else {
      assert c.routes + [] == c.routes;
    }
  }

  lemma SettingsAreKeyword(name: string)
    ensures Lower(name) == "settings" ==> IsKeyword(name)
  {
  }

  lemma KeptNext(rs: seq<Route>, before: seq<Route>)
    requires rs != []
    ensures (if IsKeyword(rs[0].name) then before else before + [Canonical(rs[0])]) + Kept(rs[1..]) == before + Kept(rs)
  {
    hide IsKeyword, Canonical;
    assert before + ([Canonical(rs[0])] + Kept(rs[1..])) == (before + [Canonical(rs[0])]) + Kept(rs[1..]);
    assert [] + Kept(rs[1..]) == Kept(rs[1..]);
  }

  lemma KeptConnectionsNext(ks: seq<Connection>, before: seq<Connection>)
    requires ks != []
    ensures (if IsKeyword(ks[0].name) then before else before + [ks[0]]) + KeptConnections(ks[1..]) == before + KeptConnections(ks)
  {
    hide IsKeyword;
    assert before + ([ks[0]] + KeptConnections(ks[1..])) == (before + [ks[0]]) + KeptConnections(ks[1..]);
    assert [] + KeptConnections(ks[1..]) == KeptConnections(ks[1..]);
  }

  lemma {:induction false} ConnectionLinesLoad(ks: seq<Connection>, c: Contents, env: Env)
    requires forall i :: 0 <= i < |ks| ==> StorableConnection(ks[i], env)
    ensures LoadAll(ConnectionLines(ks), c, env) ==
            c.(connections := c.connections + KeptConnections(ks), settings := SettingsAfterConnections(ks, c.settings))
    decreases |ks|
  {
    hide LoadLine, StorableConnection, Join, ConnectionFields, IsKeyword, ReadSettings, Lower;
    if ks != [] {
      assert ConnectionLines(ks)[1..] == ConnectionLines(ks[1..]);
      ConnectionLineLoads(ks[0], c, env);
      ConnectionLinesLoad(ks[1..], LoadLine(ConnectionLines(ks)[0], c, env), env);
      KeptConnectionsNext(ks, c.connections);
      SettingsAreKeyword(ks[0].name);
    } else {
      assert c.connections + [] == c.connections;
    }
  }

  lemma SettingsLineLoads(line: string, c: Contents, env: Env)
    requires Begins(line, "Settings,")
    ensures LoadLine(line, c, env) == c.(settings := SettingsFrom(line, c.settings))
  {
    hide Items, LoadLine, ReadSettings, Claims;
    var rest := line[9..];
    assert line == "Settings," + rest;
    forall q ensures Claims(Items(line), q) <==> |Items(line)| >= 3 && q.SettingsRecord? { HeadLineClaims(rest, q); }
    if |Items(line)| >= 3 {
      OneRecordAtMost(line, SettingsRecord, SettingsRecord, c, env);
    } else {
      NoRecord(line, c, env);
    }
  }

  lemma VariableLineLoads(line: string, c: Contents, env: Env)
    requires Begins(line, "Variable,")
    ensures LoadLine(line, c, env) == c.(variables := c.variables + VariablesFrom([line]))
  {
    hide Items, LoadLine, Claims;
    var rest := line[9..];
    assert line == "Variable," + rest;
    forall q ensures Claims(Items(line), q) <==> |Items(line)| == 3 && q.VariableRecord? { HeadLineClaims(rest, q); }
    assert [line][1..] == [];
    if |Items(line)| == 3 {
      OneRecordAtMost(line, VariableRecord, VariableRecord, c, env);
    } else {
      NoRecord(line, c, env);
      assert c.variables + [] == c.variables;
    }
  }

  lemma VariablesNext(lines: seq<string>)
    ensures VariablesFrom(lines) == if lines == [] then [] else VariablesFrom([lines[0]]) + VariablesFrom(lines[1..])
  {
    hide Items;
    if lines != [] { assert [lines[0]][1..] == []; }
  }

  lemma {:induction false} VariableLinesLoad(lines: seq<string>, c: Contents, env: Env)
    requires forall i :: 0 <= i < |lines| ==> Begins(lines[i], "Variable,")
    ensures LoadAll(lines, c, env) == c.(variables := c.variables + VariablesFrom(lines))
    decreases |lines|
  {
    hide LoadLine, Items, Begins, VariablesFrom;
    VariablesNext(lines);
    if lines != [] {
      VariableLineLoads(lines[0], c, env);
      VariableLinesLoad(lines[1..], LoadLine(lines[0], c, env), env);
      assert c.variables + VariablesFrom([lines[0]]) + VariablesFrom(lines[1..]) == c.variables + VariablesFrom(lines);
    } else {
      assert c.variables + [] == c.variables;
    }
  }

  lemma SavedOneLine(c: Contents, head: Head, env: Env)
    requires StorableContents(c, env) && ValidHead(head)
    ensures AllOneLine(SavedLines(c, head))
  {
    hide Join, OneLine, Plain, StorableRoute, StorableConnection, RouteFields, AllPlain;
    MutePlain(c);
    JoinOneLine(MuteFields(c));
    forall i | 0 <= i < |c.routes|
      ensures OneLine(Join(RouteFields(c.routes[i])))
    {
      RouteFieldsPlain(c.routes[i], env);
      JoinOneLine(RouteFields(c.routes[i]));
    }
    forall i | 0 <= i < |c.connections|
      ensures OneLine(Join(ConnectionFields(c.connections[i])))
    {
      ConnectionPlain(c.connections[i], env);
      JoinOneLine(ConnectionFields(c.connections[i]));
    }
  }

  /** The sections one after the other. */
  lemma SectionsLoad(c: Contents, head: Head, env: Env)
    requires StorableContents(c, env) && ValidHead(head)
    ensures LoadAll(SavedLines(c, head) + [""], NOTHING, env) ==
            Contents(SettingsAfterConnections(c.connections, SettingsAfterRoutes(c.routes, SettingsFrom(head.settingsLine, NOTHING.settings))),
                     VariablesFrom(head.variableLines), c.muteIncoming, c.muteOutgoing, Kept(c.routes), KeptConnections(c.connections))
  {
    hide Join, LoadLine, MuteFields, Kept, KeptConnections, LoadAll, StorableRoute, StorableConnection, Begins, SettingsFrom,
         VariablesFrom, SettingsAfterRoutes, SettingsAfterConnections;
    var (first, mutes) := ([head.settingsLine], [Join(MuteFields(c))]);
    var (vl, rl, kl) := (head.variableLines, RouteLines(c.routes), ConnectionLines(c.connections));
    assert SavedLines(c, head) + [""] == first + (vl + (mutes + (rl + (kl + [""]))));
    LoadAllAppend(first, vl + (mutes + (rl + (kl + [""]))), NOTHING, env);
    LoadOne(head.settingsLine, NOTHING, env);
    SettingsLineLoads(head.settingsLine, NOTHING, env);
    var c0 := NOTHING.(settings := SettingsFrom(head.settingsLine, NOTHING.settings));
    LoadAllAppend(vl, mutes + (rl + (kl + [""])), c0, env);
    VariableLinesLoad(vl, c0, env);
    var c1 := c0.(variables := [] + VariablesFrom(vl));
    LoadAllAppend(mutes, rl + (kl + [""]), c1, env);
    LoadOne(mutes[0], c1, env);
    MuteLineLoads(c, c1, env);
    var c2 := c1.(muteIncoming := c.muteIncoming, muteOutgoing := c.muteOutgoing);
    LoadAllAppend(rl, kl + [""], c2, env);
    RouteLinesLoad(c.routes, c2, env);
    var c3 := c2.(routes := [] + Kept(c.routes), settings := SettingsAfterRoutes(c.routes, c2.settings));
    LoadAllAppend(kl, [""], c3, env);
    ConnectionLinesLoad(c.connections, c3, env);
    var c4 := c3.(connections := [] + KeptConnections(c.connections), settings := SettingsAfterConnections(c.connections, c3.settings));
    LoadOne("", c4, env);
    EmptyLine(c4, env);
    assert [] + Kept(c.routes) == Kept(c.routes) && [] + KeptConnections(c.connections) == KeptConnections(c.connections);
    assert [] + VariablesFrom(vl) == VariablesFrom(vl);
  }

  /** Loading a saved file gives the mutes; every route whose label is not a
      keyword, with its script on exactly when its text is not empty; every such
      connection, less those without a port or with the address of an earlier
      one; the variables of the lines with three fields; and the settings of the
      settings line, overwritten by routes and connections labelled as settings. */
  lemma FileRoundTrip(c: Contents, head: Head, env: Env)
    requires StorableContents(c, env) && ValidHead(head)
    ensures Load(Save(c, head), env) ==
            Contents(SettingsAfterConnections(c.connections, SettingsAfterRoutes(c.routes, SettingsFrom(head.settingsLine, NOTHING.settings))),
                     VariablesFrom(head.variableLines), c.muteIncoming, c.muteOutgoing,
                     Kept(c.routes), Validated(KeptConnections(c.connections)))
  {
    hide SavedLines, SplitLines, Text, LoadAll, Validated, Kept, KeptConnections, StorableContents, ValidHead, SettingsFrom,
         SettingsAfterRoutes, SettingsAfterConnections;
    SavedOneLine(c, head, env);
    LinesRoundTrip(SavedLines(c, head));
    SectionsLoad(c, head, env);
  }

  lemma LoadOne(line: string, c: Contents, env: Env)
    ensures LoadAll([line], c, env) == LoadLine(line, c, env)
  {
    hide LoadLine;
  }

  lemma EmptyLine(c: Contents, env: Env)
    ensures LoadLine("", c, env) == c
  {
    assert Items("") == [""];
    assert |Lower("")| == 0;
  }

  /** With distinct, usable addresses nothing is dropped. */
  lemma {:induction false} ValidatedAll(ks: seq<Connection>)
    requires forall i :: 0 <= i < |ks| ==> ks[i].port != 0
    requires forall i, j :: 0 <= i < j < |ks| ==> !SameAddress(ks[i], ks[j])
    ensures Validated(ks) == ks
    decreases |ks|
  {
    if ks != [] {
      var k := |ks| - 1;
      ValidatedAll(ks[..k]);
      assert ks == ks[..k] + [ks[k]];
    }
  }

  // ------------------------------------------------------- nothing gets lost

  function SettingsFields(s: Settings): seq<string> {
    ["Settings", s.sacnIp, s.artNetIp, Flag(s.levelChangesOnly), s.script, s.otpIp, Flag(0 in s.otpModules), Flag(1 in s.otpModules),
     Flag(2 in s.otpModules), Flag(3 in s.otpModules), Flag(4 in s.otpModules), Flag(5 in s.otpModules)]
  }

  function VariableFields(v: Variable): seq<string> { ["Variable", v.name, v.value] }

  /** The head of a configuration, variables without a name left out. */
  function HeadOf(c: Contents): Head { Head(Join(SettingsFields(c.settings)), VariableLines(c.variables)) }

  function VariableLines(vs: seq<Variable>): seq<string> {
    if vs == [] then [] else (if vs[0].name == "" then [] else [Join(VariableFields(vs[0]))]) + VariableLines(vs[1..])
  }

  predicate StorableSettings(s: Settings) {
    && Plain(s.sacnIp) && Plain(s.artNetIp) && Plain(s.script) && Plain(s.otpIp)
    && forall k :: k in s.otpModules ==> 0 <= k < MODULE_COUNT
  }

  lemma WordsArePlain()
    ensures Plain("Settings") && Plain("Variable")
  {
    hide Storable, Lower, NeedsQuotes, QuotedString;
    SettingsWord();
    VariableWord();
  }

  /** A line of fields that starts with an unquoted word. */
  lemma JoinBegins(word: string, fields: seq<string>)
    requires QuotedString(word) == word && fields != [] && AllPlain([word] + fields)
    ensures Begins(Join([word] + fields), word + ",")
  {
    hide QuotedString, Plain;
    var all := [word] + fields;
    assert all[1..] == fields;
    assert Join(all) == word + "," + Join(fields);
    JoinOneLine(all);
  }

  lemma SettingsFieldsPlain(s: Settings)
    requires StorableSettings(s)
    ensures AllPlain(SettingsFields(s))
    ensures IntOr0(Flag(s.levelChangesOnly)) != 0 <==> s.levelChangesOnly
    ensures forall k: int :: IntOr0(Flag(k in s.otpModules)) != 0 <==> k in s.otpModules
  {
    hide Plain, IntOr0, Flag;
    WordsArePlain();
    FlagReads(s.levelChangesOnly);
    FlagReads(false);
    FlagReads(true);
    forall k: int ensures Plain(Flag(k in s.otpModules)) && (IntOr0(Flag(k in s.otpModules)) != 0 <==> k in s.otpModules) {
      FlagReads(k in s.otpModules);
    }
  }

  lemma SettingsRoundTrip(s: Settings, before: Settings)
    requires StorableSettings(s)
    ensures Begins(Join(SettingsFields(s)), "Settings,") && SettingsFrom(Join(SettingsFields(s)), before) == s
  {
    hide Plain, Items, Join, IntOr0, Flag, AllPlain, StorableSettings, Begins, QuotedString;
    SettingsWord();
    SettingsFieldsPlain(s);
    var fields := SettingsFields(s);
    assert fields == ["Settings"] + fields[1..];
    JoinBegins("Settings", fields[1..]);
    assert "Settings" + "," == "Settings,";
    PlainLine(fields);
    SettingsModules(s, before);
  }

  lemma SettingsModules(s: Settings, before: Settings)
    requires StorableSettings(s)
    requires forall k: int :: IntOr0(Flag(k in s.otpModules)) != 0 <==> k in s.otpModules
    ensures ReadSettings(SettingsFields(s), before).otpModules == s.otpModules
  {
    hide IntOr0, Flag, Plain;
    var (fields, got) := (SettingsFields(s), ReadSettings(SettingsFields(s), before).otpModules);
    assert fields[6] == Flag(0 in s.otpModules) && fields[7] == Flag(1 in s.otpModules) && fields[8] == Flag(2 in s.otpModules);
    assert fields[9] == Flag(3 in s.otpModules) && fields[10] == Flag(4 in s.otpModules) && fields[11] == Flag(5 in s.otpModules);
    forall k | 0 <= k < MODULE_COUNT ensures k in got <==> k in s.otpModules {
      assert fields[k + 6] == Flag(k in s.otpModules);
    }
  }

  lemma VariableRoundTrip(v: Variable)
    requires v.name != "" && Plain(v.name) && Plain(v.value)
    ensures Begins(Join(VariableFields(v)), "Variable,") && Items(Join(VariableFields(v))) == VariableFields(v)
  {
    hide Plain, Items, Join, Begins, QuotedString;
    VariableWord();
    WordsArePlain();
    var fields := VariableFields(v);
    assert fields == ["Variable"] + fields[1..];
    JoinBegins("Variable", fields[1..]);
    assert "Variable" + "," == "Variable,";
    PlainLine(fields);
  }

  lemma {:induction false} VariablesRoundTrip(vs: seq<Variable>)
    requires forall i :: 0 <= i < |vs| ==> vs[i].name != "" && Plain(vs[i].name) && Plain(vs[i].value)
    ensures forall i :: 0 <= i < |VariableLines(vs)| ==> Begins(VariableLines(vs)[i], "Variable,")
    ensures VariablesFrom(VariableLines(vs)) == vs
    decreases |vs|
  {
    hide Plain, Items, Join, Begins;
    if vs != [] {
      VariablesRoundTrip(vs[1..]);
      VariableRoundTrip(vs[0]);
      assert VariableLines(vs) == [Join(VariableFields(vs[0]))] + VariableLines(vs[1..]);
      assert VariableLines(vs)[1..] == VariableLines(vs[1..]);
      assert vs == [vs[0]] + vs[1..];
    }
  }

  predicate NoKeyword(c: Contents) {
    && (forall i :: 0 <= i < |c.routes| ==> !IsKeyword(c.routes[i].name) && Canonical(c.routes[i]) == c.routes[i])
    && (forall i :: 0 <= i < |c.connections| ==> !IsKeyword(c.connections[i].name))
  }

  lemma {:induction false} NoKeywordsKept(rs: seq<Route>, ks: seq<Connection>, s: Settings)
    requires forall i :: 0 <= i < |rs| ==> !IsKeyword(rs[i].name) && Canonical(rs[i]) == rs[i]
    requires forall i :: 0 <= i < |ks| ==> !IsKeyword(ks[i].name)
    ensures Kept(rs) == rs && KeptConnections(ks) == ks
    ensures SettingsAfterRoutes(rs, s) == s && SettingsAfterConnections(ks, s) == s
    decreases |rs| + |ks|
  {
    hide IsKeyword, ReadSettings, Lower, Canonical, RouteFields, ConnectionFields;
    if rs != [] {
      SettingsAreKeyword(rs[0].name);
      NoKeywordsKept(rs[1..], ks, s);
      assert rs == [rs[0]] + rs[1..];
    } else if ks != [] {
      SettingsAreKeyword(ks[0].name);
      NoKeywordsKept(rs, ks[1..], s);
      assert ks == [ks[0]] + ks[1..];
    }
  }

  /** The configuration comes back unchanged when no label is a keyword, the
      connections have distinct addresses and ports, scripts are on exactly when
      they have text, and variables have names. */
  lemma FileRoundTripExact(c: Contents, env: Env)
    requires StorableContents(c, env) && StorableSettings(c.settings)
    requires forall i :: 0 <= i < |c.variables| ==> c.variables[i].name != "" && Plain(c.variables[i].name) && Plain(c.variables[i].value)
    requires NoKeyword(c) && forall i :: 0 <= i < |c.connections| ==> c.connections[i].port != 0
    requires forall i, j :: 0 <= i < j < |c.connections| ==> !SameAddress(c.connections[i], c.connections[j])
    ensures Load(Save(c, HeadOf(c)), env) == c
  {
    hide Load, Save, StorableContents, StorableSettings, IsKeyword, SameAddress, Canonical, Plain, Join, Begins, VariableLines, VariablesFrom,
         SettingsFrom, SettingsFields;
    SettingsRoundTrip(c.settings, NOTHING.settings);
    VariablesRoundTrip(c.variables);
    FileRoundTrip(c, HeadOf(c), env);
    NoKeywordsKept(c.routes, c.connections, c.settings);
    ValidatedAll(c.connections);
  }

  /** A route labelled as settings is lost, and its source address and port
      become the addresses of the network interfaces. */
  lemma SettingsLabelOverwrites(r: Route, c: Contents, env: Env)
    requires StorableRoute(r, env) && Lower(r.name) == "settings"
    ensures var loaded := LoadLine(Join(RouteFields(r)), c, env);
            && loaded.routes == c.routes
            && loaded.settings.sacnIp == r.srcIp && loaded.settings.artNetIp == Number(r.srcPort)
  {
    hide LoadLine, Join, StorableRoute, Number, IsKeyword;
    SettingsAreKeyword(r.name);
    RouteLineLoads(r, c, env);
  }
}

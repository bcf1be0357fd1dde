/** A configuration in memory, filled line by line and written out. */
module ConfigStore {
  import opened ConfigText
  import opened ConfigFile
  import opened ConfigRoundTrip
  import opened ConfigPrint
  import opened Decimal

  class Store {
    var settings: Settings
    var variables: seq<Variable>
    var muteIncoming: bool
    var muteOutgoing: bool
    var routes: seq<Route>
    var connections: seq<Connection>

    function Abstract(): Contents
      reads this
    {
      Contents(settings, variables, muteIncoming, muteOutgoing, routes, connections)
    }

    constructor ()
      ensures Abstract() == NOTHING
    {
      settings, variables := Settings("", "", false, "", "", {0}), [];
      muteIncoming, muteOutgoing, routes, connections := false, false, [], [];
    }

    method LoadSettingsLine(line: string)
      modifies this
      ensures Abstract() == LoadSettingsItems(Items(line), old(Abstract()))
    {
      hide Items, IntOr0, Lower;
      var items := GetItemsFromQuotedString(line);
      if |items| >= 3 && Lower(items[0]) == "settings" {
        settings := settings.(sacnIp := items[1], artNetIp := items[2]);
        if |items| > 3 {
          settings := settings.(levelChangesOnly := IntOr0(items[3]) != 0);
        }
        if |items| > 4 {
          settings := settings.(script := items[4]);
        }
        if |items| > 5 {
          settings := settings.(otpIp := items[5]);
        }
        if |items| > 6 {
          var modules: set<int> := {};
          for moduleIndex := 0 to MODULE_COUNT
            invariant modules == set k | 0 <= k < moduleIndex && ModuleOn(items, k)
          {
            if moduleIndex + 6 >= |items| {
              assert forall k :: moduleIndex <= k < MODULE_COUNT ==> !ModuleOn(items, k);
              assert modules == set k | 0 <= k < MODULE_COUNT && ModuleOn(items, k);
              break;
            }
            if IntOr0(items[moduleIndex + 6]) != 0 {
              modules := modules + {moduleIndex};
            }
          }
          settings := settings.(otpModules := modules);
        }
      }
    }

    method LoadVariableLine(line: string)
      modifies this
      ensures Abstract() == LoadVariableItems(Items(line), old(Abstract()))
    {
      var items := GetItemsFromQuotedString(line);
      if |items| == 3 && Lower(items[0]) == "variable" {
        variables := variables + [Variable(items[1], items[2])];
      }
    }

    method LoadRouteLine(line: string, env: Env)
      modifies this
      ensures Abstract() == LoadRouteItems(Items(line), old(Abstract()), env)
    {
      var items := GetItemsFromQuotedString(line);
      if |items| == 3 && Lower(items[0]) == "mute" {
        muteIncoming := IntOr0(items[1]) != 0;
        muteOutgoing := IntOr0(items[2]) != 0;
        return;
      }
      if IsKeyword(items[0]) {
        return;
      }
      if |items| > 10 {
        routes := routes + [ReadRoute(items, env)];
      }
    }

    method LoadConnectionLine(line: string, env: Env)
      modifies this
      ensures Abstract() == LoadConnectionItems(Items(line), old(Abstract()), env)
    {
      var items := GetItemsFromQuotedString(line);
      if IsKeyword(items[0]) {
        return;
      }
      if |items| == 5 {
        connections := connections + [ReadConnection(items, env)];
      }
    }

    /** Keeps the first connection of each address, and none without a port. */
    method Validate()
      modifies this
      ensures Abstract() == old(Abstract()).(connections := Validated(old(connections)))
    {
      var kept: seq<Connection> := [];
      for i := 0 to |connections|
        invariant Abstract() == old(Abstract()) && kept == Validated(connections[..i])
      {
        assert connections[..i + 1][..i] == connections[..i];
        if connections[i].port == 0 {
          continue;
        }
        var duplicate := false;
        for j := 0 to |kept|
          invariant duplicate <==> exists k :: 0 <= k < j && SameAddress(kept[k], connections[i])
        {
          if SameAddress(kept[j], connections[i]) {
            duplicate := true;
          }
        }
        if !duplicate {
          kept := kept + [connections[i]];
        }
      }
      assert connections[..|connections|] == connections;
      connections := kept;
    }

    method LoadLines(lines: seq<string>, env: Env)
      modifies this
      ensures var c := LoadAll(lines, old(Abstract()), env);
              Abstract() == c.(connections := Validated(c.connections))
    {
      hide LoadSettingsItems, LoadVariableItems, LoadRouteItems, LoadConnectionItems, Items, Validated;
      for i := 0 to |lines|
        invariant LoadAll(lines[i..], Abstract(), env) == LoadAll(lines, old(Abstract()), env)
      {
        assert lines[i..][0] == lines[i] && lines[i..][1..] == lines[i + 1..];
        LoadSettingsLine(lines[i]);
        LoadVariableLine(lines[i]);
        LoadRouteLine(lines[i], env);
        LoadConnectionLine(lines[i], env);
      }
      Validate();
    }

    /** `Save`. */
    method SaveSections() returns (stream: string)
      ensures stream == Save(Abstract(), PrintedHead(Abstract()))
    {
      hide Join, RouteFields, ConnectionFields, MuteFields, PrintedSettings, PrintedVariables;
      ghost var head := PrintedHead(Abstract());
      ghost var (first, middle) := ([head.settingsLine], [Join(MuteFields(Abstract()))] + RouteLines(routes));
      var settingsText := SaveSettings();
      var variablesText := SaveVariables();
      var routing := SaveRoutes();
      var more := SaveConnections();
      TextAppend(first, head.variableLines);
      TextAppend(first + head.variableLines, middle);
      TextAppend(first + head.variableLines + middle, ConnectionLines(connections));
      assert first + head.variableLines + middle + ConnectionLines(connections) == SavedLines(Abstract(), head);
      stream := settingsText + variablesText + routing + more;
    }

    method SaveSettings() returns (stream: string)
      ensures stream == Text([PrintedSettings(settings)])
    {
      hide QuotedString, Printed, Flag, Arg, Listed, ModuleFlags;
      stream := "Settings,%1,%2,%3,%4,%5";
      ghost var texts := SettingsTexts(settings);
      PrintedFive(stream, texts);
      stream := Arg(stream, QuotedString(settings.sacnIp));
      stream := Arg(stream, QuotedString(settings.artNetIp));
      stream := Arg(stream, Flag(settings.levelChangesOnly));
      stream := Arg(stream, QuotedString(settings.script));
      stream := Arg(stream, QuotedString(settings.otpIp));
      ghost var flags := ModuleFlags(settings);
      assert flags[0..] == flags;
      for moduleIndex := 0 to MODULE_COUNT
        invariant Listed(stream, flags[moduleIndex..]) == PrintedSettings(settings)
      {
        var moduleEnabled := moduleIndex in settings.otpModules;
        ModuleFlag(settings, moduleIndex);
        ListedNext(stream, flags[moduleIndex..]);
        assert flags[moduleIndex..][1..] == flags[moduleIndex + 1..];
        stream := stream + ("," + Flag(moduleEnabled));
      }
      assert flags[MODULE_COUNT..] == [];
      ListedNext(stream, []);
      TextOne(stream);
      stream := stream + "\n";
    }

    /** A variable without a name is skipped. */
    method SaveVariables() returns (stream: string)
      ensures stream == Text(PrintedVariables(variables))
    {
      hide QuotedString, PrintedVariable;
      stream := "";
      ghost var goal := Text(PrintedVariables(variables));
      assert variables[0..] == variables && "" + goal == goal;
      for i := 0 to |variables|
        invariant stream + Text(PrintedVariables(variables[i..])) == goal
      {
        ghost var rest := Text(PrintedVariables(variables[i + 1..]));
        assert variables[i..][0] == variables[i] && variables[i..][1..] == variables[i + 1..];
        if variables[i].name == "" {
          assert [] + PrintedVariables(variables[i + 1..]) == PrintedVariables(variables[i + 1..]);
          continue;
        }
        TextAppend([PrintedVariable(variables[i])], PrintedVariables(variables[i + 1..]));
        TextOne(PrintedVariable(variables[i]));
        assert stream + (PrintedVariable(variables[i]) + "\n" + rest) == stream + PrintedVariable(variables[i]) + "\n" + rest;
        stream := stream + PrintedVariable(variables[i]) + "\n";
      }
      assert variables[|variables|..] == [] && stream + "" == stream;
    }

    method SaveRoutes() returns (stream: string)
      ensures stream == Text([Join(MuteFields(Abstract()))] + RouteLines(routes))
    {
      hide Join, RouteFields, ConnectionFields, MuteFields;
      ghost var lines := [Join(MuteFields(Abstract()))] + RouteLines(routes);
      MuteLine(Abstract());
      stream := "Mute," + Flag(muteIncoming) + "," + Flag(muteOutgoing) + "\n";
      assert lines[..1] == [Join(MuteFields(Abstract()))];
      TextOne(lines[0]);
      for i := 0 to |routes|
        invariant stream == Text(lines[..i + 1])
      {
        TextAppend(lines[..i + 1], [lines[i + 1]]);
        TextOne(lines[i + 1]);
        assert lines[..i + 2] == lines[..i + 1] + [lines[i + 1]];
        stream := stream + Join(RouteFields(routes[i])) + "\n";
      }
      assert lines[..|routes| + 1] == lines;
    }

    method SaveConnections() returns (stream: string)
      ensures stream == Text(ConnectionLines(connections))
    {
      hide Join, RouteFields, MuteFields;
      ghost var lines := ConnectionLines(connections);
      stream := "";
      for i := 0 to |connections|
        invariant stream == Text(lines[..i])
      {
        var c := connections[i];
        TextAppend(lines[..i], [lines[i]]);
        TextOne(lines[i]);
        assert lines[..i + 1] == lines[..i] + [lines[i]];
        ConnectionLine(c);
        var line := QuotedString(c.name);
        line := line + "," + Flag(c.server);
        line := line + "," + Signed(c.frameMode);
        line := line + "," + QuotedString(c.ip);
        line := line + "," + Number(c.port);
        stream := stream + line + "\n";
      }
      assert lines[..|connections|] == lines;
    }
  }

  lemma {:induction false} TextAppend(a: seq<string>, b: seq<string>)
    ensures Text(a + b) == Text(a) + Text(b)
  {
    if a == [] {
      assert a + b == b;
    } else {
      assert (a + b)[1..] == a[1..] + b;
      TextAppend(a[1..], b);
    }
  }

  lemma TextOne(line: string)
    ensures Text([line]) == line + "\n"
  {
    assert Text([line]) == line + "\n" + "";
  }

  /** Numbers need no quoting, and the savers do not quote them. */
  lemma NumberUnquoted(n: int)
    ensures QuotedString(Signed(n)) == Signed(n) && (n >= 0 ==> QuotedString(Number(n)) == Number(n))
  {
    hide Number, QuotedString, Double, Escape;
    Unquoted(Number(if n < 0 then -n else n));
    Unquoted(Signed(n));
  }

  lemma MuteUnquoted()
    ensures QuotedString("Mute") == "Mute"
  {
    hide QuotedString, Double, Escape;
    Unquoted("Mute");
  }

  lemma MuteLine(c: Contents)
    ensures Join(MuteFields(c)) == "Mute," + Flag(c.muteIncoming) + "," + Flag(c.muteOutgoing)
  {
    hide QuotedString;
    MuteUnquoted();
    FlagIsShort(c.muteIncoming);
    FlagIsShort(c.muteOutgoing);
    JoinThree("Mute", Flag(c.muteIncoming), Flag(c.muteOutgoing));
  }

  lemma JoinThree(a: string, b: string, c: string)
    ensures Join([a, b, c]) == QuotedString(a) + "," + QuotedString(b) + "," + QuotedString(c)
  {
    hide QuotedString;
    assert [a, b, c][1..] == [b, c] && [b, c][1..] == [c];
    assert Join([c]) == QuotedString(c);
    assert Join([b, c]) == QuotedString(b) + ("," + QuotedString(c));
  }

  lemma ConnectionLine(c: Connection)
    ensures Join(ConnectionFields(c)) ==
            QuotedString(c.name) + "," + Flag(c.server) + "," + Signed(c.frameMode) + "," + QuotedString(c.ip) + "," + Number(c.port)
  {
    hide QuotedString, Number, Signed, Flag, Join;
    FlagIsShort(c.server);
    NumberUnquoted(c.frameMode);
    NumberUnquoted(c.port);
    JoinFive(c.name, Flag(c.server), Signed(c.frameMode), c.ip, Number(c.port));
  }

  lemma JoinFive(a: string, b: string, c: string, d: string, e: string)
    ensures Join([a, b, c, d, e]) ==
            QuotedString(a) + "," + QuotedString(b) + "," + QuotedString(c) + "," + QuotedString(d) + "," + QuotedString(e)
  {
    hide QuotedString;
    JoinThree(c, d, e);
    assert [a, b, c, d, e][1..] == [b, c, d, e] && [b, c, d, e][1..] == [c, d, e];
    assert Join([b, c, d, e]) == QuotedString(b) + ("," + Join([c, d, e]));
  }

  lemma ModuleFlag(s: Settings, k: nat)
    requires k < MODULE_COUNT
    ensures ModuleFlags(s)[k] == Flag(k in s.otpModules)
  {
  }

  lemma ListedNext(t: string, args: seq<string>)
    ensures Listed(t, args) == if args == [] then t else Listed(t + ("," + args[0]), args[1..])
  {
  }

  lemma PrintedFive(t: string, args: seq<string>)
    requires |args| == 5
    ensures Printed(t, args) == Arg(Arg(Arg(Arg(Arg(t, args[0]), args[1]), args[2]), args[3]), args[4])
  {
    hide Arg;
    var a1 := args[1..];
    var a2 := a1[1..];
    var a3 := a2[1..];
    var a4 := a3[1..];
    assert a4[1..] == [] && a4[0] == args[4] && a3[0] == args[3] && a2[0] == args[2] && a1[0] == args[1];
    var t2 := Arg(Arg(t, args[0]), args[1]);
    var t4 := Arg(Arg(t2, args[2]), args[3]);
    assert Printed(t4, a4) == Printed(Arg(t4, args[4]), []);
    assert Printed(t2, a2) == Printed(t4, a4);
  }

  /** Saving and loading through a store. */
  method SaveAndLoad(a: Store, env: Env) returns (b: Store)
    requires StorableContents(a.Abstract(), env) && NoReturn(a.Abstract())
    ensures fresh(b)
    ensures var head := PrintedHead(a.Abstract());
            var s := SettingsAfterRoutes(a.routes, SettingsFrom(head.settingsLine, NOTHING.settings));
            b.Abstract() ==
            Contents(SettingsAfterConnections(a.connections, s), VariablesFrom(head.variableLines), a.muteIncoming, a.muteOutgoing,
                     Kept(a.routes), Validated(KeptConnections(a.connections)))
  {
    var text := a.SaveSections();
    PrintedHeadIsValid(a.Abstract());
    FileRoundTrip(a.Abstract(), PrintedHead(a.Abstract()), env);
    b := new Store();
    b.LoadLines(SplitLines(text, ""), env);
  }
}

/** ConfigFile: the records of a configuration file, as the four loaders tell
    them apart line by line, and what comes back of the routes and connections
    that the savers write. */
module ConfigFile {
  import opened Basics
  import opened Decimal
  import opened ConfigText

  // -------------------------------------------------------------------- data

  /** A limit with the text that `QString::number` gives for its value. */
  datatype Transform = Off | On(text: string)

  datatype Route = Route(name: string, srcIp: string, srcPort: nat, srcPath: string, inMin: Transform, inMax: Transform,
                         dstIp: string, dstPort: nat, dstPath: string, outMin: Transform, outMax: Transform,
                         script: bool, scriptText: string, srcMulticast: string, srcProtocol: nat, dstProtocol: nat,
                         enable: bool, mute: bool, dstMulticast: string, notes: string)

  datatype Connection = Connection(name: string, server: bool, frameMode: int, ip: string, port: nat)

  /** Module types are numbered as in their enumeration. */
  datatype Settings = Settings(sacnIp: string, artNetIp: string, levelChangesOnly: bool, script: string, otpIp: string,
                               otpModules: set<int>)

  datatype Variable = Variable(name: string, value: string)

  datatype Contents = Contents(settings: Settings, variables: seq<Variable>, muteIncoming: bool, muteOutgoing: bool,
                               routes: seq<Route>, connections: seq<Connection>)

  const PROTOCOL_COUNT := 6
  const DEFAULT_PROTOCOL := 0
  const MODULE_COUNT := 6

  /** What the records depend on from elsewhere: whether `QString::toFloat` takes
      a text, how many frame modes a stream knows, and the number of the invalid
      one. */
  datatype Env = Env(isFloat: string -> bool, modeCount: nat, invalidMode: int)

  // -------------------------------------------------------------- field values

  /** `QString::toInt`. */
  function ParseInt(s: string): Option<int> {
    if s != "" && (s[0] == '-' || s[0] == '+') then
      (if s[1..] != "" && Digits(s[1..]) && Value(s[1..]) <= (if s[0] == '-' then 0x8000_0000 else 0x7fff_ffff) then
         Some(if s[0] == '-' then -(Value(s[1..]) as int) else Value(s[1..]))
       else None)
    else if s != "" && Digits(s) && Value(s) <= 0x7fff_ffff then Some(Value(s))
    else None
  }

  function IntOr0(s: string): int {
    if ParseInt(s).Some? then ParseInt(s).value else 0
  }

  /** `QString::toUShort`: 0 unless the number fits. */
  function ToUShort(s: string): nat {
    var n := IntOr0(s);
    if 0 <= n <= 0xffff then n else 0
  }

  function Sanitize(protocol: int): nat {
    if protocol < 0 || protocol >= PROTOCOL_COUNT then DEFAULT_PROTOCOL else protocol
  }

  /** A number with its sign. */
  function Signed(n: int): string { if n < 0 then "-" + Number(-n) else Number(n) }

  function Flag(b: bool): string { if b then "1" else "0" }

  function TransformText(t: Transform): string { if t.On? then t.text else "" }

  function ReadTransform(s: string, env: Env): Transform {
    if s != "" && env.isFloat(s) then On(s) else Off
  }

  function LowerChar(c: char): char { if 'A' <= c <= 'Z' then ((c as int) + 32) as char else c }

  function Lower(s: string): string { seq(|s|, i requires 0 <= i < |s| => LowerChar(s[i])) }

  predicate IsKeyword(s: string) {
    Lower(s) == "settings" || Lower(s) == "mute" || Lower(s) == "variable"
  }

  // ----------------------------------------------------------------- the savers

  function MuteFields(c: Contents): seq<string> {
    ["Mute", Flag(c.muteIncoming), Flag(c.muteOutgoing)]
  }

  function RouteFields(r: Route): seq<string> {
    [r.name, r.srcIp, Number(r.srcPort), r.srcPath, TransformText(r.inMin), TransformText(r.inMax),
     r.dstIp, Number(r.dstPort), r.dstPath, TransformText(r.outMin), TransformText(r.outMax),
     if r.script then r.scriptText else "", r.srcMulticast, Number(r.srcProtocol), Number(r.dstProtocol),
     Flag(r.enable), Flag(!r.mute), r.dstMulticast, r.notes]
  }

  function ConnectionFields(c: Connection): seq<string> {
    [c.name, Flag(c.server), Signed(c.frameMode), c.ip, Number(c.port)]
  }

  function Text(lines: seq<string>): string {
    if lines == [] then "" else lines[0] + "\n" + Text(lines[1..])
  }

  function RouteLines(rs: seq<Route>): seq<string> {
    seq(|rs|, i requires 0 <= i < |rs| => Join(RouteFields(rs[i])))
  }

  function ConnectionLines(ks: seq<Connection>): seq<string> {
    seq(|ks|, i requires 0 <= i < |ks| => Join(ConnectionFields(ks[i])))
  }

  /** The lines in front of the mutes, as they were written: a settings line and
      a line for each variable. */
  datatype Head = Head(settingsLine: string, variableLines: seq<string>)

  function SavedLines(c: Contents, head: Head): seq<string> {
    [head.settingsLine] + head.variableLines + [Join(MuteFields(c))] + RouteLines(c.routes) + ConnectionLines(c.connections)
  }

  function Save(c: Contents, head: Head): string { Text(SavedLines(c, head)) }

  // ---------------------------------------------------------------- the loaders

  function ReadRoute(items: seq<string>, env: Env): Route
    requires |items| > 10
  {
    var n := |items|;
    Route(items[0], items[1], ToUShort(items[2]), items[3], ReadTransform(items[4], env), ReadTransform(items[5], env),
          items[6], ToUShort(items[7]), items[8], ReadTransform(items[9], env), ReadTransform(items[10], env),
          n > 11 && items[11] != "", if n > 11 then items[11] else "", if n > 12 then items[12] else "",
          if n > 13 then Sanitize(IntOr0(items[13])) else DEFAULT_PROTOCOL,
          if n > 14 then Sanitize(IntOr0(items[14])) else DEFAULT_PROTOCOL,
          n > 15 ==> IntOr0(items[15]) != 0, n > 16 && IntOr0(items[16]) == 0,
          if n > 17 then items[17] else "", if n > 18 then items[18] else "")
  }

  function ReadConnection(items: seq<string>, env: Env): Connection
    requires |items| == 5
  {
    var mode := ParseInt(items[2]);
    Connection(items[0], IntOr0(items[1]) != 0,
               if mode.Some? && 0 <= mode.value < env.modeCount then mode.value else env.invalidMode,
               items[3], ToUShort(items[4]))
  }

  predicate ModuleOn(items: seq<string>, k: nat) { k + 6 < |items| && IntOr0(items[k + 6]) != 0 }

  /** Fields that a line does not have leave the settings as they were. */
  function ReadSettings(items: seq<string>, s: Settings): Settings
    requires |items| >= 3
  {
    var n := |items|;
    Settings(items[1], items[2], if n > 3 then IntOr0(items[3]) != 0 else s.levelChangesOnly,
             if n > 4 then items[4] else s.script, if n > 5 then items[5] else s.otpIp,
             if n > 6 then set k | 0 <= k < MODULE_COUNT && ModuleOn(items, k) else s.otpModules)
  }

  function LoadSettingsItems(items: seq<string>, c: Contents): Contents
    requires items != []
  {
    if |items| >= 3 && Lower(items[0]) == "settings" then c.(settings := ReadSettings(items, c.settings)) else c
  }

  function LoadVariableItems(items: seq<string>, c: Contents): Contents
    requires items != []
  {
    if |items| == 3 && Lower(items[0]) == "variable" then c.(variables := c.variables + [Variable(items[1], items[2])]) else c
  }

  function LoadRouteItems(items: seq<string>, c: Contents, env: Env): Contents
    requires items != []
  {
    if |items| == 3 && Lower(items[0]) == "mute" then
      c.(muteIncoming := IntOr0(items[1]) != 0, muteOutgoing := IntOr0(items[2]) != 0)
    else if IsKeyword(items[0]) || |items| <= 10 then c
    else c.(routes := c.routes + [ReadRoute(items, env)])
  }

  function LoadConnectionItems(items: seq<string>, c: Contents, env: Env): Contents
    requires items != []
  {
    if IsKeyword(items[0]) || |items| != 5 then c else c.(connections := c.connections + [ReadConnection(items, env)])
  }

  /** One line, offered to the four loaders in turn. */
  function LoadLine(line: string, c: Contents, env: Env): Contents {
    var items := Items(line);
    LoadConnectionItems(items, LoadRouteItems(items, LoadVariableItems(items, LoadSettingsItems(items, c)), env), env)
  }

  function LoadAll(lines: seq<string>, c: Contents, env: Env): Contents {
    if lines == [] then c else LoadAll(lines[1..], LoadLine(lines[0], c, env), env)
  }

  predicate SameAddress(a: Connection, b: Connection) { a.ip == b.ip && a.port == b.port }

  /** `Validate`: connections without a port, and those whose address came
      before, are dropped. */
  function Validated(cs: seq<Connection>): seq<Connection> {
    if cs == [] then []
    else
      var k := |cs| - 1;
      var kept := Validated(cs[..k]);
      if cs[k].port == 0 || exists i :: 0 <= i < |kept| && SameAddress(kept[i], cs[k]) then kept else kept + [cs[k]]
  }

  /** `SplitLines`: carriage returns are removed, then the text is cut at every
      newline. */
  function SplitLines(text: string, line: string): seq<string> {
    if text == "" then [line]
    else if text[0] == '\r' then SplitLines(text[1..], line)
    else if text[0] == '\n' then [line] + SplitLines(text[1..], "")
    else SplitLines(text[1..], line + [text[0]])
  }

  /** `Contents` as it is constructed: position modules are on. */
  const NOTHING := Contents(Settings("", "", false, "", "", {0}), [], false, false, [], [])

  function Load(text: string, env: Env): Contents {
    var c := LoadAll(SplitLines(text, ""), NOTHING, env);
    c.(connections := Validated(c.connections))
  }

  // ---------------------------------------------------------------- single lines

  /** A field that a line of the file can hold. */
  predicate Plain(s: string) { Storable(s) && '\r' !in s }

  predicate NumberText(s: string) {
    s != "" && forall i :: 0 <= i < |s| ==> Simple(s[i])
  }

  predicate StorableTransform(t: Transform, env: Env) {
    t.On? ==> NumberText(t.text) && env.isFloat(t.text)
  }

  predicate StorableRoute(r: Route, env: Env) {
    && Plain(r.name) && Plain(r.srcIp) && Plain(r.srcPath) && Plain(r.dstIp) && Plain(r.dstPath)
    && Plain(r.scriptText) && Plain(r.srcMulticast) && Plain(r.dstMulticast) && Plain(r.notes)
    && StorableTransform(r.inMin, env) && StorableTransform(r.inMax, env)
    && StorableTransform(r.outMin, env) && StorableTransform(r.outMax, env)
    && r.srcPort <= 0xffff && r.dstPort <= 0xffff && r.srcProtocol < PROTOCOL_COUNT && r.dstProtocol < PROTOCOL_COUNT
  }

  predicate StorableConnection(c: Connection, env: Env) {
    && Plain(c.name) && Plain(c.ip) && c.port <= 0xffff
    && (0 <= c.frameMode < env.modeCount || c.frameMode == env.invalidMode) && -0x7fff_ffff <= c.frameMode <= 0x7fff_ffff
  }

  /** Text of a script that is switched off is not written, and an empty script
      counts as switched off. */
  function Canonical(r: Route): Route {
    var text := if r.script then r.scriptText else "";
    r.(scriptText := text, script := text != "")
  }

  /** A text without quotes, commas, blanks and backslashes. */
  predicate Simple(c: char) { c in "0123456789.+-einfa" }

  lemma SimpleChar(c: char)
    requires Simple(c)
    ensures !IsSpace(c) && c != '\\' && c != '\r'
  {
  }

  lemma SimpleIsPlain(s: string)
    requires forall i :: 0 <= i < |s| ==> Simple(s[i])
    ensures Plain(s)
  {
    hide Simple, IsSpace;
    forall i | 0 <= i < |s| ensures !IsSpace(s[i]) && s[i] != '\\' && s[i] != '\r' { SimpleChar(s[i]); }
  }

  lemma NumbersArePlain(n: nat)
    ensures Plain(Number(n))
  {
    var s := Number(n);
    forall i | 0 <= i < |s|
      ensures s[i] in "0123456789.+-einfa"
    {
      assert IsDigit(s[i]);
    }
    SimpleIsPlain(s);
  }

  lemma NumberReads(n: nat)
    requires n <= 0x7fff_ffff
    ensures ParseInt(Number(n)) == Some(n) && IntOr0(Number(n)) == n
  {
    NumberRoundTrip(n);
    assert IsDigit(Number(n)[0]);
  }

  lemma SignedReads(n: int)
    requires -0x7fff_ffff <= n <= 0x7fff_ffff
    ensures Plain(Signed(n)) && ParseInt(Signed(n)) == Some(n)
  {
    hide Plain, Number, ParseInt;
    if n < 0 {
      NegativeReads(-n);
    } else {
      NumbersArePlain(n);
      NumberReads(n);
    }
  }

  lemma NegativeReads(n: int)
    requires 0 < n <= 0x7fff_ffff
    ensures Plain("-" + Number(n)) && ParseInt("-" + Number(n)) == Some(-n)
  {
    hide Plain, Number;
    var s := "-" + Number(n);
    NumberRoundTrip(n);
    assert s[1..] == Number(n);
    forall i | 0 <= i < |s| ensures Simple(s[i]) {
      if i > 0 { assert IsDigit(Number(n)[i - 1]); }
    }
    SimpleIsPlain(s);
  }

  lemma FlagReads(b: bool)
    ensures Plain(Flag(b)) && (IntOr0(Flag(b)) != 0 <==> b)
  {
    assert Number(0) == "0" && Number(1) == "1";
    NumbersArePlain(if b then 1 else 0);
    NumberReads(if b then 1 else 0);
  }

  lemma TransformReads(t: Transform, env: Env)
    requires StorableTransform(t, env)
    ensures Plain(TransformText(t)) && ReadTransform(TransformText(t), env) == t
  {
    SimpleIsPlain(TransformText(t));
  }

  predicate AllPlain(fields: seq<string>) {
    forall i :: 0 <= i < |fields| ==> Plain(fields[i])
  }

  lemma PlainLine(fields: seq<string>)
    requires fields != [] && AllPlain(fields)
    ensures Items(Join(fields)) == fields
  {
    hide Items, Join, Storable;
    LineRoundTripIff(fields);
  }

  lemma RouteFieldsPlain(r: Route, env: Env)
    requires StorableRoute(r, env)
    ensures AllPlain(RouteFields(r))
  {
    hide Plain, Number, ReadTransform, TransformText;
    NumbersArePlain(r.srcPort);
    NumbersArePlain(r.dstPort);
    NumbersArePlain(r.srcProtocol);
    NumbersArePlain(r.dstProtocol);
    FlagReads(r.enable);
    FlagReads(!r.mute);
    TransformReads(r.inMin, env);
    TransformReads(r.inMax, env);
    TransformReads(r.outMin, env);
    TransformReads(r.outMax, env);
    SimpleIsPlain("");
  }

  lemma RouteReads(r: Route, env: Env)
    requires StorableRoute(r, env)
    ensures ReadRoute(RouteFields(r), env) == Canonical(r)
  {
    hide Plain, Number, ReadTransform, TransformText, ParseInt, IntOr0, Flag;
    NumberReads(r.srcPort);
    NumberReads(r.dstPort);
    NumberReads(r.srcProtocol);
    NumberReads(r.dstProtocol);
    FlagReads(r.enable);
    FlagReads(!r.mute);
    TransformReads(r.inMin, env);
    TransformReads(r.inMax, env);
    TransformReads(r.outMin, env);
    TransformReads(r.outMax, env);
  }

  /** The kinds of record that a loader takes a line for. */
  datatype Record = SettingsRecord | VariableRecord | MuteRecord | RouteRecord | ConnectionRecord

  predicate Claims(items: seq<string>, r: Record) {
    items != [] &&
    match r
    case SettingsRecord => |items| >= 3 && Lower(items[0]) == "settings"
    case VariableRecord => |items| == 3 && Lower(items[0]) == "variable"
    case MuteRecord => |items| == 3 && Lower(items[0]) == "mute"
    case RouteRecord => |items| > 10 && !IsKeyword(items[0])
    case ConnectionRecord => |items| == 5 && !IsKeyword(items[0])
  }

  /** Every line is one record at most, and changes only what that record is
      about; a line that is none changes nothing. */
  lemma OneRecordAtMost(line: string, r: Record, q: Record, c: Contents, env: Env)
    requires Claims(Items(line), r)
    ensures Claims(Items(line), q) ==> q == r
    ensures var items := Items(line);
            LoadLine(line, c, env) ==
            match r
            case SettingsRecord => c.(settings := ReadSettings(items, c.settings))
            case VariableRecord => c.(variables := c.variables + [Variable(items[1], items[2])])
            case MuteRecord => c.(muteIncoming := IntOr0(items[1]) != 0, muteOutgoing := IntOr0(items[2]) != 0)
            case RouteRecord => c.(routes := c.routes + [ReadRoute(items, env)])
            case ConnectionRecord => c.(connections := c.connections + [ReadConnection(items, env)])
  {
    hide Items, ReadRoute, ReadConnection, ReadSettings, IntOr0;
  }

  lemma NoRecord(line: string, c: Contents, env: Env)
    requires forall r :: !Claims(Items(line), r)
    ensures LoadLine(line, c, env) == c
  {
    hide Items, ReadRoute, ReadConnection, ReadSettings, IntOr0;
    var items := Items(line);
    assert !Claims(items, SettingsRecord) && !Claims(items, VariableRecord) && !Claims(items, MuteRecord);
    assert !Claims(items, RouteRecord) && !Claims(items, ConnectionRecord);
  }

  /** What a route line is taken for: with a label that is no keyword, the route;
      labelled as settings, the settings, which it overwrites; and nothing when
      it is labelled as a mute or a variable. */
  lemma RouteLineClaims(r: Route, q: Record, env: Env)
    requires StorableRoute(r, env)
    ensures Items(Join(RouteFields(r))) == RouteFields(r)
    ensures Claims(RouteFields(r), q) <==> if IsKeyword(r.name) then Lower(r.name) == "settings" && q.SettingsRecord? else q.RouteRecord?
  {
    hide Items, Join, AllPlain, StorableRoute, Number, TransformText;
    RouteFieldsPlain(r, env);
    PlainLine(RouteFields(r));
  }

  lemma ConnectionLineClaims(k: Connection, q: Record, env: Env)
    requires StorableConnection(k, env)
    ensures Items(Join(ConnectionFields(k))) == ConnectionFields(k)
    ensures Claims(ConnectionFields(k), q) <==>
            if IsKeyword(k.name) then Lower(k.name) == "settings" && q.SettingsRecord? else q.ConnectionRecord?
  {
    hide Items, Join, AllPlain, StorableConnection, Number, Signed;
    ConnectionPlain(k, env);
    PlainLine(ConnectionFields(k));
  }

  lemma MuteLineClaims(c: Contents, q: Record)
    ensures Items(Join(MuteFields(c))) == MuteFields(c)
    ensures Claims(MuteFields(c), q) <==> q.MuteRecord?
  {
    hide Items, Join, AllPlain, Flag;
    MutePlain(c);
    PlainLine(MuteFields(c));
    assert Lower("Mute") == "mute";
  }

  /** A line that begins with a word and a comma has the word as its first item. */
  lemma FirstItem(word: string, rest: string)
    requires !NeedsQuotes(word) && Storable(word) && QuotedString(word) == word
    ensures Items(word + ("," + rest)) == [word] + Split(rest, "", false)
  {
    hide Split, Item, Storable, QuotedString, NeedsQuotes;
    ScanField(word, "," + rest);
    SplitNext("," + rest, word, false);
    assert ("," + rest)[1..] == rest;
    FieldRoundTripIff(word);
  }

  lemma SettingsWord()
    ensures QuotedString("Settings") == "Settings" && Storable("Settings") && !NeedsQuotes("Settings") && Lower("Settings") == "settings"
  {
    hide Double, Escape, QuotedString;
    Unquoted("Settings");
  }

  lemma VariableWord()
    ensures QuotedString("Variable") == "Variable" && Storable("Variable") && !NeedsQuotes("Variable") && Lower("Variable") == "variable"
  {
    hide Double, Escape, QuotedString;
    Unquoted("Variable");
  }

  /** Nothing to quote and no line to break. */
  lemma {:induction false} Unquoted(s: string)
    requires '"' !in s && ',' !in s && '\n' !in s
    ensures QuotedString(s) == s && Double(s) == s && Escape(s) == s && !NeedsQuotes(s)
  {
    if s != "" {
      assert s[0] in s && forall c :: c in s[1..] ==> c in s;
      Unquoted(s[1..]);
    }
  }

  /** A settings line is never anything else, whatever follows the keyword; it is
      taken when it has three items. A variable line has to have three. */
  lemma HeadLineClaims(rest: string, q: Record)
    ensures var items := Items("Settings," + rest); Claims(items, q) <==> |items| >= 3 && q.SettingsRecord?
    ensures var items := Items("Variable," + rest); Claims(items, q) <==> |items| == 3 && q.VariableRecord?
  {
    hide Items, QuotedString, Storable, NeedsQuotes;
    SettingsWord();
    VariableWord();
    FirstItem("Settings", rest);
    FirstItem("Variable", rest);
    assert "Settings," + rest == "Settings" + ("," + rest) && "Variable," + rest == "Variable" + ("," + rest);
  }

  /** What a saved route line does when it is loaded. */
  lemma RouteLineLoads(r: Route, c: Contents, env: Env)
    requires StorableRoute(r, env)
    ensures LoadLine(Join(RouteFields(r)), c, env) ==
            if !IsKeyword(r.name) then c.(routes := c.routes + [Canonical(r)])
            else if Lower(r.name) == "settings" then c.(settings := ReadSettings(RouteFields(r), c.settings))
            else c
  {
    hide Items, Join, RouteFields, ReadRoute, Canonical, StorableRoute, IsKeyword, LoadLine, ReadSettings, Claims;
    var line := Join(RouteFields(r));
    forall q ensures Claims(RouteFields(r), q) <==> if IsKeyword(r.name) then Lower(r.name) == "settings" && q.SettingsRecord? else q.RouteRecord? {
      RouteLineClaims(r, q, env);
    }
    RouteLineClaims(r, RouteRecord, env);
    RouteReads(r, env);
    if !IsKeyword(r.name) {
      OneRecordAtMost(line, RouteRecord, RouteRecord, c, env);
    } else if Lower(r.name) == "settings" {
      OneRecordAtMost(line, SettingsRecord, SettingsRecord, c, env);
    } else {
      NoRecord(line, c, env);
    }
  }

  lemma ConnectionReads(k: Connection, env: Env)
    requires StorableConnection(k, env)
    ensures ReadConnection(ConnectionFields(k), env) == k
  {
    hide Plain, Number, Signed, ParseInt, IntOr0, Flag;
    NumberReads(k.port);
    SignedReads(k.frameMode);
    FlagReads(k.server);
  }

  lemma ConnectionLineLoads(k: Connection, c: Contents, env: Env)
    requires StorableConnection(k, env)
    ensures LoadLine(Join(ConnectionFields(k)), c, env) ==
            if !IsKeyword(k.name) then c.(connections := c.connections + [k])
            else if Lower(k.name) == "settings" then c.(settings := ReadSettings(ConnectionFields(k), c.settings))
            else c
  {
    hide Items, Join, ConnectionFields, ReadConnection, StorableConnection, IsKeyword, LoadLine, ReadSettings, Claims;
    var line := Join(ConnectionFields(k));
    forall q ensures Claims(ConnectionFields(k), q) <==> if IsKeyword(k.name) then Lower(k.name) == "settings" && q.SettingsRecord? else q.ConnectionRecord? {
      ConnectionLineClaims(k, q, env);
    }
    ConnectionLineClaims(k, ConnectionRecord, env);
    ConnectionReads(k, env);
    if !IsKeyword(k.name) {
      OneRecordAtMost(line, ConnectionRecord, ConnectionRecord, c, env);
    } else if Lower(k.name) == "settings" {
      OneRecordAtMost(line, SettingsRecord, SettingsRecord, c, env);
    } else {
      NoRecord(line, c, env);
    }
  }

  lemma MuteLineLoads(s: Contents, c: Contents, env: Env)
    ensures LoadLine(Join(MuteFields(s)), c, env) == c.(muteIncoming := s.muteIncoming, muteOutgoing := s.muteOutgoing)
  {
    hide Items, Join, IntOr0, Flag, LoadLine, Claims;
    MuteLineClaims(s, MuteRecord);
    OneRecordAtMost(Join(MuteFields(s)), MuteRecord, MuteRecord, c, env);
    FlagReads(s.muteIncoming);
    FlagReads(s.muteOutgoing);
  }

  lemma MuteIsPlain()
    ensures Plain("Mute")
  {
  }

  lemma MutePlain(c: Contents)
    ensures AllPlain(MuteFields(c))
  {
    hide Plain;
    FlagReads(c.muteIncoming);
    FlagReads(c.muteOutgoing);
    MuteIsPlain();
  }

  lemma ConnectionPlain(k: Connection, env: Env)
    requires StorableConnection(k, env)
    ensures AllPlain(ConnectionFields(k))
  {
    hide Plain;
    SignedReads(k.frameMode);
    NumbersArePlain(k.port);
    FlagReads(k.server);
  }
}

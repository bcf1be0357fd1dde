/** The routing tables: routes indexed by port, then ip, then path, and the
    lookup of the routes that a received packet takes. */
module RouteIndex {

  datatype Protocol = OSC | PSN | SACN | ArtNet | MIDI | OTP | Invalid

  /** `ValidPort`: whether a port, universe or system number can be used. */
  predicate ValidPort(protocol: Protocol, port: nat) {
    match protocol
    case ArtNet => true
    case MIDI => true
    case OTP => port <= 200
    case _ => port != 0
  }

  /** A route as configured; `srcIp` is the address as a number, 0 for any. */
  datatype Route = Route(enable: bool, routeLabel: string, srcProtocol: Protocol, srcPort: nat, srcIp: int, srcPath: string,
                         dstProtocol: Protocol, dstPort: nat, dst: Target)

  /** What else a destination carries. */
  datatype Target = Target(ip: string, path: string, srcItem: int, dstItem: int)

  datatype RouteDst = RouteDst(routeLabel: string, protocol: Protocol, port: nat, target: Target)

  /** An unusable destination port stands for that of the source. */
  function DstOf(r: Route): RouteDst {
    RouteDst(r.routeLabel, r.dstProtocol, if ValidPort(r.dstProtocol, r.dstPort) then r.dstPort else r.srcPort, r.dst)
  }

  // ---------------------------------------------------------------- the tables

  type ByPath = map<string, seq<RouteDst>>
  datatype ByIp = ByIp(paths: ByPath, wildcards: ByPath)
  type Table = map<nat, map<int, ByIp>>

  datatype Tables = Tables(main: Table, sacn: Table, artNet: Table, midi: Table, otp: Table) {
    /** The table that packets of a protocol are looked up in. */
    function For(p: Protocol): Table {
      match p
      case SACN => sacn
      case ArtNet => artNet
      case MIDI => midi
      case OTP => otp
      case _ => main
    }

    function With(p: Protocol, table: Table): Tables {
      match p
      case SACN => this.(sacn := table)
      case ArtNet => this.(artNet := table)
      case MIDI => this.(midi := table)
      case OTP => this.(otp := table)
      case _ => this.(main := table)
    }
  }

  predicate SameTable(p: Protocol, q: Protocol) {
    p == q || (Shared(p) && Shared(q))
  }

  /** The protocols without a table of their own. */
  predicate Shared(p: Protocol) {
    p.OSC? || p.PSN? || p.Invalid?
  }

  function PathsAt(m: ByPath, path: string): seq<RouteDst> {
    if path in m then m[path] else []
  }

  function AddToPath(m: ByPath, path: string, d: RouteDst): ByPath {
    m[path := PathsAt(m, path) + [d]]
  }

  function AddToIp(b: ByIp, path: string, d: RouteDst): ByIp {
    if '*' in path then b.(wildcards := AddToPath(b.wildcards, path, d)) else b.(paths := AddToPath(b.paths, path, d))
  }

  function AddToTable(t: Table, r: Route): Table {
    var byIp := if r.srcPort in t then t[r.srcPort] else map[];
    var b := if r.srcIp in byIp then byIp[r.srcIp] else ByIp(map[], map[]);
    t[r.srcPort := byIp[r.srcIp := AddToIp(b, r.srcPath, DstOf(r))]]
  }

  function AddRoute(ts: Tables, r: Route): Tables {
    if !r.enable then ts else ts.With(r.srcProtocol, AddToTable(ts.For(r.srcProtocol), r))
  }

  const EmptyTables := Tables(map[], map[], map[], map[], map[])

  function BuildAll(routes: seq<Route>): Tables
    decreases |routes|
  {
    if routes == [] then EmptyTables
    else AddRoute(BuildAll(routes[..|routes| - 1]), routes[|routes| - 1])
  }

  // ------------------------------------------------- the linear scan to agree with

  /** A received packet. `path` is the OSC path, empty if there is none. */
  datatype Packet = Packet(protocol: Protocol, port: nat, ip: int, isOSC: bool, path: string)

  /** Wildcard matching is a parameter: (pattern, path). */
  type Matcher = (string, string) -> bool

  predicate PathMatches(r: Route, q: Packet, wild: Matcher) {
    r.srcPath == "" ||
    (q.isOSC && q.path != "" && if '*' in r.srcPath then wild(r.srcPath, q.path) else r.srcPath == q.path)
  }

  predicate Matches(r: Route, q: Packet, wild: Matcher) {
    && r.enable
    && SameTable(r.srcProtocol, q.protocol)
    && r.srcPort == q.port
    && (r.srcIp == q.ip || r.srcIp == 0)
    && PathMatches(r, q, wild)
  }

  /** The destinations of the matching routes, one for each. */
  function Scan(routes: seq<Route>, q: Packet, wild: Matcher): multiset<RouteDst>
    decreases |routes|
  {
    if routes == [] then multiset{}
    else
      var k := |routes| - 1;
      Scan(routes[..k], q, wild) + if Matches(routes[k], q, wild) then multiset{DstOf(routes[k])} else multiset{}
  }

  // -------------------------------------------------------- what a lookup finds

  /** All destinations of the wildcard paths in `keys` that match. */
  ghost function Wild(m: ByPath, keys: set<string>, path: string, wild: Matcher): multiset<RouteDst>
    requires keys <= m.Keys
  {
    if keys == {} then multiset{}
    else
      var k :| k in keys;
      Wild(m, keys - {k}, path, wild) + if wild(k, path) then multiset(m[k]) else multiset{}
  }

  ghost function FoundIn(b: ByIp, q: Packet, wild: Matcher): multiset<RouteDst> {
    (if q.isOSC && q.path != "" then
       multiset(PathsAt(b.paths, q.path)) + Wild(b.wildcards, b.wildcards.Keys, q.path, wild)
     else multiset{}) +
    multiset(PathsAt(b.paths, ""))
  }

  ghost function FoundAt(byIp: map<int, ByIp>, ip: int, q: Packet, wild: Matcher): multiset<RouteDst> {
    if ip in byIp then FoundIn(byIp[ip], q, wild) else multiset{}
  }

  ghost function Found(t: Table, q: Packet, wild: Matcher): multiset<RouteDst> {
    if q.port !in t then multiset{}
    else FoundAt(t[q.port], q.ip, q, wild) + if q.ip != 0 then FoundAt(t[q.port], 0, q, wild) else multiset{}
  }

  // ----------------------------------------------------- index and scan agree

  /** The order in which the keys are taken does not matter. */
  lemma {:induction false} WildRemove(m: ByPath, keys: set<string>, x: string, path: string, wild: Matcher)
    requires keys <= m.Keys && x in keys
    ensures Wild(m, keys, path, wild) ==
            Wild(m, keys - {x}, path, wild) + if wild(x, path) then multiset(m[x]) else multiset{}
    decreases |keys|
  {
    var k :| k in keys && Wild(m, keys, path, wild) ==
                          Wild(m, keys - {k}, path, wild) + if wild(k, path) then multiset(m[k]) else multiset{};
    if k != x {
      WildRemove(m, keys - {k}, x, path, wild);
      WildRemove(m, keys - {x}, k, path, wild);
      assert keys - {k} - {x} == keys - {x} - {k};
    }
  }

  lemma {:induction false} WildSame(m: ByPath, m': ByPath, keys: set<string>, path: string, wild: Matcher)
    requires keys <= m.Keys && keys <= m'.Keys && forall k :: k in keys ==> m[k] == m'[k]
    ensures Wild(m, keys, path, wild) == Wild(m', keys, path, wild)
    decreases |keys|
  {
    if keys != {} {
      var k :| k in keys && Wild(m, keys, path, wild) ==
                            Wild(m, keys - {k}, path, wild) + if wild(k, path) then multiset(m[k]) else multiset{};
      WildSame(m, m', keys - {k}, path, wild);
      WildRemove(m', keys, k, path, wild);
    }
  }

  lemma WildAdd(m: ByPath, x: string, d: RouteDst, path: string, wild: Matcher)
    ensures var m' := AddToPath(m, x, d);
            Wild(m', m'.Keys, path, wild) == Wild(m, m.Keys, path, wild) + if wild(x, path) then multiset{d} else multiset{}
  {
    hide Wild;
    var m' := AddToPath(m, x, d);
    WildRemove(m', m'.Keys, x, path, wild);
    var rest := m'.Keys - {x};
    assert rest == m.Keys - {x};
    WildSame(m, m', rest, path, wild);
    if x in m {
      WildRemove(m, m.Keys, x, path, wild);
    } else {
      assert m.Keys == rest;
    }
    assert multiset(m'[x]) == multiset(PathsAt(m, x)) + multiset{d};
  }

  lemma AddedIn(b: ByIp, r: Route, q: Packet, wild: Matcher)
    ensures FoundIn(AddToIp(b, r.srcPath, DstOf(r)), q, wild) ==
            FoundIn(b, q, wild) + if PathMatches(r, q, wild) then multiset{DstOf(r)} else multiset{}
  {
    hide DstOf, Wild, AddToPath, PathsAt;
    var d := DstOf(r);
    WildAdd(b.wildcards, r.srcPath, d, q.path, wild);
    PathAdd(b.paths, r.srcPath, d, q.path);
    PathAdd(b.paths, r.srcPath, d, "");
    assert !('*' in "");
  }

  lemma PathAdd(m: ByPath, x: string, d: RouteDst, path: string)
    ensures multiset(PathsAt(AddToPath(m, x, d), path)) == multiset(PathsAt(m, path)) + if x == path then multiset{d} else multiset{}
  {
    assert multiset(PathsAt(m, x) + [d]) == multiset(PathsAt(m, x)) + multiset{d};
  }

  lemma AddedAt(byIp: map<int, ByIp>, r: Route, ip: int, q: Packet, wild: Matcher)
    ensures var b := if r.srcIp in byIp then byIp[r.srcIp] else ByIp(map[], map[]);
            FoundAt(byIp[r.srcIp := AddToIp(b, r.srcPath, DstOf(r))], ip, q, wild) ==
            FoundAt(byIp, ip, q, wild) + if r.srcIp == ip && PathMatches(r, q, wild) then multiset{DstOf(r)} else multiset{}
  {
    hide FoundIn, PathMatches, DstOf, AddToIp;
    var b := if r.srcIp in byIp then byIp[r.srcIp] else ByIp(map[], map[]);
    AddedIn(b, r, q, wild);
    NothingIn(q, wild);
  }

  lemma AddedTo(t: Table, r: Route, q: Packet, wild: Matcher)
    ensures Found(AddToTable(t, r), q, wild) ==
            Found(t, q, wild) +
            if r.srcPort == q.port && (r.srcIp == q.ip || r.srcIp == 0) && PathMatches(r, q, wild) then multiset{DstOf(r)} else multiset{}
  {
    hide FoundAt, PathMatches, DstOf, AddToIp;
    var byIp := if r.srcPort in t then t[r.srcPort] else map[];
    AddedAt(byIp, r, q.ip, q, wild);
    AddedAt(byIp, r, 0, q, wild);
    NothingAt(q.ip, q, wild);
    NothingAt(0, q, wild);
  }

  lemma NothingAt(ip: int, q: Packet, wild: Matcher)
    ensures FoundAt(map[], ip, q, wild) == multiset{}
  {
  }

  lemma NothingIn(q: Packet, wild: Matcher)
    ensures FoundIn(ByIp(map[], map[]), q, wild) == multiset{}
  {
  }

  lemma TableOfProtocol(ts: Tables, p: Protocol, q: Protocol, table: Table)
    ensures SameTable(p, q) ==> ts.For(p) == ts.For(q)
    ensures ts.With(p, table).For(q) == if SameTable(p, q) then table else ts.For(q)
  {
    match p {
      case SACN =>
      case ArtNet =>
      case MIDI =>
      case OTP =>
      case _ =>
    }
  }

  lemma TableAfter(ts: Tables, r: Route, p: Protocol)
    ensures AddRoute(ts, r).For(p) == if r.enable && SameTable(r.srcProtocol, p) then AddToTable(ts.For(p), r) else ts.For(p)
  {
    hide AddToTable, Tables.For, Tables.With, SameTable;
    TableOfProtocol(ts, r.srcProtocol, p, AddToTable(ts.For(r.srcProtocol), r));
  }

  lemma NoTables(q: Packet, wild: Matcher)
    ensures Found(EmptyTables.For(q.protocol), q, wild) == multiset{}
  {
  }

  /** For every list of routes and every packet, the index finds the destination
      of each enabled matching route exactly once and nothing else. */
  lemma {:induction false} IndexAgreesWithScan(routes: seq<Route>, q: Packet, wild: Matcher)
    ensures Found(BuildAll(routes).For(q.protocol), q, wild) == Scan(routes, q, wild)
    decreases |routes|
  {
    hide Found, DstOf, PathMatches, AddToTable, AddRoute, SameTable, Tables.For;
    if routes == [] {
      NoTables(q, wild);
    } else {
      var k := |routes| - 1;
      IndexAgreesWithScan(routes[..k], q, wild);
      TableAfter(BuildAll(routes[..k]), routes[k], q.protocol);
      AddedTo(BuildAll(routes[..k]).For(q.protocol), routes[k], q, wild);
    }
  }

  // ------------------------------------------------- what a matching route gives

  /** The route takes the packet. OSC, PSN and unknown protocols are received
      alike; address 0 is any address and no path any path. */
  predicate Takes(r: Route, q: Packet, wild: Matcher) {
    && r.enable
    && (r.srcProtocol == q.protocol || (r.srcProtocol in {OSC, PSN, Invalid} && q.protocol in {OSC, PSN, Invalid}))
    && r.srcPort == q.port
    && r.srcIp in {0, q.ip}
    && (r.srcPath == "" || (q.isOSC && q.path != "" && (if '*' in r.srcPath then wild(r.srcPath, q.path) else q.path == r.srcPath)))
  }

  /** A port that can be sent to: any universe of Art-Net and any MIDI port,
      OTP systems up to 200, and else any number but 0. */
  predicate Usable(protocol: Protocol, port: nat) {
    (protocol in {OSC, PSN, SACN, Invalid} ==> port > 0) && (protocol == OTP ==> port < 201)
  }

  /** `d` is where the route leads: to its own destination, and to the port of
      its source when that of the destination cannot be used. */
  predicate LeadsTo(r: Route, d: RouteDst) {
    && d.routeLabel == r.routeLabel && d.protocol == r.dstProtocol && d.target == r.dst
    && (Usable(r.dstProtocol, r.dstPort) ==> d.port == r.dstPort)
    && (!Usable(r.dstProtocol, r.dstPort) ==> d.port == r.srcPort)
  }

  /** The places in the list of the routes that take the packet to `d`. */
  function Takers(routes: seq<Route>, q: Packet, wild: Matcher, d: RouteDst): set<int> {
    set i | 0 <= i < |routes| && TakesTo(routes[i], q, wild, d)
  }

  predicate TakesTo(r: Route, q: Packet, wild: Matcher, d: RouteDst) { Takes(r, q, wild) && LeadsTo(r, d) }

  lemma TakesToIs(r: Route, q: Packet, wild: Matcher, d: RouteDst)
    ensures TakesTo(r, q, wild, d) <==> Matches(r, q, wild) && d == DstOf(r)
  {
  }

  /** A destination is found once for every route that takes the packet there. */
  lemma {:induction false} ScanCounts(routes: seq<Route>, q: Packet, wild: Matcher, d: RouteDst)
    ensures Scan(routes, q, wild)[d] == |Takers(routes, q, wild, d)|
    decreases |routes|
  {
    hide Matches, DstOf, TakesTo;
    if routes != [] {
      var k := |routes| - 1;
      ScanCounts(routes[..k], q, wild, d);
      TakesToIs(routes[k], q, wild, d);
      TakersNext(routes, q, wild, d);
    }
  }

  lemma TakersNext(routes: seq<Route>, q: Packet, wild: Matcher, d: RouteDst)
    requires routes != []
    ensures var k := |routes| - 1;
            |Takers(routes, q, wild, d)| == |Takers(routes[..k], q, wild, d)| + if TakesTo(routes[k], q, wild, d) then 1 else 0
  {
    hide TakesTo;
    var k := |routes| - 1;
    var (all, some) := (Takers(routes, q, wild, d), Takers(routes[..k], q, wild, d));
    forall i ensures i in all <==> i in some || (i == k && TakesTo(routes[k], q, wild, d)) {
      if 0 <= i < k { assert routes[..k][i] == routes[i]; }
    }
    assert all == some + if TakesTo(routes[k], q, wild, d) then {k} else {};
  }

  // -------------------------------------------------------------- the router

  ghost function Flatten(list: seq<seq<RouteDst>>): multiset<RouteDst> {
    if list == [] then multiset{} else Flatten(list[..|list| - 1]) + multiset(list[|list| - 1])
  }

  lemma FlattenMore(list: seq<seq<RouteDst>>, more: seq<RouteDst>)
    ensures Flatten(list + [more]) == Flatten(list) + multiset(more)
  {
    assert (list + [more])[..|list|] == list;
  }

  class Router {
    var tables: Tables

    /** The part of `BuildRoutes` that fills the routing tables. */
    constructor BuildRoutes(routes: seq<Route>)
      ensures tables == BuildAll(routes)
    {
      hide AddToIp, DstOf;
      tables := EmptyTables;
      new;
      var i := 0;
      while i < |routes|
        invariant 0 <= i <= |routes| && tables == BuildAll(routes[..i])
      {
        var route := routes[i];
        assert routes[..i + 1][..i] == routes[..i];
        i := i + 1;
        if !route.enable {
          continue;
        }
        var table := tables.For(route.srcProtocol);
        ghost var t := table;
        if route.srcPort !in table {
          table := table[route.srcPort := map[]];
        }
        var byIp := table[route.srcPort];
        ghost var m := byIp;
        if route.srcIp !in byIp {
          byIp := byIp[route.srcIp := ByIp(map[], map[])];
        }
        var b := AddToIp(byIp[route.srcIp], route.srcPath, DstOf(route));
        assert byIp[route.srcIp := b] == m[route.srcIp := b];
        table := table[route.srcPort := byIp[route.srcIp := b]];
        assert table == t[route.srcPort := m[route.srcIp := b]] == AddToTable(t, route);
        tables := tables.With(route.srcProtocol, table);
      }
      assert routes[..|routes|] == routes;
    }

    /** The destination list that `ProcessRecvPacket` walks. */
    method Destinations(q: Packet, wild: Matcher) returns (list: seq<seq<RouteDst>>)
      ensures Flatten(list) == Found(tables.For(q.protocol), q, wild)
    {
      hide FoundIn;
      list := [];
      var table := tables.For(q.protocol);
      if q.port in table {
        var byIp := table[q.port];
        if q.ip in byIp {
          list := AddRoutingDestinations(byIp[q.ip], q, wild, list);
        }
        if q.ip != 0 {
          if 0 in byIp {
            list := AddRoutingDestinations(byIp[0], q, wild, list);
          }
        }
      }
    }
  }

  /** `AddRoutingDestinations`; the wildcard paths may come in any order. */
  method AddRoutingDestinations(b: ByIp, q: Packet, wild: Matcher,
                                before: seq<seq<RouteDst>>) returns (list: seq<seq<RouteDst>>)
    ensures Flatten(list) == Flatten(before) + FoundIn(b, q, wild)
  {
    hide Flatten, Wild;
    list := before;
    if q.isOSC && q.path != "" {
      if q.path in b.paths {
        FlattenMore(list, b.paths[q.path]);
        list := list + [b.paths[q.path]];
      }
      list := AddWildcards(b.wildcards, q.path, wild, list);
    }
    if "" in b.paths {
      FlattenMore(list, b.paths[""]);
      list := list + [b.paths[""]];
    }
  }

  method AddWildcards(m: ByPath, path: string, wild: Matcher,
                      before: seq<seq<RouteDst>>) returns (list: seq<seq<RouteDst>>)
    ensures Flatten(list) == Flatten(before) + Wild(m, m.Keys, path, wild)
  {
    hide Flatten;
    list := before;
    var todo := m.Keys;
    while todo != {}
      invariant todo <= m.Keys
      invariant Flatten(list) + Wild(m, todo, path, wild) == Flatten(before) + Wild(m, m.Keys, path, wild)
      decreases |todo|
    {
      var k :| k in todo;
      WildRemove(m, todo, k, path, wild);
      if wild(k, path) {
        FlattenMore(list, m[k]);
        list := list + [m[k]];
      }
      todo := todo - {k};
    }
  }

  /** Building the tables and looking a packet up gives what a scan of the
      route list gives. */
  method Lookup(routes: seq<Route>, q: Packet, wild: Matcher) returns (list: seq<seq<RouteDst>>)
    ensures Flatten(list) == Scan(routes, q, wild)
    ensures forall d :: Flatten(list)[d] == |Takers(routes, q, wild, d)|
  {
    var router := new Router.BuildRoutes(routes);
    list := router.Destinations(q, wild);
    IndexAgreesWithScan(routes, q, wild);
    forall d ensures Flatten(list)[d] == |Takers(routes, q, wild, d)| { ScanCounts(routes, q, wild, d); }
  }
}

/** `routerEngine` (src/routerEngine.ts): the discovery of `routeFactory`
    building `Route` objects instead of records. A directory qualifies
    through the route file or a READABLE `page.html`, whose text becomes the
    route's page; afterwards each route's `transpiledCode` is set in place. */
module Engine {
  import opened Wrappers
  import opened Strings
  import opened Files
  import opened RegexRoute
  import opened Models
  import opened Discovery

  /** A directory qualifies when `lstat` finds the route file or
      `page.html` can be read. */
  predicate Keeps(fs: FileSystem, routeFileName: string, e: WalkEntry) {
    e.isDirectory && (Exists(fs, e.path + "/" + routeFileName) || ReadText(fs, e.path + "/" + PageFile).Some?)
  }

  /** The state of the route built for a qualifying directory: `hasPage`
      exactly when the page was read, `page` its text or `""`. */
  function Found(fs: FileSystem, e: WalkEntry): (s: RouteState)
    ensures s.path == RouteString(e.path) && s.regex == GetRegexRoute(s.path)
    ensures s.hasPage <==> ReadText(fs, e.path + "/" + PageFile).Some?
    ensures s.hasPage ==> s.page == ReadText(fs, e.path + "/" + PageFile).value
    ensures !s.hasPage ==> s.page == ""
    ensures s.transpiledCode == "" && s.sourcePath == e.path + "/" + SourceFile
    ensures s.httpMethod == "ALL" && s.call == None
  {
    var path := RouteString(e.path);
    var page := ReadText(fs, e.path + "/" + PageFile);
    RouteState(path, GetRegexRoute(path), page.Some?, "", SourcePath(e.path),
               if page.Some? then page.value else "", "ALL", None)
  }

  /** The route states of the first pass over `entries`. */
  function Scan(fs: FileSystem, routeFileName: string, entries: seq<WalkEntry>): (routes: seq<RouteState>)
    ensures |routes| <= |entries|
    ensures forall j :: 0 <= j < |routes| ==> routes[j].path != "" && routes[j].transpiledCode == ""
  {
    if entries == [] then []
    else
      var front := Scan(fs, routeFileName, entries[..|entries| - 1]);
      var e := entries[|entries| - 1];
      if Keeps(fs, routeFileName, e) then front + [Found(fs, e)] else front
  }

  /** `routerEngine(appPath, routeFileName)` as values: the first pass with
      the code of every source path attached. */
  function EngineTable(fs: FileSystem, routeFileName: string, transpile: Transpiler, entries: seq<WalkEntry>): (table: seq<RouteState>)
    ensures |table| == |Scan(fs, routeFileName, entries)|
    ensures forall j :: 0 <= j < |table| ==>
      table[j] == Scan(fs, routeFileName, entries)[j].(transpiledCode :=
        Code(fs, transpile, Scan(fs, routeFileName, entries)[j].sourcePath))
  {
    var found := Scan(fs, routeFileName, entries);
    seq(|found|, j requires 0 <= j < |found| => found[j].(transpiledCode := Code(fs, transpile, found[j].sourcePath)))
  }

  /** `routerEngine`: new, distinct `Route` objects whose states are the
      table's, in order. */
  method RouterEngine(fs: FileSystem, entries: seq<WalkEntry>, routeFileName: string, transpile: Transpiler)
    returns (routes: seq<Route>)
    ensures |routes| == |EngineTable(fs, routeFileName, transpile, entries)|
    ensures forall j :: 0 <= j < |routes| ==>
      fresh(routes[j]) && routes[j].Valid() && routes[j].Snapshot() == EngineTable(fs, routeFileName, transpile, entries)[j]
    ensures forall j, k :: 0 <= j < k < |routes| ==> routes[j] != routes[k]
  {
    routes := Discover(fs, entries, routeFileName);
    ghost var found := Scan(fs, routeFileName, entries);
    AttachCode(fs, transpile, routes);
    forall j | 0 <= j < |routes|
      ensures routes[j].Snapshot() == EngineTable(fs, routeFileName, transpile, entries)[j]
    {
      assert routes[j].Snapshot() == found[j].(transpiledCode := Code(fs, transpile, found[j].sourcePath));
    }
  }

  /** The `for await` loop: a route per qualifying directory, pushed in walk
      order. */
  method Discover(fs: FileSystem, entries: seq<WalkEntry>, routeFileName: string) returns (routes: seq<Route>)
    ensures |routes| == |Scan(fs, routeFileName, entries)|
    ensures forall j :: 0 <= j < |routes| ==>
      fresh(routes[j]) && routes[j].Valid() && routes[j].Snapshot() == Scan(fs, routeFileName, entries)[j]
    ensures forall j, k :: 0 <= j < k < |routes| ==> routes[j] != routes[k]
  {
    routes := [];
    for i := 0 to |entries|
      invariant |routes| == |Scan(fs, routeFileName, entries[..i])|
      invariant forall j :: 0 <= j < |routes| ==>
        fresh(routes[j]) && routes[j].Valid() && routes[j].Snapshot() == Scan(fs, routeFileName, entries[..i])[j]
      invariant forall j, k :: 0 <= j < k < |routes| ==> routes[j] != routes[k]
    {
      var entry := entries[i];
      assert entries[..i + 1][..i] == entries[..i];
      if !entry.isDirectory {
        continue;
      }
      var hasRoute := Exists(fs, entry.path + "/" + routeFileName);
      var read := ReadText(fs, entry.path + "/" + PageFile);
      if !hasRoute && read.None? {
        continue;
      }
      var route := NewRoute(fs, entry);
      routes := routes + [route];
    }
    assert entries[..|entries|] == entries;
  }

  /** The body of the first loop for a qualifying directory: the route,
      then the `page` setter with the text read (or `""`). */
  method NewRoute(fs: FileSystem, entry: WalkEntry) returns (route: Route)
    ensures fresh(route) && route.Valid() && route.Snapshot() == Found(fs, entry)
  {
    var read := ReadText(fs, entry.path + "/" + PageFile);
    var hasPage := read.Some?;
    var page := if hasPage then read.value else "";
    var rel := ReplaceAllBackslash(StripAppPrefix(entry.path));
    var path := if |rel| > 0 then rel else "/";
    var sourcePath := entry.path + "/" + SourceFile;
    route := new Route(path, GetRegexRoute(path), hasPage, "", sourcePath);
    route.SetPage(page);
  }

  /** The `routes.map` pass, setting `transpiledCode` on each route in
      place. */
  method AttachCode(fs: FileSystem, transpile: Transpiler, routes: seq<Route>)
    requires forall j :: 0 <= j < |routes| ==> routes[j].transpiledCode == ""
    requires forall j, k :: 0 <= j < k < |routes| ==> routes[j] != routes[k]
    modifies set j | 0 <= j < |routes| :: routes[j]
    ensures forall j :: 0 <= j < |routes| ==>
      routes[j].Snapshot() == old(routes[j].Snapshot()).(transpiledCode := Code(fs, transpile, old(routes[j].sourcePath)))
  {
    for i := 0 to |routes|
      invariant forall j :: 0 <= j < i ==>
        routes[j].Snapshot() == old(routes[j].Snapshot()).(transpiledCode := Code(fs, transpile, old(routes[j].sourcePath)))
      invariant forall j :: i <= j < |routes| ==> routes[j].Snapshot() == old(routes[j].Snapshot())
    {
      var r := routes[i];
      var sourcePath := r.sourcePath;
      var transpiledCode := "";
      if !Exists(fs, sourcePath) {
        continue;
      }
      var out := transpile(sourcePath);
      if out.Some? {
        transpiledCode := out.value;
      }
      r.transpiledCode := transpiledCode;
    }
  }

  /** Each entry is handled on its own and the order of the walk is kept. */
  lemma {:induction false} ScanAppend(fs: FileSystem, routeFileName: string, a: seq<WalkEntry>, b: seq<WalkEntry>)
    ensures Scan(fs, routeFileName, a + b) == Scan(fs, routeFileName, a) + Scan(fs, routeFileName, b)
  {
    if b == [] {
      assert a + b == a;
    } else {
      var b' := b[..|b| - 1];
      assert (a + b)[..|a + b| - 1] == a + b';
      assert (a + b)[|a + b| - 1] == b[|b| - 1];
      ScanAppend(fs, routeFileName, a, b');
    }
  }

  /** One entry yields a route exactly when it is a directory holding the
      route file or a readable `page.html`. */
  lemma ScanOne(fs: FileSystem, routeFileName: string, e: WalkEntry)
    ensures Scan(fs, routeFileName, [e]) == if Keeps(fs, routeFileName, e) then [Found(fs, e)] else []
  {
    assert [e][..0] == [];
  }

  /** A directory selected by a route file name other than `route.ts` gets
      no code unless a `route.ts` is also present, as the source path is
      fixed. */
  lemma OtherRouteFileName(fs: FileSystem, routeFileName: string, transpile: Transpiler, e: WalkEntry)
    requires Keeps(fs, routeFileName, e) && !Exists(fs, e.path + "/" + SourceFile)
    ensures EngineTable(fs, routeFileName, transpile, [e]) != []
    ensures EngineTable(fs, routeFileName, transpile, [e])[0].transpiledCode == ""
  {
    ScanOne(fs, routeFileName, e);
  }

  /** A `page.html` that exists but cannot be read does not make a route, and
      the route of a directory selected by its route file then has no page. */
  lemma UnreadablePage(fs: FileSystem, routeFileName: string, e: WalkEntry)
    requires e.isDirectory && ReadText(fs, e.path + "/" + PageFile).None?
    ensures Keeps(fs, routeFileName, e) <==> Exists(fs, e.path + "/" + routeFileName)
    ensures Keeps(fs, routeFileName, e) ==> !Found(fs, e).hasPage && Found(fs, e).page == ""
  {
  }
}

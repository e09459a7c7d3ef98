/** `routeFactory` (src/routeFactory.ts): one route record per walked
    directory that holds the route file or a `page.html`, in walk order,
    followed by a second pass that stores each record's transpiled code. */
module Factory {
  import opened Wrappers
  import opened Strings
  import opened Files
  import opened RegexRoute
  import opened Discovery

  /** A route record (src/@types/routeInfo.ts). */
  datatype RouteInfo = RouteInfo(route: string, regex: seq<Token>, hasPage: bool, transpiledCode: string, sourcePath: string)

  /** A directory qualifies when `lstat` finds the route file or `page.html`.
      */
  predicate Keeps(fs: FileSystem, routeFileName: string, e: WalkEntry) {
    e.isDirectory && (Exists(fs, e.path + "/" + routeFileName) || Exists(fs, e.path + "/" + PageFile))
  }

  /** The record the first pass pushes for a qualifying directory. */
  function Found(fs: FileSystem, e: WalkEntry): (r: RouteInfo)
    ensures r.route == RouteString(e.path) && r.regex == GetRegexRoute(r.route)
    ensures r.hasPage <==> Exists(fs, e.path + "/" + PageFile)
    ensures r.transpiledCode == "" && r.sourcePath == e.path + "/" + SourceFile
  {
    var route := RouteString(e.path);
    RouteInfo(route, GetRegexRoute(route), Exists(fs, e.path + "/" + PageFile), "", SourcePath(e.path))
  }

  /** The records of the first pass over `entries`. */
  function Scan(fs: FileSystem, routeFileName: string, entries: seq<WalkEntry>): (routes: seq<RouteInfo>)
    ensures |routes| <= |entries|
    ensures forall j :: 0 <= j < |routes| ==>
      routes[j].route != "" && routes[j].regex == GetRegexRoute(routes[j].route) && routes[j].transpiledCode == ""
  {
    if entries == [] then []
    else
      var front := Scan(fs, routeFileName, entries[..|entries| - 1]);
      var e := entries[|entries| - 1];
      if Keeps(fs, routeFileName, e) then front + [Found(fs, e)] else front
  }

  /** The second pass: every record gets the code of its source path. */
  function WithCode(fs: FileSystem, transpile: Transpiler, routes: seq<RouteInfo>): (out: seq<RouteInfo>)
    ensures |out| == |routes|
    ensures forall j :: 0 <= j < |routes| ==>
      out[j] == routes[j].(transpiledCode := Code(fs, transpile, routes[j].sourcePath))
  {
    seq(|routes|, j requires 0 <= j < |routes| => routes[j].(transpiledCode := Code(fs, transpile, routes[j].sourcePath)))
  }

  /** `routeFactory(appPath, routeFileName)` as a value. */
  function FactoryTable(fs: FileSystem, routeFileName: string, transpile: Transpiler, entries: seq<WalkEntry>): seq<RouteInfo> {
    WithCode(fs, transpile, Scan(fs, routeFileName, entries))
  }

  /** `routeFactory`: the `for await` loop pushing records, then the pass
      that sets `transpiledCode` on every record in place. */
  method RouteFactory(fs: FileSystem, entries: seq<WalkEntry>, routeFileName: string, transpile: Transpiler)
    returns (routes: seq<RouteInfo>)
    ensures routes == FactoryTable(fs, routeFileName, transpile, entries)
  {
    routes := [];
    for i := 0 to |entries|
      invariant routes == Scan(fs, routeFileName, entries[..i])
    {
      var entry := entries[i];
      assert entries[..i + 1][..i] == entries[..i];
      if !entry.isDirectory {
        continue;
      }
      var hasRoute := Exists(fs, entry.path + "/" + routeFileName);
      var hasPage := Exists(fs, entry.path + "/" + PageFile);
      if !hasRoute && !hasPage {
        continue;
      }
      var route := RouteString(entry.path);
      var sourcePath := entry.path + "/" + SourceFile;
      routes := routes + [RouteInfo(route, GetRegexRoute(route), hasPage, "", sourcePath)];
    }
    assert entries[..|entries|] == entries;
    routes := AttachCode(fs, transpile, routes);
  }

  /** The `routes.map` pass over the records of the first pass, which all
      hold `""`: a record whose source file exists gets the bundler's output
      (or `""` where it throws); the others are returned as they are. */
  method AttachCode(fs: FileSystem, transpile: Transpiler, found: seq<RouteInfo>) returns (routes: seq<RouteInfo>)
    requires forall j :: 0 <= j < |found| ==> found[j].transpiledCode == ""
    ensures routes == WithCode(fs, transpile, found)
  {
    routes := found;
    for i := 0 to |routes|
      invariant |routes| == |found|
      invariant forall j :: 0 <= j < i ==> routes[j] == found[j].(transpiledCode := Code(fs, transpile, found[j].sourcePath))
      invariant forall j :: i <= j < |routes| ==> routes[j] == found[j]
    {
      var sourcePath := routes[i].sourcePath;
      var transpiledCode := "";
      if !Exists(fs, sourcePath) {
        continue;
      }
      var out := transpile(sourcePath);
      if out.Some? {
        transpiledCode := out.value;
      }
      routes := routes[i := routes[i].(transpiledCode := transpiledCode)];
    }
  }

  /** Each entry is handled on its own and the order of the walk is kept:
      the records of a concatenation are the records of its parts, in
      order. */
  lemma {:induction false} ScanAppend(fs: FileSystem, routeFileName: string, a: seq<WalkEntry>, b: seq<WalkEntry>)
    ensures Scan(fs, routeFileName, a + b) == Scan(fs, routeFileName, a) + Scan(fs, routeFileName, b)
  {
    if b == [] {
      assert a + b == a;
    } else {
      var b' := b[..|b| - 1];
      assert (a + b)[..|a + b| - 1] == a + b';
      assert (a + b)[|a + b| - 1] == b[|b| - 1];
      ScanAppend(fs, routeFileName, a, b');
    }
  }

  /** One entry yields a record exactly when it is a directory holding the
      route file or `page.html`; `hasPage` records whether `page.html`
      exists. */
  lemma ScanOne(fs: FileSystem, routeFileName: string, e: WalkEntry)
    ensures Scan(fs, routeFileName, [e]) == if Keeps(fs, routeFileName, e) then [Found(fs, e)] else []
  {
    assert [e][..0] == [];
  }

  /** A file entry yields nothing, whatever files lie beside it. */
  lemma FilesSkipped(fs: FileSystem, routeFileName: string, e: WalkEntry)
    requires !e.isDirectory
    ensures Scan(fs, routeFileName, [e]) == []
  {
    ScanOne(fs, routeFileName, e);
  }
}

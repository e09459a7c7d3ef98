/** The `Ten` application class (src/ten.ts): `start` loads the route table,
    and `_handleRequest` decides the response to a request: the first route
    whose pattern accepts the path handles it; its handler's response is
    returned as it is, unless the route has a page and the request is a `GET`,
    in which case the page is composed and its placeholders filled from the
    handler's JSON body. */
module Application {
  import opened Wrappers
  import opened Strings
  import opened Files
  import opened Handlers
  import opened RegexRoute
  import opened NamedParams
  import opened Composition
  import opened OrderedLayouts
  import opened DocumentLayout
  import opened ParamsEngine
  import opened View
  import opened Discovery
  import opened Factory

  const AppPath: string := "./app"
  const RouteFileName: string := "route.ts"

  const NotFound: Response := Response(404, None, "Not found")
  /** `String(new Error("Module is empty"))`. */
  const ModuleIsEmpty: string := "Error: Module is empty"
  const HtmlType: string := "text/html"

  /** The index of the first route from `k` on whose pattern accepts `path`. */
  function FindFrom(routes: seq<RouteInfo>, path: string, k: nat): (i: Option<nat>)
    decreases |routes| - k
    ensures i.Some? ==> k <= i.value < |routes| && Accepts(routes[i.value].regex, path)
    ensures i.Some? ==> forall j :: k <= j < i.value ==> !Accepts(routes[j].regex, path)
    ensures i.None? ==> forall j :: k <= j < |routes| ==> !Accepts(routes[j].regex, path)
  {
    if k >= |routes| then None
    else if Accepts(routes[k].regex, path) then Some(k)
    else FindFrom(routes, path, k + 1)
  }

  /** `_routes.find(r => r.regex.test(path))`. */
  function FindRoute(routes: seq<RouteInfo>, path: string): Option<nat> {
    FindFrom(routes, path, 0)
  }

  /** `_getRouteModuleMethodFn(method, code)`: the module the code evaluates
      to, or an empty module where the import throws, with its export named
      `method`. */
  function LoadModule(load: Loader, verb: string, code: string): (r: (Module, Option<Export>))
    ensures load(code).None? ==> r == (map[], None)
    ensures load(code).Some? ==> r.0 == load(code).value
    ensures r.1.Some? <==> verb in r.0
    ensures r.1.Some? ==> r.1.value == r.0[verb]
  {
    match load(code)
    case None => (map[], None)
    case Some(m) => (m, Lookup(m, verb))
  }

  /** The handler a request reaches on route `r`: a function export named
      by the upper-cased method. */
  predicate Callable(fn: Option<Export>) {
    fn.Some? && fn.value.Function?
  }

  /** The parameters the handler receives: the path's named parameters for
      the route, without the undefined ones. */
  function ParamsOf(req: Request, r: RouteInfo): Params {
    Defined(RawParams(req.path, r.route))
  }

  /** The export the request's upper-cased method names on route `r`. */
  function HandlerOf(load: Loader, req: Request, r: RouteInfo): Option<Export> {
    LoadModule(load, ToUpper(req.verb), r.transpiledCode).1
  }

  /** `_handleRequest(req)` as a value; `None` where the handler's own
      result is `undefined`. */
  function Dispatch(routes: seq<RouteInfo>, fs: FileSystem, load: Loader, invoke: Invoker, req: Request): Option<Response> {
    var verb := ToUpper(req.verb);
    match FindRoute(routes, req.path)
    case None => Some(NotFound)
    case Some(i) =>
      var r := routes[i];
      var (m, fn) := LoadModule(load, verb, r.transpiledCode);
      var params := ParamsOf(req, r);
      if Callable(fn) && (!r.hasPage || verb != "GET") then
        match invoke(fn.value.id, req, params)
        case Threw(e) => Some(Response(500, None, e))
        case ReturnedNothing => None
        case Returned(response, _) => Some(response)
      else if |m| == 0 && !r.hasPage then Some(Response(500, None, ModuleIsEmpty))
      else if r.hasPage && verb == "GET" then Some(PageResponse(fs, r.route, fn, invoke, req, params))
      else Some(NotFound)
  }

  /** The page branch: the composed page as `text/html`, or 404 where the
      page or a layout cannot be read. */
  function PageResponse(fs: FileSystem, route: string, fn: Option<Export>, invoke: Invoker, req: Request, params: Params): Response {
    match ReadText(fs, AppPath + route + "/" + PageFile)
    case None => NotFound
    case Some(page) =>
      match Compose(fs, AppPath, route, page, HandlerData(fn, invoke, req, params))
      case None => NotFound
      case Some(full) => Response(200, Some(HtmlType), full)
  }

  /** No route accepts the path: 404 `Not found`. */
  lemma NoMatchNotFound(routes: seq<RouteInfo>, fs: FileSystem, load: Loader, invoke: Invoker, req: Request)
    requires forall j :: 0 <= j < |routes| ==> !Accepts(routes[j].regex, req.path)
    ensures Dispatch(routes, fs, load, invoke, req) == Some(NotFound)
  {
  }

  /** The first route that accepts the path decides alone: the result is the
      one that route would give by itself. */
  lemma FirstMatchWins(routes: seq<RouteInfo>, fs: FileSystem, load: Loader, invoke: Invoker, req: Request, i: nat)
    requires i < |routes| && Accepts(routes[i].regex, req.path)
    requires forall j :: 0 <= j < i ==> !Accepts(routes[j].regex, req.path)
    ensures FindRoute(routes, req.path) == Some(i)
    ensures Dispatch(routes, fs, load, invoke, req) == Dispatch([routes[i]], fs, load, invoke, req)
  {
    assert FindRoute([routes[i]], req.path) == Some(0);
  }

  /** A function export, on a route without a page or for a method other
      than `GET`, is called and its result returned as it is; a synchronous
      throw gives 500 with the error's text. */
  lemma HandlerDecides(routes: seq<RouteInfo>, fs: FileSystem, load: Loader, invoke: Invoker, req: Request, i: nat)
    requires FindRoute(routes, req.path) == Some(i)
    requires Callable(HandlerOf(load, req, routes[i]))
    requires !routes[i].hasPage || ToUpper(req.verb) != "GET"
    ensures invoke(HandlerOf(load, req, routes[i]).value.id, req, ParamsOf(req, routes[i])).Returned? ==>
      Dispatch(routes, fs, load, invoke, req) ==
        Some(invoke(HandlerOf(load, req, routes[i]).value.id, req, ParamsOf(req, routes[i])).response)
    ensures invoke(HandlerOf(load, req, routes[i]).value.id, req, ParamsOf(req, routes[i])).Threw? ==>
      Dispatch(routes, fs, load, invoke, req) ==
        Some(Response(500, None, invoke(HandlerOf(load, req, routes[i]).value.id, req, ParamsOf(req, routes[i])).error))
  {
  }

  /** On a route without a page, a module that failed to import or has no
      exports gives 500 `Error: Module is empty`. */
  lemma EmptyModuleError(routes: seq<RouteInfo>, fs: FileSystem, load: Loader, invoke: Invoker, req: Request, i: nat)
    requires FindRoute(routes, req.path) == Some(i) && !routes[i].hasPage
    requires load(routes[i].transpiledCode).None? || load(routes[i].transpiledCode) == Some(map[])
    ensures Dispatch(routes, fs, load, invoke, req) == Some(Response(500, None, ModuleIsEmpty))
  {
  }

  /** A `GET` (in any case) on a route with a page renders the page, filled
      from the handler's JSON body when there is one. */
  lemma GetRendersPage(routes: seq<RouteInfo>, fs: FileSystem, load: Loader, invoke: Invoker, req: Request, i: nat)
    requires FindRoute(routes, req.path) == Some(i) && routes[i].hasPage && ToUpper(req.verb) == "GET"
    ensures Dispatch(routes, fs, load, invoke, req) ==
      Some(PageResponse(fs, routes[i].route, HandlerOf(load, req, routes[i]), invoke, req, ParamsOf(req, routes[i])))
  {
  }

  /** The page branch answers 200 `text/html` with the composed page exactly
      when the page and every layout can be read, and 404 otherwise. */
  lemma PageOutcome(fs: FileSystem, route: string, fn: Option<Export>, invoke: Invoker, req: Request, params: Params)
    ensures PageResponse(fs, route, fn, invoke, req, params).status == 200 <==>
      ReadText(fs, AppPath + route + "/" + PageFile).Some? &&
      Compose(fs, AppPath, route, ReadText(fs, AppPath + route + "/" + PageFile).value,
              HandlerData(fn, invoke, req, params)).Some?
    ensures PageResponse(fs, route, fn, invoke, req, params).status != 200 ==>
      PageResponse(fs, route, fn, invoke, req, params) == NotFound
    ensures PageResponse(fs, route, fn, invoke, req, params).status == 200 ==>
      PageResponse(fs, route, fn, invoke, req, params).contentType == Some(HtmlType) &&
      Some(PageResponse(fs, route, fn, invoke, req, params).body) ==
        Compose(fs, AppPath, route, ReadText(fs, AppPath + route + "/" + PageFile).value,
                HandlerData(fn, invoke, req, params))
  {
  }

  /** Every request gets exactly one response, except where the handler is
      called for its own response and returns nothing. */
  lemma OnlyHandlerMayOmitResponse(routes: seq<RouteInfo>, fs: FileSystem, load: Loader, invoke: Invoker, req: Request)
    requires Dispatch(routes, fs, load, invoke, req).None?
    ensures FindRoute(routes, req.path).Some?
    ensures Callable(HandlerOf(load, req, routes[FindRoute(routes, req.path).value]))
    ensures invoke(HandlerOf(load, req, routes[FindRoute(routes, req.path).value]).value.id, req,
                   ParamsOf(req, routes[FindRoute(routes, req.path).value])) == ReturnedNothing
  {
  }

  /** The method is upper-cased before it is used: two spellings of the same
      method get the same response from handlers that do not look at it. */
  lemma MethodCaseIrrelevant(routes: seq<RouteInfo>, fs: FileSystem, load: Loader, invoke: Invoker, v1: string, v2: string, path: string)
    requires ToUpper(v1) == ToUpper(v2)
    requires forall id, params :: invoke(id, Request(v1, path), params) == invoke(id, Request(v2, path), params)
    ensures Dispatch(routes, fs, load, invoke, Request(v1, path)) == Dispatch(routes, fs, load, invoke, Request(v2, path))
  {
    var r1, r2 := Request(v1, path), Request(v2, path);
    match FindRoute(routes, path)
    case None =>
    case Some(i) =>
      var fn := HandlerOf(load, r1, routes[i]);
      assert HandlerOf(load, r2, routes[i]) == fn;
      assert HandlerData(fn, invoke, r1, ParamsOf(r1, routes[i])) == HandlerData(fn, invoke, r2, ParamsOf(r2, routes[i]));
  }

  /** `s` without backslashes is kept by `replaceAll("\\", "/")`. */
  lemma BackslashFreeKept(s: string)
    requires '\\' !in s
    ensures ReplaceAllBackslash(s) == s
  {
    assert forall i :: 0 <= i < |s| ==> s[i] != '\\';
  }

  /** The page path of a directory below the root: `./app${s}/page.html`
      names the file `app${s}/page.html`. */
  lemma SubdirPagePath(s: string)
    ensures Canonical(AppPath + s + "/" + PageFile) == Canonical("app" + s + "/" + PageFile)
  {
    var rel := "app" + s + "/" + PageFile;
    DotPrefixSameFile(rel);
    calc {
      AppPath + s + "/" + PageFile;
      ("./" + "app") + s + "/" + PageFile;
      "./" + rel;
    }
  }

  /** The page path of the root directory, whose route is `/`:
      `./app//page.html` names the file `app/page.html`. */
  lemma RootPagePath()
    ensures Canonical(AppPath + "/" + "/" + PageFile) == Canonical("app" + "/" + PageFile)
  {
    assert AppPath + "/" + "/" + PageFile == AppPath + "//" + PageFile;
    DoubleSlashSameFile(AppPath, PageFile);
    SubdirPagePath("");
    assert AppPath + "" + "/" + PageFile == AppPath + "/" + PageFile;
    assert "app" + "" + "/" + PageFile == "app" + "/" + PageFile;
  }

  /** The page a directory was discovered by is the page a `GET` renders:
      `${entry.path}/page.html` and `./app${route}/page.html` name the same
      file, for the root directory (`./app` or `app`) and every directory
      below it. */
  lemma DiscoveredPageRendered(fs: FileSystem, e: WalkEntry, s: string)
    requires e.path == AppPath + s || e.path == "app" + s
    requires s == "" || (s[0] == '/' && '\\' !in s)
    ensures Canonical(AppPath + RouteString(e.path) + "/" + PageFile) == Canonical(e.path + "/" + PageFile)
    ensures Found(fs, e).hasPage <==> Exists(fs, AppPath + Found(fs, e).route + "/" + PageFile)
  {
    RouteStringUnderApp(s);
    SubdirPagePath(s);
    if s == "" {
      RootPagePath();
      assert RouteString(e.path) == "/";
      assert AppPath + s + "/" + PageFile == AppPath + "/" + PageFile;
      assert "app" + s + "/" + PageFile == "app" + "/" + PageFile;
      assert e.path + "/" + PageFile == AppPath + "/" + PageFile || e.path + "/" + PageFile == "app" + "/" + PageFile;
    } else {
      BackslashFreeKept(s);
      assert RouteString(e.path) == s;
      assert e.path + "/" + PageFile == AppPath + s + "/" + PageFile || e.path + "/" + PageFile == "app" + s + "/" + PageFile;
    }
  }

  class Ten {
    /** `_routes`. */
    var routes: seq<RouteInfo>

    /** `Ten.net()`: an application without routes. */
    constructor()
      ensures routes == []
    {
      routes := [];
    }

    /** `start()`: the routes found under `./app` are appended, in walk
        order, after those already present. Serving is not modelled. */
    method Start(fs: FileSystem, entries: seq<WalkEntry>, transpile: Transpiler)
      modifies this
      ensures routes == old(routes) + FactoryTable(fs, RouteFileName, transpile, entries)
    {
      var found := RouteFactory(fs, entries, RouteFileName, transpile);
      routes := routes + found;
    }

    /** `_handleRequest(req)`. */
    method HandleRequest(fs: FileSystem, load: Loader, invoke: Invoker, req: Request) returns (res: Option<Response>)
      ensures res == Dispatch(routes, fs, load, invoke, req)
    {
      var path := req.path;
      var verb := ToUpper(req.verb);
      var found := FindRoute(routes, path);
      if found.None? {
        return Some(NotFound);
      }
      var matched := routes[found.value];
      var (exports, fn) := LoadModule(load, verb, matched.transpiledCode);
      var rawParams := PathNamedParams(path, matched.route);
      var params := Defined(rawParams);
      if fn.Some? && fn.value.Function? && (!matched.hasPage || verb != "GET") {
        // A synchronous throw reaches the outer `catch`.
        var outcome := invoke(fn.value.id, req, params);
        match outcome
        case Threw(e) => return Some(Response(500, None, e));
        case ReturnedNothing => return None;
        case Returned(response, _) => return Some(response);
      }
      if |exports| == 0 && !matched.hasPage {
        return Some(Response(500, None, ModuleIsEmpty));
      }
      if matched.hasPage && verb == "GET" {
        var page := RenderPage(fs, matched.route, fn, invoke, req, params);
        return Some(page);
      }
      return Some(NotFound);
    }
  }

  /** The `try` block of the page branch. */
  method RenderPage(fs: FileSystem, route: string, fn: Option<Export>, invoke: Invoker, req: Request, params: Params)
    returns (res: Response)
    ensures res == PageResponse(fs, route, fn, invoke, req, params)
  {
    var pageModule := ReadText(fs, AppPath + route + "/" + PageFile);
    if pageModule.None? {
      return NotFound;
    }
    var layouts := FindOrderedLayouts(fs, AppPath, route);
    var documentLayout := DocumentLayoutRoot(fs, AppPath);
    var fullContent := ReplaceFirst(documentLayout, ContentPlaceholder, pageModule.value);
    var wrapped := WrapInLayouts(fs, layouts, fullContent);
    if wrapped.None? {
      return NotFound;
    }
    fullContent := wrapped.value;
    // As in the view engine, every failure of the handler is swallowed.
    if fn.Some? && fn.value.Function? {
      var routeResponse := invoke(fn.value.id, req, params);
      if routeResponse.Returned? && routeResponse.json.Some? {
        fullContent := FillPlaceholders(fullContent, routeResponse.json.value);
      }
    }
    return Response(200, Some(HtmlType), fullContent);
  }
}

/** `viewEngine` (src/viewEngine.ts): a route's page is put in the document
    layout's `{{content}}`, the result is wrapped in the route's layouts from
    the deepest one up to the root, and when the route holds a handler, the
    `{{key}}` placeholders are filled from the JSON body of its response. */
module View {
  import opened Wrappers
  import opened Strings
  import opened Files
  import opened Handlers
  import opened Composition
  import opened OrderedLayouts
  import opened DocumentLayout
  import opened Models

  /** The JSON body the placeholders are filled from. Only a function
      export can be called; a call that throws, a missing response and a
      body that does not decode are swallowed, and leave nothing to fill. */
  function HandlerData(fn: Option<Export>, invoke: Invoker, req: Request, params: Params): (pairs: JsonObject)
    ensures fn.None? || fn == Some(NotAFunction) ==> pairs == []
    ensures pairs != [] ==>
      (fn.Some? && fn.value.Function? &&
       invoke(fn.value.id, req, params).Returned? && invoke(fn.value.id, req, params).json == Some(pairs))
    ensures (fn.Some? && fn.value.Function? && invoke(fn.value.id, req, params).Returned? &&
             invoke(fn.value.id, req, params).json.Some?) ==>
      pairs == invoke(fn.value.id, req, params).json.value
  {
    match fn
    case Some(Function(id)) =>
      (match invoke(id, req, params)
       case Returned(_, Some(body)) => body
       case _ => [])
    case _ => []
  }

  /** The page of `routePath` composed with the application's document and
      layouts, its placeholders then filled from `pairs`; `None` where reading
      a layout throws. */
  function Compose(fs: FileSystem, appPath: string, routePath: string, page: string, pairs: JsonObject): Option<string> {
    var document := ReplaceFirst(DocumentLayoutRoot(fs, appPath), ContentPlaceholder, page);
    match Layered(fs, Layouts(fs, appPath, routePath), document)
    case None => None
    case Some(composed) => Some(Substitute(composed, pairs))
  }

  /** `viewEngine({ _appPath, route, req, params })`. The result is `None`
      where the returned promise rejects, because a layout read threw. */
  method ViewEngine(fs: FileSystem, appPath: string, route: Route, req: Request, params: Params, invoke: Invoker)
    returns (r: Option<string>)
    ensures r == Compose(fs, appPath, route.path, route.pageContent, HandlerData(route.call, invoke, req, params))
  {
    var pageModule := route.pageContent;
    var layouts := FindOrderedLayouts(fs, appPath, route.path);
    var documentLayout := DocumentLayoutRoot(fs, appPath);
    pageModule := ReplaceFirst(documentLayout, ContentPlaceholder, pageModule);
    var wrapped := WrapInLayouts(fs, layouts, pageModule);
    ghost var pairs := HandlerData(route.call, invoke, req, params);
    assert Compose(fs, appPath, route.path, route.pageContent, pairs) ==
      if wrapped.None? then None else Some(Substitute(wrapped.value, pairs));
    if wrapped.None? {
      return None;
    }
    pageModule := wrapped.value;
    // Calling an export that is not a function throws, and the throw is
    // caught; so is a handler that throws or a body that does not decode.
    if route.call.Some? && route.call.value.Function? {
      var routeResponse := invoke(route.call.value.id, req, params);
      if routeResponse.Returned? && routeResponse.json.Some? {
        pageModule := FillPlaceholders(pageModule, routeResponse.json.value);
      }
    }
    return Some(pageModule);
  }

  /** Without a handler nothing is substituted: a `{{key}}` in the composed
      page survives. */
  lemma NoHandlerNoSubstitution(fs: FileSystem, appPath: string, routePath: string, page: string,
                                invoke: Invoker, req: Request, params: Params)
    ensures Compose(fs, appPath, routePath, page, HandlerData(None, invoke, req, params)) ==
      Layered(fs, Layouts(fs, appPath, routePath), ReplaceFirst(DocumentLayoutRoot(fs, appPath), ContentPlaceholder, page))
  {
  }

  /** The document wraps the page first, so it is innermost; layouts are
      then applied from the deepest to the root, so the root-most one is
      outermost. */
  lemma DocumentInnermost(fs: FileSystem, appPath: string, routePath: string, page: string, pairs: JsonObject)
    requires ReadAll(fs, Layouts(fs, appPath, routePath)).Some?
    requires AllHavePlaceholder(ReadAll(fs, Layouts(fs, appPath, routePath)).value)
    ensures Compose(fs, appPath, routePath, page, pairs) ==
      Some(Substitute(
        Heads(ReadAll(fs, Layouts(fs, appPath, routePath)).value) +
        ReplaceFirst(DocumentLayoutRoot(fs, appPath), ContentPlaceholder, page) +
        Tails(ReadAll(fs, Layouts(fs, appPath, routePath)).value), pairs))
  {
    var texts := ReadAll(fs, Layouts(fs, appPath, routePath)).value;
    NestShape(texts, ReplaceFirst(DocumentLayoutRoot(fs, appPath), ContentPlaceholder, page));
  }

  /** With at least one layout, the composed page (before any substitution)
      begins with the root layout's text before its `{{content}}`. */
  lemma RootLayoutOutermost(fs: FileSystem, appPath: string, routePath: string, page: string)
    requires ReadAll(fs, Layouts(fs, appPath, routePath)).Some?
    requires AllHavePlaceholder(ReadAll(fs, Layouts(fs, appPath, routePath)).value)
    requires Layouts(fs, appPath, routePath) != []
    ensures Compose(fs, appPath, routePath, page, []).Some?
    ensures StartsWith(Compose(fs, appPath, routePath, page, []).value,
                       Head(ReadAll(fs, Layouts(fs, appPath, routePath)).value[0]))
  {
    var texts := ReadAll(fs, Layouts(fs, appPath, routePath)).value;
    OutermostFirst(texts, ReplaceFirst(DocumentLayoutRoot(fs, appPath), ContentPlaceholder, page));
  }

  /** With no layouts and no `document.html`, the page lands between the
      default document's head and tail: the document wrap always happens. */
  lemma DefaultDocumentOnly(fs: FileSystem, appPath: string, routePath: string, page: string)
    requires Layouts(fs, appPath, routePath) == []
    requires ReadText(fs, appPath + "/" + DocumentFile).None?
    ensures Compose(fs, appPath, routePath, page, []) == Some(DefaultHead + page + DefaultTail)
  {
    DefaultWrap(page);
  }

  /** A layout that cannot be read makes the whole composition fail. */
  lemma UnreadableLayout(fs: FileSystem, appPath: string, routePath: string, page: string, pairs: JsonObject, j: nat)
    requires j < |Layouts(fs, appPath, routePath)|
    requires ReadText(fs, Layouts(fs, appPath, routePath)[j]).None?
    ensures Compose(fs, appPath, routePath, page, pairs) == None
  {
  }
}

/** The `Route` class (src/models/Route.ts): a discovered route, with a
    whitelisted `method`, the page text, and the handler export that
    `import()` last resolved. */
module Models {
  import opened Wrappers
  import opened Strings
  import opened RegexRoute
  import opened Handlers

  /** The values the `method` setter accepts, after upper-casing. */
  const AllowedMethods: seq<string> := ["GET", "POST", "PUT", "DELETE", "PATCH", "OPTIONS", "HEAD", "ALL"]

  /** The `method` that results when `requested` is assigned to a route
      whose method is `current`. */
  function MethodAfter(current: string, requested: string): (m: string)
    ensures ToUpper(requested) in AllowedMethods ==> m == ToUpper(requested)
    ensures ToUpper(requested) !in AllowedMethods ==> m == current
  {
    var upper := ToUpper(requested);
    if upper in AllowedMethods then upper else current
  }

  /** Upper-casing twice is upper-casing once. */
  lemma ToUpperIdempotent(s: string)
    ensures ToUpper(ToUpper(s)) == ToUpper(s)
  {
    var u := ToUpper(s);
    forall i | 0 <= i < |s| ensures ToUpper(u)[i] == u[i] {
      assert !IsAsciiLower(u[i]);
    }
  }

  /** The setter keeps the whitelist invariant, and assigning the same value
      a second time changes nothing. */
  lemma {:induction false} MethodAfterProperties(current: string, requested: string)
    ensures current in AllowedMethods ==> MethodAfter(current, requested) in AllowedMethods
    ensures MethodAfter(MethodAfter(current, requested), requested) == MethodAfter(current, requested)
  {
  }

  /** The setter is case-insensitive: any spelling of an allowed method gives
      the same result, and the stored value is itself an allowed method in
      upper case, so assigning it back is a no-op. */
  lemma {:induction false} MethodCaseInsensitive(current: string, requested: string)
    requires ToUpper(requested) in AllowedMethods
    ensures MethodAfter(current, requested) == MethodAfter(current, ToUpper(requested))
    ensures MethodAfter(current, requested) == ToUpper(requested)
  {
    ToUpperIdempotent(requested);
  }

  /** What `import()` does with a module that loaded (`Some`) or whose
      import threw (`None`): either it fails (returning `undefined` and leaving
      `call` alone) or it resolves `module[method]`. */
  datatype ImportOutcome = Failed | Resolved(fn: Option<Export>)

  function ImportResult(loaded: Option<Module>, verb: string, hasPage: bool): (o: ImportOutcome)
    ensures o.Failed? <==> loaded.None? || (|loaded.value| == 0 && !hasPage)
    ensures o.Resolved? ==> (o.fn.Some? <==> verb in loaded.value)
    ensures o.Resolved? && o.fn.Some? ==> o.fn.value == loaded.value[verb]
  {
    match loaded
    case None => Failed
    case Some(m) =>
      if |m| == 0 && !hasPage then Failed else Resolved(Lookup(m, verb))
  }

  /** A route with a page imports successfully even from an empty module,
      and then resolves no handler. */
  lemma EmptyModuleWithPage(verb: string)
    ensures ImportResult(Some(map[]), verb, true) == Resolved(None)
  {
  }

  /** All fields of a route, as one value. */
  datatype RouteState = RouteState(
    path: string, regex: seq<Token>, hasPage: bool, transpiledCode: string,
    sourcePath: string, page: string, httpMethod: string, call: Option<Export>)

  class Route {
    var path: string
    var regex: seq<Token>
    var hasPage: bool
    var transpiledCode: string
    var sourcePath: string
    /** `_pageContent`, read and written through `page`. */
    var pageContent: string
    /** `_method`, read and written through `method`. */
    var currentMethod: string
    /** `_call`: `None` while `undefined`. */
    var call: Option<Export>

    /** `_method` is always one of the whitelisted values. */
    ghost predicate Valid()
      reads this
    {
      currentMethod in AllowedMethods
    }

    function Snapshot(): (s: RouteState)
      reads this
      ensures s.path == path && s.regex == regex && s.hasPage == hasPage
      ensures s.transpiledCode == transpiledCode && s.sourcePath == sourcePath
      ensures s.page == pageContent && s.httpMethod == currentMethod && s.call == call
    {
      RouteState(path, regex, hasPage, transpiledCode, sourcePath, pageContent, currentMethod, call)
    }

    /** The five given fields are stored unchanged; `method` starts as
        `"ALL"`, `page` as `""` and `call` as `undefined`. */
    constructor(path: string, regex: seq<Token>, hasPage: bool, transpiledCode: string, sourcePath: string)
      ensures Valid()
      ensures Snapshot() == RouteState(path, regex, hasPage, transpiledCode, sourcePath, "", "ALL", None)
    {
      this.path := path;
      this.regex := regex;
      this.hasPage := hasPage;
      this.transpiledCode := transpiledCode;
      this.sourcePath := sourcePath;
      this.pageContent := "";
      this.currentMethod := "ALL";
      this.call := None;
    }

    /** `set method(m)`: stores `m.toUpperCase()` when it is whitelisted and
        otherwise keeps the old value; no other field changes. */
    method SetMethod(m: string)
      requires Valid()
      modifies this
      ensures Valid()
      ensures Snapshot() == old(Snapshot()).(httpMethod := MethodAfter(old(currentMethod), m))
      ensures hasPage && ToUpper(m) == "GET" ==> IsView()
      ensures ToUpper(m) in AllowedMethods && ToUpper(m) != "GET" ==> !IsView()
      ensures ToUpper(m) !in AllowedMethods ==> IsView() == old(IsView())
    {
      var upper := ToUpper(m);
      if upper in AllowedMethods {
        currentMethod := upper;
      }
    }

    /** `set page(str)`: the next read of `page` gives `str`; no other field
        changes. */
    method SetPage(str: string)
      modifies this
      ensures Snapshot() == old(Snapshot()).(page := str)
    {
      pageContent := str;
    }

    /** `isView`: a page served for `GET`. */
    predicate IsView()
      reads this
    {
      hasPage && currentMethod == "GET"
    }

    /** `import()`: evaluates `transpiledCode` with `load`. When the import
        throws, or yields a module without exports on a route without a
        page, it returns `undefined` and leaves `call` unchanged; otherwise
        it stores `module[method]` in `call` and returns it. */
    method Import(load: Loader) returns (fn: Option<Export>)
      modifies this
      ensures ImportResult(load(old(transpiledCode)), old(currentMethod), old(hasPage)).Failed? ==>
        fn == None && Snapshot() == old(Snapshot())
      ensures ImportResult(load(old(transpiledCode)), old(currentMethod), old(hasPage)).Resolved? ==>
        fn == ImportResult(load(old(transpiledCode)), old(currentMethod), old(hasPage)).fn &&
        Snapshot() == old(Snapshot()).(call := fn)
    {
      var loaded := load(transpiledCode);
      if loaded.None? {
        return None;
      }
      var exports := loaded.value;
      var f := Lookup(exports, currentMethod);
      if |exports| == 0 && !hasPage {
        return None;
      }
      call := f;
      return f;
    }
  }
}

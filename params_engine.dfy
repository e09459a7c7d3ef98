/** `paramsEngine` (src/paramsEngine.ts): the named parameters of a path for
    a route object, keeping only the entries of `pathNamedParams` whose value
    is defined. */
module ParamsEngine {
  import opened Wrappers
  import opened RegexRoute
  import opened NamedParams
  import opened Models

  /** `Object.fromEntries(Object.entries(raw).filter(v !== undefined))`:
      the defined entries, with their values, and nothing else. */
  function Defined(raw: map<string, Option<string>>): (p: map<string, string>)
    ensures forall k :: k in p <==> k in raw && raw[k].Some?
    ensures forall k :: k in p ==> raw[k] == Some(p[k])
  {
    map k | k in raw && raw[k].Some? :: raw[k].value
  }

  /** `paramsEngine(path, route)`: the extraction for `route.path`. */
  function Params(path: string, route: Route): map<string, string>
    reads route
  {
    Defined(RawParams(path, route.path))
  }

  /** The parameters found for a route text: a key is present exactly when the
      last route segment naming it lies within the path, and holds the path
      segment in that position. Names whose last position is past the end of
      the path are absent (not `undefined`). */
  lemma ParamsCharacterisation(path: string, routePath: string, k: string)
    ensures k in Defined(RawParams(path, routePath)) <==>
      exists i :: LastNamesAt(Segments(routePath), i, k) && i < |Segments(path)|
    ensures forall i :: LastNamesAt(Segments(routePath), i, k) && i < |Segments(path)| ==>
      k in Defined(RawParams(path, routePath)) && Defined(RawParams(path, routePath))[k] == Segments(path)[i]
  {
    var rs, ps := Segments(routePath), Segments(path);
    forall i | LastNamesAt(rs, i, k)
      ensures k in Fill(rs, ps) && Fill(rs, ps)[k] == At(ps, i)
    {
      FillLastWins(rs, ps, i);
    }
    if k in Fill(rs, ps) {
      var i := FillLastNaming(rs, ps, k);
    }
  }

  /** `paramsEngine("/users/123", route "/users/[id]")` is `{ id: "123" }`,
      for any static first segment and any value. */
  lemma SingleParamRoute(route: Route, a: string, v: string)
    requires a != "" && v != "" && '/' !in a && '/' !in v && !IsDynamic(a)
    requires route.path == "/" + a + "/[id]"
    ensures Params("/" + a + "/" + v, route) == map["id" := v]
  {
    SingleParamExample(a, v);
  }

  /** A route with trailing parameters beyond the path's length yields no
      entry for them. */
  lemma TrailingParamsAbsent(path: string, routePath: string, i: nat)
    requires i < |Segments(routePath)| && IsDynamic(Segments(routePath)[i])
    requires forall j :: NamesAt(Segments(routePath), j, ParamName(Segments(routePath)[i])) ==>
      j >= |Segments(path)|
    ensures ParamName(Segments(routePath)[i]) !in Defined(RawParams(path, routePath))
  {
    var rs, k := Segments(routePath), ParamName(Segments(routePath)[i]);
    ParamsCharacterisation(path, routePath, k);
  }
}

/** The `@route` decorator (src/decorators/route.ts): every application
    appends one route definition to the module-level registry, with the
    parameter names of a string pattern listed in order of appearance. */
module Decorators {
  import opened Wrappers

  datatype HttpMethod = GET | POST | PUT | PATCH | DELETE | OPTIONS | HEAD

  /** A `URLPattern`, kept abstract: the one built from a pathname string, or
      one the caller constructed, known only by its identity. */
  datatype UrlPattern = FromPathname(pathname: string) | Constructed(id: nat)

  /** The `pattern` argument: `string | URLPattern`. */
  datatype PatternArg = PatternText(text: string) | PatternObject(url: UrlPattern)

  /** A registry entry; `controller` is the identity of the decorated
      class's constructor and `action` the decorated method's name. */
  datatype RouteDef = RouteDef(httpMethod: HttpMethod, pattern: UrlPattern, controller: nat, action: string,
                               paramOrder: Option<seq<string>>)

  predicate IsNameStart(c: char) {
    ('A' <= c <= 'Z') || ('a' <= c <= 'z') || c == '_'
  }

  predicate IsNameChar(c: char) {
    IsNameStart(c) || ('0' <= c <= '9')
  }

  /** `/:([A-Za-z_][A-Za-z0-9_]*)/` matches at `j`. */
  predicate MatchAt(p: string, j: int) {
    0 <= j && j + 1 < |p| && p[j] == ':' && IsNameStart(p[j + 1])
  }

  /** The end of the greedy `[A-Za-z0-9_]*` run starting at `i`. */
  function NameEnd(p: string, i: nat): (k: nat)
    requires i <= |p|
    ensures i <= k <= |p|
    ensures forall j :: i <= j < k ==> IsNameChar(p[j])
    ensures k < |p| ==> !IsNameChar(p[k])
    decreases |p| - i
  {
    if i < |p| && IsNameChar(p[i]) then NameEnd(p, i + 1) else i
  }

  /** The captured name of the match at `j`. */
  function NameAt(p: string, j: int): string
    requires MatchAt(p, j)
  {
    p[j + 1..NameEnd(p, j + 1)]
  }

  /** Each captured name is an identifier standing right after its `:`, and
      the longest one there: the character after it is not a name
      character. */
  lemma NameShape(p: string, j: int)
    requires MatchAt(p, j)
    ensures NameAt(p, j) != [] && IsNameStart(NameAt(p, j)[0])
    ensures forall i :: 0 <= i < |NameAt(p, j)| ==> IsNameChar(NameAt(p, j)[i])
    ensures j + 1 + |NameAt(p, j)| <= |p| && NameAt(p, j) == p[j + 1..j + 1 + |NameAt(p, j)|]
    ensures j + 1 + |NameAt(p, j)| == |p| || !IsNameChar(p[j + 1 + |NameAt(p, j)|])
  {
    assert NameAt(p, j)[0] == p[j + 1];
  }

  /** `re.exec(pattern)` with the global flag, searching from `lastIndex`:
      the first match at or after it. */
  function NextMatch(p: string, lastIndex: nat): (r: Option<nat>)
    ensures r.Some? ==> lastIndex <= r.value && MatchAt(p, r.value)
    ensures r.Some? ==> forall j :: lastIndex <= j < r.value ==> !MatchAt(p, j)
    ensures r.None? ==> forall j :: lastIndex <= j ==> !MatchAt(p, j)
    decreases |p| - lastIndex
  {
    if lastIndex + 1 >= |p| then None
    else if MatchAt(p, lastIndex) then Some(lastIndex)
    else NextMatch(p, lastIndex + 1)
  }

  /** The positions of the successive matches from `lastIndex`: after each
      match the search resumes where the name ends. */
  function MatchesFrom(p: string, lastIndex: nat): (ms: seq<nat>)
    requires lastIndex <= |p|
    ensures forall k :: 0 <= k < |ms| ==> lastIndex <= ms[k] && MatchAt(p, ms[k])
    ensures forall k, l :: 0 <= k < l < |ms| ==> ms[k] < ms[l]
    decreases |p| - lastIndex
  {
    match NextMatch(p, lastIndex)
    case None => []
    case Some(j) => [j] + MatchesFrom(p, NameEnd(p, j + 1))
  }

  /** The names captured from `lastIndex` on. */
  function NamesFrom(p: string, lastIndex: nat): (names: seq<string>)
    requires lastIndex <= |p|
    decreases |p| - lastIndex
  {
    match NextMatch(p, lastIndex)
    case None => []
    case Some(j) => [NameAt(p, j)] + NamesFrom(p, NameEnd(p, j + 1))
  }

  /** `extractParamOrderFromPattern(pattern)` as a value. */
  function ParamOrder(p: string): seq<string> {
    NamesFrom(p, 0)
  }

  lemma PushOne(names: seq<string>, name: string, rest: seq<string>)
    ensures names + ([name] + rest) == (names + [name]) + rest
  {
  }

  /** `extractParamOrderFromPattern`: the `while` loop over `re.exec`,
      pushing each captured name. */
  method ExtractParamOrder(pattern: string) returns (names: seq<string>)
    ensures names == ParamOrder(pattern)
  {
    names := [];
    var lastIndex: nat := 0;
    var m := NextMatch(pattern, lastIndex);
    while m.Some?
      invariant lastIndex <= |pattern|
      invariant m == NextMatch(pattern, lastIndex)
      invariant names + NamesFrom(pattern, lastIndex) == ParamOrder(pattern)
      decreases |pattern| - lastIndex
    {
      var j := m.value;
      var e := NameEnd(pattern, j + 1);
      assert NamesFrom(pattern, lastIndex) == [NameAt(pattern, j)] + NamesFrom(pattern, e);
      PushOne(names, NameAt(pattern, j), NamesFrom(pattern, e));
      names := names + [NameAt(pattern, j)];
      lastIndex := e;
      m := NextMatch(pattern, lastIndex);
    }
  }

  /** A `:` inside a name is impossible, so no match starts strictly inside
      the text a match consumes. */
  lemma NoMatchInsideName(p: string, j: nat, i: int)
    requires MatchAt(p, j) && j < i < NameEnd(p, j + 1)
    ensures !MatchAt(p, i)
  {
    assert IsNameChar(p[i]);
  }

  /** The scan misses nothing and invents nothing: the matches found from
      `lastIndex` are exactly the positions at or after it where a `:` is
      followed by a letter or `_`. */
  lemma {:induction false} MatchesExactly(p: string, lastIndex: nat, i: int)
    requires lastIndex <= |p|
    ensures i in MatchesFrom(p, lastIndex) <==> (lastIndex <= i && MatchAt(p, i))
    decreases |p| - lastIndex
  {
    match NextMatch(p, lastIndex)
    case None =>
    case Some(j) =>
      var e := NameEnd(p, j + 1);
      MatchesExactly(p, e, i);
      if lastIndex <= i && MatchAt(p, i) && i != j {
        if i < e {
          NoMatchInsideName(p, j, i);
        }
      }
  }

  /** The names are the captured names of the matches, one for one. */
  lemma {:induction false} NamesOfMatches(p: string, lastIndex: nat)
    requires lastIndex <= |p|
    ensures |NamesFrom(p, lastIndex)| == |MatchesFrom(p, lastIndex)|
    ensures forall k :: 0 <= k < |NamesFrom(p, lastIndex)| ==>
      NamesFrom(p, lastIndex)[k] == NameAt(p, MatchesFrom(p, lastIndex)[k])
    decreases |p| - lastIndex
  {
    match NextMatch(p, lastIndex)
    case None =>
    case Some(j) =>
      NamesOfMatches(p, NameEnd(p, j + 1));
  }

  /** Every `:name` token of the pattern, and nothing else, yields a name:
      the names are the maximal identifier runs after those `:`s, in the
      order in which they appear. */
  lemma ParamOrderCharacterisation(p: string)
    ensures |ParamOrder(p)| == |MatchesFrom(p, 0)|
    ensures forall k :: 0 <= k < |ParamOrder(p)| ==> ParamOrder(p)[k] == NameAt(p, MatchesFrom(p, 0)[k])
    ensures forall i :: i in MatchesFrom(p, 0) <==> MatchAt(p, i)
  {
    NamesOfMatches(p, 0);
    forall i ensures i in MatchesFrom(p, 0) <==> MatchAt(p, i) {
      MatchesExactly(p, 0, i);
    }
  }

  /** A `:` followed by anything but a letter or `_` contributes nothing. */
  lemma ColonWithoutName(p: string, i: int)
    requires 0 <= i < |p| && p[i] == ':' && (i + 1 == |p| || !IsNameStart(p[i + 1]))
    ensures i !in MatchesFrom(p, 0)
  {
    MatchesExactly(p, 0, i);
  }

  /** Dropping a prefix drops no more `:`s than it removes. */
  lemma ColonsShrink(p: string, a: nat, b: nat)
    requires a <= b <= |p|
    ensures multiset(p[b..])[':'] <= multiset(p[a..])[':']
  {
    assert p[a..] == p[a..b] + p[b..];
  }

  /** Dropping a `:` drops one. */
  lemma ColonDropped(p: string, j: nat)
    requires j < |p| && p[j] == ':'
    ensures multiset(p[j + 1..])[':'] + 1 == multiset(p[j..])[':']
  {
    assert p[j..] == [p[j]] + p[j + 1..];
  }

  /** There are no more matches than `:` characters from `lastIndex` on. */
  lemma {:induction false} CountFrom(p: string, lastIndex: nat)
    requires lastIndex <= |p|
    ensures |MatchesFrom(p, lastIndex)| <= multiset(p[lastIndex..])[':']
    decreases |p| - lastIndex
  {
    var m := NextMatch(p, lastIndex);
    if m.Some? {
      var j := m.value;
      var e := NameEnd(p, j + 1);
      assert |MatchesFrom(p, lastIndex)| == 1 + |MatchesFrom(p, e)|;
      CountFrom(p, e);
      ColonsShrink(p, j + 1, e);
      ColonDropped(p, j);
      ColonsShrink(p, lastIndex, j);
    }
  }

  /** The number of names is at most the number of `:` characters, so a
      pattern without `:` declares no parameters. */
  lemma CountBound(p: string)
    ensures |ParamOrder(p)| <= multiset(p)[':']
    ensures ':' !in p ==> ParamOrder(p) == []
  {
    NamesOfMatches(p, 0);
    CountFrom(p, 0);
    assert p[0..] == p;
  }

  /** The entry one application of `route(method, pattern)` appends:
      the pattern kept as given, or built from the string, and the
      parameter order only for a string pattern. */
  function Definition(httpMethod: HttpMethod, pattern: PatternArg, controller: nat, action: string): (d: RouteDef)
    ensures d.httpMethod == httpMethod && d.controller == controller && d.action == action
    ensures d.paramOrder.Some? <==> pattern.PatternText?
    ensures pattern.PatternText? ==>
      d.pattern == FromPathname(pattern.text) && d.paramOrder.value == ParamOrder(pattern.text)
    ensures pattern.PatternObject? ==> d.pattern == pattern.url
  {
    match pattern
    case PatternText(text) => RouteDef(httpMethod, FromPathname(text), controller, action, Some(ParamOrder(text)))
    case PatternObject(url) => RouteDef(httpMethod, url, controller, action, None)
  }

  /** Whether `new URLPattern({ pathname })` accepts a pathname; it throws a
      `TypeError` on one it rejects (such as `/(`). The pattern syntax is not
      modelled, so this is given. */
  type PathnameCheck = string -> bool

  /** The decorator call succeeds unless the pattern is a string that
      `URLPattern` rejects. */
  predicate Constructs(pattern: PatternArg, accepts: PathnameCheck) {
    pattern.PatternText? ==> accepts(pattern.text)
  }

  /** `routesRegistry`. */
  class Registry {
    var routes: seq<RouteDef>

    constructor()
      ensures routes == []
    {
      routes := [];
    }

    /** Applying `route(httpMethod, pattern)` to method `action` of the class
        `controller`: when the pattern can be built, exactly one entry is
        appended and the earlier ones are kept; when `new URLPattern` throws,
        the push is never reached and the registry is unchanged. */
    method Route(httpMethod: HttpMethod, pattern: PatternArg, controller: nat, action: string, accepts: PathnameCheck)
      returns (constructed: bool)
      modifies this
      ensures constructed <==> Constructs(pattern, accepts)
      ensures constructed ==> routes == old(routes) + [Definition(httpMethod, pattern, controller, action)]
      ensures !constructed ==> routes == old(routes)
    {
      var urlPattern: UrlPattern;
      var paramOrder: Option<seq<string>>;
      match pattern {
        case PatternText(text) =>
          if !accepts(text) {
            return false;
          }
          urlPattern := FromPathname(text);
          var names := ExtractParamOrder(text);
          paramOrder := Some(names);
        case PatternObject(url) =>
          urlPattern := url;
          paramOrder := None;
      }
      routes := routes + [RouteDef(httpMethod, urlPattern, controller, action, paramOrder)];
      constructed := true;
    }
  }
}

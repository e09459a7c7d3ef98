/** `getRegexRoute` (src/utils/getRegexRoute.ts): a route string such as
    `/users/[id]` becomes the anchored pattern `^/users/[^/]+$`. The pattern is
    modelled as its sequence of `/`-separated tokens, and `Accepts` is the set
    of strings the anchored pattern matches. */
module RegexRoute {
  import opened Strings

  /** One `/`-separated piece of the pattern: a literal (escaped, so it matches
      only itself) or `[^/]+`. */
  datatype Token = Literal(text: string) | Wild

  /** A dynamic segment: starts with `[` and ends with `]`. */
  predicate IsDynamic(seg: string) {
    StartsWith(seg, "[") && EndsWith(seg, "]")
  }

  lemma DynamicIsLong(seg: string)
    requires IsDynamic(seg)
    ensures |seg| >= 2 && seg[0] == '[' && seg[|seg| - 1] == ']'
  {
    assert seg[0] == seg[..1][0] == '[';
    assert seg[|seg| - 1] == seg[|seg| - 1..][0] == ']';
  }

  /** The token one route segment compiles to. */
  function SegmentToken(seg: string): Token {
    if seg == "" then Literal("")
    else if IsDynamic(seg) then Wild
    else Literal(seg)
  }

  /** No literal token holds a `/`. */
  predicate SlashFree(tokens: seq<Token>) {
    forall i :: 0 <= i < |tokens| && tokens[i].Literal? ==> '/' !in tokens[i].text
  }

  /** `getRegexRoute(route)`: one token per `/`-separated segment of the
      route, in order. */
  function GetRegexRoute(route: string): (tokens: seq<Token>)
    ensures |tokens| == |Split(route, '/')| >= 1
    ensures SlashFree(tokens)
  {
    var segs := Split(route, '/');
    seq(|segs|, i requires 0 <= i < |segs| => SegmentToken(segs[i]))
  }

  /** What one token matches: a literal itself, `[^/]+` a non-empty
      slash-free string. */
  predicate TokenAccepts(t: Token, w: string) {
    match t
    case Literal(x) => w == x
    case Wild => w != "" && '/' !in w
  }

  /** `regex.test(path)` for the anchored pattern `^t1/t2/.../tk$`: the whole
      path is the first token's match, a `/`, and a match of the rest. */
  predicate Accepts(tokens: seq<Token>, path: string)
    decreases |tokens|
  {
    if |tokens| == 0 then path == ""
    else if |tokens| == 1 then TokenAccepts(tokens[0], path)
    else
      exists i :: 0 <= i < |path| && path[i] == '/' &&
        TokenAccepts(tokens[0], path[..i]) && Accepts(tokens[1..], path[i + 1..])
  }

  /** What a route segment demands of the path part in its position: a
      dynamic one any non-empty part, any other one the identical part (so an
      empty route segment only an empty part). */
  predicate SegmentAccepts(seg: string, part: string) {
    if IsDynamic(seg) then part != "" else part == seg
  }

  /** The literal and wildcard tokens each accept only slash-free strings. */
  lemma TokenAcceptsSlashFree(tokens: seq<Token>, k: nat, w: string)
    requires k < |tokens| && SlashFree(tokens) && TokenAccepts(tokens[k], w)
    ensures '/' !in w
  {
  }

  /** Cutting a path at its first `/`. */
  lemma SplitAtFirstSlash(path: string, i: nat)
    requires i < |path| && path[i] == '/' && '/' !in path[..i]
    ensures Split(path, '/') == [path[..i]] + Split(path[i + 1..], '/')
  {
    assert path == path[..i] + [path[i]] + path[i + 1..];
    SplitConcat(path[..i], '/', path[i + 1..]);
    SplitSingle(path[..i], '/');
  }

  /** Each of `parts` is accepted by the token in its position. */
  predicate PartsAccepted(tokens: seq<Token>, parts: seq<string>) {
    |parts| == |tokens| && forall i :: 0 <= i < |tokens| ==> TokenAccepts(tokens[i], parts[i])
  }

  lemma PartsAcceptedCons(tokens: seq<Token>, p: string, ps: seq<string>)
    requires |tokens| >= 1
    ensures PartsAccepted(tokens, [p] + ps) <==>
      TokenAccepts(tokens[0], p) && PartsAccepted(tokens[1..], ps)
  {
    var parts := [p] + ps;
    if TokenAccepts(tokens[0], p) && PartsAccepted(tokens[1..], ps) {
      forall i | 0 <= i < |tokens| ensures TokenAccepts(tokens[i], parts[i]) {
        if i > 0 {
          assert tokens[i] == tokens[1..][i - 1] && parts[i] == ps[i - 1];
        }
      }
    }
    if PartsAccepted(tokens, parts) {
      forall i | 0 <= i < |tokens| - 1 ensures TokenAccepts(tokens[1..][i], ps[i]) {
        assert tokens[1..][i] == tokens[i + 1] && ps[i] == parts[i + 1];
      }
    }
  }

  /** For slash-free tokens, the pattern accepts a path exactly when the
      path has one `/`-part per token and each part matches its token. */
  lemma {:induction false} AcceptsByParts(tokens: seq<Token>, path: string)
    requires |tokens| >= 1 && SlashFree(tokens)
    ensures Accepts(tokens, path) <==> PartsAccepted(tokens, Split(path, '/'))
  {
    if |tokens| == 1 {
      SplitSingle(path, '/');
      if TokenAccepts(tokens[0], path) {
        TokenAcceptsSlashFree(tokens, 0, path);
      }
      if PartsAccepted(tokens, Split(path, '/')) {
        assert TokenAccepts(tokens[0], Split(path, '/')[0]);
      }
    } else {
      var rest := tokens[1..];
      assert SlashFree(rest) by {
        forall i | 0 <= i < |rest| && rest[i].Literal? ensures '/' !in rest[i].text {
          assert rest[i] == tokens[i + 1];
        }
      }
      if Accepts(tokens, path) {
        var i :| 0 <= i < |path| && path[i] == '/' &&
          TokenAccepts(tokens[0], path[..i]) && Accepts(rest, path[i + 1..]);
        TokenAcceptsSlashFree(tokens, 0, path[..i]);
        SplitAtFirstSlash(path, i);
        AcceptsByParts(rest, path[i + 1..]);
        PartsAcceptedCons(tokens, path[..i], Split(path[i + 1..], '/'));
      }
      if PartsAccepted(tokens, Split(path, '/')) {
        SplitSingle(path, '/');
        var i := FirstIndexOf(path, '/');
        SplitAtFirstSlash(path, i);
        PartsAcceptedCons(tokens, path[..i], Split(path[i + 1..], '/'));
        AcceptsByParts(rest, path[i + 1..]);
      }
    }
  }

  lemma TokenAcceptsSegment(seg: string, part: string)
    requires '/' !in part
    ensures TokenAccepts(SegmentToken(seg), part) <==> SegmentAccepts(seg, part)
  {
  }

  /** The characterisation of `getRegexRoute`: a path is accepted exactly when
      `path.split("/")` has as many parts as `route.split("/")` and each part
      meets its route segment. */
  lemma Characterisation(route: string, path: string)
    ensures Accepts(GetRegexRoute(route), path) <==>
      |Split(path, '/')| == |Split(route, '/')| &&
      forall i :: 0 <= i < |Split(route, '/')| ==>
        SegmentAccepts(Split(route, '/')[i], Split(path, '/')[i])
  {
    var tokens := GetRegexRoute(route);
    var segs, parts := Split(route, '/'), Split(path, '/');
    AcceptsByParts(tokens, path);
    assert Split(path, '/') == parts;
    if |parts| == |segs| {
      forall i | 0 <= i < |segs|
        ensures TokenAccepts(tokens[i], parts[i]) <==> SegmentAccepts(segs[i], parts[i])
      {
        TokenAcceptsSegment(segs[i], parts[i]);
      }
    }
  }

  /** Anchoring at the end: a path the pattern accepts stops being accepted
      when further segments are appended. */
  lemma ExtraSegmentsRejected(route: string, path: string, extra: string)
    requires Accepts(GetRegexRoute(route), path)
    ensures !Accepts(GetRegexRoute(route), path + "/" + extra)
  {
    Characterisation(route, path);
    Characterisation(route, path + "/" + extra);
    SplitConcat(path, '/', extra);
  }

  /** Every route accepts its own text: a dynamic segment accepts itself,
      being non-empty. */
  lemma RouteAcceptsItself(route: string)
    ensures Accepts(GetRegexRoute(route), route)
  {
    Characterisation(route, route);
    var segs := Split(route, '/');
    forall i | 0 <= i < |segs| ensures SegmentAccepts(segs[i], segs[i]) {
      if IsDynamic(segs[i]) {
        DynamicIsLong(segs[i]);
      }
    }
  }

  /** Segments are matched independently: appending a route segment and a
      path part keeps acceptance of the rest and adds the new segment's
      demand on the new part. */
  lemma AppendSegment(route: string, path: string, seg: string, part: string)
    requires '/' !in seg && '/' !in part
    ensures Accepts(GetRegexRoute(route + "/" + seg), path + "/" + part) <==>
      Accepts(GetRegexRoute(route), path) && SegmentAccepts(seg, part)
  {
    var r2, p2 := route + "/" + seg, path + "/" + part;
    SplitConcat(route, '/', seg);
    SplitConcat(path, '/', part);
    SplitSingle(seg, '/');
    SplitSingle(part, '/');
    Characterisation(route, path);
    Characterisation(r2, p2);
    var segs, parts := Split(route, '/'), Split(path, '/');
    assert Split(r2, '/') == segs + [seg];
    assert Split(p2, '/') == parts + [part];
    if Accepts(GetRegexRoute(r2), p2) {
      forall i | 0 <= i < |segs| ensures SegmentAccepts(segs[i], parts[i]) {
        assert (segs + [seg])[i] == segs[i] && (parts + [part])[i] == parts[i];
      }
      assert (segs + [seg])[|segs|] == seg && (parts + [part])[|segs|] == part;
    }
  }

  /** The root route accepts `/` only; the empty route accepts `""` only. */
  lemma RootAndEmptyRoutes(path: string)
    ensures Accepts(GetRegexRoute("/"), path) <==> path == "/"
    ensures Accepts(GetRegexRoute(""), path) <==> path == ""
  {
    RouteAcceptsItself("/");
    RouteAcceptsItself("");
    assert "/" == "" + "/" + "";
    SplitConcat("", '/', "");
    Characterisation("/", path);
    Characterisation("", path);
    var parts := Split(path, '/');
    if |parts| == 2 && parts[0] == "" && parts[1] == "" {
      JoinSplit(path, '/');
    }
    if |parts| == 1 && parts[0] == "" {
      JoinSplit(path, '/');
    }
  }

  /** `/users/[id]` accepts `/users/v` for every non-empty slash-free `v`,
      and not `/users/`. */
  lemma DynamicSegmentExample(v: string)
    requires '/' !in v
    ensures Accepts(GetRegexRoute("/users/[id]"), "/users/" + v) <==> v != ""
  {
    assert "/users/[id]" == "/users" + "/" + "[id]";
    assert "/users/" + v == "/users" + "/" + v;
    AppendSegment("/users", "/users", "[id]", v);
    RouteAcceptsItself("/users");
    assert IsDynamic("[id]");
  }

  /** Literal segments are escaped: `a.b` accepts itself and not `axb`. */
  lemma EscapedLiteralExample()
    ensures Accepts(GetRegexRoute("a.b"), "a.b")
    ensures !Accepts(GetRegexRoute("a.b"), "axb")
  {
    SplitSingle("a.b", '/');
    SplitSingle("axb", '/');
    Characterisation("a.b", "a.b");
    Characterisation("a.b", "axb");
  }
}

/** `pathNamedParams` (src/utils/pathNamedParams.ts): the non-empty
    `/`-segments of the route and of the path are zipped by position, and every
    bracketed route segment `[name]` records the path segment in its position
    under `name` (`undefined`, here `None`, where the path is shorter). */
module NamedParams {
  import opened Wrappers
  import opened Strings
  import opened RegexRoute

  /** `s.split("/").filter(Boolean)`. */
  function Segments(s: string): (segs: seq<string>)
    ensures forall i :: 0 <= i < |segs| ==> segs[i] != "" && '/' !in segs[i]
  {
    NonEmptyParts(Split(s, '/'));
    NonEmpty(Split(s, '/'))
  }

  /** `filter(Boolean)` keeps slash-free pieces slash-free. */
  lemma {:induction false} NonEmptyParts(xs: seq<string>)
    requires forall i :: 0 <= i < |xs| ==> '/' !in xs[i]
    ensures forall i :: 0 <= i < |NonEmpty(xs)| ==> '/' !in NonEmpty(xs)[i]
  {
    if xs != [] {
      NonEmptyParts(xs[1..]);
    }
  }

  /** `seg.slice(1, -1)` of a bracketed segment: the name between the
      brackets. */
  function ParamName(seg: string): (name: string)
    requires IsDynamic(seg)
    ensures |name| == |seg| - 2 && seg == "[" + name + "]"
  {
    DynamicIsLong(seg);
    seg[1..|seg| - 1]
  }

  /** `pathSegments[i]`: `None` beyond the end. */
  function At(ps: seq<string>, i: nat): (r: Option<string>)
    ensures r.Some? <==> i < |ps|
    ensures r.Some? ==> r.value == ps[i]
  {
    if i < |ps| then Some(ps[i]) else None
  }

  /** The one key a plain object (`{}`) does not take as an own property:
      assigning to it calls the prototype setter, which ignores a string or
      `undefined`. */
  const ProtoKey: string := "__proto__"

  /** `obj[key] = value` on an object created by `{}`. */
  function SetProperty(obj: map<string, Option<string>>, key: string, value: Option<string>): map<string, Option<string>> {
    if key == ProtoKey then obj else obj[key := value]
  }

  /** The record once the `forEach` has visited the route segments `rs`, in
      order, against the path segments `ps`. */
  function Fill(rs: seq<string>, ps: seq<string>): map<string, Option<string>>
  {
    if rs == [] then map[]
    else
      var m := Fill(rs[..|rs| - 1], ps);
      var seg := rs[|rs| - 1];
      if IsDynamic(seg) then SetProperty(m, ParamName(seg), At(ps, |rs| - 1)) else m
  }

  /** `pathNamedParams(path, route)` as a value. */
  function RawParams(path: string, route: string): map<string, Option<string>> {
    Fill(Segments(route), Segments(path))
  }

  /** `pathNamedParams`: the `forEach` over the route segments, filling the
      record in place. */
  method PathNamedParams(path: string, route: string) returns (params: map<string, Option<string>>)
    ensures params == RawParams(path, route)
  {
    params := map[];
    var pathSegments := Segments(path);
    var routeSegments := Segments(route);
    for i := 0 to |routeSegments|
      invariant params == Fill(routeSegments[..i], pathSegments)
    {
      var seg := routeSegments[i];
      assert routeSegments[..i + 1][..i] == routeSegments[..i];
      if StartsWith(seg, "[") && EndsWith(seg, "]") {
        var paramName := ParamName(seg);
        params := SetProperty(params, paramName, At(pathSegments, i));
      }
    }
    assert routeSegments[..|routeSegments|] == routeSegments;
  }

  /** The route segment at position `i` is `[k]` and sets the own property
      `k` of the record. */
  predicate NamesAt(rs: seq<string>, i: int, k: string) {
    0 <= i < |rs| && IsDynamic(rs[i]) && ParamName(rs[i]) == k && k != ProtoKey
  }

  /** The key set is exactly the set of bracketed route segments with the
      brackets stripped, `__proto__` excepted. */
  lemma {:induction false} FillKeys(rs: seq<string>, ps: seq<string>, k: string)
    ensures k in Fill(rs, ps) <==> exists i :: NamesAt(rs, i, k)
  {
    if rs != [] {
      var front := rs[..|rs| - 1];
      FillKeys(front, ps, k);
      if exists i :: NamesAt(front, i, k) {
        var i :| NamesAt(front, i, k);
        assert front[i] == rs[i];
        assert NamesAt(rs, i, k);
      }
      var last := rs[|rs| - 1];
      if IsDynamic(last) && ParamName(last) == k && k != ProtoKey {
        assert NamesAt(rs, |rs| - 1, k);
      }
      if exists i :: NamesAt(rs, i, k) {
        var i :| NamesAt(rs, i, k);
        if i < |rs| - 1 {
          assert front[i] == rs[i];
          assert NamesAt(front, i, k);
        } else {
          assert rs[|rs| - 1] == rs[i];
        }
      }
    }
  }

  /** Each parameter holds the path segment in the position of the LAST route
      segment naming it (a repeated name is overwritten), and `None` where
      that position is past the end of the path; `[__proto__]` sets nothing. */
  lemma {:induction false} FillLastWins(rs: seq<string>, ps: seq<string>, i: nat)
    requires i < |rs| && IsDynamic(rs[i])
    requires forall j :: i < j < |rs| ==> !NamesAt(rs, j, ParamName(rs[i]))
    ensures ParamName(rs[i]) in Fill(rs, ps) <==> ParamName(rs[i]) != ProtoKey
    ensures ParamName(rs[i]) != ProtoKey ==> Fill(rs, ps)[ParamName(rs[i])] == At(ps, i)
  {
    ProtoNeverKey(rs, ps);
    if i < |rs| - 1 {
      var front := rs[..|rs| - 1];
      forall j | i < j < |front| ensures !NamesAt(front, j, ParamName(front[i])) {
        assert !NamesAt(rs, j, ParamName(rs[i]));
      }
      FillLastWins(front, ps, i);
      assert !NamesAt(rs, |rs| - 1, ParamName(rs[i]));
    }
  }

  /** No route makes `__proto__` a key of the record. */
  lemma ProtoNeverKey(rs: seq<string>, ps: seq<string>)
    ensures ProtoKey !in Fill(rs, ps)
  {
    FillKeys(rs, ps, ProtoKey);
  }

  /** Position `i` is the LAST route segment naming `k`. */
  predicate LastNamesAt(rs: seq<string>, i: int, k: string) {
    NamesAt(rs, i, k) && forall j :: i < j < |rs| ==> !NamesAt(rs, j, k)
  }

  /** Every key of the record comes from the last route segment naming it,
      and holds the path segment in that position. */
  lemma {:induction false} FillLastNaming(rs: seq<string>, ps: seq<string>, k: string) returns (i: nat)
    requires k in Fill(rs, ps)
    ensures LastNamesAt(rs, i, k) && Fill(rs, ps)[k] == At(ps, i)
  {
    ProtoNeverKey(rs, ps);
    var front, last := rs[..|rs| - 1], rs[|rs| - 1];
    if IsDynamic(last) && ParamName(last) == k {
      i := |rs| - 1;
    } else {
      i := FillLastNaming(front, ps, k);
      assert front[i] == rs[i];
      forall j | i < j < |rs| ensures !NamesAt(rs, j, k) {
        if j < |front| {
          assert front[j] == rs[j];
          assert !NamesAt(front, j, k);
        }
      }
    }
  }

  /** Path segments beyond the route's length are never looked at. */
  lemma {:induction false} FillIgnoresExtra(rs: seq<string>, ps: seq<string>, extra: seq<string>)
    requires |rs| <= |ps|
    ensures Fill(rs, ps + extra) == Fill(rs, ps)
  {
    if rs != [] {
      FillIgnoresExtra(rs[..|rs| - 1], ps, extra);
      assert (ps + extra)[|rs| - 1] == ps[|rs| - 1];
    }
  }

  /** A route without bracketed segments (other than `[__proto__]`) yields
      `{}`. */
  lemma NoBracketsNoParams(path: string, route: string)
    requires forall i :: 0 <= i < |Segments(route)| ==>
      !IsDynamic(Segments(route)[i]) || ParamName(Segments(route)[i]) == ProtoKey
    ensures RawParams(path, route) == map[]
  {
    var rs := Segments(route);
    forall k ensures k !in RawParams(path, route) {
      FillKeys(rs, Segments(path), k);
    }
  }

  /** Empty segments are dropped, so leading and trailing slashes do not
      matter to either argument. */
  lemma SlashesIrrelevant(s: string)
    ensures Segments("/" + s) == Segments(s)
    ensures Segments(s + "/") == Segments(s)
  {
    assert "/" + s == "" + "/" + s;
    SplitConcat("", '/', s);
    NonEmptyConcat([""], Split(s, '/'));
    assert s + "/" == s + "/" + "";
    SplitConcat(s, '/', "");
    NonEmptyConcat(Split(s, '/'), [""]);
  }

  lemma EmptyArguments()
    ensures RawParams("", "") == map[]
  {
  }

  /** `("/users/123", "/users/[id]")` yields `{ id: "123" }`; so does any
      static first segment and any value. */
  lemma SingleParamExample(a: string, v: string)
    requires a != "" && v != "" && '/' !in a && '/' !in v && !IsDynamic(a)
    ensures RawParams("/" + a + "/" + v, "/" + a + "/[id]") == map["id" := Some(v)]
  {
    SegmentsOf(a, v);
    SegmentsOf(a, "[id]");
    assert "/" + a + "/[id]" == "/" + a + "/" + "[id]";
    var rs := [a, "[id]"];
    assert rs[..1] == [a] && [a][..0] == [];
    assert Fill([a], [a, v]) == map[];
    assert IsDynamic("[id]") && ParamName("[id]") == "id";
    assert Fill(rs, [a, v]) == map["id" := Some(v)];
  }

  /** The segments of `/a/b` for slash-free, non-empty `a` and `b`. */
  lemma SegmentsOf(a: string, b: string)
    requires a != "" && b != "" && '/' !in a && '/' !in b
    ensures Segments("/" + a + "/" + b) == [a, b]
  {
    var parts := ["", a, b];
    assert parts[1..] == [a, b] && parts[1..][1..] == [b];
    assert Join(parts[1..], '/') == a + "/" + b;
    assert Join(parts, '/') == "/" + a + "/" + b;
    SplitJoin(parts, '/');
    assert NonEmpty([b]) == [b] by {
      assert [b][1..] == [];
    }
    assert NonEmpty(parts) == NonEmpty([a, b]) == [a] + NonEmpty([b]);
  }
}

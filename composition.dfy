/** Page composition shared by `viewEngine` (src/viewEngine.ts) and
    `Ten._handleRequest` (src/ten.ts): the first `{{content}}` of a template is
    replaced by what it wraps, layouts are applied from the deepest to the root
    (so the root-most layout ends up outermost), and afterwards the first
    `{{key}}` of each JSON key, in key order, is replaced by its value. */
module Composition {
  import opened Wrappers
  import opened Strings
  import opened Files
  import opened Handlers

  const ContentPlaceholder: string := "{{content}}"

  /** The template marker of one JSON key. */
  function Placeholder(key: string): string {
    "{{" + key + "}}"
  }

  // ---------------------------------------------------------------------------
  // layouts

  /** The templates `texts` wrapped around `inner`, `texts[0]` outermost:
      every level replaces its first `{{content}}` with the levels below. */
  function Nest(texts: seq<string>, inner: string): string
    decreases |texts|
  {
    if texts == [] then inner
    else ReplaceFirst(texts[0], ContentPlaceholder, Nest(texts[1..], inner))
  }

  /** `Deno.readTextFileSync` of every path: `None` when any read throws. */
  function ReadAll(fs: FileSystem, paths: seq<string>): (r: Option<seq<string>>)
    ensures r.Some? <==> forall i :: 0 <= i < |paths| ==> ReadText(fs, paths[i]).Some?
    ensures r.Some? ==> |r.value| == |paths|
    ensures r.Some? ==> forall i :: 0 <= i < |paths| ==> ReadText(fs, paths[i]) == Some(r.value[i])
  {
    if paths == [] then Some([])
    else
      var rest := ReadAll(fs, paths[1..]);
      assert forall i :: 1 <= i < |paths| ==> paths[i] == paths[1..][i - 1];
      match ReadText(fs, paths[0])
      case None => None
      case Some(t) =>
        if rest.None? then None else Some([t] + rest.value)
  }

  /** The layout files at `paths` wrapped around `inner`, or `None` when one
      of them cannot be read. */
  function Layered(fs: FileSystem, paths: seq<string>, inner: string): Option<string> {
    match ReadAll(fs, paths)
    case None => None
    case Some(texts) => Some(Nest(texts, inner))
  }

  /** The descending layout loop: from the last path down to the first, read
      the layout and put the page so far in its first `{{content}}`. A read
      that throws ends the loop (`None`). */
  method WrapInLayouts(fs: FileSystem, paths: seq<string>, inner: string) returns (r: Option<string>)
    ensures r == Layered(fs, paths, inner)
  {
    var current := inner;
    var i := |paths|;
    while i > 0
      invariant 0 <= i <= |paths|
      invariant ReadAll(fs, paths[i..]).Some?
      invariant current == Nest(ReadAll(fs, paths[i..]).value, inner)
    {
      i := i - 1;
      var layoutContent := ReadText(fs, paths[i]);
      if layoutContent.None? {
        return None;
      }
      assert paths[i..][1..] == paths[i + 1..];
      current := ReplaceFirst(layoutContent.value, ContentPlaceholder, current);
    }
    assert paths[0..] == paths;
    return Some(current);
  }

  /** The text of a template before its first `{{content}}`. */
  function Head(t: string): string
    requires Contains(t, ContentPlaceholder)
  {
    var i := IndexOfFrom(t, ContentPlaceholder, 0);
    if i.Some? then t[..i.value] else t
  }

  /** The text of a template after its first `{{content}}`. */
  function Tail(t: string): string
    requires Contains(t, ContentPlaceholder)
  {
    var i := IndexOfFrom(t, ContentPlaceholder, 0);
    if i.Some? then t[i.value + |ContentPlaceholder|..] else t
  }

  predicate AllHavePlaceholder(texts: seq<string>) {
    forall i :: 0 <= i < |texts| ==> Contains(texts[i], ContentPlaceholder)
  }

  /** The heads of `texts`, outermost first. */
  function Heads(texts: seq<string>): string
    requires AllHavePlaceholder(texts)
  {
    if texts == [] then "" else Head(texts[0]) + Heads(texts[1..])
  }

  /** The tails of `texts`, innermost first. */
  function Tails(texts: seq<string>): string
    requires AllHavePlaceholder(texts)
  {
    if texts == [] then "" else Tails(texts[1..]) + Tail(texts[0])
  }

  /** Wrapping once around `x` puts it between the head and the tail. */
  lemma WrapShape(t: string, x: string)
    requires Contains(t, ContentPlaceholder)
    ensures ReplaceFirst(t, ContentPlaceholder, x) == Head(t) + x + Tail(t)
  {
    var i: nat :| i <= |t| && OccursAt(t, ContentPlaceholder, i);
  }

  /** The shape of a composed page: when every layout holds `{{content}}`,
      the innermost content sits between the layouts' heads in outer-to-inner
      order and their tails in inner-to-outer order. */
  lemma {:induction false} NestShape(texts: seq<string>, inner: string)
    requires AllHavePlaceholder(texts)
    ensures Nest(texts, inner) == Heads(texts) + inner + Tails(texts)
  {
    if texts != [] {
      var rest := texts[1..];
      assert AllHavePlaceholder(rest) by {
        forall i | 0 <= i < |rest| ensures Contains(rest[i], ContentPlaceholder) {
          assert rest[i] == texts[i + 1];
        }
      }
      var t, n := texts[0], Nest(rest, inner);
      calc {
        Nest(texts, inner);
        ReplaceFirst(t, ContentPlaceholder, n);
        { WrapShape(t, n); }
        Head(t) + n + Tail(t);
        { NestShape(rest, inner); }
        Head(t) + (Heads(rest) + inner + Tails(rest)) + Tail(t);
        (Head(t) + Heads(rest)) + inner + (Tails(rest) + Tail(t));
        Heads(texts) + inner + Tails(texts);
      }
    }
  }

  /** The first template is outermost: the composed text begins with its
      head. */
  lemma OutermostFirst(texts: seq<string>, inner: string)
    requires AllHavePlaceholder(texts) && texts != []
    ensures StartsWith(Nest(texts, inner), Head(texts[0]))
  {
    var h, rest := Head(texts[0]), Heads(texts[1..]) + inner + Tails(texts);
    calc {
      Nest(texts, inner);
      { NestShape(texts, inner); }
      Heads(texts) + inner + Tails(texts);
      (h + Heads(texts[1..])) + inner + Tails(texts);
      h + rest;
    }
    PrefixOfConcat(h, rest);
  }

  lemma PrefixOfConcat(h: string, x: string)
    ensures StartsWith(h + x, h)
  {
    assert (h + x)[..|h|] == h;
  }

  /** Only the first `{{content}}` is replaced: a later one survives in the
      result. */
  lemma LaterPlaceholderKept(a: string, b: string, x: string)
    requires forall j: nat :: j < |a| ==> !OccursAt(a + ContentPlaceholder + b, ContentPlaceholder, j)
    requires Contains(b, ContentPlaceholder)
    ensures ReplaceFirst(a + ContentPlaceholder + b, ContentPlaceholder, x) == a + x + b
    ensures Contains(ReplaceFirst(a + ContentPlaceholder + b, ContentPlaceholder, x), ContentPlaceholder)
  {
    ReplaceFirstAt(a, ContentPlaceholder, b, x);
    ContainsSuffix(a + x, b, ContentPlaceholder);
  }

  // ---------------------------------------------------------------------------
  // placeholders

  /** The `keys.forEach` over a JSON body: for each pair in key order, the
      first `{{key}}` of the page so far is replaced by the value. */
  function Substitute(page: string, pairs: JsonObject): string
    decreases |pairs|
  {
    if pairs == [] then page
    else
      var n := |pairs| - 1;
      ReplaceFirst(Substitute(page, pairs[..n]), Placeholder(pairs[n].0), pairs[n].1)
  }

  /** The `forEach` loop, reassigning the page for every key. */
  method FillPlaceholders(page: string, pairs: JsonObject) returns (r: string)
    ensures r == Substitute(page, pairs)
  {
    r := page;
    for i := 0 to |pairs|
      invariant r == Substitute(page, pairs[..i])
    {
      var (key, value) := pairs[i];
      assert pairs[..i + 1][..i] == pairs[..i];
      r := ReplaceFirst(r, Placeholder(key), value);
    }
    assert pairs[..|pairs|] == pairs;
  }

  /** A page holding none of the keys' placeholders comes back unchanged. */
  lemma {:induction false} SubstituteUnchanged(page: string, pairs: JsonObject)
    requires forall j :: 0 <= j < |pairs| ==> !Contains(page, Placeholder(pairs[j].0))
    ensures Substitute(page, pairs) == page
  {
    if pairs != [] {
      var n := |pairs| - 1;
      forall j | 0 <= j < n ensures !Contains(page, Placeholder(pairs[..n][j].0)) {
        assert pairs[..n][j] == pairs[j];
      }
      SubstituteUnchanged(page, pairs[..n]);
    }
  }

  /** One key fills its first placeholder with its value. */
  lemma SubstituteOne(a: string, key: string, b: string, value: string)
    requires forall j: nat :: j < |a| ==> !OccursAt(a + Placeholder(key) + b, Placeholder(key), j)
    ensures Substitute(a + Placeholder(key) + b, [(key, value)]) == a + value + b
  {
    var pairs := [(key, value)];
    assert pairs[..0] == [];
    ReplaceFirstAt(a, Placeholder(key), b, value);
  }
}

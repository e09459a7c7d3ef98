/** `toSlug` (src/utils/toSlug.ts): a hyphen between each lower-case letter
    and the upper-case letter after it, every run of white space and
    underscores turned into one hyphen, then lower case. ASCII letters and
    ASCII white space only. */
module Slug {
  import opened Strings

  /** `[\s_]` on ASCII: space, tab, line feed, vertical tab, form feed,
      carriage return, and `_`. */
  predicate IsSeparator(c: char) {
    c == ' ' || c == '\t' || c == '\n' || c == '\U{000B}' || c == '\U{000C}' || c == '\r' || c == '_'
  }

  /** `s.replace(/([a-z])([A-Z])/g, "$1-$2")`. A match ends in an upper-case
      letter, which cannot start the next match, so the matches are exactly
      the adjacent lower-upper pairs. */
  function Hyphenate(s: string): string {
    if |s| < 2 then s
    else [s[0]] + Seam(s[0], s[1]) + Hyphenate(s[1..])
  }

  /** What goes between two adjacent characters. */
  function Seam(x: char, y: char): string {
    if IsAsciiLower(x) && IsAsciiUpper(y) then "-" else ""
  }

  /** `s` without its leading separators. */
  function DropSeparators(s: string): (t: string)
    ensures |t| <= |s|
    ensures t == s[|s| - |t|..]
    ensures t != [] ==> !IsSeparator(t[0])
  {
    if s != [] && IsSeparator(s[0]) then DropSeparators(s[1..]) else s
  }

  /** `s.replace(/[\s_]+/g, "-")`: each maximal run of separators becomes a
      single `-`. */
  function CollapseSeparators(s: string): (t: string)
    ensures forall i :: 0 <= i < |t| ==> !IsSeparator(t[i])
    decreases |s|
  {
    if s == [] then []
    else if IsSeparator(s[0]) then "-" + CollapseSeparators(DropSeparators(s[1..]))
    else [s[0]] + CollapseSeparators(s[1..])
  }

  /** `toSlug(text)`. */
  function ToSlug(text: string): (slug: string)
    ensures forall i :: 0 <= i < |slug| ==> !IsAsciiUpper(slug[i]) && !IsSeparator(slug[i])
  {
    var t := CollapseSeparators(Hyphenate(text));
    LowerKeepsNonSeparators(t);
    ToLower(t)
  }

  lemma LowerKeepsNonSeparators(t: string)
    requires forall i :: 0 <= i < |t| ==> !IsSeparator(t[i])
    ensures forall i :: 0 <= i < |ToLower(t)| ==> !IsSeparator(ToLower(t)[i])
  {
    forall i | 0 <= i < |t| ensures !IsSeparator(ToLower(t)[i]) {
      assert ToLower(t)[i] == LowerChar(t[i]);
    }
  }

  /** A hyphen goes exactly where a lower-case letter meets an upper-case
      one: hyphenating a concatenation hyphenates both parts and adds a `-`
      at the seam when it is such a pair. */
  lemma {:induction false} HyphenateConcat(a: string, b: string)
    requires a != [] && b != []
    ensures Hyphenate(a + b) == Hyphenate(a) + Seam(a[|a| - 1], b[0]) + Hyphenate(b)
  {
    var ab := a + b;
    if |a| == 1 {
      assert ab[1..] == b;
    } else {
      var a' := a[1..];
      assert ab[1..] == a' + b;
      HyphenateConcat(a', b);
      calc {
        Hyphenate(ab);
        [a[0]] + Seam(a[0], a[1]) + Hyphenate(a' + b);
        [a[0]] + Seam(a[0], a[1]) + (Hyphenate(a') + Seam(a[|a| - 1], b[0]) + Hyphenate(b));
        Hyphenate(a) + Seam(a[|a| - 1], b[0]) + Hyphenate(b);
      }
    }
  }

  /** Text without upper-case letters is left as it is. */
  lemma {:induction false} HyphenateNoUpper(s: string)
    requires NoUpper(s)
    ensures Hyphenate(s) == s
  {
    if |s| >= 2 {
      HyphenateNoUpper(s[1..]);
    }
  }

  /** Text without separators is left as it is. */
  lemma {:induction false} CollapseNoSeparators(s: string)
    requires forall i :: 0 <= i < |s| ==> !IsSeparator(s[i])
    ensures CollapseSeparators(s) == s
  {
    if s != [] {
      CollapseNoSeparators(s[1..]);
    }
  }

  lemma {:induction false} DropAllSeparators(run: string, b: string)
    requires forall i :: 0 <= i < |run| ==> IsSeparator(run[i])
    requires b == [] || !IsSeparator(b[0])
    ensures DropSeparators(run + b) == b
  {
    if run != [] {
      assert (run + b)[1..] == run[1..] + b;
      DropAllSeparators(run[1..], b);
    } else {
      assert run + b == b;
    }
  }

  /** A run of separators after a separator-free word becomes one `-`,
      and the text after the run is collapsed on its own. */
  lemma {:induction false} CollapseRun(a: string, run: string, b: string)
    requires forall i :: 0 <= i < |a| ==> !IsSeparator(a[i])
    requires run != [] && forall i :: 0 <= i < |run| ==> IsSeparator(run[i])
    requires b == [] || !IsSeparator(b[0])
    ensures CollapseSeparators(a + run + b) == a + "-" + CollapseSeparators(b)
  {
    if a == [] {
      assert a + run + b == run + b;
      assert (run + b)[1..] == run[1..] + b;
      DropAllSeparators(run[1..], b);
    } else {
      assert (a + run + b)[1..] == a[1..] + run + b;
      CollapseRun(a[1..], run, b);
      assert a == [a[0]] + a[1..];
    }
  }

  /** Text without upper-case letters is its own lower case. */
  lemma LowerIdentity(s: string)
    requires NoUpper(s)
    ensures ToLower(s) == s
  {
    forall i | 0 <= i < |s| ensures ToLower(s)[i] == s[i] {
    }
  }

  /** A slug is kept as it is: text without upper-case letters and
      separators (such as `to-slug`, or `""`) is its own slug. */
  lemma AlreadySlug(s: string)
    requires forall i :: 0 <= i < |s| ==> !IsAsciiUpper(s[i]) && !IsSeparator(s[i])
    ensures ToSlug(s) == s
  {
    HyphenateNoUpper(s);
    CollapseNoSeparators(s);
    LowerIdentity(s);
  }

  /** On ASCII text `toSlug` is idempotent: its output has no upper-case
      letter and no separator left to rewrite. */
  lemma Idempotent(text: string)
    ensures ToSlug(ToSlug(text)) == ToSlug(text)
  {
    AlreadySlug(ToSlug(text));
  }

  predicate NoUpper(s: string) {
    forall i :: 0 <= i < |s| ==> !IsAsciiUpper(s[i])
  }

  lemma NoUpperConcat(x: string, y: string)
    requires NoUpper(x) && NoUpper(y)
    ensures NoUpper(x + y)
  {
    assert forall i :: |x| <= i < |x + y| ==> (x + y)[i] == y[i - |x|];
  }

  predicate AllLower(s: string) {
    forall i :: 0 <= i < |s| ==> IsAsciiLower(s[i])
  }

  /** Lower-case letters are neither upper-case letters nor separators. */
  lemma LowerWord(s: string)
    requires AllLower(s)
    ensures NoUpper(s)
    ensures forall i :: 0 <= i < |s| ==> !IsSeparator(s[i])
  {
  }

  lemma ToLowerConcat(x: string, y: string)
    ensures ToLower(x + y) == ToLower(x) + ToLower(y)
  {
    assert forall i :: 0 <= i < |x| ==> (x + y)[i] == x[i];
    assert forall i :: |x| <= i < |x + y| ==> (x + y)[i] == y[i - |x|];
  }

  /** A capital letter before lower-case text gets no hyphen. */
  lemma HyphenateCapitalised(c: char, b: string)
    requires IsAsciiUpper(c) && AllLower(b)
    ensures Hyphenate([c] + b) == [c] + b
  {
    if b != [] {
      assert ([c] + b)[1..] == b;
        LowerWord(b);
      HyphenateNoUpper(b);
    }
  }

  /** The hyphen of a camel-case seam, and no other change. */
  lemma HyphenateCamel(a: string, c: char, b: string)
    requires a != [] && AllLower(a) && IsAsciiUpper(c) && AllLower(b)
    ensures Hyphenate(a + [c] + b) == a + "-" + [c] + b
  {
    var cb := [c] + b;
    assert a + [c] + b == a + cb;
    assert cb[0] == c;
    LowerWord(a);
    HyphenateConcat(a, cb);
    HyphenateNoUpper(a);
    HyphenateCapitalised(c, b);
  }

  /** Camel case: `toSlug` gives `to-slug`; a lower-case word followed by a
      capitalised one is split by a hyphen and lower-cased. */
  lemma CamelCase(a: string, c: char, b: string)
    requires a != [] && AllLower(a) && IsAsciiUpper(c) && AllLower(b)
    ensures ToSlug(a + [c] + b) == a + "-" + [LowerChar(c)] + b
  {
    var h := a + "-" + [c] + b;
    calc {
      ToSlug(a + [c] + b);
      ToLower(CollapseSeparators(Hyphenate(a + [c] + b)));
      { HyphenateCamel(a, c, b); }
      ToLower(CollapseSeparators(h));
      { LowerWord(a);
        LowerWord(b);
        assert forall i :: 0 <= i < |h| ==> !IsSeparator(h[i]);
        CollapseNoSeparators(h); }
      ToLower(h);
      { ToLowerConcat(a + "-" + [c], b);
        ToLowerConcat(a + "-", [c]);
        ToLowerConcat(a, "-"); }
      ToLower(a) + ToLower("-") + ToLower([c]) + ToLower(b);
      { LowerIdentity(a);
        LowerIdentity(b);
        assert ToLower("-") == "-"; }
      a + "-" + [LowerChar(c)] + b;
    }
  }

  lemma SeparatorsNoUpper(run: string)
    requires forall i :: 0 <= i < |run| ==> IsSeparator(run[i])
    ensures NoUpper(run)
  {
  }

  /** Words joined by white space or underscores (`to slug`, `to_slug`) are
      joined by one hyphen. */
  lemma SeparatedWords(a: string, run: string, b: string)
    requires AllLower(a) && AllLower(b)
    requires run != [] && forall i :: 0 <= i < |run| ==> IsSeparator(run[i])
    ensures ToSlug(a + run + b) == a + "-" + b
  {
    LowerWord(a);
    LowerWord(b);
    SeparatorsNoUpper(run);
    NoUpperConcat(a, run);
    NoUpperConcat(a + run, b);
    HyphenateNoUpper(a + run + b);
    CollapseRun(a, run, b);
    CollapseNoSeparators(b);
    NoUpperConcat(a, "-");
    NoUpperConcat(a + "-", b);
    LowerIdentity(a + "-" + b);
  }

  /** Hyphenating keeps the first and the last character. */
  lemma {:induction false} HyphenateEnds(x: string)
    requires x != []
    ensures Hyphenate(x) != [] && Hyphenate(x)[0] == x[0]
    ensures Hyphenate(x)[|Hyphenate(x)| - 1] == x[|x| - 1]
  {
    if |x| >= 2 {
      HyphenateEnds(x[1..]);
    }
  }

  /** Leading separators of `u + v` lie within `u` when `u` ends in a
      non-separator. */
  lemma {:induction false} DropConcat(u: string, v: string)
    requires u != [] && !IsSeparator(u[|u| - 1])
    ensures DropSeparators(u) != [] && DropSeparators(u + v) == DropSeparators(u) + v
  {
    assert (u + v)[0] == u[0];
    if IsSeparator(u[0]) {
      var u' := u[1..];
      assert u' != [] && u'[|u'| - 1] == u[|u| - 1];
      assert (u + v)[1..] == u' + v;
      DropConcat(u', v);
    }
  }

  /** The first step of collapsing `u + v` when `u` starts with a
      separator: both collapse to `-` followed by the collapse of the text
      after the leading run, which still ends in `u`'s last character. */
  lemma SeparatorStep(u: string, v: string) returns (w: string)
    requires u != [] && IsSeparator(u[0]) && !IsSeparator(u[|u| - 1])
    ensures w != [] && |w| < |u| && w[|w| - 1] == u[|u| - 1]
    ensures CollapseSeparators(u + v) == "-" + CollapseSeparators(w + v)
    ensures CollapseSeparators(u) == "-" + CollapseSeparators(w)
  {
    var u' := u[1..];
    assert (u + v)[0] == u[0] && (u + v)[1..] == u' + v;
    assert u' != [] && u'[|u'| - 1] == u[|u| - 1];
    DropConcat(u', v);
    w := DropSeparators(u');
    assert w == u'[|u'| - |w|..];
  }

  /** The first step of collapsing `u + v` when `u` starts with a
      non-separator, which is kept. */
  lemma KeptStep(u: string, v: string)
    requires u != [] && !IsSeparator(u[0])
    ensures CollapseSeparators(u + v) == [u[0]] + CollapseSeparators(u[1..] + v)
    ensures CollapseSeparators(u) == [u[0]] + CollapseSeparators(u[1..])
  {
    assert (u + v)[0] == u[0] && (u + v)[1..] == u[1..] + v;
  }

  /** No run of separators crosses the end of a text that ends in a
      non-separator, so such a text is collapsed independently of what
      follows it. */
  lemma {:induction false} CollapseConcat(u: string, v: string)
    requires u == [] || !IsSeparator(u[|u| - 1])
    ensures CollapseSeparators(u + v) == CollapseSeparators(u) + CollapseSeparators(v)
    decreases |u|, 1
  {
    if u == [] {
      assert u + v == v;
    } else if IsSeparator(u[0]) {
      CollapseConcatRun(u, v);
    } else {
      CollapseConcatKept(u, v);
    }
  }

  lemma {:induction false} CollapseConcatRun(u: string, v: string)
    requires u != [] && IsSeparator(u[0]) && !IsSeparator(u[|u| - 1])
    ensures CollapseSeparators(u + v) == CollapseSeparators(u) + CollapseSeparators(v)
    decreases |u|, 0
  {
    var w := SeparatorStep(u, v);
    var cw, cv := CollapseSeparators(w), CollapseSeparators(v);
    calc {
      CollapseSeparators(u + v);
      "-" + CollapseSeparators(w + v);
      { CollapseConcat(w, v); }
      "-" + (cw + cv);
      ("-" + cw) + cv;
      CollapseSeparators(u) + cv;
    }
  }

  lemma {:induction false} CollapseConcatKept(u: string, v: string)
    requires u != [] && !IsSeparator(u[0]) && !IsSeparator(u[|u| - 1])
    ensures CollapseSeparators(u + v) == CollapseSeparators(u) + CollapseSeparators(v)
    decreases |u|, 0
  {
    var r := u[1..];
    assert r == [] || r[|r| - 1] == u[|u| - 1];
    CollapseConcat(r, v);
    KeptStep(u, v);
    var c, cr, cv := [u[0]], CollapseSeparators(r), CollapseSeparators(v);
    assert c + (cr + cv) == (c + cr) + cv;
  }

  /** `toSlug` works part by part: the slug of `x + y`, where `x` does not
      end in a separator, is the slug of `x`, a hyphen exactly at a
      lower-to-upper seam, and the slug of `y`. */
  lemma ToSlugConcat(x: string, y: string)
    requires x != [] && y != [] && !IsSeparator(x[|x| - 1])
    ensures ToSlug(x + y) == ToSlug(x) + Seam(x[|x| - 1], y[0]) + ToSlug(y)
  {
    var sm := Seam(x[|x| - 1], y[0]);
    var hx, hy := Hyphenate(x), Hyphenate(y);
    HyphenateConcat(x, y);
    HyphenateEnds(x);
    var u := hx + sm;
    assert Hyphenate(x + y) == u + hy;
    assert u[|u| - 1] == '-' || u[|u| - 1] == x[|x| - 1];
    CollapseConcat(u, hy);
    CollapseConcat(hx, sm);
    CollapseNoSeparators(sm);
    var cx, cy := CollapseSeparators(hx), CollapseSeparators(hy);
    ToLowerConcat(cx + sm, cy);
    ToLowerConcat(cx, sm);
    LowerIdentity(sm);
  }

  /** Separators get no hyphen, and neither does the seam after them. */
  lemma HyphenateAfterRun(run: string, y: string)
    requires run != [] && forall i :: 0 <= i < |run| ==> IsSeparator(run[i])
    requires y != []
    ensures Hyphenate(run + y) == run + Hyphenate(y)
  {
    var sm, hy := Seam(run[|run| - 1], y[0]), Hyphenate(y);
    HyphenateConcat(run, y);
    SeparatorsNoUpper(run);
    HyphenateNoUpper(run);
    assert sm == "";
    calc {
      Hyphenate(run + y);
      Hyphenate(run) + sm + hy;
      run + sm + hy;
      { assert run + sm == run; }
      run + hy;
    }
  }

  /** A leading run of separators collapses to one `-`. */
  lemma CollapseLeadingRun(run: string, h: string)
    requires run != [] && forall i :: 0 <= i < |run| ==> IsSeparator(run[i])
    requires h != [] && !IsSeparator(h[0])
    ensures CollapseSeparators(run + h) == "-" + CollapseSeparators(h)
  {
    var t := run + h;
    calc {
      CollapseSeparators(t);
      { assert t[0] == run[0]; }
      "-" + CollapseSeparators(DropSeparators(t[1..]));
      { assert t[1..] == run[1..] + h;
        DropAllSeparators(run[1..], h); }
      "-" + CollapseSeparators(h);
    }
  }

  /** A run of separators at the start becomes one hyphen before the slug of
      the rest. */
  lemma LeadingSeparators(run: string, y: string)
    requires run != [] && forall i :: 0 <= i < |run| ==> IsSeparator(run[i])
    requires y != [] && !IsSeparator(y[0])
    ensures ToSlug(run + y) == "-" + ToSlug(y)
  {
    var hy := Hyphenate(y);
    HyphenateAfterRun(run, y);
    HyphenateEnds(y);
    CollapseLeadingRun(run, hy);
    var cy := CollapseSeparators(hy);
    ToLowerConcat("-", cy);
    assert ToLower("-") == "-";
  }

  /** Two parts joined by white space or underscores are joined by one
      hyphen, and each part is slugged on its own. */
  lemma SeparatorJoin(a: string, run: string, b: string)
    requires a != [] && !IsSeparator(a[|a| - 1])
    requires run != [] && forall i :: 0 <= i < |run| ==> IsSeparator(run[i])
    requires b != [] && !IsSeparator(b[0])
    ensures ToSlug(a + run + b) == ToSlug(a) + "-" + ToSlug(b)
  {
    assert a + run + b == a + (run + b);
    ToSlugConcat(a, run + b);
    LeadingSeparators(run, b);
  }

  /** A capitalised word is lower-cased and nothing else. */
  lemma Capitalised(c: char, b: string)
    requires IsAsciiUpper(c) && AllLower(b)
    ensures ToSlug([c] + b) == [LowerChar(c)] + b
  {
    HyphenateCapitalised(c, b);
    LowerWord(b);
    CollapseNoSeparators([c] + b);
    ToLowerConcat([c], b);
    LowerIdentity(b);
  }

  /** A word that `toSlug` only lower-cases: not empty, no separator, and
      no lower-case letter directly before an upper-case one (`to`, `Slug`,
      `Slug-Example`). */
  predicate Plain(w: string) {
    w != [] && PlainFrom(w, 0)
  }

  /** `w[i..]` has no separator and no lower-to-upper seam. */
  predicate PlainFrom(w: string, i: nat)
    requires i < |w|
    decreases |w| - i
  {
    !IsSeparator(w[i]) &&
    (i + 1 < |w| ==> Seam(w[i], w[i + 1]) == "" && PlainFrom(w, i + 1))
  }

  /** What joins two words: a run of separators, or nothing at a
      lower-to-upper seam as in `toSlug`. */
  predicate Break(w: string, run: string, v: string) {
    if run == [] then w != [] && v != [] && Seam(w[|w| - 1], v[0]) == "-"
    else forall i :: 0 <= i < |run| ==> IsSeparator(run[i])
  }

  /** The words `ws` joined by the breaks `rs`: `ws[0] + rs[0] + ws[1] + …`. */
  function Joined(ws: seq<string>, rs: seq<string>): string
    requires |ws| == |rs| + 1
  {
    JoinedFrom(ws, rs, 0)
  }

  function JoinedFrom(ws: seq<string>, rs: seq<string>, k: nat): string
    requires |ws| == |rs| + 1 && k <= |rs|
    decreases |rs| - k
  {
    if k == |rs| then ws[k] else ws[k] + rs[k] + JoinedFrom(ws, rs, k + 1)
  }

  /** Every word is plain, and each break fits the words around it. */
  predicate WellJoined(ws: seq<string>, rs: seq<string>)
    requires |ws| == |rs| + 1
  {
    WellJoinedFrom(ws, rs, 0)
  }

  predicate WellJoinedFrom(ws: seq<string>, rs: seq<string>, k: nat)
    requires |ws| == |rs| + 1 && k <= |rs|
    decreases |rs| - k
  {
    Plain(ws[k]) &&
    (k < |rs| ==> Break(ws[k], rs[k], ws[k + 1]) && WellJoinedFrom(ws, rs, k + 1))
  }

  /** The lower-cased words joined by single hyphens. */
  function Hyphenated(ws: seq<string>): string
    requires ws != []
  {
    HyphenatedFrom(ws, 0)
  }

  function HyphenatedFrom(ws: seq<string>, k: nat): string
    requires k < |ws|
    decreases |ws| - k
  {
    if k == |ws| - 1 then ToLower(ws[k]) else ToLower(ws[k]) + "-" + HyphenatedFrom(ws, k + 1)
  }

  lemma {:induction false} HyphenatePlain(w: string, i: nat)
    requires i < |w| && PlainFrom(w, i)
    ensures Hyphenate(w[i..]) == w[i..]
    decreases |w| - i
  {
    if |w| - i >= 2 {
      HyphenatePlain(w, i + 1);
      var t := w[i..];
      assert t[0] == w[i] && t[1] == w[i + 1] && t[1..] == w[i + 1..];
      assert [t[0]] + t[1..] == t;
    }
  }

  lemma {:induction false} PlainNoSeparators(w: string, i: nat)
    requires i < |w| && PlainFrom(w, i)
    ensures forall j :: i <= j < |w| ==> !IsSeparator(w[j])
    decreases |w| - i
  {
    if i + 1 < |w| {
      PlainNoSeparators(w, i + 1);
    }
  }

  /** A plain word is only lower-cased. */
  lemma PlainSlug(w: string)
    requires Plain(w)
    ensures ToSlug(w) == ToLower(w)
  {
    HyphenatePlain(w, 0);
    PlainNoSeparators(w, 0);
    assert w[0..] == w;
    CollapseNoSeparators(w);
  }

  lemma JoinedStarts(ws: seq<string>, rs: seq<string>, k: nat)
    requires |ws| == |rs| + 1 && k <= |rs| && ws[k] != []
    ensures JoinedFrom(ws, rs, k) != [] && JoinedFrom(ws, rs, k)[0] == ws[k][0]
  {
  }

  /** `toSlug` on words joined by separator runs or camel-case seams gives
      the lower-cased words joined by one hyphen each: `to_slug_example`,
      `To Slug Example`, `toSlugExample`, `ToSlugExample` and
      `to_Slug-Example Test` are all of this shape. */
  lemma SlugOfJoined(text: string, ws: seq<string>, rs: seq<string>)
    requires |ws| == |rs| + 1 && WellJoined(ws, rs)
    requires text == Joined(ws, rs)
    ensures ToSlug(text) == Hyphenated(ws)
  {
    SlugOfJoinedFrom(ws, rs, 0);
  }

  lemma {:induction false} SlugOfJoinedFrom(ws: seq<string>, rs: seq<string>, k: nat)
    requires |ws| == |rs| + 1 && k <= |rs| && WellJoinedFrom(ws, rs, k)
    ensures ToSlug(JoinedFrom(ws, rs, k)) == HyphenatedFrom(ws, k)
    decreases |rs| - k
  {
    if k == |rs| {
      PlainSlug(ws[k]);
    } else {
      var w, run, b := ws[k], rs[k], JoinedFrom(ws, rs, k + 1);
      SlugOfJoinedFrom(ws, rs, k + 1);
      JoinedStarts(ws, rs, k + 1);
      PlainNoSeparators(ws[k + 1], 0);
      JoinStep(w, run, b);
    }
  }

  /** One more word before a text that starts with a plain word. */
  lemma JoinStep(w: string, run: string, b: string)
    requires Plain(w) && b != [] && !IsSeparator(b[0])
    requires Break(w, run, b)
    ensures ToSlug(w + run + b) == ToLower(w) + "-" + ToSlug(b)
  {
    PlainSlug(w);
    PlainNoSeparators(w, 0);
    if run == [] {
      assert w + run + b == w + b;
      ToSlugConcat(w, b);
    } else {
      SeparatorJoin(w, run, b);
    }
  }

  /* The examples below state one input each as a requirement on the
     parameter `text`; the words and breaks of that input, and their
     hyphenated lower case, are worked out in the helper lemmas beside them. */

  lemma CamelLowered()
    ensures Hyphenated(["to", "Slug", "Example"]) == "to-slug-example"
  {
  }

  lemma CapitalisedLowered()
    ensures Hyphenated(["To", "Slug", "Example"]) == "to-slug-example"
  {
  }

  lemma LowerLowered()
    ensures Hyphenated(["to", "slug", "example"]) == "to-slug-example"
  {
  }

  lemma MixedLowered()
    ensures Hyphenated(["to", "Slug-Example", "Test"]) == "to-slug-example-test"
  {
  }

  lemma CamelCaseParts()
    ensures WellJoined(["to", "Slug", "Example"], ["", ""]) && Joined(["to", "Slug", "Example"], ["", ""]) == "toSlugExample"
  {
  }

  /** `toSlugExample` becomes `to-slug-example`: a hyphen at each camel-case seam. */
  lemma CamelCaseExample(text: string)
    requires text == "toSlugExample"
    ensures ToSlug(text) == "to-slug-example"
  {
    CamelCaseParts();
    CamelLowered();
    SlugOfJoined(text, ["to", "Slug", "Example"], ["", ""]);
  }

  lemma PascalCaseParts()
    ensures WellJoined(["To", "Slug", "Example"], ["", ""]) && Joined(["To", "Slug", "Example"], ["", ""]) == "ToSlugExample"
  {
  }

  /** `ToSlugExample` becomes `to-slug-example`: the leading capital gets no hyphen. */
  lemma PascalCaseExample(text: string)
    requires text == "ToSlugExample"
    ensures ToSlug(text) == "to-slug-example"
  {
    PascalCaseParts();
    CapitalisedLowered();
    SlugOfJoined(text, ["To", "Slug", "Example"], ["", ""]);
  }

  lemma SpacedWordsParts()
    ensures WellJoined(["To", "Slug", "Example"], [" ", " "]) && Joined(["To", "Slug", "Example"], [" ", " "]) == "To Slug Example"
  {
  }

  /** `To Slug Example` becomes `to-slug-example`. */
  lemma SpacedWordsExample(text: string)
    requires text == "To Slug Example"
    ensures ToSlug(text) == "to-slug-example"
  {
    SpacedWordsParts();
    CapitalisedLowered();
    SlugOfJoined(text, ["To", "Slug", "Example"], [" ", " "]);
  }

  lemma UnderscoresParts()
    ensures WellJoined(["to", "slug", "example"], ["_", "_"]) && Joined(["to", "slug", "example"], ["_", "_"]) == "to_slug_example"
  {
  }

  /** `to_slug_example` becomes `to-slug-example`. */
  lemma UnderscoresExample(text: string)
    requires text == "to_slug_example"
    ensures ToSlug(text) == "to-slug-example"
  {
    UnderscoresParts();
    LowerLowered();
    SlugOfJoined(text, ["to", "slug", "example"], ["_", "_"]);
  }

  lemma MixedSeparatorsParts()
    ensures WellJoined(["to", "Slug-Example", "Test"], ["_", " "])
  {
  }

  lemma MixedSeparatorsText()
    ensures Joined(["to", "Slug-Example", "Test"], ["_", " "]) == "to_Slug-Example Test"
  {
  }

  /** `to_Slug-Example Test` becomes `to-slug-example-test`: the existing
      hyphen stays, and a capital after a separator or a hyphen gets none. */
  lemma MixedSeparatorsExample(text: string)
    requires text == "to_Slug-Example Test"
    ensures ToSlug(text) == "to-slug-example-test"
  {
    MixedSeparatorsParts();
    MixedSeparatorsText();
    MixedLowered();
    SlugOfJoined(text, ["to", "Slug-Example", "Test"], ["_", " "]);
  }
}

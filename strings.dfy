/** The JavaScript string builtins the router relies on, stated over
    `seq<char>`: `split` on a one-character separator, `filter(Boolean)`,
    `startsWith`/`endsWith`, `indexOf`, `replace` with a string pattern (first
    occurrence only), the two `replaceAll` calls the router makes, and ASCII
    `toUpperCase`/`toLowerCase`. */
module Strings {
  import opened Wrappers

  // ---------------------------------------------------------------------------
  // split / join

  /** `s.split(sep)`: the maximal separator-free pieces of `s`, in order.
      The empty string splits into one empty piece. */
  function Split(s: string, sep: char): (parts: seq<string>)
    ensures |parts| >= 1
    ensures forall i :: 0 <= i < |parts| ==> sep !in parts[i]
  {
    if s == [] then [""]
    else
      var rest := Split(s[1..], sep);
      if s[0] == sep then [""] + rest
      else [[s[0]] + rest[0]] + rest[1..]
  }

  /** `parts.join(sep)`. */
  function Join(parts: seq<string>, sep: char): string
    requires |parts| >= 1
  {
    if |parts| == 1 then parts[0] else parts[0] + [sep] + Join(parts[1..], sep)
  }

  /** Splitting at a separator splits both sides independently. */
  lemma {:induction false} SplitConcat(a: string, sep: char, b: string)
    ensures Split(a + [sep] + b, sep) == Split(a, sep) + Split(b, sep)
  {
    if a == [] {
      assert a + [sep] + b == [sep] + b;
      assert ([sep] + b)[1..] == b;
    } else {
      assert (a + [sep] + b)[1..] == a[1..] + [sep] + b;
      SplitConcat(a[1..], sep, b);
      if a[0] != sep {
        var rest := Split(a[1..] + [sep] + b, sep);
        assert rest[0] == Split(a[1..], sep)[0];
        assert rest[1..] == Split(a[1..], sep)[1..] + Split(b, sep);
      }
    }
  }

  /** A string splits into a single piece exactly when it holds no separator,
      and that piece is the string itself. */
  lemma {:induction false} SplitSingle(s: string, sep: char)
    ensures (|Split(s, sep)| == 1) == (sep !in s)
    ensures sep !in s ==> Split(s, sep) == [s]
  {
    if s != [] {
      SplitSingle(s[1..], sep);
      assert [s[0]] + s[1..] == s;
    }
  }

  /** Joining the pieces of a split gives back the string. */
  lemma {:induction false} JoinSplit(s: string, sep: char)
    ensures Join(Split(s, sep), sep) == s
  {
    if sep in s {
      var i := FirstIndexOf(s, sep);
      assert s == s[..i] + [sep] + s[i+1..];
      SplitConcat(s[..i], sep, s[i+1..]);
      SplitSingle(s[..i], sep);
      JoinSplit(s[i+1..], sep);
      assert Split(s, sep)[1..] == Split(s[i+1..], sep);
    } else {
      SplitSingle(s, sep);
    }
  }

  /** Splitting a join of separator-free pieces gives back the pieces. */
  lemma {:induction false} SplitJoin(parts: seq<string>, sep: char)
    requires |parts| >= 1
    requires forall i :: 0 <= i < |parts| ==> sep !in parts[i]
    ensures Split(Join(parts, sep), sep) == parts
  {
    SplitSingle(parts[0], sep);
    if |parts| > 1 {
      SplitJoin(parts[1..], sep);
      SplitConcat(parts[0], sep, Join(parts[1..], sep));
      assert parts == [parts[0]] + parts[1..];
    }
  }

  /** The position of the first `sep` in `s`. */
  lemma {:induction false} FirstIndexOf(s: string, sep: char) returns (i: nat)
    requires sep in s
    ensures i < |s| && s[i] == sep && sep !in s[..i]
  {
    if s[0] == sep {
      i := 0;
    } else {
      assert sep in s[1..];
      var j := FirstIndexOf(s[1..], sep);
      i := j + 1;
      assert s[..i] == [s[0]] + s[1..][..j];
    }
  }

  // ---------------------------------------------------------------------------
  // filter(Boolean)

  /** `xs.filter(Boolean)` on strings: drops the empty ones, keeping order. */
  function NonEmpty(xs: seq<string>): (ys: seq<string>)
    ensures |ys| <= |xs|
    ensures forall i :: 0 <= i < |ys| ==> ys[i] != ""
  {
    if xs == [] then []
    else if xs[0] == "" then NonEmpty(xs[1..])
    else [xs[0]] + NonEmpty(xs[1..])
  }

  lemma {:induction false} NonEmptyConcat(a: seq<string>, b: seq<string>)
    ensures NonEmpty(a + b) == NonEmpty(a) + NonEmpty(b)
  {
    if a == [] {
      assert a + b == b;
    } else {
      assert (a + b)[1..] == a[1..] + b;
      NonEmptyConcat(a[1..], b);
    }
  }

  // ---------------------------------------------------------------------------
  // prefixes, suffixes and occurrences

  predicate StartsWith(s: string, p: string) {
    |p| <= |s| && s[..|p|] == p
  }

  predicate EndsWith(s: string, p: string) {
    |p| <= |s| && s[|s| - |p|..] == p
  }

  /** `p` occurs in `s` starting at index `i`. */
  predicate OccursAt(s: string, p: string, i: nat) {
    i + |p| <= |s| && s[i..i + |p|] == p
  }

  /** `s.includes(p)`. */
  predicate Contains(s: string, p: string) {
    exists i: nat :: i <= |s| && OccursAt(s, p, i)
  }

  /** `s.indexOf(p, k)`: the least index from `k` on where `p` occurs. */
  function IndexOfFrom(s: string, p: string, k: nat): (r: Option<nat>)
    decreases |s| - k
    ensures r.Some? ==> k <= r.value && OccursAt(s, p, r.value)
    ensures r.Some? ==> forall j: nat :: k <= j < r.value ==> !OccursAt(s, p, j)
    ensures r.None? ==> forall j: nat :: k <= j ==> !OccursAt(s, p, j)
  {
    if k + |p| > |s| then None
    else if s[k..k + |p|] == p then Some(k)
    else IndexOfFrom(s, p, k + 1)
  }

  /** `s.replace(p, r)` with a string pattern: only the FIRST occurrence of `p`
      is replaced; without one, `s` is returned unchanged. (Replacement
      patterns such as `$&` in `r` are not interpreted.) */
  function ReplaceFirst(s: string, p: string, r: string): (t: string)
    ensures !Contains(s, p) ==> t == s
    ensures forall i: nat {:trigger OccursAt(s, p, i)} ::
      OccursAt(s, p, i) && (forall j: nat :: j < i ==> !OccursAt(s, p, j)) ==>
        t == s[..i] + r + s[i + |p|..]
  {
    match IndexOfFrom(s, p, 0)
    case None => s
    case Some(i) => s[..i] + r + s[i + |p|..]
  }

  /** `p` found at `|a|` with no earlier occurrence is the one replaced. */
  lemma ReplaceFirstAt(a: string, p: string, b: string, r: string)
    requires forall j: nat :: j < |a| ==> !OccursAt(a + p + b, p, j)
    ensures ReplaceFirst(a + p + b, p, r) == a + r + b
  {
    var s := a + p + b;
    assert s[..|a|] == a && s[|a|..|a| + |p|] == p && s[|a| + |p|..] == b;
    assert OccursAt(s, p, |a|);
  }

  /** An occurrence after a given position keeps `s` containing `p`. */
  lemma ContainsSuffix(a: string, b: string, p: string)
    requires Contains(b, p)
    ensures Contains(a + b, p)
  {
    var i: nat :| i <= |b| && OccursAt(b, p, i);
    assert (a + b)[|a| + i..|a| + i + |p|] == b[i..i + |p|];
    assert OccursAt(a + b, p, |a| + i);
  }

  // ---------------------------------------------------------------------------
  // the two replaceAll calls of the router

  /** `s.replaceAll("//", "/")`: scanning left to right, each non-overlapping
      `//` becomes `/` (so `///` becomes `//`). */
  function ReplaceAllDoubleSlash(s: string): (t: string)
    ensures |t| <= |s|
    ensures |s| > 0 ==> |t| > 0 && t[0] == s[0]
  {
    if |s| >= 2 && s[0] == '/' && s[1] == '/' then "/" + ReplaceAllDoubleSlash(s[2..])
    else if s == [] then []
    else [s[0]] + ReplaceAllDoubleSlash(s[1..])
  }

  /** The collapse keeps a final `/w` when `w` holds no slash. */
  lemma {:induction false} ReplaceAllDoubleSlashKeepsLastPart(x: string, w: string)
    requires '/' !in w
    ensures EndsWith(ReplaceAllDoubleSlash(x + "/" + w), "/" + w)
  {
    var s := x + "/" + w;
    if x == [] {
      assert s == "/" + w;
      KeepsSlashFree(w);
      if w != [] {
        assert s[1] == w[0];
        assert s[1..] == w;
      }
    } else if x[0] == '/' && |x| >= 2 && x[1] == '/' {
      assert s[2..] == x[2..] + "/" + w;
      ReplaceAllDoubleSlashKeepsLastPart(x[2..], w);
    } else if x == "/" {
      assert s == "//" + w;
      assert s[2..] == w;
      KeepsSlashFree(w);
    } else {
      assert s[1..] == x[1..] + "/" + w;
      assert !(|s| >= 2 && s[0] == '/' && s[1] == '/');
      ReplaceAllDoubleSlashKeepsLastPart(x[1..], w);
    }
  }

  lemma {:induction false} KeepsSlashFree(w: string)
    requires '/' !in w
    ensures ReplaceAllDoubleSlash(w) == w
  {
    if w != [] {
      KeepsSlashFree(w[1..]);
      assert [w[0]] + w[1..] == w;
    }
  }

  /** `s.replaceAll("\\", "/")`. */
  function ReplaceAllBackslash(s: string): (t: string)
    ensures |t| == |s|
    ensures '\\' !in t
    ensures forall i :: 0 <= i < |s| && s[i] != '\\' ==> t[i] == s[i]
    ensures forall i :: 0 <= i < |s| && s[i] == '\\' ==> t[i] == '/'
  {
    seq(|s|, i requires 0 <= i < |s| => if s[i] == '\\' then '/' else s[i])
  }

  // ---------------------------------------------------------------------------
  // ASCII case mapping

  predicate IsAsciiUpper(c: char) { 'A' <= c <= 'Z' }

  predicate IsAsciiLower(c: char) { 'a' <= c <= 'z' }

  function UpperChar(c: char): char {
    if IsAsciiLower(c) then (c as int - 32) as char else c
  }

  function LowerChar(c: char): char {
    if IsAsciiUpper(c) then (c as int + 32) as char else c
  }

  /** `s.toUpperCase()` on the ASCII letters. */
  function ToUpper(s: string): (t: string)
    ensures |t| == |s|
    ensures forall i :: 0 <= i < |s| ==> !IsAsciiLower(t[i])
    ensures forall i :: 0 <= i < |s| && IsAsciiLower(s[i]) ==> t[i] as int == s[i] as int - 32
    ensures forall i :: 0 <= i < |s| && !IsAsciiLower(s[i]) ==> t[i] == s[i]
  {
    seq(|s|, i requires 0 <= i < |s| => UpperChar(s[i]))
  }

  /** `s.toLowerCase()` on the ASCII letters. */
  function ToLower(s: string): (t: string)
    ensures |t| == |s|
    ensures forall i :: 0 <= i < |s| ==> !IsAsciiUpper(t[i])
    ensures forall i :: 0 <= i < |s| && IsAsciiUpper(s[i]) ==> t[i] as int == s[i] as int + 32
    ensures forall i :: 0 <= i < |s| && !IsAsciiUpper(s[i]) ==> t[i] == s[i]
  {
    seq(|s|, i requires 0 <= i < |s| => LowerChar(s[i]))
  }
}

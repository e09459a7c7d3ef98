/** The filesystem as the router sees it through `Deno.lstatSync` and
    `Deno.readTextFileSync`: a map from canonical path to file. */
module Files {
  import opened Wrappers
  import opened Strings

  /** A file that exists: readable with its text, or present but unreadable
      (so `lstat` succeeds and a read throws). */
  datatype File = Readable(text: string) | Unreadable

  /** Keyed by canonical path: the operating system treats a run of `/` like a
      single `/` and skips a `.` segment, so `a//b`, `./a/b` and `a/./b` name
      the same file as `a/b`. */
  type FileSystem = map<string, File>

  /** `p` with every run of `/` reduced to one `/`. */
  function CollapseSlashes(p: string): string {
    if |p| >= 2 && p[0] == '/' && p[1] == '/' then CollapseSlashes(p[1..])
    else if p == [] then []
    else [p[0]] + CollapseSlashes(p[1..])
  }

  /** `p` (without runs of `/`) with its `.` segments removed; `atStart` says
      whether a segment begins at `p[0]`. */
  function DropDotSegments(p: string, atStart: bool): string {
    if p == [] then []
    else if atStart && p == "." then []
    else if atStart && |p| >= 2 && p[0] == '.' && p[1] == '/' then DropDotSegments(p[2..], true)
    else [p[0]] + DropDotSegments(p[1..], p[0] == '/')
  }

  /** The key under which `p` is found. */
  function Canonical(p: string): string {
    DropDotSegments(CollapseSlashes(p), true)
  }

  /** `Deno.lstatSync(p)` does not throw. */
  predicate Exists(fs: FileSystem, p: string) {
    Canonical(p) in fs
  }

  /** `Deno.readTextFileSync(p)`: the text, or `None` where the call throws
      (missing or unreadable file). */
  function ReadText(fs: FileSystem, p: string): (r: Option<string>)
    ensures r.Some? ==> Exists(fs, p)
  {
    if Canonical(p) in fs && fs[Canonical(p)].Readable? then Some(fs[Canonical(p)].text) else None
  }

  /** `replaceAll("//", "/")` leaves the collapsed form as it is. */
  lemma {:induction false} CollapseAfterReplace(p: string)
    ensures CollapseSlashes(ReplaceAllDoubleSlash(p)) == CollapseSlashes(p)
  {
    if |p| >= 2 && p[0] == '/' && p[1] == '/' {
      var z := p[2..];
      CollapseAfterReplace(z);
      assert p[1..] == "/" + z;
      var c := ReplaceAllDoubleSlash(z);
      assert ReplaceAllDoubleSlash(p) == "/" + c;
      assert ("/" + c)[1..] == c;
      assert ("/" + z)[1..] == z;
    } else if p != [] {
      CollapseAfterReplace(p[1..]);
      var c := ReplaceAllDoubleSlash(p[1..]);
      assert ReplaceAllDoubleSlash(p) == [p[0]] + c;
      assert ([p[0]] + c)[1..] == c;
    }
  }

  /** `replaceAll("//", "/")` does not change which file a path names: the
      collapsed layout path that the view engine reads is the file that was
      found under the uncollapsed one. */
  lemma CollapsedNamesSameFile(p: string)
    ensures Canonical(ReplaceAllDoubleSlash(p)) == Canonical(p)
  {
    CollapseAfterReplace(p);
  }

  /** A doubled `/` anywhere names the same file as a single one. */
  lemma {:induction false} DoubleSlashSameFile(x: string, y: string)
    ensures CollapseSlashes(x + "//" + y) == CollapseSlashes(x + "/" + y)
  {
    if x == [] {
      assert ("//" + y)[1..] == "/" + y;
    } else {
      var z, w := x[1..] + "//" + y, x[1..] + "/" + y;
      assert (x + "//" + y)[1..] == z && (x + "//" + y)[0] == x[0];
      assert (x + "/" + y)[1..] == w && (x + "/" + y)[0] == x[0];
      assert z[0] == w[0];
      DoubleSlashSameFile(x[1..], y);
    }
  }

  /** A leading `./` names the same file as the relative path without it. */
  lemma DotPrefixSameFile(p: string)
    requires p == [] || p[0] != '/'
    ensures Canonical("./" + p) == Canonical(p)
  {
    var q := "./" + p;
    assert q[1..] == "/" + p && ("/" + p)[1..] == p;
    assert CollapseSlashes("/" + p) == "/" + CollapseSlashes(p);
    assert CollapseSlashes(q) == "./" + CollapseSlashes(p);
    assert ("./" + CollapseSlashes(p))[2..] == CollapseSlashes(p);
  }
}

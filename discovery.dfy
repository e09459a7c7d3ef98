/** What `routeFactory` (src/routeFactory.ts) and `routerEngine`
    (src/routerEngine.ts) share: the entries `walk` yields, the route text
    of a directory, and the code transpiled from its `route.ts`. */
module Discovery {
  import opened Wrappers
  import opened Strings
  import opened Files

  /** One entry yielded by `walk(appPath, { includeDirs: true })`. */
  datatype WalkEntry = WalkEntry(path: string, isDirectory: bool)

  /** The bundler applied to a source path: its output, or `None` where it
      throws. */
  type Transpiler = string -> Option<string>

  const PageFile: string := "page.html"
  const SourceFile: string := "route.ts"

  predicate IsDotOrSlash(c: char) {
    c == '.' || c == '/'
  }

  /** The length of the greedy `[.\/]*` at the start of `p`. */
  function LeadingRun(p: string): (k: nat)
    ensures k <= |p|
    ensures forall i :: 0 <= i < k ==> IsDotOrSlash(p[i])
    ensures k < |p| ==> !IsDotOrSlash(p[k])
  {
    if p != [] && IsDotOrSlash(p[0]) then 1 + LeadingRun(p[1..]) else 0
  }

  /** `p.replace(/^[.\/]*app/, "")`. As `a` is neither `.` nor `/`, the
      pattern can only match the whole leading run followed by `app`. */
  function StripAppPrefix(p: string): string {
    var k := LeadingRun(p);
    if StartsWith(p[k..], "app") then p[k + 3..] else p
  }

  /** The route text of a directory: the prefix removed, `\` turned into
      `/`, and `""` replaced by `/`. */
  function RouteString(entryPath: string): (route: string)
    ensures route != [] && '\\' !in route
  {
    var rel := ReplaceAllBackslash(StripAppPrefix(entryPath));
    if |rel| > 0 then rel else "/"
  }

  /** `${entry.path}/route.ts`: the source path is fixed to `route.ts`,
      whatever route file name the directory was selected by. */
  function SourcePath(entryPath: string): string {
    entryPath + "/" + SourceFile
  }

  /** The code the second pass stores: `""` when the source file is missing
      or the bundler throws, its output otherwise. */
  function Code(fs: FileSystem, transpile: Transpiler, sourcePath: string): (code: string)
    ensures !Exists(fs, sourcePath) ==> code == ""
    ensures Exists(fs, sourcePath) && transpile(sourcePath).None? ==> code == ""
    ensures Exists(fs, sourcePath) && transpile(sourcePath).Some? ==> code == transpile(sourcePath).value
  {
    if !Exists(fs, sourcePath) then ""
    else match transpile(sourcePath)
      case None => ""
      case Some(out) => out
  }

  lemma {:induction false} LeadingRunOf(pre: string, rest: string)
    requires forall i :: 0 <= i < |pre| ==> IsDotOrSlash(pre[i])
    requires rest == [] || !IsDotOrSlash(rest[0])
    ensures LeadingRun(pre + rest) == |pre|
  {
    if pre != [] {
      assert (pre + rest)[1..] == pre[1..] + rest;
      LeadingRunOf(pre[1..], rest);
    } else {
      assert pre + rest == rest;
    }
  }

  /** Any run of `.` and `/` followed by `app` is removed, and nothing
      more. */
  lemma StripPrefix(pre: string, s: string)
    requires forall i :: 0 <= i < |pre| ==> IsDotOrSlash(pre[i])
    ensures StripAppPrefix(pre + "app" + s) == s
  {
    var p := pre + "app" + s;
    LeadingRunOf(pre, "app" + s);
    assert p == pre + ("app" + s);
    assert p[|pre|..] == "app" + s;
    assert ("app" + s)[..3] == "app";
    assert p[|pre| + 3..] == s;
  }

  /** The directories below `./app` get their path below it; the root
      directory itself (`./app` or `app`) gets `/`. */
  lemma RouteStringUnderApp(s: string)
    ensures RouteString("./app" + s) == (if s == "" then "/" else ReplaceAllBackslash(s))
    ensures RouteString("app" + s) == (if s == "" then "/" else ReplaceAllBackslash(s))
  {
    assert "./app" + s == "./" + "app" + s;
    StripPrefix("./", s);
    assert "app" + s == "" + "app" + s;
    StripPrefix("", s);
  }

  /** A path without the prefix keeps its text: only backslashes change. */
  lemma RouteStringWithoutPrefix(p: string)
    requires !StartsWith(p[LeadingRun(p)..], "app") && p != ""
    ensures RouteString(p) == ReplaceAllBackslash(p)
  {
  }
}

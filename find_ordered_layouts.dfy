/** `findOrderedLayouts` (src/utils/findOrderedLayouts.ts): walking from the
    application directory down the route's non-empty segments, every level
    whose `layout.html` exists contributes its path, root first; the paths
    are then collapsed with `replaceAll("//", "/")`. */
module OrderedLayouts {
  import opened Strings
  import opened Files
  import opened NamedParams

  const LayoutFile: string := "layout.html"

  /** `currentPath` at level `k`: the loop visits `["", ...segs]`, so level 0
      is `appPath + "/"` and level `k` appends `"/" + segs[k - 1]`. */
  function LevelDir(appPath: string, segs: seq<string>, k: nat): string
    requires k <= |segs|
  {
    if k == 0 then appPath + "/" else LevelDir(appPath, segs, k - 1) + "/" + segs[k - 1]
  }

  /** The path checked with `Deno.lstatSync` at level `k`. */
  function Candidate(appPath: string, segs: seq<string>, k: nat): string
    requires k <= |segs|
  {
    LevelDir(appPath, segs, k) + "/" + LayoutFile
  }

  /** The levels below `n` whose candidate exists, in increasing order. */
  function FoundLevels(fs: FileSystem, appPath: string, segs: seq<string>, n: nat): (levels: seq<nat>)
    requires n <= |segs| + 1
    ensures |levels| <= n
    ensures forall j :: 0 <= j < |levels| ==>
      levels[j] < n && Exists(fs, Candidate(appPath, segs, levels[j]))
    ensures forall j, j' :: 0 <= j < j' < |levels| ==> levels[j] < levels[j']
    ensures forall k :: 0 <= k < n && Exists(fs, Candidate(appPath, segs, k)) ==> k in levels
  {
    if n == 0 then []
    else
      var front := FoundLevels(fs, appPath, segs, n - 1);
      if Exists(fs, Candidate(appPath, segs, n - 1)) then front + [n - 1] else front
  }

  /** The candidates below level `n` that exist, as the loop pushes them. */
  function FoundPaths(fs: FileSystem, appPath: string, segs: seq<string>, n: nat): seq<string>
    requires n <= |segs| + 1
  {
    if n == 0 then []
    else
      var c := Candidate(appPath, segs, n - 1);
      FoundPaths(fs, appPath, segs, n - 1) + (if Exists(fs, c) then [c] else [])
  }

  /** The pushed paths are the candidates of the found levels. */
  lemma {:induction false} FoundPathsAtLevels(fs: FileSystem, appPath: string, segs: seq<string>, n: nat)
    requires n <= |segs| + 1
    ensures |FoundPaths(fs, appPath, segs, n)| == |FoundLevels(fs, appPath, segs, n)|
    ensures forall j :: 0 <= j < |FoundPaths(fs, appPath, segs, n)| ==>
      FoundPaths(fs, appPath, segs, n)[j] == Candidate(appPath, segs, FoundLevels(fs, appPath, segs, n)[j])
  {
    if n > 0 {
      FoundPathsAtLevels(fs, appPath, segs, n - 1);
    }
  }

  /** The levels of `route` that hold a layout, root first. */
  function Levels(fs: FileSystem, appPath: string, route: string): seq<nat> {
    FoundLevels(fs, appPath, Segments(route), |Segments(route)| + 1)
  }

  /** `findOrderedLayouts(appPath, route)` as a value: one collapsed
      candidate per level that holds a layout. */
  function Layouts(fs: FileSystem, appPath: string, route: string): (r: seq<string>)
    ensures |r| == |Levels(fs, appPath, route)| <= |Segments(route)| + 1
    ensures forall j :: 0 <= j < |r| ==>
      r[j] == ReplaceAllDoubleSlash(Candidate(appPath, Segments(route), Levels(fs, appPath, route)[j]))
  {
    var segs := Segments(route);
    var paths := FoundPaths(fs, appPath, segs, |segs| + 1);
    FoundPathsAtLevels(fs, appPath, segs, |segs| + 1);
    seq(|paths|, j requires 0 <= j < |paths| => ReplaceAllDoubleSlash(paths[j]))
  }

  /** `findOrderedLayouts`: the loop over `["", ...segments]` extending
      `currentPath` and pushing every existing candidate, then the `map`. */
  method FindOrderedLayouts(fs: FileSystem, appPath: string, route: string) returns (layouts: seq<string>)
    ensures layouts == Layouts(fs, appPath, route)
  {
    var found: seq<string> := [];
    var segments := Segments(route);
    var walk := [""] + segments;
    var currentPath := appPath;
    for i := 0 to |walk|
      invariant i > 0 ==> currentPath == LevelDir(appPath, segments, i - 1)
      invariant i == 0 ==> currentPath == appPath
      invariant found == FoundPaths(fs, appPath, segments, i)
    {
      currentPath := currentPath + "/" + walk[i];
      assert currentPath == LevelDir(appPath, segments, i) by {
        if i > 0 {
          assert walk[i] == segments[i - 1];
        }
      }
      var layoutPath := currentPath + "/" + LayoutFile;
      if Exists(fs, layoutPath) {
        found := found + [layoutPath];
      }
    }
    layouts := seq(|found|, j requires 0 <= j < |found| => ReplaceAllDoubleSlash(found[j]));
  }

  /** Every entry ends in `/layout.html`. */
  lemma EntriesAreLayoutFiles(fs: FileSystem, appPath: string, route: string)
    ensures forall j :: 0 <= j < |Layouts(fs, appPath, route)| ==>
      EndsWith(Layouts(fs, appPath, route)[j], "/" + LayoutFile)
  {
    var r, segs, levels := Layouts(fs, appPath, route), Segments(route), Levels(fs, appPath, route);
    forall j | 0 <= j < |r| ensures EndsWith(r[j], "/" + LayoutFile) {
      ReplaceAllDoubleSlashKeepsLastPart(LevelDir(appPath, segs, levels[j]), LayoutFile);
    }
  }

  /** The entries are exactly the levels that hold a layout: a level without
      one is skipped, and one with a layout is never skipped. */
  lemma LevelsExactlyExisting(fs: FileSystem, appPath: string, route: string, k: nat)
    requires k <= |Segments(route)|
    ensures k in Levels(fs, appPath, route) <==> Exists(fs, Candidate(appPath, Segments(route), k))
  {
  }

  /** A directory at a shallower level is an ancestor of one at a deeper
      level, so entries ordered by level run from the root to the leaf. */
  lemma {:induction false} LevelDirAncestor(appPath: string, segs: seq<string>, k: nat, k': nat)
    requires k < k' <= |segs|
    ensures StartsWith(LevelDir(appPath, segs, k'), LevelDir(appPath, segs, k) + "/")
  {
    var d := LevelDir(appPath, segs, k);
    if k' == k + 1 {
      assert LevelDir(appPath, segs, k') == d + "/" + segs[k];
    } else {
      LevelDirAncestor(appPath, segs, k, k' - 1);
      var d' := LevelDir(appPath, segs, k' - 1);
      assert LevelDir(appPath, segs, k') == d' + "/" + segs[k' - 1];
      assert (d' + "/" + segs[k' - 1])[..|d + "/"|] == d'[..|d + "/"|];
    }
  }

  /** Root to leaf: of two entries, the earlier one lies at a shallower level,
      in an ancestor directory of the later one's. */
  lemma RootToLeaf(fs: FileSystem, appPath: string, route: string, j: nat, j': nat)
    requires j < j' < |Levels(fs, appPath, route)|
    ensures Levels(fs, appPath, route)[j] < Levels(fs, appPath, route)[j']
    ensures StartsWith(LevelDir(appPath, Segments(route), Levels(fs, appPath, route)[j']),
                       LevelDir(appPath, Segments(route), Levels(fs, appPath, route)[j]) + "/")
  {
    var levels := Levels(fs, appPath, route);
    LevelDirAncestor(appPath, Segments(route), levels[j], levels[j']);
  }

  /** The root level is always checked, whatever the route (also `""`): when
      `appPath//layout.html` exists it is the first entry. */
  lemma RootAlwaysChecked(fs: FileSystem, appPath: string, route: string)
    requires Exists(fs, appPath + "//" + LayoutFile)
    ensures Layouts(fs, appPath, route) != []
    ensures Layouts(fs, appPath, route)[0] == ReplaceAllDoubleSlash(appPath + "//" + LayoutFile)
  {
    var segs, levels := Segments(route), Levels(fs, appPath, route);
    assert Candidate(appPath, segs, 0) == appPath + "//" + LayoutFile;
    assert 0 in levels;
  }

  /** Where no level holds a layout, the result is empty. */
  lemma {:induction false} NothingFound(fs: FileSystem, appPath: string, segs: seq<string>, n: nat)
    requires n <= |segs| + 1
    requires forall k :: 0 <= k < n ==> !Exists(fs, Candidate(appPath, segs, k))
    ensures FoundLevels(fs, appPath, segs, n) == []
  {
    if n > 0 {
      NothingFound(fs, appPath, segs, n - 1);
    }
  }

  lemma NoLayouts(fs: FileSystem, appPath: string, route: string)
    requires forall k :: 0 <= k <= |Segments(route)| ==> !Exists(fs, Candidate(appPath, Segments(route), k))
    ensures Layouts(fs, appPath, route) == []
  {
    NothingFound(fs, appPath, Segments(route), |Segments(route)| + 1);
  }

  /** Empty segments are dropped before walking: a leading or trailing `/`
      on the route changes nothing. */
  lemma SlashesDropped(fs: FileSystem, appPath: string, route: string)
    ensures Layouts(fs, appPath, "/" + route) == Layouts(fs, appPath, route)
    ensures Layouts(fs, appPath, route + "/") == Layouts(fs, appPath, route)
  {
    SlashesIrrelevant(route);
  }
}

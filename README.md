# ten.net request dispatch, modelled in Dafny

This project models the core of ten.net, a file-based web router for Deno.

The router walks the `./app` directory tree. Every directory holding a `route.ts` handler or a `page.html` page becomes a route. The route's text is its directory path below `app`, such as `/users/[id]`, and it is compiled to an anchored pattern.

A request is handled by the first route whose pattern accepts its path:
- The route's handler is loaded from the route's transpiled code, and the export named by the upper-cased HTTP method is looked up.
- On a route without a page, or for a method other than `GET`, that export is called with the named parameters of the path, and its response is returned as it is.
- A `GET` on a route with a page renders the page. The page is put into the application's document (`document.html` or a built-in default) and wrapped in the `layout.html` files of the route's directory and its ancestors, the deepest innermost and the root outermost. Its `{{key}}` placeholders are then filled from the handler's JSON body.

Also modelled:
- the `Route` class with its whitelisted `method` setter and `import()`;
- the `routerEngine` variant of route discovery that builds `Route` objects;
- the view engine;
- `toSlug`;
- the `@route` decorator with its `:name` parameter scanner and route registry.

Each source file is one module. Where the source changes state step by step (loops pushing onto arrays, objects whose fields are assigned), the model is a method. Each such method is proved equal to a specification function, and the properties are proved as lemmas about those functions.

The filesystem is a map from canonical path to file (`Files`), looked up the way the operating system resolves paths: runs of `/` count as one and `.` segments are dropped, so `./app//page.html` and `app/page.html` name the same file. Three things are function parameters:
- the module loader (`Loader`);
- the handler call (`Invoker`);
- the bundler (`Transpiler`).

The code as written behaves as follows, and the model follows it:
- **The document is innermost.** The page is put into the document first and the layouts are wrapped around that, so the document is not the outermost wrapper.
- **The document wrap always happens.** The `if (layouts)` test is on an array, which is always truthy. So a page without layouts is still wrapped in the document, not returned unwrapped.
- **An empty or failed import gives 500.** On a route without a page, an import that fails or yields no exports answers 500 `Error: Module is empty`, not 404.
- **Only the first placeholder is replaced.** Each substitution replaces only the first occurrence of `{{content}}` or `{{key}}`.

`toSlug` is also modelled as written, where the repository's tests (src/test/toSlug.test.ts) expect punctuation and repeated hyphens to be removed. `Slug.AlreadySlug` shows that `to---slug` comes back unchanged.

## Model

| member | source | states |
|---|---|---|
| Strings.SplitConcat | src/utils/getRegexRoute.ts:20-21 | splitting at a separator splits both sides independently |
| Strings.JoinSplit | src/utils/getRegexRoute.ts:20-27 | joining the pieces of `split("/")` gives back the string |
| Strings.SplitJoin | src/utils/getRegexRoute.ts:20-27 | splitting a join of slash-free pieces gives back the pieces |
| Strings.NonEmptyConcat | src/utils/pathNamedParams.ts:16-17 | `filter(Boolean)` distributes over concatenation and keeps order |
| Strings.ReplaceFirst | src/viewEngine.ts:25 | `replace` with a string pattern replaces only the first occurrence, and leaves a string without it unchanged |
| Strings.ReplaceFirstAt | src/viewEngine.ts:29 | the occurrence replaced is the first one, whatever follows it |
| Strings.ReplaceAllDoubleSlashKeepsLastPart | src/utils/findOrderedLayouts.ts:29 | `replaceAll("//", "/")` keeps a final slash-free `/name` |
| Strings.ReplaceAllBackslash | src/routerEngine.ts:62-64 | every `\` becomes `/` and nothing else changes |
| Strings.ToUpper | src/ten.ts:90 | each lower-case ASCII letter becomes its capital and every other character is kept, so no lower-case ASCII letter is left |
| Strings.ToLower | src/utils/toSlug.ts:9 | each upper-case ASCII letter becomes its lower case and every other character is kept, so no upper-case ASCII letter is left |
| Files.CollapsedNamesSameFile | src/utils/findOrderedLayouts.ts:22-29 | the collapsed layout path names the same file that was found under the uncollapsed one |
| Files.CollapseAfterReplace | src/utils/findOrderedLayouts.ts:29 | `replaceAll("//", "/")` leaves the collapsed form of a path unchanged |
| Files.DoubleSlashSameFile | src/ten.ts:118 | a doubled `/` inside a path, as in `./app//page.html`, collapses like a single one |
| Files.DotPrefixSameFile | src/ten.ts:19 | a leading `./` names the same file as the path without it |
| Handlers.Lookup | src/ten.ts:71 | `module[method]` is present exactly when the module exports that name, and is that export |
| RegexRoute.GetRegexRoute | src/utils/getRegexRoute.ts:19-30 | one token per `/`-piece of the route, no literal token holding `/` |
| RegexRoute.AcceptsByParts | src/utils/getRegexRoute.ts:27-29 | the anchored pattern accepts a path exactly when its `/`-parts match the tokens one for one |
| RegexRoute.Characterisation | src/utils/getRegexRoute.ts:19-30 | a path is accepted exactly when it has as many `/`-parts as the route and each part meets its segment: any non-empty slash-free text for `[name]`, the identical text otherwise |
| RegexRoute.ExtraSegmentsRejected | src/utils/getRegexRoute.ts:29 | anchoring at the end: an accepted path with more segments appended is rejected |
| RegexRoute.RouteAcceptsItself | src/utils/getRegexRoute.ts:23-25 | every route accepts its own text |
| RegexRoute.AppendSegment | src/utils/getRegexRoute.ts:20-27 | segments are matched independently of each other |
| RegexRoute.RootAndEmptyRoutes | src/utils/getRegexRoute.ts:19-30 | route `/` accepts only `/`; route `""` accepts only `""` |
| RegexRoute.DynamicSegmentExample | src/utils/getRegexRoute.ts:24 | `/users/[id]` accepts `/users/v` exactly for non-empty slash-free `v` |
| RegexRoute.EscapedLiteralExample | src/utils/getRegexRoute.ts:25 | a literal `.` is escaped: `a.b` accepts `a.b` and rejects `axb` |
| NamedParams.Segments | src/utils/pathNamedParams.ts:16-17 | the segments are non-empty and slash-free |
| NamedParams.ParamName | src/utils/pathNamedParams.ts:21 | the name is the segment without its two brackets |
| NamedParams.PathNamedParams | src/utils/pathNamedParams.ts:14-26 | the `forEach` loop builds the record the specification function describes |
| NamedParams.FillKeys | src/utils/pathNamedParams.ts:19-24 | the keys are exactly the names of the bracketed route segments, except `__proto__`, whose assignment sets no own property |
| NamedParams.FillLastWins | src/utils/pathNamedParams.ts:22 | a parameter holds the path segment at the last position naming it, `undefined` past the end of the path; a parameter named `__proto__` is never a key |
| NamedParams.FillLastNaming | src/utils/pathNamedParams.ts:19-24 | every key comes from the last segment naming it |
| NamedParams.FillIgnoresExtra | src/utils/pathNamedParams.ts:19-24 | path segments beyond the route's length are never used |
| NamedParams.NoBracketsNoParams | src/utils/pathNamedParams.ts:20 | a route without bracketed segments, or whose only bracketed names are `__proto__`, yields `{}` |
| NamedParams.ProtoNeverKey | src/utils/pathNamedParams.ts:22 | `params["__proto__"] = …` never creates a `__proto__` key |
| NamedParams.SlashesIrrelevant | src/utils/pathNamedParams.ts:16-17 | a leading or trailing `/` changes no segment |
| NamedParams.EmptyArguments | src/utils/pathNamedParams.ts:14-26 | empty path and route give `{}` |
| NamedParams.SingleParamExample | src/utils/pathNamedParams.ts:14-26 | `/a/v` against `/a/[id]` gives `{ id: v }` |
| NamedParams.SegmentsOf | src/utils/pathNamedParams.ts:16-17 | the segments of `/a/b` are `[a, b]` |
| ParamsEngine.Defined | src/paramsEngine.ts:6-8 | keeps exactly the defined entries, with their values |
| ParamsEngine.ParamsCharacterisation | src/paramsEngine.ts:4-9 | a key is present exactly when its last naming segment lies within the path, and holds that path segment |
| ParamsEngine.SingleParamRoute | src/paramsEngine.ts:4-9 | `/a/v` for a route `/a/[id]` gives `{ id: v }` |
| ParamsEngine.TrailingParamsAbsent | src/paramsEngine.ts:7 | a parameter beyond the path's length is absent, not `undefined` |
| Composition.ReadAll | src/viewEngine.ts:27-28 | all layouts are read, or `None` as soon as one read throws |
| Composition.WrapInLayouts | src/viewEngine.ts:27-30 | the descending loop computes the nesting of the layouts, `None` where a read throws |
| Composition.WrapShape | src/viewEngine.ts:29 | one wrap puts the inner text between the layout's head and tail |
| Composition.NestShape | src/viewEngine.ts:26-30 | the inner text sits between the heads, outer to inner, and the tails, inner to outer |
| Composition.OutermostFirst | src/viewEngine.ts:27-30 | the first (root-most) layout is outermost |
| Composition.LaterPlaceholderKept | src/viewEngine.ts:29 | a second `{{content}}` survives the wrap |
| Composition.FillPlaceholders | src/viewEngine.ts:39-47 | the `forEach` loop computes the key-by-key first-occurrence substitution |
| Composition.SubstituteUnchanged | src/viewEngine.ts:42-47 | a page holding no key's placeholder is unchanged |
| Composition.SubstituteOne | src/viewEngine.ts:43-46 | one key fills its first placeholder with its value |
| OrderedLayouts.FoundLevels | src/utils/findOrderedLayouts.ts:19-27 | the levels with a layout, strictly increasing, and every such level included |
| OrderedLayouts.FoundPathsAtLevels | src/utils/findOrderedLayouts.ts:22-23 | the pushed paths are the candidates of the found levels |
| OrderedLayouts.Layouts | src/utils/findOrderedLayouts.ts:14-30 | one collapsed candidate per level that holds a layout |
| OrderedLayouts.FindOrderedLayouts | src/utils/findOrderedLayouts.ts:14-30 | the loop over `["", ...segments]` and the final `map` compute `Layouts` |
| OrderedLayouts.EntriesAreLayoutFiles | src/utils/findOrderedLayouts.ts:22-29 | every entry ends in `/layout.html` |
| OrderedLayouts.LevelsExactlyExisting | src/utils/findOrderedLayouts.ts:21-26 | a level is listed exactly when its layout file exists |
| OrderedLayouts.LevelDirAncestor | src/utils/findOrderedLayouts.ts:19-20 | a shallower level's directory is an ancestor of a deeper one's |
| OrderedLayouts.RootToLeaf | src/utils/findOrderedLayouts.ts:19-27 | entries run from the root to the leaf |
| OrderedLayouts.RootAlwaysChecked | src/utils/findOrderedLayouts.ts:19-23 | the root level is checked for every route, and comes first |
| OrderedLayouts.NothingFound | src/utils/findOrderedLayouts.ts:21-26 | no existing candidate, no level |
| OrderedLayouts.NoLayouts | src/utils/findOrderedLayouts.ts:14-30 | no existing layout file gives `[]` |
| OrderedLayouts.SlashesDropped | src/utils/findOrderedLayouts.ts:16 | a leading or trailing `/` on the route changes nothing |
| DocumentLayout.DocumentLayoutRoot | src/utils/findDocumentLayoutRoot.ts:17-25 | the file's text when it can be read, the default document otherwise |
| DocumentLayout.DocumentCases | src/utils/findDocumentLayoutRoot.ts:19-24 | missing or unreadable gives the default; a readable file, even an empty one, gives its text |
| DocumentLayout.DefaultHasOnePlaceholder | src/utils/findDocumentLayoutRoot.ts:23 | the default document holds exactly one `{{content}}` |
| DocumentLayout.DefaultWrap | src/utils/findDocumentLayoutRoot.ts:23 | the page lands between the default head and tail |
| Models.MethodAfter | src/models/Route.ts:38-54 | a whitelisted upper-cased value is stored, anything else keeps the old one |
| Models.MethodAfterProperties | src/models/Route.ts:38-54 | the setter keeps the whitelist and is idempotent |
| Models.MethodCaseInsensitive | src/models/Route.ts:39 | any spelling of an allowed method stores its upper case |
| Models.ImportResult | src/models/Route.ts:105-125 | fails exactly when the import throws or an empty module meets a page-less route; otherwise it resolves `module[method]` |
| Models.EmptyModuleWithPage | src/models/Route.ts:117-121 | a route with a page resolves an empty module to no handler |
| Models.Route.constructor | src/models/Route.ts:7-36 | stores the five fields; `method` starts `ALL`, `page` empty, `call` undefined |
| Models.Route.SetMethod | src/models/Route.ts:38-54 | only `method` changes, to `MethodAfter`; whitelist kept, and `isView` follows |
| Models.Route.SetPage | src/models/Route.ts:64-70 | only the page changes |
| Models.Route.Import | src/models/Route.ts:100-126 | returns `undefined` and keeps `call` on failure, else stores and returns `module[method]` |
| View.HandlerData | src/viewEngine.ts:32-51 | the handler's JSON body when a function export answers with one, `[]` otherwise |
| View.ViewEngine | src/viewEngine.ts:12-55 | the page in the document, wrapped in the layouts, then filled from the handler's body; `None` where a layout read throws |
| View.NoHandlerNoSubstitution | src/viewEngine.ts:32 | without a handler nothing is substituted |
| View.DocumentInnermost | src/viewEngine.ts:25-30 | the document wraps the page first, the layouts wrap that, root outermost |
| View.RootLayoutOutermost | src/viewEngine.ts:27-30 | the result begins with the root layout's head |
| View.DefaultDocumentOnly | src/viewEngine.ts:25-26 | without layouts or `document.html` the page sits in the default document |
| View.UnreadableLayout | src/viewEngine.ts:28 | an unreadable layout makes the whole render fail |
| Discovery.RouteString | src/routeFactory.ts:59-63 | the route text is non-empty and holds no `\` |
| Discovery.StripPrefix | src/routeFactory.ts:60 | any run of `.` and `/` followed by `app` is removed, and nothing more |
| Discovery.RouteStringUnderApp | src/routeFactory.ts:59-63 | `./app/x` and `app/x` both give `/x`; the root gives `/` |
| Discovery.RouteStringWithoutPrefix | src/routeFactory.ts:59-63 | a path without the prefix only has its backslashes changed |
| Discovery.Code | src/routeFactory.ts:76-97 | `""` for a missing source or a throwing bundler, the bundler's output otherwise |
| Factory.Found | src/routeFactory.ts:59-73 | the record of a qualifying directory: its route text, pattern, page flag, fixed source path, empty code |
| Factory.Scan | src/routeFactory.ts:37-74 | records in walk order, each with non-empty route text, its compiled pattern and no code yet |
| Factory.WithCode | src/routeFactory.ts:76-99 | every record gets the code of its source path |
| Factory.RouteFactory | src/routeFactory.ts:31-100 | the loop and the `map` compute the route table |
| Factory.AttachCode | src/routeFactory.ts:76-99 | the second pass attaches the code to every record |
| Factory.ScanAppend | src/routeFactory.ts:37-74 | each entry is handled on its own, in walk order |
| Factory.ScanOne | src/routeFactory.ts:38-57 | an entry yields a record exactly when it is a directory with the route file or a page |
| Factory.FilesSkipped | src/routeFactory.ts:38 | a file entry yields nothing |
| Engine.Found | src/routerEngine.ts:40-78 | the route state: `hasPage` exactly when the page was read, and the page text or `""` |
| Engine.Scan | src/routerEngine.ts:37-81 | route states in walk order, non-empty path and no code yet |
| Engine.EngineTable | src/routerEngine.ts:31-105 | every route state with its code attached |
| Engine.RouterEngine | src/routerEngine.ts:31-105 | new, distinct, valid `Route` objects whose states are the table's |
| Engine.Discover | src/routerEngine.ts:37-81 | the loop pushes one new valid route per qualifying directory |
| Engine.NewRoute | src/routerEngine.ts:62-78 | a new route in the state `Found` describes |
| Engine.AttachCode | src/routerEngine.ts:83-102 | only `transpiledCode` of each route changes, to its code |
| Engine.ScanAppend | src/routerEngine.ts:37-81 | each entry is handled on its own, in walk order |
| Engine.ScanOne | src/routerEngine.ts:38-60 | an entry yields a route exactly when it is a directory with the route file or a readable page |
| Engine.OtherRouteFileName | src/routerEngine.ts:44-68 | a source path fixed to `route.ts` gives no code when only another route file exists |
| Engine.UnreadablePage | src/routerEngine.ts:51-60 | an unreadable page does not qualify a directory and leaves the route without a page |
| Application.FindFrom | src/ten.ts:92 | the first route whose pattern accepts the path |
| Application.LoadModule | src/ten.ts:56-85 | the loaded module, or `{}` where the import throws, with its export named by the method |
| Application.NoMatchNotFound | src/ten.ts:92-93 | no matching route gives 404 `Not found` |
| Application.FirstMatchWins | src/ten.ts:92 | the first matching route alone decides the response |
| Application.HandlerDecides | src/ten.ts:105-109 | a function export, off the page branch, answers with its own response; a throw gives 500 with its text |
| Application.EmptyModuleError | src/ten.ts:111-113 | a page-less route with a failed or empty import gives 500 `Error: Module is empty` |
| Application.GetRendersPage | src/ten.ts:115-163 | a `GET` in any case on a route with a page renders the page |
| Application.PageOutcome | src/ten.ts:116-162 | 200 `text/html` with the composed page exactly when the page and every layout can be read, else 404 |
| Application.OnlyHandlerMayOmitResponse | src/ten.ts:87-168 | every request gets a response except where a called handler returns nothing |
| Application.MethodCaseIrrelevant | src/ten.ts:90 | two spellings of one method get the same response |
| Application.RenderPage | src/ten.ts:116-162 | the page branch computes the page response |
| Application.SubdirPagePath | src/ten.ts:118 | `./app${s}/page.html` names the file `app${s}/page.html` |
| Application.RootPagePath | src/ten.ts:118 | for the root route `/`, `./app//page.html` names `app/page.html` |
| Application.DiscoveredPageRendered | src/ten.ts:118 | the page found at discovery (src/routeFactory.ts:51) is the file a `GET` reads: a record has a page exactly when `./app${route}/page.html` exists |
| Application.Ten.constructor | src/ten.ts:21-30 | a new application has no routes |
| Application.Ten.Start | src/ten.ts:181-187 | the route table is appended to the routes, in walk order |
| Application.Ten.HandleRequest | src/ten.ts:87-168 | the response is the one `Dispatch` describes |
| Slug.ToSlug | src/utils/toSlug.ts:5-10 | no upper-case letter and no separator is left |
| Slug.CollapseSeparators | src/utils/toSlug.ts:8 | no separator is left |
| Slug.HyphenateConcat | src/utils/toSlug.ts:7 | a hyphen is added exactly at a lower-to-upper seam |
| Slug.HyphenateNoUpper | src/utils/toSlug.ts:7 | text without capitals gets no hyphen |
| Slug.CollapseNoSeparators | src/utils/toSlug.ts:8 | text without separators is unchanged |
| Slug.CollapseRun | src/utils/toSlug.ts:8 | a run of separators becomes one `-` |
| Slug.AlreadySlug | src/utils/toSlug.ts:5-10 | text without capitals and separators is its own slug (so `to-slug` and `to---slug` stay) |
| Slug.Idempotent | src/utils/toSlug.ts:5-10 | a slug's slug is itself |
| Slug.CamelCase | src/utils/toSlug.ts:5-10 | `toSlug` gives `to-slug`: a lower word then a capitalised one is split by `-` and lower-cased |
| Slug.SeparatedWords | src/utils/toSlug.ts:5-10 | words joined by spaces or `_` are joined by one `-` |
| Slug.HyphenateEnds | src/utils/toSlug.ts:7 | the hyphen insertion keeps the first and the last character |
| Slug.DropConcat | src/utils/toSlug.ts:8 | skipping a separator run stops at the first kept character |
| Slug.CollapseConcat | src/utils/toSlug.ts:8 | collapsing runs distributes over a split after a non-separator |
| Slug.ToSlugConcat | src/utils/toSlug.ts:5-10 | the slug of a join after a non-separator is the two slugs with the seam's hyphen between |
| Slug.HyphenateAfterRun | src/utils/toSlug.ts:7 | a leading separator run gets no hyphen and is kept |
| Slug.CollapseLeadingRun | src/utils/toSlug.ts:8 | a leading separator run becomes one `-` |
| Slug.LeadingSeparators | src/utils/toSlug.ts:5-10 | a leading separator run becomes one leading `-`, which is not removed |
| Slug.SeparatorJoin | src/utils/toSlug.ts:5-10 | two words joined by a separator run are joined by one `-` |
| Slug.Capitalised | src/utils/toSlug.ts:7-9 | a capitalised lower-case word is lower-cased and gets no hyphen |
| Slug.PlainSlug | src/utils/toSlug.ts:5-10 | a word without separators and lower-to-upper seams is only lower-cased |
| Slug.JoinStep | src/utils/toSlug.ts:5-10 | a word, a break (a separator run or a lower-to-upper seam) and the rest give the word, `-` and the rest's slug |
| Slug.SlugOfJoined | src/utils/toSlug.ts:5-10 | words joined by breaks give their lower-cased forms joined by single hyphens |
| Slug.CamelCaseExample | src/test/toSlug.test.ts:55-57 | `toSlugExample` gives `to-slug-example` |
| Slug.PascalCaseExample | src/test/toSlug.test.ts:59-61 | `ToSlugExample` gives `to-slug-example` |
| Slug.SpacedWordsExample | src/test/toSlug.test.ts:18-20 | `To Slug Example` gives `to-slug-example` |
| Slug.UnderscoresExample | src/test/toSlug.test.ts:51-53 | `to_slug_example` gives `to-slug-example` |
| Slug.MixedSeparatorsExample | src/test/toSlug.test.ts:63-65 | `to_Slug-Example Test` gives `to-slug-example-test` |
| Decorators.NameEnd | src/decorators/route.ts:16 | the end of the greedy name-character run |
| Decorators.NameShape | src/decorators/route.ts:16 | each captured name is a maximal identifier right after its `:` |
| Decorators.NextMatch | src/decorators/route.ts:16-18 | the first match from `lastIndex` on, or no match from there |
| Decorators.MatchesFrom | src/decorators/route.ts:16-20 | match positions strictly increasing, each a `:` before a letter or `_` |
| Decorators.ExtractParamOrder | src/decorators/route.ts:13-22 | the `exec` loop computes the names of the successive matches |
| Decorators.MatchesExactly | src/decorators/route.ts:16-20 | the matches are exactly the positions of a `:` followed by a letter or `_` |
| Decorators.NamesOfMatches | src/decorators/route.ts:18-20 | one name per match, in match order |
| Decorators.ParamOrderCharacterisation | src/decorators/route.ts:13-22 | the names are the `:name` tokens in order of appearance, and nothing else |
| Decorators.ColonWithoutName | src/decorators/route.ts:16 | a `:` not followed by a letter or `_` contributes nothing |
| Decorators.CountFrom | src/decorators/route.ts:16-20 | no more matches than `:` characters |
| Decorators.CountBound | src/decorators/route.ts:13-22 | no more names than `:` characters; none without a `:` |
| Decorators.Definition | src/decorators/route.ts:24-31 | method, controller and action as given; `paramOrder` present exactly for a string pattern |
| Decorators.Registry.constructor | src/decorators/route.ts:11 | the registry starts empty |
| Decorators.Registry.Route | src/decorators/route.ts:24-31 | reports whether the pattern could be built; if so exactly one entry is appended and earlier ones kept, otherwise (`new URLPattern` throws on the pathname) the registry is unchanged |

## Left out

- The server itself (`Deno.serve`), URL parsing (`new URL(req.url)`) and `Ten.net()` are left out. A request is given by its method and path.
- Console logging in every module is not modelled. It has no effect on results.
- Dynamic `import()` of a `data:` URL is not modelled; it is the `Loader` parameter. A module is a map from export name to export, and an export is a function (known by an identity) or some other value.
- JavaScript regular expressions are not modelled. `getRegexRoute` is a token sequence with its own acceptance relation. `toSlug` and the `:name` scanner are direct scanners.
- The escaping in `getRegexRoute` is not modelled character by character. Its effect is modelled: a literal segment matches only itself.
- `URLPattern` is abstract in the decorator: a constructed pattern or one built from a pathname. Which pathnames `new URLPattern` accepts is the `PathnameCheck` parameter of `Registry.Route`; the pathname syntax itself is not modelled.
- The `controller` of a registry entry is an identity, not a class.
- The bundler (`transpileRoute`, `transpileFile`) is the `Transpiler` parameter, returning `None` where it throws.
- Path resolution in `Files` does not resolve `..` segments or symbolic links; the router never builds paths holding them.
- The directory walk is a given list of entries in walk order (`WalkEntry`).
- `Promise.all` is not modelled as concurrency. Each route's code depends only on its own source file, so the second pass is an in-order loop.
- Calling a handler is the `Invoker` parameter. Its outcome is a synchronous throw, `undefined`, or a response with a JSON body that decodes or not.
- Application.HandleRequest: a promise the handler returns and that later rejects is not modelled. In the source that rejection escapes the `try` (src/ten.ts:106), because the promise is returned without `await`. The model surfaces only synchronous throws as 500.
- JSON values other than strings are not modelled: a body is a list of string pairs in key order. `Handlers.JsonObject` does not enforce that its keys are distinct, as `Object.keys` of a parsed body always is (src/viewEngine.ts:40-44); a list with a repeated key would fill one placeholder per pair, which no parsed body yields. The `$` replacement patterns of `String.replace` are not interpreted, so a value containing `$&` is inserted literally.
- Case mapping and `\s` cover ASCII only, in `toUpperCase`, `toLowerCase` and the separator class of `toSlug`. Unicode letters and white space outside ASCII are not modelled.
- `toSlug` on `null`, `undefined` or a number (src/test/toSlug.test.ts:44-48) is not modelled. Those tests, and the ones expecting punctuation or repeated hyphens to be removed, disagree with the code, which the model follows.
- The `return new Response(pageModule, …)` branch of src/ten.ts:156-159 is not modelled. It cannot be reached, since an array is always truthy.
- `toSlug` is proved on the literal test strings of src/test/toSlug.test.ts:19, 52, 56, 60 and 64, which the code meets, and generally by `Slug.SlugOfJoined`. The tests expecting punctuation, repeated hyphens or surrounding spaces to be removed (lines 23, 27, 35, 39, 68, 72 and 76) are not met by the code, as said above.
- Application.HandleRequest returns `None` where a called handler's result is `undefined`. The source would then fail inside `Deno.serve`, which is not modelled.
- A non-function export is treated as the source treats it. `typeof fn === "function"` rejects it in the handler branch. In the page branch the call throws and is caught, so nothing is substituted.
- The `src/decorators/controller.ts`, `validate.ts` and `log.ts` decorators are not part of this model. They are reflection metadata and logging over a foreign library.

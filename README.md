# Routes — a Dafny model of the URL routing engine

This project models the core of the Swift *Routes* library.

- **Router.** A `Router` keeps one route table (`Routes`) per URL scheme. It creates tables on first use and has a lazily created default table for the scheme `__scheme__`.
- **Route table.** Each table holds an ordered list of `Definition`s. A definition is a pattern, a priority and an optional handler. The list is kept in priority order on insertion.
- **Routing.** Routing a resource builds a `Request` from its URL: the path split into components and the query read into parameters. It then scans the definitions in order. A matching definition's handler may decline, which lets the scan go on.
- **Optional groups.** A raw pattern such as `/(rest/)(app/):object/:id` is first expanded into every concrete pattern its optional groups allow. The results are listed longest first.

## Modules

- `Common`: `Option` and the parameter values (`Str`, `List`, `Other`).
- `Strings`: splitting and joining on `/`, trimming slashes, `+` decoding and path joining.
- `Combinations`: every order-preserving sub-selection of a list (`route_allOrderedCombinations`).
- `Patterns`:
  - the subpath scanner (`route_subpathsForPatterns`);
  - the optional-group expansion (`route_expandOptionalRoutePatterns`);
  - `Subpath`.
- `QueryParams`: `route_queryParams(decodePlusSymbols:)` of the dictionary extension.
- `UrlComponents`: `rte_queryParams` and `rte_path`.
- `Requests`: `Request.init`.
- `Definitions`: the class `Definition`, matching, merged parameters and `Response`.
- `RouteTables`: the class `Routes`, priority insertion, removal and dispatch.
- `Routers`: the class `Router`.

## How the outside world appears in the model

Code outside the library takes the following forms.

- **URL parsing.** A URL is a record of its text, its scheme and the parse Foundation gives of it (`Components`). That parse is `None` when the text does not parse. The fragment's own parse is part of the record. It includes the query items Foundation reads from the fragment's query, or from its path when it has none.
- **Percent-decoding.** `removingPercentEncoding` is a function parameter (`Unescaper`) of every operation that matches.
- **Handlers.** A handler is a function from parameters to a verdict. Routing does not call closures with effects. Instead it returns the calls it makes as a list of `Event`s:
  - `Handled(pattern, parameters, accepted)` for a route handler;
  - `Unmatched(url, parameters)` for the unmatched handler.

  A table records only whether an unmatched handler is set.
- **Resources.** A resource is an `Option<Url>`; `None` is a resource without a URL.
- **`appendingPathComponent`.** `NSString.appendingPathComponent` is modelled as joining two parts at exactly one `/`.

## Model

| member | source | states |
|---|---|---|
| Strings.SplitPieces | Routes/Extensions/String+Utilities.swift:20-22 | `components(separatedBy: "/")` gives pieces without `/` whose join with `/` is the input |
| Strings.SplitJoin | Routes/Extensions/String+Utilities.swift:20-22 | splitting the join of `/`-free pieces gives the pieces back |
| Strings.TrimSlashesSpec | Routes/Extensions/String+Utilities.swift:21 | trimming `/` yields empty exactly for all-slash input and leaves a string without end slashes unchanged |
| Strings.TrimSlashesEnds | Routes/Extensions/String+Utilities.swift:21 | the trimmed string neither starts nor ends with `/` |
| Strings.TrimmedPathComponentsSpec | Routes/Extensions/String+Utilities.swift:20-22 | the path components are a non-empty list, contain no `/` and join back to the trimmed string; an empty first or last component only for an all-slash string |
| Strings.RouteVariableValue | Routes/Extensions/String+Utilities.swift:12-18 | identity when decoding is off; otherwise same length, every `+` becomes a space, every other character kept, no `+` left |
| Strings.PlusToSpaceIdempotent | Routes/Extensions/String+Utilities.swift:12-18 | decoding a decoded string changes nothing |
| Strings.AppendingPathComponent | Routes/Extensions/String+Utilities.swift:106 | an empty component leaves the base unchanged, an empty base gives the component, a rooted base stays rooted |
| Strings.AppendingPathComponentJoins | Routes/Extensions/String+Utilities.swift:106 | two non-empty parts give the base less one trailing `/`, one `/`, then the component less one leading `/` |
| Combinations.AllOrderedCombinations | Routes/Extensions/Array+Utilities.swift:12-27 | there are 2^n combinations of n elements (so `[[]]` for the empty array) |
| Combinations.OrderedCombinations | Routes/Extensions/Array+Utilities.swift:12-27 | the recursion with its `forEach` append computes the prefix's combinations followed by the same ones extended by the last element |
| Combinations.AppendToEachAt | Routes/Extensions/Array+Utilities.swift:20-24 | entry i of the extended combinations is entry i with the last element appended |
| Combinations.CombinationsEnds | Routes/Extensions/Array+Utilities.swift:13-24 | the first combination is empty and the last is the whole array |
| Combinations.CombinationAt | Routes/Extensions/Array+Utilities.swift:16-24 | combination number i selects, in order, exactly the elements whose bit is set in i |
| Combinations.EachSelectionExactlyOnce | Routes/Extensions/Array+Utilities.swift:16-24 | every choice of positions is some combination, and distinct combination numbers are distinct choices |
| Combinations.SelectionAt | Routes/Extensions/Array+Utilities.swift:16-24 | the choice of positions `keep` is combination number `Number(keep)` |
| Combinations.CombinationElements | Routes/Extensions/Array+Utilities.swift:16-24 | a combination holds only elements of the array |
| Combinations.NumberOfBits | Routes/Extensions/Array+Utilities.swift:16-24 | reading back the bits of a combination number gives the number (indexing of combinations is one to one) |
| Combinations.BitsOfNumber | Routes/Extensions/Array+Utilities.swift:16-24 | the bits of the number of a choice are the choice |
| Patterns.IndexOfFirstOccurrence | Routes/Extensions/String+Utilities.swift:32 | `scanUpTo` stops at the first occurrence: no `c` before the index found |
| Patterns.IndexOfFirst | Routes/Extensions/String+Utilities.swift:32 | the first `c` at position k is where the scan stops |
| Patterns.ScanGroup | Routes/Extensions/String+Utilities.swift:29-76 | text before a group is a required piece and the group's text an optional one, in order; a closed group keeps the pattern scannable |
| Patterns.ScanWithoutGroup | Routes/Extensions/String+Utilities.swift:29-58 | text without `(` scans as at most one required piece |
| Patterns.ScanRound | Routes/Extensions/String+Utilities.swift:30-66 | one scanner round yields the required piece, the optional piece and the shorter rest, or ends at the string's end |
| Patterns.SubpathsForPattern | Routes/Extensions/String+Utilities.swift:24-79 | the scanner loop yields exactly the subpaths of the left-to-right scan (empty, `)` and `/` required text skipped, empty groups skipped) |
| Patterns.ClosingCheckMeansClosed | Routes/Extensions/String+Utilities.swift:62-64 | the intended closing check holds exactly when a `)` follows |
| Patterns.ClosingCheckAsWrittenMisses | Routes/Extensions/String+Utilities.swift:62-64 | the check as written passes the unclosed `/a(b` and fails the closed `/a()` |
| Patterns.KeepSupersetsSpec | Routes/Extensions/String+Utilities.swift:92-98 | a combination is kept exactly when it is a candidate and holds every required subpath |
| Patterns.Render | Routes/Extensions/String+Utilities.swift:101 | every rendered pattern starts with `/`, where the rendering starts |
| Patterns.RenderJoinsTexts | Routes/Extensions/String+Utilities.swift:100-110 | a rendering is `/` followed by the non-empty texts of the subpaths, in order, joined with `/`, when no text has a `/` at its ends |
| Patterns.ScannedText | Routes/Extensions/String+Utilities.swift:20-22 | the text of a scanned subpath is its piece trimmed of slashes, so it has no `/` at either end |
| Patterns.RenderValidCombination | Routes/Extensions/String+Utilities.swift:100-110 | every valid combination of a pattern's subpaths renders as `/` followed by the texts of its non-empty subpaths joined with `/` |
| Patterns.RenderPattern | Routes/Extensions/String+Utilities.swift:101-109 | the `forEach` appending path components computes the rendering |
| Patterns.RenderPatterns | Routes/Extensions/String+Utilities.swift:100-110 | the `map` renders each valid combination, in order |
| Patterns.InsertByLengthPermutes | Routes/Extensions/String+Utilities.swift:112-114 | one insertion step adds exactly the one string |
| Patterns.InsertByLengthSorted | Routes/Extensions/String+Utilities.swift:112-114 | one insertion step keeps the list longest first |
| Patterns.SortByLengthSpec | Routes/Extensions/String+Utilities.swift:112-114 | the sort is longest first and a permutation of its input |
| Patterns.RootedPermutation | Routes/Extensions/String+Utilities.swift:112-114 | sorting keeps every pattern rooted at `/` |
| Patterns.ExpansionContents | Routes/Extensions/String+Utilities.swift:81-117 | no `(` gives `[]`; the expansion is longest first, every entry starts with `/`, and a non-empty expansion is a permutation of the rendered valid combinations |
| Patterns.ExpandOptionalRoutePatterns | Routes/Extensions/String+Utilities.swift:81-117 | the imperative expansion equals the specified one |
| Patterns.ValidCombinationCount | Routes/Extensions/String+Utilities.swift:92-98 | with pairwise distinct required subpaths, 2^k combinations survive for k optional subpaths |
| Patterns.ExtendedCount | Routes/Extensions/String+Utilities.swift:92-98 | one more optional subpath doubles the valid combinations; one more new required one keeps their number |
| Patterns.ExpansionCount | Routes/Extensions/String+Utilities.swift:81-117 | a pattern with k optional groups and distinct required parts expands to exactly 2^k patterns |
| QueryParams.DecodedStringsSpec | Routes/Extensions/Dictionary+Utilities.swift:20-25 | a decoded list keeps exactly its strings, in order, each `+`-decoded |
| QueryParams.StringsOfMembers | Routes/Extensions/Dictionary+Utilities.swift:21-22 | a string is kept exactly when it is an element of the list; non-strings are dropped |
| QueryParams.RouteQueryParams | Routes/Extensions/Dictionary+Utilities.swift:12-34 | decoding off returns the dictionary unchanged; the key set is always kept |
| QueryParams.RouteQueryParamsSpec | Routes/Extensions/Dictionary+Utilities.swift:17-33 | a string value is `+`-decoded, a list value keeps exactly its decoded strings |
| QueryParams.DecodedStringsIdempotent | Routes/Extensions/Dictionary+Utilities.swift:20-25 | decoding a decoded list changes nothing |
| QueryParams.RouteQueryParamsIdempotent | Routes/Extensions/Dictionary+Utilities.swift:19-31 | applying the decoding twice equals applying it once |
| UrlComponents.CollectQueryParams | Routes/Extensions/URLComponents+Utilities.swift:12-32 | the loop adds the items in order to empty parameters; an absent query gives none |
| UrlComponents.QueryParamsValues | Routes/Extensions/URLComponents+Utilities.swift:17-29 | a name is a key exactly when some item gives it a value; one value is a string, several are the list of all of them in order |
| UrlComponents.ValuesForPresent | Routes/Extensions/URLComponents+Utilities.swift:17-20 | a name has values exactly when an item with that name has a value (valueless items are skipped) |
| UrlComponents.RoutePath | Routes/Extensions/URLComponents+Utilities.swift:34-74 | the in-place updates of the components and the path computed step by step equal the specified folding |
| UrlComponents.HostFolding | Routes/Extensions/URLComponents+Utilities.swift:35-39 | the host becomes `/` exactly when folded (non-empty, and flagged or neither `localhost` nor dotted); a folded empty path becomes the host; a folded non-empty path is the host less one trailing `/`, one `/`, then the path less one leading `/`; otherwise the path is unchanged |
| UrlComponents.FragmentSuffix | Routes/Extensions/URLComponents+Utilities.swift:41-73 | without a fragment the path is the folded path; otherwise `#` and the fragment path follow unless the fragment carries query parameters and its query is its path |
| UrlComponents.FragmentQueryMerged | Routes/Extensions/URLComponents+Utilities.swift:43-65 | the fragment's items are appended after the URL's own exactly when its first item has a non-empty value |
| Requests.RequestFor | Routes/Request.swift:18-35 | URL, options and extra parameters are kept; an unparsed URL gives no components and no query; a parsed one gives at least one component |
| Requests.NewRequest | Routes/Request.swift:18-35 | the initializer computes the specified request |
| Requests.RequestPathComponents | Routes/Request.swift:23-28 | the components hold no `/` and join back to the trimmed folded path |
| Requests.RequestQueryNames | Routes/Request.swift:23-29 | every name the query gives a value is a parameter, and so is every such name of a fragment carrying query parameters (query read after folding) |
| Requests.QueryParamsAreStrings | Routes/Extensions/URLComponents+Utilities.swift:21-28 | collected query parameters are strings or lists of strings |
| Requests.RequestQueryParamsAreStrings | Routes/Request.swift:29-33 | a request's query parameters always satisfy the decoder's precondition |
| Definitions.PatternComponentsSpec | Routes/Definition.swift:31-36 | components hold no `/` and join back to the pattern without one leading `/`; `"/"` gives `[""]` |
| Definitions.VariableName | Routes/Definition.swift:117-129 | the name is the component without a leading `:` and then without one trailing `#`; each is dropped exactly when it is there and more than one character remains |
| Definitions.VariableValue | Routes/Definition.swift:131-139 | the value is the percent-decoded component (the component when decoding fails), less one trailing `#` exactly when it ends in `#` and is longer than one character |
| Definitions.CapturesSome | Routes/Definition.swift:50-99 | the walk finds a match exactly when the request reaches the first wildcard and every earlier component is a variable or equals the request's |
| Definitions.CapturesStep | Routes/Definition.swift:66-91 | a literal component matches only an identical request component; a variable captures it |
| Definitions.CapturedWildcard | Routes/Definition.swift:76-87 | a `*` captures exactly the request components from its index on, possibly none, under `__wildcard__` |
| Definitions.CapturedNames | Routes/Definition.swift:66-75 | a match keeps the keys it started with and makes every variable before the wildcard a key |
| Definitions.CapturedLastValues | Routes/Definition.swift:55-92 | a variable's value is the one captured by its last occurrence before the wildcard; untouched keys keep their values |
| Definitions.MergedParametersAt | Routes/Definition.swift:141-164 | key by key: scheme over URL over pattern over caller parameters over route variables over decoded query; other keys absent |
| Definitions.AssignEach | Routes/Definition.swift:146-154 | writing entries one key at a time gives the map override |
| Definitions.ResponseMatch | Routes/Definition.swift:101-115 | match iff equal component counts or a wildcard, and the components match; a mismatch is `invalid`; a match reports pattern, URL and the scheme when set |
| Definitions.ResponseCaptures | Routes/Definition.swift:101-115 | a match carries the wildcard tail (unless the caller overrides it) and every variable before the wildcard |
| Definitions.Definition.constructor | Routes/Definition.swift:26-37 | the pattern, priority and handler are kept, no scheme, components split from the pattern |
| Definitions.Definition.Handle | Routes/Definition.swift:39-44 | the handler's verdict, or `true` without a handler |
| Definitions.Definition.Configure | Routes/Definition.swift:46-48 | the scheme is set |
| Definitions.Definition.Variables | Routes/Definition.swift:50-99 | the loop with `isMatch` and `break` computes the specified walk |
| Definitions.Definition.MatchParameters | Routes/Definition.swift:141-164 | the step-by-step filling computes the merged parameters |
| Definitions.Definition.ResponseFor | Routes/Definition.swift:101-115 | the response is the specified one for the definition's state |
| Definitions.EqualitySpec | Routes/Definition.swift:167-173 | equality is scheme, pattern and priority (components follow the pattern); a configured definition differs from an unconfigured one |
| RouteTables.FirstLowerSpec | Routes/Routes.swift:42-45 | before the first lower priority every definition has at least the new priority |
| RouteTables.FirstLowerUnique | Routes/Routes.swift:42-45 | that place is unique |
| RouteTables.InsertionIndexSpec | Routes/Routes.swift:39-49 | priority 0 appends; any other priority lands after every definition of at least that priority and before a lower one, and nowhere else |
| RouteTables.InsertionAfterBlock | Routes/Routes.swift:39-49 | after a block of priority p at p's place, the next definition of priority p follows the block |
| RouteTables.InsertBlock | Routes/Routes.swift:82-86 | definitions of one priority added in turn form one block, in order, at the place of the first |
| RouteTables.InsertionKeepsOrder | Routes/Routes.swift:41-49 | inserting a non-zero priority keeps a table in non-increasing priority order |
| RouteTables.NewStates | Routes/Routes.swift:80-84 | one definition per pattern, all with the given priority |
| RouteTables.Alternatives | Routes/Routes.swift:78-89 | a pattern registers at least one pattern: its expansion, or itself |
| RouteTables.LastWithPattern | Routes/Routes.swift:99-106 | the index found is the last definition with the pattern; none when no definition has it |
| RouteTables.CheckSpec | Routes/Routes.swift:141-149 | checking calls no handler and succeeds exactly when some definition matches |
| RouteTables.TrueIndicesSpec | Routes/Routes.swift:141-143 | the indices found are exactly those whose flag holds, each once, in increasing order |
| RouteTables.MatchIndicesSpec | Routes/Routes.swift:141-143 | the matching indices are exactly the definitions from `i` on that match, each once, in table order |
| RouteTables.DispatchSpec | Routes/Routes.swift:141-155 | routes iff some matching handler accepts; all calls decline except an accepting last one; when none accepts, one call per match |
| RouteTables.DispatchCalls | Routes/Routes.swift:141-155 | call k is the handler of the k-th matching definition in table order, with its pattern and matched parameters, so only matching handlers are called |
| RouteTables.DispatchWinner | Routes/Routes.swift:141-155 | when it routes, the last call is to the first definition whose handler accepts |
| RouteTables.OutcomeSpec | Routes/Routes.swift:121-166 | no URL: false and no calls; the unmatched handler is called once, last, exactly when executing routed nowhere and one is set |
| RouteTables.ScanRoutes | Routes/Routes.swift:139-155 | the loop over the snapshot computes the specified scan |
| RouteTables.ScanStep | Routes/Routes.swift:142-154 | one definition of the scan: a mismatch moves on, a match ends the scan when checking, otherwise the handler is called and its acceptance ends the scan |
| RouteTables.FindLastPattern | Routes/Routes.swift:99-106 | the `forEach` whose `return` ends only the closure finds the last index with the pattern |
| RouteTables.StatesOfInsert | Routes/Routes.swift:43 | inserting a definition inserts its state at the same index |
| RouteTables.StatesOfRemove | Routes/Routes.swift:109 | removing a definition removes its state at the same index |
| RouteTables.ConfiguredInsert | Routes/Routes.swift:50 | inserting a configured definition keeps every definition configured with the scheme |
| RouteTables.ConfiguredRemove | Routes/Routes.swift:109 | removing a definition keeps the others configured |
| RouteTables.Routes.constructor | Routes/Routes.swift:14-26 | the scheme is kept, no definitions, fallback off, `+` decoding on, host folding off, no unmatched handler |
| RouteTables.Routes.Reset | Routes/Routes.swift:28-32 | decoding on, host flag off, no definitions; fallback and unmatched handler untouched |
| RouteTables.Routes.PlaceDefinition | Routes/Routes.swift:39-49 | the definition ends up exactly once, at the priority's insertion index |
| RouteTables.Routes.AddDefinition | Routes/Routes.swift:38-51 | the definition is placed at its insertion index and configured with the table's scheme |
| RouteTables.Routes.AddPattern | Routes/Routes.swift:77-90 | one configured definition per alternative, same priority and handler, in expansion order, as one block at the priority's place; priority 0 appends |
| RouteTables.Routes.AddAlternatives | Routes/Routes.swift:82-86 | the alternatives are added by priority one after another |
| RouteTables.Routes.AddPatterns | Routes/Routes.swift:92-96 | each pattern's definitions are appended in turn with priority 0 |
| RouteTables.Routes.SetHandler | Routes/Routes.swift:64-75 | no handler removes the pattern's last definition; a handler appends the pattern's definitions; the settings stay |
| RouteTables.Routes.RemovePattern | Routes/Routes.swift:98-111 | at most one definition goes, the last with the pattern, others keep their order; no-op without one |
| RouteTables.Routes.CanRoute | Routes/Routes.swift:113-115 | the result of checking without executing |
| RouteTables.Routes.Route | Routes/Routes.swift:117-119 | the result and calls of executing |
| RouteTables.Routes.RouteWith | Routes/Routes.swift:121-166 | the request built with the table's options, the scan, then the unmatched handler when executing routed nowhere |
| Routers.Router.constructor | Routes/Router.swift:15-19 | no tables and no default table yet |
| Routers.Router.RoutesForScheme | Routes/Router.swift:65-73 | the registered table, or a new empty one registered under the scheme; repeated calls give the same table |
| Routers.Router.Default | Routes/Router.swift:15 | the default table has scheme `__scheme__`, is created or looked up once and kept; tables already chosen stay chosen |
| Routers.Router.RoutesForResource | Routes/Router.swift:57-62 | the scheme's registered table, else the default; only the default can be created |
| Routers.KeptTables | Routes/Router.swift:15-17 | the changes routing may make compose, and a resource that had a table keeps it |
| Routers.Router.RouteTo | Routes/Router.swift:21-32 | the table's result, retried on the default table only when it failed, falls back and is not the default; registered tables stay, only the default table can be created, and a resource's table does not change |
| Routers.Router.RouteFallback | Routes/Router.swift:27-29 | the default table, created if need be, routes the resource unless it is the table already tried |
| Routers.Router.CanRouteTo | Routes/Router.swift:34-44 | the same resolution, fallback rule and frame, checking only |
| Routers.Router.CanRouteFallback | Routes/Router.swift:39-41 | the default table, created if need be, checks the resource unless it is the table already tried |
| Routers.Router.Unregister | Routes/Router.swift:75-77 | only that key is removed, and its resources then resolve to the default table |
| Routers.Router.UnregisterAll | Routes/Router.swift:79-81 | the mapping is empty; the default table is kept |
| Routers.Router.DefinitionMapping | Routes/Router.swift:83-91 | exactly the registered schemes, each with its table's definitions in order |

## Left out

- Foundation's URL parsing, `removingPercentEncoding` and `Scanner` are not modelled. They are inputs: a parsed `Components` record and an `Unescaper` function. `Scanner`'s whitespace skipping is not modelled; the scanner here stops only at `(` and `)`.
- Strings.AppendingPathComponent: models `NSString.appendingPathComponent` only as joining at one `/`. On Apple platforms the result is also standardized: a trailing `/` is dropped and repeated slashes are collapsed. The model does neither. So for `tests://user/#/view/min` the model's path is `user/#/view/min`, with the components `user`, `#`, `view` and `min`, which does not match `/user#/view/:userID`. Apple's Foundation gives `user#/view/min`, which does match.
- Swift's `String.count` counts grapheme clusters; the model counts `char`s. The two differ for strings with combining sequences. This affects the longest-first sort key (String+Utilities.swift:112-114) and the `count > 1` tests of Definition.swift:120, 124 and 134.
- `print` at Routes/Routes.swift:158 is left out because it only logs.
- Closures are not called with effects. A handler is a function from parameters to a verdict. The unmatched handler is a flag on the table. Its call is an `Unmatched` event in the returned list. The `Routes` instance passed to it is not part of that event.
- The `subscript(pattern:)` getter of Routes.swift:65-67 always returns `nil` and is left out.
- The setter of `subscript(scheme:)` at Router.swift:50 does nothing and is left out. Its getter is `Routers.Router.RoutesForScheme`.
- The `@dynamicMemberLookup` subscript at Router.swift:53-55 only forwards to `subscript(scheme:)` and is left out.
- `remove(definition:)` at Routes.swift:53-58 is private and never called, so it is left out.
- `hashValue` of `Definition` and `Subpath` is left out; equality is modelled.
- Assertion failures are preconditions:
  - an unclosed `(` in a raw pattern (`GroupsClosed`, String+Utilities.swift:62-64);
  - a query parameter that is neither a string nor a list (Dictionary+Utilities.swift:28-29). `Requests.RequestQueryParamsAreStrings` proves that a request's own query parameters always meet this precondition.
- RouteTables.Routes.AddDefinition: requires the definition to be new and unconfigured, as every caller in Routes.swift creates it just before. The equality check of line 46 is then modelled: it finds the definition exactly when the loop placed it.
- Two guarded branches of `variables(for:)` cannot be reached and have no counterpart in the model:
  - a variable without a request component (Definition.swift:67-69);
  - a wildcard past the request's end (Definition.swift:84-86).
- The model follows the code where the prose description of the library differs:
  - `remove(pattern:)` removes the last definition with the pattern, not the first, because the `return` inside `forEach` does not stop the scan;
  - the optional-group expansion does not remove duplicate patterns.
- Patterns.SortByLength: Swift's `sorted(by:)` is not stable. The model sorts by insertion, and its lemmas claim only the longest-first order and the permutation. They do not claim the order among patterns of equal length.

## Findings

| source | as written | input that shows it | evidently intended | confidence | as-written member | corrected member |
|---|---|---|---|---|---|---|
| Routes/Extensions/String+Utilities.swift:62-64 | after `scanUpTo(")")` the assertion checks that some text was scanned | `/a(b` passes though no `)` follows (the scan location then moves past the end); `/a()` fails though its group is closed | the check that a `)` follows, as its message says | not executed | Patterns.ClosingCheckAsWrittenMisses | Patterns.ClosingCheckMeansClosed |

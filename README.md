# Subtitle search aggregation, modelled in Dafny

This project models the core of a small subtitle-search API. The API asks several
subtitle websites for a search term, merges their answers, and can proxy one
subtitle archive download. Three parts carry the logic:

- **Source registry** (`SourceManager`). It maps an adapter name to its site adapter,
  like a JavaScript `Map`. Registering a new name appends it to the key order.
  Registering a known name replaces its adapter and keeps the key where it was. The
  registry answers lookups, lists every adapter in key order, and lists the names of
  the available adapters. The model is the class `Registry.SourceManager`. It holds a
  key sequence `keys` and a map `sources`. `RegisterSource` appends a new name to `keys`
  and sets the map entry.
- **Aggregation service** (`SubtitleService`). A search rejects an empty query. It then
  picks its adapters: all of them when no names are requested, otherwise each
  requested name that is registered, in request order, keeping duplicates. It fails
  when a non-empty request names no registered adapter. Each adapter's outcome is
  collected. A throwing adapter contributes nothing. The lists are concatenated in
  adapter order and stably sorted by `source`. A download looks up one adapter and
  returns only the bytes of its payload. The model is the class
  `Aggregation.SubtitleService`. `Search` is a method with the source's push loop.
  The sort is the function `SourceOrder.SortBySource`, proved sorted, a permutation
  and stable, and shown to be the only arrangement with these three properties.
- **Baiscope adapter** (`BaiscopeLK`). It scans the `<a>` elements of the search page in
  document order. It keeps each element whose trimmed text is non-empty, whose `href`
  is non-empty, and whose lower-cased text contains the lower-cased query. Each kept
  element is tagged `source = "baiscope"`, and the first 20 are returned. The model is
  module `Baiscope`. `ParseSearchResults` is a method with the source's loop, proved
  equal to `FirstMatches`. Lemmas on `FirstMatches` state the bound, the shape of
  every item, and that no qualifying anchor is skipped.

Adapters are values (`SourceInterface.Adapter`). Network-backed `search(query)` and
`download(url)` are given as functions from the argument to the outcome the call
would produce: `Ok` with a value, or `Err` with the thrown `Error`'s message.
Everything fetched over HTTP becomes an input. For Baiscope, that is the sequence of
anchors on the search page, the download-link `href` on a post page, and the bytes a
link serves.

The JavaScript string operations the scraper uses are in module `Text`. `trim`
removes exactly the ECMAScript WhiteSpace and LineTerminator code points.
`toLowerCase` maps the ASCII letters only. `includes` is substring search.
`localeCompare` is modelled as lexicographic order on characters (`SourceOrder.StrLe`),
proved reflexive, total, transitive and antisymmetric.

The model follows the code in three places where its behaviour is easy to misread:

- An empty `href` counts as missing, both when a search filters anchors and when
  `getDownloadURL` reads the download link. The code tests `url` and `downloadLink`
  for truthiness.
- The registry does keep insertion order. `getAllSources` and `getAvailableSources`
  follow the `Map`'s key order.
- Availability is `isAvailable() !== false` over a method typed `boolean`, so an
  adapter is listed exactly when `isAvailable()` returns `true`. An adapter without
  the method would make the call throw; it is not "available by default".

## Model

| member | source | states |
|---|---|---|
| `Registry.SourceManager.constructor` | api/services/SourceManager.ts:4 | the registry starts as an empty map with no keys |
| `Registry.SourceManager.RegisterSource` | api/services/SourceManager.ts:6-8 | the name maps to the new adapter afterwards; every other name's lookup is unchanged; a new name is appended to the key order and a known name keeps its position; the name is listed as available exactly when the adapter is available; key distinctness and name agreement are preserved |
| `Registry.SourceManager.GetSource` | api/services/SourceManager.ts:10-12 | the lookup is `undefined` exactly for names never registered; otherwise it is the adapter stored under that name, whose own name is that name |
| `Registry.SourceManager.GetAllSources` | api/services/SourceManager.ts:14-16 | one adapter per registered key, in key order, each stored under its own name, no name twice |
| `Registry.SourceManager.GetAvailableSources` | api/services/SourceManager.ts:18-23 | a subsequence of the keys (so in key order) holding exactly the names whose adapter is available, and never longer than the full adapter list |
| `Registry.Values` | api/services/SourceManager.ts:15 | one value per key, the i-th being the adapter stored under the i-th key |
| `Registry.AvailableNames` | api/services/SourceManager.ts:19-22 | the filtered keys form a subsequence of the keys and hold exactly the available names |
| `Registry.SubsequenceNoLonger` | api/services/SourceManager.ts:18-23 | a filtered key list is never longer than the key list |
| `Aggregation.SubtitleService.constructor` | api/services/SubtitleService.ts:5 | the service keeps the registry it is given |
| `Aggregation.SubtitleService.SourcesForSearch` | api/services/SubtitleService.ts:53-67 | an empty request selects every registered adapter; a non-empty request fails with "None of the requested sources are available" exactly when no requested name is registered, and otherwise resolves the requested names |
| `Aggregation.Resolve` | api/services/SubtitleService.ts:58-60 | resolution is empty exactly when no requested name is registered, and it is never longer than the request; `ResolvedAdapters` states which adapters it yields and `ResolveAppend` that it goes name by name |
| `Aggregation.ResolvedAdapters` | api/services/SubtitleService.ts:58-60 | an adapter is resolved exactly when it is the adapter stored under some requested, registered name, so no unrequested adapter is ever searched |
| `Aggregation.ResolveAppend` | api/services/SubtitleService.ts:58-60 | resolution works name by name in request order: resolving a concatenation concatenates the resolutions, so unknown names vanish and repeated names repeat |
| `Aggregation.SubtitleService.Search` | api/services/SubtitleService.ts:7-36 | an empty query fails with "Query is required"; a failed selection passes its error on; an empty request never fails, and gives `[]` on an empty registry; otherwise the result is the stable sort by source of the adapters' lists concatenated in adapter order: sorted, a permutation of the concatenation, and in concatenation order within each source |
| `Aggregation.Concat` | api/services/SubtitleService.ts:28-30 | the per-adapter lists pushed one after another; its properties are stated by `ConcatAppend`, `ConcatLength` and `ConcatMember` |
| `Aggregation.ConcatAppend` | api/services/SubtitleService.ts:28-30 | pushing the lists of two consecutive groups of adapters gives the two concatenations one after the other |
| `Aggregation.ConcatLength` | api/services/SubtitleService.ts:28-30 | the merged list is as long as the sum of the per-adapter list lengths (no deduplication) |
| `Aggregation.ConcatMember` | api/services/SubtitleService.ts:28-30 | an item is in the merged list exactly when it is in one adapter's list |
| `Aggregation.FailingAdapterContributesNothing` | api/services/SubtitleService.ts:16-24 | an adapter whose search throws leaves the merged list exactly as the other adapters alone make it |
| `Aggregation.Settle` | api/services/SubtitleService.ts:17-24 | a successful search's list is kept as it is; a throwing search becomes `[]` |
| `Aggregation.Gather` | api/services/SubtitleService.ts:16-26 | one list per selected adapter, in adapter order: the adapter's results when its search succeeds, `[]` when it throws |
| `Aggregation.GatheredItems` | api/services/SubtitleService.ts:16-30 | an item is in the merged list exactly when some selected adapter's search succeeded and returned it |
| `Aggregation.SubtitleService.Download` | api/services/SubtitleService.ts:38-47 | an unregistered name fails with "Invalid source: " followed by the name, whatever any adapter would do; otherwise the adapter's failure is passed on unchanged, or the payload's content is returned |
| `Aggregation.SubtitleService.GetAvailableSources` | api/services/SubtitleService.ts:49-51 | the registry's available list: a subsequence of the keys (so in key order) holding exactly the registered names whose adapter is available |
| `SourceOrder.StrLe` | api/services/SubtitleService.ts:33 | the comparison of two sources: a source is at most every source it is a prefix of; `StrLeReflexive`, `StrLeTotal`, `StrLeTransitive` and `StrLeAntisymmetric` make it a total order |
| `SourceOrder.StrLeReflexive` | api/services/SubtitleService.ts:33 | every source compares equal to itself under the key order |
| `SourceOrder.StrLeTotal` | api/services/SubtitleService.ts:33 | any two sources are comparable |
| `SourceOrder.StrLeTransitive` | api/services/SubtitleService.ts:33 | the key order is transitive |
| `SourceOrder.StrLeAntisymmetric` | api/services/SubtitleService.ts:33 | sources that compare equal both ways are the same string |
| `SourceOrder.Insert` | api/services/SubtitleService.ts:33 | one insertion step of the stable sort adds exactly one element; its placement is stated by `InsertPermutes`, `InsertSorted` and `InsertKeepsOrderPerSource` |
| `SourceOrder.SortBySource` | api/services/SubtitleService.ts:33 | `results.sort` keeps the number of items; `SortBySourceCorrect` and `StableSortIsUnique` state that it is sorted, a permutation, stable, and the only such arrangement |
| `SourceOrder.InsertPermutes` | api/services/SubtitleService.ts:33 | inserting one item adds exactly that item |
| `SourceOrder.InsertSorted` | api/services/SubtitleService.ts:33 | inserting into a source-sorted list keeps it sorted |
| `SourceOrder.InsertKeepsOrderPerSource` | api/services/SubtitleService.ts:33 | an inserted item goes ahead of every item with the same source, and the others keep their order |
| `SourceOrder.SortBySourceCorrect` | api/services/SubtitleService.ts:33 | the sorted list is ordered by source, is a permutation of the input, and keeps the input's relative order among items of each source (stability) |
| `SourceOrder.WithSourceMember` | api/services/SubtitleService.ts:33 | an item is among the items of a source exactly when it is in the list with that source |
| `SourceOrder.FirstSourceIsLeast` | api/services/SubtitleService.ts:33 | in two lists that agree source by source, the head of a sorted one has the least source |
| `SourceOrder.SortedAgreeingEqual` | api/services/SubtitleService.ts:33 | two source-sorted lists that agree source by source are equal |
| `SourceOrder.StableSortIsUnique` | api/services/SubtitleService.ts:33 | any arrangement sorted by source that keeps each source's order is the sort's result, so the output is fully determined by the concatenation order |
| `Text.LeadingSpace` | api/sources/BaiscopeLK.ts:66 | the count of leading white space stops at a non-space character |
| `Text.TrailingSpace` | api/sources/BaiscopeLK.ts:66 | the count of trailing white space stops at a non-space character |
| `Text.LeadingSpaceIsSpace` | api/sources/BaiscopeLK.ts:66 | every counted leading character is white space |
| `Text.TrailingSpaceIsSpace` | api/sources/BaiscopeLK.ts:66 | every counted trailing character is white space |
| `Text.SpaceRunsDisjoint` | api/sources/BaiscopeLK.ts:66 | a string with a non-space character keeps it between its leading and trailing white space |
| `Text.Trim` | api/sources/BaiscopeLK.ts:66 | a non-empty trimmed text starts and ends with a non-space character |
| `Text.TrimDropsOnlyOuterSpace` | api/sources/BaiscopeLK.ts:66 | the trimmed text is a slice of the text with only white space around it, and is empty exactly when the text is all white space |
| `Text.Lower` | api/sources/BaiscopeLK.ts:69 | lower-casing keeps the length, turns each upper-case ASCII letter into its lower-case counterpart, leaves no upper-case ASCII letter, and changes nothing else |
| `Text.Includes` | api/sources/BaiscopeLK.ts:69 | `includes` over the start positions of the title; its meaning is stated by `IncludesIffOccurs` |
| `Text.IncludesIffOccurs` | api/sources/BaiscopeLK.ts:69 | `includes` holds exactly when the query occurs at some position of the title |
| `Baiscope.GetName` | api/sources/BaiscopeLK.ts:9-11 | the adapter's name is a non-empty lower-case routing key |
| `Baiscope.IsAvailable` | api/sources/BaiscopeLK.ts:44-46 | the adapter always reports itself available |
| `Baiscope.FilterMap` | api/sources/BaiscopeLK.ts:65-76 | the scan never yields more results than there are anchors |
| `Baiscope.FilterMapAppend` | api/sources/BaiscopeLK.ts:65-76 | the scan works anchor by anchor in document order: scanning a concatenation concatenates the scans |
| `Baiscope.FilterMapOrigin` | api/sources/BaiscopeLK.ts:65-76 | every pushed result comes from an anchor that passed the test |
| `Baiscope.FilterMapPlaces` | api/sources/BaiscopeLK.ts:65-76 | an anchor that passes the test yields the result right after those of the anchors before it |
| `Baiscope.Keeps` | api/sources/BaiscopeLK.ts:69 | the test of one anchor: trimmed title and url both non-empty, lower-cased title containing the lower-cased query; what it guarantees about the pushed item is stated by `QualifyingAnchorIsHit` |
| `Baiscope.Qualifies` | api/sources/BaiscopeLK.ts:66-69 | the test applied to an anchor's trimmed text and `href`; what it guarantees is stated by `QualifyingAnchorIsHit` |
| `Baiscope.QualifyingAnchorIsHit` | api/sources/BaiscopeLK.ts:66-75 | an anchor that passes the test yields an item tagged "baiscope" with a trimmed non-empty title, a non-empty url, and a lower-cased title containing the lower-cased query |
| `Baiscope.FirstMatches` | api/sources/BaiscopeLK.ts:65-78 | what `parseSearchResults` returns: at most 20 items, a prefix of all matches in document order, and all of them when fewer than 20 match |
| `Baiscope.ParseSearchResults` | api/sources/BaiscopeLK.ts:61-79 | the loop returns the first twenty matches of the anchors in document order |
| `Baiscope.FirstMatchesShape` | api/sources/BaiscopeLK.ts:65-78 | at most 20 results; each is tagged "baiscope", has a non-empty trimmed title and a non-empty url, has a lower-cased title containing the lower-cased query, and comes from a qualifying anchor |
| `Baiscope.NoQualifyingAnchorSkipped` | api/sources/BaiscopeLK.ts:65-78 | a qualifying anchor preceded by fewer than 20 matches appears in the result, at the position given by the number of matches before it |
| `Baiscope.GetDownloadURL` | api/sources/BaiscopeLK.ts:48-59 | fails with "Download link not found on page" exactly when the download link's href is missing or empty; otherwise returns that href |
| `Baiscope.Download` | api/sources/BaiscopeLK.ts:23-42 | a failed post-page fetch fails with "Download failed: " followed by its cause; a page without a download link fails with "Download failed: Download link not found on page"; with a link found, the download succeeds exactly when fetching the link succeeds, and a failed fetch gives "Download failed: " followed by its cause; a success carries the bytes fetched from the page's link, the file name "subtitle.zip" and the byte count as size |
| `Baiscope.Search` | api/sources/BaiscopeLK.ts:13-21 | a failed page fetch fails with "Search failed for baiscope: " followed by its cause; a fetched page always succeeds with exactly the list `parseSearchResults` returns (`FirstMatches` of its anchors), so no result is dropped: at most 20 items, each tagged "baiscope", with a trimmed non-empty title containing the query case-insensitively and a non-empty url |
| `Baiscope.AsAdapter` | api/sources/BaiscopeLK.ts:5-11 | the adapter registers under "baiscope" and is available |
| `Baiscope.AdapterTagsItsResults` | api/sources/BaiscopeLK.ts:13-21 | a successful search through the adapter returns at most 20 items, each tagged with the adapter's own name |

## Left out

- The HTTP handler in api/index.ts is not part of this model: CORS headers, routing by path substring, parameter parsing, JSON and binary responses. Its line 33 destructures a `split` result as an object and means nothing. These are I/O plumbing.
- The HTTP client calls and HTML parsing in api/sources/BaiscopeLK.ts are inputs. The anchors of the search page, the download-link `href` of a post page, and the bytes served by a link are given to the model, not computed. The CSS selectors, the URL built with `encodeURIComponent`, the 10-second timeout and the `User-Agent` header are not modelled.
- `Buffer` and array-buffer conversion: payload content is a sequence of bytes.
- Concurrency: `Promise.all` over the adapters is a map over the adapter sequence, which keeps the same order.
- Logging with `console.error` is not modelled.
- An adapter that throws something other than an `Error` gets the message "Unknown error" in the source. The model passes the cause's message through as a string and does not distinguish this case.
- The other adapters (CineruLK, PirateLK, ZoomLK) registered in api/index.ts are not part of this model.
- Update in place: `Search` builds its result list as a sequence value. The in-place `Array.prototype.sort` is the function `SortBySource` on that value. Aliasing of the results array is not modelled.
- JavaScript strings are UTF-16 code-unit sequences; the model's strings are sequences of Unicode scalar values, so lone surrogates are not represented.
- An `isAvailable()` that returns something other than a boolean is not modelled.
- Text.Lower: maps only the ASCII letters A-Z; the full Unicode case mapping of `toLowerCase` is not modelled.
- SourceOrder.StrLe: stands for `localeCompare(...) <= 0` as lexicographic order on characters; locale-specific collation is not modelled.
- Adapter calls are functions of their argument (`SourceInterface.Adapter`): two calls with the same query or url give the same outcome. In the source these are independent HTTP fetches that can differ, for example when a name requested twice times out once and succeeds once.
- Malformed adapter results: the source types results as `any[]`, so a result that is not iterable makes the merge loop throw, and an item without a string `source` makes `localeCompare` throw. Both happen outside the per-adapter `catch` and fail the whole search. The model's `SourceInterface.Item` has a string `source` and results are sequences, so neither case can arise.

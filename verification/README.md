# Webmentions for a static site: a verified model of the fetch cache and the per-page filters

This project models the core of an Eleventy plugin that shows webmentions
(notifications that another page liked, reposted, replied to or mentioned a
page of the site) under the pages they target. Two parts are modelled:

- **The per-page selector** (`filters.js`). Paths are normalised by
  lower-casing and stripping the outer runs of `/`. A page-alias table is
  built once at configuration. `filterWebmentions` keeps the mentions whose
  target matches the page (directly or through an alias), whose author has a
  truthy name or url, and whose `wm-property` is listed in some bucket.
  `count` returns how many there are. `mentions` returns `total` plus one
  group per bucket.
- **The incremental fetch and the cache merge** (`webmentions.js`). Pages of
  1000 records are requested until a shorter page arrives. `get` refetches
  only when the cache is at least `cacheTime` seconds old, or was never
  fetched. It prepends what it fetched to the cached records, stamps
  `lastFetched`, writes the cache and returns the records.

Files and modules:

- `records.dfy` (`Records`): the mention record, its author, and `Option`
  and `Settled` (a settled promise: resolved value or rejection).
- `sequences.dfy` (`Sequences`): `Filter` (the array `filter` method), with
  lemmas that it yields an order-preserving sub-list, keeps every occurrence
  of an accepted element, distributes over `+`, and that two filters fuse
  into one.
- `paths.dfy` (`Paths`): `stripOuterSlashes` as a method with the source's
  two scanning loops, proved equal to the function `Stripped`. The lemmas
  characterise `Stripped`, and `Normalise` is lower-casing followed by
  stripping.
- `filters.dfy` (`Filters`): the alias table (a loop, proved against
  `CleanedAliases`), the three filters, `count`, and `mentions` (a loop that
  fills the result object, proved against `Grouped`).
- `webmentions.dfy` (`Webmentions`): `fetchWebmentions` as a recursive
  function over a page oracle, the requests it issues, and the class
  `Webmentions`. Its field `cacheFile` stands for the cache file, and its
  method `Get` is `get`.

The network is a `Server`: for each `since` cursor, the finite sequence of
answers for pages 0, 1, 2, …. An answer is `Ok(children)` (an ok status and
its decoded body), `NotOk` (a non-ok HTTP status) or `Failed` (the request
or the JSON decoding rejects). Pages past the end answer with no children. The clock becomes two parameters of `Get`:
`Date.now()` for the freshness test (webmentions.js line 74) and the
`new Date()` that stamps `lastFetched` (line 80). Times are integer
milliseconds.

Behaviours of the code worth noting (the model follows the code):

- A non-ok status on a page after the first one does not make `get` serve
  the stale cache. `fetchWebmentions` resolves to `null` for that page, and
  the caller one level up spreads `null` into an array literal. That throws
  a TypeError, so the fetch rejects, and `get` has no handler, so `get`
  rejects too. Nothing is written. Only a non-ok status on the first page
  gives `null` and so serves the stale cache (`FetchOutcome`, `Get`).
- A request or JSON decoding that rejects (`Failed`) makes the fetch reject
  on any page, the first included, so `get` rejects and writes nothing.
- Pagination has no cap on the number of requests. Termination comes from
  the finite feed. `Requests` bounds the number of requests by the number
  of pages plus one.
- A cache exactly `cacheTime` seconds old is refetched (`>=`).
- `filterWebmentions` does no sorting. Mentions come out in input order.
- A mention whose property is in no bucket is excluded from `total` as well
  as from every group.
- The result object of `mentions` sets `total` first and then one key per
  bucket. A bucket named `total` therefore overwrites the count
  (`TotalIsCount`).

## Model

| member | source | states |
|---|---|---|
| `Paths.StripOuterSlashes` | filters.js:11-17 | the two index loops return exactly `Stripped(s)`, including the empty and all-slash inputs where the loops cross |
| `Paths.StrippedShape` | filters.js:11-17 | the result is an infix of the input, bordered on both sides by slashes only, and has no leading or trailing slash: the removed runs are maximal and interior slashes are kept |
| `Paths.StrippedUnique` | filters.js:11-17 | any split of a string into slashes, a part without outer slashes, and slashes determines the result: that part |
| `Paths.StrippedIdempotent` | filters.js:12-16 | stripping twice equals stripping once |
| `Paths.StrippedEmpty` | filters.js:12-16 | the result is empty exactly for the empty string and the all-slash strings |
| `Paths.Normalise` | filters.js:36-47 | the normalised path (lower-cased, then stripped) has no outer slash and is no longer than the input |
| `Paths.NormaliseIgnoresCase` | filters.js:36-47 | normalising a lower-cased path gives the same as normalising the path |
| `Paths.NormaliseIgnoresLeadingSlash` | filters.js:36-47 | an extra leading slash does not change the normalised path |
| `Paths.NormaliseIgnoresTrailingSlash` | filters.js:36-47 | an extra trailing slash does not change the normalised path |
| `Paths.SlashAndCaseExample` | filters.js:36-47 | `/foo/`, `foo` and `FOO` normalise to the same path |
| `Sequences.Filter` | filters.js:42-58 | each `filter` step returns a list no longer than its input containing exactly the input elements the test accepts |
| `Filters.CleanAliases` | filters.js:23-32 | the accumulating loop builds exactly `CleanedAliases`: keys written in order, later keys overwriting earlier ones that normalise alike |
| `Filters.CleanedAliasesKeys` | filters.js:23-32 | a path is a key of the alias table exactly when some configured key normalises to it |
| `Filters.CleanedAliasesLastWins` | filters.js:23-32 | the aliases stored under a normalised key are the normalised aliases of the last configured key that normalises to it |
| `Filters.SingleAliasIsList` | filters.js:25-29 | a string alias is stored as the one-element list of its normalised form |
| `Filters.MakeFilters` | filters.js:19-32 | configuration keeps the buckets as given (the three standard buckets when omitted) and builds the alias table once (empty when omitted); its keys are exactly the normalised configured keys |
| `Filters.FilterWebmentions` | filters.js:34-59 | the filtered list is no longer than the input and holds exactly the input mentions that match the page or one of its aliases, have an author with a truthy name or url, and have a property listed in some bucket |
| `Filters.FilterWebmentionsIsOneFilter` | filters.js:42-58 | the chain of three filters equals one filter by the conjunction of the three tests |
| `Filters.FilterWebmentionsSelects` | filters.js:42-58 | the filtered list is an order-preserving sub-list of the input that keeps every occurrence of each accepted mention and no occurrence of any rejected one |
| `Filters.RejectedIsInvisible` | filters.js:53-58 | inserting a mention that fails any test (no bucket for its property, no named author, other page) anywhere in the input changes neither the filtered list, nor `count`, nor any field of `mentions` |
| `Filters.SameNormalisedPathSameMentions` | filters.js:35-51 | two page paths that normalise alike select the same mentions |
| `Filters.Count` | filters.js:61-69 | `count` is at most the number of input mentions |
| `Filters.Mentions` | filters.js:71-91 | the loop over bucket names returns an object whose keys are `total` and the bucket names, equal to `Grouped` |
| `Filters.TotalIsCount` | filters.js:78-88 | `total` equals `count` unless a bucket is named `total`, in which case that bucket's group overwrites it |
| `Filters.GroupContents` | filters.js:84-88 | each group is an order-preserving sub-list of the filtered mentions and holds exactly the accepted mentions whose property its bucket lists, with as many copies of each as the filtered list has; a property in two buckets puts the mention in both |
| `Webmentions.Requests` | webmentions.js:21-37 | the requests are for consecutive pages from the start page, all with the same `since`; every page but the last requested was full, the last was not, and there are at most as many requests as pages plus one |
| `Webmentions.FetchOutcome` | webmentions.js:21-41 | the fetch resolves to `null` exactly when the first page has a non-ok status, and resolves to a list exactly when every requested page was ok; that list is the requested pages' children in page order; any other failure rejects, a rejected request on the first page included, so no partial list is returned |
| `Webmentions.FullPagesThenShort` | webmentions.js:29-37 | k full pages followed by an ok short page give those k + 1 pages' children concatenated in order, using exactly k + 1 requests (k = 0: a short page is returned as is and nothing more is requested) |
| `Webmentions.Merged` | webmentions.js:79-82 | the merged state is stamped with the fetch time and holds the fetched records followed by the cached ones, with no de-duplication, so its length is the sum |
| `Webmentions.Webmentions.constructor` | webmentions.js:5-15 | the freshness window is kept as given (3600 seconds by default); the cache file starts as given (absent by default) |
| `Webmentions.Webmentions.ReadFromCache` | webmentions.js:55-67 | with a cache file, its contents; without one, the never-fetched state with no children |
| `Webmentions.Webmentions.WriteToCache` | webmentions.js:43-53 | the cache file afterwards holds exactly the written state |
| `Webmentions.Webmentions.Get` | webmentions.js:69-89 | a cache that has a `lastFetched` younger than `cacheTime` seconds is returned unchanged, with no request and no write. Otherwise the fetch uses `since = lastFetched`. On success the file becomes the merged state, which is also returned. When the first page has a non-ok status, the old children are returned and nothing is written. When a later page fails, or any request or decoding rejects, `get` rejects and nothing is written |

## Left out

- URL parsing: `new URL(page, "https://lukeb.co.uk")` and
  `new URL(mention["wm-target"])`. The page path and each mention's target
  are taken as pathname strings, and the throw on a relative target is not
  modelled.
- The fallbacks to the host's ambient page (`this.page`, `this.ctx`,
  `this.context`) in `count` and `mentions`. Callers always pass the page
  path.
- `toLowerCase` is modelled on the ASCII letters only. Unicode case mapping
  is not modelled.
- Lookups of keys that the alias object inherits from its prototype (a page
  path normalising to `constructor` or `__proto__`) are not modelled. The
  table is a plain map.
- The enumeration order of `Object.keys` (integer-like keys first,
  ascending, then the others in insertion order) is not computed.
  `PageAliases` is already that enumeration, so of two keys that normalise
  alike the one later in it wins, as in the source.
- Author fields are optional strings. Truthiness of other JSON values in
  `name` or `url` is not modelled.
- HTTP (`node-fetch`), the query string of `getUrl` and `params`, JSON
  decoding of responses, and `console.log` are replaced by the `Server`
  oracle. `domain` and `token` only feed the URL, so they are not modelled.
- File I/O (`fs.stat`, `mkdir`, `readFile`, `writeFile`), the cache
  directory and JSON (de)serialisation of the cache are not modelled. The
  cache file is the field `cacheFile`, and "written" means that field was
  assigned. An unreadable or malformed cache file is not modelled.
- ISO-8601 formatting and parsing of `lastFetched` are not modelled. Times
  are integer milliseconds, so an unparsable stamp (which would make the
  age `NaN`) cannot arise.
- Async sequencing is not modelled. Promises appear only as their settled
  outcome (`Settled`).
- The loop of `Filters.Mentions` visits the buckets in an arbitrary order, not in
  `Object.keys` order. The resulting object is the same either way.
- Sorting, content sanitisation, truncation and canonical-URL rewriting
  have no code in `filters.js` or `webmentions.js`, so they are not part of
  this model.

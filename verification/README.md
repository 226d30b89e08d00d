# juliangaramendy.dev post catalog and cache, in Dafny

A model of the logic behind the blog juliangaramendy.dev: where posts come
from, how they are listed and linked to each other, and how an expensive
value is cached on disk.

- **Cache** (`cache.dfy`). `getCached` keeps one file per key holding a
  `done` entry (with a value) or a `pending` entry (someone is producing the
  value). A read of a fresh `done` entry is a hit. A fresh `pending` entry
  makes the reader wait 500 ms and read again. Anything else is revalidated:
  write `pending` (10 s), call the producer once, write `done`. The files are
  the `files` map of the class `FileCache`. Every read, write and producer
  call is logged in a ghost `trace`. The clock is a sequence of readings, one
  per poll.
- **Catalog ordering** (`catalog.dfy`). Every listing is sorted with
  `a.date > b.date ? -1 : 1`, a comparison of strings. The model proves the
  result newest first and a permutation of the input.
- **dev.to source** (`dev_api.dfy`), **filesystem source** (`fs_api.dfy`),
  **stand-alone page loader** (`page_api.dfy`) and the **relative-link
  rewrite** both of the file-based loaders use (`link_rewrite.dfy`). The HTTP
  responses, directory listings and parsed markdown files are inputs.
- **Related posts** (`core_posts.dfy`). A post's `prev` (older) and `next`
  (newer) neighbours in the newest-first listing.
- **Merged source** (`merged_api.dfy`). Both listings in one sorted listing.
  Lookup by slug tries the filesystem first and falls back to dev.to.
- **Static-site pages** (`gatsby_node.dfy`). One page per markdown node,
  with its previous and next nodes. The GraphQL query text. The `slug` field
  added to markdown nodes.

The shared records (`PostSummary`, `Post`, `RelatedPosts`) and the failure
values are in `types.dfy`.

## Model

| member | source | states |
|---|---|---|
| Types.OrElse | lib/fs-api.ts:47 | `x \|\| d` on an optional string: the value when it is a non-empty string, the default when it is absent or empty |
| Cache.CacheFileName | lib/cache.ts:24 | the cache file of a key is `./jgdev-cache-<digest>.json`, with the digest at a fixed place |
| Cache.HasExpired | lib/cache.ts:51-52 | an entry is expired exactly when the clock is past its expiry; at the expiry instant it is still fresh |
| Cache.ExpiryIsFinal | lib/cache.ts:51-52 | once an entry has expired it stays expired at every later reading |
| Cache.Decide | lib/cache.ts:51-65 | hit iff the entry is `done` and not expired; wait iff it is `pending` and not expired; revalidate iff it is absent or expired, with expiry strict (`now > expiresAt`) |
| Cache.FirstDecisive | lib/cache.ts:54-62 | the index of the first poll that does not wait: every earlier poll waits, and that poll does not |
| Cache.FreshDoneIsHit | lib/cache.ts:56-58 | a fresh `done` entry is returned after one read, with no write and no producer call |
| Cache.FreshPendingWaits | lib/cache.ts:59-61 | a fresh `pending` entry costs one read and then the call behaves as a call with the remaining clock |
| Cache.MissingOrExpiredRevalidates | lib/cache.ts:44-49 | absent or expired entries lead to: read, write `pending` with expiry now+10000, one producer call, then `done` with expiry doneAt+ttl on success; a failure leaves `pending` and is returned |
| Cache.ProducerCalledAtMostOnce | lib/cache.ts:44-65 | one call touches only its own key's file, calls the producer at most once, and only right after writing `pending` |
| Cache.ProducedValueServedUntilExpiry | lib/cache.ts:35-40 | once a call has produced a value, a later call that reads before expiry gets that value with one read and no producer call |
| Cache.FailedProductionRetriedAfterTimeout | lib/cache.ts:29-33 | a failed producer leaves `pending`; later calls wait on it until 10000 ms have passed, then produce again |
| Cache.PollsSpacedSpread | lib/cache.ts:60 | reads spaced by `wait(500)` are at least 500·n ms after the first |
| Cache.PollsToOutwait | lib/cache.ts:60 | enough polls to pass a given expiry |
| Cache.PendingWaitEnds | lib/cache.ts:59-64 | with polls spaced 500 ms apart and enough of them, waiting on `pending` ends in a producer call |
| Cache.FileCache.constructor | lib/cache.ts:19-24 | the cache starts from the given files with an empty trace |
| Cache.FileCache.ReadEntry | lib/cache.ts:26-27 | returns the key's entry, or none when the file is missing; logs one read; files unchanged |
| Cache.FileCache.WritePendingEntry | lib/cache.ts:29-33 | overwrites the key's file with `pending`, expiry now+10000, and nothing else |
| Cache.FileCache.WriteEntry | lib/cache.ts:35-40 | overwrites the key's file with `done`, expiry now+ttl, and the value |
| Cache.FileCache.Revalidate | lib/cache.ts:44-49 | write `pending`, call the producer, write `done` on success; result, files and log as the revalidation specification says |
| Cache.FileCache.GetValue | lib/cache.ts:54-65 | the polling loop: its result, files afterwards and log equal the `getValue` specification, whose properties are the lemmas above |
| Cache.FileCache.GetCached | lib/cache.ts:19-24 | `getValue` on the file named after the key's digest |
| Catalog.StrLess | lib/merged-api.ts:14 | JavaScript's `<` on date strings: only a non-empty string can be greater, and a proper prefix is smaller |
| Catalog.StrLessIrreflexive | lib/merged-api.ts:14 | no date is before itself under string comparison |
| Catalog.StrLessTransitive | lib/merged-api.ts:14 | string comparison of dates is transitive |
| Catalog.StrLessAsymmetric | lib/merged-api.ts:14 | two dates are never each before the other |
| Catalog.StrLessCommonPrefix | lib/merged-api.ts:14 | a common prefix does not change the comparison |
| Catalog.StrLessTotal | lib/merged-api.ts:14 | of two different dates, one is before the other |
| Catalog.NotOlderTransitive | lib/merged-api.ts:14 | "not older than" is transitive |
| Catalog.PrependNewest | lib/merged-api.ts:13-15 | a post not older than the head of a newest-first listing may go in front of it |
| Catalog.InsertBehindHead | lib/merged-api.ts:13-15 | a post older than the head goes behind it, and the listing stays newest first with that post added |
| Catalog.Insert | lib/merged-api.ts:13-15 | inserting into a newest-first listing keeps it newest first and adds exactly that post |
| Catalog.SortByDateDesc | lib/merged-api.ts:13-15 | the sort yields a newest-first listing that is a permutation of its input |
| Catalog.SortKeepsMembers | lib/merged-api.ts:13-15 | a post is in the sorted listing iff it is in the input |
| Catalog.TwoPostsNewestFirst | src/core/get-posts.ts:6-8 | a 2021-01-01 post listed before a 2021-06-01 post is moved after it |
| DevApi.ArticleToPostSummary | lib/dev-api.ts:62-69 | the summary takes slug, title, date and description from the article's fields |
| DevApi.Summaries | lib/dev-api.ts:6 | one summary per article, in order |
| DevApi.GetAllPosts | lib/dev-api.ts:5-7 | a failed listing fails the call; otherwise one summary per listed article, same order, with the article's slug, title, timestamp as date, and description |
| DevApi.Projection | lib/dev-api.ts:57-58 | the partial article has exactly the requested keys, each with the article's value |
| DevApi.ArticleBySlug | lib/dev-api.ts:43-60 | a failed fetch fails; an article with another slug is `not found`; otherwise the requested fields only |
| DevApi.GetDevToArticleBySlug | lib/dev-api.ts:43-60 | the field-copying loop gives the result `ArticleBySlug` specifies |
| DevApi.PostFieldsProjection | lib/dev-api.ts:10-17 | the post's projection holds slug, title, body, timestamp, cover and social image, and no description |
| DevApi.GetPostBySlug | lib/dev-api.ts:9-31 | succeeds iff the fetched article carries the slug; falsy title becomes "", falsy date 1970-01-01; description is always "" because it is not fetched; no related posts |
| CorePosts.GetAllPosts | src/core/get-posts.ts:4-10 | the dev.to listing, newest first, as a permutation; a failed listing fails |
| CorePosts.FindIndex | src/core/get-posts.ts:20 | -1 iff no post has the slug; otherwise the first index with it |
| CorePosts.RelatedIn | src/core/get-posts.ts:18-29 | for the first post with the slug: `prev` is the next post in the listing (none at the end), `next` the one before (none at the start); no neighbours for an unknown slug |
| CorePosts.GetRelatedPosts | src/core/get-posts.ts:18-29 | the neighbours in the current newest-first catalog; a failed listing fails the call |
| CorePosts.GetPostBySlug | src/core/get-posts.ts:12-16 | the dev.to post with only `relatedPosts` replaced; the catalog failure is reported first |
| CorePosts.RelatedSymmetric | src/core/get-posts.ts:22-25 | with distinct slugs, q is p's `prev` iff p is q's `next` for adjacent posts |
| CorePosts.ThreePostCatalog | src/core/get-posts.ts:18-29 | the neighbours in [a, b, c] for each slug and for an unknown one |
| LinkRewrite.LineEnd | lib/fs-api.ts:41 | the line of a match ends at or after its start and within the text |
| LinkRewrite.LineEndIsFirstTerminator | lib/fs-api.ts:41 | `LineEnd` stops at the first line terminator, which `.` cannot cross |
| LinkRewrite.LastClose | lib/fs-api.ts:41 | a `)` found in a range is inside it |
| LinkRewrite.LastCloseIsLast | lib/fs-api.ts:41 | the `)` found is the last of its range, where greedy `.+` backtracks to; none found means none there |
| LinkRewrite.IsMatch | lib/fs-api.ts:41 | a match `(c/X)` of the pattern at the head of a string is at least five characters long and lies on one line |
| LinkRewrite.MatchAt | lib/fs-api.ts:41 | a match found at the head of a string ends at a `)` at index 4 or later |
| LinkRewrite.MatchAtFindsMatch | lib/fs-api.ts:41 | a match of the pattern `(c/X)` is found at the head of a string exactly when there is one |
| LinkRewrite.MatchIsUnique | lib/fs-api.ts:41 | a match at a given place has only one end |
| LinkRewrite.Rewrite | lib/fs-api.ts:41 | the `replace` with the pattern's global flag: an empty text stays empty and the first character is kept, since a replacement starts with the `(` it replaces; the lemmas below say what becomes of each match and of the text around it |
| LinkRewrite.RewriteWithoutLinksIsIdentity | lib/fs-api.ts:41 | markdown with no `(c/` is left unchanged |
| LinkRewrite.RewriteKeepsPlainPrefix | lib/fs-api.ts:41 | text before the first `(` is kept as is |
| LinkRewrite.MatchStaysOnItsLine | lib/fs-api.ts:41 | a match does not depend on anything after the end of its line |
| LinkRewrite.RewriteUpToLineEnd | lib/fs-api.ts:41 | the text before a line terminator is rewritten on its own |
| LinkRewrite.RewriteLineByLine | lib/fs-api.ts:41 | the rewrite of two lines is the rewrite of each, with the line terminator between them kept |
| LinkRewrite.RewriteOneLink | lib/fs-api.ts:41 | a link `(c/X)` on a line becomes `(<prefix>X)` |
| LinkRewrite.GreedyMatchSpansTwoLinks | lib/fs-api.ts:41 | two links `(c/x) mid (d/y)` on one line are one match: the second link stays unrewritten inside the first one's target |
| FsApi.VisibleEntries | lib/fs-api.ts:13-15 | keeps exactly the directory entries not starting with `.`, each as often as it is listed |
| FsApi.VisibleEntriesAppend | lib/fs-api.ts:13-15 | the filter keeps the listing's order: filtering two halves and joining them is filtering the whole |
| FsApi.GetPostSummary | lib/fs-api.ts:21-32 | the summary's slug is the directory name; title and date are the front matter's, "" when unset; a falsy description becomes ""; a missing file fails |
| FsApi.SummariesOf | lib/fs-api.ts:16-17 | one summary per slug in order; fails iff some slug has no file |
| FsApi.SummariesHaveTheirSlugs | lib/fs-api.ts:16-17 | the summaries' slugs are exactly the listed slugs |
| FsApi.GetAllPosts | lib/fs-api.ts:12-19 | an unreadable directory fails; otherwise newest first, one summary per visible entry, no hidden entry, every visible entry present, a permutation of the summaries |
| FsApi.GetPostBySlug | lib/fs-api.ts:34-51 | a missing file fails; falsy title becomes "", falsy date 1970-01-01; relative links point into `/blog/<slug>/` |
| FsApi.GetPage | lib/fs-api.ts:55-72 | a missing file fails; falsy title and description become ""; relative links point into `/pages/<slug>/` |
| FsApi.PostWithoutRelativeLinks | lib/fs-api.ts:41 | a post without link openings is rendered from its markdown unchanged |
| PageApi.GetPage | lib/get-page.ts:10-29 | a missing file fails; falsy title and description become "" |
| PageApi.SameAsFsApiGetPage | lib/get-page.ts:10-29 | both `getPage` functions give the same page |
| PageApi.PageWithoutLinks | lib/get-page.ts:17-20 | a page without link openings is rendered from its markdown unchanged |
| PageApi.PageWithOneLink | lib/get-page.ts:17-20 | a page whose markdown is the link `(c/x)` links to `/pages/<slug>/x` |
| MergedApi.GetAllPosts | lib/merged-api.ts:11-17 | succeeds iff both sources do; otherwise one of their errors; newest first; a permutation of both listings together |
| MergedApi.GetPostBySlug | lib/merged-api.ts:19-27 | the filesystem's post when it has one, otherwise dev.to's answer, its failure included |
| MergedApi.LookupPrefersFilesystem | lib/merged-api.ts:19-27 | a post on disk is served whatever dev.to says; without a file, a dev.to article with another slug gives `not found` |
| MergedApi.MergedListingHoldsBothSources | lib/merged-api.ts:12-13 | a post is in the merged listing iff it is in one of the sources |
| GatsbyNode.QueryForType | gatsby-node.js:55-77 | the query text, with the type at a fixed place |
| GatsbyNode.QueryForTypeInjective | gatsby-node.js:55-77 | different types give different queries |
| GatsbyNode.GetPagesOfType | gatsby-node.js:47-53 | a query answering with errors fails with them, even when the array is empty; otherwise its edges |
| GatsbyNode.PageFor | gatsby-node.js:19-30 | path and context slug are the post's slug; `previous` is none iff the post is last, else the next post; `next` is none iff it is first, else the one before |
| GatsbyNode.CreatePages | gatsby-node.js:16-32 | exactly one page per post, in input order, each as `PageFor` gives it |
| GatsbyNode.NeighboursPointAtEachOther | gatsby-node.js:19-20 | page i's `next` is post i-1 and page i-1's `previous` is post i |
| GatsbyNode.SameNeighboursAsCatalog | gatsby-node.js:19-20 | with distinct slugs, pages have the same neighbours as `getRelatedPosts` over a listing in the same order |
| GatsbyNode.MetaCreatePagesOfType | gatsby-node.js:10-14 | a failed query creates nothing; otherwise the pages of the queried posts with the type's template |
| GatsbyNode.CreateSitePages | gatsby-node.js:4-8 | blog-post pages, then page pages; a failed query stops the run after what was created before it |
| GatsbyNode.OnCreateNode | gatsby-node.js:34-45 | a markdown node gets `slug` set to its file path and keeps every other field; other nodes are unchanged |

## Left out

- File I/O, `fetch`, GraphQL, `setTimeout` and the clock are not modelled as effects. Directory listings, parsed files, HTTP answers, query answers and clock readings are inputs.
- SHA-1, `os.tmpdir()`, `path.join` and `path.resolve` are not modelled. The digest and the resolver are function parameters.
- gray-matter front-matter parsing and `markdownToHtml` are not modelled. They are function parameters; the file-based loaders take the content after the second `matter` pass.
- lib/fs-read-write.ts and lib/fs-read-write-json.ts are not part of this model. A missing cache file reads as no entry. A corrupt cache file makes the real read reject; the model has no such file.
- Write failures of the cache files and concurrent writers are not modelled. Each call sees only its own writes, and the trace is the log of one process.
- Cache.FileCache.GetValue: the source polls a `pending` entry without a bound; the model stops when the clock readings run out and returns `PollsExhausted`.
- Cache.FileCache.Revalidate: the `pending` expiry uses the reading of the poll that decided to revalidate, not a fresh clock reading.
- Catalog.SortByDateDesc: promises only sortedness and permutation. The comparator never returns 0, so the order of equal dates depends on the JavaScript engine.
- Catalog.StrLess compares characters as code points; JavaScript compares UTF-16 code units. The two differ only outside the Basic Multilingual Plane, which dates do not use.
- FsApi.GetPostSummary: a missing title or date is undefined in the source; the model gives "". For the date this changes the ordering: in JavaScript `undefined > x` and `x > undefined` are both false, so the comparator answers 1 both ways and where such a post ends up depends on the engine; the model sorts it last.
- MergedApi.GetAllPosts: when both sources fail, `Promise.all` reports whichever rejects first; the model reports the filesystem's error.
- LinkRewrite.Rewrite: JavaScript's `.` without the `u` flag matches one UTF-16 code unit, while the model's characters are code points. A character outside the Basic Multilingual Plane in the `c` position, as in `(😀/x)`, is no match in JavaScript but is rewritten by the model.
- LinkRewrite.Rewrite does not model `$` patterns inside the slug, which `replace` would expand.
- Non-string front-matter values (a YAML date, a number) and null JSON fields are not modelled. Every field is a string or absent.
- `Post.description` is optional in the model because the filesystem post never sets it, though the declared type requires it.
- CorePosts: src/core/get-posts.ts imports `./dev-api`, a src/core/dev-api.ts that is not part of this model. The model assumes it behaves as lib/dev-api.ts and uses `DevApi` for it.
- Cache.FileCache.GetValue: a cache hit returns `JSON.parse` of the text that was written, not the producer's value itself. The model stores and returns the value unchanged, so it assumes every value survives the JSON round trip.
- lib/legacy-blogposts.ts, next.config.js, the API route and all React and Gatsby templates are not part of this model.

# HW OnSale archive performance glue, in Dafny

This project models the WooCommerce glue that serves and speeds up the
store's product archives and its "on sale" page:

- **The on-sale REST endpoint** (`GET hw/v1/onsale?page=&limit=`, in
  `hw-onsale-rest.php`). It normalises `page` and `limit`, keeps one transient
  per `(page, limit)`, and on a miss slices the on-sale id list, falling back to
  the price-ordered lookup query. It formats the products, computes
  `total`/`totalPages`, and answers 304 or 200 by comparing `If-None-Match` with
  the body's ETag. It is modelled as the class `OnsaleRest.OnsaleEndpoint`,
  whose transient store is a `map`.
- **The inline "load more" script** in the same file. It is modelled as a
  state machine (`OnsaleClient.Step`) and as the class `OnsaleClient.LoadMore`,
  whose handlers each perform one step.
- **The archive guards** (`hw-archive-guards.php`):
  - the blocked-tracker-host test;
  - the two `wp_enqueue_scripts` hooks that dequeue assets, modelled on a
    `WpDependencies.Registry` class standing for `WP_Scripts`/`WP_Styles`;
  - the resource-hint filter;
  - the `style_loader_tag` preload of three stylesheets, and how it combines
    with the performance plugin's later filter;
  - the "first attachment image is eager/high" filter, with its `static` flag;
  - the Cloudflare image URL and `srcset` rewriter.
- **The archive performance plugin** (`hw-perf-archive.php`):
  - the critical-CSS whitespace collapse;
  - the preload rewrite of listed stylesheets;
  - the idempotent `defer` insertion;
  - the removal of `jquery-migrate`;
  - the LCP image that is stored once per request and announced with a
    preload link.
- **The slider component** (`Slider::render`): per-slide attribute choices,
  registering the first image as LCP, and the navigation dots with their target
  slides.

PHP's own semantics are written out in `PhpRuntime`:

- `empty()` (where `"0"` is empty);
- `trim()` (its six characters) against PCRE `\s`;
- `strpos` as substring search;
- left-to-right `str_replace`;
- `explode`/`implode`, `array_filter`;
- `preg_split`/`preg_replace` with `/\s+/`.

`array_unique` (first occurrence kept) is `OnsaleRest.Dedupe`, next to its one use.

The WordPress calls the code makes are inputs or parameters:

- `wp_parse_url`, `home_url`, `esc_url`, `esc_attr` and `md5(wp_json_encode())`
  are function parameters;
- `is_ssl`, `is_admin` and the archive-scope test are booleans;
- the id transient, the two SQL queries and `wc_get_product` are a `Catalog`
  value.

Behaviour worth knowing:

- `page`/`limit` pass through `absint` before `max`/`min`, so a negative page
  is mirrored (`-3` becomes page 3), not clamped to 1.
- A 304 on the client leaves the button disabled and busy. The handler returns
  on the null body before re-enabling anything, so the button is never re-enabled.
- The ids of a page follow the order of the id source: the precomputed list, or
  the unordered query. Only the fallback query is ordered by price.
- `total` always counts the id list. When the slice is empty and the fallback
  query supplies the page, `total` can be smaller than the page implies.
- The LCP preload link is added to `wp_head` by the first mark that stores an
  image, so only marks made before `wp_head` reaches priority 5 can produce it.
  `Slider::render` marks from the page body: unless an earlier mark stored an
  image, its image is stored but no link is printed (`PerfArchive.LateMarkPrintsNothing`).
  The model takes the request's marks split at that point.

## Model

| member | source | states |
|---|---|---|
| PhpRuntime.TrimIsInfix | wp-content/mu-plugins/hw-archive-guards.php:341 | trim() returns a contiguous piece of its input, and everything cut on either side is a trim character |
| PhpRuntime.ReplaceAllIntroduces | wp-content/mu-plugins/hw-perf-archive.php:135 | when str_replace's search string occurs, its replacement occurs in the result |
| PhpRuntime.ReplaceAllAbsent | wp-content/mu-plugins/hw-perf-archive.php:135 | when the search string does not occur, str_replace returns its input |
| PhpRuntime.TrimAfterWord | wp-content/mu-plugins/hw-archive-guards.php:350 | trim() of a word with no trim character at either end, then a tail, keeps the word and trims only the tail's right end |
| PhpRuntime.CollapseSpacesShape | wp-content/mu-plugins/hw-perf-archive.php:80 | after preg_replace('/\s+/', ' ') the only whitespace left is ' ', and no two whitespace characters are adjacent |
| PhpRuntime.CollapseSpacesKeepsText | wp-content/mu-plugins/hw-perf-archive.php:80 | the collapse keeps every non-whitespace character, in order |
| PhpRuntime.JoinSplitSpaces | wp-content/mu-plugins/hw-archive-guards.php:347-349 | implode(' ', preg_split('/\s+/', s)) is s with each whitespace run collapsed to one space |
| PhpRuntime.JoinSplit | wp-content/mu-plugins/hw-archive-guards.php:341 | implode(',', explode(',', s)) == s: exploding on commas loses nothing |
| PhpRuntime.FilterMembers | wp-content/mu-plugins/hw-archive-guards.php:111 | array_filter keeps an element exactly when it was there and passes the test |
| WpDependencies.WithoutMembers | wp-content/mu-plugins/hw-perf-archive.php:150-153 | array_diff (or a dequeue) keeps an element exactly when it was there and is not removed |
| WpDependencies.WithoutTwice | wp-content/mu-plugins/hw-archive-guards.php:64-65 | two dequeues in a row are one removal of both handles |
| WpDependencies.WithoutKeepsDistinct | wp-content/mu-plugins/hw-archive-guards.php:81 | removing handles from a queue without repetitions leaves one without repetitions |
| WpDependencies.Registry.Dequeue | wp-content/mu-plugins/hw-archive-guards.php:81 | wp_dequeue_script takes the handle out of the queue, keeps the order of the rest and the registrations |
| WpDependencies.Registry.Deregister | wp-content/mu-plugins/hw-archive-guards.php:82 | wp_deregister_script drops the registration and leaves the queue |
| WpDependencies.Registry.SetDeps | wp-content/mu-plugins/hw-perf-archive.php:150-153 | assigning a registered handle's deps changes only that handle's dependency list |
| OnsaleRest.NormalizePage | wp-content/mu-plugins/hw-onsale-rest.php:20-35 | page >= 1 for every input; default 1; absint mirrors a negative page; 0 becomes 1 |
| OnsaleRest.NormalizeLimit | wp-content/mu-plugins/hw-onsale-rest.php:24-36 | 1 <= limit <= 48 for every input; default 12; values are clamped, never rejected |
| OnsaleRest.OnsaleIds | wp-content/mu-plugins/hw-onsale-rest.php:137-148 | the precomputed list is used when it is non-empty, otherwise the query; absint keeps the length |
| OnsaleRest.ArraySlice | wp-content/mu-plugins/hw-onsale-rest.php:44 | array_slice returns at most len items: the window when it fits, nothing past the end |
| OnsaleRest.PageIds | wp-content/mu-plugins/hw-onsale-rest.php:43-58 | a page has at most `limit` ids and none of them is zero |
| OnsaleRest.Dedupe | wp-content/mu-plugins/hw-onsale-rest.php:99 | array_unique returns a list without repetitions, drawn from the input |
| OnsaleRest.DedupeMembers | wp-content/mu-plugins/hw-onsale-rest.php:99 | array_unique keeps exactly the ids of its input |
| OnsaleRest.DedupeKeepsFirstOccurrenceOrder | wp-content/mu-plugins/hw-onsale-rest.php:99 | the kept ids appear in the order of their first occurrences |
| OnsaleRest.DedupeDistinct | wp-content/mu-plugins/hw-onsale-rest.php:99 | a list without repetitions is returned as it is |
| OnsaleRest.Badges | wp-content/mu-plugins/hw-onsale-rest.php:125-128 | badges are a subsequence of ["Sale", "Featured"]; "Sale" iff on sale, "Featured" iff featured |
| OnsaleRest.Hydrate | wp-content/mu-plugins/hw-onsale-rest.php:105-109 | ids with no product are skipped, so there are never more summaries than ids |
| OnsaleRest.HydrateAll | wp-content/mu-plugins/hw-onsale-rest.php:105-131 | when every id names a product there is one summary per id, in the ids' order |
| OnsaleRest.FormatProductsForRest | wp-content/mu-plugins/hw-onsale-rest.php:97-135 | the loop yields the summaries of the deduplicated ids that name a product, in order |
| OnsaleRest.CeilDivIsCeiling | wp-content/mu-plugins/hw-onsale-rest.php:74 | totalPages is the least page count of `limit` items that holds `total` items; zero iff total is zero |
| OnsaleRest.ComputePage | wp-content/mu-plugins/hw-onsale-rest.php:41-77 | the body echoes page and limit and holds at most `limit` products |
| OnsaleRest.PageTotalsAreCeiling | wp-content/mu-plugins/hw-onsale-rest.php:60-77 | totalPages == ceil(total / limit) in both branches, including the empty page |
| OnsaleRest.PastTheEnd | wp-content/mu-plugins/hw-onsale-rest.php:44-67 | a page past the end of both id sources is the empty page with total 0 and totalPages 0 |
| OnsaleRest.FullPage | wp-content/mu-plugins/hw-onsale-rest.php:41-77 | inside a list of distinct ids that all name products, a page holds min(limit, total - offset) products and total is the list's length |
| OnsaleRest.PageOfDistinct | wp-content/mu-plugins/hw-onsale-rest.php:58-76 | a non-empty page of distinct positive ids is hydrated as it is, and total counts the whole id list |
| OnsaleRest.PageIdsInsideList | wp-content/mu-plugins/hw-onsale-rest.php:43-58 | inside a precomputed list, the page ids are exactly the slice at (page-1)*limit, of the expected length |
| OnsaleRest.ThirtyItemsInPagesOfTwelve | wp-content/mu-plugins/hw-onsale-rest.php:33-77 | 30 items in pages of 12: 3 pages; page 1 holds 12, page 3 holds 6, page 4 is empty |
| OnsaleRest.Respond | wp-content/mu-plugins/hw-onsale-rest.php:82-92 | 304 with no body and no ETag iff the trimmed If-None-Match is non-empty and equals the ETag; otherwise 200 with body and ETag; same Cache-Control on both |
| OnsaleRest.BuildPage | wp-content/mu-plugins/hw-onsale-rest.php:41-77 | the miss branch, with its formatting loop, computes exactly ComputePage's body |
| OnsaleRest.OnsaleEndpoint.constructor | wp-content/mu-plugins/hw-onsale-rest.php:37-39 | the transient store starts empty |
| OnsaleRest.OnsaleEndpoint.CachedPage | wp-content/mu-plugins/hw-onsale-rest.php:37-79 | a stored page is served as it is and the catalog is not read; a missing one is ComputePage's body, stored under (page, limit) |
| OnsaleRest.OnsaleEndpoint.Handle | wp-content/mu-plugins/hw-onsale-rest.php:33-95 | a hit returns the stored body without reading the catalog; a miss computes the page and stores it under the key; the response is chosen on that body |
| OnsaleRest.RequestTwice | wp-content/mu-plugins/hw-onsale-rest.php:37-40 | the same request twice gets the same response even if the catalog changed, and the catalog is read at most once |
| OnsaleClient.RenderCard | wp-content/mu-plugins/hw-onsale-rest.php:192-238 | a card shows the product's link, name, price and image; badges only on the template path |
| OnsaleClient.RenderAll | wp-content/mu-plugins/hw-onsale-rest.php:257 | one card per product, in the payload's order |
| OnsaleClient.RenderProducts | wp-content/mu-plugins/hw-onsale-rest.php:257 | the forEach builds exactly the cards of the payload's products, in order |
| OnsaleClient.Sync | wp-content/mu-plugins/hw-onsale-rest.php:175-182 | syncGridMetrics requests a frame only when none is pending |
| OnsaleClient.Init | wp-content/mu-plugins/hw-onsale-rest.php:167-190 | the script starts with no cards, nothing in flight, an enabled button, and one frame requested iff it observes resizes |
| OnsaleClient.ClickStep | wp-content/mu-plugins/hw-onsale-rest.php:240-247 | a click on an enabled button requests currentPage + 1 with the limit and disables the button; otherwise nothing changes |
| OnsaleClient.LoadedStep | wp-content/mu-plugins/hw-onsale-rest.php:255-268 | a 200 body appends its cards, moves to its page, syncs, then hides the button iff page >= totalPages or re-enables it |
| OnsaleClient.NotModifiedStep | wp-content/mu-plugins/hw-onsale-rest.php:250-256 | a 304 changes nothing but ending the request: no card, same page, button still disabled |
| OnsaleClient.FailedStep | wp-content/mu-plugins/hw-onsale-rest.php:269-275 | an error re-enables the button and keeps the page and the cards |
| OnsaleClient.Step | wp-content/mu-plugins/hw-onsale-rest.php:240-283 | every callback keeps the cards as a prefix (append-only) and keeps limit, button and template |
| OnsaleClient.StepKeepsInv | wp-content/mu-plugins/hw-onsale-rest.php:240-283 | a request in flight means a disabled, busy button; a hidden button is disabled with nothing in flight; the frame token is the last one requested |
| OnsaleClient.RunKeepsInv | wp-content/mu-plugins/hw-onsale-rest.php:240-283 | that invariant holds after any sequence of callbacks |
| OnsaleClient.CardsOnlyGrow | wp-content/mu-plugins/hw-onsale-rest.php:257 | over any sequence of callbacks the grid only grows at its end |
| OnsaleClient.ClickWhilePending | wp-content/mu-plugins/hw-onsale-rest.php:244-247 | at most one request is in flight: a click while one is pending does nothing |
| OnsaleClient.HiddenIsFinal | wp-content/mu-plugins/hw-onsale-rest.php:262-263 | once hidden, no later callback makes a request, adds a card or changes the page |
| OnsaleClient.ResizesCoalesce | wp-content/mu-plugins/hw-onsale-rest.php:175-182 | any number of resizes without a frame request at most one animation frame |
| OnsaleClient.LoadAdvancesToRequestedPage | wp-content/mu-plugins/hw-onsale-rest.php:255-268 | with the endpoint's body for the requested page, the client moves to that page and hides exactly at or past the last page |
| OnsaleClient.LoadMore.constructor | wp-content/mu-plugins/hw-onsale-rest.php:167-190 | the object starts in Init's state |
| OnsaleClient.LoadMore.SyncGridMetrics | wp-content/mu-plugins/hw-onsale-rest.php:175-182 | performs Sync on the object's state |
| OnsaleClient.LoadMore.OnClick | wp-content/mu-plugins/hw-onsale-rest.php:278-283 | performs the Click step |
| OnsaleClient.LoadMore.OnPayload | wp-content/mu-plugins/hw-onsale-rest.php:255-268 | performs the Loaded step, rendering the products in a loop |
| OnsaleClient.LoadMore.OnNotModified | wp-content/mu-plugins/hw-onsale-rest.php:250-256 | performs the NotModified step |
| OnsaleClient.LoadMore.OnError | wp-content/mu-plugins/hw-onsale-rest.php:269-275 | performs the Failed step |
| OnsaleClient.LoadMore.OnResize | wp-content/mu-plugins/hw-onsale-rest.php:184-188 | performs the Resize step |
| OnsaleClient.LoadMore.OnFrame | wp-content/mu-plugins/hw-onsale-rest.php:177-178 | the frame callback clears the token |
| ArchiveGuards.WithScheme | wp-content/mu-plugins/hw-archive-guards.php:33-35 | a protocol-relative URL gets https: or http: by is_ssl; other URLs are untouched |
| ArchiveGuards.MatchesAnyIff | wp-content/mu-plugins/hw-archive-guards.php:50-54 | the early-return loop is true iff some needle is a substring of the host |
| ArchiveGuards.IsBlocked | wp-content/mu-plugins/hw-archive-guards.php:27-57 | an empty URL, or one without a parsable host, is never blocked |
| ArchiveGuards.IsBlockedIff | wp-content/mu-plugins/hw-archive-guards.php:27-57 | blocked iff non-empty, with a host, and the lower-cased host contains one of the four needles |
| ArchiveGuards.ProtocolRelativeGetsScheme | wp-content/mu-plugins/hw-archive-guards.php:33-37 | a // URL is judged exactly as the same URL with the request's scheme |
| ArchiveGuards.DequeueArchiveScripts | wp-content/mu-plugins/hw-archive-guards.php:59-66 | on an archive, wc-cart-fragments and wp-embed leave the queue; nothing else changes |
| ArchiveGuards.BlockedInMembers | wp-content/mu-plugins/hw-archive-guards.php:75-84 | a handle is removed iff it is queued, registered, and its source is blocked |
| ArchiveGuards.DequeueBlocked | wp-content/mu-plugins/hw-archive-guards.php:73-85 | the loop dequeues and deregisters exactly the queued registered handles with a blocked source, keeping the rest in order |
| ArchiveGuards.DequeueIfBlocked | wp-content/mu-plugins/hw-archive-guards.php:76-83 | one turn: unregistered or clean handles are skipped, a blocked one is dequeued and deregistered |
| ArchiveGuards.QueueIsClean | wp-content/mu-plugins/hw-archive-guards.php:75-98 | afterwards no queued handle is registered with a blocked source; unregistered handles stay queued |
| ArchiveGuards.DequeueBlockedAssets | wp-content/mu-plugins/hw-archive-guards.php:68-100 | the hook cleans the script registry, then the style registry, and nothing outside an archive |
| ArchiveGuards.ResourceHints | wp-content/mu-plugins/hw-archive-guards.php:102-114 | the hints change only on an archive and for preconnect/dns-prefetch; the result never grows, and then holds no blocked URL |
| ArchiveGuards.ResourceHintsMembers | wp-content/mu-plugins/hw-archive-guards.php:111-113 | a URL is kept iff it was a hint and is not blocked |
| ArchiveGuards.ResourceHintsConcat | wp-content/mu-plugins/hw-archive-guards.php:111-113 | the filter works URL by URL and keeps the order (it distributes over concatenation) |
| ArchiveGuards.ResourceHintsIdempotent | wp-content/mu-plugins/hw-archive-guards.php:102-114 | filtering twice is filtering once |
| ArchiveGuards.GuardStyles | wp-content/mu-plugins/hw-archive-guards.php:278-302 | unlisted handles, and all handles outside an archive, keep their tag; the three listed ones get a low-priority style preload, a print-media stylesheet switched to all on load and a noscript stylesheet, each on esc_url(href) |
| ArchiveGuards.GuardStyleMarkupInjective | wp-content/mu-plugins/hw-archive-guards.php:287-301 | an href without '"' can be read back from the guards' markup |
| ArchiveGuards.StyleFiltersInOrder | wp-content/mu-plugins/hw-archive-guards.php:278-302 | after both style filters, a handle on the performance plugin's list has its markup (it runs later and ignores the tag), and one only on the guards' list keeps the guards' markup |
| ArchiveGuards.Promote | wp-content/mu-plugins/hw-archive-guards.php:311-312 | loading becomes eager and fetchpriority high; every other attribute is kept |
| ArchiveGuards.OnlyFirstImagePromoted | wp-content/mu-plugins/hw-archive-guards.php:304-317 | only the first in-scope call is promoted; every other call returns its attributes unchanged |
| ArchiveGuards.FirstImageGate.constructor | wp-content/mu-plugins/hw-archive-guards.php:309 | the static flag starts true |
| ArchiveGuards.FirstImageGate.FilterAttributes | wp-content/mu-plugins/hw-archive-guards.php:304-317 | one call of the filter updates the flag and returns what GateStep says |
| ArchiveGuards.CdnPathInjective | wp-content/mu-plugins/hw-archive-guards.php:330 | with a comma-free format, the format and the original path plus query can be read back from the rewritten path |
| ArchiveGuards.FormatImageUrl | wp-content/mu-plugins/hw-archive-guards.php:320-331 | without a path the URL is returned as it is; otherwise home_url('/cdn-cgi/image/format=F,q=85' + path + ('?' + query if any)) |
| ArchiveGuards.TrimAll | wp-content/mu-plugins/hw-archive-guards.php:341 | array_map('trim') trims each source and keeps their number |
| ArchiveGuards.SrcsetEntry | wp-content/mu-plugins/hw-archive-guards.php:347-350 | an entry neither starts nor ends with a trim character |
| ArchiveGuards.SrcsetEntries | wp-content/mu-plugins/hw-archive-guards.php:343-351 | one entry per source, in order |
| ArchiveGuards.SrcsetEntryKeepsTail | wp-content/mu-plugins/hw-archive-guards.php:347-350 | the descriptor survives any URL rewrite: when the URL and its rewrite are words, the entry is the rewritten URL followed by exactly what follows the URL in the collapsed, trimmed source |
| ArchiveGuards.SrcsetEntryKeepsDescriptor | wp-content/mu-plugins/hw-archive-guards.php:347-350 | with the URL left alone, an entry is its source with whitespace runs collapsed, trimmed: the descriptor survives |
| ArchiveGuards.RewriteSources | wp-content/mu-plugins/hw-archive-guards.php:342-351 | the loop skips empty sources and rewrites the others in order |
| ArchiveGuards.TransformSrcset | wp-content/mu-plugins/hw-archive-guards.php:335-354 | an empty srcset gives ''; otherwise the rewritten non-empty sources joined with ', ' |
| PerfArchive.CriticalCss | wp-content/mu-plugins/hw-perf-archive.php:80 | the collapsed CSS does not start or end with a trim character |
| PerfArchive.CriticalCssShape | wp-content/mu-plugins/hw-perf-archive.php:80 | no leading or trailing whitespace; the only whitespace is ' '; no two whitespace characters are adjacent |
| PerfArchive.InlineCriticalCss | wp-content/mu-plugins/hw-perf-archive.php:46-81 | nothing outside an archive; otherwise the collapsed CSS inside the hw-perf-critical style element |
| PerfArchive.PreloadMarkup | wp-content/mu-plugins/hw-perf-archive.php:105-107 | three links on the same href, in order: the style preload, a print-media stylesheet that switches to all media on load, and a stylesheet inside <noscript>, which ends the markup |
| PerfArchive.PreloadMarkupInjective | wp-content/mu-plugins/hw-perf-archive.php:105-107 | an href without '"' can be read back from the markup: different hrefs give different markup |
| PerfArchive.PreloadStyles | wp-content/mu-plugins/hw-perf-archive.php:84-108 | unlisted handles, and all handles outside an archive, keep their tag; listed ones get the three links (preload, print-media stylesheet switched to all on load, noscript stylesheet), each on esc_url(href) |
| PerfArchive.PreloadStylesHref | wp-content/mu-plugins/hw-perf-archive.php:101-107 | for a listed handle the filter's output determines the escaped href |
| PerfArchive.DeferScript | wp-content/mu-plugins/hw-perf-archive.php:111-136 | the tag is unchanged out of scope, for an unlisted handle, or when it already contains ' defer ' |
| PerfArchive.DeferScriptDefers | wp-content/mu-plugins/hw-perf-archive.php:127-135 | a listed tag with a '<script ' opener comes out containing ' defer ' |
| PerfArchive.DeferScriptIdempotent | wp-content/mu-plugins/hw-perf-archive.php:131-135 | applying the filter twice equals applying it once |
| PerfArchive.WithoutMigrate | wp-content/mu-plugins/hw-perf-archive.php:149-159 | afterwards jquery-migrate is not registered and every other registration remains |
| PerfArchive.WithoutMigrateDeps | wp-content/mu-plugins/hw-perf-archive.php:149-153 | jQuery's deps lose jquery-migrate and keep every other entry; other handles are unchanged |
| PerfArchive.WithoutMigrateIdempotent | wp-content/mu-plugins/hw-perf-archive.php:149-159 | a second pass changes nothing |
| PerfArchive.OptimizeAssets | wp-content/mu-plugins/hw-perf-archive.php:139-160 | outside an archive or in admin nothing changes; otherwise the queue loses the three handles and the registry is WithoutMigrate of the old one |
| PerfArchive.Mark | wp-content/mu-plugins/hw-perf-archive.php:196-204 | a non-array or empty-src payload is ignored; the first acceptable one is stored; a stored image never changes |
| PerfArchive.StoredStays | wp-content/mu-plugins/hw-perf-archive.php:202-204 | once stored, no later call replaces the image |
| PerfArchive.FirstAcceptableStored | wp-content/mu-plugins/hw-perf-archive.php:196-204 | after any calls, the stored image is the first acceptable payload |
| PerfArchive.NoneAcceptableNoneStored | wp-content/mu-plugins/hw-perf-archive.php:198-200 | without an acceptable payload nothing is stored |
| PerfArchive.LcpStore.constructor | wp-content/mu-plugins/hw-perf-archive.php:202 | the static starts null |
| PerfArchive.LcpStore.MarkImage | wp-content/mu-plugins/hw-perf-archive.php:196-204 | one call performs Mark on the static |
| PerfArchive.LcpStore.RegisterImage | wp-content/mu-plugins/hw-perf-archive.php:225-231 | outside an archive nothing is marked |
| PerfArchive.LcpAttributes | wp-content/mu-plugins/hw-perf-archive.php:212-219 | imagesrcset is present iff its escaped value is truthy, imagesizes likewise, srcset first |
| PerfArchive.LcpLink | wp-content/mu-plugins/hw-perf-archive.php:209-220 | the link starts with the image preload prefix, carries the escaped src right after it, and ends with ' />' |
| PerfArchive.LcpPreloadLink | wp-content/mu-plugins/hw-perf-archive.php:205-221 | nothing outside an archive or with nothing stored; otherwise the link for the stored image |
| PerfArchive.LcpLinkIsFirstImage | wp-content/mu-plugins/hw-perf-archive.php:196-221 | on an archive, the link wp_head prints at priority 5 is the one for the first acceptable image marked before that point |
| PerfArchive.LateMarkPrintsNothing | wp-content/mu-plugins/hw-perf-archive.php:203-205 | with no acceptable mark before wp_head, nothing is printed, although a later mark still fills the static |
| Slider.SlideFor | src/Presentation/Components/Slider.php:32-67 | eager iff index 0, and the caller's priority there, auto elsewhere; own non-empty alt or the component alt; width 480 and height 600 by default; a link iff the permalink is truthy |
| Slider.Slides | src/Presentation/Components/Slider.php:32-73 | one slide per image |
| Slider.OnlyFirstSlideEager | src/Presentation/Components/Slider.php:37-39 | exactly slide 0 is eager; every later slide is lazy with priority auto |
| Slider.DotCount | src/Presentation/Components/Slider.php:76-80 | no dots for at most one image; otherwise min(n, 3) dots |
| Slider.RoundHalf | src/Presentation/Components/Slider.php:84 | PHP round() of m/2 rounds halves up |
| Slider.RoundHalfIsHalf | src/Presentation/Components/Slider.php:84 | round((n-1)/2) == n / 2 in integer division |
| Slider.Dots | src/Presentation/Components/Slider.php:83-97 | DotCount(n) dots |
| Slider.DotTargets | src/Presentation/Components/Slider.php:83-84 | every target is a slide in [0, n), strictly increasing; dot i targets i when n <= 3, else 0, n / 2 and n - 1 |
| Slider.OneActiveDot | src/Presentation/Components/Slider.php:89-92 | exactly dot 0 is active |
| Slider.FirstImageIsLcp | src/Presentation/Components/Slider.php:40-41 | on a fresh request, a first image with a non-empty src becomes the stored LCP image |
| Slider.Render | src/Presentation/Components/Slider.php:23-103 | no images give ''; otherwise the slides and dots above, with only the first image offered to the LCP store |

## Left out

- WordPress hook registration, priorities and `register_rest_route` are left out: they are framework dispatch. The archive-scope tests (`hw_is_product_archive_like`, `hw_perf_archive_is_scope`), `is_ssl` and `is_admin` are boolean inputs.
- The transient TTL (three minutes) is left out because there is no clock. A stored page is kept for the life of the `OnsaleEndpoint` object.
- The SQL queries, `wc_get_product`, `update_meta_cache`/`update_object_term_cache` and the attachment lookup are fields of a `Catalog` value. Rating markup, prices and names are taken as given.
- `md5(wp_json_encode())`, `esc_url`, `esc_attr`, `wp_parse_url` and `home_url` are function parameters: they are library code.
- In `Slider.Render`, attribute values are not escaped, and neither are the dot labels ("Image %d" of target + 1).
- The HTML text of the slider, of the cards (template and fallback article) and of the inline critical CSS bodies is left out. The slider and cards are modelled as views; the CSS text is an input.
- The `setInterval`/`addEventListener` monkey-patching (hw-archive-guards.php:129-201), `hwPerfThrottle` and the helper script registration (hw-perf-archive.php:163-194), and jQuery `fx.off` are left out: their point is browser timing.
- The DOM measurement in `syncGridMetrics` (`getBoundingClientRect`, `Math.round`) is left out: it is floating point. The model keeps only the single-pending-token coalescing.
- The `ResizeObserver` callback itself is not modelled: its presence is the `observe` flag of `Init`.
- `parseInt` returning NaN for a malformed data-page/data-limit is left out; they are integers. A `renderProduct` exception inside the promise chain is not modelled either.
- `OnsaleClient.ClickStep`: the click handler in the script has no guard. The model assumes the `[data-hw-onsale-more]` element is a form control such as `<button>`, so a disabled or missing button receives no click, and it puts that guard in the step. On an `<a>`, `disabled` blocks nothing and two fetches could overlap, which `OnsaleClient.ClickWhilePending` does not allow for.
- The archive guards' inline critical CSS (hw-archive-guards.php:218-276) is left out: it prints a fixed stylesheet and has no logic. The `woocommerce_get_product_thumbnail` markup (hw-archive-guards.php:357-) is left out: it is an HTML template around the attachment lookup and `ArchiveGuards.TransformSrcset`, which is modelled.
- The `pre_get_posts` query flags (hw-perf-archive.php:33-43) are left out: they are query-cache settings with no behaviour to state.
- Resource-hint entries that are arrays (`['href' => ...]`) rather than strings are left out: URLs are strings here. In the source such an entry is not empty, so it reaches `strpos($url, '//')` (hw-archive-guards.php:33), which throws a TypeError under PHP 8: an array hint ends the request with an error on an archive page.
- `PerfArchive.OptimizeAssets` reads `wp_script_is(..., 'enqueued')` as queue membership. WordPress also counts a handle that a queued handle depends on; that recursive part is not modelled. The WordPress queue is modelled without duplicates.
- `WpDependencies.Registry.SetDeps` and `PerfArchive.WithoutMigrate`: `array_diff` keeps the original array keys. The model keeps only the order of the remaining entries, which is all WordPress reads.
- `Slider.Render` takes `$images` as a list: the first slide is the one at key 0. An associative array without key 0 would have no eager slide; that case is not modelled.
- `OnsaleRest.Offset`, `OnsaleRest.PageIds` and `OnsaleRest.ComputePage` use unbounded integers. In PHP, `($page - 1) * $limit` past `PHP_INT_MAX` (a `page` near 10^18) becomes a float that `array_slice` rejects with a TypeError; the model returns an empty page there instead.
- `OnsaleRest.Badges`: the labels go through `__()` for translation; the model keeps the untranslated "Sale" and "Featured".
- Non-string values in the image arrays (an integer width, say) are modelled as strings, and only the keys the code reads are modelled.

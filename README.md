# MiKa comic reader — a verified model of its client-side logic

MiKa is a Next.js front end for a public comic catalogue API
(`otruyenapi.com`) and a private account API. Most of it is markup; this
project models the parts that compute something, and proves what they promise:

- **Request builders** (`ComicApi`): the path each catalogue endpoint asks
  for, its default page, and the cache tags it provides. The search path is
  shown to carry exactly two query parameters whatever the keyword holds,
  because `encodeURIComponent` escapes every delimiter.
- **Chapter reader** (`ChapterReader`): the image list (copy, stable sort by
  page number, map to CDN URLs), the choice of exactly one view, and the
  current-page index moved by the buttons and the arrow keys.
- **UI store** (`UiSlice`): the search and menu flags, the selected comic,
  the theme, and a reading history that is duplicate-free, newest first and
  capped at fifty entries.
- **Search page** (`SearchPage`): the page count from the server's totals,
  the prev/next clamping, and the choice of view.
- **Hero banner** (`HeroBanner`) and **comic card** (`ComicCard`): the rotation
  over at most five slides, the indicator jumps, and the URLs, labels and
  fallbacks they render.
- **Favorite button** (`FavoriteButton`) and **watch-history page**
  (`WatchHistoryPage`): state machines over abstract server answers, where
  state changes only when the server confirms.
- **Watch-history client** (`WatchHistoryService`): the base URL, the
  Authorization header, the list query built on a `URLSearchParams`, and
  the 404-to-null mapping.
- **Header** (`Header`): the trimmed search submit, the toggles backed by
  the UI store, and hiding the header on the reader.

Three helper modules supply the JavaScript built-ins these rely on, with real
definitions rather than assumptions:

- `Text`: number-to-string rendering, `String.prototype.trim` over the
  ECMAScript white-space and line-terminator set, and character search.
- `Uri`: UTF-8 as RFC 3629 defines it, `encodeURIComponent`, and the
  application/x-www-form-urlencoded serializer and parser behind `URLSearchParams`.
- `Wrappers`: `Option` and the settled-promise `Answer`.

Pure expressions are functions; components whose state React updates step by
step are classes whose methods name what they modify. Server calls, `alert`,
`confirm` and navigation are values that the methods take or return.

The search page has no fallback page size when the server omits
`totalItemsPerPage` (a field absent from the response type), so
`SearchPage.TotalPages` yields NaN and pagination is not shown. The image host
`APP_DOMAIN_CDN_IMAGE` is absent from that type as well; without it the result
cards load from the card's default host. The reader has
no swipe navigation, no scroll mode and no link to the next or previous
chapter. The watch-history client does not skip a call when there is no
token; it sends an empty Authorization header.

## Model

| member | source | states |
|---|---|---|
| ComicApi.OmittedPageIsOne | lib/services/comicApi.ts:149-173 | an omitted page builds the same path as page 1 for the category, list and search endpoints |
| ComicApi.QueryPassThrough | lib/services/comicApi.ts:140-178 | the chapter-data request is the locator verbatim; the detail path is `/truyen-tranh/` followed by the slug |
| ComicApi.CategoryQueryInjective | lib/services/comicApi.ts:149 | two category requests share a path only if slug and page are equal |
| ComicApi.ListQueryInjective | lib/services/comicApi.ts:160 | two list requests share a path only if list type and page are equal |
| ComicApi.SearchQueryParameters | lib/services/comicApi.ts:172-173 | the search path is `/tim-kiem?` then exactly two `&`-separated parameters, `keyword=` with the encoded keyword and `page=` with the page; it has no `?` or `#` beyond that; the keyword parameter decodes back to the keyword |
| ComicApi.SearchQueryInjective | lib/services/comicApi.ts:172-173 | two search requests share a path only if keyword and page are equal |
| ComicApi.TagsByEndpoint | lib/services/comicApi.ts:133-179 | home and list both provide the bare `Home` tag; detail and category are tagged with their slug; search and chapter data provide no tag; the category list provides the bare `Category` tag |
| ComicApi.DetailTagOwner | lib/services/comicApi.ts:133-179 | an endpoint provides a comic's detail tag exactly when it is that comic's detail request |
| ComicApi.CategoryTagOwner | lib/services/comicApi.ts:133-179 | an endpoint provides a category's slug tag exactly when it is a page of that category |
| Text.NatToStringRoundTrip | lib/services/comicApi.ts:149 | the decimal rendering of a page number reads back as that number |
| Text.IntToStringInjective | lib/services/comicApi.ts:149 | different page numbers render differently |
| Text.Trim | components/Header.tsx:33 | the result is the input minus a white-space prefix and suffix; it neither starts nor ends with white space; it is empty exactly when the input is all white space |
| Text.TrimUnique | components/Header.tsx:33 | any string with those properties is the trimmed string, so the contract determines trim |
| Text.TrimIdempotent | components/Header.tsx:33-34 | trimming twice is trimming once |
| Uri.EncodeUriComponent | lib/services/comicApi.ts:173 | the output uses only the unreserved characters and `%`, and is never shorter than the input |
| Uri.AlphabetExcludesDelimiters | lib/services/comicApi.ts:173 | that output never contains `&`, `=`, `?`, `#`, `+`, `/` or a space |
| Uri.Utf8RoundTrip | lib/services/comicApi.ts:173 | UTF-8 decoding inverts UTF-8 encoding for every string |
| Uri.UriComponentRoundTrip | components/Header.tsx:34 | percent-decoding inverts `encodeURIComponent` for every string |
| Uri.FormEncode | lib/services/watchHistoryService.ts:76-79 | the form serializer writes only safe characters, `%` and `+`, and leaves safe text unchanged |
| Uri.FormRoundTrip | lib/services/watchHistoryService.ts:76-79 | form decoding inverts form encoding for every string |
| Uri.QueryRoundTrip | lib/services/watchHistoryService.ts:76-82 | parsing a serialized query gives back the same pairs in the same order |
| Uri.SearchParams.constructor | lib/services/watchHistoryService.ts:76 | a new parameter list is empty |
| Uri.SearchParams.Append | lib/services/watchHistoryService.ts:77-79 | appending adds one pair at the end and changes nothing else |
| Uri.SearchParams.ToString | lib/services/watchHistoryService.ts:82 | the serialized list parses back to the list |
| ChapterReader.InsertByPage | app/chapter/page.tsx:29 | inserting into a sorted list keeps it sorted and adds exactly that record |
| ChapterReader.SortedPairs | app/chapter/page.tsx:29 | in a sorted list no page number precedes a smaller one |
| ChapterReader.SortByPage | app/chapter/page.tsx:27-29 | the sorted list is ordered by page number, has the same length, and is a permutation of the records |
| ChapterReader.SortKeepsTies | app/chapter/page.tsx:29 | the sort is stable: records with equal page numbers keep their input order |
| ChapterReader.ImageUrls | app/chapter/page.tsx:27-34 | one URL per record; URL k is the CDN domain, `/`, the chapter path, `/` and the file of the k-th sorted record |
| ChapterReader.ExamplePayload | app/chapter/page.tsx:27-34 | a payload listing page 2 before page 1 yields the page-1 URL first |
| ChapterReader.ChapterRequest | app/chapter/page.tsx:20-23 | a request is issued exactly when the locator is present and non-empty, and it is the locator |
| ChapterReader.SelectView | app/chapter/page.tsx:52-98 | exactly one view, by the guards in order: a missing locator gives not-found; loading; an error shows its message or the generic text; no data or no images gives no-data; otherwise the reader with the image list |
| ChapterReader.MissingImagesGiveNoData | app/chapter/page.tsx:83-98 | without `item` or `chapter_image` the list is empty and a loaded page shows no-data, never the reader |
| ChapterReader.StepInRange | app/chapter/page.tsx:39-44 | any button press or key keeps the index on a page |
| ChapterReader.KeysAgreeWithButtons | app/chapter/page.tsx:153-171 | inside the range, ArrowLeft/ArrowRight move exactly as the previous/next buttons; both are no-ops at the first and last page and otherwise move by one |
| ChapterReader.RunInRange | app/chapter/page.tsx:18-44 | from a valid index, every sequence of presses keeps `0 <= i < len` |
| ChapterReader.Counter | app/chapter/page.tsx:113 | the counter is exactly `(i + 1, len)`, so it reads between 1 and `len` |
| ChapterReader.ExactlyOneShown | app/chapter/page.tsx:125 | exactly the image at the index is shown |
| ChapterReader.Page.constructor | app/chapter/page.tsx:18 | the index starts at 0 |
| ChapterReader.Page.Loaded | app/chapter/page.tsx:27-34 | the loaded image list replaces the empty one and the index is kept |
| ChapterReader.Page.Prev | app/chapter/page.tsx:153 | the index becomes `max(0, i - 1)` and stays in range |
| ChapterReader.Page.Next | app/chapter/page.tsx:166-170 | the index becomes `min(len - 1, i + 1)` and stays in range |
| ChapterReader.Page.KeyDown | app/chapter/page.tsx:38-46 | arrows move the index only inside the range; Escape, and nothing else, asks to go back |
| UiSlice.UiStore.constructor | lib/slices/uiSlice.ts:15-21 | both flags false, no selected comic, empty history, dark theme |
| UiSlice.UiStore.ToggleSearch | lib/slices/uiSlice.ts:27-29 | negates the search flag; every other field unchanged |
| UiSlice.UiStore.CloseSearch | lib/slices/uiSlice.ts:30-32 | clears the search flag; every other field unchanged |
| UiSlice.UiStore.ToggleMenu | lib/slices/uiSlice.ts:33-35 | negates the menu flag; every other field unchanged |
| UiSlice.UiStore.CloseMenu | lib/slices/uiSlice.ts:36-38 | clears the menu flag; every other field unchanged |
| UiSlice.UiStore.SetSelectedComic | lib/slices/uiSlice.ts:39-41 | sets the selected comic; every other field unchanged |
| UiSlice.UiStore.AddToHistory | lib/slices/uiSlice.ts:42-50 | the history becomes the add-to-history result and stays duplicate-free and at most fifty long; every other field unchanged |
| UiSlice.UiStore.SetTheme | lib/slices/uiSlice.ts:51-53 | sets the theme; every other field unchanged |
| UiSlice.AddKnownIsNoOp | lib/slices/uiSlice.ts:43 | an id already present leaves the history exactly as it was, not moved to the front |
| UiSlice.AddIdempotent | lib/slices/uiSlice.ts:42-50 | adding the same id twice is adding it once |
| UiSlice.AddNewGoesFirst | lib/slices/uiSlice.ts:44-48 | a new id is placed first, followed by the newest previous entries in order, up to fifty in all |
| UiSlice.AddMembership | lib/slices/uiSlice.ts:42-50 | the added id is present; every other present id was present before; below the cap nothing is lost |
| UiSlice.AddPreservesHistoryValid | lib/slices/uiSlice.ts:42-50 | a duplicate-free history of at most fifty stays so |
| UiSlice.ToggleTwiceRestores | lib/slices/uiSlice.ts:27-35 | toggling each flag twice restores both flags; history, selection and theme are unchanged |
| UiSlice.CloseTwiceIsCloseOnce | lib/slices/uiSlice.ts:30-38 | closing is idempotent and leaves selection, history and theme alone |
| SearchPage.CeilDiv | app/tim-kiem/page.tsx:44-46 | the ceiling quotient: the smallest page count whose pages hold all items; zero only for no items |
| SearchPage.TotalPages | app/tim-kiem/page.tsx:44-46 | a positive per-page count gives the ceiling quotient; a missing one gives NaN; zero gives Infinity for a positive total |
| SearchPage.FiftyItemsMakeThreePages | app/tim-kiem/page.tsx:44-46 | 50 items at 24 per page make 3 pages |
| SearchPage.DisabledMeansNoOp | app/tim-kiem/page.tsx:77-92 | on a valid page, prev is disabled exactly at page 1 and next exactly at the last page; a disabled button would not move the page, an enabled one moves it by one |
| SearchPage.PageRunInRange | app/tim-kiem/page.tsx:16-88 | from a valid page, every sequence of prev/next clicks keeps `1 <= page <= totalPages` |
| SearchPage.KeywordOf | app/tim-kiem/page.tsx:15 | a missing keyword parameter reads as the empty keyword |
| SearchPage.SearchRequest | app/tim-kiem/page.tsx:18-21 | no request for an empty keyword, otherwise the search path for keyword and page |
| SearchPage.SelectView | app/tim-kiem/page.tsx:23-97 | prompt for an empty keyword, then loading, then error (also with no data), then not-found for no items, else the results with the payload's items and total count, and the payload's image host when present, the cards' default host when the field is absent; pagination shows exactly when the page count exceeds one, with the disabled flags of the page |
| SearchPage.Pager.constructor | app/tim-kiem/page.tsx:16 | the page starts at 1 |
| SearchPage.Pager.Prev | app/tim-kiem/page.tsx:78 | the page becomes `max(1, page - 1)` |
| SearchPage.Pager.Next | app/tim-kiem/page.tsx:88 | the page becomes `min(totalPages, page + 1)` |
| HeroBanner.SlotCount | components/HeroBanner.tsx:25 | the slot count is the list length capped at five |
| HeroBanner.RotateInRange | components/HeroBanner.tsx:25 | a tick keeps the index on a slot, advancing by one and wrapping after the last |
| HeroBanner.RotateTimesInRange | components/HeroBanner.tsx:24-26 | any number of ticks keeps the index on a slot |
| HeroBanner.RotateTimesCountsUp | components/HeroBanner.tsx:25 | before wrapping, k ticks advance the index by k |
| HeroBanner.RotateTimesCompose | components/HeroBanner.tsx:24-26 | k ticks then m ticks are k + m ticks |
| HeroBanner.RotationVisitsEverySlot | components/HeroBanner.tsx:25 | the rotation has period equal to the slot count and, from slot 0, reaches every slot |
| HeroBanner.Indicators | components/HeroBanner.tsx:97-110 | no indicators for one comic or none; otherwise one per slot, and exactly the current one highlighted |
| HeroBanner.Subtitle | components/HeroBanner.tsx:62 | the first original name when non-empty, else the default subtitle |
| HeroBanner.ShownCategories | components/HeroBanner.tsx:80-82 | the first three categories at most, in their order |
| HeroBanner.Render | components/HeroBanner.tsx:31-76 | nothing for an empty list; else, for the current comic, its thumbnail URL, its name as title, its subtitle, its first three categories, its detail link, its latest chapter name with fallback `1` (never empty), the chapter link, and the indicators |
| HeroBanner.Slides.constructor | components/HeroBanner.tsx:18 | the index starts at 0 |
| HeroBanner.Slides.Tick | components/HeroBanner.tsx:22-26 | with more than one comic, a tick sets the index to the next slot |
| HeroBanner.Slides.SelectIndicator | components/HeroBanner.tsx:102 | clicking indicator k sets the index to k |
| ComicCard.CdnOrDefault | components/ComicCard.tsx:17 | the given image host, or `https://img.otruyenapi.com` when none is passed |
| ComicCard.ThumbnailUrlParts | components/ComicCard.tsx:19 | the URL is the host, `/uploads/comics/` and the thumbnail file; under one host two URLs are equal exactly when the files are |
| ComicCard.LatestChapterName | components/ComicCard.tsx:22 | the first latest chapter's name when present and non-empty, else the fallback |
| ComicCard.CardChapterLabel | components/ComicCard.tsx:22 | the card's label is never empty and falls back to `N/A` |
| ComicCard.DetailHref | components/ComicCard.tsx:26 | the card links to the path the detail endpoint fetches |
| ComicCard.StatusBadge | components/ComicCard.tsx:56-64 | no badge for an empty status; `ongoing` reads `Đang ra`; every other status reads `Hoàn thành` |
| ComicCard.Card.constructor | components/ComicCard.tsx:18 | no image error at first |
| ComicCard.Card.OnImageError | components/ComicCard.tsx:36 | an image error sets the latch; nothing resets it |
| ComicCard.Card.Shown | components/ComicCard.tsx:30-43 | the placeholder exactly when the latch is set, otherwise the thumbnail URL |
| FavoriteButton.RequestFor | components/favorites/FavoriteButton.tsx:53-67 | a favorite is removed, a non-favorite added |
| FavoriteButton.ConfirmedFlips | components/favorites/FavoriteButton.tsx:53-67 | a confirmed request lands on the opposite status |
| FavoriteButton.FailureText | components/favorites/FavoriteButton.tsx:70 | the server's message when non-empty, else `Có lỗi xảy ra` |
| FavoriteButton.Caption | components/favorites/FavoriteButton.tsx:87 | `Đã yêu thích` for a favorite, `Yêu thích` otherwise |
| FavoriteButton.Button.constructor | components/favorites/FavoriteButton.tsx:25-27 | not favorite, not loading, not signed in, nothing in flight |
| FavoriteButton.Button.Disabled | components/favorites/FavoriteButton.tsx:79 | in a valid state the button is disabled exactly while a toggle request is in flight |
| FavoriteButton.Button.Effect | components/favorites/FavoriteButton.tsx:38-43 | a run of the effect stores the current sign-in state but checks according to the previous flag |
| FavoriteButton.Button.FinishCheck | components/favorites/FavoriteButton.tsx:29-36 | a check result replaces the status; a failed check keeps it |
| FavoriteButton.Button.Click | components/favorites/FavoriteButton.tsx:45-57 | never changes the status; signed out, it alerts the login prompt and sends nothing; signed in, it sets loading and sends remove or add; while loading it is ignored |
| FavoriteButton.Button.FinishToggle | components/favorites/FavoriteButton.tsx:53-73 | success sets the status the request asked for; failure keeps it and alerts the failure text; loading ends either way |
| FavoriteButton.ConfirmedToggleFlips | components/favorites/FavoriteButton.tsx:45-74 | a signed-in toggle the server confirms flips the status and ends loading |
| FavoriteButton.RejectedToggleKeeps | components/favorites/FavoriteButton.tsx:68-73 | a rejected toggle keeps the status and ends loading |
| FavoriteButton.Mount | components/favorites/FavoriteButton.tsx:38-43 | on mount the first effect run never checks; a signed-in visitor is checked once, on the re-run, and a signed-out one never |
| WatchHistoryPage.RemoveEntries | app/watch-history/page.tsx:41 | the kept entries are exactly those of other contents, never more than before |
| WatchHistoryPage.RemoveEntriesConcat | app/watch-history/page.tsx:41 | removal distributes over concatenation, so the kept entries stay in order |
| WatchHistoryPage.RemoveEntriesCounts | app/watch-history/page.tsx:41 | each kept entry keeps its multiplicity; entries of the deleted content drop to zero |
| WatchHistoryPage.RemoveEntriesIdempotent | app/watch-history/page.tsx:41 | deleting a content twice is deleting it once |
| WatchHistoryPage.ItemHref | app/watch-history/page.tsx:105 | `/phim/<id>` for a movie, `/truyen-tranh/<id>` otherwise |
| WatchHistoryPage.SelectView | app/watch-history/page.tsx:60-98 | loading first; then the empty view exactly for an empty list; the list view always offers clear-all |
| WatchHistoryPage.Page.constructor | app/watch-history/page.tsx:12-13 | empty history, loading |
| WatchHistoryPage.Page.Mount | app/watch-history/page.tsx:16-22 | a signed-out visit redirects home and fetches nothing; a signed-in one fetches the comic history |
| WatchHistoryPage.Page.FinishLoad | app/watch-history/page.tsx:24-34 | success replaces the history, failure keeps it; loading ends either way |
| WatchHistoryPage.Page.Delete | app/watch-history/page.tsx:36-46 | declined: no request, no change; confirmed and confirmed by the server: the content's entries are removed; failed: history unchanged and `Xóa thất bại` alerted |
| WatchHistoryPage.Page.Clear | app/watch-history/page.tsx:48-58 | declined: no request, no change; success empties the history; failure keeps it and alerts |
| WatchHistoryService.ApiBaseUrl | lib/services/watchHistoryService.ts:4 | the configured URL when non-empty, else `http://localhost:5000/api` |
| WatchHistoryService.AuthHeader | lib/services/watchHistoryService.ts:47-55 | empty exactly without a non-empty token; otherwise `Bearer ` followed by the token |
| WatchHistoryService.HistoryParams | lib/services/watchHistoryService.ts:76-79 | `contentType` only when given, then `page`, then `limit` |
| WatchHistoryService.HistoryQueryReadsBack | lib/services/watchHistoryService.ts:76-82 | the list query parses back to exactly those two or three pairs |
| WatchHistoryService.GetWatchHistoryUrl | lib/services/watchHistoryService.ts:70-85 | the URL is the base, `/watch-history?` and the serialized pairs, with page 1 and limit 20 when omitted |
| WatchHistoryService.ByContentIdRequest | lib/services/watchHistoryService.ts:89-94 | a GET with no body and the Authorization header, to the base URL, `/watch-history/` and the content id |
| WatchHistoryService.ByContentIdRequestInjective | lib/services/watchHistoryService.ts:92-94 | under one base URL, different content ids ask for different URLs |
| WatchHistoryService.ByContentIdResult | lib/services/watchHistoryService.ts:90-103 | null exactly for a 404; the entry on success; every other failure rethrown unchanged |
| WatchHistoryService.CreateOrUpdateRequest | lib/services/watchHistoryService.ts:61-65 | a POST of the entry to the base URL plus `/watch-history`, with the Authorization header |
| WatchHistoryService.CreateOrUpdateResult | lib/services/watchHistoryService.ts:61-65 | the response body is returned as sent; a failure propagates |
| Header.HeaderShown | components/Header.tsx:159-168 | the header renders exactly when the path is not `/chapter` |
| Header.SubmittedKeywordReachesSearchPage | components/Header.tsx:34 | the navigation target's query reads back as the single pair `keyword` = trimmed query |
| Header.Bar.constructor | components/Header.tsx:19 | the search field starts empty |
| Header.Bar.Type | components/Header.tsx:111 | typing replaces the field's text |
| Header.Bar.SearchButton | components/Header.tsx:82 | the search icon toggles the search flag; menu, history, selection and theme are unchanged |
| Header.Bar.MenuButton | components/Header.tsx:91 | the menu icon toggles the menu flag; search, history, selection and theme are unchanged |
| Header.Bar.MobileLink | components/Header.tsx:127-150 | a mobile link, shown only while the menu is open, navigates to its target and closes the menu; search, history, selection and theme are unchanged |
| Header.Bar.Submit | components/Header.tsx:31-38 | a query that trims to nothing changes nothing; any other navigates to the search target of the trimmed query, closes the search form and empties the field |

## Left out

- Network, caching and tag invalidation of the request library, the HTTP clients, and the authentication and favorites services: each call is an abstract answer that a method takes.
- Timers, event-listener registration, `router.push`/`router.back`, `alert` and `confirm`: the model keeps the step functions and returns the emitted events as values.
- Scroll-dependent header styling and all markup and styling.
- The reader's image `priority` hint and the per-image placeholder on load error: markup attributes with no state.
- `encodeURIComponent` throws on lone surrogates; Dafny characters are Unicode scalar values, so that error path does not arise.
- Uri.FormDecode: malformed UTF-8 decodes to no value instead of U+FFFD replacement characters. It only appears in round-trip properties over well-formed output.
- Text.IntToString: page and limit numbers are unbounded integers rendered in plain decimal. JavaScript numbers are doubles, so `${page}` is inexact above 2^53 and uses exponent form from 1e21. Text.IntToStringInjective therefore holds only below those bounds in the source. Fractional, NaN and infinite values are not modelled.
- ChapterReader.Page.Loaded: the image list is recomputed on every render. The model sets it once, from empty, because the payload of one locator does not change. The index is not clamped if it ever did.
- HeroBanner.Render: the index is never reset when the list changes, so the banner requires it to point into the list.
- WatchHistoryPage.Page.Delete: each call completes before the next starts, and the current history is filtered. The source filters the history captured at render time, so overlapping requests can end differently. Example: history [A, B], with deletes of A and B both confirmed before A's answer arrives. The source ends with [A], because B's handler filters the captured [A, B]; the model ends with []. A clear overlapping a delete is not modelled either.
- WatchHistoryService.CreateWatchHistoryDto: the movie and progress fields (`episodeId`, `episodeName`, `watchTime`, `totalDuration`) are omitted. The body is posted unchanged, so no client behaviour depends on them.
- `deleteWatchHistory` and `clearWatchHistory` are called but not defined in lib/services/watchHistoryService.ts. Their answers are abstract inputs.
- FavoriteButton: the request payloads (content id, title, thumbnail, slug, status, chapter count) are not modelled, only which of add or remove is sent; error logging is left out.
- WatchHistoryService.CreateOrUpdateResult: returning the body unchanged is all the source promises, so which watch-history fields the server fills in is not modelled.
- Locale date formatting on the watch-history page, and `String(error.message)` for non-string messages: the chapter reader's error message is an optional string.
- The source's point that the image records are copied before sorting holds trivially here, because sequences are values. Aliasing of the cached array is not modelled.

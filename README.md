# movie-front: video shaping and the play session, in Dafny

This project models the logic core of a Vue video front end.

- **The video service** (`src/service/video.ts`):
  - the info rows shown under a video (`getInfoList`);
  - the shaping of a fetched video detail (`getVideoDetail`): the cover made absolute and the playlist sorted by title number;
  - the module-level stores that the fetches write (`recommendVideos`, `recommendCategoryVideos`, `videoDetail`);
  - the guard of `getRecommendByCategoryId`.
- **The play page** (`src/page/play.tsx`):
  - which video and entry are current;
  - which entry follows when an episode ends (`autoNextPlay`);
  - which engine and height a new player gets;
  - when the page fetches;
  - what the report and play-history calls carry;
  - what the two action sheets select;
  - how the page captures the theme, the menu state and the fullscreen state at setup and puts them back when the route is left.

The modules follow the structure of the program:

| file | module | contents |
|---|---|---|
| `options.dfy` | `Options` | `Option` |
| `array_ops.dfy` | `ArrayOps` | `findIndex`, `find`, `filter` (ECMA-262 sections 23.1.3.10, 23.1.3.9, 23.1.3.8) |
| `js_text.dfy` | `JsText` | `parseInt` (ECMA-262 section 19.2.5), `Number::toString` for integers, string `<`, `indexOf` |
| `video_types.dfy` | `VideoTypes` | `IVideo`, `IPlay`, `IVideoDetail`, categories, pages, responses |
| `video_info.dfy` | `VideoInfo` | `getInfoList` |
| `playlist_order.dfy` | `PlaylistOrder` | the playlist comparator and the stable sort |
| `video_service.dfy` | `VideoService` | requests, `getVideoDetail`'s normalisation, and the service store as a class |
| `play_page.dfy` | `PlayPage` | the page's decisions, on values |
| `play_session.dfy` | `PlaySession` | the page as a class with mount, route-update, complete, ended and leave events |

**Pure logic** is written as functions, with lemmas about them. This covers the info list, the comparator and sort, the lookups and the sheet index mappings.

**State** is written as classes:
- `VideoService.VideoStore` holds the service's refs.
- `PlaySession.AppState` holds the app-wide refs the page changes.
- `PlaySession.Session` holds the page's own state: the play id, the players created so far, the native player, the play history posted, the shell launches and the fetch count.

Each method states its whole new state. Each method is tied to the pure functions whose properties are proved in the value modules.

**Asynchronous calls** are split in two. The request is a returned value (`Request`, `Route`, `Launch`). The back end's answer is a `Response` parameter.

**Sort stability.** `Array.prototype.sort` is stable (ECMA-262 section 23.1.3.30). The sort is therefore modelled as a stable insertion sort driven by the source's comparator. What the sort then gives is fixed only on playlists where the comparator is a consistent order (see "## Left out"). The sort lemmas are stated for any reading of titles as numbers, and then applied to `parseInt`.

**Two points about the program that the model keeps as they are:**
- `getVideoDetail` and `fetchData` have no guard against stale responses: whichever response resolves last writes the store. So `VideoStore.GetVideoDetail` writes whatever it is given.
- The play page does not read the service's `videoDetail` store. It reads `fullVideoList.find(v => v.id === videoId)`, so `Session` keeps the value of `fullVideoList` as its own field.

## Model

| member | source | states |
|---|---|---|
| ArrayOps.FindIndex | src/page/play.tsx:87 | `findIndex` gives the first index whose element passes the test, or -1 exactly when none passes |
| ArrayOps.Find | src/service/video.ts:90 | `find` gives nothing exactly when no element passes; otherwise an element at the first passing index |
| ArrayOps.Filter | src/service/video.ts:66 | `filter` is never longer than its input |
| ArrayOps.FilterMembers | src/service/video.ts:66 | `filter` keeps only passing elements, drawn from the input, and keeps every passing element of the input |
| ArrayOps.FilterAppend | src/page/play.tsx:86 | filtering distributes over concatenation |
| ArrayOps.FilterKeepsOrder | src/service/video.ts:66 | two positions of a filtered sequence come from input positions in the same order |
| ArrayOps.FilterHead | src/page/play.tsx:86-87 | a filtered sequence is non-empty exactly when `findIndex` finds a passing element, and starts with that element |
| JsText.TrimStart | src/service/video.ts:111-112 | `parseInt`'s first step: the result is a suffix of the input, every character dropped is white space or a line terminator, and the result does not start with one |
| JsText.DigitValue | src/service/video.ts:111-112 | a character's digit value is at most 16; below 10 exactly for '0'..'9', below 16 exactly for '0'..'9', 'a'..'f' and 'A'..'F', so 16 for every other character |
| JsText.LeadingDigits | src/service/video.ts:111-112 | the length of the longest prefix of digits in the radix |
| JsText.Decimal | src/service/video.ts:34-35 | the decimal numeral of a natural number is non-empty and opens with a digit |
| JsText.NumberToString | src/service/video.ts:104 | an integer's numeral starts with "-" exactly when the integer is negative, and a digit follows the "-" |
| JsText.Magnitude | src/service/video.ts:111-112 | unsigned text has a magnitude exactly when it opens with a decimal digit, or with a hex digit right after "0x" or "0X" |
| JsText.ParseInt | src/service/video.ts:111-112 | a negative result only when the text, once its white space is skipped, starts with "-" |
| JsText.ParseIntIsNumber | src/service/video.ts:111-113 | `parseInt` is NaN exactly when, after the white space and at most one sign, the text does not open with a digit (a hex digit after "0x") |
| JsText.ParseIntNumberStrings | src/service/video.ts:104 | every integer's numeral reads back as that integer |
| JsText.DecimalIsDigits | src/service/video.ts:34-35 | that numeral is all digits, reads back as the number, and has no leading zero |
| JsText.MagnitudeOfDecimal | src/service/video.ts:111-112 | the digit prefix of a numeral followed by a non-digit reads as the number |
| JsText.ParseIntOfDigits | src/service/video.ts:111-112 | `parseInt` of a text starting with a digit is its magnitude |
| JsText.ParseIntOfNegatedDigits | src/service/video.ts:111-112 | a leading `-` negates the magnitude |
| JsText.ParseIntOfSignedDigits | src/service/video.ts:111-112 | a leading `+` keeps the magnitude |
| JsText.ParseIntOfNumeral | src/service/video.ts:111-112 | `parseInt` reads back any integer's numeral followed by a non-digit that is not an `x` after "0" (such as "10集") |
| JsText.ParseIntOfNegativeNumeral | src/service/video.ts:111-112 | the same, for negative integers |
| JsText.ParseIntOfNumberString | src/service/video.ts:104 | `parseInt` reads back every integer's numeral |
| JsText.ParseIntOfNine | src/service/video.ts:111-112 | "9" reads as 9 |
| JsText.ParseIntOfTenEpisode | src/service/video.ts:111-112 | "10集" reads as 10 |
| JsText.ParseIntOfPlusTen | src/service/video.ts:111-112 | "+10" reads as 10 |
| JsText.ParseIntOfNonNumerals | src/service/video.ts:111-113 | "-" and "第1集" read as NaN |
| JsText.ParseIntOfMinus | src/service/video.ts:111-113 | a lone "-" reads as NaN |
| JsText.ParseIntOfHex | src/service/video.ts:111-112 | "0x1A" reads as 26, in radix 16 |
| JsText.ParseIntOfBareHexPrefix | src/service/video.ts:111-113 | "0x" with no hex digit after it reads as NaN |
| JsText.ParseIntSkipsWhiteSpace | src/service/video.ts:111-112 | leading white space does not change the result |
| JsText.ParseIntOfNonNumeral | src/service/video.ts:111-113 | a text that starts with neither white space, a sign nor a digit reads as NaN |
| JsText.StrLess | src/service/video.ts:116 | a proper prefix of a title is below it, and no title is below its own prefix |
| JsText.StrLessIrreflexive | src/service/video.ts:116 | no title sorts below itself |
| JsText.StrLessTransitive | src/service/video.ts:116 | string order is transitive |
| JsText.StrLessTotal | src/service/video.ts:116 | of two different titles, one sorts below the other |
| JsText.OccursAtTail | src/page/play.tsx:146 | an occurrence past the first character is an occurrence in the tail, one position earlier |
| JsText.OccursAtStart | src/page/play.tsx:146 | an occurrence at 0 is the prefix being the pattern |
| JsText.IndexOf | src/page/play.tsx:146 | `indexOf` gives the first position of the pattern, or -1 exactly when it occurs nowhere |
| VideoInfo.LabelRank | src/service/video.ts:37-65 | a label's position in the fixed order 分类, 演员, 导演, 清晰度, 地区, 时长, 发布时间 |
| VideoInfo.LabelRankOf | src/service/video.ts:37-65 | each label's position reads back |
| VideoInfo.PublishedAt | src/service/video.ts:31-36 | the date text is empty exactly when `published_at` is 0; otherwise year, `addZero(month + 1)` and `addZero(day)` of the local date at `published_at * 1000`, joined with "-" |
| VideoInfo.AllRows | src/service/video.ts:37-65 | the literal has the seven labels in order, each with its own field, and all values empty without a video |
| VideoInfo.GetInfoList | src/service/video.ts:30-67 | every row has a non-empty value, and no video gives no rows |
| VideoInfo.InfoRowsFromLiteral | src/service/video.ts:37-66 | each row carries its own label's field |
| VideoInfo.AllRowsLabelled | src/service/video.ts:37-65 | the literal's labels are the fixed order |
| VideoInfo.FilteredInOrder | src/service/video.ts:66 | filtering labelled rows keeps only labelled rows, with strictly increasing labels |
| VideoInfo.FilteredPairInOrder | src/service/video.ts:66 | of two filtered rows, the earlier has the earlier label |
| VideoInfo.InfoRowsInOrder | src/service/video.ts:37-66 | every row has one of the fixed labels, and the labels strictly increase in the fixed order: a subsequence of it |
| VideoInfo.InfoRowPresence | src/service/video.ts:37-66 | a label has a row exactly when its field is non-empty |
| VideoInfo.PublishedRowPresence | src/service/video.ts:31-36 | the publish-date row is there exactly when `published_at` is non-zero |
| VideoInfo.PublishedYearReadsBack | src/service/video.ts:33-35 | the date text starts with the year's numeral |
| PlaylistOrder.TitleNumber | src/service/video.ts:111-112 | a title that is the numeral of an integer reads as that integer |
| PlaylistOrder.Compare | src/service/video.ts:110-117 | with two numbers the result is negative, or positive, exactly when the first number is the smaller, or the larger; otherwise it is never 0 and is positive exactly when the first title is above the second |
| PlaylistOrder.SortPlaylist | src/service/video.ts:110 | the sorted playlist is a permutation of the playlist |
| PlaylistOrder.Insert | src/service/video.ts:110 | inserting lengthens the list by one |
| PlaylistOrder.InsertPermutes | src/service/video.ts:110 | inserting adds exactly the one entry and loses none |
| PlaylistOrder.SortBy | src/service/video.ts:110 | the sorted playlist is as long as the input |
| PlaylistOrder.SortByPermutes | src/service/video.ts:110 | the sorted playlist is a permutation of the input |
| PlaylistOrder.InsertNumeric | src/service/video.ts:110-115 | inserting a numbered entry into a list sorted by number keeps it sorted |
| PlaylistOrder.InsertNumericFront | src/service/video.ts:113-114 | an entry with a smaller number than the head goes in front and the list stays sorted |
| PlaylistOrder.InsertNumericStep | src/service/video.ts:113-114 | an entry not smaller than the head goes behind it and the list stays sorted |
| PlaylistOrder.InsertAbove | src/service/video.ts:113-114 | inserting keeps every number at or above a common lower bound |
| PlaylistOrder.ConsSorted | src/service/video.ts:113-114 | an entry numbered no higher than a sorted list can precede it |
| PlaylistOrder.SortByNumeric | src/service/video.ts:110-115 | sorting all-numbered entries orders them by number |
| PlaylistOrder.NoneAfterFront | src/service/video.ts:113-114 | an entry going to the front of a number-sorted list has no equal-numbered entry behind it |
| PlaylistOrder.InsertStable | src/service/video.ts:110-115 | inserting after a number-sorted list keeps equal numbers in arrival order |
| PlaylistOrder.SortByStable | src/service/video.ts:110-115 | sorting keeps, for each number, the input order of its entries |
| PlaylistOrder.InsertTitles | src/service/video.ts:116 | inserting an unnumbered entry into a title-sorted list keeps it sorted |
| PlaylistOrder.ConsTitleSorted | src/service/video.ts:116 | an entry whose title is below none of a title-sorted list can precede it |
| PlaylistOrder.InsertTitlesAbove | src/service/video.ts:116 | inserting keeps every title at or above a common lower bound |
| PlaylistOrder.SortByTitles | src/service/video.ts:116 | sorting unnumbered entries orders them by title |
| PlaylistOrder.SortNumericSorted | src/service/video.ts:110-115 | if every title parses as an integer, the playlist is non-decreasing by it |
| PlaylistOrder.SortNumericStable | src/service/video.ts:110-115 | and entries with equal integers keep their input order |
| PlaylistOrder.SortTitlesSorted | src/service/video.ts:110-116 | if no title parses, the playlist is non-decreasing by title |
| PlaylistOrder.CompareZero | src/service/video.ts:113-116 | the comparator gives 0 only for two numbered titles with equal numbers |
| PlaylistOrder.CompareNotAntisymmetric | src/service/video.ts:116 | an unnumbered entry compares below itself |
| PlaylistOrder.CompareCycle | src/service/video.ts:111-116 | mixed titles "9", "+10", "-" form a cycle, so the comparator is not a consistent order |
| PlaylistOrder.CompareNineTen | src/service/video.ts:111-115 | "9" sorts before "+10", by number |
| PlaylistOrder.CompareTenMinus | src/service/video.ts:111-116 | "+10" sorts before "-", by string, since "-" is NaN |
| PlaylistOrder.CompareMinusNine | src/service/video.ts:111-116 | "-" sorts before "9", by string |
| VideoService.RecommendRequest | src/service/video.ts:71-73 | `getRecommendVideos` asks `video/recommend` for the given page |
| VideoService.CategoryVideosRequest | src/service/video.ts:82-83 | `getCategoryVideos` asks `video/category` for the category and page |
| VideoService.DetailPath | src/service/video.ts:104 | the detail path is `video/` followed by a numeral that reads back as the id |
| VideoService.CategoryRequest | src/service/video.ts:86-92 | no request exactly when recommendations are off or no category has the id; otherwise page 1 of the first such category |
| VideoService.NormalizeDetail | src/service/video.ts:107-110 | every field but the cover is copied, the cover goes through `getFullUrl`, and the playlist keeps its entries |
| VideoService.NormalizedPlaylistOrder | src/service/video.ts:110-117 | the normalised playlist is sorted (and stable) by number when all titles are numbers, and by title when none is |
| VideoService.VideoStore.constructor | src/service/video.ts:70-101 | the stores start as the default page, `[]` and `undefined` |
| VideoService.VideoStore.GetRecommendVideos | src/service/video.ts:71-79 | on success the page is stored and returned; a rejection changes nothing; other stores unchanged |
| VideoService.VideoStore.GetRecommendByCategoryId | src/service/video.ts:86-98 | the request is `CategoryRequest`'s; with a request and success the list is stored; otherwise nothing is stored and `null` results |
| VideoService.VideoStore.GetVideoDetail | src/service/video.ts:102-124 | on success the store holds the normalised record, which is also the result; a rejection leaves the store |
| PlayPage.DetailFor | src/page/play.tsx:48-50 | the detail is the first video of the full list with the route's id, and none exactly when there is no such video |
| PlayPage.CurrentPlay | src/page/play.tsx:51-56 | `null` exactly without a detail, `undefined` exactly when no entry has the id, else the first entry with it |
| PlayPage.NextInGroup | src/page/play.tsx:87-91 | within a group, the id of the entry right after the first entry with the current id; nothing exactly when no entry has the id or the first one is last |
| PlayPage.ScanSkipsOther | src/page/play.tsx:86-91 | while scanning the playlist forward, an entry that is not the current one is passed over |
| PlayPage.GroupSkipsOtherId | src/page/play.tsx:87-88 | within a group, an entry with another id is passed over |
| PlayPage.AtCurrent | src/page/play.tsx:86-91 | at the current entry, the group and the scan pick the same next entry |
| PlayPage.NextInGroupOfCircuit | src/page/play.tsx:86-91 | choosing in the filtered group equals scanning the playlist forward for the next entry of the same circuit |
| PlayPage.AutoNextTarget | src/page/play.tsx:83-94 | a target only with auto-next on, a detail and a current entry with a truthy circuit; then the next entry of that circuit after the current one |
| PlayPage.NextInCircuitForward | src/page/play.tsx:86-91 | the target lies after the first entry of the circuit with the current id, in the same circuit, with no entry of that circuit between |
| PlayPage.NoWrapAround | src/page/play.tsx:88-90 | with no entry of the circuit after the current one there is no target: no wrap-around |
| PlayPage.AutoNextExample | src/page/play.tsx:83-94 | a worked playlist: the first episode leads to the second, the last to nothing, and auto-next off to nothing |
| PlayPage.ChooseEngine | src/page/play.tsx:146-150 | the HLS engine exactly when the URL contains ".m3u8" |
| PlayPage.ChooseEngineExamples | src/page/play.tsx:146-150 | an `.m3u8` URL gets HLS, the empty URL the standard engine |
| PlayPage.PlayerHeight | src/page/play.tsx:122 | no height exactly for "fixWidth"; otherwise the inner height less 70 |
| PlayPage.PlayerUrl | src/page/play.tsx:127 | the entry's source, or "" without an entry |
| PlayPage.PageTitle | src/page/play.tsx:158 | the title starts with the video's title and ends with the entry's, with " - " between |
| PlayPage.PlayLogFor | src/page/play.tsx:76-81 | a play-history entry exactly when a detail and an entry exist, naming both |
| PlayPage.ReportFor | src/page/play.tsx:264-267 | nothing is posted exactly when there is no detail or the remark is empty; otherwise the remark, the video and the entry if any |
| PlayPage.OpenTypeForIndex | src/page/play.tsx:313-319 | nothing for index ≤ 0, the browser exactly for 2, native for every other positive index |
| PlayPage.RateButtons | src/page/play.tsx:334 | every rate but the last, in order |
| PlayPage.RateForIndex | src/page/play.tsx:344-350 | nothing for index ≤ 0; index `i` within the buttons selects rate `i - 1`, never the last rate; beyond them `undefined` |
| PlaySession.DestroyLast | src/page/play.tsx:121 | only the most recent player is destroyed |
| PlaySession.CreateKeepsOnlyLastAlive | src/page/play.tsx:121-156 | after destroying the last player and adding a new one, only the new one is alive |
| PlaySession.DestroyLastKillsAll | src/page/play.tsx:194 | when at most the last player is alive, destroying it leaves none alive |
| PlaySession.CompleteKeepsOnlyLastAlive | src/page/play.tsx:153 | marking a player completed changes no player's liveness |
| PlaySession.NewPlayer | src/page/play.tsx:122-150 | a new player is alive, not yet complete, plays the entry's source with the engine and height chosen for it |
| PlaySession.AppState.constructor | src/page/play.tsx:7-17 | the app-wide refs as given |
| PlaySession.Session.constructor | src/page/play.tsx:42-65 | setup takes the props and captures the theme, the menu state and the fullscreen state |
| PlaySession.Session.Valid | src/page/play.tsx:106-156 | the invariant every method keeps: only the newest in-page player can be alive, the shell has no in-page player, and the browser no native one |
| PlaySession.Session.Detail | src/page/play.tsx:47-49 | `videoDetail` is a video of the full list with the route's id, and is missing only when no video has it |
| PlaySession.Session.Current | src/page/play.tsx:51-56 | `play` is `null` exactly without a detail; a found entry is in the detail's playlist and has the play id |
| PlaySession.Session.Mount | src/page/play.tsx:182-191 | dark theme, fullscreen on the desktop shell when configured, the menu collapsed, and a fetch exactly when no player exists |
| PlaySession.Session.SetVideoList | src/page/play.tsx:48-50 | the full video list changes and nothing else does |
| PlaySession.Session.CreatePlayer | src/page/play.tsx:96-159 | nothing without a detail, an entry or the element; the shell opens the native player and logs at once; the browser destroys the last player and adds a new one; the title is set in both |
| PlaySession.Session.PlayerCreated | src/page/play.tsx:96-158 | the new state `createPlayer` leaves, stated once for the three methods that run it |
| PlaySession.Session.OpenNative | src/page/play.tsx:106-120 | the shell opens the native player on the entry's source with the configured autoplay, cover and rate, and logs the play once |
| PlaySession.Session.ReplacePlayer | src/page/play.tsx:121-156 | the browser destroys the last player and adds the one built for the entry |
| PlaySession.Session.DetailLoaded | src/page/play.tsx:166-169 | `createPlayer`'s whole new state: nothing without a detail, an entry or the element; else the title is set and the shell opens the native player and logs, or the browser replaces the last player; play id, list, mount flag, launches, fetches and presentation state unchanged |
| PlaySession.Session.RouteUpdate | src/page/play.tsx:177-180 | the new play id is taken, then `createPlayer`'s whole new state for that id, as for `DetailLoaded`; in the browser, with an entry, a live player for it is added |
| PlaySession.Session.PlayerComplete | src/page/play.tsx:153 | a live player's first completion logs the play once; later completions log nothing |
| PlaySession.Session.PlayerEnded | src/page/play.tsx:154 | only the live player navigates, to `AutoNextTarget`, always within the same video |
| PlaySession.Session.Leave | src/page/play.tsx:193-203 | no player alive, the native player closed, theme and menu state restored, and fullscreen restored on the desktop shell |
| PlaySession.Session.ChooseRate | src/page/play.tsx:334-350 | index `i` sets the native player and config rate to the `i`-th listed rate; cancel, or no native player, changes nothing |
| PlaySession.Session.ChooseOpenType | src/page/play.tsx:312-323 | nothing for index ≤ 0; otherwise the native player is stopped and the entry's source is launched with the sheet's open type |
| PlaySession.Session.Report | src/page/play.tsx:264-267 | nothing exactly without a detail or a remark; otherwise the remark and the video id, with the play id exactly when an entry is current (else `undefined`), and then the current play id |
| PlaySession.Visit | src/page/play.tsx:182-203 | setup, mount, load and leave put the theme, the menu, the rates and fullscreen back, and leave the session with no player alive and its native player closed |

## Left out

- HTTP transport (`fly`) and promise scheduling. A request is a returned value, and its settled answer is a parameter.
- The query parameter `page` defaults to 1 in the source. Callers of `GetRecommendVideos` pass it explicitly.
- `getVideoSearch` is transport only and is not modelled.
- `getCategoryVideos` is modelled only as the request it makes (`CategoryVideosRequest`).
- `PageData` is modelled by its `data` list only. Its other fields are not read by the core.
- `getFullUrl`, `addZero` and `Date` are parameters: `fullUrl`, `addZero` and `toLocalDate`. Their code lies outside this model, and time zones are not modelled.
- `defaultPageData` is a constructor parameter.
- The value of `ThemeTypes.DARK` is a parameter of `Mount`. The common service that defines it is not part of this model.
- JavaScript numbers are doubles. Titles' numbers, the comparator's `na - nb` and ids are exact integers here, so rounding of very long numerals, `Infinity` and `-0` are not modelled.
- A non-numeric route parameter (`Number(...)` giving NaN) is not modelled: play ids are integers.
- Strings are sequences of code points. JavaScript compares and indexes UTF-16 code units, which differ only outside the Basic Multilingual Plane.
- `setTimeout` delays (100 ms before a player is built, 200 ms before the native rate is set) are collapsed: each player is created at once. The model does not capture two races this hides:
  - if two route updates arrive within the 100 ms window, the source can leave two players alive;
  - if the route is left within 100 ms of `createPlayer` (src/page/play.tsx:113-157, 193-203), the timer builds a player after `onBeforeRouteLeave` has destroyed the last one. `Leave` and `Visit` promise that no player is alive afterwards only because the timer is collapsed.
- When the comparator is not a consistent order, ECMA-262 leaves the result of `sort` implementation-defined. This happens with mixed numbered and unnumbered titles (`CompareCycle`) and with equal unnumbered titles, which compare below each other. On such playlists the model's stable insertion order is one possible order, not necessarily the engine's. For example, the model gives ["+10", "-", "9"] for ["-", "9", "+10"], although every neighbouring pair of that input is already in the comparator's order, and it keeps two "HD" entries in input order, although each compares below the other.
- The asynchronous `setFullscreen` is taken as immediate.
- The xgplayer, HlsJsPlayer and native shell players are records of what they were built with. Their playback and events are `PlayerComplete` and `PlayerEnded`, called by the environment.
- `createPlusVideoPlayer` and `plusVideoPlayer` both come from the shell service, which is not part of this model. The native player is the `native` field.
- PlaySession.Session.ChooseRate: requires the index to be at most the number of buttons, because the native sheet reports only its buttons' indices. An index past them (storing `undefined`) is covered by `PlayPage.RateForIndex` only.
- PlaySession.Session.ChooseRate: when no native player exists, the source's handler throws before storing the rate. The model changes nothing in that case.
- `playlist?.find` and `videoDetail.value.playlist || []` guard against a missing playlist. Here a detail always has a playlist, possibly empty.
- `fullVideoList`, `getRecommendVideoList`, `recommendVideoList` and `postReport` come from video code that is not part of this model:
  - the full list is a field that the environment sets (`SetVideoList`);
  - the report is returned (`Report`);
  - the recommendation fetch is not modelled.
- `protocolDetection`, `window.open`, dialogs, messages, skeletons and all rendering, including the download button and the playlist's click navigation, are not modelled.
- `src/page/video.tsx` (view composition) is not modelled.

# Season anime search: a verified model of its core

The application lists the anime broadcasts of one season. The core has four parts:

- **Season fetcher** (`src/lib/annict.ts`). It checks the season name and builds the upstream
  season identifier `<year>-<season>`. It then pages through the Annict GraphQL
  `searchWorks` results and flattens every program of every work into a row
  (title, channel, start). Finally it sorts the rows stably by start instant.
- **Season endpoint** (`src/app/api/season/route.ts`). `GET /api/season` checks, in order, the
  access token, the two query parameters, the year and the season. It then calls the
  fetcher and maps the outcome to a 200 or a 502 answer.
- **Channel classifier** (`src/lib/channelCategories.ts`). It sorts a channel name into
  national, other or local by keyword tables, and groups a list of names by category,
  each group sorted.
- **Search page state** (`src/app/page.tsx`). It holds the rows of the last search, the
  selected channels and the selected works. Toggles, select-all, clear and per-category
  selection act on them. It derives the channel list, the channel filter and the items of
  the recording list.

Modules follow the source files:

- `Annict` (annict.dfy): the season fetcher.
- `SeasonRoute` (route.dfy): the season endpoint.
- `ChannelCategories` (channels.dfy): the channel classifier.
- `SearchPage` (page.dfy): the search page state. The page's state variables are the fields
  of class `Home`, and its handlers are methods that replace those fields.

Four library modules model the parts of JavaScript the core relies on:

- `Text` (text.dfy): white space, `trim`, `includes`, `${n}` for integers, `parseInt(s, 10)`
  and `join`.
- `TextOrder` (textorder.dfy): the default string order of `Array.prototype.sort`.
- `KeySort` (keysort.dfy): `Array.prototype.sort` with a numeric comparator, which is a
  stable sort.
- `Common` (common.dfy): `Option`, `Result` and `filter`.

How the model stands in for the outside world:

- Each HTTP round trip of the fetcher is the next element of a given sequence of decoded
  replies. A reply is either a response (status, status text, payload) or a thrown failure.
- Parsing an ISO 8601 start into an instant is the function parameter `instant`.
- The endpoint's fetcher is a function parameter returning `Returned`, `ThrewError` or
  `ThrewOther`. `SeasonRoute.ModelFetcher` plugs the fetch model into it. The fetch model
  returns `Ok` with the rows or `Err` with the message of the `Error` it throws.
- The access token is an optional string input.

## Model

| member | source | states |
|---|---|---|
| `Annict.ToSeasonSlug` | src/lib/annict.ts:20-30 | succeeds exactly for "spring", "summer", "autumn", "winter" (case-sensitive), with the season whose text is the argument; every other string fails with "Invalid season: " followed by the argument |
| `Annict.SlugRoundTrip` | src/lib/annict.ts:20-30 | the text of every season is accepted back as that same season |
| `Annict.SeasonId` | src/lib/annict.ts:102 | builds `${year}-${season}`; `Annict.SeasonIdRoundTrip` proves that the identifier determines the year and the season |
| `Annict.ParseYearOfNumberText` | src/lib/annict.ts:102 | the year as written into the season identifier reads back as the same integer |
| `Annict.SeasonIdRoundTrip` | src/lib/annict.ts:102 | the identifier is the decimal year, "-", then the season: it determines the year and the season it was built from |
| `Annict.ErrorsMessage` | src/lib/annict.ts:137-141 | with no upstream errors the message is "Unknown API error"; with one error it is that error's message |
| `Annict.Flatten` | src/lib/annict.ts:146-156 | the rows of one page, works and programs in order; `Annict.FlattenCount` and `Annict.FlattenAt` prove the row count and each row's position and fields |
| `Annict.StepOf` | src/lib/annict.ts:131-159 | what one reply means for the loop: abort with a message, keep the page's rows and stop, or keep them and go on with a cursor; `Annict.HttpErrorAborts`, `Annict.MissingSearchWorksAborts` and `Annict.ContinuesExactly` prove each case |
| `Annict.Run` | src/lib/annict.ts:108-160 | the accumulation loop as a recursive function over the replies; `Annict.RunOutcome` states its outcome without recursion |
| `Annict.FlattenCount` | src/lib/annict.ts:146-156 | flattening yields exactly one row per program over all works |
| `Annict.FlattenAt` | src/lib/annict.ts:146-156 | program j of work i becomes the row at offset (programs of the earlier works) + j, with the work's title and the program's channel and start |
| `Annict.FirstStop` | src/lib/annict.ts:158 | the index of the first reply that does not continue the pagination; every earlier reply continues it |
| `Annict.FetchResult` | src/lib/annict.ts:97-169 | what the fetch returns (`Ok` with the rows) or throws (`Err` with the message); `Annict.FetchOutcome` and the `FetchedRows` lemmas below state what it means |
| `Annict.RunOutcome` | src/lib/annict.ts:108-160 | the loop's outcome is decided by the reply that stops it: an abort there yields its message, otherwise the rows of all pages up to and including it, in page order |
| `Annict.RowsOfPagesCount` | src/lib/annict.ts:146-156 | the rows gathered from the first n pages number the programs on those pages |
| `Annict.AbortDecides` | src/lib/annict.ts:131-142 | an aborting reply at any iteration ends the fetch with its message, whatever rows were gathered before it |
| `Annict.PushPageRows` | src/lib/annict.ts:146-156 | the nested loops append one row per program of every work, works and programs in order |
| `Annict.SortByStartTime` | src/lib/annict.ts:163-166 | the in-place sort with comparator `instant(a) - instant(b)` yields the stable sort by start instant of the gathered rows |
| `Annict.ReadPage` | src/lib/annict.ts:131-159 | one iteration: a thrown round trip, a non-2xx status or a missing `searchWorks` aborts with its message; otherwise the page's rows are appended, and the loop goes on with `endCursor` exactly when `hasNextPage` holds and `endCursor` is non-empty |
| `Annict.FetchSeasonPrograms` | src/lib/annict.ts:97-169 | returns or throws what the functional model of the fetch says, and sends one request per page: season identifier, `first` 50, no cursor on the first request and the previous page's `endCursor` on each later one, header "Bearer " + token |
| `Annict.FetchOutcome` | src/lib/annict.ts:108-168 | the fetch without the loop: an abort at the stopping reply throws its message and discards the rows; otherwise the rows of all fetched pages are returned, stably sorted by start instant |
| `Annict.HttpErrorAborts` | src/lib/annict.ts:131-133 | a non-2xx response ends pagination there and throws "Annict API error: <status> <statusText>" |
| `Annict.MissingSearchWorksAborts` | src/lib/annict.ts:137-142 | a 2xx payload without `searchWorks` ends pagination there and throws the upstream messages joined by ", ", or "Unknown API error" when there are none |
| `Annict.ContinuesExactly` | src/lib/annict.ts:158-159 | pagination goes past a page if and only if it was a successful page with `hasNextPage` and a non-empty `endCursor`; the next request then carries that cursor |
| `Annict.FetchedRowsSorted` | src/lib/annict.ts:163-166 | the returned rows are in non-decreasing order of start instant |
| `Annict.FetchedRowsPermutation` | src/lib/annict.ts:146-156 | the returned rows are the gathered rows rearranged, none dropped and duplicates kept; there are as many as there are programs on the fetched pages |
| `Annict.FetchedRowsStable` | src/lib/annict.ts:163-166 | rows with the same start instant keep the order in which they were gathered |
| `Annict.FetchedRowsDetermined` | src/lib/annict.ts:163-168 | any arrangement of the gathered rows that is sorted by instant and keeps equal instants in gathering order equals the returned rows |
| `Annict.FlattenAndSortExample` | src/lib/annict.ts:146-166 | one work with two programs yields two rows with the work's title, the earlier broadcast first |
| `KeySort.SortByKey` | src/lib/annict.ts:163-166 | the stable sort is ordered by key, keeps each key's elements in their original order, and keeps the length |
| `KeySort.SameKeyOrderIsPermutation` | src/lib/annict.ts:163-166 | a stable rearrangement is a permutation |
| `KeySort.SortByKeyPermutation` | src/lib/annict.ts:163-166 | the stable sort keeps every element exactly as often as it occurs |
| `KeySort.SortByKeyUnique` | src/lib/annict.ts:163-166 | the stable sort is the only arrangement of its input that is sorted by key and keeps each key's elements in their original order |
| `KeySort.StableSortUnique` | src/lib/annict.ts:163-166 | two sequences that are both sorted by key and both stable with respect to each other are equal |
| `KeySort.SortInPlace` | src/lib/annict.ts:163-166 | in-place insertion sort by adjacent swaps leaves the array equal to the stable sort of its old contents |
| `TextOrder.BelowTransitive` | src/lib/channelCategories.ts:101-103 | the default string order is transitive |
| `TextOrder.BelowTotal` | src/lib/channelCategories.ts:101-103 | any two different strings are ordered one way or the other |
| `TextOrder.BelowAsymmetric` | src/lib/channelCategories.ts:101-103 | the default string order is asymmetric |
| `TextOrder.Sort` | src/lib/channelCategories.ts:101-103 | the sorted list is ascending and a permutation of its input |
| `TextOrder.AscendingUnique` | src/lib/channelCategories.ts:101-103 | two ascending arrangements of the same strings are equal, so the sort has one answer |
| `TextOrder.SortInPlace` | src/lib/channelCategories.ts:101-103 | sorting an array of strings in place leaves it equal to the sorted list of its old contents |
| `TextOrder.DistinctAscendingIsStrict` | src/app/page.tsx:82 | an ascending list without repetitions is strictly ascending |
| `Text.Trim` | src/lib/channelCategories.ts:79 | the trimmed name neither begins nor ends with white space |
| `Text.TrimIsMiddle` | src/lib/channelCategories.ts:79 | the trimmed name is a middle part of the name, and only white space is cut off on either side |
| `Text.TrimIgnoresSurroundingSpace` | src/lib/channelCategories.ts:79 | white space added around a name does not change its trim |
| `Text.Includes` | src/lib/channelCategories.ts:80 | `includes` holds if and only if the keyword occurs at some position |
| `Text.IncludesAny` | src/lib/channelCategories.ts:80-82 | `some(kw => name.includes(kw))` holds if and only if some keyword of the table occurs in the name |
| `Text.NumberText` | src/lib/annict.ts:102 | for an integer below 10^21 in magnitude, `${n}` begins with "-" exactly for negative numbers, followed by the decimal digits of the magnitude |
| `Text.ParseIntOfNumberText` | src/app/api/season/route.ts:35 | `parseInt(s, 10)` reads back the integer written as `${n}`, whatever non-digit text follows |
| `Text.ParseInt` | src/app/api/season/route.ts:35 | `parseInt(s, 10)` is NaN exactly when no digit follows the leading white space and the optional sign; a negative result comes only with a "-" sign |
| `Text.Join` | src/lib/annict.ts:140 | joining no messages gives "", one message gives that message, and n messages give their lengths plus n - 1 separators |
| `SeasonRoute.ParseYear` | src/app/api/season/route.ts:35-36 | a year is accepted exactly when `parseInt` reads a number in 1970..2100, and then it is that number |
| `SeasonRoute.Get` | src/app/api/season/route.ts:16-62 | the status is always one of 200, 400, 500, 502, and it is 200 exactly when the body carries rows |
| `SeasonRoute.TokenCheckedFirst` | src/app/api/season/route.ts:17-23 | a missing or empty token answers 500 with the token message, whatever the parameters |
| `SeasonRoute.ParamsCheckedSecond` | src/app/api/season/route.ts:25-33 | with a token, a missing or empty `year` or `season` answers 400 with the parameters message |
| `SeasonRoute.YearCheckedThird` | src/app/api/season/route.ts:35-41 | then a year that parses to NaN or outside 1970..2100 answers 400 with the year message, whatever the season |
| `SeasonRoute.SeasonCheckedFourth` | src/app/api/season/route.ts:43-51 | then a season other than the four lowercase names answers 400 with the season message |
| `SeasonRoute.FetcherOutcomeMapped` | src/app/api/season/route.ts:53-62 | when every check passes, the fetcher gets the parsed year, the season and the token; returned rows answer 200 unchanged, an Error's message answers 502, anything else thrown answers 502 with the generic message |
| `SeasonRoute.FetcherOnlyWhenValid` | src/app/api/season/route.ts:16-52 | a request that fails a check gets the same answer whatever the fetcher would do, with status 400 or 500 |
| `SeasonRoute.ModelFetcher` | src/app/api/season/route.ts:53-57 | for replies that end pagination, the fetch model never throws anything but an `Error`, and the call returns rows exactly when the fetch model does |
| `SeasonRoute.Year1970` | src/app/api/season/route.ts:35-36 | "1970" is accepted as 1970 (lower bound included) |
| `SeasonRoute.Year2100` | src/app/api/season/route.ts:35-36 | "2100" is accepted as 2100 (upper bound included) |
| `SeasonRoute.Year1969` | src/app/api/season/route.ts:35-36 | "1969" is refused |
| `SeasonRoute.Year2101` | src/app/api/season/route.ts:35-36 | "2101" is refused |
| `SeasonRoute.Year2024` | src/app/api/season/route.ts:35-36 | "2024", or "2024" followed by a non-digit, is accepted as 2024 |
| `SeasonRoute.YearNotANumber` | src/app/api/season/route.ts:35-36 | "abcd" is refused (`parseInt` gives NaN) |
| `SeasonRoute.YearTrailingText` | src/app/api/season/route.ts:35 | "2024abc" is accepted as 2024, as `parseInt` ignores the text after the digits |
| `SeasonRoute.SeasonSpelling` | src/app/api/season/route.ts:43-51 | with the year fixed to "2024", "Spring" and "fall" are refused with the season message |
| `SeasonRoute.EndpointRowsSorted` | src/app/api/season/route.ts:53-55 | a 200 answer carries exactly the rows of the fetch, in order of start instant |
| `SeasonRoute.UpstreamThrows` | src/lib/annict.ts:131-133 | a lone 503 "Service Unavailable" reply makes the fetch throw "Annict API error: 503 Service Unavailable" |
| `SeasonRoute.UpstreamUnavailable` | src/app/api/season/route.ts:53-62 | every request that passes the four checks, with any token, year and season, gets a 502 carrying "Annict API error: 503 Service Unavailable" when the upstream answers 503 |
| `ChannelCategories.GetChannelCategory` | src/lib/channelCategories.ts:78-85 | tests the trimmed name against the national keywords first, then the other keywords, and otherwise answers local; `ChannelCategories.CategoryByKeywords` states each category's exact condition |
| `ChannelCategories.CategoryByKeywords` | src/lib/channelCategories.ts:78-85 | a name is national exactly when its trim contains a national keyword; other exactly when it contains no national keyword but an other keyword; local exactly when it contains neither |
| `ChannelCategories.CategoryIgnoresSurroundingSpace` | src/lib/channelCategories.ts:79 | white space around a channel name does not change its category |
| `ChannelCategories.NationalFirst` | src/lib/channelCategories.ts:80-81 | a trimmed name containing any national keyword is national |
| `ChannelCategories.KeywordTables` | src/lib/channelCategories.ts:20-72 | the tables hold 18 national and 29 other keywords; "フジ", "BS" and "BSフジ" are among them |
| `ChannelCategories.NationalTakesPrecedence` | src/lib/channelCategories.ts:76-83 | any name whose trim contains both "BS" and "フジ", anywhere, mentions an other keyword and is still national, because national keywords are tried first |
| `ChannelCategories.BSFujiIsNational` | src/lib/channelCategories.ts:76-83 | "BSフジ", listed as an other keyword, is classified national |
| `ChannelCategories.Grouped` | src/lib/channelCategories.ts:88-105 | grouping no names gives three empty groups |
| `ChannelCategories.GroupCount` | src/lib/channelCategories.ts:97-100 | a group holds each name of its category as often as the input does, and no name of another category |
| `ChannelCategories.GroupsAscending` | src/lib/channelCategories.ts:101-103 | every group is in ascending string order |
| `ChannelCategories.GroupsPartition` | src/lib/channelCategories.ts:97-100 | the three groups together are a permutation of the input |
| `ChannelCategories.GroupMembership` | src/lib/channelCategories.ts:97-100 | a name is in a group exactly when it is in the input and the classifier puts it in that category |
| `ChannelCategories.SortGroup` | src/lib/channelCategories.ts:102 | sorting a group in place yields the sorted list |
| `ChannelCategories.Bucket` | src/lib/channelCategories.ts:97-100 | the loop pushes each name onto its category's group, which is then the input's names of that category in input order |
| `ChannelCategories.GroupChannelsByCategory` | src/lib/channelCategories.ts:88-105 | the result is, per category, the sorted list of the input names of that category |
| `SearchPage.RowKey` | src/app/page.tsx:48-50 | the key: title, channel name and start, joined by a vertical bar; `SearchPage.RowKeyIdentifies` and `SearchPage.RowKeyCollision` state when it identifies a row |
| `SearchPage.RowKeyIdentifies` | src/app/page.tsx:48-50 | rows with equal title, channel and start have equal keys; when titles and channel names do not contain the separator character of the key, equal keys mean equal rows |
| `SearchPage.RowKeyCollision` | src/app/page.tsx:48-50 | the separator character of the key inside a title or channel name lets two different rows share a key |
| `SearchPage.Toggle` | src/app/page.tsx:52-60 | toggling flips membership of the key and of no other element |
| `SearchPage.ToggleTwice` | src/app/page.tsx:52-60 | toggling the same key twice restores the set |
| `SearchPage.Distinct` | src/app/page.tsx:82 | `[...new Set(list)]` has no repetitions and the same elements as the list |
| `SearchPage.ChannelNames` | src/app/page.tsx:82 | the rows' channels, without repetitions, in default string order; `SearchPage.ChannelNamesMeaning` states what the list holds |
| `SearchPage.ChannelNamesMeaning` | src/app/page.tsx:82 | the channel list is strictly ascending and holds exactly the channels occurring in the rows |
| `SearchPage.FilteredRows` | src/app/page.tsx:85-88 | the shown rows: all rows with no channel selected, otherwise the rows on a selected channel; `SearchPage.FilteredRowsMeaning` states this exactly |
| `SearchPage.FilteredRowsMeaning` | src/app/page.tsx:81-88 | with no channel selected every row is shown; otherwise the shown rows keep their order and are exactly the rows on a selected channel, each as often as it occurs |
| `SearchPage.AllChannelsShowEverything` | src/app/page.tsx:81-101 | selecting every channel of the list shows every row |
| `SearchPage.RecordingItems` | src/app/page.tsx:71 | the shown rows whose key is selected; `SearchPage.RecordingItemsMeaning` states this exactly |
| `SearchPage.RecordingItemsMeaning` | src/app/page.tsx:70-72 | the recording items keep the shown rows' order and are exactly the shown rows whose key is selected |
| `SearchPage.AllWorksRecordEverything` | src/app/page.tsx:62-72 | after selecting all works, every shown row goes on the recording list |
| `SearchPage.NoWorksRecordNothing` | src/app/page.tsx:66-72 | after clearing the works, the recording list is empty |
| `SearchPage.DeleteAll` | src/app/page.tsx:113-119 | deleting each name of a list from a copy of the set leaves the set minus those names |
| `SearchPage.CategoryChannelsMeaning` | src/app/page.tsx:82-83 | a category's channels are exactly the rows' channels that the classifier puts in that category |
| `SearchPage.ShownError` | src/app/page.tsx:121-141 | an error is shown exactly when the search did not succeed |
| `SearchPage.EndpointAnswerShown` | src/app/page.tsx:130-134 | the page installs rows exactly when the endpoint answered 200, and otherwise shows the endpoint's own error message |
| `SearchPage.Home.constructor` | src/app/page.tsx:40-45 | the page starts with no rows, nothing selected and no error |
| `SearchPage.Home.ToggleWork` | src/app/page.tsx:52-60 | flips the selection of the row's key only; rows, channels and error are unchanged |
| `SearchPage.Home.SelectAllWorks` | src/app/page.tsx:62-64 | the work selection becomes exactly the keys of the shown rows |
| `SearchPage.Home.ClearWorks` | src/app/page.tsx:66-68 | the work selection becomes empty; nothing else changes |
| `SearchPage.Home.CreateRecordingList` | src/app/page.tsx:70-78 | nothing is stored exactly when no shown row has a selected key; otherwise the stored items keep the shown rows' order and are exactly the shown rows with a selected key |
| `SearchPage.Home.ToggleChannel` | src/app/page.tsx:90-97 | flips the selection of that channel only; rows, works and error are unchanged |
| `SearchPage.Home.SelectAllChannels` | src/app/page.tsx:99-101 | the channel selection becomes exactly the channel list |
| `SearchPage.Home.ClearChannelFilter` | src/app/page.tsx:103-105 | the channel selection becomes empty; nothing else changes |
| `SearchPage.Home.SelectCategory` | src/app/page.tsx:107-111 | adds exactly the category's channels and keeps every other selected channel |
| `SearchPage.Home.ClearCategory` | src/app/page.tsx:113-119 | removes exactly the category's channels and keeps every other selected channel |
| `SearchPage.Home.HandleSearch` | src/app/page.tsx:121-141 | a success installs the rows and empties the channel filter; a refusal or a failure leaves no rows and shows `data.error`, the default message or the network message; the selected works are kept in every case |

## Left out

- HTTP, GraphQL and JSON. The request body, the query text and the headers other than
  Authorization are not modelled (src/lib/annict.ts:65-90, 119-135). Each round trip is the next
  decoded reply of the given sequence.
- The unbounded loop. The source's `while (true)` has no iteration cap. `Annict.FetchSeasonPrograms`
  and `SeasonRoute.ModelFetcher` require that some reply ends pagination (`Terminates`). An
  upstream that paginates forever, on which the source never answers, is outside the model.
- Date parsing. `new Date(...).getTime()` is the parameter `instant`. Invalid dates, which make
  the comparator return NaN, are not modelled.
- Malformed successful payloads. For example, `searchWorks` present without `edges` crashes the
  source with a TypeError and is not a designed error path.
- The prototype lookup in `toSeasonSlug`. The source looks the name up in a plain object, so
  inherited keys such as "toString" are truthy and would pass the check. The model accepts the
  four names only.
- `formatStartedAt`, `SEASON_LABELS`, the category labels and all rendering: JSX,
  `src/app/layout.tsx` and `next.config.js`.
- Browser plumbing. `sessionStorage`, the `createdAt` timestamp, `JSON.stringify`, `router.push` and
  the recording-list page are not modelled. `SearchPage.Home.CreateRecordingList` returns the
  items that would be stored, or `None` when nothing would be stored.
- Asynchrony and the loading flag. `SearchPage.Home.HandleSearch` models only the state after a
  search has settled: the intermediate `rows = null` and the `loading` flag are not modelled.
  The year and season inputs of the form are not modelled either.
- `process.env`. The access token is an optional string parameter.
- String order. JavaScript's default sort compares UTF-16 code units, while Dafny's `char`
  compares Unicode scalar values. The two orders differ only between characters outside the
  Basic Multilingual Plane and characters U+E000..U+FFFF.
- Text.NumberText: matches `${n}` only for integers whose magnitude is below 10^21. JavaScript
  writes larger numbers in exponent form ("1e+21"), writes fractions with a decimal point, and
  holds integers above 2^53 only approximately. The exported `fetchSeasonPrograms(year: number, …)`
  accepts any number, so a caller other than the endpoint could pass such a year; the model's
  `year` is an unbounded integer written out digit by digit. The endpoint passes only years in
  1970..2100.
- SeasonRoute.ParseYear: the year is an unbounded integer. A numeral longer than about 300
  digits would make JavaScript's `parseInt` return Infinity, which the range check refuses
  anyway.

# mern-gocounter in Dafny

mern-gocounter is a counter-tracking web application. A Go server built on Fiber stores
counters and their signed events ("datas") in MongoDB. A React client lists, creates and
deletes counters, shows a feed of recent events, and draws per-month graphs. Its rename
handler exists, but the edit drawer as written has no name field and a disabled Save button.

This project models the deterministic logic of both sides and proves properties about it.

Server side:

- `StringToBool`, the parser for boolean query flags such as `global`.
- The partial update that `EditCounter` merges into a counter: `softReset` cleared or set,
  `name` replaced only when non-empty, the update time always stamped, and an empty JSON
  object answered "not modified" (a body that does not parse, an empty one included, gets 400).
- The timestamps `CreateData` stamps on a new event.
- The normalisation of the `o` and `limit` query values of `GetDatas`. This includes the Go
  library behaviour it relies on: `strings.Trim`, Fiber's `c.Query` default, and
  `strconv.ParseInt(·, 10, 64)` with its syntax and range errors.
- The find options built from them (sort key and direction, limit 0 meaning no limit).
- The elapsed-day counts of `GetCounterAvg` (truncated) and `GetCounterStats` (ceiling).
  They are computed on `time.Duration` nanoseconds, which saturate at the int64 range.

Web client side:

- `daysInMonth`, including the JavaScript Date constructor's month normalisation and its
  reading of years 0 to 99 as 1900 to 1999. Its month-length table is proved equal to an
  independent day count (the era-based days-from-civil formula).
- The feed page:
  - the id-to-name index;
  - the grouping loop that collects events under their date label in first-seen order;
  - the timeline layout: alternating sides, a connector on every item but the last, and ⇡/⇣ arrows.
- The index page's list updates:
  - create appends;
  - delete filters by id;
  - edit copies the list and splices in the server's answer at `findIndex`.
- The index page's edit drawer, and the settings confirm, which writes only the settings that changed.
- The JavaScript built-ins these rely on: `String.prototype.trim` with its white-space set,
  `findIndex`, and `Array.prototype.splice` with its clamping of negative starts.

Clocks, locale formatting (`toLocaleDateString("it")`, `toLocaleTimeString("it")`), RFC 3339
parsing (`time.Parse(time.RFC3339, ·)`) and the outcome of each database call are parameters
of the model.

Modules, one per source file plus the library behaviour they share:

- `Common`: `Option` and character-set trimming.
- `GoLib`: `strings.Trim`, `c.Query`, `strconv.ParseInt`, `Time.Sub`.
- `JsLib`: `trim`, `splice`.
- `Models`: the record shapes.
- `Helpers`: web/src/lib/helpers.ts.
- `Utils`: app/pkg/utils/utils.go.
- `CountersApi`: app/api/v1/counters.go.
- `DatasApi`: app/api/v1/datas.go.
- `DataQuery`: app/queries/data_query.go.
- `Feed`: web/src/pages/feed.tsx.
- `IndexPage`: web/src/pages/index.tsx.

## Model

| member | source | states |
|---|---|---|
| Common.TrimBoth | app/api/v1/datas.go:41-42 | The result is a contiguous middle part of the input that neither starts nor ends with a cut character; everything removed from either end was a cut character |
| Common.TrimOfPadded | app/api/v1/datas.go:42 | Padding any middle (one that starts and ends outside the cut set) with cut characters on both sides and trimming gives the middle back |
| GoLib.Trim | app/api/v1/datas.go:41-42 | `strings.Trim`: its early returns agree with `TrimBoth`, so the result is the middle of `s` with only cut-set characters removed from both ends, and neither end of the result is one; an empty cut set changes nothing |
| GoLib.Query | app/api/v1/datas.go:41-42 | Fiber's `c.Query(key, def)`: a present, non-empty query value is returned; an absent key or an empty value gives the default |
| GoLib.ScanDigits | app/api/v1/datas.go:42 | The ParseUint digit loop: the value stays within uint64; a syntax error carries 0 and a range error the largest uint64 (which inputs give which is stated by `ScanDigitsPrefix`, `ScanDigitsExact` and `ParseUintSyntax`) |
| GoLib.ParseUint | app/api/v1/datas.go:42 | `strconv.ParseUint(s, 10, 64)`: the same bounds and error values; the empty string is a syntax error |
| GoLib.ScanDigitsPrefix | app/api/v1/datas.go:42 | Over a run of digits that does not overflow, the digit loop just accumulates their decimal value |
| GoLib.ParseUintSyntax | app/api/v1/datas.go:42 | A non-digit reached before the digits overflow is a syntax error with value 0, whatever follows |
| GoLib.ParseIntSyntax | app/api/v1/datas.go:42 | The same for `ParseInt`, after its optional sign |
| GoLib.ParseInt | app/api/v1/datas.go:42 | `strconv.ParseInt(s, 10, 64)`: the value is within int64; a syntax error gives 0; an input not starting with '-' never gives a negative value |
| GoLib.ScanDigitsExact | app/api/v1/datas.go:42 | Scanning an all-digit string whose value fits in uint64 gives exactly its decimal value, with no error |
| GoLib.ParseIntDecimal | app/api/v1/datas.go:42 | Round trip: every int64 value from 0 up, written in decimal with or without '+', parses back to itself with no error |
| GoLib.ParseIntNegativeDecimal | app/api/v1/datas.go:42 | Round trip: every magnitude up to 2^63 written after '-' parses back to its negation with no error |
| GoLib.ParseIntClamps | app/api/v1/datas.go:42 | A digit string above the int64 range but within uint64 gives 2^63 - 1 with a range error |
| GoLib.ParseIntClampsNegative | app/api/v1/datas.go:42 | After '-', a magnitude above 2^63 but within uint64 gives -2^63 with a range error |
| GoLib.Sub | app/queries/data_query.go:160 | `Time.Sub`: the exact difference when it fits in int64 nanoseconds, otherwise the bound on that side |
| Helpers.MonthLength | web/src/lib/helpers.ts:10 | A calendar month has 28 to 31 days |
| Helpers.DateYear | web/src/lib/helpers.ts:10 | The Date constructor reads a year in 0..99 as 1900 + year and keeps every other year as it is |
| Helpers.DaysInMonth | web/src/lib/helpers.ts:1-11 | For every integer month index and year, the result lies in 28..31 |
| Helpers.DaysInMonthOfCalendarMonth | web/src/lib/helpers.ts:10 | Month index 1..11 of a literal year gives the length of calendar month index+1 of that year |
| Helpers.FebruaryLength | web/src/lib/helpers.ts:10 | Index 1 gives 29 exactly in Gregorian leap years and 28 exactly otherwise |
| Helpers.ThirtyAndThirtyOne | web/src/lib/helpers.ts:10 | Indices 3, 5, 8 and 10 give exactly 30; indices 2, 4, 6, 7, 9 and 11 give exactly 31 |
| Helpers.MonthZeroMeansNow | web/src/lib/helpers.ts:6-8 | Index 0 is falsy and is replaced by the current month, so explicit January is never computed |
| Helpers.YearZeroMeansNow | web/src/lib/helpers.ts:3-5 | Year 0 is falsy and is replaced by the current year |
| Helpers.MonthOverflow | web/src/lib/helpers.ts:10 | Index m + 12k of year y equals index m of year y + k (the Date constructor's normalisation) |
| Helpers.MonthTwelve | web/src/lib/helpers.ts:10 | Index 12 is January of the following year: 31 |
| Helpers.YearLength | web/src/lib/helpers.ts:10 | The twelve month lengths add up to 366 in leap years and to 365 otherwise |
| Helpers.MonthLengthIsDayCount | web/src/lib/helpers.ts:10 | Each month's length equals the difference of the independent day counts of its first day and the next month's first day |
| Helpers.DaysInMonthIsDayCount | web/src/lib/helpers.ts:1-11 | `daysInMonth` agrees with the independent day count for every non-zero month index and literal year |
| Utils.StringToBool | app/pkg/utils/utils.go:5-10 | Accepted strings have 1 to 4 characters and start with one of 1, T, t, O, o |
| Utils.TrulyValuesAreCasedTrueWords | app/pkg/utils/utils.go:6-8 | Every accepted spelling is the lower-case, upper-case or capitalised form of 1, t, true or on |
| Utils.CasedTrueWordsAreTrulyValues | app/pkg/utils/utils.go:6-8 | Every such casing is accepted |
| Utils.StringToBoolIsCasedTrueWord | app/pkg/utils/utils.go:6-8 | Accepted if and only if the string is one of those casings, so matching is case-sensitive ("tRUE" and "oN" fail) |
| Utils.StringToBoolNoTrim | app/pkg/utils/utils.go:8 | No trimming: a leading or trailing space makes any input false |
| Utils.StringToBoolRejects | app/pkg/utils/utils.go:6-8 | "", "0", "false", "off", "yes", "tRUE" and "oN" are all false |
| CountersApi.NonEmptyString | app/api/v1/counters.go:84-92 | A key yields a value exactly when it holds a non-empty JSON string, and the value is that string |
| CountersApi.Merge | app/api/v1/counters.go:82-94 | Id and creation time kept; update time stamped; null clears `softReset`; a parsable non-empty string sets it; `softReset` changes in no other way; a non-empty string name replaces the name, anything else keeps it |
| CountersApi.EditCounter | app/api/v1/counters.go:62-100 | Lookup failure gives 500; unparsable body gives 400; an empty map gives 304 with the stored counter untouched; otherwise the merged counter if the store accepts it, else 400 |
| CountersApi.MergeIgnoresOtherKeys | app/api/v1/counters.go:82-92 | Adding or changing any key other than `softReset` and `name` does not change the merge |
| CountersApi.MergeIdempotent | app/api/v1/counters.go:82-94 | Merging the same update twice at the same time is the same as merging it once |
| CountersApi.MergeUnknownKeysOnly | app/api/v1/counters.go:82-94 | A map with neither known key changes only the update time |
| CountersApi.SoftResetKeptOnBadValue | app/api/v1/counters.go:84-89 | A `softReset` that is an empty string, not a string, or not RFC 3339 leaves the reset instant unchanged |
| CountersApi.GlobalFlag | app/api/v1/counters.go:123 | An absent `global` is false; a present one is true exactly when `StringToBool` accepts it |
| DatasApi.CreateData | app/api/v1/datas.go:15-27 | An unparsable body stores nothing; otherwise the stored record keeps id, number and counter, and its two time stamps are the two clock readings, whatever the client sent |
| DatasApi.OrderParam | app/api/v1/datas.go:41 | The ordering is the middle of the `o` value ("" when absent) with only surrounding spaces removed; it neither starts nor ends with a space |
| DatasApi.LimitParam | app/api/v1/datas.go:42 | The limit is never negative and never beyond int64 |
| DatasApi.ListOptionsOf | app/api/v1/datas.go:40-44 | The options handed to the query have a non-negative limit |
| DatasApi.DefaultLimitIsZero | app/api/v1/datas.go:42 | The default "0" parses to 0 with no error |
| DatasApi.LimitAbsent | app/api/v1/datas.go:42 | An absent `limit` means 0, no limit |
| DatasApi.LimitDecimal | app/api/v1/datas.go:42 | A decimal limit surrounded by any spaces and dashes ("-20", "20-", " 20 ") reads as itself |
| DatasApi.LimitBlank | app/api/v1/datas.go:42 | A limit made only of spaces and dashes trims to nothing, a syntax error, and gives 0 |
| DatasApi.LimitNotANumber | app/api/v1/datas.go:42 | A trimmed limit that reaches a non-digit before its digits overflow has its syntax error ignored and gives 0 |
| DatasApi.LettersAreNotANumber | app/api/v1/datas.go:42 | "abc" is a syntax error |
| DatasApi.InnerSpaceIsNotANumber | app/api/v1/datas.go:42 | "2 0" is a syntax error: inner spaces are not trimmed |
| DatasApi.OrderKept | app/api/v1/datas.go:41 | An ordering without surrounding spaces passes unchanged |
| DatasApi.OrderKeepsDash | app/api/v1/datas.go:41 | Leading spaces never hide a leading '-' |
| DatasApi.OrderTrimmed | app/api/v1/datas.go:41 | An ordering padded with any spaces on either side reads as itself, a leading '-' included |
| DatasApi.OrderAbsent | app/api/v1/datas.go:41 | An absent `o` gives the empty ordering |
| DataQuery.BuildFindOptions | app/queries/data_query.go:42-56 | No sort exactly for an empty ordering; descending exactly when it starts with '-'; the sort reproduces the ordering string (one '-' removed, so "--x" sorts descending on "-x"); limit 0 sets no limit, any other limit is applied as given |
| DataQuery.Elapsed | app/queries/data_query.go:156-160 | The elapsed duration is now minus the first record's time (milliseconds scaled to nanoseconds), saturated at each end of the int64 range |
| DataQuery.AvgDays | app/queries/data_query.go:160 | Whole days, truncated toward zero: the count bounds the elapsed time from below (from above when negative) within one day |
| DataQuery.StatsDays | app/queries/data_query.go:202 | The ceiling: the elapsed time lies in (days-1, days] whole days |
| DataQuery.CounterStats | app/queries/data_query.go:198-205 | `total` is returned unchanged alongside the ceiling day count |
| DataQuery.AvgDaysZero | app/queries/data_query.go:160 | The average's denominator is 0 exactly when less than a day has elapsed, either way; the source divides by it unguarded |
| DataQuery.WholeDays | app/queries/data_query.go:156-205 | An exact multiple of a day is counted as itself by both handlers |
| DataQuery.StatsDaysRoundsUp | app/queries/data_query.go:198-202 | For a past first record, the ceiling exceeds the truncation by one exactly when a partial day has elapsed; zero elapsed gives 0 |
| Feed.NameIndex | web/src/pages/feed.tsx:33 | The index's keys are exactly the ids of the counters |
| Feed.NameIndexLastWins | web/src/pages/feed.tsx:33 | Each id maps to the name of the last counter carrying it |
| Feed.DisplayName | web/src/pages/feed.tsx:71-77 | The known non-empty name, otherwise the raw `counterRef` |
| Feed.Distinct | web/src/pages/feed.tsx:44-47 | The labels in first-seen order: the same elements, no duplicates, and a further record never reorders the labels already seen, at most adding its own last |
| Feed.DistinctKeepsOrder | web/src/pages/feed.tsx:44-47 | First-seen order: the labels of every prefix of the input come first, in the same order |
| Feed.WithLabel | web/src/pages/feed.tsx:49 | A group holds only records of the input with that label |
| Feed.GroupStep | web/src/pages/feed.tsx:42-50 | One turn of the loop keeps the grouping invariant: keys are the distinct labels so far, each group is the records so far with its label, in order |
| Feed.GroupByDate | web/src/pages/feed.tsx:40-50 | The dictionary's keys are the distinct labels in first-appearance order; each group is exactly the records with that label in fetch order |
| Feed.GroupingKeepsCount | web/src/pages/feed.tsx:42-50 | The groups together hold exactly as many records as were fetched |
| Feed.RecordInItsGroup | web/src/pages/feed.tsx:42-50 | Every record is in the group of its own label, and that label is a key |
| Feed.LabelLine | web/src/pages/feed.tsx:63-85 | Arrow first when `lr`; ⇡ exactly when the number is positive (0 gives ⇣); the time label and the display name of the record |
| Feed.Lines | web/src/pages/feed.tsx:101-105 | One line per record of the group, in order: line j renders record j with `getLabel`, all on the same side |
| Feed.TimelineItems | web/src/pages/feed.tsx:87-112 | One item per key, in key order; a connector on every item but the last; the item at position c is arrow-first exactly when c is even |
| Feed.FeedRequestOptions | web/src/pages/feed.tsx:38 | The feed's request reaches the query as limit 200, ordering "-createdAt" |
| JsLib.Trim | web/src/pages/index.tsx:217 | `trim()`: the result is the middle of the string left once white space is removed from both ends; only white space is removed, and neither end of the result is white space |
| JsLib.TrimBlank | web/src/pages/index.tsx:217 | A string of white space only trims to "" |
| JsLib.SpliceStart | web/src/pages/index.tsx:222-226 | A start within the array is kept; a negative start counts from the end; a start past the end gives the length, and one before the beginning gives 0 |
| JsLib.Splice | web/src/pages/index.tsx:222-226 | The prefix before the start is kept, the item follows, then the rest after the clamped delete count |
| JsLib.SpliceOneAt | web/src/pages/index.tsx:222-226 | At a valid index, splicing one element is an in-place update |
| JsLib.SpliceOneAtMinusOne | web/src/pages/index.tsx:222-226 | At -1 on a non-empty array the last element is replaced |
| JsLib.SpliceOneEmpty | web/src/pages/index.tsx:222-226 | On an empty array the item is inserted |
| IndexPage.AfterCreate | web/src/pages/index.tsx:195 | The created counter is appended; the existing entries and their order are untouched |
| IndexPage.WithoutId | web/src/pages/index.tsx:206 | A counter is kept exactly when it was in the list and its id differs |
| IndexPage.AfterDelete | web/src/pages/index.tsx:199-208 | An empty id changes nothing; otherwise exactly the counters with other ids remain |
| IndexPage.WithoutIdAppend | web/src/pages/index.tsx:206 | Filtering distributes over concatenation, so the kept counters stay in order |
| IndexPage.WithoutIdLength | web/src/pages/index.tsx:206 | The list shrinks by exactly the number of counters carrying the id |
| IndexPage.DeleteAbsent | web/src/pages/index.tsx:199-208 | Deleting an id no counter carries leaves the list as it is |
| IndexPage.FindIndex | web/src/pages/index.tsx:223 | -1 exactly when no counter has the id, otherwise the first position that has it |
| IndexPage.ReplaceEdited | web/src/pages/index.tsx:218-229 | Found: only that entry is replaced; absent from a non-empty list: the last entry is replaced; empty list: the answer is inserted |
| IndexPage.ShowEditCounter | web/src/pages/index.tsx:242-249 | An empty id changes nothing; otherwise the drawer opens, on the first counter of the list with that id, or on none exactly when no counter has it |
| IndexPage.HandleEditCounter | web/src/pages/index.tsx:210-240 | No current counter or no id: nothing happens; otherwise the drawer closes, and a request is sent exactly when the untrimmed name differs, carrying the trimmed name |
| IndexPage.BlankRenameKeepsName | web/src/pages/index.tsx:215-217 | A white-space-only new name is sent as "", which the server's merge ignores: only the update time changes |
| IndexPage.ConfirmWrites | web/src/pages/index.tsx:256-262 | At most two writes; none exactly when nothing changed; each write changes the stored settings |
| IndexPage.ConfirmReachesProposed | web/src/pages/index.tsx:256-262 | Applying the writes to the stored settings yields the confirmed settings |

## Left out

- MongoDB access is foreign I/O and is not modelled: the queries, the aggregation pipelines and the connection setup.
  `db.Q.GetCounter` and `db.Q.EditCounter` become parameters (`lookup`, `stored`).
  `db.Q.CreateData` is not modelled: `CreateData` stops at the record it hands to the store.
- HTTP routing, Fiber's body parser, JSON encoding and status bodies are left out. The decoded body is a parameter, with `None` for a body that could not be parsed.
- `time.Now`, `new Date()`, `time.Parse(time.RFC3339, ·)`, `toLocaleDateString("it")` and `toLocaleTimeString("it")` are parameters. Their own behaviour is not modelled.
- Floating point is left out: `roundDecimal` (web/src/lib/helpers.ts:13-15), and the `float32` and `float64` averages of `GetCounterAvg` and `GetCounterStats`. Only the integer day counts are modelled.
- The `int32` type assertions on `total` and the `primitive.DateTime` assertion on `firstDate` are left out. They panic on other types; the model takes both values as integers.
- GoLib.ScanDigits: no lemma states which inputs overflow. A run of digits whose value exceeds the uint64 range gives a range error, even when a non-digit follows, and `limit` then reads as 2^63 - 1.
- DataQuery.StatsDays: computes the ceiling exactly. The source goes through `float64` hours, which rounds away a remainder of a few nanoseconds past a whole day after about half a year, and a larger one as the elapsed time grows.
- Helpers.DaysInMonth: does not model the Date range limit of ±8.64e15 ms, beyond which the source gives NaN.
- Feed.GroupByDate: the keys are kept in insertion order. JavaScript orders integer-like property names first, and the "it" date labels (which contain '/') never are such names.
- IndexPage.HandleEditCounter: is modelled as written, although the drawer shown cannot submit: its Save button is disabled and its `onSubmit` passes no values (web/src/components/CounterDrawer.tsx:11,34).
- IndexPage.HandleEditCounter: gives the final drawer state. When a request is sent, the source closes the drawer only after the server answers.
- The network calls of the index and feed pages are left out. A failed call leaves the list unchanged, and the model covers only the state after a success.
- React rendering, dialogs, menus, theming and the graph page are left out, except for the drawer and settings state above.
- `humanizeAvg`, imported at web/src/components/Counter.tsx:23, has no definition in web/src/lib/helpers.ts and is not modelled. The graph page's per-month totals and averages (web/src/pages/graph/[id].tsx:41-72) are left out; only the `daysInMonth` helper they call is modelled.
- Editing a counter keeps the list length only when the list is non-empty. `splice(-1, 1, x)` on an empty list inserts x, so `IndexPage.ReplaceEdited` states that case separately.

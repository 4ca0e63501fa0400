# Engraving dashboard: a Dafny model

This project models the core of an engraving-shop dashboard. The team
keeps orders, employees, product types and processing logs in a
key-value record store (Vercel Edge Config). Staff create orders that
carry Google Drive image links and follow the orders on a dashboard. A
"recent" page lists completed orders, and an analytics page aggregates
them per team member. Backup and restore endpoints copy the whole store
out and write it back.

The model covers:

- **`Db`, `Analytics`, `CompletedOrders`** (`lib/db.js`). These are:
  - the read-with-fallback rule and the default seed data;
  - the active-only listings of employees and product types;
  - the order lookup;
  - the analytics aggregation: period window, grouping by team member in first-appearance order, rounded minute durations and per-member means;
  - the completed-orders list: filter, latest-first sort, JavaScript `slice` and annotation.

  `Analytics.GetAnalytics` keeps the source's loop, written as the `TallyOrders` method. It is proved equal to the recursive specification `Analytics.TeamStats`, and the properties are proved about that specification.
- **`RecentPage`** (`app/recent/page.js`). It covers:
  - `isAfterHours`, on valid dates and on Invalid Dates, whose getters give NaN;
  - `formatDuration`, partnered with a parser and a round-trip lemma;
  - the after-hours count, both as the page computes it and as intended (see "## Findings");
  - the average time and the duration cell.
- **`AnalyticsPage`** (`app/analytics/page.js`). It covers the order total, the average of averages, the member count, the rank badges and the top performer.
- **`Dashboard`** (`app/page.js`). It covers the three-way status derived from image statuses, and the status line.
- **`OrdersRoute`, `DriveLinks`** (`app/api/orders/route.js`). `OrdersRoute.OrderBoard` is a class whose `orders` field is `global.orders`. Its `Post` validates, normalises the image links and prepends. `ExtractDriveThumbnail` keeps the loop over the three patterns, with its early return. It is proved against `DriveThumbnail`, which does leftmost, greedy matching.
- **`EmployeesRoute`, `ProductTypesRoute`** (the employees and product-types routes). Each is a class over the stored Edge Config item, with methods for `POST` (id `max + 1`, append) and `DELETE` (soft delete of the first match). Specification functions on lists carry the lemmas.
- **`RestoreRoute`, `BackupRoute`** (the restore and backup routes):
  - `Restore` passes the store in and returns the new store. Each write's outcome is a parameter `writeOk: Collection -> bool`, and a failed write leaves its collection as it was.
  - `Snapshot` is the backup document.
  - `BackupThenRestore` is the round trip.
- **`InitRoute`** (`app/api/init/route.js`). It overwrites the store with the default data through the same sequential writes, and answers success whatever the writes return.

Supporting modules:

- `Wrappers` holds `Option`.
- `Decimal` holds JavaScript number-to-string conversion for integers.
- `JsMath` holds `Math.round` of a quotient as integer arithmetic. For `n > 0` it is `(2x + n) div 2n`.
- `JsString` holds `String.prototype.trim` over the ECMAScript white-space set.
- `Records` holds the record types, and `Ids` holds `max + 1`.
- `Store` holds the four collections.

Timestamps are integer milliseconds. The record store is a map from
collection to sequence. A read result is an `Option`, where `None`
stands for an absent or falsy value. The `getFromEdge` reads of
`lib/db.js` catch a failed read and fall back, so there `None` also
stands for a read that failed. The routes' own raw reads can throw: the
employee and product-type handlers take a `readOk` flag for that read.

## Model

| member | source | states |
|---|---|---|
| Records.Truthy | app/api/employees/route.js:32 | JavaScript truthiness of an optional string: present and not empty; the guards and `teamMember || "Team"` are stated through it |
| Store.Read | app/api/employees/route.js:40 | the raw `get(key)` of a collection: Some of the stored array exactly when the collection is in the store, None otherwise |
| Db.GetFromEdge | lib/db.js:9-17 | the read with fallback; specified by `GetFromEdgeFallback` |
| Db.GetFromEdgeFallback | lib/db.js:9-17 | any stored list, the empty one included, is returned as is; an absent, falsy or failed read gives the fallback |
| Db.DefaultSeed | lib/db.js:20-36 | the seed holds engravers with ids 1-3 and product types with ids 1-4, all active |
| Db.FilterEmployees | lib/db.js:42-45 | keeps exactly the active employees (of the role, when one is given), each as often as in the input |
| Db.GetEmployees | lib/db.js:39-50 | an employee is listed iff it is in the stored list (or the seed when nothing is stored), active, and of the requested role |
| Db.FilterProductTypes | lib/db.js:56 | keeps exactly the active product types, with their multiplicities |
| Db.GetProductTypes | lib/db.js:53-61 | a product type is listed iff it is stored (or seeded) and active |
| Db.FindOrder | lib/db.js:74-83 | returns the first order with the uid, and None iff no order has it |
| Db.GetOrder | lib/db.js:74-83 | `FindOrder` over the stored orders, [] when nothing is stored; its properties are `FindOrder`'s |
| Ids.NextId | app/api/employees/route.js:41-44 | the new id exceeds every existing id; it is 1 for an empty list and otherwise one more than an existing id |
| Ids.NextIdExample | app/api/product-types/route.js:38-41 | ids 1, 2, 5 give the new id 6 |
| Ids.Max | app/api/employees/route.js:41 | `Math.max(...ids)` of a non-empty list: an element of the list, at least every element |
| JsMath.RoundDiv | lib/db.js:134-136 | `Math.round(x / n)` is the integer r with 2nr - n <= 2x < 2nr + n |
| JsMath.RoundDivUnique | lib/db.js:134-136 | only one integer satisfies that rounding bound |
| JsMath.RoundDivBetween | lib/db.js:134-136 | the rounded mean of values in [lo, hi] lies in [lo, hi] |
| JsMath.Minutes | lib/db.js:122-124 | a millisecond span rounds to the nearest whole minute, halves upward |
| Analytics.Cutoff | lib/db.js:92-100 | the period's cutoff; specified by `WindowsNest`, `UnknownPeriodIsAllTime` and `EightDaysAgo` |
| Analytics.Windowed | lib/db.js:102-106 | an order is kept iff it is in the input, completed, and completed at or after the cutoff |
| Analytics.WindowedCounts | lib/db.js:102-106 | every order in the window is kept as often as the input holds it, every other order not at all |
| Analytics.WindowedAppend | lib/db.js:102-106 | filtering a concatenation concatenates the filtered parts, so list order is kept |
| Analytics.WindowsNest | lib/db.js:92-106 | once a month has passed since the epoch, the day window lies within the week, the week within the month, and the month within all time |
| Analytics.UnknownPeriodIsAllTime | lib/db.js:97-99 | any token other than day, week and month selects the all-time window: every completed order with completedAt >= 0 |
| Analytics.EightDaysAgo | lib/db.js:92-106 | a completion eight days ago is outside the week window and inside the month and all-time windows |
| Analytics.FutureCompletionCounts | lib/db.js:102-106 | the window has no upper bound: a completion after now is counted |
| Analytics.TallyOrders | lib/db.js:108-129 | the loop's dictionary holds, for each first-seen member, the count, the total and the durations of the specification |
| Analytics.TallyOne | lib/db.js:110-128 | one order registers its truthy member on first sight and, when claimed and completed, adds one order and its minutes, keeping the dictionary in step with the specification |
| Analytics.AddDuration | lib/db.js:121-127 | a timed order of a member adds one to the count, its rounded minutes to the total and to the durations |
| Analytics.TeamStats | lib/db.js:108-137 | the specification of the aggregation; its properties are the lemmas `MembersDistinct` to `SingleTimedOrder` below |
| Analytics.Duration | lib/db.js:121-124 | the rounded minutes from claim to completion of a timed order; specified by `AddDuration`, `MeanBetween` and `ArunExample` |
| Analytics.GetAnalytics | lib/db.js:86-144 | the result is the specification's team stats of the windowed stored orders |
| Analytics.MembersDistinct | lib/db.js:111-119 | each member appears once in the result |
| Analytics.MemberIffTagged | lib/db.js:109-119 | a name is listed iff some windowed order is tagged with it |
| Analytics.MembersInFirstAppearanceOrder | lib/db.js:109-119 | members are listed in the order of their first tagged order |
| Analytics.CountsAddUp | lib/db.js:121-128 | the members' counts add up to the number of windowed tagged orders with both timestamps |
| Analytics.UntimedMemberIsListedWithZeros | lib/db.js:110-137 | a member none of whose orders has both timestamps is listed with count 0 and average 0 |
| Analytics.MeanBetween | lib/db.js:131-137 | a member's average lies between its shortest and longest duration |
| Analytics.ArunExample | lib/db.js:121-137 | one 30-minute order gives Arun one order averaging 30 minutes |
| Analytics.SingleTimedOrder | lib/db.js:109-136 | a single timed order by a member yields one entry with one order and its own duration as the average |
| CompletedOrders.CompletedOnly | lib/db.js:151 | keeps exactly the completed orders, with their multiplicities |
| CompletedOrders.SortLatestFirst | lib/db.js:152 | returns a permutation ordered by non-increasing completion time, a `null` completion time counting as the epoch |
| CompletedOrders.SliceEnd | lib/db.js:153 | the end index of `slice(0, limit)`, counting a negative limit from the end, never past the length |
| CompletedOrders.Annotate | lib/db.js:155-160 | each order is kept whole together with its processing minutes |
| CompletedOrders.ProcessingMinutes | lib/db.js:157-159 | the rounded minutes from claim to completion, 0 when a stamp is missing; specified by `UnclaimedHasZeroMinutes` and the `CompletedList` ensures |
| CompletedOrders.CompletedList | lib/db.js:150-160 | the slice's length; completed orders from the input, latest first, with their minutes; every completed order left out finished no later than any kept |
| CompletedOrders.GetCompletedOrders | lib/db.js:146-164 | `CompletedList` over the stored orders, [] when nothing is stored; its properties are `CompletedList`'s |
| CompletedOrders.ListLength | lib/db.js:150-153 | with a non-negative limit the list holds min(limit, number completed) orders |
| CompletedOrders.UnclaimedHasZeroMinutes | lib/db.js:157-159 | an order without a claim time lists 0 minutes |
| Decimal.ParseIntToString | app/api/orders/route.js:27 | the decimal form of an integer reads back as that integer |
| Decimal.NatToStringInjective | app/analytics/page.js:177 | different numbers have different decimal forms |
| Decimal.NatToString | app/api/orders/route.js:27 | the decimal numeral of `Date.now().toString()` and of the rank label's `index + 1`: at least one character, all digits, a leading zero only for 0; read back by `ParseNatToString` and injective by `NatToStringInjective` |
| JsString.Trim | app/api/orders/route.js:34-35 | the result has no leading or trailing white space |
| JsString.TrimDropsBlankEnds | app/api/orders/route.js:34-35 | the result is the middle of the input, with a blank prefix and a blank suffix removed |
| JsString.TrimEmptyIffBlank | app/api/orders/route.js:34 | a link trims to "" iff it is all white space |
| JsString.TrimIdempotent | app/api/orders/route.js:35 | trimming a trimmed link changes nothing |
| RecentPage.IsAfterHours | app/recent/page.js:54-67 | the shift test; specified by `WeekendIsAfterHours`, `RegularShiftWindow` and `HourBoundaries` |
| RecentPage.WeekendIsAfterHours | app/recent/page.js:62-64 | a start on Saturday or Sunday is after hours whatever the hours |
| RecentPage.RegularShiftWindow | app/recent/page.js:54-67 | regular iff the start is a weekday and both hours are in 9..17; the end's weekday plays no part |
| RecentPage.HourBoundaries | app/recent/page.js:64 | hours 8 and 18 are after hours; hours 9 and 17 are not |
| RecentPage.FormatDuration | app/recent/page.js:45-52 | the duration label; specified by `FormatDurationRoundTrip` and `FormatDurationSplit` |
| RecentPage.FormatDurationRoundTrip | app/recent/page.js:45-52 | the duration label reads back as the same number of minutes |
| RecentPage.FormatDurationSplit | app/recent/page.js:45-52 | from an hour up the label is "Hh Mm" with H*60 + M the minutes and M below 60 |
| RecentPage.ShortLabelRoundTrip | app/recent/page.js:45-52 | a label below an hour, "Mm", reads back as M |
| RecentPage.LongLabelRoundTrip | app/recent/page.js:45-52 | a label "Hh Mm" reads back as H*60 + M |
| RecentPage.AfterHoursCount | app/recent/page.js:129-135 | at most the number of rows; 0 iff no row is after hours; all iff every row is |
| RecentPage.AfterHoursCountAppend | app/recent/page.js:135 | the count of two lists joined is the sum of their counts, so the figure counts row by row |
| RecentPage.LocalOf | app/recent/page.js:56-62 | a time value read in a fixed-offset zone is a valid date with a weekday in 0..6 and an hour in 0..23 |
| RecentPage.LocalOfExample | app/recent/page.js:60-62 | noon UTC on the third of January 1970 is Saturday, hour 12 |
| RecentPage.IsAfterHoursOn | app/recent/page.js:54-67 | the shift test on two dates, each valid or invalid; specified by `ValidDatesShiftRule` and `InvalidStartOnlyEndHour` |
| RecentPage.ValidDatesShiftRule | app/recent/page.js:56-64 | on two valid dates the test is the weekday-and-hours shift rule |
| RecentPage.InvalidStartOnlyEndHour | app/recent/page.js:56-64 | an invalid start leaves only the end-hour tests; with both dates invalid the result is false |
| RecentPage.CountAfterHours | app/recent/page.js:135 | the number of listed orders the test holds for, at most the list's length |
| RecentPage.DateField | app/recent/page.js:56-57 | `new Date(o[field])` for a listed order: a valid date for `claimedAt` and `completedAt` (null as the epoch), an Invalid Date for any other field name; specified by `ShownAfterHoursIsZero` and `IntendedAfterHoursCountsShifts` |
| RecentPage.ShownAfterHours | app/recent/page.js:135 | the figure as written, from the undefined `claimed_at` and `completed_at`; specified by `ShownAfterHoursIsZero` |
| RecentPage.ShownAfterHoursIsZero | app/recent/page.js:135 | with both dates invalid for every listed order, the shown figure is 0 for every list |
| RecentPage.IntendedAfterHours | app/recent/page.js:135 | the figure read from the `claimedAt` and `completedAt` the list carries; specified by `IntendedAfterHoursCountsShifts` |
| RecentPage.IntendedAfterHoursCountsShifts | app/recent/page.js:129-135 | the intended figure is `AfterHoursCount` of the listed orders' shifts |
| RecentPage.SaturdayShiftNotShown | app/recent/page.js:135 | an order worked on a Saturday counts 1 as intended and 0 as shown |
| RecentPage.AverageMinutes | app/recent/page.js:142-145 | the rounded mean of the rows' minutes (missing ones as 0) over a non-empty list |
| RecentPage.MissingMinutesShowZero | app/recent/page.js:206 | a row without processing minutes shows "0m" |
| AnalyticsPage.AvgProcessingTime | app/analytics/page.js:31-36 | 0 for no members; otherwise the rounded unweighted mean of the members' averages |
| AnalyticsPage.AvgProcessingTimeBetween | app/analytics/page.js:31-36 | the page average lies between the smallest and largest member average |
| AnalyticsPage.TotalOrders | app/analytics/page.js:30 | the `reduce` sum of `completed_orders`; specified by `TotalOrdersCountsTimedOrders` |
| AnalyticsPage.TotalOrdersCountsTimedOrders | app/analytics/page.js:30 | the order total equals the number of windowed tagged orders with both timestamps |
| AnalyticsPage.ActiveTeamMembers | app/analytics/page.js:136 | the length of the team stats; specified by `ActiveMembersAreTaggedNames` |
| AnalyticsPage.ActiveMembersAreTaggedNames | app/analytics/page.js:136 | the member count is the number of distinct names; names are distinct and exactly those tagging a windowed order |
| AnalyticsPage.RankLabel | app/analytics/page.js:177 | the medal for positions 0-2, else "#" and the position plus one; specified by `RankLabelsDistinct` |
| AnalyticsPage.RankLabelsDistinct | app/analytics/page.js:177 | different positions get different badges |
| AnalyticsPage.TopPerformer | app/analytics/page.js:216-217 | the first entry of the team stats; specified by `TopPerformerIsFirstTagged` and `TopPerformerNeedNotLead` |
| AnalyticsPage.TopPerformerNeedNotLead | app/analytics/page.js:216-217 | the first entry is named top performer even with fewer orders than a later one |
| AnalyticsPage.TopPerformerIsFirstTagged | app/analytics/page.js:216-217 | for any windowed orders, the top performer is the statistic of the member of the earliest tagged order, whatever the counts |
| Dashboard.AnyProcessing | app/page.js:36-40 | true iff some image object has status "processing" |
| Dashboard.AllCompleted | app/page.js:42-46 | true iff every image is an object with status "completed" |
| Dashboard.GetStatus | app/page.js:33-51 | always one of "pending", "processing", "completed" |
| Dashboard.StatusCases | app/page.js:42-50 | completed iff there are images and all are completed; processing iff some is processing and not all are completed |
| Dashboard.NoImagesIsPending | app/page.js:34 | an order without images is pending |
| Dashboard.UnstatusedImagesArePending | app/page.js:36-50 | bare links and images without a status never make an order processing or completed |
| Dashboard.StatusLine | app/page.js:81-86 | the card's status line; specified by `StatusLineCases` and `ProcessingWithoutMemberShowsTeam` |
| Dashboard.StatusLineCases | app/page.js:81-86 | "Completed" iff completed, "Pending" iff pending, a line starting "Processing by " iff processing |
| Dashboard.ProcessingWithoutMemberShowsTeam | app/page.js:81-82 | a processing order without a team member reads "Processing by Team" |
| Dashboard.NewOrderShowsPending | app/page.js:33-51 | an order just created by POST shows as pending |
| DriveLinks.FirstId | app/api/orders/route.js:61-73 | the extracted id is non-empty and made only of letters, digits, `_` and `-` |
| DriveLinks.PatternId | app/api/orders/route.js:67-69 | capture group 1 of one pattern's leftmost match: when present, a non-empty run of id characters |
| DriveLinks.DriveThumbnail | app/api/orders/route.js:58-80 | the specification of the thumbnail; specified by `FirstMatchingPatternWins`, `FirstIdNone` and `ThumbnailShape` |
| DriveLinks.ExtractDriveThumbnail | app/api/orders/route.js:58-80 | the pattern loop with early return computes the specification's thumbnail |
| DriveLinks.FirstMatchingPatternWins | app/api/orders/route.js:67-73 | the first pattern that matches anywhere decides the id |
| DriveLinks.FirstIdNone | app/api/orders/route.js:67-76 | no id is found iff no pattern occurs followed by an id character |
| DriveLinks.ThumbnailShape | app/api/orders/route.js:71-76 | with an id the result is the thumbnail address around it; without one, the url itself |
| DriveLinks.PatternOrderExample | app/api/orders/route.js:61-73 | in "open?id=AAA/d/BBB" the later `/d/` match wins over the earlier `id=` |
| OrdersRoute.NormalizeImages | app/api/orders/route.js:34-37 | the image normalisation; specified by `NormalizedImagesAreTrimmed`, `NormalizeImagesAppend`, `NormalizeOneLink` and `NormalizeStoredUrls` |
| OrdersRoute.NormalizeLink | app/api/orders/route.js:34-35 | one link: dropped iff blank, else stored trimmed with the thumbnail of the untrimmed link; specified by `NormalizeOneLink` and `NormalizedImagesAreTrimmed` |
| OrdersRoute.NewOrder | app/api/orders/route.js:26-37 | the created order; specified by `NewOrderUid` and `Dashboard.NewOrderShowsPending` |
| OrdersRoute.NormalizedImagesAreTrimmed | app/api/orders/route.js:34-37 | every stored image has a non-empty trimmed url and no status; none is invented |
| OrdersRoute.NormalizeImagesAppend | app/api/orders/route.js:34-37 | links are normalised one by one, keeping their order |
| OrdersRoute.NormalizeOneLink | app/api/orders/route.js:34-36 | a link is dropped iff it is blank; otherwise stored trimmed with the thumbnail of the untrimmed link |
| OrdersRoute.NormalizeStoredUrls | app/api/orders/route.js:34-35 | posting the stored urls again stores the same urls |
| OrdersRoute.NewOrderUid | app/api/orders/route.js:26-33 | the uid reads back as the creation time |
| OrdersRoute.OrderBoard.constructor | app/api/orders/route.js:1-4 | the list starts empty |
| OrdersRoute.OrderBoard.Get | app/api/orders/route.js:6-11 | returns the whole list in stored order |
| OrdersRoute.OrderBoard.Post | app/api/orders/route.js:13-55 | without an order number: 400 and nothing changes; otherwise a pending, unclaimed order is put in front of the unchanged list |
| OrdersRoute.CreateThenList | app/api/orders/route.js:6-46 | after a valid POST the list is one longer, with the new pending order first and the old list behind it |
| EmployeesRoute.WithNewEmployee | app/api/employees/route.js:40-51 | the old list stays as a prefix; the new active employee has the name, role and an id above every existing one |
| EmployeesRoute.AddKeepsIdsUnique | app/api/employees/route.js:41-51 | adding keeps ids unique |
| EmployeesRoute.AddedEmployeeIsListed | app/api/employees/route.js:43-51 | the new employee is listed for their role and unfiltered |
| EmployeesRoute.FirstWithId | app/api/employees/route.js:80 | the first position with the id, or None iff no employee has it |
| EmployeesRoute.Deactivate | app/api/employees/route.js:79-85 | only the first employee with the id changes, and only its `active`, to false |
| EmployeesRoute.DeactivateIdempotent | app/api/employees/route.js:82-84 | deleting twice leaves the list of deleting once |
| EmployeesRoute.DeactivatedIsNotListed | app/api/employees/route.js:82-84 | with unique ids, a deleted employee appears in no listing |
| EmployeesRoute.EmployeeConfig.constructor | app/api/employees/route.js:40 | the class holds the stored "employees" item as given |
| EmployeesRoute.EmployeeConfig.Get | app/api/employees/route.js:8-26 | returns the active-employee listing of the stored item, or of the seed when the read fails |
| EmployeesRoute.EmployeeConfig.Post | app/api/employees/route.js:29-65 | a missing name or role gives 400 with no write; a failed read gives 500 with no write; otherwise the extended list is written when the write succeeds, and the reply is success either way |
| EmployeesRoute.EmployeeConfig.Delete | app/api/employees/route.js:68-95 | a missing or zero id gives 400; a failed read gives 500; both with no write; otherwise success, with a write only when an employee has the id |
| ProductTypesRoute.WithNewType | app/api/product-types/route.js:37-47 | the old list stays as a prefix; the new active type has the name and an id above every existing one |
| ProductTypesRoute.AddKeepsIdsUnique | app/api/product-types/route.js:38-47 | adding keeps ids unique |
| ProductTypesRoute.AddedTypeIsListed | app/api/product-types/route.js:40-47 | the new type is listed |
| ProductTypesRoute.FirstWithId | app/api/product-types/route.js:76 | the first position with the id, or None iff no type has it |
| ProductTypesRoute.Deactivate | app/api/product-types/route.js:75-81 | only the first type with the id changes, and only its `active`, to false |
| ProductTypesRoute.DeactivateIdempotent | app/api/product-types/route.js:78-80 | deleting twice leaves the list of deleting once |
| ProductTypesRoute.DeactivatedIsNotListed | app/api/product-types/route.js:78-80 | with unique ids, a deleted type is no longer listed |
| ProductTypesRoute.ProductTypeConfig.constructor | app/api/product-types/route.js:37 | the class holds the stored "productTypes" item as given |
| ProductTypesRoute.ProductTypeConfig.Get | app/api/product-types/route.js:8-23 | returns the active listing of the stored item, or of the seed when the read fails |
| ProductTypesRoute.ProductTypeConfig.Post | app/api/product-types/route.js:26-61 | a missing name gives 400 with no write; a failed read gives 500 with no write; otherwise the extended list is written when the write succeeds, and the reply is success either way |
| ProductTypesRoute.ProductTypeConfig.Delete | app/api/product-types/route.js:64-91 | a missing or zero id gives 400; a failed read gives 500; both with no write; otherwise success, with a write only when a type has the id |
| RestoreRoute.RestoreStats | app/api/restore/route.js:52-57 | every collection's count is its length in the backup, 0 when absent |
| RestoreRoute.RestoreOne | app/api/restore/route.js:25-43 | one step: a present collection is attempted, its flag set to the write result and the store updated only on success |
| RestoreRoute.RestoreAll | app/api/restore/route.js:18-43 | after the four steps, flags, store and attempts are as specified for all collections |
| RestoreRoute.Restore | app/api/restore/route.js:3-58 | missing data: 400 and nothing written; otherwise each flag is true iff present and written, success iff all four are, the message follows it, and the store changes exactly in the written collections, written once each in the fixed order |
| BackupRoute.Snapshot | app/api/backup/route.js:5-27 | all four collections, a missing one as [], with counts equal to their lengths |
| BackupRoute.RestoreStatsOfBackup | app/api/backup/route.js:21-26 | restoring a backup reports the counts the backup recorded |
| BackupRoute.BackupThenRestore | app/api/backup/route.js:15-26 | all four writes attempted in order; success iff every write succeeds; with every write succeeding, the store equals the backup's data |
| RestoreRoute.AllSteps | app/api/restore/route.js:18-43 | after the four steps exactly the present collections were attempted and the successful writes applied |
| InitRoute.DefaultData | lib/db.js:20-36 | every collection present, holding `getDefaultData()`'s list for it |
| InitRoute.DefaultDataSizes | lib/db.js:20-36 | no orders or logs, the three seeded employees and the four product types |
| InitRoute.Init | app/api/init/route.js:4-18 | the four writes attempted in order; each collection holds the default data iff its write succeeded; the reply is success with the default data whatever the writes return |

## Left out

- `Date` parsing, `toISOString` and `toLocaleString` are not modelled. Times are integer milliseconds.
- `RecentPage.IsAfterHours` takes valid dates only. `RecentPage.IsAfterHoursOn` covers an Invalid Date: an invalid start gives false unless the end hour is outside 9..17, because its `getDay()` and `getHours()` are NaN and every test on them fails. An invalid end drops only the end-hour tests.
- `RecentPage.LocalOf` reads time values in a zone at a fixed offset from UTC. Daylight-saving changes are not modelled.
- Edge Config reads and `updateEdgeConfig` are network calls and are not modelled. A read is an `Option` parameter or a stored field, and whether a raw read succeeds is a boolean parameter. A write's success is a boolean parameter. The model assumes a failed write leaves the item unchanged.
- The employee, product-type and orders routes store `createdAt` as an ISO string. The model stores the millisecond value.
- `OrdersRoute.OrderBoard.Post` takes one clock reading for both the uid and `createdAt`; the source reads the clock twice.
- `OrdersRoute.OrderBoard.Post` has no 500 path. The request is modelled as already parsed. It does not model the throws behind it: a malformed or `null` body, a truthy `images` that is not an array, and a non-string image entry whose `url.trim()` fails.
- `EmployeesRoute.EmployeeConfig.Post`, `EmployeesRoute.EmployeeConfig.Delete`, `ProductTypesRoute.ProductTypeConfig.Post`, `ProductTypesRoute.ProductTypeConfig.Delete` and `RestoreRoute.Restore` take the request as already parsed. The 500 reply when `await req.json()` rejects a malformed body is not modelled.
- `BackupRoute.Snapshot` models the backup for successful reads only. A raw `get` that throws makes the backup route answer 500, which is not modelled.
- `Analytics.GetAnalytics` assumes `Object.values` returns members in first-appearance order. JavaScript lists integer-like keys such as "2" first, in numeric order. Names are treated as plain text.
- `Analytics.GetAnalytics` does not model keys shared with `Object.prototype`: a member named "constructor" misbehaves in the source.
- `CompletedOrders.SortLatestFirst` states order and permutation but not stability, although the insertion it uses keeps equal completion times in input order.
- `CompletedOrders.CompletedList` reads a missing completion time as `null`, which `new Date` turns into the epoch (the orders POST stores `completedAt: null`). An order object lacking the key altogether would make the comparator NaN; `Option` does not tell that case apart, so it is not modelled.
- JavaScript numbers are doubles and the model's integers are exact. The arithmetic and `Decimal.NatToString` agree with the source only for integers up to 2^53, and `Number#toString` switches to exponent form from 1e21 on. `RecentPage.LocalOf` always gives a valid date, while `new Date(t)` is an Invalid Date once |t| exceeds 8.64e15 ms (about the year 275760), well below 2^53.
- `ProductTypesRoute` repeats the list functions and lemmas of `EmployeesRoute` (`UniqueIds`, `FirstWithId`, `Deactivate` and their lemmas) over its own record type, as the two route files repeat the same code. The two are kept as mirror copies.
- Record ids for employees and product types are integers and request ids are integers or absent. Non-numeric ids and `===` across types are not modelled.
- An order number is a string, so the truthiness of a numeric order number is not modelled.
- The recent page reads snake_case fields: `claimed_at`, `completed_at`, `order_number`, `engraver_name` and `designer_name`. The listed orders carry none of them, since `getCompletedOrders` returns the stored camelCase record plus `processing_minutes`. As wired, every date the page builds is an Invalid Date and the After Hours figure it shows is always 0 (`RecentPage.ShownAfterHoursIsZero`, see "## Findings"). The table cells built from these fields are display only and are not modelled.
- The performance score on the analytics page is a floating-point percentage and is not modelled.
- The whole-collection read-modify-write race between concurrent requests is not modelled. Neither are uid collisions from `Date.now()`.
- `getAllOrders` and `getProcessingLogs` only forward a read with fallback (`Db.GetFromEdge`) and are not modelled separately.
- The order claim and completion steps and the processing-log entries have no handler in the repository, so they are not modelled.
- The health route answers a constant and reads nothing. The analytics route hands `period` ("week" when missing or empty) to `getAnalytics`, and the completed-orders route hands the limit 50 to `getCompletedOrders`. Both wrap the result with `success: true`. None of the three is modelled separately.
- The settings, backup and upload pages, styles and layout are UI and are not modelled.
- The backup's JSON pretty-printing and `Content-Disposition` file name are not modelled.

## Findings

| source | as written | input that shows it | evidently intended | confidence | as-written member | corrected member |
|---|---|---|---|---|---|---|
| app/recent/page.js:135 | `isAfterHours(o.claimed_at, o.completed_at)` reads fields the listed orders do not have, so both dates are Invalid Dates and every test fails | one completed order claimed at 10:00 and completed at 12:00 on a Saturday: the page shows After Hours 0 (`RecentPage.SaturdayShiftNotShown`; `RecentPage.ShownAfterHoursIsZero` for every list) | read `o.claimedAt` and `o.completedAt`, as `getCompletedOrders` returns them: the figure is 1, and `RecentPage.IntendedAfterHoursCountsShifts` ties it to the shift rule | not executed; holds for orders stored by this repository's handlers, which write camelCase | RecentPage.ShownAfterHours | RecentPage.IntendedAfterHours |

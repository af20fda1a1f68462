# Barbershop admin front end: verified model of its data logic

This Dafny project models the data-handling core of a barbershop
booking front end (a SvelteKit app written in TypeScript). It covers:

- **The dashboard aggregator** (`src/lib/utils/dashboard.ts`). It turns
  the reservations into chart points and headline statistics for a
  weekly, monthly or yearly period.
- **The in-memory mock tables** behind the admin pages for vouchers,
  catalogue entries, services and reservations. The customer-side
  catalogue table is modelled too.
- **`optimizeImage`**, which rewrites storage URLs.
- **The unread-chat stores.**
- **The zod form schemas.**

The model is built from these modules:

- `Calendar` gives a proleptic Gregorian `Date` with day numbers,
  millisecond times, the month and day carry of `new Date(y, m, d, …)`,
  `setDate`/`setHours`, weekdays and the English day and month names.
- `Decimal` handles decimal spelling and reading of numbers. That covers
  `toString`, `parseInt` of digit strings, zero padding and the code-unit
  order of strings.
- `DateText` holds the stored time stamp "YYYY-MM-DD HH:MM" and its ISO
  reading.
- `Dashboard` is the aggregator. It has imperative methods that follow
  the source's loops. Each is proved against a functional specification:
  `ChartOf` for the chart and `StatsOf` for the statistics.
- `DashboardRanges` and `DashboardTotals` prove what the ranges, the
  axes and the totals mean in calendar terms.
- `DashboardFindings` models the yearly axis as the source writes it.
- `MockTable` holds what the tables share: first match, overwrite at the
  first match, append, the `{ success, data, error }` response, and the
  `Math.floor(Math.random() * n) + lo` draw.
- `AdminVoucher`, `AdminCatalogue` and `AdminService` model the admin
  tables. Each is a class whose field is the module-level array. The
  service table holds rows of two shapes, the seeded ones and those the
  service form stores, and its lookup returns a four-field copy.
  `SharedCatalogue` models the read-only customer table.
- `Sorting` is an in-place array sort proved to give non-increasing keys
  and a permutation. `AdminReservation` uses it: the generated feed,
  sorted newest first, and its latest three waiting reservations.
- `ImageUrl` models `optimizeImage`, and `ChatStore` the counter and
  inbox stores.
- `Schema` models each zod schema as a parse function. It says what the
  schema accepts and what value a successful parse returns, with the
  JavaScript `trim` and UTF-16 `length`.

Modelling choices:

- **The clock** is a parameter (`now`) wherever the source calls
  `new Date()`.
- **`Math.random()` draws** are parameters in [0, 1).
- **Values produced by the fake-data library** (names, paragraphs, image
  URLs, the random ids of `userId`) are parameters or the given initial
  contents of a table.
- **Dates** are naive calendar dates. Local time and UTC coincide in the
  model.

## Model

| member | source | states |
|---|---|---|
| Calendar.NewDate | src/lib/utils/dashboard.ts:65-78 | `new Date(y, m, d, h, mi, s, ms)`: a valid date with the given clock fields; the day number is that of the first of the carried month (year + m div 12, m mod 12) plus d - 1, so month and day overflow carry into neighbouring months and years |
| Calendar.SetDate | src/lib/utils/dashboard.ts:53-61 | `setDate(d)`: the same clock, and the day number moved to day d of the same month, carrying across month ends |
| Calendar.SetHours | src/lib/utils/dashboard.ts:47 | `setHours(h, mi, s, ms)`: the same day, with exactly the given clock fields |
| Calendar.AddDays | src/lib/utils/dashboard.ts:53-61 | moving by k days keeps the clock and adds exactly k to the day number |
| Calendar.TimeOrder | src/lib/utils/dashboard.ts:162-177 | `getTime` order is day order, and within one day it is millisecond-of-day order (what the `>=`/`<=` comparisons of dates compare) |
| Calendar.TimeInjective | src/lib/utils/dashboard.ts:162-177 | two valid instants with the same `getTime` are the same date and clock |
| Calendar.DayNumberOrder | src/lib/utils/dashboard.ts:162-177 | the day number orders dates lexicographically by year, month and day, in both directions |
| Calendar.WeekdayAfter | src/lib/utils/dashboard.ts:92-98 | k days later the weekday has advanced by k mod 7 |
| Calendar.DayNamesDistinct | src/lib/utils/dashboard.ts:28-30 | the seven weekday names that `getDayName` yields are pairwise distinct |
| Calendar.MonthNamesDistinct | src/lib/utils/dashboard.ts:100-103 | the twelve month names are pairwise distinct |
| Calendar.MonthsFillYear | src/lib/utils/dashboard.ts:73-74 | the twelve months add up to the year's length (365 or 366) |
| Decimal.NatToStringRoundTrip | src/lib/utils/dashboard.ts:186 | the decimal spelling of a number (`toString`) is a digit string that reads back as that number (`parseInt`) |
| Decimal.NatToStringInjective | src/lib/utils/dashboard.ts:186 | distinct numbers have distinct spellings, so distinct years get distinct chart keys |
| Decimal.IntToString | src/lib/utils.ts:27 | `String(n)` of an integer: a non-negative number is spelled in digits that read back as the number; a negative one is a minus sign followed by digits that read back as its magnitude |
| Decimal.StringLessSameWidth | src/lib/utils/dashboard.ts:204 | on digit strings of equal width, the code-unit order of `sort()` is numeric order |
| DateText.ReplaceFirst | src/lib/utils/dashboard.ts:20-22 | `replace(a, b)` with a one-character pattern keeps the length, and leaves a string without `a` unchanged |
| DateText.ReplaceFirstPointwise | src/lib/utils/dashboard.ts:20-22 | every position of the result holds the original character, or `b` where the original held `a` |
| DateText.ReadIsoMinutes | src/lib/utils/dashboard.ts:20-22 | `new Date` of "YYYY-MM-DDTHH:MM" with an hour below 24 and a day of the month: a valid instant with seconds and milliseconds 0 |
| DateText.ReadIsoMinutesShape | src/lib/utils/dashboard.ts:20-22 | any string the reader accepts has sixteen characters with the separators in place |
| DateText.ReplaceFirstAt | src/lib/utils/dashboard.ts:20-22 | when the first `a` is at position k, the result is the input with position k set to `b` |
| DateText.WriteThenRead | src/lib/api/admin/reservation.ts:17-26 | a stamp written by `toISOString().slice(0, 16)` reads back as the same instant, to the minute |
| DateText.ReadThenWrite | src/lib/api/admin/reservation.ts:17-26 | a string that reads as an ISO stamp to the minute is exactly what writing that instant yields |
| Dashboard.ParseDate | src/lib/utils/dashboard.ts:20-22 | `parseDate` of a stamp that reads gives a valid instant with seconds and milliseconds 0 |
| Dashboard.ParseDateReadsBack | src/lib/utils/dashboard.ts:20-22 | only sixteen-character stamps with a space or `T` at position 10 parse, and such a stamp is, with its first space read as `T`, the ISO writing of the instant it gives |
| Dashboard.ParseStampText | src/lib/utils/dashboard.ts:20-22 | `parseDate` of a stored stamp "YYYY-MM-DD HH:MM" yields the instant it was written from, with seconds and milliseconds 0 |
| Dashboard.PeriodRangesOf | src/lib/utils/dashboard.ts:41-82 | the four range bounds are valid dates for every period and clock reading |
| Dashboard.GetPeriodRanges | src/lib/utils/dashboard.ts:41-82 | the step-by-step `Date` mutations of `getPeriodRanges` compute exactly the ranges `PeriodRangesOf` describes |
| Dashboard.WeeklyRanges | src/lib/utils/dashboard.ts:49-62 | the weekly branch's clones, `setDate` and `setHours` calls compute the weekly ranges |
| Dashboard.MonthlyRanges | src/lib/utils/dashboard.ts:63-70 | the monthly branch's `new Date` calls, day 0 included, compute the monthly ranges |
| Dashboard.YearlyRanges | src/lib/utils/dashboard.ts:71-78 | the yearly branch's `new Date` calls compute the yearly ranges |
| Dashboard.DayZeroOfNextMonth | src/lib/utils/dashboard.ts:66 | `new Date(y, m + 1, 0, 23, 59, 59, 999)` is the last millisecond of month m, December included |
| Dashboard.DayZeroOfPreviousEnd | src/lib/utils/dashboard.ts:70 | `new Date(y, m, 0, 23, 59, 59, 999)` is the last millisecond of the month before m, across the new year |
| Dashboard.DayOneOfMonth | src/lib/utils/dashboard.ts:65-69 | `new Date(y, m, 1)` for m from -1 to 11 is the first of the carried month, so index -1 is December of the year before |
| Dashboard.FirstOfNextMonth | src/lib/utils/dashboard.ts:63-70 | the day after a month's last day is the first of the next month |
| Dashboard.InitializeChartData | src/lib/utils/dashboard.ts:87-120 | the weekly loop and the monthly loop yield the seven weekday names from the range start or the twelve months; the yearly axis starts empty; every label has an empty bucket and no other key exists |
| Dashboard.SinglePass | src/lib/utils/dashboard.ts:154-200 | after the loop, the four accumulators are the current and previous slot totals; `grouped` holds each key's bucket; the non-yearly axis is unchanged; the yearly labels spell the eligible years seen, without duplicates |
| Dashboard.CountStats | src/lib/utils/dashboard.ts:159-168 | one eligible reservation adds its amount and 1 to the current accumulators when in the current range, else to the previous ones when in the previous range |
| Dashboard.FileReservation | src/lib/utils/dashboard.ts:174-199 | filing under the chart key keeps `grouped` equal to the buckets of the reservations seen, and pushes a yearly label only the first time it appears |
| Dashboard.KeyFor | src/lib/utils/dashboard.ts:174-187 | the key is the weekday name inside the current week, the month name within the current year, the year's spelling in yearly mode, and none otherwise |
| Dashboard.FillYears | src/lib/utils/dashboard.ts:209-219 | the gap-filling loop yields every year's label from the least to the greatest, each with the bucket of the reservations of that year (empty for a gap) |
| Dashboard.YearlyAxis | src/lib/utils/dashboard.ts:203-225 | the corrected yearly axis (see Findings), which ProcessChartData uses: the consecutive years from the least to the greatest eligible year by value, or the current year alone when there is none; the buckets are those of the input. It agrees with the source's string sort whenever every year has four digits (DashboardFindings.AsWrittenAgreesForFourDigitYears) |
| Dashboard.ProcessChartData | src/lib/utils/dashboard.ts:126-247 | the chart is `ChartOf` and the statistics are `StatsOf` of the reservations under the period's ranges; in yearly mode the axis is the corrected YearlyAxis, which equals the source's for four-digit years |
| Dashboard.CalculateTrend | src/lib/utils/dashboard.ts:229-232 | with no previous value the trend is 100 when the current one is positive, else 0; otherwise it is (curr - prev) / prev * 100 |
| Dashboard.YearsAreLabels | src/lib/utils/dashboard.ts:208-209 | the collected yearly labels are digit strings that `parseInt` reads back as the years collected beside them |
| Dashboard.MinOf | src/lib/utils/dashboard.ts:208 | the least year is one of the years and at most every year |
| Dashboard.MaxOf | src/lib/utils/dashboard.ts:209 | the greatest year is one of the years and at least every year |
| Dashboard.YearLabels | src/lib/utils/dashboard.ts:213-217 | exactly hi - lo + 1 labels, the j-th spelling lo + j |
| DashboardRanges.WeeklyCurrent | src/lib/utils/dashboard.ts:50-53 | an instant is in the current week iff it is on one of the seven days ending today and not after now |
| DashboardRanges.WeeklyPrevious | src/lib/utils/dashboard.ts:55-62 | an instant is in the previous week iff its day is 7 to 13 days before today |
| DashboardRanges.MonthlyCurrent | src/lib/utils/dashboard.ts:64-66 | an instant is in the current range iff it is in now's calendar month |
| DashboardRanges.MonthlyPrevious | src/lib/utils/dashboard.ts:68-70 | an instant is in the previous range iff it is in the calendar month before, January going back to December |
| DashboardRanges.YearlyCurrent | src/lib/utils/dashboard.ts:72-74 | an instant is in the current range iff it is in now's year |
| DashboardRanges.YearlyPrevious | src/lib/utils/dashboard.ts:76-78 | an instant is in the previous range iff it is in the year before |
| DashboardRanges.RangesAdjacent | src/lib/utils/dashboard.ts:41-82 | in every period the previous range ends exactly one millisecond before the current one starts |
| DashboardRanges.RangesDisjoint | src/lib/utils/dashboard.ts:162-168 | no instant is in both ranges, so the `else if` never hides a match |
| DashboardRanges.PreviousSlotIsPreviousRange | src/lib/utils/dashboard.ts:156-168 | a reservation feeds the previous totals iff it is eligible and its instant lies in the previous range |
| DashboardTotals.WeekLabelsAreTheWeek | src/lib/utils/dashboard.ts:91-98 | the weekly axis holds every weekday name exactly once |
| DashboardTotals.WeekEndsToday | src/lib/utils/dashboard.ts:91-98 | the weekly axis ends with today's weekday name |
| DashboardTotals.WeeklyChartAddsUpToStats | src/lib/utils/dashboard.ts:162-164 | in weekly mode the chart's incomes and customers add up to `totalIncome` and `totalCustomers` |
| DashboardTotals.MonthlyChartAddsUpToYear | src/lib/utils/dashboard.ts:180-184 | in monthly mode the chart adds up to the eligible reservations of the current year |
| DashboardTotals.YearlyChartAddsUpToAll | src/lib/utils/dashboard.ts:185-225 | in yearly mode the chart adds up to all eligible reservations |
| DashboardTotals.YearlyAxisConsecutive | src/lib/utils/dashboard.ts:207-225 | the yearly axis is distinct digit labels of consecutive years from the least eligible year to the greatest |
| DashboardTotals.EligibleYearOnAxis | src/lib/utils/dashboard.ts:186-217 | every eligible reservation's year is on the yearly axis |
| DashboardTotals.YearWithoutReservations | src/lib/utils/dashboard.ts:216 | a filled-in year with no eligible reservation has an empty bucket |
| DashboardTotals.TrendSign | src/lib/utils/dashboard.ts:229-232 | the trend is positive, zero or negative exactly as the current value is above, equal to or below the previous one |
| DashboardTotals.OnlyEligibleMatter | src/lib/utils/dashboard.ts:156 | dropping every reservation that is not completed or on-going changes neither the chart nor the statistics |
| DashboardTotals.ChartTotalIsKeyed | src/lib/utils/dashboard.ts:234-239 | the chart's total is the total of the reservations whose key is on the axis |
| DashboardFindings.AsWrittenAgreesForFourDigitYears | src/lib/utils/dashboard.ts:203-217 | while every eligible year has four digits, the string sort and `parseInt` of the source give the corrected axis |
| DashboardFindings.AsWrittenAxisEmpty | src/lib/utils/dashboard.ts:203-217 | with eligible years 999 and 2020 as written, the axis is empty while the intended one has 1022 labels |
| DashboardFindings.AsWrittenAxisEmptyExample | src/lib/utils/dashboard.ts:203-217 | two completed reservations, in 999 and 2020, give an empty yearly chart as written |
| DashboardFindings.SortedFirstIsMin | src/lib/utils/dashboard.ts:204-208 | for four-digit years the first label after `sort()` spells the least year |
| DashboardFindings.SortedLastIsMax | src/lib/utils/dashboard.ts:204-209 | for four-digit years the last label after `sort()` spells the greatest year |
| MockTable.FirstIndex | src/lib/api/admin/voucher.ts:81 | `findIndex`: present exactly when some element matches, and then the first match |
| MockTable.Lookup | src/lib/api/admin/voucher.ts:41-72 | the lookup succeeds iff some element matches; it then carries the first match and no error; otherwise exactly the not-found response |
| MockTable.Replace | src/lib/api/admin/voucher.ts:80-87 | the edit keeps the length, reports true iff a match exists, and then overwrites the first match; otherwise the table is unchanged |
| MockTable.ReplaceThenLookup | src/lib/api/admin/voucher.ts:80-87 | after an edit, the lookup by the edited id answers the new row |
| MockTable.ReplaceKeepsOtherLookups | src/lib/api/admin/voucher.ts:80-87 | an edit leaves the lookups of every other id as they were |
| MockTable.AppendThenLookup | src/lib/api/admin/voucher.ts:89-97 | after `push`, a fresh id finds the new row, while an id already taken keeps answering the earlier row |
| MockTable.Draw | src/lib/api/admin/service.ts:8 | `Math.floor(Math.random() * n) + lo` is a whole number from lo to lo + n - 1 |
| AdminVoucher.SeedInstant | src/lib/api/admin/voucher.ts:10-16 | a seeded instant is a valid date of 2025 with exactly the drawn month, day, hour and minute (no field carries) |
| AdminVoucher.SeedVoucher | src/lib/api/admin/voucher.ts:7-33 | a seeded voucher's dates are stamps of 2025 dates, its service is one of the three, and its value is 0 to 99 |
| AdminVoucher.VoucherStore.constructor | src/lib/api/admin/voucher.ts:7 | the table starts with its seeded rows |
| AdminVoucher.VoucherStore.GetVoucherById | src/lib/api/admin/voucher.ts:41-72 | success iff some voucher has the id; then the first such voucher and no error; else "Voucher not found" |
| AdminVoucher.VoucherStore.GetVoucher | src/lib/api/admin/voucher.ts:74-78 | returns the current contents of the voucher table |
| AdminVoucher.VoucherStore.EditVoucher | src/lib/api/admin/voucher.ts:80-87 | true iff the id exists; then the first voucher with it is overwritten and found again; other ids' lookups are unchanged; false leaves the table as it was |
| AdminVoucher.VoucherStore.CreateVoucher | src/lib/api/admin/voucher.ts:89-97 | appends the voucher and answers true; a fresh id is found as the new row, a taken one still answers the earlier row |
| AdminCatalogue.CatalogueStore.constructor | src/lib/api/admin/catalogue.ts:5 | the table starts with its seeded rows |
| AdminCatalogue.CatalogueStore.GetCatalogueById | src/lib/api/admin/catalogue.ts:19-48 | success iff some entry has the id; then the first such entry; else "Catalogue not found" |
| AdminCatalogue.CatalogueStore.GetCatalogue | src/lib/api/admin/catalogue.ts:50-54 | returns the current contents of the catalogue table |
| AdminCatalogue.CatalogueStore.EditCatalogue | src/lib/api/admin/catalogue.ts:56-63 | true iff the id exists; then the first entry with it is overwritten; other lookups are unchanged; false leaves the table as it was |
| AdminCatalogue.CatalogueStore.CreateCatalogue | src/lib/api/admin/catalogue.ts:65-73 | appends the entry and answers true, with the same shadowing of a taken id |
| AdminService.SeedService | src/lib/api/admin/service.ts:5-10 | a seeded row's price is a whole number from 1000 to 10999; it carries `serviceName` and neither `name` nor `attainableCoin` |
| AdminService.FormRow | src/lib/api/admin/service.ts:54-71 | the row that the service form's action (Service/[id]/Edit/+page.server.ts, lines 35 and 40) passes to edit and create carries the form's name, price, description and coin, and no `serviceName` |
| AdminService.CleanIgnoresFormFields | src/lib/api/admin/service.ts:29-34 | the four-field copy does not depend on a row's `name` or `attainableCoin` |
| AdminService.AsWrittenFormRowLosesName | src/lib/api/admin/service.ts:29-34 | a form-stored row reads back with `serviceName` undefined, so two forms differing only in name and coin read back the same |
| AdminService.IntendedClean | src/lib/types/adminTypes.ts:20-26 | the copy as the declared type names it: id, name, price, description and coin taken from the row |
| AdminService.IntendedCleanRoundTrip | src/lib/types/adminTypes.ts:20-26 | the intended copy of a form-stored row gives back every field of the form, and different forms give different copies |
| AdminService.ServiceStore.constructor | src/lib/api/admin/service.ts:5 | the table starts with its seeded rows |
| AdminService.ServiceStore.GetServiceById | src/lib/api/admin/service.ts:18-46 | success iff some row has the id; then the four-field copy (id, `serviceName`, price, description) of the first such row; else "Service not found" |
| AdminService.ServiceStore.GetService | src/lib/api/admin/service.ts:48-52 | returns the current contents of the service table |
| AdminService.ServiceStore.EditService | src/lib/api/admin/service.ts:54-61 | true iff the id exists; then the first row with it is overwritten and the lookup by that id gives the four-field copy of the new row; other lookups are unchanged; false leaves the table as it was |
| AdminService.ServiceStore.CreateService | src/lib/api/admin/service.ts:63-71 | appends the row and answers true; the lookup by its id then gives the four-field copy of the new row when the id was free, and the earlier row's answer when it was taken |
| SharedCatalogue.GetCatalogueById | src/lib/api/shared/catalogue.ts:19-48 | success iff some entry has the id; then the first such entry, with its image list; else "Catalogue not found" |
| SharedCatalogue.GetCatalogue | src/lib/api/shared/catalogue.ts:50-54 | the whole table |
| SharedCatalogue.EveryEntryFound | src/lib/api/shared/catalogue.ts:19-48 | looking up any entry's id succeeds and answers that entry, or an earlier entry with the same id |
| Sorting.SortByKeyDescending | src/lib/api/admin/reservation.ts:32-34 | the in-place sort leaves the keys non-increasing and the array a rearrangement of what it held: same multiset, and each position traced to its origin by a permutation |
| AdminReservation.SeedDate | src/lib/api/admin/reservation.ts:17-23 | a generated instant is a valid date in 2020-2025 on day 1 to 28, to the minute |
| AdminReservation.GenerateRow | src/lib/api/admin/reservation.ts:13-29 | row `index` has id "id-<index + 1>", one of the five statuses, an amount from 1000 to 10999, and the stamp of its generated instant |
| AdminReservation.IdsDistinct | src/lib/api/admin/reservation.ts:14 | distinct positions get distinct ids |
| AdminReservation.GeneratedKey | src/lib/api/admin/reservation.ts:33 | the comparator's key of a generated row is the `getTime` of the instant it was generated from |
| AdminReservation.GetReservations | src/lib/api/admin/reservation.ts:5-36 | 269 rows that are the generated ones rearranged (the same multiset, position by position through a permutation), newest first by the comparator's key, with pairwise distinct ids |
| AdminReservation.Waiting | src/lib/api/admin/reservation.ts:40 | the filter keeps exactly the waiting-approve reservations |
| AdminReservation.WaitingKeepsOrder | src/lib/api/admin/reservation.ts:40 | the filter keeps newest-first order |
| AdminReservation.LatestWaiting | src/lib/api/admin/reservation.ts:41 | `slice(0, 3)`: the first min(3, n) waiting reservations |
| AdminReservation.LatestAreMostRecent | src/lib/api/admin/reservation.ts:38-43 | on the sorted feed the three picked are at least as recent as every waiting reservation left out |
| AdminReservation.PickedAreLatest | src/lib/api/admin/reservation.ts:38-43 | of any newest-first arrangement of the rows, at most three are picked; they are waiting rows, newest first; a waiting row left out means three were picked, each at least as recent as it |
| AdminReservation.GetLatestWaitingReservations | src/lib/api/admin/reservation.ts:38-43 | at most three reservations, newest first, all waiting and all generated; a waiting generated reservation left out means three were returned, none older than it; these are the latest three waiting ones of the sorted feed |
| ImageUrl.OptimizeImage | src/lib/utils.ts:19-31 | an empty url gives ""; a "data:" or "blob:" url is returned unchanged; otherwise the url is kept as a prefix, followed by "&" if it already has a "?" and by "?" if not, then by the parameters format=webp, resize=cover and, for a width that is given and not 0, width=<width> |
| ImageUrl.SplitJoin | src/lib/utils.ts:24-30 | splitting on the separator undoes joining pieces that do not contain it, which identifies each appended parameter |
| ImageUrl.RewrittenHasQuery | src/lib/utils.ts:23-30 | a rewritten url contains "?" and does not end with it, so rewriting it again appends with "&" |
| ChatStore.ChatStore.constructor | src/lib/stores/chat.ts:5-6 | the count starts at 0 and the inbox empty |
| ChatStore.ChatStore.UpdateUnreadCount | src/lib/stores/chat.ts:9-11 | the count becomes exactly the given count; the inbox is untouched |
| ChatStore.ChatStore.UpdateChatInbox | src/lib/stores/chat.ts:14-16 | the inbox becomes exactly the given list; the count is untouched |
| ChatStore.ChatStore.IncrementUnreadCount | src/lib/stores/chat.ts:19-21 | the count grows by exactly 1; the inbox is untouched |
| ChatStore.ChatStore.DecrementUnreadCount | src/lib/stores/chat.ts:24-26 | the count becomes max(0, n - 1), so it is never negative afterwards; the inbox is untouched |
| ChatStore.Decremented | src/lib/stores/chat.ts:25 | `Math.max(0, n - 1)`: not negative, at least n - 1, and equal to 0 or to n - 1 |
| ChatStore.DecrementCases | src/lib/stores/chat.ts:25 | from 0 the count stays 0; from a positive count it drops by 1 |
| ChatStore.DecrementUndoesIncrement | src/lib/stores/chat.ts:20-25 | a decrement undoes an increment of a non-negative count |
| ChatStore.RepeatedDecrement | src/lib/stores/chat.ts:25 | k decrements from a non-negative n leave max(0, n - k) |
| Schema.Trim | src/lib/zod/schema.ts:8 | `trim()` yields a slice of the input with only JavaScript white space removed on each side, starting and ending on another character |
| Schema.TrimIdempotent | src/lib/zod/schema.ts:8 | trimming twice is trimming once |
| Schema.Utf16Length | src/lib/zod/schema.ts:8 | `length` counts UTF-16 code units: between one and two per character |
| Schema.ParseBarber | src/lib/zod/schema.ts:5-30 | accepted iff: the id is one or more digits; the trimmed name has 1 to 50 code units; the trimmed phone number is 10 to 14 code units, all digits; each optional text trims to at most 255. The output carries the trimmed strings and `active`, true when absent |
| Schema.BarberReparse | src/lib/zod/schema.ts:5-30 | a parsed barber passes the schema again and parses to itself |
| Schema.BarberPhone | src/lib/zod/schema.ts:10-21 | a parsed phone number is 10 to 14 decimal digits and nothing else |
| Schema.ParseService | src/lib/zod/schema.ts:32-52 | accepted iff: the id is digits; the trimmed name has 1 to 50 code units; the price is from 1 to 9999999; the description trims to at most 255; the coin is from 0 to 9999999. The output carries the trimmed strings |
| Schema.ServiceReparse | src/lib/zod/schema.ts:32-52 | a parsed service passes the schema again and parses to itself |
| Schema.ParseVoucher | src/lib/zod/schema.ts:54-82 | accepted iff: the trimmed title and service have 1 to 50 code units; the four date and time strings are non-empty; the description trims to at most 255; the value is from 1 to 100. The output carries the trimmed strings |
| Schema.VoucherReparse | src/lib/zod/schema.ts:54-82 | a parsed voucher passes the schema again and parses to itself |
| Schema.ParseType | src/lib/zod/schema.ts:89 | the enum accepts exactly "Long", "Short" and "Medium", each as its own length |
| Schema.TypeNameRoundTrip | src/lib/zod/schema.ts:89 | every length survives the trip through its tag |
| Schema.ParseCatalogue | src/lib/zod/schema.ts:84-96 | accepted iff the trimmed name has 1 to 50 code units, the type is one of the three tags and the description trims to at most 255; the output carries the trimmed strings and the parsed type |
| Schema.CatalogueReparse | src/lib/zod/schema.ts:84-96 | a parsed catalogue form passes the schema again and parses to itself |
| Schema.ParseOperationalTime | src/lib/zod/schema.ts:98-103 | accepted iff the date is non-empty and at least one hour is given; the value is returned unchanged |

## Left out

- Time zones and daylight saving are not modelled. The model reads every
  `Date` as a naive calendar date, so local time (`setHours`,
  `new Date(y, m, …)`, `getFullYear`) and UTC (`toISOString`) coincide.
  The source's stamps are written in UTC and read back as local time.
- `toLocaleDateString` is modelled as the English day and month names
  that the `en-US` locale yields. `formatCurrency` (dashboard.ts:24-26)
  is locale formatting and is not part of this model.
- Dashboard.ProcessChartData requires every completed or on-going
  reservation's stamp to parse (`WellFormed`). The source's behaviour on
  an unreadable stamp (an Invalid Date, and a "NaN" key in yearly mode)
  is not modelled.
- Dashboard.CalculateTrend uses exact real arithmetic, not IEEE doubles.
  Amounts are whole numbers, and `res.amount || 0` is the amount itself.
- Dashboard.ValidNow requires the clock to read a year after 100, where
  `new Date(y, …)` does not remap two-digit years.
- `Math.random()` draws are parameters in [0, 1). The model also takes
  as parameters the fake names, paragraphs and image URLs, the random
  `userId` ids, and the initial rows of the catalogue tables. The
  `try`/`catch` branches of the lookups cannot throw on these values and
  are not modelled.
- GetVoucher (AdminVoucher.VoucherStore.GetVoucher) returns the table's
  value. The source returns the live array, so a caller that changes the
  array it was given changes the table; that aliasing is not modelled.
- GetCatalogue (AdminCatalogue.CatalogueStore.GetCatalogue) returns the
  table's value; the aliasing of the live array is not modelled.
- GetService (AdminService.ServiceStore.GetService) returns the table's
  value; the aliasing of the live array is not modelled.
- Dashboard.ParseDate reads only "YYYY-MM-DD HH:MM" and "YYYY-MM-DDTHH:MM"
  with a four-digit year, an hour below 24 and a day of the month. It gives
  None for other strings that `Date` accepts, such as
  "2025-01-01T10:00:00" (with seconds), "2025-01-01T24:00" (midnight of
  the next day) and other ECMAScript date forms. It also gives None for
  "2025-02-30 10:00", which V8 rolls over to March 2. The application only
  stores the sixteen-character form.
- AdminReservation.StampKey is the `getTime` of the parsed stamp, with 0
  for a stamp that does not parse. Every generated stamp parses, so the
  fallback is never used. The comparator's `NaN` is not modelled.
- AdminReservation.GetReservations states a sorted permutation but not
  the stability of JavaScript's sort. Equal stamps may come in any order.
- Sorting.SortByKeyDescending is a specific in-place algorithm. The
  engine's `Array.prototype.sort` algorithm is not part of this model,
  only its result.
- AdminService.Row keeps both the seeding's `serviceName` and the form's
  `name`; the form's price and coin are reals, the seeding's price a whole
  number. AdminVoucher.Voucher keeps the string dates that the code
  stores. The declared types in adminTypes.ts differ from both.
- ImageUrl.OptimizeImage takes an integer width. A fractional width or
  `NaN` (falsy in JavaScript) is not modelled.
- Schema.Utf16Length counts code units from Dafny's Unicode scalar
  values, which are the characters of well-formed strings. Lone
  surrogates are not representable.
- Schema parse functions model acceptance and the parsed value. They do
  not model the error messages and issue lists that zod reports, nor a
  field of the wrong JavaScript type. Numbers are reals standing for
  finite doubles.
- `catalogueSchema.file` accepts anything and is not modelled.
- The `userId` helper (schema.ts:3) is randomness and is not modelled.
- ChatStore.ChatStore holds the unread count as an integer. The store
  holds a JavaScript number, which `updateUnreadCount` could set to a
  fraction; `Math.max(0, 0.5 - 1)` is 0, and fractional counts are not
  modelled.
- ChatStore.ChatStore models the two Svelte stores as fields of one
  object. Subscriptions and notification of subscribers are not
  modelled.

## Findings

| source | as written | input that shows it | evidently intended | confidence | as-written member | corrected member |
|---|---|---|---|---|---|---|
| src/lib/utils/dashboard.ts:203-217 | The yearly labels are sorted as strings (`sort()`). The axis bounds are then read back from the first and last label with `parseInt`. | Two completed reservations, in the years 999 and 2020. After the sort, "2020" comes before "999", so the minimum is 2020 and the maximum is 999. The filling loop runs zero times and the yearly chart is empty. | A continuous axis from the least to the greatest year by value. The two agree while every year has four digits. | not executed; low impact, since years before 1000 do not occur in practice | DashboardFindings.AsWrittenAxisEmptyExample | Dashboard.YearlyAxis |
| src/lib/api/admin/service.ts:29-34 | `getServiceById` copies `id`, `serviceName`, `price` and `description`. The service form stores `{...data, id}` (Service/[id]/Edit/+page.server.ts:35 and :40), whose name field is `name`, with `attainableCoin`, and which has no `serviceName`. | Save the form for an existing id with name "Fade" and coin 5, then look the id up: the answer has `serviceName` undefined and carries neither the name nor the coin. | The copy of the declared `Service` type (adminTypes.ts:20-26): id, name, price, description and the optional coin, so a saved form reads back whole. | not executed; the edit form then shows an empty name | AdminService.AsWrittenFormRowLosesName | AdminService.IntendedClean |

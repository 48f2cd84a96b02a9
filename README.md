# Top articles over a week or a month

This project models the `/top-articles/:year/:month/:day?duration=week|month`
endpoint of the Wikipedia API wrapper, and proves properties of that model.
The endpoint:

1. checks the `duration` query parameter, then the date named by the route
   parameters;
2. expands the start date into the inclusive list of days of the period
   (seven days for a week, the rest of the calendar month for a month);
3. requests each day's top-article list from the Wikimedia pageviews
   service and waits for all of them;
4. folds the lists into one running total per article title;
5. answers with the totals as `{article, views}` records, sorted by views,
   largest first.

Modules, one per step:

- `Calendar`: dates as (year, month, day), Gregorian month lengths, the next day, and the ascending run of days between two dates.
- `DateText`: the `yyyy/MM/dd` text form, both parsing and formatting.
- `DateRange`: a period's end date and its expansion into days.
- `Upstream`: the per-day requests, joined all-or-nothing.
- `Aggregation`: the nested-loop fold, an imperative method over a `map`, checked against the specification `SumFor`.
- `Ranking`: the object's entries in key order, and the sort.
- `TopArticles`: the handler itself.

The pageviews service is a parameter `upstream: string -> FetchOutcome` keyed by the
day's `yyyy/MM/dd` text.

## Model

| member | source | states |
|---|---|---|
| TopArticles.ParseDuration | wikipedia-api-wrapper/src/server.ts:30-32 | only the exact strings `week` and `month` are durations; an absent, structured or other value is rejected |
| TopArticles.JoinParams | wikipedia-api-wrapper/src/server.ts:34 | the text is the year parameter, a `/`, the month parameter, a `/` and the day parameter, in that order |
| TopArticles.JoinedDateAccepted | wikipedia-api-wrapper/src/server.ts:34-39 | the joined route parameters name a date exactly when they are four, two and two digits naming a real calendar date of a year from 1 on, and then they name that date |
| DateText.ParseDate | wikipedia-api-wrapper/src/server.ts:34-39 | an accepted text names a real calendar date of a year from 1 to 9999, and is exactly that date's `yyyy/MM/dd` text |
| DateText.FieldsReadBack | wikipedia-api-wrapper/src/server.ts:35 | a 4/2/2-digit text naming a calendar date is that date's own formatted text |
| DateText.Value | wikipedia-api-wrapper/src/server.ts:35 | a digit string of width `w` denotes a number below `10^w` |
| DateText.FormatDate | wikipedia-api-wrapper/src/server.ts:55 | a date of a year below 10000 is written as ten characters: four, two and two digits denoting its year, month and day, with slashes at places 4 and 7 |
| DateText.Padded | wikipedia-api-wrapper/src/server.ts:55 | the padded field is all digits, at least as wide as asked, denotes `n`, and is the last `w` digits of `n` when `n` fits |
| DateText.ValueOfDigits | wikipedia-api-wrapper/src/server.ts:55 | reading back the last `w` digits of a number below `10^w` gives the number |
| DateText.DigitsOfValue | wikipedia-api-wrapper/src/server.ts:35 | re-padding a digit string's value to the string's width gives the string back |
| DateText.ParseFormatted | wikipedia-api-wrapper/src/server.ts:55 | every calendar date of a four-digit year parses back from its own request text |
| Calendar.DaysInMonth | wikipedia-api-wrapper/src/server.ts:37 | every month has 28 to 31 days, February has 29 exactly in Gregorian leap years, and every other month has at least 30 |
| Calendar.NextDay | wikipedia-api-wrapper/src/server.ts:50-53 | the next day is a calendar date later than the given one |
| Calendar.NextDayIsLeast | wikipedia-api-wrapper/src/server.ts:50-53 | no calendar date lies strictly between a date and the next day |
| Calendar.AddDays | wikipedia-api-wrapper/src/server.ts:45 | moving forward `n` days gives a calendar date, later than the start exactly when `n > 0` |
| Calendar.LastOfMonth | wikipedia-api-wrapper/src/server.ts:47 | the month end lies in the same year and month, not before the date, and the next day leaves the month |
| Calendar.Range | wikipedia-api-wrapper/src/server.ts:50-53 | the run starts at the start date, ends at the end date, and each day is the next day of the one before |
| Calendar.RangeAscending | wikipedia-api-wrapper/src/server.ts:50-53 | the run is strictly ascending, so no day repeats |
| Calendar.RangeBounds | wikipedia-api-wrapper/src/server.ts:50-53 | every day of the run lies between its two ends |
| Calendar.RangeMembership | wikipedia-api-wrapper/src/server.ts:50-53 | a calendar date is in the run exactly when it lies between the ends |
| Calendar.RangeOfAddDays | wikipedia-api-wrapper/src/server.ts:44-45 | the run up to `n` days after the start has `n + 1` days, the `i`-th being the start plus `i` days |
| Calendar.RangeToMonthEnd | wikipedia-api-wrapper/src/server.ts:46-47 | the run to the month end has `DaysInMonth - day + 1` days, the `i`-th being day `day + i` of the same month |
| DateRange.EndDate | wikipedia-api-wrapper/src/server.ts:41-48 | the period's end is a calendar date not before the start |
| DateRange.Expand | wikipedia-api-wrapper/src/server.ts:50-53 | the period's days start at the start date, end at the end date, and are consecutive calendar dates |
| DateRange.WeekIsSevenDays | wikipedia-api-wrapper/src/server.ts:44-45 | a week is exactly seven consecutive days beginning on the start date |
| DateRange.MonthIsRestOfMonth | wikipedia-api-wrapper/src/server.ts:46-47 | a month runs from the start date to the last day of its month, never leaving that month |
| DateRange.ExpandIsInterval | wikipedia-api-wrapper/src/server.ts:50-53 | the days are strictly ascending and are exactly the calendar dates between start and end |
| DateRange.ConstructorYear | wikipedia-api-wrapper/src/server.ts:47 | the `Date` constructor reads years 0 to 99 as 1900 to 1999 and leaves later years alone |
| DateRange.MonthEndAsWritten | wikipedia-api-wrapper/src/server.ts:47 | the month end computed through the `Date` constructor is a calendar date in the start month whose next day leaves the month |
| DateRange.MonthEndAsWrittenFromYear100 | wikipedia-api-wrapper/src/server.ts:47 | from year 100 on, the month end as written is the intended one |
| DateRange.EarlyYearMonthEndLeavesMonth | wikipedia-api-wrapper/src/server.ts:47 | for years 1 to 99 the month end as written is 1900 years later, and its range takes in the first day of the next month, which the intended range excludes |
| DateRange.EarlyYearExample | wikipedia-api-wrapper/src/server.ts:47 | from 0050-01-15 the month end as written is 1950-01-31 |
| TopArticles.Requests | wikipedia-api-wrapper/src/server.ts:55 | one request per day of the period, in day order, each the day's `yyyy/MM/dd` text, which parses back as that day |
| TopArticles.DayTexts | wikipedia-api-wrapper/src/server.ts:55 | the texts of a list of days, in order, each parsing back as its day |
| TopArticles.ExpandedYearsFromOne | wikipedia-api-wrapper/src/server.ts:50-55 | every day of a period that starts in year 1 or later has a year from 1 on |
| Upstream.FetchAll | wikipedia-api-wrapper/src/server.ts:55-57 | all lists in request order exactly when every request came back with a list; a rejected join exactly when some request was rejected, with that request's failure; otherwise the join resolves but some day has no list |
| Aggregation.FirstSeenFacts | wikipedia-api-wrapper/src/server.ts:63-65 | the key order holds every title met, each exactly once |
| Aggregation.Aggregate | wikipedia-api-wrapper/src/server.ts:59-68 | the keys are exactly the titles met, added in first-seen order, and each total is the title's `SumFor` over all days |
| Aggregation.AddDayList | wikipedia-api-wrapper/src/server.ts:62-67 | adding one more day's list turns the totals over the earlier days into the totals over one more day |
| Aggregation.AddEntry | wikipedia-api-wrapper/src/server.ts:63-66 | one entry creates its title at 0 when new, appends it to the key order, and adds its views |
| Aggregation.TallyStep | wikipedia-api-wrapper/src/server.ts:63-66 | one pass of the loop body keeps the key order and every total exact |
| Aggregation.AbsentFromDays | wikipedia-api-wrapper/src/server.ts:61-68 | a title that occurs in no list has a total of zero |
| Aggregation.SumForAppend | wikipedia-api-wrapper/src/server.ts:61-68 | a title's total over two runs of days is the sum of its totals over each |
| Aggregation.SumForPermutation | wikipedia-api-wrapper/src/server.ts:61-68 | a title's total does not depend on the order of the days |
| Aggregation.TotalsAddUp | wikipedia-api-wrapper/src/server.ts:59-68 | the totals of all distinct titles met add up to all the views of all the lists |
| Aggregation.TitlesMembership | wikipedia-api-wrapper/src/server.ts:61-63 | a title is met exactly when some entry of some day carries it |
| Ranking.Entries | wikipedia-api-wrapper/src/server.ts:71-72 | one `{article, views}` record per key, in key order, with that key's total |
| Ranking.Insert | wikipedia-api-wrapper/src/server.ts:73 | inserting into a list sorted by views, largest first, keeps it sorted and adds exactly the one record |
| Ranking.SortByViews | wikipedia-api-wrapper/src/server.ts:73 | the result is sorted by views, largest first, and is a permutation of the input |
| Ranking.Rank | wikipedia-api-wrapper/src/server.ts:71-73 | the response array is sorted by views, largest first, and is a permutation of the entries |
| Ranking.InsertKeepsTitlesDistinct | wikipedia-api-wrapper/src/server.ts:73 | inserting a record with a new title keeps every title once |
| Ranking.SortKeepsTitlesDistinct | wikipedia-api-wrapper/src/server.ts:73 | sorting never duplicates a title |
| Ranking.ViewsAreTotals | wikipedia-api-wrapper/src/server.ts:71-72 | a list of records carrying their titles' totals adds up to the totals of its titles |
| Ranking.RankOfTotals | wikipedia-api-wrapper/src/server.ts:59-73 | ranking the fold's totals is sorted, has each title once, exactly the titles met, each with its total, and adds up to all views |
| TopArticles.FailureResponse | wikipedia-api-wrapper/src/server.ts:77-83 | a rejected request's client error gives 500 with its message; the TypeError of a body without `items[0]` gives 500 with the fixed unknown-error text |
| TopArticles.Status | wikipedia-api-wrapper/src/server.ts:75-83 | the status is 200, 400 or 500 exactly for a ranking, a rejected request or a failure; the handler's contract states its answers through it |
| TopArticles.RankFetched | wikipedia-api-wrapper/src/server.ts:55-83 | 200 with a ranking of all the lists, adding up to all their views, exactly when every request came back with a list; when some request was rejected, 500 with the failure of a rejected request, whatever the others came back with; any other 500 carries the unknown-error text and some day had no list |
| TopArticles.HandleTopArticles | wikipedia-api-wrapper/src/server.ts:25-85 | a bad duration is answered 400 before the date is looked at, and a bad date 400 before any request, each with its message and no request sent; otherwise one request per day, in day order, answered as `RankFetched` promises |

## Left out

- Express routing, the response objects, the greeting route, the error middleware and the listener: these are HTTP plumbing. The response is modelled as the `Response` datatype.
- The axios call, the URL and the `User-Agent` header: these are network I/O. Each day's outcome comes from the `upstream` parameter. It is a list, a client error with a message, a body without `items[0]`, or an `items[0]` without `articles`. A body without `items[0]` makes the request's promise reject with a TypeError. An `items[0]` without `articles` makes it resolve with nothing, and the fold then throws. Other malformed bodies are not modelled, such as records without `views` or an `articles` value that is not a list.
- FetchAll: the requests run concurrently, and `Promise.all` rejects with whichever rejection settles first. The model reports the first rejection in request order, and its contract says only "the failure of some rejected request".
- ParseDate: accepts exactly the texts of the form `yyyy/MM/dd` with 4, 2 and 2 digits that name a real date of a year from 1 on. The date-fns parser is more lenient in several ways, for example in field widths. None of that leniency is modelled.
- DateRange.EndDate: a month ends on the last day of the start month. The source computes it with the `Date` constructor, which for a start year from 1 to 99 gives the month end 1900 years later (see Findings). So `Expand`, `Requests` and `HandleTopArticles` use the intended end, and for such a start with `duration=month` the model sends `DaysInMonth - day + 1` requests where the source sends hundreds of thousands. `MonthEndAsWritten` models the end as written.
- DateRange.EndDate: a week is "start plus six calendar days". The source adds six times 24 hours in local time, and around a daylight-saving change that can yield a six-day range. Time zones are not modelled.
- Aggregate: titles are plain map keys. JavaScript object-key quirks are not modelled: titles such as `__proto__` or `constructor` that collide with inherited properties, and integer-like keys that `Object.entries` lists first. The falsy test before zeroing only re-zeroes a total that is already 0, which changes nothing, so the model tests key presence.
- Aggregate: views are unbounded integers, while the source uses floating-point numbers; rounding and overflow are not modelled.
- SortByViews: the sort is stable (records with equal views keep their key order), as `Array.prototype.sort` is, but the contract states only sortedness and permutation, not the order among ties.
- The `Article.rank` field is never set by the handler and is not modelled.

## Findings

| source | as written | input that shows it | evidently intended | confidence | as-written member | corrected member |
|---|---|---|---|---|---|---|
| wikipedia-api-wrapper/src/server.ts:47 | the month end is built with the `Date(year, month + 1, 0)` constructor, which reads years 0 to 99 as 1900 to 1999 | `GET /top-articles/0050/01/15?duration=month`: the end is 1950-01-31, so about 694,000 days are requested | the last day of January of year 50 (0050-01-31), a 17-day range | high; not executed | DateRange.EarlyYearMonthEndLeavesMonth | DateRange.MonthIsRestOfMonth |

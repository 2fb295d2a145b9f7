# 13 months: the calendar engine and the vote service in Dafny

This project models the two pieces of logic behind the "13 months" site:

- **The International Fixed Calendar (IFC) engine** (`src/lib/calendar.ts`). A
  year has thirteen months of 28 days. Year Day follows the 28th of December.
  In a Gregorian leap year, Leap Day takes ordinal 169 and belongs to no month.
  Dates convert between the two calendars through their day-of-year ordinal.
- **The vote endpoint** (`api/votes.ts`). It has a fixed-window rate limiter
  keyed by client address. It reads the tally, migrating the retired
  five-option schema to the current four options, and migrates stored voter
  choices the same way. The GET, POST and OPTIONS branches of the handler are
  modelled as one pure transition over an abstract store.

Modules:

| file | module | what it holds |
|---|---|---|
| `options.dfy` | `Options` | `Option`, standing in for JavaScript `null` and `??` |
| `gregorian.dfy` | `Gregorian` | leap rule, month table, day-of-year; the JavaScript `Date` behaviour the library relies on (`setDate` roll-over, the two-digit-year rule of `Date(year, month)`, `dayOfYear`'s clock arithmetic) |
| `calendar.dfy` | `Calendar` | `toIFC`, `fromIFC`, the special-day constructors, `generateFullYear`, round trips, and the two findings below |
| `client_identity.dfy` | `ClientIdentity` | `getClientIP`: `split(",")[0]` and ECMAScript `trim` |
| `votes.dfy` | `Votes` | store, rate limiter, tally and choice migration, GET/POST/OPTIONS handler |
| `vote_properties.dfy` | `VoteProperties` | multi-request properties: rate budget, idempotence, the tally-counts-voters invariant |

How the model is set up:

- A Gregorian date is `GregorianDate(year, month, day)` with a validity
  predicate. `DayOfYear` is the calendar ordinal `toIFC` intends.
- Store I/O becomes plain data: `Store(tally, choices, windows)`.
- The time-to-live the store reports is an input of `CheckRateLimit`.
- A lapsing window is the separate event `ExpireWindow`.
- JavaScript arithmetic is written out where it matters:
  - `Math.ceil` is `CeilDiv`;
  - the truncating `%` is `JsRem`;
  - a JSON number is a `real`, so the model can state `Number.isInteger`.

Where Leap Day falls: the 28th of the sixth IFC
month is ordinal 168, and Leap Day is ordinal 169 itself, which is 17 June in
a leap year. `fromIFC` skips ordinal 169 for every day from the first of Sol
on.

## Model

| member | source | states |
|---|---|---|
| Gregorian.IsLeapYear | src/lib/calendar.ts:47-49 | a leap year is divisible by 4; every year divisible by 4 but not by 100 is one; among century years exactly those divisible by 400 are |
| Gregorian.YearLength | src/lib/calendar.ts:88 | a year has 366 days exactly when the leap rule holds, else 365 |
| Gregorian.DaysInMonth | src/lib/calendar.ts:51-55 | the familiar month lengths (28 to 31) agree with the cumulative table `setDate` counts through |
| Gregorian.DayOfYear | src/lib/calendar.ts:78-82 | the ordinal of a valid date lies inside its month's span of the year and within 1 to the year's length |
| Gregorian.DateOfDayOfYear | src/lib/calendar.ts:51-55 | every ordinal of a year names a valid date of that year, lying that many days into it |
| Gregorian.DateOfDayOfYearInverse | src/lib/calendar.ts:51-55 | a date is recovered from its own ordinal |
| Gregorian.DayOfYearInjective | src/lib/calendar.ts:78-82 | two dates of one year with the same ordinal are the same date |
| Gregorian.Normalize | src/lib/calendar.ts:53 | `setDate` with an out-of-range day rolls into later or earlier years, lands on an in-range ordinal, and keeps the absolute day fixed |
| Gregorian.DoyToGregorian | src/lib/calendar.ts:51-55 | January 1 plus `setDate(doy)` gives a valid date; inside the year it has that ordinal; otherwise it is the same absolute day in another year |
| Gregorian.DoyToGregorianOfDate | src/lib/calendar.ts:51-55 | a date inside its year is what `doyToGregorian` returns for its ordinal |
| Gregorian.DoyToGregorianPastYearEnd | src/lib/calendar.ts:51-55 | `setDate` one past the year's last ordinal gives January 1 of the next year |
| Gregorian.ConstructorShiftDays | src/lib/calendar.ts:79 | the `Date(year, 0, 0)` reference moves nothing outside years 0 to 99 and more than 1900 years' worth of days inside them |
| Gregorian.DaysBetweenYearsAtLeast | src/lib/calendar.ts:79 | every year between two years adds at least 365 days |
| Gregorian.ClockDayOfYear | src/lib/calendar.ts:78-82 | flooring the milliseconds since the eve of January 1 of the constructor's year gives the ordinal, shifted by the constructor's years, when the clock difference is within the day; one less when a risen UTC offset pushes it below midnight; one more when a fallen offset pushes it past the next midnight |
| Calendar.CeilDiv | src/lib/calendar.ts:119 | `Math.ceil(a / b)` is the least multiple count that covers `a` |
| Calendar.JsRem | src/lib/calendar.ts:120-121 | JavaScript's `%` equals the Euclidean remainder for a non-negative dividend and has the dividend's sign otherwise |
| Calendar.IfcDate.MonthName | src/lib/calendar.ts:95-127 | a regular day shows its month's name from the thirteen IFC names; Year Day and Leap Day show "Year Day" and "Leap Day", which name no month |
| Calendar.IfcOrdinal | src/lib/calendar.ts:58-63 | for months 1 to 13 and days 1 to 28 the ordinal lies in 1 to the year's length less one, and is never 169 in a leap year |
| Calendar.IfcOrdinalIncreasing | src/lib/calendar.ts:59-63 | the ordinal is strictly increasing in (month - 1) * 28 + day |
| Calendar.IfcOrdinalInjective | src/lib/calendar.ts:59-63 | distinct regular days get distinct ordinals |
| Calendar.IfcOfOrdinal | src/lib/calendar.ts:87-131 | Year Day exactly at the last ordinal; Leap Day exactly at ordinal 169 of a leap year; for any other ordinal of the year, month 1 to 13, day 1 to 28, weekday 0 to 6 equal to (day - 1) % 7, and `fromIFC` maps the day back to the same ordinal; an ordinal below 1 gives a regular day with a month below 1 |
| Calendar.ToIfc | src/lib/calendar.ts:84-132 | Year Day exactly on 31 December; Leap Day exactly on 17 June of a leap year; every other date a regular day in range whose `fromIFC` ordinal is the date's ordinal |
| Calendar.FromIfc | src/lib/calendar.ts:57-66 | any numbers give a valid date; a regular IFC day gives the date of its ordinal in the same year |
| Calendar.FromIfcYearDay | src/lib/calendar.ts:68-71 | Year Day is 31 December of the year |
| Calendar.FromIfcLeapDay | src/lib/calendar.ts:73-76 | there is no Leap Day exactly in a common year; otherwise it is 17 June |
| Calendar.FromIfcRoundTrip | src/lib/calendar.ts:57-132 | `toIFC(fromIFC(y, m, d))` is the regular day (m, d) of year y, with weekday (d - 1) % 7 and the m-th month name |
| Calendar.SpecialDaysRoundTrip | src/lib/calendar.ts:68-112 | `toIFC` classifies the Year Day and Leap Day constructors' dates as Year Day and Leap Day |
| Calendar.ToIfcRoundTrip | src/lib/calendar.ts:57-132 | whatever `toIFC` makes of a date, the matching constructor (`fromIFC`, `fromIFCYearDay`, `fromIFCLeapDay`) gives the date back |
| Calendar.ToIfcInjective | src/lib/calendar.ts:84-132 | two dates with the same IFC date are the same date |
| Calendar.GenerateFullYear | src/lib/calendar.ts:149-160 | thirteen months numbered 1 to 13 with the IFC month names, 28 days each, the d-th cell being day d on weekday (d - 1) % 7, and a Leap Day flag equal to the leap rule |
| Calendar.GenerateFullYearAgreesWithToIfc | src/lib/calendar.ts:149-160 | each cell of the grid is what `toIFC` says of the date `fromIFC` gives for it: month, day, weekday and name |
| Calendar.GenerateFullYearLeapDay | src/lib/calendar.ts:159 | the grid's Leap Day flag holds exactly when `fromIFCLeapDay` has a date and the year has 366 days |
| Calendar.FromIfcAsWritten | src/lib/calendar.ts:51-66 | outside years 0 to 99 `fromIFC` as written is the modelled `fromIFC`; inside them it converts in year + 1900 |
| Calendar.FromIfcAsWrittenTwoDigitYear | src/lib/calendar.ts:52 | for years 0 to 99 every regular IFC day lands 1900 years late, where the corrected conversion stays in the year |
| Calendar.FirstOrdinalIsJanuaryFirst | src/lib/calendar.ts:51-55 | ordinal 1 of any year is January 1 |
| Calendar.FromIfcYearDayAsWritten | src/lib/calendar.ts:68-71 | `fromIFCYearDay` as written gives a valid date, the modelled one outside years 0 to 99 |
| Calendar.FromIfcYearDayAsWrittenTwoDigitYear | src/lib/calendar.ts:68-71 | for years 1 to 99 Year Day as written is 31 December 1900 years late, for year 0 it is 1 January 1901; the corrected constructor gives 31 December of the year |
| Calendar.FromIfcLeapDayAsWritten | src/lib/calendar.ts:73-76 | `fromIFCLeapDay` as written has no date exactly in a common year, and is the modelled one outside years 0 to 99 |
| Calendar.FromIfcLeapDayAsWrittenTwoDigitYear | src/lib/calendar.ts:73-76 | for leap years 4 to 96 Leap Day as written is 17 June 1900 years late, for year 0 it is 18 June 1900; the corrected constructor gives 17 June of the year |
| Calendar.ToIfcAsWritten | src/lib/calendar.ts:78-86 | outside years 0 to 99 `toIFC` as written agrees with the modelled `toIFC` whenever the clock difference is within the day; inside them, for clock differences within a day either way, it gives a regular day with a month below 1 |
| Calendar.ToIfcAsWrittenSpringForward | src/lib/calendar.ts:78-112 | in a leap year, 18 June read before the hour the clocks moved forward comes out as Leap Day, though it is the first of Sol |
| Calendar.ToIfcAsWrittenFallBack | src/lib/calendar.ts:78-112 | in a leap year whose UTC offset has fallen since January, 17 June read in its last hour comes out as the first of Sol, though it is Leap Day |
| Calendar.ToIfcAsWrittenTwoDigitYear | src/lib/calendar.ts:79 | a date of years 0 to 99 read within the day gets a month below 1 from `toIFC` as written, where the corrected `toIFC` gives a month from 1 to 13 |
| Calendar.LeapYearExamples | src/lib/calendar.ts:47-49 | 2000 and 2024 are leap years, 1900 and 2023 are not |
| Calendar.CalendarLandmarks | src/lib/calendar.ts:84-132 | in every year, January 1 is the 1st of January on weekday 0, the 28th of December is 30 December, 31 December is Year Day, 17 June of a leap year is Leap Day, and the seventh month is Sol |
| ClientIdentity.FirstField | api/votes.ts:23 | `split(",")[0]` is a comma-free prefix that stops at the first comma |
| ClientIdentity.FirstFieldIsUpToFirstComma | api/votes.ts:23 | `split(",")[0]` is all of a comma-free text, and otherwise exactly the text before the first comma |
| ClientIdentity.LeadingWhitespace | api/votes.ts:23 | counts the whitespace a text starts with: all of it is whitespace, and the next character, if any, is not |
| ClientIdentity.TrailingWhitespace | api/votes.ts:23 | counts the whitespace a text ends with: all of it is whitespace, and the character before it, if any, is not |
| ClientIdentity.TrimStart | api/votes.ts:23 | a suffix with only whitespace cut, not starting with whitespace |
| ClientIdentity.TrimEnd | api/votes.ts:23 | a prefix with only whitespace cut, not ending with whitespace |
| ClientIdentity.Trim | api/votes.ts:23 | `trim()` is a slice of the input, neither starting nor ending with whitespace, with only whitespace cut on either side |
| ClientIdentity.TrimIdempotent | api/votes.ts:23 | trimming twice is trimming once |
| ClientIdentity.TrimIsSlice | api/votes.ts:23 | every character of the trimmed text occurs in the input |
| ClientIdentity.ClientIp | api/votes.ts:19-29 | with a one-string or list header the name has no comma, neither starts nor ends with whitespace, and uses only the header entry's characters; a comma-free entry, such as a single address, gives that entry trimmed; without the header it is the socket address, else "unknown" |
| ClientIdentity.HopOf | api/votes.ts:23 | the name taken from a header entry has no comma or surrounding whitespace and uses only the entry's characters; it is the whole entry trimmed when the entry has no comma, and the text before the first comma trimmed otherwise |
| ClientIdentity.FirstFieldStopsAtComma | api/votes.ts:23 | the first field of `a + "," + b` is `a` when `a` has no comma |
| ClientIdentity.ClientIpFirstHop | api/votes.ts:19-29 | with the header, in either form, the client is the trimmed first hop, both for a single address and whatever follows the first comma, and whatever the socket says |
| Votes.CheckRateLimit | api/votes.ts:31-49 | only the client's counter changes and goes up by one; the expiry is set on the first request; allowed exactly when the count is at most 10; remaining is max(0, 10 - count); the reset time is the positive TTL, else 60 |
| Votes.ExpireWindow | api/votes.ts:38-40 | a lapsing window removes only that client's counter |
| Votes.MigrateTally | api/votes.ts:60-66 | the legacy tally becomes four slots with the same total, non-negative when the old slots were |
| Votes.MigrateUserVote | api/votes.ts:76-81 | every value maps into [0, 4), and anything outside the old indices maps to 0 |
| Votes.GetVotes | api/votes.ts:51-73 | a four-slot tally is returned unchanged and not written; a five-slot tally is migrated slot by slot, written back and keeps its total; anything else reads as four zeros, not written |
| Votes.AfterRead | api/votes.ts:67-68 | a tally read writes only the tally key, and only when it migrated |
| Votes.ValidIndex | api/votes.ts:140-147 | an index is accepted exactly when it is an integral number in [0, 4) |
| Votes.HandleGet | api/votes.ts:110-128 | 200 with the read tally; a stored choice of 4 or more is remapped and written back, a smaller number is returned as is, no number gives null; the counters are untouched |
| Votes.MoveVote | api/votes.ts:159-167 | the new slot gains one; the previous slot, when it is a current index, loses one but not below zero; every other slot is unchanged; no slot turns negative |
| Votes.HandlePost | api/votes.ts:136-179 | no body gives 500 and an invalid index 400, both with the store unchanged; a re-vote for the same index writes only the tally migration; a change moves the vote and stores the new choice |
| Votes.Handle | api/votes.ts:83-182 | OPTIONS gives 200 and touches nothing; every other method passes the limiter first, whose result is the response's headers; 429 exactly when refused, with votes and choices untouched; an allowed GET or POST gives the status, payload and store of the GET or POST branch run on the store with the updated counter; other methods give 405 |
| VoteProperties.BurstFromFresh | api/votes.ts:31-49 | from no live window, the n-th request has count n, is allowed exactly when n is at most 10, and has max(0, 10 - n) remaining: the 10th is allowed with 0 left, the 11th is refused |
| VoteProperties.BurstAfterExpiry | api/votes.ts:38-40 | once the window lapses the client has its full budget again |
| VoteProperties.MigrationsAgree | api/votes.ts:60-81 | slot j of the migrated tally is the sum of the old slots i with `migrateUserVote(i) == j` |
| VoteProperties.TallyMigrationExample | api/votes.ts:60-69 | [10, 5, 3, 8, 20] reads as [20, 8, 8, 10] and is written back |
| VoteProperties.EmptyStoreConsistent | api/votes.ts:72 | a store with no tally and no voters satisfies the invariant that each slot counts its voters |
| VoteProperties.ConsistentTotal | api/votes.ts:157-172 | under the invariant, the votes shown add up to the number of voters |
| VoteProperties.GetPreservesConsistency | api/votes.ts:110-128 | a GET keeps the invariant |
| VoteProperties.PostPreservesConsistency | api/votes.ts:136-179 | a POST keeps the invariant |
| VoteProperties.HandlePreservesConsistency | api/votes.ts:83-182 | every request keeps the invariant |
| VoteProperties.PostIdempotent | api/votes.ts:150-155 | sending the same POST again leaves the store as it was and gets the same answer |
| VoteProperties.GetIdempotent | api/votes.ts:112-125 | a second GET finds nothing left to migrate and answers the same |
| VoteProperties.HandleIdempotent | api/votes.ts:83-182 | repeating any request leaves votes and choices where the first one put them and, unless throttled, answers the same |
| VoteProperties.ChangeOfMind | api/votes.ts:157-174 | from non-negative counts, voting a then b leaves slot a as before and adds one to b; the voter's choice is b |
| VoteProperties.LegacyChoiceReadVerbatim | api/votes.ts:118-125 | a stored choice below 4 is read and kept verbatim, though under the old schema 0, 1 and 3 meant other sentiments |

## Left out

- Redis and Vercel. Store reads and writes are plain data updates.
- Store failures and the 500 answers they cause. The one modelled 500 is a POST with no body, where destructuring `undefined` or `null` throws inside the `try`.
- A `redis.expire` that fails after `incr` is not modelled. Such a counter would never expire. In the model the expiry is always set on the first request.
- The CORS headers and the constant `X-RateLimit-Limit` header. The other rate-limit headers are the response's `rateLimit` field.
- `console.error` is not modelled.
- Concurrency. Requests are handled one at a time. This leaves out:
  - the `Promise.all` of the GET;
  - the unprotected read-modify-write of the tally;
  - the atomicity of the POST's pipeline.
- `formatIFC`, `formatGregorian`, `IFC_WEEKDAY_NAMES` and `IFC_WEEKDAY_SHORT`. These are string formatting and locale calls with no invariant. The weekday tables are display lookups, used by `formatIFC` and by the components.
- The Solid components in `src/components`: rendering, timers, `fetch`, and the client's optimistic vote update.
- The range limits of JavaScript `Date` and invalid (`NaN`) dates. Years are unbounded integers.
- Stored values the model's `Value` cannot express:
  - non-integral numbers as choices or tally entries;
  - arrays with entries that are not numbers, which `getVotes` returns unchanged when there are four of them;
  - `null` entries inside a legacy tally (handled by `?? 0` in the source).
- An `x-forwarded-for` list with no entries. There `forwarded[0]` is `undefined` and the handler throws before its `try`.
- Calendar.JsRem: for a negative dividend it states only the sign and bound of the remainder, not its value. For the in-year ordinals the properties cover, the dividend is never negative.
- Calendar.ToIfcAsWritten: states agreement with the modelled `toIFC` only outside years 0 to 99 and for clock differences within the day. Outside that range the discrepancy is stated by Calendar.ToIfcAsWrittenSpringForward and Calendar.ToIfcAsWrittenFallBack, at the Leap Day boundary only.
- Calendar.ToIfcAsWrittenSpringForward: covers years outside 0 to 99 only. For those years ToIfcAsWritten already states a month below 1.
- Calendar.ToIfcAsWrittenFallBack: covers years outside 0 to 99 only, for the same reason.
- Calendar.FromIfc: is the corrected conversion. For years 0 to 99 the source's result differs, as Calendar.FromIfcAsWrittenTwoDigitYear states.
- Calendar.ToIfc: is the corrected conversion. For years 0 to 99 and for clock differences outside the day the source's result differs, as Calendar.ToIfcAsWrittenTwoDigitYear, Calendar.ToIfcAsWrittenSpringForward and Calendar.ToIfcAsWrittenFallBack state.
- Calendar.FromIfcYearDay: is the corrected constructor. For years 0 to 99 the source's result differs, as Calendar.FromIfcYearDayAsWrittenTwoDigitYear states.
- Calendar.FromIfcLeapDay: is the corrected constructor. For years 0 to 99 the source's result differs, as Calendar.FromIfcLeapDayAsWrittenTwoDigitYear states.
- Gregorian.ClockDayOfYear: states its result only for clock differences within one day either side of the date.
- VoteProperties.BurstFromFresh: the store's TTL is one value for the whole burst. The clock that makes it count down is not modelled.

## Findings

| source | as written | input that shows it | evidently intended | confidence | as-written member | corrected member |
|---|---|---|---|---|---|---|
| src/lib/calendar.ts:78-82 | `dayOfYear` floors the milliseconds between local midnight of the eve of January 1 and the date, so a date after a spring-forward clock change, read before the clock difference reaches a day, is counted one day short; every date built at local midnight, as `src/components/DateConverter.tsx:34` does, whose UTC offset is ahead of the offset on 31 December of the year before (northern-hemisphere summer time) converts one day early | `toIFC(new Date(2024, 5, 18))` in a time zone on summer time from March: 170 days less one hour floors to 169, giving Leap Day instead of the 1st of Sol | the calendar ordinal of the date, 170, so 18 June 2024 is Sol 1 | medium; not executed | Calendar.ToIfcAsWrittenSpringForward | Calendar.ToIfc |
| src/lib/calendar.ts:52 | `new Date(year, 0)` reads years 0 to 99 as 1900 to 1999, while the leap test uses the year as given | `fromIFC(50, 1, 1)` gives 1 January 1950 | 1 January of year 50 | medium; not executed | Calendar.FromIfcAsWrittenTwoDigitYear | Calendar.FromIfcRoundTrip |
| src/lib/calendar.ts:78-82 | a date in a time zone whose UTC offset has fallen since January, read in the last hour of the day, has a clock difference past the next midnight and is counted one day long | `toIFC(new Date())` at 23:30 on 17 June 2024 in Sydney, as `src/components/Hero.tsx:16` calls it: 169 days and 23 and a half hours of local time, plus the hour the offset fell since January, floor to 170, giving Sol 1 instead of Leap Day | the calendar ordinal of the date, 169, so 17 June 2024 is Leap Day | medium; not executed | Calendar.ToIfcAsWrittenFallBack | Calendar.ToIfc |
| src/lib/calendar.ts:68-71 | `fromIFCYearDay` counts from `new Date(year, 0)`, which reads years 0 to 99 as 1900 to 1999 | `fromIFCYearDay(0)` counts 366 days from 1 January 1900, a common year, and gives 1 January 1901 | 31 December of year 0 | medium; not executed | Calendar.FromIfcYearDayAsWrittenTwoDigitYear | Calendar.FromIfcYearDay |
| src/lib/calendar.ts:73-76 | `fromIFCLeapDay` counts from `new Date(year, 0)` too | `fromIFCLeapDay(0)` gives ordinal 169 of 1900, 18 June 1900 | 17 June of year 0 | medium; not executed | Calendar.FromIfcLeapDayAsWrittenTwoDigitYear | Calendar.FromIfcLeapDay |
| src/lib/calendar.ts:79 | `dayOfYear` measures from `new Date(date.getFullYear(), 0, 0)`, which for years 0 to 99 lies 1900 years after the date | `toIFC` of 1 January of year 50: the ordinal is far below 1 and the month below 1 | ordinal 1, the 1st of January | medium; not executed | Calendar.ToIfcAsWrittenTwoDigitYear | Calendar.ToIfc |

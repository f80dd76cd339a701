# Dyprcing calendar import and occupancy, in Dafny

Dyprcing lets a property owner import a listing platform's booking calendar
(an iCalendar feed) and derive a monthly occupancy rate and a suggested price
from the stored reservations. This project models the core of that pipeline and
proves properties of the model:

- **The feed scanner** (`parseICalData` in deno/main.ts). It splits the text on
  `\n` or `\r\n` and trims every line. It runs the BEGIN:VEVENT / END:VEVENT
  state machine. It takes the text after the first `:` of a DTSTART or DTEND
  line and normalises that date: first `Date.parse`, then the positional
  `YYYYMMDDTHHMMSS` or `YYYYMMDD` read through `new Date(...)`, then
  `toISOString`. A normalisation that throws leaves the field as it was.
  - The loop is a `method` (`ICalScan.ScanFeed` with `ICalScan.ScanLine` as its
    body). It is proved equal to a functional specification, `ICalScan.Run`
    over `ICalScan.Step`, about which the lemmas are stated.
  - The scanner is stated for any normaliser. `ICalScan.DateNormalizer` is the
    one deno/main.ts uses.
  - `Date.parse` is a parameter (`string -> Option<Instant>`).
- **The JavaScript pieces the scanner relies on**, modelled on strings of Unicode characters:
  - `String.prototype.trim` and `split` (`JsText`);
  - `parseInt` without a radix: decimal, or hexadecimal after `0x` (`JsNumber`);
  - the `Date` constructor's MakeDay/MakeTime/TimeClip arithmetic, in UTC,
    with the two-digit year rule (`Calendar`);
  - `Date.prototype.toISOString` (`IsoFormat`).
- **The import step** (`handleImportIcal` in src/pages/ListingDetail.tsx):
  - events become reservation rows with the date part before `T`;
  - the upsert key is listing, start date and end date;
  - a blank URL, an empty feed and a failed fetch each have their own outcome.
- **The occupancy rate** (`calculateOccupancyRate`).
  - The reservations starting in the reference month and year are kept.
  - Each stay is walked day by day, collecting day-of-month numbers into a set.
  - The count is divided by the month's length and rounded. The rounding is
    computed exactly on integers.
  - The walk is a `method` proved against `Occupancy.Occupancy`.
- **The suggested price** (`calculateSuggestedPrice`).

Where the code departs from its own comments ("Handle line continuations",
"Format: YYYYMMDDTHHMMSSZ") or from RFC 5545, the model follows the code:

- Continuation lines are not unfolded. After `trim` no line starts with a space
  or a tab, so the continuation test never fires
  (`ICalScan.ContinuationTestIsDead`).
- END:VEVENT is honoured even outside a block, and it does not clear the
  accumulated fields (`ICalScan.RepeatedEndEmitsTwice`).
- A value is cut at its second `:` (`ICalScan.ColonInValueTruncatesToken`).
- The occupancy day walk checks the month but not the year. This is the
  finding below.

## Model

| member | source | states |
|---|---|---|
| ICalScan.StepTrimmed | deno/main.ts:23-108 | one iteration on a trimmed line: only END:VEVENT appends, and then exactly the completed event; BEGIN:VEVENT enters a block, END:VEVENT leaves it, other lines keep the state; outside a block anything else changes nothing |
| ICalScan.Run | deno/main.ts:22-109 | the events found so far are a prefix of the events at the end of the loop |
| ICalScan.ParseICalData | deno/main.ts:16-112 | the events returned are exactly those of the scan specification run over the feed's lines, and there are never more of them than lines that trim to END:VEVENT |
| ICalScan.ScanFeed | deno/main.ts:17-22 | the `for` loop over `split(/\r?\n/)` yields the events of the specification run from the initial state (outside a block, no fields, no events); at most one event per END:VEVENT line |
| ICalScan.ScanLine | deno/main.ts:23-108 | one loop iteration (trim, then the BEGIN / END / in-block branches) moves the four loop variables exactly as one specification step does |
| ICalScan.EventsAtMostEndLines | deno/main.ts:28-32 | events are only ever appended, never reordered or removed; each END:VEVENT line adds at most one |
| ICalScan.OutsideLinesIgnored | deno/main.ts:33-33 | outside a block, lines that are neither BEGIN:VEVENT nor END:VEVENT change nothing |
| ICalScan.BeginForgetsPartialBlock | deno/main.ts:25-27 | after BEGIN:VEVENT the rest of the scan no longer depends on the fields captured before it |
| ICalScan.RepeatedEndEmitsTwice | deno/main.ts:28-32 | END:VEVENT keeps the captured fields, so two END:VEVENT lines in a row emit the same event twice |
| ICalScan.ContinuationTestIsDead | deno/main.ts:35-37 | on every state and every line, the step with the continuation test equals the step without it |
| ICalScan.ContinuationTestNeverChangesTheResult | deno/main.ts:22-37 | the whole scan, with or without the continuation test, ends in the same state |
| ICalScan.TrimmedIsNotIndented | deno/main.ts:23-23 | a trimmed line never starts with a space or a tab |
| ICalScan.FoldedLineReadAsOrdinary | deno/main.ts:23-37 | a folded line (leading space or tab) is processed exactly like the same line without the fold marker, so folded content is read as a new property line and not joined |
| ICalScan.PropertyLineIsCaptured | deno/main.ts:33-39 | inside a block, a line starting with `D` goes to the DTSTART/DTEND branches |
| ICalScan.StartLineCapturesToken | deno/main.ts:39-72 | inside a block, `DTSTART<params>:<token>[:...]` sets the start to the normalised token, and leaves the state unchanged when normalisation fails |
| ICalScan.EndLineCapturesToken | deno/main.ts:73-106 | the same for `DTEND` and the end field, which DTSTART never matches |
| ICalScan.PropertyWithoutColonIsKept | deno/main.ts:39-44 | inside a block, a DTSTART or DTEND line without `:` leaves the state unchanged when `Date.parse("undefined")` fails, since `undefined.includes` then throws |
| ICalScan.ColonInValueTruncatesToken | deno/main.ts:40-40 | for an RFC 3339 date-time value `YYYY-MM-DDTHH:MM:SSZ`, only `YYYY-MM-DDTHH` is taken as the token |
| ICalScan.DateHourTokenIsRejected | deno/main.ts:51-60 | that truncated token has no seconds field, so the positional read gives an Invalid Date |
| ICalScan.TokenWithoutSecondsIsRejected | deno/main.ts:51-60 | any token with a `T` and at most 13 characters is rejected by the positional read |
| ICalScan.OneBlock | deno/main.ts:25-32 | a well-formed VEVENT block appends its own event when both fields are truthy, and nothing otherwise, whatever came before |
| ICalScan.BlocksYieldTheirEvents | deno/main.ts:22-109 | a feed of well-formed blocks yields the events of the complete blocks, in block order |
| ICalScan.CompleteBlocksCount | deno/main.ts:30-31 | of N blocks, exactly N minus the incomplete ones produce events |
| ICalScan.BlockWithoutEndIsDropped | deno/main.ts:30-31 | a block with no DTEND line produces no event |
| ICalScan.BodyKeepsEvents | deno/main.ts:33-108 | the lines of a block body keep the events found so far and stay inside the block |
| ICalScan.DateBlockState | deno/main.ts:39-106 | a block `DTSTART:YYYYMMDD`, `DTEND:YYYYMMDD` captures both dates at midnight UTC in ISO form |
| ICalScan.SingleEventFeed | deno/main.ts:16-112 | one such block between two lines outside any block yields exactly that one event |
| ICalScan.FeedText | deno/main.ts:16-112 | the text of a six-line feed (header, BEGIN:VEVENT, DTSTART date, DTEND date, END:VEVENT, trailer) parses to the single event of its two dates at midnight UTC, when `Date.parse` rejects the compact dates |
| DateToken.NormalizeToken | deno/main.ts:41-71 | a token `Date.parse` accepts is stored as the ISO text of that instant; a missing token whose "undefined" `Date.parse` rejects stores nothing; after a `Date.parse` failure a present token is read positionally, and stored as the ISO text of the result or not stored when that read is an Invalid Date; whatever is stored is non-empty (so truthy) and reads back as an instant |
| DateToken.CompactDateReadsAsWritten | deno/main.ts:61-67 | `YYYYMMDD` (years 100 to 9999) is read back as midnight UTC of that date |
| DateToken.CompactDateTimeReadsAsWritten | deno/main.ts:51-60 | `YYYYMMDDTHHMMSS` followed by anything without effect (such as `Z`) is read back as that instant |
| DateToken.CompactDateNormalizes | deno/main.ts:43-69 | when `Date.parse` rejects `YYYYMMDD`, the field becomes the ISO text of that day's midnight |
| DateToken.CompactDateTimeNormalizes | deno/main.ts:41-71 | when `Date.parse` rejects `YYYYMMDDTHHMMSSZ` (years 100 to 9999), the field becomes the ISO text of that UTC instant |
| DateToken.DateAndMidnightDateTimeAgree | deno/main.ts:43-69 | a DATE value and the DATE-TIME value of its midnight normalise to the same ISO text |
| DateToken.CompactDateTwoDigitYear | deno/main.ts:63-67 | years written `0000` to `0099` are read as 1900 to 1999, so a DATE value can never denote a year below 100 |
| DateToken.CompactDateOverflows | deno/main.ts:63-67 | a day past the end of its month, or day 0, is not rejected: it rolls into the neighbouring month |
| DateToken.FebruaryThirtiethIsEarlyMarch | deno/main.ts:63-67 | 30 February is read as 2 March, or 1 March in a leap year |
| DateToken.ShortTokenIsRejected | deno/main.ts:63-69 | a token of at most four characters has no month, so it gives an Invalid Date and the field is kept |
| JsText.TrimIsStrippedInfix | deno/main.ts:23-23 | `trim` returns a contiguous part of the line, with only white space cut on either side and no white space left at either end |
| JsText.FieldAfterFirst | deno/main.ts:40-40 | `split(':')[1]` is absent exactly when the line has no `:`, and holds no `:` when present |
| JsText.TrimIdempotent | deno/main.ts:23-23 | trimming twice is trimming once |
| JsText.TrimIgnoresLeadingBlank | deno/main.ts:23-23 | a leading white-space character does not change the trimmed line |
| JsText.FieldAfterFirstOfJoin | deno/main.ts:40-40 | `split(':')[1]` is the text between the first and the second `:`, or to the end of the line |
| JsText.SplitLinesJoin | deno/main.ts:18-18 | for a text without `\r`, joining the pieces of `split(/\r?\n/)` with `\n` gives back the text: nothing is lost but the line breaks |
| JsText.SplitLinesOfJoin | deno/main.ts:18-18 | splitting lines that hold no line break, joined with `\n`, gives back those lines |
| JsText.SplitLinesCount | deno/main.ts:18-18 | there is one more piece than there are `\n` characters |
| JsText.FieldBeforeOfJoin | src/pages/ListingDetail.tsx:132-133 | `split('T')[0]` is the text before the first `T` |
| JsNumber.ParseIntOfDigits | deno/main.ts:54-59 | `parseInt` reads a zero-padded decimal field back as its value |
| JsNumber.ParseIntOfNegative | deno/main.ts:54-59 | `parseInt` reads a leading `-` followed by digits as the negated value |
| JsNumber.ParseIntOfNonDigit | deno/main.ts:54-59 | a field not starting with a digit, a sign or white space is NaN (this includes the empty slice) |
| Calendar.DaysInMonth | src/pages/ListingDetail.tsx:166-166 | every month has 28 to 31 days |
| Calendar.DaysBeforeNextYear | src/pages/ListingDetail.tsx:166-166 | the Gregorian leap-year rule: a year is 366 days long exactly when it is a leap year |
| Calendar.DayZeroIsLastDay | src/pages/ListingDetail.tsx:166-166 | day 0 of the next month is the last day of the month, so `getDate()` of it is the month's length, leap years included |
| Calendar.NormalizeDay | src/pages/ListingDetail.tsx:166-166 | an out-of-range day of a month lands on the day that many days from the month's start |
| Calendar.NextDay | src/pages/ListingDetail.tsx:181-181 | `setDate(getDate() + 1)` moves to the next calendar day |
| Calendar.DayNumberOrder | src/pages/ListingDetail.tsx:181-181 | comparing the midnight time values of two dates (`date <= end`) follows calendar order, and equal values mean the same date |
| Calendar.ConstructDate | deno/main.ts:53-67 | `new Date(y, m, d, h, mi, s)` is valid exactly when TimeClip keeps MakeDate's value, and then stands for that value |
| Calendar.ConstructDateNormalizesDay | deno/main.ts:63-67 | `new Date(y, m-1, d)` for years 100 to 9999 and days 0 to 99 is valid midnight of the normalised day |
| Calendar.FromTimeValueOfInstant | deno/main.ts:45-45 | breaking down a `Date`'s time value gives back the same fields |
| Calendar.TimeValueInjective | deno/main.ts:45-45 | two dates with the same time value have the same fields |
| IsoFormat.ISOStringRoundTrip | deno/main.ts:45-45 | `toISOString` loses nothing: its text reads back as the instant it was written from |
| IsoFormat.ToISOStringInjective | deno/main.ts:69-69 | distinct instants give distinct ISO texts |
| IsoFormat.DateTextRoundTrip | deno/main.ts:69-69 | the date part of an ISO text (four-digit or signed six-digit year) reads back as its date |
| IsoFormat.DatePartOfISOString | src/pages/ListingDetail.tsx:132-133 | the text before the `T` of an ISO text is exactly its date in `YYYY-MM-DD` form |
| ReservationImport.DatePart | src/pages/ListingDetail.tsx:132-133 | the date part is a prefix without `T`, cut just before the first `T` if there is one |
| ReservationImport.ToReservations | src/pages/ListingDetail.tsx:130-135 | one row per event, in order: the i-th row carries the listing, the date parts of the i-th event and the source `airbnb` |
| ReservationImport.ToReservationsAppend | src/pages/ListingDetail.tsx:130-135 | the rows of two feeds put together are the rows of each, in order |
| ReservationImport.PrepareImport | src/pages/ListingDetail.tsx:125-135 | an absent or empty event list is the error `No events found in the calendar`; otherwise there is one row per event |
| ReservationImport.HandleImport | src/pages/ListingDetail.tsx:115-154 | a URL blank after trimming does nothing; a fetch failure shows the thrown error's own message, or `Failed to import calendar data` when there is none; an absent or empty event list shows `No events found in the calendar`; the upsert happens exactly when the URL is not blank and the fetch gave a non-empty list, and then receives one row per event |
| ReservationImport.NonEmptyFeedIsUpserted | src/pages/ListingDetail.tsx:115-144 | a non-blank URL and a non-empty feed always lead to the upsert of all rows |
| ReservationImport.DatePartIdempotent | src/pages/ListingDetail.tsx:132-133 | truncating at `T` twice is truncating once |
| ReservationImport.DatePartOfDate | src/pages/ListingDetail.tsx:132-133 | a date-only text is kept whole |
| ReservationImport.RowOfInstants | src/pages/ListingDetail.tsx:142-144 | the conflict key of a row built from the scanner's ISO texts is the listing and the UTC days of the two instants |
| ReservationImport.SameDaysSameKey | src/pages/ListingDetail.tsx:142-144 | two such events collide on the upsert exactly when they start on the same UTC day and end on the same UTC day |
| Occupancy.Occupancy | src/pages/ListingDetail.tsx:160-189 | the rate is never negative, and it is 0 exactly when no day of the month is booked (so the early return for no reservations agrees with the general formula) |
| Occupancy.OccupancyRate | src/pages/ListingDetail.tsx:160-189 | the method (month length from day 0 of the next month, start-month filter, day walks into a set, rounding) returns exactly the specification rate `Occupancy`, whose properties are the lemmas below |
| Occupancy.FilterStartMonth | src/pages/ListingDetail.tsx:169-173 | the filter keeps, in order, the reservations whose start falls in the reference month and year |
| Occupancy.MonthReservations | src/pages/ListingDetail.tsx:169-173 | a reservation is kept exactly when it starts in the reference month and year |
| Occupancy.WalkStay | src/pages/ListingDetail.tsx:177-186 | walking one stay adds exactly the day-of-month numbers of its recorded days to the set |
| Occupancy.DaysFromMembers | src/pages/ListingDetail.tsx:181-185 | a number is collected exactly when some day from start to end inclusive passes the month test and has that day of month |
| Occupancy.BookedDaysMembers | src/pages/ListingDetail.tsx:176-186 | a number is booked exactly when some kept reservation's walk collects it, so a day is counted once however many stays cover it |
| Occupancy.WalkWithinMonth | src/pages/ListingDetail.tsx:181-185 | a stay inside the month collects exactly its days from start to end |
| Occupancy.RoundedPercent | src/pages/ListingDetail.tsx:188-188 | `Math.round` of the percentage: the nearest integer, halves up, between 0 and 100 when no more days are booked than the month has |
| Occupancy.OccupancyAtMostHundred | src/pages/ListingDetail.tsx:160-189 | with the year checked in the walk the rate always lies in [0, 100] |
| Occupancy.OccupancyAtMost104 | src/pages/ListingDetail.tsx:181-185 | as written the rate lies in [0, 104] and exceeds 100 only in a 28-day February |
| Occupancy.NothingStartsInMonth | src/pages/ListingDetail.tsx:169-173 | when no reservation starts in the reference month the rate is 0, even if stays from earlier months run into it |
| Occupancy.OccupancyIgnoresOrderAndRepeats | src/pages/ListingDetail.tsx:169-188 | the rate depends only on which reservations there are, not on their order or repetition |
| Occupancy.StayWithinMonth | src/pages/ListingDetail.tsx:177-188 | one stay inside the month gives the rounded share of its length |
| Occupancy.SixDaysOfThirty | src/pages/ListingDetail.tsx:177-188 | any six-day stay inside a 30-day month gives 20 |
| Occupancy.LeapDayWalk | src/pages/ListingDetail.tsx:181-185 | a walk from 1 February of a common year to 29 February of a later year collects 29 day numbers as written, 28 with the year checked |
| Occupancy.LeapDayOverflow | src/pages/ListingDetail.tsx:181-188 | for that stay, the rate of the common-year February is 104 as written and 100 with the year checked |
| Occupancy.LeapDayOverflowExample | src/pages/ListingDetail.tsx:181-188 | a booking from 2023-02-01 to 2024-02-29, seen in February 2023, reports 104% |
| Pricing.SuggestedPrice | src/pages/ListingDetail.tsx:192-200 | 120 exactly above 80, 80 exactly below 40, the base price 100 exactly from 40 to 80 |
| Pricing.SuggestedPriceMonotone | src/pages/ListingDetail.tsx:192-200 | a higher rate never suggests a lower price |
| Pricing.SuggestedPriceWithinAFifth | src/pages/ListingDetail.tsx:192-200 | the suggestion stays within a fifth of the base price for every rate |
| Pricing.ThresholdExamples | src/pages/ListingDetail.tsx:194-199 | the thresholds are strict: 80 and 40 give the base price, 81 gives 120 and 39 gives 80 |

## Left out

- The HTTP service around `parseICalData`: `serve`, CORS, the fetch of the feed and its timeout. The model starts from the feed's text.
- The other fetchers (server/index.js, supabase/functions/fetch-ical/index.ts) and the ical.js-based parser in src/utils/icalParser.ts. They are not part of this model.
- `Date.parse` is a parameter. What it accepts is V8's business and is not modelled.
- The local time zone. `new Date(y, m, d, ...)` and `getMonth`/`getDate`/`getFullYear` work in local time in the source. The model reads them in UTC. The stored `YYYY-MM-DD` dates are UTC midnights, as `new Date("YYYY-MM-DD")` makes them.
- Floating point. `booked / daysInMonth * 100` is computed exactly, with halves rounded up as `Math.round` does.
- The clock. `new Date()` in `calculateOccupancyRate` becomes the reference year and month passed in. The month length is taken as day 0 of the next month without the two-digit year rule that `new Date(y, m + 1, 0)` applies to years 0 to 99; `getFullYear()` of the current time never returns such a year, so no behaviour differs.
- Logging (`console.warn`, `console.log`, `console.error`). It has no effect on results.
- The React state (`setImporting`, `setError`, `setIcalUrl`), the refresh after the upsert, and the upsert itself, including its error path. The model stops at the rows and the conflict key handed to storage.
- The `fetchIcalData` response decoding. It is reduced to the `Fetched` value: a list of events that may be absent, or a thrown error with or without a message.
- ICalScan.ScanFeed: the scan's state is modelled as values. The source does alias: `events.push(currentEvent)` stores the accumulator object itself, so after two END:VEVENT lines the array holds one object twice, and a later write to `currentEvent` would show through every pushed copy. No such write can happen: the fields are written only inside a block, and the only way into a block is BEGIN:VEVENT, which first replaces `currentEvent` with a fresh object. So the aliasing exists but cannot be observed in the returned events, and the model's copies give the same result.
- Occupancy.WalkStay: the source builds a fresh `Date` from `reservation.start_date` and advances it in place with `setDate`; `start` and the loop variable `date` are the same object, so `start` moves along with the walk. The model steps a date value instead. Nothing reads `start` once the loop has begun, so the aliasing is not observable; the reservation itself is never changed.
- Strings are sequences of Unicode characters, while JavaScript's `slice` and `length` count UTF-16 code units. A character outside the Basic Multilingual Plane counts as one position in the model and two in JavaScript, so `DateToken.Slice` and the length bounds (`ICalScan.TokenWithoutSecondsIsRejected`, `DateToken.ShortTokenIsRejected`) agree with the source only on text of BMP characters. Lone surrogates cannot be written at all.
- Stored dates that are not valid calendar days (an Invalid Date from `new Date(reservation.start_date)`). The model takes stored reservations as valid dates.

## Findings

| source | as written | input that shows it | evidently intended | confidence | as-written member | corrected member |
|---|---|---|---|---|---|---|
| src/pages/ListingDetail.tsx:181-185 | the day walk records a day when its month matches, without checking the year, and collects day-of-month numbers | a reservation from 2023-02-01 to 2024-02-29, reference month February 2023: days 1 to 28 of 2023 and day 29 of 2024 are collected, 29 of 28 days, rate 104 | a rate in [0, 100]: only days of the reference month and year are counted (rate 100 here) | not executed | Occupancy.LeapDayOverflowExample | Occupancy.OccupancyAtMostHundred |

# Monthly time log front end — a Dafny model

This project models the browser front end (`main.js`) of a small time-tracking web app.
The app logs worked time per month against a goal of 30 hours. Each month is a sheet of a
remote store, named by its Polish month name and the year, such as "wrzesień 2025". The
front end offers the months in a selector and lists the current month's entries. It adds,
edits and deletes entries through a JSON backend. It also shows a summary: the total, the
time left to the goal, the daily average needed over the days left, and a colour band.

The model has seven modules:

- `Wrappers`: `Option` and `Result`.
- `Text`: the string primitives the front end relies on. These are `split`, `Number` and
  `parseInt` on digit strings, `String(n)` of an integer, and `padStart`.
- `Months`: the month keys and the calendar arithmetic behind them. It covers
  `sheetNameFor`, reading a key back by month-name prefix and by the field after the space,
  the 13-month fallback window, de-duplication as `Array.from(new Set(...))`, and the choice
  of the default month.
- `Entries`: the entry record and the sequence operations applied to the list. These are
  the sort by date (stable, as the array sort is), `filter` by id and `findIndex` by id.
- `Api`: the `{ ok, data, error }` envelope, how the four call helpers turn it into a value
  or an error message, and the request bodies of the three mutations.
- `Summary`: the arithmetic of `renderSummary`. It parses "H:MM", sums the minutes in a
  loop, and works out the time remaining, the days left in the shown month, the ceiling
  average and the colour band. It also formats figures as "H:MM".
- `Store`: the front end's mutable state as a class `Session`. Its fields are
  `currentSheet`, `entries`, `editingId` and the month selector (its options and its
  value). Its methods are the handlers: `loadMonths`, `loadEntriesFor`, the month change
  listener, the edit and delete buttons, the form's submit handler, and `renderSummary`.

JavaScript `NaN` and `undefined` are modelled as `None`. An hours field that is not a digit
string makes the total `NaN`. The `NaN` then carries through to the time left and the
average. It prints as "NaN:NaN". Over a positive day count the average is `NaN` too, and
that gives the red band, because both comparisons fail. A missing or non-numeric minutes
field counts as 0 (`+m||0`). A key with no year makes the day count `NaN`, so the average
is 0 and the band is green.

The current date ("now") is a parameter. Every backend answer is a parameter too: either
the call threw with a message, or it gave the envelope.

The model follows `main.js` as written:

- A failed month list falls back to the 13-month window. Failed mutations change nothing
  locally. `main.js` itself keeps no offline copy of the data, makes no optimistic update
  and has no guard against stale responses.
- When today's key is not offered, the default month is the last element of the
  de-duplicated list, not the chronologically latest month.
- The list is kept in date order only by a create. An update writes the saved record in
  place. A loaded list keeps the backend's order.

## Model

| member | source | states |
|---|---|---|
| Text.NatToString | main.js:98-100 | `String(n)` of a non-negative integer is a non-empty digit string worth `n`, one character exactly when `n < 10`, starting with "0" exactly for 0, so never with a leading zero |
| Text.IntToString | main.js:34 | the year in a key is a non-empty decimal spelling, with a leading "-" exactly for negative years |
| Text.NumberOf | main.js:82-83 | `Number` of a field is a value exactly when the field is a digit string, that value is the digits' decimal value, and the empty field is 0 |
| Text.NumberOfRoundTrip | main.js:82-83 | `Number(String(n))` gives `n` back for every non-negative integer |
| Text.DigitPrefix | main.js:92 | `parseInt` reads the longest leading run of digits: a digit prefix followed by a non-digit or the end |
| Text.ParseInt | main.js:92 | `parseInt` is `NaN` for the empty string and for a string that starts with neither a digit nor a sign (the value for digit strings is Text.ParseIntOfDigits and Text.ParseIntRoundTrip) |
| Text.ParseIntOfDigits | main.js:92 | `parseInt` of a non-empty digit string is the string's decimal value |
| Text.ParseIntRoundTrip | main.js:92 | `parseInt` of the decimal spelling of any integer gives that integer back |
| Text.Split | main.js:92 | `split` gives at least one piece, and the empty string gives one empty piece (what the pieces are is Text.SplitPieces, Text.SplitNoSeparator and Text.SplitJoin) |
| Text.SplitPieces | main.js:92 | no piece holds the separator, and there is more than one piece only when the separator occurs |
| Text.SplitNoSeparator | main.js:92 | a string without the separator splits into itself alone |
| Text.SplitJoin | main.js:92 | splitting `a + sep + b`, where `a` has no separator, gives `a` followed by the pieces of `b` |
| Text.PadStart | main.js:98-100 | `padStart` gives the requested width (or the original length), ends with the original string and is filled in front |
| Months.DaysIn | main.js:93 | days in a month under the Gregorian rule: 28 to 31, and 29 exactly for February of a leap year (the whole table is Months.DaysInTable) |
| Months.DaysInTable | main.js:93 | February has 28 days, 29 in a leap year; April, June, September and November have 30; the other seven months have 31 |
| Months.YearLength | main.js:93 | the twelve month lengths add up to 365 days, or 366 in a leap year |
| Months.AddMonths | main.js:178 | `new Date(y, m + k, 1)` normalises to a month 0..11 with the same month count `12 * year + month` |
| Months.Normalize | main.js:178 | rolling an out-of-range month over a year at a time ends in 0..11 and keeps the month count `12 * year + month` |
| Months.SheetName | main.js:33-35 | a key starts with its month's name followed by a space (read back by Months.KeyRoundTrip, one key per month and year by Months.SheetNameInjective) |
| Months.YearOf | main.js:92 | the empty string has no year, `NaN` (a year needs a space by Months.YearOfNeedsSpace; the year of a key is recovered by Months.KeyYearRoundTrip) |
| Months.YearOfNeedsSpace | main.js:92 | a string without a space has no year, `NaN` |
| Months.MonthIndexOf | main.js:91 | `findIndex` by prefix: -1 exactly when no month name prefixes the key, otherwise the first month whose name does |
| Months.MonthNamesShape | main.js:32 | no month name contains a space, and the first three letters tell all twelve apart |
| Months.OnlyOwnNamePrefixes | main.js:91 | a key starts with no other month's name |
| Months.KeyMonthRoundTrip | main.js:91 | the prefix lookup recovers the month of a key |
| Months.KeyYearRoundTrip | main.js:92 | the field after the space recovers the year of a key |
| Months.KeyRoundTrip | main.js:91-92 | reading a key back gives both its month and its year |
| Months.SheetNameInjective | main.js:33-35 | two keys are equal exactly when they name the same month of the same year |
| Months.OffsetSheetName | main.js:178-179 | the key of the month `k` months away starts with that month's name (distinct offsets give distinct keys by Months.OffsetSheetNamesDiffer) |
| Months.OffsetZeroIsCurrent | main.js:178-179 | offset 0 gives the current month's key |
| Months.FallbackWindow | main.js:176-180 | the fallback list has 13 keys (no repeats and the current month in the middle by Months.FallbackWindowFacts) |
| Months.WindowAt | main.js:177-179 | the `k`-th key pushed by a loop over consecutive offsets is the key of offset `lo + k` |
| Months.WindowDistinct | main.js:177-179 | two pushed keys differ whenever the keys of their offsets differ |
| Months.FallbackMonths | main.js:176-180 | the fallback loop pushes the keys of the months from six back to six ahead, in calendar order |
| Months.OffsetSheetNamesDiffer | main.js:177-179 | different month offsets give different keys |
| Months.FallbackWindowFacts | main.js:176-180 | the fallback list has no repeats, and its middle key is the current month's |
| Months.FallbackEntriesDiffer | main.js:176-180 | any two positions of the fallback list hold different keys |
| Months.Dedup | main.js:184 | `Array.from(new Set(months))` has no repeats and the same elements, kept in order of first occurrence |
| Months.DedupOfDistinct | main.js:184 | a list without repeats is left as it is |
| Months.DefaultMonth | main.js:193-194 | the default is today's key when offered, otherwise the last key, and `undefined` only for an empty list |
| Months.FallbackDefaultIsToday | main.js:176-194 | with the fallback list the default month is always the current one |
| Entries.LexLe | main.js:232 | a date compares below every date it is a prefix of (totality, transitivity, antisymmetry and reflexivity are the Entries.LexLe lemmas below) |
| Entries.LexLeTotal | main.js:232 | any two dates compare one way or the other |
| Entries.LexLeTransitive | main.js:232 | the date order is transitive |
| Entries.LexLeAntisymmetric | main.js:232 | dates that compare both ways are equal |
| Entries.LexLeReflexive | main.js:232 | every date compares to itself |
| Entries.InsertByDate | main.js:232 | inserting into a list sorted by date keeps it sorted and adds exactly that entry |
| Entries.SortByDate | main.js:230-232 | the sort by date gives a sorted permutation of its input |
| Entries.InsertByDateStable | main.js:232 | insertion keeps the relative order of the entries of any one date, the new entry first |
| Entries.SortByDateStable | main.js:232 | the sort is stable: the entries of each date keep their relative order |
| Entries.WithoutId | main.js:149 | `filter` by id never lengthens the list (which entries remain is Entries.WithoutIdMembers) |
| Entries.WithoutIdMembers | main.js:149 | `filter(x => x.id !== id)` keeps exactly the entries with another id, and never lengthens the list |
| Entries.WithoutIdAppend | main.js:149 | filtering works piecewise over concatenation, so the kept entries keep their order |
| Entries.WithoutIdAbsent | main.js:149 | a list with no entry of that id is left unchanged, so removal is idempotent |
| Entries.WithoutIdSorted | main.js:149 | removal keeps a list sorted by date |
| Entries.FindById | main.js:224 | `findIndex` by id: -1 exactly when no entry has the id, otherwise the first slot holding it |
| Api.Unwrap | main.js:38-75 | a call yields `json.data` exactly when the envelope says `ok`; otherwise it fails with the thrown message, or with `json.error`, or with the fixed message when `json.error` is empty |
| Summary.ParseDuration | main.js:82-83 | a duration has a value (is not `NaN`) exactly when its hours field is a digit string |
| Summary.ParseDurationFields | main.js:82-83 | "H:M" is worth `60 * H + M`, and a minutes field that is not a digit string counts as 0 |
| Summary.ParseDurationHoursOnly | main.js:82-83 | a duration without a colon counts whole hours |
| Summary.MinutesOf | main.js:82 | an entry without a duration counts as "0:00", that is 0 minutes |
| Summary.SumBy | main.js:80-84 | a sum over no entries is 0 and over one entry is that entry's figure (NaN absorption by Summary.SumByNaN, order independence by Summary.SumMinutesPermutation) |
| Summary.SumMinutes | main.js:80-84 | the summary loop over no entries gives 0, and over one entry gives that entry's minutes |
| Summary.SumByNaN | main.js:80-84 | a sum is `NaN` exactly when some term is |
| Summary.SumMinutesNaN | main.js:80-84 | the total is `NaN` exactly when some entry's duration is |
| Summary.SumMinutesPermutation | main.js:80-84 | the total does not depend on the order of the entries |
| Summary.Remaining | main.js:85-86 | time left is `NaN` exactly with the total, is never above the goal, is 0 once the goal is met, and otherwise adds up with the total to the goal |
| Summary.LastDayOf | main.js:93 | `new Date(year, idx + 1, 0).getDate()` is the length of month `idx`, and 31 for index -1 (December of the year before) |
| Summary.DaysLeft | main.js:90-95 | the day count is `NaN` exactly when the key has no year, and otherwise lies between 1 and 31 |
| Summary.DaysLeftOfKey | main.js:90-95 | for any key that reads back as a month and a year, the day count is that month's length less today's day plus one in the current month, and the whole month otherwise |
| Summary.DaysLeftOfCurrentKey | main.js:90-95 | for any key that reads back as the current month, the days from today to the month's end, today included |
| Summary.DaysLeftInCurrentMonth | main.js:91-95 | for the current month's key, the days from today to the month's end, today included |
| Summary.DaysLeftInOtherMonth | main.js:91-95 | for any other month's key, the whole length of that month |
| Summary.CeilDiv | main.js:96 | `Math.ceil(left / days)`: the least number that covers `left` in `days` days, and 0 exactly for nothing left |
| Summary.Average | main.js:96 | the average is 0 without a positive day count, `NaN` with a `NaN` time left, and otherwise the ceiling of time left over days |
| Summary.BandOf | main.js:102-105 | green up to 60 minutes a day, orange above 60 up to 120, red above 120 or for `NaN` |
| Summary.FormatHM | main.js:98-100 | "H:MM" has at least four characters with the colon third from the end (the fields are Summary.FormatHMShape) |
| Summary.Format | main.js:98-100 | every displayed figure, `NaN` included, reads back by the duration rule as the figure it shows |
| Summary.NaNReadsAsNaN | main.js:98-100 | "NaN:NaN" reads back as `NaN` |
| Summary.FormatHMShape | main.js:98-100 | "H:MM" splits into the hours and a two-digit minutes field below 60 |
| Summary.FormatHMRoundTrip | main.js:98-100 | reading a displayed figure with the duration rule gives back its minutes |
| Summary.Summarize | main.js:78-106 | the three texts read back as the total, the time left and the average; a `NaN` total over a positive day count gives red; the average covers the time left over the days left |
| Summary.RenderSummary | main.js:78-106 | the summary loop computes the sum over all entries, and the figures, texts and band derived from it |
| Summary.SummaryOrderIndependent | main.js:80-106 | the whole summary depends on which entries there are, not on their order |
| Store.ListedEntries | main.js:203-208 | the listed entries are the call's data on success and none on failure |
| Store.MonthCandidates | main.js:171-181 | the months are the backend's list on success and the fallback window on failure |
| Store.MonthListFacts | main.js:169-194 | the de-duplicated list has no repeats and every key given, and the default is one of them; on failure the list is the fallback window and the default is today |
| Store.ReplaceFirst | main.js:224-225 | an update overwrites the first entry with the edited id and no other slot, and changes nothing when no entry has that id |
| Store.LabelledPrefix | main.js:186-191 | labelling stops at the first empty name: the options added are the longest prefix without "" |
| Store.SelectValue | main.js:195 | after `monthSelect.value = v` the selector shows `v` when it is offered, and "" (no option) exactly when it is not |
| Store.DefaultSelection | main.js:186-191 | with no value chosen, the selector shows its first option, or nothing when it has none |
| Store.UpdateMayUnsort | main.js:224-225 | an update in place can leave a list sorted by date out of order |
| Store.Session.constructor | main.js:27-29 | the initial state: sheet "", no entries, no entry being edited, an empty selector |
| Store.Session.LoadEntriesFor | main.js:200-210 | switches to the sheet, leaves edit mode and takes the listed entries, or none on failure |
| Store.Session.LoadMonths | main.js:169-198 | fills the selector with the de-duplicated months and selects the default, then loads its entries; an empty name aborts the handler with only the options before it added |
| Store.Session.ShowMonths | main.js:184-197 | the state after the month list is known, for both the complete and the aborted run |
| Store.Session.AddOptions | main.js:186-191 | the selector is cleared and receives the months up to the first empty name; it reports whether all were added |
| Store.Session.ChangeMonth | main.js:242-244 | picking an offered month selects it, makes it current, leaves edit mode and loads its entries |
| Store.Session.BeginEdit | main.js:132-139 | the edit button sets the entry's id as the one being edited and changes nothing else |
| Store.Session.Delete | main.js:144-155 | unconfirmed, nothing happens; confirmed, one delete request is sent; on success every entry with the target's id is removed, and on failure the alert shows the error and nothing changes |
| Store.Session.Submit | main.js:213-239 | without a date and a duration nothing happens; in edit mode one update is sent, and on success the edited entry is replaced and edit mode ends; otherwise one create is sent, and on success the saved record is added and the list re-sorted; a failure alerts and changes nothing |
| Store.Session.RenderSummary | main.js:78-106 | the summary of the current entries for the month the selector shows, which is one of its options or "" |

## Left out

- The service worker (`sw.js`), registered at start-up, is not modelled. It caches the static assets. It also caches the backend's GET answers (the month list and the entry lists) network-first: when the network fails it replays the cached answer, or answers 503 "Offline", whose JSON parse throws. This only changes which `Reply` a handler receives, and that is a parameter.
- The transport (`fetch`, URL building, `JSON.stringify`, `res.json()`) is not modelled. Its outcome is the `Reply` parameter of each handler.
- DOM rendering is not modelled: `renderEntries`, the table rows, `toLocaleString` of dates, the upper-cased option labels, `form.reset` and filling the form fields on edit.
- `confirm` is the `confirmed` parameter of `Store.Session.Delete`. `alert` is the message a handler returns. `console.error` is dropped.
- Concurrency is not modelled. Each handler runs to completion on the state it started from, so late responses from an earlier month and interleaved handlers are not modelled.
- Each handler reads the clock once, as its `now` parameter. In the code `loadMonths` reads it twice, for the fallback window (main.js:176) and for today's key (main.js:193), and `renderSummary` reads it again (main.js:88). A run across midnight at a month's end could see two different months. Months.FallbackDefaultIsToday and Store.MonthListFacts rely on the single `now`.
- Months.DaysIn: `new Date` maps the years 0 to 99 to 1900 to 1999, and it has a finite range. Neither is modelled. The only effect would be on February of those years and on years far outside any calendar use.
- Text.NumberOf: `Number` also accepts surrounding white space, a sign, a decimal point, an exponent and hex prefixes. The model treats all of these as `NaN`, and so do Summary.ParseDuration and Summary.MinutesOf. Fractions and negative durations are not modelled, and neither is floating point.
- Summary.MinutesOf: a duration is always a string here. The other falsy values JavaScript would replace with "0:00" (`null`, `undefined`, `0`) are represented by "".
- Text.ParseInt: `parseInt` first skips leading white space. The model does not, and no key has any.
- Entries.LexLe: this compares character codes, where the code uses `localeCompare`. The two agree on the fixed-width "YYYY-MM-DDTHH:MM" dates but not on arbitrary text.
- Store.Session.Delete: `null` and `undefined` ids are one value here (`None`). Strict inequality tells them apart in the code.
- Backend data of the wrong type is not modelled: a month list that is not an array of strings, or entries whose fields are not strings.

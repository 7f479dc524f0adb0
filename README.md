# Receipt scanner and spending charts: a verified model

This project models the two pieces of client-side logic in an expense-tracker
web app.

**Receipt scanner.** The scanner component turns the text that OCR reads from a
receipt photo into a draft expense `{amount, merchant, date, category, notes}`.
The parser (`parseReceiptText`) works in these steps:

- The text is split on line feeds. Each piece is trimmed and empty pieces are dropped.
- The amount is the leftmost match of `\$?\d+\.\d{2}` in the first line that
  has one, with its `$` removed.
- The merchant is the first line.
- The date is the leftmost match of `\d{1,2}[\/\-]\d{1,2}[\/\-]\d{2,4}` in the
  first line that has one. It is read as month/day/year and written as
  year-month-day: month and day are padded to two digits, and a two-digit year
  gets "20" in front; a year of three or four digits is kept as it is. A
  two- or four-digit year thus gives the `YYYY-MM-DD` calendar-date form of
  section 4.1.2.2 of ISO 8601:2004, a three-digit year gives `YYY-MM-DD`, and
  nothing checks the ranges.
- Without a date, the fallback `new date()` uses the empty local string `date` as
  a constructor. That throws, the handler catches it, and the scan is reported
  as failed. The model keeps this behaviour (`ScanError.DateIsNotAConstructor`)
  and does not replace it with today's date.

Around the parser sits the upload gate:

- a file whose type does not start with `image/` is refused;
- an `isProcessing` flag and a `progress` value are raised when a scan starts and
  put back when it ends;
- the file input is disabled while a scan is processing.

**Spending charts.** The charts component builds two series from the expense
list:

- spending per category, in the order each category first appears;
- spending per day, sorted by date.

Each series is an in-place group-by fold over an accumulator list. The
component renders nothing when there are no expenses.

Modules:

- `Wrappers`: `Option` and `Result`.
- `Strings`: the JavaScript string operations the code uses: `trim`, `split`,
  `replace`, `padStart`, `startsWith`, and lexicographic order.
- `Regex`: the two regular expressions, written as sequences of quantified
  character classes. JavaScript's non-global `match` is modelled as a leftmost,
  greedy-with-backtracking search. That search is proved sound and complete
  against a declarative language predicate `Fits`.
- `ReceiptParser`: the normaliser, the amount and date loops (methods with loop
  invariants), the merchant, and the composer.
- `ReceiptExamples`: worked examples of the date extractor, proved by the verifier.
- `ReceiptScanner`: the gate, as a class with the `isProcessing` and `progress`
  fields.
- `Grouping`: the group-by fold. A class holds the accumulator entries, and the
  fold is proved against a specification function `Grouped`.
- `SpendingCharts`: the category and day series, the date sort, and the empty
  case.

Amounts in the charts are whole cents (`int`). Each expense's day is given as
its `YYYY-MM-DD` key string. For keys of that form, the sort comparator
`new Date(a.date) - new Date(b.date)` is negative exactly when `a.date` is
lexicographically smaller. The model therefore sorts by lexicographic order
on the keys.

The OCR outcome is a parameter of the callback that receives it: the
recognised text, or `None` when the OCR call rejects.

## Model

| member | source | states |
|---|---|---|
| Strings.Trim | client/src/components/ReceiptScanner.js:82 | only whitespace is cut off, at both ends: the trimmed line is a contiguous piece of the original with whitespace alone before and after it; it is empty exactly when the line is all whitespace; otherwise it neither starts nor ends with whitespace |
| Strings.TrimKeepsOut | client/src/components/ReceiptScanner.js:82 | trimming introduces no character that was not in the line |
| Strings.SplitOn | client/src/components/ReceiptScanner.js:82 | splitting yields one more piece than there are separators, and no piece contains a separator |
| Strings.JoinSplit | client/src/components/ReceiptScanner.js:82 | joining the pieces of `split('\n')` with line feeds gives the text back |
| Strings.SplitJoin | client/src/components/ReceiptScanner.js:82 | splitting a join of separator-free parts gives the parts back |
| Strings.SplitAround | client/src/components/ReceiptScanner.js:82 | a separator cuts the split into the split of what precedes it followed by the split of what follows it |
| Strings.SplitNone | client/src/components/ReceiptScanner.js:107 | a string without separators splits into itself alone |
| Strings.ReplaceFirst | client/src/components/ReceiptScanner.js:92 | `replace` with a one-character string: its removal of the first occurrence is stated by `ReplaceFirstRemovesFirst` |
| Strings.Position | client/src/components/SpendingCharts.js:9 | the index of the first occurrence of an element, or the length when it does not occur: `find` on the accumulator and `indexOf` of the `$` that `replace` removes |
| Strings.ReplaceFirstAt | client/src/components/ReceiptScanner.js:92 | when the first `$` is at `i`, `replace` cuts out exactly that character |
| Strings.ReplaceFirstAbsent | client/src/components/ReceiptScanner.js:92 | a string without `$` is left unchanged |
| Strings.ReplaceFirstRemovesFirst | client/src/components/ReceiptScanner.js:92 | `replace('$', '')` removes exactly the first `$` and leaves a string without one unchanged |
| Strings.PadStart | client/src/components/ReceiptScanner.js:109-110 | `padStart` keeps the string as its suffix, fills on the left, and reaches the target length when shorter |
| Strings.StartsWith | client/src/components/ReceiptScanner.js:18 | `startsWith`: the string begins with the prefix |
| Strings.LexLessTotal | client/src/components/SpendingCharts.js:32 | two different date keys are ordered one way or the other |
| Strings.LexLessTransitive | client/src/components/SpendingCharts.js:32 | the date order is transitive |
| Regex.Run | client/src/components/ReceiptScanner.js:90-103 | a greedy quantifier takes the longest run of its class that its upper bound allows |
| Regex.MatchAt | client/src/components/ReceiptScanner.js:90-103 | the backtracking search at one start: a match it reports ends within the text, after the start |
| Regex.Backtrack | client/src/components/ReceiptScanner.js:90-103 | giving back the first atom's characters one at a time: a match it reports ends within the text, after the start |
| Regex.MatchAtSound | client/src/components/ReceiptScanner.js:90-103 | whatever the backtracking search matches at a start is a word of the pattern's language |
| Regex.MatchAtComplete | client/src/components/ReceiptScanner.js:90-103 | if any word of the language starts at a position, the search succeeds there |
| Regex.MatchAtLongest | client/src/components/ReceiptScanner.js:90-103 | for a pattern whose atoms each take a character and share none with the atom before, the search at a start reports the longest word of the language there |
| Regex.GreedyCount | client/src/components/ReceiptScanner.js:90-103 | in a word of such a pattern the first atom takes exactly its greedy count |
| Regex.Search | client/src/components/ReceiptScanner.js:90-103 | `match` takes the first start at which the search succeeds; without a match, no start succeeds |
| Regex.Leftmost | client/src/components/ReceiptScanner.js:90-103 | the match is a word of the language, and no word of the language starts further left; without a match, no piece of the line fits |
| Regex.Longest | client/src/components/ReceiptScanner.js:90-103 | for such a pattern no word of the language at the match's start is longer than the match |
| Regex.FirstMatch | client/src/components/ReceiptScanner.js:90-103 | `match(re)[0]`: the text between the start and the end that the search reports |
| Regex.FirstMatchExists | client/src/components/ReceiptScanner.js:90-103 | a line has a match exactly when some piece of it fits the pattern |
| ReceiptParser.Clean | client/src/components/ReceiptScanner.js:82 | every kept line is non-empty and already trimmed |
| ReceiptParser.Normalise | client/src/components/ReceiptScanner.js:82 | every normalised line is non-empty, trimmed and free of line feeds |
| ReceiptParser.NormaliseJoined | client/src/components/ReceiptScanner.js:82 | the normalised lines of a text are its line-feed-separated pieces, trimmed, with empty ones dropped, in order |
| ReceiptParser.CleanAppend | client/src/components/ReceiptScanner.js:82 | trimming and filtering works piece by piece, so it distributes over concatenation |
| ReceiptParser.NormaliseConcat | client/src/components/ReceiptScanner.js:82 | the lines of `a + "\n" + b` are the lines of `a` followed by the lines of `b` |
| ReceiptParser.CleanKeepsOut | client/src/components/ReceiptScanner.js:82 | normalising introduces no character the pieces lack |
| ReceiptParser.CleanEmpty | client/src/components/ReceiptScanner.js:82 | no lines survive exactly when every piece is whitespace |
| ReceiptParser.JoinAllWhitespace | client/src/components/ReceiptScanner.js:82 | a text is blank exactly when each of its line-feed-separated pieces is blank |
| ReceiptParser.NoLinesIffBlank | client/src/components/ReceiptScanner.js:82-99 | there are no lines, and hence no merchant, exactly when the text is all whitespace |
| ReceiptParser.FirstHit | client/src/components/ReceiptScanner.js:89-105 | the first line with a match: it has one, and no earlier line does |
| ReceiptParser.FirstHitSnoc | client/src/components/ReceiptScanner.js:89-105 | looking at one more line keeps an earlier hit, so later lines never overwrite it |
| ReceiptParser.FirstHitIsLeftmost | client/src/components/ReceiptScanner.js:89-105 | in terms of the language: no line has a hit exactly when no piece of any line fits; a hit fits, and no piece of an earlier line does |
| ReceiptParser.CentsFit | client/src/components/ReceiptScanner.js:90 | a word of `\d{2}` is two digits |
| ReceiptParser.PointCentsFit | client/src/components/ReceiptScanner.js:90 | a word of `\.\d{2}` is a point and two digits |
| ReceiptParser.AmountFit | client/src/components/ReceiptScanner.js:90 | a word of `\d+\.\d{2}` is digits, a point and two digits |
| ReceiptParser.AmountHasNoDollar | client/src/components/ReceiptScanner.js:92 | such an amount text holds no `$` |
| ReceiptParser.MoneyShape | client/src/components/ReceiptScanner.js:90-92 | a money match with its `$` removed is digits, a point and two digits |
| ReceiptParser.PatternsSeparated | client/src/components/ReceiptScanner.js:90-103 | both patterns are ones for which the search finds the longest word at its start |
| ReceiptParser.AmountOf | client/src/components/ReceiptScanner.js:88-94 | the amount is "" exactly when no line has a money match, and otherwise digits, a point and two digits, without `$` |
| ReceiptParser.AmountFromFirstMoneyLine | client/src/components/ReceiptScanner.js:88-94 | the amount is "" exactly when no piece of any line is money; otherwise it is the match of the first line that has one, minus its `$`, where that match is a word of the pattern, no word starts further left, and no word at its start is longer; no earlier line holds money |
| ReceiptParser.ExtractAmount | client/src/components/ReceiptScanner.js:84-94 | the first-wins loop over all lines computes exactly that amount |
| ReceiptParser.Merchant | client/src/components/ReceiptScanner.js:96-99 | the first line, with no filtering; over normalised lines it is "" exactly when there are none |
| ReceiptParser.YearFit | client/src/components/ReceiptScanner.js:103 | a word of `\d{2,4}` is two to four digits |
| ReceiptParser.SepThen | client/src/components/ReceiptScanner.js:103 | a word starting with `[\/\-]` is one separator followed by a word of the rest |
| ReceiptParser.DigitsThen | client/src/components/ReceiptScanner.js:103 | a word starting with `\d{1,2}` is one or two digits followed by a word of the rest |
| ReceiptParser.DayThenYear | client/src/components/ReceiptScanner.js:103 | the tail of a date word is a day, a separator and a year of two to four digits |
| ReceiptParser.DateMatchFields | client/src/components/ReceiptScanner.js:103 | a date match is one or two digits, a separator, one or two digits, a separator, and two to four digits |
| ReceiptParser.DigitsHaveNoSeps | client/src/components/ReceiptScanner.js:107 | digit fields hold no date separator |
| ReceiptParser.SplitDate | client/src/components/ReceiptScanner.js:107-108 | splitting a date match on `[\/\-]` always gives the three fields |
| ReceiptParser.DateTextOf | client/src/components/ReceiptScanner.js:113 | a 3–4 digit year, two-digit month and two-digit day joined by dashes have the year-month-day shape |
| ReceiptParser.PadDigits | client/src/components/ReceiptScanner.js:109-110 | a one- or two-digit field padded with "0" is two digits |
| ReceiptParser.Year | client/src/components/ReceiptScanner.js:111-112 | the year rule: a two-digit year gets "20" in front, any other year is kept |
| ReceiptParser.YearKeepsDigits | client/src/components/ReceiptScanner.js:111-112 | the digits read always end the year, only a two-digit year gains "20", and a year of digits stays digits |
| ReceiptParser.Reformat | client/src/components/ReceiptScanner.js:107-113 | the conversion of a matched date; what it does to a date word is stated by `ReformatReadsMonthDayYear` |
| ReceiptParser.ReformatReadsMonthDayYear | client/src/components/ReceiptScanner.js:107-113 | the match is read as month/day/year, month and day are padded to two digits, a two-digit year gets "20" while three- and four-digit years are kept, no range is checked, and the result has the year-month-day shape |
| ReceiptParser.ReformatShape | client/src/components/ReceiptScanner.js:107-113 | every word of the date pattern is converted to the year-month-day shape |
| ReceiptParser.DateOf | client/src/components/ReceiptScanner.js:102-116 | the date is "" exactly when no line has a date match, and otherwise has the year-month-day shape |
| ReceiptParser.DateFromFirstDateLine | client/src/components/ReceiptScanner.js:102-116 | the date is "" exactly when no piece of any line is a date; otherwise it comes from the first line that has one, from the match that starts leftmost and is the longest word at that start (so a three- or four-digit year is read whole), read as month/day/year and written year-month-day; no earlier line holds a date |
| ReceiptParser.ExtractDate | client/src/components/ReceiptScanner.js:102-116 | the first-wins loop with the split, padding and year prefix computes exactly that date |
| ReceiptParser.Compose | client/src/components/ReceiptScanner.js:118-124 | the result fails with the `new date()` error exactly when the date is empty; otherwise amount, merchant and date pass through, with category "Other" and notes "Scanned from receipt" |
| ReceiptParser.Parse | client/src/components/ReceiptScanner.js:80-125 | the only error is that of `new date()`; a draft has a year-month-day date and an amount that is "" or an amount text without `$` |
| ReceiptParser.ParseReceiptText | client/src/components/ReceiptScanner.js:80-125 | the parser method computes the draft of the specification, or fails |
| ReceiptParser.ParseOutcome | client/src/components/ReceiptScanner.js:80-125 | parsing succeeds exactly when some piece of some line is a date, so every blank text fails; a draft has category "Other", notes "Scanned from receipt", the first line as merchant, and the amount and date the two extractors find |
| ReceiptExamples.ShortYearDate | client/src/components/ReceiptScanner.js:103-113 | "3/4/24" becomes "2024-03-04" |
| ReceiptExamples.LongYearDate | client/src/components/ReceiptScanner.js:103-113 | "3/4/2024" becomes "2024-03-04": the year takes all four digits |
| ReceiptExamples.ThreeDigitYearReformat | client/src/components/ReceiptScanner.js:107-113 | a three-digit year is kept as it is: "1/2/123" becomes "123-01-02" |
| ReceiptExamples.YearFirstMisses | client/src/components/ReceiptScanner.js:103 | on "2024/03/04" the date pattern fails at the first two starts |
| ReceiptExamples.YearFirstMatch | client/src/components/ReceiptScanner.js:103 | on "2024/03/04" the leftmost match starts inside the year: "24/03/04" |
| ReceiptExamples.YearFirstDate | client/src/components/ReceiptScanner.js:103-113 | "2024/03/04" becomes "2004-24-03": month 24, read unchecked |
| ReceiptScanner.Report | client/src/components/ReceiptScanner.js:52-63 | a parsed draft is delivered; a thrown error becomes the failure report |
| ReceiptScanner.ScanResult | client/src/components/ReceiptScanner.js:35-63 | a draft is delivered exactly when OCR succeeded and some line of its text holds a date; the failure is the OCR error when OCR rejected and the `new date()` error otherwise; a delivered draft is the parsed one |
| ReceiptScanner.Scan | client/src/components/ReceiptScanner.js:35-63 | the `try` block (recognise, parse, report) yields that result |
| ReceiptScanner.Scanner.constructor | client/src/components/ReceiptScanner.js:5-6 | a new scanner is not processing, with progress 0 |
| ReceiptScanner.Scanner.InputEnabled | client/src/components/ReceiptScanner.js:138 | the file input is enabled exactly when no scan is processing |
| ReceiptScanner.Scanner.SelectFile | client/src/components/ReceiptScanner.js:131-138 | while processing, the disabled input ignores a selection and nothing changes; otherwise a missing file or a non-image is refused with no state change, and an image starts processing with progress 0 |
| ReceiptScanner.Scanner.HandleImageUpload | client/src/components/ReceiptScanner.js:9-25 | a missing file or a type not starting with "image/" returns before `isProcessing` is set; an image raises it and resets progress |
| ReceiptScanner.Scanner.OnOcrLog | client/src/components/ReceiptScanner.js:40-44 | progress follows the OCR percentage only while text is being recognised |
| ReceiptScanner.Scanner.OnImageLoaded | client/src/components/ReceiptScanner.js:30-68 | the scan result is that of the OCR outcome, and afterwards processing is off and progress 0, whether the scan succeeded or failed |
| ReceiptScanner.Scanner.Settle | client/src/components/ReceiptScanner.js:64-67 | the `finally` block lowers processing and resets progress |
| ReceiptScanner.Scanner.OnReadError | client/src/components/ReceiptScanner.js:71-74 | a read error lowers processing and leaves progress as it was |
| ReceiptScanner.Session | client/src/components/ReceiptScanner.js:9-74 | from a fresh component: an image starts a scan, a second selection during it is ignored, the scan reports the OCR outcome's result, and the input is enabled again afterwards; a non-image starts nothing |
| Grouping.Dedup | client/src/components/SpendingCharts.js:5-17 | the distinct keys: each key of the input occurs, nothing else does, and none twice |
| Grouping.DedupFirstOccurrence | client/src/components/SpendingCharts.js:9-15 | the distinct keys appear in the order each first occurs |
| Grouping.SumForAbsent | client/src/components/SpendingCharts.js:10-14 | a key with no expenses sums to 0 |
| Grouping.Grouped | client/src/components/SpendingCharts.js:5-31 | exactly one entry per distinct key, in order of first occurrence, each holding the sum of that key's amounts |
| Grouping.GroupedEmpty | client/src/components/SpendingCharts.js:5-17 | there are no groups exactly when there are no expenses |
| Grouping.GroupedSnoc | client/src/components/SpendingCharts.js:9-15 | folding one expense adds its amount to the single entry with its key, or appends a new entry; no other entry changes |
| Grouping.Groups.constructor | client/src/components/SpendingCharts.js:17 | the accumulator starts empty |
| Grouping.Groups.Find | client/src/components/SpendingCharts.js:9 | `acc.find` returns the first entry with the key, or none |
| Grouping.Groups.Add | client/src/components/SpendingCharts.js:9-15 | one fold step in place: the found entry's amount grows by the expense's amount, or a new entry is pushed; nothing else changes |
| Grouping.GroupSum | client/src/components/SpendingCharts.js:5-31 | the in-place fold over all expenses yields exactly the specified groups |
| SpendingCharts.NotLater | client/src/components/SpendingCharts.js:32 | the comparator's order on day keys: not later means equal or lexicographically smaller |
| SpendingCharts.SortedByDate | client/src/components/SpendingCharts.js:32 | each entry's day is not later than the next one's |
| SpendingCharts.Insert | client/src/components/SpendingCharts.js:32 | inserting keeps every entry |
| SpendingCharts.InsertSorted | client/src/components/SpendingCharts.js:32 | inserting into a date-sorted list keeps it sorted |
| SpendingCharts.InsertKeys | client/src/components/SpendingCharts.js:32 | inserting adds exactly the new key |
| SpendingCharts.SortByDate | client/src/components/SpendingCharts.js:32 | the sort yields ascending dates and a permutation of its input |
| SpendingCharts.SortKeys | client/src/components/SpendingCharts.js:32 | sorting keeps exactly the keys it was given |
| SpendingCharts.InsertDistinct | client/src/components/SpendingCharts.js:32 | inserting a new key keeps the keys distinct |
| SpendingCharts.SortKeepsDistinct | client/src/components/SpendingCharts.js:32 | sorting distinct-keyed groups keeps them distinct |
| SpendingCharts.StrictlyAscending | client/src/components/SpendingCharts.js:32 | sorted with distinct keys means strictly ascending dates |
| SpendingCharts.CategoryData | client/src/components/SpendingCharts.js:5-17 | the category series is the groups of the expenses by category |
| SpendingCharts.DateData | client/src/components/SpendingCharts.js:19-36 | the day series is the groups by day key, sorted by date |
| SpendingCharts.DateDataShape | client/src/components/SpendingCharts.js:19-32 | the day series has one entry per day that has expenses, holds that day's sum, and is in strictly ascending date order |
| SpendingCharts.Render | client/src/components/SpendingCharts.js:3-42 | nothing is rendered exactly when there are no expenses; otherwise both series are rendered |
| SpendingCharts.EmptySeries | client/src/components/SpendingCharts.js:5-42 | with no expenses both series are empty, and with any expense neither is |

## Left out

- OCR itself (Tesseract), `FileReader`, `alert`, `console` and the preview
  image: these are foreign asynchronous calls and I/O. The OCR outcome is a
  parameter.
- The progress percentage `Math.round(m.progress * 100)` is a float
  computation. `OnOcrLog` takes the rounded percentage as an integer.
- The interleaving of asynchronous callbacks is not modelled. `Session` runs
  one order of events: select, a second selection, then the load callback.
- `onReceiptScanned` may be absent, in which case the draft is dropped but
  success is still alerted. `ScanOutcome.Scanned` is the draft the callback
  would receive.
- `parseFloat`, `toFixed(2)` and the final `map` in the day series are float
  rounding. With whole cents, the map is the identity.
- The day key's derivation through `new Date(...).toISOString()` depends on
  time zones and `Date` semantics. The key is an input string.
- The sort comparator is modelled as lexicographic order on `YYYY-MM-DD`
  keys, which is chronological order for such keys. Keys of any other form
  are not considered.
- Recharts rendering, percent labels and colours are UI.
- The server routes, the expense list, the expense form and the app wiring
  are not part of this model: they are network, database and UI code.
- JavaScript strings are UTF-16 code units. Here they are sequences of
  `char`, with the ECMAScript whitespace set spelled out for `trim`.

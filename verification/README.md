# Stackline product view helpers, in Dafny

The product view's sales table and chart rest on three small pure helpers in
`Stackline.tsx`. This project models each of them and proves what it promises:

- `formatWeekEndingForTable` reads a record's `weekEnding` date as `YYYY-MM-DD`
  and prints it as `MM-DD-YY`.
- `formatCurrency` prints an amount as `$` followed by its decimal digits. It inserts
  a comma at every position the pattern `\B(?=(\d{3})+(?!\d))` matches, so the
  digits come out in groups of three counted from the right.
- `graphDataFromSales` folds the weekly sale records, left to right, into one bucket
  per month. The bucket key is the upper-cased three-letter month label of the
  week-ending date. Each bucket sums `retailSales`, `retailerMargin` and
  `wholesaleSales`. The buckets come out in the order their months were first seen.

Modules:

- `Wrappers`: the `Option` type.
- `Digits`: decimal digit strings. This covers `toString` of a non-negative safe integer,
  the value a digit string denotes, and zero-padded fixed-width fields.
- `Dates`:
  - strict `YYYY-MM-DD` parsing, with calendar validity;
  - the `MM-DD-YY` table text;
  - the month labels `JAN` to `DEC`;
  - the date library's `Invalid date` text, which an unparseable date gets.
- `Currency`: the currency text, with the regular expression's matches modelled
  position by position. `ParseCurrency` reads currency text back, and `Groups`/`Join`
  give an independent description of where the commas go.
- `Aggregation`:
  - the sale records and the monthly buckets;
  - the reducer step `AddSale`;
  - the fold `Reduce`;
  - `GraphDataFromSales`.

  The accumulator object is modelled as an ordered association list with distinct
  keys. Its keys are month labels, never integer-like, so `Object.values` returns
  them in insertion order. `Keyed` pairs every record with its label first, and
  `Reduce` then folds those pairs.

The sums do not depend on the order of the records, but the output does:
`Object.values` returns the buckets in the order their months were first seen, so
reordering the records can reorder the buckets. `Aggregation.InputOrderMatters`
states this.

## Model

| member | source | states |
|---|---|---|
| Digits.ValueOfNatToString | Stackline.tsx:61 | the exact decimal digits of `x`, which `x.toString()` prints for a safe integer, denote `x` |
| Digits.NatToStringOfValue | Stackline.tsx:61 | every canonical digit string (no leading zero) is the `toString` of the number it denotes |
| Digits.NatToString | Stackline.tsx:61 | `x.toString()` has no leading zero and is a single digit exactly when `x` is below 10 |
| Digits.NatToStringInjective | Stackline.tsx:61 | distinct amounts have distinct decimal digits |
| Digits.Fixed | Stackline.tsx:56 | a zero-padded `MM`, `DD` or `YY` field has exactly its width and only digits |
| Currency.SeparatorAt | Stackline.tsx:61 | the pattern matches before position `i` exactly when `\B` holds (strictly between two digits) and the digits from `i` to the end form a whole number of triples |
| Currency.SeparatorAtMeansTriples | Stackline.tsx:61 | the lookahead `(\d{3})+(?!\d)` read literally: a match has one or more complete triples after it, and no digit left over |
| Currency.InsertSeparators | Stackline.tsx:61 | the global `replace`: a comma at every match, the digits kept in order. `SeparatorsBetweenGroups` pins it to the digit groups joined by commas; `RemoveInsertedSeparators` and `CommaIffSeparator` add that only commas are inserted and where one occurs |
| Currency.FormatCurrency | Stackline.tsx:60-62 | the currency text starts with `$` and has at least one digit after it |
| Currency.RemoveInsertedSeparators | Stackline.tsx:61 | the replacement only inserts commas: removing them gives back the digits from the given position on |
| Currency.FormatCurrencyDigits | Stackline.tsx:60-61 | round trip: dropping the `$` and every comma gives exactly the decimal digits of `x` (`x.toString()` for a safe integer) |
| Currency.ParseFormatCurrency | Stackline.tsx:60-62 | reading the currency text back yields `x` again |
| Currency.FormatCurrencyInjective | Stackline.tsx:60-62 | two amounts print the same text exactly when they are equal |
| Currency.SeparatorsBetweenGroups | Stackline.tsx:61 | the commas the pattern inserts sit exactly between the digit groups: a leading group, then triples |
| Currency.FormatCurrencyGroups | Stackline.tsx:61 | grouping shape: `$`, then groups joined by commas; the first group has 1 to 3 digits, every later one exactly 3, and together they spell the digits |
| Currency.CommaIffSeparator | Stackline.tsx:61 | a comma appears from a position on exactly when a pattern match lies at or after it |
| Currency.FormatCurrencyHasComma | Stackline.tsx:61 | the text contains a comma exactly when the amount is at least 1000 |
| Currency.FormatCurrencyZero | Stackline.tsx:60-62 | `0` prints as `$0` |
| Currency.FormatCurrencyMillions | Stackline.tsx:60-62 | `1234567` prints as `$1,234,567` |
| Dates.ParseIsoDate | Stackline.tsx:56 | a `YYYY-MM-DD` text that parses denotes a valid calendar date; other shapes and overflowing days do not parse |
| Dates.FormatParsedIsoDate | Stackline.tsx:56 | a parsed date printed back as `YYYY-MM-DD` is the original text |
| Dates.ParseFormatIsoDate | Stackline.tsx:56 | every valid date survives printing and parsing |
| Dates.FormatWeekEndingForTable | Stackline.tsx:55-57 | for a valid date: 8 characters with `-` at positions 2 and 5, month and day copied, year reduced to its last two digits (year mod 100); otherwise the invalid-date text |
| Dates.YearSuffix | Stackline.tsx:56 | the two-digit `YY` of a date is the third and fourth digit of its `YYYY` field |
| Dates.TableDateRoundTrip | Stackline.tsx:55-57 | reading the table text back yields the month, the day and the year mod 100 of the week-ending date |
| Dates.TableDateExample | Stackline.tsx:55-57 | `2023-01-05` is shown as `01-05-23` |
| Dates.OverflowingDayExample | Stackline.tsx:56 | `2023-02-30` is an invalid date and is shown as `Invalid date` |
| Dates.NotADateExample | Stackline.tsx:56-67 | text that is no date is shown as `Invalid date` and labelled `INVALID DATE` |
| Dates.MonthLabel | Stackline.tsx:66-67 | a month's label is three upper-case letters |
| Dates.ToUpperAscii | Stackline.tsx:67 | ASCII upper-casing, which equals `toUpperCase` on the only text it receives (`Jan` … `Dec`, `Invalid date`); it keeps the length and maps each character by `UpperChar` |
| Dates.MonthLabelTable | Stackline.tsx:66-67 | the labels are `JAN` to `DEC` in calendar order |
| Dates.MonthLabelRoundTrip | Stackline.tsx:66-67 | a label reads back as its month |
| Dates.MonthLabelInjective | Stackline.tsx:66-67 | two months share a label exactly when they are the same month |
| Dates.WeekEndingMonth | Stackline.tsx:66-67 | a well-formed date's key reads back as the number in its `MM` field; a date that does not parse gets the key `INVALID DATE` |
| Dates.WeekEndingMonthOfDate | Stackline.tsx:66-67 | the label of a date depends on its month only, not on its year or day |
| Dates.SameLabelIffSameMonthField | Stackline.tsx:66-67 | two valid week-ending dates get the same label exactly when their `MM` fields agree, whatever their years |
| Dates.AllMonthLabels | Stackline.tsx:66-67 | the labels a month can get are exactly `JAN`, `FEB`, … `DEC`, listed in calendar order |
| Dates.MonthLabelExample | Stackline.tsx:66-67 | `2023-01-05` is labelled `JAN` |
| Dates.EarlierYearLabelExample | Stackline.tsx:66-67 | `2022-01-07` is labelled `JAN` as well |
| Aggregation.EmptyBucket | Stackline.tsx:69-74 | a new bucket carries its month and starts every sum at zero |
| Aggregation.AddToBucket | Stackline.tsx:76-78 | adding a record raises each of the three sums by the record's amount and keeps the month |
| Aggregation.IndexOfMonth | Stackline.tsx:69 | the lookup `acc[saleMonth]` finds the one bucket keyed by the month, or reports that there is none |
| Aggregation.AddSale | Stackline.tsx:66-79 | one reducer step keeps keys distinct and makes a zero bucket only for a new month, appended last; it changes only that month's bucket, and the other buckets and their order stay the same |
| Aggregation.Reduce | Stackline.tsx:65-80 | the fold keeps keys distinct and makes at most one bucket per record, and at least one when there is a record |
| Aggregation.GraphDataFromSales | Stackline.tsx:64-83 | distinct month keys and no more buckets than records; no buckets exactly when there are no records |
| Aggregation.AddSaleTotal | Stackline.tsx:76-78 | one step moves exactly the record's amount into the buckets |
| Aggregation.ReduceConservesTotals | Stackline.tsx:65-80 | the fold's buckets together hold the sum of the folded records, for each amount |
| Aggregation.SumsOfKeyed | Stackline.tsx:66-67 | pairing each record with its label changes neither the overall sums nor the per-month sums |
| Aggregation.GraphDataConservesTotals | Stackline.tsx:64-83 | conservation: for each of the three amounts, the buckets together hold the sum over all records |
| Aggregation.GraphDataBucketSums | Stackline.tsx:66-78 | each bucket holds the sums over exactly the records whose label is its month, whatever their year; a month with no bucket has no records |
| Aggregation.AddSaleMonthSums | Stackline.tsx:69-78 | a step keeps every bucket equal to the sum over the records of its month |
| Aggregation.ReduceBucketSums | Stackline.tsx:65-80 | after the fold every bucket equals the sum over the folded records of its month |
| Aggregation.GraphDataMonths | Stackline.tsx:65-74 | the bucket keys are exactly the labels of the records |
| Aggregation.AddSaleMonths | Stackline.tsx:69-74 | a step's keys are the previous keys plus the record's month |
| Aggregation.ReduceMonths | Stackline.tsx:65-80 | the fold's keys are exactly the labels of the folded records |
| Aggregation.GraphDataAtMostTwelve | Stackline.tsx:82 | with well-formed dates there are at most twelve buckets |
| Aggregation.LabelListed | Stackline.tsx:66-67 | a well-formed date's key is one of the twelve month labels |
| Aggregation.KeysWithinLabels | Stackline.tsx:64-83 | pigeonhole: when a list holds every record's key, the output has no more buckets than the list has entries |
| Aggregation.AddSaleFirstSeenOrder | Stackline.tsx:69-74 | a step keeps the buckets ordered by the first occurrence of their month |
| Aggregation.ReduceFirstSeenOrder | Stackline.tsx:65-80 | the fold orders its buckets by first occurrence of their month |
| Aggregation.GraphDataFirstSeenOrder | Stackline.tsx:82 | the output is ordered by the first occurrence of each month among the records, not by calendar |
| Aggregation.SameBucketIffSameMonthField | Stackline.tsx:66-78 | two well-dated records share a bucket exactly when their `MM` fields agree, whatever their years |
| Aggregation.SameMonthPair | Stackline.tsx:64-83 | two records with the same label make a single bucket holding both |
| Aggregation.DistinctMonthPair | Stackline.tsx:64-83 | two records with different labels make two buckets, in record order |
| Aggregation.InputOrderMatters | Stackline.tsx:82 | swapping two records of different months changes the output: the bucket order follows the records |
| Aggregation.TwoJanuariesExample | Stackline.tsx:64-83 | January 2022 and January 2023 records merge into one `JAN` bucket with summed amounts |

## Left out

- The component's state and effect wiring and the data fetch (Stackline.tsx:6-26) are left out. They are React runtime and asynchronous I/O through a module that is not part of this model.
- All JSX rendering, styles, chips, menus and table markup (Stackline.tsx:85-210) are left out. They are presentation only.
- The chart configuration, including the `dataMax * 1.2` axis domain (Stackline.tsx:168-178), is left out. It is a third-party chart library and floating-point scaling.
- Dates.ParseIsoDate: only strict `YYYY-MM-DD` text with a valid calendar day parses. The date library's forgiving parse also reads some other shapes, such as single-digit fields or trailing text. Those shapes get the invalid-date text and label here, so for them the model differs from the library.
- Dates.MonthLabel: only the English month names are modelled. Other locales are not.
- Currency.FormatCurrency: amounts are non-negative integers. JavaScript numbers are floating point. A fraction would get commas among its fraction digits, a negative sign is not modelled, and very large values print in exponent notation. None of these are modelled. Above 2^53 (`Number.MAX_SAFE_INTEGER` is 2^53 - 1), `toString` prints the shortest digits that read back as the same double, padded with zeros, so its trailing digits can differ from the exact integer's: 2^60 prints as `$1,152,921,504,606,847,000`. The model always prints the exact digits.
- Digits.NatToString: gives the exact digits of any natural. It equals JavaScript's `toString` only up to 2^53 - 1, for the reason given in the line above.
- Sale amounts are unbounded integers, not floating-point numbers, so rounding in the sums is not modelled.
- Aggregation.GraphDataFromSales: `unitsSold` is carried by the records but, as in the source, not summed into the buckets.
- Aggregation.GraphDataAtMostTwelve: requires every date to parse. Otherwise the `INVALID DATE` bucket can be a thirteenth.

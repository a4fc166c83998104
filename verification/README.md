# Receipt points: a verified model of the scoring service

The service accepts a receipt (retailer, purchase date, purchase time, a
list of items with a short description and a price, and a total) and
answers with a fresh id. It scores the receipt when it arrives and keeps
the score under that id. A later lookup at `/receipts/{id}/points` answers
with the stored score.

The score is the sum of exactly seven rules:

1. one point per letter or digit in the retailer name;
2. 50 points when the total is a round dollar amount;
3. 25 points when the total is a multiple of 0.25;
4. 5 points for every two items;
5. for each item whose trimmed description has a byte length that is a
   multiple of 3, the price times 0.2, rounded up;
6. 6 points when the day of the purchase date is odd;
7. 10 points when the purchase time is in the hour 14 or 15.

A rule whose field does not parse adds nothing; no error escapes the
scorer. The source also carries, commented out, an eighth rule (+5 when the
total exceeds 10.00). It is not part of the score. `ReceiptPoints` is the
sum of the seven rules and nothing else. `TotalSizeIgnored` proves that the
size of the total, beyond its cents, never changes the score.

The project has seven modules:

- `Wrappers` (`wrappers.dfy`): the `Option` type.
- `Arithmetic` (`arith.dfy`): uniqueness of Euclidean division and small multiplication facts.
- `Text` (`text.dfy`): character classes, decimal digit strings,
  `strings.TrimSpace` over Go's `unicode.IsSpace` set, `TrimPrefix` and
  `TrimSuffix`, and the UTF-8 byte length that `len` gives for a string.
- `Amounts` (`amounts.dfy`): prices and totals as exact decimals. The
  parser reads an optional sign, digits and an optional point with
  digits, as `strconv.ParseFloat` reads plain decimal notation. On top of
  it sit Go's `int(x)` (truncation toward zero), the round-dollar test, the
  cents `int(x*100)` and `ceil(x*0.2)`.
- `Clock` (`clock.dfy`): `time.Parse` with the layouts `2006-01-02` and
  `15:04`.
- `Scoring` (`scoring.dfy`): one function per rule, their sum
  `ReceiptPoints`, and `CalculatePoints`. The latter is the imperative
  accumulator loop of the service, proved equal to `ReceiptPoints`.
- `Service` (`service.dfy`): the presence check, the id read from the
  lookup path, and the receipts store as a class over a `map`. It also
  holds the two handlers, with the fresh id passed in as a parameter.

Rules 2 and 3 read the exact cents of the total. For totals written with at
most two decimals, +50 fires exactly when the cents are a multiple of 100,
and +25 exactly when they are a multiple of 25 (`TotalRulesOnCents`). With
more decimals, the round-dollar test still looks at every digit
(`IntegralIffNoFraction`), while the quarter test looks only at the
truncated cents.

## Model

| member | source | states |
|---|---|---|
| Scoring.CalculatePoints | main.go:76-136 | the accumulated score equals `ReceiptPoints`, the sum of exactly the seven rule functions; no rule for the size of the total is added |
| Scoring.RetailerPointsCountsAlphanumerics | main.go:79-84 | the retailer rule equals the number of positions in the name that hold a letter or a digit |
| Scoring.RetailerPointsAppend | main.go:79-84 | the retailer rule is additive over concatenation, so spaces and punctuation anywhere add nothing |
| Scoring.RetailerPointsBounds | main.go:79-84 | the retailer rule gives at most one point per character, and exactly one per character iff every character is a letter or digit |
| Scoring.TotalBonusValues | main.go:86-96 | an unparsable total gets neither bonus; the two total bonuses together are 0, 25 or 75, never 50 alone |
| Scoring.TotalRulesOnCents | main.go:86-96 | for a parsed total with at most two decimals, +50 fires iff cents % 100 == 0, +25 fires iff cents % 25 == 0, and the cents are exactly the total times 100 |
| Scoring.RoundDollarIffZeroFraction | main.go:86-91 | a total written `digits.digits` is round-dollar iff the digits after the point are all zero |
| Scoring.RoundTotalExample | main.go:86-96 | "10.00" earns both the 50 and the 25 points |
| Scoring.UnroundTotalExample | main.go:86-96 | "35.35" earns neither total bonus |
| Scoring.PairPointsPerPair | main.go:98-99 | two more items add exactly 5 points; a leftover single item adds nothing |
| Scoring.DescriptionPointsAppend | main.go:101-110 | the description rule is additive over the item list |
| Scoring.DescriptionPointsOfItem | main.go:101-110 | the description rule is the sum of the items' own points, each item counted once in its own position |
| Scoring.DescriptionPointsNoneQualify | main.go:101-104 | items whose trimmed description length is not a multiple of 3 add nothing, whatever their price |
| Scoring.BlankDescriptionQualifies | main.go:103-108 | an empty or blank description qualifies: the item earns ceil(price*0.2) when the price parses and 0 when it does not |
| Scoring.ItemPointsFromCents | main.go:105-108 | a qualifying item priced with at most two decimals earns its cents divided by 500, rounded up |
| Scoring.DescriptionPointsNonNegative | main.go:101-110 | items without a negative price never lower the score |
| Scoring.OddDayOfDate | main.go:121-125 | a valid date spelled YYYY-MM-DD earns 6 iff its day is odd |
| Scoring.OddDayNeedsDate | main.go:121-125 | 6 points are earned only by the YYYY-MM-DD spelling of a valid date with an odd day |
| Scoring.OddDayExample | main.go:121-125 | "2022-01-01" earns 6 |
| Scoring.LeapDayExample | main.go:121-125 | the leap day "2024-02-29" exists and earns 6 |
| Scoring.MissingDayExample | main.go:121-125 | "2023-02-29" is not a date of a non-leap year and earns 0 |
| Scoring.AfternoonWindow | main.go:127-133 | the time rule earns 10 iff the time parses and lies in [14:00, 16:00) |
| Scoring.AfternoonOfTime | main.go:127-133 | a valid time spelled HH:MM earns 10 iff its hour is 14 or 15 |
| Scoring.AfternoonStartExample | main.go:127-133 | "14:00" earns 10 |
| Scoring.AfternoonEndExample | main.go:127-133 | "15:59" earns 10 |
| Scoring.BeforeAfternoonExample | main.go:127-133 | "13:59" earns 0 |
| Scoring.AfterAfternoonExample | main.go:127-133 | "16:00" earns 0 |
| Scoring.TotalSizeIgnored | main.go:112-119 | changing only the whole-dollar part of the total leaves the score unchanged: the commented-out rule for totals above 10.00 is absent |
| Scoring.PointsNonNegative | main.go:76-136 | with no negative price among the items, the score is never negative |
| Amounts.ParseAmount | main.go:86 | a string that parses yields a well-formed decimal (fraction below 10^scale) |
| Amounts.ParseWholeAmount | main.go:86 | a sign and digits parse to that sign and whole part, with no fraction |
| Amounts.ParseFractionalAmount | main.go:86 | a sign, digits, a point and digits parse to that sign, whole part, fraction and number of decimals |
| Amounts.ParsedAmountShape | main.go:86 | every string that parses is a sign, digits and an optional point with digits (at least one digit in all), read as above |
| Amounts.Truncated | main.go:89 | truncation toward zero: the sign of the amount is kept, and the magnitude lies in [t, t+1) units of 10^-places |
| Amounts.CeilFifth | main.go:107 | the result r is the least integer with amount <= r/5, i.e. ceil(amount * 0.2) |
| Amounts.IntegralIffNoFraction | main.go:89-91 | an amount survives truncation to an integer iff its fraction is zero |
| Amounts.IntegralIffWholeCents | main.go:89-95 | with at most two decimals, the amount is round-dollar iff its cents are a multiple of 100 |
| Amounts.IntegralIsQuarter | main.go:89-95 | a round-dollar amount is also a multiple of 25 cents |
| Amounts.CentsExact | main.go:93 | with at most two decimals, the cents are exactly the amount times 100 |
| Amounts.CentsOfParts | main.go:93 | the cents' magnitude is 100 per whole unit plus the fraction's truncated hundredths |
| Amounts.TestsIgnoreWholeDollars | main.go:89-95 | neither the round-dollar nor the quarter test depends on the whole part of the amount |
| Amounts.CeilFifthOfCents | main.go:107 | with at most two decimals, ceil(amount * 0.2) is ceil(cents / 500) |
| Clock.DaysIn | main.go:122 | a month has 28 to 31 days, and 29 exactly for February of a leap year |
| Clock.ParseDate | main.go:122 | a date that parses is valid: four-digit year, month 1..12, day within its month |
| Clock.ParseFormatDate | main.go:122 | every valid date is read back from its YYYY-MM-DD spelling |
| Clock.FormatParsedDate | main.go:122 | a string that parses as a date is exactly that date's YYYY-MM-DD spelling |
| Clock.ParseTime | main.go:128 | a time that parses has hour 0..23 and minute 0..59 |
| Clock.ParseFormatTime | main.go:128 | every valid time is read back from its HH:MM spelling, and from H:MM below 10:00 |
| Clock.FormatParsedTime | main.go:128 | a string that parses as a time is exactly its HH:MM spelling or, below 10:00, its H:MM spelling |
| Text.TrimSpace | main.go:103 | the result is the slice after the leading spaces, followed only by spaces, neither starting nor ending with a space |
| Text.TrimSpaceOfPadded | main.go:103 | any run of spaces around a text that does not start or end with a space is removed, and the text is left intact |
| Text.TrimSpaceOfBlank | main.go:103 | a text made only of spaces trims to the empty string |
| Text.Utf8LengthAppend | main.go:103 | the byte length is additive over concatenation |
| Text.Utf8LengthBounds | main.go:103 | a string takes between one and four bytes per character, and exactly one per character when it is ASCII |
| Text.TrimPrefix | main.go:141 | the prefix is removed when the path starts with it; otherwise the path is unchanged |
| Text.TrimSuffix | main.go:142 | the suffix is removed when the text ends with it; otherwise the text is unchanged |
| Service.PathIdOfPointsPath | main.go:140-142 | the id read from "/receipts/" + id + "/points" is exactly id, for every id |
| Service.PathIdParts | main.go:140-142 | when both the prefix and the suffix are present, the path is prefix + id + suffix; when neither is, the whole path is the id |
| Service.ReceiptStore.constructor | main.go:36 | the store starts empty |
| Service.ReceiptStore.Store | main.go:61-62 | after storing, the id maps to {id, points}; every other id keeps its record; an earlier record under the same id is replaced |
| Service.ReceiptStore.Load | main.go:145-149 | a stored id yields its record, and its record carries that id; an id never stored yields nothing |
| Service.ProcessReceipt | main.go:48-62 | an empty retailer, an empty total or no items is rejected before any scoring, and nothing is stored; otherwise the receipt's score is stored under the given id, which is returned |
| Service.GetReceiptPoints | main.go:138-152 | the points stored under the id read from the path, or not found when none are stored |
| Service.SubmitThenLookup | test_client/main.go:22-83 | looking up the id returned for a complete receipt yields exactly its score; a rejected receipt leaves the lookup as it was |
| Service.SubmitTwice | test_client/main.go:22-83 | the same receipt submitted under two ids is stored twice with the same score |

## Left out

- JSON decoding and encoding, HTTP status codes, headers, logging and the server start-up in `main` (main.go:38-47, 64-73, 151-168) are I/O. The two handlers return `ProcessResponse` and `PointsResponse` values instead.
- The fresh id comes from a uuid library (main.go:58). Here it is a parameter of `ProcessReceipt`, so uniqueness of ids is not modelled.
- `sync.Map` (main.go:36) is modelled as a sequential `map`; its behaviour under concurrent access is not captured.
- Amounts are exact decimals, not `float64`. `ParseAmount` rejects exponents, underscores, hexadecimal, `Inf` and `NaN`, all of which `strconv.ParseFloat` accepts. Overflow to `ErrRange` is not modelled. Rounding artefacts of binary floating point are not modelled either: the source's `int(x*100)` and `math.Ceil(x*0.2)` can land one off the exact value (for example `int(0.29*100)` is 28 in float64), while the model uses exact cents.
- Integers are unbounded in the model, while every integer of the source is a 64-bit Go `int`, and converting an out-of-range float64 to `int` gives an implementation-dependent value. None of these overflows is modelled: `int(floatVal)` for totals of 2^63 and more (main.go:89); `int(floatVal*100)` for totals of about 2^63/100 ≈ 9.22e16 and more (main.go:93); `int(math.Ceil(itemPrice*0.2))` for prices of 5·2^63 and more (main.go:107); and the `points` accumulator itself (main.go:77-135).
- TotalBonusValues: holds for the model's unbounded cents only. For a total such as "100000000000000000" the source's `int(floatVal*100)` overflows (main.go:93), so on amd64 the source can add the 50 points without the 25.
- `unicode.IsLetter` and `unicode.IsDigit` (main.go:81) are restricted to ASCII in `IsAlphanumeric`, so letters and digits outside ASCII count no point in the model.
- Strings are sequences of Unicode scalar values. Bytes that are not valid UTF-8 cannot occur, because the JSON decoder replaces them.
- test_client/main.go reads files and sends HTTP requests. Only the submit-then-lookup sequence it performs is modelled, by `SubmitThenLookup` and `SubmitTwice`.

Two behaviours of the code are kept as they are:

- `sync.Map.Store` replaces any record already under the id, and `ReceiptStore.Store` does the same.
- A negative price such as "-5.00" parses, and ceil(price*0.2) is then negative, so the score can be negative. `PointsNonNegative` requires that no item has a negative price.

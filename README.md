# Streaming-catalogue dashboard aggregations, modelled in Dafny

This project models `src/utils.py`, the aggregation layer behind a dashboard
of streaming-platform titles. Every title is a row with a genre list, a
production-country list, a release year and a runtime. The module turns a
table of such rows into:

- the eight main genres of movies and of shows, and the ten most frequent
  countries and genres (a `Counter(...).most_common()` ranking cut to a
  prefix);
- per-year genre profiles: one record per release year, ascending, holding
  each main genre's share of that year's main-genre occurrences (rounded to
  two places for movies, unrounded for shows), the year as a string, and 0
  for absent main genres;
- per-platform genre and country breakdowns: rounded shares in
  most-common order, with the keys below a threshold (3% for genres, 2% for
  countries) folded into a trailing "Other" record;
- runtime buckets of 30 minutes;
- one-hot dummy columns for a fixed ten-key vocabulary of countries and of
  genres, plus an "other" flag.

The source builds each result step by step, so each function is a Dafny
method with a loop. Each method is proved against a specification function,
and lemmas prove what the source promises about those functions.

Modules, one per file:

- `Rows` (`rows.dfy`): the row datatype and the `.extend` loops.
- `Frequency` (`frequency.dfy`): occurrence counts, `Counter` key order, the
  stable `most_common` order and top-N prefixes.
- `Rounding` (`rounding.dfy`): `round(x, 2)`.
- `Shares` (`shares.dfy`): sums of count/total shares.
- `Ranking` (`ranking.dfy`): `common_genres`, `top10_countries`,
  `top10_genres`.
- `YearlyGenres` (`yearly.dfy`): `get_movie_genres_data`,
  `get_show_genres_data`.
- `PlatformShares` (`platform.dfy`): `get_platform_genres_data`,
  `get_platform_countries_data`.
- `Runtime` (`runtime.dfy`): `create_runtime_groups`.
- `Dummies` (`dummies.dfy`): `countries_dummy_dict`, `genres_dummy_dict`.

Representation choices:

- `Counter(xs).most_common()` is `Frequency.MostCommon`. It is a stable
  insertion sort by count, descending, of the table of distinct keys in
  first-occurrence order. Two keys with equal counts therefore keep the
  order in which they first occur (`Frequency.Outranks`).
- Shares are exact rationals (`real`). `round(x, 2)` rounds to the nearest
  hundredth, with a tie going to the even hundredth (`Rounding.Round2`).
- A per-year record is a `map<string, Cell>`, where a `Cell` is either a
  share or the year label.
- A dummy encoding either produces the column table or raises `KeyError`
  (`Dummies.Encoding`). The source raises `KeyError` when a vocabulary
  column was never created.

Two edge cases of the code:

- With no rows, the platform breakdowns return `[Other: 0]`, not an empty
  list. No division happens because the frequency table is empty. In the
  source that `0` is an integer; the model holds `0.0` (see the
  `PlatformShares.PlatformDataShape` line under "Left out").
- A main genre absent from a year is filled with the integer `0` in the
  source. The model stores the share `0.0` (see the `YearlyGenres.FillZeros`
  line under "Left out").

## Model

| member | source | states |
|---|---|---|
| Rows.Collect | src/utils.py:199-201 | The `.extend` loop yields every code of every row, row after row (`Flatten`). |
| Rows.FlattenMembers | src/utils.py:291-293 | A code is in the flattened list exactly when some row lists it. |
| Frequency.Occurrences | src/utils.py:18 | A count never exceeds the list length, and is positive exactly when the key occurs. |
| Frequency.OccurrencesSnoc | src/utils.py:18 | Extending the list by one value raises that value's count by one and no other count. |
| Frequency.Tally | src/utils.py:56 | `Counter(xs)` as a list of items: each distinct key with its count, keys in first-occurrence order (properties in `TallyInFirstOccurrenceOrder`, `TallyTotal`). |
| Frequency.Distinct | src/utils.py:56 | `Counter` keys: exactly the values of the list, each once. |
| Frequency.DistinctInFirstOccurrenceOrder | src/utils.py:56 | `Counter` keys come in order of first occurrence. |
| Frequency.TallyTotal | src/utils.py:57 | `sum(Counter(xs).values())` is the number of values counted. |
| Frequency.OutranksIsStrict | src/utils.py:18 | The most-common order is a strict total order on the distinct keys: no two keys outrank each other, and of two different keys one outranks the other. |
| Frequency.InsertKeepsRankOrder | src/utils.py:18 | One insertion step of the stable sort keeps the table faithful and in rank order; the result is a permutation of the old table plus the inserted entry, and its total grows by that entry's count. |
| Frequency.SortByCountRanks | src/utils.py:18 | Stable-sorting a first-occurrence tally by count yields the most-common order, as a permutation with the same total. |
| Frequency.TallyInFirstOccurrenceOrder | src/utils.py:18 | The tally pairs each key with its true count, keys in first-occurrence order. |
| Frequency.MostCommon | src/utils.py:18 | `most_common()`: the tally stable-sorted by count, descending (properties in `MostCommonIsRanked`). |
| Frequency.MostCommonIsRanked | src/utils.py:18-19 | `most_common()` lists every distinct value once, with its count, in descending count order, ties broken by first occurrence; its counts sum to the list length. |
| Frequency.TopKeys | src/utils.py:22 | `list(dict(most_common()[:n]).keys())` (properties in `TopKeysAreTop`, `TopKeysShape`, `TopKeysUnique`). |
| Frequency.TopKeysAreTop | src/utils.py:22-23 | The first `n` keys of `most_common()` are at most `n` keys of the list, in rank order, each outranking every key left out; fewer than `n` only when every key is in. |
| Frequency.TopKeysShape | src/utils.py:291-296 | The top-`n` list has min(n, number of distinct keys) keys and no duplicates. |
| Frequency.PrefixOfRankedIsTop | src/utils.py:295-296 | Any prefix of a most-common ranking is a top-`n` list. |
| Frequency.TopKeysUnique | src/utils.py:387-392 | The top-`n` list is unique: any list with the top-`n` properties equals the prefix of `most_common()`. |
| Frequency.TopIsPrefixOfRanked | src/utils.py:387-392 | A list with the top-`n` properties is the `n`-key prefix of any ranking of the list. |
| Ranking.CommonGenres | src/utils.py:3-25 | Because of `zip`, only the first min(#movies, #shows) rows of each table are counted; each result is the top eight of its genre list. |
| Ranking.Top10Countries | src/utils.py:283-298 | The result is the top ten production countries of the table. |
| Ranking.Top10Genres | src/utils.py:379-394 | The result is the top ten genres of the table. |
| Rounding.Round2 | src/utils.py:62 | `round(x, 2)` is a whole number of hundredths within half a hundredth of `x`; an exact tie goes to the even hundredth. |
| Rounding.Round2OfHundredths | src/utils.py:215 | Rounding a value that already has two decimals leaves it unchanged. |
| Rounding.Round2Idempotent | src/utils.py:215 | Rounding the already rounded share again, as the source does, changes nothing. |
| Rounding.Round2Monotone | src/utils.py:211 | Rounding never reverses the order of two values. |
| Rounding.HundredthsAdd | src/utils.py:213 | A sum of two-decimal values has two decimals, so the `other` sum stays in hundredths. |
| Rounding.Round2OfShare | src/utils.py:62 | A share in [0, 1] stays in [0, 1] when rounded. |
| Shares.ShareSumIsTotalShare | src/utils.py:57-62 | The shares count/total of a table sum to its total count over `total`. |
| Shares.TallySharesSumToOne | src/utils.py:113-115 | The exact shares of all keys of a non-empty list sum to one. |
| YearlyGenres.Decimal | src/utils.py:63 | A year's decimal text is non-empty, made of digits, and starts with `0` only for the single digit of zero. |
| YearlyGenres.DecimalRoundTrip | src/utils.py:63 | Reading the decimal text back gives the number. |
| YearlyGenres.YearString | src/utils.py:63 | `str(year)` reads back as the year, so distinct years get distinct labels; it is in canonical form: a minus sign exactly for negative years, then digits with no leading zero (zero is `0`). |
| YearlyGenres.InsertYear | src/utils.py:43 | Inserting a year into an ascending list keeps it strictly ascending and adds exactly that year. |
| YearlyGenres.SortedYears | src/utils.py:43 | `sorted(unique(release_year))` is strictly ascending and holds exactly the years of the rows. |
| YearlyGenres.RowsOfYear | src/utils.py:48 | `df[df.release_year == year]`: the rows of that year (which rows, and how many times each, are the two lemmas below). |
| YearlyGenres.RowsOfYearMembers | src/utils.py:48 | The year filter keeps exactly the rows released in that year. |
| YearlyGenres.RowsOfYearCounts | src/utils.py:48 | The filter keeps every row of that year as many times as the table holds it, and no other row: identical titles all count. |
| YearlyGenres.KeepMain | src/utils.py:51-54 | The main-genre occurrences of a list, in order (properties in the lemmas below). |
| YearlyGenres.KeepMainMembers | src/utils.py:51-54 | A genre is gathered exactly when it occurs in the year's rows and is a main genre; other genres are dropped. |
| YearlyGenres.KeepMainCounts | src/utils.py:51-54 | A main genre keeps all its occurrences. |
| YearlyGenres.KeepMainSnoc | src/utils.py:52-54 | One more genre is appended exactly when it is a main genre. |
| YearlyGenres.AppendMainGenres | src/utils.py:52-54 | The inner loop appends exactly the main genres of one row, in order. |
| YearlyGenres.CollectMainGenres | src/utils.py:51-54 | The nested loop gathers the main-genre occurrences of all the year's rows, in order. |
| YearlyGenres.YearRecord | src/utils.py:56-69 | One year's record: each counted genre at its share, "year" at `str(year)`, every other main genre at 0 (properties in `YearRecordShape`). |
| YearlyGenres.RewriteStep | src/utils.py:60-62 | Rewriting one count as its share keeps the other keys' values and advances the rewritten prefix by one. |
| YearlyGenres.CountsToShares | src/utils.py:56-62 | After the rewrite loop every counted genre holds count/total (rounded when asked), and the keys are the counted genres. |
| YearlyGenres.ZeroStep | src/utils.py:68-69 | Giving one missing main genre a zero keeps every present value equal to the record's value. |
| YearlyGenres.FillZeros | src/utils.py:66-69 | The zero-fill loop over `set(main) - keys` completes the record: the year's record exactly. |
| YearlyGenres.AbsentGenreIsZero | src/utils.py:69 | A genre with no occurrence that year has share 0. |
| YearlyGenres.RecordFromValues | src/utils.py:56-69 | A map with the record's keys and the record's value at every key is the record. |
| YearlyGenres.BuildYearRecord | src/utils.py:56-69 | Rewriting, labelling and zero-filling build exactly the year's record. |
| YearlyGenres.RecordOfYear | src/utils.py:48-69 | One pass of the year loop builds the record of that year's rows. |
| YearlyGenres.RecordsOfYears | src/utils.py:46-73 | The year loop appends one record per year, in the given order. |
| YearlyGenres.GenresByYear | src/utils.py:43-73 | The result is the yearly series: the record of each distinct year, ascending. |
| YearlyGenres.MovieGenresData | src/utils.py:28-73 | Movie profiles are the yearly series with shares rounded to two places. |
| YearlyGenres.ShowGenresData | src/utils.py:76-126 | Show profiles are the yearly series with exact shares. |
| YearlyGenres.Series | src/utils.py:43-73 | The record of each distinct release year, ascending (properties in `SeriesShape`). |
| YearlyGenres.SeriesShape | src/utils.py:43-71 | One record per distinct release year, years ascending; each record's keys are exactly the main genres and "year", and "year" holds `str(year)`. |
| YearlyGenres.ShareInUnitInterval | src/utils.py:62 | Every share, rounded or not, is in [0, 1]. |
| YearlyGenres.YearRecordShape | src/utils.py:56-69 | A record's keys are the main genres and "year"; "year" holds the label; every other value is a share in [0, 1]; a year without main-genre occurrences is all zeros. |
| YearlyGenres.CellSumIsShareSum | src/utils.py:113-115 | The unrounded record's values for the counted genres are the shares of the tally. |
| YearlyGenres.UnroundedSharesSumToOne | src/utils.py:109-116 | In the show variant, when no genre is named "year", the shares of the genres a year has sum to exactly one. A genre named "year" has its share overwritten by the year label (src/utils.py:116). |
| YearlyGenres.YearGenresCounts | src/utils.py:48-54 | A genre is counted for a year exactly when it is a main genre listed by that year's rows, with all its occurrences. |
| PlatformShares.Capitalize | src/utils.py:215 | `capitalize()` keeps the length, upper-cases the first character and lower-cases the rest. |
| PlatformShares.RoundedShare | src/utils.py:211 | `round(count / total, 2)` is a whole number of hundredths, and in [0, 1] when the count is at most the total. |
| PlatformShares.Passing | src/utils.py:210-215 | The kept entries are exactly the table's entries whose rounded share reaches the threshold, and never more than the table has. |
| PlatformShares.PassingKeepsRankOrder | src/utils.py:210-215 | Keeping only the passing entries of a table in most-common order leaves them in most-common order. |
| PlatformShares.Folded | src/utils.py:208-213 | The `other` accumulator, the sum of the rounded shares below the threshold, is a whole number of hundredths. |
| PlatformShares.OtherIsFold | src/utils.py:217 | In exact arithmetic `round(other, 2)` changes nothing: "Other" holds the fold itself. |
| PlatformShares.NonEmptyTableHasItems | src/utils.py:206 | A non-empty frequency table comes from a non-empty list, so the total is positive before any division. |
| PlatformShares.WalkStep | src/utils.py:211-215 | One more table entry adds its record when its rounded share reaches the threshold, and adds that share to `other` otherwise. |
| PlatformShares.WalkTable | src/utils.py:210-216 | The loop emits exactly the records of the passing entries, in table order. |
| PlatformShares.PlatformData | src/utils.py:203-219 | The breakdown: the records of the passing keys in most-common order, then "Other" (properties in `PlatformDataShape`, `OtherIsRest`, `PassingKeys`, `SharesSumNearOne`). |
| PlatformShares.AggregateShares | src/utils.py:203-219 | The result is the breakdown of the values: kept records in most-common order, then "Other" holding the rounded fold. |
| PlatformShares.PlatformGenresData | src/utils.py:191-219 | Genre breakdown with capitalized labels and a 3% threshold. |
| PlatformShares.PlatformCountriesData | src/utils.py:223-251 | Country breakdown with raw labels and a 2% threshold. |
| PlatformShares.RoundedShareMonotone | src/utils.py:211 | A larger count never gets a smaller rounded share. |
| PlatformShares.PassingKeepsOrder | src/utils.py:210-215 | Dropping entries below the threshold keeps the descending count order. |
| PlatformShares.RecordSumSnoc | src/utils.py:215 | Appending a record adds its value to the sum of the values. |
| PlatformShares.RecordsSnoc | src/utils.py:215 | Appending a kept entry appends its record. |
| PlatformShares.KeptPlusFolded | src/utils.py:210-215 | Every rounded share lands in exactly one place: the kept values plus `other` equal the sum of all rounded shares. |
| PlatformShares.RoundedSumNearExact | src/utils.py:211 | Rounding moves the sum of the shares by at most half a hundredth per key. |
| PlatformShares.KeptRecordsInOrder | src/utils.py:210-215 | Kept values reach the threshold and never increase along the list. |
| PlatformShares.MostCommonDescending | src/utils.py:203 | `most_common()` counts never increase along the table. |
| PlatformShares.PlatformDataShape | src/utils.py:207-217 | One record per passing key, labelled by the key (capitalized for genres), in most-common order, with values at or above the threshold and non-increasing; then exactly one "Other", last; empty input gives exactly `[Other: 0]`. |
| PlatformShares.OtherIsRest | src/utils.py:213-217 | "Other" holds, rounded, the part of the rounded-share sum that the kept records do not. |
| PlatformShares.PassingKeys | src/utils.py:210-215 | A key gets its own record exactly when it occurs and its rounded share reaches the threshold. |
| PlatformShares.PassingKeysOfTable | src/utils.py:210-215 | For any faithful table holding every key: a key is kept exactly when its rounded share reaches the threshold. |
| PlatformShares.KeptKeyPasses | src/utils.py:212-215 | A kept key occurs and its rounded share reaches the threshold. |
| PlatformShares.PassingKeyKept | src/utils.py:212-215 | A key of the table whose rounded share reaches the threshold is kept. |
| PlatformShares.SharesSumNearOne | src/utils.py:206-217 | All emitted values, "Other" included, add up to one within half a hundredth per distinct key plus half a hundredth. |
| Runtime.RuntimeGroup | src/utils.py:264-277 | Each label holds for exactly its interval: (0,30], (30,60], (60,90], (90,120]; "120_150" for all of (120,180]; ">=180" for everything else, zero and negatives included. |
| Runtime.CreateRuntimeGroups | src/utils.py:255-279 | One label per row, in row order, each the row runtime's bucket. |
| Runtime.RuntimeBoundaries | src/utils.py:264-277 | 30 is "0_30", 30.01 is "30_60", 180 is "120_150", 181, 0 and -5 are ">=180". |
| Dummies.Column | src/utils.py:318-321 | A key's column has one entry per row: 1 exactly when the row lists the key, 0 otherwise. |
| Dummies.OtherColumn | src/utils.py:368-373 | The "other" column has one entry per row: 1 exactly when the row lists a key outside the caller's list. |
| Dummies.FirstMissing | src/utils.py:318-366 | Names the first vocabulary key missing from the caller's list: every earlier key is present. |
| Dummies.ColumnNameInjective | src/utils.py:313 | Different keys get different `dummy_` column names. |
| Dummies.ColumnGrows | src/utils.py:318-321 | One more row appends that row's 0/1 entry to a key's column. |
| Dummies.OtherColumnGrows | src/utils.py:370-373 | One more row appends that row's 0/1 entry to the "other" column. |
| Dummies.SetDifferenceNonEmpty | src/utils.py:368-370 | `len(set(row) - set(top)) > 0` holds exactly when the row lists a key outside `top`. |
| Dummies.CreateColumns | src/utils.py:311-315 | One empty column per key of the caller's list, plus the empty "other" column, and nothing else. |
| Dummies.FillVocabulary | src/utils.py:318-366 | The ten appends for one row: `KeyError` for the first vocabulary key without a column exactly when one is missing; otherwise every vocabulary column gains the row's entry and every other column is unchanged. |
| Dummies.Append | src/utils.py:318-321 | One append changes only that key's column. |
| Dummies.EncodeRow | src/utils.py:317-373 | One pass of the row loop keeps the table filled for the rows seen, or raises the same `KeyError`. |
| Dummies.Encodes | src/utils.py:312-373 | What an encoding must be: `KeyError` for the first vocabulary key without a column exactly when there is a row and such a key; otherwise the filled table. |
| Dummies.DummyDict | src/utils.py:302-375 | With at least one row, a vocabulary key missing from the caller's list raises `KeyError` for the first such key. Otherwise the columns are the caller's keys plus "other"; every vocabulary column marks exactly the rows listing its key; "other" marks the rows with a key outside the caller's list; caller keys outside the vocabulary keep empty columns. |
| Dummies.CountriesDummyDict | src/utils.py:302-375 | The above for production countries, with the country vocabulary US, GB, IN, CA, FR, DE, JP, ES, IT, AU. |
| Dummies.GenresDummyDict | src/utils.py:398-471 | The above for genres, with the genre vocabulary drama, comedy, thriller, action, romance, crime, family, fantasy, european, scifi. |

## Left out

- `html_style` (src/utils.py:130-187) is not part of this model. It only returns constant HTML and CSS text.
- The pandas table is a `seq<Row>`.
  - `df.release_year.unique()` and `sorted` are `YearlyGenres.SortedYears`.
  - The boolean mask `df[df.release_year == year]` is `YearlyGenres.RowsOfYear`.
  - Column access is `Rows.Values`.
  - The DataFrame library itself is not modelled.
- `Counter`, `most_common` and `sorted` are library calls. They are modelled as functions (`Frequency.Tally`, `Frequency.MostCommon`, `YearlyGenres.SortedYears`), not as their hash-table or Timsort internals.
- Floating point is not modelled. Shares are exact rationals, so the model does not reproduce binary representation effects. For example, Python's `round(2.675, 2)` gives 2.67. Drift in the `other` accumulator and NaN runtimes are left out for the same reason.
- Dictionary key order is not modelled: a per-year record is a map.
- Rounding.Round2: rounds the exact rational half-to-even. Python's `round` does the same only where the tie is an exact binary value; among shares that means 1/8, 3/8, 5/8 and 7/8. At every other decimal tie, Python rounds the nearest double, which lies just above or just below the tie, so the model agrees with it only by chance.
  - `round(1/40, 2)` is 0.03 in Python and `RoundedShare(1, 40)` is 0.02 in the model.
  - `round(3/200, 2)` is 0.01 in Python and 0.02 in the model.
  - `round(3/40, 2)` is 0.07 in Python and 0.08 in the model.
  - Such a difference can move a key across the threshold. A genre occurring once in 40 passes the 3% threshold in the source (src/utils.py:211-215) but is folded into "Other" in the model. A country occurring 3 times in 200 is folded at 2% in the source but kept in the model.
  - `PlatformShares.PassingKeys`, `PlatformShares.PlatformDataShape`, `PlatformShares.KeptRecordsInOrder`, `PlatformShares.SharesSumNearOne` and the other `PlatformShares` lemmas therefore describe the model's rounding. At such ties, a key can fall on the other side of the 3% or 2% threshold than in the source, and the rounded movie shares of `YearlyGenres.MovieGenresData` can differ by one hundredth.
- YearlyGenres.FillZeros: stores `Share(0.0)` for a missing main genre. The source stores the integer `0`, which is equal in value but not in type.
- PlatformShares.PlatformDataShape: the trailing "Other" value is the real `0.0` when nothing is folded, including empty input. The source starts `other = 0` as an integer (src/utils.py:208, 240), and `round(0, 2)` stays the integer `0`, so it returns `0`. The two are equal in value but not in type.
- PlatformShares.Capitalize: covers ASCII letters only. Python's `str.capitalize` also maps non-ASCII letters and title-cases the first character.
- A genre spelled "other" gets the label "Other" after `capitalize()`. It then shares its label with the trailing "Other" record, just as in the source. The model keeps both records and claims nothing unique about the label.
- Dummies.FillVocabulary: the source's ten unrolled `if` blocks are one loop over the vocabulary sequence, in the same order and with the same appends.
- A raised `KeyError` is modelled as the `Dummies.Encoding.KeyError` result. The columns already appended before the failing key are not observable, because the exception discards the table.
- PlatformShares.ShareRecord: one record type with a `name` field serves both breakdowns. The source's genre records use the key `'genre'` and its country records the key `'country'`; that distinction is not modelled.
- A year is an `int`. `str(year)` is modelled for integers only; float-typed years in the table are not.

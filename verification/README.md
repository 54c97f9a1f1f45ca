# Spotify 2023 dashboard: cleaning and indicators, in Dafny

The dashboard in `scriptDATAVIZ.js` loads the "most streamed Spotify songs 2023" CSV file and
cleans its rows. From the cleaned tracks it computes:

- three headline indicators:
  - the most streamed track;
  - the rounded average tempo;
  - the artist with the most tracks;
- the data behind two charts:
  - the ten most frequent artists;
  - the acoustic/energy balance.

This project models that data path and proves what each step promises.

- `options.dfy`, module `Options`: the `Option` type. `None` stands for JavaScript's NaN and `undefined` results.
- `text.dfy`, module `Text`: the string primitives the cleaning relies on, with ECMAScript's meaning.
  - `trim` and `split(',')[0]`.
  - The digit filter `replace(/[^0-9]/g, '')`.
  - The global `parseInt`: leading white space, sign, `0x` prefix, longest digit run.
  - The `|| 0` coercion.
  - Two spellings used as test inputs: the decimal spelling of a number, and a count grouped with thousands separators (`"1,234,567"`).
- `cleaning.dfy`, module `Cleaning`: the row-to-record mapping and the validity filter (positive tempo, non-blank title, stream count in (0, 4e9)).
- `indicators.dfy`, module `Indicators`:
  - the top-track reduction, whose ties keep the first track;
  - the average tempo, with `Math.round` on exact rationals.
- `tally.dfy`, module `ArtistTally`:
  - the artist tally: a loop that updates a dictionary, modelled as a method over a `map` with a loop invariant and proved equal to a reference function;
  - the stable descending sort of `Object.entries`;
  - the top artist;
  - the top-10 series, in ascending order for the horizontal bar chart.
- `balance.dfy`, module `Balance`: the acoustic/energy percentages of the mirror chart.
- `dashboard.dfy`, module `Dashboard`:
  - `calculerIndicateurs`, as a method returning the three indicators;
  - the CSV callback, as a method from raw rows to the page's data.

Two facts about the code that a reader might expect otherwise:

- The cleaned record keeps the whole trimmed credit, `"A, B"` say (`scriptDATAVIZ.js:150`). Only the tally keys take the first artist (lines 233 and 386). `Cleaning.CleanRow` keeps the whole credit, and `Dashboard.SampleKey` shows that the tally key of `"A, B"` is `"A"`.
- With exact arithmetic, the two balance percentages add up to 100 or 101, never 99 (`Balance.PercentagesBounds`). `Balance.PercentagesMaySumTo101` shows that 101 is reached. The code computes in binary64, where this bound does not hold; see "Left out".

## Model

| member | source | states |
|---|---|---|
| Text.TrimStart | scriptDATAVIZ.js:143 | Only white space is cut from the front, and what is left is empty or begins with a non-space |
| Text.TrimEnd | scriptDATAVIZ.js:143 | Only white space is cut from the back, and what is left is empty or ends with a non-space |
| Text.TrimSlice | scriptDATAVIZ.js:143 | The trimmed text is a middle slice of the input, and only white space is cut off at either end |
| Text.TrimEnds | scriptDATAVIZ.js:143 | The trimmed text neither begins nor ends with white space |
| Text.TrimEmpty | scriptDATAVIZ.js:149 | Trimming leaves nothing exactly when the input is all white space |
| Text.TrimWithin | scriptDATAVIZ.js:233 | Every character of the trimmed text is a character of the input |
| Text.TrimIdempotent | scriptDATAVIZ.js:149-150 | Trimming a trimmed title or credit changes nothing |
| Text.BeforeFirst | scriptDATAVIZ.js:233 | `split(',')[0]` is a prefix of the credit without a comma, followed in the credit by a comma or by nothing |
| Text.BeforeFirstOf | scriptDATAVIZ.js:233 | For `a + "," + b` with no comma in `a`, the first part is exactly `a` |
| Text.DigitsOnly | scriptDATAVIZ.js:144 | Removing every non-digit leaves only decimal digits and never lengthens the text |
| Text.DigitsOnlyEmpty | scriptDATAVIZ.js:144 | Nothing is left exactly when the text holds no digit |
| Text.DigitsOnlyAppend | scriptDATAVIZ.js:144 | The digit filter works piecewise over a concatenation |
| Text.DigitsOnlyTrim | scriptDATAVIZ.js:143-144 | Trimming before removing non-digits leaves the same digits |
| Text.DigitsOnlyOfDigits | scriptDATAVIZ.js:144 | A text of digits only is left unchanged |
| Text.Trim | scriptDATAVIZ.js:143-150 | `String.prototype.trim` never lengthens the text; its exact behaviour is stated by the TrimSlice, TrimEnds and TrimEmpty lemmas |
| Text.ParseInt | scriptDATAVIZ.js:146-158 | Defines the global `parseInt` with radix detection; its behaviour is stated by the ParseInt lemmas |
| Text.IntOrZero | scriptDATAVIZ.js:152-158 | Defines `parseInt(s) or 0`: NaN becomes 0 |
| Text.ParseIntWithoutDigits | scriptDATAVIZ.js:152-158 | A column without any decimal digit parses to NaN, which the fallback to 0 then turns into 0 |
| Text.ParseIntDecimal | scriptDATAVIZ.js:146 | A non-empty string of digits parses to the number it denotes |
| Text.DecimalRoundTrip | scriptDATAVIZ.js:152-158 | Parsing the decimal spelling of `n` gives back `n` |
| Text.ParseIntPrefix | scriptDATAVIZ.js:152-158 | `parseInt` skips leading white space, honours a leading minus and ignores whatever follows the digits (as in `"120.5"`) |
| Text.ParseIntAfterSpaces | scriptDATAVIZ.js:152-158 | Leading white space does not change what `parseInt` reads |
| Text.GroupedRoundTrip | scriptDATAVIZ.js:143-146 | Stripping the separators from a count written `"1,234,567"` leaves digits that spell the count |
| Cleaning.Column | scriptDATAVIZ.js:143-150 | Defines the text of a column: the row's value, or the empty string when the row lacks the column |
| Cleaning.CleanRow | scriptDATAVIZ.js:141-159 | Defines the map callback: trimmed title and credit, the stream count, and `parseInt(...) or 0` of each numeric column; its behaviour is stated by the lemmas below |
| Cleaning.Keep | scriptDATAVIZ.js:160-165 | Defines the filter predicate: positive tempo, non-empty title, stream count in (0, 4e9) |
| Cleaning.Clean | scriptDATAVIZ.js:141-166 | The cleaned set has no more records than there are rows, and every record passes the filter |
| Cleaning.StreamCount | scriptDATAVIZ.js:143-146 | The stream count is never negative |
| Cleaning.Records | scriptDATAVIZ.js:141-159 | Mapping gives one record per row, in row order |
| Cleaning.Valid | scriptDATAVIZ.js:160-166 | The filter keeps only records that pass the validity test and never adds any |
| Cleaning.ValidMembers | scriptDATAVIZ.js:160-166 | A record is kept exactly when it is in the input and passes the validity test |
| Cleaning.ValidAppend | scriptDATAVIZ.js:160-166 | Filtering a concatenation is concatenating the filtered parts, so order is kept |
| Cleaning.CleanAppend | scriptDATAVIZ.js:141-166 | Cleaning a concatenation of rows is concatenating the cleaned parts |
| Cleaning.CleanMembers | scriptDATAVIZ.js:141-166 | The cleaned set holds exactly the records of input rows that pass the filter |
| Cleaning.CleanOne | scriptDATAVIZ.js:141-166 | A single row survives exactly when its record passes the filter |
| Cleaning.StreamCountDigits | scriptDATAVIZ.js:143-146 | The stream count is the number the column's digits spell, or 0 when there are none |
| Cleaning.StreamCountGrouped | scriptDATAVIZ.js:143-146 | A count written with thousands separators is read as the count itself |
| Cleaning.NoStreamDigitsDropped | scriptDATAVIZ.js:143-164 | A row whose stream column has no digit gets 0 streams and is dropped |
| Cleaning.UnparsableBpmDropped | scriptDATAVIZ.js:152-162 | A row whose tempo does not parse gets tempo 0 and is dropped |
| Cleaning.BlankTitleDropped | scriptDATAVIZ.js:149-163 | A row whose title is blank after trimming is dropped |
| Cleaning.TooManyStreamsDropped | scriptDATAVIZ.js:143-165 | A row whose stream column's digits spell 4e9 or more gets that count and is dropped, however the column is written |
| Cleaning.TooManyGroupedStreamsDropped | scriptDATAVIZ.js:143-165 | A row whose stream count of 4e9 or more is written with thousands separators is dropped |
| Cleaning.WellFormedRowKept | scriptDATAVIZ.js:141-166 | A row whose stream digits spell a count in (0, 4e9), whose tempo parses to a positive integer and whose title is not blank is kept, with that count and that tempo |
| Cleaning.GroupedRowKept | scriptDATAVIZ.js:141-166 | The same for a stream count written with thousands separators and a tempo written in decimal |
| Indicators.Round | scriptDATAVIZ.js:224-226 | `Math.round(x)` is an integer within one half of `x`, with halves rounded up |
| Indicators.SumBpm | scriptDATAVIZ.js:225 | Defines the left fold that adds up the tempos |
| Indicators.MeanBpm | scriptDATAVIZ.js:224-226 | The average tempo is the integer nearest to the exact mean, halves rounded up |
| Indicators.RoundQuotient | scriptDATAVIZ.js:224-226 | `Math.round(p / q)` is `(2p + q) div 2q`, the integer nearest to `p / q` with halves rounded up |
| Indicators.BestByStreams | scriptDATAVIZ.js:213-214 | The fold's result has at least as many streams as the start and every item. It is the start or the first item that beats it with that many streams |
| Indicators.TopTrack | scriptDATAVIZ.js:213-214 | The top track is a track of the set with the most streams, and the first such track in set order |
| Indicators.TopTrackOfCleaned | scriptDATAVIZ.js:213-214 | The top track of a cleaned set passes the filter: stream count in (0, 4e9) |
| Indicators.SumBpmBounds | scriptDATAVIZ.js:225 | With every tempo in [lo, hi], the tempo sum lies between `n * lo` and `n * hi` |
| Indicators.MeanBpmBounds | scriptDATAVIZ.js:224-226 | The rounded average is the integer nearest to the exact mean (halves up) and lies between the smallest and largest tempo |
| Indicators.MeanBpmPositive | scriptDATAVIZ.js:224-226 | A set of valid records has an average tempo of at least 1 |
| Indicators.MeanBpmOfCleaned | scriptDATAVIZ.js:224-226 | The average tempo of a non-empty cleaned set is at least 1 |
| Indicators.MaxBpm | scriptDATAVIZ.js:224-226 | The largest tempo is a tempo of the set, and every tempo is at most it |
| ArtistTally.ArtistKey | scriptDATAVIZ.js:233 | Defines the tally key: the credit cut at its first comma, then trimmed |
| ArtistTally.Tally | scriptDATAVIZ.js:230-237 | The reference tally has one entry per distinct key, in first-appearance order |
| ArtistTally.SortByCount | scriptDATAVIZ.js:237-238 | The sort keeps the number of entries; SortPermutation, SortDescending and SortStable state the rest |
| ArtistTally.TopTen | scriptDATAVIZ.js:393-396 | Defines the series: the first ten sorted entries, reversed; the TopTen lemmas state its properties |
| ArtistTally.ArtistKeyNoComma | scriptDATAVIZ.js:233 | The tally key of a track holds no comma: only the first credited artist counts |
| ArtistTally.CountedMembers | scriptDATAVIZ.js:386-389 | With the empty-name guard, exactly the non-empty keys are counted; without it, every key is |
| ArtistTally.FirstAppearancesFacts | scriptDATAVIZ.js:230-235 | The dictionary's keys, in insertion order, are distinct and are exactly the keys met |
| ArtistTally.TallyStep | scriptDATAVIZ.js:234 | One increment of a key's count, starting from 0 for a new key, keeps every key's count equal to its number of occurrences so far |
| ArtistTally.CountKeys | scriptDATAVIZ.js:230-235 | The loop over the keys builds exactly the reference tally: entries in first-appearance order, each with its occurrence count |
| ArtistTally.CountArtists | scriptDATAVIZ.js:384-390 | The tally of a set of tracks is the reference tally of their first-artist keys, with or without the empty-name guard |
| ArtistTally.TallyEntries | scriptDATAVIZ.js:230-237 | Every entry names a key of the input with its true count (at least 1). Entries are distinct, and every key has one |
| ArtistTally.TallySum | scriptDATAVIZ.js:230-235 | The counts add up to the number of keys counted |
| ArtistTally.SortPermutation | scriptDATAVIZ.js:237-238 | Sorting the entries permutes them |
| ArtistTally.SortDescending | scriptDATAVIZ.js:237-238 | Sorted entries come in non-increasing count |
| ArtistTally.SortStable | scriptDATAVIZ.js:237-238 | Entries with equal counts keep their relative order (a stable sort) |
| ArtistTally.SortHead | scriptDATAVIZ.js:237-238 | The first sorted entry has the largest count, and it is the first entry with that count |
| ArtistTally.SortDistinct | scriptDATAVIZ.js:237-238 | Sorting keeps artists distinct |
| ArtistTally.TallyHead | scriptDATAVIZ.js:230-238 | The top entry is a key with its true count, no key has more, and it is the earliest-met key with that count |
| ArtistTally.TopArtist | scriptDATAVIZ.js:230-238 | The top artist is a first-artist key of the set with its true count and the largest count; ties go to the artist met first |
| ArtistTally.ReversedPrefix | scriptDATAVIZ.js:393-396 | Reversing the first `m` entries of a descending list gives ascending counts. No entry past them counts more than the smallest kept |
| ArtistTally.TopTenShape | scriptDATAVIZ.js:393-396 | The series has min(10, number of artists) entries in non-decreasing count |
| ArtistTally.TopTenCounts | scriptDATAVIZ.js:384-396 | Every bar names a counted artist with its true count |
| ArtistTally.TopTenDistinct | scriptDATAVIZ.js:384-396 | No artist gets two bars |
| ArtistTally.TopTenExcluded | scriptDATAVIZ.js:393-396 | An artist left out of the series counts no more than the smallest bar |
| ArtistTally.TopTenNamed | scriptDATAVIZ.js:384-396 | With the empty-name guard, every bar names a non-empty key of the input with its true count |
| ArtistTally.TopTenOmitted | scriptDATAVIZ.js:384-396 | With the empty-name guard, every non-empty key left out counts no more than the smallest bar |
| ArtistTally.TopTenArtists | scriptDATAVIZ.js:384-396 | The loop and the sort compute exactly the reference series `TopTen`, so artists with equal counts keep their first-met order. The bar series has min(10, number of named artists) entries in ascending count. Each is a distinct, non-empty first-artist key with its true count, and no artist left out counts more than the smallest bar |
| Balance.Total | scriptDATAVIZ.js:471-472 | Defines the left fold that adds up one level over the set |
| Balance.Percentages | scriptDATAVIZ.js:468-482 | Defines the two displayed percentages in the code's order of operations, in exact arithmetic |
| Balance.PercentagesOfTotals | scriptDATAVIZ.js:468-482 | The track count and the factor 100 cancel: each percentage is the rounded share of its total in the sum of both totals |
| Balance.TotalNonNegative | scriptDATAVIZ.js:471-472 | Non-negative levels give a non-negative total |
| Balance.PercentagesBounds | scriptDATAVIZ.js:476-482 | In exact arithmetic, with non-negative levels not all 0, both percentages lie in [0, 100] and they add up to 100 or 101 |
| Balance.SharesBounds | scriptDATAVIZ.js:481-482 | Two rounded shares of a positive total each lie in [0, 100] and add up to 100 or 101 |
| Balance.RoundedShare | scriptDATAVIZ.js:481-482 | The rounded percentage share of `x` in `t` is the integer quotient `(200x + t) div 2t` |
| Balance.PercentagesMaySumTo101 | scriptDATAVIZ.js:481-482 | One track with acousticness 1 and energy 7 shows 13 and 88: independent rounding can overshoot 100 |
| Balance.PercentagesUndefined | scriptDATAVIZ.js:468-482 | An empty set, or one whose levels are all 0, has no percentages (NaN in the code) |
| Dashboard.ComputeIndicators | scriptDATAVIZ.js:210-245 | An empty set has no indicators. Otherwise: the top track has the most streams and is the first such track; the tempo is the rounded mean; the top artist is a first-artist key with its true and largest count, and the first met of those with that count |
| Dashboard.Render | scriptDATAVIZ.js:134-182 | No page when nothing survives cleaning. Otherwise: the top track of the cleaned set, which is valid; its rounded mean tempo, at least 1; exactly the reference top-10 series, at most ten bars; and the balance of the cleaned set |
| Dashboard.SampleKey | scriptDATAVIZ.js:233 | A track credited `"A, B"` is tallied under `"A"` |

## Left out

- Loading the CSV file with Papa Parse (lines 129-135) and its error callback (lines 191-195) are left out. A raw row is a map from column name to text, with header handling and empty-line skipping already done.
- Everything drawn or animated is left out: the Plotly traces, layouts and colours; `animerCompteur`; `formaterNombre`; the `setTimeout` delays; the DOM updates; the scroll reveal. The model stops at the values handed to them.
- The BPM histogram and the danceability/valence heat map are left out. They are charts that do not feed the indicators.
- Floating point is replaced by exact arithmetic. `Math.round` is taken on exact rationals (`Indicators.Round`). `parseInt` gives an exact integer, including beyond 2^53; every such stream count is filtered out anyway. `parseFloat` of an integer-valued level returns it unchanged. For the balance this changes results. At exact halves the chain of doubles at lines 476-482 can land just below .5 and round down. One track with acousticness 17 and energy 23 gives 42.5 and 57.49999999999999 in doubles, so the code shows 43 and 57 where `Balance.Percentages` gives 43 and 58. Fifteen tracks whose levels add up to 17 and 23 give 42.49999999999999 and 57.49999999999999, so the code shows 42 and 57, which add up to 99. The 100..101 bound of `Balance.PercentagesBounds` holds for the exact model only.
- `Balance.Percentages` is `None` where the code gets NaN or an infinity (an empty set, or levels summing to 0). Which of the two the code gets is not modelled.
- `Dashboard.ComputeIndicators` returns `None` for an empty set. The code throws a TypeError there, reading a field of `undefined`. `Dashboard.Render` returns `None` then too, because that throw stops the callback before any chart is scheduled.
- `Object.entries` is modelled in insertion order. JavaScript lists integer-like keys (an artist named `"1"`, say) first, in numeric order; that reordering is not modelled.
- Keys inherited from `Object.prototype` are not modelled. An artist named `"constructor"` would make `count[k] || 0` read a function.
- `Array.prototype.sort` is the engine's stable sort, which ECMAScript requires since 2019. It is modelled by a stable insertion sort (`ArtistTally.SortByCount`), not by the engine's algorithm.
- The tally loops (lines 231-235 and 385-390) are modelled as first computing every track's key (`ArtistTally.Keys`) and then counting them (`ArtistTally.CountKeys`). This gives the same result, because computing a key has no side effect.
- The level of a track is not checked to lie in [0, 100]. `Balance.PercentagesBounds` therefore assumes non-negative levels, as in the data set, rather than deriving them from cleaning.
- `Dashboard.Render`: its ensures ties the top track, the tempo and the bar series to their reference functions, but does not repeat the top artist's contract, which `Dashboard.ComputeIndicators` states.

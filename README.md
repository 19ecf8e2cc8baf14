# F1 Lap Trend — a verified model of its data derivations

F1 Lap Trend is a dashboard of how Formula 1 lap times evolve over the years at each circuit.
A set of pandas scripts turns the Kaggle Formula 1 CSV tables into JSON files:

- per circuit, the pole time and the race's fastest lap of each year;
- per circuit, the best qualifying and race lap of each driver;
- per circuit, the best qualifying and race lap of each constructor.

A Next.js page (`app/page.tsx`) loads those files and derives the values it charts:

- a start/end trend summary;
- per-year reference times;
- one pivoted chart row per year;
- the lists of drivers and constructors shown.

This project models that logic in Dafny and proves what each step promises.

| Dafny file | module | models |
|---|---|---|
| `wrappers.dfy` | `Wrappers` | `Option` and `Result` (a raised exception becomes `Err`) |
| `ordering.dfy` | `Ordering` | multi-column sort keys. These are pandas' `sort_values`/`groupby` key order, a stable sort, `Set`-style de-duplication in first-appearance order, and the sorted distinct values of a column. |
| `pystrings.dfy` | `PyStrings` | Python `str.strip` (removing exactly the characters `str.isspace()` holds for), `split`, `split(sep, 1)`, `lower` and `upper` (on ASCII letters), `replace`, and a case-insensitive `str.contains` |
| `pynumbers.dfy` | `PyNumbers` | Python `int()` and `float()` on text, over a decimal grammar, and the numerals `str()` prints |
| `laptimes.dfy` | `LapTimes` | the three lap-time text parsers of the scripts, and how they relate |
| `aggregate.dfy` | `Aggregate` | `groupby(...).min()`, the row minimum `min(axis=1)` over the q1..q3 / Q1..Q3 columns, and the missing-column error |
| `identifiers.dfy` | `Identifiers` | `slug_from_circuit`, `normalize_driver_code`, and the two Spa-Francorchamps lookups |
| `circuit_trend.dfy` | `CircuitTrend` | `build_all_circuits_json.py`: per-circuit `{year, pole, fastest}` files and the generated/skipped counters |
| `spa_trend.dfy` | `SpaTrend` | `build_spa_json.py`, proved equal to the all-circuits trend of the Spa circuit |
| `constructor_laps.dfy` | `ConstructorLaps` | `generate_constructor_laps_all.py`: per-(year, circuit, constructor) best laps for R and Q, per-circuit files |
| `driver_laps.dfy` | `DriverLaps` | `generate_driver_laps_all.py` and `generate_driver_laps.py`: per-driver best laps |
| `dashboard.dfy` | `Dashboard` | `app/page.tsx`: `calculateSummary`, the toggles, the reference maps, the chart pivots, the active lists, the default constructor selection and the page state (`class Page`) |

## Conventions

**Cells and values**
- A pandas cell is `Value = Missing | Num(x) | Text(s)`, where `Missing` stands for NaN/None.
- A DataFrame is a sequence of records. A merged column that can be NaN is an `Option`.
- Lap times are exact `real` numbers.

**Joins and exceptions**
- A left merge is a join whose unmatched rows keep a missing field.
- The inner merges are relational joins.
- A raised exception is an `Err` carrying the message.

**Loops**
- Where the source builds a result step by step, the model is a `method` with a loop proved against a specification function:
  - the per-column loops;
  - the `records.append` loops;
  - the `Map.set` pass;
  - the pivot row loop;
  - the file counters.
- Where the source is an expression, the model is a function.

**Duplicated code**
- A function that appears with the same text in two scripts is modelled once:
  - `time_str_to_seconds` in the two circuit-trend builders;
  - `time_str_to_seconds` and `normalize_driver_code` in the two driver-lap generators.

**Python numbers**
- Python's `float()` and `int()` are modelled on a decimal grammar:
  - optional surrounding whitespace, the characters `strip` removes;
  - an optional sign;
  - digits, with one optional decimal point for `float()`.

**Sort order**
- Text keys sort by code point, as Python compares strings.

## Model

| member | source | states |
|---|---|---|
| `LapTimes.OneColon` | f1-laptrend-data/build_all_circuits_json.py:28-34 | a value implies the text has exactly one colon |
| `LapTimes.Combine` | f1-laptrend-data/build_all_circuits_json.py:30-36 | defines `minutes * 60 + seconds` when both parts parsed, and None when either conversion raised |
| `LapTimes.ColonSeconds` | f1-laptrend-data/build_all_circuits_json.py:20-36 | only a text cell with exactly one colon gives seconds; a missing cell or a number gives `None` |
| `LapTimes.DriverSeconds` | scripts/generate_driver_laps_all.py:44-57 | a text that gives seconds has at most one colon |
| `LapTimes.OneColonParts` | f1-laptrend-data/build_all_circuits_json.py:28-32 | a parsed text is `m:sec` with colon-free parts, `int(m)` and `float(sec)` both succeed, and the value is `int(m)*60 + float(sec)` |
| `LapTimes.ColonThenDriver` | scripts/generate_driver_laps_all.py:53-55 | whatever the one-colon dialect accepts, the driver dialect accepts with the same seconds |
| `LapTimes.DriverThenConstructor` | scripts/generate_constructor_laps_all.py:27-47 | whatever the driver dialect accepts, the constructor dialect accepts with the same seconds |
| `LapTimes.ConstructorSeconds` | scripts/generate_constructor_laps_all.py:27-47 | defines `parse_lap_time_to_sec`. A missing cell gives None and a number is itself. A text is stripped; "\N" and "" give None; a text with a colon is split at its first colon, with `float` minutes and `float` seconds; any other text is `float`. Its agreement with the other dialects is proved by `DriverThenConstructor`, `OneColonAgrees` and `LapTextRoundTrip`. |
| `LapTimes.OneColonAgrees` | scripts/generate_constructor_laps_all.py:38-43 | on a one-colon text accepted by `time_str_to_seconds`, `parse_lap_time_to_sec` gives the same value |
| `LapTimes.PartsAgree` | scripts/generate_constructor_laps_all.py:38-43 | for `int` minutes and `float` seconds joined by one colon, `parse_lap_time_to_sec` gives minutes × 60 plus the seconds |
| `LapTimes.ColonFreeAgrees` | scripts/generate_constructor_laps_all.py:44-45 | on a colon-free text it parses as a number, the constructor dialect returns `float(s)` |
| `LapTimes.ConstructorSecondsColon` | scripts/generate_constructor_laps_all.py:39-43 | a text with a colon is split at its first colon, and the value is `float(minutes)*60 + float(rest)`, or `None` when either part fails |
| `LapTimes.ColonFreeText` | scripts/generate_driver_laps_all.py:47-52 | a colon-free text such as "59.1" is rejected by the circuit-trend dialect, and read as `float(s)` by the driver and constructor dialects |
| `LapTimes.NumericCell` | scripts/generate_constructor_laps_all.py:30-32 | a numeric cell: the circuit-trend dialect gives `None`, the other two return the number unchanged |
| `LapTimes.MoreColonsRejected` | scripts/generate_driver_laps_all.py:53-57 | a text with two colons or more gives `None` in all three dialects (the constructor one because its second part is not a number) |
| `LapTimes.MoreColonsConstructor` | scripts/generate_constructor_laps_all.py:40-47 | `split(":", 1)` leaves the second colon in the seconds part, which `float()` rejects |
| `LapTimes.LapTextColon` | f1-laptrend-data/build_all_circuits_json.py:28-32 | the text `M:SS.mmm` is read back as `M*60 + SS + mmm/1000` |
| `LapTimes.LapTextRoundTrip` | scripts/generate_constructor_laps_all.py:37-43 | all three dialects invert the `M:SS.mmm` rendering of a lap time, so "1:23.456" gives 83.456 |
| `LapTimes.OnePointFiveNotInt` | f1-laptrend-data/build_all_circuits_json.py:30 | `int("1.5")` fails, so one-colon dialects reject fractional minutes |
| `LapTimes.OnePointFiveFloat` | scripts/generate_constructor_laps_all.py:41 | `float("1.5")` is 1.5, which the constructor dialect's `float` minutes accept |
| `LapTimes.FractionalMinutes` | scripts/generate_constructor_laps_all.py:41 | minutes that are not an integer make the one-colon dialects give `None`, while the constructor dialect still combines `float(minutes)` and `float(seconds)` |
| `PyNumbers.PyIntThenPyFloat` | scripts/generate_driver_laps_all.py:55 | a text `int()` accepts is accepted by `float()` with the same value |
| `PyNumbers.PyInt` | f1-laptrend-data/build_all_circuits_json.py:30 | defines `int(s)`: the stripped text is an optional sign and one or more decimal digits, with their value; anything else fails. `PyIntShowNat` reads back every numeral. |
| `PyNumbers.PyFloat` | f1-laptrend-data/build_all_circuits_json.py:31 | defines `float(s)`: the stripped text is an optional sign and digits with at most one decimal point and at least one digit, with their value; anything else fails. `PyFloatDecimal` reads back fixed-digit decimals. |
| `PyNumbers.PyFloatRejects` | scripts/generate_driver_laps_all.py:49-52 | a text holding a character other than a digit, a point, a sign or whitespace is rejected by `float()` and `int()` |
| `PyNumbers.PyFloatIgnoresTrim` | scripts/generate_constructor_laps_all.py:33 | leading or trailing whitespace does not change what `float()` reads, so stripping first changes nothing |
| `PyNumbers.PyIntShowNat` | f1-laptrend-data/build_all_circuits_json.py:30 | `int()` reads back the decimal numeral of any natural number |
| `PyNumbers.PyFloatDecimal` | f1-laptrend-data/build_all_circuits_json.py:31 | `float()` reads back `whole.frac` written with a fixed number of fraction digits |
| `PyNumbers.SignedDecimalUnsigned` | scripts/generate_constructor_laps_all.py:45 | an unsigned decimal numeral is read as its decimal value |
| `PyStrings.SplitParts` | f1-laptrend-data/build_all_circuits_json.py:28-29 | `split(sep)` gives one more part than there are separators |
| `PyStrings.Strip` | f1-laptrend-data/build_all_circuits_json.py:148 | defines `s.strip()`: leading and trailing `str.isspace()` characters removed |
| `PyStrings.Split` | f1-laptrend-data/build_all_circuits_json.py:28 | defines `s.split(sep)` for a one-character separator: the texts between consecutive separators, one more than there are separators |
| `PyStrings.SplitOnce` | scripts/generate_constructor_laps_all.py:40 | defines `s.split(sep, 1)` for a text holding `sep`: the text before its first occurrence and everything after it |
| `PyStrings.Lower` | f1-laptrend-data/build_all_circuits_json.py:148 | defines `s.lower()` character by character, on ASCII letters |
| `PyStrings.Upper` | scripts/generate_driver_laps_all.py:72 | defines `s.upper()` character by character, on ASCII letters |
| `PyStrings.ReplaceChar` | f1-laptrend-data/build_all_circuits_json.py:148-149 | defines `s.replace(a, b)` for single characters: every `a` becomes `b`, the rest is kept |
| `PyStrings.RemoveChar` | f1-laptrend-data/build_all_circuits_json.py:149 | defines `s.replace(a, "")` for a single character: every `a` is dropped, the rest kept in order |
| `PyStrings.ContainsIgnoreCase` | scripts/generate_driver_laps.py:39 | defines `str.contains(pat, case=False)`: the lower-cased text contains the lower-cased pattern |
| `PyStrings.JoinSplit` | f1-laptrend-data/build_all_circuits_json.py:28 | joining the parts of `split(sep)` with `sep` restores the text |
| `PyStrings.SplitJoin` | f1-laptrend-data/build_all_circuits_json.py:28 | splitting a join of separator-free parts gives back the parts |
| `PyStrings.SplitOnceSingle` | scripts/generate_driver_laps_all.py:54 | when `split(sep)` has two parts, they are the two halves of `split(sep, 1)` |
| `PyStrings.SplitOnceOf` | scripts/generate_constructor_laps_all.py:40 | `split(sep, 1)` cuts at the first separator |
| `PyStrings.StripIdempotent` | scripts/generate_constructor_laps_all.py:33 | stripping twice is stripping once |
| `PyStrings.TrimCommute` | scripts/generate_constructor_laps_all.py:33 | stripping the two ends can be done in either order |
| `PyStrings.Find` | scripts/generate_driver_laps.py:39 | a substring search returns the first occurrence, and -1 exactly when there is none |
| `Ordering.Sort` | f1-laptrend-data/build_all_circuits_json.py:123 | the sorted rows are a permutation of the input |
| `Ordering.SortSorted` | scripts/generate_constructor_laps_all.py:142-144 | the result ascends by its key |
| `Ordering.SortHead` | app/page.tsx:92-93 | the first element of a stable sort is the first-listed element of least key |
| `Ordering.SortLast` | app/page.tsx:92-94 | the last element of a stable sort is the last-listed element of greatest key |
| `Ordering.SortOfSorted` | scripts/generate_driver_laps.py:123 | sorting rows that already ascend changes nothing |
| `Ordering.SortStrict` | app/page.tsx:307-308 | sorting distinct elements under an injective key gives a strictly ascending sequence |
| `Ordering.Dedup` | app/page.tsx:298-304 | `Array.from(new Set(xs))` is duplicate-free and holds exactly the elements of `xs` |
| `Ordering.DedupFirstAppearance` | app/page.tsx:298-304 | the de-duplicated elements keep the order of their first appearance |
| `Ordering.SortedUnique` | app/page.tsx:336-338 | the sorted distinct values strictly ascend and are exactly the input's values |
| `Ordering.Filter` | app/page.tsx:294-296 | `filter` keeps exactly the elements passing the test |
| `Ordering.FilterStrictlySorted` | app/page.tsx:340-342 | filtering keeps a strictly ascending sequence strictly ascending |
| `Ordering.StrictlySortedUnique` | scripts/generate_constructor_laps_all.py:150 | two strictly ascending sequences with the same elements are equal |
| `Aggregate.MinPresent` | f1-laptrend-data/build_all_circuits_json.py:61 | `min(axis=1, skipna=True)` is `None` exactly when every cell is missing, else a present cell no greater than any present cell |
| `Aggregate.MinPresentSkipsNone` | scripts/generate_driver_laps_all.py:60-66 | a q column absent from the table, filled with `None`, does not change the row minimum |
| `Aggregate.GroupMin` | f1-laptrend-data/build_all_circuits_json.py:101-115 | every key of the rows has an entry no greater than each of its values, and every entry is the value of a row with that key |
| `Aggregate.GroupMinIsLeast` | f1-laptrend-data/build_all_circuits_json.py:101-115 | the group minimum of `k` is `v` exactly when `(k, v)` is a row and no row of `k` is smaller |
| `Aggregate.GroupMinDomain` | scripts/generate_constructor_laps_all.py:89-95 | the groups are exactly the keys present among the rows |
| `Aggregate.GroupMinSameElements` | f1-laptrend-data/build_spa_json.py:105-111 | the group minima depend only on the set of rows, not on their order or repetition |
| `Aggregate.GroupRows` | scripts/generate_constructor_laps_all.py:89-95 | `groupby(..., as_index=False).min()` has one row per group key, carrying that group's minimum |
| `Aggregate.GroupRowsKeys` | scripts/generate_driver_laps_all.py:116-121 | every output key comes from the input, and every input key has an output row |
| `Aggregate.GroupRowsStrictlySorted` | scripts/generate_driver_laps.py:113-117 | with an injective key, the grouped rows strictly ascend by key |
| `Aggregate.GroupRowsMember` | scripts/generate_constructor_laps_all.py:126-132 | a row is in the grouped table exactly when it pairs a group with that group's minimum |
| `Aggregate.GroupRowsSameElements` | f1-laptrend-data/build_spa_json.py:85-91 | the grouped table depends only on the set of input rows |
| `Aggregate.ColumnSeconds` | f1-laptrend-data/build_all_circuits_json.py:58 | `apply(parse)` parses every row's cell of the column |
| `Aggregate.AcrossColumns` | f1-laptrend-data/build_all_circuits_json.py:56-61 | one row's parsed cell in each of the given columns, a missing cell read as NaN, in column order |
| `Aggregate.SessionSeconds` | scripts/generate_driver_laps_all.py:60-64 | defines a `<col>_sec` cell: the parsed cell when the column exists, None when it does not |
| `Aggregate.PresentColumns` | f1-laptrend-data/build_all_circuits_json.py:46-47 | the present time columns are exactly the candidates that the table has |
| `Aggregate.BestOfColumns` | f1-laptrend-data/build_all_circuits_json.py:55-61 | the column loop gives each row the least of its parsed present cells |
| `Aggregate.BestQualifying` | f1-laptrend-data/build_all_circuits_json.py:46-61 | ValueError exactly when none of Q1..Q3/q1..q3 is a column; otherwise each row's best over the present candidate columns |
| `Aggregate.BestOfSessions` | scripts/generate_driver_laps_all.py:60-66 | each row's `best_sec` is the least of its q1, q2, q3 seconds, a missing column counting as `None` |
| `Identifiers.Slug` | f1-laptrend-data/build_all_circuits_json.py:137-150 | a slug holds no space, `/` or apostrophe and no upper-case ASCII letter |
| `Identifiers.SlugBase` | f1-laptrend-data/build_all_circuits_json.py:143-146 | defines the slug's base: `circuitRef` when it is a string, the name otherwise |
| `Identifiers.Mapped` | f1-laptrend-data/build_all_circuits_json.py:148-149 | `lower()` and the two replacements keep the length and map each character by itself: a lower-cased space or '/' becomes '_' |
| `Identifiers.SlugPrefersRef` | f1-laptrend-data/build_all_circuits_json.py:143-146 | when `circuitRef` is a string the name plays no part |
| `Identifiers.SlugOfPlain` | f1-laptrend-data/build_all_circuits_json.py:140 | a base of lower-case letters, digits, `_` and `-`, such as "spa", is its own slug |
| `Identifiers.SlugIdempotent` | f1-laptrend-data/build_all_circuits_json.py:148-149 | the slug of a slug is itself, for bases without an apostrophe |
| `Identifiers.SlugStripsTrailingSpace` | f1-laptrend-data/build_all_circuits_json.py:148 | trailing whitespace of the base is dropped |
| `Identifiers.SlugApostropheKeepsSpace` | f1-laptrend-data/build_all_circuits_json.py:148-149 | apostrophes are removed after stripping, so whitespace before a trailing apostrophe stays in the slug |
| `Identifiers.Prefix3` | scripts/generate_driver_laps_all.py:75 | `surname[:3]` is a prefix of at most three characters, exactly three when the surname is that long |
| `Identifiers.NormalizeDriverCode` | scripts/generate_driver_laps_all.py:69-76 | never empty and without lower-case ASCII letters. A code that is not blank after stripping gives the stripped code upper-cased, of the same length. Without one it is the upper-cased first three letters of the surname, and "DRV" when neither is usable. |
| `Identifiers.NormalizeDriverCodeIgnoresSpaceAndCase` | scripts/generate_driver_laps.py:101-104 | codes differing only in case and surrounding whitespace give the same driver code, whatever the surnames |
| `Identifiers.NormalizeDriverCodeIdempotent` | scripts/generate_driver_laps_all.py:71-72 | a code built from a driver's code field normalizes to itself |
| `Identifiers.BlankCodeUsesSurname` | scripts/generate_driver_laps_all.py:69-76 | a code made only of Unicode whitespace (U+00A0, U+001F) strips to nothing, so the surname decides the code |
| `Identifiers.SpaCircuitId` | f1-laptrend-data/build_spa_json.py:21-31 | ValueError exactly when no circuit name contains "Spa" ignoring case; otherwise the id of the first such circuit |
| `Identifiers.CellContains` | scripts/generate_driver_laps.py:39 | defines the `astype(str).str.contains(pat, case=False, na=False)` test of one cell: a text containing the pattern, ignoring case |
| `Identifiers.FirstSpa` | f1-laptrend-data/build_spa_json.py:26-29 | the index of the first circuit from `k` whose name contains "Spa", or the length when there is none |
| `Identifiers.SpaPatternsAgree` | scripts/generate_driver_laps.py:39 | matching "spa" and "Spa" while ignoring case is the same test |
| `Identifiers.SpaCandidateId` | scripts/generate_driver_laps.py:31-54 | the OR-ed mask: RuntimeError exactly when no circuit's name or circuitRef contains "spa". Otherwise the first candidate's id, which is `SpaCircuitId`'s answer when the table has no circuitRef column. |
| `Identifiers.SpaLike` | scripts/generate_driver_laps.py:36-42 | defines the Spa mask: the name contains "spa" when circuits.csv has a name column, or the circuitRef does when it has that column |
| `CircuitTrend.JoinRaces` | f1-laptrend-data/build_all_circuits_json.py:64 | the inner merge on `raceId` holds exactly the rows matched with a race, carrying its year and circuit |
| `CircuitTrend.JoinOne` | f1-laptrend-data/build_all_circuits_json.py:64 | the inner-merge rows of one time: one per race with its raceId, carrying that race's year and circuit |
| `CircuitTrend.QualifyingBest` | f1-laptrend-data/build_all_circuits_json.py:55-61 | each qualifying row keeps its race and its best over the present Q columns |
| `CircuitTrend.PrepareQualifying` | f1-laptrend-data/build_all_circuits_json.py:38-66 | ValueError exactly when no Q column exists; otherwise the best-time rows joined with the races |
| `CircuitTrend.LapKeyed` | f1-laptrend-data/build_all_circuits_json.py:75-78 | each lap's seconds come from `milliseconds/1000` when that column exists, else from parsing `time` |
| `CircuitTrend.LapSeconds` | f1-laptrend-data/build_all_circuits_json.py:75-78 | defines `lap_sec` of one lap: milliseconds over 1000 when that column exists (None for a missing cell), the parsed `time` otherwise |
| `CircuitTrend.PrepareLaps` | f1-laptrend-data/build_all_circuits_json.py:68-82 | the prepared laps are exactly the laps matched with a race, with their seconds |
| `CircuitTrend.PresentFor` | f1-laptrend-data/build_all_circuits_json.py:95-102 | the circuit's rows with a present time, as (year, seconds) |
| `CircuitTrend.MergeOnYear` | f1-laptrend-data/build_all_circuits_json.py:117 | the inner merge on year holds exactly the years with both a pole and a fastest lap |
| `CircuitTrend.Trend` | f1-laptrend-data/build_all_circuits_json.py:101-123 | defines the merged table: the per-year least present pole joined on year with the per-year least present lap, sorted by year. `TrendPoints` and `TrendSorted` characterise it. |
| `CircuitTrend.HasRowsFor` | f1-laptrend-data/build_all_circuits_json.py:95-99 | defines the emptiness test of `q_circuit` and `lap_circuit`: some row of the table is at the circuit |
| `CircuitTrend.LaptrendFor` | f1-laptrend-data/build_all_circuits_json.py:84-135 | defines `build_laptrend_for_circuit`: [] when the circuit has no qualifying or no lap rows or fewer than two merged years, the merged table otherwise. `LaptrendShape` and `TrendPointHasRows` state its cases. |
| `CircuitTrend.PresentForLeast` | f1-laptrend-data/build_all_circuits_json.py:101-115 | a year's minimum is `v` exactly when `v` is a present time of that year at the circuit and none is smaller |
| `CircuitTrend.TrendPoints` | f1-laptrend-data/build_all_circuits_json.py:101-123 | a point is in the trend exactly when its pole is the year's least qualifying best and its fastest is the year's least lap |
| `CircuitTrend.TrendSorted` | f1-laptrend-data/build_all_circuits_json.py:117-123 | the trend's years are distinct and ascending |
| `CircuitTrend.MergeOnYearSorted` | f1-laptrend-data/build_all_circuits_json.py:117 | inner-merging year-ascending poles keeps the years strictly ascending |
| `CircuitTrend.LaptrendShape` | f1-laptrend-data/build_all_circuits_json.py:98-121 | the output is empty or has at least two years, and a trend of two years or more is written whole |
| `CircuitTrend.TrendPointHasRows` | f1-laptrend-data/build_all_circuits_json.py:98-99 | a trend point needs qualifying and lap rows at the circuit, so a circuit without either gives `[]` |
| `CircuitTrend.ToRecords` | f1-laptrend-data/build_all_circuits_json.py:125-133 | the record loop copies the merged rows in order |
| `CircuitTrend.BuildLaptrendForCircuit` | f1-laptrend-data/build_all_circuits_json.py:84-135 | `build_laptrend_for_circuit` computes the specified per-circuit trend |
| `CircuitTrend.NameText` | f1-laptrend-data/build_all_circuits_json.py:146 | defines `str(row["name"])`: a text is itself, anything else "nan" |
| `CircuitTrend.FilePath` | f1-laptrend-data/build_all_circuits_json.py:182 | defines the output path `<slug>_lap_times.json` of a circuit |
| `CircuitTrend.AllCircuitFiles` | f1-laptrend-data/build_all_circuits_json.py:165-187 | the writes of a run, in circuits.csv order, at most one per circuit; `Directory` gives the files they leave |
| `CircuitTrend.SkippedCircuits` | f1-laptrend-data/build_all_circuits_json.py:177-180 | the skipped circuits are exactly those whose `build_laptrend_for_circuit` output is empty |
| `CircuitTrend.AllCircuitFilesCount` | f1-laptrend-data/build_all_circuits_json.py:165-187 | every circuit is either written or skipped: files and skipped circuits add up to the circuits |
| `CircuitTrend.AllCircuitFilesComplete` | f1-laptrend-data/build_all_circuits_json.py:177-184 | every circuit with a non-empty trend has a write of that trend to `<slug>_lap_times.json` |
| `CircuitTrend.AllCircuitFilesFrom` | f1-laptrend-data/build_all_circuits_json.py:177-184 | every write is made for some circuit, at its slug path, with that circuit's non-empty trend |
| `CircuitTrend.AllCircuitFilesTrends` | f1-laptrend-data/build_all_circuits_json.py:120-133 | every file holds a full trend of at least two strictly ascending years |
| `CircuitTrend.Directory` | f1-laptrend-data/build_all_circuits_json.py:182-184 | the directory after a sequence of writes: every written path is present, and each holds the records of a write to it, the last one winning |
| `CircuitTrend.DirectoryOfDistinct` | f1-laptrend-data/build_all_circuits_json.py:182-184 | when no path is written twice, every write survives in the directory with its records |
| `CircuitTrend.WrittenPathAt` | f1-laptrend-data/build_all_circuits_json.py:182 | every write is at the path of some circuit of the list |
| `CircuitTrend.AllCircuitFilesDistinct` | f1-laptrend-data/build_all_circuits_json.py:165-184 | circuits with pairwise distinct paths give writes with pairwise distinct paths |
| `CircuitTrend.AllCircuitFilesDirectory` | f1-laptrend-data/build_all_circuits_json.py:165-184 | with pairwise distinct paths, the directory holds every circuit's non-empty trend at that circuit's path |
| `CircuitTrend.TwoWritesSamePath` | f1-laptrend-data/build_all_circuits_json.py:183 | two writes to one path leave a single file holding the second write's records |
| `CircuitTrend.SlugsCollide` | f1-laptrend-data/build_all_circuits_json.py:143-150 | a circuit whose `circuitRef` is already a slug shares its path with a circuit that has no `circuitRef` and is named by that slug |
| `CircuitTrend.BuildAllCircuits` | f1-laptrend-data/build_all_circuits_json.py:152-191 | ValueError exactly when no Q column exists. Otherwise the files for the circuits with a trend, `generated` equal to the number of files, `skipped` equal to the number of circuits without a trend, and the two adding up to the number of circuits. |
| `SpaTrend.RacesAt` | f1-laptrend-data/build_spa_json.py:57 | exactly the races at the circuit |
| `SpaTrend.RaceIds` | f1-laptrend-data/build_spa_json.py:94 | the ids of exactly those races |
| `SpaTrend.KeepRaces` | f1-laptrend-data/build_spa_json.py:95 | `isin` keeps exactly the laps of those races |
| `SpaTrend.PresentAll` | f1-laptrend-data/build_spa_json.py:86 | `dropna` keeps exactly the rows with a present time |
| `SpaTrend.SpaPresentSame` | f1-laptrend-data/build_spa_json.py:82 | joining with Spa's races first keeps exactly Spa's rows of the full join |
| `SpaTrend.KeepRacesRedundant` | f1-laptrend-data/build_spa_json.py:94-103 | the `isin` filter before the merge drops only laps that the merge drops anyway |
| `SpaTrend.SpaTrendOf` | f1-laptrend-data/build_spa_json.py:57-117 | defines the Spa table: both tables joined with Spa's races only, the lap times pre-filtered by `isin`, the per-year minima merged on year and sorted. `SpaTrendIsCircuitTrend` equates it with `Trend`. |
| `SpaTrend.SpaTrendIsCircuitTrend` | f1-laptrend-data/build_spa_json.py:51-128 | the Spa builder's records are the all-circuits trend of the Spa circuit, before the two-year rule |
| `SpaTrend.BuildSpa` | f1-laptrend-data/build_spa_json.py:51-128 | the Spa lookup's ValueError, then the missing-Q-column ValueError, else the Spa circuit's trend |
| `ConstructorLaps.SiteRacesPresent` | scripts/generate_constructor_laps_all.py:65 | a race with a circuitRef after the left merge comes from a race and its circuit |
| `ConstructorLaps.SiteRaces` | scripts/generate_constructor_laps_all.py:65 | defines the left merge of races with circuits: each race beside the circuitRef of every circuit with its id, or None when there is none |
| `ConstructorLaps.RacePairs` | scripts/generate_constructor_laps_all.py:79-87 | the race rows are exactly the matched laps whose constructor, name, year, circuitRef and milliseconds are present, timed at `milliseconds/1000` |
| `ConstructorLaps.QualifyingPairs` | scripts/generate_constructor_laps_all.py:111-124 | the qualifying rows are exactly the matched rows whose best time, name, year and circuitRef are present |
| `ConstructorLaps.WithBest` | scripts/generate_constructor_laps_all.py:119 | each qualifying row is paired with its own best time, in order |
| `ConstructorLaps.QualifyingBestOf` | scripts/generate_constructor_laps_all.py:115-119 | defines a qualifying row's `lapTimeSec`: the least present value of its parsed q1, q2 and q3 cells |
| `ConstructorLaps.Tagged` | scripts/generate_constructor_laps_all.py:94-96 | groups renamed to circuitKey and constructorName with their session |
| `ConstructorLaps.TaggedMember` | scripts/generate_constructor_laps_all.py:96 | a tagged row is exactly a grouped row with that session |
| `ConstructorLaps.AggAllRows` | scripts/generate_constructor_laps_all.py:89-141 | `agg_all` holds exactly one R row per group with its least race lap, and one Q row per group with its least qualifying best |
| `ConstructorLaps.AggAll` | scripts/generate_constructor_laps_all.py:141-144 | defines `agg_all`: the race groups tagged "R" and the qualifying groups tagged "Q", concatenated and sorted by circuit, year, session and constructor. `AggAllRows` and `AggAllSorted` characterise it. |
| `ConstructorLaps.AggAllSorted` | scripts/generate_constructor_laps_all.py:141-144 | `agg_all` ascends by (circuitKey, year, session, constructorName) |
| `ConstructorLaps.CircuitKeysStrict` | scripts/generate_constructor_laps_all.py:150 | the circuit keys strictly ascend and are exactly the keys present |
| `ConstructorLaps.CircuitKeys` | scripts/generate_constructor_laps_all.py:150 | defines the keys of `agg_all.groupby("circuitKey")`: the distinct circuit keys, ascending |
| `ConstructorLaps.CircuitRecords` | scripts/generate_constructor_laps_all.py:150-160 | a circuit's records are drawn from `agg_all` |
| `ConstructorLaps.CircuitRecordsMember` | scripts/generate_constructor_laps_all.py:150-160 | a record is in a circuit's file exactly when its row is in `agg_all` under that key |
| `ConstructorLaps.CircuitRecordsSorted` | scripts/generate_constructor_laps_all.py:142-160 | within a file, records ascend by (year, session, constructorName) |
| `ConstructorLaps.CircuitRecordIsBest` | scripts/generate_constructor_laps_all.py:79-160 | a record is in a circuit's file exactly when it is the least lap of its (year, circuit, constructor, session) |
| `ConstructorLaps.CircuitRecordUnique` | scripts/generate_constructor_laps_all.py:89-133 | a file has at most one record per (year, session, constructor) |
| `ConstructorLaps.TeamFileOf` | scripts/generate_constructor_laps_all.py:150-164 | defines one circuit's file: `<circuitKey>.json` holding that circuit's records |
| `ConstructorLaps.ConstructorFiles` | scripts/generate_constructor_laps_all.py:150-164 | defines the files of a run: one per circuit key, in ascending key order |
| `ConstructorLaps.RecordsOf` | scripts/generate_constructor_laps_all.py:151-160 | the record loop converts each row in order |
| `ConstructorLaps.WriteTeamFile` | scripts/generate_constructor_laps_all.py:150-164 | one circuit's file and path |
| `ConstructorLaps.WriteConstructorFiles` | scripts/generate_constructor_laps_all.py:150-164 | the file loop writes one file per circuit key, in key order |
| `ConstructorLaps.GenerateConstructorLaps` | scripts/generate_constructor_laps_all.py:58-164 | the script computes the specified files from its tables |
| `DriverLaps.DriverCodes` | scripts/generate_driver_laps_all.py:79-84 | the codes a left merge with drivers gives a driver id, "DRV" when no driver matches |
| `DriverLaps.WithBestSec` | scripts/generate_driver_laps_all.py:60-66 | each qualifying row with its `best_sec` |
| `DriverLaps.BestSec` | scripts/generate_driver_laps_all.py:60-66 | defines `best_sec` of one row: the least present of its parsed q1, q2, q3 cells, a missing column counting as None |
| `DriverLaps.QualifyingBestSecs` | scripts/generate_driver_laps_all.py:60-66 | the column loop computes `best_sec` for every row |
| `DriverLaps.QualiPairs` | scripts/generate_driver_laps_all.py:37-86 | the Q rows are exactly the qualifying rows sited at a race with a present circuitRef and with a present `best_sec`, keyed by (circuitRef, year, driverCode) |
| `DriverLaps.RacePairs` | scripts/generate_driver_laps_all.py:90-110 | the R rows are exactly the sited results with a present `fastest_sec` |
| `DriverLaps.Tagged` | scripts/generate_driver_laps_all.py:116-131 | grouped rows with their session |
| `DriverLaps.TaggedMember` | scripts/generate_driver_laps_all.py:122 | a tagged row is exactly a grouped row with that session |
| `DriverLaps.AllGroupedRows` | scripts/generate_driver_laps_all.py:116-137 | `all_grouped` holds exactly one Q row per group with its least `best_sec`, and one R row per group with its least `fastest_sec` |
| `DriverLaps.AllGrouped` | scripts/generate_driver_laps_all.py:137 | defines `all_grouped`: the qualifying groups tagged "Q" followed by the race groups tagged "R" |
| `DriverLaps.DriverCircuitRefsMember` | scripts/generate_driver_laps_all.py:140-142 | the files' circuitRefs strictly ascend and are exactly those of the rows of `all_grouped` |
| `DriverLaps.DriverCircuitRefs` | scripts/generate_driver_laps_all.py:140 | defines the keys of `all_grouped.groupby("circuitRef")`: the distinct refs, ascending |
| `DriverLaps.FileRows` | scripts/generate_driver_laps_all.py:140-145 | defines one circuit's rows: those at that circuitRef, sorted by year, session and driver code |
| `DriverLaps.DriverFileOf` | scripts/generate_driver_laps_all.py:144-161 | defines one circuit's file: `<circuitRef>_driver_laps.json` holding its records |
| `DriverLaps.DriverFiles` | scripts/generate_driver_laps_all.py:139-163 | defines the files of a run: one per circuitRef, in ascending order |
| `DriverLaps.FileRecords` | scripts/generate_driver_laps_all.py:144-155 | one record per row of the circuit |
| `DriverLaps.FilesFor` | scripts/generate_driver_laps_all.py:139-163 | one file per circuitRef |
| `DriverLaps.FilesForIndex` | scripts/generate_driver_laps_all.py:139-163 | the i-th file is that of the i-th circuitRef |
| `DriverLaps.FileRowsMember` | scripts/generate_driver_laps_all.py:140 | a circuit's rows are exactly the rows with that circuitRef |
| `DriverLaps.FileRecordsMember` | scripts/generate_driver_laps_all.py:144-155 | a record is in a circuit's file exactly when its row is in `all_grouped` under that circuitRef |
| `DriverLaps.FileRecordsSorted` | scripts/generate_driver_laps_all.py:145 | within a file, records ascend by (year, session, driverCode) |
| `DriverLaps.DriverRecordIsBest` | scripts/generate_driver_laps_all.py:116-155 | a record is in a file exactly when it is the least time of its (circuitRef, year, driverCode, session) |
| `DriverLaps.DriverRecordUnique` | scripts/generate_driver_laps_all.py:116-131 | a file has at most one record per (year, session, driverCode) |
| `DriverLaps.RecordsOf` | scripts/generate_driver_laps_all.py:147-155 | the record loop converts each row in order |
| `DriverLaps.WriteDriverFile` | scripts/generate_driver_laps_all.py:144-161 | one circuit's file |
| `DriverLaps.WriteDriverFiles` | scripts/generate_driver_laps_all.py:139-163 | the file loop writes one file per present circuitRef in ascending order, and `count_files` counts them |
| `DriverLaps.FilesForSnoc` | scripts/generate_driver_laps_all.py:139-163 | one more loop step appends that circuit's file |
| `DriverLaps.GenerateDriverLapsAll` | scripts/generate_driver_laps_all.py:29-163 | RuntimeError exactly when `fastestLapTime` is not a column. Otherwise the specified files, with `count_files` equal to their number. |
| `DriverLaps.SpaPairs` | scripts/generate_driver_laps.py:58-117 | the rows are exactly Spa's qualifying rows with a present `best_sec`, keyed by (year, driverCode) |
| `DriverLaps.SpaRecordsFrom` | scripts/generate_driver_laps.py:122-131 | one Q record per sorted row, in order |
| `DriverLaps.SpaRecords` | scripts/generate_driver_laps.py:113-131 | defines the records of spa_driver_laps.json: the (year, driver) minima sorted by (year, driver code), each as a "Q" record. `SpaRecordsStrict` and `SpaRecordIsBest` characterise them. |
| `DriverLaps.YearDriverKeyInjective` | scripts/generate_driver_laps.py:123 | the (year, driverCode) key tells groups apart |
| `DriverLaps.SpaRowsStrict` | scripts/generate_driver_laps.py:113-117 | the grouped rows strictly ascend by (year, driverCode) |
| `DriverLaps.SpaSortRedundant` | scripts/generate_driver_laps.py:123 | `sort_values(["year", "driverCode"])` leaves the grouped table as it is |
| `DriverLaps.SpaRecordsFromStrict` | scripts/generate_driver_laps.py:122-131 | records of strictly ascending rows strictly ascend by (year, driverId) |
| `DriverLaps.SpaRecordsFromMember` | scripts/generate_driver_laps.py:122-131 | a record is present exactly when it is a Q record of one of the rows |
| `DriverLaps.SpaRecordsStrict` | scripts/generate_driver_laps.py:113-131 | the Spa records strictly ascend by (year, driverId) |
| `DriverLaps.SpaRecordsMember` | scripts/generate_driver_laps.py:113-131 | a record is present exactly when it is a Q record of a grouped row |
| `DriverLaps.SpaRecordIsBest` | scripts/generate_driver_laps.py:113-131 | a record is present exactly when its session is Q and its time is the least `best_sec` of its (year, driverCode) |
| `DriverLaps.SpaRecordsOf` | scripts/generate_driver_laps.py:122-131 | the record loop builds the specified records |
| `DriverLaps.GenerateSpaDriverLaps` | scripts/generate_driver_laps.py:31-131 | RuntimeError exactly when no circuit is Spa-like. Otherwise the records of the first Spa-like circuit's qualifying. |
| `Dashboard.SortedEnds` | app/page.tsx:92-94 | the sorted copy starts with the first point of the earliest year and ends with the last point of the latest year |
| `Dashboard.CalculateSummary` | app/page.tsx:89-110 | defines `calculateSummary`: null for fewer than two points, otherwise the summary between the first and last point of the year-sorted copy. `SummaryNone`, `SummaryYears`, `SummaryStart`, `SummaryEnd` and `SummaryDelta` characterise it. |
| `Dashboard.SummaryOfEnds` | app/page.tsx:96-109 | defines the summary between two points: null when the years do not increase, otherwise their years, poles, `totalDelta` and `yearlyDelta` |
| `Dashboard.SummaryNone` | app/page.tsx:90-97 | no summary exactly when there are fewer than two points or all points share one year |
| `Dashboard.SummaryYears` | app/page.tsx:92-104 | a summary runs from the least year to a strictly greater greatest year |
| `Dashboard.SummaryStart` | app/page.tsx:92-105 | the start time is the pole of the first-listed point of the earliest year |
| `Dashboard.SummaryEnd` | app/page.tsx:92-106 | the end time is the pole of the last-listed point of the latest year |
| `Dashboard.SummaryDelta` | app/page.tsx:96-100 | `totalDelta = startTime - endTime` and `yearlyDelta * (endYear - startYear) = totalDelta` |
| `Dashboard.Toggle` | app/page.tsx:124-128 | the toggled id is present exactly when it was absent, and no other id changes membership |
| `Dashboard.ToggleTwiceAbsent` | app/page.tsx:124-128 | toggling an absent id twice restores the list exactly |
| `Dashboard.ToggleTwicePresent` | app/page.tsx:132-136 | toggling a present id twice restores membership but moves the id to the end, its duplicates removed |
| `Dashboard.ByYearLast` | app/page.tsx:276-285 | a year has an entry exactly when some point of that year has a number; the entry is the last such number |
| `Dashboard.ByYear` | app/page.tsx:276-285 | defines a reference map: a `Map.set` of the year to the field, for each point whose field is a number, in order |
| `Dashboard.ReferenceMaps` | app/page.tsx:276-285 | the `forEach` pass builds both reference maps |
| `Dashboard.BuildRow` | app/page.tsx:310-327 | the row loop builds the specified pivot row |
| `Dashboard.Reference` | app/page.tsx:312-315 | defines a year's `base`: the pole for qualifying, the race's fastest lap otherwise, null when the map has no entry |
| `Dashboard.Put` | app/page.tsx:321-326 | defines one step of the row loop: the lap's time under its id, and its gap from `base` when there is one |
| `Dashboard.PivotRow` | app/page.tsx:310-327 | defines a year's row: `{ year }` after the row loop over the year's laps, in order. `PivotRowCells`, `PivotRowEntity` and `PivotRowGap` characterise it. |
| `Dashboard.GapKeyDistinct` | app/page.tsx:324 | for ids other than "year" and not ending in "_gap", a gap key is neither an id nor "year", and different ids have different gap keys |
| `Dashboard.PivotRowCells` | app/page.tsx:310-327 | the row's `year` cell is its year. `row[id]` exists exactly when the id has a lap that year, holding its last lap's time. `row[id_gap]` exists exactly when the year has a reference, and equals that time minus the reference. |
| `Dashboard.PivotRowYear` | app/page.tsx:310 | the `year` cell survives the row loop |
| `Dashboard.PivotRowEntity` | app/page.tsx:321-322 | an id's cell holds the time of its last lap of the year, and is absent without one |
| `Dashboard.PivotRowGap` | app/page.tsx:312-325 | an id's gap cell exists exactly when the year has a reference and the id has a cell, and equals the cell minus the reference |
| `Dashboard.ChartYearsFacts` | app/page.tsx:306-308 | the distinct years, strictly ascending, exactly those of the laps |
| `Dashboard.ChartYears` | app/page.tsx:306-308 | defines the chart's years: the distinct years of the laps, ascending |
| `Dashboard.YearRow` | app/page.tsx:309-328 | defines one year's row: that year's laps, in order, against that year's reference |
| `Dashboard.ChartOf` | app/page.tsx:306-329 | defines the rows of the session's laps, one per chart year |
| `Dashboard.ChartData` | app/page.tsx:293-329 | defines `driverChartData` / `constructorChartData`: the chart of the laps of the selected session. `ChartDataYears` and `OtherSessionIgnored` characterise it. |
| `Dashboard.ChartDataYears` | app/page.tsx:306-329 | one row per year of a lap of the session, strictly ascending, each row's `year` cell its year |
| `Dashboard.OtherSessionIgnored` | app/page.tsx:294-296 | laps of the other session, wherever they sit, do not change the chart |
| `Dashboard.BuildYearRow` | app/page.tsx:309-329 | one year's row: its reference, then the row loop |
| `Dashboard.BuildRows` | app/page.tsx:307-329 | the `.map` builds one row per year, in order |
| `Dashboard.BuildChartData` | app/page.tsx:344-369 | the constructor and driver pivots compute the specified chart |
| `Dashboard.ActiveIds` | app/page.tsx:298-304 | `activeDriverIds` is duplicate-free and holds exactly the selected ids with a lap of the session |
| `Dashboard.SelectedEntities` | app/page.tsx:300-302 | the filtered ids are exactly the selected ids with a lap of the session |
| `Dashboard.ActiveIdsOrder` | app/page.tsx:298-304 | `activeDriverIds` follows first appearance among the session's selected laps |
| `Dashboard.EntityNames` | app/page.tsx:336-338 | `constructorNames` strictly ascend and are exactly the names with a lap of the session |
| `Dashboard.ActiveNames` | app/page.tsx:340-342 | `activeConstructorNames` strictly ascend and are exactly the selected names with a lap of the session |
| `Dashboard.DefaultSelectionFacts` | app/page.tsx:250-257 | the default selection is up to four names from the laps, ascending, four when there are four, and every name left out sorts after every name chosen |
| `Dashboard.DefaultSelection` | app/page.tsx:253-257 | defines the initial constructor selection: the first four of the sorted distinct names of the laps |
| `Dashboard.Page.constructor` | app/page.tsx:114-158 | empty data and laps, drivers ["VER", "HAM"], no constructors, session "Q" |
| `Dashboard.Page.ToggleDriver` | app/page.tsx:124-128 | `selectedDrivers` becomes its toggle, nothing else changes |
| `Dashboard.Page.ToggleConstructor` | app/page.tsx:132-136 | `selectedConstructors` becomes its toggle, nothing else changes |
| `Dashboard.Page.SetSession` | app/page.tsx:155 | the session becomes "Q" or "R", nothing else changes |
| `Dashboard.Page.ReceiveTrend` | app/page.tsx:161-187 | a parsed array replaces `data`; any failure, a 404 included, leaves it |
| `Dashboard.Page.ReceiveDriverLaps` | app/page.tsx:190-224 | a parsed array replaces the driver laps, a 404 empties them, another failure leaves them |
| `Dashboard.Page.ReceiveConstructorLaps` | app/page.tsx:227-269 | a parsed array replaces the constructor laps and resets the selection to the default; a 404 empties both; another failure leaves both |
| `Dashboard.Page.DriverChart` | app/page.tsx:293-329 | `driverChartData` is the chart of the driver laps against the page's reference maps |
| `Dashboard.Page.ConstructorChart` | app/page.tsx:331-369 | `constructorChartData` is the chart of the constructor laps against the page's reference maps |

## Left out

- CSV reading, JSON writing, directory creation and logging in the scripts are file I/O. The model starts from the tables as sequences of records and ends at the records and paths of each file.
- The page's three fetch routines, `async`/`await`, the loading and error flags, and the refetch when `selectedCircuit` changes are network I/O and event ordering. Their outcomes are modelled as `TrendResponse` and `LapsResponse` values handed to the `Page` methods. In-flight staleness is not modelled.
- The JSX rendering, recharts, styling, `showPole`/`showFastest`, `driverMetric`, `mode` and the minYear/maxYear display compute nothing that the charts' data depends on.
- `src/constants/drivers.ts` and `src/types.ts` are a colour table and type declarations without behaviour.
- Floating point is not modelled: lap times are exact reals. This covers `milliseconds / 1000.0`, `round(x, 3)` in `generate_driver_laps_all.py` and `generate_driver_laps.py` (the records carry the unrounded time), JavaScript number subtraction and division, and `toFixed`.
- Python `int()`/`float()` also accept underscores, exponents, `inf`/`nan` and Unicode digits. The model's grammar has none of these, so such texts parse as failures here.
- `PyNumbers.PyInt`: strips the same whitespace as `str.strip()`. Python's `int()` rejects a text holding one of the separators U+001C to U+001F, which `strip()` removes, so such a text with a numeral inside parses here and fails in Python.
- `PyNumbers.PyFloat`: the same separator difference as `PyNumbers.PyInt`.
- `CircuitTrend.AllCircuitFilesComplete`: the files of a run are a list of writes. Two circuits can share a slug (`CircuitTrend.SlugsCollide`), and then the later write replaces the earlier file while `generated` counts both (`CircuitTrend.TwoWritesSamePath`). The directory holds every non-empty trend only when the paths are distinct (`CircuitTrend.AllCircuitFilesDirectory`).
- `CircuitTrend.NameText`: a numeric circuit name renders as "nan", where Python's `str()` prints its numeral. Only name-only rows without a `circuitRef` string reach it.
- `str()` of a numeric cell is not rendered. A number's `str()` is assumed to contain no colon, and the driver dialect reads a number back unchanged.
- The pandas internals are not modelled: only the semantics of merge, `dropna`, `groupby().min()`, `concat`, `sort_values` and `isin` are. The model's sort is stable. The order pandas gives equal keys does not matter here, because the sort keys of `agg_all`, of a driver file and of the Spa records are distinct per row.
- JavaScript's default `sort()` compares UTF-16 code units, while the model compares code points. The two agree outside the astral planes.
- A missing column other than the ones the scripts test for (`KeyError` in pandas) is not modelled. The model's tables have the columns they use.
- In `generate_driver_laps_all.py`, `pd.isna(circuit_ref)` inside the file loop is never true, because `groupby` drops NaN keys. The model's grouping has no missing keys.
- The milliseconds column is assumed numeric.
- `Dashboard.CalculateSummary`: requires every pole to be a number, as the `LapPoint` type declares. A JSON file with a `null` pole is not modelled.
- `Dashboard.PivotRowCells`: stated for ids that are not "year" and do not end in "_gap" (`Plain`). Such an id would overwrite another cell; that case is not modelled.
- `Dashboard.ChartDataYears`: stated under the same `Plain` hypothesis on the laps' ids.
- `Identifiers.SlugIdempotent`: stated for bases without an apostrophe. With one, removing it can expose whitespace that a second pass strips; `Identifiers.SlugApostropheKeepsSpace` exhibits that case.
- `Identifiers.CellContains`: a missing cell renders as "nan", and numbers as numerals. Neither can contain "spa", so only text cells are matched. The `case=False` match folds ASCII letters only; pandas' case-insensitive regular expression also folds other letters, so that "ſpa" (with U+017F) contains "spa" there and not here.
- `Identifiers.Slug`: `lower()` is modelled on ASCII letters. Other capitals stay as they are, so "Österreichring" keeps its "Ö" where Python writes "ö".
- `Identifiers.NormalizeDriverCode`: `upper()` is modelled on ASCII letters. Other lower-case letters stay as they are, so the surname "Müller" gives "MüL" where Python gives "MÜL", and "no lower-case letter" is stated for ASCII letters (`IsLowerAscii`).
- Row multiplicity of the left merges is not modelled. A row matching several rows of the other table gives the same set of (group, time) pairs, and a group minimum does not depend on repetition (`Aggregate.GroupMinSameElements`).

# DVF Paris dashboard: data preparation, modelled in Dafny

The dashboard reads the French land-value transaction files (DVF, "Demandes de
valeurs foncières") for Paris and builds two tables from them:

- `load_data` (utils/io.py) globs the per-year CSV files of a data directory. It
  reads each file robustly: first separator auto-detection, then nine explicit
  encoding/separator attempts, then a last plain read. It normalises the headers
  to snake case, parses the transaction date and its year, keeps Paris rows
  (`code_departement == "75"`) and coerces French-formatted numbers. Then it
  concatenates the files and moves the key columns first.
- The result of `load_data` is cached as a snapshot plus a JSON metadata file
  holding a signature of the directory: each file's name, size and
  whole-second modification time. The snapshot is served again only while that
  signature is unchanged.
- `make_df_clean` (utils/prep.py) turns the raw table into the clean one, step
  by step:
  - it deduplicates on the mutation key;
  - it keeps sales of flats and houses, and drops rows missing a price, an area or a date;
  - it extracts the postal code and the arrondissement;
  - it computes the price per square metre;
  - it removes implausible areas and prices (quantile cuts and fixed bounds);
  - it adds the year and the quarter, and classes rooms and areas;
  - it projects onto the final columns, sorts by date and optionally persists the table.
- The deep-dive page (sections/deep_dives.py) labels each row with period P1
  or P2 from its year. It checks that the columns it needs are present, and it
  re-bins surfaces and room counts for its mix charts.

The model works on values. A data frame is a `Frame`: an ordered list of column
labels and a sequence of rows, each row a map from label to `Cell`. A cell
missing from a row reads as NA. Parsing a CSV file, parsing a date and
computing a quantile are parameters, because they belong to pandas and not to
this repository. Where the source changes state step by step, the model is
imperative:

- the read attempts are nested loops with an early exit;
- the cleaning pipeline is a method that reassigns the table stage by stage;
- the two cache directories are classes whose fields are the files on disk.

Each method is proved equal to a specification function, and the properties
are proved about those functions.

Modules, in dependency order:

- `Wrappers`, `Strings`, `Sorting`: Option/Result, ASCII character classes, and
  a stable insertion sort with its permutation and sortedness lemmas.
- `Frames`: the table model (`Where`, `SetColumn`, `Select`, ...).
- `Json`: JSON values and the canonical form that `json.dumps(sort_keys=True)` prints.
- `FieldNormalizer`: `_snake` and `_coerce_numeric`.
- `Signature`: `_dir_signature` and `_same_signature`.
- `Ingest`: `_read_one_csv`.
- `Loader`: `load_data` and its cache.
- `Buckets`: `pd.cut` on the room and surface bins, and round-half-to-even.
- `Prep`: `make_df_clean`.
- `CleanGuarantees`: what every row of the clean table satisfies.
- `DeepDives`: `_periodize`, `_needs` and the two mix bucketings.

## Model

| member | source | states |
|---|---|---|
| FieldNormalizer.SnakeShape | utils/io.py:10-15 | a normalised label uses only lower-case ASCII letters, digits and underscores; it never starts or ends with an underscore, and never has two in a row |
| FieldNormalizer.SnakeIdempotent | utils/io.py:10-15 | normalising an already normalised label returns it unchanged |
| FieldNormalizer.SnakeFixesSnake | utils/io.py:10-15 | every label already in snake shape is a fixed point of the normalisation |
| FieldNormalizer.CollapseNonAlnum | utils/io.py:13-14 | after the two substitutions, only letters, digits and single underscores remain; the result is empty iff the input is, and a leading alphanumeric is kept |
| FieldNormalizer.CoerceNumeric | utils/io.py:17-22 | a coerced cell is missing, a number or an infinity, and a cell that is already a number is unchanged; text is the number it parses to after the locale replacements, and missing when it still does not parse |
| FieldNormalizer.CoerceNonNumeric | utils/io.py:17-22 | text holding a character that is neither a digit, a sign, a point, e/E nor a locale mark (space, NBSP, comma) becomes missing |
| FieldNormalizer.LocaleNumber | utils/io.py:17-22 | a French-formatted number reads as its decimal value: any number of digit groups separated by spaces or no-break spaces, with an optional decimal-comma tail ("1 234 567,5" is 1234567.5, "1 234" is 1234) |
| FieldNormalizer.LocaleNumberExample | utils/io.py:17-22 | the text "1 234 567,5" coerces to 1234567.5 |
| FieldNormalizer.Delocalise | utils/io.py:19-21 | after the replacements no space, no-break space or comma remains |
| FieldNormalizer.DelocaliseKeeps | utils/io.py:19-21 | the replacements turn each comma into a point, keep every other character as often as it occurs, and return text without a space, no-break space or comma unchanged |
| FieldNormalizer.ParseNumberAlphabet | utils/io.py:22 | text that parses as a number contains only digits, signs, a point and an exponent marker |
| Ingest.ReadAttempts | utils/io.py:60-98 | the read loop returns exactly the outcome of the read policy `RawRead` |
| Ingest.RawReadOutcome | utils/io.py:60-98 | the read fails iff the auto read is unusable, no explicit attempt yields more than one column, and the plain read raises; a usable auto read is taken as is; a one-column table comes only from the plain read, after every explicit attempt failed |
| Ingest.FirstWideMeaning | utils/io.py:73-95 | the explicit attempts take the first (encoding, separator) pair, encodings outer and separators inner, whose table has more than one column; if there is none, none is taken |
| Ingest.SnakeHeaders | utils/io.py:101 | the new labels are the normalised old ones, every cell moves to its renamed column, and relabelling fails iff two labels normalise alike |
| Ingest.RegionFilterKeeps | utils/io.py:109-111 | a row survives iff its department code, as text and stripped, is exactly "75" |
| Ingest.CoerceColumns | utils/io.py:114-116 | the four numeric columns are coerced cell by cell when present; every other cell is unchanged |
| Ingest.CoerceNumericColumns | utils/io.py:114-116 | the coercion loop equals `CoerceColumns` |
| Ingest.ReadOneCsv | utils/io.py:53-118 | reading one file equals `CsvTable`: raw read, relabel, dates, Paris filter, coercion |
| Ingest.CsvTableLabels | utils/io.py:101 | every label of a read table is distinct and in snake shape |
| Ingest.CsvTableDates | utils/io.py:104-106 | when a date column exists, a year column exists too; every date is parsed or missing, and every year is that date's year |
| Ingest.CsvTableParis | utils/io.py:109-111 | with a department column, every row of a read table is a Paris row |
| Ingest.CsvTableNumeric | utils/io.py:113-116 | each coerced column holds only missing values, numbers or infinities |
| Signature.Trunc | utils/io.py:40 | `int()` truncates toward zero |
| Signature.DirSignature | utils/io.py:32-47 | the signature records the pattern and the files sorted by name (a permutation of the listing), with mtimes truncated; its count is the number of files and its total size the sum of their sizes |
| Signature.SameSignatureEquivalence | utils/io.py:49-50 | signature comparison is reflexive, symmetric and transitive |
| Signature.SameSignatureExact | utils/io.py:49-50 | two signatures compare equal iff they record the same pattern, files, count and total size |
| Signature.SigJsonInjective | utils/io.py:34-46 | two signatures whose JSON forms dump alike are the same signature |
| Signature.TouchDetected | utils/io.py:36-46 | changing one file's whole-second modification time changes the signature (file names distinct) |
| Signature.SameSecondTouchUndetected | utils/io.py:40 | a rewrite within the same whole second, at the same size, leaves the signature unchanged |
| Json.CanonIgnoresMemberOrder | utils/io.py:49-50 | objects listing the same members in different orders dump alike |
| Json.CanonIdempotent | utils/io.py:183 | a document already written with sorted keys has itself as its canonical form |
| Json.CanonLookup | utils/io.py:150-151 | looking a key up in the canonical form finds the canonical form of the original value |
| Loader.CachedTable | utils/io.py:142-154 | the cache serves a table only when the cache is enabled, a rebuild is not forced, both files are readable and the stored signature matches; the table served is the snapshot |
| Loader.ArtifactCache.LoadData | utils/io.py:121-188 | the result is the cached table or the rebuilt one; after a rebuild with the cache enabled, the snapshot is written if writable, and the sorted-key metadata if that is writable too; nothing else changes |
| Loader.ArtifactCache.WriteCache | utils/io.py:173-186 | with the cache enabled and the snapshot writable, the snapshot becomes the table; if the metadata file is writable too, it becomes the sorted-key metadata for the signature; otherwise nothing changes |
| Loader.Rebuild | utils/io.py:157-159 | the rebuild fails with no-files iff the listing is empty |
| Loader.RebuildTable | utils/io.py:157-171 | the read-and-concatenate loop equals `Rebuild`, stopping at the first file that cannot be read |
| Loader.ReadAllTables | utils/io.py:161 | when every file reads, there is one table per file and each is that file's `CsvTable` |
| Loader.ConcatColumns | utils/io.py:162 | the concatenated labels are distinct and are exactly the labels of the input tables |
| Loader.ConcatColumnsPrefix | utils/io.py:162 | the labels of the first k tables are a prefix of the concatenated labels, in their order: each further table only appends labels it brings first |
| Loader.RebuildShape | utils/io.py:161-171 | a rebuilt table has each file's labels exactly once and every row of every file, in file order, with the same cells |
| Loader.ReorderPermutes | utils/io.py:164-171 | reordering the columns is a permutation of them |
| Loader.ReorderPreferredFirst | utils/io.py:165-170 | every present preferred label comes before every other label |
| Loader.ReorderKeepsOrder | utils/io.py:170 | the present preferred labels keep the order of the preferred list, and the other labels keep their original order |
| Loader.WrittenSignature | utils/io.py:177-183 | the signature read back from the written metadata is the canonical form of the signature written |
| Loader.CacheRoundTrip | utils/io.py:142-183 | after a rebuild has written its snapshot and metadata, loading the unchanged directory returns that snapshot |
| Loader.CacheInvalidated | utils/io.py:151 | metadata written for one signature never serves a directory with a different signature |
| Prep.SortByDate | utils/prep.py:48 | sorting by date, missing dates last, gives a sorted permutation of the rows |
| Prep.DedupKeysUnique | utils/prep.py:44-52 | after deduplication no two rows share a key tuple |
| Prep.DedupKeepsEveryKey | utils/prep.py:44-52 | every key tuple of the input still has a row after deduplication |
| Prep.DedupKeepsEarliest | utils/prep.py:45-50 | with key columns, the row kept for a key has the earliest date among the input rows with that key |
| Prep.DedupRows | utils/prep.py:44-52 | deduplication keeps the columns and keeps a sub-multiset of the rows |
| Prep.FirstFiveDigits | utils/prep.py:67 | the extraction finds the leftmost run of five digits, and finds none iff the text has no such run |
| Prep.Divide | utils/prep.py:73 | a numeric ratio times the divisor gives back the dividend; a non-zero number over zero is the infinity of its sign, zero over zero and any missing operand are missing |
| Prep.BandLow | utils/prep.py:83-86 | the lower price bound is never below 1000 nor below the 0.1% quantile when there is one, and it is one of the two: `max(1000, p0.1)` |
| Prep.BandHigh | utils/prep.py:84-87 | the upper price bound is never above 50000 nor above the 99.9% quantile when there is one, and it is one of the two: `min(50000, p99.9)` |
| Prep.RoundRooms | utils/prep.py:97 | a missing count stays missing, a number becomes its half-to-even rounding as an integer, a 16-bit integer is kept, and the cast fails exactly when the rounded value is not a 16-bit integer (or the cell is not numeric) |
| Prep.RoundAll | utils/prep.py:97 | the column cast succeeds iff every cell's cast succeeds, and then yields each cell's cast |
| Prep.CleanTable | utils/prep.py:37-135 | the stage-by-stage pipeline equals the specification `Clean` |
| Prep.CleanArtifacts.Persist | utils/prep.py:137-153 | with saving on and the snapshot writable, the snapshot becomes the table; if the metadata file is writable too, it becomes the row count, column count and labels; otherwise nothing changes |
| Prep.CleanArtifacts.MakeDfClean | utils/prep.py:20-155 | the result is `Clean`, and it is persisted exactly as `Persist` states, only when cleaning succeeded |
| CleanGuarantees.TraceBack | utils/prep.py:40-135 | every row of the clean table agrees with some row of the table after any step, on the columns no later step rewrites |
| CleanGuarantees.CleanSales | utils/prep.py:55-56 | every clean row is a sale ("vente" after strip and lower-casing) |
| CleanGuarantees.CleanDwellings | utils/prep.py:57-58 | every clean row is a flat or a house |
| CleanGuarantees.CleanComplete | utils/prep.py:61-63 | no clean row lacks a price, an area or a date that the raw table had as a column |
| CleanGuarantees.CleanParis | utils/prep.py:66-69 | every clean postal code is five digits starting "75", and the arrondissement is the number its last two digits spell |
| CleanGuarantees.CleanPriceRatio | utils/prep.py:72-73 | every clean price per square metre is the row's price divided by its area |
| CleanGuarantees.AreaCensorBounds | utils/prep.py:76-80 | every surviving area is at least 9 m² and, when the 99.9% quantile exists, at most that quantile; when it does not, nothing more is removed |
| CleanGuarantees.CleanArea | utils/prep.py:76-80 | every clean area is at least 9 m², and at most the 99.9% quantile of the floored areas of the priced stage table when that quantile exists |
| CleanGuarantees.PriceBandBounds | utils/prep.py:82-88 | a surviving price per square metre is a number between the two band bounds |
| CleanGuarantees.CleanPriceBand | utils/prep.py:82-88 | every clean price per square metre is a number between `BandLow` and `BandHigh` of the area-censored stage table, hence in [1000, 50000] |
| CleanGuarantees.TemporalLabels | utils/prep.py:91-93 | the year and quarter written are those of the row's date |
| CleanGuarantees.CleanPeriods | utils/prep.py:91-93 | every clean row's year and quarter are those of its date |
| CleanGuarantees.CleanRooms | utils/prep.py:96-104 | every clean room count is missing or a 16-bit integer, its class is that count's, and it is `RoundRooms` of the count of some row of the refined, deduplicated table |
| CleanGuarantees.CleanSurfaces | utils/prep.py:106-113 | every clean area class is the class of that row's area |
| CleanGuarantees.CleanColumns | utils/prep.py:121-135 | the clean labels are distinct final columns listed in the final-list order; they include `date_mutation`, every final column the raw table had, and every derived column whose sources the raw table had (year and quarter from the date, price per m² from price and area, arrondissement from the postal code, the two classes from rooms and area) |
| Frames.KeepIfOrder | utils/prep.py:121-129 | filtering a list without repetitions keeps its order |
| CleanGuarantees.CleanSorted | utils/prep.py:131-135 | the clean rows are sorted by date with missing dates last |
| Buckets.RoundHalfEven | utils/prep.py:97 | rounding gives an integer within one half, and an exact half rounds to the even neighbour |
| Buckets.RoomClassRule | utils/prep.py:98-104 | [0,1] is T1, (1,2] T2, (2,3] T3, (3,4] T4, (4,100] T5+, and any other count has no class, each as an iff |
| Buckets.SurfaceClassRule | utils/prep.py:106-113 | [0,25) is "<25", [25,40) "25–40", [40,60) "40–60", [60,80) "60–80", [80,120) "80–120", [120,10000) "120+", and any other area has no class, each as an iff |
| Buckets.SurfaceClassesAgree | sections/deep_dives.py:171-176 | the page's surface bins, which omit include_lowest, class every cell as the pipeline does |
| DeepDives.ToNumeric | sections/deep_dives.py:14 | `to_numeric(errors="coerce")` yields a missing value, a number, an integer or an infinity; numeric and missing cells pass unchanged, text becomes its parsed number or missing, a date becomes missing |
| DeepDives.ToInt64 | sections/deep_dives.py:14 | a successful cast yields a missing value or a 64-bit integer equal to the input number, and leaves any other cell as it is; it fails exactly on an infinity, an integer outside 64 bits, or a number that is fractional or outside 64 bits, with the given error |
| DeepDives.CastAll | sections/deep_dives.py:14 | the column cast succeeds iff every cell's cast does, and then yields each cell's cast |
| DeepDives.LabelPeriods | sections/deep_dives.py:17-19 | the two masked assignments over an all-NA array produce `Labels` |
| DeepDives.Periodize | sections/deep_dives.py:11-21 | the method equals `Periodized` |
| DeepDives.PeriodLabelRule | sections/deep_dives.py:17-19 | a row is P2 iff its year is in the P2 window; P1 iff in the P1 window only; NA iff in neither; a missing year is NA |
| DeepDives.OverlapIsP2 | sections/deep_dives.py:18-19 | a year in both windows is P2, because the P2 assignment comes second |
| DeepDives.PeriodizedFails | sections/deep_dives.py:14 | `_periodize` fails iff there is no year column or some year does not cast to a 64-bit integer |
| DeepDives.PeriodizedRows | sections/deep_dives.py:13-20 | a success keeps the rows and every other column, adds "periode2", replaces each year by its cast, and labels each row by that cast year |
| DeepDives.CleanYearKept | sections/deep_dives.py:14 | a year as the clean table stores it (missing or an integer) is unchanged by the cast |
| DeepDives.Needs | sections/deep_dives.py:24-29 | the check passes iff every needed label is a column |
| DeepDives.SurfaceMixBins | sections/deep_dives.py:170-176 | every row of the surface mix has an area and a period, and its bin is its area's class |
| DeepDives.SurfaceMixMatchesClean | sections/deep_dives.py:171-176 | on the clean table, each page bin equals the pipeline's area class |
| DeepDives.ToRoomsRounds | sections/deep_dives.py:196 | a fractional room count casts to its round-half-to-even integer |
| DeepDives.CleanRoomsKept | sections/deep_dives.py:196 | a room count as the clean table stores it is unchanged by the page's cast |
| DeepDives.RoomMixMatchesClean | sections/deep_dives.py:195-200 | on the clean table the room mix succeeds; each row has a room count and a period, its "nbp" is the stored count, and its class is the pipeline's room class |

## Definitions

The specification functions the lemmas above are stated about, with the code each one models.

| definition | source | computes |
|---|---|---|
| FieldNormalizer.Snake | utils/io.py:10-15 | strip, brackets and slash to spaces, each run of non-alphanumerics to `_`, runs of `_` squeezed, outer `_` stripped, lower case |
| FieldNormalizer.ParseNumber | utils/io.py:22 | `pd.to_numeric` of one text: an optional sign, a decimal mantissa and an optional exponent; anything else is no number |
| Signature.SigJson | utils/io.py:34-46 | the signature dict as a JSON object: pattern, file entries, count, total size |
| Signature.SameSignature | utils/io.py:49-50 | equality of the canonical, sorted-key forms of the two documents |
| Ingest.FirstWideFrom | utils/io.py:74-95 | the table of the first explicit (encoding, separator) attempt, from a given position, that parses to more than one column |
| Ingest.RawRead | utils/io.py:59-98 | the auto read unless it raised or gave one column; else the first wide explicit attempt; else the plain read or its error |
| Ingest.RegionFilter | utils/io.py:109-111 | the department code stripped as text, then the rows whose code is "75", in order |
| Prep.CleanNumericColumns | utils/prep.py:11-16 | the three columns coerced at lines 40-42; `_coerce_numeric` has the same body as utils/io.py:17-22, so the model reuses FieldNormalizer.CoerceNumeric on them |
| Ingest.Standardise | utils/io.py:100-116 | relabelling, dates and year, the Paris filter and the numeric coercion, in that order |
| Ingest.CsvTable | utils/io.py:53-118 | `RawRead` followed by `Standardise` |
| Ingest.CsvTableStages | utils/io.py:100-118 | names the relabelled table of a successful read, for the CsvTable* lemmas |
| Loader.ReadAll | utils/io.py:161 | the tables of the files in order, or the first file's error |
| Loader.Concat | utils/io.py:162 | the labels of all tables in first-appearance order, and the rows of each table in order |
| Loader.ReorderBy | utils/io.py:170 | `[c for c in preferred if c in cols] + [c for c in cols if c not in preferred]` |
| Loader.MetaDoc | utils/io.py:177-181 | the metadata document: creation time, signature, snapshot path |
| Loader.Loaded | utils/io.py:137-171 | the cached table when `CachedTable` serves one, otherwise `Rebuild` |
| Prep.KeepFirst | utils/prep.py:49-52 | each row whose key tuple no earlier row had |
| Prep.Dedup | utils/prep.py:44-52 | with key columns, the date sort then the first row per key (an error without a date column); without them, the first of each identical row |
| Prep.NatureFilter | utils/prep.py:55-56 | the rows whose stripped, lower-cased nature is "vente", when the column exists |
| Prep.TypeFilter | utils/prep.py:57-58 | the flats and houses, when the column exists |
| Prep.Completeness | utils/prep.py:60-63 | the rows with price, area and date present, among those columns that exist |
| Prep.PostalStage | utils/prep.py:65-69 | the first five-digit run as postal code, rows starting "75", and the arrondissement from the last two digits |
| Prep.PriceStage | utils/prep.py:71-73 | the price per m² as price divided by area, when both columns exist |
| Prep.AreaCensor | utils/prep.py:75-80 | areas of at least 9 m², then at most their 99.9% quantile when it exists |
| Prep.PriceBand | utils/prep.py:82-88 | prices per m² between `BandLow` and `BandHigh` |
| Prep.Temporal | utils/prep.py:90-93 | the year and the quarter label of each date |
| Prep.RoomStage | utils/prep.py:95-104 | the room count rounded and cast to 16 bits, then its class; or the cast error |
| Prep.SurfaceStage | utils/prep.py:106-113 | the area class of each row |
| Prep.Project | utils/prep.py:120-132 | the final columns the table has, in the final order |
| Prep.FinalSort | utils/prep.py:131-135 | the rows sorted by date, missing dates last; an error without a date column |
| Prep.Refine | utils/prep.py:54-93 | the eight steps between deduplication and the classes |
| Prep.Finish | utils/prep.py:95-135 | the classes, the projection and the sort |
| Prep.Clean | utils/prep.py:37-135 | coercion, deduplication, `Refine` then `Finish` |
| Prep.CleanMeta | utils/prep.py:143-147 | the row count, the column count and the labels |
| Buckets.RoomClass | utils/prep.py:98-104 | `pd.cut` on the room bins, right-closed with include_lowest |
| Buckets.SurfaceClass | utils/prep.py:107-113 | `pd.cut` on the surface bins, left-closed, with or without include_lowest |
| DeepDives.PeriodLabel | sections/deep_dives.py:17-19 | "P2" in the P2 window, else "P1" in the P1 window, else missing |
| DeepDives.Labels | sections/deep_dives.py:17-19 | the period label of each year, in order |
| DeepDives.Periodized | sections/deep_dives.py:11-21 | the year cast to a 64-bit integer and the period label of each row; or the cast error |
| DeepDives.Missing | sections/deep_dives.py:25 | the needed labels that are not columns |
| DeepDives.SurfaceMix | sections/deep_dives.py:170-176 | rows with an area and a period, each with its left-closed surface bin |
| DeepDives.RoomMix | sections/deep_dives.py:195-200 | rows with a room count and a period, the count rounded to an integer and its class; or the cast error |

## Left out

- Reading and writing files, the directory glob, `stat`, `mkdir`, the clock and the `st.info` message are not modelled. The listing, the file contents, the time and the writability of each artifact are inputs.
- CSV parsing (separator sniffing, encodings, quoting) belongs to pandas. Each attempt's outcome is a parameter of `CsvFile`: raised, or a parsed table.
- Date parsing (`pd.to_datetime(errors="coerce")`) is a parameter from text to an optional date. A date cell already parsed is kept; any other non-text cell becomes missing.
- `Series.quantile` is a parameter that returns no value for an empty column. Interpolation and floating-point rounding are not modelled; numbers are exact reals.
- Ingest.SnakeHeaders: pandas keeps two columns whose labels normalise alike; the model reports `DuplicateHeader` instead. A frame with repeated labels has no map-per-row form.
- Loader.Concat: rows of one file lack the other files' columns, and these read as missing through `Get`; the model does not store explicit NA cells.
- The parquet round trip is not modelled: a written snapshot holds the table exactly, with no dtype change. A snapshot that cannot be read is the `Unreadable` value, and it makes `load_data` rebuild.
- Prep.SortByDate: pandas sorts with an unstable quicksort by default. The model uses a stable insertion sort, so among rows with the same date it fixes one order; the properties proved do not depend on that order.
- Prep.Clean: a missing `date_mutation` column makes the two sorts raise `KeyError` in pandas; the model returns `MissingDate`. A room count outside 16 bits makes `astype("Int16")` raise; the model returns `RoomsCast`.
- Prep.DedupKeysUnique: the key uniqueness is stated for the deduplication step only. `numero_disposition` is not among the final columns, so the clean table cannot state it.
- Categorical dtypes (utils/prep.py:93, 104, 113, 116-118) and `Int16` storage are representation only. The quarter label is the text "YYYYQn" ("NaT" for a missing date); classes are text cells.
- Frames.AsText: `astype(str)` renders floats and dates as their printed forms. The model renders only text, missing ("nan") and integers; floats and dates, which never reach those columns, become "".
- FieldNormalizer.ParseNumber: accepts an optional sign, digits with at most one decimal point, and an optional exponent. It does not accept "inf", "nan", hexadecimal, underscores, or leading and trailing spaces.
- Lower-casing and `\d`/`[0-9a-zA-Z]` are ASCII-only. Unicode case folding and non-ASCII digits are not modelled.
- The sign of zero and NaN arithmetic are not modelled. A division by a zero area gives an infinity carrying the sign of the price, and 0/0 gives a missing value.
- `.dt.year` on a year column that holds dates, and the Timestamp year range, are not modelled. DeepDives.ToNumeric maps a date cell to missing, where pandas gives nanoseconds since the epoch.
- DeepDives.ToInt64: a value outside 64 bits, or a non-integral float, makes the cast raise in pandas; the model returns an error instead of an exception.
- The group-by/share aggregation, the Altair charts and the Streamlit layout of the deep-dive page are not modelled; nor are the other dashboard sections.
- `_cache_paths` only builds two paths and creates the cache directory; the model passes the snapshot path in as text.
- The two `mkdir` calls are assumed to succeed. `_cache_paths` (utils/io.py:27, called at line 138 whatever `use_parquet_cache` says) and `make_df_clean` (utils/prep.py:140) create the cache directory outside any `try`, so a failure there raises. "A failed write leaves the returned table unchanged" holds only for the writes inside the `try` blocks.
- Json: an object is its member list. A top-level lookup takes the last member with the key, as a Python dict does. Repeated keys in nested objects are not collapsed, so a hand-edited metadata file with repeated keys inside the signature never matches, where Python might match it. The metadata `load_data` writes never repeats a key.

# icu-features loading core in Dafny

This project models the pure core of the `icu_features` package:

- **the feature-name generator** `features`. It walks the variable reference row by row and names a variable `log_<tag>` when its `LogTransform` is true. It then expands the variable by type:
  - a static variable becomes its name;
  - a continuous variable becomes `_ffilled`, `_missing` and `_sq_ffilled` plus one column per feature and horizon;
  - a categorical or treatment-indicator variable becomes its name plus feature × horizon columns;
  - a continuous treatment becomes the feature × horizon columns only.

  It appends `time_hours` and enforces an optional allow-list of variable tags. Each matched row consumes one occurrence of its tag. Leftover tags are reported as unknown variables, and an unknown data type is an error.
- **the pure parts of `load`**:
  - the split filter on `patient_id_hash`: train < 0.7, 0.7 ≤ val < 0.85, test ≥ 0.85, train_val < 0.85; any other split is rejected;
  - the list of columns to read;
  - the row filter: outcome non-null, hash in range;
  - the sort by `(dataset, stay_id_hash, time_hours)`;
  - the shape of the returned tuple `(X, y, *other_columns)`.
- **the diagnosis-block mapping** of `icd_codes.py`:
  - ICD-10 codes go to ICD-10-CM blocks;
  - ICD-9 codes go through ICD-10 first, retrying without dots on a miss;
  - per row, the blocks are de-duplicated, stripped of empty results and sorted;
  - the ICD-10-derived list is followed by the ICD-9-derived list;
  - the eICU comma-joined ICD-9 column is split on `", "`.

Files:

| file | module | contents |
|---|---|---|
| `wrappers.dfy` | `Wrappers`, `Errors` | `Option`, `Result`, and the three `ValueError`s the core raises |
| `strings.dfy` | `Strings` | `str(int)`, Python's `str` ordering, `sorted(set(...))`, `split(", ")` / `", ".join` |
| `constants.dfy` | `Constants` | the default horizons and feature kinds |
| `features.dfy` | `FeatureNames` | `features` and its properties |
| `loader.dfy` | `Loader` | `load` and its properties |
| `icd_codes.dfy` | `IcdCodes` | `icd10_blocks`, `icd9_blocks` and the per-row mapping |

The allow-list check is not a set difference. A set-based check would only require every requested tag to be present. The code instead removes one occurrence per matched row and then one `time_hours`. So a tag requested twice but present once is reported as unknown. `FeatureNames.FeaturesWithAllowList` states the multiset condition the code implements.

External inputs are parameters of the model:
- the variable reference (`seq<Row>`);
- the feature tables of the sources (`seq<seq<Record>>`);
- the ICD lookup (`Mapper`, a function from a code and two code systems to an optional code).

## Model

| member | source | states |
|---|---|---|
| FeatureNames.Classify | icu_features/load.py:201-235 | A static row is classified static whatever its data type. Classification succeeds exactly for static rows and the four known data types. Otherwise the error is `Unknown DataType` carrying the row's data type. |
| FeatureNames.DisplayName | icu_features/load.py:198-199 | The name is `log_<tag>` if and only if `LogTransform` is `True`. A false or null flag leaves the bare tag. |
| FeatureNames.Resolve | icu_features/load.py:169-178 | Each feature-kind list and the horizons take the default (`[mode, num_nonmissing]`, the seven continuous features, `[num, any]`, `[rate]`, `[8, 24]`) exactly when the argument is `None`, and the given list otherwise. |
| FeatureNames.Cross | icu_features/load.py:209-213 | The comprehension yields `|features|·|horizons|` names; CrossIndex gives each position. |
| FeatureNames.CrossIndex | icu_features/load.py:209-213 | The horizon cross product has `|features|·|horizons|` entries, features outermost. Entry `i·|horizons|+j` is `<name>_<feature i>_h<horizon j>`. |
| FeatureNames.CrossOmitsBareName | icu_features/load.py:228-233 | The horizon columns never include the bare variable name, so a continuous treatment contributes no column under its own name. |
| FeatureNames.KindNames | icu_features/load.py:201-233 | Per kind: a static variable gives just its name. A continuous one starts with `_ffilled`, `_missing`, `_sq_ffilled`. Categorical and treatment-indicator ones start with the bare name. A continuous treatment never contains the bare name. After the lead names come exactly the horizon cross product, for a total of `lead + |features|·|horizons|`. |
| FeatureNames.KindNamesLayout | icu_features/load.py:201-233 | The block of names for one variable kind has its lead columns first: 1 for static, categorical and treatment indicator, 3 for continuous, 0 for continuous treatment. Feature i at horizon j follows at offset `lead + i·|horizons| + j`. |
| FeatureNames.RowNames | icu_features/load.py:198-235 | One reference row yields names exactly when its type is known. It yields 1, 3+|C|·|H|, 1+|K|·|H|, 1+|I|·|H| or |T|·|H| names for static, continuous, categorical, treatment-indicator and continuous-treatment rows. An unknown data type fails with that type. |
| FeatureNames.StaticIgnoresDataType | icu_features/load.py:201-202 | A static row yields just its display name, whatever its data type says. |
| FeatureNames.RemoveFirst | icu_features/load.py:195-196 | `list.remove` drops exactly one occurrence: the length shrinks by one and the multiset loses one copy of the value. |
| FeatureNames.ScanRows | icu_features/load.py:186-235 | The row walk keeps an allow-list leftover exactly when one was given, never grows it, and can fail only on an unknown data type. |
| FeatureNames.Features | icu_features/load.py:130-245 | With no allow-list, a successful result ends in `time_hours`. An `Unknown variables` error arises only with an allow-list and a non-empty leftover. No other error kinds occur. |
| FeatureNames.ScanWithoutAllowList | icu_features/load.py:184-235 | Without an allow-list the walk succeeds if and only if every row has a known type. The name count is then the sum of the per-row widths. Otherwise the error names the data type of the first unknown row. |
| FeatureNames.ScanAppend | icu_features/load.py:189-235 | Names follow reference order. Splitting the reference in two gives the first part's names followed by the second part's names. |
| FeatureNames.FeaturesWithoutAllowList | icu_features/load.py:237-238 | Without an allow-list the result is the row walk's names (one block per row, `TotalWidth` in all) followed by `time_hours`. It succeeds if and only if all types are known. |
| FeatureNames.ScanLeftover | icu_features/load.py:186-196 | After a successful walk (every matched row has a known data type), the leftover holds exactly the requested tags minus one occurrence per reference row's tag, as a multiset. |
| FeatureNames.FeaturesWithAllowList | icu_features/load.py:237-243 | With an allow-list, and when every matched row has a known data type (the row walk succeeds), the call succeeds if and only if the requested tags fit, as a multiset, within the reference tags plus one `time_hours`. On failure the reported leftover is the multiset difference. |
| FeatureNames.UnknownTagReported | icu_features/load.py:242-243 | When every matched row has a known data type, a requested tag that is neither a reference tag nor `time_hours` makes the call fail with `Unknown variables`, and the leftover contains that tag. |
| FeatureNames.UnknownTypeBeforeUnknownVariables | icu_features/load.py:192-235 | A requested row with an unknown data type raises `Unknown DataType` before the leftover check: `hr` typed `bogus` with request `[hr, x]` fails with the data-type error, not `Unknown variables`. |
| FeatureNames.FeaturesAllowListNames | icu_features/load.py:189-245 | With unique reference tags, a successful call with an allow-list returns the names of the selected rows in reference order, followed by `time_hours` exactly when the request holds more `time_hours` than the reference rows consume. |
| FeatureNames.DuplicateRequestRejected | icu_features/load.py:186-243 | A tag requested twice against a reference that lists it once fails with `Unknown variables` and leftover `[hr]`: each matched row consumes only one occurrence. |
| FeatureNames.SelectIgnoresOtherTags | icu_features/load.py:192-196 | Removing from the allow-list a tag that no row carries does not change which rows are selected. |
| FeatureNames.AllowListSelects | icu_features/load.py:189-196 | With unique reference tags, filtering by an allow-list yields the same names as running without one on the selected rows, in reference order. |
| FeatureNames.AgeAndHeartRate | icu_features/load.py:198-238 | A static `age` and a continuous `hr` with features mean and std at horizons 8 and 24 give `age, hr_ffilled, hr_missing, hr_sq_ffilled, hr_mean_h8, hr_mean_h24, hr_std_h8, hr_std_h24, time_hours`. |
| FeatureNames.DefaultWidths | icu_features/load.py:169-178 | With the default feature kinds and horizons a row contributes 1, 17, 5, 5 or 2 names, by kind. |
| Loader.SplitRange | icu_features/load.py:84-95 | The split filter fails if and only if a split is given and it is not train, val, test or train_val. The error carries the split. No split admits every hash. |
| Loader.SplitIntervals | icu_features/load.py:84-93 | train is `h < 0.7`, val is `0.7 <= h < 0.85`, test is `h >= 0.85`, train_val is `h < 0.85`. |
| Loader.SplitsPartition | icu_features/load.py:84-93 | train, val and test are pairwise disjoint and cover every hash. train_val is exactly train or val. |
| Loader.Matching | icu_features/load.py:82-93 | A record is kept, with its multiplicity, exactly when its outcome is non-null and its patient hash lies in the split's range. |
| Loader.Flatten | icu_features/load.py:115-119 | Reading all sources keeps every record of every source with its multiplicity. |
| Loader.Project | icu_features/load.py:119 | Reading a column subset preserves every requested column's value and the key fields, and every other non-key column reads as null. |
| Loader.ColumnsToLoad | icu_features/load.py:109-113 | The columns read are the features, then the outcome, `dataset` and `stay_id_hash`. `time_hours` follows if and only if the features lack it. Then come the other columns not already among those, each with its multiplicity in `other_columns` (repeats are kept, because the comprehension tests the list before extending it). Every feature, other column, outcome and key is read. |
| Loader.KeyLeTransitive | icu_features/load.py:120 | The sort key order `(dataset, stay_id_hash, time_hours)` is transitive. KeyLeTotal states it is total. |
| Loader.InsertByKey | icu_features/load.py:120 | Inserting into a key-sorted list keeps it sorted and adds exactly the new record. |
| Loader.SortByKey | icu_features/load.py:120 | The sorted frame is ordered by `(dataset, stay_id_hash, time_hours)` and is a permutation of its input. |
| Loader.LoadedRows | icu_features/load.py:115-123 | The loaded frame is sorted by key. It is a permutation of the projected matching records of all sources. Every row has a non-null outcome and a hash in the split's range. |
| Loader.Assemble | icu_features/load.py:125-127 | The result tuple is the feature frame, the outcome vector, then one series per other column, in order. |
| Loader.Load | icu_features/load.py:79-127 | An invalid split fails first with `Invalid split`. Otherwise `load` fails exactly when `features` fails, with the same error. On success it returns `2 + |other_columns|` outputs. The frame's columns are the feature names. Its rows are sorted and a permutation of the projected matching records. `y` has one non-null outcome per row, aligned with the frame, and each other column is returned as a series of the frame's rows. |
| Strings.IntToStringInjective | icu_features/load.py:210 | `str(int)` is injective: distinct integers render to distinct strings, with negatives written `-n`. |
| FeatureNames.HorizonNameInjective | icu_features/load.py:210 | For the same variable and feature, distinct horizons never produce the same column name. |
| Strings.SortedSet | icu_features/icd_codes.py:65 | `sorted(set(...))` is strictly increasing in Python's string order and has exactly the input's elements. |
| Strings.SortedListingUnique | icu_features/icd_codes.py:65 | Two strictly sorted lists with the same elements are equal, so the sorted listing of a set is unique. |
| Strings.Split | icu_features/icd_codes.py:50 | `split(", ")` gives at least one part. Joining the parts with `", "` gives back the string, and no part contains the separator. |
| IcdCodes.Icd10Block | icu_features/icd_codes.py:23-25 | The block of an ICD-10 code is the lookup result, or `""` on a miss. |
| IcdCodes.RemoveDots | icu_features/icd_codes.py:32 | Removing dots leaves no `.` and keeps every other character with its multiplicity. A code without dots is unchanged. |
| IcdCodes.RemoveDotsAppend | icu_features/icd_codes.py:32 | Removing dots from a concatenation gives the concatenation of the results; together with RemoveDotsChar this fixes the result to the input with its dots dropped and every other character kept in order. |
| IcdCodes.RemoveDotsChar | icu_features/icd_codes.py:32 | A single `.` becomes `""`; any other single character is kept. |
| IcdCodes.Icd9ToIcd10 | icu_features/icd_codes.py:30-32 | The first ICD-9→ICD-10 lookup is kept when it succeeds or when the code is null. Only a miss on a non-null code triggers the dot-free retry. |
| IcdCodes.Icd9Block | icu_features/icd_codes.py:28-35 | An ICD-9 code without an ICD-10 translation maps to `""`. Otherwise it maps to the block of its translation. |
| IcdCodes.Icd9RetryOnlyOnMiss | icu_features/icd_codes.py:30-32 | When the first lookup succeeds, the retry does not influence the block. |
| IcdCodes.Icd9BlockEmpty | icu_features/icd_codes.py:33-35 | For a lookup that never returns an empty block, the ICD-9 block is `""` if and only if both translations miss or the block lookup misses. |
| IcdCodes.DottedCodeRetried | icu_features/icd_codes.py:31-32 | On a miss, `410.0` is retried as `4100`. |
| IcdCodes.BlockList | icu_features/icd_codes.py:62-75 | A row's block list is strictly sorted and contains no `""`. A block is in it if and only if it is the non-empty block of some code of the row. |
| IcdCodes.BlockListDistinct | icu_features/icd_codes.py:65 | No block appears twice in one row's list. |
| IcdCodes.BlockListIsSortedImage | icu_features/icd_codes.py:62-75 | Any strictly sorted list of exactly the row's non-empty blocks is that row's block list. |
| IcdCodes.SplitDiagnoses | icu_features/icd_codes.py:45-56 | A null eICU diagnosis string gives no codes. A present one gives non-null parts that join back to it and contain no separator. |
| IcdCodes.FillNull | icu_features/icd_codes.py:59-60 | A null diagnosis list becomes `[]`; a present list is kept as is. |
| IcdCodes.CombinedBlocks | icu_features/icd_codes.py:77-79 | The combined column is the ICD-10-derived list followed by the ICD-9-derived list, unchanged. A block is in it if and only if it is a non-empty block of some code of either column. |
| IcdCodes.MapRow | icu_features/icd_codes.py:58-79 | Null diagnosis columns give an empty block list, and no row's list contains `""`. |
| IcdCodes.CombinedKeepsCrossDuplicates | icu_features/icd_codes.py:77-79 | The two halves are not de-duplicated against each other: a block reached from both an ICD-10 and an ICD-9 code appears twice. |

## Left out

- Reading `variables.tsv` and the parquet files, `ParquetDataset` filter pushdown, `pl.from_arrow`, and writing `sta.parquet` back. The reference rows, the source tables and the rewritten column are values of the model instead.
- The click command `main` and its dataset-name argument, the module-level `datasets` list, and the `mapper = Mapper()` tables of `icdmappings`. The lookup is the parameter `Mapper`; its contents are not modelled.
- The curated variable lists of `constants.py`, which the core does not use. Only the default horizons and feature kinds are modelled.
- Floating point: the hash thresholds 0.7 and 0.85 and the hash and time values are exact reals. NaN is not distinguished from null, and `assert np.isnan(y).sum() == 0` becomes the statement that every outcome value is non-null.
- The NumPy arrays' contiguity and dtypes, and Polars column dtypes. A frame is a list of column names and a list of records; a column absent from a record reads as null.
- The redundant `horizons` default in `load`. The model resolves defaults once, in `FeatureNames.Resolve`.
- Loader.SortByKey: states sortedness and permutation but not the order of rows with equal keys, because the Polars sort used is not stable.
- Loader.LoadedRows: same as `SortByKey`, the order of rows with equal keys is left open.
- Loader.ColumnsToLoad: reading the same column twice is not modelled. Duplicates within `other_columns` are kept in the list, as the comprehension does, but the model's records hold one value per column name.
- FeatureNames.ScanLeftover: states the leftover as a multiset, not in the order the error message would print it.
- FeatureNames.Features: its own contract gives only the shape of the result. The returned list is stated by `FeaturesWithoutAllowList` (no allow-list) and `FeaturesAllowListNames`. When to expect success or failure is stated by `FeaturesWithAllowList`.
- FeatureNames.FeaturesAllowListNames: states the returned list only for references with unique tags. With a repeated tag, the allow-list consumes one occurrence per matching row, and the names are not stated as a selection.
- IcdCodes.SplitDiagnoses: the eICU column is modelled as one comma-joined string (or null) per row. The nested `map_elements` over a list column and the following `cast(pl.List(pl.String))` are not modelled.
- Ragged inputs (a source lacking a requested column, a row with a null patient hash) are not modelled; a missing cell reads as null.

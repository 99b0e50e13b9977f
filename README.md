# AmBev data challenge: a verified model of the pipeline's hand-written logic

The repository is a pandas and Keras pipeline in three stages. This project models the logic its authors wrote themselves, and proves what that logic promises:

- **Ingestion** (`src/data/make_dataset.py`). The workbook is downloaded unless it is already on disk. Then each sheet is written to its own CSV unless that CSV already exists. The first row of a sheet becomes the CSV header. The filesystem is modelled as the set of paths that exist, and the workbook as a sequence of sheets, each a name and the rows read from it. The module is `MakeDataset`.
- **Cleaning** (`src/features/build_features.py`). The class `PrepAmbev` holds the DataFrame `_data`. Its steps rewrite the table cell by cell (`replace_by_index`, `check_float`, `bin_to_num`, `calc_per_acum`) or replace it (`transform_month`, `filter_valid`). The table is modelled as a list of unique column names and a rectangular sequence of rows. A cell is a `str`, a number or NaN. The module is `BuildFeatures`. Its class `PrepAmbev` keeps the table in two fields, and each step is a method of it. The cell-by-cell steps are loops: `ReplaceByIndex` is proved equal to a function of the writes it does, `CheckFloat` and `BinToNum` to per-cell functions, and `CalcPerAcum` against its own cell-by-cell postcondition. `TransformMonth` and `FilterValid` replace the table with a function of the old one, as the source does.
- **Samples for the recurrent network** (`src/models/rnn_lstm_model.py`). The `nom_` columns to encode are selected by a regular expression. Then overlapping windows of `3 * 10621` rows are cut from the processed matrix, each labelled by column 17 of the next row. The module is `RnnLstmModel`.

The module `Cells` holds what the stages share: the cell type, the Python exceptions the modelled code raises, substring occurrence and `get_loc` on column names.

Python's exceptions are results, not crashes. `SaveToCsv` returns the `IndexError` an empty sheet raises. `ReplaceByIndex` returns the `KeyError` or `IndexError` of the first bad write and keeps the writes done before it. `SlidingWindows` returns the `NameError` of the save at line 100 when the loop never ran.

## Model

| member | source | states |
|---|---|---|
| Cells.IndexOf | src/features/build_features.py:55 | `get_loc` gives a position that holds the name, with no earlier position holding it |
| BuildFeatures.Classify | src/features/build_features.py:82-90 | the result is 1, 0 or NaN. It is 1 exactly for a str in `one`, which is tested first. Without `zero` it is never NaN. With `zero` it is NaN exactly when the cell is not a str in `one` or `zero`, so numbers and NaN become NaN |
| BuildFeatures.Reclassify | src/features/build_features.py:80-90 | after one or more passes over the same cell, it is 1, 0 or NaN, and never NaN without `zero` |
| BuildFeatures.ReclassifyRepeated | src/features/build_features.py:80-90 | a column listed twice or more in `cols` ends as all 0 without `zero`, and all NaN with it, whatever it held |
| BuildFeatures.StatusMembershipAsWritten | src/features/build_features.py:156 | with `one` passed as the bare string, `""`, `"Aprovado"` and `"Monitoramento"` all become 1. With a one-element list, `"Aprovado"` becomes 0 |
| BuildFeatures.StatusMembershipIntended | src/features/build_features.py:156 | with the one-element list, a cell becomes 1 exactly when it is the string `"Monitoramento Aprovado"`, and 0 otherwise |
| BuildFeatures.ToFloat | src/features/build_features.py:62-65 | the result is a float or NaN. A number stays and NaN stays NaN. A str becomes its parsed value when `float()` succeeds, and NaN otherwise |
| BuildFeatures.ToFloatIdempotent | src/features/build_features.py:60-65 | converting twice equals converting once, so a column listed twice is converted as if listed once |
| BuildFeatures.ShiftMonth | src/features/build_features.py:95 | a str raises TypeError and NaN stays NaN. A number `v` becomes `r` with `v = r * 10000 + 2017`, the inverse of the encoding |
| BuildFeatures.ShiftMonthMonotone | src/features/build_features.py:95 | the encoding keeps the order of months |
| BuildFeatures.TransformColumn | src/features/build_features.py:95 | the new table exists exactly when no cell of the column is a str. It has the same rows, with that column shifted and every other cell unchanged |
| BuildFeatures.CellEquals | src/features/build_features.py:100 | pandas `==` between a cell and the value: NaN equals nothing, not even NaN, and otherwise cells are equal when they hold the same value |
| BuildFeatures.FilterRows | src/features/build_features.py:100 | a row is in the result exactly when it is in the input and its cell equals the value (NaN equals nothing). The result is never longer than the input |
| BuildFeatures.FilterRowsAppend | src/features/build_features.py:100 | filtering a concatenation is the concatenation of the filtered parts, so kept rows keep their relative order |
| BuildFeatures.FilterRowsCount | src/features/build_features.py:100 | each kept row appears as often as in the input, and each dropped row not at all |
| BuildFeatures.FilterRowsIdempotent | src/features/build_features.py:98-101 | filtering twice equals filtering once |
| BuildFeatures.Product | src/features/build_features.py:106 | the product is NaN exactly when either factor is NaN, and otherwise the product of the numbers |
| BuildFeatures.Pairs | src/features/build_features.py:53-54 | the (index, col) pairs in the order of the two loops: every column of the first index, then every column of the next |
| BuildFeatures.PairsLength | src/features/build_features.py:53-54 | the loops write once per combination of a listed index and a listed column, duplicates included |
| BuildFeatures.ApplyWrites | src/features/build_features.py:53-55 | the writes done in order, each putting `val` at its row position and column. The first unknown column raises KeyError, checked before an out-of-range position raises IndexError. The run stops there and keeps the earlier writes. The table keeps its shape |
| BuildFeatures.PairsMembers | src/features/build_features.py:53-55 | the nested loops write at (index, col) exactly for the indexes listed and the columns listed |
| BuildFeatures.ApplyWritesOk | src/features/build_features.py:53-55 | the writes finish without an exception exactly when every column is known and every position is in range for `iat` (negative positions count from the end) |
| BuildFeatures.ApplyWritesCells | src/features/build_features.py:53-55 | after valid writes, a cell holds `val` exactly when some write targets it, and every other cell is unchanged |
| BuildFeatures.TargetsPairs | src/features/build_features.py:53-55 | a cell is targeted exactly when its column is listed and some listed index denotes its row |
| BuildFeatures.ReplaceByIndexOk | src/features/build_features.py:51-56 | replace_by_index finishes without an exception exactly when `indexes` or `cols` is empty, or all columns are known and all indexes are in range |
| BuildFeatures.ReplaceByIndexCells | src/features/build_features.py:51-56 | after a successful replace_by_index, a cell holds `val` exactly when its column is listed and some listed index denotes its row, and every other cell is unchanged |
| BuildFeatures.ReplaceByIndexOutcome | src/features/build_features.py:51-56 | replace_by_index succeeds exactly when `indexes` or `cols` is empty, or all columns are known and all indexes are in range. On success, the listed cells hold `val` and the rest are unchanged |
| BuildFeatures.PrepAmbev.ReplaceByIndex | src/features/build_features.py:51-56 | the new table and the error are those of the writes done in loop order. Success is exactly the condition above, and on success the listed cells hold `val` with the rest unchanged. The column names are unchanged |
| BuildFeatures.PrepAmbev.CheckFloat | src/features/build_features.py:58-66 | every cell of a listed column becomes `ToFloat` of its old value, so it is a float or NaN. Every other cell, the row count and the column names are unchanged |
| BuildFeatures.PrepAmbev.BinToNum | src/features/build_features.py:73-91 | every cell of a listed column is classified once per listing. Cells of unlisted columns, the row count and the column names are unchanged |
| BuildFeatures.PrepAmbev.TransformMonth | src/features/build_features.py:93-96 | an unknown column gives KeyError and a str cell gives TypeError, each with the table unchanged. Otherwise the column is shifted and every other cell stays |
| BuildFeatures.PrepAmbev.FilterValid | src/features/build_features.py:98-101 | an unknown column gives KeyError with the table unchanged. Otherwise the rows become `FilterRows` of the old rows on that column |
| BuildFeatures.PrepAmbev.CalcPerAcum | src/features/build_features.py:103-107 | where `per_acum_acumulado` was NaN, it becomes `per_peso_kpi * per_pontos_acumulado`. Every other cell and the row count are unchanged |
| RnnLstmModel.Search | src/models/rnn_lstm_model.py:44-45 | `pattern.search` finds a match exactly when `nom_` followed by a word character occurs at some position from the start on |
| RnnLstmModel.NomCols | src/models/rnn_lstm_model.py:44-47 | a name is selected exactly when it is a column containing `nom_` and a word character. No more names than columns are selected |
| RnnLstmModel.NomColsAppend | src/models/rnn_lstm_model.py:44-47 | selection distributes over concatenation, so the selected names keep column order |
| RnnLstmModel.Window | src/models/rnn_lstm_model.py:90 | a window has `w` rows of exactly 17 values |
| RnnLstmModel.SlidingWindows | src/models/rnn_lstm_model.py:88-101 | X and y are built exactly when there are more rows than `w` and more than 17 columns. Otherwise the result is NameError (no rows to window) or IndexError (no column 17). There are `L - w` samples of each. Sample `k` is rows `k .. k+w-1` cut to columns 0..16, and label `k` is column 17 of row `k+w` |
| RnnLstmModel.ScriptSamples | src/models/rnn_lstm_model.py:82-101 | with `i_len = 31863`, a table of more than 31863 rows and at least 18 columns gives `L - 31863` samples of 31863 x 17 values. Sample `k` is rows `k .. k + 31862` cut to columns 0..16, and its label is column 17 of row `k + 31863`. A table with too few columns gives IndexError, and a shorter table gives NameError |
| RnnLstmModel.WindowShift | src/models/rnn_lstm_model.py:88-95 | sample `k + 1` is sample `k` without its first row, plus the next row |
| MakeDataset.Join | src/data/make_dataset.py:44 | `os.path.join` returns the second part when it is absolute. Otherwise the result starts with the first part. It always ends with the second part |
| MakeDataset.ReplaceAll | src/data/make_dataset.py:64 | `str.replace`: every non-overlapping occurrence of the pattern, from left to right, is replaced. An empty pattern inserts the replacement around every character |
| MakeDataset.ReplaceAllAbsent | src/data/make_dataset.py:64 | `str.replace` leaves a string without the pattern unchanged |
| MakeDataset.ReplaceAllSkip | src/data/make_dataset.py:64 | a prefix without the pattern's first character passes through `str.replace` unchanged |
| MakeDataset.ReplaceAllFirst | src/data/make_dataset.py:64 | the first occurrence, after such a prefix, is replaced, and replacing continues after it |
| MakeDataset.ReplaceRawAbsent | src/data/make_dataset.py:64 | a `/` followed by a name with no `/` and not starting with `raw` holds no `/raw` to replace |
| MakeDataset.CsvBase | src/data/make_dataset.py:63-64 | the base of the CSV names is `join(raw_path, filename)` with every `.xlsb` removed, then every `/raw` turned into `/interim` |
| MakeDataset.CsvPath | src/data/make_dataset.py:70 | the path is the base, `_`, the sheet name, then `.csv`, at known positions |
| MakeDataset.CsvPathInjective | src/data/make_dataset.py:70 | two sheets with different names never share a CSV |
| MakeDataset.CsvBaseShape | src/data/make_dataset.py:63-64 | for `<stem>.xlsb` in `<root>/raw/`, the CSV base is `<root>/interim/<stem>` |
| MakeDataset.ScriptCsvBase | src/data/make_dataset.py:92-94 | with the script's constants, the CSV base is `data/interim/ambev-final-dataset` |
| MakeDataset.ScriptCsvPath | src/data/make_dataset.py:63-70 | with the script's constants, sheet `s` goes to `data/interim/ambev-final-dataset_<s>.csv` |
| MakeDataset.FeatureInputIsSheetCsv | src/features/build_features.py:140 | the file the cleaning stage reads is the CSV of the sheet `AmBev_final_dataset`, and of no other sheet |
| MakeDataset.CheckDownload | src/data/make_dataset.py:44-52 | there is no download exactly when `join(raw_path, filename)` exists. Otherwise the download goes from `url` to exactly that path |
| MakeDataset.Converted | src/data/make_dataset.py:85 | the CSV of a non-empty sheet is written at the sheet's path, with the first row read as header and the rest as data rows |
| MakeDataset.ConvertedSplit | src/data/make_dataset.py:85 | the header followed by the data rows gives back the rows read, so there is one data row fewer than rows read. The CSV is at the sheet's path |
| MakeDataset.Plan | src/data/make_dataset.py:68-87 | the sheets in order: one whose CSV exists is skipped; an empty one stops the run with the IndexError of `df[0]`; any other is converted, and its path then exists for the sheets after it |
| MakeDataset.PlanWrites | src/data/make_dataset.py:68-87 | only missing files are written, and each is the conversion of a non-empty sheet of the workbook |
| MakeDataset.PlanWritesOnce | src/data/make_dataset.py:68-87 | no path is written twice |
| MakeDataset.PlanError | src/data/make_dataset.py:75-85 | the only exception is the IndexError of `df[0]`, raised for an empty sheet whose CSV was missing. Without such a sheet there is none |
| MakeDataset.PlanCoversSheets | src/data/make_dataset.py:68-87 | after a run without an exception, every sheet has its CSV |
| MakeDataset.PlanNothingToDo | src/data/make_dataset.py:71-73 | when every sheet's CSV exists, nothing is read or written |
| MakeDataset.PlanRerun | src/data/make_dataset.py:71-73 | re-running the conversion after a complete run writes nothing |
| MakeDataset.ReadSheet | src/data/make_dataset.py:75-80 | the list `df` ends holding the rows of the sheet, in order |
| MakeDataset.SaveToCsv | src/data/make_dataset.py:55-88 | the files written, in order, and the exception are those of `Plan`. The paths existing afterwards are the old ones plus those written |
| MakeDataset.RunScript | src/data/make_dataset.py:91-98 | the script downloads exactly when the workbook is missing, and afterwards it exists |
| MakeDataset.RunScriptTwice | src/data/make_dataset.py:91-98 | after a run without an exception, a second run downloads nothing and writes nothing |

## Left out

- The Keras model, its callbacks and its training (src/models/rnn_lstm_model.py:106-134) are deep-learning library code and floating-point training.
- The `X.npy`/`y.npy` cache (src/models/rnn_lstm_model.py:84-86) and the saves at lines 100-101 are file I/O. `SlidingWindows` always builds the arrays.
- The `ml_belt.Prep` steps (`drop_cols`, `drop_nulls`, `drop_not_nulls`, `fill_null_with`, `encode`, `scale`, `apply_custom`, the `df` property) are not part of this model: their source is in another library.
- The constructor of `PrepAmbev` comes from `ml_belt.Prep`, whose source is not part of this model. `BuildFeatures.PrepAmbev.constructor` takes the table as given.
- `rename_cols`, `replace_nan`, `astype` and `sort_values` are thin wrappers whose behaviour lives in pandas.
- Python's `float()` on a str is the parameter `parse` of `ToFloat` and `CheckFloat`. Its grammar is not modelled.
- Floating point is modelled by reals. `ShiftMonth` and `Product` are exact, with no rounding and no infinities.
- The download, the reading of the xlsb workbook and the writing of CSVs are I/O. The filesystem is a set of paths, the workbook a sequence of sheets, and a written CSV a header and a body.
- Logging and printing (`init_log`, `log`, the progress prints) are left out.
- `\w` is matched on ASCII letters, digits and `_`. Python's Unicode word characters are not modelled, and the column names this pattern sees are ASCII.
- Row labels are not modelled. In the script the labels are not positions: line 48 turns them into the strings `'0'`..`'n-1'`, and lines 149 and 158 drop rows before `check_float`, `bin_to_num` and `calc_per_acum` run. These methods reach rows only through the labels `iterrows` yields, so each row is visited once, in order, whatever its label, and the model visits rows by position. `replace_by_index` uses the positional `iat`, which the model follows, negative positions included. Cells are `str`, number or NaN. Python `bool` and `int`/`float` are not told apart.
- BuildFeatures.PrepAmbev.BinToNum: requires every listed column to exist. With an unknown column pandas raises KeyError part-way through the first row, after rewriting the columns listed before it, and that partial state is not modelled.
- BuildFeatures.PrepAmbev.CheckFloat: requires every listed column to exist. With an unknown column the bare `except` catches the KeyError, and pandas then adds a NaN column by enlargement. That is not modelled.
- BuildFeatures.PrepAmbev.CalcPerAcum: requires its three columns to exist. It also requires no str factor where `per_acum_acumulado` is NaN: `str * float` raises TypeError and `str * int` repeats the string, and neither is modelled.
- BuildFeatures.PrepAmbev.TransformMonth: an unknown column is a KeyError even on an empty table, where pandas may not call the function at all.
- RnnLstmModel.NomCols: returns no names for an empty column list, where `np.vectorize` without `otypes` raises ValueError at line 46. The script cannot reach that case, because `read_csv` on a file with no columns raises first.
- The default `one=['sim']` of `bin_to_num` (src/features/build_features.py:73) is not modelled: `BinToNum` always takes `one` as a parameter, and the script always passes one.
- `str.replace` with an empty pattern is modelled in `ReplaceAll`, but no lemma is stated about it, because the script never uses an empty pattern.

## Findings

| source | as written | input that shows it | evidently intended | confidence | as-written member | corrected member |
|---|---|---|---|---|---|---|
| src/features/build_features.py:156 | `one = 'Monitoramento Aprovado'` is a bare string, so `val in one` at line 83 is a substring test | a `bin_status_meta` cell `"Aprovado"` becomes 1, and filter_valid at line 158 keeps its row | `one = ['Monitoramento Aprovado']`, so only that exact status becomes 1 | medium, not executed | BuildFeatures.StatusMembershipAsWritten | BuildFeatures.StatusMembershipIntended |

# Formose_2022 processing scripts, modelled in Dafny

The Formose_2022 processing scripts analyse time series of compound concentrations from formose-reaction experiments. This project models them in Dafny. Each data set is a tagged CSV "data report": an experiment code, conditions, analysis details, a series (time) column, and data and error columns. The scripts read these reports and then:

- compute per-compound averages, deviations and p-values;
- compute relative differences between a steady and a perturbed state, normalised to [-1, 1];
- compute multi-timescale windowed differences of the traces;
- correlate those differences with the input flow and colour-code each correlation;
- group traces by compound for plotting;
- write results back as CSV text.

The model covers the sequence, dictionary and text handling around the numerics. There is one module per source file, or per concern within a file:

| module | file | models |
|---|---|---|
| `ReportSections` | `data_report.py` | `import_file_section`; the parsing stages of `read_from_file` |
| `ReportWriter` | `data_report.py` | `rows_from_dict`, `columns_from_dict`, `to_string` |
| `DataReports` | `data_report.py` | the `data_report` class, with the fields it updates in place and the `remove_*` edits on `data` |
| `Differencing` | `data_analysis_functions.py` | `differential_means` |
| `CorrelationAnalysis` | `data_analysis_functions.py` | `correlation` |
| `CompositionalShift` | `data_analysis_functions.py` | `data_averages`, `data_standard_deviations`, `data_p_values`; `difference_average` and `normalized_difference`, as methods of a class holding `dic_rel_diff` |
| `Plotting` | `plotting_functions.py` | `compound_wise_dataframes` (grouping and NaN padding), `differential`, the colour-range part of `corr` |
| `FileWriters` | `file_writers.py` | the text each of the three CSV writers builds |
| `ConfigFile` | `config_file.py` | `load_config`, `load_exp_info` |
| `CompInfo` | `comp_info.py` | the `information` constructor (row parsing, display-name rewriting, colour shades); `load_colours_dict` |

The supporting modules are these:

- `Wrappers`: Option, Result and the Python exceptions raised.
- `Strings`: Python's `in`, `split`, `join`, `strip` and `replace`, and the line splitter `spl_lin`.
- `Dicts`: insertion-ordered dictionaries, as sequences of (key, value) entries.
- `ExtReals`: a float is a finite real, ±inf or NaN.
- `Series`: sums, means and extrema.
- `CsvLines`: comma-terminated lines and how they read back.

Each loop of the source is a method with a loop and invariants. Each method is proved against a specification function, and the properties are proved about those functions. Python exceptions are `Fail(...)` results.

Where the scripts stop partway, the model keeps the partial state they leave:

- a `KeyError` in `difference_average`;
- a `ValueError` in `normalized_difference`;
- a missing key in `remove_specific_entries`.

Three behaviours of the code that the model keeps:

- The two passes of `differential_means` give `N - w` and then `N - 2w` values (`data_analysis_functions.py:135-143`).
- `correlation` raises when `max(r) == |min(r)|`: neither comparison binds `corr_range`, which stays empty (or unbound, in `corr`).
- A series of at most `2w` samples gives an empty output from `differential_means`, and `correlation` then raises, because `pearsonr` rejects a series of fewer than two values.

## Model

| member | source | states |
|---|---|---|
| `Strings.SplitFieldsClean` | processing_scripts_formose/data_report.py:44 | no field returned by `spl_lin` is empty or holds a comma |
| `Strings.TextLines` | processing_scripts_formose/config_file.py:23 | the empty lines of the split text are dropped |
| `CsvLines.SplitFieldsJoin` | processing_scripts_formose/data_report.py:44 | clean fields joined by commas read back as exactly those fields |
| `CsvLines.SplitFieldsTerminated` | processing_scripts_formose/data_report.py:202-206 | clean fields, each followed by a comma, with the commas stripped, read back as those fields |
| `Series.CenteredSumsToZero` | processing_scripts_formose/data_analysis_functions.py:145-149 | values with their mean subtracted sum to exactly 0 |
| `Series.MeanOrNaN` | processing_scripts_formose/data_analysis_functions.py:23 | `np.average` is NaN exactly for an empty series |
| `Dicts.Delete` | processing_scripts_formose/data_report.py:341 | `del d[k]` raises KeyError exactly when `k` is absent; otherwise it removes that one entry and keeps the order |
| `Dicts.PutAllLastWins` | processing_scripts_formose/config_file.py:25-28 | after a run of assignments a key holds the value of its last assignment |
| `CompInfo.ShadesOf` | processing_scripts_formose/comp_info.py:43-48 | four shades, the first the row colour unmixed and the last fully faded to the grey `#c5c9c7`; ValueError exactly when the fader rejects the colour at one of the four mixes |
| `CompInfo.Shades` | processing_scripts_formose/comp_info.py:43-48 | the shade loop, which stops at the first rejected colour, computes exactly `ShadesOf` |
| `CompInfo.DisplayNameUnchanged` | processing_scripts_formose/comp_info.py:31-40 | a name without "alpha", "beta", "RR" or "RS" leaves the replace chain unchanged |
| `CompInfo.DisplayName` | processing_scripts_formose/comp_info.py:31-40 | definition of the replace chain; properties in `DisplayNameUnchanged`, `SplitDescriptorStays`, `DisplayNameRRS` and `DisplayNameAlphaBeta` |
| `CompInfo.SplitDescriptorStays` | processing_scripts_formose/comp_info.py:37-40 | "R,R,S" holds none of the later patterns, so it is not rewritten again |
| `CompInfo.DisplayNameRRS` | processing_scripts_formose/comp_info.py:35-40 | "RRS" becomes "R,R,S" because the three-letter rule runs before "RR"/"RS" |
| `CompInfo.DisplayNameAlphaBeta` | processing_scripts_formose/comp_info.py:32-34 | "alpha-beta" becomes "α,β" because the whole pattern is replaced before its parts |
| `CompInfo.CompoundOf` | processing_scripts_formose/comp_info.py:29-49 | a row of fewer than five fields raises IndexError and a row whose colour the fader rejects raises ValueError; otherwise fields 0, 1 and 3 are kept verbatim and the colour is its four shades |
| `CompInfo.Compounds` | processing_scripts_formose/comp_info.py:27-49 | reading the table raises only IndexError or ValueError |
| `CompInfo.CompoundsFail` | processing_scripts_formose/comp_info.py:27-49 | reading raises exactly when some row after the header has fewer than five fields or a colour the fader rejects |
| `CompInfo.CompoundsFailRows` | processing_scripts_formose/comp_info.py:27-49 | the same, stated over the rows after the header |
| `CompInfo.RowsFirstBad` | processing_scripts_formose/comp_info.py:27-49 | the loop over the rows raises the exception of the first bad row: IndexError for a short row, ValueError for a rejected colour |
| `CompInfo.CompoundsFirstBad` | processing_scripts_formose/comp_info.py:27-49 | the exception is that of the first bad row: IndexError for a short row, ValueError for a rejected colour |
| `CompInfo.CompoundsRow` | processing_scripts_formose/comp_info.py:27-49 | row `a` of the file gives compound `a - 1`; the header row is skipped |
| `CompInfo.CompoundsRows` | processing_scripts_formose/comp_info.py:27-49 | one compound per row after the header, in file order |
| `CompInfo.ReadRows` | processing_scripts_formose/comp_info.py:18-20 | the fields of every line, header included |
| `CompInfo.Information.constructor` | processing_scripts_formose/comp_info.py:51-55 | the five lists are stored as given |
| `CompInfo.ReadCompound` | processing_scripts_formose/comp_info.py:29-49 | reading one row gives exactly `CompoundOf`, its exceptions included |
| `CompInfo.ReadCompounds` | processing_scripts_formose/comp_info.py:27-49 | the loop raises exactly when the table does, with the same exception; otherwise it returns the five aligned lists of the compounds in order |
| `CompInfo.NewInformation` | processing_scripts_formose/comp_info.py:7-55 | a new object whose five lists are aligned and hold the compounds' fields in order, or the exception reading the table raises |
| `CompInfo.InformationRows` | processing_scripts_formose/comp_info.py:27-55 | entry `a - 1` of each list comes from row `a`: fields 0, 1 and 3 verbatim, field 2 as its display name, field 4 as its four shades |
| `CompInfo.ColourEntry` | processing_scripts_formose/comp_info.py:81-82 | a line maps field 3 to field 4; fewer than five fields raises IndexError |
| `CompInfo.ColourLines` | processing_scripts_formose/comp_info.py:77-80 | the non-empty lines are kept and the first is skipped |
| `CompInfo.ColoursDict` | processing_scripts_formose/comp_info.py:74-84 | the only exception is IndexError |
| `CompInfo.LoadColoursDict` | processing_scripts_formose/comp_info.py:74-84 | the loop builds exactly `ColoursDict` |
| `CompInfo.ColoursFail` | processing_scripts_formose/comp_info.py:77-82 | reading raises exactly when a non-empty line after the first has fewer than five fields |
| `CompInfo.ColoursKeys` | processing_scripts_formose/comp_info.py:77-82 | the keys are exactly the fourth fields of those lines |
| `CompInfo.ColoursLastWins` | processing_scripts_formose/comp_info.py:80-82 | a compound's colour is field 4 of the last line naming it |
| `ConfigFile.ConfigEntry` | processing_scripts_formose/config_file.py:27-28 | a line without a comma raises IndexError; otherwise key and value are its first two comma tokens, and the line starts with them |
| `ConfigFile.Config` | processing_scripts_formose/config_file.py:20-30 | the only exception is IndexError |
| `ConfigFile.LoadConfig` | processing_scripts_formose/config_file.py:20-30 | the loop builds exactly `Config` |
| `ConfigFile.ConfigFail` | processing_scripts_formose/config_file.py:23-28 | the config raises exactly when some non-empty line has no comma |
| `ConfigFile.ConfigPairKeys` | processing_scripts_formose/config_file.py:23-28 | line `i` gives the pair keyed by its first token |
| `ConfigFile.ConfigKeys` | processing_scripts_formose/config_file.py:23-28 | the keys are exactly the first tokens of the non-empty lines |
| `ConfigFile.ConfigLastWins` | processing_scripts_formose/config_file.py:25-28 | a key maps to the second token of the last line setting it; extra tokens are ignored |
| `ConfigFile.Selected` | processing_scripts_formose/config_file.py:36-39 | only rows whose first field is an experiment are kept |
| `ConfigFile.SelectedAppend` | processing_scripts_formose/config_file.py:36-39 | selection keeps file order |
| `ConfigFile.SelectedOne` | processing_scripts_formose/config_file.py:37-39 | a line is kept exactly when its first field is in `experiments` |
| `ConfigFile.SelectRows` | processing_scripts_formose/config_file.py:36-39 | the selection loop builds exactly `Selected` |
| `ConfigFile.ExpEntry` | processing_scripts_formose/config_file.py:42-46 | fields 1, 2, 3, the description and field 5; fewer than six fields raises IndexError |
| `ConfigFile.ExpEntryName` | processing_scripts_formose/config_file.py:43-44 | field 4 without "stdev" is kept, and "stdev" alone becomes "σ" |
| `ConfigFile.ExpInfo` | processing_scripts_formose/config_file.py:33-48 | the only exception is IndexError |
| `ConfigFile.LoadExpInfo` | processing_scripts_formose/config_file.py:33-48 | the loops build exactly `ExpInfo` |
| `ConfigFile.ExpInfoFails` | processing_scripts_formose/config_file.py:42-46 | reading raises exactly when a selected row has fewer than six fields |
| `ConfigFile.ExpInfoCodes` | processing_scripts_formose/config_file.py:40-47 | `condition` is the selected codes in file order, and the table's keys are exactly those codes |
| `ConfigFile.ExpInfoLastWins` | processing_scripts_formose/config_file.py:42-46 | a code maps to the `ExpEntry` fields of its last selected row |
| `CorrelationAnalysis.Trunc` | processing_scripts_formose/data_analysis_functions.py:215 | `int()` truncates toward zero: a non-negative value goes to the largest integer not above it, a negative one to the smallest integer not below it |
| `CorrelationAnalysis.Flatten` | processing_scripts_formose/data_analysis_functions.py:188 | the rows joined in order: the earlier rows' values followed by the last row, and a value is in the result exactly when it is in some row |
| `CorrelationAnalysis.SymmetricRange` | processing_scripts_formose/data_analysis_functions.py:187-194 | no range exactly when `max == abs(min)`; otherwise `M > 0` is the largest magnitude of the batch: every value lies in `[-M, M]` and some value has magnitude `M` |
| `CorrelationAnalysis.ConvValRange` | processing_scripts_formose/data_analysis_functions.py:204-213 | within the range `conv_val` lies in [0, 360] and falls as the correlation grows |
| `CorrelationAnalysis.ColourIndexBounds` | processing_scripts_formose/data_analysis_functions.py:204-215 | the colour-map index of a value in the range lies in [0, 360] |
| `CorrelationAnalysis.ColourIndexEnds` | processing_scripts_formose/data_analysis_functions.py:204-215 | `-M` maps to index 0 and `M` to index 360 |
| `CorrelationAnalysis.ColourIndexMonotone` | processing_scripts_formose/data_analysis_functions.py:204-215 | a larger correlation never gets a smaller index |
| `CorrelationAnalysis.SymmetricRangeReached` | processing_scripts_formose/data_analysis_functions.py:187-215 | some correlation of the batch gets colour index 0 or 360 |
| `CorrelationAnalysis.CorrTable` | processing_scripts_formose/data_analysis_functions.py:175-184 | one row per flow interval, or the first exception of the loops, which is IndexError or ValueError |
| `CorrelationAnalysis.PearsonR` | processing_scripts_formose/data_analysis_functions.py:182 | `pearsonr` raises ValueError exactly for series of different lengths or of fewer than two values; otherwise it gives the coefficient of the parameter, a real or NaN |
| `CorrelationAnalysis.CorrRow` | processing_scripts_formose/data_analysis_functions.py:179-183 | one coefficient per compound, or IndexError or ValueError |
| `CorrelationAnalysis.CorrRowSpec` | processing_scripts_formose/data_analysis_functions.py:179-183 | one interval raises exactly when an empty flow list is read or a compound series has fewer than two values or another length than `flow[a][0]`; otherwise entry `k` is `pearson(val[a][k], flow[a][0])` |
| `CorrelationAnalysis.CorrTableSpec` | processing_scripts_formose/data_analysis_functions.py:175-184 | the loops raise exactly when some interval has no compound list or is not correlatable; otherwise row `a` holds `pearson(val[a][k], flow[a][0])` for every compound `k` of `val[a]` |
| `CorrelationAnalysis.PearsonTable` | processing_scripts_formose/data_analysis_functions.py:175-184 | the two loops compute exactly `CorrTable`, the exception included |
| `CorrelationAnalysis.PearsonRow` | processing_scripts_formose/data_analysis_functions.py:179-183 | the compound loop of one interval computes exactly `CorrRow` |
| `CorrelationAnalysis.Coloured` | processing_scripts_formose/data_analysis_functions.py:207-217 | one coloured row per requested interval |
| `CorrelationAnalysis.ColourRows` | processing_scripts_formose/data_analysis_functions.py:207-217 | IndexError exactly when there are more intervals than correlation rows; otherwise the coloured rows |
| `CorrelationAnalysis.Correlation` | processing_scripts_formose/data_analysis_functions.py:158-219 | the stages in order: the loops' exception; ValueError for ragged rows or an empty batch; IndexError at line 204 for a NaN coefficient or a tie; IndexError for more intervals than rows; otherwise the coloured rows |
| `CorrelationAnalysis.CorrelationOutcome` | processing_scripts_formose/data_analysis_functions.py:158-219 | what `correlation` returns or raises: only IndexError or ValueError, and on success the table of coefficients exists and there is one coloured row per interval; the individual cases are in `CorrelationTieRaises`, `CorrelationNaNRaises`, `CorrelationShortRaises` and `CorrelationShape` |
| `CorrelationAnalysis.CorrelationTieRaises` | processing_scripts_formose/data_analysis_functions.py:187-204 | a batch with `max == abs(min)`, all-zero included, raises IndexError at line 204 |
| `CorrelationAnalysis.CorrelationNaNRaises` | processing_scripts_formose/data_analysis_functions.py:182-204 | a NaN coefficient makes both comparisons false, so no range is bound and line 204 raises IndexError |
| `CorrelationAnalysis.CorrelationShortRaises` | processing_scripts_formose/data_analysis_functions.py:182 | a compound series of fewer than two values, such as the empty differential of a short trace, or of another length than its flow series makes `correlation` raise |
| `CorrelationAnalysis.CorrelationOk` | processing_scripts_formose/data_analysis_functions.py:175-217 | a success passed every check: the loops ran, the rows are rectangular, the batch is non-empty without NaN, a range was bound and there are enough rows |
| `CorrelationAnalysis.CorrelationShape` | processing_scripts_formose/data_analysis_functions.py:175-217 | on success the batch is correlatable and there are no more intervals than flow lists; list `a` pairs each coefficient `pearson(val[a][k], flow[a][0])`, in order, with the colour of an index in [0, 360] |
| `CorrelationAnalysis.ColouredShape` | processing_scripts_formose/data_analysis_functions.py:207-217 | row `a` of the coloured rows pairs each coefficient of `val[a]` with the colour of an index in [0, 360] |
| `CorrelationAnalysis.ColouredEntry` | processing_scripts_formose/data_analysis_functions.py:211-215 | one coloured entry is the coefficient and `cmap` of an index in [0, 360] |
| `CorrelationAnalysis.TableRangeReached` | processing_scripts_formose/data_analysis_functions.py:187-215 | in a table of defined coefficients some entry has the largest magnitude and gets colour index 0 or 360 |
| `CorrelationAnalysis.CorrelationRangeReached` | processing_scripts_formose/data_analysis_functions.py:187-215 | on success some coefficient of `all_corr` gets colour index 0 or 360: the range is attained |
| `DataReports.ReadHead` | processing_scripts_formose/data_report.py:73-88 | reading the code and conditions keeps the condition keys distinct |
| `DataReports.ReadTables` | processing_scripts_formose/data_report.py:90-116 | data and error tables have distinct keys |
| `DataReports.ReadDetails` | processing_scripts_formose/data_report.py:118-122 | the detail keys stay distinct |
| `DataReports.ParseReport` | processing_scripts_formose/data_report.py:73-122 | a successful read yields dictionaries with distinct keys |
| `DataReports.ParseReportOf` | processing_scripts_formose/data_report.py:75-122 | the staged reading computes exactly `ParseReport` |
| `DataReports.ReadHeadOf` | processing_scripts_formose/data_report.py:75-88 | computes exactly `ReadHead` |
| `DataReports.ReadTablesOf` | processing_scripts_formose/data_report.py:90-116 | computes exactly `ReadTables` |
| `DataReports.ReadDetailsOf` | processing_scripts_formose/data_report.py:118-122 | computes exactly `ReadDetails` |
| `DataReports.OutputName` | processing_scripts_formose/data_report.py:263-266 | no name gives the report's own name; a given name is kept as the prefix and ends with ".csv" |
| `DataReports.OutputNameIdempotent` | processing_scripts_formose/data_report.py:263-266 | naming the output again with the chosen name changes nothing |
| `DataReports.ArgMin` | processing_scripts_formose/data_report.py:323 | `np.argmin` is the first position of the smallest value |
| `DataReports.CompareKeys` | processing_scripts_formose/data_report.py:314-317 | exactly the positions of the keys containing the token, increasing |
| `DataReports.Sums` | processing_scripts_formose/data_report.py:319-321 | one sum per compared key |
| `DataReports.ChosenIndex` | processing_scripts_formose/data_report.py:313-325 | the deleted key contains the token |
| `DataReports.ChosenIndexMinimal` | processing_scripts_formose/data_report.py:313-325 | the deleted key has the smallest sum of the keys containing the token, and a strictly smaller sum than those before it |
| `DataReports.RemoveRepeat` | processing_scripts_formose/data_report.py:313-325 | ValueError exactly when no key contains the token; otherwise one entry fewer and the keys stay distinct |
| `DataReports.RemoveRepeatWithout` | processing_scripts_formose/data_report.py:313-325 | exactly the chosen entry is removed and the rest keep their order |
| `DataReports.RemoveInOrder` | processing_scripts_formose/data_report.py:311-325 | each handled token removes one entry; the only error is ValueError |
| `DataReports.RemoveInOrderStep` | processing_scripts_formose/data_report.py:313-325 | one more token continues the removal from the current dictionary |
| `DataReports.Removed` | processing_scripts_formose/data_report.py:313-325 | one deleted key per token |
| `DataReports.RemoveInOrderDeletes` | processing_scripts_formose/data_report.py:311-325 | a successful removal deletes exactly the listed keys and nothing else |
| `DataReports.RemovedKeys` | processing_scripts_formose/data_report.py:311-325 | the deleted keys are distinct keys of the original, each containing its token |
| `DataReports.RemoveAll` | processing_scripts_formose/data_report.py:340-341 | the only error is KeyError |
| `DataReports.RemoveAllOk` | processing_scripts_formose/data_report.py:340-341 | a successful removal removes exactly the listed keys |
| `DataReports.RemoveAllValid` | processing_scripts_formose/data_report.py:340-341 | a successful removal had present, distinct keys |
| `DataReports.RemoveAllSucceeds` | processing_scripts_formose/data_report.py:340-341 | present, distinct keys are removed without error |
| `DataReports.RemoveAllStop` | processing_scripts_formose/data_report.py:340-341 | after a KeyError the remaining keys change nothing |
| `DataReports.BelowKeys` | processing_scripts_formose/data_report.py:358-361 | ValueError exactly when some series is empty; otherwise exactly the keys whose maximum is below the threshold, without repeats |
| `DataReports.BelowKeysStop` | processing_scripts_formose/data_report.py:358-361 | after the first empty series the rest changes nothing |
| `DataReports.DataReport.constructor` | processing_scripts_formose/data_report.py:12-27 | placeholder names and empty tables |
| `DataReports.DataReport.ReadFromFile` | processing_scripts_formose/data_report.py:60-122 | the file name is set; on success every field holds what `ParseReport` reads, otherwise its error is returned |
| `DataReports.DataReport.Store` | processing_scripts_formose/data_report.py:73-116 | the fields hold exactly the parsed code, conditions, series, data, errors and details; the file name is unchanged and the report stays valid |
| `DataReports.DataReport.ToNumpy` | processing_scripts_formose/data_report.py:124-144 | one row per entry of the series length; a one-value entry is broadcast, and any other length mismatch raises ValueError |
| `DataReports.DataReport.ToString` | processing_scripts_formose/data_report.py:211-249 | the text is `ReportText` of the fields |
| `DataReports.DataReport.WriteToFile` | processing_scripts_formose/data_report.py:251-273 | the name written to is `OutputName`, and the text written is `ReportText` |
| `DataReports.DataReport.FindRepeatDataEntries` | processing_scripts_formose/data_report.py:275-295 | exactly the first-space tokens shared by two or more keys |
| `DataReports.DataReport.RemoveRepeatEntries` | processing_scripts_formose/data_report.py:297-325 | each repeated token is handled once, in some order; `data` becomes `RemoveInOrder` of the old data over that order; without error every repeated token was handled |
| `DataReports.DataReport.RemoveSpecificEntries` | processing_scripts_formose/data_report.py:327-341 | `data` and the error are `RemoveAll` of the old data |
| `DataReports.DataReport.RemoveEntriesBelowThreshold` | processing_scripts_formose/data_report.py:343-363 | exactly the keys whose maximum is below the threshold are deleted; an empty series raises ValueError and deletes nothing |
| `DataReports.RemoveRepeatOf` | processing_scripts_formose/data_report.py:313-325 | the scan computes exactly `RemoveRepeat` |
| `DataReports.CompareKeysOf` | processing_scripts_formose/data_report.py:314-317 | the loop computes exactly `CompareKeys` |
| `DataReports.SumsOf` | processing_scripts_formose/data_report.py:319-321 | the loop computes exactly `Sums` |
| `DataReports.BelowKeysOf` | processing_scripts_formose/data_report.py:358-361 | the loop computes exactly `BelowKeys` |
| `DataReports.SectionOf` | processing_scripts_formose/data_report.py:223-229 | the loop computes exactly `SectionDict` |
| `Differencing.BlockMeanDifferences` | processing_scripts_formose/data_analysis_functions.py:135-143 | `N - 2w` values (none when `N <= 2w`) |
| `Differencing.ScaledBy` | processing_scripts_formose/data_analysis_functions.py:151 | one value per input |
| `Differencing.Normalised` | processing_scripts_formose/data_analysis_functions.py:145-151 | one value per input |
| `Differencing.MovingMeans` | processing_scripts_formose/data_analysis_functions.py:135-138 | `N - w` values, entry `k` the mean of `d[k..k+w)` |
| `Differencing.LagDifferences` | processing_scripts_formose/data_analysis_functions.py:140-143 | `N - w` values, entry `k` is `y[k+w] - y[k]` |
| `Differencing.CenterAndScale` | processing_scripts_formose/data_analysis_functions.py:145-151 | centering then division by `std` is `Normalised` |
| `Differencing.DifferentialSeries` | processing_scripts_formose/data_analysis_functions.py:133-151 | `N - 2w` values: the block-mean differences (block `[j+w, j+2w)` minus block `[j, j+w)`), normalised |
| `Differencing.NormalisedSumsToZero` | processing_scripts_formose/data_analysis_functions.py:145-151 | with a non-zero deviation every output is finite and the outputs sum to 0 |
| `Differencing.LastMatch` | processing_scripts_formose/data_analysis_functions.py:126-131 | the last key containing the token, or none when no key contains it |
| `Differencing.FindLastKey` | processing_scripts_formose/data_analysis_functions.py:126-131 | the key scan finds exactly `LastMatch` |
| `Differencing.MatchedSeriesAllMatch` | processing_scripts_formose/data_analysis_functions.py:126-133 | when every token matches, there is one series per token: the value of its last matching key |
| `Differencing.MatchedSeries` | processing_scripts_formose/data_analysis_functions.py:126-133 | definition: the series of the last key matching each token, in token order; properties in `MatchedSeriesAllMatch` and `MatchedSeriesSkips` |
| `Differencing.MatchedSeriesSkips` | processing_scripts_formose/data_analysis_functions.py:126-133 | a token with no matching key is skipped |
| `Differencing.NormalisedAll` | processing_scripts_formose/data_analysis_functions.py:126-153 | one transformed series per matched series |
| `Differencing.NormalisedMatchedSnoc` | processing_scripts_formose/data_analysis_functions.py:126-153 | one more token appends its transformed series if it matches, and nothing otherwise |
| `Differencing.CombinedLags` | processing_scripts_formose/data_analysis_functions.py:125-153 | one interval's list is the transformed series of every matched token, in `l` order |
| `Differencing.DifferentialMeans` | processing_scripts_formose/data_analysis_functions.py:101-155 | one list per interval, in order; list `i` is that list for window `t_i / sample_time` |
| `FileWriters.AppendTerminated` | processing_scripts_formose/file_writers.py:32-33 | appends the fields, each followed by a comma |
| `FileWriters.AppendRows` | processing_scripts_formose/file_writers.py:36-46 | appends one comma-terminated line per row |
| `FileWriters.AverageStdevHeaderClean` | processing_scripts_formose/file_writers.py:16 | the header fields read back unchanged |
| `FileWriters.AverageStdevFields` | processing_scripts_formose/file_writers.py:19-22 | KeyError exactly when the key prefix before "/" has no index or the key has no deviation; otherwise four fields, starting with the index and the prefix |
| `FileWriters.AverageStdevRows` | processing_scripts_formose/file_writers.py:18-22 | one row per compound; the only error is KeyError |
| `FileWriters.AverageStdevRowsSpec` | processing_scripts_formose/file_writers.py:18-22 | the table raises exactly when some compound raises; otherwise row `i` is compound `i`'s fields |
| `FileWriters.AverageStdevLine` | processing_scripts_formose/file_writers.py:19-22 | one compound's line, or KeyError |
| `FileWriters.AverageStdevStop` | processing_scripts_formose/file_writers.py:18-22 | a compound that raises makes the whole writer raise |
| `FileWriters.AverageStdevStep` | processing_scripts_formose/file_writers.py:18-22 | one more compound adds its row and its line |
| `FileWriters.AverageStdevBody` | processing_scripts_formose/file_writers.py:18-22 | the loop builds the lines of `AverageStdevRows`, or raises KeyError exactly when they do |
| `FileWriters.WriteAverageStdevCsv` | processing_scripts_formose/file_writers.py:1-25 | the header line, then one comma-joined line per compound, or KeyError |
| `FileWriters.AverageStdevReadBack` | processing_scripts_formose/file_writers.py:16-22 | with clean fields, the text reads back as the header and each compound's index, prefix, average and deviation, in order |
| `FileWriters.CorrValueFields` | processing_scripts_formose/file_writers.py:37-39 | the label and one field per entry |
| `FileWriters.CorrHexFields` | processing_scripts_formose/file_writers.py:43-45 | the label and one field per entry |
| `FileWriters.CorrRows` | processing_scripts_formose/file_writers.py:31-46 | IndexError exactly when there are fewer intervals than lists; otherwise `1 + 2·len(corr)` rows |
| `FileWriters.CorrRowsAt` | processing_scripts_formose/file_writers.py:36-46 | row `1 + a` holds interval `a`'s correlations and row `1 + len(corr) + a` its colours |
| `FileWriters.WriteCorrCsv` | processing_scripts_formose/file_writers.py:29-50 | the text is the comma-terminated lines of `CorrRows`, or IndexError |
| `FileWriters.CorrReadBack` | processing_scripts_formose/file_writers.py:31-46 | with clean fields, the text reads back as `1 + 2·len(corr)` comma-ending lines: the header, the correlation rows, then the colour rows |
| `FileWriters.RelDiffFields` | processing_scripts_formose/file_writers.py:73-75 | the key and one field per value |
| `FileWriters.RelDiffRows` | processing_scripts_formose/file_writers.py:66-76 | a header and one row per key |
| `FileWriters.WriteRelDiffCsv` | processing_scripts_formose/file_writers.py:53-80 | the text is the comma-terminated lines of `RelDiffRows` |
| `FileWriters.RelDiffReadBack` | processing_scripts_formose/file_writers.py:66-76 | with clean fields, the text reads back as "compound" and the experiment names, then each key with exactly its values, in order |
| `Plotting.AddTrace` | processing_scripts_formose/plotting_functions.py:51-54 | a new token goes last, and the grouping stays well formed |
| `Plotting.Traces` | processing_scripts_formose/plotting_functions.py:51-54 | the traces grouped under a token already present, or none for a new token |
| `Plotting.Label` | processing_scripts_formose/plotting_functions.py:43-46 | IndexError exactly when names are given but fewer than `c + 1`; otherwise the experiment code when no names are given, else `data_names[c]` |
| `Plotting.AddTraceKeys` | processing_scripts_formose/plotting_functions.py:51-54 | storing a trace adds its token and nothing else |
| `Plotting.AddTraceOverwrites` | processing_scripts_formose/plotting_functions.py:51-54 | the trace replaces what the same token and label held; other tokens keep their traces |
| `Plotting.AddReport` | processing_scripts_formose/plotting_functions.py:48-54 | a report keeps the grouping well formed |
| `Plotting.TokensAt` | processing_scripts_formose/plotting_functions.py:50 | one token per key: its prefix before "/" |
| `Plotting.Tokens` | processing_scripts_formose/plotting_functions.py:50 | definition; properties in `TokensAt` and `AddReportTokens` |
| `Plotting.AddReportTokens` | processing_scripts_formose/plotting_functions.py:48-54 | afterwards the tokens are the earlier ones and the report's key prefixes |
| `Plotting.AddReportTokensAt` | processing_scripts_formose/plotting_functions.py:48-54 | the same, key by key |
| `Plotting.Grouped` | processing_scripts_formose/plotting_functions.py:40-54 | IndexError exactly when names are given but too few; otherwise well formed |
| `Plotting.GroupReports` | processing_scripts_formose/plotting_functions.py:40-54 | the loop computes exactly `Grouped` |
| `Plotting.AddReportOf` | processing_scripts_formose/plotting_functions.py:48-54 | the loop computes exactly `AddReport` |
| `Plotting.MaxLen` | processing_scripts_formose/plotting_functions.py:62-65 | the length of the longest trace, 0 for none |
| `Plotting.LongestTrace` | processing_scripts_formose/plotting_functions.py:62-65 | the loop computes exactly `MaxLen` |
| `Plotting.Pad` | processing_scripts_formose/plotting_functions.py:68-71 | padded to the requested length |
| `Plotting.PadByAppend` | processing_scripts_formose/plotting_functions.py:68-71 | padding is the values followed by NaNs |
| `Plotting.Padded` | processing_scripts_formose/plotting_functions.py:62-71 | the labels are kept |
| `Plotting.PaddedShape` | processing_scripts_formose/plotting_functions.py:62-71 | every padded trace has the length of the longest trace and keeps its values as a prefix, with NaN after them |
| `Plotting.PadTraces` | processing_scripts_formose/plotting_functions.py:62-71 | the in-place padding loop computes exactly `Padded` |
| `Plotting.PaddedAll` | processing_scripts_formose/plotting_functions.py:56-77 | one table per compound token |
| `Plotting.CompoundWiseDataframes` | processing_scripts_formose/plotting_functions.py:23-77 | IndexError exactly when names are too few; otherwise the padded grouping |
| `Plotting.LagDiffs` | processing_scripts_formose/plotting_functions.py:206-210 | `len(y) - w` differences |
| `Plotting.DifferentialOutcome` | processing_scripts_formose/plotting_functions.py:200-221 | IndexError exactly when there are intervals but `val` is empty; otherwise one list per interval with one entry per series of `val[0]` |
| `Plotting.NormalisedLags` | processing_scripts_formose/plotting_functions.py:206-219 | one entry per series |
| `Plotting.LagRows` | processing_scripts_formose/plotting_functions.py:206-219 | the inner loop computes exactly `NormalisedLags` |
| `Plotting.Differential` | processing_scripts_formose/plotting_functions.py:200-221 | the loops compute exactly `DifferentialOutcome` |
| `Plotting.DifferentialCentered` | processing_scripts_formose/plotting_functions.py:204-217 | entry `k` of list `i` has `len(y) - t/30` values; with a non-zero deviation they are finite and sum to 0 |
| `Plotting.CorrOutcome` | processing_scripts_formose/plotting_functions.py:228-244 | apart from NameError, `corr` computes what `correlation` does; where `corr` raises NameError (a tie or a NaN coefficient), `correlation` raises IndexError |
| `Plotting.Corr` | processing_scripts_formose/plotting_functions.py:228-258 | the loops compute exactly `CorrOutcome` |
| `Plotting.CorrTieRaises` | processing_scripts_formose/plotting_functions.py:236-244 | a batch with `max == abs(min)` raises NameError |
| `ReportSections.SectionFromInRange` | processing_scripts_formose/data_report.py:48-56 | every position read lies in the file |
| `ReportSections.ReadLine` | processing_scripts_formose/data_report.py:52-56 | definition of one line: the end token clears the flag, and the line is read while the flag is set; properties in `SectionStep`, which unfolds one line through it |
| `ReportSections.SectionFrom` | processing_scripts_formose/data_report.py:44-56 | definition of the reader from a line on, with the flag on entry; properties in `SectionFromInRange`, `SectionFromFails`, `SectionStep`, `SectionIdle` and `SectionReading` |
| `ReportSections.Section` | processing_scripts_formose/data_report.py:31-58 | the only exception is StopIteration |
| `ReportSections.SectionFromFails` | processing_scripts_formose/data_report.py:49-51 | the reader fails only by StopIteration |
| `ReportSections.SectionStep` | processing_scripts_formose/data_report.py:48-56 | one step: a start line moves on to the next line, an end line clears the flag, and the line is read while the flag is set |
| `ReportSections.ImportFileSection` | processing_scripts_formose/data_report.py:31-58 | the reading loop computes exactly `Section` |
| `ReportSections.SectionIdle` | processing_scripts_formose/data_report.py:48-56 | outside a section, lines without the start token are skipped |
| `ReportSections.SectionReading` | processing_scripts_formose/data_report.py:48-56 | inside a section, every line before the end line is read |
| `ReportSections.SectionBetween` | processing_scripts_formose/data_report.py:44-58 | with one start line and a later end line, exactly the split lines strictly between them are returned |
| `ReportSections.StopFrom` | processing_scripts_formose/data_report.py:49-51 | a start token on the last line raises StopIteration from any position |
| `ReportSections.SectionStartOnLastLine` | processing_scripts_formose/data_report.py:49-51 | a start token on the last line raises StopIteration |
| `ReportSections.SectionRowsClean` | processing_scripts_formose/data_report.py:44-56 | every row read is the split form of a file line; no field is empty or holds a comma |
| `ReportSections.MinLen` | processing_scripts_formose/data_report.py:92 | the length of the shortest row, where `zip` stops |
| `ReportSections.Transpose` | processing_scripts_formose/data_report.py:92 | as many columns as the shortest row, each with one field per row |
| `ReportSections.TransposeTwice` | processing_scripts_formose/data_report.py:92 | transposing a rectangular table twice gives it back |
| `ReportSections.TransposeHeads` | processing_scripts_formose/data_report.py:92 | the columns' first fields are the first row |
| `ReportSections.ParseAll` | processing_scripts_formose/data_report.py:95 | fails exactly when some field does not parse; otherwise one value per field |
| `ReportSections.ColumnsDict` | processing_scripts_formose/data_report.py:93-95 | the only error is ValueError, and the keys are distinct |
| `ReportSections.ColumnsToDict` | processing_scripts_formose/data_report.py:93-95 | the loop computes exactly `ColumnsDict` |
| `ReportSections.ColumnsDictStops` | processing_scripts_formose/data_report.py:93-95 | after a ValueError the remaining columns change nothing |
| `ReportSections.ColumnsDictDistinct` | processing_scripts_formose/data_report.py:93-95 | with distinct names, the keys are the first fields in column order, each mapped to its parsed cells |
| `ReportSections.ConditionsFrom` | processing_scripts_formose/data_report.py:83-88 | the condition keys stay distinct |
| `ReportSections.ConditionsLastRowWins` | processing_scripts_formose/data_report.py:83-88 | a row no later row overrides sets its key: one value as a scalar, otherwise an array |
| `ReportSections.ConditionOf` | processing_scripts_formose/data_report.py:85-88 | a condition is a scalar exactly when its row holds one value, and then that value; otherwise the array of all values |
| `ReportSections.ConditionsStop` | processing_scripts_formose/data_report.py:83-88 | after an error the remaining rows change nothing |
| `ReportSections.ReadConditions` | processing_scripts_formose/data_report.py:83-88 | the loop computes exactly `ConditionsFrom` |
| `ReportSections.AnalysisFrom` | processing_scripts_formose/data_report.py:121-122 | IndexError exactly when some row is empty; the keys stay distinct |
| `ReportSections.ReadAnalysisDetails` | processing_scripts_formose/data_report.py:121-122 | the loop computes exactly `AnalysisFrom` |
| `ReportSections.ExperimentCodeFrom` | processing_scripts_formose/data_report.py:75-79 | the only error is IndexError |
| `ReportSections.ExperimentCodeStop` | processing_scripts_formose/data_report.py:75-79 | after an error the remaining lines change nothing |
| `ReportSections.ScanExperimentCode` | processing_scripts_formose/data_report.py:75-79 | the loop computes exactly `ExperimentCodeFrom` |
| `ReportSections.DataTable` | processing_scripts_formose/data_report.py:92-102 | the unit is the first field of the first row, and it is not among the distinct data keys |
| `ReportSections.DataTableColumns` | processing_scripts_formose/data_report.py:92-102 | the first column is the series; every other column becomes one entry, in order, holding its parsed cells ("nan" as 0) |
| `ReportSections.ParseCell` | processing_scripts_formose/data_report.py:95 | definition: "nan" reads as 0 in the data and error tables, any other field goes through `float`; properties in `ParseAll` |
| `ReportSections.DataTableSplit` | processing_scripts_formose/data_report.py:92-102 | the table is the series column and the remaining columns |
| `ReportSections.Zeros` | processing_scripts_formose/data_report.py:107 | `n` zeros |
| `ReportSections.ErrorTable` | processing_scripts_formose/data_report.py:104-116 | without an error section every data key gets zeros of the series length; keys stay distinct |
| `ReportSections.DataTableOf` | processing_scripts_formose/data_report.py:92-102 | computes exactly `DataTable` |
| `ReportSections.ErrorTableOf` | processing_scripts_formose/data_report.py:104-116 | computes exactly `ErrorTable` |
| `ReportWriter.RowLineRoundTrip` | processing_scripts_formose/data_report.py:164-176 | with clean fields, a written row reads back as its key and its fields |
| `ReportWriter.RowLine` | processing_scripts_formose/data_report.py:164-176 | definition of one written row; properties in `RowLineRoundTrip` |
| `ReportWriter.RowsFromDict` | processing_scripts_formose/data_report.py:146-176 | one stripped line per key, in order |
| `ReportWriter.RowLinesOf` | processing_scripts_formose/data_report.py:164-176 | one line per entry |
| `ReportWriter.Cells` | processing_scripts_formose/data_report.py:202-206 | one cell per column |
| `ReportWriter.CellsLine` | processing_scripts_formose/data_report.py:202-206 | IndexError exactly when some column lacks the `c`-th value; otherwise the comma-terminated cells |
| `ReportWriter.ColumnLines` | processing_scripts_formose/data_report.py:196-209 | IndexError exactly when the dictionary is empty or a column is shorter than the first; otherwise one header line plus one line per value of the first column |
| `ReportWriter.ColumnLinesAt` | processing_scripts_formose/data_report.py:196-209 | line 0 is the comma-joined keys and line `1 + c` the `c`-th values |
| `ReportWriter.ColumnRow` | processing_scripts_formose/data_report.py:202-206 | definition of one line of values; properties in `ColumnLinesAt` |
| `ReportWriter.ColumnLinesRoundTrip` | processing_scripts_formose/data_report.py:196-209 | with clean keys and cells, the header reads back as the keys and line `1 + c` as every column's `c`-th value |
| `ReportWriter.ColumnsFromDict` | processing_scripts_formose/data_report.py:178-209 | the loops compute exactly `ColumnLines` |
| `ReportWriter.SectionDict` | processing_scripts_formose/data_report.py:223-229 | the series column comes first |
| `ReportWriter.SectionDictFresh` | processing_scripts_formose/data_report.py:223-229 | with no entry named like the series, the section is the series column followed by the entries |
| `ReportWriter.ReportLinesLayout` | processing_scripts_formose/data_report.py:231-245 | the Dataset line, then conditions, details, data and errors, each between the start_/end_ markers the reader looks for |
| `ReportWriter.ReportLines` | processing_scripts_formose/data_report.py:231-245 | definition of the line sequence `to_string` joins; properties in `ReportLinesLayout` and `ReportTextLines` |
| `ReportWriter.ReportText` | processing_scripts_formose/data_report.py:211-249 | fails only with the IndexError of `columns_from_dict` |
| `ReportWriter.ReportTextLines` | processing_scripts_formose/data_report.py:231-249 | when no line holds a newline, splitting the text gives the report's lines back |
| `CompositionalShift.Token` | processing_scripts_formose/data_analysis_functions.py:75-79 | "no_comp" or a key containing the compound |
| `CompositionalShift.FindToken` | processing_scripts_formose/data_analysis_functions.py:76-79 | the scan computes exactly `Token` |
| `CompositionalShift.DataAverages` | processing_scripts_formose/data_analysis_functions.py:20-25 | the same keys as the data, each mapped to its mean (NaN when empty) |
| `CompositionalShift.DataStandardDeviations` | processing_scripts_formose/data_analysis_functions.py:40-45 | the same keys as the data, each mapped to its deviation |
| `CompositionalShift.PValues` | processing_scripts_formose/data_analysis_functions.py:61-98 | keys are "no_comp" or perturbed keys, at most one per compound, distinct |
| `CompositionalShift.PValuesSnoc` | processing_scripts_formose/data_analysis_functions.py:74-97 | each compound stores its t-test under its perturbed token, with `[0]` for a compound missing from a report |
| `CompositionalShift.SeriesOrZero` | processing_scripts_formose/data_analysis_functions.py:80-93 | the series stored under a token present in the report, and `[0]` for a missing token |
| `CompositionalShift.DataPValues` | processing_scripts_formose/data_analysis_functions.py:48-98 | the loop computes exactly `PValues` |
| `CompositionalShift.NonZero` | processing_scripts_formose/data_analysis_functions.py:256 | exactly the non-zero values |
| `CompositionalShift.RelativeDifference` | processing_scripts_formose/data_analysis_functions.py:248-274 | never NaN |
| `CompositionalShift.AbsentFromPerturbedIsZero` | processing_scripts_formose/data_analysis_functions.py:265-274 | a compound missing from the perturbed report contributes 0 |
| `CompositionalShift.AbsentFromSteadyIsInfinite` | processing_scripts_formose/data_analysis_functions.py:254-272 | a compound missing from the steady report with a positive perturbed mean gives +inf |
| `CompositionalShift.AppendDifferencesStops` | processing_scripts_formose/data_analysis_functions.py:248-276 | after a KeyError the rest of `list_comp` changes nothing |
| `CompositionalShift.AppendDifferencesKeys` | processing_scripts_formose/data_analysis_functions.py:248-276 | the table keeps its keys |
| `CompositionalShift.AppendDifferencesCompletes` | processing_scripts_formose/data_analysis_functions.py:276 | it completes exactly when every index is a key |
| `CompositionalShift.AppendDifferencesValues` | processing_scripts_formose/data_analysis_functions.py:248-276 | when it completes, each list is extended by exactly its own compounds' values, in order |
| `CompositionalShift.AppendedFor` | processing_scripts_formose/data_analysis_functions.py:248-276 | definition of the values appended for one key, in `list_comp` order; properties in `AppendDifferencesValues` |
| `CompositionalShift.AppendDifferences` | processing_scripts_formose/data_analysis_functions.py:248-276 | definition of the state after `difference_average` and whether it completed; properties in `AppendDifferencesStops`, `AppendDifferencesKeys`, `AppendDifferencesCompletes` and `AppendDifferencesValues` |
| `CompositionalShift.NonInf` | processing_scripts_formose/data_analysis_functions.py:297-301 | exactly the non-infinite values |
| `CompositionalShift.Amax` | processing_scripts_formose/data_analysis_functions.py:304 | NaN exactly when a value is NaN; otherwise the largest value: an upper bound that is one of the values |
| `CompositionalShift.Amin` | processing_scripts_formose/data_analysis_functions.py:305 | NaN exactly when a value is NaN; otherwise the smallest value: a lower bound that is one of the values |
| `CompositionalShift.Scale` | processing_scripts_formose/data_analysis_functions.py:304-309 | NaN exactly when a value is NaN; otherwise the largest magnitude: every value lies in `[-s, s]` and some value is `s` or `-s` |
| `CompositionalShift.NormalizedList` | processing_scripts_formose/data_analysis_functions.py:296-317 | the length is kept; ValueError exactly when every entry is infinite, the empty list included, and it is the only error |
| `CompositionalShift.NormalizedListBounds` | processing_scripts_formose/data_analysis_functions.py:304-317 | infinities become 1, and every finite output lies in [-1, 1] |
| `CompositionalShift.NormalizedListNoInf` | processing_scripts_formose/data_analysis_functions.py:311-317 | a normalised list holds no infinity: a zero scale only meets zeros, which give NaN |
| `CompositionalShift.NormalizedListReachesOne` | processing_scripts_formose/data_analysis_functions.py:304-317 | without NaN and with a non-zero finite value, some finite entry is normalised to exactly 1 or -1 |
| `CompositionalShift.NormalizedListFinite` | processing_scripts_formose/data_analysis_functions.py:304-317 | without NaN and with a non-zero finite value, every output is finite |
| `CompositionalShift.NormalizeAllStops` | processing_scripts_formose/data_analysis_functions.py:295-319 | after an exception the rest of `list_comp` changes nothing |
| `CompositionalShift.NormalizeAllShape` | processing_scripts_formose/data_analysis_functions.py:295-319 | every key and every list's length is kept |
| `CompositionalShift.NormalizeAllValues` | processing_scripts_formose/data_analysis_functions.py:295-319 | when it completes, every key `list_comp` names holds a list without infinities whose finite values lie in [-1, 1], and every other key keeps its list |
| `CompositionalShift.NormalizeAll` | processing_scripts_formose/data_analysis_functions.py:295-319 | definition of the state after `normalized_difference` and its exception; properties in `NormalizeAllStops`, `NormalizeAllShape` and `NormalizeAllValues` |
| `CompositionalShift.NormalizeList` | processing_scripts_formose/data_analysis_functions.py:296-317 | the loops compute exactly `NormalizedList` |
| `CompositionalShift.DivideAll` | processing_scripts_formose/data_analysis_functions.py:311-317 | infinities become 1 and every other value is divided by the scale |
| `CompositionalShift.RelativeDifferences.constructor` | 04_compositional_shift.py:53-55 | the accumulator starts as the given table |
| `CompositionalShift.RelativeDifferences.DifferenceAverage` | processing_scripts_formose/data_analysis_functions.py:222-278 | the table and completion flag are `AppendDifferences` of the old table |
| `CompositionalShift.RelativeDifferences.NormalizedDifference` | processing_scripts_formose/data_analysis_functions.py:281-320 | the table and the exception are `NormalizeAll` of the old table |

## Left out

- File and directory I/O (`open`, `read`, `write`, `print`, `os.makedirs`, `Path` joins) is not modelled. Readers take the file's text or lines; writers return the text they would write.
- Numeric routines from numpy, scipy and matplotlib are parameters of the model, not computed. They depend on IEEE rounding, square roots or colour interpolation:
  - `np.std` in `differential_means` and `differential`, and the sample deviation in `data_standard_deviations`;
  - `stats.pearsonr` and `stats.ttest_ind`;
  - `colorFader` (a parameter that may reject a colour, as `to_rgb` does), and the `LinearSegmentedColormap` followed by `rgb2hex`.
- Float formatting (`f"{x}"`) and parsing (`float(x)`) are parameters `fmt` and `parse`. Floats are reals without rounding. ±inf and NaN are explicit values (`ExtReal`) in the compositional-shift tables and the differenced series, and a `pearsonr` coefficient may be NaN; the report tables hold finite reals only.
- ReportSections.ParseAll: `float` of "inf", "-inf" or "nan" gives an infinity or NaN, which a report table of reals cannot hold; `parse` either accepts such a cell as a finite value or rejects it. Only the data section's literal "nan", which the source maps to 0, is modelled exactly.
- CompositionalShift.RelativeDifference: the source stores the Python int `0` for a NaN result, which prints as "0"; the model stores the float zero, which the writer formats like any other value ("0.0" in Python).
- CompositionalShift.NormalizedList: an infinity becomes the Python int `1`, which prints as "1"; the model stores the float one.
- FileWriters.WriteRelDiffCsv: because of the two lines above, the text for those entries is `fmt` of 0.0 or 1.0 where Python writes "0" or "1".
- CorrelationAnalysis.Correlation: ragged `all_corr` rows raise ValueError, as numpy 1.24 and later do at `np.array(all_corr)`; older numpy built an object array and failed later, at `np.amax`.
- CorrelationAnalysis.PearsonR: besides its input checks, `pearsonr` is the parameter `pearson`; that a constant series gives NaN is left to the parameter.
- Plot drawing is not modelled: `create_series_violin_plots`, `dendrogram_plot`, the pandas DataFrame construction, and the CSV file `corr` writes. `compound_wise_dataframes` returns the padded traces each DataFrame is built from.
- The top-level scripts 01-04 are orchestration and are not modelled, apart from how `dic_rel_diff` is initialised.
- Differencing.DifferentialMeans: requires every interval to be a positive multiple of `sample_time`. The truncation of a fractional window at data_analysis_functions.py:137 is not modelled.
- Plotting.Differential: requires every interval to be a positive multiple of 30, for the same reason.
- DataReports.DataReport.ReadFromFile: on an exception the contract leaves the fields other than the file name unspecified. The source has already stored the fields of the stages that completed (the experiment code, conditions added so far).
- DataReports.DataReport.RemoveRepeatEntries: Python iterates the set of repeated tokens in hash order. The model lets the method choose the order and states the result for the order it chose.
- FileWriters.WriteCorrCsv: the IndexError for a too-short interval list is checked before anything is built. The source raises midway, but nothing is written in either case.
- ConfigFile.LoadExpInfo: lines 45-46 (bind an empty list, then extend it) are modelled as one assignment of the five fields.
- Plotting.CorrOutcome: relates `corr` to `correlation` except in the tie and NaN cases, where `corr` raises NameError instead of IndexError.

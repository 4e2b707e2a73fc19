# MoMir data rules, modelled in Dafny

MoMir monitors three monuments of the Piazza dei Miracoli in Pisa: the Tower, the
Baptistery and the square around them. A set of data-treatment scripts turns the raw
survey files into tables. A dashboard then selects, reshapes and plots those tables.
This project models the discrete rules in both halves and proves what they promise:

- how the scripts build table keys, labels and names;
- which rows they keep or drop;
- how first-wins deduplication and outer joins lay out a yearly table;
- the sign rule of the Tower's radius and its override list;
- how dates are parsed (Python's `strptime` for the `D%Y%m%d`, `%Y-%m` and `%d/%m/%Y` formats);
- the dashboard's lookup, selection, filter, rebasing and dispatch rules.

Tables are in-memory values (`Frames.Frame`: an index, columns and a grid of optional
reals, where `None` is a missing value or NaN). Files, figures and the UI are not part of
the model.

One module per source file:

| module | file | source |
|---|---|---|
| `Common` | common.dfy | shared string, integer and list helpers (`str`, `int`, `split`, `join`, `unique`) |
| `Frames` | frames.dfy | the pandas operations used: transpose, `concat`, boolean row masks, `isin` column filters, `iloc`, column selection |
| `Dates` | dates.dfy | `datetime.strptime` / `strftime` for the three formats used |
| `TowerStatic` | tower_static.dfy | data_treatment/tower/tower_static_treatment.py |
| `TowerTreatment` | tower_treatment.dfy | data_treatment/tower/tower_data_treatment.py |
| `BaptisteryTreatment` | baptistery_treatment.dfy | data_treatment/baptistery/baptistery_data_treatment.py |
| `SquareTreatment` | square_treatment.dfy | data_treatment/square/square_data_treatment.py |
| `TowerPages` | tower_pages.dfy | src/pages/tower/functions.py (selection, `merge_and_filter_dataframe`, `get_unit`, `remove_outliers_iqr`) |
| `TowerGantt` | tower_gantt.dfy | src/pages/tower/functions.py (`gantt_chart` intervals) |
| `BaptisteryPages` | baptistery_pages.dfy | src/pages/baptistery/functions.py |
| `SquarePages` | square_pages.dfy | src/pages/square/functions.py |
| `Utils` | utils.dfy | src/utils/utils.py |

Code that updates objects in place is modelled with classes and methods:

- the Tower's benchmark table and registry (`TowerTreatment.BenchTable`, `TowerTreatment.TowerRegistry`);
- the Baptistery's position tables (`BaptisteryTreatment.PositionTable`);
- the store of files written by the static-telemetry script (`TowerStatic.StaticStore`);
- the in-place prism sort (`BaptisteryPages.SortPrisms`, on an `array`).

Loops in the source are methods with loop invariants. Each method is proved against a
specification function, and the function's properties are proved as lemmas.

## Model

| member | source | states |
|---|---|---|
| Common.SplitJoin | data_treatment/tower/tower_static_treatment.py:39-40 | splitting a `sep`-joined list of pieces that do not contain `sep` gives back the pieces |
| Common.IntToStringRoundTrip | data_treatment/tower/tower_static_treatment.py:34 | `int(str(i)) == i` for every integer, negative ones included |
| Common.IntToStringInjective | data_treatment/tower/tower_data_treatment.py:107 | distinct integers have distinct decimal strings |
| Common.DecimalIdsDistinct | data_treatment/square/square_data_treatment.py:16 | mapping distinct integer ids through `str` keeps them distinct |
| Common.UniqueMember | data_treatment/tower/tower_static_treatment.py:22-23 | `unique()` keeps exactly the values that occur |
| Common.UniqueDistinct | data_treatment/tower/tower_static_treatment.py:22-23 | `unique()` has no repeats |
| Common.UniqueOrder | data_treatment/tower/tower_static_treatment.py:22-23 | `unique()` lists values in order of first appearance |
| Common.AfterLastAppend | src/pages/tower/functions.py:573 | the last component after a separator is the file name itself |
| Common.AfterLastNoSep | src/pages/tower/functions.py:573 | a path without the separator is its own last component |
| Common.RemoveAllKeeps | src/pages/tower/functions.py:576 | `replace(pat, '')` keeps every character that is not part of `pat` |
| Frames.TransposeTwice | data_treatment/square/square_data_treatment.py:58 | transposing twice gives back the table |
| Frames.TransposeCells | data_treatment/tower/tower_data_treatment.py:31 | the transposed table holds cell (j, i) at (i, j); index and columns swap |
| Frames.ConcatRowsOutcome | data_treatment/tower/tower_data_treatment.py:32 | `pd.concat` of two tables fails iff their column lists differ and one of them repeats a label; otherwise the rows are the first table's followed by the second's |
| Frames.ConcatRowsColumn | data_treatment/square/square_data_treatment.py:115 | a concatenated column is the union of both tables' columns; each row keeps its values, and a column the row's table lacks is missing |
| Frames.SelectRowsSpec | data_treatment/baptistery/baptistery_data_treatment.py:81 | a boolean row mask keeps exactly the rows it marks, unchanged and in order |
| Frames.FilterColumnsSpec | src/pages/tower/functions.py:621 | `columns.isin(names)` keeps exactly the columns named, in the table's own order, with their values |
| Frames.DropFirstColumns | src/pages/baptistery/functions.py:1175 | `iloc[:, n:]` keeps the columns after the first n, with their values |
| Frames.SelectColumns | data_treatment/square/square_data_treatment.py:57 | `df[names]` succeeds iff every name is a column; the result has those columns in the order asked, with their values |
| Dates.Strptime | data_treatment/square/square_data_treatment.py:104 | a parsed date is a valid calendar date |
| Dates.SatelliteLabelRoundTrip | data_treatment/square/square_data_treatment.py:103-105 | every valid date, rendered as `D%Y%m%d`, parses back to itself |
| Dates.EpochRoundTrip | data_treatment/square/square_data_treatment.py:55 | a first-of-month date rendered as `%Y-%m` parses back to itself |
| Dates.DayFirstRoundTrip | data_treatment/tower/tower_data_treatment.py:138 | every valid date, rendered as `%d/%m/%Y`, parses back to itself, day first |
| Dates.SatelliteLabelNormalises | data_treatment/square/square_data_treatment.py:104 | a parsed label, rendered again, parses to the same date |
| Dates.SatellitePrefix | data_treatment/square/square_data_treatment.py:104 | a label starts with `D` in either case followed by a four-digit year |
| Dates.UnpaddedLabel | data_treatment/square/square_data_treatment.py:104 | the unpadded label "D2020115" is accepted as 2020-11-05 and renders as "D20201105" |
| Dates.LowerCaseLabel | data_treatment/square/square_data_treatment.py:104 | the literal `D` matches ignoring case |
| Dates.TrailingTextRefused | data_treatment/square/square_data_treatment.py:104 | text left after a full match raises "unconverted data remains" |
| Dates.MissingDayRefused | data_treatment/square/square_data_treatment.py:104 | 29 February of a non-leap year raises "day is out of range for month" |
| TowerStatic.RenameUseCols | data_treatment/tower/tower_static_treatment.py:10-19 | the seven columns read are renamed to year, month, day, hour, minute, UI and TAG; every time field maps to its name |
| TowerStatic.StampRollover | data_treatment/tower/tower_static_treatment.py:20 | `pd.to_datetime` adds the hours and minutes to the date's midnight as durations: readings with the same date and minute of the day get the same stamp, and a full day of minutes (24:00) carries into the next date's 00:00 |
| TowerStatic.StampInjective | data_treatment/tower/tower_static_treatment.py:20 | for hours 0–23 and minutes 0–59 on real dates, two readings get the same stamp iff they have the same date, hour and minute |
| TowerStatic.DayNumberNext | data_treatment/tower/tower_static_treatment.py:20 | the day after a date is numbered one more, across month and year ends and on leap days |
| TowerStatic.DayNumberInjective | data_treatment/tower/tower_static_treatment.py:20 | distinct real dates get distinct day numbers, earlier dates lower ones |
| TowerStatic.ValidStampYears | data_treatment/tower/tower_static_treatment.py:20 | a row converts only if its year is 1677–2262 (outside, the nanosecond timestamp range is exceeded); every real date of 1700–2200 with an hour and minute of the day converts |
| TowerStatic.ValidFileSpec | data_treatment/tower/tower_static_treatment.py:20 | a file converts iff every row converts: `year·10000 + month·100 + day` read as `%Y%m%d` is a real date, and its midnight plus the hours, then the minutes, stays within the nanosecond timestamp range |
| TowerStatic.GroupSpec | data_treatment/tower/tower_static_treatment.py:27-29 | a (year, sensor) group holds exactly the readings of that year and that TAG |
| TowerStatic.FirstWinsDomain | data_treatment/tower/tower_static_treatment.py:30-31 | after dropping duplicate timestamps, the timestamps are those of the group |
| TowerStatic.FirstWinsValue | data_treatment/tower/tower_static_treatment.py:31 | for a repeated timestamp, the value kept is the first reading's in file order |
| TowerStatic.YearTableOfData | data_treatment/tower/tower_static_treatment.py:28-33 | each column holds its sensor's first-wins readings for the year |
| TowerStatic.YearTableOfIndex | data_treatment/tower/tower_static_treatment.py:33 | the outer join's rows are the union of all sensors' timestamps that year |
| TowerStatic.BuildYearTable | data_treatment/tower/tower_static_treatment.py:25-33 | the join loop over sensors builds exactly the specified yearly table; its columns are the sensors of the file in first-appearance order, including sensors with no readings that year, each holding that sensor's first-wins readings |
| TowerStatic.YearTableCell | data_treatment/tower/tower_static_treatment.py:29-33 | cell (t, s) is the UI of the first reading of s at t, or missing when there is none |
| TowerStatic.OutputNameInjective | data_treatment/tower/tower_static_treatment.py:34-37 | the h_/d_/w_/m_ names plus the decimal year are distinct for distinct (period, year) pairs and never the sensor-list name |
| TowerStatic.YearOutputsLookup | data_treatment/tower/tower_static_treatment.py:34-37 | writing a year stores the hourly table and its daily, weekly and monthly resamples under that year's names, and leaves other years' files alone |
| TowerStatic.FileOutputsSpec | data_treatment/tower/tower_static_treatment.py:25-37 | a file writes an hourly output for exactly its years, each holding that year's table |
| TowerStatic.LaterExportWins | data_treatment/tower/tower_static_treatment.py:12-37 | when several files hold a year, the last file that holds it decides that year's output |
| TowerStatic.ValidUpToSpec | data_treatment/tower/tower_static_treatment.py:12-20 | the files processed before the k-th are exactly those that convert |
| TowerStatic.StaticStore.WriteYear | data_treatment/tower/tower_static_treatment.py:34-37 | the store gains the four outputs of the year, overwriting older ones |
| TowerStatic.StaticStore.WriteText | data_treatment/tower/tower_static_treatment.py:39-40 | the store gains the text file, overwriting an older one |
| TowerStatic.StaticStore.ProcessFile | data_treatment/tower/tower_static_treatment.py:12-37 | a file fails iff some row's time fields do not convert (`ValidStamp`: the assembled date is real and the timestamp is in range, with hours and minutes carrying over), and then writes nothing; otherwise it writes all its outputs and returns its sensors |
| TowerStatic.ProcessAll | data_treatment/tower/tower_static_treatment.py:8-40 | with no files the sensor list file is emptied and then NameError on `sensors` is raised; a failing file stops the run after the earlier files' outputs; otherwise every output is written and the sensor list is the last file's TAGs joined by "," |
| TowerStatic.SensorListSplits | data_treatment/tower/tower_static_treatment.py:39-40 | the sensor list file splits back on "," into the last file's sensors |
| TowerTreatment.TowerLevellingSpec | data_treatment/tower/tower_data_treatment.py:30-32 | the levelling table is the old file's rows followed by the new survey's point columns as rows; the old rows keep their values |
| TowerTreatment.TowerLevellingNewSurvey | data_treatment/tower/tower_data_treatment.py:18-32 | a new-survey row holds each point's value for that survey column, missing for points the survey lacks |
| TowerTreatment.BenchSubTable | data_treatment/tower/tower_data_treatment.py:59-62 | the lookup succeeds iff every listed id is in the table; the rows are exactly the listed ids' rows, in list order; a missing id raises KeyError |
| TowerTreatment.BenchTable.constructor | data_treatment/tower/tower_data_treatment.py:62-66 | the benchmark table is indexed by `bench_list` and holds each benchmark's x, y and type |
| TowerTreatment.BenchTable.CentreOnLinks | data_treatment/tower/tower_data_treatment.py:68-84 | the centre is the average of the four link midpoints and is subtracted from every x and y; a missing link benchmark raises and changes nothing |
| TowerTreatment.CentredMidpointsAverageZero | data_treatment/tower/tower_data_treatment.py:68-84 | after centring, the link midpoints average to zero |
| TowerTreatment.TowerRegistry.constructor | data_treatment/tower/tower_data_treatment.py:102-107 | the registry is the square benchmarks, with decimal-string ids, followed by the E/I benchmarks, with type carried over |
| TowerTreatment.TowerRegistry.ComputeRadius | data_treatment/tower/tower_data_treatment.py:109-113 | the radius column becomes the generic signed radius |
| TowerTreatment.TowerRegistry.FlipOverrides | data_treatment/tower/tower_data_treatment.py:114-115 | the radius is negated for "904", "I6" and "E6"; a missing override id raises KeyError after the earlier flips |
| TowerTreatment.FlipForSpec | data_treatment/tower/tower_data_treatment.py:114-115 | a row is negated iff its id is in the override list; the rest are unchanged |
| TowerTreatment.FinalRadiusSign | data_treatment/tower/tower_data_treatment.py:109-115 | the final radius has squared length x² + y², and its sign is + iff (x > 0) differs from being an override (x = 0 counts as negative) |
| TowerTreatment.RegistryIdsDistinct | data_treatment/tower/tower_data_treatment.py:107 | distinct integer benchmark ids stay distinct as strings |
| TowerTreatment.BenchmarkPositions | data_treatment/tower/tower_data_treatment.py:59-115 | for a benchmark list holding the link benchmarks and `904`: it fails iff a listed benchmark is missing from the file (KeyError on the first one) or `I6`/`E6` is missing from the E/I list (KeyError on I6 first); otherwise the ids are the decimal benchmark ids then the E/I ids, the coordinates are the picked ones minus the link centre then the E/I ones, the types follow, and the radius is the generic signed radius with the three overrides flipped |
| TowerTreatment.PipelineLabels | data_treatment/tower/tower_data_treatment.py:47-52 | `bench_list` holds the four link pairs and `904`, and no decimal id is `I6` or `E6`, so those two can only come from the E/I list |
| TowerTreatment.OverridesMissing | data_treatment/tower/tower_data_treatment.py:114-115 | with `904` present, the override loop succeeds iff `I6` and `E6` are present, and otherwise fails on I6 if it is missing, else on E6 |
| TowerTreatment.TowerBenchmarkPositions | data_treatment/tower/tower_data_treatment.py:47-115 | the script's pipeline over `bench_list`, with the same outcome: KeyError on the first missing square benchmark, else on a missing I6/E6, else the centred registry with the flipped signed radius; so CentredMidpointsAverageZero and FinalRadiusSign apply to its result |
| TowerTreatment.CollectAllSpec | data_treatment/tower/tower_data_treatment.py:138 | a list comprehension of parses succeeds iff each parse does, and otherwise raises the first failure |
| TowerTreatment.StabilisationDatesRoundTrip | data_treatment/tower/tower_data_treatment.py:137-139 | dates written day first parse back to the same dates |
| BaptisteryTreatment.NonEmptyCellsSpec | data_treatment/baptistery/baptistery_data_treatment.py:18 | empty header cells are dropped and the others kept in order |
| BaptisteryTreatment.PrismColumnKeys | data_treatment/baptistery/baptistery_data_treatment.py:18-23 | there are 3·n keys, and key j is (prism j div 3, axis x/y/z by j mod 3) |
| BaptisteryTreatment.RepeatAxes | data_treatment/baptistery/baptistery_data_treatment.py:19 | `['x','y','z']*n` has 3·n entries cycling through the axes |
| BaptisteryTreatment.PrismKeysDistinct | data_treatment/baptistery/baptistery_data_treatment.py:18-23 | distinct prism names give distinct column keys |
| BaptisteryTreatment.ReadPrismData | data_treatment/baptistery/baptistery_data_treatment.py:19-40 | the table builds iff there is at least one prism and the data has 3 columns per prism, and otherwise raises ValueError; the values are laid under the keys unchanged |
| BaptisteryTreatment.TimestampLabelSplits | data_treatment/baptistery/baptistery_data_treatment.py:68-71 | a label is date, a space, then time, and splits back into the two |
| BaptisteryTreatment.ExtensimeterTable | data_treatment/baptistery/baptistery_data_treatment.py:67-77 | the joined table is well formed |
| BaptisteryTreatment.DropZeroOrMissingSpec | data_treatment/baptistery/baptistery_data_treatment.py:81 | a row survives iff none of its values is 0.0 or missing; survivors are unchanged and in order |
| BaptisteryTreatment.ReadExtensimeterData | data_treatment/baptistery/baptistery_data_treatment.py:57-83 | the value columns are all columns after the first two |
| BaptisteryTreatment.ReadExtensimeterDataSpec | data_treatment/baptistery/baptistery_data_treatment.py:67-81 | each surviving row is labelled date + " " + time and holds its file values; rows with a zero or a missing value are dropped |
| BaptisteryTreatment.PositionTable.SetType | data_treatment/baptistery/baptistery_data_treatment.py:104 | every row gets the same type, and ids and coordinates are unchanged |
| BaptisteryTreatment.ReadSensorPositions | data_treatment/baptistery/baptistery_data_treatment.py:97-125 | the three tables are typed prism, level and crack, and the registry is their concatenation |
| BaptisteryTreatment.RegistrySpec | data_treatment/baptistery/baptistery_data_treatment.py:123 | the registry is prism rows, then level rows, then crack rows, each with its type; its size is the sum |
| BaptisteryTreatment.RegistryKeepsDuplicates | data_treatment/baptistery/baptistery_data_treatment.py:123 | an id shared by two source tables appears twice; duplicates are not rejected |
| SquareTreatment.EpochDates | data_treatment/square/square_data_treatment.py:53-55 | the twelve `YYYY-MM` texts parse to the twelve first-of-month epoch dates |
| SquareTreatment.EpochsIncreasing | data_treatment/square/square_data_treatment.py:53-55 | the epoch dates are strictly increasing |
| SquareTreatment.ParseAll | data_treatment/square/square_data_treatment.py:55 | parsing a list succeeds iff every text parses, keeps the order, and otherwise raises a failing text's error |
| SquareTreatment.LevellingDataSpec | data_treatment/square/square_data_treatment.py:57-59 | the table exists iff all twelve epoch columns do; it has the epochs as rows and the benchmarks as columns, with each sheet value transposed into place |
| SquareTreatment.ScattererId | data_treatment/square/square_data_treatment.py:90 | the new id is `<sat>-<datatype>-<id>` |
| SquareTreatment.ScattererIdInjective | data_treatment/square/square_data_treatment.py:90 | for a fixed satellite and datatype, distinct ids give distinct names |
| SquareTreatment.RowLabels | data_treatment/square/square_data_treatment.py:87-90 | there is one label per row |
| SquareTreatment.RowLabelsDistinct | data_treatment/square/square_data_treatment.py:87-90 | the labels are distinct (ID column for asc/des when its ids are, row position for ver) |
| SquareTreatment.ReadSatelliteData | data_treatment/square/square_data_treatment.py:70-107 | a result has TYPE on every info row and a well-formed data table |
| SquareTreatment.ReadSatelliteDataSpec | data_treatment/square/square_data_treatment.py:82-105 | any datatype other than asc, des and ver fails on `df_info`; success needs the info columns and parseable date labels; info has the renamed ids and the datatype's columns; data is the columns after 16 (or 3) transposed, indexed by the parsed dates |
| SquareTreatment.LosInfo | data_treatment/square/square_data_treatment.py:115 | a concatenated info table keeps TYPE on every row |
| SquareTreatment.LosInfoSpec | data_treatment/square/square_data_treatment.py:115 | the LOS info table is the ascending rows followed by the descending rows, with their types |
| TowerPages.SelectBenchSection | src/pages/tower/functions.py:307-316 | keys "01" to "04" give 8 benchmarks; any other key raises KeyError |
| TowerPages.BenchSectionsPartition | src/pages/tower/functions.py:308-313 | each section lists distinct benchmarks, and distinct sections share none |
| TowerPages.ResamplePrefix | src/pages/tower/functions.py:593-602 | hourly/daily/weekly/monthly give H_/D_/W_/M_; any other mode raises ValueError |
| TowerPages.FileName | src/pages/tower/functions.py:573 | the corrected file name (see Findings) has no path separator of either kind |
| TowerPages.StoreLookup | src/pages/tower/functions.py:583 | a stored table is the last one loaded under its name |
| TowerPages.StoreFrom | src/pages/tower/functions.py:583 | a name is stored iff some loaded file has it, and it holds that file's table |
| TowerPages.TableNames | src/pages/tower/functions.py:585-605 | the names are prefix + year for every year from the first to the last, ascending; an empty range gives none |
| TowerPages.TableNamesDistinct | src/pages/tower/functions.py:591-605 | the requested names are distinct |
| TowerPages.Lookup | src/pages/tower/functions.py:611 | the lookup succeeds iff every name is stored and returns the tables in order; otherwise KeyError names the first missing one |
| TowerPages.ConcatAllSpec | src/pages/tower/functions.py:617-618 | the combined table's rows are all years' rows in year order; its columns are the union |
| TowerPages.MergeAndFilter | src/pages/tower/functions.py:567-625 | with tables stored under the names as written (text after the last backslash): an unparseable year, an empty range (ValueError), an unknown mode (ValueError) and a missing table (KeyError) each give their error; otherwise the result is the years concatenated and filtered to `sensor_names` |
| TowerPages.LoadTables | src/pages/tower/functions.py:571-583 | the loop stores every file whose name as written does not end in .txt under that name without ".parquet", upper-cased; a later file replaces an earlier one of the same name |
| TowerPages.LookupYears | src/pages/tower/functions.py:585-614 | the year loop gives the lookup of the year range, or the mode's error |
| TowerPages.LookupKeepsError | src/pages/tower/functions.py:611 | once a year is missing, later years do not change the error |
| TowerPages.StaticOutputFound | src/pages/tower/functions.py:573-577 | with the corrected split, the static script's extensionless outputs `h_<y>`, `d_<y>`, `w_<y>`, `m_<y>` in any directory get the name the year loop asks for, H_/D_/W_/M_ + year |
| TowerPages.SlashPathMisnamed | src/pages/tower/functions.py:573-577 | as written, a '/'-separated path to `h_<y>` keeps its directory in the stored name, so it is not `H_<y>`; the corrected split gives `H_<y>` |
| TowerPages.SlashKept | src/pages/tower/functions.py:573-577 | as written, a path with slashes and no backslash keeps a slash in its stored name |
| TowerPages.SlashPathsMiss | src/pages/tower/functions.py:571-583 | as written, when every listed path has slashes and no backslash (POSIX `glob`), no slash-free name is stored |
| TowerPages.SlashPathsFail | src/pages/tower/functions.py:571-611 | as written, with such paths every non-empty year range in a known mode fails with KeyError on its first year's name |
| TowerPages.CorrectedLoadFinds | src/pages/tower/functions.py:571-583 | with the corrected split, a static output `dir/<c>_<y>` (either separator) is loaded under `<C>_<y>` and holds the table of the last file with that name |
| TowerPages.NotText | src/pages/tower/functions.py:575 | a static output name never ends in ".txt", so it is loaded |
| TowerPages.OutputFound | data_treatment/tower/tower_static_treatment.py:34-37 | with the corrected split, an extensionless static output name is stored as its upper-cased name |
| TowerPages.StoredNameOf | src/pages/tower/functions.py:573-577 | with the corrected split, a file name without dot or separator is stored upper-cased and unchanged otherwise |
| TowerPages.UnitOf | src/pages/tower/functions.py:628-647 | weather stations take the unit at their position; inclinometers take unit 1 if among the last 8, otherwise unit 0; other categories take their category unit, or "unknown unit" |
| TowerPages.GetUnitSpec | src/pages/tower/functions.py:628-647 | the first category holding the name decides the unit; no category gives "unknown unit" |
| TowerPages.IqrMask | src/pages/tower/functions.py:649-653 | a row is kept iff no value lies outside [Q1 − 1.5·IQR, Q3 + 1.5·IQR]; missing values never exclude |
| TowerPages.RemoveOutliersIqrSpec | src/pages/tower/functions.py:649-653 | the filter keeps exactly those whole rows, unchanged and in order |
| TowerGantt.Rises | src/pages/tower/functions.py:737-742 | rises are positions inside the series |
| TowerGantt.Falls | src/pages/tower/functions.py:752 | falls are positions inside the series |
| TowerGantt.RunStarts | src/pages/tower/functions.py:741-751 | run starts are positions inside the series |
| TowerGantt.RunsAlternate | src/pages/tower/functions.py:736-752 | run starts and falls alternate, a start first |
| TowerGantt.RunStartsMembers | src/pages/tower/functions.py:741-751 | the starts are ascending and are exactly the present positions whose predecessor is missing or absent |
| TowerGantt.RisesMembers | src/pages/tower/functions.py:742 | the rises are exactly the missing→present changes, ascending |
| TowerGantt.SortUnique | src/pages/tower/functions.py:751 | `np.sort(list(set(...)))` is ascending and has the same members |
| TowerGantt.AscendingUnique | src/pages/tower/functions.py:751 | two strictly ascending lists with the same members are equal |
| TowerGantt.IdxMax | src/pages/tower/functions.py:741 | `idxmax` is the first present position, or 0 when none is present |
| TowerGantt.GanttIntervals | src/pages/tower/functions.py:734-762 | an empty series fails; otherwise the intervals mean what the chart shows |
| TowerGantt.PairUp | src/pages/tower/functions.py:755-762 | interval k pairs start k with end k |
| TowerGantt.GanttOutcome | src/pages/tower/functions.py:740-762 | the computed intervals satisfy the Gantt meaning |
| TowerGantt.StartsAndEnds | src/pages/tower/functions.py:740-754 | there are as many ends as starts; an all-missing series gives the one interval from first to last index; otherwise the starts are the run starts |
| TowerGantt.NothingWhenMissing | src/pages/tower/functions.py:736-752 | an all-missing series has no rises and no falls |
| TowerGantt.StartsWhenPresent | src/pages/tower/functions.py:741-751 | `idxmax` plus the rises, sorted and deduplicated, are the run starts |
| TowerGantt.GanttRuns | src/pages/tower/functions.py:740-762 | for a series with a present value, the intervals are its present runs: each opens on a run start, covers present values, ends at the fall or at the last index, and every present position is covered |
| BaptisteryPages.ScaleFactorSteps | src/pages/baptistery/functions.py:18-19 | exponent 0 gives the factor, and each step up multiplies by 10 |
| BaptisteryPages.ScaleFactorInverse | src/pages/baptistery/functions.py:18-19 | scaling by 10^e and then by 10^−e gives back the factor |
| BaptisteryPages.SectionSuffixes | src/pages/baptistery/functions.py:56-70 | the known section keys give their pair; any other key raises KeyError |
| BaptisteryPages.SectionSuffixesPair | src/pages/baptistery/functions.py:56-69 | section k is paired with k ± 6, both ways round (01↔07 … 06↔12) |
| BaptisteryPages.EndingSpec | src/pages/baptistery/functions.py:72-73 | a prism is picked iff it ends with the suffix and does not start with "1" |
| BaptisteryPages.EndingAppend | src/pages/baptistery/functions.py:72-73 | picking preserves index order |
| BaptisteryPages.SelectPrismSection | src/pages/baptistery/functions.py:51-73 | the selection succeeds iff the key is a section key |
| BaptisteryPages.SelectPrismSectionSpec | src/pages/baptistery/functions.py:70-73 | the selection is the prisms ending with the first suffix, then those ending with the second, excluding "1" ids |
| BaptisteryPages.OppositeSectionsAgree | src/pages/baptistery/functions.py:56-73 | sections k and k+6 select the same prisms |
| BaptisteryPages.Storey | src/pages/baptistery/functions.py:744-745 | a storey is exactly the prisms whose first character is one of its two digits |
| BaptisteryPages.FloorsSeparate | src/pages/baptistery/functions.py:743-745 | the first floor is the 2/3 prisms and the second the 4/5 prisms; the floors are disjoint and do not meet the ground floor |
| BaptisteryPages.FloorSelectionSpec | src/pages/baptistery/functions.py:254-261 | no floor selects nothing; "First" gives the 2/3 prisms plus the 4/5 prisms if "Second" is also chosen; otherwise the 4/5 prisms |
| BaptisteryPages.Unselected | src/pages/baptistery/functions.py:404 | the comprehension succeeds iff every id outside the selection is non-empty (an empty id inside the selection is never indexed); otherwise IndexError "string index out of range" |
| BaptisteryPages.UnselectedSpec | src/pages/baptistery/functions.py:404 | when it succeeds, a prism is unselected iff it is in the index, not selected, non-empty and does not start with "1" |
| BaptisteryPages.SortPrisms | src/pages/baptistery/functions.py:484 | the list is sorted in place and is a permutation of the original |
| BaptisteryPages.SortedUnique | src/pages/baptistery/functions.py:484 | two sorted permutations of the same list are equal, so any sorting algorithm gives the same result |
| BaptisteryPages.ConnRowsKept | src/pages/baptistery/functions.py:1176 | 28 connectivity rows are kept |
| BaptisteryPages.PickRows | src/pages/baptistery/functions.py:1176 | `iloc` of a row list succeeds iff every row exists and returns those rows in order |
| BaptisteryPages.Prune3d | src/pages/baptistery/functions.py:1171-1176 | with the zero floor the data is unchanged; without it the first 12 columns go, and connectivity rows 1–4 and 9–32 are kept |
| BaptisteryPages.DisplacedEnd | src/pages/baptistery/functions.py:1178-1181 | the displacement needs start and end rows in range, in order, and has one value per column |
| BaptisteryPages.DisplacedEndSpec | src/pages/baptistery/functions.py:1178-1181 | on the start row the value is the start value; scale 1 gives the end values and scale 0 the start values |
| SquarePages.SortIndex | src/pages/square/functions.py:47 | the sorted index is ascending and a permutation of the index |
| SquarePages.GanttRows | src/pages/square/functions.py:45-47 | the rows build iff every chosen source is known; otherwise KeyError names a missing one |
| SquarePages.GanttRowsSpec | src/pages/square/functions.py:45-47 | row k is named by the k-th choice and holds that source's index sorted |
| SquarePages.GanttSpec | src/pages/square/functions.py:34-47 | the chart builds iff every choice is one of the five sources; the ERS row is the ascending and descending dates together, sorted |
| SquarePages.VisibleSpec | src/pages/square/functions.py:277-281 | the filter needs COHER and HEIGHT; a scatterer survives iff its coherence and height lie in both closed ranges |
| SquarePages.VisibleIsWindow | src/pages/square/functions.py:277-281 | the four successive filters equal one filter by all four tests |
| SquarePages.WindowShown | src/pages/square/functions.py:277-281 | passing the four tests means lying in both ranges |
| SquarePages.KeepTwice | src/pages/square/functions.py:277-281 | filtering twice is filtering by both sets of tests |
| SquarePages.KeepMember | src/pages/square/functions.py:277-281 | a row is kept iff it passes every test |
| SquarePages.OfKindMember | src/pages/square/functions.py:286-308 | the TYPE filter keeps exactly the rows of that type |
| SquarePages.KindSplitExact | src/pages/square/functions.py:286-308 | when every row is asc or des, the two traces are an exact split of the survivors |
| SquarePages.SatelliteTracesSpec | src/pages/square/functions.py:276-310 | a satellite gives an ascending and a descending trace, named after it, each holding exactly the visible scatterers of that type |
| SquarePages.WithRel | src/pages/square/functions.py:247 | the benchmark filter needs a rel column |
| SquarePages.RelSplit | src/pages/square/functions.py:244-274 | reliable benchmarks are exactly those with rel 1 and unreliable those with rel 0; when every rel is 0 or 1 they split the benchmarks exactly |
| SquarePages.AllTraces | src/pages/square/functions.py:243-311 | the traces build iff every chosen source's traces build |
| SquarePages.NoPlaceholder | src/pages/square/functions.py:243-311 | no chosen source produces the placeholder point |
| SquarePages.MapSquarePlaceholder | src/pages/square/functions.py:238-241 | an empty choice gives only the placeholder at (0, 0); a nonempty choice never contains it; an unknown source fails |
| SquarePages.Rebased | src/pages/square/functions.py:366-368 | rebasing fails iff a column has no valid value (the `.loc` of `None`) and keeps index and columns |
| SquarePages.RebasedSpec | src/pages/square/functions.py:366-368 | after scaling by 1000, each column is 0 at its first valid row and missing before it; missing values stay missing; differences between rows are scaled by 1000 |
| SquarePages.Rebase | src/pages/square/functions.py:366-368 | the column loop computes exactly the rebased table |
| SquarePages.FirstValid | src/pages/square/functions.py:367 | `first_valid_index` is the first non-missing row, or none when all are missing |
| SquarePages.FigureIndices | src/pages/square/functions.py:399-409 | together gives one figure with every point at index 0; otherwise one figure per point, point k at index k |
| SquarePages.PlanPoints | src/pages/square/functions.py:399-417 | each point is drawn in its figure with the plan its dataset key gives |
| SquarePages.NextPlan | src/pages/square/functions.py:411-417 | one step plans one point and counts a resampling of its dataset entry |
| SquarePages.ResampledStep | src/pages/square/functions.py:413-415 | a point resamples its dataset entry once more iff its key is resamplable, a rule is given and pandas accepts it |
| SquarePages.DatasetFlags | src/pages/square/functions.py:373-386 | the twelve keys have five characters; resamplable iff Sentinel or COSMO; height and coherence iff not vertical |
| SquarePages.PlanOfSpec | src/pages/square/functions.py:373-417 | the dataset falls back to levelling iff the key is unknown or the resampling raises; a resampled plan needs a rule and a resamplable dataset |
| SquarePages.Series | src/pages/square/functions.py:419-424 | the series fails iff the point is not a column |
| SquarePages.InRangeSpec | src/pages/square/functions.py:419 | the values shown are exactly those dated within the range, inclusive |
| Utils.IdFactory | src/utils/utils.py:25 | the id's length is the page's length plus one plus the name's |
| Utils.IdFactoryShape | src/utils/utils.py:25 | the id is the page, a dash, then the name |
| Utils.IdFactoryInjective | src/utils/utils.py:25 | for a fixed page, distinct names give distinct ids |

## Left out

- Reading and writing files is not modelled: `read_csv`, `read_excel`, `read_parquet`, `np.loadtxt`, `glob` and every `to_parquet`. Tables arrive as values, and the outputs of the static-telemetry script go to a map from file name to contents.
- The pyproj UTM to WGS84 conversion in data_treatment/square/square_data_treatment.py is a foreign library. Coordinates are carried as cells.
- Floating point is not modelled: values are exact reals. `cos`/`sin` results are inputs. The radius is kept as a sign and a squared length instead of a square root.
- Pandas resampling (`resample(...).mean()`) and the quantiles of the IQR filter are inputs or opaque parameters. `pd.to_datetime` of the joined extensimeter label is not modelled; the label is kept as text.
- The row order of a pandas outer join is not modelled. The yearly table is keyed by timestamp, and its index is a set.
- `int()` is modelled on digit strings with an optional sign. The whitespace and underscore forms Python also accepts are left out.
- Unicode is not modelled. Upper-casing covers ASCII letters only.
- `TowerPages.UnitOf`: `str([u])` is modelled by bracketing the unit; Python's quoting inside the brackets is not reproduced.
- `data.tower.static_sensor_list` is not part of this model. `t_sensor_dict` and `t_sensor_dict_unit` are parameters.
- `locals()` in `merge_and_filter_dataframe` is modelled as a map built only from the loaded tables. Its other local variables are not modelled.
- `TowerPages.MergeAndFilter` and `TowerPages.LoadTables` follow the code as written (backslash split). The corrected loader of the Findings row exists only as `TowerPages.LoadedCorrected` and the lemmas about it; no method uses it. Both the as-written and the corrected loader assume that the assignment to `locals()[df_name]` at src/pages/tower/functions.py:583 is visible to the later `locals()[df_name]` at line 611, as on CPython up to 3.12; from CPython 3.13 (PEP 667) each `locals()` call in a function returns a fresh snapshot, every lookup raises KeyError, and neither loader describes the program there.
- `TowerStatic.ValidStamp`: the date is split from `year·10000 + month·100 + day` arithmetically. Pandas versions that parse the number's decimal text instead may read numbers that are not eight digits long differently. Hours and minutes are integers; NaN time fields are not modelled. Every failure is reported as a ValueError, although an overflow in pandas may raise OverflowError or OutOfBoundsDatetime.
- The file selection inside `gantt_chart`, and all figure building (`go.*`, `dcc.*`, colours, layouts, titles), are not modelled. The Gantt intervals are positions in a series whose index is assumed sorted.
- The Dash layouts and callbacks (the `tower.py`, `baptistery.py` and `square.py` pages, `app.py`, `home.py`, `reformatPlot`) are UI and are not modelled.
- `TowerTreatment.TowerRegistry.constructor`: the benchmark ids are integers, passed already parsed.
- `BaptisteryPages.Storey`: prism ids are assumed nonempty (`IdsNonEmpty`), as `p[0]` raises on an empty id.
- `Frames.SelectColumns`: column labels are assumed unique.
- `BaptisteryPages.SortPrisms`: Python's Timsort is modelled by an insertion sort. `BaptisteryPages.SortedUnique` shows that the sorted result is the same.
- `BaptisteryPages.DisplacedEnd` works on row positions. It assumes a unique, ascending index, so the label slice `loc[dates[0]:]` is the positional slice.
- `SquarePages.PlanPoints` does not model the resampled values. It counts how many times each dataset entry is resampled, so a repeated point resamples an already resampled entry, as the source does. Whether pandas accepts the rule is the parameter `accepted`.
- `SquarePages.Series` selects rows by date. A label slice on an index that is not monotonic is not modelled.
- `SquarePages.Rebase` assumes unique index labels, so `.loc` at the first valid label is that row.
- The title lookup `d[4].loc[p]` in `MapPointsDisplacement` is not modelled.
- The vertical map (`map_square_vertical`) is modelled only through the shared placeholder and the rel split. Its ERS/ENV/S/C vertical-coordinate traces are not modelled.

## Findings

| source | as written | input that shows it | evidently intended | confidence | as-written member | corrected member |
|---|---|---|---|---|---|---|
| src/pages/tower/functions.py:573 | the file name is taken as the last `'\\'`-separated component only | `glob` on a POSIX system lists "data/tower/parquet_data/static/h_2021", which is stored under "DATA/TOWER/PARQUET_DATA/STATIC/H_2021", so with resample "hourly" and dates in 2021 the lookup of "H_2021" raises KeyError | take the last component after either separator, so that each static output is found under prefix + year (on an interpreter where writes to `locals()` are visible to later `locals()` calls, CPython 3.12 and earlier; from 3.13 the store would need to be an ordinary dictionary) | not executed | TowerPages.SlashPathsFail, TowerPages.SlashPathMisnamed, TowerPages.MergeAndFilter | TowerPages.CorrectedLoadFinds, TowerPages.StaticOutputFound |

# get-ord-stats, modelled in Dafny

get-ord-stats is two batch scripts for end-to-end transaction exports.

`getordstats.py` does three steps in order:

1. It merges one or more export files into one CSV file. It drops each file's leading banner lines (`**********  FOR OFFICIAL USE ONLY  **********`) and the header line that follows them.
2. It loads every line of the merged file after the first into a 23-column SQLite table `transactions`.
3. It writes a statistics file. That file has one line per transaction name seen with status `ARM_GOOD`, leaving out names that start with `Workflow`. Each line holds the name's count, mean ORD and mean response time. The lines are ranked by count, largest first.

`compareordstats.py` reads two or more such statistics files. It writes one report with one column group per file and one data line per transaction of the first file, in ranking order.

This project models those steps on values:

- A file is a sequence of lines, and the file system is a map from path to lines (`Merge.FileSystem`).
- SQL tables are sequences of records.
- SQL queries are functions: a filter, a first-encounter `DISTINCT`, an aggregate, and an insertion sort for `ORDER BY`.

The scripts' loops become methods with loop invariants, each proved against those functions. The lemmas then state what the scripts promise.

| file | module | models |
|---|---|---|
| `merge.dfy` | `Merge` | `mergefiles` |
| `transactions.dfy` | `Transactions` | the load loop of `create_sqlite_table` |
| `stats.dfy` | `Stats` | `create_stats` |
| `outputnames.dfy` | `OutputNames` | the output-name rules of `main` |
| `pipeline.dfy` | `Pipeline` | the merge, load and statistics sequence of `main` |
| `compare.dfy` | `Compare` | `comparestats` |
| `csv.dfy`, `numbers.dfy`, `text.dfy`, `wrappers.dfy` | | CSV cells, SQLite's reading of numeric text and Python's `str`, Python string helpers, `Option`/`Result` |

Behaviour that follows the code where a plain reading of the tool's purpose would expect otherwise:

- **Only leading banners are dropped.** A banner line after a file's header is merged like any other line (`Merge.LaterBannerIsKept`).
- **The load skips the first line of the merged file.** `create_sqlite_table` skips one line as a header. The merge has already removed every header, so the line skipped is the first data row of the first input file. The model does the same: record `k` comes from merged line `k + 1` (`Transactions.LoadTransactions`).
- **Numeric columns never refuse text.** Text in the `ORD integer` and `TxResponseTime real` columns is stored whatever it holds. `avg()` reads the longest numeric prefix of that text, or 0 (`Numbers.NumericPrefix`). This reading of numeric text is an approximation of SQLite's; "## Left out" says where it differs. So the only load error is a line whose cell count is not 23. That is the "incorrect number of bindings" failure of the INSERT.
- **A blank column group is narrower.** A column group of the comparison report is blank when the file has no row with that name. A blank group adds only its closing `,,`, which is 2 CSV cells. A group with one row adds 6 cells, as each schema group of the second header line does. So every blank group shifts the later groups of that data line four cells to the left (`Compare.ColumnsShiftByBlanks`).
- **Open orders are not fixed.** SQLite does not fix the order of `SELECT DISTINCT` results or of ties under `ORDER BY`. The contracts therefore promise a permutation with non-increasing counts, or with non-decreasing rankings, and nothing about ties.

## Model

| member | source | states |
|---|---|---|
| Merge.MergeFiles | getordstats.py:36-66 | When every path exists, the output is the retained lines of each file, concatenated in argument order. Otherwise the run stops at the first missing path and reports it. It reports the lines of the files before it, and no line of that file or any later one. |
| Merge.CopyRetained | getordstats.py:50-56 | One file's pass produces exactly `Retained`: the lines after its leading banner lines and one header line. |
| Merge.BannerRun | getordstats.py:51-53 | The count `k` of leading lines: all lines before `k` start with the banner, and line `k` (if any) does not. |
| Merge.FirstMissing | getordstats.py:44-48 | The index of the first path not in the file system. Every earlier path exists. |
| Merge.RetainedLines | getordstats.py:51-56 | After `k` banner lines and a header, the lines copied are exactly `lines[k+1..]`, unchanged and in order. |
| Merge.AllBannersRetainNothing | getordstats.py:51-54 | A file made only of banner lines contributes no line. |
| Merge.LaterBannerIsKept | getordstats.py:52-56 | A banner line that follows the header is copied to the output. |
| Merge.RetainedAllAppend | getordstats.py:44-56 | Merging `p + q` gives the merge of `p` followed by the merge of `q`. |
| Merge.TwoExportsMerge | getordstats.py:44-56 | Two exports with one and two leading banners and a header each merge into exactly their data rows, first file first. |
| Merge.FirstMissingAt | getordstats.py:59-61 | A path that is missing, with every earlier path present, is where the merge stops. |
| Csv.Split | getordstats.py:122 | A non-blank line reads as at least one cell, and no cell holds a comma. A blank line reads as no cell. |
| Csv.JoinSplit | getordstats.py:122 | Writing the cells of a line back with commas gives the line unchanged. |
| Csv.SplitJoin | compareordstats.py:71 | Reading comma-free cells written with commas gives the same cells, unless the cells are one empty cell. That is written as a blank line, which reads back as no cell. |
| Csv.SplitCount | compareordstats.py:71 | A blank line reads as no cell. A non-blank line with `k` commas reads as `k + 1` cells. |
| Numbers.NatToStringValue | getordstats.py:232 | The digits `str` writes for a natural number have that number's value. |
| Numbers.ParseIntToString | compareordstats.py:54 | The integer column reads back the integer that `str(ranking)` wrote. |
| Numbers.NumericPrefixOfInt | getordstats.py:94 | SQLite's numeric reading of an integer's text is that integer. |
| Transactions.BindRow | getordstats.py:127-129 | A row binds exactly when it has 23 cells. The binding is positional: ORD and response time are the numeric readings of cells 2 and 7, and the seven metric pairs are cells 9 to 22. |
| Transactions.LoadTransactions | getordstats.py:121-129 | The load succeeds exactly when every line after the first has 23 cells. Then there is one record per line after the first, in order, and record `k` is bound from line `k + 1`. Otherwise the error names the first bad line and its cell count. |
| Stats.GoodRowsOf | getordstats.py:202-206 | The rows with the name and status `ARM_GOOD`. It is sound and complete, and it is non-empty exactly when such a row exists. Each such row appears as many times as the table holds it, so duplicated rows are each counted. |
| Stats.Aggregate | getordstats.py:202-207 | The count is the number of the name's `ARM_GOOD` rows. It is positive exactly when one exists. Each average is the sum over those rows divided by the count. |
| Stats.DistinctGoodNames | getordstats.py:189-190 | The names are distinct, and a name is listed exactly when it has an `ARM_GOOD` row. |
| Stats.StatsFor | getordstats.py:194-208 | Each entry is the aggregate of a listed name that does not start with `Workflow`. Every such name has an entry. Distinct names give distinct entries. |
| Stats.BuildTable | getordstats.py:194-208 | The loop over the distinct names builds exactly `StatsFor`. |
| Stats.InsertByCount | getordstats.py:222 | Inserting into a list with non-increasing counts keeps the counts non-increasing and adds exactly that entry. |
| Stats.SortByCount | getordstats.py:222 | `ORDER BY TxCount DESC` gives a permutation with non-increasing counts. |
| Stats.AssignRankings | getordstats.py:224-234 | The written lines carry the ordered statistics unchanged, numbered 1, 2, ... in output order. |
| Stats.CreateStats | getordstats.py:153-246 | The header line is fixed. The rows are a permutation of the qualifying statistics, with non-increasing counts and rankings exactly 1..N. |
| Stats.RankedLineFacts | getordstats.py:201-208 | Every ranked name has an `ARM_GOOD` row and does not start with `Workflow`. Its count is the number of those rows, at least 1, and its averages are their sums divided by the count. |
| Stats.RankedNamesCovered | getordstats.py:189-201 | Every name with an `ARM_GOOD` row that does not start with `Workflow` is ranked. |
| Stats.RankedNamesDistinct | getordstats.py:189-190 | No name is ranked twice. |
| Stats.NoQualifyingNames | getordstats.py:184-185 | The statistics file has only its header line exactly when no `ARM_GOOD` name qualifies. |
| OutputNames.ForceCsv | getordstats.py:289-290 | The result ends in `.csv` and starts with the given name. It is the given name exactly when that name already ends in `.csv`. |
| OutputNames.ForceCsvIdempotent | getordstats.py:289-290 | Forcing the suffix twice is forcing it once. |
| OutputNames.MergedName | getordstats.py:286-290 | The merged file's name ends in `.csv`. An empty `-o` name gives a name that starts with `out_` and the input file's name. |
| OutputNames.DbName | getordstats.py:305-308 | The database name ends in `.db`. It replaces a trailing `.csv`, and otherwise the suffix is appended. |
| OutputNames.StatsName | getordstats.py:312 | The statistics name ends in `_ORDStatistics.csv` and is 14 characters longer than a merged name of four or more characters. |
| OutputNames.NamesShareStem | getordstats.py:304-312 | For a merged name from `main`, all three names share one stem (`.csv`, `.db`, `_ORDStatistics.csv`), and they are three different files. |
| OutputNames.DefaultNames | getordstats.py:272 | Without `-o`, the database is `out_default.db` and the statistics file is `out_default_ORDStatistics.csv`. |
| Pipeline.Run | getordstats.py:296-313 | Merge, load and statistics in sequence. A missing input stops the run after the merge. A bad line stops it after the load. Otherwise the records are the merged lines after the first, and the statistics keep every `CreateStats` promise. |
| Compare.ParseStatRow | compareordstats.py:76-77 | A row binds exactly when it has five cells, and the binding is positional. |
| Compare.ParseSet | compareordstats.py:70-77 | One file loads exactly when every line after its header has five cells. It then gives one row per such line, in order, all comma-free. Otherwise it names the first bad line. |
| Compare.LoadSets | compareordstats.py:67-79 | Loading succeeds exactly when every file exists and parses, giving table `i` from file `i`. Otherwise the failure names the first file that is missing or malformed, and every earlier file loads. |
| Compare.LoadSetsStops | compareordstats.py:69-79 | Once a file fails, later files do not change the outcome. |
| Compare.ParseSetStops | compareordstats.py:75-77 | Once a line fails to bind, the lines after it do not change the outcome. |
| Compare.LoadStatSet | compareordstats.py:70-77 | The reading loop computes `ParseSet`. |
| Compare.LoadStatSets | compareordstats.py:67-82 | The loop over the files computes `LoadSets`. |
| Compare.WrittenRankingRead | compareordstats.py:54 | The `Ranking integer` column reads a ranking written as `str(n)` (getordstats.py:232) back as the integer `n`. |
| Compare.OrderByRanking | compareordstats.py:106-107 | `ORDER BY Ranking` gives a permutation of the first table, ordered by ranking: integers ascending, then text rankings. |
| Compare.Matches | compareordstats.py:119-123 | The lookup returns each row with the name as often as the table holds it, and no other row. |
| Compare.MatchesEmpty | compareordstats.py:119-123 | The lookup is empty exactly when no row has the name. |
| Compare.GroupBlank | compareordstats.py:123-128 | A column group is blank exactly when that file has no row with the name. |
| Compare.RenderRowCommas | compareordstats.py:123-127 | A printed row of comma-free cells holds four commas. |
| Compare.GroupCommas | compareordstats.py:123-128 | A group with its closing `,,` holds 2 commas when blank. With `m` rows it holds `5m + 1`. |
| Compare.DataLineCommas | compareordstats.py:118-130 | A data line's commas are the sum of its groups' widths, one group per file. |
| Compare.SchemaLineCommas | compareordstats.py:96-102 | The second header line holds six commas per file. |
| Compare.TitleLineCommas | compareordstats.py:89-94 | With comma-free file names, the first header line holds six commas per file. |
| Compare.HeadersAligned | compareordstats.py:89-102 | With comma-free file names, both header lines read as the same number of CSV cells. |
| Compare.ColumnsShiftByBlanks | compareordstats.py:118-130 | When each file has at most one row per name, a data line reads as the schema line's cell count minus four per blank group. |
| Compare.NoBlanks | compareordstats.py:118-128 | A data line has no blank group exactly when every file has a row with the name. |
| Compare.NoRowForOtherNames | compareordstats.py:106-113 | A name absent from the first file drives no data line, whatever the other files hold. |
| Compare.DataLines | compareordstats.py:113-132 | There is one data line per row of the given order. Line `k` is the data line for row `k`'s name. |
| Compare.WriteTitleLine | compareordstats.py:89-94 | The loop builds the first header line: each file name less its last four characters, then `,,,,,,`. |
| Compare.WriteSchemaLine | compareordstats.py:96-102 | The loop builds the second header line: one schema group per file. |
| Compare.WriteDataLine | compareordstats.py:114-132 | The inner loop builds one data line: every file's group for the name, each followed by `,,`. |
| Compare.WriteDataLines | compareordstats.py:113-132 | The outer loop builds one data line per row of the first table, in ranking order. |
| Compare.CompareStats | compareordstats.py:36-144 | It refuses fewer than two files, and only then. Otherwise its outcome is `Comparison`: the first load failure, or the two header lines followed by the data lines. |
| Compare.ReportShape | compareordstats.py:86-132 | The report is the two header lines, then one data line per row of the first table, in ranking order. |
| Compare.ComparedShape | compareordstats.py:67-132 | A finished comparison loaded every file. Its first table has one row per line after that file's header, and its lines are the report of the tables. |
| Compare.TooFewReadsNothing | compareordstats.py:40-44 | With fewer than two files the outcome does not depend on any file's contents. |

## Left out

- Files and SQLite: opening, creating and closing files and databases, `DROP TABLE`, and the SQL text. Tables are sequences and queries are functions.
- Partial output on abort: the merged file, database or report written before an `exit()`. A missing file is an outcome value. Only the lines written before it are returned.
- The existence checks at the start of `create_sqlite_table` and `create_stats` (getordstats.py:80-82, 158-160). In `main` they check files written just before, so they are not modelled.
- Line terminators: a file is a sequence of lines. An input whose last line lacks a newline would be joined to the next file's first data line. The model does not capture this.
- CSV quoting: the reader's quote character `|` is not modelled. Cells are split at every comma.
- Floating point: averages are exact rationals (`real`), and SQLite's rendering of numbers is not modelled. The comparison report prints each stored cell's text, and prints an integer ranking through `str`.
- Display scrubbing: the `str()`, `strip(...)` and `replace("'", "")` applied to tuples and lists before they are written or spliced into SQL. Names are compared exactly. A name containing a quote, which would break the spliced SQL, is not modelled.
- Command-line handling: `getopt`, the `-o` scan over the argument list, help and version text, progress dots and the summary. The main of `compareordstats.py` applies the same `.csv` rule as `OutputNames.MergedName`.
- Transactions.BindRow: SQLite's conversion of numeric text is approximated by `NumericPrefix` ([sign] digits [. digits]). Exponents, hexadecimal and surrounding spaces are not modelled.
- Stats.Aggregate: for a name without `ARM_GOOD` rows the model gives averages of 0, where SQLite gives NULL. `create_stats` never asks for such a name.
- Stats.DistinctGoodNames: SQLite leaves the order of `SELECT DISTINCT` open. The model lists names in first-encounter order, and no contract depends on that order.
- Stats.SortByCount: the order of equal counts is left open, as SQLite leaves it.
- Compare.OrderByRanking: only integer literals (an optional sign, then digits) are read as numbers. SQLite's `Ranking integer` column also stores text such as `2.0`, `2.5`, ` 2` or `3e0` as a number and orders it by value. The model keeps that text as text and orders it after every integer. The rankings getordstats.py writes (getordstats.py:232) are all integer literals. The order of equal rankings and among text rankings is left open. Text rankings come after all integer rankings, as SQLite orders them.
- Compare.RankingOf: the same restriction. The `Ranking integer` column's reading of decimal, exponent and space-padded numbers is not modelled.
- Merge.MergeFiles, Compare.CompareStats: every input is read from the file system as it was before the run. Both scripts open their output for writing, which empties it, before they read any input (getordstats.py:39, compareordstats.py:44). An input path that is also the output path is therefore read by the scripts as the new, partly written output, and by the model as its old contents. The model does not capture this aliasing.

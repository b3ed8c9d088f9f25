/**
 * `comparestats` of compareordstats.py: reads two or more statistics files written by
 * getordstats.py and writes one CSV report with a column group per file, one data line
 * per transaction of the first file.
 */
module Compare {
  import opened Wrappers
  import opened Text
  import opened Numbers
  import Csv
  import Merge

  /** Columns of each `stats_table<i>`. */
  const StatColumns: nat := 5
  /** Follows each file's title in the first header line. */
  const TitleEnd: string := ",,,,,,"
  /** The five column names of a statistics file, then a quoted blank. */
  const SchemaColumns: seq<string> :=
    ["Ranking", "TransactionName", "ORDthreshold", "TransactionCount", "AvgTransactionResponse", "\" \""]
  /** The second header line holds this once per file: the columns above, each followed by a comma. */
  const SchemaGroup: string := JoinWith(SchemaColumns, [Csv.Delimiter]) + [Csv.Delimiter]
  /** Ends every column group of a data line. */
  const GroupEnd: string := ",,"
  /** Between the columns of one matching row, as Python prints a tuple. */
  const CellSeparator: string := ", "
  /** Between two matching rows of one file, as Python prints a list of tuples. */
  const RowSeparator: string := "), ("

  /** One line of a statistics file, as stored in its table. */
  datatype StatRow = StatRow(rankingText: string, name: string, ord: string, count: string, avgResponse: string)

  /**
   * The `Ranking integer` column as the model reads it: an integer literal (an optional
   * sign, then digits) is an integer, any other text is kept as text. The rankings
   * getordstats.py writes are all of the first kind.
   */
  function RankingOf(row: StatRow): Option<int> {
    ParseInt(row.rankingText)
  }

  /** A ranking written as `str(n)` is read back as the integer `n`. */
  lemma WrittenRankingRead(row: StatRow, n: int)
    requires row.rankingText == IntToString(n)
    ensures RankingOf(row) == Some(n)
  {
    ParseIntToString(n);
  }

  /** Binding one CSV row to the five placeholders of the INSERT. */
  function ParseStatRow(cells: seq<string>): (r: Option<StatRow>)
    ensures r.Some? <==> |cells| == StatColumns
    ensures r.Some? ==>
              [r.value.rankingText, r.value.name, r.value.ord, r.value.count, r.value.avgResponse] == cells
  {
    if |cells| != StatColumns then None
    else Some(StatRow(cells[0], cells[1], cells[2], cells[3], cells[4]))
  }

  predicate CommaFree(row: StatRow) {
    && Csv.NoDelimiter(row.rankingText) && Csv.NoDelimiter(row.name) && Csv.NoDelimiter(row.ord)
    && Csv.NoDelimiter(row.count) && Csv.NoDelimiter(row.avgResponse)
  }

  /** Every row came out of the CSV reader, so no cell holds a comma. */
  predicate WellFormedSet(rows: seq<StatRow>) {
    forall i :: 0 <= i < |rows| ==> CommaFree(rows[i])
  }

  /** The first data line whose cell count does not fit; the header is line 0. */
  datatype RowError = RowError(line: nat, count: nat)

  /** Every line in `lines[1..n]` has five cells. */
  predicate RowsFit(lines: seq<string>, n: nat)
    requires n <= |lines|
  {
    forall k :: 1 <= k < n ==> |Csv.Split(lines[k])| == StatColumns
  }

  /** Row `k` was bound from line `k + 1`. */
  predicate ParsedFrom(rows: seq<StatRow>, lines: seq<string>)
    requires |rows| < |lines|
  {
    forall k :: 0 <= k < |rows| ==> ParseStatRow(Csv.Split(lines[k + 1])) == Some(rows[k])
  }

  /**
   * One statistics file loaded into its table: the header line is skipped, every later
   * line becomes one row, and the first line with the wrong number of cells aborts.
   */
  function ParseSet(lines: seq<string>): (r: Result<seq<StatRow>, RowError>)
    ensures r.Ok? <==> RowsFit(lines, |lines|)
    ensures r.Ok? ==> |r.value| == (if lines == [] then 0 else |lines| - 1)
    ensures r.Ok? && lines != [] ==> ParsedFrom(r.value, lines)
    ensures r.Ok? ==> WellFormedSet(r.value)
    ensures r.Err? ==>
              && 1 <= r.error.line < |lines|
              && RowsFit(lines, r.error.line)
              && r.error.count == |Csv.Split(lines[r.error.line])|
              && r.error.count != StatColumns
  {
    if |lines| <= 1 then Ok([])
    else
      var init := lines[..|lines| - 1];
      var cells := Csv.Split(lines[|lines| - 1]);
      assert forall k :: 0 <= k < |init| ==> init[k] == lines[k];
      match ParseSet(init)
      case Err(e) => Err(e)
      case Ok(rows) =>
        if |cells| != StatColumns then Err(RowError(|lines| - 1, |cells|))
        else
          var row := ParseStatRow(cells).value;
          assert CommaFree(row) by {
            assert forall i :: 0 <= i < |cells| ==> Csv.NoDelimiter(cells[i]);
          }
          Ok(rows + [row])
  }

  /** Why the comparison stopped: the index of the file, and what went wrong with it. */
  datatype LoadFailure =
    | MissingStats(file: nat, path: string)
    | MalformedStats(file: nat, line: nat, count: nat)

  /** Every path exists and every data line in it has five cells. */
  predicate Loadable(fs: Merge.FileSystem, paths: seq<string>) {
    forall i :: 0 <= i < |paths| ==> paths[i] in fs && ParseSet(fs[paths[i]]).Ok?
  }

  /** Table `i` holds the rows of the file at `paths[i]`. */
  predicate LoadedFrom(fs: Merge.FileSystem, paths: seq<string>, sets: seq<seq<StatRow>>)
    requires Loadable(fs, paths)
  {
    |sets| == |paths| && forall i :: 0 <= i < |paths| ==> sets[i] == ParseSet(fs[paths[i]]).value
  }

  /** The files loaded in argument order; the first file that is missing or malformed stops it. */
  function LoadSets(fs: Merge.FileSystem, paths: seq<string>): (r: Result<seq<seq<StatRow>>, LoadFailure>)
    ensures r.Ok? <==> Loadable(fs, paths)
    ensures r.Ok? ==> LoadedFrom(fs, paths, r.value)
    ensures r.Err? && r.error.MissingStats? ==>
              && r.error.file < |paths| && r.error.path == paths[r.error.file]
              && r.error.path !in fs && Loadable(fs, paths[..r.error.file])
    ensures r.Err? && r.error.MalformedStats? ==>
              && r.error.file < |paths| && paths[r.error.file] in fs
              && ParseSet(fs[paths[r.error.file]]) == Err(RowError(r.error.line, r.error.count))
              && Loadable(fs, paths[..r.error.file])
  {
    if paths == [] then Ok([])
    else
      var init, path := paths[..|paths| - 1], paths[|paths| - 1];
      assert paths == init + [path] && paths[..|init|] == init;
      LoadableSnoc(fs, init, path);
      match LoadSets(fs, init)
      case Err(e) =>
        assert init[..e.file] == paths[..e.file];
        Err(e)
      case Ok(sets) =>
        if path !in fs then Err(MissingStats(|init|, path))
        else
          match ParseSet(fs[path])
          case Err(e) => Err(MalformedStats(|init|, e.line, e.count))
          case Ok(rows) =>
            LoadedFromSnoc(fs, init, path, sets, rows);
            Ok(sets + [rows])
  }

  /** One more file keeps the paths loadable exactly when it exists and parses. */
  lemma LoadableSnoc(fs: Merge.FileSystem, init: seq<string>, path: string)
    ensures Loadable(fs, init + [path]) <==> Loadable(fs, init) && path in fs && ParseSet(fs[path]).Ok?
  {
    var paths := init + [path];
    assert forall i :: 0 <= i < |init| ==> paths[i] == init[i];
    assert paths[|init|] == path;
  }

  /** The tables of loadable paths grow by the table of the next file. */
  lemma LoadedFromSnoc(fs: Merge.FileSystem, init: seq<string>, path: string, sets: seq<seq<StatRow>>, rows: seq<StatRow>)
    requires Loadable(fs, init) && LoadedFrom(fs, init, sets)
    requires path in fs && ParseSet(fs[path]) == Ok(rows)
    ensures Loadable(fs, init + [path]) && LoadedFrom(fs, init + [path], sets + [rows])
  {
    LoadableSnoc(fs, init, path);
    var paths := init + [path];
    forall i | 0 <= i < |paths| ensures (sets + [rows])[i] == ParseSet(fs[paths[i]]).value {
      if i < |init| {
        assert paths[i] == init[i];
      }
    }
  }

  /** The first header line: each file's name without its last four characters, then six commas. */
  function TitleLine(labels: seq<string>): string {
    if labels == [] then ""
    else TitleLine(labels[..|labels| - 1]) + DropLast4(labels[|labels| - 1]) + TitleEnd
  }

  /** The second header line: the five column names and a quoted blank, once per file. */
  function SchemaLine(n: nat): string {
    if n == 0 then "" else SchemaLine(n - 1) + SchemaGroup
  }

  /** `Ranking` order: integers ascending, then the rankings stored as text. */
  predicate RankLE(a: Option<int>, b: Option<int>) {
    match a
    case None => b.None?
    case Some(x) => b.None? || x <= b.value
  }

  predicate RankOrdered(rows: seq<StatRow>) {
    forall i, j :: 0 <= i < j < |rows| ==> RankLE(RankingOf(rows[i]), RankingOf(rows[j]))
  }

  function InsertByRank(row: StatRow, sorted: seq<StatRow>): (r: seq<StatRow>)
    requires RankOrdered(sorted)
    ensures RankOrdered(r)
    ensures multiset(r) == multiset(sorted) + multiset{row}
    ensures |r| == |sorted| + 1
  {
    if sorted == [] || RankLE(RankingOf(row), RankingOf(sorted[0])) then
      InsertFront(row, sorted);
      [row] + sorted
    else
      var rest := InsertByRank(row, sorted[1..]);
      InsertStep(row, sorted, rest);
      [sorted[0]] + rest
  }

  lemma InsertFront(row: StatRow, sorted: seq<StatRow>)
    requires RankOrdered(sorted)
    requires sorted == [] || RankLE(RankingOf(row), RankingOf(sorted[0]))
    ensures RankOrdered([row] + sorted)
  {
    var r := [row] + sorted;
    forall i, j | 0 <= i < j < |r| ensures RankLE(RankingOf(r[i]), RankingOf(r[j])) {
      assert r[j] == sorted[j - 1];
      if i > 0 {
        assert r[i] == sorted[i - 1];
      } else if j > 1 {
        assert RankLE(RankingOf(sorted[0]), RankingOf(sorted[j - 1]));
      }
    }
  }

  lemma InsertStep(row: StatRow, sorted: seq<StatRow>, rest: seq<StatRow>)
    requires sorted != [] && !RankLE(RankingOf(row), RankingOf(sorted[0]))
    requires RankOrdered(sorted) && RankOrdered(rest)
    requires multiset(rest) == multiset(sorted[1..]) + multiset{row}
    ensures RankOrdered([sorted[0]] + rest)
    ensures multiset([sorted[0]] + rest) == multiset(sorted) + multiset{row}
  {
    assert sorted == [sorted[0]] + sorted[1..];
    var head := RankingOf(sorted[0]);
    forall j | 0 <= j < |rest| ensures RankLE(head, RankingOf(rest[j])) {
      assert rest[j] in multiset(rest);
      if rest[j] != row {
        assert rest[j] in multiset(sorted[1..]);
        var k :| 0 <= k < |sorted[1..]| && sorted[1..][k] == rest[j];
        assert sorted[k + 1] == rest[j];
      }
    }
    var r := [sorted[0]] + rest;
    forall i, j | 0 <= i < j < |r| ensures RankLE(RankingOf(r[i]), RankingOf(r[j])) {
      assert r[j] == rest[j - 1];
      if i > 0 {
        assert r[i] == rest[i - 1];
      }
    }
  }

  /** `ORDER BY Ranking` on the first table: a permutation in ranking order (ties left open). */
  function OrderByRanking(rows: seq<StatRow>): (r: seq<StatRow>)
    ensures RankOrdered(r)
    ensures multiset(r) == multiset(rows)
    ensures |r| == |rows|
  {
    if rows == [] then []
    else
      assert rows == [rows[0]] + rows[1..];
      InsertByRank(rows[0], OrderByRanking(rows[1..]))
  }

  /** `SELECT * ... WHERE TransactionName is name`: the rows with that exact name, in table order. */
  function Matches(rows: seq<StatRow>, name: string): (m: seq<StatRow>)
    ensures forall x :: multiset(m)[x] == if x.name == name then multiset(rows)[x] else 0
  {
    if rows == [] then []
    else
      var init := Matches(rows[..|rows| - 1], name);
      var last := rows[|rows| - 1];
      assert rows == rows[..|rows| - 1] + [last];
      if last.name == name then init + [last] else init
  }

  /** The ranking as it comes back from the table: an integer is printed by `str`, text as is. */
  function RankText(row: StatRow): string {
    match RankingOf(row)
    case Some(i) => IntToString(i)
    case None => row.rankingText
  }

  /** One matching row, its columns separated as in a printed tuple. */
  function RenderRow(row: StatRow): string {
    JoinWith([RankText(row), row.name, row.ord, row.count, row.avgResponse], CellSeparator)
  }

  function RenderRows(rows: seq<StatRow>): string {
    if rows == [] then "" else JoinWith(RenderAll(rows), RowSeparator)
  }

  function RenderAll(rows: seq<StatRow>): (r: seq<string>)
    ensures |r| == |rows| && forall i :: 0 <= i < |rows| ==> r[i] == RenderRow(rows[i])
  {
    if rows == [] then [] else RenderAll(rows[..|rows| - 1]) + [RenderRow(rows[|rows| - 1])]
  }

  /** The column group of one file for one transaction name, before its closing `,,`. */
  function Group(rows: seq<StatRow>, name: string): string {
    RenderRows(Matches(rows, name))
  }

  /** One data line: a column group per file, in argument order, each ending with `,,`. */
  function DataLine(sets: seq<seq<StatRow>>, name: string): string {
    if sets == [] then ""
    else DataLine(sets[..|sets| - 1], name) + Group(sets[|sets| - 1], name) + GroupEnd
  }

  /** The data lines for the given rows of the first file, in order. */
  function DataLines(sets: seq<seq<StatRow>>, order: seq<StatRow>): (lines: seq<string>)
    ensures |lines| == |order|
    ensures forall k :: 0 <= k < |order| ==> lines[k] == DataLine(sets, order[k].name)
  {
    if order == [] then []
    else DataLines(sets, order[..|order| - 1]) + [DataLine(sets, order[|order| - 1].name)]
  }

  /** The whole report for loaded tables; the first table drives the data lines. */
  function Report(sets: seq<seq<StatRow>>, labels: seq<string>): seq<string>
    requires |sets| >= 1
  {
    [TitleLine(labels), SchemaLine(|sets|)] + DataLines(sets, OrderByRanking(sets[0]))
  }

  datatype CompareOutcome =
    | TooFewInputs
    | Failed(failure: LoadFailure)
    | Compared(lines: seq<string>)

  /** What a run of `comparestats` produces for the given argument files. */
  function Comparison(fs: Merge.FileSystem, args: seq<string>): CompareOutcome {
    if |args| < 2 then TooFewInputs
    else
      match LoadSets(fs, args)
      case Err(e) => Failed(e)
      case Ok(sets) => Compared(Report(sets, args))
  }

  /** The file has no row with the name exactly when the lookup returns nothing. */
  lemma MatchesEmpty(rows: seq<StatRow>, name: string)
    ensures Matches(rows, name) == [] <==> forall i :: 0 <= i < |rows| ==> rows[i].name != name
  {
    var m := Matches(rows, name);
    if m != [] {
      assert m[0] in multiset(m);
      assert m[0] in multiset(rows);
    } else {
      forall i | 0 <= i < |rows| ensures rows[i].name != name {
        assert rows[i] in multiset(rows);
        assert multiset(m)[rows[i]] == 0;
      }
    }
  }

  /** Every row the lookup returns has the name and comes from the file. */
  lemma MatchesFrom(rows: seq<StatRow>, name: string, k: nat)
    requires k < |Matches(rows, name)|
    ensures Matches(rows, name)[k].name == name
    ensures exists i :: 0 <= i < |rows| && rows[i] == Matches(rows, name)[k]
  {
    var x := Matches(rows, name)[k];
    assert x in multiset(Matches(rows, name));
    assert x in multiset(rows);
  }

  /** A column group is blank exactly when the file has no row with that name. */
  lemma {:induction false} GroupBlank(rows: seq<StatRow>, name: string)
    ensures Group(rows, name) == "" <==> forall i :: 0 <= i < |rows| ==> rows[i].name != name
  {
    var m := Matches(rows, name);
    MatchesEmpty(rows, name);
    if m != [] {
      var parts := RenderAll(m);
      JoinWithLength(parts, RowSeparator);
      var last := m[|m| - 1];
      JoinWithLength([RankText(last), last.name, last.ord, last.count, last.avgResponse], CellSeparator);
    }
  }

  /** `str` of an integer holds digits and at most a minus sign. */
  lemma IntToStringCommaFree(i: int)
    ensures Csv.NoDelimiter(IntToString(i))
  {
    var n: nat := if i < 0 then -i else i;
    assert AllDigits(NatToString(n));
    assert !IsDigit(Csv.Delimiter);
    assert Csv.Delimiter !in NatToString(n);
  }

  lemma SeparatorCommas()
    ensures Occurrences(CellSeparator, Csv.Delimiter) == 1
    ensures Occurrences(RowSeparator, Csv.Delimiter) == 1
    ensures Occurrences(GroupEnd, Csv.Delimiter) == 2
    ensures Occurrences(TitleEnd, Csv.Delimiter) == 6
  {
    assert CellSeparator[1..] == " ";
    assert RowSeparator[1..] == ", (" && RowSeparator[2..] == " (" && RowSeparator[3..] == "(";
    assert GroupEnd[1..] == ",";
  }

  /** A printed row of comma-free cells holds the four commas between its five columns. */
  lemma RenderRowCommas(row: StatRow)
    requires CommaFree(row)
    ensures Occurrences(RenderRow(row), Csv.Delimiter) == 4
  {
    if RankingOf(row).Some? {
      IntToStringCommaFree(RankingOf(row).value);
    }
    var parts := [RankText(row), row.name, row.ord, row.count, row.avgResponse];
    forall i | 0 <= i < |parts| ensures Occurrences(parts[i], Csv.Delimiter) == 0 {
      OccurrencesAbsent(parts[i], Csv.Delimiter);
    }
    JoinWithOccurrences(parts, CellSeparator, Csv.Delimiter, 0);
    SeparatorCommas();
  }

  /** The commas one column group and its closing `,,` put into a data line, by number of matching rows. */
  function GroupWidth(matching: nat): nat {
    if matching == 0 then 2 else 5 * matching + 1
  }

  /** Rows printed one after another: four commas each, and one in every separator between them. */
  lemma RowsCommas(m: seq<StatRow>)
    requires m != [] && forall k :: 0 <= k < |m| ==> CommaFree(m[k])
    ensures Occurrences(RenderRows(m), Csv.Delimiter) == 5 * |m| - 1
  {
    var parts := RenderAll(m);
    forall k | 0 <= k < |parts| ensures Occurrences(parts[k], Csv.Delimiter) == 4 {
      RenderRowCommas(m[k]);
    }
    JoinWithOccurrences(parts, RowSeparator, Csv.Delimiter, 4);
    SeparatorCommas();
  }

  /** A group of `m` comma-free rows holds 4 commas per row, one per row separator, and its closing two. */
  lemma GroupCommas(rows: seq<StatRow>, name: string)
    requires WellFormedSet(rows)
    ensures Occurrences(Group(rows, name) + GroupEnd, Csv.Delimiter) == GroupWidth(|Matches(rows, name)|)
  {
    var m := Matches(rows, name);
    OccurrencesAppend(Group(rows, name), GroupEnd, Csv.Delimiter);
    SeparatorCommas();
    if m != [] {
      forall k | 0 <= k < |m| ensures CommaFree(m[k]) {
        MatchesFrom(rows, name, k);
      }
      RowsCommas(m);
    }
  }

  /** The commas of a whole data line: the sum of its groups' widths. */
  function LineWidth(sets: seq<seq<StatRow>>, name: string): nat {
    if sets == [] then 0
    else LineWidth(sets[..|sets| - 1], name) + GroupWidth(|Matches(sets[|sets| - 1], name)|)
  }

  predicate HasName(rows: seq<StatRow>, name: string) {
    exists i :: 0 <= i < |rows| && rows[i].name == name
  }

  /** The number of files with no row of the given name. */
  function Blanks(sets: seq<seq<StatRow>>, name: string): nat {
    if sets == [] then 0
    else Blanks(sets[..|sets| - 1], name) + (if HasName(sets[|sets| - 1], name) then 0 else 1)
  }

  predicate AllWellFormed(sets: seq<seq<StatRow>>) {
    forall j :: 0 <= j < |sets| ==> WellFormedSet(sets[j])
  }

  lemma {:induction false} DataLineCommas(sets: seq<seq<StatRow>>, name: string)
    requires AllWellFormed(sets)
    ensures Occurrences(DataLine(sets, name), Csv.Delimiter) == LineWidth(sets, name)
  {
    if sets != [] {
      var init := sets[..|sets| - 1];
      var last := sets[|sets| - 1];
      DataLineCommas(init, name);
      GroupCommas(last, name);
      var a, b := DataLine(init, name), Group(last, name) + GroupEnd;
      assert DataLine(sets, name) == a + b;
      OccurrencesAppend(a, b, Csv.Delimiter);
    }
  }

  lemma SchemaGroupCommas()
    ensures Occurrences(SchemaGroup, Csv.Delimiter) == 6
  {
    var cols := SchemaColumns;
    forall i | 0 <= i < |cols| ensures Occurrences(cols[i], Csv.Delimiter) == 0 {
      OccurrencesAbsent(cols[i], Csv.Delimiter);
    }
    JoinWithOccurrences(cols, [Csv.Delimiter], Csv.Delimiter, 0);
    OccurrencesAppend(JoinWith(cols, [Csv.Delimiter]), [Csv.Delimiter], Csv.Delimiter);
  }

  /** The second header line holds six commas per file. */
  lemma {:induction false} SchemaLineCommas(n: nat)
    ensures Occurrences(SchemaLine(n), Csv.Delimiter) == 6 * n
  {
    if n > 0 {
      SchemaLineCommas(n - 1);
      SchemaGroupCommas();
      OccurrencesAppend(SchemaLine(n - 1), SchemaGroup, Csv.Delimiter);
    }
  }

  /** With comma-free file names, the first header line also holds six commas per file. */
  lemma {:induction false} TitleLineCommas(labels: seq<string>)
    requires forall i :: 0 <= i < |labels| ==> Csv.NoDelimiter(labels[i])
    ensures Occurrences(TitleLine(labels), Csv.Delimiter) == 6 * |labels|
  {
    if labels != [] {
      var init, last := labels[..|labels| - 1], labels[|labels| - 1];
      TitleLineCommas(init);
      DropLast4Within(last, Csv.Delimiter);
      OccurrencesAbsent(DropLast4(last), Csv.Delimiter);
      SeparatorCommas();
      OccurrencesAppend(TitleLine(init), DropLast4(last), Csv.Delimiter);
      OccurrencesAppend(TitleLine(init) + DropLast4(last), TitleEnd, Csv.Delimiter);
    }
  }

  lemma {:induction false} WidthByBlanks(sets: seq<seq<StatRow>>, name: string)
    requires forall j :: 0 <= j < |sets| ==> |Matches(sets[j], name)| <= 1
    ensures LineWidth(sets, name) + 4 * Blanks(sets, name) == 6 * |sets|
  {
    if sets != [] {
      WidthByBlanks(sets[..|sets| - 1], name);
      MatchesEmpty(sets[|sets| - 1], name);
    }
  }

  /**
   * Column alignment, when each file has at most one row per name: a data line has as
   * many CSV cells as the schema line, less four for every blank group.
   */
  lemma ColumnsShiftByBlanks(sets: seq<seq<StatRow>>, name: string)
    requires AllWellFormed(sets)
    requires forall j :: 0 <= j < |sets| ==> |Matches(sets[j], name)| <= 1
    ensures |Csv.Split(DataLine(sets, name))| + 4 * Blanks(sets, name) == |Csv.Split(SchemaLine(|sets|))|
  {
    DataLineCommas(sets, name);
    SchemaLineCommas(|sets|);
    WidthByBlanks(sets, name);
    Csv.SplitCount(DataLine(sets, name));
    Csv.SplitCount(SchemaLine(|sets|));
  }

  /** There are no blank groups exactly when every file has a row with the name. */
  lemma {:induction false} NoBlanks(sets: seq<seq<StatRow>>, name: string)
    ensures Blanks(sets, name) == 0 <==> forall j :: 0 <= j < |sets| ==> HasName(sets[j], name)
  {
    if sets != [] {
      var init := sets[..|sets| - 1];
      NoBlanks(init, name);
      if Blanks(sets, name) == 0 {
        forall j | 0 <= j < |sets| ensures HasName(sets[j], name) {
          if j < |init| {
            assert init[j] == sets[j];
          }
        }
      }
      if forall j :: 0 <= j < |sets| ==> HasName(sets[j], name) {
        forall j | 0 <= j < |init| ensures HasName(init[j], name) {
          assert init[j] == sets[j];
        }
        assert HasName(sets[|sets| - 1], name);
      }
    }
  }

  /** With comma-free file names the two header lines have the same number of CSV cells. */
  lemma HeadersAligned(labels: seq<string>)
    requires forall i :: 0 <= i < |labels| ==> Csv.NoDelimiter(labels[i])
    ensures |Csv.Split(TitleLine(labels))| == |Csv.Split(SchemaLine(|labels|))|
  {
    TitleLineCommas(labels);
    SchemaLineCommas(|labels|);
    Csv.SplitCount(TitleLine(labels));
    Csv.SplitCount(SchemaLine(|labels|));
  }

  /** A name that the first file lacks heads no data line, whatever the other files hold. */
  lemma NoRowForOtherNames(sets: seq<seq<StatRow>>, n: string)
    requires |sets| >= 1
    requires forall i :: 0 <= i < |sets[0]| ==> sets[0][i].name != n
    ensures forall k :: 0 <= k < |sets[0]| ==> OrderByRanking(sets[0])[k].name != n
  {
    var order := OrderByRanking(sets[0]);
    forall k | 0 <= k < |sets[0]| ensures order[k].name != n {
      assert order[k] in multiset(order);
      assert order[k] in multiset(sets[0]);
    }
  }

  /** Loaded tables came out of the CSV reader. */
  lemma LoadedWellFormed(fs: Merge.FileSystem, args: seq<string>)
    requires LoadSets(fs, args).Ok?
    ensures AllWellFormed(LoadSets(fs, args).value)
  {
  }

  /** The report for loaded tables: two header lines, then one data line per row of the first table. */
  lemma ReportShape(sets: seq<seq<StatRow>>, labels: seq<string>)
    requires |sets| >= 1
    ensures var lines, order := Report(sets, labels), OrderByRanking(sets[0]);
            && |lines| == 2 + |sets[0]|
            && lines[0] == TitleLine(labels) && lines[1] == SchemaLine(|sets|)
            && forall k :: 0 <= k < |order| ==> lines[2 + k] == DataLine(sets, order[k].name)
  {
    var data := DataLines(sets, OrderByRanking(sets[0]));
    assert Report(sets, labels)[2..] == data;
  }

  /**
   * A completed comparison: every file loaded, the first one giving one row per line
   * after its header, and the lines are the report of those tables.
   */
  lemma ComparedShape(fs: Merge.FileSystem, args: seq<string>)
    requires Comparison(fs, args).Compared?
    ensures |args| >= 2 && LoadSets(fs, args).Ok?
    ensures var sets := LoadSets(fs, args).value;
            && |sets| == |args|
            && |sets[0]| == (if fs[args[0]] == [] then 0 else |fs[args[0]]| - 1)
            && Comparison(fs, args).lines == Report(sets, args)
  {
    var sets := LoadSets(fs, args).value;
    assert sets[0] == ParseSet(fs[args[0]]).value;
  }

  /** Fewer than two files: the run stops before any file is read. */
  lemma TooFewReadsNothing(fs1: Merge.FileSystem, fs2: Merge.FileSystem, args: seq<string>)
    requires |args| < 2
    ensures Comparison(fs1, args) == Comparison(fs2, args) == TooFewInputs
  {
  }

  /** Loads one file: skips its header, then binds each line in turn. */
  method LoadStatSet(lines: seq<string>) returns (r: Result<seq<StatRow>, RowError>)
    ensures r == ParseSet(lines)
  {
    var rows: seq<StatRow> := [];
    if lines == [] {
      return Ok(rows);
    }
    for i := 1 to |lines|
      invariant ParseSet(lines[..i]) == Ok(rows)
    {
      ParseSetNext(lines, i);
      var cells := Csv.Split(lines[i]);
      var bound := ParseStatRow(cells);
      if bound.None? {
        r := Err(RowError(i, |cells|));
        ParseSetStops(lines, i + 1);
        return;
      }
      rows := rows + [bound.value];
    }
    assert lines[..|lines|] == lines;
    return Ok(rows);
  }

  /** Reading one more line: a failure stays, otherwise the line is bound or fails. */
  lemma ParseSetNext(lines: seq<string>, i: nat)
    requires 1 <= i < |lines|
    ensures var cells := Csv.Split(lines[i]);
            ParseSet(lines[..i + 1]) ==
              match ParseSet(lines[..i])
              case Err(e) => Err(e)
              case Ok(rows) =>
                if |cells| != StatColumns then Err(RowError(i, |cells|))
                else Ok(rows + [ParseStatRow(cells).value])
  {
    assert lines[..i + 1][..i] == lines[..i];
  }

  /** Once a line fails, the lines after it do not change the outcome. */
  lemma {:induction false} ParseSetStops(lines: seq<string>, i: nat)
    requires i <= |lines| && ParseSet(lines[..i]).Err?
    ensures ParseSet(lines) == ParseSet(lines[..i])
    decreases |lines| - i
  {
    if i < |lines| {
      ParseSetNext(lines, i);
      ParseSetStops(lines, i + 1);
    } else {
      assert lines[..i] == lines;
    }
  }

  /** Fills one table per argument file, in argument order. */
  method LoadStatSets(fs: Merge.FileSystem, args: seq<string>) returns (r: Result<seq<seq<StatRow>>, LoadFailure>)
    ensures r == LoadSets(fs, args)
  {
    var sets: seq<seq<StatRow>> := [];
    for filecounter := 0 to |args|
      invariant LoadSets(fs, args[..filecounter]) == Ok(sets)
    {
      assert args[..filecounter + 1][..filecounter] == args[..filecounter];
      var path := args[filecounter];
      if path !in fs {
        r := Err(MissingStats(filecounter, path));
        LoadSetsStops(fs, args, filecounter + 1);
        return;
      }
      var loaded := LoadStatSet(fs[path]);
      if loaded.Err? {
        r := Err(MalformedStats(filecounter, loaded.error.line, loaded.error.count));
        LoadSetsStops(fs, args, filecounter + 1);
        return;
      }
      sets := sets + [loaded.value];
    }
    assert args[..|args|] == args;
    return Ok(sets);
  }

  /** Once a file fails, the files after it do not change the outcome. */
  lemma {:induction false} LoadSetsStops(fs: Merge.FileSystem, args: seq<string>, i: nat)
    requires i <= |args| && LoadSets(fs, args[..i]).Err?
    ensures LoadSets(fs, args) == LoadSets(fs, args[..i])
    decreases |args| - i
  {
    if i < |args| {
      var next := args[..i + 1];
      assert next[..|next| - 1] == args[..i];
      assert LoadSets(fs, next) == LoadSets(fs, args[..i]);
      LoadSetsStops(fs, args, i + 1);
    } else {
      assert args[..i] == args;
    }
  }

  /** Builds the first header line, one title per file. */
  method WriteTitleLine(args: seq<string>) returns (title: string)
    ensures title == TitleLine(args)
  {
    title := "";
    for filecounter := 0 to |args|
      invariant title == TitleLine(args[..filecounter])
    {
      assert args[..filecounter + 1][..filecounter] == args[..filecounter];
      title := title + DropLast4(args[filecounter]) + TitleEnd;
    }
    assert args[..|args|] == args;
  }

  /** Builds the second header line, one schema group per file. */
  method WriteSchemaLine(n: nat) returns (schema: string)
    ensures schema == SchemaLine(n)
  {
    schema := "";
    for filecounter := 0 to n
      invariant schema == SchemaLine(filecounter)
    {
      schema := schema + SchemaGroup;
    }
  }

  /** Builds the data lines, one per entry of `transactionlist`, in its order. */
  method WriteDataLines(sets: seq<seq<StatRow>>, transactionlist: seq<StatRow>) returns (lines: seq<string>)
    ensures lines == DataLines(sets, transactionlist)
  {
    lines := [];
    for k := 0 to |transactionlist|
      invariant lines == DataLines(sets, transactionlist[..k])
    {
      assert transactionlist[..k + 1][..k] == transactionlist[..k];
      var line := WriteDataLine(sets, transactionlist[k].name);
      lines := lines + [line];
    }
    assert transactionlist[..|transactionlist|] == transactionlist;
  }

  /** Builds one data line: the column group of every table for `name`. */
  method WriteDataLine(sets: seq<seq<StatRow>>, name: string) returns (line: string)
    ensures line == DataLine(sets, name)
  {
    line := "";
    for filecounter := 0 to |sets|
      invariant line == DataLine(sets[..filecounter], name)
    {
      assert sets[..filecounter + 1][..filecounter] == sets[..filecounter];
      line := line + Group(sets[filecounter], name) + GroupEnd;
    }
    assert sets[..|sets|] == sets;
  }

  /**
   * comparestats: refuses fewer than two files before reading any, loads every file,
   * writes the two header lines, then one data line per row of the first file in
   * ranking order.
   */
  method CompareStats(fs: Merge.FileSystem, args: seq<string>) returns (out: CompareOutcome)
    ensures out.TooFewInputs? <==> |args| < 2
    ensures out == Comparison(fs, args)
  {
    if |args| < 2 {
      return TooFewInputs;
    }
    var loaded := LoadStatSets(fs, args);
    if loaded.Err? {
      return Failed(loaded.error);
    }
    var sets := loaded.value;
    var title := WriteTitleLine(args);
    var schema := WriteSchemaLine(|args|);
    var transactionlist := OrderByRanking(sets[0]);
    var data := WriteDataLines(sets, transactionlist);
    return Compared([title, schema] + data);
  }
}

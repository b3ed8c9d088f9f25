/**
 * `create_sqlite_table` of getordstats.py: every line of the merged file after its
 * first becomes one row of the 23-column `transactions` table.
 */
module Transactions {
  import opened Wrappers
  import opened Numbers
  import Csv

  /** Columns of the `transactions` table. */
  const FieldCount: nat := 23
  /** The table ends with seven (MetricN, MetricNValue) column pairs. */
  const MetricPairs: nat := 7

  datatype Metric = Metric(name: string, value: string)

  /**
   * One row of the `transactions` table. `ord` (an `integer` column) and
   * `responseTime` (a `real` column) hold the numeric value SQLite gives the text.
   */
  datatype Transaction = Transaction(
    userName: string,
    transactionName: string,
    ord: real,
    workstationName: string,
    workstationAddress: string,
    startTime: string,
    endTime: string,
    responseTime: real,
    status: string,
    metrics: seq<Metric>)

  /**
   * Binding one CSV row to the 23 placeholders of the INSERT: positional, and refused
   * when the row does not have exactly 23 cells.
   */
  function BindRow(cells: seq<string>): (r: Option<Transaction>)
    ensures r.Some? <==> |cells| == FieldCount
    ensures r.Some? ==>
              && r.value.userName == cells[0]
              && r.value.transactionName == cells[1]
              && r.value.ord == NumericPrefix(cells[2])
              && r.value.workstationName == cells[3]
              && r.value.workstationAddress == cells[4]
              && r.value.startTime == cells[5]
              && r.value.endTime == cells[6]
              && r.value.responseTime == NumericPrefix(cells[7])
              && r.value.status == cells[8]
              && |r.value.metrics| == MetricPairs
              && forall j :: 0 <= j < MetricPairs ==>
                   r.value.metrics[j] == Metric(cells[9 + 2 * j], cells[10 + 2 * j])
  {
    if |cells| != FieldCount then None
    else
      Some(Transaction(cells[0], cells[1], NumericPrefix(cells[2]), cells[3], cells[4],
                       cells[5], cells[6], NumericPrefix(cells[7]), cells[8],
                       seq(MetricPairs, j requires 0 <= j < MetricPairs =>
                             Metric(cells[9 + 2 * j], cells[10 + 2 * j]))))
  }

  datatype LoadError = WrongFieldCount(line: nat, count: nat)

  predicate Bindable(line: string) {
    |Csv.Split(line)| == FieldCount
  }

  /** Every line in `lines[1..n]` can be inserted. */
  predicate BindableUpTo(lines: seq<string>, n: nat)
    requires n <= |lines|
  {
    forall k :: 1 <= k < n ==> Bindable(lines[k])
  }

  /** Record `k` was bound from line `k + 1`. */
  predicate BoundFrom(records: seq<Transaction>, lines: seq<string>)
    requires |records| < |lines|
  {
    forall k :: 0 <= k < |records| ==> BindRow(Csv.Split(lines[k + 1])) == Some(records[k])
  }

  /** A line that binds extends the loaded records by its record. */
  lemma BindNext(lines: seq<string>, records: seq<Transaction>, i: nat)
    requires i + 1 < |lines| && |records| == i
    requires BindableUpTo(lines, i + 1) && BoundFrom(records, lines)
    requires BindRow(Csv.Split(lines[i + 1])).Some?
    ensures BindableUpTo(lines, i + 2)
    ensures BoundFrom(records + [BindRow(Csv.Split(lines[i + 1])).value], lines)
  {
  }

  /**
   * The load loop: the reader's first line is skipped, then each line is inserted in
   * order; the first line with the wrong number of cells aborts the load.
   */
  method LoadTransactions(lines: seq<string>) returns (r: Result<seq<Transaction>, LoadError>)
    ensures r.Ok? <==> BindableUpTo(lines, |lines|)
    ensures r.Ok? ==> |r.value| == (if lines == [] then 0 else |lines| - 1)
    ensures r.Ok? && lines != [] ==> BoundFrom(r.value, lines)
    ensures r.Err? ==>
              && 1 <= r.error.line < |lines|
              && BindableUpTo(lines, r.error.line)
              && r.error.count == |Csv.Split(lines[r.error.line])|
              && r.error.count != FieldCount
  {
    if lines == [] {
      return Ok([]);
    }
    var rows := lines[1..]; // next(creader, None)
    var records: seq<Transaction> := [];
    for i := 0 to |rows|
      invariant |records| == i
      invariant BindableUpTo(lines, i + 1)
      invariant BoundFrom(records, lines)
    {
      assert rows[i] == lines[i + 1];
      var cells := Csv.Split(rows[i]);
      var bound := BindRow(cells);
      if bound.None? {
        return Err(WrongFieldCount(i + 1, |cells|));
      }
      BindNext(lines, records, i);
      records := records + [bound.value];
    }
    return Ok(records);
  }
}

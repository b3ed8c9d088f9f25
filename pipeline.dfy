/**
 * The run of getordstats.py that `main` performs: merge the input files, load the
 * merged file into the `transactions` table, then write the ranked statistics.
 */
module Pipeline {
  import opened Merge
  import opened Transactions
  import opened Stats

  datatype RunOutcome =
      /** An input file was missing; the run ended after writing `written`. */
    | MergeStopped(missing: string, written: seq<string>)
      /** A line of the merged file had the wrong number of cells. */
    | LoadFailed(merged: seq<string>, error: LoadError)
    | Done(merged: seq<string>, records: seq<Transaction>, sheet: StatsSheet)

  method Run(fs: FileSystem, args: seq<string>) returns (out: RunOutcome)
    ensures out.MergeStopped? <==> FirstMissing(fs, args) < |args|
    ensures out.MergeStopped? ==>
              var i := FirstMissing(fs, args);
              out.missing == args[i] && out.written == RetainedAll(fs, args[..i], Banner)
    ensures !out.MergeStopped? ==> out.merged == RetainedAll(fs, args, Banner)
    ensures out.LoadFailed? <==> !out.MergeStopped? && !BindableUpTo(out.merged, |out.merged|)
    ensures out.Done? ==>
              && |out.records| == (if out.merged == [] then 0 else |out.merged| - 1)
              && (out.merged != [] ==> BoundFrom(out.records, out.merged))
              && |out.sheet.rows| == |QualifyingStats(out.records)|
              && NonIncreasing(StatsOf(out.sheet.rows))
              && multiset(StatsOf(out.sheet.rows)) == multiset(QualifyingStats(out.records))
              && forall i :: 0 <= i < |out.sheet.rows| ==> out.sheet.rows[i].ranking == i + 1
  {
    var merged := MergeFiles(fs, args);
    if merged.MissingInput? {
      return MergeStopped(merged.missing, merged.written);
    }
    var loaded := LoadTransactions(merged.lines);
    if loaded.Err? {
      return LoadFailed(merged.lines, loaded.error);
    }
    var sheet := CreateStats(loaded.value);
    return Done(merged.lines, loaded.value, sheet);
  }
}

/**
 * The file names `main` of getordstats.py derives: the merged CSV file, the SQLite
 * database next to it and the statistics file.
 */
module OutputNames {
  import opened Text

  const CsvSuffix: string := ".csv"
  const DbSuffix: string := ".db"
  const StatsSuffix: string := "_ORDStatistics.csv"
  /** The merged file's name when no `-o` argument is given. */
  const DefaultOutput: string := "out_default.csv"
  /** Prefix of the merged file's name when `-o` is given an empty name. */
  const EmptyNamePrefix: string := "out_"

  /** A name is given the `.csv` suffix unless it already ends with it. */
  function ForceCsv(name: string): (r: string)
    ensures EndsWith(r, CsvSuffix)
    ensures |name| <= |r| && r[..|name|] == name
    ensures EndsWith(name, CsvSuffix) <==> r == name
  {
    if EndsWith(name, CsvSuffix) then name else name + CsvSuffix
  }

  /**
   * The merged file's name from the requested one: an empty request names the file
   * after the `-i` input, and the result always carries the `.csv` suffix.
   */
  function MergedName(requested: string, inputfile: string): (r: string)
    ensures EndsWith(r, CsvSuffix) && |r| >= |CsvSuffix|
    ensures requested == "" ==> StartsWith(r, EmptyNamePrefix + inputfile)
    ensures requested != "" ==> StartsWith(r, requested)
  {
    ForceCsv(if requested == "" then EmptyNamePrefix + inputfile else requested)
  }

  /** The database name: a trailing `.csv` becomes `.db`, any other name gets `.db` appended. */
  function DbName(merged: string): (r: string)
    ensures EndsWith(r, DbSuffix)
    ensures StartsWith(r, if EndsWith(merged, CsvSuffix) then merged[..|merged| - 4] else merged)
    ensures EndsWith(merged, CsvSuffix) ==> |r| == |merged| - 1
    ensures !EndsWith(merged, CsvSuffix) ==> |r| == |merged| + 3
  {
    if EndsWith(merged, CsvSuffix) then merged[..|merged| - 4] + DbSuffix else merged + DbSuffix
  }

  /** The statistics file: the merged name without its last four characters, then `_ORDStatistics.csv`. */
  function StatsName(merged: string): (r: string)
    ensures EndsWith(r, StatsSuffix) && EndsWith(r, CsvSuffix)
    ensures |merged| >= 4 ==> |r| == |merged| + 14
  {
    DropLast4(merged) + StatsSuffix
  }

  /** Forcing the suffix a second time changes nothing. */
  lemma ForceCsvIdempotent(name: string)
    ensures ForceCsv(ForceCsv(name)) == ForceCsv(name)
  {
  }

  /**
   * For a merged name as `main` produces it, the database and the statistics file share
   * its stem, and the three names are different files.
   */
  lemma NamesShareStem(requested: string, inputfile: string)
    ensures var m := MergedName(requested, inputfile);
            && m == DropLast4(m) + CsvSuffix
            && DbName(m) == DropLast4(m) + DbSuffix
            && StatsName(m) == DropLast4(m) + StatsSuffix
            && DbName(m) != m && StatsName(m) != m && DbName(m) != StatsName(m)
  {
    var m := MergedName(requested, inputfile);
    assert m == DropLast4(m) + m[|m| - 4..];
    assert |DbName(m)| != |m|;
    assert |StatsName(m)| != |m|;
    assert |DbName(m)| != |StatsName(m)|;
  }

  /** The names a run without `-o` produces. */
  lemma DefaultNames()
    ensures DbName(DefaultOutput) == "out_default.db"
    ensures StatsName(DefaultOutput) == "out_default_ORDStatistics.csv"
  {
    var stem := "out_default";
    assert DefaultOutput == stem + CsvSuffix;
    assert DefaultOutput[..|DefaultOutput| - 4] == stem && DefaultOutput[|DefaultOutput| - 4..] == CsvSuffix;
    assert DropLast4(DefaultOutput) == stem;
  }
}

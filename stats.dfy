/**
 * `create_stats` of getordstats.py: per transaction name seen with status ARM_GOOD
 * (names starting with "Workflow" excluded), the number of such rows and the mean ORD
 * and response time over them, ranked by that count, largest first.
 */
module Stats {
  import opened Text
  import opened Transactions

  const GoodStatus: string := "ARM_GOOD"
  const ExcludedPrefix: string := "Workflow"
  const StatsHeader: string := "Ranking,TransactionName,ORDthreshold,TransactionCount,AvgTransactionResponse"

  predicate IsGoodRowOf(t: Transaction, name: string) {
    t.transactionName == name && t.status == GoodStatus
  }

  /** Some row of the table has this name and status ARM_GOOD. */
  predicate HasGoodRow(ts: seq<Transaction>, name: string) {
    exists k :: 0 <= k < |ts| && IsGoodRowOf(ts[k], name)
  }

  /** The rows `WHERE TransactionName is name AND TxStatus is 'ARM_GOOD'`, in table order. */
  function GoodRowsOf(ts: seq<Transaction>, name: string): (rows: seq<Transaction>)
    ensures forall t :: t in rows ==> IsGoodRowOf(t, name)
    ensures forall k :: 0 <= k < |ts| && IsGoodRowOf(ts[k], name) ==> ts[k] in rows
    ensures rows != [] <==> HasGoodRow(ts, name)
    ensures CountsGoodRows(ts, rows, name)
  {
    if ts == [] then []
    else
      var last := ts[|ts| - 1];
      var rows := GoodRowsOf(ts[..|ts| - 1], name) + (if IsGoodRowOf(last, name) then [last] else []);
      CountsStep(ts, GoodRowsOf(ts[..|ts| - 1], name), name);
      SelectionFromCounts(ts, rows, name);
      rows
  }

  /** Each good row for the name is kept as often as the table holds it, and no other row is kept. */
  ghost predicate CountsGoodRows(ts: seq<Transaction>, rows: seq<Transaction>, name: string) {
    forall t :: multiset(rows)[t] == if IsGoodRowOf(t, name) then multiset(ts)[t] else 0
  }

  /** Selecting from one more row appends that row when it is good. */
  lemma CountsStep(ts: seq<Transaction>, init: seq<Transaction>, name: string)
    requires ts != [] && CountsGoodRows(ts[..|ts| - 1], init, name)
    ensures CountsGoodRows(ts, init + (if IsGoodRowOf(ts[|ts| - 1], name) then [ts[|ts| - 1]] else []), name)
  {
    var prefix, last := ts[..|ts| - 1], ts[|ts| - 1];
    assert ts == prefix + [last];
    assert multiset(ts) == multiset(prefix) + multiset{last};
  }

  /** The multiplicities determine which rows are kept. */
  lemma SelectionFromCounts(ts: seq<Transaction>, rows: seq<Transaction>, name: string)
    requires CountsGoodRows(ts, rows, name)
    ensures forall t :: t in rows ==> IsGoodRowOf(t, name)
    ensures forall k :: 0 <= k < |ts| && IsGoodRowOf(ts[k], name) ==> ts[k] in rows
    ensures rows != [] <==> HasGoodRow(ts, name)
  {
    forall t | t in rows ensures IsGoodRowOf(t, name) {
      assert multiset(rows)[t] > 0;
    }
    forall k | 0 <= k < |ts| && IsGoodRowOf(ts[k], name) ensures ts[k] in rows {
      assert multiset(ts)[ts[k]] > 0;
    }
    if rows != [] {
      var t := rows[0];
      assert multiset(rows)[t] > 0;
      assert t in ts;
      var k :| 0 <= k < |ts| && ts[k] == t;
      assert IsGoodRowOf(ts[k], name);
    }
  }

  function SumOrd(rows: seq<Transaction>): real {
    if rows == [] then 0.0 else SumOrd(rows[..|rows| - 1]) + rows[|rows| - 1].ord
  }

  function SumResponse(rows: seq<Transaction>): real {
    if rows == [] then 0.0 else SumResponse(rows[..|rows| - 1]) + rows[|rows| - 1].responseTime
  }

  /** One row of the statistics table. */
  datatype Stat = Stat(name: string, avgOrd: real, count: nat, avgResponse: real)

  /**
   * The aggregate query for one name: count(TxStatus), avg(ORD) and avg(TxResponseTime)
   * over that name's ARM_GOOD rows. With no such row the averages are 0 here
   * (SQLite gives NULL); the script never asks for such a name.
   */
  function Aggregate(ts: seq<Transaction>, name: string): (s: Stat)
    ensures s.name == name && s.count == |GoodRowsOf(ts, name)|
    ensures s.count > 0 <==> HasGoodRow(ts, name)
    ensures s.count > 0 ==> s.avgOrd == SumOrd(GoodRowsOf(ts, name)) / s.count as real
    ensures s.count > 0 ==> s.avgResponse == SumResponse(GoodRowsOf(ts, name)) / s.count as real
  {
    var rows := GoodRowsOf(ts, name);
    var n := |rows|;
    if n == 0 then Stat(name, 0.0, 0, 0.0)
    else Stat(name, SumOrd(rows) / n as real, n, SumResponse(rows) / n as real)
  }

  predicate Distinct(names: seq<string>) {
    forall i, j :: 0 <= i < j < |names| ==> names[i] != names[j]
  }

  /**
   * `SELECT DISTINCT TransactionName ... WHERE TxStatus is "ARM_GOOD"`. SQLite leaves the
   * order open; this model lists names in the order they are first met.
   */
  function DistinctGoodNames(ts: seq<Transaction>): (names: seq<string>)
    ensures Distinct(names)
    ensures forall n :: n in names <==> HasGoodRow(ts, n)
  {
    if ts == [] then []
    else
      var init := ts[..|ts| - 1];
      var last := ts[|ts| - 1];
      var prev := DistinctGoodNames(init);
      assert forall n :: HasGoodRow(ts, n) <==> HasGoodRow(init, n) || IsGoodRowOf(last, n) by {
        forall n ensures HasGoodRow(ts, n) <==> HasGoodRow(init, n) || IsGoodRowOf(last, n) {
          if HasGoodRow(ts, n) {
            var k :| 0 <= k < |ts| && IsGoodRowOf(ts[k], n);
            if k < |ts| - 1 {
              assert init[k] == ts[k];
            }
          }
          if HasGoodRow(init, n) {
            var k :| 0 <= k < |init| && IsGoodRowOf(init[k], n);
            assert ts[k] == init[k];
          }
        }
      }
      if last.status == GoodStatus && last.transactionName !in prev then prev + [last.transactionName]
      else prev
  }

  predicate Qualifies(name: string) {
    !StartsWith(name, ExcludedPrefix)
  }

  /** Each entry is the aggregate of a qualifying name drawn from `names`. */
  predicate SoundFor(ts: seq<Transaction>, names: seq<string>, stats: seq<Stat>) {
    forall i :: 0 <= i < |stats| ==>
      stats[i] == Aggregate(ts, stats[i].name) && stats[i].name in names && Qualifies(stats[i].name)
  }

  /** Every qualifying name of `names` has an entry. */
  predicate Covers(names: seq<string>, stats: seq<Stat>) {
    forall n :: n in names && Qualifies(n) ==> exists i :: 0 <= i < |stats| && stats[i].name == n
  }

  predicate DistinctNames(stats: seq<Stat>) {
    forall i, j :: 0 <= i < j < |stats| ==> stats[i].name != stats[j].name
  }

  /** The statistics table built by the loop over `names`: one Aggregate per name that qualifies. */
  function StatsFor(ts: seq<Transaction>, names: seq<string>): (stats: seq<Stat>)
    ensures SoundFor(ts, names, stats)
    ensures Covers(names, stats)
    ensures Distinct(names) ==> DistinctNames(stats)
  {
    if names == [] then []
    else
      var init := names[..|names| - 1];
      var last := names[|names| - 1];
      var prev := StatsFor(ts, init);
      StatsForStep(ts, names, prev);
      if Qualifies(last) then prev + [Aggregate(ts, last)] else prev
  }

  lemma StatsForStep(ts: seq<Transaction>, names: seq<string>, prev: seq<Stat>)
    requires names != []
    requires SoundFor(ts, names[..|names| - 1], prev) && Covers(names[..|names| - 1], prev)
    requires Distinct(names[..|names| - 1]) ==> DistinctNames(prev)
    ensures var last := names[|names| - 1];
            var next := if Qualifies(last) then prev + [Aggregate(ts, last)] else prev;
            SoundFor(ts, names, next) && Covers(names, next) && (Distinct(names) ==> DistinctNames(next))
  {
    var init := names[..|names| - 1];
    var last := names[|names| - 1];
    assert names == init + [last];
    var next := if Qualifies(last) then prev + [Aggregate(ts, last)] else prev;
    assert next[..|prev|] == prev;
    StepSound(ts, init, last, prev, next);
    StepCovers(init, last, prev, next);
    if Distinct(names) {
      StepDistinct(init, last, prev, next);
    }
  }

  lemma StepSound(ts: seq<Transaction>, init: seq<string>, last: string, prev: seq<Stat>, next: seq<Stat>)
    requires SoundFor(ts, init, prev)
    requires next == if Qualifies(last) then prev + [Aggregate(ts, last)] else prev
    ensures SoundFor(ts, init + [last], next)
  {
    forall i | 0 <= i < |next|
      ensures next[i] == Aggregate(ts, next[i].name) && next[i].name in init + [last] && Qualifies(next[i].name)
    {
      if i < |prev| {
        assert next[i] == prev[i];
        assert prev[i].name in init;
      } else {
        assert next[i] == Aggregate(ts, last);
      }
    }
  }

  lemma StepCovers(init: seq<string>, last: string, prev: seq<Stat>, next: seq<Stat>)
    requires Covers(init, prev)
    requires |next| >= |prev| && next[..|prev|] == prev
    requires Qualifies(last) ==> |next| > |prev| && next[|prev|].name == last
    ensures Covers(init + [last], next)
  {
    forall n | n in init + [last] && Qualifies(n) ensures exists i :: 0 <= i < |next| && next[i].name == n {
      if n == last {
        assert next[|prev|].name == n;
      } else {
        assert n in init;
        var i :| 0 <= i < |prev| && prev[i].name == n;
        assert next[i] == prev[i];
      }
    }
  }

  lemma StepDistinct(init: seq<string>, last: string, prev: seq<Stat>, next: seq<Stat>)
    requires Distinct(init + [last])
    requires Distinct(init) ==> DistinctNames(prev)
    requires forall i :: 0 <= i < |prev| ==> prev[i].name in init
    requires |prev| <= |next| <= |prev| + 1 && next[..|prev|] == prev
    requires |next| > |prev| ==> next[|prev|].name == last
    ensures DistinctNames(next)
  {
    var names := init + [last];
    assert Distinct(init) by {
      forall i, j | 0 <= i < j < |init| ensures init[i] != init[j] {
        assert names[i] == init[i] && names[j] == init[j];
      }
    }
    forall j | 0 <= j < |init| ensures init[j] != last {
      assert names[j] == init[j] && names[|names| - 1] == last;
    }
    forall i, j | 0 <= i < j < |next| ensures next[i].name != next[j].name {
      assert next[i] == prev[i];
      if j < |prev| {
        assert next[j] == prev[j];
      }
    }
  }

  /** The statistics of every qualifying name, before ranking. */
  function QualifyingStats(ts: seq<Transaction>): seq<Stat> {
    StatsFor(ts, DistinctGoodNames(ts))
  }

  predicate NonIncreasing(stats: seq<Stat>) {
    forall i, j :: 0 <= i < j < |stats| ==> stats[i].count >= stats[j].count
  }

  function InsertByCount(s: Stat, sorted: seq<Stat>): (r: seq<Stat>)
    requires NonIncreasing(sorted)
    ensures NonIncreasing(r)
    ensures multiset(r) == multiset(sorted) + multiset{s}
    ensures |r| == |sorted| + 1
  {
    if sorted == [] || sorted[0].count <= s.count then
      [s] + sorted
    else
      var rest := InsertByCount(s, sorted[1..]);
      InsertStep(s, sorted, rest);
      [sorted[0]] + rest
  }

  lemma InsertStep(s: Stat, sorted: seq<Stat>, rest: seq<Stat>)
    requires sorted != [] && sorted[0].count > s.count
    requires NonIncreasing(sorted) && NonIncreasing(rest)
    requires multiset(rest) == multiset(sorted[1..]) + multiset{s}
    ensures NonIncreasing([sorted[0]] + rest)
    ensures multiset([sorted[0]] + rest) == multiset(sorted) + multiset{s}
  {
    assert sorted == [sorted[0]] + sorted[1..];
    forall j | 0 <= j < |rest| ensures sorted[0].count >= rest[j].count {
      assert rest[j] in multiset(rest);
      if rest[j] != s {
        assert rest[j] in multiset(sorted[1..]);
        var k :| 0 <= k < |sorted[1..]| && sorted[1..][k] == rest[j];
        assert sorted[k + 1] == rest[j];
      }
    }
    var r := [sorted[0]] + rest;
    forall i, j | 0 <= i < j < |r| ensures r[i].count >= r[j].count {
      if i > 0 {
        assert r[i] == rest[i - 1] && r[j] == rest[j - 1];
      } else {
        assert r[j] == rest[j - 1];
      }
    }
  }

  /** `ORDER BY TxCount DESC`: a permutation with non-increasing counts (tie order left open). */
  function SortByCount(stats: seq<Stat>): (r: seq<Stat>)
    ensures NonIncreasing(r)
    ensures multiset(r) == multiset(stats)
    ensures |r| == |stats|
  {
    if stats == [] then []
    else
      assert stats == [stats[0]] + stats[1..];
      InsertByCount(stats[0], SortByCount(stats[1..]))
  }

  /** One line of the statistics file: its rank and its statistics. */
  datatype RankedStat = RankedStat(ranking: nat, stat: Stat)

  /** The statistics file: its header line and its ranked lines. */
  datatype StatsSheet = StatsSheet(header: string, rows: seq<RankedStat>)

  function StatsOf(rows: seq<RankedStat>): (stats: seq<Stat>)
    ensures |stats| == |rows|
    ensures forall i :: 0 <= i < |rows| ==> stats[i] == rows[i].stat
  {
    if rows == [] then [] else StatsOf(rows[..|rows| - 1]) + [rows[|rows| - 1].stat]
  }

  /**
   * create_stats: aggregate each distinct ARM_GOOD name that does not start with
   * "Workflow", order the table by count, and number the lines 1..N.
   */
  method CreateStats(ts: seq<Transaction>) returns (sheet: StatsSheet)
    ensures sheet.header == StatsHeader
    ensures |sheet.rows| == |QualifyingStats(ts)|
    ensures forall i :: 0 <= i < |sheet.rows| ==> sheet.rows[i].ranking == i + 1
    ensures NonIncreasing(StatsOf(sheet.rows))
    ensures multiset(StatsOf(sheet.rows)) == multiset(QualifyingStats(ts))
  {
    var validTx := DistinctGoodNames(ts);
    var table := BuildTable(ts, validTx);
    var ordered := SortByCount(table);
    var rows := AssignRankings(ordered);
    sheet := StatsSheet(StatsHeader, rows);
  }

  /** The loop over the distinct names that fills `stats_table`. */
  method BuildTable(ts: seq<Transaction>, validTx: seq<string>) returns (table: seq<Stat>)
    ensures table == StatsFor(ts, validTx)
  {
    table := [];
    for k := 0 to |validTx|
      invariant table == StatsFor(ts, validTx[..k])
    {
      StatsForNext(ts, validTx, k);
      if Qualifies(validTx[k]) {
        table := table + [Aggregate(ts, validTx[k])];
      }
    }
    assert validTx[..|validTx|] == validTx;
  }

  lemma StatsForNext(ts: seq<Transaction>, names: seq<string>, k: nat)
    requires k < |names|
    ensures StatsFor(ts, names[..k + 1]) ==
            StatsFor(ts, names[..k]) + (if Qualifies(names[k]) then [Aggregate(ts, names[k])] else [])
  {
    var next := names[..k + 1];
    assert next[..|next| - 1] == names[..k] && next[|next| - 1] == names[k];
  }

  /** The loop that numbers the ordered statistics 1, 2, ... as it writes them. */
  method AssignRankings(ordered: seq<Stat>) returns (rows: seq<RankedStat>)
    ensures StatsOf(rows) == ordered
    ensures forall i :: 0 <= i < |rows| ==> rows[i].ranking == i + 1
  {
    rows := [];
    var ranking := 0;
    while ranking < |ordered|
      invariant ranking <= |ordered| && |rows| == ranking
      invariant forall i :: 0 <= i < ranking ==> rows[i] == RankedStat(i + 1, ordered[i])
    {
      ranking := ranking + 1;
      rows := rows + [RankedStat(ranking, ordered[ranking - 1])];
    }
  }

  /**
   * Whatever order ties take, every ranked line describes a name that has an ARM_GOOD
   * row and does not start with "Workflow": its count is the number of those rows (at
   * least one) and its averages are their ORD and response-time sums over that count.
   */
  lemma RankedLineFacts(ts: seq<Transaction>, rows: seq<RankedStat>, i: nat)
    requires multiset(StatsOf(rows)) == multiset(QualifyingStats(ts))
    requires i < |rows|
    ensures var s := rows[i].stat;
            && HasGoodRow(ts, s.name) && Qualifies(s.name)
            && s.count == |GoodRowsOf(ts, s.name)| && s.count >= 1
            && s.avgOrd == SumOrd(GoodRowsOf(ts, s.name)) / s.count as real
            && s.avgResponse == SumResponse(GoodRowsOf(ts, s.name)) / s.count as real
  {
    var q := QualifyingStats(ts);
    var x := rows[i].stat;
    assert StatsOf(rows)[i] == x;
    assert x in multiset(q);
    var k :| 0 <= k < |q| && q[k] == x;
    assert x.name in DistinctGoodNames(ts);
  }

  /** Every qualifying name is ranked: some line carries it. */
  lemma RankedNamesCovered(ts: seq<Transaction>, rows: seq<RankedStat>, n: string)
    requires multiset(StatsOf(rows)) == multiset(QualifyingStats(ts))
    requires HasGoodRow(ts, n) && Qualifies(n)
    ensures exists i :: 0 <= i < |rows| && rows[i].stat.name == n
  {
    assert n in DistinctGoodNames(ts);
    CoveredAfterReorder(DistinctGoodNames(ts), QualifyingStats(ts), StatsOf(rows), n);
  }

  /** Reordering a list of statistics keeps every name it covers. */
  lemma CoveredAfterReorder(names: seq<string>, q: seq<Stat>, r: seq<Stat>, n: string)
    requires multiset(r) == multiset(q) && Covers(names, q)
    requires n in names && Qualifies(n)
    ensures exists i :: 0 <= i < |r| && r[i].name == n
  {
    var k :| 0 <= k < |q| && q[k].name == n;
    assert q[k] in multiset(q);
    var i :| 0 <= i < |r| && r[i] == q[k];
  }

  /** No two ranked lines carry the same name. */
  lemma RankedNamesDistinct(ts: seq<Transaction>, rows: seq<RankedStat>)
    requires multiset(StatsOf(rows)) == multiset(QualifyingStats(ts))
    ensures DistinctNames(StatsOf(rows))
  {
    var q := QualifyingStats(ts);
    var r := StatsOf(rows);
    forall i, j | 0 <= i < j < |r| ensures r[i].name != r[j].name {
      if r[i].name == r[j].name {
        assert r[i] in multiset(q) && r[j] in multiset(q);
        assert r[i] == Aggregate(ts, r[i].name) && r[j] == Aggregate(ts, r[j].name);
        TwiceInMultiset(r, i, j);
        AtMostOnce(q, r[i]);
        assert false;
      }
    }
  }

  lemma TwiceInMultiset(s: seq<Stat>, i: nat, j: nat)
    requires i < j < |s| && s[i] == s[j]
    ensures multiset(s)[s[i]] >= 2
  {
    assert s == s[..j] + s[j..];
    assert s[i] == s[..j][i];
    assert s[j] == s[j..][0];
  }

  lemma {:induction false} AtMostOnce(s: seq<Stat>, x: Stat)
    requires DistinctNames(s)
    ensures multiset(s)[x] <= 1
  {
    if s != [] {
      var init := s[..|s| - 1];
      assert s == init + [s[|s| - 1]];
      assert DistinctNames(init);
      AtMostOnce(init, x);
      forall k | 0 <= k < |init| ensures init[k] != s[|s| - 1] {
        assert init[k] == s[k];
      }
    }
  }

  /** No name qualifies exactly when the statistics file holds only its header line. */
  lemma NoQualifyingNames(ts: seq<Transaction>)
    ensures QualifyingStats(ts) == [] <==> forall n :: HasGoodRow(ts, n) ==> !Qualifies(n)
  {
    var q := QualifyingStats(ts);
    if q != [] {
      assert HasGoodRow(ts, q[0].name) by {
        assert q[0].name in DistinctGoodNames(ts);
      }
    }
    if exists n :: HasGoodRow(ts, n) && Qualifies(n) {
      var n :| HasGoodRow(ts, n) && Qualifies(n);
      assert n in DistinctGoodNames(ts);
    }
  }
}

/**
 * `mergefiles` of getordstats.py: concatenates the input files, in argument order,
 * into one output, dropping each file's leading banner lines and its header line.
 */
module Merge {
  import opened Text

  /** The file system the scripts read: a path maps to the lines of that file. */
  type FileSystem = map<string, seq<string>>

  /** The classification banner that export files may start with. */
  const Banner: string := "**********  FOR OFFICIAL USE ONLY  **********"

  /*
   * The functions below take the banner as a parameter `marker`; the merge passes
   * `Banner`. Keeping the 45-character literal out of the general proofs keeps them cheap.
   */

  /** How many lines at the start of a file begin with the marker. */
  function BannerRun(lines: seq<string>, marker: string): (k: nat)
    ensures k <= |lines|
    ensures forall i :: 0 <= i < k ==> StartsWith(lines[i], marker)
    ensures k < |lines| ==> !StartsWith(lines[k], marker)
  {
    if lines == [] || !StartsWith(lines[0], marker) then 0 else 1 + BannerRun(lines[1..], marker)
  }

  /**
   * The lines of one file that reach the merged output: everything after the leading
   * banner lines and the one header line that follows them.
   */
  function Retained(lines: seq<string>, marker: string): seq<string> {
    var k := BannerRun(lines, marker);
    if k < |lines| then lines[k + 1..] else []
  }

  predicate AllExist(fs: FileSystem, paths: seq<string>) {
    forall i :: 0 <= i < |paths| ==> paths[i] in fs
  }

  /** The retained lines of the given files, concatenated in order (the merge reads only files that exist). */
  function RetainedAll(fs: FileSystem, paths: seq<string>, marker: string): seq<string> {
    if paths == [] then []
    else
      var last := paths[|paths| - 1];
      RetainedAll(fs, paths[..|paths| - 1], marker) + (if last in fs then Retained(fs[last], marker) else [])
  }

  /** The index of the first path that does not exist, or the number of paths when all do. */
  function FirstMissing(fs: FileSystem, paths: seq<string>): (i: nat)
    ensures i <= |paths| && AllExist(fs, paths[..i])
    ensures i < |paths| ==> paths[i] !in fs
  {
    if paths == [] || paths[0] !in fs then 0
    else
      var i := 1 + FirstMissing(fs, paths[1..]);
      assert paths[..i] == [paths[0]] + paths[1..][..i - 1];
      i
  }

  datatype MergeOutcome =
    | Merged(lines: seq<string>)
      /** The run stopped at `missing`; `written` is what had reached the output file. */
    | MissingInput(missing: string, written: seq<string>)

  /**
   * The merge loop: pops paths from the front of the argument list, skips the banner
   * lines of each file, consumes its header line and copies the rest; stops at the
   * first path that does not exist.
   */
  method MergeFiles(fs: FileSystem, args: seq<string>) returns (out: MergeOutcome)
    ensures FirstMissing(fs, args) == |args| ==> out == Merged(RetainedAll(fs, args, Banner))
    ensures FirstMissing(fs, args) < |args| ==>
              var i := FirstMissing(fs, args);
              out == MissingInput(args[i], RetainedAll(fs, args[..i], Banner))
  {
    var written: seq<string> := [];
    var rest := args;
    ghost var done := 0;
    while rest != []
      invariant done <= |args| && rest == args[done..]
      invariant AllExist(fs, args[..done])
      invariant written == RetainedAll(fs, args[..done], Banner)
    {
      var inputfile := rest[0];
      rest := rest[1..];
      if inputfile !in fs {
        FirstMissingAt(fs, args, done);
        out := MissingInput(inputfile, written);
        assert FirstMissing(fs, args) == done && out == MissingInput(args[done], RetainedAll(fs, args[..done], Banner));
        return;
      }
      var kept := CopyRetained(fs[inputfile], Banner);
      written := written + kept;
      RetainedAllNext(fs, args, done, Banner);
      done := done + 1;
    }
    assert args[..done] == args;
    FirstMissingNone(fs, args);
    out := Merged(written);
  }

  lemma RetainedAllNext(fs: FileSystem, args: seq<string>, i: nat, marker: string)
    requires i < |args| && AllExist(fs, args[..i]) && args[i] in fs
    ensures AllExist(fs, args[..i + 1])
    ensures RetainedAll(fs, args[..i + 1], marker) == RetainedAll(fs, args[..i], marker) + Retained(fs[args[i]], marker)
  {
    var next := args[..i + 1];
    assert next[..i] == args[..i] && next[i] == args[i];
  }

  lemma FirstMissingNone(fs: FileSystem, args: seq<string>)
    requires AllExist(fs, args)
    ensures FirstMissing(fs, args) == |args|
  {
  }

  /**
   * One file's pass: skip the banner lines, consume the header line, copy every
   * remaining line.
   */
  method CopyRetained(f: seq<string>, marker: string) returns (kept: seq<string>)
    ensures kept == Retained(f, marker)
  {
    var pos := 0;
    while pos < |f| && StartsWith(f[pos], marker)
      invariant pos <= |f|
      invariant forall j :: 0 <= j < pos ==> StartsWith(f[j], marker)
    {
      pos := pos + 1;
    }
    assert pos == BannerRun(f, marker);
    if pos < |f| {
      pos := pos + 1; // the header line
    }
    ghost var start := pos;
    kept := [];
    while pos < |f|
      invariant start <= pos <= |f|
      invariant kept == f[start..pos]
    {
      kept := kept + [f[pos]];
      pos := pos + 1;
    }
  }

  lemma FirstMissingAt(fs: FileSystem, args: seq<string>, i: nat)
    requires i < |args| && args[i] !in fs
    requires AllExist(fs, args[..i])
    ensures FirstMissing(fs, args) == i
  {
  }

  /** Merging a list of files is merging its first part and then its second. */
  lemma {:induction false} RetainedAllAppend(fs: FileSystem, p: seq<string>, q: seq<string>, marker: string)
    ensures RetainedAll(fs, p + q, marker) == RetainedAll(fs, p, marker) + RetainedAll(fs, q, marker)
    decreases |q|
  {
    if q == [] {
      assert p + q == p;
    } else {
      var q', last := q[..|q| - 1], q[|q| - 1];
      var pq := p + q;
      assert pq[..|pq| - 1] == p + q' && pq[|pq| - 1] == last;
      RetainedAllAppend(fs, p, q', marker);
      var tail := if last in fs then Retained(fs[last], marker) else [];
      calc {
        RetainedAll(fs, pq, marker);
        RetainedAll(fs, p + q', marker) + tail;
        (RetainedAll(fs, p, marker) + RetainedAll(fs, q', marker)) + tail;
        RetainedAll(fs, p, marker) + (RetainedAll(fs, q', marker) + tail);
      }
    }
  }

  /**
   * Per file: after `k` leading banner lines and one header line, every later line is
   * copied unchanged and in order, including any later banner line.
   */
  lemma RetainedLines(lines: seq<string>, marker: string, k: nat)
    requires k < |lines|
    requires forall i :: 0 <= i < k ==> StartsWith(lines[i], marker)
    requires !StartsWith(lines[k], marker)
    ensures |Retained(lines, marker)| == |lines| - k - 1
    ensures forall j :: 0 <= j < |Retained(lines, marker)| ==> Retained(lines, marker)[j] == lines[k + 1 + j]
  {
    assert BannerRun(lines, marker) == k;
  }

  /** A file made only of banner lines contributes nothing, not even a header. */
  lemma AllBannersRetainNothing(lines: seq<string>, marker: string)
    requires forall i :: 0 <= i < |lines| ==> StartsWith(lines[i], marker)
    ensures Retained(lines, marker) == []
  {
    assert BannerRun(lines, marker) == |lines|;
  }

  /** Only the leading banners are removed: a banner after the header is merged. */
  lemma LaterBannerIsKept(marker: string, header: string, row: string)
    requires !StartsWith(header, marker)
    ensures Retained([marker, header, marker, row], marker) == [marker, row]
  {
    var lines := [marker, header, marker, row];
    assert StartsWith(lines[0], marker) by {
      assert marker[..|marker|] == marker;
    }
    RetainedLines(lines, marker, 1);
  }

  /**
   * Two exports that each begin with banner lines and a header merge into exactly
   * their data rows, first file first.
   */
  lemma TwoExportsMerge(fs: FileSystem, p1: string, p2: string, marker: string,
                        header: string, rows1: seq<string>, rows2: seq<string>)
    requires !StartsWith(header, marker)
    requires p1 in fs && fs[p1] == [marker, header] + rows1
    requires p2 in fs && fs[p2] == [marker, marker, header] + rows2
    ensures RetainedAll(fs, [p1, p2], marker) == rows1 + rows2
  {
    assert StartsWith(marker, marker) by {
      assert marker[..|marker|] == marker;
    }
    RetainedLines(fs[p1], marker, 1);
    assert Retained(fs[p1], marker) == rows1;
    RetainedLines(fs[p2], marker, 2);
    assert Retained(fs[p2], marker) == rows2;
    assert [p1, p2][..1] == [p1];
    assert [p1][..0] == [];
    assert RetainedAll(fs, [p1], marker) == rows1;
    assert RetainedAll(fs, [p1, p2], marker) == RetainedAll(fs, [p1], marker) + rows2;
  }
}

/** String helpers mirroring the few Python string operations the scripts use. */
module Text {

  /** Python's `s.startswith(prefix)`. */
  predicate StartsWith(s: string, prefix: string) {
    |prefix| <= |s| && s[..|prefix|] == prefix
  }

  /** Python's `s.endswith(suffix)`. */
  predicate EndsWith(s: string, suffix: string) {
    |suffix| <= |s| && s[|s| - |suffix|..] == suffix
  }

  /** Python's slice `s[:-4]`: all but the last four characters, empty when `s` is shorter. */
  function DropLast4(s: string): string {
    if |s| >= 4 then s[..|s| - 4] else ""
  }

  /** The number of occurrences of `c` in `s`. */
  function Occurrences(s: string, c: char): nat {
    if s == [] then 0 else (if s[0] == c then 1 else 0) + Occurrences(s[1..], c)
  }

  lemma {:induction false} OccurrencesAppend(a: string, b: string, c: char)
    ensures Occurrences(a + b, c) == Occurrences(a, c) + Occurrences(b, c)
  {
    if a != [] {
      assert (a + b)[1..] == a[1..] + b;
      OccurrencesAppend(a[1..], b, c);
    } else {
      assert a + b == b;
    }
  }

  /** The parts written one after another with `sep` between neighbours. */
  function JoinWith(parts: seq<string>, sep: string): string
    requires |parts| >= 1
  {
    if |parts| == 1 then parts[0] else JoinWith(parts[..|parts| - 1], sep) + sep + parts[|parts| - 1]
  }

  lemma {:induction false} OccurrencesAbsent(s: string, c: char)
    requires c !in s
    ensures Occurrences(s, c) == 0
  {
    if s != [] {
      assert forall x :: x in s[1..] ==> x in s;
      OccurrencesAbsent(s[1..], c);
    }
  }

  /** When each part holds `each` copies of `c`, the joined text holds them plus one per separator. */
  lemma {:induction false} JoinWithOccurrences(parts: seq<string>, sep: string, c: char, each: nat)
    requires |parts| >= 1
    requires forall i :: 0 <= i < |parts| ==> Occurrences(parts[i], c) == each
    ensures Occurrences(JoinWith(parts, sep), c) == |parts| * each + (|parts| - 1) * Occurrences(sep, c)
  {
    if |parts| > 1 {
      var init, last := parts[..|parts| - 1], parts[|parts| - 1];
      var n, k := |init|, Occurrences(sep, c);
      assert Occurrences(last, c) == each;
      JoinWithOccurrences(init, sep, c, each);
      var j := JoinWith(init, sep);
      assert Occurrences(j, c) == n * each + (n - 1) * k;
      assert JoinWith(parts, sep) == j + sep + last;
      OccurrencesAppend(j, sep, c);
      OccurrencesAppend(j + sep, last, c);
      assert Occurrences(JoinWith(parts, sep), c) == n * each + (n - 1) * k + k + each;
      Distribute(n, each, k);
    }
  }

  lemma Distribute(n: nat, each: nat, k: nat)
    requires n >= 1
    ensures n * each + (n - 1) * k + k + each == (n + 1) * each + n * k
  {
  }

  /** The joined text ends with the last part, and holds a separator when there are two parts or more. */
  lemma JoinWithLength(parts: seq<string>, sep: string)
    requires |parts| >= 1
    ensures |JoinWith(parts, sep)| >= |parts[|parts| - 1]|
    ensures |parts| >= 2 ==> |JoinWith(parts, sep)| >= |sep|
  {
  }

  /** Dropping the last four characters keeps a prefix, so it adds no character. */
  lemma DropLast4Within(s: string, c: char)
    requires c !in s
    ensures c !in DropLast4(s)
  {
    if |s| >= 4 {
      assert forall x :: x in s[..|s| - 4] ==> x in s;
    }
  }
}

/**
 * The comma-delimited reading both scripts do with `csv.reader(..., delimiter=',')`:
 * a blank line yields no cell, any other line is cut into cells at every comma.
 * Quoted cells are not modelled.
 */
module Csv {
  import Text

  const Delimiter: char := ','

  predicate NoDelimiter(cell: string) {
    Delimiter !in cell
  }

  /**
   * The cells the reader yields for one line, in order: none for a blank line; a line
   * with k commas has k + 1 cells.
   */
  function Split(line: string): (cells: seq<string>)
    ensures line != [] ==> |cells| >= 1
    ensures forall i :: 0 <= i < |cells| ==> NoDelimiter(cells[i])
  {
    if line == [] then []
    else
      var rest := if |line| == 1 then [""] else Split(line[1..]);
      if line[0] == Delimiter then [""] + rest
      else [[line[0]] + rest[0]] + rest[1..]
  }

  /** Writes cells back as one line, a comma between neighbours; no cell is the blank line. */
  function Join(cells: seq<string>): string {
    if cells == [] then []
    else if |cells| == 1 then cells[0]
    else cells[0] + [Delimiter] + Join(cells[1..])
  }

  /** Writing a first cell in front of other cells puts a comma between them. */
  lemma JoinCons(cell: string, rest: seq<string>)
    requires rest != []
    ensures Join([cell] + rest) == cell + [Delimiter] + Join(rest)
  {
    assert ([cell] + rest)[1..] == rest;
  }

  /** Reading a line and writing its cells back gives the line unchanged. */
  lemma {:induction false} JoinSplit(line: string)
    ensures Join(Split(line)) == line
  {
    if |line| == 1 {
      if line[0] == Delimiter {
        JoinCons("", [""]);
      } else {
        assert Split(line) == [[line[0]] + ""];
      }
    } else if |line| > 1 {
      var rest := Split(line[1..]);
      JoinSplit(line[1..]);
      assert [line[0]] + line[1..] == line;
      if line[0] == Delimiter {
        assert Split(line) == [""] + rest;
        JoinCons("", rest);
      } else if |rest| == 1 {
        assert Split(line) == [[line[0]] + rest[0]];
      } else {
        var first := [line[0]] + rest[0];
        assert Split(line) == [first] + rest[1..];
        JoinCons(first, rest[1..]);
        assert rest == [rest[0]] + rest[1..];
        JoinCons(rest[0], rest[1..]);
      }
    }
  }

  /** A comma-free cell, a comma, then the rest: the cell, then the cells of the rest. */
  lemma {:induction false} SplitAfterCell(cell: string, tail: string)
    requires NoDelimiter(cell)
    ensures Split(cell + [Delimiter] + tail) == [cell] + (if tail == [] then [""] else Split(tail))
  {
    var line := cell + [Delimiter] + tail;
    if cell == [] {
      assert line == [Delimiter] + tail && line[1..] == tail;
    } else {
      assert cell[0] in cell;
      assert forall c :: c in cell[1..] ==> c in cell;
      assert line[0] == cell[0] && line[1..] == cell[1..] + [Delimiter] + tail;
      SplitAfterCell(cell[1..], tail);
      assert [cell[0]] + cell[1..] == cell;
    }
  }

  /** A non-empty line without commas is a single cell. */
  lemma {:induction false} SplitOfCell(cell: string)
    requires cell != [] && NoDelimiter(cell)
    ensures Split(cell) == [cell]
  {
    assert cell[0] in cell;
    if |cell| == 1 {
      assert Split(cell) == [[cell[0]] + ""] && [cell[0]] + "" == cell;
    } else {
      assert forall c :: c in cell[1..] ==> c in cell;
      SplitOfCell(cell[1..]);
      assert [cell[0]] + cell[1..] == cell;
    }
  }

  /**
   * Writing comma-free cells and reading them back gives the same cells. The single
   * empty cell is written as a blank line, which reads back as no cell.
   */
  lemma {:induction false} SplitJoin(cells: seq<string>)
    requires cells != [""]
    requires forall i :: 0 <= i < |cells| ==> NoDelimiter(cells[i])
    ensures Split(Join(cells)) == cells
  {
    if |cells| == 1 {
      SplitOfCell(cells[0]);
    } else if |cells| > 1 {
      var tail := Join(cells[1..]);
      SplitAfterCell(cells[0], tail);
      if cells[1..] == [""] {
        assert cells == [cells[0]] + [""];
      } else {
        SplitJoin(cells[1..]);
        assert cells == [cells[0]] + cells[1..];
      }
    }
  }

  /** A blank line is read as no cell, any other line with k commas as k + 1 cells. */
  lemma {:induction false} SplitCount(line: string)
    ensures |Split(line)| == if line == [] then 0 else Text.Occurrences(line, Delimiter) + 1
  {
    if |line| > 1 {
      SplitCount(line[1..]);
    }
  }
}

/** TablePrinter<N>: collects rows of N cells, keeps the widest cell of every
    column, and renders all rows left-justified once collection is over. */
module Table {

  /** A string of n blanks. */
  function Spaces(n: nat): (r: string)
    ensures |r| == n && forall k :: 0 <= k < n ==> r[k] == ' '
  {
    if n == 0 then "" else Spaces(n - 1) + " "
  }

  /** What `std::setw(w)` with `std::ios::left` does to one string: blanks
      after it up to width w; a longer string is not cut. */
  function PadRight(s: string, w: nat): (r: string)
    ensures |r| == if |s| < w then w else |s|
    ensures r[..|s|] == s
    ensures forall k :: |s| <= k < |r| ==> r[k] == ' '
  {
    if |s| < w then s + Spaces(w - |s|) else s
  }

  predicate Rectangular(lines: seq<seq<string>>, n: nat)
  {
    forall k :: 0 <= k < |lines| ==> |lines[k]| == n
  }

  /** The widest cell among all rows in column i (0 when there are none). */
  function ColumnMax(lines: seq<seq<string>>, i: nat): nat
    requires forall k :: 0 <= k < |lines| ==> i < |lines[k]|
  {
    if lines == [] then 0
    else
      var m := ColumnMax(lines[..|lines| - 1], i);
      var w := |lines[|lines| - 1][i]|;
      if w > m then w else m
  }

  /** ColumnMax is a maximum: it bounds every cell of the column and, unless
      there are no rows, some cell reaches it. */
  lemma {:induction false} ColumnMaxIsMax(lines: seq<seq<string>>, i: nat)
    requires forall k :: 0 <= k < |lines| ==> i < |lines[k]|
    ensures forall k :: 0 <= k < |lines| ==> |lines[k][i]| <= ColumnMax(lines, i)
    ensures lines == [] ==> ColumnMax(lines, i) == 0
    ensures lines != [] ==> exists k :: 0 <= k < |lines| && |lines[k][i]| == ColumnMax(lines, i)
  {
    if lines != [] {
      var init := lines[..|lines| - 1];
      ColumnMaxIsMax(init, i);
      if init != [] {
        var k0 :| 0 <= k0 < |init| && |init[k0][i]| == ColumnMax(init, i);
        assert lines[k0] == init[k0];
      }
      forall k | 0 <= k < |lines| ensures |lines[k][i]| <= ColumnMax(lines, i) {
        if k < |init| { assert lines[k] == init[k]; }
      }
    }
  }

  /** The column widths of a table: ColumnMax of every column. */
  function Widths(lines: seq<seq<string>>, n: nat): (w: seq<nat>)
    requires Rectangular(lines, n)
    ensures |w| == n
  {
    seq(n, i requires 0 <= i < n => ColumnMax(lines, i))
  }

  function Sum(s: seq<nat>): nat
  {
    if s == [] then 0 else Sum(s[..|s| - 1]) + s[|s| - 1]
  }

  /** The field width of column i: one more than the widest cell, except for
      the last column, which gets exactly the widest cell. */
  function FieldWidth(widths: seq<nat>, i: nat): nat
    requires i < |widths|
  {
    widths[i] + (if i < |widths| - 1 then 1 else 0)
  }

  /** The first j cells of a row, each padded to its field width. */
  function RenderCells(line: seq<string>, widths: seq<nat>, j: nat): string
    requires j <= |widths| <= |line|
  {
    if j == 0 then ""
    else RenderCells(line, widths, j - 1) + PadRight(line[j - 1], FieldWidth(widths, j - 1))
  }

  /** One rendered row: all cells, then a newline. */
  function RenderRow(line: seq<string>, widths: seq<nat>): string
    requires |widths| <= |line|
  {
    RenderCells(line, widths, |widths|) + "\n"
  }

  /** The whole table, rows in insertion order. */
  function Render(lines: seq<seq<string>>, widths: seq<nat>): string
    requires forall k :: 0 <= k < |lines| ==> |widths| <= |lines[k]|
  {
    if lines == [] then ""
    else Render(lines[..|lines| - 1], widths) + RenderRow(lines[|lines| - 1], widths)
  }

  /** Every cell fits its column's width. */
  predicate Fits(line: seq<string>, widths: seq<nat>)
    requires |widths| <= |line|
  {
    forall i :: 0 <= i < |widths| ==> |line[i]| <= widths[i]
  }

  /** Where cell j of a row starts: the field widths of the cells before it. */
  lemma {:induction false} CellsLength(line: seq<string>, widths: seq<nat>, j: nat)
    requires j <= |widths| <= |line| && Fits(line, widths)
    ensures |RenderCells(line, widths, j)| ==
            Sum(widths[..j]) + j - (if j == |widths| && j > 0 then 1 else 0)
  {
    if j > 0 {
      CellsLength(line, widths, j - 1);
      assert widths[..j][..j - 1] == widths[..j - 1];
    }
  }

  /** A row whose cells fit is Sum(widths) + N - 1 characters long, then "\n". */
  lemma RowLength(line: seq<string>, widths: seq<nat>)
    requires 0 < |widths| <= |line| && Fits(line, widths)
    ensures |RenderRow(line, widths)| == Sum(widths) + |widths| - 1 + 1
    ensures RenderRow(line, widths)[|RenderRow(line, widths)| - 1] == '\n'
  {
    CellsLength(line, widths, |widths|);
    assert widths[..|widths|] == widths;
  }

  /** Rendering more cells only extends the text: earlier cells stay put. */
  lemma {:induction false} CellsPrefix(line: seq<string>, widths: seq<nat>, j: nat, m: nat)
    requires j <= m <= |widths| <= |line|
    ensures RenderCells(line, widths, j) <= RenderCells(line, widths, m)
  {
    if j < m {
      CellsPrefix(line, widths, j, m - 1);
    }
  }

  /** Cell j is left-justified: its text starts where the cells before it
      end, and it is followed by blanks up to its field width. */
  lemma CellLeftJustified(line: seq<string>, widths: seq<nat>, j: nat)
    requires j < |widths| <= |line| && Fits(line, widths)
    ensures var row := RenderRow(line, widths);
            var start := Sum(widths[..j]) + j;
            start + FieldWidth(widths, j) <= |row| &&
            row[start..start + |line[j]|] == line[j] &&
            forall k :: start + |line[j]| <= k < start + FieldWidth(widths, j) ==> row[k] == ' '
  {
    var row := RenderRow(line, widths);
    var pad := PadRight(line[j], FieldWidth(widths, j));
    var before := RenderCells(line, widths, j);
    CellsLength(line, widths, j);
    CellsPrefix(line, widths, j + 1, |widths|);
    assert before + pad <= row;
    SliceAfterPrefix(before, pad, row);
    var start := |before|;
    assert row[start..start + |line[j]|] == pad[..|line[j]|];
    forall k | start + |line[j]| <= k < start + |pad| ensures row[k] == ' ' {
      assert row[k] == row[start..start + |pad|][k - start] == pad[k - start];
    }
  }

  /** Rendering more rows only extends the text: earlier rows stay put. */
  lemma {:induction false} RenderPrefix(lines: seq<seq<string>>, widths: seq<nat>, k: nat)
    requires forall r :: 0 <= r < |lines| ==> |widths| <= |lines[r]|
    requires k <= |lines|
    ensures Render(lines[..k], widths) <= Render(lines, widths)
  {
    if k < |lines| {
      var init := lines[..|lines| - 1];
      RenderPrefix(init, widths, k);
      assert init[..k] == lines[..k];
    } else {
      assert lines[..k] == lines;
    }
  }

  /** Row k follows the rows before it in the rendered table. */
  lemma RowFollowsEarlierRows(lines: seq<seq<string>>, widths: seq<nat>, k: nat)
    requires forall r :: 0 <= r < |lines| ==> |widths| <= |lines[r]|
    requires k < |lines|
    ensures Render(lines[..k], widths) + RenderRow(lines[k], widths) <= Render(lines, widths)
  {
    var upto := lines[..k + 1];
    assert upto[..k] == lines[..k];
    RenderPrefix(lines, widths, k + 1);
  }

  lemma SliceAfterPrefix(a: string, b: string, c: string)
    requires a + b <= c
    ensures c[|a|..|a| + |b|] == b
  {
    assert (a + b)[|a|..] == b;
  }

  /** With every row of the same length L, row k of the table is the text
      between k * L and (k + 1) * L: rows come out in insertion order. */
  lemma RowAt(lines: seq<seq<string>>, widths: seq<nat>, len: nat, k: nat)
    requires forall r :: 0 <= r < |lines| ==> |widths| <= |lines[r]|
    requires forall r :: 0 <= r < |lines| ==> |RenderRow(lines[r], widths)| == len
    requires k < |lines|
    ensures |Render(lines, widths)| == |lines| * len
    ensures k * len + len <= |Render(lines, widths)|
    ensures Render(lines, widths)[k * len..k * len + len] == RenderRow(lines[k], widths)
  {
    var pre := lines[..k];
    var before, row, all := Render(pre, widths), RenderRow(lines[k], widths), Render(lines, widths);
    RowFollowsEarlierRows(lines, widths, k);
    RenderLength(pre, widths, k, len);
    RenderLength(lines, widths, |lines|, len);
    SliceAfterPrefix(before, row, all);
  }

  lemma MulSucc(a: nat, c: nat)
    ensures (a + 1) * c == a * c + c
  {
  }

  lemma {:induction false} RenderLength(lines: seq<seq<string>>, widths: seq<nat>, n: nat, len: nat)
    requires n == |lines|
    requires forall r :: 0 <= r < |lines| ==> |widths| <= |lines[r]|
    requires forall r :: 0 <= r < |lines| ==> |RenderRow(lines[r], widths)| == len
    ensures |Render(lines, widths)| == n * len
  {
    if lines != [] {
      var init := lines[..|lines| - 1];
      RenderLength(init, widths, n - 1, len);
      MulSucc(n - 1, len);
    }
  }

  /** The accumulator of apt-show-versions: `max` holds the running maximum
      width of every column, `lines` the rows in insertion order. */
  class TablePrinter {
    const columns: nat
    const max: array<nat>
    var lines: seq<seq<string>>

    /** `max[i]` is always the widest cell seen so far in column i. */
    ghost predicate Valid()
      reads this, max
    {
      max.Length == columns &&
      Rectangular(lines, columns) &&
      forall i :: 0 <= i < columns ==> max[i] == ColumnMax(lines, i)
    }

    constructor (n: nat)
      ensures Valid() && fresh(max)
      ensures columns == n && lines == []
      ensures forall i :: 0 <= i < n ==> max[i] == 0
    {
      var m := new nat[n];
      for i := 0 to n
        invariant forall j :: 0 <= j < i ==> m[j] == 0
      {
        m[i] := 0;
      }
      columns, max, lines := n, m, [];
    }

    /** Raises every column's maximum to the new cell's length and appends the row. */
    method Insert(line: seq<string>)
      requires Valid() && |line| == columns
      modifies this, max
      ensures Valid()
      ensures lines == old(lines) + [line]
      ensures forall i :: 0 <= i < columns ==>
                max[i] == if |line[i]| > old(max[i]) then |line[i]| else old(max[i])
    {
      var grown := lines + [line];
      assert grown[..|grown| - 1] == lines;
      for i := 0 to columns
        invariant forall j :: 0 <= j < i ==> max[j] == ColumnMax(grown, j)
        invariant forall j :: 0 <= j < i ==>
                    max[j] == if |line[j]| > old(max[j]) then |line[j]| else old(max[j])
        invariant forall j :: i <= j < columns ==> max[j] == old(max[j])
      {
        max[i] := if |line[i]| > max[i] then |line[i]| else max[i];
      }
      lines := grown;
    }

    /** Renders every row: cell i padded to max[i] + 1 blanks, except the last
        column, which is padded to max[i]; each row ends in a newline. */
    method Output() returns (s: string)
      requires Valid()
      ensures s == Render(lines, max[..])
    {
      ghost var widths := max[..];
      s := "";
      for k := 0 to |lines|
        invariant s == Render(lines[..k], widths)
      {
        var line := lines[k];
        var row := "";
        for i := 0 to columns
          invariant row == RenderCells(line, widths, i)
        {
          assert max[i] == widths[i];
          row := row + PadRight(line[i], max[i] + if i < columns - 1 then 1 else 0);
        }
        assert lines[..k + 1][..k] == lines[..k];
        s := s + row + "\n";
      }
      assert lines[..|lines|] == lines;
    }
  }

  /** The widths a valid printer renders with are the table's column widths. */
  lemma MaxIsWidths(t: TablePrinter)
    requires t.Valid()
    ensures t.max[..] == Widths(t.lines, t.columns)
  {
  }

  /** Rendered with the table's own column widths, every row has the same
      length: the sum of the column maxima, plus N - 1 separators, plus "\n". */
  lemma AlignedRows(lines: seq<seq<string>>, n: nat, k: nat)
    requires Rectangular(lines, n) && n > 0 && k < |lines|
    ensures |RenderRow(lines[k], Widths(lines, n))| == Sum(Widths(lines, n)) + n - 1 + 1
  {
    var widths := Widths(lines, n);
    forall i | 0 <= i < n ensures |lines[k][i]| <= widths[i] {
      ColumnMaxIsMax(lines, i);
    }
    RowLength(lines[k], widths);
  }

  /** The same for a printer: every row it outputs has that length. */
  lemma ValidRowsHaveCommonLength(t: TablePrinter, k: nat)
    requires t.Valid() && t.columns > 0 && k < |t.lines|
    ensures |RenderRow(t.lines[k], t.max[..])| == Sum(t.max[..]) + t.columns - 1 + 1
  {
    MaxIsWidths(t);
    AlignedRows(t.lines, t.columns, k);
  }

  lemma TwoRowRender()
    ensures Render([["a", "bb"], ["ccc", "d"]], [3, 2]) == "a   bb\nccc d \n"
  {
    var w: seq<nat> := [3, 2];
    var lines := [["a", "bb"], ["ccc", "d"]];
    assert PadRight("a", 4) == "a   ";
    assert PadRight("bb", 2) == "bb";
    assert PadRight("ccc", 4) == "ccc ";
    assert PadRight("d", 2) == "d ";
    assert RenderRow(lines[0], w) == "a   bb\n" by {
      assert RenderCells(lines[0], w, 1) == "a   ";
    }
    assert RenderRow(lines[1], w) == "ccc d \n" by {
      assert RenderCells(lines[1], w, 1) == "ccc ";
    }
    assert lines[..1][..0] == [];
    assert Render(lines[..1], w) == "a   bb\n";
    assert lines[..|lines| - 1] == lines[..1];
  }

  /** The two-row example: widths 3 and 2, and the last column is padded too. */
  method TwoRowExample() returns (s: string)
    ensures s == "a   bb\nccc d \n"
  {
    var t := new TablePrinter(2);
    t.Insert(["a", "bb"]);
    t.Insert(["ccc", "d"]);
    s := t.Output();
    assert t.max[..] == [3, 2];
    TwoRowRender();
  }
}

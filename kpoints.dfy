/** The k-point grid block of the fdf input (`BaseSiesta._write_kpts`,
    ase/calculators/siesta/base_siesta.py lines 459-487). */
module Kpoints {
  import opened Wrappers
  import opened Text

  /** Entry (i, j) of the Monkhorst-Pack matrix: the number of k-points
      along axis i on the diagonal (1 for an axis `kpts` does not give),
      0 elsewhere. */
  function GridEntry(kpts: seq<int>, i: nat, j: nat): int
  {
    if i != j then 0 else if i < |kpts| then kpts[i] else 1
  }

  /** The 3 x 3 matrix the block describes: diagonal, carrying the first
      three entries of `kpts` and 1 for each axis it does not give; later
      entries are ignored. */
  function Grid(kpts: seq<int>): (g: seq<seq<int>>)
    ensures |g| == 3 && forall i :: 0 <= i < 3 ==> |g[i]| == 3
    ensures forall i, j :: 0 <= i < 3 && 0 <= j < 3 && i != j ==> g[i][j] == 0
    ensures forall i :: 0 <= i < 3 && i < |kpts| ==> g[i][i] == kpts[i]
    ensures forall i :: |kpts| <= i < 3 ==> g[i][i] == 1
  {
    seq(3, i requires 0 <= i < 3 => seq(3, j requires 0 <= j < 3 => GridEntry(kpts, i, j)))
  }

  /** One matrix entry as written: `'     %d  '`. */
  function Cell(n: int): string
  {
    "     " + FormatInt(n) + "  "
  }

  /** The first `j` cells of row `i`. */
  function Cells(kpts: seq<int>, i: nat, j: nat): string
  {
    if j == 0 then "" else Cells(kpts, i, j - 1) + Cell(GridEntry(kpts, i, j - 1))
  }

  /** Row `i` without its newline: three cells and the displacement, which
      `'%1.1f'` writes as `0.0` whether it is the integer or the float zero. */
  function Row(kpts: seq<int>, i: nat): string
  {
    Cells(kpts, i, 3) + "0.0"
  }

  /** The lines `_write_kpts` writes, each followed by a newline. */
  function KptsLines(kpts: seq<int>): seq<string>
  {
    ["", "#KPoint grid", "%block kgrid_Monkhorst_Pack", Row(kpts, 0), Row(kpts, 1), Row(kpts, 2),
     "%endblock kgrid_Monkhorst_Pack", ""]
  }

  /** The text `_write_kpts` writes. */
  function KptsBlock(kpts: seq<int>): string
  {
    Unlines(KptsLines(kpts))
  }

  /** Writing line `k` of the block after the first `k`. */
  lemma WriteLine(kpts: seq<int>, k: nat, written: string)
    requires k < 8 && written == KptsLines(kpts)[k] + "\n"
    ensures Unlines(KptsLines(kpts)[..k + 1]) == Unlines(KptsLines(kpts)[..k]) + written
  {
    var ls := KptsLines(kpts);
    assert ls[..k + 1] == ls[..k] + [ls[k]];
    UnlinesSnoc(ls[..k], ls[k], written);
  }

  /** One pass of the outer loop of `_write_kpts`: the string `s` of row
      `i`, built cell by cell. */
  method WriteRow(kpts: seq<int>, i: nat) returns (s: string)
    ensures s == Row(kpts, i) + "\n"
  {
    var number := if i < |kpts| then kpts[i] else 1;
    s := "";
    for j := 0 to 3
      invariant s == Cells(kpts, i, j)
    {
      var writeThis := if j == i then number else 0;
      assert writeThis == GridEntry(kpts, i, j);
      s := s + Cell(writeThis);
    }
    assert s + "0.0\n" == Row(kpts, i) + "\n";
    s := s + "0.0\n";
  }

  /** `_write_kpts`: the header lines, the two nested loops over rows and
      columns, the footer lines. */
  method WriteKpts(kpts: seq<int>) returns (text: string)
    ensures text == KptsBlock(kpts)
  {
    text := "";
    WriteLine(kpts, 0, "\n");
    text := text + "\n";
    WriteLine(kpts, 1, "#KPoint grid\n");
    text := text + "#KPoint grid\n";
    WriteLine(kpts, 2, "%block kgrid_Monkhorst_Pack\n");
    text := text + "%block kgrid_Monkhorst_Pack\n";
    for i := 0 to 3
      invariant text == Unlines(KptsLines(kpts)[..3 + i])
    {
      var s := WriteRow(kpts, i);
      WriteLine(kpts, 3 + i, s);
      text := text + s;
    }
    WriteLine(kpts, 6, "%endblock kgrid_Monkhorst_Pack\n");
    text := text + "%endblock kgrid_Monkhorst_Pack\n";
    WriteLine(kpts, 7, "\n");
    text := text + "\n";
    assert KptsLines(kpts)[..8] == KptsLines(kpts);
  }

  // ---------------------------------------------------------------------
  // Reading the block back
  // ---------------------------------------------------------------------

  /** The matrix row on one text line: three integers followed by `0.0`. */
  function ParseRow(line: string): Option<seq<int>>
  {
    var ws := Words(line);
    if |ws| != 4 || ws[3] != "0.0" then None
    else
      var a := ParseInt(ws[0]);
      var b := ParseInt(ws[1]);
      var c := ParseInt(ws[2]);
      if a.None? || b.None? || c.None? then None else Some([a.value, b.value, c.value])
  }

  /** A reader of the block: the header lines, three matrix rows and the
      footer line. */
  function ReadGrid(text: string): (r: Option<seq<seq<int>>>)
    ensures r.Some? ==> |r.value| == 3
  {
    var lines := Split(text, '\n');
    if |lines| < 7 || lines[1] != "#KPoint grid" || lines[2] != "%block kgrid_Monkhorst_Pack"
       || lines[6] != "%endblock kgrid_Monkhorst_Pack" then None
    else
      var r0 := ParseRow(lines[3]);
      var r1 := ParseRow(lines[4]);
      var r2 := ParseRow(lines[5]);
      if r0.None? || r1.None? || r2.None? then None else Some([r0.value, r1.value, r2.value])
  }

  lemma NoNewlineInWord(w: string)
    requires IsWord(w)
    ensures '\n' !in w
  {
    forall k | 0 <= k < |w|
      ensures w[k] != '\n'
    {
      assert !IsSpace(w[k]);
    }
  }

  lemma CellWords(n: int, rest: string)
    ensures Words(Cell(n) + rest) == [FormatInt(n)] + Words(rest)
  {
    var f := FormatInt(n);
    assert Cell(n) + rest == "     " + (f + ("  " + rest));
    WordsSkipSpace("     ", f + ("  " + rest));
    WordsCons(f, "  " + rest);
    WordsSkipSpace("  ", rest);
  }

  /** Concatenation regrouped to the right: a separate lemma, so that the
      step is proved without the row's definitions in scope. */
  lemma Reassociate(a: string, b: string, c: string, d: string)
    ensures a + b + c + d == a + (b + (c + d))
  {
  }

  /** A row is its three cells and the displacement. */
  lemma RowCells(kpts: seq<int>, i: nat)
    ensures Row(kpts, i)
         == Cell(GridEntry(kpts, i, 0)) + (Cell(GridEntry(kpts, i, 1)) + (Cell(GridEntry(kpts, i, 2)) + "0.0"))
  {
    var c0, c1, c2 := Cell(GridEntry(kpts, i, 0)), Cell(GridEntry(kpts, i, 1)), Cell(GridEntry(kpts, i, 2));
    assert Cells(kpts, i, 0) == "";
    assert Cells(kpts, i, 1) == c0;
    assert Cells(kpts, i, 2) == c0 + c1;
    assert Cells(kpts, i, 3) == c0 + c1 + c2;
    Reassociate(c0, c1, c2, "0.0");
  }

  lemma DisplacementWords()
    ensures Words("0.0") == ["0.0"]
  {
    assert IsWord("0.0");
    WordsSingle("0.0");
  }

  lemma {:induction false} RowWords(kpts: seq<int>, i: nat)
    ensures Words(Row(kpts, i))
         == [FormatInt(GridEntry(kpts, i, 0)), FormatInt(GridEntry(kpts, i, 1)), FormatInt(GridEntry(kpts, i, 2)), "0.0"]
  {
    var e0, e1, e2 := GridEntry(kpts, i, 0), GridEntry(kpts, i, 1), GridEntry(kpts, i, 2);
    var t2 := Cell(e2) + "0.0";
    var t1 := Cell(e1) + t2;
    RowCells(kpts, i);
    DisplacementWords();
    CellWords(e2, "0.0");
    CellWords(e1, t2);
    CellWords(e0, t1);
  }

  /** Each written row reads back as row `i` of the matrix. */
  lemma RowRoundTrip(kpts: seq<int>, i: nat)
    requires i < 3
    ensures ParseRow(Row(kpts, i)) == Some(Grid(kpts)[i])
  {
    RowWords(kpts, i);
    assert Grid(kpts)[i] == [GridEntry(kpts, i, 0), GridEntry(kpts, i, 1), GridEntry(kpts, i, 2)];
    ParseFormatInt(GridEntry(kpts, i, 0));
    ParseFormatInt(GridEntry(kpts, i, 1));
    ParseFormatInt(GridEntry(kpts, i, 2));
  }

  lemma {:induction false} NoNewlineInCells(kpts: seq<int>, i: nat, j: nat)
    ensures '\n' !in Cells(kpts, i, j)
  {
    if j > 0 {
      NoNewlineInCells(kpts, i, j - 1);
      var f := FormatInt(GridEntry(kpts, i, j - 1));
      forall k | 0 <= k < |f|
        ensures f[k] != '\n'
      {
        assert !IsSpace(f[k]);
      }
    }
  }

  /** The fixed lines of the block hold no newline (kept apart from the
      lemma below, which is costly with them inline). */
  lemma NoNewlineInLiterals()
    ensures '\n' !in "#KPoint grid" && '\n' !in "%block kgrid_Monkhorst_Pack"
    ensures '\n' !in "%endblock kgrid_Monkhorst_Pack" && '\n' !in "0.0"
  {
  }

  lemma NoNewlineInLines(kpts: seq<int>)
    ensures forall k :: 0 <= k < |KptsLines(kpts)| ==> '\n' !in KptsLines(kpts)[k]
  {
    var ls := KptsLines(kpts);
    NoNewlineInLiterals();
    NoNewlineInCells(kpts, 0, 3);
    NoNewlineInCells(kpts, 1, 3);
    NoNewlineInCells(kpts, 2, 3);
    assert '\n' !in ls[0] && '\n' !in ls[1] && '\n' !in ls[2];
    assert '\n' !in ls[3] && '\n' !in ls[4] && '\n' !in ls[5];
    assert '\n' !in ls[6] && '\n' !in ls[7];
  }

  /** Round trip: reading back what `_write_kpts` writes gives the diagonal
      Monkhorst-Pack matrix of `kpts`. */
  lemma {:induction false} ReadWrittenGrid(kpts: seq<int>)
    ensures ReadGrid(KptsBlock(kpts)) == Some(Grid(kpts))
  {
    NoNewlineInLines(kpts);
    SplitUnlines(KptsLines(kpts));
    RowRoundTrip(kpts, 0);
    RowRoundTrip(kpts, 1);
    RowRoundTrip(kpts, 2);
    assert [Grid(kpts)[0], Grid(kpts)[1], Grid(kpts)[2]] == Grid(kpts);
  }
}

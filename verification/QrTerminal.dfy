/** The half-block QR renderer of `ch3/apps/server/src/startupAccess.ts` and a reader that inverts it. */
module QrTerminal {
  import opened Text

  /** A square of modules, row by row; `true` is dark. */
  type Matrix = seq<seq<bool>>

  predicate Square(m: Matrix) {
    forall y :: 0 <= y < |m| ==> |m[y]| == |m|
  }

  /** Everything outside the square is light. */
  predicate IsDark(m: Matrix, x: int, y: int)
    requires Square(m)
  {
    0 <= x < |m| && 0 <= y < |m| && m[y][x]
  }

  /** The same question with coordinates counted from the top left corner of the canvas. */
  predicate DarkOnCanvas(m: Matrix, margin: nat, column: int, line: int)
    requires Square(m)
  {
    IsDark(m, column - margin, line - margin)
  }

  const FULL := '\U{2588}'
  const UPPER := '\U{2580}'
  const LOWER := '\U{2584}'
  const BLANK := ' '

  function Glyph(top: bool, bottom: bool): char {
    if top then if bottom then FULL else UPPER else if bottom then LOWER else BLANK
  }

  function Width(m: Matrix, margin: nat): nat {
    |m| + 2 * margin
  }

  /** Two pixel rows share one text row, so an odd height is rounded up. */
  function Height(m: Matrix, margin: nat): nat {
    (Width(m, margin) + 1) / 2
  }

  // ----- The rows -----

  function Cell(m: Matrix, x: int, y: int): char
    requires Square(m)
  {
    Glyph(IsDark(m, x, y), IsDark(m, x, y + 1))
  }

  /** The first `n` characters of the text row whose upper pixels have ordinate `y`. */
  function RowOf(m: Matrix, margin: nat, y: int, n: nat): (row: string)
    requires Square(m)
    ensures |row| == n && forall i :: 0 <= i < n ==> row[i] == Cell(m, i - margin, y)
  {
    seq(n, i => Cell(m, i - margin, y))
  }

  function RowsOf(m: Matrix, margin: nat, n: nat): (rows: seq<string>)
    requires Square(m)
    ensures |rows| == n
  {
    seq(n, j => RowOf(m, margin, 2 * j - margin, Width(m, margin)))
  }

  function Rendered(m: Matrix, margin: nat): string
    requires Square(m)
  {
    Join(RowsOf(m, margin, Height(m, margin)), "\n")
  }

  /** The nested loops over `y`, two at a time, and `x`. */
  method RenderTerminalQrCode(m: Matrix, margin: nat) returns (text: string)
    requires Square(m)
    ensures text == Rendered(m, margin)
  {
    var rows: seq<string> := [];
    var y: int := 0 - margin;
    while y < |m| + margin
      invariant y == 2 * |rows| - margin
      invariant |rows| <= Height(m, margin)
      invariant rows == RowsOf(m, margin, |rows|)
      decreases |m| + margin - y
    {
      var row := "";
      var x: int := 0 - margin;
      while x < |m| + margin
        invariant x == |row| - margin && |row| <= Width(m, margin)
        invariant row == RowOf(m, margin, y, |row|)
      {
        var topDark := IsDark(m, x, y);
        var bottomDark := IsDark(m, x, y + 1);
        row := row + [if topDark then if bottomDark then FULL else UPPER else if bottomDark then LOWER else BLANK];
        assert row[|row| - 1] == Cell(m, x, y);
        x := x + 1;
      }
      rows := rows + [row];
      y := y + 2;
    }
    text := Join(rows, "\n");
  }

  // ----- Reading the text back -----

  predicate UpperDark(glyph: char) {
    glyph == FULL || glyph == UPPER
  }

  predicate LowerDark(glyph: char) {
    glyph == FULL || glyph == LOWER
  }

  /** The pixel at canvas column `column` and canvas row `line`, counted from the top left corner. */
  predicate Pixel(text: string, column: nat, line: nat) {
    var rows := Split(text, '\n');
    line / 2 < |rows| && column < |rows[line / 2]| &&
    if line % 2 == 0 then UpperDark(rows[line / 2][column]) else LowerDark(rows[line / 2][column])
  }

  function RecoveredRow(text: string, margin: nat, y: nat, size: nat): (row: seq<bool>)
    ensures |row| == size && forall x :: 0 <= x < size ==> row[x] == Pixel(text, x + margin, y + margin)
  {
    seq(size, x requires 0 <= x < size => Pixel(text, x + margin, y + margin))
  }

  /** The square inside the margin. */
  function Recovered(text: string, margin: nat): Matrix {
    var size := |Split(text, '\n')[0]| - 2 * margin;
    if size < 0 then [] else seq(size, y requires 0 <= y < size => RecoveredRow(text, margin, y, size))
  }

  lemma {:induction false} RowsSplit(m: Matrix, margin: nat)
    requires Square(m) && Height(m, margin) > 0
    ensures Split(Rendered(m, margin), '\n') == RowsOf(m, margin, Height(m, margin))
  {
    var rows := RowsOf(m, margin, Height(m, margin));
    forall j, i | 0 <= j < |rows| && 0 <= i < |rows[j]|
      ensures rows[j][i] != '\n'
    {
      assert rows[j][i] == Cell(m, i - margin, 2 * j - margin);
    }
    SplitJoin(rows, '\n');
  }

  /** Every pixel of the canvas, margin included, reads back as drawn; so the margin is light. */
  lemma {:induction false} PixelReadsBack(m: Matrix, margin: nat, column: nat, line: nat)
    requires Square(m) && column < Width(m, margin) && line < 2 * Height(m, margin)
    ensures Pixel(Rendered(m, margin), column, line) <==> DarkOnCanvas(m, margin, column, line)
  {
    RowsSplit(m, margin);
    var glyph := RowsOf(m, margin, Height(m, margin))[line / 2][column];
    assert glyph == Cell(m, column - margin, 2 * (line / 2) - margin);
  }

  lemma {:induction false} InsideTheMargin(m: Matrix, margin: nat, x: nat, y: nat)
    requires Square(m) && x < |m| && y < |m|
    ensures DarkOnCanvas(m, margin, x + margin, y + margin) == m[y][x]
  {
  }

  lemma {:induction false} NothingRendered(m: Matrix, margin: nat)
    requires Square(m) && Height(m, margin) == 0
    ensures Split(Rendered(m, margin), '\n')[0] == []
  {
    assert RowsOf(m, margin, 0) == [];
  }

  /** Reading a rendered matrix of any size, with any margin, gives the matrix back. */
  lemma {:induction false} Recovers(m: Matrix, margin: nat)
    requires Square(m)
    ensures Recovered(Rendered(m, margin), margin) == m
  {
    hide Pixel, Rendered, IsDark;
    var text := Rendered(m, margin);
    if Height(m, margin) > 0 {
      RowsSplit(m, margin);
      forall x, y | 0 <= x < |m| && 0 <= y < |m|
        ensures Pixel(text, x + margin, y + margin) == m[y][x]
      {
        PixelReadsBack(m, margin, x + margin, y + margin);
        InsideTheMargin(m, margin, x, y);
      }
      assert |Recovered(text, margin)| == |m|;
      assert forall y :: 0 <= y < |m| ==> Recovered(text, margin)[y] == m[y];
    } else {
      NothingRendered(m, margin);
    }
  }

  /** A text of equally wide rows is drawn; the margin is part of what is drawn. */
  lemma {:induction false} Shape(m: Matrix, margin: nat)
    requires Square(m) && Height(m, margin) > 0
    ensures var rows := Split(Rendered(m, margin), '\n');
            |rows| == Height(m, margin) && forall j :: 0 <= j < |rows| ==> |rows[j]| == Width(m, margin)
  {
    RowsSplit(m, margin);
  }

  /** Different matrices never look the same under one margin, even when their sizes differ. */
  lemma {:induction false} RenderInjective(a: Matrix, b: Matrix, margin: nat)
    requires Square(a) && Square(b)
    requires Rendered(a, margin) == Rendered(b, margin)
    ensures a == b
  {
    Recovers(a, margin);
    Recovers(b, margin);
  }

  /** Two pictures of the same width agree exactly when every dark module keeps its place on the canvas. */
  lemma {:induction false} SamePicture(a: Matrix, b: Matrix, marginA: nat, marginB: nat)
    requires Square(a) && Square(b) && Width(a, marginA) == Width(b, marginB)
    ensures Rendered(a, marginA) == Rendered(b, marginB) <==>
            forall column, line :: DarkOnCanvas(a, marginA, column, line) <==> DarkOnCanvas(b, marginB, column, line)
  {
    var w, h := Width(a, marginA), Height(a, marginA);
    if Rendered(a, marginA) == Rendered(b, marginB) {
      forall column: int, line: int
        ensures DarkOnCanvas(a, marginA, column, line) <==> DarkOnCanvas(b, marginB, column, line)
      {
        if 0 <= column < w && 0 <= line < 2 * h {
          PixelReadsBack(a, marginA, column, line);
          PixelReadsBack(b, marginB, column, line);
        }
      }
    }
    if forall column, line :: DarkOnCanvas(a, marginA, column, line) <==> DarkOnCanvas(b, marginB, column, line) {
      forall j, i | 0 <= j < h && 0 <= i < w
        ensures RowsOf(a, marginA, h)[j][i] == RowsOf(b, marginB, h)[j][i]
      {
        assert DarkOnCanvas(a, marginA, i, 2 * j) <==> DarkOnCanvas(b, marginB, i, 2 * j);
        assert DarkOnCanvas(a, marginA, i, 2 * j + 1) <==> DarkOnCanvas(b, marginB, i, 2 * j + 1);
        assert RowsOf(a, marginA, h)[j][i] == Cell(a, i - marginA, 2 * j - marginA);
        assert RowsOf(b, marginB, h)[j][i] == Cell(b, i - marginB, 2 * j - marginB);
      }
      assert forall j :: 0 <= j < h ==> RowsOf(a, marginA, h)[j] == RowsOf(b, marginB, h)[j];
      assert RowsOf(a, marginA, h) == RowsOf(b, marginB, h);
    }
  }
}

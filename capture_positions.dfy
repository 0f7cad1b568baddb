/**
 * The montage planner of autoMontage.py: computeCapturePositions turns the span of a
 * montage and the effective (overlap-reduced) tile step into a serpentine list of
 * stage positions.  The effective steps `int(tile * (1 - overlap))` are taken as given
 * integers; all coordinates are integers in one linear unit.
 */
module CapturePositions {

  /** One stage position `[x, y]`. */
  datatype Position = Position(x: int, y: int)

  /** The only failure of the planner: Python's `%` by a zero effective step. */
  datatype Error = ZeroDivisionError

  datatype Result<T> = Ok(value: T) | Err(error: Error)

  function Max0(n: int): (m: nat)
    ensures m == n || (n < 0 && m == 0)
  {
    if n > 0 then n else 0
  }

  /** Python's `a // b`: the quotient rounded towards minus infinity. */
  function FloorDiv(a: int, b: int): int
    requires b != 0
  {
    if b > 0 then a / b else (-a) / (-b)
  }

  /**
   * Python's `a % b`: the remainder takes the sign of the divisor, so that
   * `a == (a // b) * b + a % b`; Dafny's own `%` is Euclidean and differs from it when
   * `b` is negative.
   */
  function FloorMod(a: int, b: int): (m: int)
    requires b != 0
    ensures b > 0 ==> 0 <= m < b
    ensures b < 0 ==> b < m <= 0
    ensures a == FloorDiv(a, b) * b + m
  {
    if b > 0 then a % b
    else
      var q := (-a) / (-b);
      assert -a == q * (-b) + (-a) % (-b);
      assert q * (-b) == -(q * b);
      -((-a) % (-b))
  }

  lemma ProductSign(x: int, b: int)
    requires b > 0
    ensures x >= 1 ==> x * b >= b
    ensures x <= -1 ==> x * b <= -b
  {
    if x >= 1 {
      assert x * b == (x - 1) * b + b;
    } else if x <= -1 {
      assert x * b == (x + 1) * b - b;
    }
  }

  /** An exact multiple divides back to its factor (Dafny's `/` is Euclidean). */
  lemma MulDivCancel(q: int, b: int)
    requires b != 0
    ensures (q * b) / b == q
  {
    var d, r := (q * b) / b, (q * b) % b;
    var size := if b > 0 then b else -b;
    var x := if b > 0 then q - d else d - q;
    assert q * b == d * b + r;
    assert 0 <= r < size;
    assert r == (q - d) * b;
    assert r == x * size;
    ProductSign(x, size);
  }

  /**
   * `total -= total % step`: the span cut down to a whole number of steps.  For a
   * positive step it is the largest multiple of the step that does not exceed the
   * span, so it lies less than one step below it.
   */
  function Truncated(total: int, step: int): (t: int)
    requires step != 0
    ensures t == FloorDiv(total, step) * step
    ensures step > 0 ==> t <= total < t + step
    ensures step < 0 ==> t + step < total <= t
  {
    total - FloorMod(total, step)
  }

  /**
   * `int(total / step)` after truncation: the number of tiles along one axis.  The
   * division is exact, so the count is the floored quotient of span by step, and for a
   * positive step the truncated span is exactly `count` steps.
   */
  function TileCount(total: int, step: int): (n: int)
    requires step != 0
    ensures n == FloorDiv(total, step)
    ensures n * step == Truncated(total, step)
    ensures step > 0 ==> n == total / step
    ensures step > 0 && total >= 0 ==> n >= 0
  {
    MulDivCancel(FloorDiv(total, step), step);
    Truncated(total, step) / step
  }

  /** The column visited at the `i`-th place of a row: ascending in even rows, descending in odd ones. */
  function SerpentineColumn(row: nat, i: nat, cols: nat): nat
    requires i < cols
  {
    if row % 2 == 0 then i else cols - 1 - i
  }

  /** The positions of one row, in the order the row visits them. */
  function RowPositions(x0: int, y0: int, row: nat, cols: nat, stepH: int, stepW: int): (ps: seq<Position>)
    ensures |ps| == cols
  {
    seq(cols, i requires 0 <= i < cols =>
      Position(x0 + SerpentineColumn(row, i, cols) * stepW, y0 + row * stepH))
  }

  /** The specification of the scan path: rows `0 .. rows-1`, each in serpentine order. */
  function Serpentine(x0: int, y0: int, rows: nat, cols: nat, stepH: int, stepW: int): (ps: seq<Position>)
    ensures |ps| == rows * cols
  {
    if rows == 0 then []
    else
      var prefix := Serpentine(x0, y0, rows - 1, cols, stepH, stepW);
      assert |prefix| + cols == rows * cols;
      prefix + RowPositions(x0, y0, rows - 1, cols, stepH, stepW)
  }

  /**
   * computeCapturePositions.  The truncated spans and tile counts are computed as in
   * the source; the nested loops append the even rows left to right and the odd rows
   * right to left.  A zero effective step is the source's ZeroDivisionError.
   */
  method ComputeCapturePositions(start: Position, totalHeight: int, totalWidth: int,
                                 stepH: int, stepW: int)
    returns (r: Result<seq<Position>>)
    ensures r.Err? <==> stepH == 0 || stepW == 0
    ensures r.Ok? ==> r.value == Serpentine(start.x, start.y,
                                            Max0(TileCount(totalHeight, stepH)),
                                            Max0(TileCount(totalWidth, stepW)),
                                            stepH, stepW)
    ensures r.Ok? ==> |r.value| == Max0(TileCount(totalHeight, stepH)) * Max0(TileCount(totalWidth, stepW))
  {
    if stepH == 0 || stepW == 0 {
      return Err(ZeroDivisionError);
    }
    var xStart, yStart := start.x, start.y;
    var height := totalHeight - FloorMod(totalHeight, stepH);
    var width := totalWidth - FloorMod(totalWidth, stepW);
    var numRows := height / stepH;
    var numCols := width / stepW;
    ghost var cols := Max0(numCols);

    var positions: seq<Position> := [];
    var row := 0;
    while row < numRows
      invariant 0 <= row <= Max0(numRows)
      invariant positions == Serpentine(xStart, yStart, row, cols, stepH, stepW)
    {
      ghost var done := positions;
      ghost var line := RowPositions(xStart, yStart, row, cols, stepH, stepW);
      if row % 2 == 0 {
        var col := 0;
        while col < numCols
          invariant 0 <= col <= cols
          invariant positions == done + line[..col]
        {
          positions := positions + [Position(xStart + col * stepW, yStart + row * stepH)];
          assert line[..col + 1] == line[..col] + [line[col]];
          col := col + 1;
        }
      } else {
        var col := numCols - 1;
        while col >= 0
          invariant col < cols && (numCols >= 0 ==> -1 <= col)
          invariant positions == done + if col >= -1 then line[..cols - 1 - col] else []
        {
          positions := positions + [Position(xStart + col * stepW, yStart + row * stepH)];
          assert line[..cols - col] == line[..cols - 1 - col] + [line[cols - 1 - col]];
          col := col - 1;
        }
      }
      assert positions == done + line;
      row := row + 1;
    }
    return Ok(positions);
  }

  lemma MulCancelLess(a: int, b: int, k: nat)
    ensures a * k < b * k ==> a < b
  {
    if a >= b {
      assert a * k - b * k == (a - b) * k;
    }
  }

  lemma CellBeforeRow(r: nat, c: nat, rows: nat, cols: nat)
    requires r < rows && c < cols
    ensures r * cols + c < rows * cols
  {
    assert (r + 1) * cols <= rows * cols;
  }

  /**
   * Every cell of the grid: the tile in row `r` at the `c`-th place of that row lies at
   * `y0 + r * stepH`; its column is `c` in an even row and `cols - 1 - c` in an odd row.
   */
  lemma {:induction false} SerpentineCell(x0: int, y0: int, rows: nat, cols: nat, stepH: int, stepW: int,
                                          r: nat, c: nat)
    requires r < rows && c < cols
    ensures r * cols + c < |Serpentine(x0, y0, rows, cols, stepH, stepW)|
    ensures Serpentine(x0, y0, rows, cols, stepH, stepW)[r * cols + c]
         == Position(x0 + (if r % 2 == 0 then c else cols - 1 - c) * stepW, y0 + r * stepH)
  {
    CellBeforeRow(r, c, rows, cols);
    var prefix := Serpentine(x0, y0, rows - 1, cols, stepH, stepW);
    if r < rows - 1 {
      SerpentineCell(x0, y0, rows - 1, cols, stepH, stepW, r, c);
    } else {
      assert |prefix| == r * cols;
    }
  }

  /** Within row `r`, the y coordinate is fixed and the x coordinates run in serpentine order. */
  lemma RowOrder(x0: int, y0: int, rows: nat, cols: nat, stepH: int, stepW: int, r: nat)
    requires r < rows
    ensures var ps := Serpentine(x0, y0, rows, cols, stepH, stepW);
      (r + 1) * cols <= |ps| &&
      ps[r * cols .. (r + 1) * cols] == RowPositions(x0, y0, r, cols, stepH, stepW)
  {
    var ps := Serpentine(x0, y0, rows, cols, stepH, stepW);
    assert (r + 1) * cols <= rows * cols;
    var line := RowPositions(x0, y0, r, cols, stepH, stepW);
    forall c | 0 <= c < cols
      ensures ps[r * cols .. (r + 1) * cols][c] == line[c]
    {
      SerpentineCell(x0, y0, rows, cols, stepH, stepW, r, c);
    }
  }

  /** An odd row visits the x coordinates of the even row before it, in reverse. */
  lemma OddRowReversesEvenRow(x0: int, y0: int, rows: nat, cols: nat, stepH: int, stepW: int,
                              r: nat, c: nat)
    requires r < rows && r % 2 == 1 && c < cols
    ensures var ps := Serpentine(x0, y0, rows, cols, stepH, stepW);
      r * cols + c < |ps| &&
      ps[r * cols + c].x == ps[(r - 1) * cols + (cols - 1 - c)].x &&
      ps[r * cols + c].y == ps[(r - 1) * cols + (cols - 1 - c)].y + stepH
  {
    SerpentineCell(x0, y0, rows, cols, stepH, stepW, r, c);
    SerpentineCell(x0, y0, rows, cols, stepH, stepW, r - 1, cols - 1 - c);
  }

  /**
   * Consecutive positions are one step apart on one axis.  The position after the
   * `c`-th place of row `r` is either the next place of the same row, at the same y and
   * `+stepW` (even row) or `-stepW` (odd row) in x, or, after the last place of a row,
   * the first place of the next row, at the same x and `+stepH` in y.
   */
  lemma ConsecutiveStep(x0: int, y0: int, rows: nat, cols: nat, stepH: int, stepW: int,
                        r: nat, c: nat)
    requires r < rows && c < cols && r * cols + c + 1 < rows * cols
    ensures var ps, i := Serpentine(x0, y0, rows, cols, stepH, stepW), r * cols + c;
      if c + 1 < cols then
        ps[i + 1].y == ps[i].y &&
        ps[i + 1].x == ps[i].x + (if r % 2 == 0 then stepW else -stepW)
      else
        ps[i + 1].x == ps[i].x && ps[i + 1].y == ps[i].y + stepH
  {
    if c + 1 < cols {
      StepWithinRow(x0, y0, rows, cols, stepH, stepW, r, c);
    } else {
      StepAcrossRows(x0, y0, rows, cols, stepH, stepW, r);
    }
  }

  /** Proof hint: one more step, distributed (keeps the nonlinear reasoning small). */
  lemma MulStep(m: int, s: int)
    ensures (m + 1) * s == m * s + s
  {
  }

  lemma StepWithinRow(x0: int, y0: int, rows: nat, cols: nat, stepH: int, stepW: int, r: nat, c: nat)
    requires r < rows && c + 1 < cols
    ensures var ps, i := Serpentine(x0, y0, rows, cols, stepH, stepW), r * cols + c;
      i + 1 < |ps| && ps[i + 1].y == ps[i].y &&
      ps[i + 1].x == ps[i].x + (if r % 2 == 0 then stepW else -stepW)
  {
    SerpentineCell(x0, y0, rows, cols, stepH, stepW, r, c);
    SerpentineCell(x0, y0, rows, cols, stepH, stepW, r, c + 1);
    if r % 2 == 0 {
      MulStep(c, stepW);
    } else {
      MulStep(cols - 1 - (c + 1), stepW);
    }
  }

  lemma StepAcrossRows(x0: int, y0: int, rows: nat, cols: nat, stepH: int, stepW: int, r: nat)
    requires r < rows && cols > 0 && r * cols + cols < rows * cols
    ensures var ps, i := Serpentine(x0, y0, rows, cols, stepH, stepW), r * cols + (cols - 1);
      i + 1 < |ps| && ps[i + 1].x == ps[i].x && ps[i + 1].y == ps[i].y + stepH
  {
    assert r + 1 < rows by {
      MulCancelLess(r + 1, rows, cols);
    }
    SerpentineCell(x0, y0, rows, cols, stepH, stepW, r, cols - 1);
    SerpentineCell(x0, y0, rows, cols, stepH, stepW, r + 1, 0);
    MulStep(r, stepH);
  }

  /** A non-empty scan starts at the start coordinates. */
  lemma FirstPosition(x0: int, y0: int, rows: nat, cols: nat, stepH: int, stepW: int)
    requires rows > 0 && cols > 0
    ensures var ps := Serpentine(x0, y0, rows, cols, stepH, stepW);
      |ps| > 0 && ps[0] == Position(x0, y0)
  {
    SerpentineCell(x0, y0, rows, cols, stepH, stepW, 0, 0);
  }

  /**
   * For positive steps and non-negative spans: the grid is `(totalHeight / stepH)` by
   * `(totalWidth / stepW)`, it never covers more than the requested span and leaves less
   * than one step uncovered on each axis, and its first position is the start.
   */
  lemma PlannedGrid(start: Position, totalHeight: int, totalWidth: int, stepH: int, stepW: int)
    requires stepH > 0 && stepW > 0 && totalHeight >= 0 && totalWidth >= 0
    ensures var rows, cols := TileCount(totalHeight, stepH), TileCount(totalWidth, stepW);
      var ps := Serpentine(start.x, start.y, Max0(rows), Max0(cols), stepH, stepW);
      rows == totalHeight / stepH && cols == totalWidth / stepW &&
      |ps| == rows * cols &&
      rows * stepH <= totalHeight < rows * stepH + stepH &&
      cols * stepW <= totalWidth < cols * stepW + stepW &&
      (|ps| > 0 ==> ps[0] == start)
  {
    var rows, cols := TileCount(totalHeight, stepH), TileCount(totalWidth, stepW);
    if rows > 0 && cols > 0 {
      FirstPosition(start.x, start.y, rows, cols, stepH, stepW);
    }
  }

  /** A worked example: 6400 by 9000 with a step of 800 gives 8 rows of 11 tiles. */
  lemma ExampleGrid()
    ensures TileCount(6400, 800) == 8 && TileCount(9000, 800) == 11
    ensures |Serpentine(0, 0, 8, 11, 800, 800)| == 88
    ensures Serpentine(0, 0, 8, 11, 800, 800)[11] == Position(8000, 800)
  {
    SerpentineCell(0, 0, 8, 11, 800, 800, 1, 0);
  }
}

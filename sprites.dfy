/**
 * The row-major walk of `init_pos` over a sprite board, shared by the three
 * generators: after drawing a character the position moves one cell right,
 * or back to column 0 of the next row once the next cell would reach the
 * board's width.
 */
module Sprites {
  import opened Raster

  /** The origin of the `k`-th cell on a board of `columns` cells per row. */
  function CellOrigin(k: nat, columns: int, cell: Pair): Pair
    requires columns > 0
  {
    Pair((k % columns) * cell.x, (k / columns) * cell.y)
  }

  /** The `init_pos` update of `create_sprites` / `create_fontboard`. */
  function NextCell(pos: Pair, cell: Pair, boardWidth: int): Pair {
    if pos.x + cell.x >= boardWidth then Pair(0, pos.y + cell.y) else Pair(pos.x + cell.x, pos.y)
  }

  lemma MulStrict(a: int, b: int, m: int)
    requires a < b && m > 0
    ensures a * m < b * m
  {
    assert b * m - a * m == (b - a) * m;
  }

  lemma MulWeak(a: int, b: int, m: int)
    requires a <= b && m >= 0
    ensures a * m <= b * m
  {
    assert b * m - a * m == (b - a) * m;
  }

  /** Quotient and remainder are determined by `k == q * c + r` with `0 <= r < c`. */
  lemma DivModUnique(k: int, c: int, q: int, r: int)
    requires c > 0 && 0 <= r < c && k == q * c + r
    ensures k / c == q && k % c == r
  {
    var q', r' := k / c, k % c;
    assert (q' - q) * c == r - r';
    if q' > q {
      MulWeak(1, q' - q, c);
    } else if q' < q {
      MulWeak(q' - q, -1, c);
    }
  }

  /** Stepping from the `k`-th cell origin lands on the `(k + 1)`-th one when the board is `columns` cells wide. */
  lemma NextCellWalk(k: nat, columns: int, cell: Pair)
    requires columns > 0 && cell.x > 0
    ensures NextCell(CellOrigin(k, columns, cell), cell, columns * cell.x) == CellOrigin(k + 1, columns, cell)
  {
    var q, r := k / columns, k % columns;
    var o := CellOrigin(k, columns, cell);
    assert o.x + cell.x == (r + 1) * cell.x;
    if r == columns - 1 {
      DivModUnique(k + 1, columns, q + 1, 0);
      assert (q + 1) * cell.y == q * cell.y + cell.y;
    } else {
      DivModUnique(k + 1, columns, q, r + 1);
      MulStrict(r + 1, columns, cell.x);
    }
  }

  /** `init_pos` before the `k`-th character: `NextCell` applied `k` times to the origin. */
  function CellWalk(k: nat, cell: Pair, boardWidth: int): Pair {
    if k == 0 then Pair(0, 0) else NextCell(CellWalk(k - 1, cell, boardWidth), cell, boardWidth)
  }

  /** On a board `columns` cells wide the walk visits the cells in row-major order. */
  lemma {:induction false} CellWalkIsRowMajor(k: nat, columns: int, cell: Pair)
    requires columns > 0 && cell.x > 0
    ensures CellWalk(k, cell, columns * cell.x) == CellOrigin(k, columns, cell)
  {
    if k > 0 {
      CellWalkIsRowMajor(k - 1, columns, cell);
      NextCellWalk(k - 1, columns, cell);
    }
  }

  /** Every one of the first `columns * rows` cells lies entirely on the board. */
  lemma CellInsideBoard(k: nat, columns: int, rows: int, cell: Pair)
    requires columns > 0 && cell.x >= 0 && cell.y >= 0 && k < columns * rows
    ensures var o := CellOrigin(k, columns, cell);
      && 0 <= o.x && o.x + cell.x <= columns * cell.x
      && 0 <= o.y && o.y + cell.y <= rows * cell.y
  {
    var q, r := k / columns, k % columns;
    assert q < rows by {
      if q >= rows {
        MulWeak(rows, q, columns);
      }
    }
    MulWeak(0, r, cell.x);
    MulWeak(r + 1, columns, cell.x);
    MulWeak(0, q, cell.y);
    MulWeak(q + 1, rows, cell.y);
  }

  /** A cell beyond the first `columns * rows` starts below the board. */
  lemma CellBelowBoard(k: nat, columns: int, rows: int, cell: Pair)
    requires columns > 0 && rows >= 0 && cell.y > 0 && k >= columns * rows
    ensures CellOrigin(k, columns, cell).y >= rows * cell.y
  {
    var q := k / columns;
    assert q >= rows by {
      if q < rows {
        MulWeak(q + 1, rows, columns);
      }
    }
    MulWeak(rows, q, cell.y);
  }

  /** Different characters get different cells. */
  lemma CellsDistinct(j: nat, k: nat, columns: int, cell: Pair)
    requires columns > 0 && cell.x > 0 && cell.y > 0 && j != k
    ensures CellOrigin(j, columns, cell) != CellOrigin(k, columns, cell)
  {
    var a, b := CellOrigin(j, columns, cell), CellOrigin(k, columns, cell);
    if a == b {
      if j % columns < k % columns {
        MulStrict(j % columns, k % columns, cell.x);
      } else if j % columns > k % columns {
        MulStrict(k % columns, j % columns, cell.x);
      } else if j / columns < k / columns {
        MulStrict(j / columns, k / columns, cell.y);
      } else if j / columns > k / columns {
        MulStrict(k / columns, j / columns, cell.y);
      }
    }
  }
}

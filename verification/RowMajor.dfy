/** Positions in row-major matrices. */
module RowMajor {
  import opened Arithmetic

  function At(i: int, j: int, cols: int): int {
    i * cols + j
  }

  lemma AtInRange(i: nat, j: nat, rows: nat, cols: nat)
    requires i < rows && j < cols
    ensures 0 <= At(i, j, cols) < rows * cols
  {
    Grows(i + 1, rows, cols);
  }

  lemma AtInjective(i: nat, j: nat, x: nat, y: nat, cols: nat)
    requires j < cols && y < cols && At(i, j, cols) == At(x, y, cols)
    ensures i == x && j == y
  {
    SameSplit(j, i, y, x, cols);
  }

  lemma SplitIndex(p: nat, rows: nat, cols: nat)
    requires p < rows * cols
    ensures 0 < cols && p / cols < rows && p % cols < cols && At(p / cols, p % cols, cols) == p
  {
    if cols > 0 && p / cols >= rows {
      Grows(rows, p / cols, cols);
    }
  }

  /** Entry `(i, j)` of a matrix with the given dimensions. */
  function Cell<T>(m: seq<T>, rows: nat, cols: nat, i: nat, j: nat): T
    requires |m| == rows * cols && i < rows && j < cols
  {
    AtInRange(i, j, rows, cols);
    m[At(i, j, cols)]
  }

  /** Matrices with the same entries are the same buffer. */
  lemma SameCells<T>(m: seq<T>, n: seq<T>, rows: nat, cols: nat)
    requires |m| == |n| == rows * cols
    requires forall i: nat, j: nat :: i < rows && j < cols ==> Cell(m, rows, cols, i, j) == Cell(n, rows, cols, i, j)
    ensures m == n
  {
    forall p | 0 <= p < |m| ensures m[p] == n[p] {
      SameAtIndex(m, n, rows, cols, p);
    }
  }

  lemma SameAtIndex<T>(m: seq<T>, n: seq<T>, rows: nat, cols: nat, p: nat)
    requires |m| == |n| == rows * cols && p < |m|
    requires forall i: nat, j: nat :: i < rows && j < cols ==> Cell(m, rows, cols, i, j) == Cell(n, rows, cols, i, j)
    ensures m[p] == n[p]
  {
    SplitIndex(p, rows, cols);
    assert Cell(m, rows, cols, p / cols, p % cols) == Cell(n, rows, cols, p / cols, p % cols);
  }

  /** `m[row * cols + col] = v` changes that entry and no other. */
  method StoreCell<T>(m: array<T>, rows: nat, cols: nat, row: nat, col: nat, v: T)
    requires m.Length == rows * cols && row < rows && col < cols
    modifies m
    ensures Cell(m[..], rows, cols, row, col) == v
    ensures forall i: nat, j: nat :: i < rows && j < cols && (i, j) != (row, col) ==>
      Cell(m[..], rows, cols, i, j) == Cell(old(m[..]), rows, cols, i, j)
  {
    AtInRange(row, col, rows, cols);
    m[row * cols + col] := v;
    forall i: nat, j: nat | i < rows && j < cols && (i, j) != (row, col)
      ensures Cell(m[..], rows, cols, i, j) == Cell(old(m[..]), rows, cols, i, j)
    {
      AtInRange(i, j, rows, cols);
      if At(i, j, cols) == At(row, col, cols) {
        AtInjective(i, j, row, col, cols);
      }
    }
  }

  /** The rows of a matrix, one after the other. */
  function Flatten<T>(rows: seq<seq<T>>): seq<T> {
    if |rows| == 0 then [] else Flatten(rows[..|rows| - 1]) + rows[|rows| - 1]
  }

  lemma {:induction false} FlattenLength<T>(rows: seq<seq<T>>, cols: nat)
    requires forall i :: 0 <= i < |rows| ==> |rows[i]| == cols
    ensures |Flatten(rows)| == |rows| * cols
  {
    if |rows| == 0 {
    } else {
      FlattenLength(rows[..|rows| - 1], cols);
      Grows(|rows|, |rows|, cols);
    }
  }

  /** Row-major: entry `(i, j)` of rows laid out one after the other is the `j`-th entry of the `i`-th row. */
  lemma {:induction false} FlattenCell<T>(rows: seq<seq<T>>, cols: nat, i: nat, j: nat)
    requires (forall k :: 0 <= k < |rows| ==> |rows[k]| == cols) && i < |rows| && j < cols
    ensures |Flatten(rows)| == |rows| * cols && Cell(Flatten(rows), |rows|, cols, i, j) == rows[i][j]
  {
    var n := |rows| - 1;
    FlattenLength(rows, cols);
    FlattenLength(rows[..n], cols);
    if i == n {
      LastRow(Flatten(rows[..n]), rows[n], n, cols, j);
    } else {
      FlattenCell(rows[..n], cols, i, j);
      EarlierRow(Flatten(rows[..n]), rows[n], n, cols, i, j);
    }
  }

  lemma LastRow<T>(head: seq<T>, row: seq<T>, n: nat, cols: nat, j: nat)
    requires |head| == n * cols && |row| == cols && j < cols
    ensures |head + row| == (n + 1) * cols && Cell(head + row, n + 1, cols, n, j) == row[j]
  {
    Grows(n + 1, n + 1, cols);
  }

  lemma EarlierRow<T>(head: seq<T>, row: seq<T>, n: nat, cols: nat, i: nat, j: nat)
    requires |head| == n * cols && |row| == cols && i < n && j < cols
    ensures |head + row| == (n + 1) * cols && Cell(head + row, n + 1, cols, i, j) == Cell(head, n, cols, i, j)
  {
    Grows(n + 1, n + 1, cols);
    AtInRange(i, j, n, cols);
  }
}

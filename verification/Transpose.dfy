/**
 * The tiled transpose against `cpu_transpose`. A block of 32 x 8 threads copies a 32 x 32 tile into
 * shared memory in four passes, meets a barrier, and writes it out transposed in four passes. The
 * threads of a phase and the blocks of the grid run in any order.
 */
module Transpose {
  import opened Arithmetic
  import Gemm
  import opened RowMajor
  import opened Threads

  const TILE := 32
  const ROWS := 8

  /** Matrix dimensions for which every index product is an `int`. */
  predicate Sized(rows: nat, cols: nat) {
    rows <= INT_MAX && cols <= INT_MAX && rows * cols <= INT_MAX
  }

  /** The kernel rounds the sides up to whole tiles, in `int` too. */
  predicate Fits(rows: nat, cols: nat) {
    Sized(rows, cols) && rows + 31 <= INT_MAX && cols + 31 <= INT_MAX
  }

  // ----- the specification

  /** `n` is the transpose of `m`. */
  ghost predicate IsTranspose<T(!new)>(m: seq<T>, n: seq<T>, rows: nat, cols: nat) {
    && |m| == rows * cols && |n| == cols * rows
    && forall c: nat, r: nat :: c < cols && r < rows ==> Turned(m, n, rows, cols, c, r)
  }

  ghost predicate Turned<T>(m: seq<T>, n: seq<T>, rows: nat, cols: nat, c: nat, r: nat)
    requires |m| == rows * cols && |n| == cols * rows && c < cols && r < rows
  {
    Cell(n, cols, rows, c, r) == Cell(m, rows, cols, r, c)
  }

  lemma TransposeIsUnique<T(!new)>(m: seq<T>, n: seq<T>, o: seq<T>, rows: nat, cols: nat)
    requires IsTranspose(m, n, rows, cols) && IsTranspose(m, o, rows, cols)
    ensures n == o
  {
    forall c: nat, r: nat | c < cols && r < rows ensures Cell(n, cols, rows, c, r) == Cell(o, cols, rows, c, r) {
      assert Turned(m, n, rows, cols, c, r) && Turned(m, o, rows, cols, c, r);
    }
    SameCells(n, o, cols, rows);
  }

  /** Transposing twice is the identity. */
  lemma TransposeTwice<T(!new)>(m: seq<T>, n: seq<T>, o: seq<T>, rows: nat, cols: nat)
    requires IsTranspose(m, n, rows, cols) && IsTranspose(n, o, cols, rows)
    ensures o == m
  {
    forall r: nat, c: nat | r < rows && c < cols ensures Cell(o, rows, cols, r, c) == Cell(m, rows, cols, r, c) {
      assert Turned(n, o, cols, rows, r, c) && Turned(m, n, rows, cols, c, r);
    }
    SameCells(o, m, rows, cols);
  }

  // ----- the reference

  ghost predicate DoneUpTo<T(!new)>(m: seq<T>, n: seq<T>, rows: nat, cols: nat, r: nat, c: nat)
    requires |m| == rows * cols && |n| == cols * rows
  {
    forall x: nat, y: nat :: x < cols && y < rows && (y < r || (y == r && x < c)) ==> Turned(m, n, rows, cols, x, y)
  }

  method CpuTranspose<T(!new)>(m: seq<T>, n: array<T>, rows: nat, cols: nat)
    requires Sized(rows, cols) && |m| == rows * cols && n.Length == cols * rows
    modifies n
    ensures IsTranspose(m, n[..], rows, cols)
  {
    for r := 0 to rows
      invariant DoneUpTo(m, n[..], rows, cols, r, 0)
    {
      for c := 0 to cols
        invariant DoneUpTo(m, n[..], rows, cols, r, c)
      {
        ghost var before := n[..];
        var v := Fetch(m, rows, cols, r, c);
        StoreCell(n, cols, rows, c, r, v);
        DoneNext(m, before, n[..], rows, cols, r, c);
      }
    }
  }

  lemma DoneNext<T(!new)>(m: seq<T>, before: seq<T>, after: seq<T>, rows: nat, cols: nat, r: nat, c: nat)
    requires |m| == rows * cols && |before| == |after| == cols * rows && r < rows && c < cols
    requires DoneUpTo(m, before, rows, cols, r, c) && Turned(m, after, rows, cols, c, r)
    requires forall x: nat, y: nat :: x < cols && y < rows && (x, y) != (c, r) ==>
      Cell(after, cols, rows, x, y) == Cell(before, cols, rows, x, y)
    ensures DoneUpTo(m, after, rows, cols, r, c + 1)
  {
    forall x: nat, y: nat | x < cols && y < rows && (y < r || (y == r && x < c + 1))
      ensures Turned(m, after, rows, cols, x, y)
    {
      assert (x, y) != (c, r) ==> Turned(m, before, rows, cols, x, y);
    }
  }

  /** `m[row * cols + col]`. */
  method Fetch<T>(m: seq<T>, rows: nat, cols: nat, row: nat, col: nat) returns (v: T)
    requires rows * cols <= INT_MAX && |m| == rows * cols && row < rows && col < cols
    ensures v == Cell(m, rows, cols, row, col)
  {
    AtInRange(row, col, rows, cols);
    assert row * cols + col <= INT_MAX;
    v := m[row * cols + col];
  }

  /** The offsets of the four passes, `kTransTile / kTransRows` of them. */
  predicate PassStart(j: int) {
    j == 0 || j == ROWS || j == 2 * ROWS || j == 3 * ROWS
  }

  lemma ThreadRow(i: nat, ty: nat)
    requires i < TILE && ty < ROWS
    ensures i % ROWS == ty <==> PassStart(i - ty)
  {
  }

  // ----- the load phase

  /** `v` is input cell `(r, c)`, if there is one. */
  ghost predicate Holds<T>(v: T, m: seq<T>, rows: nat, cols: nat, r: nat, c: nat)
    requires |m| == rows * cols
  {
    r < rows && c < cols ==> v == Cell(m, rows, cols, r, c)
  }

  /** Every tile cell that some thread outside `todo` loads holds its input; `i % ROWS` is that thread's row. */
  ghost predicate Loaded<T(!new)>(tile: array2<T>, m: seq<T>, rows: nat, cols: nat, br: nat, bc: nat,
      todo: set<(nat, nat)>)
    requires |m| == rows * cols && tile.Length0 == TILE && tile.Length1 == TILE + 1
    reads tile
  {
    forall i: nat, k: nat :: i < TILE && k < TILE && (i % ROWS, k) !in todo ==>
      Holds(tile[i, k], m, rows, cols, TILE * br + i, TILE * bc + k)
  }

  method LoadPhase<T(!new)>(tile: array2<T>, m: seq<T>, rows: nat, cols: nat, br: nat, bc: nat)
    requires Fits(rows, cols) && |m| == rows * cols && tile.Length0 == TILE && tile.Length1 == TILE + 1
    requires TILE * br < rows && TILE * bc < cols
    modifies tile
    ensures Loaded(tile, m, rows, cols, br, bc, {})
  {
    var todo := AllPairs(ROWS, TILE);
    while todo != {}
      invariant forall y: nat, x: nat :: (y, x) in todo ==> y < ROWS && x < TILE
      invariant Loaded(tile, m, rows, cols, br, bc, todo)
    {
      var thread :| thread in todo;
      var (ty, tx) := thread;
      forall i: nat | i < TILE {
        ThreadRow(i, ty);
      }
      LoadThread(tile, m, rows, cols, br, bc, ty, tx);
      todo := todo - {thread};
    }
  }

  /** One thread's four passes: it fills `(ty + j, tx)` for `j` in 0, 8, 16, 24 and nothing else. */
  method LoadThread<T>(tile: array2<T>, m: seq<T>, rows: nat, cols: nat, br: nat, bc: nat, ty: nat, tx: nat)
    requires Fits(rows, cols) && |m| == rows * cols && tile.Length0 == TILE && tile.Length1 == TILE + 1
    requires ty < ROWS && tx < TILE && TILE * br < rows && TILE * bc < cols
    modifies tile
    ensures forall i: nat :: i < TILE && PassStart(i - ty) ==>
      Holds(tile[i, tx], m, rows, cols, TILE * br + i, TILE * bc + tx)
    ensures forall i: nat, k: nat :: i < TILE && k < TILE && !(PassStart(i - ty) && k == tx) ==>
      tile[i, k] == old(tile[i, k])
  {
    var j := 0;
    while j < TILE
      invariant PassStart(j) || j == TILE
      invariant forall i: nat :: i < ty + j && PassStart(i - ty) ==>
        Holds(tile[i, tx], m, rows, cols, TILE * br + i, TILE * bc + tx)
      invariant forall i: nat, k: nat :: i < TILE && k < TILE && !(PassStart(i - ty) && k == tx) ==>
        tile[i, k] == old(tile[i, k])
    {
      LoadPass(tile, m, rows, cols, br, bc, ty + j, tx);
      j := j + ROWS;
    }
  }

  /** One guarded load into tile row `i`, which is `threadIdx.y + j`. */
  method LoadPass<T>(tile: array2<T>, m: seq<T>, rows: nat, cols: nat, br: nat, bc: nat, i: nat, tx: nat)
    requires Fits(rows, cols) && |m| == rows * cols && tile.Length0 == TILE && tile.Length1 == TILE + 1
    requires i < TILE && tx < TILE && TILE * br < rows && TILE * bc < cols
    modifies tile
    ensures Holds(tile[i, tx], m, rows, cols, TILE * br + i, TILE * bc + tx)
    ensures forall a: nat, k: nat :: a < TILE && k < TILE && (a, k) != (i, tx) ==> tile[a, k] == old(tile[a, k])
  {
    var x, y := TILE * bc + tx, TILE * br + i;
    assert x <= INT_MAX && y <= INT_MAX;
    if x < cols && y < rows {
      var v := Fetch(m, rows, cols, y, x);
      tile[i, tx] := v;
    }
  }

  // ----- the store phase

  /** Output cell `(oy, ox)` is written by thread `(ty, tx)` of the block at `(br, bc)`. */
  ghost predicate OwnedBy(rows: nat, cols: nat, br: nat, bc: nat, ty: nat, tx: nat, oy: nat, ox: nat) {
    oy < cols && ox < rows && ox == TILE * br + tx && PassStart(oy - TILE * bc - ty)
  }

  /** The cells in `written` hold their final values. */
  ghost predicate Settled<T(!new)>(m: seq<T>, n: seq<T>, rows: nat, cols: nat, written: set<(nat, nat)>)
    requires |m| == rows * cols && |n| == cols * rows
  {
    forall oy: nat, ox: nat :: (oy, ox) in written ==> oy < cols && ox < rows && Turned(m, n, rows, cols, oy, ox)
  }

  /** A store to a cell nobody has written before. */
  method StoreOnce<T(!new)>(m: seq<T>, n: array<T>, rows: nat, cols: nat, oy: nat, ox: nat, v: T,
      ghost before: set<(nat, nat)>)
    returns (ghost written: set<(nat, nat)>)
    requires |m| == rows * cols && n.Length == cols * rows && oy < cols && ox < rows && v == Cell(m, rows, cols, ox, oy)
    requires (oy, ox) !in before && Settled(m, n[..], rows, cols, before)
    modifies n
    ensures written == before + {(oy, ox)} && Settled(m, n[..], rows, cols, written)
  {
    ghost var was := n[..];
    StoreCell(n, cols, rows, oy, ox, v);
    written := before + {(oy, ox)};
    forall c: nat, r: nat | (c, r) in written
      ensures c < cols && r < rows && Turned(m, n[..], rows, cols, c, r)
    {
      assert (c, r) != (oy, ox) ==> Turned(m, was, rows, cols, c, r);
    }
  }

  /** The thread's cells of the passes before `j`. */
  ghost predicate Passed(rows: nat, cols: nat, br: nat, bc: nat, ty: nat, tx: nat, j: nat, oy: nat, ox: nat) {
    OwnedBy(rows, cols, br, bc, ty, tx, oy, ox) && oy - TILE * bc - ty < j
  }

  /** Pass `j` adds one cell, if it lies in the matrix. */
  lemma PassCovers(rows: nat, cols: nat, br: nat, bc: nat, ty: nat, tx: nat, j: nat, oy: nat, ox: nat)
    requires ty < ROWS && tx < TILE && PassStart(j)
    ensures !Passed(rows, cols, br, bc, ty, tx, 0, oy, ox)
    ensures OwnedBy(rows, cols, br, bc, ty, tx, oy, ox) <==> Passed(rows, cols, br, bc, ty, tx, TILE, oy, ox)
    ensures Passed(rows, cols, br, bc, ty, tx, j + ROWS, oy, ox) <==>
      || Passed(rows, cols, br, bc, ty, tx, j, oy, ox)
      || ((oy, ox) == (TILE * bc + ty + j, TILE * br + tx) && oy < cols && ox < rows)
    ensures (oy, ox) == (TILE * bc + ty + j, TILE * br + tx) ==> !Passed(rows, cols, br, bc, ty, tx, j, oy, ox)
  {
  }

  method StoreThread<T(!new)>(tile: array2<T>, m: seq<T>, n: array<T>, rows: nat, cols: nat, br: nat, bc: nat,
      ty: nat, tx: nat, ghost before: set<(nat, nat)>) returns (ghost written: set<(nat, nat)>)
    requires Fits(rows, cols) && |m| == rows * cols && n.Length == cols * rows
    requires tile.Length0 == TILE && tile.Length1 == TILE + 1 && Loaded(tile, m, rows, cols, br, bc, {})
    requires ty < ROWS && tx < TILE && TILE * br < rows && TILE * bc < cols
    requires Settled(m, n[..], rows, cols, before)
    requires forall oy: nat, ox: nat :: OwnedBy(rows, cols, br, bc, ty, tx, oy, ox) ==> (oy, ox) !in before
    modifies n
    ensures Settled(m, n[..], rows, cols, written)
    ensures forall oy: nat, ox: nat :: (oy, ox) in written <==>
      (oy, ox) in before || OwnedBy(rows, cols, br, bc, ty, tx, oy, ox)
  {
    var x, y := TILE * br + tx, TILE * bc + ty;
    written := before;
    var j := 0;
    while j < TILE
      invariant PassStart(j) || j == TILE
      invariant Settled(m, n[..], rows, cols, written)
      invariant forall oy: nat, ox: nat :: (oy, ox) in written <==>
        (oy, ox) in before || Passed(rows, cols, br, bc, ty, tx, j, oy, ox)
    {
      assert y + j <= INT_MAX;
      forall oy: nat, ox: nat {
        PassCovers(rows, cols, br, bc, ty, tx, j, oy, ox);
      }
      if x < rows && y + j < cols {
        written := StorePass(tile, m, n, rows, cols, br, bc, ty, tx, j, written);
      }
      j := j + ROWS;
    }
  }

  /** `out[(y + j) * rows + x] = tile[threadIdx.x][threadIdx.y + j]`. */
  method StorePass<T(!new)>(tile: array2<T>, m: seq<T>, n: array<T>, rows: nat, cols: nat, br: nat, bc: nat,
      ty: nat, tx: nat, j: nat, ghost before: set<(nat, nat)>) returns (ghost written: set<(nat, nat)>)
    requires |m| == rows * cols && n.Length == cols * rows
    requires tile.Length0 == TILE && tile.Length1 == TILE + 1 && Loaded(tile, m, rows, cols, br, bc, {})
    requires ty + j < TILE && tx < TILE && TILE * br + tx < rows && TILE * bc + ty + j < cols
    requires Settled(m, n[..], rows, cols, before) && (TILE * bc + ty + j, TILE * br + tx) !in before
    modifies n
    ensures written == before + {(TILE * bc + ty + j, TILE * br + tx)} && Settled(m, n[..], rows, cols, written)
  {
    assert Holds(tile[tx, ty + j], m, rows, cols, TILE * br + tx, TILE * bc + ty + j);
    written := StoreOnce(m, n, rows, cols, TILE * bc + ty + j, TILE * br + tx, tile[tx, ty + j], before);
  }

  /** Output cell `(oy, ox)` belongs to the block at `(br, bc)`, to a thread outside `todo`. */
  ghost predicate Stored(rows: nat, cols: nat, br: nat, bc: nat, todo: set<(nat, nat)>, oy: nat, ox: nat) {
    && oy < cols && ox < rows && TILE * bc <= oy < TILE * (bc + 1) && TILE * br <= ox < TILE * (br + 1)
    && ((oy - TILE * bc) % ROWS, ox - TILE * br) !in todo
  }

  lemma ThreadStored(rows: nat, cols: nat, br: nat, bc: nat, todo: set<(nat, nat)>, ty: nat, tx: nat, oy: nat, ox: nat)
    requires ty < ROWS && tx < TILE && (ty, tx) in todo
    ensures Stored(rows, cols, br, bc, todo - {(ty, tx)}, oy, ox) <==>
      Stored(rows, cols, br, bc, todo, oy, ox) || OwnedBy(rows, cols, br, bc, ty, tx, oy, ox)
    ensures !(Stored(rows, cols, br, bc, todo, oy, ox) && OwnedBy(rows, cols, br, bc, ty, tx, oy, ox))
  {
    if TILE * bc <= oy < TILE * (bc + 1) {
      ThreadRow(oy - TILE * bc, ty);
    }
  }

  method StorePhase<T(!new)>(tile: array2<T>, m: seq<T>, n: array<T>, rows: nat, cols: nat, br: nat, bc: nat,
      ghost before: set<(nat, nat)>) returns (ghost written: set<(nat, nat)>)
    requires Fits(rows, cols) && |m| == rows * cols && n.Length == cols * rows
    requires tile.Length0 == TILE && tile.Length1 == TILE + 1 && Loaded(tile, m, rows, cols, br, bc, {})
    requires TILE * br < rows && TILE * bc < cols && Settled(m, n[..], rows, cols, before)
    requires forall oy: nat, ox: nat :: Stored(rows, cols, br, bc, {}, oy, ox) ==> (oy, ox) !in before
    modifies n
    ensures Settled(m, n[..], rows, cols, written)
    ensures forall oy: nat, ox: nat :: (oy, ox) in written <==>
      (oy, ox) in before || Stored(rows, cols, br, bc, {}, oy, ox)
  {
    written := before;
    var todo := AllPairs(ROWS, TILE);
    while todo != {}
      invariant forall y: nat, x: nat :: (y, x) in todo ==> y < ROWS && x < TILE
      invariant Settled(m, n[..], rows, cols, written)
      invariant forall oy: nat, ox: nat :: (oy, ox) in written <==>
        (oy, ox) in before || Stored(rows, cols, br, bc, todo, oy, ox)
    {
      var thread :| thread in todo;
      var (ty, tx) := thread;
      forall oy: nat, ox: nat {
        ThreadStored(rows, cols, br, bc, todo, ty, tx, oy, ox);
      }
      written := StoreThread(tile, m, n, rows, cols, br, bc, ty, tx, written);
      todo := todo - {thread};
    }
  }

  method TransposeBlock<T(0, !new)>(m: seq<T>, n: array<T>, rows: nat, cols: nat, br: nat, bc: nat,
      ghost before: set<(nat, nat)>)
    returns (ghost written: set<(nat, nat)>)
    requires Fits(rows, cols) && |m| == rows * cols && n.Length == cols * rows
    requires TILE * br < rows && TILE * bc < cols && Settled(m, n[..], rows, cols, before)
    requires forall oy: nat, ox: nat :: Stored(rows, cols, br, bc, {}, oy, ox) ==> (oy, ox) !in before
    modifies n
    ensures Settled(m, n[..], rows, cols, written)
    ensures forall oy: nat, ox: nat :: (oy, ox) in written <==>
      (oy, ox) in before || Stored(rows, cols, br, bc, {}, oy, ox)
  {
    var tile := new T[TILE, TILE + 1];
    LoadPhase(tile, m, rows, cols, br, bc);
    written := StorePhase(tile, m, n, rows, cols, br, bc, before);
  }

  // ----- the grid

  function Blocks(n: nat): nat {
    (n + TILE - 1) / TILE
  }

  lemma OwnBlock(rows: nat, cols: nat, br: nat, bc: nat, oy: nat, ox: nat)
    ensures Stored(rows, cols, br, bc, {}, oy, ox) <==> oy < cols && ox < rows && (ox / TILE, oy / TILE) == (br, bc)
  {
  }

  /** All blocks, in any order. Every output cell is written, and `StoreOnce` lets none be written twice. */
  method TransposeGrid<T(0, !new)>(m: seq<T>, n: array<T>, rows: nat, cols: nat)
    returns (ghost written: set<(nat, nat)>)
    requires Fits(rows, cols) && |m| == rows * cols && n.Length == cols * rows
    modifies n
    ensures IsTranspose(m, n[..], rows, cols)
    ensures forall oy: nat, ox: nat :: (oy, ox) in written <==> oy < cols && ox < rows
  {
    written := {};
    var todo := AllPairs(Blocks(rows), Blocks(cols));
    while todo != {}
      invariant forall br: nat, bc: nat :: (br, bc) in todo ==> br < Blocks(rows) && bc < Blocks(cols)
      invariant Settled(m, n[..], rows, cols, written)
      invariant forall oy: nat, ox: nat :: (oy, ox) in written <==>
        oy < cols && ox < rows && (ox / TILE, oy / TILE) !in todo
    {
      var block :| block in todo;
      var (br, bc) := block;
      forall oy: nat, ox: nat {
        OwnBlock(rows, cols, br, bc, oy, ox);
      }
      written := TransposeBlock(m, n, rows, cols, br, bc, written);
      todo := todo - {block};
    }
    forall c: nat, r: nat | c < cols && r < rows ensures Turned(m, n[..], rows, cols, c, r) {
      assert (c, r) in written;
    }
  }

  /** `launch_transpose` for non-null pointers. */
  method LaunchTranspose<T(0, !new)>(m: seq<T>, n: array<T>, rows: int, cols: int) returns (status: Status)
    requires rows > 0 && cols > 0 ==> Fits(rows, cols) && |m| == rows * cols && n.Length == cols * rows
    modifies n
    ensures status.Success? <==> rows >= 0 && cols >= 0
    ensures status.Success? && rows > 0 && cols > 0 ==> IsTranspose(m, n[..], rows, cols)
    ensures status.InvalidValue? || rows == 0 || cols == 0 ==> n[..] == old(n[..])
  {
    if rows < 0 || cols < 0 {
      return InvalidValue;
    }
    if rows == 0 || cols == 0 {
      return Success;
    }
    ghost var written := TransposeGrid(m, n, rows, cols);
    status := Success;
  }

  // ----- with the matrix product

  /** Row times column is the same sum for the transposed matrices in the other order. */
  lemma {:induction false} DotTransposed(g: Gemm.Job, h: Gemm.Job, i: nat, j: nat, n: nat)
    requires Gemm.Sized(g) && Gemm.Sized(h) && h.M == g.N && h.N == g.M && h.K == g.K
    requires IsTranspose(g.A, h.B, g.M, g.K) && IsTranspose(g.B, h.A, g.K, g.N)
    requires i < g.M && j < g.N && n <= g.K
    ensures Gemm.Dot(g, i, j, n) == Gemm.Dot(h, j, i, n)
  {
    if n == 0 {
    } else {
      DotTransposed(g, h, i, j, n - 1);
      TermTransposed(g, h, i, j, n - 1);
    }
  }

  lemma TermTransposed(g: Gemm.Job, h: Gemm.Job, i: nat, j: nat, k: nat)
    requires Gemm.Sized(g) && Gemm.Sized(h) && h.M == g.N && h.N == g.M && h.K == g.K
    requires IsTranspose(g.A, h.B, g.M, g.K) && IsTranspose(g.B, h.A, g.K, g.N)
    requires i < g.M && j < g.N && k < g.K
    ensures Gemm.Term(g, i, j, k) == Gemm.Term(h, j, i, k)
  {
    EntryTransposed(g.A, h.B, g.M, g.K, i, k);
    EntryTransposed(g.B, h.A, g.K, g.N, k, j);
  }

  lemma EntryTransposed<T(!new)>(m: seq<T>, n: seq<T>, rows: nat, cols: nat, r: nat, c: nat)
    requires IsTranspose(m, n, rows, cols) && r < rows && c < cols
    ensures Cell(m, rows, cols, r, c) == Cell(n, cols, rows, c, r)
  {
    assert Turned(m, n, rows, cols, c, r);
  }

  /** The transpose of a product is the product of the transposes in the other order. */
  lemma ProductTransposed(g: Gemm.Job, h: Gemm.Job, C: seq<real>, D: seq<real>)
    requires Gemm.Sized(g) && Gemm.Sized(h) && h.M == g.N && h.N == g.M && h.K == g.K
    requires IsTranspose(g.A, h.B, g.M, g.K) && IsTranspose(g.B, h.A, g.K, g.N)
    requires Gemm.IsProduct(g, C) && IsTranspose(C, D, g.M, g.N)
    ensures Gemm.IsProduct(h, D)
  {
    forall j: nat, i: nat | j < h.M && i < h.N ensures Gemm.CellIs(h, D, j, i) {
      DotTransposed(g, h, i, j, g.K);
      assert Turned(C, D, g.M, g.N, j, i) && Gemm.CellIs(g, C, i, j);
    }
  }
}

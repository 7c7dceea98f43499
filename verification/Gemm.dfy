/**
 * The tiled matrix product against the naive kernel and `cpu_gemm`, over exact arithmetic. A
 * block alternates a load phase and an accumulate phase, separated by barriers; the threads of
 * a phase, and the blocks of the grid, run in any order.
 */
module Gemm {
  import opened Arithmetic
  import opened RowMajor
  import opened Threads

  const TILE := 16

  /** Two row-major matrices in device memory and their dimensions; every index product fits an `int`. */
  datatype Job = Job(A: seq<real>, B: seq<real>, M: nat, N: nat, K: nat)

  ghost predicate Sized(g: Job) {
    && g.M <= INT_MAX && g.N <= INT_MAX && g.K <= INT_MAX
    && |g.A| == g.M * g.K <= INT_MAX && |g.B| == g.K * g.N <= INT_MAX && g.M * g.N <= INT_MAX
  }

  /** The kernels round the sides up to whole tiles, in `int` too. */
  ghost predicate Fits(g: Job) {
    Sized(g) && g.M + 15 <= INT_MAX && g.N + 15 <= INT_MAX && g.K + 15 <= INT_MAX
  }

  /** `A[row][x]`, or the zero the tiled kernel loads outside the matrix. */
  function PadA(g: Job, row: nat, x: nat): real
    requires Sized(g)
  {
    if row < g.M && x < g.K then Cell(g.A, g.M, g.K, row, x) else 0.0
  }

  function PadB(g: Job, x: nat, col: nat): real
    requires Sized(g)
  {
    if x < g.K && col < g.N then Cell(g.B, g.K, g.N, x, col) else 0.0
  }

  /** The first `n` terms of row times column, the matrices extended by zeros. */
  function Dot(g: Job, row: nat, col: nat, n: nat): real
    requires Sized(g)
  {
    if n == 0 then 0.0 else Dot(g, row, col, n - 1) + Term(g, row, col, n - 1)
  }

  function Term(g: Job, row: nat, col: nat, k: nat): real
    requires Sized(g)
  {
    PadA(g, row, k) * PadB(g, k, col)
  }

  /** Terms beyond the inner dimension add nothing. */
  lemma {:induction false} PaddingIsZero(g: Job, row: nat, col: nat, n: nat)
    requires Sized(g) && g.K <= n
    ensures Dot(g, row, col, n) == Dot(g, row, col, g.K)
  {
    if n > g.K {
      PaddingIsZero(g, row, col, n - 1);
    }
  }

  /** `C` is the matrix product. */
  ghost predicate IsProduct(g: Job, C: seq<real>)
    requires Sized(g)
  {
    && |C| == g.M * g.N
    && forall i: nat, j: nat :: i < g.M && j < g.N ==> CellIs(g, C, i, j)
  }

  ghost predicate CellIs(g: Job, C: seq<real>, i: nat, j: nat)
    requires Sized(g) && |C| == g.M * g.N && i < g.M && j < g.N
  {
    Cell(C, g.M, g.N, i, j) == Dot(g, i, j, g.K)
  }

  /** There is only one: whatever computes the product computes the same matrix. */
  lemma ProductIsUnique(g: Job, C: seq<real>, D: seq<real>)
    requires Sized(g) && IsProduct(g, C) && IsProduct(g, D)
    ensures C == D
  {
    forall i: nat, j: nat | i < g.M && j < g.N
      ensures Cell(C, g.M, g.N, i, j) == Cell(D, g.M, g.N, i, j)
    {
      assert CellIs(g, C, i, j) && CellIs(g, D, i, j);
    }
    SameCells(C, D, g.M, g.N);
  }

  // ----- the reference

  /** Rows above `i`, and in row `i` the cells left of `j`. */
  ghost predicate DoneUpTo(g: Job, C: seq<real>, i: nat, j: nat)
    requires Sized(g) && |C| == g.M * g.N
  {
    forall x: nat, y: nat :: x < g.M && y < g.N && (x < i || (x == i && y < j)) ==> CellIs(g, C, x, y)
  }

  lemma DoneNext(g: Job, before: seq<real>, after: seq<real>, i: nat, j: nat)
    requires Sized(g) && |before| == |after| == g.M * g.N && i < g.M && j < g.N && DoneUpTo(g, before, i, j)
    requires ThreadDone(g, before, after, i, j)
    ensures DoneUpTo(g, after, i, j + 1)
  {
    forall x: nat, y: nat | x < g.M && y < g.N && (x < i || (x == i && y < j + 1))
      ensures CellIs(g, after, x, y)
    {
      assert (x, y) != (i, j) ==> CellIs(g, before, x, y);
    }
  }

  method CpuGemm(g: Job, C: array<real>)
    requires Sized(g) && C.Length == g.M * g.N
    modifies C
    ensures IsProduct(g, C[..])
  {
    for i := 0 to g.M
      invariant DoneUpTo(g, C[..], i, 0)
    {
      for j := 0 to g.N
        invariant DoneUpTo(g, C[..], i, j)
      {
        ghost var before := C[..];
        var acc := RowTimesColumn(g, i, j);
        StoreCell(C, g.M, g.N, i, j, acc);
        DoneNext(g, before, C[..], i, j);
      }
    }
  }

  /** The inner loop of the reference and of the naive kernel. */
  method RowTimesColumn(g: Job, row: nat, col: nat) returns (acc: real)
    requires Sized(g) && row < g.M && col < g.N
    ensures acc == Dot(g, row, col, g.K)
  {
    acc := 0.0;
    for k := 0 to g.K
      invariant acc == Dot(g, row, col, k)
    {
      AtInRange(row, k, g.M, g.K);
      AtInRange(k, col, g.K, g.N);
      assert row * g.K + k <= INT_MAX && k * g.N + col <= INT_MAX;
      acc := MultiplyAdd(g, row, col, k, acc, g.A[row * g.K + k], g.B[k * g.N + col]);
    }
  }

  /** `acc += a * b` takes the next term in. */
  method MultiplyAdd(g: Job, ghost row: nat, ghost col: nat, ghost k: nat, acc: real, a: real, b: real)
    returns (sum: real)
    requires Sized(g) && acc == Dot(g, row, col, k) && a == PadA(g, row, k) && b == PadB(g, k, col)
    ensures sum == Dot(g, row, col, k + 1)
  {
    sum := acc + a * b;
  }

  // ----- one block

  ghost predicate InBlock(br: nat, bc: nat, i: nat, j: nat) {
    TILE * br <= i < TILE * (br + 1) && TILE * bc <= j < TILE * (bc + 1)
  }

  /** Cell `(i, j)` belongs to a thread of this block that is not in `todo`. */
  ghost predicate Stored(br: nat, bc: nat, todo: set<(nat, nat)>, i: nat, j: nat) {
    InBlock(br, bc, i, j) && (i - TILE * br, j - TILE * bc) !in todo
  }

  /** What a block leaves behind: its cells of the product, every other cell untouched. */
  ghost predicate BlockDone(g: Job, before: seq<real>, after: seq<real>, br: nat, bc: nat, todo: set<(nat, nat)>)
    requires Sized(g) && |before| == |after| == g.M * g.N
  {
    && (forall i: nat, j: nat :: i < g.M && j < g.N && Stored(br, bc, todo, i, j) ==> CellIs(g, after, i, j))
    && (forall i: nat, j: nat :: i < g.M && j < g.N && !Stored(br, bc, todo, i, j) ==>
      Cell(after, g.M, g.N, i, j) == Cell(before, g.M, g.N, i, j))
  }

  /** What one thread leaves behind: its cell if it lies in the matrix, and nothing else changed. */
  ghost predicate ThreadDone(g: Job, before: seq<real>, after: seq<real>, row: nat, col: nat)
    requires Sized(g) && |before| == |after| == g.M * g.N
  {
    && (row < g.M && col < g.N ==> CellIs(g, after, row, col))
    && (forall i: nat, j: nat :: i < g.M && j < g.N && (i, j) != (row, col) ==>
      Cell(after, g.M, g.N, i, j) == Cell(before, g.M, g.N, i, j))
  }

  lemma ThreadAdvances(g: Job, start: seq<real>, before: seq<real>, after: seq<real>, br: nat, bc: nat,
      todo: set<(nat, nat)>, y: nat, x: nat)
    requires Sized(g) && |start| == |before| == |after| == g.M * g.N && y < TILE && x < TILE
    requires BlockDone(g, start, before, br, bc, todo) && (y, x) in todo
    requires ThreadDone(g, before, after, TILE * br + y, TILE * bc + x)
    ensures BlockDone(g, start, after, br, bc, todo - {(y, x)})
  {
    forall i: nat, j: nat | i < g.M && j < g.N {
      CellAdvances(g, start, before, after, br, bc, todo, y, x, i, j);
    }
  }

  lemma CellAdvances(g: Job, start: seq<real>, before: seq<real>, after: seq<real>, br: nat, bc: nat,
      todo: set<(nat, nat)>, y: nat, x: nat, i: nat, j: nat)
    requires Sized(g) && |start| == |before| == |after| == g.M * g.N && y < TILE && x < TILE
    requires BlockDone(g, start, before, br, bc, todo) && (y, x) in todo
    requires ThreadDone(g, before, after, TILE * br + y, TILE * bc + x) && i < g.M && j < g.N
    ensures Stored(br, bc, todo - {(y, x)}, i, j) ==> CellIs(g, after, i, j)
    ensures !Stored(br, bc, todo - {(y, x)}, i, j) ==> Cell(after, g.M, g.N, i, j) == Cell(start, g.M, g.N, i, j)
  {
    if (i, j) == (TILE * br + y, TILE * bc + x) {
      assert !Stored(br, bc, todo, i, j) && Stored(br, bc, todo - {(y, x)}, i, j);
    } else {
      assert Stored(br, bc, todo, i, j) <==> Stored(br, bc, todo - {(y, x)}, i, j);
      assert Cell(after, g.M, g.N, i, j) == Cell(before, g.M, g.N, i, j);
      assert Stored(br, bc, todo, i, j) ==> CellIs(g, before, i, j);
    }
  }

  /** `As` and `Bs` hold tile `t`, every cell written in this tile's load phase. */
  ghost predicate Loaded(g: Job, As: array2<real>, Bs: array2<real>, br: nat, bc: nat, t: nat, todo: set<(nat, nat)>)
    requires Sized(g) && As.Length0 == As.Length1 == Bs.Length0 == Bs.Length1 == TILE
    reads As, Bs
  {
    forall y: nat, x: nat :: y < TILE && x < TILE && (y, x) !in todo ==>
      && As[y, x] == PadA(g, TILE * br + y, TILE * t + x)
      && Bs[y, x] == PadB(g, TILE * t + y, TILE * bc + x)
  }

  method LoadPhase(g: Job, As: array2<real>, Bs: array2<real>, br: nat, bc: nat, t: nat)
    requires Sized(g) && As.Length0 == As.Length1 == Bs.Length0 == Bs.Length1 == TILE && As != Bs
    modifies As, Bs
    ensures Loaded(g, As, Bs, br, bc, t, {})
  {
    var todo := AllPairs(TILE, TILE);
    while todo != {}
      invariant forall y: nat, x: nat :: (y, x) in todo ==> y < TILE && x < TILE
      invariant Loaded(g, As, Bs, br, bc, t, todo)
    {
      var thread :| thread in todo;
      var (y, x) := thread;
      LoadThread(g, As, Bs, br, bc, t, y, x);
      todo := todo - {thread};
    }
  }

  method LoadThread(g: Job, As: array2<real>, Bs: array2<real>, br: nat, bc: nat, t: nat, y: nat, x: nat)
    requires Sized(g) && As.Length0 == As.Length1 == Bs.Length0 == Bs.Length1 == TILE && As != Bs
    requires y < TILE && x < TILE
    modifies As, Bs
    ensures As[y, x] == PadA(g, TILE * br + y, TILE * t + x) && Bs[y, x] == PadB(g, TILE * t + y, TILE * bc + x)
    ensures forall i, j | 0 <= i < TILE && 0 <= j < TILE && (i, j) != (y, x) ::
      As[i, j] == old(As[i, j]) && Bs[i, j] == old(Bs[i, j])
  {
    var a := FetchA(g, TILE * br + y, TILE * t + x);
    var b := FetchB(g, TILE * t + y, TILE * bc + x);
    As[y, x], Bs[y, x] := a, b;
  }

  method FetchA(g: Job, row: nat, ak: nat) returns (v: real)
    requires Sized(g)
    ensures v == PadA(g, row, ak)
  {
    if row < g.M && ak < g.K {
      AtInRange(row, ak, g.M, g.K);
      assert row * g.K + ak <= INT_MAX;
      v := g.A[row * g.K + ak];
    } else {
      v := 0.0;
    }
  }

  method FetchB(g: Job, bk: nat, col: nat) returns (v: real)
    requires Sized(g)
    ensures v == PadB(g, bk, col)
  {
    if bk < g.K && col < g.N {
      AtInRange(bk, col, g.K, g.N);
      assert bk * g.N + col <= INT_MAX;
      v := g.B[bk * g.N + col];
    } else {
      v := 0.0;
    }
  }

  /** One thread's pass over the tile. */
  method TileProduct(g: Job, As: array2<real>, Bs: array2<real>, br: nat, bc: nat, t: nat, y: nat, x: nat, start: real)
    returns (acc: real)
    requires Sized(g) && As.Length0 == As.Length1 == Bs.Length0 == Bs.Length1 == TILE
    requires Loaded(g, As, Bs, br, bc, t, {}) && y < TILE && x < TILE
    requires start == Dot(g, TILE * br + y, TILE * bc + x, TILE * t)
    ensures acc == Dot(g, TILE * br + y, TILE * bc + x, TILE * (t + 1))
  {
    acc := start;
    ghost var row, col := TILE * br + y, TILE * bc + x;
    for k := 0 to TILE
      invariant acc == Dot(g, row, col, TILE * t + k)
    {
      assert As[y, k] == PadA(g, row, TILE * t + k) && Bs[k, x] == PadB(g, TILE * t + k, col);
      acc := MultiplyAdd(g, row, col, TILE * t + k, acc, As[y, k], Bs[k, x]);
    }
  }

  /** The accumulators of the threads in `todo` have seen `n` terms, those of the others `m`. */
  ghost predicate Sums(g: Job, acc: array2<real>, br: nat, bc: nat, todo: set<(nat, nat)>, n: nat, m: nat)
    requires Sized(g) && acc.Length0 == acc.Length1 == TILE
    reads acc
  {
    forall y: nat, x: nat :: y < TILE && x < TILE ==>
      acc[y, x] == Dot(g, TILE * br + y, TILE * bc + x, if (y, x) in todo then n else m)
  }

  method AccumulatePhase(g: Job, As: array2<real>, Bs: array2<real>, acc: array2<real>, br: nat, bc: nat, t: nat)
    requires Sized(g) && As.Length0 == As.Length1 == Bs.Length0 == Bs.Length1 == TILE
    requires acc.Length0 == acc.Length1 == TILE && acc != As && acc != Bs
    requires Loaded(g, As, Bs, br, bc, t, {}) && Sums(g, acc, br, bc, {}, 0, TILE * t)
    modifies acc
    ensures Sums(g, acc, br, bc, {}, 0, TILE * (t + 1))
  {
    var todo := AllPairs(TILE, TILE);
    while todo != {}
      invariant forall y: nat, x: nat :: (y, x) in todo ==> y < TILE && x < TILE
      invariant Sums(g, acc, br, bc, todo, TILE * t, TILE * (t + 1))
    {
      var thread :| thread in todo;
      var (y, x) := thread;
      var v := TileProduct(g, As, Bs, br, bc, t, y, x, acc[y, x]);
      acc[y, x] := v;
      todo := todo - {thread};
    }
  }

  /** The last step of every thread: `if (row < M && col < N) C[row * N + col] = acc`. */
  method StorePhase(g: Job, acc: array2<real>, C: array<real>, br: nat, bc: nat)
    requires Sized(g) && C.Length == g.M * g.N && acc.Length0 == acc.Length1 == TILE
    requires forall y: nat, x: nat :: y < TILE && x < TILE ==> acc[y, x] == Dot(g, TILE * br + y, TILE * bc + x, g.K)
    modifies C
    ensures BlockDone(g, old(C[..]), C[..], br, bc, {})
  {
    var todo := AllPairs(TILE, TILE);
    while todo != {}
      invariant forall y: nat, x: nat :: (y, x) in todo ==> y < TILE && x < TILE
      invariant BlockDone(g, old(C[..]), C[..], br, bc, todo)
    {
      var thread :| thread in todo;
      var (y, x) := thread;
      var row, col := TILE * br + y, TILE * bc + x;
      ghost var before := C[..];
      if row < g.M && col < g.N {
        StoreCell(C, g.M, g.N, row, col, acc[y, x]);
      }
      ThreadAdvances(g, old(C[..]), before, C[..], br, bc, todo, y, x);
      todo := todo - {thread};
    }
  }

  method TiledBlock(g: Job, C: array<real>, br: nat, bc: nat)
    requires Fits(g) && C.Length == g.M * g.N
    requires TILE * br < g.M && TILE * bc < g.N
    modifies C
    ensures BlockDone(g, old(C[..]), C[..], br, bc, {})
  {
    var As, Bs := new real[TILE, TILE], new real[TILE, TILE];
    var acc := new real[TILE, TILE]((_, _) => 0.0);
    assert TILE * br + 15 <= INT_MAX && TILE * bc + 15 <= INT_MAX && g.K + 15 <= INT_MAX;
    var tiles := Blocks(g.K);
    for t := 0 to tiles
      invariant Sums(g, acc, br, bc, {}, 0, TILE * t)
      invariant C[..] == old(C[..])
    {
      LoadPhase(g, As, Bs, br, bc, t);
      AccumulatePhase(g, As, Bs, acc, br, bc, t);
    }
    forall y: nat, x: nat | y < TILE && x < TILE
      ensures acc[y, x] == Dot(g, TILE * br + y, TILE * bc + x, g.K)
    {
      PaddingIsZero(g, TILE * br + y, TILE * bc + x, TILE * tiles);
    }
    StorePhase(g, acc, C, br, bc);
  }

  method NaiveBlock(g: Job, C: array<real>, br: nat, bc: nat)
    requires Fits(g) && C.Length == g.M * g.N
    requires TILE * br < g.M && TILE * bc < g.N
    modifies C
    ensures BlockDone(g, old(C[..]), C[..], br, bc, {})
  {
    assert TILE * br + 15 <= INT_MAX && TILE * bc + 15 <= INT_MAX;
    var todo := AllPairs(TILE, TILE);
    while todo != {}
      invariant forall y: nat, x: nat :: (y, x) in todo ==> y < TILE && x < TILE
      invariant BlockDone(g, old(C[..]), C[..], br, bc, todo)
    {
      var thread :| thread in todo;
      var (y, x) := thread;
      var row, col := TILE * br + y, TILE * bc + x;
      ghost var before := C[..];
      NaiveThread(g, C, row, col);
      ThreadAdvances(g, old(C[..]), before, C[..], br, bc, todo, y, x);
      todo := todo - {thread};
    }
  }

  method NaiveThread(g: Job, C: array<real>, row: nat, col: nat)
    requires Sized(g) && C.Length == g.M * g.N
    modifies C
    ensures ThreadDone(g, old(C[..]), C[..], row, col)
  {
    if row >= g.M || col >= g.N {
      return;
    }
    var acc := RowTimesColumn(g, row, col);
    StoreCell(C, g.M, g.N, row, col, acc);
  }

  // ----- the grid

  /** Blocks needed along a side of `n` cells: `(n + kTile - 1) / kTile`. */
  function Blocks(n: nat): nat {
    (n + TILE - 1) / TILE
  }

  /** Every cell is finished or its block has yet to run. */
  ghost predicate GridState(g: Job, C: seq<real>, todo: set<(nat, nat)>)
    requires Sized(g) && |C| == g.M * g.N
  {
    forall i: nat, j: nat :: i < g.M && j < g.N && (i / TILE, j / TILE) !in todo ==> CellIs(g, C, i, j)
  }

  lemma BlockAdvances(g: Job, before: seq<real>, after: seq<real>, br: nat, bc: nat, todo: set<(nat, nat)>)
    requires Sized(g) && |before| == |after| == g.M * g.N
    requires GridState(g, before, todo) && BlockDone(g, before, after, br, bc, {})
    ensures GridState(g, after, todo - {(br, bc)})
  {
    forall i: nat, j: nat | i < g.M && j < g.N && (i / TILE, j / TILE) !in todo - {(br, bc)}
      ensures CellIs(g, after, i, j)
    {
      if i / TILE == br && j / TILE == bc {
        assert InBlock(br, bc, i, j);
      }
    }
  }

  /** All blocks, in any order; every cell belongs to exactly one of them. */
  method GemmGrid(g: Job, C: array<real>, tiled: bool)
    requires Fits(g) && C.Length == g.M * g.N
    modifies C
    ensures IsProduct(g, C[..])
  {
    var todo := AllPairs(Blocks(g.M), Blocks(g.N));
    while todo != {}
      invariant forall br: nat, bc: nat :: (br, bc) in todo ==> br < Blocks(g.M) && bc < Blocks(g.N)
      invariant GridState(g, C[..], todo)
    {
      var block :| block in todo;
      var (br, bc) := block;
      ghost var before := C[..];
      if tiled {
        TiledBlock(g, C, br, bc);
      } else {
        NaiveBlock(g, C, br, bc);
      }
      BlockAdvances(g, before, C[..], br, bc, todo);
      todo := todo - {block};
    }
  }

  /** `launch_gemm_naive` and `launch_gemm_tiled` for non-null pointers. */
  method LaunchGemm(g: Job, M: int, N: int, K: int, C: array<real>, tiled: bool) returns (status: Status)
    requires M > 0 && N > 0 && K >= 0 ==> M == g.M && N == g.N && K == g.K && Fits(g) && C.Length == g.M * g.N
    modifies C
    ensures status.Success? <==> M >= 0 && N >= 0 && K >= 0
    ensures status.Success? && M > 0 && N > 0 ==> IsProduct(g, C[..])
    ensures status.InvalidValue? || M == 0 || N == 0 ==> C[..] == old(C[..])
  {
    if M < 0 || N < 0 || K < 0 {
      return InvalidValue;
    }
    if M == 0 || N == 0 {
      return Success;
    }
    GemmGrid(g, C, tiled);
    status := Success;
  }

  /** The two kernels and the reference agree on every job that fits, K = 0 and ragged edges included. */
  method AllThreeAgree(g: Job) returns (naive: array<real>, tiled: array<real>, reference: array<real>)
    requires Fits(g)
    ensures naive[..] == tiled[..] == reference[..] && IsProduct(g, tiled[..])
  {
    naive, tiled, reference := new real[g.M * g.N], new real[g.M * g.N], new real[g.M * g.N];
    var s1 := LaunchGemm(g, g.M, g.N, g.K, naive, false);
    var s2 := LaunchGemm(g, g.M, g.N, g.K, tiled, true);
    CpuGemm(g, reference);
    assert IsProduct(g, naive[..]) && IsProduct(g, tiled[..]);
    ProductIsUnique(g, naive[..], tiled[..]);
    ProductIsUnique(g, tiled[..], reference[..]);
  }

  // ----- the identity matrix

  ghost predicate IsIdentity(B: seq<real>, n: nat) {
    |B| == n * n && forall i: nat, j: nat :: i < n && j < n ==> Cell(B, n, n, i, j) == if i == j then 1.0 else 0.0
  }

  lemma {:induction false} DotIdentity(g: Job, row: nat, col: nat, n: nat)
    requires Sized(g) && g.K == g.N && IsIdentity(g.B, g.N) && row < g.M && col < g.N && n <= g.K
    ensures Dot(g, row, col, n) == if col < n then PadA(g, row, col) else 0.0
  {
    if n == 0 {
    } else {
      DotIdentity(g, row, col, n - 1);
      assert PadB(g, n - 1, col) == if n - 1 == col then 1.0 else 0.0;
    }
  }

  /** Multiplying by the identity gives the matrix back. */
  lemma TimesIdentity(g: Job, C: seq<real>)
    requires Sized(g) && g.K == g.N && IsIdentity(g.B, g.N) && IsProduct(g, C)
    ensures C == g.A
  {
    forall i: nat, j: nat | i < g.M && j < g.N
      ensures Cell(C, g.M, g.N, i, j) == Cell(g.A, g.M, g.N, i, j)
    {
      assert CellIs(g, C, i, j);
      DotIdentity(g, i, j, g.K);
    }
    SameCells(C, g.A, g.M, g.N);
  }
}

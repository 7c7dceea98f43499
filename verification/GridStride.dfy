/** Grid-stride loops: which thread visits which index, and when the 32-bit index overflows. */
module GridStride {
  import opened Arithmetic
  import opened Sums

  /** Both are what C++ makes of them: the wrapped value differs by a multiple of 2^32, the quotient rounds to zero. */
  lemma MachineArithmetic(x: int, a: int, b: int)
    requires b > 0
    ensures -0x8000_0000 <= Wrap32(x) <= INT_MAX && (Wrap32(x) - x) % TWO32 == 0
    ensures var q := TruncDiv(a, b);
      if a >= 0 then q >= 0 && 0 <= a - q * b < b else q <= 0 && 0 <= q * b - a < b
  {
    WrapsByMultiple(x);
    if a >= 0 {
      DivBounds(a, b);
    } else {
      DivBounds(-a, b);
      assert TruncDiv(a, b) * b == -(-a / b * b);
    }
  }

  lemma WrapsByMultiple(x: int)
    ensures (Wrap32(x) - x) % TWO32 == 0
  {
  }

  lemma DivBounds(a: nat, b: nat)
    requires b > 0
    ensures 0 <= a / b && 0 <= a - a / b * b < b
  {
  }

  /** `blocks_for`, on a wrapping `int`. */
  function BlocksFor(n: nat, block: nat): (grid: nat)
    requires block > 0
    ensures 1 <= grid <= 65535
  {
    var cover := TruncDiv(Wrap32(n + block - 1), block);
    if cover < 1 then 1 else if cover > 65535 then 65535 else cover
  }

  /** Enough blocks unless capped and none too many; but a single block when the rounding overflows. */
  lemma BlocksCover(n: nat, block: nat)
    requires n <= INT_MAX && 0 < block <= INT_MAX
    ensures var grid := BlocksFor(n, block);
      if n + block - 1 <= INT_MAX then
        (grid * block >= n || grid == 65535) && (grid > 1 ==> (grid - 1) * block < n)
      else grid == 1
  {
    if n + block - 1 <= INT_MAX {
      var cover := (n + block - 1) / block;
      assert BlocksFor(n, block) == if cover < 1 then 1 else if cover > 65535 then 65535 else cover;
      CoverIsTight(n, block);
      if cover > 65535 {
        Grows(65534, cover - 1, block);
      }
    } else {
      assert Wrap32(n + block - 1) < 0;
      NegativeDiv(Wrap32(n + block - 1), block);
    }
  }

  lemma NegativeDiv(a: int, b: int)
    requires a < 0 < b
    ensures TruncDiv(a, b) <= 0
  {
  }

  lemma CoverIsTight(n: nat, block: nat)
    requires block > 0
    ensures var cover := (n + block - 1) / block; cover * block >= n && (cover > 0 ==> (cover - 1) * block < n)
  {
    var cover := (n + block - 1) / block;
    assert n + block - 1 == cover * block + (n + block - 1) % block;
    assert (cover - 1) * block == cover * block - block;
  }

  /** The indices of thread `g`, in order, without machine arithmetic. */
  function Visited(g: nat, stride: nat, n: nat): seq<nat>
    requires stride > 0
    decreases n - g
  {
    if g >= n then [] else [g] + Visited(g + stride, stride, n)
  }

  lemma {:induction false} VisitedAt(g: nat, stride: nat, n: nat, k: nat)
    requires stride > 0
    ensures k < |Visited(g, stride, n)| <==> g + k * stride < n
    ensures k < |Visited(g, stride, n)| ==> Visited(g, stride, n)[k] == g + k * stride
    decreases n - g
  {
    if g >= n {
      assert k * stride >= 0;
    } else if k > 0 {
      VisitedAt(g + stride, stride, n, k - 1);
      assert (k - 1) * stride == k * stride - stride;
    } else {
      assert 0 * stride == 0;
    }
  }

  /** Every index below `n` is visited by exactly one thread, in exactly one iteration. */
  lemma VisitedExactlyOnce(stride: nat, n: nat, i: nat)
    requires stride > 0 && i < n
    ensures i / stride < |Visited(i % stride, stride, n)| && Visited(i % stride, stride, n)[i / stride] == i
    ensures forall g: nat, k: nat :: g < stride && k < |Visited(g, stride, n)| && Visited(g, stride, n)[k] == i ==>
      g == i % stride && k == i / stride
  {
    assert i == i % stride + i / stride * stride;
    VisitedAt(i % stride, stride, n, i / stride);
    forall g: nat, k: nat | g < stride && k < |Visited(g, stride, n)| && Visited(g, stride, n)[k] == i
      ensures g == i % stride && k == i / stride
    {
      VisitedAt(g, stride, n, k);
      SameSplit(i % stride, i / stride, g, k, stride);
    }
  }

  // ----- 32-bit arithmetic

  /** No thread's `i += stride` leaves the range of `int`. */
  ghost predicate NoOverflow(stride: nat, n: nat)
    requires stride > 0
  {
    forall g: nat, k: nat :: g < stride && k < |Visited(g, stride, n)| ==> Visited(g, stride, n)[k] + stride <= INT_MAX
  }

  /** The loop variable stays an `int` exactly when the last index plus the stride does. */
  lemma NoOverflowIff(stride: nat, n: nat)
    requires 0 < stride && 0 < n
    ensures NoOverflow(stride, n) <==> n - 1 + stride <= INT_MAX
  {
    VisitedExactlyOnce(stride, n, n - 1);
    if n - 1 + stride <= INT_MAX {
      forall g: nat, k: nat | g < stride && k < |Visited(g, stride, n)|
        ensures Visited(g, stride, n)[k] + stride <= INT_MAX
      {
        VisitedAt(g, stride, n, k);
      }
    }
  }

  /** In its `k`-th iteration thread `g` steps to a negative index, which passes `i < n` and misses the buffer. */
  ghost predicate Escapes(g: nat, k: nat, stride: nat, n: nat)
    requires stride > 0
  {
    g < stride && k < |Visited(g, stride, n)| && Wrap32(Visited(g, stride, n)[k] + stride) < 0
  }

  /** Overflow is not benign: exactly when the last index plus the stride leaves `int`, some thread escapes. */
  lemma EscapesIff(stride: nat, n: nat)
    requires 0 < stride <= INT_MAX && 0 < n <= INT_MAX
    ensures (exists g: nat, k: nat :: Escapes(g, k, stride, n)) <==> n - 1 + stride > INT_MAX
  {
    if n - 1 + stride > INT_MAX {
      LastEscapes(stride, n);
    } else {
      forall g: nat, k: nat {
        NobodyEscapes(g, k, stride, n);
      }
    }
  }

  lemma LastEscapes(stride: nat, n: nat)
    requires 0 < stride <= INT_MAX && 0 < n <= INT_MAX && n - 1 + stride > INT_MAX
    ensures Escapes((n - 1) % stride, (n - 1) / stride, stride, n)
  {
    VisitedExactlyOnce(stride, n, n - 1);
  }

  lemma NobodyEscapes(g: nat, k: nat, stride: nat, n: nat)
    requires 0 < stride && n - 1 + stride <= INT_MAX
    ensures !Escapes(g, k, stride, n)
  {
    VisitedAt(g, stride, n, k);
  }

  /** The launchers' arguments for which neither `n + block - 1` nor any `i += stride` overflows. */
  predicate LaunchFits(n: nat, block: nat)
    requires block > 0
  {
    n + BlocksFor(n, block) * block <= INT_MAX + 1
  }

  lemma FitsMeansNoOverflow(n: nat, block: nat)
    requires 0 < n && 0 < block
    ensures LaunchFits(n, block) ==> n + block - 1 <= INT_MAX
    ensures LaunchFits(n, block) <==> NoOverflow(BlocksFor(n, block) * block, n)
  {
    Grows(1, BlocksFor(n, block), block);
    NoOverflowIff(BlocksFor(n, block) * block, n);
  }

  /** On the launcher's own arguments: the kernel leaves its buffer exactly when the launch does not fit. */
  lemma LaunchEscapesIff(n: nat, block: nat)
    requires 0 < n <= INT_MAX && 0 < block <= 1024
    ensures !LaunchFits(n, block) <==> exists g: nat, k: nat :: Escapes(g, k, BlocksFor(n, block) * block, n)
  {
    Grows(1, BlocksFor(n, block), block);
    Grows(BlocksFor(n, block), 65535, block);
    EscapesIff(BlocksFor(n, block) * block, n);
  }

  /** The largest size the launchers accept does overflow; sizes that leave room for one full grid do not. */
  lemma OverflowExample(n: nat, block: nat)
    requires 0 < block <= 1024
    ensures !LaunchFits(INT_MAX, block)
    ensures n + 65535 * block <= INT_MAX ==> LaunchFits(n, block)
  {
    Grows(1, BlocksFor(INT_MAX, block), block);
    Grows(BlocksFor(n, block), 65535, block);
  }

  /** The loop as the kernels write it, on a wrapping `int`. */
  method StrideLoop(g: nat, stride: nat, n: nat) returns (visits: seq<nat>)
    requires g < stride && n + stride <= INT_MAX + 1
    ensures visits == Visited(g, stride, n)
  {
    visits := [];
    var i: int := g;
    while i < n
      invariant 0 <= i <= INT_MAX
      invariant visits + Visited(i, stride, n) == Visited(g, stride, n)
      decreases n - i
    {
      visits := visits + [i];
      i := Wrap32(i + stride);
    }
  }

  // ----- sums over strides

  /** What thread `g` adds up: `v[g] + v[g + stride] + ...`. */
  function StrideSum(v: seq<int>, g: nat, stride: nat): int
    requires stride > 0
    decreases |v| - g
  {
    if g >= |v| then 0 else v[g] + StrideSum(v, g + stride, stride)
  }

  /** The sums of `count` neighbouring threads, the first starting at `lo`. */
  function ThreadSums(v: seq<int>, lo: nat, count: nat, stride: nat): seq<int>
    requires stride > 0
  {
    seq(count, j requires 0 <= j < count => StrideSum(v, lo + j, stride))
  }

  lemma IdleThreads(v: seq<int>, lo: nat, count: nat, stride: nat)
    requires stride > 0 && lo >= |v|
    ensures Sum(ThreadSums(v, lo, count, stride)) == 0
  {
    var xs := ThreadSums(v, lo, count, stride);
    forall i | 0 <= i < |xs| ensures xs[i] == 0 {
      assert StrideSum(v, lo + i, stride) == 0;
    }
    SumBetween(xs, 0, 0);
  }

  /** Shifting the window by one thread trades `v[lo] + rest` for `rest`. */
  lemma ShiftThreads(v: seq<int>, lo: nat, stride: nat)
    requires stride > 0 && lo < |v|
    ensures Sum(ThreadSums(v, lo, stride, stride)) == v[lo] + Sum(ThreadSums(v, lo + 1, stride, stride))
  {
    var first, last := StrideSum(v, lo, stride), StrideSum(v, lo + stride, stride);
    var middle := ThreadSums(v, lo + 1, stride - 1, stride);
    assert ThreadSums(v, lo, stride, stride) == [first] + middle;
    assert ThreadSums(v, lo + 1, stride, stride) == middle + [last];
    SumConcat([first], middle);
    SumConcat(middle, [last]);
    SumOfOne(first);
    SumOfOne(last);
  }

  lemma SumFront(v: seq<int>, lo: nat)
    requires lo < |v|
    ensures Sum(v[lo..]) == v[lo] + Sum(v[lo + 1..])
  {
    assert v[lo..] == [v[lo]] + v[lo + 1..];
    SumConcat([v[lo]], v[lo + 1..]);
    SumOfOne(v[lo]);
  }

  /** All threads together add up everything, each element once. */
  lemma {:induction false} ThreadsAddUp(v: seq<int>, lo: nat, stride: nat)
    requires stride > 0 && lo <= |v|
    ensures Sum(ThreadSums(v, lo, stride, stride)) == Sum(v[lo..])
    decreases |v| - lo
  {
    if lo == |v| {
      IdleThreads(v, lo, stride, stride);
    } else {
      ThreadsAddUp(v, lo + 1, stride);
      ShiftThreads(v, lo, stride);
      SumFront(v, lo);
    }
  }

  lemma SumOfOne(x: int)
    ensures Sum([x]) == x
  {
    assert [x][..0] == [];
  }

  /** Grouping the threads of a grid into blocks does not change the sum. */
  function BlockSums(xs: seq<int>, grid: nat, block: nat): seq<int>
    requires |xs| == grid * block
  {
    seq(grid, b requires 0 <= b < grid => BlockSum(xs, grid, block, b))
  }

  function BlockSum(xs: seq<int>, grid: nat, block: nat, b: nat): int
    requires |xs| == grid * block && b < grid
  {
    BlockEnds(grid, block, b);
    Sum(xs[b * block..(b + 1) * block])
  }

  lemma BlockEnds(grid: nat, block: nat, b: nat)
    requires b < grid
    ensures 0 <= b * block <= (b + 1) * block <= grid * block && (b + 1) * block == b * block + block
  {
    Grows(b + 1, grid, block);
  }

  lemma HeadBlock(xs: seq<int>, grid: nat, block: nat, b: nat)
    requires b + 1 < grid && |xs| == grid * block
    ensures 0 <= (grid - 1) * block <= |xs|
    ensures BlockSums(xs, grid, block)[b] == BlockSums(xs[..(grid - 1) * block], grid - 1, block)[b]
  {
    BlockEnds(grid, block, grid - 1);
    BlockEnds(grid, block, b);
    BlockEnds(grid - 1, block, b);
    assert xs[..(grid - 1) * block][b * block..(b + 1) * block] == xs[b * block..(b + 1) * block];
  }

  /** Leaving out the last block. */
  lemma LastBlock(xs: seq<int>, grid: nat, block: nat, cut: nat)
    requires grid > 0 && |xs| == grid * block && cut == (grid - 1) * block
    ensures cut <= |xs|
    ensures Sum(BlockSums(xs, grid, block)) == Sum(BlockSums(xs[..cut], grid - 1, block)) + Sum(xs[cut..])
  {
    BlockEnds(grid, block, grid - 1);
    var sums, head := BlockSums(xs, grid, block), BlockSums(xs[..cut], grid - 1, block);
    forall b: nat | b < grid - 1 ensures sums[b] == head[b] {
      HeadBlock(xs, grid, block, b);
    }
    assert sums[..grid - 1] == head;
    assert xs[cut..cut + block] == xs[cut..];
  }

  lemma {:induction false} BlocksAddUp(xs: seq<int>, grid: nat, block: nat)
    requires |xs| == grid * block
    ensures Sum(BlockSums(xs, grid, block)) == Sum(xs)
  {
    if grid == 0 {
      NoBlocks(xs, block);
    } else {
      var cut := BlockCut(grid, block);
      LastBlock(xs, grid, block, cut);
      BlocksAddUp(xs[..cut], grid - 1, block);
      assert xs == xs[..cut] + xs[cut..];
      SumConcat(xs[..cut], xs[cut..]);
    }
  }

  lemma NoBlocks(xs: seq<int>, block: nat)
    requires |xs| == 0 * block
    ensures Sum(BlockSums(xs, 0, block)) == Sum(xs)
  {
    assert 0 * block == 0;
  }

  lemma BlockCut(grid: nat, block: nat) returns (cut: nat)
    requires grid > 0
    ensures cut == (grid - 1) * block
  {
    cut := (grid - 1) * block;
  }
}

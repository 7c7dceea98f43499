/**
 * The tree reduction against `cpu_reduce_sum`. A block is a sequence of phases separated by
 * barriers; inside a phase its threads run in an arbitrary order, and the blocks' atomic
 * additions to the result arrive in an arbitrary order too.
 */
module Reduce {
  import opened Arithmetic
  import opened GridStride
  import opened Sums
  import opened Threads

  ghost predicate Words(v: seq<int>) {
    forall i :: 0 <= i < |v| ==> 0 <= v[i] < TWO32
  }

  /** `a += b` on 64 bits, where it does not wrap. */
  method Add64(a: int, b: int) returns (r: int)
    requires 0 <= a + b < TWO64
    ensures r == a + b
  {
    r := (a + b) % TWO64;
  }

  // ----- the reference

  method CpuReduceSum(v: seq<int>) returns (s: int)
    requires Words(v)
    ensures s == Sum(v) % TWO64
    ensures |v| <= INT_MAX ==> s == Sum(v)
  {
    s := 0;
    for i := 0 to |v|
      invariant s == Sum(v[..i]) % TWO64
    {
      assert v[..i + 1][..i] == v[..i];
      AddMod64(Sum(v[..i]), v[i]);
      s := (s + v[i]) % TWO64;
    }
    assert v[..|v|] == v;
    if |v| <= INT_MAX {
      WordsSum(v);
    }
  }

  /** No 64-bit wrap: fewer than 2^31 words of less than 2^32. */
  lemma WordsSum(v: seq<int>)
    requires Words(v) && |v| <= INT_MAX
    ensures 0 <= Sum(v) < TWO64
  {
    SumBetween(v, 0, TWO32 - 1);
    assert |v| * (TWO32 - 1) <= INT_MAX * (TWO32 - 1);
  }

  // ----- is_pow2

  /** Bitwise and of two non-negative numbers. */
  function And(a: nat, b: nat): nat {
    if a == 0 || b == 0 then 0 else 2 * And(a / 2, b / 2) + a % 2 * (b % 2)
  }

  predicate PowerOfTwo(v: nat) {
    v == 1 || (v > 0 && v % 2 == 0 && PowerOfTwo(v / 2))
  }

  lemma {:induction false} AndSelf(a: nat)
    ensures And(a, a) == a
  {
    if a == 0 {
    } else {
      AndSelf(a / 2);
      if a % 2 == 0 {
        assert And(a, a) == 2 * And(a / 2, a / 2);
      } else {
        assert And(a, a) == 2 * And(a / 2, a / 2) + 1;
      }
    }
  }

  /** The bit trick `(v & (v - 1)) == 0` recognises exactly the powers of two. */
  lemma {:induction false} BitTrick(v: nat)
    requires v > 0
    ensures And(v, v - 1) == 0 <==> PowerOfTwo(v)
  {
    if v > 1 {
      if v % 2 == 0 {
        BitTrick(v / 2);
        assert (v - 1) / 2 == v / 2 - 1 && (v - 1) % 2 == 1;
      } else {
        AndSelf(v / 2);
        assert (v - 1) / 2 == v / 2 && (v - 1) % 2 == 0;
      }
    }
  }

  predicate IsPow2(v: int) {
    v > 0 && And(v, v - 1) == 0
  }

  // ----- the tree

  function Halve(p: seq<int>): seq<int> {
    var s := |p| / 2;
    seq(s, i requires 0 <= i < s => p[i] + p[i + s])
  }

  /** What the halving loop leaves in cell 0. */
  function TreeFold(p: seq<int>): int
    requires |p| > 0
    decreases |p|
  {
    if |p| == 1 then p[0] else TreeFold(Halve(p))
  }

  lemma {:induction false} SumPairs(a: seq<int>, b: seq<int>, c: seq<int>)
    requires |a| == |b| == |c| && forall i :: 0 <= i < |c| ==> c[i] == a[i] + b[i]
    ensures Sum(c) == Sum(a) + Sum(b)
  {
    if |c| == 0 {
    } else {
      var n := |c| - 1;
      SumPairs(a[..n], b[..n], c[..n]);
    }
  }

  lemma HalveSum(p: seq<int>, s: nat)
    requires s == |p| / 2
    ensures Sum(Halve(p)) == Sum(p[..2 * s])
  {
    var a, b := p[..s], p[s..2 * s];
    SumPairs(a, b, Halve(p));
    SumConcat(a, b);
    assert p[..2 * s] == a + b;
  }

  /** A halving step keeps the sum, except for the last cell of an odd prefix, which it drops. */
  lemma HalveKeepsSum(p: seq<int>)
    requires |p| > 0
    ensures Sum(Halve(p)) == Sum(p) - (if |p| % 2 == 1 then p[|p| - 1] else 0)
  {
    var s := |p| / 2;
    HalveSum(p, s);
    if |p| % 2 == 1 {
      SumDropLast(p, 2 * s);
    } else {
      assert p[..2 * s] == p;
    }
  }

  lemma SumDropLast(p: seq<int>, n: nat)
    requires |p| == n + 1
    ensures Sum(p) == Sum(p[..n]) + p[n]
  {
  }

  lemma {:induction false} TreeFoldIsSum(p: seq<int>)
    requires |p| > 0 && PowerOfTwo(|p|)
    ensures TreeFold(p) == Sum(p)
    decreases |p|
  {
    if |p| == 1 {
      assert p == [p[0]];
      SumOfOne(p[0]);
    } else {
      HalveKeepsSum(p);
      TreeFoldIsSum(Halve(p));
    }
  }

  /** The launcher's power-of-two check is exactly what the tree needs. */
  lemma {:induction false} TreeNeedsPowerOfTwo(n: nat) returns (p: seq<int>)
    requires n > 0 && !PowerOfTwo(n)
    ensures |p| == n && (forall i :: 0 <= i < n ==> p[i] in {0, 1}) && Sum(p) == 1 && TreeFold(p) == 0
  {
    if n % 2 == 1 {
      var zeros: seq<int> := seq(n - 1, _ => 0);
      p := zeros + [1];
      SumConcat(zeros, [1]);
      SumOfOne(1);
      SumBetween(zeros, 0, 0);
      ZeroTree(Halve(p));
    } else {
      var q := TreeNeedsPowerOfTwo(n / 2);
      var zeros: seq<int> := seq(n / 2, _ => 0);
      p := q + zeros;
      SumConcat(q, zeros);
      SumBetween(zeros, 0, 0);
      assert Halve(p) == q;
    }
  }

  lemma {:induction false} ZeroTree(p: seq<int>)
    requires |p| > 0 && forall i :: 0 <= i < |p| ==> p[i] == 0
    ensures TreeFold(p) == 0
    decreases |p|
  {
    if |p| > 1 {
      ZeroTree(Halve(p));
    }
  }

  // ----- one block

  ghost predicate NonNegative(p: seq<int>) {
    forall i :: 0 <= i < |p| ==> 0 <= p[i]
  }

  /** One pass `if (threadIdx.x < s) partial[tid] += partial[tid + s]`, the threads in any order. */
  method HalvingPhase(partial: array<int>, s: nat, ghost live: nat)
    requires 0 < s == live / 2 && live <= partial.Length
    requires NonNegative(partial[..live]) && Sum(partial[..live]) < TWO64
    modifies partial
    ensures partial[..s] == Halve(old(partial[..live]))
  {
    ghost var before := partial[..];
    PairsFit(before, s, live);
    var todo := AllBelow(s);
    while todo != {}
      invariant forall i: nat :: i in todo ==> i < s
      invariant forall i: nat :: i in todo ==> partial[i] == before[i]
      invariant forall i: nat :: i < s && i !in todo ==> partial[i] == before[i] + before[i + s]
      invariant forall i :: s <= i < partial.Length ==> partial[i] == before[i]
    {
      var tid :| tid in todo;
      partial[tid] := Add64(partial[tid], partial[tid + s]);
      todo := todo - {tid};
    }
    HalvedPrefix(before, partial[..], s, live);
    assert old(partial[..live]) == before[..live];
  }

  lemma HalvedPrefix(before: seq<int>, after: seq<int>, s: nat, live: nat)
    requires s == live / 2 && live <= |before| == |after|
    requires forall i :: 0 <= i < s ==> after[i] == before[i] + before[i + s]
    ensures after[..s] == Halve(before[..live])
  {
    var h := Halve(before[..live]);
    forall i | 0 <= i < s ensures after[i] == h[i] {
      assert before[..live][i] == before[i] && before[..live][i + s] == before[i + s];
    }
  }

  lemma PairsFit(p: seq<int>, s: nat, live: nat)
    requires 0 < s == live / 2 && live <= |p| && NonNegative(p[..live]) && Sum(p[..live]) < TWO64
    ensures forall i :: 0 <= i < s ==> 0 <= p[i] + p[i + s] < TWO64
  {
    forall i | 0 <= i < s ensures 0 <= p[i] + p[i + s] < TWO64 {
      NoWrap(p, live, i, i + s);
    }
  }

  /** The 64-bit additions of a pass stay below the sum of the live prefix. */
  lemma NoWrap(p: seq<int>, live: nat, i: nat, j: nat)
    requires i < j < live <= |p| && NonNegative(p[..live]) && Sum(p[..live]) < TWO64
    ensures 0 <= p[i] + p[j] < TWO64
  {
    PairBelow(p[..live], i, j);
    assert p[..live][i] == p[i] && p[..live][j] == p[j];
  }

  lemma PairBelow(p: seq<int>, i: nat, j: nat)
    requires i < j < |p| && NonNegative(p)
    ensures p[i] + p[j] <= Sum(p)
  {
    SumUpdate(p, i, 0);
    SumOneTerm(p[i := 0], j);
  }

  lemma {:induction false} StrideSumBounds(v: seq<int>, g: nat, stride: nat)
    requires stride > 0 && Words(v)
    ensures 0 <= StrideSum(v, g, stride)
    ensures g <= |v| ==> StrideSum(v, g, stride) <= (|v| - g) * (TWO32 - 1)
    decreases |v| - g
  {
    if g >= |v| {
    } else {
      StrideSumBounds(v, g + stride, stride);
    }
  }

  /** The first loop of one thread, on a 64-bit accumulator. */
  method ThreadTotal(v: seq<int>, g: nat, stride: nat) returns (total: int)
    requires Words(v) && g < stride && |v| + stride <= INT_MAX + 1
    ensures total == StrideSum(v, g, stride)
  {
    StrideSumBounds(v, g, stride);
    total := 0;
    var i: int := g;
    while i < |v|
      invariant 0 <= i <= INT_MAX && 0 <= total
      invariant total + StrideSum(v, i, stride) == StrideSum(v, g, stride)
      decreases |v| - i
    {
      StrideSumBounds(v, i + stride, stride);
      total := Add64(total, v[i]);
      i := Wrap32(i + stride);
    }
  }

  lemma HalveBounds(p: seq<int>)
    requires |p| > 0 && NonNegative(p)
    ensures NonNegative(Halve(p)) && Sum(Halve(p)) <= Sum(p)
  {
    HalveKeepsSum(p);
  }

  /** Everything a block does up to its atomic addition. */
  method ReduceBlock(v: seq<int>, b: nat, block: nat, stride: nat) returns (r: int)
    requires Words(v) && 0 < block && b * block + block <= stride && |v| + stride <= INT_MAX + 1
    requires NonNegative(ThreadSums(v, b * block, block, stride))
    requires Sum(ThreadSums(v, b * block, block, stride)) < TWO64
    ensures r == TreeFold(ThreadSums(v, b * block, block, stride))
  {
    ghost var start := ThreadSums(v, b * block, block, stride);
    var partial := new int[block];
    var todo := AllBelow(block);
    while todo != {}
      invariant forall i: nat :: i in todo ==> i < block
      invariant forall i :: 0 <= i < block && i !in todo ==> partial[i] == start[i]
    {
      var tid :| tid in todo;
      partial[tid] := ThreadTotal(v, b * block + tid, stride);
      todo := todo - {tid};
    }
    ghost var live := block;
    var s := block / 2;
    assert partial[..live] == start;
    while s > 0
      invariant 1 <= live <= block && s == live / 2
      invariant NonNegative(partial[..live]) && Sum(partial[..live]) < TWO64
      invariant TreeFold(partial[..live]) == TreeFold(start)
      decreases s
    {
      HalveBounds(partial[..live]);
      HalvingPhase(partial, s, live);
      live := s;
      s := s / 2;
    }
    r := partial[0];
  }

  // ----- the grid

  /** A block's threads add up to no more than the input. */
  lemma BlockBounds(v: seq<int>, b: nat, grid: nat, block: nat)
    requires Words(v) && |v| <= INT_MAX && 0 < block && b < grid
    ensures b * block + block <= grid * block && grid * block > 0
    ensures var xs := ThreadSums(v, b * block, block, grid * block);
      NonNegative(xs) && Sum(xs) < TWO64
  {
    BlockEnds(grid, block, b);
    var all := ThreadSums(v, 0, grid * block, grid * block);
    var xs := ThreadSums(v, b * block, block, grid * block);
    forall g: nat {
      StrideSumBounds(v, g, grid * block);
    }
    assert all == all[..b * block] + xs + all[b * block + block..];
    SumConcat(all[..b * block] + xs, all[b * block + block..]);
    SumConcat(all[..b * block], xs);
    SumBetween0(all[..b * block]);
    SumBetween0(all[b * block + block..]);
    ThreadsAddUp(v, 0, grid * block);
    assert v[0..] == v;
    WordsSum(v);
  }

  function Arrived(sums: seq<int>, todo: set<nat>): seq<int> {
    seq(|sums|, b requires 0 <= b < |sums| => if b in todo then 0 else sums[b])
  }

  /** One block's addition arrives. */
  lemma OneArrives(sums: seq<int>, todo: set<nat>, b: nat)
    requires b in todo && b < |sums|
    ensures Sum(Arrived(sums, todo - {b})) == Sum(Arrived(sums, todo)) + sums[b]
  {
    var xs, ys := Arrived(sums, todo), Arrived(sums, todo - {b});
    forall i | 0 <= i < |sums| && i != b ensures ys[i] == xs[i] {}
    assert ys == xs[b := sums[b]];
    SumUpdate(xs, b, sums[b]);
  }

  /** The additions never wrap, in whatever order they arrive. */
  lemma ArrivedBounds(sums: seq<int>, todo: set<nat>)
    requires NonNegative(sums)
    ensures 0 <= Sum(Arrived(sums, todo)) <= Sum(sums)
  {
    SumBetween0(Arrived(sums, todo));
    SumShift(sums, Arrived(sums, todo), 0);
  }

  lemma BlockTotalBound(v: seq<int>, b: nat, grid: nat, block: nat)
    requires Words(v) && |v| <= INT_MAX && b < grid && 0 < block && PowerOfTwo(block) && grid * block > 0
    ensures 0 <= BlockSums(ThreadSums(v, 0, grid * block, grid * block), grid, block)[b]
  {
    BlockBounds(v, b, grid, block);
    BlockTotal(v, b, grid, block);
    FoldNonNegative(ThreadSums(v, b * block, block, grid * block));
  }

  lemma FoldNonNegative(p: seq<int>)
    requires |p| > 0 && PowerOfTwo(|p|) && NonNegative(p)
    ensures 0 <= TreeFold(p)
  {
    TreeFoldIsSum(p);
    SumBetween0(p);
  }

  lemma BlockSumsBounds(v: seq<int>, grid: nat, block: nat)
    requires Words(v) && |v| <= INT_MAX && 0 < grid && 0 < block && PowerOfTwo(block) && grid * block > 0
    ensures var sums := BlockSums(ThreadSums(v, 0, grid * block, grid * block), grid, block);
      NonNegative(sums) && Sum(sums) == Sum(v) < TWO64
  {
    var all := ThreadSums(v, 0, grid * block, grid * block);
    forall b: nat | b < grid {
      BlockTotalBound(v, b, grid, block);
    }
    BlocksAddUp(all, grid, block);
    ThreadsAddUp(v, 0, grid * block);
    assert v[0..] == v;
    WordsSum(v);
  }

  /** All blocks, in any order: each adds its cell 0 to the result with one atomic. */
  method ReduceGrid(v: seq<int>, grid: nat, block: nat) returns (out: int)
    requires Words(v) && |v| <= INT_MAX && 0 < grid && 0 < block && PowerOfTwo(block)
    requires |v| + grid * block <= INT_MAX + 1
    ensures out == Sum(v)
  {
    ghost var all := ThreadSums(v, 0, grid * block, grid * block);
    ghost var sums := BlockSums(all, grid, block);
    Grows(1, grid, block);
    BlockSumsBounds(v, grid, block);
    out := 0;
    var todo := AllBelow(grid);
    SumBetween(Arrived(sums, todo), 0, 0);
    while todo != {}
      invariant forall i: nat :: i in todo ==> i < grid
      invariant out == Sum(Arrived(sums, todo))
    {
      var b :| b in todo;
      BlockBounds(v, b, grid, block);
      var r := ReduceBlock(v, b, block, grid * block);
      BlockTotal(v, b, grid, block);
      OneArrives(sums, todo, b);
      ArrivedBounds(sums, todo - {b});
      out := Add64(out, r);
      todo := todo - {b};
    }
    assert Arrived(sums, {}) == sums;
  }

  lemma BlockTotal(v: seq<int>, b: nat, grid: nat, block: nat)
    requires b < grid && PowerOfTwo(block) && grid * block > 0
    ensures var all := ThreadSums(v, 0, grid * block, grid * block);
      BlockSums(all, grid, block)[b] == TreeFold(ThreadSums(v, b * block, block, grid * block))
  {
    BlockEnds(grid, block, b);
    var all := ThreadSums(v, 0, grid * block, grid * block);
    assert all[b * block..(b + 1) * block] == ThreadSums(v, b * block, block, grid * block);
    TreeFoldIsSum(ThreadSums(v, b * block, block, grid * block));
  }

  /** `launch_reduce_sum` for non-null pointers: exact for every block size it accepts. */
  method LaunchReduceSum(v: seq<int>, block: int) returns (status: Status, out: int)
    requires Words(v) && |v| <= INT_MAX
    requires 32 <= block <= 1024 && PowerOfTwo(block) ==> LaunchFits(|v|, block)
    ensures status.Success? <==> 32 <= block <= 1024 && PowerOfTwo(block)
    ensures status.Success? ==> out == Sum(v)
  {
    if block > 0 {
      BitTrick(block);
    }
    if !IsPow2(block) || block < 32 || block > 1024 {
      return InvalidValue, 0;
    }
    if |v| == 0 {
      return Success, 0;
    }
    out := ReduceGrid(v, BlocksFor(|v|, block), block);
    status := Success;
  }
}

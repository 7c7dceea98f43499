/**
 * The privatised 256-bin histogram against `cpu_histogram256`. Every atomic increment of a
 * shared bin and every atomic addition to a global bin is a step of its own, taken in any order.
 */
module Histogram {
  import opened Arithmetic
  import opened Bytes
  import opened GridStride
  import opened Sums
  import opened Threads

  function Marks(data: seq<Byte>, b: Byte): (r: seq<int>)
    ensures |r| == |data|
  {
    seq(|data|, i requires 0 <= i < |data| => if data[i] == b then 1 else 0)
  }

  /** How often `b` occurs. */
  function Count(data: seq<Byte>, b: Byte): int {
    Sum(Marks(data, b))
  }

  /** It is the byte's multiplicity in the input. */
  lemma {:induction false} CountIsMultiplicity(data: seq<Byte>, b: Byte)
    ensures Count(data, b) == multiset(data)[b]
  {
    if |data| == 0 {
    } else {
      var n := |data| - 1;
      CountIsMultiplicity(data[..n], b);
      CountSnoc(data, n, b);
      assert data[..n + 1] == data && data == data[..n] + [data[n]];
    }
  }

  lemma CountBounds(data: seq<Byte>, b: Byte)
    ensures 0 <= Count(data, b) <= |data|
  {
    SumBetween(Marks(data, b), 0, 1);
  }

  lemma CountSnoc(data: seq<Byte>, i: nat, b: Byte)
    requires i < |data|
    ensures Count(data[..i + 1], b) == Count(data[..i], b) + (if data[i] == b then 1 else 0)
  {
    assert Marks(data[..i + 1], b)[..i] == Marks(data[..i], b);
  }

  // ----- the reference

  method CpuHistogram256(data: seq<Byte>) returns (bins: array<int>)
    ensures fresh(bins) && bins.Length == 256
    ensures forall b: Byte :: bins[b] == Count(data, b) % TWO32
    ensures |data| < TWO32 ==> forall b: Byte :: bins[b] == multiset(data)[b]
  {
    bins := new int[256](_ => 0);
    for i := 0 to |data|
      invariant forall b: Byte :: bins[b] == Count(data[..i], b) % TWO32
    {
      var x := data[i];
      forall b: Byte {
        CountSnoc(data, i, b);
      }
      AddMod32(Count(data[..i], x), 1);
      bins[x] := (bins[x] + 1) % TWO32;
    }
    assert data[..|data|] == data;
    forall b: Byte ensures 0 <= Count(data, b) <= |data| && Count(data, b) == multiset(data)[b] {
      CountBounds(data, b);
      CountIsMultiplicity(data, b);
    }
  }

  function Counts(data: seq<Byte>): seq<int> {
    seq(256, b requires 0 <= b < 256 => Count(data, b))
  }

  /** The bins account for every input byte. */
  lemma {:induction false} BinsSumToLength(data: seq<Byte>)
    ensures Sum(Counts(data)) == |data|
  {
    if |data| == 0 {
      SumBetween(Counts(data), 0, 0);
    } else {
      var n := |data| - 1;
      var x := data[n];
      BinsSumToLength(data[..n]);
      assert data[..n + 1] == data;
      forall b | 0 <= b < 256 ensures Counts(data)[b] == Counts(data[..n])[b] + (if x == b then 1 else 0) {
        CountSnoc(data, n, b);
      }
      assert Counts(data) == Counts(data[..n])[x := Counts(data[..n])[x] + 1];
      SumUpdate(Counts(data[..n]), x, Counts(data[..n])[x] + 1);
    }
  }

  // ----- one block

  lemma NextSame(i: nat, cur: nat, block: nat)
    requires 0 < block && i % block == cur % block && cur <= i < cur + block
    ensures i == cur
  {
    assert i == i / block * block + i % block && cur == cur / block * block + cur % block;
    if i / block > cur / block {
      Grows(cur / block + 1, i / block, block);
    } else {
      Grows(i / block, cur / block, block);
    }
  }

  lemma NextResidue(cur: nat, block: nat)
    requires 0 < block
    ensures (cur + block) % block == cur % block
  {
    var q, r := cur / block, cur % block;
    assert cur + block == (q + 1) * block + r;
    SameSplit((cur + block) % block, (cur + block) / block, r, q + 1, block);
  }

  /** Between two steps of a thread there is no other index of its own. */
  lemma OnlyNext(cur: nat, block: nat)
    requires 0 < block
    ensures (cur + block) % block == cur % block
    ensures forall k: nat :: cur < k < cur + block ==> k % block != cur % block
  {
    NextResidue(cur, block);
    forall k: nat | cur < k < cur + block ensures k % block != cur % block {
      if k % block == cur % block {
        NextSame(k, cur, block);
      }
    }
  }

  /** Thread `tid` has cleared its cells below `upTo`, and no others. */
  ghost predicate Cleared(start: seq<int>, now: seq<int>, tid: nat, block: nat, upTo: int)
    requires 0 < block
  {
    && |start| == |now| == 256
    && forall k :: 0 <= k < 256 ==> now[k] == if k % block == tid && k < upTo then 0 else start[k]
  }

  lemma ClearStep(start: seq<int>, now: seq<int>, tid: nat, block: nat, i: nat)
    requires 0 < block && i < 256 && i % block == tid && Cleared(start, now, tid, block, i)
    ensures Cleared(start, now[i := 0], tid, block, i + block) && (i + block) % block == tid
  {
    OnlyNext(i, block);
  }

  /** One thread's share of clearing the shared bins. */
  method ClearThread(local: array<int>, tid: nat, block: nat)
    requires local.Length == 256 && tid < block <= 1024
    modifies local
    ensures Cleared(old(local[..]), local[..], tid, block, 256)
  {
    var i := tid;
    SmallResidue(tid, block);
    while i < 256
      invariant i % block == tid
      invariant Cleared(old(local[..]), local[..], tid, block, i)
    {
      ClearStep(old(local[..]), local[..], tid, block, i);
      local[i] := 0;
      i := i + block;
    }
  }

  lemma SmallResidue(tid: nat, block: nat)
    requires tid < block
    ensures tid % block == tid && forall k: nat :: k < tid ==> k % block != tid
  {
    forall k: nat | k <= tid ensures k % block == k {
      OwnResidue(k, block);
    }
  }

  lemma OwnResidue(k: nat, block: nat)
    requires k < block
    ensures k % block == k
  {
    SameSplit(k, 0, k % block, k / block, block);
  }

  method ClearPhase(local: array<int>, block: nat)
    requires local.Length == 256 && 0 < block <= 1024
    modifies local
    ensures forall i :: 0 <= i < 256 ==> local[i] == 0
  {
    var todo := AllBelow(block);
    while todo != {}
      invariant forall tid: nat :: tid in todo ==> tid < block
      invariant forall i: nat :: i < 256 && i % block !in todo ==> local[i] == 0
    {
      var tid :| tid in todo;
      ClearThread(local, tid, block);
      todo := todo - {tid};
    }
  }

  /** What the threads, standing at the indices `next`, have still to count for bin `b`. */
  function Rest(data: seq<Byte>, b: Byte, next: seq<nat>, stride: nat): seq<int>
    requires stride > 0
  {
    seq(|next|, t requires 0 <= t < |next| => StrideSum(Marks(data, b), next[t], stride))
  }

  lemma RestStep(data: seq<Byte>, b: Byte, next: seq<nat>, t: nat, stride: nat)
    requires stride > 0 && t < |next| && next[t] < |data|
    ensures Sum(Rest(data, b, next[t := next[t] + stride], stride))
         == Sum(Rest(data, b, next, stride)) - (if data[next[t]] == b then 1 else 0)
  {
    var xs := Rest(data, b, next, stride);
    var x := StrideSum(Marks(data, b), next[t] + stride, stride);
    assert Rest(data, b, next[t := next[t] + stride], stride) == xs[t := x];
    SumUpdate(xs, t, x);
  }

  lemma {:induction false} StrideMarks(data: seq<Byte>, b: Byte, g: nat, stride: nat)
    requires stride > 0
    ensures 0 <= StrideSum(Marks(data, b), g, stride)
    decreases |data| - g
  {
    if g >= |data| {
    } else {
      StrideMarks(data, b, g + stride, stride);
    }
  }

  lemma RestNonNegative(data: seq<Byte>, b: Byte, next: seq<nat>, stride: nat)
    requires stride > 0
    ensures 0 <= Sum(Rest(data, b, next, stride))
    ensures (forall t :: 0 <= t < |next| ==> next[t] >= |data|) ==> Sum(Rest(data, b, next, stride)) == 0
  {
    var xs := Rest(data, b, next, stride);
    forall t | 0 <= t < |next| ensures 0 <= xs[t] && (next[t] >= |data| ==> xs[t] == 0) {
      StrideMarks(data, b, next[t], stride);
    }
    SumBetween0(xs);
    SumZero(xs);
  }

  function Lag(n: nat, next: seq<nat>): seq<int> {
    seq(|next|, t requires 0 <= t < |next| => if next[t] < n then n - next[t] else 0)
  }

  lemma LagShrinks(n: nat, next: seq<nat>, t: nat, stride: nat)
    requires stride > 0 && t < |next| && next[t] < n
    ensures 0 <= Sum(Lag(n, next[t := next[t] + stride])) < Sum(Lag(n, next))
  {
    var xs, ys := Lag(n, next), Lag(n, next[t := next[t] + stride]);
    assert ys == xs[t := ys[t]];
    SumUpdate(xs, t, ys[t]);
    SumBetween0(ys);
  }

  /** One atomic increment by thread `t` keeps every bin's account balanced. */
  lemma CountStep(data: seq<Byte>, next: seq<nat>, t: nat, stride: nat, before: seq<int>, after: seq<int>,
      goal: seq<int>)
    requires stride > 0 && t < |next| && next[t] < |data| && |before| == 256 && |goal| == 256
    requires after == before[data[next[t]] := before[data[next[t]]] + 1]
    requires forall b: Byte :: before[b] + Sum(Rest(data, b, next, stride)) == goal[b]
    ensures forall b: Byte :: after[b] + Sum(Rest(data, b, next[t := next[t] + stride], stride)) == goal[b]
  {
    forall b: Byte ensures after[b] + Sum(Rest(data, b, next[t := next[t] + stride], stride)) == goal[b] {
      RestStep(data, b, next, t, stride);
    }
  }

  /** The counting phase: any thread may take the next step. */
  method CountPhase(data: seq<Byte>, local: array<int>, first: nat, block: nat, stride: nat, ghost goal: seq<int>)
    requires local.Length == 256 && 0 < block <= stride && first + block <= stride
    requires |data| + stride <= INT_MAX + 1
    requires |goal| == 256
    requires forall b: Byte :: goal[b] == Sum(ThreadSums(Marks(data, b), first, block, stride)) && goal[b] < TWO32
    requires forall b: Byte :: local[b] == 0
    modifies local
    ensures local[..] == goal
  {
    var next: seq<nat> := seq(block, t requires 0 <= t < block => first + t);
    forall b: Byte ensures Rest(data, b, next, stride) == ThreadSums(Marks(data, b), first, block, stride) {}
    SumBetween0(Lag(|data|, next));
    while exists t :: 0 <= t < |next| && next[t] < |data|
      invariant |next| == block
      invariant forall b: Byte :: local[..][b] + Sum(Rest(data, b, next, stride)) == goal[b]
      invariant 0 <= Sum(Lag(|data|, next))
      decreases Sum(Lag(|data|, next))
    {
      var t :| 0 <= t < |next| && next[t] < |data|;
      var x := data[next[t]];
      ghost var before := local[..];
      assert next[t] + stride <= INT_MAX;
      LagShrinks(|data|, next, t, stride);
      local[x] := local[x] + 1;
      assert local[..] == before[x := before[x] + 1];
      CountStep(data, next, t, stride, before, local[..], goal);
      next := next[t := next[t] + stride];
      RestNonNegative(data, x, next, stride);
      assert local[..][x] < TWO32;  // no 32-bit wrap
    }
    forall b: Byte {
      RestNonNegative(data, b, next, stride);
    }
    assert forall b :: 0 <= b < 256 ==> local[..][b as Byte] == goal[b];
  }

  // ----- the grid

  function BlockCount(data: seq<Byte>, b: Byte, k: nat, grid: nat, block: nat): int
    requires 0 < block && k < grid && grid * block > 0
  {
    Sum(ThreadSums(Marks(data, b), k * block, block, grid * block))
  }

  function BlockCounts(data: seq<Byte>, b: Byte, grid: nat, block: nat): seq<int>
    requires 0 < block && grid * block > 0
  {
    seq(grid, k requires 0 <= k < grid => BlockCount(data, b, k, grid, block))
  }

  /** The blocks' counts of a bin add up to its count. */
  lemma BlocksCountAll(data: seq<Byte>, b: Byte, grid: nat, block: nat)
    requires 0 < block && grid * block > 0
    ensures Sum(BlockCounts(data, b, grid, block)) == Count(data, b)
  {
    var all := ThreadSums(Marks(data, b), 0, grid * block, grid * block);
    forall k: nat | k < grid ensures BlockCount(data, b, k, grid, block) == BlockSums(all, grid, block)[k] {
      BlockEnds(grid, block, k);
      assert all[k * block..(k + 1) * block] == ThreadSums(Marks(data, b), k * block, block, grid * block);
    }
    assert BlockCounts(data, b, grid, block) == BlockSums(all, grid, block);
    BlocksAddUp(all, grid, block);
    ThreadsAddUp(Marks(data, b), 0, grid * block);
    assert Marks(data, b)[0..] == Marks(data, b);
  }

  lemma BlockCountNonNegative(data: seq<Byte>, b: Byte, k: nat, grid: nat, block: nat)
    requires 0 < block && grid * block > 0 && k < grid
    ensures 0 <= BlockCount(data, b, k, grid, block)
  {
    var ts := ThreadSums(Marks(data, b), k * block, block, grid * block);
    forall j | 0 <= j < |ts| ensures 0 <= ts[j] {
      StrideMarks(data, b, k * block + j, grid * block);
    }
    SumBetween0(ts);
  }

  lemma BlockCountBounded(data: seq<Byte>, b: Byte, k: nat, grid: nat, block: nat)
    requires 0 < block && grid * block > 0 && k < grid
    ensures 0 <= BlockCount(data, b, k, grid, block) <= |data|
  {
    var xs := BlockCounts(data, b, grid, block);
    forall j | 0 <= j < |xs| ensures 0 <= xs[j] {
      BlockCountNonNegative(data, b, j, grid, block);
    }
    SumOneTerm(xs, k);
    assert xs[k] == BlockCount(data, b, k, grid, block);
    BlocksCountAll(data, b, grid, block);
    CountBounds(data, b);
  }

  method HistogramBlock(data: seq<Byte>, k: nat, grid: nat, block: nat) returns (bins: seq<int>)
    requires 0 < block <= 1024 && k < grid && grid * block > 0 && |data| + grid * block <= INT_MAX + 1
    ensures |bins| == 256 && forall b: Byte :: bins[b] == BlockCount(data, b, k, grid, block)
  {
    var local := new int[256];
    ClearPhase(local, block);
    ghost var goal: seq<int> := seq(256, b requires 0 <= b < 256 => BlockCount(data, b, k, grid, block));
    BlockEnds(grid, block, k);
    forall b: Byte
      ensures goal[b] == BlockCount(data, b, k, grid, block) && goal[b] < TWO32
    {
      BlockCountBounded(data, b, k, grid, block);
    }
    CountPhase(data, local, k * block, block, grid * block, goal);
    bins := local[..];
  }

  /**
   * What has arrived at global bin `b` while the atomics `todo` are pending; `256 * k + b` is block `k`'s for
   * bin `b`.
   */
  function Arrived(locals: seq<seq<int>>, b: Byte, todo: set<nat>): seq<int>
    requires forall k :: 0 <= k < |locals| ==> |locals[k]| == 256
  {
    seq(|locals|, k requires 0 <= k < |locals| => if 256 * k + b in todo then 0 else locals[k][b])
  }

  /** The last phase of all blocks: `if (local[i]) atomicAdd(&bins[i], local[i])`, in any order. */
  method MergePhase(bins: array<int>, locals: seq<seq<int>>)
    requires bins.Length == 256 && forall b: Byte :: bins[b] == 0
    requires forall k :: 0 <= k < |locals| ==> |locals[k]| == 256
    requires forall k, b: Byte :: 0 <= k < |locals| ==> 0 <= locals[k][b]
    requires forall b: Byte :: Sum(Arrived(locals, b, {})) < TWO32
    modifies bins
    ensures forall b: Byte :: bins[b] == Sum(Arrived(locals, b, {}))
  {
    var todo := AllBelow(256 * |locals|);
    forall b: Byte {
      SumBetween(Arrived(locals, b, todo), 0, 0);
    }
    while todo != {}
      invariant forall id: nat :: id in todo ==> id < 256 * |locals|
      invariant forall b: Byte :: bins[b] == Sum(Arrived(locals, b, todo))
    {
      var id :| id in todo;
      var k, x: Byte := id / 256, id % 256;
      forall b: Byte {
        MergeStep(locals, todo, k, x, b);
      }
      ArrivedBounds(locals, x, todo - {id});
      if locals[k][x] != 0 {
        bins[x] := (bins[x] + locals[k][x]) % TWO32;
      }
      todo := todo - {id};
    }
  }

  /** No global bin wraps, in whatever order the additions arrive. */
  lemma ArrivedBounds(locals: seq<seq<int>>, b: Byte, todo: set<nat>)
    requires forall k :: 0 <= k < |locals| ==> |locals[k]| == 256
    requires forall k, b: Byte :: 0 <= k < |locals| ==> 0 <= locals[k][b]
    ensures 0 <= Sum(Arrived(locals, b, todo)) <= Sum(Arrived(locals, b, {}))
  {
    SumBetween0(Arrived(locals, b, todo));
    SumShift(Arrived(locals, b, {}), Arrived(locals, b, todo), 0);
  }

  lemma MergeStep(locals: seq<seq<int>>, todo: set<nat>, k: nat, x: Byte, b: Byte)
    requires forall k :: 0 <= k < |locals| ==> |locals[k]| == 256
    requires 256 * k + x in todo && k < |locals|
    ensures Sum(Arrived(locals, b, todo - {256 * k + x})) ==
      Sum(Arrived(locals, b, todo)) + (if b == x then locals[k][x] else 0)
  {
    var xs, ys := Arrived(locals, b, todo), Arrived(locals, b, todo - {256 * k + x});
    if b == x {
      assert ys == xs[k := locals[k][x]];
      SumUpdate(xs, k, locals[k][x]);
    } else {
      assert ys == xs;
    }
  }

  /** The shared bins of all blocks, the blocks running in any order. */
  method AllLocals(data: seq<Byte>, grid: nat, block: nat) returns (locals: seq<seq<int>>)
    requires 0 < block <= 1024 && 0 < grid && grid * block > 0 && |data| + grid * block <= INT_MAX + 1
    ensures |locals| == grid && forall k :: 0 <= k < grid ==> |locals[k]| == 256
    ensures forall k: nat, b: Byte :: k < grid ==> locals[k][b] == BlockCount(data, b, k, grid, block)
  {
    locals := seq(grid, _ => seq(256, _ => 0));
    var todo := AllBelow(grid);
    while todo != {}
      invariant |locals| == grid
      invariant forall k: nat :: k in todo ==> k < grid
      invariant forall k :: 0 <= k < grid ==> |locals[k]| == 256
      invariant forall k: nat, b: Byte :: k < grid && k !in todo ==> locals[k][b] == BlockCount(data, b, k, grid, block)
    {
      var k :| k in todo;
      var local := HistogramBlock(data, k, grid, block);
      locals := locals[k := local];
      todo := todo - {k};
    }
  }

  /** All blocks, in any order, then all global atomics, in any order. */
  method HistogramGrid(data: seq<Byte>, grid: nat, block: nat, bins: array<int>)
    requires 0 < block <= 1024 && 0 < grid && grid * block > 0 && |data| + grid * block <= INT_MAX + 1
    requires bins.Length == 256 && forall b: Byte :: bins[b] == 0
    modifies bins
    ensures forall b: Byte :: bins[b] == Count(data, b)
  {
    var locals := AllLocals(data, grid, block);
    forall k: nat, b: Byte | k < grid {
      BlockCountNonNegative(data, b, k, grid, block);
    }
    forall b: Byte ensures Sum(Arrived(locals, b, {})) == Count(data, b) < TWO32 {
      assert Arrived(locals, b, {}) == BlockCounts(data, b, grid, block);
      BlocksCountAll(data, b, grid, block);
      CountBounds(data, b);
    }
    MergePhase(bins, locals);
  }

  /** `launch_histogram256` for non-null pointers: exact for every block size it accepts. */
  method LaunchHistogram256(data: seq<Byte>, block: int, bins: array<int>) returns (status: Status)
    requires bins.Length == 256
    requires 1 <= block <= 1024 ==> LaunchFits(|data|, block)
    modifies bins
    ensures status.Success? <==> 1 <= block <= 1024
    ensures status.Success? ==> forall b: Byte :: bins[b] == multiset(data)[b]
    ensures status.InvalidValue? ==> bins[..] == old(bins[..])
  {
    if block < 1 || block > 1024 {
      return InvalidValue;
    }
    forall b: Byte {
      CountIsMultiplicity(data, b);
    }
    forall b | 0 <= b < 256 {
      bins[b] := 0;
    }
    if |data| == 0 {
      return Success;
    }
    Grows(1, BlocksFor(|data|, block), block);
    HistogramGrid(data, BlocksFor(|data|, block), block, bins);
    status := Success;
  }
}

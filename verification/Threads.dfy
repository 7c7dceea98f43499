/** The threads of a block and the blocks of a grid, which run in any order, and what a launcher reports. */
module Threads {
  import opened Sums

  /** What a launcher reports about its arguments. */
  datatype Status = Success | InvalidValue

  /** The threads of a block, or the blocks of a grid, before any of them has run. */
  method AllBelow(n: nat) returns (todo: set<nat>)
    ensures forall i: nat :: i in todo <==> i < n
  {
    todo := Interval(0, n);
  }

  /** The same for a two-dimensional block or grid, as `(y, x)`. */
  method AllPairs(rows: nat, cols: nat) returns (todo: set<(nat, nat)>)
    ensures forall y: nat, x: nat :: (y, x) in todo <==> y < rows && x < cols
  {
    todo := set y: nat, x: nat | 0 <= y < rows && 0 <= x < cols :: (y, x);
  }
}

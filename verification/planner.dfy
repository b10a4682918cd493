/** The move planner `generateOptimalMoves` of script.js: the divide-and-conquer
    recursion that lists the moves solving the puzzle. */
module Planner {
  import opened Puzzle

  /** One planned move, the triple `[disk, from, to]`. */
  datatype Move = Move(disk: nat, from: Peg, to: Peg)

  /** 2 to the power n. */
  function Pow2(n: nat): (p: nat)
    ensures p >= 1
  {
    if n == 0 then 1 else 2 * Pow2(n - 1)
  }

  /** The reference plan: move the n-1 smaller disks out of the way onto `aux`, move
      disk n, then bring the n-1 disks back on top of it. */
  function Plan(n: nat, from: Peg, to: Peg, aux: Peg): (ms: seq<Move>)
    ensures |ms| == Pow2(n) - 1
  {
    if n == 0 then []
    else Plan(n - 1, from, aux, to) + [Move(n, from, to)] + Plan(n - 1, aux, to, from)
  }

  /** `generateOptimalMoves(n, from, to, aux, moves)`: the same recursion, written as
      script.js writes it, pushing onto an accumulated move list. It only appends: the old
      list is an unchanged prefix, exactly 2^n - 1 moves follow it, the middle one moves
      disk n from `from` to `to`, and the appended part is the reference plan. */
  function GenerateOptimalMoves(n: nat, from: Peg, to: Peg, aux: Peg, moves: seq<Move>): (r: seq<Move>)
    ensures |r| == |moves| + Pow2(n) - 1
    ensures r[..|moves|] == moves
    ensures n > 0 ==> r[|moves| + Pow2(n - 1) - 1] == Move(n, from, to)
    ensures r == moves + Plan(n, from, to, aux)
  {
    if n == 0 then moves
    else
      var before := GenerateOptimalMoves(n - 1, from, aux, to, moves);
      GenerateOptimalMoves(n - 1, aux, to, from, before + [Move(n, from, to)])
  }
}

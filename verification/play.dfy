/** The consumers of the plan in script.js: the hint button, which reads the plan at the
    current move count, and the visual playback, which replays the plan from a fresh game
    with unchecked pops and pushes. Both are safe because the plan is a legal game. */
module Play {
  import opened Wrappers
  import opened Puzzle
  import opened Planner

  /** Towers at the start of a game with n disks. */
  function Start(n: nat): Towers
  {
    [Descending(n), [], []]
  }

  /** Towers of the solved game with n disks. */
  function Solved(n: nat): Towers
  {
    [[], [], Descending(n)]
  }

  /** A planned move played by the rules: its disk must be the top of `from`, and the
      move must pass the click handler's acceptance test. */
  function Step(t: Towers, m: Move): (r: Option<Towers>)
    ensures r.Some? <==> Top(t[m.from]) == Finite(m.disk) && Below(m.disk, Top(t[m.to]))
  {
    if Top(t[m.from]) == Finite(m.disk) then TryMove(t, m.from, m.to) else None
  }

  /** Plays a move list by the rules; `None` as soon as one move is illegal. A legal list
      keeps every disk and keeps every tower stacked legally. */
  function Run(t: Towers, moves: seq<Move>): (r: Option<Towers>)
    decreases |moves|
  {
    if |moves| == 0 then Some(t)
    else
      match Step(t, moves[0])
      case None => None
      case Some(next) => Run(next, moves[1..])
  }

  /** Once `a` has been played legally, playing `a + b` is playing `b` from where `a`
      left off. */
  lemma {:induction false} RunAppend(t: Towers, a: seq<Move>, b: seq<Move>, mid: Towers)
    requires Run(t, a) == Some(mid)
    ensures Run(t, a + b) == Run(mid, b)
    decreases |a|
  {
    if |a| == 0 {
      assert a + b == b;
    } else {
      assert (a + b)[0] == a[0];
      assert (a + b)[1..] == a[1..] + b;
      RunAppend(Step(t, a[0]).value, a[1..], b, mid);
    }
  }

  /** Descending(n) holds exactly the disks 1..n. */
  lemma {:induction false} DescendingHolds(n: nat, x: nat)
    ensures x in Descending(n) <==> 1 <= x <= n
  {
    if n > 0 {
      DescendingHolds(n - 1, x);
    }
  }

  /** Along a strictly decreasing tower, sizes drop by at least one per position. */
  lemma {:induction false} DecreasingGap(t: Tower, i: nat, j: nat)
    requires Decreasing(t) && i <= j < |t|
    ensures t[i] >= t[j] + (j - i)
    decreases j - i
  {
    if i < j {
      DecreasingGap(t, i + 1, j);
    }
  }

  /** A legally stacked tower of n disks drawn from 1..n is the full stack n, ..., 1. */
  lemma FullTower(t: Tower, n: nat)
    requires Decreasing(t) && |t| == n
    requires forall x :: x in t ==> 1 <= x <= n
    ensures t == Descending(n)
  {
    forall i | 0 <= i < n
      ensures t[i] == Descending(n)[i]
    {
      DecreasingGap(t, i, n - 1);
      DecreasingGap(t, 0, i);
      assert t[0] in t && t[n - 1] in t;
      DescendingAt(n, i);
    }
  }

  /** The click handler's win test looks only at how many disks tower C holds; in a valid
      state that already means every disk is on C in order and A and B are empty. */
  lemma WinIsSolved(s: State)
    requires Valid(s) && IsWon(s)
    ensures s.towers == Solved(s.numDisks)
  {
    var t, n := s.towers, s.numDisks;
    assert |Disks(t)| == |t[0]| + |t[1]| + |t[2]|;
    assert |multiset(Descending(n))| == n;
    assert t[0] == [] && t[1] == [];
    assert multiset(t[2]) == multiset(Descending(n));
    forall x | x in t[2]
      ensures 1 <= x <= n
    {
      assert x in multiset(t[2]);
      DescendingHolds(n, x);
    }
    FullTower(t[2], n);
    SameTowers(t, Solved(n));
  }

  /** A legal game neither loses nor gains a disk, and keeps legally stacked towers
      legally stacked. */
  lemma {:induction false} RunKeepsInvariant(t: Towers, moves: seq<Move>, r: Towers)
    requires Run(t, moves) == Some(r)
    ensures Disks(r) == Disks(t)
    ensures AllDecreasing(t) ==> AllDecreasing(r)
    decreases |moves|
  {
    if |moves| > 0 {
      var m := moves[0];
      TryMoveKeepsInvariant(t, m.from, m.to);
      RunKeepsInvariant(Step(t, m).value, moves[1..], r);
    }
  }

  /** Disks 1..n may be stacked on `t`: it is empty or its top disk is larger than n. */
  predicate Above(t: Tower, n: nat)
  {
    Below(n, Top(t))
  }

  /** Playing a list that starts with a legal move `m` is playing `m`, then the rest. */
  lemma RunCons(t: Towers, m: Move, rest: seq<Move>, next: Towers)
    requires Step(t, m) == Some(next)
    ensures Run(t, [m] + rest) == Run(next, rest)
  {
    assert ([m] + rest)[0] == m && ([m] + rest)[1..] == rest;
  }

  /** A legal list, then a legal move, then a legal list: a legal game from `t` to `r`. */
  lemma RunAround(t: Towers, a: seq<Move>, m: Move, b: seq<Move>, t1: Towers, t2: Towers, r: Towers)
    requires Run(t, a) == Some(t1) && Step(t1, m) == Some(t2) && Run(t2, b) == Some(r)
    ensures Run(t, a + [m] + b) == Some(r)
  {
    assert a + [m] + b == a + ([m] + b);
    RunAppend(t, a, [m] + b, t1);
    RunCons(t1, m, b, t2);
  }

  /** The middle move of the plan: disk n leaves `from`, where it is on top, for `to`,
      whose disks are all larger. */
  lemma MiddleMove(n: nat, from: Peg, to: Peg, aux: Peg, t: Towers, base: Tower)
    returns (r: Towers)
    requires from != to && to != aux && from != aux
    requires t[from] == base + [n] && Above(t[to], n)
    ensures Step(t, Move(n, from, to)) == Some(r)
    ensures r[from] == base && r[to] == t[to] + [n] && r[aux] == t[aux]
  {
    assert Top(t[from]) == Finite(n);
    r := Step(t, Move(n, from, to)).value;
  }

  /** The heart of the correctness argument: when the top n disks of `from` are
      n, n-1, ..., 1 and the tops of the other two towers are larger, the plan for n
      disks is legal throughout and carries exactly those n disks onto `to`, leaving the
      rest of `from` and all of `aux` as they were. */
  lemma {:induction false} PlanIsLegal(n: nat, from: Peg, to: Peg, aux: Peg, t: Towers, base: Tower)
    returns (r: Towers)
    requires from != to && to != aux && from != aux
    requires t[from] == base + Descending(n)
    requires Above(base, n) && Above(t[to], n) && Above(t[aux], n)
    ensures Run(t, Plan(n, from, to, aux)) == Some(r)
    ensures r[from] == base && r[to] == t[to] + Descending(n) && r[aux] == t[aux]
    decreases n, 1
  {
    if n == 0 {
      assert base + Descending(0) == base;
      assert t[to] + Descending(0) == t[to];
      r := t;
    } else {
      var t1 := FirstHalf(n, from, to, aux, t, base);
      var t2 := MiddleMove(n, from, to, aux, t1, base);
      r := SecondHalf(n, from, to, aux, t, t2);
      PlanHalves(n, from, to, aux, t, t1, t2, r);
    }
  }

  /** The first half of the plan for n disks clears disks 1..n-1 off disk n onto `aux`. */
  lemma {:induction false} FirstHalf(n: nat, from: Peg, to: Peg, aux: Peg, t: Towers, base: Tower)
    returns (t1: Towers)
    requires n > 0
    requires from != to && to != aux && from != aux
    requires t[from] == base + Descending(n)
    requires Above(base, n) && Above(t[to], n) && Above(t[aux], n)
    ensures Run(t, Plan(n - 1, from, aux, to)) == Some(t1)
    ensures t1[from] == base + [n] && t1[to] == t[to] && t1[aux] == t[aux] + Descending(n - 1)
    decreases n, 0
  {
    assert t[from] == (base + [n]) + Descending(n - 1);
    t1 := PlanIsLegal(n - 1, from, aux, to, t, base + [n]);
  }

  /** The second half of the plan for n disks brings disks 1..n-1 from `aux` onto disk n,
      which now sits on `to`. */
  lemma {:induction false} SecondHalf(n: nat, from: Peg, to: Peg, aux: Peg, t: Towers, t2: Towers)
    returns (r: Towers)
    requires n > 0
    requires from != to && to != aux && from != aux
    requires t2[aux] == t[aux] + Descending(n - 1) && t2[to] == t[to] + [n]
    requires Above(t2[from], n) && Above(t[aux], n)
    ensures Run(t2, Plan(n - 1, aux, to, from)) == Some(r)
    ensures r[from] == t2[from] && r[to] == t[to] + Descending(n) && r[aux] == t[aux]
    decreases n, 0
  {
    r := PlanIsLegal(n - 1, aux, to, from, t2, t[aux]);
    StackOnto(t[to], n);
  }

  /** Disk n followed by the stack n-1..1 is the stack n..1. */
  lemma StackOnto(x: Tower, n: nat)
    requires n > 0
    ensures (x + [n]) + Descending(n - 1) == x + Descending(n)
  {
    assert (x + [n]) + Descending(n - 1) == x + ([n] + Descending(n - 1));
  }

  /** Glues the two recursive halves of the plan and the middle move together. */
  lemma PlanHalves(n: nat, from: Peg, to: Peg, aux: Peg, t: Towers, t1: Towers, t2: Towers, r: Towers)
    requires n > 0
    requires Run(t, Plan(n - 1, from, aux, to)) == Some(t1)
    requires Step(t1, Move(n, from, to)) == Some(t2)
    requires Run(t2, Plan(n - 1, aux, to, from)) == Some(r)
    ensures Run(t, Plan(n, from, to, aux)) == Some(r)
  {
    RunAround(t, Plan(n - 1, from, aux, to), Move(n, from, to), Plan(n - 1, aux, to, from), t1, t2, r);
  }

  /** The plan script.js generates, `generateOptimalMoves(numDisks, 0, 2, 1, [])`, is a
      legal game from the start position that ends solved. */
  lemma PlanSolvesGame(n: nat)
    ensures Run(Start(n), GenerateOptimalMoves(n, 0, 2, 1, [])) == Some(Solved(n))
  {
    var plan := Plan(n, 0, 2, 1);
    assert GenerateOptimalMoves(n, 0, 2, 1, []) == plan by {
      assert [] + plan == plan;
    }
    assert Start(n)[0] == [] + Descending(n);
    var r := PlanIsLegal(n, 0, 2, 1, Start(n), []);
    assert r[2] == Descending(n) by {
      assert [] + Descending(n) == Descending(n);
    }
    SameTowers(r, Solved(n));
  }

  /** The hint button: the move at index `moveCount` of the generated plan, or `None`
      (the "completed" message) when the plan has no such move. */
  function Hint(numDisks: nat, moveCount: nat): (h: Option<Move>)
    ensures h.Some? <==> moveCount < Pow2(numDisks) - 1
    ensures h.Some? ==> h.value == Plan(numDisks, 0, 2, 1)[moveCount]
  {
    var moves := GenerateOptimalMoves(numDisks, 0, 2, 1, []);
    if moveCount < |moves| then Some(moves[moveCount]) else None
  }

  /** If a legal game passes through `mid` after its first k moves, its remaining moves
      are a legal game from `mid` to the same end. */
  lemma RunRest(t: Towers, moves: seq<Move>, k: nat, mid: Towers, last: Towers)
    requires k <= |moves|
    requires Run(t, moves) == Some(last) && Run(t, moves[..k]) == Some(mid)
    ensures Run(mid, moves[k..]) == Some(last)
  {
    assert moves == moves[..k] + moves[k..];
    RunAppend(t, moves[..k], moves[k..], mid);
  }

  /** A player who has followed the plan for `k` moves is offered a legal move while the
      plan lasts, and has solved the puzzle when it runs out. */
  lemma HintFollowsGame(n: nat, k: nat, t: Towers)
    requires k <= Pow2(n) - 1
    requires Run(Start(n), Plan(n, 0, 2, 1)[..k]) == Some(t)
    ensures Hint(n, k).Some? ==> Step(t, Hint(n, k).value).Some?
    ensures Hint(n, k).None? ==> t == Solved(n)
  {
    var plan := GenerateOptimalMoves(n, 0, 2, 1, []);
    assert plan == Plan(n, 0, 2, 1) by {
      assert [] + Plan(n, 0, 2, 1) == Plan(n, 0, 2, 1);
    }
    PlanSolvesGame(n);
    RunRest(Start(n), plan, k, t, Solved(n));
    if k < |plan| {
      assert plan[k..][0] == plan[k];
    } else {
      assert plan[k..] == [];
    }
  }

  /** The first move of a legal game pops a disk from a non-empty tower, and the bare
      pop and push reach the position from which the rest of the game is legal. */
  lemma PopPushIsStep(t: Towers, moves: seq<Move>, last: Towers)
    requires |moves| > 0 && Run(t, moves) == Some(last)
    ensures |t[moves[0].from]| > 0
    ensures
      var m := moves[0];
      var next := Relocate(t, m.from, m.to, t[m.from][|t[m.from]| - 1]);
      && Run(next, moves[1..]) == Some(last)
      && Disks(next) == Disks(t)
      && (AllDecreasing(t) ==> AllDecreasing(next))
  {
    TryMoveKeepsInvariant(t, moves[0].from, moves[0].to);
  }

  /** The visual playback: a fresh game, then every planned move replayed as a bare pop
      from `from` and push onto `to`, with no legality test and no move counting. Because
      the plan is a legal game, no pop meets an empty tower, and playback ends solved. */
  method PlayVisualMoves(numDisks: nat, moves: seq<Move>) returns (s: State)
    requires moves == GenerateOptimalMoves(numDisks, 0, 2, 1, [])
    ensures s.towers == Solved(numDisks) && IsWon(s) && Valid(s)
    ensures s.numDisks == numDisks && s.moveCount == 0 && s.selected == None
  {
    s := InitGame(numDisks);
    SameTowers(s.towers, Start(numDisks));
    PlanSolvesGame(numDisks);
    var towers := s.towers;
    var rest := moves;
    while |rest| > 0
      invariant Run(towers, rest) == Some(Solved(numDisks))
      invariant AllDecreasing(towers) && Disks(towers) == Disks(s.towers)
    {
      var m := rest[0];
      PopPushIsStep(towers, rest, Solved(numDisks));
      var disk := towers[m.from][|towers[m.from]| - 1];
      towers := Relocate(towers, m.from, m.to, disk);
      rest := rest[1..];
    }
    s := s.(towers := towers);
  }

  /** Three disks: the plan is the seven-move solution A>C, A>B, C>B, A>C, B>A, B>C, A>C. */
  lemma ThreeDiskPlan()
    ensures Plan(3, 0, 2, 1) ==
      [Move(1, 0, 2), Move(2, 0, 1), Move(1, 2, 1), Move(3, 0, 2),
       Move(1, 1, 0), Move(2, 1, 2), Move(1, 0, 2)]
  {
    assert Plan(1, 0, 2, 1) == [Move(1, 0, 2)];
    assert Plan(1, 2, 1, 0) == [Move(1, 2, 1)];
    assert Plan(1, 1, 0, 2) == [Move(1, 1, 0)];
    assert Plan(2, 0, 1, 2) == [Move(1, 0, 2), Move(2, 0, 1), Move(1, 2, 1)];
    assert Plan(2, 1, 2, 0) == [Move(1, 1, 0), Move(2, 1, 2), Move(1, 0, 2)];
  }

  /** Three disks, first move: disk 1 selected and dropped on tower B moves it there and
      counts one move. */
  lemma ThreeDiskFirstMove()
    ensures
      ClickTower(SelectDisk(State([[3, 2, 1], [], []], 3, 0, None), 1), 1)
      == (State([[3, 2], [1], []], 3, 1, None), Moved)
  {
    var s0 := State([[3, 2, 1], [], []], 3, 0, None);
    assert FindTower(s0.towers, 1) == Some(0) by { assert s0.towers[0][2] == 1; }
    var a := SelectDisk(s0, 1);
    assert a == s0.(selected := Some(1));
    assert s0.towers[0][..2] == [3, 2];
    SameTowers(Relocate(a.towers, 0, 1, 1), [[3, 2], [1], []]);
  }

  /** Three disks, second move: disk 2 then selected and dropped on tower B is refused,
      since B's top disk 1 is smaller; the disk stays selected. */
  lemma ThreeDiskRefusedMove()
    ensures
      ClickTower(SelectDisk(State([[3, 2], [1], []], 3, 1, None), 2), 1)
      == (State([[3, 2], [1], []], 3, 1, Some(2)), Flash)
  {
    var s1 := State([[3, 2], [1], []], 3, 1, None);
    assert FindTower(s1.towers, 2) == Some(0) by { assert s1.towers[0][1] == 2; }
    assert SelectDisk(s1, 2) == s1.(selected := Some(2));
  }

  /** The hint reads the plan by move count alone, not by position: with two disks, after
      the off-plan opening A>C, the hint for move 1 is disk 2 from A to C, which the move
      rule refuses and the click handler, with disk 2 selected, answers with a flash,
      because C's top disk 1 is smaller. */
  lemma HintIgnoresPosition()
    ensures Run(Start(2), [Move(1, 0, 2)]) == Some([[2], [], [1]])
    ensures Hint(2, 1) == Some(Move(2, 0, 2))
    ensures Step([[2], [], [1]], Move(2, 0, 2)).None?
    ensures SelectionOnBoard(State([[2], [], [1]], 2, 1, Some(2)))
    ensures ClickTower(State([[2], [], [1]], 2, 1, Some(2)), 2).1 == Flash
  {
    var s := State([[2], [], [1]], 2, 1, Some(2));
    assert FindTower(s.towers, 2) == Some(0) by { assert s.towers[0][0] == 2; }
    assert Descending(2) == [2, 1];
    assert Descending(2)[..1] == [2];
    SameTowers(Relocate(Start(2), 0, 2, 1), [[2], [], [1]]);
    assert Plan(1, 0, 1, 2) == [Move(1, 0, 1)];
    assert Plan(2, 0, 2, 1)[1] == Move(2, 0, 2);
  }
}

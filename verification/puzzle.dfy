/** The puzzle state of the game: three towers of disk sizes, the move counter, the
    selected disk, and the rules of `initGame`, `selectDisk` and the tower click handler
    in script.js. */
module Puzzle {
  import opened Wrappers

  /** A tower index: the game has exactly three towers, A, B and C. */
  type Peg = k: nat | k < 3

  /** The disk sizes on one tower, bottom to top. */
  type Tower = seq<nat>

  /** The three towers. */
  type Towers = t: seq<Tower> | |t| == 3 witness [[], [], []]

  /** The size of a tower's top disk, or `Infinity` for an empty tower, exactly as the
      click handler compares against it. */
  datatype Bound = Finite(size: nat) | Infinity

  /** What the player sees after clicking a tower: nothing (no disk selected), the
      rejection flash, an accepted move, or an accepted move that wins. */
  datatype Feedback = Idle | Flash | Moved | Win

  /** The session state that script.js keeps in global variables. `selected` is the size
      of the selected disk. */
  datatype State = State(towers: Towers, numDisks: nat, moveCount: nat, selected: Option<nat>)

  /** `topTo`: the top disk of a tower, or `Infinity` when the tower is empty. */
  function Top(t: Tower): (b: Bound)
    ensures b.Infinity? <==> |t| == 0
    ensures b.Finite? ==> b.size == t[|t| - 1]
  {
    if |t| == 0 then Infinity else Finite(t[|t| - 1])
  }

  /** The acceptance test `moving < topTo`. */
  predicate Below(d: nat, b: Bound)
  {
    match b
    case Infinity => true
    case Finite(top) => d < top
  }

  /** The stack `n, n-1, ..., 1`, bottom to top. */
  function Descending(n: nat): (t: Tower)
    ensures |t| == n
  {
    if n == 0 then [] else [n] + Descending(n - 1)
  }

  /** Position i of the stack, counted from the bottom, holds disk n - i. */
  lemma {:induction false} DescendingAt(n: nat, i: nat)
    requires i < n
    ensures Descending(n)[i] == n - i
  {
    if i > 0 {
      DescendingAt(n - 1, i - 1);
    }
  }

  /** Sizes strictly decrease from bottom to top: no disk sits on a smaller one. */
  predicate Decreasing(t: Tower)
  {
    forall i, j :: 0 <= i < j < |t| ==> t[i] > t[j]
  }

  predicate AllDecreasing(t: Towers)
  {
    forall k: Peg :: Decreasing(t[k])
  }

  /** Towers are equal when each of the three is. */
  lemma SameTowers(a: Towers, b: Towers)
    requires a[0] == b[0] && a[1] == b[1] && a[2] == b[2]
    ensures a == b
  {
  }

  /** Every disk of the game, counted with multiplicity. */
  function Disks(t: Towers): multiset<nat>
  {
    multiset(t[0]) + multiset(t[1]) + multiset(t[2])
  }

  /** The first tower that holds disk `d`, as `towers.findIndex(t => t.includes(d))`;
      `None` stands for the result -1. */
  function FindTower(t: Towers, d: nat): (r: Option<Peg>)
    ensures r.Some? ==> d in t[r.value]
    ensures r.Some? ==> forall k: Peg :: k < r.value ==> d !in t[k]
    ensures r.None? <==> forall k: Peg :: d !in t[k]
  {
    if d in t[0] then Some(0)
    else if d in t[1] then Some(1)
    else if d in t[2] then Some(2)
    else None
  }

  /** The selected disk, if any, is on some tower. */
  predicate SelectionOnBoard(s: State)
  {
    s.selected.Some? ==> FindTower(s.towers, s.selected.value).Some?
  }

  /** The selected disk, if any, is the top disk of the tower that holds it. */
  predicate SelectionOnTop(s: State)
  {
    s.selected.Some? ==>
      var f := FindTower(s.towers, s.selected.value);
      f.Some? && Top(s.towers[f.value]) == Finite(s.selected.value)
  }

  /** The invariant of every reachable state: towers stacked legally, holding exactly the
      disks 1..numDisks, and only a top disk selected. */
  predicate Valid(s: State)
  {
    && AllDecreasing(s.towers)
    && Disks(s.towers) == multiset(Descending(s.numDisks))
    && SelectionOnTop(s)
  }

  /** The win test after a move: tower C holds `numDisks` disks. */
  predicate IsWon(s: State)
  {
    |s.towers[2]| == s.numDisks
  }

  /** Pops the top of `from` and pushes `d` onto `to`, with no legality check. */
  function Relocate(t: Towers, from: Peg, to: Peg, d: nat): (r: Towers)
    requires |t[from]| > 0
    ensures from != to ==> r[from] == t[from][..|t[from]| - 1] && r[to] == t[to] + [d]
    ensures from == to ==> r[from] == t[from][..|t[from]| - 1] + [d]
    ensures forall k: Peg :: k != from && k != to ==> r[k] == t[k]
  {
    var popped := t[from := t[from][..|t[from]| - 1]];
    popped[to := popped[to] + [d]]
  }

  /** `initGame`: disks n down to 1 pushed onto tower A, the counter cleared and the
      selection dropped. */
  method InitGame(numDisks: nat) returns (s: State)
    ensures |s.towers[0]| == numDisks
    ensures forall i :: 0 <= i < numDisks ==> s.towers[0][i] == numDisks - i
    ensures s.towers[0] == Descending(numDisks)
    ensures s.towers[1] == [] && s.towers[2] == []
    ensures s.numDisks == numDisks && s.moveCount == 0 && s.selected == None
    ensures Valid(s)
  {
    var towerA: Tower := [];
    var i := numDisks;
    while i > 0
      invariant 0 <= i <= numDisks
      invariant |towerA| == numDisks - i
      invariant forall j :: 0 <= j < |towerA| ==> towerA[j] == numDisks - j
    {
      towerA := towerA + [i];
      i := i - 1;
    }
    forall j | 0 <= j < numDisks
      ensures towerA[j] == Descending(numDisks)[j]
    {
      DescendingAt(numDisks, j);
    }
    assert towerA == Descending(numDisks);
    s := State([towerA, [], []], numDisks, 0, None);
  }

  /** `selectDisk`: a click on disk `d` selects it only when it is the top of its tower
      and no disk is selected yet. */
  function SelectDisk(s: State, d: nat): (r: State)
    requires FindTower(s.towers, d).Some?
    ensures r.towers == s.towers && r.numDisks == s.numDisks && r.moveCount == s.moveCount
    ensures r.selected != s.selected <==>
              s.selected.None? && Top(s.towers[FindTower(s.towers, d).value]) == Finite(d)
    ensures r.selected != s.selected ==> r.selected == Some(d)
    ensures SelectionOnTop(s) ==> SelectionOnTop(r)
    ensures Valid(s) ==> Valid(r)
  {
    var k := FindTower(s.towers, d).value;
    if Top(s.towers[k]) != Finite(d) then s
    else if s.selected.None? then s.(selected := Some(d))
    else s
  }

  /** The pure move rule: take the top disk of `from` and put it on `to` if it is smaller
      than `to`'s top (an empty tower accepts anything). */
  function TryMove(t: Towers, from: Peg, to: Peg): (r: Option<Towers>)
    ensures r.Some? <==> |t[from]| > 0 && Below(t[from][|t[from]| - 1], Top(t[to]))
    ensures r.Some? ==> from != to
    ensures r.Some? ==> r.value[from] == t[from][..|t[from]| - 1]
    ensures r.Some? ==> r.value[to] == t[to] + [t[from][|t[from]| - 1]]
    ensures r.Some? ==> forall k: Peg :: k != from && k != to ==> r.value[k] == t[k]
  {
    if |t[from]| == 0 then None
    else
      var d := t[from][|t[from]| - 1];
      if Below(d, Top(t[to])) then Some(Relocate(t, from, to, d)) else None
  }

  /** An accepted move keeps every disk of the game and keeps every tower stacked
      legally. */
  lemma TryMoveKeepsInvariant(t: Towers, from: Peg, to: Peg)
    requires TryMove(t, from, to).Some?
    ensures Disks(TryMove(t, from, to).value) == Disks(t)
    ensures AllDecreasing(t) ==> AllDecreasing(TryMove(t, from, to).value)
  {
    RelocateKeepsDisks(t, from, to);
    RelocateKeepsOrder(t, from, to);
  }

  /** Popping the top disk of `from` and pushing it onto `to` keeps every disk. */
  lemma RelocateKeepsDisks(t: Towers, from: Peg, to: Peg)
    requires |t[from]| > 0 && from != to
    ensures Disks(Relocate(t, from, to, t[from][|t[from]| - 1])) == Disks(t)
  {
    var src := t[from];
    assert src == src[..|src| - 1] + [src[|src| - 1]];
    var r := Relocate(t, from, to, src[|src| - 1]);
    assert multiset(r[from]) + multiset(r[to]) == multiset(t[from]) + multiset(t[to]);
  }

  /** Pushing a disk smaller than `to`'s top keeps every tower strictly decreasing. */
  lemma RelocateKeepsOrder(t: Towers, from: Peg, to: Peg)
    requires |t[from]| > 0 && from != to
    requires Below(t[from][|t[from]| - 1], Top(t[to]))
    ensures AllDecreasing(t) ==> AllDecreasing(Relocate(t, from, to, t[from][|t[from]| - 1]))
  {
    if !AllDecreasing(t) {
      return;
    }
    var d := t[from][|t[from]| - 1];
    var r := Relocate(t, from, to, d);
    assert Decreasing(t[from]) && Decreasing(t[to]);
    forall i | 0 <= i < |t[to]|
      ensures t[to][i] > d
    {
      assert t[to][i] >= t[to][|t[to]| - 1];
    }
    assert Decreasing(r[to]);
  }

  /** The tower click handler. With nothing selected it does nothing; otherwise the
      selected disk moves from the tower that holds it onto tower `index` when it is
      smaller than that tower's top, counting one move, clearing the selection and
      reporting a win when tower C is full; a refused move only flashes. */
  function ClickTower(s: State, index: Peg): (r: (State, Feedback))
    requires SelectionOnBoard(s)
    ensures s.selected.None? ==> r == (s, Idle)
    ensures r.1 == Idle <==> s.selected.None?
    ensures s.selected.Some? ==> (r.1 == Flash <==> !Below(s.selected.value, Top(s.towers[index])))
    ensures r.1 == Flash ==> r.0 == s
    ensures r.1 == Moved || r.1 == Win ==>
              && r.0.moveCount == s.moveCount + 1
              && r.0.selected == None
              && r.0.numDisks == s.numDisks
              && |r.0.towers[index]| > 0
              && r.0.towers[index][|r.0.towers[index]| - 1] == s.selected.value
    ensures r.1 == Moved || r.1 == Win ==> (r.1 == Win <==> IsWon(r.0))
  {
    match s.selected
    case None => (s, Idle)
    case Some(d) =>
      var from := FindTower(s.towers, d).value;
      if Below(d, Top(s.towers[index])) then
        var next := State(Relocate(s.towers, from, index, d), s.numDisks, s.moveCount + 1, None);
        (next, if IsWon(next) then Win else Moved)
      else
        (s, Flash)
  }

  /** In a valid state the click handler is the pure move rule applied to the tower that
      holds the selected disk: it accepts exactly when `TryMove` does, produces the same
      towers, and keeps the state valid. Clicking the selected disk's own tower is
      always refused. */
  lemma ClickIsTryMove(s: State, index: Peg)
    requires Valid(s) && s.selected.Some?
    ensures SelectionOnBoard(s)
    ensures var from := FindTower(s.towers, s.selected.value).value;
            var r := ClickTower(s, index);
            && (r.1 == Flash <==> TryMove(s.towers, from, index).None?)
            && (r.1 != Flash ==> r.0.towers == TryMove(s.towers, from, index).value)
            && (index == from ==> r.1 == Flash)
    ensures Valid(ClickTower(s, index).0)
  {
    var d := s.selected.value;
    var from := FindTower(s.towers, d).value;
    var r := ClickTower(s, index);
    if r.1 != Flash {
      assert s.towers[from][|s.towers[from]| - 1] == d;
      RelocateKeepsDisks(s.towers, from, index);
      RelocateKeepsOrder(s.towers, from, index);
    }
  }
}

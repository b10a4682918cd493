# Tower of Hanoi: game rules, planner and plan consumers

A Dafny model of the puzzle logic in `script.js` of the Tower of Hanoi web game. It covers:

- **Puzzle** (`puzzle.dfy`): the game state. This is three towers of disk sizes stored bottom to top, the disk count, the move counter and the selected disk. The module also models `initGame`, `selectDisk` and the tower click handler, which accepts a move only when the moving disk is smaller than the destination's top disk (an empty tower counts as `Infinity`). It also models the win test "tower C holds `numDisks` disks".
- **Planner** (`planner.dfy`): `generateOptimalMoves`, the recursion that appends `[disk, from, to]` triples to an accumulator. It is paired with `Plan`, a reference definition that returns the move list as a value.
- **Play** (`play.dfy`): the two readers of the plan.
  - The hint button reads `moves[moveCount]`.
  - The visual playback restarts the game and replays every planned move as a bare pop and push, with no legality test.
  - Both are justified by `Run`, which plays a move list by the click handler's rules. The module proves that the generated plan is a legal game from the start position that ends solved.
- **Wrappers** (`wrappers.dfy`): the `Option` type.

Disks are identified by size. The JavaScript compares DOM elements, but in every valid state the sizes are distinct, so the two identities agree. `towers.findIndex(...)` becomes `FindTower`, which returns `None` where the JavaScript returns -1.

The central invariant is `Valid`, with three parts:
- every tower is strictly decreasing from bottom to top;
- the towers together hold exactly the disks 1..numDisks;
- a selected disk is the top of its tower.

`initGame` establishes it, and `selectDisk`, every accepted click and the whole playback keep it.

## Model

| member | source | states |
|---|---|---|
| Puzzle.InitGame | script.js:71-92 | Tower A holds n, n-1, ..., 1 from bottom to top and towers B and C are empty. The move counter is 0 and no disk is selected. The result satisfies the game invariant. |
| Puzzle.FindTower | script.js:96 | Returns the first tower holding the disk, and no earlier tower holds it. Returns None exactly when no tower holds it (the -1 of `findIndex`). |
| Puzzle.SelectDisk | script.js:94-105 | The selection changes exactly when nothing was selected and the clicked disk is its tower's top. Towers and counter never change. The invariant is preserved. |
| Puzzle.Top | script.js:114-116 | `topTo` is `Infinity` exactly when the tower is empty, and otherwise it is the size of the last (top) disk. |
| Puzzle.Relocate | script.js:118-119 | The unchecked `pop()` then `push(d)`. Between two different towers, the source loses its top and the destination gains `d` on top. On the same tower, the top is replaced by `d`. The third tower is unchanged. The playback loop (script.js:193-194) uses the same step. |
| Puzzle.TryMove | script.js:113-119 | A move is accepted exactly when the source is non-empty and its top is smaller than the destination's top (an empty destination always accepts). An accepted move has distinct towers, pops the source, pushes that disk onto the destination and leaves the third tower alone. |
| Puzzle.TryMoveKeepsInvariant | script.js:117-119 | An accepted move keeps the multiset of disks, and keeps every tower strictly decreasing. |
| Puzzle.RelocateKeepsDisks | script.js:118-119 | Popping the source's top disk and pushing it onto another tower keeps the multiset of disks. |
| Puzzle.RelocateKeepsOrder | script.js:114-119 | Pushing a disk smaller than the destination's top keeps all towers strictly decreasing. |
| Puzzle.ClickTower | script.js:107-136 | It reports `Idle`, and changes nothing, exactly when no disk is selected. Otherwise the handler flashes exactly when the selected disk is not smaller than the clicked tower's top, and a flash changes nothing. An accepted move adds exactly 1 to the counter, clears the selection and leaves the disk on top of the clicked tower. It reports a win exactly when tower C then holds numDisks disks. |
| Puzzle.ClickIsTryMove | script.js:109-133 | In a valid state with a selection, the handler accepts exactly when the pure move rule does and yields the same towers. Clicking the disk's own tower is always refused. The resulting state is valid. |
| Puzzle.DescendingAt | script.js:78-89 | The start stack has disk n - i at position i. |
| Planner.Plan | script.js:181-186 | The plan for n disks has exactly 2^n - 1 moves. |
| Planner.GenerateOptimalMoves | script.js:181-186 | The call appends exactly 2^n - 1 moves and leaves the earlier contents as an unchanged prefix. The middle appended move is `[n, from, to]`. What it appends is the reference plan. |
| Play.Step | script.js:113-117 | A planned move is legal exactly when its disk is the top of `from` and is smaller than the top of `to`. |
| Play.RunAppend | script.js:191-198 | Playing `a + b` after `a` has reached `mid` is playing `b` from `mid`. |
| Play.RunKeepsInvariant | script.js:117-119 | A legal game keeps the multiset of disks and keeps legally stacked towers legally stacked. |
| Play.MiddleMove | script.js:184 | Moving disk n from `base + [n]` onto a tower whose top is larger than n is legal. It leaves `base` behind and touches nothing else. |
| Play.FirstHalf | script.js:183 | The first recursive half legally moves disks 1..n-1 from `from` onto `aux`. |
| Play.SecondHalf | script.js:185 | The second recursive half legally moves disks 1..n-1 from `aux` onto disk n at `to`. |
| Play.PlanHalves | script.js:181-186 | The two halves around the middle move make up a legal game for the whole plan. |
| Play.PlanIsLegal | script.js:181-186 | From any position where disks n..1 top tower `from` and both other towers accept them, the plan is a legal game. It moves exactly those disks onto `to` and leaves everything else as it was. |
| Play.PlanSolvesGame | script.js:166-171 | The plan generated for `numDisks` disks from A to C, played from the start position, is legal throughout and ends with every disk on C. |
| Play.WinIsSolved | script.js:126 | In a valid state the win test, which only counts tower C's disks, means A and B are empty and C holds n..1 in order. |
| Play.Hint | script.js:153-163 | A hint exists exactly when moveCount < 2^numDisks - 1. It is the plan's move at index moveCount. |
| Play.HintIgnoresPosition | script.js:155-157 | The hint depends on the move count alone. With two disks, after the off-plan opening A>C, the hint for move 1 is disk 2 from A to C. The move rule refuses it, and the click handler, with disk 2 selected and C clicked, only flashes. |
| Play.RunRest | script.js:155-157 | If a legal game has reached `mid` after k moves, its remaining moves are a legal game from `mid` to the same end. |
| Play.HintFollowsGame | script.js:153-161 | A player who followed the plan for k moves is offered a legal move while hints last, and has solved the puzzle once they run out. |
| Play.PopPushIsStep | script.js:193-195 | The bare pop and push of the playback loop, on the first move of a legal game, pops a non-empty tower. It reaches the position from which the rest is legal and keeps the invariant. |
| Play.PlayVisualMoves | script.js:189-199 | Playback of the generated plan never pops an empty tower. It ends with all disks on C in a valid state that passes the win test, with the counter still 0 and nothing selected. |
| Play.ThreeDiskPlan | script.js:181-186 | For three disks the plan is A>C, A>B, C>B, A>C, B>A, B>C, A>C. |
| Play.ThreeDiskFirstMove | script.js:94-126 | With three disks, selecting disk 1 and clicking B moves it there and counts one move. |
| Play.ThreeDiskRefusedMove | script.js:107-133 | Next, selecting disk 2 and clicking B is refused. The disk stays selected and nothing else changes. |

## Left out

- Background canvas animation, screen navigation, info panels and disk styling or pixel layout are left out. They are presentation only, with no puzzle logic.
- `alert`, `confirm`, the GSAP flash and the text of hints and move lists are left out. `confirm` becomes the caller's choice of playback. The flash is the `Flash` feedback value.
- The 800 ms `setTimeout` and the `async` playback are left out. Playback is modelled as the sequential loop it runs.
- Slider parsing with `parseInt` is not modelled. `numDisks` is a natural-number parameter.
- DOM event routing is left out. A click on a disk also reaches its tower's handler in a browser. The model gives each handler separately, and a combined click is the two in sequence.
- Puzzle.SelectDisk and Puzzle.ClickTower require the clicked or selected disk to be on some tower. In `selectDisk` (script.js:96-98), a disk on no tower makes `towers[-1]` undefined, and reading its `length` throws. In the click handler (script.js:110-118), the undefined `fromTower` is used only by the `pop()` of an accepted move, so a refused click there would still flash without throwing. Neither path is reachable. A valid state's selected disk is on a tower, and every disk a player can click is on a tower, because `initGame` removes the old disk elements (script.js:75) before creating the new ones.
- Play.HintFollowsGame covers only players who have followed the plan so far. Off the plan, the hint can be illegal, as Play.HintIgnoresPosition shows. It also proves only one direction of "no hint means solved". The converse (a solved position reached along the plan is at its end) needs the plan's minimality, which is not stated.
- The "Minimum moves: 2ⁿ - 1" text (script.js:208) is not modelled as an optimality theorem. Only the plan's length is proved.
- Planner.Plan does not state which disks each move carries or that each move's two towers differ. Both follow from Play.PlanIsLegal, because every move of a legal game moves a top disk between distinct towers.
- Play.PlayVisualMoves is stated for the plan the button generates, which is the only list script.js passes it. Playback does not increment `moveCount`, as in script.js.
- Play.PlayVisualMoves: the guarantee that playback never pops an empty tower and ends solved holds only when nothing else runs during the 800 ms waits (script.js:192). A disk or tower click (script.js:94-136), the slider (script.js:66-69) or a second playback (script.js:166-171) can change `towers` mid-playback, and script.js does not prevent this. For example, with three disks, a second playback started after the first playback's two moves resets the towers. The first playback's next move, C>B, then pops an empty tower C.

# Senku (peg solitaire) engine in Dafny

pysenku is a Tk game of Senku, the English peg solitaire. There are 33 holes
arranged in a cross, and at the start every hole except the centre holds a
peg. A move jumps a peg orthogonally over a neighbouring peg into an empty
hole two cells away, and the jumped peg is removed. The game keeps the
executed moves on a bounded undo stack. When that stack is full, the oldest
move is dropped to make room. With end-of-game tracking on, the game reports
the end once no jump is left. Every change is announced to observers (the
user interface) as a `CELL_ON`, `CELL_OFF`, `UNDO_STACK` or `GAME_OVER`
notification.

This project models that engine as pure functions over an immutable `Game`
value:

- the board, a map from cells to occupancy;
- the undo history;
- the tracking flag;
- the trace, an append-only sequence of the notifications sent so far.

Because notifications live in the trace, a contract can state which changes
an operation reports, and in what order.

| file | module | models |
|---|---|---|
| `board.dfy` | `Boards` | the cross, the initial layout, the distance and occupancy rules, the midpoint (`avg`), peg counting |
| `stack.dfy` | `Stacks` | `DynamicBoundedStack` |
| `move.dfy` | `Moves` | the `Move` command's data |
| `game.dfy` | `Senku` | `SenkuGame` and the `execute`/`undo` of `Move` |
| `properties.dfy` | `SenkuProperties` | laws relating several operations, runs of moves, the observers' view |
| `releases.dfy` | `Releases` | the differences of releases 0.1 and 0.2 from the current engine |

Release 0.5 repeats the current engine word for word. Its only extra is that
the undo depth and the tracking flag come from a configuration file. That is
why `NewGame` takes both as parameters. The rows below cite the package
modules, which hold the same code.

A few facts proved here:

- A game from the initial layout lasts at most 31 moves. So any undo depth
  above 31 keeps the whole game; the source's comment asks for more than 32,
  which is also enough.
- Undo restores the board.
- Every move removes exactly one peg.
- The end-of-game search reports exactly when no jump remains, with the true
  peg count.
- Whatever an operation reports turns an observer's copy of the old board
  into the new board. This holds for every move, undo and restart, and an
  observer that starts with no board and sees a new game's reports has the
  initial layout.

## Model

| member | source | states |
|---|---|---|
| Stacks.NewStack | src/pysenku/util/stack.py:15-19 | a new stack is empty (`is_empty`, lines 28-31) and has the requested capacity; it is valid when that capacity is positive |
| Stacks.MakeEmpty | src/pysenku/util/stack.py:34-37 | emptying leaves no entries and keeps the capacity and validity |
| Stacks.Push | src/pysenku/util/stack.py:40-47 | the pushed entry becomes the top; below it are the old entries, minus the oldest one exactly when the stack was full (`is_full`, lines 22-25); capacity kept; validity kept |
| Stacks.Pop | src/pysenku/util/stack.py:50-53 | returns the newest entry and the stack without it; a popped valid stack is no longer full |
| Stacks.PushAll | src/pysenku/util/stack.py:40-47 | any run of pushes keeps a valid stack valid (never above capacity) |
| Stacks.PushPop | src/pysenku/util/stack.py:40-53 | popping right after pushing onto a stack that is not full gives back the entry and the previous stack |
| Stacks.PopPush | src/pysenku/util/stack.py:40-53 | pushing back a popped entry restores a valid stack |
| Stacks.PushFullEvictsOldest | src/pysenku/util/stack.py:44-47 | on a full stack a push drops exactly the entry at index 0, and the length stays the same |
| Stacks.PushAllKeepsNewest | src/pysenku/util/stack.py:40-47 | after any run of pushes the stack holds the newest entries of old contents plus the pushed ones, as many as the capacity allows, oldest first |
| Stacks.LastNSurvive | src/pysenku/util/stack.py:40-47 | pushing items into an empty stack keeps all of them while they fit; pushing at least capacity-many items into any stack keeps exactly the last capacity-many, oldest first |
| Boards.CellListIsCells | src/pysenku/model/senkugame.py:67-78 | the two fill loops visit exactly the 33 cells of the cross |
| Boards.IndexOf | src/pysenku/model/senkugame.py:70-76 | every cross cell has a position in the fill order |
| Boards.ListedAreCells | src/pysenku/model/senkugame.py:70-76 | every cell the fill loops visit lies on the cross |
| Boards.CellListDistinct | src/pysenku/model/senkugame.py:70-76 | the fill loops visit no cell twice |
| Boards.InitialLayout | src/pysenku/model/senkugame.py:67-78 | the laid-out board covers the 33 cells, with the centre empty, every other cell full, and 32 pegs |
| Boards.CellsAreCross | src/pysenku/model/senkugame.py:70-76 | a coordinate is a board cell exactly when it lies on the cross |
| Boards.MidpointOnBoard | src/pysenku/model/senkugame.py:105-114 | under the distance rule, the midpoint of two board cells is a board cell, so the occupancy rule never looks up a missing key |
| Boards.Mid | src/pysenku/model/senkugame.py:20-27 | under the distance rule, `avg` of the two cells is exact (twice the midpoint is the sum) and lies strictly between them |
| Boards.CheckDistance | src/pysenku/model/senkugame.py:95-102 | definition: the rows differ by two in the same column, or the columns differ by two in the same row; `Boards.DistanceIsJumpTarget` is its partner |
| Boards.CheckCells | src/pysenku/model/senkugame.py:105-114 | definition: the origin holds a peg, the destination is empty and the midpoint holds a peg; only asked once the distance rule holds |
| Boards.Legal | src/pysenku/model/move.py:57-58 | definition: the distance rule, then the occupancy rule, as `execute` tests them |
| Boards.HasLegalMove | src/pysenku/model/senkugame.py:139-144 | definition: some occupied cell has a legal jump to some cell; `Senku.MoveAmongCells` ties it to the scan as written |
| Boards.OccupiedCount | src/pysenku/model/senkugame.py:138-146 | definition: the number of occupied cells, counted in key order; `Boards.CountUpdate` and `Boards.CountInitial` are its partners |
| Boards.DistanceIsJumpTarget | src/pysenku/model/senkugame.py:95-102 | the distance rule holds exactly when the destination is one of the four cells two steps away in a straight line; the rule is symmetric |
| Boards.CountUpdate | src/pysenku/model/senkugame.py:81-92 | setting one cell changes the peg count by the change at that cell |
| Boards.CountInitial | src/pysenku/model/senkugame.py:67-78 | on the initial layout every listed cell counts except the centre |
| Boards.LaidOutIsInitial | src/pysenku/model/senkugame.py:67-78 | a board over the cross whose only empty cell is the centre is the initial layout |
| Moves.MakeMove | src/pysenku/model/move.py:19-25 | a move keeps its origin and destination; under the distance rule its midpoint is their exact average and differs from both |
| Moves.WellFormedCells | src/pysenku/model/move.py:52-61 | a move that passed the distance rule touches three distinct board cells |
| Senku.FillCell | src/pysenku/model/senkugame.py:81-85 | the cell gets a peg, nothing else changes, and exactly one `CELL_ON` report for it is added |
| Senku.EmptyCell | src/pysenku/model/senkugame.py:88-92 | the cell loses its peg, nothing else changes, and exactly one `CELL_OFF` report for it is added |
| Senku.FillAll | src/pysenku/model/senkugame.py:70-76 | every cell of the list is full afterwards, other cells are untouched, and one `CELL_ON` is reported per cell in list order |
| Senku.FillBoard | src/pysenku/model/senkugame.py:67-78 | laying out fills every cross cell except the centre, leaves other keys alone, and reports the fills then the centre's emptying |
| Senku.NewGame | src/pysenku/model/senkugame.py:39-46 | a new game has the initial layout with 32 pegs, an empty history of the requested depth and the requested tracking setting, and has reported only the layout |
| Senku.DefaultGame | src/pysenku/model/senkugame.py:39-46 | with no arguments the constructor builds a valid game on the initial layout, with an empty history of depth five and tracking on |
| Senku.SetTracking | src/pysenku/model/senkugame.py:61-64 | only the tracking flag changes, and nothing is reported |
| Senku.CheckEnd | src/pysenku/model/senkugame.py:134-146 | the end-of-game check changes no state; it reports nothing while a jump exists, otherwise one game-over report with the number of pegs |
| Senku.JumpFrom | src/pysenku/model/senkugame.py:141-144 | the inner loop finds a legal jump from the given cell exactly when some key is a legal destination |
| Senku.ScanKeys | src/pysenku/model/senkugame.py:134-146 | the nested scan returns early exactly when some occupied key can jump to some key; otherwise it reports the count of occupied keys |
| Senku.MoveAmongCells | src/pysenku/model/senkugame.py:139-141 | scanning the board keys finds a move exactly when the board has a legal jump |
| Senku.ScanForMove | src/pysenku/model/senkugame.py:134-146 | run over the board, the scan reports nothing when a legal jump exists, otherwise game over with the number of pegs on the board |
| Senku.MovementDone | src/pysenku/model/senkugame.py:117-124 | the board is unchanged, the move is pushed, the history change is reported, and with tracking on it is followed by the end-of-game verdict |
| Senku.ApplyJump | src/pysenku/model/move.py:59-61 | the origin and midpoint are emptied and the destination filled, nothing else changes, and the reports come in that order |
| Senku.Execute | src/pysenku/model/move.py:52-62 | an illegal move changes nothing and reports nothing; a legal one jumps, pushes the move, and reports the three cell changes, the history change and, with tracking on, the verdict |
| Senku.RevertMove | src/pysenku/model/move.py:65-70 | the origin and midpoint are filled and the destination emptied, nothing else changes, and the reports come in that order |
| Senku.Undo | src/pysenku/model/senkugame.py:127-131 | the newest move is popped and reversed, nothing else on the board changes, and the reports are the three cell changes then the history change |
| Senku.Relaid | src/pysenku/model/senkugame.py:163 | laying out a board over the cross gives the initial board and reports the layout |
| Senku.Restart | src/pysenku/model/senkugame.py:160-165 | restart gives the initial board and an empty history of the same depth, keeps tracking, and reports the layout then the history change |
| Senku.CellEvents | src/pysenku/model/senkugame.py:153-157 | one report per cell, in key order, giving that cell's current state |
| Senku.GetAllChanges | src/pysenku/model/senkugame.py:149-157 | the state is unchanged; the history's emptiness is reported, then every cell's state in key order |
| SenkuProperties.JumpedBoard | src/pysenku/model/move.py:57-61 | the board after a legal jump is the old board with exactly the three cells of the jump updated |
| SenkuProperties.JumpCount | src/pysenku/model/move.py:57-61 | a legal jump takes exactly one peg off the board |
| SenkuProperties.LegalNeedsTwoPegs | src/pysenku/model/senkugame.py:105-114 | a legal jump needs at least two pegs on the board |
| SenkuProperties.FewPegsIsOver | src/pysenku/model/senkugame.py:134-146 | with at most one peg left, the end-of-game check reports game over |
| SenkuProperties.ExecuteRemovesOnePeg | src/pysenku/model/move.py:52-62 | a legal move lowers the peg count by one; a rejected one leaves it unchanged |
| SenkuProperties.ExecuteThenUndo | src/pysenku/model/move.py:52-70 | undo after a legal move restores the board and tracking; the history comes back too unless it was full, when its oldest entry is gone |
| SenkuProperties.UndoReopensMove | src/pysenku/model/senkugame.py:127-131 | after undo the undone move is legal again, so the game cannot be over |
| SenkuProperties.Play | src/pysenku/model/senkugame.py:117-124 | any run of requested moves keeps the game valid, with tracking and depth unchanged |
| SenkuProperties.MovesOfAt | src/pysenku/model/move.py:19-25 | the moves a run records are, in order, the moves built from its requests |
| SenkuProperties.PlayStep | src/pysenku/model/move.py:52-62 | one unfolding of the run definitions: a non-empty run of legal moves starts with a legal `execute` and continues from its result |
| SenkuProperties.PlayCount | src/pysenku/model/move.py:52-62 | each legal move of a run takes one peg, and at least one peg stays |
| SenkuProperties.PlayHistory | src/pysenku/model/senkugame.py:117-124 | the history after a run of legal moves is the old history with every recorded move pushed in order |
| SenkuProperties.GameLength | src/pysenku/model/senkugame.py:10-12 | no game from a board of 32 pegs, which a new game has, lasts more than 31 moves |
| SenkuProperties.DeepHistoryKeepsAll | src/pysenku/model/senkugame.py:10-12 | from a new game's position and an empty history, a depth above 31 keeps every move of the game, in order |
| SenkuProperties.DefaultHistoryKeepsFive | src/pysenku/model/senkugame.py:13 | with the default depth, from any history, the history keeps exactly the newest five moves of any run of at least five |
| SenkuProperties.RunHistory | src/pysenku/model/senkugame.py:117-124 | after a run of legal moves from an empty history, the history holds every recorded move while they fit; once the run fills it, from any history, it holds only the newest ones |
| SenkuProperties.InitialHasMove | src/pysenku/model/senkugame.py:67-78 | the initial layout has a legal jump |
| SenkuProperties.NewGameNotOver | src/pysenku/model/senkugame.py:134-146 | the end-of-game check on a new game reports nothing |
| SenkuProperties.DiagonalIsRejected | src/pysenku/model/senkugame.py:95-102 | a diagonal jump is rejected with no change and no report |
| SenkuProperties.RestartIsNewGame | src/pysenku/model/senkugame.py:160-165 | restart gives a new game's board and history; a second restart changes neither |
| SenkuProperties.SeeAllAppend | src/pysenku/ui/uisenku.py:194-200 | replaying two batches of reports is replaying the first and then the second |
| SenkuProperties.SeeCellEvents | src/pysenku/model/senkugame.py:153-157 | replaying the per-cell reports sets every reported cell to its reported state and leaves the others alone |
| SenkuProperties.SeeNoCells | src/pysenku/model/senkugame.py:122 | history and game-over reports leave an observer's board alone |
| SenkuProperties.GetAllChangesRebuildsBoard | src/pysenku/model/senkugame.py:149-157 | an observer starting from any board whose keys are cross cells, an empty one included, ends with the game's board after replaying the full report |
| SenkuProperties.BlankViewRebuildsBoard | src/pysenku/ui/uisenku.py:81-85 | the board view, drawn from nothing by the full report when the interface opens, shows the game's board |
| SenkuProperties.ReplayCells | src/pysenku/model/senkugame.py:152-157 | from any board whose keys are cross cells, an empty one included, a history report followed by the state of every cross cell rebuilds the board |
| SenkuProperties.InStepTrans | src/pysenku/model/senkugame.py:81-92 | two operations that each keep observers in step keep them in step when composed |
| SenkuProperties.FillCellInStep | src/pysenku/model/senkugame.py:81-85 | filling a cell keeps observers in step |
| SenkuProperties.EmptyCellInStep | src/pysenku/model/senkugame.py:88-92 | emptying a cell keeps observers in step |
| SenkuProperties.QuietInStep | src/pysenku/model/senkugame.py:122 | reports that are not cell changes keep observers in step while the board is unchanged |
| SenkuProperties.MovementDoneInStep | src/pysenku/model/senkugame.py:117-124 | recording a move keeps observers in step |
| SenkuProperties.ExecuteInStep | src/pysenku/model/move.py:52-62 | executing any move keeps observers in step |
| SenkuProperties.UndoInStep | src/pysenku/model/senkugame.py:127-131 | undo keeps observers in step |
| SenkuProperties.FillAllInStep | src/pysenku/model/senkugame.py:70-76 | filling a list of cells one after the other keeps observers in step |
| SenkuProperties.RelaidInStep | src/pysenku/model/senkugame.py:67-78 | laying out the board keeps observers in step: the layout reports turn any copy of the old board into the initial one |
| SenkuProperties.RestartInStep | src/pysenku/model/senkugame.py:160-165 | restart keeps observers in step |
| SenkuProperties.NewGameObserved | src/pysenku/model/senkugame.py:39-46 | an observer that starts with no board and replays a new game's reports has the initial layout |
| Releases.GuardedPush | src/pysenku/releases/pysenku-0.1.py:100-105 | the 0.1 guarded push appends when the class allows it and otherwise changes nothing |
| Releases.BoundedPush | src/pysenku/releases/pysenku-0.1.py:88-105 | the 0.1 bounded stack appends while not full and ignores a push when full |
| Releases.DynamicPush | src/pysenku/releases/pysenku-0.1.py:115-128 | the 0.1 dynamic stack evicts the oldest entry when full and then appends |
| Releases.DynamicPushIsPush | src/pysenku/releases/pysenku-0.1.py:108-128 | the 0.1 dynamic stack pushes exactly like the current one |
| Releases.BoundedAgainstDynamic | src/pysenku/releases/pysenku-0.1.py:74-128 | the two 0.1 stacks agree until full; when full the bounded one keeps its contents and the dynamic one drops its oldest entry |
| Releases.EarlyJump | src/pysenku/releases/pysenku-0.2.py:257-259 | the early releases fill the destination, then empty the origin and the midpoint, reporting in that order |
| Releases.Move02 | src/pysenku/releases/pysenku-0.2.py:251-263 | the 0.2 move rejects illegal moves unchanged; a legal one jumps, pushes, reports and checks the end with tracking on |
| Releases.Recorded01 | src/pysenku/releases/pysenku-0.1.py:270-271 | 0.1 recording pushes the move on its dynamic stack and reports the history change |
| Releases.Move01 | src/pysenku/releases/pysenku-0.1.py:262-271 | the 0.1 move behaves like 0.2's, without an end-of-game check |
| Releases.EarlyJumpSameBoard | src/pysenku/releases/pysenku-0.2.py:257-259 | the early effect order reaches the same board as the current one |
| Releases.Move02AgainstExecute | src/pysenku/releases/pysenku-0.2.py:251-263 | the 0.2 move ends in the current move's state; its reports differ only in the order of the first two cell changes |
| Releases.Move01IsUntracked | src/pysenku/releases/pysenku-0.1.py:262-271 | a 0.1 move is a 0.2 move with tracking off |
| Releases.UndoAction | src/pysenku/releases/pysenku-0.2.py:364-369 | the 0.2 undo record recomputes the midpoint, fills the origin and midpoint, and empties the destination |
| Releases.UndoActionIsRevert | src/pysenku/releases/pysenku-0.1.py:357-362 | recomputing the midpoint at undo time reverses the same cells as the current stored midpoint |
| Releases.Undo02 | src/pysenku/releases/pysenku-0.2.py:288-292 | the 0.2 undo pops the newest record and reverses it on the board |
| Releases.Undo02IsUndo | src/pysenku/releases/pysenku-0.1.py:302-306 | the early undo equals the current one |

## Left out

- Observer registration and dispatch (`Subject`, `Observer`, aspects) are not modelled. A notification is modelled as an event appended to the game's trace; who receives it is outside the model.
- The Tk user interface, `main_pysenku.py`, and the 0.5 configuration file I/O (`read_conf`, `write_conf`) are not modelled. They are I/O. The configured undo depth and tracking flag are `NewGame` parameters.
- `UNDO_STACK` carries the live stack object in the source. The model carries only whether it is empty, which is the only thing observers ask of it.
- `avg` returns floats under Python 3 (`/`). The model uses integer halves. The contract of `Boards.Mid` shows they are the same cell whenever the distance rule holds, which is the only time the engine looks the midpoint up.
- Python exceptions are preconditions rather than error results:
  - popping an empty history (`IndexError`);
  - pushing onto a capacity-0 stack, where `pop(0)` fails on an empty list;
  - a move naming a cell that is not a board key: `Senku.Execute` requires both cells to be board cells. The source raises `KeyError` for some such pairs, when the distance rule holds and a lookup reaches the missing key. It silently ignores others, such as origin (0, 0) with destination (5, 5), where the distance rule fails first. The interface only ever passes board cells: `get_position_from_pixels` (`src/pysenku/ui/uisenku.py`, lines 215-224) turns a click outside the board keys into no position.
- `ValidGame` asks for a positive capacity.
- Dictionary iteration order is taken to be insertion order, so the board keys are visited in the fill order of the layout loops (`Boards.CellList`).
- Senku.Restart: requires a board over the cross. The source also lays out a board holding extra keys. `Senku.FillBoard` models that general case and leaves such keys alone.
- Senku.CheckEnd: states its verdict through `HasLegalMove`, which searches the whole cross. `Senku.ScanForMove` is the loop as written. `Senku.MoveAmongCells` connects the two.
- Release 0.1's own base `Stack` class, undo, restart and `get_all_changes` are the current ones and are not repeated. Its `medium_cell` computes the same midpoint as `avg`, floats included.
- Release 0.2's `DynamicBoundedStack`, `__fill_board`, `__check_dist`, `__check_cells`, `check_end`, `get_all_changes` and `restart` are the current ones and are not repeated. That is why `Releases.Move02` records the move and checks the end through `Senku.MovementDone`.
- The getters (`get_board`, `get_undo_stack`, `get_origin`, …) are field reads of the datatypes and need no members.

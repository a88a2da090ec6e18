# Kuba rules engine in Dafny

This project models `KubaGame`, the rules engine of Kuba. Kuba is a two-player marble-pushing game on a 7×7
board.

- Each player owns white or black marbles.
- Red marbles are neutral.
- A move pushes the marble at an origin one step left, right, forward (towards row 0) or backward (towards
  row 6).
- The marbles in front of it move as a block up to the first empty cell.
- If there is no empty cell, the marble on the far edge falls off the board.
- Capturing a seventh red marble wins, and so does eliminating a colour: the player who does not own the
  eliminated colour wins.

The model keeps the engine's form: a class whose methods update its fields in place.

| file | module | contents |
|---|---|---|
| `board.dfy` | `Board` | Cells, directions and the 7×7 grid. The ray from an origin to the edge (`Line`), the first empty cell after the origin (`StopIndex`), and the pure specification of a push (`ShiftLine`, `Push`). Marble counts and conservation, the starting layout, and the loop-invariant predicates of the four push loops. |
| `rules.dfy` | `Rules` | Players, the five counters (`Tally`) and their agreement with the board (`InSync`). What a push-off does to the counters (`RemoveMarble`) and to the winner (`NextWinner`). Move legality (`Legal`). The scans of a line exactly as the engine writes them (`Ahead`, `RemovalScan`, `SourceAllows`), with lemmas that tie them to the single rule. |
| `game.dfy` | `Game` | Class `KubaGame`: the board, the previous board, the counters, the last mover and the winner. `MakeMove`, `ValidateMove`, the trial push and restore, `MoveMarble` with its four push loops, the counter and winner updates, and the getters. |

## How the model follows the engine

- **The push loops.** `ShiftLeft`, `ShiftRight`, `ShiftForward` and `ShiftBackward` are the engine's four
  `for` loops with `break`. Each writes one cell per step from the saved previous board.
  - Each is proved to yield `Push(old(board), r, c, d)`.
  - The loop invariant is `Pushing`: the first `m` cells after the origin are shifted, and the stop has not
    been reached.
  - The Backward loop empties the origin inside the loop. It is proved to give the same result as the other
    three.
- **The removal scans.** The scan that decides whether a marble fell off follows the engine's slices, and the
  Backward scan includes the origin.
  - `RemovalScanMatchesLine` proves that each scan agrees with "the line ahead of the origin is full".
  - The proof holds whenever the origin holds a marble, which every validated move guarantees.
- **The trial push.** `ValidateMove` runs the real push on the board (`TrialPush`) to detect a repeated
  position, then puts the board and the five counters back (`Restore`).
  - The trial runs before the edge and direction checks.
  - It leaves the saved previous board set to the current board.
  - It leaves the winner as the trial's winner check set it.
- **The winner check.** `UpdateWinner` runs the capture chain first and then the elimination chain, so an
  elimination overrides a capture win in the same call.

The source's intent and its code disagree in three places. The model follows the code in each.

- **Rejected moves have side effects.** A rejected move is meant to be free of side effects. The code only
  restores the board and the counters after the trial: a move rejected after the trial keeps the trial's
  previous board and winner.
  - `MakeMove` states both.
  - `EdgeTrialCanEndGame` shows a rejected move that ends the game.
  - `RejectedMoveClearsRepetition` shows that the repetition rule can then be sidestepped. A player first
    submits a move that fails the edge or direction checks. After that, no move from the position can match
    the saved board.
- **The winner can change within one check.** The winner is meant to be terminal. Across moves it is, because
  no move is legal once it is set. Within one winner check, however, the elimination chain can overwrite a
  capture win.
- **Out-of-range coordinates.** These are meant to be rejected. The code reads the origin cell before its
  range check. The model makes the coordinates a precondition (see "Left out").

## Model

| member | source | states |
|---|---|---|
| Board.InitialGrid | KubaGame.py:21-27 | The starting layout, row 0 on top: 2×2 white and black corner blocks placed diagonally opposite, around a diamond of 13 red marbles. Its marble counts are proved in `InitialCounts`. |
| Board.ShiftLine | KubaGame.py:197-244 | A push along one line: the origin becomes empty, every cell from the origin up to the stop moves one step towards the edge, and the rest stays. The last marble falls off when there is no stop. Its multiset behaviour is proved in `ShiftLineMarbles`. |
| Board.Push | KubaGame.py:197-244 | The board after a push: the origin's ray is replaced by its `ShiftLine`, and every other cell keeps its marble. Its shape is proved in `PushShape`, its marble counts in `PushCount`, and the four loops are proved to compute it (`ShiftLeft` … `ShiftBackward`). |
| Board.StopIndex | KubaGame.py:197-202 | The stop is the first empty cell after the origin, or the line's length when there is none. The line is pushed off exactly when no cell after the origin is empty. |
| Board.ShiftLineMarbles | KubaGame.py:197-244 | Shifting a line keeps its multiset of cells unless the line pushes off. Then exactly the far-edge marble is exchanged for an empty cell. |
| Board.PushShape | KubaGame.py:197-244 | After a push the origin is empty. Every marble from the origin up to the stop has moved one step along d, and the stop cell is filled. Cells beyond the stop and cells off the ray keep their marble. |
| Board.PushChangesBoard | KubaGame.py:73-78 | Pushing a marble always changes the board, so a trial push never equals the board it started from. |
| Board.PushCount | KubaGame.py:191-252 | For every cell kind, the count after a push equals the count before, minus one when that kind is the far-edge marble pushed off. |
| Board.InitialCounts | KubaGame.py:15-27 | The starting layout holds 8 white, 8 black and 13 red marbles. |
| Board.CountPositive | KubaGame.py:355-366 | A marble found on a board is counted by that board's count of its colour. |
| Board.PushStep | KubaGame.py:198-202 | One loop step writes the next cell with the previous board's marble one step behind it. When that cell was empty the push is complete; otherwise it is still in progress. |
| Board.PushingAtEdge | KubaGame.py:198-202 | A loop still pushing when it reaches the edge has moved every marble. |
| Board.EmptyOriginKeepsPushing | KubaGame.py:238-239 | Emptying the origin inside the Backward loop keeps the push in progress. |
| Board.ShiftedIsPush | KubaGame.py:197-203 | A completed loop followed by emptying the origin gives exactly `Push`. |
| Rules.InitialInSync | KubaGame.py:13-27 | The starting counters (8, 8, 13, 0, 0) agree with the starting layout. |
| Rules.RemoveMarble | KubaGame.py:254-303 | A marble of colour e pushed off lowers the remaining count of e by one and no other colour's count. A red marble also raises the mover's captures by one. The opponent's captures are unchanged. |
| Rules.NextWinner | KubaGame.py:305-325 | When a colour has no marble left, the player not owning it wins; with both gone, player B wins. Otherwise more than 6 captures by A, then by B, wins. Otherwise the winner is unchanged. |
| Rules.NextWinnerIdempotent | KubaGame.py:305-325 | Checking the winner twice on the same counters gives the same winner as checking once. |
| Rules.WinnerAfterPushIdempotent | KubaGame.py:33-37 | Repeating the same push from the same counters, as a move does after its trial, gives the winner of the trial. |
| Rules.PushKeepsTallyInSync | KubaGame.py:191-303 | A push and its counter update keep the counters equal to the board's contents. They keep both capture counts non-negative, and keep red on the board plus captures at 13. |
| Rules.MarbleLeavesOnlyWhenLineFull | KubaGame.py:205-252 | A push never raises a colour's count. It lowers it exactly when the line ahead is full and the far-edge marble has that colour. |
| Rules.TallyAfterPush | KubaGame.py:205-252 | The counters after a push: `RemoveMarble` of the far-edge marble when the line ahead was full, otherwise unchanged. Red on the board plus captures is kept, the opponent's captures are kept, and no colour's count rises. |
| Rules.WinnerAfterPush | KubaGame.py:205-252 | The winner after a push: `NextWinner` of the new counters when a marble fell off, otherwise unchanged. The winner changes only on a push-off, and only to a player. |
| Rules.TrialRuns | KubaGame.py:47-56 | The checks before the trial: no winner, the mover did not make the last move, and the origin holds the mover's colour. The rejection is proved in `NoMoveAfterWinOrTwice`. |
| Rules.SourceAllows | KubaGame.py:96-187 | The four per-direction checks as the engine writes them. They are proved equivalent to `DirectionAllows` in `SourceChecksMatchRule`. |
| Rules.Legal | KubaGame.py:41-189 | The answer of move validation: the first checks pass, the trial push does not give the saved previous board, and the direction checks pass. Its consequences are proved in `LegalMoveOrigin`, `NoSelfPushOff` and `PushedOffMarbleIsForeign`. `ValidateMove` and `MakeMove` return it. |
| Rules.Ahead | KubaGame.py:105-179 | The cells the legality check scans: the row slice or the collected column after the origin, one cell per position ahead of it. Proved in `AheadMatchesLine` to hold no empty cell iff the line is full. |
| Rules.RemovalScan | KubaGame.py:205-248 | The cells the move scans for a push-off. They are those of `Ahead`, except that the Backward scan has one cell more, the origin. Proved in `RemovalScanMatchesLine` to agree with the line being full when the origin holds a marble. |
| Rules.SourceChecksMatchRule | KubaGame.py:96-187 | The four hand-written direction checks are equivalent to one rule. The origin is not on the edge it is pushed towards. The cell behind it is empty, unless it is on the opposite edge. A full line does not push off a marble of the mover's colour. |
| Rules.EdgeCells | KubaGame.py:96-187 | For each direction: the edge tests, the cell behind the origin and the far-edge cell, as the engine indexes them. |
| Rules.NoSelfPushOff | KubaGame.py:105-187 | A move that passes the other checks and pushes a marble off is legal iff the pushed-off marble is not of the mover's colour. |
| Rules.PushedOffMarbleIsForeign | KubaGame.py:105-187 | A legal move that pushes a marble off pushes off a red marble or the opponent's colour. |
| Rules.LegalMoveOrigin | KubaGame.py:50-173 | A legal move's origin holds the mover's colour and is not on the edge it is pushed towards. The cell behind it is empty unless the origin is on the opposite edge. |
| Rules.NoMoveAfterWinOrTwice | KubaGame.py:47-48 | No move is legal once there is a winner, nor for the player who made the previous move. |
| Rules.AheadMatchesLine | KubaGame.py:149-179 | The legality check's scan, a row slice or a collected column, holds no empty cell iff the line ahead of the origin is full. |
| Rules.RemovalScanMatchesLine | KubaGame.py:205-250 | The move's removal scan agrees with "the line ahead is full" whenever the origin holds a marble. The Backward scan, which includes the origin, differs only for an empty origin. |
| Rules.BackwardScanStartsAtOrigin | KubaGame.py:246-248 | The Backward removal scan is the origin cell followed by the cells below it. |
| Rules.EdgeTrialCanEndGame | KubaGame.py:73-100 | A player whose last marble sits on column 0 and who pushes it Left has the move rejected. The trial push nevertheless removed that marble and handed the win to the opponent. |
| Game.CheckSpace | KubaGame.py:149-151 | The loop collects exactly the cells of column c in rows lo up to hi - 1, in order. |
| Game.RemovalSpace | KubaGame.py:205-248 | The cells the move scans are the engine's per-direction slice of the previous board. |
| Game.DirectionChecks | KubaGame.py:96-189 | The per-direction checks accept exactly the moves the single direction rule allows. |
| Game.RejectedMoveClearsRepetition | KubaGame.py:73-91 | A move that is rejected after its trial leaves the current board saved as the previous board. From then on, no push of a marble from that position can be rejected as a repetition. |
| Game.KubaGame.constructor | KubaGame.py:7-27 | A new game has the starting layout, no previous board, no last mover, no winner and counters (8, 8, 13, 0, 0). Its state is consistent. |
| Game.KubaGame.InitialValid | KubaGame.py:13-27 | The starting state is consistent: the counters agree with the board. |
| Game.KubaGame.MakeMove | KubaGame.py:29-39 | Returns whether the move is `Legal`. A made move leaves `Push` on the board, the old board as previous board, the mover as last mover, and the counters and winner of the push. A rejected move keeps the board, counters and last mover; one rejected after the trial keeps the trial's previous board and winner. Nothing changes once there is a winner, nor when the same player moves twice. The state stays consistent. |
| Game.KubaGame.ValidateMove | KubaGame.py:41-189 | The answer is `Legal`. Board and counters are unchanged. When the trial ran, the previous board is the current board and the winner is the trial's. Otherwise both are unchanged. |
| Game.KubaGame.TrialPush | KubaGame.py:73-91 | Reports whether the pushed board equals the saved previous board. Board and counters are restored. The previous board and the winner are left as the push set them. |
| Game.KubaGame.Restore | KubaGame.py:86-91 | The board and the five counters take the saved values. |
| Game.KubaGame.MoveMarble | KubaGame.py:191-252 | The board becomes `Push` of the old board and the previous board becomes the old board. The counters and winner are updated only when a marble fell off. The counters keep agreeing with the board. |
| Game.KubaGame.Shift | KubaGame.py:197-244 | The push loop of direction d leaves `Push(old(board), r, c, d)`. |
| Game.KubaGame.ShiftLeft | KubaGame.py:197-203 | The Left loop leaves `Push(old(board), r, c, Left)`. |
| Game.KubaGame.ShiftRight | KubaGame.py:209-215 | The Right loop leaves `Push(old(board), r, c, Right)`. |
| Game.KubaGame.ShiftForward | KubaGame.py:221-227 | The Forward loop leaves `Push(old(board), r, c, Forward)`. |
| Game.KubaGame.ShiftBackward | KubaGame.py:237-244 | The Backward loop, which empties the origin at every step, leaves `Push(old(board), r, c, Backward)`. |
| Game.KubaGame.UpdateMarbleCount | KubaGame.py:254-295 | The counters become `RemoveMarble` of the far-edge marble of the previous board. |
| Game.KubaGame.UpdateRedMarbleCount | KubaGame.py:297-303 | One more red marble is captured by the mover and one fewer is on the board. |
| Game.KubaGame.UpdateWinner | KubaGame.py:305-325 | The winner becomes `NextWinner` of the current counters. |
| Game.KubaGame.GetCurrentTurn | KubaGame.py:327-336 | None before the first move. Otherwise, the player who did not make the last move. |
| Game.KubaGame.GetWinner | KubaGame.py:338-344 | The winner slot. When it is set, no move by either player is legal. |
| Game.KubaGame.GetCaptured | KubaGame.py:346-353 | Non-negative. Equals 13 minus the red marbles on the board minus the opponent's captures. |
| Game.KubaGame.GetMarble | KubaGame.py:355-359 | The cell's content; a marble found there is counted among those remaining. |
| Game.KubaGame.GetMarbleCount | KubaGame.py:361-366 | The white, black and red marbles actually on the board, in that order. |

## Left out

- `print_board`: console output only.
- `deepcopy`: boards are immutable sequence values, so saving a board is an assignment.
- Player names: players are `PlayerA` and `PlayerB`, so a name matching neither player, or both players
  sharing a name, are not modelled. The ownership checks, the capture increment and `get_captured` silently
  do nothing for an unknown name; none of that is modelled.
- Colours: `ValidColors` (one player white, the other black) is a precondition of the constructor. The
  engine does not check the colours.
- Coordinates: `OnBoard(r, c)` is a precondition of the moves and of `GetMarble`.
  - The engine reads the origin cell before its range check, so indices of 7 or more raise an exception and
    negative ones wrap around.
  - `get_marble` indexes the board with no check at all.
  - Neither the exception nor the wrap-around is modelled, so the range check itself does not appear.
- Direction strings: directions are an enumeration, so the rejection of a direction other than L, R, F and B
  cannot arise.
- The loss by having no legal move, which the winner check's description mentions but the code does not
  implement, is not added.
- Game.KubaGame.TrialPush: restores the board and counters once after the comparison. The engine repeats the
  same restore in both branches of the comparison, with the same effect.

# Tic-tac-toe on an N×N board: win detection and time-travel history

This project models the game logic of a browser tic-tac-toe game played on
an N×N board, with a move history the players can travel back through. Two
parts are modelled.

- **Board** (`board.dfy`, module `Board`) covers four things.
  - The line set: N rows, N columns and the two diagonals, as index
    sequences over the row-major board. It is built by a loop, exactly as
    the source pushes rows and columns in turn.
  - The winner scan: a nested loop with `break` and an early `return`.
  - The click handler.
  - The status line and the per-cell highlight flag.
- **Game** (`game.dfy`, module `Game`) covers the game component.
  - Its state is the history of board snapshots, the current move (`currentMove`),
    the board size, and the label list with its sort order.
  - The class `Game.Game` holds that state in fields. Its methods are
    `handlePlay`, `jumpTo`, `handleBoardSizeChange`, the board-size reset
    effect, the label effect and the order toggle.
  - Each method is tied to a transition function on the value
    `GameState`. The lemmas are stated about those functions.
- **Decimal** (`decimal.dfy`) prints move numbers in decimal, as a
  template string does. It also holds the parser that proves the history
  labels can be read back.

A cell is `Empty` (the source's `null`), `X` or `O`. A winner of `Empty`
means "no winner".

The model follows the code as written:
- The winner function returns only the winning symbol, not the line's
  indices.
- The scan stops at the first line whose cells are all equal, even when
  those cells are all empty. So an empty top row hides every later
  completed line (`Board.EmptyFirstRowHidesEveryLine`,
  `Board.EmptyTopRowHidesMiddleRow`).
- Lines of one cell (N = 1) never end the scan, so a 1×1 board never has a
  winner.
- Highlighting marks every cell that holds the winner's symbol, not just
  the cells of the winning line (`Board.HighlightReachesOffLineCells`).
- History entries hold boards only, with no move coordinates.
- Labels use the raw 0-based index ("You are at move #0"), with no
  coordinates.

## Model

| member | source | states |
|---|---|---|
| `Board.Mark` | src/components/Board.tsx:48 | the symbol written by a move is never empty |
| `Board.EmptyBoard` | src/components/Game.tsx:28 | `Array(n).fill(null)` has n cells, all empty |
| `Board.Lines` | src/components/Board.tsx:13-25 | for size N there are exactly 2N+2 lines, each of N indices, all in [0, N²) |
| `Board.LinesAt` | src/components/Board.tsx:15-23 | line 2i is row i `[i*N+j]`, line 2i+1 is column i `[j*N+i]`, line 2N is the diagonal `[i*N+i]`, line 2N+1 the anti-diagonal `[i*N+N-1-i]` |
| `Board.BuildLines` | src/components/Board.tsx:13-25 | the push loop produces exactly the line set, in construction order |
| `Board.Scan` | src/components/Board.tsx:27-37 | a non-empty scan result is the first cell of some line whose cells are all equal |
| `Board.ScanFirst` | src/components/Board.tsx:27-37 | the result is the first cell of the first all-equal line in construction order, even when that cell is empty |
| `Board.ScanNone` | src/components/Board.tsx:27-37 | when no line is all-equal the result is empty |
| `Board.CalculateWinner` | src/components/Board.tsx:12-38 | the nested loop with `break` and early `return` computes the scan's result over the constructed lines |
| `Board.Winner` | src/components/Board.tsx:12-38 | the value `useCalculateWinner` returns (the scan over `Lines(N)`); when not empty it is the first cell of a firing line, which needs N ≥ 2; see `ScanFirst`, `ScanNone`, `CalculateWinner` |
| `Board.WinnerSound` | src/components/Board.tsx:27-34 | a non-empty winner fills some whole line, and then N ≥ 2 |
| `Board.EmptyBoardHasNoWinner` | src/components/Board.tsx:27-37 | an all-empty board has no winner |
| `Board.EmptyFirstRowHidesEveryLine` | src/components/Board.tsx:27-37 | when the first row is empty there is no winner, whatever the other lines hold |
| `Board.SingleCellBoardNeverWins` | src/components/Board.tsx:28-34 | a 1×1 board never has a winner, because the inner loop starts at index 1 |
| `Board.HandleClick` | src/components/Board.tsx:43-50 | the click is ignored exactly when the cell is taken or a winner exists; otherwise the new board has the same length, holds the mover's symbol at the index and equals the old board elsewhere |
| `Board.Count` | src/components/Board.tsx:55 | the number of cells holding a value, at most the board's length (used for `squares.every(Boolean)` and the turn invariant) |
| `Board.CountPositive` | src/components/Board.tsx:55 | a value occurs on the board exactly when its count is positive |
| `Board.AllFilled` | src/components/Board.tsx:55 | `squares.every(Boolean)`: no cell is empty, equivalently the board holds zero empty cells |
| `Board.StatusOutcome` | src/components/Board.tsx:55 | a winner is reported exactly when there is one, a draw exactly when there is none and the board is full, otherwise the player to move by `xIsNext`; a reported symbol is never empty |
| `Board.Status` | src/components/Board.tsx:55 | the text is "It's a draw!" exactly when there is no winner and the board is full, and starts with "Winner: " exactly when there is a winner; see `StatusTextInjective` |
| `Board.DrawWhenNoLineFires` | src/components/Board.tsx:27-55 | a full board on which no line of the line set is all-equal reads "It's a draw!" |
| `Board.StatusTextInjective` | src/components/Board.tsx:55 | the status text determines the outcome (winner and symbol, draw, or player to move) |
| `Board.StatusAgreesWithClick` | src/components/Board.tsx:43-56 | a click is taken exactly when the status names a player to move and the cell is free, and the symbol placed is the one the status names |
| `Board.EmptyBoardStatus` | src/components/Board.tsx:55 | on an empty board of at least one cell, with X to move, the status reads "Next player: X" |
| `Board.Highlight` | src/components/Board.tsx:68 | only non-empty cells are highlighted |
| `Board.HighlightCoversWinningLine` | src/components/Board.tsx:68 | when a winner exists, every cell of some full line is highlighted |
| `Board.HighlightReachesOffLineCells` | src/components/Board.tsx:68 | on a 3×3 board where the top row fires and gives winner X, cell 4 lies on no line held wholly by X and is still highlighted |
| `Board.LinesOfThree` | src/components/Board.tsx:13-25 | the eight lines of a 3×3 board, listed in construction order |
| `Board.NoWinnerAfterThreeMoves` | src/components/Board.tsx:27-55 | after X 0, O 4, X 8 there is no winner and the status reads "Next player: O" |
| `Board.TopRowWins` | src/components/Board.tsx:27-55 | a completed top row of X gives winner X and the status "Winner: X" |
| `Board.EmptyTopRowHidesMiddleRow` | src/components/Board.tsx:27-37 | on a 3×3 board where X holds the middle row, the empty top row is an all-equal line that fires, and the winner is empty |
| `Board.MiddleRowPositionReachable` | src/components/Board.tsx:43-50 | that position is reached from the empty board by the clicks X 3, O 6, X 4, O 7, X 5, each accepted by the click handler given the scanned winner |
| `Decimal.NatToString` | src/components/Game.tsx:42 | a move number prints as a non-empty string of decimal digits, with two or more digits exactly from 10 up |
| `Decimal.ParseNatToString` | src/components/Game.tsx:42-44 | parsing the printed move number gives the number back |
| `Game.Initial` | src/components/Game.tsx:5-9 | the first state has a one-entry history of 9 empty cells, currentMove 0 and size 3, and meets the history invariants |
| `Game.XIsNext` | src/components/Game.tsx:10 | definition: X is next exactly when currentMove is even; `Played` flips it and `TurnMatchesMarks` ties it to the board |
| `Game.CurrentSquares` | src/components/Game.tsx:11 | definition: the displayed board is `history[currentMove]`; `Played` states it is the board just played |
| `Game.Played` | src/components/Game.tsx:13-20 | play keeps entries 0..currentMove unchanged, appends the new board, gives a history of currentMove+2 entries, points at the new last entry and flips the turn |
| `Game.Jumped` | src/components/Game.tsx:22-24 | a jump changes only currentMove; the state stays valid exactly when the target is in range |
| `Game.Resized` | src/components/Game.tsx:26-30 | resize sets the size and leaves one all-empty board of newSize² cells, with currentMove 0 |
| `Game.Reset` | src/components/Game.tsx:32-35 | the size effect is the resize to the current size |
| `Game.JumpThenPlay` | src/components/Game.tsx:13-24 | jumping to k and playing keeps entries 0..k, drops the rest and leaves k+2 entries |
| `Game.ResetIdempotent` | src/components/Game.tsx:26-35 | running the reset effect after a resize, or twice, changes nothing |
| `Game.CountEmptyBoard` | src/components/Game.tsx:28 | an empty board holds no X and no O |
| `Game.CountUpdate` | src/components/Board.tsx:47-48 | setting one cell changes each symbol's count by what left the cell and what arrived |
| `Game.ClickPreservesWellPlayed` | src/components/Game.tsx:10-20 | an accepted click followed by play keeps every history entry k at ceil(k/2) X's and floor(k/2) O's |
| `Game.TurnMatchesMarks` | src/components/Game.tsx:10-11 | on such a history X is next exactly when the displayed board has as many X's as O's, and X is never behind or more than one ahead |
| `Game.Label` | src/components/Game.tsx:41-47 | definition: "You are at move #m" for the current entry, else "Go to move #m" for m > 0, else "Go to game start"; see `LabelRoundTrip` |
| `Game.Labels` | src/components/Game.tsx:39-47 | definition: the labels of `history.map`, one per entry in index order; see `LabelsIdentifyEntries` |
| `Game.LabelRoundTrip` | src/components/Game.tsx:39-47 | a label can be read back to its entry index and to whether it is the current entry |
| `Game.LabelsIdentifyEntries` | src/components/Game.tsx:39-47 | there is one label per history entry in ascending order, and only the current entry's label says "You are at move" |
| `Game.LabelsDistinct` | src/components/Game.tsx:39-47 | different entries get different labels |
| `Game.Reverse` | src/components/Game.tsx:64-66 | the reversed list has the same length and element i is the old element n-1-i |
| `Game.Toggled` | src/components/Game.tsx:95 | the toggle always changes the order |
| `Game.ToggleTwiceRestores` | src/components/Game.tsx:64-66 | toggling the order twice restores both the order and the label list |
| `Game.Game.constructor` | src/components/Game.tsx:5-9 | the component starts in the initial state, ascending, with no labels yet |
| `Game.Game.HandlePlay` | src/components/Game.tsx:13-20 | the fields move as `Played` says; order and labels are untouched |
| `Game.Game.JumpTo` | src/components/Game.tsx:22-24 | only currentMove changes |
| `Game.Game.HandleBoardSizeChange` | src/components/Game.tsx:26-30 | the fields move as `Resized` says |
| `Game.Game.ResetForBoardSize` | src/components/Game.tsx:32-35 | the fields move as `Reset` says |
| `Game.Game.RefreshHistoryMoves` | src/components/Game.tsx:37-62 | the label list becomes the ascending labels of the current history and currentMove; the game state is unchanged |
| `Game.Game.ToggleHistoryOrder` | src/components/Game.tsx:64-66 | the order flips and the current label list is reversed; the game state is unchanged |
| `Game.Game.ClickSquare` | src/components/Board.tsx:41-50 | a click on the displayed board plays exactly when the click handler, given the scanned winner and the turn, accepts it; otherwise nothing changes; every snapshot keeps boardSize² cells and a well-played history stays well played |

## Left out

- Square component: pure presentation (a button styled by `highlight`), with no logic.
- JSX, DOM rendering, Tailwind classes and the grid layout: these are UI.
- React machinery: `useMemo`, `useState`, `useCallback`, `React.memo` and effect scheduling.
  - The memoised line set is the pure function `Board.Lines` of N, rebuilt on every scan.
  - Effects are methods the caller runs; when and in what order React runs them is not modelled.
  - This includes how the reverse effect interacts with the labels rebuilt after a move: the rebuilt list is always ascending.
  - The status is modelled as the value the status effect stores; the `null` shown before that effect first runs is not.
- Parsing of the board-size input (`Number(e.target.value)`) and the input's `min`/`max` attributes. The board size is a natural number, so negative, fractional and NaN sizes are not modelled.
- Board.HandleClick: requires the index to lie inside the board. Every call site passes the index of an existing cell, so a click past the end (which would grow the array) is not modelled.
- Game.Played: requires a valid state (a non-empty history and currentMove in range). Every other transition keeps that invariant. A jump to an out-of-range index is modelled, and `Game.Jumped` states that it breaks the invariant.
- Game.Game.ClickSquare: requires every snapshot to have boardSize² cells. Its own contract, `Game.Resized` and `Game.Jumped` keep that, so chained clicks, jumps and resizes can always click again; only `HandlePlay` called directly with a board of another length breaks it.
- The code stores no move coordinates, labels entries by their raw 0-based index and returns no winning line's indices, so none of these is modelled.

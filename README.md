# Tic-tac-toe engine

This project models the tic-tac-toe widget of a personal landing page and proves properties of it.
The human plays X and a random-move opponent plays O.
All of the logic sits in one React component file.

- `wrappers.dfy` holds `Option`. `None` stands for JavaScript's `null` and `undefined`.
- `engine.dfy` (module `TicTacToeEngine`) holds the pure board functions.
  - A board is a sequence of exactly nine cells, each `None` or a `Player` (`X` or `O`).
  - `WinningCombinations` lists the eight lines in the source's order: three rows, three columns, two diagonals.
  - `checkWinner` and `getWinningLine` are loops with early return in the source. They become the methods
    `CheckWinner` and `GetWinningLine`, each proved equal to a recursive scan function (`Winner`, `WinningLine`). Lemmas state what these scans find.
  - `getEmptySquares` and `getEasyMove` are expressions, so they become functions.
- `game.dfy` (module `TicTacToeGame`) holds the component's state.
  - The five `useState` variables are the fields of the class `TicTacToe`.
  - `makeMove`, `handleClick`, `resetGame` and the opponent's turn are its methods.
  - Each method is proved against a transition function on the value `GameState`: `AfterMove`, `AfterClick`,
    `Fresh` and `AfterAiStep`.
  - `Consistent` is the invariant of every reachable state. It says:
    - X moves first and the turns alternate;
    - the game continues only while no line is complete and a square is free;
    - `winner` and `winningLine` are the board's;
    - every complete line belongs to the recorded winner.
  - `Run` applies a sequence of clicks, opponent turns and resets.
  - `StatusMessage` is `getStatusMessage`'s choice among its five messages.
- `scenarios.dfy` checks a few concrete games.

The random draw `Math.floor(Math.random() * n)` is a parameter `r`.
`RandomPick(r, n)` gives its range: `r < n`, or `r == 0` when `n` is 0.
React's setters are modelled as immediate field assignments.
`makeMove` copies the board before writing one cell. The model writes that as a sequence update, which makes a new value.

Some behaviour of the code is easy to overlook. The model follows the code in each case:

- On a full board `getEasyMove` indexes past the end of the list and returns `undefined`, and the opponent's turn then skips the move. `GetEasyMove` returns `None` there. `AiAlwaysMoves` shows that this case never arises in a reachable state.
- A draw sets only `gameOver`. `isPlayerTurn` and `winner` keep the values they had before the last move.
- `makeMove` itself writes the square without checking it. Only `handleClick`'s guard and the opponent's choice among the empty squares keep it from overwriting a mark.
- The opponent's move is always the random pick of `getEasyMove`, called directly from the effect.

## Model

| member | source | states |
|---|---|---|
| `TicTacToeEngine.WinnerFromFindsFirst` | src/components/TicTacToe.tsx:14-21 | from line k of the scan on, checkWinner's loop gives None exactly when no later line is complete. Otherwise it gives the mark of the first complete line, and that mark holds some line from k on |
| `TicTacToeEngine.WinnerFindsFirst` | src/components/TicTacToe.tsx:8-21 | checkWinner is null exactly when none of the eight lines is complete. Otherwise it is the mark of the first complete line in declared order, and that mark holds all three squares of some line |
| `TicTacToeEngine.WinningLineFromFindsFirst` | src/components/TicTacToe.tsx:23-31 | from line k of the scan on, getWinningLine's loop gives None exactly when no later line is complete. Otherwise it gives the first complete line |
| `TicTacToeEngine.WinningLineFindsFirst` | src/components/TicTacToe.tsx:8-31 | getWinningLine is null exactly when no line is complete. Otherwise it is the first complete line in declared order |
| `TicTacToeEngine.CheckWinner` | src/components/TicTacToe.tsx:14-21 | the loop with early return computes exactly `Winner(board)` |
| `TicTacToeEngine.GetWinningLine` | src/components/TicTacToe.tsx:23-31 | the loop with early return computes exactly `WinningLine(board)` |
| `TicTacToeEngine.ScansAgreeFrom` | src/components/TicTacToe.tsx:14-31 | from any line k on, the two scans stop at the same line, and every square of that line holds the reported winner |
| `TicTacToeEngine.WinningLineHeldByWinner` | src/components/TicTacToe.tsx:14-31 | getWinningLine is non-null exactly when checkWinner is non-null; the line is one of the eight, and all three of its squares hold the winner |
| `TicTacToeEngine.WinnerOfSoleHolder` | src/components/TicTacToe.tsx:14-21 | a board where p holds a line and the other player holds none has winner p |
| `TicTacToeEngine.EmptyBelow` | src/components/TicTacToe.tsx:33-35 | the empty squares below n, strictly ascending, and every empty square below n is listed |
| `TicTacToeEngine.GetEmptySquares` | src/components/TicTacToe.tsx:33-35 | strictly ascending, and a square is listed exactly when it is empty |
| `TicTacToeEngine.FullIffNoEmptySquares` | src/components/TicTacToe.tsx:33-35 | the list is empty exactly when every square is marked |
| `TicTacToeEngine.EmptyAndMarkedBelow` | src/components/TicTacToe.tsx:33-35 | among the first n squares, empty ones plus X's plus O's number n |
| `TicTacToeEngine.EmptyAndMarked` | src/components/TicTacToe.tsx:33-35 | the length of getEmptySquares plus the number of marked squares is 9 |
| `TicTacToeEngine.CountBelowAfterWrite` | src/components/TicTacToe.tsx:104-105 | writing one square changes the count of each cell value below n by the old and new content of that square only |
| `TicTacToeEngine.CountAfterWrite` | src/components/TicTacToe.tsx:104-105 | writing one square moves it out of the count of its old content and into that of the new one |
| `TicTacToeEngine.GetEasyMove` | src/components/TicTacToe.tsx:38-41 | for a draw in range of Math.floor(Math.random() * n): undefined exactly when the board is full; otherwise an empty square |
| `TicTacToeEngine.EveryEmptySquareReachable` | src/components/TicTacToe.tsx:38-41 | every empty square is the opponent's pick for some possible draw |
| `TicTacToeGame.MoveOutcome` | src/components/TicTacToe.tsx:103-118 | makeMove writes the mark at index, keeps every other square, then: on a win it sets winner, gameOver and the (non-null) winning line; on a full board without winner it sets only gameOver; otherwise only the turn, to "player's turn" exactly when O moved |
| `TicTacToeGame.MoveFillsOneSquare` | src/components/TicTacToe.tsx:103-106 | a move on an empty square makes getEmptySquares one shorter |
| `TicTacToeGame.FreshIsConsistent` | src/components/TicTacToe.tsx:84-88 | the initial state satisfies the reachable-state invariant |
| `TicTacToeGame.NewLinesThroughMove` | src/components/TicTacToe.tsx:104-112 | on a board without a complete line, every line a move completes is held by the mover |
| `TicTacToeGame.MoveKeepsConsistent` | src/components/TicTacToe.tsx:103-118 | a move by the player to move on an empty square of a running game keeps the invariant |
| `TicTacToeGame.ClickKeepsConsistent` | src/components/TicTacToe.tsx:120-123 | handleClick keeps the invariant |
| `TicTacToeGame.AiAlwaysMoves` | src/components/TicTacToe.tsx:91-101 | in a reachable state where the opponent is to move, getEasyMove finds a square, so the undefined guard never skips a move |
| `TicTacToeGame.AiStepKeepsConsistent` | src/components/TicTacToe.tsx:91-101 | the opponent's turn keeps the invariant |
| `TicTacToeGame.RunKeepsConsistent` | src/components/TicTacToe.tsx:91-131 | any sequence of clicks, opponent turns and resets keeps the invariant |
| `TicTacToeGame.ReachableIsConsistent` | src/components/TicTacToe.tsx:84-131 | every state reached from a new component satisfies the invariant |
| `TicTacToeGame.OverUntilReset` | src/components/TicTacToe.tsx:92-123 | once gameOver holds, clicks and opponent turns leave the whole state unchanged; only a reset changes it |
| `TicTacToeGame.StepFillsAtMostOneSquare` | src/components/TicTacToe.tsx:91-123 | a click or opponent turn that changes the board fills exactly one free square; one that does not change it leaves the free squares as they were |
| `TicTacToeGame.MovesBoundedByFreeSquares` | src/components/TicTacToe.tsx:91-123 | in any sequence of clicks and opponent turns without a reset, the number of board-changing events is at most the number of free squares at the start |
| `TicTacToeGame.AtMostNineMoves` | src/components/TicTacToe.tsx:84-123 | from a new component, at most nine moves are accepted before a reset |
| `TicTacToeGame.StatusReportsWinner` | src/components/TicTacToe.tsx:133-139 | in a reachable state the "you won" and "opponent wins" messages show exactly when checkWinner reports X or O |
| `TicTacToeGame.StatusReportsTie` | src/components/TicTacToe.tsx:140-142 | in a reachable state the tie message shows exactly when the board is full and no line is complete |
| `TicTacToeGame.StatusReportsTurn` | src/components/TicTacToe.tsx:143-146 | in a reachable state "your turn" shows exactly when the game runs with as many X's as O's, and "thinking" exactly when there is one X more |
| `TicTacToeGame.TicTacToe.constructor` | src/components/TicTacToe.tsx:84-88 | a new component is in the fresh state: empty board, player's turn, not over, no winner, no line |
| `TicTacToeGame.TicTacToe.MakeMove` | src/components/TicTacToe.tsx:103-118 | the new state is `AfterMove` of the old one: the mark is written, and then a win, a draw or a change of turn is recorded as `MoveOutcome` states |
| `TicTacToeGame.TicTacToe.HandleClick` | src/components/TicTacToe.tsx:120-123 | the new state is `AfterClick` of the old; a click on a marked square, after the game is over or on the opponent's turn changes nothing |
| `TicTacToeGame.TicTacToe.ResetGame` | src/components/TicTacToe.tsx:125-131 | from any state the result is the fresh state, so a second reset changes nothing |
| `TicTacToeGame.TicTacToe.AiStep` | src/components/TicTacToe.tsx:91-101 | the new state is `AfterAiStep` of the old; nothing changes unless the opponent's turn is pending |
| `TicTacToeScenarios.TopRowWins` | src/components/TicTacToe.tsx:14-31 | X X X on the top row gives winner X and line [0, 1, 2] |
| `TicTacToeScenarios.EarlierLineWins` | src/components/TicTacToe.tsx:14-31 | with complete rows for both players, the earlier row's mark and line are reported |
| `TicTacToeScenarios.DrawnBoardHasNoLine` | src/components/TicTacToe.tsx:14-35 | the full board X O X / X O O / O X X has no winner, no winning line and no empty square |
| `TicTacToeScenarios.DrawnGame` | src/components/TicTacToe.tsx:108-117 | the ninth move without a line ends the game with no winner, no line and the tie message |
| `TicTacToeScenarios.CentreBoardIsOpen` | src/components/TicTacToe.tsx:14-35 | a board whose only mark is X in the centre has no winner and still has free squares |
| `TicTacToeScenarios.FirstMoveInCentre` | src/components/TicTacToe.tsx:116-122 | clicking the centre of a fresh board keeps the game running and hands the turn to the opponent |
| `TicTacToeScenarios.ClickOnMarkedSquare` | src/components/TicTacToe.tsx:120-121 | a click on a marked square leaves the state unchanged |

## Left out

- Rendering, JSX and CSS classes. The status message's icon, text and colour are presentation, so `StatusMessage` returns only which of the five messages is shown.
- The per-square "just placed" flag and its 400 ms timer (src/components/TicTacToe.tsx:50-59). This is animation timing.
- The 600 ms delay before the opponent moves, and the timer cleanup. The opponent's turn is a synchronous step (`AiStep`, `AfterAiStep`) that the environment triggers. Scheduling and the cancellation of a pending move on reset are not modelled.
- `Math.random` and `Math.floor`. They are replaced by the draw `r`, constrained by `RandomPick`. The model does not show that the draw is uniform.
- React's batched, asynchronous state updates and stale closures. Setters are treated as immediate assignments.
- The icon library and the `Button` component, which are foreign code.
- The hero page src/pages/Index.tsx, which holds no logic.
- `makeMove`'s `player` argument may be `null` in the source's type. Every caller passes 'X' or 'O', so the model's `player` is a `Player`.
- Highlighting of the winning squares (`winningLine.includes`). This is presentation over the modelled `winningLine` field.

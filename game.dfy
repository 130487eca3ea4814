/**
 * The stateful shell of the tic-tac-toe component: the five pieces of state,
 * the move, the human click, the opponent's turn, the reset and the status line.
 */
module TicTacToeGame {
  import opened Wrappers
  import opened TicTacToeEngine

  /** A snapshot of the component's state. */
  datatype GameState = GameState(
    board: Board,
    isPlayerTurn: bool,
    gameOver: bool,
    winner: Option<Player>,
    winningLine: Option<Line>)

  /** The state of a new component, and after a reset. */
  const Fresh: GameState := GameState(EmptyBoard, true, false, None, None)

  /** makeMove: write the mark, then record a win, a draw, or hand the turn over. */
  function AfterMove(s: GameState, index: Square, player: Player): GameState {
    var newBoard := s.board[index := Some(player)];
    var gameWinner := Winner(newBoard);
    if gameWinner.Some? then
      s.(board := newBoard, winner := gameWinner, gameOver := true, winningLine := WinningLine(newBoard))
    else if |GetEmptySquares(newBoard)| == 0 then
      s.(board := newBoard, gameOver := true)
    else
      s.(board := newBoard, isPlayerTurn := player == O)
  }

  /** handleClick: ignored on a marked square, after the game ended, or during the opponent's turn. */
  function AfterClick(s: GameState, index: Square): GameState {
    if s.board[index].Some? || s.gameOver || !s.isPlayerTurn then s
    else AfterMove(s, index, X)
  }

  /** The opponent's turn is pending. */
  predicate AiEnabled(s: GameState) {
    !s.isPlayerTurn && !s.gameOver
  }

  /** The opponent's turn with random draw r: pick a move and play it as O when one exists. */
  function AfterAiStep(s: GameState, r: nat): GameState
    requires AiEnabled(s) ==> RandomPick(r, |GetEmptySquares(s.board)|)
  {
    if !AiEnabled(s) then s
    else match GetEasyMove(s.board, r)
      case None => s
      case Some(move) => AfterMove(s, move, O)
  }

  /** A move writes exactly one square and then takes exactly one of three outcomes. */
  lemma MoveOutcome(s: GameState, index: Square, player: Player)
    ensures var t := AfterMove(s, index, player);
      t.board[index] == Some(player) &&
      (forall j: Square :: j != index ==> t.board[j] == s.board[j])
    ensures var t := AfterMove(s, index, player);
      Winner(t.board).Some? ==>
        t.gameOver && t.winner == Winner(t.board) && t.winningLine.Some? &&
        t.winningLine == WinningLine(t.board) && t.isPlayerTurn == s.isPlayerTurn
    ensures var t := AfterMove(s, index, player);
      Winner(t.board).None? && Full(t.board) ==>
        t.gameOver && t.winner == s.winner && t.winningLine == s.winningLine &&
        t.isPlayerTurn == s.isPlayerTurn
    ensures var t := AfterMove(s, index, player);
      Winner(t.board).None? && !Full(t.board) ==>
        t.gameOver == s.gameOver && t.isPlayerTurn == (player == O) &&
        t.winner == s.winner && t.winningLine == s.winningLine
  {
    var newBoard := s.board[index := Some(player)];
    WinningLineHeldByWinner(newBoard);
    FullIffNoEmptySquares(newBoard);
  }

  /** A move on an empty square shortens getEmptySquares by one. */
  lemma MoveFillsOneSquare(s: GameState, index: Square, player: Player)
    requires s.board[index].None?
    ensures |GetEmptySquares(AfterMove(s, index, player).board)| == |GetEmptySquares(s.board)| - 1
  {
    var newBoard := s.board[index := Some(player)];
    assert AfterMove(s, index, player).board == newBoard;
    EmptyAndMarked(s.board);
    EmptyAndMarked(newBoard);
    CountAfterWrite(s.board, index, Some(player), Some(X));
    CountAfterWrite(s.board, index, Some(player), Some(O));
  }

  /**
   * What every state reachable from a fresh game satisfies: X moves first and
   * the turns alternate, the game goes on only while no line is complete and a
   * square is free, the recorded outcome is the board's, and every complete
   * line belongs to the recorded winner.
   */
  predicate Consistent(s: GameState) {
    var xs := Count(s.board, Some(X));
    var os := Count(s.board, Some(O));
    (xs == os || xs == os + 1) &&
    (!s.gameOver ==> s.isPlayerTurn == (xs == os) && Winner(s.board).None? && !Full(s.board)) &&
    (s.gameOver ==> Winner(s.board).Some? || Full(s.board)) &&
    s.winner == Winner(s.board) && s.winningLine == WinningLine(s.board) &&
    (forall k :: 0 <= k < |WinningCombinations| && Complete(s.board, WinningCombinations[k]) ==>
       s.winner == s.board[WinningCombinations[k].a])
  }

  lemma FreshIsConsistent()
    ensures Consistent(Fresh)
  {
    var b := Fresh.board;
    assert forall k :: 0 <= k < |WinningCombinations| ==> !Complete(b, WinningCombinations[k]);
    WinnerFindsFirst(b);
    WinningLineFindsFirst(b);
    assert b[0].None?;
  }

  /** A mark written on a board without a complete line completes only lines through that square, all held by its player. */
  lemma NewLinesThroughMove(board: Board, index: Square, player: Player)
    requires Winner(board).None?
    ensures forall k :: 0 <= k < |WinningCombinations| && Complete(board[index := Some(player)], WinningCombinations[k]) ==>
      HeldBy(board[index := Some(player)], WinningCombinations[k], player)
  {
    var newBoard := board[index := Some(player)];
    WinnerFindsFirst(board);
    forall k | 0 <= k < |WinningCombinations| && Complete(newBoard, WinningCombinations[k])
      ensures HeldBy(newBoard, WinningCombinations[k], player)
    {
      var l := WinningCombinations[k];
      assert !Complete(board, l);
      assert index == l.a || index == l.b || index == l.c;
    }
  }

  /** A legal move by the player whose turn it is keeps a consistent state consistent. */
  lemma MoveKeepsConsistent(s: GameState, index: Square, player: Player)
    requires Consistent(s) && !s.gameOver && s.board[index].None?
    requires player == (if s.isPlayerTurn then X else O)
    ensures Consistent(AfterMove(s, index, player))
  {
    var newBoard := s.board[index := Some(player)];
    var t := AfterMove(s, index, player);
    WinnerFindsFirst(newBoard);
    WinningLineHeldByWinner(s.board);
    WinningLineHeldByWinner(newBoard);
    FullIffNoEmptySquares(newBoard);
    NewLinesThroughMove(s.board, index, player);
    CountAfterWrite(s.board, index, Some(player), Some(X));
    CountAfterWrite(s.board, index, Some(player), Some(O));
    if Winner(newBoard).Some? {
      var k :| 0 <= k < |WinningCombinations| && HeldBy(newBoard, WinningCombinations[k], Winner(newBoard).value);
      assert Complete(newBoard, WinningCombinations[k]);
      assert Winner(newBoard) == Some(player);
      assert t == s.(board := newBoard, winner := Some(player), gameOver := true, winningLine := WinningLine(newBoard));
    } else if Full(newBoard) {
      assert t == s.(board := newBoard, gameOver := true);
    } else {
      assert t == s.(board := newBoard, isPlayerTurn := player == O);
    }
  }

  /** handleClick keeps a consistent state consistent. */
  lemma ClickKeepsConsistent(s: GameState, index: Square)
    requires Consistent(s)
    ensures Consistent(AfterClick(s, index))
  {
    if !(s.board[index].Some? || s.gameOver || !s.isPlayerTurn) {
      MoveKeepsConsistent(s, index, X);
    }
  }

  /** On a consistent state the opponent always finds a move: the `undefined` guard never fires. */
  lemma AiAlwaysMoves(s: GameState, r: nat)
    requires Consistent(s) && AiEnabled(s) && RandomPick(r, |GetEmptySquares(s.board)|)
    ensures GetEasyMove(s.board, r).Some?
    ensures AfterAiStep(s, r) == AfterMove(s, GetEasyMove(s.board, r).value, O)
  {
  }

  /** The opponent's turn keeps a consistent state consistent. */
  lemma AiStepKeepsConsistent(s: GameState, r: nat)
    requires Consistent(s)
    requires AiEnabled(s) ==> RandomPick(r, |GetEmptySquares(s.board)|)
    ensures Consistent(AfterAiStep(s, r))
  {
    if AiEnabled(s) {
      var m := GetEasyMove(s.board, r);
      if m.Some? {
        MoveKeepsConsistent(s, m.value, O);
      }
    }
  }

  /** What the outside world can do: click a square, let the opponent play with a random draw, or reset. */
  datatype Event = Click(index: Square) | AiTurn(r: nat) | Reset

  /** The random draw of an opponent turn is one Math.random can produce. */
  predicate CanHappen(s: GameState, e: Event) {
    e.AiTurn? && AiEnabled(s) ==> RandomPick(e.r, |GetEmptySquares(s.board)|)
  }

  function Step(s: GameState, e: Event): GameState
    requires CanHappen(s, e)
  {
    match e
    case Click(index) => AfterClick(s, index)
    case AiTurn(r) => AfterAiStep(s, r)
    case Reset => Fresh
  }

  /** Every event of the sequence can happen in the state it meets. */
  predicate Admissible(s: GameState, events: seq<Event>)
    decreases |events|
  {
    events == [] || (CanHappen(s, events[0]) && Admissible(Step(s, events[0]), events[1..]))
  }

  /** The state after a sequence of events. */
  function Run(s: GameState, events: seq<Event>): GameState
    requires Admissible(s, events)
    decreases |events|
  {
    if events == [] then s else Run(Step(s, events[0]), events[1..])
  }

  lemma {:induction false} RunKeepsConsistent(s: GameState, events: seq<Event>)
    requires Consistent(s) && Admissible(s, events)
    decreases |events|
    ensures Consistent(Run(s, events))
  {
    if events != [] {
      match events[0] {
        case Click(index) => ClickKeepsConsistent(s, index);
        case AiTurn(r) => AiStepKeepsConsistent(s, r);
        case Reset => FreshIsConsistent();
      }
      RunKeepsConsistent(Step(s, events[0]), events[1..]);
    }
  }

  /** Every state a game reaches from the fresh state is consistent. */
  lemma ReachableIsConsistent(events: seq<Event>)
    requires Admissible(Fresh, events)
    ensures Consistent(Run(Fresh, events))
  {
    FreshIsConsistent();
    RunKeepsConsistent(Fresh, events);
  }

  /** Once the game is over, nothing but a reset changes the state. */
  lemma {:induction false} OverUntilReset(s: GameState, events: seq<Event>)
    requires s.gameOver && Reset !in events && Admissible(s, events)
    decreases |events|
    ensures Run(s, events) == s
  {
    if events != [] {
      assert events[0] in events;
      assert Reset !in events[1..] by {
        forall e | e in events[1..] ensures e != Reset { assert e in events; }
      }
      OverUntilReset(Step(s, events[0]), events[1..]);
    }
  }

  /** The number of events in the sequence that change the board: the accepted moves. */
  function MovesIn(s: GameState, events: seq<Event>): nat
    requires Admissible(s, events)
    decreases |events|
  {
    if events == [] then 0
    else (if Step(s, events[0]).board != s.board then 1 else 0) + MovesIn(Step(s, events[0]), events[1..])
  }

  /** An event that changes the board is an accepted move, and it fills exactly one free square. */
  lemma StepFillsAtMostOneSquare(s: GameState, e: Event)
    requires CanHappen(s, e) && !e.Reset?
    ensures |GetEmptySquares(Step(s, e).board)| ==
      |GetEmptySquares(s.board)| - (if Step(s, e).board != s.board then 1 else 0)
  {
    match e {
      case Click(index) =>
        if !(s.board[index].Some? || s.gameOver || !s.isPlayerTurn) {
          MoveFillsOneSquare(s, index, X);
          assert AfterMove(s, index, X).board[index] != s.board[index];
        }
      case AiTurn(r) =>
        if AiEnabled(s) && GetEasyMove(s.board, r).Some? {
          var m := GetEasyMove(s.board, r).value;
          MoveFillsOneSquare(s, m, O);
          assert AfterMove(s, m, O).board[m] != s.board[m];
        }
    }
  }

  /** Without a reset, a sequence of events holds at most as many accepted moves as there are free squares. */
  lemma {:induction false} MovesBoundedByFreeSquares(s: GameState, events: seq<Event>)
    requires Reset !in events && Admissible(s, events)
    decreases |events|
    ensures MovesIn(s, events) <= |GetEmptySquares(s.board)|
  {
    if events != [] {
      assert events[0] in events;
      assert Reset !in events[1..] by {
        forall e | e in events[1..] ensures e != Reset { assert e in events; }
      }
      StepFillsAtMostOneSquare(s, events[0]);
      MovesBoundedByFreeSquares(Step(s, events[0]), events[1..]);
    }
  }

  /** A game started on a fresh board accepts at most nine moves before a reset. */
  lemma AtMostNineMoves(events: seq<Event>)
    requires Reset !in events && Admissible(Fresh, events)
    ensures MovesIn(Fresh, events) <= 9
  {
    MovesBoundedByFreeSquares(Fresh, events);
    EmptyAndMarked(Fresh.board);
  }

  /** The five status lines of getStatusMessage. */
  datatype Status = PlayerWon | OpponentWon | Tie | PlayerToMove | OpponentThinking

  /** getStatusMessage: checked in the order X won, O won, game over, player's turn. */
  function StatusMessage(s: GameState): Status {
    if s.winner == Some(X) then PlayerWon
    else if s.winner == Some(O) then OpponentWon
    else if s.gameOver then Tie
    else if s.isPlayerTurn then PlayerToMove
    else OpponentThinking
  }

  /** On a consistent state the two winning status lines report exactly who holds the first complete line. */
  lemma StatusReportsWinner(s: GameState)
    requires Consistent(s)
    ensures StatusMessage(s) == PlayerWon <==> Winner(s.board) == Some(X)
    ensures StatusMessage(s) == OpponentWon <==> Winner(s.board) == Some(O)
  {
  }

  /** On a consistent state the tie line is shown exactly when the board is full and no line is complete. */
  lemma StatusReportsTie(s: GameState)
    requires Consistent(s)
    ensures StatusMessage(s) == Tie <==>
      Full(s.board) && forall k :: 0 <= k < |WinningCombinations| ==> !Complete(s.board, WinningCombinations[k])
  {
    var noLine := forall k :: 0 <= k < |WinningCombinations| ==> !Complete(s.board, WinningCombinations[k]);
    assert Winner(s.board).None? <==> noLine;
    assert s.winner.None? <==> noLine;
    WinnerFindsFirst(s.board);
    match s.winner {
      case None =>
      case Some(p) => assert p == X || p == O;
    }
    if Full(s.board) && noLine {
      assert s.gameOver;
    }
  }

  /** On a consistent state the turn lines follow the mark counts: equal counts mean it is X's turn. */
  lemma StatusReportsTurn(s: GameState)
    requires Consistent(s)
    ensures StatusMessage(s) == PlayerToMove <==>
      !s.gameOver && Count(s.board, Some(X)) == Count(s.board, Some(O))
    ensures StatusMessage(s) == OpponentThinking <==>
      !s.gameOver && Count(s.board, Some(X)) == Count(s.board, Some(O)) + 1
  {
  }

  /** The component: its five state variables and the operations that set them. */
  class TicTacToe {
    var board: Board
    var isPlayerTurn: bool
    var gameOver: bool
    var winner: Option<Player>
    var winningLine: Option<Line>

    /** The current state as a value. */
    function State(): GameState
      reads this
    {
      GameState(board, isPlayerTurn, gameOver, winner, winningLine)
    }

    constructor ()
      ensures State() == Fresh
    {
      board := EmptyBoard;
      isPlayerTurn := true;
      gameOver := false;
      winner := None;
      winningLine := None;
    }

    /** makeMove: copy the board with the mark written in, then record the outcome. */
    method MakeMove(index: Square, player: Player)
      modifies this
      ensures State() == AfterMove(old(State()), index, player)
    {
      var newBoard := board[index := Some(player)];
      board := newBoard;

      var gameWinner := CheckWinner(newBoard);
      if gameWinner.Some? {
        winner := gameWinner;
        gameOver := true;
        winningLine := GetWinningLine(newBoard);
      } else if |GetEmptySquares(newBoard)| == 0 {
        gameOver := true;
      } else {
        isPlayerTurn := player == O;
      }
    }

    /** handleClick: the human's move as X, ignored when the square is taken, the game is over or it is not the human's turn. */
    method HandleClick(index: Square)
      modifies this
      ensures State() == AfterClick(old(State()), index)
      ensures old(board[index].Some? || gameOver || !isPlayerTurn) ==> unchanged(this)
    {
      if board[index].Some? || gameOver || !isPlayerTurn {
        return;
      }
      MakeMove(index, X);
    }

    /** resetGame: back to the fresh state, from any state. */
    method ResetGame()
      modifies this
      ensures State() == Fresh
    {
      board := EmptyBoard;
      isPlayerTurn := true;
      gameOver := false;
      winner := None;
      winningLine := None;
    }

    /** The opponent's turn, run synchronously with random draw r; nothing happens unless it is pending. */
    method AiStep(r: nat)
      requires !isPlayerTurn && !gameOver ==> RandomPick(r, |GetEmptySquares(board)|)
      modifies this
      ensures State() == AfterAiStep(old(State()), r)
      ensures old(isPlayerTurn || gameOver) ==> unchanged(this)
    {
      if !isPlayerTurn && !gameOver {
        var move := GetEasyMove(board, r);
        if move.Some? {
          MakeMove(move.value, O);
        }
      }
    }
  }
}

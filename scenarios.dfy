/** Concrete games: the behaviour the widget shows on a few fixed boards. */
module TicTacToeScenarios {
  import opened Wrappers
  import opened TicTacToeEngine
  import opened TicTacToeGame

  /** X across the top row wins with line [0, 1, 2]. */
  lemma TopRowWins()
    ensures var b: Board := [Some(X), Some(X), Some(X), None, None, None, None, None, None];
      Winner(b) == Some(X) && WinningLine(b) == Some(Line(0, 1, 2))
  {
    var b: Board := [Some(X), Some(X), Some(X), None, None, None, None, None, None];
    assert FirstCompleteFrom(b, 0, 0);
  }

  /** When both rows one and two are complete, the scan reports the earlier line. */
  lemma EarlierLineWins()
    ensures var b: Board := [Some(O), Some(O), Some(O), Some(X), Some(X), Some(X), None, None, None];
      Winner(b) == Some(O) && WinningLine(b) == Some(Line(0, 1, 2))
  {
    var b: Board := [Some(O), Some(O), Some(O), Some(X), Some(X), Some(X), None, None, None];
    assert FirstCompleteFrom(b, 0, 0);
  }

  /** A full board without three in a row: X O X / X O O / O X X. */
  const DrawnBoard: Board := [Some(X), Some(O), Some(X), Some(X), Some(O), Some(O), Some(O), Some(X), Some(X)]

  /** The drawn board has no winner, no winning line and no empty square. */
  lemma DrawnBoardHasNoLine()
    ensures Winner(DrawnBoard).None? && WinningLine(DrawnBoard).None? && GetEmptySquares(DrawnBoard) == []
  {
    assert forall k :: 0 <= k < |WinningCombinations| ==> !Complete(DrawnBoard, WinningCombinations[k]);
    WinnerFindsFirst(DrawnBoard);
    WinningLineFindsFirst(DrawnBoard);
    FullIffNoEmptySquares(DrawnBoard);
  }

  /** The last move of a drawn game: the board fills without a line and the game ends with no winner. */
  lemma DrawnGame()
    ensures var before := GameState(DrawnBoard[8 := None], true, false, None, None);
      var after := AfterClick(before, 8);
      after.board == DrawnBoard && after.gameOver && after.winner.None? && after.winningLine.None? &&
      StatusMessage(after) == Tie
  {
    var before := GameState(DrawnBoard[8 := None], true, false, None, None);
    assert before.board[8 := Some(X)] == DrawnBoard;
    DrawnBoardHasNoLine();
  }

  /** The board after X takes the centre of an empty board has no line and free squares. */
  lemma CentreBoardIsOpen()
    ensures var b := EmptyBoard[4 := Some(X)];
      Winner(b).None? && !Full(b)
  {
    var b := EmptyBoard[4 := Some(X)];
    assert forall k :: 0 <= k < |WinningCombinations| ==> !Complete(b, WinningCombinations[k]);
    WinnerFindsFirst(b);
    assert b[0].None?;
  }

  /** The first click in the centre leaves the game running and hands the turn to the opponent. */
  lemma FirstMoveInCentre()
    ensures var s := AfterClick(Fresh, 4);
      s.board[4] == Some(X) && !s.gameOver && !s.isPlayerTurn && StatusMessage(s) == OpponentThinking
  {
    CentreBoardIsOpen();
    FullIffNoEmptySquares(EmptyBoard[4 := Some(X)]);
  }

  /** A click on a marked square changes nothing. */
  lemma ClickOnMarkedSquare()
    ensures var s := AfterClick(Fresh, 4);
      AfterClick(s, 4) == s
  {
  }
}

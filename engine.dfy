/**
 * The pure part of the tic-tac-toe component: the board, the eight winning
 * lines, win detection, the list of empty squares and the random opponent.
 */
module TicTacToeEngine {
  import opened Wrappers

  /** A mark on the board: the human plays X, the opponent plays O. */
  datatype Player = X | O

  /** A square holds a mark or nothing (`null`). */
  type Cell = Option<Player>

  /** A square index, row-major on the 3x3 grid. */
  type Square = i: int | 0 <= i < 9

  /** The board always has exactly nine squares. */
  type Board = b: seq<Cell> | |b| == 9
    witness [None, None, None, None, None, None, None, None, None]

  /** The fresh board: nine empty squares. */
  const EmptyBoard: Board := [None, None, None, None, None, None, None, None, None]

  /** A line of three squares. */
  datatype Line = Line(a: Square, b: Square, c: Square)

  /** The eight lines in scan order: three rows, three columns, two diagonals. */
  const WinningCombinations: seq<Line> := [
    Line(0, 1, 2), Line(3, 4, 5), Line(6, 7, 8),
    Line(0, 3, 6), Line(1, 4, 7), Line(2, 5, 8),
    Line(0, 4, 8), Line(2, 4, 6)
  ]

  /** The scan's test: the first square of the line is marked and the other two equal it. */
  predicate Complete(board: Board, l: Line) {
    board[l.a].Some? && board[l.a] == board[l.b] && board[l.a] == board[l.c]
  }

  /** All three squares of the line hold player p. */
  predicate HeldBy(board: Board, l: Line, p: Player) {
    board[l.a] == Some(p) && board[l.b] == Some(p) && board[l.c] == Some(p)
  }

  /** Every square is marked. */
  predicate Full(board: Board) {
    forall s: Square :: board[s].Some?
  }

  /** Line number j is the first complete one at or after position k of the scan. */
  predicate FirstCompleteFrom(board: Board, k: nat, j: nat) {
    k <= j < |WinningCombinations| && Complete(board, WinningCombinations[j]) &&
    forall i :: k <= i < j ==> !Complete(board, WinningCombinations[i])
  }

  /** The remainder of the winner scan, from line number k on. */
  function WinnerFrom(board: Board, k: nat): Option<Player>
    requires k <= |WinningCombinations|
    decreases |WinningCombinations| - k
  {
    if k == |WinningCombinations| then None
    else if Complete(board, WinningCombinations[k]) then board[WinningCombinations[k].a]
    else WinnerFrom(board, k + 1)
  }

  /** The mark of the first complete line in scan order, or None when no line is complete. */
  function Winner(board: Board): Option<Player> {
    WinnerFrom(board, 0)
  }

  /** The remainder of the winning-line scan, from line number k on. */
  function WinningLineFrom(board: Board, k: nat): Option<Line>
    requires k <= |WinningCombinations|
    decreases |WinningCombinations| - k
  {
    if k == |WinningCombinations| then None
    else if Complete(board, WinningCombinations[k]) then Some(WinningCombinations[k])
    else WinningLineFrom(board, k + 1)
  }

  /** The first complete line in scan order, or None when no line is complete. */
  function WinningLine(board: Board): Option<Line> {
    WinningLineFrom(board, 0)
  }

  /** What the winner scan from line k on finds: nothing exactly when no later line is complete, else the first complete line's mark. */
  lemma {:induction false} WinnerFromFindsFirst(board: Board, k: nat)
    requires k <= |WinningCombinations|
    decreases |WinningCombinations| - k
    ensures WinnerFrom(board, k).None? <==>
      forall j :: k <= j < |WinningCombinations| ==> !Complete(board, WinningCombinations[j])
    ensures forall j: nat :: FirstCompleteFrom(board, k, j) ==> WinnerFrom(board, k) == board[WinningCombinations[j].a]
    ensures WinnerFrom(board, k).Some? ==>
      exists j :: k <= j < |WinningCombinations| && HeldBy(board, WinningCombinations[j], WinnerFrom(board, k).value)
  {
    if k < |WinningCombinations| && !Complete(board, WinningCombinations[k]) {
      WinnerFromFindsFirst(board, k + 1);
    }
  }

  /** checkWinner's result: None exactly when no line is complete, else the mark of the first complete line, which holds that line. */
  lemma WinnerFindsFirst(board: Board)
    ensures Winner(board).None? <==>
      forall j :: 0 <= j < |WinningCombinations| ==> !Complete(board, WinningCombinations[j])
    ensures forall j: nat :: FirstCompleteFrom(board, 0, j) ==> Winner(board) == board[WinningCombinations[j].a]
    ensures Winner(board).Some? ==>
      exists j :: 0 <= j < |WinningCombinations| && HeldBy(board, WinningCombinations[j], Winner(board).value)
  {
    WinnerFromFindsFirst(board, 0);
  }

  /** What the line scan from line k on finds: nothing exactly when no later line is complete, else the first complete line. */
  lemma {:induction false} WinningLineFromFindsFirst(board: Board, k: nat)
    requires k <= |WinningCombinations|
    decreases |WinningCombinations| - k
    ensures WinningLineFrom(board, k).None? <==>
      forall j :: k <= j < |WinningCombinations| ==> !Complete(board, WinningCombinations[j])
    ensures forall j: nat :: FirstCompleteFrom(board, k, j) ==> WinningLineFrom(board, k) == Some(WinningCombinations[j])
  {
    if k < |WinningCombinations| && !Complete(board, WinningCombinations[k]) {
      WinningLineFromFindsFirst(board, k + 1);
    }
  }

  /** getWinningLine's result: None exactly when no line is complete, else the first complete line. */
  lemma WinningLineFindsFirst(board: Board)
    ensures WinningLine(board).None? <==>
      forall j :: 0 <= j < |WinningCombinations| ==> !Complete(board, WinningCombinations[j])
    ensures forall j: nat :: FirstCompleteFrom(board, 0, j) ==> WinningLine(board) == Some(WinningCombinations[j])
  {
    WinningLineFromFindsFirst(board, 0);
  }

  /** checkWinner: scan the lines in order and return the mark of the first complete one. */
  method CheckWinner(board: Board) returns (r: Option<Player>)
    ensures r == Winner(board)
  {
    for k := 0 to |WinningCombinations|
      invariant WinnerFrom(board, k) == Winner(board)
    {
      var l := WinningCombinations[k];
      if board[l.a].Some? && board[l.a] == board[l.b] && board[l.a] == board[l.c] {
        return board[l.a];
      }
    }
    return None;
  }

  /** getWinningLine: the same scan, returning the line itself. */
  method GetWinningLine(board: Board) returns (r: Option<Line>)
    ensures r == WinningLine(board)
  {
    for k := 0 to |WinningCombinations|
      invariant WinningLineFrom(board, k) == WinningLine(board)
    {
      var combo := WinningCombinations[k];
      if board[combo.a].Some? && board[combo.a] == board[combo.b] && board[combo.a] == board[combo.c] {
        return Some(combo);
      }
    }
    return None;
  }

  /** Both scans stop at the same line from position k on, and that line is held by the winner. */
  lemma {:induction false} ScansAgreeFrom(board: Board, k: nat)
    requires k <= |WinningCombinations|
    decreases |WinningCombinations| - k
    ensures WinningLineFrom(board, k).Some? <==> WinnerFrom(board, k).Some?
    ensures WinningLineFrom(board, k).Some? ==>
      WinningLineFrom(board, k).value in WinningCombinations &&
      HeldBy(board, WinningLineFrom(board, k).value, WinnerFrom(board, k).value)
  {
    if k < |WinningCombinations| {
      var l := WinningCombinations[k];
      if Complete(board, l) {
        assert WinningLineFrom(board, k) == Some(l);
        assert WinnerFrom(board, k) == board[l.a];
        assert l in WinningCombinations;
      } else {
        ScansAgreeFrom(board, k + 1);
        assert WinningLineFrom(board, k) == WinningLineFrom(board, k + 1);
        assert WinnerFrom(board, k) == WinnerFrom(board, k + 1);
      }
    }
  }

  /** getWinningLine finds a line exactly when checkWinner finds a winner, and every square of it holds that winner. */
  lemma WinningLineHeldByWinner(board: Board)
    ensures WinningLine(board).Some? <==> Winner(board).Some?
    ensures WinningLine(board).Some? ==>
      WinningLine(board).value in WinningCombinations &&
      HeldBy(board, WinningLine(board).value, Winner(board).value)
  {
    ScansAgreeFrom(board, 0);
  }

  /** The other player. */
  function Opponent(p: Player): Player {
    if p == X then O else X
  }

  /** When p holds a line and the opponent of p holds none, checkWinner reports p. */
  lemma WinnerOfSoleHolder(board: Board, p: Player, j: nat)
    requires j < |WinningCombinations| && HeldBy(board, WinningCombinations[j], p)
    requires forall i :: 0 <= i < |WinningCombinations| ==> !HeldBy(board, WinningCombinations[i], Opponent(p))
    ensures Winner(board) == Some(p)
  {
    WinnerFindsFirst(board);
    var w := Winner(board);
    assert !(forall i :: 0 <= i < |WinningCombinations| ==> !Complete(board, WinningCombinations[i])) by {
      assert Complete(board, WinningCombinations[j]);
    }
    var i :| 0 <= i < |WinningCombinations| && HeldBy(board, WinningCombinations[i], w.value);
    assert w.value == p || w.value == Opponent(p);
  }

  /** The empty squares among the first n, in ascending order. */
  function EmptyBelow(board: Board, n: nat): (r: seq<Square>)
    requires n <= 9
    ensures forall i, j :: 0 <= i < j < |r| ==> r[i] < r[j]
    ensures forall i :: 0 <= i < |r| ==> r[i] < n && board[r[i]].None?
    ensures forall s: Square :: s < n && board[s].None? ==> s in r
  {
    if n == 0 then []
    else EmptyBelow(board, n - 1) + (if board[n - 1].None? then [n - 1] else [])
  }

  /** getEmptySquares: the indices of the empty squares, strictly ascending, and exactly those. */
  function GetEmptySquares(board: Board): (r: seq<Square>)
    ensures forall i, j :: 0 <= i < j < |r| ==> r[i] < r[j]
    ensures forall s: Square :: s in r <==> board[s].None?
  {
    EmptyBelow(board, 9)
  }

  /** The board is full exactly when getEmptySquares is empty. */
  lemma FullIffNoEmptySquares(board: Board)
    ensures |GetEmptySquares(board)| == 0 <==> Full(board)
  {
    var r := GetEmptySquares(board);
    if |r| > 0 {
      assert board[r[0]].None?;
    }
  }

  /** The number of squares among the first n that hold c. */
  function CountBelow(board: Board, c: Cell, n: nat): nat
    requires n <= 9
  {
    if n == 0 then 0 else CountBelow(board, c, n - 1) + (if board[n - 1] == c then 1 else 0)
  }

  /** The number of squares that hold c. */
  function Count(board: Board, c: Cell): nat {
    CountBelow(board, c, 9)
  }

  lemma {:induction false} EmptyAndMarkedBelow(board: Board, n: nat)
    requires n <= 9
    ensures |EmptyBelow(board, n)| + CountBelow(board, Some(X), n) + CountBelow(board, Some(O), n) == n
  {
    if n > 0 {
      EmptyAndMarkedBelow(board, n - 1);
      match board[n - 1]
      case None =>
      case Some(X) =>
      case Some(O) =>
    }
  }

  /** The empty squares and the marked squares together are the nine squares. */
  lemma EmptyAndMarked(board: Board)
    ensures |GetEmptySquares(board)| + Count(board, Some(X)) + Count(board, Some(O)) == 9
  {
    EmptyAndMarkedBelow(board, 9);
  }

  lemma {:induction false} CountBelowAfterWrite(board: Board, s: Square, v: Cell, c: Cell, n: nat)
    requires n <= 9
    ensures CountBelow(board[s := v], c, n) + (if s < n && board[s] == c then 1 else 0)
         == CountBelow(board, c, n) + (if s < n && v == c then 1 else 0)
  {
    if n > 0 {
      CountBelowAfterWrite(board, s, v, c, n - 1);
    }
  }

  /** Writing v over square s moves one square out of the count of its old content and into that of v. */
  lemma CountAfterWrite(board: Board, s: Square, v: Cell, c: Cell)
    ensures Count(board[s := v], c) + (if board[s] == c then 1 else 0)
         == Count(board, c) + (if v == c then 1 else 0)
  {
    CountBelowAfterWrite(board, s, v, c, 9);
  }

  /** r is a value Math.floor(Math.random() * n) can take: below n, and 0 when n is 0. */
  predicate RandomPick(r: nat, n: nat) {
    if n == 0 then r == 0 else r < n
  }

  /**
   * getEasyMove: the empty square at the random position r of getEmptySquares;
   * on a full board the position is out of range and the result is undefined (None).
   */
  function GetEasyMove(board: Board, r: nat): (m: Option<Square>)
    requires RandomPick(r, |GetEmptySquares(board)|)
    ensures m.None? <==> Full(board)
    ensures m.Some? ==> board[m.value].None?
  {
    var emptySquares := GetEmptySquares(board);
    if r < |emptySquares| then Some(emptySquares[r]) else None
  }

  /** Every empty square is the opponent's move for some random draw. */
  lemma EveryEmptySquareReachable(board: Board, s: Square)
    requires board[s].None?
    ensures exists r: nat :: RandomPick(r, |GetEmptySquares(board)|) && GetEasyMove(board, r) == Some(s)
  {
    var emptySquares := GetEmptySquares(board);
    assert s in emptySquares;
    var r :| 0 <= r < |emptySquares| && emptySquares[r] == s;
    assert GetEasyMove(board, r) == Some(s);
  }
}

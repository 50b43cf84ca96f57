/**
 The tic-tac-toe board (tic_tac_toe.py, class `Board`): nine squares in row
 order, each the blank string or a player's token.
 */
module TicTacToe {
  import opened Optional

  const Blank: string := " "

  datatype Board = Board(squares: seq<string>)

  /** A square index. */
  type Square = i: int | 0 <= i < 9

  /** Why `place` refused a move; the source raises `ValueError` for both. */
  datatype PlaceError = OutOfRange | Taken

  /** `place` either yields the board with the token written or refuses; on
      refusal the caller keeps its board as it was. */
  datatype Placement = Placed(board: Board) | Refused(error: PlaceError)

  ghost predicate Wf(b: Board) {
    |b.squares| == 9
  }

  /** `Board.empty`: nine blank squares. */
  function Empty(): (b: Board)
    ensures Wf(b)
    ensures forall i :: 0 <= i < 9 ==> b.squares[i] == Blank
  {
    Board(seq(9, _ => Blank))
  }

  /** `Board.place`: an index outside 0..8 is refused, so is a square that
      is not blank; otherwise the token is written there and nothing else
      changes. */
  function Place(b: Board, index: int, token: string): (r: Placement)
    requires Wf(b)
    ensures !(0 <= index < 9) ==> r == Refused(OutOfRange)
    ensures 0 <= index < 9 && b.squares[index] != Blank ==> r == Refused(Taken)
    ensures r.Placed? <==> 0 <= index < 9 && b.squares[index] == Blank
    ensures r.Placed? ==>
      && Wf(r.board)
      && r.board.squares[index] == token
      && forall j :: 0 <= j < 9 && j != index ==> r.board.squares[j] == b.squares[j]
  {
    if !(0 <= index < 9) then Refused(OutOfRange)
    else if b.squares[index] != Blank then Refused(Taken)
    else Placed(Board(b.squares[index := token]))
  }

  /** The eight lines `winner` checks, in its order: the three rows top to
      bottom, the three columns left to right, then the diagonal from the
      top-left corner and the one from the top-right corner. Each is three
      distinct squares in increasing order, evenly spaced. */
  function Lines(): (ls: seq<(Square, Square, Square)>)
    ensures |ls| == 8
    ensures forall i :: 0 <= i < |ls| ==>
      ls[i].0 < ls[i].1 < ls[i].2 && ls[i].1 - ls[i].0 == ls[i].2 - ls[i].1
  {
    [(0, 1, 2), (3, 4, 5), (6, 7, 8),
     (0, 3, 6), (1, 4, 7), (2, 5, 8),
     (0, 4, 8), (2, 4, 6)]
  }

  /** Line `i` holds three equal tokens that are not blank. */
  predicate LineWon(b: Board, i: int)
    requires Wf(b) && 0 <= i < |Lines()|
  {
    var line := Lines()[i];
    && b.squares[line.0] == b.squares[line.1]
    && b.squares[line.1] == b.squares[line.2]
    && b.squares[line.2] != Blank
  }

  /** Line `j` is the first won line at or after line `i`. */
  ghost predicate FirstWon(b: Board, i: int, j: int)
    requires Wf(b)
  {
    && 0 <= i <= j < |Lines()|
    && LineWon(b, j)
    && forall m :: i <= m < j ==> !LineWon(b, m)
  }

  /** The scan of `winner` from line `i` on: the token of the first won
      line, or none when no remaining line is won. */
  function WinnerFrom(b: Board, i: nat): (r: Option<string>)
    requires Wf(b) && i <= |Lines()|
    ensures r.Some? ==> exists j :: FirstWon(b, i, j) && r.value == b.squares[Lines()[j].0]
    ensures r.None? <==> forall m :: i <= m < |Lines()| ==> !LineWon(b, m)
    decreases |Lines()| - i
  {
    if i == |Lines()| then None
    else if LineWon(b, i) then Some(b.squares[Lines()[i].0])
    else WinnerFrom(b, i + 1)
  }

  /** `Board.winner`: the token of the first won line in the fixed order,
      never the blank; none when no line is won. */
  function Winner(b: Board): (r: Option<string>)
    requires Wf(b)
    ensures r.Some? ==> r.value != Blank
    ensures r.Some? ==> exists j :: FirstWon(b, 0, j) && r.value == b.squares[Lines()[j].0]
    ensures r.None? <==> forall m :: 0 <= m < |Lines()| ==> !LineWon(b, m)
  {
    WinnerFrom(b, 0)
  }

  /** The `all(...)` of `is_full`: no square is blank. */
  function NoneBlank(sq: seq<string>): (r: bool)
    ensures r <==> forall i :: 0 <= i < |sq| ==> sq[i] != Blank
  {
    |sq| == 0 || (sq[0] != Blank && NoneBlank(sq[1..]))
  }

  /** `Board.is_full`: true exactly when no square is blank. */
  function IsFull(b: Board): (r: bool)
    ensures r <==> forall i :: 0 <= i < |b.squares| ==> b.squares[i] != Blank
  {
    NoneBlank(b.squares)
  }

  /** The empty board has no winner and is not full. */
  lemma EmptyBoardIsOpen()
    ensures Winner(Empty()) == None
    ensures !IsFull(Empty())
  {
    var b := Empty();
    assert b.squares[0] == Blank;
    forall m | 0 <= m < |Lines()|
      ensures !LineWon(b, m)
    {
      assert b.squares[Lines()[m].2] == Blank;
    }
  }

  /** A full board refuses every move. */
  lemma FullBoardRefusesEveryMove(b: Board, index: int, token: string)
    requires Wf(b) && IsFull(b)
    ensures Place(b, index, token).Refused?
  {
  }

  /** A move never undoes a win: a won line has no blank square, so a
      successful placement leaves it won and the board still has a winner. */
  lemma PlaceKeepsWinner(b: Board, index: int, token: string)
    requires Wf(b) && Winner(b).Some?
    requires Place(b, index, token).Placed?
    ensures Winner(Place(b, index, token).board).Some?
  {
    var b2 := Place(b, index, token).board;
    var j :| 0 <= j < |Lines()| && LineWon(b, j);
    var line := Lines()[j];
    assert b2.squares[line.0] == b.squares[line.0];
    assert b2.squares[line.1] == b.squares[line.1];
    assert b2.squares[line.2] == b.squares[line.2];
    assert LineWon(b2, j);
  }

  /** Placing on a blank square fills exactly one more square. */
  lemma PlaceFillsOneSquare(b: Board, index: int, token: string)
    requires Wf(b) && Place(b, index, token).Placed?
    requires token != Blank
    ensures BlankCount(Place(b, index, token).board.squares) + 1 == BlankCount(b.squares)
  {
    BlankCountUpdate(b.squares, index, token);
  }

  function BlankCount(sq: seq<string>): nat {
    if |sq| == 0 then 0 else (if sq[0] == Blank then 1 else 0) + BlankCount(sq[1..])
  }

  lemma {:induction false} BlankCountUpdate(sq: seq<string>, i: int, t: string)
    requires 0 <= i < |sq| && sq[i] == Blank && t != Blank
    ensures BlankCount(sq[i := t]) + 1 == BlankCount(sq)
  {
    if i > 0 {
      assert sq[i := t][1..] == sq[1..][i - 1 := t];
      BlankCountUpdate(sq[1..], i - 1, t);
    } else {
      assert sq[i := t][1..] == sq[1..];
    }
  }
}

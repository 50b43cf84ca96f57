/**
 Tetromino shapes and the clockwise rotation primitive (tetris_engine.py,
 `TETROMINOES`, `Piece` and `rotate_clockwise`).

 A shape is a matrix of cells; the source stores 0/1 integers and tests them
 for truthiness, so a cell is a `bool` here, `true` when filled.
 */
module Pieces {

  type Shape = seq<seq<bool>>

  /** The seven piece kinds, in the order of the source's table. */
  datatype Kind = I | J | L | O | S | T | Z

  /** An active piece: its (possibly rotated) shape, the board position of
      the top-left corner of its bounding box, and the letter written into
      the board when it locks. */
  datatype Piece = Piece(shape: Shape, x: int, y: int, letter: char)

  function Letter(k: Kind): char {
    match k
    case I => 'I'
    case J => 'J'
    case L => 'L'
    case O => 'O'
    case S => 'S'
    case T => 'T'
    case Z => 'Z'
  }

  /** Cell (r, c) exists in the shape and is filled. */
  predicate Filled(s: Shape, r: int, c: int) {
    0 <= r < |s| && 0 <= c < |s[r]| && s[r][c]
  }

  ghost predicate HasFilled(s: Shape) {
    exists r, c :: Filled(s, r, c)
  }

  /** Non-empty, every row as long as the first, which is what the source's
      `Piece.width` (the length of row 0) silently assumes. */
  ghost predicate Rectangular(s: Shape) {
    && |s| > 0
    && |s[0]| > 0
    && forall r :: 0 <= r < |s| ==> |s[r]| == |s[0]|
  }

  /** The shapes the engine works with: rectangles with a filled cell. */
  ghost predicate ShapeOk(s: Shape) {
    Rectangular(s) && HasFilled(s)
  }

  function Width(s: Shape): nat
    requires |s| > 0
  {
    |s[0]|
  }

  function RowCount(row: seq<bool>): nat {
    if |row| == 0 then 0 else (if row[0] then 1 else 0) + RowCount(row[1..])
  }

  function CellCount(s: Shape): nat {
    if |s| == 0 then 0 else RowCount(s[0]) + CellCount(s[1..])
  }

  /** The rotation-0 shape of each kind. Each is a rectangle of exactly four
      filled cells whose first and last columns both hold a filled cell (the
      bounding box is tight left and right). */
  function Tetromino(k: Kind): (s: Shape)
    ensures ShapeOk(s)
    ensures CellCount(s) == 4
    ensures exists r :: 0 <= r < |s| && s[r][0]
    ensures exists r :: 0 <= r < |s| && s[r][Width(s) - 1]
  {
    match k
    case I =>
      var s := [[true, true, true, true]];
      assert Filled(s, 0, 0) && s[0][3];
      s
    case J =>
      var s := [[true, false, false], [true, true, true]];
      assert Filled(s, 0, 0) && s[1][2];
      s
    case L =>
      var s := [[false, false, true], [true, true, true]];
      assert Filled(s, 0, 2) && s[1][0];
      s
    case O =>
      var s := [[true, true], [true, true]];
      assert Filled(s, 0, 0) && s[0][1];
      s
    case S =>
      var s := [[false, true, true], [true, true, false]];
      assert Filled(s, 0, 1) && s[1][0] && s[0][2];
      s
    case T =>
      var s := [[false, true, false], [true, true, true]];
      assert Filled(s, 0, 1) && s[1][0] && s[1][2];
      s
    case Z =>
      var s := [[true, true, false], [false, true, true]];
      assert Filled(s, 0, 0) && s[1][2];
      s
  }

  /** Number of columns `zip(*rows)` yields: the length of the shortest row
      (none when there are no rows). */
  function ZipWidth(s: Shape): (n: nat)
    ensures forall r :: 0 <= r < |s| ==> n <= |s[r]|
    ensures |s| > 0 ==> exists r :: 0 <= r < |s| && n == |s[r]|
    ensures |s| == 0 ==> n == 0
  {
    if |s| == 0 then 0
    else if |s| == 1 then |s[0]|
    else
      var m := ZipWidth(s[1..]);
      assert forall r :: 1 <= r < |s| ==> s[1..][r - 1] == s[r];
      if |s[0]| <= m then |s[0]| else m
  }

  /** `rotate_clockwise`: the rows reversed and then transposed, so output
      cell (i, j) is input cell (h-1-j, i) for an h-row input. */
  function RotateCW(s: Shape): (t: Shape)
    ensures |t| == ZipWidth(s)
    ensures forall i :: 0 <= i < |t| ==> |t[i]| == |s|
    ensures forall i, j :: 0 <= i < |t| && 0 <= j < |s| ==> t[i][j] == s[|s| - 1 - j][i]
  {
    var w := ZipWidth(s);
    seq(w, i requires 0 <= i < w =>
      seq(|s|, j requires 0 <= j < |s| => s[|s| - 1 - j][i]))
  }

  /** Counter-clockwise rotation, which the source computes as three
      clockwise ones. */
  function RotateCCW(s: Shape): Shape {
    RotateCW(RotateCW(RotateCW(s)))
  }

  /** Half turn of a rectangle: cell (i, j) becomes cell (h-1-i, w-1-j). */
  function HalfTurn(s: Shape): (v: Shape)
    requires Rectangular(s)
    ensures |v| == |s|
    ensures forall i :: 0 <= i < |v| ==> |v[i]| == Width(s)
    ensures forall i, j :: 0 <= i < |v| && 0 <= j < Width(s) ==> v[i][j] == s[|s| - 1 - i][Width(s) - 1 - j]
  {
    seq(|s|, i requires 0 <= i < |s| =>
      seq(Width(s), j requires 0 <= j < Width(s) => s[|s| - 1 - i][Width(s) - 1 - j]))
  }

  /** Turning an h-by-w rectangle clockwise gives a w-by-h rectangle. */
  lemma RotateRectangle(s: Shape)
    requires Rectangular(s)
    ensures Rectangular(RotateCW(s))
    ensures |RotateCW(s)| == Width(s) && Width(RotateCW(s)) == |s|
  {
    assert ZipWidth(s) == |s[0]|;
  }

  /** A clockwise turn keeps a well-formed shape well-formed: filled cell
      (r, c) moves to (c, h-1-r). */
  lemma RotatePreservesShapeOk(s: Shape)
    requires ShapeOk(s)
    ensures ShapeOk(RotateCW(s))
  {
    RotateRectangle(s);
    var r, c :| Filled(s, r, c);
    var t := RotateCW(s);
    assert t[c][|s| - 1 - r] == s[r][c];
    assert Filled(t, c, |s| - 1 - r);
  }

  lemma RotateTwiceIsHalfTurn(s: Shape)
    requires Rectangular(s)
    ensures RotateCW(RotateCW(s)) == HalfTurn(s)
  {
    RotateRectangle(s);
    var t := RotateCW(s);
    RotateRectangle(t);
    var u := RotateCW(t);
    var v := HalfTurn(s);
    assert |u| == |v|;
    forall i | 0 <= i < |u|
      ensures u[i] == v[i]
    {
      assert |u[i]| == |v[i]|;
      forall j | 0 <= j < |u[i]|
        ensures u[i][j] == v[i][j]
      {
        calc {
          u[i][j];
          t[|t| - 1 - j][i];
          s[|s| - 1 - i][|t| - 1 - j];
        }
      }
    }
  }

  lemma HalfTurnTwice(s: Shape)
    requires Rectangular(s)
    ensures Rectangular(HalfTurn(s))
    ensures HalfTurn(HalfTurn(s)) == s
  {
    var v := HalfTurn(s);
    assert Rectangular(v);
    var u := HalfTurn(v);
    assert |u| == |s|;
    forall i | 0 <= i < |u|
      ensures u[i] == s[i]
    {
      assert |u[i]| == |s[i]|;
      forall j | 0 <= j < |s[i]|
        ensures u[i][j] == s[i][j]
      {
        assert u[i][j] == v[|s| - 1 - i][Width(s) - 1 - j];
      }
    }
  }

  /** Four clockwise turns give back the original shape. */
  lemma {:induction false} RotateFourTimes(s: Shape)
    requires Rectangular(s)
    ensures RotateCW(RotateCW(RotateCW(RotateCW(s)))) == s
  {
    RotateTwiceIsHalfTurn(s);
    HalfTurnTwice(s);
    RotateRectangle(s);
    RotateRectangle(RotateCW(s));
    RotateTwiceIsHalfTurn(RotateCW(RotateCW(s)));
  }

  /** The three-turn counter-clockwise rotation undoes a clockwise one, in
      either order. */
  lemma RotateCCWIsInverse(s: Shape)
    requires Rectangular(s)
    ensures RotateCCW(RotateCW(s)) == s
    ensures RotateCW(RotateCCW(s)) == s
  {
    RotateFourTimes(s);
  }

  /** The three-turn composition is a single quarter turn to the left: cell
      (i, j) of the result is input cell (j, w-1-i). */
  lemma RotateCCWIsQuarterTurnLeft(s: Shape)
    requires Rectangular(s)
    ensures |RotateCCW(s)| == Width(s)
    ensures forall i :: 0 <= i < Width(s) ==> |RotateCCW(s)[i]| == |s|
    ensures forall i, j :: 0 <= i < Width(s) && 0 <= j < |s| ==>
      RotateCCW(s)[i][j] == s[j][Width(s) - 1 - i]
  {
    RotateTwiceIsHalfTurn(s);
    HalfTurnTwice(s);
    var v := HalfTurn(s);
    RotateRectangle(v);
  }
}

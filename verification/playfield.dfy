/**
 The board of the falling-block game and the pure operations on it
 (tetris_engine.py, `_create_board`, `_collides`, the cell writes of
 `_lock_piece` and `_clear_lines`).

 The board is a sequence of rows, row 0 at the top; a cell is the blank
 character or the letter of the piece that filled it.
 */
module Playfield {
  import opened Pieces

  type Row = seq<char>
  type Board = seq<Row>

  const Blank: char := ' '

  /** `h` rows of `w` cells each. */
  ghost predicate Wf(b: Board, w: nat, h: nat) {
    |b| == h && forall i :: 0 <= i < |b| ==> |b[i]| == w
  }

  function EmptyRow(w: nat): (row: Row)
    ensures |row| == w
    ensures forall j :: 0 <= j < w ==> row[j] == Blank
  {
    seq(w, _ => Blank)
  }

  /** `_create_board`: a `w` by `h` board of blank cells. */
  function Create(w: nat, h: nat): (b: Board)
    ensures Wf(b, w, h)
    ensures forall i, j :: 0 <= i < h && 0 <= j < w ==> b[i][j] == Blank
  {
    seq(h, _ => EmptyRow(w))
  }

  // ---------------------------------------------------------------------
  // Collision
  // ---------------------------------------------------------------------

  /** A filled cell may not land on board position (cx, cy): outside the
      side walls, below the floor, or on an occupied cell. Rows above the
      board (cy < 0) are only checked against the walls. */
  predicate Blocked(b: Board, w: nat, h: nat, cx: int, cy: int)
    requires Wf(b, w, h)
  {
    cx < 0 || cx >= w || cy >= h || (cy >= 0 && b[cy][cx] != Blank)
  }

  /** Placing shape `s` with its top-left corner at (ox, oy) puts some
      filled cell on a blocked position. */
  predicate Collides(b: Board, w: nat, h: nat, s: Shape, ox: int, oy: int)
    requires Wf(b, w, h)
  {
    exists r, c | 0 <= r < |s| && 0 <= c < |s[r]| :: s[r][c] && Blocked(b, w, h, ox + c, oy + r)
  }

  /** `_collides` as the source writes it: scan the shape row by row and
      cell by cell, returning at the first filled cell that is out of the
      walls, below the floor, or on an occupied cell. */
  method CollidesScan(b: Board, w: nat, h: nat, s: Shape, ox: int, oy: int) returns (hit: bool)
    requires Wf(b, w, h)
    ensures hit <==> Collides(b, w, h, s, ox, oy)
  {
    var r := 0;
    while r < |s|
      invariant 0 <= r <= |s|
      invariant forall rr, c :: 0 <= rr < r && 0 <= c < |s[rr]| && s[rr][c] ==> !Blocked(b, w, h, ox + c, oy + rr)
    {
      var row := s[r];
      var c := 0;
      while c < |row|
        invariant 0 <= c <= |row|
        invariant forall cc :: 0 <= cc < c && row[cc] ==> !Blocked(b, w, h, ox + cc, oy + r)
      {
        if row[c] {
          var cx := ox + c;
          var cy := oy + r;
          if cx < 0 || cx >= w {
            assert s[r][c] && Blocked(b, w, h, ox + c, oy + r);
            return true;
          }
          if cy >= h {
            assert s[r][c] && Blocked(b, w, h, ox + c, oy + r);
            return true;
          }
          if cy >= 0 && b[cy][cx] != Blank {
            assert s[r][c] && Blocked(b, w, h, ox + c, oy + r);
            return true;
          }
        }
        c := c + 1;
      }
      r := r + 1;
    }
    return false;
  }

  /** A shape with a filled cell that fits at row `y` has that row above the
      floor; this is what bounds the drop loops. */
  lemma FreeRowAboveFloor(b: Board, w: nat, h: nat, s: Shape, x: int, y: int)
    requires Wf(b, w, h)
    requires HasFilled(s)
    requires !Collides(b, w, h, s, x, y)
    ensures y < h
  {
    var r, c :| Filled(s, r, c);
    assert s[r][c];
    assert !Blocked(b, w, h, x + c, y + r);
  }

  /** While every filled cell is above the board, only the side walls can
      block the shape. */
  lemma CollidesAboveBoard(b: Board, w: nat, h: nat, s: Shape, ox: int, oy: int)
    requires Wf(b, w, h)
    requires oy + |s| <= 0
    ensures Collides(b, w, h, s, ox, oy) <==>
      exists r, c :: Filled(s, r, c) && (ox + c < 0 || ox + c >= w)
  {
    if Collides(b, w, h, s, ox, oy) {
      var r, c :| 0 <= r < |s| && 0 <= c < |s[r]| && s[r][c] && Blocked(b, w, h, ox + c, oy + r);
      assert Filled(s, r, c);
    }
    if exists r, c :: Filled(s, r, c) && (ox + c < 0 || ox + c >= w) {
      var r, c :| Filled(s, r, c) && (ox + c < 0 || ox + c >= w);
      assert s[r][c] && Blocked(b, w, h, ox + c, oy + r);
    }
  }

  // ---------------------------------------------------------------------
  // Writing a piece into the board
  // ---------------------------------------------------------------------

  /** Every filled cell of shape `s` at (ox, oy) that is on a row >= 0 lies
      on the board: the writes of `_lock_piece` stay in bounds. A cell may
      still be occupied; the write then overwrites it. */
  predicate Writable(w: nat, h: nat, s: Shape, ox: int, oy: int) {
    forall r, c | 0 <= r < |s| && 0 <= c < |s[r]| :: s[r][c] && oy + r >= 0 ==> 0 <= ox + c < w && oy + r < h
  }

  /** A shape that fits is writable. */
  lemma FitsIsWritable(b: Board, w: nat, h: nat, s: Shape, ox: int, oy: int)
    requires Wf(b, w, h)
    requires !Collides(b, w, h, s, ox, oy)
    ensures Writable(w, h, s, ox, oy)
  {
    forall r, c | 0 <= r < |s| && 0 <= c < |s[r]| && s[r][c] && oy + r >= 0
      ensures 0 <= ox + c < w && oy + r < h
    {
      assert !Blocked(b, w, h, ox + c, oy + r);
    }
  }

  /** The cell writes of `_lock_piece`: every filled cell of the shape that
      is on a row >= 0 gets `letter`, whether that cell was blank or not;
      every other board cell keeps its content. */
  function Stamp(b: Board, w: nat, h: nat, s: Shape, ox: int, oy: int, letter: char): (nb: Board)
    requires Wf(b, w, h)
    requires Writable(w, h, s, ox, oy)
    ensures Wf(nb, w, h)
    ensures forall r, c :: Filled(s, r, c) && oy + r >= 0 ==>
      0 <= oy + r < h && 0 <= ox + c < w && nb[oy + r][ox + c] == letter
    ensures forall i, j :: 0 <= i < h && 0 <= j < w && !Filled(s, i - oy, j - ox) ==> nb[i][j] == b[i][j]
  {
    var nb := seq(h, i requires 0 <= i < h =>
      seq(w, j requires 0 <= j < w => if Filled(s, i - oy, j - ox) then letter else b[i][j]));
    nb
  }

  lemma BoardExt(a: Board, b: Board, w: nat, h: nat)
    requires Wf(a, w, h) && Wf(b, w, h)
    requires forall i, j :: 0 <= i < h && 0 <= j < w ==> a[i][j] == b[i][j]
    ensures a == b
  {
    forall i | 0 <= i < h
      ensures a[i] == b[i]
    {
      assert forall j :: 0 <= j < w ==> a[i][j] == b[i][j];
    }
  }

  /** The loop of `_lock_piece` as written: visit the shape's cells row by
      row and write the letter at each filled one on a row >= 0. It yields
      exactly `Stamp`. */
  method StampScan(b: Board, w: nat, h: nat, s: Shape, ox: int, oy: int, letter: char) returns (nb: Board)
    requires Wf(b, w, h)
    requires Writable(w, h, s, ox, oy)
    ensures nb == Stamp(b, w, h, s, ox, oy, letter)
  {
    nb := b;
    var r := 0;
    while r < |s|
      invariant 0 <= r <= |s|
      invariant Wf(nb, w, h)
      invariant forall i, j :: 0 <= i < h && 0 <= j < w ==>
        nb[i][j] == if Filled(s, i - oy, j - ox) && i - oy < r then letter else b[i][j]
    {
      var c := 0;
      while c < |s[r]|
        invariant 0 <= c <= |s[r]|
        invariant Wf(nb, w, h)
        invariant forall i, j :: 0 <= i < h && 0 <= j < w ==>
          nb[i][j] == if Filled(s, i - oy, j - ox) && (i - oy < r || (i - oy == r && j - ox < c)) then letter else b[i][j]
      {
        if s[r][c] && oy + r >= 0 {
          nb := nb[oy + r := nb[oy + r][ox + c := letter]];
        }
        c := c + 1;
      }
      r := r + 1;
    }
    BoardExt(nb, Stamp(b, w, h, s, ox, oy, letter), w, h);
  }

  // ---------------------------------------------------------------------
  // Line clearing
  // ---------------------------------------------------------------------

  /** A row is kept by `_clear_lines` when it still contains a blank. */
  predicate HasGap(row: Row) {
    Blank in row
  }

  /** Number of rows without a blank. */
  function FullCount(b: Board): nat {
    if |b| == 0 then 0 else (if HasGap(b[0]) then 0 else 1) + FullCount(b[1..])
  }

  /** The rows that still contain a blank, in their original order. */
  function Survivors(b: Board): (rest: Board)
    ensures |rest| + FullCount(b) == |b|
    ensures forall i :: 0 <= i < |rest| ==> HasGap(rest[i]) && rest[i] in b
  {
    if |b| == 0 then []
    else (if HasGap(b[0]) then [b[0]] else []) + Survivors(b[1..])
  }

  /** The padding loop of `_clear_lines`: insert blank rows at the top until
      there are `h` rows. */
  function PadTop(rows: Board, w: nat, h: nat): (b: Board)
    requires |rows| <= h
    ensures |b| == h
    ensures b[h - |rows|..] == rows
    ensures forall i :: 0 <= i < h - |rows| ==> b[i] == EmptyRow(w)
    decreases h - |rows|
  {
    if |rows| < h then PadTop([EmptyRow(w)] + rows, w, h) else rows
  }

  /** `_clear_lines`: drop every row without a blank and pad the board back
      to `h` rows with blank rows on top. The count returned is the number
      of full rows, the surviving rows keep their order at the bottom, and
      (on a board of positive width) no full row remains. */
  function ClearLines(b: Board, w: nat, h: nat): (r: (Board, nat))
    requires Wf(b, w, h)
    ensures Wf(r.0, w, h)
    ensures r.1 == FullCount(b) <= h
    ensures r.0[r.1..] == Survivors(b)
    ensures forall i :: 0 <= i < r.1 ==> r.0[i] == EmptyRow(w)
    ensures w > 0 ==> forall i :: 0 <= i < h ==> HasGap(r.0[i])
  {
    var rest := Survivors(b);
    assert forall i :: 0 <= i < |rest| ==> |rest[i]| == w by {
      forall i | 0 <= i < |rest|
        ensures |rest[i]| == w
      {
        assert rest[i] in b;
      }
    }
    PadTopRows(rest, w, h);
    (PadTop(rest, w, h), h - |rest|)
  }

  /** Padding rows of width `w` that each have a blank gives `h` rows of
      width `w` that each have a blank (when `w > 0`). */
  lemma PadTopRows(rows: Board, w: nat, h: nat)
    requires |rows| <= h
    requires forall i :: 0 <= i < |rows| ==> |rows[i]| == w && HasGap(rows[i])
    ensures Wf(PadTop(rows, w, h), w, h)
    ensures w > 0 ==> forall i :: 0 <= i < h ==> HasGap(PadTop(rows, w, h)[i])
  {
    var nb := PadTop(rows, w, h);
    var k := h - |rows|;
    assert nb[k..] == rows;
    forall i | 0 <= i < h
      ensures |nb[i]| == w && (w > 0 ==> HasGap(nb[i]))
    {
      if i >= k {
        assert nb[i] == rows[i - k];
      } else if w > 0 {
        assert nb[i][0] == Blank;
      }
    }
  }

  /** Survivors distributes over concatenation: the filter keeps rows in
      their relative order. */
  lemma {:induction false} SurvivorsAppend(a: Board, b: Board)
    ensures Survivors(a + b) == Survivors(a) + Survivors(b)
  {
    if |a| == 0 {
      assert a + b == b;
    } else {
      assert (a + b)[1..] == a[1..] + b;
      SurvivorsAppend(a[1..], b);
    }
  }

  /** A board with a blank in every row is left as it is, and nothing is
      counted. */
  lemma {:induction false} SurvivorsAllGaps(b: Board)
    requires forall i :: 0 <= i < |b| ==> HasGap(b[i])
    ensures Survivors(b) == b
    ensures FullCount(b) == 0
  {
    if |b| > 0 {
      SurvivorsAllGaps(b[1..]);
    }
  }

  /** Clearing a board that holds no full row changes nothing. */
  lemma ClearLinesNoFullRow(b: Board, w: nat, h: nat)
    requires Wf(b, w, h)
    requires forall i :: 0 <= i < h ==> HasGap(b[i])
    ensures ClearLines(b, w, h) == (b, 0)
  {
    SurvivorsAllGaps(b);
    var r := ClearLines(b, w, h);
    assert r.0 == r.0[0..];
  }

  /** Clearing is idempotent on boards of positive width. */
  lemma ClearLinesIdempotent(b: Board, w: nat, h: nat)
    requires Wf(b, w, h)
    requires w > 0
    ensures ClearLines(ClearLines(b, w, h).0, w, h) == (ClearLines(b, w, h).0, 0)
  {
    ClearLinesNoFullRow(ClearLines(b, w, h).0, w, h);
  }
}

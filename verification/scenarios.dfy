/**
 The three scenarios of tests/test_engine.py, stated as lemmas about the
 engine. Each starts from a new 4 by 4 game whose pieces (and, in the first,
 counters and bottom row) are then set by hand, as the tests do.
 */
module Scenarios {
  import opened Optional
  import opened Pieces
  import opened Playfield
  import opened Engine

  const Dot: Shape := [[true]]
  const Bar: Shape := [[true], [true]]
  const Tee: Shape := [[true, true, true], [false, true, false]]

  /** A single-cell next piece just above the top-left corner. */
  const SmallNext: Piece := Piece(Dot, 0, -1, 'I')

  const EmptyBoard: Board := ["    ", "    ", "    ", "    "]

  /** A game in the state a new 4 by 4 game starts in (empty board, no
      score, no lines, level 1, not over), with the given current piece. */
  function TestGame(p: Piece): (g: Game)
    ensures BoardOk(g) && Live(g) && g.width == 4 && g.height == 4
  {
    Game(4, 4, EmptyBoard, Some(p), SmallNext, 0, 0, 1, false)
  }

  /** Bottom row "XXX ", nine lines already cleared, a single cell at
      column 3, row 2. */
  function LineClearStart(): (g: Game)
    ensures BoardOk(g) && Live(g)
  {
    TestGame(Piece(Dot, 3, 2, 'I')).(board := ["    ", "    ", "    ", "XXX "], linesCleared := 9)
  }

  /** The same game with the cell one row lower, resting on the floor. */
  function LineClearResting(): (g: Game)
    ensures BoardOk(g) && Live(g)
  {
    LineClearStart().(current := Some(Piece(Dot, 3, 3, 'I')))
  }

  /** The first soft drop moves the cell down a row. */
  lemma LineClearFirstDrop(k: Kind)
    ensures Fits(LineClearStart())
    ensures SoftDrop(LineClearStart(), k).1
    ensures SoftDrop(LineClearStart(), k).0 == LineClearResting()
  {
    var b := LineClearStart().board;
    assert !Blocked(b, 4, 4, 3, 2);
    assert !Blocked(b, 4, 4, 3, 3);
  }

  /** The second soft drop finds the floor and locks. */
  lemma LineClearSecondDrop(k: Kind)
    ensures Fits(LineClearResting())
    ensures !SoftDrop(LineClearResting(), k).1
    ensures SoftDrop(LineClearResting(), k).0 == Lock(LineClearResting(), k)
  {
    var b := LineClearResting().board;
    assert !Blocked(b, 4, 4, 3, 3);
    assert Dot[0][0] && Blocked(b, 4, 4, 3, 4);
  }

  /** Writing the resting cell completes the bottom row. */
  lemma LineClearPlaced()
    ensures Fits(LineClearResting())
    ensures Stamp(LineClearResting().board, 4, 4, Dot, 3, 3, 'I') == ["    ", "    ", "    ", "XXXI"]
  {
    var b := LineClearResting().board;
    assert !Blocked(b, 4, 4, 3, 3);
    var placed := Stamp(b, 4, 4, Dot, 3, 3, 'I');
    assert Filled(Dot, 0, 0);
    forall i, j | 0 <= i < 4 && 0 <= j < 4 && (i, j) != (3, 3)
      ensures placed[i][j] == b[i][j]
    {
      assert !Filled(Dot, i - 3, j - 3);
    }
    BoardExt(placed, ["    ", "    ", "    ", "XXXI"], 4, 4);
  }

  /** Clearing that board removes the bottom row and adds a blank row on
      top. */
  lemma LineClearClears()
    ensures FullCount(["    ", "    ", "    ", "XXXI"]) == 1
    ensures ClearLines(["    ", "    ", "    ", "XXXI"], 4, 4).0[3] == "    "
  {
    var e: Row := "    ";
    assert HasGap(e) by { assert e[0] == Blank; }
    assert !HasGap("XXXI");
    assert ["XXXI"][1..] == [];
    assert Survivors(["XXXI"]) == [] && FullCount(["XXXI"]) == 1;
    assert [e, "XXXI"][1..] == ["XXXI"];
    assert Survivors([e, "XXXI"]) == [e] && FullCount([e, "XXXI"]) == 1;
    assert [e, e, "XXXI"][1..] == [e, "XXXI"];
    assert Survivors([e, e, "XXXI"]) == [e, e] && FullCount([e, e, "XXXI"]) == 1;
    var placed: Board := [e, e, e, "XXXI"];
    assert placed[1..] == [e, e, "XXXI"];
    assert Survivors(placed) == [e, e, e] && FullCount(placed) == 1;
  }

  /** The lock completes the bottom row and clears it: ten lines, level 2,
      100 points, and a blank bottom row. */
  lemma LineClearScores(k: Kind)
    ensures Fits(LineClearResting())
    ensures
      var r := Lock(LineClearResting(), k);
      && r.linesCleared == 10
      && r.level == 2
      && r.score == 100
      && r.board[3] == "    "
  {
    LineClearPlaced();
    LineClearClears();
    LockScoring(LineClearResting(), k);
  }

  lemma LineClearScenario(k: Kind)
    ensures Fits(LineClearStart())
    ensures SoftDrop(LineClearStart(), k).1
    ensures Fits(SoftDrop(LineClearStart(), k).0)
    ensures
      var g1 := SoftDrop(LineClearStart(), k).0;
      var g2 := SoftDrop(g1, k);
      && !g2.1
      && g2.0.linesCleared == 10
      && g2.0.level == 2
      && g2.0.score == 100
      && g2.0.board[3] == "    "
  {
    LineClearFirstDrop(k);
    LineClearSecondDrop(k);
    LineClearScores(k);
  }

  /** A vertical two-cell bar at column 1, row 0 of an empty board. */
  function BarStart(): (g: Game)
    ensures BoardOk(g) && Live(g)
  {
    TestGame(Piece(Bar, 1, 0, 'I'))
  }

  /** The bar lands two rows down, on the floor. */
  lemma BarLands()
    ensures Fits(BarStart()) && HasFilled(Bar)
    ensures Landed(BarStart()) == Piece(Bar, 1, 2, 'I')
  {
    var b := EmptyBoard;
    assert Filled(Bar, 0, 0);
    assert !Collides(b, 4, 4, Bar, 1, 0) by {
      assert !Blocked(b, 4, 4, 1, 0) && !Blocked(b, 4, 4, 1, 1);
    }
    assert !Collides(b, 4, 4, Bar, 1, 1) by {
      assert !Blocked(b, 4, 4, 1, 1) && !Blocked(b, 4, 4, 1, 2);
    }
    assert !Collides(b, 4, 4, Bar, 1, 2) by {
      assert !Blocked(b, 4, 4, 1, 2) && !Blocked(b, 4, 4, 1, 3);
    }
    assert Collides(b, 4, 4, Bar, 1, 3) by {
      assert Bar[1][0] && Blocked(b, 4, 4, 1, 4);
    }
    assert ShadowFrom(b, 4, 4, Bar, 1, 2) == 2;
    assert ShadowFrom(b, 4, 4, Bar, 1, 1) == 2;
    assert ShadowFrom(b, 4, 4, Bar, 1, 0) == 2;
  }

  /** Writing the landed bar fills column 1 of rows 2 and 3 and completes
      no row. */
  lemma BarPlaced()
    ensures !Collides(EmptyBoard, 4, 4, Bar, 1, 2)
    ensures Stamp(EmptyBoard, 4, 4, Bar, 1, 2, 'I') == ["    ", "    ", " I  ", " I  "]
  {
    var b := EmptyBoard;
    assert !Blocked(b, 4, 4, 1, 2) && !Blocked(b, 4, 4, 1, 3);
    var placed := Stamp(b, 4, 4, Bar, 1, 2, 'I');
    assert Filled(Bar, 0, 0) && Filled(Bar, 1, 0);
    forall i, j | 0 <= i < 4 && 0 <= j < 4 && !((i == 2 || i == 3) && j == 1)
      ensures placed[i][j] == b[i][j]
    {
      assert !Filled(Bar, i - 2, j - 1);
    }
    BoardExt(placed, ["    ", "    ", " I  ", " I  "], 4, 4);
  }

  lemma BarClearsNothing()
    ensures ClearLines(["    ", "    ", " I  ", " I  "], 4, 4) == (["    ", "    ", " I  ", " I  "], 0)
  {
    var placed: Board := ["    ", "    ", " I  ", " I  "];
    assert forall i :: 0 <= i < 4 ==> placed[i][0] == Blank;
    ClearLinesNoFullRow(placed, 4, 4);
  }

  /** The bar at rest on the floor of the empty board. */
  function BarLanded(): Game {
    BarStart().(current := Some(Piece(Bar, 1, 2, 'I')))
  }

  /** Hard drop from the start moves the bar two rows and locks it there. */
  lemma BarDrops(k: Kind)
    ensures Fits(BarStart()) && HasFilled(Bar)
    ensures RestWritable(BarStart())
    ensures HardDrop(BarStart(), k).1 == 2
    ensures BoardOk(BarLanded()) && Writable(4, 4, Bar, 1, 2)
    ensures HardDrop(BarStart(), k).0 == Lock(BarLanded(), k)
  {
    BarLands();
    FitsIsRestWritable(BarStart());
  }

  /** Locking the landed bar writes rows 2 and 3 of column 1 and clears
      nothing; the next piece comes into play. */
  lemma BarLocks(k: Kind)
    requires BoardOk(BarLanded()) && Writable(4, 4, Bar, 1, 2)
    ensures Lock(BarLanded(), k).board == ["    ", "    ", " I  ", " I  "]
    ensures Lock(BarLanded(), k).current.Some?
  {
    BarPlaced();
    BarClearsNothing();
    LockScoring(BarLanded(), k);
  }

  /** Hard drop moves the bar two rows, writes it into rows 2 and 3 of
      column 1, and a new current piece is in play. */
  lemma HardDropScenario(k: Kind)
    ensures Fits(BarStart()) && HasFilled(Bar)
    ensures RestWritable(BarStart())
    ensures HardDrop(BarStart(), k).1 == 2
    ensures HardDrop(BarStart(), k).0.board == ["    ", "    ", " I  ", " I  "]
    ensures HardDrop(BarStart(), k).0.current.Some?
  {
    BarDrops(k);
    BarLocks(k);
  }

  /** The T piece flat at the left wall rotates clockwise into the upright
      shape and stays within the board. The upright shape already fits in
      place, so no kick is used: the piece stays at (0, 0). */
  lemma WallKickScenario()
    ensures Rotate(TestGame(Piece(Tee, 0, 0, 'T')), true).1
    ensures Rotate(TestGame(Piece(Tee, 0, 0, 'T')), true).0.current.value.shape
      == [[false, true], [true, true], [false, true]]
    ensures Rotate(TestGame(Piece(Tee, 0, 0, 'T')), true).0.current.value.x == 0
    ensures Rotate(TestGame(Piece(Tee, 0, 0, 'T')), true).0.current.value.y == 0
  {
    var g := TestGame(Piece(Tee, 0, 0, 'T'));
    var t := RotateCW(Tee);
    assert ZipWidth(Tee) == 3;
    assert |t| == 3 && |t[0]| == 2 && |t[1]| == 2 && |t[2]| == 2;
    assert t[0] == [false, true] by {
      assert t[0][0] == Tee[1][0] && t[0][1] == Tee[0][0];
    }
    assert t[1] == [true, true] by {
      assert t[1][0] == Tee[1][1] && t[1][1] == Tee[0][1];
    }
    assert t[2] == [false, true] by {
      assert t[2][0] == Tee[1][2] && t[2][1] == Tee[0][2];
    }
    assert t == [[false, true], [true, true], [false, true]];
    assert KickFits(g, t, 0, 0, 0) by {
      forall r, c | 0 <= r < |t| && 0 <= c < |t[r]| && t[r][c]
        ensures !Blocked(g.board, 4, 4, c, r)
      {
      }
    }
    var r := Rotate(g, true);
    var j :| KickedAt(g, t, j, r.0);
    assert j == 0;
  }
}

/**
 What every action of the engine keeps true (tetris_engine.py, class
 `TetrisGame`): while the game is not over there is a current piece and it
 does not collide with the board; the counters stay consistent; the score
 never decreases; game over is final until a reset.
 */
module Invariants {
  import opened Optional
  import opened Pieces
  import opened Playfield
  import opened Engine

  /** The state invariant: a well-formed board, well-formed shapes, and a
      current piece that fits whenever the game is not over. */
  ghost predicate Inv(g: Game) {
    && BoardOk(g)
    && ShapeOk(g.next.shape)
    && (g.current.Some? ==> ShapeOk(g.current.value.shape))
    && (!g.gameOver ==>
          g.current.Some? &&
          !CollidesAt(g, g.current.value.shape, g.current.value.x, g.current.value.y))
  }

  /** Score and line count are non-negative and the level is one more than
      the tens of cleared lines. */
  ghost predicate Counters(g: Game) {
    0 <= g.score && 0 <= g.linesCleared && g.level == g.linesCleared / 10 + 1
  }

  /** A new game satisfies the invariant and has consistent counters. */
  lemma NewEstablishes(width: nat, height: nat, first: Kind, second: Kind)
    ensures Inv(New(width, height, first, second))
    ensures Counters(New(width, height, first, second))
  {
  }

  lemma ResetEstablishes(g: Game, first: Kind, second: Kind)
    ensures Inv(Reset(g, first, second))
    ensures Counters(Reset(g, first, second))
    ensures !Reset(g, first, second).gameOver <==> Width(Tetromino(first)) <= g.width
  {
  }

  /** Spawning from a well-formed state gives a state satisfying the
      invariant, whatever the promoted piece. */
  lemma SpawnKeepsInv(g: Game, k: Kind)
    requires BoardOk(g) && ShapeOk(g.next.shape)
    ensures Inv(Spawn(g, k))
  {
  }

  lemma MoveKeepsInv(g: Game, dx: int)
    requires Inv(g)
    ensures Inv(Move(g, dx).0)
  {
  }

  /** Turning either way keeps a well-formed shape well-formed. */
  lemma TurnKeepsShapeOk(s: Shape, clockwise: bool)
    requires ShapeOk(s)
    ensures ShapeOk(Turn(s, clockwise))
  {
    RotatePreservesShapeOk(s);
    if !clockwise {
      RotatePreservesShapeOk(RotateCW(s));
      RotatePreservesShapeOk(RotateCW(RotateCW(s)));
    }
  }

  lemma RotateKeepsInv(g: Game, clockwise: bool)
    requires Inv(g)
    ensures Inv(Rotate(g, clockwise).0)
  {
    if Rotate(g, clockwise).1 {
      TurnKeepsShapeOk(g.current.value.shape, clockwise);
    }
  }

  /** Locking a live piece ends in a spawn, so the invariant holds again,
      now for the promoted piece and the board after clearing. */
  lemma LockKeepsInv(g: Game, k: Kind)
    requires Inv(g) && Live(g)
    ensures Inv(Lock(g, k))
  {
  }

  lemma SoftDropKeepsInv(g: Game, k: Kind)
    requires Inv(g)
    ensures Inv(SoftDrop(g, k).0)
  {
    if Live(g) && !SoftDrop(g, k).1 {
      LockKeepsInv(g, k);
    }
  }

  lemma TickKeepsInv(g: Game, k: Kind)
    requires Inv(g)
    ensures Inv(Tick(g, k))
  {
    SoftDropKeepsInv(g, k);
  }

  lemma HardDropKeepsInv(g: Game, k: Kind)
    requires Inv(g)
    ensures Inv(HardDrop(g, k).0)
  {
    if Live(g) {
      var g1 := g.(current := Some(Landed(g)));
      assert Inv(g1) && Live(g1);
      LockKeepsInv(g1, k);
    }
  }

  /** Locking keeps the counters consistent and never lowers the score:
      clearing `n` rows adds `n` to the lines and `n * n * 100` to the
      score. */
  lemma LockKeepsCounters(g: Game, k: Kind)
    requires BoardOk(g)
    requires g.current.Some? ==>
      Writable(g.width, g.height, g.current.value.shape, g.current.value.x, g.current.value.y)
    requires Counters(g)
    ensures Counters(Lock(g, k))
    ensures Lock(g, k).score >= g.score
    ensures Lock(g, k).linesCleared >= g.linesCleared
  {
    if g.current.Some? {
      LockScoring(g, k);
    }
  }

  lemma SoftDropKeepsCounters(g: Game, k: Kind)
    requires BoardOk(g) && RestWritable(g) && Counters(g)
    ensures Counters(SoftDrop(g, k).0)
    ensures SoftDrop(g, k).0.score >= g.score
  {
    if Live(g) && !SoftDrop(g, k).1 {
      LockKeepsCounters(g, k);
    }
  }

  lemma HardDropKeepsCounters(g: Game, k: Kind)
    requires Inv(g) && Counters(g)
    ensures Counters(HardDrop(g, k).0)
    ensures HardDrop(g, k).0.score >= g.score
  {
    if Live(g) {
      LockKeepsCounters(g.(current := Some(Landed(g))), k);
    }
  }

  /** Once the game is over every action is a no-op that reports failure
      (hard drop reports zero rows); only a reset starts again. */
  lemma GameOverIsFinal(g: Game, dx: int, clockwise: bool, k: Kind)
    requires BoardOk(g) && g.gameOver
    ensures Move(g, dx) == (g, false)
    ensures Rotate(g, clockwise) == (g, false)
    ensures SoftDrop(g, k) == (g, false)
    ensures HardDrop(g, k) == (g, 0)
    ensures Tick(g, k) == g
    ensures GetShadowY(g) == None
  {
  }

  /** A successful move is undone by the opposite move. */
  lemma MoveThenBack(g: Game, dx: int)
    requires BoardOk(g) && Fits(g)
    requires Move(g, dx).1
    ensures Move(Move(g, dx).0, -dx) == (g, true)
  {
    var g1 := Move(g, dx).0;
    var p := g.current.value;
    assert g1.current.value.x + -dx == p.x;
    assert g1.(current := Some(g1.current.value.(x := p.x))) == g;
  }

  /** Stepping a live piece one free row down does not change where it
      lands. */
  lemma LandedAfterStep(g: Game)
    requires BoardOk(g) && Live(g) && HasFilled(g.current.value.shape)
    requires !CollidesAt(g, g.current.value.shape, g.current.value.x, g.current.value.y + 1)
    ensures RestWritable(g)
    ensures var g1 := g.(current := Some(g.current.value.(y := g.current.value.y + 1)));
      && BoardOk(g1) && Fits(g1) && RestWritable(g1) && Live(g1)
      && Landed(g1) == Landed(g)
      && GetShadowY(g1) == GetShadowY(g)
      && g1.(current := Some(Landed(g1))) == g.(current := Some(Landed(g)))
  {
    var p := g.current.value;
    var y0 := ShadowFrom(g.board, g.width, g.height, p.shape, p.x, p.y);
    var y1 := ShadowFrom(g.board, g.width, g.height, p.shape, p.x, p.y + 1);
    var g1 := g.(current := Some(p.(y := p.y + 1)));
    FitsIsRestWritable(g1);
    assert y0 == y1;
  }

  /** Hard drop is soft drop repeated: when the soft drop moves the piece,
      the hard drop from there ends in the same state, one row shorter. */
  lemma HardDropAfterSoftDrop(g: Game, k: Kind)
    requires Inv(g) && Live(g)
    requires SoftDrop(g, k).1
    ensures Inv(SoftDrop(g, k).0)
    ensures HardDrop(SoftDrop(g, k).0, k).0 == HardDrop(g, k).0
    ensures HardDrop(SoftDrop(g, k).0, k).1 == HardDrop(g, k).1 - 1
  {
    SoftDropKeepsInv(g, k);
    LandedAfterStep(g);
  }

  /** When the soft drop locks, hard drop locks in place too and reports
      zero rows. */
  lemma HardDropWhenResting(g: Game, k: Kind)
    requires Inv(g) && Live(g)
    requires !SoftDrop(g, k).1
    ensures HardDrop(g, k).0 == SoftDrop(g, k).0
    ensures HardDrop(g, k).1 == 0
  {
    var p := g.current.value;
    assert Landed(g) == p;
    assert g.(current := Some(p)) == g;
  }
}

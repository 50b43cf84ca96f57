/**
 The rules engine of the falling-block game (tetris_engine.py, class
 `TetrisGame`), as pure functions from a game state to the next state and
 the value the source method returns.

 The source draws each new piece kind with `random.choice`; here the kind is
 a parameter of every operation that may generate a piece.
 */
module Engine {
  import opened Optional
  import opened Pieces
  import opened Playfield

  datatype Game = Game(
    width: nat,
    height: nat,
    board: Board,
    current: Option<Piece>,
    next: Piece,
    score: int,
    linesCleared: int,
    level: int,
    gameOver: bool)

  ghost predicate BoardOk(g: Game) {
    Wf(g.board, g.width, g.height)
  }

  /** Player actions do something only while this holds. */
  predicate Live(g: Game) {
    !g.gameOver && g.current.Some?
  }

  predicate CollidesAt(g: Game, s: Shape, x: int, y: int)
    requires BoardOk(g)
  {
    Collides(g.board, g.width, g.height, s, x, y)
  }

  /** The live piece does not collide where it stands. */
  ghost predicate Fits(g: Game)
    requires BoardOk(g)
  {
    Live(g) ==> !CollidesAt(g, g.current.value.shape, g.current.value.x, g.current.value.y)
  }

  // ---------------------------------------------------------------------
  // Piece generation and spawning
  // ---------------------------------------------------------------------

  /** `_generate_piece`, with the kind given instead of drawn: the kind's
      rotation-0 shape, entirely above the board (its bottom row is row -1),
      horizontally centred (the margins left and right differ by at most
      one column; an odd spare column goes to the left margin when the board
      width is odd and the piece width even, and to the right margin when the
      board width is even and the piece width odd), and within the side
      walls when the board is wide enough. */
  function Generate(width: nat, k: Kind): (p: Piece)
    ensures p.shape == Tetromino(k) && p.letter == Letter(k)
    ensures p.y + |p.shape| == 0
    ensures -1 <= (width - (p.x + Width(p.shape))) - p.x <= 1
    ensures p.x - (width - (p.x + Width(p.shape))) == Width(p.shape) % 2 - width % 2
    ensures Width(p.shape) <= width ==> 0 <= p.x && p.x + Width(p.shape) <= width
  {
    var s := Tetromino(k);
    Piece(s, width / 2 - Width(s) / 2, -|s|, Letter(k))
  }

  /** `spawn_piece`: the next piece becomes current, a new next piece is
      generated, and the game is over once the promoted piece collides. */
  function Spawn(g: Game, k: Kind): (r: Game)
    requires BoardOk(g)
    ensures BoardOk(r)
    ensures r.current == Some(g.next) && r.next == Generate(g.width, k)
    ensures r.board == g.board && r.width == g.width && r.height == g.height
    ensures r.score == g.score && r.linesCleared == g.linesCleared && r.level == g.level
    ensures r.gameOver <==> g.gameOver || CollidesAt(g, g.next.shape, g.next.x, g.next.y)
    ensures !r.gameOver ==> !CollidesAt(r, r.current.value.shape, r.current.value.x, r.current.value.y)
  {
    var promoted := g.next;
    g.(current := Some(promoted),
       next := Generate(g.width, k),
       gameOver := g.gameOver || CollidesAt(g, promoted.shape, promoted.x, promoted.y))
  }

  // ---------------------------------------------------------------------
  // Player actions
  // ---------------------------------------------------------------------

  /** `move`: shift the live piece by `dx` columns when the shape fits
      there; otherwise report failure and change nothing. */
  function Move(g: Game, dx: int): (r: (Game, bool))
    requires BoardOk(g)
    ensures r.1 <==> (Live(g) &&
      !CollidesAt(g, g.current.value.shape, g.current.value.x + dx, g.current.value.y))
    ensures r.1 ==> r.0 == g.(current := Some(g.current.value.(x := g.current.value.x + dx)))
    ensures !r.1 ==> r.0 == g
  {
    if !Live(g) then (g, false)
    else
      var p := g.current.value;
      var nx := p.x + dx;
      if !CollidesAt(g, p.shape, nx, p.y) then (g.(current := Some(p.(x := nx))), true)
      else (g, false)
  }

  /** The wall-kick offsets `rotate` tries, in order: none, left, right, up. */
  function Kicks(): seq<(int, int)> {
    [(0, 0), (-1, 0), (1, 0), (0, -1)]
  }

  function Turn(s: Shape, clockwise: bool): Shape {
    if clockwise then RotateCW(s) else RotateCCW(s)
  }

  /** Shape `s` fits at (x, y) shifted by kick `j`. */
  predicate KickFits(g: Game, s: Shape, x: int, y: int, j: int)
    requires BoardOk(g) && 0 <= j < |Kicks()|
  {
    !CollidesAt(g, s, x + Kicks()[j].0, y + Kicks()[j].1)
  }

  /** The kick loop of `rotate`, from kick `i` on: the first kick that fits,
      or none when all the remaining ones collide. */
  function FirstFittingKick(g: Game, s: Shape, x: int, y: int, i: nat): (r: Option<nat>)
    requires BoardOk(g) && i <= |Kicks()|
    ensures r.Some? ==> i <= r.value < |Kicks()| && KickFits(g, s, x, y, r.value)
    ensures r.Some? ==> forall m :: i <= m < r.value ==> !KickFits(g, s, x, y, m)
    ensures r.None? ==> forall m :: i <= m < |Kicks()| ==> !KickFits(g, s, x, y, m)
    decreases |Kicks()| - i
  {
    if i == |Kicks()| then None
    else if KickFits(g, s, x, y, i) then Some(i)
    else FirstFittingKick(g, s, x, y, i + 1)
  }

  /** Piece `p` turned to shape `t` and shifted by kick `j`. */
  function Kicked(p: Piece, t: Shape, j: int): Piece
    requires 0 <= j < |Kicks()|
  {
    p.(shape := t, x := p.x + Kicks()[j].0, y := p.y + Kicks()[j].1)
  }

  /** Kick `j` is the first of the kicks at which `t` fits. */
  predicate FirstKick(g: Game, t: Shape, x: int, y: int, j: int)
    requires BoardOk(g) && 0 <= j < |Kicks()|
  {
    KickFits(g, t, x, y, j) && forall m :: 0 <= m < j ==> !KickFits(g, t, x, y, m)
  }

  /** Shape `t` fits at one of the kicks from the live piece's position. */
  ghost predicate SomeKickFits(g: Game, t: Shape)
    requires BoardOk(g) && Live(g)
  {
    var p := g.current.value;
    exists j :: 0 <= j < |Kicks()| && KickFits(g, t, p.x, p.y, j)
  }

  /** `g2` is `g` with the live piece given shape `t` and committed at kick
      `j`, the first kick at which `t` fits. */
  ghost predicate KickedAt(g: Game, t: Shape, j: int, g2: Game)
    requires BoardOk(g) && Live(g)
  {
    var p := g.current.value;
    && 0 <= j < |Kicks()|
    && FirstKick(g, t, p.x, p.y, j)
    && g2 == g.(current := Some(Kicked(p, t, j)))
  }

  /** The kick loop of `rotate` for an already turned shape `t`: commit it
      at the first kick where it fits, or report failure and change
      nothing. */
  function KickInto(g: Game, t: Shape): (r: (Game, bool))
    requires BoardOk(g) && Live(g)
    ensures r.1 <==> SomeKickFits(g, t)
    ensures r.1 ==> exists j :: KickedAt(g, t, j, r.0)
    ensures r.1 ==> r.0.current.Some? && r.0 == g.(current := r.0.current)
    ensures r.1 ==> r.0.current.value.shape == t
    ensures r.1 ==> !CollidesAt(g, t, r.0.current.value.x, r.0.current.value.y)
    ensures !r.1 ==> r.0 == g
  {
    var p := g.current.value;
    match FirstFittingKick(g, t, p.x, p.y, 0)
    case None => (g, false)
    case Some(j) =>
      var q := Kicked(p, t, j);
      assert KickFits(g, t, p.x, p.y, j);
      assert KickedAt(g, t, j, g.(current := Some(q)));
      (g.(current := Some(q)), true)
  }

  /** `rotate`: turn the live piece and commit it at the first of the four
      kicks where it fits; when every kick collides, report failure and
      change nothing. */
  function Rotate(g: Game, clockwise: bool): (r: (Game, bool))
    requires BoardOk(g)
    ensures r.1 <==> Live(g) && SomeKickFits(g, Turn(g.current.value.shape, clockwise))
    ensures r.1 ==> exists j :: KickedAt(g, Turn(g.current.value.shape, clockwise), j, r.0)
    ensures r.1 ==> r.0.current.Some? && r.0 == g.(current := r.0.current)
    ensures r.1 ==> r.0.current.value.shape == Turn(g.current.value.shape, clockwise)
    ensures r.1 ==> !CollidesAt(g, r.0.current.value.shape, r.0.current.value.x, r.0.current.value.y)
    ensures !r.1 ==> r.0 == g
  {
    if !Live(g) then (g, false)
    else KickInto(g, Turn(g.current.value.shape, clockwise))
  }

  // ---------------------------------------------------------------------
  // Locking and scoring
  // ---------------------------------------------------------------------

  /** Points for clearing `n` rows with one lock: n squared times 100. */
  function LineScore(n: nat): nat {
    n * n * 100
  }

  /** Clearing rows together never scores less than clearing them in two
      separate locks, and strictly more when both parts are non-empty. */
  lemma LineScoreRewardsCombos(a: nat, b: nat)
    ensures LineScore(a + b) >= LineScore(a) + LineScore(b)
    ensures a > 0 && b > 0 ==> LineScore(a + b) > LineScore(a) + LineScore(b)
  {
    calc {
      LineScore(a + b);
      (a + b) * (a + b) * 100;
      { assert (a + b) * (a + b) == a * a + 2 * (a * b) + b * b; }
      LineScore(a) + LineScore(b) + 200 * (a * b);
    }
    if a > 0 && b > 0 {
      assert a * b > 0;
    }
  }

  /** `_lock_piece`: write the piece into the board, clear full rows, score
      them, and spawn the next piece. The piece's cells on rows >= 0 must lie
      on the board; a cell already occupied is overwritten. What the lock
      does to the board and the counters is `LockScoring`. */
  function Lock(g: Game, k: Kind): (r: Game)
    requires BoardOk(g)
    requires g.current.Some? ==>
      Writable(g.width, g.height, g.current.value.shape, g.current.value.x, g.current.value.y)
    ensures BoardOk(r)
    ensures r.width == g.width && r.height == g.height
    ensures g.current.None? ==> r == g
    ensures g.current.Some? ==> r.current == Some(g.next)
    ensures g.current.Some? ==> r.next == Generate(g.width, k)
    ensures g.current.Some? ==> r.score >= g.score
    ensures g.current.Some? ==> r.linesCleared >= g.linesCleared
    ensures g.current.Some? ==>
      (r.gameOver <==> g.gameOver || CollidesAt(r, g.next.shape, g.next.x, g.next.y))
  {
    match g.current
    case None => g
    case Some(p) => Spawn(Settle(g, p), k)
  }

  /** The first part of a lock, before the spawn: write piece `p` into the
      board, clear the full rows and score them. */
  function Settle(g: Game, p: Piece): (r: Game)
    requires BoardOk(g) && Writable(g.width, g.height, p.shape, p.x, p.y)
    ensures BoardOk(r)
  {
    var placed := Stamp(g.board, g.width, g.height, p.shape, p.x, p.y, p.letter);
    var cleared := ClearLines(placed, g.width, g.height);
    var n := cleared.1;
    g.(board := cleared.0,
       linesCleared := g.linesCleared + n,
       score := g.score + LineScore(n),
       level := if n > 0 then (g.linesCleared + n) / 10 + 1 else g.level)
  }

  /** The board and counters after a lock: the piece's cells are written,
      the rows it completes (counted on the written board) are cleared, the
      line count grows by that number `n`, the score by `n * n * 100`, and
      the level is recomputed from the line count only when `n > 0`. */
  lemma LockScoring(g: Game, k: Kind)
    requires BoardOk(g) && g.current.Some?
    requires Writable(g.width, g.height, g.current.value.shape, g.current.value.x, g.current.value.y)
    ensures
      var p := g.current.value;
      var placed := Stamp(g.board, g.width, g.height, p.shape, p.x, p.y, p.letter);
      var n := FullCount(placed);
      var r := Lock(g, k);
      && r.board == ClearLines(placed, g.width, g.height).0
      && r.linesCleared == g.linesCleared + n
      && r.score == g.score + LineScore(n)
      && r.level == (if n > 0 then r.linesCleared / 10 + 1 else g.level)
  {
    var s := Settle(g, g.current.value);
    assert Lock(g, k) == Spawn(s, k);
  }

  // ---------------------------------------------------------------------
  // Gravity
  // ---------------------------------------------------------------------

  /** A live piece whose next row down is blocked is locked where it
      stands, so its cells there must be writable. A piece that fits always
      is. */
  predicate RestWritable(g: Game)
    requires BoardOk(g)
  {
    Live(g) && CollidesAt(g, g.current.value.shape, g.current.value.x, g.current.value.y + 1) ==>
      Writable(g.width, g.height, g.current.value.shape, g.current.value.x, g.current.value.y)
  }

  lemma FitsIsRestWritable(g: Game)
    requires BoardOk(g) && Fits(g)
    ensures RestWritable(g)
  {
    if Live(g) {
      var p := g.current.value;
      FitsIsWritable(g.board, g.width, g.height, p.shape, p.x, p.y);
    }
  }

  /** `soft_drop`: move the live piece one row down when that row is free,
      even if the piece overlaps occupied cells where it stands; otherwise
      lock it (spawning the next piece) and report false. */
  function SoftDrop(g: Game, k: Kind): (r: (Game, bool))
    requires BoardOk(g) && RestWritable(g)
    ensures BoardOk(r.0)
    ensures r.1 <==> (Live(g) &&
      !CollidesAt(g, g.current.value.shape, g.current.value.x, g.current.value.y + 1))
    ensures r.1 ==> r.0 == g.(current := Some(g.current.value.(y := g.current.value.y + 1)))
    ensures !Live(g) ==> r.0 == g
    ensures Live(g) && !r.1 ==> r.0 == Lock(g, k) && r.0.current == Some(g.next)
  {
    if !Live(g) then (g, false)
    else
      var p := g.current.value;
      if !CollidesAt(g, p.shape, p.x, p.y + 1) then (g.(current := Some(p.(y := p.y + 1))), true)
      else (Lock(g, k), false)
  }

  /** `tick`: gravity is exactly one soft drop, its result discarded. */
  function Tick(g: Game, k: Kind): (r: Game)
    requires BoardOk(g) && RestWritable(g)
    ensures BoardOk(r)
    ensures r == SoftDrop(g, k).0
  {
    SoftDrop(g, k).0
  }

  /** The resting row of the drop loops: from row `y`, step down while the
      next row is free. The result is the last row before the first
      colliding one. */
  function ShadowFrom(b: Board, w: nat, h: nat, s: Shape, x: int, y: int): (r: int)
    requires Wf(b, w, h) && HasFilled(s)
    ensures y <= r
    ensures Collides(b, w, h, s, x, r + 1)
    ensures forall k :: y < k <= r ==> !Collides(b, w, h, s, x, k)
    decreases h - y
  {
    if Collides(b, w, h, s, x, y + 1) then y
    else
      FreeRowAboveFloor(b, w, h, s, x, y + 1);
      ShadowFrom(b, w, h, s, x, y + 1)
  }

  /** `get_shadow_y`: where the live piece would come to rest, or none when
      there is no live piece. */
  function GetShadowY(g: Game): (r: Option<int>)
    requires BoardOk(g)
    requires Live(g) ==> HasFilled(g.current.value.shape)
    ensures r.None? <==> !Live(g)
    ensures r.Some? ==>
      var p := g.current.value;
      && p.y <= r.value
      && CollidesAt(g, p.shape, p.x, r.value + 1)
      && (forall k :: p.y < k <= r.value ==> !CollidesAt(g, p.shape, p.x, k))
    ensures r.Some? && Fits(g) ==> !CollidesAt(g, g.current.value.shape, g.current.value.x, r.value)
  {
    if g.current.None? || g.gameOver then None
    else
      var p := g.current.value;
      Some(ShadowFrom(g.board, g.width, g.height, p.shape, p.x, p.y))
  }

  /** The loop of `hard_drop`: move the piece down one row at a time while
      the row below is free, counting the rows. It ends on the resting row
      and has counted exactly the rows it fell. */
  function Fall(b: Board, w: nat, h: nat, p: Piece, dropped: int): (r: (Piece, int))
    requires Wf(b, w, h) && HasFilled(p.shape)
    ensures r.0 == p.(y := ShadowFrom(b, w, h, p.shape, p.x, p.y))
    ensures r.1 == dropped + (r.0.y - p.y)
    decreases h - p.y
  {
    if Collides(b, w, h, p.shape, p.x, p.y + 1) then (p, dropped)
    else
      FreeRowAboveFloor(b, w, h, p.shape, p.x, p.y + 1);
      Fall(b, w, h, p.(y := p.y + 1), dropped + 1)
  }

  /** The live piece moved down to its resting row. Once it has moved it
      fits there; a piece that does not move stays where it stood. Either
      way its cells can be written. */
  function Landed(g: Game): (q: Piece)
    requires BoardOk(g) && RestWritable(g) && Live(g)
    requires HasFilled(g.current.value.shape)
    ensures q == g.current.value.(y := q.y)
    ensures GetShadowY(g) == Some(q.y)
    ensures q.y > g.current.value.y ==> !CollidesAt(g, q.shape, q.x, q.y)
    ensures Fits(g) ==> !CollidesAt(g, q.shape, q.x, q.y)
    ensures Writable(g.width, g.height, q.shape, q.x, q.y)
  {
    var p := g.current.value;
    var y := ShadowFrom(g.board, g.width, g.height, p.shape, p.x, p.y);
    assert Writable(g.width, g.height, p.shape, p.x, y) by {
      if y > p.y {
        FitsIsWritable(g.board, g.width, g.height, p.shape, p.x, y);
      }
    }
    p.(y := y)
  }

  /** `hard_drop`: drop the live piece to its resting row (from wherever it
      stands, overlapping or not), lock it, and
      return the number of rows it fell, which is the shadow row minus the
      starting row. */
  function HardDrop(g: Game, k: Kind): (r: (Game, int))
    requires BoardOk(g) && RestWritable(g)
    requires Live(g) ==> HasFilled(g.current.value.shape)
    ensures !Live(g) ==> r == (g, 0)
    ensures Live(g) ==> r.1 >= 0 && r.1 == GetShadowY(g).value - g.current.value.y
    ensures Live(g) ==> r.0 == Lock(g.(current := Some(Landed(g))), k)
  {
    if !Live(g) then (g, 0)
    else
      var p := g.current.value;
      var fallen := Fall(g.board, g.width, g.height, p, 0);
      assert fallen.0 == Landed(g);
      (Lock(g.(current := Some(fallen.0)), k), fallen.1)
  }

  // ---------------------------------------------------------------------
  // Construction and reset
  // ---------------------------------------------------------------------

  /** `__init__` with the first two generated kinds given: an empty board,
      zero score and lines, level 1, the first piece current and the second
      next; the game starts over only if the first piece does not fit
      between the walls. */
  function New(width: nat, height: nat, first: Kind, second: Kind): (r: Game)
    ensures BoardOk(r) && r.width == width && r.height == height
    ensures forall i, j :: 0 <= i < height && 0 <= j < width ==> r.board[i][j] == Blank
    ensures r.score == 0 && r.linesCleared == 0 && r.level == 1
    ensures r.current == Some(Generate(width, first)) && r.next == Generate(width, second)
    ensures r.gameOver <==> width < Width(Tetromino(first))
  {
    var g := Game(width, height, Create(width, height), None, Generate(width, first), 0, 0, 1, false);
    SpawnedPieceFits(g.board, width, height, first);
    Spawn(g, second)
  }

  /** `reset`: the construction-time state again, on a board of the same
      size. */
  function Reset(g: Game, first: Kind, second: Kind): (r: Game)
    ensures BoardOk(r) && r.width == g.width && r.height == g.height
    ensures forall i, j :: 0 <= i < g.height && 0 <= j < g.width ==> r.board[i][j] == Blank
    ensures r.score == 0 && r.linesCleared == 0 && r.level == 1
    ensures r.current == Some(Generate(g.width, first)) && r.next == Generate(g.width, second)
    ensures r.gameOver <==> g.width < Width(Tetromino(first))
  {
    New(g.width, g.height, first, second)
  }

  /** A freshly generated piece collides exactly when it is wider than the
      board: it starts above the board, where only the walls count. So the
      spawn test ends the game only on boards narrower than a piece. */
  lemma SpawnedPieceFits(b: Board, w: nat, h: nat, k: Kind)
    requires Wf(b, w, h)
    ensures Collides(b, w, h, Generate(w, k).shape, Generate(w, k).x, Generate(w, k).y)
      <==> w < Width(Tetromino(k))
  {
    var p := Generate(w, k);
    var s := p.shape;
    CollidesAboveBoard(b, w, h, s, p.x, p.y);
    if w < Width(s) {
      if p.x < 0 {
        var r :| 0 <= r < |s| && s[r][0];
        assert Filled(s, r, 0);
      } else {
        assert p.x + Width(s) > w;
        var r :| 0 <= r < |s| && s[r][Width(s) - 1];
        assert Filled(s, r, Width(s) - 1);
      }
    } else {
      forall r, c | Filled(s, r, c)
        ensures 0 <= p.x + c < w
      {
      }
    }
  }
}

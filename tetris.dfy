/**
 * Tetris: a 20 x 10 well of settled blocks and one falling tetromino.
 * The falling piece is a shape matrix placed at column x, row y (rows grow
 * downwards; rows above the top, y < 0, are allowed).  Shift and rotate are
 * applied only when the result does not collide; a piece that cannot fall
 * is merged into the well, full rows are removed (100 points each) and a
 * new piece spawns, which ends the game when it collides at once.
 */
module Tetris {

  const Rows := 20
  const Cols := 10

  /** A well cell: empty, or a settled block of some colour. */
  datatype Cell = Empty | Block(color: string)

  /** A shape matrix: `true` where the tetromino has a block. */
  type Shape = seq<seq<bool>>

  type Grid = seq<seq<Cell>>

  /** The falling piece: its shape, the column and row of its top-left corner, its colour. */
  datatype Piece = Piece(shape: Shape, x: int, y: int, color: string)

  /** The seven tetrominoes I, O, S, Z, J, L, T. */
  const Shapes: seq<Shape> := [
    [[true, true, true, true]],
    [[true, true], [true, true]],
    [[false, true, true], [true, true, false]],
    [[true, true, false], [false, true, true]],
    [[true, false, false], [true, true, true]],
    [[false, false, true], [true, true, true]],
    [[false, true, false], [true, true, true]]
  ]

  const Colors: seq<string> :=
    ["#06b6d4", "#facc15", "#22c55e", "#ef4444", "#3b82f6", "#f97316", "#a855f7"]

  /** A non-empty rectangular shape matrix. */
  predicate Rect(s: Shape)
  {
    |s| >= 1 && |s[0]| >= 1 && forall i :: 0 <= i < |s| ==> |s[i]| == |s[0]|
  }

  predicate ValidGrid(g: Grid)
  {
    |g| == Rows && forall r :: 0 <= r < |g| ==> |g[r]| == Cols
  }

  function EmptyRow(): (row: seq<Cell>)
    ensures |row| == Cols && forall c :: 0 <= c < Cols ==> row[c] == Empty
  {
    seq(Cols, _ => Empty)
  }

  function EmptyGrid(): (g: Grid)
    ensures ValidGrid(g)
    ensures forall r, c :: 0 <= r < Rows && 0 <= c < Cols ==> g[r][c] == Empty
  {
    seq(Rows, _ => EmptyRow())
  }

  // ---------------------------------------------------------------------
  // Collision
  // ---------------------------------------------------------------------

  /**
   * A block landing on column nx, row ny is not allowed: it is left of the
   * well, right of it, below the bottom, or on a settled block.  Rows above
   * the top are free.
   */
  predicate Hits(g: Grid, nx: int, ny: int)
  {
    nx < 0 || nx >= Cols || ny >= Rows ||
    (0 <= ny < |g| && nx < |g[ny]| && g[ny][nx] != Empty)
  }

  /** Shape s with its top-left corner at (px, py) has some block that hits. */
  ghost predicate Collides(g: Grid, s: Shape, px: int, py: int)
  {
    exists y, x :: 0 <= y < |s| && 0 <= x < |s[y]| && s[y][x] && Hits(g, px + x, py + y)
  }

  /** Block (y, x) of s sits on well cell (r, c) when s is placed at (px, py). */
  predicate Covers(s: Shape, px: int, py: int, r: int, c: int)
  {
    0 <= r - py < |s| && 0 <= c - px < |s[r - py]| && s[r - py][c - px]
  }

  /**
   * A piece that does not collide lies inside the side walls, above the
   * bottom, and only on empty cells: every covered cell of the well is empty.
   */
  lemma {:induction false} FitMeansFree(g: Grid, s: Shape, px: int, py: int)
    requires ValidGrid(g) && !Collides(g, s, px, py)
    ensures forall r, c :: Covers(s, px, py, r, c) ==> 0 <= c < Cols && r < Rows
    ensures forall r, c :: 0 <= r < Rows && Covers(s, px, py, r, c) ==> g[r][c] == Empty
  {
    forall r, c | Covers(s, px, py, r, c)
      ensures 0 <= c < Cols && r < Rows && (0 <= r ==> g[r][c] == Empty)
    {
      assert s[r - py][c - px] && !Hits(g, px + (c - px), py + (r - py));
    }
  }

  // ---------------------------------------------------------------------
  // Rotation
  // ---------------------------------------------------------------------

  /**
   * The shape turned a quarter clockwise: row i of the result is column i
   * of s read from the bottom row up.
   */
  function Rotated(s: Shape): (t: Shape)
    requires Rect(s)
    ensures Rect(t) && |t| == |s[0]| && |t[0]| == |s|
    ensures forall i, k :: 0 <= i < |t| && 0 <= k < |t[i]| ==> t[i][k] == s[|s| - 1 - k][i]
  {
    seq(|s[0]|, i requires 0 <= i < |s[0]| => seq(|s|, k requires 0 <= k < |s| => s[|s| - 1 - k][i]))
  }

  /** Turning twice is a half turn: both rows and columns read backwards. */
  lemma {:induction false} RotatedTwice(s: Shape)
    requires Rect(s)
    ensures var t := Rotated(Rotated(s));
      && |t| == |s| && (forall i :: 0 <= i < |t| ==> |t[i]| == |s[0]|)
      && forall i, k :: 0 <= i < |s| && 0 <= k < |s[0]| ==> t[i][k] == s[|s| - 1 - i][|s[0]| - 1 - k]
  {
    var r := Rotated(s);
    var t := Rotated(r);
    forall i, k | 0 <= i < |s| && 0 <= k < |s[0]|
      ensures t[i][k] == s[|s| - 1 - i][|s[0]| - 1 - k]
    {
      assert t[i][k] == r[|r| - 1 - k][i];
    }
  }

  /** Four quarter turns give the original shape back. */
  lemma {:induction false} RotateFourTimes(s: Shape)
    requires Rect(s)
    ensures Rotated(Rotated(Rotated(Rotated(s)))) == s
  {
    var h := Rotated(Rotated(s));
    RotatedTwice(s);
    RotatedTwice(h);
    var t := Rotated(Rotated(h));
    assert |t| == |s|;
    forall i | 0 <= i < |s|
      ensures t[i] == s[i]
    {
      assert |t[i]| == |s[i]|;
      forall k | 0 <= k < |s[i]|
        ensures t[i][k] == s[i][k]
      {
        assert t[i][k] == h[|h| - 1 - i][|h[0]| - 1 - k];
      }
    }
  }

  // ---------------------------------------------------------------------
  // Merging a piece and clearing lines
  // ---------------------------------------------------------------------

  /** The well with the piece's blocks written in its colour. */
  function Stamped(g: Grid, p: Piece): (h: Grid)
    requires ValidGrid(g)
    ensures ValidGrid(h)
  {
    seq(Rows, r requires 0 <= r < Rows =>
      seq(Cols, c requires 0 <= c < Cols =>
        if Covers(p.shape, p.x, p.y, r, c) then Block(p.color) else g[r][c]))
  }

  /**
   * Merging a piece that fits paints exactly its cells: every covered cell
   * was empty and now holds the piece's colour, every other cell is as it was.
   */
  lemma {:induction false} StampPaintsPiece(g: Grid, p: Piece)
    requires ValidGrid(g) && !Collides(g, p.shape, p.x, p.y)
    ensures forall r, c :: 0 <= r < Rows && 0 <= c < Cols && Covers(p.shape, p.x, p.y, r, c) ==>
      g[r][c] == Empty && Stamped(g, p)[r][c] == Block(p.color)
    ensures forall r, c :: 0 <= r < Rows && 0 <= c < Cols && !Covers(p.shape, p.x, p.y, r, c) ==>
      Stamped(g, p)[r][c] == g[r][c]
  {
    FitMeansFree(g, p.shape, p.x, p.y);
  }

  predicate Full(row: seq<Cell>)
  {
    forall c :: 0 <= c < |row| ==> row[c] != Empty
  }

  /** The rows that are not full, in their order. */
  function Kept(g: Grid): (k: Grid)
    ensures |k| <= |g|
    ensures forall i :: 0 <= i < |k| ==> !Full(k[i]) && k[i] in g
  {
    if |g| == 0 then [] else (if Full(g[0]) then [] else [g[0]]) + Kept(g[1..])
  }

  function FullRows(g: Grid): nat
  {
    |g| - |Kept(g)|
  }

  function Empties(n: nat): (e: Grid)
    ensures |e| == n && forall i :: 0 <= i < n ==> e[i] == EmptyRow()
  {
    seq(n, _ => EmptyRow())
  }

  /** Full rows removed, the well kept at its height by empty rows on top. */
  function Cleared(g: Grid): Grid
  {
    Empties(FullRows(g)) + Kept(g)
  }

  /** Clearing keeps a 20 x 10 well and leaves no full row behind. */
  lemma {:induction false} ClearedIsWell(g: Grid)
    requires ValidGrid(g)
    ensures ValidGrid(Cleared(g))
    ensures forall r :: 0 <= r < Rows ==> !Full(Cleared(g)[r])
  {
    var h := Cleared(g);
    forall r | 0 <= r < Rows
      ensures |h[r]| == Cols && !Full(h[r])
    {
      if r < FullRows(g) {
        assert h[r] == EmptyRow() && h[r][0] == Empty;
      } else {
        var k := Kept(g);
        assert h[r] == k[r - FullRows(g)];
      }
    }
  }

  /** A well with no full row is left as it is. */
  lemma {:induction false} NoFullRowNoClear(g: Grid)
    requires forall r :: 0 <= r < |g| ==> !Full(g[r])
    ensures Kept(g) == g && FullRows(g) == 0 && Cleared(g) == g
  {
    if |g| > 0 {
      assert !Full(g[0]);
      NoFullRowNoClear(g[1..]);
      assert [g[0]] + g[1..] == g;
    }
  }

  /** Number of blocks in a row and in the well. */
  function RowBlocks(row: seq<Cell>): nat
  {
    if |row| == 0 then 0 else (if row[0] != Empty then 1 else 0) + RowBlocks(row[1..])
  }

  function Blocks(g: Grid): nat
  {
    if |g| == 0 then 0 else RowBlocks(g[0]) + Blocks(g[1..])
  }

  lemma {:induction false} FullRowBlocks(row: seq<Cell>)
    requires Full(row)
    ensures RowBlocks(row) == |row|
  {
    if |row| > 0 {
      assert row[0] != Empty;
      FullRowBlocks(row[1..]);
    }
  }

  lemma {:induction false} EmptyRowsNoBlocks(n: nat)
    ensures Blocks(Empties(n)) == 0
  {
    if n > 0 {
      assert RowBlocks(EmptyRow()) == 0 by { EmptyRowNoBlocks(EmptyRow()); }
      assert Empties(n)[1..] == Empties(n - 1);
      EmptyRowsNoBlocks(n - 1);
    }
  }

  lemma {:induction false} EmptyRowNoBlocks(row: seq<Cell>)
    requires forall c :: 0 <= c < |row| ==> row[c] == Empty
    ensures RowBlocks(row) == 0
  {
    if |row| > 0 {
      EmptyRowNoBlocks(row[1..]);
    }
  }

  lemma {:induction false} BlocksAppend(a: Grid, b: Grid)
    ensures Blocks(a + b) == Blocks(a) + Blocks(b)
  {
    if |a| > 0 {
      assert (a + b)[1..] == a[1..] + b;
      BlocksAppend(a[1..], b);
    } else {
      assert a + b == b;
    }
  }

  /** Each cleared row takes exactly Cols blocks out of the well. */
  lemma {:induction false} KeptBlocks(g: Grid)
    requires forall r :: 0 <= r < |g| ==> |g[r]| == Cols
    ensures Blocks(Kept(g)) + Cols * FullRows(g) == Blocks(g)
  {
    if |g| > 0 {
      KeptBlocks(g[1..]);
      var head: Grid := if Full(g[0]) then [] else [g[0]];
      BlocksAppend(head, Kept(g[1..]));
      if Full(g[0]) {
        FullRowBlocks(g[0]);
      } else {
        assert Blocks(head) == RowBlocks(g[0]) + Blocks([]);
      }
    }
  }

  lemma {:induction false} ClearedBlocks(g: Grid)
    requires ValidGrid(g)
    ensures Blocks(Cleared(g)) + Cols * FullRows(g) == Blocks(g)
  {
    BlocksAppend(Empties(FullRows(g)), Kept(g));
    EmptyRowsNoBlocks(FullRows(g));
    KeptBlocks(g);
  }

  // ---------------------------------------------------------------------
  // Spawning
  // ---------------------------------------------------------------------

  /** A new piece of type t, centred in the top row. */
  function SpawnPiece(t: nat): (p: Piece)
    requires t < |Shapes|
    ensures Rect(p.shape) && p.y == 0
  {
    Piece(Shapes[t], Cols / 2 - |Shapes[t][0]| / 2, 0, Colors[t])
  }

  ghost predicate Spawnable(s: Shape)
  {
    Rect(s) && |s[0]| <= Cols && |s| <= Rows
  }

  lemma {:induction false} ShapesSpawnable(t: nat)
    requires t < |Shapes|
    ensures Spawnable(Shapes[t])
  {
  }

  /** Every piece spawns clear of the walls: in an empty well it never collides. */
  lemma {:induction false} SpawnFitsEmptyWell(t: nat)
    requires t < |Shapes|
    ensures !Collides(EmptyGrid(), SpawnPiece(t).shape, SpawnPiece(t).x, SpawnPiece(t).y)
  {
    ShapesSpawnable(t);
  }

  /** Write the blocks of a piece that fits into the well, row by row. */
  method Stamp(g0: Grid, p: Piece) returns (g: Grid)
    requires ValidGrid(g0) && Rect(p.shape)
    requires forall r, c :: Covers(p.shape, p.x, p.y, r, c) ==> 0 <= c < Cols && r < Rows
    ensures g == Stamped(g0, p)
  {
    g := g0;
    var y := 0;
    while y < |p.shape|
      invariant 0 <= y <= |p.shape|
      invariant StampedBefore(g, g0, p, y, 0)
    {
      var x := 0;
      while x < |p.shape[y]|
        invariant 0 <= x <= |p.shape[y]|
        invariant StampedBefore(g, g0, p, y, x)
      {
        StampStep(g, g0, p, y, x);
        if p.shape[y][x] && p.y + y >= 0 {
          g := g[p.y + y := g[p.y + y][p.x + x := Block(p.color)]];
        }
        x := x + 1;
      }
      StampRowDone(g, g0, p, y);
      y := y + 1;
    }
    StampDone(g, g0, p);
  }

  /**
   * Remove every full row, scanning from the bottom; after a removal an
   * empty row goes on top and the same row index is scanned again, since
   * the rows above moved down.
   */
  method RemoveFullRows(g0: Grid) returns (g: Grid, removed: nat)
    requires ValidGrid(g0)
    ensures g == Cleared(g0) && removed == FullRows(g0)
  {
    g := g0;
    removed := 0;
    ghost var j := Rows;
    var y := Rows - 1;
    ClearStart(g0);
    while y >= 0
      invariant ClearState(g, g0, j, removed, y)
      decreases j + y + 1
    {
      ClearStateValid(g, g0, j, removed, y);
      if Full(g[y]) {
        ClearFullStep(g, g0, j, removed, y);
        g := [EmptyRow()] + g[..y] + g[y + 1..];
        removed := removed + 1;
        j := j - 1;
      } else {
        ClearKeepStep(g, g0, j, removed, y);
        y := y - 1;
        if j > 0 {
          j := j - 1;
        }
      }
    }
    ClearEnd(g, g0, j, removed, y);
  }

  // ---------------------------------------------------------------------
  // The game object
  // ---------------------------------------------------------------------

  datatype Key = ArrowLeft | ArrowRight | ArrowUp | ArrowDown | KeyR | OtherKey

  class Game {
    var grid: Grid
    var piece: Piece
    var gameOver: bool
    var isRunning: bool
    var isSoftDrop: bool
    var score: nat

    /**
     * The well is 20 x 10, the piece is a rectangular shape and, while the
     * game is on, it never overlaps the walls, the floor or a settled block.
     */
    ghost predicate Valid()
      reads this
    {
      && ValidGrid(grid) && Rect(piece.shape)
      && (!gameOver ==> !Collides(grid, piece.shape, piece.x, piece.y))
      && (isRunning ==> !gameOver)
    }

    constructor (t: nat)
      requires t < |Shapes|
      ensures Valid() && !gameOver && isRunning && score == 0
      ensures grid == EmptyGrid() && piece == SpawnPiece(t) && !isSoftDrop
    {
      grid := EmptyGrid();
      piece := SpawnPiece(t);
      gameOver := false;
      isRunning := true;
      isSoftDrop := false;
      score := 0;
      SpawnFitsEmptyWell(t);
    }

    /** Would `shape` collide with the piece moved by (offX, offY)? */
    method CheckCollision(offX: int, offY: int, shape: Shape) returns (hit: bool)
      requires ValidGrid(grid)
      ensures hit == Collides(grid, shape, piece.x + offX, piece.y + offY)
    {
      var y := 0;
      while y < |shape|
        invariant 0 <= y <= |shape|
        invariant forall y', x' :: 0 <= y' < y && 0 <= x' < |shape[y']| && shape[y'][x'] ==>
          !Hits(grid, piece.x + offX + x', piece.y + offY + y')
      {
        var x := 0;
        while x < |shape[y]|
          invariant 0 <= x <= |shape[y]|
          invariant forall x' :: 0 <= x' < x && shape[y][x'] ==> !Hits(grid, piece.x + offX + x', piece.y + offY + y)
        {
          if shape[y][x] {
            var newX := piece.x + x + offX;
            var newY := piece.y + y + offY;
            if newX < 0 || newX >= Cols || newY >= Rows || (newY >= 0 && grid[newY][newX] != Empty) {
              assert Hits(grid, piece.x + offX + x, piece.y + offY + y);
              return true;
            }
          }
          x := x + 1;
        }
        y := y + 1;
      }
      return false;
    }

    /** Spawn a piece of type t; a spawn that collides ends the game. */
    method InitPiece(t: nat)
      requires t < |Shapes| && ValidGrid(grid) && (isRunning ==> !gameOver)
      modifies this
      ensures Valid() && piece == SpawnPiece(t)
      ensures gameOver == (old(gameOver) || Collides(grid, piece.shape, piece.x, piece.y))
      ensures isRunning == (old(isRunning) && !Collides(grid, piece.shape, piece.x, piece.y))
      ensures grid == old(grid) && score == old(score) && isSoftDrop == old(isSoftDrop)
    {
      piece := SpawnPiece(t);
      var hit := CheckCollision(0, 0, piece.shape);
      if hit {
        gameOver := true;
        isRunning := false;
      }
    }

    /** Start (or restart) a game: empty well, score 0, a fresh piece. */
    method StartGame(t: nat)
      requires t < |Shapes|
      modifies this
      ensures Valid() && !gameOver && isRunning && score == 0
      ensures grid == EmptyGrid() && piece == SpawnPiece(t) && isSoftDrop == old(isSoftDrop)
    {
      grid := EmptyGrid();
      score := 0;
      gameOver := false;
      isRunning := true;
      SpawnFitsEmptyWell(t);
      InitPiece(t);
    }

    /** Turn the piece a quarter clockwise unless the turned shape collides. */
    method Rotate()
      requires Valid()
      modifies this
      ensures Valid()
      ensures var turned := Rotated(old(piece.shape));
        piece == if Collides(grid, turned, piece.x, piece.y) then old(piece) else old(piece).(shape := turned)
      ensures grid == old(grid) && gameOver == old(gameOver) && isRunning == old(isRunning)
      ensures score == old(score) && isSoftDrop == old(isSoftDrop)
    {
      var newShape := Rotated(piece.shape);
      var hit := CheckCollision(0, 0, newShape);
      if !hit {
        piece := piece.(shape := newShape);
      }
    }

    /** Move the piece one column by dx (-1 left, +1 right) unless it would collide. */
    method Shift(dx: int)
      requires Valid() && (dx == -1 || dx == 1)
      modifies this
      ensures Valid()
      ensures piece == if Collides(grid, piece.shape, old(piece.x) + dx, piece.y) then old(piece)
        else old(piece).(x := old(piece.x) + dx)
      ensures grid == old(grid) && gameOver == old(gameOver) && isRunning == old(isRunning)
      ensures score == old(score) && isSoftDrop == old(isSoftDrop)
    {
      var hit := CheckCollision(dx, 0, piece.shape);
      if !hit {
        piece := piece.(x := piece.x + dx);
      }
    }

    /** Remove the full rows, 100 points for each. */
    method ClearLines()
      requires ValidGrid(grid)
      modifies this
      ensures grid == Cleared(old(grid)) && score == old(score) + 100 * FullRows(old(grid))
      ensures piece == old(piece) && gameOver == old(gameOver) && isRunning == old(isRunning)
      ensures isSoftDrop == old(isSoftDrop)
    {
      var removed;
      grid, removed := RemoveFullRows(grid);
      score := score + 100 * removed;
    }

    /** Settle the piece, clear lines and spawn a piece of type t. */
    method Merge(t: nat)
      requires Valid() && !gameOver && t < |Shapes|
      modifies this
      ensures Valid()
      ensures grid == Cleared(Stamped(old(grid), old(piece)))
      ensures score == old(score) + 100 * FullRows(Stamped(old(grid), old(piece)))
      ensures piece == SpawnPiece(t)
      ensures gameOver == Collides(grid, piece.shape, piece.x, piece.y)
      ensures isRunning == (old(isRunning) && !gameOver) && isSoftDrop == old(isSoftDrop)
    {
      FitMeansFree(grid, piece.shape, piece.x, piece.y);
      grid := Stamp(grid, piece);
      ghost var stamped := grid;
      ClearLines();
      ClearedIsWell(stamped);
      InitPiece(t);
    }

    /** Gravity: fall one row, or merge when the row below is blocked. */
    method Drop(t: nat)
      requires Valid() && !gameOver && t < |Shapes|
      modifies this
      ensures Valid()
      ensures old(!Collides(grid, piece.shape, piece.x, piece.y + 1)) ==>
        grid == old(grid) && piece == old(piece).(y := old(piece.y) + 1) && score == old(score)
        && !gameOver && isRunning == old(isRunning)
      ensures old(Collides(grid, piece.shape, piece.x, piece.y + 1)) ==>
        grid == Cleared(Stamped(old(grid), old(piece)))
        && score == old(score) + 100 * FullRows(Stamped(old(grid), old(piece)))
        && piece == SpawnPiece(t) && gameOver == Collides(grid, piece.shape, piece.x, piece.y)
        && isRunning == (old(isRunning) && !gameOver)
      ensures isSoftDrop == old(isSoftDrop)
    {
      var hit := CheckCollision(0, 1, piece.shape);
      if hit {
        Merge(t);
      } else {
        piece := piece.(y := piece.y + 1);
      }
    }

    /** One frame of the game loop whose drop interval has elapsed. */
    method Frame(t: nat)
      requires Valid() && t < |Shapes|
      modifies this
      ensures Valid()
      ensures !old(isRunning) ==>
        grid == old(grid) && piece == old(piece) && gameOver == old(gameOver)
        && score == old(score) && !isRunning
      ensures old(isRunning) && old(!Collides(grid, piece.shape, piece.x, piece.y + 1)) ==>
        grid == old(grid) && piece == old(piece).(y := old(piece.y) + 1) && score == old(score)
        && !gameOver && isRunning
      ensures old(isRunning) && old(Collides(grid, piece.shape, piece.x, piece.y + 1)) ==>
        grid == Cleared(Stamped(old(grid), old(piece)))
        && score == old(score) + 100 * FullRows(Stamped(old(grid), old(piece)))
        && piece == SpawnPiece(t) && gameOver == Collides(grid, piece.shape, piece.x, piece.y)
        && isRunning == !gameOver
      ensures isSoftDrop == old(isSoftDrop)
    {
      if !isRunning {
        return;
      }
      Drop(t);
    }

    /**
     * A key press.  After game over only R (restart) does anything; otherwise
     * left/right shift, up rotates and down turns on the soft drop.
     */
    method KeyDown(key: Key, t: nat)
      requires Valid() && t < |Shapes|
      modifies this
      ensures Valid()
      ensures old(gameOver) && key != KeyR ==>
        grid == old(grid) && piece == old(piece) && gameOver && score == old(score)
        && isRunning == old(isRunning) && isSoftDrop == old(isSoftDrop)
      ensures old(gameOver) && key == KeyR ==>
        !gameOver && isRunning && grid == EmptyGrid() && score == 0 && piece == SpawnPiece(t)
        && isSoftDrop == old(isSoftDrop)
      ensures !old(gameOver) ==>
        grid == old(grid) && score == old(score) && !gameOver && isRunning == old(isRunning)
      ensures !old(gameOver) ==> (isSoftDrop <==> old(isSoftDrop) || key == ArrowDown)
      ensures !old(gameOver) && (key == ArrowLeft || key == ArrowRight) ==>
        var dx := if key == ArrowLeft then -1 else 1;
        piece == if Collides(old(grid), old(piece.shape), old(piece.x) + dx, old(piece.y)) then old(piece)
          else old(piece).(x := old(piece.x) + dx)
      ensures !old(gameOver) && key == ArrowUp ==>
        var turned := Rotated(old(piece.shape));
        piece == if Collides(old(grid), turned, old(piece.x), old(piece.y)) then old(piece)
          else old(piece).(shape := turned)
      ensures !old(gameOver) && key != ArrowLeft && key != ArrowRight && key != ArrowUp ==>
        piece == old(piece)
    {
      if gameOver {
        if key == KeyR {
          StartGame(t);
        }
        return;
      }
      if key == ArrowLeft {
        Shift(-1);
      } else if key == ArrowRight {
        Shift(1);
      } else if key == ArrowUp {
        Rotate();
      } else if key == ArrowDown {
        isSoftDrop := true;
      }
    }

    /** Releasing down ends the soft drop. */
    method KeyUp(key: Key)
      modifies this
      ensures isSoftDrop == (old(isSoftDrop) && key != ArrowDown)
      ensures grid == old(grid) && piece == old(piece) && gameOver == old(gameOver)
      ensures isRunning == old(isRunning) && score == old(score)
    {
      if key == ArrowDown {
        isSoftDrop := false;
      }
    }
  }

  // ---------------------------------------------------------------------
  // Loop invariants of Stamp and ClearLines
  // ---------------------------------------------------------------------

  /** Block (r - p.y, c - p.x) of the piece comes before block (y, x) in row-major order. */
  predicate CoveredBefore(p: Piece, r: int, c: int, y: int, x: int)
  {
    Covers(p.shape, p.x, p.y, r, c) && (r - p.y < y || (r - p.y == y && c - p.x < x))
  }

  /** The well g0 with the blocks of p before (y, x) written. */
  ghost predicate StampedBefore(g: Grid, g0: Grid, p: Piece, y: int, x: int)
  {
    && ValidGrid(g) && ValidGrid(g0)
    && (forall r, c :: Covers(p.shape, p.x, p.y, r, c) ==> 0 <= c < Cols && r < Rows)
    && Rect(p.shape)
    && forall r, c :: 0 <= r < Rows && 0 <= c < Cols ==>
      g[r][c] == (if CoveredBefore(p, r, c, y, x) then Block(p.color) else g0[r][c])
  }

  lemma {:induction false} StampStep(g: Grid, g0: Grid, p: Piece, y: int, x: int)
    requires StampedBefore(g, g0, p, y, x) && 0 <= y < |p.shape| && 0 <= x < |p.shape[y]|
    ensures p.shape[y][x] && p.y + y >= 0 ==>
      0 <= p.y + y < Rows && 0 <= p.x + x < Cols &&
      StampedBefore(g[p.y + y := g[p.y + y][p.x + x := Block(p.color)]], g0, p, y, x + 1)
    ensures !(p.shape[y][x] && p.y + y >= 0) ==> StampedBefore(g, g0, p, y, x + 1)
  {
    if p.shape[y][x] {
      assert Covers(p.shape, p.x, p.y, p.y + y, p.x + x);
    }
  }

  lemma {:induction false} StampRowDone(g: Grid, g0: Grid, p: Piece, y: int)
    requires 0 <= y < |p.shape| && StampedBefore(g, g0, p, y, |p.shape[y]|)
    ensures StampedBefore(g, g0, p, y + 1, 0)
  {
    forall r, c | 0 <= r < Rows && 0 <= c < Cols
      ensures CoveredBefore(p, r, c, y, |p.shape[y]|) == CoveredBefore(p, r, c, y + 1, 0)
    {
    }
  }

  lemma {:induction false} StampDone(g: Grid, g0: Grid, p: Piece)
    requires StampedBefore(g, g0, p, |p.shape|, 0)
    ensures g == Stamped(g0, p)
  {
    var h := Stamped(g0, p);
    forall r | 0 <= r < Rows
      ensures g[r] == h[r]
    {
      forall c | 0 <= c < Cols
        ensures g[r][c] == h[r][c]
      {
        assert CoveredBefore(p, r, c, |p.shape|, 0) == Covers(p.shape, p.x, p.y, r, c);
      }
    }
  }

  /**
   * While clearing: rows j.. of g0 have been scanned, k of them were full;
   * the well is k empty rows, then the unscanned rows, then the kept ones.
   * Once every row of g0 is scanned (j = 0) the scan runs through the empty
   * rows at the top.
   */
  ghost predicate ClearState(g: Grid, g0: Grid, j: int, k: int, y: int)
  {
    && ValidGrid(g0) && 0 <= j <= Rows && 0 <= k && -1 <= y
    && k + j + |Kept(g0[j..])| == Rows
    && g == Empties(k) + g0[..j] + Kept(g0[j..])
    && (j > 0 ==> y == k + j - 1)
    && (j == 0 ==> y < k)
  }

  lemma {:induction false} ClearStart(g0: Grid)
    requires ValidGrid(g0)
    ensures ClearState(g0, g0, Rows, 0, Rows - 1)
  {
    assert g0[Rows..] == [];
    assert Empties(0) + g0[..Rows] + Kept(g0[Rows..]) == g0;
  }

  lemma {:induction false} KeptRowsWide(g0: Grid, j: int)
    requires ValidGrid(g0) && 0 <= j <= Rows
    ensures forall i :: 0 <= i < |Kept(g0[j..])| ==> |Kept(g0[j..])[i]| == Cols
  {
    forall i | 0 <= i < |Kept(g0[j..])|
      ensures |Kept(g0[j..])[i]| == Cols
    {
      var row := Kept(g0[j..])[i];
      assert row in g0[j..];
      var n :| 0 <= n < |g0[j..]| && g0[j..][n] == row;
      assert row == g0[j + n];
    }
  }

  lemma {:induction false} ClearStateValid(g: Grid, g0: Grid, j: int, k: int, y: int)
    requires ClearState(g, g0, j, k, y)
    ensures ValidGrid(g) && y < Rows
  {
    KeptRowsWide(g0, j);
    forall r | 0 <= r < |g|
      ensures |g[r]| == Cols
    {
      if r < k {
        assert g[r] == EmptyRow();
      } else if r < k + j {
        assert g[r] == g0[r - k];
      } else {
        assert g[r] == Kept(g0[j..])[r - k - j];
      }
    }
  }

  lemma EmptyRowNotFull()
    ensures !Full(EmptyRow())
  {
    assert EmptyRow()[0] == Empty;
  }

  lemma {:induction false} ClearFullStep(g: Grid, g0: Grid, j: int, k: int, y: int)
    requires ClearState(g, g0, j, k, y) && 0 <= y
    requires ValidGrid(g) && Full(g[y])
    ensures 0 < j
    ensures ClearState([EmptyRow()] + g[..y] + g[y + 1..], g0, j - 1, k + 1, y)
  {
    EmptyRowNotFull();
    assert g[y] == g0[j - 1];
    assert g0[j - 1..][0] == g0[j - 1] && g0[j - 1..][1..] == g0[j..];
    assert Kept(g0[j - 1..]) == Kept(g0[j..]);
    var g' := [EmptyRow()] + g[..y] + g[y + 1..];
    assert g[..y] == Empties(k) + g0[..j - 1];
    assert g[y + 1..] == Kept(g0[j..]);
    assert g' == Empties(k + 1) + g0[..j - 1] + Kept(g0[j - 1..]);
  }

  lemma {:induction false} ClearKeepStep(g: Grid, g0: Grid, j: int, k: int, y: int)
    requires ClearState(g, g0, j, k, y) && 0 <= y
    requires ValidGrid(g) && !Full(g[y])
    ensures j > 0 ==> ClearState(g, g0, j - 1, k, y - 1)
    ensures j == 0 ==> ClearState(g, g0, j, k, y - 1)
  {
    if j > 0 {
      assert g[y] == g0[j - 1];
      assert g0[j - 1..][0] == g0[j - 1] && g0[j - 1..][1..] == g0[j..];
      assert Kept(g0[j - 1..]) == [g0[j - 1]] + Kept(g0[j..]);
      assert g0[..j] == g0[..j - 1] + [g0[j - 1]];
      assert g == Empties(k) + g0[..j - 1] + Kept(g0[j - 1..]);
    }
  }

  lemma {:induction false} ClearEnd(g: Grid, g0: Grid, j: int, k: int, y: int)
    requires ClearState(g, g0, j, k, y) && y < 0
    ensures g == Cleared(g0) && k == FullRows(g0)
  {
    assert j == 0;
    assert g0[..0] == [] && g0[0..] == g0;
    assert g == Empties(k) + Kept(g0);
  }
}

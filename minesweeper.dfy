/**
 * The Minesweeper engine on a 10 x 10 grid with 15 mines: lazy mine placement
 * on the first reveal with a safe 3 x 3 zone around the clicked cell,
 * neighbour counts, the recursive flood fill, the win check and flag
 * toggling. The grid is a value; each step returns the new grid. The random
 * cells the placement loop draws are a caller-supplied sequence of in-range
 * cells, consumed in order.
 */
module Minesweeper {

  const Rows := 10
  const Cols := 10
  const MineTotal := 15

  datatype Cell = Cell(mine: bool, revealed: bool, flagged: bool, count: nat)

  type Grid = seq<seq<Cell>>

  datatype Game = Game(grid: Grid, gameOver: bool, win: bool, firstClick: bool)

  predicate ValidGrid(g: Grid) {
    |g| == Rows && forall i :: 0 <= i < |g| ==> |g[i]| == Cols
  }

  predicate InBounds(a: int, b: int) {
    0 <= a < Rows && 0 <= b < Cols
  }

  /** (x, y) is (a, b) itself or one of its eight neighbours. */
  predicate Near(a: int, b: int, x: int, y: int) {
    -1 <= x - a <= 1 && -1 <= y - b <= 1
  }

  /** The grid with cell (a, b) replaced by `x`. */
  function Put(g: Grid, a: int, b: int, x: Cell): (h: Grid)
    requires ValidGrid(g) && InBounds(a, b)
    ensures ValidGrid(h)
    ensures forall i, j :: InBounds(i, j) ==> h[i][j] == (if i == a && j == b then x else g[i][j])
  {
    g[a := g[a][b := x]]
  }

  function Mines(g: Grid): set<(int, int)>
    requires ValidGrid(g)
  {
    set i, j | 0 <= i < Rows && 0 <= j < Cols && g[i][j].mine :: (i, j)
  }

  function Hidden(g: Grid): set<(int, int)>
    requires ValidGrid(g)
  {
    set i, j | 0 <= i < Rows && 0 <= j < Cols && !g[i][j].revealed :: (i, j)
  }

  /** The cells the win check counts: neither a mine nor revealed. */
  function SafeHidden(g: Grid): set<(int, int)>
    requires ValidGrid(g)
  {
    set i, j | 0 <= i < Rows && 0 <= j < Cols && !g[i][j].mine && !g[i][j].revealed :: (i, j)
  }

  // ---------------------------------------------------------------------
  // The fresh grid
  // ---------------------------------------------------------------------

  function FreshRow(): seq<Cell> {
    seq(Cols, _ => Cell(false, false, false, 0))
  }

  /** `initGame`: every cell hidden, unflagged, mine-free, count 0. */
  function InitGrid(): (g: Grid)
    ensures ValidGrid(g)
    ensures Mines(g) == {} && |Hidden(g)| == Rows * Cols
  {
    var g := seq(Rows, _ => FreshRow());
    assert Mines(g) == {};
    assert Hidden(g) == set i, j | 0 <= i < Rows && 0 <= j < Cols :: (i, j);
    AllCellsCount();
    g
  }

  lemma AllCellsCount()
    ensures |set i, j | 0 <= i < Rows && 0 <= j < Cols :: (i, j)| == Rows * Cols
  {
    var all := set i, j | 0 <= i < Rows && 0 <= j < Cols :: (i, j);
    var k := 0;
    var acc: set<(int, int)> := {};
    while k < Rows
      invariant 0 <= k <= Rows
      invariant acc == set i, j | 0 <= i < k && 0 <= j < Cols :: (i, j)
      invariant |acc| == k * Cols
    {
      var row := set j | 0 <= j < Cols :: (k, j);
      RowCount(k);
      assert acc * row == {};
      assert (set i, j | 0 <= i < k + 1 && 0 <= j < Cols :: (i, j)) == acc + row;
      acc := acc + row;
      k := k + 1;
    }
    assert acc == all;
  }

  lemma RowCount(k: int)
    ensures |set j | 0 <= j < Cols :: (k, j)| == Cols
  {
    var n := 0;
    var acc: set<(int, int)> := {};
    while n < Cols
      invariant 0 <= n <= Cols
      invariant acc == set j | 0 <= j < n :: (k, j)
      invariant |acc| == n
    {
      assert (k, n) !in acc;
      assert (set j | 0 <= j < n + 1 :: (k, j)) == acc + {(k, n)};
      acc := acc + {(k, n)};
      n := n + 1;
    }
  }

  function InitGame(): (s: Game)
    ensures Consistent(s) && s.firstClick && !s.gameOver && !s.win
  {
    var g := InitGrid();
    assert forall i, j :: InBounds(i, j) ==> !g[i][j].revealed;
    Game(g, false, false, true)
  }

  // ---------------------------------------------------------------------
  // Neighbour counts
  // ---------------------------------------------------------------------

  function Tally(g: Grid, a: int, b: int): nat
    requires ValidGrid(g)
  {
    if InBounds(a, b) && g[a][b].mine then 1 else 0
  }

  /** Mines among the first n of the cells (a, b - 1), (a, b), (a, b + 1). */
  function RowTally(g: Grid, a: int, b: int, n: int): nat
    requires ValidGrid(g) && 0 <= n <= 3
  {
    if n == 0 then 0 else RowTally(g, a, b, n - 1) + Tally(g, a, b + n - 2)
  }

  /** Mines in the first n of the rows i - 1, i, i + 1 of the block around (i, j). */
  function BlockTally(g: Grid, i: int, j: int, n: int): nat
    requires ValidGrid(g) && 0 <= n <= 3
  {
    if n == 0 then 0 else BlockTally(g, i, j, n - 1) + RowTally(g, i + n - 2, j, 3)
  }

  /** The mines in the 3 x 3 block around (i, j) that lie on the grid. */
  function Around(g: Grid, i: int, j: int): nat
    requires ValidGrid(g)
  {
    BlockTally(g, i, j, 3)
  }

  ghost predicate NoMineNear(g: Grid, i: int, j: int)
    requires ValidGrid(g)
  {
    forall x, y :: InBounds(x, y) && Near(i, j, x, y) ==> !g[x][y].mine
  }

  lemma {:induction false} AroundAsTallies(g: Grid, i: int, j: int)
    requires ValidGrid(g)
    ensures Around(g, i, j) ==
      Tally(g, i - 1, j - 1) + Tally(g, i - 1, j) + Tally(g, i - 1, j + 1) +
      Tally(g, i, j - 1) + Tally(g, i, j) + Tally(g, i, j + 1) +
      Tally(g, i + 1, j - 1) + Tally(g, i + 1, j) + Tally(g, i + 1, j + 1)
  {
    assert BlockTally(g, i, j, 3) == BlockTally(g, i, j, 2) + RowTally(g, i + 1, j, 3);
    assert BlockTally(g, i, j, 2) == BlockTally(g, i, j, 1) + RowTally(g, i, j, 3);
    assert BlockTally(g, i, j, 1) == RowTally(g, i - 1, j, 3);
    forall a | i - 1 <= a <= i + 1
      ensures RowTally(g, a, j, 3) == Tally(g, a, j - 1) + Tally(g, a, j) + Tally(g, a, j + 1)
    {
      assert RowTally(g, a, j, 3) == RowTally(g, a, j, 2) + Tally(g, a, j + 1);
      assert RowTally(g, a, j, 2) == RowTally(g, a, j, 1) + Tally(g, a, j);
    }
  }

  /** A cell that is not a mine has at most eight mines around it. */
  lemma {:induction false} AroundAtMostEight(g: Grid, i: int, j: int)
    requires ValidGrid(g) && InBounds(i, j) && !g[i][j].mine
    ensures Around(g, i, j) <= 8
  {
    AroundAsTallies(g, i, j);
  }

  /** A count of zero means no mine on any in-bounds neighbour. */
  lemma {:induction false} ZeroAroundNoMine(g: Grid, i: int, j: int)
    requires ValidGrid(g) && Around(g, i, j) == 0
    ensures NoMineNear(g, i, j)
  {
    AroundAsTallies(g, i, j);
    forall x, y | InBounds(x, y) && Near(i, j, x, y)
      ensures !g[x][y].mine
    {
      assert Tally(g, x, y) == 0;
    }
  }

  /** With no mine on any in-bounds neighbour the count is zero. */
  lemma {:induction false} NoMineZeroAround(g: Grid, i: int, j: int)
    requires ValidGrid(g) && NoMineNear(g, i, j)
    ensures Around(g, i, j) == 0
  {
    AroundAsTallies(g, i, j);
    assert Tally(g, i - 1, j - 1) == 0 && Tally(g, i - 1, j) == 0 && Tally(g, i - 1, j + 1) == 0;
    assert Tally(g, i, j - 1) == 0 && Tally(g, i, j) == 0 && Tally(g, i, j + 1) == 0;
    assert Tally(g, i + 1, j - 1) == 0 && Tally(g, i + 1, j) == 0 && Tally(g, i + 1, j + 1) == 0;
  }

  ghost predicate SameMines(g: Grid, h: Grid)
    requires ValidGrid(g) && ValidGrid(h)
  {
    forall i, j :: InBounds(i, j) ==> h[i][j].mine == g[i][j].mine
  }

  lemma {:induction false} SameMinesSameAround(g: Grid, h: Grid, i: int, j: int)
    requires ValidGrid(g) && ValidGrid(h) && SameMines(g, h)
    ensures Around(g, i, j) == Around(h, i, j)
  {
    forall a, b
      ensures Tally(g, a, b) == Tally(h, a, b)
    {
      if InBounds(a, b) {
        assert g[a][b].mine == h[a][b].mine;
      }
    }
    AroundAsTallies(g, i, j);
    AroundAsTallies(h, i, j);
  }

  /** The nested neighbour loop: counts the mines in the block around (i, j). */
  method CountAround(g: Grid, i: int, j: int) returns (count: nat)
    requires ValidGrid(g)
    ensures count == Around(g, i, j)
  {
    count := 0;
    var di := -1;
    while di <= 1
      invariant -1 <= di <= 2
      invariant count == BlockTally(g, i, j, di + 1)
    {
      var dj := -1;
      var rowCount := 0;
      while dj <= 1
        invariant -1 <= dj <= 2
        invariant rowCount == RowTally(g, i + di, j, dj + 1)
      {
        if InBounds(i + di, j + dj) && g[i + di][j + dj].mine {
          rowCount := rowCount + 1;
        }
        dj := dj + 1;
      }
      count := count + rowCount;
      di := di + 1;
    }
  }

  /** The grid with every non-mine cell numbered by the mines around it. */
  function Numbered(g: Grid): (h: Grid)
    requires ValidGrid(g)
    ensures ValidGrid(h) && SameMines(g, h)
  {
    seq(Rows, a requires 0 <= a < Rows =>
      seq(Cols, b requires 0 <= b < Cols =>
        if g[a][b].mine then g[a][b] else g[a][b].(count := Around(g, a, b))))
  }

  /** Every non-mine cell's number is the count of mines around it. */
  ghost predicate CountsRight(g: Grid)
    requires ValidGrid(g)
  {
    forall i, j :: InBounds(i, j) && !g[i][j].mine ==> g[i][j].count == Around(g, i, j)
  }

  lemma {:induction false} NumberedCountsRight(g: Grid)
    requires ValidGrid(g)
    ensures CountsRight(Numbered(g))
  {
    var h: Grid := Numbered(g);
    forall i: int, j: int | InBounds(i, j) && !h[i][j].mine
      ensures h[i][j].count == Around(h, i, j)
    {
      SameMinesSameAround(g, h, i, j);
    }
  }

  predicate Before(a: int, b: int, i: int, j: int) {
    a < i || (a == i && b < j)
  }

  /** The counting pass over the whole grid, writing each non-mine cell's number. */
  method NumberCells(g0: Grid) returns (g: Grid)
    requires ValidGrid(g0)
    ensures g == Numbered(g0)
  {
    g := g0;
    var i := 0;
    while i < Rows
      invariant 0 <= i <= Rows && ValidGrid(g)
      invariant forall a, b :: InBounds(a, b) ==>
        g[a][b] == if Before(a, b, i, 0) then Numbered(g0)[a][b] else g0[a][b]
    {
      var j := 0;
      while j < Cols
        invariant 0 <= j <= Cols && ValidGrid(g)
        invariant forall a, b :: InBounds(a, b) ==>
          g[a][b] == if Before(a, b, i, j) then Numbered(g0)[a][b] else g0[a][b]
      {
        if !g[i][j].mine {
          assert SameMines(g, g0);
          var count := CountAround(g, i, j);
          SameMinesSameAround(g, g0, i, j);
          g := Put(g, i, j, g[i][j].(count := count));
        }
        j := j + 1;
      }
      i := i + 1;
    }
    assert forall a :: 0 <= a < Rows ==> g[a] == Numbered(g0)[a];
  }

  // ---------------------------------------------------------------------
  // Mine placement
  // ---------------------------------------------------------------------

  /** The clicked cell and its eight neighbours never receive a mine. */
  predicate InSafeZone(p: (int, int), r: int, c: int) {
    Near(r, c, p.0, p.1)
  }

  predicate DrawsInRange(draws: seq<(int, int)>) {
    forall k :: 0 <= k < |draws| ==> InBounds(draws[k].0, draws[k].1)
  }

  /** Every cell but the mine flags agrees. */
  ghost predicate OnlyMinesDiffer(g: Grid, h: Grid)
    requires ValidGrid(g) && ValidGrid(h)
  {
    forall i, j :: InBounds(i, j) ==>
      h[i][j].revealed == g[i][j].revealed && h[i][j].flagged == g[i][j].flagged &&
      h[i][j].count == g[i][j].count
  }

  lemma {:induction false} MinesAfterArming(g0: Grid, g: Grid, a: int, b: int)
    requires ValidGrid(g0) && ValidGrid(g) && InBounds(a, b) && !g[a][b].mine
    requires OnlyMinesDiffer(g0, g)
    ensures Mines(Put(g, a, b, g[a][b].(mine := true))) == Mines(g) + {(a, b)}
    ensures |Mines(Put(g, a, b, g[a][b].(mine := true)))| == |Mines(g)| + 1
    ensures OnlyMinesDiffer(g0, Put(g, a, b, g[a][b].(mine := true)))
  {
    var h := Put(g, a, b, g[a][b].(mine := true));
    assert (a, b) !in Mines(g);
    forall p | p in Mines(h)
      ensures p in Mines(g) + {(a, b)}
    {
      if p != (a, b) {
        assert g[p.0][p.1].mine;
      }
    }
    forall p | p in Mines(g) + {(a, b)}
      ensures p in Mines(h)
    {
      assert h[p.0][p.1].mine;
    }
  }

  /** Every mine of g0 is kept, and every new mine is a drawn cell outside the safe zone. */
  ghost predicate ArmedFrom(g0: Grid, g: Grid, r: int, c: int, drawn: seq<(int, int)>)
    requires ValidGrid(g0) && ValidGrid(g)
  {
    forall i, j :: InBounds(i, j) ==>
      (g0[i][j].mine ==> g[i][j].mine) &&
      (g[i][j].mine && !g0[i][j].mine ==> !InSafeZone((i, j), r, c) && (i, j) in drawn)
  }

  /** Every drawn cell outside the safe zone is a mine. */
  ghost predicate DrawsArmed(g: Grid, r: int, c: int, drawn: seq<(int, int)>)
    requires ValidGrid(g) && DrawsInRange(drawn)
  {
    forall q :: 0 <= q < |drawn| && !InSafeZone(drawn[q], r, c) ==> g[drawn[q].0][drawn[q].1].mine
  }

  /** The distinct drawn cells outside the safe zone around (r, c): the ones the loop may arm. */
  function AdmissibleDraws(draws: seq<(int, int)>, r: int, c: int): set<(int, int)>
  {
    set q | 0 <= q < |draws| && !InSafeZone(draws[q], r, c) :: draws[q]
  }

  /** When every admissible draw is a mine, there are at least as many mines as admissible draws. */
  lemma {:induction false} ArmedDrawsAreMines(g: Grid, r: int, c: int, draws: seq<(int, int)>)
    requires ValidGrid(g) && DrawsInRange(draws) && DrawsArmed(g, r, c, draws)
    ensures AdmissibleDraws(draws, r, c) <= Mines(g)
    ensures |AdmissibleDraws(draws, r, c)| <= |Mines(g)|
  {
    forall p | p in AdmissibleDraws(draws, r, c)
      ensures p in Mines(g)
    {
      var q :| 0 <= q < |draws| && !InSafeZone(draws[q], r, c) && draws[q] == p;
      assert g[p.0][p.1].mine;
    }
    SubsetCard(AdmissibleDraws(draws, r, c), Mines(g));
  }

  lemma SubsetCard<T>(a: set<T>, b: set<T>)
    requires a <= b
    ensures |a| <= |b|
  {
    assert b == a + (b - a);
  }

  /**
   * The placement loop of the first reveal. It draws cells in order, skips
   * any in the safe zone around (r, c) or already mined, and stops once 15
   * mines are placed or the draws run out. Every new mine is a drawn cell
   * outside the safe zone; when fewer than 15 were placed, every admissible
   * draw became a mine.
   */
  method PlaceMines(g0: Grid, r: int, c: int, draws: seq<(int, int)>) returns (g: Grid, placed: nat)
    requires ValidGrid(g0) && DrawsInRange(draws)
    ensures ValidGrid(g) && OnlyMinesDiffer(g0, g)
    ensures |Mines(g)| == |Mines(g0)| + placed && placed <= MineTotal
    ensures ArmedFrom(g0, g, r, c, draws)
    ensures placed < MineTotal ==> DrawsArmed(g, r, c, draws)
    ensures |AdmissibleDraws(draws, r, c)| >= |Mines(g0)| + MineTotal ==> placed == MineTotal
  {
    g := g0;
    placed := 0;
    var k := 0;
    while placed < MineTotal && k < |draws|
      invariant 0 <= k <= |draws| && ValidGrid(g) && OnlyMinesDiffer(g0, g)
      invariant |Mines(g)| == |Mines(g0)| + placed && placed <= MineTotal
      invariant ArmedFrom(g0, g, r, c, draws[..k])
      invariant DrawsArmed(g, r, c, draws[..k])
    {
      var (mr, mc) := draws[k];
      ArmStep(g0, g, r, c, draws, k);
      if !InSafeZone((mr, mc), r, c) && !g[mr][mc].mine {
        MinesAfterArming(g0, g, mr, mc);
        g := Put(g, mr, mc, g[mr][mc].(mine := true));
        placed := placed + 1;
      }
      k := k + 1;
    }
    DrawsPrefix(g0, g, r, c, draws, k, placed < MineTotal);
    if placed < MineTotal {
      ArmedDrawsAreMines(g, r, c, draws);
    }
  }

  /** One draw keeps both placement invariants. */
  lemma {:induction false} ArmStep(g0: Grid, g: Grid, r: int, c: int, draws: seq<(int, int)>, k: nat)
    requires ValidGrid(g0) && ValidGrid(g) && DrawsInRange(draws) && k < |draws|
    requires ArmedFrom(g0, g, r, c, draws[..k]) && DrawsArmed(g, r, c, draws[..k])
    ensures var p := draws[k];
      var g': Grid := if !InSafeZone(p, r, c) && !g[p.0][p.1].mine then Put(g, p.0, p.1, g[p.0][p.1].(mine := true)) else g;
      ArmedFrom(g0, g', r, c, draws[..k + 1]) && DrawsArmed(g', r, c, draws[..k + 1])
  {
    var p := draws[k];
    var g': Grid := if !InSafeZone(p, r, c) && !g[p.0][p.1].mine then Put(g, p.0, p.1, g[p.0][p.1].(mine := true)) else g;
    var d := draws[..k + 1];
    assert d == draws[..k] + [p];
    forall i, j | InBounds(i, j)
      ensures (g0[i][j].mine ==> g'[i][j].mine)
      ensures (g'[i][j].mine && !g0[i][j].mine ==> !InSafeZone((i, j), r, c) && (i, j) in d)
    {
      if (i, j) != p {
        assert g'[i][j] == g[i][j];
        if g[i][j].mine && !g0[i][j].mine {
          assert (i, j) in draws[..k];
        }
      }
    }
    forall q | 0 <= q < |d| && !InSafeZone(d[q], r, c)
      ensures g'[d[q].0][d[q].1].mine
    {
      if q < k {
        assert d[q] == draws[..k][q];
        assert g[d[q].0][d[q].1].mine;
      }
    }
  }

  lemma {:induction false} DrawsPrefix(g0: Grid, g: Grid, r: int, c: int, draws: seq<(int, int)>, k: nat, all: bool)
    requires ValidGrid(g0) && ValidGrid(g) && DrawsInRange(draws) && k <= |draws|
    requires all ==> k == |draws|
    requires ArmedFrom(g0, g, r, c, draws[..k]) && DrawsArmed(g, r, c, draws[..k])
    ensures ArmedFrom(g0, g, r, c, draws)
    ensures all ==> DrawsArmed(g, r, c, draws)
  {
    forall i, j | InBounds(i, j) && g[i][j].mine && !g0[i][j].mine
      ensures (i, j) in draws
    {
      var q :| 0 <= q < k && draws[..k][q] == (i, j);
      assert draws[q] == (i, j);
    }
    if all {
      assert draws[..k] == draws;
    }
  }

  // ---------------------------------------------------------------------
  // Flood fill
  // ---------------------------------------------------------------------

  /**
   * h grows from g by revealing cells: mines, flags and numbers are kept,
   * revealed cells stay revealed, and no flagged cell becomes revealed.
   */
  ghost predicate Grows(g: Grid, h: Grid) {
    && ValidGrid(g) && ValidGrid(h)
    && forall i, j :: InBounds(i, j) ==>
      && h[i][j].mine == g[i][j].mine
      && h[i][j].flagged == g[i][j].flagged
      && h[i][j].count == g[i][j].count
      && (g[i][j].revealed ==> h[i][j].revealed)
      && (h[i][j].revealed && !g[i][j].revealed ==> !g[i][j].flagged)
  }

  /** The cell is off the grid, revealed or flagged: the fill stops there. */
  predicate Stops(h: Grid, x: int, y: int) {
    !(0 <= x < |h| && 0 <= y < |h[x]|) || h[x][y].revealed || h[x][y].flagged
  }

  predicate NewlyRevealed(g: Grid, h: Grid, a: int, b: int) {
    && 0 <= a < |g| && 0 <= b < |g[a]| && 0 <= a < |h| && 0 <= b < |h[a]|
    && h[a][b].revealed && !g[a][b].revealed
  }

  /** Every neighbour of (a, b) is off the grid, revealed or flagged. */
  ghost predicate Settled(h: Grid, a: int, b: int) {
    forall x, y :: Near(a, b, x, y) ==> Stops(h, x, y)
  }

  /**
   * The fill is complete: around every zero-numbered cell it revealed, each
   * neighbour is revealed or flagged (except around (r, c) when `skip`).
   */
  ghost predicate Complete(g: Grid, h: Grid, skip: bool, r: int, c: int) {
    forall a, b ::
      (NewlyRevealed(g, h, a, b) && h[a][b].count == 0 && !(skip && a == r && b == c))
      ==> Settled(h, a, b)
  }

  /** No mine was revealed by going from g to h. */
  ghost predicate NoMineRevealed(g: Grid, h: Grid) {
    forall a, b :: NewlyRevealed(g, h, a, b) ==> !h[a][b].mine
  }

  /**
   * (x, y) is a ranked zero cell next to (a, b) and ranked below it: the fill
   * passed from (x, y) on to (a, b).
   */
  ghost predicate Feeds(h: Grid, rank: map<(int, int), nat>, x: int, y: int, a: int, b: int)
    requires ValidGrid(h)
  {
    && Near(a, b, x, y) && InBounds(x, y) && h[x][y].count == 0
    && (x, y) in rank && (a, b) in rank && rank[(x, y)] < rank[(a, b)]
  }

  /**
   * `rank` ranks exactly the cells opened going from g to h, and every one of
   * them is a root or is fed by an opened zero cell of lower rank. The roots
   * are (r, c), or with `around` the block around (r, c). Ranks cannot descend
   * for ever, so every opened cell is joined to a root through opened zeros.
   */
  ghost predicate Linked(g: Grid, h: Grid, rank: map<(int, int), nat>, r: int, c: int, around: bool) {
    && ValidGrid(g) && ValidGrid(h)
    && (forall p :: p in rank ==> InBounds(p.0, p.1) && h[p.0][p.1].revealed && !g[p.0][p.1].revealed)
    && forall a, b :: NewlyRevealed(g, h, a, b) ==>
      && (a, b) in rank
      && ((if around then Near(r, c, a, b) else a == r && b == c) ||
          exists x, y :: Feeds(h, rank, x, y, a, b))
  }

  /** Every cell opened going from g to h is reached from (r, c) through opened zero cells. */
  ghost predicate Reached(g: Grid, h: Grid, r: int, c: int) {
    exists rank :: Linked(g, h, rank, r, c, false)
  }

  /**
   * A region that does not hold (r, c), and that no opened zero cell outside
   * it touches, stays closed: the fill never jumps to an unconnected part of
   * the grid.
   */
  lemma {:induction false} CutOffStaysClosed(g: Grid, h: Grid, r: int, c: int, cut: set<(int, int)>)
    requires Reached(g, h, r, c) && (r, c) !in cut
    requires forall p, x, y :: p in cut && Near(p.0, p.1, x, y) && NewlyRevealed(g, h, x, y) && h[x][y].count == 0 ==> (x, y) in cut
    ensures forall p :: p in cut ==> !NewlyRevealed(g, h, p.0, p.1)
  {
    var rank :| Linked(g, h, rank, r, c, false);
    forall p | p in cut
      ensures !NewlyRevealed(g, h, p.0, p.1)
    {
      if NewlyRevealed(g, h, p.0, p.1) {
        ClosedBelow(g, h, rank, r, c, cut, rank[p]);
      }
    }
  }

  /** No cell of the cut region is opened with a rank up to n. */
  lemma {:induction false} ClosedBelow(g: Grid, h: Grid, rank: map<(int, int), nat>, r: int, c: int,
                                       cut: set<(int, int)>, n: nat)
    requires Linked(g, h, rank, r, c, false) && (r, c) !in cut
    requires forall p, x, y :: p in cut && Near(p.0, p.1, x, y) && NewlyRevealed(g, h, x, y) && h[x][y].count == 0 ==> (x, y) in cut
    ensures forall p :: p in cut && p in rank ==> rank[p] > n
    decreases n
  {
    forall p | p in cut && p in rank
      ensures rank[p] > n
    {
      if rank[p] <= n {
        assert NewlyRevealed(g, h, p.0, p.1);
        var x, y :| Feeds(h, rank, x, y, p.0, p.1);
        assert NewlyRevealed(g, h, x, y);
        assert (x, y) in cut;
        if n > 0 {
          ClosedBelow(g, h, rank, r, c, cut, n - 1);
        }
      }
    }
  }

  /** One more fill from a neighbour of (r, c) keeps every opened cell joined to the block around (r, c). */
  lemma {:induction false} LinkedJoin(g1: Grid, h: Grid, k: Grid, rank: map<(int, int), nat>,
                                      sub: map<(int, int), nat>, r: int, c: int, i: int, j: int)
    requires Grows(g1, h) && Grows(h, k) && -1 <= i <= 1 && -1 <= j <= 1
    requires Linked(g1, h, rank, r, c, true) && Linked(h, k, sub, r + i, c + j, false)
    ensures Linked(g1, k, rank + sub, r, c, true)
  {
    var m := rank + sub;
    forall p | p in m
      ensures NewlyRevealed(g1, k, p.0, p.1)
    {
      if p in sub {
        assert NewlyRevealed(h, k, p.0, p.1);
      } else {
        assert NewlyRevealed(g1, h, p.0, p.1);
      }
    }
    forall a, b | NewlyRevealed(g1, k, a, b)
      ensures (a, b) in m && (Near(r, c, a, b) || exists x, y :: Feeds(k, m, x, y, a, b))
    {
      if NewlyRevealed(g1, h, a, b) {
        assert (a, b) !in sub && (a, b) in rank;
        if !Near(r, c, a, b) {
          var x, y :| Feeds(h, rank, x, y, a, b);
          assert (x, y) !in sub;
          assert Feeds(k, m, x, y, a, b);
        }
      } else {
        assert NewlyRevealed(h, k, a, b);
        if !(a == r + i && b == c + j) {
          var x, y :| Feeds(k, sub, x, y, a, b);
          assert Feeds(k, m, x, y, a, b);
        }
      }
    }
  }

  lemma {:induction false} ReachedNothing(g: Grid, r: int, c: int)
    requires ValidGrid(g)
    ensures Reached(g, g, r, c)
  {
    assert Linked(g, g, map[], r, c, false);
  }

  lemma {:induction false} ReachedOne(g: Grid, r: int, c: int)
    requires ValidGrid(g) && InBounds(r, c) && !g[r][c].revealed
    ensures Reached(g, Put(g, r, c, g[r][c].(revealed := true)), r, c)
  {
    var h := Put(g, r, c, g[r][c].(revealed := true));
    assert forall a, b :: NewlyRevealed(g, h, a, b) <==> a == r && b == c;
    assert Linked(g, h, map[(r, c) := 0], r, c, false);
  }

  lemma {:induction false} ReachedJoin(g1: Grid, h: Grid, k: Grid, rank: map<(int, int), nat>, r: int, c: int, i: int, j: int)
    returns (m: map<(int, int), nat>)
    requires Grows(g1, h) && Grows(h, k) && -1 <= i <= 1 && -1 <= j <= 1
    requires Linked(g1, h, rank, r, c, true) && Reached(h, k, r + i, c + j)
    ensures Linked(g1, k, m, r, c, true)
  {
    var sub :| Linked(h, k, sub, r + i, c + j, false);
    LinkedJoin(g1, h, k, rank, sub, r, c, i, j);
    m := rank + sub;
  }

  /** Opening the zero cell (r, c) and then its block yields cells joined to (r, c). */
  lemma {:induction false} LinkedLift(g: Grid, g1: Grid, h: Grid, rank: map<(int, int), nat>, r: int, c: int)
    requires ValidGrid(g) && InBounds(r, c) && !Stops(g, r, c)
    requires g1 == Put(g, r, c, g[r][c].(revealed := true)) && g1[r][c].count == 0
    requires Grows(g1, h) && Linked(g1, h, rank, r, c, true)
    ensures Reached(g, h, r, c)
  {
    var up: map<(int, int), nat> := map p | p in rank :: rank[p] + 1;
    var m := up[(r, c) := 0];
    assert NewlyRevealed(g, h, r, c);
    forall p | p in m
      ensures NewlyRevealed(g, h, p.0, p.1)
    {
      if p != (r, c) {
        assert NewlyRevealed(g1, h, p.0, p.1);
      }
    }
    forall a, b | NewlyRevealed(g, h, a, b)
      ensures (a, b) in m && ((a == r && b == c) || exists x, y :: Feeds(h, m, x, y, a, b))
    {
      if !(a == r && b == c) {
        assert NewlyRevealed(g1, h, a, b);
        if Near(r, c, a, b) {
          assert Feeds(h, m, r, c, a, b);
        } else {
          var x, y :| Feeds(h, rank, x, y, a, b);
          assert Feeds(h, m, x, y, a, b);
        }
      }
    }
    assert Linked(g, h, m, r, c, false);
  }

  /** Around every safe cell numbered 0 there is no mine. */
  ghost predicate ZerosSafe(g: Grid) {
    ValidGrid(g) &&
    forall a, b :: InBounds(a, b) && !g[a][b].mine && g[a][b].count == 0 ==> NoMineNear(g, a, b)
  }

  lemma {:induction false} CountsRightZerosSafe(g: Grid)
    requires ValidGrid(g) && CountsRight(g)
    ensures ZerosSafe(g)
  {
    forall a, b | InBounds(a, b) && !g[a][b].mine && g[a][b].count == 0
      ensures NoMineNear(g, a, b)
    {
      ZeroAroundNoMine(g, a, b);
    }
  }

  lemma {:induction false} GrowsTrans(g: Grid, h: Grid, k: Grid)
    requires Grows(g, h) && Grows(h, k)
    ensures Grows(g, k)
  {
  }

  lemma {:induction false} GrowsKeeps(g: Grid, h: Grid)
    requires Grows(g, h)
    ensures Hidden(h) <= Hidden(g) && |Hidden(h)| <= |Hidden(g)| && SameMines(g, h)
    ensures ZerosSafe(g) ==> ZerosSafe(h)
  {
    var a, b := Hidden(h), Hidden(g);
    assert b == a + (b - a) && a * (b - a) == {};
  }

  lemma {:induction false} RevealOne(g: Grid, a: int, b: int)
    requires ValidGrid(g) && InBounds(a, b) && !g[a][b].revealed && !g[a][b].flagged
    ensures Grows(g, Put(g, a, b, g[a][b].(revealed := true)))
    ensures |Hidden(Put(g, a, b, g[a][b].(revealed := true)))| == |Hidden(g)| - 1
  {
    var h := Put(g, a, b, g[a][b].(revealed := true));
    forall p | p in Hidden(g) - {(a, b)}
      ensures p in Hidden(h)
    {
      assert !h[p.0][p.1].revealed;
    }
    assert Hidden(h) == Hidden(g) - {(a, b)};
    assert (a, b) in Hidden(g);
  }

  /** One more fill from a neighbour keeps the sweep's facts. */
  lemma {:induction false} SweepStep(g1: Grid, h: Grid, k: Grid, r: int, c: int)
    requires Grows(g1, h) && Grows(h, k)
    requires Complete(g1, h, true, r, c) && Complete(h, k, false, r, c)
    requires ZerosSafe(g1) && NoMineNear(g1, r, c) ==> NoMineRevealed(g1, h)
    requires ZerosSafe(h) && NoMineNear(h, r, c) ==> NoMineRevealed(h, k)
    ensures Grows(g1, k) && Complete(g1, k, true, r, c)
    ensures ZerosSafe(g1) && NoMineNear(g1, r, c) ==> NoMineRevealed(g1, k)
    ensures forall x, y :: Stops(h, x, y) ==> Stops(k, x, y)
  {
    forall a, b | NewlyRevealed(g1, k, a, b) && k[a][b].count == 0 && !(a == r && b == c)
      ensures Settled(k, a, b)
    {
      if NewlyRevealed(g1, h, a, b) {
        assert Settled(h, a, b);
        forall x, y | Near(a, b, x, y)
          ensures Stops(k, x, y)
        {
          assert Stops(h, x, y);
        }
      } else {
        assert NewlyRevealed(h, k, a, b);
      }
    }
    GrowsKeeps(g1, h);
    if ZerosSafe(g1) && NoMineNear(g1, r, c) {
      forall a, b | NewlyRevealed(g1, k, a, b)
        ensures !k[a][b].mine
      {
        if !NewlyRevealed(g1, h, a, b) {
          assert NewlyRevealed(h, k, a, b);
        }
      }
    }
  }

  /** The fill from (r + i, c + j) keeps the double loop's invariants one column on. */
  lemma {:induction false} SweepOne(g1: Grid, h: Grid, k: Grid, rank: map<(int, int), nat>,
                                    r: int, c: int, i: int, j: int) returns (m: map<(int, int), nat>)
    requires -1 <= i <= 1 && -1 <= j <= 1 && Grows(g1, h) && Complete(g1, h, true, r, c)
    requires Linked(g1, h, rank, r, c, true)
    requires ZerosSafe(g1) && NoMineNear(g1, r, c) ==> NoMineRevealed(g1, h)
    requires forall x, y :: Near(r, c, x, y) && Before(x, y, r + i, c + j) ==> Stops(h, x, y)
    requires Grows(h, k) && Complete(h, k, false, r + i, c + j) && Reached(h, k, r + i, c + j)
    requires InBounds(r + i, c + j) && !h[r + i][c + j].flagged ==> k[r + i][c + j].revealed
    requires ZerosSafe(h) && (InBounds(r + i, c + j) ==> !h[r + i][c + j].mine) ==> NoMineRevealed(h, k)
    ensures Grows(g1, k) && Complete(g1, k, true, r, c)
    ensures Linked(g1, k, m, r, c, true)
    ensures ZerosSafe(g1) && NoMineNear(g1, r, c) ==> NoMineRevealed(g1, k)
    ensures forall x, y :: Near(r, c, x, y) && Before(x, y, r + i, c + j + 1) ==> Stops(k, x, y)
  {
    if ZerosSafe(g1) && NoMineNear(g1, r, c) {
      GrowsKeeps(g1, h);
      assert InBounds(r + i, c + j) ==> !h[r + i][c + j].mine;
    }
    SweepStep(g1, h, k, r, c);
    m := ReachedJoin(g1, h, k, rank, r, c, i, j);
  }

  /**
   * `floodFill(r, c)`: returns at once off the grid or on a revealed or
   * flagged cell; otherwise reveals the cell and, when its number is 0,
   * recurses into the 3 x 3 block around it.
   *
   * The result only reveals cells (nothing else changes, no flagged cell is
   * revealed), always reveals the start cell when it may, reveals that cell
   * alone when its number is not 0, leaves the fill complete around every
   * zero cell it opened, opens only cells reached from the start through
   * opened zero cells, and, when every zero is safe and the start cell is not
   * a mine, reveals no mine.
   */
  method FloodFill(g: Grid, r: int, c: int) returns (h: Grid)
    requires ValidGrid(g)
    ensures Grows(g, h)
    ensures Stops(g, r, c) ==> h == g
    ensures InBounds(r, c) && !g[r][c].flagged ==> h[r][c].revealed
    ensures InBounds(r, c) && !Stops(g, r, c) && g[r][c].count != 0 ==>
      h == Put(g, r, c, g[r][c].(revealed := true))
    ensures Complete(g, h, false, r, c)
    ensures Reached(g, h, r, c)
    ensures ZerosSafe(g) && (InBounds(r, c) ==> !g[r][c].mine) ==> NoMineRevealed(g, h)
    decreases |Hidden(g)|, 1
  {
    if Stops(g, r, c) {
      ReachedNothing(g, r, c);
      return g;
    }
    RevealOne(g, r, c);
    var g1: Grid := Put(g, r, c, g[r][c].(revealed := true));
    if g1[r][c].count == 0 {
      h := FillAround(g1, r, c);
      ZeroFill(g, g1, h, r, c);
      ZeroFillReached(g, g1, h, r, c);
    } else {
      h := g1;
      ReachedOne(g, r, c);
    }
  }

  /** Opening the zero cell (r, c) and filling its block completes the fill from (r, c). */
  lemma {:induction false} ZeroFill(g: Grid, g1: Grid, h: Grid, r: int, c: int)
    requires ValidGrid(g) && InBounds(r, c) && !Stops(g, r, c)
    requires g1 == Put(g, r, c, g[r][c].(revealed := true)) && g1[r][c].count == 0
    requires Grows(g1, h) && Settled(h, r, c) && Complete(g1, h, true, r, c)
    requires ZerosSafe(g1) && NoMineNear(g1, r, c) ==> NoMineRevealed(g1, h)
    ensures Grows(g, h) && h[r][c].revealed && Complete(g, h, false, r, c)
    ensures ZerosSafe(g) && !g[r][c].mine ==> NoMineRevealed(g, h)
  {
    RevealOne(g, r, c);
    GrowsTrans(g, g1, h);
    GrowsKeeps(g, g1);
    assert ZerosSafe(g) && !g[r][c].mine ==> NoMineNear(g1, r, c);
  }

  /** The same fill is reached from (r, c). */
  lemma {:induction false} ZeroFillReached(g: Grid, g1: Grid, h: Grid, r: int, c: int)
    requires ValidGrid(g) && InBounds(r, c) && !Stops(g, r, c)
    requires g1 == Put(g, r, c, g[r][c].(revealed := true)) && g1[r][c].count == 0
    requires Grows(g1, h) && exists rank :: Linked(g1, h, rank, r, c, true)
    ensures Reached(g, h, r, c)
  {
    var rank :| Linked(g1, h, rank, r, c, true);
    LinkedLift(g, g1, h, rank, r, c);
  }

  /**
   * The double loop of `floodFill` over the 3 x 3 block around a revealed
   * zero cell (r, c): fills from each cell of the block in row order.
   */
  method FillAround(g1: Grid, r: int, c: int) returns (h: Grid)
    requires ValidGrid(g1) && InBounds(r, c)
    ensures Grows(g1, h) && Settled(h, r, c) && Complete(g1, h, true, r, c)
    ensures exists rank :: Linked(g1, h, rank, r, c, true)
    ensures ZerosSafe(g1) && NoMineNear(g1, r, c) ==> NoMineRevealed(g1, h)
    decreases |Hidden(g1)| + 1, 0
  {
    h := g1;
    ghost var rank: map<(int, int), nat> := map[];
    var i := -1;
    while i <= 1
      invariant -1 <= i <= 2 && Grows(g1, h) && Complete(g1, h, true, r, c)
      invariant Linked(g1, h, rank, r, c, true)
      invariant ZerosSafe(g1) && NoMineNear(g1, r, c) ==> NoMineRevealed(g1, h)
      invariant forall x, y :: Near(r, c, x, y) && x < r + i ==> Stops(h, x, y)
    {
      var j := -1;
      while j <= 1
        invariant -1 <= j <= 2 && Grows(g1, h) && Complete(g1, h, true, r, c)
        invariant Linked(g1, h, rank, r, c, true)
        invariant ZerosSafe(g1) && NoMineNear(g1, r, c) ==> NoMineRevealed(g1, h)
        invariant forall x, y :: Near(r, c, x, y) && Before(x, y, r + i, c + j) ==> Stops(h, x, y)
      {
        GrowsKeeps(g1, h);
        var k := FloodFill(h, r + i, c + j);
        rank := SweepOne(g1, h, k, rank, r, c, i, j);
        h := k;
        j := j + 1;
      }
      i := i + 1;
    }
  }

  // ---------------------------------------------------------------------
  // Reveal, the win check and flags
  // ---------------------------------------------------------------------

  /**
   * What every game state satisfies: before the first reveal there are no
   * mines and nothing is revealed; afterwards every number is right.
   */
  ghost predicate Consistent(s: Game) {
    && ValidGrid(s.grid)
    && (s.firstClick ==> Mines(s.grid) == {} && forall i, j :: InBounds(i, j) ==> !s.grid[i][j].revealed)
    && (!s.firstClick ==> CountsRight(s.grid))
  }

  /** The guard of `reveal`: a finished game, or a flagged or revealed cell. */
  predicate RevealIgnored(s: Game, r: int, c: int)
    requires ValidGrid(s.grid) && InBounds(r, c)
  {
    s.gameOver || s.win || s.grid[r][c].flagged || s.grid[r][c].revealed
  }

  /** The game is won exactly when no cell that is not a mine is still hidden. */
  lemma {:induction false} WonIff(g: Grid)
    requires ValidGrid(g)
    ensures |SafeHidden(g)| == 0 <==> forall i, j :: InBounds(i, j) ==> g[i][j].mine || g[i][j].revealed
  {
    if |SafeHidden(g)| != 0 {
      var p :| p in SafeHidden(g);
      assert !g[p.0][p.1].mine && !g[p.0][p.1].revealed;
    } else if !forall i, j :: InBounds(i, j) ==> g[i][j].mine || g[i][j].revealed {
      var i, j :| InBounds(i, j) && !g[i][j].mine && !g[i][j].revealed;
      assert (i, j) in SafeHidden(g);
    }
  }

  /**
   * `reveal(r, c)`. On the first reveal the mines are placed from `draws`
   * around the safe zone and every cell is numbered. A mine ends the game;
   * otherwise the flood fill runs from (r, c) and the game is won when no
   * safe cell stays hidden.
   */
  method Reveal(s: Game, r: int, c: int, draws: seq<(int, int)>) returns (t: Game)
    requires ValidGrid(s.grid) && InBounds(r, c) && DrawsInRange(draws)
    ensures ValidGrid(t.grid)
    ensures RevealIgnored(s, r, c) ==> t == s
    ensures !RevealIgnored(s, r, c) ==> !t.firstClick && t.grid[r][c].revealed
    ensures !RevealIgnored(s, r, c) && t.gameOver ==> t.grid[r][c].mine && t.win == s.win
    ensures !RevealIgnored(s, r, c) && !t.gameOver ==>
      !t.grid[r][c].mine && (t.win <==> |SafeHidden(t.grid)| == 0)
    ensures Consistent(s) ==> Consistent(t)
    ensures Consistent(s) && !t.gameOver ==> NoMineRevealed(s.grid, t.grid)
    ensures Consistent(s) && s.firstClick && !RevealIgnored(s, r, c) ==>
      && !t.gameOver
      && |Mines(t.grid)| <= MineTotal
      && ArmedFrom(s.grid, t.grid, r, c, draws)
      && (|Mines(t.grid)| < MineTotal ==> DrawsArmed(t.grid, r, c, draws))
      && (|AdmissibleDraws(draws, r, c)| >= MineTotal ==> |Mines(t.grid)| == MineTotal)
    ensures forall i, j :: InBounds(i, j) ==>
      && t.grid[i][j].flagged == s.grid[i][j].flagged
      && (s.grid[i][j].revealed ==> t.grid[i][j].revealed)
      && (s.grid[i][j].flagged ==> t.grid[i][j].revealed == s.grid[i][j].revealed)
    ensures !s.firstClick ==> SameNumbers(s.grid, t.grid)
    ensures !RevealIgnored(s, r, c) && t.gameOver ==>
      forall i, j :: NewlyRevealed(s.grid, t.grid, i, j) ==> i == r && j == c
    ensures !RevealIgnored(s, r, c) && !t.gameOver ==>
      Complete(s.grid, t.grid, false, r, c) && Reached(s.grid, t.grid, r, c)
    ensures !RevealIgnored(s, r, c) && !t.gameOver && t.grid[r][c].count != 0 ==>
      forall i, j :: NewlyRevealed(s.grid, t.grid, i, j) ==> i == r && j == c
    ensures !s.firstClick && !RevealIgnored(s, r, c) && (s.grid[r][c].mine || s.grid[r][c].count != 0) ==>
      t.grid == Put(s.grid, r, c, s.grid[r][c].(revealed := true))
  {
    if RevealIgnored(s, r, c) {
      return s;
    }
    var g := s.grid;
    if s.firstClick {
      var armed, placed := PlaceMines(g, r, c, draws);
      g := NumberCells(armed);
      FirstClickFacts(s.grid, armed, g, r, c, draws, placed);
    } else {
      SameLooksReflexive(g);
    }
    if g[r][c].mine {
      var h := Put(g, r, c, g[r][c].(revealed := true));
      t := Game(h, true, s.win, false);
      if Consistent(s) {
        CountsRightKept(g, h);
      }
      MineHitLooks(s.grid, g, r, c);
      return t;
    }
    var h := FloodFill(g, r, c);
    WonIff(h);
    t := Game(h, false, |SafeHidden(h)| == 0, false);
    FillLooks(s.grid, g, h, r, c);
    if Consistent(s) {
      CountsRightKept(g, h);
      CountsRightZerosSafe(g);
      assert NoMineRevealed(s.grid, h) by {
        assert NoMineRevealed(g, h);
        SameLooksNewly(s.grid, g, h);
      }
      if s.firstClick {
        ArmedTransfer(s.grid, g, h, r, c, draws);
        if |Mines(h)| < MineTotal {
          ArmedDrawsAreMines(h, r, c, draws);
        }
      }
    }
  }

  /** Hitting a mine opens (r, c) alone and keeps every flag. */
  lemma {:induction false} MineHitLooks(g0: Grid, g: Grid, r: int, c: int)
    requires SameLooks(g0, g) && InBounds(r, c) && !g0[r][c].flagged
    ensures var h := Put(g, r, c, g[r][c].(revealed := true));
      && (forall i, j :: InBounds(i, j) ==>
        && h[i][j].flagged == g0[i][j].flagged
        && (g0[i][j].revealed ==> h[i][j].revealed)
        && (g0[i][j].flagged ==> h[i][j].revealed == g0[i][j].revealed))
      && (forall i, j :: NewlyRevealed(g0, h, i, j) ==> i == r && j == c)
      && (SameNumbers(g0, g) ==> SameNumbers(g0, h))
  {
  }

  /**
   * A fill from (r, c) over g, whose looks are those of g0, keeps g0's flags,
   * opens no flagged cell, and is complete and reached when measured from g0.
   */
  lemma {:induction false} FillLooks(g0: Grid, g: Grid, h: Grid, r: int, c: int)
    requires SameLooks(g0, g) && Grows(g, h) && InBounds(r, c)
    requires Complete(g, h, false, r, c) && Reached(g, h, r, c)
    requires !Stops(g, r, c) && g[r][c].count != 0 ==> h == Put(g, r, c, g[r][c].(revealed := true))
    ensures forall i, j :: InBounds(i, j) ==>
      && h[i][j].flagged == g0[i][j].flagged
      && (g0[i][j].revealed ==> h[i][j].revealed)
      && (g0[i][j].flagged ==> h[i][j].revealed == g0[i][j].revealed)
    ensures Complete(g0, h, false, r, c) && Reached(g0, h, r, c)
    ensures SameNumbers(g0, g) ==> SameNumbers(g0, h)
    ensures !Stops(g, r, c) && h[r][c].count != 0 ==>
      forall i, j :: NewlyRevealed(g0, h, i, j) ==> i == r && j == c
  {
    assert forall a, b :: NewlyRevealed(g0, h, a, b) == NewlyRevealed(g, h, a, b);
    var rank :| Linked(g, h, rank, r, c, false);
    assert Linked(g0, h, rank, r, c, false);
  }

  /** Same mines and numbers everywhere. */
  ghost predicate SameNumbers(g: Grid, h: Grid) {
    ValidGrid(g) && ValidGrid(h) &&
    forall i, j :: InBounds(i, j) ==> h[i][j].mine == g[i][j].mine && h[i][j].count == g[i][j].count
  }

  /** Same revealed cells and flags everywhere. */
  ghost predicate SameLooks(g: Grid, h: Grid) {
    ValidGrid(g) && ValidGrid(h) &&
    forall i, j :: InBounds(i, j) ==> h[i][j].revealed == g[i][j].revealed && h[i][j].flagged == g[i][j].flagged
  }

  lemma SameLooksReflexive(g: Grid)
    requires ValidGrid(g)
    ensures SameLooks(g, g)
  {
  }

  lemma {:induction false} SameLooksNewly(g0: Grid, g: Grid, h: Grid)
    requires SameLooks(g0, g) && ValidGrid(h) && NoMineRevealed(g, h)
    ensures NoMineRevealed(g0, h)
  {
    forall a, b | NewlyRevealed(g0, h, a, b)
      ensures !h[a][b].mine
    {
      assert NewlyRevealed(g, h, a, b);
    }
  }

  lemma {:induction false} CountsRightKept(g: Grid, h: Grid)
    requires ValidGrid(g) && ValidGrid(h) && CountsRight(g)
    requires forall i, j :: InBounds(i, j) ==> h[i][j].mine == g[i][j].mine && h[i][j].count == g[i][j].count
    ensures CountsRight(h)
  {
    assert SameMines(g, h);
    forall i, j | InBounds(i, j) && !h[i][j].mine
      ensures h[i][j].count == Around(h, i, j)
    {
      SameMinesSameAround(g, h, i, j);
    }
  }

  lemma {:induction false} MinesOfSame(g: Grid, h: Grid)
    requires ValidGrid(g) && ValidGrid(h) && SameMines(g, h)
    ensures Mines(g) == Mines(h)
  {
    forall p | p in Mines(g)
      ensures p in Mines(h)
    {
      assert h[p.0][p.1].mine;
    }
  }

  /** What the first reveal's placement and numbering leave behind. */
  lemma {:induction false} FirstClickFacts(g0: Grid, armed: Grid, g: Grid, r: int, c: int,
                                           draws: seq<(int, int)>, placed: nat)
    requires ValidGrid(g0) && ValidGrid(armed) && InBounds(r, c) && DrawsInRange(draws)
    requires OnlyMinesDiffer(g0, armed)
    requires |Mines(armed)| == |Mines(g0)| + placed && placed <= MineTotal
    requires ArmedFrom(g0, armed, r, c, draws)
    requires placed < MineTotal ==> DrawsArmed(armed, r, c, draws)
    requires g == Numbered(armed)
    ensures ValidGrid(g) && CountsRight(g) && SameLooks(g0, g)
    ensures Mines(g0) == {} ==>
      && !g[r][c].mine && |Mines(g)| <= MineTotal
      && ArmedFrom(g0, g, r, c, draws)
      && (|Mines(g)| < MineTotal ==> DrawsArmed(g, r, c, draws))
  {
    NumberedCountsRight(armed);
    MinesOfSame(armed, g);
    if Mines(g0) == {} {
      assert (r, c) !in Mines(g0);
      assert InSafeZone((r, c), r, c);
    }
  }

  lemma {:induction false} ArmedTransfer(g0: Grid, g: Grid, h: Grid, r: int, c: int, draws: seq<(int, int)>)
    requires ValidGrid(g0) && DrawsInRange(draws) && Grows(g, h)
    ensures Mines(g) == Mines(h)
    ensures ArmedFrom(g0, g, r, c, draws) ==> ArmedFrom(g0, h, r, c, draws)
    ensures DrawsArmed(g, r, c, draws) ==> DrawsArmed(h, r, c, draws)
  {
    GrowsKeeps(g, h);
    MinesOfSame(g, h);
  }

  /**
   * `toggleFlag(r, c)`: flips the flag of a hidden cell while the game runs;
   * a revealed cell or a finished game is left alone.
   */
  function ToggleFlag(s: Game, r: int, c: int): (t: Game)
    requires ValidGrid(s.grid) && InBounds(r, c)
    ensures ValidGrid(t.grid)
    ensures s.gameOver || s.win || s.grid[r][c].revealed ==> t == s
    ensures !(s.gameOver || s.win || s.grid[r][c].revealed) ==>
      && t == s.(grid := t.grid)
      && t.grid[r][c] == s.grid[r][c].(flagged := !s.grid[r][c].flagged)
      && forall i, j :: InBounds(i, j) && (i != r || j != c) ==> t.grid[i][j] == s.grid[i][j]
  {
    if s.gameOver || s.win || s.grid[r][c].revealed then s
    else s.(grid := Put(s.grid, r, c, s.grid[r][c].(flagged := !s.grid[r][c].flagged)))
  }

  /** Flagging a cell twice restores the game; a flag keeps the game consistent. */
  lemma {:induction false} ToggleFlagTwice(s: Game, r: int, c: int)
    requires ValidGrid(s.grid) && InBounds(r, c)
    ensures ToggleFlag(ToggleFlag(s, r, c), r, c) == s
    ensures Consistent(s) ==> Consistent(ToggleFlag(s, r, c))
  {
    var t := ToggleFlag(s, r, c);
    if !(s.gameOver || s.win || s.grid[r][c].revealed) {
      var u := ToggleFlag(t, r, c);
      assert forall i :: 0 <= i < Rows ==> u.grid[i] == s.grid[i];
      if Consistent(s) {
        assert SameMines(s.grid, t.grid);
        if s.firstClick {
          assert Mines(t.grid) == Mines(s.grid) by {
            assert forall p :: p in Mines(t.grid) <==> p in Mines(s.grid);
          }
        } else {
          forall i, j | InBounds(i, j) && !t.grid[i][j].mine
            ensures t.grid[i][j].count == Around(t.grid, i, j)
          {
            SameMinesSameAround(s.grid, t.grid, i, j);
          }
        }
      }
    }
  }
}

/**
 * The Snake engine: one tick of movement on a 20 x 20 grid (wall and self
 * collision, growth on food), the arrow-key direction guard, and reset.
 *
 * The snake is a sequence of cells, head first. The direction the next tick
 * will use (`dir`) and the direction the last tick actually moved in
 * (`heading`) are kept apart: the key guard compares a new key with
 * `heading`, so that two quick key presses between ticks cannot turn the
 * snake back onto its own neck (see `PressAsWritten` and
 * `DoublePressReversesAsWritten` for the guard that compares with `dir`).
 * Random food placement is a caller-supplied cell accepted by the same filter
 * the rejection loop applies.
 */
module Snake {

  const GridSize := 20

  datatype Point = Point(x: int, y: int)

  datatype Key = Up | Down | Left | Right | OtherKey

  datatype State = State(
    snake: seq<Point>,   // head first
    food: Point,
    score: nat,
    gameOver: bool,
    paused: bool,
    dir: Point,          // direction the next tick uses
    heading: Point)      // direction of the last move the snake made

  predicate InGrid(p: Point) {
    0 <= p.x < GridSize && 0 <= p.y < GridSize
  }

  function Add(p: Point, d: Point): Point {
    Point(p.x + d.x, p.y + d.y)
  }

  function Opposite(d: Point): Point {
    Point(-d.x, -d.y)
  }

  /** The four unit steps a key can select. */
  predicate IsStep(d: Point) {
    d == Point(0, -1) || d == Point(0, 1) || d == Point(-1, 0) || d == Point(1, 0)
  }

  predicate Distinct(s: seq<Point>) {
    forall i, j :: 0 <= i < j < |s| ==> s[i] != s[j]
  }

  predicate AllInGrid(s: seq<Point>) {
    forall i :: 0 <= i < |s| ==> InGrid(s[i])
  }

  /** The cells the food rejection loop accepts: on the grid, off the snake. */
  predicate FoodChoice(snake: seq<Point>, f: Point) {
    InGrid(f) && f !in snake
  }

  function InitialSnake(): seq<Point> {
    [Point(10, 10), Point(9, 10), Point(8, 10), Point(7, 10)]
  }

  /** The state the component mounts with: paused, moving right. */
  function Initial(): State {
    State(InitialSnake(), Point(15, 15), 0, false, true, Point(1, 0), Point(1, 0))
  }

  /**
   * The shape of the snake in every state the component reaches, with either
   * key guard: a non-empty snake of distinct cells on the grid, unit steps for
   * both directions, and the neck one `heading` step behind the head.
   */
  predicate Shape(s: State) {
    && |s.snake| >= 1
    && AllInGrid(s.snake)
    && Distinct(s.snake)
    && IsStep(s.dir)
    && IsStep(s.heading)
    && (|s.snake| >= 2 ==> s.snake[0] == Add(s.snake[1], s.heading))
  }

  /**
   * What every state reachable with the corrected key guard satisfies: the
   * shape above, and a queued direction that does not reverse the last move.
   */
  predicate Valid(s: State) {
    Shape(s) && s.dir != Opposite(s.heading)
  }

  function NextHead(s: State): Point
    requires |s.snake| >= 1
  {
    Add(s.snake[0], s.dir)
  }

  /** The tick moves the snake at all (not paused, not over, a direction set). */
  predicate Active(s: State) {
    !s.gameOver && !s.paused && s.dir != Point(0, 0)
  }

  /** The new head leaves the grid or lands on a segment, the tail included. */
  predicate Collides(s: State)
    requires |s.snake| >= 1
  {
    !InGrid(NextHead(s)) || NextHead(s) in s.snake
  }

  predicate Eats(s: State)
    requires |s.snake| >= 1
  {
    Active(s) && !Collides(s) && NextHead(s) == s.food
  }

  /**
   * One tick of `moveSnake`. `f` is the cell the food loop settles on when the
   * snake eats; the loop's filter tests it against the snake before the move.
   * The score rises by one exactly when the snake grows by one; a tick that
   * ends the game leaves the snake where it was.
   */
  function Tick(s: State, f: Point): (r: State)
    requires |s.snake| >= 1
    requires Eats(s) ==> FoodChoice(s.snake, f)
    ensures |r.snake| >= 1
    ensures r.score == s.score || r.score == s.score + 1
    ensures |r.snake| == |s.snake| + (r.score - s.score)
    ensures r.gameOver ==> r.snake == s.snake
  {
    if !Active(s) then s
    else if Collides(s) then s.(gameOver := true)
    else
      var grown := [NextHead(s)] + s.snake;
      if NextHead(s) == s.food then
        s.(snake := grown, score := s.score + 1, food := f, heading := s.dir)
      else
        s.(snake := grown[..|grown| - 1], heading := s.dir)
  }

  /** `resetGame`: the initial snake, moving right, unpaused, with fresh food. */
  function Reset(s: State, f: Point): (r: State)
    requires FoodChoice(s.snake, f)
    ensures Valid(r) && !r.paused && !r.gameOver && r.score == 0
    ensures InGrid(r.food)
    ensures r.snake == InitialSnake() && r.food == f
    ensures r.dir == Point(1, 0) && r.heading == Point(1, 0)
  {
    State(InitialSnake(), f, 0, false, false, Point(1, 0), Point(1, 0))
  }

  /**
   * `handleKey` as the component writes it: each arrow key checks the queued
   * direction `dir`, not the direction of the last move.
   */
  function PressAsWritten(s: State, k: Key): (r: State)
    ensures r == s.(dir := r.dir, paused := r.paused)
    ensures k != OtherKey ==> !r.paused
    ensures k == OtherKey ==> r == s
  {
    match k
    case Up => s.(dir := if s.dir.y != 1 then Point(0, -1) else s.dir, paused := false)
    case Down => s.(dir := if s.dir.y != -1 then Point(0, 1) else s.dir, paused := false)
    case Left => s.(dir := if s.dir.x != 1 then Point(-1, 0) else s.dir, paused := false)
    case Right => s.(dir := if s.dir.x != -1 then Point(1, 0) else s.dir, paused := false)
    case OtherKey => s
  }

  /**
   * The key guard with the reversal test made against the last move. A key
   * that would reverse the last move is ignored; every arrow key unpauses.
   */
  function Press(s: State, k: Key): (r: State)
    ensures r == s.(dir := r.dir, paused := r.paused)
    ensures k != OtherKey ==> !r.paused
    ensures k == OtherKey ==> r == s
  {
    match k
    case Up => s.(dir := if s.heading.y != 1 then Point(0, -1) else s.dir, paused := false)
    case Down => s.(dir := if s.heading.y != -1 then Point(0, 1) else s.dir, paused := false)
    case Left => s.(dir := if s.heading.x != 1 then Point(-1, 0) else s.dir, paused := false)
    case Right => s.(dir := if s.heading.x != -1 then Point(1, 0) else s.dir, paused := false)
    case OtherKey => s
  }

  /** The step an arrow key asks for. */
  function KeyStep(k: Key): Point {
    match k
    case Up => Point(0, -1)
    case Down => Point(0, 1)
    case Left => Point(-1, 0)
    case Right => Point(1, 0)
    case OtherKey => Point(0, 0)
  }

  function PressAll(s: State, keys: seq<Key>): State
    decreases |keys|
  {
    if |keys| == 0 then s else PressAll(Press(s, keys[0]), keys[1..])
  }

  // ---------------------------------------------------------------------
  // Properties of a tick
  // ---------------------------------------------------------------------

  /** A paused or finished game does not move. */
  lemma InactiveTickIsNoOp(s: State, f: Point)
    requires |s.snake| >= 1
    requires s.gameOver || s.paused
    ensures Tick(s, f) == s
  {
  }

  /** Hitting a wall or a segment ends the game and leaves everything else alone. */
  lemma CollisionEndsGame(s: State, f: Point)
    requires |s.snake| >= 1 && Active(s) && Collides(s)
    ensures Tick(s, f) == s.(gameOver := true)
  {
  }

  /** Reaching the food grows the snake by its new head and scores one. */
  lemma EatingGrows(s: State, f: Point)
    requires |s.snake| >= 1 && Eats(s) && FoodChoice(s.snake, f)
    ensures Tick(s, f).snake == [NextHead(s)] + s.snake
    ensures Tick(s, f).score == s.score + 1 && Tick(s, f).food == f
    ensures !Tick(s, f).gameOver
  {
  }

  /** Any other move shifts the snake one cell: new head in, last cell out. */
  lemma PlainMoveShifts(s: State, f: Point)
    requires |s.snake| >= 1 && Active(s) && !Collides(s) && !Eats(s)
    ensures Tick(s, f).snake == [NextHead(s)] + s.snake[..|s.snake| - 1]
    ensures |Tick(s, f).snake| == |s.snake| && Tick(s, f).score == s.score
  {
  }

  lemma {:induction false} DistinctCons(h: Point, body: seq<Point>)
    requires Distinct(body) && h !in body
    ensures Distinct([h] + body)
  {
    var t := [h] + body;
    forall i, j | 0 <= i < j < |t|
      ensures t[i] != t[j]
    {
      if i == 0 {
        assert t[j] == body[j - 1];
      } else {
        assert t[i] == body[i - 1] && t[j] == body[j - 1];
      }
    }
  }

  lemma {:induction false} DistinctPrefix(s: seq<Point>, n: nat)
    requires Distinct(s) && n <= |s|
    ensures Distinct(s[..n])
  {
    forall i, j | 0 <= i < j < n
      ensures s[..n][i] != s[..n][j]
    {
      assert s[..n][i] == s[i] && s[..n][j] == s[j];
    }
  }

  /** A state whose snake just moved one step in `dir` is valid. */
  lemma MovedIsValid(r: State)
    requires IsStep(r.dir) && r.heading == r.dir
    requires |r.snake| >= 1 && AllInGrid(r.snake) && Distinct(r.snake)
    requires |r.snake| >= 2 ==> r.snake[0] == Add(r.snake[1], r.dir)
    ensures Valid(r)
  {
  }

  lemma {:induction false} GrownFacts(s: State, body: seq<Point>)
    requires Shape(s) && Active(s) && !Collides(s)
    requires body == [NextHead(s)] + s.snake
    ensures AllInGrid(body) && Distinct(body)
    ensures body[0] == Add(body[1], s.dir)
  {
    DistinctCons(NextHead(s), s.snake);
    forall i | 0 <= i < |body|
      ensures InGrid(body[i])
    {
      if i > 0 { assert body[i] == s.snake[i - 1]; }
    }
  }

  lemma {:induction false} PrefixFacts(body: seq<Point>, n: nat)
    requires AllInGrid(body) && Distinct(body) && 1 <= n <= |body|
    ensures AllInGrid(body[..n]) && Distinct(body[..n])
    ensures body[..n][0] == body[0]
    ensures n >= 2 ==> body[..n][1] == body[1]
  {
    DistinctPrefix(body, n);
    forall i | 0 <= i < n
      ensures InGrid(body[..n][i])
    {
      assert body[..n][i] == body[i];
    }
  }

  /** A tick of a valid game yields a valid game. */
  lemma {:induction false} TickKeepsValid(s: State, f: Point)
    requires Valid(s)
    requires Eats(s) ==> FoodChoice(s.snake, f)
    ensures Valid(Tick(s, f))
  {
    if Active(s) && !Collides(s) {
      var grown := [NextHead(s)] + s.snake;
      GrownFacts(s, grown);
      var r := Tick(s, f);
      if NextHead(s) == s.food {
        assert r == s.(snake := grown, score := s.score + 1, food := f, heading := s.dir);
        MovedIsValid(r);
      } else {
        PrefixFacts(grown, |grown| - 1);
        assert r == s.(snake := grown[..|grown| - 1], heading := s.dir);
        MovedIsValid(r);
      }
    }
  }

  /**
   * A tick keeps the snake's shape from any state of that shape, including one
   * whose queued direction reverses the last move (which the guard as written
   * lets through): that move hits the neck and ends the game.
   */
  lemma {:induction false} TickKeepsShape(s: State, f: Point)
    requires Shape(s)
    requires Eats(s) ==> FoodChoice(s.snake, f)
    ensures Shape(Tick(s, f))
  {
    if Active(s) && !Collides(s) {
      var grown := [NextHead(s)] + s.snake;
      GrownFacts(s, grown);
      var r := Tick(s, f);
      if NextHead(s) == s.food {
        assert r == s.(snake := grown, score := s.score + 1, food := f, heading := s.dir);
      } else {
        PrefixFacts(grown, |grown| - 1);
        assert r == s.(snake := grown[..|grown| - 1], heading := s.dir);
      }
    }
  }

  /** With the guard as written, a reversing move runs into the neck and ends the game in place. */
  lemma {:induction false} ReversedTickEndsGame(s: State, f: Point)
    requires Shape(s) && |s.snake| >= 2 && Active(s) && s.dir == Opposite(s.heading)
    ensures NextHead(s) == s.snake[1]
    ensures Tick(s, f) == s.(gameOver := true)
  {
    assert s.snake[1] in s.snake;
  }

  lemma StepsDoNotCancel(a: Point, b: Point, d: Point, h: Point)
    requires IsStep(d) && IsStep(h) && d != Opposite(h) && a == Add(b, h)
    ensures Add(a, d) != b
  {
  }

  /**
   * The neck is never hit: in a valid state the next head differs from the
   * cell right behind the current head, because the direction never reverses
   * the last move.
   */
  lemma {:induction false} NeverIntoNeck(s: State)
    requires Valid(s) && |s.snake| >= 2
    ensures NextHead(s) != s.snake[1]
  {
    StepsDoNotCancel(s.snake[0], s.snake[1], s.dir, s.heading);
  }

  // ---------------------------------------------------------------------
  // Properties of the key guard
  // ---------------------------------------------------------------------

  /** A key that reverses the last move leaves the direction alone. */
  lemma {:induction false} ReversingKeyIgnored(s: State, k: Key)
    requires KeyStep(k) == Opposite(s.heading)
    ensures Press(s, k).dir == s.dir
  {
  }

  /** The guard as written ignores a key that reverses the queued direction. */
  lemma {:induction false} ReversingKeyIgnoredAsWritten(s: State, k: Key)
    requires KeyStep(k) == Opposite(s.dir)
    ensures PressAsWritten(s, k).dir == s.dir
  {
  }

  /** Any key press keeps a valid state valid. */
  lemma {:induction false} PressKeepsValid(s: State, k: Key)
    requires Valid(s)
    ensures Valid(Press(s, k))
  {
  }

  /** A key press handled as written keeps the snake's shape. */
  lemma {:induction false} PressAsWrittenKeepsShape(s: State, k: Key)
    requires Shape(s)
    ensures Shape(PressAsWritten(s, k))
  {
  }

  /** However many keys arrive between two ticks, the state stays valid. */
  lemma {:induction false} PressAllKeepsValid(s: State, keys: seq<Key>)
    requires Valid(s)
    ensures Valid(PressAll(s, keys))
    ensures PressAll(s, keys).snake == s.snake
    decreases |keys|
  {
    if |keys| > 0 {
      PressKeepsValid(s, keys[0]);
      PressAllKeepsValid(Press(s, keys[0]), keys[1..]);
    }
  }

  /** The mount state is valid. */
  lemma InitialValid()
    ensures Valid(Initial()) && |Initial().snake| == 4
  {
    var s := InitialSnake();
    assert Distinct(s) by {
      forall i, j | 0 <= i < j < |s|
        ensures s[i] != s[j]
      {
        assert s[i].x == 10 - i && s[j].x == 10 - j;
      }
    }
  }

  // ---------------------------------------------------------------------
  // The guard as written
  // ---------------------------------------------------------------------

  /**
   * With the guard as written, moving right and pressing Up then Left before
   * the next tick turns the snake onto its own neck and ends the game.
   */
  lemma DoublePressReversesAsWritten()
    ensures var s := Initial().(paused := false);
            var t := PressAsWritten(PressAsWritten(s, Up), Left);
            t.dir == Opposite(s.dir) && Tick(t, Point(0, 0)).gameOver
  {
    var s := Initial().(paused := false);
    var t := PressAsWritten(PressAsWritten(s, Up), Left);
    assert t.dir == Point(-1, 0);
    assert NextHead(t) == t.snake[1];
  }

  /** The same two presses with the corrected guard keep the game running. */
  lemma DoublePressIsSafe()
    ensures var s := Initial().(paused := false);
            var t := Press(Press(s, Up), Left);
            t.dir == Point(0, -1) && !Tick(t, Point(0, 0)).gameOver
  {
    var s := Initial().(paused := false);
    var t := Press(Press(s, Up), Left);
    assert t.dir == Point(0, -1);
    assert NextHead(t) == Point(10, 9);
    assert NextHead(t) !in t.snake;
  }
}

/**
 * The Checkers engine on an 8 x 8 board: the initial layout, the moves of a
 * piece (forward-only steps for men, captures in all four diagonals for
 * every piece), and a click, which selects a piece of the side to move or
 * carries out one of the selected piece's moves, with capture, promotion on
 * the far row and the forced multi-jump.
 *
 * The board is a value; the promotion that the component writes into a
 * piece object shared with the previous board is modelled as the moved piece
 * becoming a king on the new board.
 */
module Checkers {
  import opened Wrappers

  const N := 8

  datatype Player = Red | White

  datatype Piece = Piece(player: Player, king: bool)

  datatype Pos = Pos(r: int, c: int)

  /** A simple step to `to`, or a capture landing on `to` over the piece on `over`. */
  datatype Move = Step(to: Pos) | Jump(to: Pos, over: Pos)

  type Board = seq<seq<Option<Piece>>>

  datatype State = State(
    board: Board,
    turn: Player,
    selected: Option<Pos>,
    moves: seq<Move>,            // the highlighted moves of the selected piece
    mustCapture: Option<Pos>)    // the piece that is in the middle of a multi-jump

  predicate ValidBoard(b: Board) {
    |b| == N && forall r :: 0 <= r < |b| ==> |b[r]| == N
  }

  predicate OnBoard(p: Pos) {
    0 <= p.r < N && 0 <= p.c < N
  }

  function At(b: Board, p: Pos): Option<Piece>
    requires ValidBoard(b) && OnBoard(p)
  {
    b[p.r][p.c]
  }

  /** The board with square p holding x and every other square as before. */
  function Put(b: Board, p: Pos, x: Option<Piece>): (b': Board)
    requires ValidBoard(b) && OnBoard(p)
    ensures ValidBoard(b')
    ensures forall q :: OnBoard(q) ==> At(b', q) == if q == p then x else At(b, q)
  {
    b[p.r := b[p.r][p.c := x]]
  }

  function Other(p: Player): Player {
    if p == Red then White else Red
  }

  function Add(p: Pos, d: Pos): Pos {
    Pos(p.r + d.r, p.c + d.c)
  }

  /** Red moves toward row 0, white toward row 7. */
  function Ahead(p: Player): int {
    if p == Red then -1 else 1
  }

  /** The row on which a man of this side is crowned. */
  function FarRow(p: Player): int {
    if p == Red then 0 else N - 1
  }

  const Diagonals: seq<Pos> := [Pos(-1, -1), Pos(-1, 1), Pos(1, -1), Pos(1, 1)]

  /** The directions a piece may step in: all four for a king, forward for a man. */
  function StepDirs(pc: Piece): seq<Pos> {
    if pc.king then Diagonals
    else if pc.player == Red then [Pos(-1, -1), Pos(-1, 1)]
    else [Pos(1, -1), Pos(1, 1)]
  }

  // ---------------------------------------------------------------------
  // The initial layout
  // ---------------------------------------------------------------------

  /** What `initGame` puts on square (r, c): men on the dark squares of the
      three rows on each side, white on rows 0 to 2 and red on rows 5 to 7. */
  function StartSquare(r: int, c: int): Option<Piece> {
    if (r + c) % 2 == 1 && r < 3 then Some(Piece(White, false))
    else if (r + c) % 2 == 1 && r > 4 then Some(Piece(Red, false))
    else None
  }

  function StartBoard(): (b: Board)
    ensures ValidBoard(b)
  {
    seq(N, r => seq(N, c => StartSquare(r, c)))
  }

  /** The nested loops of `initGame` fill the board with the start layout. */
  method InitBoard() returns (b: Board)
    ensures b == StartBoard()
  {
    b := seq(N, _ => seq(N, _ => None));
    var r := 0;
    while r < N
      invariant 0 <= r <= N && ValidBoard(b)
      invariant forall i, j :: 0 <= i < N && 0 <= j < N ==>
        b[i][j] == if i < r then StartSquare(i, j) else None
    {
      var c := 0;
      while c < N
        invariant 0 <= c <= N && ValidBoard(b)
        invariant forall i, j :: 0 <= i < N && 0 <= j < N ==>
          b[i][j] == if i < r || (i == r && j < c) then StartSquare(i, j) else None
      {
        if (r + c) % 2 == 1 {
          if r < 3 {
            b := Put(b, Pos(r, c), Some(Piece(White, false)));
          } else if r > 4 {
            b := Put(b, Pos(r, c), Some(Piece(Red, false)));
          }
        }
        c := c + 1;
      }
      r := r + 1;
    }
    assert forall i :: 0 <= i < N ==> b[i] == StartBoard()[i];
  }

  function InitState(): State {
    State(StartBoard(), Red, None, [], None)
  }

  /** The squares holding a piece of player p. */
  function Pieces(b: Board, p: Player): set<Pos>
    requires ValidBoard(b)
  {
    set r, c | 0 <= r < N && 0 <= c < N && b[r][c].Some? && b[r][c].value.player == p :: Pos(r, c)
  }

  /** The start layout has pieces only on dark squares, none in rows 3 and 4, and no kings. */
  lemma {:induction false} StartLayout(p: Pos)
    requires OnBoard(p)
    ensures At(StartBoard(), p).Some? ==> (p.r + p.c) % 2 == 1 && !At(StartBoard(), p).value.king
    ensures At(StartBoard(), p).Some? <==> (p.r + p.c) % 2 == 1 && (p.r < 3 || p.r > 4)
    ensures At(StartBoard(), p).Some? ==> (At(StartBoard(), p).value.player == White <==> p.r < 3)
  {
    assert At(StartBoard(), p) == StartSquare(p.r, p.c);
  }

  // ---------------------------------------------------------------------
  // getValidMoves
  // ---------------------------------------------------------------------

  predicate Empty(b: Board, p: Pos)
    requires ValidBoard(b)
  {
    OnBoard(p) && At(b, p).None?
  }

  /** The step moves of a piece on `from` along `dirs`, in that order. */
  function Steps(b: Board, from: Pos, dirs: seq<Pos>): seq<Move>
    requires ValidBoard(b)
  {
    if dirs == [] then []
    else
      var to := Add(from, dirs[0]);
      (if Empty(b, to) then [Step(to)] else []) + Steps(b, from, dirs[1..])
  }

  /** Square `over` holds a piece of the other side. */
  predicate Enemy(b: Board, over: Pos, p: Player)
    requires ValidBoard(b)
  {
    OnBoard(over) && At(b, over).Some? && At(b, over).value.player != p
  }

  /** The captures of a piece of player p on `from` along `dirs`, in that order. */
  function Jumps(b: Board, from: Pos, p: Player, dirs: seq<Pos>): seq<Move>
    requires ValidBoard(b)
  {
    if dirs == [] then []
    else
      var over := Add(from, dirs[0]);
      var to := Add(over, dirs[0]);
      (if Empty(b, to) && Enemy(b, over, p) then [Jump(to, over)] else []) + Jumps(b, from, p, dirs[1..])
  }

  function Captures(b: Board, from: Pos, pc: Piece): seq<Move>
    requires ValidBoard(b)
  {
    Jumps(b, from, pc.player, Diagonals)
  }

  /**
   * `getValidMoves`: the steps (left out while a multi-jump is under way),
   * then the captures in all four diagonals.
   */
  function ValidMoves(b: Board, from: Pos, pc: Piece, inJump: bool): (ms: seq<Move>)
    requires ValidBoard(b)
    ensures inJump ==> forall k :: 0 <= k < |ms| ==> ms[k].Jump?
    ensures forall m :: m in Captures(b, from, pc) ==> m in ms
  {
    JumpsAreJumps(b, from, pc.player, Diagonals);
    (if inJump then [] else Steps(b, from, StepDirs(pc))) + Captures(b, from, pc)
  }

  lemma {:induction false} StepsIff(b: Board, from: Pos, dirs: seq<Pos>, m: Move)
    requires ValidBoard(b)
    ensures m in Steps(b, from, dirs) <==>
      m.Step? && Empty(b, m.to) && exists k :: 0 <= k < |dirs| && m.to == Add(from, dirs[k])
    decreases |dirs|
  {
    if dirs != [] {
      StepsIff(b, from, dirs[1..], m);
      if m.Step? && m.to != Add(from, dirs[0]) && exists k :: 0 <= k < |dirs| && m.to == Add(from, dirs[k]) {
        var k :| 0 <= k < |dirs| && m.to == Add(from, dirs[k]);
        assert dirs[1..][k - 1] == dirs[k];
      }
      if exists k :: 0 <= k < |dirs| - 1 && m.to == Add(from, dirs[1..][k]) {
        var k :| 0 <= k < |dirs| - 1 && m.to == Add(from, dirs[1..][k]);
        assert dirs[k + 1] == dirs[1..][k];
      }
    }
  }

  lemma {:induction false} JumpsIff(b: Board, from: Pos, p: Player, dirs: seq<Pos>, m: Move)
    requires ValidBoard(b)
    ensures m in Jumps(b, from, p, dirs) <==>
      m.Jump? && Empty(b, m.to) && Enemy(b, m.over, p) &&
      exists k :: 0 <= k < |dirs| && m.over == Add(from, dirs[k]) && m.to == Add(m.over, dirs[k])
    decreases |dirs|
  {
    if dirs != [] {
      JumpsIff(b, from, p, dirs[1..], m);
      if m.Jump? && m.over != Add(from, dirs[0]) &&
         exists k :: 0 <= k < |dirs| && m.over == Add(from, dirs[k]) && m.to == Add(m.over, dirs[k]) {
        var k :| 0 <= k < |dirs| && m.over == Add(from, dirs[k]) && m.to == Add(m.over, dirs[k]);
        assert dirs[1..][k - 1] == dirs[k];
      }
      if m.Jump? && exists k :: 0 <= k < |dirs| - 1 && m.over == Add(from, dirs[1..][k]) && m.to == Add(m.over, dirs[1..][k]) {
        var k :| 0 <= k < |dirs| - 1 && m.over == Add(from, dirs[1..][k]) && m.to == Add(m.over, dirs[1..][k]);
        assert dirs[k + 1] == dirs[1..][k];
      }
    }
  }

  predicate IsDiagonal(d: Pos) {
    (d.r == 1 || d.r == -1) && (d.c == 1 || d.c == -1)
  }

  /**
   * A step goes to an empty diagonal neighbour; a man only steps forward.
   * Every such square is offered unless a multi-jump is under way.
   */
  lemma {:induction false} StepMoves(b: Board, from: Pos, pc: Piece, inJump: bool, to: Pos)
    requires ValidBoard(b)
    ensures Step(to) in ValidMoves(b, from, pc, inJump) <==>
      && !inJump && Empty(b, to)
      && IsDiagonal(Pos(to.r - from.r, to.c - from.c))
      && (!pc.king ==> to.r - from.r == Ahead(pc.player))
  {
    StepsIff(b, from, StepDirs(pc), Step(to));
    JumpsIff(b, from, pc.player, Diagonals, Step(to));
    var d := Pos(to.r - from.r, to.c - from.c);
    var dirs := StepDirs(pc);
    if !inJump && Empty(b, to) && IsDiagonal(d) && (!pc.king ==> d.r == Ahead(pc.player)) {
      assert to == Add(from, d);
      if pc.king {
        assert d == dirs[0] || d == dirs[1] || d == dirs[2] || d == dirs[3];
      } else {
        assert d == dirs[0] || d == dirs[1];
      }
    }
  }

  /**
   * A capture jumps diagonally over an adjacent piece of the other side onto
   * the empty square beyond; every piece, man or king, may capture in all
   * four diagonals, and every such capture is offered.
   */
  lemma {:induction false} JumpMoves(b: Board, from: Pos, pc: Piece, inJump: bool, to: Pos, over: Pos)
    requires ValidBoard(b)
    ensures Jump(to, over) in ValidMoves(b, from, pc, inJump) <==>
      && Empty(b, to) && Enemy(b, over, pc.player)
      && IsDiagonal(Pos(over.r - from.r, over.c - from.c))
      && to == Add(over, Pos(over.r - from.r, over.c - from.c))
  {
    StepsIff(b, from, StepDirs(pc), Jump(to, over));
    JumpsIff(b, from, pc.player, Diagonals, Jump(to, over));
    var d := Pos(over.r - from.r, over.c - from.c);
    if Empty(b, to) && Enemy(b, over, pc.player) && IsDiagonal(d) && to == Add(over, d) {
      assert over == Add(from, d);
      assert d == Diagonals[0] || d == Diagonals[1] || d == Diagonals[2] || d == Diagonals[3];
    }
  }

  /** Keeping only the captures of the valid moves leaves exactly the capture list. */
  function CapturesOnly(ms: seq<Move>): (r: seq<Move>)
    ensures forall m :: m in r <==> m in ms && m.Jump?
  {
    if ms == [] then [] else (if ms[0].Jump? then [ms[0]] else []) + CapturesOnly(ms[1..])
  }

  lemma {:induction false} StepsHaveNoJump(b: Board, from: Pos, dirs: seq<Pos>)
    requires ValidBoard(b)
    ensures CapturesOnly(Steps(b, from, dirs)) == []
    decreases |dirs|
  {
    if dirs != [] {
      StepsHaveNoJump(b, from, dirs[1..]);
      var to := Add(from, dirs[0]);
      var head := if Empty(b, to) then [Step(to)] else [];
      CapturesOnlyAppend(head, Steps(b, from, dirs[1..]));
    }
  }

  lemma {:induction false} JumpsAreJumps(b: Board, from: Pos, p: Player, dirs: seq<Pos>)
    requires ValidBoard(b)
    ensures CapturesOnly(Jumps(b, from, p, dirs)) == Jumps(b, from, p, dirs)
    decreases |dirs|
  {
    if dirs != [] {
      JumpsAreJumps(b, from, p, dirs[1..]);
      var over := Add(from, dirs[0]);
      var to := Add(over, dirs[0]);
      var head := if Empty(b, to) && Enemy(b, over, p) then [Jump(to, over)] else [];
      CapturesOnlyAppend(head, Jumps(b, from, p, dirs[1..]));
    }
  }

  lemma {:induction false} CapturesOnlyAppend(xs: seq<Move>, ys: seq<Move>)
    ensures CapturesOnly(xs + ys) == CapturesOnly(xs) + CapturesOnly(ys)
    decreases |xs|
  {
    if xs != [] {
      assert (xs + ys)[0] == xs[0] && (xs + ys)[1..] == xs[1..] + ys;
      CapturesOnlyAppend(xs[1..], ys);
    } else {
      assert xs + ys == ys;
    }
  }

  /** Filtering the valid moves for captures gives the captures, in order. */
  lemma {:induction false} CapturesOfValidMoves(b: Board, from: Pos, pc: Piece, inJump: bool)
    requires ValidBoard(b)
    ensures CapturesOnly(ValidMoves(b, from, pc, inJump)) == Captures(b, from, pc)
  {
    var steps := if inJump then [] else Steps(b, from, StepDirs(pc));
    CapturesOnlyAppend(steps, Captures(b, from, pc));
    StepsHaveNoJump(b, from, StepDirs(pc));
    JumpsAreJumps(b, from, pc.player, Diagonals);
  }

  // ---------------------------------------------------------------------
  // handleClick
  // ---------------------------------------------------------------------

  /** `validMoves.find`: the first highlighted move that lands on q. */
  function FindMove(ms: seq<Move>, q: Pos): (r: Option<Move>)
    ensures r.Some? ==> r.value in ms && r.value.to == q
    ensures r.None? ==> forall m :: m in ms ==> m.to != q
  {
    if ms == [] then None
    else if ms[0].to == q then Some(ms[0])
    else FindMove(ms[1..], q)
  }

  /** The piece on square q belongs to the side to move. */
  predicate OwnPiece(s: State, q: Pos)
    requires ValidBoard(s.board) && OnBoard(q)
  {
    At(s.board, q).Some? && At(s.board, q).value.player == s.turn
  }

  /**
   * What every state the component reaches satisfies: a selected square holds
   * a piece of the side to move and the highlighted moves are that piece's
   * valid moves (only its captures during a multi-jump); the multi-jump piece
   * is the selected one; with nothing selected nothing is highlighted.
   */
  predicate Consistent(s: State) {
    && ValidBoard(s.board)
    && (s.selected.None? ==> s.moves == [] && s.mustCapture.None?)
    && (s.mustCapture.Some? ==> s.selected == s.mustCapture)
    && (s.selected.Some? ==>
          var p := s.selected.value;
          && OnBoard(p) && OwnPiece(s, p)
          && s.moves == (if s.mustCapture.Some? then Captures(s.board, p, At(s.board, p).value)
                         else ValidMoves(s.board, p, At(s.board, p).value, false)))
  }

  /** Whether moving the piece pc onto q crowns it. */
  predicate Promotes(pc: Piece, q: Pos) {
    !pc.king && q.r == FarRow(pc.player)
  }

  /** The board after the selected piece on `from` makes move m. */
  function BoardAfter(b: Board, from: Pos, m: Move): (b': Board)
    requires ValidBoard(b) && OnBoard(from) && OnBoard(m.to) && At(b, from).Some?
    requires m.Jump? ==> OnBoard(m.over)
    ensures ValidBoard(b')
  {
    var pc := At(b, from).value;
    var moved := if Promotes(pc, m.to) then pc.(king := true) else pc;
    var b1 := Put(Put(b, m.to, Some(moved)), from, None);
    if m.Jump? then Put(b1, m.over, None) else b1
  }

  /** A move that lands on `from`'s own square or its jumped square is not a move. */
  predicate Sound(from: Pos, m: Move) {
    m.to != from && (m.Jump? ==> m.over != from && m.over != m.to)
  }

  /** Carries out move m of the selected piece: capture, promotion, and the multi-jump test. */
  function Execute(s: State, m: Move): (t: State)
    requires Consistent(s) && s.selected.Some? && OnBoard(m.to)
    requires m.Jump? ==> OnBoard(m.over)
    ensures t.board == BoardAfter(s.board, s.selected.value, m)
    ensures t.turn == s.turn || t.turn == Other(s.turn)
    ensures t.turn == s.turn <==>
      m.Jump? && !Promotes(At(s.board, s.selected.value).value, m.to) &&
      |Captures(t.board, m.to, At(s.board, s.selected.value).value)| > 0
    ensures t.turn == s.turn ==>
      t.selected == Some(m.to) && t.mustCapture == Some(m.to) &&
      t.moves == Captures(t.board, m.to, At(s.board, s.selected.value).value)
    ensures t.turn != s.turn ==> t.selected.None? && t.moves == [] && t.mustCapture.None?
  {
    var from := s.selected.value;
    var pc := At(s.board, from).value;
    var b' := BoardAfter(s.board, from, m);
    if m.Jump? && !Promotes(pc, m.to) && |Captures(b', m.to, pc)| > 0 then
      State(b', s.turn, Some(m.to), Captures(b', m.to, pc), Some(m.to))
    else
      State(b', Other(s.turn), None, [], None)
  }

  /**
   * `handleClick(q)`. A click on a piece of the side to move selects it (during
   * a multi-jump only the jumping piece, and only if it can still capture); a
   * click on the target of a highlighted move makes that move; any other click
   * changes nothing. The board forwards clicks on dark squares only; the model
   * takes a click on any square, so what is proved of it holds in particular
   * for the dark ones.
   */
  function HandleClick(s: State, q: Pos): (t: State)
    requires Consistent(s) && OnBoard(q)
    ensures Consistent(t)
  {
    if OwnPiece(s, q) then
      var pc := At(s.board, q).value;
      if s.mustCapture.Some? && s.mustCapture.value != q then s
      else if s.mustCapture.Some? then
        var caps := CapturesOnly(ValidMoves(s.board, q, pc, true));
        CapturesOfValidMoves(s.board, q, pc, true);
        if |caps| > 0 then s.(selected := Some(q), moves := caps) else s
      else
        s.(selected := Some(q), moves := ValidMoves(s.board, q, pc, false))
    else
      var found := FindMove(s.moves, q);
      if s.selected.Some? && found.Some? then
        MoveOnBoard(s, found.value);
        Execute(s, found.value)
      else s
  }

  /** Every highlighted move lands on an empty square and jumps over an enemy. */
  lemma {:induction false} MoveOnBoard(s: State, m: Move)
    requires Consistent(s) && s.selected.Some? && m in s.moves
    ensures OnBoard(m.to) && Empty(s.board, m.to) && (m.Jump? ==> Enemy(s.board, m.over, s.turn))
    ensures Sound(s.selected.value, m)
    ensures m.Jump? ==> m.to == Add(m.over, Pos(m.over.r - s.selected.value.r, m.over.c - s.selected.value.c))
  {
    var p := s.selected.value;
    var pc := At(s.board, p).value;
    StepsIff(s.board, p, StepDirs(pc), m);
    JumpsIff(s.board, p, pc.player, Diagonals, m);
    if s.mustCapture.None? {
      assert m in Steps(s.board, p, StepDirs(pc)) || m in Captures(s.board, p, pc);
    }
  }

  // ---------------------------------------------------------------------
  // Properties of a click
  // ---------------------------------------------------------------------

  /** During a multi-jump, clicking any other own piece changes nothing. */
  lemma LockedDuringMultiJump(s: State, q: Pos)
    requires Consistent(s) && OnBoard(q) && OwnPiece(s, q)
    requires s.mustCapture.Some? && s.mustCapture.value != q
    ensures HandleClick(s, q) == s
  {
  }

  /** Outside a multi-jump, clicking an own piece selects it with all its valid moves. */
  lemma SelectingShowsMoves(s: State, q: Pos)
    requires Consistent(s) && OnBoard(q) && OwnPiece(s, q) && s.mustCapture.None?
    ensures HandleClick(s, q).selected == Some(q)
    ensures HandleClick(s, q).moves == ValidMoves(s.board, q, At(s.board, q).value, false)
    ensures HandleClick(s, q).board == s.board && HandleClick(s, q).turn == s.turn
  {
  }

  /**
   * The selected piece moves from its square to the target: the source square
   * is emptied, the target holds the piece (crowned on the far row), a capture
   * empties exactly the jumped square, and every other square is unchanged.
   */
  lemma {:induction false} MoveEffect(s: State, q: Pos)
    requires Consistent(s) && OnBoard(q) && !OwnPiece(s, q)
    requires s.selected.Some? && FindMove(s.moves, q).Some?
    ensures var from := s.selected.value;
      var m := FindMove(s.moves, q).value;
      var pc := At(s.board, from).value;
      var b' := HandleClick(s, q).board;
      && At(b', from).None?
      && At(b', q) == Some(if Promotes(pc, q) then pc.(king := true) else pc)
      && (m.Jump? ==> Enemy(s.board, m.over, s.turn) && At(b', m.over).None?)
      && forall x :: OnBoard(x) && x != from && x != q && (m.Jump? ==> x != m.over) ==> At(b', x) == At(s.board, x)
  {
    MoveOnBoard(s, FindMove(s.moves, q).value);
  }

  /** A capture removes exactly the jumped piece from the other side. */
  lemma {:induction false} CaptureRemovesOne(s: State, q: Pos)
    requires Consistent(s) && OnBoard(q) && !OwnPiece(s, q)
    requires s.selected.Some? && FindMove(s.moves, q).Some? && FindMove(s.moves, q).value.Jump?
    ensures var m := FindMove(s.moves, q).value;
      && m.over in Pieces(s.board, Other(s.turn))
      && Pieces(HandleClick(s, q).board, Other(s.turn)) == Pieces(s.board, Other(s.turn)) - {m.over}
      && |Pieces(HandleClick(s, q).board, Other(s.turn))| == |Pieces(s.board, Other(s.turn))| - 1
  {
    var m := FindMove(s.moves, q).value;
    MoveEffect(s, q);
    MoveOnBoard(s, m);
    OneSquareEmptied(s.board, HandleClick(s, q).board, s.selected.value, q, m.over, s.turn);
  }

  /**
   * If the mover's piece goes from `from` to the empty square q and the enemy
   * piece on `over` disappears, the enemy loses exactly that square.
   */
  lemma {:induction false} OneSquareEmptied(b: Board, b': Board, from: Pos, q: Pos, over: Pos, mover: Player)
    requires ValidBoard(b) && ValidBoard(b') && OnBoard(from) && OnBoard(q) && OnBoard(over)
    requires At(b, from).Some? && At(b, from).value.player == mover && Empty(b, q)
    requires Enemy(b, over, mover) && At(b', over).None? && At(b', from).None?
    requires At(b', q).Some? && At(b', q).value.player == mover
    requires forall x :: OnBoard(x) && x != from && x != q && x != over ==> At(b', x) == At(b, x)
    ensures over in Pieces(b, Other(mover))
    ensures Pieces(b', Other(mover)) == Pieces(b, Other(mover)) - {over}
  {
    var opp := Other(mover);
    assert mover != opp;
    assert over in Pieces(b, opp) by {
      assert b[over.r][over.c] == At(b, over);
    }
    forall x | x in Pieces(b', opp)
      ensures x in Pieces(b, opp) - {over}
    {
      assert At(b', x) == b'[x.r][x.c];
      assert At(b, x) == b[x.r][x.c];
    }
    forall x | x in Pieces(b, opp) - {over}
      ensures x in Pieces(b', opp)
    {
      assert At(b, x) == b[x.r][x.c];
      assert At(b', x) == b'[x.r][x.c];
    }
  }

  /**
   * After the move the turn stays with the mover exactly when the move was a
   * capture that did not crown the piece and the piece can capture again; the
   * piece is then locked in and offered its captures only. Otherwise the turn
   * passes and the selection clears.
   */
  lemma {:induction false} TurnAfterMove(s: State, q: Pos)
    requires Consistent(s) && OnBoard(q) && !OwnPiece(s, q)
    requires s.selected.Some? && FindMove(s.moves, q).Some?
    ensures var m := FindMove(s.moves, q).value;
      var pc := At(s.board, s.selected.value).value;
      var t := HandleClick(s, q);
      var again := m.Jump? && !Promotes(pc, q) && |Captures(t.board, q, pc)| > 0;
      && (again ==> t.turn == s.turn && t.mustCapture == Some(q) && t.selected == Some(q)
                    && forall x :: x in t.moves ==> x.Jump?)
      && (!again ==> t.turn == Other(s.turn) && t.selected.None? && t.moves == [] && t.mustCapture.None?)
  {
    var m := FindMove(s.moves, q).value;
    var pc := At(s.board, s.selected.value).value;
    var t := HandleClick(s, q);
    JumpsAreJumps(t.board, q, pc.player, Diagonals);
  }

  /** A click on an empty square that no highlighted move reaches changes nothing. */
  lemma IdleClick(s: State, q: Pos)
    requires Consistent(s) && OnBoard(q) && !OwnPiece(s, q)
    requires forall m :: m in s.moves ==> m.to != q
    ensures HandleClick(s, q) == s
  {
  }

  /** The start state is consistent. */
  lemma InitConsistent()
    ensures Consistent(InitState())
  {
  }
}

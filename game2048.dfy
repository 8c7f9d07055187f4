/**
 * The 2048 engine: sliding and merging the tiles of a 4x4 board, spawning a
 * new tile on a free cell, and detecting the end of the game.
 *
 * The live tile list of the engine is modelled as a 4x4 grid of values in
 * which 0 stands for "no tile"; tiles flagged for deletion are dropped at
 * once instead of after the 150 ms animation.
 */
module Game2048 {
  import opened Wrappers

  const Size: nat := 4
  const WinningValue: nat := 2048

  /** board[r][c] is the value of the tile at row r, column c, or 0 if the cell is free. */
  type Board = seq<seq<nat>>

  predicate ValidBoard(b: Board) {
    |b| == Size && forall r :: 0 <= r < Size ==> |b[r]| == Size
  }

  datatype Direction = Up | Down | Left | Right

  /** A tile of one line before the move: its value and its index along the
      line, counted from the side the tiles move toward. */
  datatype Tile = Tile(val: nat, pos: nat)

  /** A tile on the stack of processLine: its value and whether it has
      absorbed another tile during this move (the `isMerging` flag). */
  datatype Slot = Slot(val: nat, merged: bool)

  function TileValues(g: seq<Tile>): seq<nat> {
    seq(|g|, i requires 0 <= i < |g| => g[i].val)
  }

  function Values(s: seq<Slot>): seq<nat> {
    seq(|s|, i requires 0 <= i < |s| => s[i].val)
  }

  function Sum(g: seq<nat>): nat {
    if g == [] then 0 else g[0] + Sum(g[1..])
  }

  function MergedCount(s: seq<Slot>): nat {
    if s == [] then 0 else (if s[0].merged then 1 else 0) + MergedCount(s[1..])
  }

  /** The score a line earns: the sum of the doubled values of its merges. */
  function MergedSum(s: seq<Slot>): nat {
    if s == [] then 0 else (if s[0].merged then s[0].val else 0) + MergedSum(s[1..])
  }

  predicate ProducesWin(s: seq<Slot>) {
    exists i :: 0 <= i < |s| && s[i].merged && s[i].val == WinningValue
  }

  // ---------------------------------------------------------------------
  // One line
  // ---------------------------------------------------------------------

  /** Reference definition of sliding one line: the values, listed toward
      the move direction, are combined greedily from the front, two equal
      neighbours into one doubled tile. */
  function Merge(g: seq<nat>): (r: seq<Slot>)
    ensures |r| <= |g|
  {
    if |g| == 0 then []
    else if |g| >= 2 && g[0] == g[1] then [Slot(2 * g[0], true)] + Merge(g[2..])
    else [Slot(g[0], false)] + Merge(g[1..])
  }

  /** What the stack followed by the unprocessed values will become: an
      unmerged top of the stack may still absorb the next value. */
  function Resume(stack: seq<Slot>, rest: seq<nat>): seq<Slot> {
    if |stack| > 0 && !stack[|stack| - 1].merged
    then stack[..|stack| - 1] + Merge([stack[|stack| - 1].val] + rest)
    else stack + Merge(rest)
  }

  lemma MergedSumPush(s: seq<Slot>, x: Slot)
    ensures MergedSum(s + [x]) == MergedSum(s) + (if x.merged then x.val else 0)
    ensures MergedCount(s + [x]) == MergedCount(s) + (if x.merged then 1 else 0)
  {
    if s != [] {
      assert (s + [x])[1..] == s[1..] + [x];
      MergedSumPush(s[1..], x);
    }
  }

  /** A value followed by an equal one merges with it. */
  lemma MergePair(a: nat, xs: seq<nat>)
    ensures Merge([a, a] + xs) == [Slot(2 * a, true)] + Merge(xs)
  {
    assert ([a, a] + xs)[2..] == xs;
  }

  /** A value followed by nothing or by a different value stays alone. */
  lemma MergeAlone(a: nat, xs: seq<nat>)
    requires xs == [] || xs[0] != a
    ensures Merge([a] + xs) == [Slot(a, false)] + Merge(xs)
  {
    assert ([a] + xs)[1..] == xs;
  }

  lemma ResumeAbsorb(stack: seq<Slot>, t: nat, rest: seq<nat>)
    requires |stack| > 0 && !stack[|stack| - 1].merged && stack[|stack| - 1].val == t
    ensures Resume(stack, [t] + rest) == Resume(stack[..|stack| - 1] + [Slot(2 * t, true)], rest)
  {
    var prefix := stack[..|stack| - 1];
    var s' := prefix + [Slot(2 * t, true)];
    MergePair(t, rest);
    assert [t] + ([t] + rest) == [t, t] + rest;
    assert Resume(stack, [t] + rest) == prefix + ([Slot(2 * t, true)] + Merge(rest));
    assert Resume(s', rest) == s' + Merge(rest);
  }

  lemma ResumePush(stack: seq<Slot>, t: nat, rest: seq<nat>)
    requires !(|stack| > 0 && !stack[|stack| - 1].merged && stack[|stack| - 1].val == t)
    ensures Resume(stack, [t] + rest) == Resume(stack + [Slot(t, false)], rest)
  {
    var s' := stack + [Slot(t, false)];
    assert s'[..|s'| - 1] == stack;
    assert Resume(s', rest) == stack + Merge([t] + rest);
    if |stack| > 0 && !stack[|stack| - 1].merged {
      var prefix, last := stack[..|stack| - 1], stack[|stack| - 1];
      MergeAlone(last.val, [t] + rest);
      assert stack == prefix + [last];
      assert Resume(stack, [t] + rest) == prefix + ([last] + Merge([t] + rest));
    }
  }

  /** One step of processLine's stack: an unmerged top of equal value
      absorbs the tile, otherwise the tile is pushed. */
  function Step(stack: seq<Slot>, t: nat): seq<Slot> {
    if |stack| > 0 && !stack[|stack| - 1].merged && stack[|stack| - 1].val == t
    then stack[..|stack| - 1] + [Slot(2 * t, true)]
    else stack + [Slot(t, false)]
  }

  /** The stack after the values in vals have been processed in order. */
  function Process(vals: seq<nat>): seq<Slot> {
    if vals == [] then [] else Step(Process(vals[..|vals| - 1]), vals[|vals| - 1])
  }

  lemma ResumeStep(stack: seq<Slot>, t: nat, rest: seq<nat>)
    ensures Resume(stack, [t] + rest) == Resume(Step(stack, t), rest)
  {
    if |stack| > 0 && !stack[|stack| - 1].merged && stack[|stack| - 1].val == t {
      ResumeAbsorb(stack, t, rest);
    } else {
      ResumePush(stack, t, rest);
    }
  }

  lemma {:induction false} ResumeProcess(p: seq<nat>, rest: seq<nat>)
    ensures Resume(Process(p), rest) == Merge(p + rest)
    decreases |p|
  {
    if p == [] {
      assert p + rest == rest;
    } else {
      var q, t := p[..|p| - 1], p[|p| - 1];
      ResumeStep(Process(q), t, rest);
      ResumeProcess(q, [t] + rest);
      assert q + ([t] + rest) == p + rest;
    }
  }

  /** The stack built left to right is the greedy front merge. */
  lemma ProcessIsMerge(vals: seq<nat>)
    ensures Process(vals) == Merge(vals)
  {
    ResumeProcess(vals, []);
    assert vals + [] == vals;
    var s := Process(vals);
    if |s| > 0 && !s[|s| - 1].merged {
      assert Merge([s[|s| - 1].val]) == [s[|s| - 1]];
      assert s == s[..|s| - 1] + [s[|s| - 1]];
    }
  }

  /** What absorbing does to the merge count, the score and the win flag. */
  lemma AbsorbFacts(stack: seq<Slot>, t: nat)
    requires |stack| > 0 && !stack[|stack| - 1].merged && stack[|stack| - 1].val == t
    ensures var s' := stack[..|stack| - 1] + [Slot(2 * t, true)];
      && Step(stack, t) == s'
      && |s'| == |stack|
      && MergedCount(s') == MergedCount(stack) + 1
      && MergedSum(s') == MergedSum(stack) + 2 * t
      && (ProducesWin(s') <==> ProducesWin(stack) || 2 * t == WinningValue)
  {
    var prefix, last := stack[..|stack| - 1], stack[|stack| - 1];
    assert stack == prefix + [last];
    MergedSumPush(prefix, last);
    MergedSumPush(prefix, Slot(2 * t, true));
    var s' := prefix + [Slot(2 * t, true)];
    if ProducesWin(stack) {
      var i :| 0 <= i < |stack| && stack[i].merged && stack[i].val == WinningValue;
      assert s'[i] == stack[i];
    }
    if ProducesWin(s') {
      var i :| 0 <= i < |s'| && s'[i].merged && s'[i].val == WinningValue;
      if i < |prefix| {
        assert stack[i] == s'[i];
      }
    }
    if 2 * t == WinningValue {
      assert s'[|prefix|].merged && s'[|prefix|].val == WinningValue;
    }
  }

  /** What pushing does to the merge count, the score and the win flag. */
  lemma PushFacts(stack: seq<Slot>, t: nat)
    requires !(|stack| > 0 && !stack[|stack| - 1].merged && stack[|stack| - 1].val == t)
    ensures var s' := stack + [Slot(t, false)];
      && Step(stack, t) == s'
      && MergedCount(s') == MergedCount(stack)
      && MergedSum(s') == MergedSum(stack)
      && (ProducesWin(s') <==> ProducesWin(stack))
  {
    MergedSumPush(stack, Slot(t, false));
    var s' := stack + [Slot(t, false)];
    if ProducesWin(stack) {
      var i :| 0 <= i < |stack| && stack[i].merged && stack[i].val == WinningValue;
      assert s'[i] == stack[i];
    }
    if ProducesWin(s') {
      var i :| 0 <= i < |s'| && s'[i].merged && s'[i].val == WinningValue;
      assert i < |stack| && stack[i] == s'[i];
    }
  }

  /** The stack after the first n tiles of a group have been processed. */
  function StackAfter(group: seq<Tile>, n: nat): seq<Slot>
    requires n <= |group|
  {
    if n == 0 then [] else Step(StackAfter(group, n - 1), group[n - 1].val)
  }

  /** Whether one of the first n tiles of a group sits at another index than its own. */
  predicate Displaced(group: seq<Tile>, n: nat)
    requires n <= |group|
  {
    n > 0 && (Displaced(group, n - 1) || group[n - 1].pos != n - 1)
  }

  lemma {:induction false} StackAfterIsProcess(group: seq<Tile>, n: nat)
    requires n <= |group|
    ensures StackAfter(group, n) == Process(TileValues(group)[..n])
  {
    if n > 0 {
      StackAfterIsProcess(group, n - 1);
      var vals := TileValues(group);
      assert vals[..n][..n - 1] == vals[..n - 1];
    }
  }

  /** Every tile processed is either on the stack or absorbed by a merge. */
  lemma {:induction false} StackAfterCount(group: seq<Tile>, n: nat)
    requires n <= |group|
    ensures |StackAfter(group, n)| + MergedCount(StackAfter(group, n)) == n
  {
    if n > 0 {
      StackAfterCount(group, n - 1);
      var s := StackAfter(group, n - 1);
      var t := group[n - 1].val;
      if |s| > 0 && !s[|s| - 1].merged && s[|s| - 1].val == t {
        AbsorbFacts(s, t);
      } else {
        PushFacts(s, t);
      }
    }
  }

  lemma {:induction false} DisplacedIff(group: seq<Tile>, n: nat)
    requires n <= |group|
    ensures Displaced(group, n) <==> exists i :: 0 <= i < n && group[i].pos != i
  {
    if n > 0 {
      DisplacedIff(group, n - 1);
    }
  }

  /** processLine: walks the tiles of one line in order, pushing each onto a
      stack unless the top of the stack is an unmerged tile of equal value,
      which then doubles and is flagged as merged. */
  method ProcessLine(group: seq<Tile>) returns (stack: seq<Slot>, scoreAdd: nat, moved: bool, won: bool)
    ensures stack == Merge(TileValues(group))
    ensures scoreAdd == MergedSum(stack)
    ensures won <==> ProducesWin(stack)
    ensures moved <==> MergedCount(stack) > 0 || exists i :: 0 <= i < |group| && group[i].pos != i
  {
    stack, scoreAdd, moved, won := [], 0, false, false;
    for n := 0 to |group|
      invariant stack == StackAfter(group, n)
      invariant scoreAdd == MergedSum(stack)
      invariant won == ProducesWin(stack)
      invariant moved == (MergedCount(stack) > 0 || Displaced(group, n))
    {
      var tile := group[n];
      StackAfterCount(group, n);
      if |stack| > 0 && !stack[|stack| - 1].merged && stack[|stack| - 1].val == tile.val {
        var last := stack[|stack| - 1];
        AbsorbFacts(stack, tile.val);
        stack := stack[..|stack| - 1] + [Slot(last.val * 2, true)];
        scoreAdd := scoreAdd + last.val * 2;
        if last.val * 2 == WinningValue {
          won := true;
        }
        moved := true;
      } else {
        if tile.pos != |stack| {
          moved := true;
        }
        PushFacts(stack, tile.val);
        stack := stack + [Slot(tile.val, false)];
      }
    }
    StackAfterIsProcess(group, |group|);
    assert TileValues(group)[..|group|] == TileValues(group);
    ProcessIsMerge(TileValues(group));
    DisplacedIff(group, |group|);
  }

  // ---------------------------------------------------------------------
  // Properties of one line
  // ---------------------------------------------------------------------

  /** Each merge consumes exactly one tile, so every tile takes part in at
      most one merge: tiles out plus merges made equals tiles in. */
  lemma {:induction false} MergeConsumesEachTileOnce(g: seq<nat>)
    ensures |Merge(g)| + MergedCount(Merge(g)) == |g|
  {
    if |g| == 0 {
    } else if |g| >= 2 && g[0] == g[1] {
      MergeConsumesEachTileOnce(g[2..]);
      assert ([Slot(2 * g[0], true)] + Merge(g[2..]))[1..] == Merge(g[2..]);
    } else {
      MergeConsumesEachTileOnce(g[1..]);
      assert ([Slot(g[0], false)] + Merge(g[1..]))[1..] == Merge(g[1..]);
    }
  }

  /** Merging neither creates nor destroys value. */
  lemma {:induction false} MergeKeepsTotal(g: seq<nat>)
    ensures Sum(Values(Merge(g))) == Sum(g)
  {
    if |g| == 0 {
    } else if |g| >= 2 && g[0] == g[1] {
      MergeKeepsTotal(g[2..]);
      assert Values(Merge(g))[1..] == Values(Merge(g[2..]));
      assert g[1..][1..] == g[2..];
    } else {
      MergeKeepsTotal(g[1..]);
      assert Values(Merge(g))[1..] == Values(Merge(g[1..]));
    }
  }

  /** A merged survivor holds twice the value of two equal neighbouring tiles of the input. */
  lemma {:induction false} MergedSurvivorDoubles(g: seq<nat>, i: nat)
    requires i < |Merge(g)| && Merge(g)[i].merged
    ensures exists j :: 0 <= j < |g| - 1 && g[j] == g[j + 1] && Merge(g)[i].val == 2 * g[j]
  {
    if |g| >= 2 && g[0] == g[1] {
      if i > 0 {
        MergedSurvivorDoubles(g[2..], i - 1);
        var j :| 0 <= j < |g[2..]| - 1 && g[2..][j] == g[2..][j + 1] && Merge(g[2..])[i - 1].val == 2 * g[2..][j];
        assert g[j + 2] == g[j + 3];
      }
    } else {
      MergedSurvivorDoubles(g[1..], i - 1);
      var j :| 0 <= j < |g[1..]| - 1 && g[1..][j] == g[1..][j + 1] && Merge(g[1..])[i - 1].val == 2 * g[1..][j];
      assert g[j + 1] == g[j + 2];
    }
  }

  /** Without a merge the values come out unchanged and in order. */
  lemma {:induction false} NoMergeKeepsValues(g: seq<nat>)
    requires MergedCount(Merge(g)) == 0
    ensures Values(Merge(g)) == g
  {
    if |g| == 0 {
    } else if |g| >= 2 && g[0] == g[1] {
      assert false;
    } else {
      assert ([Slot(g[0], false)] + Merge(g[1..]))[1..] == Merge(g[1..]);
      NoMergeKeepsValues(g[1..]);
      assert Values(Merge(g)) == [g[0]] + Values(Merge(g[1..]));
    }
  }

  /** A line without two equal neighbours does not merge. */
  lemma {:induction false} DistinctNeighboursDoNotMerge(g: seq<nat>)
    requires forall i :: 0 <= i < |g| - 1 ==> g[i] != g[i + 1]
    ensures MergedCount(Merge(g)) == 0
  {
    if |g| > 0 {
      assert ([Slot(g[0], false)] + Merge(g[1..]))[1..] == Merge(g[1..]);
      DistinctNeighboursDoNotMerge(g[1..]);
    }
  }

  lemma {:induction false} MergeKeepsPositive(g: seq<nat>)
    requires forall i :: 0 <= i < |g| ==> g[i] > 0
    ensures forall i :: 0 <= i < |Merge(g)| ==> Merge(g)[i].val > 0
  {
    if |g| >= 2 && g[0] == g[1] {
      MergeKeepsPositive(g[2..]);
    } else if |g| > 0 {
      MergeKeepsPositive(g[1..]);
    }
  }

  // ---------------------------------------------------------------------
  // Lines of a board
  // ---------------------------------------------------------------------

  /** The tiles of a line from index j on, in order: filtering one row or
      column and sorting it toward the move direction. */
  function TilesFrom(line: seq<nat>, j: nat): (t: seq<Tile>)
    requires j <= |line|
    ensures |t| <= |line| - j
    decreases |line| - j
  {
    if j == |line| then []
    else if line[j] != 0 then [Tile(line[j], j)] + TilesFrom(line, j + 1)
    else TilesFrom(line, j + 1)
  }

  /** Every tile of t is a non-free cell of the line at or after j, with its value. */
  predicate AreCells(line: seq<nat>, j: nat, t: seq<Tile>) {
    forall i :: 0 <= i < |t| ==> j + i <= t[i].pos < |line| && t[i].val == line[t[i].pos] && t[i].val != 0
  }

  /** i' - i tiles apart means at least i' - i cells apart. */
  predicate InCellOrder(t: seq<Tile>) {
    forall i, i' :: 0 <= i < i' < |t| ==> t[i'].pos - t[i].pos >= i' - i
  }

  /** Every non-free cell of the line at or after j is one of the tiles of t. */
  predicate CoversFrom(line: seq<nat>, j: nat, t: seq<Tile>) {
    forall p :: j <= p < |line| && line[p] != 0 ==> exists i :: 0 <= i < |t| && t[i].pos == p
  }

  /** Every tile of a line is a non-free cell at or after j, with its value. */
  lemma {:induction false} TilesFromCells(line: seq<nat>, j: nat)
    requires j <= |line|
    ensures AreCells(line, j, TilesFrom(line, j))
    decreases |line| - j
  {
    if j < |line| {
      TilesFromCells(line, j + 1);
      var rest := TilesFrom(line, j + 1);
      if line[j] != 0 {
        var t := [Tile(line[j], j)] + rest;
        assert TilesFrom(line, j) == t;
        forall i | 0 <= i < |t| ensures j + i <= t[i].pos < |line| && t[i].val == line[t[i].pos] && t[i].val != 0 {
          if i > 0 {
            assert t[i] == rest[i - 1];
          }
        }
      } else {
        assert TilesFrom(line, j) == rest;
      }
    }
  }

  /** The tiles of a line keep the order of their cells: i' - i tiles apart
      means at least i' - i cells apart. */
  lemma {:induction false} TilesFromOrdered(line: seq<nat>, j: nat)
    requires j <= |line|
    ensures InCellOrder(TilesFrom(line, j))
    decreases |line| - j
  {
    if j < |line| {
      TilesFromOrdered(line, j + 1);
      TilesFromCells(line, j + 1);
      var rest := TilesFrom(line, j + 1);
      if line[j] != 0 {
        var t := [Tile(line[j], j)] + rest;
        assert TilesFrom(line, j) == t;
        forall i, i' | 0 <= i < i' < |t| ensures t[i'].pos - t[i].pos >= i' - i {
          assert t[i'] == rest[i' - 1];
          if i > 0 {
            assert t[i] == rest[i - 1];
          }
        }
      } else {
        assert TilesFrom(line, j) == rest;
      }
    }
  }

  /** Every non-free cell at or after j is one of the tiles. */
  lemma {:induction false} TilesFromCovers(line: seq<nat>, j: nat)
    requires j <= |line|
    ensures CoversFrom(line, j, TilesFrom(line, j))
    decreases |line| - j
  {
    if j < |line| {
      TilesFromCovers(line, j + 1);
      var rest := TilesFrom(line, j + 1);
      if line[j] != 0 {
        var t := [Tile(line[j], j)] + rest;
        assert TilesFrom(line, j) == t;
        forall p | j <= p < |line| && line[p] != 0 ensures exists i :: 0 <= i < |t| && t[i].pos == p {
          if p == j {
            assert t[0].pos == p;
          } else {
            var i :| 0 <= i < |rest| && rest[i].pos == p;
            assert t[i + 1].pos == p;
          }
        }
      } else {
        assert TilesFrom(line, j) == rest;
      }
    }
  }

  /** The tiles of a line are its non-free cells, in order and each once. */
  lemma TilesFromFacts(line: seq<nat>, j: nat)
    requires j <= |line|
    ensures var t := TilesFrom(line, j);
      AreCells(line, j, t) && InCellOrder(t) && CoversFrom(line, j, t)
  {
    TilesFromCells(line, j);
    TilesFromOrdered(line, j);
    TilesFromCovers(line, j);
  }

  function TilesOf(line: seq<nat>): seq<Tile> {
    TilesFrom(line, 0)
  }

  function Pad(xs: seq<nat>, n: nat): (r: seq<nat>)
    requires |xs| <= n
    ensures |r| == n
  {
    xs + seq(n - |xs|, _ => 0)
  }

  /** The line a move leaves behind: the merged tiles pushed to the front, free cells after them. */
  function NewLine(line: seq<nat>): (r: seq<nat>)
    requires |line| == Size
    ensures |r| == Size
  {
    Pad(Values(Merge(TileValues(TilesOf(line)))), Size)
  }

  /** Whether processLine reports a change for this line: a merge, or a tile
      that lands at a different index. */
  predicate LineMoved(line: seq<nat>) {
    var t := TilesOf(line);
    MergedCount(Merge(TileValues(t))) > 0 || exists i :: 0 <= i < |t| && t[i].pos != i
  }

  function NonZero(s: seq<nat>): nat {
    if s == [] then 0 else (if s[0] != 0 then 1 else 0) + NonZero(s[1..])
  }

  lemma {:induction false} NonZeroTiles(line: seq<nat>, j: nat)
    requires j <= |line|
    ensures NonZero(line[j..]) == |TilesFrom(line, j)|
    decreases |line| - j
  {
    if j < |line| {
      assert line[j..][1..] == line[j + 1..];
      NonZeroTiles(line, j + 1);
    }
  }

  lemma {:induction false} NonZeroPad(xs: seq<nat>, n: nat)
    requires |xs| <= n
    requires forall i :: 0 <= i < |xs| ==> xs[i] > 0
    ensures NonZero(Pad(xs, n)) == |xs|
    decreases n
  {
    if xs == [] {
      assert Pad(xs, n) == seq(n, _ => 0);
      ZerosNonZero(n);
    } else {
      assert Pad(xs, n)[1..] == Pad(xs[1..], n - 1);
      NonZeroPad(xs[1..], n - 1);
    }
  }

  lemma {:induction false} ZerosNonZero(n: nat)
    ensures NonZero(seq(n, _ => 0)) == 0
  {
    if n > 0 {
      assert seq(n, _ => 0)[1..] == seq(n - 1, _ => 0);
      ZerosNonZero(n - 1);
    }
  }

  /** A line tiles fill from index 0 without gaps keeps its tiles in place. */
  lemma PackedTilesStay(line: seq<nat>)
    requires forall i :: 0 <= i < |TilesOf(line)| ==> TilesOf(line)[i].pos == i
    ensures Pad(TileValues(TilesOf(line)), |line|) == line
  {
    var t := TilesOf(line);
    TilesFromFacts(line, 0);
    var p := Pad(TileValues(t), |line|);
    forall k | 0 <= k < |line| ensures p[k] == line[k] {
      if k < |t| {
        assert t[k].pos == k;
      }
    }
  }

  /** The no-op rule for one line: processLine reports movement exactly when
      the line it leaves behind differs from the line it received. */
  lemma LineMovedIffChanged(line: seq<nat>)
    requires |line| == Size
    ensures LineMoved(line) <==> NewLine(line) != line
  {
    var t := TilesOf(line);
    var g := TileValues(t);
    TilesFromFacts(line, 0);
    MergeConsumesEachTileOnce(g);
    MergeKeepsPositive(g);
    NonZeroTiles(line, 0);
    assert line[0..] == line;
    if MergedCount(Merge(g)) > 0 {
      NonZeroPad(Values(Merge(g)), Size);
    } else {
      NoMergeKeepsValues(g);
      if exists i :: 0 <= i < |t| && t[i].pos != i {
        var i :| 0 <= i < |t| && t[i].pos != i;
      } else {
        PackedTilesStay(line);
      }
    }
  }

  /** A line whose four cells are all taken and whose neighbours all differ cannot move. */
  lemma StuckLine(line: seq<nat>)
    requires |line| == Size
    requires forall j :: 0 <= j < Size ==> line[j] != 0
    requires forall j :: 0 <= j < Size - 1 ==> line[j] != line[j + 1]
    ensures !LineMoved(line)
  {
    var t := TilesOf(line);
    var g := TileValues(t);
    TilesFromFacts(line, 0);
    NonZeroTiles(line, 0);
    assert line[0..] == line;
    NonZeroAll(line);
    assert |t| == Size;
    forall i | 0 <= i < |t| ensures t[i].pos == i {
      assert t[Size - 1].pos - t[i].pos >= Size - 1 - i;
    }
    forall i | 0 <= i < |g| - 1 ensures g[i] != g[i + 1] {
      assert t[i].pos == i && t[i + 1].pos == i + 1;
    }
    DistinctNeighboursDoNotMerge(g);
  }

  lemma {:induction false} NonZeroAll(s: seq<nat>)
    requires forall j :: 0 <= j < |s| ==> s[j] != 0
    ensures NonZero(s) == |s|
  {
    if s != [] {
      NonZeroAll(s[1..]);
    }
  }

  /** A line that changes leaves at least one free cell behind. */
  lemma ChangedLineHasRoom(line: seq<nat>)
    requires |line| == Size
    requires NewLine(line) != line
    ensures exists j :: 0 <= j < Size && NewLine(line)[j] == 0
  {
    var t := TilesOf(line);
    var g := TileValues(t);
    TilesFromFacts(line, 0);
    MergeConsumesEachTileOnce(g);
    LineMovedIffChanged(line);
    if MergedCount(Merge(g)) == 0 {
      var i :| 0 <= i < |t| && t[i].pos != i;
      assert |t| < Size by {
        assert t[|t| - 1].pos - t[i].pos >= |t| - 1 - i;
        assert t[i].pos - t[0].pos >= i;
      }
    }
    assert |Values(Merge(g))| < Size;
    assert NewLine(line)[Size - 1] == 0;
  }

  // ---------------------------------------------------------------------
  // The board
  // ---------------------------------------------------------------------

  /** The cell at index j of line k, with j counted from the side the tiles move toward. */
  function CellOf(d: Direction, k: nat, j: nat): (p: (nat, nat))
    requires k < Size && j < Size
    ensures p.0 < Size && p.1 < Size
  {
    match d
    case Left => (k, j)
    case Right => (k, Size - 1 - j)
    case Up => (j, k)
    case Down => (Size - 1 - j, k)
  }

  /** Which line the cell (r, c) belongs to when moving toward d. */
  function LineIndex(d: Direction, r: nat, c: nat): nat {
    if d == Left || d == Right then r else c
  }

  /** The index of the cell (r, c) along its line when moving toward d. */
  function PosIndex(d: Direction, r: nat, c: nat): (j: nat)
    requires r < Size && c < Size
    ensures j < Size
  {
    match d
    case Left => c
    case Right => Size - 1 - c
    case Up => r
    case Down => Size - 1 - r
  }

  /** Row or column k, listed toward the move direction. */
  function LineOf(b: Board, d: Direction, k: nat): (line: seq<nat>)
    requires ValidBoard(b) && k < Size
    ensures |line| == Size
  {
    seq(Size, j requires 0 <= j < Size => b[CellOf(d, k, j).0][CellOf(d, k, j).1])
  }

  predicate ValidLines(lines: seq<seq<nat>>) {
    |lines| == Size && forall k :: 0 <= k < Size ==> |lines[k]| == Size
  }

  /** Writes each line back onto the board. */
  function Assemble(d: Direction, lines: seq<seq<nat>>): (b: Board)
    requires ValidLines(lines)
    ensures ValidBoard(b)
  {
    seq(Size, r requires 0 <= r < Size =>
      seq(Size, c requires 0 <= c < Size => lines[LineIndex(d, r, c)][PosIndex(d, r, c)]))
  }

  function NewLines(b: Board, d: Direction): (lines: seq<seq<nat>>)
    requires ValidBoard(b)
    ensures ValidLines(lines)
  {
    seq(Size, k requires 0 <= k < Size => NewLine(LineOf(b, d, k)))
  }

  /** The board after a move toward d: every line slid and merged. */
  function MoveBoard(b: Board, d: Direction): (b': Board)
    requires ValidBoard(b)
    ensures ValidBoard(b')
  {
    Assemble(d, NewLines(b, d))
  }

  /** The stack processLine leaves for line k. */
  function LineStack(b: Board, d: Direction, k: nat): seq<Slot>
    requires ValidBoard(b) && k < Size
  {
    Merge(TileValues(TilesOf(LineOf(b, d, k))))
  }

  predicate LineWins(b: Board, d: Direction, k: nat)
    requires ValidBoard(b) && k < Size
  {
    ProducesWin(LineStack(b, d, k))
  }

  /** What processLine reports for one line: its stack, whether it moved
      and whether it produced a 2048 tile. */
  datatype LineResult = LineResult(stack: seq<Slot>, moved: bool, won: bool)

  function LineResultOf(b: Board, d: Direction, k: nat): LineResult
    requires ValidBoard(b) && k < Size
  {
    LineResult(LineStack(b, d, k), LineMoved(LineOf(b, d, k)), LineWins(b, d, k))
  }

  /** The reports of the four lines of a move, in processing order. */
  function Results(b: Board, d: Direction): (rs: seq<LineResult>)
    requires ValidBoard(b)
    ensures |rs| == Size
  {
    seq(Size, k requires 0 <= k < Size => LineResultOf(b, d, k))
  }

  /** The score earned by the lines reported in rs. */
  function TotalScore(rs: seq<LineResult>): nat {
    if rs == [] then 0 else TotalScore(rs[..|rs| - 1]) + MergedSum(rs[|rs| - 1].stack)
  }

  predicate AnyMoved(rs: seq<LineResult>) {
    rs != [] && (AnyMoved(rs[..|rs| - 1]) || rs[|rs| - 1].moved)
  }

  predicate AnyWon(rs: seq<LineResult>) {
    rs != [] && (AnyWon(rs[..|rs| - 1]) || rs[|rs| - 1].won)
  }

  lemma {:induction false} AnyMovedIff(rs: seq<LineResult>)
    ensures AnyMoved(rs) <==> exists i :: 0 <= i < |rs| && rs[i].moved
  {
    if rs != [] {
      var init := rs[..|rs| - 1];
      AnyMovedIff(init);
      assert forall i :: 0 <= i < |init| ==> init[i] == rs[i];
    }
  }

  lemma {:induction false} AnyWonIff(rs: seq<LineResult>)
    ensures AnyWon(rs) <==> exists i :: 0 <= i < |rs| && rs[i].won
  {
    if rs != [] {
      var init := rs[..|rs| - 1];
      AnyWonIff(init);
      assert forall i :: 0 <= i < |init| ==> init[i] == rs[i];
    }
  }

  /** The score a move earns: the doubled values of all its merges. */
  function MoveScore(b: Board, d: Direction): nat
    requires ValidBoard(b)
  {
    TotalScore(Results(b, d))
  }

  /** Whether a move produces a 2048 tile in some line. */
  predicate MoveWins(b: Board, d: Direction)
    requires ValidBoard(b)
  {
    AnyWon(Results(b, d))
  }

  lemma MoveWinsIff(b: Board, d: Direction)
    requires ValidBoard(b)
    ensures MoveWins(b, d) <==> exists k :: 0 <= k < Size && ProducesWin(LineStack(b, d, k))
  {
    var rs := Results(b, d);
    AnyWonIff(rs);
    assert forall k :: 0 <= k < Size ==> rs[k].won == ProducesWin(LineStack(b, d, k));
  }

  lemma ResultsMovedIff(b: Board, d: Direction)
    requires ValidBoard(b)
    ensures AnyMoved(Results(b, d)) <==> exists k :: 0 <= k < Size && LineMoved(LineOf(b, d, k))
  {
    var rs := Results(b, d);
    AnyMovedIff(rs);
    assert forall k :: 0 <= k < Size ==> rs[k].moved == LineMoved(LineOf(b, d, k));
  }

  lemma AssembleAt(d: Direction, lines: seq<seq<nat>>, k: nat, j: nat)
    requires ValidLines(lines) && k < Size && j < Size
    ensures Assemble(d, lines)[CellOf(d, k, j).0][CellOf(d, k, j).1] == lines[k][j]
  {
  }

  /** Reading the lines of a board and writing them back gives the same board. */
  lemma AssembleLinesOf(b: Board, d: Direction)
    requires ValidBoard(b)
    ensures Assemble(d, seq(Size, k requires 0 <= k < Size => LineOf(b, d, k))) == b
  {
    var lines := seq(Size, k requires 0 <= k < Size => LineOf(b, d, k));
    var a := Assemble(d, lines);
    forall r | 0 <= r < Size ensures a[r] == b[r] {
      forall c | 0 <= c < Size ensures a[r][c] == b[r][c] {
        assert CellOf(d, LineIndex(d, r, c), PosIndex(d, r, c)) == (r, c);
      }
    }
  }

  /** A line that moves changes the board. */
  lemma MovedLineChangesBoard(b: Board, d: Direction, k: nat)
    requires ValidBoard(b) && k < Size && LineMoved(LineOf(b, d, k))
    ensures MoveBoard(b, d) != b
  {
    var line := LineOf(b, d, k);
    LineMovedIffChanged(line);
    var j :| 0 <= j < Size && NewLine(line)[j] != line[j];
    AssembleAt(d, NewLines(b, d), k, j);
  }

  /** When no line moves, the board stays as it is. */
  lemma StillLinesKeepBoard(b: Board, d: Direction)
    requires ValidBoard(b)
    requires forall k :: 0 <= k < Size ==> !LineMoved(LineOf(b, d, k))
    ensures MoveBoard(b, d) == b
  {
    var olds := seq(Size, k requires 0 <= k < Size => LineOf(b, d, k));
    forall k | 0 <= k < Size ensures NewLines(b, d)[k] == olds[k] {
      LineMovedIffChanged(LineOf(b, d, k));
    }
    assert NewLines(b, d) == olds;
    AssembleLinesOf(b, d);
  }

  /** The no-op rule for the board: a move changes the board exactly when
      some line reports movement. */
  lemma MoveChangesIffSomeLineMoved(b: Board, d: Direction)
    requires ValidBoard(b)
    ensures MoveBoard(b, d) != b <==> exists k :: 0 <= k < Size && LineMoved(LineOf(b, d, k))
  {
    if exists k :: 0 <= k < Size && LineMoved(LineOf(b, d, k)) {
      var k :| 0 <= k < Size && LineMoved(LineOf(b, d, k));
      MovedLineChangesBoard(b, d, k);
    } else {
      StillLinesKeepBoard(b, d);
    }
  }

  predicate Full(b: Board)
    requires ValidBoard(b)
  {
    forall r, c :: 0 <= r < Size && 0 <= c < Size ==> b[r][c] != 0
  }

  /** The tile at (r, c) and the tile to its right or below it have the same value. */
  predicate EqualRightOrDown(b: Board, r: nat, c: nat)
    requires ValidBoard(b) && r < Size && c < Size
  {
    (c + 1 < Size && b[r][c] != 0 && b[r][c + 1] != 0 && b[r][c] == b[r][c + 1]) ||
    (r + 1 < Size && b[r][c] != 0 && b[r + 1][c] != 0 && b[r][c] == b[r + 1][c])
  }

  predicate HasEqualNeighbours(b: Board)
    requires ValidBoard(b)
  {
    exists r, c :: 0 <= r < Size && 0 <= c < Size && EqualRightOrDown(b, r, c)
  }

  /** The game-over scan: looks at every cell's right and lower neighbour. */
  method CanMove(b: Board) returns (canMove: bool)
    requires ValidBoard(b)
    ensures canMove <==> HasEqualNeighbours(b)
  {
    canMove := false;
    for r := 0 to Size
      invariant canMove <==> exists r', c :: 0 <= r' < r && 0 <= c < Size && EqualRightOrDown(b, r', c)
    {
      for c := 0 to Size
        invariant canMove <==> (exists r', c' :: 0 <= r' < r && 0 <= c' < Size && EqualRightOrDown(b, r', c'))
                               || (exists c' :: 0 <= c' < c && EqualRightOrDown(b, r, c'))
      {
        assert (exists c' :: 0 <= c' < c + 1 && EqualRightOrDown(b, r, c')) <==>
               (exists c' :: 0 <= c' < c && EqualRightOrDown(b, r, c')) || EqualRightOrDown(b, r, c);
        if c + 1 < Size && b[r][c] != 0 && b[r][c + 1] != 0 && b[r][c] == b[r][c + 1] {
          canMove := true;
        }
        if r + 1 < Size && b[r][c] != 0 && b[r + 1][c] != 0 && b[r][c] == b[r + 1][c] {
          canMove := true;
        }
      }
      assert (exists r', c' :: 0 <= r' < r + 1 && 0 <= c' < Size && EqualRightOrDown(b, r', c')) <==>
             (exists r', c' :: 0 <= r' < r && 0 <= c' < Size && EqualRightOrDown(b, r', c')) ||
             (exists c' :: 0 <= c' < Size && EqualRightOrDown(b, r, c'));
    }
  }

  /** Game over is sound: on a full board without equal neighbours no move
      in any direction changes anything. */
  lemma StuckBoardCannotMove(b: Board, d: Direction)
    requires ValidBoard(b) && Full(b) && !HasEqualNeighbours(b)
    ensures MoveBoard(b, d) == b
  {
    forall k | 0 <= k < Size ensures !LineMoved(LineOf(b, d, k)) {
      var line := LineOf(b, d, k);
      forall j | 0 <= j < Size - 1 ensures line[j] != line[j + 1] {
        var p, q := CellOf(d, k, j), CellOf(d, k, j + 1);
        if d == Left || d == Up {
          assert !EqualRightOrDown(b, p.0, p.1);
        } else {
          assert !EqualRightOrDown(b, q.0, q.1);
        }
      }
      StuckLine(line);
    }
    MoveChangesIffSomeLineMoved(b, d);
  }

  /** A move that changes the board leaves a free cell for the new tile. */
  lemma MovedBoardHasRoom(b: Board, d: Direction)
    requires ValidBoard(b) && MoveBoard(b, d) != b
    ensures !Full(MoveBoard(b, d))
  {
    MoveChangesIffSomeLineMoved(b, d);
    var k :| 0 <= k < Size && LineMoved(LineOf(b, d, k));
    LineMovedIffChanged(LineOf(b, d, k));
    ChangedLineHasRoom(LineOf(b, d, k));
    var j :| 0 <= j < Size && NewLine(LineOf(b, d, k))[j] == 0;
    AssembleAt(d, NewLines(b, d), k, j);
  }

  /** What the pass over line k contributes, as processLine reports it. */
  lemma LineReport(b: Board, d: Direction, k: nat, stack: seq<Slot>, m: bool, w: bool)
    requires ValidBoard(b) && k < Size
    requires var group := TilesOf(LineOf(b, d, k));
      && stack == Merge(TileValues(group))
      && (w <==> ProducesWin(stack))
      && (m <==> MergedCount(stack) > 0 || exists i :: 0 <= i < |group| && group[i].pos != i)
    ensures LineResult(stack, m, w) == Results(b, d)[k]
    ensures |stack| <= Size && Pad(Values(stack), Size) == NewLines(b, d)[k]
  {
  }

  lemma PrefixStep<T>(s: seq<T>, k: nat)
    requires k < |s|
    ensures s[..k + 1] == s[..k] + [s[k]]
  {
  }

  lemma TotalsPush(rs: seq<LineResult>, r: LineResult)
    ensures TotalScore(rs + [r]) == TotalScore(rs) + MergedSum(r.stack)
    ensures AnyMoved(rs + [r]) == (AnyMoved(rs) || r.moved)
    ensures AnyWon(rs + [r]) == (AnyWon(rs) || r.won)
  {
    assert (rs + [r])[..|rs|] == rs;
  }

  /** The four reports of a move determine its board, score, movement and win. */
  lemma MoveOutcome(b: Board, d: Direction, lines: seq<seq<nat>>, results: seq<LineResult>)
    requires ValidBoard(b)
    requires lines == NewLines(b, d)[..Size] && results == Results(b, d)[..Size]
    ensures ValidLines(lines) && Assemble(d, lines) == MoveBoard(b, d)
    ensures TotalScore(results) == MoveScore(b, d)
    ensures AnyMoved(results) <==> MoveBoard(b, d) != b
    ensures AnyWon(results) <==> MoveWins(b, d)
  {
    assert lines == NewLines(b, d);
    assert results == Results(b, d);
    MoveChangesIffSomeLineMoved(b, d);
    ResultsMovedIff(b, d);
  }

  /** move: one pass of processLine per row (left, right) or column (up, down). */
  method Move(b: Board, d: Direction) returns (b': Board, scoreAdd: nat, moved: bool, won: bool)
    requires ValidBoard(b)
    ensures b' == MoveBoard(b, d)
    ensures scoreAdd == MoveScore(b, d)
    ensures moved <==> b' != b
    ensures won <==> MoveWins(b, d)
  {
    var lines: seq<seq<nat>> := [];
    ghost var results: seq<LineResult> := [];
    scoreAdd, moved, won := 0, false, false;
    for k := 0 to Size
      invariant results == Results(b, d)[..k]
      invariant lines == NewLines(b, d)[..k]
      invariant scoreAdd == TotalScore(results)
      invariant moved == AnyMoved(results)
      invariant won == AnyWon(results)
    {
      var group := TilesOf(LineOf(b, d, k));
      var stack, add, m, w := ProcessLine(group);
      LineReport(b, d, k, stack, m, w);
      PrefixStep(Results(b, d), k);
      PrefixStep(NewLines(b, d), k);
      TotalsPush(results, LineResult(stack, m, w));
      results := results + [LineResult(stack, m, w)];
      lines := lines + [Pad(Values(stack), Size)];
      scoreAdd := scoreAdd + add;
      moved := moved || m;
      won := won || w;
    }
    MoveOutcome(b, d, lines, results);
    b' := Assemble(d, lines);
  }

  // ---------------------------------------------------------------------
  // Spawning
  // ---------------------------------------------------------------------

  /** The free cells of row r left of column c, left to right. */
  function RowEmpties(b: Board, r: nat, c: nat): seq<(nat, nat)>
    requires ValidBoard(b) && r < Size && c <= Size
  {
    if c == 0 then []
    else RowEmpties(b, r, c - 1) + (if b[r][c - 1] == 0 then [(r, c - 1)] else [])
  }

  /** The free cells of the rows above row r, in row-major order. */
  function EmptyRows(b: Board, r: nat): seq<(nat, nat)>
    requires ValidBoard(b) && r <= Size
  {
    if r == 0 then [] else EmptyRows(b, r - 1) + RowEmpties(b, r - 1, Size)
  }

  function EmptyCells(b: Board): seq<(nat, nat)>
    requires ValidBoard(b)
  {
    EmptyRows(b, Size)
  }

  lemma {:induction false} RowEmptiesAre(b: Board, r: nat, c: nat)
    requires ValidBoard(b) && r < Size && c <= Size
    ensures forall p :: p in RowEmpties(b, r, c) <==> p.0 == r && p.1 < c && b[r][p.1] == 0
  {
    if c > 0 {
      RowEmptiesAre(b, r, c - 1);
    }
  }

  lemma {:induction false} EmptyRowsAre(b: Board, r: nat)
    requires ValidBoard(b) && r <= Size
    ensures forall p :: p in EmptyRows(b, r) <==> p.0 < r && p.1 < Size && b[p.0][p.1] == 0
  {
    if r > 0 {
      EmptyRowsAre(b, r - 1);
      RowEmptiesAre(b, r - 1, Size);
    }
  }

  /** The tile createRandomTile returns: a cell drawn among the free cells
      (index pick modulo their number) holding 4 when `four` and 2 otherwise;
      None when the board is full. */
  function SpawnChoice(b: Board, pick: nat, four: bool): Option<(nat, nat, nat)>
    requires ValidBoard(b)
  {
    var cells := EmptyCells(b);
    if |cells| == 0 then None
    else Some((cells[pick % |cells|].0, cells[pick % |cells|].1, if four then 4 else 2))
  }

  /** A spawned tile goes only to a free cell and is a 2 or a 4; there is no
      tile to spawn exactly when the board is full. */
  lemma SpawnOnFreeCell(b: Board, pick: nat, four: bool)
    requires ValidBoard(b)
    ensures SpawnChoice(b, pick, four).None? <==> Full(b)
    ensures SpawnChoice(b, pick, four).Some? ==>
              var t := SpawnChoice(b, pick, four).value;
              t.0 < Size && t.1 < Size && b[t.0][t.1] == 0 && (t.2 == 2 || t.2 == 4)
  {
    var cells := EmptyCells(b);
    EmptyRowsAre(b, Size);
    if !Full(b) {
      var r, c :| 0 <= r < Size && 0 <= c < Size && b[r][c] == 0;
      assert (r, c) in cells;
    }
  }

  /** createRandomTile: collects the free cells row by row, then draws one. */
  method CreateRandomTile(b: Board, pick: nat, four: bool) returns (t: Option<(nat, nat, nat)>)
    requires ValidBoard(b)
    ensures t == SpawnChoice(b, pick, four)
  {
    var emptyCells: seq<(nat, nat)> := [];
    for r := 0 to Size
      invariant emptyCells == EmptyRows(b, r)
    {
      for c := 0 to Size
        invariant emptyCells == EmptyRows(b, r) + RowEmpties(b, r, c)
      {
        if b[r][c] == 0 {
          emptyCells := emptyCells + [(r, c)];
        }
      }
    }
    if |emptyCells| == 0 {
      return None;
    }
    var cell := emptyCells[pick % |emptyCells|];
    t := Some((cell.0, cell.1, if four then 4 else 2));
  }

  // ---------------------------------------------------------------------
  // The game
  // ---------------------------------------------------------------------

  datatype State = State(board: Board, score: nat, gameOver: bool, hasWon: bool, keepPlaying: bool)

  predicate Blocked(s: State) {
    s.gameOver || (s.hasWon && !s.keepPlaying)
  }

  function Place(b: Board, t: (nat, nat, nat)): Board
    requires ValidBoard(b) && t.0 < Size && t.1 < Size
  {
    var row: seq<nat> := b[t.0][t.1 := t.2];
    b[t.0 := row]
  }

  /** One key press: the move, and after a successful move the new tile and
      the game-over check. `pick` and `four` stand for the two random draws. */
  method Play(s: State, d: Direction, pick: nat, four: bool) returns (s': State)
    requires ValidBoard(s.board)
    ensures ValidBoard(s'.board)
    ensures Blocked(s) ==> s' == s
    ensures !Blocked(s) && MoveBoard(s.board, d) == s.board ==> s' == s
    ensures !Blocked(s) && MoveBoard(s.board, d) != s.board ==>
              var moved := MoveBoard(s.board, d);
              var t := SpawnChoice(moved, pick, four);
              && t.Some?
              && t.value.0 < Size && t.value.1 < Size
              && moved[t.value.0][t.value.1] == 0
              && (t.value.2 == 2 || t.value.2 == 4)
              && s'.board == Place(moved, t.value)
              && s'.score == s.score + MoveScore(s.board, d)
              && s'.hasWon == (s.hasWon || MoveWins(s.board, d))
              && s'.gameOver == (Full(s'.board) && !HasEqualNeighbours(s'.board))
              && s'.keepPlaying == s.keepPlaying
  {
    if Blocked(s) {
      return s;
    }
    var b, scoreAdd, moved, won := Move(s.board, d);
    if !moved {
      return s;
    }
    MovedBoardHasRoom(s.board, d);
    SpawnOnFreeCell(b, pick, four);
    var t := CreateRandomTile(b, pick, four);
    var withNew := Place(b, t.value);
    var gameOver := false;
    if Full(withNew) {
      var canMove := CanMove(withNew);
      if !canMove {
        gameOver := true;
      }
    }
    s' := State(withNew, s.score + scoreAdd, gameOver, s.hasWon || won, s.keepPlaying);
  }

  /** Two 2-tiles side by side merge into one 4 at the front of the line,
      for a score of 4. */
  lemma TwoTwosMerge()
    ensures NewLine([2, 2, 0, 0]) == [4, 0, 0, 0]
    ensures MergedSum(Merge(TileValues(TilesOf([2, 2, 0, 0])))) == 4
  {
    var row := [2, 2, 0, 0];
    assert TilesFrom(row, 3) == [] && TilesFrom(row, 2) == [];
    assert TilesOf(row) == [Tile(2, 0), Tile(2, 1)];
    MergePair(2, []);
    assert Merge([2, 2]) == [Slot(4, true)];
  }

  /** A tile made by a merge does not merge again in the same move:
      2, 2, 4 becomes 4, 4 and not 8. */
  lemma MergedTileDoesNotMergeAgain()
    ensures NewLine([2, 2, 4, 0]) == [4, 4, 0, 0]
  {
    var row := [2, 2, 4, 0];
    assert TilesFrom(row, 3) == [] && TilesFrom(row, 2) == [Tile(4, 2)];
    assert TilesOf(row) == [Tile(2, 0), Tile(2, 1), Tile(4, 2)];
    assert TileValues(TilesOf(row)) == [2, 2] + [4];
    MergeAlone(4, []);
    MergePair(2, [4]);
  }
}

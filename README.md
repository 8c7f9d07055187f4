# Library of Games — a verified model of the game rules and the coin economy

This project models, in Dafny, the rules of the mini-games of the Library of
Games web app and the coin and profile economy around them:

- **2048** (`game2048.dfy`): a move slides and merges every row or column toward
  the move direction (one `processLine` pass per line), a new 2 or 4 is spawned on
  a free cell chosen by the caller, and a scan of neighbours decides game over.
- **Snake** (`snake.dfy`): the tick on a 20 × 20 grid (walls, self collision,
  eating, growing), the reset, and the arrow-key direction guard.
- **Minesweeper** (`minesweeper.dfy`): the 10 × 10 grid, mines placed on the first
  reveal outside the 3 × 3 safe zone around the clicked cell, neighbour counts,
  the recursive flood fill, the win check and flagging.
- **Checkers** (`checkers.dfy`): the start layout, the moves of men and kings
  (captures in all four diagonals), selection, moving, capturing, crowning and
  multi-jumps.
- **Tetris** (`tetris.dfy`): the 20 × 10 well as a class whose fields the game
  updates in place; collision, rotation, merging, line clearing with 100 points a
  line, gravity and the key handlers.
- **Klondike solitaire** (`solitaire.dfy`): the deck built and shuffled in place
  (Fisher–Yates), the deal into seven columns, drawing and recycling the waste,
  and every card click with its moving rules.
- **Clicker** (`clicker.dfy`): the reward tiers of a 60-second clicking round.
- **The shell** (`ledger.dfy`, `profiles.dfy`, `shop.dfy`, `profile.dfy`,
  `hub.dfy`): the coin balance (spend only when covered), the profile record and
  its partial updates, the shop (themes bought once and toggled, boosts bought
  again and again), the settings panel (renaming, avatars), the favourites and the
  game list filter. `Hub.App` holds the application state and carries out the
  panels' requests.

Random choices (the cell of a new 2048 tile, the food cell, the mine draws, the
shuffle's swap partners, the next Tetris piece) are parameters, constrained by the
same filters the code applies. Boards are values; the parts of the code that loop
are methods with loop invariants, proved against the functions that specify them.

The Snake tick treats a move onto the current tail cell as a collision, as the
code does (components/GameMechanics.tsx:300): `Snake.Collides` tests the whole
body before the move.

## Model

| member | source | states |
|---|---|---|
| Game2048.Merge | components/GameMechanics.tsx:87-115 | the greedy front merge of a line's values never yields more slots than tiles |
| Game2048.ProcessIsMerge | components/GameMechanics.tsx:87-115 | the stack that processLine builds tile by tile equals the greedy front merge of the line |
| Game2048.ProcessLine | components/GameMechanics.tsx:87-115 | the loop builds exactly the merged stack; its score is the sum of the doubled survivors, it reports a win exactly when some merge made 2048, and "moved" exactly when a tile merged or changed position |
| Game2048.MergeConsumesEachTileOnce | components/GameMechanics.tsx:91-97 | every tile either survives on the stack or is absorbed by exactly one merge: a tile merges at most once per move |
| Game2048.MergeKeepsTotal | components/GameMechanics.tsx:91-98 | merging neither creates nor destroys value: the line's total is unchanged |
| Game2048.MergedSurvivorDoubles | components/GameMechanics.tsx:91-97 | each merged tile is twice two equal neighbouring input tiles |
| Game2048.NoMergeKeepsValues | components/GameMechanics.tsx:101-112 | without a merge the values come out unchanged and in order |
| Game2048.MergePair | components/GameMechanics.tsx:91-97 | two equal values at the front of a line merge into one doubled tile |
| Game2048.MergeAlone | components/GameMechanics.tsx:91-112 | a value followed by nothing or a different value stays alone |
| Game2048.MergeKeepsPositive | components/GameMechanics.tsx:87-115 | merging live tiles yields only live tiles |
| Game2048.StackAfterCount | components/GameMechanics.tsx:88-114 | after each tile of a line, the stack size plus the merges so far equal the tiles processed |
| Game2048.DistinctNeighboursDoNotMerge | components/GameMechanics.tsx:91 | a line with no two equal neighbours does not merge |
| Game2048.MergedTileDoesNotMergeAgain | components/GameMechanics.tsx:91-97 | [2,2,4,_] becomes [4,4,_,_]: the new 4 does not absorb the old 4 in the same move |
| Game2048.TwoTwosMerge | components/GameMechanics.tsx:91-99 | [2,2,_,_] becomes [4,_,_,_] and scores 4 |
| Game2048.LineMovedIffChanged | components/GameMechanics.tsx:100-110 | a line reports a move exactly when its cells change |
| Game2048.ChangedLineHasRoom | components/GameMechanics.tsx:101-112 | a line that changes leaves at least one free cell behind |
| Game2048.StuckLine | components/GameMechanics.tsx:91-110 | a full line with all neighbours different cannot move |
| Game2048.AssembleLinesOf | components/GameMechanics.tsx:117-121 | reading the lines toward a direction and writing them back gives the same board |
| Game2048.MoveChangesIffSomeLineMoved | components/GameMechanics.tsx:117-123 | a move changes the board exactly when some line moves |
| Game2048.MovedLineChangesBoard | components/GameMechanics.tsx:117-123 | one moving line is enough to change the board |
| Game2048.StillLinesKeepBoard | components/GameMechanics.tsx:123-152 | when no line moves the board is unchanged |
| Game2048.MoveWinsIff | components/GameMechanics.tsx:99-126 | a move wins exactly when one of its lines produced 2048 |
| Game2048.Move | components/GameMechanics.tsx:69-126 | the four processLine passes give the moved board, the move's score, "moved" exactly when the board changed, and the win flag |
| Game2048.CanMove | components/GameMechanics.tsx:132-145 | the game-over scan finds a move exactly when two horizontally or vertically adjacent cells are equal |
| Game2048.StuckBoardCannotMove | components/GameMechanics.tsx:132-144 | on a full board without equal neighbours no move changes anything, so game over is final |
| Game2048.MovedBoardHasRoom | components/GameMechanics.tsx:123-130 | a move that changes the board always leaves a free cell for the new tile |
| Game2048.SpawnOnFreeCell | components/GameMechanics.tsx:48-66 | a spawned tile goes only to a cell with no live tile and has value 2 or 4; nothing spawns only on a full board |
| Game2048.CreateRandomTile | components/GameMechanics.tsx:48-66 | the row-by-row scan collects the free cells and draws exactly the specified one |
| Game2048.Play | components/GameMechanics.tsx:69-152 | a blocked game or a move that changes nothing returns the state unchanged with no spawn; otherwise a 2 or 4 lands on a free cell of the moved board, the score grows by the move's score, the win flag is raised by a 2048 merge, and game over is set exactly when the new board is full with no equal neighbours |
| Snake.Tick | components/GameMechanics.tsx:288-315 | the score rises by one exactly when the snake grows by one; a tick that ends the game leaves the snake where it was |
| Snake.InactiveTickIsNoOp | components/GameMechanics.tsx:289 | a paused or finished game does not move |
| Snake.CollisionEndsGame | components/GameMechanics.tsx:297-304 | a head off the grid or on any current segment, tail included, sets game over and changes nothing else |
| Snake.EatingGrows | components/GameMechanics.tsx:306-309 | reaching the food adds the new head, keeps the tail, scores one and places new food |
| Snake.PlainMoveShifts | components/GameMechanics.tsx:306-312 | any other move adds the new head and drops the last cell |
| Snake.TickKeepsValid | components/GameMechanics.tsx:288-315 | with the corrected guard, a tick keeps the snake inside the grid, without repeated cells, each segment next to the one before, and the queued direction never reversing the last move |
| Snake.TickKeepsShape | components/GameMechanics.tsx:288-315 | from any state, including the reversed ones the guard as written lets through, a tick keeps the snake inside the grid, without repeated cells and each segment next to the one before |
| Snake.ReversedTickEndsGame | components/GameMechanics.tsx:293-304 | a queued direction that reverses the last move sends the head onto the neck, which ends the game and leaves the snake in place |
| Snake.Reset | components/GameMechanics.tsx:279-286 | the reset state holds the four-cell start snake moving right, running and not over with score 0, and the new food cell on the grid; it is valid |
| Snake.InitialValid | components/GameMechanics.tsx:253-261 | the mount state is valid with a snake of four cells |
| Snake.PressAsWritten | components/GameMechanics.tsx:335-339 | a key press changes nothing but the queued direction and the pause flag; every arrow key unpauses and any other key changes nothing |
| Snake.PressAsWrittenKeepsShape | components/GameMechanics.tsx:335-339 | a key press handled as written keeps the snake's shape |
| Snake.ReversingKeyIgnoredAsWritten | components/GameMechanics.tsx:336-339 | the guard ignores a key that reverses the queued direction |
| Snake.DoublePressReversesAsWritten | components/GameMechanics.tsx:335-339 | moving right, Up then Left before the next tick turn the snake onto its neck and end the game |
| Snake.Press | components/GameMechanics.tsx:335-339 | the guard checked against the last move: a press changes nothing but the queued direction and the pause flag; every arrow key unpauses and any other key changes nothing |
| Snake.ReversingKeyIgnored | components/GameMechanics.tsx:336-339 | a key that reverses the last move is ignored |
| Snake.NeverIntoNeck | components/GameMechanics.tsx:293-301 | with that guard the next head is never the cell behind the head |
| Snake.PressAllKeepsValid | components/GameMechanics.tsx:328-339 | any number of presses between ticks keep the state valid and the snake where it is |
| Snake.PressKeepsValid | components/GameMechanics.tsx:328-339 | one key press keeps the state valid |
| Snake.DoublePressIsSafe | components/GameMechanics.tsx:335-339 | the same two presses with the corrected guard keep the game running |
| Minesweeper.InitGrid | components/GameMechanics.tsx:852-860 | the new grid is 10 × 10 with no mine and every cell hidden |
| Minesweeper.InitGame | components/GameMechanics.tsx:852-866 | the new game is consistent, waits for its first click, not over and not won |
| Minesweeper.CountAround | components/GameMechanics.tsx:894-899 | the neighbour loop counts exactly the mines in the in-bounds 3 × 3 block |
| Minesweeper.AroundAtMostEight | components/GameMechanics.tsx:894-900 | a cell that is not a mine has at most eight mines around it |
| Minesweeper.ZeroAroundNoMine | components/GameMechanics.tsx:915 | a count of 0 means no in-bounds neighbour is a mine |
| Minesweeper.NoMineZeroAround | components/GameMechanics.tsx:894-900 | with no mine among the neighbours the count is 0 |
| Minesweeper.NumberCells | components/GameMechanics.tsx:891-902 | the counting pass writes every non-mine cell's neighbour count and changes no mine |
| Minesweeper.NumberedCountsRight | components/GameMechanics.tsx:891-902 | after numbering every count is right |
| Minesweeper.PlaceMines | components/GameMechanics.tsx:876-888 | only mines change; every new mine is a drawn cell outside the safe zone; at most 15 are placed; with fewer than 15, every admissible draw became a mine; so when the draws hold enough distinct cells outside the safe zone, exactly 15 are placed |
| Minesweeper.ArmedDrawsAreMines | components/GameMechanics.tsx:876-888 | when every admissible draw is a mine, the grid holds at least as many mines as distinct admissible draws |
| Minesweeper.FloodFill | components/GameMechanics.tsx:912-920 | the fill only reveals cells, never a flagged one; it stops at once off the grid or on a revealed or flagged cell; it reveals the start cell alone when its count is not 0, fills completely around every zero it opens, opens only cells reached from the start through opened zero cells (each opened cell other than the start has an opened zero neighbour ranked before it), and reveals no mine when the start cell is safe |
| Minesweeper.FillAround | components/GameMechanics.tsx:915-919 | the 3 × 3 loop around an opened zero leaves every neighbour revealed or flagged, opens only cells reached from that block through opened zeros, and reveals no mine |
| Minesweeper.CutOffStaysClosed | components/GameMechanics.tsx:912-920 | a region without the start cell that no opened zero cell outside it touches stays closed: the fill never opens an unconnected part of the grid |
| Minesweeper.Reveal | components/GameMechanics.tsx:868-928 | a reveal on a finished game, a flagged or a revealed cell is ignored; otherwise the cell ends revealed, every flag is kept, no flagged cell is opened and no revealed cell closes; a later reveal keeps every mine and number, and on a mine or a numbered cell the grid is the old one with only (r, c) revealed; a mine ends the game with only (r, c) opened; a safe reveal is a complete fill of cells reached from (r, c) through opened zeros; the first reveal never hits a mine and, given at least 15 distinct admissible draws, leaves exactly 15 mines; the game is won exactly when no safe cell is hidden |
| Minesweeper.WonIff | components/GameMechanics.tsx:926-927 | no hidden safe cell is the same as every cell being a mine or revealed |
| Minesweeper.ToggleFlag | components/GameMechanics.tsx:930-936 | flagging flips the flag of one hidden cell of a running game: the cell's mine, revealed and count fields, every other cell and the game flags are kept; otherwise nothing changes |
| Minesweeper.ToggleFlagTwice | components/GameMechanics.tsx:930-936 | flagging twice restores the game, and flagging keeps it consistent |
| Checkers.InitBoard | components/GameMechanics.tsx:988-997 | the nested loops fill exactly the start layout |
| Checkers.StartLayout | components/GameMechanics.tsx:990-996 | pieces stand exactly on the dark squares of rows 0–2 (white) and 5–7 (red), none a king |
| Checkers.InitConsistent | components/GameMechanics.tsx:988-1003 | the start state is consistent |
| Checkers.StepMoves | components/GameMechanics.tsx:1010-1023 | a step goes to an empty diagonal neighbour, forward only for a man, and every such square is offered unless a multi-jump is under way |
| Checkers.JumpMoves | components/GameMechanics.tsx:1012-1038 | a capture jumps an adjacent enemy piece onto the empty square beyond, in all four diagonals for men and kings, and every such capture is offered |
| Checkers.StepsIff | components/GameMechanics.tsx:1015-1023 | the step list holds exactly the steps to an empty square one direction away |
| Checkers.JumpsIff | components/GameMechanics.tsx:1026-1038 | the capture list holds exactly the jumps over an adjacent enemy onto an empty square beyond, in one of the given directions |
| Checkers.ValidMoves | components/GameMechanics.tsx:1005-1041 | every capture is offered, and during a multi-jump only captures are |
| Checkers.CapturesOnly | components/GameMechanics.tsx:1054-1059 | filtering keeps exactly the capture moves |
| Checkers.CapturesOfValidMoves | components/GameMechanics.tsx:1054-1098 | the captures among the valid moves are the capture list, in order |
| Checkers.FindMove | components/GameMechanics.tsx:1068 | the move found lands on the clicked square; when none is found no highlighted move does |
| Checkers.HandleClick | components/GameMechanics.tsx:1043-1110 | a click keeps the game state consistent |
| Checkers.LockedDuringMultiJump | components/GameMechanics.tsx:1049 | during a multi-jump a click on another own piece changes nothing |
| Checkers.SelectingShowsMoves | components/GameMechanics.tsx:1047-1064 | outside a multi-jump a click on an own piece selects it with all its valid moves |
| Checkers.MoveOnBoard | components/GameMechanics.tsx:1019-1035 | every highlighted move lands on an empty square and jumps over an enemy piece |
| Checkers.Execute | components/GameMechanics.tsx:1070-1108 | the board becomes the moved board; the turn stays exactly on an uncrowned capture after which the piece can capture again, with that piece selected and locked and its captures shown; otherwise the turn passes and selection, moves and lock are cleared |
| Checkers.MoveEffect | components/GameMechanics.tsx:1070-1087 | a move empties the source, puts the piece (crowned on the far row) on the target, empties only the jumped square on a capture, and leaves every other square alone |
| Checkers.CaptureRemovesOne | components/GameMechanics.tsx:1078-1080 | a capture removes exactly one enemy piece, the jumped one |
| Checkers.TurnAfterMove | components/GameMechanics.tsx:1089-1108 | the turn stays exactly when the move was an uncrowned capture that can capture again, with the piece locked in and offered captures only; otherwise the turn passes and the selection clears |
| Checkers.IdleClick | components/GameMechanics.tsx:1068-1069 | a click that no highlighted move reaches changes nothing |
| Tetris.Rotated | components/GameMechanics.tsx:1293 | the turned shape is the quarter clockwise turn: row i is column i read from the bottom |
| Tetris.RotatedTwice | components/GameMechanics.tsx:1293 | two turns read rows and columns backwards |
| Tetris.RotateFourTimes | components/GameMechanics.tsx:1293 | four turns give the shape back |
| Tetris.FitMeansFree | components/GameMechanics.tsx:1275-1289 | a piece that does not collide lies between the walls, above the floor, and covers only empty cells |
| Tetris.StampPaintsPiece | components/GameMechanics.tsx:1301-1309 | merging a piece that fits paints exactly its cells, which were empty, and no other cell |
| Tetris.EmptyGrid | components/GameMechanics.tsx:1246-1255 | the new well is 20 × 10 with every cell empty |
| Tetris.Stamp | components/GameMechanics.tsx:1301-1309 | the double loop writes exactly the stamped well |
| Tetris.Kept | components/GameMechanics.tsx:1311-1318 | the rows kept are rows of the well and none is full |
| Tetris.ClearedIsWell | components/GameMechanics.tsx:1311-1318 | clearing keeps a 20 × 10 well and leaves no full row |
| Tetris.NoFullRowNoClear | components/GameMechanics.tsx:1312 | a well without a full row is left as it is and scores nothing |
| Tetris.KeptBlocks | components/GameMechanics.tsx:1312-1314 | each removed row takes exactly 10 blocks out |
| Tetris.ClearedBlocks | components/GameMechanics.tsx:1311-1318 | blocks after clearing plus 10 per cleared row equal the blocks before |
| Tetris.RemoveFullRows | components/GameMechanics.tsx:1311-1318 | the bottom-up scan with its re-scan after a removal gives exactly the cleared well and counts the full rows |
| Tetris.SpawnPiece | components/GameMechanics.tsx:1259-1267 | a new piece is a rectangular shape in the top row |
| Tetris.SpawnFitsEmptyWell | components/GameMechanics.tsx:1262-1269 | every piece type spawns clear of the walls of an empty well |
| Tetris.Game.constructor | components/GameMechanics.tsx:1423-1433 | a new game has an empty well, score 0, a running game and a fresh piece |
| Tetris.Game.CheckCollision | components/GameMechanics.tsx:1275-1289 | the loop reports a hit exactly when the moved shape collides |
| Tetris.Game.InitPiece | components/GameMechanics.tsx:1259-1273 | the new piece replaces the old one; a spawn that collides ends the game and stops it |
| Tetris.Game.StartGame | components/GameMechanics.tsx:1423-1433 | an empty well, score 0, a running game and a fresh piece |
| Tetris.Game.Rotate | components/GameMechanics.tsx:1291-1297 | the piece turns unless the turned shape collides, and nothing else changes |
| Tetris.Game.Shift | components/GameMechanics.tsx:1449-1454 | the piece moves one column unless it would collide, and nothing else changes |
| Tetris.Game.ClearLines | components/GameMechanics.tsx:1311-1318 | the well loses its full rows and the score gains 100 a row |
| Tetris.Game.Merge | components/GameMechanics.tsx:1299-1320 | the well becomes the stamped well with its full rows cleared, the score gains 100 per cleared row, a new piece spawns and the game is over exactly when it collides |
| Tetris.Game.Drop | components/GameMechanics.tsx:1322-1328 | the piece falls one row when the row below is free; otherwise it merges: stamped and cleared well, 100 points a row, a new piece, game over and a stop exactly when that piece collides |
| Tetris.Game.Frame | components/GameMechanics.tsx:1408-1418 | a stopped game is left alone; a running one drops: one row down when free, otherwise merged with its rows cleared and scored and a new piece spawned, stopping exactly when that piece collides |
| Tetris.Game.KeyDown | components/GameMechanics.tsx:1438-1461 | after game over only R does anything, and it restarts with an empty well, score 0 and a fresh running piece; otherwise left and right shift the piece unless it would collide, up turns it unless the turned shape collides, down starts the soft drop, other keys leave the piece, and the well, score and running flag stay |
| Tetris.Game.KeyUp | components/GameMechanics.tsx:1463-1468 | releasing down ends the soft drop and changes nothing else |
| Solitaire.OrderedDeckAt | components/GameMechanics.tsx:1506-1516 | the card of suit si and rank v is at position 13·si + v − 1, face down |
| Solitaire.OrderedDeckDistinct | components/GameMechanics.tsx:1506-1516 | no card appears twice in the built deck |
| Solitaire.OrderedDeckCounts | components/GameMechanics.tsx:1506-1516 | the built deck holds each of the 52 cards once and nothing else |
| Solitaire.Shuffle | components/GameMechanics.tsx:1518-1521 | the in-place swaps keep exactly the cards of the array |
| Solitaire.CreateDeck | components/GameMechanics.tsx:1505-1523 | the shuffled deck is a permutation of the 52-card deck |
| Solitaire.ShuffledDeckIsComplete | components/GameMechanics.tsx:1505-1523 | a shuffled deck has 52 face-down cards of rank 1 to 13 and contains every card |
| Solitaire.Deal | components/GameMechanics.tsx:1525-1535 | the first 24 cards stay in the deck and column i is the i + 1 cards popped for it |
| Solitaire.DealShape | components/GameMechanics.tsx:1528-1533 | column i has i + 1 cards of which only the last is face up |
| Solitaire.DealtColumnsInPopOrder | components/GameMechanics.tsx:1528-1533 | the columns one after another are the last 28 cards of the deck in pop order |
| Solitaire.DealKeepsCards | components/GameMechanics.tsx:1525-1538 | the deck and the seven columns together hold exactly the cards of the shuffled deck |
| Solitaire.NewGame | components/GameMechanics.tsx:1525-1540 | a new game has 24 cards in the deck, empty foundations and waste, column i with i + 1 cards and only its last face up, and every card exactly once |
| Solitaire.DrawCard | components/GameMechanics.tsx:1542-1556 | a draw keeps the table well formed and clears the selection |
| Solitaire.DrawKeepsCards | components/GameMechanics.tsx:1542-1556 | drawing and recycling keep every card on the table |
| Solitaire.DrawKeepsGood | components/GameMechanics.tsx:1549-1553 | the waste stays face up |
| Solitaire.DrawsMoveTopCards | components/GameMechanics.tsx:1549-1553 | k draws put the deck's top k cards face up on the waste in drawing order |
| Solitaire.DrawCycleRestoresDeck | components/GameMechanics.tsx:1543-1547 | drawing a face-down deck through and clicking the empty deck restores it in its original order |
| Solitaire.FlipTop | components/GameMechanics.tsx:1568-1652 | turning the top card up changes no card, only that face |
| Solitaire.HandleCardClick | components/GameMechanics.tsx:1558-1666 | a click keeps the table well formed |
| Solitaire.TableauAccepts | components/GameMechanics.tsx:1586 | an empty column takes exactly a King; otherwise exactly a card of the other colour one rank below the top |
| Solitaire.FoundationAccepts | components/GameMechanics.tsx:1601 | an empty foundation takes exactly an Ace; otherwise exactly the next rank of the top card's suit |
| Solitaire.Legal | components/GameMechanics.tsx:1579-1654 | a legal move has a selection and a column or foundation target, never its own column, and goes to a foundation only from the top card of a column |
| Solitaire.IllegalTargetChangesNoZone | components/GameMechanics.tsx:1579-1663 | with a card selected, a target that does not accept it only clears the selection (a second click on the waste keeps it) |
| Solitaire.LegalMoveLands | components/GameMechanics.tsx:1579-1654 | a legal move clears the selection, takes the cards off their source (turning the new top of a column up) and puts them on the target; the deck and every column and foundation it does not touch stay as they were |
| Solitaire.OnlyKingsFillEmptyColumns | components/GameMechanics.tsx:1586-1622 | only a King lands on an empty column |
| Solitaire.ClickKeepsGood | components/GameMechanics.tsx:1558-1666 | clicks keep every foundation an Ace-up run of one suit, every non-empty column's top face up and the waste face up |
| Solitaire.ClickKeepsCards | components/GameMechanics.tsx:1558-1666 | a click moves cards between zones but never creates or loses one |
| Solitaire.WasteMoveKeepsCards | components/GameMechanics.tsx:1579-1612 | moving the waste's top card keeps every card on the table |
| Solitaire.TableauMoveKeepsCards | components/GameMechanics.tsx:1615-1661 | moving a run between columns or a card to a foundation keeps every card on the table |
| Solitaire.WasteMoveKeepsGood | components/GameMechanics.tsx:1579-1612 | a legal waste move keeps foundations, column tops and waste well formed |
| Solitaire.TableauMoveKeepsGood | components/GameMechanics.tsx:1615-1661 | a legal column move keeps foundations, column tops and waste well formed |
| Clicker.TierBands | components/GameMechanics.tsx:766-770 | up to 100 clicks: 0 coins, "Начинающий"; 101–300: 50, "Любитель"; 301–500: 150, "Быстрые пальчики"; above 500: 300, "Бог клика" |
| Clicker.TierFor | components/GameMechanics.tsx:766-773 | the reward never exceeds 300 coins, and it is 0 exactly when the rank is the lowest |
| Clicker.RewardMonotone | components/GameMechanics.tsx:766-770 | more clicks never earn less |
| Clicker.RewardPaidIff | components/GameMechanics.tsx:766-773 | coins are paid exactly when the count passes 100 |
| Clicker.RankDeterminesReward | components/GameMechanics.tsx:766-770 | the rank shown names the reward |
| Clicker.Start | components/GameMechanics.tsx:741-757 | a round starts with count 0 and 60 seconds, and its timer keeps the count seen at the start |
| Clicker.TickAsWritten | components/GameMechanics.tsx:749-773 | a second of the timer keeps the count; before the last second it only counts down and pays nothing; at the last second the round ends, shows the result and pays and ranks by the count captured at the start |
| Clicker.Tick | components/GameMechanics.tsx:749-773 | the same timer step, paying and ranking at the last second by the round's own count |
| Clicker.Click | components/GameMechanics.tsx:776-779 | a click counts only during a round |
| Clicker.Clicks | components/GameMechanics.tsx:776-779 | during a round, n clicks raise the count by exactly n |
| Clicker.RunOutAsWritten | components/GameMechanics.tsx:750-773 | when the time runs out the round pays and ranks by the count its timer captured at the start |
| Clicker.FirstRoundPaysNothingAsWritten | components/GameMechanics.tsx:741-773 | 600 clicks in the first round end with no coins and the lowest rank |
| Clicker.ReplayPaysPreviousRoundAsWritten | components/GameMechanics.tsx:741-773 | a replayed round is paid for the previous round's clicks |
| Clicker.RunOut | components/GameMechanics.tsx:750-773 | with the round's own count, the round pays and ranks by its clicks |
| Clicker.FirstRoundPays | components/GameMechanics.tsx:766-773 | 600 clicks earn 300 coins and the top rank |
| Clicker.RoundPaysOwnClicks | components/GameMechanics.tsx:741-773 | every round is paid and ranked for its own clicks |
| Ledger.Spend | App.tsx:120-132 | a spend succeeds exactly when the balance covers it, subtracting exactly the amount; otherwise the balance is unchanged; a non-negative balance stays non-negative |
| Ledger.Earn | App.tsx:113-114 | earning raises the balance by exactly the amount |
| Ledger.EarnUndoesSpend | App.tsx:113-132 | earning back a successful spend restores the balance |
| Ledger.SpendNeverRaises | App.tsx:120-132 | a spend of a non-negative amount never raises the balance |
| Profiles.Apply | App.tsx:134-136 | an update overwrites exactly the fields it carries; every other field keeps its value |
| Profiles.ApplyNoFields | App.tsx:134-136 | an empty update changes nothing |
| Profiles.ApplyIdempotent | App.tsx:134-136 | sending the same update twice is sending it once |
| Profiles.ApplyThen | App.tsx:134-136 | two updates in a row are one update where the later fields win |
| Profiles.InitialProfile | App.tsx:26-36 | a new player wears the default avatar, owns only it, has no items or boosts, the default theme and a free rename |
| Shop.Purchase | components/Shop.tsx:20-54 | every click shows a message, and the only error, the shortfall, is exactly the case that sends no update |
| Shop.IsOwned | components/Shop.tsx:56 | an item is owned exactly when some inventory entry is its id |
| Shop.IsActive | components/Shop.tsx:57-61 | a theme is active exactly when it is the profile's theme, a boost exactly when its id is among the active boosts |
| Shop.OwnedThemeToggles | components/Shop.tsx:25-35 | a click on an owned theme spends nothing and switches it off if active, on otherwise; nothing else changes |
| Shop.ToggleTwiceRestores | components/Shop.tsx:25-35 | two clicks on an owned non-default theme restore the profile |
| Shop.ShortOfCoins | components/Shop.tsx:38-53 | without enough coins the click shows the positive shortfall and neither spends nor updates |
| Shop.BuyTheme | components/Shop.tsx:38-45 | buying a theme charges its price, appends it to the inventory and activates it, so it is then owned and active |
| Shop.BuyBoost | components/Shop.tsx:38-48 | buying a boost charges its price and appends it again even when already active |
| Shop.PurchaseOnlyAppends | components/Shop.tsx:20-54 | a purchase only appends to the inventory and the boosts and leaves the name and avatar alone |
| ProfileSettings.TrimStart | components/ProfileSettings.tsx:30-31 | leading white space is cut, nothing else |
| ProfileSettings.TrimEnd | components/ProfileSettings.tsx:30-31 | trailing white space is cut, nothing else |
| ProfileSettings.TrimIsSlice | components/ProfileSettings.tsx:30-31 | the trimmed name is a slice of the input with only white space cut on either side |
| ProfileSettings.TrimmedHasNoOuterSpace | components/ProfileSettings.tsx:30-31 | a trimmed name starts and ends with something other than white space |
| ProfileSettings.TrimIdempotent | components/ProfileSettings.tsx:30-31 | trimming twice is trimming once |
| ProfileSettings.SameNameIsNoOp | components/ProfileSettings.tsx:30 | a name equal to the current one after trimming does nothing at all |
| ProfileSettings.SaveNameAsWritten | components/ProfileSettings.tsx:26-49 | it charges 5000, and only then, when the trimmed name differs, has three characters or more and the free change is used; it updates exactly when such a change is free or covered, storing the name untrimmed |
| ProfileSettings.SaveName | components/ProfileSettings.tsx:26-49 | the same guards and charge, storing the trimmed name |
| ProfileSettings.ShortNameRefused | components/ProfileSettings.tsx:31-34 | a new name under three characters is refused with an error and no spend or update, as written and corrected |
| ProfileSettings.FirstRenameIsFree | components/ProfileSettings.tsx:36-39 | the first change spends nothing, renames and records that the free change is used; as written the input is stored as typed, corrected it is stored trimmed |
| ProfileSettings.LaterRenameCosts | components/ProfileSettings.tsx:41-47 | later changes ask for 5000 coins and rename exactly when the balance covers them (as typed as written, trimmed corrected); otherwise an error and no change |
| ProfileSettings.ResaveChargesAsWritten | components/ProfileSettings.tsx:30-43 | a name with a trailing space is stored with it, and saving the same input again charges 5000 coins for no change |
| ProfileSettings.ResaveIsFree | components/ProfileSettings.tsx:30-43 | a saved name is stored trimmed, and saving the same input again costs nothing and changes nothing |
| ProfileSettings.UnlockedAvatarIsFree | components/ProfileSettings.tsx:55-57 | an unlocked avatar is put on without spending |
| ProfileSettings.SelectAvatar | components/ProfileSettings.tsx:51-70 | only a locked avatar is charged, at its price; the avatar is put on exactly when it is unlocked or its price is covered |
| ProfileSettings.LockedAvatarIsBought | components/ProfileSettings.tsx:59-68 | a locked avatar asks for its price; when covered it is worn and appended to the unlocked list, otherwise nothing changes |
| ProfileSettings.BoughtAvatarStaysUnlocked | components/ProfileSettings.tsx:55-68 | the unlocked list only grows, and an avatar once chosen is free to choose again |
| Hub.LowerChar | App.tsx:100 | Latin capitals map to their small letters and no other character becomes a Latin small letter |
| Hub.Lower | App.tsx:100 | lower-casing maps each character and keeps the length |
| Hub.LowerIdempotent | App.tsx:100 | lower-casing twice is lower-casing once |
| Hub.QueryIgnoresCase | App.tsx:100 | the search does not depend on the case of the query |
| Hub.Filtered | App.tsx:99-109 | a game is listed exactly when its lower-cased name contains the lower-cased query and it matches the filter (category, or favourite) |
| Hub.App.Listing | App.tsx:99-109 | the games on screen are exactly the catalogue games whose name contains the query and that match the filter; an empty query with 'all' shows the whole catalogue |
| Hub.EverythingListed | App.tsx:99-109 | with an empty query and the 'all' filter every game is listed, in order |
| Hub.FilterNarrows | App.tsx:99-109 | a category or favourites filter lists no game that the 'all' filter hides |
| Hub.Toggled | App.tsx:160-167 | toggling flips the membership of the game and leaves every other id alone |
| Hub.ToggleTwice | App.tsx:160-167 | toggling twice restores the favourites |
| Hub.App.constructor | App.tsx:26-40 | a new player has 1000 coins, no favourites and the guest profile |
| Hub.App.AddCoins | App.tsx:113-114 | the balance grows by the amount; nothing else changes |
| Hub.App.SpendCoins | App.tsx:120-132 | succeeds exactly when the balance covers the amount, subtracting exactly it; otherwise false and unchanged |
| Hub.App.UpdateUser | App.tsx:134-136 | the profile is merged with the update; nothing else changes |
| Hub.App.ToggleFavorite | App.tsx:160-167 | the favourites become the toggled set; nothing else changes |
| Hub.App.SetFilter | App.tsx:138-141 | only the filter changes |
| Hub.App.SetQuery | App.tsx:100 | only the search query changes |
| Hub.App.Perform | App.tsx:113-136 | a panel's request spends first and then merges its update |
| Hub.App.Purchase | components/Shop.tsx:20-54 | a shop click charges at most the item's price, only when the shop asked, keeps a non-negative balance, and merges the shop's update |
| Hub.App.SaveName | components/ProfileSettings.tsx:26-49 | a rename charges 5000 only on a paid change, and a changed name always marks the free change as used |
| Hub.App.SelectAvatar | components/ProfileSettings.tsx:51-70 | choosing an avatar charges its price only on a purchase, never for an unlocked one |

## Findings

| source | as written | input that shows it | evidently intended | confidence | as-written member | corrected member |
|---|---|---|---|---|---|---|
| components/GameMechanics.tsx:335-339 | each arrow key tests the reversal against the queued direction, which an earlier key of the same tick may have changed | moving right, press Up then Left before the next tick: the snake turns left onto its own neck and the game ends | test against the direction of the last move, so no key sequence reverses the snake | high; not executed | Snake.DoublePressReversesAsWritten | Snake.DoublePressIsSafe |
| components/ProfileSettings.tsx:30-43 | the guards use the trimmed name but the update stores the untrimmed input | a guest saves "Alice " (stored with the space); once the free change is used, saving "Alice " again passes the equality guard and charges 5000 coins for the same name | store the trimmed name, so saving the same input twice is a no-op | high; not executed | ProfileSettings.ResaveChargesAsWritten | ProfileSettings.ResaveIsFree |
| components/GameMechanics.tsx:741-773 | the interval created in startGame calls the endGame of that render, whose `count` is the value at the start of the round | the first round from the start screen: 600 clicks end with no coins and rank "Начинающий"; every replay is paid for the previous round | the reward and rank use the count of the round that just ended | high; not executed | Clicker.FirstRoundPaysNothingAsWritten | Clicker.RoundPaysOwnClicks |

The rest of the model uses the corrected definitions: `Snake.Press` in the
validity lemmas, `ProfileSettings.SaveName` in `Hub.App.SaveName`, and
`Clicker.RunOut` for the round's reward.

## Left out

- DinoGame and PaintGame are not part of this model: floating-point physics, random float sizes, canvas and mouse drawing.
- Rendering, animation and timers everywhere: JSX, canvas drawing (Tetris ghost piece included), `setTimeout`, `setInterval` and `requestAnimationFrame`. Timing is reduced to explicit steps (`Snake.Tick`, `Tetris.Game.Frame`, `Clicker.TickAsWritten`).
- Game2048: tile ids, the `isNew`/`isMerging` flags and the 150 ms deferred removal are dropped; the board is a 4 × 4 value grid, and the removal happens at once. `startNewGame`'s two initial tiles are two spawns, not a separate member.
- Game2048.Play: the 90% / 10% odds of a 2 or a 4 are a caller's boolean.
- Snake.Tick: the food is a parameter that the spawn loop's own filter accepts, checked against the snake before the move. The food may land on the new head, as it can in the code. The termination of the rejection loop is not modelled.
- Hub.App.SaveName: runs the corrected handler, which stores the trimmed name; the application as written stores the name as typed (`ProfileSettings.SaveNameAsWritten`, with `FirstRenameIsFree`, `LaterRenameCosts` and `ResaveChargesAsWritten` stating what it does).
- Snake.Reset: the food filter uses the snake from before the reset, as the code's closure does.
- Minesweeper: the shared-object aliasing of `toggleFlag`'s shallow copy is modelled as a value update. Mine draws are a finite sequence; if it runs out before 15 mines the loop stops (`PlaceMines` states what holds then).
- Checkers: `piece.isKing = true` changes the shared piece object after a shallow copy; the model crowns the copy on the target square only. The follow-up move list after a capture is filtered to captures, as in the code.
- Tetris: `dropInterval`, `lastTime`, the soft-drop speed (50 ms against 500 ms) and the pause flag are timing and are reduced to `Frame`. The random piece type is a parameter `t`. The colours are the hex strings of the seven piece types.
- Solitaire: the card `id` and `color` fields are derived from suit and rank. The React development double call of state updaters, which would push twice, is left out. The shuffle's random index is `picks[i] % (i + 1)`, and a pick is supplied for every step.
- Clicker: `level` is never used past its reset; the 60 one-second steps are `Tick` calls. `endGame` runs inside a state updater, which a development double call would repeat; that is left out.
- App.tsx I/O: the auth `fetch`, the Telegram WebApp setup, the haptic feedback calls, the score POST (`handleSaveScore`) and the drawer, menu and search-result UI state.
- Profiles.Apply: `tgId` is not part of an update, since no panel sends it; a key carried with the value `undefined` would overwrite a field in the code and has no counterpart here.
- Hub.Lower: only the Latin and Cyrillic capitals are lower-cased; the rest of Unicode case mapping is left out.
- ProfileSettings.TrimStart: the white-space set is the one that JavaScript trimming removes. Lengths count Unicode scalar values, not UTF-16 code units, so a name with characters outside the Basic Multilingual Plane may differ in the three-character check.
- Shop: the item kinds are `Boost` or a theme whose value is `DefaultTheme` or `Sakura`; the code's fall-through for other kinds cannot occur with these types. Success and error texts are message constructors, not formatted strings.
- server.py, GamePage.tsx, GameCard.tsx and Drawer.tsx are not part of this model; constants.ts and types.ts supply the prices, the catalogue and the record shapes.

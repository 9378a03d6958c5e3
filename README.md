# Othello engine and search bot in Dafny

This project models the core of a two-player Othello game on an 8 × 8 board.
It has two parts.

- **The live engine** (class `Othello`). It holds the board array, the player to
  move, each player's piece count ("points") and the games each player has won
  ("score"). A click on a cell is accepted only on an *indicator*: an empty
  cell next to a piece. An accepted click does four things:
  - places the piece;
  - marks the EMPTY neighbours as indicators;
  - outflanks along the row, the column and the diagonals;
  - updates the counts and passes the turn.

  When the board fills up, the player with strictly more pieces wins the game.
  On a tie nobody wins. Either way a new game starts from the seed position.
- **The search bot** (class `AI`, static methods). It does four things:
  - lists the indicator cells as moves;
  - plays a move on a copy of the board;
  - scores a position by its piece difference;
  - picks the move with the best minimax value, searched with alpha-beta pruning.

Cells hold `EMPTY = -1`, `INDICATOR = -2` or a player (`0` or `1`).

The model is laid out in modules:

| file | module | contents |
|---|---|---|
| `board.dfy` | `Board` | board values (`Grid = seq<seq<int>>`), the eight rays, what one ray outflanks (`Captures`, `FlipRay`), several rays in turn (`FlipSeq`, `FlipCount`), the indicator pass (`MarkIndicators`) |
| `count.dfy` | `Tally` | cell counts per value, and how single writes, outflanking and marking change them |
| `placement.dfy` | `Placement` | the whole board change of a move as the engine does it (`EngineBoard`) and as the bot does it (`BotBoard`); their agreement; the indicator invariant (`WellMarked`); the seed position |
| `scan.dfy` | `Scan` | array code shared by both parts: scanning and flipping a ray, setting indicators, copying a board, each proved against the value functions through `Snapshot` |
| `game.dfy` | `Match` | the engine state as a value (`Game`), one click as a value step (`PlayStep`), the display messages (`Notice`), bookkeeping and end-of-game lemmas |
| `othello.dfy` | `Engine` | class `Othello`, its methods updating the arrays in place and proved against `Match` |
| `search.dfy` | `Search` | the move list, the evaluation, plain minimax, alpha-beta as the bot computes it, the proof that the full window gives minimax, and the first-best-move choice |
| `ai.dfy` | `Bot` | the bot's array methods proved against `Search` |

The display object's calls are handled as follows:
- Calls that only repaint (pieces, indicators, counts, the player to move) are dropped.
- Calls that report a decision are appended to the engine's `notices` log: invalid move, pieces outflanked, tie, game won, match won.

The bot's static globals (`maximizingPlayer`, `nonMaximizingPlayer`) are the parameter `maxP`.

## Model

| member | source | states |
|---|---|---|
| Engine.Othello.constructor | Othello/Othello.java:41-80 | a new engine starts a match: no games won, seed position, player 1 to move, empty message log, invariant established |
| Engine.Othello.NewMatch | Othello/Othello.java:85-95 | the match score is cleared and the state is the value-level new game with score [0, 0] |
| Engine.Othello.NewGame | Othello/Othello.java:100-120 | seed board, player 1 to move, two pieces each (the four seeds tallied), match score unchanged |
| Engine.Othello.InitBoard | Othello/Othello.java:125-142 | clearing the board then placing the four seeds, each followed by its indicator pass, leaves exactly the seed position |
| Engine.Othello.ClearBoard | Othello/Othello.java:128-132 | every cell becomes EMPTY |
| Engine.Othello.ValidMove | Othello/Othello.java:150-159 | accepted iff the cell holds INDICATOR; a rejection appends exactly one invalid-move message and an acceptance appends none |
| Engine.Othello.UpdateBoard | Othello/Othello.java:167-179 | the board becomes the engine's move board (place, mark, outflank in ray order); points move by the reported flips; an outflank message when some pieces turned |
| Engine.Othello.Flank | Othello/Othello.java:191-204 | the row, the column and the diagonals outflanked in that order; the count returned is the exact number of pieces turned; points updated by it |
| Engine.Othello.FlankHori | Othello/Othello.java:214-250 | right then left ray: the board and the count are those of the two rays' captures |
| Engine.Othello.FlankVerti | Othello/Othello.java:260-296 | down then up ray, as for the row |
| Engine.Othello.FlankDiag | Othello/Othello.java:306-390 | the four diagonal rays in the source's order, as for the row |
| Engine.Othello.UpdateScore | Othello/Othello.java:397-412 | the mover gains flips + 1 and the other player loses flips |
| Engine.Othello.UpdateMatchScore | Othello/Othello.java:419-483 | on a full board the game is awarded (or tied) and a new game starts, with the tie / win / match-win messages; otherwise nothing changes |
| Engine.Othello.SetNextPlayer | Othello/Othello.java:488-494 | the turn passes to (player + 1) mod 2 |
| Engine.Othello.UpdateIndicators | Othello/Othello.java:502-547 | exactly the EMPTY neighbours of the cell become indicators, nothing else changes |
| Engine.Othello.GetPoints | Othello/Othello.java:565-573 | a fresh array equal to the points |
| Engine.Othello.GetBoard | Othello/Othello.java:580-590 | a fresh board array equal to the board |
| Engine.Othello.Advance | Othello/Othello.java:601-605 | an accepted click: update board, pass turn, match-score step, equal to the value step, invariant kept |
| Engine.Othello.Play | Othello/Othello.java:599-607 | one click is exactly the value step PlayStep with its messages; a click off an indicator changes nothing but the log; the invariant is kept |
| Engine.StepKeepsInv | Othello/Othello.java:599-607 | every click keeps the engine invariant |
| Engine.AcceptedState | Othello/Othello.java:601-605 | move then match-score step is the accepted value step |
| Engine.AcceptedNotices | Othello/Othello.java:601-605 | the messages of an accepted click are the outflank report followed by the match-score messages |
| Engine.Rejected | Othello/Othello.java:150-159 | a rejected click leaves the state as it was and logs one invalid-move message |
| Engine.GameAwarded | Othello/Othello.java:427-479 | the award and messages computed with highest player and tie count are the value-level end of game |
| Engine.GameGoesOn | Othello/Othello.java:427 | before the board is full the match-score step changes nothing and says nothing |
| Engine.SeedState | Othello/Othello.java:100-120 | the state NewGame leaves is the value-level new game |
| Engine.FlankInOrder | Othello/Othello.java:191-204 | row, column and diagonal passes in turn are outflanking along the ray order, and the three counts add to the total |
| Match.Highest | Othello/Othello.java:430-439 | the first player with the most points: no player has more, no earlier player has as many |
| Match.WinnerIsStrictlyAhead | Othello/Othello.java:430-448 | nobody is tied iff the counts differ, and then the leader is exactly the player with strictly more pieces |
| Match.SumOfTwo | Othello/Othello.java:422-425 | the sum over the players is the two counts added |
| Match.Scored | Othello/Othello.java:397-412 | the points after a move as a value, one entry per player; what it does to each player is stated by ScoredCounts |
| Match.ScoredCounts | Othello/Othello.java:397-412 | the mover gains n + 1, the other player loses n, the total grows by one |
| Match.Awarded | Othello/Othello.java:466-472 | the match score after a full board as a value, one entry per player; who gains a game is stated by GameEnd |
| Match.NewGameInv | Othello/Othello.java:100-120 | the new-game state satisfies the engine invariant (well-marked seed board, counts agree) |
| Match.FullMeansNoFreeCell | Othello/Othello.java:422-427 | the points sum to the area exactly when no free cell is left |
| Match.MoveBookkeeping | Othello/Othello.java:167-179 | the reported flips are the sum of the rays' captures on the board before the move; mover +flips+1, opponent −flips |
| Match.MovedInv | Othello/Othello.java:167-179 | an accepted move keeps the indicator invariant and points equal to the board counts |
| Match.PlayKeepsInv | Othello/Othello.java:599-607 | every click keeps the invariant, including one that ends a game |
| Match.TurnOrder | Othello/Othello.java:601-605 | an accepted move passes the turn to the opponent, unless it fills the board and player 1 starts the next game |
| Match.GameEnd | Othello/Othello.java:427-479 | on a full board the player with strictly more pieces gains one game, nobody on a tie; board and points reset to the seed position |
| Board.Enemy | Othello/Othello.java:218-219 | the other player is a player and differs from the mover |
| Board.CapturesRun | Othello/Othello.java:222-231 | what a ray outflanks is a run of enemy pieces closed by a piece of the mover |
| Board.CapturesExact | Othello/Othello.java:222-231 | a ray outflanks m pieces iff cells 1..m hold the enemy and cell m + 1 holds the mover (both directions) |
| Board.RunFromCells | Othello/Othello.java:223-225 | the enemy-run scan stops at the first non-enemy or off-board cell |
| Board.FlipUpToCells | Othello/Othello.java:227-230 | flipping cells 1..n of a ray changes exactly those cells |
| Board.FlipRayCells | Othello/Othello.java:222-231 | outflanking one ray turns exactly the captured cells to the mover |
| Board.FlipSeqCells | Othello/Othello.java:191-204 | outflanking distinct rays one after another turns exactly the cells captured on the original board |
| Board.FlipCountIsSum | Othello/Othello.java:191-204 | the counts reported ray by ray add to the captures counted on the original board |
| Board.CapturedIsEnemy | Othello/Othello.java:222-231 | every outflanked cell held the enemy before the move |
| Board.MarkIndicatorsCells | Othello/Othello.java:502-547 | after the indicator pass, exactly the EMPTY neighbours are indicators and nothing else changed |
| Tally.CountUpdate | Othello/Othello.java:170 | writing one cell moves one unit of count from the old value to the new |
| Tally.FlipSeqCount | Othello/Othello.java:191-204 | outflanking moves exactly the reported number of pieces from the enemy's count to the mover's |
| Tally.MarkSeqCount | Othello/Othello.java:502-547 | marking indicators changes no piece count and no number of free cells |
| Tally.CountPartition | Othello/Othello.java:422-427 | the pieces of both players and the free cells fill the board |
| Placement.EngineBoardCells | Othello/Othello.java:167-179 | the engine's move cell by cell: mover on the cell and on every captured cell, EMPTY neighbours marked, rest unchanged |
| Placement.BotBoardCells | Othello/AI.java:186-356 | the bot's move cell by cell, the same description |
| Placement.BoardsAgree | Othello/AI.java:186-356 | the bot's board after a move equals the engine's although the two order the indicator pass differently |
| Placement.EngineFlipsIsSum | Othello/Othello.java:191-204 | the engine's reported flips are the sum of captures on the board before the move |
| Placement.EngineCounts | Othello/Othello.java:167-179 | after a move the mover has flips + 1 more pieces, the opponent flips fewer, one free cell less |
| Placement.BotFree | Othello/AI.java:186-356 | a bot move leaves one free cell fewer |
| Placement.EngineKeepsMarks | Othello/Othello.java:167-179 | an engine move keeps the invariant that a free cell is an indicator iff it touches a piece |
| Placement.SeedingEndsInitial | Othello/Othello.java:125-142 | placing the four seeds, each with its indicator pass, gives the seed position |
| Placement.SeededCells | Othello/Othello.java:135-140 | after setup the four seeds stand in the centre, exactly the twelve cells around them are indicators, all others EMPTY |
| Placement.InitialGridFacts | Othello/Othello.java:106-118 | the seed position satisfies the indicator invariant and each player has two pieces |
| Scan.RunEnd | Othello/Othello.java:222-225 | the scan stops one past the enemy run, all earlier steps on the board |
| Scan.WriteRun | Othello/Othello.java:227-230 | writing cells 1..m of a ray is the value-level flip of those cells |
| Scan.FlankRay | Othello/Othello.java:221-246 | one ray outflanked in place: the count and the new board are those of Captures and FlipRay |
| Scan.FlipUpToClosed | Othello/Othello.java:240-244 | also rewriting the closing piece, as the leftward loop does, changes nothing |
| Scan.SetIndicators | Othello/AI.java:317-352 | the in-place indicator pass equals the value-level pass |
| Scan.CopyBoard | Othello/AI.java:196-202 | a fresh board array equal to the original |
| Search.MovesExact | Othello/AI.java:159-173 | a cell is in the move list iff it is on the board and holds INDICATOR, for either player |
| Search.MovesOrdered | Othello/AI.java:159-173 | the moves come in row-major order, strictly increasing |
| Search.MoveIsIndicator | Othello/AI.java:176-184 | every listed move is an indicator on the board |
| Search.Child | Othello/AI.java:77-90 | a child position is a board with one free cell fewer |
| Search.PieceDifference | Othello/AI.java:125-141 | the evaluation lies in [−64, 64] |
| Search.MaxFromIsMax | Othello/AI.java:75-85 | the max fold is in range, bounds every child and is attained when there is one |
| Search.MinFromIsMin | Othello/AI.java:86-97 | the min fold likewise |
| Search.Minimax | Othello/AI.java:66-101 | plain minimax (no pruning) stays within [MIN_VALUE, MAX_VALUE]; it terminates for every depth, including depth below zero |
| Search.Scores | Othello/AI.java:75-85 | one value per move, all in range |
| Search.MaxNodeValue | Othello/AI.java:75-85 | a maximizing node's value bounds every child, is attained by one, and is MIN_VALUE with no move |
| Search.MinNodeValue | Othello/AI.java:86-97 | a minimizing node's value is below every child, attained by one, and is MAX_VALUE with no move |
| Search.AlphaBeta | Othello/AI.java:66-101 | the pruned search stays within [MIN_VALUE, MAX_VALUE] |
| Search.WindowAgrees | Othello/AI.java:66-101 | for any window alpha < beta, the pruned value and the minimax value agree once clamped to the window |
| Search.MaxLoopAgrees | Othello/AI.java:75-85 | the maximizing loop with the beta <= alpha cutoff agrees with the max over the remaining children, within the window |
| Search.MinLoopAgrees | Othello/AI.java:86-97 | the minimizing loop likewise with the min |
| Search.FullWindow | Othello/AI.java:50 | searched with the full window, alpha-beta returns exactly the minimax value |
| Search.ScoreBySearch | Othello/AI.java:47-50 | each move's score is the full-window search of its child, minimizing node next |
| Search.FirstBestSpec | Othello/AI.java:47-55 | no choice iff every value is MIN_VALUE; otherwise the chosen value beats MIN_VALUE, is the maximum, and no earlier move reaches it |
| Search.BestMoveSpec | Othello/AI.java:39-59 | the move chosen is the first move of maximal minimax value, and none exactly when every move is worth MIN_VALUE |
| Search.NoMoveWithoutIndicator | Othello/AI.java:39-59 | a board without indicators yields no move |
| Bot.ValidMove | Othello/AI.java:176-184 | valid iff the cell holds INDICATOR |
| Bot.AllPossibleMoves | Othello/AI.java:159-173 | the list built row by row is exactly Moves, whatever the player |
| Bot.EvaluatePieceDifference | Othello/AI.java:125-141 | the counting loops return maxP's pieces minus the other player's |
| Bot.EvaluatePosition | Othello/AI.java:110-118 | the evaluation is the piece difference, within [−64, 64] |
| Bot.BoardAfterMove | Othello/AI.java:186-356 | a fresh board with the move played (copy, place, eight rays, indicators); equal to the live engine's board for the same move |
| Bot.Minimax | Othello/AI.java:66-101 | the recursive search returns the value-level alpha-beta value for its window |
| Bot.MaxLoop | Othello/AI.java:75-85 | the maximizing loop with its cutoff computes the value-level maximizing fold |
| Bot.MinLoop | Othello/AI.java:86-97 | the minimizing loop likewise |
| Bot.MakeMove | Othello/AI.java:39-59 | the move returned is BestMove: the first strictly best move under a fresh full window per child, None when there is none |

## Left out

- The display object (`OthelloGUI`) and everything it does. Repaint calls are dropped. Decision messages become the `Notice` log.
- The board size and the number of players read from the display object: the model fixes 8 × 8 and two players. `MAXGAME` is the constructor parameter `maxGame`.
- What the display does on a match win (it ends the program). The engine itself records `MatchWon` and goes on with a new game, as the source does.
- `numMove` (never updated) and the `tiedPlayers` array (filled but never read).
- `currentPlayer()` (Othello/Othello.java:554-558): a getter of `curPlayer`, which the model exposes as a field.
- `play(int[] move)`: modelled as `Play(row, col)`, requiring the cell to be on the board. A human click is always a board cell. A bot move is a board cell whenever `makeMove` returns one (Bot.MakeMove, Search.BestMoveSpec). `makeMove` returns `null` when it has no move or when no move beats `MIN_VALUE`, and `play(null)` would throw. The display avoids this by searching at most `min(DEPTH or BIGDEPTH, free cells)` plies (Othello/OthelloGUI.java:279, 304), so the search never looks past a full board. That clamp and the `null` path of `play` are outside the model.
- The bot's `nodesExplored` counter and its console output.
- `evaluateSpecialPieceDifference`: it has an empty body and is never called.
- No pass rule: neither part passes when a player has no move. In the search, a node with no moves is worth `MIN_VALUE` or `MAX_VALUE`, even on a full board.
- Search.Minimax, Search.AlphaBeta, Bot.Minimax: `depth` is an unbounded integer. Java's `depth - 1` can wrap only when `depth` starts within 64 of `Integer.MIN_VALUE`; e.g. `makeMove` with depth `Integer.MIN_VALUE` passes `Integer.MAX_VALUE` on the first ply. A search spans at most 64 plies, because each ply fills a free cell (Search.Child). In that case neither Java's wrapped depth nor the model's unbounded depth reaches 0 within those plies, so the results agree.
- The caller's choice of depth (at least one, at most the free cells left) is outside the bot. The model accepts every depth.
- Java arrays and lists: `int[][]` is `array2<int>`, the move list (`ArrayList<int[]>`) is `seq<Cell>`, and a `null` move is `None`.
- Engine.Othello.Advance, Engine.Othello.ClearBoard, Bot.MaxLoop, Bot.MinLoop: these split one source method into parts (the accepted branch of `play`, the clearing loop of `initBoard`, the two branches of `minimax`). They have no source counterpart of their own.

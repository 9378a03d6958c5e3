/** The state of a match as a value, and what one click on a cell does to it:
    the move is accepted on an indicator only; it changes the board, the piece
    counts and the turn; a full board ends the game, awards it and starts the
    next one. The engine class in module Engine is proved against PlayStep. */
module Match {
  import opened Board
  import opened Tally
  import opened Placement

  /** What the engine holds: the board, whose turn it is, the pieces each
      player has on the board and the games each player has won. */
  datatype Game = Game(board: Grid, cur: int, points: seq<int>, score: seq<int>)

  /** The messages the engine hands to its display. */
  datatype Notice = InvalidMove | Outflanked(player: int, count: int) | TieGame | GameWon(player: int) | MatchWon(player: int)

  /** The engine's invariant: a well-marked board, a player to move, and piece
      counts that agree with the board. */
  ghost predicate Inv(g: Game) {
    && IsGrid(g.board) && WellMarked(g.board)
    && IsPlayer(g.cur)
    && |g.points| == NUMPLAYER && |g.score| == NUMPLAYER
    && g.points[PLAYER1] == Count(g.board, PLAYER1)
    && g.points[PLAYER2] == Count(g.board, PLAYER2)
  }

  // ---------------------------------------------------------------- per-player tallies

  /** pts[0] + ... + pts[n - 1]. */
  function Sum(pts: seq<int>, n: nat): int
    requires n <= |pts|
  {
    if n == 0 then 0 else Sum(pts, n - 1) + pts[n - 1]
  }

  /** The first player among 0..n-1 with the most points. */
  function Highest(pts: seq<int>, n: nat): (h: nat)
    requires 1 <= n <= |pts|
    ensures h < n
    ensures forall k :: 0 <= k < n ==> pts[k] <= pts[h]
    ensures forall k :: 0 <= k < h ==> pts[k] < pts[h]
  {
    if n == 1 then 0
    else
      var m := Highest(pts, n - 1);
      if pts[n - 1] > pts[m] then n - 1 else m
  }

  /** The number of players tied with the leader, besides the leader (RowCount
      counts the players among the first n that have a given number of points). */
  function Ties(pts: seq<int>): int
    requires |pts| == NUMPLAYER
  {
    RowCount(pts, pts[Highest(pts, NUMPLAYER)], NUMPLAYER) - 1
  }

  /** With two players: nobody is tied exactly when the counts differ, and then
      the leader is the player with strictly more pieces. */
  lemma WinnerIsStrictlyAhead(pts: seq<int>, p: int)
    requires |pts| == NUMPLAYER && IsPlayer(p)
    ensures Ties(pts) == 0 <==> pts[PLAYER1] != pts[PLAYER2]
    ensures Ties(pts) == 0 ==> (Highest(pts, NUMPLAYER) == p <==> pts[p] > pts[Enemy(p)])
  {
    var h := Highest(pts, NUMPLAYER);
    assert h == (if pts[1] > pts[0] then 1 else 0);
    assert RowCount(pts, pts[h], NUMPLAYER) == (if pts[0] == pts[h] then 1 else 0) + (if pts[1] == pts[h] then 1 else 0);
  }

  /** With two players the sum is the two counts. */
  lemma SumOfTwo(pts: seq<int>)
    requires |pts| == NUMPLAYER
    ensures Sum(pts, NUMPLAYER) == pts[PLAYER1] + pts[PLAYER2]
  {
    assert Sum(pts, 1) == pts[0];
  }

  // ---------------------------------------------------------------- one move

  /** The counts after p outflanked n pieces: p gains them and the placed piece,
      the other player loses them. */
  function Scored(pts: seq<int>, p: int, n: int): (pts': seq<int>)
    requires |pts| == NUMPLAYER && IsPlayer(p)
    ensures |pts'| == NUMPLAYER
  {
    var other := if p == PLAYER1 then PLAYER2 else PLAYER1;
    pts[p := pts[p] + n + 1][other := pts[other] - n]
  }

  /** The mover gains n + 1, the other player loses n, and the total grows by one. */
  lemma ScoredCounts(pts: seq<int>, p: int, n: int)
    requires |pts| == NUMPLAYER && IsPlayer(p)
    ensures Scored(pts, p, n)[p] == pts[p] + n + 1
    ensures Scored(pts, p, n)[Enemy(p)] == pts[Enemy(p)] - n
    ensures Sum(Scored(pts, p, n), NUMPLAYER) == Sum(pts, NUMPLAYER) + 1
  {
    SumOfTwo(pts);
    SumOfTwo(Scored(pts, p, n));
  }

  /** The state right after an accepted move at (r, c), before the match score is looked at. */
  function Moved(g: Game, r: int, c: int): (g': Game)
    requires IsGrid(g.board) && InBounds(r, c) && IsPlayer(g.cur) && |g.points| == NUMPLAYER
  {
    Game(EngineBoard(g.board, r, c, g.cur), (g.cur + 1) % NUMPLAYER,
      Scored(g.points, g.cur, EngineFlips(g.board, r, c, g.cur)), g.score)
  }

  /** A new game: the seed position, player 1 to move, two pieces each; the match score is kept. */
  function NewGame(score: seq<int>): Game {
    Game(InitialGrid(), PLAYER1, [2, 2], score)
  }

  predicate BoardFull(g: Game)
    requires |g.points| == NUMPLAYER
  {
    Sum(g.points, NUMPLAYER) == AREA
  }

  /** The match score after a full board: the leader gains a game unless somebody ties. */
  function Awarded(g: Game): (score': seq<int>)
    requires |g.points| == NUMPLAYER && |g.score| == NUMPLAYER
    ensures |score'| == NUMPLAYER
  {
    var h := Highest(g.points, NUMPLAYER);
    if Ties(g.points) > 0 then g.score else g.score[h := g.score[h] + 1]
  }

  /** The match-score step: on a full board, award the game and start a new one. */
  function Finished(g: Game): Game
    requires |g.points| == NUMPLAYER && |g.score| == NUMPLAYER
  {
    if BoardFull(g) then NewGame(Awarded(g)) else g
  }

  /** One click on (r, c): ignored unless the cell is an indicator. */
  function PlayStep(g: Game, r: int, c: int): Game
    requires Inv(g) && InBounds(r, c)
  {
    if g.board[r][c] == INDICATOR then Finished(Moved(g, r, c)) else g
  }

  /** The message that p outflanked n pieces, given only when there were some. */
  function OutflankNotice(p: int, n: int): seq<Notice> {
    if n > 0 then [Outflanked(p, n)] else []
  }

  /** The messages of the match-score step. */
  function FinishNotices(g: Game, maxGame: int): seq<Notice>
    requires |g.points| == NUMPLAYER && |g.score| == NUMPLAYER
  {
    if BoardFull(g) then
      var h := Highest(g.points, NUMPLAYER);
      (if Ties(g.points) > 0 then [TieGame] else [GameWon(h)])
      + (if Awarded(g)[h] == maxGame then [MatchWon(h)] else [])
    else []
  }

  /** The messages of one click on (r, c). */
  function PlayNotices(g: Game, r: int, c: int, maxGame: int): seq<Notice>
    requires Inv(g) && InBounds(r, c)
  {
    if g.board[r][c] == INDICATOR then
      OutflankNotice(g.cur, EngineFlips(g.board, r, c, g.cur)) + FinishNotices(Moved(g, r, c), maxGame)
    else [InvalidMove]
  }

  // ---------------------------------------------------------------- properties

  /** A new game satisfies the invariant. */
  lemma NewGameInv(score: seq<int>)
    requires |score| == NUMPLAYER
    ensures Inv(NewGame(score))
  {
    InitialGridFacts();
  }

  /** The points sum to the board's area exactly when no free cell is left. */
  lemma FullMeansNoFreeCell(g: Game)
    requires Inv(g)
    ensures BoardFull(g) <==> Free(g.board) == 0
  {
    CountPartition(g.board);
    SumOfTwo(g.points);
  }

  /** An accepted move: the mover's count rises by the flips plus one, the
      opponent's falls by the flips, the total rises by one, and the flips are
      the runs outflanked on the board before the move. */
  lemma MoveBookkeeping(g: Game, r: int, c: int)
    requires Inv(g) && InBounds(r, c) && g.board[r][c] == INDICATOR
    ensures var n := EngineFlips(g.board, r, c, g.cur);
      && n == SumCaptures(g.board, r, c, g.cur, FlankOrder)
      && Moved(g, r, c).points[g.cur] == g.points[g.cur] + n + 1
      && Moved(g, r, c).points[Enemy(g.cur)] == g.points[Enemy(g.cur)] - n
      && Sum(Moved(g, r, c).points, NUMPLAYER) == Sum(g.points, NUMPLAYER) + 1
  {
    EngineFlipsIsSum(g.board, r, c, g.cur);
    ScoredCounts(g.points, g.cur, EngineFlips(g.board, r, c, g.cur));
  }

  /** An accepted move keeps the invariant. */
  lemma MovedInv(g: Game, r: int, c: int)
    requires Inv(g) && InBounds(r, c) && g.board[r][c] == INDICATOR
    ensures Inv(Moved(g, r, c))
  {
    EngineCounts(g.board, r, c, g.cur);
    EngineKeepsMarks(g.board, r, c, g.cur);
  }

  /** Every click keeps the invariant, including the one that ends a game. */
  lemma PlayKeepsInv(g: Game, r: int, c: int)
    requires Inv(g) && InBounds(r, c)
    ensures Inv(PlayStep(g, r, c))
  {
    if g.board[r][c] == INDICATOR {
      MovedInv(g, r, c);
      NewGameInv(Awarded(Moved(g, r, c)));
    }
  }

  /** Turn order: an accepted move passes the turn to the other player, unless
      it fills the board, after which player 1 starts the next game. */
  lemma TurnOrder(g: Game, r: int, c: int)
    requires Inv(g) && InBounds(r, c) && g.board[r][c] == INDICATOR
    ensures PlayStep(g, r, c).cur == if BoardFull(Moved(g, r, c)) then PLAYER1 else Enemy(g.cur)
  {
  }

  /** End of a game: the player with strictly more pieces wins one more game,
      nobody does on a tie, and the board and counts go back to the seed
      position while the rest of the match score is kept. */
  lemma GameEnd(g: Game, p: int)
    requires |g.points| == NUMPLAYER && |g.score| == NUMPLAYER && BoardFull(g) && IsPlayer(p)
    ensures Finished(g).board == InitialGrid() && Finished(g).cur == PLAYER1
    ensures Finished(g).points == [2, 2]
    ensures Finished(g).score[p] == g.score[p] + (if g.points[p] > g.points[Enemy(p)] then 1 else 0)
  {
    WinnerIsStrictlyAhead(g.points, p);
  }
}

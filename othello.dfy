/** The live game engine: the board array, whose turn it is, the pieces on the
    board and the games won, updated in place by one click at a time. Every
    public step is proved against the value-level step of module Match. */
module Engine {
  import opened Board
  import opened Tally
  import opened Placement
  import opened Scan
  import opened Match

  class Othello {
    /** Games a player needs to win the match. */
    const maxGame: int
    const board: array2<int>
    /** Pieces each player has on the board. */
    const points: array<int>
    /** Games each player has won. */
    const score: array<int>
    var curPlayer: int
    /** The messages handed to the display, oldest first. */
    var notices: seq<Notice>

    /** The arrays have the sizes the game uses and are distinct. */
    predicate Shaped() {
      IsBoardArray(board) && points.Length == NUMPLAYER && score.Length == NUMPLAYER && points != score
    }

    /** The engine's state as a value. */
    function State(): Game
      reads this`curPlayer, board, points, score
      requires Shaped()
    {
      Game(Snapshot(board), curPlayer, points[..], score[..])
    }

    ghost predicate Valid()
      reads this`curPlayer, board, points, score
    {
      Shaped() && Inv(State())
    }

    /** A new engine starts a match: no games won, the seed position, player 1 to move. */
    constructor (maxGame: int)
      ensures Valid() && fresh(board) && fresh(points) && fresh(score)
      ensures State() == Match.NewGame([0, 0]) && notices == [] && this.maxGame == maxGame
    {
      this.maxGame := maxGame;
      board := new int[NUMROW, NUMCOL];
      score := new int[NUMPLAYER];
      points := new int[NUMPLAYER];
      notices := [];
      new;
      NewMatch();
      NewGameInv([0, 0]);
    }

    /** Clears the match score and starts a new game. */
    method NewMatch()
      requires Shaped()
      modifies this`curPlayer, board, points, score
      ensures State() == Match.NewGame([0, 0])
    {
      for i := 0 to NUMPLAYER
        modifies score
        invariant forall k :: 0 <= k < i ==> score[k] == 0
      {
        score[i] := 0;
      }
      assert score[..] == [0, 0];
      NewGame();
    }

    /** Player 1 to move, two pieces each, the board at the seed position; the match score is kept. */
    method NewGame()
      requires Shaped()
      modifies this`curPlayer, board, points
      ensures Snapshot(board) == InitialGrid() && curPlayer == PLAYER1 && points[..] == [2, 2]
      ensures score[..] == old(score[..])
      ensures State() == Match.NewGame(old(score[..]))
    {
      curPlayer := PLAYER1;
      for i := 0 to NUMPLAYER
        modifies points
        invariant forall k :: 0 <= k < i ==> points[k] == 0
      {
        points[i] := 0;
      }
      assert points[..] == SeedTally(0);
      SeedsOnBoard();
      for i := 0 to |SeedPlayers|
        modifies points
        invariant points[..] == SeedTally(i)
      {
        points[SeedPlayers[i]] := points[SeedPlayers[i]] + 1;
      }
      InitBoard();
      SeedState(State(), old(score[..]));
    }

    /** Empties every cell, then puts down the four seed pieces, each followed by its indicators. */
    method InitBoard()
      requires IsBoardArray(board)
      modifies board
      ensures Snapshot(board) == InitialGrid()
    {
      ClearBoard();
      SeedsOnBoard();
      for i := 0 to |SeedRows|
        invariant Snapshot(board) == Seeded(i)
      {
        ghost var b0 := Snapshot(board);
        Put(board, SeedRows[i], SeedCols[i], SeedPlayers[i]);
        ghost var b1 := Snapshot(board);
        UpdateIndicators(SeedRows[i], SeedCols[i]);
        SeededStep(i, b0, b1, Snapshot(board));
      }
      SeedingEndsInitial(|SeedRows|);
    }

    /** The first half of InitBoard: every cell EMPTY. */
    method ClearBoard()
      requires IsBoardArray(board)
      modifies board
      ensures Snapshot(board) == EmptyGrid()
    {
      for i := 0 to NUMROW
        invariant forall x, y :: 0 <= x < i && 0 <= y < NUMCOL ==> board[x, y] == EMPTY
      {
        for j := 0 to NUMCOL
          invariant forall x, y :: 0 <= x < i && 0 <= y < NUMCOL ==> board[x, y] == EMPTY
          invariant forall y :: 0 <= y < j ==> board[i, y] == EMPTY
        {
          board[i, j] := EMPTY;
        }
      }
      GridExt(Snapshot(board), EmptyGrid());
    }

    /** A move is accepted exactly on an indicator; otherwise the display is told it is invalid. */
    method ValidMove(row: int, col: int) returns (ok: bool)
      requires IsBoardArray(board) && InBounds(row, col)
      modifies this`notices
      ensures ok <==> Snapshot(board)[row][col] == INDICATOR
      ensures notices == if ok then old(notices) else old(notices) + [InvalidMove]
    {
      if board[row, col] == INDICATOR {
        ok := true;
      } else {
        notices := notices + [InvalidMove];
        ok := false;
      }
    }

    /** Places the current player's piece, sets the indicators around it, then outflanks. */
    method UpdateBoard(row: int, col: int)
      requires Shaped() && InBounds(row, col) && IsPlayer(curPlayer)
      modifies this`notices, board, points
      ensures Snapshot(board) == EngineBoard(old(Snapshot(board)), row, col, curPlayer)
      ensures points[..] == Scored(old(points[..]), curPlayer, EngineFlips(old(Snapshot(board)), row, col, curPlayer))
      ensures notices == old(notices) + OutflankNotice(curPlayer, EngineFlips(old(Snapshot(board)), row, col, curPlayer))
    {
      Put(board, row, col, curPlayer);
      UpdateIndicators(row, col);
      var numFlanks := Flank(row, col);
    }

    /** Outflanks along the row, the column and the diagonals, in that order,
        reports the total if it is positive and adds it to the points. */
    method Flank(row: int, col: int) returns (numFlanks: int)
      requires Shaped() && InBounds(row, col) && IsPlayer(curPlayer)
      modifies this`notices, board, points
      ensures numFlanks == FlipCount(old(Snapshot(board)), row, col, curPlayer, FlankOrder)
      ensures Snapshot(board) == FlipSeq(old(Snapshot(board)), row, col, curPlayer, FlankOrder)
      ensures points[..] == Scored(old(points[..]), curPlayer, numFlanks)
      ensures notices == old(notices) + OutflankNotice(curPlayer, numFlanks)
    {
      ghost var b0 := Snapshot(board);
      var hori := FlankHori(row, col);
      ghost var b2 := Snapshot(board);
      var verti := FlankVerti(row, col);
      ghost var b4 := Snapshot(board);
      var diag := FlankDiag(row, col);
      numFlanks := hori + verti + diag;
      FlankInOrder(b0, b2, b4, Snapshot(board), row, col, curPlayer, hori, verti, diag);
      notices := notices + OutflankNotice(curPlayer, numFlanks);
      UpdateScore(numFlanks);
    }

    /** Outflanks to the right, then to the left. */
    method FlankHori(row: int, col: int) returns (numFlanks: int)
      requires IsBoardArray(board) && InBounds(row, col) && IsPlayer(curPlayer)
      modifies board
      ensures var b1 := FlipRay(old(Snapshot(board)), row, col, Right, curPlayer);
        && Snapshot(board) == FlipRay(b1, row, col, Left, curPlayer)
        && numFlanks == Captures(old(Snapshot(board)), row, col, Right, curPlayer) + Captures(b1, row, col, Left, curPlayer)
    {
      var right := FlankRay(board, row, col, Right, curPlayer);
      var left := FlankRay(board, row, col, Left, curPlayer);
      numFlanks := right + left;
    }

    /** Outflanks downwards, then upwards. */
    method FlankVerti(row: int, col: int) returns (numFlanks: int)
      requires IsBoardArray(board) && InBounds(row, col) && IsPlayer(curPlayer)
      modifies board
      ensures var b1 := FlipRay(old(Snapshot(board)), row, col, Down, curPlayer);
        && Snapshot(board) == FlipRay(b1, row, col, Up, curPlayer)
        && numFlanks == Captures(old(Snapshot(board)), row, col, Down, curPlayer) + Captures(b1, row, col, Up, curPlayer)
    {
      var down := FlankRay(board, row, col, Down, curPlayer);
      var up := FlankRay(board, row, col, Up, curPlayer);
      numFlanks := down + up;
    }

    /** Outflanks to the top left, top right, bottom left and bottom right. */
    method FlankDiag(row: int, col: int) returns (numFlanks: int)
      requires IsBoardArray(board) && InBounds(row, col) && IsPlayer(curPlayer)
      modifies board
      ensures var b1 := FlipRay(old(Snapshot(board)), row, col, UpLeft, curPlayer);
        var b2 := FlipRay(b1, row, col, UpRight, curPlayer);
        var b3 := FlipRay(b2, row, col, DownLeft, curPlayer);
        && Snapshot(board) == FlipRay(b3, row, col, DownRight, curPlayer)
        && numFlanks == Captures(old(Snapshot(board)), row, col, UpLeft, curPlayer) + Captures(b1, row, col, UpRight, curPlayer)
          + Captures(b2, row, col, DownLeft, curPlayer) + Captures(b3, row, col, DownRight, curPlayer)
    {
      var topLeft := FlankRay(board, row, col, UpLeft, curPlayer);
      var topRight := FlankRay(board, row, col, UpRight, curPlayer);
      var bottomLeft := FlankRay(board, row, col, DownLeft, curPlayer);
      var bottomRight := FlankRay(board, row, col, DownRight, curPlayer);
      numFlanks := topLeft + topRight + bottomLeft + bottomRight;
    }

    /** The current player gains the turned pieces and the placed one; the other player loses the turned pieces. */
    method UpdateScore(piecesTurnedOver: int)
      requires points.Length == NUMPLAYER && IsPlayer(curPlayer)
      modifies points
      ensures points[..] == Scored(old(points[..]), curPlayer, piecesTurnedOver)
    {
      points[curPlayer] := points[curPlayer] + piecesTurnedOver + 1;
      if curPlayer == PLAYER1 {
        points[PLAYER2] := points[PLAYER2] - piecesTurnedOver;
      } else {
        points[PLAYER1] := points[PLAYER1] - piecesTurnedOver;
      }
    }

    /** When the pieces fill the board: finds the leader and the ties, awards
        the game unless tied, reports a match win, and starts a new game. */
    method UpdateMatchScore()
      requires Shaped()
      modifies this, board, points, score
      ensures State() == Finished(old(State()))
      ensures notices == old(notices) + FinishNotices(old(State()), maxGame)
    {
      ghost var g := State();
      ghost var n := notices;
      var sumPoints := 0;
      for i := PLAYER1 to NUMPLAYER
        invariant sumPoints == Sum(points[..], i)
      {
        sumPoints := sumPoints + points[i];
      }
      if sumPoints == AREA {
        var highestPoints := points[PLAYER1];
        var highestPlayer := PLAYER1;
        var numTies := 0;
        for i := 1 to NUMPLAYER
          invariant highestPlayer == Highest(points[..], i) && highestPoints == points[highestPlayer]
        {
          if points[i] > highestPoints {
            highestPoints := points[i];
            highestPlayer := i;
          }
        }
        for i := 0 to NUMPLAYER
          invariant numTies == RowCount(points[..], highestPoints, i)
        {
          if points[i] == highestPoints {
            numTies := numTies + 1;
          }
        }
        numTies := numTies - 1;
        if numTies > 0 {
          notices := notices + [TieGame];
        } else {
          notices := notices + [GameWon(highestPlayer)];
          score[highestPlayer] := score[highestPlayer] + 1;
        }
        if score[highestPlayer] == maxGame {
          notices := notices + [MatchWon(highestPlayer)];
        }
        ghost var sc := score[..];
        ghost var n1 := notices;
        assert |g.points| == NUMPLAYER && |g.score| == NUMPLAYER && BoardFull(g);
        assert highestPlayer == Highest(g.points, NUMPLAYER);
        assert numTies == Ties(g.points);
        assert sc == (if numTies > 0 then g.score else g.score[highestPlayer := g.score[highestPlayer] + 1]);
        assert n1 == n + (if numTies > 0 then [TieGame] else [GameWon(highestPlayer)]) + (if sc[highestPlayer] == maxGame then [MatchWon(highestPlayer)] else []);
        NewGame();
        GameAwarded(g, maxGame, highestPlayer, numTies, sc, n, n1);
      } else {
        GameGoesOn(g, maxGame, n);
      }
    }

    /** Passes the turn to the next player in numeric order, wrapping round. */
    method SetNextPlayer()
      modifies this`curPlayer
      ensures curPlayer == (old(curPlayer) + 1) % NUMPLAYER
    {
      curPlayer := (curPlayer + 1) % NUMPLAYER;
    }

    /** Every EMPTY neighbour of (row, col) becomes an indicator. */
    method UpdateIndicators(row: int, col: int)
      requires IsBoardArray(board)
      modifies board
      ensures Snapshot(board) == MarkIndicators(old(Snapshot(board)), row, col)
    {
      SetIndicators(board, row, col);
    }

    /** A fresh copy of the points. */
    method GetPoints() returns (newPoints: array<int>)
      requires points.Length == NUMPLAYER
      ensures fresh(newPoints) && newPoints[..] == points[..]
    {
      newPoints := new int[NUMPLAYER];
      for i := 0 to NUMPLAYER
        invariant forall k :: 0 <= k < i ==> newPoints[k] == points[k]
      {
        newPoints[i] := points[i];
      }
    }

    /** A fresh copy of the board. */
    method GetBoard() returns (newBoard: array2<int>)
      requires IsBoardArray(board)
      ensures fresh(newBoard) && IsBoardArray(newBoard) && Snapshot(newBoard) == Snapshot(board)
    {
      newBoard := CopyBoard(board);
    }

    /** The three steps of an accepted click: the board is updated, the turn
        passes, and the match score is looked at. */
    method Advance(row: int, col: int)
      requires Valid() && InBounds(row, col) && State().board[row][col] == INDICATOR
      modifies this, board, points, score
      ensures State() == PlayStep(old(State()), row, col)
      ensures notices == old(notices) + PlayNotices(old(State()), row, col, maxGame)
      ensures Valid()
    {
      ghost var g := State();
      ghost var n := notices;
      UpdateBoard(row, col);
      SetNextPlayer();
      assert State() == Moved(g, row, col);
      UpdateMatchScore();
      AcceptedState(g, row, col, State());
      AcceptedNotices(g, row, col, maxGame, n, notices);
      StepKeepsInv(g, row, col, State());
    }

    /** One click on (row, col): on an indicator the move is made, the turn
        passes and the match score is looked at; anywhere else nothing changes
        but the invalid-move message. */
    method Play(row: int, col: int)
      requires Valid() && InBounds(row, col)
      modifies this, board, points, score
      ensures State() == PlayStep(old(State()), row, col)
      ensures notices == old(notices) + PlayNotices(old(State()), row, col, maxGame)
      ensures Valid()
    {
      ghost var g := State();
      ghost var n := notices;
      var ok := ValidMove(row, col);
      if ok {
        Advance(row, col);
      } else {
        Rejected(g, row, col, maxGame, n, State(), notices);
      }
    }
  }

  /** The state after any click satisfies the invariant. */
  lemma StepKeepsInv(g: Game, r: int, c: int, g2: Game)
    requires Inv(g) && InBounds(r, c) && g2 == PlayStep(g, r, c)
    ensures Inv(g2)
  {
    PlayKeepsInv(g, r, c);
  }

  /** The state after an accepted click: the move, then the match-score step. */
  lemma AcceptedState(g: Game, r: int, c: int, g2: Game)
    requires Inv(g) && InBounds(r, c) && g.board[r][c] == INDICATOR
    requires g2 == Finished(Moved(g, r, c))
    ensures g2 == PlayStep(g, r, c)
  {
  }

  /** The messages of an accepted click: the outflank report, then those of the match-score step. */
  lemma AcceptedNotices(g: Game, r: int, c: int, maxGame: int, n: seq<Notice>, n2: seq<Notice>)
    requires Inv(g) && InBounds(r, c) && g.board[r][c] == INDICATOR
    requires n2 == n + OutflankNotice(g.cur, EngineFlips(g.board, r, c, g.cur)) + FinishNotices(Moved(g, r, c), maxGame)
    ensures n2 == n + PlayNotices(g, r, c, maxGame)
  {
  }

  /** A rejected click changes nothing but the messages. */
  lemma Rejected(g: Game, r: int, c: int, maxGame: int, n: seq<Notice>, g2: Game, n2: seq<Notice>)
    requires Inv(g) && InBounds(r, c) && g.board[r][c] != INDICATOR
    requires g2 == g && n2 == n + [InvalidMove]
    ensures g2 == PlayStep(g, r, c) && n2 == n + PlayNotices(g, r, c, maxGame)
  {
  }

  /** The match-score step on a full board: the awarded score and the
      messages, told apart by the ties found. */
  lemma GameAwarded(g: Game, maxGame: int, h: int, ties: int, sc: seq<int>, n: seq<Notice>, n1: seq<Notice>)
    requires |g.points| == NUMPLAYER && |g.score| == NUMPLAYER && BoardFull(g)
    requires h == Highest(g.points, NUMPLAYER) && ties == Ties(g.points)
    requires sc == (if ties > 0 then g.score else g.score[h := g.score[h] + 1])
    requires n1 == n + (if ties > 0 then [TieGame] else [GameWon(h)]) + (if sc[h] == maxGame then [MatchWon(h)] else [])
    ensures Finished(g) == Match.NewGame(sc)
    ensures n1 == n + FinishNotices(g, maxGame)
  {
  }

  /** Before the board is full the match-score step does nothing. */
  lemma GameGoesOn(g: Game, maxGame: int, n: seq<Notice>)
    requires |g.points| == NUMPLAYER && |g.score| == NUMPLAYER && !BoardFull(g)
    ensures Finished(g) == g && n + FinishNotices(g, maxGame) == n
  {
    assert FinishNotices(g, maxGame) == [];
  }

  /** The state NewGame leaves is the value-level new game. */
  lemma SeedState(g: Game, sc: seq<int>)
    requires g.board == InitialGrid() && g.cur == PLAYER1 && g.points == [2, 2] && g.score == sc
    ensures g == Match.NewGame(sc)
  {
  }

  /** The row, the column and the diagonals outflanked one after the other are
      the move's rays in FlankOrder, and the three counts add up to its count. */
  lemma FlankInOrder(b0: Grid, b2: Grid, b4: Grid, b8: Grid, r: int, c: int, p: int, hori: int, verti: int, diag: int)
    requires IsGrid(b0) && InBounds(r, c) && IsPlayer(p)
    requires var b1 := FlipRay(b0, r, c, Right, p);
      && b2 == FlipRay(b1, r, c, Left, p)
      && hori == Captures(b0, r, c, Right, p) + Captures(b1, r, c, Left, p)
    requires IsGrid(b2) && var b3 := FlipRay(b2, r, c, Down, p);
      && b4 == FlipRay(b3, r, c, Up, p)
      && verti == Captures(b2, r, c, Down, p) + Captures(b3, r, c, Up, p)
    requires IsGrid(b4) && var b5 := FlipRay(b4, r, c, UpLeft, p);
      var b6 := FlipRay(b5, r, c, UpRight, p);
      var b7 := FlipRay(b6, r, c, DownLeft, p);
      && b8 == FlipRay(b7, r, c, DownRight, p)
      && diag == Captures(b4, r, c, UpLeft, p) + Captures(b5, r, c, UpRight, p)
        + Captures(b6, r, c, DownLeft, p) + Captures(b7, r, c, DownRight, p)
    ensures b8 == FlipSeq(b0, r, c, p, FlankOrder)
    ensures hori + verti + diag == FlipCount(b0, r, c, p, FlankOrder)
  {
    FlankOrderBoard(b0, r, c, p);
    FlankOrderCount(b0, r, c, p);
  }
}

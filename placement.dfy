/** The whole change one move makes to the board. The live engine places the
    piece, sets the indicators around it and then outflanks; the search bot
    places, outflanks and then sets the indicators. Both come to the same board.
    Also here: the indicator invariant and the seed position of a new game. */
module Placement {
  import opened Board
  import opened Tally

  /** The rays in the order both the engine and the bot resolve them. */
  const FlankOrder: seq<Dir> := [Right, Left, Down, Up, UpLeft, UpRight, DownLeft, DownRight]

  /** The engine's move: place the piece, mark the indicators, then outflank. */
  function EngineBoard(b: Grid, r: int, c: int, p: int): (b': Grid)
    requires IsGrid(b) && InBounds(r, c) && IsPlayer(p)
    ensures IsGrid(b')
  {
    FlipSeq(MarkIndicators(Update(b, r, c, p), r, c), r, c, p, FlankOrder)
  }

  /** The number of pieces the engine reports as outflanked for that move. */
  function EngineFlips(b: Grid, r: int, c: int, p: int): nat
    requires IsGrid(b) && InBounds(r, c) && IsPlayer(p)
  {
    FlipCount(MarkIndicators(Update(b, r, c, p), r, c), r, c, p, FlankOrder)
  }

  /** The bot's move: place the piece, outflank, then mark the indicators. */
  function BotBoard(b: Grid, r: int, c: int, p: int): (b': Grid)
    requires IsGrid(b) && InBounds(r, c) && IsPlayer(p)
    ensures IsGrid(b')
  {
    MarkIndicators(FlipSeq(Update(b, r, c, p), r, c, p, FlankOrder), r, c)
  }

  /** Outflanking along FlankOrder, one ray after another. */
  lemma FlankOrderBoard(b: Grid, r: int, c: int, p: int)
    requires IsGrid(b) && InBounds(r, c) && IsPlayer(p)
    ensures FlipSeq(b, r, c, p, FlankOrder) ==
      FlipRay(FlipRay(FlipRay(FlipRay(FlipRay(FlipRay(FlipRay(FlipRay(b,
        r, c, Right, p), r, c, Left, p), r, c, Down, p), r, c, Up, p),
        r, c, UpLeft, p), r, c, UpRight, p), r, c, DownLeft, p), r, c, DownRight, p)
  {
    FlipSeqEight(b, r, c, p, FlankOrder);
  }

  /** The count of a move along FlankOrder is the sum of what each ray
      outflanks on the board the rays before it left. */
  lemma FlankOrderCount(b: Grid, r: int, c: int, p: int)
    requires IsGrid(b) && InBounds(r, c) && IsPlayer(p)
    ensures var b1 := FlipRay(b, r, c, Right, p);
      var b2 := FlipRay(b1, r, c, Left, p);
      var b3 := FlipRay(b2, r, c, Down, p);
      var b4 := FlipRay(b3, r, c, Up, p);
      var b5 := FlipRay(b4, r, c, UpLeft, p);
      var b6 := FlipRay(b5, r, c, UpRight, p);
      var b7 := FlipRay(b6, r, c, DownLeft, p);
      FlipCount(b, r, c, p, FlankOrder) ==
        Captures(b, r, c, Right, p) + Captures(b1, r, c, Left, p) + Captures(b2, r, c, Down, p)
        + Captures(b3, r, c, Up, p) + Captures(b4, r, c, UpLeft, p) + Captures(b5, r, c, UpRight, p)
        + Captures(b6, r, c, DownLeft, p) + Captures(b7, r, c, DownRight, p)
  {
    FlipCountEight(b, r, c, p, FlankOrder);
  }

  /** What cell (i, j) holds once p has moved at (r, c) on b. */
  function MoveCell(b: Grid, r: int, c: int, p: int, i: int, j: int): int
    requires IsGrid(b) && InBounds(r, c) && IsPlayer(p) && InBounds(i, j)
  {
    if i == r && j == c then p
    else if CapturedOn(b, r, c, p, FlankOrder, i, j) then p
    else if b[i][j] == EMPTY && Adjacent(r, c, i, j) then INDICATOR
    else b[i][j]
  }

  lemma FlankOrderAllRays(d: Dir)
    ensures d in FlankOrder && Distinct(FlankOrder)
  {
  }

  /** Changing the target cell, or one free cell into another, changes no capture from the target. */
  lemma CapturesAfterPlace(b: Grid, b0: Grid, r: int, c: int, p: int)
    requires IsGrid(b) && IsGrid(b0) && InBounds(r, c) && IsPlayer(p)
    requires forall i, j :: InBounds(i, j) && (i != r || j != c) ==>
      b0[i][j] == b[i][j] || (!IsPlayer(b0[i][j]) && !IsPlayer(b[i][j]))
    ensures forall d :: Captures(b0, r, c, d, p) == Captures(b, r, c, d, p)
  {
    forall d
      ensures Captures(b0, r, c, d, p) == Captures(b, r, c, d, p)
    {
      forall x | x >= 1
        ensures SamePieceAt(b, b0, r, c, d, x)
      {
        assert RowAt(r, d, x) != r || ColAt(c, d, x) != c;
      }
      CapturesReadsRay(b, b0, r, c, d, p);
    }
  }

  lemma CapturedOnSame(b: Grid, b0: Grid, r: int, c: int, p: int)
    requires IsGrid(b) && IsGrid(b0) && InBounds(r, c) && IsPlayer(p)
    requires forall d :: Captures(b0, r, c, d, p) == Captures(b, r, c, d, p)
    ensures forall i, j :: CapturedOn(b0, r, c, p, FlankOrder, i, j) == CapturedOn(b, r, c, p, FlankOrder, i, j)
  {
  }

  /** The engine's board, cell by cell: the target holds p, the outflanked runs
      hold p, the EMPTY neighbours of the target are indicators, nothing else changes. */
  lemma EngineBoardCells(b: Grid, r: int, c: int, p: int)
    requires IsGrid(b) && InBounds(r, c) && IsPlayer(p)
    ensures forall i, j :: InBounds(i, j) ==> EngineBoard(b, r, c, p)[i][j] == MoveCell(b, r, c, p, i, j)
  {
    var b1 := Update(b, r, c, p);
    var b2 := MarkIndicators(b1, r, c);
    MarkIndicatorsCells(b1, r, c);
    CapturesAfterPlace(b, b2, r, c, p);
    CapturedOnSame(b, b2, r, c, p);
    FlankOrderAllRays(Up);
    FlipSeqCells(b2, r, c, p, FlankOrder);
  }

  /** The bot's board, cell by cell, is the same as the engine's. */
  lemma BotBoardCells(b: Grid, r: int, c: int, p: int)
    requires IsGrid(b) && InBounds(r, c) && IsPlayer(p)
    ensures forall i, j :: InBounds(i, j) ==> BotBoard(b, r, c, p)[i][j] == MoveCell(b, r, c, p, i, j)
  {
    var b1 := Update(b, r, c, p);
    var b3 := FlipSeq(b1, r, c, p, FlankOrder);
    CapturesAfterPlace(b, b1, r, c, p);
    CapturedOnSame(b, b1, r, c, p);
    FlankOrderAllRays(Up);
    FlipSeqCells(b1, r, c, p, FlankOrder);
    MarkIndicatorsCells(b3, r, c);
  }

  /** Marking indicators before or after outflanking makes no difference:
      the bot's copy of the move agrees with the engine's. */
  lemma BoardsAgree(b: Grid, r: int, c: int, p: int)
    requires IsGrid(b) && InBounds(r, c) && IsPlayer(p)
    ensures EngineBoard(b, r, c, p) == BotBoard(b, r, c, p)
  {
    EngineBoardCells(b, r, c, p);
    BotBoardCells(b, r, c, p);
    GridExt(EngineBoard(b, r, c, p), BotBoard(b, r, c, p));
  }

  lemma {:induction false} SumCapturesSame(b: Grid, b0: Grid, r: int, c: int, p: int, ds: seq<Dir>)
    requires IsGrid(b) && IsGrid(b0) && InBounds(r, c) && IsPlayer(p)
    requires forall d :: Captures(b0, r, c, d, p) == Captures(b, r, c, d, p)
    ensures SumCaptures(b0, r, c, p, ds) == SumCaptures(b, r, c, p, ds)
    decreases |ds|
  {
    if ds != [] {
      SumCapturesSame(b, b0, r, c, p, ds[..|ds| - 1]);
    }
  }

  /** The engine's reported count is the sum, over the eight rays, of the runs
      outflanked on the board as it was before the move. */
  lemma EngineFlipsIsSum(b: Grid, r: int, c: int, p: int)
    requires IsGrid(b) && InBounds(r, c) && IsPlayer(p)
    ensures EngineFlips(b, r, c, p) == SumCaptures(b, r, c, p, FlankOrder)
  {
    var b2 := MarkIndicators(Update(b, r, c, p), r, c);
    MarkIndicatorsCells(Update(b, r, c, p), r, c);
    CapturesAfterPlace(b, b2, r, c, p);
    FlankOrderAllRays(Up);
    FlipCountIsSum(b2, r, c, p, FlankOrder);
    SumCapturesSame(b, b2, r, c, p, FlankOrder);
  }

  /** A move on a free cell: the mover gains the outflanked pieces and the placed
      one, the opponent loses the outflanked pieces, and one free cell fewer is left. */
  lemma EngineCounts(b: Grid, r: int, c: int, p: int)
    requires IsGrid(b) && InBounds(r, c) && IsPlayer(p) && IsFree(b[r][c])
    ensures Count(EngineBoard(b, r, c, p), p) == Count(b, p) + EngineFlips(b, r, c, p) + 1
    ensures Count(EngineBoard(b, r, c, p), Enemy(p)) == Count(b, Enemy(p)) - EngineFlips(b, r, c, p)
    ensures Free(EngineBoard(b, r, c, p)) == Free(b) - 1
  {
    var q := Enemy(p);
    var b1 := Update(b, r, c, p);
    var b2 := MarkIndicators(b1, r, c);
    CountUpdate(b, r, c, p, p);
    CountUpdate(b, r, c, p, q);
    CountUpdate(b, r, c, p, EMPTY);
    CountUpdate(b, r, c, p, INDICATOR);
    MarkSeqCount(b1, r, c, IndicatorOrder, p);
    MarkSeqCount(b1, r, c, IndicatorOrder, q);
    FlipSeqCount(b2, r, c, p, FlankOrder, p);
    FlipSeqCount(b2, r, c, p, FlankOrder, q);
    FlipSeqCount(b2, r, c, p, FlankOrder, EMPTY);
    FlipSeqCount(b2, r, c, p, FlankOrder, INDICATOR);
  }

  /** Each move of the bot leaves one free cell fewer; this bounds the search. */
  lemma BotFree(b: Grid, r: int, c: int, p: int)
    requires IsGrid(b) && InBounds(r, c) && IsPlayer(p) && IsFree(b[r][c])
    ensures Free(BotBoard(b, r, c, p)) == Free(b) - 1
  {
    BoardsAgree(b, r, c, p);
    EngineCounts(b, r, c, p);
  }

  // ---------------------------------------------------------------- indicator invariant

  /** Some of the up to eight cells around (i, j) holds a piece. */
  ghost predicate NextToPiece(b: Grid, i: int, j: int)
    requires IsGrid(b)
  {
    exists x, y :: InBounds(x, y) && Adjacent(i, j, x, y) && IsPlayer(b[x][y])
  }

  /** Every cell holds a piece, EMPTY or INDICATOR, and a free cell is an
      indicator exactly when it is next to a piece. */
  ghost predicate WellMarked(b: Grid)
    requires IsGrid(b)
  {
    && WellFormed(b)
    && forall i, j :: InBounds(i, j) && IsFree(b[i][j]) ==> (b[i][j] == INDICATOR <==> NextToPiece(b, i, j))
  }

  /** b' is b after a piece was put on the free cell (r, c): pieces stay pieces
      (possibly of the other colour), and of the free cells exactly the EMPTY
      neighbours of (r, c) become indicators. */
  ghost predicate PlacedAt(b: Grid, b': Grid, r: int, c: int)
    requires IsGrid(b) && IsGrid(b')
  {
    && InBounds(r, c) && IsFree(b[r][c]) && IsPlayer(b'[r][c])
    && forall i, j :: InBounds(i, j) && (i != r || j != c) ==>
      if IsPlayer(b[i][j]) then IsPlayer(b'[i][j])
      else b'[i][j] == if b[i][j] == EMPTY && Adjacent(r, c, i, j) then INDICATOR else b[i][j]
  }

  lemma NextToPieceAfter(b: Grid, b': Grid, r: int, c: int, i: int, j: int)
    requires IsGrid(b) && IsGrid(b') && PlacedAt(b, b', r, c)
    ensures NextToPiece(b', i, j) <==> NextToPiece(b, i, j) || Adjacent(i, j, r, c)
  {
    if NextToPiece(b, i, j) {
      var x, y :| InBounds(x, y) && Adjacent(i, j, x, y) && IsPlayer(b[x][y]);
      assert IsPlayer(b'[x][y]);
    }
    if Adjacent(i, j, r, c) {
      assert InBounds(r, c) && IsPlayer(b'[r][c]);
    }
    if NextToPiece(b', i, j) && !Adjacent(i, j, r, c) {
      var x, y :| InBounds(x, y) && Adjacent(i, j, x, y) && IsPlayer(b'[x][y]);
      assert IsPlayer(b[x][y]);
    }
  }

  /** Placing a piece and marking its EMPTY neighbours keeps the indicator invariant. */
  lemma PlacementKeepsMarks(b: Grid, b': Grid, r: int, c: int)
    requires IsGrid(b) && IsGrid(b') && WellMarked(b) && PlacedAt(b, b', r, c)
    ensures WellMarked(b')
  {
    forall i, j | InBounds(i, j) && IsFree(b'[i][j])
      ensures b'[i][j] == INDICATOR <==> NextToPiece(b', i, j)
    {
      NextToPieceAfter(b, b', r, c, i, j);
    }
  }

  /** An engine move on a free cell is such a placement. */
  lemma EnginePlaces(b: Grid, r: int, c: int, p: int)
    requires IsGrid(b) && InBounds(r, c) && IsPlayer(p) && IsFree(b[r][c])
    ensures PlacedAt(b, EngineBoard(b, r, c, p), r, c)
  {
    EngineBoardCells(b, r, c, p);
    forall i, j | InBounds(i, j) && CapturedOn(b, r, c, p, FlankOrder, i, j)
      ensures b[i][j] == Enemy(p)
    {
      CapturedIsEnemy(b, r, c, p, FlankOrder, i, j);
    }
  }

  /** The engine's move keeps the indicator invariant. */
  lemma EngineKeepsMarks(b: Grid, r: int, c: int, p: int)
    requires IsGrid(b) && WellMarked(b) && InBounds(r, c) && IsPlayer(p) && IsFree(b[r][c])
    ensures WellMarked(EngineBoard(b, r, c, p))
  {
    EnginePlaces(b, r, c, p);
    PlacementKeepsMarks(b, EngineBoard(b, r, c, p), r, c);
  }

  // ---------------------------------------------------------------- the seed position

  /** The four pieces a game starts with, in the order they are set up. */
  const SeedRows: seq<int> := [3, 4, 3, 4]
  const SeedCols: seq<int> := [3, 3, 4, 4]
  const SeedPlayers: seq<int> := [PLAYER2, PLAYER1, PLAYER1, PLAYER2]

  /** The piece counts after the first k seeds are put down. */
  function SeedTally(k: nat): (pts: seq<int>)
    requires k <= |SeedPlayers|
    ensures |pts| == NUMPLAYER
  {
    if k == 0 then [0, 0]
    else
      var pts := SeedTally(k - 1);
      pts[SeedPlayers[k - 1] := pts[SeedPlayers[k - 1]] + 1]
  }

  /** Every seed is a piece of a player on a cell of the board. */
  lemma SeedsOnBoard()
    ensures |SeedRows| == |SeedCols| == |SeedPlayers|
    ensures forall k :: 0 <= k < |SeedRows| ==> InBounds(SeedRows[k], SeedCols[k]) && IsPlayer(SeedPlayers[k])
  {
  }

  /** The board with every cell EMPTY. */
  function EmptyGrid(): (b: Grid)
    ensures IsGrid(b) && forall i, j :: InBounds(i, j) ==> b[i][j] == EMPTY
  {
    seq(NUMROW, _ => seq(NUMCOL, _ => EMPTY))
  }

  /** An EMPTY board after the first n seed pieces were put down, each followed
      by the indicator pass around it. */
  function Seeded(n: nat): (b: Grid)
    requires n <= |SeedRows|
    ensures IsGrid(b)
  {
    if n == 0 then EmptyGrid()
    else
      var k := n - 1;
      MarkIndicators(Update(Seeded(k), SeedRows[k], SeedCols[k], SeedPlayers[k]), SeedRows[k], SeedCols[k])
  }

  /** One seed more: the piece, then its indicators. */
  lemma SeededStep(k: nat, b0: Grid, b1: Grid, b2: Grid)
    requires k < |SeedRows| == |SeedCols| == |SeedPlayers| && b0 == Seeded(k) && IsGrid(b1)
    requires InBounds(SeedRows[k], SeedCols[k])
    requires b1 == Update(b0, SeedRows[k], SeedCols[k], SeedPlayers[k])
    requires b2 == MarkIndicators(b1, SeedRows[k], SeedCols[k])
    ensures b2 == Seeded(k + 1)
  {
  }

  /** The board a new game starts from, cell by cell (SeedingEndsInitial shows
      that the setup procedure produces it). */
  function InitialGrid(): (b: Grid)
    ensures IsGrid(b)
  {
    seq(NUMROW, i => seq(NUMCOL, j => SeedCell(i, j)))
  }

  /** The seed position cell by cell: the four centre pieces and the twelve
      indicators around them, every other cell EMPTY. */
  function SeedCell(i: int, j: int): int {
    if i == 3 && j == 3 then PLAYER2
    else if i == 4 && j == 3 then PLAYER1
    else if i == 3 && j == 4 then PLAYER1
    else if i == 4 && j == 4 then PLAYER2
    else if 2 <= i <= 5 && 2 <= j <= 5 then INDICATOR
    else EMPTY
  }

  lemma SeededOne()
    ensures forall i, j :: InBounds(i, j) ==>
      Seeded(1)[i][j] == (if i == 3 && j == 3 then PLAYER2
        else if 2 <= i <= 4 && 2 <= j <= 4 then INDICATOR
        else EMPTY)
  {
    MarkIndicatorsCells(Update(EmptyGrid(), 3, 3, PLAYER2), 3, 3);
  }

  lemma SeededTwo()
    ensures forall i, j :: InBounds(i, j) ==>
      Seeded(2)[i][j] == (if i == 3 && j == 3 then PLAYER2
        else if i == 4 && j == 3 then PLAYER1
        else if 2 <= i <= 5 && 2 <= j <= 4 then INDICATOR
        else EMPTY)
  {
    SeededOne();
    MarkIndicatorsCells(Update(Seeded(1), 4, 3, PLAYER1), 4, 3);
  }

  lemma SeededThree()
    ensures forall i, j :: InBounds(i, j) ==>
      Seeded(3)[i][j] == (if i == 3 && j == 3 then PLAYER2
        else if i == 4 && j == 3 then PLAYER1
        else if i == 3 && j == 4 then PLAYER1
        else if 2 <= i <= 5 && 2 <= j <= 5 && !(i == 5 && j == 5) then INDICATOR
        else EMPTY)
  {
    SeededTwo();
    MarkIndicatorsCells(Update(Seeded(2), 3, 4, PLAYER1), 3, 4);
  }

  /** Right after setup the four seeds stand in the centre, exactly the twelve
      cells around them are indicators and every other cell is EMPTY. */
  lemma SeededCells()
    ensures forall i, j :: InBounds(i, j) ==> Seeded(|SeedRows|)[i][j] == SeedCell(i, j)
  {
    SeededThree();
    MarkIndicatorsCells(Update(Seeded(3), 4, 4, PLAYER2), 4, 4);
  }

  /** Putting down all the seeds, each followed by its indicators, gives the seed position. */
  lemma SeedingEndsInitial(n: nat)
    requires n == |SeedRows|
    ensures Seeded(n) == InitialGrid()
  {
    SeededCells();
    GridExt(Seeded(n), InitialGrid());
  }

  lemma {:induction false} EmptyRowCount(v: int, j: nat)
    requires v != EMPTY && j <= NUMCOL
    ensures RowCount(EmptyGrid()[0], v, j) == 0
  {
    if j > 0 {
      EmptyRowCount(v, j - 1);
    }
  }

  lemma {:induction false} EmptyGridCount(v: int, i: nat)
    requires v != EMPTY && i <= NUMROW
    ensures GridCount(EmptyGrid(), v, i) == 0
  {
    if i > 0 {
      EmptyGridCount(v, i - 1);
      assert EmptyGrid()[i - 1] == EmptyGrid()[0];
      EmptyRowCount(v, NUMCOL);
    }
  }

  /** Putting a piece on a free cell and marking around it is a placement, and
      adds one piece of its colour. */
  lemma SetupStep(b: Grid, r: int, c: int, p: int, v: int)
    requires IsGrid(b) && InBounds(r, c) && IsFree(b[r][c]) && IsPlayer(p) && IsPlayer(v)
    ensures PlacedAt(b, MarkIndicators(Update(b, r, c, p), r, c), r, c)
    ensures Count(MarkIndicators(Update(b, r, c, p), r, c), v) == Count(b, v) + (if v == p then 1 else 0)
  {
    var b1 := Update(b, r, c, p);
    MarkIndicatorsCells(b1, r, c);
    CountUpdate(b, r, c, p, v);
    MarkSeqCount(b1, r, c, IndicatorOrder, v);
  }

  lemma SetupKeeps(b: Grid, r: int, c: int, p: int)
    requires IsGrid(b) && WellMarked(b) && InBounds(r, c) && IsFree(b[r][c]) && IsPlayer(p)
    ensures WellMarked(MarkIndicators(Update(b, r, c, p), r, c))
    ensures Count(MarkIndicators(Update(b, r, c, p), r, c), p) == Count(b, p) + 1
    ensures Count(MarkIndicators(Update(b, r, c, p), r, c), Enemy(p)) == Count(b, Enemy(p))
  {
    SetupStep(b, r, c, p, p);
    SetupStep(b, r, c, p, Enemy(p));
    PlacementKeepsMarks(b, MarkIndicators(Update(b, r, c, p), r, c), r, c);
  }

  /** After k seed pieces: the invariant holds and the counts are those of the seeds so far. */
  ghost predicate SeededFacts(k: nat, ones: int, twos: int)
    requires k <= |SeedRows|
  {
    WellMarked(Seeded(k)) && Count(Seeded(k), PLAYER1) == ones && Count(Seeded(k), PLAYER2) == twos
  }

  lemma SeededFactsOne()
    ensures SeededFacts(1, 0, 1)
  {
    EmptyGridCount(PLAYER1, NUMROW);
    EmptyGridCount(PLAYER2, NUMROW);
    assert WellMarked(Seeded(0));
    SetupKeeps(Seeded(0), 3, 3, PLAYER2);
  }

  lemma SeededFactsTwo()
    ensures SeededFacts(2, 1, 1)
  {
    assert Seeded(2) == MarkIndicators(Update(Seeded(1), 4, 3, PLAYER1), 4, 3);
    SeededFactsOne();
    assert Seeded(1)[4][3] == INDICATOR by {
      SeededOne();
    }
    SetupKeeps(Seeded(1), 4, 3, PLAYER1);
  }

  lemma SeededFactsThree()
    ensures SeededFacts(3, 2, 1)
  {
    assert Seeded(3) == MarkIndicators(Update(Seeded(2), 3, 4, PLAYER1), 3, 4);
    SeededFactsTwo();
    assert Seeded(2)[3][4] == INDICATOR by {
      SeededTwo();
    }
    SetupKeeps(Seeded(2), 3, 4, PLAYER1);
  }

  lemma InitialStep()
    ensures Seeded(4) == MarkIndicators(Update(Seeded(3), 4, 4, PLAYER2), 4, 4)
    ensures IsFree(Seeded(3)[4][4])
  {
    SeededThree();
  }

  lemma InitialMarked()
    ensures WellMarked(InitialGrid())
  {
    InitialStep();
    SeededFactsThree();
    SetupKeeps(Seeded(3), 4, 4, PLAYER2);
    SeedingEndsInitial(4);
  }

  lemma InitialCounts()
    ensures Count(InitialGrid(), PLAYER1) == 2 && Count(InitialGrid(), PLAYER2) == 2
  {
    InitialStep();
    SeededFactsThree();
    SetupKeeps(Seeded(3), 4, 4, PLAYER2);
    SeedingEndsInitial(4);
  }

  /** The seed position satisfies the indicator invariant, and each player starts with two pieces. */
  lemma InitialGridFacts()
    ensures WellMarked(InitialGrid())
    ensures Count(InitialGrid(), PLAYER1) == 2 && Count(InitialGrid(), PLAYER2) == 2
  {
    InitialMarked();
    InitialCounts();
  }
}

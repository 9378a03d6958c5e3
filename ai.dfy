/** The search bot, as the array code it runs: listing the moves of a position,
    scoring a position, playing a move on a copy of the board, the alpha-beta
    search and the choice of a move. The player the search maximizes for, a
    global in the bot, is the parameter maxP here. Each method is proved
    against the value it computes in module Search. */
module Bot {
  import opened Board
  import opened Tally
  import opened Placement
  import opened Scan
  import opened Search

  /** A move is valid exactly when its cell holds an indicator. */
  method ValidMove(board: array2<int>, row: int, col: int) returns (ok: bool)
    requires IsBoardArray(board) && InBounds(row, col)
    ensures ok <==> Snapshot(board)[row][col] == INDICATOR
  {
    ok := board[row, col] == INDICATOR;
  }

  /** Every valid move, row by row; which player is to move makes no difference. */
  method AllPossibleMoves(board: array2<int>, player: int) returns (moves: seq<Cell>)
    requires IsBoardArray(board)
    ensures moves == Moves(Snapshot(board))
  {
    ghost var b := Snapshot(board);
    ghost var n := 0;
    moves := [];
    for i := 0 to NUMROW
      invariant Snapshot(board) == b
      invariant n == i * NUMCOL && moves == MovesUpTo(b, n)
    {
      for j := 0 to NUMCOL
        invariant Snapshot(board) == b
        invariant n == i * NUMCOL + j && moves == MovesUpTo(b, n)
      {
        var ok := ValidMove(board, i, j);
        MovesUpToStep(b, i, j, n, ok);
        if ok {
          moves := moves + [Cell(i, j)];
        }
        n := n + 1;
      }
    }
  }

  /** The pieces of maxP minus the pieces of the other player, counted cell by cell. */
  method EvaluatePieceDifference(board: array2<int>, maxP: int) returns (e: int)
    requires IsBoardArray(board) && IsPlayer(maxP)
    ensures e == PieceDifference(Snapshot(board), maxP)
  {
    ghost var b := Snapshot(board);
    var nonMaxP := (maxP + 1) % NUMPLAYER;
    var maxPieces, nonMaxPieces := 0, 0;
    for i := 0 to NUMROW
      invariant maxPieces == GridCount(b, maxP, i) && nonMaxPieces == GridCount(b, nonMaxP, i)
    {
      for j := 0 to NUMCOL
        invariant maxPieces == GridCount(b, maxP, i) + RowCount(b[i], maxP, j)
        invariant nonMaxPieces == GridCount(b, nonMaxP, i) + RowCount(b[i], nonMaxP, j)
      {
        if board[i, j] == maxP {
          maxPieces := maxPieces + 1;
        } else if board[i, j] == nonMaxP {
          nonMaxPieces := nonMaxPieces + 1;
        }
      }
    }
    e := maxPieces - nonMaxPieces;
  }

  /** The evaluation of a position is its piece difference. */
  method EvaluatePosition(board: array2<int>, maxP: int) returns (e: int)
    requires IsBoardArray(board) && IsPlayer(maxP)
    ensures e == PieceDifference(Snapshot(board), maxP)
    ensures -AREA <= e <= AREA
  {
    e := EvaluatePieceDifference(board, maxP);
  }

  /** A fresh board with the move played: the piece placed, the eight rays
      outflanked, then the indicators set. The board passed in is left as it was,
      and the result is the board the live engine makes of the same move. */
  method BoardAfterMove(board: array2<int>, curPlayer: int, move: Cell) returns (newBoard: array2<int>)
    requires IsBoardArray(board) && IsPlayer(curPlayer) && InBounds(move.row, move.col)
    ensures fresh(newBoard) && IsBoardArray(newBoard)
    ensures Snapshot(newBoard) == BotBoard(Snapshot(board), move.row, move.col, curPlayer)
    ensures Snapshot(newBoard) == EngineBoard(Snapshot(board), move.row, move.col, curPlayer)
  {
    var row, col := move.row, move.col;
    newBoard := CopyBoard(board);
    Put(newBoard, row, col, curPlayer);
    ghost var placed := Snapshot(newBoard);
    var n := FlankRay(newBoard, row, col, Right, curPlayer);
    n := FlankRay(newBoard, row, col, Left, curPlayer);
    n := FlankRay(newBoard, row, col, Down, curPlayer);
    n := FlankRay(newBoard, row, col, Up, curPlayer);
    n := FlankRay(newBoard, row, col, UpLeft, curPlayer);
    n := FlankRay(newBoard, row, col, UpRight, curPlayer);
    n := FlankRay(newBoard, row, col, DownLeft, curPlayer);
    n := FlankRay(newBoard, row, col, DownRight, curPlayer);
    FlankOrderBoard(placed, row, col, curPlayer);
    SetIndicators(newBoard, row, col);
    BoardsAgree(Snapshot(board), row, col, curPlayer);
  }

  /** The alpha-beta search of node, depth plies deep, with window (alpha, beta). */
  method Minimax(node: array2<int>, depth: int, alpha: int, beta: int, max: bool, maxP: int) returns (bestEval: int)
    requires IsBoardArray(node) && IsPlayer(maxP)
    ensures bestEval == AlphaBeta(Snapshot(node), depth, alpha, beta, max, maxP)
    decreases Free(Snapshot(node)), 1
  {
    if depth == 0 {
      bestEval := EvaluatePosition(node, maxP);
    } else if max {
      bestEval := MaxLoop(node, depth, alpha, beta, maxP);
    } else {
      bestEval := MinLoop(node, depth, alpha, beta, maxP);
    }
  }

  /** The maximizing branch of Minimax: every move of maxP in turn, raising
      alpha, until beta <= alpha. */
  method MaxLoop(node: array2<int>, depth: int, alpha: int, beta: int, maxP: int) returns (bestEval: int)
    requires IsBoardArray(node) && IsPlayer(maxP)
    ensures bestEval == ABMaxFrom(Snapshot(node), depth, alpha, beta, maxP, MIN_VALUE, 0)
    decreases Free(Snapshot(node)), 0
  {
    ghost var b := Snapshot(node);
    bestEval := MIN_VALUE;
    var a := alpha;
    var moves := AllPossibleMoves(node, maxP);
    var i := 0;
    while i < |moves|
      invariant 0 <= i <= |moves| == |Moves(b)| && moves == Moves(b)
      invariant MIN_VALUE <= bestEval <= MAX_VALUE
      invariant ABMaxFrom(b, depth, a, beta, maxP, bestEval, i) == ABMaxFrom(b, depth, alpha, beta, maxP, MIN_VALUE, 0)
    {
      MoveIsIndicator(b, i);
      var newNode := BoardAfterMove(node, maxP, moves[i]);
      assert Snapshot(newNode) == Child(b, i, maxP);
      var childEval := Minimax(newNode, depth - 1, a, beta, false, maxP);
      bestEval := Max(bestEval, childEval);
      a := Max(a, bestEval);
      if beta <= a {
        break;
      }
      i := i + 1;
    }
  }

  /** The minimizing branch of Minimax: every move of the opponent in turn,
      lowering beta, until beta <= alpha. */
  method MinLoop(node: array2<int>, depth: int, alpha: int, beta: int, maxP: int) returns (bestEval: int)
    requires IsBoardArray(node) && IsPlayer(maxP)
    ensures bestEval == ABMinFrom(Snapshot(node), depth, alpha, beta, maxP, MAX_VALUE, 0)
    decreases Free(Snapshot(node)), 0
  {
    ghost var b := Snapshot(node);
    bestEval := MAX_VALUE;
    var bt := beta;
    var moves := AllPossibleMoves(node, Enemy(maxP));
    var i := 0;
    while i < |moves|
      invariant 0 <= i <= |moves| == |Moves(b)| && moves == Moves(b)
      invariant MIN_VALUE <= bestEval <= MAX_VALUE
      invariant ABMinFrom(b, depth, alpha, bt, maxP, bestEval, i) == ABMinFrom(b, depth, alpha, beta, maxP, MAX_VALUE, 0)
    {
      MoveIsIndicator(b, i);
      var newNode := BoardAfterMove(node, Enemy(maxP), moves[i]);
      assert Snapshot(newNode) == Child(b, i, Enemy(maxP));
      var childEval := Minimax(newNode, depth - 1, alpha, bt, true, maxP);
      bestEval := Min(bestEval, childEval);
      bt := Min(bt, bestEval);
      if bt <= alpha {
        break;
      }
      i := i + 1;
    }
  }

  /** The move the bot plays for player: each move is searched with a fresh
      full window, and the first one whose value beats all before it wins;
      None when there is no move or every move is worth MIN_VALUE. */
  method MakeMove(node: array2<int>, player: int, depth: int) returns (bestMove: Option<Cell>)
    requires IsBoardArray(node) && IsPlayer(player)
    ensures bestMove == BestMove(Snapshot(node), player, depth)
  {
    ghost var b := Snapshot(node);
    ghost var s := Scores(b, depth, player);
    var bestEval := MIN_VALUE;
    bestMove := None;
    ghost var best: Option<nat> := None;
    var moves := AllPossibleMoves(node, player);
    for i := 0 to |moves|
      invariant moves == Moves(b) && |s| == |moves|
      invariant best.Some? ==> best.value < |moves|
      invariant bestMove == if best.Some? then Some(moves[best.value]) else None
      invariant FirstBest(s, i, bestEval, best) == BestIndex(b, player, depth)
    {
      MoveIsIndicator(b, i);
      var newNode := BoardAfterMove(node, player, moves[i]);
      assert Snapshot(newNode) == Child(b, i, player);
      var childEval := Minimax(newNode, depth - 1, MIN_VALUE, MAX_VALUE, false, player);
      ScoreBySearch(b, depth, player, i);
      if childEval > bestEval {
        bestEval := childEval;
        bestMove := Some(moves[i]);
        best := Some(i);
      }
    }
  }
}

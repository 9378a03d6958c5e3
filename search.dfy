/** What the search bot computes, as values: the moves it considers, how it
    scores a position, the plain minimax value of a position, the alpha-beta
    value its pruned search returns, and the move it picks. The bot's array
    code is proved against these functions; the lemmas here say what they mean. */
module Search {
  import opened Board
  import opened Tally
  import opened Placement

  /** The extreme values of a 32-bit int, which the search uses as minus and
      plus infinity. */
  const MIN_VALUE: int := -0x8000_0000
  const MAX_VALUE: int := 0x7fff_ffff

  /** The coordinates of a move. */
  datatype Cell = Cell(row: int, col: int)

  function Max(x: int, y: int): int {
    if x >= y then x else y
  }

  function Min(x: int, y: int): int {
    if x <= y then x else y
  }

  // ---------------------------------------------------------------- moves

  /** The row-major position of a cell: the order in which the move loop visits it. */
  function Index(m: Cell): int {
    m.row * NUMCOL + m.col
  }

  /** The cell at row-major position k. */
  function CellAt(k: nat): (m: Cell)
    requires k < AREA
    ensures InBounds(m.row, m.col) && Index(m) == k
  {
    Cell(k / NUMCOL, k % NUMCOL)
  }

  lemma CellAtIndex(i: int, j: int)
    requires InBounds(i, j)
    ensures 0 <= Index(Cell(i, j)) < AREA && CellAt(Index(Cell(i, j))) == Cell(i, j)
  {
  }

  /** The indicator cells among the first n cells in row-major order, in that order. */
  function MovesUpTo(b: Grid, n: nat): seq<Cell>
    requires IsGrid(b) && n <= AREA
  {
    if n == 0 then []
    else
      var m := CellAt(n - 1);
      if b[m.row][m.col] == INDICATOR then MovesUpTo(b, n - 1) + [m] else MovesUpTo(b, n - 1)
  }

  /** Visiting cell (i, j), the n-th in row-major order, adds it to the moves
      exactly when it holds an indicator. */
  lemma MovesUpToStep(b: Grid, i: int, j: int, n: nat, ok: bool)
    requires IsGrid(b) && InBounds(i, j) && n == i * NUMCOL + j
    requires ok <==> b[i][j] == INDICATOR
    ensures n < AREA
    ensures MovesUpTo(b, n + 1) == if ok then MovesUpTo(b, n) + [Cell(i, j)] else MovesUpTo(b, n)
  {
    CellAtIndex(i, j);
  }

  /** Every move the bot considers, for either player: the indicator cells, row by row. */
  function Moves(b: Grid): seq<Cell>
    requires IsGrid(b)
  {
    MovesUpTo(b, AREA)
  }

  lemma {:induction false} MovesUpToSound(b: Grid, n: nat)
    requires IsGrid(b) && n <= AREA
    ensures forall k :: 0 <= k < |MovesUpTo(b, n)| ==>
      var m := MovesUpTo(b, n)[k];
      InBounds(m.row, m.col) && b[m.row][m.col] == INDICATOR && Index(m) < n
  {
    if n > 0 {
      MovesUpToSound(b, n - 1);
    }
  }

  lemma {:induction false} MovesUpToComplete(b: Grid, n: nat)
    requires IsGrid(b) && n <= AREA
    ensures forall i, j :: InBounds(i, j) && Index(Cell(i, j)) < n && b[i][j] == INDICATOR ==>
      Cell(i, j) in MovesUpTo(b, n)
  {
    if n > 0 {
      MovesUpToComplete(b, n - 1);
      forall i, j | InBounds(i, j) && Index(Cell(i, j)) == n - 1
        ensures Cell(i, j) == CellAt(n - 1)
      {
        CellAtIndex(i, j);
      }
    }
  }

  lemma {:induction false} MovesUpToOrdered(b: Grid, n: nat)
    requires IsGrid(b) && n <= AREA
    ensures forall x, y :: 0 <= x < y < |MovesUpTo(b, n)| ==> Index(MovesUpTo(b, n)[x]) < Index(MovesUpTo(b, n)[y])
  {
    if n > 0 {
      MovesUpToOrdered(b, n - 1);
      MovesUpToSound(b, n - 1);
    }
  }

  /** A cell is among the moves exactly when it is on the board and holds an indicator. */
  lemma MovesExact(b: Grid)
    requires IsGrid(b)
    ensures forall i, j :: Cell(i, j) in Moves(b) <==> InBounds(i, j) && b[i][j] == INDICATOR
  {
    MovesUpToSound(b, AREA);
    MovesUpToComplete(b, AREA);
    forall i, j | InBounds(i, j)
      ensures Index(Cell(i, j)) < AREA
    {
      CellAtIndex(i, j);
    }
  }

  /** The moves come in row-major order, each cell once. */
  lemma MovesOrdered(b: Grid)
    requires IsGrid(b)
    ensures forall x, y :: 0 <= x < y < |Moves(b)| ==> Index(Moves(b)[x]) < Index(Moves(b)[y])
  {
    MovesUpToOrdered(b, AREA);
  }

  lemma MoveIsIndicator(b: Grid, i: nat)
    requires IsGrid(b) && i < |Moves(b)|
    ensures InBounds(Moves(b)[i].row, Moves(b)[i].col)
    ensures b[Moves(b)[i].row][Moves(b)[i].col] == INDICATOR
  {
    MovesUpToSound(b, AREA);
  }

  /** The position after p plays the i-th move; it has one free cell fewer. */
  function Child(b: Grid, i: nat, p: int): (c: Grid)
    requires IsGrid(b) && IsPlayer(p) && i < |Moves(b)|
    ensures IsGrid(c) && Free(c) == Free(b) - 1
  {
    var m := Moves(b)[i];
    MoveIsIndicator(b, i);
    BotFree(b, m.row, m.col, p);
    BotBoard(b, m.row, m.col, p)
  }

  // ---------------------------------------------------------------- evaluation

  /** The score of a position for maxP: its pieces minus the opponent's. */
  function PieceDifference(b: Grid, maxP: int): (e: int)
    requires IsGrid(b) && IsPlayer(maxP)
    ensures -AREA <= e <= AREA
  {
    Count(b, maxP) - Count(b, Enemy(maxP))
  }

  // ---------------------------------------------------------------- folds over values

  /** The largest of s[i..], MIN_VALUE for none. */
  function MaxFrom(s: seq<int>, i: nat): int
    requires i <= |s|
    decreases |s| - i
  {
    if i == |s| then MIN_VALUE else Max(s[i], MaxFrom(s, i + 1))
  }

  /** The smallest of s[i..], MAX_VALUE for none. */
  function MinFrom(s: seq<int>, i: nat): int
    requires i <= |s|
    decreases |s| - i
  {
    if i == |s| then MAX_VALUE else Min(s[i], MinFrom(s, i + 1))
  }

  predicate InRange(s: seq<int>) {
    forall k :: 0 <= k < |s| ==> MIN_VALUE <= s[k] <= MAX_VALUE
  }

  lemma {:induction false} MaxFromIsMax(s: seq<int>, i: nat)
    requires i <= |s| && InRange(s)
    ensures MIN_VALUE <= MaxFrom(s, i) <= MAX_VALUE
    ensures forall k :: i <= k < |s| ==> s[k] <= MaxFrom(s, i)
    ensures i < |s| ==> exists k :: i <= k < |s| && MaxFrom(s, i) == s[k]
    decreases |s| - i
  {
    if i < |s| {
      MaxFromIsMax(s, i + 1);
    }
  }

  lemma {:induction false} MinFromIsMin(s: seq<int>, i: nat)
    requires i <= |s| && InRange(s)
    ensures MIN_VALUE <= MinFrom(s, i) <= MAX_VALUE
    ensures forall k :: i <= k < |s| ==> MinFrom(s, i) <= s[k]
    ensures i < |s| ==> exists k :: i <= k < |s| && MinFrom(s, i) == s[k]
    decreases |s| - i
  {
    if i < |s| {
      MinFromIsMin(s, i + 1);
    }
  }

  // ---------------------------------------------------------------- plain minimax

  /** The minimax value of b searched depth plies deep for maxP: the score at
      depth 0, otherwise the best child value for the side to move, which is
      MIN_VALUE for a maximizing node without moves and MAX_VALUE for a
      minimizing one. A negative depth never reaches 0, so the search runs to
      positions without moves; it ends because every move fills a free cell. */
  function Minimax(b: Grid, depth: int, maxNode: bool, maxP: int): (v: int)
    requires IsGrid(b) && IsPlayer(maxP)
    ensures MIN_VALUE <= v <= MAX_VALUE
    decreases Free(b), 2
  {
    if depth == 0 then PieceDifference(b, maxP)
    else if maxNode then
      var s := Scores(b, depth, maxP);
      MaxFromIsMax(s, 0);
      MaxFrom(s, 0)
    else
      var s := Replies(b, depth, maxP);
      MinFromIsMin(s, 0);
      MinFrom(s, 0)
  }

  /** The values of the moves of maxP at a maximizing node, in move order. */
  function Scores(b: Grid, depth: int, maxP: int): (s: seq<int>)
    requires IsGrid(b) && IsPlayer(maxP)
    ensures |s| == |Moves(b)| && InRange(s)
    decreases Free(b), 1
  {
    seq(|Moves(b)|, k requires 0 <= k < |Moves(b)| => Score(b, depth, maxP, k))
  }

  /** The values of the opponent's moves at a minimizing node, in move order. */
  function Replies(b: Grid, depth: int, maxP: int): (s: seq<int>)
    requires IsGrid(b) && IsPlayer(maxP)
    ensures |s| == |Moves(b)| && InRange(s)
    decreases Free(b), 1
  {
    seq(|Moves(b)|, k requires 0 <= k < |Moves(b)| => Reply(b, depth, maxP, k))
  }

  /** The value of the i-th move of maxP at a maximizing node searched depth
      plies deep: the opponent answers next. */
  function Score(b: Grid, depth: int, maxP: int, i: nat): (v: int)
    requires IsGrid(b) && IsPlayer(maxP) && i < |Moves(b)|
    ensures MIN_VALUE <= v <= MAX_VALUE
    decreases Free(b), 0
  {
    Minimax(Child(b, i, maxP), depth - 1, false, maxP)
  }

  /** The value of the i-th move of the opponent at a minimizing node: maxP
      answers next. */
  function Reply(b: Grid, depth: int, maxP: int, i: nat): (v: int)
    requires IsGrid(b) && IsPlayer(maxP) && i < |Moves(b)|
    ensures MIN_VALUE <= v <= MAX_VALUE
    decreases Free(b), 0
  {
    Minimax(Child(b, i, Enemy(maxP)), depth - 1, true, maxP)
  }

  /** Away from depth 0, a maximizing node is worth its best move for maxP,
      and MIN_VALUE when there is no move (even on a full board). */
  lemma MaxNodeValue(b: Grid, depth: int, maxP: int)
    requires IsGrid(b) && IsPlayer(maxP) && depth != 0
    ensures forall k :: 0 <= k < |Moves(b)| ==>
      Score(b, depth, maxP, k) <= Minimax(b, depth, true, maxP)
    ensures Moves(b) == [] ==> Minimax(b, depth, true, maxP) == MIN_VALUE
    ensures Moves(b) != [] ==> exists k :: (0 <= k < |Moves(b)| &&
      Minimax(b, depth, true, maxP) == Score(b, depth, maxP, k))
  {
    var s := Scores(b, depth, maxP);
    MaxFromIsMax(s, 0);
    assert forall k :: 0 <= k < |s| ==> s[k] == Score(b, depth, maxP, k);
  }

  /** Away from depth 0, a minimizing node is worth the opponent's best reply,
      and MAX_VALUE when there is no move. */
  lemma MinNodeValue(b: Grid, depth: int, maxP: int)
    requires IsGrid(b) && IsPlayer(maxP) && depth != 0
    ensures forall k :: 0 <= k < |Moves(b)| ==>
      Minimax(b, depth, false, maxP) <= Reply(b, depth, maxP, k)
    ensures Moves(b) == [] ==> Minimax(b, depth, false, maxP) == MAX_VALUE
    ensures Moves(b) != [] ==> exists k :: (0 <= k < |Moves(b)| &&
      Minimax(b, depth, false, maxP) == Reply(b, depth, maxP, k))
  {
    var s := Replies(b, depth, maxP);
    MinFromIsMin(s, 0);
    assert forall k :: 0 <= k < |s| ==> s[k] == Reply(b, depth, maxP, k);
  }

  // ---------------------------------------------------------------- alpha-beta

  /** The value the pruned search returns for b with window (alpha, beta). */
  function AlphaBeta(b: Grid, depth: int, alpha: int, beta: int, maxNode: bool, maxP: int): (v: int)
    requires IsGrid(b) && IsPlayer(maxP)
    ensures MIN_VALUE <= v <= MAX_VALUE
    decreases Free(b), 1
  {
    if depth == 0 then PieceDifference(b, maxP)
    else if maxNode then ABMaxFrom(b, depth, alpha, beta, maxP, MIN_VALUE, 0)
    else ABMinFrom(b, depth, alpha, beta, maxP, MAX_VALUE, 0)
  }

  /** The maximizing loop from the i-th move on, with the best value so far and
      the current alpha; it stops as soon as beta <= alpha. */
  function ABMaxFrom(b: Grid, depth: int, alpha: int, beta: int, maxP: int, best: int, i: nat): (v: int)
    requires IsGrid(b) && IsPlayer(maxP) && i <= |Moves(b)|
    requires MIN_VALUE <= best <= MAX_VALUE
    ensures MIN_VALUE <= v <= MAX_VALUE
    decreases Free(b), 0, |Moves(b)| - i
  {
    if i == |Moves(b)| then best
    else
      var childEval := AlphaBeta(Child(b, i, maxP), depth - 1, alpha, beta, false, maxP);
      var best' := Max(best, childEval);
      var alpha' := Max(alpha, best');
      if beta <= alpha' then best' else ABMaxFrom(b, depth, alpha', beta, maxP, best', i + 1)
  }

  /** The minimizing loop from the i-th move on, with the best value so far and
      the current beta; it stops as soon as beta <= alpha. */
  function ABMinFrom(b: Grid, depth: int, alpha: int, beta: int, maxP: int, best: int, i: nat): (v: int)
    requires IsGrid(b) && IsPlayer(maxP) && i <= |Moves(b)|
    requires MIN_VALUE <= best <= MAX_VALUE
    ensures MIN_VALUE <= v <= MAX_VALUE
    decreases Free(b), 0, |Moves(b)| - i
  {
    if i == |Moves(b)| then best
    else
      var childEval := AlphaBeta(Child(b, i, Enemy(maxP)), depth - 1, alpha, beta, true, maxP);
      var best' := Min(best, childEval);
      var beta' := Min(beta, best');
      if beta' <= alpha then best' else ABMinFrom(b, depth, alpha, beta', maxP, best', i + 1)
  }

  // ---------------------------------------------------------------- pruning is sound

  /** v cut to the window [lo, hi]. */
  function Clamp(v: int, lo: int, hi: int): int
    requires lo < hi
  {
    if v < lo then lo else if v > hi then hi else v
  }

  /** Inside a window alpha < beta the pruned value agrees with the minimax
      value: equal when the minimax value lies strictly inside, and on the same
      side of the window otherwise. */
  lemma {:induction false} WindowAgrees(b: Grid, depth: int, alpha: int, beta: int, maxNode: bool, maxP: int)
    requires IsGrid(b) && IsPlayer(maxP)
    requires MIN_VALUE <= alpha < beta <= MAX_VALUE
    ensures Clamp(AlphaBeta(b, depth, alpha, beta, maxNode, maxP), alpha, beta) ==
      Clamp(Minimax(b, depth, maxNode, maxP), alpha, beta)
    decreases Free(b), 1
  {
    if depth != 0 {
      if maxNode {
        MaxLoopAgrees(b, depth, alpha, alpha, beta, maxP, MIN_VALUE, 0);
      } else {
        MinLoopAgrees(b, depth, alpha, beta, beta, maxP, MAX_VALUE, 0);
      }
    }
  }

  /** One step of the maximizing loop, on values alone: c is the pruned value of
      the child and m its minimax value, agreeing inside (alpha, beta); rest is
      the minimax value of the remaining children and r what the loop returns. */
  lemma MaxStep(alpha0: int, alpha: int, beta: int, best: int, c: int, m: int, rest: int, r: int)
    requires alpha == Max(alpha0, best) && alpha < beta
    requires Clamp(c, alpha, beta) == Clamp(m, alpha, beta)
    requires Max(alpha, Max(best, c)) < beta ==> Clamp(r, alpha0, beta) == Clamp(Max(Max(best, c), rest), alpha0, beta)
    requires beta <= Max(alpha, Max(best, c)) ==> r == Max(best, c)
    ensures Clamp(r, alpha0, beta) == Clamp(Max(best, Max(m, rest)), alpha0, beta)
  {
  }

  /** One step of the minimizing loop, on values alone. */
  lemma MinStep(alpha: int, beta0: int, beta: int, best: int, c: int, m: int, rest: int, r: int)
    requires beta == Min(beta0, best) && alpha < beta
    requires Clamp(c, alpha, beta) == Clamp(m, alpha, beta)
    requires alpha < Min(beta, Min(best, c)) ==> Clamp(r, alpha, beta0) == Clamp(Min(Min(best, c), rest), alpha, beta0)
    requires Min(beta, Min(best, c)) <= alpha ==> r == Min(best, c)
    ensures Clamp(r, alpha, beta0) == Clamp(Min(best, Min(m, rest)), alpha, beta0)
  {
  }

  /** The maximizing loop, entered with window (alpha0, beta) and having reached
      the i-th move with best value best and alpha == max(alpha0, best). */
  lemma {:induction false} MaxLoopAgrees(b: Grid, depth: int, alpha0: int, alpha: int, beta: int, maxP: int, best: int, i: nat)
    requires IsGrid(b) && IsPlayer(maxP) && i <= |Moves(b)|
    requires MIN_VALUE <= alpha0 && MIN_VALUE <= best && beta <= MAX_VALUE
    requires alpha == Max(alpha0, best) && alpha < beta
    ensures Clamp(ABMaxFrom(b, depth, alpha, beta, maxP, best, i), alpha0, beta) ==
      Clamp(Max(best, MaxFrom(Scores(b, depth, maxP), i)), alpha0, beta)
    decreases Free(b), 0, |Moves(b)| - i
  {
    if i < |Moves(b)| {
      var child := Child(b, i, maxP);
      WindowAgrees(child, depth - 1, alpha, beta, false, maxP);
      var c := AlphaBeta(child, depth - 1, alpha, beta, false, maxP);
      var best' := Max(best, c);
      var alpha' := Max(alpha, best');
      if alpha' < beta {
        MaxLoopAgrees(b, depth, alpha0, alpha', beta, maxP, best', i + 1);
      }
      var s := Scores(b, depth, maxP);
      assert s[i] == Score(b, depth, maxP, i);
      MaxStep(alpha0, alpha, beta, best, c, s[i], MaxFrom(s, i + 1), ABMaxFrom(b, depth, alpha, beta, maxP, best, i));
    }
  }

  /** The minimizing loop, entered with window (alpha, beta0) and having reached
      the i-th move with best value best and beta == min(beta0, best). */
  lemma {:induction false} MinLoopAgrees(b: Grid, depth: int, alpha: int, beta0: int, beta: int, maxP: int, best: int, i: nat)
    requires IsGrid(b) && IsPlayer(maxP) && i <= |Moves(b)|
    requires MIN_VALUE <= alpha && best <= MAX_VALUE && beta0 <= MAX_VALUE
    requires beta == Min(beta0, best) && alpha < beta
    ensures Clamp(ABMinFrom(b, depth, alpha, beta, maxP, best, i), alpha, beta0) ==
      Clamp(Min(best, MinFrom(Replies(b, depth, maxP), i)), alpha, beta0)
    decreases Free(b), 0, |Moves(b)| - i
  {
    if i < |Moves(b)| {
      var child := Child(b, i, Enemy(maxP));
      WindowAgrees(child, depth - 1, alpha, beta, true, maxP);
      var c := AlphaBeta(child, depth - 1, alpha, beta, true, maxP);
      var best' := Min(best, c);
      var beta' := Min(beta, best');
      if alpha < beta' {
        MinLoopAgrees(b, depth, alpha, beta0, beta', maxP, best', i + 1);
      }
      var s := Replies(b, depth, maxP);
      assert s[i] == Reply(b, depth, maxP, i);
      MinStep(alpha, beta0, beta, best, c, s[i], MinFrom(s, i + 1), ABMinFrom(b, depth, alpha, beta, maxP, best, i));
    }
  }

  /** With the full window the pruned search returns exactly the minimax value. */
  lemma FullWindow(b: Grid, depth: int, maxNode: bool, maxP: int)
    requires IsGrid(b) && IsPlayer(maxP)
    ensures AlphaBeta(b, depth, MIN_VALUE, MAX_VALUE, maxNode, maxP) == Minimax(b, depth, maxNode, maxP)
  {
    WindowAgrees(b, depth, MIN_VALUE, MAX_VALUE, maxNode, maxP);
  }

  // ---------------------------------------------------------------- choosing a move

  /** The value of a move at the top of the search is what the pruned search
      of its child returns with the full window. */
  lemma ScoreBySearch(b: Grid, depth: int, p: int, i: nat)
    requires IsGrid(b) && IsPlayer(p) && i < |Moves(b)|
    ensures Scores(b, depth, p)[i] == AlphaBeta(Child(b, i, p), depth - 1, MIN_VALUE, MAX_VALUE, false, p)
  {
    FullWindow(Child(b, i, p), depth - 1, false, p);
    assert Scores(b, depth, p)[i] == Score(b, depth, p, i);
  }

  /** The choice loop over the move values s from the i-th on, holding the best
      value so far and the index of the move that first reached it. */
  function FirstBest(s: seq<int>, i: nat, bestEval: int, best: Option<nat>): (r: Option<nat>)
    requires i <= |s| && (best.Some? ==> best.value < |s|)
    ensures r.Some? ==> r.value < |s|
    decreases |s| - i
  {
    if i == |s| then best
    else if s[i] > bestEval then FirstBest(s, i + 1, s[i], Some(i))
    else FirstBest(s, i + 1, bestEval, best)
  }

  /** The index, among the moves of p, of the move the bot picks, or None. */
  function BestIndex(b: Grid, p: int, depth: int): (r: Option<nat>)
    requires IsGrid(b) && IsPlayer(p)
    ensures r.Some? ==> r.value < |Moves(b)|
  {
    FirstBest(Scores(b, depth, p), 0, MIN_VALUE, None)
  }

  /** The move the bot picks for p with a search depth plies deep, or None where
      the bot returns no move. */
  function BestMove(b: Grid, p: int, depth: int): Option<Cell>
    requires IsGrid(b) && IsPlayer(p)
  {
    match BestIndex(b, p, depth)
    case None => None
    case Some(k) => Some(Moves(b)[k])
  }

  /** The state of the choice loop after the first i values: no move yet while
      every value was MIN_VALUE, else the first index with the highest value so
      far, which beats MIN_VALUE. */
  ghost predicate Leading(s: seq<int>, i: nat, bestEval: int, best: Option<nat>)
    requires i <= |s|
  {
    match best
    case None =>
      bestEval == MIN_VALUE && forall j :: 0 <= j < i ==> s[j] <= MIN_VALUE
    case Some(k) =>
      k < i && bestEval == s[k] && bestEval > MIN_VALUE &&
      (forall j :: 0 <= j < i ==> s[j] <= bestEval) &&
      (forall j :: 0 <= j < k ==> s[j] < bestEval)
  }

  lemma {:induction false} FirstBestLeads(s: seq<int>, i: nat, bestEval: int, best: Option<nat>)
    requires i <= |s| && Leading(s, i, bestEval, best)
    ensures var r := FirstBest(s, i, bestEval, best);
      Leading(s, |s|, if r.Some? then s[r.value] else MIN_VALUE, r)
    decreases |s| - i
  {
    if i < |s| {
      if s[i] > bestEval {
        FirstBestLeads(s, i + 1, s[i], Some(i));
      } else {
        FirstBestLeads(s, i + 1, bestEval, best);
      }
    }
  }

  /** The first index with the highest value, if that value beats MIN_VALUE. */
  lemma FirstBestSpec(s: seq<int>)
    requires InRange(s)
    ensures FirstBest(s, 0, MIN_VALUE, None) == None <==> forall j :: 0 <= j < |s| ==> s[j] == MIN_VALUE
    ensures FirstBest(s, 0, MIN_VALUE, None).Some? ==>
      var k := FirstBest(s, 0, MIN_VALUE, None).value;
      s[k] > MIN_VALUE && (forall j :: 0 <= j < |s| ==> s[j] <= s[k]) && (forall j :: 0 <= j < k ==> s[j] < s[k])
  {
    FirstBestLeads(s, 0, MIN_VALUE, None);
  }

  /** The bot's choice: None exactly when there is no move or every move is
      worth MIN_VALUE; otherwise the first move, in row-major order, with the
      highest value, and that value beats MIN_VALUE. */
  lemma BestMoveSpec(b: Grid, p: int, depth: int)
    requires IsGrid(b) && IsPlayer(p)
    ensures var s := Scores(b, depth, p);
      (BestMove(b, p, depth) == None <==> forall j :: 0 <= j < |s| ==> s[j] == MIN_VALUE)
    ensures var s := Scores(b, depth, p);
      BestIndex(b, p, depth).Some? ==>
      var k := BestIndex(b, p, depth).value;
      BestMove(b, p, depth) == Some(Moves(b)[k]) && s[k] > MIN_VALUE &&
      (forall j :: 0 <= j < |s| ==> s[j] <= s[k]) && (forall j :: 0 <= j < k ==> s[j] < s[k])
  {
    var s := Scores(b, depth, p);
    FirstBestSpec(s);
    assert BestIndex(b, p, depth) == FirstBest(s, 0, MIN_VALUE, None);
  }

  /** A position without an indicator leaves the bot without a move. */
  lemma NoMoveWithoutIndicator(b: Grid, p: int, depth: int)
    requires IsGrid(b) && IsPlayer(p)
    requires forall i, j :: InBounds(i, j) ==> b[i][j] != INDICATOR
    ensures BestMove(b, p, depth) == None
  {
    BestMoveSpec(b, p, depth);
    MovesExact(b);
    if Moves(b) != [] {
      var m := Moves(b)[0];
      assert Cell(m.row, m.col) in Moves(b);
    }
  }
}

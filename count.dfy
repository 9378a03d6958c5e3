/** Counting the cells of a board that hold a given value, row by row and cell by
    cell, in the order the evaluation loop visits them; and how the counts move
    when a piece is placed, when a run is outflanked and when indicators are set. */
module Tally {
  import opened Board

  /** The number of the first j entries of row that hold v. Also used on the
      per-player points, to count the players that have a given number of points. */
  function RowCount(row: seq<int>, v: int, j: nat): (n: nat)
    requires j <= |row|
    ensures n <= j
  {
    if j == 0 then 0 else RowCount(row, v, j - 1) + (if row[j - 1] == v then 1 else 0)
  }

  /** The number of cells in the first i rows of b that hold v. */
  function GridCount(b: Grid, v: int, i: nat): (n: nat)
    requires IsGrid(b) && i <= NUMROW
    ensures n <= i * NUMCOL
  {
    if i == 0 then 0 else GridCount(b, v, i - 1) + RowCount(b[i - 1], v, NUMCOL)
  }

  /** The number of cells of b that hold v. */
  function Count(b: Grid, v: int): (n: nat)
    requires IsGrid(b)
    ensures n <= AREA
  {
    GridCount(b, v, NUMROW)
  }

  /** The number of cells on which no piece stands. */
  function Free(b: Grid): (n: nat)
    requires IsGrid(b)
  {
    Count(b, EMPTY) + Count(b, INDICATOR)
  }

  // ---------------------------------------------------------------- one cell

  lemma {:induction false} RowCountUpdate(row: seq<int>, c: int, x: int, v: int, j: nat)
    requires 0 <= c < |row| && j <= |row|
    ensures RowCount(row[c := x], v, j) ==
      RowCount(row, v, j) - (if c < j && row[c] == v then 1 else 0) + (if c < j && x == v then 1 else 0)
  {
    if j > 0 {
      RowCountUpdate(row, c, x, v, j - 1);
    }
  }

  lemma {:induction false} GridCountUpdate(b: Grid, r: int, c: int, x: int, v: int, i: nat)
    requires IsGrid(b) && InBounds(r, c) && i <= NUMROW
    ensures GridCount(Update(b, r, c, x), v, i) ==
      GridCount(b, v, i) - (if r < i && b[r][c] == v then 1 else 0) + (if r < i && x == v then 1 else 0)
  {
    if i > 0 {
      GridCountUpdate(b, r, c, x, v, i - 1);
      if i - 1 == r {
        RowCountUpdate(b[r], c, x, v, NUMCOL);
      } else {
        assert Update(b, r, c, x)[i - 1] == b[i - 1];
      }
    }
  }

  /** Writing x into one cell moves one unit of count from the old value to x. */
  lemma CountUpdate(b: Grid, r: int, c: int, x: int, v: int)
    requires IsGrid(b) && InBounds(r, c)
    ensures Count(Update(b, r, c, x), v) ==
      Count(b, v) - (if b[r][c] == v then 1 else 0) + (if x == v then 1 else 0)
  {
    GridCountUpdate(b, r, c, x, v, NUMROW);
  }

  // ---------------------------------------------------------------- outflanking

  /** Turning cells 1..n of a ray of enemy pieces to p moves n from the enemy's count to p's. */
  lemma {:induction false} FlipUpToCount(b: Grid, r: int, c: int, d: Dir, p: int, n: nat, v: int)
    requires IsGrid(b) && InBounds(r, c) && IsPlayer(p)
    requires forall k :: 1 <= k <= n ==> InRay(r, c, d, k) && RayCell(b, r, c, d, k) == Enemy(p)
    ensures Count(FlipUpTo(b, r, c, d, p, n), v) ==
      Count(b, v) + (if v == p then n as int else if v == Enemy(p) then -(n as int) else 0)
  {
    if n > 0 {
      FlipUpToCount(b, r, c, d, p, n - 1, v);
      var b0 := FlipUpTo(b, r, c, d, p, n - 1);
      var i, j := RowAt(r, d, n), ColAt(c, d, n);
      assert RayCell(b, r, c, d, n) == Enemy(p);
      RayCoordinates(r, c, d, n, i, j);
      FlipUpToCells(b, r, c, d, p, n - 1);
      assert b0[i][j] == Enemy(p);
      CountUpdate(b0, i, j, p, v);
    }
  }

  lemma FlipRayCount(b: Grid, r: int, c: int, d: Dir, p: int, v: int)
    requires IsGrid(b) && InBounds(r, c) && IsPlayer(p)
    ensures Count(FlipRay(b, r, c, d, p), v) ==
      Count(b, v) + (if v == p then Captures(b, r, c, d, p) as int else if v == Enemy(p) then -(Captures(b, r, c, d, p) as int) else 0)
  {
    var n := Captures(b, r, c, d, p);
    CapturesRun(b, r, c, d, p);
    forall k | 1 <= k <= n
      ensures InRay(r, c, d, k) && RayCell(b, r, c, d, k) == Enemy(p)
    {
    }
    FlipUpToCount(b, r, c, d, p, n, v);
  }

  /** Outflanking along ds moves exactly the reported number of pieces from the enemy to p. */
  lemma {:induction false} FlipSeqCount(b: Grid, r: int, c: int, p: int, ds: seq<Dir>, v: int)
    requires IsGrid(b) && InBounds(r, c) && IsPlayer(p)
    ensures Count(FlipSeq(b, r, c, p, ds), v) ==
      Count(b, v) + (if v == p then FlipCount(b, r, c, p, ds) as int else if v == Enemy(p) then -(FlipCount(b, r, c, p, ds) as int) else 0)
    decreases |ds|
  {
    if ds != [] {
      var init := ds[..|ds| - 1];
      FlipSeqCount(b, r, c, p, init, v);
      FlipRayCount(FlipSeq(b, r, c, p, init), r, c, ds[|ds| - 1], p, v);
    }
  }

  // ---------------------------------------------------------------- indicators

  lemma MarkOneCount(b: Grid, r: int, c: int, d: Dir, v: int)
    requires IsGrid(b)
    ensures v != EMPTY && v != INDICATOR ==> Count(MarkOne(b, r, c, d), v) == Count(b, v)
    ensures Free(MarkOne(b, r, c, d)) == Free(b)
  {
    if RayCell(b, r, c, d, 1) == EMPTY {
      var i, j := RowAt(r, d, 1), ColAt(c, d, 1);
      CountUpdate(b, i, j, INDICATOR, v);
      CountUpdate(b, i, j, INDICATOR, EMPTY);
      CountUpdate(b, i, j, INDICATOR, INDICATOR);
    }
  }

  /** Setting indicators changes no piece count and no number of free cells. */
  lemma {:induction false} MarkSeqCount(b: Grid, r: int, c: int, ds: seq<Dir>, v: int)
    requires IsGrid(b)
    ensures v != EMPTY && v != INDICATOR ==> Count(MarkSeq(b, r, c, ds), v) == Count(b, v)
    ensures Free(MarkSeq(b, r, c, ds)) == Free(b)
    decreases |ds|
  {
    if ds != [] {
      var init := ds[..|ds| - 1];
      MarkSeqCount(b, r, c, init, v);
      MarkOneCount(MarkSeq(b, r, c, init), r, c, ds[|ds| - 1], v);
    }
  }

  // ---------------------------------------------------------------- partition

  /** Every cell of b holds one of the four values the game uses. */
  ghost predicate WellFormed(b: Grid)
    requires IsGrid(b)
  {
    forall i, j :: InBounds(i, j) ==> IsFree(b[i][j]) || IsPlayer(b[i][j])
  }

  lemma {:induction false} RowCountPartition(row: seq<int>, j: nat)
    requires j <= |row|
    requires forall x :: 0 <= x < j ==> IsFree(row[x]) || IsPlayer(row[x])
    ensures RowCount(row, PLAYER1, j) + RowCount(row, PLAYER2, j) + RowCount(row, EMPTY, j) + RowCount(row, INDICATOR, j) == j
  {
    if j > 0 {
      RowCountPartition(row, j - 1);
    }
  }

  lemma {:induction false} GridCountPartition(b: Grid, i: nat)
    requires IsGrid(b) && WellFormed(b) && i <= NUMROW
    ensures GridCount(b, PLAYER1, i) + GridCount(b, PLAYER2, i) + GridCount(b, EMPTY, i) + GridCount(b, INDICATOR, i) == i * NUMCOL
  {
    if i > 0 {
      GridCountPartition(b, i - 1);
      var row := b[i - 1];
      forall x | 0 <= x < NUMCOL
        ensures IsFree(row[x]) || IsPlayer(row[x])
      {
        assert InBounds(i - 1, x);
      }
      RowCountPartition(row, NUMCOL);
    }
  }

  /** The pieces of both players and the free cells together fill the board. */
  lemma CountPartition(b: Grid)
    requires IsGrid(b) && WellFormed(b)
    ensures Count(b, PLAYER1) + Count(b, PLAYER2) + Free(b) == AREA
  {
    GridCountPartition(b, NUMROW);
  }
}

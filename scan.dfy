/** The array code shared by the live engine and the search bot: reading an
    8 by 8 int array as a board value, resolving one ray of a move in place,
    setting the indicators around a placed piece, and copying a board. */
module Scan {
  import opened Board

  predicate IsBoardArray(a: array2<int>) {
    a.Length0 == NUMROW && a.Length1 == NUMCOL
  }

  /** The board value an array holds. */
  function Snapshot(a: array2<int>): (b: Grid)
    reads a
    requires IsBoardArray(a)
    ensures IsGrid(b)
  {
    seq(NUMROW, i reads a => seq(NUMCOL, j reads a => if InBounds(i, j) then a[i, j] else EMPTY))
  }

  /** Steps out along ray d from (row, col) while the cells hold q, testing the
      bounds before each read; returns the first step that is off the board or
      does not hold q. */
  method RunEnd(a: array2<int>, row: int, col: int, d: Dir, q: int) returns (k: int)
    requires IsBoardArray(a) && InBounds(row, col) && q != OFF
    ensures k == RunFrom(Snapshot(a), row, col, d, 1, q) + 1
    ensures forall x :: 1 <= x < k ==> InRay(row, col, d, x)
  {
    ghost var b := Snapshot(a);
    k := 1;
    while InRay(row, col, d, k) && a[RowAt(row, d, k), ColAt(col, d, k)] == q
      invariant 1 <= k
      invariant forall x :: 1 <= x < k ==> InRay(row, col, d, x) && RayCell(b, row, col, d, x) == q
      decreases NUMROW - k
    {
      InRayBound(row, col, d, k);
      k := k + 1;
    }
    RunFromUnique(b, row, col, d, 1, q, k - 1);
  }

  /** Sets cells 1..m of ray d from (row, col) to p, nearest first. */
  method WriteRun(a: array2<int>, row: int, col: int, d: Dir, p: int, m: int)
    requires IsBoardArray(a) && InBounds(row, col) && m >= 0
    requires forall x :: 1 <= x <= m ==> InRay(row, col, d, x)
    modifies a
    ensures Snapshot(a) == FlipUpTo(old(Snapshot(a)), row, col, d, p, m)
  {
    ghost var b := Snapshot(a);
    var i := 1;
    while i <= m
      invariant 1 <= i <= m + 1
      invariant forall x, y :: InBounds(x, y) ==>
        a[x, y] == if OnRayWithin(row, col, d, i - 1, x, y) then p else b[x][y]
    {
      assert InRay(row, col, d, i);
      var x, y := RowAt(row, d, i), ColAt(col, d, i);
      forall u, v | InBounds(u, v)
        ensures (u == x && v == y) <==> (DirOf(row, col, u, v) == Some(d) && DistOf(row, col, u, v) == i)
      {
        RayCoordinates(row, col, d, i, u, v);
      }
      a[x, y] := p;
      i := i + 1;
    }
    FlipUpToCells(b, row, col, d, p, m);
    GridExt(Snapshot(a), FlipUpTo(b, row, col, d, p, m));
  }

  /** Outflanks along ray d from (row, col) for player p: if a piece of p closes
      the run of enemy pieces next to (row, col), the run turns to p and its
      length is returned, otherwise 0. For Left and Up the writing loop runs one
      step further and rewrites the closing piece with the value it already holds. */
  method FlankRay(a: array2<int>, row: int, col: int, d: Dir, p: int) returns (n: int)
    requires IsBoardArray(a) && InBounds(row, col) && IsPlayer(p)
    modifies a
    ensures n == Captures(old(Snapshot(a)), row, col, d, p)
    ensures Snapshot(a) == FlipRay(old(Snapshot(a)), row, col, d, p)
  {
    ghost var b := Snapshot(a);
    var enemy := (p + 1) % NUMPLAYER;
    var k := RunEnd(a, row, col, d, enemy);
    n := 0;
    if InRay(row, col, d, k) && a[RowAt(row, d, k), ColAt(col, d, k)] == p {
      n := k - 1;
      if d == Left || d == Up {
        WriteRun(a, row, col, d, p, k);
        FlipUpToClosed(b, row, col, d, p, n);
      } else {
        WriteRun(a, row, col, d, p, n);
      }
    }
    CapturesAtEnd(b, row, col, d, p, k);
  }

  /** The capture along a ray is the enemy run before the scan's stopping step
      if a piece of p stands there, and nothing otherwise. */
  lemma CapturesAtEnd(b: Grid, r: int, c: int, d: Dir, p: int, k: int)
    requires IsGrid(b) && InBounds(r, c) && IsPlayer(p)
    requires k == RunFrom(b, r, c, d, 1, Enemy(p)) + 1
    ensures Captures(b, r, c, d, p) == if InRay(r, c, d, k) && b[RowAt(r, d, k)][ColAt(c, d, k)] == p then k - 1 else 0
  {
  }

  /** Rewriting the piece that closes a run with its own value changes nothing. */
  lemma FlipUpToClosed(b: Grid, r: int, c: int, d: Dir, p: int, n: nat)
    requires IsGrid(b) && InBounds(r, c)
    requires forall x :: 1 <= x <= n + 1 ==> InRay(r, c, d, x)
    requires RayCell(b, r, c, d, n + 1) == p
    ensures FlipUpTo(b, r, c, d, p, n + 1) == FlipUpTo(b, r, c, d, p, n)
  {
    var b0 := FlipUpTo(b, r, c, d, p, n);
    var i, j := RowAt(r, d, n + 1), ColAt(c, d, n + 1);
    RayCoordinates(r, c, d, n + 1, i, j);
    FlipUpToCells(b, r, c, d, p, n);
    assert b0[i][j] == p;
    GridExt(Update(b0, i, j, p), b0);
  }

  /** One array write, seen on the snapshot: the cell (r, c) now holds v. */
  method Put(a: array2<int>, r: int, c: int, v: int)
    requires IsBoardArray(a) && InBounds(r, c)
    modifies a
    ensures Snapshot(a) == Update(old(Snapshot(a)), r, c, v)
  {
    ghost var b := Snapshot(a);
    a[r, c] := v;
    GridExt(Snapshot(a), Update(b, r, c, v));
  }

  /** Marks the neighbour of (row, col) in direction d as an indicator if it is
      on the board and EMPTY. The bounds test is the bot's top/bot/left/right
      flags (is there a row above, below, a column left, right) for that neighbour. */
  method MarkNeighbour(a: array2<int>, row: int, col: int, d: Dir)
    requires IsBoardArray(a)
    modifies a
    ensures Snapshot(a) == MarkOne(old(Snapshot(a)), row, col, d)
  {
    if InRay(row, col, d, 1) && a[RowAt(row, d, 1), ColAt(col, d, 1)] == EMPTY {
      Put(a, RowAt(row, d, 1), ColAt(col, d, 1), INDICATOR);
    }
  }

  /** Every EMPTY neighbour of (row, col) becomes an indicator, visited above,
      below, left, right, top left, top right, bottom right, bottom left. */
  method SetIndicators(a: array2<int>, row: int, col: int)
    requires IsBoardArray(a)
    modifies a
    ensures Snapshot(a) == MarkIndicators(old(Snapshot(a)), row, col)
  {
    ghost var b := Snapshot(a);
    MarkNeighbour(a, row, col, Up);
    MarkNeighbour(a, row, col, Down);
    MarkNeighbour(a, row, col, Left);
    MarkNeighbour(a, row, col, Right);
    MarkNeighbour(a, row, col, UpLeft);
    MarkNeighbour(a, row, col, UpRight);
    MarkNeighbour(a, row, col, DownRight);
    MarkNeighbour(a, row, col, DownLeft);
    MarkIndicatorsUnfold(b, row, col);
  }

  lemma MarkIndicatorsUnfold(b: Grid, r: int, c: int)
    requires IsGrid(b)
    ensures MarkIndicators(b, r, c) ==
      MarkOne(MarkOne(MarkOne(MarkOne(MarkOne(MarkOne(MarkOne(MarkOne(b,
        r, c, Up), r, c, Down), r, c, Left), r, c, Right),
        r, c, UpLeft), r, c, UpRight), r, c, DownRight), r, c, DownLeft)
  {
    var ds := IndicatorOrder;
    assert MarkSeq(b, r, c, ds[..0]) == b;
    assert ds[..1][..0] == ds[..0];
    assert MarkSeq(b, r, c, ds[..1]) == MarkOne(MarkSeq(b, r, c, ds[..0]), r, c, Up);
    assert ds[..2][..1] == ds[..1];
    assert MarkSeq(b, r, c, ds[..2]) == MarkOne(MarkSeq(b, r, c, ds[..1]), r, c, Down);
    assert ds[..3][..2] == ds[..2];
    assert MarkSeq(b, r, c, ds[..3]) == MarkOne(MarkSeq(b, r, c, ds[..2]), r, c, Left);
    assert ds[..4][..3] == ds[..3];
    assert MarkSeq(b, r, c, ds[..4]) == MarkOne(MarkSeq(b, r, c, ds[..3]), r, c, Right);
    assert ds[..5][..4] == ds[..4];
    assert MarkSeq(b, r, c, ds[..5]) == MarkOne(MarkSeq(b, r, c, ds[..4]), r, c, UpLeft);
    assert ds[..6][..5] == ds[..5];
    assert MarkSeq(b, r, c, ds[..6]) == MarkOne(MarkSeq(b, r, c, ds[..5]), r, c, UpRight);
    assert ds[..7][..6] == ds[..6];
    assert MarkSeq(b, r, c, ds[..7]) == MarkOne(MarkSeq(b, r, c, ds[..6]), r, c, DownRight);
    assert ds[..8][..7] == ds[..7];
    assert MarkSeq(b, r, c, ds[..8]) == MarkOne(MarkSeq(b, r, c, ds[..7]), r, c, DownLeft);
    assert ds[..8] == ds;
  }

  /** A fresh array holding the same board as a. */
  method CopyBoard(a: array2<int>) returns (nb: array2<int>)
    requires IsBoardArray(a)
    ensures fresh(nb) && IsBoardArray(nb)
    ensures Snapshot(nb) == Snapshot(a)
  {
    nb := new int[NUMROW, NUMCOL];
    for i := 0 to NUMROW
      invariant forall x, y :: 0 <= x < i && 0 <= y < NUMCOL ==> nb[x, y] == a[x, y]
    {
      for j := 0 to NUMCOL
        invariant forall x, y :: 0 <= x < i && 0 <= y < NUMCOL ==> nb[x, y] == a[x, y]
        invariant forall y :: 0 <= y < j ==> nb[i, y] == a[i, y]
      {
        nb[i, j] := a[i, j];
      }
    }
    GridExt(Snapshot(nb), Snapshot(a));
  }
}

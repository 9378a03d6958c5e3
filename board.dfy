/** The board rules shared by the live game engine and the search bot:
    cell values, the eight rays from a cell, outflanking along a ray,
    and indicator marks around a placed piece. Everything here works on an immutable board value;
    the array code in module Scan is proved against these functions. */
module Board {

  const NUMROW: int := 8
  const NUMCOL: int := 8
  const AREA: int := 64
  const NUMPLAYER: int := 2
  /** A free cell on which a move is currently legal. */
  const INDICATOR: int := -2
  /** A free cell on which a move is not legal. */
  const EMPTY: int := -1
  const PLAYER1: int := 0
  const PLAYER2: int := 1
  /** What a ray reads once it has left the board; never the value of a cell. */
  const OFF: int := -3

  datatype Option<T> = None | Some(value: T)

  /** A board as rows of cells; IsGrid says it is 8 by 8. */
  type Grid = seq<seq<int>>

  predicate IsGrid(b: Grid) {
    |b| == NUMROW && forall i :: 0 <= i < NUMROW ==> |b[i]| == NUMCOL
  }

  predicate IsPlayer(v: int) {
    v == PLAYER1 || v == PLAYER2
  }

  predicate IsFree(v: int) {
    v == EMPTY || v == INDICATOR
  }

  /** The opponent of player p, computed as the engine and the bot compute it: (p + 1) % NUMPLAYER. */
  function Enemy(p: int): (q: int)
    ensures IsPlayer(p) ==> IsPlayer(q) && q != p
  {
    (p + 1) % NUMPLAYER
  }

  predicate InBounds(r: int, c: int) {
    0 <= r < NUMROW && 0 <= c < NUMCOL
  }

  /** The board with cell (r, c) set to v and every other cell as it was. */
  function Update(b: Grid, r: int, c: int, v: int): (b': Grid)
    requires IsGrid(b) && InBounds(r, c)
    ensures IsGrid(b')
    ensures forall i, j :: InBounds(i, j) ==> b'[i][j] == if i == r && j == c then v else b[i][j]
  {
    b[r := b[r][c := v]]
  }

  /** Two boards that agree on every cell are the same board. */
  lemma GridExt(x: Grid, y: Grid)
    requires IsGrid(x) && IsGrid(y)
    requires forall i, j :: InBounds(i, j) ==> x[i][j] == y[i][j]
    ensures x == y
  {
    forall i | 0 <= i < NUMROW
      ensures x[i] == y[i]
    {
      assert forall j :: 0 <= j < NUMCOL ==> x[i][j] == y[i][j] by {
        forall j | 0 <= j < NUMCOL
          ensures x[i][j] == y[i][j]
        {
          assert InBounds(i, j);
        }
      }
    }
  }

  // ---------------------------------------------------------------- rays

  /** The eight directions a capture is looked for in. */
  datatype Dir = Right | Left | Down | Up | UpLeft | UpRight | DownLeft | DownRight

  /** Row of the cell k steps from row r in direction d. */
  function RowAt(r: int, d: Dir, k: int): int {
    match d
    case Down | DownLeft | DownRight => r + k
    case Up | UpLeft | UpRight => r - k
    case Right | Left => r
  }

  /** Column of the cell k steps from column c in direction d. */
  function ColAt(c: int, d: Dir, k: int): int {
    match d
    case Right | UpRight | DownRight => c + k
    case Left | UpLeft | DownLeft => c - k
    case Down | Up => c
  }

  predicate InRay(r: int, c: int, d: Dir, k: int) {
    InBounds(RowAt(r, d, k), ColAt(c, d, k))
  }

  /** The value k steps from (r, c) in direction d, or OFF once that is off the board. */
  function RayCell(b: Grid, r: int, c: int, d: Dir, k: int): int
    requires IsGrid(b)
  {
    if InRay(r, c, d, k) then b[RowAt(r, d, k)][ColAt(c, d, k)] else OFF
  }

  function Abs(x: int): nat {
    if x < 0 then -x else x
  }

  /** The direction in which (i, j) lies from (r, c), if it lies on one of the eight rays. */
  function DirOf(r: int, c: int, i: int, j: int): Option<Dir> {
    var dr, dc := i - r, j - c;
    if dr == 0 && dc > 0 then Some(Right)
    else if dr == 0 && dc < 0 then Some(Left)
    else if dc == 0 && dr > 0 then Some(Down)
    else if dc == 0 && dr < 0 then Some(Up)
    else if dr < 0 && dr == dc then Some(UpLeft)
    else if dr < 0 && dr == -dc then Some(UpRight)
    else if dr > 0 && dr == -dc then Some(DownLeft)
    else if dr > 0 && dr == dc then Some(DownRight)
    else None
  }

  /** The number of steps from (r, c) to (i, j) along their ray. */
  function DistOf(r: int, c: int, i: int, j: int): nat {
    if Abs(i - r) >= Abs(j - c) then Abs(i - r) else Abs(j - c)
  }

  /** The eight rays from a cell are disjoint: a cell names its ray and its distance. */
  lemma RayCoordinates(r: int, c: int, d: Dir, k: int, i: int, j: int)
    requires k >= 1
    ensures (RowAt(r, d, k) == i && ColAt(c, d, k) == j) <==> (DirOf(r, c, i, j) == Some(d) && DistOf(r, c, i, j) == k)
  {
  }

  /** (i, j) is one of the up to eight cells around (r, c). */
  predicate Adjacent(r: int, c: int, i: int, j: int) {
    (i != r || j != c) && -1 <= i - r <= 1 && -1 <= j - c <= 1
  }

  // ---------------------------------------------------------------- captures

  /** The length of the run of q cells that starts k steps from (r, c) in direction d. */
  function RunFrom(b: Grid, r: int, c: int, d: Dir, k: int, q: int): (n: nat)
    requires IsGrid(b) && InBounds(r, c) && k >= 1 && q != OFF
    decreases NUMROW - k
  {
    if RayCell(b, r, c, d, k) == q then
      RayCellBound(b, r, c, d, k);
      1 + RunFrom(b, r, c, d, k + 1, q)
    else 0
  }

  /** The run RunFrom measures holds q throughout and is ended by a cell that does not. */
  lemma {:induction false} RunFromCells(b: Grid, r: int, c: int, d: Dir, k: int, q: int)
    requires IsGrid(b) && InBounds(r, c) && k >= 1 && q != OFF
    ensures forall x :: k <= x < k + RunFrom(b, r, c, d, k, q) ==> RayCell(b, r, c, d, x) == q
    ensures RayCell(b, r, c, d, k + RunFrom(b, r, c, d, k, q)) != q
    decreases NUMROW - k
  {
    if RayCell(b, r, c, d, k) == q {
      RayCellBound(b, r, c, d, k);
      RunFromCells(b, r, c, d, k + 1, q);
    }
  }

  /** A ray leaves the board within NUMROW steps. */
  lemma InRayBound(r: int, c: int, d: Dir, k: int)
    requires InBounds(r, c) && k >= 1 && InRay(r, c, d, k)
    ensures k < NUMROW
  {
  }

  lemma RayCellBound(b: Grid, r: int, c: int, d: Dir, k: int)
    requires IsGrid(b) && InBounds(r, c) && k >= 1 && RayCell(b, r, c, d, k) != OFF
    ensures k < NUMROW
  {
  }

  /** The number of enemy pieces that a piece of p placed at (r, c) outflanks in
      direction d: the run of enemy cells next to (r, c), if a cell of p closes it
      before the edge, and 0 otherwise. */
  function Captures(b: Grid, r: int, c: int, d: Dir, p: int): nat
    requires IsGrid(b) && InBounds(r, c) && IsPlayer(p)
  {
    var n := RunFrom(b, r, c, d, 1, Enemy(p));
    if RayCell(b, r, c, d, n + 1) == p then n else 0
  }

  /** What a ray outflanks is a run of enemy pieces closed by a piece of p. */
  lemma CapturesRun(b: Grid, r: int, c: int, d: Dir, p: int)
    requires IsGrid(b) && InBounds(r, c) && IsPlayer(p)
    ensures forall k :: 1 <= k <= Captures(b, r, c, d, p) ==> RayCell(b, r, c, d, k) == Enemy(p)
    ensures Captures(b, r, c, d, p) > 0 ==> RayCell(b, r, c, d, Captures(b, r, c, d, p) + 1) == p
  {
  }

  /** Cells 1..m from (r, c) in direction d hold the enemy of p and cell m + 1 holds p. */
  ghost predicate CapturingRun(b: Grid, r: int, c: int, d: Dir, p: int, m: int)
    requires IsGrid(b)
  {
    && m >= 1
    && (forall k :: 1 <= k <= m ==> RayCell(b, r, c, d, k) == Enemy(p))
    && RayCell(b, r, c, d, m + 1) == p
  }

  /** A ray outflanks exactly the unbroken enemy run closed by a piece of the mover. */
  lemma CapturesExact(b: Grid, r: int, c: int, d: Dir, p: int, m: int)
    requires IsGrid(b) && InBounds(r, c) && IsPlayer(p)
    ensures CapturingRun(b, r, c, d, p, m) <==> (m >= 1 && m == Captures(b, r, c, d, p))
  {
    if CapturingRun(b, r, c, d, p, m) {
      RunCaptured(b, r, c, d, p, m);
    }
    if m >= 1 && m == Captures(b, r, c, d, p) {
      CapturesRun(b, r, c, d, p);
    }
  }

  lemma RunCaptured(b: Grid, r: int, c: int, d: Dir, p: int, m: int)
    requires IsGrid(b) && InBounds(r, c) && IsPlayer(p) && CapturingRun(b, r, c, d, p, m)
    ensures m == Captures(b, r, c, d, p)
  {
    RunFromUnique(b, r, c, d, 1, Enemy(p), m);
  }

  /** A run of q cells that a non-q cell ends is the one RunFrom measures. */
  lemma {:induction false} RunFromUnique(b: Grid, r: int, c: int, d: Dir, k: int, q: int, m: nat)
    requires IsGrid(b) && InBounds(r, c) && k >= 1 && q != OFF
    requires forall x :: k <= x < k + m ==> RayCell(b, r, c, d, x) == q
    requires RayCell(b, r, c, d, k + m) != q
    ensures RunFrom(b, r, c, d, k, q) == m
    decreases m
  {
    if m > 0 {
      assert RayCell(b, r, c, d, k) == q;
      RunFromUnique(b, r, c, d, k + 1, q, m - 1);
    }
  }

  /** Captures reads only the cells of its own ray, and of those only which player holds them. */
  lemma {:induction false} RunFromReadsRay(b: Grid, b': Grid, r: int, c: int, d: Dir, k: int, q: int)
    requires IsGrid(b) && IsGrid(b') && InBounds(r, c) && k >= 1 && IsPlayer(q)
    requires forall x :: x >= 1 ==> SamePieceAt(b, b', r, c, d, x)
    ensures RunFrom(b, r, c, d, k, q) == RunFrom(b', r, c, d, k, q)
    decreases NUMROW - k
  {
    assert SamePieceAt(b, b', r, c, d, k);
    if RayCell(b, r, c, d, k) == q {
      RunFromStep(b, b', r, c, d, k, q);
      RunFromReadsRay(b, b', r, c, d, k + 1, q);
    } else {
      RunFromStop(b, b', r, c, d, k, q);
    }
  }

  lemma RunFromStep(b: Grid, b': Grid, r: int, c: int, d: Dir, k: int, q: int)
    requires IsGrid(b) && IsGrid(b') && InBounds(r, c) && k >= 1 && IsPlayer(q)
    requires SamePieceAt(b, b', r, c, d, k) && RayCell(b, r, c, d, k) == q
    ensures k < NUMROW
    ensures RunFrom(b, r, c, d, k, q) == 1 + RunFrom(b, r, c, d, k + 1, q)
    ensures RunFrom(b', r, c, d, k, q) == 1 + RunFrom(b', r, c, d, k + 1, q)
  {
    RayCellBound(b, r, c, d, k);
  }

  lemma RunFromStop(b: Grid, b': Grid, r: int, c: int, d: Dir, k: int, q: int)
    requires IsGrid(b) && IsGrid(b') && InBounds(r, c) && k >= 1 && IsPlayer(q)
    requires SamePieceAt(b, b', r, c, d, k) && RayCell(b, r, c, d, k) != q
    ensures RunFrom(b, r, c, d, k, q) == 0 == RunFrom(b', r, c, d, k, q)
  {
  }

  /** Cell k of the ray holds the same piece on b and b', or no piece on either. */
  predicate SamePieceAt(b: Grid, b': Grid, r: int, c: int, d: Dir, k: int)
    requires IsGrid(b) && IsGrid(b')
  {
    RayCell(b, r, c, d, k) == RayCell(b', r, c, d, k)
    || (!IsPlayer(RayCell(b, r, c, d, k)) && !IsPlayer(RayCell(b', r, c, d, k)))
  }

  lemma CapturesReadsRay(b: Grid, b': Grid, r: int, c: int, d: Dir, p: int)
    requires IsGrid(b) && IsGrid(b') && InBounds(r, c) && IsPlayer(p)
    requires forall x :: x >= 1 ==> SamePieceAt(b, b', r, c, d, x)
    ensures Captures(b, r, c, d, p) == Captures(b', r, c, d, p)
  {
    RunFromReadsRay(b, b', r, c, d, 1, Enemy(p));
    var n := RunFrom(b, r, c, d, 1, Enemy(p));
    assert RayCell(b, r, c, d, n + 1) == p <==> RayCell(b', r, c, d, n + 1) == p by {
      assert SamePieceAt(b, b', r, c, d, n + 1);
    }
  }

  // ---------------------------------------------------------------- flips

  /** (i, j) lies on ray d from (r, c), at most n steps out. */
  predicate OnRayWithin(r: int, c: int, d: Dir, n: int, i: int, j: int) {
    DirOf(r, c, i, j) == Some(d) && DistOf(r, c, i, j) <= n
  }

  /** The board with cells 1..n of ray d from (r, c) set to p, nearest first. */
  function FlipUpTo(b: Grid, r: int, c: int, d: Dir, p: int, n: nat): (b': Grid)
    requires IsGrid(b) && InBounds(r, c)
    requires forall k :: 1 <= k <= n ==> InRay(r, c, d, k)
    ensures IsGrid(b')
  {
    if n == 0 then b
    else
      assert InRay(r, c, d, n);
      Update(FlipUpTo(b, r, c, d, p, n - 1), RowAt(r, d, n), ColAt(c, d, n), p)
  }

  /** Exactly the cells 1..n of the ray hold p afterwards; the rest are unchanged. */
  lemma {:induction false} FlipUpToCells(b: Grid, r: int, c: int, d: Dir, p: int, n: nat)
    requires IsGrid(b) && InBounds(r, c)
    requires forall k :: 1 <= k <= n ==> InRay(r, c, d, k)
    ensures forall i, j :: InBounds(i, j) ==>
      FlipUpTo(b, r, c, d, p, n)[i][j] == if OnRayWithin(r, c, d, n, i, j) then p else b[i][j]
  {
    if n > 0 {
      FlipUpToCells(b, r, c, d, p, n - 1);
      assert InRay(r, c, d, n);
      forall i, j | InBounds(i, j)
        ensures FlipUpTo(b, r, c, d, p, n)[i][j] == if OnRayWithin(r, c, d, n, i, j) then p else b[i][j]
      {
        RayCoordinates(r, c, d, n, i, j);
      }
    }
  }

  /** The board after p outflanks along ray d from (r, c). */
  function FlipRay(b: Grid, r: int, c: int, d: Dir, p: int): (b': Grid)
    requires IsGrid(b) && InBounds(r, c) && IsPlayer(p)
    ensures IsGrid(b')
  {
    FlipUpTo(b, r, c, d, p, Captures(b, r, c, d, p))
  }

  /** Exactly the outflanked run turns to p. */
  lemma FlipRayCells(b: Grid, r: int, c: int, d: Dir, p: int)
    requires IsGrid(b) && InBounds(r, c) && IsPlayer(p)
    ensures forall i, j :: InBounds(i, j) ==>
      FlipRay(b, r, c, d, p)[i][j] == if OnRayWithin(r, c, d, Captures(b, r, c, d, p), i, j) then p else b[i][j]
  {
    FlipUpToCells(b, r, c, d, p, Captures(b, r, c, d, p));
  }

  /** Outflanking along the rays of ds, one after another in that order. */
  function FlipSeq(b: Grid, r: int, c: int, p: int, ds: seq<Dir>): (b': Grid)
    requires IsGrid(b) && InBounds(r, c) && IsPlayer(p)
    ensures IsGrid(b')
    decreases |ds|
  {
    if ds == [] then b
    else FlipRay(FlipSeq(b, r, c, p, ds[..|ds| - 1]), r, c, ds[|ds| - 1], p)
  }

  /** Outflanking along the first n rays of ds: FlipSeq indexed by a count. */
  function FlipFirst(b: Grid, r: int, c: int, p: int, ds: seq<Dir>, n: nat): (b': Grid)
    requires IsGrid(b) && InBounds(r, c) && IsPlayer(p) && n <= |ds|
    ensures IsGrid(b')
  {
    if n == 0 then b else FlipRay(FlipFirst(b, r, c, p, ds, n - 1), r, c, ds[n - 1], p)
  }

  /** FlipCount indexed by a count. */
  function CountFirst(b: Grid, r: int, c: int, p: int, ds: seq<Dir>, n: nat): nat
    requires IsGrid(b) && InBounds(r, c) && IsPlayer(p) && n <= |ds|
  {
    if n == 0 then 0 else CountFirst(b, r, c, p, ds, n - 1) + Captures(FlipFirst(b, r, c, p, ds, n - 1), r, c, ds[n - 1], p)
  }

  /** Only the first n rays matter. */
  lemma {:induction false} FirstPrefix(b: Grid, r: int, c: int, p: int, ds: seq<Dir>, es: seq<Dir>, n: nat)
    requires IsGrid(b) && InBounds(r, c) && IsPlayer(p) && n <= |ds| && n <= |es| && ds[..n] == es[..n]
    ensures FlipFirst(b, r, c, p, ds, n) == FlipFirst(b, r, c, p, es, n)
    ensures CountFirst(b, r, c, p, ds, n) == CountFirst(b, r, c, p, es, n)
  {
    if n > 0 {
      assert ds[..n - 1] == ds[..n][..n - 1];
      assert es[..n - 1] == es[..n][..n - 1];
      assert ds[n - 1] == ds[..n][n - 1];
      assert es[n - 1] == es[..n][n - 1];
      FirstPrefix(b, r, c, p, ds, es, n - 1);
    }
  }

  lemma {:induction false} FlipSeqIsFirst(b: Grid, r: int, c: int, p: int, ds: seq<Dir>)
    requires IsGrid(b) && InBounds(r, c) && IsPlayer(p)
    ensures FlipSeq(b, r, c, p, ds) == FlipFirst(b, r, c, p, ds, |ds|)
    ensures FlipCount(b, r, c, p, ds) == CountFirst(b, r, c, p, ds, |ds|)
    decreases |ds|
  {
    if ds != [] {
      var init := ds[..|ds| - 1];
      FlipSeqIsFirst(b, r, c, p, init);
      FirstPrefix(b, r, c, p, init, ds, |init|);
    }
  }

  lemma FlipFirstStep(b: Grid, r: int, c: int, p: int, ds: seq<Dir>, n: nat)
    requires IsGrid(b) && InBounds(r, c) && IsPlayer(p) && n < |ds|
    ensures FlipFirst(b, r, c, p, ds, n + 1) == FlipRay(FlipFirst(b, r, c, p, ds, n), r, c, ds[n], p)
    ensures CountFirst(b, r, c, p, ds, n + 1) == CountFirst(b, r, c, p, ds, n) + Captures(FlipFirst(b, r, c, p, ds, n), r, c, ds[n], p)
  {
  }

  /** Outflanking along eight rays, written out one ray at a time. */
  lemma FlipSeqEight(b: Grid, r: int, c: int, p: int, ds: seq<Dir>)
    requires IsGrid(b) && InBounds(r, c) && IsPlayer(p) && |ds| == 8
    ensures FlipSeq(b, r, c, p, ds) ==
      FlipRay(FlipRay(FlipRay(FlipRay(FlipRay(FlipRay(FlipRay(FlipRay(b,
        r, c, ds[0], p), r, c, ds[1], p), r, c, ds[2], p), r, c, ds[3], p),
        r, c, ds[4], p), r, c, ds[5], p), r, c, ds[6], p), r, c, ds[7], p)
  {
    FlipSeqIsFirst(b, r, c, p, ds);
    FlipFirstStep(b, r, c, p, ds, 0);
    FlipFirstStep(b, r, c, p, ds, 1);
    FlipFirstStep(b, r, c, p, ds, 2);
    FlipFirstStep(b, r, c, p, ds, 3);
    FlipFirstStep(b, r, c, p, ds, 4);
    FlipFirstStep(b, r, c, p, ds, 5);
    FlipFirstStep(b, r, c, p, ds, 6);
    FlipFirstStep(b, r, c, p, ds, 7);
  }

  /** The count along eight rays, each ray counted on the board the rays before it left. */
  lemma FlipCountEight(b: Grid, r: int, c: int, p: int, ds: seq<Dir>)
    requires IsGrid(b) && InBounds(r, c) && IsPlayer(p) && |ds| == 8
    ensures var b1 := FlipRay(b, r, c, ds[0], p);
      var b2 := FlipRay(b1, r, c, ds[1], p);
      var b3 := FlipRay(b2, r, c, ds[2], p);
      var b4 := FlipRay(b3, r, c, ds[3], p);
      var b5 := FlipRay(b4, r, c, ds[4], p);
      var b6 := FlipRay(b5, r, c, ds[5], p);
      var b7 := FlipRay(b6, r, c, ds[6], p);
      FlipCount(b, r, c, p, ds) ==
        Captures(b, r, c, ds[0], p) + Captures(b1, r, c, ds[1], p) + Captures(b2, r, c, ds[2], p)
        + Captures(b3, r, c, ds[3], p) + Captures(b4, r, c, ds[4], p) + Captures(b5, r, c, ds[5], p)
        + Captures(b6, r, c, ds[6], p) + Captures(b7, r, c, ds[7], p)
  {
    FlipSeqIsFirst(b, r, c, p, ds);
    FlipFirstStep(b, r, c, p, ds, 0);
    FlipFirstStep(b, r, c, p, ds, 1);
    FlipFirstStep(b, r, c, p, ds, 2);
    FlipFirstStep(b, r, c, p, ds, 3);
    FlipFirstStep(b, r, c, p, ds, 4);
    FlipFirstStep(b, r, c, p, ds, 5);
    FlipFirstStep(b, r, c, p, ds, 6);
    FlipFirstStep(b, r, c, p, ds, 7);
  }

  /** The number of pieces outflanked along ds, each ray counted on the board that
      the rays before it left behind (as the engine counts them). */
  function FlipCount(b: Grid, r: int, c: int, p: int, ds: seq<Dir>): nat
    requires IsGrid(b) && InBounds(r, c) && IsPlayer(p)
    decreases |ds|
  {
    if ds == [] then 0
    else FlipCount(b, r, c, p, ds[..|ds| - 1]) + Captures(FlipSeq(b, r, c, p, ds[..|ds| - 1]), r, c, ds[|ds| - 1], p)
  }

  /** The number of pieces each ray of ds outflanks on the board before the move. */
  function SumCaptures(b: Grid, r: int, c: int, p: int, ds: seq<Dir>): nat
    requires IsGrid(b) && InBounds(r, c) && IsPlayer(p)
    decreases |ds|
  {
    if ds == [] then 0
    else SumCaptures(b, r, c, p, ds[..|ds| - 1]) + Captures(b, r, c, ds[|ds| - 1], p)
  }

  predicate Distinct(ds: seq<Dir>) {
    forall x, y :: 0 <= x < y < |ds| ==> ds[x] != ds[y]
  }

  /** (i, j) is outflanked by p placed at (r, c) along one of the rays of ds. */
  predicate CapturedOn(b: Grid, r: int, c: int, p: int, ds: seq<Dir>, i: int, j: int)
    requires IsGrid(b) && InBounds(r, c) && IsPlayer(p)
  {
    match DirOf(r, c, i, j)
    case None => false
    case Some(d) => d in ds && DistOf(r, c, i, j) <= Captures(b, r, c, d, p)
  }

  /** b' is b with exactly the cells that p outflanks along the rays of ds turned to p. */
  ghost predicate FlipsExactly(b: Grid, b': Grid, r: int, c: int, p: int, ds: seq<Dir>)
    requires IsGrid(b) && IsGrid(b') && InBounds(r, c) && IsPlayer(p)
  {
    forall i, j :: InBounds(i, j) ==> b'[i][j] == if CapturedOn(b, r, c, p, ds, i, j) then p else b[i][j]
  }

  lemma DistinctSplit(ds: seq<Dir>)
    requires Distinct(ds) && ds != []
    ensures Distinct(ds[..|ds| - 1]) && ds[|ds| - 1] !in ds[..|ds| - 1]
  {
  }

  /** Flipping along rays other than e leaves the capture along e as it was. */
  lemma CapturesKeptOffRay(b: Grid, b0: Grid, r: int, c: int, p: int, ds: seq<Dir>, e: Dir)
    requires IsGrid(b) && IsGrid(b0) && InBounds(r, c) && IsPlayer(p)
    requires FlipsExactly(b, b0, r, c, p, ds) && e !in ds
    ensures Captures(b0, r, c, e, p) == Captures(b, r, c, e, p)
  {
    forall x | x >= 1
      ensures SamePieceAt(b, b0, r, c, e, x)
    {
      if InRay(r, c, e, x) {
        RayCoordinates(r, c, e, x, RowAt(r, e, x), ColAt(c, e, x));
      }
    }
    CapturesReadsRay(b, b0, r, c, e, p);
  }

  lemma FlipsExactlyStep(b: Grid, b0: Grid, r: int, c: int, p: int, init: seq<Dir>, e: Dir)
    requires IsGrid(b) && IsGrid(b0) && InBounds(r, c) && IsPlayer(p)
    requires FlipsExactly(b, b0, r, c, p, init)
    requires Captures(b0, r, c, e, p) == Captures(b, r, c, e, p)
    ensures FlipsExactly(b, FlipRay(b0, r, c, e, p), r, c, p, init + [e])
  {
    var b1 := FlipRay(b0, r, c, e, p);
    FlipRayCells(b0, r, c, e, p);
    forall i, j | InBounds(i, j)
      ensures b1[i][j] == if CapturedOn(b, r, c, p, init + [e], i, j) then p else b[i][j]
    {
    }
  }

  /** Outflanking along distinct rays one after another changes the same cells as
      outflanking along all of them at once on the original board. */
  lemma {:induction false} FlipSeqCells(b: Grid, r: int, c: int, p: int, ds: seq<Dir>)
    requires IsGrid(b) && InBounds(r, c) && IsPlayer(p) && Distinct(ds)
    ensures FlipsExactly(b, FlipSeq(b, r, c, p, ds), r, c, p, ds)
    decreases |ds|
  {
    if ds != [] {
      var init, e := ds[..|ds| - 1], ds[|ds| - 1];
      DistinctSplit(ds);
      FlipSeqCells(b, r, c, p, init);
      var b0 := FlipSeq(b, r, c, p, init);
      CapturesKeptOffRay(b, b0, r, c, p, init, e);
      FlipsExactlyStep(b, b0, r, c, p, init, e);
      assert ds == init + [e];
    }
  }

  /** Counting each ray on the board the earlier rays left gives the same total as
      counting every ray on the original board. */
  lemma {:induction false} FlipCountIsSum(b: Grid, r: int, c: int, p: int, ds: seq<Dir>)
    requires IsGrid(b) && InBounds(r, c) && IsPlayer(p) && Distinct(ds)
    ensures FlipCount(b, r, c, p, ds) == SumCaptures(b, r, c, p, ds)
    decreases |ds|
  {
    if ds != [] {
      var init, e := ds[..|ds| - 1], ds[|ds| - 1];
      DistinctSplit(ds);
      FlipCountIsSum(b, r, c, p, init);
      FlipSeqCells(b, r, c, p, init);
      CapturesKeptOffRay(b, FlipSeq(b, r, c, p, init), r, c, p, init, e);
    }
  }

  /** A cell outflanked along any ray held the enemy of the mover before the move. */
  lemma CapturedIsEnemy(b: Grid, r: int, c: int, p: int, ds: seq<Dir>, i: int, j: int)
    requires IsGrid(b) && InBounds(r, c) && IsPlayer(p) && InBounds(i, j)
    requires CapturedOn(b, r, c, p, ds, i, j)
    ensures b[i][j] == Enemy(p)
  {
    var d := DirOf(r, c, i, j).value;
    var k := DistOf(r, c, i, j);
    RayCoordinates(r, c, d, k, i, j);
    assert RayCell(b, r, c, d, k) == Enemy(p);
  }

  // ---------------------------------------------------------------- indicators

  /** Marks the neighbour of (r, c) in direction d as an indicator if it is EMPTY. */
  function MarkOne(b: Grid, r: int, c: int, d: Dir): (b': Grid)
    requires IsGrid(b)
    ensures IsGrid(b')
  {
    if RayCell(b, r, c, d, 1) == EMPTY then Update(b, RowAt(r, d, 1), ColAt(c, d, 1), INDICATOR) else b
  }

  function MarkSeq(b: Grid, r: int, c: int, ds: seq<Dir>): (b': Grid)
    requires IsGrid(b)
    ensures IsGrid(b')
    decreases |ds|
  {
    if ds == [] then b else MarkOne(MarkSeq(b, r, c, ds[..|ds| - 1]), r, c, ds[|ds| - 1])
  }

  /** The order in which the engine and the bot visit the neighbours of a placed piece. */
  const IndicatorOrder: seq<Dir> := [Up, Down, Left, Right, UpLeft, UpRight, DownRight, DownLeft]

  /** Every EMPTY neighbour of (r, c) becomes an indicator. */
  function MarkIndicators(b: Grid, r: int, c: int): (b': Grid)
    requires IsGrid(b)
    ensures IsGrid(b')
  {
    MarkSeq(b, r, c, IndicatorOrder)
  }

  lemma {:induction false} MarkSeqCells(b: Grid, r: int, c: int, ds: seq<Dir>)
    requires IsGrid(b)
    ensures forall i, j :: InBounds(i, j) ==>
      MarkSeq(b, r, c, ds)[i][j] ==
        if b[i][j] == EMPTY && DirOf(r, c, i, j).Some? && DirOf(r, c, i, j).value in ds && DistOf(r, c, i, j) == 1
        then INDICATOR else b[i][j]
    decreases |ds|
  {
    if ds != [] {
      var init, e := ds[..|ds| - 1], ds[|ds| - 1];
      MarkSeqCells(b, r, c, init);
      forall i, j | InBounds(i, j)
        ensures MarkSeq(b, r, c, ds)[i][j] ==
          if b[i][j] == EMPTY && DirOf(r, c, i, j).Some? && DirOf(r, c, i, j).value in ds && DistOf(r, c, i, j) == 1
          then INDICATOR else b[i][j]
      {
        RayCoordinates(r, c, e, 1, i, j);
        assert ds == init + [e];
      }
    }
  }

  lemma AdjacentIsRayStep(r: int, c: int, i: int, j: int)
    ensures Adjacent(r, c, i, j) <==> (DirOf(r, c, i, j).Some? && DistOf(r, c, i, j) == 1)
  {
  }

  /** After the indicator pass, the EMPTY cells around (r, c) are indicators and nothing else changed. */
  lemma MarkIndicatorsCells(b: Grid, r: int, c: int)
    requires IsGrid(b)
    ensures forall i, j :: InBounds(i, j) ==>
      MarkIndicators(b, r, c)[i][j] == if b[i][j] == EMPTY && Adjacent(r, c, i, j) then INDICATOR else b[i][j]
  {
    MarkSeqCells(b, r, c, IndicatorOrder);
    forall i, j | InBounds(i, j)
      ensures MarkIndicators(b, r, c)[i][j] == if b[i][j] == EMPTY && Adjacent(r, c, i, j) then INDICATOR else b[i][j]
    {
      AdjacentIsRayStep(r, c, i, j);
    }
  }
}

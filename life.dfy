/**
 * The Game of Life grid of src/lib.rs: cells, the grid as rows of cells,
 * the bounds-safe lookup, the neighbour count and one generation (`tick`).
 *
 * A `Grid` is a value, as the Rust `Grid` is (`Clone`, `PartialEq`, and
 * every operation builds a new one). Its rows may have different lengths,
 * as a `Vec<Vec<Cell>>` may; every operation here handles that case.
 * The first index is the row (`x`), the second the column (`y`).
 */
module Life {
  import opened Wrappers

  datatype Cell = Alive | Dead

  /** `Cell::toggle`: a live cell dies and a dead one comes alive. */
  function Toggle(c: Cell): (r: Cell)
    ensures r != c
  {
    match c
    case Alive => Dead
    case Dead => Alive
  }

  datatype Grid = Grid(rows: seq<seq<Cell>>)

  /** The grid has exactly `xSize` rows, each of exactly `ySize` cells. */
  ghost predicate HasShape(g: Grid, xSize: nat, ySize: nat)
  {
    |g.rows| == xSize && forall x :: 0 <= x < xSize ==> |g.rows[x]| == ySize
  }

  /** `t` has as many rows as `g`, and each row as many cells. */
  ghost predicate SameShape(t: Grid, g: Grid)
  {
    |t.rows| == |g.rows| && forall x :: 0 <= x < |g.rows| ==> |t.rows[x]| == |g.rows[x]|
  }

  /** Every row is as long as the first one. */
  ghost predicate Rectangular(g: Grid)
  {
    forall x :: 0 <= x < |g.rows| ==> |g.rows[x]| == |g.rows[0]|
  }

  /** `(x, y)` addresses a cell of the grid. */
  predicate InBounds(g: Grid, x: int, y: int)
  {
    0 <= x < |g.rows| && 0 <= y < |g.rows[x]|
  }

  ghost predicate AllDead(g: Grid)
  {
    forall x, y :: InBounds(g, x, y) ==> g.rows[x][y] == Dead
  }

  /** `Grid::empty`: an all-dead grid of the given shape. */
  function Empty(xSize: nat, ySize: nat): (g: Grid)
    ensures HasShape(g, xSize, ySize)
    ensures AllDead(g)
  {
    var row := seq(ySize, _ => Dead);
    Grid(seq(xSize, _ => row))
  }

  /**
   * `Grid::random` with its random draws made a parameter: `coin(x, y)`
   * says whether the draw for cell `(x, y)` came out alive.
   */
  function Random(xSize: nat, ySize: nat, coin: (nat, nat) -> bool): (g: Grid)
    ensures HasShape(g, xSize, ySize)
    ensures forall x, y :: 0 <= x < xSize && 0 <= y < ySize ==> (g.rows[x][y] == Alive <==> coin(x, y))
  {
    Grid(seq(xSize, (x: int) requires 0 <= x =>
      seq(ySize, (y: int) requires 0 <= y => if coin(x, y) then Alive else Dead)))
  }

  /**
   * `Grid::size`: the number of rows and the length of the first row,
   * or `(0, 0)` for a grid without rows.
   */
  function Size(g: Grid): (s: (nat, nat))
    ensures |g.rows| == 0 ==> s == (0, 0)
    ensures |g.rows| > 0 ==> s == (|g.rows|, |g.rows[0]|)
    ensures Rectangular(g) && |g.rows| > 0 ==> HasShape(g, s.0, s.1)
  {
    if |g.rows| == 0 then (0, 0) else (|g.rows|, |g.rows[0]|)
  }

  /** A random grid has the size it was asked for, or `(0, 0)` when asked for no rows. */
  lemma RandomSize(xSize: nat, ySize: nat, coin: (nat, nat) -> bool)
    ensures Size(Random(xSize, ySize, coin)) == if xSize == 0 then (0, 0) else (xSize, ySize)
    ensures Rectangular(Random(xSize, ySize, coin))
  {
  }

  /** How the `make_grid` test helper reads a cell: `*` is alive, anything else dead. */
  function Parse(s: string): (c: Cell)
    ensures c == Alive <==> s == "*"
  {
    if s == "*" then Alive else Dead
  }

  /** `make_grid` once the text is split into rows of cell strings. */
  function ParseRows(rows: seq<seq<string>>): (g: Grid)
    ensures |g.rows| == |rows|
    ensures forall x :: 0 <= x < |rows| ==> |g.rows[x]| == |rows[x]|
    ensures forall x, y :: 0 <= x < |rows| && 0 <= y < |rows[x]| ==> g.rows[x][y] == Parse(rows[x][y])
  {
    Grid(seq(|rows|, x requires 0 <= x < |rows| =>
      seq(|rows[x]|, y requires 0 <= y < |rows[x]| => Parse(rows[x][y]))))
  }

  /** `usize::try_from` on an `isize`: fails exactly on negative values. */
  function ToIndex(x: int): (r: Option<nat>)
    ensures r.Some? <==> x >= 0
    ensures r.Some? ==> r.value == x
  {
    if x < 0 then None else Some(x)
  }

  /**
   * `Grid::is_alive`: a lookup that never fails; any coordinate that is
   * negative or past the end of its row or of the grid reads as dead.
   */
  function IsAlive(g: Grid, x: int, y: int): (b: bool)
    ensures b <==> InBounds(g, x, y) && g.rows[x][y] == Alive
  {
    match (ToIndex(x), ToIndex(y))
    case (Some(i), Some(j)) =>
      (match Get(g.rows, i)
       case Some(row) =>
         (match Get(row, j)
          case Some(c) => c == Alive
          case None => false)
       case None => false)
    case _ => false
  }

  /**
   * The number of live cells among the eight cells around `(x, y)`:
   * the three above, the two beside and the three below. `(x, y)` itself
   * is not among them, and cells off the grid read as dead.
   */
  function NeighbourCount(g: Grid, x: int, y: int): (n: nat)
    ensures n <= 8
  {
    (if IsAlive(g, x - 1, y - 1) then 1 else 0) + (if IsAlive(g, x - 1, y) then 1 else 0) + (if IsAlive(g, x - 1, y + 1) then 1 else 0) +
    (if IsAlive(g, x, y - 1) then 1 else 0) + (if IsAlive(g, x, y + 1) then 1 else 0) +
    (if IsAlive(g, x + 1, y - 1) then 1 else 0) + (if IsAlive(g, x + 1, y) then 1 else 0) + (if IsAlive(g, x + 1, y + 1) then 1 else 0)
  }

  /**
   * Live cells at row offset `i` and column offsets `-1 .. jEnd - 1`
   * around `(x, y)`, the centre itself skipped: what the inner loop of
   * `Grid::neighbours` has added once it reaches `j == jEnd`.
   */
  function RowCount(g: Grid, x: int, y: int, i: int, jEnd: int): nat
    requires -1 <= jEnd <= 2
    decreases jEnd + 1
  {
    if jEnd == -1 then 0
    else
      var j := jEnd - 1;
      RowCount(g, x, y, i, j) + (if (i != 0 || j != 0) && IsAlive(g, x + i, y + j) then 1 else 0)
  }

  /** Live cells in row offsets `-1 .. iEnd - 1` around `(x, y)`, the centre skipped: the outer loop's progress. */
  function WindowCount(g: Grid, x: int, y: int, iEnd: int): nat
    requires -1 <= iEnd <= 2
    decreases iEnd + 1
  {
    if iEnd == -1 then 0 else WindowCount(g, x, y, iEnd - 1) + RowCount(g, x, y, iEnd - 1, 2)
  }

  /** Once both loops have run to the end they have visited exactly the eight neighbours. */
  lemma WindowCountComplete(g: Grid, x: int, y: int)
    ensures WindowCount(g, x, y, 2) == NeighbourCount(g, x, y)
  {
  }

  /**
   * `Grid::neighbours`: the two nested loops over the offsets -1, 0, 1,
   * skipping the centre, and the running sum.
   */
  method Neighbours(g: Grid, x: nat, y: nat) returns (sum: nat)
    ensures sum == NeighbourCount(g, x, y)
  {
    sum := 0;
    for i := -1 to 2
      invariant sum == WindowCount(g, x, y, i)
    {
      for j := -1 to 2
        invariant sum == WindowCount(g, x, y, i) + RowCount(g, x, y, i, j)
      {
        if i == 0 && j == 0 {
          continue;
        }
        if IsAlive(g, x + i, y + j) {
          sum := sum + 1;
        }
      }
    }
    WindowCountComplete(g, x, y);
  }

  /**
   * The cell `(x, y)` itself is never counted: two grids that agree
   * everywhere except possibly at `(x, y)` give `(x, y)` the same count.
   */
  lemma NeighboursIgnoreSelf(g: Grid, h: Grid, x: int, y: int)
    requires forall a, b :: (a, b) != (x, y) ==> IsAlive(g, a, b) == IsAlive(h, a, b)
    ensures NeighbourCount(g, x, y) == NeighbourCount(h, x, y)
  {
  }

  /** A grid without a live cell gives every cell zero live neighbours. */
  lemma DeadGridHasNoNeighbours(g: Grid, x: int, y: int)
    requires AllDead(g)
    ensures NeighbourCount(g, x, y) == 0
  {
  }

  /**
   * The rule of one generation, as the match in `Grid::tick` applies it:
   * a live cell with four or more, or one or fewer, live neighbours dies;
   * a dead cell with exactly three comes alive; any other cell stays as
   * it is. Stated as the outcome: alive afterwards exactly when it
   * survives with two or three neighbours or is born with three.
   */
  function NextCell(c: Cell, n: nat): (r: Cell)
    ensures r == Alive <==> (c == Alive && 2 <= n <= 3) || (c == Dead && n == 3)
  {
    match c
    case Alive => if n >= 4 then Dead else if n <= 1 then Dead else c
    case Dead => if n == 3 then Alive else c
  }

  /** `Grid::tick`: one generation, every cell by `NextCell` from the old grid. */
  function Tick(g: Grid): (t: Grid)
    ensures SameShape(t, g)
  {
    Grid(seq(|g.rows|, x requires 0 <= x < |g.rows| =>
      seq(|g.rows[x]|, y requires 0 <= y < |g.rows[x]| =>
        NextCell(g.rows[x][y], NeighbourCount(g, x, y)))))
  }

  /**
   * After a tick a cell is alive exactly when it was alive with two or
   * three live neighbours, or dead with exactly three; outside the grid
   * nothing is alive.
   */
  lemma TickRule(g: Grid, x: int, y: int)
    ensures IsAlive(Tick(g), x, y) <==>
      InBounds(g, x, y) &&
      var n := NeighbourCount(g, x, y);
      (IsAlive(g, x, y) && 2 <= n <= 3) || (!IsAlive(g, x, y) && n == 3)
  {
  }

  /** A tick keeps the grid rectangular and keeps its size. */
  lemma TickPreservesShape(g: Grid)
    ensures Rectangular(g) ==> Rectangular(Tick(g))
    ensures Size(Tick(g)) == Size(g)
  {
  }

  /** An all-dead grid is a fixed point of `tick`. */
  lemma {:induction false} EmptyIsFixedPoint(xSize: nat, ySize: nat)
    ensures Tick(Empty(xSize, ySize)) == Empty(xSize, ySize)
  {
    var g := Empty(xSize, ySize);
    var t := Tick(g);
    forall x | 0 <= x < xSize
      ensures t.rows[x] == g.rows[x]
    {
      forall y | 0 <= y < ySize
        ensures t.rows[x][y] == g.rows[x][y]
      {
        DeadGridHasNoNeighbours(g, x, y);
      }
    }
  }
}

/**
 * The geometry of the chunk-streaming worker (`src/world-loader/WorldLoader/worker.js`):
 * the client's chunk cell, the matrix of chunks around it, the hysteresis test that keeps
 * a chunk alive a little beyond the matrix, and the grid of cells the matrix covers.
 * Positions and sizes are integers; `chunkSize` is positive.
 */
module WorkerGrid {
  import opened Wrappers
  import opened Cells

  /** `matrixBoundary`: the half-open box `[x1, x2) x [y1, y2)` of chunk offsets. */
  datatype Matrix = Matrix(x1: int, y1: int, x2: int, y2: int)

  /** The matrix around the client's cell `(cx, cy)`: `floor(g / 2)` chunks before it and
      `ceil(g / 2)` from it on, on each axis. */
  function MatrixAround(cx: int, cy: int, gridSize: nat, chunkSize: int): (m: Matrix)
    requires chunkSize > 0
    ensures m.x2 - m.x1 == gridSize * chunkSize && m.y2 - m.y1 == gridSize * chunkSize
    ensures m.x1 == cx - (gridSize / 2) * chunkSize && m.y1 == cy - (gridSize / 2) * chunkSize
    ensures gridSize >= 1 ==> m.x1 <= cx < m.x2 && m.y1 <= cy < m.y2
  {
    var before, after := gridSize / 2, (gridSize + 1) / 2;
    assert before + after == gridSize;
    assert (before + after) * chunkSize == before * chunkSize + after * chunkSize;
    Matrix(cx - before * chunkSize, cy - before * chunkSize, cx + after * chunkSize, cy + after * chunkSize)
  }

  /** `Chunk._isWithinMatrix`: the matrix widened by `trailDistance - 1` chunks on every
      side, closed below and open above. */
  predicate WithinMatrix(m: Matrix, c: Cell, trailDistance: int, chunkSize: int)
  {
    var trail := (trailDistance - 1) * chunkSize;
    && m.x1 - trail <= c.x < m.x2 + trail
    && m.y1 - trail <= c.y < m.y2 + trail
  }

  /** With a trail distance of one the test is the matrix itself; a longer trail keeps
      every chunk a shorter one keeps. */
  lemma WithinMatrixTrail(m: Matrix, c: Cell, t: int, chunkSize: int)
    requires chunkSize > 0
    ensures WithinMatrix(m, c, 1, chunkSize) <==> m.x1 <= c.x < m.x2 && m.y1 <= c.y < m.y2
    ensures WithinMatrix(m, c, t, chunkSize) ==> WithinMatrix(m, c, t + 1, chunkSize)
  {
    assert (t + 1 - 1) * chunkSize == (t - 1) * chunkSize + chunkSize;
  }

  /** The upper edges are open: the chunk at `x2 + trail` is out, the one just before
      it is in. */
  lemma WithinMatrixHalfOpen(m: Matrix, t: int, chunkSize: int)
    requires chunkSize > 0 && t >= 1 && m.x1 < m.x2 && m.y1 < m.y2
    ensures var trail := (t - 1) * chunkSize;
      && !WithinMatrix(m, Cell(m.x2 + trail, m.y1), t, chunkSize)
      && WithinMatrix(m, Cell(m.x2 + trail - 1, m.y1), t, chunkSize)
      && WithinMatrix(m, Cell(m.x1 - trail, m.y1 - trail), t, chunkSize)
  {
    assert (t - 1) * chunkSize >= 0;
  }

  // ---------------------------------------------------------------------------
  // The grid of cells `createRegionChunks` walks

  /** Offsets `lo, lo + step, ...` below `hi`. */
  function Lattice(lo: int, hi: int, step: int): (vs: seq<int>)
    requires step > 0
    ensures forall i :: 0 <= i < |vs| ==> vs[i] == lo + i * step && vs[i] < hi
    ensures lo < hi ==> |vs| >= 1
    decreases hi - lo
  {
    if lo >= hi then [] else [lo] + Lattice(lo + step, hi, step)
  }

  /** A span of `n` steps holds exactly `n` lattice points. */
  lemma {:induction false} LatticeLength(lo: int, n: nat, step: int)
    requires step > 0
    ensures |Lattice(lo, lo + n * step, step)| == n
    decreases n
  {
    if n > 0 {
      assert lo + n * step == (lo + step) + (n - 1) * step;
      LatticeLength(lo + step, n - 1, step);
    }
  }

  /** The cells `(x, y)` for `y` in `ys`, in order. */
  function Column(x: int, ys: seq<int>): (cs: seq<Cell>)
    ensures |cs| == |ys| && forall j :: 0 <= j < |ys| ==> cs[j] == Cell(x, ys[j])
  {
    if ys == [] then [] else [Cell(x, ys[0])] + Column(x, ys[1..])
  }

  /** The cells of `xs` times `ys`, x-major: the order of the nested loops. */
  function Grid(xs: seq<int>, ys: seq<int>): seq<Cell>
  {
    if xs == [] then [] else Column(xs[0], ys) + Grid(xs[1..], ys)
  }

  lemma {:induction false} GridLength(xs: seq<int>, ys: seq<int>)
    ensures |Grid(xs, ys)| == |xs| * |ys|
  {
    if xs != [] {
      GridLength(xs[1..], ys);
      assert |xs| * |ys| == |ys| + (|xs| - 1) * |ys|;
    }
  }

  lemma {:induction false} GridMember(xs: seq<int>, ys: seq<int>, c: Cell)
    ensures c in Grid(xs, ys) <==> c.x in xs && c.y in ys
  {
    if xs != [] {
      GridMember(xs[1..], ys, c);
      ColumnMember(xs[0], ys, c);
      HeadOrTail(xs, c.x);
    }
  }

  lemma ColumnMember(x: int, ys: seq<int>, c: Cell)
    ensures c in Column(x, ys) <==> c.x == x && c.y in ys
  {
    if c.x == x && c.y in ys {
      var j :| 0 <= j < |ys| && ys[j] == c.y;
      assert Column(x, ys)[j] == c;
    }
  }

  lemma HeadOrTail(xs: seq<int>, v: int)
    requires xs != []
    ensures v in xs <==> v == xs[0] || v in xs[1..]
  {
    assert xs == [xs[0]] + xs[1..];
  }

  /** The cells of the matrix, as `createRegionChunks` walks them. */
  function MatrixCells(m: Matrix, chunkSize: int): seq<Cell>
    requires chunkSize > 0
  {
    Grid(Lattice(m.x1, m.x2, chunkSize), Lattice(m.y1, m.y2, chunkSize))
  }

  /** The matrix around the client holds `gridSize` squared cells. */
  lemma MatrixCellsCount(cx: int, cy: int, gridSize: nat, chunkSize: int)
    requires chunkSize > 0
    ensures |MatrixCells(MatrixAround(cx, cy, gridSize, chunkSize), chunkSize)| == gridSize * gridSize
  {
    var m := MatrixAround(cx, cy, gridSize, chunkSize);
    LatticeLength(m.x1, gridSize, chunkSize);
    LatticeLength(m.y1, gridSize, chunkSize);
    GridLength(Lattice(m.x1, m.x2, chunkSize), Lattice(m.y1, m.y2, chunkSize));
  }

  /** Each cell of a matrix lies on the chunk lattice through its corner and inside it, so
      that a chunk created for it passes `_isWithinMatrix` for any trail distance of at
      least one. */
  lemma MatrixCellInside(m: Matrix, chunkSize: int, t: int, c: Cell)
    requires chunkSize > 0 && t >= 1
    requires c in MatrixCells(m, chunkSize)
    ensures exists i: nat, j: nat :: c == Cell(m.x1 + i * chunkSize, m.y1 + j * chunkSize)
    ensures WithinMatrix(m, c, t, chunkSize)
  {
    var xs, ys := Lattice(m.x1, m.x2, chunkSize), Lattice(m.y1, m.y2, chunkSize);
    GridMember(xs, ys, c);
    var i: nat :| i < |xs| && xs[i] == c.x;
    var j: nat :| j < |ys| && ys[j] == c.y;
    LatticeCellInside(m, chunkSize, t, i, j, xs[i], ys[j]);
  }

  lemma LatticeCellInside(m: Matrix, chunkSize: int, t: int, i: nat, j: nat, x: int, y: int)
    requires chunkSize > 0 && t >= 1
    requires x == m.x1 + i * chunkSize < m.x2 && y == m.y1 + j * chunkSize < m.y2
    ensures WithinMatrix(m, Cell(x, y), t, chunkSize)
  {
    NonNegativeSteps(i, chunkSize);
    NonNegativeSteps(j, chunkSize);
    NonNegativeSteps(t - 1, chunkSize);
  }

  lemma NonNegativeSteps(n: nat, step: int)
    requires step > 0
    ensures n * step >= 0
  {
  }

  /** The cells of `cs` whose key is not in `keys`, in order. */
  function Missing(cs: seq<Cell>, keys: set<Cell>): (r: seq<Cell>)
    ensures |r| <= |cs|
  {
    if cs == [] then [] else (if cs[0] in keys then [] else [cs[0]]) + Missing(cs[1..], keys)
  }

  /** A cell is missing exactly when it is walked and has no key. */
  lemma {:induction false} MissingMember(cs: seq<Cell>, keys: set<Cell>, c: Cell)
    ensures c in Missing(cs, keys) <==> c in cs && c !in keys
  {
    if cs != [] {
      MissingMember(cs[1..], keys, c);
      assert cs == [cs[0]] + cs[1..];
    }
  }

  lemma {:induction false} MissingAppend(a: seq<Cell>, b: seq<Cell>, keys: set<Cell>)
    ensures Missing(a + b, keys) == Missing(a, keys) + Missing(b, keys)
  {
    if a == [] {
      assert a + b == b;
    } else {
      assert (a + b)[1..] == a[1..] + b;
      MissingAppend(a[1..], b, keys);
    }
  }

  /** Walking the matrix: the first column, then the rest. */
  lemma GridStep(x: int, hi: int, step: int, ys: seq<int>, keys: set<Cell>)
    requires step > 0 && x < hi
    ensures Missing(Grid(Lattice(x, hi, step), ys), keys)
      == Missing(Column(x, ys), keys) + Missing(Grid(Lattice(x + step, hi, step), ys), keys)
  {
    var xs := Lattice(x, hi, step);
    assert xs[0] == x && xs[1..] == Lattice(x + step, hi, step);
    MissingAppend(Column(x, ys), Grid(xs[1..], ys), keys);
  }

  /** Walking a column: its first cell, then the rest. */
  lemma ColumnStep(x: int, y: int, hi: int, step: int, keys: set<Cell>)
    requires step > 0 && y < hi
    ensures Missing(Column(x, Lattice(y, hi, step)), keys)
      == (if Cell(x, y) in keys then [] else [Cell(x, y)]) + Missing(Column(x, Lattice(y + step, hi, step)), keys)
  {
    var ys := Lattice(y, hi, step);
    assert ys[0] == y && ys[1..] == Lattice(y + step, hi, step);
    var col := Column(x, ys);
    assert col[0] == Cell(x, y) && col[1..] == Column(x, ys[1..]);
  }

  lemma EndOfLattice(x: int, lo: int, hi: int, step: int, keys: set<Cell>)
    requires step > 0 && lo >= hi
    ensures Missing(Column(x, Lattice(lo, hi, step)), keys) == []
    ensures Lattice(lo, hi, step) == []
  {
  }

  /** One cell of the walk: the cells found so far, then the rest of the column, then the
      rest of the matrix, always make up all the missing cells. */
  lemma ColumnAdvance(found: seq<Cell>, next: seq<Cell>, x: int, y: int, hi: int, step: int, keys: set<Cell>,
                      rest: seq<Cell>, total: seq<Cell>)
    requires step > 0 && y < hi
    requires next == if Cell(x, y) in keys then [] else [Cell(x, y)]
    requires found + Missing(Column(x, Lattice(y, hi, step)), keys) + rest == total
    ensures (found + next) + Missing(Column(x, Lattice(y + step, hi, step)), keys) + rest == total
  {
    ColumnStep(x, y, hi, step, keys);
    Regroup(found, next, Missing(Column(x, Lattice(y + step, hi, step)), keys), rest);
  }

  lemma Regroup(a: seq<Cell>, b: seq<Cell>, c: seq<Cell>, d: seq<Cell>)
    ensures a + (b + c) + d == (a + b) + c + d
  {
  }

  /** One column of the walk starts. */
  lemma GridAdvance(found: seq<Cell>, x: int, hi: int, step: int, ys: seq<int>, keys: set<Cell>, total: seq<Cell>)
    requires step > 0 && x < hi
    requires found + Missing(Grid(Lattice(x, hi, step), ys), keys) == total
    ensures found + Missing(Column(x, ys), keys) + Missing(Grid(Lattice(x + step, hi, step), ys), keys) == total
  {
    GridStep(x, hi, step, ys, keys);
  }

  /** A column ends when its lattice runs out. */
  lemma ColumnEnd(found: seq<Cell>, x: int, y: int, hi: int, step: int, keys: set<Cell>,
                  rest: seq<Cell>, total: seq<Cell>)
    requires step > 0 && y >= hi
    requires found + Missing(Column(x, Lattice(y, hi, step)), keys) + rest == total
    ensures found + rest == total
  {
    EndOfLattice(x, y, hi, step, keys);
  }

  /** The matrix ends when the lattice of columns runs out. */
  lemma GridEnd(found: seq<Cell>, x: int, hi: int, step: int, ys: seq<int>, keys: set<Cell>, total: seq<Cell>)
    requires step > 0 && x >= hi
    requires found + Missing(Grid(Lattice(x, hi, step), ys), keys) == total
    ensures found == total
  {
    assert Lattice(x, hi, step) == [];
  }

  // ---------------------------------------------------------------------------
  // The client's cell

  /** `ClientPosition`: the client's position snapped to its chunk, the cell last
      announced (`prevX`/`prevY`, undefined at first) and the `stale` flag. */
  class ClientPosition {
    const chunkSize: int
    var x: int
    var y: int
    var prev: Option<Cell>
    var stale: bool

    constructor(chunkSize: int)
      requires chunkSize > 0
      ensures this.chunkSize == chunkSize && x == 0 && y == 0 && prev == None && !stale
    {
      this.chunkSize := chunkSize;
      x, y := 0, 0;
      prev := None;
      stale := false;
    }

    /** `execute`: snap the position to its chunk; announce `clientChunkChange` when the
        cell differs from the one last announced, or the position is stale. Afterwards the
        current cell is the announced one and nothing is stale. */
    method Execute(px: int, py: int) returns (notified: bool)
      requires chunkSize > 0
      modifies this
      ensures x <= px < x + chunkSize && x % chunkSize == 0
      ensures y <= py < y + chunkSize && y % chunkSize == 0
      ensures notified <==> old(prev) != Some(Cell(x, y)) || old(stale)
      ensures prev == Some(Cell(x, y)) && !stale
    {
      x := Snap(px, chunkSize);
      y := Snap(py, chunkSize);
      notified := false;
      if prev != Some(Cell(x, y)) || stale {
        notified := true;
        prev := Some(Cell(x, y));
        stale := false;
      }
    }

    /** `setStale`: the next `execute` announces even an unchanged cell. */
    method SetStale()
      modifies this
      ensures stale && x == old(x) && y == old(y) && prev == old(prev)
    {
      stale := true;
    }
  }
}

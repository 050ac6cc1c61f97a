/** The zigzag walk over a square symbol, for every odd size and every reservation map. */
module QrWalk {
  datatype Cell = Cell(row: nat, col: nat)

  type Grid = seq<seq<bool>>

  predicate Square(grid: Grid, size: nat) {
    |grid| == size && forall r | 0 <= r < size :: |grid[r]| == size
  }

  predicate Walkable(size: nat) {
    size >= 7 && size % 2 == 1
  }

  /** The right column of the p-th pair; the timing column 6 is stepped over. */
  function PairColumn(size: nat, p: nat): int {
    var raw := size - 1 - 2 * p;
    if raw > 6 then raw else raw - 1
  }

  function RowOf(size: nat, p: nat, row: nat): nat
    requires row < size
  {
    if p % 2 == 0 then size - 1 - row else row
  }

  /** Pairs, rows of a pair, and the two columns of a row, counted in one number. */
  function StepOf(size: nat, p: nat, row: nat, side: nat): nat {
    2 * size * p + 2 * row + side
  }

  function Steps(size: nat): nat
    requires Walkable(size)
  {
    2 * size * ((size - 1) / 2)
  }

  lemma DivModUnique(m: nat, p: nat, t: nat)
    requires t < m
    ensures (m * p + t) / m == p && (m * p + t) % m == t
  {
    var k := m * p + t;
    var q, u := k / m, k % m;
    assert m * q + u == m * p + t;
    assert m * (q + 1) == m * q + m && m * (p + 1) == m * p + m;
    if q < p {
      MulMonotone(m, q + 1, p);
    } else if q > p {
      MulMonotone(m, p + 1, q);
    }
  }

  lemma QuotientNat(k: nat, m: nat)
    requires m > 0
    ensures k / m >= 0
  {
    var q := k / m;
    assert k == m * q + k % m;
    if q < 0 {
      MulMonotone(m, q, -1);
    }
  }

  lemma MulMonotone(m: nat, x: int, y: int)
    requires x <= y
    ensures m * x <= m * y
  {}

  /** The pair, the row within the pair and the side that step k belongs to. */
  function PairOf(size: nat, k: nat): nat
    requires size > 0
  {
    QuotientNat(k, 2 * size);
    k / (2 * size)
  }

  function RowIndexOf(size: nat, k: nat): nat
    requires size > 0
  {
    k % (2 * size) / 2
  }

  function SideOf(size: nat, k: nat): nat
    requires size > 0
  {
    k % (2 * size) % 2
  }

  lemma StepParts(size: nat, p: nat, row: nat, side: nat)
    requires row < size && side < 2
    ensures var k := StepOf(size, p, row, side);
      PairOf(size, k) == p && RowIndexOf(size, k) == row && SideOf(size, k) == side
  {
    DivModUnique(2 * size, p, 2 * row + side);
  }

  lemma PartsStep(size: nat, k: nat)
    requires Walkable(size)
    ensures RowIndexOf(size, k) < size && SideOf(size, k) < 2
    ensures StepOf(size, PairOf(size, k), RowIndexOf(size, k), SideOf(size, k)) == k
    ensures k < Steps(size) ==> PairOf(size, k) < (size - 1) / 2
  {
    var m := 2 * size;
    assert k == m * (k / m) + k % m;
    if k < Steps(size) && k / m >= (size - 1) / 2 {
      MulMonotone(m, (size - 1) / 2, k / m);
    }
  }

  /** The cell visited at step k. */
  function WalkCell(size: nat, k: nat): (cell: Cell)
    requires Walkable(size) && k < Steps(size)
    ensures cell.row < size && cell.col < size && cell.col != 6
  {
    PartsStep(size, k);
    var p := PairOf(size, k);
    Cell(RowOf(size, p, RowIndexOf(size, k)), PairColumn(size, p) - SideOf(size, k))
  }

  function PairFor(size: nat, col: nat): nat
    requires col < size && col != 6
  {
    if col > 6 then (size - 1 - col) / 2 else if size >= 2 + col then (size - 2 - col) / 2 else 0
  }

  /** The step at which a cell outside the timing column is visited. */
  function WalkIndex(size: nat, cell: Cell): nat
    requires Walkable(size) && cell.row < size && cell.col < size && cell.col != 6
  {
    var p := PairFor(size, cell.col);
    StepOf(size, p, RowOf(size, p, cell.row), if cell.col == PairColumn(size, p) then 0 else 1)
  }

  /** The pair of columns a cell lies in. */
  lemma PairForColumn(size: nat, col: nat)
    requires Walkable(size) && col < size && col != 6
    ensures var p := PairFor(size, col);
      p < (size - 1) / 2 && (col == PairColumn(size, p) || col == PairColumn(size, p) - 1)
  {
  }

  lemma StepInRange(size: nat, p: nat, row: nat, side: nat)
    requires Walkable(size) && row < size && side < 2 && p < (size - 1) / 2
    ensures StepOf(size, p, row, side) < Steps(size)
  {
    MulMonotone(2 * size, p + 1, (size - 1) / 2);
    assert 2 * size * (p + 1) == 2 * size * p + 2 * size;
  }

  /** The walk visits every cell outside column 6, and each at one step only. */
  lemma WalkVisitsCell(size: nat, cell: Cell)
    requires Walkable(size) && cell.row < size && cell.col < size && cell.col != 6
    ensures WalkIndex(size, cell) < Steps(size)
    ensures WalkCell(size, WalkIndex(size, cell)) == cell
  {
    var p := PairFor(size, cell.col);
    PairForColumn(size, cell.col);
    var side := if cell.col == PairColumn(size, p) then 0 else 1;
    var row := RowOf(size, p, cell.row);
    StepParts(size, p, row, side);
    StepInRange(size, p, row, side);
    hide PairOf, SideOf, RowIndexOf, StepOf, Steps, PairFor, PairColumn;
  }

  lemma WalkIndexOfCell(size: nat, k: nat)
    requires Walkable(size) && k < Steps(size)
    ensures WalkIndex(size, WalkCell(size, k)) == k
  {
    PartsStep(size, k);
    var p, side := PairOf(size, k), SideOf(size, k);
    hide PairOf, SideOf, RowIndexOf, StepOf, Steps;
    assert PairFor(size, PairColumn(size, p) - side) == p;
  }

  lemma WalkInjective(size: nat, j: nat, k: nat)
    requires Walkable(size) && j < Steps(size) && k < Steps(size)
    requires WalkCell(size, j) == WalkCell(size, k)
    ensures j == k
  {
    hide *;
    WalkIndexOfCell(size, j);
    WalkIndexOfCell(size, k);
  }

  // -- Writing and reading along the walk ---------------------------------------

  predicate IsFree(reserved: Grid, size: nat, k: nat)
    requires Walkable(size) && Square(reserved, size) && k < Steps(size)
  {
    var cell := WalkCell(size, k);
    !reserved[cell.row][cell.col]
  }

  /** How many free cells the first k steps visit: the number of the payload bit that step k receives. */
  function Rank(reserved: Grid, size: nat, k: nat): nat
    requires Walkable(size) && Square(reserved, size) && k <= Steps(size)
  {
    if k == 0 then 0 else Rank(reserved, size, k - 1) + if IsFree(reserved, size, k - 1) then 1 else 0
  }

  /** Mask 0 flips the modules whose coordinates sum to an even number. */
  predicate Masked(cell: Cell) {
    (cell.row + cell.col) % 2 == 0
  }

  /** Bit i of the stream; the cells beyond its end hold zeros. */
  predicate StreamBit(stream: seq<bool>, i: nat) {
    i < |stream| && stream[i]
  }

  function At(grid: Grid, size: nat, cell: Cell): bool
    requires Square(grid, size) && cell.row < size && cell.col < size
  {
    grid[cell.row][cell.col]
  }

  /** Every free cell of the first k steps holds its stream bit, masked. */
  ghost predicate Placed(grid: Grid, reserved: Grid, size: nat, stream: seq<bool>, k: nat)
    requires Walkable(size) && Square(reserved, size) && Square(grid, size) && k <= Steps(size)
  {
    forall j | 0 <= j < k && IsFree(reserved, size, j) ::
      At(grid, size, WalkCell(size, j)) == (StreamBit(stream, Rank(reserved, size, j)) != Masked(WalkCell(size, j)))
  }

  /** Each free module shows its bit of the stream, turned over where row and column add up to an even number. */
  ghost predicate ShowsBits(grid: Grid, reserved: Grid, size: nat, stream: seq<bool>)
    requires Walkable(size) && Square(reserved, size) && Square(grid, size)
  {
    forall k | 0 <= k < Steps(size) ::
      var cell := WalkCell(size, k);
      || reserved[cell.row][cell.col]
      || grid[cell.row][cell.col] == (StreamBit(stream, Rank(reserved, size, k)) != ((cell.row + cell.col) % 2 == 0))
  }

  lemma PlacedShows(grid: Grid, reserved: Grid, size: nat, stream: seq<bool>)
    requires Walkable(size) && Square(reserved, size) && Square(grid, size)
    requires Placed(grid, reserved, size, stream, Steps(size))
    ensures ShowsBits(grid, reserved, size, stream)
  {
    hide WalkCell, Steps, StreamBit, Rank;
    forall k | 0 <= k < Steps(size)
      ensures
        var cell := WalkCell(size, k);
        || reserved[cell.row][cell.col]
        || grid[cell.row][cell.col] == (StreamBit(stream, Rank(reserved, size, k)) != ((cell.row + cell.col) % 2 == 0))
    {
      assert IsFree(reserved, size, k) == !reserved[WalkCell(size, k).row][WalkCell(size, k).col];
    }
  }

  /** A reader: the unmasked free cells in walking order. */
  function ReadBits(grid: Grid, reserved: Grid, size: nat, k: nat): seq<bool>
    requires Walkable(size) && Square(reserved, size) && Square(grid, size) && k <= Steps(size)
  {
    if k == 0 then []
    else
      var cell := WalkCell(size, k - 1);
      ReadBits(grid, reserved, size, k - 1)
      + if IsFree(reserved, size, k - 1) then [At(grid, size, cell) != Masked(cell)] else []
  }

  /** Reading in walking order returns the placed stream, bit for bit, then zeros. */
  lemma {:induction false} ReadPlaced(grid: Grid, reserved: Grid, size: nat, stream: seq<bool>, k: nat)
    requires Walkable(size) && Square(reserved, size) && Square(grid, size) && k <= Steps(size)
    requires Placed(grid, reserved, size, stream, k)
    ensures |ReadBits(grid, reserved, size, k)| == Rank(reserved, size, k)
    ensures forall i | 0 <= i < Rank(reserved, size, k) :: ReadBits(grid, reserved, size, k)[i] == StreamBit(stream, i)
  {
    hide WalkCell, Steps, Masked, At, IsFree;
    if k > 0 {
      ReadPlaced(grid, reserved, size, stream, k - 1);
    }
  }

  // -- Counting the free cells --------------------------------------------------

  /** Rows top .. bottom-1 and columns left .. right-1. */
  datatype Rect = Rect(top: nat, bottom: nat, left: nat, right: nat)

  predicate Inside(rect: Rect, r: nat, c: nat) {
    rect.top <= r < rect.bottom && rect.left <= c < rect.right
  }

  function Area(rects: seq<Rect>): int {
    if |rects| == 0 then 0
    else
      var rect := rects[0];
      (rect.bottom - rect.top) * (rect.right - rect.left) + Area(rects[1..])
  }

  ghost predicate WellFormed(rects: seq<Rect>) {
    forall rect | rect in rects :: rect.top <= rect.bottom && rect.left <= rect.right
  }

  ghost function RowCells(r: nat, left: nat, right: nat): set<Cell> {
    set c: nat | left <= c < right :: Cell(r, c)
  }

  ghost function RectCells(rect: Rect): set<Cell> {
    set r: nat, c: nat | rect.top <= r < rect.bottom && rect.left <= c < rect.right :: Cell(r, c)
  }

  lemma {:induction false} RowCardinality(r: nat, left: nat, right: nat)
    requires left <= right
    ensures |RowCells(r, left, right)| == right - left
    decreases right
  {
    if left == right {
      assert RowCells(r, left, right) == {};
    } else {
      RowCardinality(r, left, right - 1);
      assert RowCells(r, left, right) == RowCells(r, left, right - 1) + {Cell(r, right - 1)};
    }
  }

  lemma RectRows(rect: Rect)
    requires rect.top < rect.bottom && rect.left <= rect.right
    ensures var shorter := rect.(bottom := rect.bottom - 1);
      var row := RowCells(rect.bottom - 1, rect.left, rect.right);
      RectCells(rect) == RectCells(shorter) + row && RectCells(shorter) !! row
  {
  }

  lemma {:induction false} RectCardinality(rect: Rect)
    requires rect.top <= rect.bottom && rect.left <= rect.right
    ensures |RectCells(rect)| == (rect.bottom - rect.top) * (rect.right - rect.left)
    decreases rect.bottom
  {
    if rect.top == rect.bottom {
      assert RectCells(rect) == {};
    } else {
      RectRows(rect);
      hide RectCells, RowCells;
      RectCardinality(rect.(bottom := rect.bottom - 1));
      RowCardinality(rect.bottom - 1, rect.left, rect.right);
      var h, w := rect.bottom - 1 - rect.top, rect.right - rect.left;
      assert (h + 1) * w == h * w + w;
    }
  }

  ghost function Union(rects: seq<Rect>): set<Cell> {
    if |rects| == 0 then {} else RectCells(rects[0]) + Union(rects[1..])
  }

  lemma {:induction false} UnionCardinality(rects: seq<Rect>)
    requires WellFormed(rects)
    ensures |Union(rects)| <= Area(rects)
  {
    if |rects| > 0 {
      UnionCardinality(rects[1..]);
      RectCardinality(rects[0]);
      UnionSize(RectCells(rects[0]), Union(rects[1..]));
    }
  }

  lemma UnionSize(a: set<Cell>, b: set<Cell>)
    ensures |a + b| <= |a| + |b|
  {
    assert a + b == a + (b - a);
  }

  lemma {:induction false} UnionContains(rects: seq<Rect>, i: nat, r: nat, c: nat)
    requires i < |rects| && Inside(rects[i], r, c)
    ensures Cell(r, c) in Union(rects)
  {
    if i > 0 {
      UnionContains(rects[1..], i - 1, r, c);
    }
  }

  ghost function FreeCells(reserved: Grid, size: nat, k: nat): set<Cell>
    requires Walkable(size) && Square(reserved, size) && k <= Steps(size)
  {
    set j | 0 <= j < k && IsFree(reserved, size, j) :: WalkCell(size, j)
  }

  lemma {:induction false} RankCounts(reserved: Grid, size: nat, k: nat)
    requires Walkable(size) && Square(reserved, size) && k <= Steps(size)
    ensures |FreeCells(reserved, size, k)| == Rank(reserved, size, k)
  {
    hide WalkCell, Steps, IsFree;
    if k == 0 {
      assert FreeCells(reserved, size, 0) == {};
    } else {
      RankCounts(reserved, size, k - 1);
      var before, cell := FreeCells(reserved, size, k - 1), WalkCell(size, k - 1);
      if IsFree(reserved, size, k - 1) {
        assert FreeCells(reserved, size, k) == before + {cell};
        if cell in before {
          var j :| 0 <= j < k - 1 && WalkCell(size, j) == cell;
          WalkInjective(size, j, k - 1);
        }
      } else {
        assert FreeCells(reserved, size, k) == before;
      }
    }
  }

  /** The walk has at least as many free cells as the symbol has cells outside any cover of the reserved ones. */
  lemma FreeCount(reserved: Grid, size: nat, rects: seq<Rect>)
    requires Walkable(size) && Square(reserved, size) && WellFormed(rects)
    requires forall r, c | 0 <= r < size && 0 <= c < size && (reserved[r][c] || c == 6) ::
      exists i :: 0 <= i < |rects| && Inside(rects[i], r, c)
    ensures Rank(reserved, size, Steps(size)) >= size * size - Area(rects)
  {
    hide WalkCell, Rank, Union, Area, WalkIndex;
    var whole := Rect(0, size, 0, size);
    var free, covered := FreeCells(reserved, size, Steps(size)), Union(rects);
    RectCardinality(whole);
    forall cell | cell in RectCells(whole) ensures cell in free + covered {
      if reserved[cell.row][cell.col] || cell.col == 6 {
        var i :| 0 <= i < |rects| && Inside(rects[i], cell.row, cell.col);
        UnionContains(rects, i, cell.row, cell.col);
      } else {
        WalkVisitsCell(size, cell);
        assert IsFree(reserved, size, WalkIndex(size, cell));
      }
    }
    SubsetSize(RectCells(whole), free + covered);
    UnionSize(free, covered);
    UnionCardinality(rects);
    RankCounts(reserved, size, Steps(size));
  }

  lemma {:induction false} SubsetSize(a: set<Cell>, b: set<Cell>)
    requires a <= b
    ensures |a| <= |b|
  {
    assert b == a + (b - a);
  }
}

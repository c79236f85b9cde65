/** The grid of creation links in the menu: groups are packed in a square with as many rows
    as columns, whose missing cells are spread over the first rows. */
module CreationGrid {

  /** int(math.ceil(math.sqrt(n))) */
  function CeilSqrt(n: nat): (g: nat)
    ensures n <= g * g
    ensures g > 0 ==> (g - 1) * (g - 1) < n
  {
    if n == 0 then
      0
    else
      var g := CeilSqrt(n - 1);
      if n <= g * g then
        assert (g - 1) * (g - 1) < n - 1;
        g
      else
        assert n <= (g + 1) * (g + 1);
        g + 1
  }

  function Holes(n: nat): int {
    CeilSqrt(n) * CeilSqrt(n) - n
  }

  /** A grid never misses as many as two cells a row. */
  lemma HolesAreFew(n: nat)
    ensures 0 <= Holes(n)
    ensures CeilSqrt(n) > 0 ==> Holes(n) <= 2 * CeilSqrt(n) - 2
    ensures CeilSqrt(n) == 0 ==> Holes(n) == 0
  {
    var g: int := CeilSqrt(n);
    assert (g - 1) * (g - 1) == g * g - 2 * g + 1;
  }

  // ------------------------------------------------------------ the rows in closed form

  /** Cells in row `r` of a grid of size `g` that misses `h` cells: up to g of them cost one
      cell in each of the first h rows; beyond g, the first h - g rows lose two cells and all
      the others one. */
  function RowLength(g: nat, h: int, r: nat): int {
    if r < h - g then g - 2 else if r < h then g - 1 else g
  }

  /** Cells missing after the first `r` rows. */
  function HolesLeft(g: nat, h: int, r: nat): int {
    if r < h - g then h - 2 * r
    else if h > g then g - r
    else if r < h then h - r
    else 0
  }

  /** Cells in the first `r` rows. */
  function CellsBefore(g: nat, h: int, r: nat): int {
    if r == 0 then 0 else CellsBefore(g, h, r - 1) + RowLength(g, h, r - 1)
  }

  ghost predicate Fits(g: nat, h: int) {
    0 <= h && (if g == 0 then h == 0 else h <= 2 * g - 2)
  }

  lemma {:induction false} CellsAndHoles(g: nat, h: int, r: nat)
    requires Fits(g, h) && r <= g
    ensures CellsBefore(g, h, r) == r * g - h + HolesLeft(g, h, r)
  {
    if r > 0 {
      CellsAndHoles(g, h, r - 1);
      assert (r - 1) * g + g == r * g;
    }
  }

  lemma {:induction false} CellsIncrease(g: nat, h: int, r: nat, s: nat)
    requires Fits(g, h) && r <= s <= g
    ensures 0 <= CellsBefore(g, h, r) <= CellsBefore(g, h, s)
    decreases s
  {
    if r < s {
      CellsIncrease(g, h, r, s - 1);
    } else if r > 0 {
      CellsIncrease(g, h, r - 1, r - 1);
    }
  }

  /** For every number of groups, the rows hold exactly that many cells and leave no hole
      over; no length is negative, no row is shorter than a row before it, and the holes are
      spread evenly: no row is longer than another one by more than one cell. */
  lemma RowLengthsFit(n: nat)
    ensures var g := CeilSqrt(n);
            && CellsBefore(g, Holes(n), g) == n
            && HolesLeft(g, Holes(n), g) == 0
            && (forall r :: 0 <= r < g ==> RowLength(g, Holes(n), r) >= 0)
            && (forall r, s :: 0 <= r < s < g ==>
                  RowLength(g, Holes(n), r) <= RowLength(g, Holes(n), s) <= RowLength(g, Holes(n), r) + 1)
  {
    HolesAreFew(n);
    CellsAndHoles(CeilSqrt(n), Holes(n), CeilSqrt(n));
  }

  /** What the holes that are left say about the next row. */
  lemma HolesOfRow(g: nat, h: int, r: nat)
    requires Fits(g, h) && r < g
    ensures var holes := HolesLeft(g, h, r);
            var lost := if holes == 0 then 0 else if holes - (g - r) > 0 then 2 else 1;
            RowLength(g, h, r) == g - lost && HolesLeft(g, h, r + 1) == holes - lost
  {
  }

  // ------------------------------------------------------------ the packing

  function Concat<T>(rows: seq<seq<T>>): seq<T> {
    if rows == [] then [] else Concat(rows[..|rows| - 1]) + rows[|rows| - 1]
  }

  lemma ConcatAppend<T>(rows: seq<seq<T>>, row: seq<T>, groups: seq<T>, from: nat, to: nat)
    requires from <= to <= |groups|
    requires Concat(rows) == groups[..from] && row == groups[from..to]
    ensures Concat(rows + [row]) == groups[..to]
  {
    assert (rows + [row])[..|rows|] == rows;
  }

  /** One row: takes `count` groups from the iterator, which has given `next` so far. */
  method TakeRow<T>(groups: seq<T>, next: nat, count: nat) returns (row: seq<T>, next': nat)
    requires next + count <= |groups|
    ensures next' == next + count && row == groups[next..next']
  {
    row, next' := [], next;
    for colIdx := 0 to count
      invariant next' == next + colIdx && row == groups[next..next']
    {
      row := row + [groups[next']];
      next' := next' + 1;
    }
  }

  ghost predicate HasLengths<T>(grid: seq<seq<T>>, g: nat, h: int) {
    forall r :: 0 <= r < |grid| ==> |grid[r]| == RowLength(g, h, r)
  }

  lemma HasLengthsAppend<T>(grid: seq<seq<T>>, g: nat, h: int, row: seq<T>)
    requires HasLengths(grid, g, h) && |row| == RowLength(g, h, |grid|)
    ensures HasLengths(grid + [row], g, h)
  {
  }

  /** The loop over the rows. Every row finds the groups it asks the iterator for. */
  method PackRows<T>(groups: seq<T>, gridSize: nat, missing: int) returns (grid: seq<seq<T>>)
    requires Fits(gridSize, missing) && CellsBefore(gridSize, missing, gridSize) == |groups|
    ensures |grid| == gridSize
    ensures HasLengths(grid, gridSize, missing)
    ensures Concat(grid) == groups
  {
    grid := [];
    var holes, next, rowWeight := missing, 0, gridSize;
    while rowWeight > 0
      invariant |grid| == gridSize - rowWeight
      invariant holes == HolesLeft(gridSize, missing, |grid|)
      invariant 0 <= next == CellsBefore(gridSize, missing, |grid|) <= |groups|
      invariant HasLengths(grid, gridSize, missing)
      invariant Concat(grid) == groups[..next]
    {
      HolesOfRow(gridSize, missing, |grid|);
      var colMaxIdx := gridSize;
      if holes != 0 {
        if holes - rowWeight > 0 {
          holes := holes - 2;
          colMaxIdx := gridSize - 2;
        } else {
          holes := holes - 1;
          colMaxIdx := gridSize - 1;
        }
      }
      CellsIncrease(gridSize, missing, |grid|, |grid| + 1);
      CellsIncrease(gridSize, missing, |grid| + 1, gridSize);
      var row;
      row, next := TakeRow(groups, next, colMaxIdx);
      ConcatAppend(grid, row, groups, next - |row|, next);
      HasLengthsAppend(grid, gridSize, missing, row);
      grid := grid + [row];
      rowWeight := rowWeight - 1;
    }
  }

  /** as_grid() on the groups in order, each standing for its cell. */
  method AsGrid<T>(groups: seq<T>) returns (grid: seq<seq<T>>)
    ensures |grid| == CeilSqrt(|groups|)
    ensures forall r :: 0 <= r < |grid| ==> |grid[r]| == RowLength(|grid|, Holes(|groups|), r)
    ensures Concat(grid) == groups
  {
    var gridSize := CeilSqrt(|groups|);
    HolesAreFew(|groups|);
    RowLengthsFit(|groups|);
    grid := PackRows(groups, gridSize, gridSize * gridSize - |groups|);
  }
}

/** The floor-plan grid of App.js: a list of rows of cells, indexed
    `grid[row][col]`. A grid read back from a file need not be rectangular,
    so cell access is modelled with its failure case. */
module GridModel {
  import opened Wrappers
  import opened Geometry

  /** One square of the floor plan. `caption` is the JavaScript field `label`;
      `color` and `comment` are `null` when absent. */
  datatype Cell = Cell(occupied: bool, color: Option<string>, caption: string, comment: Option<string>)

  /** `{ occupied: false, color: null, label: '', comment: null }` */
  const EmptyCell := Cell(false, None, "", None)

  type Grid = seq<seq<Cell>>

  /** The length `Array.from({ length: n })` produces: a negative length gives an empty array. */
  function ArrayLength(n: int): nat {
    if n < 0 then 0 else n
  }

  /** `createEmptyGrid(rows, cols)` */
  function CreateEmptyGrid(rows: int, cols: int): (g: Grid)
    ensures Rectangular(g, rows, cols)
    ensures forall i, j :: 0 <= i < |g| && 0 <= j < |g[i]| ==> g[i][j] == EmptyCell
  {
    seq(ArrayLength(rows), _ => seq(ArrayLength(cols), _ => EmptyCell))
  }

  /** Every row holds the same number of cells, both counts as `gridSize` gives them. */
  ghost predicate Rectangular(g: Grid, rows: int, cols: int) {
    |g| == ArrayLength(rows) && forall i :: 0 <= i < |g| ==> |g[i]| == ArrayLength(cols)
  }

  /** `grid[p.row][p.col]` is a cell (reading it does not throw). */
  predicate InGrid(g: Grid, p: Pos) {
    0 <= p.row < |g| && 0 <= p.col < |g[p.row]|
  }

  /** `grid[r][c]`, with `None` for the `undefined` whose fields cannot be read. */
  function CellAt(g: Grid, p: Pos): (c: Option<Cell>)
    ensures c.Some? <==> InGrid(g, p)
    ensures c.Some? ==> c.value == g[p.row][p.col]
  {
    if InGrid(g, p) then Some(g[p.row][p.col]) else None
  }

  /** The bounds check App.js makes against `gridSize`. */
  predicate InBounds(rows: int, cols: int, p: Pos) {
    0 <= p.row < rows && 0 <= p.col < cols
  }

  /** In a rectangular grid, every position within `gridSize` holds a cell. */
  lemma RectangularInBounds(g: Grid, rows: int, cols: int, p: Pos)
    requires Rectangular(g, rows, cols)
    ensures InBounds(rows, cols, p) ==> InGrid(g, p)
  {
  }

  /** Same number of rows, and the same number of cells in each row. */
  ghost predicate SameShape(g: Grid, h: Grid) {
    |g| == |h| && forall i :: 0 <= i < |g| ==> |g[i]| == |h[i]|
  }

  /** Only the cell at `p` may differ between `g` and `h`. */
  ghost predicate OnlyCellChanged(g: Grid, h: Grid, p: Pos) {
    SameShape(g, h) &&
    forall i, j :: 0 <= i < |g| && 0 <= j < |g[i]| && Pos(i, j) != p ==> h[i][j] == g[i][j]
  }
}

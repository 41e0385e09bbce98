/** `getTableBorders` of App.js: a cell labelled as a table drops the border
    line on each side where another table cell adjoins it, so that runs of
    table cells are drawn as one table. */
module Borders {
  import opened Wrappers
  import opened Text
  import opened Geometry
  import opened GridModel

  /** The four border widths of a cell's style. */
  datatype BorderStyle = BorderStyle(top: int, bottom: int, left: int, right: int)

  /** The label fragment that marks a table. */
  const TableMark := "Table"

  /** The cell at `p` is within `gridSize`, exists, is occupied and its label
      contains "Table". */
  ghost predicate TableAt(g: Grid, rows: int, cols: int, p: Pos) {
    InBounds(rows, cols, p) && InGrid(g, p) && g[p.row][p.col].occupied &&
    Occurs(TableMark, g[p.row][p.col].caption)
  }

  /** Testing `p` does not throw: within `gridSize` it has a cell to read. */
  predicate Readable(g: Grid, rows: int, cols: int, p: Pos) {
    InBounds(rows, cols, p) ==> InGrid(g, p)
  }

  /** The inner `isTable(r, c)`, evaluated left to right with `&&` stopping
      early; `None` is the `TypeError` of reading a missing cell. */
  function IsTable(g: Grid, rows: int, cols: int, p: Pos): (t: Option<bool>)
    ensures t.Some? <==> Readable(g, rows, cols, p)
    ensures t.Some? ==> (t.value <==> TableAt(g, rows, cols, p))
  {
    if !InBounds(rows, cols, p) then Some(false)
    else match CellAt(g, p)
      case None => None
      case Some(cell) => Some(cell.occupied && Includes(cell.caption, TableMark))
  }

  function Width(adjoined: bool): int {
    if adjoined then 0 else 1
  }

  function Up(p: Pos): Pos { Pos(p.row - 1, p.col) }
  function Down(p: Pos): Pos { Pos(p.row + 1, p.col) }
  function Left(p: Pos): Pos { Pos(p.row, p.col - 1) }
  function Right(p: Pos): Pos { Pos(p.row, p.col + 1) }

  /** Each border is 0 where the neighbour on that side is a table cell and 1
      otherwise; a neighbour outside `gridSize` therefore always gives 1. The
      function throws exactly when a neighbour within `gridSize` has no cell. */
  function TableBorders(g: Grid, rows: int, cols: int, p: Pos): (b: Option<BorderStyle>)
    ensures b.Some? <==>
      Readable(g, rows, cols, Up(p)) && Readable(g, rows, cols, Down(p)) &&
      Readable(g, rows, cols, Left(p)) && Readable(g, rows, cols, Right(p))
    ensures b.Some? ==>
      && (b.value.top == 0 <==> TableAt(g, rows, cols, Up(p)))
      && (b.value.bottom == 0 <==> TableAt(g, rows, cols, Down(p)))
      && (b.value.left == 0 <==> TableAt(g, rows, cols, Left(p)))
      && (b.value.right == 0 <==> TableAt(g, rows, cols, Right(p)))
    ensures b.Some? ==>
      && 0 <= b.value.top <= 1 && 0 <= b.value.bottom <= 1
      && 0 <= b.value.left <= 1 && 0 <= b.value.right <= 1
  {
    match (IsTable(g, rows, cols, Up(p)), IsTable(g, rows, cols, Down(p)),
           IsTable(g, rows, cols, Left(p)), IsTable(g, rows, cols, Right(p)))
    case (Some(t), Some(d), Some(l), Some(r)) => Some(BorderStyle(Width(t), Width(d), Width(l), Width(r)))
    case _ => None
  }

  /** `getTableBorders` as written: start from width 1 on every side and
      zero the side of each neighbour that is a table cell, in the order
      top, bottom, left, right; a neighbour that throws ends the call. */
  method GetTableBorders(g: Grid, rows: int, cols: int, p: Pos) returns (style: Option<BorderStyle>)
    ensures style == TableBorders(g, rows, cols, p)
  {
    var s := BorderStyle(1, 1, 1, 1);
    var t := IsTable(g, rows, cols, Up(p));
    if t.None? { return None; }
    if t.value { s := s.(top := 0); }
    t := IsTable(g, rows, cols, Down(p));
    if t.None? { return None; }
    if t.value { s := s.(bottom := 0); }
    t := IsTable(g, rows, cols, Left(p));
    if t.None? { return None; }
    if t.value { s := s.(left := 0); }
    t := IsTable(g, rows, cols, Right(p));
    if t.None? { return None; }
    if t.value { s := s.(right := 0); }
    return Some(s);
  }

  /** On a grid that matches `gridSize`, borders can always be computed. */
  lemma BordersTotal(g: Grid, rows: int, cols: int, p: Pos)
    requires Rectangular(g, rows, cols)
    ensures TableBorders(g, rows, cols, p).Some?
  {
    RectangularInBounds(g, rows, cols, Up(p));
    RectangularInBounds(g, rows, cols, Down(p));
    RectangularInBounds(g, rows, cols, Left(p));
    RectangularInBounds(g, rows, cols, Right(p));
  }

  /** Two table cells side by side both drop the border between them. */
  lemma HorizontalMerge(g: Grid, rows: int, cols: int, p: Pos)
    requires Rectangular(g, rows, cols)
    requires TableAt(g, rows, cols, p) && TableAt(g, rows, cols, Right(p))
    ensures TableBorders(g, rows, cols, p).Some? && TableBorders(g, rows, cols, p).value.right == 0
    ensures TableBorders(g, rows, cols, Right(p)).Some? && TableBorders(g, rows, cols, Right(p)).value.left == 0
  {
    BordersTotal(g, rows, cols, p);
    BordersTotal(g, rows, cols, Right(p));
    assert Left(Right(p)) == p;
  }

  /** Two table cells one above the other both drop the border between them. */
  lemma VerticalMerge(g: Grid, rows: int, cols: int, p: Pos)
    requires Rectangular(g, rows, cols)
    requires TableAt(g, rows, cols, p) && TableAt(g, rows, cols, Down(p))
    ensures TableBorders(g, rows, cols, p).Some? && TableBorders(g, rows, cols, p).value.bottom == 0
    ensures TableBorders(g, rows, cols, Down(p)).Some? && TableBorders(g, rows, cols, Down(p)).value.top == 0
  {
    BordersTotal(g, rows, cols, p);
    BordersTotal(g, rows, cols, Down(p));
    assert Up(Down(p)) == p;
  }
}

/** Placing a template on the floor plan, erasing a cell, and the preview
    highlight of App.js. */
module Placement {
  import opened Wrappers
  import opened Geometry
  import opened GridModel
  import opened Shapes
  import opened CellKeys

  /** The three tools of the toolbar: `'place'`, `'erase'` and `'comment'`. */
  datatype Tool = Place | Erase | Comment

  /** Where the `k`-th offset of a footprint lands when its anchor is `anchor`. */
  function Footprint(cells: seq<Pos>, anchor: Pos, k: nat): Pos
    requires k < |cells|
  {
    Pos(anchor.row + cells[k].row, anchor.col + cells[k].col)
  }

  /** Some offset of the footprint lands on `p`. */
  ghost predicate Covers(cells: seq<Pos>, anchor: Pos, p: Pos) {
    exists k :: 0 <= k < |cells| && Footprint(cells, anchor, k) == p
  }

  /** The cell a placement writes: occupied, in the template's colour, labelled
      with its name, without comment. */
  function PlacedCell(shape: Shape): Cell {
    Cell(true, Some(shape.color), shape.name, None)
  }

  /** `p` holds a cell that is not occupied. */
  predicate Free(g: Grid, p: Pos) {
    InGrid(g, p) && !g[p.row][p.col].occupied
  }

  /** Every footprint cell lies within `gridSize` and is free. */
  ghost predicate Fits(g: Grid, rows: int, cols: int, cells: seq<Pos>, anchor: Pos) {
    forall k :: 0 <= k < |cells| ==>
      InBounds(rows, cols, Footprint(cells, anchor, k)) && Free(g, Footprint(cells, anchor, k))
  }

  /** Some footprint cell within `gridSize` has no cell in the grid to read. */
  ghost predicate Faults(g: Grid, rows: int, cols: int, cells: seq<Pos>, anchor: Pos) {
    exists k :: 0 <= k < |cells| &&
      InBounds(rows, cols, Footprint(cells, anchor, k)) && !InGrid(g, Footprint(cells, anchor, k))
  }

  lemma FootprintTail(cells: seq<Pos>, anchor: Pos)
    requires cells != []
    ensures forall k :: 0 <= k < |cells| - 1 ==>
      Footprint(cells[1..], anchor, k) == Footprint(cells, anchor, k + 1)
  {
  }

  lemma CanPlaceStep(g: Grid, rows: int, cols: int, cells: seq<Pos>, anchor: Pos)
    requires cells != []
    ensures var p := Footprint(cells, anchor, 0);
      Fits(g, rows, cols, cells, anchor) <==>
        InBounds(rows, cols, p) && Free(g, p) && Fits(g, rows, cols, cells[1..], anchor)
    ensures Faults(g, rows, cols, cells[1..], anchor) ==> Faults(g, rows, cols, cells, anchor)
  {
    FootprintTail(cells, anchor);
    var p := Footprint(cells, anchor, 0);
    if InBounds(rows, cols, p) && Free(g, p) && Fits(g, rows, cols, cells[1..], anchor) {
      forall k | 0 <= k < |cells|
        ensures InBounds(rows, cols, Footprint(cells, anchor, k)) && Free(g, Footprint(cells, anchor, k))
      {
        if k > 0 {
          assert Footprint(cells, anchor, k) == Footprint(cells[1..], anchor, k - 1);
        }
      }
    }
    if Faults(g, rows, cols, cells[1..], anchor) {
      var k :| 0 <= k < |cells| - 1 &&
        InBounds(rows, cols, Footprint(cells[1..], anchor, k)) && !InGrid(g, Footprint(cells[1..], anchor, k));
      assert Footprint(cells, anchor, k + 1) == Footprint(cells[1..], anchor, k);
    }
  }

  /** The `canPlace` test of `handlePlaceShape`: `cells.every(...)`, stopping at
      the first offset that fails. `None` is the `TypeError` thrown when an
      offset within `gridSize` has no cell in the grid. */
  function CanPlace(g: Grid, rows: int, cols: int, cells: seq<Pos>, anchor: Pos): (r: Option<bool>)
    ensures r == Some(true) <==> Fits(g, rows, cols, cells, anchor)
    ensures r == None ==> Faults(g, rows, cols, cells, anchor)
    decreases |cells|
  {
    if cells == [] then Some(true)
    else
      var p := Footprint(cells, anchor, 0);
      CanPlaceStep(g, rows, cols, cells, anchor);
      if !InBounds(rows, cols, p) then Some(false)
      else match CellAt(g, p)
        case None => None
        case Some(cell) => if cell.occupied then Some(false) else CanPlace(g, rows, cols, cells[1..], anchor)
  }

  /** On a grid that matches `gridSize`, `canPlace` never throws. */
  lemma CanPlaceTotal(g: Grid, rows: int, cols: int, cells: seq<Pos>, anchor: Pos)
    requires Rectangular(g, rows, cols)
    ensures CanPlace(g, rows, cols, cells, anchor).Some?
  {
    if CanPlace(g, rows, cols, cells, anchor).None? {
      var k :| 0 <= k < |cells| &&
        InBounds(rows, cols, Footprint(cells, anchor, k)) && !InGrid(g, Footprint(cells, anchor, k));
      RectangularInBounds(g, rows, cols, Footprint(cells, anchor, k));
    }
  }

  /** `g` with every footprint cell replaced by `cell` and every other cell kept. */
  ghost function Stamp(g: Grid, cells: seq<Pos>, anchor: Pos, cell: Cell): Grid {
    seq(|g|, i requires 0 <= i < |g| =>
      seq(|g[i]|, j requires 0 <= j < |g[i]| =>
        if Covers(cells, anchor, Pos(i, j)) then cell else g[i][j]))
  }

  lemma CoversPrefix(cells: seq<Pos>, anchor: Pos, k: nat, p: Pos)
    requires k < |cells|
    ensures Covers(cells[..k + 1], anchor, p) <==>
      Covers(cells[..k], anchor, p) || Footprint(cells, anchor, k) == p
  {
    var pre, pre1 := cells[..k], cells[..k + 1];
    assert forall m :: 0 <= m < k ==> Footprint(pre, anchor, m) == Footprint(cells, anchor, m);
    assert forall m :: 0 <= m <= k ==> Footprint(pre1, anchor, m) == Footprint(cells, anchor, m);
    if Covers(pre1, anchor, p) {
      var m :| 0 <= m < k + 1 && Footprint(pre1, anchor, m) == p;
      if m < k {
        assert Footprint(pre, anchor, m) == p;
      }
    }
    if Covers(pre, anchor, p) {
      var m :| 0 <= m < k && Footprint(pre, anchor, m) == p;
      assert Footprint(pre1, anchor, m) == p;
    }
    if Footprint(cells, anchor, k) == p {
      assert Footprint(pre1, anchor, k) == p;
    }
  }

  /** The `forEach` of `handlePlaceShape` writing `cell` at every footprint
      position of a copy of the grid. Each write target must exist, as
      `canPlace` has checked. */
  method ApplyPlacement(g: Grid, cells: seq<Pos>, anchor: Pos, cell: Cell) returns (h: Grid)
    requires forall k :: 0 <= k < |cells| ==> InGrid(g, Footprint(cells, anchor, k))
    ensures h == Stamp(g, cells, anchor, cell)
  {
    h := g;
    var k := 0;
    while k < |cells|
      invariant 0 <= k <= |cells|
      invariant SameShape(g, h)
      invariant forall i, j :: 0 <= i < |g| && 0 <= j < |g[i]| ==>
        h[i][j] == if Covers(cells[..k], anchor, Pos(i, j)) then cell else g[i][j]
    {
      var p := Footprint(cells, anchor, k);
      h := h[p.row := h[p.row][p.col := cell]];
      forall i, j | 0 <= i < |g| && 0 <= j < |g[i]|
        ensures h[i][j] == if Covers(cells[..k + 1], anchor, Pos(i, j)) then cell else g[i][j]
      {
        CoversPrefix(cells, anchor, k, Pos(i, j));
      }
      k := k + 1;
    }
    assert cells[..k] == cells;
    var s := Stamp(g, cells, anchor, cell);
    forall i | 0 <= i < |h|
      ensures h[i] == s[i]
    {
      assert |h[i]| == |s[i]|;
    }
  }

  /** A placement writes `cell` exactly at the footprint and leaves every
      other cell, and the shape of the grid, as it was. */
  lemma StampEffect(g: Grid, cells: seq<Pos>, anchor: Pos, cell: Cell, p: Pos)
    requires InGrid(g, p)
    ensures SameShape(g, Stamp(g, cells, anchor, cell))
    ensures Stamp(g, cells, anchor, cell)[p.row][p.col]
         == if Covers(cells, anchor, p) then cell else g[p.row][p.col]
  {
  }

  /** `rightClick` on a cell that exists: an occupied cell becomes the empty
      cell (its comment removed with it); a free cell is left alone; no other
      cell changes. */
  function EraseCell(g: Grid, p: Pos): (h: Grid)
    requires InGrid(g, p)
    ensures OnlyCellChanged(g, h, p)
    ensures h[p.row][p.col] == if g[p.row][p.col].occupied then EmptyCell else g[p.row][p.col]
  {
    if g[p.row][p.col].occupied then g[p.row := g[p.row][p.col := EmptyCell]] else g
  }

  /** Erasing twice is erasing once. */
  lemma EraseIdempotent(g: Grid, p: Pos)
    requires InGrid(g, p)
    ensures EraseCell(EraseCell(g, p), p) == EraseCell(g, p)
  {
  }

  /** The keys the preview highlights: the footprint positions within
      `gridSize` whose cell is free. */
  ghost function PreviewKeys(g: Grid, rows: int, cols: int, cells: seq<Pos>, anchor: Pos): set<string> {
    set k | 0 <= k < |cells| &&
      InBounds(rows, cols, Footprint(cells, anchor, k)) && Free(g, Footprint(cells, anchor, k))
      :: Key(Footprint(cells, anchor, k).row, Footprint(cells, anchor, k).col)
  }

  /** The preview set built at the top of `renderGrid`: empty unless the place
      tool is active, a template is selected and the touch is over the grid.
      `None` is the `TypeError` thrown on an offset within `gridSize` without
      a cell. A `Set` of keys is modelled as a set of strings. */
  method BuildPreview(g: Grid, rows: int, cols: int, tool: Tool, selected: Option<Shape>, previewPos: Option<Pos>)
    returns (keys: Option<set<string>>)
    ensures !(tool == Place && selected.Some? && previewPos.Some?) ==> keys == Some({})
    ensures tool == Place && selected.Some? && previewPos.Some? ==>
      (keys.None? <==> Faults(g, rows, cols, selected.value.cells, previewPos.value))
    ensures tool == Place && selected.Some? && previewPos.Some? && keys.Some? ==>
      keys.value == PreviewKeys(g, rows, cols, selected.value.cells, previewPos.value)
  {
    if !(tool == Place && selected.Some? && previewPos.Some?) {
      return Some({});
    }
    var cells, anchor := selected.value.cells, previewPos.value;
    var acc: set<string> := {};
    var k := 0;
    while k < |cells|
      invariant 0 <= k <= |cells|
      invariant forall m :: 0 <= m < k ==>
        InBounds(rows, cols, Footprint(cells, anchor, m)) ==> InGrid(g, Footprint(cells, anchor, m))
      invariant acc == PreviewKeys(g, rows, cols, cells[..k], anchor)
    {
      var p := Footprint(cells, anchor, k);
      PreviewPrefix(g, rows, cols, cells, anchor, k);
      if InBounds(rows, cols, p) {
        if !InGrid(g, p) {
          return None;
        }
        if !g[p.row][p.col].occupied {
          acc := acc + {Key(p.row, p.col)};
        }
      }
      k := k + 1;
    }
    assert cells[..k] == cells;
    return Some(acc);
  }

  lemma PreviewPrefix(g: Grid, rows: int, cols: int, cells: seq<Pos>, anchor: Pos, k: nat)
    requires k < |cells|
    ensures var p := Footprint(cells, anchor, k);
      PreviewKeys(g, rows, cols, cells[..k + 1], anchor)
      == PreviewKeys(g, rows, cols, cells[..k], anchor)
         + (if InBounds(rows, cols, p) && Free(g, p) then {Key(p.row, p.col)} else {})
  {
    var pre, pre1 := cells[..k], cells[..k + 1];
    assert forall m :: 0 <= m < k ==> Footprint(pre, anchor, m) == Footprint(cells, anchor, m);
    assert forall m :: 0 <= m <= k ==> Footprint(pre1, anchor, m) == Footprint(cells, anchor, m);
  }

  /** A position is highlighted exactly when some footprint offset lands on
      it within `gridSize` and its cell is free. */
  lemma PreviewMembership(g: Grid, rows: int, cols: int, cells: seq<Pos>, anchor: Pos, p: Pos)
    ensures Key(p.row, p.col) in PreviewKeys(g, rows, cols, cells, anchor)
        <==> Covers(cells, anchor, p) && InBounds(rows, cols, p) && Free(g, p)
  {
    if Key(p.row, p.col) in PreviewKeys(g, rows, cols, cells, anchor) {
      var k :| 0 <= k < |cells| &&
        InBounds(rows, cols, Footprint(cells, anchor, k)) && Free(g, Footprint(cells, anchor, k)) &&
        Key(Footprint(cells, anchor, k).row, Footprint(cells, anchor, k).col) == Key(p.row, p.col);
      KeyInjective(Footprint(cells, anchor, k).row, Footprint(cells, anchor, k).col, p.row, p.col);
    }
  }

  /** When the template fits, the preview shows its whole footprint. */
  lemma PreviewOfFit(g: Grid, rows: int, cols: int, cells: seq<Pos>, anchor: Pos, p: Pos)
    requires Fits(g, rows, cols, cells, anchor)
    ensures Key(p.row, p.col) in PreviewKeys(g, rows, cols, cells, anchor) <==> Covers(cells, anchor, p)
  {
    PreviewMembership(g, rows, cols, cells, anchor, p);
  }
}

/** The session state of App.js and its event handlers. Each React state
    variable is a field; a handler that calls a setter assigns that field.
    The grid is a value: every handler that changes it builds a new grid
    and installs it with `setGrid`. */
module App {
  import opened Wrappers
  import opened Text
  import opened Geometry
  import opened GridModel
  import opened Shapes
  import opened Placement
  import opened Annotations
  import opened Persistence

  /** The grid `handlePlaceShape(p)` leaves: erase mode erases `p`; with no
      template selected, or one that does not fit, the grid stays; otherwise
      the template is stamped at `p`. `None` is a `TypeError` raised by
      `canPlace`, which leaves the grid as it was. */
  ghost function PlaceResult(g: Grid, rows: int, cols: int, tool: Tool, selected: Option<Shape>, p: Pos): Option<Grid>
    requires InGrid(g, p)
  {
    if tool == Erase then Some(EraseCell(g, p))
    else if selected.None? then Some(g)
    else match CanPlace(g, rows, cols, selected.value.cells, p)
      case None => None
      case Some(false) => Some(g)
      case Some(true) => Some(Stamp(g, selected.value.cells, p, PlacedCell(selected.value)))
  }

  /** Erase mode goes to `rightClick` whatever template is selected. */
  lemma EraseModeErases(g: Grid, rows: int, cols: int, selected: Option<Shape>, p: Pos)
    requires InGrid(g, p)
    ensures PlaceResult(g, rows, cols, Erase, selected, p) == Some(EraseCell(g, p))
  {
  }

  /** Outside erase mode, no template or a template that does not fit leaves
      the grid unchanged. */
  lemma NoPlacementWithoutFit(g: Grid, rows: int, cols: int, tool: Tool, selected: Option<Shape>, p: Pos)
    requires InGrid(g, p) && tool != Erase
    requires selected.None? || !Fits(g, rows, cols, selected.value.cells, p)
    ensures PlaceResult(g, rows, cols, tool, selected, p).Some? ==>
      PlaceResult(g, rows, cols, tool, selected, p).value == g
  {
  }

  /** A placement that goes ahead fills exactly the footprint, each footprint
      cell having been within `gridSize` and free, and keeps every other cell. */
  lemma PlacementEffect(g: Grid, rows: int, cols: int, tool: Tool, shape: Shape, p: Pos, q: Pos)
    requires InGrid(g, p) && tool != Erase && InGrid(g, q)
    requires CanPlace(g, rows, cols, shape.cells, p) == Some(true)
    ensures Fits(g, rows, cols, shape.cells, p)
    ensures var h := PlaceResult(g, rows, cols, tool, Some(shape), p);
      && h.Some? && SameShape(g, h.value)
      && h.value[q.row][q.col] == if Covers(shape.cells, p, q) then PlacedCell(shape) else g[q.row][q.col]
  {
    StampEffect(g, shape.cells, p, PlacedCell(shape), q);
  }

  /** A press on a grid that matches `gridSize` never throws, and the grid
      keeps matching it. */
  lemma PlaceKeepsRectangular(g: Grid, rows: int, cols: int, tool: Tool, selected: Option<Shape>, p: Pos)
    requires InGrid(g, p) && Rectangular(g, rows, cols)
    ensures PlaceResult(g, rows, cols, tool, selected, p).Some?
    ensures Rectangular(PlaceResult(g, rows, cols, tool, selected, p).value, rows, cols)
  {
    if tool != Erase && selected.Some? {
      CanPlaceTotal(g, rows, cols, selected.value.cells, p);
      var s := Stamp(g, selected.value.cells, p, PlacedCell(selected.value));
      assert SameShape(g, s);
    }
  }

  /** The Settings dialog opens with `gridSize.rows.toString()`, and applying
      that text unchanged gives back the same number. */
  lemma SettingsTextRoundTrip(n: int)
    ensures ParseInt(IntToString(n)) == Some(n)
  {
    ParseIntOfRendered("", n, "");
    assert "" + IntToString(n) + "" == IntToString(n);
  }

  class Session {
    var grid: Grid
    var rows: int
    var cols: int
    var shapes: seq<Shape>
    var name: string
    var tool: Tool
    var selectedShape: Option<Shape>
    var selectedCell: Option<Pos>
    var currentComment: string

    /** `gridSize` gives the number of rows of the grid (none when negative)
        and the length of its first row; a template is selected only in
        place mode. */
    ghost predicate Valid()
      reads this
    {
      && |grid| == ArrayLength(rows)
      && (grid != [] ==> |grid[0]| == ArrayLength(cols))
      && (tool != Place ==> selectedShape.None?)
    }

    /** The initial state: an empty 10 by 10 grid, the two built-in templates,
        an empty name, the place tool, nothing selected. */
    constructor ()
      ensures Valid() && Rectangular(grid, rows, cols)
      ensures grid == CreateEmptyGrid(10, 10) && rows == 10 && cols == 10
      ensures shapes == DefaultShapes && name == "" && tool == Place
      ensures selectedShape == None && selectedCell == None && currentComment == ""
    {
      grid := CreateEmptyGrid(10, 10);
      rows, cols := 10, 10;
      shapes := DefaultShapes;
      name := "";
      tool := Place;
      selectedShape, selectedCell := None, None;
      currentComment := "";
    }

    /** A template button: select it and switch to the place tool. */
    method SelectShape(shape: Shape)
      requires Valid()
      modifies this
      ensures Valid()
      ensures selectedShape == Some(shape) && tool == Place
      ensures grid == old(grid) && rows == old(rows) && cols == old(cols) && shapes == old(shapes)
      ensures name == old(name) && selectedCell == old(selectedCell) && currentComment == old(currentComment)
    {
      selectedShape := Some(shape);
      tool := Place;
    }

    /** The Eraser button: drop the selection and switch to the erase tool. */
    method SelectEraser()
      requires Valid()
      modifies this
      ensures Valid()
      ensures selectedShape == None && tool == Erase
      ensures grid == old(grid) && rows == old(rows) && cols == old(cols) && shapes == old(shapes)
      ensures name == old(name) && selectedCell == old(selectedCell) && currentComment == old(currentComment)
    {
      selectedShape := None;
      tool := Erase;
    }

    /** The Comment button: switch to the comment tool and drop the selection. */
    method SelectCommentTool()
      requires Valid()
      modifies this
      ensures Valid()
      ensures selectedShape == None && tool == Comment
      ensures grid == old(grid) && rows == old(rows) && cols == old(cols) && shapes == old(shapes)
      ensures name == old(name) && selectedCell == old(selectedCell) && currentComment == old(currentComment)
    {
      tool := Comment;
      selectedShape := None;
    }

    /** The "+ Add Shape" button: the editor opens and the place tool is chosen. */
    method OpenShapeEditor()
      requires Valid()
      modifies this
      ensures Valid()
      ensures tool == Place && selectedShape == old(selectedShape)
      ensures grid == old(grid) && rows == old(rows) && cols == old(cols) && shapes == old(shapes)
      ensures name == old(name) && selectedCell == old(selectedCell) && currentComment == old(currentComment)
    {
      tool := Place;
    }

    /** The comment box's `onChangeText`. */
    method SetCurrentComment(text: string)
      requires Valid()
      modifies this
      ensures Valid()
      ensures currentComment == text
      ensures grid == old(grid) && rows == old(rows) && cols == old(cols) && shapes == old(shapes)
      ensures name == old(name) && tool == old(tool) && selectedShape == old(selectedShape)
      ensures selectedCell == old(selectedCell)
    {
      currentComment := text;
    }

    /** The name field's `onChangeText`. */
    method SetName(n: string)
      requires Valid()
      modifies this
      ensures Valid()
      ensures name == n
      ensures grid == old(grid) && rows == old(rows) && cols == old(cols) && shapes == old(shapes)
      ensures tool == old(tool) && selectedShape == old(selectedShape)
      ensures selectedCell == old(selectedCell) && currentComment == old(currentComment)
    {
      name := n;
    }

    /** `rightClick(row, col)` on a drawn cell: an occupied cell is erased. */
    method RightClick(row: int, col: int)
      requires Valid() && InGrid(grid, Pos(row, col))
      modifies this
      ensures Valid()
      ensures grid == EraseCell(old(grid), Pos(row, col))
      ensures rows == old(rows) && cols == old(cols) && shapes == old(shapes) && name == old(name)
      ensures tool == old(tool) && selectedShape == old(selectedShape)
      ensures selectedCell == old(selectedCell) && currentComment == old(currentComment)
    {
      if grid[row][col].occupied {
        grid := EraseCell(grid, Pos(row, col));
      }
    }

    /** `handlePlaceShape(row, col)` on a drawn cell. */
    method HandlePlaceShape(row: int, col: int)
      requires Valid() && InGrid(grid, Pos(row, col))
      modifies this
      ensures Valid()
      ensures var r := PlaceResult(old(grid), rows, cols, old(tool), old(selectedShape), Pos(row, col));
        grid == if r.Some? then r.value else old(grid)
      ensures Rectangular(old(grid), rows, cols) ==>
        && PlaceResult(old(grid), rows, cols, old(tool), old(selectedShape), Pos(row, col)).Some?
        && Rectangular(grid, rows, cols)
      ensures rows == old(rows) && cols == old(cols) && shapes == old(shapes) && name == old(name)
      ensures tool == old(tool) && selectedShape == old(selectedShape)
      ensures selectedCell == old(selectedCell) && currentComment == old(currentComment)
    {
      var anchor := Pos(row, col);
      if Rectangular(grid, rows, cols) {
        PlaceKeepsRectangular(grid, rows, cols, tool, selectedShape, anchor);
      }
      if tool == Erase {
        RightClick(row, col);
        return;
      }
      if selectedShape.None? {
        return;
      }
      var shape := selectedShape.value;
      var ok := CanPlace(grid, rows, cols, shape.cells, anchor);
      if ok != Some(true) {
        return;
      }
      var h := ApplyPlacement(grid, shape.cells, anchor, PlacedCell(shape));
      StampEffect(grid, shape.cells, anchor, PlacedCell(shape), anchor);
      grid := h;
    }

    /** `handleCellPress(row, col)`: in comment mode, remember the cell and load
        its comment (or `''`) into the comment box, leaving the grid alone;
        otherwise place or erase. */
    method HandleCellPress(row: int, col: int)
      requires Valid() && InGrid(grid, Pos(row, col))
      modifies this
      ensures Valid()
      ensures old(tool) == Comment ==>
        && grid == old(grid)
        && selectedCell == Some(Pos(row, col))
        && currentComment == EditorText(old(grid)[row][col])
      ensures old(tool) != Comment ==>
        && (var r := PlaceResult(old(grid), rows, cols, old(tool), old(selectedShape), Pos(row, col));
            grid == if r.Some? then r.value else old(grid))
        && selectedCell == old(selectedCell) && currentComment == old(currentComment)
      ensures rows == old(rows) && cols == old(cols) && shapes == old(shapes) && name == old(name)
      ensures tool == old(tool) && selectedShape == old(selectedShape)
    {
      if tool == Comment {
        selectedCell := Some(Pos(row, col));
        currentComment := EditorText(grid[row][col]);
      } else {
        HandlePlaceShape(row, col);
      }
    }

    /** `handleSaveComment`: with a cell selected that exists, its comment
        becomes the text of the box, and the selection and the box are
        cleared. With no cell selected nothing happens; a selected cell
        that is not in the grid makes the handler throw before any change. */
    method HandleSaveComment()
      requires Valid()
      modifies this
      ensures Valid()
      ensures old(selectedCell).Some? && InGrid(old(grid), old(selectedCell).value) ==>
        && grid == SetComment(old(grid), old(selectedCell).value, old(currentComment))
        && selectedCell == None && currentComment == ""
      ensures !(old(selectedCell).Some? && InGrid(old(grid), old(selectedCell).value)) ==>
        grid == old(grid) && selectedCell == old(selectedCell) && currentComment == old(currentComment)
      ensures rows == old(rows) && cols == old(cols) && shapes == old(shapes) && name == old(name)
      ensures tool == old(tool) && selectedShape == old(selectedShape)
    {
      if selectedCell.Some? {
        var p := selectedCell.value;
        if InGrid(grid, p) {
          grid := SetComment(grid, p, currentComment);
          selectedCell := None;
          currentComment := "";
        }
      }
    }

    /** `applySettings` with the texts of the two fields: when both parse
        as integers (`parseInt(_, 10)`, any sign), the grid size becomes
        those numbers, the grid a fresh empty one and the name `""`;
        otherwise nothing changes. */
    method ApplySettings(tempRows: string, tempCols: string)
      requires Valid()
      modifies this
      ensures Valid()
      ensures ParseInt(tempRows).Some? && ParseInt(tempCols).Some? ==>
        && rows == ParseInt(tempRows).value && cols == ParseInt(tempCols).value
        && grid == CreateEmptyGrid(rows, cols) && Rectangular(grid, rows, cols)
        && name == ""
      ensures !(ParseInt(tempRows).Some? && ParseInt(tempCols).Some?) ==>
        grid == old(grid) && rows == old(rows) && cols == old(cols) && name == old(name)
      ensures shapes == old(shapes) && tool == old(tool) && selectedShape == old(selectedShape)
      ensures selectedCell == old(selectedCell) && currentComment == old(currentComment)
    {
      ApplyParsedSize(ParseInt(tempRows), ParseInt(tempCols));
    }

    /** The `!isNaN` test of `applySettings` and what follows it, given the
        two `parseInt` results (`None` for `NaN`). */
    method ApplyParsedSize(r: Option<int>, c: Option<int>)
      requires Valid()
      modifies this
      ensures Valid()
      ensures r.Some? && c.Some? ==>
        && rows == r.value && cols == c.value
        && grid == CreateEmptyGrid(rows, cols) && Rectangular(grid, rows, cols)
        && name == ""
      ensures !(r.Some? && c.Some?) ==>
        grid == old(grid) && rows == old(rows) && cols == old(cols) && name == old(name)
      ensures shapes == old(shapes) && tool == old(tool) && selectedShape == old(selectedShape)
      ensures selectedCell == old(selectedCell) && currentComment == old(currentComment)
    {
      if r.Some? && c.Some? {
        rows, cols := r.value, c.value;
        grid := CreateEmptyGrid(rows, cols);
        name := "";
      }
    }

    /** `handleAddNewShape`: the template is appended to the catalog, even when
        its id is already there. */
    method HandleAddNewShape(shape: Shape)
      requires Valid()
      modifies this
      ensures Valid()
      ensures shapes == old(shapes) + [shape]
      ensures grid == old(grid) && rows == old(rows) && cols == old(cols) && name == old(name)
      ensures tool == old(tool) && selectedShape == old(selectedShape)
      ensures selectedCell == old(selectedCell) && currentComment == old(currentComment)
    {
      shapes := shapes + [shape];
    }

    /** `loadGrid` once `load()` has settled with `res`. */
    method LoadGrid(res: LoadResult)
      requires Valid()
      modifies this
      ensures Valid()
      ensures Load(res).Unchanged? ==>
        grid == old(grid) && rows == old(rows) && cols == old(cols) && name == old(name)
      ensures Load(res).NameOnly? ==>
        name == Load(res).name && grid == old(grid) && rows == old(rows) && cols == old(cols)
      ensures Load(res).Replace? ==>
        name == Load(res).name && grid == Load(res).grid && rows == Load(res).rows && cols == Load(res).cols
      ensures shapes == old(shapes) && tool == old(tool) && selectedShape == old(selectedShape)
      ensures selectedCell == old(selectedCell) && currentComment == old(currentComment)
    {
      match Load(res)
      case Unchanged =>
      case NameOnly(n) =>
        name := n;
      case Replace(n, g, r, c) =>
        name := n;
        grid, rows, cols := g, r, c;
    }

    /** The Save button: `save(grid, name)` writes the bare grid array, one
        array row per row of the grid, and drops the name; `loadGrid` finds no
        `grid` field in it, so loading that file leaves the session as it is. */
    method Save() returns (d: Data)
      ensures d == SavedAsWritten(grid, name)
      ensures d.BareArray? && |d.items| == |grid|
      ensures Load(Resolved(d)) == Unchanged
    {
      d := SavedAsWritten(grid, name);
      SavedFileLoadsNothing(grid, name);
    }
  }
}

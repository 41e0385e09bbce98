/** `loadGrid` of App.js over the value the chosen file parses to, and the
    value the Save button writes. Reading and writing files is not modelled:
    a load is given the parse result, or the rejection of the promise. */
module Persistence {
  import opened Wrappers
  import opened GridModel

  /** A cell of the document: `null`, or a record with the fields of a cell. */
  datatype DocCell = NullCell | CellRecord(occupied: bool, color: Option<string>, caption: string, comment: Option<string>)

  /** A row of the document: an array of cells, or any other value (which has no `map`). */
  datatype DocRow = RowArray(cells: seq<DocCell>) | RowOther

  /** The parsed file: an object with optional `name` and `grid` fields (`grid`
      is `None` when absent or not an array), a bare array, or any other
      value (`null` included). */
  datatype Data = Record(name: Option<string>, grid: Option<seq<DocRow>>) | BareArray(items: seq<DocRow>) | Scalar

  /** `await load()`: rejected (no file, unreadable, not JSON), or the parsed value. */
  datatype LoadResult = Rejected | Resolved(data: Data)

  /** What `loadGrid` does to the session: nothing (a rejection, or no array
      `grid`); only the name (a row or cell of the array could not be
      mapped, and the `TypeError` struck after `setName`); or the name, the
      grid and the grid size. */
  datatype LoadEffect = Unchanged | NameOnly(name: string) | Replace(name: string, grid: Grid, rows: int, cols: int)

  /** `data.name || ''` */
  function NameOrEmpty(name: Option<string>): string {
    match name
    case Some(n) => n
    case None => ""
  }

  /** `({ ...cell, comment: cell.comment || null })`; reading `comment` of `null` throws. */
  function LoadCell(c: DocCell): (r: Option<Cell>)
    ensures r.Some? <==> c.CellRecord?
    ensures r.Some? ==>
      && r.value.occupied == c.occupied && r.value.color == c.color && r.value.caption == c.caption
      && r.value.comment == (if c.comment == Some("") then None else c.comment)
  {
    match c
    case NullCell => None
    case CellRecord(o, col, cap, cm) => Some(Cell(o, col, cap, if cm == Some("") then None else cm))
  }

  /** A row that `row.map(...)` maps without throwing. */
  predicate LoadableRow(row: DocRow) {
    row.RowArray? && forall j :: 0 <= j < |row.cells| ==> row.cells[j].CellRecord?
  }

  /** `row.map(cell => ...)` on an array row. */
  function LoadRow(cells: seq<DocCell>): (r: Option<seq<Cell>>)
    ensures r.Some? <==> forall j :: 0 <= j < |cells| ==> cells[j].CellRecord?
    ensures r.Some? ==> |r.value| == |cells|
    ensures r.Some? ==> forall j :: 0 <= j < |cells| ==> LoadCell(cells[j]) == Some(r.value[j])
  {
    if cells == [] then Some([])
    else
      match (LoadCell(cells[0]), LoadRow(cells[1..]))
      case (Some(c), Some(rest)) => Some([c] + rest)
      case _ => None
  }

  /** `data.grid.map(row => row.map(...))`. */
  function LoadRows(rows: seq<DocRow>): (r: Option<Grid>)
    ensures r.Some? <==> forall i :: 0 <= i < |rows| ==> LoadableRow(rows[i])
    ensures r.Some? ==> |r.value| == |rows|
    ensures r.Some? ==> forall i :: 0 <= i < |rows| ==> LoadRow(rows[i].cells) == Some(r.value[i])
  {
    if rows == [] then Some([])
    else
      var head := if rows[0].RowArray? then LoadRow(rows[0].cells) else None;
      match (head, LoadRows(rows[1..]))
      case (Some(c), Some(rest)) => Some([c] + rest)
      case _ => None
  }

  /** `data.grid[0]?.length || 0` */
  function FirstRowLength(rows: seq<DocRow>): nat {
    if rows != [] && rows[0].RowArray? then |rows[0].cells| else 0
  }

  /** `loadGrid`: the effect of the load on the session. */
  function Load(res: LoadResult): (e: LoadEffect)
    ensures !(res.Resolved? && res.data.Record? && res.data.grid.Some?) ==> e == Unchanged
    ensures res.Resolved? && res.data.Record? && res.data.grid.Some? ==>
      && !e.Unchanged?
      && e.name == NameOrEmpty(res.data.name)
      && (e.Replace? <==> forall i :: 0 <= i < |res.data.grid.value| ==> LoadableRow(res.data.grid.value[i]))
    ensures e.Replace? ==>
      && e.rows == |e.grid| && e.cols == (if e.grid == [] then 0 else |e.grid[0]|)
      && e.grid == LoadRows(res.data.grid.value).value
  {
    match res
    case Resolved(Record(name, Some(rows))) =>
      var n := NameOrEmpty(name);
      (match LoadRows(rows)
       case None => NameOnly(n)
       case Some(g) => Replace(n, g, |rows|, FirstRowLength(rows)))
    case _ => Unchanged
  }

  /** A replaced grid holds each document cell with its fields kept and a
      falsy comment turned into `null`: no loaded comment is empty. */
  lemma LoadedCells(res: LoadResult, i: nat, j: nat)
    requires Load(res).Replace?
    requires i < |Load(res).grid| && j < |Load(res).grid[i]|
    ensures var rows := res.data.grid.value;
      && i < |rows| && rows[i].RowArray? && j < |rows[i].cells|
      && Some(Load(res).grid[i][j]) == LoadCell(rows[i].cells[j])
      && Load(res).grid[i][j].comment != Some("")
  {
    var rows := res.data.grid.value;
    assert LoadRow(rows[i].cells) == Some(Load(res).grid[i]);
  }

  /** The document form of a cell. */
  function ToDocCell(c: Cell): DocCell {
    CellRecord(c.occupied, c.color, c.caption, c.comment)
  }

  /** The document form of a grid: one array row per row. */
  function ToDocRows(g: Grid): (rows: seq<DocRow>)
    ensures |rows| == |g|
    ensures forall i :: 0 <= i < |g| ==> rows[i].RowArray? && |rows[i].cells| == |g[i]|
  {
    seq(|g|, i requires 0 <= i < |g| => RowArray(seq(|g[i]|, j requires 0 <= j < |g[i]| => ToDocCell(g[i][j]))))
  }

  /** What `save(grid, name)` writes, read back: the bare grid array (`name`
      is not written). */
  function SavedAsWritten(g: Grid, name: string): Data {
    BareArray(ToDocRows(g))
  }

  /** Loading a file the Save button wrote leaves the session unchanged. */
  lemma SavedFileLoadsNothing(g: Grid, name: string)
    ensures Load(Resolved(SavedAsWritten(g, name))) == Unchanged
  {
  }

  /** The document `loadGrid` reads: an object with the name and the grid. */
  function SavedIntended(g: Grid, name: string): Data {
    Record(Some(name), Some(ToDocRows(g)))
  }

  /** `g` with every empty comment turned into `null`. */
  function ClearEmptyComments(g: Grid): Grid {
    seq(|g|, i requires 0 <= i < |g| =>
      seq(|g[i]|, j requires 0 <= j < |g[i]| =>
        if g[i][j].comment == Some("") then g[i][j].(comment := None) else g[i][j]))
  }

  /** Loading the intended document gives back the name, the grid with its
      empty comments cleared, and the grid size the grid has. */
  lemma SaveLoadRoundTrip(g: Grid, name: string)
    ensures Load(Resolved(SavedIntended(g, name)))
         == Replace(name, ClearEmptyComments(g), |g|, if g == [] then 0 else |g[0]|)
  {
    var rows := ToDocRows(g);
    forall i | 0 <= i < |rows|
      ensures LoadableRow(rows[i])
    {
    }
    var h := LoadRows(rows).value;
    var c := ClearEmptyComments(g);
    forall i | 0 <= i < |g|
      ensures h[i] == c[i]
    {
      assert LoadRow(rows[i].cells) == Some(h[i]);
      forall j | 0 <= j < |g[i]|
        ensures h[i][j] == c[i][j]
      {
        assert LoadCell(rows[i].cells[j]) == Some(h[i][j]);
      }
    }
  }

  /** A grid without empty comments comes back exactly, and a rectangular one
      with its grid size when it has at least one row. */
  lemma SaveLoadExact(g: Grid, name: string, rows: int, cols: int)
    requires forall i, j :: 0 <= i < |g| && 0 <= j < |g[i]| ==> g[i][j].comment != Some("")
    requires Rectangular(g, rows, cols) && rows > 0 && cols >= 0
    ensures Load(Resolved(SavedIntended(g, name))) == Replace(name, g, rows, cols)
  {
    SaveLoadRoundTrip(g, name);
    var c := ClearEmptyComments(g);
    forall i | 0 <= i < |g|
      ensures c[i] == g[i]
    {
    }
  }
}

/** Per-cell comments in App.js: what the comment box shows when a cell is
    pressed with the comment tool, and the grid after saving it. */
module Annotations {
  import opened Wrappers
  import opened Geometry
  import opened GridModel

  /** `cell.comment || ''`: the text the comment box opens with. */
  function EditorText(cell: Cell): (t: string)
    ensures cell.comment.Some? ==> t == cell.comment.value
    ensures cell.comment.None? ==> t == ""
  {
    match cell.comment
    case Some(c) => c
    case None => ""
  }

  /** `handleSaveComment` on an existing cell: its comment becomes `text`
      (an empty text included), its occupancy, colour and label stay, and no
      other cell changes. */
  function SetComment(g: Grid, p: Pos, text: string): (h: Grid)
    requires InGrid(g, p)
    ensures OnlyCellChanged(g, h, p)
    ensures h[p.row][p.col].comment == Some(text)
    ensures h[p.row][p.col].occupied == g[p.row][p.col].occupied
    ensures h[p.row][p.col].color == g[p.row][p.col].color
    ensures h[p.row][p.col].caption == g[p.row][p.col].caption
  {
    g[p.row := g[p.row][p.col := g[p.row][p.col].(comment := Some(text))]]
  }

  /** Opening the comment box on a cell and saving it unchanged gives the
      cell's comment back, except that a missing comment becomes the empty one. */
  lemma SaveUnchangedComment(g: Grid, p: Pos)
    requires InGrid(g, p)
    ensures var c := g[p.row][p.col].comment;
      SetComment(g, p, EditorText(g[p.row][p.col]))[p.row][p.col].comment
        == if c.None? then Some("") else c
  {
  }

  /** The last saved comment wins. */
  lemma SetCommentTwice(g: Grid, p: Pos, a: string, b: string)
    requires InGrid(g, p)
    ensures SetComment(SetComment(g, p, a), p, b) == SetComment(g, p, b)
  {
    var h1, h2 := SetComment(SetComment(g, p, a), p, b), SetComment(g, p, b);
    assert h1[p.row] == h2[p.row];
  }
}

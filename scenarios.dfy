/** Concrete runs of the model: a bar rotated, a placement on an empty
    grid, a placement blocked by it, and a commented grid saved and loaded. */
module Scenarios {
  import opened Wrappers
  import opened Geometry
  import opened GridModel
  import opened Shapes
  import opened Placement
  import opened Annotations
  import opened Persistence
  import opened App

  /** A one by three bar turns into a three by one bar. */
  lemma BarRotation()
    ensures RotateCells([Pos(0, 0), Pos(0, 1), Pos(0, 2)]) == [Pos(0, 0), Pos(1, 0), Pos(2, 0)]
  {
    var cells := [Pos(0, 0), Pos(0, 1), Pos(0, 2)];
    var t := Turn(cells);
    assert t == [Pos(0, 0), Pos(1, 0), Pos(2, 0)];
    assert Rows(t) == [0, 1, 2] && Cols(t) == [0, 0, 0];
    MinOfIs(Rows(t), 0);
    MinOfIs(Cols(t), 0);
  }

  const Chair := DefaultShapes[1]

  /** Placing the chair at (0, 0) of an empty 3 by 3 grid fills that cell
      with it and leaves every other cell empty. */
  lemma PlaceOnEmptyGrid(i: nat, j: nat)
    requires i < 3 && j < 3
    ensures var h := PlaceResult(CreateEmptyGrid(3, 3), 3, 3, Place, Some(Chair), Pos(0, 0));
      && h.Some? && |h.value| == 3 && |h.value[i]| == 3
      && h.value[i][j] == if i == 0 && j == 0 then PlacedCell(Chair) else EmptyCell
  {
    var g := CreateEmptyGrid(3, 3);
    assert Footprint(Chair.cells, Pos(0, 0), 0) == Pos(0, 0);
    assert CanPlace(g, 3, 3, Chair.cells, Pos(0, 0)) == Some(true);
    PlacementEffect(g, 3, 3, Place, Chair, Pos(0, 0), Pos(i, j));
    assert Covers(Chair.cells, Pos(0, 0), Pos(i, j)) <==> i == 0 && j == 0;
  }

  /** A second placement over the occupied cell leaves the grid as it is. */
  lemma OverlapIsNoOp()
    ensures var h := PlaceResult(CreateEmptyGrid(3, 3), 3, 3, Place, Some(Chair), Pos(0, 0));
      && h.Some? && InGrid(h.value, Pos(0, 0))
      && PlaceResult(h.value, 3, 3, Place, Some(Chair), Pos(0, 0)) == h
  {
    PlaceOnEmptyGrid(0, 0);
    var h := PlaceResult(CreateEmptyGrid(3, 3), 3, 3, Place, Some(Chair), Pos(0, 0)).value;
    assert Footprint(Chair.cells, Pos(0, 0), 0) == Pos(0, 0);
    assert CanPlace(h, 3, 3, Chair.cells, Pos(0, 0)) == Some(false);
  }

  /** "Reserved" on cell (2, 2) of an empty 5 by 5 grid saved as "Lobby":
      the intended document loads back the name, the comment and the size;
      the file the Save button writes loads nothing. */
  lemma LobbyRoundTrip()
    ensures var g := SetComment(CreateEmptyGrid(5, 5), Pos(2, 2), "Reserved");
      && Load(Resolved(SavedIntended(g, "Lobby"))) == Replace("Lobby", g, 5, 5)
      && g[2][2].comment == Some("Reserved")
      && (forall i, j :: 0 <= i < 5 && 0 <= j < 5 && (i, j) != (2, 2) ==> g[i][j].comment.None?)
      && Load(Resolved(SavedAsWritten(g, "Lobby"))) == Unchanged
  {
    var e := CreateEmptyGrid(5, 5);
    var g := SetComment(e, Pos(2, 2), "Reserved");
    assert Rectangular(g, 5, 5);
    forall i, j | 0 <= i < |g| && 0 <= j < |g[i]|
      ensures g[i][j].comment != Some("")
    {
      if (i, j) != (2, 2) {
        assert g[i][j] == e[i][j];
      }
    }
    SaveLoadExact(g, "Lobby", 5, 5);
    SavedFileLoadsNothing(g, "Lobby");
  }
}

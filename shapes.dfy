/** Shape templates: the built-in catalog and the "beta" rotation of App.js. */
module Shapes {
  import opened Geometry

  /** A placeable footprint. The React element a template carries for drawing
      is not part of the model; `color` is the colour string. */
  datatype Shape = Shape(id: string, name: string, cells: seq<Pos>, color: string)

  /** The two templates the catalog starts with. */
  const DefaultShapes: seq<Shape> := [
    Shape("table1x1", "Table", [Pos(0, 0)], "cornflowerblue"),
    Shape("chair1x1", "Chair", [Pos(0, 0)], "#ffffff")
  ]

  lemma DefaultShapesNormalized()
    ensures forall k :: 0 <= k < |DefaultShapes| ==> Normalized(DefaultShapes[k].cells)
  {
    assert DefaultShapes[0].cells[0].row == 0 && DefaultShapes[0].cells[0].col == 0;
    assert DefaultShapes[1].cells[0].row == 0 && DefaultShapes[1].cells[0].col == 0;
  }

  /** `(row, col) -> (col, -row)` on every offset. */
  function Turn(cells: seq<Pos>): seq<Pos>
  {
    seq(|cells|, i requires 0 <= i < |cells| => Pos(cells[i].col, -cells[i].row))
  }

  function RotateCells(cells: seq<Pos>): seq<Pos> {
    Normalize(Turn(cells))
  }

  /** `rotateShape`: turn the cells a quarter and normalise. The id, the
      name and the colour are kept, so is the number of cells, and the cells
      come back normalised whatever the input. */
  function RotateShape(shape: Shape): (r: Shape)
    ensures r.id == shape.id && r.name == shape.name && r.color == shape.color
    ensures |r.cells| == |shape.cells|
    ensures Normalized(r.cells)
  {
    shape.(cells := RotateCells(shape.cells))
  }
}

/** What the rotation of App.js guarantees about the cells it returns. */
module Rotation {
  import opened Geometry
  import opened Shapes

  /** On a normalised list with maximum row `R`, one rotation sends the
      offset `(r, c)` to `(c, R - r)`. */
  lemma RotateAt(cells: seq<Pos>, i: nat)
    requires cells != [] && Normalized(cells) && i < |cells|
    ensures |RotateCells(cells)| == |cells|
    ensures RotateCells(cells)[i] == Pos(cells[i].col, MaxOf(Rows(cells)) - cells[i].row)
  {
    TurnMinima(cells);
  }

  /** One rotation of a normalised list swaps its maximum row and maximum column. */
  lemma RotateMaxima(cells: seq<Pos>)
    requires cells != [] && Normalized(cells)
    ensures |RotateCells(cells)| == |cells|
    ensures MaxOf(Rows(RotateCells(cells))) == MaxOf(Cols(cells))
    ensures MaxOf(Cols(RotateCells(cells))) == MaxOf(Rows(cells))
  {
    var maxR := MaxOf(Rows(cells));
    TurnMinima(cells);
    var rot := RotateCells(cells);
    assert rot == Shift(Turn(cells), 0, -maxR);
    RotatedMaxima(cells, rot);
  }

  lemma TurnMinima(cells: seq<Pos>)
    requires cells != [] && Normalized(cells)
    ensures MinOf(Rows(Turn(cells))) == 0
    ensures MinOf(Cols(Turn(cells))) == -MaxOf(Rows(cells))
  {
    var t := Turn(cells);
    var j :| 0 <= j < |cells| && cells[j].col == 0;
    MinOfIs(Rows(t), j);
    var rs := Rows(cells);
    var m := MaxOf(rs);
    assert forall i :: 0 <= i < |rs| ==> rs[i] <= m;
    var k :| 0 <= k < |rs| && rs[k] == m;
    assert forall i :: 0 <= i < |cells| ==> Cols(t)[i] == -rs[i];
    MinOfIs(Cols(t), k);
  }

  lemma RotatedMaxima(cells: seq<Pos>, rot: seq<Pos>)
    requires cells != [] && Normalized(cells)
    requires |rot| == |cells|
    requires forall i :: 0 <= i < |cells| ==> rot[i] == Pos(cells[i].col, MaxOf(Rows(cells)) - cells[i].row)
    ensures MaxOf(Rows(rot)) == MaxOf(Cols(cells))
    ensures MaxOf(Cols(rot)) == MaxOf(Rows(cells))
  {
    var cs := Cols(cells);
    var mc := MaxOf(cs);
    assert forall i :: 0 <= i < |cs| ==> cs[i] <= mc;
    var kc :| 0 <= kc < |cs| && cs[kc] == mc;
    assert forall i :: 0 <= i < |cells| ==> Rows(rot)[i] == cs[i];
    MaxOfIs(Rows(rot), kc);
    var i0 :| 0 <= i0 < |cells| && cells[i0].row == 0;
    var rs := Rows(cells);
    assert forall i :: 0 <= i < |cells| ==> Cols(rot)[i] == MaxOf(rs) - rs[i] && rs[i] >= 0;
    MaxOfIs(Cols(rot), i0);
  }

  /** Each offset of a normalised list reflected through the centre of its
      bounding box: `(r, c)` goes to `(R - r, C - c)`. */
  function Mirror(cells: seq<Pos>): seq<Pos>
    requires cells != []
  {
    var maxR, maxC := MaxOf(Rows(cells)), MaxOf(Cols(cells));
    seq(|cells|, i requires 0 <= i < |cells| => Pos(maxR - cells[i].row, maxC - cells[i].col))
  }

  /** Two rotations of a normalised list are its reflection. */
  lemma RotateTwice(cells: seq<Pos>)
    requires cells != [] && Normalized(cells)
    ensures RotateCells(RotateCells(cells)) == Mirror(cells)
  {
    var c1 := RotateCells(cells);
    var m := Mirror(cells);
    forall i | 0 <= i < |cells|
      ensures |RotateCells(c1)| == |cells| && RotateCells(c1)[i] == m[i]
    {
      RotateTwiceStep(cells, c1, m, i);
    }
    RotateTwiceStep(cells, c1, m, 0);
  }

  lemma RotateTwiceStep(cells: seq<Pos>, c1: seq<Pos>, m: seq<Pos>, i: nat)
    requires cells != [] && Normalized(cells) && i < |cells|
    requires c1 == RotateCells(cells) && m == Mirror(cells)
    ensures |RotateCells(c1)| == |cells| == |m|
    ensures RotateCells(c1)[i] == m[i]
  {
    RotateAt(cells, i);
    RotateMaxima(cells);
    RotateAt(c1, i);
  }

  /** ... and leave the bounding box as it was. */
  lemma RotateTwiceMaxima(cells: seq<Pos>)
    requires cells != [] && Normalized(cells)
    ensures RotateCells(RotateCells(cells)) != [] && Normalized(RotateCells(RotateCells(cells)))
    ensures MaxOf(Rows(RotateCells(RotateCells(cells)))) == MaxOf(Rows(cells))
    ensures MaxOf(Cols(RotateCells(RotateCells(cells)))) == MaxOf(Cols(cells))
  {
    RotateMaxima(cells);
    RotateMaxima(RotateCells(cells));
  }

  /** Four rotations of a normalised cell list give back exactly that list. */
  lemma RotateFourTimes(cells: seq<Pos>)
    requires Normalized(cells)
    ensures RotateCells(RotateCells(RotateCells(RotateCells(cells)))) == cells
  {
    if cells != [] {
      var m := RotateCells(RotateCells(cells));
      RotateTwice(cells);
      RotateTwiceMaxima(cells);
      RotateTwice(m);
      MirrorTwice(cells, m);
    }
  }

  /** Reflecting twice within the same bounding box is the identity. */
  lemma MirrorTwice(cells: seq<Pos>, m: seq<Pos>)
    requires cells != [] && m == Mirror(cells) && m != []
    requires MaxOf(Rows(m)) == MaxOf(Rows(cells)) && MaxOf(Cols(m)) == MaxOf(Cols(cells))
    ensures Mirror(m) == cells
  {
    var maxR, maxC := MaxOf(Rows(cells)), MaxOf(Cols(cells));
    var mm := Mirror(m);
    forall i | 0 <= i < |cells|
      ensures mm[i] == cells[i]
    {
      assert m[i] == Pos(maxR - cells[i].row, maxC - cells[i].col);
      assert mm[i] == Pos(maxR - m[i].row, maxC - m[i].col);
    }
  }

  /** The same for a whole template. */
  lemma RotateShapeFourTimes(shape: Shape)
    requires Normalized(shape.cells)
    ensures RotateShape(RotateShape(RotateShape(RotateShape(shape)))) == shape
  {
    RotateFourTimes(shape.cells);
  }
}

/** Cell offsets and coordinates, and the min-translation that both the
    rotation in App.js and the shape editor's save apply to a cell list. */
module Geometry {

  datatype Pos = Pos(row: int, col: int)

  /** `cells.map(c => c.row)` */
  function Rows(cells: seq<Pos>): seq<int>
  {
    seq(|cells|, i requires 0 <= i < |cells| => cells[i].row)
  }

  /** `cells.map(c => c.col)` */
  function Cols(cells: seq<Pos>): seq<int>
  {
    seq(|cells|, i requires 0 <= i < |cells| => cells[i].col)
  }

  /** `Math.min(...xs)` on a non-empty list: an element of `xs` below all others. */
  function MinOf(xs: seq<int>): (m: int)
    requires xs != []
    ensures exists i :: 0 <= i < |xs| && xs[i] == m
    ensures forall i :: 0 <= i < |xs| ==> m <= xs[i]
  {
    if |xs| == 1 then xs[0]
    else
      var t := MinOf(xs[1..]);
      assert forall i :: 1 <= i < |xs| ==> xs[i] == xs[1..][i - 1];
      if xs[0] <= t then xs[0] else t
  }

  /** `Math.max(...xs)` on a non-empty list: an element of `xs` above all others. */
  function MaxOf(xs: seq<int>): (m: int)
    requires xs != []
    ensures exists i :: 0 <= i < |xs| && xs[i] == m
    ensures forall i :: 0 <= i < |xs| ==> xs[i] <= m
  {
    if |xs| == 1 then xs[0]
    else
      var t := MaxOf(xs[1..]);
      assert forall i :: 1 <= i < |xs| ==> xs[i] == xs[1..][i - 1];
      if xs[0] >= t then xs[0] else t
  }

  /** An attained lower bound is the minimum. */
  lemma MinOfIs(xs: seq<int>, k: nat)
    requires k < |xs|
    requires forall i :: 0 <= i < |xs| ==> xs[k] <= xs[i]
    ensures MinOf(xs) == xs[k]
  {
  }

  /** An attained upper bound is the maximum. */
  lemma MaxOfIs(xs: seq<int>, k: nat)
    requires k < |xs|
    requires forall i :: 0 <= i < |xs| ==> xs[i] <= xs[k]
    ensures MaxOf(xs) == xs[k]
  {
  }

  /** Every offset moved by `(-dr, -dc)`. */
  function Shift(cells: seq<Pos>, dr: int, dc: int): seq<Pos>
  {
    seq(|cells|, i requires 0 <= i < |cells| => Pos(cells[i].row - dr, cells[i].col - dc))
  }

  /** No negative offset, and both the row 0 and the column 0 are used. */
  ghost predicate Normalized(cells: seq<Pos>) {
    && (forall i :: 0 <= i < |cells| ==> cells[i].row >= 0 && cells[i].col >= 0)
    && (cells != [] ==>
          && (exists i :: 0 <= i < |cells| && cells[i].row == 0)
          && (exists j :: 0 <= j < |cells| && cells[j].col == 0))
  }

  /** Same list up to one common translation. */
  ghost predicate Translated(a: seq<Pos>, b: seq<Pos>) {
    |a| == |b| &&
    forall i, j :: 0 <= i < |a| && 0 <= j < |a| ==>
      a[i].row - a[j].row == b[i].row - b[j].row && a[i].col - a[j].col == b[i].col - b[j].col
  }

  /** A normalised list is one whose minimum row and minimum column are 0. */
  lemma NormalizedIffMinZero(cells: seq<Pos>)
    requires cells != []
    ensures Normalized(cells) <==> MinOf(Rows(cells)) == 0 && MinOf(Cols(cells)) == 0
  {
    var rs, cs := Rows(cells), Cols(cells);
    assert forall k :: 0 <= k < |cells| ==> rs[k] == cells[k].row && cs[k] == cells[k].col;
    if Normalized(cells) {
      var i :| 0 <= i < |cells| && cells[i].row == 0;
      var j :| 0 <= j < |cells| && cells[j].col == 0;
      MinOfIs(rs, i);
      MinOfIs(cs, j);
    }
    if MinOf(rs) == 0 && MinOf(cs) == 0 {
      var i :| 0 <= i < |rs| && rs[i] == 0;
      var j :| 0 <= j < |cs| && cs[j] == 0;
      assert cells[i].row == 0 && cells[j].col == 0;
    }
  }

  /** Subtract the minimum row and the minimum column from every offset, as
      both `rotateShape` and the editor's save do. */
  function Normalize(cells: seq<Pos>): (r: seq<Pos>)
    ensures |r| == |cells| && Normalized(r)
  {
    if cells == [] then []
    else
      ShiftByMinimaNormalizes(cells);
      Shift(cells, MinOf(Rows(cells)), MinOf(Cols(cells)))
  }

  lemma ShiftByMinimaNormalizes(cells: seq<Pos>)
    requires cells != []
    ensures Normalized(Shift(cells, MinOf(Rows(cells)), MinOf(Cols(cells))))
  {
    var rs, cs := Rows(cells), Cols(cells);
    var mr, mc := MinOf(rs), MinOf(cs);
    var r := Shift(cells, mr, mc);
    assert forall i :: 0 <= i < |cells| ==> mr <= rs[i] && mc <= cs[i];
    assert forall i :: 0 <= i < |cells| ==> r[i] == Pos(rs[i] - mr, cs[i] - mc);
    var i :| 0 <= i < |cells| && rs[i] == mr;
    var j :| 0 <= j < |cells| && cs[j] == mc;
    assert r[i].row == 0 && r[j].col == 0;
  }

  /** Normalising only translates: every pairwise row and column difference is kept. */
  lemma NormalizeTranslates(cells: seq<Pos>)
    ensures Translated(Normalize(cells), cells)
  {
  }
}

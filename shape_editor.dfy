/** The shape editor of ShapeEditorModal.js: a 4 by 4 board of toggles, a
    name and a colour, saved as a new template. */
module ShapeEditor {
  import opened Wrappers
  import opened Text
  import opened Geometry
  import opened CellKeys
  import opened Shapes
  import opened Rotation

  /** The editor board is `GRID_DIM` cells on a side. */
  const GridDim := 4

  /** The colour a fresh editor starts with. */
  const DefaultColor := "#3498db"

  /** A `Set` of keys holds each key once; its iteration order is the order
      of insertion, which is kept as a sequence. */
  ghost predicate NoDuplicates(s: seq<string>) {
    forall i, j :: 0 <= i < j < |s| ==> s[i] != s[j]
  }

  /** `set.delete(key)`: the other keys keep their order. */
  function Remove(s: seq<string>, key: string): (r: seq<string>)
    ensures forall x :: x in r <==> x in s && x != key
  {
    if s == [] then []
    else if s[0] == key then Remove(s[1..], key)
    else [s[0]] + Remove(s[1..], key)
  }

  /** `toggleCell`'s update: delete the key when present, append it otherwise. */
  function Toggle(s: seq<string>, key: string): (r: seq<string>)
    ensures key in r <==> key !in s
    ensures forall x :: x != key ==> (x in r <==> x in s)
  {
    if key in s then Remove(s, key) else s + [key]
  }

  lemma {:induction false} RemoveKeepsNoDuplicates(s: seq<string>, key: string)
    requires NoDuplicates(s)
    ensures NoDuplicates(Remove(s, key))
  {
    if s != [] {
      assert NoDuplicates(s[1..]) by {
        forall i, j | 0 <= i < j < |s| - 1
          ensures s[1..][i] != s[1..][j]
        {
          assert s[1..][i] == s[i + 1] && s[1..][j] == s[j + 1];
        }
      }
      RemoveKeepsNoDuplicates(s[1..], key);
      if s[0] != key {
        var t := Remove(s[1..], key);
        assert s[0] !in s[1..];
        assert s[0] !in t;
        var r := [s[0]] + t;
        forall i, j | 0 <= i < j < |r|
          ensures r[i] != r[j]
        {
          if i == 0 {
            assert r[j] == t[j - 1];
          } else {
            assert r[i] == t[i - 1] && r[j] == t[j - 1];
          }
        }
      }
    }
  }

  /** Toggling keeps every key at most once. */
  lemma ToggleKeepsNoDuplicates(s: seq<string>, key: string)
    requires NoDuplicates(s)
    ensures NoDuplicates(Toggle(s, key))
  {
    if key in s {
      RemoveKeepsNoDuplicates(s, key);
    }
  }

  /** Toggling the same key twice gives back the same set of keys. */
  lemma ToggleTwiceSameKeys(s: seq<string>, key: string)
    ensures forall x :: x in Toggle(Toggle(s, key), key) <==> x in s
  {
  }

  /** ... and the very same sequence when the key was not selected. */
  lemma ToggleTwiceAbsent(s: seq<string>, key: string)
    requires key !in s
    ensures Toggle(Toggle(s, key), key) == s
  {
    RemoveAppend(s, key);
  }

  lemma {:induction false} RemoveAppend(s: seq<string>, key: string)
    requires key !in s
    ensures Remove(s + [key], key) == s
  {
    if s == [] {
      assert [key][1..] == [];
    } else {
      assert (s + [key])[1..] == s[1..] + [key];
      RemoveAppend(s[1..], key);
    }
  }

  /** A key of a cell of the editor board. */
  ghost predicate BoardKey(k: string) {
    exists r, c :: 0 <= r < GridDim && 0 <= c < GridDim && k == Key(r, c)
  }

  /** `Array.from(selectedCells).map(...)`: the decoded cells, in the order
      the keys were added. */
  function DecodeAll(keys: seq<string>): (cells: seq<Pos>)
    requires forall k :: 0 <= k < |keys| ==> DecodeKey(keys[k]).Some?
    ensures |cells| == |keys|
    ensures forall k :: 0 <= k < |keys| ==> Some(cells[k]) == DecodeKey(keys[k])
  {
    seq(|keys|, k requires 0 <= k < |keys| => DecodeKey(keys[k]).value)
  }

  /** `handleSave`: nothing when the trimmed name is empty or no cell is
      selected; otherwise the template with id `shape-<now>`, the trimmed
      name, the current colour and the selected cells moved so that the
      smallest row and the smallest column are 0. `now` stands for `Date.now()`. */
  function HandleSave(name: string, color: string, keys: seq<string>, now: nat): (r: Option<Shape>)
    requires forall k :: 0 <= k < |keys| ==> DecodeKey(keys[k]).Some?
    ensures r.None? <==> AllWhitespace(name) || keys == []
    ensures r.Some? ==> r.value.id == "shape-" + NatToString(now)
    ensures r.Some? ==> r.value.name == Trim(name) && r.value.color == color
    ensures r.Some? ==> |r.value.cells| == |keys| && Normalized(r.value.cells)
    ensures r.Some? ==> Translated(r.value.cells, DecodeAll(keys))
  {
    TrimEmptyIffWhitespace(name);
    NormalizeTranslates(DecodeAll(keys));
    if Trim(name) == [] || keys == [] then None
    else Some(Shape("shape-" + NatToString(now), Trim(name), Normalize(DecodeAll(keys)), color))
  }

  /** A board key decodes to its own cell. */
  lemma BoardKeyDecodes(k: string)
    requires BoardKey(k)
    ensures DecodeKey(k).Some?
    ensures 0 <= DecodeKey(k).value.row < GridDim && 0 <= DecodeKey(k).value.col < GridDim
  {
    var r, c :| 0 <= r < GridDim && 0 <= c < GridDim && k == Key(r, c);
    KeyRoundTrip(r, c);
  }

  /** The keys of a list of cells, in order. */
  function KeysOf(ps: seq<Pos>): (keys: seq<string>)
    ensures |keys| == |ps|
    ensures forall k :: 0 <= k < |ps| ==> keys[k] == Key(ps[k].row, ps[k].col)
  {
    seq(|ps|, k requires 0 <= k < |ps| => Key(ps[k].row, ps[k].col))
  }

  lemma DecodeKeysOf(ps: seq<Pos>)
    ensures forall k :: 0 <= k < |ps| ==> DecodeKey(KeysOf(ps)[k]).Some?
    ensures DecodeAll(KeysOf(ps)) == ps
  {
    var keys := KeysOf(ps);
    forall k | 0 <= k < |keys|
      ensures DecodeKey(keys[k]) == Some(ps[k])
    {
      KeyRoundTrip(ps[k].row, ps[k].col);
    }
  }

  /** Saving the selection of the cell list `ps` (in selection order) emits a
      translate of `ps` itself. */
  lemma SaveTranslatesSelection(name: string, color: string, ps: seq<Pos>, now: nat)
    requires !AllWhitespace(name) && ps != []
    ensures forall k :: 0 <= k < |ps| ==> DecodeKey(KeysOf(ps)[k]).Some?
    ensures HandleSave(name, color, KeysOf(ps), now).Some?
    ensures Translated(HandleSave(name, color, KeysOf(ps), now).value.cells, ps)
  {
    DecodeKeysOf(ps);
  }

  /** Moving cells of a `bound` by `bound` square so that the smallest row
      and column are 0 keeps them in that square. */
  lemma NormalizeWithin(d: seq<Pos>, bound: int)
    requires forall i :: 0 <= i < |d| ==> 0 <= d[i].row < bound && 0 <= d[i].col < bound
    ensures forall i :: 0 <= i < |d| ==> 0 <= Normalize(d)[i].row < bound && 0 <= Normalize(d)[i].col < bound
  {
    if d != [] {
      var rs, cs := Rows(d), Cols(d);
      var mr, mc := MinOf(rs), MinOf(cs);
      assert forall i :: 0 <= i < |d| ==> rs[i] == d[i].row && cs[i] == d[i].col;
      var i0 :| 0 <= i0 < |d| && rs[i0] == mr;
      var j0 :| 0 <= j0 < |d| && cs[j0] == mc;
      assert mr >= 0 && mc >= 0;
      var n := Normalize(d);
      assert forall i :: 0 <= i < |d| ==> n[i] == Pos(d[i].row - mr, d[i].col - mc);
    }
  }

  /** Every emitted offset lies on the board: row and column in `[0, GRID_DIM)`. */
  lemma SavedOffsetsOnBoard(name: string, color: string, keys: seq<string>, now: nat)
    requires forall k :: 0 <= k < |keys| ==> BoardKey(keys[k])
    ensures forall k :: 0 <= k < |keys| ==> DecodeKey(keys[k]).Some?
    ensures var r := HandleSave(name, color, keys, now);
      r.Some? ==> forall i :: 0 <= i < |r.value.cells| ==>
        0 <= r.value.cells[i].row < GridDim && 0 <= r.value.cells[i].col < GridDim
  {
    forall k | 0 <= k < |keys|
      ensures DecodeKey(keys[k]).Some?
      ensures 0 <= DecodeKey(keys[k]).value.row < GridDim && 0 <= DecodeKey(keys[k]).value.col < GridDim
    {
      BoardKeyDecodes(keys[k]);
    }
    NormalizeWithin(DecodeAll(keys), GridDim);
  }

  /** An emitted template comes back unchanged after four rotations. */
  lemma SavedShapeRotatesBack(name: string, color: string, keys: seq<string>, now: nat)
    requires forall k :: 0 <= k < |keys| ==> DecodeKey(keys[k]).Some?
    requires HandleSave(name, color, keys, now).Some?
    ensures var s := HandleSave(name, color, keys, now).value;
      RotateShape(RotateShape(RotateShape(RotateShape(s)))) == s
  {
    RotateShapeFourTimes(HandleSave(name, color, keys, now).value);
  }

  /** The editor's state: the name field, the colour and the selected keys. */
  class Editor {
    var name: string
    var color: string
    var selected: seq<string>

    /** The selection holds distinct keys of board cells. */
    ghost predicate Valid()
      reads this
    {
      NoDuplicates(selected) && forall k :: 0 <= k < |selected| ==> BoardKey(selected[k])
    }

    /** A fresh editor: empty name, the default colour, nothing selected. */
    constructor ()
      ensures Valid()
      ensures name == "" && color == DefaultColor && selected == []
    {
      name, color, selected := "", DefaultColor, [];
    }

    /** `toggleCell(row, col)` on a board cell. */
    method ToggleCell(row: int, col: int)
      requires Valid() && 0 <= row < GridDim && 0 <= col < GridDim
      modifies this
      ensures Valid()
      ensures selected == Toggle(old(selected), Key(row, col))
      ensures name == old(name) && color == old(color)
    {
      var key, before := Key(row, col), selected;
      ToggleKeepsNoDuplicates(before, key);
      selected := Toggle(before, key);
      forall k | 0 <= k < |selected|
        ensures BoardKey(selected[k])
      {
        if selected[k] != key {
          assert selected[k] in before;
          var m :| 0 <= m < |before| && before[m] == selected[k];
        }
      }
    }

    /** The name field's `onChangeText`. */
    method SetName(n: string)
      modifies this
      ensures name == n && color == old(color) && selected == old(selected)
    {
      name := n;
    }

    /** The colour picker's choice. */
    method SetColor(c: string)
      modifies this
      ensures color == c && name == old(name) && selected == old(selected)
    {
      color := c;
    }

    /** The Save button: the template `handleSave` passes to `onSave`, if any.
        The editor's state is not changed. */
    method Save(now: nat) returns (shape: Option<Shape>)
      requires Valid()
      ensures forall k :: 0 <= k < |selected| ==> DecodeKey(selected[k]).Some?
      ensures shape == HandleSave(name, color, selected, now)
      ensures shape.Some? ==> forall i :: 0 <= i < |shape.value.cells| ==>
        0 <= shape.value.cells[i].row < GridDim && 0 <= shape.value.cells[i].col < GridDim
    {
      SavedOffsetsOnBoard(name, color, selected, now);
      shape := HandleSave(name, color, selected, now);
    }
  }
}

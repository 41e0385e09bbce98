/** The `"row,col"` keys of the shape editor's selection set and of the
    preview set: built with a template literal, read back with
    `split(',')` and `Number`. */
module CellKeys {
  import opened Wrappers
  import opened Text
  import opened Geometry

  /** `${row},${col}` */
  function Key(row: int, col: int): string {
    IntToString(row) + "," + IntToString(col)
  }

  /** `const [row, col] = key.split(',').map(Number)`; `None` when either
      part is not a number. */
  function DecodeKey(key: string): Option<Pos> {
    var parts := Split(key, ',');
    if |parts| < 2 then None
    else
      match (ParseDecimal(parts[0]), ParseDecimal(parts[1]))
      case (Some(r), Some(c)) => Some(Pos(r, c))
      case _ => None
  }

  lemma {:induction false} KeyRoundTrip(row: int, col: int)
    ensures DecodeKey(Key(row, col)) == Some(Pos(row, col))
  {
    SplitTwo(IntToString(row), IntToString(col), ',');
    assert Key(row, col) == IntToString(row) + [','] + IntToString(col);
    IntToStringRoundTrip(row);
    IntToStringRoundTrip(col);
  }

  /** Distinct cells have distinct keys, so a key set and a cell set say the same. */
  lemma KeyInjective(r1: int, c1: int, r2: int, c2: int)
    ensures Key(r1, c1) == Key(r2, c2) <==> r1 == r2 && c1 == c2
  {
    KeyRoundTrip(r1, c1);
    KeyRoundTrip(r2, c2);
  }
}

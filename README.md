# Grid designer: placement and annotation engine

A Dafny model of the grid-placement and annotation core of a React Native
floor-plan editor. The user picks a shape template, such as a table or a chair.
The template is placed on a grid of cells, or a cell is erased or given a
comment. The model also covers:

- resizing the grid with two typed-in numbers;
- loading a design from a file;
- authoring new templates on a 4 by 4 editor board.

Layout, by module:

- `Wrappers`: `Option`, standing for JavaScript `null`/`undefined` and for a
  thrown `TypeError`.
- `Text`: the string primitives the code relies on. These are `trim`,
  `parseInt(s, 10)`, `Number` on decimal strings, `${n}` rendering, `split`
  on one character and `includes`.
- `Geometry`: cell offsets, `Math.min`/`Math.max`, and the min-translation
  ("normalisation") shared by rotation and the editor's save.
- `CellKeys`: the `"row,col"` keys, with a proof that decoding inverts
  encoding.
- `Shapes`: the shape record, the built-in catalog and the quarter-turn
  rotation. `Rotation` proves that four turns give back a normalised shape.
- `GridModel`: the cell record and the empty grid, plus checked access that
  fails like JavaScript on a missing cell.
- `Placement`: the `canPlace` test, the stamping loop, single-cell erase and
  the preview set.
- `Borders`: the table-merging border widths.
- `Annotations`: the comment operations on one cell.
- `Persistence`: what `loadGrid` does with the parsed file, and what the Save
  button writes.
- `App`: the session object (`App.Session`), whose methods are the event
  handlers of `App.js`.
- `ShapeEditor`: the editor's selection set, its `toggleCell`, and the pure
  `handleSave`.
- `Scenarios`: concrete worked examples.

How the JavaScript is rendered in Dafny:

- A JavaScript `TypeError` becomes `None`, for example reading
  `grid[r][c].occupied` when `grid[r]` or `grid[r][c]` is `undefined`, or
  reading a field of a `null` cell. The handler then stops, with the state
  changes made before the throw kept.
- The cell field `label` is called `caption`, because `label` is a Dafny
  keyword.
- The grid is a `seq<seq<Cell>>` field of the session, not a 2-D array. A
  loaded grid need not be rectangular. Every handler builds a new grid and
  installs it with `setGrid`.
- The placement's `forEach` is a `while` loop (`Placement.ApplyPlacement`).
- The border computation's step-by-step overwrites of a local `style`
  record are kept in `Borders.GetTableBorders`.
- The editor's `Set` of keys is a sequence without duplicates. A `Set` keeps
  insertion order, and that order fixes the order of the emitted cells.

Behaviour of the code that the model keeps, though it may surprise:

- The settings dialog accepts any integer that `parseInt` reads, negative
  numbers and zero included. A negative count gives an empty grid, because
  `Array.from` treats a negative length as 0.
- Loading is not all-or-nothing. `setName` runs before the rows are mapped.
  So a row that is not an array, or a `null` cell, throws after the name has
  been replaced.
- Loading turns every falsy comment into `null`, not only a missing one.
  Saving a comment stores the box's text as typed, so an empty box stores
  `''`.
- The eraser clears one cell. There is no brush size.

## Model

| member | source | states |
|---|---|---|
| Text.TrimStart | App.js:270 | the text `parseInt` reads after its leading whitespace: a suffix of the input, with only whitespace before it and none at its start |
| Text.TrimEnd | ShapeEditorModal.js:27 | the text before trailing whitespace: a prefix of the input, with only whitespace after it and none at its end |
| Text.Trim | ShapeEditorModal.js:27 | `trim` leaves a slice of the input with only whitespace cut on either side, and no whitespace at its ends |
| Text.TrimEmptyIffWhitespace | ShapeEditorModal.js:27 | `!name.trim()` holds exactly when the name is all whitespace (or empty) |
| Text.NatToString | ShapeEditorModal.js:48 | `${Date.now()}` renders a non-empty string of decimal digits |
| Text.IntToString | ShapeEditorModal.js:15 | `${n}` of an integer is non-empty and contains no comma |
| Text.NatToStringValue | ShapeEditorModal.js:15 | the decimal digits rendered for a natural number have that number as value |
| Text.IntToStringRoundTrip | ShapeEditorModal.js:31 | `Number` of a rendered integer gives that integer back |
| Text.ParseDecimal | ShapeEditorModal.js:31 | `Number` on `-`? digit+ text; `Text.IntToStringRoundTrip` shows it inverts `${n}` for every integer |
| Text.DigitPrefix | App.js:270-271 | `parseInt` reads the longest run of digits at the start of the text, and no further |
| Text.ParseInt | App.js:270-271 | `parseInt(s, 10)`: whitespace skipped, then the signed digit prefix, `NaN` without digits; `Text.ParseIntOfRendered`, `Text.ParseIntOfNonNumeric` and `App.SettingsTextRoundTrip` state its behaviour |
| Text.ParseSigned | App.js:270-271 | the part of `parseInt` after the whitespace: an optional `-` or `+` and the longest digit run; `Text.ParseSignedOfRendered` reads every rendered integer back from it |
| Text.ParseSignedOfRendered | App.js:270-271 | a rendered integer followed by non-digit text is read back as itself once the whitespace is gone |
| Text.ParseIntOfRendered | App.js:270-271 | `parseInt(s, 10)` of a rendered integer, after any leading whitespace and before any non-digit text, is that integer |
| Text.ParseIntOfNonNumeric | App.js:272 | text with no digit after the whitespace and an optional sign gives `NaN`, so the settings are refused |
| Text.Includes | App.js:184 | `label.includes('Table')` holds exactly when "Table" occurs somewhere in the label |
| Text.Split | ShapeEditorModal.js:31 | `split(',')` always returns at least one part |
| Text.SplitTwo | ShapeEditorModal.js:31 | splitting `a,b` (no comma in `a`) gives exactly `[a, b]` |
| Geometry.MinOf | App.js:15-16 | `Math.min` of a non-empty list is an element of it and below all its elements |
| Geometry.MaxOf | ShapeEditorModal.js:38 | `Math.max` of a non-empty list is an element of it and above all its elements |
| Geometry.NormalizedIffMinZero | ShapeEditorModal.js:37-45 | a normalised list has no negative offset and uses row 0 and column 0, which is the same as its minimum row and column being 0 |
| Geometry.Normalize | App.js:17-20 | subtracting the minima keeps the number of cells and yields a normalised list |
| Geometry.NormalizeTranslates | ShapeEditorModal.js:42-45 | normalising is a translation: all pairwise row and column differences are kept |
| CellKeys.Key | ShapeEditorModal.js:15 | the key `${row},${col}`; `CellKeys.KeyRoundTrip` and `CellKeys.KeyInjective` show it is decoded back and never shared by two positions |
| CellKeys.DecodeKey | ShapeEditorModal.js:30-33 | `split(',').map(Number)` on a key, `None` unless both parts are numbers; it inverts `Key` (`CellKeys.KeyRoundTrip`) |
| CellKeys.KeyRoundTrip | ShapeEditorModal.js:30-33 | decoding `${row},${col}` with `split(',')` and `Number` gives `(row, col)` back, for every integer row and column |
| CellKeys.KeyInjective | App.js:212 | two positions have the same key exactly when they are the same position |
| Shapes.DefaultShapesNormalized | App.js:28-44 | both built-in templates have normalised cells |
| Shapes.Turn | App.js:14-16 | the quarter turn `(row, col)` to `(col, -row)` before normalising; on a normalised list its minimum row is 0 and its minimum column is minus the maximum row (`Rotation.TurnMinima`) |
| Shapes.RotateCells | App.js:14-20 | the rotated cell list; `Rotation.RotateAt` gives each rotated offset and `Rotation.RotateFourTimes` shows four rotations are the identity on normalised lists |
| Shapes.RotateShape | App.js:13-22 | rotation keeps id, name, colour and the number of cells, and always returns normalised cells |
| Rotation.RotateAt | App.js:14-20 | on a normalised list with maximum row R, one rotation sends `(r, c)` to `(c, R - r)` |
| Rotation.RotateMaxima | App.js:13-22 | one rotation swaps the maximum row and the maximum column |
| Rotation.RotateTwice | App.js:13-22 | two rotations reflect every offset within the bounding box |
| Rotation.RotateTwiceMaxima | App.js:13-22 | two rotations keep the bounding box and normalisation |
| Rotation.MirrorTwice | App.js:13-22 | reflecting twice in the same bounding box is the identity |
| Rotation.RotateFourTimes | App.js:13-22 | four rotations of a normalised cell list give back exactly that list, order included |
| Rotation.RotateShapeFourTimes | App.js:13-22 | four rotations of a template with normalised cells give back the template |
| GridModel.CreateEmptyGrid | App.js:46-49 | `rows` rows of `cols` cells (a negative count gives 0), every cell empty with null colour and comment |
| GridModel.CellAt | App.js:144 | `grid[r][c]` is a cell exactly when the position lies inside the grid's arrays |
| GridModel.RectangularInBounds | App.js:144 | in a grid that matches `gridSize`, every position within `gridSize` holds a cell |
| Placement.CanPlace | App.js:140-146 | `canPlace` is true exactly when every footprint cell is within `gridSize` and free; when it throws, some footprint cell within `gridSize` has no cell |
| Placement.CanPlaceTotal | App.js:140-146 | on a grid that matches `gridSize`, `canPlace` never throws |
| Placement.ApplyPlacement | App.js:150-162 | the stamping loop yields the grid with the given cell at every footprint position and every other cell kept |
| Placement.Stamp | App.js:150-162 | the grid after the placement, cell by cell: footprint positions hold the placed cell; `Placement.StampEffect` and `Placement.ApplyPlacement` state and compute it |
| Placement.StampEffect | App.js:150-162 | a stamp keeps the grid's shape, writes the footprint and leaves every other cell as it was |
| Placement.EraseCell | App.js:124-130 | erasing empties an occupied cell (its comment with it), leaves a free cell alone, and changes no other cell |
| Placement.EraseIdempotent | App.js:124-130 | erasing a cell twice is the same as erasing it once |
| Placement.BuildPreview | App.js:204-215 | the preview set is empty unless placing with a template over the grid; otherwise it is the keys of the in-bounds free footprint cells, or a throw exactly when an in-bounds footprint cell is missing |
| Placement.PreviewKeys | App.js:204-215 | the keys of the footprint positions within `gridSize` whose cell is free; `Placement.PreviewMembership` gives membership, `Placement.BuildPreview` computes it |
| Placement.PreviewMembership | App.js:220 | a position is highlighted exactly when the footprint covers it within `gridSize` and its cell is free |
| Placement.PreviewOfFit | App.js:209-212 | when the template fits, the highlighted positions are exactly its footprint |
| Borders.IsTable | App.js:181-186 | `isTable` throws exactly on an in-bounds missing cell; otherwise it holds exactly for in-bounds occupied cells whose label contains "Table" |
| Borders.TableBorders | App.js:180-201 | each border is 0 exactly when the neighbour on that side is a table cell within `gridSize`, and 1 otherwise |
| Borders.GetTableBorders | App.js:188-200 | the step-by-step overwrites of the style record compute those widths |
| Borders.BordersTotal | App.js:183-184 | on a grid that matches `gridSize`, the border computation never throws |
| Borders.HorizontalMerge | App.js:197-198 | two table cells side by side both drop the border between them |
| Borders.VerticalMerge | App.js:195-196 | two table cells one above the other both drop the border between them |
| Annotations.EditorText | App.js:117 | the comment box opens with the cell's comment, or `''` when it has none |
| Annotations.SetComment | App.js:171-172 | saving a comment sets only that cell's comment; its occupancy, colour and label stay, and no other cell changes |
| Annotations.SaveUnchangedComment | App.js:117 | opening the box and saving it unchanged keeps the comment, except that a missing one becomes `''` |
| Annotations.SetCommentTwice | App.js:172 | the last saved comment wins |
| Persistence.LoadCell | App.js:291 | a loaded cell keeps occupancy, colour and label and has its falsy comment turned into `null`; a `null` cell throws |
| Persistence.LoadRow | App.js:291 | a row maps without throwing exactly when all its cells are records, cell by cell |
| Persistence.LoadRows | App.js:290-292 | the grid maps exactly when every row is an array of records, row by row |
| Persistence.Load | App.js:285-302 | no change without an object with an array `grid`; otherwise the name becomes `data.name` or `''`, and the grid and size are replaced exactly when every row maps, with `rows = grid.length` and `cols` the first row's length or 0 |
| Persistence.LoadedCells | App.js:290-292 | every loaded cell comes from the document's cell at the same place, and no loaded comment is empty |
| Persistence.ToDocRows | save.js:2 | the document form of a grid has one array row per row, of the same length |
| Persistence.SavedAsWritten | save.js:1-2 | what `save(grid, name)` writes: the bare grid array, without the name; `Persistence.SavedFileLoadsNothing` shows it loads as no change |
| Persistence.SavedIntended | App.js:288-297 | the `{name, grid}` document `loadGrid` accepts; `Persistence.SaveLoadRoundTrip` shows it loads back |
| Persistence.SavedFileLoadsNothing | save.js:1-2 | loading the bare array the Save button writes leaves the session unchanged |
| Persistence.SaveLoadRoundTrip | App.js:288-297 | loading a `{name, grid}` document gives back the name, the grid with empty comments cleared, and its size |
| Persistence.SaveLoadExact | App.js:288-297 | a rectangular grid with at least one row and no empty comment comes back exactly, with its grid size |
| App.PlaceResult | App.js:132-166 | the grid `handlePlaceShape` leaves, or a throw; `App.EraseModeErases`, `App.NoPlacementWithoutFit`, `App.PlacementEffect` and `App.PlaceKeepsRectangular` state its cases |
| App.EraseModeErases | App.js:133-136 | erase mode erases the pressed cell whatever template is selected |
| App.NoPlacementWithoutFit | App.js:138-148 | without a template, or when the template does not fit, a press leaves the grid unchanged or throws |
| App.PlacementEffect | App.js:150-162 | a placement that goes ahead had every footprint cell within `gridSize` and free, fills exactly the footprint with the template's cell, and keeps all else |
| App.PlaceKeepsRectangular | App.js:132-166 | on a grid that matches `gridSize`, a press never throws and the grid keeps matching |
| App.SettingsTextRoundTrip | App.js:309-310 | applying the texts the settings dialog opens with gives back the current grid size |
| App.Session.constructor | App.js:54-69 | the initial session: empty 10 by 10 grid, the built-in templates, empty name, place tool, nothing selected |
| App.Session.SelectShape | App.js:403-406 | a template button selects the template and the place tool |
| App.Session.SelectEraser | App.js:413-417 | the Eraser button drops the selection and selects the erase tool |
| App.Session.SelectCommentTool | App.js:422-426 | the Comment button selects the comment tool and drops the selection |
| App.Session.OpenShapeEditor | App.js:431-435 | "+ Add Shape" selects the place tool |
| App.Session.SetCurrentComment | App.js:489 | typing in the comment box sets the current comment only |
| App.Session.SetName | App.js:337 | typing in the name field sets the name only |
| App.Session.RightClick | App.js:124-130 | right click installs the erased grid; nothing else changes |
| App.Session.HandlePlaceShape | App.js:132-166 | the press erases, leaves the grid, or stamps the template, as `PlaceResult` says; a throw leaves the grid; on a grid that matches `gridSize` it never throws and the grid keeps matching |
| App.Session.HandleCellPress | App.js:114-122 | comment mode selects the cell and loads its comment into the box without touching the grid; other modes place or erase |
| App.Session.HandleSaveComment | App.js:168-178 | with an existing cell selected, its comment becomes the box's text and the selection and box are cleared; with none selected nothing changes |
| App.Session.ApplySettings | App.js:269-278 | two parseable texts set `gridSize` to those numbers, the grid to a fresh empty one and the name to `""`; otherwise nothing changes |
| App.Session.ApplyParsedSize | App.js:272-277 | the same, given the two parse results |
| App.Session.HandleAddNewShape | App.js:280-283 | the template is appended to the catalog, with no duplicate-id check |
| App.Session.LoadGrid | App.js:285-302 | the session changes as `Load` says: nothing, the name only, or name, grid and size |
| App.Session.Save | App.js:439 | the Save button writes the bare grid array, one row per grid row and no name, and loading that file leaves the session unchanged |
| ShapeEditor.Remove | ShapeEditorModal.js:18 | deleting a key removes exactly that key |
| ShapeEditor.Toggle | ShapeEditorModal.js:14-23 | toggling flips the membership of the key and keeps every other key's |
| ShapeEditor.RemoveKeepsNoDuplicates | ShapeEditorModal.js:18 | deleting a key from a set keeps every remaining key at most once |
| ShapeEditor.ToggleKeepsNoDuplicates | ShapeEditorModal.js:16-20 | toggling keeps each key at most once |
| ShapeEditor.ToggleTwiceSameKeys | ShapeEditorModal.js:14-23 | toggling the same key twice restores the set of keys |
| ShapeEditor.ToggleTwiceAbsent | ShapeEditorModal.js:14-23 | for a key not selected, toggling twice restores the very same selection order |
| ShapeEditor.DecodeAll | ShapeEditorModal.js:30-33 | decoding keeps the number and order of the keys, cell by cell |
| ShapeEditor.HandleSave | ShapeEditorModal.js:26-53 | nothing when the trimmed name is empty or nothing is selected; otherwise id `shape-<now>`, the trimmed name, the colour, and normalised cells that translate the decoded selection, one per key |
| ShapeEditor.BoardKeyDecodes | ShapeEditorModal.js:71-74 | the key of a board cell decodes to a cell with row and column in `[0, 4)` |
| ShapeEditor.SaveTranslatesSelection | ShapeEditorModal.js:35-45 | saving the keys of a list of cells emits a translate of that list |
| ShapeEditor.SavedOffsetsOnBoard | ShapeEditorModal.js:42-45 | with board keys only, every emitted offset has row and column in `[0, GRID_DIM)` |
| ShapeEditor.SavedShapeRotatesBack | ShapeEditorModal.js:42-52 | an emitted template comes back unchanged after four rotations |
| ShapeEditor.Editor.constructor | ShapeEditorModal.js:10-12 | a fresh editor has an empty name, colour `#3498db` and no selection |
| ShapeEditor.Editor.ToggleCell | ShapeEditorModal.js:14-23 | the selection becomes the toggled one and stays a duplicate-free set of board keys |
| ShapeEditor.Editor.SetName | ShapeEditorModal.js:94 | the name field sets the name only |
| ShapeEditor.Editor.SetColor | ShapeEditorModal.js:97 | the colour picker sets the colour only |
| ShapeEditor.Editor.Save | ShapeEditorModal.js:26-53 | the Save button emits `handleSave`'s template, its offsets on the board |
| Scenarios.BarRotation | App.js:13-22 | a one by three bar rotates into a three by one bar |
| Scenarios.PlaceOnEmptyGrid | App.js:132-166 | a chair placed at (0, 0) of an empty 3 by 3 grid fills that cell only |
| Scenarios.OverlapIsNoOp | App.js:140-148 | a second placement over an occupied cell leaves the grid as it is |
| Scenarios.LobbyRoundTrip | App.js:285-302 | a commented grid saved as "Lobby" loads back with name, comment and size from a `{name, grid}` document, and not at all from the bare array |

## Left out

- ColorPicker.js as a whole. It uses floating-point HSV maths, trigonometry,
  an external colour library and gestures. The colour is an opaque string.
- File I/O in save.js: the Blob download, the hidden file input, FileReader
  and `JSON.stringify`/`JSON.parse`. A load is given the parsed value, or the
  rejection. A save is the document value it would write.
- The async/await boundary of `loadGrid` and its `console.error` on failure.
  The rejected promise is `Rejected`.
- Pixel-to-cell mapping in the pan responder and the press handlers. The
  float division and `Math.floor` are not modelled; `previewPos` is a
  parameter of `Placement.BuildPreview`, and resetting it after a placement
  is not modelled.
- Rendering, styles, modal visibility (`settingsVisible`, `showEditor`,
  `commentModalVisible`), the `started`/`hidden` flags, the long-press alert
  and the `commentsList` placeholder data.
- The `icon`/`component` React element carried by templates and placed
  cells, and any other fields a loaded cell record carries besides
  occupancy, colour, label and comment.
- `Date.now()`: the shape editor's save takes it as a parameter `now`.
- `rotateShape` is defined but not wired to any control in the shown code.
  It is modelled as a function with its properties; no handler calls it.
- Persistence.Load: the parsed document is assumed well-typed. A cell is
  `null` or a record with a boolean `occupied`, a string-or-null `color`, a
  string `label` and a string-or-null `comment`; names are strings or absent.
  Other JSON values in those places are not modelled.
- Text.ParseInt: large numbers are exact integers here. JavaScript numbers
  lose precision beyond 2^53, and `Array.from` throws a `RangeError` for
  lengths beyond 2^32 - 1. In `applySettings`, `setGridSize` runs before
  `createEmptyGrid` throws, so a size that large would change `gridSize` and
  keep the old grid. The model does not capture that.
- CellKeys.DecodeKey: `Number` is modelled only on strings of the form
  `-`? digit+, the only strings the editor ever decodes. Every other string
  gives `None`. That stands for `NaN` and for the forms `Number` accepts that
  the editor never produces.
- Annotations.SetComment: `handleSaveComment` assigns the comment to the cell
  object shared by the old and new grids. The model writes a new cell value,
  so the aliasing of the previous grid's cell is not captured.

## Findings

| source | as written | input that shows it | evidently intended | confidence | as-written member | corrected member |
|---|---|---|---|---|---|---|
| save.js:1-2 | `save(grid)` serialises only the bare grid array and drops the `name` passed at App.js:439, while `loadGrid` (App.js:288) only accepts an object with an array `grid` field | any grid, for example an empty 5 by 5 grid saved under the name "Lobby": loading the written file changes nothing | the Save button writes `{ name, grid }`, so that loading a saved design restores its name, grid and grid size | not executed | Persistence.SavedFileLoadsNothing | Persistence.SaveLoadRoundTrip |

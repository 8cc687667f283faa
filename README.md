# Pixel editor core

A model of the editing core of a React pixel-art editor (`src/App.jsx`). Under the user interface is
a small integer-only engine, and this model covers it:

- A grid of colours. A colour is `[r, g, b, a]`, with red, green and blue in 0..255 and alpha a
  percentage in 0..100. `[100,100,100,100]` marks an unpainted cell.
- A tool state machine: brush, eraser, eyedropper and rectangle. Keyboard shortcuts switch tools, and
  the eraser puts the paint colour aside and gives it back.
- A history of recently saved colours: newest first, at most ten, no deduplication.
- A decoder for the colour picker's `#RRGGBB` text.
- The export text: the finished grid as a JSON literal bound to `<name>Icon`.
- The import merge: it never shrinks the grid, and it treats transparent pixels as unpainted.

Modules, leaf first:

| file | module | contents |
|---|---|---|
| wrappers.dfy | `Wrappers` | `Option` (usable with `:-`) and `Result` |
| colors.dfy | `Colors` | `Color`, the placeholder and transparent constants, `HexToRgb` |
| grid.dfy | `Grid` | `LoadScreen`, `Paint` (the rebuilt matrix of a click), `Finish` |
| tools.dfy | `Tools` | `Tool`, `ToolState`, `OnKey` (shortcuts), `Click` (one click under each tool) |
| history.dfy | `History` | `Record`, `ClearLast`, and what a run of recordings leaves |
| json.dfy | `Json` | `JSON.stringify` of an integer grid, and a reader that is its inverse |
| serializer.dfy | `Serializer` | `ExportText` with its decoder, `Reconcile` (the import merge) |
| session.dfy | `Session` | class `Editor`: the component's state fields and its event handlers |

The pure transforms are functions. The component's state is the class `Editor`, with one field per
state variable (`tool`, `currentColor`, `savedColor`, `pixelMatrix`, `gridWidth`, `gridHeight`,
`recentColors`, `resultMatrix`, `formattedText`). Each handler is a method that modifies exactly the
fields the handler sets. Its postcondition ties the new state to the specification functions, which
the lemmas are about. `Valid()` says that the tracked width and height are the grid's size, and that
the eraser always has a colour to give back. Every handler keeps `Valid()`.

Four behaviours of the code that are easy to misread, each modelled as written:

- The `'e'` shortcut saves the paint colour every time, not "only if not already saved". Pressing
  `'e'` twice therefore puts the unpainted colour aside, and `'b'` then paints with it
  (`Tools.EraseTwiceLosesColour`).
- An import keeps only the size of the current grid, not its cells. Every position the imported array
  does not cover becomes unpainted.
- A click outside the grid is not an error. It matches no cell, so nothing changes.
- Choosing a history swatch passes the colour itself, not an index into the history.

In `hexToRgb`, the source shifts and masks the parsed value (`(v >> 16) & 255` and so on). Six hex
digits give a value below 2^24, so the shifts and masks are written as division and remainder. Every
integer here is small, so JavaScript's double-precision numbers play no role.

## Model

| member | source | states |
|---|---|---|
| Colors.HexToRgb | src/App.jsx:169-176 | a text that is not seven characters starting with `#` gives `[0,0,0,0]`; otherwise the result is the three bytes written by the digit pairs, with alpha 100, and is always a valid colour |
| Colors.HexSixDigits | src/App.jsx:171-174 | the number parsed from six hex digits is the three digit-pair bytes in base 256, most significant first |
| Colors.SplitBytes | src/App.jsx:172-174 | division by 2^16 and 2^8, each followed by a remainder modulo 256, gives back the three bytes |
| Colors.HexToRgbExamples | src/App.jsx:169-176 | `"bad"` and `"#12345"` give `[0,0,0,0]`; `"#336699"` gives `[51,102,153,100]` |
| Grid.LoadScreen | src/App.jsx:100-105 | exactly `height` rows of exactly `width` cells, every cell `[100,100,100,100]` |
| Grid.Paint | src/App.jsx:125-143 | same row count and row lengths; every cell other than (x, y) is kept; (x, y), when inside, holds the new colour; the grid is unchanged when (x, y) is outside |
| Grid.FinishPixel | src/App.jsx:158-161 | the placeholder becomes `[0,0,0,0]`, every other colour is returned unchanged, and the result is never the placeholder |
| Grid.Finish | src/App.jsx:157-163 | same shape; no placeholder is left; a placeholder cell becomes `[0,0,0,0]` and every other cell is copied |
| Grid.FinishKeepsFinished | src/App.jsx:157-163 | a grid without placeholders is left exactly as it is |
| Grid.FinishIdempotent | src/App.jsx:157-163 | finishing twice equals finishing once |
| Grid.FinishAfterPaint | src/App.jsx:156-163 | after painting (x, y), finishing keeps that colour, unless the colour was the placeholder, which becomes `[0,0,0,0]` |
| Tools.OnKey | src/App.jsx:56-77 | the tool is the one the key selects, or is kept for any other key; only `'e'` changes the saved colour, setting it to the old paint colour; the paint colour becomes the placeholder on `'e'`, becomes the saved colour on `'b'` when one is saved, and is otherwise kept; other keys change nothing; the eraser keeps a saved colour |
| Tools.EraseThenBrushRestores | src/App.jsx:58-68 | `'e'` then `'b'` returns to the brush with the original paint colour |
| Tools.EraseTwiceLosesColour | src/App.jsx:58-68 | `'e'`, `'e'`, `'b'` leaves the brush painting with the placeholder, because the save is unconditional |
| Tools.Click | src/App.jsx:124-145 | the grid keeps its shape and every cell but (x, y); outside the grid nothing changes; at (x, y) the eraser writes the placeholder, the eyedropper keeps the cell and brush or rectangle write the paint colour; the eyedropper copies the cell into the paint colour and returns to the brush; other tools leave the tool state alone |
| Tools.EyedropperRoundTrip | src/App.jsx:131-137 | a pick leaves the grid alone and switches to the brush, and the next click paints the picked colour |
| Tools.EraseIdempotent | src/App.jsx:129-130 | erasing leaves the placeholder, and erasing the same cell again changes nothing |
| History.Record | src/App.jsx:188-192 | the length is `min(old + 1, 10)`, the head is the new colour, and the rest is the old history less its entries from the tenth on; no deduplication |
| History.ClearLast | src/App.jsx:198-204 | an empty history stays empty; otherwise exactly the head is dropped |
| History.ClearUndoesRecord | src/App.jsx:188-204 | clearing right after recording gives back a history that had fewer than ten entries |
| History.NewestOfNewest | src/App.jsx:189 | cutting to ten before prepending gives the same first ten entries as cutting after |
| History.RecordAllNewest | src/App.jsx:188-192 | recording a run of colours leaves the newest ten of "the run reversed, then the old history" |
| History.RecordManyEvicts | src/App.jsx:188-192 | after ten or more recordings the history is exactly the last ten colours, newest first |
| Json.NatText | src/App.jsx:165 | the decimal text of a number is a non-empty run of digits with no leading zero (`0` is written `"0"`) |
| Json.GridText | src/App.jsx:165 | the `JSON.stringify` text of a grid: outer brackets around comma-separated rows, each a bracketed comma-separated list of `[r,g,b,a]`; only digits, minus signs, brackets and commas, so no white space; an empty grid is `[]`; `Json.ParseGridTextInverse` is its partner |
| Json.DigitsValueOfNatText | src/App.jsx:165 | the decimal text of a number reads back as that number |
| Json.ParseGridTextInverse | src/App.jsx:165 | the JSON text of any grid of integer colours reads back as that grid |
| Serializer.ExportText | src/App.jsx:165 | the text is the header `const <name>Icon = `, then the grid's JSON, then the footer, and it decodes back to the grid it was built from |
| Serializer.ExportCarriesFinished | src/App.jsx:156-166 | the export of a session's grid carries the finished grid, with the same shape and no placeholder |
| Serializer.ImportPixel | src/App.jsx:221-222 | an imported cell is the imported pixel when there is one and its alpha is not 0, and the placeholder otherwise; it is never fully transparent |
| Serializer.Reconcile | src/App.jsx:212-233 | an empty outer array is an error; otherwise the width is `max(first row length, current width)` and the height is `max(row count, current height)`, never smaller than either; the grid is rectangular of that size and holds each imported non-transparent pixel at its position and the placeholder everywhere else |
| Serializer.ImportOfFinished | src/App.jsx:156-233 | importing a finished h by w grid (h > 0) into an h by w session gives back its cells with transparent cells turned into placeholders, at the same size |
| Serializer.ExportImportRoundTrip | src/App.jsx:156-233 | a grid with no fully transparent cell, exported and imported into a session of its size, comes back exactly |
| Serializer.ImportNeverShrinks | src/App.jsx:216-224 | a 4 by 4 import into a 16 by 16 session gives 16 by 16, with placeholders outside the imported square |
| Session.Editor.constructor | src/App.jsx:38-105 | a 16 by 16 unpainted grid, brush, `[0,0,0,100]`, nothing saved, and the stored history |
| Session.Editor.KeyDown | src/App.jsx:56-77 | the tool fields change exactly as `Tools.OnKey` says, and nothing else changes |
| Session.Editor.PixelClick | src/App.jsx:124-145 | the grid and the tool fields change exactly as `Tools.Click` says, and nothing else changes |
| Session.Editor.FinishDrawing | src/App.jsx:156-167 | the result grid is the finished grid; the text is its export, which decodes back to it and holds no placeholder |
| Session.Editor.ColorPick | src/App.jsx:178-182 | the paint colour becomes the decoded picker value, which is a valid colour |
| Session.Editor.RecentColorClick | src/App.jsx:194-196 | the paint colour becomes the chosen swatch |
| Session.Editor.UpdateRecentColors | src/App.jsx:188-192 | the history becomes `Record(old, c)`: at most ten entries, headed by `c` |
| Session.Editor.SaveColor | src/App.jsx:184-186 | records the paint colour |
| Session.Editor.ClearLastColor | src/App.jsx:198-204 | the history becomes `ClearLast(old)` |
| Session.Editor.GridSizeChange | src/App.jsx:206-210 | the tracked size becomes the requested one, and the grid is a fresh unpainted grid of that size |
| Session.Editor.Start | src/App.jsx:151-154 | the grid is reloaded unpainted at the tracked size |
| Session.Editor.LoadArray | src/App.jsx:212-233 | succeeds exactly when the array has a first row; then grid, width and height are committed together, as `Reconcile` computes them from the old width and height; on failure nothing changes |

## Left out

- Rendering is not modelled: `Pixel`, `Row`, `createRows`, the JSX, the `useEffect` hooks and
  `isScreenLoaded`. The reload these effects perform after a size change is folded into the handlers
  `GridSizeChange` and `Start`.
- In the source, the key listener is added by the effect at lines 79-85 whenever it runs with
  `isScreenLoaded` false. That is at mount, and again after each `handleStart` and
  `handleGridSizeChange`. No listener is ever removed, so listeners pile up, and each one holds the
  state of the render that added it (a stale closure). The model handles each key once, against the
  current state.
- The `localStorage` read at start-up and the writes after each history change are external storage.
  The constructor takes the already-decoded stored history (empty when there is none). The writes
  are not modelled.
- `JSON.parse` of arbitrary import text is not modelled; `LoadArray` takes the parsed array. Its
  only error path here is an array with no first row. Text that is not valid JSON fails before the
  merge, and the state is left alone in that case too.
- The import's handling of entries that are not 4-tuples is not modelled. This includes the `||`
  fallback for falsy entries (line 221). Every entry is a four-channel colour.
- Colors.HexToRgb: requires the six characters after `#` to be hex digits, because `parseInt`'s
  prefix parsing of other characters is not modelled.
- Session.Editor.ColorPick: takes over the hex-digit requirement of `Colors.HexToRgb` for the same
  reason.
- The text and number input widgets are not modelled: the project name, the typed width and height,
  and the import text. Typing a width or height sets `gridWidth` or `gridHeight` without reloading
  the grid, so with those inputs the tracked size can differ from the grid's (`Valid()` would not
  hold). The project name is a parameter of `FinishDrawing`.
- Width and height are natural numbers. `Number()` of a typed value that is negative, fractional or
  not a number is not modelled.
- Display-only code is not modelled: the fractional opacity `a / 100` (lines 7 and 337), the hovered
  coordinate and `handleMouseEnter`, the alert, and copying to the clipboard.
- Session.Editor.PixelClick and Tools.Click evaluate a click against the current tool and paint
  colour. In the source, the cells' click handlers are built by `createRows`, which runs only when the
  grid changes (lines 87-91 and 116). So a click sees the tool and colour of the render in which the
  grid last changed: `'i'` then a click paints, and `'e'` then a click paints with the old colour.
  This staleness is not modelled; the model gives the tool's intended effect.
- Tools.Click: the same staleness of the tool and paint colour is not modelled here either.
- The unused `firstPoint` and `secondPoint` state is left out. The rectangle tool paints one cell,
  like the brush, because the source has no two-point logic.
- Colours are values. In the source, several cells can share one array object after painting. Nothing
  ever mutates such an array, so this sharing is not observable.
- The eyedropper calls `setCurrentColor` inside the grid's state updater. React may run that updater
  twice; the two runs have the same effect, so the model applies it once.
- The JSON reader in `Json` is the inverse of `JSON.stringify` on integer grids only. It is not a
  model of `JSON.parse`.

# Contribution poster maker — verified model of the core

The poster maker turns text into a 7-row intensity grid using a 5x7 bitmap font. It can also turn a year of contribution-calendar weeks into such a grid. It colours the grid through a palette of five colours. The palette can be the default, a gradient built from two endpoints, colours edited one level at a time, or colours loaded from the URL or from a saved design. It saves and loads a design as a JSON document, and it exports the grid as a PNG (canvas fill commands) or as an SVG document. This project models that pipeline in Dafny and proves what each step promises.

| file | module | models |
|---|---|---|
| `wrappers.dfy` | `Wrappers` | `Option` and `Result` |
| `numbers.dfy` | `Numbers` | `Math.min`/`max`/`round`, decimal printing of naturals |
| `strings.dfy` | `Strings` | `split`, `join`, `replace` (first and global), ASCII case mapping, `slice` |
| `grids.dfy` | `Grids` | `Grid = number[][]`, width, rectangularity, row-major flattening |
| `hex_color.dfy` | `HexColor` | hex digits and the strict `#RRGGBB` test |
| `text_to_grid.dfy` | `TextToGrid` | `textToContributionGrid` (imperative: a 2-D buffer and a cursor loop) |
| `color_scale.dfy` | `ColorScale` | `hexToRgb`, `rgbToHex`, `interpolateHex`, `buildPaletteFromEndpoints`, `colorForLevel` |
| `contribution_data.dfy` | `ContributionData` | `LEVEL_MAP`, `contributionWeeksToGrid` (imperative: nested loops over a buffer) |
| `design.dfy` | `Design` | `validateDesign`, `serializeDesign`, `deserializeDesign` |
| `geometry.dfy` | `Geometry` | the canvas and cell-origin formulas shared by both emitters |
| `export_to_png.dfy` | `ExportToPng` | `exportGridToPng`: a canvas context class that logs its `fillRect` calls |
| `export_to_svg.dfy` | `ExportToSvg` | `escapeXml`, `exportGridToSvg` |
| `page.dfy` | `Page` | `paletteFromUrlParam`, `applyDesign`, the background choice, the export gap |

Modelling choices:

- Grid cells, levels and JSON numbers are `real`. `Math.round` is `floor(x + 0.5)`.
- The glyph table `getGlyph` lives in a font module that the core imports; it is a parameter `font: char -> Glyph`. A glyph is seven rows of five characters.
- `Date.parse` succeeding is a parameter `dateOk: string -> bool`. The current time `new Date().toISOString()` is a parameter `now`.
- `JSON.stringify` and `JSON.parse` are treated as exact inverses on the values the codec writes. The serialiser returns the `Json` value, and the deserialiser takes the parsed `Json` value.
- Both emitters return their output rather than triggering a download:
  - the PNG emitter returns the canvas size and the fills drawn on it;
  - the SVG emitter returns the document text;
  - "no output" is `None`.
- The text rasteriser, the calendar adapter and both emitters are methods with loops. Each is proved against a specification function.

SVG cells use the constant corner radius `rx="2" ry="2"` (lib/exportToSvg.ts:34), whatever the cell size.

## Model

| member | source | states |
|---|---|---|
| TextToGrid.Normalize | lib/textToGrid.ts:19 | at most 80 characters; lower-case ASCII letters are upper-cased; A-Z, 0-9 and space are kept; everything else becomes a space |
| TextToGrid.ProcessedFrom | lib/textToGrid.ts:24-40 | the loop stamps at least one more character while any remain, and never runs past the end of the text |
| TextToGrid.Stamp | lib/textToGrid.ts:27-34 | one glyph is stamped at the cursor: each cell becomes 1 where the glyph has a set pixel inside the grid, and every other cell is unchanged |
| TextToGrid.TextToContributionGrid | lib/textToGrid.ts:17-43 | the grid is rows x columns; a cell is 1 exactly when some processed character's glyph has a set pixel there, within the font height; otherwise it is 0 |
| TextToGrid.EmptyTextIsBlank | lib/textToGrid.ts:20-24 | empty text leaves every cell 0 |
| TextToGrid.ProcessedIff | lib/textToGrid.ts:36-39 | with a positive step, character i is stamped iff it exists and either it is the first character or its cursor `i * step` is still left of the right edge |
| TextToGrid.StopsAtEdge | lib/textToGrid.ts:36-39 | once the cursor reaches the edge, no later character leaves a mark |
| TextToGrid.LitInWindow | lib/textToGrid.ts:27-36 | with spacing >= 0, a cell in character i's 5-column window is lit iff character i is processed and its glyph pixel there is set |
| TextToGrid.SpacingColumnsBlank | lib/textToGrid.ts:28-36 | the spacing columns after each glyph window stay 0 |
| TextToGrid.HiExample | lib/textToGrid.ts:17-43 | "HI" on 20 columns with spacing 1 draws H in columns 0-4 and I in columns 6-10, and nothing else |
| ColorScale.ParseHexSix | lib/colorScale.ts:14 | six hex digits parse to the three two-digit groups weighted by 65536, 256 and 1 |
| ColorScale.Expand | lib/colorScale.ts:7-12 | the split, per-character doubling and join of a three-digit form yields the six digits `aabbcc`; any other form is unchanged |
| ColorScale.HexToRgb | lib/colorScale.ts:5-16 | the channels are the three two-digit groups of the (expanded) digits, each in 0..255 |
| ColorScale.RgbToHexForm | lib/colorScale.ts:18-20 | for channels in 0..255, `RgbToHex` (`rgbToHex`) yields '#' and six lower-case hex digits, two per channel, high digit first; it passes the strict hex test |
| ColorScale.RgbHexRoundTrip | lib/colorScale.ts:5-20 | decoding what `rgbToHex` printed gives the channels back |
| ColorScale.HexIsLiteral | lib/colorScale.ts:5-12 | every strict `#RRGGBB` colour is decodable, and its digits are the six after '#' |
| ColorScale.NormalForm | lib/colorScale.ts:5-20 | re-encoding a decoded colour gives '#' and its six digits in lower case |
| ColorScale.InterpolateHex | lib/colorScale.ts:22-29 | for a ratio in [0, 1] the blend is a strict `#RRGGBB` colour |
| ColorScale.BlendBetween | lib/colorScale.ts:25-27 | for a ratio in [0, 1] a blended channel lies between the two channel values |
| ColorScale.InterpolateEndpoints | lib/colorScale.ts:22-29 | ratio 0 gives the start colour and ratio 1 the end colour, each in six-digit lower-case form |
| ColorScale.InterpolateBetween | lib/colorScale.ts:22-29 | every channel of the interpolated colour lies between the endpoints' channels |
| ColorScale.BlendQuarter | lib/colorScale.ts:25-27 | a blend at ratio k/4 equals the integer step `floor((4s + k(e - s) + 2) / 4)` |
| ColorScale.QuarterStepMonotone | lib/colorScale.ts:31-38 | step 0 is the start and step 4 the end; the steps move monotonically towards the end |
| ColorScale.BuildPaletteFromEndpoints | lib/colorScale.ts:31-39 | entry 0 is the inactive colour verbatim and entry 4 the active colour verbatim |
| ColorScale.PaletteChannels | lib/colorScale.ts:31-39 | entry k decodes to the quarter steps of the endpoints' channels; entries 1-3 are strict hex |
| ColorScale.PaletteMonotone | lib/colorScale.ts:31-39 | along the gradient every channel moves monotonically from the inactive colour to the active one |
| ColorScale.LevelIndex | lib/colorScale.ts:42 | the clamped, rounded level is always an index in 0..4 |
| ColorScale.ColorForLevel | lib/colorScale.ts:41-44 | the colour is always one of the palette's colours |
| ColorScale.ColorForLevelClamps | lib/colorScale.ts:41-44 | levels <= 0 give palette[0]; levels >= 4 give palette[4]; a level within half a step of k gives palette[k] |
| ColorScale.DefaultPaletteIsHex | lib/colorScale.ts:3 | the default palette is made of strict `#RRGGBB` colours |
| HexColor.ShortFormRejected | lib/design.ts:25-27 | `IsHex` (`isHex`, `/^#[0-9a-fA-F]{6}$/`) rejects the four-character `#RGB` form |
| ContributionData.LevelValue | lib/contributionData.ts:24-30 | the level mapping gives 0..4, and 0 exactly for NONE |
| ContributionData.LevelValueBijective | lib/contributionData.ts:24-30 | distinct labels get distinct values, and every value in 0..4 is some label's |
| ContributionData.LastLevel | lib/contributionData.ts:37-43 | the value of a cell is an integer in 0..4 |
| ContributionData.ContributionWeeksToGrid | lib/contributionData.ts:32-46 | the grid has 7 rows of one column per week; cell (d, w) is the level of the last day of week w whose weekday is d, or 0 when there is none |
| ContributionData.LastLevelIsLastMatch | lib/contributionData.ts:38-41 | a day of weekday d followed only by days of other weekdays decides the cell |
| ContributionData.LastLevelNoMatch | lib/contributionData.ts:35 | without a day of weekday d the cell keeps its initial 0 |
| ContributionData.OtherWeekdayIgnored | lib/contributionData.ts:39 | a day of another weekday, including one outside 0..6, does not affect row d wherever it stands |
| ContributionData.FullWeekFillsColumn | lib/contributionData.ts:37-43 | a complete week listed Sunday to Saturday fills its column in order |
| Design.CheckRows | lib/design.ts:56-66 | the row scan accepts, or reports the width message or the cell message |
| Design.Validate | lib/design.ts:29-88 | every rejection carries one of the validator's twelve messages |
| Design.CheckRowsAcceptsIff | lib/design.ts:56-66 | the row scan accepts iff every row has the declared width and only non-negative number cells |
| Design.CheckRowsFirstFailure | lib/design.ts:56-66 | the first bad row decides the message, whatever follows: width if its width is wrong, the cell message otherwise |
| Design.ValidateAcceptsIff | lib/design.ts:29-88 | the validator accepts exactly the well-formed documents: an object with a string text, a non-empty 2-D grid, positive integer rows and cols matching its height and every row's width, non-negative number cells, a positive cell size, six hex theme colours and a parseable date |
| Design.SerializeDesign | lib/design.ts:90-117 | `rows` is the grid's length and `cols` its first row's length (0 if empty); the document holds the text, grid, cell size, palette entries as level1..level5, background and timestamp, under exactly the seven top-level keys and six theme keys written |
| Design.DeserializeDesign | lib/design.ts:119-128 | it fails iff the validator rejects, with the validator's message; otherwise it returns the document's own values, which satisfy every promise of an accepted design |
| Design.RoundTrip | lib/design.ts:90-128 | a design saved from a non-empty rectangular grid of non-negative cells, a positive cell size, hex colours and a valid timestamp reads back as exactly the schema written |
| Design.EmptyGridNotReimportable | lib/design.ts:40-42 | an empty grid serialises, but the document is rejected with the grid message |
| Design.ZeroWidthGridNotReimportable | lib/design.ts:48-50 | rows of length 0 give `cols: 0`, which is rejected with the cols message |
| Geometry.CellInsideCanvas | lib/exportToPng.ts:21-39 | each cell square lies inside the canvas, with at least `gap` on each side |
| Geometry.CellsDisjoint | lib/exportToPng.ts:38-39 | cells further along start after the previous square and its gap, so no two squares overlap |
| ExportToPng.Context2D.FillRect | lib/exportToPng.ts:33 | a fill is recorded with the fill style current at that moment |
| ExportToPng.DrawRow | lib/exportToPng.ts:36-41 | the inner loop appends the squares of one row, left to right, and leaves the fill style at the colour of the row's last cell (unchanged for an empty row) |
| ExportToPng.ExportGridToPng | lib/exportToPng.ts:11-48 | no output for zero width or height or without a 2-D context; otherwise a canvas of `n(cell + gap) + gap` each way, holding the background fill followed by the cells in row-major order |
| ExportToPng.PngFillCount | lib/exportToPng.ts:32-42 | exactly one background fill and rows x cols cell fills |
| ExportToPng.PngBackgroundFirst | lib/exportToPng.ts:32-33 | the first fill covers the whole canvas in the background colour |
| ExportToPng.PngCellFill | lib/exportToPng.ts:35-42 | fill `1 + row * cols + col` is the cell's square at `(col(cell + gap) + gap, row(cell + gap) + gap)` in `colorForLevel` of its value, and it lies inside the canvas |
| ExportToSvg.EscapeXmlPerChar | lib/exportToSvg.ts:11-13 | in `EscapeXml` (`escapeXml`) the five chained replacements, `&` first, equal escaping character by character, so no entity is escaped twice |
| ExportToSvg.UnescapeEscape | lib/exportToSvg.ts:11-13 | reading the entities back gives the original text |
| ExportToSvg.NoRawSpecials | lib/exportToSvg.ts:11-13 | the escaped text holds no raw `<`, `>`, `"` or `'` |
| ExportToSvg.EscapeIdentity | lib/exportToSvg.ts:11-13 | text without any of the five characters is unchanged |
| ExportToSvg.HexUnchanged | lib/exportToSvg.ts:11-13 | a `#RRGGBB` colour is unchanged by escaping |
| ExportToSvg.RowRects | lib/exportToSvg.ts:30-35 | the inner loop pushes the rects of one row, left to right |
| ExportToSvg.ExportGridToSvg | lib/exportToSvg.ts:15-47 | no document for zero width or height; otherwise the header with the canvas size, the background rect with the escaped colour, then the cell rects in row-major order |
| ExportToSvg.SvgCellCount | lib/exportToSvg.ts:27-36 | exactly rows x cols cell rects |
| ExportToSvg.SvgCellAt | lib/exportToSvg.ts:29-35 | rect `row * cols + col` has the cell's x/y, width = height = cell size, rx = ry = 2, and the escaped `colorForLevel` fill, which is the colour itself for a hex palette |
| Page.EnsureHash | app/page.tsx:23 | a part starting with '#' is kept; any other part gets one '#' in front |
| Page.PaletteFromUrlParam | app/page.tsx:21-27 | a palette is returned iff the parameter is present and non-empty, has exactly five comma-separated parts, and each part with its '#' is strict hex; every returned entry is strict hex |
| Page.UrlPaletteRoundTrip | app/page.tsx:21-27 | a hex palette written to the URL as the page writes it at app/page.tsx:163 (each colour's first '#' removed, the parts comma-joined) reads back unchanged |
| Page.ApplyDesign | app/page.tsx:57-70 | columns are clamped to [20, 53], cell size to [8, 24], text to its first 80 characters; the palette is level1..level5 in order; dark mode holds exactly when the lower-cased background is `#020617` |
| Page.Background | app/page.tsx:54 | the background is a strict hex colour, and lower-cases to `#020617` exactly in dark mode |
| Page.SettingsSurviveRoundTrip | app/page.tsx:54-70 | saving and then applying a design restores dark mode and the palette, and restores columns, cell size and text when they were in range |
| Page.ExportGap | app/page.tsx:444 | the export gap is at least 1 |
| Page.ExportGapRange | app/page.tsx:444 | over cell sizes 8..24 the gap grows with the cell size and runs from 2 to 6 |

## Left out

- Network retrieval of the calendar, React state and effects, local storage, the URL history update, the clipboard, file reading, canvas encoding and downloads. These are browser or network effects. The emitters return their output instead.
- The font bitmaps. The font module is not part of this model, so the glyph table is a parameter.
- Floating-point rounding. Numbers are exact reals, so finiteness checks always hold.
- JSON numbers: the model's numbers have no `Infinity`. In the source, an overflowing literal such as `1e400` parses to `Infinity`. As a grid cell or `cellSize`, the source rejects it with the cell message (lib/design.ts:62) or the cell-size message (lib/design.ts:68), whereas the model reads it as a huge finite number and accepts it. As `rows` or `cols`, the source rejects it with the rows or cols message, because `Number.isInteger(Infinity)` is false (lib/design.ts:44-50). The model accepts the huge integer as a positive integer and then rejects the document with the height or width message (lib/design.ts:52-54 and 57-59).
- Strings are sequences of Unicode scalar values, not UTF-16 code units. A character outside the Basic Multilingual Plane is one element here but two units in JavaScript. So `Normalize("😀A")` is `" A"` in the model, whereas the source's regular expression turns both surrogates into spaces, giving `"  A"`, which moves the A glyph one character cell to the right. The same difference affects the 80-character cuts in TextToGrid.Normalize (`slice(0, 80)`, lib/textToGrid.ts:19) and Page.ApplyDesign (app/page.tsx:58), which count UTF-16 units.
- ColorScale.HexToRgb: requires three or six hex digits after the first '#'. It does not model `parseInt` on other input (`NaN`, a sign, a `0x` prefix, a partial prefix, or digits beyond double precision).
- TextToGrid.Normalize: case mapping is ASCII only. `toUpperCase` on other characters, such as 'ß' to "SS", can change the length, and that is not modelled.
- TextToGrid.TextToContributionGrid: columns, rows and character spacing are required parameters; the defaults of lib/textToGrid.ts:11-15 (53, 7, 1) are not modelled. The only caller, app/page.tsx:49, passes all three. Columns are a natural number: in the source a fractional column count makes `Array(columns)` throw a `RangeError` at lib/textToGrid.ts:20. The page can reach that error, because `?columns=25.5` survives `Number(...)` and the clamp (app/page.tsx:114 and 123). The model does not capture that error. Rows are a natural number and character spacing an integer, so fractional values are left out too. With spacing 0.5, for example, the source places the second glyph at non-index columns 5.5, 6.5, … and so draws nothing visible. That caller passes 7 rows and spacing 1.
- TextToGrid.Stamp: a negative target column, which only negative spacing produces, writes no cell. In JavaScript it sets a non-index property that no reader of the grid sees.
- ContributionData.ContributionWeeksToGrid: weekdays are integers. In the source, a fractional weekday such as 1.5 passes the range test at lib/contributionData.ts:39. `grid[1.5]` is then `undefined`, so the assignment at lib/contributionData.ts:40 throws a `TypeError`. The integer weekday leaves that error path out of the model.
- ExportToPng.ExportGridToPng: requires a rectangular grid. A shorter row would read `undefined`, which leaves the previous fill style in place; that path is not modelled. Cell size and gap are naturals. Canvas fill-style parsing is not modelled, so an invalid colour string is recorded as given.
- ExportToSvg.ExportGridToSvg: requires a rectangular grid, with natural cell size and gap. The decimal printing of fractional numbers is not modelled.
- Design.DeserializeDesign: returns the schema's fields. Any extra keys the parsed document carries are not kept. The JSON text and its parsing are not modelled.
- Page.ApplyDesign: models the new values of the settings it sets. Clearing the error message is a UI effect and is left out.
- Page.UrlPaletteRoundTrip: treats `URLSearchParams` encoding and decoding of the parameter as exact inverses.

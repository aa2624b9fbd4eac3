/** The small pieces of the poster page that compute rather than render: the
    palette URL parameter, applying an imported design to the settings, the
    background colour and the export gap. */
module Page {
  import opened Wrappers
  import opened Numbers
  import opened Strings
  import opened HexColor
  import opened ColorScale
  import opened Grids
  import opened Design

  const MinColumns := 20
  const MaxColumns := 53
  const MinCell := 8.0
  const MaxCell := 24.0
  const DarkBackground := "#020617"
  const LightBackground := "#f8fafc"

  /** `item.startsWith("#") ? item : "#" + item`. */
  function EnsureHash(item: string): (r: string)
    ensures |r| > 0 && r[0] == '#'
    ensures |item| > 0 && item[0] == '#' ==> r == item
    ensures !(|item| > 0 && item[0] == '#') ==> r == "#" + item
  {
    if |item| > 0 && item[0] == '#' then item else "#" + item
  }

  /** The parts of a `palette` parameter, each given its leading `#`. */
  function PaletteParts(value: string): (parts: seq<string>)
    ensures |parts| == |Split(value, ',')|
    ensures forall i :: 0 <= i < |parts| ==> parts[i] == EnsureHash(Split(value, ',')[i])
  {
    var raw := Split(value, ',');
    seq(|raw|, i requires 0 <= i < |raw| => EnsureHash(raw[i]))
  }

  /** `paletteFromUrlParam(value)`: null for a missing or empty parameter, for
      anything but five comma-separated parts, and for any part that is not
      `#RRGGBB` once given its `#`. */
  function PaletteFromUrlParam(value: Option<string>): (r: Option<Palette>)
    ensures r.Some? ==> forall i :: 0 <= i < 5 ==> IsHex(r.value[i])
    ensures r.Some? <==> (value.Some? && value.value != [] && |Split(value.value, ',')| == 5 &&
      forall i :: 0 <= i < 5 ==> IsHex(EnsureHash(Split(value.value, ',')[i])))
    ensures r.Some? ==> r.value == PaletteParts(value.value)
  {
    if value.None? || value.value == [] then None
    else
      var parts := PaletteParts(value.value);
      if |parts| != 5 then None
      else if exists i :: 0 <= i < |parts| && !IsHex(parts[i]) then None
      else Some(parts)
  }

  /** The page writes the palette back into the URL as
      `palette.map(c => c.replace("#", "")).join(",")`. */
  function EncodePalette(p: Palette): string
  {
    Join(seq(5, i requires 0 <= i < 5 => RemoveFirst(p[i], '#')), [','])
  }

  /** A palette of `#RRGGBB` colours written to the URL reads back unchanged. */
  lemma UrlPaletteRoundTrip(p: Palette)
    requires forall i :: 0 <= i < 5 ==> IsHex(p[i])
    ensures PaletteFromUrlParam(Some(EncodePalette(p))) == Some(p)
  {
    var bare := seq(5, i requires 0 <= i < 5 => RemoveFirst(p[i], '#'));
    forall i | 0 <= i < 5
      ensures bare[i] == p[i][1..]
      ensures forall j :: 0 <= j < |bare[i]| ==> IsHexDigit(bare[i][j]) && bare[i][j] != ','
    {
      assert p[i] == [p[i][0]] + p[i][1..];
    }
    SplitJoin(bare, ',');
    var encoded := EncodePalette(p);
    assert Split(encoded, ',') == bare;
    assert encoded != [] by {
      assert Join(bare, [',']) == bare[0] + [','] + Join(bare[1..], [',']);
    }
    forall i | 0 <= i < 5 ensures EnsureHash(bare[i]) == p[i] {
      assert bare[i][0] != '#';
      assert "#" + p[i][1..] == p[i];
    }
    assert PaletteParts(encoded) == p;
  }

  /** The settings `applyDesign` sets. */
  datatype Settings = Settings(text: string, columns: int, cellSize: real, palette: Palette, darkMode: bool)

  /** `applyDesign(design)`. */
  function ApplyDesign(d: DesignSchema): (s: Settings)
    ensures s.text <= d.text && |s.text| == Min(|d.text|, 80)
    ensures MinColumns <= s.columns <= MaxColumns
    ensures MinColumns <= d.cols <= MaxColumns ==> s.columns == d.cols
    ensures d.cols < MinColumns ==> s.columns == MinColumns
    ensures d.cols > MaxColumns ==> s.columns == MaxColumns
    ensures MinCell <= s.cellSize <= MaxCell
    ensures MinCell <= d.cellSize <= MaxCell ==> s.cellSize == d.cellSize
    ensures d.cellSize < MinCell ==> s.cellSize == MinCell
    ensures d.cellSize > MaxCell ==> s.cellSize == MaxCell
    ensures s.palette == [d.theme.level1, d.theme.level2, d.theme.level3, d.theme.level4, d.theme.level5]
    ensures s.darkMode <==> LowerCase(d.theme.background) == DarkBackground
  {
    var palette: seq<string> := [d.theme.level1, d.theme.level2, d.theme.level3, d.theme.level4, d.theme.level5];
    Settings(
      Take(d.text, 80),
      Min(MaxColumns, Max(MinColumns, d.cols)),
      MinReal(MaxCell, MaxReal(MinCell, d.cellSize)),
      palette,
      LowerCase(d.theme.background) == DarkBackground)
  }

  /** `darkMode ? "#020617" : "#f8fafc"`. */
  function Background(dark: bool): (c: string)
    ensures IsHex(c)
    ensures LowerCase(c) == DarkBackground <==> dark
  {
    var c := if dark then DarkBackground else LightBackground;
    assert LowerCase(c) == c;
    assert LowerCase(LightBackground)[1] != DarkBackground[1];
    c
  }

  /** Saving the page as a design and applying it again restores the dark
      mode, the palette and, when they were in range, the columns, the cell
      size and the text. */
  lemma SettingsSurviveRoundTrip(text: string, grid: Grid, cellSize: real, palette: Palette, dark: bool,
    now: string, dateOk: string -> bool)
    requires Storable(grid)
    requires cellSize > 0.0
    requires forall i :: 0 <= i < 5 ==> IsHex(palette[i])
    requires dateOk(now)
    ensures var r := DeserializeDesign(SerializeDesign(text, grid, cellSize, palette, Background(dark), now), dateOk);
      r.Success? &&
      ApplyDesign(r.value).darkMode == dark &&
      ApplyDesign(r.value).palette == palette &&
      (MinColumns <= Width(grid) <= MaxColumns ==> ApplyDesign(r.value).columns == Width(grid)) &&
      (MinCell <= cellSize <= MaxCell ==> ApplyDesign(r.value).cellSize == cellSize) &&
      (|text| <= 80 ==> ApplyDesign(r.value).text == text)
  {
    var background := Background(dark);
    var d := DesignSchema(text, grid, |grid|, Width(grid), cellSize,
      DesignTheme(palette[0], palette[1], palette[2], palette[3], palette[4], background), now);
    RoundTrip(text, grid, cellSize, palette, background, now, dateOk);
    ApplyWritten(d, palette, dark);
  }

  lemma ApplyWritten(d: DesignSchema, palette: Palette, dark: bool)
    requires d.theme == DesignTheme(palette[0], palette[1], palette[2], palette[3], palette[4], Background(dark))
    ensures ApplyDesign(d).darkMode == dark && ApplyDesign(d).palette == palette
  {
    assert ApplyDesign(d).palette == [palette[0], palette[1], palette[2], palette[3], palette[4]];
  }

  /** `Math.max(1, Math.round(cellSize * 0.25))`. */
  function ExportGap(cellSize: real): (g: int)
    ensures g >= 1
  {
    Max(1, Round(cellSize * 0.25))
  }

  /** Over the cell-size range the gap runs from 2 to 6 and grows with the cell size. */
  lemma ExportGapRange(a: real, b: real)
    requires MinCell <= a <= b <= MaxCell
    ensures 2 <= ExportGap(a) <= ExportGap(b) <= 6
  {
    RoundMonotone(2.0, a * 0.25);
    RoundMonotone(a * 0.25, b * 0.25);
    RoundMonotone(b * 0.25, 6.0);
    RoundOfInteger(2);
    RoundOfInteger(6);
  }
}

/** The PNG emitter as the sequence of `fillRect` commands it issues on a 2D
    canvas context: the background first, then one square per cell in
    row-major order. Creating the canvas, encoding it and the download link
    are left to the browser. */
module ExportToPng {
  import opened Wrappers
  import opened Grids
  import opened ColorScale
  import opened Geometry

  /** One `fillRect(x, y, width, height)` call with the `fillStyle` current at that moment. */
  datatype Fill = Fill(x: int, y: int, width: int, height: int, color: string)

  /** The canvas that would be encoded: its size and the fills drawn on it. */
  datatype Raster = Raster(width: nat, height: nat, fills: seq<Fill>)

  /** The part of `CanvasRenderingContext2D` the emitter uses. */
  class Context2D {
    var fillStyle: string
    var fills: seq<Fill>

    /** A fresh context: nothing drawn, the default black fill style. */
    constructor ()
      ensures fillStyle == "#000000" && fills == []
    {
      fillStyle := "#000000";
      fills := [];
    }

    /** `fillRect` paints with the current fill style. */
    method FillRect(x: int, y: int, width: int, height: int)
      modifies this
      ensures fills == old(fills) + [Fill(x, y, width, height, fillStyle)]
      ensures fillStyle == old(fillStyle)
    {
      fills := fills + [Fill(x, y, width, height, fillStyle)];
    }
  }

  /** The square drawn for cell (row, col). */
  function CellFill(grid: Grid, row: nat, col: nat, cellSize: nat, gap: nat, palette: Palette): Fill
    requires row < |grid| && col < |grid[row]|
  {
    Fill(CellOrigin(col, cellSize, gap), CellOrigin(row, cellSize, gap), cellSize, cellSize,
      ColorForLevel(grid[row][col], palette))
  }

  /** The cell squares, one row of the table per grid row. */
  function CellFills(grid: Grid, cellSize: nat, gap: nat, palette: Palette): (t: seq<seq<Fill>>)
    requires IsRectangular(grid)
    ensures |t| == |grid| && forall r :: 0 <= r < |t| ==> |t[r]| == Width(grid)
  {
    seq(|grid|, r requires 0 <= r < |grid| =>
      seq(Width(grid), c requires 0 <= c < Width(grid) => CellFill(grid, r, c, cellSize, gap, palette)))
  }

  /** Everything drawn: the full-size background, then the cells row by row. */
  function PngFills(grid: Grid, cellSize: nat, gap: nat, palette: Palette, backgroundColor: string): seq<Fill>
    requires IsRectangular(grid)
  {
    var w := CanvasExtent(Width(grid), cellSize, gap);
    var h := CanvasExtent(|grid|, cellSize, gap);
    [Fill(0, 0, w, h, backgroundColor)] + Flatten(CellFills(grid, cellSize, gap, palette))
  }

  /** `exportGridToPng(grid, options)`: no output for an empty grid or when no
      2D context is available (`contextAvailable` stands for `getContext("2d")`
      returning a context). */
  method ExportGridToPng(grid: Grid, cellSize: nat, gap: nat, palette: Palette, backgroundColor: string,
    contextAvailable: bool) returns (out: Option<Raster>)
    requires IsRectangular(grid)
    ensures Width(grid) == 0 || |grid| == 0 || !contextAvailable ==> out == None
    ensures Width(grid) > 0 && |grid| > 0 && contextAvailable ==>
      out == Some(Raster(CanvasExtent(Width(grid), cellSize, gap), CanvasExtent(|grid|, cellSize, gap),
        PngFills(grid, cellSize, gap, palette, backgroundColor)))
  {
    var width := Width(grid);
    var height := |grid|;
    if width == 0 || height == 0 {
      return None;
    }
    var canvasWidth := width * (cellSize + gap) + gap;
    var canvasHeight := height * (cellSize + gap) + gap;
    ghost var background := Fill(0, 0, canvasWidth, canvasHeight, backgroundColor);
    assert [background] + Flatten(CellFills(grid, cellSize, gap, palette))
      == PngFills(grid, cellSize, gap, palette, backgroundColor);
    if !contextAvailable {
      return None;
    }
    var context := new Context2D();
    context.fillStyle := backgroundColor;
    context.FillRect(0, 0, canvasWidth, canvasHeight);
    ghost var table := CellFills(grid, cellSize, gap, palette);
    var row := 0;
    while row < height
      invariant 0 <= row <= height
      invariant context.fills == [background] + Flatten(table[..row])
    {
      DrawRow(context, grid, row, cellSize, gap, palette);
      FlattenSnoc(table, row);
      row := row + 1;
    }
    assert table[..height] == table;
    return Some(Raster(canvasWidth, canvasHeight, context.fills));
  }

  /** The inner loop of the emitter: the squares of one grid row, left to right. */
  method DrawRow(context: Context2D, grid: Grid, row: nat, cellSize: nat, gap: nat, palette: Palette)
    requires IsRectangular(grid) && row < |grid|
    modifies context
    ensures context.fills == old(context.fills) + CellFills(grid, cellSize, gap, palette)[row]
    ensures Width(grid) == 0 ==> context.fillStyle == old(context.fillStyle)
    ensures Width(grid) > 0 ==> context.fillStyle == ColorForLevel(grid[row][Width(grid) - 1], palette)
  {
    ghost var cells := CellFills(grid, cellSize, gap, palette)[row];
    var width := Width(grid);
    var col := 0;
    while col < width
      invariant 0 <= col <= width
      invariant context.fills == old(context.fills) + cells[..col]
      invariant col == 0 ==> context.fillStyle == old(context.fillStyle)
      invariant col > 0 ==> context.fillStyle == ColorForLevel(grid[row][col - 1], palette)
    {
      context.fillStyle := ColorForLevel(grid[row][col], palette);
      var x := col * (cellSize + gap) + gap;
      var y := row * (cellSize + gap) + gap;
      assert cells[col] == Fill(x, y, cellSize, cellSize, context.fillStyle);
      context.FillRect(x, y, cellSize, cellSize);
      assert cells[..col + 1] == cells[..col] + [cells[col]];
      col := col + 1;
    }
    assert cells[..width] == cells;
  }

  /** One background fill and exactly rows x cols cell fills. */
  lemma PngFillCount(grid: Grid, cellSize: nat, gap: nat, palette: Palette, backgroundColor: string)
    requires IsRectangular(grid)
    ensures |PngFills(grid, cellSize, gap, palette, backgroundColor)| == 1 + |grid| * Width(grid)
  {
    FlattenLength(CellFills(grid, cellSize, gap, palette), Width(grid));
  }

  /** The first fill covers the whole canvas in the background colour. */
  lemma PngBackgroundFirst(grid: Grid, cellSize: nat, gap: nat, palette: Palette, backgroundColor: string)
    requires IsRectangular(grid)
    ensures PngFills(grid, cellSize, gap, palette, backgroundColor)[0] ==
      Fill(0, 0, CanvasExtent(Width(grid), cellSize, gap), CanvasExtent(|grid|, cellSize, gap), backgroundColor)
  {
  }

  /** Fill number `1 + row * cols + col` paints cell (row, col): at
      `(col * (cell + gap) + gap, row * (cell + gap) + gap)`, `cell` square, in
      the palette colour of the cell's level; and it lies inside the canvas. */
  lemma PngCellFill(grid: Grid, cellSize: nat, gap: nat, palette: Palette, backgroundColor: string,
    row: nat, col: nat)
    requires IsRectangular(grid) && row < |grid| && col < Width(grid)
    ensures var fills := PngFills(grid, cellSize, gap, palette, backgroundColor);
      1 + row * Width(grid) + col < |fills| &&
      fills[1 + row * Width(grid) + col] == Fill(col * (cellSize + gap) + gap, row * (cellSize + gap) + gap,
        cellSize, cellSize, ColorForLevel(grid[row][col], palette))
    ensures CellOrigin(col, cellSize, gap) + cellSize <= CanvasExtent(Width(grid), cellSize, gap)
    ensures CellOrigin(row, cellSize, gap) + cellSize <= CanvasExtent(|grid|, cellSize, gap)
  {
    var table := CellFills(grid, cellSize, gap, palette);
    FlattenAt(table, Width(grid), row, col);
    CellInsideCanvas(col, Width(grid), cellSize, gap);
    CellInsideCanvas(row, |grid|, cellSize, gap);
  }
}

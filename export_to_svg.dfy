/** The SVG emitter: XML escaping, one `<rect>` per cell in row-major order,
    and the final document text. Handing the text to a Blob and a download
    link is left to the browser. */
module ExportToSvg {
  import opened Wrappers
  import opened Numbers
  import opened Strings
  import opened Grids
  import opened HexColor
  import opened ColorScale
  import opened Geometry

  /** `escapeXml(value)`: five global replacements, `&` first. */
  function EscapeXml(value: string): string
  {
    ReplaceAll(ReplaceAll(ReplaceAll(ReplaceAll(ReplaceAll(value, '&', "&amp;"), '<', "&lt;"), '>', "&gt;"),
      '"', "&quot;"), '\'', "&apos;")
  }

  /** The entity for one character, or the character itself. */
  function EscapeChar(c: char): string
  {
    if c == '&' then "&amp;"
    else if c == '<' then "&lt;"
    else if c == '>' then "&gt;"
    else if c == '"' then "&quot;"
    else if c == '\'' then "&apos;"
    else [c]
  }

  /** Escaping character by character. */
  function EscapeEach(s: string): string
  {
    if s == [] then [] else EscapeChar(s[0]) + EscapeEach(s[1..])
  }

  predicate IsSpecial(c: char)
  {
    c == '&' || c == '<' || c == '>' || c == '"' || c == '\''
  }

  /** Reads the five entities back; any other character stands for itself. */
  function Unescape(s: string): string
  {
    if s == [] then []
    else if "&amp;" <= s then "&" + Unescape(s[5..])
    else if "&lt;" <= s then "<" + Unescape(s[4..])
    else if "&gt;" <= s then ">" + Unescape(s[4..])
    else if "&quot;" <= s then "\"" + Unescape(s[6..])
    else if "&apos;" <= s then "'" + Unescape(s[6..])
    else [s[0]] + Unescape(s[1..])
  }

  lemma ReplaceAllOne(c: char, d: char, rep: string)
    ensures ReplaceAll([c], d, rep) == if c == d then rep else [c]
  {
    assert [c][1..] == [];
  }

  lemma EscapeXmlConcat(a: string, b: string)
    ensures EscapeXml(a + b) == EscapeXml(a) + EscapeXml(b)
  {
    var a1, b1 := ReplaceAll(a, '&', "&amp;"), ReplaceAll(b, '&', "&amp;");
    ReplaceAllConcat(a, b, '&', "&amp;");
    var a2, b2 := ReplaceAll(a1, '<', "&lt;"), ReplaceAll(b1, '<', "&lt;");
    ReplaceAllConcat(a1, b1, '<', "&lt;");
    var a3, b3 := ReplaceAll(a2, '>', "&gt;"), ReplaceAll(b2, '>', "&gt;");
    ReplaceAllConcat(a2, b2, '>', "&gt;");
    var a4, b4 := ReplaceAll(a3, '"', "&quot;"), ReplaceAll(b3, '"', "&quot;");
    ReplaceAllConcat(a3, b3, '"', "&quot;");
    ReplaceAllConcat(a4, b4, '\'', "&apos;");
  }

  /** Replacing `&` first means no entity is escaped a second time: each
      character becomes exactly its own entity. */
  lemma EscapeXmlOne(c: char)
    ensures EscapeXml([c]) == EscapeChar(c)
  {
    ReplaceAllOne(c, '&', "&amp;");
    if c == '&' {
      AfterAmp("&amp;");
    } else {
      ReplaceAllOne(c, '<', "&lt;");
      if c == '<' {
        AfterLt("&lt;");
      } else {
        ReplaceAllOne(c, '>', "&gt;");
        if c == '>' {
          AfterGt("&gt;");
        } else {
          ReplaceAllOne(c, '"', "&quot;");
          ReplaceAllOne(c, '\'', "&apos;");
          if c == '"' {
            ReplaceAllAbsent("&quot;", '\'', "&apos;");
          }
        }
      }
    }
  }

  /** Text the `&` replacement produced passes the remaining four unchanged
      when it holds none of their characters; likewise for the later steps. */
  lemma AfterAmp(e: string)
    requires '<' !in e && '>' !in e && '"' !in e && '\'' !in e
    ensures ReplaceAll(ReplaceAll(ReplaceAll(ReplaceAll(e, '<', "&lt;"), '>', "&gt;"), '"', "&quot;"), '\'', "&apos;") == e
  {
    ReplaceAllAbsent(e, '<', "&lt;");
    AfterLt(e);
  }

  lemma AfterLt(e: string)
    requires '>' !in e && '"' !in e && '\'' !in e
    ensures ReplaceAll(ReplaceAll(ReplaceAll(e, '>', "&gt;"), '"', "&quot;"), '\'', "&apos;") == e
  {
    ReplaceAllAbsent(e, '>', "&gt;");
    AfterGt(e);
  }

  lemma AfterGt(e: string)
    requires '"' !in e && '\'' !in e
    ensures ReplaceAll(ReplaceAll(e, '"', "&quot;"), '\'', "&apos;") == e
  {
    ReplaceAllAbsent(e, '"', "&quot;");
    ReplaceAllAbsent(e, '\'', "&apos;");
  }

  /** The chained replacements agree with escaping character by character. */
  lemma {:induction false} EscapeXmlPerChar(s: string)
    ensures EscapeXml(s) == EscapeEach(s)
    decreases |s|
  {
    if s != [] {
      assert s == [s[0]] + s[1..];
      EscapeXmlConcat([s[0]], s[1..]);
      EscapeXmlOne(s[0]);
      EscapeXmlPerChar(s[1..]);
    } else {
      assert EscapeXml(s) == [];
    }
  }

  lemma UnescapeEntity(c: char, t: string)
    ensures Unescape(EscapeChar(c) + t) == [c] + Unescape(t)
  {
    var e := EscapeChar(c) + t;
    if c == '&' {
      assert "&amp;" <= e && e[5..] == t;
    } else if c == '<' {
      assert !("&amp;" <= e) by { assert e[1] == 'l'; }
      assert "&lt;" <= e && e[4..] == t;
    } else if c == '>' {
      assert !("&amp;" <= e) by { assert e[1] == 'g'; }
      assert !("&lt;" <= e) by { assert e[1] == 'g'; }
      assert "&gt;" <= e && e[4..] == t;
    } else if c == '"' {
      assert !("&amp;" <= e) by { assert e[1] == 'q'; }
      assert !("&lt;" <= e) by { assert e[1] == 'q'; }
      assert !("&gt;" <= e) by { assert e[1] == 'q'; }
      assert "&quot;" <= e && e[6..] == t;
    } else if c == '\'' {
      assert !("&amp;" <= e) && !("&quot;" <= e) by { assert e[1] == 'a' && e[2] == 'p'; }
      assert !("&lt;" <= e) && !("&gt;" <= e) by { assert e[1] == 'a'; }
      assert "&apos;" <= e && e[6..] == t;
    } else {
      assert e[0] == c && e[1..] == t;
    }
  }

  /** Escaping loses nothing: reading the entities back gives the input. */
  lemma {:induction false} UnescapeEscape(s: string)
    ensures Unescape(EscapeXml(s)) == s
    decreases |s|
  {
    EscapeXmlPerChar(s);
    if s != [] {
      UnescapeEntity(s[0], EscapeEach(s[1..]));
      UnescapeEscape(s[1..]);
      EscapeXmlPerChar(s[1..]);
      assert [s[0]] + s[1..] == s;
    }
  }

  /** The escaped text holds no raw `<`, `>`, `"` or `'`. */
  lemma NoRawSpecials(s: string)
    ensures '<' !in EscapeXml(s) && '>' !in EscapeXml(s) && '"' !in EscapeXml(s) && '\'' !in EscapeXml(s)
  {
    var s1 := ReplaceAll(s, '&', "&amp;");
    var s2 := ReplaceAll(s1, '<', "&lt;");
    var s3 := ReplaceAll(s2, '>', "&gt;");
    var s4 := ReplaceAll(s3, '"', "&quot;");
    ReplaceAllKeepsAbsent(s2, '>', "&gt;", '<');
    ReplaceAllKeepsAbsent(s3, '"', "&quot;", '<');
    ReplaceAllKeepsAbsent(s3, '"', "&quot;", '>');
    ReplaceAllKeepsAbsent(s4, '\'', "&apos;", '<');
    ReplaceAllKeepsAbsent(s4, '\'', "&apos;", '>');
    ReplaceAllKeepsAbsent(s4, '\'', "&apos;", '"');
  }

  /** Text without any of the five characters passes through unchanged. */
  lemma EscapeIdentity(s: string)
    requires forall i :: 0 <= i < |s| ==> !IsSpecial(s[i])
    ensures EscapeXml(s) == s
  {
    ReplaceAllAbsent(s, '&', "&amp;");
    ReplaceAllAbsent(s, '<', "&lt;");
    ReplaceAllAbsent(s, '>', "&gt;");
    ReplaceAllAbsent(s, '"', "&quot;");
    ReplaceAllAbsent(s, '\'', "&apos;");
  }

  /** In particular a `#RRGGBB` colour is written as it is. */
  lemma HexUnchanged(s: string)
    requires IsHex(s)
    ensures EscapeXml(s) == s
  {
    forall i | 0 <= i < |s| ensures !IsSpecial(s[i]) {
      if i > 0 {
        assert s[i] == s[1..][i - 1];
      }
    }
    EscapeIdentity(s);
  }

  function Quoted(name: string, value: string): string
  {
    name + "=\"" + value + "\""
  }

  /** The `<rect>` element of one cell. */
  function CellRect(x: nat, y: nat, cellSize: nat, fill: string): string
  {
    "<rect " + Quoted("x", NatToDecimal(x)) + " " + Quoted("y", NatToDecimal(y)) + " "
      + Quoted("width", NatToDecimal(cellSize)) + " " + Quoted("height", NatToDecimal(cellSize))
      + " rx=\"2\" ry=\"2\" " + Quoted("fill", fill) + " />"
  }

  /** The rect of cell (row, col), filled with the escaped palette colour of its level. */
  function CellRectAt(grid: Grid, row: nat, col: nat, cellSize: nat, gap: nat, palette: Palette): string
    requires row < |grid| && col < |grid[row]|
  {
    CellRect(CellOrigin(col, cellSize, gap), CellOrigin(row, cellSize, gap), cellSize,
      EscapeXml(ColorForLevel(grid[row][col], palette)))
  }

  function CellRects(grid: Grid, cellSize: nat, gap: nat, palette: Palette): (t: seq<seq<string>>)
    requires IsRectangular(grid)
    ensures |t| == |grid| && forall r :: 0 <= r < |t| ==> |t[r]| == Width(grid)
  {
    seq(|grid|, r requires 0 <= r < |grid| =>
      seq(Width(grid), c requires 0 <= c < Width(grid) => CellRectAt(grid, r, c, cellSize, gap, palette)))
  }

  /** The full-size background rect. */
  function BackgroundRect(width: nat, height: nat, fill: string): string
  {
    "<rect x=\"0\" y=\"0\" " + Quoted("width", NatToDecimal(width)) + " " + Quoted("height", NatToDecimal(height))
      + " " + Quoted("fill", fill) + " />"
  }

  function SvgHeader(width: nat, height: nat): string
  {
    "<?xml version=\"1.0\" encoding=\"UTF-8\"?>\n<svg xmlns=\"http://www.w3.org/2000/svg\" "
      + Quoted("width", NatToDecimal(width)) + " " + Quoted("height", NatToDecimal(height)) + " "
      + Quoted("viewBox", "0 0 " + NatToDecimal(width) + " " + NatToDecimal(height))
      + " role=\"img\" aria-label=\"Contribution poster\">\n  "
  }

  /** The document: header, background rect, the cell rects joined by a
      newline and two spaces, and the closing tag. */
  function SvgDocument(width: nat, height: nat, backgroundColor: string, cells: seq<string>): string
  {
    SvgHeader(width, height) + BackgroundRect(width, height, EscapeXml(backgroundColor)) + "\n  "
      + Join(cells, "\n  ") + "\n</svg>"
  }

  /** `exportGridToSvg(grid, options)`: no document for an empty grid. */
  method ExportGridToSvg(grid: Grid, cellSize: nat, gap: nat, palette: Palette, backgroundColor: string)
    returns (out: Option<string>)
    requires IsRectangular(grid)
    ensures Width(grid) == 0 || |grid| == 0 ==> out == None
    ensures Width(grid) > 0 && |grid| > 0 ==>
      out == Some(SvgDocument(CanvasExtent(Width(grid), cellSize, gap), CanvasExtent(|grid|, cellSize, gap),
        backgroundColor, Flatten(CellRects(grid, cellSize, gap, palette))))
  {
    var width := Width(grid);
    var height := |grid|;
    if width == 0 || height == 0 {
      return None;
    }
    var svgWidth := width * (cellSize + gap) + gap;
    var svgHeight := height * (cellSize + gap) + gap;
    ghost var table := CellRects(grid, cellSize, gap, palette);
    var cells: seq<string> := [];
    var row := 0;
    while row < height
      invariant 0 <= row <= height
      invariant cells == Flatten(table[..row])
    {
      var rects := RowRects(grid, row, cellSize, gap, palette);
      cells := cells + rects;
      FlattenSnoc(table, row);
      row := row + 1;
    }
    assert table[..height] == table;
    return Some(SvgDocument(svgWidth, svgHeight, backgroundColor, cells));
  }

  /** The inner loop of the emitter: the rects one grid row pushes, left to right. */
  method RowRects(grid: Grid, row: nat, cellSize: nat, gap: nat, palette: Palette) returns (rects: seq<string>)
    requires IsRectangular(grid) && row < |grid|
    ensures rects == CellRects(grid, cellSize, gap, palette)[row]
  {
    ghost var expected := CellRects(grid, cellSize, gap, palette)[row];
    var width := Width(grid);
    rects := [];
    var col := 0;
    while col < width
      invariant 0 <= col <= width
      invariant rects == expected[..col]
    {
      var x := col * (cellSize + gap) + gap;
      var y := row * (cellSize + gap) + gap;
      var fill := EscapeXml(ColorForLevel(grid[row][col], palette));
      assert expected[col] == CellRect(x, y, cellSize, fill);
      rects := rects + [CellRect(x, y, cellSize, fill)];
      assert expected[..col + 1] == expected[..col] + [expected[col]];
      col := col + 1;
    }
    assert expected[..width] == expected;
  }

  /** Exactly rows x cols cell rects. */
  lemma SvgCellCount(grid: Grid, cellSize: nat, gap: nat, palette: Palette)
    requires IsRectangular(grid)
    ensures |Flatten(CellRects(grid, cellSize, gap, palette))| == |grid| * Width(grid)
  {
    FlattenLength(CellRects(grid, cellSize, gap, palette), Width(grid));
  }

  /** Rect number `row * cols + col` belongs to cell (row, col); with a palette
      of `#RRGGBB` colours its fill is the palette colour itself. */
  lemma SvgCellAt(grid: Grid, cellSize: nat, gap: nat, palette: Palette, row: nat, col: nat)
    requires IsRectangular(grid) && row < |grid| && col < Width(grid)
    ensures var cells := Flatten(CellRects(grid, cellSize, gap, palette));
      row * Width(grid) + col < |cells| &&
      cells[row * Width(grid) + col] == CellRect(col * (cellSize + gap) + gap, row * (cellSize + gap) + gap,
        cellSize, EscapeXml(ColorForLevel(grid[row][col], palette)))
    ensures (forall i :: 0 <= i < 5 ==> IsHex(palette[i])) ==>
      EscapeXml(ColorForLevel(grid[row][col], palette)) == ColorForLevel(grid[row][col], palette)
  {
    FlattenAt(CellRects(grid, cellSize, gap, palette), Width(grid), row, col);
    if forall i :: 0 <= i < 5 ==> IsHex(palette[i]) {
      HexUnchanged(palette[LevelIndex(grid[row][col])]);
    }
  }
}

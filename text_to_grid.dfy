/** The text rasteriser: stamps 5x7 glyphs into a rows x columns grid of 0/1,
    left to right, behind a column cursor, stopping once the cursor passes the
    right edge. */
module TextToGrid {
  import opened Numbers
  import opened Grids
  import opened Strings

  const FontWidth: nat := 5
  const FontHeight: nat := 7
  /** Longest text the rasteriser looks at. */
  const MaxTextLength: nat := 80

  /** One glyph of the 5x7 font: seven rows of five characters, '1' for a set pixel. */
  type Glyph = g: seq<string> | |g| == FontHeight && forall y :: 0 <= y < |g| ==> |g[y]| == FontWidth
    witness ["00000", "00000", "00000", "00000", "00000", "00000", "00000"]

  /** The glyph table `getGlyph`, supplied by the caller. */
  type Font = char -> Glyph

  predicate IsGlyphChar(c: char)
  {
    'A' <= c <= 'Z' || '0' <= c <= '9' || c == ' '
  }

  function NormalizeChar(c: char): char
  {
    var u := AsciiUpper(c);
    if IsGlyphChar(u) then u else ' '
  }

  /** Upper-case, every character outside A-Z, 0-9 and space made a space, then
      the first 80 characters. */
  function Normalize(input: string): (t: string)
    ensures |t| == if |input| < MaxTextLength then |input| else MaxTextLength
    ensures forall i :: 0 <= i < |t| ==> IsGlyphChar(t[i])
    ensures forall i :: 0 <= i < |t| && 'a' <= input[i] <= 'z' ==> t[i] as int == input[i] as int - 32
    ensures forall i :: 0 <= i < |t| && IsGlyphChar(input[i]) ==> t[i] == input[i]
    ensures forall i :: 0 <= i < |t| && !IsGlyphChar(input[i]) && !('a' <= input[i] <= 'z') ==> t[i] == ' '
  {
    var n := if |input| < MaxTextLength then |input| else MaxTextLength;
    seq(n, i requires 0 <= i < n => NormalizeChar(input[i]))
  }

  /** How many characters the loop stamps when it has not stopped before index
      `i`: it stops right after the first character that moves the cursor
      (`(i + 1) * step`) to `columns` or beyond. */
  function ProcessedFrom(n: nat, step: int, columns: int, i: nat): (k: nat)
    requires i <= n
    ensures i <= k <= n
    ensures i < n ==> i < k
    decreases n - i
  {
    if i == n then n
    else if (i + 1) * step >= columns then i + 1
    else ProcessedFrom(n, step, columns, i + 1)
  }

  function Processed(n: nat, step: int, columns: int): nat
  {
    ProcessedFrom(n, step, columns, 0)
  }

  /** Glyph `glyph` placed with its left edge at column `offset` has a set pixel at (y, x). */
  predicate HitAt(glyph: Glyph, offset: int, y: int, x: int)
  {
    0 <= y < FontHeight && offset <= x < offset + FontWidth && glyph[y][x - offset] == '1'
  }

  /** Some of the first `n` characters of `t` has a set pixel at (y, x). */
  ghost predicate Stamped(t: string, font: Font, step: int, n: nat, y: int, x: int)
    requires n <= |t|
  {
    exists j :: 0 <= j < n && HitAt(font(t[j]), j * step, y, x)
  }

  /** Stamping one more character adds exactly that character's pixels. */
  lemma StampedNext(t: string, font: Font, step: int, i: nat, y: int, x: int)
    requires i < |t|
    ensures Stamped(t, font, step, i + 1, y, x) <==>
      Stamped(t, font, step, i, y, x) || HitAt(font(t[i]), i * step, y, x)
  {
    if HitAt(font(t[i]), i * step, y, x) {
      assert Stamped(t, font, step, i + 1, y, x);
    } else if Stamped(t, font, step, i + 1, y, x) {
      var j :| 0 <= j < i + 1 && HitAt(font(t[j]), j * step, y, x);
      assert j < i;
    }
  }

  /** Cell (y, x) of the rasterised text is 1: it lies in the font's rows and the
      grid, and one of the processed characters has a set pixel there. */
  ghost predicate Lit(input: string, font: Font, columns: nat, rows: nat, spacing: int, y: int, x: int)
  {
    var t := Normalize(input);
    var step := FontWidth + spacing;
    0 <= y < rows && y < FontHeight && 0 <= x < columns &&
    Stamped(t, font, step, Processed(|t|, step, columns), y, x)
  }

  /** Stamps one glyph at column `cursor`, into the first `height` rows. */
  method Stamp(g: array2<real>, glyph: Glyph, cursor: int, height: nat)
    requires height <= FontHeight && height <= g.Length0
    modifies g
    ensures forall y, x :: 0 <= y < g.Length0 && 0 <= x < g.Length1 ==>
      g[y, x] == if y < height && HitAt(glyph, cursor, y, x) then 1.0 else old(g[y, x])
  {
    var y := 0;
    while y < height
      invariant 0 <= y <= height
      invariant forall yy, xx :: 0 <= yy < g.Length0 && 0 <= xx < g.Length1 ==>
        g[yy, xx] == if yy < y && HitAt(glyph, cursor, yy, xx) then 1.0 else old(g[yy, xx])
    {
      var x := 0;
      while x < FontWidth
        invariant 0 <= x <= FontWidth
        invariant forall yy, xx :: 0 <= yy < g.Length0 && 0 <= xx < g.Length1 ==>
          g[yy, xx] == if (yy < y && HitAt(glyph, cursor, yy, xx))
                          || (yy == y && cursor <= xx < cursor + x && HitAt(glyph, cursor, yy, xx))
                       then 1.0 else old(g[yy, xx])
      {
        var targetX := cursor + x;
        // A negative column (negative spacing) names no cell of the row.
        if 0 <= targetX < g.Length1 && glyph[y][x] == '1' {
          g[y, targetX] := 1.0;
        }
        x := x + 1;
      }
      y := y + 1;
    }
  }

  /** `textToContributionGrid(input, { columns, rows, characterSpacing })`. */
  method TextToContributionGrid(input: string, font: Font, columns: nat, rows: nat, characterSpacing: int)
    returns (grid: Grid)
    ensures |grid| == rows
    ensures forall y :: 0 <= y < rows ==> |grid[y]| == columns
    ensures forall y, x :: 0 <= y < rows && 0 <= x < columns ==>
      grid[y][x] == if Lit(input, font, columns, rows, characterSpacing, y, x) then 1.0 else 0.0
  {
    var t := Normalize(input);
    var step := FontWidth + characterSpacing;
    var height := if FontHeight < rows then FontHeight else rows;
    var g := new real[rows, columns]((_, _) => 0.0);
    var cursor := 0;
    var i := 0;
    var stop := false;
    while i < |t| && !stop
      invariant 0 <= i <= |t|
      invariant cursor == i * step
      invariant !stop ==> Processed(|t|, step, columns) == ProcessedFrom(|t|, step, columns, i)
      invariant stop ==> Processed(|t|, step, columns) == i
      invariant forall y, x :: 0 <= y < rows && 0 <= x < columns ==>
        g[y, x] == if y < height && Stamped(t, font, step, i, y, x) then 1.0 else 0.0
      decreases |t| - i
    {
      var glyph := font(t[i]);
      Stamp(g, glyph, cursor, height);
      forall y, x | 0 <= y < rows && 0 <= x < columns
        ensures g[y, x] == if y < height && Stamped(t, font, step, i + 1, y, x) then 1.0 else 0.0
      {
        StampedNext(t, font, step, i, y, x);
      }
      assert cursor + step == (i + 1) * step;
      cursor := cursor + step;
      stop := cursor >= columns;
      i := i + 1;
    }
    grid := seq(rows, y requires 0 <= y < rows reads g =>
              seq(columns, x requires 0 <= x < columns reads g => g[y, x]));
  }

  /** Empty text leaves every cell 0. */
  lemma EmptyTextIsBlank(font: Font, columns: nat, rows: nat, spacing: int, y: int, x: int)
    ensures !Lit("", font, columns, rows, spacing, y, x)
  {
  }

  /** With a positive step, character `i` is stamped exactly when it exists and
      either is the first one or the cursor before it, `i * step`, is still left
      of the edge. */
  lemma ProcessedIff(n: nat, step: int, columns: int, i: nat)
    requires step > 0
    ensures i < Processed(n, step, columns) <==> i < n && (i == 0 || i * step < columns)
  {
    ProcessedFromIff(n, step, columns, 0, i);
  }

  lemma {:induction false} ProcessedFromIff(n: nat, step: int, columns: int, k: nat, i: nat)
    requires step > 0 && k <= i && k <= n
    requires k == 0 || k * step < columns
    ensures i < ProcessedFrom(n, step, columns, k) <==> i < n && (i == 0 || i * step < columns)
    decreases n - k
  {
    if k == n {
    } else if (k + 1) * step >= columns {
      if i > k {
        assert i * step >= (k + 1) * step by { MulMonotone(k + 1, i, step); }
      }
    } else if i == k {
    } else {
      ProcessedFromIff(n, step, columns, k + 1, i);
    }
  }

  /** Once the cursor has reached the edge, no later character leaves a mark. */
  lemma StopsAtEdge(input: string, font: Font, columns: nat, rows: nat, spacing: int, i: nat, y: int, x: int)
    requires spacing >= 0
    requires 0 < i && i * (FontWidth + spacing) >= columns
    ensures Lit(input, font, columns, rows, spacing, y, x) ==>
      exists j :: 0 <= j < i && j < |Normalize(input)| && HitAt(font(Normalize(input)[j]), j * (FontWidth + spacing), y, x)
  {
    var t := Normalize(input);
    var step := FontWidth + spacing;
    var p := Processed(|t|, step, columns);
    if Lit(input, font, columns, rows, spacing, y, x) {
      var j :| 0 <= j < p && HitAt(font(t[j]), j * step, y, x);
      ProcessedIff(|t|, step, columns, j);
      if j >= i {
        MulMonotone(i, j, step);
        assert false;
      }
    }
  }

  /** With spacing s >= 0 the windows [i * (5 + s), i * (5 + s) + 5) of different
      characters do not overlap, so a cell inside the window of character `i`
      is set exactly by that character's glyph. */
  lemma {:induction false} LitInWindow(input: string, font: Font, columns: nat, rows: nat, spacing: int, i: nat, y: int, x: int)
    requires spacing >= 0
    requires 0 <= y < rows && y < FontHeight && 0 <= x < columns
    requires var step := FontWidth + spacing; i * step <= x < i * step + FontWidth
    ensures var t := Normalize(input); var step := FontWidth + spacing;
      Lit(input, font, columns, rows, spacing, y, x) <==>
      i < Processed(|t|, step, columns) && font(t[i])[y][x - i * step] == '1'
  {
    var t := Normalize(input);
    var step := FontWidth + spacing;
    var p := Processed(|t|, step, columns);
    if Lit(input, font, columns, rows, spacing, y, x) {
      var j :| 0 <= j < p && HitAt(font(t[j]), j * step, y, x);
      WindowsDisjoint(step, i, j, x);
    }
    if i < p && font(t[i])[y][x - i * step] == '1' {
      assert HitAt(font(t[i]), i * step, y, x);
    }
  }

  lemma WindowsDisjoint(step: int, i: nat, j: nat, x: int)
    requires step >= FontWidth
    requires i * step <= x < i * step + FontWidth
    requires j * step <= x < j * step + FontWidth
    ensures i == j
  {
    if i < j {
      MulMonotone(i + 1, j, step);
    } else if j < i {
      MulMonotone(j + 1, i, step);
    }
  }

  /** The `spacing` columns after each glyph window stay 0. */
  lemma SpacingColumnsBlank(input: string, font: Font, columns: nat, rows: nat, spacing: int, i: nat, y: int, x: int)
    requires spacing >= 0
    requires var step := FontWidth + spacing; i * step + FontWidth <= x < (i + 1) * step
    ensures !Lit(input, font, columns, rows, spacing, y, x)
  {
    var t := Normalize(input);
    var step := FontWidth + spacing;
    if Lit(input, font, columns, rows, spacing, y, x) {
      var j :| 0 <= j < Processed(|t|, step, columns) && HitAt(font(t[j]), j * step, y, x);
      if j <= i {
        MulMonotone(j, i, step);
      } else {
        MulMonotone(i + 1, j, step);
      }
      assert false;
    }
  }

  /** "HI" on 20 columns with spacing 1: the H occupies columns 0-4, the I
      columns 6-10, and no other cell is set. */
  lemma HiExample(font: Font, y: int, x: int)
    requires 0 <= y < FontHeight
    ensures Lit("HI", font, 20, 7, 1, y, x) <==>
      (0 <= x < 5 && font('H')[y][x] == '1') || (6 <= x < 11 && font('I')[y][x - 6] == '1')
  {
    var t := Normalize("HI");
    assert t == "HI";
    assert Processed(2, 6, 20) == 2;
    if Lit("HI", font, 20, 7, 1, y, x) {
      var j :| 0 <= j < 2 && HitAt(font(t[j]), j * 6, y, x);
    }
    if 0 <= x < 5 && font('H')[y][x] == '1' {
      assert HitAt(font(t[0]), 0 * 6, y, x);
    }
    if 6 <= x < 11 && font('I')[y][x - 6] == '1' {
      assert HitAt(font(t[1]), 1 * 6, y, x);
    }
  }
}

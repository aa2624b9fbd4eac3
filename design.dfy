/** The design codec: a first-failure validator over a parsed JSON document,
    a serialiser that derives `rows` and `cols` from the grid, and a
    deserialiser that reports the validator's message. JSON text itself is
    not modelled: a document is the `Json` value that `JSON.parse` yields and
    that `JSON.stringify` writes. */
module Design {
  import opened Wrappers
  import opened Grids
  import opened HexColor
  import opened ColorScale

  /** A parsed JSON value. Numbers are exact reals: a literal too large for a
      double, which `JSON.parse` reads as `Infinity`, is an ordinary number here. */
  datatype Json =
    | JNull
    | JBool(b: bool)
    | JNumber(n: real)
    | JString(s: string)
    | JArray(items: seq<Json>)
    | JObject(fields: map<string, Json>)

  /** Property lookup `value.key`: own fields of an object. The validator's
      `typeof data === "object"` test also admits arrays, which carry none of
      the keys the codec reads, so every lookup on an array is missing. */
  function Field(j: Json, key: string): Option<Json>
  {
    if j.JObject? && key in j.fields then Some(j.fields[key]) else None
  }

  const ObjectMessage := "Design must be an object."
  const TextMessage := "text must be a string."
  const GridMessage := "grid must be a non-empty 2D array."
  const RowsMessage := "rows must be a positive integer."
  const ColsMessage := "cols must be a positive integer."
  const HeightMessage := "rows does not match grid height."
  const WidthMessage := "cols does not match grid width."
  const CellMessage := "grid values must be non-negative numbers."
  const CellSizeMessage := "cellSize must be a positive number."
  const ThemeMessage := "theme is required."
  const ThemeColorsMessage := "theme colors must be valid hex values."
  const CreatedAtMessage := "createdAt must be a valid ISO date string."

  /** Every message the validator can report, in the order of its checks. */
  const Messages: seq<string> := [ObjectMessage, TextMessage, GridMessage, RowsMessage, ColsMessage,
    HeightMessage, WidthMessage, CellMessage, CellSizeMessage, ThemeMessage, ThemeColorsMessage,
    CreatedAtMessage]

  /** `{ ok }` or `{ ok: false, error }`. */
  datatype Validation = Accepted | Rejected(error: string)

  /** The keys of the theme, in the order they are checked. */
  const ThemeKeys: seq<string> := ["level1", "level2", "level3", "level4", "level5", "background"]

  /** Truthy and `typeof ... === "object"`: an object or an array. */
  predicate IsObjectLike(j: Json)
  {
    j.JObject? || j.JArray?
  }

  predicate IsStringField(o: Option<Json>)
  {
    o.Some? && o.value.JString?
  }

  /** A non-empty array whose every element is an array. */
  predicate IsGridShape(o: Option<Json>)
  {
    o.Some? && o.value.JArray? && |o.value.items| > 0 &&
    forall i :: 0 <= i < |o.value.items| ==> o.value.items[i].JArray?
  }

  /** A number, `Number.isInteger`, and greater than zero. */
  predicate IsPositiveInteger(o: Option<Json>)
  {
    o.Some? && o.value.JNumber? && o.value.n == o.value.n.Floor as real && o.value.n > 0.0
  }

  /** A number (finite by construction) greater than zero. */
  predicate IsPositiveNumber(o: Option<Json>)
  {
    o.Some? && o.value.JNumber? && o.value.n > 0.0
  }

  /** A finite number that is not negative. */
  predicate CellOk(c: Json)
  {
    c.JNumber? && c.n >= 0.0
  }

  /** A row of the expected width whose every cell is acceptable. */
  predicate RowOk(row: Json, cols: real)
    requires row.JArray?
  {
    |row.items| as real == cols && forall k :: 0 <= k < |row.items| ==> CellOk(row.items[k])
  }

  /** The row scan: rows in order, for each first its width and then its
      cells; the first failing row decides the message. */
  function CheckRows(rows: seq<Json>, cols: real): (v: Validation)
    requires forall i :: 0 <= i < |rows| ==> rows[i].JArray?
    ensures v == Accepted || v == Rejected(WidthMessage) || v == Rejected(CellMessage)
  {
    if rows == [] then Accepted
    else if |rows[0].items| as real != cols then Rejected(WidthMessage)
    else if exists k :: 0 <= k < |rows[0].items| && !CellOk(rows[0].items[k]) then Rejected(CellMessage)
    else CheckRows(rows[1..], cols)
  }

  predicate ThemeColorsOk(theme: Json)
  {
    forall i :: 0 <= i < |ThemeKeys| ==>
      IsStringField(Field(theme, ThemeKeys[i])) && IsHex(Field(theme, ThemeKeys[i]).value.s)
  }

  predicate IsDateField(o: Option<Json>, dateOk: string -> bool)
  {
    o.Some? && o.value.JString? && dateOk(o.value.s)
  }

  /** `validateDesign(data)`; `dateOk` stands for `!Number.isNaN(Date.parse(s))`. */
  function Validate(data: Json, dateOk: string -> bool): (v: Validation)
    ensures v.Rejected? ==> v.error in Messages
  {
    if !IsObjectLike(data) then Rejected(ObjectMessage)
    else if !IsStringField(Field(data, "text")) then Rejected(TextMessage)
    else if !IsGridShape(Field(data, "grid")) then Rejected(GridMessage)
    else if !IsPositiveInteger(Field(data, "rows")) then Rejected(RowsMessage)
    else if !IsPositiveInteger(Field(data, "cols")) then Rejected(ColsMessage)
    else if |Field(data, "grid").value.items| as real != Field(data, "rows").value.n then Rejected(HeightMessage)
    else if CheckRows(Field(data, "grid").value.items, Field(data, "cols").value.n).Rejected? then
      CheckRows(Field(data, "grid").value.items, Field(data, "cols").value.n)
    else if !IsPositiveNumber(Field(data, "cellSize")) then Rejected(CellSizeMessage)
    else if !(Field(data, "theme").Some? && IsObjectLike(Field(data, "theme").value)) then Rejected(ThemeMessage)
    else if !ThemeColorsOk(Field(data, "theme").value) then Rejected(ThemeColorsMessage)
    else if !IsDateField(Field(data, "createdAt"), dateOk) then Rejected(CreatedAtMessage)
    else Accepted
  }

  /** What an acceptable document is, stated all at once rather than as a
      sequence of checks. */
  predicate WellFormed(data: Json, dateOk: string -> bool)
  {
    data.JObject? &&
    IsStringField(Field(data, "text")) &&
    IsGridShape(Field(data, "grid")) &&
    IsPositiveInteger(Field(data, "rows")) &&
    IsPositiveInteger(Field(data, "cols")) &&
    |Field(data, "grid").value.items| as real == Field(data, "rows").value.n &&
    (forall i :: 0 <= i < |Field(data, "grid").value.items| ==>
      RowOk(Field(data, "grid").value.items[i], Field(data, "cols").value.n)) &&
    IsPositiveNumber(Field(data, "cellSize")) &&
    Field(data, "theme").Some? && Field(data, "theme").value.JObject? &&
    ThemeColorsOk(Field(data, "theme").value) &&
    IsDateField(Field(data, "createdAt"), dateOk)
  }

  /** The row scan accepts exactly when every row is acceptable. */
  lemma {:induction false} CheckRowsAcceptsIff(rows: seq<Json>, cols: real)
    requires forall i :: 0 <= i < |rows| ==> rows[i].JArray?
    ensures CheckRows(rows, cols) == Accepted <==> forall i :: 0 <= i < |rows| ==> RowOk(rows[i], cols)
  {
    if rows != [] {
      CheckRowsAcceptsIff(rows[1..], cols);
      if forall i :: 0 <= i < |rows| ==> RowOk(rows[i], cols) {
        assert RowOk(rows[0], cols);
        assert forall i :: 0 <= i < |rows[1..]| ==> RowOk(rows[1..][i], cols) by {
          forall i | 0 <= i < |rows[1..]| ensures RowOk(rows[1..][i], cols) {
            assert rows[1..][i] == rows[i + 1];
          }
        }
      }
      if CheckRows(rows, cols) == Accepted {
        forall i | 0 <= i < |rows| ensures RowOk(rows[i], cols) {
          if i > 0 {
            assert rows[i] == rows[1..][i - 1];
          }
        }
      }
    }
  }

  /** The first unacceptable row decides the message, whatever follows it:
      the width message when its width is wrong, the cell message otherwise. */
  lemma {:induction false} CheckRowsFirstFailure(rows: seq<Json>, cols: real, i: nat)
    requires forall r :: 0 <= r < |rows| ==> rows[r].JArray?
    requires i < |rows| && !RowOk(rows[i], cols)
    requires forall r :: 0 <= r < i ==> RowOk(rows[r], cols)
    ensures CheckRows(rows, cols) ==
      if |rows[i].items| as real != cols then Rejected(WidthMessage) else Rejected(CellMessage)
  {
    if i > 0 {
      assert RowOk(rows[0], cols);
      forall r | 0 <= r < i - 1 ensures RowOk(rows[1..][r], cols) {
        assert rows[1..][r] == rows[r + 1];
      }
      assert rows[1..][i - 1] == rows[i];
      CheckRowsFirstFailure(rows[1..], cols, i - 1);
    } else if |rows[0].items| as real == cols {
      var k :| 0 <= k < |rows[0].items| && !CellOk(rows[0].items[k]);
    }
  }

  /** The validator accepts exactly the well-formed documents. */
  lemma ValidateAcceptsIff(data: Json, dateOk: string -> bool)
    ensures Validate(data, dateOk) == Accepted <==> WellFormed(data, dateOk)
  {
    if IsObjectLike(data) && IsStringField(Field(data, "text")) && IsGridShape(Field(data, "grid"))
      && IsPositiveInteger(Field(data, "cols"))
    {
      CheckRowsAcceptsIff(Field(data, "grid").value.items, Field(data, "cols").value.n);
      var theme := Field(data, "theme");
      if theme.Some? && theme.value.JArray? {
        assert !IsStringField(Field(theme.value, ThemeKeys[0]));
      }
    }
  }

  /** `DesignTheme`. */
  datatype DesignTheme = DesignTheme(level1: string, level2: string, level3: string, level4: string,
    level5: string, background: string)

  /** `DesignSchema`. */
  datatype DesignSchema = DesignSchema(text: string, grid: Grid, rows: int, cols: int, cellSize: real,
    theme: DesignTheme, createdAt: string)

  function ThemeColors(t: DesignTheme): seq<string>
  {
    [t.level1, t.level2, t.level3, t.level4, t.level5, t.background]
  }

  /** What an accepted document promises once read as a schema. */
  predicate ValidDesign(d: DesignSchema, dateOk: string -> bool)
  {
    d.rows > 0 && d.cols > 0 && |d.grid| == d.rows &&
    (forall r :: 0 <= r < |d.grid| ==> |d.grid[r]| == d.cols) &&
    (forall r, c :: 0 <= r < |d.grid| && 0 <= c < |d.grid[r]| ==> d.grid[r][c] >= 0.0) &&
    d.cellSize > 0.0 &&
    (forall i :: 0 <= i < 6 ==> IsHex(ThemeColors(d.theme)[i])) &&
    dateOk(d.createdAt)
  }

  function GridToJson(g: Grid): Json
  {
    JArray(seq(|g|, r requires 0 <= r < |g| => JArray(seq(|g[r]|, c requires 0 <= c < |g[r]| => JNumber(g[r][c])))))
  }

  function ThemeToJson(t: DesignTheme): Json
  {
    JObject(map["level1" := JString(t.level1), "level2" := JString(t.level2), "level3" := JString(t.level3),
      "level4" := JString(t.level4), "level5" := JString(t.level5), "background" := JString(t.background)])
  }

  /** The object `JSON.stringify` writes for a schema. */
  function DesignToJson(d: DesignSchema): Json
  {
    JObject(map["text" := JString(d.text), "grid" := GridToJson(d.grid), "rows" := JNumber(d.rows as real),
      "cols" := JNumber(d.cols as real), "cellSize" := JNumber(d.cellSize), "theme" := ThemeToJson(d.theme),
      "createdAt" := JString(d.createdAt)])
  }

  /** The document holds the schema's values under the schema's keys (it may
      hold other keys too: the parsed value is returned as it is). */
  predicate Describes(j: Json, d: DesignSchema)
  {
    Field(j, "text") == Some(JString(d.text)) &&
    Field(j, "grid") == Some(GridToJson(d.grid)) &&
    Field(j, "rows") == Some(JNumber(d.rows as real)) &&
    Field(j, "cols") == Some(JNumber(d.cols as real)) &&
    Field(j, "cellSize") == Some(JNumber(d.cellSize)) &&
    Field(j, "theme").Some? &&
    (forall i :: 0 <= i < 6 ==> Field(Field(j, "theme").value, ThemeKeys[i]) == Some(JString(ThemeColors(d.theme)[i]))) &&
    Field(j, "createdAt") == Some(JString(d.createdAt))
  }

  /** `serializeDesign(input)`, with `now` for `new Date().toISOString()`. */
  function SerializeDesign(text: string, grid: Grid, cellSize: real, palette: Palette, background: string,
    now: string): (j: Json)
    ensures Field(j, "rows") == Some(JNumber(|grid| as real))
    ensures Field(j, "cols") == Some(JNumber(Width(grid) as real))
    ensures Describes(j, DesignSchema(text, grid, |grid|, Width(grid), cellSize,
      DesignTheme(palette[0], palette[1], palette[2], palette[3], palette[4], background), now))
    ensures j.JObject? && j.fields.Keys == {"text", "grid", "rows", "cols", "cellSize", "theme", "createdAt"}
    ensures j.fields["theme"].JObject? &&
      j.fields["theme"].fields.Keys == {"level1", "level2", "level3", "level4", "level5", "background"}
  {
    var d := DesignSchema(text, grid, |grid|, Width(grid), cellSize,
      DesignTheme(palette[0], palette[1], palette[2], palette[3], palette[4], background), now);
    var j := DesignToJson(d);
    assert Field(j, "theme") == Some(ThemeToJson(d.theme));
    j
  }

  function GridFromJson(rows: seq<Json>): Grid
    requires forall r :: 0 <= r < |rows| ==>
      rows[r].JArray? && forall c :: 0 <= c < |rows[r].items| ==> rows[r].items[c].JNumber?
  {
    seq(|rows|, r requires 0 <= r < |rows| =>
      seq(|rows[r].items|, c requires 0 <= c < |rows[r].items| => rows[r].items[c].n))
  }

  function TextOf(o: Option<Json>): string
  {
    if o.Some? && o.value.JString? then o.value.s else ""
  }

  /** Reads a well-formed document as a schema; `parsed as DesignSchema`. */
  function SchemaOf(data: Json, dateOk: string -> bool): DesignSchema
    requires WellFormed(data, dateOk)
  {
    var grid := Field(data, "grid").value.items;
    var theme := Field(data, "theme").value;
    DesignSchema(
      Field(data, "text").value.s,
      GridFromJson(grid),
      Field(data, "rows").value.n.Floor,
      Field(data, "cols").value.n.Floor,
      Field(data, "cellSize").value.n,
      DesignTheme(TextOf(Field(theme, "level1")), TextOf(Field(theme, "level2")), TextOf(Field(theme, "level3")),
        TextOf(Field(theme, "level4")), TextOf(Field(theme, "level5")), TextOf(Field(theme, "background"))),
      Field(data, "createdAt").value.s)
  }

  /** `deserializeDesign(json)` on the parsed value: the validator's message
      as the failure, otherwise the document read as a schema. */
  function DeserializeDesign(parsed: Json, dateOk: string -> bool): (r: Result<DesignSchema, string>)
    ensures r.Failure? <==> Validate(parsed, dateOk).Rejected?
    ensures r.Failure? ==> r.error == Validate(parsed, dateOk).error
    ensures r.Success? ==> Describes(parsed, r.value) && ValidDesign(r.value, dateOk)
  {
    var v := Validate(parsed, dateOk);
    if v.Rejected? then Failure(v.error)
    else
      ValidateAcceptsIff(parsed, dateOk);
      SchemaOfDescribes(parsed, dateOk);
      Success(SchemaOf(parsed, dateOk))
  }

  lemma SchemaOfDescribes(data: Json, dateOk: string -> bool)
    requires WellFormed(data, dateOk)
    ensures Describes(data, SchemaOf(data, dateOk)) && ValidDesign(SchemaOf(data, dateOk), dateOk)
  {
    var d := SchemaOf(data, dateOk);
    var grid := Field(data, "grid").value.items;
    var cols := Field(data, "cols").value.n;
    assert GridToJson(d.grid).items == grid by {
      forall r | 0 <= r < |grid| ensures GridToJson(d.grid).items[r] == grid[r] {
        assert RowOk(grid[r], cols);
        assert GridToJson(d.grid).items[r].items == grid[r].items;
      }
    }
    forall r | 0 <= r < |d.grid| ensures |d.grid[r]| == d.cols {
      assert RowOk(grid[r], cols);
    }
    forall r, c | 0 <= r < |d.grid| && 0 <= c < |d.grid[r]| ensures d.grid[r][c] >= 0.0 {
      assert RowOk(grid[r], cols);
      assert CellOk(grid[r].items[c]);
    }
    var theme := Field(data, "theme").value;
    forall i | 0 <= i < 6
      ensures Field(theme, ThemeKeys[i]) == Some(JString(ThemeColors(d.theme)[i]))
      ensures IsHex(ThemeColors(d.theme)[i])
    {
      assert IsStringField(Field(theme, ThemeKeys[i]));
    }
  }

  /** A non-empty rectangular grid of non-negative cells as written. */
  predicate Storable(grid: Grid)
  {
    |grid| > 0 && Width(grid) > 0 && IsRectangular(grid) &&
    forall r, c :: 0 <= r < |grid| && 0 <= c < |grid[r]| ==> grid[r][c] >= 0.0
  }

  /** A design serialised from a non-empty rectangular grid of non-negative
      cells, a positive cell size, hex colours and a valid timestamp reads
      back as exactly the schema that was written. */
  lemma RoundTrip(text: string, grid: Grid, cellSize: real, palette: Palette, background: string,
    now: string, dateOk: string -> bool)
    requires Storable(grid)
    requires cellSize > 0.0
    requires forall i :: 0 <= i < 5 ==> IsHex(palette[i])
    requires IsHex(background) && dateOk(now)
    ensures DeserializeDesign(SerializeDesign(text, grid, cellSize, palette, background, now), dateOk) ==
      Success(DesignSchema(text, grid, |grid|, Width(grid), cellSize,
        DesignTheme(palette[0], palette[1], palette[2], palette[3], palette[4], background), now))
  {
    var theme := DesignTheme(palette[0], palette[1], palette[2], palette[3], palette[4], background);
    var d := DesignSchema(text, grid, |grid|, Width(grid), cellSize, theme, now);
    assert forall i :: 0 <= i < 6 ==> IsHex(ThemeColors(theme)[i]);
    SerializedWellFormed(d, dateOk);
    ValidateAcceptsIff(DesignToJson(d), dateOk);
    SchemaOfWritten(d, dateOk);
  }

  lemma SerializedWellFormed(d: DesignSchema, dateOk: string -> bool)
    requires Storable(d.grid) && d.rows == |d.grid| && d.cols == Width(d.grid)
    requires d.cellSize > 0.0 && dateOk(d.createdAt)
    requires forall i :: 0 <= i < 6 ==> IsHex(ThemeColors(d.theme)[i])
    ensures WellFormed(DesignToJson(d), dateOk)
  {
    var j := DesignToJson(d);
    var rows := GridToJson(d.grid).items;
    assert Field(j, "grid") == Some(GridToJson(d.grid));
    forall i | 0 <= i < |rows| ensures RowOk(rows[i], Width(d.grid) as real) {
      assert rows[i].items == seq(|d.grid[i]|, c requires 0 <= c < |d.grid[i]| => JNumber(d.grid[i][c]));
    }
    assert Field(j, "theme") == Some(ThemeToJson(d.theme));
    ThemeWritten(d.theme);
  }

  lemma ThemeWritten(t: DesignTheme)
    requires forall i :: 0 <= i < 6 ==> IsHex(ThemeColors(t)[i])
    ensures ThemeColorsOk(ThemeToJson(t))
  {
    forall i | 0 <= i < 6
      ensures IsStringField(Field(ThemeToJson(t), ThemeKeys[i]))
      ensures IsHex(Field(ThemeToJson(t), ThemeKeys[i]).value.s)
    {
      assert Field(ThemeToJson(t), ThemeKeys[i]) == Some(JString(ThemeColors(t)[i]));
    }
  }

  lemma SchemaOfWritten(d: DesignSchema, dateOk: string -> bool)
    requires WellFormed(DesignToJson(d), dateOk)
    requires d.rows >= 0 && d.cols >= 0
    ensures SchemaOf(DesignToJson(d), dateOk) == d
  {
    var j := DesignToJson(d);
    var e := SchemaOf(j, dateOk);
    var rows := GridToJson(d.grid).items;
    assert Field(j, "grid") == Some(GridToJson(d.grid));
    assert e.grid == d.grid by {
      forall r | 0 <= r < |d.grid| ensures e.grid[r] == d.grid[r] {
        assert rows[r].items == seq(|d.grid[r]|, c requires 0 <= c < |d.grid[r]| => JNumber(d.grid[r][c]));
      }
    }
    var t := ThemeToJson(d.theme);
    assert Field(j, "theme") == Some(t);
    assert e.theme == d.theme by {
      assert Field(t, "level1") == Some(JString(d.theme.level1));
      assert Field(t, "level2") == Some(JString(d.theme.level2));
      assert Field(t, "level3") == Some(JString(d.theme.level3));
      assert Field(t, "level4") == Some(JString(d.theme.level4));
      assert Field(t, "level5") == Some(JString(d.theme.level5));
      assert Field(t, "background") == Some(JString(d.theme.background));
    }
  }

  /** An empty grid serialises, but the document cannot be imported again. */
  lemma EmptyGridNotReimportable(text: string, cellSize: real, palette: Palette, background: string,
    now: string, dateOk: string -> bool)
    ensures DeserializeDesign(SerializeDesign(text, [], cellSize, palette, background, now), dateOk) ==
      Failure(GridMessage)
  {
    var j := SerializeDesign(text, [], cellSize, palette, background, now);
    assert Field(j, "grid") == Some(JArray([]));
  }

  /** Rows of length 0 give `cols: 0`, which the validator rejects. */
  lemma ZeroWidthGridNotReimportable(text: string, rows: nat, cellSize: real, palette: Palette,
    background: string, now: string, dateOk: string -> bool)
    requires rows > 0
    ensures DeserializeDesign(SerializeDesign(text, seq(rows, _ => []), cellSize, palette, background, now), dateOk) ==
      Failure(ColsMessage)
  {
    var grid: Grid := seq(rows, _ => []);
    var j := SerializeDesign(text, grid, cellSize, palette, background, now);
    var items := GridToJson(grid).items;
    assert forall i :: 0 <= i < |items| ==> items[i].JArray?;
  }
}

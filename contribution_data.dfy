/** The calendar adapter: a year of contribution weeks becomes a 7-row grid,
    one column per week, each cell the intensity (0-4) of that day. */
module ContributionData {
  import opened Grids

  /** Rows of the calendar grid, one per weekday (0 = Sunday). */
  const Weekdays: nat := 7

  datatype ContributionLevel = None | FirstQuartile | SecondQuartile | ThirdQuartile | FourthQuartile

  datatype ContributionDay = ContributionDay(
    contributionCount: int,
    contributionLevel: ContributionLevel,
    date: string,
    weekday: int)

  datatype ContributionWeek = ContributionWeek(contributionDays: seq<ContributionDay>)

  /** `LEVEL_MAP`: the quartile label as an intensity. */
  function LevelValue(l: ContributionLevel): (v: nat)
    ensures v <= 4
    ensures v == 0 <==> l == None
  {
    match l
    case None => 0
    case FirstQuartile => 1
    case SecondQuartile => 2
    case ThirdQuartile => 3
    case FourthQuartile => 4
  }

  /** The level value is a bijection between the five labels and 0..4. */
  lemma LevelValueBijective(l: ContributionLevel, m: ContributionLevel, v: nat)
    ensures LevelValue(l) == LevelValue(m) ==> l == m
    ensures v <= 4 ==> exists k :: LevelValue(k) == v
  {
    if v == 0 { assert LevelValue(None) == v; }
    else if v == 1 { assert LevelValue(FirstQuartile) == v; }
    else if v == 2 { assert LevelValue(SecondQuartile) == v; }
    else if v == 3 { assert LevelValue(ThirdQuartile) == v; }
    else if v == 4 { assert LevelValue(FourthQuartile) == v; }
  }

  /** What the adapter leaves in row `d` of a week's column after visiting
      `days` in order: the level of the last day whose weekday is `d`, or
      the initial 0 when there is none. */
  function LastLevel(days: seq<ContributionDay>, d: int): (v: real)
    ensures 0.0 <= v <= 4.0
    ensures v == v.Floor as real
  {
    if days == [] then 0.0
    else if days[|days| - 1].weekday == d then LevelValue(days[|days| - 1].contributionLevel) as real
    else LastLevel(days[..|days| - 1], d)
  }

  /** `contributionWeeksToGrid(weeks)`. */
  method ContributionWeeksToGrid(weeks: seq<ContributionWeek>) returns (grid: Grid)
    ensures |grid| == Weekdays
    ensures forall d :: 0 <= d < Weekdays ==> |grid[d]| == |weeks|
    ensures forall d, w :: 0 <= d < Weekdays && 0 <= w < |weeks| ==>
      grid[d][w] == LastLevel(weeks[w].contributionDays, d)
  {
    var cols := |weeks|;
    var g := new real[Weekdays, cols]((_, _) => 0.0);
    var w := 0;
    while w < cols
      invariant 0 <= w <= cols
      invariant forall d, c :: 0 <= d < Weekdays && 0 <= c < cols ==>
        g[d, c] == if c < w then LastLevel(weeks[c].contributionDays, d) else 0.0
    {
      var days := weeks[w].contributionDays;
      var k := 0;
      while k < |days|
        invariant 0 <= k <= |days|
        invariant forall d, c :: 0 <= d < Weekdays && 0 <= c < cols ==>
          g[d, c] == if c < w then LastLevel(weeks[c].contributionDays, d)
                     else if c == w then LastLevel(days[..k], d)
                     else 0.0
      {
        var day := days[k];
        assert days[..k + 1][..k] == days[..k];
        if 0 <= day.weekday < Weekdays {
          g[day.weekday, w] := LevelValue(day.contributionLevel) as real;
        }
        k := k + 1;
      }
      assert days[..|days|] == days;
      w := w + 1;
    }
    grid := seq(Weekdays, d requires 0 <= d < Weekdays reads g =>
              seq(cols, c requires 0 <= c < cols reads g => g[d, c]));
  }

  /** A day of weekday `d` followed only by days of other weekdays decides the cell. */
  lemma {:induction false} LastLevelIsLastMatch(days: seq<ContributionDay>, d: int, i: nat)
    requires i < |days| && days[i].weekday == d
    requires forall j :: i < j < |days| ==> days[j].weekday != d
    ensures LastLevel(days, d) == LevelValue(days[i].contributionLevel) as real
    decreases |days|
  {
    if i < |days| - 1 {
      var front := days[..|days| - 1];
      assert front[i] == days[i];
      LastLevelIsLastMatch(front, d, i);
    }
  }

  /** Without any day of weekday `d` the cell keeps its initial 0. */
  lemma {:induction false} LastLevelNoMatch(days: seq<ContributionDay>, d: int)
    requires forall j :: 0 <= j < |days| ==> days[j].weekday != d
    ensures LastLevel(days, d) == 0.0
    decreases |days|
  {
    if days != [] {
      LastLevelNoMatch(days[..|days| - 1], d);
    }
  }

  /** A day whose weekday is not `d` (in particular one outside 0..6) does not
      affect row `d`, wherever it stands in the week. */
  lemma {:induction false} OtherWeekdayIgnored(a: seq<ContributionDay>, x: ContributionDay, b: seq<ContributionDay>, d: int)
    requires x.weekday != d
    ensures LastLevel(a + [x] + b, d) == LastLevel(a + b, d)
    decreases |b|
  {
    if b == [] {
      assert a + [x] + b == a + [x];
      assert (a + [x])[..|a|] == a;
      assert a + b == a;
    } else {
      var n := |b| - 1;
      assert (a + [x] + b)[..|a + [x] + b| - 1] == a + [x] + b[..n];
      assert (a + b)[..|a + b| - 1] == a + b[..n];
      OtherWeekdayIgnored(a, x, b[..n], d);
    }
  }

  /** A complete week listed Sunday to Saturday fills its column in order. */
  lemma FullWeekFillsColumn(days: seq<ContributionDay>, d: nat)
    requires |days| == Weekdays
    requires forall j :: 0 <= j < Weekdays ==> days[j].weekday == j
    requires d < Weekdays
    ensures LastLevel(days, d) == LevelValue(days[d].contributionLevel) as real
  {
    LastLevelIsLastMatch(days, d, d);
  }
}

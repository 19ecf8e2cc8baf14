/**
 * The dashboard page: the pole trend summary, the per-year reference maps,
 * the driver and constructor chart pivots, and the selection state with its
 * toggles and default constructor selection.
 */
module Dashboard {
  import opened Wrappers
  import opened Ordering

  // ---------------------------------------------------------------------
  // Pole trend summary
  // ---------------------------------------------------------------------

  /** One point of `<circuit>_lap_times.json`; a field that is not a number is `None`. */
  datatype LapPoint = LapPoint(year: int, pole: Option<real>, fastest: Option<real>)

  datatype LapSummary = LapSummary(startYear: int, endYear: int, startTime: real, endTime: real,
                                   totalDelta: real, yearlyDelta: real)

  function PointKey(p: LapPoint): Key { [Int(p.year)] }

  /** Every pole is a number, as the `LapPoint` type declares. */
  predicate PolesNumeric(data: seq<LapPoint>) {
    forall i :: 0 <= i < |data| ==> data[i].pole.Some?
  }

  /**
   * `calculateSummary`: no summary for fewer than two points or when the
   * earliest and latest years coincide; otherwise the first and last point
   * of a year-sorted copy, the pole change between them and that change per
   * year.
   */
  function CalculateSummary(data: seq<LapPoint>): (r: Option<LapSummary>)
    requires PolesNumeric(data)
  {
    if |data| < 2 then None
    else
      var sorted := Sort(data, PointKey);
      assert sorted[0] in multiset(data) && sorted[|sorted| - 1] in multiset(data);
      SummaryOfEnds(sorted[0], sorted[|sorted| - 1])
  }

  /** The summary between the first and the last point of the sorted copy. */
  function SummaryOfEnds(first: LapPoint, last: LapPoint): Option<LapSummary>
    requires first.pole.Some? && last.pole.Some?
  {
    var yearsDiff := last.year - first.year;
    if yearsDiff <= 0 then None
    else
      var totalDelta := first.pole.value - last.pole.value;
      Some(LapSummary(first.year, last.year, first.pole.value, last.pole.value,
                      totalDelta, totalDelta / (yearsDiff as real)))
  }

  /** The sorted copy starts with the first point of the earliest year and ends with the last point of the latest. */
  lemma SortedEnds(data: seq<LapPoint>)
    requires data != []
    ensures var a := FirstMinIndex(data, PointKey);
      Sort(data, PointKey)[0] == data[a]
      && (forall j :: 0 <= j < |data| ==> data[a].year <= data[j].year)
      && (forall j :: 0 <= j < a ==> data[a].year < data[j].year)
    ensures var b := LastMaxIndex(data, PointKey);
      Sort(data, PointKey)[|data| - 1] == data[b]
      && (forall j :: 0 <= j < |data| ==> data[j].year <= data[b].year)
      && (forall j :: b < j < |data| ==> data[j].year < data[b].year)
  {
    SortHead(data, PointKey);
    SortLast(data, PointKey);
    forall j | 0 <= j < |data|
      ensures data[FirstMinIndex(data, PointKey)].year <= data[j].year
      ensures j < FirstMinIndex(data, PointKey) ==> data[FirstMinIndex(data, PointKey)].year < data[j].year
      ensures data[j].year <= data[LastMaxIndex(data, PointKey)].year
      ensures LastMaxIndex(data, PointKey) < j ==> data[j].year < data[LastMaxIndex(data, PointKey)].year
    {
      FirstMinIndexIsFirstMinimum(data, PointKey, j);
      LastMaxIndexIsLastMaximum(data, PointKey, j);
    }
  }

  /** There is no summary exactly when there are fewer than two points or all share one year. */
  lemma SummaryNone(data: seq<LapPoint>)
    requires PolesNumeric(data)
    ensures CalculateSummary(data).None? <==>
      |data| < 2 || forall i, j :: 0 <= i < |data| && 0 <= j < |data| ==> data[i].year == data[j].year
  {
    if |data| >= 2 {
      SortedEnds(data);
      SummaryNoneEnds(data);
      OneYearIff(data, FirstMinIndex(data, PointKey), LastMaxIndex(data, PointKey));
    }
  }

  /** With two points or more, there is no summary exactly when the sorted copy ends no later than it starts. */
  lemma SummaryNoneEnds(data: seq<LapPoint>)
    requires PolesNumeric(data) && |data| >= 2
    ensures CalculateSummary(data).None? <==> Sort(data, PointKey)[|data| - 1].year <= Sort(data, PointKey)[0].year
  {
    var sorted := Sort(data, PointKey);
    assert sorted[0] in multiset(data) && sorted[|sorted| - 1] in multiset(data);
    assert CalculateSummary(data) == SummaryOfEnds(sorted[0], sorted[|sorted| - 1]);
  }

  /** Between a least and a greatest year, all years agree exactly when those two do. */
  lemma OneYearIff(data: seq<LapPoint>, a: nat, b: nat)
    requires a < |data| && b < |data|
    requires forall j :: 0 <= j < |data| ==> data[a].year <= data[j].year <= data[b].year
    ensures (forall i, j :: 0 <= i < |data| && 0 <= j < |data| ==> data[i].year == data[j].year)
      <==> data[b].year <= data[a].year
  {
  }

  /** A summary runs from the earliest year to a strictly later latest year. */
  lemma SummaryYears(data: seq<LapPoint>)
    requires PolesNumeric(data)
    requires CalculateSummary(data).Some?
    ensures var s := CalculateSummary(data).value;
      s.startYear < s.endYear
      && forall i :: 0 <= i < |data| ==> s.startYear <= data[i].year <= s.endYear
  {
    SortedEnds(data);
  }

  /** The start time is the pole of the first point listed for the earliest year. */
  lemma SummaryStart(data: seq<LapPoint>)
    requires PolesNumeric(data)
    requires CalculateSummary(data).Some?
    ensures var s := CalculateSummary(data).value;
      exists a :: (0 <= a < |data| && data[a].year == s.startYear && data[a].pole == Some(s.startTime)
        && forall j :: 0 <= j < a ==> data[j].year != s.startYear)
  {
    SortedEnds(data);
    var a := FirstMinIndex(data, PointKey);
    assert data[a].pole.Some?;
  }

  /** The end time is the pole of the last point listed for the latest year. */
  lemma SummaryEnd(data: seq<LapPoint>)
    requires PolesNumeric(data)
    requires CalculateSummary(data).Some?
    ensures var s := CalculateSummary(data).value;
      exists b :: (0 <= b < |data| && data[b].year == s.endYear && data[b].pole == Some(s.endTime)
        && forall j :: b < j < |data| ==> data[j].year != s.endYear)
  {
    SortedEnds(data);
    var b := LastMaxIndex(data, PointKey);
    assert data[b].pole.Some?;
  }

  /** The change is start minus end, and the yearly change times the span gives it back. */
  lemma SummaryDelta(data: seq<LapPoint>)
    requires PolesNumeric(data)
    requires CalculateSummary(data).Some?
    ensures var s := CalculateSummary(data).value;
      s.totalDelta == s.startTime - s.endTime
      && s.yearlyDelta * ((s.endYear - s.startYear) as real) == s.totalDelta
  {
    var s := CalculateSummary(data).value;
    var d := (s.endYear - s.startYear) as real;
    assert d > 0.0;
    assert s.yearlyDelta == s.totalDelta / d;
  }

  // ---------------------------------------------------------------------
  // Selection toggles
  // ---------------------------------------------------------------------

  function Other(id: string): string -> bool {
    (x: string) => x != id
  }

  /**
   * `toggleDriver` / `toggleConstructor`: a selected id is removed, every
   * copy of it; any other id is appended. Exactly the toggled id changes
   * membership.
   */
  function Toggle(prev: seq<string>, id: string): (r: seq<string>)
    ensures id in r <==> id !in prev
    ensures forall x :: x != id ==> (x in r <==> x in prev)
  {
    if id in prev then Filter(prev, Other(id)) else prev + [id]
  }

  /** Toggling an unselected id twice gives back the list unchanged. */
  lemma ToggleTwiceAbsent(prev: seq<string>, id: string)
    requires id !in prev
    ensures Toggle(Toggle(prev, id), id) == prev
  {
    FilterAppend(prev, [id], Other(id));
    FilterAll(prev, Other(id));
    FilterNone([id], Other(id));
  }

  /** Toggling a selected id twice restores membership but moves the id to the end. */
  lemma ToggleTwicePresent(prev: seq<string>, id: string)
    requires id in prev
    ensures Toggle(Toggle(prev, id), id) == Filter(prev, Other(id)) + [id]
    ensures forall x :: x in Toggle(Toggle(prev, id), id) <==> x in prev
  {
  }

  // ---------------------------------------------------------------------
  // Reference times per year
  // ---------------------------------------------------------------------

  function PoleOf(p: LapPoint): Option<real> { p.pole }

  function FastestOf(p: LapPoint): Option<real> { p.fastest }

  /** The map a `Map.set` per numeric `field` leaves after a pass over `data` in order. */
  function ByYear(data: seq<LapPoint>, field: LapPoint -> Option<real>): map<int, real>
    decreases |data|
  {
    if data == [] then map[]
    else
      var m := ByYear(data[..|data| - 1], field);
      var p := data[|data| - 1];
      if field(p).Some? then m[p.year := field(p).value] else m
  }

  /**
   * A year has a reference exactly when one of its points has a number in
   * that field, and the reference is the last such number.
   */
  lemma {:induction false} ByYearLast(data: seq<LapPoint>, field: LapPoint -> Option<real>, y: int)
    ensures y in ByYear(data, field) <==> exists i :: 0 <= i < |data| && data[i].year == y && field(data[i]).Some?
    ensures y in ByYear(data, field) ==> exists i :: (0 <= i < |data| && data[i].year == y
      && field(data[i]) == Some(ByYear(data, field)[y])
      && forall j :: i < j < |data| && data[j].year == y ==> field(data[j]).None?)
    decreases |data|
  {
    if data != [] {
      var n := |data| - 1;
      var init := data[..n];
      ByYearLast(init, field, y);
      assert forall i :: 0 <= i < n ==> init[i] == data[i];
      if data[n].year == y && field(data[n]).Some? {
        assert ByYear(data, field)[y] == field(data[n]).value;
      } else if y in ByYear(init, field) {
        var i :| 0 <= i < n && init[i].year == y && field(init[i]) == Some(ByYear(init, field)[y])
          && forall j :: i < j < n && init[j].year == y ==> field(init[j]).None?;
        assert data[i] == init[i];
      }
    }
  }

  /** The `data.forEach` that fills `poleByYear` and `fastestByYear`. */
  method ReferenceMaps(data: seq<LapPoint>) returns (poleByYear: map<int, real>, fastestByYear: map<int, real>)
    ensures poleByYear == ByYear(data, PoleOf)
    ensures fastestByYear == ByYear(data, FastestOf)
  {
    poleByYear := map[];
    fastestByYear := map[];
    for i := 0 to |data|
      invariant poleByYear == ByYear(data[..i], PoleOf)
      invariant fastestByYear == ByYear(data[..i], FastestOf)
    {
      var d := data[i];
      assert data[..i + 1][..i] == data[..i];
      if d.pole.Some? {
        poleByYear := poleByYear[d.year := d.pole.value];
      }
      if d.fastest.Some? {
        fastestByYear := fastestByYear[d.year := d.fastest.value];
      }
    }
    assert data[..|data|] == data;
  }

  // ---------------------------------------------------------------------
  // Chart pivots
  // ---------------------------------------------------------------------

  /**
   * A record of a driver-laps or constructor-laps file; `entity` is the
   * `driverId` or the `constructorName`.
   */
  datatype Lap = Lap(year: int, session: string, entity: string, lapTime: real)

  /** A chart row: `year` plus a lap time and possibly a gap per entity. */
  type ChartRow = map<string, real>

  function InSession(session: string): Lap -> bool {
    (l: Lap) => l.session == session
  }

  function InYear(year: int): Lap -> bool {
    (l: Lap) => l.year == year
  }

  /** The reference of a year: the pole for qualifying, the race's fastest lap otherwise. */
  function Reference(session: string, year: int, poleByYear: map<int, real>, fastestByYear: map<int, real>)
    : Option<real>
  {
    if session == "Q" then (if year in poleByYear then Some(poleByYear[year]) else None)
    else (if year in fastestByYear then Some(fastestByYear[year]) else None)
  }

  function GapKey(id: string): string { id + "_gap" }

  /** One step of the row loop: the lap's time, and its gap when the year has a reference. */
  function Put(row: ChartRow, lap: Lap, base: Option<real>): ChartRow {
    var r := row[lap.entity := lap.lapTime];
    if base.Some? then r[GapKey(lap.entity) := lap.lapTime - base.value] else r
  }

  /** The row of `year` after its laps, in order. */
  function PivotRow(year: int, laps: seq<Lap>, base: Option<real>): ChartRow
    decreases |laps|
  {
    if laps == [] then map["year" := year as real]
    else Put(PivotRow(year, laps[..|laps| - 1], base), laps[|laps| - 1], base)
  }

  /** The row loop `for (const lap of lapsThisYear)`. */
  method BuildRow(year: int, laps: seq<Lap>, base: Option<real>) returns (row: ChartRow)
    ensures row == PivotRow(year, laps, base)
  {
    row := map["year" := year as real];
    for i := 0 to |laps|
      invariant row == PivotRow(year, laps[..i], base)
    {
      assert laps[..i + 1][..i] == laps[..i];
      var lap := laps[i];
      row := row[lap.entity := lap.lapTime];
      if base.Some? {
        row := row[lap.entity + "_gap" := lap.lapTime - base.value];
      }
    }
    assert laps[..|laps|] == laps;
  }

  /** An id that is neither `year` nor the gap key of an id, so no column overwrites another. */
  predicate Plain(id: string) {
    id != "year" && !(|id| >= 4 && id[|id| - 4..] == "_gap")
  }

  lemma GapKeyDistinct(a: string, b: string)
    requires Plain(a) && Plain(b)
    ensures GapKey(a) != b && GapKey(a) != "year"
    ensures GapKey(a) == GapKey(b) ==> a == b
  {
    assert GapKey(a)[|GapKey(a)| - 4..] == "_gap";
    if GapKey(a) == GapKey(b) {
      assert a == GapKey(a)[..|a|] && b == GapKey(b)[..|b|];
    }
  }

  /**
   * With plain ids: a row holds `year`, the lap time of the last lap of each
   * id, and that id's gap to the reference exactly when there is one.
   */
  lemma {:induction false} PivotRowCells(year: int, laps: seq<Lap>, base: Option<real>, id: string)
    requires Plain(id)
    requires forall i :: 0 <= i < |laps| ==> Plain(laps[i].entity)
    ensures "year" in PivotRow(year, laps, base) && PivotRow(year, laps, base)["year"] == year as real
    ensures id in PivotRow(year, laps, base) <==> exists i :: 0 <= i < |laps| && laps[i].entity == id
    ensures id in PivotRow(year, laps, base) ==> exists i :: (0 <= i < |laps| && laps[i].entity == id
      && PivotRow(year, laps, base)[id] == laps[i].lapTime
      && forall j :: i < j < |laps| ==> laps[j].entity != id)
    ensures GapKey(id) in PivotRow(year, laps, base) <==> base.Some? && id in PivotRow(year, laps, base)
    ensures GapKey(id) in PivotRow(year, laps, base) ==>
      PivotRow(year, laps, base)[GapKey(id)] == PivotRow(year, laps, base)[id] - base.value
    decreases |laps|
  {
    PivotRowYear(year, laps, base);
    PivotRowEntity(year, laps, base, id);
    PivotRowGap(year, laps, base, id);
  }

  lemma {:induction false} PivotRowYear(year: int, laps: seq<Lap>, base: Option<real>)
    requires forall i :: 0 <= i < |laps| ==> Plain(laps[i].entity)
    ensures "year" in PivotRow(year, laps, base) && PivotRow(year, laps, base)["year"] == year as real
    decreases |laps|
  {
    if laps != [] {
      var n := |laps| - 1;
      assert forall i :: 0 <= i < n ==> laps[..n][i] == laps[i];
      PivotRowYear(year, laps[..n], base);
      GapKeyDistinct(laps[n].entity, laps[n].entity);
    }
  }

  lemma PivotRowEntity(year: int, laps: seq<Lap>, base: Option<real>, id: string)
    requires Plain(id)
    requires forall i :: 0 <= i < |laps| ==> Plain(laps[i].entity)
    ensures id in PivotRow(year, laps, base) <==> exists i :: 0 <= i < |laps| && laps[i].entity == id
    ensures id in PivotRow(year, laps, base) ==> exists i :: (0 <= i < |laps| && laps[i].entity == id
      && PivotRow(year, laps, base)[id] == laps[i].lapTime
      && forall j :: i < j < |laps| ==> laps[j].entity != id)
  {
    PivotRowHas(year, laps, base, id);
    if id in PivotRow(year, laps, base) {
      PivotRowLast(year, laps, base, id);
    }
  }

  lemma {:induction false} PivotRowHas(year: int, laps: seq<Lap>, base: Option<real>, id: string)
    requires Plain(id)
    requires forall i :: 0 <= i < |laps| ==> Plain(laps[i].entity)
    ensures id in PivotRow(year, laps, base) <==> exists i :: 0 <= i < |laps| && laps[i].entity == id
    decreases |laps|
  {
    if laps != [] {
      var n := |laps| - 1;
      assert forall i :: 0 <= i < n ==> laps[..n][i] == laps[i];
      PivotRowHas(year, laps[..n], base, id);
      GapKeyDistinct(laps[n].entity, id);
    }
  }

  lemma {:induction false} PivotRowLast(year: int, laps: seq<Lap>, base: Option<real>, id: string)
    requires Plain(id)
    requires forall i :: 0 <= i < |laps| ==> Plain(laps[i].entity)
    requires id in PivotRow(year, laps, base)
    ensures exists i :: (0 <= i < |laps| && laps[i].entity == id
      && PivotRow(year, laps, base)[id] == laps[i].lapTime
      && forall j :: i < j < |laps| ==> laps[j].entity != id)
    decreases |laps|
  {
    assert laps != [];
    var n := |laps| - 1;
    var init := laps[..n];
    var lap := laps[n];
    var prev := PivotRow(year, init, base);
    GapKeyDistinct(lap.entity, id);
    if lap.entity == id {
      PutOwn(prev, lap, base);
      assert laps[n].entity == id && PivotRow(year, laps, base)[id] == laps[n].lapTime;
    } else {
      PutOther(prev, lap, base, id);
      assert forall i :: 0 <= i < n ==> init[i] == laps[i];
      PivotRowLast(year, init, base, id);
      var i :| 0 <= i < n && init[i].entity == id && prev[id] == init[i].lapTime
        && forall j :: i < j < n ==> init[j].entity != id;
      assert laps[i] == init[i];
    }
  }

  /** A cell `Put` does not write keeps its presence and value. */
  lemma PutOther(row: ChartRow, lap: Lap, base: Option<real>, k: string)
    requires k != lap.entity && k != GapKey(lap.entity)
    ensures k in Put(row, lap, base) <==> k in row
    ensures k in row ==> Put(row, lap, base)[k] == row[k]
  {
  }

  /** `Put` writes the lap's time under its id. */
  lemma PutOwn(row: ChartRow, lap: Lap, base: Option<real>)
    requires Plain(lap.entity)
    ensures lap.entity in Put(row, lap, base) && Put(row, lap, base)[lap.entity] == lap.lapTime
  {
    GapKeyDistinct(lap.entity, lap.entity);
  }

  lemma {:induction false} PivotRowGap(year: int, laps: seq<Lap>, base: Option<real>, id: string)
    requires Plain(id)
    requires forall i :: 0 <= i < |laps| ==> Plain(laps[i].entity)
    ensures GapKey(id) in PivotRow(year, laps, base) <==> base.Some? && id in PivotRow(year, laps, base)
    ensures GapKey(id) in PivotRow(year, laps, base) ==>
      PivotRow(year, laps, base)[GapKey(id)] == PivotRow(year, laps, base)[id] - base.value
    decreases |laps|
  {
    GapKeyDistinct(id, id);
    if laps != [] {
      var n := |laps| - 1;
      var lap := laps[n];
      assert forall i :: 0 <= i < n ==> laps[..n][i] == laps[i];
      PivotRowGap(year, laps[..n], base, id);
      GapKeyDistinct(lap.entity, id);
      GapKeyDistinct(id, lap.entity);
      GapKeyDistinct(lap.entity, lap.entity);
    }
  }

  function Years(laps: seq<Lap>): (r: seq<int>)
    ensures |r| == |laps| && forall i :: 0 <= i < |laps| ==> r[i] == laps[i].year
  {
    seq(|laps|, i requires 0 <= i < |laps| => laps[i].year)
  }

  /** The distinct years of the laps, ascending. */
  function ChartYears(laps: seq<Lap>): seq<int> {
    Sort(Dedup(Years(laps)), YearKey)
  }

  lemma ChartYearsFacts(laps: seq<Lap>)
    ensures StrictlySortedBy(ChartYears(laps), YearKey)
    ensures forall y :: y in ChartYears(laps) <==> exists l :: l in laps && l.year == y
  {
    var ys := Years(laps);
    var d := Dedup(ys);
    assert forall x: int, y: int :: YearKey(x) == YearKey(y) ==> x == y by {
      forall x: int, y: int | YearKey(x) == YearKey(y) ensures x == y {
        assert YearKey(x)[0] == YearKey(y)[0];
      }
    }
    SortStrict(d, YearKey);
    forall y ensures y in ChartYears(laps) <==> exists l :: l in laps && l.year == y {
      assert y in ChartYears(laps) <==> y in multiset(d);
      if exists l :: l in laps && l.year == y {
        var l :| l in laps && l.year == y;
        var i :| 0 <= i < |laps| && laps[i] == l;
        assert ys[i] == y;
      }
      if y in d {
        var i :| 0 <= i < |ys| && ys[i] == y;
        assert laps[i] in laps;
      }
    }
  }

  /** The row of one year of the session's laps: that year's laps in input order, against its reference. */
  function YearRow(sessionLaps: seq<Lap>, session: string, year: int,
                   poleByYear: map<int, real>, fastestByYear: map<int, real>): ChartRow
  {
    PivotRow(year, Filter(sessionLaps, InYear(year)), Reference(session, year, poleByYear, fastestByYear))
  }

  /** The rows of the given years, in that order. */
  function RowsOf(sessionLaps: seq<Lap>, session: string, years: seq<int>,
                  poleByYear: map<int, real>, fastestByYear: map<int, real>): seq<ChartRow>
  {
    seq(|years|, i requires 0 <= i < |years| => YearRow(sessionLaps, session, years[i], poleByYear, fastestByYear))
  }

  /** One row per distinct year of the session's laps, ascending. */
  function ChartOf(sessionLaps: seq<Lap>, session: string, poleByYear: map<int, real>, fastestByYear: map<int, real>)
    : seq<ChartRow>
  {
    RowsOf(sessionLaps, session, ChartYears(sessionLaps), poleByYear, fastestByYear)
  }

  /** `driverChartData` / `constructorChartData`: the chart of the laps of the session. */
  function ChartData(laps: seq<Lap>, session: string, poleByYear: map<int, real>, fastestByYear: map<int, real>)
    : seq<ChartRow>
  {
    ChartOf(Filter(laps, InSession(session)), session, poleByYear, fastestByYear)
  }

  /** One row of the `.map`: the year's reference, then the row loop over the year's laps. */
  method BuildYearRow(sessionLaps: seq<Lap>, session: string, year: int,
                      poleByYear: map<int, real>, fastestByYear: map<int, real>) returns (row: ChartRow)
    ensures row == YearRow(sessionLaps, session, year, poleByYear, fastestByYear)
  {
    var base := Reference(session, year, poleByYear, fastestByYear);
    row := BuildRow(year, Filter(sessionLaps, InYear(year)), base);
  }

  /** The `.map` over the sorted years, one row per year. */
  method BuildRows(sessionLaps: seq<Lap>, session: string, years: seq<int>,
                   poleByYear: map<int, real>, fastestByYear: map<int, real>) returns (rows: seq<ChartRow>)
    ensures rows == RowsOf(sessionLaps, session, years, poleByYear, fastestByYear)
  {
    rows := [];
    for k := 0 to |years|
      invariant |rows| == k
      invariant forall j :: 0 <= j < k ==> rows[j] == YearRow(sessionLaps, session, years[j], poleByYear, fastestByYear)
    {
      var row := BuildYearRow(sessionLaps, session, years[k], poleByYear, fastestByYear);
      rows := rows + [row];
    }
  }

  /** The chart of the session: its laps, their sorted distinct years, one row each. */
  method BuildChartData(laps: seq<Lap>, session: string, poleByYear: map<int, real>, fastestByYear: map<int, real>)
    returns (rows: seq<ChartRow>)
    ensures rows == ChartData(laps, session, poleByYear, fastestByYear)
  {
    var sessionLaps := Filter(laps, InSession(session));
    rows := BuildRows(sessionLaps, session, ChartYears(sessionLaps), poleByYear, fastestByYear);
  }

  /**
   * The chart has one row per year of a lap of the session, in strictly
   * ascending year order, and each row's `year` cell is its year (ids
   * assumed plain).
   */
  lemma ChartDataYears(laps: seq<Lap>, session: string, poleByYear: map<int, real>, fastestByYear: map<int, real>)
    requires forall i :: 0 <= i < |laps| ==> Plain(laps[i].entity)
    ensures var rows := ChartData(laps, session, poleByYear, fastestByYear);
      var years := ChartYears(Filter(laps, InSession(session)));
      |rows| == |years|
      && StrictlySortedBy(years, YearKey)
      && (forall y :: y in years <==> exists l :: l in laps && l.session == session && l.year == y)
      && forall i :: 0 <= i < |rows| ==> "year" in rows[i] && rows[i]["year"] == years[i] as real
  {
    var sessionLaps := Filter(laps, InSession(session));
    var years := ChartYears(sessionLaps);
    ChartYearsFacts(sessionLaps);
    forall i | 0 <= i < |years|
      ensures var row := YearRow(sessionLaps, session, years[i], poleByYear, fastestByYear);
        "year" in row && row["year"] == years[i] as real
    {
      var yl := Filter(sessionLaps, InYear(years[i]));
      forall j | 0 <= j < |yl| ensures Plain(yl[j].entity) {
        assert yl[j] in yl;
        var k :| 0 <= k < |laps| && laps[k] == yl[j];
      }
      PivotRowYear(years[i], yl, Reference(session, years[i], poleByYear, fastestByYear));
    }
  }

  /** Laps of the other session, wherever they sit in the input, never change the chart. */
  lemma OtherSessionIgnored(a: seq<Lap>, others: seq<Lap>, b: seq<Lap>, session: string,
                            poleByYear: map<int, real>, fastestByYear: map<int, real>)
    requires forall i :: 0 <= i < |others| ==> others[i].session != session
    ensures ChartData(a + others + b, session, poleByYear, fastestByYear) == ChartData(a + b, session, poleByYear, fastestByYear)
  {
    SessionFilterSplice(a, others, b, InSession(session));
  }

  /** Filtering drops a block of rejected laps wherever it sits. */
  lemma SessionFilterSplice(a: seq<Lap>, others: seq<Lap>, b: seq<Lap>, f: Lap -> bool)
    requires forall i :: 0 <= i < |others| ==> !f(others[i])
    ensures Filter(a + others + b, f) == Filter(a + b, f)
  {
    FilterAppend(a + others, b, f);
    FilterAppend(a, others, f);
    FilterAppend(a, b, f);
    FilterNone(others, f);
    assert Filter(a, f) + Filter(others, f) == Filter(a, f);
  }

  // ---------------------------------------------------------------------
  // Active entities
  // ---------------------------------------------------------------------

  function Entities(laps: seq<Lap>): (r: seq<string>)
    ensures |r| == |laps| && forall i :: 0 <= i < |laps| ==> r[i] == laps[i].entity
  {
    seq(|laps|, i requires 0 <= i < |laps| => laps[i].entity)
  }

  function SelectedIn(selected: seq<string>): Lap -> bool {
    (l: Lap) => l.entity in selected
  }

  /**
   * `activeDriverIds`: the selected ids with a lap in the session, each once,
   * in the order they first appear.
   */
  function ActiveIds(laps: seq<Lap>, session: string, selected: seq<string>): (r: seq<string>)
    ensures Distinct(r)
    ensures forall x :: x in r <==> x in selected && exists l :: l in laps && l.session == session && l.entity == x
  {
    var e := Entities(Filter(Filter(laps, InSession(session)), SelectedIn(selected)));
    SelectedEntities(laps, session, selected);
    Dedup(e)
  }

  /** The ids of the selected laps of the session are the selected ids with a lap in it. */
  lemma SelectedEntities(laps: seq<Lap>, session: string, selected: seq<string>)
    ensures forall x :: (x in Entities(Filter(Filter(laps, InSession(session)), SelectedIn(selected))) <==>
      x in selected && exists l :: l in laps && l.session == session && l.entity == x)
  {
    var f := Filter(Filter(laps, InSession(session)), SelectedIn(selected));
    var e := Entities(f);
    forall x | x in e ensures x in selected && exists l :: l in laps && l.session == session && l.entity == x {
      var i :| 0 <= i < |e| && e[i] == x;
      assert f[i] in f;
    }
    forall x | x in selected && exists l :: l in laps && l.session == session && l.entity == x ensures x in e {
      var l :| l in laps && l.session == session && l.entity == x;
      assert l in f;
      var i :| 0 <= i < |f| && f[i] == l;
      assert e[i] == x;
    }
  }

  /** Active ids keep the order in which they first appear among the selected laps of the session. */
  lemma ActiveIdsOrder(laps: seq<Lap>, session: string, selected: seq<string>)
    ensures var e := Entities(Filter(Filter(laps, InSession(session)), SelectedIn(selected)));
      var r := ActiveIds(laps, session, selected);
      forall i, j | 0 <= i < j < |r| :: FirstIndex(e, r[i]) < FirstIndex(e, r[j])
  {
    DedupFirstAppearance(Entities(Filter(Filter(laps, InSession(session)), SelectedIn(selected))));
  }

  /** `constructorNames`: the distinct names with a lap in the session, ascending. */
  function EntityNames(laps: seq<Lap>, session: string): (r: seq<string>)
    ensures StrictlySortedBy(r, TextKey)
    ensures forall x :: x in r <==> exists l :: l in laps && l.session == session && l.entity == x
  {
    var s := Filter(laps, InSession(session));
    var e := Entities(s);
    forall x ensures x in e <==> exists l :: l in laps && l.session == session && l.entity == x {
      if x in e {
        var i :| 0 <= i < |e| && e[i] == x;
        assert s[i] in s;
      }
      if exists l :: l in laps && l.session == session && l.entity == x {
        var l :| l in laps && l.session == session && l.entity == x;
        var i :| 0 <= i < |s| && s[i] == l;
        assert e[i] == x;
      }
    }
    SortedUnique(e)
  }

  function SelectedName(selected: seq<string>): string -> bool {
    (n: string) => n in selected
  }

  /** `activeConstructorNames`: the session's names that are selected, still ascending. */
  function ActiveNames(laps: seq<Lap>, session: string, selected: seq<string>): (r: seq<string>)
    ensures StrictlySortedBy(r, TextKey)
    ensures forall x :: x in r <==> x in selected && exists l :: l in laps && l.session == session && l.entity == x
  {
    FilterStrictlySorted(EntityNames(laps, session), SelectedName(selected), TextKey);
    Filter(EntityNames(laps, session), SelectedName(selected))
  }

  /** The initial constructor selection: the first four of the sorted distinct names of all laps. */
  function DefaultSelection(laps: seq<Lap>): seq<string> {
    var names := SortedUnique(Entities(laps));
    names[..if |names| < 4 then |names| else 4]
  }

  /**
   * The default selection holds up to four names, all from the laps, in
   * ascending order; four whenever there are four names; and every name
   * left out sorts after every name chosen.
   */
  lemma DefaultSelectionFacts(laps: seq<Lap>)
    ensures var r := DefaultSelection(laps);
      var names := SortedUnique(Entities(laps));
      |r| == (if |names| < 4 then |names| else 4)
      && StrictlySortedBy(r, TextKey)
      && (forall x :: x in r ==> exists l :: l in laps && l.entity == x)
      && forall x, y :: x in r && y in names && y !in r ==> KeyLt(TextKey(x), TextKey(y))
  {
    var names := SortedUnique(Entities(laps));
    var n := if |names| < 4 then |names| else 4;
    var r := names[..n];
    assert forall i :: 0 <= i < n ==> r[i] == names[i];
    forall x | x in r ensures exists l :: l in laps && l.entity == x {
      assert x in names;
      var i :| 0 <= i < |laps| && Entities(laps)[i] == x;
      assert laps[i] in laps;
    }
    forall x, y | x in r && y in names && y !in r ensures KeyLt(TextKey(x), TextKey(y)) {
      var i :| 0 <= i < n && r[i] == x;
      var j :| 0 <= j < |names| && names[j] == y;
      assert j >= n;
    }
  }

  // ---------------------------------------------------------------------
  // Page state
  // ---------------------------------------------------------------------

  /** How a laps fetch ended: the parsed array, a 404, or any other failure. */
  datatype LapsResponse = Loaded(laps: seq<Lap>) | NotFound | Failed

  /** How the trend fetch ended: the parsed array, or any failure (a 404 included). */
  datatype TrendResponse = TrendLoaded(points: seq<LapPoint>) | TrendFailed

  /** The state of the page that the derived values depend on. */
  class Page {
    var data: seq<LapPoint>
    var selectedDrivers: seq<string>
    var selectedConstructors: seq<string>
    var driverLaps: seq<Lap>
    var constructorLaps: seq<Lap>
    var session: string

    /** The initial `useState` values. */
    constructor ()
      ensures data == [] && driverLaps == [] && constructorLaps == []
      ensures selectedDrivers == ["VER", "HAM"] && selectedConstructors == []
      ensures session == "Q"
    {
      data := [];
      selectedDrivers := ["VER", "HAM"];
      selectedConstructors := [];
      driverLaps := [];
      constructorLaps := [];
      session := "Q";
    }

    method ToggleDriver(id: string)
      modifies this
      ensures selectedDrivers == Toggle(old(selectedDrivers), id)
      ensures data == old(data) && selectedConstructors == old(selectedConstructors)
      ensures driverLaps == old(driverLaps) && constructorLaps == old(constructorLaps) && session == old(session)
    {
      selectedDrivers := if id in selectedDrivers then Filter(selectedDrivers, Other(id)) else selectedDrivers + [id];
    }

    method ToggleConstructor(name: string)
      modifies this
      ensures selectedConstructors == Toggle(old(selectedConstructors), name)
      ensures data == old(data) && selectedDrivers == old(selectedDrivers)
      ensures driverLaps == old(driverLaps) && constructorLaps == old(constructorLaps) && session == old(session)
    {
      selectedConstructors := if name in selectedConstructors then Filter(selectedConstructors, Other(name))
        else selectedConstructors + [name];
    }

    /** The Q / R switch. */
    method SetSession(s: string)
      requires s == "Q" || s == "R"
      modifies this
      ensures session == s
      ensures data == old(data) && selectedDrivers == old(selectedDrivers) && selectedConstructors == old(selectedConstructors)
      ensures driverLaps == old(driverLaps) && constructorLaps == old(constructorLaps)
    {
      session := s;
    }

    /** The end of the trend fetch: new points on success, nothing changed on failure. */
    method ReceiveTrend(resp: TrendResponse)
      modifies this
      ensures data == (if resp.TrendLoaded? then resp.points else old(data))
      ensures selectedDrivers == old(selectedDrivers) && selectedConstructors == old(selectedConstructors)
      ensures driverLaps == old(driverLaps) && constructorLaps == old(constructorLaps) && session == old(session)
    {
      if resp.TrendLoaded? {
        data := resp.points;
      }
    }

    /** The end of the driver-laps fetch: the laps, none on a 404, nothing changed on failure. */
    method ReceiveDriverLaps(resp: LapsResponse)
      modifies this
      ensures driverLaps == (match resp case Loaded(laps) => laps case NotFound => [] case Failed => old(driverLaps))
      ensures data == old(data) && selectedDrivers == old(selectedDrivers) && selectedConstructors == old(selectedConstructors)
      ensures constructorLaps == old(constructorLaps) && session == old(session)
    {
      match resp {
        case Loaded(laps) => driverLaps := laps;
        case NotFound => driverLaps := [];
        case Failed =>
      }
    }

    /**
     * The end of the constructor-laps fetch: the laps and the default
     * selection; on a 404 no laps and no selection; nothing changed on failure.
     */
    method ReceiveConstructorLaps(resp: LapsResponse)
      modifies this
      ensures constructorLaps == (match resp case Loaded(laps) => laps case NotFound => [] case Failed => old(constructorLaps))
      ensures selectedConstructors ==
        (match resp case Loaded(laps) => DefaultSelection(laps) case NotFound => [] case Failed => old(selectedConstructors))
      ensures data == old(data) && selectedDrivers == old(selectedDrivers)
      ensures driverLaps == old(driverLaps) && session == old(session)
    {
      match resp {
        case Loaded(laps) =>
          constructorLaps := laps;
          var names := SortedUnique(Entities(laps));
          selectedConstructors := names[..if |names| < 4 then |names| else 4];
        case NotFound =>
          constructorLaps := [];
          selectedConstructors := [];
        case Failed =>
      }
    }

    /** The driver chart of the current state. */
    method DriverChart() returns (rows: seq<ChartRow>)
      ensures rows == ChartData(driverLaps, session, ByYear(data, PoleOf), ByYear(data, FastestOf))
    {
      var poleByYear, fastestByYear := ReferenceMaps(data);
      rows := BuildChartData(driverLaps, session, poleByYear, fastestByYear);
    }

    /** The constructor chart of the current state. */
    method ConstructorChart() returns (rows: seq<ChartRow>)
      ensures rows == ChartData(constructorLaps, session, ByYear(data, PoleOf), ByYear(data, FastestOf))
    {
      var poleByYear, fastestByYear := ReferenceMaps(data);
      rows := BuildChartData(constructorLaps, session, poleByYear, fastestByYear);
    }
  }
}

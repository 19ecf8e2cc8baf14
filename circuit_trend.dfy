/**
 * The circuit-trend builders: for a circuit, the pole time (fastest
 * qualifying lap) and the fastest race lap of every year, written as a
 * `{year, pole, fastest}` list per circuit, and the same list for
 * Spa-Francorchamps alone.
 */
module CircuitTrend {
  import opened Wrappers
  import opened Ordering
  import opened LapTimes
  import opened Aggregate
  import opened Identifiers

  /** A row of races.csv. */
  datatype Race = Race(raceId: int, year: int, circuitId: int)

  /** A row of qualifying.csv: its race and its session-time cells by column name. */
  datatype QualifyingEntry = QualifyingEntry(raceId: int, times: Row)

  /** A row of lap_times.csv. */
  datatype LapEntry = LapEntry(raceId: int, milliseconds: Value, time: Value)

  /** A time joined with its race's year and circuit; `None` stands for NaN. */
  datatype Timed = Timed(year: int, circuitId: int, sec: Option<real>)

  /** One record of a `<slug>_lap_times.json` file. */
  datatype TrendPoint = TrendPoint(year: int, pole: real, fastest: real)

  // ---------------------------------------------------------------------
  // Joining with races
  // ---------------------------------------------------------------------

  /** `t` is a row of `keyed.merge(races, on="raceId", how="inner")`. */
  predicate Joined(t: Timed, keyed: seq<(int, Option<real>)>, races: seq<Race>) {
    exists p, race :: p in keyed && race in races && p.0 == race.raceId
      && t == Timed(race.year, race.circuitId, p.1)
  }

  /** The races a time with this raceId joins. */
  function JoinOne(raceId: int, sec: Option<real>, races: seq<Race>): (r: seq<Timed>)
    ensures forall t :: t in r <==> exists race :: (race in races && race.raceId == raceId
      && t == Timed(race.year, race.circuitId, sec))
  {
    if races == [] then []
    else
      var rest := JoinOne(raceId, sec, races[1..]);
      assert forall race :: race in races <==> race == races[0] || race in races[1..];
      (if races[0].raceId == raceId then [Timed(races[0].year, races[0].circuitId, sec)] else []) + rest
  }

  /** An inner merge on raceId, left rows in order. */
  function JoinRaces(keyed: seq<(int, Option<real>)>, races: seq<Race>): (r: seq<Timed>)
    ensures forall t :: t in r <==> Joined(t, keyed, races)
  {
    if keyed == [] then []
    else
      var rest := JoinRaces(keyed[1..], races);
      assert forall p :: p in keyed <==> p == keyed[0] || p in keyed[1..];
      JoinOne(keyed[0].0, keyed[0].1, races) + rest
  }

  /** The rows of the qualifying table with `best_qual_sec`, by raceId. */
  function QualifyingBest(columns: seq<string>, entries: seq<QualifyingEntry>): (keyed: seq<(int, Option<real>)>)
    ensures |keyed| == |entries|
    ensures forall i :: 0 <= i < |entries| ==> keyed[i] == (entries[i].raceId,
      MinPresent(AcrossColumns(entries[i].times, PresentColumns(QualifyingCandidates, columns), ColonSeconds)))
  {
    seq(|entries|, i requires 0 <= i < |entries| => (entries[i].raceId,
      MinPresent(AcrossColumns(entries[i].times, PresentColumns(QualifyingCandidates, columns), ColonSeconds))))
  }

  /**
   * `prepare_qualifying_with_best_lap`: each qualifying row's best time over
   * the Q1..q3 columns present, joined with its race's year and circuit;
   * ValueError when no such column exists.
   */
  method PrepareQualifying(columns: seq<string>, entries: seq<QualifyingEntry>, races: seq<Race>)
    returns (r: Result<seq<Timed>, string>)
    ensures r.Err? <==> forall c :: c in QualifyingCandidates ==> c !in columns
    ensures r.Ok? ==> r.value == JoinRaces(QualifyingBest(columns, entries), races)
  {
    var rows := seq(|entries|, i requires 0 <= i < |entries| => entries[i].times);
    var best := BestQualifying(columns, rows, ColonSeconds);
    if best.Err? {
      return Err(best.error);
    }
    var keyed := seq(|entries|, i requires 0 <= i < |entries| => (entries[i].raceId, best.value[i]));
    assert keyed == QualifyingBest(columns, entries);
    return Ok(JoinRaces(keyed, races));
  }

  /** `lap_sec`: milliseconds over 1000 when that column exists, the parsed `time` otherwise. */
  function LapSeconds(hasMilliseconds: bool, e: LapEntry): Option<real> {
    if hasMilliseconds then
      (if e.milliseconds.Num? then Some(e.milliseconds.x / 1000.0) else None)
    else ColonSeconds(e.time)
  }

  function LapKeyed(hasMilliseconds: bool, entries: seq<LapEntry>): (keyed: seq<(int, Option<real>)>)
    ensures |keyed| == |entries|
    ensures forall i :: 0 <= i < |entries| ==> keyed[i] == (entries[i].raceId, LapSeconds(hasMilliseconds, entries[i]))
  {
    seq(|entries|, i requires 0 <= i < |entries| => (entries[i].raceId, LapSeconds(hasMilliseconds, entries[i])))
  }

  /** `prepare_laps_with_best_lap`: each lap's seconds joined with its race's year and circuit. */
  function PrepareLaps(hasMilliseconds: bool, entries: seq<LapEntry>, races: seq<Race>): (r: seq<Timed>)
    ensures forall t :: t in r <==> exists e, race :: (e in entries && race in races && e.raceId == race.raceId
      && t == Timed(race.year, race.circuitId, LapSeconds(hasMilliseconds, e)))
  {
    var keyed := LapKeyed(hasMilliseconds, entries);
    var r := JoinRaces(keyed, races);
    forall t ensures t in r <==> exists e, race :: (e in entries && race in races && e.raceId == race.raceId
      && t == Timed(race.year, race.circuitId, LapSeconds(hasMilliseconds, e)))
    {
      if t in r {
        var p, race :| p in keyed && race in races && p.0 == race.raceId && t == Timed(race.year, race.circuitId, p.1);
        var i :| 0 <= i < |keyed| && keyed[i] == p;
        assert entries[i] in entries;
      }
      if exists e, race :: (e in entries && race in races && e.raceId == race.raceId
        && t == Timed(race.year, race.circuitId, LapSeconds(hasMilliseconds, e)))
      {
        var e, race :| e in entries && race in races && e.raceId == race.raceId
          && t == Timed(race.year, race.circuitId, LapSeconds(hasMilliseconds, e));
        var i :| 0 <= i < |entries| && entries[i] == e;
        assert keyed[i] in keyed;
      }
    }
    r
  }

  // ---------------------------------------------------------------------
  // The trend of one circuit
  // ---------------------------------------------------------------------

  /** The (year, seconds) pairs of the circuit's rows whose time is present. */
  function PresentFor(cid: int, rows: seq<Timed>): (ps: seq<(int, real)>)
    ensures forall p :: p in ps <==> Timed(p.0, cid, Some(p.1)) in rows
  {
    if rows == [] then []
    else
      var rest := PresentFor(cid, rows[1..]);
      assert forall t :: t in rows <==> t == rows[0] || t in rows[1..];
      var t := rows[0];
      (if t.circuitId == cid && t.sec.Some? then [(t.year, t.sec.value)] else []) + rest
  }

  function PointYear(t: TrendPoint): Key { [Int(t.year)] }

  /** `pole_by_year.merge(fastest_by_year, on="year", how="inner")`. */
  function MergeOnYear(poles: seq<(int, real)>, fastest: map<int, real>): (r: seq<TrendPoint>)
    ensures forall t :: t in r <==> exists p :: p in poles && p.0 in fastest && t == TrendPoint(p.0, p.1, fastest[p.0])
  {
    if poles == [] then []
    else
      var rest := MergeOnYear(poles[1..], fastest);
      assert forall p :: p in poles <==> p == poles[0] || p in poles[1..];
      var p := poles[0];
      (if p.0 in fastest then [TrendPoint(p.0, p.1, fastest[p.0])] else []) + rest
  }

  /** The merged per-year table, sorted by year. */
  function Trend(cid: int, quali: seq<Timed>, laps: seq<Timed>): seq<TrendPoint> {
    var poles := GroupRows(PresentFor(cid, quali), YearKey);
    var fastest := GroupMin(PresentFor(cid, laps));
    Sort(MergeOnYear(poles, fastest), PointYear)
  }

  /** The circuit has at least one row in the table (before dropping NaN). */
  predicate HasRowsFor(cid: int, rows: seq<Timed>) {
    exists t :: t in rows && t.circuitId == cid
  }

  /**
   * `build_laptrend_for_circuit` as a value: nothing when the circuit has
   * no qualifying or no lap rows, or fewer than two years in common.
   */
  function LaptrendFor(cid: int, quali: seq<Timed>, laps: seq<Timed>): seq<TrendPoint> {
    if !HasRowsFor(cid, quali) || !HasRowsFor(cid, laps) then []
    else
      var merged := Trend(cid, quali, laps);
      if |merged| < 2 then [] else merged
  }

  /** `v` is the circuit's pole time in year `y`: a present best qualifying time no other undercuts. */
  predicate IsLeastTime(cid: int, rows: seq<Timed>, y: int, v: real) {
    Timed(y, cid, Some(v)) in rows
      && forall t :: t in rows && t.circuitId == cid && t.year == y && t.sec.Some? ==> v <= t.sec.value
  }

  lemma PresentForLeast(cid: int, rows: seq<Timed>, y: int, v: real)
    ensures (y in GroupMin(PresentFor(cid, rows)) && GroupMin(PresentFor(cid, rows))[y] == v)
      <==> IsLeastTime(cid, rows, y, v)
  {
    var ps := PresentFor(cid, rows);
    GroupMinIsLeast(ps, y, v);
    if IsLeastTime(cid, rows, y, v) {
      forall p | p in ps && p.0 == y ensures v <= p.1 {
        assert Timed(p.0, cid, Some(p.1)) in rows;
      }
    }
    if (y, v) in ps && forall p :: p in ps && p.0 == y ==> v <= p.1 {
      forall t | t in rows && t.circuitId == cid && t.year == y && t.sec.Some? ensures v <= t.sec.value {
        assert (t.year, t.sec.value) in ps;
      }
    }
  }

  /**
   * The trend holds a record for year `y` exactly when the circuit has both
   * a present qualifying time and a present lap time that year, and the
   * record's pole and fastest are that year's least times.
   */
  lemma TrendPoints(cid: int, quali: seq<Timed>, laps: seq<Timed>, t: TrendPoint)
    ensures t in Trend(cid, quali, laps)
      <==> IsLeastTime(cid, quali, t.year, t.pole) && IsLeastTime(cid, laps, t.year, t.fastest)
  {
    var qs := PresentFor(cid, quali);
    var poles := GroupRows(qs, YearKey);
    var fastest := GroupMin(PresentFor(cid, laps));
    var merged := MergeOnYear(poles, fastest);
    assert t in Trend(cid, quali, laps) <==> t in merged by {
      assert t in multiset(Trend(cid, quali, laps)) <==> t in multiset(merged);
    }
    GroupRowsMember(qs, YearKey, (t.year, t.pole));
    PresentForLeast(cid, quali, t.year, t.pole);
    PresentForLeast(cid, laps, t.year, t.fastest);
  }

  /** Merging keeps the order of the pole table. */
  lemma {:induction false} MergeOnYearSorted(poles: seq<(int, real)>, fastest: map<int, real>)
    requires StrictlySortedBy(poles, RowKey(YearKey))
    ensures StrictlySortedBy(MergeOnYear(poles, fastest), PointYear)
  {
    if poles != [] {
      var tail := poles[1..];
      assert StrictlySortedBy(tail, RowKey(YearKey)) by {
        forall i, j | 0 <= i < j < |tail| ensures KeyLt(RowKey(YearKey)(tail[i]), RowKey(YearKey)(tail[j])) {
          assert tail[i] == poles[i + 1] && tail[j] == poles[j + 1];
        }
      }
      MergeOnYearSorted(tail, fastest);
      var rest := MergeOnYear(tail, fastest);
      var p := poles[0];
      forall k | 0 <= k < |rest| ensures KeyLt(PointYear(TrendPoint(p.0, p.1, 0.0)), PointYear(rest[k])) {
        assert rest[k] in rest;
        var q :| q in tail && q.0 in fastest && rest[k] == TrendPoint(q.0, q.1, fastest[q.0]);
        var j :| 0 <= j < |tail| && tail[j] == q;
        assert poles[j + 1] == q;
        assert KeyLt(RowKey(YearKey)(poles[0]), RowKey(YearKey)(poles[j + 1]));
        assert RowKey(YearKey)(poles[0]) == YearKey(p.0) == PointYear(TrendPoint(p.0, p.1, 0.0));
        assert RowKey(YearKey)(q) == YearKey(q.0) == PointYear(rest[k]);
      }
      var r := MergeOnYear(poles, fastest);
      if p.0 in fastest {
        assert r == [TrendPoint(p.0, p.1, fastest[p.0])] + rest;
        forall i, j | 0 <= i < j < |r| ensures KeyLt(PointYear(r[i]), PointYear(r[j])) {
          if i == 0 {
            assert r[j] == rest[j - 1];
            assert PointYear(r[0]) == PointYear(TrendPoint(p.0, p.1, 0.0));
          } else {
            assert r[i] == rest[i - 1] && r[j] == rest[j - 1];
          }
        }
      } else {
        assert r == rest;
      }
    }
  }

  /** The trend's years are strictly ascending, so each year appears once. */
  lemma TrendSorted(cid: int, quali: seq<Timed>, laps: seq<Timed>)
    ensures StrictlySortedBy(Trend(cid, quali, laps), PointYear)
  {
    var poles := GroupRows(PresentFor(cid, quali), YearKey);
    var fastest := GroupMin(PresentFor(cid, laps));
    GroupRowsStrictlySorted(PresentFor(cid, quali), YearKey);
    MergeOnYearSorted(poles, fastest);
    var merged := MergeOnYear(poles, fastest);
    assert SortedBy(merged, PointYear) by {
      forall i, j | 0 <= i < j < |merged| ensures KeyLe(PointYear(merged[i]), PointYear(merged[j])) {
        KeyLeFacts(PointYear(merged[i]), PointYear(merged[j]), PointYear(merged[j]));
      }
    }
    SortOfSorted(merged, PointYear);
  }

  /** The builder's output is empty or spans at least two years, and otherwise is the whole trend. */
  lemma LaptrendShape(cid: int, quali: seq<Timed>, laps: seq<Timed>)
    ensures LaptrendFor(cid, quali, laps) == [] || |LaptrendFor(cid, quali, laps)| >= 2
    ensures LaptrendFor(cid, quali, laps) != [] ==> LaptrendFor(cid, quali, laps) == Trend(cid, quali, laps)
    ensures |Trend(cid, quali, laps)| >= 2 ==> LaptrendFor(cid, quali, laps) == Trend(cid, quali, laps)
  {
    var tr := Trend(cid, quali, laps);
    if |tr| >= 2 {
      assert tr[0] in tr;
      TrendPointHasRows(cid, quali, laps, tr[0]);
    }
  }

  /** A trend point comes from rows of the circuit in both tables. */
  lemma TrendPointHasRows(cid: int, quali: seq<Timed>, laps: seq<Timed>, t: TrendPoint)
    requires t in Trend(cid, quali, laps)
    ensures HasRowsFor(cid, quali) && HasRowsFor(cid, laps)
  {
    TrendPoints(cid, quali, laps, t);
    assert Timed(t.year, cid, Some(t.pole)) in quali;
    assert Timed(t.year, cid, Some(t.fastest)) in laps;
  }

  /** The `iterrows` loop: one `{year, pole, fastest}` record appended per merged row, in order. */
  method ToRecords(merged: seq<TrendPoint>) returns (records: seq<TrendPoint>)
    ensures records == merged
  {
    records := [];
    for i := 0 to |merged|
      invariant records == merged[..i]
    {
      var row := merged[i];
      records := records + [TrendPoint(row.year, row.pole, row.fastest)];
    }
  }

  /** `build_laptrend_for_circuit`: the two emptiness checks, the merge, the two-year check, the records. */
  method BuildLaptrendForCircuit(cid: int, quali: seq<Timed>, laps: seq<Timed>) returns (records: seq<TrendPoint>)
    ensures records == LaptrendFor(cid, quali, laps)
  {
    if !HasRowsFor(cid, quali) || !HasRowsFor(cid, laps) {
      return [];
    }
    var merged := Trend(cid, quali, laps);
    if |merged| < 2 {
      return [];
    }
    records := ToRecords(merged);
  }

  // ---------------------------------------------------------------------
  // All circuits
  // ---------------------------------------------------------------------

  /** A JSON file the builders write: its file name and its records. */
  datatype JsonFile = JsonFile(path: string, records: seq<TrendPoint>)

  /**
   * `str(row["name"])` for the names circuits.csv holds: a text is itself and
   * a missing name prints as "nan". A numeric name, which Python prints as
   * its numeral, is also rendered "nan" here.
   */
  function NameText(v: Value): string {
    match v
    case Text(s) => s
    case _ => "nan"
  }

  /** The path a circuit's trend is written to: its slug and "_lap_times.json". */
  function FilePath(c: Circuit): string {
    Slug(c.circuitRef, NameText(c.name)) + "_lap_times.json"
  }

  /** The writes made for the circuits, in circuits.csv order; circuits without a trend get none. */
  function AllCircuitFiles(circuits: seq<Circuit>, quali: seq<Timed>, laps: seq<Timed>): (files: seq<JsonFile>)
    ensures |files| <= |circuits|
  {
    if circuits == [] then []
    else
      var init := circuits[..|circuits| - 1];
      var c := circuits[|circuits| - 1];
      var records := LaptrendFor(c.circuitId, quali, laps);
      AllCircuitFiles(init, quali, laps) + (if records == [] then [] else [JsonFile(FilePath(c), records)])
  }

  /** The circuits a run skips, in circuits.csv order: exactly those whose builder output is empty. */
  function SkippedCircuits(circuits: seq<Circuit>, quali: seq<Timed>, laps: seq<Timed>): (r: seq<Circuit>)
    ensures forall c :: c in r <==> c in circuits && LaptrendFor(c.circuitId, quali, laps) == []
  {
    if circuits == [] then []
    else
      var init := circuits[..|circuits| - 1];
      var c := circuits[|circuits| - 1];
      assert circuits == init + [c];
      SkippedCircuits(init, quali, laps) + (if LaptrendFor(c.circuitId, quali, laps) == [] then [c] else [])
  }

  /** The last circuit is skipped, after those before it, when its builder output is empty. */
  lemma SkippedCircuitsLast(circuits: seq<Circuit>, quali: seq<Timed>, laps: seq<Timed>)
    requires circuits != []
    ensures SkippedCircuits(circuits, quali, laps) == SkippedCircuits(circuits[..|circuits| - 1], quali, laps)
      + (if LaptrendFor(circuits[|circuits| - 1].circuitId, quali, laps) == [] then [circuits[|circuits| - 1]] else [])
  {
  }

  /** Taking one more circuit of the list adds its file or its skip. */
  lemma CircuitStep(circuits: seq<Circuit>, i: nat, quali: seq<Timed>, laps: seq<Timed>)
    requires i < |circuits|
    ensures AllCircuitFiles(circuits[..i + 1], quali, laps) == AllCircuitFiles(circuits[..i], quali, laps)
      + (if LaptrendFor(circuits[i].circuitId, quali, laps) == [] then []
         else [JsonFile(FilePath(circuits[i]), LaptrendFor(circuits[i].circuitId, quali, laps))])
    ensures SkippedCircuits(circuits[..i + 1], quali, laps) == SkippedCircuits(circuits[..i], quali, laps)
      + (if LaptrendFor(circuits[i].circuitId, quali, laps) == [] then [circuits[i]] else [])
  {
    assert circuits[..i + 1][..i] == circuits[..i] && circuits[..i + 1][i] == circuits[i];
    AllCircuitFilesLast(circuits[..i + 1], quali, laps);
    SkippedCircuitsLast(circuits[..i + 1], quali, laps);
  }

  /** Each circuit is either written or skipped: the two counts add up to the number of circuits. */
  lemma {:induction false} AllCircuitFilesCount(circuits: seq<Circuit>, quali: seq<Timed>, laps: seq<Timed>)
    ensures |AllCircuitFiles(circuits, quali, laps)| + |SkippedCircuits(circuits, quali, laps)| == |circuits|
  {
    if circuits != [] {
      AllCircuitFilesCount(circuits[..|circuits| - 1], quali, laps);
    }
  }

  /** Every circuit with a non-empty builder output gets its `<slug>_lap_times.json` file. */
  lemma AllCircuitFilesComplete(circuits: seq<Circuit>, quali: seq<Timed>, laps: seq<Timed>, c: Circuit)
    requires c in circuits && LaptrendFor(c.circuitId, quali, laps) != []
    ensures JsonFile(FilePath(c), LaptrendFor(c.circuitId, quali, laps)) in AllCircuitFiles(circuits, quali, laps)
  {
    AllCircuitFilesHas(circuits, quali, laps, c, JsonFile(FilePath(c), LaptrendFor(c.circuitId, quali, laps)));
  }

  lemma {:induction false} AllCircuitFilesHas(circuits: seq<Circuit>, quali: seq<Timed>, laps: seq<Timed>, c: Circuit, f: JsonFile)
    requires c in circuits && f.path == FilePath(c) && f.records == LaptrendFor(c.circuitId, quali, laps) && f.records != []
    ensures f in AllCircuitFiles(circuits, quali, laps)
  {
    var k :| 0 <= k < |circuits| && circuits[k] == c;
    AllCircuitFilesAt(circuits, quali, laps, k, f);
  }

  lemma {:induction false} AllCircuitFilesAt(circuits: seq<Circuit>, quali: seq<Timed>, laps: seq<Timed>, k: nat, f: JsonFile)
    requires k < |circuits| && f.path == FilePath(circuits[k]) && f.records == LaptrendFor(circuits[k].circuitId, quali, laps) && f.records != []
    ensures f in AllCircuitFiles(circuits, quali, laps)
  {
    AllCircuitFilesLast(circuits, quali, laps);
    if k < |circuits| - 1 {
      assert circuits[..|circuits| - 1][k] == circuits[k];
      AllCircuitFilesAt(circuits[..|circuits| - 1], quali, laps, k, f);
    }
  }

  /** The last circuit's file, when it has a trend, comes after the files of those before it. */
  lemma AllCircuitFilesLast(circuits: seq<Circuit>, quali: seq<Timed>, laps: seq<Timed>)
    requires circuits != []
    ensures AllCircuitFiles(circuits, quali, laps) == AllCircuitFiles(circuits[..|circuits| - 1], quali, laps)
      + (if LaptrendFor(circuits[|circuits| - 1].circuitId, quali, laps) == [] then []
         else [JsonFile(FilePath(circuits[|circuits| - 1]), LaptrendFor(circuits[|circuits| - 1].circuitId, quali, laps))])
  {
  }

  /** Every file written is the non-empty builder output of one of the circuits. */
  lemma {:induction false} AllCircuitFilesFrom(circuits: seq<Circuit>, quali: seq<Timed>, laps: seq<Timed>, f: JsonFile)
    requires f in AllCircuitFiles(circuits, quali, laps)
    ensures exists c :: (c in circuits && f.path == FilePath(c)
      && f.records == LaptrendFor(c.circuitId, quali, laps) && f.records != [])
  {
    var init := circuits[..|circuits| - 1];
    var c := circuits[|circuits| - 1];
    if f in AllCircuitFiles(init, quali, laps) {
      AllCircuitFilesFrom(init, quali, laps, f);
      var d :| d in init && f.path == FilePath(d)
        && f.records == LaptrendFor(d.circuitId, quali, laps) && f.records != [];
      assert d in circuits;
    } else {
      assert c in circuits;
    }
  }

  /** Every file written holds a circuit's trend, at least two years long and in year order. */
  lemma AllCircuitFilesTrends(circuits: seq<Circuit>, quali: seq<Timed>, laps: seq<Timed>, f: JsonFile)
    requires f in AllCircuitFiles(circuits, quali, laps)
    ensures exists c :: c in circuits && f.path == FilePath(c) && f.records == Trend(c.circuitId, quali, laps)
    ensures |f.records| >= 2 && StrictlySortedBy(f.records, PointYear)
  {
    AllCircuitFilesFrom(circuits, quali, laps, f);
    var c :| c in circuits && f.path == FilePath(c)
      && f.records == LaptrendFor(c.circuitId, quali, laps) && f.records != [];
    LaptrendShape(c.circuitId, quali, laps);
    TrendSorted(c.circuitId, quali, laps);
  }

  /**
   * The output directory after the writes, in order: each path holds the
   * records of the last write to it, as `open(out_path, "w")` replaces a file.
   */
  function Directory(files: seq<JsonFile>): (d: map<string, seq<TrendPoint>>)
    ensures forall f :: f in files ==> f.path in d
    ensures forall p :: p in d ==> exists f :: f in files && f.path == p && d[p] == f.records
  {
    if files == [] then map[]
    else
      var last := files[|files| - 1];
      var d := Directory(files[..|files| - 1])[last.path := last.records];
      assert forall f :: f in files ==> f in files[..|files| - 1] || f == last;
      d
  }

  /** No two writes go to the same path. */
  predicate DistinctPaths(files: seq<JsonFile>) {
    forall i, j :: 0 <= i < j < |files| ==> files[i].path != files[j].path
  }

  /** No two circuits have the same `<slug>_lap_times.json` path. */
  predicate DistinctFilePaths(circuits: seq<Circuit>) {
    forall i, j :: 0 <= i < j < |circuits| ==> FilePath(circuits[i]) != FilePath(circuits[j])
  }

  /** When no path is written twice, every write survives in the directory. */
  lemma {:induction false} DirectoryOfDistinct(files: seq<JsonFile>)
    requires DistinctPaths(files)
    ensures forall f :: f in files ==> Directory(files)[f.path] == f.records
  {
    if files != [] {
      var init := files[..|files| - 1];
      var last := files[|files| - 1];
      DistinctPrefix(files);
      DirectoryOfDistinct(init);
      DirectoryLast(files);
      forall f | f in files && f != last ensures Directory(files)[f.path] == f.records {
        EarlierWrite(files, f);
      }
    }
  }

  /** Dropping the last write keeps the paths distinct. */
  lemma DistinctPrefix(files: seq<JsonFile>)
    requires files != [] && DistinctPaths(files)
    ensures DistinctPaths(files[..|files| - 1])
  {
    var init := files[..|files| - 1];
    forall i, j | 0 <= i < j < |init| ensures init[i].path != init[j].path {
      assert init[i] == files[i] && init[j] == files[j];
    }
  }

  /** A write other than the last comes before it, at another path. */
  lemma EarlierWrite(files: seq<JsonFile>, f: JsonFile)
    requires files != [] && DistinctPaths(files) && f in files && f != files[|files| - 1]
    ensures f in files[..|files| - 1] && f.path != files[|files| - 1].path
  {
    var k :| 0 <= k < |files| && files[k] == f;
    assert files[..|files| - 1][k] == f;
  }

  /** Circuits with distinct paths give writes with distinct paths. */
  lemma {:induction false} AllCircuitFilesDistinct(circuits: seq<Circuit>, quali: seq<Timed>, laps: seq<Timed>)
    requires DistinctFilePaths(circuits)
    ensures DistinctPaths(AllCircuitFiles(circuits, quali, laps))
  {
    if circuits != [] {
      var init := circuits[..|circuits| - 1];
      var c := circuits[|circuits| - 1];
      assert DistinctFilePaths(init) by {
        forall i, j | 0 <= i < j < |init| ensures FilePath(init[i]) != FilePath(init[j]) {
          assert init[i] == circuits[i] && init[j] == circuits[j];
        }
      }
      AllCircuitFilesDistinct(init, quali, laps);
      var before := AllCircuitFiles(init, quali, laps);
      forall f | f in before ensures f.path != FilePath(c) {
        PathOfEarlier(circuits, quali, laps, f);
      }
      AllCircuitFilesLast(circuits, quali, laps);
      var records := LaptrendFor(c.circuitId, quali, laps);
      DistinctSnoc(before, if records == [] then [] else [JsonFile(FilePath(c), records)]);
    }
  }

  /** A write for one of the earlier circuits is not at the last circuit's path. */
  lemma PathOfEarlier(circuits: seq<Circuit>, quali: seq<Timed>, laps: seq<Timed>, f: JsonFile)
    requires circuits != [] && DistinctFilePaths(circuits)
    requires f in AllCircuitFiles(circuits[..|circuits| - 1], quali, laps)
    ensures f.path != FilePath(circuits[|circuits| - 1])
  {
    var init := circuits[..|circuits| - 1];
    WrittenPathAt(init, quali, laps, f);
    var k :| 0 <= k < |init| && f.path == FilePath(init[k]);
    assert init[k] == circuits[k];
  }

  /** Every write is at the path of a circuit of the list, named by its index. */
  lemma {:induction false} WrittenPathAt(circuits: seq<Circuit>, quali: seq<Timed>, laps: seq<Timed>, f: JsonFile)
    requires f in AllCircuitFiles(circuits, quali, laps)
    ensures exists k :: 0 <= k < |circuits| && f.path == FilePath(circuits[k])
  {
    AllCircuitFilesLast(circuits, quali, laps);
    var init := circuits[..|circuits| - 1];
    if f in AllCircuitFiles(init, quali, laps) {
      WrittenPathAt(init, quali, laps, f);
      var k :| 0 <= k < |init| && f.path == FilePath(init[k]);
      assert init[k] == circuits[k];
    } else {
      assert f.path == FilePath(circuits[|circuits| - 1]);
    }
  }

  /** Appending at most one write at a new path keeps the paths distinct. */
  lemma DistinctSnoc(before: seq<JsonFile>, extra: seq<JsonFile>)
    requires DistinctPaths(before) && |extra| <= 1
    requires forall f, g :: f in before && g in extra ==> f.path != g.path
    ensures DistinctPaths(before + extra)
  {
    var all := before + extra;
    forall i, j | 0 <= i < j < |all| ensures all[i].path != all[j].path {
      if j >= |before| {
        assert all[j] in extra && all[i] in before;
      }
    }
  }

  /** With distinct paths, the directory holds every circuit's non-empty trend at its path. */
  lemma AllCircuitFilesDirectory(circuits: seq<Circuit>, quali: seq<Timed>, laps: seq<Timed>, c: Circuit)
    requires DistinctFilePaths(circuits) && c in circuits && LaptrendFor(c.circuitId, quali, laps) != []
    ensures FilePath(c) in Directory(AllCircuitFiles(circuits, quali, laps))
    ensures Directory(AllCircuitFiles(circuits, quali, laps))[FilePath(c)] == LaptrendFor(c.circuitId, quali, laps)
  {
    AllCircuitFilesComplete(circuits, quali, laps, c);
    AllCircuitFilesDistinct(circuits, quali, laps);
    DirectoryOfDistinct(AllCircuitFiles(circuits, quali, laps));
  }

  /** The directory after one more write: that write's path now holds its records. */
  lemma DirectoryLast(files: seq<JsonFile>)
    requires files != []
    ensures Directory(files) == Directory(files[..|files| - 1])[files[|files| - 1].path := files[|files| - 1].records]
  {
  }

  /** Two writes to one path leave one file, holding the second write's records. */
  lemma TwoWritesSamePath(fa: JsonFile, fb: JsonFile)
    requires fa.path == fb.path
    ensures Directory([fa, fb]).Keys == {fa.path}
    ensures Directory([fa, fb])[fa.path] == fb.records
  {
    DirectoryLast([fa, fb]);
    assert [fa, fb][..1] == [fa];
    DirectoryLast([fa]);
    assert [fa][..0] == [];
  }

  /**
   * A circuit whose `circuitRef` is already a slug, such as "spa", shares its
   * path with a circuit that has no `circuitRef` and is named by that slug.
   */
  lemma SlugsCollide(ref: string, name: string)
    requires AllPlain(ref)
    ensures FilePath(Circuit(1, Text(ref), Text(name))) == FilePath(Circuit(2, Missing, Text(ref)))
  {
    SlugOfPlain(ref, name);
    assert SlugBase(Missing, ref) == SlugBase(Text(ref), name);
  }

  /** The outcome of a run over all circuits: the files, and the generated and skipped counts. */
  datatype Summary = Summary(files: seq<JsonFile>, generated: nat, skipped: nat)

  /**
   * `build_all_circuits_json`: prepares both tables once, then for every
   * circuit builds its trend and either writes `<slug>_lap_times.json` and
   * counts it generated, or counts it skipped.
   */
  method BuildAllCircuits(columns: seq<string>, qualifying: seq<QualifyingEntry>, hasMilliseconds: bool,
                          lapTimes: seq<LapEntry>, races: seq<Race>, circuits: seq<Circuit>)
    returns (r: Result<Summary, string>)
    ensures r.Err? <==> forall c :: c in QualifyingCandidates ==> c !in columns
    ensures r.Ok? ==> r.value.files == AllCircuitFiles(circuits,
      JoinRaces(QualifyingBest(columns, qualifying), races), PrepareLaps(hasMilliseconds, lapTimes, races))
    ensures r.Ok? ==> r.value.skipped == |SkippedCircuits(circuits,
      JoinRaces(QualifyingBest(columns, qualifying), races), PrepareLaps(hasMilliseconds, lapTimes, races))|
    ensures r.Ok? ==> r.value.generated == |r.value.files| && r.value.generated + r.value.skipped == |circuits|
  {
    var quali := PrepareQualifying(columns, qualifying, races);
    if quali.Err? {
      return Err(quali.error);
    }
    var laps := PrepareLaps(hasMilliseconds, lapTimes, races);
    var files: seq<JsonFile> := [];
    var generated: nat := 0;
    var skipped: nat := 0;
    for i := 0 to |circuits|
      invariant files == AllCircuitFiles(circuits[..i], quali.value, laps)
      invariant skipped == |SkippedCircuits(circuits[..i], quali.value, laps)|
      invariant generated == |files| && generated + skipped == i
    {
      var c := circuits[i];
      var records := BuildLaptrendForCircuit(c.circuitId, quali.value, laps);
      CircuitStep(circuits, i, quali.value, laps);
      if records == [] {
        skipped := skipped + 1;
      } else {
        files := files + [JsonFile(FilePath(c), records)];
        generated := generated + 1;
      }
    }
    assert circuits[..|circuits|] == circuits;
    return Ok(Summary(files, generated, skipped));
  }
}

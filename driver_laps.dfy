/**
 * The per-driver lap generators. The all-circuits generator writes, for
 * every circuit, each driver's best qualifying time ("Q") and best race
 * fastest lap ("R") per year as `<circuitRef>_driver_laps.json`; the Spa
 * generator writes the qualifying half for Spa-Francorchamps alone as
 * `spa_driver_laps.json`.
 */
module DriverLaps {
  import opened Wrappers
  import opened Ordering
  import opened LapTimes
  import opened Aggregate
  import opened Identifiers
  import opened CircuitTrend
  import ConstructorLaps
  import SpaTrend

  /** A row of drivers.csv; `code` and `surname` may be NaN or not text. */
  datatype DriverRow = DriverRow(driverId: int, code: Value, surname: Value)

  /** A row of qualifying.csv as these generators read it. */
  datatype QualiRow = QualiRow(raceId: int, driverId: int, times: Row)

  /** A row of results.csv: the driver's fastest race lap as written there. */
  datatype ResultRow = ResultRow(raceId: int, driverId: int, fastestLapTime: Value)

  /** A group of `groupby(["circuitRef", "year", "driverCode"])`. */
  datatype DriverGroup = DriverGroup(circuitRef: string, year: int, code: string)

  /** A row of `all_grouped`. */
  datatype DriverBest = DriverBest(circuitRef: string, year: int, session: string, code: string, lapSec: real)

  /** One record of a driver-laps file; `driverId` holds the driver code. */
  datatype DriverRecord = DriverRecord(year: int, session: string, driverId: string, lapTime: real)

  datatype DriverFile = DriverFile(path: string, records: seq<DriverRecord>)

  // ---------------------------------------------------------------------
  // Shared steps
  // ---------------------------------------------------------------------

  /** `c` is the code of a drivers.csv row with this id, or "DRV" when there is no such row. */
  predicate IsDriverCode(driverId: int, drivers: seq<DriverRow>, c: string) {
    (exists d :: d in drivers && d.driverId == driverId && c == NormalizeDriverCode(d.code, d.surname))
    || ((forall d :: d in drivers ==> d.driverId != driverId) && c == "DRV")
  }

  /**
   * The `driverCode` values a row gets from the left merge with drivers.csv:
   * the normalized code of every driver row with its id, or the code of a
   * row of NaNs, "DRV", when no driver row has it.
   */
  function DriverCodes(driverId: int, drivers: seq<DriverRow>): (codes: seq<string>)
    ensures forall c :: c in codes <==> IsDriverCode(driverId, drivers, c)
  {
    var f := (d: DriverRow) => if d.driverId == driverId then [NormalizeDriverCode(d.code, d.surname)] else [];
    var hits := FlatMap(drivers, f);
    if hits == [] then
      assert forall d :: d in drivers ==> d.driverId != driverId by {
        forall d | d in drivers ensures d.driverId != driverId {
          assert NormalizeDriverCode(d.code, d.surname) !in hits;
        }
      }
      [NormalizeDriverCode(Missing, Missing)]
    else
      assert forall c :: c in hits <==>
        exists d :: d in drivers && d.driverId == driverId && c == NormalizeDriverCode(d.code, d.surname) by {
        forall c ensures c in hits <==>
          exists d :: d in drivers && d.driverId == driverId && c == NormalizeDriverCode(d.code, d.surname) {
          if c in hits {
            var d :| d in drivers && c in f(d);
          }
          if exists d :: d in drivers && d.driverId == driverId && c == NormalizeDriverCode(d.code, d.surname) {
            var d :| d in drivers && d.driverId == driverId && c == NormalizeDriverCode(d.code, d.surname);
            assert c in f(d);
          }
        }
      }
      assert hits[0] in hits;
      var d :| d in drivers && hits[0] in f(d);
      assert d.driverId == driverId;
      hits
  }

  /** `best_sec` of one qualifying row: its least q1..q3 time, a missing column counting as None. */
  function BestSec(columns: seq<string>, q: QualiRow): Option<real> {
    MinPresent([SessionSeconds(columns, q.times, "q1", DriverSeconds),
                SessionSeconds(columns, q.times, "q2", DriverSeconds),
                SessionSeconds(columns, q.times, "q3", DriverSeconds)])
  }

  /** Each qualifying row with its `best_sec`. */
  function WithBestSec(columns: seq<string>, quali: seq<QualiRow>): (rows: seq<(QualiRow, Option<real>)>)
    ensures |rows| == |quali|
    ensures forall i :: 0 <= i < |quali| ==> rows[i] == (quali[i], BestSec(columns, quali[i]))
  {
    seq(|quali|, i requires 0 <= i < |quali| => (quali[i], BestSec(columns, quali[i])))
  }

  /** The `best_sec` loop over q1, q2, q3, the column added to every row. */
  method QualifyingBestSecs(columns: seq<string>, quali: seq<QualiRow>) returns (rows: seq<(QualiRow, Option<real>)>)
    ensures rows == WithBestSec(columns, quali)
  {
    var times := seq(|quali|, i requires 0 <= i < |quali| => quali[i].times);
    var best := BestOfSessions(columns, times, DriverSeconds);
    rows := seq(|quali|, i requires 0 <= i < |quali| => (quali[i], best[i]));
  }

  // ---------------------------------------------------------------------
  // All circuits: the pairs each aggregation sees
  // ---------------------------------------------------------------------

  /** A qualifying row's group and best time, when its race has a circuitRef and the time is not NaN. */
  function QualiPair(q: QualiRow, best: Option<real>, s: ConstructorLaps.SitedRace, code: string): seq<(DriverGroup, real)> {
    if s.raceId == q.raceId && s.circuitRef.Some? && best.Some?
    then [(DriverGroup(s.circuitRef.value, s.year, code), best.value)]
    else []
  }

  function QualiPairsAt(q: QualiRow, best: Option<real>, s: ConstructorLaps.SitedRace, drivers: seq<DriverRow>)
    : (ps: seq<(DriverGroup, real)>)
    ensures forall p :: p in ps <==> exists c :: c in DriverCodes(q.driverId, drivers) && p in QualiPair(q, best, s, c)
  {
    FlatMap(DriverCodes(q.driverId, drivers), (c: string) => QualiPair(q, best, s, c))
  }

  function QualiPairsOf(q: QualiRow, best: Option<real>, sited: seq<ConstructorLaps.SitedRace>, drivers: seq<DriverRow>)
    : (ps: seq<(DriverGroup, real)>)
    ensures forall p :: p in ps <==>
      exists s, c :: s in sited && c in DriverCodes(q.driverId, drivers) && p in QualiPair(q, best, s, c)
  {
    FlatMap(sited, (s: ConstructorLaps.SitedRace) => QualiPairsAt(q, best, s, drivers))
  }

  /**
   * `q_valid` as (group, best_sec) pairs, from each qualifying row with its
   * `best_sec`: qualifying merged with the races (and their circuitRef) and
   * with drivers.csv, less the NaN times; rows whose circuitRef is NaN fall
   * out of the `groupby`.
   */
  function QualiPairs(rows: seq<(QualiRow, Option<real>)>, sited: seq<ConstructorLaps.SitedRace>,
                      drivers: seq<DriverRow>): (ps: seq<(DriverGroup, real)>)
    ensures forall p :: p in ps <==> exists qb, s, c :: (qb in rows && s in sited
      && c in DriverCodes(qb.0.driverId, drivers) && p in QualiPair(qb.0, qb.1, s, c))
  {
    FlatMap(rows, (qb: (QualiRow, Option<real>)) => QualiPairsOf(qb.0, qb.1, sited, drivers))
  }

  /** A result's group and `fastest_sec`, when its race has a circuitRef and the time parses. */
  function RacePair(r: ResultRow, s: ConstructorLaps.SitedRace, code: string): seq<(DriverGroup, real)> {
    if s.raceId == r.raceId && s.circuitRef.Some? && DriverSeconds(r.fastestLapTime).Some?
    then [(DriverGroup(s.circuitRef.value, s.year, code), DriverSeconds(r.fastestLapTime).value)]
    else []
  }

  function RacePairsAt(r: ResultRow, s: ConstructorLaps.SitedRace, drivers: seq<DriverRow>): (ps: seq<(DriverGroup, real)>)
    ensures forall p :: p in ps <==> exists c :: c in DriverCodes(r.driverId, drivers) && p in RacePair(r, s, c)
  {
    FlatMap(DriverCodes(r.driverId, drivers), (c: string) => RacePair(r, s, c))
  }

  function RacePairsOf(r: ResultRow, sited: seq<ConstructorLaps.SitedRace>, drivers: seq<DriverRow>)
    : (ps: seq<(DriverGroup, real)>)
    ensures forall p :: p in ps <==>
      exists s, c :: s in sited && c in DriverCodes(r.driverId, drivers) && p in RacePair(r, s, c)
  {
    FlatMap(sited, (s: ConstructorLaps.SitedRace) => RacePairsAt(r, s, drivers))
  }

  /** `r_valid` as (group, fastest_sec) pairs. */
  function RacePairs(results: seq<ResultRow>, sited: seq<ConstructorLaps.SitedRace>, drivers: seq<DriverRow>)
    : (ps: seq<(DriverGroup, real)>)
    ensures forall p :: p in ps <==> exists r, s, c :: (r in results && s in sited
      && c in DriverCodes(r.driverId, drivers) && p in RacePair(r, s, c))
  {
    FlatMap(results, (r: ResultRow) => RacePairsOf(r, sited, drivers))
  }

  // ---------------------------------------------------------------------
  // All circuits: aggregation and files
  // ---------------------------------------------------------------------

  function DriverKey(g: DriverGroup): Key { [Str(g.circuitRef), Int(g.year), Str(g.code)] }

  /** A `groupby(...).min()` table with its `session` column. */
  function Tagged(rows: seq<(DriverGroup, real)>, session: string): (r: seq<DriverBest>)
    ensures |r| == |rows|
    ensures forall i :: 0 <= i < |rows| ==>
      r[i] == DriverBest(rows[i].0.circuitRef, rows[i].0.year, session, rows[i].0.code, rows[i].1)
  {
    seq(|rows|, i requires 0 <= i < |rows| =>
      DriverBest(rows[i].0.circuitRef, rows[i].0.year, session, rows[i].0.code, rows[i].1))
  }

  /** `all_grouped`: the qualifying groups, then the race groups. */
  function AllGrouped(qPairs: seq<(DriverGroup, real)>, rPairs: seq<(DriverGroup, real)>): seq<DriverBest> {
    Tagged(GroupRows(qPairs, DriverKey), "Q") + Tagged(GroupRows(rPairs, DriverKey), "R")
  }

  lemma TaggedMember(rows: seq<(DriverGroup, real)>, session: string, b: DriverBest)
    ensures b in Tagged(rows, session) <==>
      b.session == session && (DriverGroup(b.circuitRef, b.year, b.code), b.lapSec) in rows
  {
    var t := Tagged(rows, session);
    if (DriverGroup(b.circuitRef, b.year, b.code), b.lapSec) in rows && b.session == session {
      var i :| 0 <= i < |rows| && rows[i] == (DriverGroup(b.circuitRef, b.year, b.code), b.lapSec);
      assert t[i] == b;
    }
  }

  /**
   * A row of `all_grouped` is the least qualifying or race time of its
   * circuit, year and driver, and every such least time has its row.
   */
  lemma AllGroupedRows(qPairs: seq<(DriverGroup, real)>, rPairs: seq<(DriverGroup, real)>, b: DriverBest)
    ensures b in AllGrouped(qPairs, rPairs) <==>
      (b.session == "Q" && IsLeast(qPairs, DriverGroup(b.circuitRef, b.year, b.code), b.lapSec))
      || (b.session == "R" && IsLeast(rPairs, DriverGroup(b.circuitRef, b.year, b.code), b.lapSec))
  {
    var g := DriverGroup(b.circuitRef, b.year, b.code);
    GroupRowsMember(qPairs, DriverKey, (g, b.lapSec));
    GroupRowsMember(rPairs, DriverKey, (g, b.lapSec));
    GroupMinIsLeast(qPairs, g, b.lapSec);
    GroupMinIsLeast(rPairs, g, b.lapSec);
    TaggedMember(GroupRows(qPairs, DriverKey), "Q", b);
    TaggedMember(GroupRows(rPairs, DriverKey), "R", b);
  }

  /** The keys of `all_grouped.groupby("circuitRef")`, ascending. */
  function DriverCircuitRefs(all: seq<DriverBest>): seq<string> {
    SortedUnique(seq(|all|, i requires 0 <= i < |all| => all[i].circuitRef))
  }

  function BestKey(b: DriverBest): Key { [Int(b.year), Str(b.session), Str(b.code)] }

  function ToRecord(b: DriverBest): DriverRecord {
    DriverRecord(b.year, b.session, b.code, b.lapSec)
  }

  /** The rows of `all_grouped` at circuit `k`. */
  function AtCircuit(k: string): DriverBest -> bool {
    (b: DriverBest) => b.circuitRef == k
  }

  /** `sub.sort_values(["year", "session", "driverCode"])` for circuit `k`. */
  function FileRows(all: seq<DriverBest>, k: string): seq<DriverBest> {
    Sort(Filter(all, AtCircuit(k)), BestKey)
  }

  function FileRecords(all: seq<DriverBest>, k: string): (records: seq<DriverRecord>)
    ensures |records| == |FileRows(all, k)|
  {
    var rows := FileRows(all, k);
    seq(|rows|, i requires 0 <= i < |rows| => ToRecord(rows[i]))
  }

  /** The `<circuitRef>_driver_laps.json` file of one circuit. */
  function DriverFileOf(all: seq<DriverBest>, k: string): DriverFile {
    DriverFile(k + "_driver_laps.json", FileRecords(all, k))
  }

  /** The files of the circuits `refs`, in that order. */
  function FilesFor(all: seq<DriverBest>, refs: seq<string>): (files: seq<DriverFile>)
    ensures |files| == |refs|
    decreases |refs|
  {
    if refs == [] then [] else FilesFor(all, refs[..|refs| - 1]) + [DriverFileOf(all, refs[|refs| - 1])]
  }

  /** The file of every circuit, in ascending `circuitRef` order. */
  function DriverFiles(all: seq<DriverBest>): seq<DriverFile> {
    FilesFor(all, DriverCircuitRefs(all))
  }

  /** The `i`-th file is the file of the `i`-th circuit. */
  lemma {:induction false} FilesForIndex(all: seq<DriverBest>, refs: seq<string>, i: int)
    requires 0 <= i < |refs|
    ensures FilesFor(all, refs)[i] == DriverFileOf(all, refs[i])
    decreases |refs|
  {
    if i < |refs| - 1 {
      FilesForIndex(all, refs[..|refs| - 1], i);
    }
  }

  /** The `iterrows` loop of one file. */
  method RecordsOf(rows: seq<DriverBest>) returns (records: seq<DriverRecord>)
    ensures |records| == |rows| && forall j :: 0 <= j < |rows| ==> records[j] == ToRecord(rows[j])
  {
    records := [];
    for i := 0 to |rows|
      invariant |records| == i && forall j :: 0 <= j < i ==> records[j] == ToRecord(rows[j])
    {
      var row := rows[i];
      records := records + [DriverRecord(row.year, row.session, row.code, row.lapSec)];
    }
  }

  /** One file of the output loop: the circuit's rows in order, then its records. */
  method WriteDriverFile(all: seq<DriverBest>, k: string) returns (file: DriverFile)
    ensures file == DriverFileOf(all, k)
  {
    var subSorted := FileRows(all, k);
    var records := RecordsOf(subSorted);
    assert records == FileRecords(all, k);
    file := DriverFile(k + "_driver_laps.json", records);
  }

  /** The output loop with its `count_files` counter. */
  method WriteDriverFiles(all: seq<DriverBest>) returns (files: seq<DriverFile>, count: int)
    ensures files == DriverFiles(all)
    ensures count == |DriverCircuitRefs(all)|
  {
    var refs := DriverCircuitRefs(all);
    files := [];
    count := 0;
    for k := 0 to |refs|
      invariant count == k
      invariant files == FilesFor(all, refs[..k])
    {
      var file := WriteDriverFile(all, refs[k]);
      FilesForSnoc(all, refs, k);
      files := files + [file];
      count := count + 1;
    }
    assert refs[..|refs|] == refs;
  }

  /** One more circuit, one more file at the end. */
  lemma FilesForSnoc(all: seq<DriverBest>, refs: seq<string>, k: int)
    requires 0 <= k < |refs|
    ensures FilesFor(all, refs[..k + 1]) == FilesFor(all, refs[..k]) + [DriverFileOf(all, refs[k])]
  {
    assert refs[..k + 1][..k] == refs[..k];
  }

  function RecordKey(r: DriverRecord): Key { [Int(r.year), Str(r.session), Str(r.driverId)] }

  /** Within a file, records ascend by (year, session, driver code). */
  lemma FileRecordsSorted(all: seq<DriverBest>, k: string)
    ensures SortedBy(FileRecords(all, k), RecordKey)
  {
    var rows := FileRows(all, k);
    var records := FileRecords(all, k);
    SortSorted(Filter(all, AtCircuit(k)), BestKey);
    assert forall i :: 0 <= i < |rows| ==> RecordKey(records[i]) == BestKey(rows[i]);
  }

  lemma FileRowsMember(all: seq<DriverBest>, k: string, b: DriverBest)
    ensures b in FileRows(all, k) <==> b in all && b.circuitRef == k
  {
    var sub := Filter(all, AtCircuit(k));
    assert b in FileRows(all, k) <==> b in multiset(sub);
  }

  /** A file's records are exactly its circuit's rows of `all_grouped`. */
  lemma FileRecordsMember(all: seq<DriverBest>, k: string, r: DriverRecord)
    ensures r in FileRecords(all, k) <==> DriverBest(k, r.year, r.session, r.driverId, r.lapTime) in all
  {
    var b := DriverBest(k, r.year, r.session, r.driverId, r.lapTime);
    var rows := FileRows(all, k);
    var records := FileRecords(all, k);
    FileRowsMember(all, k, b);
    if r in records {
      var i :| 0 <= i < |records| && records[i] == r;
      FileRowsMember(all, k, rows[i]);
      assert rows[i] == b;
    }
    if b in rows {
      var i :| 0 <= i < |rows| && rows[i] == b;
      assert records[i] == r;
    }
  }

  /**
   * A record of circuit `k`'s file is the driver's best qualifying time or
   * best race lap of that year there; every such best time is in the file.
   */
  lemma DriverRecordIsBest(qPairs: seq<(DriverGroup, real)>, rPairs: seq<(DriverGroup, real)>, k: string, r: DriverRecord)
    ensures r in FileRecords(AllGrouped(qPairs, rPairs), k) <==>
      (r.session == "Q" && IsLeast(qPairs, DriverGroup(k, r.year, r.driverId), r.lapTime))
      || (r.session == "R" && IsLeast(rPairs, DriverGroup(k, r.year, r.driverId), r.lapTime))
  {
    FileRecordsMember(AllGrouped(qPairs, rPairs), k, r);
    AllGroupedRows(qPairs, rPairs, DriverBest(k, r.year, r.session, r.driverId, r.lapTime));
  }

  /** A file holds one record per year, session and driver. */
  lemma DriverRecordUnique(qPairs: seq<(DriverGroup, real)>, rPairs: seq<(DriverGroup, real)>, k: string,
                           r1: DriverRecord, r2: DriverRecord)
    requires r1 in FileRecords(AllGrouped(qPairs, rPairs), k)
    requires r2 in FileRecords(AllGrouped(qPairs, rPairs), k)
    requires r1.year == r2.year && r1.session == r2.session && r1.driverId == r2.driverId
    ensures r1 == r2
  {
    DriverRecordIsBest(qPairs, rPairs, k, r1);
    DriverRecordIsBest(qPairs, rPairs, k, r2);
  }

  /** One file per circuitRef that has a group: ascending, and each from `all_grouped`. */
  lemma DriverCircuitRefsMember(all: seq<DriverBest>)
    ensures StrictlySortedBy(DriverCircuitRefs(all), TextKey)
    ensures forall k :: k in DriverCircuitRefs(all) <==> exists b :: b in all && b.circuitRef == k
  {
    var ks := seq(|all|, i requires 0 <= i < |all| => all[i].circuitRef);
    forall k ensures k in DriverCircuitRefs(all) <==> exists b :: b in all && b.circuitRef == k {
      if exists b :: b in all && b.circuitRef == k {
        var b :| b in all && b.circuitRef == k;
        var i :| 0 <= i < |all| && all[i] == b;
        assert ks[i] == k;
      }
      if k in ks {
        var i :| 0 <= i < |ks| && ks[i] == k;
        assert all[i] in all;
      }
    }
  }

  /**
   * generate_driver_laps_all end to end: RuntimeError when results.csv has
   * no fastestLapTime column; otherwise the files of `all_grouped` and how
   * many were written.
   */
  method GenerateDriverLapsAll(races: seq<Race>, circuits: seq<ConstructorLaps.CircuitRow>, drivers: seq<DriverRow>,
                               qualiColumns: seq<string>, qualifying: seq<QualiRow>,
                               resultColumns: seq<string>, results: seq<ResultRow>)
    returns (r: Result<(seq<DriverFile>, int), string>)
    ensures r.Err? <==> "fastestLapTime" !in resultColumns
    ensures r.Ok? ==> r.value.0 == DriverFiles(AllGrouped(
      QualiPairs(WithBestSec(qualiColumns, qualifying), ConstructorLaps.SiteRaces(races, circuits), drivers),
      RacePairs(results, ConstructorLaps.SiteRaces(races, circuits), drivers)))
    ensures r.Ok? ==> r.value.1 == |r.value.0|
  {
    var sited := ConstructorLaps.SiteRaces(races, circuits);
    var withBest := QualifyingBestSecs(qualiColumns, qualifying);
    var qPairs := QualiPairs(withBest, sited, drivers);
    if "fastestLapTime" !in resultColumns {
      return Err("results.csv has no fastestLapTime column");
    }
    var rPairs := RacePairs(results, sited, drivers);
    var all := AllGrouped(qPairs, rPairs);
    var files, count := WriteDriverFiles(all);
    return Ok((files, count));
  }

  // ---------------------------------------------------------------------
  // Spa only
  // ---------------------------------------------------------------------

  /** A group of `groupby(["year", "driverCode"])`. */
  datatype YearDriver = YearDriver(year: int, code: string)

  function YearDriverKey(g: YearDriver): Key { [Int(g.year), Str(g.code)] }

  /** A Spa qualifying row's (year, driver) and best time, when the time is not NaN. */
  function SpaPair(q: QualiRow, best: Option<real>, race: Race, code: string): seq<(YearDriver, real)> {
    if race.raceId == q.raceId && best.Some? then [(YearDriver(race.year, code), best.value)] else []
  }

  function SpaPairsAt(q: QualiRow, best: Option<real>, race: Race, drivers: seq<DriverRow>): (ps: seq<(YearDriver, real)>)
    ensures forall p :: p in ps <==> exists c :: c in DriverCodes(q.driverId, drivers) && p in SpaPair(q, best, race, c)
  {
    FlatMap(DriverCodes(q.driverId, drivers), (c: string) => SpaPair(q, best, race, c))
  }

  function SpaPairsOf(q: QualiRow, best: Option<real>, spaRaces: seq<Race>, drivers: seq<DriverRow>)
    : (ps: seq<(YearDriver, real)>)
    ensures forall p :: p in ps <==>
      exists race, c :: race in spaRaces && c in DriverCodes(q.driverId, drivers) && p in SpaPair(q, best, race, c)
  {
    FlatMap(spaRaces, (race: Race) => SpaPairsAt(q, best, race, drivers))
  }

  /**
   * `spa_qualifying.dropna(subset=["best_sec"])` as (year, driver) pairs:
   * qualifying, with each row's `best_sec`, inner-merged with the Spa races
   * and left-merged with drivers.csv.
   */
  function SpaPairs(rows: seq<(QualiRow, Option<real>)>, spaRaces: seq<Race>, drivers: seq<DriverRow>)
    : (ps: seq<(YearDriver, real)>)
    ensures forall p :: p in ps <==> exists qb, race, c :: (qb in rows && race in spaRaces
      && c in DriverCodes(qb.0.driverId, drivers) && p in SpaPair(qb.0, qb.1, race, c))
  {
    FlatMap(rows, (qb: (QualiRow, Option<real>)) => SpaPairsOf(qb.0, qb.1, spaRaces, drivers))
  }

  function SpaRecord(row: (YearDriver, real)): DriverRecord {
    DriverRecord(row.0.year, "Q", row.0.code, row.1)
  }

  /** The records of spa_driver_laps.json: the grouped minima sorted by (year, driver code), all "Q". */
  function SpaRecords(pairs: seq<(YearDriver, real)>): seq<DriverRecord> {
    SpaRecordsFrom(Sort(GroupRows(pairs, YearDriverKey), RowKey(YearDriverKey)))
  }

  /** One "Q" record per grouped row, in order. */
  function SpaRecordsFrom(sorted: seq<(YearDriver, real)>): (records: seq<DriverRecord>)
    ensures |records| == |sorted| && forall i :: 0 <= i < |sorted| ==> records[i] == SpaRecord(sorted[i])
  {
    seq(|sorted|, i requires 0 <= i < |sorted| => SpaRecord(sorted[i]))
  }

  lemma YearDriverKeyInjective()
    ensures forall x, y :: YearDriverKey(x) == YearDriverKey(y) ==> x == y
  {
    forall x, y | YearDriverKey(x) == YearDriverKey(y) ensures x == y {
      assert YearDriverKey(x)[0] == YearDriverKey(y)[0];
      assert YearDriverKey(x)[1] == YearDriverKey(y)[1];
    }
  }

  /** The Spa groups ascend strictly by (year, driver code). */
  lemma SpaRowsStrict(pairs: seq<(YearDriver, real)>)
    ensures StrictlySortedBy(GroupRows(pairs, YearDriverKey), RowKey(YearDriverKey))
  {
    YearDriverKeyInjective();
    GroupRowsStrictlySorted(pairs, YearDriverKey);
  }

  /** The `sort_values(["year", "driverCode"])` finds the grouped rows already in that order. */
  lemma SpaSortRedundant(pairs: seq<(YearDriver, real)>)
    ensures Sort(GroupRows(pairs, YearDriverKey), RowKey(YearDriverKey)) == GroupRows(pairs, YearDriverKey)
  {
    var rows := GroupRows(pairs, YearDriverKey);
    SpaRowsStrict(pairs);
    StrictIsSorted(rows, RowKey(YearDriverKey));
    SortOfSorted(rows, RowKey(YearDriverKey));
  }

  function SpaRecordKey(r: DriverRecord): Key { [Int(r.year), Str(r.driverId)] }

  lemma SpaRecordsFromStrict(rows: seq<(YearDriver, real)>)
    requires StrictlySortedBy(rows, RowKey(YearDriverKey))
    ensures StrictlySortedBy(SpaRecordsFrom(rows), SpaRecordKey)
  {
    var records := SpaRecordsFrom(rows);
    forall i | 0 <= i < |rows| ensures SpaRecordKey(records[i]) == RowKey(YearDriverKey)(rows[i]) {
      assert RowKey(YearDriverKey)(rows[i]) == YearDriverKey(rows[i].0);
    }
  }

  lemma SpaRecordsFromMember(rows: seq<(YearDriver, real)>, r: DriverRecord)
    ensures r in SpaRecordsFrom(rows) <==> r.session == "Q" && (YearDriver(r.year, r.driverId), r.lapTime) in rows
  {
    var records := SpaRecordsFrom(rows);
    var x := (YearDriver(r.year, r.driverId), r.lapTime);
    if r in records {
      var i :| 0 <= i < |records| && records[i] == r;
      assert rows[i] == x;
    }
    if r.session == "Q" && x in rows {
      var i :| 0 <= i < |rows| && rows[i] == x;
      assert records[i] == r;
    }
  }

  /** Spa records ascend strictly by (year, driver code): one record per driver and year. */
  lemma SpaRecordsStrict(pairs: seq<(YearDriver, real)>)
    ensures StrictlySortedBy(SpaRecords(pairs), SpaRecordKey)
  {
    SpaSortRedundant(pairs);
    SpaRowsStrict(pairs);
    SpaRecordsFromStrict(GroupRows(pairs, YearDriverKey));
  }

  /** The Spa records are the grouped rows, each as a "Q" record. */
  lemma SpaRecordsMember(pairs: seq<(YearDriver, real)>, r: DriverRecord)
    ensures r in SpaRecords(pairs) <==>
      r.session == "Q" && (YearDriver(r.year, r.driverId), r.lapTime) in GroupRows(pairs, YearDriverKey)
  {
    SpaSortRedundant(pairs);
    SpaRecordsFromMember(GroupRows(pairs, YearDriverKey), r);
  }

  /** A Spa record is a driver's best qualifying time of its year, and every such time has its record. */
  lemma SpaRecordIsBest(pairs: seq<(YearDriver, real)>, r: DriverRecord)
    ensures r in SpaRecords(pairs) <==> r.session == "Q" && IsLeast(pairs, YearDriver(r.year, r.driverId), r.lapTime)
  {
    var g := YearDriver(r.year, r.driverId);
    SpaRecordsMember(pairs, r);
    GroupRowsMember(pairs, YearDriverKey, (g, r.lapTime));
    GroupMinIsLeast(pairs, g, r.lapTime);
  }

  /** The record loop of generate_driver_laps. */
  method SpaRecordsOf(sorted: seq<(YearDriver, real)>) returns (records: seq<DriverRecord>)
    ensures records == SpaRecordsFrom(sorted)
  {
    records := [];
    for i := 0 to |sorted|
      invariant |records| == i && forall j :: 0 <= j < i ==> records[j] == SpaRecord(sorted[j])
    {
      records := records + [DriverRecord(sorted[i].0.year, "Q", sorted[i].0.code, sorted[i].1)];
    }
    assert records == SpaRecordsFrom(sorted);
  }

  /**
   * generate_driver_laps end to end: RuntimeError when no circuit passes
   * the Spa mask; otherwise the records of the first circuit that does.
   */
  method GenerateSpaDriverLaps(circuitColumns: seq<string>, circuits: seq<Circuit>, races: seq<Race>,
                               qualiColumns: seq<string>, qualifying: seq<QualiRow>, drivers: seq<DriverRow>)
    returns (r: Result<seq<DriverRecord>, string>)
    ensures r.Err? <==> forall i :: 0 <= i < |circuits| ==> !SpaLike(circuitColumns, circuits[i])
    ensures r.Ok? ==> exists i :: (0 <= i < |circuits| && SpaLike(circuitColumns, circuits[i])
      && (forall j :: 0 <= j < i ==> !SpaLike(circuitColumns, circuits[j]))
      && r.value == SpaRecords(SpaPairs(WithBestSec(qualiColumns, qualifying),
                                        SpaTrend.RacesAt(circuits[i].circuitId, races), drivers)))
  {
    var id := SpaCandidateId(circuitColumns, circuits);
    if id.Err? {
      return Err(id.error);
    }
    var spaRaces := SpaTrend.RacesAt(id.value, races);
    var withBest := QualifyingBestSecs(qualiColumns, qualifying);
    var pairs := SpaPairs(withBest, spaRaces, drivers);
    var sorted := Sort(GroupRows(pairs, YearDriverKey), RowKey(YearDriverKey));
    var records := SpaRecordsOf(sorted);
    var i :| 0 <= i < |circuits| && circuits[i].circuitId == id.value && SpaLike(circuitColumns, circuits[i])
      && forall j :: 0 <= j < i ==> !SpaLike(circuitColumns, circuits[j]);
    assert records == SpaRecords(SpaPairs(WithBestSec(qualiColumns, qualifying),
                                          SpaTrend.RacesAt(circuits[i].circuitId, races), drivers));
    return Ok(records);
  }
}

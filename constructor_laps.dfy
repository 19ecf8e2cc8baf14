/**
 * The per-team lap generator: for every circuit, year, session (qualifying
 * "Q" or race "R") and constructor, the constructor's fastest lap, written
 * as one `<circuitRef>.json` file per circuit.
 */
module ConstructorLaps {
  import opened Wrappers
  import opened Ordering
  import opened LapTimes
  import opened Aggregate
  import opened CircuitTrend

  /** A row of lap_times.csv as this generator reads it. */
  datatype LapRow = LapRow(raceId: int, driverId: int, milliseconds: Option<real>)

  /** A row of results.csv: which constructor a driver drove for in a race. */
  datatype ResultRow = ResultRow(raceId: int, driverId: int, constructorId: int)

  /** A row of constructors.csv; a missing name is NaN. */
  datatype ConstructorRow = ConstructorRow(constructorId: int, name: Option<string>)

  /** The `circuitRef` column of circuits.csv by circuit; a missing value is NaN. */
  datatype CircuitRow = CircuitRow(circuitId: int, circuitRef: Option<string>)

  /** A row of qualifying.csv as this generator reads it. */
  datatype QualifyingRow = QualifyingRow(raceId: int, driverId: int, constructorId: int, times: Row)

  /** A race with its circuit's `circuitRef` (NaN when the circuit is unknown). */
  datatype SitedRace = SitedRace(raceId: int, year: int, circuitRef: Option<string>)

  /** A group of the two `groupby(["year", "circuitRef", "name"])` calls. */
  datatype Group = Group(year: int, circuitRef: string, name: string)

  /** A row of `agg_all`. */
  datatype SessionBest = SessionBest(circuitKey: string, year: int, session: string, constructorName: string, lapTime: real)

  /** One record of a `<circuitKey>.json` file. */
  datatype LapRecord = LapRecord(year: int, session: string, constructorName: string, lapTime: real)

  // ---------------------------------------------------------------------
  // The joined tables
  // ---------------------------------------------------------------------

  /** `races.merge(circuits, on="circuitId", how="left")`. */
  function SiteRaces(races: seq<Race>, circuits: seq<CircuitRow>): seq<SitedRace> {
    FlatMap(races, (r: Race) =>
      var hits := FlatMap(circuits, (c: CircuitRow) =>
        if c.circuitId == r.circuitId then [SitedRace(r.raceId, r.year, c.circuitRef)] else []);
      if hits == [] then [SitedRace(r.raceId, r.year, None)] else hits)
  }

  /** The circuitRef a race is known under: the only way a race joins with a present circuitRef. */
  lemma SiteRacesPresent(races: seq<Race>, circuits: seq<CircuitRow>, s: SitedRace)
    requires s in SiteRaces(races, circuits) && s.circuitRef.Some?
    ensures exists r, c :: (r in races && c in circuits && r.circuitId == c.circuitId
      && s == SitedRace(r.raceId, r.year, c.circuitRef))
  {
  }

  /** The lap's group and seconds when the result, constructor and race are its own and nothing needed is NaN. */
  function LapPair(l: LapRow, r: ResultRow, c: ConstructorRow, s: SitedRace): seq<(Group, real)> {
    if r.raceId == l.raceId && r.driverId == l.driverId && c.constructorId == r.constructorId
      && s.raceId == l.raceId && c.name.Some? && s.circuitRef.Some? && l.milliseconds.Some?
    then [(Group(s.year, s.circuitRef.value, c.name.value), l.milliseconds.value / 1000.0)]
    else []
  }

  function LapPairsWith(l: LapRow, r: ResultRow, c: ConstructorRow, sited: seq<SitedRace>): (ps: seq<(Group, real)>)
    ensures forall p :: p in ps <==> exists s :: s in sited && p in LapPair(l, r, c, s)
  {
    FlatMap(sited, (s: SitedRace) => LapPair(l, r, c, s))
  }

  function LapPairsOfResult(l: LapRow, r: ResultRow, constructors: seq<ConstructorRow>, sited: seq<SitedRace>)
    : (ps: seq<(Group, real)>)
    ensures forall p :: p in ps <==> exists c, s :: c in constructors && s in sited && p in LapPair(l, r, c, s)
  {
    FlatMap(constructors, (c: ConstructorRow) => LapPairsWith(l, r, c, sited))
  }

  function LapPairsOf(l: LapRow, results: seq<ResultRow>, constructors: seq<ConstructorRow>, sited: seq<SitedRace>)
    : (ps: seq<(Group, real)>)
    ensures forall p :: p in ps <==> exists r, c, s :: r in results && c in constructors && s in sited && p in LapPair(l, r, c, s)
  {
    FlatMap(results, (r: ResultRow) => LapPairsOfResult(l, r, constructors, sited))
  }

  /**
   * The (group, seconds) pairs the race aggregation sees: lap_times merged
   * with results, constructors and races, less the rows where a needed
   * field is NaN; exactly the laps with a matching result, constructor and
   * race and a time.
   */
  function RacePairs(laps: seq<LapRow>, results: seq<ResultRow>, constructors: seq<ConstructorRow>,
                     sited: seq<SitedRace>): (ps: seq<(Group, real)>)
    ensures forall p :: p in ps <==>
      exists l, r, c, s :: l in laps && r in results && c in constructors && s in sited && p in LapPair(l, r, c, s)
  {
    FlatMap(laps, (l: LapRow) => LapPairsOf(l, results, constructors, sited))
  }

  /** The qualifying row's group and best time when the race and constructor are its own and nothing needed is NaN. */
  function QualifyingPair(q: QualifyingRow, best: Option<real>, s: SitedRace, c: ConstructorRow): seq<(Group, real)> {
    if s.raceId == q.raceId && c.constructorId == q.constructorId && best.Some? && c.name.Some? && s.circuitRef.Some?
    then [(Group(s.year, s.circuitRef.value, c.name.value), best.value)]
    else []
  }

  function QualifyingPairsAt(q: QualifyingRow, best: Option<real>, s: SitedRace, constructors: seq<ConstructorRow>)
    : (ps: seq<(Group, real)>)
    ensures forall p :: p in ps <==> exists c :: c in constructors && p in QualifyingPair(q, best, s, c)
  {
    FlatMap(constructors, (c: ConstructorRow) => QualifyingPair(q, best, s, c))
  }

  function QualifyingPairsOf(q: QualifyingRow, best: Option<real>, sited: seq<SitedRace>, constructors: seq<ConstructorRow>)
    : (ps: seq<(Group, real)>)
    ensures forall p :: p in ps <==> exists s, c :: s in sited && c in constructors && p in QualifyingPair(q, best, s, c)
  {
    FlatMap(sited, (s: SitedRace) => QualifyingPairsAt(q, best, s, constructors))
  }

  /** Each qualifying row beside its best session time. */
  function WithBest(quali: seq<QualifyingRow>, best: seq<Option<real>>): (rows: seq<(QualifyingRow, Option<real>)>)
    requires |best| == |quali|
    ensures |rows| == |quali| && forall i :: 0 <= i < |quali| ==> rows[i] == (quali[i], best[i])
  {
    seq(|quali|, i requires 0 <= i < |quali| => (quali[i], best[i]))
  }

  /**
   * The pairs the qualifying aggregation sees: each row's best session time
   * with its race's year and circuit and its constructor's name, less the
   * rows where one of these is NaN.
   */
  function QualifyingPairs(quali: seq<QualifyingRow>, best: seq<Option<real>>, constructors: seq<ConstructorRow>,
                           sited: seq<SitedRace>): (ps: seq<(Group, real)>)
    requires |best| == |quali|
    ensures forall p :: p in ps <==> exists i, s, c :: (0 <= i < |quali| && s in sited && c in constructors
      && p in QualifyingPair(quali[i], best[i], s, c))
  {
    QualifyingPairsMember(quali, best, constructors, sited);
    FlatMap(WithBest(quali, best), PairsOfRow(sited, constructors))
  }

  /** The pairs of one qualifying row and its best time. */
  function PairsOfRow(sited: seq<SitedRace>, constructors: seq<ConstructorRow>)
    : ((QualifyingRow, Option<real>)) -> seq<(Group, real)>
  {
    (qb: (QualifyingRow, Option<real>)) => QualifyingPairsOf(qb.0, qb.1, sited, constructors)
  }

  lemma QualifyingPairsMember(quali: seq<QualifyingRow>, best: seq<Option<real>>, constructors: seq<ConstructorRow>,
                              sited: seq<SitedRace>)
    requires |best| == |quali|
    ensures forall p :: p in FlatMap(WithBest(quali, best), PairsOfRow(sited, constructors)) <==>
      exists i, s, c :: (0 <= i < |quali| && s in sited && c in constructors
        && p in QualifyingPair(quali[i], best[i], s, c))
  {
    var rows := WithBest(quali, best);
    var f := PairsOfRow(sited, constructors);
    var ps := FlatMap(rows, f);
    forall p ensures p in ps <==> exists i, s, c :: (0 <= i < |quali| && s in sited && c in constructors
      && p in QualifyingPair(quali[i], best[i], s, c))
    {
      if p in ps {
        var qb :| qb in rows && p in f(qb);
        var i :| 0 <= i < |rows| && rows[i] == qb;
        assert p in QualifyingPairsOf(quali[i], best[i], sited, constructors);
      }
      if exists i, s, c :: (0 <= i < |quali| && s in sited && c in constructors
        && p in QualifyingPair(quali[i], best[i], s, c))
      {
        var i, s, c :| 0 <= i < |quali| && s in sited && c in constructors
          && p in QualifyingPair(quali[i], best[i], s, c);
        assert rows[i] in rows;
        assert p in f(rows[i]);
      }
    }
  }

  /** The qualifying sessions read by this generator, and how they are parsed. */
  const Sessions: seq<string> := ["q1", "q2", "q3"]

  /** A qualifying row's `lapTimeSec`: the least of its parsed sessions. */
  function QualifyingBestOf(q: QualifyingRow): Option<real> {
    MinPresent(AcrossColumns(q.times, Sessions, ConstructorSeconds))
  }

  function GroupKey(g: Group): Key { [Int(g.year), Str(g.circuitRef), Str(g.name)] }

  function AggKey(b: SessionBest): Key { [Str(b.circuitKey), Int(b.year), Str(b.session), Str(b.constructorName)] }

  /** A `groupby(...).min()` table renamed to `circuitKey`/`constructorName`, with its session column. */
  function Tagged(rows: seq<(Group, real)>, session: string): (r: seq<SessionBest>)
    ensures |r| == |rows|
    ensures forall i :: 0 <= i < |rows| ==>
      r[i] == SessionBest(rows[i].0.circuitRef, rows[i].0.year, session, rows[i].0.name, rows[i].1)
  {
    seq(|rows|, i requires 0 <= i < |rows| =>
      SessionBest(rows[i].0.circuitRef, rows[i].0.year, session, rows[i].0.name, rows[i].1))
  }

  /** `agg_all`: both aggregations concatenated and sorted by circuit, year, session and constructor. */
  function AggAll(racePairs: seq<(Group, real)>, qualiPairs: seq<(Group, real)>): seq<SessionBest> {
    Sort(Tagged(GroupRows(racePairs, GroupKey), "R") + Tagged(GroupRows(qualiPairs, GroupKey), "Q"), AggKey)
  }

  /**
   * Every row of `agg_all` is the least lap of its group in its session,
   * and every group of either session has its row.
   */
  lemma AggAllRows(racePairs: seq<(Group, real)>, qualiPairs: seq<(Group, real)>, b: SessionBest)
    ensures b in AggAll(racePairs, qualiPairs) <==>
      (b.session == "R" && IsLeast(racePairs, Group(b.year, b.circuitKey, b.constructorName), b.lapTime))
      || (b.session == "Q" && IsLeast(qualiPairs, Group(b.year, b.circuitKey, b.constructorName), b.lapTime))
  {
    var g := Group(b.year, b.circuitKey, b.constructorName);
    var race := Tagged(GroupRows(racePairs, GroupKey), "R");
    var quali := Tagged(GroupRows(qualiPairs, GroupKey), "Q");
    assert b in AggAll(racePairs, qualiPairs) <==> b in race + quali by {
      assert b in multiset(AggAll(racePairs, qualiPairs)) <==> b in multiset(race + quali);
    }
    GroupRowsMember(racePairs, GroupKey, (g, b.lapTime));
    GroupRowsMember(qualiPairs, GroupKey, (g, b.lapTime));
    GroupMinIsLeast(racePairs, g, b.lapTime);
    GroupMinIsLeast(qualiPairs, g, b.lapTime);
    TaggedMember(GroupRows(racePairs, GroupKey), "R", b);
    TaggedMember(GroupRows(qualiPairs, GroupKey), "Q", b);
  }

  lemma TaggedMember(rows: seq<(Group, real)>, session: string, b: SessionBest)
    ensures b in Tagged(rows, session) <==>
      b.session == session && (Group(b.year, b.circuitKey, b.constructorName), b.lapTime) in rows
  {
    var t := Tagged(rows, session);
    if (Group(b.year, b.circuitKey, b.constructorName), b.lapTime) in rows && b.session == session {
      var i :| 0 <= i < |rows| && rows[i] == (Group(b.year, b.circuitKey, b.constructorName), b.lapTime);
      assert t[i] == b;
    }
  }

  // ---------------------------------------------------------------------
  // Files per circuit
  // ---------------------------------------------------------------------

  function CircuitKeyOf(b: SessionBest): string { b.circuitKey }

  /** The keys of `agg_all.groupby("circuitKey")`, ascending. */
  function CircuitKeys(agg: seq<SessionBest>): seq<string> {
    SortedUnique(seq(|agg|, i requires 0 <= i < |agg| => agg[i].circuitKey))
  }

  function ToRecord(b: SessionBest): LapRecord {
    LapRecord(b.year, b.session, b.constructorName, b.lapTime)
  }

  /** The `agg_all` rows of one circuit, in `agg_all` order, as records. */
  function CircuitRecords(agg: seq<SessionBest>, k: string): (records: seq<LapRecord>)
    ensures |records| <= |agg|
  {
    var sub := Filter(agg, (b: SessionBest) => b.circuitKey == k);
    seq(|sub|, i requires 0 <= i < |sub| => ToRecord(sub[i]))
  }

  /** The `<circuitKey>.json` file of one circuit. */
  function TeamFileOf(agg: seq<SessionBest>, k: string): TeamFile {
    TeamFile(k + ".json", CircuitRecords(agg, k))
  }

  /** The file of every circuit. */
  function ConstructorFiles(agg: seq<SessionBest>): seq<TeamFile> {
    var keys := CircuitKeys(agg);
    seq(|keys|, i requires 0 <= i < |keys| => TeamFileOf(agg, keys[i]))
  }

  datatype TeamFile = TeamFile(path: string, records: seq<LapRecord>)

  /** The `iterrows` loop of one circuit: one record appended per row. */
  method RecordsOf(sub: seq<SessionBest>) returns (records: seq<LapRecord>)
    ensures |records| == |sub| && forall j :: 0 <= j < |sub| ==> records[j] == ToRecord(sub[j])
  {
    records := [];
    for i := 0 to |sub|
      invariant |records| == i && forall j :: 0 <= j < i ==> records[j] == ToRecord(sub[j])
    {
      var row := sub[i];
      records := records + [LapRecord(row.year, row.session, row.constructorName, row.lapTime)];
    }
  }

  /** One file of the output loop: the circuit's rows, then its records. */
  method WriteTeamFile(agg: seq<SessionBest>, key: string) returns (file: TeamFile)
    ensures file == TeamFileOf(agg, key)
  {
    var sub := Filter(agg, (b: SessionBest) => b.circuitKey == key);
    var records := RecordsOf(sub);
    assert records == CircuitRecords(agg, key);
    file := TeamFile(key + ".json", records);
  }

  /** The output loop: for every circuit key in ascending order, its file. */
  method WriteConstructorFiles(agg: seq<SessionBest>) returns (files: seq<TeamFile>)
    ensures files == ConstructorFiles(agg)
  {
    var keys := CircuitKeys(agg);
    files := [];
    for k := 0 to |keys|
      invariant |files| == k
      invariant forall j :: 0 <= j < k ==> files[j] == TeamFileOf(agg, keys[j])
    {
      var file := WriteTeamFile(agg, keys[k]);
      files := files + [file];
    }
  }

  function RecordKey(r: LapRecord): Key { [Int(r.year), Str(r.session), Str(r.constructorName)] }

  /** `agg_all` is in ascending (circuit, year, session, constructor) order. */
  lemma AggAllSorted(racePairs: seq<(Group, real)>, qualiPairs: seq<(Group, real)>)
    ensures SortedBy(AggAll(racePairs, qualiPairs), AggKey)
  {
    SortSorted(Tagged(GroupRows(racePairs, GroupKey), "R") + Tagged(GroupRows(qualiPairs, GroupKey), "Q"), AggKey);
  }

  /** Within a file, records are in ascending (year, session, constructor) order. */
  lemma CircuitRecordsSorted(agg: seq<SessionBest>, k: string)
    requires SortedBy(agg, AggKey)
    ensures SortedBy(CircuitRecords(agg, k), RecordKey)
  {
    var f := (b: SessionBest) => b.circuitKey == k;
    var sub := Filter(agg, f);
    var records := CircuitRecords(agg, k);
    FilterSorted(agg, f, AggKey);
    forall i, j | 0 <= i < j < |records| ensures KeyLe(RecordKey(records[i]), RecordKey(records[j])) {
      assert sub[i] in sub && sub[j] in sub;
      assert KeyLe(AggKey(sub[i]), AggKey(sub[j]));
      assert AggKey(sub[i]) == [Str(k)] + RecordKey(records[i]);
      assert AggKey(sub[j]) == [Str(k)] + RecordKey(records[j]);
      KeyLtCons(Str(k), RecordKey(records[j]), RecordKey(records[i]));
    }
  }

  /** A file's records are exactly its circuit's rows of `agg_all`. */
  lemma CircuitRecordsMember(agg: seq<SessionBest>, k: string, r: LapRecord)
    ensures r in CircuitRecords(agg, k) <==>
      SessionBest(k, r.year, r.session, r.constructorName, r.lapTime) in agg
  {
    var b := SessionBest(k, r.year, r.session, r.constructorName, r.lapTime);
    var sub := Filter(agg, (x: SessionBest) => x.circuitKey == k);
    var records := CircuitRecords(agg, k);
    if r in records {
      var i :| 0 <= i < |records| && records[i] == r;
      assert sub[i] in sub;
    }
    if b in agg {
      assert b in sub;
      var i :| 0 <= i < |sub| && sub[i] == b;
      assert records[i] == r;
    }
  }

  /**
   * A record of circuit `k`'s file is the fastest lap of its constructor at
   * that circuit and year in its session; every such fastest lap is there.
   */
  lemma CircuitRecordIsBest(racePairs: seq<(Group, real)>, qualiPairs: seq<(Group, real)>, k: string, r: LapRecord)
    ensures r in CircuitRecords(AggAll(racePairs, qualiPairs), k) <==>
      (r.session == "R" && IsLeast(racePairs, Group(r.year, k, r.constructorName), r.lapTime))
      || (r.session == "Q" && IsLeast(qualiPairs, Group(r.year, k, r.constructorName), r.lapTime))
  {
    CircuitRecordsMember(AggAll(racePairs, qualiPairs), k, r);
    AggAllRows(racePairs, qualiPairs, SessionBest(k, r.year, r.session, r.constructorName, r.lapTime));
  }

  /** A file holds one record per year, session and constructor. */
  lemma CircuitRecordUnique(racePairs: seq<(Group, real)>, qualiPairs: seq<(Group, real)>, k: string,
                            r1: LapRecord, r2: LapRecord)
    requires r1 in CircuitRecords(AggAll(racePairs, qualiPairs), k)
    requires r2 in CircuitRecords(AggAll(racePairs, qualiPairs), k)
    requires r1.year == r2.year && r1.session == r2.session && r1.constructorName == r2.constructorName
    ensures r1 == r2
  {
    CircuitRecordIsBest(racePairs, qualiPairs, k, r1);
    CircuitRecordIsBest(racePairs, qualiPairs, k, r2);
  }

  /** One file per circuit: the file keys ascend strictly and each is a circuit of `agg_all`. */
  lemma CircuitKeysStrict(agg: seq<SessionBest>)
    ensures StrictlySortedBy(CircuitKeys(agg), TextKey)
    ensures forall k :: k in CircuitKeys(agg) <==> exists b :: b in agg && b.circuitKey == k
  {
    var ks := seq(|agg|, i requires 0 <= i < |agg| => agg[i].circuitKey);
    forall k ensures k in CircuitKeys(agg) <==> exists b :: b in agg && b.circuitKey == k {
      if exists b :: b in agg && b.circuitKey == k {
        var b :| b in agg && b.circuitKey == k;
        var i :| 0 <= i < |agg| && agg[i] == b;
        assert ks[i] == k;
      }
      if k in ks {
        var i :| 0 <= i < |ks| && ks[i] == k;
        assert agg[i] in agg;
      }
    }
  }

  /**
   * The generator end to end: the race pairs from laps, results,
   * constructors and races; the qualifying pairs through the `q1..q3`
   * parsing loop; both aggregations; the files.
   */
  method GenerateConstructorLaps(laps: seq<LapRow>, races: seq<Race>, circuits: seq<CircuitRow>,
                                 results: seq<ResultRow>, constructors: seq<ConstructorRow>,
                                 qualifying: seq<QualifyingRow>)
    returns (files: seq<TeamFile>)
    ensures files == ConstructorFiles(AggAll(
      RacePairs(laps, results, constructors, SiteRaces(races, circuits)),
      QualifyingPairs(qualifying, seq(|qualifying|, i requires 0 <= i < |qualifying| => QualifyingBestOf(qualifying[i])),
        constructors, SiteRaces(races, circuits))))
  {
    var sited := SiteRaces(races, circuits);
    var racePairs := RacePairs(laps, results, constructors, sited);
    var rows := seq(|qualifying|, i requires 0 <= i < |qualifying| => qualifying[i].times);
    var best := BestOfColumns(rows, Sessions, ConstructorSeconds);
    assert best == seq(|qualifying|, i requires 0 <= i < |qualifying| => QualifyingBestOf(qualifying[i]));
    var qualiPairs := QualifyingPairs(qualifying, best, constructors, sited);
    var agg := AggAll(racePairs, qualiPairs);
    files := WriteConstructorFiles(agg);
  }
}

/**
 * The single-circuit builder for Spa-Francorchamps: it finds the circuit by
 * name, restricts races, qualifying and laps to it, and writes the same
 * `{year, pole, fastest}` list, without the two-year rule of the
 * all-circuits builder.
 */
module SpaTrend {
  import opened Wrappers
  import opened Ordering
  import opened Aggregate
  import opened LapTimes
  import opened Identifiers
  import opened CircuitTrend

  /** `races[races["circuitId"] == cid]`. */
  function RacesAt(cid: int, races: seq<Race>): (r: seq<Race>)
    ensures forall race :: race in r <==> race in races && race.circuitId == cid
  {
    if races == [] then []
    else
      assert forall race :: race in races <==> race == races[0] || race in races[1..];
      (if races[0].circuitId == cid then [races[0]] else []) + RacesAt(cid, races[1..])
  }

  /** `races["raceId"].unique().tolist()`, as far as membership goes. */
  function RaceIds(races: seq<Race>): (ids: seq<int>)
    ensures forall race :: race in races ==> race.raceId in ids
    ensures forall id :: id in ids ==> exists race :: race in races && race.raceId == id
  {
    if races == [] then []
    else
      assert forall race :: race in races <==> race == races[0] || race in races[1..];
      [races[0].raceId] + RaceIds(races[1..])
  }

  /** `lap_times[lap_times["raceId"].isin(ids)]`. */
  function KeepRaces(keyed: seq<(int, Option<real>)>, ids: seq<int>): (r: seq<(int, Option<real>)>)
    ensures forall p :: p in r <==> p in keyed && p.0 in ids
  {
    if keyed == [] then []
    else
      assert forall p :: p in keyed <==> p == keyed[0] || p in keyed[1..];
      (if keyed[0].0 in ids then [keyed[0]] else []) + KeepRaces(keyed[1..], ids)
  }

  /** `df.dropna(subset=[sec])` as (year, seconds) pairs. */
  function PresentAll(rows: seq<Timed>): (ps: seq<(int, real)>)
    ensures forall p :: p in ps <==> exists t :: t in rows && t.year == p.0 && t.sec == Some(p.1)
  {
    if rows == [] then []
    else
      assert forall t :: t in rows <==> t == rows[0] || t in rows[1..];
      var t := rows[0];
      (if t.sec.Some? then [(t.year, t.sec.value)] else []) + PresentAll(rows[1..])
  }

  /** The Spa trend as a value: both tables joined with Spa's races only. */
  function SpaTrendOf(spaId: int, qualiKeyed: seq<(int, Option<real>)>, lapKeyed: seq<(int, Option<real>)>,
                      races: seq<Race>): seq<TrendPoint>
  {
    var spaRaces := RacesAt(spaId, races);
    var quali := JoinRaces(qualiKeyed, spaRaces);
    var laps := JoinRaces(KeepRaces(lapKeyed, RaceIds(spaRaces)), spaRaces);
    Sort(MergeOnYear(GroupRows(PresentAll(quali), YearKey), GroupMin(PresentAll(laps))), PointYear)
  }

  /** Joining with Spa's races only keeps exactly Spa's present times of the full join. */
  lemma SpaPresentSame(spaId: int, keyed: seq<(int, Option<real>)>, races: seq<Race>)
    ensures forall p :: (p in PresentAll(JoinRaces(keyed, RacesAt(spaId, races)))
      <==> p in PresentFor(spaId, JoinRaces(keyed, races)))
  {
    var spaRaces := RacesAt(spaId, races);
    forall p ensures p in PresentAll(JoinRaces(keyed, spaRaces)) <==> p in PresentFor(spaId, JoinRaces(keyed, races)) {
      var t0 := Timed(p.0, spaId, Some(p.1));
      if p in PresentAll(JoinRaces(keyed, spaRaces)) {
        var t :| t in JoinRaces(keyed, spaRaces) && t.year == p.0 && t.sec == Some(p.1);
        var q, race :| q in keyed && race in spaRaces && q.0 == race.raceId && t == Timed(race.year, race.circuitId, q.1);
        assert Joined(t0, keyed, races);
      }
      if p in PresentFor(spaId, JoinRaces(keyed, races)) {
        var q, race :| q in keyed && race in races && q.0 == race.raceId && t0 == Timed(race.year, race.circuitId, q.1);
        assert Joined(t0, keyed, spaRaces);
      }
    }
  }

  /** The `isin` filter before the merge removes only laps the merge would drop anyway. */
  lemma KeepRacesRedundant(keyed: seq<(int, Option<real>)>, spaRaces: seq<Race>)
    ensures forall t :: t in JoinRaces(KeepRaces(keyed, RaceIds(spaRaces)), spaRaces) <==> t in JoinRaces(keyed, spaRaces)
  {
    var kept := KeepRaces(keyed, RaceIds(spaRaces));
    forall t ensures Joined(t, kept, spaRaces) <==> Joined(t, keyed, spaRaces) {
      if Joined(t, keyed, spaRaces) {
        var q, race :| q in keyed && race in spaRaces && q.0 == race.raceId && t == Timed(race.year, race.circuitId, q.1);
        assert q in kept;
      }
    }
  }

  /** Same elements, same dropna pairs. */
  lemma PresentAllSameElements(a: seq<Timed>, b: seq<Timed>)
    requires forall t :: t in a <==> t in b
    ensures forall p :: p in PresentAll(a) <==> p in PresentAll(b)
  {
  }

  /**
   * The Spa builder computes exactly the all-circuits trend of the Spa
   * circuit (before that builder's two-year rule).
   */
  lemma SpaTrendIsCircuitTrend(spaId: int, qualiKeyed: seq<(int, Option<real>)>, lapKeyed: seq<(int, Option<real>)>,
                               races: seq<Race>)
    ensures SpaTrendOf(spaId, qualiKeyed, lapKeyed, races)
      == Trend(spaId, JoinRaces(qualiKeyed, races), JoinRaces(lapKeyed, races))
  {
    var spaRaces := RacesAt(spaId, races);
    var quali := JoinRaces(qualiKeyed, spaRaces);
    var laps := JoinRaces(KeepRaces(lapKeyed, RaceIds(spaRaces)), spaRaces);
    SpaPresentSame(spaId, qualiKeyed, races);
    SpaPresentSame(spaId, lapKeyed, races);
    KeepRacesRedundant(lapKeyed, spaRaces);
    PresentAllSameElements(laps, JoinRaces(lapKeyed, spaRaces));
    GroupRowsSameElements(PresentAll(quali), PresentFor(spaId, JoinRaces(qualiKeyed, races)), YearKey);
    GroupMinSameElements(PresentAll(laps), PresentFor(spaId, JoinRaces(lapKeyed, races)));
  }

  /**
   * `build_spa_laptrend_json`: ValueError when no circuit is named like Spa
   * or when qualifying has no Q1..q3 column; otherwise the records of the
   * Spa circuit, which are its all-circuits trend.
   */
  method BuildSpa(circuits: seq<Circuit>, columns: seq<string>, qualifying: seq<QualifyingEntry>,
                  hasMilliseconds: bool, lapTimes: seq<LapEntry>, races: seq<Race>)
    returns (r: Result<seq<TrendPoint>, string>)
    ensures SpaCircuitId(circuits).Err? ==> r == Err(SpaCircuitId(circuits).error)
    ensures SpaCircuitId(circuits).Ok? ==> (r.Err? <==> forall c :: c in QualifyingCandidates ==> c !in columns)
    ensures r.Ok? ==> r.value == Trend(SpaCircuitId(circuits).value,
      JoinRaces(QualifyingBest(columns, qualifying), races), PrepareLaps(hasMilliseconds, lapTimes, races))
  {
    var id := SpaCircuitId(circuits);
    if id.Err? {
      return Err(id.error);
    }
    var spaRaces := RacesAt(id.value, races);
    var rows := seq(|qualifying|, i requires 0 <= i < |qualifying| => qualifying[i].times);
    var best := BestQualifying(columns, rows, ColonSeconds);
    if best.Err? {
      return Err(best.error);
    }
    var qualiKeyed := seq(|qualifying|, i requires 0 <= i < |qualifying| => (qualifying[i].raceId, best.value[i]));
    assert qualiKeyed == QualifyingBest(columns, qualifying);
    var quali := JoinRaces(qualiKeyed, spaRaces);
    var poles := GroupRows(PresentAll(quali), YearKey);
    var lapKeyed := LapKeyed(hasMilliseconds, lapTimes);
    var laps := JoinRaces(KeepRaces(lapKeyed, RaceIds(spaRaces)), spaRaces);
    var fastest := GroupMin(PresentAll(laps));
    var merged := Sort(MergeOnYear(poles, fastest), PointYear);
    var records := ToRecords(merged);
    SpaTrendIsCircuitTrend(id.value, qualiKeyed, lapKeyed, races);
    return Ok(records);
  }
}

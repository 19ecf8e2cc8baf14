/**
 * The pandas aggregations the data scripts use, over sequences of records:
 * a row-wise minimum that skips NaN, `groupby(keys).min()` with its sorted
 * group order, and the loops that parse the qualifying-time columns.
 */
module Aggregate {
  import opened Wrappers
  import opened Ordering
  import opened LapTimes

  // ---------------------------------------------------------------------
  // Row-wise minimum
  // ---------------------------------------------------------------------

  /** `df[cols].min(axis=1, skipna=True)` on one row: the least present value, NaN when none is present. */
  function MinPresent(xs: seq<Option<real>>): (r: Option<real>)
    ensures r.None? <==> forall i :: 0 <= i < |xs| ==> xs[i].None?
    ensures r.Some? ==> r in xs
    ensures r.Some? ==> forall i :: 0 <= i < |xs| && xs[i].Some? ==> r.value <= xs[i].value
  {
    if xs == [] then None
    else
      var rest := MinPresent(xs[1..]);
      assert forall i :: 1 <= i < |xs| ==> xs[i] == xs[1..][i - 1];
      if xs[0].None? then rest
      else if rest.None? || xs[0].value <= rest.value then xs[0]
      else rest
  }

  // ---------------------------------------------------------------------
  // Joins
  // ---------------------------------------------------------------------

  /** Every `f(x)` for the `x` of `xs`, concatenated in order: the rows of a merge, left row by left row. */
  function FlatMap<A(!new), B(!new)>(xs: seq<A>, f: A -> seq<B>): (r: seq<B>)
    ensures forall y :: y in r <==> exists x :: x in xs && y in f(x)
  {
    if xs == [] then []
    else
      assert forall x :: x in xs <==> x == xs[0] || x in xs[1..];
      f(xs[0]) + FlatMap(xs[1..], f)
  }

  // ---------------------------------------------------------------------
  // groupby(...).min()
  // ---------------------------------------------------------------------

  /** The keys of the pairs, in order. */
  function Keys<K>(ps: seq<(K, real)>): (ks: seq<K>)
    ensures |ks| == |ps| && forall i :: 0 <= i < |ps| ==> ks[i] == ps[i].0
  {
    seq(|ps|, i requires 0 <= i < |ps| => ps[i].0)
  }

  /** `groupby(key)[value].min()` as a map: every key seen, with the least value among its pairs. */
  function GroupMin<K(==)>(ps: seq<(K, real)>): (m: map<K, real>)
    ensures forall i :: 0 <= i < |ps| ==> ps[i].0 in m && m[ps[i].0] <= ps[i].1
    ensures forall k :: k in m ==> exists i :: 0 <= i < |ps| && ps[i].0 == k && ps[i].1 == m[k]
  {
    if ps == [] then map[]
    else
      var init := ps[..|ps| - 1];
      var m0 := GroupMin(init);
      assert forall i :: 0 <= i < |init| ==> init[i] == ps[i];
      var k := ps[|ps| - 1].0;
      var v := ps[|ps| - 1].1;
      if k in m0 && m0[k] <= v then m0 else m0[k := v]
  }

  /** A key occurs in `Keys(ps)` exactly when some pair carries it. */
  lemma KeysMember<K>(ps: seq<(K, real)>, k: K)
    ensures k in Keys(ps) <==> exists p :: p in ps && p.0 == k
  {
    if k in Keys(ps) {
      var i :| 0 <= i < |ps| && Keys(ps)[i] == k;
      assert ps[i] in ps;
    }
    if exists p :: p in ps && p.0 == k {
      var p :| p in ps && p.0 == k;
      var i :| 0 <= i < |ps| && ps[i] == p;
      assert Keys(ps)[i] == k;
    }
  }

  /** The keys of `GroupMin(ps)` are exactly the keys of the pairs. */
  lemma GroupMinDomain<K>(ps: seq<(K, real)>, k: K)
    ensures k in GroupMin(ps) <==> k in Keys(ps)
  {
    if k in Keys(ps) {
      var i :| 0 <= i < |ps| && Keys(ps)[i] == k;
      assert ps[i].0 == k;
    }
  }

  /** The distinct keys in ascending order. */
  function GroupKeys<K(==)>(ps: seq<(K, real)>, key: K -> Key): (ks: seq<K>)
    ensures forall i :: 0 <= i < |ks| ==> ks[i] in Keys(ps)
    ensures forall j :: 0 <= j < |ps| ==> ps[j].0 in ks
  {
    var d := Dedup(Keys(ps));
    var ks := Sort(d, key);
    assert forall i :: 0 <= i < |ks| ==> ks[i] in multiset(d);
    assert forall j :: 0 <= j < |ps| ==> Keys(ps)[j] in multiset(ks);
    ks
  }

  /**
   * The rows of `groupby(key).min().reset_index()`: one row per distinct key,
   * in ascending order of the sort key, holding that key's minimum.
   */
  function GroupRows<K(==)>(ps: seq<(K, real)>, key: K -> Key): (rows: seq<(K, real)>)
    ensures |rows| == |GroupKeys(ps, key)|
    ensures forall i :: 0 <= i < |rows| ==> rows[i].0 == GroupKeys(ps, key)[i]
    ensures forall i :: 0 <= i < |rows| ==> rows[i].0 in GroupMin(ps) && rows[i].1 == GroupMin(ps)[rows[i].0]
  {
    var m := GroupMin(ps);
    var ks := GroupKeys(ps, key);
    GroupKeysInMin(ps, key);
    seq(|ks|, i requires 0 <= i < |ks| => (ks[i], m[ks[i]]))
  }

  /** Every group key has a minimum. */
  lemma GroupKeysInMin<K>(ps: seq<(K, real)>, key: K -> Key)
    ensures forall i :: 0 <= i < |GroupKeys(ps, key)| ==> GroupKeys(ps, key)[i] in GroupMin(ps)
  {
    var ks := GroupKeys(ps, key);
    forall i | 0 <= i < |ks| ensures ks[i] in GroupMin(ps) {
      GroupMinDomain(ps, ks[i]);
    }
  }

  /** The key of a grouped row. */
  function RowKey<K>(key: K -> Key): ((K, real)) -> Key {
    (r: (K, real)) => key(r.0)
  }

  /** Every group key appears in the pairs, and every key of the pairs has its group row. */
  lemma GroupRowsKeys<K>(ps: seq<(K, real)>, key: K -> Key)
    ensures forall i :: 0 <= i < |GroupRows(ps, key)| ==> GroupRows(ps, key)[i].0 in Keys(ps)
    ensures forall j :: 0 <= j < |ps| ==> exists i :: 0 <= i < |GroupRows(ps, key)| && GroupRows(ps, key)[i].0 == ps[j].0
  {
    var rows := GroupRows(ps, key);
    var ks := GroupKeys(ps, key);
    forall j | 0 <= j < |ps| ensures exists i :: 0 <= i < |rows| && rows[i].0 == ps[j].0 {
      assert Keys(ps)[j] == ps[j].0;
      var i :| 0 <= i < |ks| && ks[i] == ps[j].0;
      assert rows[i].0 == ps[j].0;
    }
  }

  /** Group rows come in strictly ascending key order, so no key repeats. */
  lemma GroupRowsStrictlySorted<K>(ps: seq<(K, real)>, key: K -> Key)
    requires forall x, y :: key(x) == key(y) ==> x == y
    ensures StrictlySortedBy(GroupRows(ps, key), RowKey(key))
  {
    var d := Dedup(Keys(ps));
    var ks := GroupKeys(ps, key);
    var rows := GroupRows(ps, key);
    SortStrict(d, key);
    assert ks == Sort(d, key);
    forall i, j | 0 <= i < j < |rows| ensures KeyLt(RowKey(key)(rows[i]), RowKey(key)(rows[j])) {
      assert rows[i].0 == ks[i] && rows[j].0 == ks[j];
    }
  }

  /** `v` is the least value paired with `k`: what `groupby().min()` reports for `k`. */
  predicate IsLeast<K(==)>(ps: seq<(K, real)>, k: K, v: real) {
    (k, v) in ps && forall p :: p in ps && p.0 == k ==> v <= p.1
  }

  /** A key's group minimum is the one value among its pairs that no other of its pairs undercuts. */
  lemma GroupMinIsLeast<K>(ps: seq<(K, real)>, k: K, v: real)
    ensures (k in GroupMin(ps) && GroupMin(ps)[k] == v)
      <==> ((k, v) in ps && forall p :: p in ps && p.0 == k ==> v <= p.1)
  {
    var m := GroupMin(ps);
    if k in m && m[k] == v {
      var i :| 0 <= i < |ps| && ps[i].0 == k && ps[i].1 == m[k];
      assert ps[i] == (k, v);
      forall p | p in ps && p.0 == k ensures v <= p.1 {
        var j :| 0 <= j < |ps| && ps[j] == p;
      }
    }
    if (k, v) in ps && forall p :: p in ps && p.0 == k ==> v <= p.1 {
      var j :| 0 <= j < |ps| && ps[j] == (k, v);
      assert k in m && m[k] <= v;
      var i :| 0 <= i < |ps| && ps[i].0 == k && ps[i].1 == m[k];
      assert ps[i] in ps;
    }
  }

  /** Pairs with the same elements have the same group keys. */
  lemma GroupMinDomainSame<K>(ps: seq<(K, real)>, qs: seq<(K, real)>, k: K)
    requires forall p :: p in ps <==> p in qs
    ensures k in GroupMin(ps) <==> k in GroupMin(qs)
  {
    GroupMinDomain(ps, k);
    GroupMinDomain(qs, k);
    KeysMember(ps, k);
    KeysMember(qs, k);
  }

  /** `groupby().min()` depends only on which pairs occur, not on their order or repetition. */
  lemma GroupMinSameElements<K>(ps: seq<(K, real)>, qs: seq<(K, real)>)
    requires forall p :: p in ps <==> p in qs
    ensures GroupMin(ps) == GroupMin(qs)
  {
    var a := GroupMin(ps);
    var b := GroupMin(qs);
    forall k ensures k in a <==> k in b {
      GroupMinDomainSame(ps, qs, k);
    }
    forall k | k in a ensures k in b && a[k] == b[k] {
      GroupMinValueSame(ps, qs, k);
    }
    assert a.Keys == b.Keys;
  }

  lemma GroupMinValueSame<K>(ps: seq<(K, real)>, qs: seq<(K, real)>, k: K)
    requires forall p :: p in ps <==> p in qs
    requires k in GroupMin(ps)
    ensures k in GroupMin(qs) && GroupMin(qs)[k] == GroupMin(ps)[k]
  {
    var v := GroupMin(ps)[k];
    GroupMinIsLeast(ps, k, v);
    GroupMinIsLeast(qs, k, v);
  }

  /** The group rows are exactly the pairs of a key of `ps` with its group minimum. */
  lemma GroupRowsMember<K>(ps: seq<(K, real)>, key: K -> Key, x: (K, real))
    ensures x in GroupRows(ps, key) <==> x.0 in GroupMin(ps) && x.1 == GroupMin(ps)[x.0]
  {
    var rows := GroupRows(ps, key);
    var ks := GroupKeys(ps, key);
    if x.0 in GroupMin(ps) && x.1 == GroupMin(ps)[x.0] {
      GroupMinDomain(ps, x.0);
      var j :| 0 <= j < |ps| && Keys(ps)[j] == x.0;
      var l :| 0 <= l < |ks| && ks[l] == ps[j].0;
      assert rows[l] == x;
    }
  }

  /** So do its sorted rows. */
  lemma GroupRowsSameElements<K>(ps: seq<(K, real)>, qs: seq<(K, real)>, key: K -> Key)
    requires forall p :: p in ps <==> p in qs
    requires forall x, y :: key(x) == key(y) ==> x == y
    ensures GroupRows(ps, key) == GroupRows(qs, key)
  {
    var a := GroupRows(ps, key);
    var b := GroupRows(qs, key);
    GroupMinSameElements(ps, qs);
    forall x ensures x in a <==> x in b {
      GroupRowsMember(ps, key, x);
      GroupRowsMember(qs, key, x);
    }
    GroupRowsStrictlySorted(ps, key);
    GroupRowsStrictlySorted(qs, key);
    StrictlySortedUnique(a, b, RowKey(key));
  }

  // ---------------------------------------------------------------------
  // Parsed qualifying columns
  // ---------------------------------------------------------------------

  /** One DataFrame row: a cell the row does not have reads as NaN. */
  type Row = map<string, Value>

  function Cell(row: Row, col: string): Value {
    if col in row then row[col] else Missing
  }

  /** `df[col].apply(parse)`. */
  function ColumnSeconds(rows: seq<Row>, col: string, parse: Value -> Option<real>): (c: seq<Option<real>>)
    ensures |c| == |rows| && forall i :: 0 <= i < |rows| ==> c[i] == parse(Cell(rows[i], col))
  {
    seq(|rows|, i requires 0 <= i < |rows| => parse(Cell(rows[i], col)))
  }

  /** Row `row`'s parsed seconds across the columns `cols`. */
  function AcrossColumns(row: Row, cols: seq<string>, parse: Value -> Option<real>): (c: seq<Option<real>>)
    ensures |c| == |cols| && forall k :: 0 <= k < |cols| ==> c[k] == parse(Cell(row, cols[k]))
  {
    seq(|cols|, k requires 0 <= k < |cols| => parse(Cell(row, cols[k])))
  }

  /**
   * Adds a parsed `<col>_sec` column for every column of `cols`, collecting
   * them as it goes, then takes each row's minimum over them, skipping NaN.
   */
  method BestOfColumns(rows: seq<Row>, cols: seq<string>, parse: Value -> Option<real>) returns (best: seq<Option<real>>)
    ensures |best| == |rows|
    ensures forall i :: 0 <= i < |rows| ==> best[i] == MinPresent(AcrossColumns(rows[i], cols, parse))
  {
    var secCols: seq<seq<Option<real>>> := [];
    for k := 0 to |cols|
      invariant |secCols| == k
      invariant forall j :: 0 <= j < k ==> secCols[j] == ColumnSeconds(rows, cols[j], parse)
    {
      secCols := secCols + [ColumnSeconds(rows, cols[k], parse)];
    }
    best := [];
    for i := 0 to |rows|
      invariant |best| == i
      invariant forall r :: 0 <= r < i ==> best[r] == MinPresent(AcrossColumns(rows[r], cols, parse))
    {
      var across := seq(|cols|, k requires 0 <= k < |cols| => secCols[k][i]);
      assert across == AcrossColumns(rows[i], cols, parse);
      best := best + [MinPresent(across)];
    }
  }

  /** `[c for c in candidates if c in columns]`. */
  function PresentColumns(candidates: seq<string>, columns: seq<string>): (r: seq<string>)
    ensures forall c :: c in r <==> c in candidates && c in columns
    ensures |r| <= |candidates|
  {
    if candidates == [] then []
    else if candidates[0] in columns then [candidates[0]] + PresentColumns(candidates[1..], columns)
    else PresentColumns(candidates[1..], columns)
  }

  /** The qualifying-time columns the circuit-trend builders look for. */
  const QualifyingCandidates: seq<string> := ["Q1", "Q2", "Q3", "q1", "q2", "q3"]

  /**
   * `best_qual_sec` of the circuit-trend builders: the per-row minimum over
   * the candidate columns present, or ValueError when there is none.
   */
  method BestQualifying(columns: seq<string>, rows: seq<Row>, parse: Value -> Option<real>)
    returns (r: Result<seq<Option<real>>, string>)
    ensures r.Err? <==> forall c :: c in QualifyingCandidates ==> c !in columns
    ensures r.Ok? ==> |r.value| == |rows|
    ensures r.Ok? ==> forall i :: 0 <= i < |rows| ==>
      r.value[i] == MinPresent(AcrossColumns(rows[i], PresentColumns(QualifyingCandidates, columns), parse))
  {
    var present := PresentColumns(QualifyingCandidates, columns);
    if present == [] {
      return Err("Could not find Q1/Q2/Q3 (or q1/q2/q3) columns in qualifying.csv");
    }
    assert present[0] in QualifyingCandidates && present[0] in columns;
    var best := BestOfColumns(rows, present, parse);
    return Ok(best);
  }

  /** The three qualifying sessions of the driver-lap generators. */
  const SessionColumns: seq<string> := ["q1", "q2", "q3"]

  /** A `<col>_sec` column: parsed when the column exists, all None otherwise. */
  function SessionSeconds(columns: seq<string>, row: Row, col: string, parse: Value -> Option<real>): Option<real> {
    if col in columns then parse(Cell(row, col)) else None
  }

  /**
   * `best_sec` of the driver-lap generators: adds `q1_sec`, `q2_sec` and
   * `q3_sec` (all None for a missing column), then the row-wise minimum.
   */
  method BestOfSessions(columns: seq<string>, rows: seq<Row>, parse: Value -> Option<real>) returns (best: seq<Option<real>>)
    ensures |best| == |rows|
    ensures forall i :: 0 <= i < |rows| ==> best[i] == MinPresent([
      SessionSeconds(columns, rows[i], "q1", parse),
      SessionSeconds(columns, rows[i], "q2", parse),
      SessionSeconds(columns, rows[i], "q3", parse)])
  {
    var secCols: seq<seq<Option<real>>> := [];
    for k := 0 to 3
      invariant |secCols| == k
      invariant forall j :: 0 <= j < k ==> |secCols[j]| == |rows|
      invariant forall j, i :: 0 <= j < k && 0 <= i < |rows| ==>
        secCols[j][i] == SessionSeconds(columns, rows[i], SessionColumns[j], parse)
    {
      var col := SessionColumns[k];
      if col in columns {
        secCols := secCols + [ColumnSeconds(rows, col, parse)];
      } else {
        secCols := secCols + [seq(|rows|, i => None)];
      }
    }
    best := seq(|rows|, i requires 0 <= i < |rows| => MinPresent([secCols[0][i], secCols[1][i], secCols[2][i]]));
  }

  /** A skipped (absent) session never changes the minimum. */
  lemma MinPresentSkipsNone(xs: seq<Option<real>>, ys: seq<Option<real>>)
    ensures MinPresent(xs + [None] + ys) == MinPresent(xs + ys)
  {
    var a := xs + [None] + ys;
    var b := xs + ys;
    var ra := MinPresent(a);
    var rb := MinPresent(b);
    assert forall i :: 0 <= i < |xs| ==> a[i] == b[i];
    assert forall i :: |xs| < i < |a| ==> a[i] == b[i - 1];
    assert forall i :: |xs| <= i < |b| ==> b[i] == a[i + 1];
    if ra.Some? {
      assert rb.Some?;
      var i :| 0 <= i < |a| && a[i] == ra;
      var j :| 0 <= j < |b| && b[j] == rb;
      assert ra.value <= rb.value by {
        if j < |xs| { assert a[j] == rb; } else { assert a[j + 1] == rb; }
      }
      assert rb.value <= ra.value by {
        if i < |xs| { assert b[i] == ra; } else { assert b[i - 1] == ra; }
      }
    }
  }
}

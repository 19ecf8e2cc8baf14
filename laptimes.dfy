/**
 * The three lap-time text parsers of the data scripts, each turning a cell
 * such as "1:45.345" into seconds or `None`:
 *
 *  - `ColonSeconds`: `time_str_to_seconds` of build_all_circuits_json.py and
 *    build_spa_json.py (the same text in both): exactly one colon,
 *    `int(minutes) * 60 + float(seconds)`.
 *  - `DriverSeconds`: `time_str_to_seconds` of generate_driver_laps_all.py and
 *    generate_driver_laps.py (the same text in both): a colon-free text is a
 *    plain `float`, otherwise the same as `ColonSeconds`.
 *  - `ConstructorSeconds`: `parse_lap_time_to_sec` of
 *    generate_constructor_laps_all.py: numbers pass through, the text is
 *    stripped, "\N" and "" are missing, and the text is split at its first
 *    colon with `float` minutes.
 */
module LapTimes {
  import opened Wrappers
  import opened PyStrings
  import opened PyNumbers

  /** One cell of a pandas column: NaN/None, a number, or a text. */
  datatype Value = Missing | Num(x: real) | Text(s: string)

  /** `minutes * 60 + seconds` when both parts parsed; a failed part raised and gives `None`. */
  function Combine(minutes: Option<real>, seconds: Option<real>): Option<real> {
    if minutes.Some? && seconds.Some? then Some(minutes.value * 60.0 + seconds.value) else None
  }

  function AsReal(n: Option<int>): Option<real> {
    if n.Some? then Some(n.value as real) else None
  }

  /** `parts = s.split(":")`, then `int(parts[0]) * 60 + float(parts[1])` when there are exactly two parts. */
  function OneColon(s: string): (r: Option<real>)
    ensures r.Some? ==> Count(s, ':') == 1
  {
    var parts := Split(s, ':');
    SplitParts(s, ':');
    if |parts| == 2 then Combine(AsReal(PyInt(parts[0])), PyFloat(parts[1])) else None
  }

  /** `time_str_to_seconds` of the circuit-trend builders. `str()` of a number has no colon, so a number gives `None`. */
  function ColonSeconds(v: Value): (r: Option<real>)
    ensures r.Some? ==> v.Text? && Count(v.s, ':') == 1
  {
    match v
    case Missing => None
    case Num(_) => None
    case Text(s) => OneColon(s)
  }

  /** `time_str_to_seconds` of the driver-lap generators. `float(str(x))` gives back a number `x`. */
  function DriverSeconds(v: Value): (r: Option<real>)
    ensures r.Some? && v.Text? ==> Count(v.s, ':') <= 1
  {
    match v
    case Missing => None
    case Num(x) => Some(x)
    case Text(s) =>
      if ':' !in s then (CountZero(s, ':'); PyFloat(s)) else OneColon(s)
  }

  /** `parse_lap_time_to_sec` of the constructor-lap generator. */
  function ConstructorSeconds(v: Value): Option<real> {
    match v
    case Missing => None
    case Num(x) => Some(x)
    case Text(raw) =>
      var s := Strip(raw);
      if s == "\\N" || s == "" then None
      else if ':' in s then
        var (m, sec) := SplitOnce(s, ':');
        Combine(PyFloat(m), PyFloat(sec))
      else PyFloat(s)
  }

  // ---------------------------------------------------------------------
  // How the dialects relate
  // ---------------------------------------------------------------------

  /** Whatever the circuit-trend parser reads, the driver parser reads the same way. */
  lemma ColonThenDriver(v: Value)
    requires ColonSeconds(v).Some?
    ensures DriverSeconds(v) == ColonSeconds(v)
  {
    CountZero(v.s, ':');
  }

  /** The texts of exactly one colon that `int` minutes and `float` seconds accept. */
  lemma OneColonParts(s: string) returns (m: string, sec: string)
    requires OneColon(s).Some?
    ensures s == m + [':'] + sec && ':' !in m && ':' !in sec
    ensures PyInt(m).Some? && PyFloat(sec).Some?
    ensures OneColon(s) == Some(PyInt(m).value as real * 60.0 + PyFloat(sec).value)
  {
    SplitOnceSingle(s, ':');
    m, sec := SplitOnce(s, ':').0, SplitOnce(s, ':').1;
    assert Split(s, ':')[1] == sec;
  }

  /** A colon-free text the driver parser reads: the constructor parser strips it and reads the same `float`. */
  lemma ColonFreeAgrees(raw: string)
    requires ':' !in raw && PyFloat(raw).Some?
    ensures ConstructorSeconds(Text(raw)) == PyFloat(raw)
  {
    var s := Strip(raw);
    assert s != "" && s != "\\N" by {
      assert SignedDecimal("") == None;
      assert LeadingDigits("\\N") == 0;
      assert SignedDecimal("\\N") == None;
    }
    if ':' in s { StripWithin(raw, ':'); }
    StripIdempotent(raw);
  }

  /** Stripping a text with a colon keeps the colon, and the constructor parser splits it there. */
  lemma StripSplitOnce(m: string, rest: string)
    requires ':' !in m
    ensures ':' in Strip(m + [':'] + rest) && Strip(m + [':'] + rest) != "\\N"
    ensures SplitOnce(Strip(m + [':'] + rest), ':') == (TrimStart(m), TrimEnd(rest))
  {
    var m', rest' := TrimStart(m), TrimEnd(rest);
    StripAroundNonSpace(m, ':', rest);
    var t := Strip(m + [':'] + rest);
    assert t == m' + [':'] + rest';
    assert ':' !in m' by {
      if ':' in m' { TrimStartWithin(m, ':'); }
    }
    assert t[|m'|] == ':';
    SplitOnceOf(m', ':', rest');
  }

  /** A one-colon text the driver parser reads: the constructor parser splits it at the same colon. */
  lemma OneColonAgrees(raw: string)
    requires OneColon(raw).Some?
    ensures ConstructorSeconds(Text(raw)) == OneColon(raw)
  {
    var m, sec := OneColonParts(raw);
    PartsAgree(m, sec);
  }

  /** `int` minutes and `float` seconds around a colon: the constructor parser reads the same seconds. */
  lemma PartsAgree(m: string, sec: string)
    requires ':' !in m && PyInt(m).Some? && PyFloat(sec).Some?
    ensures ConstructorSeconds(Text(m + [':'] + sec)) == Some(PyInt(m).value as real * 60.0 + PyFloat(sec).value)
  {
    ConstructorSecondsColon(m, sec);
    PyIntThenPyFloat(m);
  }

  /** The constructor parser on a text with a colon: `float` minutes before the first colon, `float` seconds after. */
  lemma ConstructorSecondsColon(m: string, rest: string)
    requires ':' !in m
    ensures ConstructorSeconds(Text(m + [':'] + rest)) == Combine(PyFloat(m), PyFloat(rest))
  {
    StripSplitOnce(m, rest);
    PyFloatIgnoresTrim(m);
    PyFloatIgnoresTrim(rest);
  }

  /** Whatever the driver parser reads, the constructor parser reads the same way. */
  lemma DriverThenConstructor(v: Value)
    requires DriverSeconds(v).Some?
    ensures ConstructorSeconds(v) == DriverSeconds(v)
  {
    if v.Text? {
      if ':' !in v.s {
        ColonFreeAgrees(v.s);
      } else {
        OneColonAgrees(v.s);
      }
    }
  }

  /** Colon-free text: the circuit-trend parser rejects it, the other two read it as a plain `float`. */
  lemma ColonFreeText(s: string)
    requires ':' !in s
    ensures ColonSeconds(Text(s)) == None
    ensures DriverSeconds(Text(s)) == PyFloat(s)
    ensures ConstructorSeconds(Text(s)) == PyFloat(s)
  {
    CountZero(s, ':');
    var t := Strip(s);
    if ':' in t { StripWithin(s, ':'); }
    StripIdempotent(s);
    if t == "" {
      assert SignedDecimal("") == None;
    } else if t == "\\N" {
      assert LeadingDigits("\\N") == 0;
      assert SignedDecimal("\\N") == None;
    }
  }

  /** A number cell: the circuit-trend parser rejects it, the other two keep it. */
  lemma NumericCell(x: real)
    ensures ColonSeconds(Num(x)) == None
    ensures DriverSeconds(Num(x)) == Some(x)
    ensures ConstructorSeconds(Num(x)) == Some(x)
  {
  }

  /** A text with two colons has at least two. */
  lemma TwoColonsCount(a: string, b: string, c: string)
    ensures Count(a + [':'] + b + [':'] + c, ':') >= 2
  {
    CountConcat(a + [':'] + b, [':'] + c, ':');
    CountConcat(a, [':'] + b, ':');
    CountConcat([':'], b, ':');
    CountConcat([':'], c, ':');
    assert a + [':'] + b + [':'] + c == (a + [':'] + b) + ([':'] + c);
    assert a + [':'] + b == a + ([':'] + b);
  }

  /** The constructor parser splits at the first colon and then fails on the rest, which still has one. */
  lemma MoreColonsConstructor(a: string, b: string, c: string)
    requires ':' !in a
    ensures ConstructorSeconds(Text(a + [':'] + b + [':'] + c)) == None
  {
    var rest := b + [':'] + c;
    assert a + [':'] + b + [':'] + c == a + [':'] + rest;
    ConstructorSecondsColon(a, rest);
    assert rest[|b|] == ':';
    PyFloatRejects(rest, ':');
  }

  /** Two or more colons: every dialect gives `None`. */
  lemma MoreColonsRejected(a: string, b: string, c: string)
    requires ':' !in a
    ensures ColonSeconds(Text(a + [':'] + b + [':'] + c)) == None
    ensures DriverSeconds(Text(a + [':'] + b + [':'] + c)) == None
    ensures ConstructorSeconds(Text(a + [':'] + b + [':'] + c)) == None
  {
    var s := a + [':'] + b + [':'] + c;
    TwoColonsCount(a, b, c);
    assert ':' in s by { assert s[|a|] == ':'; }
    MoreColonsConstructor(a, b, c);
  }

  // ---------------------------------------------------------------------
  // Reading back "M:SS.mmm"
  // ---------------------------------------------------------------------

  /** The "M:SS.mmm" text of a lap of `m` minutes, `sec` seconds and `ms` milliseconds. */
  function LapText(m: nat, sec: nat, ms: nat): string
    requires sec < 100 && ms < 1000
  {
    ShowNat(m) + [':'] + SecondsPart(sec, ms)
  }

  /** The "SS.mmm" part of a lap text. */
  function SecondsPart(sec: nat, ms: nat): string
    requires sec < 100 && ms < 1000
  {
    Padded(sec, 2) + ['.'] + Padded(ms, 3)
  }

  lemma ThreeDigitFraction(n: nat)
    ensures Fraction(n, 3) == n as real / 1000.0
  {
    assert Fraction(n, 1) == n as real / 10.0;
    assert Fraction(n, 2) == n as real / 100.0;
  }

  /** The seconds part "SS.mmm" of a lap text has no colon. */
  lemma SecondsNoColon(sec: nat, ms: nat)
    requires sec < 100 && ms < 1000
    ensures ':' !in SecondsPart(sec, ms)
  {
    var a := Padded(sec, 2);
    var b := Padded(ms, 3);
    assert forall k :: 0 <= k < |a| ==> IsDigit(a[k]);
    assert forall k :: 0 <= k < |b| ==> IsDigit(b[k]);
  }

  /** The seconds part "SS.mmm" reads as `sec + ms / 1000`. */
  lemma SecondsText(sec: nat, ms: nat)
    requires sec < 100 && ms < 1000
    ensures PyFloat(SecondsPart(sec, ms)) == Some(sec as real + ms as real / 1000.0)
  {
    var a := Padded(sec, 2);
    var b := Padded(ms, 3);
    PaddedValue(sec, 2);
    PaddedValue(ms, 3);
    PyFloatPointText(a, b, 3);
    ThreeDigitFraction(ms);
  }

  /** A text `mm:ss` with colon-free parts reads as `60 * int(mm) + float(ss)`. */
  lemma ColonTextOf(s: string, mm: string, ss: string, minutes: int, secs: real, total: real)
    requires s == mm + [':'] + ss && ':' !in mm && ':' !in ss
    requires PyInt(mm) == Some(minutes) && PyFloat(ss) == Some(secs) && total == minutes as real * 60.0 + secs
    ensures ColonSeconds(Text(s)) == Some(total)
  {
    assert [mm, ss][1..] == [ss];
    assert Join([mm, ss], ':') == s;
    SplitJoin([mm, ss], ':');
  }

  /** The minutes part of a lap text has no colon. */
  lemma ShowNatNoColon(m: nat)
    ensures ':' !in ShowNat(m)
  {
    var mm := ShowNat(m);
    assert forall k :: 0 <= k < |mm| ==> IsDigit(mm[k]);
  }

  /** The circuit-trend parser reads a lap text back as `60 * m + sec + ms / 1000` seconds. */
  lemma LapTextColon(m: nat, sec: nat, ms: nat)
    requires sec < 100 && ms < 1000
    ensures ColonSeconds(Text(LapText(m, sec, ms))) == Some((m * 60 + sec) as real + ms as real / 1000.0)
  {
    ShowNatNoColon(m);
    SecondsNoColon(sec, ms);
    PyIntShowNat(m);
    SecondsText(sec, ms);
    LapSecondsSum(m, sec, ms);
    ColonTextOf(LapText(m, sec, ms), ShowNat(m), SecondsPart(sec, ms), m,
                sec as real + ms as real / 1000.0, (m * 60 + sec) as real + ms as real / 1000.0);
  }

  lemma LapSecondsSum(m: nat, sec: nat, ms: nat)
    ensures (m as real) * 60.0 + (sec as real + ms as real / 1000.0) == (m * 60 + sec) as real + ms as real / 1000.0
  {
  }

  /** Every dialect reads a lap text back as `60 * m + sec + ms / 1000` seconds. */
  lemma LapTextRoundTrip(m: nat, sec: nat, ms: nat)
    requires sec < 100 && ms < 1000
    ensures ColonSeconds(Text(LapText(m, sec, ms))) == Some((m * 60 + sec) as real + ms as real / 1000.0)
    ensures DriverSeconds(Text(LapText(m, sec, ms))) == Some((m * 60 + sec) as real + ms as real / 1000.0)
    ensures ConstructorSeconds(Text(LapText(m, sec, ms))) == Some((m * 60 + sec) as real + ms as real / 1000.0)
  {
    LapTextColon(m, sec, ms);
    ColonThenDriver(Text(LapText(m, sec, ms)));
    DriverThenConstructor(Text(LapText(m, sec, ms)));
  }

  // ---------------------------------------------------------------------
  // Where the dialects differ
  // ---------------------------------------------------------------------

  /** "1.5" is not an `int`: its second character is not a digit. */
  lemma OnePointFiveNotInt()
    ensures PyInt("1.5") == None
  {
    StripUnspaced("1.5");
    assert SplitSign("1.5") == (false, "1.5");
    assert !IsDigit("1.5"[1]);
  }

  /** "1.5" is the `float` 1.5. */
  lemma OnePointFiveFloat()
    ensures PyFloat("1.5") == Some(1.5)
  {
    OneAndFive();
    PyFloatPointText("1", "5", 1);
  }

  /** The digits of "1.5" and their values. */
  lemma OneAndFive()
    ensures IsUnsignedInt("1") && AllDigits("5")
    ensures "1" + ['.'] + "5" == "1.5"
    ensures DigitsValue("1") as real + Fraction(DigitsValue("5"), 1) == 1.5
  {
    assert DigitsValue("1") == 1 && DigitsValue("5") == 5;
  }

  /**
   * Minutes that are not an `int` (such as "1.5", see `OnePointFiveNotInt`):
   * only the constructor parser reads them, as `float` minutes.
   */
  lemma FractionalMinutes(m: string, sec: string)
    requires ':' !in m && ':' !in sec
    requires PyInt(m) == None
    ensures ColonSeconds(Text(m + [':'] + sec)) == None
    ensures DriverSeconds(Text(m + [':'] + sec)) == None
    ensures ConstructorSeconds(Text(m + [':'] + sec)) == Combine(PyFloat(m), PyFloat(sec))
  {
    var s := m + [':'] + sec;
    assert ':' in s by { assert s[|m|] == ':'; }
    assert Split(s, ':') == [m, sec] by {
      assert Join([m, sec], ':') == s;
      SplitJoin([m, sec], ':');
    }
    ConstructorSecondsColon(m, sec);
  }
}

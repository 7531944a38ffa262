/** The telemetry records the missions pages consume. A record's `data` is an opaque JSON
    document; the pages read six sensor fields, a timestamp and a position from it, coercing
    each field with `Number(...)` and skipping the values that come out `NaN`. The functions
    here say, per record and per prefix of the records, what the pages' loops collect. */
module TelemetryRecord {
  import opened Optional
  import opened JsText
  import opened TimeLabel

  /** A JSON field value. `JOther` stands for objects, which `Number` turns into `NaN`. */
  datatype JValue = JNull | JBool(b: bool) | JNum(x: real) | JStr(s: string) | JOther

  /** A record's `data`: the keys present and their values. */
  type Record = map<string, JValue>

  /** The six sensors the pages chart. */
  datatype Sensor = Temperature | Pressure | Humidity | Altitude | CO2 | Particles

  /** The JSON field each sensor is read from. */
  function Key(s: Sensor): (k: string)
    ensures k != LatitudeKey && k != LongitudeKey && k != TimestampKey
  {
    match s
    case Temperature => "temperature_c"
    case Pressure => "pressure_hpa"
    case Humidity => "humidity_percent"
    case Altitude => "altitude_m"
    case CO2 => "co2_ppm"
    case Particles => "particles_ug_m3"
  }

  const LatitudeKey: string := "latitude"
  const LongitudeKey: string := "longitude"
  const TimestampKey: string := "timestamp"

  /** Different sensors are read from different fields. */
  lemma KeysDistinct(s: Sensor, t: Sensor)
    requires s != t
    ensures Key(s) != Key(t)
  {
  }

  // ------------------------------------------------------------------ coercions

  /** JavaScript truthiness of a field value. */
  predicate Truthy(v: JValue) {
    match v
    case JNull => false
    case JBool(b) => b
    case JNum(x) => x != 0.0
    case JStr(s) => s != ""
    case JOther => true
  }

  /** `Number(v)`; `None` is `NaN`. */
  function ToNumber(v: JValue): Option<real> {
    match v
    case JNull => Some(0.0)
    case JBool(b) => Some(if b then 1.0 else 0.0)
    case JNum(x) => Some(x)
    case JStr(s) => var t := Trim(s); if t == "" then Some(0.0) else ParseDecimal(t)
    case JOther => None
  }

  /** A decimal literal with an optional sign, as `Number` reads a trimmed string. */
  function ParseDecimal(t: string): Option<real> {
    if |t| > 0 && t[0] == '-' then
      match Unsigned(t[1..])
      case None => None
      case Some(x) => Some(-x)
    else if |t| > 0 && t[0] == '+' then Unsigned(t[1..])
    else Unsigned(t)
  }

  /** Digits with at most one '.', and at least one digit on some side of it. */
  function Unsigned(u: string): (r: Option<real>)
    ensures r.Some? ==> r.value >= 0.0
  {
    var parts := Split(u, '.');
    if |parts| == 1 then
      if |u| >= 1 && AllDigits(u) then Some(DigitsValue(u) as real) else None
    else if |parts| == 2 && AllDigits(parts[0]) && AllDigits(parts[1]) && |parts[0]| + |parts[1]| >= 1 then
      Some(DigitsValue(parts[0]) as real + (DigitsValue(parts[1]) as real) / (Pow10(|parts[1]|) as real))
    else None
  }

  /** A field sent as the decimal text of a whole number reads as that number. */
  lemma NumberOfNatText(n: nat)
    ensures ToNumber(JStr(NatToString(n))) == Some(n as real)
  {
    var d := NatToString(n);
    forall k | 0 <= k < |d| ensures d[k] != '.' && !IsSpace(d[k]) {
      assert IsDigit(d[k]);
    }
    assert d[0] != '-' && d[0] != '+' by {
      assert IsDigit(d[0]);
    }
    TrimOfNoSpace(d);
    SplitNoSeparator(d, '.');
    NatToStringValue(n);
  }

  lemma TrimOfNoSpace(s: string)
    requires s != [] && NoSpace(s)
    ensures Trim(s) == s
  {
    assert !IsSpace(s[0]) && !IsSpace(s[|s| - 1]);
  }

  /** The value a record gives for a field: absent keys and `NaN` give nothing. */
  function Reading(r: Record, key: string): Option<real> {
    if key in r then ToNumber(r[key]) else None
  }

  // ------------------------------------------------------------------ what the loops collect

  /** The readings of one field, one per record that has one, in record order. */
  function SeriesOf(rs: seq<Record>, key: string): (s: seq<real>)
    ensures |s| <= |rs|
  {
    if rs == [] then []
    else
      var last := rs[|rs| - 1];
      SeriesOf(rs[..|rs| - 1], key) + (if Reading(last, key).Some? then [Reading(last, key).value] else [])
  }

  /** Collecting over two runs of records gives the two collections one after the other. */
  lemma {:induction false} SeriesAppend(a: seq<Record>, b: seq<Record>, key: string)
    ensures SeriesOf(a + b, key) == SeriesOf(a, key) + SeriesOf(b, key)
  {
    if b == [] {
      assert a + b == a;
    } else {
      var ab := a + b;
      assert ab[..|ab| - 1] == a + b[..|b| - 1];
      assert ab[|ab| - 1] == b[|b| - 1];
      SeriesAppend(a, b[..|b| - 1], key);
    }
  }

  /** A single record contributes its reading, or nothing. */
  lemma SeriesOfOne(r: Record, key: string)
    ensures SeriesOf([r], key) == if Reading(r, key).Some? then [Reading(r, key).value] else []
  {
    assert [r][..0] == [];
  }

  /** A value is in the series exactly when some record reads as it. */
  lemma {:induction false} SeriesMember(rs: seq<Record>, key: string, x: real)
    ensures x in SeriesOf(rs, key) <==> exists i :: 0 <= i < |rs| && Reading(rs[i], key) == Some(x)
  {
    if rs != [] {
      var init := rs[..|rs| - 1];
      SeriesMember(init, key, x);
      if x in SeriesOf(init, key) {
        var i :| 0 <= i < |init| && Reading(init[i], key) == Some(x);
        assert rs[i] == init[i];
      }
      if exists i :: 0 <= i < |rs| && Reading(rs[i], key) == Some(x) {
        var i :| 0 <= i < |rs| && Reading(rs[i], key) == Some(x);
        if i < |init| {
          assert init[i] == rs[i];
        }
      }
    }
  }

  /** The number of records whose timestamp is truthy. */
  function TimestampCount(rs: seq<Record>): (n: nat)
    ensures n <= |rs|
  {
    if rs == [] then 0
    else
      var last := rs[|rs| - 1];
      TimestampCount(rs[..|rs| - 1]) + (if TimestampKey in last && Truthy(last[TimestampKey]) then 1 else 0)
  }

  /** "0s", "1s", ..., one label per position. */
  function Labels(n: nat): (ls: seq<string>)
    ensures |ls| == n
  {
    seq(n, i requires 0 <= i < n => Label(i))
  }

  /** The time labels: one per record with a timestamp, numbered from zero whatever the
      timestamps say. */
  function TimeLabelsOf(rs: seq<Record>): seq<string> {
    Labels(TimestampCount(rs))
  }

  /** Each label reads back as its own position. */
  lemma LabelsConsecutive(n: nat)
    ensures forall i :: 0 <= i < n ==> Seconds(Labels(n)[i]) == Some(i)
  {
    forall i | 0 <= i < n ensures Seconds(Labels(n)[i]) == Some(i) {
      SecondsOfLabel(i);
    }
  }

  /** One more label is the next number. */
  lemma LabelsNext(n: nat)
    ensures Labels(n) + [Label(n)] == Labels(n + 1)
  {
  }

  /** The point of a record with both coordinates present and numeric. */
  function Position(r: Record): Option<(real, real)> {
    match (Reading(r, LatitudeKey), Reading(r, LongitudeKey))
    case (Some(lat), Some(lon)) => Some((lat, lon))
    case _ => None
  }

  /** The trajectory: one point per record with a position, in record order. */
  function TrajectoryOf(rs: seq<Record>): (t: seq<(real, real)>)
    ensures |t| <= |rs|
  {
    if rs == [] then []
    else
      var last := rs[|rs| - 1];
      TrajectoryOf(rs[..|rs| - 1]) + (if Position(last).Some? then [Position(last).value] else [])
  }

  /** A record's position is `p` exactly when it carries both of its coordinates. */
  lemma PositionIs(r: Record, p: (real, real))
    ensures Position(r) == Some(p) <==> Reading(r, LatitudeKey) == Some(p.0) && Reading(r, LongitudeKey) == Some(p.1)
  {
  }

  /** A point is on the trajectory exactly when it is the position of some record. */
  lemma TrajectoryMember(rs: seq<Record>, p: (real, real))
    ensures p in TrajectoryOf(rs) <==> exists i :: 0 <= i < |rs| && Position(rs[i]) == Some(p)
  {
    if p in TrajectoryOf(rs) {
      var i := TrajectorySource(rs, p);
    }
    if exists i :: 0 <= i < |rs| && Position(rs[i]) == Some(p) {
      var i :| 0 <= i < |rs| && Position(rs[i]) == Some(p);
      TrajectoryHas(rs, i);
    }
  }

  /** Each point of the trajectory comes from a record. */
  lemma {:induction false} TrajectorySource(rs: seq<Record>, p: (real, real)) returns (i: nat)
    requires p in TrajectoryOf(rs)
    ensures i < |rs| && Position(rs[i]) == Some(p)
  {
    var init := rs[..|rs| - 1];
    var last := rs[|rs| - 1];
    if p in TrajectoryOf(init) {
      i := TrajectorySource(init, p);
      assert rs[i] == init[i];
    } else {
      i := |rs| - 1;
    }
  }

  /** Each record with a position puts it on the trajectory. */
  lemma {:induction false} TrajectoryHas(rs: seq<Record>, i: nat)
    requires i < |rs| && Position(rs[i]).Some?
    ensures Position(rs[i]).value in TrajectoryOf(rs)
  {
    var init := rs[..|rs| - 1];
    if i < |init| {
      assert init[i] == rs[i];
      TrajectoryHas(init, i);
    }
  }

  /** Extending the records by one is the prefix and the next record. */
  lemma PrefixStep(rs: seq<Record>, i: nat)
    requires i < |rs|
    ensures rs[..i + 1][..i] == rs[..i] && rs[..i + 1][i] == rs[i] && |rs[..i + 1]| == i + 1
  {
  }
}

/** The admin page of one mission: whether it is live, the per-sensor summaries built from
    its records (series, running minimum and maximum, trend, current value), its trajectory
    and its duration text. */
module ViewMissions {
  import opened Optional
  import opened JsText
  import opened Trend
  import opened TelemetryRecord
  import opened ClockDuration

  /** `isRealtimeMission && !missionData.mission.end_date`, as the flag the page polls on. */
  function IsLive(isRealtime: JValue, endDate: JValue): (live: bool)
    ensures live ==> Truthy(isRealtime)
    ensures Truthy(endDate) ==> !live
    ensures Truthy(isRealtime) && !Truthy(endDate) ==> live
  {
    Truthy(isRealtime) && !Truthy(endDate)
  }

  // ------------------------------------------------------------------ running statistics

  /** `Math.min(m, x)` for a running minimum that starts at `Infinity`. */
  function MinExt(m: Ext, x: real): (r: Ext)
    ensures m == PosInf ==> r == Fin(x)
    ensures m.Fin? ==> r.Fin? && r.x <= m.x && r.x <= x && (r.x == m.x || r.x == x)
  {
    match m
    case Fin(a) => Fin(if x < a then x else a)
    case PosInf => Fin(x)
    case NegInf => NegInf
    case NaN => NaN
  }

  /** `Math.max(m, x)` for a running maximum that starts at `-Infinity`. */
  function MaxExt(m: Ext, x: real): (r: Ext)
    ensures m == NegInf ==> r == Fin(x)
    ensures m.Fin? ==> r.Fin? && r.x >= m.x && r.x >= x && (r.x == m.x || r.x == x)
  {
    match m
    case Fin(a) => Fin(if x > a then x else a)
    case NegInf => Fin(x)
    case PosInf => PosInf
    case NaN => NaN
  }

  /** A sensor's `series`, `min` and `max` while the records are read. */
  datatype Stats = Stats(series: seq<real>, min: Ext, max: Ext)

  const NoStats := Stats([], PosInf, NegInf)

  /** What one record does to a sensor: a numeric reading is pushed and folded into the
      minimum and the maximum; anything else leaves the sensor alone. */
  function Step(st: Stats, r: Record, key: string): Stats {
    match Reading(r, key)
    case None => st
    case Some(x) => Stats(st.series + [x], MinExt(st.min, x), MaxExt(st.max, x))
  }

  /** The sensor after reading a run of records. */
  function StatsOf(rs: seq<Record>, key: string): Stats {
    if rs == [] then NoStats else Step(StatsOf(rs[..|rs| - 1], key), rs[|rs| - 1], key)
  }

  /** The collected series is the field's series, and the extremes are exact: infinite
      while nothing was read, and afterwards the smallest and largest readings. */
  lemma {:induction false} StatsBounds(rs: seq<Record>, key: string)
    ensures StatsOf(rs, key).series == SeriesOf(rs, key)
    ensures StatsOf(rs, key).series == [] ==> StatsOf(rs, key).min == PosInf && StatsOf(rs, key).max == NegInf
    ensures StatsOf(rs, key).series != [] ==> Extremes(StatsOf(rs, key))
  {
    if rs != [] {
      StatsBounds(rs[..|rs| - 1], key);
      var before := StatsOf(rs[..|rs| - 1], key);
      match Reading(rs[|rs| - 1], key)
      case None =>
      case Some(x) => ExtremesStep(before, x);
    }
  }

  /** `min` and `max` are readings of the series, and every reading lies between them. */
  predicate Extremes(st: Stats) {
    st.min.Fin? && st.max.Fin? && st.min.x in st.series && st.max.x in st.series
    && forall j :: 0 <= j < |st.series| ==> st.min.x <= st.series[j] <= st.max.x
  }

  lemma ExtremesStep(st: Stats, x: real)
    requires st.series == [] ==> st.min == PosInf && st.max == NegInf
    requires st.series != [] ==> Extremes(st)
    ensures Extremes(Stats(st.series + [x], MinExt(st.min, x), MaxExt(st.max, x)))
  {
    var s := st.series + [x];
    var lo, hi := MinExt(st.min, x), MaxExt(st.max, x);
    assert s[|s| - 1] == x;
    forall j | 0 <= j < |s| ensures lo.x <= s[j] <= hi.x {
      if j < |st.series| {
        assert s[j] == st.series[j];
      }
    }
    if st.series != [] {
      assert st.min.x in s && st.max.x in s;
    }
  }

  // ------------------------------------------------------------------ summaries

  /** `calculateTrend`: fewer than two readings are neutral at "0%"; otherwise the change
      from the first to the last reading. */
  function CalculateTrend(series: seq<real>): (Direction, string) {
    if |series| < 2 then (Neutral, "0%")
    else
      var p := PercentChange(series[0], series[|series| - 1]);
      (Classify(p), SignedLabel(p))
  }

  /** For a series starting at a positive reading, the trend is up exactly when the last
      reading is more than 3% above the first and down exactly when more than 3% below; the
      label carries a '+' exactly when the change is positive. */
  lemma TrendFromPositiveStart(series: seq<real>)
    requires |series| >= 2 && series[0] > 0.0
    ensures CalculateTrend(series).0 == Up <==> series[|series| - 1] * 100.0 > series[0] * 103.0
    ensures CalculateTrend(series).0 == Down <==> series[|series| - 1] * 100.0 < series[0] * 97.0
  {
    ChangeFromPositive(series[0], series[|series| - 1]);
  }

  /** From a positive first reading the label carries a '+' exactly when the last reading
      is the larger. */
  lemma LabelFromPositiveStart(series: seq<real>)
    requires |series| >= 2 && series[0] > 0.0
    ensures CalculateTrend(series).1[0] == '+' <==> series[|series| - 1] > series[0]
  {
    var first, last := series[0], series[|series| - 1];
    assert CalculateTrend(series).1 == SignedLabel(PercentChange(first, last));
    PlusFromPositive(first, last);
  }

  /** A short series has the neutral default. */
  lemma TrendOfShortSeries(series: seq<real>)
    requires |series| < 2
    ensures CalculateTrend(series) == (Neutral, "0%")
  {
  }

  /** The number of decimals each sensor's current value is shown with. */
  function Decimals(s: Sensor): (f: nat)
    ensures f <= 1
  {
    match s
    case Temperature => 1
    case Pressure => 1
    case Particles => 1
    case _ => 0
  }

  /** `current`: the last reading with the sensor's decimals, or "0" with no reading. */
  function Current(series: seq<real>, f: nat): (c: string)
    ensures series == [] ==> c == "0"
    ensures series != [] && series[|series| - 1] >= 0.0 ==> c == FixedDigits(series[|series| - 1], f)
    ensures series != [] ==> |c| >= 1 && (c[0] == '-' <==> series[|series| - 1] < 0.0)
  {
    if |series| > 0 then ToFixed(series[|series| - 1], f) else "0"
  }

  /** One sensor as the page shows it. */
  datatype Summary = Summary(series: seq<real>, min: Ext, max: Ext, trend: Direction, trendLabel: string, current: string)

  function Summarise(st: Stats, f: nat): Summary {
    var (trend, trendLabel) := CalculateTrend(st.series);
    Summary(st.series, st.min, st.max, trend, trendLabel, Current(st.series, f))
  }

  /** What `processSensorData` returns. */
  datatype Processed = Processed(
    timeLabels: seq<string>,
    temperature: Summary, pressure: Summary, humidity: Summary,
    altitude: Summary, co2: Summary, particles: Summary,
    trajectory: seq<(real, real)>)
  {
    function Get(s: Sensor): Summary {
      match s
      case Temperature => temperature
      case Pressure => pressure
      case Humidity => humidity
      case Altitude => altitude
      case CO2 => co2
      case Particles => particles
    }
  }

  /** The summary of sensor `s` after all the records. */
  function SummaryOf(records: seq<Record>, s: Sensor): Summary {
    Summarise(StatsOf(records, Key(s)), Decimals(s))
  }

  /** `processSensorData`: one pass over the records, pushing labels, readings and
      positions and updating the running extremes, then the trends and current values. */
  method ProcessSensorData(records: seq<Record>) returns (d: Processed)
    ensures d.timeLabels == TimeLabelsOf(records)
    ensures d.trajectory == TrajectoryOf(records)
    ensures forall s: Sensor :: d.Get(s) == SummaryOf(records, s)
  {
    var temperature, pressure, humidity := NoStats, NoStats, NoStats;
    var altitude, co2, particles := NoStats, NoStats, NoStats;
    var timeLabels: seq<string> := [];
    var trajectory: seq<(real, real)> := [];
    var i := 0;
    while i < |records|
      invariant 0 <= i <= |records|
      invariant timeLabels == Labels(TimestampCount(records[..i]))
      invariant trajectory == TrajectoryOf(records[..i])
      invariant temperature == StatsOf(records[..i], Key(Temperature))
      invariant pressure == StatsOf(records[..i], Key(Pressure))
      invariant humidity == StatsOf(records[..i], Key(Humidity))
      invariant altitude == StatsOf(records[..i], Key(Altitude))
      invariant co2 == StatsOf(records[..i], Key(CO2))
      invariant particles == StatsOf(records[..i], Key(Particles))
    {
      var data := records[i];
      RecordStep(records, i);
      if TimestampKey in data && Truthy(data[TimestampKey]) {
        LabelsNext(|timeLabels|);
        timeLabels := timeLabels + [TimeLabel.Label(|timeLabels|)];
      }
      temperature := Step(temperature, data, Key(Temperature));
      pressure := Step(pressure, data, Key(Pressure));
      humidity := Step(humidity, data, Key(Humidity));
      altitude := Step(altitude, data, Key(Altitude));
      co2 := Step(co2, data, Key(CO2));
      particles := Step(particles, data, Key(Particles));
      if Position(data).Some? {
        trajectory := trajectory + [Position(data).value];
      }
      i := i + 1;
    }
    assert records[..i] == records;
    d := Processed(timeLabels,
      Summarise(temperature, Decimals(Temperature)), Summarise(pressure, Decimals(Pressure)),
      Summarise(humidity, Decimals(Humidity)), Summarise(altitude, Decimals(Altitude)),
      Summarise(co2, Decimals(CO2)), Summarise(particles, Decimals(Particles)),
      trajectory);
  }

  /** Reading one more record, for every field the page collects. */
  lemma RecordStep(rs: seq<Record>, i: nat)
    requires i < |rs|
    ensures forall key :: StatsOf(rs[..i + 1], key) == Step(StatsOf(rs[..i], key), rs[i], key)
    ensures TrajectoryOf(rs[..i + 1]) == TrajectoryOf(rs[..i]) + (if Position(rs[i]).Some? then [Position(rs[i]).value] else [])
    ensures TimestampCount(rs[..i + 1]) == TimestampCount(rs[..i])
      + (if TimestampKey in rs[i] && Truthy(rs[i][TimestampKey]) then 1 else 0)
  {
    PrefixStep(rs, i);
  }

  /** What the page promises about every sensor it shows: the series holds one reading per
      record with a numeric field, in order, and the extremes are exact. */
  lemma SummaryFacts(records: seq<Record>, s: Sensor)
    ensures SummaryOf(records, s).series == SeriesOf(records, Key(s))
    ensures |SummaryOf(records, s).series| <= |records|
    ensures SummaryOf(records, s).series == [] ==>
      SummaryOf(records, s).min == PosInf && SummaryOf(records, s).max == NegInf && SummaryOf(records, s).current == "0"
    ensures SummaryOf(records, s).series != [] ==>
      Extremes(Stats(SummaryOf(records, s).series, SummaryOf(records, s).min, SummaryOf(records, s).max))
  {
    StatsBounds(records, Key(s));
  }

  // ------------------------------------------------------------------ duration

  const Unavailable: string := "Dados indispon\U{00ED}veis"

  /** JavaScript's `a % 60`: the remainder takes the sign of `a`. */
  function JsRem60(a: int): (r: int)
    ensures -60 < r < 60 && (a - r) % 60 == 0
    ensures a >= 0 ==> r >= 0
    ensures a <= 0 ==> r <= 0
  {
    if a >= 0 then a % 60 else -((-a) % 60)
  }

  /** `formatDuration`. `elapsed` is `Some(now - start)` in milliseconds when the mission has
      a start date and no end date (the clock is a parameter); then the running time is shown.
      Otherwise the duration text is shown as the report shows it. */
  function FormatDuration(duration: string, elapsed: Option<int>): string {
    if duration == "" then Unavailable
    else
      match elapsed
      case Some(ms) =>
        var diffSeconds := ms / 1000;
        Render(Some(diffSeconds / 60), Some(JsRem60(diffSeconds)))
      case None => FormatClock(duration, Unavailable)
  }

  /** A running mission shows its elapsed whole seconds. */
  lemma LiveReadsBack(duration: string, ms: int)
    requires duration != "" && ms >= 0
    ensures ReadMinSeg(FormatDuration(duration, Some(ms))) == Some(ms / 1000)
  {
    var diff := ms / 1000;
    var m, sec := diff / 60, diff % 60;
    assert m * 60 + sec == diff;
    ReadRender(FormatDuration(duration, Some(ms)), m, sec);
  }

  /** A finished mission's clock text is shown without its hours. */
  lemma RecordedDuration(duration: string, m: nat, s: nat)
    requires ':' in duration && ClockParts(duration) == (Some(m), Some(s))
    ensures ReadMinSeg(FormatDuration(duration, None)) == Some(m * 60 + s)
  {
    ClockReadsBack(duration, m, s, Unavailable);
  }
}

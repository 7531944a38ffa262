/** The demo sensor data shown when a mission has no telemetry: 300 time labels, a series
    per sensor with a fixed display range, and the trend of each series computed without
    the live page's guard against short series. The series themselves are drawn at random
    and are parameters here. */
module SensorData {
  import opened Optional
  import opened JsText
  import opened TimeLabel
  import opened Trend
  import opened TelemetryRecord
  import SensorChart
  import ViewMissions

  /** `DATA_POINTS`. */
  const DataPoints: nat := 300

  /** `generateTimeLabels`: "0s" to "299s". */
  function GenerateTimeLabels(): (ls: seq<string>)
    ensures |ls| == DataPoints
    ensures forall i :: 0 <= i < |ls| ==> ls[i] == Label(i)
  {
    Labels(DataPoints)
  }

  /** Every demo label reads back as its position. */
  lemma DemoLabelsReadBack()
    ensures forall i :: 0 <= i < DataPoints ==> Seconds(GenerateTimeLabels()[i]) == Some(i)
  {
    LabelsConsecutive(DataPoints);
  }

  /** The demo labels span more than a minute and at most five, so the admin chart puts a
      tick every 30 labels. */
  lemma DemoTickInterval()
    ensures SensorChart.TickInterval(GenerateTimeLabels()) == 30
  {
    LabelsTickInterval(GenerateTimeLabels(), DataPoints);
  }

  /** Between 62 and 301 labels, the last reads between 61 and 300 seconds. */
  lemma LabelsTickInterval(ls: seq<string>, n: nat)
    requires ls == Labels(n) && 61 < n <= 301
    ensures SensorChart.TickInterval(ls) == 30
  {
    LabelsConsecutive(n);
    SensorChart.TickIntervalChoice(ls);
    assert !SensorChart.AtMost(ls[n - 1], 60);
    assert SensorChart.AllAtMost(ls, 300);
  }

  /** The demo `calculateTrend`: no guard, so an empty series compares `undefined`s, which
      gives `NaN`, and a single reading is compared with itself. */
  function CalculateTrend(data: seq<real>): (r: (Direction, string))
    ensures |r.1| >= 2 && r.1[|r.1| - 1] == '%'
    ensures r.0 == Up ==> r.1[0] == '+'
    ensures r.0 == Down ==> r.1[0] != '+'
  {
    var p := if data == [] then NaN else PercentChange(data[0], data[|data| - 1]);
    SignedLabelPlus(p);
    (Classify(p), SignedLabel(p))
  }

  /** With two readings or more, the demo trend is the live page's. */
  lemma AgreesWithLivePage(data: seq<real>)
    requires |data| >= 2
    ensures CalculateTrend(data) == ViewMissions.CalculateTrend(data)
  {
  }

  /** The two differ on short series: the live page shows "0%" where the demo shows the
      change of a reading from itself. */
  lemma SingleReading(x: real)
    requires x != 0.0
    ensures CalculateTrend([x]) == (Neutral, "0.0%")
    ensures ViewMissions.CalculateTrend([x]) == (Neutral, "0%")
  {
    NoChange(x);
    FixedZero();
    assert [x][0] == x && [x][|[x]| - 1] == x;
    assert CalculateTrend([x]) == (Classify(Fin(0.0)), SignedLabel(Fin(0.0)));
    assert Classify(Fin(0.0)) == Neutral;
    assert FixedText(Fin(0.0), 1) == "0.0";
    assert SignedLabel(Fin(0.0)) == "0.0" + "%";
    assert "0.0" + "%" == "0.0%";
  }

  /** No readings: the change is `NaN`, neutral. */
  lemma NoReadings()
    ensures CalculateTrend([]) == (Neutral, "NaN%")
  {
    assert CalculateTrend([]) == (Classify(NaN), SignedLabel(NaN));
    assert Classify(NaN) == Neutral;
    assert FixedText(NaN, 1) == "NaN";
    assert SignedLabel(NaN) == "NaN" + "%";
    assert "NaN" + "%" == "NaN%";
  }

  lemma FixedZero()
    ensures ToFixed(0.0, 1) == "0.0"
  {
    assert FixedUnits(0.0, 1) == 0;
    assert NatToString(0) == [DigitChar(0)];
    assert Zeros(1) == [DigitChar(0)];
  }

  /** The fixed display range of each demo sensor. */
  function DemoRange(s: Sensor): (r: (real, real))
    ensures r.0 < r.1
  {
    match s
    case Temperature => (17.0, 25.0)
    case Pressure => (990.0, 1030.0)
    case Humidity => (30.0, 80.0)
    case Altitude => (50.0, 400.0)
    case CO2 => (250.0, 470.0)
    case Particles => (15.0, 40.0)
  }

  /** A demo sensor: the series, its fixed range, its trend and its last reading with the
      sensor's decimals. */
  function DemoSummary(s: Sensor, series: seq<real>): (d: ViewMissions.Summary)
    requires series != []
    ensures d.series == series
    ensures d.min == Fin(DemoRange(s).0) && d.max == Fin(DemoRange(s).1)
  {
    var (trend, trendLabel) := CalculateTrend(series);
    ViewMissions.Summary(series, Fin(DemoRange(s).0), Fin(DemoRange(s).1), trend, trendLabel,
      ToFixed(series[|series| - 1], ViewMissions.Decimals(s)))
  }

  /** Apart from the range, a demo sensor shows what the live page would show for the same
      readings. */
  lemma DemoLikeLive(s: Sensor, series: seq<real>, st: ViewMissions.Stats)
    requires |series| >= 2 && st.series == series
    ensures DemoSummary(s, series).trend == ViewMissions.Summarise(st, ViewMissions.Decimals(s)).trend
    ensures DemoSummary(s, series).trendLabel == ViewMissions.Summarise(st, ViewMissions.Decimals(s)).trendLabel
    ensures DemoSummary(s, series).current == ViewMissions.Summarise(st, ViewMissions.Decimals(s)).current
  {
    AgreesWithLivePage(series);
  }
}

/** The chart that overlays the same sensor of several missions: the pooled values fix the
    default y-axis, each input series becomes one chart series with an id derived from the
    chart title and the series name, and the x-axis behaves as on the public chart. */
module MultiSensorChart {
  import opened Optional
  import opened JsText
  import opened TimeLabel
  import FrontSensorChart

  /** `MultiSeriesData`. */
  datatype SeriesData = SeriesData(name: string, data: seq<real>, color: string)

  /** One entry of the chart's `series` property. */
  datatype ChartSeries = ChartSeries(data: seq<real>, color: string, id: string, name: string)

  // ------------------------------------------------------------------ pooled values

  /** `seriesData.flatMap(series => series.data)`. */
  function AllValues(series: seq<SeriesData>): seq<real> {
    if series == [] then [] else series[0].data + AllValues(series[1..])
  }

  /** Pooling distributes over the series list: the values keep series order. */
  lemma {:induction false} AllValuesAppend(a: seq<SeriesData>, b: seq<SeriesData>)
    ensures AllValues(a + b) == AllValues(a) + AllValues(b)
  {
    if a != [] {
      var ab := a + b;
      assert ab[0] == a[0] && ab[1..] == a[1..] + b;
      AllValuesAppend(a[1..], b);
      assert a[0].data + (AllValues(a[1..]) + AllValues(b)) == (a[0].data + AllValues(a[1..])) + AllValues(b);
    } else {
      assert a + b == b;
    }
  }

  /** A value is pooled exactly when some series holds it. */
  lemma {:induction false} AllValuesMember(series: seq<SeriesData>, v: real)
    ensures v in AllValues(series) <==> exists j :: 0 <= j < |series| && v in series[j].data
  {
    if series != [] {
      AllValuesMember(series[1..], v);
      if v in AllValues(series[1..]) {
        var j :| 0 <= j < |series[1..]| && v in series[1..][j].data;
        assert v in series[j + 1].data;
      }
      if exists j :: 0 <= j < |series| && v in series[j].data {
        var j :| 0 <= j < |series| && v in series[j].data;
        if j > 0 {
          assert v in series[1..][j - 1].data;
        }
      }
    }
  }

  /** `Math.min(...vs)` of a non-empty list. */
  function MinOf(vs: seq<real>): (m: real)
    requires vs != []
    ensures m in vs && forall i :: 0 <= i < |vs| ==> m <= vs[i]
  {
    if |vs| == 1 then vs[0]
    else
      var r := MinOf(vs[1..]);
      if vs[0] <= r then vs[0] else r
  }

  /** `Math.max(...vs)` of a non-empty list. */
  function MaxOf(vs: seq<real>): (m: real)
    requires vs != []
    ensures m in vs && forall i :: 0 <= i < |vs| ==> vs[i] <= m
  {
    if |vs| == 1 then vs[0]
    else
      var r := MaxOf(vs[1..]);
      if vs[0] >= r then vs[0] else r
  }

  // ------------------------------------------------------------------ y-axis bounds

  /** The y-axis bounds as written: an explicit bound is used unchanged; otherwise 90% of
      the smallest pooled value and 110% of the largest, or 0 and 100 with nothing pooled. */
  function YBounds(series: seq<SeriesData>, minValue: Option<real>, maxValue: Option<real>): (b: (real, real))
    ensures minValue.Some? ==> b.0 == minValue.value
    ensures maxValue.Some? ==> b.1 == maxValue.value
    ensures AllValues(series) == [] && minValue.None? ==> b.0 == 0.0
    ensures AllValues(series) == [] && maxValue.None? ==> b.1 == 100.0
  {
    var vs := AllValues(series);
    var lo := if minValue.Some? then minValue.value else if |vs| > 0 then MinOf(vs) * 0.9 else 0.0;
    var hi := if maxValue.Some? then maxValue.value else if |vs| > 0 then MaxOf(vs) * 1.1 else 100.0;
    (lo, hi)
  }

  /** With every pooled value non-negative, the default axis takes in every value. */
  lemma DefaultBoundsCoverNonNegative(series: seq<SeriesData>)
    requires forall i :: 0 <= i < |AllValues(series)| ==> AllValues(series)[i] >= 0.0
    ensures forall i :: 0 <= i < |AllValues(series)| ==>
      YBounds(series, None, None).0 <= AllValues(series)[i] <= YBounds(series, None, None).1
  {
    var vs := AllValues(series);
    if vs != [] {
      var lo, hi := MinOf(vs), MaxOf(vs);
      assert lo >= 0.0 && hi >= 0.0;
      assert lo * 0.9 <= lo && hi <= hi * 1.1;
    }
  }

  /** A single sub-zero reading of -10 gives a default lower bound of -9, above the reading,
      so the default axis cuts it off. */
  lemma NegativeMinimumCutOff()
    ensures YBounds([SeriesData("T", [-10.0], "c")], None, None).0 == -9.0
  {
    var s := [SeriesData("T", [-10.0], "c")];
    assert s[1..] == [];
    assert AllValues(s) == [-10.0];
  }

  /** The bounds as evidently intended: 10% of each extreme's magnitude of headroom beyond
      it, which equals the written rule for non-negative minima and positive maxima. */
  function PaddedBounds(series: seq<SeriesData>, minValue: Option<real>, maxValue: Option<real>): (b: (real, real))
    ensures minValue.Some? ==> b.0 == minValue.value
    ensures maxValue.Some? ==> b.1 == maxValue.value
    ensures AllValues(series) == [] && minValue.None? ==> b.0 == 0.0
    ensures AllValues(series) == [] && maxValue.None? ==> b.1 == 100.0
  {
    var vs := AllValues(series);
    var lo := if minValue.Some? then minValue.value else if |vs| > 0 then MinOf(vs) - Magnitude(MinOf(vs)) * 0.1 else 0.0;
    var hi := if maxValue.Some? then maxValue.value else if |vs| > 0 then MaxOf(vs) + Magnitude(MaxOf(vs)) * 0.1 else 100.0;
    (lo, hi)
  }

  function Magnitude(x: real): (m: real)
    ensures m >= 0.0 && (m == x || m == -x)
  {
    if x < 0.0 then -x else x
  }

  /** The padded default axis takes in every pooled value, whatever their signs. */
  lemma PaddedBoundsCover(series: seq<SeriesData>)
    ensures forall i :: 0 <= i < |AllValues(series)| ==>
      PaddedBounds(series, None, None).0 <= AllValues(series)[i] <= PaddedBounds(series, None, None).1
  {
  }

  /** Where the written rule covers the data, the padded rule agrees with it. */
  lemma PaddedAgreesOnNonNegative(series: seq<SeriesData>)
    requires forall i :: 0 <= i < |AllValues(series)| ==> AllValues(series)[i] >= 0.0
    ensures PaddedBounds(series, None, None) == YBounds(series, None, None)
  {
    var vs := AllValues(series);
    if vs != [] {
      assert MinOf(vs) >= 0.0 && MaxOf(vs) >= 0.0;
    }
  }

  // ------------------------------------------------------------------ x-axis

  /** The x-axis formatter, written out again in this component. */
  function FormatTimeLabel(tl: string): (t: string)
    ensures t == FrontSensorChart.FormatTimeLabel(tl)
  {
    match Seconds(tl)
    case None => "NaNm NaNs"
    case Some(x) =>
      var s := x + 1;
      assert FrontSensorChart.FormatTimeLabel(tl) == FrontSensorChart.FormatShown(s);
      if s % 60 == 0 then Part(s / 60, 'm')
      else if s < 60 then Part(s, 's')
      else Part(s / 60, 'm') + " " + Part(s % 60, 's')
  }

  /** The x-axis tick rule, `(i + 1) % 30 === 0`. */
  function ShowTick(i: nat): (b: bool)
    ensures b == FrontSensorChart.ShowTick(i)
    ensures b <==> i % 30 == 29
  {
    (i + 1) % 30 == 0
  }

  // ------------------------------------------------------------------ series ids

  /** `s.toLowerCase().replace(/\s+/g, '-')`. */
  function Slug(s: string): string {
    ReplaceSpaceRuns(ToLower(s), "-")
  }

  /** A slug holds no white space. */
  lemma SlugNoSpace(s: string)
    ensures NoSpace(Slug(s))
  {
    ReplaceSpaceRunsNoSpace(ToLower(s), "-");
  }

  /** Slugging a slug changes nothing. */
  lemma SlugIdempotent(s: string)
    ensures Slug(Slug(s)) == Slug(s)
  {
    var t := Slug(s);
    ToLowerReplaceSpaceRuns(ToLower(s), "-");
    ToLowerIdempotent(s);
    assert ToLower("-") == "-";
    SlugNoSpace(s);
    ReplaceSpaceRunsIdentity(t, "-");
  }

  /** Names that differ only in letter case share a slug. */
  lemma SlugIgnoresCase(s: string)
    ensures Slug(ToLower(s)) == Slug(s)
  {
    ToLowerIdempotent(s);
  }

  /** The id of a series on a chart. */
  function SeriesId(title: string, name: string): string {
    Slug(title) + "-" + Slug(name)
  }

  /** The id is free of white space and starts with the chart's slug and a '-'. */
  lemma SeriesIdShape(title: string, name: string)
    ensures NoSpace(SeriesId(title, name))
    ensures SeriesId(title, name)[..|Slug(title)| + 1] == Slug(title) + "-"
  {
    SlugNoSpace(title);
    SlugNoSpace(name);
    var id := SeriesId(title, name);
    forall i | 0 <= i < |id| ensures !IsSpace(id[i]) {
      if i < |Slug(title)| {
        assert id[i] == Slug(title)[i];
      } else if i > |Slug(title)| {
        assert id[i] == Slug(name)[i - |Slug(title)| - 1];
      }
    }
  }

  /** The chart series: one per input series, in order, each with the input's data and
      colour, its id and its name as the label. */
  function ChartSeriesOf(title: string, series: seq<SeriesData>): (out: seq<ChartSeries>)
    ensures |out| == |series|
    ensures forall i :: 0 <= i < |series| ==>
      out[i] == ChartSeries(series[i].data, series[i].color, SeriesId(title, series[i].name), series[i].name)
  {
    if series == [] then []
    else
      [ChartSeries(series[0].data, series[0].color, SeriesId(title, series[0].name), series[0].name)]
        + ChartSeriesOf(title, series[1..])
  }
}

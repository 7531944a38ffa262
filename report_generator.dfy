/** The mission report: its duration text, the formatting of the statistics cells, the
    layout of the statistics table, the record-count line and the file name. Drawing the PDF
    is not modelled; the table is given by its cell texts. */
module ReportGenerator {
  import opened Optional
  import opened JsText
  import opened TelemetryRecord
  import opened ClockDuration
  import ViewMissions

  const NotAvailable: string := "N/A"

  // ------------------------------------------------------------------ duration

  /** `formatReportDuration`: "N/A" for an empty duration, the minutes and seconds of an
      `H:MM:SS[.f]` text, and any other text unchanged. Nothing in the body can throw, so the
      `catch` branch is unreachable. */
  function FormatReportDuration(duration: string): (t: string)
    ensures duration == "" ==> t == NotAvailable
    ensures duration != "" && ':' !in duration ==> t == duration
    ensures ':' in duration ==> t == Render(ClockParts(duration).0, ClockParts(duration).1) && t != duration
  {
    if ':' in duration then
      FormatColon(duration, NotAvailable);
      ColonAlwaysRendered(duration, NotAvailable);
      FormatClock(duration, NotAvailable)
    else FormatClock(duration, NotAvailable)
  }

  /** The report and the missions page show a recorded duration alike; they differ only on
      the empty text, "N/A" against "Dados indisponíveis". */
  lemma SameAsMissionsPage(duration: string)
    ensures duration != "" ==> FormatReportDuration(duration) == ViewMissions.FormatDuration(duration, None)
    ensures duration == "" ==> FormatReportDuration(duration) != ViewMissions.FormatDuration(duration, None)
  {
  }

  /** The duration text reads back as the minutes and seconds of the clock text; the hours
      are dropped. */
  lemma ReportDurationReadsBack(duration: string, m: nat, s: nat)
    requires ':' in duration && ClockParts(duration) == (Some(m), Some(s))
    ensures ReadMinSeg(FormatReportDuration(duration)) == Some(m * 60 + s)
  {
    ClockReadsBack(duration, m, s, NotAvailable);
  }

  /** "0:00:00" reports as "0 seg". */
  lemma ZeroReportDuration(d: string)
    requires d == "0:00:00"
    ensures FormatReportDuration(d) == "0 seg"
  {
    ZeroDuration(d, NotAvailable);
  }

  // ------------------------------------------------------------------ cell values

  /** A statistics value: `number | string`, or missing. */
  datatype StatValue = Undefined | Null | Num(x: real) | Text(s: string)

  /** `formatValue`: "N/A" for a missing value and for the text "N/A"; a number with two
      decimals; in both cases the first '.' becomes ','. */
  function FormatValue(v: StatValue): (t: string)
    ensures v.Undefined? || v.Null? || v == Text(NotAvailable) ==> t == NotAvailable
  {
    match v
    case Undefined => NotAvailable
    case Null => NotAvailable
    case Num(x) => ReplaceFirst(ToFixed(x, 2), '.', ",")
    case Text(s) => if s == NotAvailable then NotAvailable else ReplaceFirst(s, '.', ",")
  }

  /** In a text only the first '.' becomes ','; later ones stay. */
  lemma FirstPointOnly(a: string, rest: string)
    requires '.' !in a
    ensures FormatValue(Text(a + ['.'] + rest)) == a + "," + rest
  {
    var s := a + ['.'] + rest;
    assert s[|a|] == '.';
    assert s != NotAvailable by {
      assert '.' !in NotAvailable;
    }
    ReplaceFirstAfter(a, '.', rest, ",");
  }

  /** A text without a '.' is shown as it is. */
  lemma TextWithoutPoint(s: string)
    requires '.' !in s
    ensures FormatValue(Text(s)) == s
  {
    ReplaceFirstAbsent(s, '.', ",");
  }

  /** A number is shown as its sign and integer digits, a ',' and exactly two decimals. */
  lemma NumberShape(x: real)
    ensures var t := FormatValue(Num(x));
      |t| >= 4 && t[|t| - 3] == ',' && AllDigits(t[|t| - 2..]) && '.' !in t
  {
    var a, rest := FixedTwoParts(x);
    ReplaceFirstAfter(a, '.', rest, ",");
    var t := a + "," + rest;
    assert t[|t| - 2..] == rest;
    NoColonInDigits(rest);
    assert '.' !in t by {
      forall k | 0 <= k < |t| ensures t[k] != '.' {
        if k < |a| {
          assert t[k] == a[k];
        } else if k > |a| {
          assert t[k] == rest[k - |a| - 1];
        }
      }
    }
  }

  /** Two-decimal text splits at its only '.' into the integer part and two digits. */
  lemma FixedTwoParts(x: real) returns (a: string, rest: string)
    ensures ToFixed(x, 2) == a + ['.'] + rest
    ensures '.' !in a && |a| >= 1 && |rest| == 2 && AllDigits(rest)
  {
    var d := FixedDigits(if x < 0.0 then -x else x, 2);
    var k := |d| - 3;
    var digits := d[..k];
    rest := d[k + 1..];
    NoColonInDigits(digits);
    assert d == digits + ['.'] + rest;
    if x < 0.0 {
      a := "-" + digits;
      assert ToFixed(x, 2) == "-" + d;
    } else {
      a := digits;
    }
  }

  // ------------------------------------------------------------------ statistics table

  datatype SensorStats = SensorStats(min: StatValue, max: StatValue, avg: StatValue,
                                     start: StatValue, end: StatValue, change: string)

  datatype MissionStats = MissionStats(
    temperature: SensorStats, pressure: SensorStats, humidity: SensorStats,
    altitude: SensorStats, co2: SensorStats, particles: SensorStats)
  {
    function Get(s: Sensor): SensorStats {
      match s
      case Temperature => temperature
      case Pressure => pressure
      case Humidity => humidity
      case Altitude => altitude
      case CO2 => co2
      case Particles => particles
    }
  }

  /** The header row. */
  const Header: seq<string> := ["Par\U{00E2}metro", "M\U{00ED}nimo", "M\U{00E1}ximo", "M\U{00E9}dia",
                                "In\U{00ED}cio", "Fim", "Varia\U{00E7}\U{00E3}o"]

  /** The sensors in the order of the table's rows. */
  const RowOrder: seq<Sensor> := [Temperature, Pressure, Humidity, Altitude, CO2, Particles]

  /** Each sensor has exactly one row. */
  lemma RowOrderComplete(s: Sensor)
    ensures s in RowOrder
    ensures forall i, j :: 0 <= i < j < |RowOrder| ==> RowOrder[i] != RowOrder[j]
  {
  }

  /** The first cell of a sensor's row: its name and unit. */
  function RowLabel(s: Sensor): string {
    match s
    case Temperature => "Temperatura (\U{00B0}C)"
    case Pressure => "Press\U{00E3}o (hPa)"
    case Humidity => "Humidade (%)"
    case Altitude => "Altitude (m)"
    case CO2 => "CO2 (ppm)"
    case Particles => "Part\U{00ED}culas (\U{00B5}g/m\U{00B3})"
  }

  /** Different sensors have differently labelled rows. */
  lemma RowLabelsDistinct(s: Sensor, t: Sensor)
    requires s != t
    ensures RowLabel(s) != RowLabel(t)
  {
    assert RowLabel(s)[..2] != RowLabel(t)[..2] || RowLabel(s)[2] != RowLabel(t)[2] || |RowLabel(s)| != |RowLabel(t)|;
  }

  /** A sensor's row: its label, five formatted values and the change text as given. */
  function Row(s: Sensor, st: SensorStats): seq<string> {
    [RowLabel(s), FormatValue(st.min), FormatValue(st.max), FormatValue(st.avg),
     FormatValue(st.start), FormatValue(st.end), st.change]
  }

  /** A row of seven cells under the header: the sensor's label, its minimum, maximum,
      average, first and last values, and its change text. */
  predicate Shows(r: seq<string>, s: Sensor, st: SensorStats) {
    |r| == |Header|
    && r[0] == RowLabel(s) && r[1] == FormatValue(st.min) && r[2] == FormatValue(st.max)
    && r[3] == FormatValue(st.avg) && r[4] == FormatValue(st.start) && r[5] == FormatValue(st.end)
    && r[6] == st.change
  }

  lemma RowShows(s: Sensor, st: SensorStats)
    ensures Shows(Row(s, st), s, st)
  {
    assert |Header| == 7;
  }

  /** `tableData`: the header and a row per sensor, in row order, seven cells each. */
  function TableData(stats: MissionStats): (t: seq<seq<string>>)
    ensures |t| == 1 + |RowOrder| && t[0] == Header
    ensures forall i :: 1 <= i < |t| ==> Shows(t[i], RowOrder[i - 1], stats.Get(RowOrder[i - 1]))
  {
    var rows := seq(|RowOrder|, i requires 0 <= i < |RowOrder| => Row(RowOrder[i], stats.Get(RowOrder[i])));
    var t := [Header] + rows;
    assert forall i :: 1 <= i < |t| ==> Shows(t[i], RowOrder[i - 1], stats.Get(RowOrder[i - 1])) by {
      forall i | 1 <= i < |t|
        ensures Shows(t[i], RowOrder[i - 1], stats.Get(RowOrder[i - 1]))
      {
        assert t[i] == Row(RowOrder[i - 1], stats.Get(RowOrder[i - 1]));
        RowShows(RowOrder[i - 1], stats.Get(RowOrder[i - 1]));
      }
    }
    t
  }

  /** Every sensor's statistics appear, on the row after the sensors listed before it. */
  lemma SensorRow(stats: MissionStats, s: Sensor) returns (i: nat)
    ensures 1 <= i < |TableData(stats)| && TableData(stats)[i] == Row(s, stats.Get(s))
  {
    RowOrderComplete(s);
    var k :| 0 <= k < |RowOrder| && RowOrder[k] == s;
    i := k + 1;
  }

  // ------------------------------------------------------------------ record count and file name

  const CountPrefix: string := "Total de registos: "

  /** The line under the table: the number of records. */
  function RecordCountLine(records: seq<Record>): (line: string)
    ensures |line| > |CountPrefix| && line[..|CountPrefix|] == CountPrefix
  {
    CountPrefix + NatToString(|records|)
  }

  /** After the prefix, the line reads back as the number of records. */
  lemma RecordCountReadsBack(records: seq<Record>)
    ensures ParseInt(RecordCountLine(records)[|CountPrefix|..]) == Some(|records|)
  {
    assert RecordCountLine(records)[|CountPrefix|..] == NatToString(|records|) + [];
    ParseIntOfNat(|records|, []);
  }

  /** `name.replace(/\s+/g, '_').toLowerCase()`. */
  function FileSlug(name: string): string {
    ToLower(ReplaceSpaceRuns(name, "_"))
  }

  /** Replacing before lowering is the same as lowering before replacing. */
  lemma FileSlugOrder(name: string)
    ensures FileSlug(name) == ReplaceSpaceRuns(ToLower(name), "_")
  {
    ToLowerReplaceSpaceRuns(name, "_");
    assert ToLower("_") == "_";
  }

  /** The slug has no white space, no upper-case ASCII letter, and slugging it again changes
      nothing. */
  lemma FileSlugShape(name: string)
    ensures NoSpace(FileSlug(name))
    ensures ToLower(FileSlug(name)) == FileSlug(name)
    ensures FileSlug(FileSlug(name)) == FileSlug(name)
  {
    var r := ReplaceSpaceRuns(name, "_");
    ReplaceSpaceRunsNoSpace(name, "_");
    ToLowerIdempotent(r);
    var t := FileSlug(name);
    assert NoSpace(t) by {
      forall i | 0 <= i < |t| ensures !IsSpace(t[i]) {
        assert t[i] == Lower(r[i]);
      }
    }
    ReplaceSpaceRunsIdentity(t, "_");
  }

  /** The report's file name for a mission and the date part of the current ISO time. The
      name is computed but the function returns only the document. */
  function FileName(name: string, isoNow: string): (f: string)
    ensures |f| > 17 && f[..17] == "relatorio_missao_"
    ensures f[|f| - 4..] == ".pdf"
  {
    "relatorio_missao_" + FileSlug(name) + "_" + Split(isoNow, 'T')[0] + ".pdf"
  }
}

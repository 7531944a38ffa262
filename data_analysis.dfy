/** The analysis page: it picks the three most recently finished missions, collects each
    one's sensor series, time labels and trajectory, gathers them per sensor with one colour
    per mission, and turns each sensor's series into the points a chart plots. */
module DataAnalysis {
  import opened Optional
  import opened TimeLabel
  import opened TelemetryRecord

  /** A mission with its records. `endDate` is the end instant when `end_date` is truthy,
      as a number of milliseconds, and `None` otherwise. */
  datatype Mission = Mission(id: int, name: string, endDate: Option<int>, records: seq<Record>)

  // ------------------------------------------------------------------ selection

  /** `.filter(mission => mission.end_date)`. */
  function Completed(ms: seq<Mission>): (c: seq<Mission>)
    ensures |c| <= |ms|
    ensures forall i :: 0 <= i < |c| ==> c[i].endDate.Some?
    ensures multiset(c) <= multiset(ms)
  {
    if ms == [] then []
    else
      assert ms == [ms[0]] + ms[1..];
      (if ms[0].endDate.Some? then [ms[0]] else []) + Completed(ms[1..])
  }

  /** A completed mission is kept exactly as often as it occurs. */
  lemma {:induction false} CompletedKeepsAll(ms: seq<Mission>, m: Mission)
    requires m.endDate.Some?
    ensures multiset(Completed(ms))[m] == multiset(ms)[m]
  {
    if ms != [] {
      assert ms == [ms[0]] + ms[1..];
      CompletedKeepsAll(ms[1..], m);
    }
  }

  /** Ordered by end date, latest first. */
  predicate LatestFirst(ms: seq<Mission>) {
    (forall i :: 0 <= i < |ms| ==> ms[i].endDate.Some?)
    && forall i, j :: 0 <= i < j < |ms| ==> ms[j].endDate.value <= ms[i].endDate.value
  }

  /** Puts `m` before the first mission that did not end later, so that among missions
      ending at the same instant the earlier one in the input stays first. */
  function Insert(m: Mission, sorted: seq<Mission>): (r: seq<Mission>)
    requires m.endDate.Some? && LatestFirst(sorted)
    ensures |r| == |sorted| + 1 && (r[0] == m || (sorted != [] && r[0] == sorted[0]))
    ensures LatestFirst(r)
  {
    if sorted == [] || sorted[0].endDate.value <= m.endDate.value then
      [m] + sorted
    else
      var rest := Insert(m, sorted[1..]);
      assert rest[0].endDate.value <= sorted[0].endDate.value;
      assert forall j :: 0 <= j < |rest| ==> rest[j].endDate.value <= rest[0].endDate.value;
      [sorted[0]] + rest
  }

  /** Inserting adds the one mission and loses none. */
  lemma {:induction false} InsertKeeps(m: Mission, sorted: seq<Mission>)
    requires m.endDate.Some? && LatestFirst(sorted)
    ensures multiset(Insert(m, sorted)) == multiset(sorted) + multiset{m}
  {
    if !(sorted == [] || sorted[0].endDate.value <= m.endDate.value) {
      InsertKeeps(m, sorted[1..]);
      assert sorted == [sorted[0]] + sorted[1..];
    }
  }

  /** `.sort((a, b) => b.end_date - a.end_date)`, a stable sort. */
  function SortLatestFirst(ms: seq<Mission>): (r: seq<Mission>)
    requires forall i :: 0 <= i < |ms| ==> ms[i].endDate.Some?
    ensures LatestFirst(r)
    ensures multiset(r) == multiset(ms)
  {
    if ms == [] then []
    else
      assert ms == [ms[0]] + ms[1..];
      InsertKeeps(ms[0], SortLatestFirst(ms[1..]));
      Insert(ms[0], SortLatestFirst(ms[1..]))
  }

  /** The selection: completed missions, latest first, at most three. */
  function SelectRecent(ms: seq<Mission>): (sel: seq<Mission>)
    ensures LatestFirst(sel)
    ensures |sel| == if |Completed(ms)| < 3 then |Completed(ms)| else 3
    ensures multiset(sel) <= multiset(ms)
  {
    var completed := Completed(ms);
    var sorted := SortLatestFirst(completed);
    var n := if |sorted| <= 3 then |sorted| else 3;
    PrefixFacts(sorted, n);
    assert multiset(sorted[..n]) <= multiset(sorted) == multiset(completed) <= multiset(ms);
    sorted[..n]
  }

  lemma PrefixFacts(s: seq<Mission>, n: nat)
    requires n <= |s| && LatestFirst(s)
    ensures LatestFirst(s[..n])
    ensures multiset(s[..n]) + multiset(s[n..]) == multiset(s)
  {
    assert s == s[..n] + s[n..];
  }

  /** No completed mission left out ended later than a selected one, and with fewer than
      three completed missions every one of them is selected. */
  lemma SelectionIsMostRecent(ms: seq<Mission>, m: Mission)
    requires m in multiset(Completed(ms)) - multiset(SelectRecent(ms))
    ensures |SelectRecent(ms)| == 3
    ensures forall k :: 0 <= k < 3 ==> m.endDate.value <= SelectRecent(ms)[k].endDate.value
  {
    var sorted := SortLatestFirst(Completed(ms));
    var n := if |sorted| <= 3 then |sorted| else 3;
    assert SelectRecent(ms) == sorted[..n];
    TailNotLater(sorted, n, m);
  }

  /** What is left after the first three of a latest-first list ended no later than they. */
  lemma TailNotLater(sorted: seq<Mission>, n: nat, m: Mission)
    requires LatestFirst(sorted) && n == (if |sorted| <= 3 then |sorted| else 3)
    requires m in multiset(sorted) - multiset(sorted[..n])
    ensures n == 3 && forall k :: 0 <= k < 3 ==> m.endDate.value <= sorted[..n][k].endDate.value
  {
    PrefixFacts(sorted, n);
    var tail := sorted[n..];
    assert m in multiset(tail);
    var j :| 0 <= j < |tail| && tail[j] == m;
    assert sorted[n + j] == m;
    LaterInOrder(sorted, n + j);
  }

  /** In a latest-first list, nothing after the first three ended later than them. */
  lemma LaterInOrder(sorted: seq<Mission>, j: nat)
    requires LatestFirst(sorted) && 3 <= j < |sorted|
    ensures forall k :: 0 <= k < 3 ==> sorted[j].endDate.value <= sorted[..3][k].endDate.value
  {
  }

  /** Every completed mission is selected when there are at most three of them. */
  lemma FewCompletedAllSelected(ms: seq<Mission>, m: Mission)
    requires |Completed(ms)| <= 3 && m.endDate.Some?
    ensures multiset(SelectRecent(ms))[m] == multiset(ms)[m]
  {
    var completed := Completed(ms);
    var sorted := SortLatestFirst(completed);
    assert |sorted| == |completed| <= 3;
    assert sorted[..|sorted|] == sorted;
    assert SelectRecent(ms) == sorted;
    assert multiset(sorted) == multiset(completed);
    CompletedKeepsAll(ms, m);
  }

  // ------------------------------------------------------------------ one mission

  /** What `processMissionData` returns: the labels, the six series and the trajectory. */
  datatype MissionData = MissionData(
    timeLabels: seq<string>,
    temperature: seq<real>, pressure: seq<real>, humidity: seq<real>,
    altitude: seq<real>, co2: seq<real>, particles: seq<real>,
    trajectory: seq<(real, real)>)
  {
    function Get(s: Sensor): seq<real> {
      match s
      case Temperature => temperature
      case Pressure => pressure
      case Humidity => humidity
      case Altitude => altitude
      case CO2 => co2
      case Particles => particles
    }
  }

  /** `processMissionData`: one pass over the records, pushing a label per record with a
      timestamp, a reading per numeric sensor field and a point per numeric position. */
  method ProcessMissionData(records: seq<Record>) returns (d: MissionData)
    ensures d.timeLabels == TimeLabelsOf(records)
    ensures d.trajectory == TrajectoryOf(records)
    ensures forall s: Sensor :: d.Get(s) == SeriesOf(records, Key(s))
  {
    var temperature, pressure, humidity: seq<real> := [], [], [];
    var altitude, co2, particles: seq<real> := [], [], [];
    var timeLabels: seq<string> := [];
    var trajectory: seq<(real, real)> := [];
    var i := 0;
    while i < |records|
      invariant 0 <= i <= |records|
      invariant timeLabels == Labels(TimestampCount(records[..i]))
      invariant trajectory == TrajectoryOf(records[..i])
      invariant temperature == SeriesOf(records[..i], Key(Temperature))
      invariant pressure == SeriesOf(records[..i], Key(Pressure))
      invariant humidity == SeriesOf(records[..i], Key(Humidity))
      invariant altitude == SeriesOf(records[..i], Key(Altitude))
      invariant co2 == SeriesOf(records[..i], Key(CO2))
      invariant particles == SeriesOf(records[..i], Key(Particles))
    {
      var data := records[i];
      SeriesStep(records, i);
      SeriesNext(records, i, Key(Temperature));
      SeriesNext(records, i, Key(Pressure));
      SeriesNext(records, i, Key(Humidity));
      SeriesNext(records, i, Key(Altitude));
      SeriesNext(records, i, Key(CO2));
      SeriesNext(records, i, Key(Particles));
      if TimestampKey in data && Truthy(data[TimestampKey]) {
        LabelsNext(|timeLabels|);
        timeLabels := timeLabels + [Label(|timeLabels|)];
      }
      temperature := temperature + Push(data, Key(Temperature));
      pressure := pressure + Push(data, Key(Pressure));
      humidity := humidity + Push(data, Key(Humidity));
      altitude := altitude + Push(data, Key(Altitude));
      co2 := co2 + Push(data, Key(CO2));
      particles := particles + Push(data, Key(Particles));
      if Position(data).Some? {
        trajectory := trajectory + [Position(data).value];
      }
      i := i + 1;
    }
    assert records[..i] == records;
    d := MissionData(timeLabels, temperature, pressure, humidity, altitude, co2, particles, trajectory);
    forall s: Sensor ensures d.Get(s) == SeriesOf(records, Key(s)) {
      match s
      case Temperature => assert d.Get(s) == temperature;
      case Pressure => assert d.Get(s) == pressure;
      case Humidity => assert d.Get(s) == humidity;
      case Altitude => assert d.Get(s) == altitude;
      case CO2 => assert d.Get(s) == co2;
      case Particles => assert d.Get(s) == particles;
    }
  }

  /** What one record contributes to a series: its reading, if it has one. */
  function Push(r: Record, key: string): (p: seq<real>)
    ensures |p| <= 1 && (p != [] <==> Reading(r, key).Some?)
  {
    if Reading(r, key).Some? then [Reading(r, key).value] else []
  }

  /** Reading one more record, for every field the page collects. */
  lemma SeriesStep(rs: seq<Record>, i: nat)
    requires i < |rs|
    ensures TrajectoryOf(rs[..i + 1]) == TrajectoryOf(rs[..i]) + (if Position(rs[i]).Some? then [Position(rs[i]).value] else [])
    ensures TimestampCount(rs[..i + 1]) == TimestampCount(rs[..i])
      + (if TimestampKey in rs[i] && Truthy(rs[i][TimestampKey]) then 1 else 0)
  {
    PrefixStep(rs, i);
  }

  /** Reading one more record, for one field. */
  lemma SeriesNext(rs: seq<Record>, i: nat, key: string)
    requires i < |rs|
    ensures SeriesOf(rs[..i + 1], key) == SeriesOf(rs[..i], key) + Push(rs[i], key)
  {
    PrefixStep(rs, i);
  }

  // ------------------------------------------------------------------ several missions

  /** One mission's series of one sensor, as the chart of that sensor lists it. */
  datatype Entry = Entry(name: string, data: seq<real>, color: string)

  /** One mission's path on the map. */
  datatype PathEntry = PathEntry(name: string, path: seq<(real, real)>, color: string)

  /** The series lists of the six sensors. */
  datatype SensorLists = SensorLists(
    temperature: seq<Entry>, pressure: seq<Entry>, humidity: seq<Entry>,
    altitude: seq<Entry>, co2: seq<Entry>, particles: seq<Entry>)
  {
    function Get(s: Sensor): seq<Entry> {
      match s
      case Temperature => temperature
      case Pressure => pressure
      case Humidity => humidity
      case Altitude => altitude
      case CO2 => co2
      case Particles => particles
    }

    /** The six pushes of one mission's series under its name and colour. */
    function Add(name: string, d: MissionData, color: string): (r: SensorLists)
      ensures forall s: Sensor :: r.Get(s) == Get(s) + [Entry(name, d.Get(s), color)]
    {
      SensorLists(
        temperature + [Entry(name, d.temperature, color)],
        pressure + [Entry(name, d.pressure, color)],
        humidity + [Entry(name, d.humidity, color)],
        altitude + [Entry(name, d.altitude, color)],
        co2 + [Entry(name, d.co2, color)],
        particles + [Entry(name, d.particles, color)])
    }
  }

  /** What `processMultipleMissionsData` returns. */
  datatype Combined = Combined(timeLabels: seq<string>, series: SensorLists, trajectories: seq<PathEntry>)

  /** A mission takes part when it has records. */
  predicate Contributes(m: Mission) {
    m.records != []
  }

  /** The colour of the mission at position `i` of the selection. */
  function ColorAt(colors: seq<string>, i: nat): (c: string)
    requires |colors| > 0
    ensures c in colors
  {
    colors[i % |colors|]
  }

  /** The entries of sensor `s` after the first `n` missions. */
  function EntriesUpTo(ms: seq<Mission>, n: nat, colors: seq<string>, s: Sensor): seq<Entry>
    requires n <= |ms| && |colors| > 0
  {
    if n == 0 then []
    else
      var m := ms[n - 1];
      EntriesUpTo(ms, n - 1, colors, s)
        + (if Contributes(m) then [Entry(m.name, SeriesOf(m.records, Key(s)), ColorAt(colors, n - 1))] else [])
  }

  /** The map paths after the first `n` missions: only non-empty trajectories. */
  function PathsUpTo(ms: seq<Mission>, n: nat, colors: seq<string>): seq<PathEntry>
    requires n <= |ms| && |colors| > 0
  {
    if n == 0 then []
    else
      var m := ms[n - 1];
      PathsUpTo(ms, n - 1, colors)
        + (if Contributes(m) && TrajectoryOf(m.records) != [] then [PathEntry(m.name, TrajectoryOf(m.records), ColorAt(colors, n - 1))] else [])
  }

  /** The shared labels after the first `n` missions: replaced by a strictly longer list. */
  function LabelsUpTo(ms: seq<Mission>, n: nat): seq<string>
    requires n <= |ms|
  {
    if n == 0 then []
    else
      var m := ms[n - 1];
      var before := LabelsUpTo(ms, n - 1);
      if Contributes(m) && |TimeLabelsOf(m.records)| > |before| then TimeLabelsOf(m.records) else before
  }

  /** `processMultipleMissionsData`. The page always passes its three mission colours. */
  method ProcessMultipleMissions(ms: seq<Mission>, colors: seq<string>) returns (c: Combined)
    requires |colors| > 0
    ensures c.timeLabels == LabelsUpTo(ms, |ms|)
    ensures c.trajectories == PathsUpTo(ms, |ms|, colors)
    ensures forall s: Sensor :: c.series.Get(s) == EntriesUpTo(ms, |ms|, colors, s)
  {
    var timeLabels: seq<string> := [];
    var series := SensorLists([], [], [], [], [], []);
    var trajectories: seq<PathEntry> := [];
    var index := 0;
    while index < |ms|
      invariant 0 <= index <= |ms|
      invariant timeLabels == LabelsUpTo(ms, index)
      invariant trajectories == PathsUpTo(ms, index, colors)
      invariant forall s: Sensor :: series.Get(s) == EntriesUpTo(ms, index, colors, s)
    {
      var mission := ms[index];
      if Contributes(mission) {
        var color := colors[index % |colors|];
        var missionData := ProcessMissionData(mission.records);
        series := series.Add(mission.name, missionData, color);
        if missionData.trajectory != [] {
          trajectories := trajectories + [PathEntry(mission.name, missionData.trajectory, color)];
        }
        if |missionData.timeLabels| > |timeLabels| {
          timeLabels := missionData.timeLabels;
        }
      }
      index := index + 1;
    }
    c := Combined(timeLabels, series, trajectories);
  }

  /** The positions, among the first `n`, of the missions that take part. */
  function ContributingIndices(ms: seq<Mission>, n: nat): (idx: seq<nat>)
    requires n <= |ms|
    ensures forall k :: 0 <= k < |idx| ==> idx[k] < n && Contributes(ms[idx[k]])
    ensures forall k, l :: 0 <= k < l < |idx| ==> idx[k] < idx[l]
  {
    if n == 0 then [] else ContributingIndices(ms, n - 1) + (if Contributes(ms[n - 1]) then [n - 1] else [])
  }

  /** Every mission that takes part is listed. */
  lemma {:induction false} ContributingListed(ms: seq<Mission>, n: nat, i: nat)
    requires i < n <= |ms| && Contributes(ms[i])
    ensures i in ContributingIndices(ms, n)
  {
    if i < n - 1 {
      ContributingListed(ms, n - 1, i);
    }
  }

  /** Each sensor's chart lists one entry per mission with records, in selection order,
      named after the mission, holding that mission's series of the sensor, and coloured by
      the mission's position in the selection, so a mission without records still uses up
      its colour. */
  lemma {:induction false} EntriesPerMission(ms: seq<Mission>, n: nat, colors: seq<string>, s: Sensor)
    requires n <= |ms| && |colors| > 0
    ensures |EntriesUpTo(ms, n, colors, s)| == |ContributingIndices(ms, n)|
    ensures forall k :: 0 <= k < |ContributingIndices(ms, n)| ==>
      var i := ContributingIndices(ms, n)[k];
      EntriesUpTo(ms, n, colors, s)[k] == Entry(ms[i].name, SeriesOf(ms[i].records, Key(s)), colors[i % |colors|])
  {
    if n > 0 {
      EntriesPerMission(ms, n - 1, colors, s);
    }
  }

  /** A mission without records in first place leaves the first colour unused. */
  lemma SkippedMissionUsesColour(ms: seq<Mission>, colors: seq<string>, s: Sensor)
    requires |ms| == 2 && |colors| == 3 && !Contributes(ms[0]) && Contributes(ms[1])
    ensures EntriesUpTo(ms, 2, colors, s) == [Entry(ms[1].name, SeriesOf(ms[1].records, Key(s)), colors[1])]
  {
    assert EntriesUpTo(ms, 1, colors, s) == [];
  }

  /** Every path on the map is non-empty and belongs to a mission with records. */
  lemma {:induction false} PathsNonEmpty(ms: seq<Mission>, n: nat, colors: seq<string>)
    requires n <= |ms| && |colors| > 0
    ensures |PathsUpTo(ms, n, colors)| <= |ContributingIndices(ms, n)|
    ensures forall k :: 0 <= k < |PathsUpTo(ms, n, colors)| ==> PathsUpTo(ms, n, colors)[k].path != []
  {
    if n > 0 {
      PathsNonEmpty(ms, n - 1, colors);
    }
  }

  /** The largest number of timestamped records among the first `n` missions that take
      part. */
  function MaxCount(ms: seq<Mission>, n: nat): (c: nat)
    requires n <= |ms|
    ensures forall i :: 0 <= i < n && Contributes(ms[i]) ==> TimestampCount(ms[i].records) <= c
    ensures c == 0 || exists i :: 0 <= i < n && Contributes(ms[i]) && TimestampCount(ms[i].records) == c
  {
    if n == 0 then 0
    else
      var before := MaxCount(ms, n - 1);
      var m := ms[n - 1];
      if Contributes(m) && TimestampCount(m.records) > before then TimestampCount(m.records) else before
  }

  /** The shared labels are those of the mission with the most timestamped records; labels
      depend only on their number, so which of several such missions wins does not show. */
  lemma {:induction false} LongestLabels(ms: seq<Mission>, n: nat)
    requires n <= |ms|
    ensures LabelsUpTo(ms, n) == Labels(MaxCount(ms, n))
  {
    if n > 0 {
      LongestLabels(ms, n - 1);
    }
  }

  // ------------------------------------------------------------------ chart points

  /** A value of a chart point: the time label under `name`, or a reading. */
  datatype Cell = LabelCell(text: string) | Value(x: real)

  /** One chart point: an object from keys to values. */
  type Point = map<string, Cell>

  const NameKey: string := "name"

  /** The chart point at label `index` after the first `n` series have written to it. */
  function PointOf(series: seq<Entry>, n: nat, tl: string, index: nat): (p: Point)
    requires n <= |series|
    ensures NameKey in p
  {
    if n == 0 then map[NameKey := LabelCell(tl)]
    else
      var before := PointOf(series, n - 1, tl, index);
      var e := series[n - 1];
      if index < |e.data| then before[e.name := Value(e.data[index])] else before
  }

  /** `formatChartData`: no points without series; otherwise one point per label, holding
      the label and every series' reading at that position. */
  method FormatChartData(seriesData: Option<seq<Entry>>, timeLabels: seq<string>) returns (points: seq<Point>)
    ensures seriesData.None? || seriesData.value == [] ==> points == []
    ensures seriesData.Some? && seriesData.value != [] ==>
      |points| == |timeLabels|
      && forall i :: 0 <= i < |timeLabels| ==> points[i] == PointOf(seriesData.value, |seriesData.value|, timeLabels[i], i)
  {
    if seriesData.None? || seriesData.value == [] {
      return [];
    }
    var series := seriesData.value;
    points := [];
    var index := 0;
    while index < |timeLabels|
      invariant 0 <= index <= |timeLabels|
      invariant |points| == index
      invariant forall i :: 0 <= i < index ==> points[i] == PointOf(series, |series|, timeLabels[i], i)
    {
      var dataPoint: Point := map[NameKey := LabelCell(timeLabels[index])];
      var j := 0;
      while j < |series|
        invariant 0 <= j <= |series|
        invariant dataPoint == PointOf(series, j, timeLabels[index], index)
      {
        if index < |series[j].data| {
          dataPoint := dataPoint[series[j].name := Value(series[j].data[index])];
        }
        j := j + 1;
      }
      points := points + [dataPoint];
      index := index + 1;
    }
  }

  /** The keys of a point: `name`, and the name of every series with a reading there. */
  lemma {:induction false} PointKeys(series: seq<Entry>, n: nat, tl: string, index: nat, k: string)
    requires n <= |series|
    ensures k in PointOf(series, n, tl, index) <==>
      k == NameKey || exists j :: 0 <= j < n && series[j].name == k && index < |series[j].data|
  {
    if n > 0 {
      PointKeys(series, n - 1, tl, index, k);
      if exists j :: 0 <= j < n && series[j].name == k && index < |series[j].data| {
        var j :| 0 <= j < n && series[j].name == k && index < |series[j].data|;
        if j < n - 1 {
          assert exists j' :: 0 <= j' < n - 1 && series[j'].name == k && index < |series[j'].data|;
        }
      }
    }
  }

  /** Under a series name sits the reading of the last series of that name with a reading
      there: a later series of the same name overwrites an earlier one. */
  lemma {:induction false} PointLastWriter(series: seq<Entry>, n: nat, tl: string, index: nat, j: nat)
    requires j < n <= |series| && index < |series[j].data|
    requires forall l :: j < l < n ==> series[l].name != series[j].name || index >= |series[l].data|
    ensures series[j].name in PointOf(series, n, tl, index)
    ensures PointOf(series, n, tl, index)[series[j].name] == Value(series[j].data[index])
  {
    if n - 1 > j {
      PointLastWriter(series, n - 1, tl, index, j);
    }
  }

  /** The label stays under `name` unless a series called "name" has a reading there. */
  lemma {:induction false} PointLabel(series: seq<Entry>, n: nat, tl: string, index: nat)
    requires n <= |series|
    requires forall l :: 0 <= l < n ==> series[l].name != NameKey || index >= |series[l].data|
    ensures PointOf(series, n, tl, index)[NameKey] == LabelCell(tl)
  {
    if n > 0 {
      PointLabel(series, n - 1, tl, index);
    }
  }

  /** A mission called "name" replaces the time label of every point where it has a
      reading. */
  lemma NamedNameHidesLabel(e: Entry, tl: string)
    requires e.name == NameKey && |e.data| > 0
    ensures PointOf([e], 1, tl, 0)[NameKey] == Value(e.data[0])
  {
  }
}

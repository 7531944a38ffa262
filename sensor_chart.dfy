/** The admin sensor chart: how it renders time labels, picks the spacing of the x-axis
    ticks, picks the label indices that carry a tick, and colours the trend chip. */
module SensorChart {
  import opened Optional
  import opened JsText
  import opened TimeLabel
  import opened Trend

  // ------------------------------------------------------------------ time labels

  /** The h/m/s rendering of a number of seconds. */
  function FormatSeconds(s: int): string {
    if s >= 3600 then
      var hours := s / 3600;
      var minutes := (s % 3600) / 60;
      var secs := s % 60;
      if minutes == 0 && secs == 0 then Part(hours, 'h')
      else if secs == 0 then Part(hours, 'h') + " " + Part(minutes, 'm')
      else Part(hours, 'h') + " " + (Part(minutes, 'm') + " " + Part(secs, 's'))
    else if s >= 60 then
      var minutes := s / 60;
      var secs := s % 60;
      if secs == 0 then Part(minutes, 'm')
      else Part(minutes, 'm') + " " + Part(secs, 's')
    else
      Part(s, 's')
  }

  /** `formatTimeLabel`: a label that does not read as a number fails both comparisons
      with `NaN` and renders as "NaNs". */
  function FormatTimeLabel(tl: string): string {
    match Seconds(tl)
    case None => "NaNs"
    case Some(s) => FormatSeconds(s)
  }

  /** A label the missions pages produce renders as the h/m/s text of its number. */
  lemma FormatLabel(n: nat)
    ensures FormatTimeLabel(Label(n)) == FormatSeconds(n)
  {
    SecondsOfLabel(n);
  }

  /** Fewer than 60 seconds render as "Ns". */
  lemma FormatBelowMinute(n: nat)
    requires n < 60
    ensures FormatTimeLabel(Label(n)) == Part(n, 's')
  {
    FormatLabel(n);
  }

  /** From one minute to one hour: "Mm" on a whole minute, "Mm Ss" otherwise. */
  lemma FormatMinutes(n: nat, m: nat, sec: nat)
    requires n == m * 60 + sec && 1 <= m < 60 && sec < 60
    ensures FormatTimeLabel(Label(n))
         == if sec == 0 then Part(m, 'm') else Part(m, 'm') + " " + Part(sec, 's')
  {
    FormatLabel(n);
    SecondsMinutes(n, m, sec);
  }

  lemma SecondsMinutes(s: int, m: nat, sec: nat)
    requires 1 <= m < 60 && sec < 60 && s == m * 60 + sec
    ensures FormatSeconds(s) == if sec == 0 then Part(m, 'm') else Part(m, 'm') + " " + Part(sec, 's')
  {
    DivMod60(s, m, sec);
    assert s / 60 == m && s % 60 == sec;
    assert 60 <= s < 3600;
  }

  /** From one hour: "Nh" on a whole hour, "Nh Mm" on a whole minute and all three parts
      otherwise, so an hour and five seconds is "1h 0m 5s". */
  lemma FormatHours(n: nat, h: nat, m: nat, sec: nat)
    requires n == h * 3600 + m * 60 + sec && h >= 1 && m < 60 && sec < 60
    ensures FormatTimeLabel(Label(n))
         == if m == 0 && sec == 0 then Part(h, 'h')
            else if sec == 0 then Part(h, 'h') + " " + Part(m, 'm')
            else Part(h, 'h') + " " + (Part(m, 'm') + " " + Part(sec, 's'))
  {
    FormatLabel(n);
    SecondsHours(n, h, m, sec);
  }

  lemma SecondsHours(s: int, h: nat, m: nat, sec: nat)
    requires h >= 1 && m < 60 && sec < 60 && s == h * 3600 + m * 60 + sec
    ensures FormatSeconds(s)
         == if m == 0 && sec == 0 then Part(h, 'h')
            else if sec == 0 then Part(h, 'h') + " " + Part(m, 'm')
            else Part(h, 'h') + " " + (Part(m, 'm') + " " + Part(sec, 's'))
  {
    DivMod3600(s, h, m * 60 + sec);
    DivMod60(m * 60 + sec, m, sec);
    DivMod60(s, h * 60 + m, sec);
    assert s / 3600 == h && (s % 3600) / 60 == m && s % 60 == sec;
    assert s >= 3600;
  }

  /** Example: an hour and five seconds keeps the zero minutes. */
  lemma FormatHourAndFiveSeconds()
    ensures FormatTimeLabel("3605s") == "1h 0m 5s"
  {
    LabelOf3605();
    FormatHours(3605, 1, 0, 5);
    RenderOneHourFive();
  }

  lemma LabelOf3605()
    ensures Label(3605) == "3605s"
  {
    assert NatToString(3) == "3";
    assert NatToString(36) == NatToString(3) + "6";
    assert NatToString(360) == NatToString(36) + "0";
    assert NatToString(3605) == NatToString(360) + "5";
  }

  lemma RenderOneHourFive()
    ensures Part(1, 'h') + " " + (Part(0, 'm') + " " + Part(5, 's')) == "1h 0m 5s"
  {
    assert Part(1, 'h') == "1h" && Part(0, 'm') == "0m" && Part(5, 's') == "5s";
  }

  /** The rendering of a label always reads back as the label's number of seconds. */
  lemma FormatReadsBack(n: nat)
    ensures ReadDuration(FormatTimeLabel(Label(n))) == Some(n)
  {
    FormatLabel(n);
    SecondsReadBack(n);
  }

  lemma SecondsReadBack(n: nat)
    ensures ReadDuration(FormatSeconds(n)) == Some(n)
  {
    if n >= 3600 {
      var h, r := n / 3600, n % 3600;
      var m, sec := r / 60, r % 60;
      assert n == h * 3600 + m * 60 + sec;
      ReadsBackHours(n, h, m, sec);
    } else if n >= 60 {
      var m, sec := n / 60, n % 60;
      ReadsBackMinutes(n, m, sec);
    } else {
      ReadOne(n, 's');
    }
  }

  lemma ReadsBackMinutes(n: nat, m: nat, sec: nat)
    requires n == m * 60 + sec && 1 <= m < 60 && sec < 60
    ensures ReadDuration(FormatSeconds(n)) == Some(n)
  {
    SecondsMinutes(n, m, sec);
    if sec == 0 {
      assert FormatSeconds(n) == Part(m, 'm');
      ReadOne(m, 'm');
    } else {
      assert FormatSeconds(n) == Part(m, 'm') + " " + Part(sec, 's');
      ReadMS(m, sec);
    }
  }

  lemma ReadsBackHours(n: nat, h: nat, m: nat, sec: nat)
    requires n == h * 3600 + m * 60 + sec && h >= 1 && m < 60 && sec < 60
    ensures ReadDuration(FormatSeconds(n)) == Some(n)
  {
    SecondsHours(n, h, m, sec);
    if m == 0 && sec == 0 {
      ReadOne(h, 'h');
    } else if sec == 0 {
      ReadHM(h, m);
    } else {
      ReadHMS(h, m, sec);
    }
  }

  lemma ReadMS(m: nat, sec: nat)
    ensures ReadDuration(Part(m, 'm') + " " + Part(sec, 's')) == Some(m * 60 + sec)
  {
    ReadOne(sec, 's');
    ReadCons(m, 'm', Part(sec, 's'));
  }

  lemma ReadHM(h: nat, m: nat)
    ensures ReadDuration(Part(h, 'h') + " " + Part(m, 'm')) == Some(h * 3600 + m * 60)
  {
    ReadOne(m, 'm');
    ReadCons(h, 'h', Part(m, 'm'));
  }

  lemma ReadHMS(h: nat, m: nat, sec: nat)
    ensures ReadDuration(Part(h, 'h') + " " + (Part(m, 'm') + " " + Part(sec, 's')))
         == Some(h * 3600 + m * 60 + sec)
  {
    ReadMS(m, sec);
    ReadCons(h, 'h', Part(m, 'm') + " " + Part(sec, 's'));
  }

  // ------------------------------------------------------------------ tick spacing

  /** The seconds of every label, or `None` when some label reads as `NaN`. */
  function AllSeconds(labels: seq<string>): (r: Option<seq<int>>)
    ensures r.Some? ==> |r.value| == |labels|
                        && forall i :: 0 <= i < |labels| ==> Seconds(labels[i]) == Some(r.value[i])
    ensures r.None? ==> exists i :: 0 <= i < |labels| && Seconds(labels[i]).None?
  {
    if labels == [] then Some([])
    else
      match (Seconds(labels[0]), AllSeconds(labels[1..]))
      case (Some(s), Some(rest)) => Some([s] + rest)
      case (None, _) => None
      case (_, None) =>
        var i :| 0 <= i < |labels[1..]| && Seconds(labels[1..][i]).None?;
        assert Seconds(labels[i + 1]).None?;
        None
  }

  function Max(xs: seq<int>): (m: int)
    requires |xs| > 0
    ensures m in xs && forall x :: x in xs ==> x <= m
  {
    if |xs| == 1 then xs[0]
    else
      var r := Max(xs[1..]);
      assert xs == [xs[0]] + xs[1..];
      if xs[0] >= r then xs[0] else r
  }

  function Min(xs: seq<int>): (m: int)
    requires |xs| > 0
    ensures m in xs && forall x :: x in xs ==> m <= x
  {
    if |xs| == 1 then xs[0]
    else
      var r := Min(xs[1..]);
      assert xs == [xs[0]] + xs[1..];
      if xs[0] <= r then xs[0] else r
  }

  /** The label reads as a number of at most `bound` seconds. */
  predicate AtMost(tl: string, bound: int) {
    Seconds(tl).Some? && Seconds(tl).value <= bound
  }

  /** Every label reads as a number of at most `bound` seconds. */
  predicate AllAtMost(labels: seq<string>, bound: int) {
    forall i :: 0 <= i < |labels| ==> AtMost(labels[i], bound)
  }

  /** `getTickInterval`. */
  function TickInterval(labels: seq<string>): (step: int)
    ensures step == 10 || step == 30 || step == 60
    ensures labels == [] ==> step == 30
  {
    if labels == [] then 30
    else
      match AllSeconds(labels)
      case None => 60
      case Some(secs) =>
        var mx := Max(secs);
        if mx <= 60 then 10 else if mx <= 300 then 30 else 60
  }

  /** With labels, the interval is 10 when every label is within a minute, at most 30 when
      every label is within five minutes, and 60 otherwise, a `NaN` label included. */
  lemma TickIntervalChoice(labels: seq<string>)
    requires labels != []
    ensures TickInterval(labels) == 10 <==> AllAtMost(labels, 60)
    ensures TickInterval(labels) <= 30 <==> AllAtMost(labels, 300)
  {
    match AllSeconds(labels)
    case None =>
      NotAllAtMost(labels, 60);
      NotAllAtMost(labels, 300);
    case Some(secs) =>
      AllAtMostIff(labels, secs, 60);
      AllAtMostIff(labels, secs, 300);
      MaxBound(secs, 60);
      MaxBound(secs, 300);
  }

  lemma NotAllAtMost(labels: seq<string>, bound: int)
    requires AllSeconds(labels).None?
    ensures !AllAtMost(labels, bound)
  {
    var i :| 0 <= i < |labels| && Seconds(labels[i]).None?;
    assert !AtMost(labels[i], bound);
  }

  lemma AllAtMostIff(labels: seq<string>, secs: seq<int>, bound: int)
    requires AllSeconds(labels) == Some(secs)
    ensures AllAtMost(labels, bound) <==> forall i :: 0 <= i < |secs| ==> secs[i] <= bound
  {
    assert forall i :: 0 <= i < |labels| ==> Seconds(labels[i]) == Some(secs[i]);
  }

  lemma MaxBound(xs: seq<int>, bound: int)
    requires |xs| > 0
    ensures Max(xs) <= bound <==> forall i :: 0 <= i < |xs| ==> xs[i] <= bound
  {
    if Max(xs) <= bound {
      forall i | 0 <= i < |xs| ensures xs[i] <= bound {
        assert xs[i] in xs;
      }
    }
  }

  // ------------------------------------------------------------------ tick indices

  function Abs(x: int): nat {
    if x < 0 then -x else x
  }

  /** `Math.abs(seconds - i) <= step / 2`, kept in integers. */
  predicate Near(x: int, g: int, step: int) {
    2 * Abs(x - g) <= step
  }

  /** `findIndex` from `from`: the first index whose seconds are near `g`, or -1. */
  function FindClose(secs: seq<int>, g: int, step: int, from: nat): (j: int)
    requires from <= |secs|
    ensures j == -1 || from <= j < |secs|
    ensures j >= 0 ==> Near(secs[j], g, step) && forall k :: from <= k < j ==> !Near(secs[k], g, step)
    ensures j == -1 ==> forall k :: from <= k < |secs| ==> !Near(secs[k], g, step)
    decreases |secs| - from
  {
    if from == |secs| then -1
    else if Near(secs[from], g, step) then from
    else FindClose(secs, g, step, from + 1)
  }

  /** The grid values `mn + j * step`. */
  function GridValue(mn: int, step: int, j: nat): int {
    mn + j * step
  }

  /** The indices the tick loop pushes for the grid values from `i` up to `mx`. */
  function GridTicks(secs: seq<int>, i: int, mx: int, step: int): (t: seq<nat>)
    requires step > 0
    ensures forall k :: 0 <= k < |t| ==> t[k] < |secs|
    decreases mx - i
  {
    if i > mx then []
    else
      var c := FindClose(secs, i, step, 0);
      (if c == -1 then [] else [c as nat]) + GridTicks(secs, i + step, mx, step)
  }

  /** Every index the loop pushes is near one of the grid values it visits. */
  lemma {:induction false} GridTicksNear(secs: seq<int>, mn: int, j: nat, mx: int, step: int, k: nat)
    requires step > 0
    requires k < |GridTicks(secs, GridValue(mn, step, j), mx, step)|
    ensures exists jj: nat :: jj >= j && GridValue(mn, step, jj) <= mx
              && Near(secs[GridTicks(secs, GridValue(mn, step, j), mx, step)[k]], GridValue(mn, step, jj), step)
    decreases mx - GridValue(mn, step, j)
  {
    var i := GridValue(mn, step, j);
    var c := FindClose(secs, i, step, 0);
    var head: seq<nat> := if c == -1 then [] else [c as nat];
    assert GridValue(mn, step, j + 1) == i + step;
    var t := GridTicks(secs, i, mx, step);
    assert t == head + GridTicks(secs, i + step, mx, step);
    if k < |head| {
      assert t[k] == c;
    } else {
      assert t[k] == GridTicks(secs, GridValue(mn, step, j + 1), mx, step)[k - |head|];
      GridTicksNear(secs, mn, j + 1, mx, step, k - |head|);
    }
  }

  /** The ticks the loop finds: none when some label reads as `NaN`, since every
      comparison with `NaN` is false. */
  function LoopTicks(labels: seq<string>): (t: seq<nat>)
    ensures forall k :: 0 <= k < |t| ==> t[k] < |labels|
  {
    match AllSeconds(labels)
    case None => []
    case Some(secs) =>
      if secs == [] then [] else GridTicks(secs, Min(secs), Max(secs), TickInterval(labels))
  }

  /** The loop's ticks, with the last index appended when there are two labels or more and
      the loop did not find it: no ticks without labels, only valid indices, and the last
      index always present from two labels on. */
  function ExpectedTicks(labels: seq<string>): (t: seq<nat>)
    ensures labels == [] ==> t == []
    ensures forall k :: 0 <= k < |t| ==> t[k] < |labels|
    ensures |labels| >= 2 ==> |labels| - 1 in t
  {
    var t := LoopTicks(labels);
    if |labels| >= 2 && (|labels| - 1) !in t then t + [|labels| - 1] else t
  }

  /** The `for` loop over the grid values from `mn` to `mx`, pushing the first label index
      near each. */
  method GridLoop(secs: seq<int>, mn: int, mx: int, step: int) returns (ticks: seq<nat>)
    requires step > 0
    ensures ticks == GridTicks(secs, mn, mx, step)
  {
    ticks := [];
    var i := mn;
    while i <= mx
      invariant ticks + GridTicks(secs, i, mx, step) == GridTicks(secs, mn, mx, step)
      decreases mx - i
    {
      var c := FindClose(secs, i, step, 0);
      GridStep(secs, i, mx, step, ticks);
      if c != -1 {
        ticks := ticks + [c];
      }
      i := i + step;
    }
  }

  /** One turn of the loop: the ticks so far, extended by the index found for `i`, followed
      by the ticks of the later grid values, are the ticks so far followed by those from `i`. */
  lemma GridStep(secs: seq<int>, i: int, mx: int, step: int, ticks: seq<nat>)
    requires step > 0 && i <= mx
    ensures var c := FindClose(secs, i, step, 0);
            (if c == -1 then ticks else ticks + [c as nat]) + GridTicks(secs, i + step, mx, step)
            == ticks + GridTicks(secs, i, mx, step)
  {
    var c := FindClose(secs, i, step, 0);
    var found: seq<nat> := if c == -1 then [] else [c as nat];
    assert GridTicks(secs, i, mx, step) == found + GridTicks(secs, i + step, mx, step);
    assert (if c == -1 then ticks else ticks + [c as nat]) == ticks + found;
  }

  /** `getCustomTicks`. */
  method CustomTicks(labels: seq<string>) returns (ticks: seq<nat>)
    ensures ticks == ExpectedTicks(labels)
  {
    if |labels| == 0 {
      return [];
    }
    ticks := GridOfLabels(labels);
    var last := |labels| - 1;
    if last > 0 && last !in ticks {
      ticks := ticks + [last];
    }
  }

  /** The part of `getCustomTicks` before the last index is added: the grid loop over
      the labels' seconds, or nothing when some label fails to parse. */
  method GridOfLabels(labels: seq<string>) returns (ticks: seq<nat>)
    requires labels != []
    ensures ticks == LoopTicks(labels)
  {
    var step := TickInterval(labels);
    ticks := [];
    var all := AllSeconds(labels);
    if all.Some? {
      assert all.value != [];
      ticks := GridLoop(all.value, Min(all.value), Max(all.value), step);
    }
  }

  /** Each tick the loop finds points at a label within half a tick interval of one of the
      grid values `min + j * interval` up to the largest label. */
  lemma LoopTickNear(labels: seq<string>, k: nat)
    requires AllSeconds(labels).Some? && labels != []
    requires k < |LoopTicks(labels)|
    ensures var secs := AllSeconds(labels).value;
            var step := TickInterval(labels);
            exists j: nat :: GridValue(Min(secs), step, j) <= Max(secs)
              && Near(secs[LoopTicks(labels)[k]], GridValue(Min(secs), step, j), step)
  {
    var secs := AllSeconds(labels).value;
    assert GridValue(Min(secs), TickInterval(labels), 0) == Min(secs);
    GridTicksNear(secs, Min(secs), 0, Max(secs), TickInterval(labels), k);
  }

  // ------------------------------------------------------------------ trend chip

  /** The chip colours. */
  datatype ChipColor = Error | Success | Warning | Default

  const CO2Title: string := "N\U{00ED}veis de CO\U{2082}"
  const ParticlesTitle: string := "Part\U{00ED}culas Finas"

  /** The two sensors for which a rising reading is bad news. */
  predicate LowerIsBetter(title: string) {
    title == CO2Title || title == ParticlesTitle
  }

  /** The trend moves the reading in the good direction for this sensor. */
  predicate Improves(trend: Direction, title: string) {
    (trend == Up && !LowerIsBetter(title)) || (trend == Down && LowerIsBetter(title))
  }

  /** `getTrendColor`: success exactly for an improving trend, error for a rising pollutant,
      warning for any other falling reading, default for a neutral trend. */
  function TrendColor(trend: Direction, title: string): (c: ChipColor)
    ensures c == Success <==> Improves(trend, title)
    ensures c == Error <==> trend == Up && LowerIsBetter(title)
    ensures c == Warning <==> trend == Down && !LowerIsBetter(title)
    ensures c == Default <==> trend == Neutral
  {
    match trend
    case Up => if LowerIsBetter(title) then Error else Success
    case Down => if LowerIsBetter(title) then Success else Warning
    case Neutral => Default
  }
}

/** The public sensor chart: its time labels show the label's second plus one, a tick is
    drawn on every thirtieth label, and its trend chip follows the admin chart's colours. */
module FrontSensorChart {
  import opened Optional
  import opened JsText
  import opened TimeLabel
  import opened Trend
  import SensorChart

  /** The m/s rendering of the shown number of seconds. `s % 60 == 0` agrees with the
      JavaScript test for negative values too: both remainders vanish exactly on multiples
      of 60, and `Math.floor(s / 60)` is Dafny's `s / 60` for a positive divisor. */
  function FormatShown(s: int): string {
    if s % 60 == 0 then Part(s / 60, 'm')
    else if s < 60 then Part(s, 's')
    else Part(s / 60, 'm') + " " + Part(s % 60, 's')
  }

  /** `formatTimeLabel`: the label's number plus one; `NaN + 1` is `NaN`, which fails both
      tests and renders as "NaNm NaNs". */
  function FormatTimeLabel(tl: string): string {
    match Seconds(tl)
    case None => "NaNm NaNs"
    case Some(x) => FormatShown(x + 1)
  }

  /** The label of record `n` shows `n + 1`. */
  lemma ShowsNextSecond(n: nat)
    ensures FormatTimeLabel(Label(n)) == FormatShown(n + 1)
  {
    SecondsOfLabel(n);
  }

  /** So the first label, "0s", shows "1s". */
  lemma FirstLabelShowsOne()
    ensures FormatTimeLabel("0s") == "1s"
  {
    LabelZero();
    ShowsNextSecond(0);
    ShownBelowMinute(1);
    PartOneSecond();
  }

  lemma LabelZero()
    ensures Label(0) == "0s"
  {
    assert NatToString(0) == [DigitChar(0)];
  }

  lemma PartOneSecond()
    ensures Part(1, 's') == "1s"
  {
    assert NatToString(1) == [DigitChar(1)];
  }

  /** A multiple of 60 renders as whole minutes. */
  lemma ShownWholeMinutes(s: int, k: int)
    requires s == 60 * k
    ensures FormatShown(s) == Part(k, 'm')
  {
    DivMod60(s, k, 0);
  }

  /** Below a minute the seconds render alone. */
  lemma ShownBelowMinute(s: int)
    requires 0 < s < 60
    ensures FormatShown(s) == Part(s, 's')
  {
    DivMod60(s, 0, s);
  }

  /** From a minute on, minutes and a non-zero remainder of seconds. */
  lemma ShownMinutesSeconds(s: int, m: nat, sec: nat)
    requires s == m * 60 + sec && m >= 1 && 0 < sec < 60
    ensures FormatShown(s) == Part(m, 'm') + " " + Part(sec, 's')
  {
    DivMod60(s, m, sec);
  }

  /** Every shown label reads back as the label's number plus one. */
  lemma ShownReadsBack(n: nat)
    ensures ReadDuration(FormatTimeLabel(Label(n))) == Some(n + 1)
  {
    ShowsNextSecond(n);
    ShownValueReadsBack(n + 1);
  }

  lemma ShownValueReadsBack(s: nat)
    requires s >= 1
    ensures ReadDuration(FormatShown(s)) == Some(s)
  {
    var m, sec := s / 60, s % 60;
    if sec == 0 {
      ShownWholeMinutes(s, m);
      ReadOne(m, 'm');
    } else if s < 60 {
      ShownBelowMinute(s);
      ReadOne(s, 's');
    } else {
      ShownMinutesSeconds(s, m, sec);
      ReadMinutesSeconds(m, sec);
    }
  }

  lemma ReadMinutesSeconds(m: nat, sec: nat)
    ensures ReadDuration(Part(m, 'm') + " " + Part(sec, 's')) == Some(m * 60 + sec)
  {
    ReadOne(sec, 's');
    ReadCons(m, 'm', Part(sec, 's'));
  }

  // ------------------------------------------------------------------ ticks

  /** The x-axis draws a tick at index `i` when `(i + 1) % 30 === 0`. */
  predicate ShowTick(i: nat) {
    (i + 1) % 30 == 0
  }

  /** The indices among the first `n` that carry a tick. */
  function TickedIndices(n: nat): seq<nat> {
    if n == 0 then [] else TickedIndices(n - 1) + (if ShowTick(n - 1) then [n - 1] else [])
  }

  /** The ticks sit at 29, 59, 89, ...: one per complete block of 30 labels. */
  lemma {:induction false} TickedEveryThirty(n: nat)
    ensures TickedIndices(n) == seq(n / 30, k => 30 * k + 29)
  {
    if n > 0 {
      TickedEveryThirty(n - 1);
      var p := n - 1;
      DivMod30(p);
      DivMod30(n);
      if ShowTick(p) {
        assert n / 30 == p / 30 + 1;
        assert 30 * (p / 30) + 29 == p;
      } else {
        assert n / 30 == p / 30;
      }
    }
  }

  lemma DivMod30(n: nat)
    ensures n == 30 * (n / 30) + n % 30 && 0 <= n % 30 < 30
  {
  }

  // ------------------------------------------------------------------ trend chip

  /** `getTrendColor`, written out again in this component. */
  function TrendColor(trend: Direction, title: string): (c: SensorChart.ChipColor)
    ensures c == SensorChart.TrendColor(trend, title)
  {
    match trend
    case Up => if SensorChart.LowerIsBetter(title) then SensorChart.Error else SensorChart.Success
    case Down => if SensorChart.LowerIsBetter(title) then SensorChart.Success else SensorChart.Warning
    case Neutral => SensorChart.Default
  }
}

/** The mission duration as the missions page and the PDF report show it. The backend sends
    a duration such as "0:05:32.481"; both formatters drop the hours, take the minutes and
    the whole seconds, and render them as "M min S seg", "M min" or "S seg". */
module ClockDuration {
  import opened Optional
  import opened JsText

  /** `${n} ${word}`, with `NaN` for a number that failed to parse. */
  function Phrase(n: Option<int>, word: string): string {
    NumText(n) + " " + word
  }

  /** The rendering both formatters share: minutes `=== 0` shows only the seconds, seconds
      `=== 0` only the minutes, anything else (`NaN` included) both. */
  function Render(minutes: Option<int>, seconds: Option<int>): string {
    if minutes == Some(0) then Phrase(seconds, "seg")
    else if seconds == Some(0) then Phrase(minutes, "min")
    else Phrase(minutes, "min") + " " + Phrase(seconds, "seg")
  }

  /** The minutes and seconds of a text with a ':', read from the fields after the first
      ':' (the hours are never looked at). */
  function ClockParts(duration: string): (Option<int>, Option<int>)
    requires ':' in duration
  {
    SplitHasTwoParts(duration, ':');
    FromFields(Split(duration, ':')[1..])
  }

  /** `parseInt(parts[1])`, and `parseInt` of the part of `parts[2]` before any '.', or of
      "0" when that is absent or empty. */
  function FromFields(fields: seq<string>): (Option<int>, Option<int>)
    requires |fields| >= 1
  {
    var secText := if |fields| >= 2 then Split(fields[1], '.')[0] else "";
    (ParseInt(fields[0]), ParseInt(OrZero(secText)))
  }

  /** `t || '0'`. */
  function OrZero(t: string): string {
    if t == "" then "0" else t
  }

  /** The formatter given the text it shows for a missing duration: an empty duration gives
      that text, one with a ':' its minutes and seconds, anything else itself. */
  function FormatClock(duration: string, unavailable: string): string {
    if duration == "" then unavailable
    else if ':' in duration then
      var (m, s) := ClockParts(duration);
      Render(m, s)
    else duration
  }

  // ------------------------------------------------------------------ reading a rendering back

  /** The seconds per unit word. */
  function UnitWord(w: string): Option<nat> {
    if w == "min" then Some(60) else if w == "seg" then Some(1) else None
  }

  function ReadWords(ws: seq<string>): Option<int>
    decreases |ws|
  {
    if ws == [] then Some(0)
    else if |ws| >= 2 && |ws[0]| >= 1 && AllDigits(ws[0]) && UnitWord(ws[1]).Some? then
      match ReadWords(ws[2..])
      case None => None
      case Some(r) => Some(DigitsValue(ws[0]) * UnitWord(ws[1]).value + r)
    else None
  }

  /** The number of seconds a text such as "2 min 5 seg" denotes: the sum of its
      "number unit" pairs. The formatters are proved against this reading. */
  function ReadMinSeg(text: string): Option<int> {
    ReadWords(Split(text, ' '))
  }

  lemma NoSpaceInNat(n: nat)
    ensures ' ' !in NatToString(n)
  {
    var d := NatToString(n);
    forall k | 0 <= k < |d| ensures d[k] != ' ' {
      assert IsDigit(d[k]);
    }
  }

  lemma PhraseOfNat(n: nat, w: string)
    ensures Phrase(Some(n), w) == NatToString(n) + [' '] + w
  {
  }

  /** One phrase reads as its value. */
  lemma ReadPhrase(n: nat, w: string)
    requires UnitWord(w).Some?
    ensures ReadMinSeg(Phrase(Some(n), w)) == Some(n * UnitWord(w).value)
  {
    var d := NatToString(n);
    var t := Phrase(Some(n), w);
    NoSpaceInNat(n);
    PhraseOfNat(n, w);
    SplitAtFirst(d, ' ', w);
    assert ' ' !in w;
    SplitNoSeparator(w, ' ');
    var ws := [d] + [w];
    assert Split(t, ' ') == ws;
    assert ws[2..] == [];
    NatToStringValue(n);
    assert ReadWords(ws) == Some(n * UnitWord(w).value + 0);
  }

  /** A phrase, a space and more phrases read as the sum. */
  lemma ReadPhraseCons(n: nat, w: string, rest: string)
    requires UnitWord(w).Some?
    requires ReadMinSeg(rest).Some?
    ensures ReadMinSeg(Phrase(Some(n), w) + " " + rest) == Some(n * UnitWord(w).value + ReadMinSeg(rest).value)
  {
    var d := NatToString(n);
    SplitPhraseCons(n, w, rest);
    var ws := [d, w] + Split(rest, ' ');
    assert ws[2..] == Split(rest, ' ');
    NatToStringValue(n);
  }

  lemma SplitPhraseCons(n: nat, w: string, rest: string)
    requires UnitWord(w).Some?
    ensures Split(Phrase(Some(n), w) + " " + rest, ' ') == [NatToString(n), w] + Split(rest, ' ')
  {
    var d := NatToString(n);
    var tail := w + [' '] + rest;
    PhraseSpaced(n, w, rest);
    NoSpaceInNat(n);
    SplitAtFirst(d, ' ', tail);
    UnitWordNoSpace(w);
    SplitAtFirst(w, ' ', rest);
  }

  lemma PhraseSpaced(n: nat, w: string, rest: string)
    ensures Phrase(Some(n), w) + " " + rest == NatToString(n) + [' '] + (w + [' '] + rest)
  {
    PhraseOfNat(n, w);
  }

  lemma UnitWordNoSpace(w: string)
    requires UnitWord(w).Some?
    ensures ' ' !in w
  {
  }

  /** Every rendering of non-negative minutes and seconds denotes `60 * minutes + seconds`:
      the shown text loses nothing but the hours. */
  lemma RenderReadsBack(m: nat, s: nat)
    ensures ReadMinSeg(Render(Some(m), Some(s))) == Some(m * 60 + s)
  {
    var t := Render(Some(m), Some(s));
    if m == 0 {
      assert t == Phrase(Some(s), "seg");
      ReadPhrase(s, "seg");
    } else if s == 0 {
      assert t == Phrase(Some(m), "min");
      ReadPhrase(m, "min");
    } else {
      assert t == Phrase(Some(m), "min") + " " + Phrase(Some(s), "seg");
      ReadBoth(m, s);
    }
  }

  lemma ReadBoth(m: nat, s: nat)
    ensures ReadMinSeg(Phrase(Some(m), "min") + " " + Phrase(Some(s), "seg")) == Some(m * 60 + s)
  {
    ReadPhrase(s, "seg");
    ReadPhraseCons(m, "min", Phrase(Some(s), "seg"));
  }

  /** A rendering never holds a ':'. */
  lemma RenderNoColon(m: Option<int>, s: Option<int>)
    ensures ':' !in Render(m, s)
  {
    NumTextNoColon(m);
    NumTextNoColon(s);
  }

  lemma NumTextNoColon(x: Option<int>)
    ensures ':' !in NumText(x)
  {
    if x.Some? {
      var i := x.value;
      var d := NatToString(if i < 0 then -i else i);
      forall k | 0 <= k < |d| ensures d[k] != ':' {
        assert IsDigit(d[k]);
      }
    }
  }

  /** So a duration with a ':' is always reformatted, never returned as it is. */
  lemma ColonAlwaysRendered(duration: string, unavailable: string)
    requires ':' in duration
    ensures FormatClock(duration, unavailable) != duration
  {
    var (m, s) := ClockParts(duration);
    RenderNoColon(m, s);
  }

  /** The hour field plays no part. */
  lemma HoursIgnored(h1: string, h2: string, rest: string, unavailable: string)
    requires ':' !in h1 && ':' !in h2
    ensures FormatClock(h1 + ":" + rest, unavailable) == FormatClock(h2 + ":" + rest, unavailable)
  {
    var d1, d2 := h1 + [':'] + rest, h2 + [':'] + rest;
    assert h1 + ":" + rest == d1 && h2 + ":" + rest == d2;
    assert d1[|h1|] == ':' && d2[|h2|] == ':';
    SplitAtFirst(h1, ':', rest);
    SplitAtFirst(h2, ':', rest);
    assert Split(d1, ':')[1..] == Split(rest, ':') == Split(d2, ':')[1..];
    assert ClockParts(d1) == ClockParts(d2);
  }

  /** A clock text "H:MM:SS" with an optional ".fff" reads its minutes and seconds from the
      digits of the second and third fields. */
  lemma ClockFields(h: string, mt: string, st: string, frac: string)
    requires ':' !in h
    requires |mt| >= 1 && AllDigits(mt) && |st| >= 1 && AllDigits(st)
    requires frac == [] || (frac[0] == '.' && ':' !in frac)
    ensures ClockParts(h + ":" + mt + ":" + st + frac) == (Some(DigitsValue(mt)), Some(DigitsValue(st)))
  {
    var tail := st + frac;
    var d := h + [':'] + (mt + [':'] + tail);
    assert h + ":" + mt + ":" + st + frac == d;
    NoColonInDigits(st);
    assert ':' !in tail;
    ClockSplit(h, mt, tail);
    assert Split(d, ':')[1..] == [mt, tail];
    SecondsField(st, frac);
    ParseIntDigits(mt, []);
    ParseIntDigits(st, []);
    assert mt + [] == mt && st + [] == st;
    assert FromFields([mt, tail]) == (ParseInt(mt), ParseInt(OrZero(st)));
  }

  /** "H:MM:rest" splits into the hours, the minutes and the rest. */
  lemma ClockSplit(h: string, mt: string, tail: string)
    requires ':' !in h && AllDigits(mt) && ':' !in tail
    ensures Split(h + [':'] + (mt + [':'] + tail), ':') == [h, mt, tail]
  {
    NoColonInDigits(mt);
    SplitAtFirst(h, ':', mt + [':'] + tail);
    SplitAtFirst(mt, ':', tail);
    SplitNoSeparator(tail, ':');
  }

  lemma NoColonInDigits(t: string)
    requires AllDigits(t)
    ensures ':' !in t && '.' !in t
  {
    forall k | 0 <= k < |t| ensures t[k] != ':' && t[k] != '.' {
      assert IsDigit(t[k]);
    }
  }

  lemma SecondsField(st: string, frac: string)
    requires |st| >= 1 && AllDigits(st)
    requires frac == [] || frac[0] == '.'
    ensures Split(st + frac, '.')[0] == st
  {
    NoColonInDigits(st);
    if frac == [] {
      assert st + frac == st;
      SplitNoSeparator(st, '.');
    } else {
      assert st + frac == st + ['.'] + frac[1..];
      SplitAtFirst(st, '.', frac[1..]);
    }
  }

  /** A non-empty text with a ':' is shown as its minutes and seconds. */
  lemma FormatColon(d: string, unavailable: string)
    requires d != [] && ':' in d
    ensures FormatClock(d, unavailable) == Render(ClockParts(d).0, ClockParts(d).1)
  {
  }

  /** A text with a ':' whose minutes and seconds parse as `m` and `s` is shown as the
      `60 * m + s` seconds they make up; `ClockFields` gives `m` and `s` for a clock text. */
  lemma ClockReadsBack(d: string, m: nat, s: nat, unavailable: string)
    requires ':' in d && ClockParts(d) == (Some(m), Some(s))
    ensures ReadMinSeg(FormatClock(d, unavailable)) == Some(m * 60 + s)
  {
    FormatColon(d, unavailable);
    ReadRender(FormatClock(d, unavailable), m, s);
  }

  lemma ReadRender(t: string, m: nat, s: nat)
    requires t == Render(Some(m), Some(s))
    ensures ReadMinSeg(t) == Some(m * 60 + s)
  {
    RenderReadsBack(m, s);
  }

  lemma ParseZero()
    ensures ParseInt(OrZero("")) == Some(0)
  {
    var z := [DigitChar(0)];
    assert OrZero("") == z + [];
    ParseIntDigits(z, []);
  }

  lemma MinutesField(h: string, mt: string)
    requires ':' !in h
    requires |mt| >= 1 && AllDigits(mt)
    ensures ':' in h + ":" + mt
    ensures ClockParts(h + ":" + mt) == (Some(DigitsValue(mt)), Some(0))
  {
    var d := h + [':'] + mt;
    assert h + ":" + mt == d;
    assert d[|h|] == ':';
    MinutesSplit(h, mt);
    assert Split(d, ':')[1..] == [mt];
    ParseIntDigits(mt, []);
    assert mt + [] == mt;
    ParseZero();
    assert FromFields([mt]) == (ParseInt(mt), ParseInt(OrZero("")));
  }

  lemma MinutesSplit(h: string, mt: string)
    requires ':' !in h && AllDigits(mt)
    ensures Split(h + [':'] + mt, ':') == [h, mt]
  {
    NoColonInDigits(mt);
    SplitAtFirst(h, ':', mt);
    SplitNoSeparator(mt, ':');
  }

  /** Without a seconds field the seconds are 0, so "H:MM" shows whole minutes. */
  lemma MinutesOnly(h: string, mt: string, unavailable: string)
    requires ':' !in h
    requires |mt| >= 1 && AllDigits(mt) && DigitsValue(mt) != 0
    ensures FormatClock(h + ":" + mt, unavailable) == Phrase(Some(DigitsValue(mt)), "min")
  {
    MinutesField(h, mt);
    FormatColon(h + ":" + mt, unavailable);
  }

  /** "0:00:00" shows "0 seg". */
  lemma ZeroDuration(d: string, unavailable: string)
    requires d == "0:00:00"
    ensures FormatClock(d, unavailable) == "0 seg"
  {
    var zero := [DigitChar(0)];
    var zz := zero + zero;
    assert d == zero + ":" + zz + ":" + zz + [];
    ClockFields(zero, zz, zz, []);
    assert DigitsValue(zz) == 0 by {
      assert zz[..1] == zero;
    }
    FormatColon(d, unavailable);
    ZeroPhrase();
  }

  lemma ZeroPhrase()
    ensures Render(Some(0), Some(0)) == "0 seg"
  {
    assert NatToString(0) == [DigitChar(0)];
  }
}

/** Time labels of the mission charts. The missions pages label the n-th timestamped
    record `${n}s`; the charts read a label back with `parseInt(label.replace('s', ''))`
    and render it as hours, minutes and seconds. */
module TimeLabel {
  import opened Optional
  import opened JsText

  /** `${n}` followed by a unit letter, as in "12s" or "3m". */
  function Part(n: int, u: char): string {
    IntToString(n) + [u]
  }

  /** `${n}s`. */
  function Label(n: nat): string {
    Part(n, 's')
  }

  /** `parseInt(label.replace('s', ''))`; `None` is `NaN`. */
  function Seconds(tl: string): Option<int> {
    ParseInt(ReplaceFirst(tl, 's', ""))
  }

  /** Every label the missions pages produce reads back as its own number. */
  lemma SecondsOfLabel(n: nat)
    ensures Seconds(Label(n)) == Some(n)
  {
    var d := NatToString(n);
    forall k | 0 <= k < |d| ensures d[k] != 's' {
      assert IsDigit(d[k]);
    }
    ReplaceFirstAfter(d, 's', [], []);
    assert Label(n) == d + ['s'] + [];
    assert d + [] + [] == d + [];
    ParseIntOfNat(n, []);
  }

  // ------------------------------------------------------------------ reading a rendering back

  /** The seconds a unit letter stands for in "1h 2m 3s". */
  function UnitSeconds(u: char): Option<nat> {
    if u == 'h' then Some(3600) else if u == 'm' then Some(60) else if u == 's' then Some(1) else None
  }

  /** One token "Nh", "Nm" or "Ns". */
  function ReadToken(t: string): Option<int> {
    if |t| < 2 || !AllDigits(t[..|t| - 1]) then None
    else
      match UnitSeconds(t[|t| - 1])
      case None => None
      case Some(u) => Some(DigitsValue(t[..|t| - 1]) * u)
  }

  function ReadTokens(ts: seq<string>): Option<int> {
    if ts == [] then Some(0)
    else
      match (ReadToken(ts[0]), ReadTokens(ts[1..]))
      case (Some(a), Some(b)) => Some(a + b)
      case _ => None
  }

  /** The number of seconds a text such as "1h 0m 5s", "3m" or "42s" denotes: the sum of its
      space-separated tokens. This is the reading the chart formatters are proved against. */
  function ReadDuration(text: string): Option<int> {
    ReadTokens(Split(text, ' '))
  }

  lemma ReadTokenOf(n: nat, u: char)
    requires UnitSeconds(u).Some?
    ensures ReadToken(Part(n, u)) == Some(n * UnitSeconds(u).value)
  {
    var t := Part(n, u);
    assert t[..|t| - 1] == NatToString(n);
    NatToStringValue(n);
  }

  lemma NoSpaceInPart(n: nat, u: char)
    requires u != ' '
    ensures ' ' !in Part(n, u)
  {
    var d := Part(n, u);
    forall k | 0 <= k < |d| ensures d[k] != ' ' {
      if k < |d| - 1 {
        assert IsDigit(NatToString(n)[k]);
      }
    }
  }

  /** A single token reads as its own value. */
  lemma ReadOne(n: nat, u: char)
    requires UnitSeconds(u).Some?
    ensures ReadDuration(Part(n, u)) == Some(n * UnitSeconds(u).value)
  {
    var tok := Part(n, u);
    NoSpaceInPart(n, u);
    SplitNoSeparator(tok, ' ');
    ReadTokenOf(n, u);
    assert [tok][1..] == [];
    assert ReadTokens([tok]) == Some(n * UnitSeconds(u).value + 0);
  }

  /** A token, a space and more tokens read as the sum. */
  lemma ReadCons(n: nat, u: char, rest: string)
    requires UnitSeconds(u).Some?
    requires ReadDuration(rest).Some?
    ensures ReadDuration(Part(n, u) + " " + rest)
         == Some(n * UnitSeconds(u).value + ReadDuration(rest).value)
  {
    var tok := Part(n, u);
    NoSpaceInPart(n, u);
    assert tok + " " + rest == tok + [' '] + rest;
    SplitAtFirst(tok, ' ', rest);
    ReadTokenOf(n, u);
    var parts := [tok] + Split(rest, ' ');
    assert parts[1..] == Split(rest, ' ');
  }

  /** Dividing by 60 and by 3600 is determined by any quotient and remainder in range. */
  lemma DivMod60(a: int, q: int, r: int)
    requires 0 <= r < 60 && a == q * 60 + r
    ensures a / 60 == q && a % 60 == r
  {
  }

  lemma DivMod3600(a: int, q: int, r: int)
    requires 0 <= r < 3600 && a == q * 3600 + r
    ensures a / 3600 == q && a % 3600 == r
  {
  }
}

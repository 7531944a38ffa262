/** The trend of a sensor series, shared by the missions page and the demo data: the
    relative change from the first to the last reading, in percent, compared with +/-3. */
module Trend {
  import opened JsText

  /** 'up' | 'down' | 'neutral'. */
  datatype Direction = Up | Down | Neutral

  /** A JavaScript number as far as the trend needs it: a finite value, or one of the
      results of a division by zero. */
  datatype Ext = Fin(x: real) | PosInf | NegInf | NaN

  /** `x > t` for a number that may be infinite or `NaN`. */
  predicate Above(p: Ext, t: real) {
    match p
    case Fin(x) => x > t
    case PosInf => true
    case NegInf => false
    case NaN => false
  }

  /** `x < t` for a number that may be infinite or `NaN`. */
  predicate Below(p: Ext, t: real) {
    match p
    case Fin(x) => x < t
    case PosInf => false
    case NegInf => true
    case NaN => false
  }

  /** `x / y` in JavaScript, where dividing by zero gives an infinity or `NaN`. */
  function Divide(x: real, y: real): (q: Ext)
    ensures y != 0.0 ==> q.Fin? && q.x * y == x
    ensures y == 0.0 ==> (q == PosInf <==> x > 0.0) && (q == NegInf <==> x < 0.0) && (q == NaN <==> x == 0.0)
  {
    if y != 0.0 then Fin(x / y)
    else if x > 0.0 then PosInf
    else if x < 0.0 then NegInf
    else NaN
  }

  /** `((last - first) / first) * 100`. */
  function PercentChange(first: real, last: real): Ext {
    match Divide(last - first, first)
    case Fin(q) => Fin(q * 100.0)
    case other => other
  }

  /** `> 3` gives up, `< -3` gives down, anything else (`NaN` included) is neutral. */
  function Classify(p: Ext): (d: Direction)
    ensures d == Up <==> Above(p, 3.0)
    ensures d == Down <==> Below(p, -3.0)
  {
    if Above(p, 3.0) then Up else if Below(p, -3.0) then Down else Neutral
  }

  /** `p.toFixed(1)`, with the texts JavaScript uses for the infinities and `NaN`. */
  function FixedText(p: Ext, f: nat): string {
    match p
    case Fin(x) => ToFixed(x, f)
    case PosInf => "Infinity"
    case NegInf => "-Infinity"
    case NaN => "NaN"
  }

  /** `${p > 0 ? '+' : ''}${p.toFixed(1)}%`. */
  function SignedLabel(p: Ext): string {
    (if Above(p, 0.0) then "+" else "") + FixedText(p, 1) + "%"
  }

  /** From a positive first reading the series goes up exactly when the last reading is
      more than 3% above the first, and down exactly when it is more than 3% below. */
  lemma ChangeFromPositive(first: real, last: real)
    requires first > 0.0
    ensures Classify(PercentChange(first, last)) == Up <==> last * 100.0 > first * 103.0
    ensures Classify(PercentChange(first, last)) == Down <==> last * 100.0 < first * 97.0
  {
    var p := ChangeValue(first, last);
    var up := p - 3.0;
    var down := p + 3.0;
    assert last * 100.0 - first * 103.0 == up * first;
    assert last * 100.0 - first * 97.0 == down * first;
    ProductSign(up, first);
    ProductSign(down, first);
  }

  /** From a negative first reading the comparison flips, because the change is divided by
      the signed first reading: a fall from -10 to -11 is a change of +10%, hence up. */
  lemma ChangeFromNegative(first: real, last: real)
    requires first < 0.0
    ensures Classify(PercentChange(first, last)) == Up <==> last * 100.0 < first * 103.0
    ensures Classify(PercentChange(first, last)) == Down <==> last * 100.0 > first * 97.0
  {
    var p := ChangeValue(first, last);
    var up := p - 3.0;
    var down := p + 3.0;
    assert first * 103.0 - last * 100.0 == up * -first;
    assert first * 97.0 - last * 100.0 == down * -first;
    ProductSign(up, -first);
    ProductSign(down, -first);
  }

  /** The finite percent change from a non-zero first reading, with the identity that ties
      it back to the readings. */
  lemma ChangeValue(first: real, last: real) returns (p: real)
    requires first != 0.0
    ensures PercentChange(first, last) == Fin(p)
    ensures p * first == (last - first) * 100.0
  {
    var q := (last - first) / first;
    assert q * first == last - first;
    p := q * 100.0;
    assert p * first == (q * first) * 100.0;
  }

  /** From a positive first reading the label carries a '+' exactly when the last reading
      is the larger. */
  lemma PlusFromPositive(first: real, last: real)
    requires first > 0.0
    ensures SignedLabel(PercentChange(first, last))[0] == '+' <==> last > first
  {
    var p := ChangeValue(first, last);
    SignedLabelPlus(Fin(p));
    ProductSign(p, first);
    assert p * first > 0.0 <==> (last - first) * 100.0 > 0.0;
  }

  /** Multiplying by a positive number keeps the sign. */
  lemma ProductSign(a: real, c: real)
    requires c > 0.0
    ensures a * c > 0.0 <==> a > 0.0
    ensures a * c < 0.0 <==> a < 0.0
  {
  }

  /** From a first reading of zero any rise is up, any fall is down and no change is `NaN`,
      hence neutral. */
  lemma ChangeFromZero(last: real)
    ensures Classify(PercentChange(0.0, last)) == Up <==> last > 0.0
    ensures Classify(PercentChange(0.0, last)) == Down <==> last < 0.0
    ensures last == 0.0 ==> SignedLabel(PercentChange(0.0, last)) == "NaN%"
  {
  }

  /** An unchanged series has no trend. */
  lemma NoChange(x: real)
    requires x != 0.0
    ensures PercentChange(x, x) == Fin(0.0)
    ensures Classify(PercentChange(x, x)) == Neutral
  {
  }

  /** The label carries a '+' exactly when the change is positive. */
  lemma SignedLabelPlus(p: Ext)
    ensures |SignedLabel(p)| >= 2 && SignedLabel(p)[|SignedLabel(p)| - 1] == '%'
    ensures SignedLabel(p)[0] == '+' <==> Above(p, 0.0)
  {
    var t := FixedText(p, 1);
    if !Above(p, 0.0) {
      assert SignedLabel(p) == t + "%";
    }
  }
}

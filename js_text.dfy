/** The JavaScript string and number primitives the front end is built from, over Dafny
    strings: `parseInt`, `split`, `startsWith`, `trim`, `toLowerCase`, `replace` with a
    string pattern or with `/\s+/g`, the decimal rendering of integers in template
    literals and `Number.prototype.toFixed`. */
module JsText {
  import opened Optional

  // ---------------------------------------------------------------- characters

  /** The characters JavaScript's `\s` class, `trim` and `parseInt` count as white space
      (WhiteSpace and LineTerminator of ECMA-262). */
  predicate IsSpace(c: char) {
    c == ' ' || c == '\t' || c == '\n' || c == '\U{000B}' || c == '\U{000C}' || c == '\r'
    || c == '\U{00A0}' || c == '\U{1680}' || ('\U{2000}' <= c <= '\U{200A}')
    || c == '\U{2028}' || c == '\U{2029}' || c == '\U{202F}' || c == '\U{205F}'
    || c == '\U{3000}' || c == '\U{FEFF}'
  }

  predicate NoSpace(s: string) {
    forall i :: 0 <= i < |s| ==> !IsSpace(s[i])
  }

  predicate IsDigit(c: char) {
    '0' <= c <= '9'
  }

  predicate AllDigits(s: string) {
    forall i :: 0 <= i < |s| ==> IsDigit(s[i])
  }

  function DigitValue(c: char): (d: nat)
    requires IsDigit(c)
    ensures d < 10
  {
    (c as int) - ('0' as int)
  }

  function DigitChar(d: nat): (c: char)
    requires d < 10
    ensures IsDigit(c) && DigitValue(c) == d
  {
    ('0' as int + d) as char
  }

  // ---------------------------------------------------------------- length

  /** The UTF-16 code units a character takes in a JavaScript string: two for a character
      outside the Basic Multilingual Plane (a surrogate pair), one otherwise. */
  function CodeUnits(c: char): (n: nat)
    ensures n == 1 || n == 2
    ensures n == 1 <==> c as int < 0x1_0000
  {
    if c as int < 0x1_0000 then 1 else 2
  }

  /** `s.length`, which counts UTF-16 code units rather than characters. */
  function Length(s: string): (n: nat)
    ensures |s| <= n <= 2 * |s|
    ensures n == 0 <==> s == []
  {
    if s == [] then 0 else CodeUnits(s[0]) + Length(s[1..])
  }

  /** For a text of Basic Multilingual Plane characters, `length` is the number of
      characters. */
  lemma {:induction false} LengthOfPlaneZero(s: string)
    requires forall i :: 0 <= i < |s| ==> s[i] as int < 0x1_0000
    ensures Length(s) == |s|
  {
    if s != [] {
      assert s[0] as int < 0x1_0000;
      LengthOfPlaneZero(s[1..]);
    }
  }

  /** A character outside that plane counts twice. */
  lemma {:induction false} LengthOfAstral(s: string)
    requires forall i :: 0 <= i < |s| ==> s[i] as int >= 0x1_0000
    ensures Length(s) == 2 * |s|
  {
    if s != [] {
      assert s[0] as int >= 0x1_0000;
      LengthOfAstral(s[1..]);
    }
  }

  // ---------------------------------------------------------------- integers as text

  /** The value of a string of decimal digits (leading zeros allowed). */
  function DigitsValue(s: string): nat
    requires AllDigits(s)
  {
    if s == [] then 0 else DigitsValue(s[..|s| - 1]) * 10 + DigitValue(s[|s| - 1])
  }

  /** `${n}` for a natural number: its shortest decimal digits. */
  function NatToString(n: nat): (s: string)
    ensures |s| >= 1 && AllDigits(s)
    ensures |s| > 1 ==> s[0] != '0'
  {
    if n < 10 then [DigitChar(n)] else NatToString(n / 10) + [DigitChar(n % 10)]
  }

  /** `${i}` for an integer. */
  function IntToString(i: int): (s: string)
    ensures |s| >= 1
  {
    if i < 0 then "-" + NatToString(-i) else NatToString(i)
  }

  /** `${x}` where `x` is an integer or `NaN` (represented by `None`). */
  function NumText(x: Option<int>): string {
    match x
    case None => "NaN"
    case Some(i) => IntToString(i)
  }

  lemma {:induction false} NatToStringValue(n: nat)
    ensures DigitsValue(NatToString(n)) == n
  {
    if n >= 10 {
      var p := NatToString(n / 10);
      var s := p + [DigitChar(n % 10)];
      assert s[..|s| - 1] == p;
      NatToStringValue(n / 10);
    }
  }

  /** Digits determine the number: decimal rendering is injective. */
  lemma NatToStringInjective(m: nat, n: nat)
    requires NatToString(m) == NatToString(n)
    ensures m == n
  {
    NatToStringValue(m);
    NatToStringValue(n);
  }

  lemma {:induction false} LeadingZeroValue(s: string)
    requires AllDigits(s)
    ensures AllDigits("0" + s) && DigitsValue("0" + s) == DigitsValue(s)
  {
    var z := "0" + s;
    if s != [] {
      assert z[..|z| - 1] == "0" + s[..|s| - 1];
      LeadingZeroValue(s[..|s| - 1]);
    }
  }

  // ---------------------------------------------------------------- parseInt

  /** The longest prefix of `s` made of decimal digits. */
  function DigitPrefix(s: string): (p: string)
    ensures p <= s && AllDigits(p)
    ensures |p| < |s| ==> !IsDigit(s[|p|])
  {
    if s == [] || !IsDigit(s[0]) then [] else [s[0]] + DigitPrefix(s[1..])
  }

  lemma {:induction false} DigitPrefixOf(d: string, rest: string)
    requires AllDigits(d)
    requires rest == [] || !IsDigit(rest[0])
    ensures DigitPrefix(d + rest) == d
  {
    if d != [] {
      assert (d + rest)[1..] == d[1..] + rest;
      DigitPrefixOf(d[1..], rest);
    }
  }

  /** `s` without its leading white space. */
  function TrimStart(s: string): (t: string)
    ensures |t| <= |s| && t == s[|s| - |t|..]
    ensures t == [] || !IsSpace(t[0])
    ensures forall i :: 0 <= i < |s| - |t| ==> IsSpace(s[i])
  {
    if s != [] && IsSpace(s[0]) then TrimStart(s[1..]) else s
  }

  /** `s` without its trailing white space. */
  function TrimEnd(s: string): (t: string)
    ensures t <= s
    ensures t == [] || !IsSpace(t[|t| - 1])
    ensures forall i :: |t| <= i < |s| ==> IsSpace(s[i])
  {
    if s != [] && IsSpace(s[|s| - 1]) then TrimEnd(s[..|s| - 1]) else s
  }

  /** `s.trim()`. */
  function Trim(s: string): string {
    TrimEnd(TrimStart(s))
  }

  /** A string trims to nothing exactly when every character of it is white space. */
  lemma TrimEmpty(s: string)
    ensures Trim(s) == [] <==> forall i :: 0 <= i < |s| ==> IsSpace(s[i])
  {
    var t := TrimStart(s);
    if t != [] {
      assert t[0] == s[|s| - |t|];
    }
  }

  /** `parseInt(s, 10)`: leading white space, an optional sign, then the longest run of
      digits; `None` stands for `NaN` (no digit after the sign). */
  function ParseInt(s: string): Option<int> {
    ParseSigned(TrimStart(s))
  }

  function ParseSigned(t: string): Option<int> {
    if |t| > 0 && t[0] == '-' then
      match ParseDigits(t[1..])
      case None => None
      case Some(v) => Some(-v)
    else if |t| > 0 && t[0] == '+' then ParseDigits(t[1..])
    else ParseDigits(t)
  }

  function ParseDigits(b: string): Option<int> {
    var d := DigitPrefix(b);
    if d == [] then None else Some(DigitsValue(d))
  }

  /** Digits followed by anything that is not a digit parse back to their value. */
  lemma ParseIntDigits(d: string, rest: string)
    requires |d| >= 1 && AllDigits(d)
    requires rest == [] || !IsDigit(rest[0])
    ensures ParseInt(d + rest) == Some(DigitsValue(d))
  {
    var s := d + rest;
    assert s[0] == d[0];
    DigitNotSpace(s[0]);
    assert TrimStart(s) == s;
    assert ParseSigned(s) == ParseDigits(s);
    DigitPrefixOf(d, rest);
  }

  lemma DigitNotSpace(c: char)
    requires IsDigit(c)
    ensures !IsSpace(c) && c != '-' && c != '+'
  {
  }

  /** `parseInt(`${n}` + rest)` is `n` whenever `rest` does not continue the digits. */
  lemma ParseIntOfNat(n: nat, rest: string)
    requires rest == [] || !IsDigit(rest[0])
    ensures ParseInt(NatToString(n) + rest) == Some(n)
  {
    ParseIntDigits(NatToString(n), rest);
    NatToStringValue(n);
  }

  /** `parseInt` undoes the decimal rendering of every integer. */
  lemma ParseIntOfInt(i: int)
    ensures ParseInt(IntToString(i)) == Some(i)
  {
    if i < 0 {
      var d := NatToString(-i);
      var s := "-" + d;
      assert TrimStart(s) == s;
      assert s[1..] == d + [];
      DigitPrefixOf(d, []);
      NatToStringValue(-i);
      assert ParseDigits(s[1..]) == Some(-i);
    } else {
      ParseIntOfNat(i, []);
      assert NatToString(i) + [] == NatToString(i);
    }
  }

  // ---------------------------------------------------------------- split, startsWith, includes

  /** `s.split(sep)` for a one-character separator. */
  function Split(s: string, sep: char): (parts: seq<string>)
    ensures |parts| >= 1
  {
    if s == [] then [""]
    else
      var rest := Split(s[1..], sep);
      if s[0] == sep then [""] + rest else [[s[0]] + rest[0]] + rest[1..]
  }

  lemma {:induction false} SplitNoSeparator(s: string, sep: char)
    requires sep !in s
    ensures Split(s, sep) == [s]
  {
    if s != [] {
      assert sep !in s[1..];
      SplitNoSeparator(s[1..], sep);
      assert [s[0]] + s[1..] == s;
    }
  }

  /** Splitting at the first separator peels off the text before it. */
  lemma {:induction false} SplitAtFirst(a: string, sep: char, b: string)
    requires sep !in a
    ensures Split(a + [sep] + b, sep) == [a] + Split(b, sep)
  {
    var s := a + [sep] + b;
    if a == [] {
      assert s[1..] == b;
    } else {
      assert s[1..] == a[1..] + [sep] + b;
      assert sep !in a[1..];
      SplitAtFirst(a[1..], sep, b);
      assert [a[0]] + a[1..] == a;
    }
  }

  /** A string holding the separator splits into at least two parts. */
  lemma {:induction false} SplitHasTwoParts(s: string, sep: char)
    requires sep in s
    ensures |Split(s, sep)| >= 2
  {
    if s[0] != sep {
      SplitHasTwoParts(s[1..], sep);
    }
  }

  /** `s.startsWith(p)`. */
  predicate StartsWith(s: string, p: string) {
    p <= s
  }

  // ---------------------------------------------------------------- replace

  /** `s.replace(c, r)` with a one-character string pattern: only the first occurrence. */
  function ReplaceFirst(s: string, c: char, r: string): string {
    if s == [] then []
    else if s[0] == c then r + s[1..]
    else [s[0]] + ReplaceFirst(s[1..], c, r)
  }

  lemma {:induction false} ReplaceFirstAbsent(s: string, c: char, r: string)
    requires c !in s
    ensures ReplaceFirst(s, c, r) == s
  {
    if s != [] {
      assert c !in s[1..];
      ReplaceFirstAbsent(s[1..], c, r);
    }
  }

  lemma {:induction false} ReplaceFirstAfter(a: string, c: char, rest: string, r: string)
    requires c !in a
    ensures ReplaceFirst(a + [c] + rest, c, r) == a + r + rest
  {
    var s := a + [c] + rest;
    if a == [] {
      assert s[1..] == rest;
    } else {
      assert s[1..] == a[1..] + [c] + rest;
      assert c !in a[1..];
      ReplaceFirstAfter(a[1..], c, rest, r);
    }
  }

  /** `s.replace(/\s+/g, r)`: every maximal run of white space becomes `r`. */
  function ReplaceSpaceRuns(s: string, r: string): string
    decreases |s|
  {
    if s == [] then []
    else if IsSpace(s[0]) then r + ReplaceSpaceRuns(TrimStart(s), r)
    else [s[0]] + ReplaceSpaceRuns(s[1..], r)
  }

  /** With a replacement free of white space, no white space is left. */
  lemma {:induction false} ReplaceSpaceRunsNoSpace(s: string, r: string)
    requires NoSpace(r)
    ensures NoSpace(ReplaceSpaceRuns(s, r))
    decreases |s|
  {
    if s != [] {
      if IsSpace(s[0]) {
        ReplaceSpaceRunsNoSpace(TrimStart(s), r);
      } else {
        ReplaceSpaceRunsNoSpace(s[1..], r);
      }
    }
  }

  /** Text without white space is left as it is. */
  lemma {:induction false} ReplaceSpaceRunsIdentity(s: string, r: string)
    requires NoSpace(s)
    ensures ReplaceSpaceRuns(s, r) == s
  {
    if s != [] {
      ReplaceSpaceRunsIdentity(s[1..], r);
    }
  }

  // ---------------------------------------------------------------- toLowerCase

  /** Lower-casing of one character (ASCII letters only). */
  function Lower(c: char): (l: char)
    ensures IsSpace(l) == IsSpace(c)
  {
    if 'A' <= c <= 'Z' then (c as int + 32) as char else c
  }

  /** `s.toLowerCase()`, for the ASCII letters. */
  function ToLower(s: string): (l: string)
    ensures |l| == |s| && forall i :: 0 <= i < |s| ==> l[i] == Lower(s[i])
  {
    seq(|s|, i requires 0 <= i < |s| => Lower(s[i]))
  }

  lemma ToLowerIdempotent(s: string)
    ensures ToLower(ToLower(s)) == ToLower(s)
  {
  }

  lemma ToLowerAppend(a: string, b: string)
    ensures ToLower(a + b) == ToLower(a) + ToLower(b)
  {
  }

  /** Lower-casing commutes with replacing white-space runs. */
  lemma {:induction false} ToLowerReplaceSpaceRuns(s: string, r: string)
    ensures ToLower(ReplaceSpaceRuns(s, r)) == ReplaceSpaceRuns(ToLower(s), ToLower(r))
    decreases |s|
  {
    if s != [] {
      var ls := ToLower(s);
      var lr := ToLower(r);
      assert ls != [] && ls[0] == Lower(s[0]);
      if IsSpace(s[0]) {
        var t := TrimStart(s);
        assert ReplaceSpaceRuns(s, r) == r + ReplaceSpaceRuns(t, r);
        assert ReplaceSpaceRuns(ls, lr) == lr + ReplaceSpaceRuns(TrimStart(ls), lr);
        TrimStartToLower(s);
        ToLowerReplaceSpaceRuns(t, r);
        ToLowerAppend(r, ReplaceSpaceRuns(t, r));
      } else {
        assert ReplaceSpaceRuns(s, r) == [s[0]] + ReplaceSpaceRuns(s[1..], r);
        assert ReplaceSpaceRuns(ls, lr) == [ls[0]] + ReplaceSpaceRuns(ls[1..], lr);
        assert ls[1..] == ToLower(s[1..]);
        ToLowerReplaceSpaceRuns(s[1..], r);
        ToLowerAppend([s[0]], ReplaceSpaceRuns(s[1..], r));
      }
    }
  }

  lemma {:induction false} TrimStartToLower(s: string)
    ensures TrimStart(ToLower(s)) == ToLower(TrimStart(s))
  {
    if s != [] && IsSpace(s[0]) {
      assert ToLower(s)[1..] == ToLower(s[1..]);
      TrimStartToLower(s[1..]);
    }
  }

  // ---------------------------------------------------------------- toFixed

  function Pow10(f: nat): (p: nat)
    ensures p >= 1
  {
    if f == 0 then 1 else 10 * Pow10(f - 1)
  }

  function Zeros(k: nat): (z: string)
    ensures |z| == k && AllDigits(z)
  {
    if k == 0 then [] else "0" + Zeros(k - 1)
  }

  /** The integer `n` of the `toFixed(f)` algorithm: the one closest to `x * 10^f`, the
      larger one on a tie. */
  function FixedUnits(x: real, f: nat): (n: nat)
    requires x >= 0.0
    ensures (n as real) - 0.5 <= x * (Pow10(f) as real) < (n as real) + 0.5
  {
    (x * (Pow10(f) as real) + 0.5).Floor
  }

  /** `x.toFixed(f)` for a non-negative `x` below 10^21: the digits of `FixedUnits(x, f)`,
      padded with zeros to more than `f` digits, with a point before the last `f`. */
  function FixedDigits(x: real, f: nat): (s: string)
    requires x >= 0.0
    ensures |s| >= 1 && IsDigit(s[0])
    ensures f == 0 ==> AllDigits(s)
    ensures f > 0 ==> |s| >= f + 2 && s[|s| - f - 1] == '.'
                      && AllDigits(s[..|s| - f - 1]) && AllDigits(s[|s| - f..])
  {
    var m := NatToString(FixedUnits(x, f));
    if f == 0 then m
    else
      var padded := if |m| <= f then Zeros(f + 1 - |m|) + m else m;
      padded[..|padded| - f] + "." + padded[|padded| - f..]
  }

  /** `x.toFixed(f)` (a negative number gets a '-' even when it rounds to zero). */
  function ToFixed(x: real, f: nat): string {
    if x < 0.0 then "-" + FixedDigits(-x, f) else FixedDigits(x, f)
  }
}

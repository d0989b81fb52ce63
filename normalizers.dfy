/**
 * The field normalizers of the cleaning step: `astype(str)`, string
 * trimming and lower-casing, `pd.to_numeric` and `pd.to_datetime` with
 * `errors="coerce"`, and the currency cleaner built from them
 * (src/cleaning.py:8-29).
 *
 * The library parsers are modelled by small grammars: a number is
 * `[+-]? (d+ ('.' d*)? | '.' d+)` and a timestamp is
 * `YYYY-MM-DD` optionally followed by `( |T)HH:MM:SS` and a fraction of up to
 * nine digits. Timestamps are nanoseconds since 1970-01-01, as in pandas.
 */
module Normalizers {
  import opened Cells

  // ---------------------------------------------------------------------------
  // Strings: `str.strip()` and `str.lower()`

  /**
   * The characters `str.strip()` removes: Python's whitespace, that is the
   * ASCII whitespace, the separators U+001C to U+001F, and the Unicode spaces
   * and line and paragraph separators.
   */
  predicate IsSpace(c: char)
  {
    || c == ' ' || c == '\t' || c == '\n' || c == '\r' || c == '\U{0B}' || c == '\U{0C}'
    || ('\U{1C}' <= c <= '\U{1F}')
    || c == '\U{85}' || c == '\U{A0}' || c == '\U{1680}'
    || ('\U{2000}' <= c <= '\U{200A}')
    || c == '\U{2028}' || c == '\U{2029}' || c == '\U{202F}' || c == '\U{205F}' || c == '\U{3000}'
  }

  predicate IsUpper(c: char)
  {
    'A' <= c <= 'Z'
  }

  /** A string with no whitespace at either end. */
  predicate IsTrimmed(s: string)
  {
    s == [] || (!IsSpace(s[0]) && !IsSpace(s[|s| - 1]))
  }

  /** A trimmed string without upper-case letters: what `_standardise_string` yields. */
  predicate IsStandard(s: string)
  {
    IsTrimmed(s) && forall i :: 0 <= i < |s| ==> !IsUpper(s[i])
  }

  function TrimStart(s: string): (r: string)
    ensures |r| <= |s| && r == s[|s| - |r|..]
    ensures forall k :: 0 <= k < |s| - |r| ==> IsSpace(s[k])
    ensures r == [] || !IsSpace(r[0])
  {
    if s != [] && IsSpace(s[0]) then
      var r := TrimStart(s[1..]);
      assert forall k :: 1 <= k < |s| - |r| ==> s[k] == s[1..][k - 1];
      r
    else s
  }

  function TrimEnd(s: string): (r: string)
    ensures |r| <= |s| && r == s[..|r|]
    ensures forall k :: |r| <= k < |s| ==> IsSpace(s[k])
    ensures r == [] || !IsSpace(r[|r| - 1])
  {
    if s != [] && IsSpace(s[|s| - 1]) then
      var r := TrimEnd(s[..|s| - 1]);
      assert forall k :: |r| <= k < |s| - 1 ==> s[k] == s[..|s| - 1][k];
      r
    else s
  }

  /** How many whitespace characters `str.strip()` removes at the front. */
  function LeadingSpace(s: string): nat
  {
    |s| - |TrimStart(s)|
  }

  /**
   * `str.strip()`: the string without its leading and trailing whitespace;
   * only whitespace is removed, and only at the two ends.
   */
  function Trim(s: string): (r: string)
    ensures IsTrimmed(r)
  {
    var t := TrimStart(s);
    var r := TrimEnd(t);
    assert r != [] ==> r[0] == t[0];
    r
  }

  /**
   * `str.strip()` keeps a middle slice of its input: only whitespace is
   * removed, and only at the two ends.
   */
  lemma TrimSlice(s: string)
    ensures var i, r := LeadingSpace(s), Trim(s);
            && i + |r| <= |s| && r == s[i..i + |r|]
            && (forall k :: 0 <= k < i ==> IsSpace(s[k]))
            && (forall k :: i + |r| <= k < |s| ==> IsSpace(s[k]))
  {
    var t := TrimStart(s);
    TrimEndWithin(s, |s| - |t|, t, TrimEnd(t));
  }

  /** Trimming the end of the suffix `s[i..]` trims a middle slice of `s`. */
  lemma TrimEndWithin(s: string, i: nat, t: string, r: string)
    requires i <= |s| && t == s[i..]
    requires |r| <= |t| && r == t[..|r|]
    requires forall k :: |r| <= k < |t| ==> IsSpace(t[k])
    ensures i + |r| <= |s| && r == s[i..i + |r|]
    ensures forall k :: i + |r| <= k < |s| ==> IsSpace(s[k])
  {
    forall k | i + |r| <= k < |s| ensures IsSpace(s[k]) {
      assert s[k] == t[k - i];
    }
  }

  /** Trimming a string with no surrounding whitespace leaves it as it is. */
  lemma TrimTrimmed(s: string)
    requires IsTrimmed(s)
    ensures Trim(s) == s
  {
    assert TrimStart(s) == s;
    assert TrimEnd(s) == s;
  }

  /** Leading whitespace in front of a string not starting with whitespace is all that goes. */
  lemma {:induction false} TrimStartPadded(a: string, s: string)
    requires forall k :: 0 <= k < |a| ==> IsSpace(a[k])
    requires s == [] || !IsSpace(s[0])
    ensures TrimStart(a + s) == s
  {
    if a == [] {
      assert a + s == s;
    } else {
      assert (a + s)[1..] == a[1..] + s;
      TrimStartPadded(a[1..], s);
    }
  }

  /** Trailing whitespace behind a string not ending in whitespace is all that goes. */
  lemma {:induction false} TrimEndPadded(s: string, b: string)
    requires forall k :: 0 <= k < |b| ==> IsSpace(b[k])
    requires s == [] || !IsSpace(s[|s| - 1])
    ensures TrimEnd(s + b) == s
  {
    if b == [] {
      assert s + b == s;
    } else {
      var b' := b[..|b| - 1];
      assert (s + b)[..|s + b| - 1] == s + b';
      TrimEndPadded(s, b');
    }
  }

  /** `str.strip()` removes exactly the whitespace padding around a non-empty trimmed string. */
  lemma TrimPadded(a: string, s: string, b: string)
    requires forall k :: 0 <= k < |a| ==> IsSpace(a[k])
    requires forall k :: 0 <= k < |b| ==> IsSpace(b[k])
    requires s != [] && IsTrimmed(s)
    ensures Trim(a + s + b) == s
  {
    assert a + s + b == a + (s + b);
    TrimStartPadded(a, s + b);
    TrimEndPadded(s, b);
  }

  function LowerChar(c: char): (r: char)
    ensures !IsUpper(r)
    ensures IsSpace(r) <==> IsSpace(c)
    ensures !IsUpper(c) ==> r == c
  {
    if IsUpper(c) then (c as int + 32) as char else c
  }

  /** `str.lower()` on ASCII letters. */
  function Lower(s: string): (r: string)
    ensures |r| == |s|
    ensures forall i :: 0 <= i < |s| ==> r[i] == LowerChar(s[i])
  {
    seq(|s|, i requires 0 <= i < |s| => LowerChar(s[i]))
  }

  /**
   * `_standardise_string` on one value (src/cleaning.py:24-29): strip, then
   * lower-case. The result has no surrounding whitespace and no upper-case
   * letter.
   */
  function Standardise(s: string): (r: string)
    ensures IsStandard(r)
  {
    var t := Trim(s);
    Lower(t)
  }

  /** `_standardise_string` is idempotent, and the identity on standard strings. */
  lemma {:induction false} StandardiseIdempotent(s: string)
    ensures IsStandard(s) ==> Standardise(s) == s
    ensures Standardise(Standardise(s)) == Standardise(s)
  {
    if IsStandard(s) {
      TrimTrimmed(s);
      assert Lower(s) == s;
    }
    var r := Standardise(s);
    TrimTrimmed(r);
    assert Lower(r) == r;
  }

  // ---------------------------------------------------------------------------
  // Numbers: `pd.to_numeric(errors="coerce")` on one string, and `str()` of a float

  predicate IsDigit(c: char)
  {
    '0' <= c <= '9'
  }

  predicate AllDigits(s: string)
  {
    forall i :: 0 <= i < |s| ==> IsDigit(s[i])
  }

  function DigitChar(n: int): (c: char)
    requires 0 <= n < 10
    ensures IsDigit(c)
  {
    ('0' as int + n) as char
  }

  /** The number a string of decimal digits denotes. */
  function DigitsValue(s: string): nat
    requires AllDigits(s)
  {
    if s == [] then 0
    else DigitsValue(s[..|s| - 1]) * 10 + (s[|s| - 1] as int - '0' as int)
  }

  /** The position of the first `ch` in `s`, or `|s|` when there is none. */
  function IndexOf(s: string, ch: char): (i: nat)
    ensures i <= |s|
    ensures i < |s| ==> s[i] == ch
    ensures forall k :: 0 <= k < i ==> s[k] != ch
  {
    if s == [] then 0
    else if s[0] == ch then 0
    else 1 + IndexOf(s[1..], ch)
  }

  lemma AllDigitsAppend(a: string, b: string)
    requires AllDigits(a) && AllDigits(b)
    ensures AllDigits(a + b)
  {
    assert forall k :: 0 <= k < |a + b| ==> (a + b)[k] == if k < |a| then a[k] else b[k - |a|];
  }

  /** An unsigned decimal: digits with at most one point, and at least one digit. */
  function ParseUnsigned(s: string): Option<Decimal>
  {
    var p := IndexOf(s, '.');
    var whole := s[..p];
    var fraction := if p < |s| then s[p + 1..] else [];
    if |whole| + |fraction| > 0 && AllDigits(whole) && AllDigits(fraction) then
      assert AllDigits(whole + fraction) by { AllDigitsAppend(whole, fraction); }
      Some(Decimal(DigitsValue(whole + fraction), |fraction|))
    else None
  }

  /**
   * `pd.to_numeric(s, errors="coerce")` on one string: a decimal with an
   * optional sign, or `None` (NaN) for anything else.
   */
  function ParseNumber(s: string): Option<Decimal>
  {
    if |s| > 0 && (s[0] == '+' || s[0] == '-') then
      match ParseUnsigned(s[1..])
      case None => None
      case Some(d) => Some(if s[0] == '-' then Decimal(-d.units, d.scale) else d)
    else ParseUnsigned(s)
  }

  /** The decimal digits of `n`, without leading zeros. */
  function NatDigits(n: nat): (r: string)
    ensures |r| >= 1 && AllDigits(r)
  {
    if n < 10 then [DigitChar(n)] else NatDigits(n / 10) + [DigitChar(n % 10)]
  }

  /** The last `width` decimal digits of `n`, padded with leading zeros. */
  function PaddedDigits(n: int, width: nat): (r: string)
    ensures |r| == width && AllDigits(r)
    decreases width
  {
    if width == 0 then [] else PaddedDigits(n / 10, width - 1) + [DigitChar(n % 10)]
  }

  lemma DivModNat(m: nat, p: nat)
    requires p >= 1
    ensures m / p >= 0 && 0 <= m % p < p && m == (m / p) * p + m % p
  {
  }

  /** The digits of `m / 10^scale`, with `scale` digits after the point. */
  function RenderMagnitude(m: nat, scale: nat): string
  {
    var p := Pow10(scale);
    DivModNat(m, p);
    if scale == 0 then NatDigits(m / p) else NatDigits(m / p) + "." + PaddedDigits(m % p, scale)
  }

  /** `str()` of a number: sign, whole digits, and `scale` fraction digits. */
  function RenderNumber(d: Decimal): string
  {
    (if d.units < 0 then "-" else "") + RenderMagnitude(d.Abs().units, d.scale)
  }

  lemma {:induction false} DigitsValueAppend(a: string, b: string)
    requires AllDigits(a) && AllDigits(b)
    ensures AllDigits(a + b)
    ensures DigitsValue(a + b) == DigitsValue(a) * Pow10(|b|) + DigitsValue(b)
    decreases |b|
  {
    AllDigitsAppend(a, b);
    if b == [] {
      assert a + b == a;
    } else {
      var b', c := b[..|b| - 1], b[|b| - 1];
      assert a + b == (a + b') + [c];
      assert b == b' + [c];
      DigitsValueAppend(a, b');
      DigitsValueSnoc(a + b', c);
      DigitsValueSnoc(b', c);
      ShiftDigit(DigitsValue(a), Pow10(|b'|), DigitsValue(b'), c as int - '0' as int);
    }
  }

  /** Appending a digit multiplies the value by ten and adds the digit. */
  lemma DigitsValueSnoc(s: string, c: char)
    requires AllDigits(s) && IsDigit(c)
    ensures AllDigits(s + [c])
    ensures DigitsValue(s + [c]) == DigitsValue(s) * 10 + (c as int - '0' as int)
  {
    var t := s + [c];
    assert t[..|t| - 1] == s;
  }

  lemma ShiftDigit(x: int, p: int, y: int, z: int)
    ensures (x * p + y) * 10 + z == x * (p * 10) + (y * 10 + z)
  {
  }

  lemma {:induction false} NatDigitsValue(n: nat)
    ensures DigitsValue(NatDigits(n)) == n
  {
    if n >= 10 {
      NatDigitsValue(n / 10);
      var r := NatDigits(n);
      assert r[..|r| - 1] == NatDigits(n / 10);
    }
  }

  lemma {:induction false} PaddedDigitsValue(n: nat, width: nat)
    requires n < Pow10(width)
    ensures DigitsValue(PaddedDigits(n, width)) == n
  {
    if width > 0 {
      PaddedDigitsValue(n / 10, width - 1);
      var r := PaddedDigits(n, width);
      assert r[..|r| - 1] == PaddedDigits(n / 10, width - 1);
    }
  }

  lemma {:induction false} IndexOfAfterDigits(w: string, rest: string)
    requires AllDigits(w)
    ensures IndexOf(w + rest, '.') == |w| + IndexOf(rest, '.')
    decreases |w|
  {
    if w != [] {
      assert (w + rest)[1..] == w[1..] + rest;
      IndexOfAfterDigits(w[1..], rest);
    } else {
      assert w + rest == rest;
    }
  }

  /** Digits alone parse as a whole number. */
  lemma ParseUnsignedWhole(w: string)
    requires AllDigits(w) && w != []
    ensures ParseUnsigned(w) == Some(Decimal(DigitsValue(w), 0))
  {
    IndexOfAfterDigits(w, "");
    assert w + "" == w && w[..|w|] == w && w + [] == w;
  }

  /** Digits, a point and digits parse as a decimal with as many fraction digits. */
  lemma ParseUnsignedPoint(w: string, f: string)
    requires AllDigits(w) && AllDigits(f) && w != []
    ensures ParseUnsigned(w + "." + f) == Some(Decimal(DigitsValue(w + f), |f|))
  {
    var point := "." + f;
    var body := w + point;
    assert w + "." + f == body;
    assert point[0] == '.';
    assert IndexOf(point, '.') == 0;
    IndexOfAfterDigits(w, point);
    var p := IndexOf(body, '.');
    assert p == |w| < |body|;
    assert body[..p] == w;
    assert body[p + 1..] == f;
  }

  /** Whole digits, a point and `scale` padded digits parse back to the decimal they render. */
  lemma ParsePointDigits(q: nat, r: nat, scale: nat)
    requires scale >= 1 && r < Pow10(scale)
    ensures ParseUnsigned(NatDigits(q) + "." + PaddedDigits(r, scale)) == Some(Decimal(q * Pow10(scale) + r, scale))
  {
    var w, f := NatDigits(q), PaddedDigits(r, scale);
    NatDigitsValue(q);
    PaddedDigitsValue(r, scale);
    DigitsValueAppend(w, f);
    assert DigitsValue(w + f) == q * Pow10(scale) + r;
    ParseUnsignedPoint(w, f);
  }

  lemma ParseRenderMagnitude(m: nat, scale: nat)
    ensures ParseUnsigned(RenderMagnitude(m, scale)) == Some(Decimal(m, scale))
  {
    if scale == 0 {
      ParseRenderWhole(m);
    } else {
      ParseRenderPoint(m, scale);
    }
  }

  lemma ParseRenderWhole(m: nat)
    ensures ParseUnsigned(RenderMagnitude(m, 0)) == Some(Decimal(m, 0))
  {
    assert Pow10(0) == 1;
    assert RenderMagnitude(m, 0) == NatDigits(m);
    NatDigitsValue(m);
    ParseUnsignedWhole(NatDigits(m));
  }

  lemma ParseRenderPoint(m: nat, scale: nat)
    requires scale >= 1
    ensures ParseUnsigned(RenderMagnitude(m, scale)) == Some(Decimal(m, scale))
  {
    var p := Pow10(scale);
    DivModNat(m, p);
    var q, r := m / p, m % p;
    assert RenderMagnitude(m, scale) == NatDigits(q) + "." + PaddedDigits(r, scale);
    ParsePointDigits(q, r, scale);
    assert q * p + r == m;
  }

  lemma ParseNumberNegative(body: string, d: Decimal)
    requires ParseUnsigned(body) == Some(d)
    ensures ParseNumber("-" + body) == Some(Decimal(-d.units, d.scale))
  {
    assert ("-" + body)[1..] == body;
  }

  lemma ParseNumberDigitFirst(body: string)
    requires body != [] && IsDigit(body[0])
    ensures ParseNumber(body) == ParseUnsigned(body)
  {
  }

  lemma RenderMagnitudeFirst(m: nat, scale: nat)
    ensures RenderMagnitude(m, scale) != [] && IsDigit(RenderMagnitude(m, scale)[0])
  {
    var p := Pow10(scale);
    DivModNat(m, p);
    var w := NatDigits(m / p);
    if scale == 0 {
      assert RenderMagnitude(m, scale) == w;
    } else {
      var r := w + "." + PaddedDigits(m % p, scale);
      assert RenderMagnitude(m, scale) == r;
      assert r[0] == w[0];
    }
  }

  /**
   * Rendering a number and parsing it back gives the same number: the
   * currency cleaner is idempotent on its own output.
   */
  lemma ParseRenderNumber(d: Decimal)
    ensures ParseNumber(RenderNumber(d)) == Some(d)
  {
    var body := RenderMagnitude(d.Abs().units, d.scale);
    ParseRenderMagnitude(d.Abs().units, d.scale);
    if d.units < 0 {
      assert RenderNumber(d) == "-" + body;
      ParseNumberNegative(body, d.Abs());
    } else {
      assert RenderNumber(d) == body;
      RenderMagnitudeFirst(d.Abs().units, d.scale);
      ParseNumberDigitFirst(body);
    }
  }

  /** A rendered number holds only digits, a sign and a point. */
  lemma RenderNumberChars(d: Decimal)
    ensures RenderNumber(d) != []
    ensures forall i :: 0 <= i < |RenderNumber(d)| ==>
              IsDigit(RenderNumber(d)[i]) || RenderNumber(d)[i] == '-' || RenderNumber(d)[i] == '.'
    ensures IsDigit(RenderNumber(d)[|RenderNumber(d)| - 1])
  {
  }

  // ---------------------------------------------------------------------------
  // Timestamps: `pd.to_datetime(errors="coerce")` on one string

  const NanosPerSecond: int := 1_000_000_000
  const NanosPerDay: int := 86_400 * NanosPerSecond

  predicate IsLeapYear(y: int)
  {
    y % 4 == 0 && (y % 100 != 0 || y % 400 == 0)
  }

  function DaysInMonth(y: int, m: int): int
    requires 1 <= m <= 12
  {
    if m == 2 then (if IsLeapYear(y) then 29 else 28)
    else if m == 4 || m == 6 || m == 9 || m == 11 then 30
    else 31
  }

  /** Days from 1970-01-01 to the proleptic Gregorian date y-m-d. */
  function DaysFromCivil(y: int, m: int, d: int): int
    requires 1 <= m <= 12
  {
    var y' := if m <= 2 then y - 1 else y;
    var era := y' / 400;
    var yoe := y' - era * 400;
    var mp := (m + 9) % 12;
    var doy := (153 * mp + 2) / 5 + d - 1;
    var doe := yoe * 365 + yoe / 4 - yoe / 100 + doy;
    era * 146097 + doe - 719468
  }

  /** The date (year, month, day) that lies `z` days after 1970-01-01. */
  function CivilFromDays(z: int): (int, int, int)
  {
    var z' := z + 719468;
    var era := z' / 146097;
    var doe := z' - era * 146097;
    var yoe := (doe - doe / 1460 + doe / 36524 - doe / 146096) / 365;
    var doy := doe - (365 * yoe + yoe / 4 - yoe / 100);
    var mp := (5 * doy + 2) / 153;
    var d := doy - (153 * mp + 2) / 5 + 1;
    var m := if mp < 10 then mp + 3 else mp - 9;
    (if m <= 2 then yoe + era * 400 + 1 else yoe + era * 400, m, d)
  }

  /** The time of day: empty, or `( |T)HH:MM:SS` with an optional `.` and 1 to 9 digits. */
  function ParseClock(s: string): Option<int>
  {
    if s == [] then Some(0)
    else if |s| < 9 || !(s[0] == ' ' || s[0] == 'T') || s[3] != ':' || s[6] != ':'
         || !AllDigits(s[1..3]) || !AllDigits(s[4..6]) || !AllDigits(s[7..9]) then None
    else
      var h, mi, sec := DigitsValue(s[1..3]), DigitsValue(s[4..6]), DigitsValue(s[7..9]);
      var fraction := s[9..];
      if h >= 24 || mi >= 60 || sec >= 60 then None
      else if fraction != [] && (fraction[0] != '.' || |fraction| < 2 || |fraction| > 10 || !AllDigits(fraction[1..])) then None
      else
        var nanos := if fraction == [] then 0 else DigitsValue(fraction[1..]) * Pow10(10 - |fraction|);
        Some(((h * 60 + mi) * 60 + sec) * NanosPerSecond + nanos)
  }

  /** `pd.to_datetime(s, errors="coerce")` on one string: a timestamp, or `None` (NaT). */
  function ParseTimestamp(s: string): Option<int>
  {
    if |s| < 10 || s[4] != '-' || s[7] != '-'
       || !AllDigits(s[..4]) || !AllDigits(s[5..7]) || !AllDigits(s[8..10]) then None
    else
      var y, m, d := DigitsValue(s[..4]), DigitsValue(s[5..7]), DigitsValue(s[8..10]);
      if !(1 <= m <= 12 && 1 <= d <= DaysInMonth(y, m)) then None
      else
        match ParseClock(s[10..])
        case None => None
        case Some(t) => Some(DaysFromCivil(y, m, d) * NanosPerDay + t)
  }

  /** `str()` of a timestamp: `YYYY-MM-DD HH:MM:SS`, with nine fraction digits when there is a fraction. */
  function RenderTimestamp(ns: int): string
  {
    var day, rest := ns / NanosPerDay, ns % NanosPerDay;
    var (y, m, d) := CivilFromDays(day);
    var secs, fraction := rest / NanosPerSecond, rest % NanosPerSecond;
    var year := if y < 0 then "-" + PaddedDigits(-y, 4) else if y < 10000 then PaddedDigits(y, 4) else NatDigits(y);
    year + "-" + PaddedDigits(m, 2) + "-" + PaddedDigits(d, 2) + " "
    + PaddedDigits(secs / 3600, 2) + ":" + PaddedDigits(secs / 60 % 60, 2) + ":" + PaddedDigits(secs % 60, 2)
    + (if fraction == 0 then "" else "." + PaddedDigits(fraction, 9))
  }

  // ---------------------------------------------------------------------------
  // Cells

  /** `astype(str)` on one cell; NaN becomes the text "nan". */
  function AsText(c: Cell): string
  {
    match c
    case Null => "nan"
    case Text(s) => s
    case Number(d) => RenderNumber(d)
    case Time(ns) => RenderTimestamp(ns)
  }

  /** `_standardise_string` on one cell (src/cleaning.py:24-29): always text. */
  function StandardiseCell(c: Cell): (r: Cell)
    ensures r.Text? && IsStandard(r.text)
  {
    Text(Standardise(AsText(c)))
  }

  /** `str.replace(ch, "")`: every occurrence of `ch` removed, the rest in order. */
  function RemoveChar(s: string, ch: char): (r: string)
    ensures ch !in r
    ensures ch !in s ==> r == s
  {
    if s == [] then []
    else if s[0] == ch then RemoveChar(s[1..], ch)
    else [s[0]] + RemoveChar(s[1..], ch)
  }

  /** `str.replace(ch, "")` keeps every other character and only those. */
  lemma {:induction false} RemoveCharMembers(s: string, ch: char)
    ensures forall c :: c in RemoveChar(s, ch) <==> c in s && c != ch
  {
    if s != [] {
      RemoveCharMembers(s[1..], ch);
      assert forall c :: c in s <==> c == s[0] || c in s[1..];
    }
  }

  const PoundSign: char := '\U{A3}'

  /** The two `str.replace` calls of src/cleaning.py:16-17. */
  function StripMoney(s: string): (r: string)
    ensures PoundSign !in r && ',' !in r
  {
    var s1 := RemoveChar(s, PoundSign);
    RemoveCharMembers(s1, ',');
    RemoveChar(s1, ',')
  }

  /**
   * `_clean_currency_column` on one cell (src/cleaning.py:12-21): `astype(str)`,
   * remove every pound sign and comma, strip, then `pd.to_numeric` with
   * `errors="coerce"`.
   */
  function CleanCurrency(c: Cell): (r: Cell)
    ensures IsNumeric(r)
  {
    var cleaned := Trim(StripMoney(AsText(c)));
    match ParseNumber(cleaned)
    case Some(d) => Number(d)
    case None => Null
  }

  /** `pd.to_numeric(errors="coerce")` on one cell of an object column. */
  function ToNumeric(c: Cell): (r: Cell)
    ensures IsNumeric(r)
    ensures IsNumeric(c) ==> r == c
  {
    match c
    case Null => Null
    case Number(_) => c
    case Text(s) => (match ParseNumber(s) case Some(d) => Number(d) case None => Null)
    case Time(_) => Null
  }

  /**
   * `_parse_dates` on one cell (src/cleaning.py:8-9): a timestamp stays, a
   * string is parsed, a number counts nanoseconds since the epoch.
   */
  function ParseDates(c: Cell): (r: Cell)
    ensures IsDateTime(r)
    ensures IsDateTime(c) ==> r == c
  {
    match c
    case Null => Null
    case Time(_) => c
    case Text(s) => (match ParseTimestamp(s) case Some(t) => Time(t) case None => Null)
    case Number(d) => Time(if d.units < 0 then -(-d.units / Pow10(d.scale)) else d.units / Pow10(d.scale))
  }

  /** `astype(str)` of a missing value, standardised, is `"nan"`. */
  lemma StandardiseNull()
    ensures StandardiseCell(Null) == Text("nan")
  {
    var nan := AsText(Null);
    assert IsStandard(nan) by {
      assert |nan| == 3 && nan[0] == 'n' && nan[1] == 'a' && nan[2] == 'n';
    }
    StandardiseIdempotent(nan);
  }

  lemma TrimHigh()
    ensures Trim(" HIGH ") == "HIGH"
  {
    var s := " HIGH ";
    assert TrimStart(s[1..]) == s[1..];
    assert TrimStart(s) == s[1..];
    var t := s[1..];
    assert TrimEnd(t[..4]) == "HIGH";
    assert TrimEnd(t) == "HIGH";
  }

  lemma LowerHigh()
    ensures Lower("HIGH") == "high"
  {
  }

  /** Standardising trims and lower-cases: `" HIGH "` becomes `"high"`. */
  lemma StandardiseHigh()
    ensures Standardise(" HIGH ") == "high"
  {
    TrimHigh();
    LowerHigh();
  }

  /** "nan", the text of a missing value, is not a number. */
  lemma NanIsNotNumber()
    ensures ParseNumber("nan") == None
  {
  }

  /** A rendered number has no pound sign, comma or surrounding whitespace. */
  lemma RenderNumberPlain(d: Decimal)
    ensures PoundSign !in RenderNumber(d) && ',' !in RenderNumber(d)
    ensures IsTrimmed(RenderNumber(d))
  {
    RenderNumberChars(d);
  }

  /** A number passes through the currency cleaner unchanged. */
  lemma CleanCurrencyNumber(d: Decimal)
    ensures CleanCurrency(Number(d)) == Number(d)
  {
    var s := RenderNumber(d);
    RenderNumberPlain(d);
    var s1 := RemoveChar(s, PoundSign);
    assert s1 == s;
    var s2 := RemoveChar(s1, ',');
    assert s2 == s;
    TrimTrimmed(s);
    ParseRenderNumber(d);
    var parsed := ParseNumber(Trim(s2));
    assert parsed == Some(d);
  }

  /** NaN passes through the currency cleaner as NaN. */
  lemma CleanCurrencyNull()
    ensures CleanCurrency(Null) == Null
  {
    var nan := AsText(Null);
    assert |nan| == 3 && nan[0] == 'n' && nan[1] == 'a' && nan[2] == 'n';
    assert PoundSign !in nan && ',' !in nan;
    assert StripMoney(nan) == nan;
    TrimTrimmed(nan);
    NanIsNotNumber();
  }

  /** The currency cleaner leaves a cell of a float column as it is. */
  lemma CleanCurrencyFixes(c: Cell)
    requires IsNumeric(c)
    ensures CleanCurrency(c) == c
  {
    if c.Number? {
      CleanCurrencyNumber(c.number);
    } else {
      CleanCurrencyNull();
    }
  }

  /**
   * The currency cleaner is idempotent: a number survives a second pass, and
   * so does NaN (it becomes "nan", which does not parse).
   */
  lemma CleanCurrencyIdempotent(c: Cell)
    ensures CleanCurrency(CleanCurrency(c)) == CleanCurrency(c)
  {
    CleanCurrencyFixes(CleanCurrency(c));
  }

  /** Removing a character distributes over concatenation. */
  lemma {:induction false} RemoveCharAppend(a: string, b: string, ch: char)
    ensures RemoveChar(a + b, ch) == RemoveChar(a, ch) + RemoveChar(b, ch)
  {
    if a == [] {
      assert a + b == b;
    } else {
      var ab := a + b;
      assert ab[0] == a[0] && ab[1..] == a[1..] + b;
      RemoveCharAppend(a[1..], b, ch);
      if a[0] != ch {
        var x, y := RemoveChar(a[1..], ch), RemoveChar(b, ch);
        assert [a[0]] + (x + y) == ([a[0]] + x) + y;
      }
    }
  }

  /** Removing one character from a string that contains it just once, at a known place. */
  lemma RemoveCharAround(a: string, x: char, b: string, ch: char)
    ensures RemoveChar(a + [x] + b, ch) == RemoveChar(a, ch) + (if x == ch then [] else [x]) + RemoveChar(b, ch)
  {
    RemoveCharAppend(a + [x], b, ch);
    RemoveCharAppend(a, [x], ch);
    assert RemoveChar([x], ch) == (if x == ch then [] else [x]) + RemoveChar([], ch);
  }

  lemma StripMoneyIgnoresPound(a: string, b: string)
    ensures StripMoney(a + [PoundSign] + b) == StripMoney(a + b)
  {
    RemoveCharAround(a, PoundSign, b, PoundSign);
    RemoveCharAppend(a, b, PoundSign);
    var ra, rb := RemoveChar(a, PoundSign), RemoveChar(b, PoundSign);
    assert ra + [] + rb == ra + rb;
    assert RemoveChar(a + [PoundSign] + b, PoundSign) == RemoveChar(a + b, PoundSign);
  }

  lemma StripMoneyIgnoresComma(a: string, b: string)
    ensures StripMoney(a + [','] + b) == StripMoney(a + b)
  {
    var a1, b1 := RemoveChar(a, PoundSign), RemoveChar(b, PoundSign);
    RemoveCharAround(a, ',', b, PoundSign);
    RemoveCharAround(a1, ',', b1, ',');
    RemoveCharAppend(a, b, PoundSign);
    RemoveCharAppend(a1, b1, ',');
  }

  /** A pound sign anywhere in a money string makes no difference. */
  lemma CleanCurrencyIgnoresPound(a: string, b: string)
    ensures CleanCurrency(Text(a + [PoundSign] + b)) == CleanCurrency(Text(a + b))
  {
    StripMoneyIgnoresPound(a, b);
  }

  /** A comma anywhere in a money string makes no difference: thousands separators are dropped. */
  lemma CleanCurrencyIgnoresComma(a: string, b: string)
    ensures CleanCurrency(Text(a + [','] + b)) == CleanCurrency(Text(a + b))
  {
    StripMoneyIgnoresComma(a, b);
  }

  /** The currency cleaner yields the number its cleaned text parses as. */
  lemma CleanCurrencyReads(c: Cell, d: Decimal)
    requires ParseNumber(Trim(StripMoney(AsText(c)))) == Some(d)
    ensures CleanCurrency(c) == Number(d)
  {
  }

  /** A pound amount such as "\U{A3}12.50" is read as the number after the sign. */
  lemma CleanCurrencyPoundAmount(d: Decimal)
    ensures CleanCurrency(Text([PoundSign] + RenderNumber(d))) == Number(d)
  {
    var s := RenderNumber(d);
    RenderNumberPlain(d);
    StripMoneyIgnoresPound([], s);
    assert [] + [PoundSign] + s == [PoundSign] + s;
    assert [] + s == s;
    assert StripMoney(s) == s;
    TrimTrimmed(s);
    ParseRenderNumber(d);
    CleanCurrencyReads(Text([PoundSign] + s), d);
  }

  /**
   * A number written as money, with or without a pound sign in front and
   * with any whitespace around it, such as " \U{A3}12.50 ", is read as that
   * number.
   */
  lemma CleanCurrencyPadded(d: Decimal, a: string, b: string)
    requires forall k :: 0 <= k < |a| ==> IsSpace(a[k])
    requires forall k :: 0 <= k < |b| ==> IsSpace(b[k])
    ensures CleanCurrency(Text(a + RenderNumber(d) + b)) == Number(d)
    ensures CleanCurrency(Text(a + [PoundSign] + RenderNumber(d) + b)) == Number(d)
  {
    var s := RenderNumber(d);
    RenderNumberChars(d);
    RenderNumberPlain(d);
    var x := a + s + b;
    assert a + [PoundSign] + s + b == a + [PoundSign] + (s + b);
    assert a + (s + b) == x;
    StripMoneyIgnoresPound(a, s + b);
    assert PoundSign !in x && ',' !in x by {
      assert !IsSpace(PoundSign) && !IsSpace(',');
      forall k | 0 <= k < |x| ensures x[k] != PoundSign && x[k] != ',' {
        if k < |a| {
          assert x[k] == a[k];
        } else if k < |a| + |s| {
          assert x[k] == s[k - |a|];
        } else {
          assert x[k] == b[k - |a| - |s|];
        }
      }
    }
    assert StripMoney(x) == x;
    TrimPadded(a, s, b);
    ParseRenderNumber(d);
    CleanCurrencyReads(Text(x), d);
    CleanCurrencyReads(Text(a + [PoundSign] + s + b), d);
  }

  lemma RemoveCharKeepsFirst(s: string, ch: char)
    requires s != [] && s[0] != ch
    ensures RemoveChar(s, ch) != [] && RemoveChar(s, ch)[0] == s[0]
  {
  }

  /** A string that does not start with a digit, a sign or a point is not a number. */
  lemma ParseNumberRejects(r: string)
    requires r != [] && !IsDigit(r[0]) && r[0] != '+' && r[0] != '-' && r[0] != '.'
    ensures ParseNumber(r) == None
  {
    var p := IndexOf(r, '.');
    assert p >= 1;
    assert !AllDigits(r[..p]) by { assert r[..p][0] == r[0]; }
  }

  /** Stripping a string that starts with a non-blank keeps its first character. */
  lemma TrimKeepsFirst(s: string)
    requires s != [] && !IsSpace(s[0])
    ensures Trim(s) != [] && Trim(s)[0] == s[0]
  {
    assert TrimStart(s) == s;
    TrimSlice(s);
  }

  /**
   * A string that starts with anything but a blank, a digit, a sign, a point,
   * a pound sign or a comma is not money: it becomes NaN.
   */
  lemma CleanCurrencyRejects(s: string)
    requires s != [] && !IsDigit(s[0]) && !IsSpace(s[0])
    requires s[0] != '+' && s[0] != '-' && s[0] != '.' && s[0] != ',' && s[0] != PoundSign
    ensures CleanCurrency(Text(s)) == Null
  {
    RemoveCharKeepsFirst(s, PoundSign);
    var s1 := RemoveChar(s, PoundSign);
    RemoveCharKeepsFirst(s1, ',');
    var s2 := RemoveChar(s1, ',');
    assert s2 == StripMoney(s);
    TrimKeepsFirst(s2);
    ParseNumberRejects(Trim(s2));
  }

  /** `$` is not stripped, so every dollar amount becomes NaN. */
  lemma CleanCurrencyDollar(amount: string)
    ensures CleanCurrency(Text("$" + amount)) == Null
  {
    CleanCurrencyRejects("$" + amount);
  }
}

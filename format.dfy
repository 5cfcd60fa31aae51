/**
 * `formatTime` (app.js:305-310): a number of seconds shown as HH:MM:SS,
 * with JavaScript's `Math.floor`, `%` (remainder truncated toward zero),
 * `toString` and `padStart(2, '0')` written out.
 */
module Format {
  import opened Wrappers
  import opened Arith

  /** `Math.trunc`: rounding toward zero. */
  function Trunc(x: real): int {
    if x >= 0.0 then x.Floor else -((-x).Floor)
  }

  /** JavaScript's `x % y`: the remainder takes the sign of the dividend. */
  function JsRem(x: real, y: real): real
    requires y != 0.0
  {
    x - y * Trunc(x / y) as real
  }

  function DigitChar(d: int): (c: char)
    requires 0 <= d < 10
    ensures IsDigit(c)
  {
    ('0' as int + d) as char
  }

  predicate IsDigit(c: char) {
    '0' <= c <= '9'
  }

  predicate AllDigits(s: string) {
    forall i :: 0 <= i < |s| ==> IsDigit(s[i])
  }

  /** The decimal digits of `n`, without leading zeros. */
  function Digits(n: nat): (s: string)
    ensures 1 <= |s| && AllDigits(s)
    ensures n < 10 ==> |s| == 1
    ensures 10 <= n < 100 ==> |s| == 2
    ensures n >= 10 ==> s[0] != '0'
  {
    if n < 10 then [DigitChar(n)] else Digits(n / 10) + [DigitChar(n % 10)]
  }

  /** `Number.prototype.toString` on an integer value. */
  function NumberString(n: int): (s: string)
    ensures 1 <= |s|
  {
    if n < 0 then "-" + Digits(-n) else Digits(n)
  }

  /** `padStart(2, '0')`: zeros in front up to two characters, never cutting. */
  function PadStart2(t: string): (r: string)
    ensures |r| == if |t| < 2 then 2 else |t|
    ensures r[|r| - |t|..] == t
    ensures forall i :: 0 <= i < |r| - |t| ==> r[i] == '0'
  {
    if |t| >= 2 then t else seq(2 - |t|, _ => '0') + t
  }

  function Field(n: int): string {
    PadStart2(NumberString(n))
  }

  /** The three numbers formatTime prints: hours, minutes and seconds. */
  function TimeParts(seconds: real): (int, int, int) {
    ((seconds / 3600.0).Floor,
     (JsRem(seconds, 3600.0) / 60.0).Floor,
     JsRem(seconds, 60.0).Floor)
  }

  function FormatTime(seconds: real): string {
    var (h, m, s) := TimeParts(seconds);
    Field(h) + ":" + Field(m) + ":" + Field(s)
  }

  /**
   * For a non-negative number of seconds the three parts are the whole
   * seconds split into hours, minutes below 60 and seconds below 60; the
   * hours are not limited.
   */
  lemma TimePartsSplit(seconds: real)
    requires seconds >= 0.0
    ensures var (h, m, s) := TimeParts(seconds);
      && h >= 0 && 0 <= m < 60 && 0 <= s < 60
      && h * 3600 + m * 60 + s == seconds.Floor
  {
    var n := seconds.Floor;
    FloorOfQuotient(seconds, 3600);
    MinutesPart(seconds);
    RemainderOf(seconds, 60);
    WholeSecondsSplit(n);
  }

  lemma MinutesPart(seconds: real)
    requires seconds >= 0.0
    ensures (JsRem(seconds, 3600.0) / 60.0).Floor == seconds.Floor % 3600 / 60
  {
    RemainderOf(seconds, 3600);
    var r := JsRem(seconds, 3600.0);
    FloorOfQuotient(r, 60);
  }

  lemma WholeSecondsSplit(n: int)
    ensures n / 3600 * 3600 + n % 3600 / 60 * 60 + n % 60 == n
  {
    var q, r := n / 3600, n % 3600;
    var a, b := r / 60, r % 60;
    assert n == (q * 60 + a) * 60 + b;
    assert n % 60 == b;
  }

  /** Dividing by a whole number commutes with dropping the fraction. */
  lemma FloorOfQuotient(x: real, d: int)
    requires x >= 0.0 && d > 0
    ensures (x / d as real).Floor == x.Floor / d
  {
    var n := x.Floor;
    var q := n / d;
    var y := x / d as real;
    QuotientBounds(x, d, n, q);
    assert q as real <= y < (q + 1) as real;
  }

  lemma QuotientBounds(x: real, d: int, n: int, q: int)
    requires x >= 0.0 && d > 0 && n == x.Floor && q == n / d
    ensures q as real <= x / d as real < (q + 1) as real
  {
    var y := x / d as real;
    assert y * d as real == x;
    assert q * d <= n < q * d + d;
    CastMul(q, d);
    CastMul(q + 1, d);
    assert (q as real) * (d as real) <= x;
    assert x < (q + 1) as real * d as real;
    if y < q as real {
      MulStrict(y, q as real, d as real);
    }
    if y >= (q + 1) as real {
      MulMonotone((q + 1) as real, y, d as real);
    }
  }

  lemma CastMul(a: int, b: int)
    ensures (a * b) as real == a as real * b as real
  {
  }

  /** JavaScript's `%` on a non-negative number keeps the fraction and takes the whole part modulo `d`. */
  lemma RemainderOf(x: real, d: int)
    requires x >= 0.0 && d > 0
    ensures JsRem(x, d as real) == x - (d * (x.Floor / d)) as real
    ensures JsRem(x, d as real).Floor == x.Floor % d
  {
    FloorOfQuotient(x, d);
    var n := x.Floor;
    assert Trunc(x / d as real) == n / d;
    var r := x - (d * (n / d)) as real;
    assert (n % d) as real <= r < (n % d + 1) as real;
  }

  /** The value of a string of decimal digits. */
  function DigitsValue(s: string): (v: nat)
    requires AllDigits(s)
  {
    if s == [] then 0 else DigitsValue(s[..|s| - 1]) * 10 + (s[|s| - 1] as int - '0' as int)
  }

  lemma {:induction false} DigitsValueOfDigits(n: nat)
    ensures DigitsValue(Digits(n)) == n
  {
    if n >= 10 {
      DigitsValueOfDigits(n / 10);
      var s := Digits(n);
      assert s[..|s| - 1] == Digits(n / 10);
    }
  }

  lemma {:induction false} LeadingZerosAddNothing(z: string, s: string)
    requires AllDigits(s)
    requires forall i :: 0 <= i < |z| ==> z[i] == '0'
    ensures AllDigits(z + s) && DigitsValue(z + s) == DigitsValue(s)
  {
    if s == [] {
      assert z + s == z;
      if z != [] {
        LeadingZerosAddNothing(z[..|z| - 1], []);
        assert z[..|z| - 1] + [] == z[..|z| - 1];
      }
    } else {
      LeadingZerosAddNothing(z, s[..|s| - 1]);
      assert (z + s)[..|z + s| - 1] == z + s[..|s| - 1];
    }
  }

  lemma FieldValue(n: nat)
    ensures AllDigits(Field(n)) && DigitsValue(Field(n)) == n
  {
    var d := Digits(n);
    var f := Field(n);
    assert f == PadStart2(d);
    var z := f[..|f| - |d|];
    assert f[|f| - |d|..] == d;
    assert f == z + f[|f| - |d|..];
    assert f == z + d;
    LeadingZerosAddNothing(z, d);
    DigitsValueOfDigits(n);
  }

  /**
   * Reading an HH:MM:SS text back: at least two digits of hours, then
   * exactly two of minutes and two of seconds.
   */
  function ClockFields(t: string): Option<(int, int, int)> {
    if |t| < 8 || t[|t| - 6] != ':' || t[|t| - 3] != ':' then None
    else
      var hh, mm, ss := t[..|t| - 6], t[|t| - 5..|t| - 3], t[|t| - 2..];
      if AllDigits(hh) && AllDigits(mm) && AllDigits(ss)
      then Some((DigitsValue(hh), DigitsValue(mm), DigitsValue(ss)))
      else None
  }

  /**
   * formatTime loses nothing on a non-negative input: its text reads back
   * as the three parts, minutes and seconds always take two digits and the
   * hours at least two, however many hours there are.
   */
  lemma FormatTimeReadsBack(seconds: real)
    requires seconds >= 0.0
    ensures ClockFields(FormatTime(seconds)) == Some(TimeParts(seconds))
  {
    TimePartsSplit(seconds);
    var (h, m, s) := TimeParts(seconds);
    FieldsReadBack(h, m, s);
  }

  lemma FieldsReadBack(h: nat, m: nat, s: nat)
    requires m < 60 && s < 60
    ensures ClockFields(Field(h) + ":" + Field(m) + ":" + Field(s)) == Some((h, m, s))
  {
    FieldValue(h);
    FieldValue(m);
    FieldValue(s);
    assert |Field(m)| == 2 && |Field(s)| == 2 && |Field(h)| >= 2;
    SplitAtColons(Field(h), Field(m), Field(s));
  }

  lemma SplitAtColons(a: string, b: string, c: string)
    requires |a| >= 2 && |b| == 2 && |c| == 2
    ensures var t := a + ":" + b + ":" + c;
      && |t| >= 8 && t[|t| - 6] == ':' && t[|t| - 3] == ':'
      && t[..|t| - 6] == a && t[|t| - 5..|t| - 3] == b && t[|t| - 2..] == c
  {
  }

  /** A duration in milliseconds as the seconds handed to formatTime (`ms / 1000`). */
  function Seconds(ms: int): (x: real)
    ensures ms >= 0 ==> x >= 0.0
  {
    ms as real / 1000.0
  }

  /**
   * The parts formatTime prints for `ms` milliseconds split its whole
   * seconds into hours, minutes below 60 and seconds below 60.
   */
  predicate SplitsMillis(ms: nat) {
    var (h, m, s) := TimeParts(Seconds(ms));
    0 <= m < 60 && 0 <= s < 60 && h * 3600 + m * 60 + s == ms / 1000
  }

  lemma MillisParts(ms: nat)
    ensures SplitsMillis(ms)
  {
    var x := Seconds(ms);
    TimePartsSplit(x);
    FloorOfQuotient(ms as real, 1000);
    assert x.Floor == ms / 1000;
  }

  /** `t` reads back as the parts formatTime prints for `ms` milliseconds. */
  predicate ShowsMillis(t: string, ms: nat) {
    ClockFields(t) == Some(TimeParts(Seconds(ms))) && SplitsMillis(ms)
  }

  /** A duration printed as seconds reads back as the whole seconds it holds. */
  lemma FormatMillis(ms: nat)
    ensures ShowsMillis(FormatTime(Seconds(ms)), ms)
  {
    FormatTimeReadsBack(Seconds(ms));
    MillisParts(ms);
  }

  /** A worked example: an hour, two minutes and five and a half seconds. */
  lemma FormatTimeExample()
    ensures FormatTime(3725.5) == "01:02:05"
  {
    assert TimeParts(3725.5) == (1, 2, 5);
  }
}

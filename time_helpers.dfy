/**
 * The planner's clock arithmetic: hour/minute pairs, minutes since midnight,
 * and the 12-hour "h:mm AM" label shown on every task block.
 *
 * JavaScript's `%` truncates toward zero while Dafny's is Euclidean, so the
 * source's remainder is written out as `JsRem`; `Math.floor(t / 60)` is
 * Dafny's `t / 60`, because the divisor is positive.
 */
module TimeHelpers {
  import opened Options

  /** The object `{ h, m }` that `fromMins` returns. */
  datatype HourMinute = HourMinute(h: int, m: int)

  /** JavaScript's `a % n` for a positive divisor: the remainder has the sign of `a`. */
  function JsRem(a: int, n: int): (r: int)
    requires n > 0
    ensures -n < r < n
    ensures r == a % n || r == a % n - n
    ensures a >= 0 ==> r >= 0
    ensures a <= 0 ==> r <= 0
  {
    if a >= 0 || a % n == 0 then a % n else a % n - n
  }

  /** `toMins`: minutes since midnight of an hour and a minute. */
  function ToMins(h: int, m: int): (t: int)
    ensures 0 <= h && 0 <= m < 60 ==> FromMins(t) == HourMinute(h, m)
  {
    h * 60 + m
  }

  /** `fromMins`: the hour and minute of a minute count. */
  function FromMins(totalMins: int): (r: HourMinute)
    ensures totalMins >= 0 ==> 0 <= r.h && 0 <= r.m < 60 && r.h * 60 + r.m == totalMins
  {
    HourMinute(totalMins / 60, JsRem(totalMins, 60))
  }

  // ---------------------------------------------------------------------
  // Decimal text, as `Number.prototype.toString` writes an integer

  predicate IsDigit(c: char) { '0' <= c <= '9' }

  predicate AllDigits(s: string) { forall i :: 0 <= i < |s| ==> IsDigit(s[i]) }

  function Digit(d: int): (c: char)
    requires 0 <= d < 10
    ensures IsDigit(c) && c as int - '0' as int == d
  {
    (d + '0' as int) as char
  }

  /** The decimal numeral of a natural number, without leading zeros. */
  function NatToDecimal(n: nat): (s: string)
    ensures |s| >= 1 && AllDigits(s)
    ensures n < 10 <==> |s| == 1
    ensures n < 100 ==> |s| <= 2
    ensures s[0] == '0' ==> n == 0
  {
    if n < 10 then [Digit(n)] else NatToDecimal(n / 10) + [Digit(n % 10)]
  }

  /** The value of a string of decimal digits; the inverse of NatToDecimal. */
  function DecimalValue(s: string): (n: nat)
    requires AllDigits(s)
    ensures |s| == 1 ==> n < 10
    ensures |s| == 2 ==> n < 100
  {
    if s == [] then 0 else DecimalValue(s[..|s| - 1]) * 10 + (s[|s| - 1] as int - '0' as int)
  }

  function IntToString(n: int): string
  {
    if n < 0 then "-" + NatToDecimal(-n) else NatToDecimal(n)
  }

  /** `String.prototype.padStart(width, fill)` with a one-character fill. */
  function PadStart(s: string, width: nat, fill: char): (r: string)
    ensures |r| == if |s| >= width then |s| else width
    ensures r[|r| - |s|..] == s
    ensures forall i :: 0 <= i < |r| - |s| ==> r[i] == fill
  {
    if |s| >= width then s else seq(width - |s|, _ => fill) + s
  }

  // ---------------------------------------------------------------------
  // formatTime

  /** The hour shown by `formatTime`: `h % 12 || 12`. */
  function ClockHour(h: int): (r: int)
    ensures h >= 0 ==> 1 <= r <= 12 && r % 12 == h % 12
  {
    if JsRem(h, 12) == 0 then 12 else JsRem(h, 12)
  }

  /** `formatTime`: a minute count as `h:mm AM` or `h:mm PM`. */
  function FormatTime(totalMins: int): (s: string)
    ensures |s| >= 7
  {
    var h := totalMins / 60;
    var m := JsRem(totalMins, 60);
    var ampm := if h >= 12 then "PM" else "AM";
    Label(IntToString(ClockHour(h)), PadStart(IntToString(m), 2, '0'), ampm)
  }

  /** The template literal `${h}:${mm} ${ampm}`. */
  function Label(hour: string, minutes: string, suffix: string): string
  {
    hour + ":" + minutes + " " + suffix
  }

  /** The fields of a label `h:mm AM`, counted from its end. */
  function HourField(s: string): string requires |s| >= 6 { s[..|s| - 6] }
  function MinuteField(s: string): string requires |s| >= 6 { s[|s| - 5..|s| - 3] }
  function SuffixField(s: string): string requires |s| >= 6 { s[|s| - 2..] }

  /** A label's layout: a 1- or 2-digit hour without a leading zero, a colon, two digits, a space, a suffix. */
  predicate WellFormedLabel(s: string)
  {
    && 7 <= |s| <= 8
    && s[|s| - 6] == ':' && s[|s| - 3] == ' '
    && AllDigits(HourField(s)) && s[0] != '0'
    && AllDigits(MinuteField(s))
  }

  /**
   * Reads a label back into minutes since midnight: `h:mm AM` or `h:mm PM`
   * with h in 1..12 and mm in 00..59.  This is a reference for what
   * `formatTime` writes; the application never parses its labels.
   */
  function ParseTime(s: string): (r: Option<int>)
    ensures r.Some? ==> 0 <= r.value < 1440
  {
    if !WellFormedLabel(s) then None
    else
      var h12, m := DecimalValue(HourField(s)), DecimalValue(MinuteField(s));
      if h12 < 1 || 12 < h12 || 60 <= m then None
      else if SuffixField(s) == "AM" then Some((h12 % 12) * 60 + m)
      else if SuffixField(s) == "PM" then Some((h12 % 12 + 12) * 60 + m)
      else None
  }

  // ---------------------------------------------------------------------
  // Lemmas

  lemma {:induction false} DecimalRoundTrip(n: nat)
    ensures DecimalValue(NatToDecimal(n)) == n
  {
    var s := NatToDecimal(n);
    if n >= 10 {
      var prefix := NatToDecimal(n / 10);
      assert s[..|s| - 1] == prefix;
      DecimalRoundTrip(n / 10);
    }
  }

  /** The two-digit minute field of a label, for a minute in 0..59. */
  lemma PaddedMinutes(m: int)
    requires 0 <= m < 60
    ensures var p := PadStart(IntToString(m), 2, '0');
      |p| == 2 && AllDigits(p) && DecimalValue(p) == m
  {
    var text := NatToDecimal(m);
    var p := PadStart(text, 2, '0');
    DecimalRoundTrip(m);
    if |text| == 1 {
      assert p == ['0'] + text;
      assert p[..1] == ['0'];
      assert DecimalValue(p[..1]) == 0;
    }
  }

  /** A label built from a 1- or 2-digit hour without a leading zero, two minute digits and a two-letter suffix. */
  lemma LabelShape(hour: string, minutes: string, suffix: string)
    requires 1 <= |hour| <= 2 && AllDigits(hour) && hour[0] != '0'
    requires |minutes| == 2 && AllDigits(minutes) && |suffix| == 2
    ensures var s := Label(hour, minutes, suffix);
      && WellFormedLabel(s)
      && HourField(s) == hour && MinuteField(s) == minutes && SuffixField(s) == suffix
  {
    var s := Label(hour, minutes, suffix);
    assert HourField(s) == hour;
    assert MinuteField(s) == minutes;
    assert SuffixField(s) == suffix;
    assert s[0] == hour[0];
  }

  /**
   * What a label says, for any non-negative minute count: the hour before the
   * colon is in 1..12 with no leading zero, the minutes are padded to exactly
   * two digits, and the suffix is AM exactly when the hour of day is below 12.
   */
  lemma FormatTimeShape(t: int)
    requires t >= 0
    ensures WellFormedLabel(FormatTime(t))
    ensures DecimalValue(HourField(FormatTime(t))) == ClockHour(t / 60) && 1 <= ClockHour(t / 60) <= 12
    ensures DecimalValue(MinuteField(FormatTime(t))) == t % 60
    ensures SuffixField(FormatTime(t)) == if t / 60 < 12 then "AM" else "PM"
  {
    var hour := ClockHour(t / 60);
    var hourText := NatToDecimal(hour);
    var padded := PadStart(IntToString(t % 60), 2, '0');
    var suffix := if t / 60 >= 12 then "PM" else "AM";
    assert FormatTime(t) == Label(hourText, padded, suffix);
    DecimalRoundTrip(hour);
    PaddedMinutes(t % 60);
    LabelShape(hourText, padded, suffix);
  }

  lemma ParseFields(s: string, hour: int, minute: int)
    requires WellFormedLabel(s)
    requires DecimalValue(HourField(s)) == hour && DecimalValue(MinuteField(s)) == minute
    requires 1 <= hour <= 12 && 0 <= minute < 60
    ensures SuffixField(s) == "AM" ==> ParseTime(s) == Some((hour % 12) * 60 + minute)
    ensures SuffixField(s) == "PM" ==> ParseTime(s) == Some((hour % 12 + 12) * 60 + minute)
  {
  }

  /** A well-formed label whose fields agree with a minute count of the day reads back as that count. */
  lemma ParseAgrees(s: string, t: int)
    requires 0 <= t < 1440
    requires WellFormedLabel(s)
    requires DecimalValue(HourField(s)) == ClockHour(t / 60) && 1 <= ClockHour(t / 60) <= 12
    requires DecimalValue(MinuteField(s)) == t % 60
    requires SuffixField(s) == if t / 60 < 12 then "AM" else "PM"
    ensures ParseTime(s) == Some(t)
  {
    var h, m := t / 60, t % 60;
    var h12 := ClockHour(h);
    ParseFields(s, h12, m);
    if h < 12 {
      assert h12 % 12 == h;
    } else {
      assert h12 % 12 + 12 == h;
    }
  }

  /** Within one day, a label determines the minute count it was written from. */
  lemma FormatTimeRoundTrip(t: int)
    requires 0 <= t < 1440
    ensures ParseTime(FormatTime(t)) == Some(t)
  {
    FormatTimeShape(t);
    ParseAgrees(FormatTime(t), t);
  }
}

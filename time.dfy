/** src/time.ts: millisecond/second conversion and the `HH:MM` clock format.
    Times of day are whole milliseconds here; the clock read
    `currentDayOffset` is not part of the model. */
module Time {

  const MILLISECOND: int := 1
  const SECOND: int := MILLISECOND * 1000
  const MINUTE: int := SECOND * 60
  const HOUR: int := MINUTE * 60
  const DAY: int := HOUR * 24

  /** `asSeconds` divides milliseconds by SECOND. */
  function AsSeconds(a: real): (r: real)
    ensures r * 1000.0 == a
  {
    a / SECOND as real
  }

  /** `fromSeconds` multiplies seconds by SECOND. */
  function FromSeconds(a: real): (r: real)
    ensures r / 1000.0 == a
  {
    a * SECOND as real
  }

  lemma SecondsRoundTrip(x: real)
    ensures AsSeconds(FromSeconds(x)) == x
    ensures FromSeconds(AsSeconds(x)) == x
  {
  }

  /** JavaScript's `%` truncates toward zero: the remainder takes the sign of
      the dividend (Dafny's own `%` never returns a negative value). */
  function JsRemainder(a: int, b: int): (r: int)
    requires b > 0
    ensures a >= 0 ==> r == a % b
    ensures a >= 0 ==> 0 <= r < b
    ensures a < 0 ==> -b < r <= 0
    ensures (a - r) % b == 0
  {
    if a >= 0 then
      DivModOf(a - a % b, a / b, b, 0);
      a % b
    else
      DivModOf(a + (-a) % b, -((-a) / b), b, 0);
      -((-a) % b)
  }

  /** The decimal digit character for 0..9. */
  function DigitChar(d: int): (c: char)
    requires 0 <= d < 10
    ensures '0' <= c <= '9'
    ensures c as int - '0' as int == d
  {
    (d + '0' as int) as char
  }

  /** The number a string of decimal digits spells, most significant first. */
  function DecimalValue(s: string): int
  {
    if |s| == 0 then 0 else DecimalValue(s[..|s| - 1]) * 10 + DigitValue(s[|s| - 1])
  }

  /** `Number.prototype.toString(10)` of a non-negative integer: digits that
      spell `n`, without leading zeros. */
  function NatToDecimal(n: nat): (s: string)
    ensures 1 <= |s|
    ensures forall i :: 0 <= i < |s| ==> '0' <= s[i] <= '9'
    ensures DecimalValue(s) == n
    ensures |s| > 1 ==> s[0] != '0'
    decreases n
  {
    if n < 10 then
      assert [DigitChar(n)][..0] == [];
      [DigitChar(n)]
    else
      var front := NatToDecimal(n / 10);
      assert (front + [DigitChar(n % 10)])[..|front|] == front;
      assert |front| == 1 ==> front[..0] == [];
      front + [DigitChar(n % 10)]
  }

  /** `toString(10)` of an integer: a minus sign in front of the digits of
      its magnitude when it is negative. */
  function IntToDecimal(n: int): (s: string)
    ensures |s| >= 1
    ensures (s[0] == '-') <==> n < 0
    ensures n >= 0 ==> DecimalValue(s) == n
    ensures n < 0 ==> |s| >= 2 && DecimalValue(s[1..]) == -n
    ensures forall i :: (if n < 0 then 1 else 0) <= i < |s| ==> '0' <= s[i] <= '9'
  {
    if n < 0 then
      assert ("-" + NatToDecimal(-n))[1..] == NatToDecimal(-n);
      "-" + NatToDecimal(-n)
    else NatToDecimal(n)
  }

  /** `padStart(width, c)` with a one-character pad. */
  function PadStart(s: string, width: nat, c: char): (r: string)
    ensures |r| == if |s| >= width then |s| else width
    ensures r[|r| - |s|..] == s
    ensures forall i :: 0 <= i < |r| - |s| ==> r[i] == c
  {
    if |s| >= width then s else seq(width - |s|, _ => c) + s
  }

  /** The whole hours of `formatDaySeconds`: floor of the remainder in the day over HOUR. */
  function DayHours(ms: int): (h: int)
    ensures ms >= 0 ==> 0 <= h < 24 && h * HOUR <= ms % DAY < (h + 1) * HOUR
    ensures ms < 0 ==> -24 <= h <= 0
  {
    JsRemainder(ms, DAY) / HOUR
  }

  /** The whole minutes of `formatDaySeconds`, taken from what is left of the hour. */
  function HourMinutes(ms: int): (m: int)
    ensures ms >= 0 ==> 0 <= m < 60 && m * MINUTE <= ms % DAY - DayHours(ms) * HOUR < (m + 1) * MINUTE
  {
    (JsRemainder(ms, DAY) - DayHours(ms) * HOUR) / MINUTE
  }

  /** `formatDaySeconds`: for a time that is not negative, two digits of the
      hour, a colon and two digits of the minute. */
  function FormatDaySeconds(ms: int): (s: string)
    ensures ms >= 0 ==>
      && |s| == 5 && s[2] == ':'
      && DigitValue(s[0]) * 10 + DigitValue(s[1]) == DayHours(ms)
      && DigitValue(s[3]) * 10 + DigitValue(s[4]) == HourMinutes(ms)
  {
    var clock := PadStart(IntToDecimal(DayHours(ms)), 2, '0') + ":" + PadStart(IntToDecimal(HourMinutes(ms)), 2, '0');
    if ms >= 0 then ClockText(DayHours(ms), HourMinutes(ms)); clock else clock
  }

  /** The digit a decimal character stands for. */
  function DigitValue(c: char): int
  {
    c as int - '0' as int
  }

  /** A number below one hundred is printed as exactly two digits. */
  lemma TwoDigits(n: int)
    requires 0 <= n < 100
    ensures PadStart(IntToDecimal(n), 2, '0') == [DigitChar(n / 10), DigitChar(n % 10)]
  {
    if n >= 10 {
      assert NatToDecimal(n) == NatToDecimal(n / 10) + [DigitChar(n % 10)];
    }
  }

  /** For a time that is not negative the clock reads a valid hour and minute. */
  lemma ClockFieldsInRange(ms: int)
    requires ms >= 0
    ensures 0 <= DayHours(ms) <= 23
    ensures 0 <= HourMinutes(ms) <= 59
  {
    ClockOfMinute(ms);
  }

  /** For a time that is not negative the output is `HH:MM`: five characters
      whose digit pairs read back as the hour and the minute of the day. */
  lemma {:induction false} FormatIsClock(ms: int)
    requires ms >= 0
    ensures |FormatDaySeconds(ms)| == 5 && FormatDaySeconds(ms)[2] == ':'
    ensures forall i :: 0 <= i < 5 && i != 2 ==> '0' <= FormatDaySeconds(ms)[i] <= '9'
    ensures DigitValue(FormatDaySeconds(ms)[0]) * 10 + DigitValue(FormatDaySeconds(ms)[1]) == (ms % DAY) / HOUR
    ensures DigitValue(FormatDaySeconds(ms)[3]) * 10 + DigitValue(FormatDaySeconds(ms)[4]) == (ms % HOUR) / MINUTE
  {
    ClockOfMinute(ms);
    ClockText(DayHours(ms), HourMinutes(ms));
  }

  /** Two numbers below one hundred printed as `HH:MM` read back as themselves. */
  lemma ClockText(h: int, m: int)
    requires 0 <= h < 100 && 0 <= m < 100
    ensures var r := PadStart(IntToDecimal(h), 2, '0') + ":" + PadStart(IntToDecimal(m), 2, '0');
      && |r| == 5 && r[2] == ':'
      && (forall i :: 0 <= i < 5 && i != 2 ==> '0' <= r[i] <= '9')
      && DigitValue(r[0]) * 10 + DigitValue(r[1]) == h
      && DigitValue(r[3]) * 10 + DigitValue(r[4]) == m
  {
    TwoDigits(h);
    TwoDigits(m);
    ClockChars(PadStart(IntToDecimal(h), 2, '0'), PadStart(IntToDecimal(m), 2, '0'), h, m);
  }

  /** Two digit pairs around a colon read back as the numbers they print. */
  lemma ClockChars(hh: string, mm: string, h: int, m: int)
    requires 0 <= h < 100 && 0 <= m < 100
    requires hh == [DigitChar(h / 10), DigitChar(h % 10)] && mm == [DigitChar(m / 10), DigitChar(m % 10)]
    ensures var r := hh + ":" + mm;
      && |r| == 5 && r[2] == ':'
      && (forall i :: 0 <= i < 5 && i != 2 ==> '0' <= r[i] <= '9')
      && DigitValue(r[0]) * 10 + DigitValue(r[1]) == h
      && DigitValue(r[3]) * 10 + DigitValue(r[4]) == m
  {
    var r := hh + ":" + mm;
    assert r[0] == hh[0] && r[1] == hh[1] && r[2] == ':' && r[3] == mm[0] && r[4] == mm[1];
  }

  /** The minutes shown are the whole minutes left over from the hour. */
  lemma MinutesOfHour(ms: int)
    requires ms >= 0
    ensures HourMinutes(ms) == (ms % HOUR) / MINUTE
  {
    ClockOfMinute(ms);
  }

  /** The clock wraps around once a day. */
  lemma FormatIsDaily(ms: int)
    requires ms >= 0
    ensures FormatDaySeconds(ms + DAY) == FormatDaySeconds(ms)
  {
    NextDaySameMinute(ms);
    SameMinuteSameClock(ms + DAY, ms);
  }

  lemma NextDaySameMinute(ms: int)
    requires ms >= 0
    ensures ((ms + DAY) / MINUTE) % 1440 == (ms / MINUTE) % 1440
  {
    var q, s := ms / 60000, ms % 60000;
    DivModOf(ms + DAY, q + 1440, 60000, s);
    DivModOf(q + 1440, q / 1440 + 1, 1440, q % 1440);
  }

  /** Seconds are truncated: staying inside the same minute keeps the output. */
  lemma FormatTruncatesSeconds(ms: int, extra: int)
    requires ms >= 0 && extra >= 0 && ms % MINUTE + extra < MINUTE
    ensures FormatDaySeconds(ms + extra) == FormatDaySeconds(ms)
  {
    LaterSameMinute(ms, extra);
    SameMinuteSameClock(ms + extra, ms);
  }

  lemma LaterSameMinute(ms: int, extra: int)
    requires ms >= 0 && extra >= 0 && ms % MINUTE + extra < MINUTE
    ensures (ms + extra) / MINUTE == ms / MINUTE
  {
    DivModOf(ms + extra, ms / MINUTE, MINUTE, ms % MINUTE + extra);
  }

  /** Two times in the same minute of the day print alike. */
  lemma SameMinuteSameClock(a: int, b: int)
    requires a >= 0 && b >= 0
    requires (a / MINUTE) % 1440 == (b / MINUTE) % 1440
    ensures FormatDaySeconds(a) == FormatDaySeconds(b)
  {
    SameMinuteSameFields(a, b);
  }

  lemma SameMinuteSameFields(a: int, b: int)
    requires a >= 0 && b >= 0
    requires (a / MINUTE) % 1440 == (b / MINUTE) % 1440
    ensures DayHours(a) == DayHours(b) && HourMinutes(a) == HourMinutes(b)
  {
    var md := (a / MINUTE) % 1440;
    ClockOfMinute(a);
    assert DayHours(a) == md / 60 && HourMinutes(a) == md % 60;
    ClockOfMinute(b);
    assert DayHours(b) == md / 60 && HourMinutes(b) == md % 60;
  }

  /** Hours and minutes depend only on the whole minutes elapsed, and they
      are the hour of the day and the minute of the hour. */
  lemma ClockOfMinute(ms: int)
    requires ms >= 0
    ensures DayHours(ms) == (ms / MINUTE) % 1440 / 60 == (ms % DAY) / HOUR
    ensures HourMinutes(ms) == (ms / MINUTE) % 1440 % 60 == (ms / MINUTE) % 60 == (ms % HOUR) / MINUTE
    ensures 0 <= DayHours(ms) < 24 && 0 <= HourMinutes(ms) < 60
  {
    var q, s := ms / 60000, ms % 60000;
    var c, b := q / 1440, q % 1440;
    var h, m := b / 60, b % 60;
    DivModOf(ms, c, 86400000, h * 3600000 + m * 60000 + s);
    DivModOf(ms, c * 24 + h, 3600000, m * 60000 + s);
    DivModOf(h * 3600000 + m * 60000 + s, h, 3600000, m * 60000 + s);
    DivModOf(m * 60000 + s, m, 60000, s);
    DivModOf(q, c * 24 + h, 60, m);
  }

  /** `x` split as `c` whole `n`s and a remainder `r` in `[0, n)` is what
      division and remainder return. */
  lemma DivModOf(x: int, c: int, n: int, r: int)
    requires n > 0 && 0 <= r < n && x == c * n + r
    ensures x / n == c && x % n == r
  {
    var q, rest := x / n, x % n;
    assert x == q * n + rest;
    assert (q - c) * n == r - rest;
    assert (c - q) * n == rest - r;
    if q > c {
      MulAtLeast(q - c, n);
    } else if q < c {
      MulAtLeast(c - q, n);
    }
  }

  lemma MulAtLeast(k: int, n: int)
    requires k >= 1 && n > 0
    ensures k * n >= n
  {
  }
}

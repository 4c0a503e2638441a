// `TimerScreen`'s decisions over the view model's fields: the countdown text,
// its colour, the progress indicator's colour, which buttons are shown and
// enabled, and the number pickers that produce the selection.
module TimerScreen {
  import opened Numeric
  import opened Decimal
  import opened TimeFormat
  import Timer

  const HOUR_MAX: nat := 99
  /** `NumberPickerWrapper`'s default `maxVal`, used for minutes and seconds. */
  const MINUTE_SECOND_MAX: nat := 59
  const LAST_SECONDS_MILLIS: nat := 10_000
  const WARNING_MILLIS: nat := 30_000

  /** The values the three number pickers can show. */
  predicate InPickerRange(h: int, m: int, s: int) {
    0 <= h <= HOUR_MAX && 0 <= m <= MINUTE_SECOND_MAX && 0 <= s <= MINUTE_SECOND_MAX
  }

  /** From the pickers, the `Int` sum cannot wrap, and the total is at most 99:59:59. */
  lemma PickerTotalFits(h: Int32, m: Int32, s: Int32)
    requires InPickerRange(h, m, s)
    ensures h * 3600 + m * 60 + s <= 359_999
    ensures Timer.ComposedTotal(h, m, s) == (h * 3600 + m * 60 + s) * 1000
    ensures 0 <= Timer.ComposedTotal(h, m, s) <= 359_999_000
  {
  }

  /** Outside the pickers' range the `Int` sum does wrap: 596 524 hours compose to a negative total. */
  lemma ComposedTotalWraps()
    ensures Timer.ComposedTotal(596_524, 0, 0) < 0
  {
  }

  /**
   * The countdown text: `"%02d:%02d:%02d"` of `inWholeHours`, `inWholeMinutes % 60`
   * and `inWholeSeconds % 60` of the remaining `Duration`.
   */
  function DisplayText(remaining: nat): string {
    Pad2(remaining / 3_600_000) + ":" + Pad2((remaining / 60_000) % 60) + ":" + Pad2((remaining / 1000) % 60)
  }

  /** The screen and the background worker print the same remaining time the same way. */
  lemma DisplayTextIsFormatTime(remaining: nat)
    ensures DisplayText(remaining) == FormatTime(remaining)
  {
    var c := ClockOf(remaining);
    assert (remaining / 60_000) % 60 == c.minutes by {
      DivMod(remaining, 60_000, 60);
    }
    assert (remaining / 1000) % 60 == c.seconds by {
      DivMod(remaining, 1000, 60);
    }
  }

  /** (t / a) % b == (t % (a * b)) / a. */
  lemma DivMod(t: nat, a: nat, b: nat)
    requires a > 0 && b > 0
    ensures (t / a) % b == (t % (a * b)) / a
  {
    var q: int, r: int := t / a, t % a;
    var qq: int, qr: int := q / b, q % b;
    var ab: int := a * b;
    var low: int := qr * a + r;
    assert t == qq * ab + low by { Regroup(t, a, b, q, r, qq, qr); }
    assert 0 <= low < ab by { BelowProduct(a, b, qr, r); }
    assert t % ab == low by { ModUnique(t, ab, qq, low); }
    DivUnique(low, a, qr, r);
  }

  lemma Regroup(t: int, a: int, b: int, q: int, r: int, qq: int, qr: int)
    requires t == q * a + r && q == qq * b + qr
    ensures t == qq * (a * b) + (qr * a + r)
  {
    assert q * a == qq * b * a + qr * a;
  }

  lemma BelowProduct(a: int, b: int, qr: int, r: int)
    requires 0 <= qr < b && 0 <= r < a
    ensures 0 <= qr * a + r < a * b
  {
    assert qr * a <= (b - 1) * a;
  }

  lemma DivUnique(x: nat, n: nat, k: int, b: int)
    requires n > 0 && 0 <= b < n && x == k * n + b
    ensures x / n == k
  {
    ModUnique(x, n, k, b);
    assert x == (x / n) * n + b;
    assert (x / n - k) * n == 0;
  }

  datatype TextColor = Red | Black
  datatype Weight = Bold | Normal
  datatype IndicatorColor = IndicatorRed | Orange | Blue

  /** The countdown text's colour and weight. */
  function CountdownStyle(remaining: int): (TextColor, Weight) {
    var isLastTenSeconds := remaining <= LAST_SECONDS_MILLIS;
    (if isLastTenSeconds then Red else Black, if isLastTenSeconds then Bold else Normal)
  }

  /** The progress indicator, shown only while running, and its colour. */
  function Indicator(isRunning: bool, remaining: int): Option<IndicatorColor> {
    if !isRunning then None
    else if remaining <= LAST_SECONDS_MILLIS then Some(IndicatorRed)
    else if remaining <= WARNING_MILLIS then Some(Orange)
    else Some(Blue)
  }

  /** The text turns red and bold in the last ten seconds, and also when idle at zero. */
  lemma CountdownStyleThreshold(remaining: int)
    ensures CountdownStyle(remaining).0 == Red <==> remaining <= 10_000
    ensures CountdownStyle(remaining).1 == Bold <==> CountdownStyle(remaining).0 == Red
    ensures CountdownStyle(0) == (Red, Bold)
  {
  }

  /** While running, exactly one colour band applies, and the indicator is red exactly when the text is. */
  lemma IndicatorBands(isRunning: bool, remaining: int)
    ensures Indicator(isRunning, remaining).Some? <==> isRunning
    ensures isRunning ==>
      && (Indicator(isRunning, remaining) == Some(IndicatorRed) <==> remaining <= 10_000)
      && (Indicator(isRunning, remaining) == Some(Orange) <==> 10_000 < remaining <= 30_000)
      && (Indicator(isRunning, remaining) == Some(Blue) <==> 30_000 < remaining)
      && (Indicator(isRunning, remaining) == Some(IndicatorRed) <==> CountdownStyle(remaining).0 == Red)
  {
  }

  /** Start is enabled when the `Int` sum of the picked hours, minutes and seconds is positive. */
  predicate StartEnabled(h: Int32, m: Int32, s: Int32) {
    Wrap32(h + m + s) > 0
  }

  /** For picker values, Start is enabled exactly when `startTimer` would find a positive total. */
  lemma StartEnabledIffPositiveTotal(h: Int32, m: Int32, s: Int32)
    requires InPickerRange(h, m, s)
    ensures StartEnabled(h, m, s) <==> h + m + s > 0
    ensures StartEnabled(h, m, s) <==> Timer.ComposedTotal(h, m, s) > 0
  {
    PickerTotalFits(h, m, s);
  }

  /**
   * Outside the pickers' range the `Int` sum wraps both ways: `Int.MAX_VALUE`
   * hours and one minute disable Start, and a selection whose total wraps
   * negative enables a Start that `startTimer` ignores.
   */
  lemma StartEnabledWraps()
    ensures !StartEnabled(INT32_MAX, 1, 0)
    ensures StartEnabled(596_524, 0, 0) && Timer.ComposedTotal(596_524, 0, 0) <= 0
  {
  }

  datatype Button = PauseButton | ResumeButton | CancelButton | StartButton(enabled: bool)
  datatype Command = PauseTimer | StartTimer | CancelTimer

  /** The view-model operation each button's `onClick` invokes. */
  function Handler(b: Button): Command {
    match b
    case PauseButton => PauseTimer
    case ResumeButton => StartTimer
    case CancelButton => CancelTimer
    case StartButton(_) => StartTimer
  }

  predicate Clickable(b: Button) {
    !b.StartButton? || b.enabled
  }

  /** The control row, left to right. */
  function Buttons(isRunning: bool, isPaused: bool, h: Int32, m: Int32, s: Int32): seq<Button> {
    if isRunning then
      (if !isPaused then [PauseButton] else [ResumeButton]) + [CancelButton]
    else
      [StartButton(StartEnabled(h, m, s))]
  }

  /** The screen offers `startTimer` only while idle or paused, which is `StartTimer`'s precondition. */
  lemma StartOnlyWhenIdleOrPaused(isRunning: bool, isPaused: bool, h: Int32, m: Int32, s: Int32, i: nat)
    requires i < |Buttons(isRunning, isPaused, h, m, s)|
    requires Clickable(Buttons(isRunning, isPaused, h, m, s)[i])
    requires Handler(Buttons(isRunning, isPaused, h, m, s)[i]) == StartTimer
    ensures !isRunning || isPaused
    ensures !isRunning ==> StartEnabled(h, m, s)
  {
  }

  /**
   * Every clickable button does something: Pause appears exactly when `pauseTimer`
   * acts, Cancel exactly when `cancelTimer` acts, and a clickable Start from picker
   * values always starts a countdown.
   */
  lemma ButtonsMatchGuards(isRunning: bool, isPaused: bool, h: Int32, m: Int32, s: Int32)
    requires InPickerRange(h, m, s)
    ensures PauseButton in Buttons(isRunning, isPaused, h, m, s) <==> isRunning && !isPaused
    ensures ResumeButton in Buttons(isRunning, isPaused, h, m, s) <==> isRunning && isPaused
    ensures CancelButton in Buttons(isRunning, isPaused, h, m, s) <==> isRunning
    ensures StartButton(true) in Buttons(isRunning, isPaused, h, m, s) <==>
      !isRunning && Timer.ComposedTotal(h, m, s) > 0
  {
    StartEnabledIffPositiveTotal(h, m, s);
  }

  /**
   * `TimePicker`'s own state: the last value of each column. Each column's
   * listener updates its value and then reports all three.
   */
  class TimePicker {
    var hourVal: Int32
    var minVal: Int32
    var secVal: Int32

    ghost predicate Valid()
      reads this
    {
      InPickerRange(hourVal, minVal, secVal)
    }

    constructor (hour: Int32, min: Int32, sec: Int32)
      requires InPickerRange(hour, min, sec)
      ensures Valid()
      ensures hourVal == hour && minVal == min && secVal == sec
    {
      hourVal, minVal, secVal := hour, min, sec;
    }

    method PickHour(v: Int32) returns (hour: Int32, min: Int32, sec: Int32)
      requires Valid() && 0 <= v <= HOUR_MAX
      modifies this`hourVal
      ensures Valid()
      ensures hourVal == v && (hour, min, sec) == (hourVal, minVal, secVal)
    {
      hourVal := v;
      hour, min, sec := hourVal, minVal, secVal;
    }

    method PickMinute(v: Int32) returns (hour: Int32, min: Int32, sec: Int32)
      requires Valid() && 0 <= v <= MINUTE_SECOND_MAX
      modifies this`minVal
      ensures Valid()
      ensures minVal == v && (hour, min, sec) == (hourVal, minVal, secVal)
    {
      minVal := v;
      hour, min, sec := hourVal, minVal, secVal;
    }

    method PickSecond(v: Int32) returns (hour: Int32, min: Int32, sec: Int32)
      requires Valid() && 0 <= v <= MINUTE_SECOND_MAX
      modifies this`secVal
      ensures Valid()
      ensures secVal == v && (hour, min, sec) == (hourVal, minVal, secVal)
    {
      secVal := v;
      hour, min, sec := hourVal, minVal, secVal;
    }
  }
}

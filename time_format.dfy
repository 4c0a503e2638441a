// `TimerWorker.formatTime`: milliseconds rendered as `HH:MM:SS`, hours not
// reduced modulo 24, each field zero-padded to at least two digits.
module TimeFormat {
  import opened Decimal

  const MILLIS_PER_SECOND: nat := 1000
  const MILLIS_PER_MINUTE: nat := 60_000
  const MILLIS_PER_HOUR: nat := 3_600_000

  /** The three fields `formatTime` prints. */
  datatype Clock = Clock(hours: nat, minutes: nat, seconds: nat)

  /** Whole hours, then the minutes and seconds left over, of `t` milliseconds. */
  function ClockOf(t: nat): (c: Clock)
    ensures c.minutes < 60 && c.seconds < 60
  {
    Clock(t / MILLIS_PER_HOUR, (t % MILLIS_PER_HOUR) / MILLIS_PER_MINUTE, (t % MILLIS_PER_MINUTE) / MILLIS_PER_SECOND)
  }

  function ClockMillis(c: Clock): nat {
    c.hours * MILLIS_PER_HOUR + c.minutes * MILLIS_PER_MINUTE + c.seconds * MILLIS_PER_SECOND
  }

  /** The fields account for every whole second of `t`: only the sub-second part is dropped. */
  lemma ClockOfReconstructs(t: nat)
    ensures ClockMillis(ClockOf(t)) + t % MILLIS_PER_SECOND == t
  {
    var c := ClockOf(t);
    var r := t % MILLIS_PER_HOUR;
    assert t == c.hours * MILLIS_PER_HOUR + r;
    assert r == c.minutes * MILLIS_PER_MINUTE + r % MILLIS_PER_MINUTE;
    assert t % MILLIS_PER_MINUTE == r % MILLIS_PER_MINUTE by {
      assert t == (c.hours * 60) * MILLIS_PER_MINUTE + r;
      ModAddMultiple(r, MILLIS_PER_MINUTE, c.hours * 60);
    }
    var u := t % MILLIS_PER_MINUTE;
    assert u == c.seconds * MILLIS_PER_SECOND + u % MILLIS_PER_SECOND;
    assert t % MILLIS_PER_SECOND == u % MILLIS_PER_SECOND by {
      assert t == (c.hours * 3600 + c.minutes * 60) * MILLIS_PER_SECOND + u;
      ModAddMultiple(u, MILLIS_PER_SECOND, c.hours * 3600 + c.minutes * 60);
    }
  }

  lemma ModAddMultiple(a: nat, n: nat, q: nat)
    requires n > 0
    ensures (q * n + a) % n == a % n
  {
    var b := a % n;
    assert a == (a / n) * n + b;
    assert q * n + a == (q + a / n) * n + b;
    ModUnique(q * n + a, n, q + a / n, b);
  }

  /** Division with remainder has one answer. */
  lemma ModUnique(x: nat, n: nat, k: int, b: int)
    requires n > 0 && 0 <= b < n && x == k * n + b
    ensures x % n == b
  {
    var q, r := x / n, x % n;
    assert x == q * n + r;
    assert (q - k) * n == b - r;
    if q - k >= 1 {
      assert false;
    } else if q - k <= -1 {
      assert false;
    }
  }

  /** Two instants in the same millisecond phase with the same fields are the same instant. */
  lemma ClockOfInjective(t1: nat, t2: nat)
    requires t1 % MILLIS_PER_SECOND == t2 % MILLIS_PER_SECOND
    requires ClockOf(t1) == ClockOf(t2)
    ensures t1 == t2
  {
    ClockOfReconstructs(t1);
    ClockOfReconstructs(t2);
  }

  function Render(c: Clock): string {
    Pad2(c.hours) + ":" + Pad2(c.minutes) + ":" + Pad2(c.seconds)
  }

  /** `formatTime(timeInMillis)` for a non-negative argument. */
  function FormatTime(t: nat): (s: string)
    ensures 8 <= |s|
    ensures t < 100 * MILLIS_PER_HOUR ==> |s| == 8
  {
    Render(ClockOf(t))
  }

  /** Reads `HH:MM:SS` back: the last two fields are exactly two digits, the first at least two. */
  function ParseClock(s: string): (r: Option<Clock>)
    ensures r.Some? ==> 8 <= |s| && s[|s| - 3] == ':' && s[|s| - 6] == ':'
  {
    var n := |s|;
    if n >= 8 && s[n - 3] == ':' && s[n - 6] == ':'
       && AllDigits(s[..n - 6]) && AllDigits(s[n - 5..n - 3]) && AllDigits(s[n - 2..])
    then Some(Clock(ValueOf(s[..n - 6]), ValueOf(s[n - 5..n - 3]), ValueOf(s[n - 2..])))
    else None
  }

  /** Parsing a rendered clock gives back its fields, when minutes and seconds fit two digits. */
  lemma ParseRender(c: Clock)
    requires c.minutes < 100 && c.seconds < 100
    ensures ParseClock(Render(c)) == Some(c)
  {
    var h, m, sec := Pad2(c.hours), Pad2(c.minutes), Pad2(c.seconds);
    var s := Render(c);
    var n := |s|;
    assert n == |h| + 6;
    assert s[..n - 6] == h;
    assert s[n - 5..n - 3] == m;
    assert s[n - 2..] == sec;
    assert s[n - 3] == ':' && s[n - 6] == ':';
  }

  /** `formatTime` loses nothing but the sub-second part: its text determines the fields. */
  lemma FormatTimeRoundTrip(t: nat)
    ensures ParseClock(FormatTime(t)) == Some(ClockOf(t))
  {
    ParseRender(ClockOf(t));
  }

  /** Two millisecond counts in the same phase print differently unless they are equal. */
  lemma FormatTimeInjective(t1: nat, t2: nat)
    requires t1 % MILLIS_PER_SECOND == t2 % MILLIS_PER_SECOND
    requires FormatTime(t1) == FormatTime(t2)
    ensures t1 == t2
  {
    FormatTimeRoundTrip(t1);
    FormatTimeRoundTrip(t2);
    ClockOfInjective(t1, t2);
  }

  lemma FormatTimeDistinct(t1: nat, t2: nat)
    requires t1 != t2 && t1 % MILLIS_PER_SECOND == t2 % MILLIS_PER_SECOND
    ensures FormatTime(t1) != FormatTime(t2)
  {
    if FormatTime(t1) == FormatTime(t2) {
      FormatTimeInjective(t1, t2);
      assert false;
    }
  }

  /** One hour, two minutes and three seconds. */
  lemma FormatTimeExample()
    ensures FormatTime(3_723_000) == "01:02:03"
  {
    assert ClockOf(3_723_000) == Clock(1, 2, 3);
  }
}

// `TimerViewModel`: the countdown state machine. Real time is abstracted to
// explicit ticks: `Tick` is one finished `delay(1000)` of the live countdown
// coroutine. The coroutine handle `timerJob` is abstracted to whether it is
// live, and the tone generator to whether it is present; every request to play
// the finish tone is logged with its outcome.
module Timer {
  import opened Numeric
  import opened TimeFormat

  /** What one call of `playTimerFinishSound` achieved. */
  datatype Alert = TonePlayed | ToneFailed | NoToneGenerator

  /** `toneGenerator?.startTone(...)` inside its `try`: a null generator does nothing, a throw is swallowed. */
  function AlertOutcome(hasToneGenerator: bool, toneFails: bool): Alert {
    if !hasToneGenerator then NoToneGenerator else if toneFails then ToneFailed else TonePlayed
  }

  /**
   * `(selectedHour * 60 * 60 + selectedMinute * 60 + selectedSecond) * 1000L`:
   * the sum is `Int` arithmetic and wraps at 32 bits; only the final product is `Long`.
   */
  function ComposedTotal(h: Int32, m: Int32, s: Int32): (t: Int64)
    ensures t % MILLIS_PER_SECOND == 0
    ensures INT32_MIN <= h * 3600 + m * 60 + s <= INT32_MAX ==> t == (h * 3600 + m * 60 + s) * 1000
  {
    Wrap32(h * 3600 + m * 60 + s) * 1000
  }

  class TimerViewModel {
    var selectedHour: Int32
    var selectedMinute: Int32
    var selectedSecond: Int32
    var totalMillis: Int64
    var remainingMillis: Int64
    var isRunning: bool
    var isPaused: bool
    /** `timerJob` holds a countdown coroutine that has neither finished nor been cancelled. */
    var jobLive: bool
    /**
     * `viewModelScope` has been cancelled by teardown: a coroutine launched
     * afterwards never runs.
     */
    var cleared: bool
    /** `toneGenerator != null`. */
    var hasToneGenerator: bool
    /** Each request to play the finish tone, in order. */
    var alerts: seq<Alert>
    /** How many countdown coroutines have been launched. */
    ghost var launches: nat

    /** The invariant every operation keeps. */
    ghost predicate Valid()
      reads this
    {
      && remainingMillis >= 0
      && remainingMillis % MILLIS_PER_SECOND == 0
      && totalMillis % MILLIS_PER_SECOND == 0
      && (isPaused ==> isRunning)
      && (isRunning <==> remainingMillis > 0)
      && (isRunning ==> remainingMillis <= totalMillis)
      && (jobLive <==> isRunning && !isPaused && !cleared)
    }

    /** The view model after `init`: `initializeToneGenerator` may or may not obtain a generator. */
    constructor (toneAvailable: bool)
      ensures Valid()
      ensures selectedHour == 0 && selectedMinute == 0 && selectedSecond == 0
      ensures totalMillis == 0 && remainingMillis == 0 && !isRunning && !isPaused
      ensures !jobLive && !cleared && hasToneGenerator == toneAvailable && alerts == [] && launches == 0
    {
      selectedHour, selectedMinute, selectedSecond := 0, 0, 0;
      totalMillis, remainingMillis := 0, 0;
      isRunning, isPaused := false, false;
      jobLive, cleared := false, false;
      hasToneGenerator := toneAvailable;
      alerts := [];
      launches := 0;
    }

    /** Writes the three selected fields and nothing else. */
    method SelectTime(hour: Int32, min: Int32, sec: Int32)
      requires Valid()
      modifies this`selectedHour, this`selectedMinute, this`selectedSecond
      ensures Valid()
      ensures selectedHour == hour && selectedMinute == min && selectedSecond == sec
    {
      selectedHour := hour;
      selectedMinute := min;
      selectedSecond := sec;
    }

    /**
     * `startCountdown`: launches a coroutine into the job slot (the slot is
     * empty here); after teardown the launched coroutine never runs.
     */
    method StartCountdown()
      requires !jobLive
      modifies this`jobLive, this`launches
      ensures jobLive == !cleared && launches == old(launches) + 1
    {
      jobLive := !cleared;
      launches := launches + 1;
    }

    /**
     * Start or resume. The screen only offers it while idle or paused; from
     * any other state the source would overwrite a live job without cancelling it.
     */
    method StartTimer()
      requires Valid() && (!isRunning || isPaused)
      modifies this
      ensures Valid()
      ensures selectedHour == old(selectedHour) && selectedMinute == old(selectedMinute)
      ensures selectedSecond == old(selectedSecond)
      ensures alerts == old(alerts) && hasToneGenerator == old(hasToneGenerator)
      ensures cleared == old(cleared)
      ensures old(isPaused) ==>
        && !isPaused && isRunning && jobLive == !cleared && launches == old(launches) + 1
        && remainingMillis == old(remainingMillis) && totalMillis == old(totalMillis)
      ensures !old(isPaused) ==>
        totalMillis == ComposedTotal(old(selectedHour), old(selectedMinute), old(selectedSecond))
      ensures !old(isPaused) && totalMillis > 0 ==>
        && isRunning && !isPaused && jobLive == !cleared && launches == old(launches) + 1
        && remainingMillis == totalMillis
      ensures !old(isPaused) && totalMillis <= 0 ==>
        && !isRunning && !isPaused && !jobLive && launches == old(launches)
        && remainingMillis == old(remainingMillis)
    {
      if isPaused {
        isPaused := false;
        StartCountdown();
      } else {
        totalMillis := ComposedTotal(selectedHour, selectedMinute, selectedSecond);
        if totalMillis > 0 {
          isRunning := true;
          remainingMillis := totalMillis;
          StartCountdown();
        }
      }
    }

    /** Acts only while running and not paused: cancels the job and freezes the remaining time. */
    method PauseTimer()
      requires Valid()
      modifies this
      ensures Valid()
      ensures old(isRunning && !isPaused) ==>
        && isPaused && isRunning && !jobLive
        && remainingMillis == old(remainingMillis) && totalMillis == old(totalMillis)
        && selectedHour == old(selectedHour) && selectedMinute == old(selectedMinute)
        && selectedSecond == old(selectedSecond)
        && alerts == old(alerts) && hasToneGenerator == old(hasToneGenerator)
        && launches == old(launches) && cleared == old(cleared)
      ensures !old(isRunning && !isPaused) ==> unchanged(this)
    {
      if isRunning && !isPaused {
        jobLive := false;
        isPaused := true;
      }
    }

    /** Acts while running or paused: cancels the job and returns to idle with nothing remaining; never sounds. */
    method CancelTimer()
      requires Valid()
      modifies this
      ensures Valid()
      ensures old(isRunning) ==>
        && !isRunning && !isPaused && !jobLive && remainingMillis == 0
        && totalMillis == old(totalMillis)
        && selectedHour == old(selectedHour) && selectedMinute == old(selectedMinute)
        && selectedSecond == old(selectedSecond)
        && alerts == old(alerts) && hasToneGenerator == old(hasToneGenerator)
        && launches == old(launches) && cleared == old(cleared)
      ensures !old(isRunning) ==> unchanged(this)
    {
      if isRunning {
        jobLive := false;
        isRunning := false;
        isPaused := false;
        remainingMillis := 0;
      }
    }

    /** `playTimerFinishSound`: one request, whatever its outcome. */
    method PlayTimerFinishSound(toneFails: bool)
      modifies this`alerts
      ensures alerts == old(alerts) + [AlertOutcome(hasToneGenerator, toneFails)]
    {
      alerts := alerts + [AlertOutcome(hasToneGenerator, toneFails)];
    }

    /**
     * One pass of the countdown loop: a second has passed, the remaining time
     * drops by 1000; once it is no longer positive the loop exits, the tone is
     * requested once and both flags are cleared.
     */
    method Tick(toneFails: bool)
      requires Valid() && jobLive
      modifies this
      ensures Valid()
      ensures remainingMillis == old(remainingMillis) - MILLIS_PER_SECOND
      ensures totalMillis == old(totalMillis) && hasToneGenerator == old(hasToneGenerator)
      ensures selectedHour == old(selectedHour) && selectedMinute == old(selectedMinute)
      ensures selectedSecond == old(selectedSecond) && launches == old(launches)
      ensures cleared == old(cleared)
      ensures remainingMillis > 0 ==> isRunning && !isPaused && jobLive && alerts == old(alerts)
      ensures remainingMillis == 0 ==>
        && !isRunning && !isPaused && !jobLive
        && alerts == old(alerts) + [AlertOutcome(hasToneGenerator, toneFails)]
    {
      remainingMillis := remainingMillis - MILLIS_PER_SECOND;
      if remainingMillis <= 0 {
        PlayTimerFinishSound(toneFails);
        isRunning := false;
        isPaused := false;
        jobLive := false;
      }
    }

    /**
     * Teardown: the framework cancels `viewModelScope`, then `onCleared`
     * cancels the job and releases the tone generator. The flags are left as
     * they are; no countdown runs again, even after a later resume.
     */
    method OnCleared()
      requires Valid()
      modifies this`jobLive, this`hasToneGenerator, this`cleared
      ensures Valid()
      ensures !jobLive && !hasToneGenerator && cleared
    {
      jobLive := false;
      hasToneGenerator := false;
      cleared := true;
    }
  }
}

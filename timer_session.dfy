// Whole countdowns driven the way the timer screen drives the view model:
// pick a time, press Start, let seconds pass, press Pause, Resume or Cancel.
module TimerSession {
  import opened Numeric
  import opened TimeFormat
  import Timer
  import TimerScreen

  /** Lets `k` seconds pass on a live countdown that has more than `k` seconds left. */
  method Advance(vm: Timer.TimerViewModel, k: nat, toneFails: bool)
    requires vm.Valid() && vm.jobLive && k * MILLIS_PER_SECOND < vm.remainingMillis
    modifies vm
    ensures vm.Valid() && vm.jobLive && vm.isRunning && !vm.isPaused
    ensures vm.remainingMillis == old(vm.remainingMillis) - k * MILLIS_PER_SECOND
    ensures vm.totalMillis == old(vm.totalMillis) && vm.alerts == old(vm.alerts)
    ensures vm.hasToneGenerator == old(vm.hasToneGenerator)
  {
    var i := 0;
    while i < k
      invariant 0 <= i <= k
      invariant vm.Valid() && vm.jobLive
      invariant vm.remainingMillis == old(vm.remainingMillis) - i * MILLIS_PER_SECOND
      invariant vm.totalMillis == old(vm.totalMillis) && vm.alerts == old(vm.alerts)
      invariant vm.hasToneGenerator == old(vm.hasToneGenerator)
    {
      vm.Tick(toneFails);
      i := i + 1;
    }
  }

  /** Lets a running countdown that was not torn down run out; returns how many seconds that took. */
  method RunOut(vm: Timer.TimerViewModel, toneFails: bool) returns (ticks: nat)
    requires vm.Valid() && vm.isRunning && !vm.isPaused && !vm.cleared
    modifies vm
    ensures vm.Valid() && !vm.jobLive && !vm.isRunning && !vm.isPaused && vm.remainingMillis == 0
    ensures ticks * MILLIS_PER_SECOND == old(vm.remainingMillis)
    ensures vm.alerts == old(vm.alerts) + [Timer.AlertOutcome(vm.hasToneGenerator, toneFails)]
    ensures vm.totalMillis == old(vm.totalMillis) && vm.hasToneGenerator == old(vm.hasToneGenerator)
  {
    ticks := 0;
    while vm.jobLive
      invariant vm.Valid() && (vm.jobLive <==> vm.isRunning) && !vm.isPaused
      invariant ticks * MILLIS_PER_SECOND + vm.remainingMillis == old(vm.remainingMillis)
      invariant vm.alerts == if vm.isRunning then old(vm.alerts)
                             else old(vm.alerts) + [Timer.AlertOutcome(vm.hasToneGenerator, toneFails)]
      invariant vm.totalMillis == old(vm.totalMillis) && vm.hasToneGenerator == old(vm.hasToneGenerator)
      decreases vm.remainingMillis
    {
      vm.Tick(toneFails);
      ticks := ticks + 1;
    }
  }

  /** A view model whose pickers were set to `h`, `m`, `s` and whose Start button was pressed. */
  method Started(h: Int32, m: Int32, s: Int32, toneAvailable: bool) returns (vm: Timer.TimerViewModel)
    requires TimerScreen.InPickerRange(h, m, s) && TimerScreen.StartEnabled(h, m, s)
    ensures fresh(vm) && vm.Valid() && vm.jobLive && vm.isRunning && !vm.isPaused
    ensures vm.totalMillis == Timer.ComposedTotal(h, m, s) && vm.remainingMillis == vm.totalMillis
    ensures vm.totalMillis > 0 && vm.alerts == [] && vm.hasToneGenerator == toneAvailable
  {
    TimerScreen.StartEnabledIffPositiveTotal(h, m, s);
    vm := new Timer.TimerViewModel(toneAvailable);
    vm.SelectTime(h, m, s);
    TimerScreen.StartOnlyWhenIdleOrPaused(vm.isRunning, vm.isPaused, h, m, s, 0);
    vm.StartTimer();
  }

  /**
   * From Start to the end: T/1000 seconds bring the remaining time to zero,
   * the finish tone is requested exactly once and both flags are clear.
   */
  method FullRun(h: Int32, m: Int32, s: Int32, toneAvailable: bool, toneFails: bool)
    returns (ticks: nat, remaining: int, running: bool, paused: bool, alerts: seq<Timer.Alert>)
    requires TimerScreen.InPickerRange(h, m, s) && TimerScreen.StartEnabled(h, m, s)
    ensures ticks * MILLIS_PER_SECOND == Timer.ComposedTotal(h, m, s)
    ensures remaining == 0 && !running && !paused
    ensures alerts == [Timer.AlertOutcome(toneAvailable, toneFails)]
  {
    var vm := Started(h, m, s, toneAvailable);
    ticks := RunOut(vm, toneFails);
    remaining, running, paused, alerts := vm.remainingMillis, vm.isRunning, vm.isPaused, vm.alerts;
  }

  /**
   * Pause after `k` seconds, then Resume: the pause costs no time, the run still
   * takes T/1000 seconds in all, and the tone is requested exactly once.
   */
  method PauseResumeRun(h: Int32, m: Int32, s: Int32, k: nat, toneAvailable: bool, toneFails: bool)
    returns (pausedAt: int, resumedAt: int, ticks: nat, total: int, alerts: seq<Timer.Alert>)
    requires TimerScreen.InPickerRange(h, m, s) && TimerScreen.StartEnabled(h, m, s)
    requires k * MILLIS_PER_SECOND < Timer.ComposedTotal(h, m, s)
    ensures pausedAt == resumedAt == Timer.ComposedTotal(h, m, s) - k * MILLIS_PER_SECOND
    ensures ticks * MILLIS_PER_SECOND == Timer.ComposedTotal(h, m, s) && total == Timer.ComposedTotal(h, m, s)
    ensures alerts == [Timer.AlertOutcome(toneAvailable, toneFails)]
  {
    var vm := Started(h, m, s, toneAvailable);
    Advance(vm, k, toneFails);
    TimerScreen.ButtonsMatchGuards(vm.isRunning, vm.isPaused, h, m, s);
    vm.PauseTimer();
    pausedAt := vm.remainingMillis;
    TimerScreen.ButtonsMatchGuards(vm.isRunning, vm.isPaused, h, m, s);
    assert TimerScreen.ResumeButton in TimerScreen.Buttons(vm.isRunning, vm.isPaused, h, m, s);
    vm.StartTimer();
    resumedAt := vm.remainingMillis;
    var rest := RunOut(vm, toneFails);
    ticks := k + rest;
    total, alerts := vm.totalMillis, vm.alerts;
  }

  /**
   * Cancel after `k` seconds, from running or from paused, and press Cancel
   * again: idle with nothing remaining, the total kept, no tone requested.
   */
  method CancelRun(h: Int32, m: Int32, s: Int32, k: nat, pauseFirst: bool, toneAvailable: bool)
    returns (remaining: int, running: bool, paused: bool, total: int, alerts: seq<Timer.Alert>)
    requires TimerScreen.InPickerRange(h, m, s) && TimerScreen.StartEnabled(h, m, s)
    requires k * MILLIS_PER_SECOND < Timer.ComposedTotal(h, m, s)
    ensures remaining == 0 && !running && !paused
    ensures total == Timer.ComposedTotal(h, m, s) && alerts == []
  {
    var vm := Started(h, m, s, toneAvailable);
    Advance(vm, k, false);
    if pauseFirst {
      vm.PauseTimer();
    }
    vm.CancelTimer();
    vm.CancelTimer();
    remaining, running, paused, total, alerts := vm.remainingMillis, vm.isRunning, vm.isPaused, vm.totalMillis, vm.alerts;
  }

  /** Teardown twice, at any point of a run: no job is left and no tone is requested. */
  method TeardownTwice(h: Int32, m: Int32, s: Int32, k: nat, toneAvailable: bool)
    returns (jobLive: bool, hasToneGenerator: bool, remaining: int, alerts: seq<Timer.Alert>)
    requires TimerScreen.InPickerRange(h, m, s) && TimerScreen.StartEnabled(h, m, s)
    requires k * MILLIS_PER_SECOND < Timer.ComposedTotal(h, m, s)
    ensures !jobLive && !hasToneGenerator && alerts == []
    ensures remaining == Timer.ComposedTotal(h, m, s) - k * MILLIS_PER_SECOND
  {
    var vm := Started(h, m, s, toneAvailable);
    Advance(vm, k, false);
    vm.OnCleared();
    vm.OnCleared();
    jobLive, hasToneGenerator, remaining, alerts := vm.jobLive, vm.hasToneGenerator, vm.remainingMillis, vm.alerts;
  }

  /**
   * Teardown mid-run, then Pause and Resume: the Resume is accepted, but the
   * countdown it launches never runs, so the timer stays frozen at the time
   * it had when it was cleared.
   */
  method ResumeAfterTeardown(h: Int32, m: Int32, s: Int32, k: nat, toneAvailable: bool)
    returns (running: bool, paused: bool, jobLive: bool, remaining: int, alerts: seq<Timer.Alert>)
    requires TimerScreen.InPickerRange(h, m, s) && TimerScreen.StartEnabled(h, m, s)
    requires k * MILLIS_PER_SECOND < Timer.ComposedTotal(h, m, s)
    ensures running && !paused && !jobLive && alerts == []
    ensures remaining == Timer.ComposedTotal(h, m, s) - k * MILLIS_PER_SECOND
  {
    var vm := Started(h, m, s, toneAvailable);
    Advance(vm, k, false);
    vm.OnCleared();
    vm.PauseTimer();
    vm.StartTimer();
    running, paused, jobLive, remaining, alerts := vm.isRunning, vm.isPaused, vm.jobLive, vm.remainingMillis, vm.alerts;
  }
}

# ThreadsExample countdown timer, worker and Fibonacci demo, in Dafny

This project models the core of the ThreadsExample Android app: the countdown
timer and the two small pieces next to it.

- **`TimerViewModel`** is modelled as the class `Timer.TimerViewModel`. It is
  the pause/resume/cancel state machine. Real time is replaced by explicit
  ticks: one `Tick` is one finished `delay(1000)` of the live countdown
  coroutine. The coroutine handle is the field `jobLive`. Whether a tone
  generator exists is `hasToneGenerator`. Every request to play the finish
  tone is logged in `alerts` together with its outcome.
- **`TimerWorker.doWork`** is the method `TimerWorker.DoWork`, with its
  counting-down loop. It is proved against the function `ProgressTexts`,
  which lists the notification texts posted.
- **`formatTime`** is modelled in `TimeFormat`. Its partner is a parser:
  the text determines the hours, minutes and seconds.
- **`TimerScreen`**'s decisions are pure functions over the view model's
  fields: the countdown text, the colours, which buttons appear and whether
  Start is enabled. The picker ranges are modelled too, and `TimePicker` is
  the class `TimerScreen.TimePicker`.
- **`TimerSession`** drives the view model the way the screen does: pick a
  time, press Start, let seconds pass, then Pause, Resume, Cancel or tear
  down.
- **`FibonacciDemo`** covers three things: `calculateFib` with 64-bit
  wrap-around, the parse-or-zero of the input, and the `isCalculating`
  protocol of the click handler.

Kotlin `Int` and `Long` are the subset types `Numeric.Int32` and
`Numeric.Int64`. Their silent two's-complement wrap-around is written out by
`Wrap32` and `Wrap64`. The model uses them wherever a wrap can happen: the
composed total, the Start button's `h + m + s`, and the Fibonacci sum.

The worker rejects exactly a zero budget (TimeWorker.kt:29-31) and accepts
negative budgets. A negative budget posts no progress text, then the finished
text, and succeeds.

The timer's invariant (`TimerViewModel.Valid`) keeps the following:

- `remainingMillis` is non-negative and a multiple of 1000;
- `totalMillis` is a multiple of 1000;
- `isPaused` implies `isRunning`;
- `isRunning` holds exactly when time remains;
- while running, the remaining time is at most the total;
- a countdown job is live exactly while running, not paused, and not torn
  down.

## Model

| member | source | states |
|---|---|---|
| Numeric.Wrap32 | app/src/main/java/edu/farmingdale/threadsexample/countdowntimer/TimerViewModel.kt:70 | The `Int` an overflowing sum leaves is congruent to the exact sum mod 2^32, and equals it when it fits |
| Numeric.Wrap64 | app/src/main/java/edu/farmingdale/threadsexample/FibonacciDemo.kt:33 | The `Long` an overflowing sum leaves is congruent to the exact sum mod 2^64, and equals it when it fits |
| Numeric.Wrap64Add | app/src/main/java/edu/farmingdale/threadsexample/FibonacciDemo.kt:33 | Wrapping the two addends before a `Long` addition does not change the wrapped sum |
| Numeric.Wrap64Periodic | app/src/main/java/edu/farmingdale/threadsexample/FibonacciDemo.kt:33 | A `Long` result depends only on the exact value modulo 2^64 |
| Decimal.NatToString | app/src/main/java/edu/farmingdale/threadsexample/FibonacciDemo.kt:61 | Decimal text of a non-negative number: digits only, non-empty, one digit exactly below 10, no leading zero |
| Decimal.ValueOfNatToString | app/src/main/java/edu/farmingdale/threadsexample/FibonacciDemo.kt:61 | The decimal text reads back as the number it was printed from |
| Decimal.ValueOfLeadingZero | app/src/main/java/edu/farmingdale/threadsexample/countdowntimer/TimeWorker.kt:83 | Prefixing a zero does not change the value of a digit string, which is what `%02d` relies on |
| Decimal.Pad2 | app/src/main/java/edu/farmingdale/threadsexample/countdowntimer/TimeWorker.kt:83 | `%02d`: digits only, at least two of them, exactly two below 100, no leading zero beyond the padding, and the text reads back as the value |
| Decimal.LongToString | app/src/main/java/edu/farmingdale/threadsexample/FibonacciDemo.kt:61 | `Long.toString()`: a leading '-' exactly for negative values, then at least one digit with no leading zero |
| Decimal.ToLongOrNull | app/src/main/java/edu/farmingdale/threadsexample/FibonacciDemo.kt:57 | A text parses only if it is digits, or one sign followed by at least one digit |
| Decimal.ToLongOrNullOfDigits | app/src/main/java/edu/farmingdale/threadsexample/FibonacciDemo.kt:57 | A digit string, bare or after '+', gives its value when that is at most `Long.MAX_VALUE` and null otherwise; after '-' it gives minus its value when that is at least `Long.MIN_VALUE` and null otherwise |
| Decimal.SignAloneIsNull | app/src/main/java/edu/farmingdale/threadsexample/FibonacciDemo.kt:57 | The empty text and a sign with no digits are null |
| Decimal.ToLongOrNullExamples | app/src/main/java/edu/farmingdale/threadsexample/FibonacciDemo.kt:57 | "040" and "+40" both parse as 40 |
| Decimal.OnePastMaxIsNull | app/src/main/java/edu/farmingdale/threadsexample/FibonacciDemo.kt:57 | The digits of `Long.MAX_VALUE` + 1 are null |
| Decimal.LongRoundTrip | app/src/main/java/edu/farmingdale/threadsexample/FibonacciDemo.kt:57-61 | Every `Long`, negative ones included, parses back from its own `toString()` |
| Decimal.NonNumericIsNull | app/src/main/java/edu/farmingdale/threadsexample/FibonacciDemo.kt:57 | A text with a non-digit anywhere other than a leading sign is not a `Long` |
| TimeFormat.ClockOf | app/src/main/java/edu/farmingdale/threadsexample/countdowntimer/TimeWorker.kt:80-82 | The minute and second fields are below 60; the hours are not reduced |
| TimeFormat.ClockOfReconstructs | app/src/main/java/edu/farmingdale/threadsexample/countdowntimer/TimeWorker.kt:80-82 | hours·3 600 000 + minutes·60 000 + seconds·1000 + t mod 1000 = t |
| TimeFormat.ModAddMultiple | app/src/main/java/edu/farmingdale/threadsexample/countdowntimer/TimeWorker.kt:81-82 | Adding a multiple of n does not change the remainder mod n |
| TimeFormat.ModUnique | app/src/main/java/edu/farmingdale/threadsexample/countdowntimer/TimeWorker.kt:80-82 | Division with remainder has exactly one answer |
| TimeFormat.ClockOfInjective | app/src/main/java/edu/farmingdale/threadsexample/countdowntimer/TimeWorker.kt:80-82 | Two instants with equal sub-second parts and equal fields are equal |
| TimeFormat.FormatTime | app/src/main/java/edu/farmingdale/threadsexample/countdowntimer/TimeWorker.kt:79-84 | The text is at least 8 characters long, and exactly 8 below 100 hours |
| TimeFormat.ParseClock | app/src/main/java/edu/farmingdale/threadsexample/countdowntimer/TimeWorker.kt:83 | A text parses only when it has at least 8 characters and colons in the `HH:MM:SS` positions |
| TimeFormat.ParseRender | app/src/main/java/edu/farmingdale/threadsexample/countdowntimer/TimeWorker.kt:83 | Parsing a rendered clock gives back its three fields |
| TimeFormat.FormatTimeRoundTrip | app/src/main/java/edu/farmingdale/threadsexample/countdowntimer/TimeWorker.kt:79-84 | The `formatTime` text parses back to the hours, minutes and seconds of its input |
| TimeFormat.FormatTimeInjective | app/src/main/java/edu/farmingdale/threadsexample/countdowntimer/TimeWorker.kt:79-84 | Equal texts for inputs with equal sub-second parts mean equal inputs |
| TimeFormat.FormatTimeDistinct | app/src/main/java/edu/farmingdale/threadsexample/countdowntimer/TimeWorker.kt:79-84 | Different inputs with equal sub-second parts print different texts |
| TimeFormat.FormatTimeExample | app/src/main/java/edu/farmingdale/threadsexample/countdowntimer/TimeWorker.kt:79-84 | 3 723 000 ms prints as "01:02:03" |
| TimerWorker.ProgressTexts | app/src/main/java/edu/farmingdale/threadsexample/countdowntimer/TimeWorker.kt:38-42 | The texts the loop posts for a counter starting at `remaining`: `formatTime` of each value still positive, counting down by 1000; its properties are the lemmas below |
| TimerWorker.DoWork | app/src/main/java/edu/farmingdale/threadsexample/countdowntimer/TimeWorker.kt:25-48 | Budget 0 (also an absent key) fails, creates no channel and posts nothing. Any other budget creates the channel, posts `ProgressTexts(budget)` followed by exactly one "Timer is finished!", waits once per progress text, and succeeds. Delivery is all posts when notifications are enabled, none otherwise; the loop and the result do not depend on it. It reads only its input |
| TimerWorker.ProgressTextsLength | app/src/main/java/edu/farmingdale/threadsexample/countdowntimer/TimeWorker.kt:38-42 | A positive budget gives ceil(budget/1000) progress texts; a non-positive one gives none |
| TimerWorker.ProgressTextAt | app/src/main/java/edu/farmingdale/threadsexample/countdowntimer/TimeWorker.kt:38-42 | The i-th progress text is `formatTime(budget − 1000·i)`, and that argument is still positive |
| TimerWorker.ProgressTextsDistinct | app/src/main/java/edu/farmingdale/threadsexample/countdowntimer/TimeWorker.kt:38-42 | No progress text is posted twice: the texts strictly count down |
| TimerWorker.FiveSecondBudget | app/src/main/java/edu/farmingdale/threadsexample/countdowntimer/TimeWorker.kt:38-42 | A 5000 ms budget posts 00:00:05, 00:00:04, 00:00:03, 00:00:02, 00:00:01 |
| Timer.AlertOutcome | app/src/main/java/edu/farmingdale/threadsexample/countdowntimer/TimerViewModel.kt:111-117 | A missing generator plays nothing, a throwing one is swallowed, otherwise the tone plays |
| Timer.ComposedTotal | app/src/main/java/edu/farmingdale/threadsexample/countdowntimer/TimerViewModel.kt:70 | The composed total is a multiple of 1000, and it is the exact (h·3600 + m·60 + s)·1000 whenever the `Int` sum does not overflow |
| Timer.TimerViewModel.Valid | app/src/main/java/edu/farmingdale/threadsexample/countdowntimer/TimerViewModel.kt:63-107 | The invariant listed above, which every operation keeps |
| Timer.TimerViewModel.constructor | app/src/main/java/edu/farmingdale/threadsexample/countdowntimer/TimerViewModel.kt:18-55 | Initial state: all zero, idle, no job, no alert; the tone generator is present iff it could be created |
| Timer.TimerViewModel.SelectTime | app/src/main/java/edu/farmingdale/threadsexample/countdowntimer/TimerViewModel.kt:57-61 | Writes the three selected fields and nothing else, keeping the invariant |
| Timer.TimerViewModel.StartCountdown | app/src/main/java/edu/farmingdale/threadsexample/countdowntimer/TimerViewModel.kt:96-97 | Launches exactly one countdown into the empty job slot; after teardown it never runs |
| Timer.TimerViewModel.StartTimer | app/src/main/java/edu/farmingdale/threadsexample/countdowntimer/TimerViewModel.kt:63-78 | Resume clears `isPaused` and relaunches from the frozen remaining time, total unchanged; the job is live unless the view model was torn down. Start recomputes the total from the selection: if positive, remaining := total, running, one job launched; otherwise only the total changes and no job is launched |
| Timer.TimerViewModel.PauseTimer | app/src/main/java/edu/farmingdale/threadsexample/countdowntimer/TimerViewModel.kt:80-85 | Running and not paused: cancels the job and sets `isPaused`, with remaining time, total, selection and alerts unchanged. Otherwise a no-op |
| Timer.TimerViewModel.CancelTimer | app/src/main/java/edu/farmingdale/threadsexample/countdowntimer/TimerViewModel.kt:87-94 | Running or paused: cancels the job, goes idle with remaining 0, keeps the total and selection, requests no tone. Otherwise a no-op |
| Timer.TimerViewModel.PlayTimerFinishSound | app/src/main/java/edu/farmingdale/threadsexample/countdowntimer/TimerViewModel.kt:111-117 | Exactly one tone request is logged, whatever its outcome |
| Timer.TimerViewModel.Tick | app/src/main/java/edu/farmingdale/threadsexample/countdowntimer/TimerViewModel.kt:98-107 | Remaining time drops by exactly 1000. On reaching 0 the tone is requested once and both flags and the job are cleared in the same step. Otherwise still running with no alert |
| Timer.TimerViewModel.OnCleared | app/src/main/java/edu/farmingdale/threadsexample/countdowntimer/TimerViewModel.kt:119-124 | Teardown: no live job, no tone generator, and no countdown launched later will run; nothing else changes, and repeating it is harmless |
| TimerScreen.PickerTotalFits | app/src/main/java/edu/farmingdale/threadsexample/countdowntimer/TimerScreen.kt:166 | From the pickers the sum is at most 359 999 s, so the `Int` arithmetic cannot wrap and the total is exact |
| TimerScreen.ComposedTotalWraps | app/src/main/java/edu/farmingdale/threadsexample/countdowntimer/TimerViewModel.kt:70 | Outside the picker range the `Int` sum does wrap: 596 524 hours compose to a negative total |
| TimerScreen.InPickerRange | app/src/main/java/edu/farmingdale/threadsexample/countdowntimer/TimerScreen.kt:164-166 | The values the pickers offer: hours 0..99 (`maxVal = 99`), minutes and seconds 0..59 (the default `maxVal`, TimerScreen.kt:202-203) |
| TimerScreen.DisplayText | app/src/main/java/edu/farmingdale/threadsexample/countdowntimer/TimerScreen.kt:61-70 | The countdown text, `%02d:%02d:%02d` of the remaining duration's whole hours, minutes mod 60 and seconds mod 60; `DisplayTextIsFormatTime` states what it is |
| TimerScreen.DisplayTextIsFormatTime | app/src/main/java/edu/farmingdale/threadsexample/countdowntimer/TimerScreen.kt:61-70 | The on-screen `%02d:%02d:%02d` of whole hours, minutes mod 60 and seconds mod 60 equals `formatTime` |
| TimerScreen.DivMod | app/src/main/java/edu/farmingdale/threadsexample/countdowntimer/TimerScreen.kt:68-69 | (t / a) mod b = (t mod a·b) / a, which links the screen's fields to the worker's |
| TimerScreen.DivUnique | app/src/main/java/edu/farmingdale/threadsexample/countdowntimer/TimerScreen.kt:68-69 | Division with remainder has one quotient |
| TimerScreen.CountdownStyle | app/src/main/java/edu/farmingdale/threadsexample/countdowntimer/TimerScreen.kt:62-75 | Red and bold when at most 10 000 ms remain, black and normal otherwise; `CountdownStyleThreshold` states its properties |
| TimerScreen.Indicator | app/src/main/java/edu/farmingdale/threadsexample/countdowntimer/TimerScreen.kt:81-96 | No indicator when idle; red, orange or blue by the remaining time while running; `IndicatorBands` states its properties |
| TimerScreen.CountdownStyleThreshold | app/src/main/java/edu/farmingdale/threadsexample/countdowntimer/TimerScreen.kt:62-75 | The text is red iff at most 10 000 ms remain, bold iff red, and red and bold at the idle value 0 |
| TimerScreen.IndicatorBands | app/src/main/java/edu/farmingdale/threadsexample/countdowntimer/TimerScreen.kt:81-96 | The indicator is shown iff running. It is red iff ≤ 10 000, orange iff 10 001..30 000, blue iff above, and red exactly when the text is red |
| TimerScreen.StartEnabled | app/src/main/java/edu/farmingdale/threadsexample/countdowntimer/TimerScreen.kt:136-138 | Start is enabled when the `Int` sum h + m + s, wrapped to 32 bits, is positive |
| TimerScreen.StartEnabledIffPositiveTotal | app/src/main/java/edu/farmingdale/threadsexample/countdowntimer/TimerScreen.kt:136-138 | For picker values the sum cannot wrap: Start is enabled iff h + m + s > 0, iff `startTimer` would find a positive total |
| TimerScreen.StartEnabledWraps | app/src/main/java/edu/farmingdale/threadsexample/countdowntimer/TimerScreen.kt:136-138 | Outside the picker range the sum wraps: `Int.MAX_VALUE` hours and one minute disable Start, and 596 524 hours enable a Start whose total is negative |
| TimerScreen.Handler | app/src/main/java/edu/farmingdale/threadsexample/countdowntimer/TimerScreen.kt:116-139 | The view-model operation each button's `onClick` names: Pause → `pauseTimer`, Resume and Start → `startTimer`, Cancel → `cancelTimer` |
| TimerScreen.Buttons | app/src/main/java/edu/farmingdale/threadsexample/countdowntimer/TimerScreen.kt:113-143 | The control row: Pause or Resume, then Cancel, while running; a Start enabled by `StartEnabled` otherwise; `ButtonsMatchGuards` states its properties |
| TimerScreen.StartOnlyWhenIdleOrPaused | app/src/main/java/edu/farmingdale/threadsexample/countdowntimer/TimerScreen.kt:113-143 | Any clickable button that calls `startTimer` is shown only while idle or paused, which is `StartTimer`'s precondition; from idle it also needs h+m+s > 0 |
| TimerScreen.ButtonsMatchGuards | app/src/main/java/edu/farmingdale/threadsexample/countdowntimer/TimerScreen.kt:113-143 | Pause is shown iff running and not paused; Resume iff paused; Cancel iff running; an enabled Start iff idle with a positive total |
| TimerScreen.TimePicker.constructor | app/src/main/java/edu/farmingdale/threadsexample/countdowntimer/TimerScreen.kt:154-156 | The picker's remembered values start at the given selection |
| TimerScreen.TimePicker.PickHour | app/src/main/java/edu/farmingdale/threadsexample/countdowntimer/TimerScreen.kt:164-170 | Updates only the hour, within 0..99, then reports all three current values |
| TimerScreen.TimePicker.PickMinute | app/src/main/java/edu/farmingdale/threadsexample/countdowntimer/TimerScreen.kt:178-183 | Updates only the minute, within 0..59, then reports all three current values |
| TimerScreen.TimePicker.PickSecond | app/src/main/java/edu/farmingdale/threadsexample/countdowntimer/TimerScreen.kt:188-193 | Updates only the second, within 0..59, then reports all three current values |
| TimerSession.Advance | app/src/main/java/edu/farmingdale/threadsexample/countdowntimer/TimerViewModel.kt:98-101 | k seconds on a live countdown lower the remaining time by exactly k·1000 and request no tone |
| TimerSession.RunOut | app/src/main/java/edu/farmingdale/threadsexample/countdowntimer/TimerViewModel.kt:98-107 | A countdown that is running, not paused and not torn down ends after remaining/1000 ticks, with flags clear and exactly one tone request |
| TimerSession.FullRun | app/src/main/java/edu/farmingdale/threadsexample/countdowntimer/TimerViewModel.kt:63-107 | From a fresh Start with total T, T/1000 ticks bring remaining to 0 with both flags clear and the tone requested exactly once |
| TimerSession.PauseResumeRun | app/src/main/java/edu/farmingdale/threadsexample/countdowntimer/TimerViewModel.kt:63-85 | Pause then Resume freezes the time without losing any: the run still takes T/1000 ticks, the total is unchanged, and there is one tone request |
| TimerSession.CancelRun | app/src/main/java/edu/farmingdale/threadsexample/countdowntimer/TimerViewModel.kt:87-94 | Cancelling from running or paused, then cancelling again, leaves idle with remaining 0, the total kept and no tone requested |
| TimerSession.ResumeAfterTeardown | app/src/main/java/edu/farmingdale/threadsexample/countdowntimer/TimerViewModel.kt:119-124 | After teardown mid-run, Pause and Resume are accepted, but no live countdown results: running, not paused, no job, no tone, and the remaining time frozen |
| TimerSession.TeardownTwice | app/src/main/java/edu/farmingdale/threadsexample/countdowntimer/TimerViewModel.kt:119-124 | Clearing the view model twice mid-run leaves no job and no generator, requests no tone, and freezes the remaining time |
| FibonacciDemo.CalculateFib | app/src/main/java/edu/farmingdale/threadsexample/FibonacciDemo.kt:32-34 | `calculateFib` with `Long` addition wrapping silently; the lemmas below relate it to the Fibonacci numbers |
| FibonacciDemo.CalculateFibBase | app/src/main/java/edu/farmingdale/threadsexample/FibonacciDemo.kt:32-34 | Every n ≤ 1, negative ones included, is its own result |
| FibonacciDemo.CalculateFibIsWrappedFib | app/src/main/java/edu/farmingdale/threadsexample/FibonacciDemo.kt:32-34 | For n ≥ 0 the result is the true Fibonacci number wrapped to 64 bits |
| FibonacciDemo.FibMonotone | app/src/main/java/edu/farmingdale/threadsexample/FibonacciDemo.kt:33 | The Fibonacci numbers never decrease |
| FibonacciDemo.FibAdd | app/src/main/java/edu/farmingdale/threadsexample/FibonacciDemo.kt:33 | The addition law F(m+n+1) = F(m+1)F(n+1) + F(m)F(n) |
| FibonacciDemo.FibDoubling | app/src/main/java/edu/farmingdale/threadsexample/FibonacciDemo.kt:33 | F(2k) and F(2k+1) follow from F(k−1), F(k) and F(k+1) |
| FibonacciDemo.FibAt92And93 | app/src/main/java/edu/farmingdale/threadsexample/FibonacciDemo.kt:33 | F(92) = 7 540 113 804 746 346 429 fits a `Long`; F(93) does not |
| FibonacciDemo.CalculateFibExact | app/src/main/java/edu/farmingdale/threadsexample/FibonacciDemo.kt:32-34 | For 0 ≤ n ≤ 92 the result is the exact Fibonacci number and satisfies the recurrence without overflow |
| FibonacciDemo.CalculateFibWrapsFrom93 | app/src/main/java/edu/farmingdale/threadsexample/FibonacciDemo.kt:33 | From n = 93 on, the silently wrapped result is never the Fibonacci number |
| FibonacciDemo.ParseInput | app/src/main/java/edu/farmingdale/threadsexample/FibonacciDemo.kt:57 | `?: 0`: the parsed `Long` when `toLongOrNull` accepts the text, 0 when it is null; which texts those are is stated by the next three lemmas |
| FibonacciDemo.ParseInputOfDigits | app/src/main/java/edu/farmingdale/threadsexample/FibonacciDemo.kt:57 | A digit string, bare or after '+', gives its value if it fits a `Long` and 0 if not; after '-' it gives minus its value if that fits and 0 if not |
| FibonacciDemo.ParseInputNonNumeric | app/src/main/java/edu/farmingdale/threadsexample/FibonacciDemo.kt:57 | A non-digit anywhere except a leading sign makes the input 0 |
| FibonacciDemo.ParseInputExamples | app/src/main/java/edu/farmingdale/threadsexample/FibonacciDemo.kt:57 | "040" and "+40" give 40; `Long.MAX_VALUE` + 1, the empty text and a lone '-' give 0 |
| FibonacciDemo.UnparsableInputAnswersZero | app/src/main/java/edu/farmingdale/threadsexample/FibonacciDemo.kt:57-61 | Input that is not a `Long` is computed as 0, and the answer is "0" |
| FibonacciDemo.AnswerReadsBack | app/src/main/java/edu/farmingdale/threadsexample/FibonacciDemo.kt:59-61 | A successful answer text reads back as the computed `Long` |
| FibonacciDemo.ErrorText | app/src/main/java/edu/farmingdale/threadsexample/FibonacciDemo.kt:63 | "Error: " followed by the exception's message, or "null" when it has none |
| FibonacciDemo.AnswerText | app/src/main/java/edu/farmingdale/threadsexample/FibonacciDemo.kt:59-63 | The stored answer: the result's `toString()` on success, `ErrorText` on a caught exception; `AnswerReadsBack` states the success case |
| FibonacciDemo.ButtonEnabled | app/src/main/java/edu/farmingdale/threadsexample/FibonacciDemo.kt:68 | The button is enabled iff no computation is in progress |
| FibonacciDemo.ButtonLabel | app/src/main/java/edu/farmingdale/threadsexample/FibonacciDemo.kt:71 | "Calculating..." while computing, "Calculate Fibonacci" otherwise |
| FibonacciDemo.ResultText | app/src/main/java/edu/farmingdale/threadsexample/FibonacciDemo.kt:74-75 | "Calculating..." while computing, "Result: " and the answer otherwise |
| FibonacciDemo.LabelsFollowFlag | app/src/main/java/edu/farmingdale/threadsexample/FibonacciDemo.kt:71-75 | The label and the result text read "Calculating..." exactly while the flag is set; otherwise the result text starts with "Result: " |
| FibonacciDemo.FibonacciScreen.constructor | app/src/main/java/edu/farmingdale/threadsexample/FibonacciDemo.kt:26-28 | The state starts with an empty answer, the input "40" and the flag clear |
| FibonacciDemo.FibonacciScreen.EditInput | app/src/main/java/edu/farmingdale/threadsexample/FibonacciDemo.kt:43 | The text field stores what was typed |
| FibonacciDemo.FibonacciScreen.BeginClick | app/src/main/java/edu/farmingdale/threadsexample/FibonacciDemo.kt:55-57 | Only an enabled button can be clicked; the flag is raised before the input is parsed (unparsable input becomes 0) |
| FibonacciDemo.FibonacciScreen.FinishClick | app/src/main/java/edu/farmingdale/threadsexample/FibonacciDemo.kt:58-65 | On success the answer is the result's text, on an exception "Error: " and the message; the flag is lowered on both paths |
| FibonacciDemo.ClickSession | app/src/main/java/edu/farmingdale/threadsexample/FibonacciDemo.kt:53-75 | While computing, the button is disabled and both texts read "Calculating...". Afterwards it is enabled again and the result text is "Result: " and the answer, on both the success and the exception path |

## Left out

- Compose rendering, layout, modifiers, the progress animation and the
  `AndroidView`/`NumberPicker` factory are UI plumbing. The float progress
  ratio (TimerScreen.kt:42-44) is floating point.
- Coroutines and WorkManager are replaced by sequential steps. This covers
  `viewModelScope.launch`, `delay`, `Job.cancel`, `Dispatchers`/`withContext`
  and `CoroutineWorker` scheduling. A `Tick` is one finished `delay(1000)`,
  and a job is the boolean `jobLive`. Wall-clock drift, concurrent callers
  and the dispatch delay between a click and its coroutine are not modelled.
- `ToneGenerator`, `AudioManager`, `NotificationManager` and `NotificationChannel`
  are platform calls. They become the `alerts` log, the `hasToneGenerator`
  and `toneFails` booleans, the `notificationsEnabled` parameter, and the
  texts `posted` and `delivered`.
- `Build.VERSION` is not modelled; `channelCreated` stands for
  `createTimerNotificationChannel` being called. `Log.d` and
  `printStackTrace` are left out.
- `Locale.getDefault()` digit shaping and non-ASCII digits in
  `toLongOrNull` are left out: all digits are ASCII.
- Timer.TimerViewModel.Valid: "0 ≤ remaining ≤ total" is kept only while
  running. When idle, a Start can leave a negative `totalMillis` while
  `remainingMillis` is 0. This happens for negative selections, and for
  selections whose `Int` sum wraps (`TimerScreen.ComposedTotalWraps`). The
  code allows this, so the invariant does not exclude it.
- Timer.TimerViewModel.StartTimer: requires idle or paused. From a running,
  unpaused state, `startCountdown` would overwrite a live job without
  cancelling it. The screen never offers that call
  (`TimerScreen.StartOnlyWhenIdleOrPaused`), so that path is not modelled.
- TimeFormat.FormatTime: takes only non-negative milliseconds, and so does
  `TimerScreen.DisplayText`. Both callers pass non-negative values:
  - the worker formats only while its counter is positive;
  - the view model keeps `remainingMillis` non-negative.

  Kotlin's truncating division of negative values is not modelled.
- Timer.TimerViewModel.OnCleared: models the method only. Whether the
  framework ever calls it is a platform question, because `MainActivity`
  keeps the view model in `remember`. Teardown cancels `viewModelScope`
  before `onCleared` runs. The model records this as the field `cleared`,
  and a countdown launched afterwards is never live. `OnCleared` leaves the
  flags as they are, as the code does. A timer cleared while running
  therefore stays frozen with `isRunning` set, even after Pause and Resume.
- `MainActivity`, its screen toggle and `Greeting` are app bootstrapping,
  outside this model.
- `NumberPicker` clamps values it is given. The model assumes that the
  picker reports only values in its range, and `TimePicker`'s methods
  require that.
- FibonacciDemo.FibonacciScreen.FinishClick: takes the outcome of the
  computation as a parameter. `failure` is `Some(message)` when
  `withContext` threw an `Exception`, which is all that
  `catch (e: Exception)` catches. The naive recursion's running time is not
  modelled. Neither is a `StackOverflowError`: it is not an `Exception`, so
  it escapes the handler and leaves `isCalculating` set.

// `TimerWorker.doWork`: the background notifier. It reads its budget once
// into a local counter, posts the remaining time once per second while the
// counter is positive, then posts a final text and succeeds. Notification
// delivery is abstracted as the list of texts handed to the notification
// manager; the one-second `delay` is a loop pass.
module TimerWorker {
  import opened Numeric
  import opened Decimal
  import opened TimeFormat

  const FINISHED_TEXT: string := "Timer is finished!"

  datatype WorkResult = Success | Failure

  /** The progress texts posted for a counter that starts at `remaining`, in posting order. */
  function ProgressTexts(remaining: int): seq<string>
    decreases remaining
  {
    if remaining <= 0 then [] else [FormatTime(remaining)] + ProgressTexts(remaining - MILLIS_PER_SECOND)
  }

  /** ceil(b / 1000) for a positive budget, none otherwise. */
  function ProgressCount(budget: int): nat {
    if budget <= 0 then 0 else (budget + MILLIS_PER_SECOND - 1) / MILLIS_PER_SECOND
  }

  /**
   * One run of `doWork` with input `input` (None when the key is absent) and
   * notifications enabled or not. `posted` are the texts `postTimerNotification`
   * receives, `delivered` those that reach `notify`, `ticks` the one-second waits.
   */
  method DoWork(input: Option<Int64>, notificationsEnabled: bool)
    returns (result: WorkResult, channelCreated: bool, posted: seq<string>, delivered: seq<string>, ticks: nat)
    ensures var budget := if input.Some? then input.value else 0;
      && (budget == 0 ==> result == Failure && !channelCreated && posted == [] && ticks == 0)
      && (budget != 0 ==> result == Success && channelCreated
                          && posted == ProgressTexts(budget) + [FINISHED_TEXT]
                          && ticks == |ProgressTexts(budget)|)
    ensures delivered == if notificationsEnabled then posted else []
  {
    var remainingMillis: int := if input.Some? then input.value else 0;
    posted, delivered, ticks := [], [], 0;
    if remainingMillis == 0 {
      return Failure, false, posted, delivered, ticks;
    }
    channelCreated := true;
    ghost var budget := remainingMillis;
    while remainingMillis > 0
      invariant ProgressTexts(budget) == posted + ProgressTexts(remainingMillis)
      invariant ticks == |posted|
      invariant delivered == if notificationsEnabled then posted else []
    {
      var text := FormatTime(remainingMillis);
      assert posted + ProgressTexts(remainingMillis) == (posted + [text]) + ProgressTexts(remainingMillis - MILLIS_PER_SECOND) by {
        ProgressTextsStep(posted, remainingMillis);
      }
      posted := posted + [text];
      if notificationsEnabled {
        delivered := delivered + [text];
      }
      ticks := ticks + 1;
      remainingMillis := remainingMillis - MILLIS_PER_SECOND;
    }
    assert posted == ProgressTexts(budget);
    posted := posted + [FINISHED_TEXT];
    if notificationsEnabled {
      delivered := delivered + [FINISHED_TEXT];
    }
    result := Success;
  }

  lemma ProgressTextsStep(posted: seq<string>, remaining: int)
    requires remaining > 0
    ensures posted + ProgressTexts(remaining)
         == (posted + [FormatTime(remaining)]) + ProgressTexts(remaining - MILLIS_PER_SECOND)
  {
  }

  /** A positive budget yields ceil(budget / 1000) progress texts; a negative one none. */
  lemma {:induction false} ProgressTextsLength(budget: int)
    ensures |ProgressTexts(budget)| == ProgressCount(budget)
    decreases budget
  {
    if budget > 0 {
      ProgressTextsLength(budget - MILLIS_PER_SECOND);
    }
  }

  /** The i-th progress text shows the budget less i seconds, which is still positive. */
  lemma {:induction false} ProgressTextAt(budget: int, i: nat)
    requires i < |ProgressTexts(budget)|
    ensures budget - MILLIS_PER_SECOND * i > 0
    ensures ProgressTexts(budget)[i] == FormatTime(budget - MILLIS_PER_SECOND * i)
    decreases budget
  {
    assert budget > 0;
    var rest := ProgressTexts(budget - MILLIS_PER_SECOND);
    assert ProgressTexts(budget) == [FormatTime(budget)] + rest;
    if i > 0 {
      ProgressTextAt(budget - MILLIS_PER_SECOND, i - 1);
      assert ProgressTexts(budget)[i] == rest[i - 1];
    }
  }

  /** No progress text is posted twice: the texts count strictly down. */
  lemma ProgressTextsDistinct(budget: int, i: nat, j: nat)
    requires i < j < |ProgressTexts(budget)|
    ensures ProgressTexts(budget)[i] != ProgressTexts(budget)[j]
  {
    var texts := ProgressTexts(budget);
    var ti: int, tj: int := budget - MILLIS_PER_SECOND * i, budget - MILLIS_PER_SECOND * j;
    assert ti > 0 && texts[i] == FormatTime(ti) by {
      ProgressTextAt(budget, i);
    }
    assert tj > 0 && texts[j] == FormatTime(tj) by {
      ProgressTextAt(budget, j);
    }
    assert FormatTime(ti) != FormatTime(tj) by {
      SecondsApart(ti, tj, j - i);
      FormatTimeDistinct(ti, tj);
    }
  }

  lemma SecondsApart(ti: nat, tj: nat, k: nat)
    requires k > 0 && ti == tj + MILLIS_PER_SECOND * k
    ensures ti != tj && ti % MILLIS_PER_SECOND == tj % MILLIS_PER_SECOND
  {
    assert ti == k * MILLIS_PER_SECOND + tj;
    ModAddMultiple(tj, MILLIS_PER_SECOND, k);
  }

  lemma FirstFiveSeconds()
    ensures FormatTime(5000) == "00:00:05" && FormatTime(4000) == "00:00:04"
    ensures FormatTime(3000) == "00:00:03" && FormatTime(2000) == "00:00:02"
    ensures FormatTime(1000) == "00:00:01"
  {
    SmallPads();
    assert ClockOf(5000) == Clock(0, 0, 5) && ClockOf(4000) == Clock(0, 0, 4);
    assert ClockOf(3000) == Clock(0, 0, 3) && ClockOf(2000) == Clock(0, 0, 2);
    assert ClockOf(1000) == Clock(0, 0, 1);
  }

  lemma SmallPads()
    ensures Pad2(0) == "00" && Pad2(1) == "01" && Pad2(2) == "02"
    ensures Pad2(3) == "03" && Pad2(4) == "04" && Pad2(5) == "05"
  {
    assert NatToString(0) == "0" && NatToString(1) == "1" && NatToString(2) == "2";
    assert NatToString(3) == "3" && NatToString(4) == "4" && NatToString(5) == "5";
  }

  /** A five-second budget. */
  lemma FiveSecondBudget()
    ensures ProgressTexts(5000) == ["00:00:05", "00:00:04", "00:00:03", "00:00:02", "00:00:01"]
  {
    FirstFiveSeconds();
    assert ProgressTexts(0) == [];
    assert ProgressTexts(1000) == ["00:00:01"];
    assert ProgressTexts(2000) == ["00:00:02", "00:00:01"];
    assert ProgressTexts(3000) == ["00:00:03", "00:00:02", "00:00:01"];
    assert ProgressTexts(4000) == ["00:00:04", "00:00:03", "00:00:02", "00:00:01"];
  }
}

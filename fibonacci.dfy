// `FibonacciDemoNoBgThrd`: the naive recursive Fibonacci on `Long`, the
// parse-or-zero of the text field, and the `isCalculating` protocol of the
// button's click handler, which suspends while the number is computed.
module FibonacciDemo {
  import opened Numeric
  import opened Decimal

  /** `calculateFib(n)`, with `Long` addition wrapping silently. */
  function CalculateFib(n: Int64): Int64
    decreases n
  {
    if n <= 1 then n else Wrap64(CalculateFib(n - 1) + CalculateFib(n - 2))
  }

  /** The Fibonacci numbers: 0, 1, 1, 2, 3, 5, ... */
  function Fib(n: nat): nat {
    if n <= 1 then n else Fib(n - 1) + Fib(n - 2)
  }

  /** Every input at most 1, negative ones included, is its own result. */
  lemma CalculateFibBase(n: Int64)
    requires n <= 1
    ensures CalculateFib(n) == n
  {
  }

  /** For non-negative input the result is the Fibonacci number, wrapped to 64 bits. */
  lemma {:induction false} CalculateFibIsWrappedFib(n: nat)
    requires n <= INT64_MAX
    ensures CalculateFib(n) == Wrap64(Fib(n))
    decreases n
  {
    if n > 1 {
      var a: int, b: int := CalculateFib(n - 1), CalculateFib(n - 2);
      var x: int, y: int := Fib(n - 1), Fib(n - 2);
      assert a == Wrap64(x) by { CalculateFibIsWrappedFib(n - 1); }
      assert b == Wrap64(y) by { CalculateFibIsWrappedFib(n - 2); }
      assert CalculateFib(n) == Wrap64(a + b);
      assert Fib(n) == x + y;
      WrapStep(a, b, x, y);
    }
  }

  lemma WrapStep(a: int, b: int, x: int, y: int)
    requires a == Wrap64(x) && b == Wrap64(y)
    ensures Wrap64(a + b) == Wrap64(x + y)
  {
    Wrap64Add(x, y);
  }

  lemma {:induction false} FibMonotone(i: nat, j: nat)
    requires i <= j
    ensures Fib(i) <= Fib(j)
    decreases j - i
  {
    if i < j {
      FibMonotone(i, j - 1);
      assert Fib(j - 1) <= Fib(j) by {
        if j >= 2 {
          assert Fib(j) == Fib(j - 1) + Fib(j - 2);
        }
      }
    }
  }

  /** The addition law F(m + n + 1) = F(m + 1) F(n + 1) + F(m) F(n). */
  lemma {:induction false} FibAdd(m: nat, n: nat)
    ensures Fib(m + n + 1) == Fib(m + 1) * Fib(n + 1) + Fib(m) * Fib(n)
    decreases n
  {
    if n >= 1 {
      FibAdd(m + 1, n - 1);
      FibAddShift(m, n);
    } else {
      FibAddBase(m);
    }
  }

  lemma FibAddBase(m: nat)
    ensures Fib(m + 0 + 1) == Fib(m + 1) * Fib(0 + 1) + Fib(m) * Fib(0)
  {
    assert Fib(0) == 0 && Fib(1) == 1;
  }

  /** The law for (m + 1, n - 1) gives the law for (m, n). */
  lemma FibAddShift(m: nat, n: nat)
    requires n >= 1
    requires Fib((m + 1) + (n - 1) + 1) == Fib((m + 1) + 1) * Fib((n - 1) + 1) + Fib(m + 1) * Fib(n - 1)
    ensures Fib(m + n + 1) == Fib(m + 1) * Fib(n + 1) + Fib(m) * Fib(n)
  {
    var a: int, b: int, c: int := Fib(m + 2), Fib(m + 1), Fib(m);
    var x: int, y: int, z: int := Fib(n + 1), Fib(n), Fib(n - 1);
    assert a == b + c && x == y + z by {
      FibStep(m);
      FibStep(n - 1);
    }
    ShiftStep(a, b, c, x, y, z);
  }

  lemma FibStep(k: nat)
    ensures Fib(k + 2) == Fib(k + 1) + Fib(k)
  {
  }

  /** (b + c) y + b z = b (y + z) + c y: one step of the addition law's induction. */
  lemma ShiftStep(a: int, b: int, c: int, x: int, y: int, z: int)
    requires a == b + c && x == y + z
    ensures a * y + b * z == b * x + c * y
  {
    Distribute(y, b, c);
    Distribute(b, y, z);
  }

  lemma Distribute(a: int, p: int, q: int)
    ensures a * (p + q) == a * p + a * q
  {
  }

  lemma FibAt23()
    ensures Fib(22) == 17_711 && Fib(23) == 28_657 && Fib(24) == 46_368
  {
    assert Fib(10) == 55 && Fib(11) == 89 && Fib(12) == 144;
    FibDoubling(11, 55, 89, 144);
  }

  lemma FibAt46()
    ensures Fib(45) == 1_134_903_170 && Fib(46) == 1_836_311_903 && Fib(47) == 2_971_215_073
  {
    FibAt23();
    FibDoubling(23, 17_711, 28_657, 46_368);
  }

  /** F(92) is the largest Fibonacci number a `Long` holds; F(93) is not. */
  lemma FibAt92And93()
    ensures Fib(92) == 7_540_113_804_746_346_429 <= INT64_MAX
    ensures Fib(93) == 12_200_160_415_121_876_738 > INT64_MAX
  {
    FibAt46();
    FibDoubling(46, 1_134_903_170, 1_836_311_903, 2_971_215_073);
  }

  /** From F(k - 1), F(k), F(k + 1) to F(2k) and F(2k + 1). */
  lemma FibDoubling(k: nat, f0: nat, f1: nat, f2: nat)
    requires k >= 1 && Fib(k - 1) == f0 && Fib(k) == f1 && Fib(k + 1) == f2
    ensures Fib(2 * k) == f2 * f1 + f1 * f0 && Fib(2 * k + 1) == f2 * f2 + f1 * f1
  {
    FibAdd(k, k - 1);
    FibAdd(k, k);
  }

  /**
   * Up to n = 92 nothing wraps: the result is the exact Fibonacci number and
   * satisfies the recurrence without overflow.
   */
  lemma CalculateFibExact(n: Int64)
    requires 0 <= n <= 92
    ensures CalculateFib(n) == Fib(n)
    ensures n >= 2 ==> CalculateFib(n) == CalculateFib(n - 1) + CalculateFib(n - 2)
  {
    assert CalculateFib(n) == Fib(n) by { FitsUnwrapped(n); }
    if n >= 2 {
      assert CalculateFib(n - 1) == Fib(n - 1) by { FitsUnwrapped(n - 1); }
      assert CalculateFib(n - 2) == Fib(n - 2) by { FitsUnwrapped(n - 2); }
      assert Fib(n) == Fib(n - 1) + Fib(n - 2);
    }
  }

  lemma FitsUnwrapped(n: nat)
    requires n <= 92
    ensures CalculateFib(n) == Fib(n)
  {
    assert Fib(n) <= INT64_MAX by {
      FibAt92And93();
      FibMonotone(n, 92);
    }
    CalculateFibIsWrappedFib(n);
  }

  /** From n = 93 on the `Long` sum has wrapped: the result is never the Fibonacci number. */
  lemma CalculateFibWrapsFrom93(n: Int64)
    requires n >= 93
    ensures CalculateFib(n) != Fib(n)
  {
    FibAt92And93();
    FibMonotone(93, n);
  }

  /** `textInput.toLongOrNull() ?: 0`. */
  function ParseInput(text: string): (n: Int64)
    ensures ToLongOrNull(text).Some? ==> n == ToLongOrNull(text).value
    ensures ToLongOrNull(text).None? ==> n == 0
  {
    match ToLongOrNull(text)
    case Some(v) => v
    case None => 0
  }

  /** `"Error: ${e.message}"`; a null message prints as "null". */
  function ErrorText(message: Option<string>): string {
    "Error: " + (if message.Some? then message.value else "null")
  }

  /** The answer the click handler stores, given the parsed input and whether the computation threw. */
  function AnswerText(num: Int64, failure: Option<Option<string>>): string {
    if failure.Some? then ErrorText(failure.value) else LongToString(CalculateFib(num))
  }

  /**
   * The number computed for a digit string, bare or after one sign: its signed
   * value when that fits a `Long`, and 0 when it does not.
   */
  lemma ParseInputOfDigits(d: string)
    requires 1 <= |d| && AllDigits(d)
    ensures ParseInput(d) == if ValueOf(d) <= INT64_MAX then ValueOf(d) else 0
    ensures ParseInput("+" + d) == ParseInput(d)
    ensures ParseInput("-" + d) == if ValueOf(d) <= -INT64_MIN then 0 - ValueOf(d) else 0
  {
    ToLongOrNullOfDigits(d);
  }

  /** A non-digit anywhere but in a leading sign position makes the input 0. */
  lemma ParseInputNonNumeric(text: string, i: nat)
    requires i < |text| && !IsDigit(text[i])
    requires i == 0 ==> text[0] != '-' && text[0] != '+'
    ensures ParseInput(text) == 0
  {
    NonNumericIsNull(text, i);
  }

  /** "040" and "+40" give 40; one past `Long.MAX_VALUE`, the empty text and a lone sign give 0. */
  lemma ParseInputExamples()
    ensures ParseInput("040") == 40 && ParseInput("+40") == 40
    ensures ParseInput(NatToString(INT64_MAX + 1)) == 0
    ensures ParseInput("") == 0 && ParseInput("-") == 0
  {
    ToLongOrNullExamples();
    OnePastMaxIsNull();
    SignAloneIsNull();
  }

  /** Input that is not a `Long` is computed as 0, and the answer is "0". */
  lemma UnparsableInputAnswersZero(text: string)
    requires ToLongOrNull(text) == None
    ensures ParseInput(text) == 0 && AnswerText(ParseInput(text), None) == "0"
  {
    assert CalculateFib(0) == 0;
    assert NatToString(0) == "0";
  }

  /** A successful answer reads back as the computed `Long`. */
  lemma AnswerReadsBack(num: Int64)
    ensures ToLongOrNull(AnswerText(num, None)) == Some(CalculateFib(num))
  {
    LongRoundTrip(CalculateFib(num));
  }

  const CALCULATING: string := "Calculating..."

  function ButtonLabel(isCalculating: bool): string {
    if isCalculating then CALCULATING else "Calculate Fibonacci"
  }

  function ResultText(isCalculating: bool, answer: string): string {
    if isCalculating then CALCULATING else "Result: " + answer
  }

  predicate ButtonEnabled(isCalculating: bool) {
    !isCalculating
  }

  /** Both texts show "Calculating..." exactly while the flag is set, whatever the answer is. */
  lemma LabelsFollowFlag(isCalculating: bool, answer: string)
    ensures ButtonLabel(isCalculating) == CALCULATING <==> isCalculating
    ensures ResultText(isCalculating, answer) == CALCULATING <==> isCalculating
    ensures !isCalculating ==> ResultText(isCalculating, answer)[..8] == "Result: "
  {
    if !isCalculating {
      assert ResultText(isCalculating, answer)[0] == 'R' != CALCULATING[0];
      assert ButtonLabel(isCalculating)[8] == 'e' != CALCULATING[8];
    }
  }

  /** The composable's remembered state. */
  class FibonacciScreen {
    var answer: string
    var textInput: string
    var isCalculating: bool

    constructor ()
      ensures answer == "" && textInput == "40" && !isCalculating
    {
      answer, textInput, isCalculating := "", "40", false;
    }

    /** The text field's `onValueChange`. */
    method EditInput(text: string)
      modifies this`textInput
      ensures textInput == text
    {
      textInput := text;
    }

    /**
     * The click handler up to its suspension: the flag is raised, then the
     * input is read once. Only an enabled button can be clicked.
     */
    method BeginClick() returns (num: Int64)
      requires ButtonEnabled(isCalculating)
      modifies this`isCalculating
      ensures isCalculating && num == ParseInput(textInput)
    {
      isCalculating := true;
      num := ParseInput(textInput);
    }

    /**
     * The click handler after `withContext` returns or throws: the answer is
     * stored and the flag is lowered on both paths.
     */
    method FinishClick(num: Int64, failure: Option<Option<string>>)
      requires isCalculating
      modifies this`answer, this`isCalculating
      ensures !isCalculating && answer == AnswerText(num, failure)
    {
      if failure.None? {
        var result := CalculateFib(num);
        answer := LongToString(result);
      } else {
        answer := ErrorText(failure.value);
      }
      isCalculating := false;
    }
  }

  /**
   * Type `input`, click, and let the computation finish or throw: while it runs
   * the button is disabled and both texts read "Calculating..."; afterwards the
   * button is enabled again and the result text shows the answer.
   */
  method ClickSession(input: string, failure: Option<Option<string>>)
    returns (enabledDuring: bool, labelDuring: string, resultDuring: string,
             enabledAfter: bool, resultAfter: string)
    ensures !enabledDuring && labelDuring == CALCULATING && resultDuring == CALCULATING
    ensures enabledAfter && resultAfter == "Result: " + AnswerText(ParseInput(input), failure)
  {
    var screen := new FibonacciScreen();
    screen.EditInput(input);
    var num := screen.BeginClick();
    enabledDuring := ButtonEnabled(screen.isCalculating);
    labelDuring := ButtonLabel(screen.isCalculating);
    resultDuring := ResultText(screen.isCalculating, screen.answer);
    screen.FinishClick(num, failure);
    enabledAfter := ButtonEnabled(screen.isCalculating);
    resultAfter := ResultText(screen.isCalculating, screen.answer);
  }
}

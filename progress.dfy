/**
 * The form's progress bar and the four labels that `UpdateUI` writes. The
 * bar behaves as a WinForms `ProgressBar`: setting `Maximum` or `Minimum` to
 * a negative number throws `ArgumentOutOfRangeException` and changes nothing;
 * otherwise setting `Maximum` below the minimum or the value pulls them down,
 * and setting `Minimum` above the maximum or the value pushes them up.
 * Setting `Value` outside [Minimum, Maximum] throws and changes nothing.
 */
module Progress {
  import opened Digits

  /**
   * The value `UpdateUI` leaves on a bar from 0 to `maximum` that showed
   * `current`: a report in range is shown, one above the range is clamped
   * to the maximum, and a negative one is ignored.
   */
  function NextValue(current: int, maximum: int, report: int): (v: int)
    ensures 0 <= report <= maximum ==> v == report
    ensures report > maximum ==> v == maximum
    ensures report < 0 <= maximum ==> v == current
  {
    if 0 <= report <= maximum then report
    else if report > maximum then maximum
    else current
  }

  /** A bar from 0 to `maximum` stays in range whatever is reported. */
  lemma NextValueInRange(current: int, maximum: int, report: int)
    requires 0 <= current <= maximum
    ensures 0 <= NextValue(current, maximum, report) <= maximum
  {
  }

  /** Reporting the same progress twice shows the same as reporting it once. */
  lemma NextValueIdempotent(current: int, maximum: int, report: int)
    ensures NextValue(NextValue(current, maximum, report), maximum, report) == NextValue(current, maximum, report)
  {
  }

  /** After a non-negative report the bar shows it clamped, whatever it showed before. */
  lemma NextValueForgetsPast(a: int, b: int, maximum: int, report: int)
    requires report >= 0
    ensures NextValue(a, maximum, report) == NextValue(b, maximum, report)
  {
  }

  /**
   * The bar the worker threads report to, with the labels that show the
   * last report: start time, finish time, duration and thread number.
   */
  class ProgressIndicator {
    var minimum: int
    var maximum: int
    var value: int
    var step: int
    var startLabel: string
    var finishLabel: string
    var durationLabel: string
    var threadLabel: string

    /** What every `ProgressBar` keeps: the value lies between the bounds. */
    predicate InRange()
      reads this
    {
      minimum <= value <= maximum
    }

    /** What the form keeps besides: the bar starts at 0. */
    predicate Valid()
      reads this
    {
      InRange() && minimum == 0
    }

    /**
     * The form's constructor: a bar from 0 to 100 at 0 with step 10 (the
     * `ProgressBar` defaults), then `Maximum = 100`.
     */
    constructor()
      ensures Valid()
      ensures maximum == 100 && value == 0 && step == 10
      ensures startLabel == "" && finishLabel == "" && durationLabel == "" && threadLabel == ""
    {
      minimum, maximum, value, step := 0, 100, 0, 10;
      startLabel, finishLabel, durationLabel, threadLabel := "", "", "", "";
      new;
      var thrown := SetMaximum(100);
    }

    /**
     * `Maximum = m`: a negative m throws (`thrown`) and leaves the bar as it
     * was; otherwise the minimum and the value are lowered to m when they
     * exceed it.
     */
    method SetMaximum(m: int) returns (thrown: bool)
      modifies this
      ensures thrown <==> m < 0
      ensures maximum == if thrown then old(maximum) else m
      ensures minimum == if !thrown && old(minimum) > m then m else old(minimum)
      ensures value == if !thrown && old(value) > m then m else old(value)
      ensures step == old(step)
      ensures startLabel == old(startLabel) && finishLabel == old(finishLabel)
      ensures durationLabel == old(durationLabel) && threadLabel == old(threadLabel)
      ensures old(InRange()) ==> InRange()
    {
      thrown := m < 0;
      if !thrown {
        if minimum > m {
          minimum := m;
        }
        maximum := m;
        if value > m {
          value := m;
        }
      }
    }

    /**
     * `Minimum = m`: a negative m throws (`thrown`) and leaves the bar as it
     * was; otherwise the maximum and the value are raised to m when they are
     * below it.
     */
    method SetMinimum(m: int) returns (thrown: bool)
      modifies this
      ensures thrown <==> m < 0
      ensures minimum == if thrown then old(minimum) else m
      ensures maximum == if !thrown && old(maximum) < m then m else old(maximum)
      ensures value == if !thrown && old(value) < m then m else old(value)
      ensures step == old(step)
      ensures startLabel == old(startLabel) && finishLabel == old(finishLabel)
      ensures durationLabel == old(durationLabel) && threadLabel == old(threadLabel)
      ensures old(InRange()) ==> InRange()
    {
      thrown := m < 0;
      if !thrown {
        if maximum < m {
          maximum := m;
        }
        minimum := m;
        if value < m {
          value := m;
        }
      }
    }

    /** `Step = s`. */
    method SetStep(s: int)
      modifies this
      ensures step == s
      ensures minimum == old(minimum) && maximum == old(maximum) && value == old(value)
      ensures startLabel == old(startLabel) && finishLabel == old(finishLabel)
      ensures durationLabel == old(durationLabel) && threadLabel == old(threadLabel)
    {
      step := s;
    }

    /**
     * `Value = v`: stored when it lies between the bounds; otherwise the
     * setter throws (`thrown`) and the bar is left as it was.
     */
    method SetValue(v: int) returns (thrown: bool)
      modifies this
      ensures thrown <==> v < old(minimum) || v > old(maximum)
      ensures value == if thrown then old(value) else v
      ensures minimum == old(minimum) && maximum == old(maximum) && step == old(step)
      ensures startLabel == old(startLabel) && finishLabel == old(finishLabel)
      ensures durationLabel == old(durationLabel) && threadLabel == old(threadLabel)
      ensures old(InRange()) ==> InRange()
    {
      thrown := v < minimum || v > maximum;
      if !thrown {
        value := v;
      }
    }

    /**
     * The reset before a run: `Maximum = 100`, `Step = 1`, `Minimum = 0`,
     * `Value = 0`. From any bar it leaves a bar from 0 to 100 at 0.
     */
    method Reset()
      requires InRange()
      modifies this
      ensures Valid()
      ensures maximum == 100 && step == 1 && minimum == 0 && value == 0
      ensures startLabel == old(startLabel) && finishLabel == old(finishLabel)
      ensures durationLabel == old(durationLabel) && threadLabel == old(threadLabel)
    {
      var thrown := SetMaximum(100);
      SetStep(1);
      thrown := SetMinimum(0);
      thrown := SetValue(0);
    }

    /**
     * `UpdateUI` on the form's thread: the labels show the report, and the
     * bar shows the progress as `NextValue` says. The setter never throws
     * here, so the handler for `ArgumentOutOfRangeException` is never
     * entered (`caught` is false).
     */
    method Update(startTime: string, finishTime: string, duration: string, threadId: int, progressValue: int)
      returns (caught: bool)
      requires Valid()
      modifies this
      ensures Valid()
      ensures !caught
      ensures startLabel == startTime && finishLabel == finishTime && durationLabel == duration
      ensures threadLabel == IntToText(threadId)
      ensures value == NextValue(old(value), old(maximum), progressValue)
      ensures minimum == old(minimum) && maximum == old(maximum) && step == old(step)
    {
      startLabel := startTime;
      finishLabel := finishTime;
      durationLabel := duration;
      threadLabel := IntToText(threadId);
      caught := false;
      if progressValue >= 0 && progressValue <= maximum {
        caught := SetValue(progressValue);
      } else if progressValue > maximum {
        caught := SetValue(maximum);
      }
      // The handler for `ArgumentOutOfRangeException` shows the maximum.
      value := if caught then maximum else value;
    }
  }
}

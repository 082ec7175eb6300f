/** The execution budget shared by every rule of one run. */
module Budget {

  datatype Budget = Budget(maxSteps: nat, maxWallclockMs: nat, maxPeakBytes: nat)

  const DEFAULT := Budget(10_000_000, 2_000, 64 * 1024 * 1024)

  /** Elapsed milliseconds as read at a given step count: the wall clock is an oracle. */
  type Clock = nat -> nat

  const CLOCK_PERIOD := 1024

  datatype BudgetError = MaxSteps | MaxWallclock | MaxPeakBytes

  datatype Result<+T> = Ok(value: T) | Err(error: BudgetError)

  datatype Check = Pass | Fail(error: BudgetError)

  /** The verdict when step number `s` is counted: the step limit at every step, the clock at every
      multiple of 1024. */
  function CheckStep(b: Budget, clock: Clock, s: nat): Check {
    if s > b.maxSteps then Fail(MaxSteps)
    else if s % CLOCK_PERIOD == 0 && clock(s) > b.maxWallclockMs then Fail(MaxWallclock)
    else Pass
  }

  /** Every step counted after the first `from`, up to `to`, passes. */
  ghost predicate StepsFit(b: Budget, clock: Clock, from: nat, to: nat) {
    forall s :: from < s <= to ==> CheckStep(b, clock, s).Pass?
  }

  /** What the check of the next step says about a stretch of steps. */
  lemma NextStep(b: Budget, clock: Clock, from: nat, s: nat, to: nat)
    requires from <= s < to && StepsFit(b, clock, from, s)
    ensures StepsFit(b, clock, from, s + 1) <==> CheckStep(b, clock, s + 1).Pass?
    ensures CheckStep(b, clock, s + 1).Fail? ==> !StepsFit(b, clock, from, to)
  {
    hide CheckStep;
  }

  class BudgetRunner {
    const budget: Budget
    const clock: Clock
    var steps: nat
    var peakBytes: nat

    constructor (budget: Budget, clock: Clock)
      ensures this.budget == budget && this.clock == clock
      ensures steps == 0 && peakBytes == 0
    {
      this.budget, this.clock := budget, clock;
      steps, peakBytes := 0, 0;
    }

    /** Count one visited line. */
    method Tick() returns (c: Check)
      modifies this`steps
      ensures steps == old(steps) + 1
      ensures c == CheckStep(budget, clock, steps)
    {
      steps := steps + 1;
      if steps > budget.maxSteps {
        return Fail(MaxSteps);
      }
      if steps % CLOCK_PERIOD == 0 {
        var elapsed := clock(steps);
        if elapsed > budget.maxWallclockMs {
          return Fail(MaxWallclock);
        }
      }
      return Pass;
    }

    /** Record a live-bytes total; the verdict is on the largest total so far. */
    method ObserveBytes(total: nat) returns (c: Check)
      modifies this`peakBytes
      ensures peakBytes == if total > old(peakBytes) then total else old(peakBytes)
      ensures c == if peakBytes > budget.maxPeakBytes then Fail(MaxPeakBytes) else Pass
    {
      if total > peakBytes {
        peakBytes := total;
      }
      if peakBytes > budget.maxPeakBytes {
        return Fail(MaxPeakBytes);
      }
      return Pass;
    }
  }
}

/** Runs of the counter together with the calls that were made. */
module CounterHistory {
  import opened Counter

  ghost predicate StepAt(run: seq<State>, steps: seq<Step>, i: nat)
    requires i < |steps| && i + 1 < |run|
  {
    Enabled(run[i], steps[i]) && run[i + 1] == Do(run[i], steps[i])
  }

  /** A run from a start value, and the steps it takes. */
  ghost predicate IsTrace(run: seq<State>, steps: seq<Step>, val: real) {
    && |run| == |steps| + 1 && run[0] == Init(val)
    && forall i :: 0 <= i < |steps| ==> StepAt(run, steps, i)
  }

  lemma {:induction false} TraceInv(run: seq<State>, steps: seq<Step>, n: nat, val: real)
    requires IsTrace(run, steps, val) && n < |run|
    ensures Inv(run[n], val)
  {
    if n == 0 {
      StartKeepsValue(val);
    } else {
      TraceInv(run, steps, n - 1, val);
      assert StepAt(run, steps, n - 1);
      InvKept(run[n - 1], steps[n - 1], val);
    }
  }

  /** All increments asked for so far; negative ones are ignored. */
  function Asked(steps: seq<Step>, n: nat): real
    requires n <= |steps|
  {
    if n == 0 then 0.0
    else Asked(steps, n - 1) + if steps[n - 1].Inc? && steps[n - 1].val >= 0.0 then steps[n - 1].val else 0.0
  }

  /** What the goroutine still has to add. */
  function Pending(pc: Pc): real {
    match pc
    case Retrying(val) => val
    case Loaded(val, _) => val
    case _ => 0.0
  }

  function AllPending(threads: seq<Pc>): real {
    if threads == [] then 0.0 else AllPending(threads[..|threads| - 1]) + Pending(threads[|threads| - 1])
  }

  lemma {:induction false} PendingUpdate(threads: seq<Pc>, t: nat, pc: Pc)
    requires t < |threads|
    ensures AllPending(threads[t := pc]) == AllPending(threads) - Pending(threads[t]) + Pending(pc)
  {
    var n := |threads| - 1;
    if t < n {
      PendingUpdate(threads[..n], t, pc);
      assert threads[t := pc][..n] == threads[..n][t := pc];
    } else {
      assert threads[t := pc][..n] == threads[..n];
    }
  }

  lemma PendingSpawn(threads: seq<Pc>)
    ensures AllPending(threads + [Idle]) == AllPending(threads)
  {
    assert (threads + [Idle])[..|threads|] == threads;
  }

  lemma CountedOrPending(s: State, step: Step)
    requires Enabled(s, step)
    ensures var s' := Do(s, step);
            Total(s') + AllPending(s'.threads) ==
            Total(s) + AllPending(s.threads) + if step.Inc? && step.val >= 0.0 then step.val else 0.0
  {
    var s' := Do(s, step);
    if step.Spawn? {
      PendingSpawn(s.threads);
    } else {
      PendingUpdate(s.threads, step.t, s'.threads[step.t]);
      assert s'.threads == s.threads[step.t := s'.threads[step.t]];
    }
  }

  /** Every increment asked for is in the value or still pending in a retry loop. */
  lemma {:induction false} AskedIsCountedOrPending(run: seq<State>, steps: seq<Step>, n: nat, val: real)
    requires IsTrace(run, steps, val) && n < |run|
    ensures Total(run[n]) + AllPending(run[n].threads) == val + Asked(steps, n)
  {
    if n == 0 {
      StartKeepsValue(val);
    } else {
      AskedIsCountedOrPending(run, steps, n - 1, val);
      assert StepAt(run, steps, n - 1);
      CountedOrPending(run[n - 1], steps[n - 1]);
    }
  }

  lemma {:induction false} NonePending(threads: seq<Pc>)
    requires forall t :: 0 <= t < |threads| ==> !threads[t].Retrying? && !threads[t].Loaded?
    ensures AllPending(threads) == 0.0
  {
    if threads != [] { NonePending(threads[..|threads| - 1]); }
  }

  /** When no Inc is under way, the value is the start value plus all increments asked for. */
  lemma AskedIsCounted(run: seq<State>, steps: seq<Step>, n: nat, val: real)
    requires IsTrace(run, steps, val) && n < |run|
    requires forall t :: 0 <= t < |run[n].threads| ==> !run[n].threads[t].Retrying? && !run[n].threads[t].Loaded?
    ensures Total(run[n]) == val + Asked(steps, n)
  {
    AskedIsCountedOrPending(run, steps, n, val);
    NonePending(run[n].threads);
  }

  /** The total at the start of the Get that the goroutine is in. */
  ghost predicate StartedAt(run: seq<State>, steps: seq<Step>, k: nat, n: nat, t: nat)
    requires n < |run| && t < |run[n].threads|
  {
    && k < n && k < |steps| && steps[k] == Get(t)
    && (forall m :: k < m < n && m < |steps| ==> steps[m] != Get(t))
    && match run[n].threads[t]
       case Getting(low) => low == Total(run[k])
       case HalfRead(low, _) => low == Total(run[k])
       case _ => false
  }

  lemma GetStep(s: State, step: Step, t: nat)
    requires Enabled(s, step) && t < |Do(s, step).threads|
    requires Do(s, step).threads[t].Getting? || Do(s, step).threads[t].HalfRead?
    ensures if step == Get(t) then Do(s, step).threads[t] == Getting(Total(s))
            else
              && t < |s.threads| && (s.threads[t].Getting? || s.threads[t].HalfRead?)
              && s.threads[t].low == Do(s, step).threads[t].low
  {
  }

  lemma {:induction false} GetStarted(run: seq<State>, steps: seq<Step>, n: nat, t: nat, val: real) returns (k: nat)
    requires IsTrace(run, steps, val) && n < |run| && t < |run[n].threads|
    requires run[n].threads[t].Getting? || run[n].threads[t].HalfRead?
    ensures StartedAt(run, steps, k, n, t)
  {
    assert StepAt(run, steps, n - 1);
    GetStep(run[n - 1], steps[n - 1], t);
    if steps[n - 1] == Get(t) { k := n - 1; } else { k := GetStarted(run, steps, n - 1, t, val); }
  }

  /**
   A Get that finishes returns a value between the total when it was called and the total when
   it returns, though others count in between.
   */
  lemma GetReturnsBetween(run: seq<State>, steps: seq<Step>, n: nat, val: real) returns (k: nat)
    requires IsTrace(run, steps, val) && n < |steps| && steps[n].LoadInt?
    ensures k < n && steps[k] == Get(steps[n].t) && forall m :: k < m < n ==> steps[m] != Get(steps[n].t)
    ensures |run[n + 1].readings| == |run[n].readings| + 1
    ensures Total(run[k]) <= run[n + 1].readings[|run[n].readings|].value <= Total(run[n])
  {
    assert StepAt(run, steps, n);
    k := GetStarted(run, steps, n, steps[n].t, val);
    TraceInv(run, steps, n + 1, val);
    TraceInv(run, steps, n, val);
  }
}

/** Runs of the connection manager together with the calls that were made. */
module ConnectionHistory {
  import opened Wrappers
  import opened ConnectionManager

  ghost predicate StepAt(run: seq<State>, steps: seq<Step>, i: nat)
    requires i < |steps| && i + 1 < |run|
  {
    Enabled(run[i], steps[i]) && run[i + 1] == Do(run[i], steps[i])
  }

  /** A run and the steps it takes. */
  ghost predicate IsTrace(run: seq<State>, steps: seq<Step>) {
    && |run| == |steps| + 1 && run[0] == Init
    && forall i :: 0 <= i < |steps| ==> StepAt(run, steps, i)
  }

  // ------------------------------------------------------ what an acquisition gives

  /** The address that the goroutine last asked for. */
  function LastGet(steps: seq<Step>, n: nat, t: nat): Option<Addr>
    requires n <= |steps|
  {
    if n == 0 then None
    else if steps[n - 1].Get? && steps[n - 1].t == t then Some(steps[n - 1].addr)
    else LastGet(steps, n - 1, t)
  }

  ghost predicate AsAsked(pc: Pc, steps: seq<Step>, n: nat, t: nat)
    requires n <= |steps|
  {
    match pc
    case Dialing(addr) => LastGet(steps, n, t) == Some(addr)
    case Dialed(addr, _) => LastGet(steps, n, t) == Some(addr)
    case _ => true
  }

  lemma ThreadStep(s: State, step: Step, steps: seq<Step>, n: nat, t: nat)
    requires Enabled(s, step) && n < |steps| && steps[n] == step && t < |Do(s, step).threads|
    requires t < |s.threads| ==> AsAsked(s.threads[t], steps, n, t)
    ensures AsAsked(Do(s, step).threads[t], steps, n + 1, t)
  {
  }

  lemma {:induction false} ThreadsDoAsAsked(run: seq<State>, steps: seq<Step>, n: nat, t: nat)
    requires IsTrace(run, steps) && n < |run| && t < |run[n].threads|
    ensures AsAsked(run[n].threads[t], steps, n, t)
  {
    if n > 0 {
      if t < |run[n - 1].threads| { ThreadsDoAsAsked(run, steps, n - 1, t); }
      assert StepAt(run, steps, n - 1);
      ThreadStep(run[n - 1], steps[n - 1], steps, n - 1, t);
    }
  }

  /** The first section finds a connection, or the second one installs or joins one. */
  predicate GivesOut(s: State, step: Step) {
    (step.Get? && step.addr in s.table) || step.Install?
  }

  /** What is given out is the connection installed for the address that the same goroutine asked for. */
  lemma HandleIsWhatWasAskedFor(run: seq<State>, steps: seq<Step>, n: nat)
    requires IsTrace(run, steps) && n < |steps|
    ensures |run[n + 1].handles| == |run[n].handles| + if GivesOut(run[n], steps[n]) then 1 else 0
    ensures GivesOut(run[n], steps[n]) ==>
              var handle := run[n + 1].handles[|run[n].handles|];
              && handle.Some? && LastGet(steps, n + 1, steps[n].t) == Some(handle.value.addr)
              && HeldBy(run[n + 1], handle.value.addr, handle.value.conn)
  {
    assert StepAt(run, steps, n);
    if steps[n].Install? { ThreadsDoAsAsked(run, steps, n, steps[n].t); }
  }

  // ------------------------------------------------------------- no call disappears

  function Calls(steps: seq<Step>, n: nat): nat
    requires n <= |steps|
  {
    if n == 0 then 0 else Calls(steps, n - 1) + if steps[n - 1].Get? then 1 else 0
  }

  function FailedDials(steps: seq<Step>, n: nat): nat
    requires n <= |steps|
  {
    if n == 0 then 0 else FailedDials(steps, n - 1) + if steps[n - 1].Dial? && !steps[n - 1].ok then 1 else 0
  }

  predicate UnderWay(pc: Pc) {
    pc.Dialing? || pc.Dialed?
  }

  function AllUnderWay(threads: seq<Pc>): nat {
    if threads == [] then 0
    else AllUnderWay(threads[..|threads| - 1]) + if UnderWay(threads[|threads| - 1]) then 1 else 0
  }

  lemma {:induction false} UnderWayUpdate(threads: seq<Pc>, t: nat, pc: Pc)
    requires t < |threads|
    ensures AllUnderWay(threads[t := pc]) ==
            AllUnderWay(threads) - (if UnderWay(threads[t]) then 1 else 0) + (if UnderWay(pc) then 1 else 0)
  {
    var n := |threads| - 1;
    if t < n {
      UnderWayUpdate(threads[..n], t, pc);
      assert threads[t := pc][..n] == threads[..n][t := pc];
    } else {
      assert threads[t := pc][..n] == threads[..n];
    }
  }

  lemma CallStep(s: State, step: Step)
    requires Enabled(s, step)
    ensures var s' := Do(s, step);
            |s'.handles| + AllUnderWay(s'.threads) + (if step.Dial? && !step.ok then 1 else 0) ==
            |s.handles| + AllUnderWay(s.threads) + (if step.Get? then 1 else 0)
  {
    var s' := Do(s, step);
    match step
    case Spawn => assert (s.threads + [Idle])[..|s.threads|] == s.threads;
    case Get(t, _) => UnderWayUpdate(s.threads, t, s'.threads[t]);
    case Dial(t, _) => UnderWayUpdate(s.threads, t, s'.threads[t]);
    case Install(t) => UnderWayUpdate(s.threads, t, s'.threads[t]);
    case Discard(t) => UnderWayUpdate(s.threads, t, s'.threads[t]);
    case Release(_) =>
    case UnheldRelease(_) =>
  }

  /** Every call of GetConnection has given out a handle, has failed to dial, or is under way. */
  lemma {:induction false} EveryCallIsAnswered(run: seq<State>, steps: seq<Step>, n: nat)
    requires IsTrace(run, steps) && n < |run|
    ensures Calls(steps, n) == |run[n].handles| + FailedDials(steps, n) + AllUnderWay(run[n].threads)
  {
    if n > 0 {
      EveryCallIsAnswered(run, steps, n - 1);
      assert StepAt(run, steps, n - 1);
      CallStep(run[n - 1], steps[n - 1]);
    }
  }
}

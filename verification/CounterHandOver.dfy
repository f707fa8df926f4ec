/**
 The hand-over of a counter from the toolkit to the agent: the value is copied, then the
 functions for adding and reading are replaced one after the other, while other goroutines
 go on counting.
 */
module CounterHandOver {
  import C = Counter

  /** How far the hand-over is. */
  datatype Stage = Before | Copied | AddReplaced | Replaced

  datatype Pc =
    | Idle
    | AddingToToolkit(val: real)    // has loaded the toolkit's function
    | AddingToAgent(val: real)      // has loaded the agent's function

  /**
   `toolkit` and `agent` are the values of the two counters. History: the increments added to
   the toolkit's before and after the copy, and those added to the agent's.
   */
  datatype State = State(
    stage: Stage, toolkit: real, agent: real, threads: seq<Pc>,
    early: seq<real>, late: seq<real>, direct: seq<real>)

  const Init := State(Before, 0.0, 0.0, [], [], [], [])

  datatype Step =
    | Spawn
    | Copy
    | ReplaceAdd
    | ReplaceGet
    | Inc(t: nat, val: real)
    | Add(t: nat)

  predicate Enabled(s: State, step: Step) {
    match step
    case Spawn => true
    case Copy => s.stage.Before?
    case ReplaceAdd => s.stage.Copied?
    case ReplaceGet => s.stage.AddReplaced?
    case Inc(t, _) => t < |s.threads| && s.threads[t].Idle?
    case Add(t) => t < |s.threads| && !s.threads[t].Idle?
  }

  /** The agent's counter ignores negative values, the toolkit's does not. */
  function Do(s: State, step: Step): State
    requires Enabled(s, step)
  {
    match step
    case Spawn => s.(threads := s.threads + [Idle])
    case Copy => s.(stage := Copied, agent := C.Total(C.Init(s.toolkit)))
    case ReplaceAdd => s.(stage := AddReplaced)
    case ReplaceGet => s.(stage := Replaced)
    case Inc(t, val) =>
      s.(threads := s.threads[t := if s.stage.Before? || s.stage.Copied? then AddingToToolkit(val) else AddingToAgent(val)])
    case Add(t) =>
      var s1 := s.(threads := s.threads[t := Idle]);
      (match s.threads[t]
       case AddingToToolkit(val) =>
         if s.stage.Before? then s1.(toolkit := s.toolkit + val, early := s.early + [val])
         else s1.(toolkit := s.toolkit + val, late := s.late + [val])
       case AddingToAgent(val) =>
         if val < 0.0 then s1 else s1.(agent := s.agent + val, direct := s.direct + [val])
       case Idle => s)
  }

  ghost predicate Steps(s: State, s': State) {
    exists step :: Enabled(s, step) && s' == Do(s, step)
  }

  ghost predicate IsRun(run: seq<State>) {
    && |run| > 0 && run[0] == Init
    && forall i :: 0 <= i < |run| - 1 ==> Steps(run[i], run[i + 1])
  }

  /** What a Get of the counter returns. */
  function Value(s: State): real {
    if s.stage.Replaced? then s.agent else s.toolkit
  }

  function All(s: State): real {
    C.Sum(s.early) + C.Sum(s.late) + C.Sum(s.direct)
  }

  ghost predicate Inv(s: State) {
    && s.toolkit == C.Sum(s.early) + C.Sum(s.late)
    && (s.stage.Before? ==> s.late == [])
    && (s.stage.Before? || s.stage.Copied? ==> s.direct == [] && forall t :: 0 <= t < |s.threads| ==> !s.threads[t].AddingToAgent?)
    && (!s.stage.Before? ==> s.agent == C.Sum(s.early) + C.Sum(s.direct))
  }

  lemma SumAppend(vs: seq<real>, v: real)
    ensures C.Sum(vs + [v]) == C.Sum(vs) + v
  {
    assert (vs + [v])[..|vs|] == vs;
  }

  /** An increment reaches the counter whose function the goroutine has loaded. */
  lemma AddKept(s: State, s': State, val: real)
    requires Inv(s) && s'.stage == s.stage && forall t :: 0 <= t < |s'.threads| ==> s'.threads[t].Idle? || s'.threads[t] in s.threads
    requires
      || (s.stage.Before? && s' == s.(threads := s'.threads, toolkit := s.toolkit + val, early := s.early + [val]))
      || (!s.stage.Before? && s' == s.(threads := s'.threads, toolkit := s.toolkit + val, late := s.late + [val]))
      || (!s.stage.Before? && !s.stage.Copied? && s' == s.(threads := s'.threads, agent := s.agent + val, direct := s.direct + [val]))
    ensures Inv(s')
  {
    SumAppend(s.early, val);
    SumAppend(s.late, val);
    SumAppend(s.direct, val);
  }

  lemma InvKept(s: State, step: Step)
    requires Inv(s) && Enabled(s, step)
    ensures Inv(Do(s, step))
  {
    match step
    case Copy => C.StartKeepsValue(s.toolkit);
    case Add(t) => if Do(s, step) != s.(threads := s.threads[t := Idle]) { AddKept(s, Do(s, step), s.threads[t].val); }
    case _ =>
  }

  lemma {:induction false} ReachableInv(run: seq<State>, i: nat)
    requires IsRun(run) && i < |run|
    ensures Inv(run[i])
  {
    if i > 0 {
      ReachableInv(run, i - 1);
      assert Steps(run[i - 1], run[i - 1 + 1]);
      var step :| Enabled(run[i - 1], step) && run[i] == Do(run[i - 1], step);
      InvKept(run[i - 1], step);
    }
  }

  lemma {:induction false} PositiveSum(vs: seq<real>)
    requires forall i :: 0 <= i < |vs| ==> vs[i] > 0.0
    ensures C.Sum(vs) >= 0.0 && (C.Sum(vs) == 0.0 <==> vs == [])
  {
    if vs != [] { PositiveSum(vs[..|vs| - 1]); }
  }

  /**
   After the hand-over the counter is short of exactly the increments that reached the
   toolkit's counter after the copy; so, when increments are positive, nothing is lost exactly
   if there is none of these. Until then it is short of what already went to the agent's.
   */
  lemma LostIffAddedAfterTheCopy(run: seq<State>, i: nat)
    requires IsRun(run) && i < |run|
    ensures run[i].stage.Replaced? ==> Value(run[i]) == All(run[i]) - C.Sum(run[i].late)
    ensures !run[i].stage.Replaced? ==> Value(run[i]) == All(run[i]) - C.Sum(run[i].direct)
    ensures run[i].stage.Replaced? && (forall k :: 0 <= k < |run[i].late| ==> run[i].late[k] > 0.0) ==>
              (Value(run[i]) == All(run[i]) <==> run[i].late == [])
  {
    ReachableInv(run, i);
    if forall k :: 0 <= k < |run[i].late| ==> run[i].late[k] > 0.0 { PositiveSum(run[i].late); }
  }

  // ----------------------------------------------------------- the calls that were made

  ghost predicate StepAt(run: seq<State>, steps: seq<Step>, i: nat)
    requires i < |steps| && i + 1 < |run|
  {
    Enabled(run[i], steps[i]) && run[i + 1] == Do(run[i], steps[i])
  }

  /** A run and the steps it takes. */
  ghost predicate IsTrace(run: seq<State>, steps: seq<Step>) {
    && |run| == |steps| + 1 && run[0] == Init
    && forall i :: 0 <= i < |steps| ==> StepAt(run, steps, i)
  }

  /** All increments asked for so far. */
  function Asked(steps: seq<Step>, n: nat): real
    requires n <= |steps|
  {
    if n == 0 then 0.0 else Asked(steps, n - 1) + if steps[n - 1].Inc? then steps[n - 1].val else 0.0
  }

  function Pending(threads: seq<Pc>): real {
    if threads == [] then 0.0
    else
      var last := threads[|threads| - 1];
      Pending(threads[..|threads| - 1]) + if last.Idle? then 0.0 else last.val
  }

  lemma {:induction false} PendingUpdate(threads: seq<Pc>, t: nat, pc: Pc)
    requires t < |threads|
    ensures Pending(threads[t := pc]) ==
            Pending(threads) - (if threads[t].Idle? then 0.0 else threads[t].val) + (if pc.Idle? then 0.0 else pc.val)
  {
    var n := |threads| - 1;
    if t < n {
      PendingUpdate(threads[..n], t, pc);
      assert threads[t := pc][..n] == threads[..n][t := pc];
    } else {
      assert threads[t := pc][..n] == threads[..n];
    }
  }

  ghost predicate NoneNegative(threads: seq<Pc>) {
    forall t :: 0 <= t < |threads| ==> threads[t].Idle? || threads[t].val >= 0.0
  }

  lemma AskedStep(s: State, step: Step)
    requires Enabled(s, step) && NoneNegative(s.threads) && (step.Inc? ==> step.val >= 0.0)
    ensures NoneNegative(Do(s, step).threads)
    ensures All(Do(s, step)) + Pending(Do(s, step).threads) == All(s) + Pending(s.threads) + if step.Inc? then step.val else 0.0
  {
    var s' := Do(s, step);
    match step
    case Spawn => assert (s.threads + [Idle])[..|s.threads|] == s.threads;
    case Inc(t, _) => PendingUpdate(s.threads, t, s'.threads[t]);
    case Add(t) =>
      PendingUpdate(s.threads, t, Idle);
      SumAppend(s.early, s.threads[t].val);
      SumAppend(s.late, s.threads[t].val);
      SumAppend(s.direct, s.threads[t].val);
    case _ =>
  }

  /** Every increment asked for has reached one of the two counters, or its goroutine is still about to add it. */
  lemma {:induction false} AskedIsAddedOrPending(run: seq<State>, steps: seq<Step>, n: nat)
    requires IsTrace(run, steps) && n < |run| && forall i :: 0 <= i < n && steps[i].Inc? ==> steps[i].val >= 0.0
    ensures NoneNegative(run[n].threads) && All(run[n]) + Pending(run[n].threads) == Asked(steps, n)
  {
    if n > 0 {
      AskedIsAddedOrPending(run, steps, n - 1);
      assert StepAt(run, steps, n - 1);
      AskedStep(run[n - 1], steps[n - 1]);
    }
  }

  /** A goroutine has loaded the toolkit's function, and is overtaken by the whole hand-over. */
  lemma Overtaken(val: real) returns (run: seq<State>)
    ensures IsRun(run) && |run| == 6
    ensures run[5] == Init.(stage := Replaced, threads := [AddingToToolkit(val)])
  {
    var s1 := Init.(threads := [Idle]);
    var s2 := Init.(threads := [AddingToToolkit(val)]);
    var s3 := s2.(stage := Copied);
    var s4 := s2.(stage := AddReplaced);
    var s5 := s2.(stage := Replaced);
    C.StartKeepsValue(0.0);
    assert Enabled(Init, Spawn) && s1 == Do(Init, Spawn);
    assert Enabled(s1, Inc(0, val)) && s2 == Do(s1, Inc(0, val));
    assert Enabled(s2, Copy) && s3 == Do(s2, Copy);
    assert Enabled(s3, ReplaceAdd) && s4 == Do(s3, ReplaceAdd);
    assert Enabled(s4, ReplaceGet) && s5 == Do(s4, ReplaceGet);
    run := [Init, s1, s2, s3, s4, s5];
    assert Steps(Init, s1) && Steps(s1, s2) && Steps(s2, s3) && Steps(s3, s4) && Steps(s4, s5);
  }

  /** So an increment can be lost. */
  lemma IncrementCanBeLost(val: real) returns (run: seq<State>)
    requires val > 0.0
    ensures IsRun(run)
    ensures var s := run[|run| - 1]; s.stage.Replaced? && s.late == [val] && Value(s) != All(s)
  {
    var before := Overtaken(val);
    var s := before[5].(threads := [Idle], toolkit := 0.0 + val, late := [val]);
    assert Enabled(before[5], Add(0)) && s == Do(before[5], Add(0));
    run := before + [s];
    assert Steps(run[5], run[6]);
    LostIffAddedAfterTheCopy(run, 6);
  }
}

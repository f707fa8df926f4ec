/**
 Runs of the profiling pipeline together with the steps that were taken: whose timer a session
 belongs to, and which writes its results carry.
 */
module ProfileHistory {
  import opened Wrappers
  import opened ByteStrings
  import opened ProfilingWriter
  import opened ProfilePipeline

  ghost predicate StepAt(run: seq<State>, steps: seq<Step>, i: nat, size: nat)
    requires size > 0 && i < |steps| && i + 1 < |run|
  {
    Enabled(run[i], steps[i], size) && run[i + 1] == Do(run[i], steps[i], size)
  }

  /** A run and the steps it takes. */
  ghost predicate IsTrace(run: seq<State>, steps: seq<Step>, size: nat)
    requires size > 0
  {
    && |run| == |steps| + 1 && run[0] == Init
    && forall i :: 0 <= i < |steps| ==> StepAt(run, steps, i, size)
  }

  lemma TraceInv(run: seq<State>, steps: seq<Step>, i: nat, size: nat)
    requires size > 0 && IsTrace(run, steps, size) && i < |run|
    ensures IsRun(run, size) && Inv(run[i], size)
  {
    forall k | 0 <= k < |run| - 1 ensures Moves(run, k, size) {
      assert StepAt(run, steps, k, size);
    }
    ReachableInv(run, i, size);
  }

  lemma {:induction false} RunHasTrace(run: seq<State>, size: nat) returns (steps: seq<Step>)
    requires size > 0 && IsRun(run, size)
    ensures IsTrace(run, steps, size)
  {
    if |run| == 1 {
      steps := [];
    } else {
      var n := |run| - 1;
      forall i | 0 <= i < n - 1 ensures Moves(run[..n], i, size) {
        assert Moves(run, i, size);
      }
      var before := RunHasTrace(run[..n], size);
      assert Moves(run, n - 1, size);
      var step :| Enabled(run[n - 1], step, size) && run[n] == Do(run[n - 1], step, size);
      steps := before + [step];
      forall i | 0 <= i < n ensures StepAt(run, steps, i, size) {
        if i < n - 1 { assert StepAt(run[..n], before, i, size); }
      }
    }
  }

  // ------------------------------------------------------------- timers and sessions

  /** Step `n` is a timer that goes on, with the manager's lock. */
  predicate TimerEnters(run: seq<State>, steps: seq<Step>, n: nat)
    requires n < |steps| && n + 1 < |run|
  {
    steps[n].TimerFires? && run[n + 1].mu.CheckSet?
  }

  /** The task of the last timer that went on. */
  function LastTimer(run: seq<State>, steps: seq<Step>, n: nat): Option<TaskID>
    requires n <= |steps| && |steps| < |run|
  {
    if n == 0 then None
    else if TimerEnters(run, steps, n - 1) then Some(steps[n - 1].task)
    else LastTimer(run, steps, n - 1)
  }

  lemma LockStep(s: State, step: Step, size: nat)
    requires size > 0 && Enabled(s, step, size)
    ensures var s' := Do(s, step, size);
            !s'.mu.Free? ==>
              if step.TimerFires? && s'.mu.CheckSet? then s'.mu.task == step.task else !s.mu.Free? && s'.mu.task == s.mu.task
  {
  }

  /** The lock is held for the timer that fired last. */
  lemma {:induction false} LockIsTheTimers(run: seq<State>, steps: seq<Step>, n: nat, size: nat)
    requires size > 0 && IsTrace(run, steps, size) && n < |run| && !run[n].mu.Free?
    ensures LastTimer(run, steps, n) == Some(run[n].mu.task)
  {
    assert StepAt(run, steps, n - 1, size);
    LockStep(run[n - 1], steps[n - 1], size);
    if !TimerEnters(run, steps, n - 1) { LockIsTheTimers(run, steps, n - 1, size); }
  }

  /** Step `n` starts the profiler. */
  predicate ProfilerStarts(run: seq<State>, steps: seq<Step>, n: nat)
    requires n < |steps| && n + 1 < |run|
  {
    steps[n].TimerStarts? && !run[n].profilerOn && run[n + 1].profilerOn
  }

  /** A session as seen from outside: the timer before its start, and the writes of the profiler until the next start. */
  datatype Asked = Asked(task: Option<TaskID>, written: Bytes)

  function SessionsAsked(run: seq<State>, steps: seq<Step>, n: nat): seq<Asked>
    requires n <= |steps| && |steps| < |run|
  {
    if n == 0 then []
    else
      var before := SessionsAsked(run, steps, n - 1);
      if ProfilerStarts(run, steps, n - 1) then before + [Asked(LastTimer(run, steps, n - 1), [])]
      else if steps[n - 1].BeginWrite? && before != [] then
        before[|before| - 1 := Asked(before[|before| - 1].task, before[|before| - 1].written + steps[n - 1].p)]
      else before
  }

  predicate Matches(sessions: seq<Session>, asked: seq<Asked>) {
    && |sessions| == |asked|
    && forall j :: 0 <= j < |sessions| ==> asked[j] == Asked(Some(sessions[j].task), sessions[j].written)
  }

  lemma SessionStep(s: State, step: Step, size: nat)
    requires size > 0 && Enabled(s, step, size)
    ensures var s' := Do(s, step, size);
            if step.TimerStarts? && !s.profilerOn && s'.profilerOn then s'.sessions == s.sessions + [Session(s.mu.task, [], false)]
            else if step.BeginWrite? then s'.sessions == WithLast(s, LastSession(s).(written := LastSession(s).written + step.p))
            else if step.FlushSend? then s'.sessions == WithLast(s, LastSession(s).(flushed := true))
            else s'.sessions == s.sessions
  {
  }

  /** The sessions are those that the timers and the profiler asked for. */
  lemma {:induction false} SessionsAreAsAsked(run: seq<State>, steps: seq<Step>, n: nat, size: nat)
    requires size > 0 && IsTrace(run, steps, size) && n < |run|
    ensures Matches(run[n].sessions, SessionsAsked(run, steps, n))
  {
    if n > 0 {
      SessionsAreAsAsked(run, steps, n - 1, size);
      assert StepAt(run, steps, n - 1, size);
      SessionStep(run[n - 1], steps[n - 1], size);
      if ProfilerStarts(run, steps, n - 1) { LockIsTheTimers(run, steps, n - 1, size); }
    }
  }

  /** The block of results that one session asked for should give. */
  function BlocksAsked(asked: seq<Asked>, size: nat): seq<ProfilePipeline.Result>
    requires size > 0
  {
    if asked == [] then []
    else
      var last := asked[|asked| - 1];
      BlocksAsked(asked[..|asked| - 1], size) +
      match last.task case Some(task) => Label(task, AllChunks(last.written, size)) case None => []
  }

  lemma {:induction false} SameBlocks(sessions: seq<Session>, asked: seq<Asked>, size: nat)
    requires size > 0 && Matches(sessions, asked)
    ensures Expected(sessions, size) == BlocksAsked(asked, size)
  {
    if sessions != [] { SameBlocks(sessions[..|sessions| - 1], asked[..|asked| - 1], size); }
  }

  /**
   Whenever no task is current, the results are the blocks of all sessions, each under the task
   whose timer started it and with the bytes that the profiler wrote since that start. At any
   other time they are a beginning of that.
   */
  lemma ResultsAreTheTimers(run: seq<State>, steps: seq<Step>, n: nat, size: nat)
    requires size > 0 && IsTrace(run, steps, size) && n < |run|
    ensures run[n].currentTask.None? ==> run[n].results == BlocksAsked(SessionsAsked(run, steps, n), size)
    ensures run[n].results <= BlocksAsked(SessionsAsked(run, steps, n), size)
  {
    TraceInv(run, steps, n, size);
    SessionsAreAsAsked(run, steps, n, size);
    SameBlocks(run[n].sessions, SessionsAsked(run, steps, n), size);
    ResultsAreAttributed(run, n, size);
    if run[n].currentTask.None? { FinishedSessionsAreComplete(run, n, size); }
  }

  /** Between the timer and the start of its session no other timer gets the lock. */
  lemma {:induction false} TimerBefore(run: seq<State>, steps: seq<Step>, n: nat, size: nat) returns (k: nat)
    requires size > 0 && IsTrace(run, steps, size) && n < |run| && !run[n].mu.Free?
    ensures k < n && TimerEnters(run, steps, k) && steps[k].task == run[n].mu.task && run[k].mu.Free?
    ensures forall m :: k < m <= n ==> !run[m].mu.Free?
  {
    assert StepAt(run, steps, n - 1, size);
    LockStep(run[n - 1], steps[n - 1], size);
    if TimerEnters(run, steps, n - 1) { k := n - 1; } else { k := TimerBefore(run, steps, n - 1, size); }
  }

  /** A session starts for the task whose timer took the lock, which has not been free since. */
  lemma SessionIsOfItsTimer(run: seq<State>, steps: seq<Step>, n: nat, size: nat) returns (k: nat)
    requires size > 0 && IsTrace(run, steps, size) && n < |steps| && ProfilerStarts(run, steps, n)
    ensures k < n && TimerEnters(run, steps, k) && forall m :: k < m <= n ==> !run[m].mu.Free?
    ensures run[n + 1].sessions == run[n].sessions + [Session(steps[k].task, [], false)]
  {
    assert StepAt(run, steps, n, size);
    SessionStep(run[n], steps[n], size);
    k := TimerBefore(run, steps, n, size);
  }

  /** A timer that fires while the lock is free, no task is current and no task is installed has its task profiled. */
  lemma FiredTaskIsProfiled(run: seq<State>, i: nat, task: TaskID, early: bool, size: nat)
    requires size > 0 && IsRun(run, size) && i < |run|
    requires run[i].mu.Free? && run[i].currentTask.None? && !run[i].taskInstalled
    ensures Enabled(run[i], TimerFires(task, early), size)
    ensures var s1 := Do(run[i], TimerFires(task, early), size);
            && Enabled(s1, TimerSets, size)
            && var s2 := Do(s1, TimerSets, size);
            && Enabled(s2, TimerMarksTask, size)
            && var s3 := Do(s2, TimerMarksTask, size);
            && Enabled(s3, TimerStarts(true), size)
            && var s4 := Do(s3, TimerStarts(true), size);
            && s4.sessions == run[i].sessions + [Session(task, [], false)] && s4.profilerOn && s4.currentTask == Some(task)
  {
    ReachableInv(run, i, size);
    var s1 := Do(run[i], TimerFires(task, early), size);
    RulesMean(s1);
    var s2 := Do(s1, TimerSets, size);
    var s3 := Do(s2, TimerMarksTask, size);
    RulesMean(s3);
  }

  // ------------------------------------------------------------- one task at a time

  lemma {:induction false} StaysInstalled(run: seq<State>, steps: seq<Step>, k: nat, m: nat, size: nat)
    requires size > 0 && IsTrace(run, steps, size) && k <= m < |run| && run[k].taskInstalled
    requires forall r :: k <= r < m ==> !steps[r].TaskRemoved?
    ensures run[m].taskInstalled
    decreases m
  {
    if k < m {
      StaysInstalled(run, steps, k, m - 1, size);
      assert StepAt(run, steps, m - 1, size);
    }
  }

  /** Between two timers that go on, the task of the first one has been removed. */
  lemma OneTaskAtATime(run: seq<State>, steps: seq<Step>, k: nat, m: nat, size: nat)
    requires size > 0 && IsTrace(run, steps, size) && k < m < |steps|
    requires TimerEnters(run, steps, k) && TimerEnters(run, steps, m)
    ensures exists r :: k < r < m && steps[r].TaskRemoved?
  {
    assert StepAt(run, steps, k, size) && StepAt(run, steps, m, size);
    if forall r :: k < r < m ==> !steps[r].TaskRemoved? {
      StaysInstalled(run, steps, k + 1, m, size);
    }
  }
}

/**
 Runs of the segment protocol together with the steps that were taken: when a registration
 succeeds, and what the calls of the goroutines have to do with the spans that are sent.
 */
module SegmentHistory {
  import opened Wrappers
  import opened DefaultSpans
  import opened SpanHistory
  import opened SegmentProtocol
  import opened SegmentInvariant
  import opened SegmentTheorems

  ghost predicate StepAt(run: seq<State>, steps: seq<Step>, i: nat)
    requires i < |steps| && i + 1 < |run|
  {
    Enabled(run[i], steps[i]) && run[i + 1] == Do(run[i], steps[i])
  }

  /** A run and the steps it takes. */
  ghost predicate IsTrace(run: seq<State>, steps: seq<Step>) {
    && |run| == |steps| + 1 && run[0] == Init
    && forall i :: 0 <= i < |steps| ==> StepAt(run, steps, i)
  }

  lemma TraceIsRun(run: seq<State>, steps: seq<Step>)
    requires IsTrace(run, steps)
    ensures IsRun(run)
  {
    forall i | 0 <= i < |run| - 1 ensures Moves(run, i) {
      assert StepAt(run, steps, i);
    }
  }

  lemma {:induction false} RunHasTrace(run: seq<State>) returns (steps: seq<Step>)
    requires IsRun(run)
    ensures IsTrace(run, steps)
  {
    if |run| == 1 {
      steps := [];
    } else {
      var n := |run| - 1;
      forall i | 0 <= i < n - 1 ensures Moves(run[..n], i) {
        assert Moves(run, i);
      }
      var before := RunHasTrace(run[..n]);
      assert Moves(run, n - 1);
      var step :| Enabled(run[n - 1], step) && run[n] == Do(run[n - 1], step);
      steps := before + [step];
      forall i | 0 <= i < n ensures StepAt(run, steps, i) {
        if i < n - 1 { assert StepAt(run[..n], before, i); }
      }
    }
  }

  lemma TraceInv(run: seq<State>, steps: seq<Step>, i: nat)
    requires IsTrace(run, steps) && i < |run|
    ensures Inv(run[i])
  {
    TraceIsRun(run, steps);
    ReachableInv(run, i);
  }

  // ---------------------------------------------------- when a registration succeeds

  /** The child that a goroutine publishes for a parent, with the id it drew. */
  ghost predicate Joins(s: State, s': State, p: nat, id: int, st: SpanState)
    requires Live(s, p)
  {
    s'.spans == s.spans + [Span(s.spans[p].seg, false, id, s.spans[p].spanID, Some(p), s.spans[p].traceID, Some(s.spans[p].seg), st)]
  }

  /**
   A goroutine that loads refNum of a segment not yet swapped, and compares and swaps without
   being overtaken, has published its span; after the swap the load alone starts a new segment.
   */
  lemma UndisturbedCreation(run: seq<State>, i: nat, t: nat, st: SpanState, st': SpanState)
    requires IsRun(run) && i < |run| && t < |run[i].threads| && run[i].threads[t].Registering? && Fresh(st) && Fresh(st')
    ensures Live(run[i], run[i].threads[t].parent) && Enabled(run[i], Load(t, st))
    ensures var s, p, id := run[i], run[i].threads[t].parent, run[i].threads[t].id;
            var loaded := Do(s, Load(t, st));
            if SegOf(s, p).swapped.None? then
              && Enabled(loaded, Cas(t, st'))
              && Joins(s, Do(loaded, Cas(t, st')), p, id, st')
              && Do(loaded, Cas(t, st')).threads == s.threads[t := Idle]
            else
              && loaded.spans == s.spans + [Span(|s.segs|, true, 0, -1, Some(p), s.spans[p].traceID, Some(s.spans[p].seg), st)]
              && loaded.threads == s.threads[t := Idle]
  {
    ReachableInv(run, i);
    assert ThreadOk(run[i], t);
    assert SegOk(run[i], run[i].spans[run[i].threads[t].parent].seg);
  }

  /** refNum only grows, until it is -1 for good. */
  predicate Forward(o: int, o': int) {
    if o < 0 then o' == o else o' >= o || o' == -1
  }

  lemma RefNumBy(s: State, step: Step, g: nat)
    requires ThreadsOk(s) && Enabled(s, step) && g < |s.segs| && SegOk(s, g)
    ensures g < |Do(s, step).segs| && Forward(s.segs[g].refNum, Do(s, step).segs[g].refNum)
  {
    CountingSteps(s, step, g);
    if step.Cas? {
      assert ThreadOk(s, step.t);
      CasMovesOn(s, step.t, step.st, g);
    } else if step.Swap? {
      SwapCloses(s, step.t, g);
    } else if step.DeliverCount? || step.DeliverSpan? {
      DeliveryKeepsRefNum(s, step, g);
    }
  }

  lemma RefNumStep(s: State, s': State, g: nat)
    requires Inv(s) && Steps(s, s') && g < |s.segs|
    ensures g < |s'.segs| && Forward(s.segs[g].refNum, s'.segs[g].refNum)
  {
    var step :| Enabled(s, step) && s' == Do(s, step);
    assert SegOk(s, g);
    RefNumBy(s, step, g);
  }

  lemma CasMovesOn(s: State, t: nat, st: SpanState, g: nat)
    requires Enabled(s, Cas(t, st)) && g < |s.segs| && s.threads[t].o >= 0
    ensures Forward(s.segs[g].refNum, Do(s, Cas(t, st)).segs[g].refNum)
  {
  }

  lemma SwapCloses(s: State, t: nat, g: nat)
    requires Enabled(s, Swap(t)) && g < |s.segs| && s.segs[g].refNum >= -1
    ensures Forward(s.segs[g].refNum, Do(s, Swap(t)).segs[g].refNum)
  {
  }

  lemma DeliveryKeepsRefNum(s: State, step: Step, g: nat)
    requires Enabled(s, step) && (step.DeliverCount? || step.DeliverSpan?) && g < |s.segs|
    ensures Do(s, step).segs[g].refNum == s.segs[g].refNum
  {
  }

  /** The parent keeps its segment, whose refNum moves forward. */
  ghost predicate MovesForward(s: State, s': State, p: nat) {
    Live(s, p) && Live(s', p) && s'.spans[p].seg == s.spans[p].seg && Forward(SegOf(s, p).refNum, SegOf(s', p).refNum)
  }

  lemma ForwardStep(s: State, s': State, p: nat)
    requires Inv(s) && Steps(s, s') && Live(s, p)
    ensures MovesForward(s, s', p)
  {
    RefNumStep(s, s', s.spans[p].seg);
    OldSpansStay(s, s');
  }

  lemma ForwardTwice(a: State, b: State, c: State, p: nat)
    requires MovesForward(a, b, p) && MovesForward(b, c, p)
    ensures MovesForward(a, c, p)
  {
  }

  lemma {:induction false} RefNumForward(run: seq<State>, k: nat, m: nat, p: nat)
    requires IsRun(run) && k <= m < |run| && Live(run[k], p)
    ensures MovesForward(run[k], run[m], p)
    decreases m
  {
    if k < m {
      RefNumForward(run, k, m - 1, p);
      ReachableInv(run, m - 1);
      assert Moves(run, m - 1);
      ForwardStep(run[m - 1], run[m], p);
      ForwardTwice(run[k], run[m - 1], run[m], p);
    }
  }

  lemma OnlyLoadLoads(s: State, step: Step, t: nat)
    requires Enabled(s, step) && t < |Do(s, step).threads| && Do(s, step).threads[t].Loaded?
    requires t >= |s.threads| || s.threads[t] != Do(s, step).threads[t]
    ensures step.Load? && step.t == t && t < |s.threads| && s.threads[t].Registering? && Live(s, s.threads[t].parent)
    ensures Do(s, step).threads[t] == Loaded(s.threads[t].parent, s.threads[t].id, SegOf(s, s.threads[t].parent).refNum)
  {
  }

  /** The goroutine is about to load the value that it holds afterwards. */
  ghost predicate Loads(s: State, t: nat, pc: Pc) {
    && t < |s.threads| && pc.Loaded? && s.threads[t] == Registering(pc.parent, pc.id)
    && Live(s, pc.parent) && SegOf(s, pc.parent).refNum == pc.o
  }

  lemma LoadedByLoad(run: seq<State>, i: nat, t: nat)
    requires IsRun(run) && 0 < i < |run| && t < |run[i].threads| && run[i].threads[t].Loaded?
    ensures t < |run[i - 1].threads|
    ensures run[i - 1].threads[t] == run[i].threads[t] || Loads(run[i - 1], t, run[i].threads[t])
  {
    assert Moves(run, i - 1);
    var step :| Enabled(run[i - 1], step) && run[i] == Do(run[i - 1], step);
    if t >= |run[i - 1].threads| || run[i - 1].threads[t] != run[i].threads[t] { OnlyLoadLoads(run[i - 1], step, t); }
  }

  /** The goroutine does nothing between state `k` and state `i` but stand at this point. */
  ghost predicate Stays(run: seq<State>, k: nat, i: nat, t: nat, pc: Pc)
    requires i < |run|
  {
    forall m :: k < m <= i ==> At(run[m], t, pc)
  }

  /** The moment of the load whose value a goroutine holds. */
  lemma {:induction false} LoadedAt(run: seq<State>, i: nat, t: nat) returns (k: nat)
    requires IsRun(run) && i < |run| && t < |run[i].threads| && run[i].threads[t].Loaded?
    ensures k < i && Loads(run[k], t, run[i].threads[t])
    ensures Stays(run, k, i, t, run[i].threads[t])
  {
    LoadedByLoad(run, i, t);
    if run[i - 1].threads[t] == run[i].threads[t] { k := LoadedAt(run, i - 1, t); } else { k := i - 1; }
  }

  /** refNum of the parent's segment has one value from state `k` to state `i`. */
  ghost predicate Unchanged(run: seq<State>, k: nat, i: nat, p: nat)
    requires k <= i < |run|
  {
    forall m :: k <= m <= i ==> Live(run[m], p) && Live(run[k], p) && SegOf(run[m], p).refNum == SegOf(run[k], p).refNum
  }

  lemma SameEndsSameBetween(run: seq<State>, k: nat, i: nat, p: nat)
    requires IsRun(run) && k <= i < |run| && Live(run[k], p) && Live(run[i], p)
    requires SegOf(run[i], p).refNum == SegOf(run[k], p).refNum
    ensures Unchanged(run, k, i, p)
  {
    forall m | k <= m <= i ensures Live(run[m], p) && SegOf(run[m], p).refNum == SegOf(run[k], p).refNum {
      RefNumForward(run, k, m, p);
      RefNumForward(run, m, i, p);
    }
  }

  /**
   In every run a compare-and-swap publishes its span exactly if nobody has changed refNum
   since the load of the same goroutine: no registration and no swap of the root in between,
   not even one that was undone. Otherwise the goroutine goes back to the load, with its id.
   */
  lemma RegistersIffUnchanged(run: seq<State>, i: nat, t: nat, st: SpanState) returns (k: nat)
    requires IsRun(run) && i < |run| && Enabled(run[i], Cas(t, st))
    ensures k < i && Loads(run[k], t, run[i].threads[t])
    ensures Stays(run, k, i, t, run[i].threads[t])
    ensures var s, p, id := run[i], run[i].threads[t].parent, run[i].threads[t].id;
            if Unchanged(run, k, i, p) then Joins(s, Do(s, Cas(t, st)), p, id, st) && Do(s, Cas(t, st)).threads == s.threads[t := Idle]
            else Do(s, Cas(t, st)) == s.(threads := s.threads[t := Registering(p, id)])
  {
    k := LoadedAt(run, i, t);
    var p := run[i].threads[t].parent;
    if SegOf(run[i], p).refNum == run[i].threads[t].o { SameEndsSameBetween(run, k, i, p); }
  }

  // -------------------------------------------------- what the goroutines asked for

  /** The parent that the last creation of the goroutine was given. */
  function LastParent(steps: seq<Step>, n: nat, t: nat): Option<nat>
    requires n <= |steps|
  {
    if n == 0 then None
    else if steps[n - 1].AllocID? && steps[n - 1].t == t then Some(steps[n - 1].parent)
    else LastParent(steps, n - 1, t)
  }

  /** The span that the goroutine last called AsyncFinish on. */
  function LastFinish(steps: seq<Step>, n: nat, t: nat): Option<nat>
    requires n <= |steps|
  {
    if n == 0 then None
    else if steps[n - 1].AsyncBegin? && steps[n - 1].t == t then Some(steps[n - 1].x)
    else LastFinish(steps, n - 1, t)
  }

  ghost predicate AsAsked(pc: Pc, steps: seq<Step>, n: nat, t: nat)
    requires n <= |steps|
  {
    match pc
    case Registering(p, _) => LastParent(steps, n, t) == Some(p)
    case Loaded(p, _, _) => LastParent(steps, n, t) == Some(p)
    case AsyncEnd(x) => LastFinish(steps, n, t) == Some(x)
    case AsyncFreeze(x) => LastFinish(steps, n, t) == Some(x)
    case _ => true
  }

  lemma ThreadStep(s: State, step: Step, steps: seq<Step>, n: nat, t: nat)
    requires Enabled(s, step) && n < |steps| && steps[n] == step && t < |Do(s, step).threads|
    requires t < |s.threads| ==> AsAsked(s.threads[t], steps, n, t)
    ensures AsAsked(Do(s, step).threads[t], steps, n + 1, t)
  {
  }

  lemma {:induction false} ThreadsDoAsAsked(run: seq<State>, steps: seq<Step>, n: nat, t: nat)
    requires IsTrace(run, steps) && n < |run| && t < |run[n].threads|
    ensures AsAsked(run[n].threads[t], steps, n, t)
  {
    if n > 0 {
      if t < |run[n - 1].threads| { ThreadsDoAsAsked(run, steps, n - 1, t); }
      assert StepAt(run, steps, n - 1);
      ThreadStep(run[n - 1], steps[n - 1], steps, n - 1, t);
    }
  }

  /** A span that a creation publishes has the parent that the creation was given, and the initial state. */
  lemma CreatedAsAsked(run: seq<State>, steps: seq<Step>, i: nat)
    requires IsTrace(run, steps) && i < |steps| && |run[i + 1].spans| > |run[i].spans|
    ensures |run[i + 1].spans| == |run[i].spans| + 1
    ensures var x := run[i + 1].spans[|run[i].spans|];
            match steps[i]
            case NewTrace(_, traceID, st) => x.root && x.parent == None && x.parentSeg == None && x.traceID == traceID && x.state == st
            case Load(t, st) => x.parent == LastParent(steps, i, t) && x.parent.Some? && x.state == st
            case Cas(t, st) => x.parent == LastParent(steps, i, t) && x.parent.Some? && x.state == st
            case _ => false
  {
    assert StepAt(run, steps, i);
    if steps[i].Load? || steps[i].Cas? { ThreadsDoAsAsked(run, steps, i, steps[i].t); }
  }

  // ------------------------------------------------------- spans and their sections

  /** The section that a step runs on a span, going by what the goroutines asked for. */
  function SectionAsked(steps: seq<Step>, n: nat, x: nat): Option<Action>
    requires n < |steps|
  {
    match steps[n]
    case Local(t, y, sec) => if y == x then Some(Action(t, sec)) else None
    case End(t, y, now) => if y == x then Some(Action(t, EndSync(now))) else None
    case AsyncBegin(t, y) => if y == x then Some(Action(t, AsyncFinish)) else None
    case AsyncStamp(t, now) => if LastFinish(steps, n, t) == Some(x) then Some(Action(t, StampEnd(now))) else None
    case AsyncFrozen(t) => if LastFinish(steps, n, t) == Some(x) then Some(Action(t, Freeze)) else None
    case _ => None
  }

  /** All sections asked for on a span, in order. */
  function SectionsAsked(steps: seq<Step>, n: nat, x: nat): Run
    requires n <= |steps|
  {
    if n == 0 then []
    else SectionsAsked(steps, n - 1, x) + match SectionAsked(steps, n - 1, x) case Some(a) => [a] case None => []
  }

  lemma AskedIsRun(run: seq<State>, steps: seq<Step>, n: nat, x: nat)
    requires IsTrace(run, steps) && n < |steps| && x < |run[n].spans|
    ensures |run[n + 1].spans| >= |run[n].spans|
    ensures run[n + 1].spans[x].state ==
            match SectionAsked(steps, n, x)
            case Some(a) => Apply(run[n].spans[x].state, a.section).0
            case None => run[n].spans[x].state
  {
    TraceInv(run, steps, n);
    assert StepAt(run, steps, n);
    if steps[n].AsyncStamp? || steps[n].AsyncFrozen? { ThreadsDoAsAsked(run, steps, n, steps[n].t); }
    if SectionOf(run[n], steps[n]).Some? { SectionEffect(run[n], steps[n]); }
  }

  lemma NoSectionBeforeCreation(run: seq<State>, steps: seq<Step>, n: nat, x: nat)
    requires IsTrace(run, steps) && n < |steps| && x >= |run[n].spans|
    ensures SectionAsked(steps, n, x).None?
  {
    assert StepAt(run, steps, n);
    if steps[n].AsyncStamp? || steps[n].AsyncFrozen? { ThreadsDoAsAsked(run, steps, n, steps[n].t); }
  }

  lemma SpansGrow(run: seq<State>, steps: seq<Step>, n: nat)
    requires IsTrace(run, steps) && n < |steps|
    ensures |run[n + 1].spans| >= |run[n].spans|
  {
    assert StepAt(run, steps, n);
  }

  lemma {:induction false} NothingAskedBefore(run: seq<State>, steps: seq<Step>, n: nat, x: nat)
    requires IsTrace(run, steps) && n < |run| && x >= |run[n].spans|
    ensures SectionsAsked(steps, n, x) == []
  {
    if n > 0 {
      SpansGrow(run, steps, n - 1);
      NothingAskedBefore(run, steps, n - 1, x);
      NoSectionBeforeCreation(run, steps, n - 1, x);
    }
  }

  lemma AfterOneMore(st0: SpanState, run: Run, a: Action)
    ensures After(st0, run + [a]) == Apply(After(st0, run), a.section).0
  {
    assert (run + [a])[..|run|] == run;
  }

  /** The state that a step gives to the span it creates. */
  function InitialState(step: Step): SpanState
    requires step.NewTrace? || step.Load? || step.Cas?
  {
    step.st
  }

  /**
   The state of a span at any time is that after the sections asked for on it, one after the
   other: everything proved of runs of sections holds of the spans of the protocol.
   */
  lemma {:induction false} SpanIsWhatWasAsked(run: seq<State>, steps: seq<Step>, n: nat, x: nat) returns (c: nat)
    requires IsTrace(run, steps) && n < |run| && x < |run[n].spans|
    ensures c < n && |run[c].spans| == x && |run[c + 1].spans| == x + 1
    ensures steps[c].NewTrace? || steps[c].Load? || steps[c].Cas?
    ensures Fresh(InitialState(steps[c]))
    ensures run[n].spans[x].state == After(InitialState(steps[c]), SectionsAsked(steps, n, x))
  {
    assert n > 0;
    SpansGrow(run, steps, n - 1);
    if x < |run[n - 1].spans| {
      c := SpanIsWhatWasAsked(run, steps, n - 1, x);
      AskedIsRun(run, steps, n - 1, x);
      var before := SectionsAsked(steps, n - 1, x);
      match SectionAsked(steps, n - 1, x) {
        case Some(a) => AfterOneMore(InitialState(steps[c]), before, a);
        case None => assert SectionsAsked(steps, n, x) == before;
      }
    } else {
      c := n - 1;
      CreatedAsAsked(run, steps, c);
      assert StepAt(run, steps, c);
      NothingAskedBefore(run, steps, c, x);
      NoSectionBeforeCreation(run, steps, c, x);
      assert SectionsAsked(steps, n, x) == [];
    }
  }

  /**
   AsyncFinish goes on to the stamp and the freeze exactly if the span is frozen already, or was
   prepared for async and not finished; otherwise it panics, and the goroutine does no more.
   */
  lemma FinishGoesOnIff(run: seq<State>, steps: seq<Step>, n: nat)
    requires IsTrace(run, steps) && n < |steps| && steps[n].AsyncBegin?
    ensures var t, x := steps[n].t, steps[n].x;
            && t < |run[n + 1].threads| && x < |run[n].spans|
            && var asked := SectionsAsked(steps, n, x);
            run[n + 1].threads[t] ==
            if run[n].spans[x].state.ended || (Prepared(asked, |asked|) && !Finished(asked, |asked|)) then AsyncEnd(x) else Idle
  {
    var x := steps[n].x;
    assert StepAt(run, steps, n);
    var c := SpanIsWhatWasAsked(run, steps, n, x);
    var asked := SectionsAsked(steps, n, x);
    assert asked[..|asked|] == asked;
    if !run[n].spans[x].state.ended { AsyncFromPrepareOn(InitialState(steps[c]), asked, |asked|); }
  }

  /** A goroutine that is not in the middle of a call may make any call on any span at any time, ended or not. */
  lemma AnyCallAnyTime(run: seq<State>, i: nat, t: nat, x: nat, now: Time, m: Mutation)
    requires IsRun(run) && i < |run| && t < |run[i].threads| && run[i].threads[t].Idle? && x < |run[i].spans|
    ensures Enabled(run[i], AllocID(t, x)) && Enabled(run[i], End(t, x, now)) && Enabled(run[i], AsyncBegin(t, x))
    ensures Enabled(run[i], Local(t, x, Mutate(m))) && Enabled(run[i], Local(t, x, EnterReuse)) && Enabled(run[i], Local(t, x, PrepareAsync))
  {
    ReachableInv(run, i);
    assert SpanOk(run[i], x);
  }

  /** The finisher stamps the end time before it freezes, whatever runs in between. */
  lemma {:induction false} FinisherHasStamped(run: seq<State>, steps: seq<Step>, n: nat, t: nat)
    requires IsTrace(run, steps) && n < |run| && t < |run[n].threads| && run[n].threads[t].AsyncFreeze?
    ensures exists j :: 0 <= j < |SectionsAsked(steps, n, run[n].threads[t].x)| &&
              SectionsAsked(steps, n, run[n].threads[t].x)[j].section.StampEnd? &&
              SectionsAsked(steps, n, run[n].threads[t].x)[j].thread == t
  {
    var x := run[n].threads[t].x;
    assert StepAt(run, steps, n - 1);
    var before := SectionsAsked(steps, n - 1, x);
    if t < |run[n - 1].threads| && run[n - 1].threads[t] == run[n].threads[t] {
      FinisherHasStamped(run, steps, n - 1, t);
      var j :| 0 <= j < |before| && before[j].section.StampEnd? && before[j].thread == t;
      assert SectionsAsked(steps, n, x)[j] == before[j];
    } else {
      ThreadsDoAsAsked(run, steps, n - 1, t);
      assert steps[n - 1].AsyncStamp? && steps[n - 1].t == t;
      assert SectionsAsked(steps, n, x)[|before|] == Action(t, StampEnd(steps[n - 1].now));
    }
  }

  lemma {:induction false} SectionsKeepProgramOrder(run: seq<State>, steps: seq<Step>, n: nat, x: nat)
    requires IsTrace(run, steps) && n < |run|
    ensures ProgramOrder(SectionsAsked(steps, n, x))
  {
    if n > 0 {
      SectionsKeepProgramOrder(run, steps, n - 1, x);
      var before, after := SectionsAsked(steps, n - 1, x), SectionsAsked(steps, n, x);
      assert StepAt(run, steps, n - 1);
      if steps[n - 1].AsyncFrozen? {
        ThreadsDoAsAsked(run, steps, n - 1, steps[n - 1].t);
        FinisherHasStamped(run, steps, n - 1, steps[n - 1].t);
      }
      forall i | 0 <= i < |after| && after[i].section.Freeze?
        ensures exists j :: 0 <= j < i && after[j].section.StampEnd? && after[j].thread == after[i].thread
      {
        if i < |before| {
          var j :| 0 <= j < i && before[j].section.StampEnd? && before[j].thread == before[i].thread;
          assert after[j] == before[j];
        } else {
          var j :| 0 <= j < |before| && before[j].section.StampEnd? && before[j].thread == after[i].thread;
          assert after[j] == before[j];
        }
      }
    }
  }

  // -------------------------------------------------------------- what is reported

  /** Step `k` writes to the span. */
  predicate Writes(step: Step, x: nat) {
    step.Local? && step.x == x && step.sec.Mutate?
  }

  lemma {:induction false} WriteStays(run: seq<State>, steps: seq<Step>, k: nat, i: nat)
    requires IsTrace(run, steps) && k < i < |run| && steps[k].Local? && steps[k].sec.Mutate? && steps[k].x < |run[k].spans|
    requires !run[k].spans[steps[k].x].state.ended
    requires forall m :: k < m < i && Writes(steps[m], steps[k].x) ==> !Replaces(steps[m].sec.m, steps[k].sec.m)
    ensures steps[k].x < |run[i].spans| && Shows(run[i].spans[steps[k].x].state.data, steps[k].sec.m)
    decreases i
  {
    var x := steps[k].x;
    if k < i - 1 { WriteStays(run, steps, k, i - 1); }
    AskedIsRun(run, steps, i - 1, x);
    if k < i - 1 {
      if SectionAsked(steps, i - 1, x).Some? {
        OtherSectionsKeep(run[i - 1].spans[x].state, SectionAsked(steps, i - 1, x).value.section, steps[k].sec.m);
      }
    } else {
      WriteShows(run[k].spans[x].state.data, steps[k].sec.m);
    }
  }

  /**
   A write to a span before its freeze is in the data that is sent, unless a later write of its
   kind replaced it, whoever wrote.
   */
  lemma WritesAreReported(run: seq<State>, steps: seq<Step>, k: nat, i: nat, r: nat, j: nat)
    requires IsTrace(run, steps) && k < i < |run| && steps[k].Local? && steps[k].sec.Mutate? && steps[k].x < |run[k].spans|
    requires !run[k].spans[steps[k].x].state.ended
    requires forall m :: k < m < i && Writes(steps[m], steps[k].x) ==> !Replaces(steps[m].sec.m, steps[k].sec.m)
    requires r < |run[i].reports| && j < |run[i].reports[r].spans| && run[i].reports[r].spans[j] == steps[k].x
    ensures j < |run[i].reports[r].data| && Shows(run[i].reports[r].data[j], steps[k].sec.m)
  {
    TraceIsRun(run, steps);
    SentOnceAndComplete(run, i);
    assert CompleteReport(run[i], run[i].reports[r]);
    WriteStays(run, steps, k, i);
  }

  // ---------------------------------------------------------------- ids and traces

  /** How many ids of the segment have been drawn. */
  ghost function Draws(run: seq<State>, steps: seq<Step>, n: nat, g: nat): nat
    requires n <= |steps| && n < |run|
  {
    if n == 0 then 0
    else Draws(run, steps, n - 1, g) + if DrawsFrom(run[n - 1], steps[n - 1], g) then 1 else 0
  }

  predicate DrawsFrom(s: State, step: Step, g: nat) {
    step.AllocID? && step.parent < |s.spans| && s.spans[step.parent].seg == g
  }

  lemma DrawStep(s: State, step: Step, g: nat)
    requires Enabled(s, step) && g < |Do(s, step).segs|
    ensures g < |s.segs| ==> Do(s, step).segs[g].idGen == s.segs[g].idGen + if DrawsFrom(s, step, g) then 1 else 0
    ensures g >= |s.segs| ==> Do(s, step).segs[g].idGen == 0
    ensures DrawsFrom(s, step, g) ==>
              && g < |s.segs| && step.t < |Do(s, step).threads|
              && Do(s, step).threads[step.t] == Registering(step.parent, s.segs[g].idGen + 1)
  {
  }

  lemma {:induction false} NoDrawsBefore(run: seq<State>, steps: seq<Step>, n: nat, g: nat)
    requires IsTrace(run, steps) && n < |run| && g >= |run[n].segs|
    ensures Draws(run, steps, n, g) == 0
  {
    if n > 0 {
      assert StepAt(run, steps, n - 1);
      NoDrawsBefore(run, steps, n - 1, g);
    }
  }

  /** The n-th creation under a segment draws the id n. */
  lemma {:induction false} IdsAreDrawnInOrder(run: seq<State>, steps: seq<Step>, n: nat, g: nat)
    requires IsTrace(run, steps) && n < |run| && g < |run[n].segs|
    ensures run[n].segs[g].idGen == Draws(run, steps, n, g)
    ensures n < |steps| && DrawsFrom(run[n], steps[n], g) ==>
              steps[n].t < |run[n + 1].threads|
              && run[n + 1].threads[steps[n].t] == Registering(steps[n].parent, Draws(run, steps, n, g) + 1)
  {
    if n > 0 {
      assert StepAt(run, steps, n - 1);
      DrawStep(run[n - 1], steps[n - 1], g);
      if g < |run[n - 1].segs| {
        IdsAreDrawnInOrder(run, steps, n - 1, g);
      } else {
        NoDrawsBefore(run, steps, n - 1, g);
      }
    }
    if n < |steps| {
      assert StepAt(run, steps, n);
      if DrawsFrom(run[n], steps[n], g) { DrawStep(run[n], steps[n], g); }
    }
  }

  /** `y` is the span at which the chain of parents of `x` begins. */
  ghost predicate Origin(s: State, x: nat, y: nat)
    decreases x
  {
    && x < |s.spans|
    && match s.spans[x].parent
       case None => y == x
       case Some(p) => p < x && Origin(s, p, y)
  }

  lemma {:induction false} ParentsStay(run: seq<State>, steps: seq<Step>, c: nat, n: nat, y: nat)
    requires IsTrace(run, steps) && c <= n < |run| && y < |run[c].spans|
    ensures y < |run[n].spans| && run[n].spans[y].parent == run[c].spans[y].parent && run[n].spans[y].traceID == run[c].spans[y].traceID
    decreases n
  {
    if c < n {
      ParentsStay(run, steps, c, n - 1, y);
      TraceInv(run, steps, n - 1);
      assert StepAt(run, steps, n - 1);
      StepGrows(run[n - 1], steps[n - 1]);
    }
  }

  /** Every span carries the trace id given to the creation at which its chain of parents begins. */
  lemma {:induction false} TraceIsThatOfTheOrigin(run: seq<State>, steps: seq<Step>, n: nat, x: nat) returns (y: nat, c: nat)
    requires IsTrace(run, steps) && n < |run| && x < |run[n].spans|
    ensures Origin(run[n], x, y) && c < n && |run[c].spans| == y
    ensures steps[c].NewTrace? && run[n].spans[x].traceID == steps[c].traceID
    decreases x
  {
    TraceInv(run, steps, n);
    assert SpanOk(run[n], x);
    if run[n].spans[x].parent.Some? {
      y, c := TraceIsThatOfTheOrigin(run, steps, n, run[n].spans[x].parent.value);
    } else {
      y := x;
      c := SpanIsWhatWasAsked(run, steps, n, x);
      CreatedAsAsked(run, steps, c);
      ParentsStay(run, steps, c + 1, n, x);
    }
  }
}

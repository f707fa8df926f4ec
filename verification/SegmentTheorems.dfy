/** What the segment collector protocol guarantees in every interleaving. */
module SegmentTheorems {
  import opened Wrappers
  import opened DefaultSpans
  import opened SegmentProtocol
  import opened SegmentInvariant

  lemma StepKeepsInv(s: State, s': State)
    requires Inv(s) && Steps(s, s')
    ensures Inv(s')
  {
    var step :| Enabled(s, step) && s' == Do(s, step);
    InvKept(s, step);
  }

  lemma {:induction false} ReachableInv(run: seq<State>, i: nat)
    requires IsRun(run) && i < |run|
    ensures Inv(run[i])
  {
    if i == 0 {
      InvInit();
    } else {
      ReachableInv(run, i - 1);
      assert Moves(run, i - 1);
      StepKeepsInv(run[i - 1], run[i]);
    }
  }

  // ---------------------------------------------------------------- what is sent

  /** Every span that was ever admitted to the segment, each once, the root last, all of them frozen. */
  ghost predicate CompleteReport(s: State, r: Report) {
    && |r.spans| > 0
    && NoDuplicates(r.spans)
    && (forall i :: 0 <= i < |r.spans| ==> r.spans[i] < |s.spans|)
    && (forall x: nat :: x in r.spans <==> x < |s.spans| && s.spans[x].seg == r.seg)
    && (forall i :: 0 <= i < |r.spans| ==> (s.spans[r.spans[i]].root <==> i == |r.spans| - 1))
    && |r.data| == |r.spans|
    && (forall i :: 0 <= i < |r.spans| ==>
          && s.spans[r.spans[i]].state.ended
          && r.data[i] == s.spans[r.spans[i]].state.data
          && r.data[i].endTime.Some?)
  }

  /**
   The ids of a segment form a tree: distinct, the root has 0, every other span names the
   strictly smaller id of another span of the same report; and one trace id throughout.
   */
  ghost predicate TreeReport(s: State, r: Report)
    requires forall i :: 0 <= i < |r.spans| ==> r.spans[i] < |s.spans|
  {
    && (forall i, j :: 0 <= i < j < |r.spans| ==> s.spans[r.spans[i]].spanID != s.spans[r.spans[j]].spanID)
    && (forall i, j :: 0 <= i < |r.spans| && 0 <= j < |r.spans| ==>
          s.spans[r.spans[i]].traceID == s.spans[r.spans[j]].traceID)
    && (forall i :: 0 <= i < |r.spans| ==>
          var x := s.spans[r.spans[i]];
          if x.root then x.spanID == 0 && x.parentSpanID == -1
          else exists j :: 0 <= j < |r.spans| && x.parent == Some(r.spans[j])
                           && s.spans[r.spans[j]].spanID == x.parentSpanID < x.spanID)
  }

  /** A segment is sent at most once, and what is sent is complete; this stays so for the rest of the run. */
  lemma SentOnceAndComplete(run: seq<State>, i: nat)
    requires IsRun(run) && i < |run|
    ensures forall k :: 0 <= k < |run[i].reports| ==> CompleteReport(run[i], run[i].reports[k])
    ensures forall k, l :: 0 <= k < l < |run[i].reports| ==> run[i].reports[k].seg != run[i].reports[l].seg
  {
    ReachableInv(run, i);
    var s := run[i];
    forall k | 0 <= k < |s.reports| ensures CompleteReport(s, s.reports[k]) {
      ReportIsComplete(s, s.reports[k]);
    }
  }

  lemma ReportIsComplete(s: State, r: Report)
    requires Inv(s) && ReportOk(s, r)
    ensures CompleteReport(s, r)
  {
    assert SegOk(s, r.seg);
    var seg := s.segs[r.seg];
    StoppedHasAll(s, r.seg);
    assert NoDuplicates(r.spans) by {
      assert forall i :: 0 <= i < |seg.received| ==> r.spans[i] == seg.received[i] && r.spans[i] != seg.root;
    }
    forall x: nat | x < |s.spans| && s.spans[x].seg == r.seg ensures x in r.spans {
      assert SpanOk(s, x);
    }
    forall i | 0 <= i < |r.spans| ensures r.data[i].endTime.Some? {
      assert SpanOk(s, r.spans[i]);
    }
  }

  lemma SentIsATree(run: seq<State>, i: nat, k: nat)
    requires IsRun(run) && i < |run| && k < |run[i].reports|
    ensures CompleteReport(run[i], run[i].reports[k]) && TreeReport(run[i], run[i].reports[k])
  {
    ReachableInv(run, i);
    var s, r := run[i], run[i].reports[k];
    assert ReportOk(s, r);
    ReportIsComplete(s, r);
    forall a, b | 0 <= a < b < |r.spans| ensures s.spans[r.spans[a]].spanID != s.spans[r.spans[b]].spanID {
      assert r.spans[a] in r.spans && r.spans[b] in r.spans;
      assert r.spans[a] < r.spans[b] || r.spans[b] < r.spans[a];
    }
    assert SegOk(s, r.seg);
    forall a | 0 <= a < |r.spans|
      ensures s.spans[r.spans[a]].traceID == s.spans[s.segs[r.seg].root].traceID
      ensures var x := s.spans[r.spans[a]];
              if x.root then x.spanID == 0 && x.parentSpanID == -1
              else exists j :: 0 <= j < |r.spans| && x.parent == Some(r.spans[j])
                               && s.spans[r.spans[j]].spanID == x.parentSpanID < x.spanID
    {
      assert r.spans[a] in r.spans;
      assert SpanOk(s, r.spans[a]);
      if !s.spans[r.spans[a]].root {
        assert s.spans[r.spans[a]].parent.value in r.spans;
      }
    }
  }

  /** Reports are never taken back or altered, and the data they carry is what the spans keep. */
  lemma {:induction false} ReportsAreFinal(run: seq<State>, i: nat, j: nat)
    requires IsRun(run) && i <= j < |run|
    ensures run[i].reports <= run[j].reports
    ensures forall k :: 0 <= k < |run[i].reports| ==> CompleteReport(run[j], run[i].reports[k])
    decreases j - i
  {
    if i < j {
      assert Moves(run, i);
      ReportsAreFinal(run, i + 1, j);
    } else {
      SentOnceAndComplete(run, i);
    }
  }

  // ------------------------------------------------------------- nothing is dropped

  /** The collectorDone branches of both end0 functions are never taken. */
  lemma DropsAreUnreachable(run: seq<State>, i: nat, t: nat)
    requires IsRun(run) && i < |run|
    ensures !Enabled(run[i], DropSpan(t)) && !Enabled(run[i], DropCount(t))
  {
    ReachableInv(run, i);
    if t < |run[i].threads| && (run[i].threads[t].ChildSend? || run[i].threads[t].RootSend?) {
      SenderHasReceiver(run[i], t);
    }
  }

  /** A frozen span is with its collector, or a goroutine is handing it over to a collector that still receives. */
  lemma EndedSpanIsNotLost(run: seq<State>, i: nat, x: nat)
    requires IsRun(run) && i < |run| && x < |run[i].spans| && run[i].spans[x].state.ended
    ensures Live(run[i], x)
    ensures var seg := SegOf(run[i], x);
            || (exists t :: 0 <= t < |run[i].threads| && InEnd0(run[i].threads[t]) && run[i].threads[t].x == x
                            && seg.phase.Collecting?)
            || (if run[i].spans[x].root then seg.total == |seg.registered| else x in seg.received)
  {
    ReachableInv(run, i);
    var s := run[i];
    assert SpanOk(s, x) && SegOk(s, s.spans[x].seg) && NotLost(s, x);
    if Sending(s, x) {
      var t :| 0 <= t < |s.threads| && InEnd0(s.threads[t]) && s.threads[t].x == x;
      assert ThreadOk(s, t);
      if !SegOf(s, x).phase.Collecting? { StoppedHasAll(s, s.spans[x].seg); }
    }
  }

  lemma {:induction false} StoppedStays(run: seq<State>, i: nat, j: nat, g: nat)
    requires IsRun(run) && i <= j < |run| && g < |run[i].segs| && !run[i].segs[g].phase.Collecting?
    ensures g < |run[j].segs| && !run[j].segs[g].phase.Collecting?
    decreases j
  {
    if i < j {
      StoppedStays(run, i, j - 1, g);
      assert Moves(run, j - 1);
      PhaseForward(run[j - 1], run[j], g);
    }
  }

  /** Once the collector has stopped receiving, nobody sends to it, now or later. */
  lemma StoppedMeansNoSender(run: seq<State>, i: nat, j: nat, g: nat)
    requires IsRun(run) && i <= j < |run| && g < |run[i].segs| && !run[i].segs[g].phase.Collecting?
    ensures forall t :: 0 <= t < |run[j].threads| && InEnd0(run[j].threads[t]) ==>
              Live(run[j], run[j].threads[t].x) && run[j].spans[run[j].threads[t].x].seg != g
  {
    StoppedStays(run, i, j, g);
    ReachableInv(run, j);
    NoSenderWhenStopped(run[j], g);
  }

  lemma NoSenderWhenStopped(s: State, g: nat)
    requires Inv(s) && g < |s.segs| && !s.segs[g].phase.Collecting?
    ensures forall t :: 0 <= t < |s.threads| && InEnd0(s.threads[t]) ==>
              Live(s, s.threads[t].x) && s.spans[s.threads[t].x].seg != g
  {
    assert SegOk(s, g);
    StoppedHasAll(s, g);
    forall t | 0 <= t < |s.threads| && InEnd0(s.threads[t])
      ensures Live(s, s.threads[t].x) && s.spans[s.threads[t].x].seg != g
    {
      assert ThreadOk(s, t);
      assert SpanOk(s, s.threads[t].x);
    }
  }

  lemma PhaseForward(s: State, s': State, g: nat)
    requires Steps(s, s') && g < |s.segs| && !s.segs[g].phase.Collecting?
    ensures g < |s'.segs| && !s'.segs[g].phase.Collecting?
  {
    var step :| Enabled(s, step) && s' == Do(s, step);
    if SectionOf(s, step).Some? {
      assert s'.segs == s.segs;
    } else if step.NewTrace? || step.Load? {
      assert s'.segs[g] == s.segs[g];
    } else if step.DeliverCount? || step.DeliverSpan? {
      assert s.spans[s.threads[step.t].x].seg != g;
      assert s'.segs[g] == s.segs[g];
    }
  }

  // --------------------------------------------------- creations that come too late

  /** The spans of the segment are among the first `n`. */
  ghost predicate SpansAreBefore(s: State, g: nat, n: nat) {
    forall x :: 0 <= x < |s.spans| && s.spans[x].seg == g ==> x < n
  }

  /** Once the root has swapped refNum, no span joins the segment any more. */
  lemma {:induction false} SwappedSegmentIsClosed(run: seq<State>, i: nat, j: nat, g: nat)
    requires IsRun(run) && i <= j < |run| && g < |run[i].segs| && run[i].segs[g].swapped.Some?
    ensures g < |run[j].segs| && run[j].segs[g].swapped == run[i].segs[g].swapped
    ensures SpansAreBefore(run[j], g, |run[i].spans|)
    decreases j
  {
    if i < j {
      SwappedSegmentIsClosed(run, i, j - 1, g);
      StaysClosed(run, j, |run[i].spans|, g);
    }
  }

  lemma NobodyJoins(s: State, s': State, g: nat)
    requires Inv(s) && Steps(s, s') && g < |s.segs| && s.segs[g].swapped.Some?
    ensures g < |s'.segs| && s'.segs[g].swapped == s.segs[g].swapped
    ensures forall x :: |s.spans| <= x < |s'.spans| ==> s'.spans[x].seg != g
  {
    var step :| Enabled(s, step) && s' == Do(s, step);
    assert SegOk(s, g);
    CountingSteps(s, step, g);
    if step.Swap? {
      assert ThreadOk(s, step.t);
      SwapElsewhere(s, step.t, g);
    } else if step.Cas? {
      assert ThreadOk(s, step.t);
      CasElsewhere(s, step.t, step.st, g);
    } else {
      OthersElsewhere(s, step, g);
    }
  }

  lemma SwapElsewhere(s: State, t: nat, g: nat)
    requires Enabled(s, Swap(t)) && g < |s.segs| && (s.spans[s.threads[t].x].seg == g ==> s.segs[g].swapped.None?)
    ensures s.segs[g].swapped.Some? ==> Do(s, Swap(t)).segs[g].swapped == s.segs[g].swapped
    ensures Do(s, Swap(t)).spans == s.spans && |Do(s, Swap(t)).segs| == |s.segs|
  {
  }

  lemma CasElsewhere(s: State, t: nat, st: SpanState, g: nat)
    requires Enabled(s, Cas(t, st)) && g < |s.segs| && s.threads[t].o >= 0 && s.segs[g].refNum == -1
    ensures Do(s, Cas(t, st)).segs[g].swapped == s.segs[g].swapped && |Do(s, Cas(t, st)).segs| == |s.segs|
    ensures forall x :: |s.spans| <= x < |Do(s, Cas(t, st)).spans| ==> Do(s, Cas(t, st)).spans[x].seg != g
  {
  }

  lemma OthersElsewhere(s: State, step: Step, g: nat)
    requires Enabled(s, step) && !step.Swap? && !step.Cas? && g < |s.segs|
    ensures g < |Do(s, step).segs| && Do(s, step).segs[g].swapped == s.segs[g].swapped
    ensures forall x :: |s.spans| <= x < |Do(s, step).spans| ==> Do(s, step).spans[x].seg != g
  {
  }

  lemma StaysClosed(run: seq<State>, j: nat, n: nat, g: nat)
    requires IsRun(run) && 0 < j < |run| && g < |run[j - 1].segs| && run[j - 1].segs[g].swapped.Some?
    requires SpansAreBefore(run[j - 1], g, n)
    ensures g < |run[j].segs| && run[j].segs[g].swapped == run[j - 1].segs[g].swapped
    ensures SpansAreBefore(run[j], g, n)
  {
    var s, s' := run[j - 1], run[j];
    ReachableInv(run, j - 1);
    assert Moves(run, j - 1);
    NobodyJoins(s, s', g);
    OldSpansStay(s, s');
  }

  lemma OldSpansStay(s: State, s': State)
    requires Inv(s) && Steps(s, s')
    ensures |s.spans| <= |s'.spans| && forall x :: 0 <= x < |s.spans| ==> s'.spans[x].seg == s.spans[x].seg
  {
    var step :| Enabled(s, step) && s' == Do(s, step);
    StepGrows(s, step);
  }

  /**
   A creation under a parent ends in one of two ways: as a child, if the parent's segment was
   not swapped, or as the root of a fresh segment that keeps the parent's trace and names the
   parent's segment.
   */
  lemma CreationJoinsOrStartsAfresh(run: seq<State>, i: nat, step: Step)
    requires IsRun(run) && i < |run| && Enabled(run[i], step) && (step.Load? || step.Cas?)
    requires |Do(run[i], step).spans| > |run[i].spans|
    ensures var s, s' := run[i], Do(run[i], step);
            var p := s.threads[step.t].parent;
            var x := s'.spans[|s.spans|];
            && |s'.spans| == |s.spans| + 1 && x.traceID == s.spans[p].traceID
            && x.parentSeg == Some(s.spans[p].seg)
            && (x.root <==> SegOf(s, p).swapped.Some?)
            && (x.root ==> x.seg == |s.segs| && x.spanID == 0 && s'.segs == s.segs + [s'.segs[|s.segs|]])
            && (!x.root ==> x.seg == s.spans[p].seg && x.spanID == s.threads[step.t].id && x.parentSpanID == s.spans[p].spanID)
  {
    ReachableInv(run, i);
    assert ThreadOk(run[i], step.t);
    assert SegOk(run[i], run[i].spans[run[i].threads[step.t].parent].seg);
  }

  // ------------------------------------------------- a finished segment gets out

  ghost predicate AllEnded(s: State, g: nat) {
    forall x :: 0 <= x < |s.spans| && s.spans[x].seg == g ==> s.spans[x].state.ended
  }

  /** How many steps of its own a segment still needs. */
  ghost function Remaining(s: State, g: nat): int
    requires g < |s.segs|
  {
    var seg := s.segs[g];
    (if seg.swapped.None? then 1 else 0) + (if seg.total == -1 then 1 else 0)
    + |seg.registered| - |seg.received|
    + (match seg.phase case Collecting => 3 case Stopped => 2 case Closed => 1 case Reported => 0)
  }

  lemma {:induction false} FitsIn(q: seq<nat>, registered: set<nat>)
    requires NoDuplicates(q) && forall i :: 0 <= i < |q| ==> q[i] in registered
    ensures |q| <= |registered|
    ensures (forall y :: y in registered ==> y in q) ==> |q| == |registered|
  {
    if q == [] {
      if forall y :: y in registered ==> y in q { assert registered == {}; }
    } else {
      var rest, last := q[..|q| - 1], q[|q| - 1];
      assert q == rest + [last];
      FitsIn(rest, registered - {last});
    }
  }

  /** When all spans of a segment have ended, the segment itself can always take its next step. */
  lemma NextOwnStep(s: State, g: nat) returns (step: Step)
    requires Inv(s) && g < |s.segs| && AllEnded(s, g) && !s.segs[g].phase.Reported?
    ensures Enabled(s, step) && Do(s, step).spans == s.spans && g < |Do(s, step).segs|
    ensures Remaining(Do(s, step), g) == Remaining(s, g) - 1 ||
            Remaining(Do(s, step), g) == Remaining(s, g) - 2
  {
    var seg := s.segs[g];
    assert SegOk(s, g);
    if seg.phase.Stopped? {
      step := CloseDone(g);
    } else if seg.phase.Closed? {
      step := SendTracing(g);
    } else {
      var x := seg.root;
      if seg.total >= 0 {
        FitsIn(seg.received, seg.registered);
        var y :| y in seg.registered && y !in seg.received;
        x := y;
      }
      assert NotLost(s, x) && Sending(s, x);
      var t: nat :| 0 <= t < |s.threads| && InEnd0(s.threads[t]) && s.threads[t].x == x;
      assert ThreadOk(s, t);
      step := match s.threads[t] case RootSwap(_) => Swap(t) case RootSend(_, _) => DeliverCount(t) case _ => DeliverSpan(t);
    }
  }

  ghost predicate Path(path: seq<State>) {
    |path| > 0 && forall i :: 0 <= i < |path| - 1 ==> Steps(path[i], path[i + 1])
  }

  /**
   From any reachable state in which every span of a segment has ended, the hand-overs and the
   collector alone can bring the segment to its report: no deadlock and no lost wake-up.
   */
  lemma {:induction false} FinishedSegmentCanBeSent(s: State, g: nat) returns (path: seq<State>)
    requires Inv(s) && g < |s.segs| && AllEnded(s, g)
    ensures Path(path) && path[0] == s
    ensures var last := path[|path| - 1];
            && last.spans == s.spans && g < |last.segs| && last.segs[g].phase.Reported?
    decreases Remaining(s, g)
  {
    if s.segs[g].phase.Reported? {
      path := [s];
    } else {
      var step := NextOwnStep(s, g);
      var s' := Do(s, step);
      InvKept(s, step);
      assert SegOk(s, g) && SegOk(s', g);
      FitsIn(s.segs[g].received, s.segs[g].registered);
      var rest := FinishedSegmentCanBeSent(s', g);
      assert Steps(s, s');
      Prepend(s, rest);
      path := [s] + rest;
    }
  }

  lemma Prepend(s: State, rest: seq<State>)
    requires Path(rest) && Steps(s, rest[0])
    ensures Path([s] + rest)
  {
    var path := [s] + rest;
    forall i | 0 <= i < |path| - 1 ensures Steps(path[i], path[i + 1]) {
      if i > 0 { assert Steps(rest[i - 1], rest[i - 1 + 1]); }
    }
  }
}

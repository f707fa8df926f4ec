/** The inductive invariant of the segment protocol. */
module SegmentInvariant {
  import opened Wrappers
  import opened DefaultSpans
  import opened SegmentProtocol

  ghost predicate NoDuplicates<T>(q: seq<T>) {
    forall i, j :: 0 <= i < j < |q| ==> q[i] != q[j]
  }

  /** Its segment, its place in the tree, and that a frozen span has an end time. */
  ghost predicate SpanOk(s: State, x: nat)
    requires x < |s.spans|
  {
    var sp := s.spans[x];
    && sp.seg < |s.segs|
    && s.segs[sp.seg].root < |s.spans|
    && sp.traceID == s.spans[s.segs[sp.seg].root].traceID
    && (sp.state.ended ==> sp.state.data.endTime.Some?)
    && (sp.parent.Some? ==> sp.parent.value < x && sp.traceID == s.spans[sp.parent.value].traceID
                            && sp.parentSeg == Some(s.spans[sp.parent.value].seg))
    && (sp.root ==> s.segs[sp.seg].root == x && sp.spanID == 0 && sp.parentSpanID == -1)
    && (!sp.root ==>
          && x in s.segs[sp.seg].registered
          && 0 < sp.spanID <= s.segs[sp.seg].idGen
          && sp.parent.Some?
          && s.spans[sp.parent.value].seg == sp.seg
          && s.spans[sp.parent.value].spanID == sp.parentSpanID < sp.spanID)
  }

  /** What the counts of a segment mean. */
  ghost predicate SegOk(s: State, g: nat)
    requires g < |s.segs|
  {
    var seg := s.segs[g];
    && seg.root < |s.spans| && s.spans[seg.root].root && s.spans[seg.root].seg == g
    && seg.idGen >= 0
    && (forall y :: y in seg.registered ==> y < |s.spans| && !s.spans[y].root && s.spans[y].seg == g)
    && NoDuplicates(seg.received)
    && (forall i :: 0 <= i < |seg.received| ==>
          seg.received[i] in seg.registered && s.spans[seg.received[i]].state.ended)
    && (seg.swapped.None? ==> seg.refNum == |seg.registered| && seg.total == -1)
    && (seg.swapped.Some? ==>
          && seg.refNum == -1 && seg.swapped.value == |seg.registered|
          && (seg.total == -1 || seg.total == |seg.registered|)
          && s.spans[seg.root].state.ended)
    && (seg.phase.Collecting? <==> seg.total != |seg.received|)
  }

  /** What a goroutine may rely on at each program point. */
  ghost predicate ThreadOk(s: State, t: nat)
    requires t < |s.threads|
  {
    var pc := s.threads[t];
    match pc
    case Idle => true
    case Registering(p, id) => DrawnID(s, p, id)
    case Loaded(p, id, o) => DrawnID(s, p, id) && o >= 0
    case AsyncEnd(x) => Live(s, x)
    case AsyncFreeze(x) => Live(s, x) && s.spans[x].state.data.endTime.Some?
    case RootSwap(x) =>
      Live(s, x) && s.spans[x].root && s.spans[x].state.ended && SegOf(s, x).swapped.None?
    case RootSend(x, n) =>
      Live(s, x) && s.spans[x].root && SegOf(s, x).swapped == Some(n) && SegOf(s, x).total == -1
    case ChildSend(x) =>
      Live(s, x) && !s.spans[x].root && s.spans[x].state.ended && x !in SegOf(s, x).received
  }

  /** An id drawn from the generator and not yet used by any span of that segment. */
  ghost predicate DrawnID(s: State, p: nat, id: int) {
    && Live(s, p) && 0 < id <= SegOf(s, p).idGen && s.spans[p].spanID < id
    && forall x :: 0 <= x < |s.spans| && s.spans[x].seg == s.spans[p].seg ==> s.spans[x].spanID != id
  }

  ghost predicate SpansOk(s: State) {
    forall x :: 0 <= x < |s.spans| ==> SpanOk(s, x)
  }

  ghost predicate SegsOk(s: State) {
    forall g :: 0 <= g < |s.segs| ==> SegOk(s, g)
  }

  ghost predicate ThreadsOk(s: State) {
    forall t :: 0 <= t < |s.threads| ==> ThreadOk(s, t)
  }

  ghost predicate DistinctIDs(s: State) {
    forall x, y :: 0 <= x < y < |s.spans| && s.spans[x].seg == s.spans[y].seg ==> s.spans[x].spanID != s.spans[y].spanID
  }

  /** Two goroutines never hold the same id of one segment. */
  ghost predicate DistinctDrawn(s: State) {
    forall t, u :: 0 <= t < u < |s.threads| && Creating(s.threads[t]) && Creating(s.threads[u])
      && s.threads[t].parent < |s.spans| && s.threads[u].parent < |s.spans|
      && s.spans[s.threads[t].parent].seg == s.spans[s.threads[u].parent].seg
      ==> s.threads[t].id != s.threads[u].id
  }

  /** Each span is handed over by one goroutine only. */
  ghost predicate OneSender(s: State) {
    forall t, u :: 0 <= t < u < |s.threads| && InEnd0(s.threads[t]) && InEnd0(s.threads[u])
      ==> s.threads[t].x != s.threads[u].x
  }

  ghost predicate Sending(s: State, x: nat) {
    exists t :: 0 <= t < |s.threads| && InEnd0(s.threads[t]) && s.threads[t].x == x
  }

  /** A frozen span has reached its collector or is on its way. */
  ghost predicate NotLost(s: State, x: nat)
    requires Live(s, x)
  {
    s.spans[x].state.ended ==>
      Sending(s, x) || (if s.spans[x].root then SegOf(s, x).total >= 0 else x in SegOf(s, x).received)
  }

  ghost predicate NoneLost(s: State) {
    forall x :: 0 <= x < |s.spans| ==> Live(s, x) && NotLost(s, x)
  }

  /** A report is the collected spans and the root, with the data they still have. */
  ghost predicate ReportOk(s: State, r: Report) {
    && r.seg < |s.segs| && s.segs[r.seg].phase.Reported?
    && r.spans == s.segs[r.seg].received + [s.segs[r.seg].root]
    && |r.data| == |r.spans|
    && forall i :: 0 <= i < |r.spans| ==>
         r.spans[i] < |s.spans| && s.spans[r.spans[i]].state.ended && r.data[i] == s.spans[r.spans[i]].state.data
  }

  ghost predicate ReportsOk(s: State) {
    && (forall k :: 0 <= k < |s.reports| ==> ReportOk(s, s.reports[k]))
    && (forall k, l :: 0 <= k < l < |s.reports| ==> s.reports[k].seg != s.reports[l].seg)
  }

  ghost predicate Inv(s: State) {
    && SpansOk(s) && SegsOk(s) && ThreadsOk(s)
    && DistinctIDs(s) && DistinctDrawn(s) && OneSender(s) && NoneLost(s) && ReportsOk(s)
  }

  // ------------------------------------------------------------ counts to sets

  /** A duplicate-free list inside a set of the same size lists the whole set. */
  lemma {:induction false} Pigeonhole(q: seq<nat>, registered: set<nat>)
    requires NoDuplicates(q) && |q| == |registered| && forall i :: 0 <= i < |q| ==> q[i] in registered
    ensures forall y :: y in registered ==> y in q
  {
    if q != [] {
      var rest := q[..|q| - 1];
      var last := q[|q| - 1];
      assert forall i :: 0 <= i < |rest| ==> rest[i] == q[i];
      Pigeonhole(rest, registered - {last});
      assert q == rest + [last];
    }
  }

  /** Once the collector has stopped, it has received every registered span. */
  lemma StoppedHasAll(s: State, g: nat)
    requires g < |s.segs| && SegOk(s, g) && !s.segs[g].phase.Collecting?
    ensures s.segs[g].swapped.Some? && s.segs[g].total >= 0
    ensures forall y :: y in s.segs[g].registered ==> y in s.segs[g].received
  {
    Pigeonhole(s.segs[g].received, s.segs[g].registered);
  }

  /** A goroutine that still offers something finds its collector receiving: no drop is possible. */
  lemma SenderHasReceiver(s: State, t: nat)
    requires Inv(s) && t < |s.threads| && (s.threads[t].ChildSend? || s.threads[t].RootSend?)
    ensures Live(s, s.threads[t].x) && SegOf(s, s.threads[t].x).phase.Collecting?
  {
    assert ThreadOk(s, t);
    var x := s.threads[t].x;
    assert SpanOk(s, x) && SegOk(s, s.spans[x].seg);
    if !SegOf(s, x).phase.Collecting? { StoppedHasAll(s, s.spans[x].seg); }
  }

  // ------------------------------------------------------------- preservation

  /** What every step leaves standing. */
  ghost predicate Grows(s: State, s': State) {
    && |s.spans| <= |s'.spans| && |s.segs| <= |s'.segs|
    && (forall x :: 0 <= x < |s.spans| ==>
          && s'.spans[x] == s.spans[x].(state := s'.spans[x].state)
          && (s.spans[x].state.ended ==> s'.spans[x].state.ended && s'.spans[x].state.data == s.spans[x].state.data)
          && (s.spans[x].state.data.endTime.Some? ==> s'.spans[x].state.data.endTime.Some?)
          && (s'.spans[x].state.ended ==> s'.spans[x].state.data.endTime.Some?))
    && (forall g :: 0 <= g < |s.segs| ==> SegGrows(s.segs[g], s'.segs[g]))
  }

  ghost predicate SegGrows(seg: Segment, seg': Segment) {
    && seg'.root == seg.root && seg.registered <= seg'.registered && seg.idGen <= seg'.idGen
    && (!seg.phase.Collecting? ==> seg'.received == seg.received)
    && (seg.phase.Reported? ==> seg'.phase.Reported?)
  }

  /** The span whose section a step runs, and that section. */
  function SectionOf(s: State, step: Step): Option<(nat, Section)>
    requires Enabled(s, step)
  {
    match step
    case Local(t, x, sec) => Some((x, sec))
    case End(t, x, now) => Some((x, EndSync(now)))
    case AsyncBegin(t, x) => Some((x, AsyncFinish))
    case AsyncStamp(t, now) => Some((s.threads[t].x, StampEnd(now)))
    case AsyncFrozen(t) => Some((s.threads[t].x, Freeze))
    case _ => None
  }

  /** A step that runs a section changes the state of its span, and no segment. */
  lemma SectionEffect(s: State, step: Step)
    requires Inv(s) && Enabled(s, step) && SectionOf(s, step).Some?
    ensures var (x, sec) := SectionOf(s, step).value;
            && Live(s, x)
            && Do(s, step).segs == s.segs && Do(s, step).reports == s.reports
            && Do(s, step).spans == s.spans[x := s.spans[x].(state := Apply(s.spans[x].state, sec).0)]
            && (sec.Freeze? ==> s.spans[x].state.data.endTime.Some?)
            && (s.spans[x].state.ended ==> s.spans[x].state.data.endTime.Some?)
  {
    var (x, sec) := SectionOf(s, step).value;
    if step.AsyncFrozen? { assert ThreadOk(s, step.t); }
    assert SpanOk(s, x);
  }

  lemma SectionGrows(s: State, s': State, x: nat, sec: Section)
    requires SpansOk(s) && x < |s.spans|
    requires s'.segs == s.segs && s'.spans == s.spans[x := s.spans[x].(state := Apply(s.spans[x].state, sec).0)]
    requires sec.Freeze? ==> s.spans[x].state.data.endTime.Some?
    ensures Grows(s, s')
  {
    assert SpanOk(s, x);
    SectionFacts(s.spans[x].state, sec);
    forall y | 0 <= y < |s.spans| ensures s'.spans[y].state.ended ==> s'.spans[y].state.data.endTime.Some? {
      assert SpanOk(s, y);
    }
  }

  lemma StepGrows(s: State, step: Step)
    requires Inv(s) && Enabled(s, step)
    ensures Grows(s, Do(s, step))
  {
    if SectionOf(s, step).Some? {
      SectionEffect(s, step);
      var (x, sec) := SectionOf(s, step).value;
      SectionGrows(s, Do(s, step), x, sec);
    } else {
      var s' := Do(s, step);
      assert forall x :: 0 <= x < |s.spans| ==> s'.spans[x] == s.spans[x];
      forall x | 0 <= x < |s.spans| ensures s.spans[x].state.ended ==> s.spans[x].state.data.endTime.Some? {
        assert SpanOk(s, x);
      }
      forall g | 0 <= g < |s.segs| ensures SegGrows(s.segs[g], s'.segs[g]) {
        assert SegOk(s, g);
      }
    }
  }

  lemma SpanFrame(s: State, s': State, x: nat)
    requires Grows(s, s') && x < |s.spans| && SpanOk(s, x)
    ensures SpanOk(s', x)
  {
  }

  lemma KeepSpans(s: State, step: Step)
    requires Inv(s) && Enabled(s, step)
    ensures SpansOk(Do(s, step))
  {
    var s' := Do(s, step);
    StepGrows(s, step);
    forall x | 0 <= x < |s.spans| ensures SpanOk(s', x) {
      SpanFrame(s, s', x);
    }
    if |s'.spans| > |s.spans| {
      NewSpanOk(s, step);
    }
  }

  lemma NewSpanOk(s: State, step: Step)
    requires Inv(s) && Enabled(s, step) && |Do(s, step).spans| > |s.spans|
    ensures |Do(s, step).spans| == |s.spans| + 1 && SpanOk(Do(s, step), |s.spans|)
  {
    if step.Load? || step.Cas? {
      assert ThreadOk(s, step.t);
      assert SpanOk(s, s.threads[step.t].parent);
    }
  }

  /** Drawing an id, closing collectorDone and reporting leave the counts alone. */
  lemma SegFrame(s: State, s': State, g: nat)
    requires Grows(s, s') && g < |s.segs| && SegOk(s, g)
    requires s'.segs[g] == s.segs[g].(idGen := s'.segs[g].idGen, phase := s'.segs[g].phase)
    requires s'.segs[g].phase.Collecting? <==> s.segs[g].phase.Collecting?
    ensures SegOk(s', g)
  {
  }

  lemma KeepSegs(s: State, step: Step)
    requires Inv(s) && Enabled(s, step)
    ensures SegsOk(Do(s, step))
  {
    StepGrows(s, step);
    forall g | 0 <= g < |Do(s, step).segs| ensures SegOk(Do(s, step), g) {
      if g < |s.segs| { SegKept(s, step, g); } else { NewSegOk(s, step, g); }
    }
  }

  lemma NewSegOk(s: State, step: Step, g: nat)
    requires Enabled(s, step) && |s.segs| <= g < |Do(s, step).segs|
    ensures SegOk(Do(s, step), g)
  {
  }

  /** Only four steps touch the counts of a segment. */
  ghost predicate CountsAlone(seg: Segment, seg': Segment) {
    seg' == seg.(idGen := seg'.idGen, phase := seg'.phase) && (seg'.phase.Collecting? <==> seg.phase.Collecting?)
  }

  lemma CountingSteps(s: State, step: Step, g: nat)
    requires Enabled(s, step) && g < |s.segs|
    ensures CountsAlone(s.segs[g], Do(s, step).segs[g]) ||
            step.Cas? || step.Swap? || step.DeliverCount? || step.DeliverSpan?
  {
  }

  lemma SegKept(s: State, step: Step, g: nat)
    requires Inv(s) && Enabled(s, step) && Grows(s, Do(s, step)) && g < |s.segs|
    ensures SegOk(Do(s, step), g)
  {
    assert SegOk(s, g);
    CountingSteps(s, step, g);
    if CountsAlone(s.segs[g], Do(s, step).segs[g]) {
      SegFrame(s, Do(s, step), g);
    } else {
      CountsKept(s, step, g);
    }
  }

  lemma Registered(s: State, s': State, g: nat)
    requires Grows(s, s') && g < |s.segs| && SegOk(s, g) && s.segs[g].refNum >= 0
    requires |s'.spans| == |s.spans| + 1 && !s'.spans[|s.spans|].root && s'.spans[|s.spans|].seg == g
    requires s'.segs[g] == s.segs[g].(refNum := s.segs[g].refNum + 1, registered := s.segs[g].registered + {|s.spans|})
    ensures SegOk(s', g)
  {
    assert |s.spans| !in s.segs[g].registered;
  }

  lemma Swapped(s: State, s': State, g: nat)
    requires Grows(s, s') && g < |s.segs| && SegOk(s, g)
    requires s.segs[g].swapped.None? && s.spans[s.segs[g].root].state.ended
    requires s'.segs[g] == s.segs[g].(refNum := -1, swapped := Some(s.segs[g].refNum))
    ensures SegOk(s', g)
  {
  }

  lemma Counted(s: State, s': State, g: nat)
    requires Grows(s, s') && g < |s.segs| && SegOk(s, g) && s.segs[g].swapped.Some?
    requires s'.segs[g] == Checked(s.segs[g].(total := s.segs[g].swapped.value))
    ensures SegOk(s', g)
  {
  }

  lemma SpanReceived(s: State, s': State, g: nat, x: nat)
    requires Grows(s, s') && g < |s.segs| && SegOk(s, g)
    requires x in s.segs[g].registered && x < |s.spans| && s.spans[x].state.ended && x !in s.segs[g].received
    requires s'.segs[g] == Checked(s.segs[g].(received := s.segs[g].received + [x]))
    ensures SegOk(s', g)
  {
  }

  lemma CountsKept(s: State, step: Step, g: nat)
    requires SpansOk(s) && SegsOk(s) && ThreadsOk(s) && Enabled(s, step) && g < |s.segs|
    requires step.Cas? || step.Swap? || step.DeliverCount? || step.DeliverSpan?
    requires Grows(s, Do(s, step)) && Do(s, step).segs[g] != s.segs[g]
    ensures SegOk(Do(s, step), g)
  {
    assert ThreadOk(s, step.t) && SegOk(s, g);
    if step.Cas? {
      Registered(s, Do(s, step), g);
    } else if step.Swap? {
      assert SpanOk(s, s.threads[step.t].x);
      Swapped(s, Do(s, step), g);
    } else {
      ReceivedKept(s, step, g);
    }
  }

  lemma ReceivedKept(s: State, step: Step, g: nat)
    requires SpansOk(s) && SegsOk(s) && ThreadsOk(s) && Enabled(s, step) && g < |s.segs|
    requires step.DeliverCount? || step.DeliverSpan?
    requires Grows(s, Do(s, step)) && Do(s, step).segs[g] != s.segs[g]
    ensures SegOk(Do(s, step), g)
  {
    assert ThreadOk(s, step.t) && SegOk(s, g);
    var x := s.threads[step.t].x;
    assert SpanOk(s, x);
    if step.DeliverCount? { Counted(s, Do(s, step), g); } else { SpanReceived(s, Do(s, step), g, x); }
  }

  /** Another goroutine is undisturbed if its id stays unused and its hand-over is not someone else's. */
  lemma ThreadFrame(s: State, s': State, t: nat)
    requires Grows(s, s') && t < |s.threads| && t < |s'.threads| && s'.threads[t] == s.threads[t] && ThreadOk(s, t)
    requires Creating(s.threads[t]) ==>
               forall x :: |s.spans| <= x < |s'.spans| && s'.spans[x].seg == s.spans[s.threads[t].parent].seg
                 ==> s'.spans[x].spanID != s.threads[t].id
    requires InEnd0(s.threads[t]) ==>
               var x := s.threads[t].x;
               && (s.threads[t].RootSwap? ==> SegOf(s', x).swapped == SegOf(s, x).swapped)
               && (s.threads[t].RootSend? ==> SegOf(s', x).swapped == SegOf(s, x).swapped && SegOf(s', x).total == SegOf(s, x).total)
               && (s.threads[t].ChildSend? && x in SegOf(s', x).received ==> x in SegOf(s, x).received)
    ensures ThreadOk(s', t)
  {
  }

  lemma KeepThreads(s: State, step: Step)
    requires Inv(s) && Enabled(s, step)
    ensures ThreadsOk(Do(s, step))
  {
    var s' := Do(s, step);
    StepGrows(s, step);
    forall t | 0 <= t < |s'.threads| ensures ThreadOk(s', t) {
      if t < |s.threads| && s'.threads[t] == s.threads[t] {
        assert ThreadOk(s, t);
        if Creating(s.threads[t]) && |s'.spans| > |s.spans| { OtherID(s, step, t); }
        if InEnd0(s.threads[t]) {
          HandOverFrames(s, step, s.spans[s.threads[t].x].seg);
          OtherSender(s, s', step, t);
        }
        ThreadFrame(s, s', t);
      } else if SectionOf(s, step).Some? {
        SectionMovedOk(s, step, t);
      } else {
        MovedThreadOk(s, step, t);
      }
    }
  }

  lemma OtherID(s: State, step: Step, t: nat)
    requires Inv(s) && Enabled(s, step) && t < |s.threads| && Do(s, step).threads[t] == s.threads[t]
    requires Creating(s.threads[t]) && Live(s, s.threads[t].parent) && |Do(s, step).spans| > |s.spans|
    ensures var s' := Do(s, step);
            forall x :: |s.spans| <= x < |s'.spans| && s'.spans[x].seg == s.spans[s.threads[t].parent].seg
              ==> s'.spans[x].spanID != s.threads[t].id
  {
  }

  /** Which step may change what a pending hand-over looks at. */
  ghost predicate HandOverFrame(s: State, s': State, step: Step, g: nat)
    requires g < |s.segs| && g < |s'.segs|
  {
    && (s'.segs[g].swapped != s.segs[g].swapped ==> step.Swap? && TakenBy(s, step.t, g))
    && (s'.segs[g].total != s.segs[g].total ==> step.DeliverCount? && TakenBy(s, step.t, g))
    && (s'.segs[g].received != s.segs[g].received ==>
          step.DeliverSpan? && TakenBy(s, step.t, g) && s'.segs[g].received == s.segs[g].received + [s.threads[step.t].x])
  }

  ghost predicate TakenBy(s: State, t: nat, g: nat) {
    t < |s.threads| && InEnd0(s.threads[t]) && Live(s, s.threads[t].x) && s.spans[s.threads[t].x].seg == g
  }

  lemma HandOverFrames(s: State, step: Step, g: nat)
    requires Enabled(s, step) && g < |s.segs|
    ensures HandOverFrame(s, Do(s, step), step, g)
  {
  }

  lemma OtherSender(s: State, s': State, step: Step, t: nat)
    requires Inv(s) && t < |s.threads| && t < |s'.threads| && InEnd0(s.threads[t]) && Live(s, s.threads[t].x) && Grows(s, s')
    requires HandOverFrame(s, s', step, s.spans[s.threads[t].x].seg)
    requires step.Swap? || step.DeliverCount? || step.DeliverSpan? ==>
               step.t < |s.threads| && step.t != t
               && (if step.DeliverSpan? then s.threads[step.t].ChildSend?
                   else s.threads[step.t].RootSwap? || s.threads[step.t].RootSend?)
    ensures var x := s.threads[t].x;
            && (s.threads[t].RootSwap? ==> SegOf(s', x).swapped == SegOf(s, x).swapped)
            && (s.threads[t].RootSend? ==> SegOf(s', x).swapped == SegOf(s, x).swapped && SegOf(s', x).total == SegOf(s, x).total)
            && (s.threads[t].ChildSend? && x in SegOf(s', x).received ==> x in SegOf(s, x).received)
  {
    assert ThreadOk(s, t) && SpanOk(s, s.threads[t].x);
    if step.Swap? || step.DeliverCount? || step.DeliverSpan? {
      assert ThreadOk(s, step.t) && SpanOk(s, s.threads[step.t].x);
    }
  }

  /** After a section: an ordinary continuation, or a hand-over of a span frozen just now. */
  lemma SectionThreads(s: State, step: Step, t: nat)
    requires Inv(s) && Enabled(s, step) && t < |Do(s, step).threads| && SectionOf(s, step).Some?
    requires t < |s.threads| ==> Do(s, step).threads[t] != s.threads[t]
    ensures var (x, sec) := SectionOf(s, step).value;
            var pc := Do(s, step).threads[t];
            || pc == Idle || pc == AsyncEnd(x) || (pc == AsyncFreeze(x) && sec.StampEnd?)
            || (Apply(s.spans[x].state, sec).1 == Returned(true) && pc == if s.spans[x].root then RootSwap(x) else ChildSend(x))
  {
  }

  /** The goroutine that ran a section, or that the section started. */
  lemma SectionMovedOk(s: State, step: Step, t: nat)
    requires Inv(s) && Enabled(s, step) && t < |Do(s, step).threads| && Grows(s, Do(s, step))
    requires SectionOf(s, step).Some?
    requires t < |s.threads| ==> Do(s, step).threads[t] != s.threads[t]
    ensures ThreadOk(Do(s, step), t)
  {
    SectionEffect(s, step);
    SectionThreads(s, step, t);
    var (x, sec) := SectionOf(s, step).value;
    HandedOverOk(s, Do(s, step), t, x, sec);
  }

  lemma HandedOverOk(s: State, s': State, t: nat, x: nat, sec: Section)
    requires SpansOk(s) && SegsOk(s) && x < |s.spans| && s'.segs == s.segs && t < |s'.threads|
    requires s'.spans == s.spans[x := s.spans[x].(state := Apply(s.spans[x].state, sec).0)]
    requires sec.Freeze? ==> s.spans[x].state.data.endTime.Some?
    requires var pc := s'.threads[t];
             || pc == Idle || pc == AsyncEnd(x) || (pc == AsyncFreeze(x) && sec.StampEnd?)
             || (Apply(s.spans[x].state, sec).1 == Returned(true) && pc == if s.spans[x].root then RootSwap(x) else ChildSend(x))
    ensures ThreadOk(s', t)
  {
    assert SpanOk(s, x) && SegOk(s, s.spans[x].seg);
    SectionFacts(s.spans[x].state, sec);
  }

  /** The goroutine that took any other step, or that the step started. */
  lemma MovedThreadOk(s: State, step: Step, t: nat)
    requires SpansOk(s) && SegsOk(s) && ThreadsOk(s) && Enabled(s, step) && t < |Do(s, step).threads| && Grows(s, Do(s, step))
    requires SectionOf(s, step).None?
    requires t < |s.threads| ==> Do(s, step).threads[t] != s.threads[t]
    ensures ThreadOk(Do(s, step), t)
  {
    if t < |s.threads| {
      assert ThreadOk(s, t);
      if step.AllocID? { AllocIDOk(s, step); }
      if step.Swap? { assert SegOk(s, s.spans[s.threads[t].x].seg); }
    }
  }

  lemma AllocIDOk(s: State, step: Step)
    requires SpansOk(s) && SegsOk(s) && Enabled(s, step) && step.AllocID?
    ensures DrawnID(Do(s, step), step.parent, SegOf(s, step.parent).idGen + 1)
  {
    var g := s.spans[step.parent].seg;
    assert SegOk(s, g);
    forall x | 0 <= x < |s.spans| && s.spans[x].seg == g ensures s.spans[x].spanID <= s.segs[g].idGen {
      assert SpanOk(s, x);
    }
  }

  lemma KeepIDs(s: State, step: Step)
    requires Inv(s) && Enabled(s, step)
    ensures DistinctIDs(Do(s, step))
  {
    StepGrows(s, step);
    if |Do(s, step).spans| > |s.spans| {
      NewSpanOk(s, step);
      NewIDUnused(s, step);
    }
    IDFrame(s, Do(s, step));
  }

  lemma NewIDUnused(s: State, step: Step)
    requires Inv(s) && Enabled(s, step) && |Do(s, step).spans| == |s.spans| + 1
    ensures var y := Do(s, step).spans[|s.spans|];
            forall x :: 0 <= x < |s.spans| && s.spans[x].seg == y.seg ==> s.spans[x].spanID != y.spanID
  {
    if step.Cas? { assert ThreadOk(s, step.t); }
    forall x | 0 <= x < |s.spans| ensures s.spans[x].seg < |s.segs| { assert SpanOk(s, x); }
  }

  lemma IDFrame(s: State, s': State)
    requires Grows(s, s') && DistinctIDs(s) && |s'.spans| <= |s.spans| + 1
    requires |s'.spans| > |s.spans| ==>
               forall x :: 0 <= x < |s.spans| && s.spans[x].seg == s'.spans[|s.spans|].seg
                 ==> s.spans[x].spanID != s'.spans[|s.spans|].spanID
    ensures DistinctIDs(s')
  {
  }

  lemma KeepDrawn(s: State, step: Step)
    requires Inv(s) && Enabled(s, step)
    ensures DistinctDrawn(Do(s, step))
  {
    var s' := Do(s, step);
    StepGrows(s, step);
    forall t, u | 0 <= t < u < |s'.threads| && Creating(s'.threads[t]) && Creating(s'.threads[u])
      && s'.threads[t].parent < |s'.spans| && s'.threads[u].parent < |s'.spans|
      && s'.spans[s'.threads[t].parent].seg == s'.spans[s'.threads[u].parent].seg
      ensures s'.threads[t].id != s'.threads[u].id
    {
      CreatingFrom(s, step, t);
      CreatingFrom(s, step, u);
    }
  }

  /** An id held after a step was held before by the same goroutine, or is drawn just now. */
  lemma CreatingFrom(s: State, step: Step, t: nat)
    requires ThreadsOk(s) && Enabled(s, step) && t < |Do(s, step).threads| && Creating(Do(s, step).threads[t])
    ensures t < |s.threads|
    ensures var pc, pc' := s.threads[t], Do(s, step).threads[t];
            || (Creating(pc) && pc.parent == pc'.parent && pc.id == pc'.id && Live(s, pc.parent)
                && pc.id <= SegOf(s, pc.parent).idGen && !(step.AllocID? && step.t == t))
            || (step.AllocID? && step.t == t && Live(s, pc'.parent) && pc'.id == SegOf(s, pc'.parent).idGen + 1
                && pc'.parent == step.parent)
  {
    if t < |s.threads| { assert ThreadOk(s, t); }
  }

  lemma KeepSenders(s: State, step: Step)
    requires Inv(s) && Enabled(s, step)
    ensures OneSender(Do(s, step))
  {
    var s' := Do(s, step);
    forall t, u | 0 <= t < u < |s'.threads| && InEnd0(s'.threads[t]) && InEnd0(s'.threads[u])
      ensures s'.threads[t].x != s'.threads[u].x
    {
      SenderFrom(s, step, t);
      SenderFrom(s, step, u);
      OnlyOneStarts(s, step, t, u);
    }
  }

  /** The step makes goroutine `t` start end0 of a span. */
  ghost predicate Starts(s: State, step: Step, t: nat)
    requires Enabled(s, step)
  {
    && t < |Do(s, step).threads| && InEnd0(Do(s, step).threads[t])
    && (t < |s.threads| ==> !InEnd0(s.threads[t]))
  }

  lemma OnlyOneStarts(s: State, step: Step, t: nat, u: nat)
    requires Enabled(s, step) && t < u
    ensures !(Starts(s, step, t) && Starts(s, step, u))
  {
  }

  /** A goroutine in end0 was there before for the same frozen span, or the span is frozen just now. */
  lemma SenderFrom(s: State, step: Step, t: nat)
    requires Inv(s) && Enabled(s, step) && t < |Do(s, step).threads| && InEnd0(Do(s, step).threads[t])
    ensures var x := Do(s, step).threads[t].x;
            && Live(s, x)
            && (s.spans[x].state.ended <==> t < |s.threads| && InEnd0(s.threads[t]))
            && (s.spans[x].state.ended ==> s.threads[t].x == x)
  {
    if t < |s.threads| && InEnd0(s.threads[t]) {
      SameHandOver(s, step, t);
      SendersEnded(s, t);
    } else {
      StartsInSection(s, step, t);
      SectionThreads(s, step, t);
      SectionEffect(s, step);
      var (x, sec) := SectionOf(s, step).value;
      SectionFacts(s.spans[x].state, sec);
    }
  }

  lemma SendersEnded(s: State, t: nat)
    requires Inv(s) && t < |s.threads| && InEnd0(s.threads[t])
    ensures Live(s, s.threads[t].x) && s.spans[s.threads[t].x].state.ended
  {
    assert ThreadOk(s, t);
    assert SpanOk(s, s.threads[t].x) && SegOk(s, s.spans[s.threads[t].x].seg);
  }

  lemma SameHandOver(s: State, step: Step, t: nat)
    requires Enabled(s, step) && t < |s.threads| && InEnd0(s.threads[t]) && InEnd0(Do(s, step).threads[t])
    ensures Do(s, step).threads[t].x == s.threads[t].x
  {
  }

  lemma StartsInSection(s: State, step: Step, t: nat)
    requires Enabled(s, step) && Starts(s, step, t)
    ensures SectionOf(s, step).Some?
  {
  }

  lemma KeepReports(s: State, step: Step)
    requires Inv(s) && Enabled(s, step)
    ensures ReportsOk(Do(s, step))
  {
    var s' := Do(s, step);
    StepGrows(s, step);
    forall k | 0 <= k < |s.reports| ensures ReportOk(s', s.reports[k]) {
      ReportFrame(s, s', s.reports[k]);
    }
    if step.SendTracing? {
      NewReportOk(s, step);
    } else {
      assert s'.reports == s.reports;
    }
  }

  lemma ReportFrame(s: State, s': State, r: Report)
    requires Grows(s, s') && ReportOk(s, r)
    ensures ReportOk(s', r)
  {
  }

  lemma NewReportOk(s: State, step: Step)
    requires Inv(s) && Enabled(s, step) && step.SendTracing?
    ensures ReportOk(Do(s, step), Do(s, step).reports[|s.reports|])
    ensures forall k :: 0 <= k < |s.reports| ==> s.reports[k].seg != step.g
  {
    assert SegOk(s, step.g);
    StoppedHasAll(s, step.g);
    forall k | 0 <= k < |s.reports| ensures s.reports[k].seg != step.g { assert ReportOk(s, s.reports[k]); }
  }

  lemma KeepNoneLost(s: State, step: Step)
    requires Inv(s) && Enabled(s, step)
    ensures NoneLost(Do(s, step))
  {
    var s' := Do(s, step);
    StepGrows(s, step);
    KeepSpans(s, step);
    forall x | 0 <= x < |s'.spans| ensures Live(s', x) && NotLost(s', x) {
      assert SpanOk(s', x);
      if x < |s.spans| && s.spans[x].state.ended {
        assert NotLost(s, x);
        if Sending(s, x) { StillSending(s, step, x); } else { StaysDelivered(s, step, x); }
      } else if s'.spans[x].state.ended {
        FrozenNow(s, step, x);
      }
    }
  }

  lemma StaysDelivered(s: State, step: Step, x: nat)
    requires Inv(s) && Enabled(s, step) && Live(s, x) && Grows(s, Do(s, step)) && Live(Do(s, step), x)
    requires if s.spans[x].root then SegOf(s, x).total >= 0 else x in SegOf(s, x).received
    ensures var s' := Do(s, step);
            if s'.spans[x].root then SegOf(s', x).total >= 0 else x in SegOf(s', x).received
  {
    HandOverFrames(s, step, s.spans[x].seg);
    if step.DeliverCount? {
      assert ThreadOk(s, step.t);
      assert SegOk(s, SpanSeg(s, step.t));
    }
  }

  function SpanSeg(s: State, t: nat): nat
    requires t < |s.threads| && InEnd0(s.threads[t]) && Live(s, s.threads[t].x)
  {
    s.spans[s.threads[t].x].seg
  }

  lemma StillSending(s: State, step: Step, x: nat)
    requires Inv(s) && Enabled(s, step) && Live(s, x) && Live(Do(s, step), x) && Sending(s, x)
    ensures NotLost(Do(s, step), x)
  {
    var t :| 0 <= t < |s.threads| && InEnd0(s.threads[t]) && s.threads[t].x == x;
    LeavesEnd0(s, step, t);
    if step.DropCount? || step.DropSpan? { SenderHasReceiver(s, step.t); }
    if StaysInEnd0(s, Do(s, step), t) {
      assert Sending(Do(s, step), x);
    } else {
      Delivered(s, step, t);
    }
  }

  lemma Delivered(s: State, step: Step, t: nat)
    requires Inv(s) && Enabled(s, step) && (step.DeliverCount? || step.DeliverSpan?) && step.t == t
    requires Live(Do(s, step), s.threads[t].x)
    ensures NotLost(Do(s, step), s.threads[t].x)
  {
    var x := s.threads[t].x;
    assert ThreadOk(s, t) && SegOk(s, s.spans[x].seg);
  }

  ghost predicate StaysInEnd0(s: State, s': State, t: nat) {
    t < |s.threads| && t < |s'.threads| && InEnd0(s.threads[t]) && InEnd0(s'.threads[t]) && s'.threads[t].x == s.threads[t].x
  }

  /** A goroutine leaves end0 by handing over, or by giving up. */
  lemma LeavesEnd0(s: State, step: Step, t: nat)
    requires Enabled(s, step) && t < |s.threads| && InEnd0(s.threads[t])
    ensures StaysInEnd0(s, Do(s, step), t) ||
            (step.t == t && (step.DeliverCount? || step.DeliverSpan? || step.DropCount? || step.DropSpan?))
  {
  }

  lemma FrozenNow(s: State, step: Step, x: nat)
    requires Inv(s) && Enabled(s, step) && x < |Do(s, step).spans| && Do(s, step).spans[x].state.ended
    requires x < |s.spans| ==> !s.spans[x].state.ended
    ensures Sending(Do(s, step), x)
  {
    var s' := Do(s, step);
    if SectionOf(s, step).Some? {
      SectionEffect(s, step);
      var (y, sec) := SectionOf(s, step).value;
      SectionFacts(s.spans[y].state, sec);
      assert x == y;
      if s.spans[x].root {
        assert s'.threads[step.t] == RootSwap(x);
      } else {
        assert s'.threads[|s.threads|] == ChildSend(x);
      }
    }
  }

  lemma InvInit()
    ensures Inv(Init)
  {
  }

  lemma InvKept(s: State, step: Step)
    requires Inv(s) && Enabled(s, step)
    ensures Inv(Do(s, step))
  {
    KeepSpans(s, step);
    KeepSegs(s, step);
    KeepThreads(s, step);
    KeepIDs(s, step);
    KeepDrawn(s, step);
    KeepSenders(s, step);
    KeepNoneLost(s, step);
    KeepReports(s, step);
  }
}

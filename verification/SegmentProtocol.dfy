/**
 The segment collector protocol as a transition system: any number of goroutines create,
 write, reuse and end the spans of any number of segments, and one collector goroutine a
 segment decides from counts alone when the segment is complete. A step is one atomic
 operation, one critical section of a span, or one rendezvous on an unbuffered channel.
 */
module SegmentProtocol {
  import opened Wrappers
  import opened DefaultSpans

  /** Where a goroutine is. `x` is always the index of a span. */
  datatype Pc =
    | Idle
    | Registering(parent: nat, id: int)        // has its span id, is about to load refNum
    | Loaded(parent: nat, id: int, o: int)     // has loaded refNum >= 0, is about to compare and swap
    | AsyncEnd(x: nat)                         // AsyncFinish: about to stamp the end time
    | AsyncFreeze(x: nat)                      // AsyncFinish: about to freeze
    | RootSwap(x: nat)                         // root end0: about to swap refNum
    | RootSend(x: nat, n: int)                 // root end0: offering the count on doneCh
    | ChildSend(x: nat)                        // child end0: offering the span on collect

  /** `parent` and `parentSeg` are what the creating goroutine was given, if anything. */
  datatype Span = Span(
    seg: nat, root: bool, spanID: int, parentSpanID: int, parent: Option<nat>,
    traceID: nat, parentSeg: Option<nat>, state: SpanState)

  datatype Phase = Collecting | Stopped | Closed | Reported

  /**
   The cells shared by the spans of a segment and the locals of its collector. The last two
   fields are history: the spans registered on `refNum`, and the value the swap took.
   */
  datatype Segment = Segment(
    refNum: int, idGen: int, root: nat, total: int, received: seq<nat>, phase: Phase,
    registered: set<nat>, swapped: Option<int>)

  /** One call of Reporter.SendTracing, with the data the reporter reads. */
  datatype Report = Report(seg: nat, spans: seq<nat>, data: seq<SpanData>)

  datatype State = State(spans: seq<Span>, segs: seq<Segment>, threads: seq<Pc>, reports: seq<Report>)

  const Init := State([], [], [], [])

  datatype Step =
    | Spawn
    | NewTrace(t: nat, traceID: nat, st: SpanState)     // creation without a parent
    | AllocID(t: nat, parent: nat)                      // creation under a span or a snapshot of it
    | Load(t: nat, st: SpanState)                       // st is used when this creation becomes a root
    | Cas(t: nat, st: SpanState)
    | Local(t: nat, x: nat, sec: Section)               // a section that never hands over
    | End(t: nat, x: nat, now: Time)
    | AsyncBegin(t: nat, x: nat)
    | AsyncStamp(t: nat, now: Time)
    | AsyncFrozen(t: nat)
    | Swap(t: nat)
    | DeliverCount(t: nat)
    | DeliverSpan(t: nat)
    | DropCount(t: nat)
    | DropSpan(t: nat)
    | CloseDone(g: nat)
    | SendTracing(g: nat)

  predicate At(s: State, t: nat, pc: Pc) {
    t < |s.threads| && s.threads[t] == pc
  }

  function SegOf(s: State, x: nat): Segment
    requires x < |s.spans| && s.spans[x].seg < |s.segs|
  {
    s.segs[s.spans[x].seg]
  }

  predicate Live(s: State, x: nat) {
    x < |s.spans| && s.spans[x].seg < |s.segs|
  }

  /** The goroutine has drawn a span id and is creating a span. */
  predicate Creating(pc: Pc) {
    pc.Registering? || pc.Loaded?
  }

  /** The goroutine runs end0 of a span. */
  predicate InEnd0(pc: Pc) {
    pc.RootSwap? || pc.RootSend? || pc.ChildSend?
  }

  predicate Enabled(s: State, step: Step) {
    match step
    case Spawn => true
    case NewTrace(t, _, st) => At(s, t, Idle) && Fresh(st)
    case AllocID(t, parent) => At(s, t, Idle) && Live(s, parent)
    case Load(t, st) => t < |s.threads| && s.threads[t].Registering? && Live(s, s.threads[t].parent) && Fresh(st)
    case Cas(t, st) => t < |s.threads| && s.threads[t].Loaded? && Live(s, s.threads[t].parent) && Fresh(st)
    case Local(t, x, sec) =>
      At(s, t, Idle) && Live(s, x) && (sec.Mutate? || sec.EnterReuse? || sec.PrepareAsync?)
    case End(t, x, _) => At(s, t, Idle) && Live(s, x)
    case AsyncBegin(t, x) => At(s, t, Idle) && Live(s, x)
    case AsyncStamp(t, _) => t < |s.threads| && s.threads[t].AsyncEnd? && Live(s, s.threads[t].x)
    case AsyncFrozen(t) => t < |s.threads| && s.threads[t].AsyncFreeze? && Live(s, s.threads[t].x)
    case Swap(t) => t < |s.threads| && s.threads[t].RootSwap? && Live(s, s.threads[t].x)
    case DeliverCount(t) =>
      t < |s.threads| && s.threads[t].RootSend? && Live(s, s.threads[t].x) && SegOf(s, s.threads[t].x).phase.Collecting?
    case DeliverSpan(t) =>
      t < |s.threads| && s.threads[t].ChildSend? && Live(s, s.threads[t].x) && SegOf(s, s.threads[t].x).phase.Collecting?
    case DropCount(t) =>
      t < |s.threads| && s.threads[t].RootSend? && Live(s, s.threads[t].x) && CollectorDone(SegOf(s, s.threads[t].x))
    case DropSpan(t) =>
      t < |s.threads| && s.threads[t].ChildSend? && Live(s, s.threads[t].x) && CollectorDone(SegOf(s, s.threads[t].x))
    case CloseDone(g) => g < |s.segs| && s.segs[g].phase.Stopped?
    case SendTracing(g) =>
      && g < |s.segs| && s.segs[g].phase.Closed? && s.segs[g].root < |s.spans|
      && forall i :: 0 <= i < |s.segs[g].received| ==> s.segs[g].received[i] < |s.spans|
  }

  /** The channel that late senders select on has been closed. */
  predicate CollectorDone(seg: Segment) {
    seg.phase.Closed? || seg.phase.Reported?
  }

  // ------------------------------------------------------------------- effects

  function WithThread(s: State, t: nat, pc: Pc): State
    requires t < |s.threads|
  {
    s.(threads := s.threads[t := pc])
  }

  function WithSeg(s: State, g: nat, seg: Segment): State
    requires g < |s.segs|
  {
    s.(segs := s.segs[g := seg])
  }

  function WithSpanState(s: State, x: nat, st: SpanState): State
    requires x < |s.spans|
  {
    s.(spans := s.spans[x := s.spans[x].(state := st)])
  }

  /** newSegmentRoot and createRootSegmentContext: a new segment with its own cells and collector. */
  function NewRoot(s: State, t: nat, parent: Option<nat>, parentSeg: Option<nat>, traceID: nat, st: SpanState): State
    requires t < |s.threads|
  {
    var span := Span(|s.segs|, true, 0, -1, parent, traceID, parentSeg, st);
    var seg := Segment(0, 0, |s.spans|, -1, [], Collecting, {}, None);
    s.(spans := s.spans + [span], segs := s.segs + [seg], threads := s.threads[t := Idle])
  }

  /** The child span that a successful registration publishes. */
  function NewChild(s: State, t: nat, parent: nat, id: int, st: SpanState): State
    requires t < |s.threads| && Live(s, parent)
  {
    var p := s.spans[parent];
    var span := Span(p.seg, false, id, p.spanID, Some(parent), p.traceID, Some(p.seg), st);
    var seg := s.segs[p.seg];
    s.(spans := s.spans + [span],
       segs := s.segs[p.seg := seg.(refNum := seg.refNum + 1, registered := seg.registered + {|s.spans|})],
       threads := s.threads[t := Idle])
  }

  /** Runs a section; a freeze sends the caller into end0, which a child runs in a new goroutine. */
  function RunSection(s: State, t: nat, x: nat, sec: Section, next: Pc): State
    requires t < |s.threads| && x < |s.spans|
  {
    var (st, out) := Apply(s.spans[x].state, sec);
    var s1 := WithSpanState(s, x, st);
    if out == Returned(true) then
      if s.spans[x].root then WithThread(s1, t, RootSwap(x))
      else WithThread(s1, t, next).(threads := s.threads[t := next] + [ChildSend(x)])
    else WithThread(s1, t, if out.Panicked? then Idle else next)
  }

  /** The collector leaves its loop as soon as the counts agree. */
  function Checked(seg: Segment): Segment {
    seg.(phase := if seg.total == |seg.received| then Stopped else Collecting)
  }

  /** What the two channels deliver. */
  datatype Message = Ended(x: nat) | FinalCount(n: int)

  function Received(seg: Segment, m: Message): Segment {
    match m
    case Ended(x) => Checked(seg.(received := seg.received + [x]))
    case FinalCount(n) => Checked(seg.(total := n))
  }

  function Do(s: State, step: Step): State
    requires Enabled(s, step)
  {
    match step
    case Spawn => s.(threads := s.threads + [Idle])
    case NewTrace(t, traceID, st) => NewRoot(s, t, None, None, traceID, st)
    case AllocID(t, parent) =>
      var seg := SegOf(s, parent);
      WithThread(WithSeg(s, s.spans[parent].seg, seg.(idGen := seg.idGen + 1)), t, Registering(parent, seg.idGen + 1))
    case Load(t, st) =>
      var pc := s.threads[t];
      var o := SegOf(s, pc.parent).refNum;
      if o < 0 then
        NewRoot(s, t, Some(pc.parent), Some(s.spans[pc.parent].seg), s.spans[pc.parent].traceID, st)
      else WithThread(s, t, Loaded(pc.parent, pc.id, o))
    case Cas(t, st) =>
      var pc := s.threads[t];
      if SegOf(s, pc.parent).refNum == pc.o then NewChild(s, t, pc.parent, pc.id, st)
      else WithThread(s, t, Registering(pc.parent, pc.id))
    case Local(t, x, sec) => RunSection(s, t, x, sec, Idle)
    case End(t, x, now) => RunSection(s, t, x, EndSync(now), Idle)
    case AsyncBegin(t, x) => RunSection(s, t, x, AsyncFinish, AsyncEnd(x))
    case AsyncStamp(t, now) => RunSection(s, t, s.threads[t].x, StampEnd(now), AsyncFreeze(s.threads[t].x))
    case AsyncFrozen(t) => RunSection(s, t, s.threads[t].x, Freeze, Idle)
    case Swap(t) =>
      var x := s.threads[t].x;
      var seg := SegOf(s, x);
      WithThread(WithSeg(s, s.spans[x].seg, seg.(refNum := -1, swapped := Some(seg.refNum))), t, RootSend(x, seg.refNum))
    case DeliverCount(t) =>
      var x := s.threads[t].x;
      WithThread(WithSeg(s, s.spans[x].seg, Received(SegOf(s, x), FinalCount(s.threads[t].n))), t, Idle)
    case DeliverSpan(t) =>
      var x := s.threads[t].x;
      WithThread(WithSeg(s, s.spans[x].seg, Received(SegOf(s, x), Ended(x))), t, Idle)
    case DropCount(t) => WithThread(s, t, Idle)
    case DropSpan(t) => WithThread(s, t, Idle)
    case CloseDone(g) => WithSeg(s, g, s.segs[g].(phase := Closed))
    case SendTracing(g) =>
      var seg := s.segs[g];
      var spans := seg.received + [seg.root];
      var data := seq(|spans|, i requires 0 <= i < |spans| => s.spans[spans[i]].state.data);
      WithSeg(s, g, seg.(phase := Reported)).(reports := s.reports + [Report(g, spans, data)])
  }

  /** A run: each state follows from the one before by some enabled step. */
  ghost predicate IsRun(run: seq<State>) {
    && |run| > 0 && run[0] == Init
    && forall i :: 0 <= i < |run| - 1 ==> Moves(run, i)
  }

  ghost predicate Moves(run: seq<State>, i: nat) {
    i + 1 < |run| && Steps(run[i], run[i + 1])
  }

  ghost predicate Steps(s: State, s': State) {
    exists step :: Enabled(s, step) && s' == Do(s, step)
  }

  // ------------------------------------------------------------ the collector's loop

  function SpansOf(inbox: seq<Message>): seq<nat> {
    if inbox == [] then []
    else
      var last := inbox[|inbox| - 1];
      SpansOf(inbox[..|inbox| - 1]) + if last.Ended? then [last.x] else []
  }

  /** The last count delivered, or -1. */
  function CountOf(inbox: seq<Message>): int {
    if inbox == [] then -1
    else
      var last := inbox[|inbox| - 1];
      if last.FinalCount? then last.n else CountOf(inbox[..|inbox| - 1])
  }

  /** The segment as its collector sees it after these messages. */
  function AfterMessages(seg: Segment, inbox: seq<Message>): Segment {
    if inbox == [] then seg else Received(AfterMessages(seg, inbox[..|inbox| - 1]), inbox[|inbox| - 1])
  }

  /**
   The loop of the collector goroutine over the messages in the order they arrive. It stops
   after the first message at which the count and the number of spans agree, and leaves the
   rest alone; its state is that of the transition system after the same messages.
   */
  method Collect(seg: Segment, inbox: seq<Message>) returns (segment: seq<nat>, total: int, used: nat, stopped: bool)
    requires seg.received == [] && seg.total == -1 && seg.phase.Collecting?
    ensures used <= |inbox| && segment == SpansOf(inbox[..used]) && total == CountOf(inbox[..used])
    ensures stopped <==> used > 0 && CountOf(inbox[..used]) == |SpansOf(inbox[..used])|
    ensures !stopped ==> used == |inbox|
    ensures forall k :: 0 < k < used ==> CountOf(inbox[..k]) != |SpansOf(inbox[..k])|
    ensures var seg' := AfterMessages(seg, inbox[..used]);
            seg'.received == segment && seg'.total == total && (seg'.phase.Stopped? <==> stopped)
  {
    segment, total, used, stopped := [], -1, 0, false;
    while used < |inbox| && !stopped
      invariant used <= |inbox| && segment == SpansOf(inbox[..used]) && total == CountOf(inbox[..used])
      invariant stopped <==> used > 0 && total == |segment|
      invariant forall k :: 0 < k < used ==> CountOf(inbox[..k]) != |SpansOf(inbox[..k])|
      invariant var seg' := AfterMessages(seg, inbox[..used]);
                seg'.received == segment && seg'.total == total && (seg'.phase.Stopped? <==> stopped)
      decreases |inbox| - used
    {
      assert inbox[..used + 1][..used] == inbox[..used];
      match inbox[used] {
        case Ended(x) => segment := segment + [x];
        case FinalCount(n) => total := n;
      }
      used := used + 1;
      if total == |segment| { stopped := true; }
    }
  }
}

/**
 The trace-profiling pipeline as a transition system: timers that start tasks under the
 manager's lock, the CPU profiler that writes while it runs, the monitor goroutine that stops
 it and flushes, and the goroutine that labels raw chunks with the current task.
 */
module ProfilePipeline {
  import opened Wrappers
  import opened ByteStrings
  import opened ProfilingWriter
  import EM = EventManager

  type TaskID = string

  /** Where the timer callback is while it holds the manager's lock. */
  datatype Mutex =
    | Free
    | CheckSet(task: TaskID)        // about to evaluate CouldSetCurTask
    | MarkTask(task: TaskID)        // currentTask is set, the flag not yet
    | CheckProfile(task: TaskID)    // about to evaluate CouldProfile and start the profiler
    | MarkProfiling(task: TaskID)   // the profiler runs, the flag is not yet set

  datatype Monitor = Waiting | StoppedProfile | FlagCleared | Done

  /** Where the writer's lock is: free, inside a Write, or between the last send of Flush and its reset. */
  datatype WriterPc = Unlocked | Writing | Flushed

  datatype Labeler =
    | Idle
    | Got(raw: Raw)
    | Read(raw: Raw, task: Option<TaskID>)
    | Clearing

  datatype Result = Result(taskID: TaskID, payload: Bytes, isLast: bool)

  /** History: one start of the profiler, what it wrote, and whether its flush was sent. */
  datatype Session = Session(task: TaskID, written: Bytes, flushed: bool)

  datatype State = State(
    mu: Mutex, taskInstalled: bool, currentTask: Option<TaskID>, curTaskExist: bool, ifProfiling: bool,
    profilerOn: bool, monitors: seq<Monitor>,
    buf: Bytes, writer: WriterPc, rawQueue: seq<Raw>, labeler: Labeler,
    results: seq<Result>, sessions: seq<Session>, emitted: seq<Raw>, started: bool, ignored: nat)

  /** `emitted` and `started` belong to the session in progress; `ignored` counts the "no task" branch. */
  const Init := State(Free, false, None, false, false, false, [], [], Unlocked, [], Idle, [], [], [], false, 0)

  datatype Step =
    | TimerFires(task: TaskID, early: bool)  // early: before the end time of the current task plus the timeout
    | TimerSets
    | TimerMarksTask
    | TimerStarts(ok: bool)                  // ok: the task is pending and the profiler could start
    | TimerMarksProfiling
    | TaskRemoved
    | BeginWrite(p: Bytes)
    | SendChunk
    | EndWrite
    | StopProfile(i: nat)
    | ClearFlag(i: nat)
    | FlushSend(i: nat)
    | FlushReset
    | Receive
    | ReadTask
    | Emit
    | Clear

  const CAPACITY: nat := 100

  function Flags(s: State): EM.Status {
    map[EM.IF_PROFILING := s.ifProfiling, EM.CUR_TASK_EXIST := s.curTaskExist]
  }

  function Rule(s: State, rules: seq<EM.Rule>): bool {
    EM.Eval(Flags(s), rules) == Wrappers.Ok(true)
  }

  predicate MonitorAt(s: State, i: nat, m: Monitor) {
    i < |s.monitors| && s.monitors[i] == m
  }

  predicate Enabled(s: State, step: Step, size: nat)
    requires size > 0
  {
    match step
    case TimerFires(_, _) => s.mu.Free?
    case TimerSets => s.mu.CheckSet?
    case TimerMarksTask => s.mu.MarkTask?
    case TimerStarts(_) => s.mu.CheckProfile?
    case TimerMarksProfiling => s.mu.MarkProfiling?
    case TaskRemoved => s.mu.Free?
    case BeginWrite(_) => s.profilerOn && s.writer.Unlocked? && s.sessions != []
    case SendChunk => s.writer.Writing? && |s.buf| >= size && |s.rawQueue| < CAPACITY
    case EndWrite => s.writer.Writing? && |s.buf| < size
    case StopProfile(i) => MonitorAt(s, i, Waiting) && !s.writer.Writing?
    case ClearFlag(i) => MonitorAt(s, i, StoppedProfile)
    case FlushSend(i) => MonitorAt(s, i, FlagCleared) && s.writer.Unlocked? && |s.rawQueue| < CAPACITY && s.sessions != []
    case FlushReset => s.writer.Flushed?
    case Receive => s.labeler.Idle? && s.rawQueue != []
    case ReadTask => s.labeler.Got? && s.mu.Free?
    case Emit => s.labeler.Read?
    case Clear => s.labeler.Clearing? && s.mu.Free?
  }

  function LastSession(s: State): Session
    requires s.sessions != []
  {
    s.sessions[|s.sessions| - 1]
  }

  function WithLast(s: State, x: Session): seq<Session>
    requires s.sessions != []
  {
    s.sessions[..|s.sessions| - 1] + [x]
  }

  function Do(s: State, step: Step, size: nat): State
    requires size > 0 && Enabled(s, step, size)
  {
    match step
    case TimerFires(task, early) =>
      if s.taskInstalled then s
      else s.(taskInstalled := true, mu := if s.currentTask.Some? && early then Free else CheckSet(task))
    case TimerSets =>
      if Rule(s, EM.CouldSetCurTaskRules()) then s.(currentTask := Some(s.mu.task), mu := MarkTask(s.mu.task))
      else s.(mu := Free)
    case TimerMarksTask => s.(curTaskExist := true, mu := CheckProfile(s.mu.task))
    case TimerStarts(ok) =>
      if Rule(s, EM.CouldProfileRules()) && ok && !s.profilerOn then
        s.(profilerOn := true, mu := MarkProfiling(s.mu.task), started := true, emitted := [],
           sessions := s.sessions + [Session(s.mu.task, [], false)])
      else s.(mu := Free)
    case TimerMarksProfiling => s.(ifProfiling := true, monitors := s.monitors + [Waiting], mu := Free)
    case TaskRemoved => s.(taskInstalled := false)
    case BeginWrite(p) =>
      s.(buf := s.buf + p, writer := Writing,
         sessions := WithLast(s, LastSession(s).(written := LastSession(s).written + p)))
    case SendChunk => s.(buf := s.buf[size..], rawQueue := s.rawQueue + [Raw(s.buf[..size], false)])
    case EndWrite => s.(writer := Unlocked)
    case StopProfile(i) => s.(profilerOn := false, monitors := s.monitors[i := StoppedProfile])
    case ClearFlag(i) => s.(ifProfiling := false, monitors := s.monitors[i := FlagCleared])
    case FlushSend(i) =>
      s.(rawQueue := s.rawQueue + [Raw(s.buf, true)], writer := Flushed, monitors := s.monitors[i := Done],
         sessions := WithLast(s, LastSession(s).(flushed := true)))
    case FlushReset => s.(buf := [], writer := Unlocked)
    case Receive => s.(labeler := Got(s.rawQueue[0]), rawQueue := s.rawQueue[1..])
    case ReadTask => s.(labeler := Read(s.labeler.raw, s.currentTask))
    case Emit =>
      (match s.labeler.task
       case None => s.(ignored := s.ignored + 1, labeler := Idle)
       case Some(id) =>
         s.(results := s.results + [Result(id, s.labeler.raw.data, s.labeler.raw.isLast)],
            emitted := s.emitted + [s.labeler.raw],
            labeler := if s.labeler.raw.isLast then Clearing else Idle))
    case Clear => s.(currentTask := None, curTaskExist := false, labeler := Idle, started := false, emitted := [])
  }

  ghost predicate Steps(s: State, s': State, size: nat)
    requires size > 0
  {
    exists step :: Enabled(s, step, size) && s' == Do(s, step, size)
  }

  ghost predicate IsRun(run: seq<State>, size: nat)
    requires size > 0
  {
    && |run| > 0 && run[0] == Init
    && forall i :: 0 <= i < |run| - 1 ==> Moves(run, i, size)
  }

  ghost predicate Moves(run: seq<State>, i: nat, size: nat)
    requires size > 0
  {
    i + 1 < |run| && Steps(run[i], run[i + 1], size)
  }

  // ---------------------------------------------------------------- the claim

  function Label(task: TaskID, raws: seq<Raw>): seq<Result> {
    if raws == [] then []
    else Label(task, raws[..|raws| - 1]) + [Result(task, raws[|raws| - 1].data, raws[|raws| - 1].isLast)]
  }

  /** The results of finished sessions: each one's chunks, under its own task, one block after another. */
  function Expected(sessions: seq<Session>, size: nat): seq<Result>
    requires size > 0
  {
    if sessions == [] then []
    else
      var last := sessions[|sessions| - 1];
      Expected(sessions[..|sessions| - 1], size) + Label(last.task, AllChunks(last.written, size))
  }

  // ------------------------------------------------------------ the invariant

  function InHand(s: State): seq<Raw> {
    match s.labeler
    case Got(raw) => [raw]
    case Read(raw, _) => [raw]
    case _ => []
  }

  /** The raw chunks of the session in progress, in order. */
  function SessionRaws(s: State): seq<Raw> {
    s.emitted + InHand(s) + s.rawQueue
  }

  ghost predicate AllDone(ms: seq<Monitor>) {
    forall i :: 0 <= i < |ms| ==> ms[i].Done?
  }

  /** Only the newest monitor may be at work. */
  ghost predicate OthersDone(ms: seq<Monitor>) {
    forall i :: 0 <= i < |ms| - 1 ==> ms[i].Done?
  }

  /** The flags and the lock: what guards the start of a profile. */
  ghost predicate FlagsOk(s: State) {
    && (s.curTaskExist <==> s.currentTask.Some? && !s.mu.MarkTask?)
    && (s.ifProfiling ==> s.curTaskExist)
    && (s.started ==> s.currentTask.Some?)
    && (s.mu.MarkTask? || s.mu.CheckProfile? ==> s.currentTask == Some(s.mu.task) && !s.started && !s.ifProfiling)
    && (s.mu.MarkProfiling? ==> s.started)
    && s.ignored == 0
  }

  /** Between sessions everything is at rest. */
  ghost predicate RestOk(s: State, size: nat)
    requires size > 0
  {
    !s.started ==>
      && s.rawQueue == [] && s.labeler == Idle && s.emitted == [] && !s.profilerOn && AllDone(s.monitors) && !s.ifProfiling
      && (s.writer.Flushed? || (s.writer.Unlocked? && s.buf == []))
      && (forall i :: 0 <= i < |s.sessions| ==> s.sessions[i].flushed)
      && s.results == Expected(s.sessions, size)
  }

  /** During a session: who runs, and where its bytes are. */
  ghost predicate SessionOk(s: State, size: nat)
    requires size > 0
  {
    s.started ==>
      && s.sessions != [] && HeadOk(s, size)
      && (if LastSession(s).flushed then FlushedOk(s, size) else RunningOk(s, size))
  }

  /** Which session it is, and the results so far. */
  ghost predicate HeadOk(s: State, size: nat)
    requires size > 0 && s.sessions != []
  {
    && OthersDone(s.monitors)
    && (forall i :: 0 <= i < |s.sessions| - 1 ==> s.sessions[i].flushed)
    && s.currentTask == Some(LastSession(s).task)
    && (s.labeler.Read? ==> s.labeler.task == s.currentTask)
    && s.results == Expected(s.sessions[..|s.sessions| - 1], size) + Label(LastSession(s).task, s.emitted)
  }

  ghost predicate FlushedOk(s: State, size: nat)
    requires size > 0 && s.sessions != []
  {
    && !s.profilerOn && AllDone(s.monitors) && !s.ifProfiling && !s.mu.MarkProfiling?
    && (s.writer.Flushed? || (s.writer.Unlocked? && s.buf == []))
    && SessionRaws(s) == AllChunks(LastSession(s).written, size)
    && (s.labeler.Clearing? <==> |s.emitted| == |AllChunks(LastSession(s).written, size)|)
  }

  ghost predicate RunningOk(s: State, size: nat)
    requires size > 0 && s.sessions != []
  {
    && !s.labeler.Clearing?
    && (if s.mu.MarkProfiling? then s.profilerOn && !s.ifProfiling && AllDone(s.monitors)
        else s.monitors != [] && MonitorOk(s, s.monitors[|s.monitors| - 1]))
    && (if s.writer.Flushed? then LastSession(s).written == [] && SessionRaws(s) == []
        else
          && SessionRaws(s) + FullChunks(s.buf, size) == FullChunks(LastSession(s).written, size)
          && Tail(s.buf, size) == Tail(LastSession(s).written, size)
          && (s.writer.Unlocked? ==> |s.buf| < size))
  }

  ghost predicate MonitorOk(s: State, m: Monitor) {
    match m
    case Waiting => s.profilerOn && s.ifProfiling
    case StoppedProfile => !s.profilerOn && s.ifProfiling && !s.writer.Writing?
    case FlagCleared => !s.profilerOn && !s.ifProfiling && !s.writer.Writing?
    case Done => false
  }

  ghost predicate Inv(s: State, size: nat)
    requires size > 0
  {
    FlagsOk(s) && RestOk(s, size) && SessionOk(s, size)
  }

  lemma RulesMean(s: State)
    ensures Rule(s, EM.CouldProfileRules()) <==> !s.ifProfiling && s.curTaskExist
    ensures Rule(s, EM.CouldSetCurTaskRules()) <==> !s.ifProfiling && !s.curTaskExist
  {
    EM.ProfileRulesMean(Flags(s));
  }

  lemma KeepFlags(s: State, step: Step, size: nat)
    requires size > 0 && Inv(s, size) && Enabled(s, step, size)
    ensures FlagsOk(Do(s, step, size))
  {
    if step.TimerSets? || step.TimerStarts? { RulesMean(s); }
  }

  lemma KeepRest(s: State, step: Step, size: nat)
    requires size > 0 && FlagsOk(s) && RestOk(s, size) && Enabled(s, step, size) && !step.Clear?
    ensures RestOk(Do(s, step, size), size)
  {
    if step.TimerSets? || step.TimerStarts? { RulesMean(s); }
  }

  lemma KeepClear(s: State, s': State, size: nat)
    requires size > 0 && FlagsOk(s) && RestOk(s, size) && SessionOk(s, size) && s.labeler.Clearing?
    requires s' == s.(currentTask := None, curTaskExist := false, labeler := Idle, started := false, emitted := [])
    ensures RestOk(s', size)
  {
    AllEmitted(s, size);
  }

  /** When the labeler is about to clear the task, the whole block is out. */
  lemma AllEmitted(s: State, size: nat)
    requires size > 0 && FlagsOk(s) && RestOk(s, size) && SessionOk(s, size) && s.labeler.Clearing?
    ensures s.started && LastSession(s).flushed && s.rawQueue == [] && s.emitted == AllChunks(LastSession(s).written, size)
    ensures s.results == Expected(s.sessions, size) && forall i :: 0 <= i < |s.sessions| ==> s.sessions[i].flushed
  {
    assert |SessionRaws(s)| == |s.emitted| + |s.rawQueue|;
    assert s.rawQueue == [];
    assert SessionRaws(s) == s.emitted;
  }

  /** A session starts with nothing written, sent or labelled. */
  lemma KeepStart(s: State, step: Step, size: nat)
    requires size > 0 && Inv(s, size) && Enabled(s, step, size) && step.TimerStarts?
    ensures SessionOk(Do(s, step, size), size)
  {
    RulesMean(s);
    var s' := Do(s, step, size);
    if s'.started {
      assert s'.sessions[..|s'.sessions| - 1] == s.sessions;
      assert SessionRaws(s') == [];
    }
  }

  lemma KeepProfiling(s: State, size: nat)
    requires size > 0 && Inv(s, size) && Enabled(s, TimerMarksProfiling, size)
    ensures SessionOk(Do(s, TimerMarksProfiling, size), size)
  {
    assert SessionRaws(Do(s, TimerMarksProfiling, size)) == SessionRaws(s);
  }

  /** A session does not see the timer's own bookkeeping. */
  lemma SessionFrame(s: State, s': State, size: nat)
    requires size > 0 && s.started && SessionOk(s, size)
    requires s'.mu.MarkProfiling? == s.mu.MarkProfiling?
    requires s' == s.(mu := s'.mu, taskInstalled := s'.taskInstalled, curTaskExist := s'.curTaskExist)
    ensures SessionOk(s', size)
  {
    Assemble(s, s', size);
    assert SessionRaws(s') == SessionRaws(s);
  }

  /** The timer never gets past its checks while a session is in progress. */
  lemma KeepTimer(s: State, step: Step, size: nat)
    requires size > 0 && Inv(s, size) && Enabled(s, step, size)
    requires step.TimerFires? || step.TimerSets? || step.TimerMarksTask? || step.TaskRemoved?
    ensures SessionOk(Do(s, step, size), size)
  {
    RulesMean(s);
    if s.started { SessionFrame(s, Do(s, step, size), size); }
  }

  /** What a step of the writer, a monitor or the labeler leaves alone in a session. */
  ghost predicate SameSession(s: State, s': State) {
    && s.started && s'.started && s.sessions != [] && |s'.sessions| == |s.sessions|
    && s'.sessions[..|s'.sessions| - 1] == s.sessions[..|s.sessions| - 1]
    && LastSession(s').task == LastSession(s).task
    && s'.currentTask == s.currentTask && s'.results == s.results && s'.emitted == s.emitted
    && (s'.labeler.Read? ==> s'.labeler.task == s'.currentTask)
    && OthersDone(s'.monitors)
  }

  lemma Assemble(s: State, s': State, size: nat)
    requires size > 0 && s.sessions != [] && HeadOk(s, size) && SameSession(s, s')
    ensures HeadOk(s', size)
  {
    assert forall i :: 0 <= i < |s.sessions| - 1 ==> s'.sessions[i] == s'.sessions[..|s'.sessions| - 1][i];
    assert forall i :: 0 <= i < |s.sessions| - 1 ==> s.sessions[i] == s.sessions[..|s.sessions| - 1][i];
  }

  lemma BeginWriteRuns(s: State, s': State, p: Bytes, size: nat)
    requires size > 0 && s.sessions != [] && RunningOk(s, size) && s.writer.Unlocked? && s.profilerOn
    requires s' == s.(buf := s.buf + p, writer := Writing,
                      sessions := WithLast(s, LastSession(s).(written := LastSession(s).written + p)))
    ensures RunningOk(s', size)
  {
    assert SessionRaws(s') == SessionRaws(s);
    MoreWritten(SessionRaws(s), s.buf, LastSession(s).written, p, size);
  }

  lemma MoreWritten(raws: seq<Raw>, buf: Bytes, written: Bytes, p: Bytes, size: nat)
    requires size > 0 && raws + FullChunks(buf, size) == FullChunks(written, size) && Tail(buf, size) == Tail(written, size)
    ensures raws + FullChunks(buf + p, size) == FullChunks(written + p, size)
    ensures Tail(buf + p, size) == Tail(written + p, size)
  {
    ChunksOfConcat(buf, p, size);
    ChunksOfConcat(written, p, size);
    var more := FullChunks(Tail(buf, size) + p, size);
    assert raws + (FullChunks(buf, size) + more) == raws + FullChunks(buf, size) + more;
  }

  lemma SendChunkRuns(s: State, s': State, size: nat)
    requires size > 0 && s.sessions != [] && RunningOk(s, size) && s.writer.Writing? && |s.buf| >= size
    requires s' == s.(buf := s.buf[size..], rawQueue := s.rawQueue + [Raw(s.buf[..size], false)])
    ensures RunningOk(s', size)
  {
    assert SessionRaws(s') == SessionRaws(s) + [Raw(s.buf[..size], false)];
    OneChunkSent(SessionRaws(s), s.buf, LastSession(s).written, size);
  }

  lemma OneChunkSent(raws: seq<Raw>, buf: Bytes, written: Bytes, size: nat)
    requires size > 0 && |buf| >= size
    requires raws + FullChunks(buf, size) == FullChunks(written, size) && Tail(buf, size) == Tail(written, size)
    ensures raws + [Raw(buf[..size], false)] + FullChunks(buf[size..], size) == FullChunks(written, size)
    ensures Tail(buf[size..], size) == Tail(written, size)
  {
    var chunk, rest := Raw(buf[..size], false), FullChunks(buf[size..], size);
    assert raws + [chunk] + rest == raws + ([chunk] + rest);
  }

  /** While a write is under way, its session is not flushed. */
  lemma WriterIsRunning(s: State, size: nat)
    requires size > 0 && s.started && SessionOk(s, size) && (s.profilerOn || s.writer.Writing?)
    ensures s.sessions != [] && !LastSession(s).flushed && RunningOk(s, size)
  {
  }

  lemma EndWriteRuns(s: State, s': State, size: nat)
    requires size > 0 && s.sessions != [] && RunningOk(s, size) && s.writer.Writing? && |s.buf| < size
    requires s' == s.(writer := Unlocked)
    ensures RunningOk(s', size)
  {
    assert SessionRaws(s') == SessionRaws(s);
  }

  /** A running session goes on: what it is, and where its bytes are. */
  lemma GoesOn(s: State, s': State, size: nat)
    requires size > 0 && s.started && SessionOk(s, size) && SameSession(s, s')
    requires !LastSession(s').flushed && RunningOk(s', size)
    ensures SessionOk(s', size)
  {
    Assemble(s, s', size);
  }

  /** A write extends the session it belongs to, and no other. */
  lemma KeepBeginWrite(s: State, s': State, p: Bytes, size: nat)
    requires size > 0 && s.started && SessionOk(s, size) && s.writer.Unlocked? && s.profilerOn && s.sessions != []
    requires s' == s.(buf := s.buf + p, writer := Writing,
                      sessions := WithLast(s, LastSession(s).(written := LastSession(s).written + p)))
    ensures SessionOk(s', size)
  {
    WriterIsRunning(s, size);
    BeginWriteRuns(s, s', p, size);
    GoesOn(s, s', size);
  }

  lemma KeepEndWrite(s: State, s': State, size: nat)
    requires size > 0 && s.started && SessionOk(s, size) && s.writer.Writing? && |s.buf| < size
    requires s' == s.(writer := Unlocked)
    ensures SessionOk(s', size)
  {
    WriterIsRunning(s, size);
    EndWriteRuns(s, s', size);
    GoesOn(s, s', size);
  }

  /** Resetting a buffer whose content was flushed loses no byte of the next session. */
  lemma ResetRuns(s: State, s': State, size: nat)
    requires size > 0 && s.sessions != [] && RunningOk(s, size) && s.writer.Flushed? && s' == s.(buf := [], writer := Unlocked)
    ensures RunningOk(s', size)
  {
    assert SessionRaws(s') == SessionRaws(s);
    assert SessionRaws(s') + FullChunks([], size) == [];
  }

  lemma ResetRests(s: State, s': State, size: nat)
    requires size > 0 && s.sessions != [] && FlushedOk(s, size) && s' == s.(buf := [], writer := Unlocked)
    ensures FlushedOk(s', size)
  {
    assert SessionRaws(s') == SessionRaws(s);
  }

  lemma StoppedRuns(s: State, s': State, i: nat, m: Monitor, size: nat)
    requires size > 0 && s.sessions != [] && RunningOk(s, size) && i == |s.monitors| - 1 && !s.monitors[i].Done? && !s.writer.Writing?
    requires s' == s.(profilerOn := false, ifProfiling := s'.ifProfiling, monitors := s.monitors[i := m])
    requires (m.StoppedProfile? && s'.ifProfiling) || (m.FlagCleared? && !s'.ifProfiling)
    ensures RunningOk(s', size)
  {
    assert SessionRaws(s') == SessionRaws(s);
  }

  /** The monitor stops the profiler, then clears the flag. */
  lemma KeepMonitor(s: State, s': State, i: nat, m: Monitor, size: nat)
    requires size > 0 && s.started && SessionOk(s, size) && i < |s.monitors| && !s.monitors[i].Done? && !s.writer.Writing?
    requires s' == s.(profilerOn := false, ifProfiling := s'.ifProfiling, monitors := s.monitors[i := m])
    requires (m.StoppedProfile? && s'.ifProfiling) || (m.FlagCleared? && !s'.ifProfiling)
    ensures SessionOk(s', size)
  {
    MonitorIsLast(s, i, size);
    StoppedRuns(s, s', i, m, size);
    GoesOn(s, s', size);
  }

  lemma KeepReset(s: State, s': State, size: nat)
    requires size > 0 && s.started && SessionOk(s, size) && s.writer.Flushed? && s' == s.(buf := [], writer := Unlocked)
    ensures SessionOk(s', size)
  {
    Assemble(s, s', size);
    if LastSession(s).flushed { ResetRests(s, s', size); } else { ResetRuns(s, s', size); }
  }

  /** A monitor at work is the one of the session in progress, and leaves the profiler off behind it. */
  lemma MonitorStep(s: State, i: nat, size: nat)
    requires size > 0 && SessionOk(s, size) && RestOk(s, size) && i < |s.monitors| && !s.monitors[i].Done?
    ensures s.started && (s.monitors[i].StoppedProfile? ==> !s.profilerOn && !s.writer.Writing?)
    ensures s.monitors[i].Waiting? ==> s.ifProfiling
  {
    if s.started { MonitorIsLast(s, i, size); }
  }

  lemma MonitorIsLast(s: State, i: nat, size: nat)
    requires size > 0 && s.started && SessionOk(s, size) && i < |s.monitors| && !s.monitors[i].Done?
    ensures i == |s.monitors| - 1 && !LastSession(s).flushed && MonitorOk(s, s.monitors[i]) && RunningOk(s, size)
  {
  }

  lemma FlushRests(s: State, s': State, i: nat, size: nat)
    requires size > 0 && s.sessions != [] && RunningOk(s, size) && s.writer.Unlocked? && OthersDone(s.monitors)
    requires i == |s.monitors| - 1 && s.monitors[i].FlagCleared? && MonitorOk(s, s.monitors[i])
    requires s' == s.(rawQueue := s.rawQueue + [Raw(s.buf, true)], writer := Flushed, monitors := s.monitors[i := Done],
                      sessions := WithLast(s, LastSession(s).(flushed := true)))
    ensures FlushedOk(s', size)
  {
    assert SessionRaws(s) + FullChunks(s.buf, size) == SessionRaws(s);
    assert SessionRaws(s') == SessionRaws(s) + [Raw(s.buf, true)];
    assert |s.emitted| <= |SessionRaws(s)|;
  }

  lemma KeepFlush(s: State, step: Step, size: nat)
    requires size > 0 && Inv(s, size) && Enabled(s, step, size) && step.FlushSend?
    ensures SessionOk(Do(s, step, size), size)
  {
    if s.started {
      MonitorIsLast(s, step.i, size);
      FlushRests(s, Do(s, step, size), step.i, size);
      Assemble(s, Do(s, step, size), size);
    }
  }

  /** Moving a chunk from the queue to the labeler's hands, or reading its task, keeps the order of the chunks. */
  lemma LabelerBody(s: State, s': State, size: nat)
    requires size > 0 && s.sessions != [] && !s.labeler.Clearing? && !s'.labeler.Clearing?
    requires s' == s.(labeler := s'.labeler, rawQueue := s'.rawQueue) && SessionRaws(s') == SessionRaws(s)
    ensures RunningOk(s, size) ==> RunningOk(s', size)
    ensures FlushedOk(s, size) ==> FlushedOk(s', size)
  {
  }

  lemma KeepLabeler(s: State, s': State, size: nat)
    requires size > 0 && s.started && SessionOk(s, size) && !s.labeler.Clearing? && !s'.labeler.Clearing?
    requires s' == s.(labeler := s'.labeler, rawQueue := s'.rawQueue) && SessionRaws(s') == SessionRaws(s)
    requires s'.labeler.Read? ==> s'.labeler.task == s.currentTask
    ensures SessionOk(s', size)
  {
    LabelerBody(s, s', size);
    Assemble(s, s', size);
  }

  lemma RawsMove(s: State, s': State)
    requires s.labeler.Idle? && s.rawQueue != [] && s'.emitted == s.emitted
    requires s'.labeler == Got(s.rawQueue[0]) && s'.rawQueue == s.rawQueue[1..]
    ensures SessionRaws(s') == SessionRaws(s)
  {
  }

  lemma KeepReceive(s: State, s': State, size: nat)
    requires size > 0 && s.started && SessionOk(s, size) && s.labeler.Idle? && s.rawQueue != []
    requires s' == s.(labeler := Got(s.rawQueue[0]), rawQueue := s.rawQueue[1..])
    ensures SessionOk(s', size)
  {
    RawsMove(s, s');
    KeepLabeler(s, s', size);
  }

  lemma KeepReadTask(s: State, s': State, size: nat)
    requires size > 0 && s.started && SessionOk(s, size) && s.labeler.Got?
    requires s' == s.(labeler := Read(s.labeler.raw, s.currentTask))
    ensures SessionOk(s', size)
  {
    assert SessionRaws(s') == SessionRaws(s);
    KeepLabeler(s, s', size);
  }

  lemma KeepEmit(s: State, s': State, size: nat)
    requires size > 0 && s.started && SessionOk(s, size) && s.labeler.Read? && s.labeler.task == s.currentTask && s.currentTask.Some?
    requires var raw := s.labeler.raw;
             s' == s.(results := s.results + [Result(s.currentTask.value, raw.data, raw.isLast)],
                      emitted := s.emitted + [raw], labeler := if raw.isLast then Clearing else Idle)
    ensures SessionOk(s', size)
  {
    var raw := s.labeler.raw;
    LastChunkOnly(s, raw, size);
    EmitHead(s, s', raw, size);
    EmitBody(s, s', raw, size);
  }

  /** The labeler never meets "no task" in a session. */
  lemma HasTask(s: State, size: nat)
    requires size > 0 && s.started && SessionOk(s, size) && s.labeler.Read?
    ensures s.labeler.task == s.currentTask && s.currentTask.Some?
  {
  }

  lemma EmitHead(s: State, s': State, raw: Raw, size: nat)
    requires size > 0 && s.sessions != [] && HeadOk(s, size)
    requires s' == s.(results := s.results + [Result(s.currentTask.value, raw.data, raw.isLast)],
                      emitted := s.emitted + [raw], labeler := if raw.isLast then Clearing else Idle)
    ensures HeadOk(s', size)
  {
    var task, done := LastSession(s).task, Expected(s.sessions[..|s.sessions| - 1], size);
    var result := Result(task, raw.data, raw.isLast);
    assert s'.emitted[..|s'.emitted| - 1] == s.emitted;
    assert done + (Label(task, s.emitted) + [result]) == done + Label(task, s.emitted) + [result];
  }

  lemma EmitBody(s: State, s': State, raw: Raw, size: nat)
    requires size > 0 && s.sessions != [] && s.labeler.Read? && s.labeler.raw == raw && SessionRaws(s) != []
    requires s' == s.(results := s'.results, emitted := s.emitted + [raw], labeler := if raw.isLast then Clearing else Idle)
    requires raw.isLast <==> LastSession(s).flushed && |s.emitted| + 1 == |AllChunks(LastSession(s).written, size)|
    ensures RunningOk(s, size) && !LastSession(s).flushed ==> RunningOk(s', size)
    ensures FlushedOk(s, size) && LastSession(s).flushed ==> FlushedOk(s', size)
  {
    assert SessionRaws(s') == SessionRaws(s);
  }

  lemma LastChunkOnly(s: State, raw: Raw, size: nat)
    requires size > 0 && s.started && SessionOk(s, size) && s.labeler == Read(raw, s.currentTask)
    ensures raw.isLast <==> LastSession(s).flushed && |s.emitted| + 1 == |AllChunks(LastSession(s).written, size)|
    ensures SessionRaws(s) != []
  {
    var written := LastSession(s).written;
    assert SessionRaws(s)[|s.emitted|] == raw;
    ChunksAreFull(written, size);
    AllChunksConserve(written, size);
    if !LastSession(s).flushed {
      assert raw == FullChunks(written, size)[|s.emitted|];
    }
  }

  lemma InvKept(s: State, step: Step, size: nat)
    requires size > 0 && Inv(s, size) && Enabled(s, step, size)
    ensures Inv(Do(s, step, size), size)
  {
    KeepFlags(s, step, size);
    if step.Clear? { KeepClear(s, Do(s, step, size), size); } else { KeepRest(s, step, size); }
    KeepSession(s, step, size);
  }

  lemma KeepSession(s: State, step: Step, size: nat)
    requires size > 0 && Inv(s, size) && Enabled(s, step, size)
    ensures SessionOk(Do(s, step, size), size)
  {
    match step
    case TimerFires(_, _) => KeepTimer(s, step, size);
    case TimerSets => KeepTimer(s, step, size);
    case TimerMarksTask => KeepTimer(s, step, size);
    case TaskRemoved => KeepTimer(s, step, size);
    case TimerStarts(_) => KeepStart(s, step, size);
    case TimerMarksProfiling => KeepProfiling(s, size);
    case BeginWrite(_) => if s.started { KeepBeginWrite(s, Do(s, step, size), step.p, size); }
    case SendChunk =>
      if s.started {
        WriterIsRunning(s, size);
        SendChunkRuns(s, Do(s, step, size), size);
        GoesOn(s, Do(s, step, size), size);
      }
    case EndWrite => if s.started { KeepEndWrite(s, Do(s, step, size), size); }
    case StopProfile(i) =>
      MonitorStep(s, i, size);
      KeepMonitor(s, Do(s, step, size), i, StoppedProfile, size);
    case ClearFlag(i) =>
      MonitorStep(s, i, size);
      KeepMonitor(s, Do(s, step, size), i, FlagCleared, size);
    case FlushReset => if s.started { KeepReset(s, Do(s, step, size), size); }
    case FlushSend(_) => KeepFlush(s, step, size);
    case Receive => if s.started { KeepReceive(s, Do(s, step, size), size); }
    case ReadTask => if s.started { KeepReadTask(s, Do(s, step, size), size); }
    case Clear =>
    case Emit =>
      if s.started {
        HasTask(s, size);
        KeepEmit(s, Do(s, step, size), size);
      }
  }

  lemma StepOf(s: State, s': State, size: nat) returns (step: Step)
    requires size > 0 && Steps(s, s', size)
    ensures Enabled(s, step, size) && s' == Do(s, step, size)
  {
    step :| Enabled(s, step, size) && s' == Do(s, step, size);
  }

  lemma InitInv(size: nat)
    requires size > 0
    ensures Inv(Init, size)
  {
  }

  lemma {:induction false} ReachableInv(run: seq<State>, i: nat, size: nat)
    requires size > 0 && IsRun(run, size) && i < |run|
    ensures Inv(run[i], size)
  {
    if i == 0 {
      InitInv(size);
    } else {
      ReachableInv(run, i - 1, size);
      assert Moves(run, i - 1, size);
      var step := StepOf(run[i - 1], run[i], size);
      InvKept(run[i - 1], step, size);
    }
  }

  // ---------------------------------------------------------------- the theorems

  /**
   At every moment the results are the complete, correctly labelled blocks of all sessions but
   the last, followed by a beginning of the block of the last one. No chunk met "no task".
   */
  lemma ResultsAreAttributed(run: seq<State>, i: nat, size: nat)
    requires size > 0 && IsRun(run, size) && i < |run|
    ensures var s := run[i];
            && s.ignored == 0
            && (s.sessions == [] ==> s.results == [])
            && (s.sessions != [] ==>
                  var done := Expected(s.sessions[..|s.sessions| - 1], size);
                  done <= s.results <= done + Label(LastSession(s).task, AllChunks(LastSession(s).written, size)))
  {
    ReachableInv(run, i, size);
    if run[i].sessions != [] { if run[i].started { DuringSession(run[i], size); } else { BetweenSessions(run[i], size); } }
  }

  lemma DuringSession(s: State, size: nat)
    requires size > 0 && s.started && SessionOk(s, size)
    ensures var done := Expected(s.sessions[..|s.sessions| - 1], size);
            done <= s.results <= done + Label(LastSession(s).task, AllChunks(LastSession(s).written, size))
  {
    EmittedIsABeginning(s, size);
    LabelPrefix(LastSession(s).task, s.emitted, AllChunks(LastSession(s).written, size));
  }

  lemma BetweenSessions(s: State, size: nat)
    requires size > 0 && !s.started && RestOk(s, size) && s.sessions != []
    ensures s.results == Expected(s.sessions[..|s.sessions| - 1], size) + Label(LastSession(s).task, AllChunks(LastSession(s).written, size))
  {
  }

  lemma EmittedIsABeginning(s: State, size: nat)
    requires size > 0 && s.started && SessionOk(s, size)
    ensures s.emitted <= AllChunks(LastSession(s).written, size)
  {
    var full := FullChunks(LastSession(s).written, size);
    assert s.emitted <= SessionRaws(s);
    if !LastSession(s).flushed && !s.writer.Flushed? {
      assert SessionRaws(s) <= full <= AllChunks(LastSession(s).written, size);
    }
  }

  lemma {:induction false} LabelPrefix(task: TaskID, a: seq<Raw>, b: seq<Raw>)
    requires a <= b
    ensures Label(task, a) <= Label(task, b)
    decreases |b|
  {
    if |a| < |b| {
      LabelPrefix(task, a, b[..|b| - 1]);
    } else {
      assert a == b;
    }
  }

  /** When no session is in progress, the results are exactly the blocks of all sessions. */
  lemma FinishedSessionsAreComplete(run: seq<State>, i: nat, size: nat)
    requires size > 0 && IsRun(run, size) && i < |run| && run[i].currentTask.None?
    ensures run[i].results == Expected(run[i].sessions, size)
    ensures forall k :: 0 <= k < |run[i].sessions| ==> run[i].sessions[k].flushed
  {
    ReachableInv(run, i, size);
  }

  function PayloadOf(results: seq<Result>): Bytes {
    if results == [] then [] else PayloadOf(results[..|results| - 1]) + results[|results| - 1].payload
  }

  /** A block carries one task id, ends in its only isLast, and its payloads add up to what was written. */
  lemma BlockIsOneProfile(x: Session, size: nat)
    requires size > 0
    ensures var block := Label(x.task, AllChunks(x.written, size));
            && |block| > 0
            && (forall i :: 0 <= i < |block| ==> block[i].taskID == x.task && (block[i].isLast <==> i == |block| - 1))
            && PayloadOf(block) == x.written
  {
    var all := AllChunks(x.written, size);
    AllChunksConserve(x.written, size);
    LabelLength(x.task, all);
    forall i | 0 <= i < |all| ensures Label(x.task, all)[i] == Result(x.task, all[i].data, all[i].isLast) {
      LabelAt(x.task, all, i);
    }
    LabelPayload(x.task, all);
  }

  lemma {:induction false} LabelLength(task: TaskID, raws: seq<Raw>)
    ensures |Label(task, raws)| == |raws|
  {
    if raws != [] { LabelLength(task, raws[..|raws| - 1]); }
  }

  lemma {:induction false} LabelAt(task: TaskID, raws: seq<Raw>, i: nat)
    requires i < |raws|
    ensures |Label(task, raws)| == |raws| && Label(task, raws)[i] == Result(task, raws[i].data, raws[i].isLast)
  {
    var n := |raws| - 1;
    LabelLength(task, raws[..n]);
    if i < n { LabelAt(task, raws[..n], i); }
  }

  lemma PayloadOfAppend(results: seq<Result>, r: Result)
    ensures PayloadOf(results + [r]) == PayloadOf(results) + r.payload
  {
    assert (results + [r])[..|results|] == results;
  }

  lemma {:induction false} LabelPayload(task: TaskID, raws: seq<Raw>)
    ensures PayloadOf(Label(task, raws)) == Payload(raws)
  {
    if raws != [] {
      var init, last := raws[..|raws| - 1], raws[|raws| - 1];
      LabelPayload(task, init);
      PayloadAppend(init, last);
      PayloadOfAppend(Label(task, init), Result(task, last.data, last.isLast));
      assert raws == init + [last];
    }
  }

  /** The flags guard as intended: profiling implies a current task, and the flag tells whether there is one. */
  lemma FlagsMean(run: seq<State>, i: nat, size: nat)
    requires size > 0 && IsRun(run, size) && i < |run|
    ensures run[i].ifProfiling ==> run[i].curTaskExist
    ensures run[i].mu.Free? ==> (run[i].curTaskExist <==> run[i].currentTask.Some?)
    ensures run[i].profilerOn ==> run[i].currentTask.Some? && run[i].sessions != [] && run[i].currentTask.value == LastSession(run[i]).task
  {
    ReachableInv(run, i, size);
  }

  // ------------------------------------------------------------ what can still happen

  /** A continuation of a run. */
  ghost predicate IsPath(path: seq<State>, s: State, size: nat)
    requires size > 0
  {
    && |path| > 0 && path[0] == s
    && forall i :: 0 <= i < |path| - 1 ==> Moves(path, i, size)
  }

  function Last(path: seq<State>): State
    requires |path| > 0
  {
    path[|path| - 1]
  }

  /** Some continuation starts another profile. */
  ghost predicate CanProfileAgain(s: State, size: nat)
    requires size > 0
  {
    exists path :: IsPath(path, s, size) && |Last(path).sessions| > |s.sessions|
  }

  lemma Prepend(s: State, step: Step, rest: seq<State>, size: nat)
    requires size > 0 && Enabled(s, step, size) && IsPath(rest, Do(s, step, size), size)
    ensures IsPath([s] + rest, s, size) && Last([s] + rest) == Last(rest)
  {
    var path := [s] + rest;
    assert Steps(s, rest[0], size);
    forall i | 0 <= i < |path| - 1 ensures Moves(path, i, size) {
      if i > 0 { assert Moves(rest, i - 1, size); }
    }
  }

  /** Two continuations in a row. */
  lemma {:induction false} Join(first: seq<State>, s: State, second: seq<State>, size: nat)
    requires size > 0 && IsPath(first, s, size) && IsPath(second, Last(first), size)
    ensures IsPath(first[..|first| - 1] + second, s, size) && Last(first[..|first| - 1] + second) == Last(second)
  {
    var n := |first| - 1;
    var path := first[..n] + second;
    forall i | 0 <= i < |path| - 1 ensures Moves(path, i, size) {
      if i < n {
        assert Moves(first, i, size);
      } else {
        assert Moves(second, i - n, size);
      }
    }
  }

  // ------------------------------------------------- every session can be finished

  function MutexWork(mu: Mutex): nat {
    match mu
    case MarkProfiling(_) => 13
    case CheckSet(_) => 1
    case _ => 0
  }

  function MonitorWork(ms: seq<Monitor>): nat {
    if ms == [] then 0
    else
      match ms[|ms| - 1]
      case Waiting => 12
      case StoppedProfile => 11
      case FlagCleared => 10
      case Done => 0
  }

  function LabelerWork(l: Labeler): nat {
    match l
    case Idle => 0
    case Got(_) => 3
    case Read(_, _) => 2
    case Clearing => 1
  }

  /** What is left to do in a session; no chunk is ahead of another. */
  function Work(s: State): nat {
    MutexWork(s.mu) + MonitorWork(s.monitors) + 5 * |s.buf| + (if s.writer.Unlocked? then 0 else 1)
    + 4 * |s.rawQueue| + LabelerWork(s.labeler)
  }

  /** The next step of the lock, the labeler, the writer or the monitor, in this order. */
  function Next(s: State, size: nat): Step {
    if s.mu.MarkProfiling? then TimerMarksProfiling
    else if s.mu.CheckSet? then TimerSets
    else if s.labeler.Got? then ReadTask
    else if s.labeler.Read? then Emit
    else if s.labeler.Clearing? then Clear
    else if s.rawQueue != [] then Receive
    else if s.writer.Writing? then if |s.buf| >= size then SendChunk else EndWrite
    else if s.writer.Flushed? then FlushReset
    else
      var i: nat := if s.monitors == [] then 0 else |s.monitors| - 1;
      if MonitorAt(s, i, Waiting) then StopProfile(i)
      else if MonitorAt(s, i, StoppedProfile) then ClearFlag(i)
      else FlushSend(i)
  }

  /** While a session is in progress there is always such a step, and it brings the end nearer. */
  lemma NextIsEnabled(s: State, size: nat)
    requires size > 0 && Inv(s, size) && s.started
    ensures Enabled(s, Next(s, size), size)
  {
    if s.mu.Free? && s.labeler.Idle? && s.rawQueue == [] && s.writer.Unlocked? { MonitorIsDue(s, size); }
  }

  /** When everything else is at rest, it is the monitor's turn. */
  lemma MonitorIsDue(s: State, size: nat)
    requires size > 0 && s.started && SessionOk(s, size)
    requires s.mu.Free? && s.labeler.Idle? && s.rawQueue == [] && s.writer.Unlocked?
    ensures s.sessions != [] && s.monitors != [] && !s.monitors[|s.monitors| - 1].Done?
  {
    assert SessionRaws(s) == s.emitted;
  }

  lemma LabelerAlone(s: State, s': State)
    requires s'.mu == s.mu && s'.monitors == s.monitors && s'.buf == s.buf && s'.writer == s.writer && s'.rawQueue == s.rawQueue
    requires LabelerWork(s'.labeler) < LabelerWork(s.labeler)
    ensures Work(s') < Work(s)
  {
  }

  lemma LabelerStepGetsNearer(s: State, step: Step, size: nat)
    requires size > 0 && Enabled(s, step, size) && (step.ReadTask? || step.Receive?)
    ensures var s' := Do(s, step, size);
            s'.started == s.started && |s'.sessions| == |s.sessions| && Work(s') < Work(s)
  {
  }

  lemma WriterStepGetsNearer(s: State, step: Step, size: nat)
    requires size > 0 && Enabled(s, step, size) && (step.SendChunk? || step.EndWrite? || step.FlushReset?)
    ensures var s' := Do(s, step, size);
            s'.started == s.started && |s'.sessions| == |s.sessions| && Work(s') < Work(s)
  {
  }

  lemma MonitorStepGetsNearer(s: State, step: Step, size: nat)
    requires size > 0 && Enabled(s, step, size)
    requires match step
             case StopProfile(i) => i == |s.monitors| - 1
             case ClearFlag(i) => i == |s.monitors| - 1
             case FlushSend(i) => i == |s.monitors| - 1
             case _ => false
    ensures var s' := Do(s, step, size);
            s'.started == s.started && |s'.sessions| == |s.sessions| && Work(s') < Work(s)
  {
  }

  lemma NextGetsNearer(s: State, size: nat)
    requires size > 0 && Inv(s, size) && s.started && Enabled(s, Next(s, size), size)
    ensures var s' := Do(s, Next(s, size), size);
            && |s'.sessions| == |s.sessions|
            && (if s'.started then Work(s') < Work(s) else s'.mu.Free? && s'.currentTask.None?)
  {
    var step := Next(s, size);
    match step
    case TimerMarksProfiling => assert RunningOk(s, size);
    case TimerSets => RulesMean(s);
    case Clear =>
    case StopProfile(_) => MonitorStepGetsNearer(s, step, size);
    case ClearFlag(_) => MonitorStepGetsNearer(s, step, size);
    case FlushSend(_) => MonitorStepGetsNearer(s, step, size);
    case SendChunk => WriterStepGetsNearer(s, step, size);
    case EndWrite => WriterStepGetsNearer(s, step, size);
    case FlushReset => WriterStepGetsNearer(s, step, size);
    case Emit => LabelerAlone(s, Do(s, step, size));
    case _ => LabelerStepGetsNearer(s, step, size);
  }

  lemma {:induction false} FinishSession(s: State, size: nat) returns (path: seq<State>)
    requires size > 0 && Inv(s, size) && s.started
    ensures IsPath(path, s, size) && Inv(Last(path), size) && |Last(path).sessions| == |s.sessions|
    ensures Last(path).mu.Free? && Last(path).currentTask.None?
    decreases Work(s)
  {
    NextIsEnabled(s, size);
    NextGetsNearer(s, size);
    InvKept(s, Next(s, size), size);
    var s' := Do(s, Next(s, size), size);
    var rest := [s'];
    if s'.started { rest := FinishSession(s', size); }
    Prepend(s, Next(s, size), rest, size);
    path := [s] + rest;
  }

  /** No reachable state is a dead end for its session: some continuation delivers its whole block and clears the task. */
  lemma SessionCanFinish(run: seq<State>, i: nat, size: nat) returns (path: seq<State>)
    requires size > 0 && IsRun(run, size) && i < |run| && run[i].started
    ensures IsPath(path, run[i], size) && |Last(path).sessions| == |run[i].sessions| && Last(path).currentTask.None?
    ensures Last(path).results == Expected(Last(path).sessions, size)
  {
    ReachableInv(run, i, size);
    path := FinishSession(run[i], size);
  }

  // ----------------------------------------------------- when a profile can start again

  /** A task is current, but its profile neither runs nor is about to start. */
  ghost predicate Blocked(s: State) {
    s.currentTask.Some? && !s.started && (s.mu.Free? || s.mu.CheckSet?)
  }

  /** From a state between sessions that is not blocked, the timer can start a profile. */
  lemma {:induction false} StartProfile(s: State, size: nat) returns (path: seq<State>)
    requires size > 0 && Inv(s, size) && !s.started && !Blocked(s)
    ensures IsPath(path, s, size) && |Last(path).sessions| > |s.sessions|
    decreases match s.mu case Free => 4 case CheckSet(_) => 2 case MarkTask(_) => 1 case _ => 0, s.taskInstalled
  {
    RulesMean(s);
    var step :=
      match s.mu
      case Free => if s.taskInstalled then TaskRemoved else TimerFires("", false)
      case CheckSet(_) => TimerSets
      case MarkTask(_) => TimerMarksTask
      case _ => TimerStarts(true);
    InvKept(s, step, size);
    var s' := Do(s, step, size);
    var rest := [s'];
    if !s'.started { rest := StartProfile(s', size); }
    Prepend(s, step, rest, size);
    path := [s] + rest;
  }

  /** The end time of the current task does not help: a blocked pipeline stays as it is. */
  lemma {:induction false} BlockedStays(path: seq<State>, s: State, j: nat, size: nat)
    requires size > 0 && Inv(s, size) && Blocked(s) && IsPath(path, s, size) && j < |path|
    ensures Inv(path[j], size) && Blocked(path[j]) && path[j].currentTask == s.currentTask
    ensures path[j].sessions == s.sessions && path[j].results == s.results
  {
    if j > 0 {
      BlockedStays(path, s, j - 1, size);
      assert Moves(path, j - 1, size);
      var step := StepOf(path[j - 1], path[j], size);
      BlockedStep(path[j - 1], step, size);
      InvKept(path[j - 1], step, size);
    }
  }

  lemma BlockedStep(s: State, step: Step, size: nat)
    requires size > 0 && FlagsOk(s) && RestOk(s, size) && Blocked(s) && Enabled(s, step, size)
    ensures var s' := Do(s, step, size);
            Blocked(s') && s'.currentTask == s.currentTask && s'.sessions == s.sessions && s'.results == s.results
  {
    BlockedSteps(s, step, size);
    RulesMean(s);
  }

  /** With a task but no session, only the timer, a removal and the end of a flush can happen. */
  lemma BlockedSteps(s: State, step: Step, size: nat)
    requires size > 0 && RestOk(s, size) && Blocked(s) && Enabled(s, step, size)
    ensures step.TimerFires? || step.TimerSets? || step.TaskRemoved? || step.FlushReset?
  {
  }

  /** From a reachable state another profile can start exactly if the pipeline is not blocked. */
  lemma ProfilesAgainIffNotBlocked(run: seq<State>, i: nat, size: nat)
    requires size > 0 && IsRun(run, size) && i < |run|
    ensures CanProfileAgain(run[i], size) <==> !Blocked(run[i])
    ensures run[i].mu.Free? && !run[i].started ==> (CanProfileAgain(run[i], size) <==> run[i].currentTask.None?)
  {
    ReachableInv(run, i, size);
    var s := run[i];
    if Blocked(s) {
      forall path | IsPath(path, s, size) ensures |Last(path).sessions| == |s.sessions| {
        BlockedStays(path, s, |path| - 1, size);
      }
    } else {
      var path := ProfileAgain(s, size);
    }
  }

  lemma ProfileAgain(s: State, size: nat) returns (path: seq<State>)
    requires size > 0 && Inv(s, size) && !Blocked(s)
    ensures IsPath(path, s, size) && |Last(path).sessions| > |s.sessions|
  {
    if s.started {
      var first := FinishSession(s, size);
      var second := StartProfile(Last(first), size);
      Join(first, s, second, size);
      path := first[..|first| - 1] + second;
    } else {
      path := StartProfile(s, size);
    }
  }

  /** The timer set its task, but the profiler was not started. */
  ghost predicate StartFailed(s: State, s': State) {
    s.mu.CheckProfile? && s'.mu.Free?
  }

  ghost predicate StartFailedAt(run: seq<State>, k: nat) {
    k + 1 < |run| && StartFailed(run[k], run[k + 1])
  }

  ghost predicate SomeStartFailed(run: seq<State>, i: nat)
    requires i < |run|
  {
    exists k :: 0 <= k < i && StartFailedAt(run, k)
  }

  lemma BlockedByAStep(s: State, step: Step, size: nat)
    requires size > 0 && Inv(s, size) && Enabled(s, step, size)
    ensures Blocked(Do(s, step, size)) <==> Blocked(s) || StartFailed(s, Do(s, step, size))
  {
    if Blocked(s) { BlockedStep(s, step, size); }
    RulesMean(s);
  }

  lemma BlockedBetween(run: seq<State>, i: nat, size: nat)
    requires size > 0 && IsRun(run, size) && i + 1 < |run|
    ensures Blocked(run[i + 1]) <==> Blocked(run[i]) || StartFailedAt(run, i)
  {
    ReachableInv(run, i, size);
    assert Moves(run, i, size);
    var step :| Enabled(run[i], step, size) && run[i + 1] == Do(run[i], step, size);
    BlockedByAStep(run[i], step, size);
  }

  lemma NotBlockedAtFirst(run: seq<State>)
    requires |run| > 0 && run[0] == Init
    ensures !Blocked(run[0]) && !SomeStartFailed(run, 0)
  {
  }

  lemma OneMoreStart(run: seq<State>, i: nat)
    requires i + 1 < |run|
    ensures SomeStartFailed(run, i + 1) <==> SomeStartFailed(run, i) || StartFailedAt(run, i)
  {
  }

  /** The pipeline is blocked exactly if some start has failed. */
  lemma {:induction false} BlockedIffAStartFailed(run: seq<State>, i: nat, size: nat)
    requires size > 0 && IsRun(run, size) && i < |run|
    ensures Blocked(run[i]) <==> SomeStartFailed(run, i)
  {
    if i == 0 {
      NotBlockedAtFirst(run);
    } else {
      BlockedIffAStartFailed(run, i - 1, size);
      BlockedBetween(run, i - 1, size);
      OneMoreStart(run, i - 1);
    }
  }

  /**
   A task can be profiled at some time after a moment of a run exactly if no start has failed
   before it: one failed start blocks the pipeline for good.
   */
  lemma FailedStartBlocksForGood(run: seq<State>, i: nat, size: nat)
    requires size > 0 && IsRun(run, size) && i < |run|
    ensures CanProfileAgain(run[i], size) <==> !SomeStartFailed(run, i)
  {
    BlockedIffAStartFailed(run, i, size);
    ProfilesAgainIffNotBlocked(run, i, size);
  }

  /** There is a run in which the very first start fails. */
  lemma StartCanFail(task: TaskID, size: nat) returns (run: seq<State>)
    requires size > 0
    ensures IsRun(run, size) && Blocked(Last(run)) && Last(run).currentTask == Some(task)
  {
    var s1 := Init.(taskInstalled := true, mu := CheckSet(task));
    var s2 := s1.(currentTask := Some(task), mu := MarkTask(task));
    var s3 := s2.(curTaskExist := true, mu := CheckProfile(task));
    var s4 := s3.(mu := Free);
    RulesMean(s1);
    assert Enabled(Init, TimerFires(task, false), size) && s1 == Do(Init, TimerFires(task, false), size);
    assert Enabled(s1, TimerSets, size) && s2 == Do(s1, TimerSets, size);
    assert Enabled(s2, TimerMarksTask, size) && s3 == Do(s2, TimerMarksTask, size);
    assert Enabled(s3, TimerStarts(false), size) && s4 == Do(s3, TimerStarts(false), size);
    run := [Init, s1, s2, s3, s4];
    assert Moves(run, 0, size) && Moves(run, 1, size) && Moves(run, 2, size) && Moves(run, 3, size);
  }
}

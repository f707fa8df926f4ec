/**
 The lifecycle of one span: the fields guarded by `opLock` and the critical
 sections that read and write them. Every section is a function on the guarded
 state (so that the segment protocol can take it as one atomic step) and a method
 of the class that holds the fields.
 */
module DefaultSpans {
  import opened Wrappers

  type Time = int

  datatype KeyValue = KeyValue(key: string, value: string)

  datatype LogEntry = LogEntry(time: Time, data: seq<KeyValue>)

  datatype SegmentRef = SegmentRef(traceID: string, segmentID: string, spanID: int)

  /** The guarded fields that the reporter reads. `None` is the zero end time. */
  datatype SpanData = SpanData(
    refs: seq<SegmentRef>, endTime: Option<Time>, operationName: string, peer: string, layer: int,
    componentID: int, tags: seq<KeyValue>, logs: seq<LogEntry>, isError: bool)

  /** Everything guarded by the lock. */
  datatype SpanState = SpanState(
    data: SpanData, inAsyncMode: bool, asyncModeFinished: bool, ended: bool,
    droppedLogged: bool, reuseCount: int)

  datatype Mutation =
    | SetOperationName(name: string)
    | SetPeer(peer: string)
    | SetSpanLayer(layer: int)
    | SetComponent(componentID: int)
    | Tag(key: string, value: string)
    | Log(now: Time, entries: seq<string>)
    | Error(now: Time, entries: seq<string>)
    | ErrorOccured
    | AppendRef(ref: SegmentRef)

  datatype Section =
    | Mutate(m: Mutation)
    | EnterReuse
    | PrepareAsync
    | AsyncFinish
    | EndSync(now: Time)
    | StampEnd(now: Time)
    | Freeze

  /** `Returned(true)` tells the caller to hand the span to the collector. */
  datatype Outcome = Returned(frozen: bool) | Panicked

  // ---------------------------------------------------------------- the sections

  /** The first entry with the key gets the new value; a missing key is appended. */
  function Tagged(tags: seq<KeyValue>, key: string, value: string): seq<KeyValue> {
    if tags == [] then [KeyValue(key, value)]
    else if tags[0].key == key then [KeyValue(key, value)] + tags[1..]
    else [tags[0]] + Tagged(tags[1..], key, value)
  }

  /** Keys at even positions, values at odd ones; a last key without a value gets "". */
  function Paired(entries: seq<string>): seq<KeyValue> {
    if entries == [] then []
    else if |entries| == 1 then [KeyValue(entries[0], "")]
    else [KeyValue(entries[0], entries[1])] + Paired(entries[2..])
  }

  function Written(d: SpanData, m: Mutation): SpanData {
    match m
    case SetOperationName(name) => d.(operationName := name)
    case SetPeer(peer) => d.(peer := peer)
    case SetSpanLayer(layer) => d.(layer := layer)
    case SetComponent(id) => d.(componentID := id)
    case Tag(key, value) => d.(tags := Tagged(d.tags, key, value))
    case Log(now, entries) => d.(logs := d.logs + [LogEntry(now, Paired(entries))])
    case Error(now, entries) => d.(isError := true, logs := d.logs + [LogEntry(now, Paired(entries))])
    case ErrorOccured => d.(isError := true)
    case AppendRef(ref) => d.(refs := d.refs + [ref])
  }

  function Apply(st: SpanState, sec: Section): (SpanState, Outcome) {
    match sec
    case Mutate(m) =>
      (if st.ended then st.(droppedLogged := true) else st.(data := Written(st.data, m)), Returned(false))
    case EnterReuse =>
      (if st.ended then st else st.(reuseCount := st.reuseCount + 1), Returned(false))
    case PrepareAsync =>
      if st.ended then (st.(droppedLogged := true), Returned(false))
      else if st.inAsyncMode then (st, Panicked)
      else (st.(inAsyncMode := true, asyncModeFinished := false), Returned(false))
    case AsyncFinish =>
      if st.ended then (st.(droppedLogged := true), Returned(false))
      else if !st.inAsyncMode || st.asyncModeFinished then (st, Panicked)
      else (st.(asyncModeFinished := true), Returned(false))
    case EndSync(now) =>
      if st.reuseCount > 0 then (st.(reuseCount := st.reuseCount - 1), Returned(false))
      else if st.data.endTime.Some? then (st, Returned(false))
      else
        var stamped := st.(data := st.data.(endTime := Some(now)));
        if !st.inAsyncMode && !st.ended then (stamped.(ended := true), Returned(true))
        else (stamped, Returned(false))
    case StampEnd(now) =>
      (if st.ended then st else st.(data := st.data.(endTime := Some(now))), Returned(false))
    case Freeze =>
      if st.ended then (st, Returned(false)) else (st.(ended := true), Returned(true))
  }

  /** The guarded state of a span that has just been built. */
  predicate Fresh(st: SpanState) {
    && st.data.endTime.None? && !st.inAsyncMode && !st.asyncModeFinished
    && !st.ended && !st.droppedLogged && st.reuseCount == 0
  }

  // ------------------------------------------------------- the object with the lock

  /** Method bodies are the sections between Lock and Unlock. */
  class DefaultSpan {
    var refs: seq<SegmentRef>
    var endTime: Option<Time>
    var operationName: string
    var peer: string
    var layer: int
    var componentID: int
    var tags: seq<KeyValue>
    var logs: seq<LogEntry>
    var isError: bool
    var inAsyncMode: bool
    var asyncModeFinished: bool
    var ended: bool
    var droppedLogged: bool
    var reuseCount: int

    constructor ()
      ensures Fresh(State()) && State().data == SpanData([], None, "", "", 0, 0, [], [], false)
    {
      refs, endTime, operationName, peer, layer, componentID := [], None, "", "", 0, 0;
      tags, logs, isError := [], [], false;
      inAsyncMode, asyncModeFinished, ended, droppedLogged, reuseCount := false, false, false, false, 0;
    }

    ghost function State(): SpanState
      reads this
    {
      SpanState(SpanData(refs, endTime, operationName, peer, layer, componentID, tags, logs, isError),
                inAsyncMode, asyncModeFinished, ended, droppedLogged, reuseCount)
    }

    // The mutators share one shape: a write after the freeze is dropped, and noted once.

    method SetOperationName(name: string)
      modifies this
      ensures State() == Apply(old(State()), Mutate(Mutation.SetOperationName(name))).0
    {
      if ended {
        droppedLogged := true;
        return;
      }
      operationName := name;
    }

    method SetPeer(p: string)
      modifies this
      ensures State() == Apply(old(State()), Mutate(Mutation.SetPeer(p))).0
    {
      if ended {
        droppedLogged := true;
        return;
      }
      peer := p;
    }

    method SetSpanLayer(l: int)
      modifies this
      ensures State() == Apply(old(State()), Mutate(Mutation.SetSpanLayer(l))).0
    {
      if ended {
        droppedLogged := true;
        return;
      }
      layer := l;
    }

    method SetComponent(id: int)
      modifies this
      ensures State() == Apply(old(State()), Mutate(Mutation.SetComponent(id))).0
    {
      if ended {
        droppedLogged := true;
        return;
      }
      componentID := id;
    }

    method Tag(key: string, value: string)
      modifies this
      ensures State() == Apply(old(State()), Mutate(Mutation.Tag(key, value))).0
    {
      if ended {
        droppedLogged := true;
        return;
      }
      tags := PutTag(tags, key, value);
    }

    method Log(now: Time, entries: seq<string>)
      modifies this
      ensures State() == Apply(old(State()), Mutate(Mutation.Log(now, entries))).0
    {
      if ended {
        droppedLogged := true;
        return;
      }
      AppendLog(now, entries);
    }

    method Error(now: Time, entries: seq<string>)
      modifies this
      ensures State() == Apply(old(State()), Mutate(Mutation.Error(now, entries))).0
    {
      if ended {
        droppedLogged := true;
        return;
      }
      isError := true;
      AppendLog(now, entries);
    }

    method ErrorOccured()
      modifies this
      ensures State() == Apply(old(State()), Mutate(Mutation.ErrorOccured)).0
    {
      if ended {
        droppedLogged := true;
        return;
      }
      isError := true;
    }

    method AppendRef(ref: SegmentRef)
      modifies this
      ensures State() == Apply(old(State()), Mutate(Mutation.AppendRef(ref))).0
    {
      if ended {
        droppedLogged := true;
        return;
      }
      refs := refs + [ref];
    }

    static method PutTag(tags: seq<KeyValue>, key: string, value: string) returns (r: seq<KeyValue>)
      ensures r == Tagged(tags, key, value)
    {
      for i := 0 to |tags|
        invariant forall j :: 0 <= j < i ==> tags[j].key != key
      {
        if tags[i].key == key {
          TaggedAt(tags, key, value, i);
          return tags[i := KeyValue(key, value)];
        }
      }
      TaggedAt(tags, key, value, |tags|);
      r := tags + [KeyValue(key, value)];
    }

    /** log0: walks the arguments, opening a pair at each even position. */
    method AppendLog(now: Time, entries: seq<string>)
      modifies `logs
      ensures logs == old(logs) + [LogEntry(now, Paired(entries))]
    {
      var data: seq<KeyValue> := [];
      for i := 0 to |entries|
        invariant data == Paired(entries[..i]) && logs == old(logs)
      {
        PairedGrows(entries[..i], entries[i]);
        assert entries[..i + 1] == entries[..i] + [entries[i]];
        if i % 2 == 0 {
          data := data + [KeyValue(entries[i], "")];
        } else {
          data := data[|data| - 1 := data[|data| - 1].(value := entries[i])];
        }
      }
      assert entries[..|entries|] == entries;
      logs := logs + [LogEntry(now, data)];
    }

    method EnterReuse()
      modifies this
      ensures State() == Apply(old(State()), Section.EnterReuse).0
    {
      if !ended { reuseCount := reuseCount + 1; }
    }

    method PrepareAsync() returns (out: Outcome)
      modifies this
      ensures (State(), out) == Apply(old(State()), Section.PrepareAsync)
    {
      if ended {
        droppedLogged := true;
        return Returned(false);
      }
      if inAsyncMode { return Panicked; }
      inAsyncMode, asyncModeFinished := true, false;
      return Returned(false);
    }

    method AsyncFinish() returns (out: Outcome)
      modifies this
      ensures (State(), out) == Apply(old(State()), Section.AsyncFinish)
    {
      if ended {
        droppedLogged := true;
        return Returned(false);
      }
      if !inAsyncMode { return Panicked; }
      if asyncModeFinished { return Panicked; }
      asyncModeFinished := true;
      return Returned(false);
    }

    /** endSyncAndFreeze */
    method EndSyncAndFreeze(now: Time) returns (frozen: bool)
      modifies this
      ensures (State(), Returned(frozen)) == Apply(old(State()), EndSync(now))
    {
      if reuseCount > 0 {
        reuseCount := reuseCount - 1;
        return false;
      }
      if endTime.Some? { return false; }
      endTime := Some(now);
      frozen := false;
      if !inAsyncMode && !ended {
        ended := true;
        frozen := true;
      }
    }

    /** DefaultSpan.End */
    method End(now: Time)
      modifies this
      ensures State() == Apply(old(State()), StampEnd(now)).0
    {
      if !ended { endTime := Some(now); }
    }

    method EndAndFreeze() returns (frozen: bool)
      modifies this
      ensures (State(), Returned(frozen)) == Apply(old(State()), Freeze)
    {
      if ended { return false; }
      ended := true;
      return true;
    }

    /** SegmentSpan.End and AsyncFinish run without interference; `Returned(true)` asks for end0. */
    method FinishAsync(now: Time) returns (out: Outcome)
      modifies this
      ensures old(ended) ==> out == Returned(false) && State().data == old(State()).data
      ensures !old(ended) && old(inAsyncMode && !asyncModeFinished) ==>
                && out == Returned(true) && ended
                && State().data == old(State()).data.(endTime := Some(now))
      ensures !old(ended) && !old(inAsyncMode && !asyncModeFinished) ==>
                out == Panicked && State() == old(State())
    {
      out := AsyncFinish();
      if out.Panicked? { return; }
      End(now);
      var frozen := EndAndFreeze();
      out := Returned(frozen);
    }
  }

  /** Tag overwrites the first entry with the key, or appends when there is none. */
  lemma {:induction false} TaggedAt(tags: seq<KeyValue>, key: string, value: string, i: nat)
    requires i <= |tags| && forall j :: 0 <= j < i ==> tags[j].key != key
    requires i < |tags| ==> tags[i].key == key
    ensures Tagged(tags, key, value) ==
            if i < |tags| then tags[i := KeyValue(key, value)] else tags + [KeyValue(key, value)]
  {
    if i > 0 {
      TaggedAt(tags[1..], key, value, i - 1);
      assert [tags[0]] + tags[1..] == tags;
    }
  }

  lemma {:induction false} PairedGrows(entries: seq<string>, e: string)
    ensures |Paired(entries)| == (|entries| + 1) / 2
    ensures |entries| % 2 == 0 ==> Paired(entries + [e]) == Paired(entries) + [KeyValue(e, "")]
    ensures |entries| % 2 == 1 ==>
              var p := Paired(entries);
              |p| > 0 && Paired(entries + [e]) == p[|p| - 1 := p[|p| - 1].(value := e)]
  {
    if |entries| >= 2 {
      PairedGrows(entries[2..], e);
      assert (entries + [e])[2..] == entries[2..] + [e];
    }
  }

  // ------------------------------------------------------------ runs of sections

  /** What a section may do to a span, given that its finishers keep their order. */
  lemma SectionFacts(st: SpanState, sec: Section)
    requires st.ended ==> st.data.endTime.Some?
    requires sec.Freeze? ==> st.data.endTime.Some?
    ensures var (st', out) := Apply(st, sec);
            && (st.ended ==> st'.ended && st'.data == st.data)
            && (st.data.endTime.Some? ==> st'.data.endTime.Some?)
            && (st'.ended ==> st'.data.endTime.Some?)
            && (out == Returned(true) <==> st'.ended && !st.ended)
            && (sec.StampEnd? ==> st'.data.endTime.Some?)
  {
  }

  /** A critical section and the goroutine that runs it. */
  datatype Action = Action(thread: nat, section: Section)

  type Run = seq<Action>

  /** The state after a run, folded from its last action. */
  function After(st0: SpanState, run: Run): SpanState {
    if run == [] then st0
    else Apply(After(st0, run[..|run| - 1]), run[|run| - 1].section).0
  }

  /** Whether action `i` of the run told its caller to hand the span over. */
  ghost predicate Froze(st0: SpanState, run: Run, i: nat)
    requires i < |run|
  {
    Apply(After(st0, run[..i]), run[i].section).1 == Returned(true)
  }

  /**
   What the code promises about order: the freeze of an async finisher comes after the same
   goroutine stamped the end time.
   */
  ghost predicate ProgramOrder(run: Run) {
    forall i :: 0 <= i < |run| && run[i].section.Freeze? ==>
      exists j :: 0 <= j < i && run[j].section.StampEnd? && run[j].thread == run[i].thread
  }

  lemma AfterStep(st0: SpanState, run: Run, i: nat)
    requires i < |run|
    ensures After(st0, run[..i + 1]) == Apply(After(st0, run[..i]), run[i].section).0
  {
    assert run[..i + 1][..i] == run[..i];
  }

  lemma Stamped(st: SpanState, sec: Section)
    requires st.data.endTime.Some? || (sec.StampEnd? && !st.ended)
    ensures Apply(st, sec).0.data.endTime.Some?
  {
  }

  lemma {:induction false} StampedStays(st0: SpanState, run: Run, i: nat, j: nat)
    requires i <= j <= |run| && After(st0, run[..i]).data.endTime.Some?
    ensures After(st0, run[..j]).data.endTime.Some?
    decreases j - i
  {
    if i < j {
      AfterStep(st0, run, i);
      Stamped(After(st0, run[..i]), run[i].section);
      StampedStays(st0, run, i + 1, j);
    }
  }

  lemma StampedSince(st0: SpanState, run: Run, j: nat, i: nat)
    requires j < i <= |run| && run[j].section.StampEnd?
    requires After(st0, run[..j]).ended ==> After(st0, run[..j]).data.endTime.Some?
    ensures After(st0, run[..i]).data.endTime.Some?
  {
    AfterStep(st0, run, j);
    Stamped(After(st0, run[..j]), run[j].section);
    StampedStays(st0, run, j + 1, i);
  }

  /** A frozen span always has an end time. */
  lemma {:induction false} EndedHasEndTime(st0: SpanState, run: Run, i: nat)
    requires Fresh(st0) && ProgramOrder(run) && i <= |run|
    ensures After(st0, run[..i]).ended ==> After(st0, run[..i]).data.endTime.Some?
  {
    if i > 0 {
      var st, sec := After(st0, run[..i - 1]), run[i - 1].section;
      EndedHasEndTime(st0, run, i - 1);
      AfterStep(st0, run, i - 1);
      if sec.Freeze? {
        var j :| 0 <= j < i - 1 && run[j].section.StampEnd? && run[j].thread == run[i - 1].thread;
        EndedHasEndTime(st0, run, j);
        StampedSince(st0, run, j, i - 1);
      }
      SectionFacts(st, sec);
    }
  }

  /** Once frozen, a span stays frozen and every reported field keeps its value. */
  lemma {:induction false} FrozenDataIsFixed(st0: SpanState, run: Run, i: nat, j: nat)
    requires Fresh(st0) && ProgramOrder(run) && i <= j <= |run|
    requires After(st0, run[..i]).ended
    ensures After(st0, run[..j]).ended
    ensures After(st0, run[..j]).data == After(st0, run[..i]).data
    decreases j - i
  {
    if i < j {
      EndedHasEndTime(st0, run, i);
      AfterStep(st0, run, i);
      SectionFacts(After(st0, run[..i]), run[i].section);
      FrozenDataIsFixed(st0, run, i + 1, j);
    }
  }

  /** However finishers race, at most one of them is told to hand the span over. */
  lemma {:induction false} AtMostOneFreeze(st0: SpanState, run: Run, i: nat, j: nat)
    requires Fresh(st0) && i < j < |run|
    requires Froze(st0, run, i)
    ensures !Froze(st0, run, j)
  {
    EndedIffHandedOver(st0, run, j);
    EndedWhenFrozen(After(st0, run[..j]), run[j].section);
  }

  /** A span is frozen exactly when some action was told to hand it over. */
  lemma {:induction false} EndedIffHandedOver(st0: SpanState, run: Run, k: nat)
    requires Fresh(st0) && k <= |run|
    ensures After(st0, run[..k]).ended <==> exists i :: 0 <= i < k && Froze(st0, run, i)
  {
    if k > 0 {
      EndedIffHandedOver(st0, run, k - 1);
      EndedStep(st0, run, k - 1);
    }
  }

  lemma EndedStep(st0: SpanState, run: Run, k: nat)
    requires k < |run|
    ensures After(st0, run[..k + 1]).ended <==> After(st0, run[..k]).ended || Froze(st0, run, k)
  {
    AfterStep(st0, run, k);
    EndedWhenFrozen(After(st0, run[..k]), run[k].section);
  }

  lemma EndedWhenFrozen(st: SpanState, sec: Section)
    ensures Apply(st, sec).0.ended <==> st.ended || Apply(st, sec).1 == Returned(true)
    ensures st.ended ==> Apply(st, sec).1 != Returned(true)
  {
  }

  // -------------------------------------------------------- synchronous reuse

  /** No section of the async protocol occurs. */
  ghost predicate Synchronous(run: Run) {
    forall i :: 0 <= i < |run| ==>
      run[i].section.Mutate? || run[i].section.EnterReuse? || run[i].section.EndSync?
  }

  function Reuses(run: Run): nat {
    if run == [] then 0 else Reuses(run[..|run| - 1]) + if run[|run| - 1].section.EnterReuse? then 1 else 0
  }

  function Ends(run: Run): nat {
    if run == [] then 0 else Ends(run[..|run| - 1]) + if run[|run| - 1].section.EndSync? then 1 else 0
  }

  /** Action `k` is an End whose ordinal is one more than the reuses so far. */
  ghost predicate LastOwnerEnds(run: Run, k: nat)
    requires k < |run|
  {
    run[k].section.EndSync? && Ends(run[..k]) == Reuses(run[..k])
  }

  /** Some action before `k` was the End of the last owner. */
  ghost predicate AllOwnersEnded(run: Run, k: nat)
    requires k <= |run|
  {
    exists i :: 0 <= i < k && LastOwnerEnds(run, i)
  }

  /** The state of a synchronous span after so many reuses and Ends. */
  ghost predicate SyncState(st: SpanState, reuses: nat, ends: nat, over: bool) {
    && !st.inAsyncMode && (st.data.endTime.Some? <==> st.ended) && (st.ended <==> over)
    && st.reuseCount == (if st.ended then 0 else reuses - ends) && st.reuseCount >= 0
  }

  lemma SyncStep(st: SpanState, sec: Section, reuses: nat, ends: nat, over: bool)
    requires SyncState(st, reuses, ends, over) && (sec.Mutate? || sec.EnterReuse? || sec.EndSync?)
    ensures SyncState(Apply(st, sec).0, reuses + if sec.EnterReuse? then 1 else 0, ends + if sec.EndSync? then 1 else 0,
                      over || (sec.EndSync? && ends == reuses))
  {
  }

  lemma CountsStep(run: Run, k: nat)
    requires k < |run|
    ensures Reuses(run[..k + 1]) == Reuses(run[..k]) + if run[k].section.EnterReuse? then 1 else 0
    ensures Ends(run[..k + 1]) == Ends(run[..k]) + if run[k].section.EndSync? then 1 else 0
  {
    assert run[..k + 1][..k] == run[..k];
  }

  lemma {:induction false} SyncStateAt(st0: SpanState, run: Run, k: nat)
    requires Fresh(st0) && Synchronous(run) && k <= |run|
    ensures SyncState(After(st0, run[..k]), Reuses(run[..k]), Ends(run[..k]), AllOwnersEnded(run, k))
  {
    if k > 0 {
      SyncStateAt(st0, run, k - 1);
      AfterStep(st0, run, k - 1);
      CountsStep(run, k - 1);
      SyncStep(After(st0, run[..k - 1]), run[k - 1].section, Reuses(run[..k - 1]), Ends(run[..k - 1]), AllOwnersEnded(run, k - 1));
      assert AllOwnersEnded(run, k) <==> AllOwnersEnded(run, k - 1) || LastOwnerEnds(run, k - 1);
    }
  }

  /**
   Before the freeze the counter is reuses minus Ends, never negative; and the span is
   frozen once some End was that of the last owner.
   */
  lemma SyncCount(st0: SpanState, run: Run, k: nat)
    requires Fresh(st0) && Synchronous(run) && k <= |run|
    ensures var st := After(st0, run[..k]);
            && !st.inAsyncMode && (st.data.endTime.Some? <==> st.ended)
            && (!st.ended ==> st.reuseCount == Reuses(run[..k]) - Ends(run[..k]) >= 0)
            && (st.ended ==> st.reuseCount == 0)
            && (st.ended <==> exists i :: 0 <= i < k && LastOwnerEnds(run, i))
  {
    SyncStateAt(st0, run, k);
  }

  /**
   A synchronous span is handed over exactly at the first End whose ordinal is
   reuses-so-far plus one, whatever the interleaving of reuses, Ends and writes.
   */
  lemma SyncFreezesAtLastOwner(st0: SpanState, run: Run, k: nat)
    requires Fresh(st0) && Synchronous(run) && k < |run|
    ensures Froze(st0, run, k) <==>
              LastOwnerEnds(run, k) && forall i :: 0 <= i < k ==> !LastOwnerEnds(run, i)
  {
    SyncCount(st0, run, k);
  }
}

/**
 What the sections of a span add up to, over whole runs: when it is frozen, with which end
 time, which misuse panics, and which writes the report shows.
 */
module SpanHistory {
  import opened Wrappers
  import opened DefaultSpans

  // ---------------------------------------------------------------- the async mode

  ghost predicate Prepared(run: Run, k: nat)
    requires k <= |run|
  {
    exists j :: 0 <= j < k && run[j].section.PrepareAsync?
  }

  ghost predicate Finished(run: Run, k: nat)
    requires k <= |run|
  {
    exists j :: 0 <= j < k && run[j].section.AsyncFinish? && Prepared(run, j)
  }

  lemma OneMore(run: Run, k: nat)
    requires k < |run|
    ensures Prepared(run, k + 1) <==> Prepared(run, k) || run[k].section.PrepareAsync?
    ensures Finished(run, k + 1) <==> Finished(run, k) || (run[k].section.AsyncFinish? && Prepared(run, k))
    ensures Finished(run, k) ==> Prepared(run, k)
  {
  }

  lemma AsyncStep(st: SpanState, sec: Section)
    requires !Apply(st, sec).0.ended && (st.asyncModeFinished ==> st.inAsyncMode)
    ensures var st' := Apply(st, sec).0;
            && !st.ended
            && (st'.inAsyncMode <==> st.inAsyncMode || sec.PrepareAsync?)
            && (st'.asyncModeFinished <==> st.asyncModeFinished || (sec.AsyncFinish? && st.inAsyncMode))
  {
  }

  /** Until it is frozen, a span is in async mode from its first PrepareAsync on, and finished from the AsyncFinish after that. */
  lemma {:induction false} AsyncFromPrepareOn(st0: SpanState, run: Run, k: nat)
    requires Fresh(st0) && k <= |run| && !After(st0, run[..k]).ended
    ensures After(st0, run[..k]).inAsyncMode <==> Prepared(run, k)
    ensures After(st0, run[..k]).asyncModeFinished <==> Finished(run, k)
  {
    if k > 0 {
      AfterStep(st0, run, k - 1);
      EndedWhenFrozen(After(st0, run[..k - 1]), run[k - 1].section);
      AsyncFromPrepareOn(st0, run, k - 1);
      OneMore(run, k - 1);
      AsyncStep(After(st0, run[..k - 1]), run[k - 1].section);
    }
  }

  /** A misuse of the async calls panics, and nothing else does. */
  lemma PanicsExactly(st0: SpanState, run: Run, k: nat)
    requires Fresh(st0) && k < |run|
    ensures Apply(After(st0, run[..k]), run[k].section).1 == Panicked <==>
              && !After(st0, run[..k]).ended
              && (|| (run[k].section.PrepareAsync? && Prepared(run, k))
                  || (run[k].section.AsyncFinish? && (!Prepared(run, k) || Finished(run, k))))
  {
    if !After(st0, run[..k]).ended { AsyncFromPrepareOn(st0, run, k); }
  }

  // ------------------------------------------------------- the freeze and the end time

  ghost predicate StampedBefore(run: Run, k: nat)
    requires k <= |run|
  {
    exists j :: 0 <= j < k && run[j].section.StampEnd?
  }

  /** Action `k` is the End by which the last owner gives the span up. */
  ghost predicate GivesUp(run: Run, k: nat)
    requires k < |run|
  {
    LastOwnerEnds(run, k) && !AllOwnersEnded(run, k)
  }

  /** What is known of an open span: its owners are counted, and End and AsyncFinish stamp it. */
  ghost predicate OpenState(st: SpanState, reuses: nat, ends: nat, over: bool, stamped: bool) {
    !st.ended ==>
      && (st.data.endTime.Some? <==> over || stamped)
      && (!over ==> st.reuseCount == reuses - ends >= 0)
  }

  lemma OpenStep(st: SpanState, sec: Section, reuses: nat, ends: nat, over: bool, stamped: bool)
    requires OpenState(st, reuses, ends, over, stamped)
    ensures OpenState(Apply(st, sec).0, reuses + if sec.EnterReuse? then 1 else 0, ends + if sec.EndSync? then 1 else 0,
                      over || (sec.EndSync? && ends == reuses), stamped || sec.StampEnd?)
  {
  }

  lemma {:induction false} OpenStateAt(st0: SpanState, run: Run, k: nat)
    requires Fresh(st0) && k <= |run|
    ensures OpenState(After(st0, run[..k]), Reuses(run[..k]), Ends(run[..k]), AllOwnersEnded(run, k), StampedBefore(run, k))
  {
    if k > 0 {
      OpenStateAt(st0, run, k - 1);
      AfterStep(st0, run, k - 1);
      CountsStep(run, k - 1);
      OpenStep(After(st0, run[..k - 1]), run[k - 1].section, Reuses(run[..k - 1]), Ends(run[..k - 1]),
               AllOwnersEnded(run, k - 1), StampedBefore(run, k - 1));
      assert AllOwnersEnded(run, k) <==> AllOwnersEnded(run, k - 1) || LastOwnerEnds(run, k - 1);
      assert StampedBefore(run, k) <==> StampedBefore(run, k - 1) || run[k - 1].section.StampEnd?;
    }
  }

  /** An open span counts its owners, async or not: reuses minus Ends, until the last owner gives it up. */
  lemma OwnersAreCounted(st0: SpanState, run: Run, k: nat)
    requires Fresh(st0) && k <= |run| && !After(st0, run[..k]).ended && !AllOwnersEnded(run, k)
    ensures After(st0, run[..k]).reuseCount == Reuses(run[..k]) - Ends(run[..k]) >= 0
  {
    OpenStateAt(st0, run, k);
  }

  /**
   The only actions that freeze an open span are the freeze of an async finisher, and the End
   by which the last owner gives up a span that was never prepared for async nor stamped.
   */
  lemma FreezesExactly(st0: SpanState, run: Run, k: nat)
    requires Fresh(st0) && k < |run|
    ensures Froze(st0, run, k) <==>
              && !After(st0, run[..k]).ended
              && (run[k].section.Freeze? || (GivesUp(run, k) && !Prepared(run, k) && !StampedBefore(run, k)))
  {
    OpenStateAt(st0, run, k);
    if !After(st0, run[..k]).ended { AsyncFromPrepareOn(st0, run, k); }
  }

  /** In async mode no End freezes: the async finisher owns the freeze. */
  lemma AsyncIsFrozenByItsFinisher(st0: SpanState, run: Run, k: nat)
    requires Fresh(st0) && k < |run| && Froze(st0, run, k) && Prepared(run, k)
    ensures run[k].section.Freeze?
  {
    FreezesExactly(st0, run, k);
  }

  lemma EndTimeStep(st: SpanState, sec: Section)
    ensures var st' := Apply(st, sec).0;
            && (st.data.endTime.Some? && !sec.StampEnd? ==> st'.data.endTime == st.data.endTime)
            && (st.ended && st.data.endTime.Some? ==> st'.data.endTime == st.data.endTime)
            && (sec.StampEnd? && !st.ended ==> st'.data.endTime == Some(sec.now))
  {
  }

  /** Nothing but a stamp changes an end time. */
  lemma {:induction false} EndTimeStays(st0: SpanState, run: Run, j: nat, k: nat)
    requires j <= k <= |run| && After(st0, run[..j]).data.endTime.Some?
    requires forall i :: j <= i < k ==> !run[i].section.StampEnd?
    ensures After(st0, run[..k]).data.endTime == After(st0, run[..j]).data.endTime
    decreases k
  {
    if j < k {
      EndTimeStays(st0, run, j, k - 1);
      AfterStep(st0, run, k - 1);
      EndTimeStep(After(st0, run[..k - 1]), run[k - 1].section);
    }
  }

  /** The end time is that of the last stamp before the freeze. */
  lemma LastStampWins(st0: SpanState, run: Run, j: nat, k: nat)
    requires j < k <= |run| && run[j].section.StampEnd? && !After(st0, run[..j]).ended
    requires forall i :: j < i < k ==> !run[i].section.StampEnd?
    ensures After(st0, run[..k]).data.endTime == Some(run[j].section.now)
  {
    AfterStep(st0, run, j);
    EndTimeStep(After(st0, run[..j]), run[j].section);
    EndTimeStays(st0, run, j + 1, k);
  }

  /** Without a stamp it is that of the End by which the last owner gave the span up. */
  lemma OwnerStamps(st0: SpanState, run: Run, j: nat, k: nat)
    requires Fresh(st0) && j < k <= |run| && GivesUp(run, j) && !After(st0, run[..j]).ended
    requires !StampedBefore(run, k)
    ensures After(st0, run[..k]).data.endTime == Some(run[j].section.now)
  {
    OwnerStampsNow(st0, run, j);
    EndTimeStays(st0, run, j + 1, k);
  }

  lemma OwnerStampsNow(st0: SpanState, run: Run, j: nat)
    requires Fresh(st0) && j < |run| && GivesUp(run, j) && !After(st0, run[..j]).ended && !StampedBefore(run, j)
    ensures After(st0, run[..j + 1]).data.endTime == Some(run[j].section.now)
  {
    AfterStep(st0, run, j);
    OpenStateAt(st0, run, j);
  }

  // ------------------------------------------------------------- what the report shows

  /** The value of the first tag with the key. */
  function TagOf(tags: seq<KeyValue>, key: string): Option<string> {
    if tags == [] then None
    else if tags[0].key == key then Some(tags[0].value)
    else TagOf(tags[1..], key)
  }

  /** The reported fields show this write. */
  ghost predicate Shows(d: SpanData, m: Mutation) {
    match m
    case SetOperationName(name) => d.operationName == name
    case SetPeer(peer) => d.peer == peer
    case SetSpanLayer(layer) => d.layer == layer
    case SetComponent(id) => d.componentID == id
    case Tag(key, value) => TagOf(d.tags, key) == Some(value)
    case Log(now, entries) => LogEntry(now, Paired(entries)) in d.logs
    case Error(now, entries) => d.isError && LogEntry(now, Paired(entries)) in d.logs
    case ErrorOccured => d.isError
    case AppendRef(ref) => ref in d.refs
  }

  /** A later write of this kind replaces the earlier one. */
  predicate Replaces(later: Mutation, m: Mutation) {
    match m
    case SetOperationName(_) => later.SetOperationName?
    case SetPeer(_) => later.SetPeer?
    case SetSpanLayer(_) => later.SetSpanLayer?
    case SetComponent(_) => later.SetComponent?
    case Tag(key, _) => later.Tag? && later.key == key
    case _ => false
  }

  lemma {:induction false} TagOfTagged(tags: seq<KeyValue>, key: string, value: string, other: string)
    ensures TagOf(Tagged(tags, key, value), other) == if other == key then Some(value) else TagOf(tags, other)
  {
    if tags != [] && tags[0].key != key {
      TagOfTagged(tags[1..], key, value, other);
      assert Tagged(tags, key, value)[1..] == Tagged(tags[1..], key, value);
    } else if tags != [] {
      assert Tagged(tags, key, value)[1..] == tags[1..];
    }
  }

  lemma WriteShows(d: SpanData, m: Mutation)
    ensures Shows(Written(d, m), m)
  {
    if m.Tag? { TagOfTagged(d.tags, m.key, m.value, m.key); }
  }

  lemma OtherWritesKeep(d: SpanData, m: Mutation, later: Mutation)
    requires Shows(d, m) && !Replaces(later, m)
    ensures Shows(Written(d, later), m)
  {
    if m.Tag? && later.Tag? { TagOfTagged(d.tags, later.key, later.value, m.key); }
  }

  lemma OtherSectionsKeep(st: SpanState, sec: Section, m: Mutation)
    requires Shows(st.data, m) && !(sec.Mutate? && Replaces(sec.m, m))
    ensures Shows(Apply(st, sec).0.data, m)
  {
    if sec.Mutate? && !st.ended { OtherWritesKeep(st.data, m, sec.m); }
  }

  /** A write before the freeze is in the report, unless a later write of its kind replaced it. */
  lemma {:induction false} WritesBeforeTheFreezeShow(st0: SpanState, run: Run, j: nat, k: nat)
    requires j < k <= |run| && run[j].section.Mutate? && !After(st0, run[..j]).ended
    requires forall i :: j < i < k && run[i].section.Mutate? ==> !Replaces(run[i].section.m, run[j].section.m)
    ensures Shows(After(st0, run[..k]).data, run[j].section.m)
  {
    AfterStep(st0, run, k - 1);
    if j < k - 1 {
      WritesBeforeTheFreezeShow(st0, run, j, k - 1);
      OtherSectionsKeep(After(st0, run[..k - 1]), run[k - 1].section, run[j].section.m);
    } else {
      WriteShows(After(st0, run[..j]).data, run[j].section.m);
    }
  }

  function LogsOf(run: Run): seq<LogEntry> {
    if run == [] then []
    else
      var last := run[|run| - 1].section;
      LogsOf(run[..|run| - 1]) +
      if last.Mutate? && (last.m.Log? || last.m.Error?) then [LogEntry(last.m.now, Paired(last.m.entries))] else []
  }

  function RefsOf(run: Run): seq<SegmentRef> {
    if run == [] then []
    else
      var last := run[|run| - 1].section;
      RefsOf(run[..|run| - 1]) + if last.Mutate? && last.m.AppendRef? then [last.m.ref] else []
  }

  lemma ListsStep(st: SpanState, sec: Section)
    requires !Apply(st, sec).0.ended
    ensures var d, d' := st.data, Apply(st, sec).0.data;
            && d'.logs == d.logs + LogsOf([Action(0, sec)]) && d'.refs == d.refs + RefsOf([Action(0, sec)])
            && (d'.isError <==> d.isError || RaisesError(sec))
  {
    assert [Action(0, sec)][..0] == [];
  }

  lemma ListsGrow(run: Run, k: nat)
    requires k < |run|
    ensures LogsOf(run[..k + 1]) == LogsOf(run[..k]) + LogsOf([Action(0, run[k].section)])
    ensures RefsOf(run[..k + 1]) == RefsOf(run[..k]) + RefsOf([Action(0, run[k].section)])
  {
    assert run[..k + 1][..k] == run[..k];
    assert [Action(0, run[k].section)][..0] == [];
  }

  ghost predicate ErrorRaised(run: Run, k: nat)
    requires k <= |run|
  {
    exists j :: 0 <= j < k && RaisesError(run[j].section)
  }

  /** An open span has exactly the log entries and references written to it, in order, and the error flag exactly if it was raised. */
  lemma {:induction false} ListsAreWhatWasWritten(st0: SpanState, run: Run, k: nat)
    requires k <= |run| && !After(st0, run[..k]).ended
    ensures After(st0, run[..k]).data.logs == st0.data.logs + LogsOf(run[..k])
    ensures After(st0, run[..k]).data.refs == st0.data.refs + RefsOf(run[..k])
    ensures After(st0, run[..k]).data.isError <==> st0.data.isError || ErrorRaised(run, k)
  {
    if k > 0 {
      AfterStep(st0, run, k - 1);
      EndedWhenFrozen(After(st0, run[..k - 1]), run[k - 1].section);
      ListsAreWhatWasWritten(st0, run, k - 1);
      ListsStep(After(st0, run[..k - 1]), run[k - 1].section);
      ListsGrow(run, k - 1);
      assert ErrorRaised(run, k) <==> ErrorRaised(run, k - 1) || RaisesError(run[k - 1].section);
    }
  }

  lemma TagsStep(st: SpanState, sec: Section, key: string)
    ensures TagOf(Apply(st, sec).0.data.tags, key) ==
            if TagsKey(sec, key) && !st.ended then Some(sec.m.value) else TagOf(st.data.tags, key)
  {
    if sec.Mutate? && sec.m.Tag? { TagOfTagged(st.data.tags, sec.m.key, sec.m.value, key); }
  }

  /** A key that nobody tags keeps the value it had. */
  lemma {:induction false} UntaggedKeyStays(st0: SpanState, run: Run, k: nat, key: string)
    requires k <= |run| && forall j :: 0 <= j < k ==> !TagsKey(run[j].section, key)
    ensures TagOf(After(st0, run[..k]).data.tags, key) == TagOf(st0.data.tags, key)
  {
    if k > 0 {
      AfterStep(st0, run, k - 1);
      UntaggedKeyStays(st0, run, k - 1, key);
      TagsStep(After(st0, run[..k - 1]), run[k - 1].section, key);
    }
  }

  predicate TagsKey(sec: Section, key: string) {
    sec.Mutate? && sec.m.Tag? && sec.m.key == key
  }

  predicate RaisesError(sec: Section) {
    sec.Mutate? && (sec.m.Error? || sec.m.ErrorOccured?)
  }

  /** A call that is dropped with a note when it comes after the freeze. */
  predicate Droppable(sec: Section) {
    sec.Mutate? || sec.PrepareAsync? || sec.AsyncFinish?
  }

  ghost predicate DroppedBefore(st0: SpanState, run: Run, k: nat)
    requires k <= |run|
  {
    exists j :: 0 <= j < k && DroppedAt(st0, run, j)
  }

  ghost predicate DroppedAt(st0: SpanState, run: Run, j: nat)
    requires j < |run|
  {
    After(st0, run[..j]).ended && Droppable(run[j].section)
  }

  lemma NoteStep(st: SpanState, sec: Section)
    ensures Apply(st, sec).0.droppedLogged <==> st.droppedLogged || (st.ended && Droppable(sec))
  {
  }

  /** The note of a dropped call is made exactly if such a call came after the freeze. */
  lemma {:induction false} DropsAreNoted(st0: SpanState, run: Run, k: nat)
    requires Fresh(st0) && k <= |run|
    ensures After(st0, run[..k]).droppedLogged <==> DroppedBefore(st0, run, k)
  {
    if k > 0 {
      DropsAreNoted(st0, run, k - 1);
      AfterStep(st0, run, k - 1);
      NoteStep(After(st0, run[..k - 1]), run[k - 1].section);
      assert DroppedBefore(st0, run, k) <==> DroppedBefore(st0, run, k - 1) || DroppedAt(st0, run, k - 1);
    }
  }
}

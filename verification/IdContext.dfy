/** Identifier generation from a clock that may stand still or go back, and a sequence number. */
module IdContext {

  const SEQUENCES: int := 10000

  datatype State = State(lastTime: int, sequence: int, shift: int, shiftTime: int)

  const Init := State(0, 0, 0, 0)

  /** timestamp: the clock, or a private counter while the clock is behind. */
  function Timestamp(s: State, now: int): (State, int) {
    if now < s.lastTime then
      var shift := if s.shiftTime != now then s.shift + 1 else s.shift;
      (s.(shift := shift, shiftTime := now), shift)
    else (s.(lastTime := now), now)
  }

  /** nextSeq: 1 to 10000, over and over. */
  function NextSeq(s: State): (State, int) {
    var n := (if s.sequence == SEQUENCES then 0 else s.sequence) + 1;
    (s.(sequence := n), n)
  }

  class IDContext {
    var lastTime: int
    var sequence: int
    var shift: int
    var shiftTime: int

    ghost function Value(): State
      reads this
    {
      State(lastTime, sequence, shift, shiftTime)
    }

    constructor ()
      ensures Value() == Init
    {
      lastTime, sequence, shift, shiftTime := 0, 0, 0, 0;
    }

    /** `now` is the reading of the clock, in milliseconds since the epoch of the ids. */
    method NextID(now: int) returns (id: int)
      modifies this
      ensures var (s1, t) := Timestamp(old(Value()), now);
              var (s2, n) := NextSeq(s1);
              Value() == s2 && id == t * SEQUENCES + n
    {
      var t := ReadTimestamp(now);
      var n := ReadSeq();
      id := t * 10000 + n;
    }

    method ReadTimestamp(now: int) returns (t: int)
      modifies this
      ensures (Value(), t) == Timestamp(old(Value()), now)
    {
      if now < lastTime {
        if shiftTime != now {
          shift := shift + 1;
          shiftTime := now;
        }
        return shift;
      }
      lastTime := now;
      return now;
    }

    method ReadSeq() returns (n: int)
      modifies this
      ensures (Value(), n) == NextSeq(old(Value()))
    {
      if sequence == 10000 { sequence := 0; }
      sequence := sequence + 1;
      return sequence;
    }
  }

  /** The state after the calls that saw these clock readings. */
  function After(clock: seq<int>): State {
    if clock == [] then Init
    else NextSeq(Timestamp(After(clock[..|clock| - 1]), clock[|clock| - 1]).0).0
  }

  /** The timestamp that call `i` used. */
  function TimeOf(clock: seq<int>, i: nat): int
    requires i < |clock|
  {
    Timestamp(After(clock[..i]), clock[i]).1
  }

  function IdOf(clock: seq<int>, i: nat): int
    requires i < |clock|
  {
    TimeOf(clock, i) * SEQUENCES + NextSeq(After(clock[..i])).1
  }

  /** All ids of one context. */
  method Generate(clock: seq<int>) returns (ids: seq<int>)
    ensures |ids| == |clock| && forall i :: 0 <= i < |clock| ==> ids[i] == IdOf(clock, i)
  {
    var c := new IDContext();
    ids := [];
    assert clock[..0] == [];
    for i := 0 to |clock|
      invariant fresh(c) && c.Value() == After(clock[..i])
      invariant |ids| == i && forall k :: 0 <= k < i ==> ids[k] == IdOf(clock, k)
    {
      assert clock[..i + 1][..i] == clock[..i];
      var id := c.NextID(clock[i]);
      ids := ids + [id];
    }
    assert clock[..|clock|] == clock;
  }

  lemma {:induction false} SeqOfCall(clock: seq<int>, i: nat)
    requires i <= |clock|
    ensures After(clock[..i]).sequence == (if i == 0 then 0 else (i - 1) % SEQUENCES + 1)
    ensures NextSeq(After(clock[..i])).1 == i % SEQUENCES + 1
  {
    if i > 0 {
      SeqOfCall(clock, i - 1);
      assert clock[..i][..i - 1] == clock[..i - 1];
      NextResidue(i);
    }
  }

  lemma NextResidue(i: nat)
    requires i > 0
    ensures i % SEQUENCES == if (i - 1) % SEQUENCES == SEQUENCES - 1 then 0 else (i - 1) % SEQUENCES + 1
  {
  }

  /** An id determines its timestamp and its sequence number. */
  lemma IdParts(t: int, n: int, u: int, m: int)
    requires 1 <= n <= SEQUENCES && 1 <= m <= SEQUENCES
    ensures t * SEQUENCES + n == u * SEQUENCES + m <==> t == u && n == m
  {
  }

  lemma SameResidue(i: nat, j: nat)
    requires i <= j
    ensures i % SEQUENCES == j % SEQUENCES <==> (j - i) % SEQUENCES == 0
  {
    var d := j - i;
    assert j == i + d;
    assert (i + d) % SEQUENCES == (i % SEQUENCES + d % SEQUENCES) % SEQUENCES;
  }

  /** An id is ten thousand times its timestamp, and a number that counts the calls from 1 to 10000 and round again. */
  lemma IdShows(clock: seq<int>, i: nat)
    requires i < |clock|
    ensures IdOf(clock, i) == TimeOf(clock, i) * 10000 + i % 10000 + 1
  {
    SeqOfCall(clock, i);
  }

  /**
   For any clock, two ids of a context are equal exactly when their timestamps are equal and
   their calls lie a multiple of 10000 apart.
   */
  lemma EqualIdsIff(clock: seq<int>, i: nat, j: nat)
    requires i < j < |clock|
    ensures IdOf(clock, i) == IdOf(clock, j) <==> TimeOf(clock, i) == TimeOf(clock, j) && (j - i) % 10000 == 0
  {
    SeqOfCall(clock, i);
    SeqOfCall(clock, j);
    IdParts(TimeOf(clock, i), i % SEQUENCES + 1, TimeOf(clock, j), j % SEQUENCES + 1);
    SameResidue(i, j);
  }

  /** Any 10000 consecutive ids are distinct, whatever the clock does. */
  lemma ConsecutiveIdsAreDistinct(clock: seq<int>, i: nat, j: nat)
    requires i < j < |clock| && j - i < 10000
    ensures IdOf(clock, i) != IdOf(clock, j)
  {
    EqualIdsIff(clock, i, j);
  }

  // ------------------------------------------------- timestamps from the readings alone

  /** The clock reads less than at some earlier call, or less than the epoch. */
  ghost predicate Behind(clock: seq<int>, i: nat)
    requires i < |clock|
  {
    clock[i] < 0 || exists k :: 0 <= k < i && clock[i] < clock[k]
  }

  /** The reading of the last call that was behind, or 0. */
  ghost function LastBehind(clock: seq<int>, n: nat): int
    requires n <= |clock|
  {
    if n == 0 then 0 else if Behind(clock, n - 1) then clock[n - 1] else LastBehind(clock, n - 1)
  }

  /** How often the reading has changed from one call behind to the next. */
  ghost function Shifts(clock: seq<int>, n: nat): nat
    requires n <= |clock|
  {
    if n == 0 then 0
    else Shifts(clock, n - 1) + if Behind(clock, n - 1) && clock[n - 1] != LastBehind(clock, n - 1) then 1 else 0
  }

  lemma {:induction false} LastTimeIsGreatest(clock: seq<int>, i: nat)
    requires i <= |clock|
    ensures var last := After(clock[..i]).lastTime;
            && last >= 0 && (forall k :: 0 <= k < i ==> clock[k] <= last)
            && (last == 0 || exists k :: 0 <= k < i && clock[k] == last)
  {
    if i > 0 {
      LastTimeIsGreatest(clock, i - 1);
      assert clock[..i][..i - 1] == clock[..i - 1];
    }
  }

  lemma BehindIsBeforeLastTime(clock: seq<int>, i: nat)
    requires i < |clock|
    ensures Behind(clock, i) <==> clock[i] < After(clock[..i]).lastTime
  {
    LastTimeIsGreatest(clock, i);
  }

  lemma {:induction false} ShiftCounts(clock: seq<int>, i: nat)
    requires i <= |clock|
    ensures After(clock[..i]).shift == Shifts(clock, i) && After(clock[..i]).shiftTime == LastBehind(clock, i)
  {
    if i > 0 {
      ShiftCounts(clock, i - 1);
      BehindIsBeforeLastTime(clock, i - 1);
      assert clock[..i][..i - 1] == clock[..i - 1];
    }
  }

  /** A call uses the reading of the clock, or, when that is behind, the number of changes so far. */
  lemma TimeFromReadings(clock: seq<int>, i: nat)
    requires i < |clock|
    ensures TimeOf(clock, i) == if Behind(clock, i) then Shifts(clock, i + 1) else clock[i]
  {
    ShiftCounts(clock, i);
    BehindIsBeforeLastTime(clock, i);
  }

  /** All calls behind between `i` and `j` see the same reading as call `i`. */
  ghost predicate StandsStill(clock: seq<int>, i: nat, j: nat)
    requires i <= j < |clock|
  {
    forall k :: i < k <= j && Behind(clock, k) ==> clock[k] == clock[i]
  }

  lemma {:induction false} SameShiftIff(clock: seq<int>, i: nat, j: nat)
    requires i <= j < |clock| && Behind(clock, i)
    ensures Shifts(clock, i + 1) <= Shifts(clock, j + 1)
    ensures Shifts(clock, i + 1) == Shifts(clock, j + 1) <==> StandsStill(clock, i, j)
    ensures StandsStill(clock, i, j) ==> LastBehind(clock, j + 1) == clock[i]
    decreases j
  {
    if i < j { SameShiftIff(clock, i, j - 1); }
  }

  /** Two calls get the same timestamp, in terms of what the clock shows. */
  ghost predicate SameTime(clock: seq<int>, i: nat, j: nat)
    requires i < j < |clock|
  {
    if Behind(clock, i) && Behind(clock, j) then StandsStill(clock, i, j)
    else if Behind(clock, i) then clock[j] == Shifts(clock, i + 1)
    else if Behind(clock, j) then clock[i] == Shifts(clock, j + 1)
    else clock[i] == clock[j]
  }

  lemma SameTimeIff(clock: seq<int>, i: nat, j: nat)
    requires i < j < |clock|
    ensures TimeOf(clock, i) == TimeOf(clock, j) <==> SameTime(clock, i, j)
  {
    TimeFromReadings(clock, i);
    TimeFromReadings(clock, j);
    if Behind(clock, i) { SameShiftIff(clock, i, j); }
  }

  ghost predicate Unique(clock: seq<int>) {
    forall i, j :: 0 <= i < j < |clock| ==> IdOf(clock, i) != IdOf(clock, j)
  }

  /**
   For any clock, forward or backward, the ids are unique exactly when no two calls a multiple
   of 10000 apart see the same time.
   */
  lemma UniqueIff(clock: seq<int>)
    ensures Unique(clock) <==>
              forall i, j :: 0 <= i < j < |clock| && (j - i) % 10000 == 0 ==> !SameTime(clock, i, j)
  {
    forall i, j | 0 <= i < j < |clock|
      ensures IdOf(clock, i) == IdOf(clock, j) <==> SameTime(clock, i, j) && (j - i) % SEQUENCES == 0
    {
      EqualIdsIff(clock, i, j);
      SameTimeIff(clock, i, j);
    }
  }

  lemma {:induction false} FewShifts(clock: seq<int>, n: nat)
    requires n <= |clock|
    ensures Shifts(clock, n) <= n
  {
    if n > 0 { FewShifts(clock, n - 1); }
  }

  /** Both calls show the same reading; if they are behind, so do all calls behind between them. */
  ghost predicate SameReading(clock: seq<int>, i: nat, j: nat)
    requires i < j < |clock|
  {
    clock[i] == clock[j] && (Behind(clock, i) <==> Behind(clock, j)) && (Behind(clock, i) ==> StandsStill(clock, i, j))
  }

  /**
   With an epoch further back, in milliseconds, than there are calls, the shift counter never
   meets the clock: only equal readings clash.
   */
  lemma UniqueWithDistantEpoch(clock: seq<int>)
    requires forall i :: 0 <= i < |clock| ==> clock[i] > |clock|
    ensures Unique(clock) <==>
              forall i, j :: 0 <= i < j < |clock| && (j - i) % 10000 == 0 ==> !SameReading(clock, i, j)
  {
    UniqueIff(clock);
    forall i, j | 0 <= i < j < |clock| ensures SameTime(clock, i, j) <==> SameReading(clock, i, j) {
      FewShifts(clock, i + 1);
      FewShifts(clock, j + 1);
    }
  }

  // ------------------------------------------------------ a clock that never goes back

  ghost predicate NeverGoesBack(clock: seq<int>) {
    && (forall i :: 0 <= i < |clock| ==> clock[i] >= 0)
    && forall i, j :: 0 <= i < j < |clock| ==> clock[i] <= clock[j]
  }

  lemma {:induction false} TimeIsClock(clock: seq<int>, i: nat)
    requires NeverGoesBack(clock) && i < |clock|
    ensures TimeOf(clock, i) == clock[i] && After(clock[..i]).lastTime <= clock[i]
  {
    if i > 0 {
      TimeIsClock(clock, i - 1);
      assert clock[..i][..i - 1] == clock[..i - 1];
    }
  }

  /** With at most 10000 calls in each millisecond, calls a multiple of 10000 apart see different times. */
  lemma NotTooFast(clock: seq<int>, i: nat, j: nat)
    requires NeverGoesBack(clock) && i < j < |clock| && (j - i) % 10000 == 0
    requires forall k :: 0 <= k < |clock| - 10000 ==> clock[k] != clock[k + 10000]
    ensures clock[i] != clock[j]
  {
    assert j - i >= 10000;
    assert clock[i] <= clock[i + 10000] && clock[i] != clock[i + 10000];
    assert i + 10000 < j ==> clock[i + 10000] <= clock[j];
  }

  /** The ids are unique exactly when no millisecond sees more than 10000 calls. */
  lemma UniqueIffNotTooFast(clock: seq<int>)
    requires NeverGoesBack(clock)
    ensures Unique(clock) <==> forall i :: 0 <= i < |clock| - 10000 ==> clock[i] != clock[i + 10000]
  {
    if forall i :: 0 <= i < |clock| - 10000 ==> clock[i] != clock[i + 10000] {
      forall i, j | 0 <= i < j < |clock| ensures IdOf(clock, i) != IdOf(clock, j) {
        EqualIdsIff(clock, i, j);
        TimeIsClock(clock, i);
        TimeIsClock(clock, j);
        if (j - i) % 10000 == 0 { NotTooFast(clock, i, j); }
      }
    }
    forall i | 0 <= i < |clock| - 10000 && clock[i] == clock[i + 10000]
      ensures IdOf(clock, i) == IdOf(clock, i + 10000)
    {
      EqualIdsIff(clock, i, i + 10000);
      TimeIsClock(clock, i);
      TimeIsClock(clock, i + 10000);
    }
  }
}

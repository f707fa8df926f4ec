/**
 The lock-free counter kept in two parts: whole increments go to an integer by an atomic add,
 the others to a float by a compare-and-swap loop. Arithmetic is exact.
 */
module Counter {
  import opened Wrappers

  /** A value that the conversion to an unsigned integer and back leaves alone. */
  predicate Whole(v: real) {
    v >= 0.0 && v.Floor as real == v
  }

  /** newCounter: the start value goes to one of the two parts. */
  function Start(val: real): (real, int) {
    if Whole(val) then (0.0, val.Floor) else (val, 0)
  }

  datatype Pc =
    | Idle
    | Retrying(val: real)                 // Inc: about to load the float part
    | Loaded(val: real, seen: real)       // Inc: about to compare and swap
    | Getting(low: real)                  // Get: about to load the float part; low is the total at its start
    | HalfRead(low: real, f: real)        // Get: about to load the integer part

  /** History of one finished Get: the totals at its start and end, and what it returned. */
  datatype Reading = Reading(low: real, value: real, high: real)

  /** `added` is the history of the increments that returned. */
  datatype State = State(valBits: real, valInt: int, threads: seq<Pc>, added: seq<real>, readings: seq<Reading>)

  function Init(val: real): State {
    State(Start(val).0, Start(val).1, [], [], [])
  }

  function Total(s: State): real {
    s.valBits + s.valInt as real
  }

  datatype Step =
    | Spawn
    | Inc(t: nat, val: real)
    | Load(t: nat)
    | Cas(t: nat)
    | Get(t: nat)
    | LoadFloat(t: nat)
    | LoadInt(t: nat)

  predicate Enabled(s: State, step: Step) {
    match step
    case Spawn => true
    case Inc(t, _) => t < |s.threads| && s.threads[t].Idle?
    case Load(t) => t < |s.threads| && s.threads[t].Retrying?
    case Cas(t) => t < |s.threads| && s.threads[t].Loaded?
    case Get(t) => t < |s.threads| && s.threads[t].Idle?
    case LoadFloat(t) => t < |s.threads| && s.threads[t].Getting?
    case LoadInt(t) => t < |s.threads| && s.threads[t].HalfRead?
  }

  function Do(s: State, step: Step): State
    requires Enabled(s, step)
  {
    match step
    case Spawn => s.(threads := s.threads + [Idle])
    case Inc(t, val) =>
      if val < 0.0 then s
      else if Whole(val) then s.(valInt := s.valInt + val.Floor, added := s.added + [val])
      else s.(threads := s.threads[t := Retrying(val)])
    case Load(t) => s.(threads := s.threads[t := Loaded(s.threads[t].val, s.valBits)])
    case Cas(t) =>
      var pc := s.threads[t];
      if s.valBits == pc.seen then
        s.(valBits := pc.seen + pc.val, threads := s.threads[t := Idle], added := s.added + [pc.val])
      else s.(threads := s.threads[t := Retrying(pc.val)])
    case Get(t) => s.(threads := s.threads[t := Getting(Total(s))])
    case LoadFloat(t) => s.(threads := s.threads[t := HalfRead(s.threads[t].low, s.valBits)])
    case LoadInt(t) =>
      var pc := s.threads[t];
      s.(threads := s.threads[t := Idle],
         readings := s.readings + [Reading(pc.low, pc.f + s.valInt as real, Total(s))])
  }

  ghost predicate Steps(s: State, s': State) {
    exists step :: Enabled(s, step) && s' == Do(s, step)
  }

  ghost predicate IsRun(run: seq<State>, val: real) {
    && |run| > 0 && run[0] == Init(val)
    && forall i :: 0 <= i < |run| - 1 ==> Steps(run[i], run[i + 1])
  }

  function Sum(vs: seq<real>): real {
    if vs == [] then 0.0 else Sum(vs[..|vs| - 1]) + vs[|vs| - 1]
  }

  ghost predicate PcOk(s: State, pc: Pc) {
    match pc
    case Retrying(val) => val > 0.0
    case Loaded(val, _) => val > 0.0
    case Getting(low) => low <= Total(s)
    case HalfRead(low, f) => f <= s.valBits && low <= f + s.valInt as real
    case Idle => true
  }

  ghost predicate Inv(s: State, val: real) {
    && Total(s) == val + Sum(s.added)
    && (forall t :: 0 <= t < |s.threads| ==> PcOk(s, s.threads[t]))
    && (forall i :: 0 <= i < |s.added| ==> s.added[i] >= 0.0)
    && (forall i :: 0 <= i < |s.readings| ==>
          s.readings[i].low <= s.readings[i].value <= s.readings[i].high <= Total(s))
  }

  lemma KeepSum(s: State, step: Step, val: real)
    requires Total(s) == val + Sum(s.added) && Enabled(s, step)
    ensures Total(Do(s, step)) == val + Sum(Do(s, step).added)
  {
    var s' := Do(s, step);
    if |s'.added| > |s.added| {
      assert s'.added[..|s.added|] == s.added;
    }
  }

  lemma NeverLess(s: State, step: Step)
    requires Enabled(s, step) && forall t :: 0 <= t < |s.threads| ==> PcOk(s, s.threads[t])
    ensures s.valBits <= Do(s, step).valBits && s.valInt <= Do(s, step).valInt
  {
    if step.Cas? { assert PcOk(s, s.threads[step.t]); }
  }

  lemma KeepThreads(s: State, step: Step)
    requires Enabled(s, step) && forall t :: 0 <= t < |s.threads| ==> PcOk(s, s.threads[t])
    ensures forall t :: 0 <= t < |Do(s, step).threads| ==> PcOk(Do(s, step), Do(s, step).threads[t])
  {
    var s' := Do(s, step);
    NeverLess(s, step);
    forall t | 0 <= t < |s'.threads| ensures PcOk(s', s'.threads[t]) {
      if t < |s.threads| { assert PcOk(s, s.threads[t]); }
    }
  }

  lemma KeepHistory(s: State, step: Step, val: real)
    requires Inv(s, val) && Enabled(s, step)
    ensures var s' := Do(s, step);
            && (forall i :: 0 <= i < |s'.added| ==> s'.added[i] >= 0.0)
            && (forall i :: 0 <= i < |s'.readings| ==>
                  s'.readings[i].low <= s'.readings[i].value <= s'.readings[i].high <= Total(s'))
  {
    NeverLess(s, step);
    if step.Cas? || step.LoadInt? { assert PcOk(s, s.threads[step.t]); }
  }

  lemma InvKept(s: State, step: Step, val: real)
    requires Inv(s, val) && Enabled(s, step)
    ensures Inv(Do(s, step), val)
  {
    KeepSum(s, step, val);
    KeepThreads(s, step);
    KeepHistory(s, step, val);
  }

  lemma {:induction false} ReachableInv(run: seq<State>, i: nat, val: real)
    requires IsRun(run, val) && i < |run|
    ensures Inv(run[i], val)
  {
    if i > 0 {
      ReachableInv(run, i - 1, val);
      assert Steps(run[i - 1], run[i - 1 + 1]);
      var step :| Enabled(run[i - 1], step) && run[i] == Do(run[i - 1], step);
      InvKept(run[i - 1], step, val);
    }
  }

  /** No increment is lost, however the loops race: the value is the start value plus all finished increments. */
  lemma NoIncrementIsLost(run: seq<State>, i: nat, val: real)
    requires IsRun(run, val) && i < |run|
    ensures Total(run[i]) == val + Sum(run[i].added)
    ensures forall k :: 0 <= k < |run[i].added| ==> run[i].added[k] >= 0.0
  {
    ReachableInv(run, i, val);
  }

  /** A Get, though it reads the two parts at different times, returns a value between the totals at its start and end. */
  lemma GetIsBetween(run: seq<State>, i: nat, val: real, k: nat)
    requires IsRun(run, val) && i < |run| && k < |run[i].readings|
    ensures run[i].readings[k].low <= run[i].readings[k].value <= run[i].readings[k].high
  {
    ReachableInv(run, i, val);
  }

  /** The value never goes down. */
  lemma {:induction false} TotalNeverDecreases(run: seq<State>, i: nat, j: nat, val: real)
    requires IsRun(run, val) && i <= j < |run|
    ensures Total(run[i]) <= Total(run[j])
    decreases j
  {
    if i < j {
      TotalNeverDecreases(run, i, j - 1, val);
      ReachableInv(run, j - 1, val);
      assert Steps(run[j - 1], run[j - 1 + 1]);
      var step :| Enabled(run[j - 1], step) && run[j] == Do(run[j - 1], step);
      NeverLess(run[j - 1], step);
    }
  }

  /** Taking over a counter keeps its value, whole or not, negative or not. */
  lemma StartKeepsValue(val: real)
    ensures Total(Init(val)) == val
  {
  }

  /** Gets that follow one another never go back: a later one starts at no less than what an earlier one returned. */
  lemma LaterGetStartsHigher(run: seq<State>, i: nat, j: nat, k: nat, t: nat, val: real)
    requires IsRun(run, val) && i <= j < |run| && k < |run[i].readings| && Enabled(run[j], Get(t))
    ensures run[i].readings[k].value <= Do(run[j], Get(t)).threads[t].low
  {
    ReachableInv(run, i, val);
    TotalNeverDecreases(run, i, j, val);
  }
}

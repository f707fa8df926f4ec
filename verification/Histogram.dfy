/**
 Histograms: the two builders of bucket bounds (the toolkit's, used before the agent is up, and
 the agent's own), the bucket search they share, and the hand-over of live bucket cells from
 one to the other. Values are reals: no NaN and no rounding.
 */
module Histogram {
  import opened Wrappers

  datatype Panic = IndexOutOfRange | DuplicateStep

  // ----------------------------------------------------------------- sorted steps

  ghost predicate Sorted(s: seq<real>) {
    forall i, j :: 0 <= i < j < |s| ==> s[i] <= s[j]
  }

  ghost predicate StrictlyIncreasing(s: seq<real>) {
    forall i, j :: 0 <= i < j < |s| ==> s[i] < s[j]
  }

  ghost predicate Distinct(s: seq<real>) {
    forall i, j :: 0 <= i < j < |s| ==> s[i] != s[j]
  }

  function Insert(s: seq<real>, x: real): seq<real> {
    if s == [] || s[|s| - 1] <= x then s + [x] else Insert(s[..|s| - 1], x) + [s[|s| - 1]]
  }

  /** The sorted permutation of a sequence. */
  function Sort(s: seq<real>): seq<real> {
    if s == [] then [] else Insert(Sort(s[..|s| - 1]), s[|s| - 1])
  }

  lemma {:induction false} InsertAt(s: seq<real>, x: real, k: nat)
    requires k <= |s| && (k > 0 ==> s[k - 1] <= x) && forall i :: k <= i < |s| ==> s[i] > x
    ensures Insert(s, x) == s[..k] + [x] + s[k..]
  {
    if k < |s| {
      var init := s[..|s| - 1];
      InsertAt(init, x, k);
      assert s[k..] == init[k..] + [s[|s| - 1]] && init[..k] == s[..k];
    } else {
      assert s[..k] == s;
    }
  }

  lemma {:induction false} InsertIsPermutation(s: seq<real>, x: real)
    ensures multiset(Insert(s, x)) == multiset(s) + multiset{x}
  {
    if s != [] && s[|s| - 1] > x {
      InsertIsPermutation(s[..|s| - 1], x);
      assert s == s[..|s| - 1] + [s[|s| - 1]];
    }
  }

  lemma {:induction false} InsertKeepsSorted(s: seq<real>, x: real)
    requires Sorted(s)
    ensures Sorted(Insert(s, x))
  {
    if s != [] && s[|s| - 1] > x {
      var init, last := s[..|s| - 1], s[|s| - 1];
      InsertKeepsSorted(init, x);
      InsertBelow(init, x, last);
    }
  }

  lemma {:induction false} InsertBelow(s: seq<real>, x: real, top: real)
    requires x <= top && forall i :: 0 <= i < |s| ==> s[i] <= top
    ensures forall i :: 0 <= i < |Insert(s, x)| ==> Insert(s, x)[i] <= top
  {
    if s != [] && s[|s| - 1] > x { InsertBelow(s[..|s| - 1], x, top); }
  }

  lemma {:induction false} SortIsSorted(s: seq<real>)
    ensures Sorted(Sort(s)) && multiset(Sort(s)) == multiset(s) && |Sort(s)| == |s|
  {
    if s != [] {
      var init, last := s[..|s| - 1], s[|s| - 1];
      assert s == init + [last];
      SortIsSorted(init);
      InsertKeepsSorted(Sort(init), last);
      InsertIsPermutation(Sort(init), last);
      assert |multiset(Sort(s))| == |Sort(s)|;
    }
  }

  lemma LastIsGreatest(a: seq<real>, x: real)
    requires Sorted(a) && x in multiset(a)
    ensures a != [] && x <= a[|a| - 1]
  {
    var i :| 0 <= i < |a| && a[i] == x;
  }

  lemma DropLast(a: seq<real>)
    requires a != [] && Sorted(a)
    ensures multiset(a[..|a| - 1]) == multiset(a) - multiset{a[|a| - 1]} && Sorted(a[..|a| - 1])
    ensures a == a[..|a| - 1] + [a[|a| - 1]]
  {
    assert a == a[..|a| - 1] + [a[|a| - 1]];
  }

  lemma SameGreatest(a: seq<real>, b: seq<real>)
    requires Sorted(a) && Sorted(b) && multiset(a) == multiset(b)
    ensures |a| == |b| && (a != [] ==> a[|a| - 1] == b[|b| - 1])
  {
    assert |multiset(a)| == |a| && |multiset(b)| == |b|;
    if a != [] {
      var x, y := a[|a| - 1], b[|b| - 1];
      assert x in multiset(a) && y in multiset(b);
      LastIsGreatest(b, x);
      LastIsGreatest(a, y);
    }
  }

  /** There is only one sorted permutation, so `Sort` is what any correct sort returns. */
  lemma {:induction false} SortedIsUnique(a: seq<real>, b: seq<real>)
    requires Sorted(a) && Sorted(b) && multiset(a) == multiset(b)
    ensures a == b
  {
    SameGreatest(a, b);
    if a != [] {
      DropLast(a);
      DropLast(b);
      SortedIsUnique(a[..|a| - 1], b[..|b| - 1]);
    }
  }

  /** Sorting shows a repetition next to itself. */
  lemma DistinctIffIncreasing(s: seq<real>)
    ensures Distinct(s) <==> StrictlyIncreasing(Sort(s))
  {
    SortIsSorted(s);
    DistinctIsAboutTheMultiset(s);
    DistinctIsAboutTheMultiset(Sort(s));
    if Distinct(Sort(s)) {
      assert StrictlyIncreasing(Sort(s));
    }
    if StrictlyIncreasing(Sort(s)) {
      assert Distinct(Sort(s));
    }
  }

  lemma {:induction false} DistinctIsAboutTheMultiset(s: seq<real>)
    ensures Distinct(s) <==> forall x :: x in s ==> multiset(s)[x] == 1
  {
    if s != [] {
      var init, last := s[..|s| - 1], s[|s| - 1];
      assert s == init + [last];
      DistinctIsAboutTheMultiset(init);
      if Distinct(s) {
        assert last !in init;
        forall x | x in s ensures multiset(s)[x] == 1 {
          assert x in init || x == last;
        }
      }
      if forall x :: x in s ==> multiset(s)[x] == 1 {
        assert last in s && multiset(s)[last] == 1;
        assert last !in multiset(init);
        forall x | x in init ensures multiset(init)[x] == 1 {
          assert x in s;
        }
      }
    }
  }

  // ------------------------------------------------------------------ the builders

  /** The least bound goes in front unless it is already there. */
  function WithMin(minVal: real, sorted: seq<real>): seq<real>
    requires sorted != []
  {
    if sorted[0] != minVal then [minVal] + sorted else sorted
  }

  /** What the toolkit's insertion sort notices: a step that occurred before and that none before exceeds. */
  ghost predicate RepeatsMaximum(steps: seq<real>, i: nat)
    requires 0 < i < |steps|
  {
    (exists k :: 0 <= k < i && steps[k] == steps[i]) && forall k :: 0 <= k < i ==> steps[k] <= steps[i]
  }

  /** In the sorted steps before, that is the last one. */
  lemma RepeatsMaximumMeans(steps: seq<real>, i: nat)
    requires 0 < i < |steps|
    ensures |Sort(steps[..i])| == i && (RepeatsMaximum(steps, i) <==> Sort(steps[..i])[i - 1] == steps[i])
  {
    var before := steps[..i];
    SortIsSorted(before);
    var sorted := Sort(before);
    GreatestIsLast(before, sorted);
    if sorted[i - 1] == steps[i] {
      var k :| 0 <= k < i && before[k] == steps[i];
      assert steps[k] == steps[i];
      assert forall k :: 0 <= k < i ==> steps[k] == before[k];
    }
    if RepeatsMaximum(steps, i) {
      var k :| 0 <= k < i && steps[k] == steps[i];
      assert before[k] == steps[i];
      LastIsGreatest(sorted, steps[i]);
    }
  }

  lemma GreatestIsLast(s: seq<real>, sorted: seq<real>)
    requires s != [] && Sorted(sorted) && multiset(s) == multiset(sorted)
    ensures sorted != [] && sorted[|sorted| - 1] in s && forall k :: 0 <= k < |s| ==> s[k] <= sorted[|sorted| - 1]
  {
    assert s[0] in multiset(sorted);
    assert sorted[|sorted| - 1] in multiset(s);
    forall k | 0 <= k < |s| ensures s[k] <= sorted[|sorted| - 1] {
      assert s[k] in multiset(sorted);
      LastIsGreatest(sorted, s[k]);
    }
  }

  /** initBuckets: insertion sort in place, with the check against the element before. */
  method InitBuckets(minVal: real, steps: array<real>) returns (bounds: Result<seq<real>, Panic>)
    modifies steps
    ensures bounds == Err(IndexOutOfRange) <==> steps.Length == 0
    ensures bounds == Err(DuplicateStep) <==> exists i :: 0 < i < steps.Length && RepeatsMaximum(old(steps[..]), i)
    ensures bounds.Ok? ==> steps.Length > 0 && steps[..] == Sort(old(steps[..])) && |Sort(old(steps[..]))| == steps.Length
                           && bounds.value == WithMin(minVal, Sort(old(steps[..])))
  {
    if steps.Length == 0 { return Err(IndexOutOfRange); }
    ghost var was := steps[..];
    SortIsSorted(was);
    var repeated := InsertionSort(steps);
    if repeated { return Err(DuplicateStep); }
    return Ok(WithMin(minVal, steps[..]));
  }

  method InsertionSort(steps: array<real>) returns (repeated: bool)
    requires steps.Length > 0
    modifies steps
    ensures repeated <==> exists i :: 0 < i < steps.Length && RepeatsMaximum(old(steps[..]), i)
    ensures !repeated ==> steps[..] == Sort(old(steps[..]))
  {
    ghost var was := steps[..];
    assert was[..1] == [was[0]] && was[..1][..0] == [];
    for i := 1 to steps.Length
      invariant SortedSoFar(steps[..], was, i)
      invariant forall k :: 0 < k < i ==> !RepeatsMaximum(was, k)
    {
      NextKey(steps[..], was, i);
      if steps[i - 1] == steps[i] { return true; }
      InsertKey(steps, i, steps[..i]);
      assert steps[i + 1..] == was[i..][1..];
    }
    assert was[..steps.Length] == was && steps[..steps.Length] == steps[..];
    return false;
  }

  /** The first `i` steps are sorted, the others untouched. */
  ghost predicate SortedSoFar(now: seq<real>, was: seq<real>, i: nat) {
    i <= |now| == |was| && now[..i] == Sort(was[..i]) && now[i..] == was[i..]
  }

  /** With the first `i` steps sorted, what the check sees and what the inner loop completes. */
  lemma NextKey(now: seq<real>, was: seq<real>, i: nat)
    requires 0 < i < |now| && SortedSoFar(now, was, i)
    ensures Sorted(now[..i]) && Insert(now[..i], now[i]) == Sort(was[..i + 1])
    ensures now[i - 1] == now[i] <==> RepeatsMaximum(was, i)
  {
    SortIsSorted(was[..i]);
    RepeatsMaximumMeans(was, i);
    assert now[i] == now[i..][0] == was[i] && now[i - 1] == now[..i][i - 1];
    SortStep(was, i);
  }

  lemma SortStep(s: seq<real>, i: nat)
    requires i < |s|
    ensures Sort(s[..i + 1]) == Insert(Sort(s[..i]), s[i])
  {
    var longer := s[..i + 1];
    assert longer[..|longer| - 1] == s[..i] && longer[|longer| - 1] == s[i];
  }

  /** The inner loop: shifts the greater elements up and puts the key in the gap. */
  method InsertKey(steps: array<real>, i: nat, ghost sorted: seq<real>)
    requires 0 < i < steps.Length && steps[..i] == sorted && Sorted(sorted)
    modifies steps
    ensures steps[..i + 1] == Insert(sorted, old(steps[i])) && steps[i + 1..] == old(steps[i + 1..])
  {
    var key := steps[i];
    var j := i - 1;
    ghost var was := steps[..];
    while j >= 0 && steps[j] > key
      invariant -1 <= j < i
      invariant forall k :: 0 <= k <= j ==> steps[k] == sorted[k]
      invariant forall k :: j < k < i ==> steps[k + 1] == sorted[k] && sorted[k] > key
      invariant forall k :: i < k < steps.Length ==> steps[k] == was[k]
    {
      steps[j + 1] := steps[j];
      j := j - 1;
    }
    steps[j + 1] := key;
    Assembled(steps[..], was, sorted, key, j + 1, i);
  }

  lemma Assembled(now: seq<real>, was: seq<real>, sorted: seq<real>, key: real, k: nat, i: nat)
    requires k <= i < |now| == |was| && |sorted| == i
    requires forall m :: 0 <= m < k ==> now[m] == sorted[m]
    requires now[k] == key && (k > 0 ==> sorted[k - 1] <= key)
    requires forall m :: k <= m < i ==> now[m + 1] == sorted[m] && sorted[m] > key
    requires forall m :: i < m < |now| ==> now[m] == was[m]
    ensures now[..i + 1] == Insert(sorted, key) && now[i + 1..] == was[i + 1..]
  {
    InsertAt(sorted, key, k);
    var expected := sorted[..k] + [key] + sorted[k..];
    forall m | 0 <= m < i + 1 ensures now[m] == expected[m] {
      if m > k { assert now[m - 1 + 1] == sorted[m - 1]; }
    }
  }

  /** sort.Float64s: the slice becomes its sorted permutation. */
  method SortFloat64s(steps: array<real>)
    modifies steps
    ensures steps[..] == Sort(old(steps[..]))
  {
    var sorted := Sort(steps[..]);
    SortIsSorted(steps[..]);
    forall i | 0 <= i < steps.Length { steps[i] := sorted[i]; }
  }

  /** newHistogramFromSteps: sort, look for equal neighbours, put the least bound in front. */
  method BoundsFromSteps(minVal: real, steps: array<real>) returns (bounds: Result<seq<real>, Panic>)
    modifies steps
    ensures steps[..] == Sort(old(steps[..]))
    ensures bounds == Err(IndexOutOfRange) <==> steps.Length == 0
    ensures bounds == Err(DuplicateStep) <==> !Distinct(old(steps[..]))
    ensures bounds.Ok? ==> |Sort(old(steps[..]))| > 0 && bounds.value == WithMin(minVal, Sort(old(steps[..])))
  {
    ghost var was := steps[..];
    SortFloat64s(steps);
    SortIsSorted(was);
    DistinctIffIncreasing(was);
    if steps.Length == 0 { return Err(IndexOutOfRange); }
    var repeated := EqualNeighbours(steps);
    if repeated { return Err(DuplicateStep); }
    return Ok(WithMin(minVal, steps[..]));
  }

  method EqualNeighbours(steps: array<real>) returns (repeated: bool)
    requires steps.Length > 0 && Sorted(steps[..])
    ensures repeated <==> !StrictlyIncreasing(steps[..])
  {
    ghost var sorted := steps[..];
    var prevVal := steps[0];
    for i := 1 to steps.Length
      invariant prevVal == steps[i - 1]
      invariant forall k :: 0 < k < i ==> sorted[k - 1] < sorted[k]
    {
      assert sorted[i - 1] <= sorted[i];
      if prevVal == steps[i] {
        assert !(sorted[i - 1] < sorted[i]);
        return true;
      }
      prevVal := steps[i];
    }
    NeighboursSuffice(sorted);
    return false;
  }

  lemma {:induction false} NeighboursSuffice(s: seq<real>)
    requires forall k :: 0 < k < |s| ==> s[k - 1] < s[k]
    ensures StrictlyIncreasing(s)
  {
    if s != [] {
      NeighboursSuffice(s[..|s| - 1]);
      forall i | 0 <= i < |s| - 1 ensures s[i] < s[|s| - 1] {
        assert i < |s| - 2 ==> s[..|s| - 1][i] < s[..|s| - 1][|s| - 2];
      }
    }
  }

  /**
   The two builders agree, on the bounds or on the panic, exactly when the steps are distinct
   or one of them repeats the greatest before it; in particular for distinct steps.
   */
  method BuildersAgree(minVal: real, steps: seq<real>) returns (toolkit: Result<seq<real>, Panic>, agent: Result<seq<real>, Panic>)
    ensures toolkit == agent <==> Distinct(steps) || exists i :: 0 < i < |steps| && RepeatsMaximum(steps, i)
    ensures agent.Ok? ==> toolkit == agent
  {
    var a, b := new real[|steps|](i requires 0 <= i < |steps| => steps[i]), new real[|steps|](i requires 0 <= i < |steps| => steps[i]);
    assert a[..] == steps && b[..] == steps;
    toolkit := InitBuckets(minVal, a);
    assert b[..] == steps;
    agent := BoundsFromSteps(minVal, b);
    Agreement(steps, WithMinOf(minVal, steps), toolkit, agent);
  }

  /** What both builders return when they do not panic. */
  function WithMinOf(minVal: real, steps: seq<real>): seq<real> {
    if Sort(steps) == [] then [] else WithMin(minVal, Sort(steps))
  }

  lemma Agreement(steps: seq<real>, bounds: seq<real>, toolkit: Result<seq<real>, Panic>, agent: Result<seq<real>, Panic>)
    requires toolkit == Err(IndexOutOfRange) <==> steps == []
    requires agent == Err(IndexOutOfRange) <==> steps == []
    requires toolkit == Err(DuplicateStep) <==> exists i :: 0 < i < |steps| && RepeatsMaximum(steps, i)
    requires agent == Err(DuplicateStep) <==> !Distinct(steps)
    requires (toolkit.Ok? ==> toolkit.value == bounds) && (agent.Ok? ==> agent.value == bounds)
    ensures toolkit == agent <==> Distinct(steps) || exists i :: 0 < i < |steps| && RepeatsMaximum(steps, i)
    ensures agent.Ok? ==> toolkit == agent
  {
    match toolkit {
      case Ok(_) =>
      case Err(p) => assert p.IndexOutOfRange? || p.DuplicateStep?;
    }
    match agent {
      case Ok(_) =>
      case Err(p) => assert p.IndexOutOfRange? || p.DuplicateStep?;
    }
  }

  /** The bounds of either builder increase strictly exactly for distinct steps and a least bound not above them. */
  lemma BoundsIncreaseIff(minVal: real, steps: seq<real>)
    requires steps != []
    ensures |Sort(steps)| > 0
    ensures StrictlyIncreasing(WithMin(minVal, Sort(steps))) <==>
              Distinct(steps) && forall x :: x in steps ==> minVal <= x
  {
    SortIsSorted(steps);
    DistinctIffIncreasing(steps);
    LeastOfSorted(steps);
    WithMinIncreases(minVal, Sort(steps));
  }

  lemma LeastOfSorted(steps: seq<real>)
    requires steps != [] && Sorted(Sort(steps)) && multiset(Sort(steps)) == multiset(steps) && |Sort(steps)| > 0
    ensures Sort(steps)[0] in steps && forall x :: x in steps ==> Sort(steps)[0] <= x
  {
    var sorted := Sort(steps);
    assert sorted[0] in multiset(sorted);
    forall x | x in steps ensures sorted[0] <= x {
      assert x in multiset(sorted);
      var i :| 0 <= i < |sorted| && sorted[i] == x;
    }
  }

  lemma WithMinIncreases(minVal: real, sorted: seq<real>)
    requires sorted != []
    ensures StrictlyIncreasing(WithMin(minVal, sorted)) <==> StrictlyIncreasing(sorted) && minVal <= sorted[0]
  {
    if sorted[0] != minVal {
      var b := [minVal] + sorted;
      assert forall i :: 0 <= i < |sorted| ==> b[i + 1] == sorted[i];
      if StrictlyIncreasing(b) {
        assert b[0] < b[1];
        forall i, j | 0 <= i < j < |sorted| ensures sorted[i] < sorted[j] { assert b[i + 1] < b[j + 1]; }
      }
    }
  }

  /** A repetition that is not of the running maximum escapes the toolkit's check, not the agent's. */
  lemma ToolkitMissesARepetition(steps: seq<real>, i: nat)
    requires |steps| == 3 && steps[0] == steps[2] < steps[1] && 0 < i < 3
    ensures !Distinct(steps) && !RepeatsMaximum(steps, i)
  {
  }

  /** Whatever repetition escapes gives bounds that do not increase strictly. */
  lemma MissedRepetitionShows(minVal: real, steps: seq<real>)
    requires steps != [] && !Distinct(steps)
    ensures |Sort(steps)| > 0 && !StrictlyIncreasing(WithMin(minVal, Sort(steps)))
  {
    BoundsIncreaseIff(minVal, steps);
  }

  // -------------------------------------------------------------------- the search

  /** Binary search for the last bound not above `v`, on any list of bounds. */
  function Search(bounds: seq<real>, v: real, low: int, high: int): (r: Option<nat>)
    requires 0 <= low && high < |bounds|
    ensures r.Some? ==> r.value < |bounds|
    decreases high - low + 1
  {
    if low > high then (if 0 <= low - 1 < |bounds| then Some(low - 1) else None)
    else
      var mid := (low + high) / 2;
      if bounds[mid] < v then Search(bounds, v, mid + 1, high)
      else if bounds[mid] > v then Search(bounds, v, low, mid - 1)
      else Some(mid)
  }

  function BucketOf(bounds: seq<real>, v: real): Option<nat> {
    Search(bounds, v, 0, |bounds| - 1)
  }

  method FindBucket(bounds: seq<real>, v: real) returns (r: Option<nat>)
    ensures r == BucketOf(bounds, v)
  {
    var low, high := 0, |bounds| - 1;
    while low <= high
      invariant 0 <= low && high < |bounds|
      invariant BucketOf(bounds, v) == Search(bounds, v, low, high)
      decreases high - low + 1
    {
      var mid := (low + high) / 2;
      if bounds[mid] < v {
        low := mid + 1;
      } else if bounds[mid] > v {
        high := mid - 1;
      } else {
        return Some(mid);
      }
    }
    low := low - 1;
    if low < |bounds| && low >= 0 { return Some(low); }
    return None;
  }

  ghost predicate GreatestNotAbove(bounds: seq<real>, v: real, r: Option<nat>) {
    match r
    case Some(k) => k < |bounds| && forall i :: 0 <= i < |bounds| ==> (bounds[i] <= v <==> i <= k)
    case None => forall i :: 0 <= i < |bounds| ==> v < bounds[i]
  }

  lemma {:induction false} SearchFinds(bounds: seq<real>, v: real, low: int, high: int)
    requires StrictlyIncreasing(bounds) && 0 <= low <= high + 1 && high < |bounds|
    requires forall i :: 0 <= i < low ==> bounds[i] < v
    requires forall i :: high < i < |bounds| ==> bounds[i] > v
    ensures GreatestNotAbove(bounds, v, Search(bounds, v, low, high))
    decreases high - low + 1
  {
    if low <= high {
      var mid := (low + high) / 2;
      if bounds[mid] < v {
        SearchFinds(bounds, v, mid + 1, high);
      } else if bounds[mid] > v {
        SearchFinds(bounds, v, low, mid - 1);
      }
    }
  }

  /** Over increasing bounds the bucket of a value is that of the greatest bound not above it. */
  lemma BucketIsGreatestNotAbove(bounds: seq<real>, v: real)
    requires StrictlyIncreasing(bounds)
    ensures GreatestNotAbove(bounds, v, BucketOf(bounds, v))
    ensures bounds != [] ==> (BucketOf(bounds, v).None? <==> v < bounds[0])
  {
    SearchFinds(bounds, v, 0, |bounds| - 1);
  }

  // --------------------------------------------------- live cells and the hand-over

  class Cell {
    var value: int

    constructor ()
      ensures value == 0
    {
      value := 0;
    }
  }

  datatype Bucket = Bucket(bound: real, cell: Cell)

  function Bounds(buckets: seq<Bucket>): seq<real> {
    seq(|buckets|, i requires 0 <= i < |buckets| => buckets[i].bound)
  }

  ghost predicate DistinctCells(buckets: seq<Bucket>) {
    forall i, j :: 0 <= i < j < |buckets| ==> buckets[i].cell != buckets[j].cell
  }

  ghost function Cells(buckets: seq<Bucket>): set<Cell> {
    set i | 0 <= i < |buckets| :: buckets[i].cell
  }

  /** The cells hold these counts. */
  ghost predicate Shows(buckets: seq<Bucket>, counts: seq<int>)
    reads Cells(buckets)
  {
    |counts| == |buckets| && forall i :: 0 <= i < |buckets| ==> buckets[i].cell.value == counts[i]
  }

  datatype Observation = Observation(value: real, count: int)

  /** One observation in the reference histogram. */
  function Counted(bounds: seq<real>, counts: seq<int>, o: Observation): seq<int>
    requires |counts| == |bounds|
  {
    match BucketOf(bounds, o.value)
    case Some(k) => counts[k := counts[k] + o.count]
    case None => counts
  }

  function Reference(bounds: seq<real>, obs: seq<Observation>): (counts: seq<int>)
    ensures |counts| == |bounds|
  {
    if obs == [] then seq(|bounds|, i => 0)
    else Counted(bounds, Reference(bounds, obs[..|obs| - 1]), obs[|obs| - 1])
  }

  /** The value belongs to bucket `k`: not below its bound, and below the next one if there is one. */
  predicate InBucket(bounds: seq<real>, k: nat, v: real)
    requires k < |bounds|
  {
    bounds[k] <= v && (k == |bounds| - 1 || v < bounds[k + 1])
  }

  /** The counts of the observations that belong to bucket `k`, added up. */
  function CountIn(bounds: seq<real>, obs: seq<Observation>, k: nat): int
    requires k < |bounds|
  {
    if obs == [] then 0
    else
      var last := obs[|obs| - 1];
      CountIn(bounds, obs[..|obs| - 1], k) + if InBucket(bounds, k, last.value) then last.count else 0
  }

  lemma BucketOfMeans(bounds: seq<real>, v: real, k: nat)
    requires StrictlyIncreasing(bounds) && k < |bounds|
    ensures BucketOf(bounds, v) == Some(k) <==> InBucket(bounds, k, v)
  {
    BucketIsGreatestNotAbove(bounds, v);
  }

  /** For increasing bounds, each bucket of the reference counts exactly the observations that belong to it. */
  lemma {:induction false} ReferenceCounts(bounds: seq<real>, obs: seq<Observation>, k: nat)
    requires StrictlyIncreasing(bounds) && k < |bounds|
    ensures Reference(bounds, obs)[k] == CountIn(bounds, obs, k)
  {
    if obs != [] {
      ReferenceCounts(bounds, obs[..|obs| - 1], k);
      BucketOfMeans(bounds, obs[|obs| - 1].value, k);
    }
  }

  method AddToBucket(buckets: seq<Bucket>, o: Observation, ghost counts: seq<int>)
    requires DistinctCells(buckets) && Shows(buckets, counts)
    modifies Cells(buckets)
    ensures Shows(buckets, Counted(Bounds(buckets), counts, o))
  {
    var b := FindBucket(Bounds(buckets), o.value);
    if b.Some? {
      var cell := buckets[b.value].cell;
      assert cell in Cells(buckets);
      cell.value := cell.value + o.count;
    }
  }

  /** The agent's histogram. */
  class AgentHistogram {
    const buckets: seq<Bucket>

    /** newHistogramFromExistingBuckets: the new buckets point to the existing cells. */
    constructor FromExisting(existing: seq<Bucket>)
      ensures buckets == existing
    {
      buckets := seq(|existing|, i requires 0 <= i < |existing| => Bucket(existing[i].bound, existing[i].cell));
    }

    method ObserveWithCount(o: Observation, ghost counts: seq<int>)
      requires DistinctCells(buckets) && Shows(buckets, counts)
      modifies Cells(buckets)
      ensures Shows(buckets, Counted(Bounds(buckets), counts, o))
    {
      AddToBucket(buckets, o, counts);
    }
  }

  /** The toolkit's histogram; its observe function is replaced when the agent takes over. */
  class ToolkitHistogram {
    const buckets: seq<Bucket>
    var agent: AgentHistogram?

    ghost predicate Valid()
      reads this
    {
      DistinctCells(buckets) && (agent != null ==> agent.buckets == buckets)
    }

    constructor (bounds: seq<real>)
      ensures Valid() && agent == null && Bounds(buckets) == bounds
      ensures fresh(Cells(buckets)) && Shows(buckets, Reference(bounds, []))
    {
      var bs: seq<Bucket> := [];
      for i := 0 to |bounds|
        invariant |bs| == i && forall k :: 0 <= k < i ==> bs[k].bound == bounds[k] && bs[k].cell.value == 0 && fresh(bs[k].cell)
        invariant DistinctCells(bs)
      {
        var cell := new Cell();
        bs := bs + [Bucket(bounds[i], cell)];
      }
      buckets := bs;
      agent := null;
      new;
      assert Bounds(buckets) == bounds;
    }

    method ChangeFunctions(h: AgentHistogram)
      requires Valid() && h.buckets == buckets
      modifies `agent
      ensures Valid() && agent == h
    {
      agent := h;
    }

    method ObserveWithCount(o: Observation, ghost counts: seq<int>)
      requires Valid() && Shows(buckets, counts)
      modifies Cells(buckets)
      ensures Shows(buckets, Counted(Bounds(buckets), counts, o))
    {
      if agent != null { agent.ObserveWithCount(o, counts); } else { AddToBucket(buckets, o, counts); }
    }
  }

  /**
   Observations before the hand-over, and after it through either object, in any order:
   both histograms end with the counts of one reference histogram.
   */
  method ObserveAcrossHandOver(bounds: seq<real>, before: seq<Observation>, after: seq<Observation>, direct: seq<bool>)
    returns (h: ToolkitHistogram, agent: AgentHistogram)
    requires |direct| == |after|
    ensures fresh(h) && fresh(agent) && agent.buckets == h.buckets && Bounds(h.buckets) == bounds
    ensures Shows(h.buckets, Reference(bounds, before + after)) && Shows(agent.buckets, Reference(bounds, before + after))
    ensures StrictlyIncreasing(bounds) ==>
              forall k :: 0 <= k < |bounds| ==> agent.buckets[k].cell.value == CountIn(bounds, before + after, k)
  {
    h := ObserveBefore(bounds, before);
    agent := new AgentHistogram.FromExisting(h.buckets);
    h.ChangeFunctions(agent);
    ObserveAfter(h, agent, before, after, direct);
    if StrictlyIncreasing(bounds) {
      forall k | 0 <= k < |bounds| ensures agent.buckets[k].cell.value == CountIn(bounds, before + after, k) {
        ReferenceCounts(bounds, before + after, k);
      }
    }
  }

  method ObserveBefore(bounds: seq<real>, before: seq<Observation>) returns (h: ToolkitHistogram)
    ensures h.Valid() && fresh(h) && h.agent == null && fresh(Cells(h.buckets)) && Bounds(h.buckets) == bounds
    ensures Shows(h.buckets, Reference(bounds, before))
  {
    h := new ToolkitHistogram(bounds);
    assert before[..0] == [];
    for i := 0 to |before|
      invariant h.Valid() && h.agent == null && Bounds(h.buckets) == bounds
      invariant Shows(h.buckets, Reference(bounds, before[..i]))
    {
      assert before[..i + 1][..i] == before[..i];
      h.ObserveWithCount(before[i], Reference(bounds, before[..i]));
    }
    assert before[..|before|] == before;
  }

  lemma OneMore(bounds: seq<real>, before: seq<Observation>, after: seq<Observation>, i: nat)
    requires i < |after|
    ensures Reference(bounds, before + after[..i + 1]) == Counted(bounds, Reference(bounds, before + after[..i]), after[i])
  {
    assert (before + after[..i + 1])[..|before| + i] == before + after[..i];
  }

  method ObserveAfter(h: ToolkitHistogram, agent: AgentHistogram, before: seq<Observation>, after: seq<Observation>, direct: seq<bool>)
    requires h.Valid() && h.agent == agent && |direct| == |after|
    requires Shows(h.buckets, Reference(Bounds(h.buckets), before))
    modifies Cells(h.buckets)
    ensures Shows(h.buckets, Reference(Bounds(h.buckets), before + after))
  {
    ghost var bounds := Bounds(h.buckets);
    assert before + after[..0] == before;
    for i := 0 to |after|
      invariant h.Valid() && h.agent == agent
      invariant Shows(h.buckets, Reference(bounds, before + after[..i]))
    {
      ghost var counts := Reference(bounds, before + after[..i]);
      OneMore(bounds, before, after, i);
      if direct[i] { agent.ObserveWithCount(after[i], counts); } else { h.ObserveWithCount(after[i], counts); }
    }
    assert after[..|after|] == after;
  }

  function Sum(counts: seq<int>): int {
    if counts == [] then 0 else Sum(counts[..|counts| - 1]) + counts[|counts| - 1]
  }

  /** The observations not below the first bound. */
  function Observed(bounds: seq<real>, obs: seq<Observation>): int {
    if obs == [] then 0
    else
      var last := obs[|obs| - 1];
      Observed(bounds, obs[..|obs| - 1]) + if bounds != [] && bounds[0] <= last.value then last.count else 0
  }

  lemma {:induction false} SumUpdate(counts: seq<int>, k: nat, c: int)
    requires k < |counts|
    ensures Sum(counts[k := counts[k] + c]) == Sum(counts) + c
  {
    var n := |counts| - 1;
    var updated := counts[k := counts[k] + c];
    if k < n {
      SumUpdate(counts[..n], k, c);
      assert updated[..n] == counts[..n][k := counts[k] + c];
    } else {
      assert updated[..n] == counts[..n];
    }
  }

  lemma {:induction false} SumZeros(n: nat)
    ensures Sum(seq(n, i => 0)) == 0
  {
    if n > 0 {
      SumZeros(n - 1);
      assert seq(n, i => 0)[..n - 1] == seq(n - 1, i => 0);
    }
  }

  /** Nothing observed is lost: the buckets add up to the observations not below the first bound. */
  lemma {:induction false} CountsAddUp(bounds: seq<real>, obs: seq<Observation>)
    requires StrictlyIncreasing(bounds)
    ensures Sum(Reference(bounds, obs)) == Observed(bounds, obs)
  {
    if obs == [] {
      SumZeros(|bounds|);
    } else {
      var init, last := obs[..|obs| - 1], obs[|obs| - 1];
      CountsAddUp(bounds, init);
      BucketIsGreatestNotAbove(bounds, last.value);
      match BucketOf(bounds, last.value)
      case Some(k) => SumUpdate(Reference(bounds, init), k, last.count);
      case None =>
    }
  }
}

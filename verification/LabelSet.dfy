/**
 Profiling labels: UpdateTraceLabels appends, sorts stably and removes duplicates. The result
 is the map override of the labels by the arguments, as a list sorted by key.
 */
module LabelSet {
  import opened Wrappers

  datatype Label = Label(key: string, value: string)

  datatype Panic = UnevenArguments

  /** The byte order of strings. */
  predicate Less(a: string, b: string) {
    b != "" && (a == "" || a[0] < b[0] || (a[0] == b[0] && Less(a[1..], b[1..])))
  }

  /** The strings agree up to some point, where the first one ends or has the smaller byte. */
  lemma {:induction false} LessMeans(a: string, b: string)
    ensures Less(a, b) <==> exists k: nat :: k < |b| && k <= |a| && a[..k] == b[..k] && (k == |a| || a[k] < b[k])
  {
    if b != "" {
      forall k: nat | 0 < k <= |a| && k <= |b| && a[..k] == b[..k] ensures a[0] == b[0] {
        assert a[..k][0] == b[..k][0];
      }
      if a == "" || a[0] < b[0] {
        assert a[..0] == b[..0];
      } else if a[0] == b[0] {
        LessMeans(a[1..], b[1..]);
        if k: nat :| k < |b[1..]| && k <= |a[1..]| && a[1..][..k] == b[1..][..k] && (k == |a[1..]| || a[1..][k] < b[1..][k]) {
          assert a[..k + 1] == [a[0]] + a[1..][..k] && b[..k + 1] == [b[0]] + b[1..][..k];
        }
        if k: nat :| k < |b| && k <= |a| && a[..k] == b[..k] && (k == |a| || a[k] < b[k]) {
          assert k > 0 && a[1..][..k - 1] == a[..k][1..] && b[1..][..k - 1] == b[..k][1..];
        }
      }
    }
  }

  lemma {:induction false} LessIsTotal(a: string, b: string)
    ensures Less(a, b) || a == b || Less(b, a)
    ensures !(Less(a, b) && Less(b, a)) && !Less(a, a)
  {
    if a != "" && b != "" && a[0] == b[0] {
      LessIsTotal(a[1..], b[1..]);
      assert a == [a[0]] + a[1..] && b == [b[0]] + b[1..];
    }
    if a != "" { LessIsTotal(a[1..], a[1..]); }
  }

  lemma {:induction false} LessIsTransitive(a: string, b: string, c: string)
    requires Less(a, b) && Less(b, c)
    ensures Less(a, c)
  {
    if a != "" && a[0] == b[0] && b[0] == c[0] { LessIsTransitive(a[1..], b[1..], c[1..]); }
  }

  // ------------------------------------------------------------- what lists denote

  /** The labels of one key, in order. */
  function OfKey(list: seq<Label>, key: string): seq<Label> {
    if list == [] then []
    else
      var rest := OfKey(list[..|list| - 1], key);
      if list[|list| - 1].key == key then rest + [list[|list| - 1]] else rest
  }

  /** The map of a list: the last occurrence of a key wins. */
  function ToMap(list: seq<Label>): map<string, string> {
    if list == [] then map[]
    else ToMap(list[..|list| - 1])[list[|list| - 1].key := list[|list| - 1].value]
  }

  /** The arguments, two by two. */
  function Pairs(args: seq<string>): seq<Label>
    requires |args| % 2 == 0
  {
    if args == [] then [] else Pairs(args[..|args| - 2]) + [Label(args[|args| - 2], args[|args| - 1])]
  }

  /** Keys are the arguments at even positions, each with the value after it. */
  lemma {:induction false} PairsAt(args: seq<string>, i: nat)
    requires |args| % 2 == 0
    ensures |Pairs(args)| == |args| / 2
    ensures i < |args| / 2 ==> Pairs(args)[i] == Label(args[2 * i], args[2 * i + 1])
  {
    if args != [] { PairsAt(args[..|args| - 2], i); }
  }

  /** Position `i` has the last label of its key. */
  ghost predicate LastOfKey(list: seq<Label>, i: nat) {
    i < |list| && forall j :: i < j < |list| ==> list[j].key != list[i].key
  }

  /** In the map of a list the last label of each key counts, and nothing else. */
  lemma {:induction false} MapMeans(list: seq<Label>, i: nat, key: string)
    ensures LastOfKey(list, i) ==> list[i].key in ToMap(list) && ToMap(list)[list[i].key] == list[i].value
    ensures key in ToMap(list) ==> exists j :: 0 <= j < |list| && list[j].key == key
  {
    if list != [] {
      var n := |list| - 1;
      MapMeans(list[..n], i, key);
      if LastOfKey(list, i) && i < n {
        assert LastOfKey(list[..n], i);
      }
      if key in ToMap(list[..n]) {
        var j :| 0 <= j < n && list[..n][j].key == key;
        assert list[j].key == key;
      }
    }
  }

  ghost predicate SortedByKey(list: seq<Label>) {
    forall i, j :: 0 <= i < j < |list| ==> !Less(list[j].key, list[i].key)
  }

  ghost predicate StrictlySorted(list: seq<Label>) {
    forall i, j :: 0 <= i < j < |list| ==> Less(list[i].key, list[j].key)
  }

  /** A stable sort: sorted, and the labels of each key keep their order. */
  ghost predicate StableSortOf(list: seq<Label>, sorted: seq<Label>) {
    SortedByKey(sorted) && |sorted| == |list| && forall key :: OfKey(sorted, key) == OfKey(list, key)
  }

  lemma {:induction false} MapIsLastOfKey(list: seq<Label>, key: string)
    ensures key in ToMap(list) <==> OfKey(list, key) != []
    ensures key in ToMap(list) ==> OfKey(list, key)[|OfKey(list, key)| - 1] == Label(key, ToMap(list)[key])
  {
    if list != [] { MapIsLastOfKey(list[..|list| - 1], key); }
  }

  lemma SameKeySameEntry(a: seq<Label>, b: seq<Label>, key: string)
    requires OfKey(a, key) == OfKey(b, key)
    ensures key in ToMap(a) <==> key in ToMap(b)
    ensures key in ToMap(a) ==> ToMap(a)[key] == ToMap(b)[key]
  {
    MapIsLastOfKey(a, key);
    MapIsLastOfKey(b, key);
  }

  /** Only the order within each key matters for the map. */
  lemma SameKeysSameMap(a: seq<Label>, b: seq<Label>)
    requires forall key :: OfKey(a, key) == OfKey(b, key)
    ensures ToMap(a) == ToMap(b)
  {
    var m, n := ToMap(a), ToMap(b);
    forall key ensures (key in m <==> key in n) && (key in m ==> m[key] == n[key]) {
      SameKeySameEntry(a, b, key);
    }
  }

  /** Appending overrides. */
  lemma {:induction false} AppendOverrides(a: seq<Label>, b: seq<Label>)
    ensures ToMap(a + b) == ToMap(a) + ToMap(b)
  {
    if b == [] {
      assert a + b == a;
    } else {
      AppendOverrides(a, b[..|b| - 1]);
      assert (a + b)[..|a + b| - 1] == a + b[..|b| - 1];
    }
  }

  // -------------------------------------------------------------------- the sort

  function Insert(sorted: seq<Label>, x: Label): seq<Label> {
    if sorted == [] || !Less(x.key, sorted[|sorted| - 1].key) then sorted + [x]
    else Insert(sorted[..|sorted| - 1], x) + [sorted[|sorted| - 1]]
  }

  lemma {:induction false} InsertBelow(sorted: seq<Label>, x: Label, top: string)
    requires !Less(top, x.key) && forall i :: 0 <= i < |sorted| ==> !Less(top, sorted[i].key)
    ensures forall i :: 0 <= i < |Insert(sorted, x)| ==> !Less(top, Insert(sorted, x)[i].key)
  {
    if sorted != [] && Less(x.key, sorted[|sorted| - 1].key) { InsertBelow(sorted[..|sorted| - 1], x, top); }
  }

  lemma {:induction false} InsertKeepsSorted(sorted: seq<Label>, x: Label)
    requires SortedByKey(sorted)
    ensures SortedByKey(Insert(sorted, x)) && |Insert(sorted, x)| == |sorted| + 1
  {
    if sorted != [] {
      var init, last := sorted[..|sorted| - 1], sorted[|sorted| - 1];
      if Less(x.key, last.key) {
        InsertKeepsSorted(init, x);
        LessIsTotal(x.key, last.key);
        InsertBelow(init, x, last.key);
      } else {
        forall i | 0 <= i < |sorted| ensures !Less(x.key, sorted[i].key) {
          LessIsTotal(last.key, sorted[i].key);
          if Less(x.key, sorted[i].key) && Less(sorted[i].key, last.key) {
            LessIsTransitive(x.key, sorted[i].key, last.key);
          }
        }
      }
    }
  }

  /** The new label comes after those of its own key and moves past greater keys only. */
  lemma {:induction false} InsertIsStable(sorted: seq<Label>, x: Label, key: string)
    ensures OfKey(Insert(sorted, x), key) == OfKey(sorted + [x], key)
  {
    var appended := sorted + [x];
    assert appended[..|sorted|] == sorted;
    if sorted != [] && Less(x.key, sorted[|sorted| - 1].key) {
      var init, last := sorted[..|sorted| - 1], sorted[|sorted| - 1];
      InsertIsStable(init, x, key);
      LessIsTotal(x.key, last.key);
      var inserted := Insert(init, x) + [last];
      assert inserted[..|inserted| - 1] == Insert(init, x);
      assert (init + [x])[..|init|] == init;
    }
  }

  /** sort.SliceStable by key. */
  method SliceStable(list: seq<Label>) returns (sorted: seq<Label>)
    ensures StableSortOf(list, sorted)
  {
    sorted := [];
    for i := 0 to |list|
      invariant StableSortOf(list[..i], sorted)
    {
      InsertKeepsSorted(sorted, list[i]);
      forall key ensures OfKey(Insert(sorted, list[i]), key) == OfKey(list[..i + 1], key) {
        InsertIsStable(sorted, list[i], key);
        assert (sorted + [list[i]])[..|sorted|] == sorted;
        assert list[..i + 1][..i] == list[..i];
      }
      sorted := Insert(sorted, list[i]);
    }
    assert list[..|list|] == list;
  }

  // ---------------------------------------------------------------- the operation

  /** The result lists the keys in order, once each, with the last value given for each. */
  method UpdateTraceLabels(list: seq<Label>, args: seq<string>) returns (r: Result<seq<Label>, Panic>)
    ensures r.Err? <==> |args| % 2 != 0
    ensures r.Ok? ==> StrictlySorted(r.value) && ToMap(r.value) == ToMap(list) + ToMap(Pairs(args))
  {
    if |args| % 2 != 0 { return Err(UnevenArguments); }
    var all := list;
    var i := 0;
    while i < |args|
      invariant 0 <= i <= |args| && i % 2 == 0
      invariant all == list + Pairs(args[..i])
    {
      assert args[..i + 2][..i] == args[..i];
      all := all + [Label(args[i], args[i + 1])];
      i := i + 2;
    }
    assert args[..|args|] == args;
    AppendOverrides(list, Pairs(args));
    var sorted := SliceStable(all);
    SameKeysSameMap(all, sorted);
    var deduped := Dedupe(sorted);
    return Ok(deduped);
  }

  /** Neighbours with equal keys collapse to the later one. */
  method Dedupe(sorted: seq<Label>) returns (deduped: seq<Label>)
    requires SortedByKey(sorted)
    ensures StrictlySorted(deduped) && ToMap(deduped) == ToMap(sorted)
  {
    deduped := [];
    for i := 0 to |sorted|
      invariant (i == 0) == (deduped == []) && StrictlySorted(deduped) && ToMap(deduped) == ToMap(sorted[..i])
      invariant i > 0 ==> deduped[|deduped| - 1].key == sorted[i - 1].key
    {
      assert sorted[..i + 1][..i] == sorted[..i];
      if i == 0 || sorted[i].key != sorted[i - 1].key {
        if i > 0 { AppendGreater(deduped, sorted[i], sorted[i - 1].key); }
        assert (deduped + [sorted[i]])[..|deduped|] == deduped;
        deduped := deduped + [sorted[i]];
      } else {
        ReplaceLast(deduped, sorted[i]);
        deduped := deduped[|deduped| - 1 := sorted[i]];
      }
    }
    assert sorted[..|sorted|] == sorted;
  }

  lemma AppendGreater(deduped: seq<Label>, x: Label, last: string)
    requires StrictlySorted(deduped) && deduped != [] && deduped[|deduped| - 1].key == last
    requires x.key != last && !Less(x.key, last)
    ensures StrictlySorted(deduped + [x])
  {
    LessIsTotal(last, x.key);
    forall i | 0 <= i < |deduped| ensures Less(deduped[i].key, x.key) {
      if i < |deduped| - 1 { LessIsTransitive(deduped[i].key, last, x.key); }
    }
  }

  lemma ReplaceLast(deduped: seq<Label>, x: Label)
    requires deduped != [] && deduped[|deduped| - 1].key == x.key
    ensures ToMap(deduped[|deduped| - 1 := x]) == ToMap(deduped)[x.key := x.value]
  {
    var n := |deduped| - 1;
    assert deduped[n := x][..n] == deduped[..n];
  }

  /** A strictly sorted list is determined by its map: the result of the update is unique. */
  lemma {:induction false} StrictlySortedIsCanonical(a: seq<Label>, b: seq<Label>)
    requires StrictlySorted(a) && StrictlySorted(b) && ToMap(a) == ToMap(b)
    ensures a == b
  {
    KeysOf(a);
    KeysOf(b);
    if a != [] { assert a[0].key in ToMap(a); }
    if b != [] { assert b[0].key in ToMap(b); }
    if a != [] {
      SameLast(a, b);
      DropLast(a);
      DropLast(b);
      StrictlySortedIsCanonical(a[..|a| - 1], b[..|b| - 1]);
      assert a == a[..|a| - 1] + [a[|a| - 1]] && b == b[..|b| - 1] + [b[|b| - 1]];
    }
  }

  lemma LastKeyIsGreatest(list: seq<Label>, key: string)
    requires StrictlySorted(list) && key in ToMap(list)
    ensures list != [] && (key == list[|list| - 1].key || Less(key, list[|list| - 1].key))
  {
    KeysOf(list);
    var i :| 0 <= i < |list| && list[i].key == key;
  }

  lemma SameLast(a: seq<Label>, b: seq<Label>)
    requires StrictlySorted(a) && StrictlySorted(b) && ToMap(a) == ToMap(b) && a != [] && b != []
    ensures a[|a| - 1] == b[|b| - 1]
  {
    var x, y := a[|a| - 1], b[|b| - 1];
    assert x.key in ToMap(a) && ToMap(a)[x.key] == x.value;
    assert y.key in ToMap(b) && ToMap(b)[y.key] == y.value;
    LastKeyIsGreatest(b, x.key);
    LastKeyIsGreatest(a, y.key);
    LessIsTotal(x.key, y.key);
  }

  lemma {:induction false} KeysOf(list: seq<Label>)
    ensures forall key :: key in ToMap(list) <==> exists i :: 0 <= i < |list| && list[i].key == key
  {
    if list != [] {
      var n := |list| - 1;
      KeysOf(list[..n]);
      forall key ensures key in ToMap(list) <==> exists i :: 0 <= i < |list| && list[i].key == key {
        if key in ToMap(list[..n]) {
          var i :| 0 <= i < n && list[..n][i].key == key;
          assert list[i].key == key;
        }
        if key in ToMap(list) && key !in ToMap(list[..n]) { assert list[n].key == key; }
        if i :| 0 <= i < |list| && list[i].key == key {
          if i < n { assert list[..n][i].key == key; }
        }
      }
    }
  }

  lemma DropLast(list: seq<Label>)
    requires StrictlySorted(list) && list != []
    ensures ToMap(list[..|list| - 1]) == ToMap(list) - {list[|list| - 1].key}
    ensures StrictlySorted(list[..|list| - 1])
  {
    var init, last := list[..|list| - 1], list[|list| - 1];
    LastKeyIsNew(list);
    var m := ToMap(init);
    assert ToMap(list) == m[last.key := last.value];
    assert m[last.key := last.value] - {last.key} == m;
  }

  lemma LastKeyIsNew(list: seq<Label>)
    requires StrictlySorted(list) && list != []
    ensures list[|list| - 1].key !in ToMap(list[..|list| - 1])
  {
    var n := |list| - 1;
    KeysOf(list[..n]);
    LessIsTotal(list[n].key, list[n].key);
    assert forall i :: 0 <= i < n ==> list[..n][i] == list[i] && Less(list[i].key, list[n].key);
  }
}

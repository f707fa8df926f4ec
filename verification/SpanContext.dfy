/**
 Context propagation: the `sw8` and `sw8-correlation` headers, printed and parsed. The main
 results say exactly which contexts survive the trip.
 */
module SpanContexts {
  import opened Wrappers
  import opened ByteStrings
  import opened Base64
  import opened HeaderText

  type Int8 = x: int | -0x80 <= x < 0x80

  type Int32 = x: int | -0x8000_0000 <= x < 0x8000_0000

  const HEADER := "sw8"
  const HEADER_CORRELATION := "sw8-correlation"

  /** The eight propagated fields. */
  datatype Propagated = Propagated(
    sample: Int8, traceID: Bytes, parentSegmentID: Bytes, parentSpanID: Int32, parentService: Bytes,
    parentServiceInstance: Bytes, parentEndpoint: Bytes, addressUsedAtClient: Bytes)

  datatype Error = EmptyHeader | InsufficientEntities | BadField(index: nat) | ExtractorFailed

  // ------------------------------------------------------------------------ sw8

  function Fields(c: Propagated): seq<string> {
    [Itoa(c.sample), Encode(c.traceID), Encode(c.parentSegmentID), Itoa(c.parentSpanID), Encode(c.parentService),
     Encode(c.parentServiceInstance), Encode(c.parentEndpoint), Encode(c.addressUsedAtClient)]
  }

  function EncodeSW8(c: Propagated): string {
    Join(Fields(c), '-')
  }

  function Text(parts: seq<string>, i: nat): Result<Bytes, Error>
    requires i < |parts|
  {
    match Decode(parts[i])
    case Some(bs) => Ok(bs)
    case None => Err(BadField(i))
  }

  function Number(parts: seq<string>, i: nat, base: nat, limit: int): Result<int, Error>
    requires i < |parts|
    ensures var r := Number(parts, i, base, limit); r.Ok? ==> -limit <= r.value < limit
  {
    match ParseInt(parts[i], base, limit)
    case Some(n) => Ok(n)
    case None => Err(BadField(i))
  }

  /** Whether field `i` of a split header is well formed. */
  predicate FieldOk(parts: seq<string>, i: nat)
    requires i < |parts|
  {
    if i == 0 then Number(parts, 0, 10, 0x80).Ok?
    else if i == 3 then Number(parts, 3, 0, 0x8000_0000).Ok?
    else Text(parts, i).Ok?
  }

  /** The first malformed field, or 8. */
  function FirstBad(parts: seq<string>, i: nat): (k: nat)
    requires i <= 8 <= |parts|
    ensures i <= k <= 8 && (k < 8 ==> !FieldOk(parts, k)) && forall j :: i <= j < k ==> FieldOk(parts, j)
    decreases 8 - i
  {
    if i == 8 || !FieldOk(parts, i) then i else FirstBad(parts, i + 1)
  }

  /** The eight fields of a split header without a malformed one. */
  function Parsed(parts: seq<string>): Propagated
    requires |parts| >= 8 && forall i :: 0 <= i < 8 ==> FieldOk(parts, i)
  {
    assert FieldOk(parts, 0) && FieldOk(parts, 1) && FieldOk(parts, 2) && FieldOk(parts, 3);
    assert FieldOk(parts, 4) && FieldOk(parts, 5) && FieldOk(parts, 6) && FieldOk(parts, 7);
    Propagated(Number(parts, 0, 10, 0x80).value, Text(parts, 1).value, Text(parts, 2).value,
               Number(parts, 3, 0, 0x8000_0000).value, Text(parts, 4).value, Text(parts, 5).value,
               Text(parts, 6).value, Text(parts, 7).value)
  }

  /** What a header stands for: its first eight fields, or the first complaint. */
  function Meaning(header: string): Result<Propagated, Error> {
    var parts := Split(header, '-');
    if header == "" then Err(EmptyHeader)
    else if |parts| < 8 then Err(InsufficientEntities)
    else
      var k := FirstBad(parts, 0);
      if k < 8 then Err(BadField(k)) else Ok(Parsed(parts))
  }

  lemma FieldsWithoutSeparator(c: Propagated)
    requires c.sample >= 0 && c.parentSpanID >= 0
    ensures forall i :: 0 <= i < |Fields(c)| ==> '-' !in Fields(c)[i]
    ensures ParseInt(Itoa(c.sample), 10, 0x80) == Some(c.sample)
    ensures ParseInt(Itoa(c.parentSpanID), 0, 0x8000_0000) == Some(c.parentSpanID)
  {
    ParseItoa(c.sample, 10, 0x80);
    ParseItoa(c.parentSpanID, 0, 0x8000_0000);
    EncodeEmitsNoSeparator(c.traceID);
    EncodeEmitsNoSeparator(c.parentSegmentID);
    EncodeEmitsNoSeparator(c.parentService);
    EncodeEmitsNoSeparator(c.parentServiceInstance);
    EncodeEmitsNoSeparator(c.parentEndpoint);
    EncodeEmitsNoSeparator(c.addressUsedAtClient);
  }

  lemma {:induction false} JoinNonEmpty(parts: seq<string>, sep: char)
    requires |parts| > 1
    ensures Join(parts, sep) != ""
  {
  }

  /** Non-negative numbers: every field comes back. */
  lemma NonNegativeRoundTrip(c: Propagated)
    requires c.sample >= 0 && c.parentSpanID >= 0
    ensures Meaning(EncodeSW8(c)) == Ok(c)
  {
    FieldsWithoutSeparator(c);
    var fields := Fields(c);
    SplitJoin(fields, '-');
    JoinNonEmpty(fields, '-');
    FieldsShow(c);
    PartsParse(fields, c);
    assert FirstBad(fields, 0) == 8;
  }

  /** The minus sign of a number is the separator: the field before it reads as empty. */
  lemma SplitAtMinus(before: seq<string>, n: int, after: seq<string>)
    requires n < 0 && after != [] && forall i :: 0 <= i < |before| ==> '-' !in before[i]
    ensures var parts := Split(Join(before + [Itoa(n)] + after, '-'), '-');
            |parts| > |before| && parts[..|before|] == before && parts[|before|] == ""
  {
    var all := before + [Itoa(n)] + after;
    if before == [] {
      var tail := Join(all[1..], '-');
      var s := Join(all, '-');
      assert s == Itoa(n) + ['-'] + tail;
      assert s[0] == '-';
    } else {
      assert all[1..] == before[1..] + [Itoa(n)] + after;
      SplitAtMinus(before[1..], n, after);
      SplitFirst(before[0], Join(all[1..], '-'), '-');
      var rest := Split(Join(all[1..], '-'), '-');
      assert ([before[0]] + rest)[..|before|] == [before[0]] + rest[..|before| - 1];
    }
  }

  lemma EmptyIsNoNumber(parts: seq<string>, i: nat)
    requires i < |parts| && parts[i] == "" && (i == 0 || i == 3)
    ensures !FieldOk(parts, i)
  {
  }

  lemma NegativeFails(c: Propagated)
    requires c.sample < 0 || c.parentSpanID < 0
    ensures Meaning(EncodeSW8(c)).Err?
  {
    var f := Fields(c);
    var parts := Split(EncodeSW8(c), '-');
    if c.sample < 0 {
      assert f == [] + [Itoa(c.sample)] + f[1..];
      SplitAtMinus([], c.sample, f[1..]);
      assert parts[0] == "";
      if |parts| >= 8 { EmptyIsNoNumber(parts, 0); }
    } else {
      assert f == f[..3] + [Itoa(c.parentSpanID)] + f[4..];
      FieldsWithoutSeparator(c.(parentSpanID := 0));
      assert forall i :: 0 <= i < 3 ==> f[i] == Fields(c.(parentSpanID := 0))[i];
      SplitAtMinus(f[..3], c.parentSpanID, f[4..]);
      assert parts[3] == "";
      if |parts| >= 8 { EmptyIsNoNumber(parts, 3); }
    }
  }

  /**
   For arbitrary byte strings, empty ones included, the header restores all eight fields
   exactly when the sampling flag and the parent span id are not negative; otherwise parsing fails.
   */
  lemma SW8RoundTrip(c: Propagated)
    ensures c.sample >= 0 && c.parentSpanID >= 0 ==> Meaning(EncodeSW8(c)) == Ok(c)
    ensures c.sample < 0 || c.parentSpanID < 0 ==> Meaning(EncodeSW8(c)).Err?
  {
    if c.sample >= 0 && c.parentSpanID >= 0 { NonNegativeRoundTrip(c); } else { NegativeFails(c); }
  }

  /** The parts stand for these fields, in the order of the header: read by anyone. */
  ghost predicate PartsShow(parts: seq<string>, c: Propagated) {
    && |parts| >= 8
    && ParseInt(parts[0], 10, 0x80) == Some(c.sample)
    && Decode(parts[1]) == Some(c.traceID)
    && Decode(parts[2]) == Some(c.parentSegmentID)
    && ParseInt(parts[3], 0, 0x8000_0000) == Some(c.parentSpanID)
    && Decode(parts[4]) == Some(c.parentService)
    && Decode(parts[5]) == Some(c.parentServiceInstance)
    && Decode(parts[6]) == Some(c.parentEndpoint)
    && Decode(parts[7]) == Some(c.addressUsedAtClient)
  }

  /** What is on the wire: eight parts, in their order. */
  lemma HeaderOnTheWire(c: Propagated)
    requires c.sample >= 0 && c.parentSpanID >= 0
    ensures var parts := Split(EncodeSW8(c), '-'); |parts| == 8 && PartsShow(parts, c)
  {
    FieldsWithoutSeparator(c);
    SplitJoin(Fields(c), '-');
    FieldsShow(c);
  }

  lemma FieldsShow(c: Propagated)
    requires c.sample >= 0 && c.parentSpanID >= 0
    ensures PartsShow(Fields(c), c)
  {
    FieldsWithoutSeparator(c);
    DecodeEncode(c.traceID);
    DecodeEncode(c.parentSegmentID);
    DecodeEncode(c.parentService);
    DecodeEncode(c.parentServiceInstance);
    DecodeEncode(c.parentEndpoint);
    DecodeEncode(c.addressUsedAtClient);
  }

  lemma PartsParse(parts: seq<string>, c: Propagated)
    requires PartsShow(parts, c)
    ensures forall i :: 0 <= i < 8 ==> FieldOk(parts, i)
    ensures Parsed(parts) == c
  {
  }

  lemma GoodPartsShow(parts: seq<string>)
    requires |parts| >= 8 && forall i :: 0 <= i < 8 ==> FieldOk(parts, i)
    ensures PartsShow(parts, Parsed(parts))
  {
    assert FieldOk(parts, 0) && FieldOk(parts, 1) && FieldOk(parts, 2) && FieldOk(parts, 3);
    assert FieldOk(parts, 4) && FieldOk(parts, 5) && FieldOk(parts, 6) && FieldOk(parts, 7);
  }

  /** A header written by anyone yields exactly the fields that its parts show, and fails if they show none; further parts are ignored. */
  lemma AnyHeader(parts: seq<string>, c: Propagated)
    requires |parts| > 1 && forall i :: 0 <= i < |parts| ==> '-' !in parts[i]
    ensures Meaning(Join(parts, '-')) == Ok(c) <==> PartsShow(parts, c)
  {
    SplitJoin(parts, '-');
    JoinNonEmpty(parts, '-');
    if PartsShow(parts, c) {
      PartsParse(parts, c);
      assert FirstBad(parts, 0) == 8;
    }
    if Meaning(Join(parts, '-')) == Ok(c) { GoodPartsShow(parts); }
  }

  // ---------------------------------------------------------------- correlation

  type Correlation = map<Bytes, Bytes>

  /** An order in which a map iteration may visit the keys. */
  ghost predicate IterationOrder(m: Correlation, order: seq<Bytes>) {
    && (forall k :: k in order <==> k in m)
    && (forall i, j :: 0 <= i < j < |order| ==> order[i] != order[j])
  }

  function Entry(k: Bytes, v: Bytes): string {
    Encode(k) + ":" + Encode(v)
  }

  function Entries(m: Correlation, order: seq<Bytes>): seq<string>
    requires forall k :: k in order ==> k in m
  {
    if order == [] then []
    else Entries(m, order[..|order| - 1]) + [Entry(order[|order| - 1], m[order[|order| - 1]])]
  }

  function EncodeCorrelation(m: Correlation, order: seq<Bytes>): string
    requires forall k :: k in order ==> k in m
  {
    if m == map[] then "" else Join(Entries(m, order), ',')
  }

  function DecodeEntry(s: string): Option<(Bytes, Bytes)> {
    var kv := Split(s, ':');
    if |kv| != 2 then None
    else
      match (Decode(kv[0]), Decode(kv[1]))
      case (Some(k), Some(v)) => Some((k, v))
      case _ => None
  }

  /** Malformed entries are skipped; a later entry overrides an earlier one with its key. */
  function Collected(entries: seq<string>): Correlation {
    if entries == [] then map[]
    else
      var m := Collected(entries[..|entries| - 1]);
      match DecodeEntry(entries[|entries| - 1])
      case Some((k, v)) => m[k := v]
      case None => m
  }

  function DecodeCorrelation(header: string): Correlation {
    if header == "" then map[] else Collected(Split(header, ','))
  }

  lemma EntryRoundTrip(k: Bytes, v: Bytes)
    ensures DecodeEntry(Entry(k, v)) == Some((k, v)) && ',' !in Entry(k, v) && Entry(k, v) != ""
  {
    EncodeEmitsNoSeparator(k);
    EncodeEmitsNoSeparator(v);
    SplitFirst(Encode(k), Encode(v), ':');
    SplitPlain(Encode(v), ':');
    DecodeEncode(k);
    DecodeEncode(v);
  }

  lemma {:induction false} CollectedEntries(m: Correlation, order: seq<Bytes>)
    requires forall k :: k in order ==> k in m
    ensures Collected(Entries(m, order)) == map k | k in order :: m[k]
    ensures |Entries(m, order)| == |order|
    ensures forall i :: 0 <= i < |order| ==> ',' !in Entries(m, order)[i] && Entries(m, order)[i] != ""
  {
    if order != [] {
      var init, last := order[..|order| - 1], order[|order| - 1];
      assert order == init + [last];
      CollectedEntries(m, init);
      EntryRoundTrip(last, m[last]);
      var es := Entries(m, order);
      assert es[..|es| - 1] == Entries(m, init);
    }
  }

  /** Whatever the iteration order, the same map comes back: empty keys, values and maps included. */
  lemma CorrelationRoundTrip(m: Correlation, order: seq<Bytes>)
    requires IterationOrder(m, order)
    ensures DecodeCorrelation(EncodeCorrelation(m, order)) == m
  {
    if m != map[] {
      CollectedEntries(m, order);
      var es := Entries(m, order);
      var k :| k in m;
      assert k in order;
      SplitJoin(es, ',');
      if |es| == 1 { assert Join(es, ',') == es[0]; } else { JoinNonEmpty(es, ','); }
      assert (map k | k in order :: m[k]) == m;
    }
  }

  /** The two pieces of an entry: the key and the value. */
  ghost predicate EntryShows(entry: string, k: Bytes, v: Bytes) {
    var kv := Split(entry, ':');
    |kv| == 2 && Decode(kv[0]) == Some(k) && Decode(kv[1]) == Some(v)
  }

  lemma {:induction false} EntriesAt(m: Correlation, order: seq<Bytes>, i: nat)
    requires i < |order| && forall k :: k in order ==> k in m
    ensures |Entries(m, order)| == |order| && Entries(m, order)[i] == Entry(order[i], m[order[i]])
  {
    var n := |order| - 1;
    EntriesCount(m, order[..n]);
    if i < n { EntriesAt(m, order[..n], i); }
  }

  lemma {:induction false} EntriesCount(m: Correlation, order: seq<Bytes>)
    requires forall k :: k in order ==> k in m
    ensures |Entries(m, order)| == |order|
  {
    if order != [] { EntriesCount(m, order[..|order| - 1]); }
  }

  /** What is on the wire: one entry for each key, the key before the value. */
  lemma CorrelationOnTheWire(m: Correlation, order: seq<Bytes>, i: nat)
    requires IterationOrder(m, order) && i < |order|
    ensures var entries := Split(EncodeCorrelation(m, order), ',');
            |entries| == |order| && EntryShows(entries[i], order[i], m[order[i]])
  {
    assert order[i] in m;
    CollectedEntries(m, order);
    SplitJoin(Entries(m, order), ',');
    EntriesAt(m, order, i);
    EntryOnTheWire(order[i], m[order[i]]);
  }

  lemma EntryOnTheWire(k: Bytes, v: Bytes)
    ensures EntryShows(Entry(k, v), k, v)
  {
    EncodeEmitsNoSeparator(k);
    EncodeEmitsNoSeparator(v);
    SplitFirst(Encode(k), Encode(v), ':');
    SplitPlain(Encode(v), ':');
    DecodeEncode(k);
    DecodeEncode(v);
  }

  /** The last entry that shows the key, if any. */
  ghost predicate LastFor(entries: seq<string>, i: nat, k: Bytes, v: Bytes) {
    && i < |entries| && EntryShows(entries[i], k, v)
    && forall j: nat, w :: i < j < |entries| ==> !EntryShows(entries[j], k, w)
  }

  lemma EntryDecodes(entry: string, k: Bytes, v: Bytes)
    ensures EntryShows(entry, k, v) <==> DecodeEntry(entry) == Some((k, v))
  {
  }

  /** Either the last entry shows the key, or the entries before decide. */
  lemma LastForStep(entries: seq<string>, i: nat, k: Bytes, v: Bytes)
    requires entries != []
    ensures var n := |entries| - 1;
            LastFor(entries, i, k, v) <==>
              if i == n then EntryShows(entries[n], k, v)
              else LastFor(entries[..n], i, k, v) && forall w :: !EntryShows(entries[n], k, w)
  {
    var n := |entries| - 1;
    if i < n {
      assert entries[..n][i] == entries[i];
      forall j: nat, w | i < j < n ensures EntryShows(entries[j], k, w) <==> EntryShows(entries[..n][j], k, w) {
      }
    }
  }

  /** The key is there with the value of the last entry that shows it. */
  lemma {:induction false} LastIsCollected(entries: seq<string>, i: nat, k: Bytes, v: Bytes)
    requires LastFor(entries, i, k, v)
    ensures k in Collected(entries) && Collected(entries)[k] == v
  {
    var n := |entries| - 1;
    LastForStep(entries, i, k, v);
    if i == n {
      EntryDecodes(entries[n], k, v);
    } else {
      LastIsCollected(entries[..n], i, k, v);
      match DecodeEntry(entries[n])
      case Some((l, w)) => EntryDecodes(entries[n], l, w);
      case None =>
    }
  }

  /** A key is there only if some entry shows it. */
  lemma {:induction false} CollectedIsLast(entries: seq<string>, k: Bytes) returns (i: nat)
    requires k in Collected(entries)
    ensures LastFor(entries, i, k, Collected(entries)[k])
  {
    var n := |entries| - 1;
    var v := Collected(entries)[k];
    EntryDecodes(entries[n], k, v);
    if EntryShows(entries[n], k, v) {
      i := n;
    } else {
      NotThisEntry(entries, k);
      i := CollectedIsLast(entries[..n], k);
    }
    LastForStep(entries, i, k, v);
  }

  lemma NotThisEntry(entries: seq<string>, k: Bytes)
    requires k in Collected(entries) && !EntryShows(entries[|entries| - 1], k, Collected(entries)[k])
    ensures var n := |entries| - 1;
            && k in Collected(entries[..n]) && Collected(entries[..n])[k] == Collected(entries)[k]
            && forall w :: !EntryShows(entries[n], k, w)
  {
    var n := |entries| - 1;
    forall w ensures EntryShows(entries[n], k, w) <==> DecodeEntry(entries[n]) == Some((k, w)) {
      EntryDecodes(entries[n], k, w);
    }
  }

  /** A header written by anyone yields, for each key that some entry shows, the value of the last one, and no other key. */
  lemma AnyCorrelation(entries: seq<string>, k: Bytes)
    requires entries != [] && Join(entries, ',') != "" && forall i :: 0 <= i < |entries| ==> ',' !in entries[i]
    ensures var m := DecodeCorrelation(Join(entries, ','));
            && (k in m ==> exists i: nat :: LastFor(entries, i, k, m[k]))
            && forall i: nat, v :: LastFor(entries, i, k, v) ==> k in m && m[k] == v
  {
    SplitJoin(entries, ',');
    var m := Collected(entries);
    if k in m { var i := CollectedIsLast(entries, k); }
    forall i: nat, v | LastFor(entries, i, k, v) ensures k in m && m[k] == v {
      LastIsCollected(entries, i, k, v);
    }
  }

  // ------------------------------------------------------------ the wire struct

  type Extractor = string -> Result<string, Error>

  class SpanContext {
    var sample: Int8
    var traceID: Bytes
    var parentSegmentID: Bytes
    var parentSpanID: Int32
    var parentService: Bytes
    var parentServiceInstance: Bytes
    var parentEndpoint: Bytes
    var addressUsedAtClient: Bytes
    var valid: bool
    var correlation: Correlation

    constructor ()
      ensures !valid && correlation == map[]
    {
      sample, traceID, parentSegmentID, parentSpanID, parentService := 0, [], [], 0, [];
      parentServiceInstance, parentEndpoint, addressUsedAtClient, valid, correlation := [], [], [], false, map[];
    }

    ghost function Context(): Propagated
      reads this
    {
      Propagated(sample, traceID, parentSegmentID, parentSpanID, parentService, parentServiceInstance,
                 parentEndpoint, addressUsedAtClient)
    }

    method Header() returns (header: string)
      ensures header == EncodeSW8(Context())
    {
      header := Join([Itoa(sample), Encode(traceID), Encode(parentSegmentID), Itoa(parentSpanID), Encode(parentService),
                      Encode(parentServiceInstance), Encode(parentEndpoint), Encode(addressUsedAtClient)], '-');
    }

    /** `order` is the order in which the map iteration happens to visit the keys. */
    method CorrelationHeader(order: seq<Bytes>) returns (header: string)
      requires IterationOrder(correlation, order)
      ensures header == EncodeCorrelation(correlation, order)
    {
      if |correlation| == 0 { return ""; }
      var content: seq<string> := [];
      for i := 0 to |order|
        invariant content == Entries(correlation, order[..i])
      {
        content := content + [Encode(order[i]) + ":" + Encode(correlation[order[i]])];
        assert order[..i + 1][..i] == order[..i];
      }
      assert order[..|order|] == order;
      header := Join(content, ',');
    }

    /** Fields are assigned one by one; a malformed field stops the parse before `valid` is set. */
    method DecodeSW8(header: string) returns (err: Option<Error>)
      modifies this
      ensures correlation == old(correlation)
      ensures match Meaning(header)
              case Ok(c) => err == None && valid && Context() == c
              case Err(e) => err == Some(e) && valid == old(valid)
    {
      if header == "" { return Some(EmptyHeader); }
      var hh := Split(header, '-');
      if |hh| < 8 { return Some(InsufficientEntities); }
      var n := Number(hh, 0, 10, 0x80);
      if n.Err? { return Some(n.error); }
      sample := n.value;
      var t := Text(hh, 1);
      if t.Err? { return Some(t.error); }
      traceID := t.value;
      t := Text(hh, 2);
      if t.Err? { return Some(t.error); }
      parentSegmentID := t.value;
      n := Number(hh, 3, 0, 0x8000_0000);
      if n.Err? { return Some(n.error); }
      parentSpanID := n.value;
      err := DecodeRest(hh);
    }

    /** The last four fields. */
    method DecodeRest(hh: seq<string>) returns (err: Option<Error>)
      requires |hh| >= 8
      modifies this
      ensures unchanged(`sample, `traceID, `parentSegmentID, `parentSpanID, `correlation)
      ensures var k := FirstBad(hh, 4);
              if k < 8 then err == Some(BadField(k)) && valid == old(valid)
              else && err == None && valid
                   && parentService == Text(hh, 4).value && parentServiceInstance == Text(hh, 5).value
                   && parentEndpoint == Text(hh, 6).value && addressUsedAtClient == Text(hh, 7).value
    {
      var t := Text(hh, 4);
      if t.Err? { return Some(t.error); }
      parentService := t.value;
      t := Text(hh, 5);
      if t.Err? { return Some(t.error); }
      parentServiceInstance := t.value;
      t := Text(hh, 6);
      if t.Err? { return Some(t.error); }
      parentEndpoint := t.value;
      t := Text(hh, 7);
      if t.Err? { return Some(t.error); }
      addressUsedAtClient := t.value;
      valid := true;
      return None;
    }

    method DecodeSW8Correlation(header: string)
      modifies `correlation
      ensures correlation == DecodeCorrelation(header)
    {
      correlation := map[];
      if header == "" { return; }
      var hh := Split(header, ',');
      for i := 0 to |hh|
        invariant correlation == Collected(hh[..i])
      {
        assert hh[..i + 1][..i] == hh[..i];
        var keyValues := Split(hh[i], ':');
        if |keyValues| == 2 {
          var key := Decode(keyValues[0]);
          if key.Some? {
            var value := Decode(keyValues[1]);
            if value.Some? {
              correlation := correlation[key.value := value.value];
            }
          }
        }
      }
      assert hh[..|hh|] == hh;
    }

    /** Decode: a missing header is skipped, and leaves what it would have filled as it was. */
    method DecodeFrom(extractor: Extractor) returns (err: Option<Error>)
      modifies this
      ensures var first, second := extractor("sw8"), extractor("sw8-correlation");
              if first.Err? then err == Some(first.error) && !valid && correlation == old(correlation)
              else if first.value != "" && Meaning(first.value).Err? then
                err == Some(Meaning(first.value).error) && !valid && correlation == old(correlation)
              else
                && valid == (first.value != "")
                && Context() == (if valid then Meaning(first.value).value else old(Context()))
                && (if second.Err? then err == Some(second.error) && correlation == old(correlation)
                    else err == None
                         && correlation == if second.value == "" then old(correlation) else DecodeCorrelation(second.value))
    {
      valid := false;
      var val := extractor(HEADER);
      if val.Err? { return Some(val.error); }
      if val.value != "" {
        err := DecodeSW8(val.value);
        if err.Some? { return; }
      }
      val := extractor(HEADER_CORRELATION);
      if val.Err? { return Some(val.error); }
      if val.value != "" { DecodeSW8Correlation(val.value); }
      return None;
    }
  }

  /**
   From the exit span of one process to the entry span of the next: everything arrives, unless
   a number is negative, and then the receiver gets an error and no valid context.
   */
  method Propagate(sender: SpanContext, order: seq<Bytes>) returns (receiver: SpanContext, err: Option<Error>)
    requires IterationOrder(sender.correlation, order)
    ensures fresh(receiver)
    ensures sender.sample >= 0 && sender.parentSpanID >= 0 ==>
              err == None && receiver.valid && receiver.Context() == sender.Context()
              && receiver.correlation == sender.correlation
    ensures sender.sample < 0 || sender.parentSpanID < 0 ==> err.Some? && !receiver.valid
  {
    var sw8 := sender.Header();
    var correlation := sender.CorrelationHeader(order);
    SW8RoundTrip(sender.Context());
    CorrelationRoundTrip(sender.correlation, order);
    JoinNonEmpty(Fields(sender.Context()), '-');
    receiver := new SpanContext();
    var carrier := (key: string) =>
      Ok(if key == HEADER then sw8 else if key == HEADER_CORRELATION then correlation else "");
    err := receiver.DecodeFrom(carrier);
  }
}

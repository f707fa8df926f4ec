/**
 The wildcard matcher of the ignore-path rule: mutually recursive backtracking loops, proved
 equal to a declarative language of patterns. A string is a sequence of bytes, one `char` each.
 */
module PathMatcher {

  const NUL: char := '\0'

  function SafeCharAt(value: string, index: nat): char {
    if index >= |value| then NUL else value[index]
  }

  ghost predicate SlashFree(w: string) {
    '/' !in w
  }

  // --------------------------------------------------- the pattern language

  /** `FinalRun` is a `*` that ends the pattern; `Deep` is `**` with the slash right after it, if any. */
  datatype Token = Lit(c: char) | AnyOne | Run | FinalRun | Deep

  function Tokens(pattern: string): seq<Token> {
    if pattern == [] then []
    else if pattern[0] == '*' then
      if |pattern| == 1 then [FinalRun]
      else if pattern[1] == '*' then
        [Deep] + Tokens(if |pattern| > 2 && pattern[2] == '/' then pattern[3..] else pattern[2..])
      else [Run] + Tokens(pattern[1..])
    else [if pattern[0] == '?' then AnyOne else Lit(pattern[0])] + Tokens(pattern[1..])
  }

  /**
   The strings one token stands for. A final run may close with one slash; it also ends at a
   NUL byte of the name, whatever follows.
   */
  ghost predicate Denotes(t: Token, w: string) {
    match t
    case Lit(c) => w == [c]
    case AnyOne => |w| == 1 && w[0] != '/' && w[0] != NUL
    case Run => SlashFree(w)
    case FinalRun =>
      SlashFree(w) || exists k :: 0 <= k < |w| && SlashFree(w[..k]) && (w[k] == NUL || (w[k] == '/' && k == |w| - 1))
    case Deep => true
  }

  function Concat(pieces: seq<string>): string {
    if pieces == [] then "" else pieces[0] + Concat(pieces[1..])
  }

  ghost predicate Splits(tokens: seq<Token>, pieces: seq<string>, name: string) {
    && |pieces| == |tokens| && Concat(pieces) == name
    && forall i :: 0 <= i < |tokens| ==> Denotes(tokens[i], pieces[i])
  }

  /** The name can be cut into pieces, one for each token of the pattern. */
  ghost predicate Accepts(pattern: string, name: string) {
    exists pieces :: Splits(Tokens(pattern), pieces, name)
  }

  /** A name is ignored when some pattern accepts it. */
  ghost predicate Ignored(name: string, patterns: seq<string>) {
    exists i :: 0 <= i < |patterns| && Accepts(patterns[i], name)
  }

  // ------------------------------------------------ what the loops compute

  /** Positions `p` in the pattern and `s` in the name; defined for all strings, NUL bytes included. */
  ghost predicate Normal(pattern: string, p: nat, name: string, s: nat)
    decreases |pattern| - p, 0
  {
    if p >= |pattern| then s == |name|
    else
      var pc, sc := pattern[p], SafeCharAt(name, s);
      if pc == '*' then
        if SafeCharAt(pattern, p + 1) == '*' then Multi(pattern, p + 2, name, s) else Wild(pattern, p + 1, name, s)
      else ((pc == '?' && sc != NUL && sc != '/') || pc == sc) && Normal(pattern, p + 1, name, s + 1)
  }

  /** After a single `*`. */
  ghost predicate Wild(pattern: string, p: nat, name: string, s: nat)
    decreases |pattern| - p, 2
  {
    if SafeCharAt(pattern, p) == NUL then WildEnd(name, s) else AfterRun(pattern, p, name, s)
  }

  /** The rest matches somewhere, and no slash is passed on the way. */
  ghost predicate AfterRun(pattern: string, p: nat, name: string, s: nat)
    decreases |pattern| - p, 1, |name| - s
  {
    Normal(pattern, p, name, s) || (s < |name| && name[s] != '/' && AfterRun(pattern, p, name, s + 1))
  }

  /** The first byte that ends the run is a NUL or the end of the name, or the final slash. */
  ghost predicate WildEnd(name: string, s: nat)
    decreases |name| - s
  {
    SafeCharAt(name, s) == NUL || (if name[s] == '/' then s == |name| - 1 else WildEnd(name, s + 1))
  }

  /** After `**`. */
  ghost predicate Multi(pattern: string, p: nat, name: string, s: nat)
    decreases |pattern| - p, 2
  {
    SafeCharAt(pattern, p) == NUL ||
    (if SafeCharAt(pattern, p) == '/' then Somewhere(pattern, p + 1, name, s) else Somewhere(pattern, p, name, s))
  }

  ghost predicate Somewhere(pattern: string, p: nat, name: string, s: nat)
    decreases |pattern| - p, 1, |name| - s
  {
    Normal(pattern, p, name, s) || (s < |name| && Somewhere(pattern, p, name, s + 1))
  }

  /**
   What the loops accept from `p` on once they are past the end of the name, where every read
   gives NUL: a NUL of the pattern still matches there, and a star takes nothing.
   */
  predicate PastEnd(pattern: string, p: nat)
    decreases |pattern| - p
  {
    if p >= |pattern| then false
    else if pattern[p] == NUL then PastEnd(pattern, p + 1)
    else if pattern[p] != '*' then false
    else if SafeCharAt(pattern, p + 1) == '*' then
      SafeCharAt(pattern, p + 2) == NUL || PastEnd(pattern, if SafeCharAt(pattern, p + 2) == '/' then p + 3 else p + 2)
    else SafeCharAt(pattern, p + 1) == NUL || PastEnd(pattern, p + 1)
  }

  /** A star directly before a NUL byte is taken for the end of the pattern. */
  predicate CutShort(pattern: string, i: nat) {
    i + 1 < |pattern| && pattern[i] == '*' && pattern[i + 1] == NUL
  }

  /** A NUL byte that may match at the end of the name, and the rest of the pattern past it. */
  predicate Overruns(pattern: string, i: nat) {
    i < |pattern| && pattern[i] == NUL && PastEnd(pattern, i + 1)
  }

  /** The NUL bytes of the pattern, if any, do no harm. */
  predicate NulSafe(pattern: string) {
    forall i :: 0 <= i < |pattern| ==> !CutShort(pattern, i) && !Overruns(pattern, i)
  }

  // ------------------------------------------------------- the matcher itself

  method NormalMatch(pattern: string, p0: nat, name: string, s0: nat) returns (ok: bool)
    ensures ok <==> Normal(pattern, p0, name, s0)
    decreases |pattern| - p0, 0
  {
    var p, s := p0, s0;
    while p < |pattern|
      invariant p0 <= p
      invariant Normal(pattern, p0, name, s0) <==> Normal(pattern, p, name, s)
    {
      var pc := pattern[p];
      var sc := SafeCharAt(name, s);
      if pc == '*' {
        p := p + 1;
        if SafeCharAt(pattern, p) == '*' {
          p := p + 1;
          ok := MultiWildcardMatch(pattern, p, name, s);
          return;
        }
        ok := WildcardMatch(pattern, p, name, s);
        return;
      }
      if (pc == '?' && sc != NUL && sc != '/') || pc == sc {
        s, p := s + 1, p + 1;
      } else {
        return false;
      }
    }
    return s == |name|;
  }

  method WildcardMatch(pattern: string, p: nat, name: string, s0: nat) returns (ok: bool)
    requires SafeCharAt(pattern, p) != '*'
    ensures ok <==> Wild(pattern, p, name, s0)
    decreases |pattern| - p, 1
  {
    var pc, s := SafeCharAt(pattern, p), s0;
    if pc == NUL {
      while true
        invariant s0 <= s && (WildEnd(name, s0) <==> WildEnd(name, s))
        decreases |name| - s
      {
        var sc := SafeCharAt(name, s);
        if sc == NUL { return true; }
        if sc == '/' { return s == |name| - 1; }
        s := s + 1;
      }
    }
    while true
      invariant AfterRun(pattern, p, name, s0) <==> AfterRun(pattern, p, name, s)
      decreases |name| - s
    {
      var sc := SafeCharAt(name, s);
      if sc == '/' {
        if pc == sc {
          ok := NormalMatch(pattern, p + 1, name, s + 1);
          return;
        }
        return false;
      }
      var found := NormalMatch(pattern, p, name, s);
      if found { return true; }
      if s >= |name| { return false; }
      s := s + 1;
    }
  }

  method MultiWildcardMatch(pattern: string, p0: nat, name: string, s0: nat) returns (ok: bool)
    ensures ok <==> Multi(pattern, p0, name, s0)
    decreases |pattern| - p0, 1
  {
    var p, s := p0, s0;
    if SafeCharAt(pattern, p) == NUL { return true; }
    if SafeCharAt(pattern, p) == '/' { p := p + 1; }
    while true
      invariant Somewhere(pattern, p, name, s0) <==> Somewhere(pattern, p, name, s)
      decreases |name| - s
    {
      var found := NormalMatch(pattern, p, name, s);
      if found { return true; }
      if s >= |name| { return false; }
      s := s + 1;
    }
  }

  method TraceIgnorePath(name: string, patterns: seq<string>) returns (ignored: bool)
    ensures ignored <==> exists i :: 0 <= i < |patterns| && Normal(patterns[i], 0, name, 0)
    ensures Ignored(name, patterns) ==> ignored
    ensures (forall i :: 0 <= i < |patterns| ==> NulSafe(patterns[i])) ==> (ignored <==> Ignored(name, patterns))
  {
    forall i | 0 <= i < |patterns|
      ensures Accepts(patterns[i], name) ==> Normal(patterns[i], 0, name, 0)
      ensures NulSafe(patterns[i]) && Normal(patterns[i], 0, name, 0) ==> Accepts(patterns[i], name)
    {
      if Accepts(patterns[i], name) { MatcherMissesNothing(patterns[i], name); }
      if NulSafe(patterns[i]) { MatcherAcceptsTheLanguage(patterns[i], name); }
    }
    for i := 0 to |patterns|
      invariant forall j :: 0 <= j < i ==> !Normal(patterns[j], 0, name, 0)
    {
      var ok := NormalMatch(patterns[i], 0, name, 0);
      if ok { return true; }
    }
    return false;
  }

  // ---------------------------------------------- the loops accept the language

  /** The language, one token at a time. */
  ghost predicate Match(tokens: seq<Token>, w: string) {
    if tokens == [] then w == ""
    else exists e {:trigger w[e..]} :: 0 <= e <= |w| && Denotes(tokens[0], w[..e]) && Match(tokens[1..], w[e..])
  }

  lemma MatchIffSplits(tokens: seq<Token>, w: string)
    ensures Match(tokens, w) <==> exists pieces :: Splits(tokens, pieces, w)
  {
    if Match(tokens, w) { var pieces := SplitOf(tokens, w); }
    if pieces :| Splits(tokens, pieces, w) { SplitMatches(tokens, pieces, w); }
  }

  lemma {:induction false} SplitOf(tokens: seq<Token>, w: string) returns (pieces: seq<string>)
    requires Match(tokens, w)
    ensures Splits(tokens, pieces, w)
  {
    if tokens == [] {
      pieces := [];
    } else {
      var e :| 0 <= e <= |w| && Denotes(tokens[0], w[..e]) && Match(tokens[1..], w[e..]);
      var rest := SplitOf(tokens[1..], w[e..]);
      pieces := [w[..e]] + rest;
      assert pieces[1..] == rest && w[..e] + w[e..] == w;
      forall i | 0 <= i < |tokens| ensures Denotes(tokens[i], pieces[i]) {
        if i > 0 { assert Denotes(tokens[1..][i - 1], rest[i - 1]); }
      }
    }
  }

  lemma {:induction false} SplitMatches(tokens: seq<Token>, pieces: seq<string>, w: string)
    requires Splits(tokens, pieces, w)
    ensures Match(tokens, w)
  {
    if tokens != [] {
      var e := |pieces[0]|;
      assert w[..e] == pieces[0] && w[e..] == Concat(pieces[1..]);
      assert Splits(tokens[1..], pieces[1..], w[e..]);
      SplitMatches(tokens[1..], pieces[1..], w[e..]);
    }
  }

  lemma {:induction false} WildEndMeansFinalRun(name: string, s: nat)
    requires s <= |name|
    ensures WildEnd(name, s) <==> Denotes(FinalRun, name[s..])
    decreases |name| - s
  {
    if s < |name| {
      var c, t := name[s], name[s + 1..];
      assert name[s..] == [c] + t;
      if c == NUL || c == '/' {
        assert ([c] + t)[..0] == "" && ([c] + t)[0] == c;
      } else {
        WildEndMeansFinalRun(name, s + 1);
        PlainByteFirst(c, t);
      }
    }
  }

  /** A byte that is neither a slash nor NUL in front does not change whether a final run fits. */
  lemma PlainByteFirst(c: char, t: string)
    requires c != NUL && c != '/'
    ensures Denotes(FinalRun, [c] + t) <==> Denotes(FinalRun, t)
  {
    var w := [c] + t;
    forall k | 0 <= k < |t| ensures SlashFree(t[..k]) <==> SlashFree(w[..k + 1]) {
      assert w[..k + 1] == [c] + t[..k];
    }
    if k :| 0 <= k < |w| && SlashFree(w[..k]) && (w[k] == NUL || (w[k] == '/' && k == |w| - 1)) {
      assert t[k - 1] == w[k] && SlashFree(t[..k - 1]);
    }
    if k :| 0 <= k < |t| && SlashFree(t[..k]) && (t[k] == NUL || (t[k] == '/' && k == |t| - 1)) {
      assert w[k + 1] == t[k] && SlashFree(w[..k + 1]);
    }
  }

  lemma FinalTokenMatch(t: Token, w: string)
    ensures Match([t], w) <==> Denotes(t, w)
  {
    assert [t][1..] == [];
    assert w[..|w|] == w && w[|w|..] == "";
    if Match([t], w) {
      var e :| 0 <= e <= |w| && Denotes(t, w[..e]) && Match([], w[e..]);
      assert e == |w|;
    }
  }

  /** A first token that stands for one byte takes the first byte of the name. */
  lemma OneByteMatch(t: Token, rest: seq<Token>, w: string)
    requires t.Lit? || t.AnyOne?
    ensures Match([t] + rest, w) <==> |w| > 0 && Denotes(t, [w[0]]) && Match(rest, w[1..])
  {
    assert ([t] + rest)[1..] == rest;
    if |w| > 0 && Denotes(t, [w[0]]) && Match(rest, w[1..]) {
      assert w[..1] == [w[0]];
      assert Denotes(t, w[..1]) && Match(rest, w[1..]);
    }
    if Match([t] + rest, w) {
      var e :| 0 <= e <= |w| && Denotes(t, w[..e]) && Match(rest, w[e..]);
      assert e == 1 && w[..1] == [w[0]];
    }
  }

  /** Past the end of the name, the name does not matter. */
  lemma {:induction false} NormalPastEnd(pattern: string, p: nat, name: string, s: nat)
    requires s > |name|
    ensures Normal(pattern, p, name, s) <==> PastEnd(pattern, p)
    decreases |pattern| - p
  {
    if p < |pattern| {
      NormalPastEnd(pattern, p + 1, name, s);
      NormalPastEnd(pattern, p + 1, name, s + 1);
      assert AfterRun(pattern, p + 1, name, s) <==> Normal(pattern, p + 1, name, s);
      if SafeCharAt(pattern, p + 1) == '*' {
        var q := if SafeCharAt(pattern, p + 2) == '/' then p + 3 else p + 2;
        NormalPastEnd(pattern, q, name, s);
        assert Somewhere(pattern, q, name, s) <==> Normal(pattern, q, name, s);
      }
    }
  }

  /**
   From any position, the loops accept whatever the rest of the pattern stands for, and nothing
   else if its NUL bytes do no harm.
   */
  lemma {:induction false} NormalIffMatch(pattern: string, p: nat, name: string, s: nat)
    requires p <= |pattern| && s <= |name|
    ensures Match(Tokens(pattern[p..]), name[s..]) ==> Normal(pattern, p, name, s)
    ensures NulSafe(pattern) && Normal(pattern, p, name, s) ==> Match(Tokens(pattern[p..]), name[s..])
    decreases |pattern| - p, 1
  {
    var rest, w := pattern[p..], name[s..];
    if p < |pattern| {
      assert rest[0] == pattern[p] && rest[1..] == pattern[p + 1..];
      if pattern[p] != '*' {
        OneByteMatch(if rest[0] == '?' then AnyOne else Lit(rest[0]), Tokens(pattern[p + 1..]), w);
        if s < |name| {
          assert w[1..] == name[s + 1..];
          NormalIffMatch(pattern, p + 1, name, s + 1);
        } else {
          NormalPastEnd(pattern, p + 1, name, s + 1);
          assert NulSafe(pattern) ==> !Overruns(pattern, p);
        }
      } else if p + 1 == |pattern| {
        FinalTokenMatch(FinalRun, w);
        assert Tokens(rest) == [FinalRun];
        assert Normal(pattern, p, name, s) <==> WildEnd(name, s);
        WildEndMeansFinalRun(name, s);
      } else if pattern[p + 1] == '*' {
        DeepMatch(pattern, p, name, s);
      } else if pattern[p + 1] == NUL {
        assert CutShort(pattern, p);
        if Match(Tokens(rest), w) { RunToNul(rest, name, s); }
      } else {
        RunMatch(pattern, p + 1, name, s);
        assert Tokens(rest) == [Run] + Tokens(pattern[p + 1..]);
        assert Normal(pattern, p, name, s) <==> Wild(pattern, p + 1, name, s);
      }
    }
  }

  /** A run that a NUL byte ends is also a final run of the loops. */
  lemma RunToNul(rest: string, name: string, s: nat)
    requires |rest| > 1 && rest[0] == '*' && rest[1] == NUL && s <= |name| && Match(Tokens(rest), name[s..])
    ensures WildEnd(name, s)
  {
    var w, after := name[s..], Tokens(rest[1..]);
    assert Tokens(rest)[1..] == after && after[1..] == Tokens(rest[1..][1..]);
    var e :| 0 <= e <= |w| && SlashFree(w[..e]) && Match(after, w[e..]);
    assert [Lit(NUL)] + after[1..] == after;
    OneByteMatch(Lit(NUL), after[1..], w[e..]);
    WildEndMeansFinalRun(name, s);
  }

  lemma {:induction false} DeepMatch(pattern: string, p: nat, name: string, s: nat)
    requires p + 1 < |pattern| && s <= |name| && pattern[p] == pattern[p + 1] == '*'
    ensures Match(Tokens(pattern[p..]), name[s..]) ==> Normal(pattern, p, name, s)
    ensures NulSafe(pattern) && Normal(pattern, p, name, s) ==> Match(Tokens(pattern[p..]), name[s..])
    decreases |pattern| - p, 0
  {
    var q := if p + 2 < |pattern| && pattern[p + 2] == '/' then p + 3 else p + 2;
    var rest := pattern[p..];
    assert (if |rest| > 2 && rest[2] == '/' then rest[3..] else rest[2..]) == pattern[q..];
    if p + 2 == |pattern| {
      FinalTokenMatch(Deep, name[s..]);
      assert rest[2..] == [] && Tokens(rest) == [Deep];
    } else {
      assert NulSafe(pattern) ==> !CutShort(pattern, p + 1);
      SomewhereMatch(pattern, q, name, s);
      assert Tokens(rest) == [Deep] + Tokens(pattern[q..]);
      assert Normal(pattern, p, name, s) <==> Multi(pattern, p + 2, name, s);
    }
  }

  lemma {:induction false} SomewhereMatch(pattern: string, q: nat, name: string, s: nat)
    requires q <= |pattern| && s <= |name|
    ensures Match([Deep] + Tokens(pattern[q..]), name[s..]) ==> Somewhere(pattern, q, name, s)
    ensures NulSafe(pattern) && Somewhere(pattern, q, name, s) ==> Match([Deep] + Tokens(pattern[q..]), name[s..])
    decreases |pattern| - q, 2, |name| - s
  {
    NormalIffMatch(pattern, q, name, s);
    SkipOne(Deep, Tokens(pattern[q..]), name[s..]);
    if s < |name| {
      assert name[s..][1..] == name[s + 1..];
      SomewhereMatch(pattern, q, name, s + 1);
    }
  }

  lemma {:induction false} RunMatch(pattern: string, p: nat, name: string, s: nat)
    requires 0 < p < |pattern| && s <= |name|
    ensures Match([Run] + Tokens(pattern[p..]), name[s..]) ==> AfterRun(pattern, p, name, s)
    ensures NulSafe(pattern) && AfterRun(pattern, p, name, s) ==> Match([Run] + Tokens(pattern[p..]), name[s..])
    decreases |pattern| - p, 2, |name| - s
  {
    NormalIffMatch(pattern, p, name, s);
    SkipOne(Run, Tokens(pattern[p..]), name[s..]);
    if s < |name| {
      assert name[s..][1..] == name[s + 1..];
      RunMatch(pattern, p, name, s + 1);
    }
  }

  /** A run stops here, or takes one more byte. */
  lemma SkipOne(t: Token, rest: seq<Token>, w: string)
    requires t.Run? || t.Deep?
    ensures Match([t] + rest, w) <==>
              Match(rest, w) || (|w| > 0 && Denotes(t, [w[0]]) && Match([t] + rest, w[1..]))
  {
    assert ([t] + rest)[1..] == rest && w[..0] == "" && w[0..] == w;
    if Match(rest, w) { assert Denotes(t, w[..0]) && Match(rest, w[0..]); }
    if Match([t] + rest, w) {
      var e :| 0 <= e <= |w| && Denotes(t, w[..e]) && Match(rest, w[e..]);
      if e > 0 { Shorter(t, rest, w, e); }
    }
    if |w| > 0 && Denotes(t, [w[0]]) && Match([t] + rest, w[1..]) { Longer(t, rest, w); }
  }

  lemma Shorter(t: Token, rest: seq<Token>, w: string, e: nat)
    requires (t.Run? || t.Deep?) && 0 < e <= |w| && Denotes(t, w[..e]) && Match(rest, w[e..])
    ensures Denotes(t, [w[0]]) && Match([t] + rest, w[1..])
  {
    assert ([t] + rest)[1..] == rest;
    assert w[..e][0] == w[0] && w[1..][..e - 1] == w[..e][1..] && w[1..][e - 1..] == w[e..];
  }

  lemma Longer(t: Token, rest: seq<Token>, w: string)
    requires (t.Run? || t.Deep?) && |w| > 0 && Denotes(t, [w[0]]) && Match([t] + rest, w[1..])
    ensures Match([t] + rest, w)
  {
    assert ([t] + rest)[1..] == rest;
    var e :| 0 <= e <= |w[1..]| && Denotes(t, w[1..][..e]) && Match(rest, w[1..][e..]);
    assert w[..e + 1] == [w[0]] + w[1..][..e] && w[1..][e..] == w[e + 1..];
  }

  /** The loops accept every name of the language, whatever bytes the pattern has: no early return loses a match. */
  lemma MatcherMissesNothing(pattern: string, name: string)
    requires Accepts(pattern, name)
    ensures Normal(pattern, 0, name, 0)
  {
    NormalIffMatch(pattern, 0, name, 0);
    assert pattern[0..] == pattern && name[0..] == name;
    MatchIffSplits(Tokens(pattern), name);
  }

  /**
   For a pattern whose NUL bytes do no harm, in particular one without NUL bytes, and any name,
   the backtracking loops accept exactly the declared language.
   */
  lemma MatcherAcceptsTheLanguage(pattern: string, name: string)
    requires NUL !in pattern || NulSafe(pattern)
    ensures Normal(pattern, 0, name, 0) <==> Accepts(pattern, name)
  {
    NormalIffMatch(pattern, 0, name, 0);
    assert pattern[0..] == pattern && name[0..] == name;
    MatchIffSplits(Tokens(pattern), name);
  }

  // --------------------------------------------------- the language in plain words

  /** Bytes without a special meaning match themselves, and what follows them is matched by itself. */
  lemma {:induction false} PlainPrefix(prefix: string, rest: string, name: string)
    requires '*' !in prefix && '?' !in prefix
    ensures Accepts(prefix + rest, name) <==> prefix <= name && Accepts(rest, name[|prefix|..])
  {
    MatchIffSplits(Tokens(prefix + rest), name);
    if prefix <= name { MatchIffSplits(Tokens(rest), name[|prefix|..]); }
    PlainPrefixMatch(prefix, rest, name);
  }

  lemma {:induction false} PlainPrefixMatch(prefix: string, rest: string, name: string)
    requires '*' !in prefix && '?' !in prefix
    ensures Match(Tokens(prefix + rest), name) <==> prefix <= name && Match(Tokens(rest), name[|prefix|..])
  {
    if prefix == "" {
      assert prefix + rest == rest && name[0..] == name;
    } else {
      var pattern, tail := prefix + rest, prefix[1..] + rest;
      assert pattern[0] == prefix[0] && pattern[1..] == tail;
      OneByteMatch(Lit(prefix[0]), Tokens(tail), name);
      if |name| > 0 {
        PlainPrefixMatch(prefix[1..], rest, name[1..]);
        assert prefix[0] == name[0] && prefix[1..] <= name[1..] <==> prefix <= name;
        if |prefix| <= |name| { assert name[1..][|prefix| - 1..] == name[|prefix|..]; }
      }
    }
  }

  /** A pattern without wildcards accepts itself only. */
  lemma PlainPattern(pattern: string, name: string)
    requires '*' !in pattern && '?' !in pattern
    ensures Accepts(pattern, name) <==> name == pattern
  {
    assert pattern + "" == pattern;
    PlainPrefix(pattern, "", name);
    if pattern <= name {
      MatchIffSplits(Tokens(""), name[|pattern|..]);
      assert name == pattern + name[|pattern|..];
    }
  }

  /** At the end of a pattern: `?` is one byte other than a slash, `*` a run without slash but for a closing one, `**` anything. */
  lemma FinalWildcards(name: string)
    requires NUL !in name
    ensures Accepts("?", name) <==> |name| == 1 && name != "/"
    ensures Accepts("*", name) <==> forall i :: 0 <= i < |name| - 1 ==> name[i] != '/'
    ensures Accepts("**", name)
  {
    MatchIffSplits(Tokens("?"), name);
    MatchIffSplits(Tokens("*"), name);
    MatchIffSplits(Tokens("**"), name);
    assert Tokens("?") == [AnyOne] && Tokens("*") == [FinalRun] && Tokens("**") == [Deep];
    FinalTokenMatch(AnyOne, name);
    FinalTokenMatch(FinalRun, name);
    FinalTokenMatch(Deep, name);
    FinalRunMeans(name);
  }

  /** Before a plain rest: `*` is a run without slash, `**` anything, and a slash right after `**` belongs to it. */
  lemma InnerWildcards(rest: string, name: string)
    requires rest != "" && '*' !in rest && '?' !in rest
    ensures Accepts("*" + rest, name) <==> exists k :: 0 <= k <= |name| && SlashFree(name[..k]) && name[k..] == rest
    ensures Accepts("**/" + rest, name) <==> exists k :: 0 <= k <= |name| && name[k..] == rest
    ensures rest[0] != '/' ==> (Accepts("**" + rest, name) <==> exists k :: 0 <= k <= |name| && name[k..] == rest)
  {
    TokensOfWildcards(rest);
    AcceptsAfter("*" + rest, Run, rest, name);
    AcceptsAfter("**/" + rest, Deep, rest, name);
    if rest[0] != '/' { AcceptsAfter("**" + rest, Deep, rest, name); }
  }

  lemma TokensOfWildcards(rest: string)
    requires rest != "" && '*' !in rest
    ensures Tokens("*" + rest) == [Run] + Tokens(rest)
    ensures Tokens("**/" + rest) == [Deep] + Tokens(rest)
    ensures rest[0] != '/' ==> Tokens("**" + rest) == [Deep] + Tokens(rest)
  {
    assert ("*" + rest)[1..] == rest && ("**/" + rest)[3..] == rest && ("**" + rest)[2..] == rest;
    assert rest[0] in rest;
  }

  lemma AcceptsAfter(pattern: string, t: Token, rest: string, name: string)
    requires Tokens(pattern) == [t] + Tokens(rest) && '*' !in rest && '?' !in rest
    ensures Accepts(pattern, name) <==> exists k :: 0 <= k <= |name| && Denotes(t, name[..k]) && name[k..] == rest
  {
    MatchIffSplits(Tokens(pattern), name);
    assert ([t] + Tokens(rest))[1..] == Tokens(rest);
    forall k | 0 <= k <= |name| ensures Match(Tokens(rest), name[k..]) <==> name[k..] == rest {
      MatchIffSplits(Tokens(rest), name[k..]);
      PlainPattern(rest, name[k..]);
    }
  }

  lemma FinalRunMeans(name: string)
    requires NUL !in name
    ensures Denotes(FinalRun, name) <==> forall i :: 0 <= i < |name| - 1 ==> name[i] != '/'
  {
    if name != "" && (forall i :: 0 <= i < |name| - 1 ==> name[i] != '/') && !SlashFree(name) {
      var k := |name| - 1;
      assert name[k] == '/' && SlashFree(name[..k]);
    }
    if k :| 0 <= k < |name| && SlashFree(name[..k]) && (name[k] == NUL || (name[k] == '/' && k == |name| - 1)) {
      forall i | 0 <= i < k ensures name[i] != '/' { assert name[i] == name[..k][i]; }
    }
  }

  // ------------------------------------------- NUL bytes in the pattern, exactly

  function Nuls(w: string): nat {
    multiset(w)[NUL]
  }

  function NulTokens(tokens: seq<Token>): nat {
    if tokens == [] then 0 else (if tokens[0] == Lit(NUL) then 1 else 0) + NulTokens(tokens[1..])
  }

  /** The language wants a NUL byte in the name for each one in the pattern. */
  lemma {:induction false} MatchHasNuls(tokens: seq<Token>, w: string)
    requires Match(tokens, w)
    ensures Nuls(w) >= NulTokens(tokens)
  {
    if tokens != [] {
      var e :| 0 <= e <= |w| && Denotes(tokens[0], w[..e]) && Match(tokens[1..], w[e..]);
      MatchHasNuls(tokens[1..], w[e..]);
      assert w == w[..e] + w[e..];
    }
  }

  /**
   If a star is cut short or a NUL byte overruns at `i`, the loops accept, after `seen`, some
   rest of a name that has too few NUL bytes for the language.
   */
  lemma {:induction false} ShortOfNuls(pattern: string, p: nat, i: nat, seen: string) returns (w: string)
    requires p <= i < |pattern| && (CutShort(pattern, i) || Overruns(pattern, i))
    ensures Normal(pattern, p, seen + w, |seen|)
    ensures Nuls(w) < NulTokens(Tokens(pattern[p..]))
    decreases |pattern| - p
  {
    var rest := pattern[p..];
    assert rest[0] == pattern[p] && rest[1..] == pattern[p + 1..];
    if pattern[p] == '*' {
      w := ShortAtStar(pattern, p, i, seen);
    } else if p == i {
      w := "";
      NormalPastEnd(pattern, p + 1, seen + w, |seen| + 1);
    } else {
      var c := if pattern[p] == '?' then 'a' else pattern[p];
      var more := ShortOfNuls(pattern, p + 1, i, seen + [c]);
      w := [c] + more;
      assert seen + w == seen + [c] + more;
    }
  }

  lemma {:induction false} ShortAtStar(pattern: string, p: nat, i: nat, seen: string) returns (w: string)
    requires p <= i < |pattern| && (CutShort(pattern, i) || Overruns(pattern, i)) && pattern[p] == '*'
    ensures Normal(pattern, p, seen + w, |seen|)
    ensures Nuls(w) < NulTokens(Tokens(pattern[p..]))
    decreases |pattern| - p, 0
  {
    var rest := pattern[p..];
    var q := if pattern[p + 1] != '*' then p + 1 else if SafeCharAt(pattern, p + 2) == '/' then p + 3 else p + 2;
    assert Tokens(rest)[1..] == Tokens(pattern[q..]);
    if pattern[q] == NUL && pattern[q - 1] == '*' {
      w := "";
      assert Tokens(pattern[q..])[0] == Lit(NUL);
    } else {
      w := ShortOfNuls(pattern, q, i, seen);
    }
  }

  /** The loops accept exactly the language, on all names, exactly for the patterns whose NUL bytes do no harm. */
  lemma AcceptsTheLanguageIff(pattern: string)
    ensures (forall name :: Normal(pattern, 0, name, 0) <==> Accepts(pattern, name)) <==> NulSafe(pattern)
  {
    if NulSafe(pattern) {
      forall name ensures Normal(pattern, 0, name, 0) <==> Accepts(pattern, name) {
        MatcherAcceptsTheLanguage(pattern, name);
      }
    } else {
      var name := NulPatternMatchesTooMuch(pattern);
    }
  }

  /** For every other pattern there is a name that the loops accept and the language does not. */
  lemma NulPatternMatchesTooMuch(pattern: string) returns (name: string)
    requires !NulSafe(pattern)
    ensures Normal(pattern, 0, name, 0) && !Accepts(pattern, name)
  {
    var i :| 0 <= i < |pattern| && (CutShort(pattern, i) || Overruns(pattern, i));
    name := ShortOfNuls(pattern, 0, i, "");
    assert pattern[0..] == pattern && "" + name == name;
    MatchIffSplits(Tokens(pattern), name);
    if Match(Tokens(pattern), name) { MatchHasNuls(Tokens(pattern), name); }
  }

  lemma {:induction false} NoStarNoMatchPastEnd(pattern: string, p: nat)
    requires '*' !in pattern
    ensures !PastEnd(pattern, p)
    decreases |pattern| - p
  {
    if p < |pattern| { NoStarNoMatchPastEnd(pattern, p + 1); }
  }

  /** Without a star, NUL bytes are harmless; one before a final star is not needed in the name. */
  lemma NulExamples(pattern: string)
    ensures '*' !in pattern ==> NulSafe(pattern)
    ensures pattern == [NUL, '*'] ==> !NulSafe(pattern) && Normal(pattern, 0, "", 0) && !Accepts(pattern, "")
  {
    if '*' !in pattern {
      forall i | 0 <= i < |pattern| ensures !CutShort(pattern, i) && !Overruns(pattern, i) {
        NoStarNoMatchPastEnd(pattern, i + 1);
      }
    }
    if pattern == [NUL, '*'] {
      assert Overruns(pattern, 0);
      assert Normal(pattern, 1, "", 1);
      assert Tokens(pattern)[0] == Lit(NUL);
      forall pieces ensures !Splits(Tokens(pattern), pieces, "") {
      }
    }
  }
}

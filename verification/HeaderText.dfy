/** The textual pieces of a header: splitting, joining and decimal numbers. */
module HeaderText {
  import opened Wrappers

  // ------------------------------------------------------------ split and join

  /** strings.Split with a one-byte separator. */
  function Split(s: string, sep: char): (parts: seq<string>)
    ensures |parts| > 0
  {
    if s == "" then [""]
    else
      var rest := Split(s[1..], sep);
      if s[0] == sep then [""] + rest else [[s[0]] + rest[0]] + rest[1..]
  }

  /** strings.Join with a one-byte separator. */
  function Join(parts: seq<string>, sep: char): string {
    if parts == [] then "" else if |parts| == 1 then parts[0]
    else parts[0] + [sep] + Join(parts[1..], sep)
  }

  lemma {:induction false} SplitPlain(s: string, sep: char)
    requires sep !in s
    ensures Split(s, sep) == [s]
  {
    if s != "" {
      SplitPlain(s[1..], sep);
      assert [s[0]] + s[1..] == s;
    }
  }

  lemma {:induction false} SplitFirst(a: string, b: string, sep: char)
    requires sep !in a
    ensures Split(a + [sep] + b, sep) == [a] + Split(b, sep)
  {
    var s := a + [sep] + b;
    if a == "" {
      assert s[1..] == b;
    } else {
      SplitFirst(a[1..], b, sep);
      assert s[1..] == a[1..] + [sep] + b;
      assert s[0] == a[0] && [a[0]] + a[1..] == a;
      var rest := [a[1..]] + Split(b, sep);
      assert rest[1..] == Split(b, sep);
    }
  }

  /** Parts without the separator come back unchanged. */
  lemma {:induction false} SplitJoin(parts: seq<string>, sep: char)
    requires parts != [] && forall i :: 0 <= i < |parts| ==> sep !in parts[i]
    ensures Split(Join(parts, sep), sep) == parts
  {
    if |parts| == 1 {
      SplitPlain(parts[0], sep);
    } else {
      SplitJoin(parts[1..], sep);
      SplitFirst(parts[0], Join(parts[1..], sep), sep);
    }
  }

  /** Splitting takes the string apart at every separator, and drops nothing else. */
  lemma {:induction false} JoinSplit(s: string, sep: char)
    ensures Join(Split(s, sep), sep) == s
    ensures forall i :: 0 <= i < |Split(s, sep)| ==> sep !in Split(s, sep)[i]
  {
    if s != "" {
      var rest := Split(s[1..], sep);
      JoinSplit(s[1..], sep);
      assert [s[0]] + s[1..] == s;
      if s[0] == sep {
        assert ([""] + rest)[1..] == rest;
      } else if |rest| > 1 {
        var parts := [[s[0]] + rest[0]] + rest[1..];
        assert parts[1..] == rest[1..];
        assert [s[0]] + rest[0] + [sep] + Join(rest[1..], sep) == [s[0]] + (rest[0] + [sep] + Join(rest[1..], sep));
      }
    }
  }

  // ----------------------------------------------------------------- numbers

  function Digits(n: nat): string {
    if n < 10 then ['0' + n as char] else Digits(n / 10) + ['0' + (n % 10) as char]
  }

  /** strconv.Itoa */
  function Itoa(n: int): string {
    if n < 0 then "-" + Digits(-n) else Digits(n)
  }

  function DigitValue(c: char): Option<nat> {
    if '0' <= c <= '9' then Some((c - '0') as int)
    else if 'a' <= c <= 'z' then Some((c - 'a') as int + 10)
    else if 'A' <= c <= 'Z' then Some((c - 'A') as int + 10)
    else None
  }

  /** The value of the digits, read from the last; underscores count for nothing where they are allowed. */
  function Value(s: string, base: nat, underscores: bool): Option<nat> {
    if s == "" then Some(0)
    else
      var last := s[|s| - 1];
      match Value(s[..|s| - 1], base, underscores)
      case None => None
      case Some(high) =>
        if underscores && last == '_' then Some(high)
        else
          match DigitValue(last)
          case None => None
          case Some(d) => if d < base then Some(high * base + d) else None
  }

  /** An underscore stands between two digits, or after a base prefix. */
  predicate SeparatorsOk(s: string, afterDigit: bool) {
    s == "" ||
    (if s[0] == '_' then afterDigit && |s| > 1 && s[1] != '_' && SeparatorsOk(s[1..], false)
     else SeparatorsOk(s[1..], true))
  }

  function Magnitude(s: string, base: nat): Option<int> {
    if s == "" then None
    else if base != 0 then Value(s, base, false)
    else if s[0] != '0' then
      if SeparatorsOk(s, false) then Value(s, 10, true) else None
    else
      var (b, digits) :=
        if |s| >= 3 && s[1] in "bB" then (2, s[2..])
        else if |s| >= 3 && s[1] in "oO" then (8, s[2..])
        else if |s| >= 3 && s[1] in "xX" then (16, s[2..])
        else (8, s[1..]);
      if SeparatorsOk(digits, true) then Value(digits, b, true) else None
  }

  /** strconv.ParseInt for a signed type with the given bound: -limit <= n < limit. */
  function ParseInt(s: string, base: nat, limit: int): Option<int> {
    var negative := s != "" && s[0] == '-';
    match Magnitude(if s != "" && (s[0] == '-' || s[0] == '+') then s[1..] else s, base)
    case None => None
    case Some(m) =>
      var n := if negative then -m else m;
      if -limit <= n < limit then Some(n) else None
  }

  lemma {:induction false} DigitsOfNumber(n: nat)
    ensures Digits(n) != ""
    ensures forall i :: 0 <= i < |Digits(n)| ==> '0' <= Digits(n)[i] <= '9'
    ensures n > 0 ==> Digits(n)[0] != '0'
    ensures Value(Digits(n), 10, true) == Value(Digits(n), 10, false) == Some(n)
  {
    if n >= 10 {
      DigitsOfNumber(n / 10);
      assert Digits(n)[..|Digits(n)| - 1] == Digits(n / 10);
    } else {
      assert Digits(n)[..|Digits(n)| - 1] == "";
    }
  }

  lemma {:induction false} PlainDigitsHaveNoSeparators(s: string, afterDigit: bool)
    requires '_' !in s
    ensures SeparatorsOk(s, afterDigit)
  {
    if s != "" { PlainDigitsHaveNoSeparators(s[1..], true); }
  }

  /** Decimal notation, most significant digit first, with a minus sign in front. */
  lemma NumberExamples()
    ensures Itoa(0) == "0" && Itoa(7) == "7" && Itoa(120) == "120" && Itoa(-45) == "-45"
  {
    assert Digits(12) == "12";
    assert Digits(120) == Digits(12) + "0";
  }

  lemma MagnitudeOfDigits(n: nat, base: nat)
    requires base == 10 || base == 0
    ensures Magnitude(Digits(n), base) == Some(n)
    ensures Digits(n) != "" && Digits(n)[0] != '-' && Digits(n)[0] != '+'
  {
    DigitsOfNumber(n);
    PlainDigitsHaveNoSeparators(Digits(n), false);
    if n == 0 { assert Digits(0)[1..] == ""; }
  }

  /** Any number is parsed, with its sign, exactly if it fits the type. */
  lemma ParseAnyNumber(n: int, base: nat, limit: int)
    requires base == 10 || base == 0
    ensures ParseInt(Itoa(n), base, limit) == if -limit <= n < limit then Some(n) else None
    ensures n >= 0 ==> ParseInt("+" + Itoa(n), base, limit) == if n < limit then Some(n) else None
  {
    MagnitudeOfDigits(if n < 0 then -n else n, base);
    if n < 0 {
      assert ("-" + Digits(-n))[1..] == Digits(-n);
    } else {
      assert ("+" + Digits(n))[1..] == Digits(n);
    }
  }

  /** A non-negative number in range survives printing and parsing, in base 10 and with base detection. */
  lemma ParseItoa(n: nat, base: nat, limit: nat)
    requires (base == 10 || base == 0) && n < limit
    ensures ParseInt(Itoa(n), base, limit) == Some(n) && '-' !in Itoa(n)
  {
    DigitsOfNumber(n);
    PlainDigitsHaveNoSeparators(Digits(n), false);
    if n == 0 {
      assert Digits(0)[1..] == "";
    }
  }
}

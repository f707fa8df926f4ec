/** Standard base64 with padding: section 4 of RFC 4648. */
module Base64 {
  import opened Wrappers
  import opened ByteStrings

  type Sextet = x: int | 0 <= x < 64

  const PAD: char := '='

  function Letter(i: Sextet): char {
    if i < 26 then 'A' + i as char
    else if i < 52 then 'a' + (i - 26) as char
    else if i < 62 then '0' + (i - 52) as char
    else if i == 62 then '+' else '/'
  }

  function IndexOf(c: char): Option<Sextet> {
    if 'A' <= c <= 'Z' then Some((c - 'A') as int)
    else if 'a' <= c <= 'z' then Some((c - 'a') as int + 26)
    else if '0' <= c <= '9' then Some((c - '0') as int + 52)
    else if c == '+' then Some(62)
    else if c == '/' then Some(63)
    else None
  }

  /** The four sextets of a 24-bit group. */
  function Group(a: byte, b: byte, c: byte): (Sextet, Sextet, Sextet, Sextet) {
    (a / 4, a % 4 * 16 + b / 16, b % 16 * 4 + c / 64, c % 64)
  }

  function Ungroup(p: Sextet, q: Sextet, r: Sextet, s: Sextet): (byte, byte, byte) {
    (p * 4 + q / 16, q % 16 * 16 + r / 4, r % 4 * 64 + s)
  }

  function Encode(bs: Bytes): string {
    if bs == [] then ""
    else if |bs| == 1 then
      var (p, q, _, _) := Group(bs[0], 0, 0);
      [Letter(p), Letter(q), PAD, PAD]
    else if |bs| == 2 then
      var (p, q, r, _) := Group(bs[0], bs[1], 0);
      [Letter(p), Letter(q), Letter(r), PAD]
    else
      var (p, q, r, s) := Group(bs[0], bs[1], bs[2]);
      [Letter(p), Letter(q), Letter(r), Letter(s)] + Encode(bs[3..])
  }

  /** Quads of letters; only the last may be padded. The unused bits of a padded quad are ignored. */
  function DecodeQuads(s: string): Option<Bytes> {
    if s == "" then Some([])
    else if |s| < 4 then None
    else
      match (IndexOf(s[0]), IndexOf(s[1]))
      case (Some(p), Some(q)) =>
        if s[2] == PAD then
          if |s| == 4 && s[3] == PAD then Some([Ungroup(p, q, 0, 0).0]) else None
        else if s[3] == PAD then
          match IndexOf(s[2])
          case Some(r) => if |s| == 4 then Some([Ungroup(p, q, r, 0).0, Ungroup(p, q, r, 0).1]) else None
          case None => None
        else
          (match (IndexOf(s[2]), IndexOf(s[3]), DecodeQuads(s[4..]))
           case (Some(r), Some(t), Some(rest)) =>
             var (a, b, c) := Ungroup(p, q, r, t);
             Some([a, b, c] + rest)
           case _ => None)
      case _ => None
  }

  /** The decoder skips line breaks anywhere. */
  function WithoutLineBreaks(s: string): string {
    if s == "" then ""
    else if s[0] == '\r' || s[0] == '\n' then WithoutLineBreaks(s[1..])
    else [s[0]] + WithoutLineBreaks(s[1..])
  }

  function Decode(s: string): Option<Bytes> {
    DecodeQuads(WithoutLineBreaks(s))
  }

  /** The characters of an encoding. */
  predicate Alphabet(c: char) {
    IndexOf(c).Some? || c == PAD
  }

  /** That many characters in a row. */
  function Run(first: char, n: nat): string
    requires first as int + n <= 0x80
  {
    seq(n, i requires 0 <= i < n => (first as int + i) as char)
  }

  /** Table 1 of RFC 4648. */
  const ALPHABET := Run('A', 26) + Run('a', 26) + Run('0', 10) + "+/"

  lemma LettersAreTheAlphabet(i: Sextet)
    ensures |ALPHABET| == 64 && Letter(i) == ALPHABET[i]
  {
  }

  /** A group is one 24-bit number, most significant byte and sextet first. */
  lemma GroupIsOneNumber(a: byte, b: byte, c: byte)
    ensures var (p, q, r, s) := Group(a, b, c);
            a * 0x1_0000 + b * 0x100 + c == p * 0x4_0000 + q * 0x1000 + r * 0x40 + s
  {
  }

  /** The byte at a position; the last group is filled up with zeros. */
  function ByteAt(bs: Bytes, i: nat): byte {
    if i < |bs| then bs[i] else 0
  }

  function GroupNumber(bs: Bytes, g: nat): (n: nat)
    ensures n < 0x100_0000
  {
    ByteAt(bs, 3 * g) * 0x1_0000 + ByteAt(bs, 3 * g + 1) * 0x100 + ByteAt(bs, 3 * g + 2)
  }

  /** The four base-64 digits of a 24-bit number, most significant first. */
  function Digit(n: nat, j: nat): Sextet
    requires n < 0x100_0000 && j < 4
  {
    match j
    case 0 => n / 0x4_0000
    case 1 => n / 0x1000 % 0x40
    case 2 => n / 0x40 % 0x40
    case _ => n % 0x40
  }

  /**
   The definition in section 4 of RFC 4648, group by group: the digits of the 24-bit number by
   the letters of the alphabet, with padding in place of those beyond the bytes there are.
   */
  lemma {:induction false} EncodingOfGroup(bs: Bytes, g: nat, j: nat)
    requires 3 * g < |bs| && j < 4
    ensures |Encode(bs)| == (|bs| + 2) / 3 * 4 && 4 * g + j < |Encode(bs)|
    ensures Encode(bs)[4 * g + j] == if 3 * g + j <= |bs| then ALPHABET[Digit(GroupNumber(bs, g), j)] else PAD
  {
    LengthOf(bs);
    if g > 0 {
      EncodingOfGroup(bs[3..], g - 1, j);
      NextGroups(bs, 4 * g + j);
      assert GroupNumber(bs, g) == GroupNumber(bs[3..], g - 1);
    } else {
      FirstQuad(bs, j);
    }
  }

  lemma DigitsAre(n: nat, p: Sextet, q: Sextet, r: Sextet, s: Sextet)
    requires n == p * 0x4_0000 + q * 0x1000 + r * 0x40 + s
    ensures n / 0x4_0000 == p && n / 0x1000 % 0x40 == q && n / 0x40 % 0x40 == r && n % 0x40 == s
  {
    assert n / 0x40 == p * 0x1000 + q * 0x40 + r;
    assert n / 0x1000 == p * 0x40 + q;
  }

  lemma {:induction false} LengthOf(bs: Bytes)
    ensures |Encode(bs)| == (|bs| + 2) / 3 * 4
  {
    if |bs| >= 3 {
      LengthOf(bs[3..]);
      assert (|bs| - 3 + 2) / 3 == (|bs| + 2) / 3 - 1;
    }
  }

  lemma NextGroups(bs: Bytes, k: nat)
    requires |bs| >= 3 && 4 <= k < |Encode(bs)|
    ensures |Encode(bs[3..])| == |Encode(bs)| - 4 && Encode(bs)[k] == Encode(bs[3..])[k - 4]
  {
  }

  lemma FirstQuad(bs: Bytes, j: nat)
    requires bs != [] && j < 4
    ensures |Encode(bs)| >= 4
    ensures Encode(bs)[j] == if j <= |bs| then ALPHABET[Digit(GroupNumber(bs, 0), j)] else PAD
  {
    var a, b, c := ByteAt(bs, 0), ByteAt(bs, 1), ByteAt(bs, 2);
    var (p, q, r, s) := Group(a, b, c);
    GroupIsOneNumber(a, b, c);
    DigitsAre(GroupNumber(bs, 0), p, q, r, s);
    LettersAreTheAlphabet(Digit(GroupNumber(bs, 0), j));
    QuadLetters(bs, p, q, r, s);
  }

  lemma QuadLetters(bs: Bytes, p: Sextet, q: Sextet, r: Sextet, s: Sextet)
    requires bs != [] && (p, q, r, s) == Group(ByteAt(bs, 0), ByteAt(bs, 1), ByteAt(bs, 2))
    ensures |Encode(bs)| >= 4
    ensures Encode(bs)[0] == Letter(p) && Encode(bs)[1] == Letter(q)
    ensures Encode(bs)[2] == (if |bs| > 1 then Letter(r) else PAD)
    ensures Encode(bs)[3] == (if |bs| > 2 then Letter(s) else PAD)
  {
  }

  lemma LetterIndex(i: Sextet)
    ensures IndexOf(Letter(i)) == Some(i) && Letter(i) != PAD
  {
  }

  lemma UngroupGroup(a: byte, b: byte, c: byte)
    ensures var (p, q, r, s) := Group(a, b, c);
            Ungroup(p, q, r, s) == (a, b, c)
    ensures var (p, q, r, _) := Group(a, b, 0);
            Ungroup(p, q, r, 0).0 == a && Ungroup(p, q, r, 0).1 == b
    ensures var (p, q, _, _) := Group(a, 0, 0);
            Ungroup(p, q, 0, 0).0 == a
  {
  }

  lemma {:induction false} DecodeQuadsEncode(bs: Bytes)
    ensures DecodeQuads(Encode(bs)) == Some(bs)
  {
    if |bs| >= 3 {
      DecodeQuadsEncode(bs[3..]);
      FullGroup(bs);
    } else if |bs| == 2 {
      PaddedPair(bs[0], bs[1]);
      assert bs == [bs[0], bs[1]];
    } else if |bs| == 1 {
      PaddedByte(bs[0]);
      assert bs == [bs[0]];
    }
  }

  lemma PaddedByte(a: byte)
    ensures DecodeQuads(Encode([a])) == Some([a])
  {
    var (p, q, _, _) := Group(a, 0, 0);
    UngroupGroup(a, 0, 0);
    LetterIndex(p);
    LetterIndex(q);
  }

  lemma PaddedPair(a: byte, b: byte)
    ensures DecodeQuads(Encode([a, b])) == Some([a, b])
  {
    var (p, q, r, _) := Group(a, b, 0);
    UngroupGroup(a, b, 0);
    LetterIndex(p);
    LetterIndex(q);
    LetterIndex(r);
  }

  lemma FullGroup(bs: Bytes)
    requires |bs| >= 3 && DecodeQuads(Encode(bs[3..])) == Some(bs[3..])
    ensures DecodeQuads(Encode(bs)) == Some(bs)
  {
    var (p, q, r, t) := Group(bs[0], bs[1], bs[2]);
    UngroupGroup(bs[0], bs[1], bs[2]);
    QuadDecodes(Encode(bs), bs, p, q, r, t);
  }

  lemma QuadDecodes(s: string, bs: Bytes, p: Sextet, q: Sextet, r: Sextet, t: Sextet)
    requires |bs| >= 3 && Ungroup(p, q, r, t) == (bs[0], bs[1], bs[2])
    requires s == [Letter(p), Letter(q), Letter(r), Letter(t)] + Encode(bs[3..])
    requires DecodeQuads(Encode(bs[3..])) == Some(bs[3..])
    ensures DecodeQuads(s) == Some(bs)
  {
    LetterIndex(p);
    LetterIndex(q);
    LetterIndex(r);
    LetterIndex(t);
    assert s[4..] == Encode(bs[3..]);
    FullQuad(s, p, q, r, t, bs[3..]);
    FirstThree(bs);
  }

  lemma FirstThree(bs: Bytes)
    requires |bs| >= 3
    ensures [bs[0], bs[1], bs[2]] + bs[3..] == bs
  {
  }

  lemma FullQuad(s: string, p: Sextet, q: Sextet, r: Sextet, t: Sextet, rest: Bytes)
    requires |s| >= 4 && IndexOf(s[0]) == Some(p) && IndexOf(s[1]) == Some(q)
    requires IndexOf(s[2]) == Some(r) && IndexOf(s[3]) == Some(t) && DecodeQuads(s[4..]) == Some(rest)
    ensures DecodeQuads(s) == Some([Ungroup(p, q, r, t).0, Ungroup(p, q, r, t).1, Ungroup(p, q, r, t).2] + rest)
  {
  }

  /** Nothing but the alphabet is emitted. */
  lemma {:induction false} EncodeStaysInAlphabet(bs: Bytes)
    ensures forall c :: c in Encode(bs) ==> Alphabet(c)
  {
    if bs != [] {
      var (p, q, r, t) := Group(bs[0], if |bs| > 1 then bs[1] else 0, if |bs| > 2 then bs[2] else 0);
      LetterIndex(p);
      LetterIndex(q);
      LetterIndex(r);
      LetterIndex(t);
      if |bs| >= 3 { EncodeStaysInAlphabet(bs[3..]); }
    }
  }

  /** In particular no separator of the headers and no line break. */
  lemma EncodeEmitsNoSeparator(bs: Bytes)
    ensures '-' !in Encode(bs) && ',' !in Encode(bs) && ':' !in Encode(bs) && '\r' !in Encode(bs) && '\n' !in Encode(bs)
  {
    EncodeStaysInAlphabet(bs);
    assert !Alphabet('-') && !Alphabet(',') && !Alphabet(':') && !Alphabet('\r') && !Alphabet('\n');
  }

  // --------------------------------------------------------- what anyone may encode

  /** Four letters of the alphabet are the three bytes of their 24-bit number. */
  lemma AnyQuad(p: Sextet, q: Sextet, r: Sextet, t: Sextet, rest: string)
    ensures var n := p * 0x4_0000 + q * 0x1000 + r * 0x40 + t;
            DecodeQuads([ALPHABET[p], ALPHABET[q], ALPHABET[r], ALPHABET[t]] + rest) ==
            match DecodeQuads(rest)
            case Some(bs) => Some([n / 0x1_0000, n / 0x100 % 0x100, n % 0x100] + bs)
            case None => None
  {
    ReadLetters(p, q, r, t);
    UngroupIsOneNumber(p, q, r, t);
    var s := [ALPHABET[p], ALPHABET[q], ALPHABET[r], ALPHABET[t]] + rest;
    assert s[4..] == rest;
  }

  /** A short last group: the bits that no byte needs are ignored. */
  lemma AnyPaddedQuad(p: Sextet, q: Sextet, r: Sextet)
    ensures DecodeQuads([ALPHABET[p], ALPHABET[q], PAD, PAD]) == Some([(p * 0x40 + q) / 0x10])
    ensures var n := p * 0x1000 + q * 0x40 + r;
            DecodeQuads([ALPHABET[p], ALPHABET[q], ALPHABET[r], PAD]) == Some([n / 0x400, n / 4 % 0x100])
  {
    ReadLetters(p, q, r, r);
    BytesOfPadded(p, q, r);
    PaddedDecode(ALPHABET[p], ALPHABET[q], ALPHABET[r], p, q, r);
  }

  lemma PaddedDecode(a: char, b: char, c: char, p: Sextet, q: Sextet, r: Sextet)
    requires IndexOf(a) == Some(p) && IndexOf(b) == Some(q) && IndexOf(c) == Some(r) && c != PAD
    ensures DecodeQuads([a, b, PAD, PAD]) == Some([Ungroup(p, q, 0, 0).0])
    ensures DecodeQuads([a, b, c, PAD]) == Some([Ungroup(p, q, r, 0).0, Ungroup(p, q, r, 0).1])
  {
  }

  lemma BytesOfPadded(p: Sextet, q: Sextet, r: Sextet)
    ensures Ungroup(p, q, 0, 0).0 == (p * 0x40 + q) / 0x10
    ensures var n := p * 0x1000 + q * 0x40 + r;
            Ungroup(p, q, r, 0).0 == n / 0x400 && Ungroup(p, q, r, 0).1 == n / 4 % 0x100
  {
    assert (p * 0x1000 + q * 0x40 + r) / 4 == p * 0x400 + q * 0x10 + r / 4;
  }

  lemma ReadLetters(p: Sextet, q: Sextet, r: Sextet, t: Sextet)
    ensures |ALPHABET| == 64
    ensures IndexOf(ALPHABET[p]) == Some(p) && IndexOf(ALPHABET[q]) == Some(q)
    ensures IndexOf(ALPHABET[r]) == Some(r) && IndexOf(ALPHABET[t]) == Some(t)
    ensures ALPHABET[p] != PAD && ALPHABET[q] != PAD && ALPHABET[r] != PAD && ALPHABET[t] != PAD
  {
    LettersAreTheAlphabet(p);
    LettersAreTheAlphabet(q);
    LettersAreTheAlphabet(r);
    LettersAreTheAlphabet(t);
    LetterIndex(p);
    LetterIndex(q);
    LetterIndex(r);
    LetterIndex(t);
  }

  lemma UngroupIsOneNumber(p: Sextet, q: Sextet, r: Sextet, t: Sextet)
    ensures var n := p * 0x4_0000 + q * 0x1000 + r * 0x40 + t;
            Ungroup(p, q, r, t) == (n / 0x1_0000, n / 0x100 % 0x100, n % 0x100)
  {
    var (a, b, c) := Ungroup(p, q, r, t);
    BytesAre(p * 0x4_0000 + q * 0x1000 + r * 0x40 + t, a, b, c);
  }

  lemma BytesAre(n: nat, a: byte, b: byte, c: byte)
    requires n == a * 0x1_0000 + b * 0x100 + c
    ensures n / 0x1_0000 == a && n / 0x100 % 0x100 == b && n % 0x100 == c
  {
    assert n / 0x100 == a * 0x100 + b;
  }

  /** Line breaks are skipped wherever they stand. */
  lemma LineBreaksAreSkipped(a: string, b: string, c: char)
    requires c == '\r' || c == '\n'
    ensures Decode(a + [c] + b) == Decode(a + b)
  {
    SkipLineBreak(a, b, c);
  }

  lemma SkipLineBreak(a: string, b: string, c: char)
    requires c == '\r' || c == '\n'
    ensures WithoutLineBreaks(a + [c] + b) == WithoutLineBreaks(a + b)
  {
    SkippedApart(a + [c], b);
    SkippedApart(a, [c]);
    SkippedApart(a, b);
    OnlyLineBreak(c);
    assert WithoutLineBreaks(a) + "" == WithoutLineBreaks(a);
  }

  lemma OnlyLineBreak(c: char)
    requires c == '\r' || c == '\n'
    ensures WithoutLineBreaks([c]) == ""
  {
    assert [c][1..] == "";
  }

  lemma {:induction false} SkippedApart(a: string, b: string)
    ensures WithoutLineBreaks(a + b) == WithoutLineBreaks(a) + WithoutLineBreaks(b)
  {
    if a == "" {
      assert a + b == b;
    } else {
      SkippedApart(a[1..], b);
      assert (a + b)[1..] == a[1..] + b;
    }
  }

  lemma {:induction false} NoLineBreaks(s: string)
    requires '\r' !in s && '\n' !in s
    ensures WithoutLineBreaks(s) == s
  {
    if s != "" { NoLineBreaks(s[1..]); }
  }

  lemma DecodeEncode(bs: Bytes)
    ensures Decode(Encode(bs)) == Some(bs)
  {
    EncodeEmitsNoSeparator(bs);
    NoLineBreaks(Encode(bs));
    DecodeQuadsEncode(bs);
  }
}

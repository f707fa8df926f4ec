/**
 The connection wrapper that lifts the dial deadline once the first complete HTTP/2 frame has
 been read, however the bytes are fragmented. A frame is a 9-byte header, whose first three
 bytes are the payload length, and the payload: section 4.1 of RFC 9113.
 */
module FirstFrameReader {
  import opened ByteStrings

  const HEADER_LENGTH: nat := 9

  /** 24 bits, big-endian. */
  function Unsigned24(a: nat, b: nat, c: nat): nat {
    a * 0x1_0000 + b * 0x100 + c
  }

  function PayloadLength(stream: Bytes): nat
    requires |stream| >= 3
  {
    Unsigned24(stream[0], stream[1], stream[2])
  }

  /** The stream contains its first frame. */
  predicate Complete(stream: Bytes) {
    |stream| >= HEADER_LENGTH && |stream| >= HEADER_LENGTH + PayloadLength(stream)
  }

  /** The number that the bytes write, most significant first. */
  function BigEndian(bs: Bytes): nat {
    if bs == [] then 0 else BigEndian(bs[..|bs| - 1]) * 256 + bs[|bs| - 1]
  }

  /** Section 4.1 of RFC 9113: a 9-byte header that begins with the length of the payload, and the payload. */
  lemma CompleteMeans(stream: Bytes)
    ensures Complete(stream) <==> |stream| >= 9 && |stream| >= 9 + BigEndian(stream[..3])
  {
    if |stream| >= 9 {
      var b := stream[..3];
      assert b[..2][..1][..0] == [] && b[..2][..1] == b[..1];
      assert BigEndian(b[..1]) == b[0] as int;
      assert BigEndian(b[..2]) == b[0] as int * 256 + b[1] as int;
    }
  }

  function Min(a: int, b: int): int {
    if a < b then a else b
  }

  class Reader {
    const hdr: array<byte>
    var read: nat
    var cleared: bool
    /** How often SetDeadline was called to remove the deadline. */
    var deadlineClears: nat
    /** Everything delivered so far. */
    ghost var stream: Bytes

    ghost predicate Valid()
      reads this, hdr
    {
      && hdr.Length == HEADER_LENGTH
      && (cleared <==> Complete(stream))
      && deadlineClears == (if cleared then 1 else 0)
      && (!cleared ==> read == |stream| && forall i :: 0 <= i < HEADER_LENGTH && i < read ==> hdr[i] == stream[i])
    }

    constructor ()
      ensures Valid() && stream == [] && fresh(hdr)
    {
      hdr := new byte[HEADER_LENGTH];
      read, cleared, deadlineClears, stream := 0, false, 0, [];
    }

    /** `b` is what the wrapped connection delivers; it is passed on unchanged. */
    method Read(b: Bytes) returns (n: nat)
      requires Valid()
      modifies this, hdr
      ensures Valid() && n == |b| && stream == old(stream) + b
      ensures deadlineClears == old(deadlineClears) + if Complete(old(stream) + b) && !Complete(old(stream)) then 1 else 0
    {
      CompleteStays(stream, b);
      stream := stream + b;
      if |b| > 0 && !cleared {
        if read < hdr.Length {
          var k := Min(hdr.Length - read, |b|);
          forall i | 0 <= i < k { hdr[read + i] := b[i]; }
        }
        read := read + |b|;
        if read >= hdr.Length {
          var frameLen := Unsigned24(hdr[0], hdr[1], hdr[2]);
          if read >= hdr.Length + frameLen {
            cleared := true;
            deadlineClears := deadlineClears + 1;
          }
        }
      } else {
        assert b == [] ==> stream == old(stream);
      }
      return |b|;
    }
  }

  lemma CompleteStays(stream: Bytes, more: Bytes)
    ensures Complete(stream) ==> Complete(stream + more)
  {
  }

  /**
   The frame is complete exactly when the number of bytes reaches a threshold that the header
   alone fixes, wherever reads end.
   */
  lemma ThresholdIsFixed(stream: Bytes, n: nat)
    requires HEADER_LENGTH <= |stream| && n <= |stream|
    ensures Complete(stream[..n]) <==> n >= HEADER_LENGTH + PayloadLength(stream)
  {
  }

  lemma {:induction false} TotalGrows(pieces: seq<Bytes>, i: nat)
    requires i <= |pieces|
    ensures Total(pieces[..i]) <= Total(pieces)
    decreases |pieces|
  {
    if i < |pieces| {
      TotalGrows(pieces[..|pieces| - 1], i);
      assert pieces[..|pieces| - 1][..i] == pieces[..i];
    } else {
      assert pieces[..i] == pieces;
    }
  }

  /** Two fragmentations of the same bytes leave the deadline in the same state after the same number of bytes. */
  lemma FragmentationDoesNotMatter(pieces: seq<Bytes>, others: seq<Bytes>, i: nat, j: nat)
    requires Total(pieces) == Total(others) && i <= |pieces| && j <= |others|
    requires |Total(pieces[..i])| <= |Total(others[..j])|
    ensures Complete(Total(pieces[..i])) ==> Complete(Total(others[..j]))
  {
    TotalGrows(pieces, i);
    TotalGrows(others, j);
    LongerIsComplete(Total(pieces), Total(pieces[..i]), Total(others[..j]));
  }

  lemma LongerIsComplete(stream: Bytes, a: Bytes, b: Bytes)
    requires a <= stream && b <= stream && |a| <= |b|
    ensures Complete(a) ==> Complete(b)
  {
  }

  lemma TotalStep(pieces: seq<Bytes>, i: nat)
    requires i < |pieces|
    ensures Total(pieces[..i + 1]) == Total(pieces[..i]) + pieces[i]
  {
    assert pieces[..i + 1][..i] == pieces[..i];
  }

  /** Any sequence of reads: the deadline is removed once, at the first piece that completes the frame. */
  method ReadAll(pieces: seq<Bytes>) returns (clearedAt: nat)
    ensures clearedAt <= |pieces|
    ensures clearedAt == 0 <==> !Complete(Total(pieces))
    ensures clearedAt > 0 ==> Complete(Total(pieces[..clearedAt])) && !Complete(Total(pieces[..clearedAt - 1]))
  {
    var c := new Reader();
    clearedAt := 0;
    for i := 0 to |pieces|
      invariant c.Valid() && fresh(c) && fresh(c.hdr) && c.stream == Total(pieces[..i])
      invariant clearedAt <= i && (clearedAt == 0 <==> !c.cleared)
      invariant clearedAt > 0 ==> Complete(Total(pieces[..clearedAt])) && !Complete(Total(pieces[..clearedAt - 1]))
    {
      TotalStep(pieces, i);
      var before := c.deadlineClears;
      var n := c.Read(pieces[i]);
      if c.deadlineClears > before { clearedAt := i + 1; }
    }
    assert pieces[..|pieces|] == pieces;
  }
}

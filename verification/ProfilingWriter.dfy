/**
 The chunking writer. Its buffer is a slice of a backing array that the sent chunks share, so
 the class keeps track of which part of the array still belongs to the buffer.
 */
module ProfilingWriter {
  import opened ByteStrings

  /** A chunk as the channel carries it, by value. */
  datatype Raw = Raw(data: Bytes, isLast: bool)

  // ---------------------------------------------------------------- by value

  function FullChunks(b: Bytes, size: nat): seq<Raw>
    requires size > 0
  {
    if |b| < size then [] else [Raw(b[..size], false)] + FullChunks(b[size..], size)
  }

  function Tail(b: Bytes, size: nat): Bytes
    requires size > 0
  {
    if |b| < size then b else Tail(b[size..], size)
  }

  /** Everything a profile sends: the full chunks and, with the flush, the rest. */
  function AllChunks(b: Bytes, size: nat): seq<Raw>
    requires size > 0
  {
    FullChunks(b, size) + [Raw(Tail(b, size), true)]
  }

  function Payload(chunks: seq<Raw>): Bytes {
    if chunks == [] then [] else chunks[0].data + Payload(chunks[1..])
  }

  lemma PayloadCons(c: Raw, rest: seq<Raw>)
    ensures Payload([c] + rest) == c.data + Payload(rest)
  {
    assert ([c] + rest)[1..] == rest;
  }

  lemma Regroup(first: Bytes, second: Bytes, third: Bytes, b: Bytes, k: nat)
    requires k <= |b| && first == b[..k] && second + third == b[k..]
    ensures (first + second) + third == b
  {
    assert (first + second) + third == first + (second + third);
  }

  /** No byte is lost or reordered, and the rest is shorter than a chunk. */
  lemma {:induction false} ChunksConserve(b: Bytes, size: nat)
    requires size > 0
    ensures Payload(FullChunks(b, size)) + Tail(b, size) == b
    ensures |Tail(b, size)| < size
  {
    if |b| >= size {
      var rest := b[size..];
      ChunksConserve(rest, size);
      PayloadCons(Raw(b[..size], false), FullChunks(rest, size));
      Regroup(b[..size], Payload(FullChunks(rest, size)), Tail(rest, size), b, size);
    }
  }

  /** Every chunk that a write sends is full. */
  lemma {:induction false} ChunksAreFull(b: Bytes, size: nat)
    requires size > 0
    ensures forall i :: 0 <= i < |FullChunks(b, size)| ==>
              |FullChunks(b, size)[i].data| == size && !FullChunks(b, size)[i].isLast
  {
    if |b| >= size { ChunksAreFull(b[size..], size); }
  }

  lemma {:induction false} PayloadAppend(a: seq<Raw>, c: Raw)
    ensures Payload(a + [c]) == Payload(a) + c.data
  {
    if a == [] {
      assert (a + [c])[1..] == [];
    } else {
      PayloadAppend(a[1..], c);
      assert (a + [c])[1..] == a[1..] + [c];
    }
  }

  /** After the flush the chunks carry exactly what was written, with one trailing isLast. */
  lemma AllChunksConserve(b: Bytes, size: nat)
    requires size > 0
    ensures var all := AllChunks(b, size);
            && Payload(all) == b
            && (forall i :: 0 <= i < |all| ==> (all[i].isLast <==> i == |all| - 1))
            && (forall i :: 0 <= i < |all| - 1 ==> |all[i].data| == size)
            && |all[|all| - 1].data| < size
  {
    ChunksConserve(b, size);
    ChunksAreFull(b, size);
    PayloadAppend(FullChunks(b, size), Raw(Tail(b, size), true));
  }

  /** How the bytes are split over Write calls does not matter. */
  lemma {:induction false} ChunksOfConcat(a: Bytes, p: Bytes, size: nat)
    requires size > 0
    ensures FullChunks(a + p, size) == FullChunks(a, size) + FullChunks(Tail(a, size) + p, size)
    ensures Tail(a + p, size) == Tail(Tail(a, size) + p, size)
  {
    if |a| >= size {
      ChunksOfConcat(a[size..], p, size);
      assert (a + p)[size..] == a[size..] + p && (a + p)[..size] == a[..size];
    }
  }

  // ----------------------------------------------------- slices and their array

  /** A slice `array[lo..hi]` on the report channel. */
  datatype Chunk = Chunk(mem: array<byte>, lo: nat, hi: nat, isLast: bool)

  ghost predicate InRange(c: Chunk) {
    c.lo <= c.hi <= c.mem.Length
  }

  ghost function Content(c: Chunk): Raw
    requires InRange(c)
    reads c.mem
  {
    Raw(c.mem[c.lo..c.hi], c.isLast)
  }

  class Writer {
    /** The buffer is `mem[off..off + len]`; its capacity runs to the end of the array. */
    var mem: array<byte>
    var off: nat
    var len: nat
    const chunkSize: nat
    var sent: seq<Chunk>

    /** A sent chunk lies outside the buffer and its spare capacity. */
    ghost predicate Valid()
      reads this
    {
      && chunkSize > 0 && off + len <= mem.Length
      && forall i :: 0 <= i < |sent| ==> InRange(sent[i]) && (sent[i].mem == mem ==> sent[i].hi <= off)
    }

    ghost function Buf(): Bytes
      requires off + len <= mem.Length
      reads this, mem
    {
      mem[off..off + len]
    }

    constructor (size: nat)
      requires size > 0
      ensures Valid() && chunkSize == size && sent == [] && Buf() == [] && fresh(mem)
    {
      chunkSize := size;
      mem := new byte[size];
      off, len, sent := 0, 0, [];
    }

    /** append: in place while the capacity lasts, else into a larger array. */
    method Append(p: Bytes)
      requires Valid()
      modifies this`mem, this`off, this`len, mem
      ensures Valid() && sent == old(sent) && Buf() == old(Buf()) + p
      ensures mem == old(mem) || fresh(mem)
      ensures forall i :: 0 <= i < |sent| ==> Content(sent[i]) == old(Content(sent[i]))
    {
      if off + len + |p| <= mem.Length { Extend(p); } else { Grow(p); }
    }

    method Extend(p: Bytes)
      requires Valid() && off + len + |p| <= mem.Length
      modifies this`len, mem
      ensures Valid() && Buf() == old(Buf()) + p
      ensures forall i :: 0 <= i < |sent| ==> Content(sent[i]) == old(Content(sent[i]))
    {
      forall k | 0 <= k < |p| { mem[off + len + k] := p[k]; }
      assert mem[..off + len] == old(mem[..off + len]);
      len := len + |p|;
      forall i | 0 <= i < |sent| ensures Content(sent[i]) == old(Content(sent[i])) {
        var c := sent[i];
        if c.mem == mem { assert mem[..c.hi] == mem[..old(off + len)][..c.hi] == old(mem[..c.hi]); }
      }
      assert mem[off..off + len] == old(mem[off..off + len]) + p;
    }

    method Grow(p: Bytes)
      requires Valid()
      modifies this`mem, this`off, this`len
      ensures Valid() && Buf() == old(Buf()) + p && fresh(mem)
    {
      var grown := Enlarged(mem[off..off + len], p);
      assert forall i :: 0 <= i < |sent| ==> old(allocated(sent[i].mem)) && sent[i].mem != grown;
      mem, off, len := grown, 0, len + |p|;
    }

    /** A larger array that starts with the buffer and the new bytes; its capacity is the runtime's choice. */
    static method Enlarged(buf: Bytes, p: Bytes) returns (grown: array<byte>)
      ensures fresh(grown) && grown.Length >= |buf| + |p| && grown[..|buf| + |p|] == buf + p
    {
      var capacity: nat :| capacity >= |buf| + |p|;
      grown := new byte[capacity];
      forall k | 0 <= k < |buf| { grown[k] := buf[k]; }
      assert grown[..|buf|] == buf;
      forall k | 0 <= k < |p| { grown[|buf| + k] := p[k]; }
      assert grown[..|buf|] == buf;
    }

    method SendChunk()
      requires Valid() && len >= chunkSize
      modifies this`off, this`len, this`sent
      ensures Valid() && len < old(len)
      ensures |sent| == |old(sent)| + 1 && sent[..|old(sent)|] == old(sent)
      ensures Content(sent[|old(sent)|]) == Raw(old(Buf())[..chunkSize], false)
      ensures Buf() == old(Buf())[chunkSize..]
    {
      sent := sent + [Chunk(mem, off, off + chunkSize, false)];
      off, len := off + chunkSize, len - chunkSize;
      assert mem[off..off + len] == old(mem[off..off + len])[chunkSize..];
    }

    /** Each write sends the chunks that have filled up; chunks sent earlier keep their bytes. */
    method Write(p: Bytes) returns (n: nat)
      requires Valid()
      modifies this`mem, this`off, this`len, this`sent, mem
      ensures Valid() && n == |p| && (mem == old(mem) || fresh(mem))
      ensures Buf() == Tail(old(Buf()) + p, chunkSize)
      ensures var f := FullChunks(old(Buf()) + p, chunkSize);
              && |sent| == |old(sent)| + |f| && sent[..|old(sent)|] == old(sent)
              && (forall i :: 0 <= i < |old(sent)| ==> Content(sent[i]) == old(Content(sent[i])))
              && (forall i :: 0 <= i < |f| ==> Content(sent[|old(sent)| + i]) == f[i])
    {
      ghost var all := Buf() + p;
      Append(p);
      SendFull(all);
      return |p|;
    }

    method SendFull(ghost all: Bytes)
      requires Valid() && all == Buf()
      modifies this`off, this`len, this`sent
      ensures Valid() && Buf() == Tail(all, chunkSize)
      ensures var f := FullChunks(all, chunkSize);
              && |sent| == |old(sent)| + |f| && sent[..|old(sent)|] == old(sent)
              && (forall i :: 0 <= i < |f| ==> Content(sent[|old(sent)| + i]) == f[i])
    {
      ghost var done: seq<Raw> := [];
      while len >= chunkSize
        invariant Valid() && |sent| == |old(sent)| + |done| && sent[..|old(sent)|] == old(sent)
        invariant forall i :: 0 <= i < |done| ==> Content(sent[|old(sent)| + i]) == done[i]
        invariant FullChunks(all, chunkSize) == done + FullChunks(Buf(), chunkSize)
        invariant Tail(all, chunkSize) == Tail(Buf(), chunkSize)
        decreases len
      {
        ghost var first := Raw(Buf()[..chunkSize], false);
        ghost var rest := FullChunks(Buf()[chunkSize..], chunkSize);
        assert done + ([first] + rest) == done + [first] + rest;
        SendChunk();
        done := done + [first];
      }
    }

    /** Flush sends the rest as the last chunk and forgets the array. */
    method Flush()
      requires Valid()
      modifies this`mem, this`off, this`len, this`sent
      ensures Valid() && Buf() == [] && fresh(mem)
      ensures |sent| == |old(sent)| + 1 && sent[..|old(sent)|] == old(sent)
      ensures Content(sent[|old(sent)|]) == Raw(old(Buf()), true)
    {
      if len > 0 {
        sent := sent + [Chunk(mem, off, off + len, true)];
      } else {
        var none := new byte[0];
        sent := sent + [Chunk(none, 0, 0, true)];
      }
      mem := new byte[0];
      off, len := 0, 0;
    }
  }

  /** A whole profile through a new writer: any Write calls, then Flush. */
  method WriteAll(size: nat, writes: seq<Bytes>) returns (w: Writer)
    requires size > 0
    ensures fresh(w) && w.Valid() && w.Buf() == []
    ensures var all := AllChunks(Total(writes), size);
            |w.sent| == |all| && forall i :: 0 <= i < |all| ==> Content(w.sent[i]) == all[i]
  {
    w := new Writer(size);
    for i := 0 to |writes|
      invariant fresh(w) && fresh(w.mem) && w.Valid() && w.chunkSize == size
      invariant w.Buf() == Tail(Total(writes[..i]), size)
      invariant var f := FullChunks(Total(writes[..i]), size);
                |w.sent| == |f| && forall k :: 0 <= k < |f| ==> Content(w.sent[k]) == f[k]
    {
      ChunksOfConcat(Total(writes[..i]), writes[i], size);
      assert writes[..i + 1][..i] == writes[..i];
      var n := w.Write(writes[i]);
    }
    assert writes[..|writes|] == writes;
    w.Flush();
  }
}

/** The `java.io` streams the tool reads and writes, as far as the copy and
    digest loops depend on them.  A source hands its content over in
    non-empty blocks (a byte array, a file, a cipher's output); a call of
    `read(buffer)` returns at most one buffer-full and never crosses a block. */
module Streams {
  import opened Common

  /** A non-empty run of bytes that the source makes available at once. */
  type Block = s: seq<int8> | |s| > 0 witness [0]

  function Concat(parts: seq<seq<int8>>): seq<int8>
  {
    if parts == [] then [] else parts[0] + Concat(parts[1..])
  }

  lemma {:induction false} ConcatAppend(parts: seq<seq<int8>>, last: seq<int8>)
    ensures Concat(parts + [last]) == Concat(parts) + last
  {
    if parts == [] {
      assert [] + [last] == [last];
    } else {
      assert (parts + [last])[1..] == parts[1..] + [last];
      ConcatAppend(parts[1..], last);
    }
  }

  lemma {:induction false} ConcatJoin(a: seq<seq<int8>>, b: seq<seq<int8>>)
    ensures Concat(a + b) == Concat(a) + Concat(b)
  {
    if a == [] {
      assert [] + b == b;
    } else {
      assert (a + b)[1..] == a[1..] + b;
      ConcatJoin(a[1..], b);
    }
  }

  /** The successive reads of one block through a buffer of `cap` bytes. */
  function BlockChunks(b: seq<int8>, cap: nat): seq<seq<int8>>
    requires cap > 0
    decreases |b|
  {
    if b == [] then []
    else if |b| <= cap then [b]
    else [b[..cap]] + BlockChunks(b[cap..], cap)
  }

  /** What `read(buffer)` returns, call after call, on a source that delivers
      `blocks`, through a buffer of `cap` bytes, until it reports the end. */
  function Chunks(blocks: seq<Block>, cap: nat): seq<seq<int8>>
    requires cap > 0
  {
    if blocks == [] then [] else BlockChunks(blocks[0], cap) + Chunks(blocks[1..], cap)
  }

  /** The bytes one `read` hands over. */
  function NextChunk(blocks: seq<Block>, cap: nat): (c: seq<int8>)
    requires blocks != [] && cap > 0
    ensures 0 < |c| <= cap && |c| <= |blocks[0]| && c == blocks[0][..|c|]
  {
    if |blocks[0]| <= cap then blocks[0] else blocks[0][..cap]
  }

  /** What the source still holds after one `read`. */
  function AfterRead(blocks: seq<Block>, cap: nat): (rest: seq<Block>)
    requires blocks != [] && cap > 0
  {
    if |blocks[0]| <= cap then blocks[1..] else [blocks[0][cap..]] + blocks[1..]
  }

  lemma ChunksStep(blocks: seq<Block>, cap: nat)
    requires blocks != [] && cap > 0
    ensures Chunks(blocks, cap) == [NextChunk(blocks, cap)] + Chunks(AfterRead(blocks, cap), cap)
    ensures Concat(blocks) == NextChunk(blocks, cap) + Concat(AfterRead(blocks, cap))
  {
    var b := blocks[0];
    assert Chunks(blocks, cap) == BlockChunks(b, cap) + Chunks(blocks[1..], cap);
    assert Concat(blocks) == b + Concat(blocks[1..]);
    if |b| > cap {
      var rest: seq<Block> := [b[cap..]] + blocks[1..];
      assert AfterRead(blocks, cap) == rest;
      assert rest[0] == b[cap..] && rest[1..] == blocks[1..];
      assert BlockChunks(b, cap) == [b[..cap]] + BlockChunks(b[cap..], cap);
      assert Chunks(rest, cap) == BlockChunks(b[cap..], cap) + Chunks(blocks[1..], cap);
      assert Concat(rest) == b[cap..] + Concat(blocks[1..]);
      assert b == b[..cap] + b[cap..];
    } else {
      assert BlockChunks(b, cap) == [b];
    }
  }

  /** One pass of a copy loop: the first of the chunks still to come joins
      those taken so far, and the source shrinks. */
  lemma ReadStep(all: seq<seq<int8>>, done: seq<seq<int8>>, before: seq<Block>, cap: nat)
    requires before != [] && cap > 0
    requires all == done + Chunks(before, cap)
    ensures all == (done + [NextChunk(before, cap)]) + Chunks(AfterRead(before, cap), cap)
    ensures |Concat(AfterRead(before, cap))| < |Concat(before)|
  {
    var c, rest := NextChunk(before, cap), Chunks(AfterRead(before, cap), cap);
    ChunksStep(before, cap);
    assert done + ([c] + rest) == (done + [c]) + rest;
  }

  /** Reading in chunks loses and reorders nothing. */
  lemma {:induction false} BlockChunksConcat(b: seq<int8>, cap: nat)
    requires cap > 0
    ensures Concat(BlockChunks(b, cap)) == b
    decreases |b|
  {
    if |b| > cap {
      BlockChunksConcat(b[cap..], cap);
      assert b == b[..cap] + b[cap..];
    }
  }

  lemma {:induction false} ChunksConcat(blocks: seq<Block>, cap: nat)
    requires cap > 0
    ensures Concat(Chunks(blocks, cap)) == Concat(blocks)
  {
    if blocks != [] {
      ConcatJoin(BlockChunks(blocks[0], cap), Chunks(blocks[1..], cap));
      BlockChunksConcat(blocks[0], cap);
      ChunksConcat(blocks[1..], cap);
    }
  }

  /** Every read returns between 1 and `cap` bytes. */
  lemma {:induction false} BlockChunksBounded(b: seq<int8>, cap: nat)
    requires cap > 0
    ensures forall i :: 0 <= i < |BlockChunks(b, cap)| ==> 0 < |BlockChunks(b, cap)[i]| <= cap
    decreases |b|
  {
    if |b| > cap {
      BlockChunksBounded(b[cap..], cap);
    }
  }

  lemma {:induction false} ChunksBounded(blocks: seq<Block>, cap: nat)
    requires cap > 0
    ensures forall i :: 0 <= i < |Chunks(blocks, cap)| ==> 0 < |Chunks(blocks, cap)[i]| <= cap
  {
    if blocks != [] {
      BlockChunksBounded(blocks[0], cap);
      ChunksBounded(blocks[1..], cap);
    }
  }

  /** The lengths of a run of chunks. */
  function Sizes(chunks: seq<seq<int8>>): (sizes: seq<nat>)
    ensures |sizes| == |chunks|
    ensures forall i :: 0 <= i < |chunks| ==> sizes[i] == |chunks[i]|
  {
    if chunks == [] then [] else [|chunks[0]|] + Sizes(chunks[1..])
  }

  function Repeat(x: nat, count: nat): (r: seq<nat>)
    ensures |r| == count && forall i :: 0 <= i < count ==> r[i] == x
  {
    if count == 0 then [] else [x] + Repeat(x, count - 1)
  }

  /** A block of `n` bytes read through a `cap`-byte buffer gives n / cap
      full reads, then one read of n % cap bytes when that is not zero. */
  lemma {:induction false} BlockChunkSizes(b: seq<int8>, cap: nat)
    requires cap > 0
    ensures Sizes(BlockChunks(b, cap))
         == Repeat(cap, |b| / cap) + (if |b| % cap == 0 then [] else [|b| % cap])
    decreases |b|
  {
    if |b| > cap {
      BlockChunkSizes(b[cap..], cap);
      DivModSub(|b|, cap);
      var tail := BlockChunks(b[cap..], cap);
      assert Sizes([b[..cap]] + tail) == [cap] + Sizes(tail) by {
        assert ([b[..cap]] + tail)[1..] == tail;
      }
    } else if |b| == cap {
      DivModUnique(|b|, cap, 1, 0);
    } else {
      DivModUnique(|b|, cap, 0, |b|);
    }
  }

  lemma DivModUnique(n: int, d: int, q: int, r: int)
    requires d > 0 && 0 <= r < d && n == q * d + r
    ensures n / d == q && n % d == r
  {
    var q', r' := n / d, n % d;
    assert n == q' * d + r';
    if q' < q {
      assert (q - q') * d >= d by { MulAtLeast(q - q', d); }
      assert false;
    } else if q' > q {
      assert (q' - q) * d >= d by { MulAtLeast(q' - q, d); }
      assert false;
    }
  }

  lemma MulAtLeast(k: int, d: int)
    requires k >= 1 && d > 0
    ensures k * d >= d
  {
  }

  lemma DivModSub(n: int, d: int)
    requires d > 0 && n >= d
    ensures (n - d) / d == n / d - 1 && (n - d) % d == n % d
  {
    var q, r := n / d, n % d;
    assert n - d == (q - 1) * d + r;
    DivModUnique(n - d, d, q - 1, r);
  }

  /** An input stream over the blocks its source still holds. */
  class InputStream {
    var blocks: seq<Block>

    constructor (blocks: seq<Block>)
      ensures this.blocks == blocks
    {
      this.blocks := blocks;
    }

    /** The bytes not read yet. */
    function Content(): seq<int8>
      reads this
    {
      Concat(blocks)
    }

    /** `read(buffer)`: -1 at the end of the stream, otherwise the number of
        bytes copied to the front of the buffer; the rest of the buffer is
        left as it was. */
    method Read(buffer: array<int8>) returns (n: int)
      requires buffer.Length > 0
      modifies this, buffer
      ensures old(blocks) == [] ==> n == -1 && blocks == [] && buffer[..] == old(buffer[..])
      ensures old(blocks) != [] ==>
        && n == |NextChunk(old(blocks), buffer.Length)|
        && buffer[..n] == NextChunk(old(blocks), buffer.Length)
        && buffer[n..] == old(buffer[n..])
        && blocks == AfterRead(old(blocks), buffer.Length)
    {
      if blocks == [] {
        return -1;
      }
      var chunk := NextChunk(blocks, buffer.Length);
      n := |chunk|;
      forall i | 0 <= i < n {
        buffer[i] := chunk[i];
      }
      blocks := AfterRead(blocks, buffer.Length);
    }
  }

  /** An output stream: every byte written, and each `write` call's bytes. */
  class OutputStream {
    var written: seq<int8>
    ghost var writes: seq<seq<int8>>

    constructor ()
      ensures written == [] && writes == []
    {
      written, writes := [], [];
    }

    /** `write(buffer, offset, length)`. */
    method Write(buffer: array<int8>, offset: nat, length: nat)
      requires offset + length <= buffer.Length
      modifies this
      ensures written == old(written) + buffer[offset..offset + length]
      ensures writes == old(writes) + [buffer[offset..offset + length]]
    {
      written := written + buffer[offset..offset + length];
      writes := writes + [buffer[offset..offset + length]];
    }
  }
}

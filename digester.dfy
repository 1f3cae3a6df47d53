/** `StreamDigester`: hashes a stream by feeding a `MessageDigest` engine
    buffer-full by buffer-full.  The engine collects the bytes it is given
    and applies a hash function it was built with; which function that is
    (SHA-256 in the tool) is left open. */
module Digester {
  import opened Common
  import opened Streams
  import opened Files

  /** A call made on a `MessageDigest`, as the tool's test observes it. */
  datatype EngineCall = ResetCall | UpdateCall(offset: nat, length: nat) | DigestCall

  class MessageDigest {
    /** The hash the engine computes over everything fed since the last reset. */
    const algorithm: seq<int8> -> seq<int8>
    var pending: seq<int8>
    ghost var calls: seq<EngineCall>

    constructor (algorithm: seq<int8> -> seq<int8>)
      ensures this.algorithm == algorithm && pending == [] && calls == []
    {
      this.algorithm := algorithm;
      pending, calls := [], [];
    }

    method Reset()
      modifies this
      ensures pending == [] && calls == old(calls) + [ResetCall]
    {
      pending := [];
      calls := calls + [ResetCall];
    }

    method Update(input: array<int8>, offset: nat, length: nat)
      requires offset + length <= input.Length
      modifies this
      ensures pending == old(pending) + input[offset..offset + length]
      ensures calls == old(calls) + [UpdateCall(offset, length)]
    {
      pending := pending + input[offset..offset + length];
      calls := calls + [UpdateCall(offset, length)];
    }

    /** `digest()`: the hash of the pending bytes; the engine is reset after it. */
    method Digest() returns (d: seq<int8>)
      modifies this
      ensures d == algorithm(old(pending)) && pending == []
      ensures calls == old(calls) + [DigestCall]
    {
      d := algorithm(pending);
      pending := [];
      calls := calls + [DigestCall];
    }
  }

  const BufferSize: nat := 1024

  /** One `update(buffer, 0, n)` per chunk read. */
  function Updates(chunks: seq<seq<int8>>): (u: seq<EngineCall>)
    ensures |u| == |chunks|
  {
    if chunks == [] then []
    else Updates(chunks[..|chunks| - 1]) + [UpdateCall(0, |chunks[|chunks| - 1]|)]
  }

  lemma UpdatesSnoc(chunks: seq<seq<int8>>, c: seq<int8>)
    ensures Updates(chunks + [c]) == Updates(chunks) + [UpdateCall(0, |c|)]
  {
    assert (chunks + [c])[..|chunks|] == chunks;
  }

  lemma {:induction false} UpdatesAt(chunks: seq<seq<int8>>, i: nat)
    requires i < |chunks|
    ensures Updates(chunks)[i] == UpdateCall(0, |chunks[i]|)
  {
    var init := chunks[..|chunks| - 1];
    if i < |init| {
      UpdatesAt(init, i);
    }
  }

  /** The calls one `digestStream` makes on its engine, for a stream that
      delivers `blocks`. */
  function DigestTrace(blocks: seq<Block>): seq<EngineCall>
  {
    [ResetCall] + Updates(Chunks(blocks, BufferSize)) + [DigestCall]
  }

  class StreamDigester {
    const messageDigest: MessageDigest

    constructor (md: MessageDigest)
      ensures messageDigest == md
    {
      messageDigest := md;
    }

    /** `digestStream(InputStream)`: resets, reads and feeds until the end,
        and digests once. */
    method DigestStream(stream: InputStream) returns (d: seq<int8>)
      modifies messageDigest, stream
      ensures d == messageDigest.algorithm(old(stream.Content()))
      ensures messageDigest.calls == old(messageDigest.calls) + DigestTrace(old(stream.blocks))
      ensures messageDigest.pending == [] && stream.blocks == []
    {
      var md := messageDigest;
      var buffer := new int8[BufferSize];
      md.Reset();
      ghost var start := md.calls;
      ghost var done: seq<seq<int8>> := [];
      while true
        invariant md.pending == Concat(done)
        invariant md.calls == start + Updates(done)
        invariant Chunks(old(stream.blocks), BufferSize) == done + Chunks(stream.blocks, BufferSize)
        decreases |stream.Content()|
      {
        ghost var before := stream.blocks;
        var bytesRead := stream.Read(buffer);
        if bytesRead <= 0 {
          break;
        }
        ghost var chunk := buffer[..bytesRead];
        ReadStep(Chunks(old(stream.blocks), BufferSize), done, before, BufferSize);
        ConcatAppend(done, chunk);
        UpdatesSnoc(done, chunk);
        md.Update(buffer, 0, bytesRead);
        done := done + [chunk];
      }
      assert done == Chunks(old(stream.blocks), BufferSize);
      ChunksConcat(old(stream.blocks), BufferSize);
      assert start + Updates(done) + [DigestCall] == old(md.calls) + DigestTrace(old(stream.blocks));
      d := md.Digest();
    }

    /** `digestStream(Path)`: the same digest over a `FileInputStream` on
        the file, which delivers the file's bytes in `blocks` (how a file
        stream splits its reads is up to the platform); opening a missing,
        unreadable or non-regular file throws before the engine is
        touched. */
    method DigestFile(fs: FileSystem, filePath: Path, blocks: seq<Block>) returns (r: Result<seq<int8>>)
      requires Open(fs.files, fs.cwd, filePath).Some? ==> Concat(blocks) == Open(fs.files, fs.cwd, filePath).value
      modifies messageDigest
      ensures Open(fs.files, fs.cwd, filePath).None? ==>
        && r == Err(FileNotFound(PathString(filePath)))
        && messageDigest.calls == old(messageDigest.calls) && messageDigest.pending == old(messageDigest.pending)
      ensures Open(fs.files, fs.cwd, filePath).Some? ==>
        && r == Ok(messageDigest.algorithm(Open(fs.files, fs.cwd, filePath).value))
        && messageDigest.calls == old(messageDigest.calls) + DigestTrace(blocks)
        && messageDigest.pending == []
    {
      var content := Open(fs.files, fs.cwd, filePath);
      if content.None? {
        return Err(FileNotFound(PathString(filePath)));
      }
      var inputStream := new InputStream(blocks);
      var d := DigestStream(inputStream);
      return Ok(d);
    }
  }

  /** The blocks of a stream that holds all its bytes at once, as the
      test's `ByteArrayInputStream` does: every read but the last fills
      the buffer. */
  function InMemory(content: seq<int8>): (blocks: seq<Block>)
    ensures Concat(blocks) == content
  {
    if content == [] then [] else [content]
  }

  // ---- Properties of the call sequence ----

  /** `reset` comes first and only there, `digest` last and only there, and
      in between every call is an `update` at offset 0 of 1 to 1024 bytes. */
  lemma DigestTraceShape(blocks: seq<Block>)
    ensures var t := DigestTrace(blocks);
      && |t| >= 2 && t[0] == ResetCall && t[|t| - 1] == DigestCall
      && forall i :: 0 < i < |t| - 1 ==>
           t[i].UpdateCall? && t[i].offset == 0 && 1 <= t[i].length <= BufferSize
  {
    var chunks := Chunks(blocks, BufferSize);
    ChunksBounded(blocks, BufferSize);
    var t := DigestTrace(blocks);
    forall i | 0 < i < |t| - 1
      ensures t[i].UpdateCall? && t[i].offset == 0 && 1 <= t[i].length <= BufferSize
    {
      assert t[i] == Updates(chunks)[i - 1];
      UpdatesAt(chunks, i - 1);
    }
  }

  /** An empty stream gives no update at all. */
  lemma EmptyStreamTrace()
    ensures DigestTrace([]) == [ResetCall, DigestCall]
  {
    assert Chunks([], BufferSize) == [];
  }

  /** The lengths of the updates a trace makes. */
  function UpdateLengths(t: seq<EngineCall>): (lengths: seq<nat>)
    ensures |lengths| <= |t|
  {
    if t == [] then []
    else (if t[0].UpdateCall? then [t[0].length] else []) + UpdateLengths(t[1..])
  }

  lemma {:induction false} UpdateLengthsOfUpdates(chunks: seq<seq<int8>>)
    ensures UpdateLengths(Updates(chunks)) == Sizes(chunks)
    decreases |chunks|
  {
    if chunks != [] {
      var init, last := chunks[..|chunks| - 1], chunks[|chunks| - 1];
      UpdateLengthsOfUpdates(init);
      UpdateLengthsJoin(Updates(init), [UpdateCall(0, |last|)]);
      SizesSnoc(init, last);
      assert chunks == init + [last];
    }
  }

  lemma SizesSnoc(chunks: seq<seq<int8>>, c: seq<int8>)
    ensures Sizes(chunks + [c]) == Sizes(chunks) + [|c|]
  {
  }

  lemma {:induction false} UpdateLengthsJoin(a: seq<EngineCall>, b: seq<EngineCall>)
    ensures UpdateLengths(a + b) == UpdateLengths(a) + UpdateLengths(b)
  {
    if a == [] {
      assert a + b == b;
    } else {
      var head := if a[0].UpdateCall? then [a[0].length] else [];
      assert (a + b)[0] == a[0];
      assert (a + b)[1..] == a[1..] + b;
      assert UpdateLengths(a + b) == head + UpdateLengths(a[1..] + b);
      UpdateLengthsJoin(a[1..], b);
      assert UpdateLengths(a) == head + UpdateLengths(a[1..]);
      assert head + (UpdateLengths(a[1..]) + UpdateLengths(b)) == (head + UpdateLengths(a[1..])) + UpdateLengths(b);
    }
  }

  /** A stream that hands over its `n` bytes as fast as the buffer takes
      them gives n / 1024 full updates, then one of n % 1024 bytes if that
      is not zero. */
  lemma FullReadUpdates(content: seq<int8>)
    ensures UpdateLengths(DigestTrace(InMemory(content)))
         == Repeat(BufferSize, |content| / BufferSize)
            + (if |content| % BufferSize == 0 then [] else [|content| % BufferSize])
  {
    TraceLengths(InMemory(content));
    InMemoryChunks(content);
    BlockChunkSizes(content, BufferSize);
  }

  /** The update lengths of a trace are the sizes of the chunks read. */
  lemma TraceLengths(blocks: seq<Block>)
    ensures UpdateLengths(DigestTrace(blocks)) == Sizes(Chunks(blocks, BufferSize))
  {
    var u := Updates(Chunks(blocks, BufferSize));
    UpdateLengthsJoin([ResetCall] + u, [DigestCall]);
    UpdateLengthsJoin([ResetCall], u);
    UpdateLengthsOfUpdates(Chunks(blocks, BufferSize));
  }

  /** An in-memory stream is read exactly as its one block is. */
  lemma InMemoryChunks(content: seq<int8>)
    ensures Chunks(InMemory(content), BufferSize) == BlockChunks(content, BufferSize)
  {
    if content != [] {
      var blocks := InMemory(content);
      assert blocks[1..] == [];
      assert Chunks(blocks, BufferSize) == BlockChunks(content, BufferSize) + Chunks([], BufferSize);
    }
  }

  /** The large-stream case of the tool's test: 4266 copies of a 12-byte
      message are 51192 bytes, fed as 49 updates of 1024 bytes and one of 1016. */
  lemma LargeStreamUpdates(content: seq<int8>)
    requires |content| == 4266 * 12
    ensures UpdateLengths(DigestTrace(InMemory(content))) == Repeat(1024, 49) + [1016]
  {
    FullReadUpdates(content);
  }

  /** The small-stream case: a 12-byte message is fed in one update. */
  lemma SmallStreamUpdates(content: seq<int8>)
    requires |content| == 12
    ensures UpdateLengths(DigestTrace(InMemory(content))) == [12]
  {
    FullReadUpdates(content);
  }
}

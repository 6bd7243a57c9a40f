/** The stateful PCM helpers of app/audio.py. */
module Rechunker {
  import opened Common
  import opened Pcm

  class StreamingPCMRechunker {
    const shape: Shape
    var carry: seq<Byte>
    var cumulativeFrames: nat

    ghost predicate Valid()
      reads this
    {
      shape.Positive()
    }

    function View(): Chunker
      reads this
    {
      Chunker(carry, cumulativeFrames)
    }

    constructor (format: Format, chunkMs: nat)
      requires format.Positive()
      ensures Valid() && View() == IDLE && shape == ShapeOf(format, chunkMs)
    {
      shape := ShapeOf(format, chunkMs);
      carry, cumulativeFrames := [], 0;
    }

    /** The ValueError of a non-positive argument is null. */
    static method Create(rate: int, chunkMs: int, width: int, channels: int) returns (r: StreamingPCMRechunker?)
      ensures r != null <==> rate > 0 && chunkMs > 0 && width > 0 && channels > 0
      ensures r != null ==>
        fresh(r) && r.Valid() && r.View() == IDLE && r.shape == ShapeOf(Format(rate, width, channels), chunkMs)
    {
      if rate <= 0 || chunkMs <= 0 || width <= 0 || channels <= 0 {
        return null;
      }
      r := new StreamingPCMRechunker(Format(rate, width, channels), chunkMs);
    }

    method Feed(data: seq<Byte>) returns (results: seq<Timed>)
      requires Valid()
      modifies this
      ensures Valid()
      ensures (View(), results) == FeedPcm(shape, old(View()), data)
    {
      var buffer := carry + data;
      var completeBytes := CompleteBytes(|buffer|, shape.frameSize);
      var framed := buffer[..completeBytes];
      var partial := buffer[completeBytes..];
      var rest;
      results, rest := TakeChunks(framed);
      FedByFrames(shape, old(View()), data, rest, cumulativeFrames, results);
      carry := rest + partial;
    }

    /** Cut whole chunks off `framed`. */
    method TakeChunks(framed: seq<Byte>) returns (results: seq<Timed>, rest: seq<Byte>)
      requires Valid()
      modifies this`cumulativeFrames
      ensures Pending(shape, (Chunker(rest, cumulativeFrames), results), [], framed, old(cumulativeFrames))
    {
      var n := shape.ChunkBytes();
      results := [];
      var offset := 0;
      ghost var whole := Whole(shape, framed, cumulativeFrames);
      assert framed[0..] == framed && [] + whole.1 == whole.1;
      while offset + n <= |framed|
        invariant offset <= |framed|
        invariant Pending(shape, whole, results, framed[offset..], cumulativeFrames)
      {
        var chunk := framed[offset..offset + n];
        assert chunk == framed[offset..][..n] && framed[offset + n..] == framed[offset..][n..];
        ChunkPending(shape, whole, results, framed[offset..], cumulativeFrames);
        offset := offset + n;
        var timed := Stamped(chunk);
        results := results + [timed];
      }
      rest := framed[offset..];
      assert results + [] == results;
    }

    /** Time-stamp `chunk` and count its frames. */
    method Stamped(chunk: seq<Byte>) returns (timed: Timed)
      requires Valid()
      modifies this`cumulativeFrames
      ensures timed == Timed(chunk, Stamp(old(cumulativeFrames), shape.rate))
      ensures cumulativeFrames == old(cumulativeFrames) + |chunk| / shape.frameSize
    {
      timed := Timed(chunk, Stamp(cumulativeFrames, shape.rate));
      cumulativeFrames := cumulativeFrames + |chunk| / shape.frameSize;
    }

    method Flush() returns (r: Result<seq<Timed>, PcmError>)
      requires Valid()
      modifies this
      ensures Valid()
      ensures match FlushPcm(shape, old(View()))
        case Ok((s, out)) => r == Ok(out) && View() == s
        case Err(e) => r == Err(e) && View() == old(View())
    {
      if carry == [] {
        return Ok([]);
      }
      if |carry| % shape.frameSize != 0 {
        return Err(IncompleteFinalFrame);
      }
      var timed := Stamped(carry);
      carry := [];
      return Ok([timed]);
    }
  }

  /** The largest whole number of frames within `len` bytes. */
  function CompleteBytes(len: nat, frameSize: nat): (m: nat)
    requires frameSize > 0
    ensures m <= len
  {
    len - len % frameSize
  }

  lemma CompleteBytesStep(len: nat, q: nat, frameSize: nat)
    requires frameSize > 0
    ensures q * frameSize <= len ==>
      && CompleteBytes(len, frameSize) >= q * frameSize
      && CompleteBytes(len - q * frameSize, frameSize) == CompleteBytes(len, frameSize) - q * frameSize
  {
    AlignedPrefixFits(len, q, frameSize);
    if q * frameSize <= len {
      ModAddMultiple(q, frameSize, len - q * frameSize);
    }
  }

  /** Setting a trailing partial frame aside changes no block and only shortens the tail by it. */
  lemma {:induction false} FramedBlocks(s: seq<Byte>, n: nat, f: nat)
    requires n > 0 && f > 0
    requires forall len: nat :: n <= len ==>
      CompleteBytes(len, f) >= n && CompleteBytes(len - n, f) == CompleteBytes(len, f) - n
    ensures var m := CompleteBytes(|s|, f);
      FullBlocks(s[..m], n) == FullBlocks(s, n) && Tail(s[..m], n) + s[m..] == Tail(s, n)
    decreases |s|
  {
    var m := CompleteBytes(|s|, f);
    if |s| >= n {
      FramedBlocks(s[n..], n, f);
      assert s[..m][n..] == s[n..][..m - n] && s[n..][m - n..] == s[m..];
      assert s[..m][..n] == s[..n];
    } else {
      assert s[..m] + s[m..] == s;
    }
  }

  lemma FramedWhole(c: Shape, s: seq<Byte>, frames: nat)
    requires c.Positive()
    ensures var m := CompleteBytes(|s|, c.frameSize);
      Whole(c, s, frames) == (Chunker(Whole(c, s[..m], frames).0.carry + s[m..], Whole(c, s[..m], frames).0.frames),
                              Whole(c, s[..m], frames).1)
  {
    forall len: nat | c.ChunkBytes() <= len
      ensures CompleteBytes(len, c.frameSize) >= c.ChunkBytes()
      ensures CompleteBytes(len - c.ChunkBytes(), c.frameSize) == CompleteBytes(len, c.frameSize) - c.ChunkBytes()
    {
      CompleteBytesStep(len, c.chunkFrames, c.frameSize);
    }
    FramedBlocks(s, c.ChunkBytes(), c.frameSize);
  }

  /** Chunking the complete frames and carrying the rest is chunking the buffer. */
  lemma FedByFrames(c: Shape, s: Chunker, data: seq<Byte>, rest: seq<Byte>, frames: nat, results: seq<Timed>)
    requires c.Positive()
    requires var m := CompleteBytes(|s.carry + data|, c.frameSize);
      Pending(c, (Chunker(rest, frames), results), [], (s.carry + data)[..m], s.frames)
    ensures var m := CompleteBytes(|s.carry + data|, c.frameSize);
      (Chunker(rest + (s.carry + data)[m..], frames), results) == FeedPcm(c, s, data)
  {
    var buffer := s.carry + data;
    FramedWhole(c, buffer, s.frames);
    var out := Whole(c, buffer[..CompleteBytes(|buffer|, c.frameSize)], s.frames).1;
    assert [] + out == out;
  }

  ghost function Whole(c: Shape, s: seq<Byte>, frames: nat): (Chunker, seq<Timed>)
    requires c.Positive()
  {
    var blocks := FullBlocks(s, c.ChunkBytes());
    (Chunker(Tail(s, c.ChunkBytes()), frames + FramesIn(c, blocks)), TimedFrom(c, blocks, frames))
  }

  /** `whole` is what `done` and the blocks still in `rest` amount to. */
  ghost predicate Pending(c: Shape, whole: (Chunker, seq<Timed>), done: seq<Timed>, rest: seq<Byte>, frames: nat)
    requires c.Positive()
  {
    whole == (Whole(c, rest, frames).0, done + Whole(c, rest, frames).1)
  }

  lemma ChunkPending(c: Shape, whole: (Chunker, seq<Timed>), done: seq<Timed>, rest: seq<Byte>, frames: nat)
    requires c.Positive() && |rest| >= c.ChunkBytes()
    requires Pending(c, whole, done, rest, frames)
    ensures var n := c.ChunkBytes();
      Pending(c, whole, done + [Timed(rest[..n], Stamp(frames, c.rate))], rest[n..], frames + |rest[..n]| / c.frameSize)
  {
    var n := c.ChunkBytes();
    var first := Timed(rest[..n], Stamp(frames, c.rate));
    var more := TimedFrom(c, FullBlocks(rest[n..], n), frames + |rest[..n]| / c.frameSize);
    assert FullBlocks(rest, n) == [rest[..n]] + FullBlocks(rest[n..], n);
    assert done + ([first] + more) == (done + [first]) + more;
  }

  /** `chunk_pcm_s16le`: whole chunks, then whatever is left. */
  method ChunkPcm(pcm: seq<Byte>, format: Format, chunkMs: nat) returns (chunks: seq<seq<Byte>>)
    requires format.Positive()
    ensures chunks == Blocks(pcm, ShapeOf(format, chunkMs).ChunkBytes())
  {
    var chunkBytes := ShapeOf(format, chunkMs).ChunkBytes();
    chunks := [];
    var offset := 0;
    assert pcm[0..] == pcm;
    while offset < |pcm|
      invariant offset <= |pcm| || chunks == Blocks(pcm, chunkBytes)
      invariant offset <= |pcm| ==> chunks + Blocks(pcm[offset..], chunkBytes) == Blocks(pcm, chunkBytes)
    {
      var end := if offset + chunkBytes <= |pcm| then offset + chunkBytes else |pcm|;
      var chunk := pcm[offset..end];
      var rest := pcm[offset..];
      if offset + chunkBytes <= |pcm| {
        assert rest[..chunkBytes] == chunk && rest[chunkBytes..] == pcm[offset + chunkBytes..];
        assert Blocks(rest, chunkBytes) == [chunk] + Blocks(rest[chunkBytes..], chunkBytes);
        assert (chunks + [chunk]) + Blocks(rest[chunkBytes..], chunkBytes) == chunks + Blocks(rest, chunkBytes);
      } else {
        assert rest == chunk && Blocks(rest, chunkBytes) == [chunk];
      }
      chunks := chunks + [chunk];
      offset := offset + chunkBytes;
    }
    if offset == |pcm| {
      assert Blocks(pcm[offset..], chunkBytes) == [];
    }
  }
}

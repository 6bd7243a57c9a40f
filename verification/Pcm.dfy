/** PCM chunk arithmetic of app/audio.py, with every float expression an exact rational floor. */
module Pcm {
  import opened Common

  datatype Format = Format(rate: nat, width: nat, channels: nat) {
    predicate Positive() {
      rate > 0 && width > 0 && channels > 0
    }

    function FrameSize(): (f: nat)
      ensures Positive() ==> f > 0
    {
      MulPositive(width, channels);
      width * channels
    }
  }

  lemma MulPositive(a: nat, b: nat)
    ensures a * b >= 0
    ensures a > 0 && b > 0 ==> a * b > 0
  {
  }

  /** int(sample_rate * (chunk_ms / 1000.0)), at least one frame. */
  function ChunkFrames(rate: nat, chunkMs: nat): (n: nat)
    ensures n > 0
  {
    MulPositive(rate, chunkMs);
    var n := rate * chunkMs / 1000;
    if n < 1 then 1 else n
  }

  /** int(frames * 1000 / sample_rate) */
  function Stamp(frames: nat, rate: nat): nat
    requires rate > 0
  {
    frames * 1000 / rate
  }

  /** A chunking of PCM: `frameSize` bytes per frame, `chunkFrames` frames per chunk. */
  datatype Shape = Shape(rate: nat, frameSize: nat, chunkFrames: nat) {
    predicate Positive() {
      rate > 0 && frameSize > 0 && chunkFrames > 0
    }

    function ChunkBytes(): (n: nat)
      ensures Positive() ==> n > 0
    {
      MulPositive(chunkFrames, frameSize);
      chunkFrames * frameSize
    }
  }

  function ShapeOf(f: Format, chunkMs: nat): (c: Shape)
    ensures f.Positive() ==> c.Positive()
  {
    Shape(f.rate, f.FrameSize(), ChunkFrames(f.rate, chunkMs))
  }

  datatype Timed = Timed(audio: seq<Byte>, stamp: nat)

  // ------------------------------------------------------------- blocks

  /** The complete `n`-byte blocks of `s`. */
  function FullBlocks(s: seq<Byte>, n: nat): (r: seq<seq<Byte>>)
    requires n > 0
    ensures forall k :: 0 <= k < |r| ==> |r[k]| == n
  {
    if |s| < n then [] else [s[..n]] + FullBlocks(s[n..], n)
  }

  /** What is left after the complete blocks. */
  function Tail(s: seq<Byte>, n: nat): (r: seq<Byte>)
    requires n > 0
    ensures |r| < n && |r| <= |s|
  {
    if |s| < n then s else Tail(s[n..], n)
  }

  /** All blocks of `s`, the last one possibly short. */
  function Blocks(s: seq<Byte>, n: nat): seq<seq<Byte>>
    requires n > 0
  {
    FullBlocks(s, n) + (if Tail(s, n) == [] then [] else [Tail(s, n)])
  }

  lemma {:induction false} BlocksCover(s: seq<Byte>, n: nat)
    requires n > 0
    ensures Flatten(FullBlocks(s, n)) + Tail(s, n) == s
    ensures |s| == |FullBlocks(s, n)| * n + |Tail(s, n)|
  {
    if |s| >= n {
      BlocksCover(s[n..], n);
      assert ([s[..n]] + FullBlocks(s[n..], n))[1..] == FullBlocks(s[n..], n);
      assert s == s[..n] + s[n..];
      assert (|FullBlocks(s[n..], n)| + 1) * n == |FullBlocks(s[n..], n)| * n + n;
    }
  }

  lemma BlockCount(s: seq<Byte>, n: nat)
    requires n > 0
    ensures |FullBlocks(s, n)| == |s| / n
  {
    BlocksCover(s, n);
    DivUnique(|s|, n, |FullBlocks(s, n)|, |Tail(s, n)|);
  }

  lemma DivUnique(x: nat, n: nat, q: nat, r: nat)
    requires n > 0 && x == q * n + r && r < n
    ensures x / n == q && x % n == r
  {
    var d := x / n;
    assert x == d * n + x % n;
    assert (q + 1) * n == q * n + n && (d + 1) * n == d * n + n;
    if d > q {
      MulMono(q + 1, d, n);
    } else if d < q {
      MulMono(d + 1, q, n);
    }
  }

  /** Cutting into blocks may be resumed from the carry: the transport's own chunking is immaterial. */
  lemma {:induction false} BlocksResume(s: seq<Byte>, u: seq<Byte>, n: nat)
    requires n > 0
    ensures FullBlocks(s + u, n) == FullBlocks(s, n) + FullBlocks(Tail(s, n) + u, n)
    ensures Tail(s + u, n) == Tail(Tail(s, n) + u, n)
  {
    if |s| >= n {
      BlocksResume(s[n..], u, n);
      assert (s + u)[..n] == s[..n];
      assert (s + u)[n..] == s[n..] + u;
    } else {
      assert [] + FullBlocks(s + u, n) == FullBlocks(s + u, n);
    }
  }

  // ------------------------------------------------------------- frames inside blocks

  lemma {:induction false} ModAddMultiple(q: nat, m: nat, r: nat)
    requires m > 0
    ensures (q * m + r) % m == r % m
  {
    DivUnique(q * m + r, m, q + r / m, r % m);
  }

  lemma MulAssoc(a: nat, b: nat, c: nat)
    ensures a * (b * c) == (a * b) * c
  {
  }

  lemma TailAlignment(c: Shape, s: seq<Byte>)
    requires c.Positive()
    ensures |Tail(s, c.ChunkBytes())| % c.frameSize == |s| % c.frameSize
  {
    var n := c.ChunkBytes();
    BlocksCover(s, n);
    var q := |FullBlocks(s, n)|;
    MulAssoc(q, c.chunkFrames, c.frameSize);
    MulPositive(q, c.chunkFrames);
    ModAddMultiple(q * c.chunkFrames, c.frameSize, |Tail(s, n)|);
  }

  lemma MulMono(a: nat, b: nat, m: nat)
    requires a <= b
    ensures a * m <= b * m
  {
  }

  /** Dropping a trailing partial frame drops no complete block. */
  lemma AlignedPrefixFits(x: nat, q: nat, m: nat)
    requires m > 0
    ensures q * m <= x <==> q * m <= x - x % m
  {
    var d := x / m;
    assert x == d * m + x % m;
    if q > d {
      MulMono(d + 1, q, m);
      assert (d + 1) * m == d * m + m;
    } else {
      MulMono(q, d, m);
    }
  }

  // ------------------------------------------------------------- the streaming rechunker

  /** Carried bytes and complete frames emitted so far. */
  datatype Chunker = Chunker(carry: seq<Byte>, frames: nat)

  const IDLE: Chunker := Chunker([], 0)

  function TimedFrom(c: Shape, blocks: seq<seq<Byte>>, frames: nat): (r: seq<Timed>)
    requires c.Positive()
    ensures |r| == |blocks|
  {
    if blocks == [] then []
    else [Timed(blocks[0], Stamp(frames, c.rate))] + TimedFrom(c, blocks[1..], frames + |blocks[0]| / c.frameSize)
  }

  function FramesIn(c: Shape, blocks: seq<seq<Byte>>): nat
    requires c.Positive()
  {
    if blocks == [] then 0 else |blocks[0]| / c.frameSize + FramesIn(c, blocks[1..])
  }

  function FeedPcm(c: Shape, s: Chunker, data: seq<Byte>): (r: (Chunker, seq<Timed>))
    requires c.Positive()
  {
    var blocks := FullBlocks(s.carry + data, c.ChunkBytes());
    (Chunker(Tail(s.carry + data, c.ChunkBytes()), s.frames + FramesIn(c, blocks)), TimedFrom(c, blocks, s.frames))
  }

  datatype PcmError = IncompleteFinalFrame

  function FlushPcm(c: Shape, s: Chunker): (r: Result<(Chunker, seq<Timed>), PcmError>)
    requires c.Positive()
  {
    if s.carry == [] then Ok((s, []))
    else if |s.carry| % c.frameSize != 0 then Err(IncompleteFinalFrame)
    else Ok((Chunker([], s.frames + |s.carry| / c.frameSize), [Timed(s.carry, Stamp(s.frames, c.rate))]))
  }

  function FeedAllPcm(c: Shape, s: Chunker, chunks: seq<seq<Byte>>): (r: (Chunker, seq<Timed>))
    requires c.Positive()
    decreases |chunks|
  {
    if chunks == [] then (s, [])
    else
      var (s1, out1) := FeedPcm(c, s, chunks[0]);
      var (s2, out2) := FeedAllPcm(c, s1, chunks[1..]);
      (s2, out1 + out2)
  }

  lemma {:induction false} TimedFromAppend(c: Shape, p: seq<seq<Byte>>, q: seq<seq<Byte>>, frames: nat)
    requires c.Positive()
    ensures TimedFrom(c, p + q, frames) == TimedFrom(c, p, frames) + TimedFrom(c, q, frames + FramesIn(c, p))
    ensures FramesIn(c, p + q) == FramesIn(c, p) + FramesIn(c, q)
  {
    if p == [] {
      assert p + q == q;
    } else {
      assert (p + q)[1..] == p[1..] + q;
      TimedFromAppend(c, p[1..], q, frames + |p[0]| / c.frameSize);
    }
  }

  /** State and output after the bytes `t`, however they were cut into transport chunks. */
  function After(c: Shape, t: seq<Byte>): (r: (Chunker, seq<Timed>))
    requires c.Positive()
  {
    FeedPcm(c, IDLE, t)
  }

  lemma FeedResumes(c: Shape, t: seq<Byte>, data: seq<Byte>)
    requires c.Positive()
    ensures After(c, t + data) == (FeedPcm(c, After(c, t).0, data).0, After(c, t).1 + FeedPcm(c, After(c, t).0, data).1)
  {
    var n := c.ChunkBytes();
    assert IDLE.carry + t == t && IDLE.carry + (t + data) == t + data;
    BlocksResume(t, data, n);
    TimedFromAppend(c, FullBlocks(t, n), FullBlocks(Tail(t, n) + data, n), 0);
  }

  lemma {:induction false} FeedAllIsAfter(c: Shape, t: seq<Byte>, chunks: seq<seq<Byte>>)
    requires c.Positive()
    ensures var (s, out) := FeedAllPcm(c, After(c, t).0, chunks);
      (s, After(c, t).1 + out) == After(c, t + Flatten(chunks))
    decreases |chunks|
  {
    if chunks == [] {
      assert t + Flatten(chunks) == t;
      assert After(c, t).1 + [] == After(c, t).1;
    } else {
      FeedResumes(c, t, chunks[0]);
      FeedAllIsAfter(c, t + chunks[0], chunks[1..]);
      AppendAssoc(t, chunks[0], Flatten(chunks[1..]));
      var (s1, out1) := FeedPcm(c, After(c, t).0, chunks[0]);
      AppendAssoc(After(c, t).1, out1, FeedAllPcm(c, s1, chunks[1..]).1);
    }
  }

  function Audio(timed: seq<Timed>): (r: seq<seq<Byte>>)
    ensures |r| == |timed|
  {
    if timed == [] then [] else [timed[0].audio] + Audio(timed[1..])
  }

  lemma {:induction false} AudioOfTimed(c: Shape, blocks: seq<seq<Byte>>, frames: nat)
    requires c.Positive()
    ensures Audio(TimedFrom(c, blocks, frames)) == blocks
  {
    if blocks != [] {
      AudioOfTimed(c, blocks[1..], frames + |blocks[0]| / c.frameSize);
    }
  }

  lemma AudioAppend(p: seq<Timed>, q: seq<Timed>)
    ensures Audio(p + q) == Audio(p) + Audio(q)
  {
    if p != [] {
      assert (p + q)[1..] == p[1..] + q;
      AudioAppend(p[1..], q);
    } else {
      assert p + q == q;
    }
  }

  lemma {:induction false} FullBlockFrames(c: Shape, blocks: seq<seq<Byte>>)
    requires c.Positive() && forall k :: 0 <= k < |blocks| ==> |blocks[k]| == c.ChunkBytes()
    ensures FramesIn(c, blocks) == |blocks| * c.chunkFrames
  {
    if blocks != [] {
      FullBlockFrames(c, blocks[1..]);
      DivUnique(c.ChunkBytes(), c.frameSize, c.chunkFrames, 0);
      assert |blocks| * c.chunkFrames == (|blocks| - 1) * c.chunkFrames + c.chunkFrames;
    }
  }

  /** Timestamp of the k-th streamed chunk. */
  lemma {:induction false} TimedFromAt(c: Shape, blocks: seq<seq<Byte>>, frames: nat, k: nat)
    requires c.Positive() && k < |blocks|
    requires forall i :: 0 <= i < |blocks| - 1 ==> |blocks[i]| == c.ChunkBytes()
    ensures k * c.chunkFrames >= 0
    ensures TimedFrom(c, blocks, frames)[k] == Timed(blocks[k], Stamp(frames + k * c.chunkFrames, c.rate))
  {
    if k > 0 {
      DivUnique(c.ChunkBytes(), c.frameSize, c.chunkFrames, 0);
      TimedFromAt(c, blocks[1..], frames + |blocks[0]| / c.frameSize, k - 1);
      assert k * c.chunkFrames == (k - 1) * c.chunkFrames + c.chunkFrames;
    }
  }

  /** State and output after any transport chunks, in terms of their concatenation. */
  lemma FedAsWhole(c: Shape, chunks: seq<seq<Byte>>)
    requires c.Positive()
    ensures var n, t := c.ChunkBytes(), Flatten(chunks);
      FeedAllPcm(c, IDLE, chunks)
        == (Chunker(Tail(t, n), FramesIn(c, FullBlocks(t, n))), TimedFrom(c, FullBlocks(t, n), 0))
  {
    var t := Flatten(chunks);
    FeedAllIsAfter(c, [], chunks);
    assert After(c, []) == (IDLE, []) && [] + t == t && IDLE.carry + t == t;
    var out := FeedAllPcm(c, IDLE, chunks).1;
    assert [] + out == out;
  }

  /**
   * Rechunker refinement: the emitted chunks are the first |t| / chunkBytes
   * blocks of the input with the time of the frames before them, and
   * emitted ++ carry is the input with a carry shorter than a chunk.
   */
  lemma RechunkerRefinement(c: Shape, chunks: seq<seq<Byte>>)
    requires c.Positive()
    ensures var n, t := c.ChunkBytes(), Flatten(chunks);
      var (s, out) := FeedAllPcm(c, IDLE, chunks);
      && Audio(out) == FullBlocks(t, n) && |out| == |t| / n
      && Flatten(Audio(out)) + s.carry == t && |s.carry| < n
      && s.frames == |out| * c.chunkFrames
      && (forall k :: 0 <= k < |out| ==>
          k * c.chunkFrames >= 0 && out[k].stamp == Stamp(k * c.chunkFrames, c.rate))
  {
    var n, t := c.ChunkBytes(), Flatten(chunks);
    var blocks := FullBlocks(t, n);
    FedAsWhole(c, chunks);
    var out := FeedAllPcm(c, IDLE, chunks).1;
    AudioOfTimed(c, blocks, 0);
    BlockCount(t, n);
    BlocksCover(t, n);
    FullBlockFrames(c, blocks);
    forall k | 0 <= k < |out|
      ensures k * c.chunkFrames >= 0 && out[k].stamp == Stamp(k * c.chunkFrames, c.rate)
    {
      TimedFromAt(c, blocks, 0, k);
    }
  }

  lemma ModZero(m: nat)
    requires m > 0
    ensures 0 % m == 0
  {
  }

  lemma FlushOutcome(c: Shape, s: Chunker)
    requires c.Positive()
    ensures FlushPcm(c, s).Err? <==> |s.carry| % c.frameSize != 0
    ensures FlushPcm(c, s).Ok? ==> Audio(FlushPcm(c, s).value.1) == if s.carry == [] then [] else [s.carry]
  {
    ModZero(c.frameSize);
  }

  /**
   * Flushing fails exactly on a partial final frame; otherwise feed and flush
   * together give the blocks `chunk_pcm_s16le` cuts from the whole input.
   */
  lemma FlushRefinement(c: Shape, chunks: seq<seq<Byte>>)
    requires c.Positive()
    ensures var t := Flatten(chunks);
      var (s, out) := FeedAllPcm(c, IDLE, chunks);
      var flushed := FlushPcm(c, s);
      && (flushed.Err? <==> |t| % c.frameSize != 0)
      && (flushed.Ok? ==> Audio(out + flushed.value.1) == Blocks(t, c.ChunkBytes()))
  {
    var t := Flatten(chunks);
    FedAsWhole(c, chunks);
    TailAlignment(c, t);
    var (s, out) := FeedAllPcm(c, IDLE, chunks);
    FlushOutcome(c, s);
    AudioOfTimed(c, FullBlocks(t, c.ChunkBytes()), 0);
    if FlushPcm(c, s).Ok? {
      AudioAppend(out, FlushPcm(c, s).value.1);
    }
  }

  // ------------------------------------------------------------- timestamp drift

  lemma FloorGap(exact: int, floor: int, rate: int, total: int, dropped: int)
    requires rate > 0 && floor * rate <= total < floor * rate + rate
    requires exact * rate == total + dropped && dropped >= 0
    ensures floor <= exact
    ensures (exact - floor) * rate < dropped + rate
    ensures dropped == 0 ==> floor == exact
  {
    if floor > exact {
      MulMono(1, floor - exact, rate);
    } else if dropped == 0 && floor < exact {
      MulMono(1, exact - floor, rate);
    }
  }

  /**
   * The buffered path stamps chunk k with k * chunkMs, the streamed path with
   * the time of the frames before it. From one frame per chunk up, the
   * buffered stamp runs ahead by less than 1000 k / rate + 1 milliseconds, and
   * not at all when a chunk is a whole number of frames.
   */
  lemma TimestampDrift(rate: nat, chunkMs: nat, k: nat)
    requires rate > 0 && rate * chunkMs >= 1000
    ensures k * ChunkFrames(rate, chunkMs) >= 0
    ensures var streamed := Stamp(k * ChunkFrames(rate, chunkMs), rate);
      && streamed <= k * chunkMs
      && (k * chunkMs - streamed) * rate < 1000 * k + rate
      && (rate * chunkMs % 1000 == 0 ==> streamed == k * chunkMs)
  {
    var lost := rate * chunkMs % 1000;
    var total := k * ChunkFrames(rate, chunkMs) * 1000;
    MulPositive(k, lost);
    FloorGap(k * chunkMs, total / rate, rate, total, k * lost);
    MulMono(lost, 1000, k);
  }

  /** Below one frame per chunk the sign is reversed: the streamed stamp is never behind. */
  lemma TimestampDriftShortChunks(rate: nat, chunkMs: nat, k: nat)
    requires rate > 0 && rate * chunkMs < 1000
    ensures k * chunkMs <= Stamp(k * ChunkFrames(rate, chunkMs), rate)
  {
    assert ChunkFrames(rate, chunkMs) == 1;
    MulAssoc(k, chunkMs, rate);
    assert chunkMs * rate == rate * chunkMs;
    MulMono(rate * chunkMs, 1000, k);
    AtMostFloor(k * chunkMs, k * 1000 / rate, rate, k * 1000);
  }

  lemma AtMostFloor(exact: int, floor: int, rate: int, total: int)
    requires rate > 0 && total < floor * rate + rate
    requires exact * rate <= total
    ensures exact <= floor
  {
    if exact > floor {
      MulMono(1, exact - floor, rate);
    }
  }
}

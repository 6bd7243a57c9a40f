/** What a stream plays, how it ends, when it is tried again and how much is buffered, in plain arithmetic. */
module StreamingLaws {
  import opened Common
  import opened Pcm
  import opened Wire
  import opened Rechunker
  import opened Streaming
  import opened Pipeline

  // ------------------------------------------------------------ what is played

  /** Frames in a whole chunk. */
  function FramesPerChunk(f: Format, chunkMs: nat): nat {
    MulPositive(f.rate, chunkMs);
    if f.rate * chunkMs < 1000 then 1 else f.rate * chunkMs / 1000
  }

  /** Bytes in a whole chunk: the frames of `chunkMs` milliseconds, one at least. */
  function ChunkSize(f: Format, chunkMs: nat): int {
    FramesPerChunk(f, chunkMs) * (f.width * f.channels)
  }

  lemma ChunkSizeIs(f: Format, chunkMs: nat)
    requires f.Positive()
    ensures ShapeOf(f, chunkMs).ChunkBytes() == ChunkSize(f, chunkMs)
    ensures ShapeOf(f, chunkMs).chunkFrames == FramesPerChunk(f, chunkMs)
  {
    if f.rate * chunkMs < 1000 {
      DivUnique(f.rate * chunkMs, 1000, 0, f.rate * chunkMs);
    }
  }

  /** `event` is the `k`-th of `m` chunks: whole but perhaps the last, with the time of the frames before it. */
  predicate IsChunk(f: Format, chunkMs: nat, event: Event, k: int, m: nat)
    requires f.Positive()
  {
    && event.AudioChunk? && event.format == f
    && 0 < |event.audio| <= ChunkSize(f, chunkMs)
    && (k < m - 1 ==> |event.audio| == ChunkSize(f, chunkMs))
    && event.stamp == k * FramesPerChunk(f, chunkMs) * 1000 / f.rate
  }

  /** A start, `m` chunks and, if `stop` is given, a stop at that time. */
  predicate Playing(f: Format, chunkMs: nat, events: seq<Event>, m: nat, stop: Option<int>)
    requires f.Positive()
  {
    && |events| == 1 + m + (if stop.Some? then 1 else 0)
    && events[0] == AudioStart(f)
    && (forall k :: 1 <= k <= m ==> IsChunk(f, chunkMs, events[k], k - 1, m))
    && (stop.Some? ==> events[m + 1].AudioStop? && events[m + 1].stamp == stop.value)
  }

  /** The blocks of a stream, timed from 0, are its chunks. */
  lemma BlockIsChunk(f: Format, chunkMs: nat, blocks: seq<seq<Byte>>, k: nat)
    requires f.Positive() && k < |blocks|
    requires forall i :: 0 <= i < |blocks| - 1 ==> |blocks[i]| == ShapeOf(f, chunkMs).ChunkBytes()
    requires 0 < |blocks[|blocks| - 1]| <= ShapeOf(f, chunkMs).ChunkBytes()
    ensures var events := ChunkEvents(f, TimedFrom(ShapeOf(f, chunkMs), blocks, 0));
      IsChunk(f, chunkMs, events[k], k, |blocks|)
  {
    ChunkSizeIs(f, chunkMs);
    StampedChunk(f, chunkMs, blocks, k);
  }

  lemma BlocksPlay(f: Format, chunkMs: nat, blocks: seq<seq<Byte>>, stop: Option<nat>)
    requires f.Positive()
    requires forall i :: 0 <= i < |blocks| - 1 ==> |blocks[i]| == ShapeOf(f, chunkMs).ChunkBytes()
    requires blocks != [] ==> 0 < |blocks[|blocks| - 1]| <= ShapeOf(f, chunkMs).ChunkBytes()
    ensures var chunks := ChunkEvents(f, TimedFrom(ShapeOf(f, chunkMs), blocks, 0));
      Playing(f, chunkMs, [AudioStart(f)] + chunks + (if stop.Some? then [AudioStop(stop.value)] else []),
              |blocks|, stop)
  {
    forall k: nat | k < |blocks|
      ensures IsChunk(f, chunkMs, ChunkEvents(f, TimedFrom(ShapeOf(f, chunkMs), blocks, 0))[k], k, |blocks|)
    {
      BlockIsChunk(f, chunkMs, blocks, k);
    }
  }

  /** The time of `bytes` bytes in milliseconds. */
  function Milliseconds(f: Format, bytes: nat): int
    requires f.Positive()
  {
    MulPositive(f.width, f.channels);
    bytes / (f.width * f.channels) * 1000 / f.rate
  }

  /**
   * Whatever a stream shows is a start and the chunks of its format, and, once
   * it completed, a stop with the time of all its bytes.
   */
  lemma StreamPlays(f: Format, chunkMs: nat, target: nat, t: seq<Byte>, end: End) returns (m: nat)
    requires f.Positive() && Streaming.Starts(target, t, end)
    ensures var (events, outcome) := StreamOutput(f, chunkMs, target, t, end);
      Playing(f, chunkMs, events, m, if outcome == Done then Some(Milliseconds(f, |t|)) else None)
  {
    var n := ShapeOf(f, chunkMs).ChunkBytes();
    assert IDLE.carry + t == t;
    if end == Eof && |t| % f.FrameSize() == 0 {
      m := |Blocks(t, n)|;
      CompletedStream(f, chunkMs, target, t);
      BlocksPlay(f, chunkMs, Blocks(t, n), Some(TotalStamp(f, |t|)));
    } else {
      m := |FullBlocks(t, n)|;
      BlocksPlay(f, chunkMs, FullBlocks(t, n), None);
      AppendNone(Progress(f, chunkMs, t));
      CompletedStreamConserves(f, chunkMs, target, t);
    }
  }

  /**
   * What `Synthesize` yields, all of it: nothing, or a start, the chunks and,
   * on completion, the stop of the format in force: the latest one declared by
   * a stream opened up to then, else the configured one.
   */
  lemma SynthesisPlays(s: Settings, chunkMs: int, textLen: nat, config: Format, backend: nat -> Attempt, last: nat,
                       g: Format)
    returns (m: nat)
    requires InForce(config, backend, last, g)
    ensures var (events, outcome) :=
        AttemptOutput(s, chunkMs, textLen, FormatAt(config, backend, last), backend(last));
      events != [] ==>
        && g.Positive() && chunkMs > 0
        && var stop := if outcome == Done then Some(Milliseconds(g, |Flatten(backend(last).chunks)|)) else None;
           Playing(g, chunkMs, events, m, stop)
  {
    InForceIs(config, backend, last, g);
    var att := backend(last);
    m := 0;
    if att.opening.Opened? && !att.opening.declared.BadHeaders? && Playable(g, chunkMs) {
      var t := Flatten(att.chunks);
      if Streaming.Starts(TargetBytes(g, s, textLen), t, att.end) {
        m := StreamPlays(g, chunkMs, TargetBytes(g, s, textLen), t, att.end);
      }
    }
  }

  /** How many chunks `bytes` bytes make. */
  predicate ChunkCount(f: Format, chunkMs: nat, bytes: nat, m: nat) {
    (m - 1) * ChunkSize(f, chunkMs) < bytes <= m * ChunkSize(f, chunkMs) || bytes == m == 0
  }

  lemma BlocksCount(f: Format, chunkMs: nat, t: seq<Byte>)
    requires f.Positive()
    ensures ChunkCount(f, chunkMs, |t|, |Blocks(t, ShapeOf(f, chunkMs).ChunkBytes())|)
  {
    ChunkSizeIs(f, chunkMs);
    BlocksCover(t, ShapeOf(f, chunkMs).ChunkBytes());
  }

  /** The buffered path: a start, all bytes in chunks stamped `chunkMs` apart, and a stop after the last. */
  lemma BufferedPlays(f: Format, chunkMs: nat, pcm: seq<Byte>) returns (m: nat)
    requires f.Positive()
    ensures var events := BufferedOutput(f, chunkMs, pcm);
      && |events| == m + 2 && events[0] == AudioStart(f) && events[m + 1] == AudioStop(m * chunkMs)
      && ChunkCount(f, chunkMs, |pcm|, m) && AudioBytes(events) == pcm
      && forall k :: 1 <= k <= m ==>
          && events[k].AudioChunk? && events[k].format == f && events[k].stamp == (k - 1) * chunkMs
          && 0 < |events[k].audio| <= ChunkSize(f, chunkMs)
          && (k < m ==> |events[k].audio| == ChunkSize(f, chunkMs))
  {
    var n := ShapeOf(f, chunkMs).ChunkBytes();
    var blocks := Blocks(pcm, n);
    m := |blocks|;
    ChunkSizeIs(f, chunkMs);
    BlocksCount(f, chunkMs, pcm);
    forall k | 1 <= k <= m
      ensures BufferedOutput(f, chunkMs, pcm)[k] == AudioChunk(f, blocks[k - 1], (k - 1) * chunkMs)
    {
      BufferedChunk(f, chunkMs, pcm, k - 1);
    }
    BufferedBytes(f, chunkMs, pcm);
  }

  lemma BlocksFlatten(t: seq<Byte>, n: nat)
    requires n > 0
    ensures Flatten(Blocks(t, n)) == t
  {
    BlocksCover(t, n);
    var last := if Tail(t, n) == [] then [] else [Tail(t, n)];
    FlattenAppend(FullBlocks(t, n), last);
    if Tail(t, n) != [] {
      FlattenOne(Tail(t, n));
    }
  }

  lemma BufferedBytes(f: Format, chunkMs: nat, pcm: seq<Byte>)
    requires f.Positive()
    ensures AudioBytes(BufferedOutput(f, chunkMs, pcm)) == pcm
  {
    var blocks := Blocks(pcm, ShapeOf(f, chunkMs).ChunkBytes());
    BlocksFlatten(pcm, ShapeOf(f, chunkMs).ChunkBytes());
    var timed := EvenlyTimed(chunkMs, blocks, 0);
    EvenlyTimedAudio(chunkMs, blocks, 0);
    ChunkEventsAudio(f, timed);
    var start, stop := [AudioStart(f)], [AudioStop(|blocks| * chunkMs)];
    assert start[1..] == [] && stop[1..] == [];
    AudioBytesAppend(start, ChunkEvents(f, timed));
    AudioBytesAppend(start + ChunkEvents(f, timed), stop);
    AppendNone(pcm);
  }

  lemma {:induction false} EvenlyTimedAudio(chunkMs: nat, blocks: seq<seq<Byte>>, first: nat)
    ensures Audio(EvenlyTimed(chunkMs, blocks, first)) == blocks
    decreases |blocks|
  {
    if blocks != [] {
      EvenlyTimedAudio(chunkMs, blocks[1..], first + chunkMs);
      assert EvenlyTimed(chunkMs, blocks, first)[1..] == EvenlyTimed(chunkMs, blocks[1..], first + chunkMs);
    }
  }

  // ------------------------------------------------------------ how it ends

  /** The format of an attempt, given the one in force before it. */
  predicate HasFormat(f: Format, att: Attempt, g: Format) {
    match att.opening
    case Opened(Declares(d)) => g == d
    case _ => g == f
  }

  /** The attempt opened a stream that can be played. */
  predicate Plays(att: Attempt, g: Format, chunkMs: int) {
    && att.opening.Opened? && !att.opening.declared.BadHeaders?
    && g.rate > 0 && g.width > 0 && g.channels > 0 && chunkMs > 0
  }

  /**
   * How an attempt ends: with the error of its opening, of its format or of
   * its stream; at the end of a stream it is done exactly on whole frames.
   * Nothing is shown exactly when it did not play or the stream ended before
   * the initial buffer was full, without any audio if it ended well.
   */
  lemma EndsExactly(s: Settings, chunkMs: int, textLen: nat, f: Format, att: Attempt, g: Format)
    requires HasFormat(f, att, g)
    ensures var (events, outcome) := AttemptOutput(s, chunkMs, textLen, f, att);
      if !Plays(att, g, chunkMs) then
        && events == []
        && outcome == (match att.opening
             case DeadlinePassed => RaisedTimeout
             case OpenBusy => RaisedBusy
             case OpenFailed => RaisedBackend
             case Opened(_) => RaisedFormat)
      else
        var t, target := Flatten(att.chunks), TargetBytes(g, s, textLen);
        && outcome == (match att.end
             case Busy => RaisedBusy
             case BackendError => RaisedBackend
             case TimedOut => RaisedTimeout
             case Eof => if |t| % (g.width * g.channels) == 0 then Done else RaisedPartialFrame)
        && (events == [] <==> |t| < target && (att.end == Eof ==> t == []))
  {
    if Plays(att, g, chunkMs) {
      CompletedStreamConserves(g, chunkMs, TargetBytes(g, s, textLen), Flatten(att.chunks));
    }
  }

  predicate NothingReceived(att: Attempt) {
    att.opening.Opened? ==> Flatten(att.chunks) == []
  }

  /** An attempt is tried again exactly when it ended busy, showed nothing and had received no audio. */
  lemma RetriedExactly(s: Settings, chunkMs: int, textLen: nat, f: Format, att: Attempt)
    ensures RetryableBusy(s, chunkMs, textLen, f, att)
      <==> AttemptOutput(s, chunkMs, textLen, f, att) == ([], RaisedBusy) && NothingReceived(att)
  {
  }

  // ------------------------------------------------------------ how much is buffered

  /** `bytes` is the most whole frames that last no longer than `ms`. */
  predicate Holds(f: Format, ms: int, bytes: nat, frames: nat) {
    && bytes == frames * (f.width * f.channels)
    && if ms <= 0 then frames == 0 else frames * 1000 <= ms * f.rate < (frames + 1) * 1000
  }

  lemma FramesOfMs(x: nat, fs: nat) returns (frames: nat)
    requires fs > 0 && x * fs >= 0
    ensures frames * 1000 <= x < (frames + 1) * 1000
    ensures CompleteBytes(x * fs / 1000, fs) == frames * fs
  {
    frames := x / 1000;
    MulMono(frames * 1000, x, fs);
    MulMono(x + 1, (frames + 1) * 1000, fs);
    assert frames * 1000 * fs == (frames * fs) * 1000;
    assert (frames + 1) * 1000 * fs == (frames * fs + fs) * 1000;
    var a := x * fs / 1000;
    assert frames * fs <= a < frames * fs + fs;
    DivUnique(a, fs, frames, a - frames * fs);
  }

  lemma BufferHolds(f: Format, ms: int) returns (frames: nat)
    requires f.Positive()
    ensures Holds(f, ms, BufferBytes(f, ms), frames)
  {
    if ms <= 0 {
      frames := 0;
    } else {
      MulPositive(ms, f.rate);
      MulPositive(f.rate, f.FrameSize());
      MulPositive(ms * f.rate, f.FrameSize());
      MulAssoc(ms, f.rate, f.FrameSize());
      frames := FramesOfMs(ms * f.rate, f.FrameSize());
    }
  }

  /**
   * The initial buffer holds the most whole frames that last no longer than
   * the wanted time: the long-form time for a text as long as the threshold,
   * if there is one, else the ordinary time, and never more than the maximum.
   */
  lemma TargetExactly(f: Format, s: Settings, textLen: nat) returns (frames: nat)
    requires f.Positive()
    ensures var wanted := if 0 < s.longFormThreshold <= textLen then s.longFormMs else s.initialMs;
      && (0 < s.maxBufferMs < wanted ==> Holds(f, s.maxBufferMs, TargetBytes(f, s, textLen), frames))
      && (wanted <= s.maxBufferMs && s.maxBufferMs > 0 ==> Holds(f, wanted, TargetBytes(f, s, textLen), frames))
      && (s.maxBufferMs <= 0 ==> TargetBytes(f, s, textLen) == 0)
  {
    frames := BufferHolds(f, TargetMs(s, textLen));
  }
}

/** The parts in line: backend streams, through the envelope and the coordinator, to the wire. */
module Pipeline {
  import opened Common
  import opened PhraseSegments
  import opened Pcm
  import opened Wire
  import Envelope
  import opened Streaming
  import opened CoordinatorModel
  import opened CoordinatorSafety
  import opened CoordinatorLaws

  predicate Aligned(f: Format, blocks: seq<seq<Byte>>)
    requires f.Positive()
  {
    forall k :: 0 <= k < |blocks| ==> blocks[k] != [] && |blocks[k]| % f.FrameSize() == 0
  }

  lemma ChunkAligned(c: Shape)
    requires c.Positive()
    ensures c.ChunkBytes() % c.frameSize == 0
  {
    DivUnique(c.ChunkBytes(), c.frameSize, c.chunkFrames, 0);
  }

  lemma BlocksAligned(f: Format, chunkMs: nat, t: seq<Byte>)
    requires f.Positive() && |t| % f.FrameSize() == 0
    ensures Aligned(f, Blocks(t, ShapeOf(f, chunkMs).ChunkBytes()))
  {
    var c := ShapeOf(f, chunkMs);
    ChunkAligned(c);
    TailAlignment(c, t);
  }

  lemma FrameCount(total: nat, q: nat, chunkFrames: nat, frameSize: nat, rest: nat)
    requires frameSize > 0 && rest % frameSize == 0
    requires total == q * (chunkFrames * frameSize) + rest
    ensures q * chunkFrames + rest / frameSize == total / frameSize
  {
    MulPositive(q, chunkFrames);
    MulAssoc(q, chunkFrames, frameSize);
    DivUnique(total, frameSize, q * chunkFrames + rest / frameSize, 0);
  }

  /** All frames of whole-frame audio are in its blocks. */
  lemma FramesOfBlocks(c: Shape, t: seq<Byte>)
    requires c.Positive() && |t| % c.frameSize == 0
    ensures FramesIn(c, FullBlocks(t, c.ChunkBytes())) + |Tail(t, c.ChunkBytes())| / c.frameSize == |t| / c.frameSize
  {
    var n := c.ChunkBytes();
    BlocksCover(t, n);
    TailAlignment(c, t);
    FullBlockFrames(c, FullBlocks(t, n));
    FrameCount(|t|, |FullBlocks(t, n)|, c.chunkFrames, c.frameSize, |Tail(t, n)|);
  }

  /** The time of `bytes` bytes of audio. */
  function TotalStamp(f: Format, bytes: nat): nat
    requires f.Positive()
  {
    Stamp(bytes / f.FrameSize(), f.rate)
  }

  function Chunked(f: Format, chunkMs: nat, t: seq<Byte>): seq<Event>
    requires f.Positive()
  {
    ChunkEvents(f, TimedFrom(ShapeOf(f, chunkMs), Blocks(t, ShapeOf(f, chunkMs).ChunkBytes()), 0))
  }

  /** What a stream of whole frames plays: start, the blocks of its audio, and a stop that carries the total. */
  function Played(f: Format, chunkMs: nat, t: seq<Byte>): seq<Event>
    requires f.Positive()
  {
    [AudioStart(f)] + Chunked(f, chunkMs, t) + [AudioStop(TotalStamp(f, |t|))]
  }

  /** What is shown before and at the flush are the blocks of the audio, and all its frames are counted. */
  lemma BlocksFlushed(f: Format, chunkMs: nat, t: seq<Byte>)
    requires f.Positive() && |t| % f.FrameSize() == 0
    ensures var c := ShapeOf(f, chunkMs);
      var flushed := FlushPcm(c, After(c, t).0);
      && flushed.Ok? && flushed.value.0.frames == |t| / f.FrameSize()
      && Chunked(f, chunkMs, t) == ChunkEvents(f, After(c, t).1) + ChunkEvents(f, flushed.value.1)
  {
    var c := ShapeOf(f, chunkMs);
    var full, rest := FullBlocks(t, c.ChunkBytes()), Tail(t, c.ChunkBytes());
    assert IDLE.carry + t == t;
    TailAlignment(c, t);
    FramesOfBlocks(c, t);
    var last := if rest == [] then [] else [rest];
    TimedFromAppend(c, full, last, 0);
    assert rest != [] ==> last[1..] == [];
    ChunkEventsAppend(f, TimedFrom(c, full, 0), TimedFrom(c, last, FramesIn(c, full)));
  }

  /**
   * A stream that completes plays its audio, unless it is empty and its
   * initial buffer is not: then it produces nothing.
   */
  lemma CompletedStream(f: Format, chunkMs: nat, target: nat, t: seq<Byte>)
    requires f.Positive() && |t| % f.FrameSize() == 0
    ensures StreamOutput(f, chunkMs, target, t, Eof)
      == (if t == [] && target > 0 then [] else Played(f, chunkMs, t), Done)
  {
    if t != [] || target == 0 {
      BlocksFlushed(f, chunkMs, t);
      var c := ShapeOf(f, chunkMs);
      AppendAssoc([AudioStart(f)], ChunkEvents(f, After(c, t).1),
                  ChunkEvents(f, FlushPcm(c, After(c, t).0).value.1));
    }
  }

  /** The envelope passes a first phrase on unchanged, its stop aside; an empty one leaves no trace. */
  lemma StreamedPhraseUnchanged(f: Format, chunkMs: nat, target: nat, t: seq<Byte>)
    requires f.Positive() && |t| % f.FrameSize() == 0
    ensures var events := StreamOutput(f, chunkMs, target, t, Eof).0;
      Envelope.ProcessPhrase(Envelope.OPEN, events).1
        == Ok(if t == [] && target > 0 then [] else [AudioStart(f)] + Chunked(f, chunkMs, t))
  {
    CompletedStream(f, chunkMs, target, t);
    BlocksAligned(f, chunkMs, t);
    Envelope.RechunkedPhraseUnchanged(f, chunkMs, Blocks(t, ShapeOf(f, chunkMs).ChunkBytes()), TotalStamp(f, |t|));
  }

  // ------------------------------------------------------------ against the buffered path

  /** Chunks before the stream's end are whole blocks. */
  lemma StreamedBlock(f: Format, chunkMs: nat, target: nat, t: seq<Byte>, k: nat)
    requires f.Positive() && k < |FullBlocks(t, ShapeOf(f, chunkMs).ChunkBytes())|
    ensures var timed := TimedFrom(ShapeOf(f, chunkMs), FullBlocks(t, ShapeOf(f, chunkMs).ChunkBytes()), 0);
      var events := StreamOutput(f, chunkMs, target, t, Eof).0;
      k + 1 < |events| && k < |timed| && events[k + 1] == ChunkEvents(f, timed)[k]
  {
    assert IDLE.carry + t == t;
    assert t != [];
  }

  /** All of a completed stream's are its blocks. */
  lemma CompletedBlock(f: Format, chunkMs: nat, target: nat, t: seq<Byte>, k: nat)
    requires f.Positive() && |t| % f.FrameSize() == 0
    requires k < |Blocks(t, ShapeOf(f, chunkMs).ChunkBytes())|
    ensures var timed := TimedFrom(ShapeOf(f, chunkMs), Blocks(t, ShapeOf(f, chunkMs).ChunkBytes()), 0);
      var events := StreamOutput(f, chunkMs, target, t, Eof).0;
      k + 1 < |events| && k < |timed| && events[k + 1] == ChunkEvents(f, timed)[k]
  {
    CompletedStream(f, chunkMs, target, t);
  }

  /** The `k`-th chunk a stream plays: whole blocks as they come, a short last one at the flush. */
  lemma StreamedChunk(f: Format, chunkMs: nat, target: nat, t: seq<Byte>, k: nat)
    requires f.Positive() && k < |Blocks(t, ShapeOf(f, chunkMs).ChunkBytes())|
    requires k < |FullBlocks(t, ShapeOf(f, chunkMs).ChunkBytes())| || |t| % f.FrameSize() == 0
    ensures var c := ShapeOf(f, chunkMs);
      var events := StreamOutput(f, chunkMs, target, t, Eof).0;
      && k + 1 < |events| && k * c.chunkFrames >= 0
      && events[k + 1] == AudioChunk(f, Blocks(t, c.ChunkBytes())[k], Stamp(k * c.chunkFrames, f.rate))
  {
    var n := ShapeOf(f, chunkMs).ChunkBytes();
    if k < |FullBlocks(t, n)| {
      StreamedBlock(f, chunkMs, target, t, k);
      StampedChunk(f, chunkMs, FullBlocks(t, n), k);
    } else {
      CompletedBlock(f, chunkMs, target, t, k);
      StampedChunk(f, chunkMs, Blocks(t, n), k);
    }
  }

  lemma StampedChunk(f: Format, chunkMs: nat, blocks: seq<seq<Byte>>, k: nat)
    requires f.Positive() && k < |blocks|
    requires forall i :: 0 <= i < |blocks| - 1 ==> |blocks[i]| == ShapeOf(f, chunkMs).ChunkBytes()
    ensures var c := ShapeOf(f, chunkMs);
      && k * c.chunkFrames >= 0 && k < |TimedFrom(c, blocks, 0)|
      && ChunkEvents(f, TimedFrom(c, blocks, 0))[k] == AudioChunk(f, blocks[k], Stamp(k * c.chunkFrames, f.rate))
  {
    var c := ShapeOf(f, chunkMs);
    TimedFromAt(c, blocks, 0, k);
    ChunkEventAt(f, TimedFrom(c, blocks, 0), k);
  }

  lemma BufferedChunk(f: Format, chunkMs: nat, t: seq<Byte>, k: nat)
    requires f.Positive() && k < |Blocks(t, ShapeOf(f, chunkMs).ChunkBytes())|
    ensures k + 1 < |BufferedOutput(f, chunkMs, t)|
    ensures BufferedOutput(f, chunkMs, t)[k + 1]
      == AudioChunk(f, Blocks(t, ShapeOf(f, chunkMs).ChunkBytes())[k], k * chunkMs)
  {
    var blocks := Blocks(t, ShapeOf(f, chunkMs).ChunkBytes());
    EvenlyTimedAt(chunkMs, blocks, 0, k);
    ChunkEventAt(f, EvenlyTimed(chunkMs, blocks, 0), k);
  }

  lemma {:induction false} ChunkEventAt(f: Format, timed: seq<Timed>, k: nat)
    requires k < |timed|
    ensures ChunkEvents(f, timed)[k] == AudioChunk(f, timed[k].audio, timed[k].stamp)
  {
    if k > 0 {
      ChunkEventAt(f, timed[1..], k - 1);
    }
  }

  /** Chunk `k` on the streamed and on the buffered path. */
  predicate SameButDrift(f: Format, chunkMs: nat, k: nat, audio: seq<Byte>, p: Event, q: Event) {
    && p.AudioChunk? && q.AudioChunk?
    && p.format == q.format == f
    && p.audio == q.audio == audio
    && p.stamp <= q.stamp
    && (q.stamp - p.stamp) * f.rate < 1000 * k + f.rate
    && (f.rate * chunkMs % 1000 == 0 ==> p == q)
  }

  lemma DriftAt(f: Format, chunkMs: nat, k: nat, audio: seq<Byte>)
    requires f.Positive() && f.rate * chunkMs >= 1000
    ensures k * ShapeOf(f, chunkMs).chunkFrames >= 0
    ensures SameButDrift(f, chunkMs, k, audio, AudioChunk(f, audio, Stamp(k * ShapeOf(f, chunkMs).chunkFrames, f.rate)),
                         AudioChunk(f, audio, k * chunkMs))
  {
    TimestampDrift(f.rate, chunkMs, k);
  }

  /**
   * The two paths play the same chunks, the short last one included; only the
   * stamps differ, by less than 1000 k / rate + 1 milliseconds at chunk k.
   * (A last chunk that is not whole frames is played by the buffered path alone.)
   */
  lemma PathsAgree(f: Format, chunkMs: nat, target: nat, t: seq<Byte>, k: nat)
    requires f.Positive() && f.rate * chunkMs >= 1000
    requires k < |Blocks(t, ShapeOf(f, chunkMs).ChunkBytes())|
    requires k < |FullBlocks(t, ShapeOf(f, chunkMs).ChunkBytes())| || |t| % f.FrameSize() == 0
    ensures var streamed := StreamOutput(f, chunkMs, target, t, Eof).0;
      var buffered := BufferedOutput(f, chunkMs, t);
      && k + 1 < |streamed| && k + 1 < |buffered|
      && SameButDrift(f, chunkMs, k, Blocks(t, ShapeOf(f, chunkMs).ChunkBytes())[k], streamed[k + 1], buffered[k + 1])
  {
    StreamedChunk(f, chunkMs, target, t, k);
    BufferedChunk(f, chunkMs, t, k);
    DriftAt(f, chunkMs, k, Blocks(t, ShapeOf(f, chunkMs).ChunkBytes())[k]);
  }

  // ------------------------------------------------------------ several phrases of one response

  /** An envelope that will take phrases of format `f`. */
  predicate Takes(e: Envelope.Env, f: Format) {
    !e.closed && (e.format.None? || e.format == Some(f))
  }

  lemma {:induction false} ChunksAccepted(f: Format, e: Envelope.Env, timed: seq<Timed>, stop: nat)
    requires f.Positive() && e.format == Some(f)
    requires forall k :: 0 <= k < |timed| ==> |timed[k].audio| % f.FrameSize() == 0
    ensures var r := Envelope.Scan(e, true, ChunkEvents(f, timed) + [AudioStop(stop)]);
      r.1.Ok? && r.0.format == Some(f) && r.0.closed == e.closed
    decreases |timed|
  {
    var events := ChunkEvents(f, timed) + [AudioStop(stop)];
    if timed == [] {
      assert events == [AudioStop(stop)] && events[1..] == [];
    } else {
      var e1 := Envelope.HandleChunk(e, timed[0].audio).0;
      ChunksAccepted(f, e1, timed[1..], stop);
      assert events[1..] == ChunkEvents(f, timed[1..]) + [AudioStop(stop)];
      assert Envelope.Scan(e, true, events)
        == Envelope.Then(Envelope.HandleChunk(e, timed[0].audio), true, events[1..]);
    }
  }

  lemma {:induction false} TimedAudio(c: Shape, blocks: seq<seq<Byte>>, frames: nat)
    requires c.Positive()
    ensures var timed := TimedFrom(c, blocks, frames);
      forall k :: 0 <= k < |timed| ==> timed[k].audio == blocks[k]
    decreases |blocks|
  {
    if blocks != [] {
      TimedAudio(c, blocks[1..], frames + |blocks[0]| / c.frameSize);
    }
  }

  /** What the backend streams for one phrase: its audio and the initial-buffer target in force. */
  datatype Source = Source(audio: seq<Byte>, target: nat) {
    /** Playback starts: there is audio, or nothing to wait for. */
    predicate Starts() {
      audio != [] || target == 0
    }
  }

  lemma StreamAccepted(f: Format, chunkMs: nat, source: Source, e: Envelope.Env)
    requires f.Positive() && |source.audio| % f.FrameSize() == 0 && Takes(e, f)
    ensures var r := Envelope.ProcessPhrase(e, StreamOutput(f, chunkMs, source.target, source.audio, Eof).0);
      && r.1.Ok? && Takes(r.0, f)
      && r.0.format == if source.Starts() then Some(f) else e.format
  {
    var t := source.audio;
    CompletedStream(f, chunkMs, source.target, t);
    if source.Starts() {
      BlocksAligned(f, chunkMs, t);
      var c := ShapeOf(f, chunkMs);
      var blocks := Blocks(t, c.ChunkBytes());
      TimedAudio(c, blocks, 0);
      var stop := TotalStamp(f, |t|);
      var events := Played(f, chunkMs, t);
      assert events[1..] == Chunked(f, chunkMs, t) + [AudioStop(stop)] && events[0] == AudioStart(f);
      ChunksAccepted(f, Envelope.HandleStart(e, f).0, TimedFrom(c, blocks, 0), stop);
      assert Envelope.Scan(e, false, events) == Envelope.Then(Envelope.HandleStart(e, f), true, events[1..]);
    }
  }

  /** Every stream delivers whole frames, which is when it completes. */
  predicate Whole(f: Format, sources: seq<Source>)
    requires f.Positive()
  {
    forall k :: 0 <= k < |sources| ==> |sources[k].audio| % f.FrameSize() == 0
  }

  /** Playback starts for some phrase. */
  predicate Heard(sources: seq<Source>) {
    exists k :: 0 <= k < |sources| && sources[k].Starts()
  }

  lemma HeardStep(sources: seq<Source>)
    requires sources != []
    ensures Heard(sources) <==> sources[0].Starts() || Heard(sources[1..])
  {
    if Heard(sources) && !sources[0].Starts() {
      var k :| 0 <= k < |sources| && sources[k].Starts();
      assert sources[1..][k - 1].Starts();
    }
  }

  function PhraseEvents(f: Format, chunkMs: nat, sources: seq<Source>): (r: seq<seq<Event>>)
    requires f.Positive()
    ensures |r| == |sources|
    ensures forall k :: 0 <= k < |r| ==> r[k] == StreamOutput(f, chunkMs, sources[k].target, sources[k].audio, Eof).0
  {
    if sources == [] then []
    else [StreamOutput(f, chunkMs, sources[0].target, sources[0].audio, Eof).0] + PhraseEvents(f, chunkMs, sources[1..])
  }

  function Received(sources: seq<Source>): seq<Byte> {
    if sources == [] then [] else sources[0].audio + Received(sources[1..])
  }

  lemma {:induction false} AllAccepted(f: Format, chunkMs: nat, sources: seq<Source>, e: Envelope.Env)
    requires f.Positive() && Whole(f, sources) && Takes(e, f)
    ensures var r := Envelope.ProcessAll(e, PhraseEvents(f, chunkMs, sources));
      r.1.Ok? && Takes(r.0, f) && r.0.format == if Heard(sources) then Some(f) else e.format
    decreases |sources|
  {
    if sources != [] {
      var phrases := PhraseEvents(f, chunkMs, sources);
      StreamAccepted(f, chunkMs, sources[0], e);
      AllAccepted(f, chunkMs, sources[1..], Envelope.ProcessPhrase(e, phrases[0]).0);
      assert phrases[1..] == PhraseEvents(f, chunkMs, sources[1..]);
      HeardStep(sources);
    }
  }

  lemma {:induction false} AudioReceived(f: Format, chunkMs: nat, sources: seq<Source>)
    requires f.Positive() && Whole(f, sources)
    ensures AudioBytes(Flatten(PhraseEvents(f, chunkMs, sources))) == Received(sources)
    decreases |sources|
  {
    if sources != [] {
      var phrases := PhraseEvents(f, chunkMs, sources);
      assert phrases[1..] == PhraseEvents(f, chunkMs, sources[1..]);
      AudioReceived(f, chunkMs, sources[1..]);
      CompletedStreamConserves(f, chunkMs, sources[0].target, sources[0].audio);
      AudioBytesAppend(phrases[0], Flatten(phrases[1..]));
    }
  }

  /** What the envelope forwards for the phrases of a response. */
  function Forwarded(f: Format, chunkMs: nat, sources: seq<Source>): seq<Event>
    requires f.Positive()
  {
    var out := Envelope.ProcessAll(Envelope.OPEN, PhraseEvents(f, chunkMs, sources)).1;
    if out.Ok? then out.value else []
  }

  /** The stop's time is that of all bytes received. */
  lemma StopIsTotal(f: Format, e: Envelope.Env, out: seq<Event>)
    requires f.Positive() && Envelope.Flow(Envelope.OPEN, out) == Some(e)
    requires e.format == Some(f) || (e.format.None? && AudioBytes(out) == [])
    ensures Envelope.FinalStamp(e) == TotalStamp(f, |AudioBytes(out)|)
  {
    Envelope.FlowFacts(Envelope.OPEN, out);
    DivUnique(0, f.FrameSize(), 0, 0);
    DivUnique(0, f.rate, 0, 0);
  }

  /**
   * From transport to wire: however many phrases a response has, the envelope
   * accepts what their completed streams produced and forwards every byte
   * received, in order, and a closing stop with the total time. It forwards
   * one start exactly when playback started for some phrase, and none otherwise.
   */
  lemma ResponseConserves(f: Format, chunkMs: nat, sources: seq<Source>)
    requires f.Positive() && Whole(f, sources)
    ensures var (e, out) := Envelope.ProcessAll(Envelope.OPEN, PhraseEvents(f, chunkMs, sources));
      && out.Ok? && !e.closed
      && ClosingEvents(Envelope.Close(e, true).1) == [AudioStop(TotalStamp(f, |Received(sources)|))]
    ensures Envelope.Starts(Forwarded(f, chunkMs, sources)) == if Heard(sources) then 1 else 0
    ensures AudioBytes(Forwarded(f, chunkMs, sources)) == Received(sources)
  {
    var phrases := PhraseEvents(f, chunkMs, sources);
    AllAccepted(f, chunkMs, sources, Envelope.OPEN);
    AudioReceived(f, chunkMs, sources);
    Envelope.Continuity(Envelope.OPEN, phrases);
    var (e, out) := Envelope.ProcessAll(Envelope.OPEN, phrases);
    Envelope.FlowFacts(Envelope.OPEN, out.value);
    StopIsTotal(f, e, out.value);
  }

  // ------------------------------------------------------------ through the coordinator

  /** The n-th phrase from `first` on is answered by the n-th of `replies`. */
  predicate Answers(backend: Backend, first: nat, texts: seq<string>, replies: seq<seq<Event>>) {
    && |texts| == |replies|
    && forall k :: 0 <= k < |texts| ==> backend(first + k, texts[k]) == Produces(replies[k])
  }

  lemma {:induction false} OutputIsEnvelope(keeps: bool, backend: Backend, e: Envelope.Env, n: nat,
                                            texts: seq<string>, replies: seq<seq<Event>>)
    requires Answers(backend, n, texts, replies) && Envelope.ProcessAll(e, replies).1.Ok?
    ensures var (e', out) := Envelope.ProcessAll(e, replies);
      OutputFrom(keeps, backend, e, n, texts) == out.value + ClosingEvents(Envelope.Close(e', true).1)
    decreases |texts|
  {
    if texts != [] {
      var (e1, out1) := Envelope.ProcessPhrase(e, replies[0]);
      assert backend(n + 0, texts[0]) == Produces(replies[0]);
      OutputIsEnvelope(keeps, backend, e1, n + 1, texts[1..], replies[1..]);
      var (e2, out2) := Envelope.ProcessAll(e1, replies[1..]);
      AppendAssoc(out1.value, out2.value, ClosingEvents(Envelope.Close(e2, true).1));
    }
  }

  /** What the wire carries for the phrases of a response, the sentinel aside: nothing at all for no phrase. */
  function OnWire(f: Format, chunkMs: nat, sources: seq<Source>): seq<Event>
    requires f.Positive()
  {
    if sources == [] then []
    else Forwarded(f, chunkMs, sources) + [AudioStop(TotalStamp(f, |Received(sources)|))]
  }

  lemma OnWireCarries(f: Format, chunkMs: nat, sources: seq<Source>)
    requires f.Positive() && Whole(f, sources)
    ensures AudioBytes(OnWire(f, chunkMs, sources)) == Received(sources)
    ensures Envelope.Starts(OnWire(f, chunkMs, sources)) == if Heard(sources) then 1 else 0
  {
    if sources != [] {
      ResponseConserves(f, chunkMs, sources);
      var stop := [AudioStop(TotalStamp(f, |Received(sources)|))];
      AudioBytesAppend(Forwarded(f, chunkMs, sources), stop);
      StartsAppend(Forwarded(f, chunkMs, sources), stop);
      assert stop[1..] == [];
      AppendNone(Received(sources));
    }
  }

  lemma LoopOutputIsWire(backend: Backend, texts: seq<string>, f: Format, chunkMs: nat, sources: seq<Source>)
    requires f.Positive() && Whole(f, sources) && Answers(backend, 0, texts, PhraseEvents(f, chunkMs, sources))
    ensures LoopOutput(backend, texts) == OnWire(f, chunkMs, sources)
  {
    if sources != [] {
      ResponseConserves(f, chunkMs, sources);
      OutputIsEnvelope(true, backend, Envelope.OPEN, 0, texts, PhraseEvents(f, chunkMs, sources));
    }
  }

  /**
   * End to end: when the phrases of the text fed are answered by streams that
   * complete, every uncancelled, undrained run of the coordinator that ends
   * has put on the wire exactly the bytes the backend streamed, a stop with
   * their total time, and the sentinel. One start precedes them exactly when
   * some stream had audio or no initial buffer.
   */
  lemma WireConserves(c: Config, acts: seq<CoordAct>, s: Coord, f: Format, chunkMs: nat, sources: seq<Source>)
    requires c.limits.Valid() && Reaches(c, START, acts, s)
    requires s.loop.Finished? && s.done && !s.cancelled && !s.draining
    requires f.Positive() && Whole(f, sources)
    requires Answers(c.backend, 0, Phrases(c.chars, c.limits, s.fed), PhraseEvents(f, chunkMs, sources))
    ensures var wire := OnWire(f, chunkMs, sources);
      && s.delivered + s.queue == Items(wire) + [None]
      && AudioBytes(wire) == Received(sources)
      && Envelope.Starts(wire) == if Heard(sources) then 1 else 0
  {
    DeliversLoopOutput(c, acts, s);
    StartInv(c);
    CoordRunInv(c, START, acts, s);
    AcceptedPhrases(c, s);
    LoopOutputIsWire(c.backend, Phrases(c.chars, c.limits, s.fed), f, chunkMs, sources);
    OnWireCarries(f, chunkMs, sources);
  }

  /**
   * The start that is missing, shown: a response whose one stream completes
   * without audio while it was to be buffered is a stop and the sentinel.
   */
  lemma SilentWire(c: Config, f: Format, chunkMs: nat, target: nat) returns (acts: seq<CoordAct>, s: Coord)
    requires c.limits.Valid() && f.Positive() && target > 0
    requires c.backend(0, "!") == Produces(StreamOutput(f, chunkMs, target, [], Eof).0)
    ensures Reaches(c, START, acts, s) && s.loop.Finished? && s.done && !s.cancelled && s.queue == []
    ensures s.delivered == [Some(AudioStop(0)), None]
  {
    acts, s := OnePhraseRun(c);
    SilentSource(f, chunkMs, target);
    LoopOutputIsWire(c.backend, ["!"], f, chunkMs, [Source([], target)]);
  }

  lemma SilentPhrase(phrases: seq<seq<Event>>)
    requires |phrases| == 1 && phrases[0] == []
    ensures Envelope.ProcessAll(Envelope.OPEN, phrases) == (Envelope.OPEN, Ok([]))
  {
    assert phrases[1..] == [];
    assert Envelope.ProcessPhrase(Envelope.OPEN, phrases[0]) == (Envelope.OPEN, Ok([]));
    AppendNone<Event>([]);
  }

  lemma NoTime(f: Format)
    requires f.Positive()
    ensures TotalStamp(f, 0) == 0
  {
    DivUnique(0, f.FrameSize(), 0, 0);
    DivUnique(0, f.rate, 0, 0);
  }

  lemma SilentSource(f: Format, chunkMs: nat, target: nat)
    requires f.Positive() && target > 0
    ensures var sources := [Source([], target)];
      && Whole(f, sources)
      && PhraseEvents(f, chunkMs, sources) == [StreamOutput(f, chunkMs, target, [], Eof).0]
      && OnWire(f, chunkMs, sources) == [AudioStop(0)]
  {
    var sources := [Source([], target)];
    ModZero(f.FrameSize());
    assert Whole(f, sources) && sources[1..] == [];
    CompletedStream(f, chunkMs, target, []);
    SilentPhrase(PhraseEvents(f, chunkMs, sources));
    NoTime(f);
    assert Received(sources) == [];
  }

  lemma {:induction false} StartsAppend(p: seq<Event>, q: seq<Event>)
    ensures Envelope.Starts(p + q) == Envelope.Starts(p) + Envelope.Starts(q)
  {
    if p == [] {
      assert p + q == q;
    } else {
      assert (p + q)[1..] == p[1..] + q;
      StartsAppend(p[1..], q);
    }
  }
}

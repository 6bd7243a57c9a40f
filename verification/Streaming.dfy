/**
 * The audio generators of app/wyoming_server.py: the progressive one with its
 * retry loop, initial buffer and carryover, and the buffered one.
 *
 * The backend is a script: what the k-th stream delivers and how it ends.
 * Timeouts are one of the ways a stream ends.
 */
module Streaming {
  import opened Common
  import opened Pcm
  import opened Wire
  import opened Rechunker

  datatype Declared = NoHeaders | Declares(format: Format) | BadHeaders

  datatype Opening = DeadlinePassed | OpenBusy | OpenFailed | Opened(declared: Declared)

  datatype End = Eof | Busy | BackendError | TimedOut

  /** One call of `generate_stream`: the transport chunks it yields and how it ends. */
  datatype Attempt = Attempt(opening: Opening, chunks: seq<seq<Byte>>, end: End)

  datatype Outcome = Done | RaisedBusy | RaisedBackend | RaisedTimeout | RaisedPartialFrame | RaisedFormat

  datatype Settings = Settings(
    longFormThreshold: int,
    longFormMs: int,
    initialMs: int,
    maxBufferMs: int,
    maxRetries: int)

  // ------------------------------------------------------------ buffer sizes

  /** Bytes of `ms` milliseconds of audio, whole frames only. */
  function BufferBytes(f: Format, ms: int): (n: nat)
    requires f.Positive()
  {
    if ms <= 0 then 0
    else
      MulPositive(f.rate, f.FrameSize());
      MulPositive(ms, f.rate * f.FrameSize());
      CompleteBytes(ms * (f.rate * f.FrameSize()) / 1000, f.FrameSize())
  }

  /** The policy: long texts get the long-form target, and both are capped. */
  function TargetMs(s: Settings, textLen: nat): int {
    var wanted := if s.longFormThreshold > 0 && textLen >= s.longFormThreshold then s.longFormMs else s.initialMs;
    if s.maxBufferMs <= 0 then 0 else if wanted > s.maxBufferMs then s.maxBufferMs else wanted
  }

  function TargetBytes(f: Format, s: Settings, textLen: nat): nat
    requires f.Positive()
  {
    BufferBytes(f, TargetMs(s, textLen))
  }

  function CapBytes(f: Format, s: Settings): nat
    requires f.Positive()
  {
    BufferBytes(f, s.maxBufferMs)
  }

  lemma CompleteBytesMono(a: nat, b: nat, m: nat)
    requires m > 0 && a <= b
    ensures CompleteBytes(a, m) <= CompleteBytes(b, m)
  {
    assert a == (a / m) * m + a % m;
    AlignedPrefixFits(b, a / m, m);
  }

  lemma CompleteBytesIdempotent(x: nat, m: nat)
    requires m > 0
    ensures CompleteBytes(x, m) % m == 0
  {
    assert x == (x / m) * m + x % m;
    DivUnique(CompleteBytes(x, m), m, x / m, 0);
  }

  /** The target never exceeds the cap, and the cap is a whole number of frames. */
  lemma TargetWithinCap(f: Format, s: Settings, textLen: nat)
    requires f.Positive()
    ensures TargetBytes(f, s, textLen) <= CapBytes(f, s)
    ensures CapBytes(f, s) % f.FrameSize() == 0
  {
    var unit := f.rate * f.FrameSize();
    MulPositive(f.rate, f.FrameSize());
    var target, max := TargetMs(s, textLen), s.maxBufferMs;
    if target > 0 {
      MulMono(target, max, unit);
      CompleteBytesMono(target * unit / 1000, max * unit / 1000, f.FrameSize());
    }
    if max > 0 {
      MulPositive(max, unit);
      CompleteBytesIdempotent(max * unit / 1000, f.FrameSize());
    } else {
      ModZero(f.FrameSize());
    }
  }

  // ------------------------------------------------------------ what one stream should produce

  /** Is playback started, given the bytes `t` received before the stream ended with `end`? */
  predicate Starts(target: nat, t: seq<Byte>, end: End) {
    target == 0 || |t| >= target || (end == Eof && t != [])
  }

  function EndOutcome(end: End): Outcome {
    match end
    case Eof => Done
    case Busy => RaisedBusy
    case BackendError => RaisedBackend
    case TimedOut => RaisedTimeout
  }

  function Progress(f: Format, chunkMs: nat, t: seq<Byte>): seq<Event>
    requires f.Positive()
  {
    [AudioStart(f)] + ChunkEvents(f, After(ShapeOf(f, chunkMs), t).1)
  }

  /** Events and outcome of one stream, from the bytes it delivered alone. */
  function StreamOutput(f: Format, chunkMs: nat, target: nat, t: seq<Byte>, end: End): (r: (seq<Event>, Outcome))
    requires f.Positive()
  {
    if !Starts(target, t, end) then ([], EndOutcome(end))
    else if end != Eof then (Progress(f, chunkMs, t), EndOutcome(end))
    else
      var s := After(ShapeOf(f, chunkMs), t).0;
      match FlushPcm(ShapeOf(f, chunkMs), s)
      case Err(_) => (Progress(f, chunkMs, t), RaisedPartialFrame)
      case Ok((s', last)) =>
        (Progress(f, chunkMs, t) + ChunkEvents(f, last) + [AudioStop(Stamp(s'.frames, f.rate))], Done)
  }

  /**
   * Buffering transparency: the output is that of the unbuffered run exactly
   * when playback starts. A stream that reaches EOF with any audio always
   * starts; only an empty one shows the buffer (no start and no stop at all).
   */
  lemma BufferingTransparent(f: Format, chunkMs: nat, target: nat, t: seq<Byte>, end: End)
    requires f.Positive()
    ensures StreamOutput(f, chunkMs, target, t, end) == StreamOutput(f, chunkMs, 0, t, end) <==> Starts(target, t, end)
  {
    assert |StreamOutput(f, chunkMs, 0, t, end).0| > 0;
  }

  // ------------------------------------------------------------ one stream, as the generator runs it

  lemma FedMore(f: Format, chunkMs: nat, fed: seq<Byte>, data: seq<Byte>)
    requires f.Positive()
    ensures var c := ShapeOf(f, chunkMs);
      var (s, out) := FeedPcm(c, After(c, fed).0, data);
      && After(c, fed + data).0 == s
      && Progress(f, chunkMs, fed + data) == Progress(f, chunkMs, fed) + ChunkEvents(f, out)
  {
    var c := ShapeOf(f, chunkMs);
    FeedResumes(c, fed, data);
    var out := FeedPcm(c, After(c, fed).0, data).1;
    ChunkEventsAppend(f, After(c, fed).1, out);
    AppendAssoc([AudioStart(f)], ChunkEvents(f, After(c, fed).1), ChunkEvents(f, out));
  }

  lemma NothingFed(f: Format, chunkMs: nat)
    requires f.Positive()
    ensures After(ShapeOf(f, chunkMs), []) == (IDLE, [])
    ensures Progress(f, chunkMs, []) == [AudioStart(f)]
  {
  }

  lemma {:induction false} FlattenPrefix(chunks: seq<seq<Byte>>, i: nat)
    requires i < |chunks|
    ensures Flatten(chunks[..i + 1]) == Flatten(chunks[..i]) + chunks[i]
  {
    assert chunks[..i + 1] == chunks[..i] + [chunks[i]];
    FlattenAppend(chunks[..i], [chunks[i]]);
    FlattenOne(chunks[i]);
  }

  /** What the initial buffering phase ends with. */
  datatype Buffering = Buffering(buffered: seq<Byte>, carryover: seq<Byte>, next: nat, completed: bool, failed: bool)

  /**
   * Buffer transport chunks until the target is reached, the stream ends or
   * the cap is hit; an oversized chunk is split at the cap, frame-aligned.
   */
  method FillBuffer(f: Format, target: nat, cap: nat, att: Attempt) returns (b: Buffering)
    requires f.Positive() && 0 < target <= cap && cap % f.FrameSize() == 0
    ensures b.next <= |att.chunks| && b.buffered + b.carryover == Flatten(att.chunks[..b.next])
    ensures |b.buffered| <= cap
    ensures b.failed <==> !Starts(target, Flatten(att.chunks), att.end) && att.end != Eof
    ensures b.completed || b.failed ==>
      b.next == |att.chunks| && b.carryover == [] && |b.buffered| < target && (b.completed <==> att.end == Eof)
    ensures !b.completed && !b.failed ==>
      |Flatten(att.chunks[..b.next])| >= target && b.buffered != []
  {
    var buffered, carryover, next := [], [], 0;
    while true
      invariant next <= |att.chunks|
      invariant carryover == [] && buffered == Flatten(att.chunks[..next]) && |buffered| < target
      decreases |att.chunks| - next
    {
      if next == |att.chunks| {
        assert att.chunks[..next] == att.chunks;
        return Buffering(buffered, carryover, next, att.end == Eof, att.end != Eof);
      }
      var chunk := att.chunks[next];
      FlattenPrefix(att.chunks, next);
      next := next + 1;
      PrefixShorter(att.chunks, next);
      var spaceLeft := cap - |buffered|;
      if |chunk| > spaceLeft {
        var take := CompleteBytes(spaceLeft, f.FrameSize());
        assert buffered + chunk == (buffered + chunk[..take]) + chunk[take..];
        assert buffered == [] ==> take == cap;
        if take > 0 {
          buffered := buffered + chunk[..take];
        }
        carryover := chunk[take..];
        return Buffering(buffered, carryover, next, false, false);
      }
      buffered := buffered + chunk;
      assert buffered + [] == buffered;
      if |buffered| >= cap {
        return Buffering(buffered, carryover, next, false, false);
      }
      if |buffered| >= target {
        return Buffering(buffered, carryover, next, false, false);
      }
    }
  }

  lemma PrefixShorter(chunks: seq<seq<Byte>>, i: nat)
    requires i <= |chunks|
    ensures |Flatten(chunks[..i])| <= |Flatten(chunks)|
  {
    FlattenAppend(chunks[..i], chunks[i..]);
    assert chunks == chunks[..i] + chunks[i..];
  }

  /** The rechunker after the bytes `fed`, of which `events` shows what there is to show. */
  ghost predicate Caught(r: StreamingPCMRechunker, f: Format, chunkMs: nat, fed: seq<Byte>, events: seq<Event>)
    requires f.Positive()
    reads r
  {
    && r.Valid() && r.shape == ShapeOf(f, chunkMs)
    && r.View() == After(ShapeOf(f, chunkMs), fed).0
    && events == Progress(f, chunkMs, fed)
  }

  /** The transport chunks that remain after the initial buffer. */
  method PlayChunks(rechunker: StreamingPCMRechunker, f: Format, chunkMs: nat, att: Attempt,
                    first: nat, before: seq<Event>)
    returns (events: seq<Event>)
    requires f.Positive() && first <= |att.chunks|
    requires Caught(rechunker, f, chunkMs, Flatten(att.chunks[..first]), before)
    modifies rechunker
    ensures Caught(rechunker, f, chunkMs, Flatten(att.chunks), events)
  {
    events := before;
    var next := first;
    while next < |att.chunks|
      invariant next <= |att.chunks|
      invariant Caught(rechunker, f, chunkMs, Flatten(att.chunks[..next]), events)
    {
      var chunk := att.chunks[next];
      FlattenPrefix(att.chunks, next);
      FedMore(f, chunkMs, Flatten(att.chunks[..next]), chunk);
      var out := rechunker.Feed(chunk);
      events := events + ChunkEvents(f, out);
      next := next + 1;
    }
    assert att.chunks[..next] == att.chunks;
  }

  /** One stream from AudioStart to AudioStop, or to the failure that ends it. */
  method RunStream(f: Format, chunkMs: nat, target: nat, cap: nat, att: Attempt)
    returns (events: seq<Event>, outcome: Outcome, started: bool)
    requires f.Positive() && target <= cap && cap % f.FrameSize() == 0
    ensures (events, outcome) == StreamOutput(f, chunkMs, target, Flatten(att.chunks), att.end)
    ensures started <==> Starts(target, Flatten(att.chunks), att.end)
  {
    ghost var t := Flatten(att.chunks);
    var rechunker := new StreamingPCMRechunker(f, chunkMs);
    events, started := [], false;
    var carryover, next, completed := [], 0, false;
    ghost var fed := [];
    NothingFed(f, chunkMs);
    if target <= 0 {
      events := [AudioStart(f)];
      started := true;
    } else {
      var b := FillBuffer(f, target, cap, att);
      carryover, next, completed := b.carryover, b.next, b.completed;
      assert att.chunks[..|att.chunks|] == att.chunks;
      PrefixShorter(att.chunks, next);
      if b.failed {
        return events, EndOutcome(att.end), started;
      }
      if |b.buffered| > 0 {
        started := true;
        FedMore(f, chunkMs, fed, b.buffered);
        fed := fed + b.buffered;
        var out := rechunker.Feed(b.buffered);
        events := [AudioStart(f)] + ChunkEvents(f, out);
      }
    }
    assert started ==> events == Progress(f, chunkMs, fed);
    if carryover != [] && !completed {
      FedMore(f, chunkMs, fed, carryover);
      fed := fed + carryover;
      var out := rechunker.Feed(carryover);
      events := events + ChunkEvents(f, out);
    }
    if !completed {
      assert started && fed == Flatten(att.chunks[..next]);
      events := PlayChunks(rechunker, f, chunkMs, att, next, events);
      fed := t;
      if att.end != Eof {
        return events, EndOutcome(att.end), started;
      }
    }
    assert fed == t;
    var flushed := rechunker.Flush();
    if flushed.Err? {
      return events, RaisedPartialFrame, started;
    }
    events := events + ChunkEvents(f, flushed.value);
    if started {
      events := events + [AudioStop(Stamp(rechunker.cumulativeFrames, f.rate))];
    }
    return events, Done, started;
  }

  // ------------------------------------------------------------ the retry loop

  /** The format in force: declared by the response, or what was in force before. */
  function FormatAfter(f: Format, opening: Opening): Format {
    if opening.Opened? && opening.declared.Declares? then opening.declared.format else f
  }

  predicate Playable(f: Format, chunkMs: int) {
    f.Positive() && chunkMs > 0
  }

  /** Did this attempt fail busy before any audio arrived and before playback started? */
  predicate RetryableBusy(s: Settings, chunkMs: int, textLen: nat, f: Format, att: Attempt) {
    match att.opening
    case OpenBusy => true
    case Opened(declared) =>
      && !declared.BadHeaders?
      && var g := FormatAfter(f, att.opening);
         && Playable(g, chunkMs)
         && att.end == Busy
         && Flatten(att.chunks) == []
         && !Starts(TargetBytes(g, s, textLen), [], Busy)
    case _ => false
  }

  /** Events and outcome of the attempt after which the generator gives up or succeeds. */
  function AttemptOutput(s: Settings, chunkMs: int, textLen: nat, f: Format, att: Attempt): (r: (seq<Event>, Outcome)) {
    match att.opening
    case DeadlinePassed => ([], RaisedTimeout)
    case OpenBusy => ([], RaisedBusy)
    case OpenFailed => ([], RaisedBackend)
    case Opened(declared) =>
      var g := FormatAfter(f, att.opening);
      if declared.BadHeaders? || !Playable(g, chunkMs) then ([], RaisedFormat)
      else StreamOutput(g, chunkMs, TargetBytes(g, s, textLen), Flatten(att.chunks), att.end)
  }

  /** The format in force when attempt `k` begins. */
  function FormatAt(f: Format, backend: nat -> Attempt, k: nat): Format {
    if k == 0 then f else FormatAfter(FormatAt(f, backend, k - 1), backend(k - 1).opening)
  }

  // ------------------------------------------------------------ whose format

  predicate DeclaresSome(att: Attempt) {
    att.opening.Opened? && att.opening.declared.Declares?
  }

  /** `g` is the format of attempt `last`: the latest declared up to then, else the configured one. */
  ghost predicate InForce(config: Format, backend: nat -> Attempt, last: nat, g: Format) {
    || (g == config && forall j: nat :: j <= last ==> !DeclaresSome(backend(j)))
    || (exists k: nat :: LatestDeclared(backend, last, k, g))
  }

  ghost predicate LatestDeclared(backend: nat -> Attempt, last: nat, k: nat, g: Format) {
    && k <= last && backend(k).opening == Opened(Declares(g))
    && forall j: nat :: k < j <= last ==> !DeclaresSome(backend(j))
  }

  /** Every start and every chunk says `g`. */
  predicate OfFormat(events: seq<Event>, g: Format) {
    forall k :: 0 <= k < |events| ==>
      (events[k].AudioStart? ==> events[k].format == g) && (events[k].AudioChunk? ==> events[k].format == g)
  }

  /** All of `events` is of the format in force. */
  ghost predicate InOneFormat(config: Format, backend: nat -> Attempt, last: nat, events: seq<Event>) {
    exists g :: InForce(config, backend, last, g) && OfFormat(events, g)
  }

  lemma {:induction false} InForceIs(config: Format, backend: nat -> Attempt, last: nat, g: Format)
    ensures InForce(config, backend, last, g)
      <==> g == FormatAfter(FormatAt(config, backend, last), backend(last).opening)
    decreases last
  {
    if DeclaresSome(backend(last)) {
      assert LatestDeclared(backend, last, last, backend(last).opening.declared.format);
    } else if last > 0 {
      InForceIs(config, backend, last - 1, g);
      if InForce(config, backend, last - 1, g) && !(forall j: nat :: j < last ==> !DeclaresSome(backend(j))) {
        var k: nat :| LatestDeclared(backend, last - 1, k, g);
        assert LatestDeclared(backend, last, k, g);
      }
      if k: nat :| LatestDeclared(backend, last, k, g) {
        assert LatestDeclared(backend, last - 1, k, g);
      }
    }
  }

  lemma {:induction false} ChunksOfFormat(f: Format, chunks: seq<Timed>)
    ensures OfFormat(ChunkEvents(f, chunks), f)
  {
    if chunks != [] {
      ChunksOfFormat(f, chunks[1..]);
    }
  }

  lemma StreamOfFormat(f: Format, chunkMs: nat, target: nat, t: seq<Byte>, end: End)
    requires f.Positive()
    ensures OfFormat(StreamOutput(f, chunkMs, target, t, end).0, f)
  {
    var c := ShapeOf(f, chunkMs);
    ChunksOfFormat(f, After(c, t).1);
    if FlushPcm(c, After(c, t).0).Ok? {
      ChunksOfFormat(f, FlushPcm(c, After(c, t).0).value.1);
    }
  }

  /** The output of an attempt is of the format in force. */
  lemma AttemptOfFormat(s: Settings, chunkMs: int, textLen: nat, config: Format, backend: nat -> Attempt, last: nat)
    ensures var events := AttemptOutput(s, chunkMs, textLen, FormatAt(config, backend, last), backend(last)).0;
      InOneFormat(config, backend, last, events)
  {
    var att := backend(last);
    var g := FormatAfter(FormatAt(config, backend, last), att.opening);
    InForceIs(config, backend, last, g);
    if att.opening.Opened? && Playable(g, chunkMs) {
      StreamOfFormat(g, chunkMs, TargetBytes(g, s, textLen), Flatten(att.chunks), att.end);
    }
  }

  /** The body of the retry loop: one attempt, and whether it may be retried. */
  method RunAttempt(s: Settings, config: Format, chunkMs: int, textLen: nat, att: Attempt)
    returns (events: seq<Event>, outcome: Outcome, retry: bool)
    ensures (events, outcome) == AttemptOutput(s, chunkMs, textLen, config, att)
    ensures retry <==> RetryableBusy(s, chunkMs, textLen, config, att)
  {
    match att.opening
    case DeadlinePassed => return [], RaisedTimeout, false;
    case OpenFailed => return [], RaisedBackend, false;
    case OpenBusy => return [], RaisedBusy, true;
    case Opened(declared) =>
      if declared.BadHeaders? {
        return [], RaisedFormat, false;
      }
      var audioConfig := if declared.Declares? then declared.format else config;
      if !Playable(audioConfig, chunkMs) {
        return [], RaisedFormat, false;
      }
      var target, cap := TargetBytes(audioConfig, s, textLen), CapBytes(audioConfig, s);
      TargetWithinCap(audioConfig, s, textLen);
      var audioStartEmitted;
      events, outcome, audioStartEmitted := RunStream(audioConfig, chunkMs, target, cap, att);
      var dataObserved := Flatten(att.chunks) != [];
      retry := outcome == RaisedBusy && !dataObserved && !audioStartEmitted;
  }

  predicate RetriedAt(s: Settings, config: Format, chunkMs: int, textLen: nat, backend: nat -> Attempt, k: nat) {
    RetryableBusy(s, chunkMs, textLen, FormatAt(config, backend, k), backend(k))
  }

  /** Every attempt before `n` was retried. */
  predicate AllRetried(s: Settings, config: Format, chunkMs: int, textLen: nat, backend: nat -> Attempt, n: nat) {
    n > 0 ==>
      && AllRetried(s, config, chunkMs, textLen, backend, n - 1)
      && RetriedAt(s, config, chunkMs, textLen, backend, n - 1)
  }

  lemma {:induction false} RetriedSilently(s: Settings, config: Format, chunkMs: int, textLen: nat,
                                           backend: nat -> Attempt, n: nat, k: nat)
    requires AllRetried(s, config, chunkMs, textLen, backend, n) && k < n
    ensures AttemptOutput(s, chunkMs, textLen, FormatAt(config, backend, k), backend(k)) == ([], RaisedBusy)
  {
    if k == n - 1 {
    } else {
      RetriedSilently(s, config, chunkMs, textLen, backend, n - 1, k);
    }
  }

  /**
   * `synthesize_s2cpp_streaming_tts_events`: retry while the backend is busy
   * and nothing was received or played. `backend(k)` scripts attempt k, and
   * attempts 0..last are the streams opened. `events` are those of all
   * attempts together.
   */
  method Synthesize(s: Settings, config: Format, chunkMs: int, textLen: nat, backend: nat -> Attempt)
    returns (events: seq<Event>, outcome: Outcome, last: nat)
    ensures (events, outcome) == AttemptOutput(s, chunkMs, textLen, FormatAt(config, backend, last), backend(last))
    ensures AllRetried(s, config, chunkMs, textLen, backend, last)
    ensures last <= if s.maxRetries > 0 then s.maxRetries else 0
    ensures RetriedAt(s, config, chunkMs, textLen, backend, last) ==> last >= s.maxRetries
    ensures InOneFormat(config, backend, last, events)
  {
    var attempt := 1;
    var maxTotal := s.maxRetries + 1;
    var audioConfig := config;
    events, last := [], 0;
    while true
      invariant attempt == last + 1 && (last == 0 || attempt <= maxTotal)
      invariant audioConfig == FormatAt(config, backend, last)
      invariant AllRetried(s, config, chunkMs, textLen, backend, last)
      invariant events == []
      decreases maxTotal - attempt
    {
      var att := backend(last);
      var shown, retry;
      shown, outcome, retry := RunAttempt(s, audioConfig, chunkMs, textLen, att);
      events := events + shown;
      assert events == shown;
      if !retry || attempt >= maxTotal {
        AttemptOfFormat(s, chunkMs, textLen, config, backend, last);
        return;
      }
      audioConfig := FormatAfter(audioConfig, att.opening);
      attempt, last := attempt + 1, last + 1;
    }
  }

  /**
   * Buffering transparency at the level of the settings: two streams that
   * deliver the same audio and reach EOF look the same, whatever the transport
   * chunks, the buffer settings and the text lengths were.
   */
  lemma BufferSettingsInvisible(s: Settings, s': Settings, textLen: nat, textLen': nat, chunkMs: int,
                                f: Format, att: Attempt, att': Attempt)
    requires att.opening.Opened? && att'.opening == att.opening && att.end == att'.end == Eof
    requires Flatten(att.chunks) == Flatten(att'.chunks) != []
    ensures AttemptOutput(s, chunkMs, textLen, f, att) == AttemptOutput(s', chunkMs, textLen', f, att')
  {
    var g := FormatAfter(f, att.opening);
    if Playable(g, chunkMs) && !att.opening.declared.BadHeaders? {
      BufferingTransparent(g, chunkMs, TargetBytes(g, s, textLen), Flatten(att.chunks), Eof);
      BufferingTransparent(g, chunkMs, TargetBytes(g, s', textLen'), Flatten(att.chunks), Eof);
    }
  }

  /** How many AudioStart events a run contains. */
  function StartCount(events: seq<Event>): nat {
    if events == [] then 0 else (if events[0].AudioStart? then 1 else 0) + StartCount(events[1..])
  }

  lemma {:induction false} StartCountAppend(p: seq<Event>, q: seq<Event>)
    ensures StartCount(p + q) == StartCount(p) + StartCount(q)
  {
    if p == [] {
      assert p + q == q;
    } else {
      assert (p + q)[1..] == p[1..] + q;
      StartCountAppend(p[1..], q);
    }
  }

  lemma {:induction false} ChunksHaveNoStart(f: Format, chunks: seq<Timed>)
    ensures StartCount(ChunkEvents(f, chunks)) == 0
  {
    if chunks != [] {
      assert ChunkEvents(f, chunks)[1..] == ChunkEvents(f, chunks[1..]);
      ChunksHaveNoStart(f, chunks[1..]);
    }
  }

  /**
   * Retry discipline, what each run may contain: events begin with the only
   * AudioStart there is, and a run without AudioStart is silent.
   */
  lemma StartFirstAndOnce(s: Settings, chunkMs: int, textLen: nat, f: Format, att: Attempt)
    ensures var events := AttemptOutput(s, chunkMs, textLen, f, att).0;
      events == [] || (events[0].AudioStart? && StartCount(events) == 1)
  {
    var events := AttemptOutput(s, chunkMs, textLen, f, att).0;
    if events != [] {
      var g := FormatAfter(f, att.opening);
      var c := ShapeOf(g, chunkMs);
      var t := Flatten(att.chunks);
      var shown := ChunkEvents(g, After(c, t).1);
      ChunksHaveNoStart(g, After(c, t).1);
      assert Progress(g, chunkMs, t)[1..] == shown;
      assert StartCount(Progress(g, chunkMs, t)) == 1;
      if att.end == Eof && FlushPcm(c, After(c, t).0).Ok? {
        var (s', last) := FlushPcm(c, After(c, t).0).value;
        var stop := [AudioStop(Stamp(s'.frames, g.rate))];
        ChunksHaveNoStart(g, last);
        StartCountAppend(Progress(g, chunkMs, t), ChunkEvents(g, last));
        StartCountAppend(Progress(g, chunkMs, t) + ChunkEvents(g, last), stop);
        assert stop[1..] == [];
      }
    }
  }

  // ------------------------------------------------------------ conservation and the buffered path

  lemma {:induction false} ChunkEventsAudio(f: Format, chunks: seq<Timed>)
    ensures AudioBytes(ChunkEvents(f, chunks)) == Flatten(Audio(chunks))
  {
    if chunks != [] {
      assert ChunkEvents(f, chunks)[1..] == ChunkEvents(f, chunks[1..]);
      assert Audio(chunks)[1..] == Audio(chunks[1..]);
      ChunkEventsAudio(f, chunks[1..]);
    }
  }

  /** Before the flush: the audio shown and the carry are the bytes received. */
  lemma ProgressAudio(f: Format, chunkMs: nat, t: seq<Byte>)
    requires f.Positive()
    ensures var c := ShapeOf(f, chunkMs);
      AudioBytes(Progress(f, chunkMs, t)) + After(c, t).0.carry == t
    ensures FlushPcm(ShapeOf(f, chunkMs), After(ShapeOf(f, chunkMs), t).0).Err? <==> |t| % f.FrameSize() != 0
  {
    var c := ShapeOf(f, chunkMs);
    FlattenOne(t);
    RechunkerRefinement(c, [t]);
    FlushRefinement(c, [t]);
    FeedAllIsAfter(c, [], [t]);
    NothingFed(f, chunkMs);
    assert [] + t == t && [] + FeedAllPcm(c, IDLE, [t]).1 == FeedAllPcm(c, IDLE, [t]).1;
    var out := After(c, t).1;
    ChunkEventsAudio(f, out);
    AudioBytesAppend([AudioStart(f)], ChunkEvents(f, out));
    assert [AudioStart(f)][1..] == [];
  }

  /** A stream that completes delivers exactly the bytes received, and needs whole frames to complete. */
  lemma CompletedStreamConserves(f: Format, chunkMs: nat, target: nat, t: seq<Byte>)
    requires f.Positive()
    ensures var (events, outcome) := StreamOutput(f, chunkMs, target, t, Eof);
      && (outcome == Done <==> |t| % f.FrameSize() == 0)
      && (outcome == Done ==> AudioBytes(events) == t)
      && (outcome != Done ==> outcome == RaisedPartialFrame && AudioBytes(events) <= t)
  {
    var c := ShapeOf(f, chunkMs);
    ProgressAudio(f, chunkMs, t);
    var s := After(c, t).0;
    if !Starts(target, t, Eof) {
      ModZero(f.FrameSize());
    } else if FlushPcm(c, s).Ok? {
      var (s', last) := FlushPcm(c, s).value;
      var stop := [AudioStop(Stamp(s'.frames, f.rate))];
      assert stop[1..] == [];
      FlushAudio(c, s);
      ChunkEventsAudio(f, last);
      AudioBytesAppend(Progress(f, chunkMs, t), ChunkEvents(f, last));
      AudioBytesAppend(Progress(f, chunkMs, t) + ChunkEvents(f, last), stop);
    }
  }

  lemma FlushAudio(c: Shape, s: Chunker)
    requires c.Positive() && FlushPcm(c, s).Ok?
    ensures Flatten(Audio(FlushPcm(c, s).value.1)) == s.carry
  {
    if s.carry != [] {
      assert Audio(FlushPcm(c, s).value.1) == [s.carry];
      FlattenOne(s.carry);
    }
  }

  /** The buffered path's stamps: `first` and then one chunk length more each. */
  function EvenlyTimed(chunkMs: nat, blocks: seq<seq<Byte>>, first: nat): (r: seq<Timed>)
    ensures |r| == |blocks|
  {
    if blocks == [] then [] else [Timed(blocks[0], first)] + EvenlyTimed(chunkMs, blocks[1..], first + chunkMs)
  }

  /** The events of the buffered path. */
  function BufferedOutput(f: Format, chunkMs: nat, pcm: seq<Byte>): seq<Event>
    requires f.Positive()
  {
    var blocks := Blocks(pcm, ShapeOf(f, chunkMs).ChunkBytes());
    [AudioStart(f)] + ChunkEvents(f, EvenlyTimed(chunkMs, blocks, 0)) + [AudioStop(|blocks| * chunkMs)]
  }

  /** `_pcm_to_audio_events`: the whole payload at once. */
  method PcmToAudioEvents(pcm: seq<Byte>, f: Format, chunkMs: nat) returns (events: seq<Event>)
    requires f.Positive()
    ensures events == BufferedOutput(f, chunkMs, pcm)
  {
    var blocks := ChunkPcm(pcm, f, chunkMs);
    events := [AudioStart(f)];
    var timestampMs: nat := 0;
    var k := 0;
    assert blocks[0..] == blocks;
    while k < |blocks|
      invariant k <= |blocks| && BufferedSoFar(f, chunkMs, blocks, k, timestampMs, events)
    {
      NextBuffered(f, chunkMs, blocks, k, timestampMs, events);
      events := events + [AudioChunk(f, blocks[k], timestampMs)];
      timestampMs := timestampMs + chunkMs;
      k := k + 1;
    }
    AllBuffered(f, chunkMs, blocks, timestampMs, events);
    events := events + [AudioStop(timestampMs)];
  }

  /** With `k` blocks stamped, those to come make up the start and all of them. */
  ghost predicate BufferedSoFar(f: Format, chunkMs: nat, blocks: seq<seq<Byte>>, k: nat, stamp: nat, events: seq<Event>)
    requires k <= |blocks|
  {
    && stamp == k * chunkMs
    && events + ChunkEvents(f, EvenlyTimed(chunkMs, blocks[k..], stamp))
      == [AudioStart(f)] + ChunkEvents(f, EvenlyTimed(chunkMs, blocks, 0))
  }

  lemma NextBuffered(f: Format, chunkMs: nat, blocks: seq<seq<Byte>>, k: nat, stamp: nat, events: seq<Event>)
    requires k < |blocks| && BufferedSoFar(f, chunkMs, blocks, k, stamp, events)
    ensures BufferedSoFar(f, chunkMs, blocks, k + 1, stamp + chunkMs, events + [AudioChunk(f, blocks[k], stamp)])
  {
    assert blocks[k..][1..] == blocks[k + 1..] && blocks[k..][0] == blocks[k];
    var more := EvenlyTimed(chunkMs, blocks[k + 1..], stamp + chunkMs);
    AppendAssoc(events, [AudioChunk(f, blocks[k], stamp)], ChunkEvents(f, more));
    var timed := [Timed(blocks[k], stamp)] + more;
    assert timed[1..] == more;
    assert (k + 1) * chunkMs == k * chunkMs + chunkMs;
  }

  lemma AllBuffered(f: Format, chunkMs: nat, blocks: seq<seq<Byte>>, stamp: nat, events: seq<Event>)
    requires BufferedSoFar(f, chunkMs, blocks, |blocks|, stamp, events)
    ensures stamp == |blocks| * chunkMs
    ensures events == [AudioStart(f)] + ChunkEvents(f, EvenlyTimed(chunkMs, blocks, 0))
  {
    assert blocks[|blocks|..] == [];
    AppendNone(events);
  }

  lemma {:induction false} EvenlyTimedAt(chunkMs: nat, blocks: seq<seq<Byte>>, first: nat, k: nat)
    requires k < |blocks|
    ensures EvenlyTimed(chunkMs, blocks, first)[k] == Timed(blocks[k], first + k * chunkMs)
  {
    if k > 0 {
      EvenlyTimedAt(chunkMs, blocks[1..], first + chunkMs, k - 1);
      assert k * chunkMs == (k - 1) * chunkMs + chunkMs;
    }
  }
}

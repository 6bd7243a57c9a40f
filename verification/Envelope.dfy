/** Wyoming audio events. */
module Wire {
  import opened Common
  import opened Pcm

  datatype Event =
    | AudioStart(format: Format)
    | AudioChunk(format: Format, audio: seq<Byte>, stamp: nat)
    | AudioStop(stamp: nat)
    | SynthesisFailed
    | OtherEvent(tag: int)

  function ChunkEvents(f: Format, chunks: seq<Timed>): (r: seq<Event>)
    ensures |r| == |chunks|
  {
    if chunks == [] then []
    else [AudioChunk(f, chunks[0].audio, chunks[0].stamp)] + ChunkEvents(f, chunks[1..])
  }

  lemma {:induction false} ChunkEventsAppend(f: Format, p: seq<Timed>, q: seq<Timed>)
    ensures ChunkEvents(f, p + q) == ChunkEvents(f, p) + ChunkEvents(f, q)
  {
    if p == [] {
      assert p + q == q;
    } else {
      assert (p + q)[1..] == p[1..] + q;
      ChunkEventsAppend(f, p[1..], q);
    }
  }

  /** The PCM bytes carried by a sequence of events. */
  function AudioBytes(events: seq<Event>): seq<Byte> {
    if events == [] then []
    else (if events[0].AudioChunk? then events[0].audio else []) + AudioBytes(events[1..])
  }

  lemma {:induction false} AudioBytesAppend(p: seq<Event>, q: seq<Event>)
    ensures AudioBytes(p + q) == AudioBytes(p) + AudioBytes(q)
  {
    if p == [] {
      assert p + q == q;
    } else {
      assert (p + q)[1..] == p[1..] + q;
      AudioBytesAppend(p[1..], q);
      AppendAssoc(if p[0].AudioChunk? then p[0].audio else [], AudioBytes(p[1..]), AudioBytes(q));
    }
  }
}

/** What app/speech/envelope.py does to the events of one response. */
module Envelope {
  import opened Common
  import opened Pcm
  import opened Wire

  /** Locked format (none before the first AudioStart) and frames forwarded so far. */
  datatype Env = Env(format: Option<Format>, frames: nat, closed: bool)

  const OPEN: Env := Env(None, 0, false)

  datatype Fault =
    | AlreadyClosed
    | MultipleStarts
    | ChunkBeforeStart
    | FormatDrift
    | Misaligned
    | DivisionByZero
    | MissingStart

  // ------------------------------------------------------------ one event

  function HandleStart(e: Env, f: Format): (r: (Env, Result<seq<Event>, Fault>)) {
    if e.format.None? then (e.(format := Some(f)), Ok([AudioStart(f)]))
    else if f != e.format.value then (e, Err(FormatDrift))
    else (e, Ok([]))
  }

  function HandleChunk(e: Env, audio: seq<Byte>): (r: (Env, Result<seq<Event>, Fault>))
    requires e.format.Some?
  {
    var f := e.format.value;
    if audio == [] then (e, Ok([]))
    else if f.FrameSize() == 0 then (e, Err(DivisionByZero))
    else if |audio| % f.FrameSize() != 0 then (e, Err(Misaligned))
    else if f.rate == 0 then (e, Err(DivisionByZero))
    else (e.(frames := e.frames + |audio| / f.FrameSize()), Ok([AudioChunk(f, audio, Stamp(e.frames, f.rate))]))
  }

  /** The event loop of `process_phrase` from a state in which a start was seen or not. */
  function Scan(e: Env, seen: bool, events: seq<Event>): (r: (Env, Result<seq<Event>, Fault>))
    requires seen ==> e.format.Some?
    decreases |events|, 0
  {
    if events == [] then (e, Ok([]))
    else
      match events[0]
      case AudioStart(f) =>
        if seen then (e, Err(MultipleStarts)) else Then(HandleStart(e, f), true, events[1..])
      case AudioChunk(_, audio, _) =>
        if !seen then (e, Err(ChunkBeforeStart)) else Then(HandleChunk(e, audio), seen, events[1..])
      case AudioStop(_) => Scan(e, seen, events[1..])
      case other => Then((e, Ok([other])), seen, events[1..])
  }

  function Then(first: (Env, Result<seq<Event>, Fault>), seen: bool, rest: seq<Event>)
    : (r: (Env, Result<seq<Event>, Fault>))
    requires seen && first.1.Ok? ==> first.0.format.Some?
    decreases |rest|, 1
  {
    if first.1.Err? then first
    else
      var (e', more) := Scan(first.0, seen, rest);
      (e', if more.Err? then more else Ok(first.1.value + more.value))
  }

  predicate HasStart(events: seq<Event>) {
    exists k :: 0 <= k < |events| && events[k].AudioStart?
  }

  predicate OnlyStops(events: seq<Event>) {
    forall k :: 0 <= k < |events| ==> events[k].AudioStop?
  }

  function ProcessPhrase(e: Env, events: seq<Event>): (r: (Env, Result<seq<Event>, Fault>)) {
    if e.closed then (e, Err(AlreadyClosed))
    else
      var (e', out) := Scan(e, false, events);
      if out.Ok? && !HasStart(events) && !OnlyStops(events) then (e', Err(MissingStart)) else (e', out)
  }

  function FinalStamp(e: Env): nat {
    if e.format.Some? && e.format.value.rate > 0 then Stamp(e.frames, e.format.value.rate) else 0
  }

  datatype Closing = Closed(events: seq<Event>) | Failed(stop: Option<Event>) | ClosedTwice

  function Close(e: Env, onSuccess: bool): (r: (Env, Closing)) {
    if e.closed then (e, ClosedTwice)
    else if onSuccess then (e.(closed := true), Closed([AudioStop(FinalStamp(e))]))
    else (e.(closed := true), Failed(if e.format.Some? then Some(AudioStop(FinalStamp(e))) else None))
  }

  // ------------------------------------------------------------ continuity

  /**
   * Reference: a continuous audio stream. One start, then only chunks of its
   * format, each stamped with the time of the frames before it; no stop.
   */
  predicate Legal(e: Env, event: Event) {
    match event
    case AudioStart(_) => e.format.None?
    case AudioChunk(f, audio, stamp) =>
      && e.format == Some(f) && f.Positive()
      && audio != [] && |audio| % f.FrameSize() == 0
      && stamp == Stamp(e.frames, f.rate)
    case AudioStop(_) => false
    case _ => true
  }

  function FlowStep(e: Env, event: Event): Env
    requires Legal(e, event)
  {
    match event
    case AudioStart(f) => e.(format := Some(f))
    case AudioChunk(f, audio, _) => e.(frames := e.frames + |audio| / f.FrameSize())
    case _ => e
  }

  function Flow(e: Env, out: seq<Event>): (r: Option<Env>)
    decreases |out|
  {
    if out == [] then Some(e)
    else if Legal(e, out[0]) then Flow(FlowStep(e, out[0]), out[1..])
    else None
  }

  lemma {:induction false} FlowAppend(e: Env, p: seq<Event>, q: seq<Event>)
    requires Flow(e, p).Some?
    ensures Flow(e, p + q) == Flow(Flow(e, p).value, q)
    decreases |p|
  {
    if p == [] {
      assert p + q == q;
    } else {
      assert (p + q)[1..] == p[1..] + q && (p + q)[0] == p[0];
      FlowAppend(FlowStep(e, p[0]), p[1..], q);
    }
  }

  lemma ChunkLegal(e: Env, audio: seq<Byte>)
    requires e.format.Some? && HandleChunk(e, audio).1.Ok? && audio != []
    ensures var event := AudioChunk(e.format.value, audio, Stamp(e.frames, e.format.value.rate));
      && HandleChunk(e, audio).1 == Ok([event])
      && Legal(e, event) && FlowStep(e, event) == HandleChunk(e, audio).0
  {
  }

  lemma ChunkFlows(e: Env, audio: seq<Byte>)
    requires e.format.Some? && HandleChunk(e, audio).1.Ok?
    ensures var (e', out) := HandleChunk(e, audio);
      Flow(e, out.value) == Some(e') && AudioBytes(out.value) == audio
  {
    if audio != [] {
      ChunkLegal(e, audio);
      var event := HandleChunk(e, audio).1.value[0];
    }
  }

  lemma ThenFlows(e: Env, first: (Env, Result<seq<Event>, Fault>), bytes: seq<Byte>, seen: bool, rest: seq<Event>)
    requires seen && first.1.Ok? ==> first.0.format.Some?
    requires first.1.Ok? ==> Flow(e, first.1.value) == Some(first.0) && AudioBytes(first.1.value) == bytes
    requires Then(first, seen, rest).1.Ok? ==>
      var (e', out) := Scan(first.0, seen, rest);
      Flow(first.0, out.value) == Some(e') && AudioBytes(out.value) == AudioBytes(rest)
    ensures Then(first, seen, rest).1.Ok? ==>
      var (e', out) := Then(first, seen, rest);
      Flow(e, out.value) == Some(e') && AudioBytes(out.value) == bytes + AudioBytes(rest)
  {
    if Then(first, seen, rest).1.Ok? {
      var more := Scan(first.0, seen, rest).1.value;
      FlowAppend(e, first.1.value, more);
      AudioBytesAppend(first.1.value, more);
    }
  }

  lemma {:induction false} ScanFlows(e: Env, seen: bool, events: seq<Event>)
    requires seen ==> e.format.Some?
    ensures Scan(e, seen, events).1.Ok? ==>
      var (e', out) := Scan(e, seen, events);
      Flow(e, out.value) == Some(e') && AudioBytes(out.value) == AudioBytes(events)
    decreases |events|
  {
    if events != [] {
      match events[0]
      case AudioStart(f) =>
        if !seen && HandleStart(e, f).1.Ok? {
          ScanFlows(HandleStart(e, f).0, true, events[1..]);
          ThenFlows(e, HandleStart(e, f), [], true, events[1..]);
        }
      case AudioChunk(_, audio, _) =>
        if seen && HandleChunk(e, audio).1.Ok? {
          ChunkFlows(e, audio);
          ScanFlows(HandleChunk(e, audio).0, seen, events[1..]);
          ThenFlows(e, HandleChunk(e, audio), audio, seen, events[1..]);
        }
      case AudioStop(_) => ScanFlows(e, seen, events[1..]);
      case other =>
        ScanFlows(e, seen, events[1..]);
        ThenFlows(e, (e, Ok([other])), [], seen, events[1..]);
    }
  }

  /** Phrases accepted one after another; stops at the first rejected one. */
  function ProcessAll(e: Env, phrases: seq<seq<Event>>): (r: (Env, Result<seq<Event>, Fault>))
    decreases |phrases|
  {
    if phrases == [] then (e, Ok([]))
    else
      var (e1, out1) := ProcessPhrase(e, phrases[0]);
      if out1.Err? then (e1, out1)
      else
        var (e2, out2) := ProcessAll(e1, phrases[1..]);
        (e2, if out2.Err? then out2 else Ok(out1.value + out2.value))
  }

  /**
   * Envelope continuity: the phrases of a response come out as one continuous
   * stream carrying exactly their audio, whatever stamps and stops they had.
   */
  lemma {:induction false} Continuity(e: Env, phrases: seq<seq<Event>>)
    requires ProcessAll(e, phrases).1.Ok?
    ensures var (e', out) := ProcessAll(e, phrases);
      Flow(e, out.value) == Some(e') && AudioBytes(out.value) == AudioBytes(Flatten(phrases))
    decreases |phrases|
  {
    if phrases != [] {
      var (e1, out1) := ProcessPhrase(e, phrases[0]);
      ScanFlows(e, false, phrases[0]);
      Continuity(e1, phrases[1..]);
      var (e2, out2) := ProcessAll(e1, phrases[1..]);
      FlowAppend(e, out1.value, out2.value);
      AudioBytesAppend(out1.value, out2.value);
      AudioBytesAppend(phrases[0], Flatten(phrases[1..]));
    }
  }

  // ------------------------------------------------ what a continuous stream guarantees

  function Starts(out: seq<Event>): nat {
    if out == [] then 0 else (if out[0].AudioStart? then 1 else 0) + Starts(out[1..])
  }

  /** Frames in a continuous stream, by its audio bytes. */
  lemma {:induction false} FlowFacts(e: Env, out: seq<Event>)
    requires Flow(e, out).Some?
    ensures var e' := Flow(e, out).value;
      && Starts(out) == (if e.format.None? && e'.format.Some? then 1 else 0)
      && (e.format.Some? ==> e'.format == e.format)
      && (forall k :: 0 <= k < |out| ==> !out[k].AudioStop?)
      && (e'.format.None? ==> AudioBytes(out) == [] && e'.frames == e.frames)
      && (e'.format.Some? && AudioBytes(out) != [] ==>
          && e'.format.value.Positive()
          && |AudioBytes(out)| % e'.format.value.FrameSize() == 0
          && e'.frames == e.frames + |AudioBytes(out)| / e'.format.value.FrameSize())
      && (AudioBytes(out) == [] ==> e'.frames == e.frames)
    decreases |out|
  {
    if out != [] {
      var e1 := FlowStep(e, out[0]);
      FlowFacts(e1, out[1..]);
      if out[0].AudioChunk? {
        FramesAdd(|out[0].audio|, |AudioBytes(out[1..])|, out[0].format.FrameSize());
      }
    }
  }

  lemma FramesAdd(a: nat, b: nat, n: nat)
    requires n > 0 && a % n == 0
    ensures b % n == 0 ==> (a + b) % n == 0 && (a + b) / n == a / n + b / n
    ensures 0 % n == 0 && 0 / n == 0
  {
    DivUnique(0, n, 0, 0);
    if b % n == 0 {
      assert a == (a / n) * n && b == (b / n) * n;
      assert (a / n + b / n) * n == (a / n) * n + (b / n) * n;
      DivUnique(a + b, n, a / n + b / n, 0);
    }
  }

  lemma StampMono(a: nat, b: nat, rate: nat)
    requires rate > 0 && a <= b
    ensures Stamp(a, rate) <= Stamp(b, rate)
  {
    AtMostFloor(Stamp(a, rate), Stamp(b, rate), rate, b * 1000);
  }

  /** Stamps never go back, and the closing stop is not before any of them. */
  lemma {:induction false} StampsMonotone(e: Env, out: seq<Event>, i: nat, j: nat)
    requires Flow(e, out).Some? && i <= j < |out|
    requires out[i].AudioChunk? && out[j].AudioChunk?
    ensures out[i].stamp <= out[j].stamp <= FinalStamp(Flow(e, out).value)
    decreases |out|
  {
    var e1 := FlowStep(e, out[0]);
    if i > 0 {
      StampsMonotone(e1, out[1..], i - 1, j - 1);
    } else {
      FlowFacts(e1, out[1..]);
      FlowGrows(e1, out[1..]);
      var rate := e.format.value.rate;
      StampMono(e.frames, Flow(e, out).value.frames, rate);
      if j > 0 {
        StampsMonotone(e1, out[1..], j - 1, j - 1);
        ChunkNotBefore(e1, out[1..], j - 1);
        StampMono(e.frames, e1.frames, rate);
      }
    }
  }

  lemma {:induction false} FlowGrows(e: Env, out: seq<Event>)
    requires Flow(e, out).Some?
    ensures e.frames <= Flow(e, out).value.frames
    decreases |out|
  {
    if out != [] {
      FlowGrows(FlowStep(e, out[0]), out[1..]);
    }
  }

  lemma {:induction false} ChunkNotBefore(e: Env, out: seq<Event>, j: nat)
    requires Flow(e, out).Some? && j < |out| && out[j].AudioChunk? && e.format.Some?
    ensures out[j].format == e.format.value && e.format.value.rate > 0
    ensures Stamp(e.frames, e.format.value.rate) <= out[j].stamp
    decreases |out|
  {
    if j > 0 {
      var e1 := FlowStep(e, out[0]);
      ChunkNotBefore(e1, out[1..], j - 1);
      StampMono(e.frames, e1.frames, e.format.value.rate);
    }
  }

  /**
   * One whole response: at least one accepted phrase had an AudioStart, all
   * were accepted, and the envelope closed normally.
   */
  lemma OneResponse(phrases: seq<seq<Event>>)
    requires ProcessAll(OPEN, phrases).1.Ok? && ProcessAll(OPEN, phrases).0.format.Some?
    ensures var (e, out) := ProcessAll(OPEN, phrases);
      var f, audio := e.format.value, AudioBytes(Flatten(phrases));
      && Starts(out.value) == 1
      && AudioBytes(out.value) == audio
      && (forall k :: 0 <= k < |out.value| ==> !out.value[k].AudioStop?)
      && (audio != [] ==>
          && f.Positive()
          && Close(e, true).1 == Closed([AudioStop(Stamp(|audio| / f.FrameSize(), f.rate))]))
      && (audio == [] ==> Close(e, true).1 == Closed([AudioStop(0)]))
  {
    Continuity(OPEN, phrases);
    var (e, out) := ProcessAll(OPEN, phrases);
    FlowFacts(OPEN, out.value);
    NeverCloses(OPEN, phrases);
    if e.format.value.rate > 0 {
      DivUnique(0, e.format.value.rate, 0, 0);
    }
  }

  lemma {:induction false} NeverCloses(e: Env, phrases: seq<seq<Event>>)
    ensures ProcessAll(e, phrases).0.closed == e.closed
    decreases |phrases|
  {
    if phrases != [] {
      ScanNeverCloses(e, false, phrases[0]);
      NeverCloses(ProcessPhrase(e, phrases[0]).0, phrases[1..]);
    }
  }

  lemma {:induction false} ScanNeverCloses(e: Env, seen: bool, events: seq<Event>)
    requires seen ==> e.format.Some?
    ensures Scan(e, seen, events).0.closed == e.closed
    decreases |events|
  {
    if events != [] {
      match events[0]
      case AudioStart(f) =>
        if !seen && HandleStart(e, f).1.Ok? {
          ScanNeverCloses(HandleStart(e, f).0, true, events[1..]);
        }
      case AudioChunk(_, audio, _) =>
        if seen && HandleChunk(e, audio).1.Ok? {
          ScanNeverCloses(HandleChunk(e, audio).0, seen, events[1..]);
        }
      case AudioStop(_) => ScanNeverCloses(e, seen, events[1..]);
      case other => ScanNeverCloses(e, seen, events[1..]);
    }
  }

  // ------------------------------------------------ a rechunked phrase passes unchanged

  lemma {:induction false} ChunksPassUnchanged(f: Format, chunkMs: nat, e: Env, blocks: seq<seq<Byte>>)
    requires f.Positive() && e.format == Some(f)
    requires forall k :: 0 <= k < |blocks| ==> blocks[k] != [] && |blocks[k]| % f.FrameSize() == 0
    ensures var chunks := ChunkEvents(f, TimedFrom(ShapeOf(f, chunkMs), blocks, e.frames));
      forall stop :: Scan(e, true, chunks + [AudioStop(stop)])
        == (e.(frames := e.frames + FramesIn(ShapeOf(f, chunkMs), blocks)), Ok(chunks))
    decreases |blocks|
  {
    var c := ShapeOf(f, chunkMs);
    var chunks := ChunkEvents(f, TimedFrom(c, blocks, e.frames));
    if blocks == [] {
      forall stop
        ensures Scan(e, true, chunks + [AudioStop(stop)]) == (e, Ok(chunks))
      {
        assert (chunks + [AudioStop(stop)])[1..] == [];
      }
    } else {
      var e1 := e.(frames := e.frames + |blocks[0]| / f.FrameSize());
      ChunksPassUnchanged(f, chunkMs, e1, blocks[1..]);
      var more := ChunkEvents(f, TimedFrom(c, blocks[1..], e1.frames));
      assert chunks == [chunks[0]] + more;
      forall stop
        ensures Scan(e, true, chunks + [AudioStop(stop)])
          == (e.(frames := e.frames + FramesIn(c, blocks)), Ok(chunks))
      {
        assert (chunks + [AudioStop(stop)])[1..] == more + [AudioStop(stop)];
        assert Scan(e, true, chunks + [AudioStop(stop)])
          == Then(HandleChunk(e, blocks[0]), true, more + [AudioStop(stop)]);
      }
    }
  }

  /** The output of one rechunker run is a fixed point of the envelope, its stop aside. */
  lemma RechunkedPhraseUnchanged(f: Format, chunkMs: nat, blocks: seq<seq<Byte>>, stop: nat)
    requires f.Positive()
    requires forall k :: 0 <= k < |blocks| ==> blocks[k] != [] && |blocks[k]| % f.FrameSize() == 0
    ensures var out := [AudioStart(f)] + ChunkEvents(f, TimedFrom(ShapeOf(f, chunkMs), blocks, 0));
      ProcessPhrase(OPEN, out + [AudioStop(stop)]).1 == Ok(out)
  {
    var chunks := ChunkEvents(f, TimedFrom(ShapeOf(f, chunkMs), blocks, 0));
    var out := [AudioStart(f)] + chunks;
    var phrase := out + [AudioStop(stop)];
    ChunksPassUnchanged(f, chunkMs, OPEN.(format := Some(f)), blocks);
    assert phrase[1..] == chunks + [AudioStop(stop)];
    assert phrase[0] == AudioStart(f);
    assert Scan(OPEN, false, phrase) == Then(HandleStart(OPEN, f), true, chunks + [AudioStop(stop)]);
  }

  // ------------------------------------------------ the envelope object

  class AudioEnvelope {
    var format: Option<Format>
    var cumulativeFrames: nat
    var closed: bool

    function View(): Env
      reads this
    {
      Env(format, cumulativeFrames, closed)
    }

    constructor ()
      ensures View() == OPEN
    {
      format, cumulativeFrames, closed := None, 0, false;
    }

    method Process(events: seq<Event>) returns (r: Result<seq<Event>, Fault>)
      modifies this
      ensures (View(), r) == ProcessPhrase(old(View()), events)
    {
      if closed {
        return Err(AlreadyClosed);
      }
      if events == [] {
        return Ok([]);
      }
      var output := [];
      var seenStart := false;
      ghost var whole := Scan(View(), false, events);
      var i := 0;
      assert events[0..] == events;
      assert whole.1.Ok? ==> [] + whole.1.value == whole.1.value;
      while i < |events|
        invariant i <= |events|
        invariant seenStart <==> HasStart(events[..i])
        invariant seenStart ==> format.Some?
        invariant Resumes(whole, output, Scan(View(), seenStart, events[i..]))
      {
        var event := events[i];
        assert events[i..][1..] == events[i + 1..] && events[i..][0] == event;
        assert events[..i + 1] == events[..i] + [event];
        assert HasStart(events[..i + 1]) <==> HasStart(events[..i]) || event.AudioStart? by {
          if event.AudioStart? {
            assert events[..i + 1][i].AudioStart?;
          }
          if HasStart(events[..i]) {
            var k :| 0 <= k < i && events[..i][k].AudioStart?;
            assert events[..i + 1][k].AudioStart?;
          }
        }
        ghost var before := View();
        match event {
          case AudioStart(f) =>
            if seenStart {
              return Err(MultipleStarts);
            }
            assert Scan(before, false, events[i..]) == Then(HandleStart(before, f), true, events[i + 1..]);
            var started := StartOnce(f);
            if started.Err? {
              return Err(started.error);
            }
            ThenResumes(whole, output, (View(), started), true, events[i + 1..]);
            seenStart := true;
            output := output + started.value;
          case AudioChunk(_, audio, _) =>
            if !seenStart {
              return Err(ChunkBeforeStart);
            }
            assert Scan(before, true, events[i..]) == Then(HandleChunk(before, audio), true, events[i + 1..]);
            var chunk := Restamp(audio);
            if chunk.Err? {
              return Err(chunk.error);
            }
            ThenResumes(whole, output, (View(), chunk), true, events[i + 1..]);
            output := output + chunk.value;
          case AudioStop(_) =>
          case other =>
            ThenResumes(whole, output, (before, Ok([other])), seenStart, events[i + 1..]);
            output := output + [other];
        }
        i := i + 1;
      }
      assert events[..i] == events;
      assert output + [] == output;
      if !seenStart {
        if exists k :: 0 <= k < |events| && !events[k].AudioStop? {
          return Err(MissingStart);
        }
      }
      return Ok(output);
    }

    method StartOnce(f: Format) returns (r: Result<seq<Event>, Fault>)
      modifies this
      ensures (View(), r) == HandleStart(old(View()), f)
    {
      if format.None? {
        format := Some(f);
        return Ok([AudioStart(f)]);
      }
      if f != format.value {
        return Err(FormatDrift);
      }
      return Ok([]);
    }

    method Restamp(audio: seq<Byte>) returns (r: Result<seq<Event>, Fault>)
      requires format.Some?
      modifies this
      ensures (View(), r) == HandleChunk(old(View()), audio)
    {
      if audio == [] {
        return Ok([]);
      }
      var frameSize := format.value.FrameSize();
      if frameSize == 0 {
        return Err(DivisionByZero);
      }
      if |audio| % frameSize != 0 {
        return Err(Misaligned);
      }
      if format.value.rate == 0 {
        return Err(DivisionByZero);
      }
      var stamp := Stamp(cumulativeFrames, format.value.rate);
      cumulativeFrames := cumulativeFrames + |audio| / frameSize;
      return Ok([AudioChunk(format.value, audio, stamp)]);
    }

    method Shut(onSuccess: bool) returns (r: Closing)
      modifies this
      ensures (View(), r) == Close(old(View()), onSuccess)
    {
      if closed {
        return ClosedTwice;
      }
      closed := true;
      var stop := AudioStop(FinalStamp(View()));
      if onSuccess {
        return Closed([stop]);
      }
      return Failed(if format.Some? then Some(stop) else None);
    }
  }

  /** The remaining work `r`, after the output `done`, is all of `whole`. */
  ghost predicate Resumes(whole: (Env, Result<seq<Event>, Fault>), done: seq<Event>,
                          r: (Env, Result<seq<Event>, Fault>))
  {
    whole == (r.0, if r.1.Err? then r.1 else Ok(done + r.1.value))
  }

  lemma ThenResumes(whole: (Env, Result<seq<Event>, Fault>), done: seq<Event>,
                    first: (Env, Result<seq<Event>, Fault>), seen: bool, rest: seq<Event>)
    requires first.1.Ok? && (seen ==> first.0.format.Some?)
    requires Resumes(whole, done, Then(first, seen, rest))
    ensures Resumes(whole, done + first.1.value, Scan(first.0, seen, rest))
  {
    var more := Scan(first.0, seen, rest).1;
    if more.Ok? {
      assert done + (first.1.value + more.value) == (done + first.1.value) + more.value;
    }
  }
}

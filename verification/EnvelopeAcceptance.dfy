/** Which phrases the envelope accepts, and what it makes of them, said over their events alone. */
module EnvelopeAcceptance {
  import opened Common
  import opened Pcm
  import opened Wire
  import opened Envelope

  // ------------------------------------------------------------ accepted, exactly

  /** The chunks of `events` are empty, or whole frames of `f` at a positive rate. */
  predicate WholeFrames(f: Format, events: seq<Event>) {
    forall k :: 0 <= k < |events| && events[k].AudioChunk? && events[k].audio != [] ==>
      f.rate > 0 && f.width * f.channels > 0 && |events[k].audio| % (f.width * f.channels) == 0
  }

  predicate NoStart(events: seq<Event>) {
    forall k :: 0 <= k < |events| ==> !events[k].AudioStart?
  }

  predicate NoChunk(events: seq<Event>) {
    forall k :: 0 <= k < |events| ==> !events[k].AudioChunk?
  }

  /** Exactly one start, at `k`, with no chunk before it, in the locked format if there is one. */
  predicate StartsAt(locked: Option<Format>, events: seq<Event>, k: int) {
    && 0 <= k < |events| && events[k].AudioStart?
    && NoStart(events[..k]) && NoChunk(events[..k]) && NoStart(events[k + 1..])
    && (locked.Some? ==> events[k].format == locked.value)
    && WholeFrames(events[k].format, events[k + 1..])
  }

  /** A phrase that may be spoken: only stops, or one start and whole frames after it. */
  ghost predicate Speakable(locked: Option<Format>, events: seq<Event>) {
    || (forall k :: 0 <= k < |events| ==> events[k].AudioStop?)
    || (exists k :: StartsAt(locked, events, k))
  }

  lemma WholeFramesTail(f: Format, events: seq<Event>)
    requires events != []
    ensures WholeFrames(f, events) <==> WholeFrames(f, events[..1]) && WholeFrames(f, events[1..])
  {
    if WholeFrames(f, events[..1]) && WholeFrames(f, events[1..]) {
      assert forall k :: 0 < k < |events| ==> events[k] == events[1..][k - 1];
      assert events[..1][0] == events[0];
    }
  }

  lemma NoStartTail(events: seq<Event>)
    requires events != []
    ensures NoStart(events) <==> !events[0].AudioStart? && NoStart(events[1..])
  {
    assert forall k :: 0 < k < |events| ==> events[k] == events[1..][k - 1];
  }

  /** After the start: no second one, and whole frames. */
  lemma {:induction false} ScanAfterStart(e: Env, events: seq<Event>)
    requires e.format.Some?
    ensures Scan(e, true, events).1.Ok? <==> NoStart(events) && WholeFrames(e.format.value, events)
    decreases |events|
  {
    if events != [] {
      WholeFramesTail(e.format.value, events);
      NoStartTail(events);
      assert events[..1][0] == events[0];
      match events[0]
      case AudioStart(_) =>
      case AudioChunk(_, audio, _) =>
        if HandleChunk(e, audio).1.Ok? {
          ScanAfterStart(HandleChunk(e, audio).0, events[1..]);
        }
      case AudioStop(_) => ScanAfterStart(e, events[1..]);
      case other => ScanAfterStart(e, events[1..]);
    }
  }

  lemma StartsFirst(locked: Option<Format>, events: seq<Event>, k: int)
    requires StartsAt(locked, events, k)
    ensures k > 0 ==> !events[0].AudioStart? && !events[0].AudioChunk?
  {
    if k > 0 {
      assert events[..k][0] == events[0];
    }
  }

  lemma StartsAtStep(locked: Option<Format>, events: seq<Event>, k: int)
    requires events != [] && !events[0].AudioStart? && !events[0].AudioChunk?
    ensures StartsAt(locked, events, k) <==> StartsAt(locked, events[1..], k - 1)
  {
    if 0 < k < |events| {
      assert events[..k][1..] == events[1..][..k - 1] && events[..k][0] == events[0];
      assert events[1..][k..] == events[k + 1..];
      NoStartTail(events[..k]);
      assert forall j :: 0 < j < k ==> events[..k][j] == events[1..][..k - 1][j - 1];
    }
  }

  /** Before the start: accepted so far, and with a start, exactly when it stands where it may. */
  lemma {:induction false} ScanFromStart(e: Env, events: seq<Event>)
    ensures Scan(e, false, events).1.Ok? && !NoStart(events) <==> exists k :: StartsAt(e.format, events, k)
    ensures NoStart(events) ==> (Scan(e, false, events).1.Ok? <==> NoChunk(events))
    decreases |events|, 1
  {
    if events != [] {
      NoStartTail(events);
      match events[0]
      case AudioStart(f) =>
        assert events[..0] == [];
        assert StartsAt(e.format, events, 0)
          <==> (e.format.Some? ==> f == e.format.value) && NoStart(events[1..]) && WholeFrames(f, events[1..]);
        forall k | StartsAt(e.format, events, k)
          ensures k == 0
        {
          StartsFirst(e.format, events, k);
        }
        if HandleStart(e, f).1.Ok? {
          ScanAfterStart(HandleStart(e, f).0, events[1..]);
        }
      case AudioChunk(_, _, _) =>
        forall k
          ensures !StartsAt(e.format, events, k)
        {
          if StartsAt(e.format, events, k) {
            StartsFirst(e.format, events, k);
          }
        }
      case AudioStop(_) => SkipToStart(e, events);
      case other => SkipToStart(e, events);
    }
  }

  lemma {:induction false} SkipToStart(e: Env, events: seq<Event>)
    requires events != [] && !events[0].AudioStart? && !events[0].AudioChunk?
    ensures Scan(e, false, events).1.Ok? && !NoStart(events) <==> exists k :: StartsAt(e.format, events, k)
    ensures NoStart(events) ==> (Scan(e, false, events).1.Ok? <==> NoChunk(events))
    decreases |events|, 0
  {
    NoStartTail(events);
    ScanFromStart(e, events[1..]);
    if k :| StartsAt(e.format, events[1..], k) {
      StartsAtStep(e.format, events, k + 1);
    }
    if k :| StartsAt(e.format, events, k) {
      StartsAtStep(e.format, events, k);
    }
    assert forall k :: 0 < k < |events| ==> events[k] == events[1..][k - 1];
  }

  /**
   * The envelope accepts a phrase exactly when it is open and the phrase is
   * only stops, or has exactly one AudioStart, with no chunk before it, in the
   * locked format if there is one, and whole frames of that format after it.
   */
  lemma AcceptedExactly(e: Env, events: seq<Event>)
    ensures ProcessPhrase(e, events).1.Ok? <==> !e.closed && Speakable(e.format, events)
  {
    ScanFromStart(e, events);
  }

  // ------------------------------------------------------------ one format, and nothing lost

  lemma {:induction false} ScanKeepsLock(e: Env, seen: bool, events: seq<Event>)
    requires e.format.Some?
    ensures Scan(e, seen, events).0.format == e.format
    decreases |events|
  {
    if events != [] {
      match events[0]
      case AudioStart(f) =>
        if !seen && HandleStart(e, f).1.Ok? {
          ScanKeepsLock(e, true, events[1..]);
        }
      case AudioChunk(_, audio, _) =>
        if seen && HandleChunk(e, audio).1.Ok? {
          ScanKeepsLock(HandleChunk(e, audio).0, seen, events[1..]);
        }
      case AudioStop(_) => ScanKeepsLock(e, seen, events[1..]);
      case other => ScanKeepsLock(e, seen, events[1..]);
    }
  }

  predicate StartsHave(f: Option<Format>, events: seq<Event>) {
    forall k :: 0 <= k < |events| && events[k].AudioStart? ==> Some(events[k].format) == f
  }

  lemma {:induction false} ScanLocksTo(e: Env, events: seq<Event>)
    requires Scan(e, false, events).1.Ok?
    ensures StartsHave(Scan(e, false, events).0.format, events)
    ensures NoStart(events) ==> Scan(e, false, events).0.format == e.format
    ensures e.format.Some? ==> Scan(e, false, events).0.format == e.format
    decreases |events|
  {
    if events != [] {
      NoStartTail(events);
      assert forall k :: 0 < k < |events| ==> events[k] == events[1..][k - 1];
      match events[0]
      case AudioStart(f) =>
        ScanKeepsLock(HandleStart(e, f).0, true, events[1..]);
        ScanAfterStart(HandleStart(e, f).0, events[1..]);
      case AudioChunk(_, _, _) =>
      case AudioStop(_) => ScanLocksTo(e, events[1..]);
      case other => ScanLocksTo(e, events[1..]);
    }
  }

  /** All starts of an accepted response have one format: the one that is locked. */
  lemma {:induction false} OneFormat(e: Env, phrases: seq<seq<Event>>)
    requires ProcessAll(e, phrases).1.Ok?
    ensures e.format.Some? ==> ProcessAll(e, phrases).0.format == e.format
    ensures forall i :: 0 <= i < |phrases| ==> StartsHave(ProcessAll(e, phrases).0.format, phrases[i])
    decreases |phrases|
  {
    if phrases != [] {
      var e1 := ProcessPhrase(e, phrases[0]).0;
      ScanLocksTo(e, phrases[0]);
      OneFormat(e1, phrases[1..]);
      assert forall i :: 0 < i < |phrases| ==> phrases[i] == phrases[1..][i - 1];
      assert e1.format.None? ==> NoStart(phrases[0]);
    }
  }

  /** What a listener gets of `events` in order: audio, and whatever is neither start nor stop. */
  function Payload(events: seq<Event>): seq<(seq<Byte>, Option<Event>)> {
    if events == [] then []
    else
      match events[0]
      case AudioStart(_) => Payload(events[1..])
      case AudioStop(_) => Payload(events[1..])
      case AudioChunk(_, audio, _) => (if audio == [] then [] else [(audio, None)]) + Payload(events[1..])
      case other => [([], Some(other))] + Payload(events[1..])
  }

  lemma {:induction false} PayloadAppend(p: seq<Event>, q: seq<Event>)
    ensures Payload(p + q) == Payload(p) + Payload(q)
  {
    if p == [] {
      assert p + q == q;
    } else {
      assert (p + q)[1..] == p[1..] + q;
      PayloadAppend(p[1..], q);
    }
  }

  lemma PayloadOne(event: Event)
    ensures Payload([event]) == (match event
      case AudioStart(_) => []
      case AudioStop(_) => []
      case AudioChunk(_, audio, _) => if audio == [] then [] else [(audio, None)]
      case other => [([], Some(other))])
  {
    assert [event][1..] == [];
  }

  lemma ThenPayload(event: Event, first: (Env, Result<seq<Event>, Fault>), seen: bool, rest: seq<Event>)
    requires seen && first.1.Ok? ==> first.0.format.Some?
    requires Then(first, seen, rest).1.Ok?
    requires Payload(first.1.value) == Payload([event])
    requires Payload(Scan(first.0, seen, rest).1.value) == Payload(rest)
    ensures Payload(Then(first, seen, rest).1.value) == Payload([event] + rest)
  {
    PayloadAppend(first.1.value, Scan(first.0, seen, rest).1.value);
    PayloadAppend([event], rest);
  }

  lemma {:induction false} ScanPayload(e: Env, seen: bool, events: seq<Event>)
    requires (seen ==> e.format.Some?) && Scan(e, seen, events).1.Ok?
    ensures Payload(Scan(e, seen, events).1.value) == Payload(events)
    decreases |events|
  {
    if events != [] {
      assert events == [events[0]] + events[1..];
      match events[0]
      case AudioStart(f) =>
        ScanPayload(HandleStart(e, f).0, true, events[1..]);
        PayloadOne(AudioStart(f));
        ThenPayload(events[0], HandleStart(e, f), true, events[1..]);
      case AudioChunk(f, audio, stamp) =>
        ScanPayload(HandleChunk(e, audio).0, seen, events[1..]);
        PayloadOne(events[0]);
        ThenPayload(events[0], HandleChunk(e, audio), seen, events[1..]);
      case AudioStop(_) => ScanPayload(e, seen, events[1..]);
      case other =>
        ScanPayload(e, seen, events[1..]);
        ThenPayload(events[0], (e, Ok([other])), seen, events[1..]);
    }
  }

  /** An accepted phrase loses nothing but its starts and stops: audio and other events come out in their order. */
  lemma NothingLost(e: Env, events: seq<Event>)
    requires ProcessPhrase(e, events).1.Ok?
    ensures Payload(ProcessPhrase(e, events).1.value) == Payload(events)
  {
    ScanPayload(e, false, events);
  }

  /** A rejected phrase leaves the envelope as its longest prefix that could be scanned does. */
  lemma {:induction false} RejectedKeeps(e: Env, seen: bool, events: seq<Event>) returns (n: nat)
    requires (seen ==> e.format.Some?) && Scan(e, seen, events).1.Err?
    ensures n < |events|
    ensures Scan(e, seen, events[..n]).1.Ok? && Scan(e, seen, events[..n]).0 == Scan(e, seen, events).0
    ensures Scan(e, seen, events[..n + 1]).1.Err?
    decreases |events|
  {
    assert events[..1][0] == events[0] && events[..1][1..] == [];
    n := 0;
    match events[0] {
      case AudioStart(f) =>
        if !seen && HandleStart(e, f).1.Ok? {
          n := RejectedKeeps(HandleStart(e, f).0, true, events[1..]);
          n := n + 1;
        }
      case AudioChunk(_, audio, _) =>
        if seen && HandleChunk(e, audio).1.Ok? {
          n := RejectedKeeps(HandleChunk(e, audio).0, seen, events[1..]);
          n := n + 1;
        }
      case AudioStop(_) =>
        n := RejectedKeeps(e, seen, events[1..]);
        n := n + 1;
      case other =>
        n := RejectedKeeps(e, seen, events[1..]);
        n := n + 1;
    }
    if n > 0 {
      assert events[..n][0] == events[0] && events[..n][1..] == events[1..][..n - 1];
      assert events[..n + 1][0] == events[0] && events[..n + 1][1..] == events[1..][..n];
    }
  }

  // ------------------------------------------------------------ closing

  /** Once closed, the envelope refuses every phrase and every further closing, and stays as it is. */
  lemma ClosedForGood(e: Env, onSuccess: bool, again: bool, events: seq<Event>)
    ensures var shut := Close(e, onSuccess).0;
      && shut.closed
      && Close(shut, again) == (shut, ClosedTwice)
      && ProcessPhrase(shut, events) == (shut, Err(AlreadyClosed))
  {
  }

  /** An envelope that is open closes with a stop, or a failure whose stop is there exactly with a locked format. */
  lemma ClosesWith(e: Env, audio: nat)
    requires !e.closed
    requires e.format.Some? ==>
      && e.format.value.rate > 0 && e.format.value.width * e.format.value.channels > 0
      && e.frames == audio / (e.format.value.width * e.format.value.channels)
    ensures e.format.Some? ==>
      var ms := audio / (e.format.value.width * e.format.value.channels) * 1000 / e.format.value.rate;
      && ms >= 0
      && Close(e, true).1 == Closed([AudioStop(ms)])
      && Close(e, false).1 == Failed(Some(AudioStop(ms)))
    ensures e.format.None? ==> Close(e, true).1 == Closed([AudioStop(0)]) && Close(e, false).1 == Failed(None)
  {
  }
}

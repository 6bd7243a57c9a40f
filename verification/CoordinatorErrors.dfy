/** When the error is reported: every failure once, as the last event, and nothing else is an error. */
module CoordinatorErrors {
  import opened Common
  import Pcm
  import opened Wire
  import opened Envelope
  import opened EnvelopeAcceptance
  import opened CoordinatorModel
  import opened CoordinatorSafety
  import opened CoordinatorLaws
  import opened CoordinatorEndings

  /** A phrase fails: `run` raises, before or after the operation, or the envelope does not accept its events. */
  ghost predicate Fails(locked: Option<Pcm.Format>, reply: Reply) {
    reply.Fails? || reply.ProducesThenRaises? || !Speakable(locked, reply.events)
  }

  /** The first phrase to fail is the `k`-th. */
  ghost predicate FailsAt(backend: Backend, phrases: seq<string>, k: int) {
    && 0 <= k < |phrases| && Spoke(backend, phrases[..k]).Some?
    && Fails(Spoke(backend, phrases[..k]).value.0.format, backend(k, phrases[k]))
  }

  /** No phrase comes with an error among its own events. */
  ghost predicate NoOwnErrors(backend: Backend) {
    forall n: nat, p: string :: !backend(n, p).Fails? ==> SynthesisFailed !in backend(n, p).events
  }

  /** Neither error nor stop. */
  predicate Ongoing(events: seq<Event>) {
    SynthesisFailed !in events && forall k :: 0 <= k < |events| ==> !events[k].AudioStop?
  }

  lemma {:induction false} ErrorInPayload(events: seq<Event>)
    ensures SynthesisFailed in events <==> ([], Some(SynthesisFailed)) in Payload(events)
  {
    if events != [] {
      ErrorInPayload(events[1..]);
      assert events == [events[0]] + events[1..];
    }
  }

  lemma FailsIsBroken(e: Env, reply: Reply)
    requires !e.closed
    ensures Spoken(e, reply).1.Broken? <==> Fails(e.format, reply)
  {
    if !reply.Fails? {
      AcceptedExactly(e, reply.events);
    }
  }

  lemma AcceptedOngoing(e: Env, events: seq<Event>)
    requires ProcessPhrase(e, events).1.Ok? && SynthesisFailed !in events
    ensures Ongoing(ProcessPhrase(e, events).1.value)
  {
    NothingLost(e, events);
    ErrorInPayload(events);
    ErrorInPayload(ProcessPhrase(e, events).1.value);
    ScanFlows(e, false, events);
    FlowFacts(e, ProcessPhrase(e, events).1.value);
  }

  /** What a phrase forwards or had to show is neither error nor stop. */
  lemma SpokenOngoing(e: Env, reply: Reply)
    requires !reply.Fails? ==> SynthesisFailed !in reply.events
    ensures var speech := Spoken(e, reply).1;
      Ongoing(if speech.Uttered? then speech.events else speech.shown)
  {
    if !reply.Fails? && ProcessPhrase(e, reply.events).1.Ok? {
      AcceptedOngoing(e, reply.events);
    }
  }

  lemma {:induction false} SpokeOngoing(backend: Backend, phrases: seq<string>, n: nat)
    requires n <= |phrases| && Spoke(backend, phrases[..n]).Some? && NoOwnErrors(backend)
    ensures Ongoing(Spoke(backend, phrases[..n]).value.1) && !Spoke(backend, phrases[..n]).value.0.closed
    decreases n
  {
    SpokeOpen(backend, phrases[..n]);
    if n > 0 {
      assert phrases[..n][..n - 1] == phrases[..n - 1];
      SpokeOngoing(backend, phrases, n - 1);
      SpokenOngoing(Spoke(backend, phrases[..n - 1]).value.0, backend(n - 1, phrases[n - 1]));
    }
  }

  /** Failing somewhere, and where. */
  lemma FailureIs(backend: Backend, phrases: seq<string>, k: nat)
    requires k < |phrases| && Spoke(backend, phrases[..k]).Some?
    ensures Spoke(backend, phrases[..k + 1]).None? <==> FailsAt(backend, phrases, k)
  {
    SpokeStep(backend, phrases, k);
    SpokeOpen(backend, phrases[..k]);
    FailsIsBroken(Spoke(backend, phrases[..k]).value.0, backend(k, phrases[k]));
  }

  lemma SomeFails(backend: Backend, phrases: seq<string>)
    ensures Spoke(backend, phrases).None? <==> exists k :: FailsAt(backend, phrases, k)
  {
    assert phrases[..|phrases|] == phrases;
    if Spoke(backend, phrases).None? {
      var k := FirstFailure(backend, phrases, |phrases|);
      FailureIs(backend, phrases, k);
    }
    if k :| FailsAt(backend, phrases, k) {
      FailureIs(backend, phrases, k);
      if Spoke(backend, phrases).Some? {
        SpokeEarlier(backend, phrases, k + 1, |phrases|);
      }
    }
  }

  /** The output ends with a stop and no error, or with the error, right after a stop if a start was locked. */
  predicate EndsWell(out: seq<Event>) {
    && |out| > 0 && out[|out| - 1].AudioStop? && Ongoing(out[..|out| - 1])
  }

  predicate EndsInError(out: seq<Event>, locked: bool) {
    && |out| > 0 && out[|out| - 1] == SynthesisFailed
    && if locked then |out| > 1 && out[|out| - 2].AudioStop? && Ongoing(out[..|out| - 2]) else Ongoing(out[..|out| - 1])
  }

  /** A failure at phrase `k` ends the output in the error, after a stop exactly if a start was locked by then. */
  lemma OutputAtFailure(keeps: bool, backend: Backend, phrases: seq<string>, k: int)
    requires FailsAt(backend, phrases, k) && NoOwnErrors(backend)
    ensures EndsInError(Output(keeps, backend, phrases), !Unopened(backend, phrases, k + 1))
  {
    var p, more := phrases[k], phrases[k + 1..];
    var (e, out) := Spoke(backend, phrases[..k]).value;
    assert phrases[..k] + [p] + more == phrases;
    SpokeOngoing(backend, phrases, k);
    SpokeFlows(backend, phrases, k);
    FailsIsBroken(e, backend(k, p));
    FailureEnds(keeps, backend, phrases[..k], p, more);
    var (e', speech) := Spoken(e, backend(k, p));
    SpokenOngoing(e, backend(k, p));
    SpokenLocks(e, backend(k, p));
    SpokenKeepsClosed(e, backend(k, p));
    var shown := if keeps then speech.shown else [];
    StillOngoing(out, shown);
    AppendAssoc(out, shown, FailureEvents(e'));
    EndingInError(out + shown, e');
  }

  lemma StillOngoing(p: seq<Event>, q: seq<Event>)
    requires Ongoing(p) && Ongoing(q)
    ensures Ongoing(p + q)
  {
  }

  lemma EndingInError(body: seq<Event>, e: Env)
    requires Ongoing(body) && !e.closed
    ensures EndsInError(body + FailureEvents(e), e.format.Some?)
  {
    var out := body + FailureEvents(e);
    assert out[..|body|] == body;
    assert |FailureEvents(e)| == if e.format.Some? then 2 else 1;
  }

  lemma OutputIfWell(keeps: bool, backend: Backend, phrases: seq<string>)
    requires phrases != [] && Spoke(backend, phrases).Some? && NoOwnErrors(backend)
    ensures EndsWell(Output(keeps, backend, phrases))
  {
    assert phrases[..|phrases|] == phrases;
    SpokeOngoing(backend, phrases, |phrases|);
    OutputSplit(keeps, backend, phrases, []);
    AppendNone(phrases);
    var (e, out) := Spoke(backend, phrases).value;
    var all := out + ClosingEvents(Close(e, true).1);
    assert all[..|out|] == out;
  }

  /**
   * Every failure is reported: the error occurs exactly when some phrase
   * fails, then once and last, after a stop exactly if a start was locked by
   * then; otherwise the output ends in its one stop.
   */
  lemma FailureReported(keeps: bool, backend: Backend, phrases: seq<string>)
    requires NoOwnErrors(backend)
    ensures var out := Output(keeps, backend, phrases);
      && (SynthesisFailed in out <==> exists k :: FailsAt(backend, phrases, k))
      && (forall k :: FailsAt(backend, phrases, k) ==> EndsInError(out, !Unopened(backend, phrases, k + 1)))
      && (phrases != [] && !(exists k :: FailsAt(backend, phrases, k)) ==> EndsWell(out))
      && (phrases == [] ==> out == [])
  {
    SomeFails(backend, phrases);
    forall k | FailsAt(backend, phrases, k)
      ensures EndsInError(Output(keeps, backend, phrases), !Unopened(backend, phrases, k + 1))
    {
      OutputAtFailure(keeps, backend, phrases, k);
    }
    if phrases != [] && Spoke(backend, phrases).Some? {
      OutputIfWell(keeps, backend, phrases);
      ErrorLast(Output(keeps, backend, phrases));
    }
  }

  lemma ErrorLast(out: seq<Event>)
    requires EndsWell(out)
    ensures SynthesisFailed !in out
  {
    assert out == out[..|out| - 1] + [out[|out| - 1]];
  }

  /**
   * Over runs: the error was delivered only if a phrase taken failed, and a
   * loop that finished uncancelled has emitted it exactly then, as the last
   * event before the sentinel.
   */
  lemma FailuresDelivered(c: Config, acts: seq<CoordAct>, s: Coord)
    requires c.limits.Valid() && Reaches(c, START, acts, s) && NoOwnErrors(c.backend)
    ensures SynthesisFailed in Events(s.delivered) ==> exists k :: FailsAt(c.backend, s.started, k)
    ensures s.loop.Finished? && !s.cancelled ==>
      var out := Events(s.delivered + s.queue);
      && (SynthesisFailed in out <==> exists k :: FailsAt(c.backend, s.started, k))
      && (forall k :: FailsAt(c.backend, s.started, k) ==>
          EndsInError(out, !Unopened(c.backend, s.started, k + 1)))
  {
    DeliversLoopOutput(c, acts, s);
    FailureReported(true, c.backend, s.started);
    if s.loop.Finished? && !s.cancelled {
      ExhaustedOutput(true, c, s);
      EventsOfAll(LoopOutput(c.backend, s.started));
    }
  }

  // ------------------------------------------------------------ not when cancelled

  /** Nothing put or about to be put is an error. */
  predicate ErrorFree(s: Coord) {
    && SynthesisFailed !in Events(s.delivered) && SynthesisFailed !in Events(s.queue)
    && (s.loop.Putting? ==> SynthesisFailed !in Events(s.loop.items))
  }

  lemma PutErrorFree(c: Config, s: Coord)
    requires ErrorFree(s) && s.loop.Putting? && s.loop.items != []
    ensures LoopEnabled(s) ==> ErrorFree(LoopStep(c, s))
  {
    var items := s.loop.items;
    EventsAppend([items[0]], items[1..]);
    EventsAppend(s.queue, [items[0]]);
    assert items == [items[0]] + items[1..];
  }

  lemma AnswerErrorFree(c: Config, s: Coord, p: string)
    requires ErrorFree(s) && s.cancelled && s.loop == Running(p) && s.started != [] && NoOwnErrors(c.backend)
    ensures ErrorFree(Answer(c, s, p))
  {
    var reply := c.backend(|s.started| - 1, p);
    SpokenOngoing(s.env, reply);
    var speech := Spoken(s.env, reply).1;
    EventsItems(if speech.Uttered? then speech.events else speech.shown);
  }

  lemma LoopErrorFree(c: Config, s: Coord)
    requires NoOwnErrors(c.backend) && s.cancelled && ErrorFree(s) && LoopEnabled(s)
    ensures ErrorFree(LoopStep(c, s)) && LoopStep(c, s).cancelled
  {
    if s.loop.Running? {
      AnswerErrorFree(c, s, s.loop.phrase);
    } else if s.loop.Putting? && s.loop.items != [] {
      PutErrorFree(c, s);
    } else if s.loop.Putting? {
      PutAllErrorFree(c, s);
    } else {
      QuietErrorFree(s, LoopStep(c, s));
    }
  }

  lemma QuietErrorFree(s: Coord, s': Coord)
    requires ErrorFree(s) && s'.delivered == s.delivered && s'.queue == s.queue && !s'.loop.Putting?
    ensures ErrorFree(s')
  {
  }

  lemma PutAllErrorFree(c: Config, s: Coord)
    requires s.cancelled && ErrorFree(s) && s.loop.Putting? && s.loop.items == []
    ensures ErrorFree(LoopStep(c, s)) && LoopStep(c, s).cancelled
  {
    QuietErrorFree(s, LoopStep(c, s));
  }

  lemma GetErrorFree(s: Coord)
    requires ErrorFree(s) && s.queue != []
    ensures ErrorFree(Get(s))
  {
    EventsAppend([s.queue[0]], s.queue[1..]);
    EventsAppend(s.delivered, [s.queue[0]]);
    assert s.queue == [s.queue[0]] + s.queue[1..];
  }

  lemma ErrorFreeStep(c: Config, s: Coord, act: CoordAct)
    requires c.limits.Valid() && NoOwnErrors(c.backend) && s.cancelled && ErrorFree(s) && Possible(s, act)
    ensures ErrorFree(Next(c, s, act)) && Next(c, s, act).cancelled
  {
    match act
    case LoopAct => LoopErrorFree(c, s);
    case GetAct => GetErrorFree(s);
    case CancelFinishAct => SentinelAlone();
    case _ =>
  }

  /** A cancelled coordinator with no error on its way never reports one, whatever its phrase comes to. */
  lemma {:induction false} CancelledReportsNothing(c: Config, s: Coord, acts: seq<CoordAct>, s': Coord)
    requires c.limits.Valid() && NoOwnErrors(c.backend) && s.cancelled && ErrorFree(s) && Reaches(c, s, acts, s')
    ensures SynthesisFailed !in Events(s'.delivered)
    decreases |acts|
  {
    if acts != [] {
      ErrorFreeStep(c, s, acts[0]);
      CancelledReportsNothing(c, Next(c, s, acts[0]), acts[1..], s');
    }
  }
}

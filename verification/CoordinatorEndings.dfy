/**
 * How a response ends: app/speech/envelope.py promises only an error, no
 * AudioStop, on failure before AudioStart. When does a stop come without one?
 */
module CoordinatorEndings {
  import opened Common
  import Pcm
  import opened Wire
  import opened Envelope
  import opened EnvelopeAcceptance
  import opened CoordinatorModel
  import opened CoordinatorSafety
  import opened CoordinatorLaws

  /** A stop that no start precedes. */
  predicate Orphaned(out: seq<Event>) {
    exists k :: 0 <= k < |out| && out[k].AudioStop? && forall j :: 0 <= j < k ==> !out[j].AudioStart?
  }

  /** A start comes before any chunk, which is when it locks the format of an envelope that has none. */
  predicate Locks(events: seq<Event>) {
    exists k :: 0 <= k < |events| && events[k].AudioStart? && forall j :: 0 <= j < k ==> !events[j].AudioChunk?
  }

  predicate Opens(reply: Reply) {
    !reply.Fails? && Locks(reply.events)
  }

  // ------------------------------------------------------------ when the format gets locked

  lemma LocksStep(events: seq<Event>)
    requires events != []
    ensures Locks(events) <==> events[0].AudioStart? || (!events[0].AudioChunk? && Locks(events[1..]))
  {
    if Locks(events) && !events[0].AudioStart? {
      var k :| 0 <= k < |events| && events[k].AudioStart? && forall j :: 0 <= j < k ==> !events[j].AudioChunk?;
      assert events[1..][k - 1].AudioStart?;
    }
    if !events[0].AudioChunk? && Locks(events[1..]) {
      var k :| 0 <= k < |events[1..]| && events[1..][k].AudioStart?
        && forall j :: 0 <= j < k ==> !events[1..][j].AudioChunk?;
      assert events[k + 1].AudioStart?;
      assert forall j :: 0 < j < k + 1 ==> events[j] == events[1..][j - 1];
    }
  }

  /** The phrase need not be accepted for its start to lock the format. */
  lemma {:induction false} ScanLocks(e: Env, events: seq<Event>)
    requires e.format.None?
    ensures Scan(e, false, events).0.format.Some? <==> Locks(events)
    decreases |events|
  {
    if events != [] {
      LocksStep(events);
      match events[0]
      case AudioStart(f) => ScanKeepsLock(HandleStart(e, f).0, true, events[1..]);
      case AudioChunk(_, _, _) =>
      case AudioStop(_) => ScanLocks(e, events[1..]);
      case other => ScanLocks(e, events[1..]);
    }
  }

  lemma SpokenLocks(e: Env, reply: Reply)
    requires !e.closed
    ensures Spoken(e, reply).0.format.Some? <==> e.format.Some? || Opens(reply)
  {
    if !reply.Fails? {
      if e.format.None? {
        ScanLocks(e, reply.events);
      } else {
        ScanKeepsLock(e, false, reply.events);
      }
    }
  }

  /** None of the first `n` phrases has a start that would lock the format. */
  predicate Unopened(backend: Backend, phrases: seq<string>, n: nat)
    requires n <= |phrases|
  {
    forall k: nat :: k < n ==> !Opens(backend(k, phrases[k]))
  }

  /** Phrases that went well are one flow, with a start exactly when one of them had one. */
  lemma {:induction false} SpokeFlows(backend: Backend, phrases: seq<string>, n: nat)
    requires n <= |phrases| && Spoke(backend, phrases[..n]).Some?
    ensures var (e, out) := Spoke(backend, phrases[..n]).value;
      && Flow(OPEN, out) == Some(e) && !e.closed
      && (e.format.None? <==> Unopened(backend, phrases, n))
    decreases n
  {
    if n > 0 {
      var last := n - 1;
      assert phrases[..n][..last] == phrases[..last];
      SpokeFlows(backend, phrases, last);
      SpokeOpen(backend, phrases[..n]);
      var (e0, out0) := Spoke(backend, phrases[..last]).value;
      SpokenFlows(e0, backend(last, phrases[last]));
      SpokenLocks(e0, backend(last, phrases[last]));
      FlowAppend(OPEN, out0, Spoken(e0, backend(last, phrases[last])).1.events);
    }
  }

  /** What a phrase forwards, or had to show before `run` raised, continues the flow. */
  lemma SpokenFlows(e: Env, reply: Reply)
    requires !e.closed
    ensures var (e', speech) := Spoken(e, reply);
      && (speech.Uttered? ==> Flow(e, speech.events) == Some(e'))
      && (!reply.Fails? && ProcessPhrase(e, reply.events).1.Ok? && speech.Broken? ==>
          Flow(e, speech.shown) == Some(e'))
  {
    if !reply.Fails? {
      ScanFlows(e, false, reply.events);
    }
  }

  // ------------------------------------------------------------ where a start or a stop can be

  lemma {:induction false} StartsCount(out: seq<Event>)
    ensures Starts(out) == 0 <==> forall j :: 0 <= j < |out| ==> !out[j].AudioStart?
  {
    if out != [] {
      StartsCount(out[1..]);
      assert forall j :: 0 < j < |out| ==> out[j] == out[1..][j - 1];
    }
  }

  /** After a flow from an unlocked envelope, a stop is orphaned if it is so in the tail and no start was forwarded. */
  lemma FlowThen(e: Env, out: seq<Event>, tail: seq<Event>)
    requires e.format.None? && Flow(e, out).Some?
    ensures Orphaned(out + tail) <==> Flow(e, out).value.format.None? && Orphaned(tail)
  {
    FlowFacts(e, out);
    StartsCount(out);
    var all := out + tail;
    if Orphaned(all) {
      var k :| 0 <= k < |all| && all[k].AudioStop? && forall j :: 0 <= j < k ==> !all[j].AudioStart?;
      assert k >= |out| && tail[k - |out|].AudioStop?;
      assert forall j :: 0 <= j < |out| ==> out[j] == all[j];
      assert forall j :: 0 <= j < k - |out| ==> tail[j] == all[|out| + j];
    }
    if Flow(e, out).value.format.None? && Orphaned(tail) {
      var k :| 0 <= k < |tail| && tail[k].AudioStop? && forall j :: 0 <= j < k ==> !tail[j].AudioStart?;
      assert all[|out| + k].AudioStop?;
    }
  }

  lemma FailureOrphan(e: Env)
    requires !e.closed
    ensures Orphaned(FailureEvents(e)) <==> e.format.Some?
  {
    if e.format.Some? {
      assert FailureEvents(e)[0].AudioStop?;
    }
  }

  // ------------------------------------------------------------ exactly when

  /**
   * Phrase `k` is the first with a start, and it fails without its events being
   * forwarded: rejected by the envelope or, for `stream`, in any way at all.
   */
  predicate CutShort(keeps: bool, backend: Backend, phrases: seq<string>, k: nat) {
    && k < |phrases|
    && Unopened(backend, phrases, k) && Opens(backend(k, phrases[k]))
    && Spoke(backend, phrases[..k]).Some?
    && var e := Spoke(backend, phrases[..k]).value.0;
       && Spoken(e, backend(k, phrases[k])).1.Broken?
       && (keeps ==> ProcessPhrase(e, backend(k, phrases[k]).events).1.Err?)
  }

  /** All phrases went well, and none had a start. */
  predicate NeverOpened(backend: Backend, phrases: seq<string>) {
    phrases != [] && Spoke(backend, phrases).Some? && Unopened(backend, phrases, |phrases|)
  }

  ghost predicate StartMissing(keeps: bool, backend: Backend, phrases: seq<string>) {
    NeverOpened(backend, phrases) || exists k: nat :: CutShort(keeps, backend, phrases, k)
  }

  lemma OrphanIfSpoken(keeps: bool, backend: Backend, phrases: seq<string>)
    requires Spoke(backend, phrases).Some?
    ensures Orphaned(Output(keeps, backend, phrases)) <==> NeverOpened(backend, phrases)
  {
    if phrases != [] {
      assert phrases[..|phrases|] == phrases;
      SpokeFlows(backend, phrases, |phrases|);
      OutputSplit(keeps, backend, phrases, []);
      AppendNone(phrases);
      var (e, out) := Spoke(backend, phrases).value;
      var closing := ClosingEvents(Close(e, true).1);
      assert closing[0].AudioStop?;
      FlowThen(OPEN, out, closing);
    }
  }

  lemma OrphanAtFailure(keeps: bool, backend: Backend, phrases: seq<string>, k: nat)
    requires k < |phrases| && Spoke(backend, phrases[..k]).Some? && Spoke(backend, phrases[..k + 1]).None?
    ensures Orphaned(Output(keeps, backend, phrases)) <==> CutShort(keeps, backend, phrases, k)
  {
    var p, more := phrases[k], phrases[k + 1..];
    var (e, out) := Spoke(backend, phrases[..k]).value;
    var (e', speech) := Spoken(e, backend(k, p));
    assert phrases[..k] + [p] + more == phrases;
    SpokeStep(backend, phrases, k);
    SpokeFlows(backend, phrases, k);
    FailureEnds(keeps, backend, phrases[..k], p, more);
    SpokenLocks(e, backend(k, p));
    SpokenKeepsClosed(e, backend(k, p));
    FailureOrphan(e');
    var tail := (if keeps then speech.shown else []) + FailureEvents(e');
    FlowThen(OPEN, out, tail);
    if e.format.None? {
      TailOrphan(keeps, e, backend(k, p));
    }
  }

  /** What comes after the phrases that went well has an orphaned stop if the start was swallowed. */
  lemma TailOrphan(keeps: bool, e: Env, reply: Reply)
    requires !e.closed && e.format.None? && Spoken(e, reply).1.Broken?
    ensures var (e', speech) := Spoken(e, reply);
      && (Orphaned((if keeps then speech.shown else []) + FailureEvents(e'))
          <==> Opens(reply) && (keeps ==> ProcessPhrase(e, reply.events).1.Err?))
  {
    var (e', speech) := Spoken(e, reply);
    SpokenLocks(e, reply);
    SpokenFlows(e, reply);
    SpokenKeepsClosed(e, reply);
    FailureOrphan(e');
    AppendNone(FailureEvents(e'));
    if keeps && !reply.Fails? && ProcessPhrase(e, reply.events).1.Ok? {
      FlowThen(e, speech.shown, FailureEvents(e'));
    }
  }

  /**
   * The output has a stop that no start precedes exactly when all phrases went
   * well and none had a start, or the first phrase with a start fails without
   * its events being forwarded.
   */
  lemma StopWithoutStart(keeps: bool, backend: Backend, phrases: seq<string>)
    ensures Orphaned(Output(keeps, backend, phrases)) <==> StartMissing(keeps, backend, phrases)
  {
    assert phrases[..|phrases|] == phrases;
    if Spoke(backend, phrases).Some? {
      OrphanIfSpoken(keeps, backend, phrases);
      forall k: nat
        ensures !CutShort(keeps, backend, phrases, k)
      {
        NoneCutShort(keeps, backend, phrases, k);
      }
    } else {
      var n := FirstFailure(backend, phrases, |phrases|);
      OrphanAtFailure(keeps, backend, phrases, n);
      forall k: nat
        ensures CutShort(keeps, backend, phrases, k) ==> k == n
      {
        CutShortOnlyThere(keeps, backend, phrases, n, k);
      }
    }
  }

  lemma NoneCutShort(keeps: bool, backend: Backend, phrases: seq<string>, k: nat)
    requires Spoke(backend, phrases).Some?
    ensures !CutShort(keeps, backend, phrases, k)
  {
    if CutShort(keeps, backend, phrases, k) {
      assert phrases[..|phrases|] == phrases;
      SpokeStep(backend, phrases, k);
      SpokeEarlier(backend, phrases, k + 1, |phrases|);
    }
  }

  lemma CutShortOnlyThere(keeps: bool, backend: Backend, phrases: seq<string>, n: nat, k: nat)
    requires n < |phrases| && Spoke(backend, phrases[..n]).Some? && Spoke(backend, phrases[..n + 1]).None?
    ensures CutShort(keeps, backend, phrases, k) ==> k == n
  {
    if CutShort(keeps, backend, phrases, k) {
      SpokeStep(backend, phrases, k);
      if k < n {
        SpokeEarlier(backend, phrases, k + 1, n);
      } else if k > n {
        SpokeEarlier(backend, phrases, n + 1, k);
      }
    }
  }

  // ------------------------------------------------------------ over runs

  lemma OrphanedPrefix(p: seq<Event>, q: seq<Event>)
    requires p <= q && Orphaned(p)
    ensures Orphaned(q)
  {
    var k :| 0 <= k < |p| && p[k].AudioStop? && forall j :: 0 <= j < k ==> !p[j].AudioStart?;
    assert q[k].AudioStop?;
  }

  /**
   * The same for the background loop: in every reachable state a stop without
   * a start was delivered only in those two cases, and a loop that finished
   * uncancelled has emitted one in both.
   */
  lemma OrphansDelivered(c: Config, acts: seq<CoordAct>, s: Coord)
    requires c.limits.Valid() && Reaches(c, START, acts, s)
    ensures Orphaned(Events(s.delivered)) ==> StartMissing(true, c.backend, s.started)
    ensures s.loop.Finished? && !s.cancelled ==>
      (Orphaned(Events(s.delivered + s.queue)) <==> StartMissing(true, c.backend, s.started))
  {
    DeliversLoopOutput(c, acts, s);
    StopWithoutStart(true, c.backend, s.started);
    if Orphaned(Events(s.delivered)) {
      OrphanedPrefix(Events(s.delivered), LoopOutput(c.backend, s.started));
    }
    if s.loop.Finished? && !s.cancelled {
      ExhaustedOutput(true, c, s);
      EventsOfAll(LoopOutput(c.backend, s.started));
    }
  }

  lemma EventsOfAll(out: seq<Event>)
    ensures Events(Items(out) + [None]) == out
  {
    EventsItems(out);
    EventsAppend(Items(out), [None]);
    var sentinel: seq<Option<Event>> := [None];
    assert sentinel[1..] == [] && Events(sentinel) == [];
    AppendNone(out);
  }

  lemma TwoStarts(f: Pcm.Format)
    ensures ProcessPhrase(OPEN, [AudioStart(f), AudioStart(f)]) == (OPEN.(format := Some(f)), Err(MultipleStarts))
  {
    var events := [AudioStart(f), AudioStart(f)];
    assert events[0] == AudioStart(f) && events[1..] == [AudioStart(f)];
    var locked := OPEN.(format := Some(f));
    assert Scan(locked, true, [AudioStart(f)]) == (locked, Err(MultipleStarts));
    assert Scan(OPEN, false, events) == Then(HandleStart(OPEN, f), true, [AudioStart(f)]);
  }

  /** Shown: a first phrase rejected after its start is answered by a stop, the error and the sentinel. */
  lemma OrphanWitness(c: Config, f: Pcm.Format) returns (acts: seq<CoordAct>, s: Coord)
    requires c.limits.Valid() && c.backend(0, "!") == Produces([AudioStart(f), AudioStart(f)])
    ensures Reaches(c, START, acts, s) && s.loop.Finished? && !s.cancelled && s.queue == []
    ensures |s.delivered| == 3 && s.delivered[0].Some? && s.delivered[0].value.AudioStop?
    ensures s.delivered[1..] == [Some(SynthesisFailed), None]
  {
    acts, s := OnePhraseRun(c);
    TwoStarts(f);
    AppendNone(FailureEvents(OPEN.(format := Some(f))));
    assert LoopOutput(c.backend, ["!"]) == FailureEvents(OPEN.(format := Some(f)));
  }
}

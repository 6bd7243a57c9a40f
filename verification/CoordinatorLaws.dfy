/** What the coordinator promises over every run, as consequences of its invariant. */
module CoordinatorLaws {
  import opened Common
  import opened PhraseText
  import opened PhraseSegments
  import opened PhraseInvariance
  import Pcm
  import opened Wire
  import opened Envelope
  import opened CoordinatorModel
  import opened CoordinatorSafety

  // ------------------------------------------------------------ what the loop emits

  /** Phrases still to come cannot change what an exhausted loop emitted. */
  lemma ExhaustedOutput(keeps: bool, c: Config, s: Coord)
    requires Exhausted(c, s)
    ensures Output(keeps, c.backend, s.started + s.pending) == Output(keeps, c.backend, s.started)
  {
    if FailedLast(c.backend, s.started) {
      FailedLastStable(keeps, c.backend, s.started, s.pending);
    } else {
      AppendNone(s.started);
    }
  }

  lemma BreakingIsPrefix(c: Config, s: Coord, items: seq<Option<Event>>)
    requires Breaking(c, s, items)
    ensures Emitted(s) <= Items(LoopOutput(c.backend, s.started + s.pending)) + [None]
  {
    var before, p := Before(s), s.started[|s.started| - 1];
    assert before + [p] + s.pending == s.started + s.pending;
    var (e0, out) := Spoke(c.backend, before).value;
    var (e, speech) := Spoken(e0, c.backend(|before|, p));
    FailureEnds(true, c.backend, before, p, s.pending);
    AppendAssoc(out, speech.shown, FailureEvents(e));
    assert Emitted(s) <= Items(out + speech.shown);
  }

  lemma EmittedIsPrefix(c: Config, s: Coord)
    requires Tracks(c, s) && !s.cancelled
    ensures Emitted(s) <= Items(LoopOutput(c.backend, s.started + s.pending)) + [None]
  {
    if s.loop.Running? {
      var more := [s.loop.phrase] + s.pending;
      assert s.started + s.pending == Before(s) + more;
      SpokeIsPrefix(true, c.backend, Before(s), more);
    } else if s.loop.Putting? && s.loop.next.Handle? {
      BreakingIsPrefix(c, s, s.loop.items);
    } else if s.loop.Finished? || (s.loop.Putting? && s.loop.next.End?) {
      ExhaustedOutput(true, c, s);
    } else {
      SpokeIsPrefix(true, c.backend, s.started, s.pending);
    }
  }

  /** What was delivered, in every state that satisfies the invariant. */
  lemma InvDelivers(c: Config, s: Coord)
    requires CoordInv(c, s)
    ensures Events(s.delivered) <= LoopOutput(c.backend, s.started)
    ensures !s.cancelled ==> s.delivered <= Items(LoopOutput(c.backend, s.started + s.pending)) + [None]
    ensures !s.cancelled && s.loop.Finished? ==>
      && s.delivered + s.queue == Items(LoopOutput(c.backend, s.started + s.pending)) + [None]
      && Exhausted(c, s)
  {
    WithinByPart(c, s);
    EventsAppend(s.delivered, s.queue);
    if !s.cancelled {
      EmittedIsPrefix(c, s);
      assert s.delivered == Emitted(s)[..|s.delivered|];
      if s.loop.Finished? {
        ExhaustedOutput(true, c, s);
      }
    }
  }

  /**
   * In every reachable state what the consumer received is a prefix of the
   * loop's output for the phrases accepted, cancelled or not; a loop that
   * finished uncancelled has emitted all of it and exactly one sentinel.
   */
  lemma DeliversLoopOutput(c: Config, acts: seq<CoordAct>, s: Coord)
    requires c.limits.Valid() && Reaches(c, START, acts, s)
    ensures Events(s.delivered) <= LoopOutput(c.backend, s.started)
    ensures !s.cancelled ==> s.delivered <= Items(LoopOutput(c.backend, s.started + s.pending)) + [None]
    ensures !s.cancelled && s.loop.Finished? ==>
      && s.delivered + s.queue == Items(LoopOutput(c.backend, s.started + s.pending)) + [None]
      && Exhausted(c, s)
  {
    StartInv(c);
    CoordRunInv(c, START, acts, s);
    InvDelivers(c, s);
  }

  // ------------------------------------------------------------ against `stream`: refinement, exactly

  /**
   * Phrase `k` was spoken with events to forward, all before it went well, and
   * then `run` raised.
   */
  predicate LeaksAt(backend: Backend, phrases: seq<string>, k: nat) {
    && k < |phrases|
    && Spoke(backend, phrases[..k]).Some?
    && backend(k, phrases[k]).ProducesThenRaises?
    && var out := ProcessPhrase(Spoke(backend, phrases[..k]).value.0, backend(k, phrases[k]).events).1;
       out.Ok? && out.value != []
  }

  ghost predicate Leaks(backend: Backend, phrases: seq<string>) {
    exists k: nat :: LeaksAt(backend, phrases, k)
  }

  /** What went well up to `n` went well up to every earlier phrase. */
  lemma {:induction false} SpokeEarlier(backend: Backend, phrases: seq<string>, k: nat, n: nat)
    requires k <= n <= |phrases| && Spoke(backend, phrases[..n]).Some?
    ensures Spoke(backend, phrases[..k]).Some?
    decreases n - k
  {
    if k < n {
      assert phrases[..n][..n - 1] == phrases[..n - 1];
      SpokeEarlier(backend, phrases, k, n - 1);
    }
  }

  lemma SpokeStep(backend: Backend, phrases: seq<string>, k: nat)
    requires k < |phrases| && Spoke(backend, phrases[..k]).Some?
    ensures Spoke(backend, phrases[..k + 1]).Some?
      <==> Spoken(Spoke(backend, phrases[..k]).value.0, backend(k, phrases[k])).1.Uttered?
  {
    assert phrases[..k + 1] == phrases[..k] + [phrases[k]];
    SpokeSnoc(backend, phrases[..k], phrases[k]);
  }

  lemma {:induction false} FirstFailure(backend: Backend, phrases: seq<string>, n: nat) returns (k: nat)
    requires n <= |phrases| && Spoke(backend, phrases[..n]).None?
    ensures k < n && Spoke(backend, phrases[..k]).Some? && Spoke(backend, phrases[..k + 1]).None?
    decreases n
  {
    if Spoke(backend, phrases[..n - 1]).Some? {
      k := n - 1;
    } else {
      k := FirstFailure(backend, phrases, n - 1);
    }
  }

  /** Only the phrase that fails can leak. */
  lemma LeaksOnlyAtFailure(backend: Backend, phrases: seq<string>, k: nat, j: nat)
    requires k < |phrases| && Spoke(backend, phrases[..k]).Some? && Spoke(backend, phrases[..k + 1]).None?
    ensures LeaksAt(backend, phrases, j) ==> j == k
  {
    if LeaksAt(backend, phrases, j) {
      SpokeStep(backend, phrases, j);
      if j < k {
        SpokeEarlier(backend, phrases, j + 1, k);
      } else if j > k {
        SpokeEarlier(backend, phrases, k + 1, j);
      }
    }
  }

  lemma NoFailureNoLeak(backend: Backend, phrases: seq<string>, j: nat)
    requires Spoke(backend, phrases).Some?
    ensures !LeaksAt(backend, phrases, j)
  {
    if j < |phrases| {
      assert phrases[..|phrases|] == phrases;
      SpokeEarlier(backend, phrases, j, |phrases|);
      SpokeEarlier(backend, phrases, j + 1, |phrases|);
      SpokeStep(backend, phrases, j);
    }
  }

  lemma SameUpToFailure(backend: Backend, phrases: seq<string>, k: nat)
    requires k < |phrases| && Spoke(backend, phrases[..k]).Some? && Spoke(backend, phrases[..k + 1]).None?
    ensures LoopOutput(backend, phrases) == SequentialOutput(backend, phrases) <==> !LeaksAt(backend, phrases, k)
  {
    var before, p, more := phrases[..k], phrases[k], phrases[k + 1..];
    assert before + [p] + more == phrases;
    SpokeStep(backend, phrases, k);
    FailureEnds(true, backend, before, p, more);
    FailureEnds(false, backend, before, p, more);
  }

  /** The loop emits what `stream` yields exactly when no phrase leaks. */
  lemma SameOutputExactly(backend: Backend, phrases: seq<string>)
    ensures LoopOutput(backend, phrases) == SequentialOutput(backend, phrases) <==> !Leaks(backend, phrases)
  {
    assert phrases[..|phrases|] == phrases;
    if Spoke(backend, phrases).Some? {
      OutputSplit(true, backend, phrases, []);
      OutputSplit(false, backend, phrases, []);
      AppendNone(phrases);
      forall j: nat
        ensures !LeaksAt(backend, phrases, j)
      {
        NoFailureNoLeak(backend, phrases, j);
      }
    } else {
      var k := FirstFailure(backend, phrases, |phrases|);
      SameUpToFailure(backend, phrases, k);
      forall j: nat
        ensures LeaksAt(backend, phrases, j) ==> j == k
      {
        LeaksOnlyAtFailure(backend, phrases, k, j);
      }
    }
  }

  lemma ItemsInjective(p: seq<Event>, q: seq<Event>)
    ensures Items(p) + [None] == Items(q) + [None] <==> p == q
  {
    if Items(p) + [None] == Items(q) + [None] {
      assert |p| == |q|;
      forall k | 0 <= k < |p|
        ensures p[k] == q[k]
      {
        assert (Items(p) + [None])[k] == (Items(q) + [None])[k];
      }
    }
  }

  /**
   * Refinement: in every reachable state in which no accepted phrase leaks,
   * what the consumer received is a prefix of what `stream` yields for the
   * phrases accepted, cancelled or not.
   */
  lemma Refinement(c: Config, acts: seq<CoordAct>, s: Coord)
    requires c.limits.Valid() && Reaches(c, START, acts, s)
    ensures !Leaks(c.backend, s.started) ==> Events(s.delivered) <= SequentialOutput(c.backend, s.started)
    ensures !Leaks(c.backend, s.started + s.pending) && !s.cancelled ==>
      s.delivered <= Items(SequentialOutput(c.backend, s.started + s.pending)) + [None]
  {
    DeliversLoopOutput(c, acts, s);
    SameOutputExactly(c.backend, s.started);
    SameOutputExactly(c.backend, s.started + s.pending);
  }

  /**
   * A loop that finished uncancelled has emitted exactly what `stream` yields
   * for the phrases accepted, and one sentinel, exactly when no phrase it took
   * leaked.
   */
  lemma RefinesExactly(c: Config, acts: seq<CoordAct>, s: Coord)
    requires c.limits.Valid() && Reaches(c, START, acts, s) && s.loop.Finished? && !s.cancelled
    ensures s.delivered + s.queue == Items(SequentialOutput(c.backend, s.started + s.pending)) + [None]
      <==> !Leaks(c.backend, s.started)
  {
    DeliversLoopOutput(c, acts, s);
    ExhaustedOutput(true, c, s);
    ExhaustedOutput(false, c, s);
    SameOutputExactly(c.backend, s.started);
    ItemsInjective(LoopOutput(c.backend, s.started + s.pending), SequentialOutput(c.backend, s.started + s.pending));
  }

  lemma {:induction false} ReachesOn(c: Config, s: Coord, acts: seq<CoordAct>, s1: Coord, act: CoordAct,
                                     all: seq<CoordAct>)
    requires c.limits.Valid() && Reaches(c, s, acts, s1) && Possible(s1, act) && all == acts + [act]
    ensures Reaches(c, s, all, Next(c, s1, act))
    decreases |acts|
  {
    if acts == [] {
      assert all[1..] == [];
    } else {
      ReachesOn(c, Next(c, s, acts[0]), acts[1..], s1, act, all[1..]);
    }
  }

  lemma OneTurn(a: Chars, lim: Limits, t: string)
    requires lim.Valid() && |t| == 1 && IsHard(t[0])
    ensures NextTurn(a, lim, t, false) == Take(t, "")
  {
    assert IsTerminator(a, t, 0);
  }

  lemma OnePhrase(a: Chars, lim: Limits)
    requires lim.Valid()
    ensures Feed(a, lim, FRESH, "!") == (Acc("", false, true), ["!"])
  {
    assert FRESH.buffer + "!" == "!";
    OneTurn(a, lim, "!");
    assert Extract(a, lim, "", true) == Parsed([], "", true);
    AppendNone(["!"]);
    assert Extract(a, lim, "!", false) == Parsed(["!"], "", true);
  }

  /** The loop runs a first phrase. */
  lemma FirstPhraseRuns(c: Config) returns (acts: seq<CoordAct>, s: Coord)
    requires c.limits.Valid()
    ensures Reaches(c, START, acts, s) && s.loop == Running("!") && s.started == ["!"] && s.pending == []
    ensures !s.cancelled && s.env == OPEN && s.queue == [] && s.delivered == []
    ensures !s.done && !s.draining && s.acc == Acc("", false, true)
  {
    OnePhrase(c.chars, c.limits);
    var s1 := Next(c, START, FeedTextAct("!"));
    acts := [FeedTextAct("!")];
    ReachesOn(c, START, [], START, FeedTextAct("!"), acts);
    assert s1.pending == ["!"] && s1.pending[1..] == [];
    var s2 := Next(c, s1, LoopAct);
    ReachesOn(c, START, acts, s1, LoopAct, acts + [LoopAct]);
    s := Next(c, s2, LoopAct);
    ReachesOn(c, START, acts + [LoopAct], s2, LoopAct, acts + [LoopAct] + [LoopAct]);
    acts := acts + [LoopAct] + [LoopAct];
  }

  /**
   * The leak shown: one phrase whose `run` raises after its AudioStart was put.
   * The consumer has the start, which `stream` never yields for this phrase.
   */
  lemma LeakWitness(c: Config, f: Pcm.Format) returns (acts: seq<CoordAct>, s: Coord)
    requires c.limits.Valid() && c.backend(0, "!") == ProducesThenRaises([AudioStart(f)])
    ensures Reaches(c, START, acts, s) && !s.cancelled && s.started == ["!"] && s.pending == []
    ensures s.delivered == [Some(AudioStart(f))]
    ensures !(s.delivered <= Items(SequentialOutput(c.backend, s.started)) + [None])
  {
    var first, s3 := FirstPhraseRuns(c);
    StartForwarded(f);
    var s4 := Next(c, s3, LoopAct);
    acts := first + [LoopAct];
    ReachesOn(c, START, first, s3, LoopAct, acts);
    assert s4.loop == Putting(Items([AudioStart(f)]), Handle);
    var s5 := Next(c, s4, LoopAct);
    ReachesOn(c, START, acts, s4, LoopAct, acts + [LoopAct]);
    s := Next(c, s5, GetAct);
    ReachesOn(c, START, acts + [LoopAct], s5, GetAct, acts + [LoopAct] + [GetAct]);
    acts := acts + [LoopAct] + [GetAct];
    assert s.delivered == [Some(AudioStart(f))];
    assert SequentialOutput(c.backend, ["!"]) == FailureEvents(Spoken(OPEN, c.backend(0, "!")).0);
    assert FailureEvents(Spoken(OPEN, c.backend(0, "!")).0)[0].AudioStop?;
  }

  lemma StartForwarded(f: Pcm.Format)
    ensures ProcessPhrase(OPEN, [AudioStart(f)]) == (OPEN.(format := Some(f)), Ok([AudioStart(f)]))
  {
    var events := [AudioStart(f)];
    assert events[0].AudioStart? && events[1..] == [];
    assert Scan(OPEN, false, events) == Then(HandleStart(OPEN, f), true, []);
    AppendNone(events);
  }

  /** The phrases of a completed, undrained input are those of the accumulator. */
  lemma AcceptedPhrases(c: Config, s: Coord)
    requires CoordInv(c, s) && s.done && !s.cancelled && !s.draining
    ensures s.started + s.pending == Phrases(c.chars, c.limits, s.fed)
  {
  }

  // ------------------------------------------------------------ against `stream` on the whole text

  /** Replies do not depend on whitespace before the phrase. */
  ghost predicate IgnoresLeadingWs(backend: Backend) {
    forall n: nat, p: string, q: string :: DropWs(p) == DropWs(q) ==> backend(n, p) == backend(n, q)
  }

  lemma {:induction false} OutputTrims(keeps: bool, backend: Backend, e: Env, n: nat, ps: seq<string>, qs: seq<string>)
    requires IgnoresLeadingWs(backend) && Trims(ps) == Trims(qs)
    ensures OutputFrom(keeps, backend, e, n, ps) == OutputFrom(keeps, backend, e, n, qs)
    decreases |ps|
  {
    if ps != [] {
      assert Trims(ps)[0] == DropWs(ps[0]) && Trims(qs)[0] == DropWs(qs[0]);
      assert Trims(ps)[1..] == Trims(ps[1..]) && Trims(qs)[1..] == Trims(qs[1..]);
      OutputTrims(keeps, backend, Spoken(e, backend(n, ps[0])).0, n + 1, ps[1..], qs[1..]);
    }
  }

  /** A fresh coordinator's `stream` speaks the phrases of its text as one chunk. */
  lemma WholeText(c: Config, text: string)
    requires c.limits.Valid()
    ensures ParseWhole(c.chars, c.limits, FRESH, text).1 == Phrases(c.chars, c.limits, [text])
  {
    var (a, out) := Feed(c.chars, c.limits, FRESH, text);
    assert [text][1..] == [] && out + [] == out;
    assert FeedAll(c.chars, c.limits, FRESH, [text]) == (a, out);
  }

  /**
   * End to end: regular text fed in any chunks and spoken to the end by the
   * progressive loop comes out as `stream` on the whole text and one sentinel,
   * for replies that ignore leading whitespace, exactly when no phrase leaked.
   */
  lemma ProgressiveIsStream(c: Config, acts: seq<CoordAct>, s: Coord)
    requires c.limits.Valid() && Reaches(c, START, acts, s)
    requires s.loop.Finished? && s.done && !s.cancelled && !s.draining
    requires IgnoresLeadingWs(c.backend) && Regular(c.chars, c.limits.phraseMax, Flatten(s.fed))
    ensures s.delivered + s.queue
      == Items(SequentialOutput(c.backend, Phrases(c.chars, c.limits, [Flatten(s.fed)]))) + [None]
      <==> !Leaks(c.backend, s.started)
  {
    RefinesExactly(c, acts, s);
    StartInv(c);
    CoordRunInv(c, START, acts, s);
    AcceptedPhrases(c, s);
    RegularIsInvariant(c.chars, c.limits, Flatten(s.fed));
    var ps, qs := Phrases(c.chars, c.limits, s.fed), Phrases(c.chars, c.limits, [Flatten(s.fed)]);
    assert Trims(ps) == Trims(qs);
    OutputTrims(false, c.backend, OPEN, 0, ps, qs);
  }

  // ------------------------------------------------------------ waiting and completing

  /** A loop parked on a clear ready event has nothing to do, in every reachable state. */
  lemma ParkedIsIdle(c: Config, acts: seq<CoordAct>, s: Coord)
    requires c.limits.Valid() && Reaches(c, START, acts, s)
    requires s.loop.Parked? && !s.ready
    ensures s.pending == [] && !s.done && !s.cancelled
    ensures Spoke(c.backend, s.started).Some?
    ensures Emitted(s) == Items(Spoke(c.backend, s.started).value.1)
  {
    StartInv(c);
    CoordRunInv(c, START, acts, s);
  }

  function Stage(loop: Loop): nat {
    match loop
    case Running(_) => 6
    case Putting(_, next) => if next.End? then 2 else 5
    case Unstarted => 4
    case Parked => 4
    case Checking => 3
    case Finished => 1
  }

  function Backlog(s: Coord): nat {
    2 * (if s.loop.Putting? then |s.loop.items| else 0) + |s.queue|
  }

  predicate Unattended(act: CoordAct) {
    act.LoopAct? || act.GetAct?
  }

  predicate Closer(s: Coord, s': Coord) {
    || |s'.pending| < |s.pending|
    || (|s'.pending| == |s.pending| && Stage(s'.loop) < Stage(s.loop))
    || (|s'.pending| == |s.pending| && Stage(s'.loop) == Stage(s.loop) && Backlog(s') < Backlog(s))
  }

  lemma LoopCloser(c: Config, s: Coord)
    requires s.done && !s.cancelled && LoopEnabled(s)
    ensures Closer(s, LoopStep(c, s))
  {
    match s.loop
    case Checking => CheckCloser(s);
    case _ =>
  }

  lemma CheckCloser(s: Coord)
    requires s.loop.Checking? && s.done && !s.cancelled
    ensures Closer(s, Check(s))
  {
  }

  /** Once feed_done was called every step of loop or consumer brings the end closer, in whatever order they run. */
  lemma UnattendedCloser(c: Config, s: Coord, act: CoordAct)
    requires c.limits.Valid() && s.done && !s.cancelled && Unattended(act) && Possible(s, act)
    ensures Closer(s, Next(c, s, act)) && SameInput(s, Next(c, s, act))
  {
    if act.LoopAct? {
      LoopCloser(c, s);
      LoopKeepsInput(c, s);
    }
  }

  /** Neither loop nor consumer can step. */
  predicate AtRest(s: Coord) {
    !LoopEnabled(s) && s.queue == []
  }

  /** Once feed_done was called loop and consumer come to rest only when everything was delivered. */
  lemma RestIsComplete(c: Config, s: Coord)
    requires CoordInv(c, s) && s.done && !s.cancelled
    ensures AtRest(s) <==> s.loop.Finished? && s.queue == []
    ensures AtRest(s) ==> s.delivered == Items(LoopOutput(c.backend, s.started + s.pending)) + [None]
  {
    if s.loop.Finished? {
      ExhaustedOutput(true, c, s);
      AppendNone(s.delivered);
    }
  }

  /** An order in which loop and consumer take their steps: one that is possible, as long as there is one. */
  ghost predicate NeverIdle(pick: Coord -> CoordAct) {
    forall s: Coord :: !AtRest(s) ==> Unattended(pick(s)) && Possible(s, pick(s))
  }

  /** `acts` is what `pick` makes of `s`, and ends in `s'`. */
  ghost predicate Follows(c: Config, pick: Coord -> CoordAct, s: Coord, acts: seq<CoordAct>, s': Coord)
    requires c.limits.Valid()
    decreases |acts|
  {
    if acts == [] then s == s'
    else acts[0] == pick(s) && Possible(s, acts[0]) && Follows(c, pick, Next(c, s, acts[0]), acts[1..], s')
  }

  /**
   * Completion: once feed_done was called, in whatever order loop and consumer
   * take their steps, they bring every uncancelled state to the end, with
   * exactly the loop's output and one sentinel delivered.
   */
  lemma {:induction false} Completes(c: Config, s: Coord, pick: Coord -> CoordAct)
    returns (acts: seq<CoordAct>, s': Coord)
    requires CoordInv(c, s) && s.done && !s.cancelled && NeverIdle(pick)
    ensures Follows(c, pick, s, acts, s') && Reaches(c, s, acts, s')
    ensures s'.loop.Finished? && s'.queue == [] && s'.fed == s.fed && SameInput(s, s')
    ensures s'.delivered == Items(LoopOutput(c.backend, s.started + s.pending)) + [None]
    decreases |s.pending|, Stage(s.loop), Backlog(s)
  {
    RestIsComplete(c, s);
    if AtRest(s) {
      acts, s' := [], s;
    } else {
      UnattendedCloser(c, s, pick(s));
      CoordStepInv(c, s, pick(s));
      var more;
      more, s' := Completes(c, Next(c, s, pick(s)), pick);
      acts := [pick(s)] + more;
      assert acts[1..] == more;
    }
  }

  /** Consumer first. */
  function Onward(s: Coord): CoordAct {
    if s.queue != [] then GetAct else LoopAct
  }

  lemma {:induction false} ReachesThrough(c: Config, s: Coord, acts: seq<CoordAct>, s1: Coord, more: seq<CoordAct>,
                                          s2: Coord)
    requires c.limits.Valid() && Reaches(c, s, acts, s1) && Reaches(c, s1, more, s2)
    ensures Reaches(c, s, acts + more, s2)
    decreases |acts|
  {
    if acts == [] {
      AppendNone(more);
    } else {
      assert (acts + more)[1..] == acts[1..] + more;
      ReachesThrough(c, Next(c, s, acts[0]), acts[1..], s1, more, s2);
    }
  }

  /** The text of a single phrase, fed, spoken and delivered to the end. */
  lemma OnePhraseRun(c: Config) returns (acts: seq<CoordAct>, s: Coord)
    requires c.limits.Valid()
    ensures Reaches(c, START, acts, s) && s.loop.Finished? && s.done && !s.cancelled && !s.draining
    ensures s.queue == [] && s.started + s.pending == ["!"]
    ensures s.delivered == Items(LoopOutput(c.backend, ["!"])) + [None]
  {
    var first, s1 := FirstPhraseRuns(c);
    var s2 := Next(c, s1, FeedDoneAct);
    var acts2 := first + [FeedDoneAct];
    ReachesOn(c, START, first, s1, FeedDoneAct, acts2);
    StartInv(c);
    CoordRunInv(c, START, acts2, s2);
    var more;
    more, s := Completes(c, s2, Onward);
    ReachesThrough(c, START, acts2, s2, more, s);
    acts := acts2 + more;
  }

  // ------------------------------------------------------------ drain

  /** The loop will not look for work again: it is over, ending, or its phrase fails. */
  predicate Ending(c: Config, s: Coord) {
    match s.loop
    case Finished => true
    case Putting(_, next) => !next.GoOn?
    case Running(p) => s.started != [] && Spoken(s.env, c.backend(|s.started| - 1, p)).1.Broken?
    case _ => false
  }

  /** Nothing can be started: there is no phrase and none to come, or the loop is stopped or stopping. */
  predicate Quieted(c: Config, s: Coord) {
    && s.draining
    && (s.cancelled || Ending(c, s) || (s.pending == [] && (s.done || Flush(c.chars, s.acc).1.None?)))
  }

  lemma QuietedLoop(c: Config, s: Coord)
    requires Quieted(c, s) && LoopEnabled(s)
    ensures Quieted(c, LoopStep(c, s)) && LoopStep(c, s).started == s.started
  {
  }

  lemma {:induction false} QuietedStays(c: Config, s: Coord, acts: seq<CoordAct>, s': Coord)
    requires c.limits.Valid() && Reaches(c, s, acts, s') && Quieted(c, s)
    ensures s'.started == s.started
    decreases |acts|
  {
    if acts != [] {
      if acts[0].LoopAct? {
        QuietedLoop(c, s);
      }
      QuietedStays(c, Next(c, s, acts[0]), acts[1..], s');
    }
  }

  ghost predicate MayStartMore(c: Config, s: Coord)
    requires c.limits.Valid()
  {
    exists acts, s' :: Reaches(c, s, acts, s') && s'.started != s.started
  }

  /** A loop that goes on, with a phrase waiting and the ready event set. */
  predicate Eager(c: Config, s: Coord) {
    && s.pending != [] && !s.cancelled && s.ready && !Ending(c, s)
    && (s.loop.Running? ==> s.started != [])
  }

  lemma EagerStep(c: Config, s: Coord)
    requires c.limits.Valid() && Eager(c, s)
    ensures Possible(s, Onward(s))
    ensures var s' := Next(c, s, Onward(s));
      if s.queue == [] && s.loop.Checking? then s'.started == s.started + [s.pending[0]]
      else
        && Eager(c, s') && s'.started == s.started && s'.pending == s.pending
        && (Stage(s'.loop) < Stage(s.loop) || (Stage(s'.loop) == Stage(s.loop) && Backlog(s') < Backlog(s)))
  {
  }

  /** Whatever the loop is doing, it comes to the waiting phrase. */
  lemma {:induction false} EagerStarts(c: Config, s: Coord) returns (acts: seq<CoordAct>, s': Coord)
    requires c.limits.Valid() && Eager(c, s)
    ensures Reaches(c, s, acts, s') && s'.started == s.started + [s.pending[0]]
    decreases Stage(s.loop), Backlog(s)
  {
    EagerStep(c, s);
    var s1 := Next(c, s, Onward(s));
    var more;
    if s.queue == [] && s.loop.Checking? {
      more, s' := [], s1;
    } else {
      more, s' := EagerStarts(c, s1);
    }
    acts := [Onward(s)] + more;
    assert acts[1..] == more;
  }

  lemma FlushStartsMore(c: Config, s: Coord) returns (acts: seq<CoordAct>, s': Coord)
    requires c.limits.Valid() && s.pending == [] && (s.loop.Running? ==> s.started != [])
    requires !s.done && !s.cancelled && !Ending(c, s) && Flush(c.chars, s.acc).1.Some?
    ensures Reaches(c, s, acts, s') && s'.started == s.started + [Flush(c.chars, s.acc).1.value]
  {
    var s1 := Next(c, s, FeedDoneAct);
    AppendNone(OptionSeq(Flush(c.chars, s.acc).1));
    var more;
    more, s' := EagerStarts(c, s1);
    acts := [FeedDoneAct] + more;
    assert acts[1..] == more;
  }

  /**
   * drain is documented to keep later phrases from starting. Whatever the loop
   * is doing, it does so exactly when the coordinator is done or cancelled,
   * feed_done has nothing left to flush, or the loop is over, ending, or at a
   * phrase that fails: feed_done does not look at the draining flag.
   */
  lemma DrainStopsExactly(c: Config, s: Coord)
    requires c.limits.Valid() && (s.loop.Running? ==> s.started != [])
    ensures !MayStartMore(c, DrainCoord(s))
      <==> s.done || s.cancelled || Flush(c.chars, s.acc).1.None? || Ending(c, s)
  {
    var d := DrainCoord(s);
    if Quieted(c, d) {
      forall acts, s' | Reaches(c, d, acts, s')
        ensures s'.started == d.started
      {
        QuietedStays(c, d, acts, s');
      }
    } else {
      var acts, s' := FlushStartsMore(c, d);
    }
  }

  // ------------------------------------------------------------ cancellation

  /** Cancelled: no phrase will be taken any more. */
  lemma {:induction false} CancelledStartsNothing(c: Config, s: Coord, acts: seq<CoordAct>, s': Coord)
    requires c.limits.Valid() && Reaches(c, s, acts, s') && s.cancelled
    ensures s'.cancelled && s'.started == s.started
    decreases |acts|
  {
    if acts != [] {
      CancelledStep(c, s, acts[0]);
      CancelledStartsNothing(c, Next(c, s, acts[0]), acts[1..], s');
    }
  }

  lemma CancelledStep(c: Config, s: Coord, act: CoordAct)
    requires c.limits.Valid() && s.cancelled && Possible(s, act)
    ensures Next(c, s, act).cancelled && Next(c, s, act).started == s.started
  {
    match act
    case LoopAct =>
    case _ =>
  }

  /** The loop is over or never began, and the queue holds sentinels at most. */
  predicate Silenced(s: Coord) {
    s.cancelled && (s.loop.Finished? || s.loop.Unstarted? || s.loop.Checking?) && Events(s.queue) == []
  }

  lemma SentinelAlone()
    ensures Events([None]) == []
  {
    var sentinel: seq<Option<Event>> := [None];
    assert sentinel[1..] == [];
  }

  lemma SilencedStep(c: Config, s: Coord, act: CoordAct)
    requires c.limits.Valid() && Silenced(s) && Possible(s, act)
    ensures Silenced(Next(c, s, act)) && Events(Next(c, s, act).delivered) == Events(s.delivered)
  {
    match act
    case GetAct => EventsAppend(s.delivered, [s.queue[0]]);
    case CancelFinishAct => SentinelAlone();
    case _ =>
  }

  lemma {:induction false} SilencedStays(c: Config, s: Coord, acts: seq<CoordAct>, s': Coord)
    requires c.limits.Valid() && Reaches(c, s, acts, s') && Silenced(s)
    ensures Events(s'.delivered) == Events(s.delivered)
    decreases |acts|
  {
    if acts != [] {
      SilencedStep(c, s, acts[0]);
      SilencedStays(c, Next(c, s, acts[0]), acts[1..], s');
    }
  }

  /**
   * After `cancel` the consumer finds the sentinel next, receives no further
   * event, whatever happens, and the envelope is closed for good.
   */
  lemma CancelSilences(c: Config, s: Coord, acts: seq<CoordAct>, s': Coord)
    requires c.limits.Valid() && Possible(s, CancelFinishAct) && Reaches(c, CancelFinish(s), acts, s')
    ensures CancelFinish(s).queue == [None] && CancelFinish(s).env.closed
    ensures Events(s'.delivered) == Events(s.delivered) && s'.started == s.started
  {
    SentinelAlone();
    SilencedStays(c, CancelFinish(s), acts, s');
    CancelledStartsNothing(c, CancelFinish(s), acts, s');
  }
}

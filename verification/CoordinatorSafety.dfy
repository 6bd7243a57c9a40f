/** Under every interleaving the coordinator delivers what `stream` would yield. */
module CoordinatorSafety {
  import opened Common
  import opened PhraseText
  import opened PhraseSegments
  import opened Wire
  import opened Envelope
  import opened CoordinatorModel

  // ------------------------------------------------------------ the sequential form, phrase by phrase

  /** Envelope and events after `phrases`, if none of them failed. */
  function Spoke(backend: Backend, phrases: seq<string>): (r: Option<(Env, seq<Event>)>)
    decreases |phrases|
  {
    if phrases == [] then Some((OPEN, []))
    else
      var last := |phrases| - 1;
      var before := Spoke(backend, phrases[..last]);
      if before.None? then None
      else
        var (e, speech) := Spoken(before.value.0, backend(last, phrases[last]));
        if speech.Broken? then None else Some((e, before.value.1 + speech.events))
  }

  /** The last of `phrases` is the one that failed. */
  predicate FailedLast(backend: Backend, phrases: seq<string>) {
    phrases != [] && Spoke(backend, phrases[..|phrases| - 1]).Some? && Spoke(backend, phrases).None?
  }

  lemma SpokeSnoc(backend: Backend, phrases: seq<string>, p: string)
    ensures Spoke(backend, phrases + [p]) ==
      var before := Spoke(backend, phrases);
      if before.None? then None
      else
        var (e, speech) := Spoken(before.value.0, backend(|phrases|, p));
        if speech.Broken? then None else Some((e, before.value.1 + speech.events))
  {
    assert (phrases + [p])[..|phrases|] == phrases;
  }

  lemma {:induction false} OutputSplit(keeps: bool, backend: Backend, phrases: seq<string>, more: seq<string>)
    requires Spoke(backend, phrases).Some?
    ensures var (e, out) := Spoke(backend, phrases).value;
      OutputFrom(keeps, backend, OPEN, 0, phrases + more) == out + OutputFrom(keeps, backend, e, |phrases|, more)
    decreases |phrases|
  {
    if phrases == [] {
      assert phrases + more == more;
    } else {
      var last := |phrases| - 1;
      var rest := [phrases[last]] + more;
      assert phrases + more == phrases[..last] + rest;
      OutputSplit(keeps, backend, phrases[..last], rest);
      var (e0, out0) := Spoke(backend, phrases[..last]).value;
      var (e, speech) := Spoken(e0, backend(last, phrases[last]));
      assert rest[1..] == more;
      AppendAssoc(out0, speech.events, OutputFrom(keeps, backend, e, last + 1, more));
    }
  }

  /** Phrases that went well contribute a prefix, whatever follows. */
  lemma SpokeIsPrefix(keeps: bool, backend: Backend, phrases: seq<string>, more: seq<string>)
    requires Spoke(backend, phrases).Some?
    ensures Spoke(backend, phrases).value.1 <= Output(keeps, backend, phrases + more)
  {
    if phrases + more == [] {
      assert phrases == [];
    } else {
      OutputSplit(keeps, backend, phrases, more);
    }
  }

  lemma OutputBroken(keeps: bool, backend: Backend, e: Env, n: nat, p: string, more: seq<string>)
    requires Spoken(e, backend(n, p)).1.Broken?
    ensures var (e', speech) := Spoken(e, backend(n, p));
      OutputFrom(keeps, backend, e, n, [p] + more) == (if keeps then speech.shown else []) + FailureEvents(e')
  {
    assert ([p] + more)[0] == p;
  }

  /** A failed phrase ends the output; what follows does not matter. */
  lemma FailureEnds(keeps: bool, backend: Backend, phrases: seq<string>, p: string, more: seq<string>)
    requires Spoke(backend, phrases).Some?
    requires Spoken(Spoke(backend, phrases).value.0, backend(|phrases|, p)).1.Broken?
    ensures var (e, out) := Spoke(backend, phrases).value;
      var (e', speech) := Spoken(e, backend(|phrases|, p));
      Output(keeps, backend, phrases + [p] + more) == out + ((if keeps then speech.shown else []) + FailureEvents(e'))
  {
    AppendAssoc(phrases, [p], more);
    OutputSplit(keeps, backend, phrases, [p] + more);
    OutputBroken(keeps, backend, Spoke(backend, phrases).value.0, |phrases|, p, more);
  }

  lemma FailedLastStable(keeps: bool, backend: Backend, phrases: seq<string>, more: seq<string>)
    requires FailedLast(backend, phrases)
    ensures Output(keeps, backend, phrases + more) == Output(keeps, backend, phrases)
  {
    var last := |phrases| - 1;
    assert phrases == phrases[..last] + [phrases[last]];
    assert phrases[..last] + [phrases[last]] + [] == phrases;
    FailureEnds(keeps, backend, phrases[..last], phrases[last], more);
    FailureEnds(keeps, backend, phrases[..last], phrases[last], []);
  }

  lemma {:induction false} SpokeOpen(backend: Backend, phrases: seq<string>)
    requires Spoke(backend, phrases).Some?
    ensures !Spoke(backend, phrases).value.0.closed
    decreases |phrases|
  {
    if phrases != [] {
      var last := |phrases| - 1;
      SpokeOpen(backend, phrases[..last]);
      SpokenKeepsClosed(Spoke(backend, phrases[..last]).value.0, backend(last, phrases[last]));
    }
  }

  lemma SpokenKeepsClosed(e: Env, reply: Reply)
    ensures Spoken(e, reply).0.closed == e.closed
  {
    if !reply.Fails? {
      ScanNeverCloses(e, false, reply.events);
    }
  }

  // ------------------------------------------------------------ items and sentinels

  /** The events among the items, sentinels dropped. */
  function Events(items: seq<Option<Event>>): seq<Event> {
    if items == [] then []
    else (if items[0].Some? then [items[0].value] else []) + Events(items[1..])
  }

  lemma {:induction false} EventsAppend(p: seq<Option<Event>>, q: seq<Option<Event>>)
    ensures Events(p + q) == Events(p) + Events(q)
  {
    if p == [] {
      assert p + q == q;
    } else {
      assert (p + q)[1..] == p[1..] + q;
      EventsAppend(p[1..], q);
      AppendAssoc(if p[0].Some? then [p[0].value] else [], Events(p[1..]), Events(q));
    }
  }

  lemma {:induction false} EventsItems(events: seq<Event>)
    ensures Events(Items(events)) == events
  {
    if events != [] {
      assert Items(events)[1..] == Items(events[1..]);
      EventsItems(events[1..]);
    }
  }

  lemma ItemsAppend(p: seq<Event>, q: seq<Event>)
    ensures Items(p + q) == Items(p) + Items(q)
  {
  }

  /** Part of a finished output shows part of its events. */
  lemma EventsOfPart(part: seq<Option<Event>>, rest: seq<Option<Event>>, events: seq<Event>, final: bool)
    requires part + rest == Items(events) + (if final then [None] else [])
    ensures Events(part) <= events
  {
    EventsAppend(part, rest);
    EventsAppend(Items(events), if final then [None] else []);
    EventsItems(events);
    assert Events(part) + Events(rest) == events;
  }

  // ------------------------------------------------------------ the invariant

  function Emitted(s: Coord): seq<Option<Event>> {
    s.delivered + s.queue
  }

  /** Every phrase taken so far was spoken in full. */
  predicate AllSpoken(c: Config, s: Coord) {
    var sp := Spoke(c.backend, s.started);
    sp.Some? && sp.value.0 == s.env && Emitted(s) == Items(sp.value.1)
  }

  /** Nothing further will be taken: a phrase failed, or the input ended and is used up. */
  predicate Exhausted(c: Config, s: Coord) {
    FailedLast(c.backend, s.started) || (s.done && s.pending == [])
  }

  /** What was emitted, cancelled runs included, never leaves the loop's output. */
  predicate Within(c: Config, s: Coord) {
    Events(Emitted(s)) <= LoopOutput(c.backend, s.started)
  }

  /** The phrase just taken. */
  predicate Taken(s: Coord, p: string) {
    s.started != [] && p == s.started[|s.started| - 1]
  }

  function Before(s: Coord): seq<string>
    requires s.started != []
  {
    s.started[..|s.started| - 1]
  }

  /** The last phrase taken failed; `items` are what its operation had to show and has not been put. */
  predicate Breaking(c: Config, s: Coord, items: seq<Option<Event>>) {
    && s.started != []
    && var sp := Spoke(c.backend, Before(s));
       && sp.Some?
       && var (e, speech) := Spoken(sp.value.0, c.backend(|s.started| - 1, s.started[|s.started| - 1]));
          && speech.Broken? && e == s.env
          && Emitted(s) + items == Items(sp.value.1 + speech.shown)
  }

  predicate Tracks(c: Config, s: Coord) {
    match s.loop
    case Unstarted => if s.cancelled then Within(c, s) else AllSpoken(c, s) && s.started == []
    case Checking => if s.cancelled then Within(c, s) else AllSpoken(c, s)
    case Parked => if s.cancelled then Within(c, s) else AllSpoken(c, s)
    case Running(p) =>
      && Taken(s, p)
      && var sp := Spoke(c.backend, Before(s));
         sp.Some? && sp.value.0 == s.env && Emitted(s) == Items(sp.value.1)
    case Putting(items, GoOn) =>
      var sp := Spoke(c.backend, s.started);
      sp.Some? && sp.value.0 == s.env && Emitted(s) + items == Items(sp.value.1)
    case Putting(items, Handle) => Breaking(c, s, items)
    case Putting(items, End) =>
      && Emitted(s) + items == Items(LoopOutput(c.backend, s.started)) + [None]
      && (!s.cancelled ==> Exhausted(c, s))
    case Finished =>
      if s.cancelled then Within(c, s)
      else Emitted(s) == Items(LoopOutput(c.backend, s.started)) + [None] && Exhausted(c, s)
  }

  predicate Bounded(s: Coord) {
    |s.queue| <= 1
  }

  /** A loop parked on a clear event has nothing to do. */
  predicate Asleep(s: Coord) {
    s.loop.Parked? && !s.ready ==> s.pending == [] && !s.done && !s.cancelled
  }

  /** The phrases taken and pending are those the accumulator emitted, unless drained or cancelled. */
  ghost predicate Accounted(c: Config, s: Coord)
    requires c.limits.Valid()
  {
    && (!s.done ==> s.flushes == [] && s.acc == FeedAll(c.chars, c.limits, FRESH, s.fed).0)
    && (s.done ==> s.flushes == OptionSeq(Flush(c.chars, FeedAll(c.chars, c.limits, FRESH, s.fed).0).1))
    && (!s.cancelled && !s.draining ==>
        s.started + s.pending == FeedAll(c.chars, c.limits, FRESH, s.fed).1 + s.flushes)
  }

  ghost predicate CoordInv(c: Config, s: Coord) {
    c.limits.Valid() && Tracks(c, s) && Bounded(s) && Asleep(s) && Accounted(c, s)
  }

  lemma StartInv(c: Config)
    requires c.limits.Valid()
    ensures CoordInv(c, START)
  {
  }

  // ------------------------------------------------------------ the loop's steps

  lemma CheckTracks(c: Config, s: Coord)
    requires Tracks(c, s) && s.loop.Checking?
    ensures Tracks(c, Check(s))
  {
    if !s.cancelled {
      if s.pending != [] {
        assert (s.started + [s.pending[0]])[..|s.started|] == s.started;
      } else if s.done {
        CloseTracks(c, s);
      }
    }
  }

  lemma CloseTracks(c: Config, s: Coord)
    requires Tracks(c, s) && s.loop.Checking? && !s.cancelled && s.pending == [] && s.done
    ensures Tracks(c, Check(s))
  {
    var (e, out) := Spoke(c.backend, s.started).value;
    if s.started != [] {
      SpokeOpen(c.backend, s.started);
      OutputSplit(true, c.backend, s.started, []);
      AppendNone(s.started);
      var closing := ClosingEvents(Close(e, true).1);
      ItemsAppend(out, closing);
      AppendAssoc(Emitted(s), Items(closing), [None]);
    } else {
      assert Emitted(s) + [None] == Items([]) + [None];
    }
  }

  /** The failure of `run` is reported after what the phrase had shown. */
  lemma HandleTracks(c: Config, s: Coord)
    requires Breaking(c, s, [])
    ensures Tracks(c, HandleFailure(s))
  {
    var before, p := Before(s), s.started[|s.started| - 1];
    assert before + [p] + [] == s.started;
    SpokeSnoc(c.backend, before, p);
    assert before + [p] == s.started;
    var (e0, out) := Spoke(c.backend, before).value;
    var (e, speech) := Spoken(e0, c.backend(|before|, p));
    FailureEnds(true, c.backend, before, p, []);
    AppendNone(Emitted(s));
    AppendAssoc(out, speech.shown, FailureEvents(e));
    if s.cancelled {
      EventsItems(out + speech.shown);
    } else {
      SpokeOpen(c.backend, before);
      SpokenKeepsClosed(e0, c.backend(|before|, p));
      ItemsAppend(out + speech.shown, FailureEvents(e));
      AppendAssoc(Emitted(s), Items(FailureEvents(e)), [None]);
    }
  }

  lemma BrokenTracks(c: Config, s: Coord, p: string)
    requires Tracks(c, s) && s.loop == Running(p)
    requires Spoken(s.env, c.backend(|s.started| - 1, p)).1.Broken?
    ensures Tracks(c, Answer(c, s, p))
  {
    var (e, speech) := Spoken(s.env, c.backend(|s.started| - 1, p));
    var out := Spoke(c.backend, Before(s)).value.1;
    ItemsAppend(out, speech.shown);
    AppendNone(out);
    AppendNone(Emitted(s));
    assert Breaking(c, s.(env := e), Items(speech.shown));
    if speech.shown == [] {
      HandleTracks(c, s.(env := e));
    }
  }

  lemma AnswerTracks(c: Config, s: Coord, p: string)
    requires Tracks(c, s) && s.loop == Running(p)
    ensures Tracks(c, Answer(c, s, p))
  {
    if Spoken(s.env, c.backend(|s.started| - 1, p)).1.Uttered? {
    } else {
      BrokenTracks(c, s, p);
    }
  }

  lemma BreakingWithin(c: Config, s: Coord, items: seq<Option<Event>>)
    requires Breaking(c, s, items)
    ensures Within(c, s)
  {
    var before, p := Before(s), s.started[|s.started| - 1];
    assert before + [p] + [] == s.started;
    var (e0, out) := Spoke(c.backend, before).value;
    var (e, speech) := Spoken(e0, c.backend(|before|, p));
    FailureEnds(true, c.backend, before, p, []);
    AppendAssoc(out, speech.shown, FailureEvents(e));
    AppendNone(Items(out + speech.shown));
    EventsOfPart(Emitted(s), items, out + speech.shown, false);
  }

  lemma WithinByPart(c: Config, s: Coord)
    requires Tracks(c, s)
    ensures Within(c, s)
  {
    AppendNone(s.started);
    if s.loop.Running? {
      var before := Before(s);
      assert s.started == before + [s.loop.phrase];
      SpokeIsPrefix(true, c.backend, before, [s.loop.phrase]);
      EventsItems(Spoke(c.backend, before).value.1);
    } else if s.loop.Putting? && s.loop.next.Handle? {
      BreakingWithin(c, s, s.loop.items);
    } else if s.loop.Putting? && s.loop.next.End? {
      EventsOfPart(Emitted(s), s.loop.items, LoopOutput(c.backend, s.started), true);
    } else if s.loop.Putting? {
      AppendNone(Items(Spoke(c.backend, s.started).value.1));
      EventsOfPart(Emitted(s), s.loop.items, Spoke(c.backend, s.started).value.1, false);
      SpokeIsPrefix(true, c.backend, s.started, []);
    } else if s.loop.Finished? && !s.cancelled {
      AppendNone(Emitted(s));
      EventsOfPart(Emitted(s), [], LoopOutput(c.backend, s.started), true);
    } else if !s.cancelled {
      EventsItems(Spoke(c.backend, s.started).value.1);
      SpokeIsPrefix(true, c.backend, s.started, []);
    }
  }

  /** Putting one item moves it from the task to the queue. */
  lemma PutTracks(c: Config, s: Coord)
    requires Tracks(c, s) && s.loop.Putting? && s.loop.items != []
    ensures Tracks(c, s.(queue := s.queue + [s.loop.items[0]], loop := Putting(s.loop.items[1..], s.loop.next)))
  {
    var s' := s.(queue := s.queue + [s.loop.items[0]], loop := Putting(s.loop.items[1..], s.loop.next));
    assert Emitted(s') + s'.loop.items == Emitted(s) + s.loop.items;
  }

  /** All items put. */
  lemma PutAllTracks(c: Config, s: Coord)
    requires Tracks(c, s) && s.loop.Putting? && s.loop.items == []
    ensures Tracks(c, LoopStep(c, s))
  {
    AppendNone(Emitted(s));
    if s.loop.next.Handle? {
      HandleTracks(c, s);
    } else {
      WithinByPart(c, s);
    }
  }

  lemma LoopTracks(c: Config, s: Coord)
    requires Tracks(c, s) && LoopEnabled(s)
    ensures Tracks(c, LoopStep(c, s))
  {
    match s.loop
    case Checking => CheckTracks(c, s);
    case Running(p) => AnswerTracks(c, s, p);
    case Putting(items, _) =>
      if items == [] {
        PutAllTracks(c, s);
      } else {
        PutTracks(c, s);
      }
    case _ =>
  }

  // ------------------------------------------------------------ the other steps

  lemma GetTracks(c: Config, s: Coord)
    requires Tracks(c, s) && s.queue != []
    ensures Tracks(c, Get(s))
  {
    assert (s.delivered + [s.queue[0]]) + s.queue[1..] == Emitted(s);
  }

  lemma CancelTracks(c: Config, s: Coord, act: CoordAct)
    requires c.limits.Valid() && Tracks(c, s) && Possible(s, act)
    requires act.CancelBeginAct? || act.LoopKilledAct? || act.CancelFinishAct?
    ensures Tracks(c, Next(c, s, act))
  {
    WithinByPart(c, s);
    var s' := Next(c, s, act);
    if act.CancelFinishAct? {
      EventsAppend(s.delivered, s.queue);
      EventsAppend(s.delivered, [None]);
      assert Events(Emitted(s')) == Events(s.delivered);
    } else {
      assert Emitted(s') == Emitted(s);
    }
  }

  lemma NextTracks(c: Config, s: Coord, act: CoordAct)
    requires c.limits.Valid() && Tracks(c, s) && Possible(s, act)
    ensures Tracks(c, Next(c, s, act))
  {
    match act
    case LoopAct => LoopTracks(c, s);
    case GetAct => GetTracks(c, s);
    case FeedTextAct(_) =>
    case FeedDoneAct =>
    case DrainCoordAct =>
    case _ => CancelTracks(c, s, act);
  }

  lemma {:induction false} FeedAllSnoc(a: Chars, lim: Limits, s: Acc, chunks: seq<string>, chunk: string)
    requires lim.Valid()
    ensures var (s1, out1) := FeedAll(a, lim, s, chunks);
      var (s2, out2) := Feed(a, lim, s1, chunk);
      FeedAll(a, lim, s, chunks + [chunk]) == (s2, out1 + out2)
    decreases |chunks|
  {
    if chunks == [] {
      assert [] + [chunk] == [chunk] && [chunk][1..] == [];
      AppendNone(Feed(a, lim, s, chunk).1);
    } else {
      assert (chunks + [chunk])[1..] == chunks[1..] + [chunk];
      var (s1, out1) := Feed(a, lim, s, chunks[0]);
      FeedAllSnoc(a, lim, s1, chunks[1..], chunk);
      var (s2, out2) := FeedAll(a, lim, s1, chunks[1..]);
      AppendAssoc(out1, out2, Feed(a, lim, s2, chunk).1);
    }
  }

  lemma FeedTextAccounted(c: Config, s: Coord, chunk: string)
    requires c.limits.Valid() && Accounted(c, s)
    ensures Accounted(c, FeedText(c, s, chunk))
  {
    if !s.done && !s.cancelled && !s.draining {
      FeedAllSnoc(c.chars, c.limits, FRESH, s.fed, chunk);
      AppendAssoc(s.started, s.pending, Feed(c.chars, c.limits, s.acc, chunk).1);
      AppendNone(FeedAll(c.chars, c.limits, FRESH, s.fed).1);
      AppendNone(FeedAll(c.chars, c.limits, FRESH, s.fed + [chunk]).1);
    }
  }

  lemma FeedDoneAccounted(c: Config, s: Coord)
    requires c.limits.Valid() && Accounted(c, s)
    ensures Accounted(c, FeedDone(c, s))
  {
    if !s.done && !s.cancelled {
      AppendAssoc(s.started, s.pending, OptionSeq(Flush(c.chars, s.acc).1));
      AppendNone(FeedAll(c.chars, c.limits, FRESH, s.fed).1);
      AppendNone(OptionSeq(Flush(c.chars, s.acc).1));
    }
  }

  /** The input of the two states is the same: what was fed, how it ended, and the phrases in all. */
  predicate SameInput(s: Coord, s': Coord) {
    && s'.acc == s.acc && s'.fed == s.fed && s'.flushes == s.flushes
    && s'.done == s.done && s'.cancelled == s.cancelled && s'.draining == s.draining
    && s'.started + s'.pending == s.started + s.pending
  }

  lemma CheckKeepsInput(s: Coord)
    ensures SameInput(s, Check(s))
  {
    if !s.cancelled && s.pending != [] {
      assert (s.started + [s.pending[0]]) + s.pending[1..] == s.started + s.pending;
    }
  }

  /** The background loop leaves the input alone. */
  lemma LoopKeepsInput(c: Config, s: Coord)
    requires LoopEnabled(s)
    ensures SameInput(s, LoopStep(c, s))
  {
    match s.loop
    case Checking => CheckKeepsInput(s);
    case _ =>
  }

  lemma NextAccounted(c: Config, s: Coord, act: CoordAct)
    requires c.limits.Valid() && Accounted(c, s) && Possible(s, act)
    ensures Accounted(c, Next(c, s, act))
  {
    match act
    case FeedTextAct(chunk) => FeedTextAccounted(c, s, chunk);
    case FeedDoneAct => FeedDoneAccounted(c, s);
    case LoopAct => LoopKeepsInput(c, s);
    case _ =>
  }

  lemma LoopAsleep(c: Config, s: Coord)
    requires Bounded(s) && LoopEnabled(s)
    ensures Asleep(LoopStep(c, s)) && Bounded(LoopStep(c, s))
  {
  }

  /** No wake-up is lost, and the queue holds one item at most. */
  lemma NextAsleep(c: Config, s: Coord, act: CoordAct)
    requires c.limits.Valid() && Asleep(s) && Bounded(s) && Possible(s, act)
    ensures Asleep(Next(c, s, act)) && Bounded(Next(c, s, act))
  {
    if act.LoopAct? {
      LoopAsleep(c, s);
    }
  }

  lemma CoordStepInv(c: Config, s: Coord, act: CoordAct)
    requires CoordInv(c, s) && Possible(s, act)
    ensures CoordInv(c, Next(c, s, act))
  {
    NextAsleep(c, s, act);
    NextTracks(c, s, act);
    NextAccounted(c, s, act);
  }

  lemma {:induction false} CoordRunInv(c: Config, s: Coord, acts: seq<CoordAct>, s': Coord)
    requires CoordInv(c, s) && Reaches(c, s, acts, s')
    ensures CoordInv(c, s')
    decreases |acts|
  {
    if acts != [] {
      CoordStepInv(c, s, acts[0]);
      CoordRunInv(c, Next(c, s, acts[0]), acts[1..], s');
    }
  }
}

/**
 * The state of StreamingCoordinator (app/speech/stream_coordinator.py) and its
 * steps: feeding, the background synthesis loop, the consumer, cancellation.
 *
 * A step is the code between two suspension points. The scheduler and the
 * synthesis function together are a script: what the n-th phrase comes to.
 */
module CoordinatorModel {
  import opened Common
  import opened PhraseText
  import opened PhraseSegments
  import opened Wire
  import opened Envelope

  /**
   * What running one phrase through the scheduler comes to. `run` can raise
   * after the operation succeeded: its handoff to a settled future does.
   */
  datatype Reply = Produces(events: seq<Event>) | ProducesThenRaises(events: seq<Event>) | Fails

  /** What the phrase with a given number and text comes to. */
  type Backend = (nat, string) -> Reply

  /** What the background task does once it has put its items: look for work, handle the failure of `run`, or end. */
  datatype Onwards = GoOn | Handle | End

  /** Where the background task is. `Putting` holds what it has still to put; None is the sentinel. */
  datatype Loop =
    | Unstarted
    | Checking
    | Parked
    | Running(phrase: string)
    | Putting(items: seq<Option<Event>>, next: Onwards)
    | Finished

  datatype Config = Config(chars: Chars, limits: Limits, backend: Backend)

  datatype Coord = Coord(
    acc: Acc,
    env: Env,
    done: bool,
    cancelled: bool,
    draining: bool,
    pending: seq<string>,
    queue: seq<Option<Event>>,
    ready: bool,
    loop: Loop,
    started: seq<string>,              // history: phrases taken for synthesis
    delivered: seq<Option<Event>>,     // history: what the consumer received
    fed: seq<string>,                  // history: chunks that were not refused
    flushes: seq<string>)              // history: what feed_done flushed

  const START: Coord :=
    Coord(FRESH, OPEN, false, false, false, [], [], false, Unstarted, [], [], [], [])

  // ------------------------------------------------------------ the sequential form

  /** The wire events of closing: the success stop, or an optional stop and the error. */
  function ClosingEvents(c: Closing): seq<Event> {
    match c
    case Closed(events) => events
    case Failed(stop) => (if stop.Some? then [stop.value] else []) + [SynthesisFailed]
    case ClosedTwice => []
  }

  function FailureEvents(e: Env): seq<Event> {
    ClosingEvents(Close(e, false).1)
  }

  /** What a phrase came to: its events, or a failure, before which the operation may have had events to show. */
  datatype Speech = Uttered(events: seq<Event>) | Broken(shown: seq<Event>)

  /** What one phrase does to the envelope. */
  function Spoken(e: Env, reply: Reply): (r: (Env, Speech)) {
    match reply
    case Fails => (e, Broken([]))
    case Produces(events) =>
      var (e', out) := ProcessPhrase(e, events);
      (e', if out.Ok? then Uttered(out.value) else Broken([]))
    case ProducesThenRaises(events) =>
      var (e', out) := ProcessPhrase(e, events);
      (e', Broken(if out.Ok? then out.value else []))
  }

  /**
   * The output for phrases spoken from the n-th on. `stream` yields a phrase's
   * events after `run` returned and drops those of a failed one; the loop's
   * operation has put them by then (`keeps`).
   */
  function OutputFrom(keeps: bool, backend: Backend, e: Env, n: nat, phrases: seq<string>): seq<Event>
    decreases |phrases|
  {
    if phrases == [] then ClosingEvents(Close(e, true).1)
    else
      var (e', speech) := Spoken(e, backend(n, phrases[0]));
      match speech
      case Uttered(events) => events + OutputFrom(keeps, backend, e', n + 1, phrases[1..])
      case Broken(shown) => (if keeps then shown else []) + FailureEvents(e')
  }

  function Output(keeps: bool, backend: Backend, phrases: seq<string>): seq<Event> {
    if phrases == [] then [] else OutputFrom(keeps, backend, OPEN, 0, phrases)
  }

  /** Everything `stream` yields for a text parsed into `phrases`. */
  function SequentialOutput(backend: Backend, phrases: seq<string>): seq<Event> {
    Output(false, backend, phrases)
  }

  /** Everything the background loop puts for them, the sentinel aside. */
  function LoopOutput(backend: Backend, phrases: seq<string>): seq<Event> {
    Output(true, backend, phrases)
  }

  /** The envelope after `stream`, and how many phrases it took. */
  function StreamEnd(backend: Backend, e: Env, n: nat, phrases: seq<string>): (r: (Env, nat))
    ensures r.1 <= |phrases|
    decreases |phrases|
  {
    if phrases == [] then (Close(e, true).0, 0)
    else
      var (e', speech) := Spoken(e, backend(n, phrases[0]));
      if speech.Broken? then (Close(e', false).0, 1)
      else
        var (end, taken) := StreamEnd(backend, e', n + 1, phrases[1..]);
        (end, taken + 1)
  }

  /** All phrases `stream` parses a text into, from the accumulator's state. */
  function ParseWhole(a: Chars, lim: Limits, acc: Acc, text: string): (Acc, seq<string>)
    requires lim.Valid()
  {
    var (fed, out) := Feed(a, lim, acc, text);
    var (flushed, residual) := Flush(a, fed);
    (flushed, out + OptionSeq(residual))
  }

  // ------------------------------------------------------------ steps

  function FeedText(c: Config, s: Coord, chunk: string): Coord
    requires c.limits.Valid()
  {
    if s.done || s.cancelled || s.draining then s
    else
      var (acc, out) := Feed(c.chars, c.limits, s.acc, chunk);
      s.(acc := acc, pending := s.pending + out, ready := s.ready || out != [], fed := s.fed + [chunk])
  }

  function FeedDone(c: Config, s: Coord): Coord {
    if s.done || s.cancelled then s
    else
      var (acc, residual) := Flush(c.chars, s.acc);
      s.(done := true, acc := acc, pending := s.pending + OptionSeq(residual), ready := true,
         flushes := s.flushes + OptionSeq(residual))
  }

  function DrainCoord(s: Coord): Coord {
    s.(draining := true, pending := [])
  }

  function Items(events: seq<Event>): (r: seq<Option<Event>>)
    ensures |r| == |events|
    ensures forall k :: 0 <= k < |r| ==> r[k] == Some(events[k])
  {
    seq(|events|, i requires 0 <= i < |events| => Some(events[i]))
  }

  /** The loop is about to look at its queue. */
  function Check(s: Coord): Coord {
    if s.cancelled then s.(loop := Finished)
    else if s.pending != [] then
      s.(pending := s.pending[1..], started := s.started + [s.pending[0]], loop := Running(s.pending[0]))
    else if s.done then
      if s.started != [] then
        var (env, closing) := Close(s.env, true);
        s.(env := env, loop := Putting(Items(ClosingEvents(closing)) + [None], End))
      else s.(loop := Putting([None], End))
    else s.(ready := false, loop := Parked)
  }

  /** `run` raised: close the envelope and report, or look on if cancelled. */
  function Handled(env: Env, cancelled: bool): (Env, Loop) {
    if cancelled then (env, Checking)
    else
      var (shut, closing) := Close(env, false);
      (shut, Putting(Items(ClosingEvents(closing)) + [None], End))
  }

  function HandleFailure(s: Coord): Coord {
    var (env, loop) := Handled(s.env, s.cancelled);
    s.(env := env, loop := loop)
  }

  /** The operation has its events, or failed without any. */
  function Answered(env: Env, speech: Speech, cancelled: bool): (Env, Loop) {
    match speech
    case Uttered(events) => (env, Putting(Items(events), GoOn))
    case Broken(shown) => if shown != [] then (env, Putting(Items(shown), Handle)) else Handled(env, cancelled)
  }

  function Answer(c: Config, s: Coord, phrase: string): Coord
    requires s.started != []
  {
    var (env, speech) := Spoken(s.env, c.backend(|s.started| - 1, phrase));
    var (env', loop) := Answered(env, speech, s.cancelled);
    s.(env := env', loop := loop)
  }

  predicate LoopEnabled(s: Coord) {
    match s.loop
    case Unstarted => true
    case Checking => true
    case Parked => s.ready
    case Running(_) => s.started != []
    case Putting(items, _) => items == [] || s.queue == []
    case Finished => false
  }

  function LoopStep(c: Config, s: Coord): Coord
    requires LoopEnabled(s)
  {
    match s.loop
    case Unstarted => s.(loop := Checking)
    case Checking => Check(s)
    case Parked => s.(loop := Checking)
    case Running(phrase) => Answer(c, s, phrase)
    case Putting(items, next) =>
      if items != [] then s.(queue := s.queue + [items[0]], loop := Putting(items[1..], next))
      else
        match next
        case GoOn => s.(loop := Checking)
        case Handle => HandleFailure(s)
        case End => s.(loop := Finished)
  }

  /** `cancel` up to its first suspension. */
  function CancelBegin(s: Coord): Coord {
    s.(cancelled := true, pending := [], ready := true)
  }

  /** CancelledError reaches the background task, from `cancel` or from the scheduler. */
  function LoopKilled(s: Coord): Coord {
    s.(cancelled := true, env := Close(s.env, false).0, loop := Finished)
  }

  /** `cancel` after the background task is done, or if it never ran. */
  function CancelFinish(s: Coord): Coord {
    s.(env := Close(s.env, false).0, queue := [None])
  }

  function Get(s: Coord): Coord
    requires s.queue != []
  {
    s.(queue := s.queue[1..], delivered := s.delivered + [s.queue[0]])
  }

  datatype CoordAct =
    | FeedTextAct(chunk: string)
    | FeedDoneAct
    | DrainCoordAct
    | LoopAct
    | GetAct
    | CancelBeginAct
    | LoopKilledAct
    | CancelFinishAct

  predicate Possible(s: Coord, act: CoordAct) {
    match act
    case LoopAct => LoopEnabled(s)
    case GetAct => s.queue != []
    case LoopKilledAct => s.loop != Unstarted && s.loop != Finished
    case CancelFinishAct => s.cancelled && (s.loop == Unstarted || s.loop == Finished)
    case _ => true
  }

  function Next(c: Config, s: Coord, act: CoordAct): Coord
    requires c.limits.Valid() && Possible(s, act)
  {
    match act
    case FeedTextAct(chunk) => FeedText(c, s, chunk)
    case FeedDoneAct => FeedDone(c, s)
    case DrainCoordAct => DrainCoord(s)
    case LoopAct => LoopStep(c, s)
    case GetAct => Get(s)
    case CancelBeginAct => CancelBegin(s)
    case LoopKilledAct => LoopKilled(s)
    case CancelFinishAct => CancelFinish(s)
  }

  ghost predicate Reaches(c: Config, s: Coord, acts: seq<CoordAct>, s': Coord)
    requires c.limits.Valid()
    decreases |acts|
  {
    if acts == [] then s == s'
    else Possible(s, acts[0]) && Reaches(c, Next(c, s, acts[0]), acts[1..], s')
  }
}

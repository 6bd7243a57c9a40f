/**
 * `StreamingCoordinator` (app/speech/stream_coordinator.py). The background
 * task is advanced from one suspension to the next; `task` says where it waits.
 */
module Coordinator {
  import opened Common
  import opened PhraseText
  import opened PhraseSegments
  import P = PhraseAccumulator
  import opened Wire
  import opened Envelope
  import opened CoordinatorModel
  import opened CoordinatorSafety
  import CoordinatorLaws

  /**
   * What `stream` comes to: refused after a start, or the events it yielded and
   * whether it then raised (a failed phrase on an envelope already closed).
   */
  datatype Streamed = Refused | Yielded(events: seq<Event>, raised: bool)

  class StreamingCoordinator {
    const backend: Backend
    const accumulator: P.PhraseAccumulator
    const envelope: AudioEnvelope
    var done: bool
    var cancelled: bool
    var draining: bool
    var phraseCount: nat
    var output: seq<Option<Event>>
    var pendingPhrases: seq<string>
    var ready: bool
    var task: Loop
    ghost var started: seq<string>
    ghost var delivered: seq<Option<Event>>
    ghost var fed: seq<string>
    ghost var flushes: seq<string>

    ghost predicate Valid()
      reads this, accumulator
    {
      accumulator.Valid() && phraseCount == |started|
    }

    ghost function Setup(): Config
    {
      Config(accumulator.chars, accumulator.limits, backend)
    }

    ghost function View(): Coord
      reads this, accumulator, envelope
    {
      Coord(accumulator.View(), envelope.View(), done, cancelled, draining, pendingPhrases, output, ready, task,
            started, delivered, fed, flushes)
    }

    /** The invariant of the progressive interface, on which its laws rest. */
    ghost predicate Sound()
      reads this, accumulator, envelope
    {
      Valid() && CoordInv(Setup(), View())
    }

    constructor (chars: Chars, limits: Limits, backend: Backend)
      requires limits.Valid()
      ensures Valid() && Sound() && View() == START && Setup() == Config(chars, limits, backend)
      ensures fresh(accumulator) && fresh(envelope)
    {
      this.backend := backend;
      accumulator := new P.PhraseAccumulator(chars, limits);
      envelope := new AudioEnvelope();
      done, cancelled, draining, phraseCount := false, false, false, 0;
      output, pendingPhrases, ready, task := [], [], false, Unstarted;
      started, delivered, fed, flushes := [], [], [], [];
      new;
      StartInv(Setup());
    }

    // ---------------------------------------------------------- the sequential interface

    /** `stream`: every phrase of `text` in turn. */
    method Stream(text: string) returns (r: Streamed)
      requires Valid()
      modifies this, accumulator, envelope
      ensures Valid()
      ensures old(task) != Unstarted ==> r == Refused && View() == old(View())
      ensures old(task) == Unstarted ==>
        var (a, phrases) := ParseWhole(accumulator.chars, accumulator.limits, old(accumulator.View()), text);
        var e := old(envelope.View());
        var (end, taken) := if phrases == [] then (e, 0) else StreamEnd(backend, e, old(phraseCount), phrases);
        && r == Yielded(if phrases == [] then [] else OutputFrom(false, backend, e, old(phraseCount), phrases),
                        e.closed && phrases != [])
        && View() == old(View()).(acc := a, env := end, done := true, loop := Finished,
                                  started := old(started) + phrases[..taken])
    {
      if task != Unstarted {
        return Refused;
      }
      task := Finished;
      done := true;
      var phrases := Parse(text);
      var events, raised := SpeakAny(phrases);
      return Yielded(events, raised);
    }

    /** Nothing at all for a text without phrases. */
    method SpeakAny(phrases: seq<string>) returns (events: seq<Event>, raised: bool)
      requires phraseCount == |started|
      modifies this`phraseCount, this`started, envelope
      ensures var e := old(envelope.View());
        && events == (if phrases == [] then [] else OutputFrom(false, backend, e, old(phraseCount), phrases))
        && (raised <==> e.closed && phrases != [])
        && phraseCount == |started|
        && var (end, taken) := if phrases == [] then (e, 0) else StreamEnd(backend, e, old(phraseCount), phrases);
           envelope.View() == end && started == old(started) + phrases[..taken]
    {
      if phrases == [] {
        assert started + phrases[..0] == started;
        return [], false;
      }
      events, raised := SpeakAll(phrases);
    }

    /** All phrases of a whole text. */
    method Parse(text: string) returns (phrases: seq<string>)
      requires Valid()
      modifies accumulator
      ensures Valid()
      ensures (accumulator.View(), phrases)
        == ParseWhole(accumulator.chars, accumulator.limits, old(accumulator.View()), text)
    {
      phrases := accumulator.FeedChunk(text);
      var residual := accumulator.FlushResidual();
      AppendNone(phrases);
      if residual.Some? {
        phrases := phrases + [residual.value];
      }
    }

    method SpeakAll(phrases: seq<string>) returns (events: seq<Event>, raised: bool)
      requires phraseCount == |started|
      modifies this`phraseCount, this`started, envelope
      ensures events == OutputFrom(false, backend, old(envelope.View()), old(phraseCount), phrases)
      ensures raised <==> old(envelope.closed)
      ensures phraseCount == |started|
      ensures var (end, taken) := StreamEnd(backend, old(envelope.View()), old(phraseCount), phrases);
        envelope.View() == end && started == old(started) + phrases[..taken]
    {
      events := [];
      ghost var whole := OutputFrom(false, backend, envelope.View(), phraseCount, phrases);
      ghost var end := StreamEnd(backend, envelope.View(), phraseCount, phrases);
      var k := 0;
      OwesAll(backend, envelope.View(), phraseCount, phrases, started);
      while k < |phrases|
        invariant k <= |phrases| && phraseCount == |started| && envelope.closed == old(envelope.closed)
        invariant started == old(started) + phrases[..k]
        invariant Owes(backend, envelope.View(), phraseCount, phrases, k, events, whole, end)
      {
        TakeOne(old(started), phrases, k);
        OwesNext(backend, envelope.View(), phraseCount, phrases, k, events, whole, end);
        var speech := TakePhrase(phrases[k]);
        if speech.Broken? {
          var failure, twice := Abort();
          return events + failure, twice;
        }
        events := events + speech.events;
        k := k + 1;
      }
      OwesClosing(backend, envelope.View(), phraseCount, phrases, events, whole, end);
      var closing := envelope.Shut(true);
      return events + ClosingEvents(closing), closing.ClosedTwice?;
    }

    /** Count one phrase and run it. */
    method TakePhrase(phrase: string) returns (speech: Speech)
      modifies this`phraseCount, this`started, envelope
      ensures phraseCount == old(phraseCount) + 1 && started == old(started) + [phrase]
      ensures (envelope.View(), speech) == Spoken(old(envelope.View()), backend(old(phraseCount), phrase))
      ensures envelope.closed == old(envelope.closed)
    {
      phraseCount := phraseCount + 1;
      started := started + [phrase];
      SpokenKeepsClosed(envelope.View(), backend(phraseCount - 1, phrase));
      speech := Speak(backend(phraseCount - 1, phrase));
    }

    /** The operation of one phrase: its normalised events, or the failure of it or of `run`. */
    method Speak(reply: Reply) returns (r: Speech)
      modifies envelope
      ensures (envelope.View(), r) == Spoken(old(envelope.View()), reply)
    {
      if reply.Fails? {
        return Broken([]);
      }
      var out := envelope.Process(reply.events);
      if out.Err? {
        return Broken([]);
      }
      return if reply.Produces? then Uttered(out.value) else Broken(out.value);
    }

    /** Close the envelope after a failed phrase; `twice` if it was closed already, which raises. */
    method Abort() returns (events: seq<Event>, twice: bool)
      modifies envelope
      ensures events == FailureEvents(old(envelope.View())) && (twice <==> old(envelope.closed))
      ensures envelope.View() == Close(old(envelope.View()), false).0
    {
      var closing := envelope.Shut(false);
      return ClosingEvents(closing), closing.ClosedTwice?;
    }

    // ---------------------------------------------------------- feeding

    method FeedChunk(chunk: string)
      requires Valid()
      modifies this, accumulator
      ensures Valid() && View() == FeedText(Setup(), old(View()), chunk)
      ensures old(Sound()) ==> Sound()
    {
      KeepsInv(Setup(), View(), FeedTextAct(chunk));
      if done || cancelled || draining {
        return;
      }
      var newPhrases := accumulator.FeedChunk(chunk);
      fed := fed + [chunk];
      if newPhrases != [] {
        pendingPhrases := pendingPhrases + newPhrases;
        ready := true;
      } else {
        AppendNone(pendingPhrases);
      }
    }

    method NoMoreText()
      requires Valid()
      modifies this, accumulator
      ensures Valid() && View() == FeedDone(Setup(), old(View()))
      ensures old(Sound()) ==> Sound()
    {
      KeepsInv(Setup(), View(), FeedDoneAct);
      if done || cancelled {
        return;
      }
      done := true;
      var residual := accumulator.FlushResidual();
      if residual.Some? {
        pendingPhrases := pendingPhrases + [residual.value];
        flushes := flushes + [residual.value];
      } else {
        AppendNone(pendingPhrases);
        AppendNone(flushes);
      }
      ready := true;
    }

    method Drain()
      requires Valid()
      modifies this`draining, this`pendingPhrases
      ensures Valid() && View() == DrainCoord(old(View()))
      ensures old(Sound()) ==> Sound()
    {
      KeepsInv(Setup(), View(), DrainCoordAct);
      draining := true;
      pendingPhrases := [];
    }

    // ---------------------------------------------------------- the consumer

    /** `__anext__`, once the queue holds an item; None is StopAsyncIteration. */
    method Take() returns (item: Option<Event>)
      requires Valid() && output != []
      modifies this`output, this`delivered
      ensures Valid() && View() == Get(old(View())) && item == old(output[0])
      ensures old(Sound()) ==> Sound()
    {
      KeepsInv(Setup(), View(), GetAct);
      item := output[0];
      output := output[1..];
      delivered := delivered + [item];
    }

    // ---------------------------------------------------------- cancellation

    method BeginCancel()
      requires Valid()
      modifies this`cancelled, this`pendingPhrases, this`ready
      ensures Valid() && View() == CancelBegin(old(View()))
      ensures old(Sound()) ==> Sound()
    {
      KeepsInv(Setup(), View(), CancelBeginAct);
      cancelled := true;
      pendingPhrases := [];
      ready := true;
    }

    /** The background task's CancelledError handler. */
    method TaskCancelled()
      requires Valid() && task != Unstarted && task != Finished
      modifies this`cancelled, this`task, envelope
      ensures Valid() && View() == LoopKilled(old(View()))
      ensures old(Sound()) ==> Sound()
    {
      KeepsInv(Setup(), View(), LoopKilledAct);
      if !cancelled {
        cancelled := true;
      }
      var ignored := envelope.Shut(false);
      task := Finished;
    }

    /** The rest of `cancel`: best-effort close, empty the queue, unblock the consumer. */
    method EndCancel()
      requires Valid() && cancelled && (task == Unstarted || task == Finished)
      modifies this`output, envelope
      ensures Valid() && View() == CancelFinish(old(View()))
      ensures old(Sound()) ==> Sound()
    {
      KeepsInv(Setup(), View(), CancelFinishAct);
      var ignored := envelope.Shut(false);
      while output != []
        modifies this`output
        decreases |output|
      {
        output := output[1..];
      }
      output := output + [None];
    }

    // ---------------------------------------------------------- the background task

    /** Run the background task to its next suspension. */
    method Advance()
      requires Valid() && LoopEnabled(View())
      modifies this`task, this`output, this`ready, this`phraseCount, this`pendingPhrases, this`started, envelope
      ensures Valid() && View() == LoopStep(Setup(), old(View()))
      ensures old(Sound()) ==> Sound()
    {
      KeepsInv(Setup(), View(), LoopAct);
      match task {
        case Unstarted => task := Checking;
        case Checking => LookForWork();
        case Parked => task := Checking;
        case Running(phrase) => PhraseReturned(phrase);
        case Putting(items, next) => PutNext(items, next);
        case Finished =>
      }
    }

    /** One item into the queue, or on with what comes after the last. */
    method PutNext(items: seq<Option<Event>>, next: Onwards)
      requires Valid() && task == Putting(items, next) && LoopEnabled(View())
      modifies this`task, this`output, envelope
      ensures Valid() && View() == LoopStep(Setup(), old(View()))
    {
      if items != [] {
        output := output + [items[0]];
        task := Putting(items[1..], next);
      } else {
        match next {
          case GoOn => task := Checking;
          case Handle => RunRaised();
          case End => task := Finished;
        }
      }
    }

    method LookForWork()
      requires Valid() && task == Checking
      modifies this`task, this`ready, this`phraseCount, this`pendingPhrases, this`started, envelope
      ensures Valid() && View() == Check(old(View()))
    {
      if cancelled {
        task := Finished;
        return;
      }
      if pendingPhrases == [] {
        if done {
          if phraseCount > 0 {
            var closing := envelope.Shut(true);
            task := Putting(Items(ClosingEvents(closing)) + [None], End);
          } else {
            task := Putting([None], End);
          }
          return;
        }
        ready := false;
        task := Parked;
        return;
      }
      var phraseText := pendingPhrases[0];
      pendingPhrases := pendingPhrases[1..];
      phraseCount := phraseCount + 1;
      started := started + [phraseText];
      task := Running(phraseText);
    }

    /** The operation of the current phrase is done or has failed. */
    method PhraseReturned(phrase: string)
      requires Valid() && task == Running(phrase) && phraseCount > 0
      modifies this`task, envelope
      ensures Valid() && View() == Answer(Setup(), old(View()), phrase)
    {
      var speech := Speak(backend(phraseCount - 1, phrase));
      match speech {
        case Uttered(events) => task := Putting(Items(events), GoOn);
        case Broken(shown) =>
          if shown != [] {
            task := Putting(Items(shown), Handle);
          } else {
            RunRaised();
          }
      }
    }

    /** The loop's handler of what `run` raised. */
    method RunRaised()
      requires Valid()
      modifies this`task, envelope
      ensures Valid() && View() == HandleFailure(old(View()))
    {
      if cancelled {
        task := Checking;
        return;
      }
      var failure, _ := Abort();
      task := Putting(Items(failure) + [None], End);
    }
  }

  /** The laws, of the object: what its consumer has, what its queue holds, and when its loop sleeps. */
  lemma SoundDelivers(o: StreamingCoordinator)
    requires o.Sound()
    ensures Events(o.delivered) <= LoopOutput(o.backend, o.started) && |o.output| <= 1
    ensures !o.cancelled && o.task.Finished? ==>
      o.delivered + o.output == Items(LoopOutput(o.backend, o.started + o.pendingPhrases)) + [None]
    ensures o.task.Parked? && !o.ready ==> o.pendingPhrases == [] && !o.done && !o.cancelled
  {
    CoordinatorLaws.InvDelivers(o.Setup(), o.View());
  }

  lemma KeepsInv(c: Config, s: Coord, act: CoordAct)
    requires c.limits.Valid() && Possible(s, act)
    ensures CoordInv(c, s) ==> CoordInv(c, Next(c, s, act))
  {
    if CoordInv(c, s) {
      CoordStepInv(c, s, act);
    }
  }

  /** With `k` phrases taken and `events` yielded, what is left to do makes up `whole` and ends as `end`. */
  ghost predicate Owes(backend: Backend, e: Env, n: nat, phrases: seq<string>, k: nat, events: seq<Event>,
                       whole: seq<Event>, end: (Env, nat))
    requires k <= |phrases|
  {
    && events + OutputFrom(false, backend, e, n, phrases[k..]) == whole
    && var (e', taken) := StreamEnd(backend, e, n, phrases[k..]); (e', taken + k) == end
  }

  lemma OwesAll(backend: Backend, e: Env, n: nat, phrases: seq<string>, before: seq<string>)
    ensures Owes(backend, e, n, phrases, 0, [], OutputFrom(false, backend, e, n, phrases),
                 StreamEnd(backend, e, n, phrases))
    ensures before + phrases[..0] == before
  {
    assert phrases[0..] == phrases;
    AppendNone(OutputFrom(false, backend, e, n, phrases));
  }

  lemma TakeOne(before: seq<string>, phrases: seq<string>, k: nat)
    requires k < |phrases|
    ensures before + phrases[..k] + [phrases[k]] == before + phrases[..k + 1]
  {
  }

  lemma OwesClosing(backend: Backend, e: Env, n: nat, phrases: seq<string>, events: seq<Event>,
                    whole: seq<Event>, end: (Env, nat))
    requires Owes(backend, e, n, phrases, |phrases|, events, whole, end)
    ensures events + ClosingEvents(Close(e, true).1) == whole && end == (Close(e, true).0, |phrases|)
    ensures phrases[..|phrases|] == phrases
  {
    assert phrases[|phrases|..] == [];
  }

  lemma OwesNext(backend: Backend, e: Env, n: nat, phrases: seq<string>, k: nat, events: seq<Event>,
                 whole: seq<Event>, end: (Env, nat))
    requires k < |phrases| && Owes(backend, e, n, phrases, k, events, whole, end)
    ensures var (e', speech) := Spoken(e, backend(n, phrases[k]));
      if speech.Uttered? then Owes(backend, e', n + 1, phrases, k + 1, events + speech.events, whole, end)
      else events + FailureEvents(e') == whole && end == (Close(e', false).0, k + 1)
  {
    assert phrases[k..][0] == phrases[k] && phrases[k..][1..] == phrases[k + 1..];
    var (e', speech) := Spoken(e, backend(n, phrases[k]));
    if speech.Uttered? {
      AppendAssoc(events, speech.events, OutputFrom(false, backend, e', n + 1, phrases[k + 1..]));
    } else {
      AppendNone(FailureEvents(e'));
    }
  }
}

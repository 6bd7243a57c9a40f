/** `CumulativeCounters` (app/counters.py). */
module Counters {
  import opened SchedulerModel

  class CumulativeCounters {
    var admitted: nat
    var rejected: nat
    var completed: nat
    var cancelledQueued: nat
    var cancelledActive: nat
    var timedOut: nat
    var failed: nat

    function View(): Ledger
      reads this
    {
      Ledger(admitted, rejected, completed, cancelledQueued, cancelledActive, timedOut, failed)
    }

    constructor ()
      ensures View() == Ledger(0, 0, 0, 0, 0, 0, 0)
    {
      admitted, rejected, completed, cancelledQueued, cancelledActive, timedOut, failed := 0, 0, 0, 0, 0, 0, 0;
    }

    method RecordAdmitted()
      modifies this
      ensures View() == old(View()).(admitted := old(admitted) + 1)
    {
      admitted := admitted + 1;
    }

    method RecordRejected()
      modifies this
      ensures View() == old(View()).(rejected := old(rejected) + 1)
    {
      rejected := rejected + 1;
    }

    method RecordOutcome(reason: Reason)
      modifies this
      ensures View() == RecordTerminal(old(View()), reason)
    {
      if reason == CompletedOk {
        completed := completed + 1;
      } else if reason == CancelledWhileWaiting || reason == DrainCancelled {
        cancelledQueued := cancelledQueued + 1;
      } else if reason == CancelledWhileActive {
        cancelledActive := cancelledActive + 1;
      } else if reason == QueueWaitTimeout || reason == SynthesisTimeout {
        timedOut := timedOut + 1;
      } else if reason == OperationFailed {
        failed := failed + 1;
      }
    }
  }
}

/**
 * `SpeechScheduler` (app/speech/scheduler.py), one method per critical
 * section. Entries and their futures are kept by admission number.
 */
module Scheduler {
  import opened Common
  import opened SchedulerModel
  import opened SchedulerSafety
  import opened Counters

  lemma SetTwice(runs: seq<Run>, i: nat, r: Run, r': Run)
    requires i < |runs|
    ensures runs[i := r][i := r'] == runs[i := r']
  {
  }

  /** The scan for a waiter, one further. */
  lemma WithoutNext(ws: seq<nat>, id: nat, j: nat)
    requires j < |ws|
    ensures ws[..j] + Without(ws[j..], id)
      == if ws[j] == id then ws[..j] + ws[j + 1..] else ws[..j + 1] + Without(ws[j + 1..], id)
  {
    assert ws[j..][1..] == ws[j + 1..] && ws[..j + 1] == ws[..j] + [ws[j]];
    AppendAssoc(ws[..j], [ws[j]], Without(ws[j + 1..], id));
  }

  /** The scan of the waiters, one further. */
  lemma KeptNext(runs: seq<Run>, ws: seq<nat>, conn: string, k: nat, keep: seq<nat>)
    requires k < |ws| && ws[k] < |runs|
    ensures keep + Kept(runs, ws[k..], conn)
      == (if runs[ws[k]].conn == conn then keep else keep + [ws[k]]) + Kept(runs, ws[k + 1..], conn)
  {
    assert ws[k..][1..] == ws[k + 1..];
    AppendAssoc(keep, [ws[k]], Kept(runs, ws[k + 1..], conn));
  }

  /** The futures of the waiters `ws` of connection `conn` are cancelled, the other runs as before. */
  ghost predicate Hit(before: seq<Run>, now: seq<Run>, ws: seq<nat>, conn: string) {
    && |now| == |before|
    && forall i :: 0 <= i < |now| ==>
        now[i] == if i in ws && before[i].conn == conn then CancelWaiter(before[i]) else before[i]
  }

  lemma HitNext(before: seq<Run>, now: seq<Run>, ws: seq<nat>, conn: string, k: nat)
    requires k < |ws| && ws[k] < |before| && Hit(before, now, ws[..k], conn)
    ensures var w := ws[k];
      && now[w].conn == before[w].conn
      && Hit(before, if now[w].conn == conn then now[w := CancelWaiter(now[w])] else now, ws[..k + 1], conn)
  {
    assert ws[..k + 1] == ws[..k] + [ws[k]];
  }

  function Marked(r: Run): Run {
    if r.reason.None? then r.(reason := Some(DrainCancelled)) else r
  }

  datatype Admission = QueueFull | Acquired(id: nat) | Queued(id: nat)

  class SpeechScheduler {
    const maxSize: nat
    const counters: CumulativeCounters?
    var runs: seq<Run>
    var active: Option<nat>
    var activeTask: Option<nat>
    var waiters: seq<nat>
    var depth: int
    var pending: int
    var draining: bool
    var activeComplete: bool
    var drainRemaining: int
    var drainDone: bool
    var quiescent: bool
    ghost var calls: nat
    ghost var activations: seq<nat>
    ghost var lost: nat

    /** The counters, if there are any. */
    ghost function Books(): Ledger
      reads this, counters
    {
      if counters == null then Ledger(0, 0, 0, 0, 0, 0, 0) else counters.View()
    }

    ghost function View(): Sched
      reads this, counters
    {
      Sched(maxSize, counters != null, runs, active, activeTask, waiters, depth, pending, draining, activeComplete,
            drainRemaining, drainDone, quiescent, Books(), calls, activations, lost)
    }

    /** The scheduler's invariant: everything SchedulerLaws draws from it holds of the object. */
    ghost predicate Valid()
      reads this, counters
    {
      Inv(View())
    }

    ghost predicate InRange()
      reads this
    {
      forall k :: 0 <= k < |waiters| ==> waiters[k] < |runs|
    }

    lemma WaitersInRange()
      requires Valid()
      ensures InRange()
    {
      OrderParts(activations, waiters, |runs|);
      assert forall k :: 0 <= k < |waiters| ==> waiters[k] in waiters;
    }

    constructor (maxSize: nat, counters: CumulativeCounters?)
      ensures this.maxSize == maxSize && this.counters == counters
      ensures View() == Initial(maxSize, counters != null).(ledger := Books())
    {
      this.maxSize, this.counters := maxSize, counters;
      runs, active, activeTask, waiters, depth, pending := [], None, None, [], 0, 0;
      draining, activeComplete, drainRemaining, drainDone, quiescent := false, true, 0, true, true;
      calls, activations, lost := 0, [], 0;
    }

    /** The ValueError for a non-positive size is null. */
    static method Create(maxSize: int, counters: CumulativeCounters?) returns (s: SpeechScheduler?)
      ensures s != null <==> maxSize > 0
      ensures s != null ==>
        && fresh(s) && s.maxSize == maxSize && s.counters == counters
        && s.View() == Initial(maxSize, counters != null).(ledger := s.Books())
        && s.Books() == old(if counters == null then Ledger(0, 0, 0, 0, 0, 0, 0) else counters.View())
        && (s.Books() == Ledger(0, 0, 0, 0, 0, 0, 0) ==> s.Valid())
    {
      if maxSize <= 0 {
        return null;
      }
      s := new SpeechScheduler(maxSize, counters);
      InitialInv(maxSize, counters != null);
    }

    // ---------------------------------------------------------- run: admission

    method Refuse()
      modifies this`calls, counters
      ensures View() == Reject(old(View()))
    {
      calls := calls + 1;
      if counters != null {
        counters.RecordRejected();
      }
    }

    method CountIn()
      modifies this`depth, this`pending, this`quiescent, this`calls, counters
      ensures View() == CountedIn(old(View()))
    {
      calls := calls + 1;
      var wasQuiescent := depth == 0;
      depth := depth + 1;
      pending := pending + 1;
      if wasQuiescent {
        quiescent := false;
      }
      if counters != null {
        counters.RecordAdmitted();
      }
    }

    /** The admission section. */
    method Enter(conn: string, synth: string) returns (r: Admission)
      requires Valid()
      modifies this, counters
      ensures Valid() && View() == Admit(old(View()), conn, synth)
      ensures r.QueueFull? <==> old(draining) || old(depth) >= maxSize
      ensures !r.QueueFull? ==> r.id == old(|runs|) && (r.Acquired? <==> old(active).None?)
    {
      StepInv(View(), AdmitAct(conn, synth));
      r := EnterLocked(conn, synth);
    }

    method EnterLocked(conn: string, synth: string) returns (r: Admission)
      modifies this, counters
      ensures View() == Admit(old(View()), conn, synth)
      ensures r.QueueFull? <==> old(draining) || old(depth) >= maxSize
      ensures !r.QueueFull? ==> r.id == old(|runs|) && (r.Acquired? <==> old(active).None?)
    {
      if draining || depth >= maxSize {
        Refuse();
        return QueueFull;
      }
      CountIn();
      if active.None? {
        r := Activate(conn, synth);
      } else {
        r := Enqueue(conn, synth);
      }
    }

    /** The first worker becomes active at once. */
    method Activate(conn: string, synth: string) returns (r: Admission)
      modifies this`runs, this`active, this`activeTask, this`activeComplete, this`activations
      ensures View() == Activated(old(View()), conn, synth) && r == Acquired(old(|runs|))
    {
      var id := |runs|;
      runs := runs + [Run(conn, synth, Operating, NoFuture, NoInterrupt, ACTIVE, None, false)];
      active, activeTask, activeComplete := Some(id), Some(id), false;
      activations := activations + [id];
      return Acquired(id);
    }

    method Enqueue(conn: string, synth: string) returns (r: Admission)
      modifies this`runs, this`waiters
      ensures View() == Enqueued(old(View()), conn, synth) && r == Queued(old(|runs|))
    {
      r := Queued(|runs|);
      waiters := waiters + [|runs|];
      runs := runs + [Run(conn, synth, AtWait, Pending, NoInterrupt, WAITING, None, false)];
    }

    // ---------------------------------------------------------- run: waking

    method Wake(id: nat)
      requires Valid() && Enabled(View(), ResumeAct(id))
      modifies this
      ensures Valid() && View() == Resume(old(View()), id)
    {
      StepInv(View(), ResumeAct(id));
      TakeOver(id);
    }

    /** Usually only the task is new; a waiter that is not the active entry becomes it. */
    method TakeOver(id: nat)
      requires id < |runs|
      modifies this`active, this`activeTask, this`runs, this`activations
      ensures runs == old(runs)[id := if old(active) == Some(id) then old(runs[id]).(place := Operating)
                                      else old(runs[id]).(place := Operating, state := ACTIVE)]
      ensures active == activeTask == Some(id)
      ensures activations == if old(active) == Some(id) then old(activations) else old(activations) + [id]
    {
      if active == Some(id) {
        activeTask := Some(id);
      } else {
        SetTwice(runs, id, runs[id].(state := ACTIVE), runs[id].(place := Operating, state := ACTIVE));
        runs := runs[id := runs[id].(state := ACTIVE)];
        active, activeTask := Some(id), Some(id);
        activations := activations + [id];
      }
      runs := runs[id := runs[id].(place := Operating)];
    }

    /** The event loop times a waiting task out or cancels it from outside. */
    method Interrupted(id: nat, how: Interrupt)
      requires Valid() && Enabled(View(), InterruptAct(id, how))
      modifies this`runs
      ensures Valid() && View() == old(View()).(runs := old(runs)[id := InterruptRun(old(runs[id]), how)])
    {
      StepInv(View(), InterruptAct(id, how));
      runs := runs[id := InterruptRun(runs[id], how)];
    }

    /** Remove the waiter whose future is ours, if it is still queued. */
    method Unqueue(id: nat)
      modifies this`waiters
      ensures waiters == Without(old(waiters), id)
    {
      var j := 0;
      assert waiters[..0] == [] && waiters[0..] == waiters;
      while j < |waiters|
        invariant j <= |waiters| && waiters == old(waiters)
        invariant waiters[..j] + Without(waiters[j..], id) == Without(waiters, id)
      {
        WithoutNext(waiters, id, j);
        if waiters[j] == id {
          waiters := waiters[..j] + waiters[j + 1..];
          return;
        }
        j := j + 1;
      }
      assert waiters[..j] == waiters;
    }

    method LeaveQueue(id: nat)
      modifies this`pending, this`depth, this`waiters
      ensures pending == old(pending) - 1 && depth == old(depth) - 1
      ensures waiters == Without(old(waiters), id)
    {
      CountOut();
      Unqueue(id);
    }

    method CountOut()
      modifies this`pending, this`depth
      ensures pending == old(pending) - 1 && depth == old(depth) - 1
    {
      pending := pending - 1;
      depth := depth - 1;
    }

    /** `_record_terminal_once`. */
    method RecordTerminalOnce(id: nat)
      requires id < |runs|
      modifies this`runs, counters
      ensures runs == old(runs)[id := old(runs[id]).(counted := true)]
      ensures var r := old(runs[id]);
        Books() == if r.reason.Some? then Counted(counters != null, old(Books()), r, r.reason.value) else old(Books())
    {
      var entry := runs[id];
      runs := runs[id := entry.(counted := true)];
      if entry.counted || counters == null || entry.reason.None? {
        return;
      }
      counters.RecordOutcome(entry.reason.value);
    }

    /** `_signal_drain_done`. */
    method SignalDrainDone(id: nat)
      requires id < |runs|
      modifies this`drainRemaining, this`drainDone
      ensures var signalled := runs[id].reason == Some(DrainCancelled) && old(drainRemaining) > 0;
        && drainRemaining == (if signalled then old(drainRemaining) - 1 else old(drainRemaining))
        && drainDone == (if signalled && old(drainRemaining) == 1 then true else old(drainDone))
    {
      if runs[id].reason == Some(DrainCancelled) && drainRemaining > 0 {
        drainRemaining := drainRemaining - 1;
        if drainRemaining == 0 {
          drainDone := true;
        }
      }
    }

    /** Store the finished entry and count it. */
    method Record(id: nat, entry: Run)
      requires id < |runs| && entry.reason.Some?
      modifies this`runs, counters
      ensures runs == old(runs)[id := entry.(counted := true)]
      ensures Books() == Counted(counters != null, old(Books()), entry, entry.reason.value)
    {
      SetTwice(runs, id, entry, entry.(counted := true));
      runs := runs[id := entry];
      RecordTerminalOnce(id);
    }

    /** The part the two handlers of the wait share. */
    method Depart(id: nat, entry: Run)
      requires id < |runs| && entry.reason.Some?
      modifies this`runs, this`drainRemaining, this`drainDone, this`quiescent, this`lost, counters
      ensures runs == old(runs)[id := entry.(counted := true)]
      ensures Books() == Counted(counters != null, old(Books()), entry, entry.reason.value)
      ensures var signalled := entry.reason == Some(DrainCancelled) && old(drainRemaining) > 0;
        && drainRemaining == (if signalled then old(drainRemaining) - 1 else old(drainRemaining))
        && drainDone == (if signalled && old(drainRemaining) == 1 then true else old(drainDone))
      ensures quiescent == if depth == 0 then true else old(quiescent)
      ensures lost == if old(runs[id]).reason == Some(DrainCancelled) && entry.reason != Some(DrainCancelled)
                      then old(lost) + 1 else old(lost)
    {
      if runs[id].reason == Some(DrainCancelled) && entry.reason != Some(DrainCancelled) {
        lost := lost + 1;
      }
      Record(id, entry);
      SignalDrainDone(id);
      if depth == 0 {
        quiescent := true;
      }
    }

    /** The TimeoutError handler of the wait. */
    method WaitTimedOut(id: nat)
      requires Valid() && Enabled(View(), TimeoutAct(id))
      modifies this, counters
      ensures Valid() && View() == LeaveTimedOut(old(View()), id)
    {
      StepInv(View(), TimeoutAct(id));
      WaitTimedOutLocked(id);
    }

    method WaitTimedOutLocked(id: nat)
      requires id < |runs|
      modifies this, counters
      ensures View() == LeaveTimedOut(old(View()), id)
    {
      LeaveQueue(id);
      var entry := runs[id].(place := Gone, state := TIMED_OUT, reason := Some(QueueWaitTimeout));
      Depart(id, entry);
    }

    /** The CancelledError handler of the wait. */
    method WaitCancelled(id: nat)
      requires Valid() && Enabled(View(), CancelledAct(id))
      modifies this, counters
      ensures Valid() && View() == LeaveCancelled(old(View()), id)
    {
      StepInv(View(), CancelledAct(id));
      assert RunOk(runs[id], active == Some(id), id in waiters);
      WaitCancelledLocked(id);
    }

    method WaitCancelledLocked(id: nat)
      requires id < |runs| && (runs[id].reason.Some? ==> StateOf(runs[id].reason.value) == CANCELLED)
      modifies this, counters
      ensures View() == LeaveCancelled(old(View()), id)
    {
      LeaveQueue(id);
      var entry := runs[id].(place := Gone, state := CANCELLED);
      if entry.reason.None? {
        entry := entry.(reason := Some(CancelledWhileWaiting));
      }
      Depart(id, entry);
    }

    // ---------------------------------------------------------- run: the operation ended

    /** From the operation's outcome to the end of the finally block; `raised` if the handoff met a settled future. */
    method OperationEnded(id: nat, how: How) returns (raised: bool)
      requires Valid() && Enabled(View(), FinishAct(id, how))
      modifies this, counters
      ensures Valid() && View() == Finish(old(View()), id, how)
      ensures raised <==> HandoffFails(old(View()))
    {
      StepInv(View(), FinishAct(id, how));
      raised := OperationEndedLocked(id, how);
    }

    method OperationEndedLocked(id: nat, how: How) returns (raised: bool)
      requires Enabled(View(), FinishAct(id, how))
      modifies this, counters
      ensures View() == Finish(old(View()), id, how)
      ensures raised <==> HandoffFails(old(View()))
    {
      var wasActive := Conclude(id, how);
      raised := HandOver(wasActive);
    }

    method Conclude(id: nat, how: How) returns (wasActive: bool)
      requires id < |runs|
      modifies this, counters
      ensures View() == Concluded(old(View()), id, how)
      ensures wasActive <==> old(active) == Some(id)
    {
      CountOut();
      Settle(id, how);
      wasActive := Release(id);
    }

    method Release(id: nat) returns (wasActive: bool)
      modifies this`active, this`activeTask
      ensures wasActive <==> old(active) == Some(id)
      ensures active == (if wasActive then None else old(active))
      ensures activeTask == (if wasActive then None else old(activeTask))
    {
      wasActive := active == Some(id);
      if wasActive {
        active, activeTask := None, None;
      }
    }

    /** The entry's outcome, counted once. */
    method Settle(id: nat, how: How)
      requires id < |runs|
      modifies this`runs, counters
      ensures runs == old(runs)[id := Ended(old(runs[id]), how)]
      ensures Books() == EndLedger(counters != null, old(Books()), old(runs[id]), how)
    {
      var entry := runs[id];
      if entry.state == ACTIVE {
        entry := entry.(state := StateOf(ReasonOf(how)), reason := Some(ReasonOf(how)));
      }
      entry := entry.(place := Gone);
      SetTwice(runs, id, entry, entry.(counted := true));
      runs := runs[id := entry];
      RecordTerminalOnce(id);
    }

    /** Activate the oldest waiter, or signal completion, and then quiescence unless `set_result` raised. */
    method HandOver(wasActive: bool) returns (raised: bool)
      requires waiters != [] ==> waiters[0] < |runs|
      modifies this
      ensures View() == PassedOn(old(View()), wasActive)
      ensures raised <==> HandoffFails(old(View()))
    {
      raised := false;
      if waiters != [] {
        raised := PassOn();
        if raised {
          return;
        }
      } else if wasActive {
        activeComplete := true;
      }
      if depth == 0 {
        quiescent := true;
      }
    }

    method PassOn() returns (raised: bool)
      requires waiters != [] && waiters[0] < |runs|
      modifies this`waiters, this`active, this`activeTask, this`activations, this`runs
      ensures raised <==> old(runs[waiters[0]]).future != Pending
      ensures waiters == old(waiters)[1..] && active == Some(old(waiters[0])) && activeTask == None
      ensures activations == old(activations) + [old(waiters[0])]
      ensures runs == old(runs)[old(waiters[0]) := HandedOver(old(runs[waiters[0]]))]
    {
      var next := waiters[0];
      waiters := waiters[1..];
      active, activeTask := Some(next), None;
      activations := activations + [next];
      raised := runs[next].future != Pending;
      runs := runs[next := HandedOver(runs[next])];
    }

    // ---------------------------------------------------------- drain and cancellation

    method DrainQueue() returns (cancelled: nat)
      requires Valid()
      modifies this
      ensures Valid() && View() == Drain(old(View()))
      ensures cancelled == if old(draining) then 0 else old(|waiters|)
    {
      StepInv(View(), DrainAct);
      WaitersInRange();
      cancelled := DrainQueueLocked();
    }

    method DrainQueueLocked() returns (cancelled: nat)
      requires InRange()
      modifies this
      ensures View() == Drain(old(View()))
      ensures cancelled == if old(draining) then 0 else old(|waiters|)
    {
      if draining {
        return 0;
      }
      draining := true;
      var toCancel := waiters;
      MarkDrained(toCancel);
      waiters := [];
      cancelled := |toCancel|;
      if cancelled > 0 {
        drainRemaining := cancelled;
        drainDone := false;
      }
      CancelFutures(toCancel);
    }

    method MarkDrained(ids: seq<nat>)
      requires forall k :: 0 <= k < |ids| ==> ids[k] < |runs|
      modifies this`runs
      ensures |runs| == old(|runs|)
      ensures forall i :: 0 <= i < |runs| ==> runs[i] == if i in ids then Marked(old(runs[i])) else old(runs[i])
    {
      var k := 0;
      while k < |ids|
        invariant k <= |ids| && |runs| == old(|runs|)
        invariant forall i :: 0 <= i < |runs| ==>
          runs[i] == if i in ids[..k] then Marked(old(runs[i])) else old(runs[i])
      {
        assert ids[..k + 1] == ids[..k] + [ids[k]];
        if runs[ids[k]].reason.None? {
          runs := runs[ids[k] := runs[ids[k]].(reason := Some(DrainCancelled))];
        }
        k := k + 1;
      }
      assert ids[..k] == ids;
    }

    method CancelFutures(ids: seq<nat>)
      requires forall k :: 0 <= k < |ids| ==> ids[k] < |runs|
      modifies this`runs
      ensures |runs| == old(|runs|)
      ensures forall i :: 0 <= i < |runs| ==> runs[i] == if i in ids then CancelWaiter(old(runs[i])) else old(runs[i])
    {
      var k := 0;
      while k < |ids|
        invariant k <= |ids| && |runs| == old(|runs|)
        invariant forall i :: 0 <= i < |runs| ==>
          runs[i] == if i in ids[..k] then CancelWaiter(old(runs[i])) else old(runs[i])
      {
        assert ids[..k + 1] == ids[..k] + [ids[k]];
        runs := runs[ids[k] := CancelWaiter(runs[ids[k]])];
        k := k + 1;
      }
      assert ids[..k] == ids;
    }

    method CancelWaiting(conn: string) returns (cancelled: nat)
      requires Valid()
      modifies this
      ensures Valid() && View() == CancelConnection(old(View()), conn)
      ensures cancelled == old(|waiters|) - |waiters|
    {
      StepInv(View(), CancelConnectionAct(conn));
      WaitersInRange();
      cancelled := CancelWaitingLocked(conn);
    }

    method CancelWaitingLocked(conn: string) returns (cancelled: nat)
      requires InRange()
      modifies this
      ensures View() == CancelConnection(old(View()), conn)
      ensures cancelled == old(|waiters|) - |waiters|
    {
      var keep;
      keep, cancelled := CancelAndKeep(conn);
      waiters := keep;
    }

    method CancelAndKeep(conn: string) returns (keep: seq<nat>, cancelled: nat)
      requires InRange()
      modifies this`runs
      ensures cancelled + |keep| == |waiters|
      ensures keep == Kept(old(runs), waiters, conn)
      ensures Hit(old(runs), runs, waiters, conn)
    {
      keep, cancelled := [], 0;
      var k := 0;
      assert waiters[0..] == waiters && waiters[..0] == [];
      while k < |waiters|
        modifies this`runs
        invariant k <= |waiters| && cancelled + |keep| == k
        invariant keep + Kept(old(runs), waiters[k..], conn) == Kept(old(runs), waiters, conn)
        invariant Hit(old(runs), runs, waiters[..k], conn)
      {
        var w := waiters[k];
        HitNext(old(runs), runs, waiters, conn, k);
        KeptNext(old(runs), waiters, conn, k, keep);
        if runs[w].conn == conn {
          runs := runs[w := CancelWaiter(runs[w])];
          cancelled := cancelled + 1;
        } else {
          keep := keep + [w];
        }
        k := k + 1;
      }
      assert waiters[..k] == waiters && waiters[k..] == [];
    }

    method CancelSynthesis(synth: string) returns (hit: bool)
      requires Valid()
      modifies this
      ensures hit <==> MatchesSynthesis(old(View()), synth)
      ensures Valid() && View() == (if hit then CancelActiveTask(old(View())) else old(View()))
    {
      if active.Some? && active.value < |runs| && runs[active.value].synth == synth && activeTask.Some? {
        StepInv(View(), CancelSynthesisAct(synth));
        runs := runs[activeTask.value := runs[activeTask.value].(interrupt := TaskCancelled)];
        return true;
      }
      return false;
    }

    method CancelActiveForConnection(conn: string) returns (hit: bool)
      requires Valid()
      modifies this
      ensures hit <==> MatchesConnection(old(View()), conn)
      ensures Valid() && View() == (if hit then CancelActiveTask(old(View())) else old(View()))
    {
      if active.Some? && active.value < |runs| && runs[active.value].conn == conn && activeTask.Some? {
        StepInv(View(), CancelActiveAct(conn));
        runs := runs[activeTask.value := runs[activeTask.value].(interrupt := TaskCancelled)];
        return true;
      }
      return false;
    }
  }
}

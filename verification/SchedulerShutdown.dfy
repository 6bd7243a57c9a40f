/**
 * `SpeechScheduler.shutdown` (app/speech/scheduler.py): any number of callers
 * interleaved with every step of the scheduler.
 *
 * After drain no event a caller waits for is ever cleared again, so a caller
 * is modelled by what it waits for.
 */
module SchedulerShutdown {
  import opened Common
  import opened SchedulerModel
  import opened SchedulerSafety
  import opened SchedulerLaws

  datatype Caller =
    | WaitDrain(cancelled: nat)
    | WaitActive(cancelled: nat)
    | WaitTask(cancelled: nat, id: nat)
    | WaitQuiet(cancelled: nat, clean: bool)
    | Returned(cancelled: nat, clean: bool, foundActive: bool)
    | Raised

  datatype Sys = Sys(sched: Sched, callers: seq<Caller>)

  datatype SysAct =
    | SchedStep(act: Act)
    | CallShutdown           // drain, then wait for the drained waiters
    | DrainDone(i: nat)      // they are gone: look for an active entry
    | ActiveDone(i: nat)     // the active operation ended within the grace period
    | GraceOver(i: nat)      // it did not: cancel its task, if it has one
    | TaskEnded(i: nat, raises: bool)
    | Quiet(i: nat)

  predicate SysEnabled(y: Sys, a: SysAct) {
    match a
    case SchedStep(act) => Enabled(y.sched, act)
    case CallShutdown => true
    case DrainDone(i) => i < |y.callers| && y.callers[i].WaitDrain? && y.sched.drainDone
    case ActiveDone(i) => i < |y.callers| && y.callers[i].WaitActive? && y.sched.activeComplete
    case GraceOver(i) => i < |y.callers| && y.callers[i].WaitActive?
    case TaskEnded(i, _) =>
      i < |y.callers| && y.callers[i].WaitTask? && AtPlace(y.sched, y.callers[i].id, Gone)
    case Quiet(i) => i < |y.callers| && y.callers[i].WaitQuiet? && y.sched.quiescent
  }

  function Moved(y: Sys, i: nat, c: Caller): Sys
    requires i < |y.callers|
  {
    y.(callers := y.callers[i := c])
  }

  function SysApply(y: Sys, a: SysAct): Sys
    requires SysEnabled(y, a)
  {
    match a
    case SchedStep(act) => y.(sched := Apply(y.sched, act))
    case CallShutdown =>
      Sys(Drain(y.sched), y.callers + [WaitDrain(if y.sched.draining then 0 else |y.sched.waiters|)])
    case DrainDone(i) =>
      var n := y.callers[i].cancelled;
      Moved(y, i, if y.sched.active.None? then Returned(n, true, false) else WaitActive(n))
    case ActiveDone(i) => Moved(y, i, WaitQuiet(y.callers[i].cancelled, true))
    case GraceOver(i) =>
      var n := y.callers[i].cancelled;
      if y.sched.activeTask.Some? then
        Moved(Sys(CancelActiveTask(y.sched), y.callers), i, WaitTask(n, y.sched.activeTask.value))
      else Moved(y, i, WaitQuiet(n, false))
    case TaskEnded(i, raises) =>
      Moved(y, i, if raises then Raised else WaitQuiet(y.callers[i].cancelled, false))
    case Quiet(i) => Moved(y, i, Returned(y.callers[i].cancelled, y.callers[i].clean, true))
  }

  ghost predicate SysLeads(y: Sys, acts: seq<SysAct>, y': Sys)
    decreases |acts|
  {
    if acts == [] then y == y'
    else SysEnabled(y, acts[0]) && SysLeads(SysApply(y, acts[0]), acts[1..], y')
  }

  // ------------------------------------------------------------ draining is final

  /** Once draining, nothing is admitted: depth never rises, and the drain's own events are never undone. */
  lemma DrainingStable(s: Sched, act: Act)
    requires Inv(s) && Enabled(s, act) && s.draining
    ensures var s' := Apply(s, act);
      && s'.draining && |s'.runs| == |s.runs|
      && 0 <= s'.depth <= s.depth
      && (s.quiescent ==> s'.quiescent)
      && (s.drainDone ==> s'.drainDone)
      && (s.active.None? ==> s'.active.None?)
      && s'.lost >= s.lost
  {
    StepInv(s, act);
    if s.active.None? && act.FinishAct? {
      MutualExclusion(s, act.id, act.id);
    }
    if act.ResumeAct? {
      ResumeInv(s, act.id);
    }
  }

  /** A drained waiter that woke as a timeout never signals: the drain event stays cleared for good. */
  lemma LostForever(s: Sched, act: Act)
    requires Inv(s) && Enabled(s, act) && s.lost > 0
    ensures Apply(s, act).lost > 0 && !Apply(s, act).drainDone
  {
    StepInv(s, act);
  }

  /** The drain counter, once draining: what is left of the drained waiters, if no signal was lost. */
  lemma DrainAccount(s: Sched)
    requires Inv(s) && s.draining
    ensures s.lost == 0 ==> s.drainRemaining == Count(s.runs, DrainedWaiting)
    ensures s.drainDone <==> s.lost == 0 && forall i :: 0 <= i < |s.runs| ==> !DrainedWaiting(s.runs[i])
  {
    CountZero(s.runs, DrainedWaiting);
  }

  /** A signal is lost by exactly one step: a drained waiter waking as a timeout. */
  lemma LostExactly(s: Sched, act: Act)
    requires Enabled(s, act)
    ensures Apply(s, act).lost
      == s.lost + (if act.TimeoutAct? && s.runs[act.id].reason == Some(DrainCancelled) then 1 else 0)
  {
    match act
    case FinishAct(id, how) =>
    case CancelledAct(id) =>
    case _ =>
  }

  /** A drained waiter wakes as a timeout. */
  predicate LosesSignal(s: Sched, act: Act) {
    act.TimeoutAct? && act.id < |s.runs| && s.runs[act.id].reason == Some(DrainCancelled)
  }

  /** No step of the run does that. */
  ghost predicate KeepsSignals(y: Sys, acts: seq<SysAct>)
    decreases |acts|
  {
    acts == [] ||
    (&& SysEnabled(y, acts[0])
     && !(acts[0].SchedStep? && LosesSignal(y.sched, acts[0].act))
     && KeepsSignals(SysApply(y, acts[0]), acts[1..]))
  }

  lemma SysLostStep(y: Sys, a: SysAct)
    requires SysEnabled(y, a)
    ensures SysApply(y, a).sched.lost
      == y.sched.lost + (if a.SchedStep? && LosesSignal(y.sched, a.act) then 1 else 0)
  {
    if a.SchedStep? {
      LostExactly(y.sched, a.act);
    }
  }

  /** Over whole runs: a signal is lost exactly when some drained waiter woke as a timeout. */
  lemma {:induction false} LostRunsExactly(y: Sys, acts: seq<SysAct>, y': Sys)
    requires SysLeads(y, acts, y')
    ensures y'.sched.lost >= y.sched.lost
    ensures y'.sched.lost == y.sched.lost <==> KeepsSignals(y, acts)
    decreases |acts|
  {
    if acts != [] {
      SysLostStep(y, acts[0]);
      LostRunsExactly(SysApply(y, acts[0]), acts[1..], y');
    }
  }

  // ------------------------------------------------------------ what a caller may rely on

  ghost predicate SysInv(y: Sys) {
    && Inv(y.sched)
    && (y.callers != [] ==> y.sched.draining)
    && forall i :: 0 <= i < |y.callers| ==> CallerOk(y.sched, y.callers[i])
  }

  predicate CallerOk(s: Sched, c: Caller) {
    && (!c.WaitDrain? ==> s.drainDone)
    && match c
       case WaitTask(_, id) => id < |s.runs|
       case Returned(_, clean, foundActive) => if foundActive then s.depth == 0 else clean && s.active.None?
       case _ => true
  }

  lemma SysInitial(maxSize: nat, counting: bool)
    ensures SysInv(Sys(Initial(maxSize, counting), []))
  {
    InitialInv(maxSize, counting);
  }

  lemma SchedStepInv(y: Sys, act: Act)
    requires SysInv(y) && Enabled(y.sched, act)
    ensures SysInv(SysApply(y, SchedStep(act)))
  {
    StepInv(y.sched, act);
    if y.callers != [] {
      DrainingStable(y.sched, act);
    }
  }

  lemma CallInv(y: Sys)
    requires SysInv(y)
    ensures SysInv(SysApply(y, CallShutdown))
  {
    StepInv(y.sched, DrainAct);
    var y' := SysApply(y, CallShutdown);
    forall i | 0 <= i < |y'.callers|
      ensures CallerOk(y'.sched, y'.callers[i])
    {
      if i < |y.callers| {
        assert CallerOk(y.sched, y.callers[i]);
      }
    }
  }

  lemma GraceInv(y: Sys, i: nat)
    requires SysInv(y) && SysEnabled(y, GraceOver(i))
    ensures SysInv(SysApply(y, GraceOver(i)))
  {
    CancelActiveBalanced(y.sched);
  }

  lemma SysStepInv(y: Sys, a: SysAct)
    requires SysInv(y) && SysEnabled(y, a)
    ensures SysInv(SysApply(y, a))
  {
    match a
    case SchedStep(act) => SchedStepInv(y, act);
    case CallShutdown => CallInv(y);
    case GraceOver(i) => GraceInv(y, i);
    case _ =>
  }

  lemma {:induction false} SysRunInv(y: Sys, acts: seq<SysAct>, y': Sys)
    requires SysInv(y) && SysLeads(y, acts, y')
    ensures SysInv(y')
    decreases |acts|
  {
    if acts != [] {
      SysStepInv(y, acts[0]);
      SysRunInv(SysApply(y, acts[0]), acts[1..], y');
    }
  }

  /**
   * Shutdown: in every reachable state, a caller that found an active entry
   * and has returned sees an empty scheduler, and it stays empty.
   */
  lemma ShutdownIsFinal(maxSize: nat, counting: bool, acts: seq<SysAct>, y: Sys, i: nat)
    requires SysLeads(Sys(Initial(maxSize, counting), []), acts, y)
    requires i < |y.callers| && y.callers[i].Returned? && y.callers[i].foundActive
    ensures y.sched.depth == y.sched.pending == 0 && y.sched.quiescent && y.sched.draining
    ensures forall k :: 0 <= k < |y.sched.runs| ==> y.sched.runs[k].place == Gone
  {
    SysInitial(maxSize, counting);
    SysRunInv(Sys(Initial(maxSize, counting), []), acts, y);
    CountZero(y.sched.runs, Live);
  }

  /** A waiter in cleanup that was cancelled with its connection or interrupted from outside. */
  predicate CleaningUp(r: Run) {
    r.place == AtWait && r.reason.None?
  }

  /**
   * The early return: a caller that finds no active entry returns at once, and
   * leaves an empty scheduler behind exactly when no waiter that was cancelled
   * with its connection or interrupted from outside is still cleaning up.
   */
  lemma EarlyReturn(y: Sys, i: nat)
    requires SysInv(y) && SysEnabled(y, DrainDone(i))
    ensures SysApply(y, DrainDone(i)).callers[i].Returned? <==> y.sched.active.None?
    ensures y.sched.active.None? ==>
      (y.sched.depth == 0 <==> forall k :: 0 <= k < |y.sched.runs| ==> !CleaningUp(y.sched.runs[k]))
  {
    if y.sched.active.None? {
      var s := y.sched;
      CountZero(s.runs, Live);
      DrainAccount(s);
      forall k | 0 <= k < |s.runs|
        ensures Live(s.runs[k]) <==> CleaningUp(s.runs[k])
      {
        assert RunOk(s.runs[k], s.active == Some(k), k in s.waiters);
      }
    }
  }

  lemma {:induction false} SysLeadsOn(y: Sys, acts: seq<SysAct>, y1: Sys, a: SysAct, all: seq<SysAct>)
    requires SysLeads(y, acts, y1) && SysEnabled(y1, a) && all == acts + [a]
    ensures SysLeads(y, all, SysApply(y1, a))
    decreases |acts|
  {
    if acts == [] {
      assert all[1..] == [];
    } else {
      SysLeadsOn(SysApply(y, acts[0]), acts[1..], y1, a, all[1..]);
    }
  }

  lemma TwoAdmitted(maxSize: nat, c: string, d: string) returns (acts: seq<SysAct>, y: Sys)
    requires maxSize >= 2
    ensures acts == [SchedStep(AdmitAct(c, "a")), SchedStep(AdmitAct(d, "b"))]
    ensures SysLeads(Sys(Initial(maxSize, true), []), acts, y) && y.callers == []
    ensures y.sched.active == Some(0) && y.sched.waiters == [1] && |y.sched.runs| == 2 && y.sched.depth == 2
    ensures !y.sched.draining && y.sched.drainDone && y.sched.lost == 0 && y.sched.drainRemaining == 0
    ensures y.sched.runs[0] == Run(c, "a", Operating, NoFuture, NoInterrupt, ACTIVE, None, false)
    ensures y.sched.runs[1] == Run(d, "b", AtWait, Pending, NoInterrupt, WAITING, None, false)
  {
    var y0 := Sys(Initial(maxSize, true), []);
    var first := SchedStep(AdmitAct(c, "a"));
    var y1 := SysApply(y0, first);
    SysLeadsOn(y0, [], y0, first, [first]);
    acts := [first, SchedStep(AdmitAct(d, "b"))];
    y := SysApply(y1, acts[1]);
    SysLeadsOn(y0, [first], y1, acts[1], acts);
  }

  lemma KeptNone(runs: seq<Run>, id: nat, conn: string)
    requires id < |runs| && runs[id].conn == conn
    ensures Kept(runs, [id], conn) == []
  {
  }

  /** The early return shown: a waiter cancelled with its connection is still in cleanup when shutdown returns. */
  lemma EarlyReturnWitness(maxSize: nat, c: string, d: string) returns (acts: seq<SysAct>, y: Sys)
    requires maxSize >= 2 && c != d
    ensures SysLeads(Sys(Initial(maxSize, true), []), acts, y)
    ensures y.callers == [Returned(0, true, false)] && y.sched.depth == 1 && !y.sched.quiescent
  {
    var y0 := Sys(Initial(maxSize, true), []);
    var acts2, y2 := TwoAdmitted(maxSize, c, d);
    var cancel := SchedStep(CancelConnectionAct(d));
    var y3 := SysApply(y2, cancel);
    var acts3 := acts2 + [cancel];
    SysLeadsOn(y0, acts2, y2, cancel, acts3);
    KeptNone(y2.sched.runs, 1, d);
    assert y3.sched == CancelConnection(y2.sched, d);
    assert y3.sched.waiters == [];
    var finish := SchedStep(FinishAct(0, Success));
    var y4 := SysApply(y3, finish);
    var acts4 := acts3 + [finish];
    SysLeadsOn(y0, acts3, y3, finish, acts4);
    assert y4.sched.active.None? && y4.sched.depth == 1;
    var y5 := SysApply(y4, CallShutdown);
    var acts5 := acts4 + [CallShutdown];
    SysLeadsOn(y0, acts4, y4, CallShutdown, acts5);
    acts := acts5 + [DrainDone(0)];
    y := SysApply(y5, DrainDone(0));
    SysLeadsOn(y0, acts5, y5, DrainDone(0), acts);
    SysInitial(maxSize, true);
    SysRunInv(y0, acts, y);
  }

  // ------------------------------------------------------------ does shutdown return?

  /** With a lost signal a caller waiting for the drain waits for ever. */
  lemma {:induction false} LostSignalHangs(y: Sys, acts: seq<SysAct>, y': Sys, i: nat)
    requires SysInv(y) && SysLeads(y, acts, y')
    requires y.sched.lost > 0 && i < |y.callers| && y.callers[i].WaitDrain?
    ensures i < |y'.callers| && y'.callers[i] == y.callers[i] && y'.sched.lost > 0
    decreases |acts|
  {
    if acts != [] {
      SysStepInv(y, acts[0]);
      if acts[0].SchedStep? {
        LostForever(y.sched, acts[0].act);
      }
      LostSignalHangs(SysApply(y, acts[0]), acts[1..], y', i);
    }
  }

  /** An empty, drained scheduler with no lost signal lets a caller through to its return. */
  lemma QuietReturns(y: Sys, i: nat) returns (acts: seq<SysAct>, y': Sys)
    requires SysInv(y) && i < |y.callers| && y.callers[i].WaitDrain?
    requires y.sched.depth == 0 && y.sched.lost == 0
    ensures SysLeads(y, acts, y') && y'.sched == y.sched
    ensures |y'.callers| == |y.callers| && y'.callers[i].Returned?
  {
    CountZero(y.sched.runs, Live);
    DrainAccount(y.sched);
    var y1 := SysApply(y, DrainDone(i));
    SysLeadsOn(y, [], y, DrainDone(i), [DrainDone(i)]);
    if y.sched.active.None? {
      return [DrainDone(i)], y1;
    }
    var y2 := SysApply(y1, GraceOver(i));
    SysLeadsOn(y, [DrainDone(i)], y1, GraceOver(i), [DrainDone(i), GraceOver(i)]);
    y' := SysApply(y2, Quiet(i));
    acts := [DrainDone(i), GraceOver(i), Quiet(i)];
    SysLeadsOn(y, [DrainDone(i), GraceOver(i)], y2, Quiet(i), acts);
  }

  /** No step is left but timers and what comes from outside. */
  ghost predicate SysAtRest(y: Sys) {
    && AtRest(y.sched)
    && forall a :: SysEnabled(y, a) ==> a.SchedStep? || a.CallShutdown?
  }

  /** Once draining, whatever is admitted can move without help, even if the worker was lost. */
  lemma DrainingAdvances(s: Sched)
    requires Inv(s) && s.draining && AtRest(s)
    ensures s.depth == 0
  {
    CountZero(s.runs, Live);
    forall i: nat | i < |s.runs|
      ensures !Live(s.runs[i])
    {
      assert RunOk(s.runs[i], s.active == Some(i), i in s.waiters);
      assert !Enabled(s, ResumeAct(i)) && !Enabled(s, TimeoutAct(i)) && !Enabled(s, CancelledAct(i));
      assert !Enabled(s, FinishAct(i, Success));
    }
  }

  /** A caller that is done, one way or the other. */
  predicate Over(c: Caller) {
    c.Returned? || c.Raised?
  }

  /**
   * Shutdown, whatever the order of steps: once no one can move without help,
   * everything admitted has left, and then every caller has returned or raised
   * exactly when no drain signal was lost; otherwise every caller still waits
   * for the drain.
   */
  lemma ShutdownAtRest(y: Sys)
    requires SysInv(y) && y.callers != [] && SysAtRest(y)
    ensures y.sched.depth == 0
    ensures y.sched.lost == 0 ==> forall i :: 0 <= i < |y.callers| ==> Over(y.callers[i])
    ensures y.sched.lost > 0 ==> forall i :: 0 <= i < |y.callers| ==> y.callers[i].WaitDrain?
  {
    DrainingAdvances(y.sched);
    CountZero(y.sched.runs, Live);
    DrainAccount(y.sched);
    forall i: nat | i < |y.callers|
      ensures if y.sched.lost == 0 then Over(y.callers[i]) else y.callers[i].WaitDrain?
    {
      assert CallerOk(y.sched, y.callers[i]);
      assert !SysEnabled(y, DrainDone(i)) && !SysEnabled(y, GraceOver(i)) && !SysEnabled(y, TaskEnded(i, false));
      assert !SysEnabled(y, Quiet(i));
    }
  }

  /** The same for every run: all callers are done exactly when no drained waiter woke as a timeout. */
  lemma ShutdownRunsExactly(maxSize: nat, counting: bool, acts: seq<SysAct>, y: Sys)
    requires SysLeads(Sys(Initial(maxSize, counting), []), acts, y) && y.callers != [] && SysAtRest(y)
    ensures y.sched.depth == 0
    ensures (forall i :: 0 <= i < |y.callers| ==> Over(y.callers[i]))
      <==> KeepsSignals(Sys(Initial(maxSize, counting), []), acts)
  {
    SysInitial(maxSize, counting);
    SysRunInv(Sys(Initial(maxSize, counting), []), acts, y);
    LostRunsExactly(Sys(Initial(maxSize, counting), []), acts, y);
    ShutdownAtRest(y);
    assert Over(y.callers[0]) ==> !y.callers[0].WaitDrain?;
  }

  ghost predicate CanReturn(y: Sys, i: nat) {
    exists acts, y' :: SysLeads(y, acts, y') && i < |y'.callers| && y'.callers[i].Returned?
  }

  /** Once everything admitted has left, a waiting shutdown can return exactly when no drain signal was lost. */
  lemma ShutdownReturnsExactly(y: Sys, i: nat)
    requires SysInv(y) && i < |y.callers| && y.callers[i].WaitDrain? && y.sched.depth == 0
    ensures CanReturn(y, i) <==> y.sched.lost == 0
  {
    if y.sched.lost == 0 {
      var acts, y' := QuietReturns(y, i);
    } else {
      forall acts, y' | SysLeads(y, acts, y')
        ensures i < |y'.callers| && !y'.callers[i].Returned?
      {
        LostSignalHangs(y, acts, y', i);
      }
    }
  }

  /**
   * In every reachable state in which everything admitted has left, a waiting
   * shutdown can return exactly when no drained waiter woke as a timeout.
   */
  lemma ShutdownReturnsFrom(maxSize: nat, counting: bool, acts: seq<SysAct>, y: Sys, i: nat)
    requires SysLeads(Sys(Initial(maxSize, counting), []), acts, y)
    requires i < |y.callers| && y.callers[i].WaitDrain? && y.sched.depth == 0
    ensures CanReturn(y, i) <==> KeepsSignals(Sys(Initial(maxSize, counting), []), acts)
  {
    SysInitial(maxSize, counting);
    SysRunInv(Sys(Initial(maxSize, counting), []), acts, y);
    LostRunsExactly(Sys(Initial(maxSize, counting), []), acts, y);
    ShutdownReturnsExactly(y, i);
  }

  /** The lost signal shown: a drained waiter whose timer fires before it wakes. */
  lemma LostSignalWitness(maxSize: nat, c: string) returns (acts: seq<SysAct>, y: Sys)
    requires maxSize >= 2
    ensures SysLeads(Sys(Initial(maxSize, true), []), acts, y)
    ensures y.callers == [WaitDrain(1)] && y.sched.depth == 0 && !CanReturn(y, 0)
  {
    var y0 := Sys(Initial(maxSize, true), []);
    var acts2, y2 := TwoAdmitted(maxSize, c, c);
    var y3 := SysApply(y2, CallShutdown);
    var acts3 := acts2 + [CallShutdown];
    SysLeadsOn(y0, acts2, y2, CallShutdown, acts3);
    assert y3.sched.runs[1] == Run(c, "b", AtWait, Cancelled, NoInterrupt, WAITING, Some(DrainCancelled), false);
    var fire := SchedStep(InterruptAct(1, TimerFired));
    var y4 := SysApply(y3, fire);
    var acts4 := acts3 + [fire];
    SysLeadsOn(y0, acts3, y3, fire, acts4);
    var wake := SchedStep(TimeoutAct(1));
    var y5 := SysApply(y4, wake);
    var acts5 := acts4 + [wake];
    SysLeadsOn(y0, acts4, y4, wake, acts5);
    var finish := SchedStep(FinishAct(0, Success));
    y := SysApply(y5, finish);
    acts := acts5 + [finish];
    SysLeadsOn(y0, acts5, y5, finish, acts);
    SysInitial(maxSize, true);
    SysRunInv(y0, acts, y);
    ShutdownReturnsExactly(y, 0);
  }
}

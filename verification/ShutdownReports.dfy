/** What a caller of `shutdown` is told, and what its grace period does. */
module ShutdownReports {
  import opened Common
  import opened SchedulerModel
  import opened SchedulerSafety
  import opened SchedulerLaws
  import opened SchedulerOutcomes
  import opened SchedulerShutdown

  function CancelledOf(c: Caller): nat
    requires !c.Raised?
  {
    c.cancelled
  }

  /** What caller `i` may know after `acts`. */
  predicate Told(acts: seq<SysAct>, i: nat, c: Caller) {
    var completed, graceOver := ActiveDone(i) in acts, GraceOver(i) in acts;
    match c
    case WaitDrain(_) => !completed && !graceOver
    case WaitActive(_) => !completed && !graceOver
    case WaitTask(_, _) => !completed && graceOver
    case WaitQuiet(_, clean) => (completed <==> clean) && (graceOver <==> !clean)
    case Returned(_, clean, foundActive) =>
      (completed <==> clean && foundActive) && (graceOver <==> !clean) && (!clean ==> foundActive)
    case Raised => graceOver
  }

  lemma {:induction false} SplitLast(y0: Sys, acts: seq<SysAct>, y: Sys) returns (y1: Sys)
    requires acts != [] && SysLeads(y0, acts, y)
    ensures SysLeads(y0, acts[..|acts| - 1], y1)
    ensures SysEnabled(y1, acts[|acts| - 1]) && y == SysApply(y1, acts[|acts| - 1])
    decreases |acts|
  {
    if |acts| == 1 {
      y1 := y0;
    } else {
      y1 := SplitLast(SysApply(y0, acts[0]), acts[1..], y);
      assert acts[1..][..|acts| - 2] == acts[..|acts| - 1][1..];
    }
  }

  lemma ToldStep(before: seq<SysAct>, a: SysAct, y: Sys, i: nat)
    requires SysEnabled(y, a) && i < |SysApply(y, a).callers|
    requires if i < |y.callers| then Told(before, i, y.callers[i])
      else ActiveDone(i) !in before && GraceOver(i) !in before
    ensures Told(before + [a], i, SysApply(y, a).callers[i])
  {
    assert forall b :: b in before + [a] <==> b in before || b == a;
    match a
    case SchedStep(_) =>
    case CallShutdown =>
    case _ =>
  }

  lemma NotYet(before: seq<SysAct>, a: SysAct, y: Sys, i: nat)
    requires SysEnabled(y, a) && i >= |SysApply(y, a).callers|
    requires ActiveDone(i) !in before && GraceOver(i) !in before
    ensures i >= |y.callers| && ActiveDone(i) !in before + [a] && GraceOver(i) !in before + [a]
  {
    match a
    case SchedStep(_) =>
    case CallShutdown =>
    case _ =>
  }

  /**
   * In every reachable state: a caller that returned was told "clean" exactly
   * when its grace period did not run out, and found an active entry exactly
   * when it waited for that entry's end, in time or not.
   */
  lemma {:induction false} ToldExactly(y0: Sys, acts: seq<SysAct>, y: Sys, i: nat)
    requires y0.callers == [] && SysLeads(y0, acts, y)
    ensures if i < |y.callers| then Told(acts, i, y.callers[i]) else ActiveDone(i) !in acts && GraceOver(i) !in acts
    decreases |acts|
  {
    if acts != [] {
      var y1 := SplitLast(y0, acts, y);
      var before, a := acts[..|acts| - 1], acts[|acts| - 1];
      assert acts == before + [a];
      ToldExactly(y0, before, y1, i);
      if i < |y.callers| {
        ToldStep(before, a, y1, i);
      } else {
        NotYet(before, a, y1, i);
      }
    }
  }

  lemma DrainCounts(s: Sched)
    requires Inv(s)
    ensures Count(Drain(s).runs, DrainedWaiting)
      == Count(s.runs, DrainedWaiting) + (if s.draining then 0 else |s.waiters|)
  {
    DrainBalanced(s);
  }

  /** The number a caller is told is that of the waiters its own call drained, and it does not change. */
  lemma CountsOwnDrain(y: Sys)
    requires SysInv(y)
    ensures var y' := SysApply(y, CallShutdown);
      && |y'.callers| == |y.callers| + 1
      && var n := Count(y'.sched.runs, DrainedWaiting) - Count(y.sched.runs, DrainedWaiting);
         n >= 0 && y'.callers == y.callers + [WaitDrain(n)]
  {
    DrainCounts(y.sched);
  }

  lemma KeepsCount(y: Sys, a: SysAct, i: nat)
    requires SysEnabled(y, a) && i < |y.callers| && !y.callers[i].Raised?
    ensures i < |SysApply(y, a).callers|
    ensures !SysApply(y, a).callers[i].Raised? ==> CancelledOf(SysApply(y, a).callers[i]) == CancelledOf(y.callers[i])
  {
    match a
    case SchedStep(_) =>
    case CallShutdown =>
    case _ =>
  }

  /**
   * When the grace period runs out the operation in progress, if any, is
   * interrupted, and nothing else in the scheduler changes; the caller goes on
   * to wait for that task, or for quiescence if there is none.
   */
  lemma GraceExactly(y: Sys, i: nat)
    requires Inv(y.sched) && TaskKnown(y.sched) && SysEnabled(y, GraceOver(i))
    ensures var y' := SysApply(y, GraceOver(i));
      && |y'.callers| == |y.callers|
      && (forall j: nat :: AtPlace(y.sched, j, Operating) ==>
          Interrupts(y.sched, y'.sched, j) && y'.callers[i] == WaitTask(y.callers[i].cancelled, j))
      && ((forall j: nat :: !AtPlace(y.sched, j, Operating)) ==>
          y'.sched == y.sched && y'.callers[i] == WaitQuiet(y.callers[i].cancelled, false))
  {
    if y.sched.activeTask.Some? {
      assert AtPlace(y.sched, y.sched.activeTask.value, Operating);
    }
  }
}

/** What the scheduler promises over every run, as consequences of its invariant. */
module SchedulerLaws {
  import opened Common
  import opened SchedulerModel
  import opened SchedulerSafety

  // ------------------------------------------------------------ safety

  /** At most one operation is in progress, and it is the active entry. */
  lemma MutualExclusion(s: Sched, i: nat, j: nat)
    requires Inv(s) && AtPlace(s, i, Operating)
    ensures s.active == Some(i)
    ensures AtPlace(s, j, Operating) ==> j == i
  {
    assert RunOk(s.runs[i], s.active == Some(i), i in s.waiters);
    if AtPlace(s, j, Operating) {
      assert RunOk(s.runs[j], s.active == Some(j), j in s.waiters);
    }
  }

  /** Every step extends the activation history, by ids admitted later than all before: FIFO. */
  lemma ActivationsGrow(s: Sched, act: Act)
    requires Inv(s) && Enabled(s, act)
    ensures s.activations <= Apply(s, act).activations
    ensures Increasing(Apply(s, act).activations)
    ensures act.FinishAct? && s.waiters != [] ==>
      Apply(s, act).activations == s.activations + [s.waiters[0]]
  {
    StepInv(s, act);
    var s' := Apply(s, act);
    OrderParts(s'.activations, s'.waiters, |s'.runs|);
    if act.ResumeAct? {
      ResumeInv(s, act.id);
    }
  }

  /** Whoever becomes active is the newest entry of the history. */
  lemma ActiveIsNewest(s: Sched)
    requires Inv(s)
    ensures s.active.Some? ==> s.activations != [] && s.active.value == s.activations[|s.activations| - 1]
    ensures s.active.Some? ==> forall k :: k in s.activations ==> k <= s.active.value
    ensures s.active.Some? ==> forall w :: w in s.waiters ==> s.active.value < w
    ensures s.active.None? ==> s.waiters == []
  {
    OrderParts(s.activations, s.waiters, |s.runs|);
    if s.active.Some? {
      assert s.active.value in s.activations;
    }
  }

  /** What one step does to an admitted run. */
  function RunAfter(s: Sched, act: Act, i: nat): Run
    requires i < |s.runs|
  {
    var r := s.runs[i];
    match act
    case AdmitAct(_, _) => r
    case InterruptAct(id, how) => if i == id then InterruptRun(r, how) else r
    case ResumeAct(id) => if i == id then r.(place := Operating) else r
    case TimeoutAct(id) => if i == id then Left(r, QueueWaitTimeout) else r
    case CancelledAct(id) =>
      if i == id then Left(r, if r.reason.Some? then r.reason.value else CancelledWhileWaiting) else r
    case FinishAct(id, how) =>
      if i == id then Ended(r, how) else if s.waiters != [] && i == s.waiters[0] then HandedOver(r) else r
    case DrainAct => if !s.draining && i in s.waiters then DrainRun(r) else r
    case CancelConnectionAct(conn) => if Targets(s, conn, i) then CancelWaiter(r) else r
    case _ => if s.activeTask == Some(i) then r.(interrupt := TaskCancelled) else r
  }

  function Left(r: Run, reason: Reason): Run {
    r.(place := Gone, state := StateOf(reason), reason := Some(reason), counted := true)
  }

  lemma AdmitKeeps(s: Sched, conn: string, synth: string, i: nat)
    requires i < |s.runs|
    ensures var s' := Admit(s, conn, synth); |s.runs| <= |s'.runs| && s'.runs[i] == s.runs[i]
  {
  }

  lemma DrainTouches(s: Sched, i: nat)
    requires i < |s.runs|
    ensures var s' := Drain(s);
      |s'.runs| == |s.runs| && s'.runs[i] == if !s.draining && i in s.waiters then DrainRun(s.runs[i]) else s.runs[i]
  {
  }

  lemma CancelTouches(s: Sched, conn: string, i: nat)
    requires i < |s.runs|
    ensures var s' := CancelConnection(s, conn);
      |s'.runs| == |s.runs| && s'.runs[i] == if Targets(s, conn, i) then CancelWaiter(s.runs[i]) else s.runs[i]
  {
  }

  lemma TaskCancelTouches(s: Sched, i: nat)
    requires i < |s.runs|
    ensures var s' := CancelActiveTask(s);
      && |s'.runs| == |s.runs|
      && s'.runs[i] == if s.activeTask == Some(i) then s.runs[i].(interrupt := TaskCancelled) else s.runs[i]
  {
  }

  lemma LeaveTouches(s: Sched, id: nat, reason: Reason, i: nat)
    requires id < |s.runs| && i < |s.runs|
    ensures var s' := Leave(s, id, reason);
      |s'.runs| == |s.runs| && s'.runs[i] == if i == id then Left(s.runs[i], reason) else s.runs[i]
  {
  }

  lemma ResumeTouches(s: Sched, id: nat, i: nat)
    requires Inv(s) && Enabled(s, ResumeAct(id)) && i < |s.runs|
    ensures var s' := Resume(s, id);
      |s'.runs| == |s.runs| && s'.runs[i] == if i == id then s.runs[i].(place := Operating) else s.runs[i]
  {
    ResumeInv(s, id);
  }

  lemma RunAfterStep(s: Sched, act: Act, i: nat)
    requires Inv(s) && Enabled(s, act) && i < |s.runs|
    ensures |s.runs| <= |Apply(s, act).runs| && Apply(s, act).runs[i] == RunAfter(s, act, i)
    ensures RunOk(s.runs[i], s.active == Some(i), i in s.waiters)
  {
    match act
    case AdmitAct(conn, synth) => AdmitKeeps(s, conn, synth, i);
    case FinishAct(id, how) => FinishedRuns(s, id, how, i);
    case ResumeAct(id) => ResumeTouches(s, id, i);
    case TimeoutAct(id) => LeaveTouches(s, id, QueueWaitTimeout, i);
    case CancelledAct(id) =>
      LeaveTouches(s, id, if s.runs[id].reason.Some? then s.runs[id].reason.value else CancelledWhileWaiting, i);
    case DrainAct => DrainTouches(s, i);
    case CancelConnectionAct(conn) => CancelTouches(s, conn, i);
    case CancelSynthesisAct(_) => TaskCancelTouches(s, i);
    case CancelActiveAct(_) => TaskCancelTouches(s, i);
    case InterruptAct(_, _) =>
  }

  /** One step changes a lifecycle state only along the transition table, and never a finished run. */
  lemma StatesFollowTable(s: Sched, act: Act, i: nat)
    requires Inv(s) && Enabled(s, act) && i < |s.runs|
    ensures |s.runs| <= |Apply(s, act).runs|
    ensures var r, r' := s.runs[i], Apply(s, act).runs[i];
      && (r'.state == r.state || r'.state in Successors(r.state))
      && (r.place == Gone ==> r' == r)
      && (r.place == Gone <==> IsTerminal(r.state))
  {
    RunAfterStep(s, act, i);
  }

  /** A new run is WAITING, which the table allows, or ACTIVE at once, which it does not list. */
  lemma ImmediateActivationUnlisted(s: Sched, conn: string, synth: string)
    requires Inv(s) && |Admit(s, conn, synth).runs| > |s.runs|
    ensures var r := Admit(s, conn, synth).runs[|s.runs|];
      && r.state == (if s.active.None? then ACTIVE else WAITING)
      && (r.state in Successors(CREATED) <==> s.active.Some?)
  {
  }

  // ------------------------------------------------------------ the ledger

  function EndedAs(reason: Reason): Run -> bool {
    (r: Run) => r.place == Gone && r.reason == Some(reason)
  }

  function CountEnded(runs: seq<Run>, reason: Reason): nat {
    Count(runs, EndedAs(reason))
  }

  /** Each counter is the number of runs that ended for its reasons. */
  lemma {:induction false} TallyCounts(runs: seq<Run>)
    ensures var t := Tally(runs);
      && t.admitted == |runs|
      && t.completed == CountEnded(runs, CompletedOk)
      && t.cancelledQueued == CountEnded(runs, CancelledWhileWaiting) + CountEnded(runs, DrainCancelled)
      && t.cancelledActive == CountEnded(runs, CancelledWhileActive)
      && t.timedOut == CountEnded(runs, QueueWaitTimeout) + CountEnded(runs, SynthesisTimeout)
      && t.failed == CountEnded(runs, OperationFailed)
      && t.rejected == 0
  {
    if runs != [] {
      TallyCounts(runs[..|runs| - 1]);
    }
  }

  function Outcomes(l: Ledger): nat {
    l.completed + l.cancelledQueued + l.cancelledActive + l.timedOut + l.failed
  }

  lemma {:induction false} TallyBalances(runs: seq<Run>)
    requires forall i :: 0 <= i < |runs| ==> runs[i].place == Gone ==> runs[i].reason.Some?
    ensures |runs| == Outcomes(Tally(runs)) + Count(runs, Live)
  {
    if runs != [] {
      TallyBalances(runs[..|runs| - 1]);
    }
  }

  /**
   * Conservation: between any two steps depth equals pending and stays within
   * the bound, every call was admitted or rejected, and every admitted call is
   * in flight or counted under exactly one outcome.
   */
  lemma Conservation(s: Sched)
    requires Inv(s)
    ensures 0 <= s.depth == s.pending <= s.maxSize
    ensures s.counting ==>
      && s.calls == s.ledger.admitted + s.ledger.rejected
      && s.ledger.admitted == Outcomes(s.ledger) + s.depth
  {
    forall i | 0 <= i < |s.runs| && s.runs[i].place == Gone
      ensures s.runs[i].reason.Some?
    {
      assert RunOk(s.runs[i], s.active == Some(i), i in s.waiters);
    }
    TallyBalances(s.runs);
    TallyCounts(s.runs);
  }

  /**
   * Safety, in every state a run can reach: one operation at most, the active
   * entry's; FIFO activation; no waiters without an active entry; the counters
   * account for every call.
   */
  lemma SafetyOfRuns(maxSize: nat, counting: bool, acts: seq<Act>, s: Sched)
    requires Leads(Initial(maxSize, counting), acts, s)
    ensures forall i: nat :: AtPlace(s, i, Operating) ==> s.active == Some(i)
    ensures Increasing(s.activations + s.waiters)
    ensures s.active.None? ==> s.waiters == []
    ensures 0 <= s.depth == s.pending <= s.maxSize && (s.quiescent <==> s.depth == 0)
    ensures s.counting ==>
      && s.calls == s.ledger.admitted + s.ledger.rejected
      && s.ledger.admitted == Outcomes(s.ledger) + s.depth
  {
    InitialInv(maxSize, counting);
    RunInv(Initial(maxSize, counting), acts, s);
    forall i: nat | AtPlace(s, i, Operating)
      ensures s.active == Some(i)
    {
      MutualExclusion(s, i, i);
    }
    Conservation(s);
  }

  // ------------------------------------------------------------ progress

  /**
   * The active entry will never operate: it is gone, or its task will leave
   * the wait by an exception.
   */
  predicate Doomed(s: Sched) {
    && s.active.Some? && s.active.value < |s.runs|
    && var r := s.runs[s.active.value];
       r.place == Gone || (r.place == AtWait && (r.future != Resolved || r.interrupt != NoInterrupt))
  }

  /**
   * The step falls in no settle-to-wake window: it does not interrupt the
   * waiter that was handed the worker, and it does not hand over to a waiter
   * whose future is already settled.
   */
  predicate WindowFree(s: Sched, act: Act) {
    match act
    case InterruptAct(id, _) => s.active != Some(id)
    case FinishAct(_, _) => !HandoffFails(s)
    case _ => true
  }

  lemma FinishDooms(s: Sched, id: nat, how: How)
    requires Inv(s) && Enabled(s, FinishAct(id, how))
    ensures Doomed(Finish(s, id, how)) <==> HandoffFails(s)
  {
    FinishedRuns(s, id, how, id);
    if s.waiters != [] {
      assert s.waiters[0] in s.waiters;
      FinishedRuns(s, id, how, s.waiters[0]);
      assert RunOk(s.runs[s.waiters[0]], false, true);
    }
  }

  /** A step that neither admits, resumes nor ends anything keeps the active entry. */
  lemma OtherDooms(s: Sched, act: Act)
    requires Inv(s) && Enabled(s, act) && !Doomed(s)
    requires !act.FinishAct? && !act.ResumeAct? && !act.AdmitAct?
    ensures Doomed(Apply(s, act)) <==> !WindowFree(s, act)
  {
    ActiveNotQueued(s);
    if s.active.Some? {
      RunAfterStep(s, act, s.active.value);
    }
  }

  /** Exactly the window steps lose the worker. */
  lemma DoomedExactly(s: Sched, act: Act)
    requires Inv(s) && Enabled(s, act) && !Doomed(s)
    ensures Doomed(Apply(s, act)) <==> !WindowFree(s, act)
  {
    match act
    case FinishAct(id, how) => FinishDooms(s, id, how);
    case ResumeAct(id) => ResumeInv(s, id);
    case AdmitAct(_, _) => ActiveNotQueued(s);
    case _ => OtherDooms(s, act);
  }

  lemma ActiveNotQueued(s: Sched)
    requires Inv(s)
    ensures s.active.Some? ==> s.active.value < |s.runs| && s.active.value !in s.waiters
  {
    OrderParts(s.activations, s.waiters, |s.runs|);
    if s.active.Some? {
      assert s.active.value in s.activations;
    }
  }

  /** A lost worker stays lost: no later step ever activates or operates anything. */
  lemma DoomedForever(s: Sched, act: Act)
    requires Inv(s) && Enabled(s, act) && Doomed(s)
    ensures Doomed(Apply(s, act))
    ensures Apply(s, act).activations == s.activations
    ensures forall i :: 0 <= i < |s.runs| ==> s.runs[i].place != Operating
  {
    forall i | 0 <= i < |s.runs|
      ensures s.runs[i].place != Operating
    {
      assert RunOk(s.runs[i], s.active == Some(i), i in s.waiters);
    }
    match act
    case ResumeAct(id) => ResumeInv(s, id);
    case CancelSynthesisAct(_) =>
    case CancelActiveAct(_) =>
    case DrainAct => ActiveNotQueued(s);
    case CancelConnectionAct(_) => ActiveNotQueued(s);
    case _ =>
  }

  /** No step of the run falls in a settle-to-wake window. */
  ghost predicate WindowFreeRun(s: Sched, acts: seq<Act>)
    decreases |acts|
  {
    acts == [] || (Enabled(s, acts[0]) && WindowFree(s, acts[0]) && WindowFreeRun(Apply(s, acts[0]), acts[1..]))
  }

  /** Over whole runs: the worker is lost exactly when some step fell in a window. */
  lemma {:induction false} DoomedRunsExactly(s: Sched, acts: seq<Act>, s': Sched)
    requires Inv(s) && Leads(s, acts, s') && !Doomed(s)
    ensures Doomed(s') <==> !WindowFreeRun(s, acts)
    decreases |acts|
  {
    if acts != [] {
      StepInv(s, acts[0]);
      DoomedExactly(s, acts[0]);
      if WindowFree(s, acts[0]) {
        DoomedRunsExactly(Apply(s, acts[0]), acts[1..], s');
      } else {
        StaysDoomed(Apply(s, acts[0]), acts[1..], s');
      }
    }
  }

  lemma {:induction false} StaysDoomed(s: Sched, acts: seq<Act>, s': Sched)
    requires Inv(s) && Leads(s, acts, s') && Doomed(s)
    ensures Doomed(s') && s'.activations == s.activations
    decreases |acts|
  {
    if acts != [] {
      StepInv(s, acts[0]);
      DoomedForever(s, acts[0]);
      StaysDoomed(Apply(s, acts[0]), acts[1..], s');
    }
  }

  /**
   * In a state that is not doomed the active entry belongs to a live run, and
   * the end of an operation hands over to the oldest waiter, whose future it
   * resolves.
   */
  lemma HealthyHandover(s: Sched, id: nat, how: How)
    requires Inv(s) && Enabled(s, FinishAct(id, how)) && !Doomed(s) && s.waiters != []
    requires WindowFree(s, FinishAct(id, how))
    ensures var s' := Finish(s, id, how);
      && s'.active == Some(s.waiters[0]) && s.waiters[0] < |s'.runs|
      && Live(s'.runs[s.waiters[0]]) && s'.runs[s.waiters[0]].future == Resolved
      && Enabled(s', ResumeAct(s.waiters[0]))
  {
    OrderParts(s.activations, s.waiters, |s.runs|);
    assert s.waiters[0] in s.waiters;
    FinishedRuns(s, id, how, s.waiters[0]);
    assert RunOk(s.runs[s.waiters[0]], false, true);
  }

  /** How many more steps a run can take. */
  function Weight(r: Run): nat {
    match r.place
    case Gone => 0
    case Operating => 1
    case AtWait =>
      2 + (if r.future == Pending then 2 else 0)
        + (match r.interrupt case NoInterrupt => 2 case TimerFired => 1 case TaskCancelled => 0)
  }

  function Measure(runs: seq<Run>): nat {
    if runs == [] then 0 else Measure(runs[..|runs| - 1]) + Weight(runs[|runs| - 1])
  }

  /** Not heavier anywhere; lighter if lighter at `i`. */
  lemma {:induction false} MeasureDrops(p: seq<Run>, q: seq<Run>, i: int)
    requires |p| == |q| && forall k :: 0 <= k < |p| ==> Weight(q[k]) <= Weight(p[k])
    ensures Measure(q) <= Measure(p)
    ensures 0 <= i < |p| && Weight(q[i]) < Weight(p[i]) ==> Measure(q) < Measure(p)
  {
    if p != [] {
      MeasureDrops(p[..|p| - 1], q[..|q| - 1], i);
    }
  }

  /** The acts by which an admitted run advances or leaves. */
  predicate Advances(act: Act) {
    act.InterruptAct? || act.ResumeAct? || act.TimeoutAct? || act.CancelledAct? || act.FinishAct?
  }

  lemma WeightDrops(s: Sched, act: Act, k: nat)
    requires Inv(s) && Enabled(s, act) && k < |s.runs|
    ensures |Apply(s, act).runs| >= |s.runs|
    ensures Weight(Apply(s, act).runs[k]) <= Weight(s.runs[k])
    ensures Advances(act) && k == act.id ==> Weight(Apply(s, act).runs[k]) < Weight(s.runs[k])
  {
    RunAfterStep(s, act, k);
  }

  /** Without arrivals the measure never rises, and every advance lowers it. */
  lemma MeasureDecreases(s: Sched, act: Act)
    requires Inv(s) && Enabled(s, act)
    requires |Apply(s, act).runs| == |s.runs|
    ensures Measure(Apply(s, act).runs) <= Measure(s.runs)
    ensures Advances(act) ==> Measure(Apply(s, act).runs) < Measure(s.runs)
  {
    forall k | 0 <= k < |s.runs|
      ensures Weight(Apply(s, act).runs[k]) <= Weight(s.runs[k])
    {
      WeightDrops(s, act, k);
    }
    if Advances(act) {
      WeightDrops(s, act, act.id);
    }
    MeasureDrops(s.runs, Apply(s, act).runs, if Advances(act) then act.id else -1);
  }

  lemma SomeLive(runs: seq<Run>) returns (i: nat)
    requires Count(runs, Live) > 0
    ensures i < |runs| && Live(runs[i])
  {
    CountZero(runs, Live);
    i :| i < |runs| && Live(runs[i]);
  }

  /** As long as anything is admitted, some run can advance without help and without a window. */
  lemma SomethingAdvances(s: Sched, how: How) returns (act: Act)
    requires Inv(s) && !Doomed(s) && s.depth > 0
    ensures Enabled(s, act) && WindowFree(s, act) && Advances(act) && !act.InterruptAct?
    ensures |Apply(s, act).runs| == |s.runs|
  {
    if s.active.Some? {
      var a := s.active.value;
      ActiveNotQueued(s);
      if s.runs[a].place == AtWait {
        act := ResumeAct(a);
      } else if HandoffFails(s) {
        var w := s.waiters[0];
        assert w in s.waiters;
        assert RunOk(s.runs[w], s.active == Some(w), true);
        act := if s.runs[w].interrupt == TimerFired then TimeoutAct(w) else CancelledAct(w);
      } else {
        assert s.waiters != [] ==> s.waiters[0] in s.activations + s.waiters;
        act := FinishAct(a, how);
      }
    } else {
      var i := SomeLive(s.runs);
      assert RunOk(s.runs[i], false, false);
      act := if s.runs[i].interrupt == TimerFired then TimeoutAct(i) else CancelledAct(i);
    }
  }

  lemma EmptyIsOver(s: Sched)
    requires Inv(s) && s.depth == 0
    ensures s.quiescent
    ensures forall i :: 0 <= i < |s.runs| ==> s.runs[i].place == Gone && IsTerminal(s.runs[i].state)
  {
    CountZero(s.runs, Live);
    forall i | 0 <= i < |s.runs|
      ensures s.runs[i].place == Gone && IsTerminal(s.runs[i].state)
    {
      assert RunOk(s.runs[i], s.active == Some(i), i in s.waiters);
    }
  }

  /**
   * Once arrivals stop, a state that is not doomed can be driven to depth 0,
   * every admitted run to one terminal state, in at most Measure(runs) steps.
   */
  lemma {:induction false} Progress(s: Sched, how: How) returns (acts: seq<Act>, s': Sched)
    requires Inv(s) && !Doomed(s)
    ensures Leads(s, acts, s') && |acts| <= Measure(s.runs)
    ensures Inv(s') && s'.depth == 0 && s'.quiescent && |s'.runs| == |s.runs|
    ensures forall i :: 0 <= i < |s'.runs| ==> s'.runs[i].place == Gone && IsTerminal(s'.runs[i].state)
    decreases Measure(s.runs)
  {
    if s.depth == 0 {
      acts, s' := [], s;
      EmptyIsOver(s);
    } else {
      var act := SomethingAdvances(s, how);
      StepInv(s, act);
      MeasureDecreases(s, act);
      DoomedExactly(s, act);
      var more;
      more, s' := Progress(Apply(s, act), how);
      acts := [act] + more;
      assert acts[1..] == more;
    }
  }

  /** How many acts of a run are advances. */
  function CountAdvances(acts: seq<Act>): nat {
    if acts == [] then 0 else (if Advances(acts[0]) then 1 else 0) + CountAdvances(acts[1..])
  }

  lemma FinishLength(s: Sched, id: nat, how: How)
    requires Enabled(s, FinishAct(id, how))
    ensures |Finish(s, id, how).runs| == |s.runs|
  {
  }

  lemma RunsNeverShrink(s: Sched, act: Act)
    requires Enabled(s, act)
    ensures |s.runs| <= |Apply(s, act).runs|
  {
    match act
    case FinishAct(id, how) => FinishLength(s, id, how);
    case AdmitAct(_, _) =>
    case TimeoutAct(_) =>
    case CancelledAct(_) =>
    case _ =>
  }

  lemma {:induction false} RunsGrow(s: Sched, acts: seq<Act>, s': Sched)
    requires Leads(s, acts, s')
    ensures |s.runs| <= |s'.runs|
    decreases |acts|
  {
    if acts != [] {
      RunsNeverShrink(s, acts[0]);
      RunsGrow(Apply(s, acts[0]), acts[1..], s');
    }
  }

  /**
   * Whatever happens in whatever order, drains and cancellations included: a
   * run that admits nothing has at most Measure(runs) advances.
   */
  lemma {:induction false} AdvancesBounded(s: Sched, acts: seq<Act>, s': Sched)
    requires Inv(s) && Leads(s, acts, s') && |s'.runs| == |s.runs|
    ensures CountAdvances(acts) + Measure(s'.runs) <= Measure(s.runs)
    decreases |acts|
  {
    if acts != [] {
      var s1 := Apply(s, acts[0]);
      StepInv(s, acts[0]);
      RunsNeverShrink(s, acts[0]);
      RunsGrow(s1, acts[1..], s');
      MeasureDecreases(s, acts[0]);
      AdvancesBounded(s1, acts[1..], s');
    }
  }

  /** No run can advance without being interrupted first. */
  ghost predicate AtRest(s: Sched) {
    forall act :: Enabled(s, act) && Advances(act) ==> act.InterruptAct?
  }

  /**
   * Progress: every window-free run from a state that is not doomed, whatever
   * it admits, drains and cancels, is at rest only when nothing is in flight
   * and every admitted run is in one terminal state.
   */
  lemma RestIsEmpty(s: Sched, acts: seq<Act>, s': Sched)
    requires Inv(s) && !Doomed(s) && Leads(s, acts, s') && WindowFreeRun(s, acts)
    ensures AtRest(s') <==> s'.depth == 0
    ensures AtRest(s') ==>
      && s'.quiescent
      && forall i :: 0 <= i < |s'.runs| ==> s'.runs[i].place == Gone && IsTerminal(s'.runs[i].state)
  {
    RunInv(s, acts, s');
    DoomedRunsExactly(s, acts, s');
    if s'.depth > 0 {
      var act := SomethingAdvances(s', Success);
    } else {
      Conservation(s');
      EmptyIsOver(s');
    }
  }

  lemma {:induction false} LeadsOn(s: Sched, acts: seq<Act>, s1: Sched, act: Act, all: seq<Act>)
    requires Leads(s, acts, s1) && Enabled(s1, act) && all == acts + [act]
    ensures Leads(s, all, Apply(s1, act))
    decreases |acts|
  {
    if acts == [] {
      assert all[1..] == [];
    } else {
      LeadsOn(Apply(s, acts[0]), acts[1..], s1, act, all[1..]);
    }
  }

  /** Two requests are admitted, and the waiting one is timed out before it wakes. */
  lemma TimedOutWaiter(maxSize: nat, c: string) returns (s: Sched)
    requires maxSize >= 2
    ensures Leads(Initial(maxSize, true), [AdmitAct(c, "a"), AdmitAct(c, "b"), InterruptAct(1, TimerFired)], s)
    ensures s.active == Some(0) && s.waiters == [1] && |s.runs| == 2 && s.depth == 2 && s.maxSize == maxSize
    ensures s.runs[0].place == Operating && !s.draining
    ensures s.runs[1] == Run(c, "b", AtWait, Cancelled, TimerFired, WAITING, None, false)
  {
    var s0 := Initial(maxSize, true);
    var s1 := Apply(s0, AdmitAct(c, "a"));
    LeadsOn(s0, [], s0, AdmitAct(c, "a"), [AdmitAct(c, "a")]);
    var s2 := Apply(s1, AdmitAct(c, "b"));
    LeadsOn(s0, [AdmitAct(c, "a")], s1, AdmitAct(c, "b"), [AdmitAct(c, "a"), AdmitAct(c, "b")]);
    s := Apply(s2, InterruptAct(1, TimerFired));
    LeadsOn(s0, [AdmitAct(c, "a"), AdmitAct(c, "b")], s2, InterruptAct(1, TimerFired),
            [AdmitAct(c, "a"), AdmitAct(c, "b"), InterruptAct(1, TimerFired)]);
  }

  /** A run that succeeds although its handoff raises: the oldest waiter was timed out and has not woken. */
  lemma SuccessRaises(maxSize: nat, c: string) returns (acts: seq<Act>, s: Sched)
    requires maxSize >= 2
    ensures Leads(Initial(maxSize, true), acts, s)
    ensures Enabled(s, FinishAct(0, Success)) && HandoffFails(s)
  {
    acts := [AdmitAct(c, "a"), AdmitAct(c, "b"), InterruptAct(1, TimerFired)];
    s := TimedOutWaiter(maxSize, c);
  }

  /**
   * The stuck run: a waiter is timed out, the worker is handed to it before it
   * wakes, and it leaves. The queue is then empty and quiescent, yet a request
   * admitted later waits behind an active entry that is gone.
   */
  lemma StuckRun(maxSize: nat, c: string) returns (acts: seq<Act>, s: Sched, later: Sched)
    requires maxSize >= 2
    ensures Leads(Initial(maxSize, true), acts, s)
    ensures acts == [AdmitAct(c, "a"), AdmitAct(c, "b"), InterruptAct(1, TimerFired)]
      + [FinishAct(0, Success), TimeoutAct(1)]
    ensures Doomed(s) && s.depth == 0 && s.quiescent && s.active == Some(1)
    ensures later == Admit(s, c, "c") && AtPlace(later, 2, AtWait) && Doomed(later)
  {
    var first := [AdmitAct(c, "a"), AdmitAct(c, "b"), InterruptAct(1, TimerFired)];
    var s3 := TimedOutWaiter(maxSize, c);
    var s4 := Apply(s3, FinishAct(0, Success));
    LeadsOn(Initial(maxSize, true), first, s3, FinishAct(0, Success), first + [FinishAct(0, Success)]);
    s := Apply(s4, TimeoutAct(1));
    acts := first + [FinishAct(0, Success), TimeoutAct(1)];
    LeadsOn(Initial(maxSize, true), first + [FinishAct(0, Success)], s4, TimeoutAct(1), acts);
    later := Admit(s, c, "c");
  }
}

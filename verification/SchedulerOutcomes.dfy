/** What becomes of each call, read off the steps of a run: outcomes, counters, admission and cancellation. */
module SchedulerOutcomes {
  import opened Common
  import opened SchedulerModel
  import opened SchedulerSafety
  import opened SchedulerLaws

  // ------------------------------------------------------------ how a run ends

  /** The acts that end the call `id`. */
  predicate Leaves(act: Act, id: nat) {
    (act.FinishAct? || act.TimeoutAct? || act.CancelledAct?) && act.id == id
  }

  /** The record of a call that went through `acts`. */
  ghost predicate Fate(acts: seq<Act>, id: nat, r: Run) {
    && (r.place == Gone <==> exists act :: act in acts && Leaves(act, id))
    && (r.state == COMPLETED <==> FinishAct(id, Success) in acts)
    && (r.state == FAILED <==> FinishAct(id, OpFailed) in acts)
    && (r.state == TIMED_OUT <==> FinishAct(id, OpTimedOut) in acts || TimeoutAct(id) in acts)
    && (r.state == CANCELLED <==> FinishAct(id, OpCancelled) in acts || CancelledAct(id) in acts)
    && (r.reason == Some(CompletedOk) <==> FinishAct(id, Success) in acts)
    && (r.reason == Some(OperationFailed) <==> FinishAct(id, OpFailed) in acts)
    && (r.reason == Some(SynthesisTimeout) <==> FinishAct(id, OpTimedOut) in acts)
    && (r.reason == Some(CancelledWhileActive) <==> FinishAct(id, OpCancelled) in acts)
    && (r.reason == Some(QueueWaitTimeout) <==> TimeoutAct(id) in acts)
  }

  lemma Frozen(s: Sched, act: Act, id: nat)
    requires Inv(s) && Enabled(s, act) && id < |s.runs| && s.runs[id].place == Gone
    ensures !Leaves(act, id) && id < |Apply(s, act).runs| && Apply(s, act).runs[id] == s.runs[id]
  {
    StatesFollowTable(s, act, id);
  }

  lemma {:induction false} FrozenThrough(s: Sched, acts: seq<Act>, s': Sched, id: nat)
    requires Inv(s) && Leads(s, acts, s') && id < |s.runs| && s.runs[id].place == Gone
    ensures id < |s'.runs| && s'.runs[id] == s.runs[id]
    ensures forall act :: act in acts ==> !Leaves(act, id)
    decreases |acts|
  {
    if acts != [] {
      StepInv(s, acts[0]);
      Frozen(s, acts[0], id);
      FrozenThrough(Apply(s, acts[0]), acts[1..], s', id);
    }
  }

  /** The act that ends a call is all its record tells. */
  lemma FateOfLast(s: Sched, act: Act, id: nat)
    requires Inv(s) && Enabled(s, act) && Leaves(act, id)
    ensures id < |Apply(s, act).runs| && Fate([act], id, Apply(s, act).runs[id])
  {
    RunAfterStep(s, act, id);
    var r, r' := s.runs[id], RunAfter(s, act, id);
    match act
    case FinishAct(_, how) => FateOfFinish(r, id, how);
    case TimeoutAct(_) => FateOfTimeout(r, id);
    case CancelledAct(_) => FateOfCancelled(r, id);
  }

  lemma FateOfFinish(r: Run, id: nat, how: How)
    requires r.state == ACTIVE
    ensures Fate([FinishAct(id, how)], id, Ended(r, how))
  {
    assert FinishAct(id, how) in [FinishAct(id, how)] && Leaves(FinishAct(id, how), id);
  }

  lemma FateOfTimeout(r: Run, id: nat)
    ensures Fate([TimeoutAct(id)], id, Left(r, QueueWaitTimeout))
  {
    assert TimeoutAct(id) in [TimeoutAct(id)] && Leaves(TimeoutAct(id), id);
  }

  lemma FateOfCancelled(r: Run, id: nat)
    requires r.reason.None? || r.reason == Some(DrainCancelled)
    ensures Fate([CancelledAct(id)], id, Left(r, if r.reason.Some? then r.reason.value else CancelledWhileWaiting))
  {
    assert CancelledAct(id) in [CancelledAct(id)] && Leaves(CancelledAct(id), id);
  }

  lemma LivesOn(s: Sched, act: Act, id: nat)
    requires Inv(s) && Enabled(s, act) && !Leaves(act, id) && (id < |s.runs| ==> Live(s.runs[id]))
    ensures id < |Apply(s, act).runs| ==> Live(Apply(s, act).runs[id])
  {
    if id < |s.runs| {
      RunAfterStep(s, act, id);
      LeftOnly(s, act, id);
    } else {
      OnlyAdmitAdds(s, act);
    }
  }

  /** Only an act that ends a call moves it out. */
  lemma LeftOnly(s: Sched, act: Act, id: nat)
    requires id < |s.runs| && !Leaves(act, id) && Live(s.runs[id])
    ensures Live(RunAfter(s, act, id))
  {
  }

  lemma FateOfLive(s: Sched, id: nat)
    requires Inv(s) && id < |s.runs| && Live(s.runs[id])
    ensures Fate([], id, s.runs[id])
  {
    assert RunOk(s.runs[id], s.active == Some(id), id in s.waiters);
  }

  lemma FateCons(acts: seq<Act>, id: nat, r: Run)
    requires acts != []
    requires if Leaves(acts[0], id) then
        Fate([acts[0]], id, r) && forall act :: act in acts[1..] ==> !Leaves(act, id)
      else Fate(acts[1..], id, r)
    ensures Fate(acts, id, r)
  {
    assert forall act :: act in acts <==> act == acts[0] || act in acts[1..];
    if Leaves(acts[0], id) {
      assert forall act :: act in [acts[0]] <==> act == acts[0];
      forall act | act in acts && Leaves(act, id)
        ensures act == acts[0]
      {
      }
    }
  }

  lemma {:induction false} FateThrough(s: Sched, acts: seq<Act>, s': Sched, id: nat)
    requires Inv(s) && Leads(s, acts, s') && id < |s'.runs| && (id < |s.runs| ==> Live(s.runs[id]))
    ensures Fate(acts, id, s'.runs[id])
    decreases |acts|
  {
    if acts == [] {
      FateOfLive(s, id);
    } else {
      var act, s1 := acts[0], Apply(s, acts[0]);
      StepInv(s, act);
      if Leaves(act, id) {
        FateOfLast(s, act, id);
        FrozenThrough(s1, acts[1..], s', id);
      } else {
        LivesOn(s, act, id);
        FateThrough(s1, acts[1..], s', id);
      }
      FateCons(acts, id, s'.runs[id]);
    }
  }

  /**
   * Outcomes: in every reachable state a call is over exactly when one of the
   * run's steps ended it, and its state and reason are those of that step: an
   * operation that succeeded, failed, timed out or was cancelled, or a wait
   * that timed out or was cancelled.
   */
  lemma OutcomesExactly(maxSize: nat, counting: bool, acts: seq<Act>, s: Sched, id: nat)
    requires Leads(Initial(maxSize, counting), acts, s) && id < |s.runs|
    ensures Fate(acts, id, s.runs[id])
  {
    InitialInv(maxSize, counting);
    FateThrough(Initial(maxSize, counting), acts, s, id);
  }

  // ------------------------------------------------------------ the counters

  function Number(acts: seq<Act>, f: Act -> bool): nat {
    if acts == [] then 0 else (if f(acts[0]) then 1 else 0) + Number(acts[1..], f)
  }

  function Finished(how: How): Act -> bool {
    (act: Act) => act.FinishAct? && act.end == how
  }

  function WaitTimedOut(): Act -> bool {
    (act: Act) => act.TimeoutAct?
  }

  function WaitCancelled(): Act -> bool {
    (act: Act) => act.CancelledAct?
  }

  function Called(): Act -> bool {
    (act: Act) => act.AdmitAct?
  }

  function One(f: Act -> bool, act: Act): nat {
    if f(act) then 1 else 0
  }

  /** The counters after an act, given those before. */
  predicate Bumped(l: Ledger, l': Ledger, act: Act, joined: int) {
    && l'.completed == l.completed + One(Finished(Success), act)
    && l'.failed == l.failed + One(Finished(OpFailed), act)
    && l'.cancelledActive == l.cancelledActive + One(Finished(OpCancelled), act)
    && l'.timedOut == l.timedOut + One(Finished(OpTimedOut), act) + One(WaitTimedOut(), act)
    && l'.cancelledQueued == l.cancelledQueued + One(WaitCancelled(), act)
    && l'.admitted + l'.rejected == l.admitted + l.rejected + One(Called(), act)
    && l'.admitted - l.admitted == joined
  }

  lemma LedgerFinish(s: Sched, id: nat, how: How)
    requires Inv(s) && Enabled(s, FinishAct(id, how)) && s.counting
    ensures Bumped(s.ledger, Finish(s, id, how).ledger, FinishAct(id, how), 0) && Finish(s, id, how).counting
  {
    assert RunOk(s.runs[id], s.active == Some(id), id in s.waiters);
    assert Finish(s, id, how).ledger == EndLedger(true, s.ledger, s.runs[id], how);
  }

  lemma LedgerLeave(s: Sched, act: Act)
    requires Inv(s) && Enabled(s, act) && s.counting && (act.TimeoutAct? || act.CancelledAct?)
    ensures Bumped(s.ledger, Apply(s, act).ledger, act, 0) && Apply(s, act).counting
    ensures |Apply(s, act).runs| == |s.runs|
  {
    assert RunOk(s.runs[act.id], s.active == Some(act.id), act.id in s.waiters);
  }

  lemma LedgerAdmit(s: Sched, conn: string, synth: string)
    requires s.counting
    ensures var s' := Admit(s, conn, synth);
      Bumped(s.ledger, s'.ledger, AdmitAct(conn, synth), |s'.runs| - |s.runs|) && s'.counting
  {
  }

  lemma LedgerElse(s: Sched, act: Act)
    requires Enabled(s, act) && !act.AdmitAct? && !act.FinishAct? && !act.TimeoutAct? && !act.CancelledAct?
    ensures var s' := Apply(s, act);
      s'.ledger == s.ledger && |s'.runs| == |s.runs| && s'.counting == s.counting
  {
    match act
    case InterruptAct(_, _) =>
    case ResumeAct(_) =>
    case DrainAct =>
    case CancelConnectionAct(_) =>
    case _ =>
  }

  /** What one act adds to each counter. */
  lemma LedgerStep(s: Sched, act: Act)
    requires Inv(s) && Enabled(s, act) && s.counting
    ensures Bumped(s.ledger, Apply(s, act).ledger, act, |Apply(s, act).runs| - |s.runs|)
    ensures Apply(s, act).counting
  {
    match act
    case FinishAct(id, how) =>
      FinishLength(s, id, how);
      LedgerFinish(s, id, how);
    case TimeoutAct(_) => LedgerLeave(s, act);
    case CancelledAct(_) => LedgerLeave(s, act);
    case AdmitAct(conn, synth) => LedgerAdmit(s, conn, synth);
    case _ => LedgerElse(s, act);
  }

  lemma {:induction false} LedgerThrough(s: Sched, acts: seq<Act>, s': Sched)
    requires Inv(s) && Leads(s, acts, s') && s.counting
    ensures var l, l' := s.ledger, s'.ledger;
      && l'.completed == l.completed + Number(acts, Finished(Success))
      && l'.failed == l.failed + Number(acts, Finished(OpFailed))
      && l'.cancelledActive == l.cancelledActive + Number(acts, Finished(OpCancelled))
      && l'.timedOut == l.timedOut + Number(acts, Finished(OpTimedOut)) + Number(acts, WaitTimedOut())
      && l'.cancelledQueued == l.cancelledQueued + Number(acts, WaitCancelled())
      && l'.admitted + l'.rejected == l.admitted + l.rejected + Number(acts, Called())
      && l'.admitted - l.admitted == |s'.runs| - |s.runs|
    decreases |acts|
  {
    if acts != [] {
      StepInv(s, acts[0]);
      LedgerStep(s, acts[0]);
      LedgerThrough(Apply(s, acts[0]), acts[1..], s');
    }
  }

  /** With counters, each is the number of the run's steps with that ending; every call was admitted or rejected. */
  lemma CountersExactly(maxSize: nat, acts: seq<Act>, s: Sched)
    requires Leads(Initial(maxSize, true), acts, s)
    ensures s.ledger.completed == Number(acts, Finished(Success))
    ensures s.ledger.failed == Number(acts, Finished(OpFailed))
    ensures s.ledger.cancelledActive == Number(acts, Finished(OpCancelled))
    ensures s.ledger.timedOut == Number(acts, Finished(OpTimedOut)) + Number(acts, WaitTimedOut())
    ensures s.ledger.cancelledQueued == Number(acts, WaitCancelled())
    ensures s.ledger.admitted == |s.runs|
    ensures s.ledger.admitted + s.ledger.rejected == Number(acts, Called())
  {
    InitialInv(maxSize, true);
    LedgerThrough(Initial(maxSize, true), acts, s);
  }

  // ------------------------------------------------------------ admission

  lemma SettingsStep(s: Sched, act: Act)
    requires Enabled(s, act)
    ensures var s' := Apply(s, act);
      s'.maxSize == s.maxSize && (s'.draining <==> s.draining || act.DrainAct?)
  {
    match act
    case FinishAct(id, how) =>
    case TimeoutAct(_) =>
    case CancelledAct(_) =>
    case _ =>
  }

  lemma {:induction false} SettingsThrough(s: Sched, acts: seq<Act>, s': Sched)
    requires Leads(s, acts, s')
    ensures s'.maxSize == s.maxSize && (s'.draining <==> s.draining || DrainAct in acts)
    decreases |acts|
  {
    if acts != [] {
      SettingsStep(s, acts[0]);
      SettingsThrough(Apply(s, acts[0]), acts[1..], s');
      assert DrainAct in acts <==> acts[0] == DrainAct || DrainAct in acts[1..];
    }
  }

  /** A new call: running at once, or last in the queue. */
  predicate Joins(s: Sched, s': Sched, conn: string, synth: string) {
    && |s'.runs| == |s.runs| + 1 && s'.runs[..|s.runs|] == s.runs
    && var r := s'.runs[|s.runs|];
       && r.conn == conn && r.synth == synth && r.reason.None?
       && (if s.active.None? then
             r.place == Operating && r.state == ACTIVE && s'.active == Some(|s.runs|) && s'.waiters == s.waiters
           else
             && r.place == AtWait && r.state == WAITING && r.future == Pending && r.interrupt == NoInterrupt
             && s'.active == s.active && s'.waiters == s.waiters + [|s.runs|])
  }

  /**
   * Admission: a call is refused exactly when the scheduler was drained before
   * or as many calls as it may hold are still there; then nothing changes but
   * the count of refusals. Any other call runs at once or joins the queue last.
   */
  lemma AdmissionExactly(maxSize: nat, counting: bool, acts: seq<Act>, s: Sched, conn: string, synth: string)
    requires Leads(Initial(maxSize, counting), acts, s)
    ensures var s' := Apply(s, AdmitAct(conn, synth));
      if DrainAct in acts || Count(s.runs, Live) >= maxSize then
        s' == s.(calls := s'.calls, ledger := s.ledger.(rejected := s'.ledger.rejected))
      else Joins(s, s', conn, synth)
  {
    InitialInv(maxSize, counting);
    RunInv(Initial(maxSize, counting), acts, s);
    SettingsThrough(Initial(maxSize, counting), acts, s);
  }

  // ------------------------------------------------------------ drain and cancellation

  /** A waiter whose pending future was cancelled, with everything else as it was. */
  predicate Woken(r: Run, r': Run, reason: Option<Reason>) {
    r' == r.(future := if r.future == Pending then Cancelled else r.future, reason := reason)
  }

  /**
   * The first drain marks every queued call and cancels its pending future,
   * and empties the queue; no other call is touched, and the drain is done at
   * once exactly when none was queued. A second drain changes nothing.
   */
  lemma DrainExactly(s: Sched, i: nat)
    requires Inv(s) && !s.draining && i < |s.runs|
    ensures var s' := Drain(s);
      && s'.draining && s'.waiters == [] && |s'.runs| == |s.runs|
      && (if i in s.waiters then Woken(s.runs[i], s'.runs[i], Some(DrainCancelled)) else s'.runs[i] == s.runs[i])
      && s'.drainRemaining == |s.waiters| && (s'.drainDone <==> s.waiters == [])
      && s'.active == s.active && s'.depth == s.depth && s'.ledger == s.ledger
      && Drain(s') == s'
  {
    assert RunOk(s.runs[i], s.active == Some(i), i in s.waiters);
  }

  /**
   * Cancelling a connection: exactly its own calls leave the queue, the others
   * keep their order, and exactly the leaving ones have their pending futures
   * cancelled; nothing else changes.
   */
  lemma CancelConnectionExactly(s: Sched, conn: string, i: nat)
    requires Inv(s) && i < |s.runs|
    ensures var s' := CancelConnection(s, conn);
      && |s'.runs| == |s.runs|
      && (i in s'.waiters <==> i in s.waiters && s.runs[i].conn != conn)
      && Increasing(s'.waiters)
      && (if i in s.waiters && s.runs[i].conn == conn then Woken(s.runs[i], s'.runs[i], s.runs[i].reason)
          else s'.runs[i] == s.runs[i])
      && s' == s.(runs := s'.runs, waiters := s'.waiters)
  {
    OrderParts(s.activations, s.waiters, |s.runs|);
    KeptFacts(s.runs, s.waiters, conn);
  }

  /** The task of the operation in progress is known. */
  ghost predicate TaskKnown(s: Sched) {
    forall i: nat :: AtPlace(s, i, Operating) ==> s.activeTask == Some(i)
  }

  lemma TaskKnownStep(s: Sched, act: Act)
    requires Inv(s) && Enabled(s, act) && TaskKnown(s)
    ensures TaskKnown(Apply(s, act))
  {
    var s' := Apply(s, act);
    forall i: nat | AtPlace(s', i, Operating)
      ensures s'.activeTask == Some(i)
    {
      if i < |s.runs| {
        OperatingTask(s, act, i);
      } else {
        OnlyAdmitAdds(s, act);
      }
    }
  }

  lemma OnlyAdmitAdds(s: Sched, act: Act)
    requires Enabled(s, act)
    ensures !act.AdmitAct? ==> |Apply(s, act).runs| == |s.runs|
  {
    match act
    case AdmitAct(_, _) =>
    case FinishAct(id, how) => FinishLength(s, id, how);
    case TimeoutAct(_) =>
    case CancelledAct(_) =>
    case _ => LedgerElse(s, act);
  }

  /** A run that was operating keeps its task; one that resumes becomes it. */
  lemma OperatingTask(s: Sched, act: Act, i: nat)
    requires Inv(s) && Enabled(s, act) && TaskKnown(s) && i < |s.runs|
    requires AtPlace(Apply(s, act), i, Operating)
    ensures Apply(s, act).activeTask == Some(i)
  {
    RunAfterStep(s, act, i);
    assert RunOk(s.runs[i], s.active == Some(i), i in s.waiters);
    match act
    case ResumeAct(id) => ResumeInv(s, id);
    case FinishAct(id, how) => FinishOperating(s, id, how, i);
    case AdmitAct(_, _) => assert AtPlace(s, i, Operating);
    case _ => assert AtPlace(s, i, Operating);
  }

  lemma FinishOperating(s: Sched, id: nat, how: How, i: nat)
    requires Inv(s) && Enabled(s, FinishAct(id, how)) && i < |s.runs|
    ensures !AtPlace(Finish(s, id, how), i, Operating)
  {
    RunAfterStep(s, FinishAct(id, how), i);
    if AtPlace(s, i, Operating) {
      MutualExclusion(s, i, id);
    }
  }

  lemma {:induction false} TaskKnownThrough(s: Sched, acts: seq<Act>, s': Sched)
    requires Inv(s) && Leads(s, acts, s') && TaskKnown(s)
    ensures Inv(s') && TaskKnown(s')
    decreases |acts|
  {
    if acts != [] {
      StepInv(s, acts[0]);
      TaskKnownStep(s, acts[0]);
      TaskKnownThrough(Apply(s, acts[0]), acts[1..], s');
    }
  }

  /** The operation in progress is `i`'s, and only its task is interrupted. */
  predicate Interrupts(s: Sched, s': Sched, i: nat) {
    i < |s.runs| && s' == s.(runs := s.runs[i := s.runs[i].(interrupt := TaskCancelled)])
  }

  /**
   * In every reachable state `cancel_synthesis` and
   * `cancel_active_for_connection` hit exactly when the operation in progress
   * has that synthesis id or connection, and interrupt its task alone.
   */
  lemma CancelActiveExactly(maxSize: nat, counting: bool, acts: seq<Act>, s: Sched, name: string)
    requires Leads(Initial(maxSize, counting), acts, s)
    ensures Enabled(s, CancelSynthesisAct(name))
      <==> exists i: nat :: AtPlace(s, i, Operating) && s.runs[i].synth == name
    ensures Enabled(s, CancelActiveAct(name))
      <==> exists i: nat :: AtPlace(s, i, Operating) && s.runs[i].conn == name
    ensures forall i: nat :: AtPlace(s, i, Operating) && s.runs[i].synth == name ==>
      Interrupts(s, Apply(s, CancelSynthesisAct(name)), i)
    ensures forall i: nat :: AtPlace(s, i, Operating) && s.runs[i].conn == name ==>
      Interrupts(s, Apply(s, CancelActiveAct(name)), i)
  {
    InitialInv(maxSize, counting);
    TaskKnownThrough(Initial(maxSize, counting), acts, s);
    forall i: nat | AtPlace(s, i, Operating)
      ensures s.active == Some(i) && s.activeTask == Some(i)
    {
      MutualExclusion(s, i, i);
    }
    if s.activeTask.Some? {
      assert AtPlace(s, s.activeTask.value, Operating);
    }
  }
}

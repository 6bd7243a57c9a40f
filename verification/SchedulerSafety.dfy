/** What every step of the scheduler keeps, and what follows for every run. */
module SchedulerSafety {
  import opened Common
  import opened SchedulerModel

  // ------------------------------------------------------------ counting runs

  function Count(runs: seq<Run>, f: Run -> bool): (n: nat)
    ensures n <= |runs|
  {
    if runs == [] then 0
    else Count(runs[..|runs| - 1], f) + (if f(runs[|runs| - 1]) then 1 else 0)
  }

  lemma {:induction false} CountUpdate(runs: seq<Run>, i: nat, r: Run, f: Run -> bool)
    requires i < |runs|
    ensures Count(runs[i := r], f)
         == Count(runs, f) - (if f(runs[i]) then 1 else 0) + (if f(r) then 1 else 0)
  {
    var last := |runs| - 1;
    if i == last {
      assert runs[i := r][..last] == runs[..last];
    } else {
      assert runs[i := r][..last] == runs[..last][i := r];
      CountUpdate(runs[..last], i, r, f);
    }
  }

  lemma {:induction false} CountSame(p: seq<Run>, q: seq<Run>, f: Run -> bool)
    requires |p| == |q| && forall i :: 0 <= i < |p| ==> f(p[i]) == f(q[i])
    ensures Count(p, f) == Count(q, f)
  {
    if p != [] {
      CountSame(p[..|p| - 1], q[..|q| - 1], f);
    }
  }

  lemma {:induction false} CountZero(runs: seq<Run>, f: Run -> bool)
    ensures Count(runs, f) == 0 <==> forall i :: 0 <= i < |runs| ==> !f(runs[i])
  {
    if runs != [] {
      var last := |runs| - 1;
      CountZero(runs[..last], f);
      assert forall i :: 0 <= i < last ==> runs[..last][i] == runs[i];
      if Count(runs, f) == 0 {
        assert forall i :: 0 <= i < last ==> !f(runs[..last][i]);
      }
    }
  }

  ghost predicate Increasing(ws: seq<nat>) {
    forall i, j :: 0 <= i < j < |ws| ==> ws[i] < ws[j]
  }

  /** The largest id, if listed, stands last. */
  lemma WithoutLast(ids: seq<nat>, last: nat) returns (fewer: seq<nat>)
    requires Increasing(ids) && forall k :: k in ids ==> k <= last
    ensures Increasing(fewer) && forall k :: k in fewer <==> k in ids && k != last
    ensures |ids| == |fewer| + (if last in ids then 1 else 0)
  {
    if last in ids {
      var k :| 0 <= k < |ids| && ids[k] == last;
      assert ids[|ids| - 1] in ids;
      fewer := ids[..k];
      assert ids == fewer + [last];
    } else {
      fewer := ids;
    }
  }

  /** `ids` lists, in order, exactly the runs with property `f`. */
  lemma {:induction false} CountListed(runs: seq<Run>, ids: seq<nat>, f: Run -> bool)
    requires Increasing(ids) && forall k :: k in ids ==> k < |runs|
    requires forall i :: 0 <= i < |runs| ==> (f(runs[i]) <==> i in ids)
    ensures Count(runs, f) == |ids|
  {
    assert ids == [] || ids[0] in ids;
    if runs != [] {
      var fewer := WithoutLast(ids, |runs| - 1);
      CountListed(runs[..|runs| - 1], fewer, f);
    }
  }

  // ------------------------------------------------------------ the invariant

  predicate Live(r: Run) {
    r.place != Gone
  }

  predicate DrainedWaiting(r: Run) {
    r.place == AtWait && r.reason == Some(DrainCancelled)
  }

  /** How a run that is over ended. */
  function OutcomeOf(r: Run): Option<Reason> {
    if r.place == Gone then r.reason else None
  }

  function TallyStep(t: Ledger, r: Run): Ledger {
    var t' := t.(admitted := t.admitted + 1);
    if OutcomeOf(r).Some? then RecordTerminal(t', OutcomeOf(r).value) else t'
  }

  /** What the counters should show for `runs`: every admission, and every outcome once. */
  function Tally(runs: seq<Run>): Ledger {
    if runs == [] then Ledger(0, 0, 0, 0, 0, 0, 0)
    else TallyStep(Tally(runs[..|runs| - 1]), runs[|runs| - 1])
  }

  /** One run, given whether it is the active entry and whether it is queued. */
  predicate RunOk(r: Run, isActive: bool, queued: bool) {
    match r.place
    case Operating =>
      isActive && !queued && r.state == ACTIVE && r.reason.None? && !r.counted
    case AtWait =>
      && !r.counted && r.future != NoFuture
      && (r.future == Pending ==> queued && r.interrupt == NoInterrupt)
      && (r.future == Resolved ==> isActive)
      && (if isActive then
            !queued && r.state == ACTIVE && r.reason.None? && (r.future == Resolved || r.interrupt != NoInterrupt)
          else if queued then
            r.state == WAITING && r.reason.None? && (r.future == Pending || r.interrupt != NoInterrupt)
          else
            r.state == WAITING && (r.reason.None? || r.reason == Some(DrainCancelled)))
    case Gone =>
      !queued && r.counted && r.reason.Some? && r.state == StateOf(r.reason.value)
  }

  ghost predicate RunsOk(s: Sched) {
    forall i :: 0 <= i < |s.runs| ==> RunOk(s.runs[i], s.active == Some(i), i in s.waiters)
  }

  /** FIFO order: the activation history and then the queue, in strictly increasing admission order. */
  ghost predicate OrderOk(activations: seq<nat>, waiters: seq<nat>, bound: nat) {
    && Increasing(activations + waiters)
    && forall k :: k in activations + waiters ==> k < bound
  }

  ghost predicate QueueOk(s: Sched) {
    && OrderOk(s.activations, s.waiters, |s.runs|)
    && (s.active.None? ==> s.waiters == [])
    && (s.active.Some? ==> s.activations != [] && s.activations[|s.activations| - 1] == s.active.value)
    && (s.activeTask.Some? ==> s.activeTask == s.active && AtPlace(s, s.activeTask.value, Operating))
    && (s.activeComplete <==> s.active.None?)
  }

  /** Depth and pending both count the live runs, and stay within the bound. */
  ghost predicate DepthOk(s: Sched) {
    && s.depth == s.pending == Count(s.runs, Live)
    && s.depth <= s.maxSize
    && (s.quiescent <==> s.depth == 0)
  }

  /** The counters are the tally of the admitted runs; every call was admitted or rejected. */
  ghost predicate LedgerOk(s: Sched) {
    s.counting ==>
      && s.ledger == Tally(s.runs).(rejected := s.ledger.rejected)
      && s.calls == |s.runs| + s.ledger.rejected
  }

  /** The drain counter: drained waiters still to leave, plus those whose signal was lost. */
  ghost predicate DrainOk(s: Sched) {
    && s.drainRemaining == Count(s.runs, DrainedWaiting) + s.lost
    && (s.drainDone <==> s.drainRemaining == 0)
    && (s.draining ==> s.waiters == [])
    && (!s.draining ==> s.drainRemaining == 0)
  }

  /** Who is where, and in what order. */
  ghost predicate Ordered(s: Sched) {
    RunsOk(s) && QueueOk(s)
  }

  /** What the counters say. */
  ghost predicate Balanced(s: Sched) {
    DepthOk(s) && LedgerOk(s) && DrainOk(s)
  }

  ghost predicate Inv(s: Sched) {
    Ordered(s) && Balanced(s)
  }

  lemma InitialInv(maxSize: nat, counting: bool)
    ensures Inv(Initial(maxSize, counting))
  {
  }

  // ------------------------------------------------------------ lists

  lemma IncreasingCons(x: nat, ws: seq<nat>)
    requires Increasing(ws) && forall j :: j in ws ==> x < j
    ensures Increasing([x] + ws)
  {
    forall i, j | 0 <= i < j < |[x] + ws|
      ensures ([x] + ws)[i] < ([x] + ws)[j]
    {
      assert ws[j - 1] in ws;
    }
  }

  lemma {:induction false} WithoutFacts(ws: seq<nat>, id: nat)
    requires Increasing(ws)
    ensures Increasing(Without(ws, id))
    ensures forall j :: j in Without(ws, id) <==> j in ws && j != id
  {
    if ws != [] {
      if ws[0] != id {
        WithoutFacts(ws[1..], id);
        IncreasingCons(ws[0], Without(ws[1..], id));
      }
    }
  }

  lemma {:induction false} KeptFacts(runs: seq<Run>, ws: seq<nat>, conn: string)
    requires Increasing(ws)
    ensures Increasing(Kept(runs, ws, conn))
    ensures forall j :: j in Kept(runs, ws, conn) <==> j in ws && !(j < |runs| && runs[j].conn == conn)
  {
    if ws != [] {
      KeptFacts(runs, ws[1..], conn);
      if !(ws[0] < |runs| && runs[ws[0]].conn == conn) {
        IncreasingCons(ws[0], Kept(runs, ws[1..], conn));
      }
    }
  }

  /** The parts of an ordered queue. */
  lemma OrderParts(p: seq<nat>, q: seq<nat>, bound: nat)
    requires OrderOk(p, q, bound)
    ensures Increasing(p) && Increasing(q)
    ensures forall k :: k in p || k in q ==> k < bound
    ensures forall j, k :: j in p && k in q ==> j < k
  {
    assert forall i :: 0 <= i < |p| ==> (p + q)[i] == p[i];
    assert forall i :: 0 <= i < |q| ==> (p + q)[|p| + i] == q[i];
    forall j, k | j in p && k in q
      ensures j < k
    {
      var a :| 0 <= a < |p| && p[a] == j;
      var b :| 0 <= b < |q| && q[b] == k;
      assert (p + q)[a] < (p + q)[|p| + b];
    }
    forall k | k in p || k in q
      ensures k in p + q
    {
    }
  }

  lemma OrderJoin(p: seq<nat>, q: seq<nat>, bound: nat)
    requires Increasing(p) && Increasing(q)
    requires forall k :: k in p || k in q ==> k < bound
    requires forall j, k :: j in p && k in q ==> j < k
    ensures OrderOk(p, q, bound)
  {
    forall i, j | 0 <= i < j < |p + q|
      ensures (p + q)[i] < (p + q)[j]
    {
      if i < |p| <= j {
        assert p[i] in p && q[j - |p|] in q;
      }
    }
  }

  /** Waiters may leave without disturbing the order. */
  lemma OrderSub(p: seq<nat>, q: seq<nat>, q': seq<nat>, bound: nat)
    requires OrderOk(p, q, bound) && Increasing(q') && forall k :: k in q' ==> k in q
    ensures OrderOk(p, q', bound)
  {
    OrderParts(p, q, bound);
    OrderJoin(p, q', bound);
  }

  /** A new id goes last, to the queue or straight to the activations. */
  lemma OrderSnoc(p: seq<nat>, q: seq<nat>, bound: nat)
    requires OrderOk(p, q, bound)
    ensures OrderOk(p, q + [bound], bound + 1)
    ensures q == [] ==> OrderOk(p + [bound], q, bound + 1)
  {
    assert p + (q + [bound]) == (p + q) + [bound];
    IncreasingSnoc(p + q, bound);
    if q == [] {
      assert (p + [bound]) + q == (p + q) + [bound];
    }
  }

  lemma IncreasingSnoc(ws: seq<nat>, x: nat)
    requires Increasing(ws) && forall k :: k in ws ==> k < x
    ensures Increasing(ws + [x])
  {
    forall i, j | 0 <= i < j < |ws + [x]|
      ensures (ws + [x])[i] < (ws + [x])[j]
    {
      assert ws[i] in ws;
    }
  }

  // ------------------------------------------------------------ counting one changed run

  lemma RecordCommutes(t: Ledger, r: Run, reason: Reason)
    ensures TallyStep(RecordTerminal(t, reason), r) == RecordTerminal(TallyStep(t, r), reason)
  {
  }

  lemma {:induction false} TallySame(p: seq<Run>, q: seq<Run>)
    requires |p| == |q| && forall i :: 0 <= i < |p| ==> OutcomeOf(p[i]) == OutcomeOf(q[i])
    ensures Tally(p) == Tally(q)
  {
    if p != [] {
      TallySame(p[..|p| - 1], q[..|q| - 1]);
    }
  }

  /** A live run that ends is recorded once, whatever ended after it. */
  lemma {:induction false} TallyEnded(runs: seq<Run>, i: nat, r: Run)
    requires i < |runs| && OutcomeOf(runs[i]).None? && OutcomeOf(r).Some?
    ensures Tally(runs[i := r]) == RecordTerminal(Tally(runs), OutcomeOf(r).value)
  {
    var last := |runs| - 1;
    var reason := OutcomeOf(r).value;
    if i == last {
      assert runs[i := r][..last] == runs[..last];
    } else {
      assert runs[i := r][..last] == runs[..last][i := r];
      TallyEnded(runs[..last], i, r);
      RecordCommutes(Tally(runs[..last]), runs[last], reason);
    }
  }

  /** A change that leaves every outcome and every drained waiter alone moves no counter. */
  lemma SameBooks(s: Sched, s': Sched)
    requires Balanced(s)
    requires |s'.runs| == |s.runs|
    requires forall i :: 0 <= i < |s.runs| ==>
      && Live(s'.runs[i]) == Live(s.runs[i])
      && OutcomeOf(s'.runs[i]) == OutcomeOf(s.runs[i])
      && DrainedWaiting(s'.runs[i]) == DrainedWaiting(s.runs[i])
    requires s' == s.(runs := s'.runs, active := s'.active, activeTask := s'.activeTask, waiters := s'.waiters,
                      activations := s'.activations, activeComplete := s'.activeComplete)
    requires s.draining ==> s'.waiters == []
    ensures Balanced(s')
  {
    CountSame(s.runs, s'.runs, Live);
    CountSame(s.runs, s'.runs, DrainedWaiting);
    TallySame(s.runs, s'.runs);
  }

  // ------------------------------------------------------------ admission

  lemma FreshId(s: Sched)
    requires QueueOk(s)
    ensures |s.runs| !in s.waiters && s.active != Some(|s.runs|)
  {
    OrderParts(s.activations, s.waiters, |s.runs|);
  }

  lemma AdmitRunsOk(s: Sched, conn: string, synth: string)
    requires Ordered(s)
    ensures RunsOk(Admit(s, conn, synth))
  {
    FreshId(s);
    var s' := Admit(s, conn, synth);
    forall i | 0 <= i < |s'.runs|
      ensures RunOk(s'.runs[i], s'.active == Some(i), i in s'.waiters)
    {
      if i < |s.runs| {
        assert RunOk(s.runs[i], s.active == Some(i), i in s.waiters);
      }
    }
  }

  lemma AdmitQueueOk(s: Sched, conn: string, synth: string)
    requires QueueOk(s)
    ensures QueueOk(Admit(s, conn, synth))
  {
    FreshId(s);
    OrderSnoc(s.activations, s.waiters, |s.runs|);
  }

  function NewRun(s: Sched, conn: string, synth: string): (r: Run)
    ensures !s.draining && s.depth < s.maxSize ==> Admit(s, conn, synth).runs == s.runs + [r]
  {
    if s.active.None? then Run(conn, synth, Operating, NoFuture, NoInterrupt, ACTIVE, None, false)
    else Run(conn, synth, AtWait, Pending, NoInterrupt, WAITING, None, false)
  }

  /** What an admission does to the fields the counters depend on. */
  lemma Admitted(s: Sched, conn: string, synth: string)
    requires !s.draining && s.depth < s.maxSize
    ensures var s' := Admit(s, conn, synth);
      && s'.runs == s.runs + [NewRun(s, conn, synth)]
      && s'.depth == s.depth + 1 && s'.pending == s.pending + 1 && s'.calls == s.calls + 1
      && s'.maxSize == s.maxSize && s'.counting == s.counting
      && s'.quiescent == (if s.depth == 0 then false else s.quiescent)
      && s'.ledger == (if s.counting then s.ledger.(admitted := s.ledger.admitted + 1) else s.ledger)
      && s'.draining == s.draining && s'.drainRemaining == s.drainRemaining
      && s'.drainDone == s.drainDone && s'.lost == s.lost
  {
  }

  lemma AdmitDepth(s: Sched, conn: string, synth: string)
    requires DepthOk(s)
    ensures DepthOk(Admit(s, conn, synth))
  {
    if !(s.draining || s.depth >= s.maxSize) {
      Admitted(s, conn, synth);
      assert Live(NewRun(s, conn, synth));
    }
  }

  lemma AdmitLedger(s: Sched, conn: string, synth: string)
    requires LedgerOk(s)
    ensures LedgerOk(Admit(s, conn, synth))
  {
    if !(s.draining || s.depth >= s.maxSize) {
      Admitted(s, conn, synth);
    }
  }

  lemma AdmitDrain(s: Sched, conn: string, synth: string)
    requires DrainOk(s)
    ensures DrainOk(Admit(s, conn, synth))
  {
    if !(s.draining || s.depth >= s.maxSize) {
      Admitted(s, conn, synth);
      assert !DrainedWaiting(NewRun(s, conn, synth));
    }
  }

  // ------------------------------------------------------------ interrupts and waking

  lemma InterruptInv(s: Sched, id: nat, how: Interrupt)
    requires Inv(s) && Enabled(s, InterruptAct(id, how))
    ensures Inv(Apply(s, InterruptAct(id, how)))
  {
    SameBooks(s, Apply(s, InterruptAct(id, how)));
  }

  /** A task that wakes normally is the active entry: the fallback activation is never taken. */
  lemma ResumeInv(s: Sched, id: nat)
    requires Inv(s) && Enabled(s, ResumeAct(id))
    ensures s.active == Some(id)
    ensures Inv(Apply(s, ResumeAct(id)))
  {
    assert RunOk(s.runs[id], s.active == Some(id), id in s.waiters);
    SameBooks(s, Apply(s, ResumeAct(id)));
  }

  // ------------------------------------------------------------ leaving the queue

  /** Outcome `reason` is one of those the two handlers give waiter `id`. */
  predicate Leaves(s: Sched, id: nat, reason: Reason) {
    && AtPlace(s, id, AtWait)
    && s.runs[id].future != Pending
    && (s.runs[id].future == Resolved ==> s.runs[id].interrupt != NoInterrupt)
    && (|| reason == QueueWaitTimeout
        || reason == if s.runs[id].reason.Some? then s.runs[id].reason.value else CancelledWhileWaiting)
  }

  lemma LeaveOrdered(s: Sched, id: nat, reason: Reason)
    requires Ordered(s) && Leaves(s, id, reason)
    ensures Ordered(Leave(s, id, reason))
  {
    assert RunOk(s.runs[id], s.active == Some(id), id in s.waiters);
    OrderParts(s.activations, s.waiters, |s.runs|);
    WithoutFacts(s.waiters, id);
    OrderSub(s.activations, s.waiters, Without(s.waiters, id), |s.runs|);
  }

  lemma LeaveBalanced(s: Sched, id: nat, reason: Reason)
    requires Inv(s) && Leaves(s, id, reason)
    ensures Balanced(Leave(s, id, reason))
  {
    assert RunOk(s.runs[id], s.active == Some(id), id in s.waiters);
    var r' := Leave(s, id, reason).runs[id];
    CountUpdate(s.runs, id, r', Live);
    CountUpdate(s.runs, id, r', DrainedWaiting);
    TallyEnded(s.runs, id, r');
  }

  // ------------------------------------------------------------ finishing

  /** An operation that ends is the active entry's, and neither it nor the oldest waiter is mixed up. */
  lemma Finishing(s: Sched, id: nat, how: How)
    requires Ordered(s) && Enabled(s, FinishAct(id, how))
    ensures s.active == Some(id) && id !in s.waiters && RunOk(s.runs[id], true, false)
    ensures s.waiters != [] ==> s.waiters[0] != id
  {
    assert RunOk(s.runs[id], s.active == Some(id), id in s.waiters);
    assert s.waiters != [] ==> s.waiters[0] in s.waiters;
  }

  /** Which runs the end of an operation touches. */
  lemma FinishedRuns(s: Sched, id: nat, how: How, i: nat)
    requires Ordered(s) && Enabled(s, FinishAct(id, how)) && i < |s.runs|
    ensures var s' := Finish(s, id, how);
      && |s'.runs| == |s.runs|
      && s'.active == (if s.waiters != [] then Some(s.waiters[0]) else None)
      && s'.waiters == (if s.waiters != [] then s.waiters[1..] else [])
      && s'.runs[i] == if i == id then Ended(s.runs[i], how)
                       else if s.waiters != [] && i == s.waiters[0] then HandedOver(s.runs[i])
                       else s.runs[i]
    ensures s.active == Some(id) && id !in s.waiters && RunOk(s.runs[id], true, false)
  {
    Finishing(s, id, how);
  }

  lemma FinishRunsOk(s: Sched, id: nat, how: How)
    requires Ordered(s) && Enabled(s, FinishAct(id, how))
    ensures RunsOk(Finish(s, id, how))
  {
    var s' := Finish(s, id, how);
    OrderParts(s.activations, s.waiters, |s.runs|);
    forall i | 0 <= i < |s'.runs|
      ensures RunOk(s'.runs[i], s'.active == Some(i), i in s'.waiters)
    {
      FinishedRuns(s, id, how, i);
      assert RunOk(s.runs[i], i == id, i in s.waiters);
    }
  }

  lemma FinishQueueOk(s: Sched, id: nat, how: How)
    requires Ordered(s) && Enabled(s, FinishAct(id, how))
    ensures QueueOk(Finish(s, id, how))
  {
    assert RunOk(s.runs[id], s.active == Some(id), id in s.waiters);
    if s.waiters != [] {
      assert (s.activations + [s.waiters[0]]) + s.waiters[1..] == s.activations + s.waiters;
    }
  }

  /** Of all runs, only the finished one changes its outcome; the one handed over stays live. */
  lemma FinishRuns(s: Sched, id: nat, how: How)
    requires Ordered(s) && Enabled(s, FinishAct(id, how))
    ensures var runs1, runs2 := s.runs[id := Ended(s.runs[id], how)], Finish(s, id, how).runs;
      && |runs2| == |runs1|
      && (forall i :: 0 <= i < |runs1| ==>
          && Live(runs2[i]) == Live(runs1[i])
          && OutcomeOf(runs2[i]) == OutcomeOf(runs1[i])
          && DrainedWaiting(runs2[i]) == DrainedWaiting(runs1[i]))
      && (s.waiters != [] ==> Live(runs2[s.waiters[0]]))
    ensures s.active == Some(id) && s.runs[id].state == ACTIVE && s.runs[id].reason.None? && !s.runs[id].counted
  {
    assert RunOk(s.runs[id], s.active == Some(id), id in s.waiters);
    if s.waiters != [] {
      assert s.waiters[0] in s.waiters;
      assert RunOk(s.runs[s.waiters[0]], s.active == Some(s.waiters[0]), true);
    }
  }

  /** What the end of an operation does to the fields the counters depend on. */
  lemma Finished(s: Sched, id: nat, how: How)
    requires Ordered(s) && Enabled(s, FinishAct(id, how))
    ensures var s' := Finish(s, id, how);
      && s'.ledger == (if s.counting then RecordTerminal(s.ledger, ReasonOf(how)) else s.ledger)
      && s'.counting == s.counting && s'.calls == s.calls && |s'.runs| == |s.runs|
      && s'.maxSize == s.maxSize && s'.depth == s.depth - 1 && s'.pending == s.pending - 1
      && OutcomeOf(Ended(s.runs[id], how)) == Some(ReasonOf(how)) && OutcomeOf(s.runs[id]).None?
  {
    FinishRuns(s, id, how);
  }

  lemma FinishDepth(s: Sched, id: nat, how: How)
    requires Inv(s) && Enabled(s, FinishAct(id, how))
    ensures DepthOk(Finish(s, id, how))
  {
    FinishRuns(s, id, how);
    var runs1, runs2 := s.runs[id := Ended(s.runs[id], how)], Finish(s, id, how).runs;
    CountUpdate(s.runs, id, Ended(s.runs[id], how), Live);
    CountSame(runs1, runs2, Live);
    if s.waiters != [] {
      LiveExists(runs2, s.waiters[0]);
    }
  }

  lemma FinishLedger(s: Sched, id: nat, how: How)
    requires Inv(s) && Enabled(s, FinishAct(id, how))
    ensures LedgerOk(Finish(s, id, how))
  {
    FinishRuns(s, id, how);
    Finished(s, id, how);
    var r' := Ended(s.runs[id], how);
    TallyEnded(s.runs, id, r');
    TallySame(s.runs[id := r'], Finish(s, id, how).runs);
  }

  lemma FinishDrain(s: Sched, id: nat, how: How)
    requires Inv(s) && Enabled(s, FinishAct(id, how))
    ensures DrainOk(Finish(s, id, how))
  {
    FinishRuns(s, id, how);
    CountUpdate(s.runs, id, Ended(s.runs[id], how), DrainedWaiting);
    CountSame(s.runs[id := Ended(s.runs[id], how)], Finish(s, id, how).runs, DrainedWaiting);
  }

  lemma LiveExists(runs: seq<Run>, i: nat)
    requires i < |runs| && Live(runs[i])
    ensures Count(runs, Live) > 0
  {
    CountZero(runs, Live);
  }

  // ------------------------------------------------------------ drain and cancellation

  lemma DrainOrdered(s: Sched)
    requires Ordered(s)
    ensures Ordered(Drain(s))
  {
    OrderSub(s.activations, s.waiters, [], |s.runs|);
    var s' := Drain(s);
    forall i | 0 <= i < |s'.runs|
      ensures RunOk(s'.runs[i], s'.active == Some(i), i in s'.waiters)
    {
      assert RunOk(s.runs[i], s.active == Some(i), i in s.waiters);
    }
  }

  lemma DrainBalanced(s: Sched)
    requires Inv(s)
    ensures Balanced(Drain(s))
  {
    if !s.draining {
      var s' := Drain(s);
      forall i | 0 <= i < |s.runs|
        ensures Live(s'.runs[i]) == Live(s.runs[i])
        ensures OutcomeOf(s'.runs[i]) == OutcomeOf(s.runs[i])
        ensures DrainedWaiting(s'.runs[i]) <==> DrainedWaiting(s.runs[i]) || i in s.waiters
      {
        assert RunOk(s.runs[i], s.active == Some(i), i in s.waiters);
      }
      CountSame(s.runs, s'.runs, Live);
      TallySame(s.runs, s'.runs);
      OrderParts(s.activations, s.waiters, |s.runs|);
      CountZero(s.runs, DrainedWaiting);
      CountListed(s'.runs, s.waiters, DrainedWaiting);
    }
  }

  lemma CancelConnectionInv(s: Sched, conn: string)
    requires Inv(s)
    ensures Inv(CancelConnection(s, conn))
  {
    var s' := CancelConnection(s, conn);
    OrderParts(s.activations, s.waiters, |s.runs|);
    KeptFacts(s.runs, s.waiters, conn);
    OrderSub(s.activations, s.waiters, s'.waiters, |s.runs|);
    forall i | 0 <= i < |s'.runs|
      ensures RunOk(s'.runs[i], s'.active == Some(i), i in s'.waiters)
    {
      assert RunOk(s.runs[i], s.active == Some(i), i in s.waiters);
    }
    SameBooks(s, s');
  }

  lemma CancelActiveBalanced(s: Sched)
    requires Balanced(s)
    ensures Balanced(CancelActiveTask(s))
  {
    SameBooks(s, CancelActiveTask(s));
  }

  // ------------------------------------------------------------ every step, every run

  lemma StepInv(s: Sched, act: Act)
    requires Inv(s) && Enabled(s, act)
    ensures Inv(Apply(s, act))
  {
    match act
    case AdmitAct(conn, synth) =>
      AdmitRunsOk(s, conn, synth);
      AdmitQueueOk(s, conn, synth);
      AdmitDepth(s, conn, synth);
      AdmitLedger(s, conn, synth);
      AdmitDrain(s, conn, synth);
    case InterruptAct(id, how) => InterruptInv(s, id, how);
    case ResumeAct(id) => ResumeInv(s, id);
    case TimeoutAct(id) =>
      LeaveOrdered(s, id, QueueWaitTimeout);
      LeaveBalanced(s, id, QueueWaitTimeout);
    case CancelledAct(id) =>
      var reason := if s.runs[id].reason.Some? then s.runs[id].reason.value else CancelledWhileWaiting;
      LeaveOrdered(s, id, reason);
      LeaveBalanced(s, id, reason);
    case FinishAct(id, how) =>
      FinishRunsOk(s, id, how);
      FinishQueueOk(s, id, how);
      FinishDepth(s, id, how);
      FinishLedger(s, id, how);
      FinishDrain(s, id, how);
    case DrainAct =>
      DrainOrdered(s);
      DrainBalanced(s);
    case CancelConnectionAct(conn) => CancelConnectionInv(s, conn);
    case CancelSynthesisAct(_) =>
      CancelActiveBalanced(s);
    case CancelActiveAct(_) =>
      CancelActiveBalanced(s);
  }

  lemma {:induction false} RunInv(s: Sched, acts: seq<Act>, s': Sched)
    requires Inv(s) && Leads(s, acts, s')
    ensures Inv(s')
    decreases |acts|
  {
    if acts != [] {
      StepInv(s, acts[0]);
      RunInv(Apply(s, acts[0]), acts[1..], s');
    }
  }
}

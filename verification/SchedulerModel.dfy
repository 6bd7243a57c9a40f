/**
 * The state of SpeechScheduler (app/speech/scheduler.py) and its atomic steps.
 *
 * No critical section suspends, so a step is the code between two suspension
 * points. Calls of `run` that were admitted are numbered in admission order.
 * A waiter's future is settled by one step (handoff, timer, cancellation) and
 * its task wakes in a later one.
 */
module SchedulerModel {
  import opened Common

  datatype SpeechState = CREATED | WAITING | ACTIVE | COMPLETED | CANCELLED | TIMED_OUT | FAILED | REJECTED

  /** `_STATE_TRANSITIONS` of app/speech/models.py. */
  function Successors(s: SpeechState): set<SpeechState> {
    match s
    case CREATED => {WAITING, REJECTED}
    case WAITING => {ACTIVE, CANCELLED, TIMED_OUT}
    case ACTIVE => {COMPLETED, CANCELLED, TIMED_OUT, FAILED}
    case _ => {s}
  }

  predicate IsTerminal(s: SpeechState) {
    s in {COMPLETED, CANCELLED, TIMED_OUT, FAILED, REJECTED}
  }

  datatype Reason =
    | CompletedOk
    | CancelledWhileWaiting
    | DrainCancelled
    | CancelledWhileActive
    | QueueWaitTimeout
    | SynthesisTimeout
    | OperationFailed

  function StateOf(r: Reason): SpeechState {
    match r
    case CompletedOk => COMPLETED
    case CancelledWhileWaiting => CANCELLED
    case DrainCancelled => CANCELLED
    case CancelledWhileActive => CANCELLED
    case QueueWaitTimeout => TIMED_OUT
    case SynthesisTimeout => TIMED_OUT
    case OperationFailed => FAILED
  }

  /** `CumulativeCounters`. */
  datatype Ledger = Ledger(
    admitted: nat, rejected: nat, completed: nat,
    cancelledQueued: nat, cancelledActive: nat, timedOut: nat, failed: nat)

  function RecordTerminal(l: Ledger, r: Reason): Ledger {
    match r
    case CompletedOk => l.(completed := l.completed + 1)
    case CancelledWhileWaiting => l.(cancelledQueued := l.cancelledQueued + 1)
    case DrainCancelled => l.(cancelledQueued := l.cancelledQueued + 1)
    case CancelledWhileActive => l.(cancelledActive := l.cancelledActive + 1)
    case QueueWaitTimeout => l.(timedOut := l.timedOut + 1)
    case SynthesisTimeout => l.(timedOut := l.timedOut + 1)
    case OperationFailed => l.(failed := l.failed + 1)
  }

  datatype Future = NoFuture | Pending | Resolved | Cancelled

  /** What will be raised in a waiting task when it wakes. */
  datatype Interrupt = NoInterrupt | TimerFired | TaskCancelled

  /** Where an admitted call of `run` is suspended. */
  datatype Place = AtWait | Operating | Gone

  /** One admitted call: its task, its future and its ScheduledSpeech record. */
  datatype Run = Run(
    conn: string, synth: string,
    place: Place, future: Future, interrupt: Interrupt,
    state: SpeechState, reason: Option<Reason>, counted: bool)

  datatype Sched = Sched(
    maxSize: nat,
    counting: bool,
    runs: seq<Run>,
    active: Option<nat>,
    activeTask: Option<nat>,
    waiters: seq<nat>,
    depth: int,
    pending: int,
    draining: bool,
    activeComplete: bool,
    drainRemaining: int,
    drainDone: bool,
    quiescent: bool,
    ledger: Ledger,
    calls: nat,             // history: how often `run` was called
    activations: seq<nat>,  // history: who became active, in order
    lost: nat)              // history: drained waiters that woke as timeouts

  function Initial(maxSize: nat, counting: bool): Sched {
    Sched(maxSize, counting, [], None, None, [], 0, 0, false, true, 0, true, true,
          Ledger(0, 0, 0, 0, 0, 0, 0), 0, [], 0)
  }

  // ------------------------------------------------------------ admission

  function Reject(s: Sched): Sched {
    s.(calls := s.calls + 1,
       ledger := if s.counting then s.ledger.(rejected := s.ledger.rejected + 1) else s.ledger)
  }

  function CountedIn(s: Sched): Sched {
    s.(calls := s.calls + 1,
       depth := s.depth + 1,
       pending := s.pending + 1,
       quiescent := if s.depth == 0 then false else s.quiescent,
       ledger := if s.counting then s.ledger.(admitted := s.ledger.admitted + 1) else s.ledger)
  }

  /** The first worker becomes active at once. */
  function Activated(s: Sched, conn: string, synth: string): Sched {
    var id := |s.runs|;
    s.(runs := s.runs + [Run(conn, synth, Operating, NoFuture, NoInterrupt, ACTIVE, None, false)],
       active := Some(id), activeTask := Some(id), activeComplete := false,
       activations := s.activations + [id])
  }

  function Enqueued(s: Sched, conn: string, synth: string): Sched {
    s.(runs := s.runs + [Run(conn, synth, AtWait, Pending, NoInterrupt, WAITING, None, false)],
       waiters := s.waiters + [|s.runs|])
  }

  function Admit(s: Sched, conn: string, synth: string): Sched {
    if s.draining || s.depth >= s.maxSize then Reject(s)
    else if s.active.None? then Activated(CountedIn(s), conn, synth)
    else Enqueued(CountedIn(s), conn, synth)
  }

  // ------------------------------------------------------------ waking

  /** The waiting task of `id` is timed out or cancelled from outside: a pending future is cancelled with it. */
  function InterruptRun(r: Run, how: Interrupt): Run {
    r.(interrupt := how, future := if r.future == Pending then Cancelled else r.future)
  }

  /** The waiter wakes normally: lines 165-175. */
  function Resume(s: Sched, id: nat): Sched
    requires id < |s.runs|
  {
    if s.active == Some(id) then
      s.(activeTask := Some(id), runs := s.runs[id := s.runs[id].(place := Operating)])
    else
      s.(active := Some(id), activeTask := Some(id),
         runs := s.runs[id := s.runs[id].(place := Operating, state := ACTIVE)],
         activations := s.activations + [id])
  }

  function Without(ws: seq<nat>, id: nat): seq<nat> {
    if ws == [] then [] else if ws[0] == id then ws[1..] else [ws[0]] + Without(ws[1..], id)
  }

  /** `_record_terminal_once`: the ledger `l` after a run with outcome `reason` is counted. */
  function Counted(counting: bool, l: Ledger, r: Run, reason: Reason): Ledger {
    if r.counted || !counting then l else RecordTerminal(l, reason)
  }

  /** A waiter leaves with `reason`: lines 176-199 and 200-220. */
  function Leave(s: Sched, id: nat, reason: Reason): Sched
    requires id < |s.runs|
  {
    var r := s.runs[id];
    var signalled := reason == DrainCancelled && s.drainRemaining > 0;
    s.(pending := s.pending - 1,
       depth := s.depth - 1,
       waiters := Without(s.waiters, id),
       runs := s.runs[id := r.(place := Gone, state := StateOf(reason), reason := Some(reason), counted := true)],
       ledger := Counted(s.counting, s.ledger, r, reason),
       drainRemaining := if signalled then s.drainRemaining - 1 else s.drainRemaining,
       drainDone := if signalled && s.drainRemaining == 1 then true else s.drainDone,
       quiescent := if s.depth == 1 then true else s.quiescent,
       lost := if r.reason == Some(DrainCancelled) && reason != DrainCancelled then s.lost + 1 else s.lost)
  }

  function LeaveTimedOut(s: Sched, id: nat): Sched
    requires id < |s.runs|
  {
    Leave(s, id, QueueWaitTimeout)
  }

  function LeaveCancelled(s: Sched, id: nat): Sched
    requires id < |s.runs|
  {
    Leave(s, id, if s.runs[id].reason.Some? then s.runs[id].reason.value else CancelledWhileWaiting)
  }

  // ------------------------------------------------------------ finishing

  datatype How = Success | OpCancelled | OpTimedOut | OpFailed

  function ReasonOf(how: How): Reason {
    match how
    case Success => CompletedOk
    case OpCancelled => CancelledWhileActive
    case OpTimedOut => SynthesisTimeout
    case OpFailed => OperationFailed
  }

  /** The record after the operation ended: lines 226-245 and 250-252. */
  function Ended(r: Run, how: How): Run {
    if r.state == ACTIVE then
      r.(place := Gone, state := StateOf(ReasonOf(how)), reason := Some(ReasonOf(how)), counted := true)
    else r.(place := Gone, counted := true)
  }

  function EndLedger(counting: bool, l: Ledger, r: Run, how: How): Ledger {
    if r.state == ACTIVE then Counted(counting, l, r, ReasonOf(how))
    else if r.reason.Some? then Counted(counting, l, r, r.reason.value)
    else l
  }

  /** The oldest waiter's future is already settled, so `set_result` raises. */
  predicate HandoffFails(s: Sched) {
    s.waiters != [] && s.waiters[0] < |s.runs| && s.runs[s.waiters[0]].future != Pending
  }

  /** Popping the oldest waiter and making it active. */
  function HandedOver(r: Run): Run {
    r.(state := ACTIVE, future := if r.future == Pending then Resolved else r.future)
  }

  /** The operation of `id` ended, up to the handoff: lines 225-262. */
  function Concluded(s: Sched, id: nat, how: How): Sched
    requires id < |s.runs|
  {
    s.(depth := s.depth - 1,
       pending := s.pending - 1,
       runs := s.runs[id := Ended(s.runs[id], how)],
       ledger := EndLedger(s.counting, s.ledger, s.runs[id], how),
       active := if s.active == Some(id) then None else s.active,
       activeTask := if s.active == Some(id) then None else s.activeTask)
  }

  /**
   * The handoff and the events: lines 264-280. A settled future makes
   * `set_result` raise before the quiescence check.
   */
  function PassedOn(s: Sched, wasActive: bool): Sched
    requires s.waiters != [] ==> s.waiters[0] < |s.runs|
  {
    var quiescent := if s.depth == 0 then true else s.quiescent;
    if s.waiters != [] then
      var next := s.waiters[0];
      s.(waiters := s.waiters[1..],
         runs := s.runs[next := HandedOver(s.runs[next])],
         active := Some(next),
         activeTask := None,
         activations := s.activations + [next],
         quiescent := if HandoffFails(s) then s.quiescent else quiescent)
    else
      s.(activeComplete := if wasActive then true else s.activeComplete, quiescent := quiescent)
  }

  function Finish(s: Sched, id: nat, how: How): Sched
    requires id < |s.runs|
    requires s.waiters != [] ==> s.waiters[0] < |s.runs|
  {
    PassedOn(Concluded(s, id, how), s.active == Some(id))
  }

  // ------------------------------------------------------------ drain and cancellation

  function DrainRun(r: Run): Run {
    r.(future := if r.future == Pending then Cancelled else r.future,
       reason := if r.reason.None? then Some(DrainCancelled) else r.reason)
  }

  function Drain(s: Sched): Sched {
    if s.draining then s
    else
      var n := |s.waiters|;
      s.(draining := true,
         waiters := [],
         runs := seq(|s.runs|, i requires 0 <= i < |s.runs| =>
           if i in s.waiters then DrainRun(s.runs[i]) else s.runs[i]),
         drainRemaining := if n > 0 then n else s.drainRemaining,
         drainDone := if n > 0 then false else s.drainDone)
  }

  function CancelWaiter(r: Run): Run {
    r.(future := if r.future == Pending then Cancelled else r.future)
  }

  predicate Targets(s: Sched, conn: string, i: nat) {
    i in s.waiters && i < |s.runs| && s.runs[i].conn == conn
  }

  function Kept(runs: seq<Run>, ws: seq<nat>, conn: string): seq<nat> {
    if ws == [] then []
    else if ws[0] < |runs| && runs[ws[0]].conn == conn then Kept(runs, ws[1..], conn)
    else [ws[0]] + Kept(runs, ws[1..], conn)
  }

  function CancelConnection(s: Sched, conn: string): Sched {
    s.(waiters := Kept(s.runs, s.waiters, conn),
       runs := seq(|s.runs|, i requires 0 <= i < |s.runs| =>
         if Targets(s, conn, i) then CancelWaiter(s.runs[i]) else s.runs[i]))
  }

  /** `task.cancel()` on the task that runs the active operation. */
  function CancelActiveTask(s: Sched): Sched {
    if s.activeTask.Some? && s.activeTask.value < |s.runs| then
      var t := s.activeTask.value;
      s.(runs := s.runs[t := s.runs[t].(interrupt := TaskCancelled)])
    else s
  }

  predicate MatchesSynthesis(s: Sched, synth: string) {
    && s.active.Some? && s.active.value < |s.runs| && s.runs[s.active.value].synth == synth
    && s.activeTask.Some?
  }

  predicate MatchesConnection(s: Sched, conn: string) {
    && s.active.Some? && s.active.value < |s.runs| && s.runs[s.active.value].conn == conn
    && s.activeTask.Some?
  }

  // ------------------------------------------------------------ the transition system

  datatype Act =
    | AdmitAct(conn: string, synth: string)
    | InterruptAct(id: nat, how: Interrupt)
    | ResumeAct(id: nat)
    | TimeoutAct(id: nat)
    | CancelledAct(id: nat)
    | FinishAct(id: nat, end: How)
    | DrainAct
    | CancelConnectionAct(conn: string)
    | CancelSynthesisAct(synth: string)
    | CancelActiveAct(conn: string)

  predicate AtPlace(s: Sched, id: nat, p: Place) {
    id < |s.runs| && s.runs[id].place == p
  }

  predicate Enabled(s: Sched, act: Act) {
    match act
    case InterruptAct(id, how) =>
      && AtPlace(s, id, AtWait)
      && ((how == TimerFired && s.runs[id].interrupt == NoInterrupt)
          || (how == TaskCancelled && s.runs[id].interrupt != TaskCancelled))
    case ResumeAct(id) =>
      AtPlace(s, id, AtWait) && s.runs[id].future == Resolved && s.runs[id].interrupt == NoInterrupt
    case TimeoutAct(id) =>
      AtPlace(s, id, AtWait) && s.runs[id].future != Pending && s.runs[id].interrupt == TimerFired
    case CancelledAct(id) =>
      && AtPlace(s, id, AtWait)
      && s.runs[id].future != Pending
      && (s.runs[id].interrupt == TaskCancelled
          || (s.runs[id].interrupt == NoInterrupt && s.runs[id].future == Cancelled))
    case FinishAct(id, _) =>
      AtPlace(s, id, Operating) && (s.waiters != [] ==> s.waiters[0] < |s.runs|)
    case CancelSynthesisAct(synth) => MatchesSynthesis(s, synth)
    case CancelActiveAct(conn) => MatchesConnection(s, conn)
    case _ => true
  }

  function Apply(s: Sched, act: Act): Sched
    requires Enabled(s, act)
  {
    match act
    case AdmitAct(conn, synth) => Admit(s, conn, synth)
    case InterruptAct(id, how) => s.(runs := s.runs[id := InterruptRun(s.runs[id], how)])
    case ResumeAct(id) => Resume(s, id)
    case TimeoutAct(id) => LeaveTimedOut(s, id)
    case CancelledAct(id) => LeaveCancelled(s, id)
    case FinishAct(id, how) => Finish(s, id, how)
    case DrainAct => Drain(s)
    case CancelConnectionAct(conn) => CancelConnection(s, conn)
    case CancelSynthesisAct(_) => CancelActiveTask(s)
    case CancelActiveAct(_) => CancelActiveTask(s)
  }

  /** The states a run of acts passes through, when every act is enabled. */
  ghost predicate Leads(s: Sched, acts: seq<Act>, s': Sched)
    decreases |acts|
  {
    if acts == [] then s == s'
    else Enabled(s, acts[0]) && Leads(Apply(s, acts[0]), acts[1..], s')
  }
}

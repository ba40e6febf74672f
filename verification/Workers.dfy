/**
 The task dispatcher of tools/workers.

 One mutex and one condition variable guard the whole dispatcher, so every
 critical section of the package is one atomic `Step` of the state machine below.
 `stateChanged.Wait()` splits a call in two: the pass that finds its condition false
 parks the caller, and a later Broadcast makes it contend for the lock again.
 Producers, dispatchers, task completions, limit changes and stop/restart interleave
 in any order: a run of the package is any sequence of enabled steps.
 */
module Workers {
  import opened Wrappers

  /** A queued func(); functions are told apart by number. */
  type Task = int

  /** How far the goroutine dispatch(run) has got. */
  datatype Phase =
    | Checking               // about to make a pass of nextTask
    | Parked                 // inside stateChanged.Wait in nextTask
    | Handing(ticket: nat)   // has taken a task, has not yet read parallelism
    | Inline(ticket: nat)    // executes the task itself
    | Finishing              // nextTask reported false, finishRun is next
    | Closing                // finishRun has released the lock, done is still open
    | Finished               // done is closed

  datatype Run = Run(stopping: bool, stopCloses: nat, doneCloses: nat, phase: Phase)

  /** A goroutine inside AddTask. */
  datatype Producer = Contending(task: Task) | Waiting(task: Task)

  /**
   The package variables, the goroutines working on them, and a history:
   `accepted` lists every task AddTask ever queued, `handed` counts the tasks taken by
   nextTask, `finished` holds the tickets of completed ones (a task's ticket is its index
   in `accepted`) and `peak` is the largest limit ever in force.
   */
  datatype State = State(
    queue: seq<Task>,
    limit: int,
    active: int,
    parallel: bool,
    activeRun: Option<nat>,
    stopSignal: Option<nat>,
    flagRunning: bool,
    runs: seq<Run>,
    producers: map<nat, Producer>,
    stoppers: map<nat, nat>,
    spawned: set<nat>,
    accepted: seq<Task>,
    handed: nat,
    finished: set<nat>,
    peak: int)

  datatype Step =
    | SetLimit(limit: int)
    | SetParallel(on: bool)
    | Submit(producer: nat, task: Task)   // AddTask is called
    | TryAdd(producer: nat)               // one pass of AddTask's loop
    | SignalStop(caller: nat)             // the critical section of StopWorkers
    | ReturnFromStop(caller: nat)         // <-run.done
    | Start                               // RunWorkers
    | TryNext(run: nat)                   // one pass of nextTask's loop
    | Choose(run: nat)                    // go executeTask or executeTask
    | Complete(ticket: nat)               // a spawned task releases its slot
    | CompleteInline(run: nat)            // an inline task releases its slot
    | LeaveRun(run: nat)                  // the critical section of finishRun
    | CloseDone(run: nat)                 // close(run.done)

  predicate Initial(s: State) {
    s == State([], s.limit, 0, s.parallel, None, None, false, [], map[], map[], {}, [], 0, {}, s.limit)
  }

  // ---- The steps --------------------------------------------------------------------------

  function WakeProducers(producers: map<nat, Producer>): map<nat, Producer> {
    map p | p in producers :: Contending(producers[p].task)
  }

  function WakeRun(run: Run): Run {
    if run.phase.Parked? then run.(phase := Checking) else run
  }

  function WakeRuns(runs: seq<Run>): seq<Run> {
    seq(|runs|, i requires 0 <= i < |runs| => WakeRun(runs[i]))
  }

  /** stateChanged.Broadcast(): every parked goroutine contends for the lock again. */
  function WakeAll(s: State): State {
    s.(producers := WakeProducers(s.producers), runs := WakeRuns(s.runs))
  }

  function SetPhase(s: State, r: nat, phase: Phase): State
    requires r < |s.runs|
  {
    s.(runs := s.runs[r := s.runs[r].(phase := phase)])
  }

  predicate InPhase(s: State, r: nat, phase: Phase) {
    r < |s.runs| && s.runs[r].phase == phase
  }

  predicate Enabled(s: State, step: Step) {
    match step
    case SetLimit(_) => true
    case SetParallel(_) => true
    case Submit(p, _) => p !in s.producers
    case TryAdd(p) => p in s.producers && s.producers[p].Contending?
    case SignalStop(c) => c !in s.stoppers && (s.activeRun.Some? ==> s.activeRun.value < |s.runs|)
    case ReturnFromStop(c) => c in s.stoppers && s.stoppers[c] < |s.runs| && s.runs[s.stoppers[c]].doneCloses > 0
    case Start => true
    case TryNext(r) => InPhase(s, r, Checking)
    case Choose(r) => r < |s.runs| && s.runs[r].phase.Handing?
    case Complete(t) => t in s.spawned
    case CompleteInline(r) => r < |s.runs| && s.runs[r].phase.Inline?
    case LeaveRun(r) => InPhase(s, r, Finishing)
    case CloseDone(r) => InPhase(s, r, Closing)
  }

  function TryAddStep(s: State, p: nat): State
    requires Enabled(s, TryAdd(p))
  {
    var task := s.producers[p].task;
    if |s.queue| >= s.limit then
      s.(producers := s.producers[p := Waiting(task)])
    else
      WakeAll(s.(producers := s.producers - {p}, queue := s.queue + [task], accepted := s.accepted + [task]))
  }

  function SignalStopStep(s: State, caller: nat): State
    requires Enabled(s, SignalStop(caller))
  {
    match s.activeRun
    case None => s.(flagRunning := false, stopSignal := None)
    case Some(r) =>
      var run := s.runs[r];
      var stopped := if run.stopping then run else run.(stopping := true, stopCloses := run.stopCloses + 1);
      WakeAll(s.(runs := s.runs[r := stopped], stoppers := s.stoppers[caller := r]))
  }

  function StartStep(s: State): State {
    if s.activeRun.Some? then s
    else
      s.(activeRun := Some(|s.runs|), stopSignal := Some(|s.runs|), flagRunning := true,
         runs := s.runs + [Run(false, 0, 0, Checking)])
  }

  function TryNextStep(s: State, r: nat): State
    requires Enabled(s, TryNext(r))
  {
    if s.runs[r].stopping then SetPhase(s, r, Finishing)
    else if s.queue == [] || s.active >= s.limit then SetPhase(s, r, Parked)
    else WakeAll(Taken(s, r))
  }

  function Taken(s: State, r: nat): State
    requires r < |s.runs| && s.queue != []
  {
    SetPhase(s, r, Handing(s.handed)).(queue := s.queue[1..], active := s.active + 1, handed := s.handed + 1)
  }

  function ChooseStep(s: State, r: nat): State
    requires Enabled(s, Choose(r))
  {
    var t := s.runs[r].phase.ticket;
    if s.parallel then SetPhase(s, r, Checking).(spawned := s.spawned + {t})
    else SetPhase(s, r, Inline(t))
  }

  function CompleteInlineStep(s: State, r: nat): State
    requires Enabled(s, CompleteInline(r))
  {
    WakeAll(Released(s, r))
  }

  function LeaveRunStep(s: State, r: nat): State
    requires Enabled(s, LeaveRun(r))
  {
    var left := SetPhase(s, r, Closing);
    if s.activeRun == Some(r) then left.(activeRun := None, stopSignal := None, flagRunning := false)
    else left
  }

  function Next(s: State, step: Step): State
    requires Enabled(s, step)
  {
    match step
    case SetLimit(n) => WakeAll(s.(limit := n, peak := if n > s.peak then n else s.peak))
    case SetParallel(on) => s.(parallel := on)
    case Submit(p, task) => s.(producers := s.producers[p := Contending(task)])
    case TryAdd(p) => TryAddStep(s, p)
    case SignalStop(c) => SignalStopStep(s, c)
    case ReturnFromStop(c) => s.(stoppers := s.stoppers - {c})
    case Start => StartStep(s)
    case TryNext(r) => TryNextStep(s, r)
    case Choose(r) => ChooseStep(s, r)
    case Complete(t) =>
      WakeAll(s.(active := s.active - 1, spawned := s.spawned - {t}, finished := s.finished + {t}))
    case CompleteInline(r) => CompleteInlineStep(s, r)
    case LeaveRun(r) => LeaveRunStep(s, r)
    case CloseDone(r) => s.(runs := s.runs[r := s.runs[r].(phase := Finished, doneCloses := s.runs[r].doneCloses + 1)])
  }

  // ---- What every interleaving keeps -----------------------------------------------------

  /** The run still dispatches, or has yet to notice that it was stopped. */
  predicate Live(run: Run) {
    !run.phase.Closing? && !run.phase.Finished?
  }

  predicate HoldsTicket(run: Run) {
    run.phase.Handing? || run.phase.Inline?
  }

  /** Nobody sleeps on a condition that already holds. */
  ghost predicate NoLostWakeup(s: State) {
    && (forall p <- s.producers :: s.producers[p].Waiting? ==> |s.queue| >= s.limit)
    && (forall r | 0 <= r < |s.runs| ::
          s.runs[r].phase.Parked? ==> !s.runs[r].stopping && (s.queue == [] || s.active >= s.limit))
  }

  /** At most one run is live, it is activeRun, and each channel is closed at most once. */
  ghost predicate SingleDispatcher(s: State) {
    && (s.activeRun.Some? ==> s.activeRun.value < |s.runs|)
    && (forall r | 0 <= r < |s.runs| :: Live(s.runs[r]) <==> s.activeRun == Some(r))
    && s.stopSignal == s.activeRun
    && s.flagRunning == s.activeRun.Some?
    && (forall r | 0 <= r < |s.runs| :: ChannelsClosedOnce(s.runs[r]))
    && (forall c <- s.stoppers :: s.stoppers[c] < |s.runs| && s.runs[s.stoppers[c]].stopping)
  }

  ghost predicate ChannelsClosedOnce(run: Run) {
    && run.stopCloses == (if run.stopping then 1 else 0)
    && run.doneCloses == (if run.phase.Finished? then 1 else 0)
    && (run.phase.Finishing? || !Live(run) ==> run.stopping)
  }

  /** The ticket in the hands of the live dispatcher, if any. */
  function Held(s: State): set<nat> {
    if s.activeRun.Some? && s.activeRun.value < |s.runs| && HoldsTicket(s.runs[s.activeRun.value])
    then {s.runs[s.activeRun.value].phase.ticket}
    else {}
  }

  /** The tickets handed over and not yet finished. */
  function InFlight(s: State): set<nat> {
    s.spawned + Held(s)
  }

  /** Every ticket below `handed` is in flight or finished, never both; `active` counts the former. */
  ghost predicate Ledger(inFlight: set<nat>, finished: set<nat>, handed: nat, active: int) {
    && inFlight !! finished
    && (forall t: nat :: t < handed <==> t in inFlight + finished)
    && active == |inFlight| == handed - |finished|
  }

  /** What was handed over plus what is queued is exactly what was accepted, in order. */
  ghost predicate Conserved(s: State) {
    && s.handed <= |s.accepted|
    && s.queue == s.accepted[s.handed..]
    && s.spawned !! Held(s)
    && Ledger(InFlight(s), s.finished, s.handed, s.active)
  }

  ghost predicate Bounded(s: State) {
    && s.limit <= s.peak
    && s.active <= Max(0, s.peak)
    && |s.queue| <= Max(0, s.peak)
  }

  function Max(a: int, b: int): int {
    if a >= b then a else b
  }

  ghost predicate Inv(s: State) {
    NoLostWakeup(s) && SingleDispatcher(s) && Conserved(s) && Bounded(s)
  }

  lemma InitialInv(s: State)
    requires Initial(s)
    ensures Inv(s)
  {
  }

  /** A Broadcast parks nobody and touches nothing but the parked. */
  lemma BroadcastInv(s: State)
    requires SingleDispatcher(s) && Conserved(s) && Bounded(s)
    ensures Inv(WakeAll(s))
  {
    var b := WakeAll(s);
    assert forall r | 0 <= r < |s.runs| :: b.runs[r] == WakeRun(s.runs[r]);
    assert Held(b) == Held(s);
  }

  /** Moving the live run between phases that hold no ticket. */
  lemma PhaseInv(s: State, r: nat, phase: Phase)
    requires Inv(s) && r < |s.runs| && s.activeRun == Some(r)
    requires !HoldsTicket(s.runs[r])
    requires phase in {Checking, Parked, Finishing}
    requires phase.Parked? ==> !s.runs[r].stopping && (s.queue == [] || s.active >= s.limit)
    requires phase.Finishing? ==> s.runs[r].stopping
    ensures Inv(SetPhase(s, r, phase))
  {
    var n := SetPhase(s, r, phase);
    assert Held(n) == Held(s);
  }

  lemma TryAddInv(s: State, p: nat)
    requires Inv(s) && Enabled(s, TryAdd(p))
    ensures Inv(Next(s, TryAdd(p)))
  {
    var task := s.producers[p].task;
    if |s.queue| < s.limit {
      var n := s.(producers := s.producers - {p}, queue := s.queue + [task], accepted := s.accepted + [task]);
      assert Held(n) == Held(s);
      assert Next(s, TryAdd(p)) == WakeAll(n);
      BroadcastInv(n);
    }
  }

  lemma StopKeepsDispatcher(s: State, n: State, r: nat, caller: nat)
    requires SingleDispatcher(s) && s.activeRun == Some(r)
    requires n.runs == s.runs[r := s.runs[r].(stopping := true, stopCloses := 1)]
    requires n.activeRun == s.activeRun && n.stopSignal == s.stopSignal && n.flagRunning == s.flagRunning
    requires n.stoppers == s.stoppers[caller := r]
    ensures SingleDispatcher(n)
  {
    assert ChannelsClosedOnce(s.runs[r]);
  }

  lemma SignalStopInv(s: State, caller: nat)
    requires Inv(s) && Enabled(s, SignalStop(caller))
    ensures Inv(Next(s, SignalStop(caller)))
  {
    if s.activeRun.Some? {
      var r := s.activeRun.value;
      assert ChannelsClosedOnce(s.runs[r]);
      var n := s.(runs := s.runs[r := s.runs[r].(stopping := true, stopCloses := 1)], stoppers := s.stoppers[caller := r]);
      StopKeepsDispatcher(s, n, r, caller);
      assert Held(n) == Held(s);
      BroadcastInv(n);
    }
  }

  lemma StartInv(s: State)
    requires Inv(s)
    ensures Inv(Next(s, Start))
  {
    if s.activeRun.None? {
      var n := StartStep(s);
      assert forall r | 0 <= r < |s.runs| :: n.runs[r] == s.runs[r];
      assert Held(n) == Held(s);
    }
  }

  lemma LedgerTake(inFlight: set<nat>, finished: set<nat>, handed: nat, active: int)
    requires Ledger(inFlight, finished, handed, active)
    ensures handed !in inFlight
    ensures Ledger(inFlight + {handed}, finished, handed + 1, active + 1)
  {
    assert handed !in inFlight + finished;
  }

  lemma LedgerRelease(inFlight: set<nat>, finished: set<nat>, handed: nat, active: int, t: nat)
    requires Ledger(inFlight, finished, handed, active) && t in inFlight
    ensures Ledger(inFlight - {t}, finished + {t}, handed, active - 1)
  {
    assert inFlight - {t} + (finished + {t}) == inFlight + finished;
  }

  /** The live run stays the live run, whatever else changes. */
  lemma LivePhaseKeepsDispatcher(s: State, n: State, r: nat, phase: Phase)
    requires SingleDispatcher(s) && s.activeRun == Some(r)
    requires phase.Checking? || phase.Handing? || phase.Inline?
    requires n.runs == s.runs[r := s.runs[r].(phase := phase)]
    requires n.activeRun == s.activeRun && n.stopSignal == s.stopSignal && n.flagRunning == s.flagRunning
    requires n.stoppers == s.stoppers
    ensures SingleDispatcher(n)
  {
  }

  lemma HeldByLiveRun(s: State, r: nat)
    requires r < |s.runs| && s.activeRun == Some(r)
    ensures Held(s) == if HoldsTicket(s.runs[r]) then {s.runs[r].phase.ticket} else {}
  {
  }

  lemma HandOverConserves(s: State, n: State)
    requires Conserved(s) && s.queue != [] && Held(s) == {} && Held(n) == {s.handed}
    requires n.queue == s.queue[1..] && n.accepted == s.accepted && n.handed == s.handed + 1
    requires n.spawned == s.spawned && n.finished == s.finished && n.active == s.active + 1
    ensures Conserved(n)
  {
    LedgerTake(InFlight(s), s.finished, s.handed, s.active);
    assert InFlight(n) == InFlight(s) + {s.handed};
  }

  lemma ReleaseConserves(s: State, n: State, t: nat)
    requires Conserved(s) && t in InFlight(s)
    requires n.spawned == s.spawned - {t} && Held(n) == Held(s) - {t}
    requires n.queue == s.queue && n.accepted == s.accepted && n.handed == s.handed
    requires n.finished == s.finished + {t} && n.active == s.active - 1
    ensures Conserved(n)
  {
    LedgerRelease(InFlight(s), s.finished, s.handed, s.active, t);
    assert InFlight(n) == InFlight(s) - {t};
  }

  lemma HandOverInv(s: State, r: nat)
    requires Inv(s) && Enabled(s, TryNext(r))
    requires !s.runs[r].stopping && s.queue != [] && s.active < s.limit
    ensures Inv(Next(s, TryNext(r)))
  {
    assert Live(s.runs[r]);
    var n := Taken(s, r);
    LivePhaseKeepsDispatcher(s, n, r, Handing(s.handed));
    HeldByLiveRun(s, r);
    HeldByLiveRun(n, r);
    HandOverConserves(s, n);
    assert Next(s, TryNext(r)) == WakeAll(n);
    BroadcastInv(n);
  }

  lemma TryNextInv(s: State, r: nat)
    requires Inv(s) && Enabled(s, TryNext(r))
    ensures Inv(Next(s, TryNext(r)))
  {
    assert Live(s.runs[r]);
    if s.runs[r].stopping {
      PhaseInv(s, r, Finishing);
    } else if s.queue == [] || s.active >= s.limit {
      PhaseInv(s, r, Parked);
    } else {
      HandOverInv(s, r);
    }
  }

  lemma ChooseInv(s: State, r: nat)
    requires Inv(s) && Enabled(s, Choose(r))
    ensures Inv(Next(s, Choose(r)))
  {
    assert Live(s.runs[r]);
    var t := s.runs[r].phase.ticket;
    var n := ChooseStep(s, r);
    assert Held(s) == {t};
    assert Held(n) == if s.parallel then {} else {t};
    assert InFlight(n) == InFlight(s);
  }

  lemma CompleteInv(s: State, t: nat)
    requires Inv(s) && Enabled(s, Complete(t))
    ensures Inv(Next(s, Complete(t)))
  {
    var n := s.(active := s.active - 1, spawned := s.spawned - {t}, finished := s.finished + {t});
    assert Held(n) == Held(s) - {t} by {
      assert t !in Held(s);
    }
    ReleaseConserves(s, n, t);
    BroadcastInv(n);
  }

  /** The inline task is over; nobody was woken yet. */
  function Released(s: State, r: nat): State
    requires Enabled(s, CompleteInline(r))
  {
    SetPhase(s, r, Checking).(active := s.active - 1, finished := s.finished + {s.runs[r].phase.ticket})
  }

  lemma ReleasedConserves(s: State, r: nat)
    requires Enabled(s, CompleteInline(r)) && s.activeRun == Some(r) && Conserved(s)
    ensures Conserved(Released(s, r))
  {
    var t, n := s.runs[r].phase.ticket, Released(s, r);
    HeldByLiveRun(s, r);
    HeldByLiveRun(n, r);
    assert n.spawned == s.spawned - {t};
    ReleaseConserves(s, n, t);
  }

  lemma CompleteInlineInv(s: State, r: nat)
    requires Inv(s) && Enabled(s, CompleteInline(r))
    ensures Inv(Next(s, CompleteInline(r)))
  {
    assert Live(s.runs[r]);
    var n := Released(s, r);
    LivePhaseKeepsDispatcher(s, n, r, Checking);
    ReleasedConserves(s, r);
    assert Next(s, CompleteInline(r)) == WakeAll(n);
    BroadcastInv(n);
  }

  lemma LeaveRunInv(s: State, r: nat)
    requires Inv(s) && Enabled(s, LeaveRun(r))
    ensures s.activeRun == Some(r)
    ensures Inv(Next(s, LeaveRun(r)))
  {
    assert Live(s.runs[r]);
    assert Held(LeaveRunStep(s, r)) == Held(s) == {};
  }

  lemma CloseDoneInv(s: State, r: nat)
    requires Inv(s) && Enabled(s, CloseDone(r))
    ensures Inv(Next(s, CloseDone(r)))
  {
    assert !Live(s.runs[r]);
    assert Held(Next(s, CloseDone(r))) == Held(s);
  }

  lemma SetLimitInv(s: State, n: int)
    requires Inv(s)
    ensures Inv(Next(s, SetLimit(n)))
  {
    var next := s.(limit := n, peak := if n > s.peak then n else s.peak);
    assert Held(next) == Held(s);
    BroadcastInv(next);
  }

  lemma CallerInv(s: State, step: Step)
    requires Inv(s) && Enabled(s, step) && (step.SetParallel? || step.Submit? || step.ReturnFromStop?)
    ensures Inv(Next(s, step))
  {
    assert Held(Next(s, step)) == Held(s);
  }

  lemma StepInv(s: State, step: Step)
    requires Inv(s) && Enabled(s, step)
    ensures Inv(Next(s, step))
  {
    match step
    case SetLimit(n) => SetLimitInv(s, n);
    case SetParallel(_) => CallerInv(s, step);
    case Submit(_, _) => CallerInv(s, step);
    case TryAdd(p) => TryAddInv(s, p);
    case SignalStop(c) => SignalStopInv(s, c);
    case ReturnFromStop(_) => CallerInv(s, step);
    case Start => StartInv(s);
    case TryNext(r) => TryNextInv(s, r);
    case Choose(r) => ChooseInv(s, r);
    case Complete(t) => CompleteInv(s, t);
    case CompleteInline(r) => CompleteInlineInv(s, r);
    case LeaveRun(r) => LeaveRunInv(s, r);
    case CloseDone(r) => CloseDoneInv(s, r);
  }

  // ---- Every run -------------------------------------------------------------------------

  /** `steps` leads from s to t, every step being enabled where it is taken. */
  ghost predicate Leads(s: State, steps: seq<Step>, t: State)
    decreases |steps|
  {
    if steps == [] then s == t
    else Enabled(s, steps[0]) && Leads(Next(s, steps[0]), steps[1..], t)
  }

  ghost predicate Reachable(s: State) {
    exists s0: State, steps: seq<Step> :: Initial(s0) && Leads(s0, steps, s)
  }

  lemma {:induction false} LeadsInv(s: State, steps: seq<Step>, t: State)
    requires Inv(s) && Leads(s, steps, t)
    ensures Inv(t)
    decreases |steps|
  {
    if steps != [] {
      StepInv(s, steps[0]);
      LeadsInv(Next(s, steps[0]), steps[1..], t);
    }
  }

  lemma ReachableInv(s: State)
    requires Reachable(s)
    ensures Inv(s)
  {
    var s0: State, steps: seq<Step> :| Initial(s0) && Leads(s0, steps, s);
    InitialInv(s0);
    LeadsInv(s0, steps, s);
  }

  /**
   No lost wakeup: a producer sleeps only while the queue is full, the dispatcher only while
   it is not stopped and has either no task or no free slot.
   */
  lemma SleepersHaveReason(s: State, p: nat, r: nat)
    requires Reachable(s)
    ensures p in s.producers && s.producers[p].Waiting? ==> |s.queue| >= s.limit
    ensures r < |s.runs| && s.runs[r].phase.Parked? ==>
              !s.runs[r].stopping && (s.queue == [] || s.active >= s.limit)
  {
    ReachableInv(s);
  }

  /**
   Tasks are handed over in the order AddTask accepted them, none is lost or handed over
   twice, across limit changes, stops and restarts; activeTasks counts the tasks handed over
   and not yet finished.
   */
  lemma FirstInFirstOut(s: State)
    requires Reachable(s)
    ensures s.handed <= |s.accepted|
    ensures s.accepted[..s.handed] + s.queue == s.accepted
    ensures forall t <- s.finished :: t < s.handed
    ensures s.active == s.handed - |s.finished| >= 0
  {
    ReachableInv(s);
    forall t <- s.finished
      ensures t < s.handed
    {
      assert t in InFlight(s) + s.finished;
    }
  }

  /** Any step but a pass of nextTask only lets the queue grow. */
  lemma QueueKeepsItsFront(s: State, step: Step)
    requires Enabled(s, step) && !step.TryNext?
    ensures var n := Next(s, step);
            s.accepted <= n.accepted && s.finished <= n.finished && n.handed == s.handed && s.queue <= n.queue
  {
    if step.TryAdd? {
      assert Next(s, step) == TryAddStep(s, step.producer);
    } else {
      assert Next(s, step).queue == s.queue;
    }
  }

  /**
   A step takes nothing from the queue, or exactly its oldest task, which the dispatcher then
   holds under the next ticket; what was accepted or finished stays so.
   */
  lemma HandsOverOldest(s: State, step: Step)
    requires Enabled(s, step)
    ensures var n := Next(s, step);
            && s.accepted <= n.accepted && s.finished <= n.finished
            && (n.handed == s.handed ==> s.queue <= n.queue)
            && (n.handed != s.handed ==>
                  && n.handed == s.handed + 1
                  && s.queue != [] && n.queue == s.queue[1..]
                  && step.TryNext? && n.runs[step.run].phase == Handing(s.handed))
    ensures Reachable(s) ==> s.handed !in InFlight(s) && s.handed !in s.finished
  {
    if Reachable(s) {
      TicketIsNew(s);
    }
    TakesOldestOrNothing(s, step);
  }

  /** The next ticket was never given to a task before. */
  lemma TicketIsNew(s: State)
    requires Reachable(s)
    ensures s.handed !in InFlight(s) && s.handed !in s.finished
  {
    ReachableInv(s);
    assert s.handed !in InFlight(s) + s.finished;
  }

  lemma TakesOldestOrNothing(s: State, step: Step)
    requires Enabled(s, step)
    ensures var n := Next(s, step);
            && s.accepted <= n.accepted && s.finished <= n.finished
            && (n.handed == s.handed ==> s.queue <= n.queue)
            && (n.handed != s.handed ==>
                  && n.handed == s.handed + 1
                  && s.queue != [] && n.queue == s.queue[1..]
                  && step.TryNext? && n.runs[step.run].phase == Handing(s.handed))
  {
    if step.TryNext? {
      assert Next(s, step) == TryNextStep(s, step.run);
    } else {
      QueueKeepsItsFront(s, step);
    }
  }

  /** At most one run is live; a run that leaves finishRun's critical section was the active one. */
  lemma OneLiveRun(s: State, a: nat, b: nat)
    requires Reachable(s) && a < |s.runs| && b < |s.runs|
    ensures Live(s.runs[a]) && Live(s.runs[b]) ==> a == b
    ensures s.runs[a].phase.Finishing? ==> s.activeRun == Some(a)
    ensures s.runs[a].stopCloses <= 1 && s.runs[a].doneCloses <= 1
  {
    ReachableInv(s);
    assert Live(s.runs[a]) ==> s.activeRun == Some(a);
    assert Live(s.runs[b]) ==> s.activeRun == Some(b);
    assert ChannelsClosedOnce(s.runs[a]);
  }

  /** The largest of the first limit and every limit set in `steps`. */
  ghost function Peak(limit: int, steps: seq<Step>): int
    decreases |steps|
  {
    if steps == [] then limit
    else Peak(if steps[0].SetLimit? then Max(limit, steps[0].limit) else limit, steps[1..])
  }

  lemma {:induction false} PeakIsLargestLimit(s: State, steps: seq<Step>, t: State)
    requires Leads(s, steps, t)
    ensures t.peak == Peak(s.peak, steps)
    decreases |steps|
  {
    if steps != [] {
      PeakIsLargestLimit(Next(s, steps[0]), steps[1..], t);
    }
  }

  /** Neither the running tasks nor the queue ever exceed the largest limit that was in force. */
  lemma WithinLargestLimit(s: State, steps: seq<Step>, t: State)
    requires Initial(s) && Leads(s, steps, t)
    ensures t.active <= Max(0, Peak(s.limit, steps))
    ensures |t.queue| <= Max(0, Peak(s.limit, steps))
  {
    InitialInv(s);
    LeadsInv(s, steps, t);
    PeakIsLargestLimit(s, steps, t);
  }

  /** Above the limit in force, running tasks only leave and the queue only shrinks. */
  lemma OnlyFallsAboveLimit(s: State, step: Step)
    requires Enabled(s, step)
    ensures var n := Next(s, step);
            && (n.active > s.active ==> n.active <= n.limit)
            && (|n.queue| > |s.queue| ==> |n.queue| <= n.limit)
  {
    if step.TryAdd? {
      assert Next(s, step) == TryAddStep(s, step.producer);
    } else if step.TryNext? {
      assert Next(s, step) == TryNextStep(s, step.run);
    } else {
      assert Next(s, step).queue == s.queue && Next(s, step).active <= s.active;
    }
  }

  lemma SequentialStep(s: State, step: Step)
    requires Enabled(s, step) && step != SetParallel(true)
    requires !s.parallel && s.spawned == {}
    ensures !Next(s, step).parallel && Next(s, step).spawned == {}
  {
  }

  /** With parallelism off from an idle start, at most one task is ever active, restarts included. */
  lemma {:induction false} SequentialStaysSingle(s: State, steps: seq<Step>, t: State)
    requires Inv(s) && !s.parallel && s.spawned == {}
    requires Leads(s, steps, t) && forall i | 0 <= i < |steps| :: steps[i] != SetParallel(true)
    ensures t.active <= 1
    decreases |steps|
  {
    if steps != [] {
      StepInv(s, steps[0]);
      SequentialStep(s, steps[0]);
      SequentialStaysSingle(Next(s, steps[0]), steps[1..], t);
    }
  }

  // ---- What the calls do -------------------------------------------------------------------

  /** From AddTask's call on, a producer carries its task until it leaves, and leaves by queueing just that. */
  lemma ProducerKeepsItsTask(s: State, step: Step, p: nat)
    requires Enabled(s, step) && p in s.producers
    ensures var n := Next(s, step);
            if p in n.producers then n.producers[p].task == s.producers[p].task
            else n.accepted == s.accepted + [s.producers[p].task] && n.queue == s.queue + [s.producers[p].task]
  {
    if step.TryAdd? {
      assert Next(s, step) == TryAddStep(s, step.producer);
    }
  }

  /** Nothing is accepted but the task of a producer that leaves. */
  lemma AcceptsOnlyFromProducers(s: State, step: Step)
    requires Enabled(s, step)
    ensures var n := Next(s, step);
            || n.accepted == s.accepted
            || exists p <- s.producers :: p !in n.producers && n.accepted == s.accepted + [s.producers[p].task]
  {
    if step.TryAdd? {
      assert Next(s, step) == TryAddStep(s, step.producer);
    }
  }

  /** How often AddTask was called with task x. */
  ghost function TimesSubmitted(steps: seq<Step>, x: Task): nat {
    if steps == [] then 0
    else (if steps[0].Submit? && steps[0].task == x then 1 else 0) + TimesSubmitted(steps[1..], x)
  }

  /** The producers that are inside AddTask with task x. */
  function InsideWith(producers: map<nat, Producer>, x: Task): set<nat> {
    set p | p in producers && producers[p].task == x
  }

  ghost function Known(s: State, x: Task): nat {
    multiset(s.accepted)[x] + |InsideWith(s.producers, x)|
  }

  lemma Leaves(producers: map<nat, Producer>, p: nat, x: Task)
    requires p in producers
    ensures |InsideWith(producers - {p}, x)| == |InsideWith(producers, x)| - (if producers[p].task == x then 1 else 0)
  {
    assert InsideWith(producers - {p}, x) == InsideWith(producers, x) - {p};
  }

  lemma Enters(producers: map<nat, Producer>, p: nat, task: Task, x: Task)
    requires p !in producers
    ensures |InsideWith(producers[p := Contending(task)], x)| == |InsideWith(producers, x)| + (if task == x then 1 else 0)
  {
    var after := producers[p := Contending(task)];
    assert InsideWith(after, x) == if task == x then InsideWith(producers, x) + {p} else InsideWith(producers, x);
  }

  /** The producers and their tasks are the same, whether asleep or not. */
  ghost predicate SameTasks(a: map<nat, Producer>, b: map<nat, Producer>) {
    a.Keys == b.Keys && forall p <- a :: a[p].task == b[p].task
  }

  lemma SameInside(a: map<nat, Producer>, b: map<nat, Producer>, x: Task)
    requires SameTasks(a, b)
    ensures InsideWith(a, x) == InsideWith(b, x)
  {
  }

  lemma OtherStepsKeepCallers(s: State, step: Step)
    requires Enabled(s, step) && !step.Submit? && !step.TryAdd?
    ensures Next(s, step).accepted == s.accepted && SameTasks(Next(s, step).producers, s.producers)
  {
    WakingKeepsTasks(s.producers);
    if IsRunStep(step) {
      RunStepKeepsCallers(s, step);
    } else if step.SignalStop? {
      assert Next(s, step) == SignalStopStep(s, step.caller);
    } else if step.Start? {
      assert Next(s, step) == StartStep(s);
    }
  }

  lemma WakingKeepsTasks(producers: map<nat, Producer>)
    ensures SameTasks(WakeProducers(producers), producers)
  {
  }

  lemma RunStepKeepsCallers(s: State, step: Step)
    requires Enabled(s, step) && IsRunStep(step)
    ensures Next(s, step).accepted == s.accepted
    ensures Next(s, step).producers == s.producers || Next(s, step).producers == WakeProducers(s.producers)
  {
    match step
    case TryNext(r) => assert Next(s, step) == TryNextStep(s, r);
    case Choose(r) => assert Next(s, step) == ChooseStep(s, r);
    case CompleteInline(r) => assert Next(s, step) == CompleteInlineStep(s, r);
    case LeaveRun(r) => assert Next(s, step) == LeaveRunStep(s, r);
    case CloseDone(_) =>
  }

  lemma StepConservesCalls(s: State, step: Step, x: Task)
    requires Enabled(s, step)
    ensures Known(Next(s, step), x) == Known(s, x) + TimesSubmitted([step], x)
  {
    assert [step][1..] == [];
    if step.Submit? {
      Enters(s.producers, step.producer, step.task, x);
    } else if step.TryAdd? {
      AddConservesCalls(s, step.producer, x);
    } else {
      OtherStepsKeepCallers(s, step);
      SameInside(Next(s, step).producers, s.producers, x);
    }
  }

  lemma AddConservesCalls(s: State, p: nat, x: Task)
    requires Enabled(s, TryAdd(p))
    ensures Known(TryAddStep(s, p), x) == Known(s, x)
  {
    var n := TryAddStep(s, p);
    if |s.queue| < s.limit {
      Leaves(s.producers, p, x);
      SameInside(n.producers, s.producers - {p}, x);
    } else {
      SameInside(n.producers, s.producers, x);
    }
  }

  /**
   Every call of AddTask is accounted for: however the run interleaves, the times a task was
   accepted and the callers still inside AddTask with it are the times it was submitted.
   */
  lemma {:induction false} CallsAreConserved(s: State, steps: seq<Step>, t: State, x: Task)
    requires Leads(s, steps, t)
    ensures Known(t, x) == Known(s, x) + TimesSubmitted(steps, x)
    decreases |steps|
  {
    if steps != [] {
      assert [steps[0]][1..] == [];
      StepConservesCalls(s, steps[0], x);
      CallsAreConserved(Next(s, steps[0]), steps[1..], t, x);
    }
  }

  /** The limit last set, or the first one. */
  ghost function LastLimit(limit: int, steps: seq<Step>): int
    decreases |steps|
  {
    if steps == [] then limit
    else LastLimit(if steps[0].SetLimit? then steps[0].limit else limit, steps[1..])
  }

  ghost function LastParallel(parallel: bool, steps: seq<Step>): bool
    decreases |steps|
  {
    if steps == [] then parallel
    else LastParallel(if steps[0].SetParallel? then steps[0].on else parallel, steps[1..])
  }

  /** The limit and the kind of execution in force are the ones set last. */
  lemma {:induction false} SettingsAreTheLast(s: State, steps: seq<Step>, t: State)
    requires Leads(s, steps, t)
    ensures t.limit == LastLimit(s.limit, steps) && t.parallel == LastParallel(s.parallel, steps)
    decreases |steps|
  {
    if steps != [] {
      StepSettings(s, steps[0]);
      SettingsAreTheLast(Next(s, steps[0]), steps[1..], t);
    }
  }

  lemma StepSettings(s: State, step: Step)
    requires Enabled(s, step)
    ensures Next(s, step).limit == if step.SetLimit? then step.limit else s.limit
    ensures Next(s, step).parallel == if step.SetParallel? then step.on else s.parallel
  {
    if IsRunStep(step) {
      RunStepKeepsSettings(s, step);
    } else if step.TryAdd? {
      assert Next(s, step) == TryAddStep(s, step.producer);
    } else if step.SignalStop? {
      assert Next(s, step) == SignalStopStep(s, step.caller);
    } else if step.Start? {
      assert Next(s, step) == StartStep(s);
    }
  }

  lemma RunStepKeepsSettings(s: State, step: Step)
    requires Enabled(s, step) && IsRunStep(step)
    ensures Next(s, step).limit == s.limit && Next(s, step).parallel == s.parallel
  {
    match step
    case TryNext(r) => assert Next(s, step) == TryNextStep(s, r);
    case Choose(r) => assert Next(s, step) == ChooseStep(s, r);
    case CompleteInline(r) => assert Next(s, step) == CompleteInlineStep(s, r);
    case LeaveRun(r) => assert Next(s, step) == LeaveRunStep(s, r);
    case CloseDone(_) =>
  }

  /**
   In parallel, the dispatcher is free for the next task as soon as it has started one; otherwise
   it is busy until the task is done. Either way the task is in flight.
   */
  lemma ParallelFreesDispatcher(s: State, r: nat)
    requires Enabled(s, Choose(r))
    ensures var n := Next(s, Choose(r)); var ticket := s.runs[r].phase.ticket;
            && (n.runs[r].phase == Checking <==> s.parallel)
            && (n.runs[r].phase == Inline(ticket) <==> !s.parallel)
            && (s.parallel ==> ticket in n.spawned)
  {
  }

  /** RunWorkers leaves a run that dispatches, a new one exactly when there was none. */
  lemma StartStarts(s: State)
    requires Reachable(s)
    ensures var n := Next(s, Start);
            && n.activeRun.Some? && n.flagRunning
            && (s.activeRun.Some? ==> n == s)
            && (s.activeRun.None? ==> |n.runs| == |s.runs| + 1 && Dispatching(n, |s.runs|) && Enabled(n, TryNext(|s.runs|)))
  {
    ReachableInv(s);
  }

  /** signalStop stops the active run, and its caller waits for that run until its done channel is closed. */
  lemma StopReachesRun(s: State, caller: nat)
    requires Reachable(s) && Enabled(s, SignalStop(caller))
    ensures var n := Next(s, SignalStop(caller));
            && (s.activeRun.Some? ==>
                  && caller in n.stoppers && n.stoppers[caller] == s.activeRun.value
                  && n.runs[s.activeRun.value].stopping && n.runs[s.activeRun.value].stopCloses == 1
                  && (Enabled(n, ReturnFromStop(caller)) <==> n.runs[s.activeRun.value].doneCloses > 0))
            && (s.activeRun.None? ==> n.runs == s.runs && caller !in n.stoppers && !n.flagRunning)
  {
    ReachableInv(s);
    if s.activeRun.Some? {
      assert ChannelsClosedOnce(s.runs[s.activeRun.value]);
    }
  }

  // ---- Progress --------------------------------------------------------------------------

  lemma CanGoOn(s: State, r: nat)
    requires Inv(s) && s.activeRun == Some(r) && r < |s.runs| && !s.runs[r].stopping
    requires s.limit > 0 && s.queue != []
    ensures Enabled(s, OwnStep(s, r)) || exists t <- s.spawned :: Enabled(s, Complete(t))
  {
    if s.runs[r].phase.Parked? {
      assert s.active >= s.limit && Held(s) == {};
      assert InFlight(s) == s.spawned;
      var t :| t in s.spawned;
      assert Enabled(s, Complete(t));
    }
  }

  /**
   A queued task is never stuck: while a run is live and not stopped and the limit is positive,
   the dispatcher can make a step of its own, or some running task can complete and free a slot.
   */
  lemma QueuedTaskIsNotStuck(s: State, r: nat)
    requires Reachable(s) && r < |s.runs| && s.activeRun == Some(r) && !s.runs[r].stopping
    requires s.limit > 0 && s.queue != []
    ensures Enabled(s, OwnStep(s, r)) || exists t <- s.spawned :: Enabled(s, Complete(t))
  {
    ReachableInv(s);
    CanGoOn(s, r);
  }

  /** A waiting producer is not stuck either: the task that fills the queue is not. */
  lemma WaitingProducerIsNotStuck(s: State, p: nat, r: nat)
    requires Reachable(s) && r < |s.runs| && s.activeRun == Some(r) && !s.runs[r].stopping
    requires s.limit > 0 && p in s.producers
    ensures Enabled(s, TryAdd(p)) || Enabled(s, OwnStep(s, r)) || exists t <- s.spawned :: Enabled(s, Complete(t))
  {
    SleepersHaveReason(s, p, r);
    if s.producers[p].Waiting? {
      QueuedTaskIsNotStuck(s, r);
    }
  }

  /** Run r dispatches and nobody has stopped it. */
  ghost predicate Dispatching(s: State, r: nat) {
    r < |s.runs| && s.activeRun == Some(r) && !s.runs[r].stopping
  }

  /** A step of the dispatcher or the completion of a task. */
  ghost predicate IsWork(step: Step, r: nat) {
    IsOwnStep(step, r) || step.Complete?
  }

  ghost function Work(steps: seq<Step>, r: nat): nat {
    if steps == [] then 0 else (if IsWork(steps[0], r) then 1 else 0) + Work(steps[1..], r)
  }

  ghost function Weight(phase: Phase): nat {
    match phase
    case Handing(_) => 2
    case Inline(_) => 1
    case Checking => 1
    case _ => 0
  }

  /** How many more tasks the queue has room for; every one of them may wake the dispatcher in vain. */
  ghost function Room(s: State): nat {
    if |s.queue| < s.limit then s.limit - |s.queue| else 0
  }

  /** At most this many steps of work are left until the task with the given ticket is handed over. */
  ghost function WorkLeft(s: State, r: nat, ticket: nat): int
    requires r < |s.runs|
  {
    5 * (ticket + 1 - s.handed) + 2 * s.active + Room(s) + Weight(s.runs[r].phase)
  }

  ghost predicate Undisturbed(step: Step) {
    !step.SetLimit? && !step.SignalStop?
  }

  /** Own steps of the dispatcher bring the task nearer. */
  lemma OwnStepWorks(s: State, step: Step, r: nat, ticket: nat)
    requires Inv(s) && Dispatching(s, r) && Enabled(s, step) && IsOwnStep(step, r)
    ensures var n := Next(s, step);
            Dispatching(n, r) && WorkLeft(n, r, ticket) < WorkLeft(s, r, ticket)
  {
    assert ChannelsClosedOnce(s.runs[r]);
    if step.TryNext? {
      PassWorks(s, r, ticket);
    } else {
      ExecutionWorks(s, step, r, ticket);
    }
  }

  lemma PassWorks(s: State, r: nat, ticket: nat)
    requires Dispatching(s, r) && Enabled(s, TryNext(r))
    ensures var n := TryNextStep(s, r);
            Dispatching(n, r) && WorkLeft(n, r, ticket) < WorkLeft(s, r, ticket)
  {
    if s.queue != [] && s.active < s.limit {
      var n := Taken(s, r);
      assert WakeAll(n).runs[r] == n.runs[r];
      assert WorkLeft(WakeAll(n), r, ticket) == WorkLeft(n, r, ticket);
    }
  }

  lemma ExecutionWorks(s: State, step: Step, r: nat, ticket: nat)
    requires Dispatching(s, r) && Enabled(s, step) && (step == Choose(r) || step == CompleteInline(r))
    ensures var n := Next(s, step);
            Dispatching(n, r) && WorkLeft(n, r, ticket) < WorkLeft(s, r, ticket)
  {
  }

  lemma CompletionWorks(s: State, step: Step, r: nat, ticket: nat)
    requires Dispatching(s, r) && Enabled(s, step) && step.Complete?
    ensures var n := Next(s, step);
            Dispatching(n, r) && WorkLeft(n, r, ticket) < WorkLeft(s, r, ticket)
  {
  }

  /** Producers use up room when they wake the dispatcher. */
  lemma AddingDoesNotDelay(s: State, step: Step, r: nat, ticket: nat)
    requires Dispatching(s, r) && Enabled(s, step) && step.TryAdd?
    ensures var n := Next(s, step);
            Dispatching(n, r) && WorkLeft(n, r, ticket) <= WorkLeft(s, r, ticket)
  {
    assert Next(s, step) == TryAddStep(s, step.producer);
  }

  /** Nothing else that is left to do concerns the live run. */
  lemma OthersDoNotDelay(s: State, step: Step, r: nat, ticket: nat)
    requires SingleDispatcher(s) && Dispatching(s, r) && Enabled(s, step) && Undisturbed(step)
    requires !IsWork(step, r) && !step.TryAdd?
    ensures var n := Next(s, step);
            Dispatching(n, r) && WorkLeft(n, r, ticket) <= WorkLeft(s, r, ticket)
  {
    if IsRunStep(step) {
      assert !Live(s.runs[step.run]);
    }
  }

  lemma StepWorks(s: State, step: Step, r: nat, ticket: nat)
    requires Inv(s) && Dispatching(s, r) && Enabled(s, step) && Undisturbed(step)
    ensures var n := Next(s, step);
            && Dispatching(n, r)
            && WorkLeft(n, r, ticket) + (if IsWork(step, r) then 1 else 0) <= WorkLeft(s, r, ticket)
  {
    if IsOwnStep(step, r) {
      OwnStepWorks(s, step, r, ticket);
    } else if step.Complete? {
      CompletionWorks(s, step, r, ticket);
    } else if step.TryAdd? {
      AddingDoesNotDelay(s, step, r, ticket);
    } else {
      OthersDoNotDelay(s, step, r, ticket);
    }
  }

  lemma {:induction false} WorkIsDone(s: State, steps: seq<Step>, t: State, r: nat, ticket: nat)
    requires Inv(s) && Dispatching(s, r) && Leads(s, steps, t) && forall step <- steps :: Undisturbed(step)
    ensures Dispatching(t, r) && Work(steps, r) + WorkLeft(t, r, ticket) <= WorkLeft(s, r, ticket)
    decreases |steps|
  {
    if steps != [] {
      assert steps[0] in steps;
      StepWorks(s, steps[0], r, ticket);
      StepInv(s, steps[0]);
      WorkIsDone(Next(s, steps[0]), steps[1..], t, r, ticket);
    }
  }

  /**
   A queued task is handed over soon: while the limit stays and nobody stops the run, whatever
   producers and other callers do, the task at queue position i has been handed over once the
   dispatcher and the running tasks made 5 (i + 1) + 2 active + room + 2 steps between them; and
   until then, with a positive limit, one of them can always make a step.
   */
  lemma HandedOverSoon(s: State, steps: seq<Step>, t: State, r: nat, i: nat)
    requires Reachable(s) && Dispatching(s, r) && i < |s.queue|
    requires Leads(s, steps, t) && forall step <- steps :: Undisturbed(step)
    ensures s.handed + i < |s.accepted| && s.accepted[s.handed + i] == s.queue[i]
    ensures Work(steps, r) >= 5 * (i + 1) + 2 * s.active + Room(s) + 2 ==> t.handed > s.handed + i
    ensures t.handed <= s.handed + i && t.limit > 0 ==>
              r < |t.runs| && (Enabled(t, OwnStep(t, r)) || exists ticket <- t.spawned :: Enabled(t, Complete(ticket)))
  {
    ReachableInv(s);
    LeadsInv(s, steps, t);
    WorkIsDone(s, steps, t, r, s.handed + i);
    if t.handed <= s.handed + i {
      AcceptedGrows(s, steps, t);
      if t.limit > 0 {
        CanGoOn(t, r);
      }
    }
  }

  lemma {:induction false} AcceptedGrows(s: State, steps: seq<Step>, t: State)
    requires Leads(s, steps, t)
    ensures s.accepted <= t.accepted
    decreases |steps|
  {
    if steps != [] {
      TakesOldestOrNothing(s, steps[0]);
      AcceptedGrows(Next(s, steps[0]), steps[1..], t);
    }
  }

  // ---- Stopping terminates ---------------------------------------------------------------

  /** How many more steps a stopped dispatcher makes at most. */
  ghost function StepsLeft(run: Run): nat {
    match run.phase
    case Handing(_) => 5
    case Inline(_) => 4
    case Checking => 3
    case Parked => 3
    case Finishing => 2
    case Closing => 1
    case Finished => 0
  }

  /** The step dispatch(run) makes next (for an inline task: the task returns). */
  ghost function OwnStep(s: State, r: nat): Step
    requires r < |s.runs|
  {
    match s.runs[r].phase
    case Handing(_) => Choose(r)
    case Inline(_) => CompleteInline(r)
    case Finishing => LeaveRun(r)
    case Closing => CloseDone(r)
    case _ => TryNext(r)
  }

  /** A stopped run is never asleep: until its done channel is closed it can always go on. */
  lemma StoppedRunCanMove(s: State, r: nat)
    requires NoLostWakeup(s) && r < |s.runs| && s.runs[r].stopping && !s.runs[r].phase.Finished?
    ensures Enabled(s, OwnStep(s, r))
    ensures StepsLeft(Next(s, OwnStep(s, r)).runs[r]) < StepsLeft(s.runs[r])
  {
  }

  /** A step of some dispatch(run). */
  ghost predicate IsRunStep(step: Step) {
    step.TryNext? || step.Choose? || step.CompleteInline? || step.LeaveRun? || step.CloseDone?
  }

  ghost predicate IsOwnStep(step: Step, r: nat) {
    IsRunStep(step) && step.run == r
  }

  ghost function OwnSteps(steps: seq<Step>, r: nat): nat {
    if steps == [] then 0 else (if IsOwnStep(steps[0], r) then 1 else 0) + OwnSteps(steps[1..], r)
  }

  lemma OwnStepMovesOn(s: State, step: Step, r: nat)
    requires Enabled(s, step) && IsOwnStep(step, r) && r < |s.runs| && s.runs[r].stopping
    ensures var n := Next(s, step);
            r < |n.runs| && n.runs[r].stopping && StepsLeft(n.runs[r]) < StepsLeft(s.runs[r])
  {
  }

  /** What anyone else does leaves a stopped run as it is, or wakes it. */
  lemma OtherStepsDoNotDelay(s: State, step: Step, r: nat)
    requires Enabled(s, step) && !IsOwnStep(step, r) && r < |s.runs| && s.runs[r].stopping
    ensures var n := Next(s, step);
            r < |n.runs| && (n.runs[r] == s.runs[r] || n.runs[r] == WakeRun(s.runs[r]))
  {
    if IsRunStep(step) {
      OtherRunsDoNotDelay(s, step, r);
    } else {
      CallersDoNotDelay(s, step, r);
    }
  }

  lemma OtherRunsDoNotDelay(s: State, step: Step, r: nat)
    requires Enabled(s, step) && IsRunStep(step) && step.run != r && r < |s.runs|
    ensures var n := Next(s, step);
            r < |n.runs| && (n.runs[r] == s.runs[r] || n.runs[r] == WakeRun(s.runs[r]))
  {
    match step
    case TryNext(own) => assert Next(s, step) == TryNextStep(s, own);
    case Choose(own) => assert Next(s, step) == ChooseStep(s, own);
    case CompleteInline(own) => assert Next(s, step) == CompleteInlineStep(s, own);
    case LeaveRun(own) => assert Next(s, step) == LeaveRunStep(s, own);
    case CloseDone(own) =>
  }

  lemma CallersDoNotDelay(s: State, step: Step, r: nat)
    requires Enabled(s, step) && !IsRunStep(step) && r < |s.runs| && s.runs[r].stopping
    ensures var n := Next(s, step);
            r < |n.runs| && (n.runs[r] == s.runs[r] || n.runs[r] == WakeRun(s.runs[r]))
  {
  }

  /** Whatever everyone else does, a stopped run makes at most five more steps of its own. */
  lemma {:induction false} StoppedRunStepsFewTimes(s: State, steps: seq<Step>, t: State, r: nat)
    requires r < |s.runs| && s.runs[r].stopping
    requires Leads(s, steps, t)
    ensures r < |t.runs| && t.runs[r].stopping
    ensures OwnSteps(steps, r) + StepsLeft(t.runs[r]) <= StepsLeft(s.runs[r]) <= 5
    decreases |steps|
  {
    if steps != [] {
      if IsOwnStep(steps[0], r) {
        OwnStepMovesOn(s, steps[0], r);
      } else {
        OtherStepsDoNotDelay(s, steps[0], r);
      }
      StoppedRunStepsFewTimes(Next(s, steps[0]), steps[1..], t, r);
    }
  }

  /**
   StopWorkers terminates: after any run of the package from the moment a dispatcher was
   stopped, its done channel is closed, exactly once, or the dispatcher can make a step; and
   once it was scheduled five times the channel is closed.
   */
  lemma StopTerminates(s: State, steps: seq<Step>, t: State, r: nat)
    requires Inv(s) && r < |s.runs| && s.runs[r].stopping
    requires Leads(s, steps, t)
    ensures r < |t.runs|
    ensures t.runs[r].doneCloses == 1 || Enabled(t, OwnStep(t, r))
    ensures OwnSteps(steps, r) >= 5 ==> t.runs[r].doneCloses == 1
  {
    StoppedRunStepsFewTimes(s, steps, t, r);
    LeadsInv(s, steps, t);
    assert ChannelsClosedOnce(t.runs[r]);
    if !t.runs[r].phase.Finished? {
      StoppedRunCanMove(t, r);
    }
  }

  // ---- The package -----------------------------------------------------------------------

  /** The package variables, with one method per critical section. */
  class Dispatcher {
    var queue: seq<Task>
    var workersLimit: int
    var activeTasks: int
    var parallelism: bool
    var activeRun: Option<nat>
    var stopSignal: Option<nat>
    var flagRunning: bool
    var runs: seq<Run>
    var producers: map<nat, Producer>
    var stoppers: map<nat, nat>
    var spawned: set<nat>
    ghost var accepted: seq<Task>
    var handed: nat
    ghost var finished: set<nat>
    ghost var peak: int

    ghost function View(): State
      reads this
    {
      State(queue, workersLimit, activeTasks, parallelism, activeRun, stopSignal, flagRunning, runs,
            producers, stoppers, spawned, accepted, handed, finished, peak)
    }

    ghost predicate Valid()
      reads this
    {
      Inv(View())
    }

    constructor (cpus: int)
      ensures Valid() && Initial(View()) && workersLimit == cpus && parallelism
    {
      queue, workersLimit, activeTasks, parallelism := [], cpus, 0, true;
      activeRun, stopSignal, flagRunning, runs := None, None, false, [];
      producers, stoppers, spawned := map[], map[], {};
      accepted, handed, finished, peak := [], 0, {}, cpus;
    }

    method Broadcast()
      modifies this`producers, this`runs
      ensures View() == WakeAll(old(View()))
    {
      producers := map p | p in producers :: Contending(producers[p].task);
      var i := 0;
      while i < |runs|
        invariant 0 <= i <= |runs| == |old(runs)|
        invariant forall k | 0 <= k < i :: runs[k] == WakeRun(old(runs)[k])
        invariant forall k | i <= k < |runs| :: runs[k] == old(runs)[k]
        invariant producers == WakeProducers(old(producers))
      {
        if runs[i].phase.Parked? {
          runs := runs[i := runs[i].(phase := Checking)];
        }
        i := i + 1;
      }
      assert runs == WakeRuns(old(runs));
    }

    method SetWorkersLimit(limit: int)
      requires Valid()
      modifies this
      ensures Valid() && View() == Next(old(View()), SetLimit(limit))
    {
      StepInv(View(), SetLimit(limit));
      workersLimit := limit;
      peak := if limit > peak then limit else peak;
      Broadcast();
    }

    /** One pass of the loop of AddTask by goroutine p: it queues its task or goes to sleep. */
    method AddTask(p: nat)
      requires Valid() && Enabled(View(), TryAdd(p))
      modifies this
      ensures Valid() && View() == Next(old(View()), TryAdd(p))
    {
      StepInv(View(), TryAdd(p));
      QueueOrWait(p);
    }

    /** The critical section of AddTask. */
    method QueueOrWait(p: nat)
      requires Enabled(View(), TryAdd(p))
      modifies this
      ensures View() == Next(old(View()), TryAdd(p))
    {
      var task := producers[p].task;
      if |queue| >= workersLimit {
        producers := producers[p := Waiting(task)];
        return;
      }
      producers := producers - {p};
      queue := queue + [task];
      accepted := accepted + [task];
      Broadcast();
    }

    method SignalStop(caller: nat) returns (run: Option<nat>)
      requires Valid() && Enabled(View(), Step.SignalStop(caller))
      modifies this
      ensures Valid() && View() == Next(old(View()), Step.SignalStop(caller))
      ensures run == old(activeRun)
    {
      StepInv(View(), Step.SignalStop(caller));
      run := MarkStopping(caller);
    }

    /** The critical section of signalStop. */
    method MarkStopping(caller: nat) returns (run: Option<nat>)
      requires Enabled(View(), Step.SignalStop(caller))
      modifies this
      ensures View() == Next(old(View()), Step.SignalStop(caller))
      ensures run == old(activeRun)
    {
      run := activeRun;
      if run.None? {
        flagRunning := false;
        stopSignal := None;
        return;
      }
      stoppers := stoppers[caller := run.value];
      if !runs[run.value].stopping {
        runs := runs[run.value := runs[run.value].(stopping := true, stopCloses := runs[run.value].stopCloses + 1)];
      }
      assert runs == old(runs)[run.value := runs[run.value]];
      Broadcast();
    }

    method RunWorkers()
      requires Valid()
      modifies this
      ensures Valid() && View() == Next(old(View()), Start)
    {
      StepInv(View(), Start);
      BeginRun();
    }

    /** The critical section of RunWorkers. */
    method BeginRun()
      modifies this
      ensures View() == Next(old(View()), Start)
    {
      if activeRun.Some? {
        return;
      }
      activeRun := Some(|runs|);
      stopSignal := Some(|runs|);
      flagRunning := true;
      runs := runs + [Run(false, 0, 0, Checking)];
    }

    /** One pass of the loop of nextTask: the run finishes, goes to sleep, or takes a task. */
    method NextTask(run: nat) returns (task: Option<Task>)
      requires Valid() && Enabled(View(), TryNext(run))
      modifies this
      ensures Valid() && View() == Next(old(View()), TryNext(run))
      ensures task.Some? <==> !old(runs)[run].stopping && old(queue) != [] && old(activeTasks) < workersLimit
      ensures task.Some? ==> old(queue) == [task.value] + queue
    {
      StepInv(View(), TryNext(run));
      task := TakeOrWait(run);
    }

    /** The critical section of nextTask. */
    method TakeOrWait(run: nat) returns (task: Option<Task>)
      requires Enabled(View(), TryNext(run))
      modifies this
      ensures View() == Next(old(View()), TryNext(run))
      ensures task.Some? <==> !old(runs)[run].stopping && old(queue) != [] && old(activeTasks) < workersLimit
      ensures task.Some? ==> old(queue) == [task.value] + queue
    {
      task := None;
      if runs[run].stopping {
        runs := runs[run := runs[run].(phase := Finishing)];
        return;
      }
      if |queue| == 0 || activeTasks >= workersLimit {
        runs := runs[run := runs[run].(phase := Parked)];
        return;
      }
      task := Some(queue[0]);
      TakeTask(run);
      Broadcast();
    }

    /** The oldest task and a slot are taken. */
    method TakeTask(run: nat)
      requires run < |runs| && queue != []
      modifies this`queue, this`activeTasks, this`runs, this`handed
      ensures View() == Taken(old(View()), run)
    {
      queue := queue[1..];
      activeTasks := activeTasks + 1;
      runs := runs[run := runs[run].(phase := Handing(handed))];
      handed := handed + 1;
    }

    /** The branch of dispatch: the task gets its own goroutine or is executed in place. */
    method Dispatch(run: nat)
      requires Valid() && Enabled(View(), Choose(run))
      modifies this
      ensures Valid() && View() == Next(old(View()), Choose(run))
    {
      StepInv(View(), Choose(run));
      SpawnOrInline(run);
    }

    /** What the dispatcher does with the task. */
    method SpawnOrInline(run: nat)
      requires Enabled(View(), Choose(run))
      modifies this
      ensures View() == Next(old(View()), Choose(run))
    {
      var ticket := runs[run].phase.ticket;
      if parallelism {
        spawned := spawned + {ticket};
        runs := runs[run := runs[run].(phase := Checking)];
      } else {
        runs := runs[run := runs[run].(phase := Inline(ticket))];
      }
    }

    /** The end of executeTask for a task that runs in its own goroutine. */
    method ReleaseExecutionSlot(ticket: nat)
      requires Valid() && Enabled(View(), Complete(ticket))
      modifies this
      ensures Valid() && View() == Next(old(View()), Complete(ticket))
    {
      StepInv(View(), Complete(ticket));
      FreeSlot(ticket);
    }

    /** The critical section of releaseExecutionSlot. */
    method FreeSlot(ticket: nat)
      requires Enabled(View(), Complete(ticket))
      modifies this
      ensures View() == Next(old(View()), Complete(ticket))
    {
      spawned := spawned - {ticket};
      finished := finished + {ticket};
      activeTasks := activeTasks - 1;
      Broadcast();
    }

    method FinishRun(run: nat)
      requires Valid() && Enabled(View(), LeaveRun(run))
      modifies this
      ensures Valid() && View() == Next(old(View()), LeaveRun(run))
    {
      StepInv(View(), LeaveRun(run));
      ForgetRun(run);
    }

    /** The critical section of finishRun. */
    method ForgetRun(run: nat)
      requires Enabled(View(), LeaveRun(run))
      modifies this
      ensures View() == Next(old(View()), LeaveRun(run))
    {
      if activeRun == Some(run) {
        activeRun := None;
        stopSignal := None;
        flagRunning := false;
      }
      runs := runs[run := runs[run].(phase := Closing)];
      assert runs == SetPhase(old(View()), run, Closing).runs;
    }
  }
}

/**
 The job registry and lifecycle of tools/jobs for one scheduler instance. Every exported call is
 one `Step`, except that stopping takes two: the stop channel is closed, and the call goes on
 when the job loops have ended. Anything that does not need the lifecycle mutex may happen
 between the two. A job loop tests whether its job may run, calls the function, and ends when
 one of its channels is closed or it has nothing more to wait for, each in a step of its own.
 */
module JobRegistry {
  import opened Wrappers
  import opened GoStrings
  import NextRun

  /** A jobControl; `closes` counts how often its channel was closed. Controls are told apart by number. */
  datatype Control = Control(id: string, paused: bool, stopped: bool, closes: nat)

  /** An intervalJob or cronJob definition, as far as the registry looks at it. */
  datatype Job = Job(id: string, control: nat)

  /** The goroutine of a job, started in some epoch; an epoch lasts from a start to the next stop. */
  datatype Loop = Loop(control: nat, epoch: nat)

  /** Where a job loop is: at its select, between canRun and the call of the function, or inside it. */
  datatype Phase = Selecting | Admitted | Executing

  /** A stop that holds the lifecycle mutex; `wait` says that it waits for the job loops. */
  datatype Pending = Pending(wait: bool, clear: bool, restart: bool)

  /**
   The fields of jobs, every control ever made (`heap`), the status flag, the live goroutines,
   and logs of all launches and of all calls of a job's function. closes[e] counts how often the stop channel of epoch e + 1 was closed.
   */
  datatype State = State(
    started: bool,
    intervalJobs: seq<Job>,
    cronJobs: seq<Job>,
    controls: map<string, nat>,
    heap: seq<Control>,
    status: bool,
    epoch: nat,
    closes: seq<nat>,
    loops: map<Loop, Phase>,
    launches: seq<Loop>,
    executions: seq<Loop>,
    pending: Option<Pending>)

  datatype Error =
    | EmptyJobID | DuplicateJobID | JobNotFound | JobStopped
    | NilJobFunc | InvalidInterval | InvalidCronTrigger | CronTriggerExpired

  datatype Step =
    | RegisterInterval(id: string)
    | RegisterCron(id: string)
    | Pause(control: nat)                      // pauseJob, with the control it looked up before
    | Resume(control: nat)
    | StopJob(id: string)
    | StartJobs(testMode: bool)
    | BeginStop(clear: bool, restart: bool)    // StopAllJobs(clear), or RestartJobs
    | FinishStop(testMode: bool)
    | TestRun(loop: Loop)                      // canRun
    | Execute(loop: Loop)                      // fn is called
    | Return(loop: Loop)                       // fn returns
    | LoopEnds(loop: Loop)                     // the select sees a closed channel
    | LoopExpires(loop: Loop)                  // the timeout, or no next run

  // ---- The steps ----------------------------------------------------------------------------

  /** The plain filter removeIntervalJob and removeCronJob stand for. */
  function Without(jobs: seq<Job>, id: string): seq<Job> {
    if jobs == [] then []
    else (if jobs[0].id != id then [jobs[0]] else []) + Without(jobs[1..], id)
  }

  function Launched(jobs: seq<Job>, epoch: nat): seq<Loop> {
    seq(|jobs|, i requires 0 <= i < |jobs| => Loop(jobs[i].control, epoch))
  }

  function AtSelect(begun: seq<Loop>): map<Loop, Phase> {
    map l | l in begun :: Selecting
  }

  lemma LaunchedNext(jobs: seq<Job>, i: nat, epoch: nat)
    requires i < |jobs|
    ensures Launched(jobs[..i + 1], epoch) == Launched(jobs[..i], epoch) + [Loop(jobs[i].control, epoch)]
  {
  }

  lemma AtSelectNext(loops: map<Loop, Phase>, begun: seq<Loop>, loop: Loop)
    ensures loops + AtSelect(begun + [loop]) == (loops + AtSelect(begun))[loop := Selecting]
  {
  }

  function Stopped(c: Control): Control {
    if c.closes == 0 then c.(stopped := true, closes := 1) else c.(stopped := true)
  }

  /** addControlLocked, the new definition, and its loop if the scheduler is running. */
  function Register(s: State, id: string, cron: bool): State {
    if id == "" || id in s.controls then s
    else
      var c := |s.heap|;
      var job := Job(id, c);
      var n := s.(controls := s.controls[id := c],
                  heap := s.heap + [Control(id, false, false, 0)],
                  intervalJobs := if cron then s.intervalJobs else s.intervalJobs + [job],
                  cronJobs := if cron then s.cronJobs + [job] else s.cronJobs);
      if s.started then n.(loops := n.loops[Loop(c, s.epoch) := Selecting], launches := n.launches + [Loop(c, s.epoch)]) else n
  }

  /** The rest of pauseJob or resumeJob, on a control that may have been stopped since it was looked up. */
  function SetPaused(s: State, c: nat, paused: bool): State {
    if c >= |s.heap| || s.heap[c].stopped then s
    else s.(heap := s.heap[c := s.heap[c].(paused := paused)])
  }

  function StopById(s: State, id: string): State {
    if id == "" || id !in s.controls || s.controls[id] >= |s.heap| then s
    else
      var c := s.controls[id];
      s.(controls := s.controls - {id}, heap := s.heap[c := Stopped(s.heap[c])],
         intervalJobs := Without(s.intervalJobs, id), cronJobs := Without(s.cronJobs, id))
  }

  function Start(s: State, testMode: bool): State {
    if testMode || s.started || s.pending.Some? then s
    else
      var e := s.epoch + 1;
      var begun := Launched(s.intervalJobs + s.cronJobs, e);
      s.(started := true, status := true, epoch := e, closes := s.closes + [0],
         loops := s.loops + AtSelect(begun), launches := s.launches + begun)
  }

  /** stop up to its wait: the stop channel is closed. */
  function SignalStop(s: State, clear: bool, restart: bool): State {
    if s.pending.Some? then s
    else if !s.started then s.(pending := Some(Pending(false, clear, restart)))
    else
      s.(started := false, pending := Some(Pending(true, clear, restart)),
         closes := if s.closes == [] then [] else s.closes[|s.closes| - 1 := s.closes[|s.closes| - 1] + 1])
  }

  /** The wait group of a waiting stop is down to zero. */
  predicate CanFinish(s: State) {
    s.pending.Some? && (s.pending.value.wait ==> s.loops == map[])
  }

  function Clear(s: State): State {
    s.(intervalJobs := [], cronJobs := [], controls := map[],
       heap := seq(|s.heap|, c requires 0 <= c < |s.heap| =>
         if c in s.controls.Values then Stopped(s.heap[c]) else s.heap[c]))
  }

  /** What follows the wait. */
  function Cleared(s: State): State
    requires s.pending.Some?
  {
    (if s.pending.value.clear then Clear(s) else s).(status := false, pending := None)
  }

  function Finish(s: State, testMode: bool): State {
    if !CanFinish(s) then s
    else if s.pending.value.restart then Start(Cleared(s), testMode)
    else Cleared(s)
  }

  predicate CanRun(c: Control) {
    !c.stopped && !c.paused
  }

  predicate InPhase(s: State, loop: Loop, phase: Phase) {
    loop in s.loops && s.loops[loop] == phase
  }

  /** A channel the loop selects on is closed: its control's, or the stop channel of its epoch. */
  predicate Told(s: State, loop: Loop) {
    || (loop.control < |s.heap| && s.heap[loop.control].stopped)
    || (1 <= loop.epoch <= |s.closes| && s.closes[loop.epoch - 1] > 0)
  }

  function TestStep(s: State, loop: Loop): State {
    if InPhase(s, loop, Selecting) && loop.control < |s.heap| && CanRun(s.heap[loop.control])
    then s.(loops := s.loops[loop := Admitted]) else s
  }

  /** The steps of the job loops; all others are calls. */
  predicate OfLoop(step: Step) {
    step.TestRun? || step.Execute? || step.Return? || step.LoopEnds? || step.LoopExpires?
  }

  function LoopNext(s: State, step: Step): State
    requires OfLoop(step)
  {
    var loop := step.loop;
    match step
    case TestRun(_) => TestStep(s, loop)
    case Execute(_) =>
      if InPhase(s, loop, Admitted)
      then s.(loops := s.loops[loop := Executing], executions := s.executions + [loop]) else s
    case Return(_) => if InPhase(s, loop, Executing) then s.(loops := s.loops[loop := Selecting]) else s
    case LoopEnds(_) => if InPhase(s, loop, Selecting) && Told(s, loop) then s.(loops := s.loops - {loop}) else s
    case LoopExpires(_) => if InPhase(s, loop, Selecting) then s.(loops := s.loops - {loop}) else s
  }

  function CallNext(s: State, step: Step): State
    requires !OfLoop(step)
  {
    match step
    case RegisterInterval(id) => Register(s, id, false)
    case RegisterCron(id) => Register(s, id, true)
    case Pause(c) => SetPaused(s, c, true)
    case Resume(c) => SetPaused(s, c, false)
    case StopJob(id) => StopById(s, id)
    case StartJobs(testMode) => Start(s, testMode)
    case BeginStop(clear, restart) => SignalStop(s, clear, restart)
    case FinishStop(testMode) => Finish(s, testMode)
  }

  function Next(s: State, step: Step): State {
    if OfLoop(step) then LoopNext(s, step) else CallNext(s, step)
  }

  /** A job loop changes nothing but the loops and their executions, and adds no loop. */
  lemma LoopStepFrame(s: State, step: Step)
    requires OfLoop(step)
    ensures var n := LoopNext(s, step);
            n == s.(loops := n.loops, executions := n.executions) && n.loops.Keys <= s.loops.Keys
  {
  }

  const EMPTY := State(false, [], [], map[], [], false, 0, [], map[], [], [], None)

  // ---- The registry invariant ---------------------------------------------------------------

  function Ids(jobs: seq<Job>): set<string> {
    set job <- jobs :: job.id
  }

  ghost predicate DistinctIds(jobs: seq<Job>) {
    forall i, j | 0 <= i < j < |jobs| :: jobs[i].id != jobs[j].id
  }

  /** All definitions. */
  function All(s: State): seq<Job> {
    s.intervalJobs + s.cronJobs
  }

  /** The jobs and the controls are about the same ids, each once, and agree on the control. */
  ghost predicate Agree(jobs: seq<Job>, controls: map<string, nat>) {
    && DistinctIds(jobs)
    && (forall id <- controls :: id in Ids(jobs))
    && (forall job <- jobs :: job.id in controls && controls[job.id] == job.control)
  }

  ghost predicate Registry(s: State) {
    Agree(All(s), s.controls)
  }

  /** A control is mapped exactly while it is not stopped; its channel is closed once, when it is. */
  ghost predicate MappedWhileRunning(controls: map<string, nat>, heap: seq<Control>) {
    && (forall id <- controls ::
          controls[id] < |heap| && heap[controls[id]].id == id && !heap[controls[id]].stopped)
    && (forall c | 0 <= c < |heap| ::
          && heap[c].closes == (if heap[c].stopped then 1 else 0)
          && (!heap[c].stopped ==> heap[c].id in controls && controls[heap[c].id] == c))
  }

  lemma {:induction false} WithoutKeeps(jobs: seq<Job>, id: string, job: Job)
    ensures job in Without(jobs, id) <==> job in jobs && job.id != id
  {
    if jobs != [] {
      WithoutKeeps(jobs[1..], id, job);
      assert job in jobs <==> job == jobs[0] || job in jobs[1..];
    }
  }

  lemma {:induction false} WithoutStaysDistinct(jobs: seq<Job>, id: string)
    requires DistinctIds(jobs)
    ensures DistinctIds(Without(jobs, id))
  {
    if jobs != [] {
      var tail := Without(jobs[1..], id);
      WithoutStaysDistinct(jobs[1..], id);
      forall job <- tail
        ensures job.id != jobs[0].id
      {
        WithoutKeeps(jobs[1..], id, job);
      }
      assert forall i | 0 <= i < |tail| :: tail[i] in tail;
    }
  }

  lemma {:induction false} WithoutAppend(a: seq<Job>, b: seq<Job>, id: string)
    ensures Without(a + b, id) == Without(a, id) + Without(b, id)
  {
    if a == [] {
      assert a + b == b;
    } else {
      var head := if a[0].id != id then [a[0]] else [];
      assert (a + b)[1..] == a[1..] + b && (a + b)[0] == a[0];
      calc {
        Without(a + b, id);
        head + Without(a[1..] + b, id);
        { WithoutAppend(a[1..], b, id); }
        head + (Without(a[1..], id) + Without(b, id));
        Without(a, id) + Without(b, id);
      }
    }
  }

  /** Stopping a job removes its id from both sides. */
  lemma AgreeWithout(jobs: seq<Job>, controls: map<string, nat>, id: string)
    requires Agree(jobs, controls)
    ensures Agree(Without(jobs, id), controls - {id})
  {
    WithoutStaysDistinct(jobs, id);
    forall job: Job
      ensures job in Without(jobs, id) <==> job in jobs && job.id != id
    {
      WithoutKeeps(jobs, id, job);
    }
    forall other <- controls - {id}
      ensures other in Ids(Without(jobs, id))
    {
      var job :| job in jobs && job.id == other;
      assert job in Without(jobs, id);
    }
  }

  /** A new job may be listed anywhere. */
  lemma AgreeInsert(a: seq<Job>, b: seq<Job>, controls: map<string, nat>, job: Job)
    requires Agree(a + b, controls) && job.id !in controls
    ensures Agree(a + [job] + b, controls[job.id := job.control])
  {
    var before, after := a + b, a + [job] + b;
    assert forall other <- after :: other == job || other in before;
    forall i, j | 0 <= i < j < |after|
      ensures after[i].id != after[j].id
    {
      var i', j' := if i > |a| then i - 1 else i, if j > |a| then j - 1 else j;
      assert i != |a| ==> after[i] == before[i'];
      assert j != |a| ==> after[j] == before[j'];
    }
    forall id <- controls[job.id := job.control]
      ensures id in Ids(after)
    {
      if id == job.id {
        assert job in after;
      } else {
        var other :| other in before && other.id == id;
        assert other in after;
      }
    }
  }

  lemma RegisterKeepsRegistry(s: State, id: string, cron: bool)
    requires Registry(s)
    ensures Registry(Register(s, id, cron))
  {
    if id != "" && id !in s.controls {
      var job := Job(id, |s.heap|);
      var n := Register(s, id, cron);
      if cron {
        assert All(s) + [] == All(s);
        AgreeInsert(All(s), [], s.controls, job);
        assert All(n) == All(s) + [job] + [];
      } else {
        AgreeInsert(s.intervalJobs, s.cronJobs, s.controls, job);
        assert All(n) == s.intervalJobs + [job] + s.cronJobs;
      }
    }
  }

  lemma StopByIdKeepsRegistry(s: State, id: string)
    requires Registry(s)
    ensures Registry(StopById(s, id))
  {
    WithoutAppend(s.intervalJobs, s.cronJobs, id);
    AgreeWithout(All(s), s.controls, id);
  }

  lemma FinishKeepsRegistry(s: State, testMode: bool)
    requires Registry(s)
    ensures Registry(Finish(s, testMode))
  {
    if CanFinish(s) {
      ClearedKeepsRegistry(s);
      StartKeepsRegistry(Cleared(s), testMode);
    }
  }

  lemma ClearedKeepsRegistry(s: State)
    requires s.pending.Some? && Registry(s)
    ensures Registry(Cleared(s))
  {
    if s.pending.value.clear {
      assert All(Cleared(s)) == [];
    } else {
      assert All(Cleared(s)) == All(s);
    }
  }

  lemma StartKeepsRegistry(s: State, testMode: bool)
    requires Registry(s)
    ensures Registry(Start(s, testMode))
  {
    assert All(Start(s, testMode)) == All(s);
  }

  lemma StepKeepsRegistry(s: State, step: Step)
    requires Registry(s)
    ensures Registry(Next(s, step))
  {
    if OfLoop(step) {
      LoopStepFrame(s, step);
    } else {
      match step
      case RegisterInterval(id) => RegisterKeepsRegistry(s, id, false);
      case RegisterCron(id) => RegisterKeepsRegistry(s, id, true);
      case StopJob(id) => StopByIdKeepsRegistry(s, id);
      case FinishStop(testMode) => FinishKeepsRegistry(s, testMode);
      case Pause(c) => assert All(SetPaused(s, c, true)) == All(s);
      case Resume(c) => assert All(SetPaused(s, c, false)) == All(s);
      case StartJobs(testMode) => StartKeepsRegistry(s, testMode);
      case BeginStop(clear, restart) => assert All(SignalStop(s, clear, restart)) == All(s);
    }
  }

  lemma FinishKeepsControls(s: State, testMode: bool)
    requires MappedWhileRunning(s.controls, s.heap)
    ensures MappedWhileRunning(Finish(s, testMode).controls, Finish(s, testMode).heap)
  {
    if CanFinish(s) {
      var n := Cleared(s);
      ClearKeepsControls(s);
      assert Start(n, testMode).controls == n.controls && Start(n, testMode).heap == n.heap;
    }
  }

  lemma StepKeepsControls(s: State, step: Step)
    requires MappedWhileRunning(s.controls, s.heap)
    ensures MappedWhileRunning(Next(s, step).controls, Next(s, step).heap)
  {
    if OfLoop(step) {
      LoopStepFrame(s, step);
    } else {
      match step
      case RegisterInterval(id) => RegisterKeepsControls(s, id, false);
      case RegisterCron(id) => RegisterKeepsControls(s, id, true);
      case Pause(c) => PauseKeepsControls(s, c, true);
      case Resume(c) => PauseKeepsControls(s, c, false);
      case StopJob(id) => StopByIdKeepsControls(s, id);
      case FinishStop(testMode) => FinishKeepsControls(s, testMode);
      case StartJobs(_) =>
      case BeginStop(_, _) =>
    }
  }

  lemma RegisterKeepsControls(s: State, id: string, cron: bool)
    requires MappedWhileRunning(s.controls, s.heap)
    ensures MappedWhileRunning(Register(s, id, cron).controls, Register(s, id, cron).heap)
  {
  }

  lemma PauseKeepsControls(s: State, c: nat, paused: bool)
    requires MappedWhileRunning(s.controls, s.heap)
    ensures MappedWhileRunning(SetPaused(s, c, paused).controls, SetPaused(s, c, paused).heap)
  {
  }

  lemma StopByIdKeepsControls(s: State, id: string)
    requires MappedWhileRunning(s.controls, s.heap)
    ensures MappedWhileRunning(StopById(s, id).controls, StopById(s, id).heap)
  {
  }

  lemma ClearKeepsControls(s: State)
    requires MappedWhileRunning(s.controls, s.heap)
    ensures MappedWhileRunning(Clear(s).controls, Clear(s).heap)
  {
    forall c | 0 <= c < |s.heap|
      ensures c in s.controls.Values <==> !s.heap[c].stopped
    {
      if !s.heap[c].stopped {
        assert s.heap[c].id in s.controls && s.controls[s.heap[c].id] == c;
      }
    }
  }

  // ---- The lifecycle invariant --------------------------------------------------------------

  ghost predicate DistinctLoops(launches: seq<Loop>) {
    forall i, j | 0 <= i < j < |launches| :: launches[i] != launches[j]
  }

  /** No loop is ever launched twice in one epoch, and none before its control or epoch existed. */
  ghost predicate LaunchedOnce(s: State) {
    && DistinctLoops(s.launches)
    && (forall l <- s.launches :: l.control < |s.heap| && 1 <= l.epoch <= s.epoch)
  }

  predicate Waiting(s: State) {
    s.pending.Some? && s.pending.value.wait
  }

  /**
   While the scheduler runs, every definition was launched in this epoch. Live loops are of this
   epoch, and there are none unless the scheduler runs or a stop waits for them.
   */
  ghost predicate Running(s: State) {
    && (s.started ==> forall job <- All(s) :: Loop(job.control, s.epoch) in s.launches)
    && (forall l <- s.loops :: (s.started || Waiting(s)) && l.epoch == s.epoch && l in s.launches)
  }

  /** Between lifecycle calls the status flag is the started flag, and every stop channel but the current one was closed once. */
  ghost predicate Channels(s: State) {
    && (if s.pending.None? then s.status == s.started else !s.started)
    && |s.closes| == s.epoch && (s.started ==> s.epoch > 0)
    && (forall e | 0 <= e < |s.closes| :: s.closes[e] == if s.started && e == s.epoch - 1 then 0 else 1)
  }

  ghost predicate Inv(s: State) {
    Registry(s) && MappedWhileRunning(s.controls, s.heap) && LaunchedOnce(s) && Running(s) && Channels(s)
  }

  lemma StepKeepsChannels(s: State, step: Step)
    requires Channels(s)
    ensures Channels(Next(s, step))
  {
    if OfLoop(step) {
      LoopStepFrame(s, step);
    }
  }

  lemma RegisterKeepsLaunches(s: State, id: string, cron: bool)
    requires LaunchedOnce(s) && Running(s) && Channels(s)
    ensures LaunchedOnce(Register(s, id, cron)) && Running(Register(s, id, cron))
  {
    var n := Register(s, id, cron);
    assert forall job <- All(n) :: job == Job(id, |s.heap|) || job in All(s);
  }

  lemma StopByIdKeepsLaunches(s: State, id: string)
    requires LaunchedOnce(s) && Running(s)
    ensures LaunchedOnce(StopById(s, id)) && Running(StopById(s, id))
  {
    WithoutAppend(s.intervalJobs, s.cronJobs, id);
    forall job <- Without(All(s), id)
      ensures job in All(s)
    {
      WithoutKeeps(All(s), id, job);
    }
  }

  /** The controls of the definitions are different and exist. */
  lemma ControlsOfJobs(s: State)
    requires Registry(s) && MappedWhileRunning(s.controls, s.heap)
    ensures forall job <- All(s) :: job.control < |s.heap|
    ensures forall i, j | 0 <= i < j < |All(s)| :: All(s)[i].control != All(s)[j].control
  {
    forall i, j | 0 <= i < j < |All(s)|
      ensures All(s)[i].control != All(s)[j].control
    {
      var a, b := All(s)[i], All(s)[j];
      assert a in All(s) && b in All(s);
      assert s.heap[a.control].id == a.id && s.heap[b.control].id == b.id;
    }
  }

  /** Launching jobs with different controls in a new epoch repeats no launch. */
  lemma NewEpochDistinct(launches: seq<Loop>, jobs: seq<Job>, epoch: nat)
    requires DistinctLoops(launches) && forall l <- launches :: l.epoch < epoch
    requires forall i, j | 0 <= i < j < |jobs| :: jobs[i].control != jobs[j].control
    ensures DistinctLoops(launches + Launched(jobs, epoch))
  {
    var begun := Launched(jobs, epoch);
    var all := launches + begun;
    forall i, j | 0 <= i < j < |all|
      ensures all[i] != all[j]
    {
      if i < |launches| {
        assert launches[i] in launches;
      } else {
        assert all[i] == begun[i - |launches|] && all[j] == begun[j - |launches|];
      }
    }
  }

  lemma LaunchedContains(jobs: seq<Job>, epoch: nat)
    ensures forall job <- jobs :: Loop(job.control, epoch) in Launched(jobs, epoch)
  {
    forall job <- jobs
      ensures Loop(job.control, epoch) in Launched(jobs, epoch)
    {
      var i :| 0 <= i < |jobs| && jobs[i] == job;
      assert Launched(jobs, epoch)[i] == Loop(job.control, epoch);
    }
  }

  lemma StartKeepsLaunches(s: State, testMode: bool)
    requires Registry(s) && MappedWhileRunning(s.controls, s.heap) && LaunchedOnce(s) && Running(s)
    ensures LaunchedOnce(Start(s, testMode)) && Running(Start(s, testMode))
  {
    ControlsOfJobs(s);
    StartLaunchesOnce(s, testMode);
    StartLaunchesAll(s, testMode);
  }

  lemma StartLaunchesOnce(s: State, testMode: bool)
    requires LaunchedOnce(s)
    requires forall job <- All(s) :: job.control < |s.heap|
    requires forall i, j | 0 <= i < j < |All(s)| :: All(s)[i].control != All(s)[j].control
    ensures LaunchedOnce(Start(s, testMode))
  {
    NewEpochDistinct(s.launches, All(s), s.epoch + 1);
    var begun := Launched(All(s), s.epoch + 1);
    forall l <- begun
      ensures l.control < |s.heap| && l.epoch == s.epoch + 1
    {
      var i :| 0 <= i < |begun| && begun[i] == l;
      assert All(s)[i] in All(s);
    }
  }

  lemma StartLaunchesAll(s: State, testMode: bool)
    requires Running(s)
    ensures Running(Start(s, testMode))
  {
    LaunchedContains(All(s), s.epoch + 1);
    assert All(Start(s, testMode)) == All(s);
  }

  lemma SignalKeepsLaunches(s: State, clear: bool, restart: bool)
    requires LaunchedOnce(s) && Running(s)
    ensures LaunchedOnce(SignalStop(s, clear, restart)) && Running(SignalStop(s, clear, restart))
  {
  }

  /** What follows the wait finds no loop alive, also when there was nothing to wait for. */
  lemma ClearedKeepsLaunches(s: State)
    requires CanFinish(s) && !s.started && LaunchedOnce(s) && Running(s)
    ensures s.loops == map[] && LaunchedOnce(Cleared(s)) && Running(Cleared(s))
  {
  }

  lemma FinishKeepsLaunches(s: State, testMode: bool)
    requires (s.pending.Some? ==> !s.started) && Registry(s) && MappedWhileRunning(s.controls, s.heap) && LaunchedOnce(s) && Running(s)
    ensures LaunchedOnce(Finish(s, testMode)) && Running(Finish(s, testMode))
  {
    if CanFinish(s) {
      ClearedKeepsLaunches(s);
      ClearKeepsControls(s);
      ClearedKeepsRegistry(s);
      StartKeepsLaunches(Cleared(s), testMode);
    }
  }

  lemma StepInv(s: State, step: Step)
    requires Inv(s)
    ensures Inv(Next(s, step))
  {
    StepKeepsRegistry(s, step);
    StepKeepsControls(s, step);
    StepKeepsChannels(s, step);
    StepKeepsLaunches(s, step);
  }

  lemma StepKeepsLaunches(s: State, step: Step)
    requires Inv(s)
    ensures LaunchedOnce(Next(s, step)) && Running(Next(s, step))
  {
    if OfLoop(step) {
      LoopKeepsLaunches(s, step);
    } else {
      match step
      case RegisterInterval(id) => RegisterKeepsLaunches(s, id, false);
      case RegisterCron(id) => RegisterKeepsLaunches(s, id, true);
      case Pause(c) => PauseKeepsLaunches(s, c, true);
      case Resume(c) => PauseKeepsLaunches(s, c, false);
      case StopJob(id) => StopByIdKeepsLaunches(s, id);
      case StartJobs(testMode) => StartKeepsLaunches(s, testMode);
      case BeginStop(clear, restart) => SignalKeepsLaunches(s, clear, restart);
      case FinishStop(testMode) => FinishKeepsLaunches(s, testMode);
    }
  }

  lemma LoopKeepsLaunches(s: State, step: Step)
    requires OfLoop(step) && LaunchedOnce(s) && Running(s)
    ensures LaunchedOnce(LoopNext(s, step)) && Running(LoopNext(s, step))
  {
    LoopStepFrame(s, step);
    assert All(LoopNext(s, step)) == All(s);
  }

  lemma PauseKeepsLaunches(s: State, c: nat, paused: bool)
    requires LaunchedOnce(s) && Running(s)
    ensures LaunchedOnce(SetPaused(s, c, paused)) && Running(SetPaused(s, c, paused))
  {
    assert All(SetPaused(s, c, paused)) == All(s);
  }

  // ---- Every sequence of calls --------------------------------------------------------------

  ghost function After(s: State, steps: seq<Step>): State
    decreases |steps|
  {
    if steps == [] then s else After(Next(s, steps[0]), steps[1..])
  }

  lemma {:induction false} AfterInv(s: State, steps: seq<Step>)
    requires Inv(s)
    ensures Inv(After(s, steps))
    decreases |steps|
  {
    if steps != [] {
      StepInv(s, steps[0]);
      AfterInv(Next(s, steps[0]), steps[1..]);
    }
  }

  /**
   After any calls: the control ids are the disjoint union of the interval and cron ids, every
   definition points to its mapped control, no mapped control is stopped, and a control's
   channel is closed exactly once, if and only if the control is stopped.
   */
  lemma RegistryHolds(steps: seq<Step>)
    ensures var s := After(EMPTY, steps);
            && s.controls.Keys == Ids(s.intervalJobs) + Ids(s.cronJobs)
            && Ids(s.intervalJobs) !! Ids(s.cronJobs)
            && (forall job <- All(s) :: job.id in s.controls && s.controls[job.id] == job.control)
            && MappedWhileRunning(s.controls, s.heap)
  {
    AfterInv(EMPTY, steps);
    SplitIds(After(EMPTY, steps));
  }

  lemma SplitIds(s: State)
    requires Registry(s)
    ensures s.controls.Keys == Ids(s.intervalJobs) + Ids(s.cronJobs)
    ensures Ids(s.intervalJobs) !! Ids(s.cronJobs)
  {
    assert forall job <- All(s) :: job in s.intervalJobs || job in s.cronJobs;
    forall a <- s.intervalJobs, b <- s.cronJobs
      ensures a.id != b.id && a.id in s.controls && b.id in s.controls
    {
      var i :| 0 <= i < |s.intervalJobs| && s.intervalJobs[i] == a;
      var j :| 0 <= j < |s.cronJobs| && s.cronJobs[j] == b;
      assert All(s)[i] == a && All(s)[|s.intervalJobs| + j] == b;
    }
    assert forall job <- s.intervalJobs :: job in All(s);
    assert forall job <- s.cronJobs :: job in All(s);
  }

  /**
   After any calls: in the current epoch every definition was launched, and no loop was launched
   twice in any epoch; no loop of an earlier epoch is alive, and once a stop has returned none is
   at all; between lifecycle calls the status flag tells whether the scheduler runs.
   */
  lemma LifecycleHolds(steps: seq<Step>)
    ensures var s := After(EMPTY, steps);
            && DistinctLoops(s.launches)
            && (s.started ==> forall job <- All(s) :: Loop(job.control, s.epoch) in s.launches)
            && (forall l <- s.loops :: l.epoch == s.epoch)
            && (s.pending.None? ==> s.status == s.started && (!s.started ==> s.loops == map[]))
  {
    AfterInv(EMPTY, steps);
  }

  lemma StoppingStep(s: State, step: Step)
    requires s.pending.Some? && !s.started && !step.FinishStop?
    ensures var n := Next(s, step);
            n.pending == s.pending && !n.started && n.loops.Keys <= s.loops.Keys && n.launches == s.launches
  {
    if OfLoop(step) {
      LoopStepFrame(s, step);
    }
  }

  /** While a stop waits, nothing is launched: it has only the loops it found to wait for. */
  lemma {:induction false} StopWaitsForFewer(s: State, steps: seq<Step>)
    requires s.pending.Some? && !s.started
    requires forall step <- steps :: !step.FinishStop?
    ensures var t := After(s, steps);
            t.pending == s.pending && !t.started && t.loops.Keys <= s.loops.Keys && t.launches == s.launches
    decreases |steps|
  {
    if steps != [] {
      assert steps[0] in steps;
      StoppingStep(s, steps[0]);
      StopWaitsForFewer(Next(s, steps[0]), steps[1..]);
    }
  }

  ghost predicate IsLoopStep(step: Step) {
    step.Execute? || step.Return? || step.LoopEnds?
  }

  lemma {:induction false} AfterAppend(s: State, a: seq<Step>, b: seq<Step>)
    ensures After(s, a + b) == After(After(s, a), b)
    decreases |a|
  {
    if a == [] {
      assert a + b == b;
    } else {
      assert (a + b)[0] == a[0] && (a + b)[1..] == a[1..] + b;
      LastSteps(s, a + b);
      LastSteps(s, a);
      AfterAppend(Next(s, a[0]), a[1..], b);
    }
  }

  /** The steps a told loop has left, once its function returns. */
  ghost function WayOut(loop: Loop, phase: Phase): seq<Step> {
    match phase
    case Selecting => [LoopEnds(loop)]
    case Executing => [Return(loop), LoopEnds(loop)]
    case Admitted => [Execute(loop), Return(loop), LoopEnds(loop)]
  }

  lemma EndsFromSelect(s: State, loop: Loop)
    requires InPhase(s, loop, Selecting) && Told(s, loop)
    ensures After(s, WayOut(loop, Selecting)) == s.(loops := s.loops - {loop})
  {
    LastSteps(s, WayOut(loop, Selecting));
  }

  lemma EndsFromExecution(s: State, loop: Loop)
    requires InPhase(s, loop, Executing) && Told(s, loop)
    ensures After(s, WayOut(loop, Executing)) == s.(loops := s.loops - {loop})
  {
    var n := s.(loops := s.loops[loop := Selecting]);
    LastSteps(s, WayOut(loop, Executing));
    assert WayOut(loop, Executing)[1..] == WayOut(loop, Selecting) && Next(s, Return(loop)) == n;
    EndsFromSelect(n, loop);
    assert n.loops - {loop} == s.loops - {loop};
  }

  /** A told loop reaches its end in at most three steps, with at most one more execution. */
  lemma ToldLoopCanEnd(s: State, loop: Loop)
    requires loop in s.loops && Told(s, loop)
    ensures var t := After(s, WayOut(loop, s.loops[loop]));
            t == s.(loops := s.loops - {loop},
                    executions := if s.loops[loop].Admitted? then s.executions + [loop] else s.executions)
  {
    match s.loops[loop]
    case Selecting => EndsFromSelect(s, loop);
    case Executing => EndsFromExecution(s, loop);
    case Admitted =>
      var n := s.(loops := s.loops[loop := Executing], executions := s.executions + [loop]);
      LastSteps(s, WayOut(loop, Admitted));
      assert WayOut(loop, Admitted)[1..] == WayOut(loop, Executing) && Next(s, Execute(loop)) == n;
      EndsFromExecution(n, loop);
      assert n.loops - {loop} == s.loops - {loop};
  }

  lemma LastSteps(s: State, steps: seq<Step>)
    requires steps != []
    ensures After(s, steps) == After(Next(s, steps[0]), steps[1..])
    ensures |steps| == 1 ==> After(s, steps) == Next(s, steps[0])
  {
  }

  /** Every loop a stop waits for has been told. */
  lemma WaitedForAreTold(s: State)
    requires LaunchedOnce(s) && Running(s) && Channels(s) && s.pending.Some?
    ensures forall loop <- s.loops :: Told(s, loop)
  {
  }

  lemma {:induction false} ToldLoopsCanEnd(s: State) returns (steps: seq<Step>)
    requires s.pending.Some? && forall loop <- s.loops :: Told(s, loop)
    ensures (forall step <- steps :: IsLoopStep(step)) && |steps| <= 3 * |s.loops|
    ensures CanFinish(After(s, steps)) && After(s, steps).launches == s.launches
    decreases |s.loops|
  {
    steps := [];
    if loop :| loop in s.loops {
      var way := WayOut(loop, s.loops[loop]);
      var n := After(s, way);
      ToldLoopCanEnd(s, loop);
      assert |n.loops| == |s.loops| - 1;
      var rest := ToldLoopsCanEnd(n);
      steps := way + rest;
      AfterAppend(s, way, rest);
    }
  }

  /**
   A stop can always return: after any calls, the loops a pending stop waits for have all been
   told, and at most three steps of each, none of which launches anything, let it go on.
   */
  lemma StopReturns(calls: seq<Step>) returns (steps: seq<Step>)
    requires After(EMPTY, calls).pending.Some?
    ensures var s := After(EMPTY, calls);
            && (forall step <- steps :: IsLoopStep(step)) && |steps| <= 3 * |s.loops|
            && CanFinish(After(s, steps)) && After(s, steps).launches == s.launches
  {
    var s := After(EMPTY, calls);
    AfterInv(EMPTY, calls);
    WaitedForAreTold(s);
    steps := ToldLoopsCanEnd(s);
  }

  // ---- Executions ---------------------------------------------------------------------------

  /** How often a loop called its function. */
  ghost function Times(log: seq<Loop>, loop: Loop): nat {
    if log == [] then 0
    else Times(log[..|log| - 1], loop) + (if log[|log| - 1] == loop then 1 else 0)
  }

  lemma TimesAppend(log: seq<Loop>, last: Loop, loop: Loop)
    ensures Times(log + [last], loop) == Times(log, loop) + (if last == loop then 1 else 0)
  {
    assert (log + [last])[..|log|] == log;
  }

  /** The loop sits between canRun and the call. */
  ghost function Due(s: State, loop: Loop): nat {
    if InPhase(s, loop, Admitted) then 1 else 0
  }

  /** While its job may not run, a step of anyone brings a loop no new execution but the one that is due. */
  lemma BlockedStep(s: State, step: Step, loop: Loop)
    requires loop.control < |s.heap| && !CanRun(s.heap[loop.control])
    ensures var n := Next(s, step); Times(n.executions, loop) + Due(n, loop) <= Times(s.executions, loop) + Due(s, loop)
  {
    if OfLoop(step) {
      LoopAdmitsNobody(s, step, loop);
    } else {
      CallAdmitsNobody(s, step, loop);
    }
  }

  lemma LoopAdmitsNobody(s: State, step: Step, loop: Loop)
    requires OfLoop(step) && loop.control < |s.heap| && !CanRun(s.heap[loop.control])
    ensures var n := LoopNext(s, step);
            Times(n.executions, loop) + Due(n, loop) <= Times(s.executions, loop) + Due(s, loop)
  {
    if step.Execute? {
      TimesAppend(s.executions, step.loop, loop);
    }
  }

  /** A call starts no execution, and the loops it starts are at their select. */
  lemma CallAdmitsNobody(s: State, step: Step, loop: Loop)
    requires !OfLoop(step)
    ensures var n := CallNext(s, step); n.executions == s.executions && Due(n, loop) <= Due(s, loop)
  {
    match step
    case RegisterInterval(id) => RegisterAdmitsNobody(s, id, false, loop);
    case RegisterCron(id) => RegisterAdmitsNobody(s, id, true, loop);
    case StartJobs(testMode) => StartAdmitsNobody(s, testMode, loop);
    case FinishStop(testMode) =>
      if CanFinish(s) {
        StartAdmitsNobody(Cleared(s), testMode, loop);
      }
    case Pause(c) => assert SetPaused(s, c, true).loops == s.loops;
    case Resume(c) => assert SetPaused(s, c, false).loops == s.loops;
    case StopJob(id) => assert StopById(s, id).loops == s.loops;
    case BeginStop(clear, restart) => assert SignalStop(s, clear, restart).loops == s.loops;
  }

  lemma RegisterAdmitsNobody(s: State, id: string, cron: bool, loop: Loop)
    ensures var n := Register(s, id, cron); n.executions == s.executions && Due(n, loop) <= Due(s, loop)
  {
  }

  lemma StartAdmitsNobody(s: State, testMode: bool, loop: Loop)
    ensures var n := Start(s, testMode); n.executions == s.executions && Due(n, loop) <= Due(s, loop)
  {
  }

  /** All that can happen to a control: it is paused, resumed through its mapping, or stopped. */
  lemma ControlAfter(s: State, step: Step, c: nat)
    requires c < |s.heap|
    ensures var n := Next(s, step);
            && c < |n.heap|
            && (|| n.heap[c] == s.heap[c]
                || n.heap[c] == Stopped(s.heap[c])
                || (!s.heap[c].stopped && step.Pause? && n.heap[c] == s.heap[c].(paused := true))
                || (!s.heap[c].stopped && step == Resume(c)))
            && n.heap[c].id == s.heap[c].id
  {
    if OfLoop(step) {
      LoopStepFrame(s, step);
    } else if step.FinishStop? && CanFinish(s) {
      var n := Cleared(s);
      assert Start(n, step.testMode).heap == n.heap;
    }
  }

  lemma StaysBlocked(s: State, step: Step, c: nat)
    requires c < |s.heap| && !CanRun(s.heap[c])
    requires s.heap[c].stopped || step != Resume(c)
    ensures var n := Next(s, step);
            c < |n.heap| && !CanRun(n.heap[c]) && n.heap[c].id == s.heap[c].id && (s.heap[c].stopped ==> n.heap[c].stopped)
  {
    ControlAfter(s, step, c);
  }

  /** Once its job may not run, and until it is resumed, a loop makes at most the execution that is due. */
  lemma {:induction false} OnlyTheDueExecution(s: State, steps: seq<Step>, loop: Loop)
    requires loop.control < |s.heap| && !CanRun(s.heap[loop.control])
    requires s.heap[loop.control].stopped || Resume(loop.control) !in steps
    ensures Times(After(s, steps).executions, loop) <= Times(s.executions, loop) + Due(s, loop)
    decreases |steps|
  {
    if steps != [] {
      assert steps[0] in steps;
      BlockedStep(s, steps[0], loop);
      StaysBlocked(s, steps[0], loop.control);
      OnlyTheDueExecution(Next(s, steps[0]), steps[1..], loop);
    }
  }

  /**
   After StopJob returned, each loop of the job starts at most one more execution, and none unless
   it sat between canRun and the call; whatever is called afterwards.
   */
  lemma StoppedJobRunsOut(s: State, id: string, steps: seq<Step>, loop: Loop)
    requires Inv(s) && id != "" && id in s.controls && loop.control == s.controls[id]
    ensures Times(After(Next(s, StopJob(id)), steps).executions, loop) <= Times(s.executions, loop) + Due(s, loop)
  {
    OnlyTheDueExecution(Next(s, StopJob(id)), steps, loop);
  }

  /** The same after PauseJob, until the job is resumed. */
  lemma PausedJobRunsOut(s: State, steps: seq<Step>, loop: Loop)
    requires loop.control < |s.heap| && Resume(loop.control) !in steps
    ensures Times(After(Next(s, Pause(loop.control)), steps).executions, loop) <= Times(s.executions, loop) + Due(s, loop)
  {
    OnlyTheDueExecution(Next(s, Pause(loop.control)), steps, loop);
  }

  /** A job stopped after pauseJob or resumeJob looked it up is found stopped: that error is no dead code. */
  lemma StoppedAfterLookup(s: State, id: string)
    requires MappedWhileRunning(s.controls, s.heap) && id != "" && id in s.controls
    ensures var n := Next(s, StopJob(id)); s.controls[id] < |n.heap| && n.heap[s.controls[id]].stopped
  {
  }

  ghost predicate Quiet(s: State) {
    s.loops == map[] && !s.started && (s.pending.Some? ==> !s.pending.value.restart)
  }

  ghost predicate Starts(step: Step) {
    step.StartJobs? || (step.BeginStop? && step.restart)
  }

  /** Once a stop has returned, no job function is called before the next start. */
  lemma {:induction false} NothingRunsWhileStopped(s: State, steps: seq<Step>)
    requires Quiet(s) && forall step <- steps :: !Starts(step)
    ensures Quiet(After(s, steps)) && After(s, steps).executions == s.executions
    decreases |steps|
  {
    if steps != [] {
      assert steps[0] in steps;
      NothingRunsWhileStopped(Next(s, steps[0]), steps[1..]);
    }
  }

  /** A loop at its select that tests and goes on calls the function exactly when its job is neither stopped nor paused. */
  lemma RunsExactlyWhenAllowed(s: State, loop: Loop)
    requires InPhase(s, loop, Selecting) && loop.control < |s.heap|
    ensures var control := s.heap[loop.control]; var t := After(s, [TestRun(loop), Execute(loop)]);
            && Times(t.executions, loop) == Times(s.executions, loop) + (if !control.stopped && !control.paused then 1 else 0)
            && (InPhase(t, loop, Executing) <==> !control.stopped && !control.paused)
  {
    TwoSteps(s, TestRun(loop), Execute(loop));
    TestDecides(s, loop);
    TimesAppend(s.executions, loop, loop);
  }

  lemma TwoSteps(s: State, a: Step, b: Step)
    ensures After(s, [a, b]) == Next(Next(s, a), b)
  {
    assert [a, b][1..] == [b];
    LastSteps(s, [a, b]);
    LastSteps(Next(s, a), [b]);
  }

  lemma TestDecides(s: State, loop: Loop)
    requires InPhase(s, loop, Selecting) && loop.control < |s.heap|
    ensures var control := s.heap[loop.control]; var n := Next(Next(s, TestRun(loop)), Execute(loop));
            if !control.stopped && !control.paused then n.executions == s.executions + [loop] && InPhase(n, loop, Executing)
            else n == s
  {
  }

  // ---- What the calls do --------------------------------------------------------------------

  /** Everything but the loops and the logs is the same. */
  ghost predicate SameRegistry(s: State, n: State) {
    n.intervalJobs == s.intervalJobs && n.cronJobs == s.cronJobs && n.controls == s.controls && n.heap == s.heap
  }

  /**
   A registration under a new id adds one definition at the end of its list, with a control of its
   own that is neither stopped nor paused, and starts its loop exactly if the scheduler runs; a
   known or empty id changes nothing.
   */
  lemma RegisterAdds(s: State, id: string, cron: bool)
    requires Inv(s)
    ensures var n := Next(s, if cron then RegisterCron(id) else RegisterInterval(id));
            if id == "" || id in s.controls then n == s
            else
              && n.controls == s.controls[id := |s.heap|] && n.heap == s.heap + [Control(id, false, false, 0)]
              && n.intervalJobs == (if cron then s.intervalJobs else s.intervalJobs + [Job(id, |s.heap|)])
              && n.cronJobs == (if cron then s.cronJobs + [Job(id, |s.heap|)] else s.cronJobs)
              && (s.started <==> Loop(|s.heap|, s.epoch) in n.loops)
              && n.loops.Keys - {Loop(|s.heap|, s.epoch)} == s.loops.Keys
  {
    forall loop <- s.loops
      ensures loop != Loop(|s.heap|, s.epoch)
    {
      LoopHasControl(s, loop);
    }
  }

  /** StopJob removes the definition with the id and stops its control; all other jobs are as they were. */
  lemma StopsOnlyThatJob(s: State, id: string)
    requires Inv(s) && id != "" && id in s.controls
    ensures var n := Next(s, StopJob(id)); var c := s.controls[id];
            && n.controls == s.controls - {id}
            && |n.heap| == |s.heap| && n.heap[c] == s.heap[c].(stopped := true, closes := 1)
            && (forall d | 0 <= d < |s.heap| && d != c :: n.heap[d] == s.heap[d])
            && (forall job: Job :: job in n.intervalJobs <==> job in s.intervalJobs && job.id != id)
            && (forall job: Job :: job in n.cronJobs <==> job in s.cronJobs && job.id != id)
            && n.loops == s.loops && n.started == s.started
  {
    var n := StopById(s, id);
    assert Next(s, StopJob(id)) == n;
    assert n.intervalJobs == Without(s.intervalJobs, id) && n.cronJobs == Without(s.cronJobs, id);
    forall job: Job
      ensures job in Without(s.intervalJobs, id) <==> job in s.intervalJobs && job.id != id
      ensures job in Without(s.cronJobs, id) <==> job in s.cronJobs && job.id != id
    {
      WithoutKeeps(s.intervalJobs, id, job);
      WithoutKeeps(s.cronJobs, id, job);
    }
  }

  /** The loop of a stopped job sees its closed channel when it is next at its select. */
  lemma StoppedLoopEnds(s: State, id: string, loop: Loop)
    requires Inv(s) && id != "" && id in s.controls && loop.control == s.controls[id] && InPhase(s, loop, Selecting)
    ensures loop !in Next(Next(s, StopJob(id)), LoopEnds(loop)).loops
  {
    StopsOnlyThatJob(s, id);
  }

  /** Pausing and resuming set the flag of that control, unless it is stopped, and nothing else. */
  lemma PausesOnlyThatJob(s: State, c: nat, paused: bool)
    requires c < |s.heap|
    ensures var n := Next(s, if paused then Pause(c) else Resume(c));
            && n == s.(heap := n.heap) && |n.heap| == |s.heap|
            && n.heap[c] == (if s.heap[c].stopped then s.heap[c] else s.heap[c].(paused := paused))
            && forall d | 0 <= d < |s.heap| && d != c :: n.heap[d] == s.heap[d]
  {
  }

  lemma LaunchedAtSelect(s: State, testMode: bool, job: Job)
    requires !testMode && !s.started && s.pending.None? && job in All(s)
    ensures InPhase(Start(s, testMode), Loop(job.control, s.epoch + 1), Selecting)
  {
    LaunchedContains(All(s), s.epoch + 1);
    assert Launched(All(s), s.epoch + 1) == Launched(s.intervalJobs + s.cronJobs, s.epoch + 1);
  }

  /** StartJobs, unless in test mode or running, starts the loop of every definition, in a new epoch. */
  lemma StartLaunchesEveryJob(s: State, testMode: bool)
    requires s.pending.None?
    ensures var n := Next(s, StartJobs(testMode));
            if testMode || s.started then n == s
            else
              && n.started && n.status && n.epoch == s.epoch + 1 && SameRegistry(s, n)
              && forall job <- All(s) :: InPhase(n, Loop(job.control, n.epoch), Selecting)
  {
    if !testMode && !s.started {
      forall job <- All(s)
        ensures InPhase(Start(s, testMode), Loop(job.control, s.epoch + 1), Selecting)
      {
        LaunchedAtSelect(s, testMode, job);
      }
    }
  }

  /** A stop ends the epoch, tells every loop, and leaves definitions and loops alone. */
  lemma StopTellsEveryLoop(s: State, clear: bool, restart: bool)
    requires Inv(s) && s.pending.None?
    ensures var n := Next(s, BeginStop(clear, restart));
            && !n.started && n.pending == Some(Pending(s.started, clear, restart))
            && SameRegistry(s, n) && n.loops == s.loops
            && forall loop <- n.loops :: Told(n, loop)
  {
    SignalInv(s, clear, restart);
    WaitedForAreTold(SignalStop(s, clear, restart));
  }

  /** Once the wait is over, StopAllJobs keeps the definitions unless it clears them, and then every mapped control is stopped. */
  lemma StopKeepsDefinitionsUnlessClearing(s: State, testMode: bool)
    requires Inv(s) && CanFinish(s) && !s.pending.value.restart
    ensures var n := Next(s, FinishStop(testMode));
            && !n.started && !n.status && n.pending.None? && n.loops == map[] && n.epoch == s.epoch
            && (!s.pending.value.clear ==> SameRegistry(s, n))
            && (s.pending.value.clear ==>
                  && n.intervalJobs == [] && n.cronJobs == [] && n.controls == map[] && |n.heap| == |s.heap|
                  && forall c | 0 <= c < |s.heap| :: n.heap[c].stopped)
  {
    ClearedKeepsLaunches(s);
    if s.pending.value.clear {
      forall c | 0 <= c < |s.heap| && !s.heap[c].stopped
        ensures c in s.controls.Values
      {
        assert s.controls[s.heap[c].id] == c;
      }
    }
  }

  /** RestartJobs starts every definition again that was there when the wait ended. */
  lemma RestartLaunchesEveryJob(s: State)
    requires Inv(s) && CanFinish(s) && s.pending.value.restart && !s.pending.value.clear
    ensures var n := Next(s, FinishStop(false));
            && n.started && n.status && n.epoch == s.epoch + 1 && SameRegistry(s, n)
            && forall job <- All(s) :: InPhase(n, Loop(job.control, n.epoch), Selecting)
  {
    PendingIsStopped(s);
    var n := Cleared(s);
    assert All(n) == All(s);
    StartLaunchesEveryJob(n, false);
  }

  /** From the registration to the first execution: a job registered with a stopped scheduler runs after StartJobs. */
  lemma RegisteredJobRuns(s: State, id: string)
    requires Inv(s) && !s.started && s.pending.None? && id != "" && id !in s.controls
    ensures var loop := Loop(|s.heap|, s.epoch + 1);
            var t := After(Next(Next(s, RegisterInterval(id)), StartJobs(false)), [TestRun(loop), Execute(loop)]);
            InPhase(t, loop, Executing) && Times(t.executions, loop) == Times(s.executions, loop) + 1
  {
    var loop := Loop(|s.heap|, s.epoch + 1);
    var t := Start(Register(s, id, false), false);
    assert Next(Next(s, RegisterInterval(id)), StartJobs(false)) == t;
    RegisteredIsLaunched(s, id);
    RunsExactlyWhenAllowed(t, loop);
  }

  lemma RegisteredIsLaunched(s: State, id: string)
    requires !s.started && s.pending.None? && id != "" && id !in s.controls
    ensures var t := Start(Register(s, id, false), false);
            && InPhase(t, Loop(|s.heap|, s.epoch + 1), Selecting)
            && t.heap == s.heap + [Control(id, false, false, 0)] && t.executions == s.executions
  {
    var n := Register(s, id, false);
    assert n.intervalJobs[|s.intervalJobs|] == Job(id, |s.heap|);
    assert Job(id, |s.heap|) in All(n);
    LaunchedAtSelect(n, false, Job(id, |s.heap|));
  }

  // ---- What is launched ---------------------------------------------------------------------

  /** The control of a definition is not stopped. */
  lemma JobsAreNotStopped(s: State, c: nat)
    requires Registry(s) && MappedWhileRunning(s.controls, s.heap)
    requires c < |s.heap| && s.heap[c].stopped
    ensures forall i | 0 <= i < |All(s)| :: All(s)[i].control != c
  {
    forall i | 0 <= i < |All(s)|
      ensures All(s)[i].control != c
    {
      assert All(s)[i] in All(s);
    }
  }

  /** Launches only grow, and none of the new ones is of control c. */
  ghost predicate Skips(s: State, n: State, c: nat) {
    && s.launches <= n.launches
    && forall i | |s.launches| <= i < |n.launches| :: n.launches[i].control != c
  }

  lemma StartSkipsStopped(s: State, testMode: bool, c: nat)
    requires forall i | 0 <= i < |All(s)| :: All(s)[i].control != c
    ensures Skips(s, Start(s, testMode), c)
  {
    var n := Start(s, testMode);
    forall i | |s.launches| <= i < |n.launches|
      ensures n.launches[i].control != c
    {
      assert All(s)[i - |s.launches|].control != c;
    }
  }

  /** A stopped control stays stopped. */
  lemma StaysStopped(s: State, step: Step, c: nat)
    requires c < |s.heap| && s.heap[c].stopped
    ensures c < |Next(s, step).heap| && Next(s, step).heap[c].stopped
  {
    ControlAfter(s, step, c);
  }

  /** Nothing launches a stopped job. */
  lemma StepSkipsStopped(s: State, step: Step, c: nat)
    requires Inv(s) && c < |s.heap| && s.heap[c].stopped
    ensures Skips(s, Next(s, step), c)
  {
    if OfLoop(step) {
      LoopStepFrame(s, step);
    } else {
      JobsAreNotStopped(s, c);
      match step
      case StartJobs(testMode) => StartSkipsStopped(s, testMode, c);
      case FinishStop(testMode) => FinishSkipsStopped(s, testMode, c);
      case RegisterInterval(id) => RegisterSkipsStopped(s, id, false, c);
      case RegisterCron(id) => RegisterSkipsStopped(s, id, true, c);
      case Pause(control) => assert SetPaused(s, control, true).launches == s.launches;
      case Resume(control) => assert SetPaused(s, control, false).launches == s.launches;
      case StopJob(id) => assert StopById(s, id).launches == s.launches;
      case BeginStop(clear, restart) => assert SignalStop(s, clear, restart).launches == s.launches;
    }
  }

  lemma RegisterSkipsStopped(s: State, id: string, cron: bool, c: nat)
    requires c < |s.heap|
    ensures Skips(s, Register(s, id, cron), c)
  {
  }

  lemma FinishSkipsStopped(s: State, testMode: bool, c: nat)
    requires forall i | 0 <= i < |All(s)| :: All(s)[i].control != c
    ensures Skips(s, Finish(s, testMode), c)
  {
    if CanFinish(s) {
      var n := Cleared(s);
      assert All(n) == All(s) || All(n) == [];
      StartSkipsStopped(n, testMode, c);
    }
  }

  /** A job stopped by id is never launched again, whatever is called afterwards. */
  lemma {:induction false} StoppedNeverLaunched(s: State, steps: seq<Step>, c: nat)
    requires Inv(s) && c < |s.heap| && s.heap[c].stopped
    ensures Skips(s, After(s, steps), c)
    decreases |steps|
  {
    if steps != [] {
      StepSkipsStopped(s, steps[0], c);
      StaysStopped(s, steps[0], c);
      StepInv(s, steps[0]);
      StoppedNeverLaunched(Next(s, steps[0]), steps[1..], c);
    }
  }

  lemma RegisterInv(s: State, id: string, cron: bool)
    requires Inv(s)
    ensures Inv(Register(s, id, cron))
  {
    StepInv(s, if cron then RegisterCron(id) else RegisterInterval(id));
  }

  lemma PauseInv(s: State, c: nat, paused: bool)
    requires Inv(s)
    ensures Inv(SetPaused(s, c, paused))
  {
    StepInv(s, if paused then Pause(c) else Resume(c));
  }

  lemma StopInv(s: State, id: string)
    requires Inv(s)
    ensures Inv(StopById(s, id))
  {
    assert CallNext(s, StopJob(id)) == StopById(s, id);
    StepInv(s, StopJob(id));
  }

  lemma StartInv(s: State, testMode: bool)
    requires Inv(s)
    ensures Inv(Start(s, testMode))
  {
    assert CallNext(s, StartJobs(testMode)) == Start(s, testMode);
    StepInv(s, StartJobs(testMode));
  }

  lemma SignalInv(s: State, clear: bool, restart: bool)
    requires Inv(s)
    ensures Inv(SignalStop(s, clear, restart))
  {
    StepInv(s, BeginStop(clear, restart));
  }

  lemma FinishInv(s: State, testMode: bool)
    requires Inv(s)
    ensures Inv(Finish(s, testMode))
  {
    assert CallNext(s, FinishStop(testMode)) == Finish(s, testMode);
    StepInv(s, FinishStop(testMode));
  }

  lemma PendingIsStopped(s: State)
    requires Channels(s) && CanFinish(s)
    ensures !s.started
  {
  }

  lemma LoopHasControl(s: State, loop: Loop)
    requires LaunchedOnce(s) && Running(s) && loop in s.loops
    ensures loop.control < |s.heap|
  {
  }

  // ---- The object ---------------------------------------------------------------------------

  /** removeIntervalJob and removeCronJob: the kept items move to the front of the same array. */
  method RemoveInPlace(items: array<Job>, id: string) returns (kept: nat)
    modifies items
    ensures kept <= items.Length && items[..kept] == Without(old(items[..]), id)
  {
    kept := 0;
    ghost var was := items[..];
    assert was[0..] == was && items[..0] == [];
    for i := 0 to items.Length
      invariant kept <= i
      invariant forall j | i <= j < items.Length :: items[j] == was[j]
      invariant items[..kept] + Without(was[i..], id) == Without(was, id)
    {
      var item := items[i];
      ghost var front := items[..kept];
      WithoutNext(front, was, i, id);
      if item.id != id {
        items[kept] := item;
        kept := kept + 1;
        assert items[..kept] == front + [item];
      }
    }
  }

  lemma WithoutNext(front: seq<Job>, was: seq<Job>, i: nat, id: string)
    requires i < |was|
    ensures front + Without(was[i..], id)
         == (if was[i].id != id then front + [was[i]] else front) + Without(was[i + 1..], id)
  {
    assert was[i..][0] == was[i] && was[i..][1..] == was[i + 1..];
  }

  /** What a registration asks for; a cron trigger is looked at in the zone of now. */
  datatype Request =
    | Interval(hasFn: bool, interval: int)
    | Cron(hasFn: bool, trigger: NextRun.Trigger, offset: int, now: int, year: int)

  ghost predicate ProperRequest(request: Request) {
    request.Cron? ==> NextRun.InYear(request.now, request.year, request.offset)
  }

  /** Why validateIntervalJob or validateCronJob refuses a request. */
  ghost function Refusal(request: Request): Option<Error> {
    if !request.hasFn then Some(NilJobFunc)
    else
      match request
      case Interval(_, interval) => if interval <= 0 then Some(InvalidInterval) else None
      case Cron(_, trigger, offset, now, _) =>
        if !NextRun.ValidTrigger(trigger) then Some(InvalidCronTrigger)
        else if exists t: int :: NextRun.Matches(trigger, offset, t) && t > now then None
        else Some(CronTriggerExpired)
  }

  method ValidateRequest(request: Request) returns (err: Option<Error>)
    requires ProperRequest(request)
    ensures err == Refusal(request)
  {
    if !request.hasFn {
      return Some(NilJobFunc);
    }
    match request
    case Interval(_, interval) => err := if interval <= 0 then Some(InvalidInterval) else None;
    case Cron(_, trigger, offset, now, year) =>
      if !NextRun.ValidTrigger(trigger) {
        return Some(InvalidCronTrigger);
      }
      var next := NextRun.NextRun(trigger, offset, now, year);
      err := if next.None? then Some(CronTriggerExpired) else None;
  }

  class Jobs {
    var started: bool
    var intervalJobs: seq<Job>
    var cronJobs: seq<Job>
    var controls: map<string, nat>
    var heap: seq<Control>
    var status: bool
    var epoch: nat
    var closes: seq<nat>
    var loops: map<Loop, Phase>
    ghost var launches: seq<Loop>
    ghost var executions: seq<Loop>
    var pending: Option<Pending>
    /** jobIDCounter. */
    var counter: nat

    ghost predicate Valid()
      reads this
    {
      Inv(View())
    }

    ghost function View(): State
      reads this
    {
      State(started, intervalJobs, cronJobs, controls, heap, status, epoch, closes, loops, launches, executions, pending)
    }

    constructor ()
      ensures Valid() && View() == EMPTY && counter == 0
    {
      counter := 0;
      started, intervalJobs, cronJobs, controls, heap := false, [], [], map[], [];
      status, epoch, closes, loops, launches, executions, pending := false, 0, [], map[], [], [], None;
    }

    /** jobWithID and cronJobWithID. */
    method JobWithId(id: string, request: Request) returns (err: Option<Error>)
      requires Valid() && ProperRequest(request)
      modifies this
      ensures Valid() && counter == old(counter)
      ensures err == if id == "" then Some(EmptyJobID)
                     else if Refusal(request).Some? then Refusal(request)
                     else if id in old(controls) then Some(DuplicateJobID) else None
      ensures View() == if err.None? then Register(old(View()), id, request.Cron?) else old(View())
    {
      if id == "" {
        return Some(EmptyJobID);
      }
      err := ValidateRequest(request);
      if err.None? {
        err := AddJob(id, request.Cron?);
      }
    }

    /** job and cronJob: the id is the next of the counter, which a caller may have used before. */
    method JobWithNewId(request: Request) returns (r: Result<string, Error>)
      requires Valid() && ProperRequest(request)
      modifies this
      ensures Valid()
      ensures counter == if Refusal(request).Some? then old(counter) else old(counter) + 1
      ensures var id := "job-" + Decimal(old(counter) + 1);
              && r == (if Refusal(request).Some? then Err(Refusal(request).value)
                       else if id in old(controls) then Err(DuplicateJobID) else Ok(id))
              && View() == if r.Ok? then Register(old(View()), id, request.Cron?) else old(View())
    {
      var refused := ValidateRequest(request);
      if refused.Some? {
        return Err(refused.value);
      }
      counter := counter + 1;
      var id := "job-" + Decimal(counter);
      var err := AddJob(id, request.Cron?);
      r := if err.Some? then Err(err.value) else Ok(id);
    }

    /** registerIntervalJob and registerCronJob. */
    method AddJob(id: string, cron: bool) returns (err: Option<Error>)
      requires Valid() && id != ""
      modifies this`intervalJobs, this`cronJobs, this`controls, this`heap, this`loops, this`launches
      ensures Valid() && View() == Register(old(View()), id, cron)
      ensures err == if id in old(controls) then Some(DuplicateJobID) else None
    {
      RegisterInv(View(), id, cron);
      err := RegisterJob(id, cron);
    }

    /** The beginning of pauseJob and resumeJob: the control is looked up under the mutex. */
    method LookUp(id: string) returns (r: Result<nat, Error>)
      requires Valid()
      ensures r == if id == "" then Err(EmptyJobID) else if id in controls then Ok(controls[id]) else Err(JobNotFound)
      ensures r.Ok? ==> r.value < |heap| && heap[r.value].id == id && !heap[r.value].stopped
    {
      if id == "" {
        return Err(EmptyJobID);
      }
      if id !in controls {
        return Err(JobNotFound);
      }
      r := Ok(controls[id]);
    }

    /** The rest of them, when anything may have happened since. */
    method SetFlag(c: nat, paused: bool) returns (err: Option<Error>)
      requires Valid() && c < |heap|
      modifies this`heap
      ensures Valid() && View() == SetPaused(old(View()), c, paused)
      ensures err == if old(heap)[c].stopped then Some(JobStopped) else None
      ensures err.None? ==> heap[c].paused == paused
    {
      PauseInv(View(), c, paused);
      if heap[c].stopped {
        return Some(JobStopped);
      }
      heap := heap[c := heap[c].(paused := paused)];
      err := None;
    }

    method StopJob(id: string) returns (err: Option<Error>)
      requires Valid()
      modifies this
      ensures Valid() && View() == StopById(old(View()), id)
      ensures err == if id == "" then Some(EmptyJobID) else if id in old(controls) then None else Some(JobNotFound)
    {
      StopInv(View(), id);
      err := StopJobById(id);
    }

    /** StartJobs, with the lifecycle mutex free. */
    method StartJobs(testMode: bool)
      requires Valid() && pending.None?
      modifies this
      ensures Valid() && View() == Start(old(View()), testMode)
    {
      StartInv(View(), testMode);
      StartAll(testMode);
    }

    /** StopAllJobs or RestartJobs up to the wait. */
    method BeginStop(clear: bool, restart: bool)
      requires Valid() && pending.None?
      modifies this
      ensures Valid() && View() == SignalStop(old(View()), clear, restart)
    {
      SignalInv(View(), clear, restart);
      CloseStopChannel(clear, restart);
    }

    /** The rest of the call once the wait is over. */
    method FinishStop(testMode: bool)
      requires Valid() && CanFinish(View())
      modifies this
      ensures Valid() && View() == Finish(old(View()), testMode)
    {
      FinishInv(View(), testMode);
      PendingIsStopped(View());
      AfterWait(testMode);
    }

    /** canRun in a job loop. */
    method TestRun(loop: Loop) returns (can: bool)
      requires Valid() && InPhase(View(), loop, Selecting)
      modifies this`loops
      ensures Valid() && View() == Next(old(View()), Step.TestRun(loop))
      ensures loop.control < |heap| && (can <==> !heap[loop.control].stopped && !heap[loop.control].paused)
      ensures can <==> InPhase(View(), loop, Admitted)
    {
      StepInv(View(), Step.TestRun(loop));
      LoopHasControl(View(), loop);
      can := CanRun(heap[loop.control]);
      if can {
        loops := loops[loop := Admitted];
      }
    }

    /** A valid function, interval or trigger is added. */
    method RegisterJob(id: string, cron: bool) returns (err: Option<Error>)
      modifies this`intervalJobs, this`cronJobs, this`controls, this`heap, this`loops, this`launches
      ensures View() == Register(old(View()), id, cron)
      ensures err == if id == "" then Some(EmptyJobID) else if id in old(controls) then Some(DuplicateJobID) else None
    {
      if id == "" {
        return Some(EmptyJobID);
      }
      if id in controls {
        return Some(DuplicateJobID);
      }
      var c := |heap|;
      heap := heap + [Control(id, false, false, 0)];
      controls := controls[id := c];
      if cron {
        cronJobs := cronJobs + [Job(id, c)];
      } else {
        intervalJobs := intervalJobs + [Job(id, c)];
      }
      if started {
        loops := loops[Loop(c, epoch) := Selecting];
        launches := launches + [Loop(c, epoch)];
      }
      err := None;
    }

    method StopJobById(id: string) returns (err: Option<Error>)
      requires MappedWhileRunning(controls, heap)
      modifies this
      ensures View() == StopById(old(View()), id)
      ensures err == if id == "" then Some(EmptyJobID) else if id in old(controls) then None else Some(JobNotFound)
    {
      if id == "" {
        return Some(EmptyJobID);
      }
      if id !in controls {
        return Some(JobNotFound);
      }
      var c := controls[id];
      controls := controls - {id};
      intervalJobs := Removed(intervalJobs, id);
      cronJobs := Removed(cronJobs, id);
      heap := heap[c := Stopped(heap[c])];
      err := None;
    }

    method Removed(jobs: seq<Job>, id: string) returns (kept: seq<Job>)
      ensures kept == Without(jobs, id)
    {
      var items := new Job[|jobs|](i requires 0 <= i < |jobs| => jobs[i]);
      assert items[..] == jobs;
      var n := RemoveInPlace(items, id);
      kept := items[..n];
    }

    /** startJobs; the lifecycle mutex is free. */
    method StartAll(testMode: bool)
      requires pending.None?
      modifies this
      ensures View() == Start(old(View()), testMode)
    {
      if testMode || started {
        return;
      }
      started := true;
      epoch := epoch + 1;
      closes := closes + [0];
      Launch(intervalJobs + cronJobs);
      status := true;
    }

    /** The two loops of startJobs over the copied definitions. */
    method Launch(jobs: seq<Job>)
      modifies this`loops, this`launches
      ensures launches == old(launches) + Launched(jobs, epoch)
      ensures loops == old(loops) + AtSelect(Launched(jobs, epoch))
    {
      ghost var begun: seq<Loop> := [];
      for i := 0 to |jobs|
        invariant begun == Launched(jobs[..i], epoch)
        invariant launches == old(launches) + begun && loops == old(loops) + AtSelect(begun)
      {
        var loop := Loop(jobs[i].control, epoch);
        LaunchedNext(jobs, i, epoch);
        AtSelectNext(old(loops), begun, loop);
        assert old(launches) + (begun + [loop]) == launches + [loop];
        begun := begun + [loop];
        loops := loops[loop := Selecting];
        launches := launches + [loop];
      }
      assert jobs[..|jobs|] == jobs;
    }

    /** stop up to its wait. */
    method CloseStopChannel(clear: bool, restart: bool)
      requires pending.None?
      modifies this`started, this`closes, this`pending
      ensures View() == SignalStop(old(View()), clear, restart)
    {
      pending := Some(Pending(started, clear, restart));
      if started {
        started := false;
        if closes != [] {
          closes := closes[|closes| - 1 := closes[|closes| - 1] + 1];
        }
      }
    }

    /** The rest of stopAllJobs once the wait is over; RestartJobs goes on to start again. */
    method AfterWait(testMode: bool)
      requires CanFinish(View()) && !started
      requires MappedWhileRunning(controls, heap)
      modifies this
      ensures View() == Finish(old(View()), testMode)
    {
      var restart := pending.value.restart;
      if pending.value.clear {
        ClearAll();
      }
      status := false;
      pending := None;
      if restart {
        StartAll(testMode);
      }
    }

    method ClearAll()
      requires MappedWhileRunning(controls, heap)
      modifies this`heap, this`intervalJobs, this`cronJobs, this`controls
      ensures View() == Clear(old(View()))
    {
      heap := StopControls(heap, controls);
      intervalJobs, cronJobs, controls := [], [], map[];
      assert heap == Clear(old(View())).heap;
    }

    /** The loop of stopAndClear over the registered controls. */
    method StopControls(heap: seq<Control>, controls: map<string, nat>) returns (stopped: seq<Control>)
      requires forall id <- controls :: controls[id] < |heap|
      ensures |stopped| == |heap| && forall c | 0 <= c < |heap| ::
                  stopped[c] == if c in controls.Values then Stopped(heap[c]) else heap[c]
    {
      stopped := heap;
      var left := controls.Values;
      while left != {}
        invariant left <= controls.Values && |stopped| == |heap|
        invariant forall c | 0 <= c < |heap| ::
            stopped[c] == if c in controls.Values - left then Stopped(heap[c]) else heap[c]
        decreases |left|
      {
        var c :| c in left;
        stopped := stopped[c := Stopped(stopped[c])];
        left := left - {c};
      }
    }
  }
}

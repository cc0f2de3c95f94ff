/** The worker threads of the async runtime, and the event loop that feeds them.

    A state is everything the two sides share plus the program counter of each
    side.  `Step` is one atomic action: one shared access of a worker thread, one
    statement of a C function called by the event loop, or one turn of the event
    loop's own code.  A run is any sequence of actions, so every interleaving is
    covered.  Nothing here depends on which wake-up method is compiled in except
    the clauses that name it. */
module ThreadPool {
  import opened Wrappers

  const JOB_LIMIT := 0x8000_0000

  datatype Wakeup = Event | Signal | CondVar

  /** `maxWorkers` and `bufLen`, both 32-bit integers, are 1024 in the event loop. */
  datatype Config = Config(wakeup: Wakeup, maxWorkers: nat, bufLen: nat) {
    predicate Valid() { 0 < maxWorkers < JOB_LIMIT && 0 < bufLen < JOB_LIMIT }
  }

  // ----- Worker threads -----

  /** Program counter of `worker_loop`. */
  datatype Pc =
    | ReadId | ReadJob | Create | Test
    | Run | Mark | Post
    | Block | CvCheck | CvSleep | CvRelock | CvUnlock
    | Exited

  datatype Holder = Free | Thread | Loop

  datatype Worker = Worker(
    // struct worker, shared by the thread and the event loop
    jobId: int, job: Option<nat>, waiting: bool,
    // the wake-up object: created?, event set / SIGUSR1 pending / thread signalled, mutex
    ready: bool, token: bool, lock: Holder,
    // the thread itself
    pc: Pc, localId: int, localJob: Option<nat>,
    // SIGUSR2 pending; struct freed
    interrupt: bool, freed: bool)

  function Spawned(id: int, job: nat): Worker {
    Worker(id, Some(job), false, false, false, Free, ReadId, 0, None, false, false)
  }

  /** The next step of a worker thread, or None while it is blocked or gone. */
  function ThreadStep(m: Wakeup, x: Worker): Option<Worker> {
    match x.pc
    case ReadId => Some(x.(localId := x.jobId, pc := ReadJob))
    case ReadJob => Some(x.(localJob := x.job, pc := if x.ready then Test else Create))
    case Create => Some(x.(ready := true, pc := Test))
    case Test => Some(x.(pc := if x.localJob.None? then Exited else Run))
    case Run => Some(x.(pc := Mark))
    case Mark => Some(x.(waiting := true, pc := Post))
    case Post => Some(x.(pc := Block))
    case Block =>
      if m == CondVar then
        if x.lock == Free then Some(x.(lock := Thread, pc := CvCheck)) else None
      else
        if x.token then Some(x.(token := false, pc := ReadId)) else None
    case CvCheck =>
      if x.waiting then Some(x.(lock := Free, token := false, pc := CvSleep)) else Some(x.(pc := CvUnlock))
    case CvSleep => if x.token then Some(x.(token := false, pc := CvRelock)) else None
    case CvRelock => if x.lock == Free then Some(x.(lock := Thread, pc := CvCheck)) else None
    case CvUnlock => Some(x.(lock := Free, pc := ReadId))
    case Exited => None
  }

  // ----- The event loop -----

  /** Stages of `wake_worker`; `Lock` and `Unlock` exist for condition variables only. */
  datatype Stage = Release | SetId | SetJob | Lock | Clear | Notify | Unlock

  /** The C function the event loop is inside of. */
  datatype Call =
    | NoCall
    | Wake(w: nat, id: int, job: Option<nat>, stage: Stage)
    | EnterIdle(w: nat, released: bool)
    | Join(w: nat)

  datatype Mode = Coroutines | Drain | Handling(again: bool) | Closing | Closed | Failed

  /** What has happened to one submitted job so far. */
  datatype Tally = Tally(runs: nat, posts: nat, delivered: nat, released: nat)

  datatype State = State(
    workers: seq<Worker>,
    running: map<int, nat>, idle: seq<nat>, queue: seq<nat>,
    pipe: seq<int>, edge: bool,
    mode: Mode, batch: seq<int>, call: Call,
    jobs: seq<Tally>)

  const Init := State([], map[], [], [], [], false, Coroutines, [], NoCall, [])

  /** A job id is a 32-bit integer that the event loop increments for every job. */
  function Wrap(n: nat): int {
    var k := n % 0x1_0000_0000;
    if k < JOB_LIMIT then k else k - 0x1_0000_0000
  }

  datatype Action =
    // worker threads
    | ThreadMove(t: nat)      // next statement of worker_loop
    | WriteInterrupted(t: nat) // write() fails with EINTR and is retried
    | SpuriousWake(t: nat)    // pthread_cond_wait returns without a signal
    | SignalArrives(signal: nat) // the signal-handling job passes a signal on
    // event loop
    | Submit | Cancel(id: int)
    | Poll(count: nat) | Fetch | HandleNext | EndBatch
    | CallMove
    | BeginClose | CloseNext | EndClose

  function Bump(jobs: seq<Tally>, j: Option<nat>, f: Tally -> Tally): seq<Tally> {
    if j.Some? && j.value < |jobs| then jobs[j.value := f(jobs[j.value])] else jobs
  }

  function DidRun(t: Tally): Tally { t.(runs := t.runs + 1) }
  function DidPost(t: Tally): Tally { t.(posts := t.posts + 1) }
  function DidDeliver(t: Tally): Tally { t.(delivered := t.delivered + 1) }
  function DidRelease(t: Tally): Tally { t.(released := t.released + 1) }

  function MoveThread(c: Config, s: State, t: nat): Option<State>
    requires t < |s.workers|
  {
    var x := s.workers[t];
    match ThreadStep(c.wakeup, x)
    case None => None
    case Some(y) =>
      var s1 := s.(workers := s.workers[t := y]);
      if x.pc == Run then Some(s1.(jobs := Bump(s.jobs, x.localJob, DidRun)))
      else if x.pc == Post then
        Some(s1.(pipe := s.pipe + [x.localId], edge := true, jobs := Bump(s.jobs, x.localJob, DidPost)))
      else Some(s1)
  }

  function AfterWake(job: Option<nat>, w: nat): Call {
    if job.None? then Join(w) else NoCall
  }

  /** One statement of the C function the event loop is inside of. */
  function MoveCall(c: Config, s: State): Option<State> {
    match s.call
    case NoCall => None
    case Wake(w, id, job, stage) =>
      if w >= |s.workers| then None else
      var x := s.workers[w];
      var go := (k: Stage) => s.call.(stage := k);
      (match stage
       case Release => Some(s.(jobs := Bump(s.jobs, x.job, DidRelease), call := go(SetId)))
       case SetId => Some(s.(workers := s.workers[w := x.(jobId := id)], call := go(SetJob)))
       case SetJob => Some(s.(workers := s.workers[w := x.(job := job)],
                              call := go(if c.wakeup == CondVar then Lock else Clear)))
       case Lock => if x.lock == Free then Some(s.(workers := s.workers[w := x.(lock := Loop)], call := go(Clear)))
                    else None
       case Clear => Some(s.(workers := s.workers[w := x.(waiting := false)], call := go(Notify)))
       case Notify =>
         if c.wakeup == CondVar then
           Some(s.(workers := s.workers[w := x.(token := x.pc == CvSleep)], call := go(Unlock)))
         else
           Some(s.(workers := s.workers[w := x.(token := true)], call := AfterWake(job, w)))
       case Unlock => Some(s.(workers := s.workers[w := x.(lock := Free)], call := AfterWake(job, w))))
    case EnterIdle(w, released) =>
      if w >= |s.workers| then None else
      var x := s.workers[w];
      if !released then Some(s.(jobs := Bump(s.jobs, x.job, DidRelease), call := EnterIdle(w, true)))
      else Some(s.(workers := s.workers[w := x.(job := None)], call := NoCall))
    case Join(w) =>
      if w < |s.workers| && s.workers[w].pc == Exited then
        Some(s.(workers := s.workers[w := s.workers[w].(freed := true)], call := NoCall))
      else None
  }

  /** `perform_job_in_worker` up to the point where the coroutine suspends. */
  function SubmitJob(c: Config, s: State): State {
    var n := |s.jobs|;
    var s1 := s.(jobs := s.jobs + [Tally(0, 0, 0, 0)]);
    if s.idle == [] then
      if |s.running| >= c.maxWorkers then s1.(queue := s.queue + [n])
      else s1.(workers := s.workers + [Spawned(Wrap(n), n)], running := s.running[Wrap(n) := |s.workers|])
    else
      var w := s.idle[0];
      s1.(idle := s.idle[1..], running := s.running[Wrap(n) := w], call := Wake(w, Wrap(n), Some(n), Release))
  }

  /** `handle_completed_job`: negative ids are signals; an id that is not running aborts. */
  function HandleId(s: State, id: int): State {
    if id < 0 then s
    else if id !in s.running then s.(mode := Failed)
    else
      var w := s.running[id];
      var s1 := s.(running := s.running - {id}, jobs := Bump(s.jobs, Some(id), DidDeliver));
      if s.queue == [] then s1.(idle := s.idle + [w], call := EnterIdle(w, false))
      else
        var m := s.queue[0];
        s1.(queue := s.queue[1..], running := s1.running[Wrap(m) := w], call := Wake(w, Wrap(m), Some(m), Release))
  }

  /** What the pipe carries for a signal: its number with the sign bit set, as a 32-bit integer. */
  function SignalId(signal: nat): int { signal % JOB_LIMIT - JOB_LIMIT }

  /** The first job of every program waits for signals and writes them into the completion pipe. */
  predicate HandlesSignals(s: State) {
    exists t | 0 <= t < |s.workers| :: s.workers[t].pc == Run && s.workers[t].localJob == Some(0)
  }

  /** One read of the completion pipe; reading an empty pipe fails with EAGAIN and is raised. */
  function FetchBatch(c: Config, s: State): State {
    var k := if |s.pipe| < c.bufLen then |s.pipe| else c.bufLen;
    if k == 0 then s.(mode := Failed)
    else s.(batch := s.pipe[..k], pipe := s.pipe[k..], mode := Handling(k == c.bufLen))
  }

  function Step(c: Config, s: State, a: Action): Option<State> {
    var atRest := s.call == NoCall;
    match a
    case ThreadMove(t) => if t < |s.workers| then MoveThread(c, s, t) else None
    case WriteInterrupted(t) =>
      if t < |s.workers| && s.workers[t].pc == Post && s.workers[t].interrupt then
        Some(s.(workers := s.workers[t := s.workers[t].(interrupt := false)]))
      else None
    case SpuriousWake(t) =>
      if t < |s.workers| && s.workers[t].pc == CvSleep then
        Some(s.(workers := s.workers[t := s.workers[t].(token := false, pc := CvRelock)]))
      else None
    case SignalArrives(signal) => // a console handler posts to the completion port directly
      if c.wakeup == Event || HandlesSignals(s) then
        Some(s.(pipe := s.pipe + [SignalId(signal)], edge := true))
      else None
    case Submit => if s.mode == Coroutines && atRest then Some(SubmitJob(c, s)) else None
    case Cancel(id) =>
      if s.mode == Coroutines && atRest && id in s.running && s.running[id] < |s.workers| then
        var w := s.running[id];
        if s.workers[w].waiting then Some(s)
        else Some(s.(workers := s.workers[w := s.workers[w].(interrupt := true)]))
      else None
    case Poll(count) =>
      if !(s.mode == Coroutines && atRest) then None
      else if c.wakeup == Event then // completion port: packets are taken off directly
        if 0 < count <= |s.pipe| then
          Some(s.(batch := s.pipe[..count], pipe := s.pipe[count..], mode := Handling(false)))
        else None
      else if !s.edge then None // edge-triggered epoll, which re-checks readiness
      else Some(s.(edge := false, mode := if s.pipe == [] then Coroutines else Drain))
    case Fetch => if s.mode == Drain && atRest then Some(FetchBatch(c, s)) else None
    case HandleNext =>
      if s.mode.Handling? && atRest && s.batch != [] then
        Some(HandleId(s.(batch := s.batch[1..]), s.batch[0]))
      else None
    case EndBatch =>
      if s.mode.Handling? && atRest && s.batch == [] then
        Some(s.(mode := if s.mode.again then Drain else Coroutines))
      else None
    case CallMove => MoveCall(c, s)
    case BeginClose =>
      if s.mode == Coroutines && atRest && s.running == map[] then Some(s.(mode := Closing)) else None
    case CloseNext =>
      if s.mode == Closing && atRest && s.idle != [] then
        Some(s.(idle := s.idle[1..], call := Wake(s.idle[0], 0, None, Release)))
      else None
    case EndClose =>
      if s.mode == Closing && atRest && s.idle == [] then Some(s.(mode := Closed)) else None
  }

  /** The state after a run, if every action of it was possible. */
  function Execute(c: Config, run: seq<Action>): Option<State> {
    if run == [] then Some(Init)
    else
      match Execute(c, run[..|run| - 1])
      case None => None
      case Some(s) => Step(c, s, run[|run| - 1])
  }
}

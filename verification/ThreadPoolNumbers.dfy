/** Job numbers are 32-bit integers: exactly how many jobs a program may submit before one gets lost. */
module ThreadPoolNumbers {
  import opened Wrappers
  import opened ThreadPool
  import opened ThreadPoolSafety
  import opened ThreadPoolProgress
  import opened ThreadPoolTheorems

  // ----- Every run can be carried on to a stop -----

  lemma InternalKeeps(c: Config, s: State, a: Action)
    requires Internal(a) && Step(c, s, a).Some?
    ensures var s' := Step(c, s, a).value;
      |s'.jobs| == |s.jobs| && |s'.workers| == |s.workers|
      && (s.mode !in {Closing, Closed} ==> s'.mode !in {Closing, Closed})
  {
  }

  lemma FirstStays(c: Config, s: State, a: Action)
    requires Internal(a) && Step(c, s, a).Some? && FirstHeld(s, 1) && a != ThreadMove(0)
    ensures FirstHeld(Step(c, s, a).value, 1)
  {
    match a
    case ThreadMove(t) => assert t != 0 && MoveThread(c, s, t).value.workers[0] == s.workers[0];
    case CallMove => CallSparesFirst(c, s);
    case _ =>
  }

  lemma CallSparesFirst(c: Config, s: State)
    requires MoveCall(c, s).Some? && FirstHeld(s, 1)
    ensures FirstHeld(MoveCall(c, s).value, 1)
  {
    CallTouchesOne(c, s);
    CallSparesThread(c, s);
  }

  /** A call of the event loop does not move the thread it is about. */
  lemma CallSparesThread(c: Config, s: State)
    requires s.call != NoCall && s.call.w < |s.workers| && MoveCall(c, s).Some?
    ensures var x, y := s.workers[s.call.w], MoveCall(c, s).value.workers[s.call.w];
      y.pc == x.pc && y.localJob == x.localJob
  {
    if !s.call.Wake? { ParkSparesThread(c, s); }
    else if s.call.stage in {Release, SetId, SetJob} { HandOverSparesThread(c, s); }
    else { WakeSparesThread(c, s); }
  }

  lemma ParkSparesThread(c: Config, s: State)
    requires (s.call.EnterIdle? || s.call.Join?) && s.call.w < |s.workers| && MoveCall(c, s).Some?
    ensures var x, y := s.workers[s.call.w], MoveCall(c, s).value.workers[s.call.w];
      y.pc == x.pc && y.localJob == x.localJob
  {
  }

  lemma HandOverSparesThread(c: Config, s: State)
    requires s.call.Wake? && s.call.stage in {Release, SetId, SetJob}
    requires s.call.w < |s.workers| && MoveCall(c, s).Some?
    ensures var x, y := s.workers[s.call.w], MoveCall(c, s).value.workers[s.call.w];
      y.pc == x.pc && y.localJob == x.localJob
  {
  }

  lemma WakeSparesThread(c: Config, s: State)
    requires s.call.Wake? && s.call.stage in {Lock, Clear, Notify, Unlock}
    requires s.call.w < |s.workers| && MoveCall(c, s).Some?
    ensures var x, y := s.workers[s.call.w], MoveCall(c, s).value.workers[s.call.w];
      y.pc == x.pc && y.localJob == x.localJob
  {
  }

  /** Every run can be carried on until nothing moves, and, if the first job is held, until nothing else does. */
  lemma {:induction false} RunsOn(c: Config, run: seq<Action>, s: State, h: nat) returns (run': seq<Action>, s': State)
    requires Reached(c, run, s) && FirstHeld(s, h)
    ensures Reached(c, run', s') && StuckBut(c, s', h) && FirstHeld(s', h) && Signals(run') == Signals(run)
    ensures |s'.jobs| == |s.jobs| && |s'.workers| == |s.workers|
    ensures s.mode !in {Closing, Closed} ==> s'.mode !in {Closing, Closed}
    decreases Rank(s)
  {
    if StuckBut(c, s, h) {
      run', s' := run, s;
    } else {
      var a :| Internal(a) && !(h == 1 && a == ThreadMove(0)) && Step(c, s, a).Some?;
      RunsKeepInv(c, run);
      InternalRankDrops(c, s, a);
      InternalKeeps(c, s, a);
      if h == 1 { FirstStays(c, s, a); }
      run', s' := Then(c, run, s, a);
      run', s' := RunsOn(c, run', s', h);
    }
  }

  lemma RunsToAStop(c: Config, run: seq<Action>, s: State) returns (run': seq<Action>, s': State)
    requires Reached(c, run, s)
    ensures Reached(c, run', s') && Stuck(c, s') && Signals(run') == Signals(run)
    ensures |s'.jobs| == |s.jobs| && |s'.workers| == |s.workers|
    ensures s.mode !in {Closing, Closed} ==> s'.mode !in {Closing, Closed}
  {
    run', s' := RunsOn(c, run, s, 0);
    assert Stuck(c, s');
  }

  // ----- The last number -----

  /** Every full batch of one message is followed by a read of the empty pipe. */
  predicate Lasting(c: Config) { c.wakeup == Event || c.bufLen >= 2 }

  /** With pipes the first job waits for signals until the program ends, on a thread of its own. */
  predicate Beside(c: Config) { c.wakeup != Event && c.maxWorkers >= 2 && c.bufLen >= 3 }

  /** How many threads are held by that job. */
  predicate Holding(c: Config, h: nat) { if h == 0 then Lasting(c) else h == 1 && Beside(c) }

  function Table(h: nat): map<int, nat> { if h == 0 then map[] else map[0 := 0] }

  /** Nothing is under way but the first job. */
  predicate AtRest(c: Config, s: State, h: nat) {
    && FirstHeld(s, h) && s.mode == Coroutines && s.call == NoCall
    && s.running == Table(h) && s.queue == [] && s.pipe == [] && s.batch == []
  }

  predicate FirstKnown(c: Config, s: State, h: nat) {
    h == 1 ==> s.workers != [] && WorkerOk(c.wakeup, s.workers[0], NoCall)
               && s.workers[0].job == Some(0) && s.workers[0].jobId == 0
  }

  /** All jobs but a held first one were done by one worker, which waits for the next one. */
  ghost predicate Waiting(c: Config, s: State, k: nat, h: nat) {
    && AtRest(c, s, h) && FirstKnown(c, s, h) && |s.jobs| == k && |s.workers| == h + 1 && s.idle == [h]
    && Parked(c.wakeup, s.workers[h])
  }

  predicate Parked(m: Wakeup, x: Worker) {
    WorkerOk(m, x, NoCall) && Asleep(x) && ThreadStep(m, x).None?
  }

  lemma StopsWaiting(c: Config, run: seq<Action>, s: State, h: nat)
    requires Reached(c, run, s) && StuckBut(c, s, h) && FirstHeld(s, h) && Holding(c, h)
    requires |s.workers| == h + 1 && Signals(run) == 0 && s.mode !in {Closing, Closed}
    ensures Waiting(c, s, |s.jobs|, h)
  {
    if c.wakeup == Event { CompletionPortNeverFails(c, run, s); } else { FewWorkersNeverFail(c, run, s); }
    RestOfRun(c, run, s, h);
    OnlyWorkerIdles(c, run, s, h);
    WorkerOfRun(c, run, s, h);
    RecordsOfRun(c, run, s);
    assert AssignedTo(s, h).None? && !s.workers[h].freed by { assert s.idle[0] == h; }
    assert Internal(ThreadMove(h)) && (h == 1 ==> ThreadMove(h) != ThreadMove(0));
  }

  lemma RestOfRun(c: Config, run: seq<Action>, s: State, h: nat)
    requires Reached(c, run, s) && StuckBut(c, s, h) && FirstHeld(s, h) && Holding(c, h)
    requires s.mode !in {Failed, Closing, Closed}
    ensures AtRest(c, s, h) && FirstKnown(c, s, h)
  {
    RunsKeepInv(c, run);
    if h == 0 {
      assert Stuck(c, s);
      LoopIsStill(c, s, 0);
      StuckMeansDone(c, s);
      LoopIsDone(c, s);
    } else {
      OnlyFirstGoesOn(c, s);
      NothingQueued(c, s);
    }
  }

  lemma NothingQueued(c: Config, s: State)
    requires Desk(c, s) && |s.running| < c.maxWorkers
    ensures s.queue == []
  {
  }

  lemma OnlyWorkerIdles(c: Config, run: seq<Action>, s: State, h: nat)
    requires Reached(c, run, s) && AtRest(c, s, h) && FirstKnown(c, s, h) && h <= 1 && |s.workers| == h + 1
    ensures s.idle == [h]
  {
    IdleOfRun(c, run, s);
    RecordsOfRun(c, run, s);
    assert |s.running| == h;
    assert AssignedTo(s, s.idle[0]).None? && (h == 1 ==> AssignedTo(s, 0) == Some(0));
  }

  lemma IdleOfRun(c: Config, run: seq<Action>, s: State)
    requires Reached(c, run, s) && s.mode == Coroutines
    ensures |s.workers| == |s.running| + |s.idle|
  {
    RunsKeepInv(c, run);
  }

  /** The program's beginning: with pipes, its first job has been handed to a thread. */
  lemma Starts(c: Config, h: nat) returns (run: seq<Action>, s: State)
    requires c.Valid() && Holding(c, h)
    ensures Reached(c, run, s) && Signals(run) == 0
    ensures AtRest(c, s, h) && |s.jobs| == |s.workers| == h && s.idle == []
  {
    run, s := [], Init;
    if h == 1 {
      run, s := Then(c, run, s, Submit);
      run, s := FreshThreadRuns(c, run, s, 0);
    }
  }

  lemma {:induction false} OneByOne(c: Config, k: nat, h: nat) returns (run: seq<Action>, s: State)
    requires c.Valid() && Holding(c, h) && h < k <= JOB_LIMIT
    ensures Reached(c, run, s) && Waiting(c, s, k, h) && Signals(run) == 0
  {
    if k == h + 1 {
      run, s := Starts(c, h);
    } else {
      run, s := OneByOne(c, k - 1, h);
    }
    SubmitHolds(c, s, h);
    run, s := Then(c, run, s, Submit);
    run, s := RunsOn(c, run, s, h);
    StopsWaiting(c, run, s, h);
  }

  lemma SubmitHolds(c: Config, s: State, h: nat)
    requires c.Valid() && Holding(c, h) && AtRest(c, s, h)
    requires (s.idle == [] && |s.workers| == h) || (s.idle == [h] && |s.workers| == h + 1)
    ensures var s' := SubmitJob(c, s);
      |s'.workers| == h + 1 && FirstHeld(s', h) && s'.mode == Coroutines && |s'.jobs| == |s.jobs| + 1
  {
  }

  // ----- One more job -----

  /** Job number 2^31 is under way; its number as a 32-bit integer is negative. */
  predicate Late(c: Config, s: State, h: nat) {
    && h <= 1 && |s.workers| == h + 1 && s.idle == [] && s.queue == [] && s.running == Table(h)[-JOB_LIMIT := h]
    && FirstHeld(s, h) && FirstKnown(c, s, h)
    && |s.jobs| == JOB_LIMIT + 1 && s.jobs[JOB_LIMIT].delivered == 0
  }

  predicate LateCall(c: Config, s: State, h: nat) {
    && Late(c, s, h) && s.mode == Coroutines && s.pipe == [] && s.batch == []
    && WorkerOk(c.wakeup, s.workers[h], s.call)
    && match s.call
       case Wake(w, id, job, _) =>
         w == h && id == -JOB_LIMIT && job == Some(JOB_LIMIT) && s.workers[h].pc in {Block, CvSleep}
         && (c.wakeup == CondVar ==> s.workers[h].pc == CvSleep)
       case NoCall => Woken(c.wakeup, s.workers[h]) && s.workers[h].job.Some? && s.workers[h].jobId == -JOB_LIMIT
       case _ => false
  }

  lemma LateCallStep(c: Config, s: State, h: nat)
    requires LateCall(c, s, h) && s.call != NoCall
    ensures MoveCall(c, s).Some? && LateCall(c, MoveCall(c, s).value, h)
  {
    LateWorker(c, s, h);
    CallSparesThread(c, s);
    LateDesk(c, s, h);
  }

  lemma LateWorker(c: Config, s: State, h: nat)
    requires s.call.Wake? && s.call.w == h < |s.workers| && WorkerOk(c.wakeup, s.workers[h], s.call) && s.call.job.Some?
    requires s.workers[h].pc in {Block, CvSleep} && (c.wakeup == CondVar ==> s.workers[h].pc == CvSleep)
    ensures MoveCall(c, s).Some? && var s' := MoveCall(c, s).value;
      |s'.workers| == |s.workers| && WorkerOk(c.wakeup, s'.workers[h], s'.call)
      && (s'.call == NoCall ==>
            Woken(c.wakeup, s'.workers[h]) && s'.workers[h].job.Some? && s'.workers[h].jobId == s.call.id)
  {
  }

  lemma LateDesk(c: Config, s: State, h: nat)
    requires LateCall(c, s, h) && s.call != NoCall && MoveCall(c, s).Some?
    ensures var s' := MoveCall(c, s).value;
      Late(c, s', h) && s'.mode == Coroutines && s'.pipe == [] && s'.batch == []
      && (s'.call != NoCall ==> s'.call.Wake? && s'.call == s.call.(stage := s'.call.stage))
  {
  }

  lemma {:induction false} LateCallEnds(c: Config, run: seq<Action>, s: State, h: nat)
      returns (run': seq<Action>, s': State)
    requires Execute(c, run) == Some(s) && LateCall(c, s, h)
    ensures Execute(c, run') == Some(s') && LateCall(c, s', h) && s'.call == NoCall
    decreases Rank(s)
  {
    run', s' := run, s;
    if s.call != NoCall {
      LateCallStep(c, s, h);
      CallRankLocal(c, s);
      CallTouchesOne(c, s);
      OneWorkerRank(s, MoveCall(c, s).value, h);
      run', s' := Then(c, run, s, CallMove);
      run', s' := LateCallEnds(c, run', s', h);
    }
  }

  /** A thread runs its job and posts its number into an empty pipe. */
  predicate Posting(c: Config, s: State, t: nat, id: int) {
    && s.mode == Coroutines && s.call == NoCall && s.batch == [] && t < |s.workers|
    && WorkerOk(c.wakeup, s.workers[t], NoCall) && s.workers[t].job.Some? && s.workers[t].jobId == id
    && s.pipe == (if Posted(s.workers[t]) then [id] else []) && (Posted(s.workers[t]) ==> s.edge)
  }

  /** What it leaves alone. */
  ghost predicate OtherThan(s: State, s': State, t: nat) {
    && s'.running == s.running && s'.idle == s.idle && s'.queue == s.queue
    && |s'.workers| == |s.workers| && |s'.jobs| == |s.jobs|
    && (forall w | 0 <= w < |s.workers| && w != t :: s'.workers[w] == s.workers[w])
    && (forall j | 0 <= j < |s.jobs| :: s'.jobs[j].delivered == s.jobs[j].delivered)
  }

  lemma PostingStep(c: Config, s: State, t: nat, id: int)
    requires Posting(c, s, t, id) && MoveThread(c, s, t).Some?
    ensures Posting(c, MoveThread(c, s, t).value, t, id) && OtherThan(s, MoveThread(c, s, t).value, t)
  {
    ThreadLocal(c.wakeup, s.workers[t], NoCall);
  }

  lemma {:induction false} PostingEnds(c: Config, run: seq<Action>, s: State, t: nat, id: int)
      returns (run': seq<Action>, s': State)
    requires Execute(c, run) == Some(s) && Posting(c, s, t, id)
    ensures Execute(c, run') == Some(s') && Posting(c, s', t, id) && OtherThan(s, s', t)
    ensures ThreadStep(c.wakeup, s'.workers[t]).None? && Posted(s'.workers[t])
    decreases ThreadRank(s.workers[t])
  {
    run', s' := run, s;
    if ThreadStep(c.wakeup, s.workers[t]).Some? {
      PostingStep(c, s, t, id);
      ThreadRankDrops(c.wakeup, s.workers[t], NoCall);
      run', s' := Then(c, run, s, ThreadMove(t));
      run', s' := PostingEnds(c, run', s', t, id);
    }
  }

  /** The number is in the pipe and its thread sleeps. */
  predicate LatePosted(c: Config, s: State, h: nat) {
    && Late(c, s, h) && s.mode == Coroutines && s.call == NoCall && s.batch == [] && s.pipe == [-JOB_LIMIT]
    && s.edge && Still(c, s.workers[h])
  }

  predicate Still(c: Config, x: Worker) { ThreadStep(c.wakeup, x).None? && x.pc != Post }

  lemma LatePosts(c: Config, run: seq<Action>, s: State, h: nat) returns (run': seq<Action>, s': State)
    requires Execute(c, run) == Some(s) && LateCall(c, s, h) && s.call == NoCall
    ensures Execute(c, run') == Some(s') && LatePosted(c, s', h)
  {
    run', s' := PostingEnds(c, run, s, h, -JOB_LIMIT);
  }

  /** The event loop takes the number for a signal. */
  predicate LateHandled(c: Config, s: State, h: nat) {
    && Late(c, s, h) && s.mode == Coroutines && s.call == NoCall && s.pipe == [] && s.batch == []
    && (c.wakeup == Event || !s.edge) && Still(c, s.workers[h])
  }

  lemma LateIsHandled(c: Config, run: seq<Action>, s: State, h: nat) returns (run': seq<Action>, s': State)
    requires c.Valid() && Holding(c, h) && Execute(c, run) == Some(s) && LatePosted(c, s, h)
    ensures Execute(c, run') == Some(s') && LateHandled(c, s', h)
  {
    run', s' := OneTaken(c, run, s, -JOB_LIMIT);
    run', s' := Then(c, run', s', HandleNext);
    run', s' := Then(c, run', s', EndBatch);
  }

  /** The event loop takes the one message out of the pipe. */
  lemma OneTaken(c: Config, run: seq<Action>, s: State, id: int) returns (run': seq<Action>, s': State)
    requires c.Valid() && Lasting(c) && Execute(c, run) == Some(s)
    requires s.mode == Coroutines && s.call == NoCall && s.batch == [] && s.pipe == [id] && s.edge
    ensures Execute(c, run') == Some(s')
    ensures s' == s.(pipe := [], batch := [id], mode := Handling(false), edge := c.wakeup == Event)
  {
    run', s' := Then(c, run, s, Poll(1));
    if c.wakeup != Event {
      run', s' := Then(c, run', s', Fetch);
    }
  }

  // ----- The first job ends -----

  /** The first job has posted its number, which is zero. */
  predicate FirstPostedLate(c: Config, s: State) {
    && |s.workers| == 2 && s.queue == [] && s.running == Table(1)[-JOB_LIMIT := 1]
    && |s.jobs| == JOB_LIMIT + 1 && s.jobs[JOB_LIMIT].delivered == 0
    && s.mode == Coroutines && s.call == NoCall && s.batch == [] && s.pipe == [0] && s.edge
    && Still(c, s.workers[0]) && Still(c, s.workers[1])
  }

  lemma FirstPosts(c: Config, run: seq<Action>, s: State) returns (run': seq<Action>, s': State)
    requires Execute(c, run) == Some(s) && LateHandled(c, s, 1)
    ensures Execute(c, run') == Some(s') && FirstPostedLate(c, s')
  {
    run', s' := PostingEnds(c, run, s, 0, 0);
  }

  /** Nothing is left to do, and job number 2^31 was never delivered. */
  predicate Lost(c: Config, s: State) {
    && s.mode == Coroutines && s.call == NoCall && s.pipe == [] && s.batch == [] && (c.wakeup == Event || !s.edge)
    && (forall w | 0 <= w < |s.workers| :: Still(c, s.workers[w]))
    && |s.jobs| == JOB_LIMIT + 1 && s.jobs[JOB_LIMIT].delivered == 0
  }

  lemma FirstEnds(c: Config, run: seq<Action>, s: State) returns (run': seq<Action>, s': State)
    requires c.Valid() && Beside(c) && Execute(c, run) == Some(s) && FirstPostedLate(c, s)
    ensures Execute(c, run') == Some(s') && Lost(c, s')
  {
    run', s' := OneTaken(c, run, s, 0);
    TakenLate(c, s, s');
    run', s' := FirstFinishes(c, run', s');
  }

  lemma FirstFinishes(c: Config, run: seq<Action>, s: State) returns (run': seq<Action>, s': State)
    requires Execute(c, run) == Some(s) && FirstTaken(c, s)
    ensures Execute(c, run') == Some(s') && Lost(c, s')
  {
    var parking := FirstParks(c, s);
    run', s' := Then(c, run, s, HandleNext);
    run', s' := ParkEnds(c, run', parking);
  }

  lemma TakenLate(c: Config, s: State, s': State)
    requires FirstPostedLate(c, s) && Beside(c)
    requires s' == s.(pipe := [], batch := [0], mode := Handling(false), edge := c.wakeup == Event)
    ensures FirstTaken(c, s')
  {
  }

  /** The event loop is about to handle the first job's number. */
  predicate FirstTaken(c: Config, s: State) {
    && s.mode == Handling(false) && s.call == NoCall && s.batch == [0] && s.queue == [] && s.pipe == []
    && |s.workers| == 2 && 0 in s.running && s.running[0] == 0 && !s.edge
    && |s.jobs| == JOB_LIMIT + 1 && s.jobs[JOB_LIMIT].delivered == 0
    && Still(c, s.workers[0]) && Still(c, s.workers[1])
  }

  predicate ParkingLate(c: Config, s: State) {
    && s.call == EnterIdle(0, false) && s.mode == Handling(false)
    && s.batch == [] && s.pipe == [] && (c.wakeup == Event || !s.edge)
    && s.workers != [] && (forall w | 0 <= w < |s.workers| :: Still(c, s.workers[w]))
    && |s.jobs| == JOB_LIMIT + 1 && s.jobs[JOB_LIMIT].delivered == 0
  }

  lemma ParkEnds(c: Config, run: seq<Action>, s: State) returns (run': seq<Action>, s': State)
    requires Execute(c, run) == Some(s) && ParkingLate(c, s)
    ensures Execute(c, run') == Some(s') && Lost(c, s')
  {
    Released(c, s);
    run', s' := Then(c, run, s, CallMove);
    Idled(c, s');
    run', s' := Then(c, run', s', CallMove);
    run', s' := Then(c, run', s', EndBatch);
  }

  lemma Released(c: Config, s: State)
    requires ParkingLate(c, s)
    ensures var jobs := Bump(s.jobs, s.workers[0].job, DidRelease);
      MoveCall(c, s) == Some(s.(jobs := jobs, call := EnterIdle(0, true)))
      && |jobs| == |s.jobs| && jobs[JOB_LIMIT].delivered == s.jobs[JOB_LIMIT].delivered
  {
  }

  lemma Idled(c: Config, s: State)
    requires s.call == EnterIdle(0, true) && s.workers != []
    requires forall w | 0 <= w < |s.workers| :: Still(c, s.workers[w])
    ensures var ws := s.workers[0 := s.workers[0].(job := None)];
      MoveCall(c, s) == Some(s.(workers := ws, call := NoCall)) && forall w | 0 <= w < |ws| :: Still(c, ws[w])
  {
    assert Still(c, s.workers[0]);
  }

  /** Handling the first job's number starts to park its thread. */
  lemma FirstParks(c: Config, s: State) returns (s': State)
    requires FirstTaken(c, s)
    ensures Step(c, s, HandleNext) == Some(s') && ParkingLate(c, s')
  {
    s' := Step(c, s, HandleNext).value;
    assert s.batch[1..] == [];
  }

  lemma NothingMoves(c: Config, s: State)
    requires Lost(c, s)
    ensures Stuck(c, s)
  {
    forall a | Internal(a) ensures Step(c, s, a).None? {
    }
  }

  lemma LateSubmit(c: Config, s: State, h: nat)
    requires h <= 1 && Waiting(c, s, JOB_LIMIT, h)
    ensures LateCall(c, SubmitJob(c, s), h)
  {
    assert Wrap(JOB_LIMIT) == -JOB_LIMIT;
  }

  /**
    * After 2^31 jobs the next one is run and posted, but nobody is told.  With pipes and room for two threads
    * the program's first job, which waits for signals, runs all the while and ends last.
    */
  lemma LostJob(c: Config) returns (run: seq<Action>, s: State)
    requires c.Valid() && Lasting(c)
    ensures Execute(c, run) == Some(s) && |s.jobs| == JOB_LIMIT + 1
    ensures Stuck(c, s) && s.mode == Coroutines && s.jobs[JOB_LIMIT].delivered == 0
  {
    if Beside(c) {
      run, s := LostBeside(c, 1);
      run, s := FirstPosts(c, run, s);
      run, s := FirstEnds(c, run, s);
    } else {
      run, s := LostBeside(c, 0);
      LostAlone(c, s);
    }
    NothingMoves(c, s);
  }

  lemma LostAlone(c: Config, s: State)
    requires LateHandled(c, s, 0)
    ensures Lost(c, s)
  {
  }

  /** The part of that run up to the loss, while a held first job still runs. */
  lemma LostBeside(c: Config, h: nat) returns (run: seq<Action>, s: State)
    requires c.Valid() && Holding(c, h)
    ensures Execute(c, run) == Some(s) && LateHandled(c, s, h)
  {
    run, s := OneByOne(c, JOB_LIMIT, h);
    LateSubmit(c, s, h);
    run, s := Then(c, run, s, Submit);
    run, s := LateCallEnds(c, run, s, h);
    run, s := LatePosts(c, run, s, h);
    run, s := LateIsHandled(c, run, s, h);
  }

  /** In no run with at most `n` jobs that goes on for as long as it can is a job left unfinished. */
  ghost predicate AllComplete(c: Config, n: nat) {
    forall run, s | Execute(c, run) == Some(s) && |s.jobs| <= n && Stuck(c, s) && s.mode != Failed ::
      forall j | 0 <= j < |s.jobs| :: s.jobs[j] == Tally(1, 1, 1, 1)
  }

  /** Exactly the first 2^31 jobs of a program are sure to be finished. */
  lemma CompleteIffNumbersLast(c: Config, n: nat)
    requires c.Valid()
    ensures n <= JOB_LIMIT ==> AllComplete(c, n)
    ensures Lasting(c) ==> (AllComplete(c, n) <==> n <= JOB_LIMIT)
  {
    if n <= JOB_LIMIT {
      forall run, s | Execute(c, run) == Some(s) && |s.jobs| <= n && Stuck(c, s) && s.mode != Failed
        ensures forall j | 0 <= j < |s.jobs| :: s.jobs[j] == Tally(1, 1, 1, 1)
      {
        RunsKeepInv(c, run);
        StuckMeansDone(c, s);
      }
    } else if Lasting(c) {
      var run, s := LostJob(c);
      assert s.jobs[JOB_LIMIT] != Tally(1, 1, 1, 1);
    }
  }
}

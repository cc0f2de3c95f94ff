/** Every submitted job is finished: internal runs are finite, and one that can go
    no further has run, posted, delivered and released every job. */
module ThreadPoolProgress {
  import opened Wrappers
  import opened ThreadPool
  import opened ThreadPoolSafety

  /** Actions that need no new request, signal or spurious wake-up from outside. */
  predicate Internal(a: Action) {
    a.ThreadMove? || a.WriteInterrupted? || a.Poll? || a.Fetch? || a.HandleNext? || a.EndBatch? ||
    a.CallMove? || a.CloseNext? || a.EndClose?
  }

  // ----- A measure for internal runs -----

  /** How far a thread is from falling asleep, in steps; posting pays for the handling. */
  function ThreadRank(x: Worker): nat {
    var base := if x.job.Some? then 416 else 3;
    var position: nat :=
      match x.pc
      case ReadId => base
      case ReadJob => base - 1
      case Create => 414
      case Test => base - 3 + (if x.job.Some? then 0 else 1)
      case Run => 412
      case Mark => 411
      case Post => 410
      case Exited => 0
      case Block => if x.waiting then 2 else base + 3
      case CvRelock => if x.waiting then 2 else base + 3
      case CvCheck => if x.waiting then 1 else base + 2
      case CvUnlock => base + 1
      case CvSleep => if x.token then (if x.waiting then 3 else base + 4) else 0;
    position + Flag(x.interrupt)
  }

  function FleetRank(ws: seq<Worker>): nat {
    if ws == [] then 0 else FleetRank(ws[..|ws| - 1]) + ThreadRank(ws[|ws| - 1])
  }

  function StagesLeft(stage: Stage): nat {
    match stage
    case Release => 7 case SetId => 6 case SetJob => 5 case Lock => 4 case Clear => 3 case Notify => 2 case Unlock => 1
  }

  function CallRank(call: Call): nat {
    match call
    case NoCall => 0
    case Wake(_, _, job, stage) => if job.Some? then 500 * StagesLeft(stage) else 20 * StagesLeft(stage) + 20
    case EnterIdle(_, released) => if released then 20 else 40
    case Join(_) => 20
  }

  function ModeRank(mode: Mode): nat {
    match mode case Drain => 1 case Handling(_) => 2 case Closing => 1 case _ => 0
  }

  function Rank(s: State): nat {
    FleetRank(s.workers) + 403 * |s.pipe| + 400 * |s.batch| + 3500 * |s.queue| + 161 * |s.idle|
    + CallRank(s.call) + ModeRank(s.mode) + 2 * Flag(s.edge)
  }

  lemma {:induction false} FleetRankUpdate(ws: seq<Worker>, t: nat, y: Worker)
    requires t < |ws|
    ensures FleetRank(ws[t := y]) + ThreadRank(ws[t]) == FleetRank(ws) + ThreadRank(y)
  {
    var k := |ws| - 1;
    if t < k {
      assert ws[t := y][..k] == ws[..k][t := y];
      FleetRankUpdate(ws[..k], t, y);
    } else {
      assert ws[t := y][..k] == ws[..k];
    }
  }

  lemma ThreadRankDrops(m: Wakeup, x: Worker, call: Call)
    requires WorkerOk(m, x, call) && ThreadStep(m, x).Some?
    ensures ThreadRank(ThreadStep(m, x).value) + (if x.pc == Post then 405 else 0) < ThreadRank(x)
  {
  }

  lemma InternalRankDrops(c: Config, s: State, a: Action)
    requires Inv(c, s) && Internal(a) && Step(c, s, a).Some?
    ensures Rank(Step(c, s, a).value) < Rank(s)
  {
    match a
    case ThreadMove(t) => ThreadMoveRankDrops(c, s, t);
    case WriteInterrupted(t) => InterruptRankDrops(c, s, t);
    case HandleNext => HandleRankDrops(c, s);
    case CallMove => CallMoveRankDrops(c, s);
    case _ => LoopRankDrops(c, s, a);
  }

  lemma ThreadMoveRankDrops(c: Config, s: State, t: nat)
    requires Inv(c, s) && t < |s.workers| && MoveThread(c, s, t).Some?
    ensures Rank(MoveThread(c, s, t).value) < Rank(s)
  {
    ThreadRankDrops(c.wakeup, s.workers[t], CallOn(s.call, t));
    FleetRankUpdate(s.workers, t, ThreadStep(c.wakeup, s.workers[t]).value);
  }

  lemma InterruptRankDrops(c: Config, s: State, t: nat)
    requires Step(c, s, WriteInterrupted(t)).Some?
    ensures Rank(Step(c, s, WriteInterrupted(t)).value) < Rank(s)
  {
    FleetRankUpdate(s.workers, t, s.workers[t].(interrupt := false));
  }

  lemma HandleRankDrops(c: Config, s: State)
    requires Inv(c, s) && s.mode.Handling? && s.call == NoCall && s.batch != []
    ensures Rank(HandleId(s.(batch := s.batch[1..]), s.batch[0])) < Rank(s)
  {
    NextMessage(s);
  }

  lemma LoopRankDrops(c: Config, s: State, a: Action)
    requires Desk(c, s) && c.Valid() && Step(c, s, a).Some?
    requires a.Poll? || a.Fetch? || a.EndBatch? || a.CloseNext? || a.EndClose?
    ensures Rank(Step(c, s, a).value) < Rank(s)
  {
  }

  lemma CallMoveRankDrops(c: Config, s: State)
    requires Inv(c, s) && MoveCall(c, s).Some?
    ensures Rank(MoveCall(c, s).value) < Rank(s)
  {
    CallRankDrops(c, s);
    CallTouchesOne(c, s);
    OneWorkerRank(s, MoveCall(c, s).value, s.call.w);
  }

  lemma CallTouchesOne(c: Config, s: State)
    requires s.call != NoCall && s.call.w < |s.workers| && MoveCall(c, s).Some?
    ensures var s' := MoveCall(c, s).value;
            && |s'.workers| == |s.workers| && s'.workers == s.workers[s.call.w := s'.workers[s.call.w]]
            && s'.pipe == s.pipe && s'.batch == s.batch && s'.queue == s.queue && s'.idle == s.idle
            && s'.mode == s.mode && s'.edge == s.edge
  {
  }

  lemma OneWorkerRank(s: State, s': State, w: nat)
    requires w < |s.workers| == |s'.workers| && s'.workers == s.workers[w := s'.workers[w]]
    requires s'.pipe == s.pipe && s'.batch == s.batch && s'.queue == s.queue && s'.idle == s.idle
    requires s'.mode == s.mode && s'.edge == s.edge
    requires ThreadRank(s'.workers[w]) + CallRank(s'.call) < ThreadRank(s.workers[w]) + CallRank(s.call)
    ensures Rank(s') < Rank(s)
  {
    FleetRankUpdate(s.workers, w, s'.workers[w]);
  }

  lemma CallRankDrops(c: Config, s: State)
    requires Inv(c, s) && MoveCall(c, s).Some?
    ensures var w, s' := s.call.w, MoveCall(c, s).value;
            && w < |s.workers| == |s'.workers|
            && ThreadRank(s'.workers[w]) + CallRank(s'.call) < ThreadRank(s.workers[w]) + CallRank(s.call)
  {
    var w := s.call.w;
    assert WorkerOk(c.wakeup, s.workers[w], s.call) by { assert CallOn(s.call, w) == s.call; }
    CallRankLocal(c, s);
  }

  lemma CallRankLocal(c: Config, s: State)
    requires s.call != NoCall && s.call.w < |s.workers| && MoveCall(c, s).Some?
    requires WorkerOk(c.wakeup, s.workers[s.call.w], s.call)
    ensures var w, s' := s.call.w, MoveCall(c, s).value;
            ThreadRank(s'.workers[w]) + CallRank(s'.call) < ThreadRank(s.workers[w]) + CallRank(s.call)
  {
  }

  // ----- Where internal runs end -----

  ghost predicate Stuck(c: Config, s: State) {
    forall a | Internal(a) :: Step(c, s, a).None?
  }

  /** No thread stays blocked once a wake-up for it is under way or complete. */
  lemma NoLostWakeup(c: Config, s: State, w: nat)
    requires Inv(c, s) && w < |s.workers| && CallOn(s.call, w) == NoCall
    requires s.workers[w].job.Some? && !Posted(s.workers[w])
    ensures Step(c, s, ThreadMove(w)).Some?
  {
    assert WorkerOk(c.wakeup, s.workers[w], NoCall);
    BusyThreadMoves(c.wakeup, s.workers[w]);
  }

  lemma BusyThreadMoves(m: Wakeup, x: Worker)
    requires WorkerOk(m, x, NoCall) && x.job.Some? && !Posted(x)
    ensures ThreadStep(m, x).Some?
  {
  }

  /** The event loop is never blocked for good inside a C function. */
  lemma CallGoesOn(c: Config, s: State)
    requires Inv(c, s) && s.call != NoCall
    ensures Step(c, s, CallMove).Some? || Step(c, s, ThreadMove(s.call.w)).Some?
  {
    CalledWorker(c, s);
    CalledGoesOn(c, s);
  }

  lemma CalledGoesOn(c: Config, s: State)
    requires s.call != NoCall && s.call.w < |s.workers| && WorkerOk(c.wakeup, s.workers[s.call.w], s.call)
    ensures MoveCall(c, s).Some? || MoveThread(c, s, s.call.w).Some?
  {
  }

  /** The same for every run, however its threads were interleaved and interrupted. */
  lemma NoRunLosesAWakeup(c: Config, run: seq<Action>, s: State, w: nat)
    requires c.Valid() && Execute(c, run) == Some(s) && |s.jobs| <= JOB_LIMIT && w < |s.workers|
    ensures s.workers[w].job.Some? && !Posted(s.workers[w]) && CallOn(s.call, w) == NoCall ==>
      Step(c, s, ThreadMove(w)).Some?
    ensures s.call != NoCall ==> Step(c, s, CallMove).Some? || Step(c, s, ThreadMove(s.call.w)).Some?
  {
    RunsKeepInv(c, run);
    if s.call != NoCall { CallGoesOn(c, s); }
  }

  lemma StuckMeansDone(c: Config, s: State)
    requires Inv(c, s) && Stuck(c, s) && s.mode != Failed
    ensures s.mode in {Coroutines, Closed} && s.call == NoCall
    ensures s.running == map[] && s.queue == [] && Pending(s) == [] && (s.mode == Coroutines ==> s.pipe == [])
    ensures forall n | 0 <= n < |s.jobs| :: s.jobs[n] == Tally(1, 1, 1, 1)
  {
    CallIsDone(c, s);
    LoopIsStill(c, s, 0);
    LoopIsDone(c, s);
    forall n | n in s.running ensures false {
      var w := s.running[n];
      assert AssignedTo(s, w) == Some(n);
      assert s.mode == Coroutines ==> n !in Pending(s);
      if !Posted(s.workers[w]) {
        NoLostWakeup(c, s, w);
        assert Internal(ThreadMove(w));
      }
    }
    NonePending(s);
  }

  lemma NonePending(s: State)
    requires Mail(s) && s.running == map[]
    ensures Pending(s) == []
  {
    DistinctKeys(Pending(s), s.running);
  }

  lemma CallIsDone(c: Config, s: State)
    requires Inv(c, s) && Stuck(c, s)
    ensures s.call == NoCall
  {
    assert Internal(CallMove);
    assert s.call != NoCall ==> Internal(ThreadMove(s.call.w));
    if s.call != NoCall { CallGoesOn(c, s); }
  }

  lemma LoopIsDone(c: Config, s: State)
    requires Inv(c, s) && LoopStill(c, s) && s.mode != Failed && s.call == NoCall
    ensures s.mode in {Coroutines, Closed} && s.batch == [] && (s.mode == Coroutines ==> s.pipe == [])
  {
  }

  /** The event loop's own code has nothing to do. */
  predicate LoopStill(c: Config, s: State) {
    && Step(c, s, Fetch).None? && Step(c, s, HandleNext).None? && Step(c, s, EndBatch).None?
    && Step(c, s, CloseNext).None? && Step(c, s, EndClose).None? && Step(c, s, Poll(1)).None?
  }

  /** Nothing moves, except that with `h == 1` the first thread may: it runs the program's first job. */
  ghost predicate StuckBut(c: Config, s: State, h: nat) {
    forall a | Internal(a) && !(h == 1 && a == ThreadMove(0)) :: Step(c, s, a).None?
  }

  predicate FirstHeld(s: State, h: nat) {
    h == 0 || (h == 1 && s.workers != [] && s.workers[0].pc == Run && s.workers[0].localJob == Some(0))
  }

  lemma LoopIsStill(c: Config, s: State, h: nat)
    requires StuckBut(c, s, h)
    ensures LoopStill(c, s)
  {
    assert Internal(Fetch) && Internal(HandleNext) && Internal(EndBatch) && Internal(CloseNext) && Internal(EndClose);
    assert Internal(Poll(1));
  }

  /** When nothing but the first job goes on, every other job is done. */
  lemma OnlyFirstGoesOn(c: Config, s: State)
    requires Inv(c, s) && StuckBut(c, s, 1) && FirstHeld(s, 1) && s.mode !in {Failed, Closing, Closed}
    ensures s.mode == Coroutines && s.call == NoCall && s.batch == [] && s.pipe == []
    ensures s.running == map[0 := 0] && s.workers[0].job == Some(0) && s.workers[0].jobId == 0
    ensures WorkerOk(c.wakeup, s.workers[0], NoCall)
  {
    FirstIsRunning(c, s);
    CallIsElsewhere(c, s);
    LoopIsStill(c, s, 1);
    LoopIsDone(c, s);
    forall n | n in s.running ensures n == 0 {
      var w := s.running[n];
      assert AssignedTo(s, w) == Some(n);
      assert n !in Pending(s);
      if w != 0 {
        OthersStill(c, s, w);
        NoLostWakeup(c, s, w);
      }
    }
  }

  lemma OthersStill(c: Config, s: State, w: nat)
    requires StuckBut(c, s, 1) && w != 0
    ensures Step(c, s, ThreadMove(w)).None?
  {
    assert Internal(ThreadMove(w)) && ThreadMove(w) != ThreadMove(0);
  }

  lemma FirstIsRunning(c: Config, s: State)
    requires Fleet(c, s) && Duties(s) && FirstHeld(s, 1)
    ensures CallOn(s.call, 0) == NoCall && WorkerOk(c.wakeup, s.workers[0], NoCall)
    ensures s.workers[0].job == Some(0) && s.workers[0].jobId == 0 && 0 in s.running && s.running[0] == 0
  {
    assert WorkerOk(c.wakeup, s.workers[0], CallOn(s.call, 0));
    assert AssignedTo(s, 0) == Some(0);
  }

  lemma CallIsElsewhere(c: Config, s: State)
    requires Inv(c, s) && StuckBut(c, s, 1) && CallOn(s.call, 0) == NoCall
    ensures s.call == NoCall
  {
    assert Internal(CallMove);
    if s.call != NoCall {
      OthersStill(c, s, s.call.w);
      CallGoesOn(c, s);
    }
  }

  // ----- Whole runs -----

  lemma {:induction false} RunPrefix(c: Config, run: seq<Action>, tail: seq<Action>)
    requires Execute(c, run + tail).Some?
    ensures Execute(c, run).Some?
    ensures |Execute(c, run).value.jobs| <= |Execute(c, run + tail).value.jobs|
  {
    if tail == [] {
      assert run + tail == run;
    } else {
      LastStep(c, run, tail);
      RunPrefix(c, run, tail[..|tail| - 1]);
    }
  }

  /** After any run, the runtime can take only so many further steps of its own accord;
      once it can take none, every job submitted so far has been run once, its id posted
      once, its completion delivered once and its reference dropped once. */
  lemma {:induction false} EveryJobCompletes(c: Config, run: seq<Action>, tail: seq<Action>)
    requires c.Valid() && Execute(c, run + tail).Some? && |Execute(c, run + tail).value.jobs| <= JOB_LIMIT
    requires forall i | 0 <= i < |tail| :: Internal(tail[i])
    ensures Execute(c, run).Some?
    ensures var s, t := Execute(c, run).value, Execute(c, run + tail).value;
            && |tail| + Rank(t) <= Rank(s)
            && (Stuck(c, t) && t.mode != Failed ==> forall n | 0 <= n < |t.jobs| :: t.jobs[n] == Tally(1, 1, 1, 1))
  {
    RunPrefix(c, run, tail);
    var t := Execute(c, run + tail).value;
    RunsKeepInv(c, run + tail);
    if Stuck(c, t) && t.mode != Failed {
      StuckMeansDone(c, t);
    }
    if tail == [] {
      assert run + tail == run;
    } else {
      var shorter, a := tail[..|tail| - 1], tail[|tail| - 1];
      LastStep(c, run, tail);
      EveryJobCompletes(c, run, shorter);
      RunsKeepInv(c, run + shorter);
      InternalRankDrops(c, Execute(c, run + shorter).value, a);
    }
  }

  lemma LastStep(c: Config, run: seq<Action>, tail: seq<Action>)
    requires tail != [] && Execute(c, run + tail).Some?
    ensures var shorter := tail[..|tail| - 1];
            && Execute(c, run + shorter).Some?
            && Step(c, Execute(c, run + shorter).value, tail[|tail| - 1]) == Execute(c, run + tail)
            && |Execute(c, run + shorter).value.jobs| <= |Execute(c, run + tail).value.jobs|
  {
    assert (run + tail)[..|run + tail| - 1] == run + tail[..|tail| - 1];
    JobsGrow(c, Execute(c, run + tail[..|tail| - 1]).value, tail[|tail| - 1]);
  }
}

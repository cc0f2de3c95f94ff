/** What follows for every run: exactly-once jobs, ownership, the bound on the
    completion pipe, the common hand-off behind the three wake-up methods, and
    exactly when draining the pipe goes wrong. */
module ThreadPoolTheorems {
  import opened Wrappers
  import opened ThreadPool
  import opened ThreadPoolSafety

  ghost predicate Reached(c: Config, run: seq<Action>, s: State) {
    c.Valid() && Execute(c, run) == Some(s) && |s.jobs| <= JOB_LIMIT
  }

  /** No job is run, posted, delivered or dropped twice, nor any of these before the one before it. */
  lemma EachJobAtMostOnce(c: Config, run: seq<Action>, s: State, n: nat)
    requires Reached(c, run, s) && n < |s.jobs|
    ensures var t := s.jobs[n]; t.released <= t.delivered <= t.posts <= t.runs <= 1
  {
    RunsKeepInv(c, run);
  }

  lemma WorkerOfRun(c: Config, run: seq<Action>, s: State, w: nat)
    requires Reached(c, run, s) && w < |s.workers|
    ensures WorkerOk(c.wakeup, s.workers[w], CallOn(s.call, w))
  {
    RunsKeepInv(c, run);
  }

  lemma RecordsOfRun(c: Config, run: seq<Action>, s: State)
    requires Reached(c, run, s)
    ensures Duties(s) && Books(s)
  {
    RunsKeepInv(c, run);
  }

  /** A thread that is about to run or post a job holds that job and its id; the job
      has not been run before, is not posted before it has run, and is not dropped. */
  lemma ThreadOwnsItsJob(c: Config, run: seq<Action>, s: State, w: nat)
    requires Reached(c, run, s) && w < |s.workers| && s.workers[w].pc in {Run, Mark, Post}
    ensures var x := s.workers[w];
            && x.localJob.Some? && x.localJob == x.job && x.localId == x.localJob.value
            && x.localJob.value < |s.jobs|
            && s.jobs[x.localJob.value] == Tally(if x.pc == Run then 0 else 1, 0, 0, 0)
            && (forall v | 0 <= v < |s.workers| && v != w :: s.workers[v].pc in {Run, Mark, Post} ==>
                  s.workers[v].localJob != x.localJob)
  {
    RecordsOfRun(c, run, s);
    var n := Holds(c, run, s, w);
    forall v | 0 <= v < |s.workers| && v != w && s.workers[v].pc in {Run, Mark, Post}
      ensures s.workers[v].localJob != s.workers[w].localJob
    {
      var m := Holds(c, run, s, v);
    }
  }

  /** The job a thread is busy with, and that it is the one the tables know. */
  lemma Holds(c: Config, run: seq<Action>, s: State, w: nat) returns (n: nat)
    requires Reached(c, run, s) && w < |s.workers| && s.workers[w].pc in {Run, Mark, Post}
    ensures s.workers[w].localJob == s.workers[w].job == Some(n) && s.workers[w].localId == n && n < |s.jobs|
    ensures n in s.running && s.running[n] == w && CallOn(s.call, w) == NoCall
    ensures s.workers[w].waiting <==> s.workers[w].pc == Post
  {
    WorkerOfRun(c, run, s, w);
    RecordsOfRun(c, run, s);
    assert AssignedTo(s, w) == s.workers[w].job;
    n := s.workers[w].job.value;
  }

  /** A thread reads a null job, and leaves its loop, only inside `free_worker`; the null
      left by `enter_idle` is never read. */
  lemma OnlyFreeEndsAThread(c: Config, run: seq<Action>, s: State, w: nat)
    requires Reached(c, run, s) && w < |s.workers|
    ensures var x := s.workers[w];
            && (x.pc == ReadJob && x.job.None? ==> s.call == Join(w))
            && (x.pc == Exited ==> s.call == Join(w) || x.freed)
            && (x.freed ==> x.pc == Exited && ThreadStep(c.wakeup, x).None?)
            && (s.call == Join(w) ==> x.pc !in {Run, Mark, Post})
  {
    WorkerOfRun(c, run, s, w);
  }

  /** The wake-up object of a worker exists, and the worker is not freed, whenever the
      event loop touches it; SIGUSR2 is sent to live threads only. */
  lemma LoopTouchesLiveWorkers(c: Config, run: seq<Action>, s: State)
    requires Reached(c, run, s)
    ensures s.call != NoCall ==> s.call.w < |s.workers| && s.workers[s.call.w].ready && !s.workers[s.call.w].freed
    ensures forall id | id in s.running :: s.running[id] < |s.workers| && s.workers[s.running[id]].pc != Exited
  {
    RecordsOfRun(c, run, s);
    if s.call != NoCall {
      WorkerOfRun(c, run, s, s.call.w);
    }
    forall id | id in s.running ensures s.workers[s.running[id]].pc != Exited {
      WorkerOfRun(c, run, s, s.running[id]);
    }
  }

  // ----- The order of the jobs -----

  /** Jobs are handed out in the order in which they are submitted: what waits is always the last of them, in order.
      A job waits only while the greatest number of workers is busy. */
  lemma {:induction false} JobsStartInOrder(c: Config, run: seq<Action>, s: State)
    requires Reached(c, run, s)
    ensures |s.queue| <= |s.jobs| && forall i | 0 <= i < |s.queue| :: s.queue[i] == |s.jobs| - |s.queue| + i
    ensures s.queue != [] ==> |s.running| == c.maxWorkers && s.idle == []
  {
    RunsKeepInv(c, run);
    if run != [] {
      var r, a := Execute(c, run[..|run| - 1]).value, run[|run| - 1];
      JobsGrow(c, r, a);
      JobsStartInOrder(c, run[..|run| - 1], r);
      QueueMoves(c, r, a);
    }
  }

  /** A job is queued behind the others, or the first of them is taken. */
  lemma QueueMoves(c: Config, s: State, a: Action)
    requires Step(c, s, a).Some? && (s.queue != [] ==> s.idle == [] && |s.running| == c.maxWorkers)
    ensures var s' := Step(c, s, a).value;
      || (s'.queue == s.queue && (|s'.jobs| == |s.jobs| || (s.queue == [] && |s'.jobs| == |s.jobs| + 1)))
      || (s'.queue == s.queue + [|s.jobs|] && |s'.jobs| == |s.jobs| + 1)
      || (s.queue != [] && s'.queue == s.queue[1..] && |s'.jobs| == |s.jobs|)
  {
    match a
    case ThreadMove(t) => assert MoveThread(c, s, t).value.queue == s.queue;
    case Submit => assert |SubmitJob(c, s).jobs| == |s.jobs| + 1;
    case HandleNext => assert |HandleId(s.(batch := s.batch[1..]), s.batch[0]).jobs| == |s.jobs|;
    case CallMove => assert MoveCall(c, s).value.queue == s.queue;
    case _ =>
  }

  // ----- The completion pipe -----

  /** The pipe never holds more than one completion per worker, nor more than `maxWorkers`. */
  lemma PipeIsBounded(c: Config, run: seq<Action>, s: State)
    requires Reached(c, run, s)
    ensures |Completions(s.batch + s.pipe)| <= |s.running| <= |s.workers|
    ensures |s.workers| <= c.maxWorkers || s.mode in {Closing, Closed}
    ensures NoDuplicates(Completions(s.batch + s.pipe))
  {
    RunsKeepInv(c, run);
    DistinctKeys(Pending(s), s.running);
  }

  /** How many signals arrived during a run. */
  function Signals(run: seq<Action>): nat {
    if run == [] then 0 else Signals(run[..|run| - 1]) + Flag(run[|run| - 1].SignalArrives?)
  }

  /** What else is in the pipe is one message for each signal. */
  lemma {:induction false} PipeLength(c: Config, run: seq<Action>, s: State)
    requires Reached(c, run, s)
    ensures |s.batch| + |s.pipe| <= |Pending(s)| + Signals(run)
  {
    if run != [] {
      var r, a := Execute(c, run[..|run| - 1]).value, run[|run| - 1];
      JobsGrow(c, r, a);
      PipeLength(c, run[..|run| - 1], r);
      RunsKeepInv(c, run[..|run| - 1]);
      StepLength(c, r, a);
    }
  }

  function Excess(s: State): int { |s.batch| + |s.pipe| - |Pending(s)| }

  lemma StepLength(c: Config, s: State, a: Action)
    requires Inv(c, s) && Step(c, s, a).Some?
    ensures Excess(Step(c, s, a).value) <= Excess(s) + Flag(a.SignalArrives?)
  {
    var s' := Step(c, s, a).value;
    match a
    case ThreadMove(t) => ThreadLength(c, s, t);
    case SignalArrives(signal) => MessageLength(s, s', SignalId(signal));
    case HandleNext => HandleLength(s);
    case Poll(_) => TakenLength(c, s, a);
    case Fetch => TakenLength(c, s, a);
    case CallMove => CallLength(c, s);
    case _ => OtherLength(c, s, a);
  }

  lemma OtherLength(c: Config, s: State, a: Action)
    requires Step(c, s, a).Some? && !a.ThreadMove? && !a.SignalArrives? && !a.HandleNext? && !a.CallMove?
    requires !a.Poll? && !a.Fetch?
    ensures Excess(Step(c, s, a).value) == Excess(s)
  {
  }

  lemma HandleLength(s: State)
    requires s.batch != []
    ensures Excess(HandleId(s.(batch := s.batch[1..]), s.batch[0])) <= Excess(s)
  {
    NextMessage(s);
  }

  lemma TakenLength(c: Config, s: State, a: Action)
    requires Desk(c, s) && Step(c, s, a).Some? && (a.Poll? || a.Fetch?)
    ensures Excess(Step(c, s, a).value) == Excess(s)
  {
    var s' := Step(c, s, a).value;
    assert s'.batch + s'.pipe == s.batch + s.pipe;
  }

  lemma CallLength(c: Config, s: State)
    requires MoveCall(c, s).Some?
    ensures Excess(MoveCall(c, s).value) == Excess(s)
  {
  }

  lemma ThreadLength(c: Config, s: State, t: nat)
    requires Inv(c, s) && t < |s.workers| && MoveThread(c, s, t).Some?
    ensures Excess(MoveThread(c, s, t).value) == Excess(s)
  {
    var x := s.workers[t];
    ThreadLocal(c.wakeup, x, CallOn(s.call, t));
    if x.pc == Post {
      assert AssignedTo(s, t) == x.job;
      MessageLength(s, MoveThread(c, s, t).value, x.localId);
    }
  }

  lemma MessageLength(s: State, s': State, id: int)
    requires s'.batch == s.batch && s'.pipe == s.pipe + [id]
    ensures Excess(s') == Excess(s) + Flag(id < 0)
  {
    assert s'.batch + s'.pipe == (s.batch + s.pipe) + [id];
    CompletionsSnoc(s.batch + s.pipe, id);
  }

  // ----- One hand-off behind three wake-up methods -----

  /** A worker as a one-place mailbox: the event loop fills it, the thread takes the job
      out, runs it and posts its completion, and the event loop empties the place again. */
  datatype Slot = Empty | Full(job: Option<nat>) | Taken(job: Option<nat>) | Ran(n: nat) | Told(n: nat) | Gone

  predicate SlotMoves(a: Slot, b: Slot) {
    || (a.Empty? && b.Full?)
    || (a.Full? && b == Taken(a.job))
    || (a.Taken? && b == (match a.job case Some(n) => Ran(n) case None => Gone))
    || (a.Ran? && b == Told(a.n))
    || (a.Told? && b.Empty?)
  }

  /** One step of the mailboxes; no wake-up method is mentioned. */
  ghost predicate HandOff(p: seq<Slot>, q: seq<Slot>) {
    || p == q
    || (|q| == |p| + 1 && q[..|p|] == p && q[|p|].Full? && q[|p|].job.Some?)
    || (|q| == |p| && exists w | 0 <= w < |p| :: q == p[w := q[w]] && SlotMoves(p[w], q[w]))
  }

  function SlotOf(m: Wakeup, x: Worker, call: Call): Slot {
    if x.pc == Exited then Gone
    else if call.Wake? || call.EnterIdle? || (call.NoCall? && x.job.None?) then Empty
    else if Woken(m, x) || x.pc in {ReadId, ReadJob} then Full(x.job)
    else if x.pc in {Create, Test, Run} then Taken(x.job)
    else
      var n := if x.job.Some? then x.job.value else 0;
      if Posted(x) then Told(n) else Ran(n)
  }

  function Slots(c: Config, s: State): (q: seq<Slot>)
    ensures |q| == |s.workers|
    ensures forall w | 0 <= w < |q| :: q[w] == SlotOf(c.wakeup, s.workers[w], CallOn(s.call, w))
  {
    seq(|s.workers|, w requires 0 <= w < |s.workers| => SlotOf(c.wakeup, s.workers[w], CallOn(s.call, w)))
  }

  lemma ThreadSlot(m: Wakeup, x: Worker, call: Call)
    requires WorkerOk(m, x, call) && ThreadStep(m, x).Some?
    ensures var p, q := SlotOf(m, x, call), SlotOf(m, ThreadStep(m, x).value, call); p == q || SlotMoves(p, q)
  {
  }

  /** One worker changes, or none. */
  lemma OneSlot(c: Config, s: State, s': State, w: nat)
    requires w < |s.workers| == |s'.workers|
    requires forall v | 0 <= v < |s.workers| && v != w ::
               s'.workers[v] == s.workers[v] && CallOn(s'.call, v) == CallOn(s.call, v)
    requires var p, q := Slots(c, s), Slots(c, s'); p[w] == q[w] || SlotMoves(p[w], q[w])
    ensures HandOff(Slots(c, s), Slots(c, s'))
  {
    var p, q := Slots(c, s), Slots(c, s');
    assert q == p[w := q[w]];
    if p[w] == q[w] { assert q == p; }
  }

  lemma CallSlot(c: Config, s: State)
    requires Inv(c, s) && MoveCall(c, s).Some?
    ensures HandOff(Slots(c, s), Slots(c, MoveCall(c, s).value))
  {
    CallSlotLocal(c, s);
    OneSlot(c, s, MoveCall(c, s).value, s.call.w);
  }

  lemma CallSlotLocal(c: Config, s: State)
    requires Fleet(c, s) && Duties(s) && MoveCall(c, s).Some?
    ensures var w, s' := s.call.w, MoveCall(c, s).value;
            && w < |s.workers| == |s'.workers|
            && (forall v | 0 <= v < |s.workers| && v != w ::
                  s'.workers[v] == s.workers[v] && CallOn(s'.call, v) == CallOn(s.call, v))
            && var p, q := SlotOf(c.wakeup, s.workers[w], CallOn(s.call, w)),
                           SlotOf(c.wakeup, s'.workers[w], CallOn(s'.call, w));
            p == q || SlotMoves(p, q)
  {
    assert WorkerOk(c.wakeup, s.workers[s.call.w], s.call) by { assert CallOn(s.call, s.call.w) == s.call; }
  }

  lemma SubmitSlot(c: Config, s: State)
    requires Inv(c, s) && s.mode == Coroutines && s.call == NoCall
    ensures HandOff(Slots(c, s), Slots(c, SubmitJob(c, s)))
  {
    var s' := SubmitJob(c, s);
    if s.idle != [] {
      OneSlot(c, s, s', s.idle[0]);
    } else if |s.running| < c.maxWorkers {
      assert Slots(c, s')[..|s.workers|] == Slots(c, s);
    } else {
      assert Slots(c, s') == Slots(c, s);
    }
  }

  lemma HandleSlot(c: Config, s: State)
    requires Inv(c, s) && s.mode.Handling? && s.call == NoCall && s.batch != []
    ensures HandOff(Slots(c, s), Slots(c, HandleId(s.(batch := s.batch[1..]), s.batch[0])))
  {
    var id, s' := s.batch[0], HandleId(s.(batch := s.batch[1..]), s.batch[0]);
    NextMessage(s);
    if id < 0 {
      assert Slots(c, s') == Slots(c, s);
    } else {
      var t := s.running[id];
      assert AssignedTo(s, t) == Some(id) && id == Pending(s)[0] && id in Pending(s);
      OneSlot(c, s, s', t);
    }
  }

  lemma ThreadHandsOff(c: Config, s: State, a: Action)
    requires Fleet(c, s) && Step(c, s, a).Some? && ByThread(a)
    ensures HandOff(Slots(c, s), Slots(c, Step(c, s, a).value))
  {
    var s' := Step(c, s, a).value;
    assert WorkerOk(c.wakeup, s.workers[a.t], CallOn(s.call, a.t));
    if a.ThreadMove? {
      ThreadSlot(c.wakeup, s.workers[a.t], CallOn(s.call, a.t));
      assert s'.workers == s.workers[a.t := ThreadStep(c.wakeup, s.workers[a.t]).value];
    }
    OneSlot(c, s, s', a.t);
  }

  lemma CloseSlot(c: Config, s: State)
    requires Inv(c, s) && Step(c, s, CloseNext).Some?
    ensures HandOff(Slots(c, s), Slots(c, Step(c, s, CloseNext).value))
  {
    var w, s' := s.idle[0], Step(c, s, CloseNext).value;
    assert w < |s.workers| && AssignedTo(s, w).None?;
    assert SlotOf(c.wakeup, s.workers[w], CallOn(s.call, w)) == SlotOf(c.wakeup, s'.workers[w], CallOn(s'.call, w));
    OneSlot(c, s, s', w);
  }

  /** Whatever the wake-up method, every action is one hand-off step or none at all. */
  lemma EveryMethodHandsOff(c: Config, s: State, a: Action)
    requires Inv(c, s) && Step(c, s, a).Some?
    ensures HandOff(Slots(c, s), Slots(c, Step(c, s, a).value))
  {
    if ByThread(a) { ThreadHandsOff(c, s, a); }
    else if a.Submit? { SubmitSlot(c, s); }
    else if a.HandleNext? { HandleSlot(c, s); }
    else if a.CallMove? { CallSlot(c, s); }
    else if a.CloseNext? { CloseSlot(c, s); }
    else if a.Cancel? { OneSlot(c, s, Step(c, s, a).value, s.running[a.id]); }
    else { assert Slots(c, Step(c, s, a).value) == Slots(c, s); }
  }

  // ----- When draining the completion pipe fails -----

  /** The event loop reads on only after a full batch, so with fewer workers and signals
      than buffer places it never meets an empty pipe. */
  lemma {:induction false} FewWorkersNeverFail(c: Config, run: seq<Action>, s: State)
    requires Reached(c, run, s) && |s.workers| + Signals(run) < c.bufLen
    ensures s.mode != Failed && s.mode != Handling(true) && (s.mode == Drain ==> s.pipe != [])
  {
    if run != [] {
      var r := Execute(c, run[..|run| - 1]).value;
      JobsGrow(c, r, run[|run| - 1]);
      WorkersGrow(c, r, run[|run| - 1]);
      FewWorkersNeverFail(c, run[..|run| - 1], r);
      PipeIsBounded(c, run[..|run| - 1], r);
      PipeLength(c, run[..|run| - 1], r);
      RunsKeepInv(c, run[..|run| - 1]);
      FewWorkersStep(c, r, run[|run| - 1]);
    }
  }

  lemma WorkersGrow(c: Config, s: State, a: Action)
    requires Step(c, s, a).Some?
    ensures |s.workers| <= |Step(c, s, a).value.workers|
  {
  }

  predicate HeadRunning(s: State) { s.batch != [] && s.batch[0] >= 0 ==> s.batch[0] in s.running }

  lemma PendingHead(c: Config, s: State)
    requires Inv(c, s)
    ensures HeadRunning(s)
  {
    if s.batch != [] { NextMessage(s); }
  }

  /** Only a read of an empty pipe makes the event loop fail. */
  lemma OnlyReadingFails(c: Config, r: State, a: Action)
    requires HeadRunning(r) && c.Valid() && Step(c, r, a).Some? && r.mode != Failed
    ensures Step(c, r, a).value.mode == Failed ==> a == Fetch && r.mode == Drain && r.pipe == []
  {
  }

  lemma FewWorkersStep(c: Config, r: State, a: Action)
    requires Inv(c, r) && Step(c, r, a).Some? && |r.pipe| < c.bufLen
    requires r.mode != Failed && r.mode != Handling(true) && (r.mode == Drain ==> r.pipe != [])
    ensures var s := Step(c, r, a).value;
            s.mode != Failed && s.mode != Handling(true) && (s.mode == Drain ==> s.pipe != [])
  {
    PendingHead(c, r);
    OnlyReadingFails(c, r, a);
    DrainingModes(c, r, a);
  }

  lemma DrainingModes(c: Config, r: State, a: Action)
    requires HeadRunning(r) && c.Valid() && Step(c, r, a).Some? && |r.pipe| < c.bufLen
    requires r.mode != Failed && r.mode != Handling(true) && (r.mode == Drain ==> r.pipe != [])
    ensures var s := Step(c, r, a).value; s.mode != Handling(true) && (s.mode == Drain ==> s.pipe != [])
  {
  }

  /** A completion port hands out packets directly and never fails this way. */
  lemma {:induction false} CompletionPortNeverFails(c: Config, run: seq<Action>, s: State)
    requires Reached(c, run, s) && c.wakeup == Event
    ensures s.mode != Failed
  {
    if run != [] {
      var r := Execute(c, run[..|run| - 1]).value;
      JobsGrow(c, r, run[|run| - 1]);
      CompletionPortNeverFails(c, run[..|run| - 1], r);
      RunsKeepInv(c, run[..|run| - 1]);
      PendingHead(c, r);
      OnlyReadingFails(c, r, run[|run| - 1]);
    }
  }

  /** A run with one more action. */
  lemma Then(c: Config, run: seq<Action>, s: State, a: Action) returns (run': seq<Action>, s': State)
    requires Execute(c, run) == Some(s) && Step(c, s, a).Some?
    ensures Execute(c, run') == Some(s') && s' == Step(c, s, a).value
    ensures Signals(run') == Signals(run) + Flag(a.SignalArrives?)
  {
    run', s' := run + [a], Step(c, s, a).value;
    assert run'[..|run'| - 1] == run;
  }

  /** `k` workers, each with its completion in the pipe, behind `j` signals. */
  predicate AllPosted(s: State, k: nat, j: nat) {
    && s.mode == Coroutines && s.call == NoCall && s.idle == [] && s.batch == [] && s.queue == []
    && |s.workers| == |s.running| == |s.jobs| == k && |s.pipe| == k + j
    && (k > 0 ==> s.edge)
  }

  /** A fresh thread gets from its first statement to its job, undisturbed. */
  lemma FreshThreadRuns(c: Config, run: seq<Action>, s: State, t: nat) returns (run': seq<Action>, s': State)
    requires Execute(c, run) == Some(s) && t < |s.workers|
    requires exists id, j :: s.workers[t] == Spawned(id, j)
    ensures Execute(c, run') == Some(s') && Signals(run') == Signals(run)
    ensures |s'.workers| == |s.workers| && s'.workers[t].pc == Run && s'.workers[t].localJob == s.workers[t].job
    ensures s'.pipe == s.pipe && SameLoop(s, s')
  {
    run', s' := run, s;
    for i := 0 to 4
      invariant Execute(c, run') == Some(s') && Signals(run') == Signals(run)
      invariant |s'.workers| == |s.workers| && OnTheWay(s'.workers[t], i)
      invariant s'.workers[t].job == s.workers[t].job && s'.pipe == s.pipe && SameLoop(s, s')
    {
      FreshStep(c.wakeup, s'.workers[t], i);
      ThreadPath(c, s', t);
      run', s' := Then(c, run', s', ThreadMove(t));
    }
  }

  /** A fresh thread after its first `i` statements. */
  predicate OnTheWay(x: Worker, i: nat) {
    && x.job.Some? && (i < 2 ==> !x.ready) && (i >= 2 ==> x.localJob == x.job)
    && x.pc == match i case 0 => ReadId case 1 => ReadJob case 2 => Create case 3 => Test case _ => Run
  }

  lemma FreshStep(m: Wakeup, x: Worker, i: nat)
    requires OnTheWay(x, i) && i < 4
    ensures ThreadStep(m, x).Some? && OnTheWay(ThreadStep(m, x).value, i + 1)
    ensures ThreadStep(m, x).value.job == x.job
  {
  }

  /** What a step of a thread leaves alone. */
  lemma ThreadPath(c: Config, s: State, t: nat)
    requires t < |s.workers| && MoveThread(c, s, t).Some?
    ensures var x, s' := s.workers[t], MoveThread(c, s, t).value;
      s'.workers == s.workers[t := ThreadStep(c.wakeup, x).value] && SameLoop(s, s')
      && (if x.pc == Post then s'.pipe == s.pipe + [x.localId] && s'.edge else s'.pipe == s.pipe && s'.edge == s.edge)
  {
  }

  /** A thread gets from its job to its completion. */
  lemma RunningThreadPosts(c: Config, run: seq<Action>, s: State, t: nat) returns (run': seq<Action>, s': State)
    requires Execute(c, run) == Some(s) && t < |s.workers| && s.workers[t].pc == Run
    ensures Execute(c, run') == Some(s') && Signals(run') == Signals(run)
    ensures |s'.workers| == |s.workers| && |s'.pipe| == |s.pipe| + 1 && s'.edge && SameLoop(s, s')
  {
    ThreadPath(c, s, t);
    run', s' := Then(c, run, s, ThreadMove(t));
    ThreadPath(c, s', t);
    run', s' := Then(c, run', s', ThreadMove(t));
    ThreadPath(c, s', t);
    run', s' := Then(c, run', s', ThreadMove(t));
  }

  /** While the first job runs, any number of signals may arrive. */
  lemma {:induction false} ManySignals(c: Config, run: seq<Action>, s: State, j: nat)
      returns (run': seq<Action>, s': State)
    requires Execute(c, run) == Some(s) && HandlesSignals(s)
    ensures Execute(c, run') == Some(s') && Signals(run') == Signals(run) + j
    ensures s'.workers == s.workers && |s'.pipe| == |s.pipe| + j && SameLoop(s, s')
  {
    if j == 0 {
      run', s' := run, s;
    } else {
      run', s' := ManySignals(c, run, s, j - 1);
      run', s' := Then(c, run', s', SignalArrives(j));
    }
  }

  predicate SameLoop(s: State, s': State) {
    && s'.running == s.running && s'.idle == s.idle && s'.queue == s.queue
    && s'.mode == s.mode && s'.call == s.call && s'.batch == s.batch && |s'.jobs| == |s.jobs|
  }

  /** The first job passes on `j` signals and completes. */
  lemma FirstPosted(c: Config, j: nat) returns (run: seq<Action>, s: State)
    requires c.Valid()
    ensures Execute(c, run) == Some(s) && AllPosted(s, 1, j) && Signals(run) == j
  {
    run, s := Then(c, [], Init, Submit);
    run, s := FreshThreadRuns(c, run, s, 0);
    assert HandlesSignals(s);
    run, s := ManySignals(c, run, s, j);
    run, s := RunningThreadPosts(c, run, s, 0);
  }

  lemma {:induction false} ManyPosted(c: Config, k: nat, j: nat) returns (run: seq<Action>, s: State)
    requires c.Valid() && 0 < k <= c.maxWorkers
    ensures Execute(c, run) == Some(s) && AllPosted(s, k, j) && Signals(run) == j
  {
    if k == 1 {
      run, s := FirstPosted(c, j);
    } else {
      run, s := ManyPosted(c, k - 1, j);
      RunsKeepInv(c, run);
      NextSpawn(c, s, k - 1, j);
      run, s := Then(c, run, s, Submit);
      run, s := FreshThreadRuns(c, run, s, k - 1);
      run, s := RunningThreadPosts(c, run, s, k - 1);
    }
  }

  lemma NextSpawn(c: Config, s: State, k: nat, j: nat)
    requires c.Valid() && Duties(s) && AllPosted(s, k, j) && k < c.maxWorkers
    ensures var s' := SubmitJob(c, s);
            && |s'.workers| == |s'.running| == |s'.jobs| == k + 1 && s'.workers[k] == Spawned(Wrap(k), k)
            && s'.idle == [] && s'.mode == Coroutines && s'.call == NoCall && s'.batch == [] && s'.queue == []
            && s'.pipe == s.pipe
  {
    assert Wrap(k) !in s.running;
  }

  lemma HeadOfRun(c: Config, run: seq<Action>, s: State)
    requires Reached(c, run, s) && s.batch != [] && s.batch[0] >= 0
    ensures s.batch[0] in s.running && s.running[s.batch[0]] < |s.workers|
  {
    RunsKeepInv(c, run);
    PendingHead(c, s);
  }

  lemma {:induction false} DrainBatch(c: Config, run: seq<Action>, s: State) returns (run': seq<Action>, s': State)
    requires Reached(c, run, s) && s.mode == Handling(true) && s.call == NoCall && s.pipe == [] && s.queue == []
    ensures Reached(c, run', s') && s'.mode == Handling(true) && s'.call == NoCall && s'.pipe == [] && s'.batch == []
    ensures Signals(run') == Signals(run)
    decreases |s.batch|
  {
    run', s' := run, s;
    if s.batch != [] {
      if s.batch[0] >= 0 { HeadOfRun(c, run, s); }
      run', s' := Then(c, run, s, HandleNext);
      if s.batch[0] >= 0 {
        run', s' := Then(c, run', s', CallMove);
        run', s' := Then(c, run', s', CallMove);
      }
      run', s' := DrainBatch(c, run', s');
    }
  }

  /** With as many workers and signals as buffer places, all their messages coming at once make the
      event loop read an empty pipe and raise. */
  lemma EnoughMessagesCanFail(c: Config, k: nat) returns (run: seq<Action>, s: State)
    requires c.Valid() && c.wakeup != Event && c.bufLen <= c.maxWorkers + k
    ensures Reached(c, run, s) && Signals(run) <= k && s.mode == Failed
  {
    run, s := FullBatch(c, k);
    run, s := DrainBatch(c, run, s);
    run, s := Then(c, run, s, EndBatch);
    run, s := Then(c, run, s, Fetch);
  }

  lemma FullBatch(c: Config, k: nat) returns (run: seq<Action>, s: State)
    requires c.Valid() && c.wakeup != Event && c.bufLen <= c.maxWorkers + k
    ensures Reached(c, run, s) && Signals(run) <= k
    ensures s.mode == Handling(true) && s.call == NoCall && s.pipe == [] && s.queue == []
  {
    var workers := if c.bufLen < c.maxWorkers then c.bufLen else c.maxWorkers;
    run, s := ManyPosted(c, workers, c.bufLen - workers);
    run, s := Then(c, run, s, Poll(1));
    run, s := Then(c, run, s, Fetch);
  }

  /** With at most `k` signals, draining the pipe can fail exactly when workers and signals can fill the buffer.
      The event loop sets both `maxWorkers` and `bufLen` to 1024, so it can fail without any signal; with
      a smaller pool it still can when enough signals arrive at once. */
  lemma DrainFailsIff(c: Config, k: nat)
    requires c.Valid()
    ensures (exists run, s :: Reached(c, run, s) && Signals(run) <= k && s.mode == Failed)
            <==> c.wakeup != Event && c.bufLen <= c.maxWorkers + k
  {
    if c.wakeup != Event && c.bufLen <= c.maxWorkers + k {
      var run, s := EnoughMessagesCanFail(c, k);
    }
    forall run, s | Reached(c, run, s) && Signals(run) <= k && s.mode == Failed
      ensures c.wakeup != Event && c.bufLen <= c.maxWorkers + k
    {
      if c.wakeup == Event { CompletionPortNeverFails(c, run, s); }
      PipeIsBounded(c, run, s);
      if |s.workers| + Signals(run) < c.bufLen { FewWorkersNeverFail(c, run, s); }
    }
  }
}

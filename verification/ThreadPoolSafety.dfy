/** What every interleaving of the thread pool keeps. */
module ThreadPoolSafety {
  import opened Wrappers
  import opened ThreadPool

  // ----- The invariant -----

  /** The event loop's current call, if it is a call on worker `w`. */
  function CallOn(call: Call, w: nat): Call {
    if call != NoCall && call.w == w then call else NoCall
  }

  /** The job a worker is in charge of, as far as the event loop is concerned. */
  function Assigned(x: Worker, call: Call): Option<nat> {
    match call
    case NoCall => x.job
    case Wake(_, _, job, _) => job
    case EnterIdle(_, _) => None
    case Join(_) => None
  }

  /** The thread has parked, or is about to, and nobody has woken it. */
  predicate Asleep(x: Worker) {
    x.waiting && x.pc in {Block, CvCheck, CvSleep, CvRelock} && !x.token
  }

  /** A wake-up is on its way and the thread has not passed it yet. */
  predicate Woken(m: Wakeup, x: Worker) {
    && !x.waiting
    && if m == CondVar then x.pc in {Block, CvCheck, CvRelock, CvUnlock} || (x.pc == CvSleep && x.token)
       else x.pc == Block && x.token
  }

  /** The thread is between its wake-up and its next completion. */
  predicate Serving(x: Worker) {
    && !x.token
    && (x.waiting <==> x.pc == Post)
    && x.pc in (if x.job.Some? then {ReadId, ReadJob, Create, Test, Run, Mark, Post}
                else {ReadId, ReadJob, Test, Exited})
    && (x.pc in {ReadJob, Create, Test, Run, Mark, Post} ==> x.localId == x.jobId)
    && (x.pc in {Create, Test, Run, Mark, Post} ==> x.localJob == x.job)
    && (x.job.None? ==> x.ready)
  }

  /** The completion is in the pipe, or has been taken out of it. */
  predicate Posted(x: Worker) { x.waiting && x.pc != Post }

  predicate Shape(m: Wakeup, x: Worker, call: Call) {
    && (x.pc in {CvCheck, CvSleep, CvRelock, CvUnlock} ==> m == CondVar)
    && (x.token ==> x.pc == if m == CondVar then CvSleep else Block)
    && (x.lock == Thread <==> x.pc in {CvCheck, CvUnlock})
    && (x.lock == Loop <==> m == CondVar && call.Wake? && call.stage in {Clear, Notify, Unlock})
    && (x.pc !in {ReadId, ReadJob, Create} ==> x.ready)
    && (x.freed ==> x.pc == Exited && x.job.None? && call == NoCall)
  }

  predicate WorkerOk(m: Wakeup, x: Worker, call: Call) {
    && Shape(m, x, call)
    && match call
       case NoCall =>
         if x.job.None? then x.freed || Asleep(x)
         else Serving(x) || Asleep(x) || Woken(m, x)
       case EnterIdle(_, _) => Asleep(x)
       case Join(_) => x.job.None? && (Serving(x) || Woken(m, x))
       case Wake(_, id, job, stage) =>
         && (stage in {Clear, Notify, Lock, Unlock} ==> x.job == job)
         && (stage !in {Release, SetId} ==> x.jobId == id)
         && (stage in {Lock, Unlock} ==> m == CondVar)
         && (match stage
             case Notify => !x.waiting && !x.token && x.pc in {Block, CvSleep, CvRelock}
             case Unlock => Woken(m, x)
             case _ => Asleep(x))
  }

  ghost predicate Fleet(c: Config, s: State) {
    forall w | 0 <= w < |s.workers| :: WorkerOk(c.wakeup, s.workers[w], CallOn(s.call, w))
  }

  function AssignedTo(s: State, w: nat): Option<nat>
    requires w < |s.workers|
  {
    Assigned(s.workers[w], CallOn(s.call, w))
  }

  ghost predicate NoDuplicates<T(!new)>(q: seq<T>) {
    forall i, j | 0 <= i < j < |q| :: q[i] != q[j]
  }

  predicate Retiring(s: State, w: nat) {
    (s.call.Wake? && s.call.job.None? && s.call.w == w) || s.call == Join(w)
  }

  /** `running_workers`, `idle_workers` and the workers' own records agree. */
  ghost predicate Duties(s: State) {
    && (s.call != NoCall ==> s.call.w < |s.workers|)
    && (forall n | n in s.running :: 0 <= n < |s.jobs| && s.running[n] < |s.workers|
                                     && AssignedTo(s, s.running[n]) == Some(n)
                                     && (s.workers[s.running[n]].jobId == n || CallOn(s.call, s.running[n]) != NoCall))
    && (forall w | 0 <= w < |s.workers| && AssignedTo(s, w).Some? ::
          AssignedTo(s, w).value in s.running && s.running[AssignedTo(s, w).value] == w)
    && (forall i | 0 <= i < |s.idle| :: s.idle[i] < |s.workers| && AssignedTo(s, s.idle[i]).None?
                                        && !s.workers[s.idle[i]].freed && !Retiring(s, s.idle[i]))
    && (forall w | 0 <= w < |s.workers| && AssignedTo(s, w).None? ::
          w in s.idle || s.workers[w].freed || Retiring(s, w))
    && NoDuplicates(s.idle)
    && (s.call.Wake? ==> s.call.id == (if s.call.job.Some? then s.call.job.value else 0))
  }

  /** The completions among the messages of the pipe; the others are signals. */
  function Completions(q: seq<int>): seq<int> {
    if q == [] then []
    else Completions(q[..|q| - 1]) + if q[|q| - 1] >= 0 then [q[|q| - 1]] else []
  }

  lemma CompletionsSnoc(q: seq<int>, id: int)
    ensures Completions(q + [id]) == Completions(q) + if id >= 0 then [id] else []
  {
    assert (q + [id])[..|q|] == q;
  }

  lemma {:induction false} CompletionsHead(q: seq<int>)
    requires q != []
    ensures Completions(q) == (if q[0] >= 0 then [q[0]] else []) + Completions(q[1..])
  {
    var front, last := q[..|q| - 1], q[|q| - 1];
    if front != [] {
      CompletionsHead(front);
      assert q[1..] == front[1..] + [last];
      CompletionsSnoc(front[1..], last);
    }
  }

  /** Completions posted and not yet handled, oldest first. */
  function Pending(s: State): seq<int> { Completions(s.batch + s.pipe) }

  lemma {:induction false} DistinctKeys(q: seq<int>, m: map<int, nat>)
    requires NoDuplicates(q) && forall i | 0 <= i < |q| :: q[i] in m
    ensures |q| <= |m|
  {
    if q != [] {
      var x := q[0];
      forall i | 0 <= i < |q[1..]| ensures q[1..][i] in m - {x} {
        assert q[1..][i] == q[i + 1] && q[i + 1] != q[0];
      }
      DistinctKeys(q[1..], m - {x});
    }
  }

  ghost predicate Mail(s: State) {
    && NoDuplicates(Pending(s))
    && (forall i | 0 <= i < |Pending(s)| :: Pending(s)[i] in s.running)
    && (forall n | n in s.running && s.running[n] < |s.workers| ::
          n in Pending(s) <==> CallOn(s.call, s.running[n]) == NoCall && Posted(s.workers[s.running[n]]))
  }

  /** The finished job whose reference the event loop is just about to drop. */
  function Dropping(s: State): Option<nat> {
    if ((s.call.Wake? && s.call.stage == Release) || (s.call.EnterIdle? && !s.call.released))
       && s.call.w < |s.workers|
    then s.workers[s.call.w].job else None
  }

  function Flag(b: bool): nat { if b then 1 else 0 }

  predicate HasRun(x: Worker) { x.pc == Mark || x.waiting }

  function Expected(s: State, n: nat): Tally {
    if n in s.running && s.running[n] < |s.workers| then
      var x := s.workers[s.running[n]];
      var mine := CallOn(s.call, s.running[n]) == NoCall;
      Tally(Flag(mine && HasRun(x)), Flag(mine && Posted(x)), 0, 0)
    else if n in s.queue then Tally(0, 0, 0, 0)
    else Tally(1, 1, 1, Flag(Dropping(s) != Some(n)))
  }

  ghost predicate Books(s: State) {
    forall n | 0 <= n < |s.jobs| :: s.jobs[n] == Expected(s, n)
  }

  ghost predicate Desk(c: Config, s: State) {
    && NoDuplicates(s.queue)
    && (forall i | 0 <= i < |s.queue| :: s.queue[i] < |s.jobs| && s.queue[i] !in s.running)
    && (s.queue != [] ==> s.idle == [] && |s.running| == c.maxWorkers)
    && |s.running| + |s.idle| <= c.maxWorkers
    && (!s.mode.Closing? && !s.mode.Closed? ==> |s.workers| == |s.running| + |s.idle|)
    && (s.mode.Closing? || s.mode.Closed? ==> s.running == map[])
    && (s.mode.Closed? ==> s.idle == [])
    && (!s.mode.Handling? ==> s.batch == [])
    && (s.mode.Drain? || s.mode.Failed? || s.mode.Closed? ==> s.call == NoCall)
    && (s.call.Join? || (s.call.Wake? && s.call.job.None?) ==> s.mode == Closing)
    && (s.call.EnterIdle? ==> s.mode.Handling?)
    && (c.wakeup != Event && s.pipe != [] ==> s.edge || s.mode == Drain || s.mode == Handling(true))
    && (c.wakeup == Event ==> s.mode != Drain && s.mode != Handling(true))
    && |s.jobs| <= JOB_LIMIT
    && (Dropping(s).Some? ==>
          var n := Dropping(s).value; n < |s.jobs| && n !in s.running && n !in s.queue)
  }

  ghost predicate Inv(c: Config, s: State) {
    c.Valid() && Fleet(c, s) && Duties(s) && Mail(s) && Books(s) && Desk(c, s)
  }

  lemma InitInv(c: Config)
    requires c.Valid()
    ensures Inv(c, Init)
  {
  }

  // ----- Steps of the worker threads -----

  lemma ThreadLocal(m: Wakeup, x: Worker, call: Call)
    requires WorkerOk(m, x, call) && ThreadStep(m, x).Some?
    ensures var y := ThreadStep(m, x).value;
            && WorkerOk(m, y, call)
            && y.job == x.job && y.jobId == x.jobId && y.freed == x.freed
            && (x.pc != Post ==> (Posted(y) <==> Posted(x)))
            && (x.pc != Run ==> (HasRun(y) <==> HasRun(x)))
            && (x.pc in {Run, Post} ==> call == NoCall && x.job.Some? && x.localJob == x.job && x.localId == x.jobId)
            && (x.pc == Run ==> !HasRun(x) && HasRun(y))
            && (x.pc == Post ==> !Posted(x) && Posted(y))
  {
  }

  /** A thread moves: it may run its job, or post it, or neither. */
  ghost predicate ThreadGoes(c: Config, s: State, s': State, t: nat) {
    && t < |s.workers| == |s'.workers| && (forall w | 0 <= w < |s.workers| && w != t :: s'.workers[w] == s.workers[w])
    && s'.running == s.running && s'.idle == s.idle && s'.queue == s.queue
    && s'.mode == s.mode && s'.batch == s.batch && s'.call == s.call
    && var x, y, runs, posts := s.workers[t], s'.workers[t], s.workers[t].pc == Run, s.workers[t].pc == Post;
    && WorkerOk(c.wakeup, y, CallOn(s.call, t)) && y.job == x.job && y.jobId == x.jobId && y.freed == x.freed
    && (runs || posts ==> CallOn(s.call, t) == NoCall && x.job.Some?)
    && (HasRun(y) <==> HasRun(x) || runs) && !(runs && HasRun(x))
    && (Posted(y) <==> Posted(x) || posts) && !(posts && Posted(x))
    && s'.jobs == (if runs then Bump(s.jobs, x.job, DidRun) else if posts then Bump(s.jobs, x.job, DidPost) else s.jobs)
    && s'.pipe == (if posts then s.pipe + [x.jobId] else s.pipe) && s'.edge == (posts || s.edge)
  }

  lemma ThreadEffect(c: Config, s: State, t: nat)
    requires Fleet(c, s) && t < |s.workers| && MoveThread(c, s, t).Some?
    ensures ThreadGoes(c, s, MoveThread(c, s, t).value, t)
  {
    ThreadLocal(c.wakeup, s.workers[t], CallOn(s.call, t));
  }

  lemma ThreadMoveOk(c: Config, s: State, t: nat)
    requires Inv(c, s) && t < |s.workers| && MoveThread(c, s, t).Some?
    ensures Inv(c, MoveThread(c, s, t).value)
  {
    ThreadEffect(c, s, t);
    ThreadGoesOk(c, s, MoveThread(c, s, t).value, t);
  }

  lemma ThreadGoesOk(c: Config, s: State, s': State, t: nat)
    requires Inv(c, s) && ThreadGoes(c, s, s', t)
    ensures Inv(c, s')
  {
    assert Fleet(c, s');
    DutiesFrame(s, s');
    ThreadDesk(c, s, s', t);
    ThreadMail(c, s, s', t);
    ThreadBooks(c, s, s', t);
  }

  /** `Duties` reads nothing of a worker but the three fields only the event loop writes. */
  lemma DutiesFrame(s: State, s': State)
    requires Duties(s)
    requires s'.running == s.running && s'.idle == s.idle && s'.call == s.call
    requires |s'.jobs| >= |s.jobs| && |s'.workers| == |s.workers|
    requires forall w | 0 <= w < |s.workers| ::
               var x, y := s.workers[w], s'.workers[w]; y.job == x.job && y.jobId == x.jobId && y.freed == x.freed
    ensures Duties(s')
  {
    forall w | 0 <= w < |s.workers|
      ensures AssignedTo(s', w) == AssignedTo(s, w) && Retiring(s', w) == Retiring(s, w)
    {
    }
  }

  lemma ThreadDesk(c: Config, s: State, s': State, t: nat)
    requires Desk(c, s) && ThreadGoes(c, s, s', t)
    ensures Desk(c, s')
  {
    DeskFrame(c, s, s');
  }

  /** `Desk` reads no more of the workers than their number. */
  lemma DeskFrame(c: Config, s: State, s': State)
    requires Desk(c, s) && |s'.jobs| == |s.jobs| && |s'.workers| == |s.workers|
    requires s'.running == s.running && s'.idle == s.idle && s'.queue == s.queue
    requires s'.mode == s.mode && s'.batch == s.batch && s'.call == s.call
    requires Dropping(s') == Dropping(s)
    requires s'.pipe == s.pipe || s'.edge
    requires s.edge ==> s'.edge
    ensures Desk(c, s')
  {
  }

  lemma ThreadMail(c: Config, s: State, s': State, t: nat)
    requires Duties(s) && Mail(s) && ThreadGoes(c, s, s', t)
    ensures Mail(s')
  {
    if s.workers[t].pc == Post {
      var n := s.workers[t].job.value;
      assert AssignedTo(s, t) == Some(n);
      PostedPending(s, s', n);
      MailPosts(s, s', t, n);
    } else {
      MailFrame(s, s');
    }
  }

  lemma MailPosts(s: State, s': State, t: nat, n: nat)
    requires Mail(s) && s'.running == s.running && s'.call == s.call && |s'.workers| == |s.workers| && t < |s.workers|
    requires n in s.running && s.running[n] == t && CallOn(s.call, t) == NoCall
    requires forall m | m in s.running && s.running[m] == t :: m == n
    requires !Posted(s.workers[t]) && Posted(s'.workers[t]) && Pending(s') == Pending(s) + [n]
    requires forall w | 0 <= w < |s.workers| && w != t :: s'.workers[w] == s.workers[w]
    ensures Mail(s')
  {
    assert n !in Pending(s);
    forall m | m in s.running ensures m in Pending(s') <==> m in Pending(s) || m == n {
      if m in Pending(s) {
        var i :| 0 <= i < |Pending(s)| && Pending(s)[i] == m;
        assert Pending(s')[i] == m;
      }
      assert Pending(s')[|Pending(s)|] == n;
    }
  }

  lemma PostedPending(s: State, s': State, n: nat)
    requires s'.batch == s.batch && s'.pipe == s.pipe + [n]
    ensures Pending(s') == Pending(s) + [n]
  {
    assert s'.batch + s'.pipe == (s.batch + s.pipe) + [n];
    CompletionsSnoc(s.batch + s.pipe, n);
  }

  lemma ThreadBooks(c: Config, s: State, s': State, t: nat)
    requires Duties(s) && Books(s) && ThreadGoes(c, s, s', t)
    ensures Books(s')
  {
    forall n | 0 <= n < |s.jobs| ensures s'.jobs[n] == Expected(s', n) {
      if AssignedTo(s, t) != Some(n) {
        assert n in s.running ==> s.running[n] != t;
      }
    }
  }

  lemma MailFrame(s: State, s': State)
    requires Mail(s) && s'.running == s.running && s'.call == s.call
    requires Pending(s') == Pending(s) && |s'.workers| == |s.workers|
    requires forall w | 0 <= w < |s.workers| :: Posted(s'.workers[w]) <==> Posted(s.workers[w])
    ensures Mail(s')
  {
  }

  /** `Mail` and `Books` read no more of a worker than how far it has come with its job. */
  lemma RecordsFrame(s: State, s': State)
    requires Mail(s) && Books(s)
    requires s'.running == s.running && s'.queue == s.queue && s'.call == s.call && s'.jobs == s.jobs
    requires Pending(s') == Pending(s) && Dropping(s') == Dropping(s) && |s'.workers| == |s.workers|
    requires forall w | 0 <= w < |s.workers| ::
               var x, y := s.workers[w], s'.workers[w]; (Posted(y) <==> Posted(x)) && (HasRun(y) <==> HasRun(x))
    ensures Mail(s') && Books(s')
  {
    MailFrame(s, s');
    forall n | 0 <= n < |s.jobs| ensures Expected(s', n) == Expected(s, n) {
    }
  }

  /** A change to one worker that no record of the event loop can see. */
  lemma QuietChange(c: Config, s: State, t: nat, y: Worker)
    requires Inv(c, s) && t < |s.workers| && WorkerOk(c.wakeup, y, CallOn(s.call, t))
    requires var x := s.workers[t];
             && y.job == x.job && y.jobId == x.jobId && y.freed == x.freed
             && (Posted(y) <==> Posted(x)) && (HasRun(y) <==> HasRun(x))
    ensures Inv(c, s.(workers := s.workers[t := y]))
  {
    var s' := s.(workers := s.workers[t := y]);
    DutiesFrame(s, s');
    RecordsFrame(s, s');
  }

  // ----- Statements of the C functions -----

  /** The event loop's call moves on, touching one worker at most. */
  ghost predicate CallAdvances(c: Config, s: State, s': State) {
    && s.call != NoCall && s.call.w < |s.workers| == |s'.workers|
    && s'.running == s.running && s'.idle == s.idle && s'.queue == s.queue && s'.pipe == s.pipe
    && s'.edge == s.edge && s'.mode == s.mode && s'.batch == s.batch && s'.jobs == s.jobs
    && (forall w | 0 <= w < |s.workers| && w != s.call.w :: s'.workers[w] == s.workers[w])
    && (s'.call != NoCall ==> s'.call.w == s.call.w)
    && (s'.call.Wake? ==> s.call.Wake? && s'.call.id == s.call.id && s'.call.job == s.call.job)
    && (s'.call.Join? ==> s.call.Wake? && s.call.job.None?)
    && !s'.call.EnterIdle?
    && Dropping(s') == None && Dropping(s) == None
    && var w := s.call.w;
    var x, y := s.workers[w], s'.workers[w];
    && WorkerOk(c.wakeup, y, CallOn(s'.call, w))
    && AssignedTo(s', w) == AssignedTo(s, w)
    && (Retiring(s', w) || y.freed <==> Retiring(s, w) || x.freed)
    && (w in s.idle ==> !y.freed && !Retiring(s', w))
    && (s'.call == NoCall ==> !HasRun(y) || y.job.None?)
    && (s'.call == NoCall && y.job.Some? ==> y.jobId == y.job.value)
  }

  lemma CallFrame(c: Config, s: State, s': State)
    requires Inv(c, s) && CallAdvances(c, s, s')
    ensures Inv(c, s')
  {
    CallDuties(c, s, s');
    CallMail(c, s, s');
    CallBooks(c, s, s');
    CallDesk(c, s, s');
  }

  lemma CallMail(c: Config, s: State, s': State)
    requires Duties(s) && Mail(s) && CallAdvances(c, s, s')
    ensures Mail(s')
  {
    assert Pending(s') == Pending(s);
  }

  lemma CallBooks(c: Config, s: State, s': State)
    requires Duties(s) && Books(s) && CallAdvances(c, s, s')
    ensures Books(s')
  {
    forall n | 0 <= n < |s.jobs| ensures Expected(s', n) == Expected(s, n) {
    }
  }

  lemma CallDesk(c: Config, s: State, s': State)
    requires Desk(c, s) && CallAdvances(c, s, s')
    ensures Desk(c, s')
  {
  }

  lemma CallDuties(c: Config, s: State, s': State)
    requires Fleet(c, s) && Duties(s) && CallAdvances(c, s, s')
    ensures Duties(s')
    ensures forall w | 0 <= w < |s.workers| ::
      AssignedTo(s', w) == AssignedTo(s, w) && WorkerOk(c.wakeup, s'.workers[w], CallOn(s'.call, w))
  {
    forall w | 0 <= w < |s.workers|
      ensures AssignedTo(s', w) == AssignedTo(s, w)
      ensures WorkerOk(c.wakeup, s'.workers[w], CallOn(s'.call, w))
      ensures Retiring(s', w) || s'.workers[w].freed <==> Retiring(s, w) || s.workers[w].freed
    {
    }
  }

  lemma CallMoveOk(c: Config, s: State)
    requires Inv(c, s) && MoveCall(c, s).Some?
    ensures Inv(c, MoveCall(c, s).value)
  {
    if (s.call.Wake? && s.call.stage == Release) || (s.call.EnterIdle? && !s.call.released) {
      DropOk(c, s);
    } else {
      if MoveCall(c, s).value.call.Wake? {
        CalledWorker(c, s);
        WakeGoesOn(c, s);
      } else {
        CallEnds(c, s);
      }
      CallFrame(c, s, MoveCall(c, s).value);
    }
  }

  /** What is known of the worker that the event loop is calling. */
  ghost predicate Called(c: Config, s: State) {
    && s.call != NoCall && s.call.w < |s.workers| && WorkerOk(c.wakeup, s.workers[s.call.w], s.call)
    && (s.call.w in s.idle ==> AssignedTo(s, s.call.w).None?)
    && (s.call.w in s.idle ==> !s.workers[s.call.w].freed && !Retiring(s, s.call.w))
    && (s.call.Wake? ==> s.call.id == (if s.call.job.Some? then s.call.job.value else 0))
  }

  lemma CalledWorker(c: Config, s: State)
    requires Fleet(c, s) && Duties(s) && s.call != NoCall
    ensures Called(c, s)
  {
    assert CallOn(s.call, s.call.w) == s.call;
  }

  lemma WakeGoesOn(c: Config, s: State)
    requires Called(c, s) && s.call.Wake? && s.call.stage != Release
    requires MoveCall(c, s).Some? && MoveCall(c, s).value.call.Wake?
    ensures CallAdvances(c, s, MoveCall(c, s).value)
  {
  }

  lemma CallEnds(c: Config, s: State)
    requires Fleet(c, s) && Duties(s) && MoveCall(c, s).Some? && !MoveCall(c, s).value.call.Wake?
    requires s.call.EnterIdle? ==> s.call.released
    ensures CallAdvances(c, s, MoveCall(c, s).value)
  {
    var w := s.call.w;
    assert WorkerOk(c.wakeup, s.workers[w], s.call) by { assert CallOn(s.call, w) == s.call; }
    assert AssignedTo(s, w) == Assigned(s.workers[w], s.call);
  }

  lemma DropOk(c: Config, s: State)
    requires Inv(c, s) && s.call != NoCall
    requires (s.call.Wake? && s.call.stage == Release) || (s.call.EnterIdle? && !s.call.released)
    ensures Inv(c, MoveCall(c, s).value)
  {
    var s' := MoveCall(c, s).value;
    DropDuties(c, s);
    DropRecords(c, s, s');
  }

  lemma DropRecords(c: Config, s: State, s': State)
    requires Duties(s) && Mail(s) && Books(s) && Desk(c, s) && s.call != NoCall
    requires (s.call.Wake? && s.call.stage == Release) || (s.call.EnterIdle? && !s.call.released)
    requires s'.workers == s.workers && s'.running == s.running && s'.queue == s.queue
    requires s'.batch == s.batch && s'.pipe == s.pipe && s'.call != NoCall && s'.call.w == s.call.w
    requires s'.jobs == Bump(s.jobs, s.workers[s.call.w].job, DidRelease) && Dropping(s') == None
    ensures Mail(s') && Books(s')
  {
    assert Pending(s') == Pending(s);
    forall n | 0 <= n < |s.jobs| ensures s'.jobs[n] == Expected(s', n) {
    }
  }

  lemma DropDuties(c: Config, s: State)
    requires Fleet(c, s) && Duties(s) && s.call != NoCall
    requires (s.call.Wake? && s.call.stage == Release) || (s.call.EnterIdle? && !s.call.released)
    ensures var s' := MoveCall(c, s).value; Fleet(c, s') && Duties(s') && Dropping(s') == None
  {
    var s' := MoveCall(c, s).value;
    forall w | 0 <= w < |s.workers|
      ensures AssignedTo(s', w) == AssignedTo(s, w)
      ensures WorkerOk(c.wakeup, s'.workers[w], CallOn(s'.call, w))
      ensures Retiring(s', w) <==> Retiring(s, w)
    {
    }
  }

  // ----- Turns of the event loop -----

  lemma SubmitOk(c: Config, s: State)
    requires Inv(c, s) && s.mode == Coroutines && s.call == NoCall && |s.jobs| < JOB_LIMIT
    ensures Inv(c, SubmitJob(c, s))
  {
    if s.idle != [] {
      SubmitWakes(c, s);
    } else if |s.running| >= c.maxWorkers {
      SubmitQueues(c, s);
    } else {
      SubmitSpawns(c, s);
    }
  }

  lemma SubmitQueues(c: Config, s: State)
    requires Inv(c, s) && s.mode == Coroutines && s.call == NoCall && |s.jobs| < JOB_LIMIT
    requires s.idle == [] && |s.running| >= c.maxWorkers
    ensures Inv(c, SubmitJob(c, s))
  {
    var s' := SubmitJob(c, s);
    DutiesFrame(s, s');
    MailFrame(s, s');
    QueueBooks(s, s');
    QueueDesk(c, s, s');
  }

  lemma QueueBooks(s: State, s': State)
    requires Duties(s) && Books(s) && s.call == NoCall
    requires s' == s.(jobs := s.jobs + [Tally(0, 0, 0, 0)], queue := s.queue + [|s.jobs|])
    ensures Books(s')
  {
    forall n | 0 <= n < |s'.jobs| ensures s'.jobs[n] == Expected(s', n) {
      assert n < |s.jobs| ==> Expected(s', n) == Expected(s, n);
    }
  }

  lemma QueueDesk(c: Config, s: State, s': State)
    requires Duties(s) && Desk(c, s) && s.mode == Coroutines && s.call == NoCall && |s.jobs| < JOB_LIMIT
    requires s.idle == [] && |s.running| >= c.maxWorkers
    requires s' == s.(jobs := s.jobs + [Tally(0, 0, 0, 0)], queue := s.queue + [|s.jobs|])
    ensures Desk(c, s')
  {
  }

  lemma SubmitSpawns(c: Config, s: State)
    requires Inv(c, s) && s.mode == Coroutines && s.call == NoCall && |s.jobs| < JOB_LIMIT
    requires s.idle == [] && |s.running| < c.maxWorkers
    ensures Inv(c, SubmitJob(c, s))
  {
    var s', k, t := SubmitJob(c, s), |s.jobs|, |s.workers|;
    assert s'.running == s.running[k := t] && s'.workers == s.workers + [Spawned(k, k)];
    SpawnDuties(s, s', k, t);
    SpawnRecords(s, s', k, t);
    SpawnDesk(c, s);
  }

  lemma SpawnDesk(c: Config, s: State)
    requires Fleet(c, s) && Desk(c, s) && s.mode == Coroutines && s.call == NoCall && |s.jobs| < JOB_LIMIT
    requires s.idle == [] && |s.running| < c.maxWorkers
    requires forall n | n in s.running :: 0 <= n < |s.jobs|
    ensures Fleet(c, SubmitJob(c, s)) && Desk(c, SubmitJob(c, s))
  {
    assert Wrap(|s.jobs|) == |s.jobs| && |s.jobs| !in s.running;
  }

  lemma SpawnRecords(s: State, s': State, k: nat, t: nat)
    requires Duties(s) && Mail(s) && Books(s) && s.call == NoCall && k == |s.jobs| && t == |s.workers|
    requires s'.call == NoCall && s'.jobs == s.jobs + [Tally(0, 0, 0, 0)]
    requires s'.running == s.running[k := t] && s'.workers == s.workers + [Spawned(k, k)]
    requires Pending(s') == Pending(s) && s'.queue == s.queue
    ensures Mail(s') && Books(s')
  {
    assert k !in Pending(s);
    forall n | 0 <= n < |s'.jobs| ensures s'.jobs[n] == Expected(s', n) {
      assert n < |s.jobs| ==> Expected(s', n) == Expected(s, n);
    }
  }

  lemma SpawnDuties(s: State, s': State, k: nat, t: nat)
    requires Duties(s) && s.call == NoCall && s.idle == [] && k == |s.jobs| && t == |s.workers|
    requires s'.call == NoCall && s'.idle == [] && |s'.jobs| == k + 1
    requires s'.running == s.running[k := t] && s'.workers == s.workers + [Spawned(k, k)]
    ensures Duties(s')
  {
    forall w | 0 <= w < |s.workers| ensures AssignedTo(s', w) == AssignedTo(s, w) && s'.workers[w] == s.workers[w] {
    }
    assert AssignedTo(s', t) == Some(k);
  }

  /** The event loop starts a call that takes worker `t` from its old duty to duty `b`. */
  ghost predicate HandsOver(s: State, s': State, t: nat, b: Option<nat>)
  {
    && s.call == NoCall && t < |s.workers| && s'.workers == s.workers
    && s'.call == (if b.Some? then Wake(t, b.value, b, Release) else EnterIdle(t, false))
    && s'.running == (match AssignedTo(s, t) case None => s.running case Some(a) => s.running - {a})
                     + (match b case None => map[] case Some(n) => map[n := t])
    && |s.jobs| <= |s'.jobs|
    && (b.Some? ==> b.value < |s'.jobs| && b.value !in s.running)
    && NoDuplicates(s'.idle) && !s.workers[t].freed
    && (forall w: nat :: w in s'.idle <==> if w == t then b.None? else w in s.idle)
  }

  lemma HandOverDuties(s: State, s': State, t: nat, b: Option<nat>)
    requires Duties(s) && HandsOver(s, s', t, b)
    ensures Duties(s')
  {
    forall w | 0 <= w < |s.workers| && w != t ensures AssignedTo(s', w) == AssignedTo(s, w) {
    }
    assert AssignedTo(s', t) == b;
    forall i | 0 <= i < |s'.idle|
      ensures s'.idle[i] < |s.workers| && AssignedTo(s', s'.idle[i]).None?
      ensures !s'.workers[s'.idle[i]].freed && !Retiring(s', s'.idle[i])
    {
      assert s'.idle[i] in s'.idle;
    }
  }

  lemma WithoutFirst(p: seq<int>)
    requires p != [] && NoDuplicates(p)
    ensures NoDuplicates(p[1..]) && forall n :: n in p[1..] <==> n in p && n != p[0]
  {
    forall n | n in p && n != p[0] ensures n in p[1..] {
      var i :| 0 <= i < |p| && p[i] == n;
      assert p[1..][i - 1] == n;
    }
  }

  lemma HandOverMail(s: State, s': State, t: nat, b: Option<nat>)
    requires Duties(s) && Mail(s) && HandsOver(s, s', t, b)
    requires b.Some? ==> b.value !in Pending(s')
    requires match AssignedTo(s, t)
             case None => Pending(s') == Pending(s)
             case Some(a) => Pending(s) != [] && Pending(s)[0] == a && Pending(s') == Pending(s)[1..]
    ensures Mail(s')
  {
    var p, q := Pending(s), Pending(s');
    if AssignedTo(s, t).Some? { WithoutFirst(p); }
    forall n | n in s'.running && s'.running[n] < |s.workers|
      ensures n in q <==> CallOn(s'.call, s'.running[n]) == NoCall && Posted(s.workers[s'.running[n]])
    {
      if b != Some(n) { assert n in s.running; }
    }
    forall i | 0 <= i < |q| ensures q[i] in s'.running {
      assert q[i] in p;
    }
  }

  lemma SubmitWakes(c: Config, s: State)
    requires Inv(c, s) && s.mode == Coroutines && s.call == NoCall && |s.jobs| < JOB_LIMIT
    requires s.idle != []
    ensures Inv(c, SubmitJob(c, s))
  {
    var s', k, t := SubmitJob(c, s), |s.jobs|, s.idle[0];
    SubmitHandsOver(c, s, s', k, t);
    HandOverDuties(s, s', t, Some(k));
    HandOverMail(s, s', t, Some(k));
    SubmitWakesBooks(s, s', k, t);
    HandOverFleet(c, s, s', t, Some(k));
    SubmitWakesDesk(c, s);
  }

  lemma SubmitHandsOver(c: Config, s: State, s': State, k: nat, t: nat)
    requires Inv(c, s) && s.mode == Coroutines && s.call == NoCall && |s.jobs| < JOB_LIMIT && s.idle != []
    requires s' == SubmitJob(c, s) && k == |s.jobs| && t == s.idle[0]
    ensures HandsOver(s, s', t, Some(k)) && AssignedTo(s, t).None? && Asleep(s.workers[t])
    ensures Pending(s') == Pending(s) && k !in Pending(s)
  {
    IdleTail(s.idle);
    assert t in s.idle && Wrap(k) == k && k !in s.running;
    assert s'.running == s.running + map[k := t];
  }

  lemma SubmitWakesDesk(c: Config, s: State)
    requires Desk(c, s) && s.mode == Coroutines && s.call == NoCall && |s.jobs| < JOB_LIMIT && s.idle != []
    requires s.idle[0] < |s.workers| && s.workers[s.idle[0]].job.None?
    requires forall n | n in s.running :: 0 <= n < |s.jobs|
    ensures Desk(c, SubmitJob(c, s))
  {
    assert Wrap(|s.jobs|) == |s.jobs| && |s.jobs| !in s.running;
  }

  lemma SubmitWakesBooks(s: State, s': State, k: nat, t: nat)
    requires Duties(s) && Books(s) && HandsOver(s, s', t, Some(k)) && AssignedTo(s, t).None?
    requires k == |s.jobs| && s'.jobs == s.jobs + [Tally(0, 0, 0, 0)] && s'.queue == s.queue
    ensures Books(s')
  {
    forall n | 0 <= n < |s'.jobs| ensures s'.jobs[n] == Expected(s', n) {
      assert n < |s.jobs| ==> Expected(s', n) == Expected(s, n);
    }
  }

  lemma IdleTail(q: seq<nat>)
    requires q != [] && NoDuplicates(q)
    ensures NoDuplicates(q[1..])
    ensures forall w: nat :: w in q[1..] <==> w != q[0] && w in q
  {
    assert forall w: nat :: w in q <==> w == q[0] || w in q[1..];
  }

  /** Taking the oldest completions out of the pipe. */
  lemma TakeOk(c: Config, s: State, k: nat, mode: Mode)
    requires Inv(c, s) && s.call == NoCall && s.batch == [] && k <= |s.pipe|
    requires s.mode in {Coroutines, Drain} && mode.Handling?
    requires c.wakeup == Event ==> !mode.again
    requires c.wakeup != Event && k < |s.pipe| ==> s.edge || mode.again
    ensures Inv(c, s.(batch := s.pipe[..k], pipe := s.pipe[k..], mode := mode))
  {
    var s' := s.(batch := s.pipe[..k], pipe := s.pipe[k..], mode := mode);
    assert s'.batch + s'.pipe == s.batch + s.pipe;
    assert Pending(s') == Pending(s);
    DutiesFrame(s, s');
    RecordsFrame(s, s');
  }

  lemma ModeOk(c: Config, s: State, mode: Mode, edge: bool)
    requires Inv(c, s) && s.call == NoCall && s.batch == []
    requires var s' := s.(mode := mode, edge := edge); Desk(c, s')
    ensures Inv(c, s.(mode := mode, edge := edge))
  {
    var s' := s.(mode := mode, edge := edge);
    assert Pending(s') == Pending(s);
    DutiesFrame(s, s');
    RecordsFrame(s, s');
  }

  /** The oldest completion is the next one to be handled, and it is of a running job; signals come in between. */
  lemma NextMessage(s: State)
    requires s.batch != []
    ensures var id, rest := s.batch[0], Completions(s.batch[1..] + s.pipe);
      Pending(s) == (if id >= 0 then [id] else []) + rest && (Mail(s) && id >= 0 ==> id in s.running)
  {
    var q := s.batch + s.pipe;
    CompletionsHead(q);
    assert q[1..] == s.batch[1..] + s.pipe;
    assert s.batch[0] >= 0 ==> Pending(s)[0] == s.batch[0];
  }

  lemma SignalOk(c: Config, s: State)
    requires Inv(c, s) && s.mode.Handling? && s.call == NoCall && s.batch != [] && s.batch[0] < 0
    ensures Inv(c, s.(batch := s.batch[1..]))
  {
    var s' := s.(batch := s.batch[1..]);
    NextMessage(s);
    DutiesFrame(s, s');
    RecordsFrame(s, s');
  }

  lemma HandleOk(c: Config, s: State)
    requires Inv(c, s) && s.mode.Handling? && s.call == NoCall && s.batch != []
    ensures Inv(c, HandleId(s.(batch := s.batch[1..]), s.batch[0]))
  {
    if s.batch[0] < 0 {
      SignalOk(c, s);
    } else {
      HandleCompletion(c, s, HandleId(s.(batch := s.batch[1..]), s.batch[0]));
    }
  }

  /** The job that the event loop hands to a worker that has just finished one. */
  function NextJob(s: State): Option<nat> { if s.queue == [] then None else Some(s.queue[0]) }

  lemma HandleCompletion(c: Config, s: State, s': State)
    requires Inv(c, s) && s.mode.Handling? && s.call == NoCall && s.batch != [] && s.batch[0] >= 0
    requires s' == HandleId(s.(batch := s.batch[1..]), s.batch[0])
    ensures Inv(c, s')
  {
    var id, b := s.batch[0], NextJob(s);
    NextMessage(s);
    var t := FinishedWorker(c, s, id);
    NextIsNew(c, s, id);
    HandsOn(s, s', id, t, b);
    HandledRecords(s, s', id, b);
    HandleDesk(c, s, t);
    HandOverInv(c, s, s', id, t, b);
  }

  lemma HandledRecords(s: State, s': State, id: nat, b: Option<nat>)
    requires s.batch != [] && s.batch[0] == id && id in s.running && b == NextJob(s)
    requires s' == HandleId(s.(batch := s.batch[1..]), id)
    ensures s'.jobs == Bump(s.jobs, Some(id), DidDeliver) && s.queue == (if b.Some? then [b.value] else []) + s'.queue
    ensures s'.batch + s'.pipe == s.batch[1..] + s.pipe
  {
  }

  lemma HandOverInv(c: Config, s: State, s': State, id: nat, t: nat, b: Option<nat>)
    requires c.Valid() && Fleet(c, s) && Duties(s) && Mail(s) && Books(s) && Desk(c, s') && HandsOver(s, s', t, b)
    requires Pending(s) == [id] + Pending(s') && AssignedTo(s, t) == Some(id) && Asleep(s.workers[t])
    requires b.Some? ==> b.value !in Pending(s)
    requires id in s.running && s.running[id] == t && Dropping(s) == None
    requires s'.jobs == Bump(s.jobs, Some(id), DidDeliver) && s.queue == (if b.Some? then [b.value] else []) + s'.queue
    requires id !in s.queue && NoDuplicates(s.queue)
    ensures Inv(c, s')
  {
    assert Pending(s)[0] == id && Pending(s)[1..] == Pending(s');
    assert forall n :: n in Pending(s') ==> n in Pending(s);
    HandOverDuties(s, s', t, b);
    HandOverMail(s, s', t, b);
    HandleBooks(s, s', id, t, b);
    HandOverFleet(c, s, s', t, b);
  }

  lemma FinishedWorker(c: Config, s: State, id: nat) returns (t: nat)
    requires Fleet(c, s) && Duties(s) && Mail(s) && s.call == NoCall && Pending(s) != [] && Pending(s)[0] == id
    ensures id in s.running && s.running[id] == t < |s.workers| && id < |s.jobs| && id in Pending(s)
    ensures AssignedTo(s, t) == Some(id) && Asleep(s.workers[t]) && t !in s.idle && !s.workers[t].freed
  {
    assert id in Pending(s);
    t := s.running[id];
    assert AssignedTo(s, t) == Some(id);
  }

  lemma NextIsNew(c: Config, s: State, id: nat)
    requires Mail(s) && Desk(c, s) && id in s.running
    ensures id !in s.queue
    ensures NextJob(s).Some? ==> var k := NextJob(s).value; k < |s.jobs| && k !in s.running && k !in Pending(s)
  {
    if s.queue != [] { assert s.queue[0] in s.queue; }
  }

  lemma HandsOn(s: State, s': State, id: nat, t: nat, b: Option<nat>)
    requires s.call == NoCall && s.batch != [] && s.batch[0] == id && b == NextJob(s) && NoDuplicates(s.idle)
    requires id in s.running && s.running[id] == t < |s.workers| && t !in s.idle && !s.workers[t].freed
    requires AssignedTo(s, t) == Some(id) && |s.jobs| <= JOB_LIMIT
    requires b.Some? ==> b.value < |s.jobs| && b.value !in s.running
    requires s' == HandleId(s.(batch := s.batch[1..]), id)
    ensures HandsOver(s, s', t, b)
  {
    match b
    case None => assert s'.running == s.running - {id} && s'.idle == s.idle + [t];
    case Some(k) => assert s'.running == (s.running - {id}) + map[k := t];
  }

  lemma HandleDesk(c: Config, s: State, t: nat)
    requires Duties(s) && Desk(c, s) && s.mode.Handling? && s.call == NoCall && s.batch != []
    requires s.batch[0] >= 0 && s.batch[0] in s.running && s.running[s.batch[0]] == t
    ensures Desk(c, HandleId(s.(batch := s.batch[1..]), s.batch[0]))
  {
    var id := s.batch[0];
    assert AssignedTo(s, t) == Some(id);
    NotQueued(c, s, id);
    if s.queue == [] { ParkDesk(c, s, id, t); } else { RequeueDesk(c, s, id, t); }
  }

  lemma NotQueued(c: Config, s: State, id: nat)
    requires Desk(c, s) && id in s.running
    ensures id !in s.queue && |s.running - {id}| == |s.running| - 1
  {
  }

  lemma ParkDesk(c: Config, s: State, id: nat, t: nat)
    requires Desk(c, s) && s.mode.Handling? && s.call == NoCall && s.batch != [] && s.queue == []
    requires id == s.batch[0] && id in s.running && s.running[id] == t < |s.workers| && s.workers[t].job == Some(id)
    requires id < |s.jobs| && |s.running - {id}| == |s.running| - 1
    ensures Desk(c, HandleId(s.(batch := s.batch[1..]), id))
  {
  }

  lemma RequeueDesk(c: Config, s: State, id: nat, t: nat)
    requires Desk(c, s) && s.mode.Handling? && s.call == NoCall && s.batch != [] && s.queue != []
    requires id == s.batch[0] && id in s.running && s.running[id] == t < |s.workers| && s.workers[t].job == Some(id)
    requires id < |s.jobs| && |s.running - {id}| == |s.running| - 1 && id !in s.queue
    ensures Desk(c, HandleId(s.(batch := s.batch[1..]), id))
  {
    var k, s' := s.queue[0], HandleId(s.(batch := s.batch[1..]), id);
    assert k in s.queue && k !in s.running && Wrap(k) == k;
    assert s'.running == (s.running - {id})[k := t];
  }

  lemma HandOverFleet(c: Config, s: State, s': State, t: nat, b: Option<nat>)
    requires Fleet(c, s) && HandsOver(s, s', t, b) && Asleep(s.workers[t])
    ensures Fleet(c, s')
  {
  }

  lemma HandleBooks(s: State, s': State, id: nat, t: nat, b: Option<nat>)
    requires Duties(s) && Mail(s) && Books(s) && HandsOver(s, s', t, b)
    requires id in Pending(s) && id in s.running && s.running[id] == t
    requires s'.jobs == Bump(s.jobs, Some(id), DidDeliver)
    requires id !in s.queue && NoDuplicates(s.queue)
    requires s.queue == (if b.Some? then [b.value] else []) + s'.queue
    requires Dropping(s) == None
    ensures Books(s')
  {
    forall n | 0 <= n < |s'.jobs| ensures s'.jobs[n] == Expected(s', n) {
      if n != id && b != Some(n) {
        assert n in s.running ==> s.running[n] != t;
        assert n in s'.queue <==> n in s.queue;
      } else if n == id {
        assert s.jobs[id] == Tally(1, 1, 0, 0);
        assert Dropping(s') == Some(id);
      } else {
        assert n in s.queue;
      }
    }
  }

  lemma CloseNextOk(c: Config, s: State)
    requires Inv(c, s) && s.mode == Closing && s.call == NoCall && s.idle != []
    ensures Inv(c, s.(idle := s.idle[1..], call := Wake(s.idle[0], 0, None, Release)))
  {
    var t, s' := s.idle[0], s.(idle := s.idle[1..], call := Wake(s.idle[0], 0, None, Release));
    forall w | 0 <= w < |s.workers|
      ensures AssignedTo(s', w) == AssignedTo(s, w) && (w != t ==> (w in s'.idle <==> w in s.idle))
    {
    }
    assert Pending(s') == Pending(s);
  }

  predicate ByThread(a: Action) { a.ThreadMove? || a.WriteInterrupted? || a.SpuriousWake? }

  /** Every action keeps the invariant, as long as job ids do not wrap around. */
  lemma StepKeepsInv(c: Config, s: State, a: Action)
    requires Inv(c, s) && Step(c, s, a).Some? && |Step(c, s, a).value.jobs| <= JOB_LIMIT
    ensures Inv(c, Step(c, s, a).value)
  {
    if ByThread(a) { ThreadKeepsInv(c, s, a); }
    else if a.Cancel? { CancelKeepsInv(c, s, a); }
    else if a.Poll? || a.Fetch? { DrainKeepsInv(c, s, a); }
    else if a.SignalArrives? { SignalArrivesOk(c, s, a.signal); }
    else { LoopKeepsInv(c, s, a); }
  }

  lemma ThreadKeepsInv(c: Config, s: State, a: Action)
    requires Inv(c, s) && Step(c, s, a).Some? && ByThread(a)
    ensures Inv(c, Step(c, s, a).value)
  {
    match a
    case ThreadMove(t) => ThreadMoveOk(c, s, t);
    case WriteInterrupted(t) => QuietChange(c, s, t, s.workers[t].(interrupt := false));
    case SpuriousWake(t) => QuietChange(c, s, t, s.workers[t].(token := false, pc := CvRelock));
  }

  lemma SignalArrivesOk(c: Config, s: State, signal: nat)
    requires Inv(c, s)
    ensures Inv(c, s.(pipe := s.pipe + [SignalId(signal)], edge := true))
  {
    var s' := s.(pipe := s.pipe + [SignalId(signal)], edge := true);
    assert s'.batch + s'.pipe == (s.batch + s.pipe) + [SignalId(signal)];
    CompletionsSnoc(s.batch + s.pipe, SignalId(signal));
    DutiesFrame(s, s');
    RecordsFrame(s, s');
    DeskFrame(c, s, s');
  }

  lemma CancelKeepsInv(c: Config, s: State, a: Action)
    requires Inv(c, s) && Step(c, s, a).Some? && a.Cancel?
    ensures Inv(c, Step(c, s, a).value)
  {
    var t := s.running[a.id];
    if !s.workers[t].waiting { QuietChange(c, s, t, s.workers[t].(interrupt := true)); }
  }

  lemma DrainKeepsInv(c: Config, s: State, a: Action)
    requires Inv(c, s) && Step(c, s, a).Some? && (a.Poll? || a.Fetch?)
    ensures Inv(c, Step(c, s, a).value)
  {
    if a.Poll? && c.wakeup == Event { TakeOk(c, s, a.count, Handling(false)); }
    else if a.Poll? { ModeOk(c, s, if s.pipe == [] then Coroutines else Drain, false); }
    else if s.pipe == [] { ModeOk(c, s, Failed, s.edge); FetchEmpty(c, s); }
    else { FetchOk(c, s); }
  }

  lemma LoopKeepsInv(c: Config, s: State, a: Action)
    requires Inv(c, s) && Step(c, s, a).Some? && |Step(c, s, a).value.jobs| <= JOB_LIMIT
    requires !ByThread(a) && !a.Cancel? && !a.Poll? && !a.Fetch? && !a.SignalArrives?
    ensures Inv(c, Step(c, s, a).value)
  {
    match a
    case Submit => SubmitOk(c, s);
    case HandleNext => HandleOk(c, s);
    case EndBatch => EndBatchOk(c, s);
    case CallMove => CallMoveOk(c, s);
    case BeginClose => BeginCloseOk(c, s);
    case CloseNext => CloseNextOk(c, s);
    case EndClose => ModeOk(c, s, Closed, s.edge);
  }

  lemma FetchEmpty(c: Config, s: State)
    requires c.Valid() && s.pipe == []
    ensures FetchBatch(c, s) == s.(mode := Failed, edge := s.edge)
  {
  }

  lemma FetchOk(c: Config, s: State)
    requires Inv(c, s) && s.mode == Drain && s.pipe != []
    ensures Inv(c, FetchBatch(c, s))
  {
    var k := if |s.pipe| < c.bufLen then |s.pipe| else c.bufLen;
    TakeOk(c, s, k, Handling(k == c.bufLen));
  }

  lemma EndBatchOk(c: Config, s: State)
    requires Inv(c, s) && s.mode.Handling? && s.call == NoCall && s.batch == []
    ensures Inv(c, s.(mode := if s.mode.again then Drain else Coroutines))
  {
    ModeOk(c, s, if s.mode.again then Drain else Coroutines, s.edge);
  }

  lemma BeginCloseOk(c: Config, s: State)
    requires Inv(c, s) && s.mode == Coroutines && s.call == NoCall && s.running == map[]
    ensures Inv(c, s.(mode := Closing))
  {
    ModeOk(c, s, Closing, s.edge);
  }

  /** The invariant holds after every run that submits at most 2^31 jobs. */
  lemma {:induction false} RunsKeepInv(c: Config, run: seq<Action>)
    requires c.Valid() && Execute(c, run).Some? && |Execute(c, run).value.jobs| <= JOB_LIMIT
    ensures Inv(c, Execute(c, run).value)
  {
    if run == [] {
      InitInv(c);
    } else {
      var s := Execute(c, run[..|run| - 1]).value;
      JobsGrow(c, s, run[|run| - 1]);
      RunsKeepInv(c, run[..|run| - 1]);
      StepKeepsInv(c, s, run[|run| - 1]);
    }
  }

  lemma JobsGrow(c: Config, s: State, a: Action)
    requires Step(c, s, a).Some?
    ensures |s.jobs| <= |Step(c, s, a).value.jobs|
  {
  }
}

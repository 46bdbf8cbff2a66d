/** What the calls of the thread pool do over a run, told by events: pausing and unpausing,
 *  taking tasks and leaving, the order of tasks, purging, waiting and resetting.
 */
module ThreadPoolRuns {
  import opened ThreadPool

  // ------------------------------------------------------------ the pause flag

  /** Events that write the pause flag. */
  predicate Flags(e: Event) { e.Pause? || e.Unpause? || e.ResetBegin? || e.ResetRestore? }

  lemma WorkerFlag(s: State, e: Event, s': State)
    requires WorkerStep(s, e, s')
    ensures s'.paused == s.paused && s'.opt == s.opt && !Flags(e)
  {
  }

  lemma QueueFlag(s: State, e: Event, s': State)
    requires QueueStep(s, e, s')
    ensures s'.opt == s.opt
    ensures s'.paused == if e.Pause? then true else if e.Unpause? then false else s.paused
    ensures Flags(e) ==> e.Pause? || e.Unpause?
  {
  }

  lemma ResetFlag(s: State, e: Event, s': State)
    requires ResetStep(s, e, s')
    ensures s'.opt == s.opt && !e.Pause? && !e.Unpause?
    ensures !Flags(e) ==> s'.paused == s.paused
    ensures e.ResetBegin? && s.opt.pause ==> s'.paused
  {
  }

  lemma FlagMoves(s: State, e: Event, s': State)
    requires Step(s, e, s')
    ensures s'.opt == s.opt
    ensures !Flags(e) ==> s'.paused == s.paused
    ensures e.Pause? ==> s'.paused
    ensures e.Unpause? ==> !s'.paused
    ensures e.ResetBegin? && s.opt.pause ==> s'.paused
  {
    if WorkerStep(s, e, s') {
      WorkerFlag(s, e, s');
    } else if QueueStep(s, e, s') {
      QueueFlag(s, e, s');
    } else if WaitStep(s, e, s') {
      WaitFlag(s, e, s');
    } else {
      ResetFlag(s, e, s');
    }
  }

  lemma WaitFlag(s: State, e: Event, s': State)
    requires WaitStep(s, e, s')
    ensures s'.paused == s.paused && s'.opt == s.opt && !Flags(e)
  {
  }

  /** Between i and j no event writes the pause flag. */
  ghost predicate FlagAlone(events: seq<Event>, i: nat, j: nat)
    requires j <= |events|
  {
    forall n :: i <= n < j ==> !Flags(events[n])
  }

  lemma {:induction false} FlagKept(run: seq<State>, events: seq<Event>, i: nat, j: nat)
    requires Behavior(run, events) && i <= j < |run| && FlagAlone(events, i, j)
    ensures run[j].paused == run[i].paused
    decreases j - i
  {
    if i < j {
      FlagKept(run, events, i, j - 1);
      assert StepAt(run, events, j - 1);
      FlagMoves(run[j - 1], events[j - 1], run[j]);
    }
  }

  /** After unpause the pool is not paused, and after pause it is, until the flag is written again. */
  lemma FlagFollowsCalls(run: seq<State>, events: seq<Event>, i: nat, j: nat)
    requires Behavior(run, events) && i < j < |run| && FlagAlone(events, i + 1, j)
    ensures events[i].Unpause? ==> !run[j].paused
    ensures events[i].Pause? ==> run[j].paused
    ensures events[i].ResetBegin? && run[i].opt.pause ==> run[j].paused
  {
    assert StepAt(run, events, i);
    FlagMoves(run[i], events[i], run[i + 1]);
    FlagKept(run, events, i + 1, j);
  }

  /** The reset that c is carrying out began with this pause flag. */
  ghost predicate ResetsFrom(s: State, c: Cid, was: bool) {
    c in s.callers && InReset(s.callers[c]) && s.callers[c].was == was
  }

  lemma WorkerResetGoesOn(s: State, e: Event, s': State, c: Cid, was: bool)
    requires ResetsFrom(s, c, was) && WorkerStep(s, e, s')
    ensures ResetsFrom(s', c, was)
  {
  }

  lemma QueueResetGoesOn(s: State, e: Event, s': State, c: Cid, was: bool)
    requires ResetsFrom(s, c, was) && QueueStep(s, e, s')
    ensures ResetsFrom(s', c, was)
  {
  }

  lemma WaitResetGoesOn(s: State, e: Event, s': State, c: Cid, was: bool)
    requires ResetsFrom(s, c, was) && WaitStep(s, e, s')
    ensures ResetsFrom(s', c, was)
  {
  }

  lemma ResetResetGoesOn(s: State, e: Event, s': State, c: Cid, was: bool)
    requires ResetsFrom(s, c, was) && ResetStep(s, e, s') && e != ResetRestore(c)
    ensures ResetsFrom(s', c, was)
  {
  }

  lemma ResetGoesOn(s: State, e: Event, s': State, c: Cid, was: bool)
    requires ResetsFrom(s, c, was) && Step(s, e, s') && e != ResetRestore(c)
    ensures ResetsFrom(s', c, was)
  {
    if WorkerStep(s, e, s') {
      WorkerResetGoesOn(s, e, s', c, was);
    } else if QueueStep(s, e, s') {
      QueueResetGoesOn(s, e, s', c, was);
    } else if WaitStep(s, e, s') {
      WaitResetGoesOn(s, e, s', c, was);
    } else {
      ResetResetGoesOn(s, e, s', c, was);
    }
  }

  lemma {:induction false} ResetRemembers(run: seq<State>, events: seq<Event>, i: nat, j: nat, c: Cid)
    requires Behavior(run, events) && i < j < |run| && events[i] == ResetBegin(c)
    requires forall n :: i < n < j ==> events[n] != ResetRestore(c)
    ensures ResetsFrom(run[j], c, run[i].paused)
    decreases j - i
  {
    assert StepAt(run, events, j - 1);
    if i + 1 < j {
      ResetRemembers(run, events, i, j - 1, c);
      ResetGoesOn(run[j - 1], events[j - 1], run[j], c, run[i].paused);
    }
  }

  lemma {:induction false} OptionsStay(run: seq<State>, events: seq<Event>, n: nat)
    requires Behavior(run, events) && n < |run|
    ensures run[n].opt == run[0].opt
  {
    if n > 0 {
      OptionsStay(run, events, n - 1);
      assert StepAt(run, events, n - 1);
      FlagMoves(run[n - 1], events[n - 1], run[n]);
    }
  }

  lemma NeverPausedWithoutOption(run: seq<State>, events: seq<Event>, n: nat)
    requires Behavior(run, events) && n < |run| && !run[n].opt.pause
    ensures !run[n].paused
  {
    RunKeeps(run, events, n);
  }

  lemma RestoreSets(s: State, e: Event, s': State, was: bool)
    requires e.ResetRestore? && Step(s, e, s') && ResetsFrom(s, e.c, was)
    ensures s.opt.pause ==> s'.paused == was
  {
  }

  /** A completed reset leaves the pause flag as it found it. */
  lemma ResetRestoresFlag(run: seq<State>, events: seq<Event>, i: nat, j: nat, c: Cid)
    requires Behavior(run, events) && i < j < |events| && events[i] == ResetBegin(c) && events[j] == ResetRestore(c)
    requires forall n :: i < n < j ==> events[n] != ResetRestore(c)
    ensures run[j + 1].paused == run[i].paused
  {
    ResetRemembers(run, events, i, j, c);
    assert StepAt(run, events, j);
    RestoreSets(run[j], events[j], run[j + 1], run[i].paused);
    OptionsStay(run, events, i);
    OptionsStay(run, events, j);
    OptionsStay(run, events, j + 1);
    if !run[0].opt.pause {
      NeverPausedWithoutOption(run, events, i);
      NeverPausedWithoutOption(run, events, j + 1);
    }
  }

  /** After unpause, and before the flag is written again, work in the queue of a pool that is up
   *  has a worker that is awake or a caller about to notify one.
   */
  lemma UnpausedWorkIsTended(run: seq<State>, events: seq<Event>, i: nat, j: nat)
    requires Behavior(run, events) && i < j < |run| && events[i].Unpause? && FlagAlone(events, i + 1, j)
    ensures run[j].up && run[j].queue != [] ==> SomeoneAwake(run[j]) || SomeoneNotifies(run[j])
  {
    FlagFollowsCalls(run, events, i, j);
    RunKeeps(run, events, j);
  }

  // -------------------------------------------------------- what a worker does

  /** Worker w goes on to run task k, which it takes out of the queue. */
  ghost predicate Takes(s: State, s': State, w: Wid, k: Task) {
    && w in s'.workers && s'.workers[w] == Running(k)
    && Queued(s, k) && !Queued(s', k)
    && |s'.queue| == |s.queue| - 1
  }

  ghost predicate TakesSome(s: State, s': State, w: Wid) { exists k :: Takes(s, s', w, k) }

  /** Where a worker goes from the wait condition: on to a task, out, or to sleep. */
  ghost predicate GoesOn(s: State, s': State, w: Wid) {
    w in s'.workers &&
    if !s.up then s'.workers[w] == Exited && s'.queue == s.queue
    else if !s.paused && s.queue != [] then TakesSome(s, s', w)
    else s'.workers[w] == Asleep && s'.queue == s.queue
  }

  lemma SettleGoesOn(s: State, s': State, w: Wid)
    requires NoRepeats(s.queue) && w in s.workers && Settle(s, s', w)
    ensures GoesOn(s, s', w)
  {
    if s.up && !s.paused && s.queue != [] {
      var i :| 0 <= i < |s.queue| && MayPop(s, i) &&
        s' == s.(queue := s.queue[..i] + s.queue[i + 1..], running := s.running + 1,
                 workers := s.workers[w := Running(s.queue[i])]);
      Removed(s.queue, i);
      assert Takes(s, s', w, s.queue[i]);
    }
  }

  lemma SameGoing(r: State, s: State, s': State, w: Wid)
    requires r.up == s.up && r.paused == s.paused && r.queue == s.queue && GoesOn(r, s', w)
    ensures GoesOn(s, s', w)
  {
    if k :| Takes(r, s', w, k) {
      assert Takes(s, s', w, k);
    }
  }

  /** A worker that takes the mutex goes on to a task exactly when the pool is up, not paused and has one. */
  lemma WorkerGoesOn(run: seq<State>, events: seq<Event>, n: nat)
    requires Behavior(run, events) && n < |events| && (events[n].CheckIn? || events[n].Recheck?)
    ensures GoesOn(run[n], run[n + 1], events[n].w)
  {
    RunKeeps(run, events, n);
    assert StepAt(run, events, n);
    var s, w := run[n], events[n].w;
    if events[n].CheckIn? {
      SettleGoesOn(Reported(s, w), run[n + 1], w);
      SameGoing(Reported(s, w), s, run[n + 1], w);
    } else {
      SettleGoesOn(s, run[n + 1], w);
    }
  }

  ghost predicate WokenAt(s: State, w: Wid) { w in s.workers && s.workers[w] == Woken }

  lemma CallersKeepWoken(s: State, e: Event, s': State, w: Wid)
    requires QueueStep(s, e, s') || WaitStep(s, e, s')
    requires WokenAt(s, w)
    ensures WokenAt(s', w)
  {
    if WaitStep(s, e, s') {
      WaitMovesNoWorker(s, e, s');
    }
  }

  lemma ResetKeepsWoken(s: State, e: Event, s': State, w: Wid)
    requires ResetStep(s, e, s') && WokenAt(s, w)
    ensures WokenAt(s', w)
  {
  }

  lemma WokenMovesByRecheck(s: State, e: Event, s': State, w: Wid)
    requires Step(s, e, s') && WokenAt(s, w) && !WokenAt(s', w)
    ensures e == Recheck(w)
  {
    if QueueStep(s, e, s') || WaitStep(s, e, s') {
      CallersKeepWoken(s, e, s', w);
    } else if ResetStep(s, e, s') {
      ResetKeepsWoken(s, e, s', w);
    }
  }

  /** The next move of a woken worker, whatever happens before it: a task after an unpause. */
  lemma WokenTakesTask(run: seq<State>, events: seq<Event>, i: nat, n: nat, w: Wid)
    requires Behavior(run, events) && i < n < |events| && events[i].Unpause? && FlagAlone(events, i + 1, n)
    requires run[n].up && run[n].queue != [] && WokenAt(run[n], w) && !WokenAt(run[n + 1], w)
    ensures TakesSome(run[n], run[n + 1], w)
  {
    FlagFollowsCalls(run, events, i, n);
    assert StepAt(run, events, n);
    WokenMovesByRecheck(run[n], events[n], run[n + 1], w);
    WorkerGoesOn(run, events, n);
  }

  lemma {:induction false} HighestExists(s: State, n: nat) returns (i: nat)
    requires 0 < n <= |s.queue|
    ensures i < n && forall j :: 0 <= j < n ==> s.opt.rank(s.queue[j]) <= s.opt.rank(s.queue[i])
  {
    if n == 1 {
      i := 0;
    } else {
      i := HighestExists(s, n - 1);
      if s.opt.rank(s.queue[i]) < s.opt.rank(s.queue[n - 1]) {
        i := n - 1;
      }
    }
  }

  lemma CanSettle(s: State, w: Wid) returns (s': State)
    requires w in s.workers
    ensures Settle(s, s', w)
  {
    if !WorkerReady(s) {
      s' := s.(workers := s.workers[w := Asleep]);
    } else if !s.up {
      s' := s.(workers := s.workers[w := Exited]);
    } else {
      var i := 0;
      if s.opt.priority {
        i := HighestExists(s, |s.queue|);
      }
      assert MayPop(s, i);
      s' := s.(queue := s.queue[..i] + s.queue[i + 1..], running := s.running + 1, workers := s.workers[w := Running(s.queue[i])]);
    }
  }

  /** A worker that is awake can always take its next step. */
  lemma AwakeCanStep(s: State, w: Wid) returns (e: Event, s': State)
    requires Awake(s, w)
    ensures (e == CheckIn(w) || e == Recheck(w)) && Step(s, e, s')
  {
    if s.workers[w] == Woken {
      e := Recheck(w);
      s' := CanSettle(s, w);
    } else {
      e := CheckIn(w);
      s' := CanSettle(Reported(s, w), w);
    }
  }

  /** A reset that waits for its workers to leave is never stuck: one of them can step, or all have left. */
  lemma ResetNeverStuck(run: seq<State>, events: seq<Event>, n: nat, c: Cid) returns (e: Event, s': State)
    requires Behavior(run, events) && n < |run| && Joining(run[n], c)
    ensures Step(run[n], e, s')
    ensures e == ResetCreate(c, 1) || ((e.CheckIn? || e.Recheck?) && Awake(run[n], e.w))
  {
    var s := run[n];
    RunKeeps(run, events, n);
    if w :| Awake(s, w) {
      e, s' := AwakeCanStep(s, w);
    } else {
      e := ResetCreate(c, 1);
      forall w | w in s.workers ensures s.workers[w] == Exited {
        assert !Dozing(s, w) && !Awake(s, w);
      }
      s' := At(s.(running := 1, up := true, workers := StartingWorkers(1)), c, ResetRestoring(s.callers[c].was));
      assert ResetStep(s, e, s');
    }
  }

  // ------------------------------------------------------------- order of tasks

  lemma StartIsWorkers(s: State, e: Event, s': State, k: Task) returns (w: Wid)
    requires Step(s, e, s') && Starts(s, s', k)
    ensures WorkerStep(s, e, s') && w in s'.workers && s'.workers[w] == Running(k)
    ensures !(w in s.workers && s.workers[w] == Running(k)) && w == e.w
  {
    w :| w in s'.workers && s'.workers[w] == Running(k);
    assert !(w in s.workers && s.workers[w] == Running(k));
    if QueueStep(s, e, s') {
      QueueStartsNone(s, e, s', w, k);
    } else if !WorkerStep(s, e, s') {
      OthersStartNone(s, e, s', w, k);
    }
  }

  /** The task that starts was at a place of the queue from which it may be taken. */
  lemma StartPops(s: State, e: Event, s': State, k: Task) returns (i: nat)
    requires Step(s, e, s') && Starts(s, s', k)
    ensures s.up && !s.paused
    ensures i < |s.queue| && s.queue[i] == k && MayPop(s, i) && s'.queue == s.queue[..i] + s.queue[i + 1..]
  {
    var w := StartIsWorkers(s, e, s', k);
    i := WorkerPops(s, e, s', w, k);
  }

  lemma ReportedQueue(s: State, w: Wid)
    requires w in s.workers
    ensures var r := Reported(s, w); r.queue == s.queue && r.up == s.up && r.paused == s.paused && r.opt == s.opt && w in r.workers
  {
  }

  lemma SameMayPop(r: State, s: State, i: nat)
    requires r.queue == s.queue && r.opt == s.opt && i < |r.queue| && MayPop(r, i)
    ensures MayPop(s, i)
  {
  }

  lemma WorkerPops(s: State, e: Event, s': State, w: Wid, k: Task) returns (i: nat)
    requires WorkerStep(s, e, s') && w == e.w && w in s'.workers && s'.workers[w] == Running(k)
    ensures s.up && !s.paused
    ensures i < |s.queue| && s.queue[i] == k && MayPop(s, i) && s'.queue == s.queue[..i] + s.queue[i + 1..]
  {
    var r := if e.CheckIn? then Reported(s, w) else s;
    assert Settle(r, s', w);
    ReportedQueue(s, w);
    i := SettlePops(r, s', w, k);
    SameMayPop(r, s, i);
  }

  lemma SettlePops(r: State, s': State, w: Wid, k: Task) returns (i: nat)
    requires w in r.workers && Settle(r, s', w) && s'.workers[w] == Running(k)
    ensures r.up && !r.paused
    ensures i < |r.queue| && r.queue[i] == k && MayPop(r, i) && s'.queue == r.queue[..i] + r.queue[i + 1..]
  {
    i :| 0 <= i < |r.queue| && MayPop(r, i) &&
      s' == r.(queue := r.queue[..i] + r.queue[i + 1..], running := r.running + 1,
               workers := r.workers[w := Running(r.queue[i])]);
  }

  /** Tasks start only on a pool that is up and not paused, and with a priority queue no queued task ranks higher. */
  lemma StartsWhenAllowed(run: seq<State>, events: seq<Event>, n: nat, k: Task)
    requires Behavior(run, events) && n < |events| && Starts(run[n], run[n + 1], k)
    ensures run[n].up && !run[n].paused && Queued(run[n], k)
    ensures run[n].opt.priority ==> forall q :: Queued(run[n], q) ==> run[n].opt.rank(q) <= run[n].opt.rank(k)
  {
    assert StepAt(run, events, n);
    var i := StartPops(run[n], events[n], run[n + 1], k);
  }

  /** Task a stands before task b wherever both are in the queue. */
  ghost predicate Ahead(q: seq<Task>, a: Task, b: Task) {
    forall i, j :: 0 <= i < |q| && 0 <= j < |q| && q[i] == a && q[j] == b ==> i < j
  }

  lemma AheadWithout(q: seq<Task>, a: Task, b: Task, i: nat)
    requires Ahead(q, a, b) && i < |q|
    ensures Ahead(q[..i] + q[i + 1..], a, b)
  {
    var r := q[..i] + q[i + 1..];
    assert forall j :: 0 <= j < |r| ==> r[j] == q[if j < i then j else j + 1];
  }

  lemma AheadWith(q: seq<Task>, tasks: seq<Task>, a: Task, b: Task)
    requires Ahead(q, a, b) && a !in tasks
    ensures Ahead(q + tasks, a, b)
  {
  }

  lemma WorkerKeepsAhead(s: State, e: Event, s': State, a: Task, b: Task)
    requires WorkerStep(s, e, s') && Ahead(s.queue, a, b)
    ensures Ahead(s'.queue, a, b)
  {
    var r := if e.CheckIn? then Reported(s, e.w) else s;
    if s'.queue != s.queue {
      var i :| 0 <= i < |r.queue| && s'.queue == r.queue[..i] + r.queue[i + 1..];
      AheadWithout(s.queue, a, b, i);
    }
  }

  lemma QueueKeepsAhead(s: State, e: Event, s': State, a: Task, b: Task)
    requires QueueStep(s, e, s') && Ahead(s.queue, a, b) && a in s.submitted
    ensures Ahead(s'.queue, a, b)
  {
    if e.DetachTask? {
      AheadWith(s.queue, [e.task], a, b);
    } else if e.DetachBulk? {
      AheadWith(s.queue, e.tasks, a, b);
    }
  }

  lemma StepKeepsAhead(s: State, e: Event, s': State, a: Task, b: Task)
    requires Step(s, e, s') && Ahead(s.queue, a, b) && a in s.submitted
    ensures Ahead(s'.queue, a, b)
  {
    if WorkerStep(s, e, s') {
      WorkerKeepsAhead(s, e, s', a, b);
    } else if QueueStep(s, e, s') {
      QueueKeepsAhead(s, e, s', a, b);
    } else {
      OthersOnward(s, e, s');
    }
  }

  lemma {:induction false} AheadKept(run: seq<State>, events: seq<Event>, i: nat, j: nat, a: Task, b: Task)
    requires Behavior(run, events) && i <= j < |run| && Ahead(run[i].queue, a, b) && a in run[i].submitted
    ensures Ahead(run[j].queue, a, b) && a in run[j].submitted
    decreases j - i
  {
    if i < j {
      AheadKept(run, events, i, j - 1, a, b);
      assert StepAt(run, events, j - 1);
      StepKeepsAhead(run[j - 1], events[j - 1], run[j], a, b);
      GoneForGood(run[j - 1], events[j - 1], run[j]);
    }
  }

  /** Without priorities a task that was ahead in the queue is no longer waiting when a later one starts. */
  lemma FirstComeFirstServed(run: seq<State>, events: seq<Event>, i: nat, n: nat, a: Task, b: Task)
    requires Behavior(run, events) && i <= n < |events| && !run[0].opt.priority
    requires a in run[i].submitted && Ahead(run[i].queue, a, b) && Starts(run[n], run[n + 1], b)
    ensures !Queued(run[n], a)
  {
    AheadKept(run, events, i, n, a, b);
    OptionsStay(run, events, n);
    assert StepAt(run, events, n);
    var x := StartPops(run[n], events[n], run[n + 1], b);
    assert run[n].queue[0] == b;
    NothingAheadOfFirst(run[n].queue, a, b);
  }

  lemma NothingAheadOfFirst(q: seq<Task>, a: Task, b: Task)
    requires |q| > 0 && q[0] == b && Ahead(q, a, b)
    ensures a !in q
  {
  }

  lemma BulkInOrder(q: seq<Task>, tasks: seq<Task>, x: nat, y: nat)
    requires x < y < |tasks| && NoRepeats(q + tasks)
    ensures Ahead(q + tasks, tasks[x], tasks[y])
  {
    assert (q + tasks)[|q| + x] == tasks[x] && (q + tasks)[|q| + y] == tasks[y];
  }

  /** Tasks submitted earlier, or earlier in the same batch, are ahead. */
  lemma SubmittedInOrder(run: seq<State>, events: seq<Event>, n: nat, a: Task, b: Task)
    requires Behavior(run, events) && n < |events|
    ensures a in run[n].submitted && b !in run[n].submitted ==> Ahead(run[n].queue, a, b)
    ensures events[n].DetachBulk? ==> forall x, y :: 0 <= x < y < |events[n].tasks| ==>
              Ahead(run[n + 1].queue, events[n].tasks[x], events[n].tasks[y])
  {
    RunKeeps(run, events, n);
    RunKeeps(run, events, n + 1);
    assert StepAt(run, events, n);
    assert forall i :: 0 <= i < |run[n].queue| ==> Queued(run[n], run[n].queue[i]);
    if events[n].DetachBulk? {
      var tasks := events[n].tasks;
      forall x, y | 0 <= x < y < |tasks| ensures Ahead(run[n + 1].queue, tasks[x], tasks[y]) {
        BulkInOrder(run[n].queue, tasks, x, y);
      }
    }
  }

  // --------------------------------------------------------- purging and waiting

  /** What a purge finds in the queue is purged, the queue is empty, and none of it ever starts. */
  lemma PurgedNeverStarts(run: seq<State>, events: seq<Event>, i: nat, j: nat, k: Task)
    requires Behavior(run, events) && i < j < |events| && events[i].Purge?
    ensures run[i + 1].queue == []
    ensures Queued(run[i], k) ==> k in run[j].purged && !Starts(run[j], run[j + 1], k)
  {
    assert StepAt(run, events, i);
    RunKeeps(run, events, i);
    if Queued(run[i], k) {
      assert k in run[i + 1].purged && Gone(run[i + 1], k);
      HistoryGrows(run, events, i + 1, j);
      GoneLater(run, events, i + 1, j, k);
      if Starts(run[j], run[j + 1], k) {
        StartedInRun(run, events, j, k);
      }
    }
  }

  lemma WorkerFinishes(s: State, e: Event, s': State, k: Task)
    requires WorkerStep(s, e, s') && k !in s.finished && k in s'.finished
    ensures e.CheckIn? && e.w in s.workers && s.workers[e.w] == Running(k)
  {
  }

  lemma QueueFinishesNone(s: State, e: Event, s': State)
    requires QueueStep(s, e, s')
    ensures s'.finished == s.finished
  {
  }

  lemma FinishStep(s: State, e: Event, s': State, k: Task)
    requires Step(s, e, s') && k !in s.finished && k in s'.finished
    ensures e.CheckIn? && e.w in s.workers && s.workers[e.w] == Running(k)
  {
    if WorkerStep(s, e, s') {
      WorkerFinishes(s, e, s', k);
    } else if QueueStep(s, e, s') {
      QueueFinishesNone(s, e, s');
    } else {
      OthersOnward(s, e, s');
    }
  }

  /** Only a task that was running finishes, and only when its worker comes back. */
  lemma FinishesAfterRunning(run: seq<State>, events: seq<Event>, n: nat, k: Task)
    requires Behavior(run, events) && n < |events| && k !in run[n].finished && k in run[n + 1].finished
    ensures events[n].CheckIn? && events[n].w in run[n].workers && run[n].workers[events[n].w] == Running(k)
  {
    assert StepAt(run, events, n);
    FinishStep(run[n], events[n], run[n + 1], k);
  }

  /** No thread is starting or running a task, and nothing that may be started is queued. */
  ghost predicate NothingToDo(s: State) {
    && (forall w :: w in s.workers ==> !s.workers[w].Starting? && !s.workers[w].Running?)
    && (s.paused || s.queue == [])
  }

  lemma DoneMeansNothingToDo(s: State)
    requires CountExact(s)
    ensures DoneCondition(s) <==> NothingToDo(s)
  {
    if NothingToDo(s) {
      assert Busy(s.workers) == {};
    }
    if DoneCondition(s) {
      assert Busy(s.workers) == {};
      assert forall w :: w in s.workers && (s.workers[w].Starting? || s.workers[w].Running?) ==> w in Busy(s.workers);
    }
  }

  /** A call of wait, and a waiter that has been woken, returns exactly when there is nothing to do. */
  lemma WaitReturnsExactly(run: seq<State>, events: seq<Event>, n: nat, c: Cid)
    requires Behavior(run, events) && n < |events| && (events[n] == Wait(c) || events[n] == Rewait(c))
    requires c in run[n].callers && (run[n].callers[c].Waiter? ==> !run[n].callers[c].inReset) && !run[n].callers[c].ResetPaused?
    ensures Returns(run[n], run[n + 1], c) <==> NothingToDo(run[n])
    ensures !NothingToDo(run[n]) ==> AsleepWaiter(run[n + 1], c)
  {
    RunCounts(run, events, n);
    DoneMeansNothingToDo(run[n]);
    assert StepAt(run, events, n);
    assert WaitStep(run[n], events[n], run[n + 1]);
  }

  ghost predicate Stopping(s: State, c: Cid) { c in s.callers && s.callers[c].ResetStopping? }

  lemma WorkerStopsNone(s: State, e: Event, s': State, c: Cid)
    requires WorkerStep(s, e, s') && Stopping(s', c)
    ensures Stopping(s, c)
  {
  }

  lemma OthersStopNone(s: State, e: Event, s': State, c: Cid)
    requires QueueStep(s, e, s') || ResetStep(s, e, s')
    requires Stopping(s', c)
    ensures Stopping(s, c)
  {
  }

  lemma StopsWhenDone(s: State, e: Event, s': State, c: Cid)
    requires Step(s, e, s') && Stopping(s', c) && !Stopping(s, c)
    ensures DoneCondition(s)
  {
    if WorkerStep(s, e, s') {
      WorkerStopsNone(s, e, s', c);
    } else if QueueStep(s, e, s') || ResetStep(s, e, s') {
      OthersStopNone(s, e, s', c);
    }
  }

  /** A reset takes the workers down only after every running task has finished. */
  lemma ResetWaitsForRunning(run: seq<State>, events: seq<Event>, n: nat, c: Cid)
    requires Behavior(run, events) && n < |events| && Stopping(run[n + 1], c) && !Stopping(run[n], c)
    ensures NothingToDo(run[n])
  {
    RunCounts(run, events, n);
    assert StepAt(run, events, n);
    StopsWhenDone(run[n], events[n], run[n + 1], c);
    DoneMeansNothingToDo(run[n]);
  }

  ghost predicate SomeoneDozes(s: State) { exists w :: Dozing(s, w) }

  /** Notifying everybody leaves no worker asleep; notifying one wakes one if any sleeps. */
  lemma NotifyWakes(run: seq<State>, events: seq<Event>, n: nat)
    requires Behavior(run, events) && n < |events|
    ensures events[n].NotifyAll? ==> !SomeoneDozes(run[n + 1])
    ensures events[n].NotifyOne? && SomeoneDozes(run[n]) ==>
              Dozing(run[n], events[n].w) && run[n + 1].workers == run[n].workers[events[n].w := Woken]
  {
    assert StepAt(run, events, n);
  }
}

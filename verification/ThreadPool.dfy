/** The thread pool as a transition system whose steps are its critical sections.
 *
 *  Workers and calling threads meet at one mutex and two condition variables, so
 *  "asleep on a condition variable", "woken but not yet checked" and "about to
 *  notify, the mutex already released" are states of their own.
 */
module ThreadPool {

  type Task = nat
  type Wid = nat
  type Cid = nat

  /** Compile-time options: pausing, and a priority queue instead of a plain queue. */
  datatype Options = Options(pause: bool, priority: bool, rank: Task -> int)

  datatype Worker = Starting | Running(task: Task) | Asleep | Woken | Exited

  /** A calling thread.  `was` is the pause flag saved by reset; `inReset` tells a wait made by reset. */
  datatype Caller =
    | Free
    | AboutToNotifyOne
    | AboutToNotifyAll
    | Waiter(asleep: bool, inReset: bool, was: bool)
    | WaitDone
    | ResetPaused(was: bool)
    | ResetStopping(was: bool)
    | ResetNotifying(was: bool)
    | ResetJoining(was: bool)
    | ResetRestoring(was: bool)

  /** `submitted`, `finished` and `purged` record the history of tasks. */
  datatype State = State(
    opt: Options,
    queue: seq<Task>,
    running: int,
    paused: bool,
    waiting: bool,
    up: bool,
    workers: map<Wid, Worker>,
    callers: map<Cid, Caller>,
    submitted: set<Task>,
    finished: set<Task>,
    purged: set<Task>)

  datatype Event =
    | CheckIn(w: Wid)            // a starting worker, or one whose task returned, takes the mutex
    | Recheck(w: Wid)            // a woken worker takes the mutex again
    | SpuriousWorker(w: Wid)
    | DetachTask(c: Cid, task: Task)
    | DetachBulk(c: Cid, tasks: seq<Task>)
    | NotifyOne(c: Cid, w: Wid)
    | NotifyAll(c: Cid)
    | Pause(c: Cid)
    | Unpause(c: Cid)
    | Purge(c: Cid)
    | Wait(c: Cid)
    | Rewait(c: Cid)             // a woken waiter takes the mutex again
    | SpuriousWaiter(c: Cid)
    | Resume(c: Cid)             // the caller continues after wait returned
    | ResetBegin(c: Cid)
    | ResetStop(c: Cid)
    | ResetCreate(c: Cid, n: nat)
    | ResetRestore(c: Cid)

  // ----------------------------------------------------------------- conditions

  /** The condition of tasks_done_cv. */
  predicate DoneCondition(s: State) { s.running == 0 && (s.paused || s.queue == []) }

  /** The condition of task_available_cv. */
  predicate WorkerReady(s: State) { !(s.paused || s.queue == []) || !s.up }

  predicate MayPop(s: State, i: nat)
    requires i < |s.queue|
  {
    if s.opt.priority then forall j :: 0 <= j < |s.queue| ==> s.opt.rank(s.queue[j]) <= s.opt.rank(s.queue[i])
    else i == 0
  }

  function StartingWorkers(n: nat): (m: map<Wid, Worker>)
    ensures forall w: Wid :: w in m <==> w < n
    ensures forall w :: w in m ==> m[w] == Starting
  {
    if n == 0 then map[] else StartingWorkers(n - 1)[n - 1 := Starting]
  }

  function WakeWorkers(m: map<Wid, Worker>): map<Wid, Worker> {
    map w | w in m :: if m[w] == Asleep then Woken else m[w]
  }

  function WakeWaiters(m: map<Cid, Caller>): map<Cid, Caller> {
    map c | c in m :: if m[c].Waiter? then m[c].(asleep := false) else m[c]
  }

  predicate InReset(c: Caller) {
    c.ResetPaused? || c.ResetStopping? || c.ResetNotifying? || c.ResetJoining? || c.ResetRestoring? || (c.Waiter? && c.inReset)
  }

  // -------------------------------------------------------------------- steps

  /** The worker evaluates its wait condition under the mutex: sleep, leave, or pop a task. */
  ghost predicate Settle(s: State, s': State, w: Wid) {
    if !WorkerReady(s) then
      s' == s.(workers := s.workers[w := Asleep])
    else if !s.up then
      s' == s.(workers := s.workers[w := Exited])
    else
      exists i :: 0 <= i < |s.queue| && MayPop(s, i) &&
        s' == s.(queue := s.queue[..i] + s.queue[i + 1..], running := s.running + 1,
                 workers := s.workers[w := Running(s.queue[i])])
  }

  /** The counter goes down, and the waiters are notified if the last task is done. */
  function Reported(s: State, w: Wid): State
    requires w in s.workers
  {
    var done := s.(running := s.running - 1,
                   finished := if s.workers[w].Running? then s.finished + {s.workers[w].task} else s.finished,
                   workers := s.workers[w := Woken]);
    if s.waiting && DoneCondition(done) then done.(callers := WakeWaiters(s.callers)) else done
  }

  ghost predicate WorkerStep(s: State, e: Event, s': State) {
    match e
    case CheckIn(w) =>
      w in s.workers && (s.workers[w].Starting? || s.workers[w].Running?) && Settle(Reported(s, w), s', w)
    case Recheck(w) => w in s.workers && s.workers[w] == Woken && Settle(s, s', w)
    case SpuriousWorker(w) =>
      w in s.workers && s.workers[w] == Asleep && s' == s.(workers := s.workers[w := Woken])
    case _ => false
  }

  predicate Fresh(s: State, tasks: seq<Task>) {
    && (forall i :: 0 <= i < |tasks| ==> tasks[i] !in s.submitted)
    && (forall i, j :: 0 <= i < j < |tasks| ==> tasks[i] != tasks[j])
  }

  function Enqueued(s: State, tasks: seq<Task>): State {
    s.(queue := s.queue + tasks, submitted := s.submitted + set i | 0 <= i < |tasks| :: tasks[i])
  }

  function At(s: State, c: Cid, k: Caller): State { s.(callers := s.callers[c := k]) }

  ghost predicate QueueStep(s: State, e: Event, s': State) {
    match e
    case DetachTask(c, task) =>
      c in s.callers && s.callers[c] == Free && Fresh(s, [task])
      && s' == At(Enqueued(s, [task]), c, AboutToNotifyOne)
    case DetachBulk(c, tasks) =>
      c in s.callers && s.callers[c] == Free && tasks != [] && Fresh(s, tasks)
      && s' == At(Enqueued(s, tasks), c, if s.queue == [] && !s.paused then AboutToNotifyAll else Free)
    case NotifyOne(c, w) =>
      c in s.callers && s.callers[c] == AboutToNotifyOne
      && if w in s.workers && s.workers[w] == Asleep then
           s' == At(s.(workers := s.workers[w := Woken]), c, Free)
         else
           (forall u :: u in s.workers ==> s.workers[u] != Asleep) && s' == At(s, c, Free)
    case NotifyAll(c) =>
      c in s.callers &&
      (match s.callers[c]
       case AboutToNotifyAll => s' == At(s.(workers := WakeWorkers(s.workers)), c, Free)
       case ResetNotifying(was) => s' == At(s.(workers := WakeWorkers(s.workers)), c, ResetJoining(was))
       case _ => false)
    case Pause(c) => c in s.callers && s.callers[c] == Free && s.opt.pause && s' == s.(paused := true)
    case Unpause(c) =>
      c in s.callers && s.callers[c] == Free && s.opt.pause && s' == At(s.(paused := false), c, AboutToNotifyAll)
    case Purge(c) =>
      c in s.callers && s.callers[c] == Free
      && s' == s.(queue := [], purged := s.purged + set i | 0 <= i < |s.queue| :: s.queue[i])
    case _ => false
  }

  /** After the condition of wait has been seen true. */
  function AfterWait(inReset: bool, was: bool): Caller {
    if inReset then ResetStopping(was) else WaitDone
  }

  ghost predicate WaitStep(s: State, e: Event, s': State) {
    match e
    case Wait(c) =>
      c in s.callers && (s.callers[c] == Free || s.callers[c].ResetPaused?) &&
      var inReset := s.callers[c].ResetPaused?;
      var was := inReset && s.callers[c].was;
      s' == (if DoneCondition(s) then At(s.(waiting := false), c, AfterWait(inReset, was))
             else At(s.(waiting := true), c, Waiter(true, inReset, was)))
    case Rewait(c) =>
      c in s.callers && s.callers[c].Waiter? && !s.callers[c].asleep &&
      var Waiter(_, inReset, was) := s.callers[c];
      s' == (if DoneCondition(s) then At(s.(waiting := false), c, AfterWait(inReset, was))
             else At(s, c, Waiter(true, inReset, was)))
    case SpuriousWaiter(c) =>
      c in s.callers && s.callers[c].Waiter? && s.callers[c].asleep
      && s' == At(s, c, s.callers[c].(asleep := false))
    case Resume(c) => c in s.callers && s.callers[c] == WaitDone && s' == At(s, c, Free)
    case _ => false
  }

  ghost predicate ResetStep(s: State, e: Event, s': State) {
    match e
    case ResetBegin(c) =>
      c in s.callers && s.callers[c] == Free
      && (forall d :: d in s.callers ==> !InReset(s.callers[d]))
      && s' == At(s.(paused := s.paused || s.opt.pause), c, ResetPaused(s.paused))
    case ResetStop(c) =>
      c in s.callers && s.callers[c].ResetStopping? && s' == At(s.(up := false), c, ResetNotifying(s.callers[c].was))
    case ResetCreate(c, n) =>
      c in s.callers && s.callers[c].ResetJoining? && n >= 1
      && (forall w :: w in s.workers ==> s.workers[w] == Exited)
      && s' == At(s.(running := n, up := true, workers := StartingWorkers(n)),
                  c, ResetRestoring(s.callers[c].was))
    case ResetRestore(c) =>
      c in s.callers && s.callers[c].ResetRestoring? &&
      var was := s.callers[c].was;
      s' == (if s.opt.pause then At(s.(paused := was), c, if was then Free else AboutToNotifyAll) else At(s, c, Free))
    case _ => false
  }

  ghost predicate Step(s: State, e: Event, s': State) {
    WorkerStep(s, e, s') || QueueStep(s, e, s') || WaitStep(s, e, s') || ResetStep(s, e, s')
  }

  ghost predicate Init(s: State) {
    && s.queue == [] && !s.paused && !s.waiting && s.up
    && s.workers != map[] && (forall w :: w in s.workers ==> s.workers[w] == Starting)
    && s.running == |s.workers|
    && (forall c :: c in s.callers ==> s.callers[c] == Free)
    && s.submitted == {} && s.finished == {} && s.purged == {}
  }

  /** A run: the states, and the event leading to each next state. */
  ghost predicate Behavior(run: seq<State>, events: seq<Event>) {
    && |run| == |events| + 1 && Init(run[0])
    && forall i: nat :: i < |events| ==> StepAt(run, events, i)
  }

  ghost predicate StepAt(run: seq<State>, events: seq<Event>, i: nat)
    requires |run| == |events| + 1 && i < |events|
  {
    Step(run[i], events[i], run[i + 1])
  }

  // ------------------------------------------------------------------ counting

  ghost function Busy(m: map<Wid, Worker>): (ws: set<Wid>) {
    set w | w in m && (m[w].Starting? || m[w].Running?)
  }

  lemma BusyAfter(m: map<Wid, Worker>, w: Wid, k: Worker)
    requires w in m
    ensures |Busy(m[w := k])| == |Busy(m)| - (if m[w].Starting? || m[w].Running? then 1 else 0)
                                 + (if k.Starting? || k.Running? then 1 else 0)
  {
    var rest := Busy(m) - {w};
    assert Busy(m) == if m[w].Starting? || m[w].Running? then rest + {w} else rest;
    assert Busy(m[w := k]) == if k.Starting? || k.Running? then rest + {w} else rest;
  }

  lemma BusyWoken(m: map<Wid, Worker>)
    ensures Busy(WakeWorkers(m)) == Busy(m)
  {
  }

  ghost predicate CountExact(s: State) { s.running == |Busy(s.workers)| }

  lemma SettleCounts(s: State, s': State, w: Wid)
    requires CountExact(s) && w in s.workers && s.workers[w] == Woken && Settle(s, s', w)
    ensures CountExact(s')
  {
    BusyAfter(s.workers, w, s'.workers[w]);
  }

  lemma ReportCounts(s: State, w: Wid)
    requires CountExact(s) && w in s.workers && (s.workers[w].Starting? || s.workers[w].Running?)
    ensures CountExact(Reported(s, w)) && Reported(s, w).running == s.running - 1
  {
    BusyAfter(s.workers, w, Woken);
  }

  lemma {:induction false} FreshlyStarted(n: nat)
    ensures |Busy(StartingWorkers(n))| == n
  {
    if n == 0 {
      assert Busy(StartingWorkers(n)) == {};
    } else {
      FreshlyStarted(n - 1);
      assert Busy(StartingWorkers(n)) == Busy(StartingWorkers(n - 1)) + {n - 1};
    }
  }

  lemma WorkerCounts(s: State, e: Event, s': State)
    requires CountExact(s) && WorkerStep(s, e, s')
    ensures CountExact(s')
  {
    match e
    case CheckIn(w) =>
      ReportCounts(s, w);
      SettleCounts(Reported(s, w), s', w);
    case Recheck(w) => SettleCounts(s, s', w);
    case SpuriousWorker(w) => BusyAfter(s.workers, w, Woken);
  }

  lemma QueueCounts(s: State, e: Event, s': State)
    requires CountExact(s) && QueueStep(s, e, s')
    ensures CountExact(s')
  {
    if e.NotifyOne? && e.w in s.workers && s.workers[e.w] == Asleep {
      BusyAfter(s.workers, e.w, Woken);
    } else if e.NotifyAll? {
      BusyWoken(s.workers);
    }
  }

  lemma CountKeeps(s: State, e: Event, s': State)
    requires CountExact(s) && Step(s, e, s')
    ensures CountExact(s')
  {
    if WorkerStep(s, e, s') {
      WorkerCounts(s, e, s');
    } else if QueueStep(s, e, s') {
      QueueCounts(s, e, s');
    } else if e.ResetCreate? {
      FreshlyStarted(e.n);
    }
  }

  // -------------------------------------------------------- where each task is

  predicate Queued(s: State, k: Task) { k in s.queue }

  ghost predicate RunningNow(s: State, k: Task) {
    exists w :: w in s.workers && s.workers[w] == Running(k)
  }

  ghost predicate NoRepeats(q: seq<Task>) {
    forall i, j :: 0 <= i < j < |q| ==> q[i] != q[j]
  }

  /** Every submitted task is queued, running, finished or purged, and only one of these. */
  ghost predicate TasksSplit(s: State) {
    && NoRepeats(s.queue)
    && (forall w, u :: w in s.workers && u in s.workers && s.workers[w].Running? && s.workers[w] == s.workers[u] ==> w == u)
    && (forall k :: k in s.submitted <==> Queued(s, k) || RunningNow(s, k) || k in s.finished || k in s.purged)
    && (forall k :: Queued(s, k) ==> !RunningNow(s, k) && k !in s.finished && k !in s.purged)
    && (forall k :: RunningNow(s, k) ==> k !in s.finished && k !in s.purged)
    && s.finished !! s.purged
  }

  /** The worker table changes at w only: what becomes of the running tasks. */
  lemma RunningAfter(s: State, s': State, w: Wid, k: Worker)
    requires w in s.workers && s'.workers == s.workers[w := k]
    requires forall u :: u in s.workers && s.workers[w].Running? && s.workers[u] == s.workers[w] ==> u == w
    ensures forall t :: RunningNow(s', t) <==> k == Running(t) || (RunningNow(s, t) && s.workers[w] != Running(t))
  {
    forall t ensures RunningNow(s', t) <==> k == Running(t) || (RunningNow(s, t) && s.workers[w] != Running(t)) {
      if RunningNow(s, t) && s.workers[w] != Running(t) {
        var u :| u in s.workers && s.workers[u] == Running(t);
        assert u in s'.workers && s'.workers[u] == Running(t);
      }
      if k == Running(t) {
        assert w in s'.workers && s'.workers[w] == Running(t);
      }
    }
  }

  lemma SameRunning(s: State, s': State)
    requires forall w, t :: w in s'.workers && s'.workers[w] == Running(t) <==> w in s.workers && s.workers[w] == Running(t)
    ensures forall t :: RunningNow(s', t) <==> RunningNow(s, t)
  {
    forall t | RunningNow(s, t) ensures RunningNow(s', t) {
      var w :| w in s.workers && s.workers[w] == Running(t);
      assert w in s'.workers && s'.workers[w] == Running(t);
    }
  }

  lemma Removed(q: seq<Task>, i: nat)
    requires NoRepeats(q) && i < |q|
    ensures NoRepeats(q[..i] + q[i + 1..])
    ensures forall k :: k in q[..i] + q[i + 1..] <==> k in q && k != q[i]
  {
    var r := q[..i] + q[i + 1..];
    assert forall j :: 0 <= j < |r| ==> r[j] == if j < i then q[j] else q[j + 1];
    forall k | k in q && k != q[i] ensures k in r {
      var j :| 0 <= j < |q| && q[j] == k;
      assert r[if j < i then j else j - 1] == k;
    }
  }

  lemma PopSplits(s: State, s': State, w: Wid, i: nat)
    requires TasksSplit(s) && w in s.workers && s.workers[w] == Woken && i < |s.queue|
    requires s' == s.(queue := s.queue[..i] + s.queue[i + 1..], running := s.running + 1,
                      workers := s.workers[w := Running(s.queue[i])])
    ensures TasksSplit(s')
  {
    RunningAfter(s, s', w, s'.workers[w]);
    Removed(s.queue, i);
    assert Queued(s, s.queue[i]);
    assert forall u, k :: u in s.workers && s.workers[u] == Running(k) ==> RunningNow(s, k);
  }

  lemma SettleSplits(s: State, s': State, w: Wid)
    requires TasksSplit(s) && w in s.workers && s.workers[w] == Woken && Settle(s, s', w)
    ensures TasksSplit(s')
  {
    if WorkerReady(s) && s.up {
      var i :| 0 <= i < |s.queue| && MayPop(s, i) &&
        s' == s.(queue := s.queue[..i] + s.queue[i + 1..], running := s.running + 1,
                 workers := s.workers[w := Running(s.queue[i])]);
      PopSplits(s, s', w, i);
    } else {
      RunningAfter(s, s', w, s'.workers[w]);
    }
  }

  lemma ReportSplits(s: State, w: Wid)
    requires TasksSplit(s) && w in s.workers && (s.workers[w].Starting? || s.workers[w].Running?)
    ensures TasksSplit(Reported(s, w))
  {
    RunningAfter(s, Reported(s, w), w, Woken);
    assert s.workers[w].Running? ==> RunningNow(s, s.workers[w].task);
  }

  lemma EnqueueSplits(s: State, tasks: seq<Task>)
    requires TasksSplit(s) && Fresh(s, tasks)
    ensures TasksSplit(Enqueued(s, tasks))
  {
    var s' := Enqueued(s, tasks);
    SameRunning(s, s');
    assert forall k :: k in s.queue + tasks <==> k in s.queue || k in tasks;
    assert forall k :: k in tasks ==> k !in s.submitted;
    assert forall i :: 0 <= i < |s.queue| ==> Queued(s, s.queue[i]);
  }

  lemma WorkerSplits(s: State, e: Event, s': State)
    requires TasksSplit(s) && WorkerStep(s, e, s')
    ensures TasksSplit(s')
  {
    match e
    case CheckIn(w) =>
      ReportSplits(s, w);
      SettleSplits(Reported(s, w), s', w);
    case Recheck(w) => SettleSplits(s, s', w);
    case SpuriousWorker(w) => SameRunning(s, s');
  }

  /** Steps that move no task. */
  lemma SplitUnmoved(s: State, s': State)
    requires TasksSplit(s)
    requires s'.queue == s.queue && s'.submitted == s.submitted && s'.finished == s.finished && s'.purged == s.purged
    requires forall w, t :: w in s'.workers && s'.workers[w] == Running(t) <==> w in s.workers && s.workers[w] == Running(t)
    ensures TasksSplit(s')
  {
    SameRunning(s, s');
    assert forall k :: Queued(s', k) == Queued(s, k);
  }

  lemma PurgeSplits(s: State, s': State)
    requires TasksSplit(s)
    requires s' == s.(queue := [], purged := s.purged + set i | 0 <= i < |s.queue| :: s.queue[i])
    ensures TasksSplit(s')
  {
    SameRunning(s, s');
    assert forall i :: 0 <= i < |s.queue| ==> Queued(s, s.queue[i]);
    assert forall k :: k in s'.purged <==> k in s.purged || Queued(s, k);
  }

  lemma QueueSplits(s: State, e: Event, s': State)
    requires TasksSplit(s) && QueueStep(s, e, s')
    ensures TasksSplit(s')
  {
    match e
    case DetachTask(_, task) =>
      EnqueueSplits(s, [task]);
      SplitUnmoved(Enqueued(s, [task]), s');
    case DetachBulk(_, tasks) =>
      EnqueueSplits(s, tasks);
      SplitUnmoved(Enqueued(s, tasks), s');
    case Purge(_) => PurgeSplits(s, s');
    case _ => SplitUnmoved(s, s');
  }

  lemma ResetSplits(s: State, e: Event, s': State)
    requires TasksSplit(s) && ResetStep(s, e, s')
    ensures TasksSplit(s')
  {
    SplitUnmoved(s, s');
  }

  lemma SplitKeeps(s: State, e: Event, s': State)
    requires TasksSplit(s) && Step(s, e, s')
    ensures TasksSplit(s')
  {
    if WorkerStep(s, e, s') {
      WorkerSplits(s, e, s');
    } else if QueueStep(s, e, s') {
      QueueSplits(s, e, s');
    } else if WaitStep(s, e, s') {
      SplitUnmoved(s, s');
    } else {
      ResetSplits(s, e, s');
    }
  }

  // --------------------------------------------------------- no stranded queue

  ghost predicate SomeoneAwake(s: State) {
    exists w :: w in s.workers && (s.workers[w].Starting? || s.workers[w].Running? || s.workers[w].Woken?)
  }

  ghost predicate SomeoneNotifies(s: State) {
    exists c :: c in s.callers && (s.callers[c].AboutToNotifyOne? || s.callers[c].AboutToNotifyAll?)
  }

  /** Work that may be taken is never left to sleeping workers alone. */
  ghost predicate NotStranded(s: State) {
    s.up && !s.paused && s.queue != [] ==> SomeoneAwake(s) || SomeoneNotifies(s)
  }

  predicate Telling(s: State, c: Cid) { c in s.callers && s.callers[c].ResetNotifying? }

  predicate Joining(s: State, c: Cid) { c in s.callers && s.callers[c].ResetJoining? }

  predicate Resetting(s: State, c: Cid) { c in s.callers && InReset(s.callers[c]) }

  predicate Dozing(s: State, w: Wid) { w in s.workers && s.workers[w] == Asleep }

  /** One reset at a time, and the pool is down exactly while that reset stops its workers. */
  ghost predicate ResetAccounted(s: State) {
    && (forall c, d :: Resetting(s, c) && Resetting(s, d) ==> c == d)
    && (forall c :: Telling(s, c) || Joining(s, c) ==> !s.up)
    && (!s.up ==> exists c :: Telling(s, c) || Joining(s, c))
    && (!s.opt.pause ==> !s.paused)
  }

  /** Workers leave only after they have been told to, and then none can stay asleep unnoticed. */
  ghost predicate WorkersAccounted(s: State) {
    && s.workers != map[]
    && (s.up ==> forall w :: w in s.workers ==> s.workers[w] != Exited)
    && (forall c, w :: Joining(s, c) ==> !Dozing(s, w))
  }

  ghost predicate Awake(s: State, w: Wid) {
    w in s.workers && (s.workers[w].Starting? || s.workers[w].Running? || s.workers[w].Woken?)
  }

  ghost predicate Notifies(s: State, c: Cid) {
    c in s.callers && (s.callers[c].AboutToNotifyOne? || s.callers[c].AboutToNotifyAll?)
  }

  /** Callers that were about to notify still are. */
  lemma NotifiersStay(s: State, s': State)
    requires forall c :: Notifies(s, c) ==> Notifies(s', c)
    ensures SomeoneNotifies(s) ==> SomeoneNotifies(s')
  {
    if SomeoneNotifies(s) {
      var c :| c in s.callers && (s.callers[c].AboutToNotifyOne? || s.callers[c].AboutToNotifyAll?);
      assert Notifies(s, c) && Notifies(s', c);
    }
  }

  lemma NoneAsleepIsAwake(s: State)
    requires WorkersAccounted(s) && forall w :: w in s.workers ==> s.workers[w] != Asleep
    ensures s.up ==> SomeoneAwake(s)
  {
    var w :| w in s.workers;
    assert s.up ==> s.workers[w] != Asleep && s.workers[w] != Exited;
  }

  lemma WorkerStrandsNone(s: State, e: Event, s': State)
    requires NotStranded(s) && WorkerStep(s, e, s')
    ensures NotStranded(s')
  {
    var w := e.w;
    if s'.up && !s'.paused && s'.queue != [] {
      assert w in s'.workers && s'.workers[w] != Asleep && s'.workers[w] != Exited;
    }
  }

  lemma QueueStrandsNone(s: State, e: Event, s': State)
    requires NotStranded(s) && ResetAccounted(s) && WorkersAccounted(s) && WorkersAccounted(s') && QueueStep(s, e, s')
    ensures NotStranded(s')
  {
    match e
    case DetachTask(c, _) => assert Notifies(s', c);
    case DetachBulk(c, _) =>
      NotifiersStay(s, s');
      assert s.queue == [] && !s.paused ==> Notifies(s', c);
    case NotifyOne(_, w) =>
      if w in s.workers && s.workers[w] == Asleep {
        assert Awake(s', w);
      } else {
        NoneAsleepIsAwake(s');
      }
    case NotifyAll(_) => NoneAsleepIsAwake(s');
    case Unpause(c) => assert Notifies(s', c);
    case _ =>
  }

  lemma WaitStrandsNone(s: State, e: Event, s': State)
    requires NotStranded(s) && WaitStep(s, e, s')
    ensures NotStranded(s')
  {
    NotifiersStay(s, s');
  }

  lemma ResetStrandsNone(s: State, e: Event, s': State)
    requires NotStranded(s) && WorkersAccounted(s') && ResetStep(s, e, s')
    ensures NotStranded(s')
  {
    NotifiersStay(s, s');
    match e
    case ResetCreate(_, _) => NoneAsleepIsAwake(s');
    case ResetRestore(c) => assert s.opt.pause && !s'.paused ==> Notifies(s', c);
    case _ =>
  }

  /** Callers change at c only, if at all. */
  ghost predicate OnlyCaller(s: State, s': State, c: Cid) {
    forall d :: d != c ==> (d in s'.callers <==> d in s.callers) && (d in s.callers ==> s'.callers[d] == s.callers[d])
  }

  lemma OthersStay(s: State, s': State, c: Cid)
    requires OnlyCaller(s, s', c)
    ensures forall d :: d != c ==>
      Telling(s', d) == Telling(s, d) && Joining(s', d) == Joining(s, d) && Resetting(s', d) == Resetting(s, d)
  {
  }

  /** Steps after which the same callers are at the same place in reset. */
  lemma ResetUnmoved(s: State, s': State)
    requires ResetAccounted(s) && s'.up == s.up && s'.opt == s.opt && (!s.opt.pause ==> !s'.paused)
    requires forall d :: Telling(s', d) == Telling(s, d) && Joining(s', d) == Joining(s, d) && Resetting(s', d) == Resetting(s, d)
    ensures ResetAccounted(s')
  {
  }

  lemma WorkerLeavesCallers(s: State, e: Event, s': State)
    requires WorkerStep(s, e, s')
    ensures s'.up == s.up && s'.opt == s.opt && s'.paused == s.paused
    ensures forall d :: Telling(s', d) == Telling(s, d) && Joining(s', d) == Joining(s, d) && Resetting(s', d) == Resetting(s, d)
  {
  }

  lemma WorkerAccounts(s: State, e: Event, s': State)
    requires ResetAccounted(s) && WorkersAccounted(s) && WorkerStep(s, e, s')
    ensures WorkersAccounted(s')
  {
    WorkerLeavesCallers(s, e, s');
    assert e.w in s'.workers;
    assert forall u :: u != e.w ==> Dozing(s', u) == Dozing(s, u);
    assert Dozing(s', e.w) ==> s.up;
  }

  lemma WokenAccounts(s: State, s': State)
    requires WorkersAccounted(s) && s'.up == s.up && s'.workers == WakeWorkers(s.workers)
    ensures WorkersAccounted(s')
    ensures forall w :: !Dozing(s', w)
  {
    var w :| w in s.workers;
    assert w in s'.workers;
  }

  lemma NotifyAllAccounts(s: State, e: Event, s': State)
    requires ResetAccounted(s) && WorkersAccounted(s) && e.NotifyAll? && QueueStep(s, e, s')
    ensures ResetAccounted(s') && WorkersAccounted(s')
  {
    OthersStay(s, s', e.c);
    WokenAccounts(s, s');
    if Telling(s, e.c) {
      assert Joining(s', e.c);
      assert Resetting(s, e.c);
      assert forall d :: Resetting(s', d) == Resetting(s, d);
    } else {
      ResetUnmoved(s, s');
    }
  }

  /** Steps that put no worker to sleep, end none, and leave every caller at its place in reset. */
  lemma AccountsUnmoved(s: State, s': State)
    requires ResetAccounted(s) && WorkersAccounted(s) && s'.up == s.up && s'.opt == s.opt && (!s.opt.pause ==> !s'.paused)
    requires s'.workers.Keys == s.workers.Keys
    requires forall w :: w in s.workers ==> s'.workers[w] == s.workers[w] || s'.workers[w] == Woken
    requires forall d :: Telling(s', d) == Telling(s, d) && Joining(s', d) == Joining(s, d) && Resetting(s', d) == Resetting(s, d)
    ensures ResetAccounted(s') && WorkersAccounted(s')
  {
    ResetUnmoved(s, s');
    assert forall w :: Dozing(s', w) ==> Dozing(s, w);
    var w :| w in s.workers;
    assert w in s'.workers;
  }

  lemma QueueMovesNoReset(s: State, e: Event, s': State)
    requires ResetAccounted(s) && !e.NotifyAll? && QueueStep(s, e, s')
    ensures s'.up == s.up && s'.opt == s.opt && (!s.opt.pause ==> !s'.paused)
    ensures s'.workers.Keys == s.workers.Keys
    ensures forall w :: w in s.workers ==> s'.workers[w] == s.workers[w] || s'.workers[w] == Woken
  {
  }

  lemma QueueMovesNoCaller(s: State, e: Event, s': State)
    requires !e.NotifyAll? && QueueStep(s, e, s')
    ensures forall d :: Telling(s', d) == Telling(s, d) && Joining(s', d) == Joining(s, d) && Resetting(s', d) == Resetting(s, d)
  {
  }

  lemma WaitMovesNoWorker(s: State, e: Event, s': State)
    requires WaitStep(s, e, s')
    ensures s'.up == s.up && s'.opt == s.opt && s'.paused == s.paused && s'.workers == s.workers
  {
  }

  lemma WaitMovesNoReset(s: State, e: Event, s': State)
    requires WaitStep(s, e, s')
    ensures forall d :: Telling(s', d) == Telling(s, d) && Joining(s', d) == Joining(s, d) && Resetting(s', d) == Resetting(s, d)
  {
    WaitOnly(s, e, s');
    OthersStay(s, s', e.c);
    WaitOwn(s, e, s');
  }

  lemma WaitOnly(s: State, e: Event, s': State)
    requires WaitStep(s, e, s')
    ensures OnlyCaller(s, s', e.c)
  {
  }

  lemma WaitOwn(s: State, e: Event, s': State)
    requires WaitStep(s, e, s')
    ensures !Telling(s', e.c) && !Telling(s, e.c) && !Joining(s', e.c) && !Joining(s, e.c)
    ensures Resetting(s', e.c) == Resetting(s, e.c)
  {
  }

  lemma ResetAccounts(s: State, e: Event, s': State)
    requires ResetAccounted(s) && WorkersAccounted(s) && ResetStep(s, e, s')
    ensures ResetAccounted(s') && WorkersAccounted(s')
  {
    OthersStay(s, s', e.c);
    assert e.ResetBegin? ==> forall d :: !Resetting(s, d);
    assert !e.ResetBegin? ==> Resetting(s, e.c);
    assert forall d :: Resetting(s', d) ==> d == e.c;
    assert forall d :: Telling(s', d) || Joining(s', d) ==> Resetting(s', d);
    assert e.ResetStop? ==> Telling(s', e.c);
    assert e.ResetCreate? ==> 0 in s'.workers;
    assert !e.ResetCreate? ==> forall w :: Dozing(s', w) == Dozing(s, w);
  }

  lemma AccountsKeep(s: State, e: Event, s': State)
    requires ResetAccounted(s) && WorkersAccounted(s) && Step(s, e, s')
    ensures ResetAccounted(s') && WorkersAccounted(s')
  {
    if WorkerStep(s, e, s') {
      WorkerLeavesCallers(s, e, s');
      ResetUnmoved(s, s');
      WorkerAccounts(s, e, s');
    } else if QueueStep(s, e, s') {
      if e.NotifyAll? {
        NotifyAllAccounts(s, e, s');
      } else {
        QueueMovesNoReset(s, e, s');
        QueueMovesNoCaller(s, e, s');
        AccountsUnmoved(s, s');
      }
    } else if WaitStep(s, e, s') {
      WaitMovesNoReset(s, e, s');
      WaitMovesNoWorker(s, e, s');
      AccountsUnmoved(s, s');
    } else {
      ResetAccounts(s, e, s');
    }
  }

  lemma StrandsNone(s: State, e: Event, s': State)
    requires NotStranded(s) && ResetAccounted(s) && WorkersAccounted(s) && Step(s, e, s')
    ensures NotStranded(s')
  {
    AccountsKeep(s, e, s');
    if WorkerStep(s, e, s') {
      WorkerStrandsNone(s, e, s');
    } else if QueueStep(s, e, s') {
      QueueStrandsNone(s, e, s');
    } else if WaitStep(s, e, s') {
      WaitStrandsNone(s, e, s');
    } else {
      ResetStrandsNone(s, e, s');
    }
  }

  // ------------------------------------------------------------ whole executions

  ghost predicate Inv(s: State) {
    CountExact(s) && TasksSplit(s) && NotStranded(s) && ResetAccounted(s) && WorkersAccounted(s)
  }

  lemma InitHolds(s: State)
    requires Init(s)
    ensures Inv(s)
  {
    assert Busy(s.workers) == s.workers.Keys;
    assert forall k :: !RunningNow(s, k);
    var w :| w in s.workers;
    assert Awake(s, w);
  }

  lemma StepKeeps(s: State, e: Event, s': State)
    requires Inv(s) && Step(s, e, s')
    ensures Inv(s')
  {
    CountKeeps(s, e, s');
    SplitKeeps(s, e, s');
    StrandsNone(s, e, s');
    AccountsKeep(s, e, s');
  }

  lemma {:induction false} RunKeeps(run: seq<State>, events: seq<Event>, n: nat)
    requires Behavior(run, events) && n < |run|
    ensures Inv(run[n])
  {
    if n == 0 {
      InitHolds(run[0]);
    } else {
      RunKeeps(run, events, n - 1);
      assert StepAt(run, events, n - 1);
      StepKeeps(run[n - 1], events[n - 1], run[n]);
    }
  }

  /** tasks_running is the number of threads starting or executing, and going down never takes it below zero. */
  lemma CounterNeverWraps(run: seq<State>, events: seq<Event>, n: nat)
    requires Behavior(run, events) && n < |run|
    ensures run[n].running == |Busy(run[n].workers)|
    ensures n < |events| && events[n].CheckIn? ==> run[n].running >= 1
  {
    RunKeeps(run, events, n);
    if n < |events| && events[n].CheckIn? {
      var w := events[n].w;
      assert StepAt(run, events, n);
      BusyAfter(run[n].workers, w, Woken);
    }
  }

  // ------------------------------------------------------- tasks over an execution

  predicate Gone(s: State, k: Task) { k in s.submitted && !Queued(s, k) }

  /** Tasks leave the queue for good, and what is finished or purged stays so. */
  ghost predicate Onward(s: State, s': State) {
    && s.submitted <= s'.submitted && s.finished <= s'.finished && s.purged <= s'.purged
    && forall k :: Gone(s, k) ==> Gone(s', k)
  }

  lemma WorkerOnward(s: State, e: Event, s': State)
    requires WorkerStep(s, e, s')
    ensures Onward(s, s') && s'.purged == s.purged
  {
  }

  lemma QueueOnward(s: State, e: Event, s': State)
    requires QueueStep(s, e, s')
    ensures Onward(s, s') && (!e.Purge? ==> s'.purged == s.purged)
  {
    assert e.DetachBulk? ==> forall i :: 0 <= i < |e.tasks| ==> e.tasks[i] !in s.submitted;
  }

  lemma OthersOnward(s: State, e: Event, s': State)
    requires WaitStep(s, e, s') || ResetStep(s, e, s')
    ensures s'.queue == s.queue && s'.submitted == s.submitted && s'.finished == s.finished && s'.purged == s.purged
  {
  }

  lemma GoneForGood(s: State, e: Event, s': State)
    requires Step(s, e, s')
    ensures Onward(s, s') && (!e.Purge? ==> s'.purged == s.purged)
  {
    if WorkerStep(s, e, s') {
      WorkerOnward(s, e, s');
    } else if QueueStep(s, e, s') {
      QueueOnward(s, e, s');
    } else {
      OthersOnward(s, e, s');
    }
  }

  lemma {:induction false} HistoryGrows(run: seq<State>, events: seq<Event>, i: nat, j: nat)
    requires Behavior(run, events) && i <= j < |run|
    ensures Onward(run[i], run[j])
    ensures (forall n :: i <= n < j ==> !events[n].Purge?) ==> run[j].purged == run[i].purged
  {
    if i < j {
      HistoryGrows(run, events, i, j - 1);
      assert StepAt(run, events, j - 1);
      GoneForGood(run[j - 1], events[j - 1], run[j]);
    }
  }

  ghost predicate Starts(s: State, s': State, k: Task) { !RunningNow(s, k) && RunningNow(s', k) }

  lemma QueueStartsNone(s: State, e: Event, s': State, w: Wid, k: Task)
    requires QueueStep(s, e, s') && w in s'.workers && s'.workers[w] == Running(k)
    ensures w in s.workers && s.workers[w] == Running(k)
  {
  }

  lemma OthersStartNone(s: State, e: Event, s': State, w: Wid, k: Task)
    requires WaitStep(s, e, s') || ResetStep(s, e, s')
    requires w in s'.workers && s'.workers[w] == Running(k)
    ensures w in s.workers && s.workers[w] == Running(k)
  {
  }

  lemma WorkerStarts(s: State, e: Event, s': State, w: Wid, k: Task)
    requires WorkerStep(s, e, s') && w in s'.workers && s'.workers[w] == Running(k)
    requires !(w in s.workers && s.workers[w] == Running(k))
    ensures Queued(s, k)
  {
    assert w == e.w;
  }

  lemma StartTakesFromQueue(s: State, e: Event, s': State, k: Task)
    requires Inv(s) && Step(s, e, s') && Starts(s, s', k)
    ensures Queued(s, k) && Gone(s', k)
  {
    StepKeeps(s, e, s');
    var w :| w in s'.workers && s'.workers[w] == Running(k);
    assert !(w in s.workers && s.workers[w] == Running(k));
    if WorkerStep(s, e, s') {
      WorkerStarts(s, e, s', w, k);
    } else if QueueStep(s, e, s') {
      QueueStartsNone(s, e, s', w, k);
    } else {
      OthersStartNone(s, e, s', w, k);
    }
    assert k in s.submitted;
    GoneForGood(s, e, s');
  }

  lemma StartedInRun(run: seq<State>, events: seq<Event>, i: nat, k: Task)
    requires Behavior(run, events) && i < |events| && Starts(run[i], run[i + 1], k)
    ensures Queued(run[i], k) && Gone(run[i + 1], k)
  {
    RunKeeps(run, events, i);
    assert StepAt(run, events, i);
    StartTakesFromQueue(run[i], events[i], run[i + 1], k);
  }

  lemma GoneLater(run: seq<State>, events: seq<Event>, i: nat, j: nat, k: Task)
    requires Behavior(run, events) && i <= j < |run| && Gone(run[i], k)
    ensures !Queued(run[j], k)
  {
    HistoryGrows(run, events, i, j);
  }

  lemma NotStartedLater(run: seq<State>, events: seq<Event>, i: nat, j: nat, k: Task)
    requires Behavior(run, events) && i < j < |events| && Starts(run[i], run[i + 1], k)
    ensures !Starts(run[j], run[j + 1], k)
  {
    StartedInRun(run, events, i, k);
    GoneLater(run, events, i + 1, j, k);
    if Starts(run[j], run[j + 1], k) {
      StartedInRun(run, events, j, k);
    }
  }

  /** No task is started twice. */
  lemma NoTaskRunsTwice(run: seq<State>, events: seq<Event>, i: nat, j: nat, k: Task)
    requires Behavior(run, events) && i < |events| && j < |events|
    requires Starts(run[i], run[i + 1], k) && Starts(run[j], run[j + 1], k)
    ensures i == j
  {
    if i < j {
      NotStartedLater(run, events, i, j, k);
    }
    if j < i {
      NotStartedLater(run, events, j, i, k);
    }
  }

  /** Pausing, unpausing and resetting lose no task: without a purge, what was submitted is still there or done. */
  lemma NothingLost(run: seq<State>, events: seq<Event>, i: nat, j: nat, k: Task)
    requires Behavior(run, events) && i <= j < |run|
    requires forall n :: i <= n < j ==> !events[n].Purge?
    requires k in run[i].submitted && k !in run[i].purged
    ensures Queued(run[j], k) || RunningNow(run[j], k) || k in run[j].finished
    ensures k in run[i].finished ==> k in run[j].finished && !Queued(run[j], k) && !RunningNow(run[j], k)
  {
    HistoryGrows(run, events, i, j);
    RunKeeps(run, events, j);
  }

  // ------------------------------------------------------------------------ wait

  ghost predicate Returns(s: State, s': State, c: Cid) {
    c in s'.callers && s'.callers[c].WaitDone? && !(c in s.callers && s.callers[c].WaitDone?)
  }

  lemma WorkerReturnsNone(s: State, e: Event, s': State, c: Cid)
    requires WorkerStep(s, e, s')
    ensures !Returns(s, s', c)
  {
    assert forall d :: d in s'.callers && s'.callers[d].WaitDone? ==> d in s.callers && s.callers[d].WaitDone?;
  }

  lemma OthersReturnNone(s: State, e: Event, s': State, c: Cid)
    requires QueueStep(s, e, s') || ResetStep(s, e, s')
    ensures !Returns(s, s', c)
  {
  }

  lemma ReturnsWhenDone(s: State, e: Event, s': State, c: Cid)
    requires Step(s, e, s') && Returns(s, s', c)
    ensures DoneCondition(s')
  {
    if WorkerStep(s, e, s') {
      WorkerReturnsNone(s, e, s', c);
    } else if QueueStep(s, e, s') || ResetStep(s, e, s') {
      OthersReturnNone(s, e, s', c);
    }
  }

  /** When wait returns nothing runs, and on an unpaused pool everything submitted so far is finished or purged. */
  lemma WaitMeansDone(run: seq<State>, events: seq<Event>, i: nat, n: nat, c: Cid, k: Task)
    requires Behavior(run, events) && i <= n < |events| && Returns(run[n], run[n + 1], c)
    requires k in run[i].submitted
    ensures !RunningNow(run[n + 1], k)
    ensures !run[n + 1].paused ==> k in run[n + 1].finished || k in run[n + 1].purged
    ensures k in run[n + 1].finished || k in run[n + 1].purged || Queued(run[n + 1], k)
  {
    var s, s' := run[n], run[n + 1];
    RunKeeps(run, events, n + 1);
    HistoryGrows(run, events, i, n + 1);
    assert StepAt(run, events, n);
    ReturnsWhenDone(s, events[n], s', c);
    assert Busy(s'.workers) == {};
    assert forall w :: w in s'.workers && s'.workers[w] == Running(k) ==> w in Busy(s'.workers);
  }

  predicate AsleepWaiter(s: State, c: Cid) { c in s.callers && s.callers[c].Waiter? && s.callers[c].asleep }

  /** Whoever sleeps in wait has reason to, and the flag that makes workers wake it is up. */
  ghost predicate NoLostWakeup(s: State) {
    forall c :: AsleepWaiter(s, c) ==> s.waiting && !DoneCondition(s)
  }

  ghost predicate SomeWaiterSleeps(s: State) { exists c :: AsleepWaiter(s, c) }

  /** Calls that raise the pause flag or empty the queue, without notifying tasks_done_cv. */
  predicate Silent(s: State, e: Event) {
    || e.Purge?
    || e.Pause?
    || (e.ResetBegin? && s.opt.pause)
    || (e.ResetRestore? && s.opt.pause && e.c in s.callers && s.callers[e.c].ResetRestoring? && s.callers[e.c].was)
  }

  /** A wake-up is about to be lost: decided by the state and the event alone. */
  ghost predicate LosesWakeup(s: State, e: Event) {
    || (Silent(s, e) && s.running == 0 && SomeWaiterSleeps(s))
    || (e.Rewait? && !DoneCondition(s) && !s.waiting)
  }

  lemma ReportLosesNone(s: State, w: Wid)
    requires NoLostWakeup(s) && w in s.workers
    ensures NoLostWakeup(Reported(s, w))
  {
    assert forall c :: AsleepWaiter(Reported(s, w), c) ==> AsleepWaiter(s, c);
  }

  lemma SettleLosesNone(s: State, s': State, w: Wid)
    requires CountExact(s) && NoLostWakeup(s) && w in s.workers && Settle(s, s', w)
    ensures NoLostWakeup(s')
  {
    assert forall c :: AsleepWaiter(s', c) ==> AsleepWaiter(s, c);
  }

  lemma WorkerLosesNone(s: State, e: Event, s': State)
    requires CountExact(s) && NoLostWakeup(s) && WorkerStep(s, e, s')
    ensures NoLostWakeup(s')
  {
    if e.CheckIn? {
      ReportCounts(s, e.w);
      ReportLosesNone(s, e.w);
      SettleLosesNone(Reported(s, e.w), s', e.w);
    } else if e.Recheck? {
      SettleLosesNone(s, s', e.w);
    } else {
      assert forall c :: AsleepWaiter(s', c) ==> AsleepWaiter(s, c);
    }
  }

  lemma QueueLosesWhen(s: State, e: Event, s': State)
    requires NoLostWakeup(s) && QueueStep(s, e, s')
    ensures NoLostWakeup(s') <==> !LosesWakeup(s, e)
  {
    assert forall c :: AsleepWaiter(s', c) <==> AsleepWaiter(s, c);
  }

  lemma WaitLosesWhen(s: State, e: Event, s': State)
    requires NoLostWakeup(s) && WaitStep(s, e, s')
    ensures NoLostWakeup(s') <==> !LosesWakeup(s, e)
  {
    assert forall c :: c != e.c ==> AsleepWaiter(s', c) == AsleepWaiter(s, c);
    assert e.Rewait? && !DoneCondition(s) ==> AsleepWaiter(s', e.c);
  }

  lemma ResetLosesWhen(s: State, e: Event, s': State)
    requires NoLostWakeup(s) && ResetStep(s, e, s')
    ensures NoLostWakeup(s') <==> !LosesWakeup(s, e)
  {
    assert forall c :: AsleepWaiter(s', c) <==> AsleepWaiter(s, c);
  }

  /** Exactly which steps strand a waiter. */
  lemma WakeupLostExactly(s: State, e: Event, s': State)
    requires CountExact(s) && NoLostWakeup(s) && Step(s, e, s')
    ensures NoLostWakeup(s') <==> !LosesWakeup(s, e)
  {
    if WorkerStep(s, e, s') {
      WorkerLosesNone(s, e, s');
    } else if QueueStep(s, e, s') {
      QueueLosesWhen(s, e, s');
    } else if WaitStep(s, e, s') {
      WaitLosesWhen(s, e, s');
    } else {
      ResetLosesWhen(s, e, s');
    }
  }

  lemma RunCounts(run: seq<State>, events: seq<Event>, n: nat)
    requires Behavior(run, events) && n < |run|
    ensures CountExact(run[n])
  {
    RunKeeps(run, events, n);
  }

  lemma NoneSleepsAtFirst(s: State)
    requires Init(s)
    ensures NoLostWakeup(s)
  {
  }

  /** Over a whole run: no waiter ever sleeps for no reason exactly when no event loses a wake-up. */
  lemma {:induction false} WakeupLostExactlyInRun(run: seq<State>, events: seq<Event>, n: nat)
    requires Behavior(run, events) && n < |run|
    ensures (forall i :: 0 <= i <= n ==> NoLostWakeup(run[i])) <==> (forall i :: 0 <= i < n ==> !LosesWakeup(run[i], events[i]))
  {
    if n == 0 {
      NoneSleepsAtFirst(run[0]);
    } else {
      WakeupLostExactlyInRun(run, events, n - 1);
      if NoLostWakeup(run[n - 1]) {
        RunCounts(run, events, n - 1);
        assert StepAt(run, events, n - 1);
        WakeupLostExactly(run[n - 1], events[n - 1], run[n]);
      }
    }
  }

  ghost predicate Waits(s: State, c: Cid) { c in s.callers && s.callers[c].Waiter? }

  ghost predicate SomeoneWaits(s: State) { exists c :: Waits(s, c) }

  /** While somebody waits nobody else starts to, and nobody purges, pauses or raises the pause flag in a reset. */
  ghost predicate Solo(s: State, e: Event) {
    SomeoneWaits(s) ==> !e.Wait? && !Silent(s, e)
  }

  ghost predicate SoloInv(s: State) {
    && NoLostWakeup(s)
    && (forall c :: Waits(s, c) ==> s.waiting)
    && (forall c, d :: Waits(s, c) && Waits(s, d) ==> c == d)
  }

  ghost predicate SoloBehavior(run: seq<State>, events: seq<Event>) {
    Behavior(run, events) && forall n :: 0 <= n < |events| ==> Solo(run[n], events[n])
  }

  lemma SoloLosesNone(s: State, e: Event, s': State)
    requires SoloInv(s) && Solo(s, e) && Step(s, e, s')
    ensures !LosesWakeup(s, e)
  {
    assert SomeWaiterSleeps(s) ==> SomeoneWaits(s) by {
      if c :| AsleepWaiter(s, c) {
        assert Waits(s, c);
      }
    }
    assert e.Rewait? ==> WorkerStep(s, e, s') || Waits(s, e.c);
  }

  lemma WorkerKeepsWaiters(s: State, e: Event, s': State)
    requires WorkerStep(s, e, s')
    ensures s'.waiting == s.waiting && forall c :: Waits(s', c) == Waits(s, c)
  {
  }

  lemma QueueKeepsWaiters(s: State, e: Event, s': State)
    requires QueueStep(s, e, s')
    ensures s'.waiting == s.waiting && forall c :: Waits(s', c) == Waits(s, c)
  {
  }

  lemma ResetKeepsWaiters(s: State, e: Event, s': State)
    requires ResetStep(s, e, s')
    ensures s'.waiting == s.waiting && forall c :: Waits(s', c) == Waits(s, c)
  {
  }

  /** A wait starts only when nobody waits, and the flag stays up until the waiter leaves. */
  lemma WaitKeepsFlag(s: State, e: Event, s': State)
    requires SoloInv(s) && Solo(s, e) && WaitStep(s, e, s')
    ensures forall c :: Waits(s', c) ==> s'.waiting && (Waits(s, c) || (c == e.c && !SomeoneWaits(s)))
  {
    WaitOnly(s, e, s');
    assert forall c :: c != e.c ==> Waits(s', c) == Waits(s, c);
    assert !e.Wait? && !e.Rewait? ==> s'.waiting == s.waiting;
    forall c | Waits(s', c) ensures s'.waiting && (Waits(s, c) || (c == e.c && !SomeoneWaits(s))) {
      assert Waits(s, c) ==> SomeoneWaits(s) && s.waiting;
      assert e.Rewait? ==> Waits(s, e.c);
      assert SomeoneWaits(s) ==> !e.Wait?;
    }
  }

  lemma SoloAfter(s: State, s': State, c: Cid)
    requires SoloInv(s) && NoLostWakeup(s')
    requires forall d :: Waits(s', d) ==> s'.waiting && (Waits(s, d) || (d == c && !SomeoneWaits(s)))
    ensures SoloInv(s')
  {
    forall d, e | Waits(s', d) && Waits(s', e) ensures d == e {
      assert Waits(s, d) ==> SomeoneWaits(s);
    }
  }

  lemma SoloStep(s: State, e: Event, s': State)
    requires CountExact(s) && SoloInv(s) && Solo(s, e) && Step(s, e, s')
    ensures SoloInv(s')
  {
    SoloLosesNone(s, e, s');
    WakeupLostExactly(s, e, s');
    if WorkerStep(s, e, s') {
      WorkerKeepsWaiters(s, e, s');
      SoloAfter(s, s', 0);
    } else if QueueStep(s, e, s') {
      QueueKeepsWaiters(s, e, s');
      SoloAfter(s, s', e.c);
    } else if WaitStep(s, e, s') {
      WaitKeepsFlag(s, e, s');
      SoloAfter(s, s', e.c);
    } else {
      ResetKeepsWaiters(s, e, s');
      SoloAfter(s, s', e.c);
    }
  }

  lemma SoloInit(s: State)
    requires Init(s)
    ensures SoloInv(s)
  {
  }

  lemma {:induction false} SoloKeeps(run: seq<State>, events: seq<Event>, n: nat)
    requires SoloBehavior(run, events) && n < |run|
    ensures SoloInv(run[n])
  {
    if n == 0 {
      SoloInit(run[0]);
    } else {
      SoloKeeps(run, events, n - 1);
      RunCounts(run, events, n - 1);
      assert Solo(run[n - 1], events[n - 1]) && StepAt(run, events, n - 1);
      SoloStep(run[n - 1], events[n - 1], run[n]);
    }
  }

  /** Other callers' steps cannot make a sleeping waiter's condition true unless they are silent. */
  lemma CallersMakeNoneTrue(s: State, e: Event, s': State)
    requires QueueStep(s, e, s') || WaitStep(s, e, s') || ResetStep(s, e, s')
    requires !Silent(s, e) && !DoneCondition(s)
    ensures !DoneCondition(s')
  {
  }

  lemma TurnsTrueInWorkerStep(s: State, e: Event, s': State, c: Cid)
    requires SoloInv(s) && SoloInv(s') && Solo(s, e) && Step(s, e, s') && AsleepWaiter(s, c)
    ensures !DoneCondition(s)
    ensures DoneCondition(s') ==> e.CheckIn? && Waits(s', c) && !s'.callers[c].asleep
  {
    assert Waits(s, c);
    assert !AsleepWaiter(s', c) || !DoneCondition(s');
    if WorkerStep(s, e, s') {
      WorkerKeepsWaiters(s, e, s');
      assert e.Recheck? || e.SpuriousWorker? ==> AsleepWaiter(s', c);
    } else {
      CallersMakeNoneTrue(s, e, s');
    }
  }

  /** A waiter whom no other wait, purge, pause or reset overlaps sees its condition turn true only in a worker's step,
   *  and that step wakes it; before and after, the pool may be paused, purged, reset and waited for at will.
   */
  lemma LoneWaiterIsWoken(run: seq<State>, events: seq<Event>, n: nat, c: Cid)
    requires SoloBehavior(run, events) && n < |events|
    requires AsleepWaiter(run[n], c)
    ensures !DoneCondition(run[n])
    ensures DoneCondition(run[n + 1]) ==> events[n].CheckIn? && Waits(run[n + 1], c) && !run[n + 1].callers[c].asleep
  {
    SoloKeeps(run, events, n);
    SoloKeeps(run, events, n + 1);
    assert Solo(run[n], events[n]) && StepAt(run, events, n);
    TurnsTrueInWorkerStep(run[n], events[n], run[n + 1], c);
  }

  // ---------------------------------------------------- concrete lost wake-ups

  /** A pool of one worker used by two callers, on a plain queue without pausing. */
  function Small(worker: Worker, first: Caller, second: Caller, queue: seq<Task>, running: int, waiting: bool,
                 submitted: set<Task>, finished: set<Task>, purged: set<Task>): State
  {
    State(Options(false, false, (k: Task) => 0), queue, running, false, waiting, true, map[0 := worker],
          map[0 := first, 1 := second], submitted, finished, purged)
  }

  const Sleeper := Waiter(true, false, false)
  const Riser := Waiter(false, false, false)

  /** Nobody will run again unless somebody makes a new call or wakes up for no reason. */
  ghost predicate AllAsleep(s: State) {
    && (forall w :: w in s.workers ==> s.workers[w] == Asleep)
    && (forall c :: c in s.callers ==> s.callers[c] == Free || AsleepWaiter(s, c))
  }

  lemma EnqueueOne(s: State, k: Task)
    ensures Enqueued(s, [k]) == s.(queue := s.queue + [k], submitted := s.submitted + {k})
  {
    var added := set i | 0 <= i < |[k]| :: [k][i];
    assert [k][0] in added;
    assert added == {k};
  }

  /** One caller submits a task, the other waits, and the first purges before the worker is up. */
  function PurgeState(n: nat): State {
    if n == 0 then Small(Starting, Free, Free, [], 1, false, {}, {}, {})
    else if n == 1 then Small(Asleep, Free, Free, [], 0, false, {}, {}, {})
    else if n == 2 then Small(Asleep, AboutToNotifyOne, Free, [7], 0, false, {7}, {}, {})
    else if n == 3 then Small(Asleep, AboutToNotifyOne, Sleeper, [7], 0, true, {7}, {}, {})
    else if n == 4 then Small(Woken, Free, Sleeper, [7], 0, true, {7}, {}, {})
    else if n == 5 then Small(Woken, Free, Sleeper, [], 0, true, {7}, {}, {7})
    else Small(Asleep, Free, Sleeper, [], 0, true, {7}, {}, {7})
  }

  const PurgeEvents: seq<Event> := [CheckIn(0), DetachTask(0, 7), Wait(1), NotifyOne(0, 0), Purge(0), Recheck(0)]

  lemma PurgeFirstSteps(n: nat)
    requires n < 4 && n != 1
    ensures Step(PurgeState(n), PurgeEvents[n], PurgeState(n + 1))
  {
  }

  lemma PurgeLastSteps(n: nat)
    requires 4 <= n < 6
    ensures Step(PurgeState(n), PurgeEvents[n], PurgeState(n + 1))
  {
    assert PurgeState(4).queue == [7] && [7][0] == 7;
  }

  lemma SubmitStep(s: State, k: Task, c: Cid)
    requires c in s.callers && s.callers[c] == Free && k !in s.submitted
    ensures Step(s, DetachTask(c, k), At(s.(queue := s.queue + [k], submitted := s.submitted + {k}), c, AboutToNotifyOne))
  {
    EnqueueOne(s, k);
  }

  lemma PurgeSubmit()
    ensures Step(PurgeState(1), PurgeEvents[1], PurgeState(2))
  {
    SubmitStep(PurgeState(1), 7, 0);
  }

  lemma PurgeStep(n: nat)
    requires n < 6
    ensures Step(PurgeState(n), PurgeEvents[n], PurgeState(n + 1))
  {
    if n == 1 {
      PurgeSubmit();
    } else if n < 4 {
      PurgeFirstSteps(n);
    } else {
      PurgeLastSteps(n);
    }
  }

  /** A purge makes the condition of wait true and wakes nobody: the waiter sleeps on. */
  lemma PurgeStrandsWaiter() returns (run: seq<State>)
    ensures Behavior(run, PurgeEvents)
    ensures var last := run[|PurgeEvents|];
      AsleepWaiter(last, 1) && last.waiting && DoneCondition(last) && AllAsleep(last)
  {
    run := seq(7, n requires n >= 0 => PurgeState(n));
    assert |PurgeState(0).workers| == 1;
    forall n: nat | n < 6 ensures StepAt(run, PurgeEvents, n) {
      PurgeStep(n);
    }
  }

  /** Two callers wait; the first to leave lowers the flag and submits a task before the second is up. */
  function FlagState(n: nat): State {
    if n == 0 then Small(Starting, Free, Free, [], 1, false, {}, {}, {})
    else if n == 1 then Small(Starting, Sleeper, Free, [], 1, true, {}, {}, {})
    else if n == 2 then Small(Starting, Sleeper, Sleeper, [], 1, true, {}, {}, {})
    else if n == 3 then Small(Asleep, Riser, Riser, [], 0, true, {}, {}, {})
    else if n == 4 then Small(Asleep, WaitDone, Riser, [], 0, false, {}, {}, {})
    else if n == 5 then Small(Asleep, Free, Riser, [], 0, false, {}, {}, {})
    else if n == 6 then Small(Asleep, AboutToNotifyOne, Riser, [7], 0, false, {7}, {}, {})
    else if n == 7 then Small(Asleep, AboutToNotifyOne, Sleeper, [7], 0, false, {7}, {}, {})
    else if n == 8 then Small(Woken, Free, Sleeper, [7], 0, false, {7}, {}, {})
    else if n == 9 then Small(Running(7), Free, Sleeper, [], 1, false, {7}, {}, {})
    else Small(Asleep, Free, Sleeper, [], 0, false, {7}, {7}, {})
  }

  const FlagEvents: seq<Event> :=
    [Wait(0), Wait(1), CheckIn(0), Rewait(0), Resume(0), DetachTask(0, 7), Rewait(1), NotifyOne(0, 0), Recheck(0), CheckIn(0)]

  lemma FlagStepsWaiting(n: nat)
    requires n < 3
    ensures Step(FlagState(n), FlagEvents[n], FlagState(n + 1))
  {
  }

  lemma FlagStepsLeaving(n: nat)
    requires 3 <= n < 5
    ensures Step(FlagState(n), FlagEvents[n], FlagState(n + 1))
  {
  }

  lemma FlagStepsSubmitting(n: nat)
    requires 6 <= n < 8
    ensures Step(FlagState(n), FlagEvents[n], FlagState(n + 1))
  {
  }

  lemma FlagStepsRunning(n: nat)
    requires 8 <= n < 10
    ensures Step(FlagState(n), FlagEvents[n], FlagState(n + 1))
  {
    if n == 8 {
      assert MayPop(FlagState(8), 0);
    }
  }

  lemma FlagSubmit()
    ensures Step(FlagState(5), FlagEvents[5], FlagState(6))
  {
    var s := FlagState(5);
    SubmitStep(s, 7, 0);
    assert s.queue + [7] == [7] && s.submitted + {7} == {7};
    assert s.callers[0 := AboutToNotifyOne] == FlagState(6).callers;
  }

  lemma FlagStep(n: nat)
    requires n < 10
    ensures Step(FlagState(n), FlagEvents[n], FlagState(n + 1))
  {
    if n < 3 {
      FlagStepsWaiting(n);
    } else if n < 5 {
      FlagStepsLeaving(n);
    } else if n == 5 {
      FlagSubmit();
    } else if n < 8 {
      FlagStepsSubmitting(n);
    } else {
      FlagStepsRunning(n);
    }
  }

  /** All waiters share one flag: the first to leave lowers it, and the second sleeps on after the last task. */
  lemma SharedFlagStrandsWaiter() returns (run: seq<State>)
    ensures Behavior(run, FlagEvents)
    ensures forall n :: 0 <= n < |FlagEvents| ==> !Silent(run[n], FlagEvents[n])
    ensures var last := run[|FlagEvents|];
      AsleepWaiter(last, 1) && !last.waiting && DoneCondition(last) && AllAsleep(last)
  {
    run := seq(11, n requires n >= 0 => FlagState(n));
    assert |FlagState(0).workers| == 1;
    forall n: nat | n < 10 ensures StepAt(run, FlagEvents, n) {
      FlagStep(n);
    }
  }
}

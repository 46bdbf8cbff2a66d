/** The two levels of locks of the concurrent tables, and the order in which they are taken.
 *
 *  Each table has an array of read-write locks acting as one: readers take one of
 *  them, writers all of them, one after another.  Under that, a thread takes at
 *  most one group lock at a time.
 */
module LockOrder {

  /** Locks per table. */
  const N := 128

  type Tid = nat

  datatype Mode = Shared | Exclusive

  /** A table is named by the address of its lock array. */
  datatype Lock = Container(table: nat, index: nat) | Group(table: nat, group: nat)

  datatype GroupUse = NoGroup | Wanting(lock: Lock, how: Mode) | Using(lock: Lock, how: Mode)

  /** A thread in an operation takes the locks of `order` one by one, then works, then lets them go backwards. */
  datatype Thread =
    | Idle
    | Busy(mode: Mode, order: seq<Lock>, taken: nat, releasing: bool, group: GroupUse)

  type State = map<Tid, Thread>

  // ---------------------------------------------------------------- lock orders

  function FirstLocks(table: nat, n: nat): (s: seq<Lock>)
    ensures |s| == n
    ensures forall i :: 0 <= i < n ==> s[i] == Container(table, i)
  {
    if n == 0 then [] else FirstLocks(table, n - 1) + [Container(table, n - 1)]
  }

  function AllLocks(table: nat): seq<Lock> { FirstLocks(table, N) }

  /** Two tables: the one at the lower address first; the same table twice is locked once. */
  function BothLocks(x: nat, y: nat): seq<Lock> {
    if x == y then AllLocks(x) else if x < y then AllLocks(x) + AllLocks(y) else AllLocks(y) + AllLocks(x)
  }

  // ---------------------------------------------------------------------- steps

  predicate Ready(k: Thread) { k.Busy? && k.taken == |k.order| && !k.releasing }

  /** The lock the thread is waiting for, if any. */
  predicate Wants(k: Thread, l: Lock, m: Mode) {
    k.Busy? && !k.releasing &&
    if k.taken < |k.order| then l == k.order[k.taken] && m == k.mode else k.group == Wanting(l, m)
  }

  ghost predicate Holds(k: Thread, l: Lock, m: Mode) {
    k.Busy? && ((m == k.mode && exists i :: 0 <= i < k.taken && i < |k.order| && k.order[i] == l) || k.group == Using(l, m))
  }

  predicate Clash(m: Mode, n: Mode) { m == Exclusive || n == Exclusive }

  /** Somebody else holds the lock in a way that excludes this one. */
  ghost predicate HeldAgainst(s: State, t: Tid, l: Lock, m: Mode, u: Tid) {
    u in s && u != t && exists n :: Holds(s[u], l, n) && Clash(m, n)
  }

  /** A lock may be taken when no holder is in the way. */
  ghost predicate Grantable(s: State, t: Tid, l: Lock, m: Mode) {
    forall u :: !HeldAgainst(s, t, l, m, u)
  }

  datatype Event =
    | BeginShared(t: Tid, table: nat, id: nat)
    | BeginExclusive(t: Tid, table: nat)
    | BeginBoth(t: Tid, x: nat, y: nat)
    | Take(t: Tid)
    | WantGroup(t: Tid, table: nat, g: nat, how: Mode)
    | TakeGroup(t: Tid)
    | DropGroup(t: Tid)
    | Finish(t: Tid)
    | Release(t: Tid)

  ghost predicate Step(s: State, e: Event, s': State) {
    e.t in s && var k := s[e.t];
    match e
    case BeginShared(t, table, id) =>
      k == Idle && id < N && s' == s[t := Busy(Shared, [Container(table, id)], 0, false, NoGroup)]
    case BeginExclusive(t, table) =>
      k == Idle && s' == s[t := Busy(Exclusive, AllLocks(table), 0, false, NoGroup)]
    case BeginBoth(t, x, y) =>
      k == Idle && s' == s[t := Busy(Exclusive, BothLocks(x, y), 0, false, NoGroup)]
    case Take(t) =>
      k.Busy? && !k.releasing && k.taken < |k.order| && Grantable(s, t, k.order[k.taken], k.mode)
      && s' == s[t := k.(taken := k.taken + 1)]
    case WantGroup(t, table, g, how) =>
      Ready(k) && k.group == NoGroup && s' == s[t := k.(group := Wanting(Group(table, g), how))]
    case TakeGroup(t) =>
      Ready(k) && k.group.Wanting? && Grantable(s, t, k.group.lock, k.group.how)
      && s' == s[t := k.(group := Using(k.group.lock, k.group.how))]
    case DropGroup(t) => Ready(k) && k.group.Using? && s' == s[t := k.(group := NoGroup)]
    case Finish(t) => Ready(k) && k.group == NoGroup && s' == s[t := k.(releasing := true)]
    case Release(t) =>
      k.Busy? && k.releasing && s' == s[t := if k.taken > 1 then k.(taken := k.taken - 1) else Idle]
  }

  ghost predicate Init(s: State) { forall t :: t in s ==> s[t] == Idle }

  ghost predicate Behavior(run: seq<State>, events: seq<Event>) {
    && |run| == |events| + 1 && Init(run[0])
    && forall i: nat :: i < |events| ==> StepAt(run, events, i)
  }

  ghost predicate StepAt(run: seq<State>, events: seq<Event>, i: nat)
    requires |run| == |events| + 1 && i < |events|
  {
    Step(run[i], events[i], run[i + 1])
  }

  // ------------------------------------------------------------------ lock order

  /** Container locks by address and index; group locks after all of them, in no order among themselves. */
  predicate Before(a: Lock, b: Lock) {
    match (a, b)
    case (Container(x, i), Container(y, j)) => x < y || (x == y && i < j)
    case (Container(_, _), Group(_, _)) => true
    case _ => false
  }

  predicate InOrder(order: seq<Lock>) {
    && (forall i :: 0 <= i < |order| ==> order[i].Container?)
    && (forall i, j :: 0 <= i < j < |order| ==> Before(order[i], order[j]))
  }

  lemma OrdersAscend(x: nat, y: nat)
    ensures InOrder(AllLocks(x)) && InOrder(BothLocks(x, y))
  {
  }

  /** A thread holds the first `taken` locks of an ascending list; readers have one lock, writers all of some table. */
  ghost predicate ThreadOk(k: Thread) {
    k.Busy? ==>
      && InOrder(k.order) && k.taken <= |k.order| && |k.order| > 0
      && (k.mode == Shared ==> |k.order| == 1 && k.order[0].index < N)
      && (k.mode == Exclusive ==> exists x, y :: k.order == BothLocks(x, y))
      && (k.group.NoGroup? || (k.group.lock.Group? && Ready(k)))
  }

  /** Locks are held by one thread exclusively or by any number of threads shared. */
  ghost predicate Compatible(s: State) {
    forall t, u, l, m, n :: t in s && u in s && t != u && Holds(s[t], l, m) && Holds(s[u], l, n) ==> !Clash(m, n)
  }

  ghost predicate Inv(s: State) {
    (forall t :: t in s ==> ThreadOk(s[t])) && Compatible(s)
  }

  lemma StepKeepsThreads(s: State, e: Event, s': State)
    requires Inv(s) && Step(s, e, s')
    ensures forall t :: t in s' ==> ThreadOk(s'[t])
  {
    match e
    case BeginExclusive(t, table) =>
      OrdersAscend(table, table);
      assert AllLocks(table) == BothLocks(table, table);
    case BeginBoth(t, x, y) => OrdersAscend(x, y);
    case _ =>
  }

  /** What a thread holds after a step it held before, or has just been granted. */
  lemma HeldOrGranted(s: State, e: Event, s': State, l: Lock, m: Mode)
    requires Inv(s) && Step(s, e, s') && Holds(s'[e.t], l, m)
    ensures Holds(s[e.t], l, m) || Grantable(s, e.t, l, m)
  {
  }

  lemma StepKeeps(s: State, e: Event, s': State)
    requires Inv(s) && Step(s, e, s')
    ensures Inv(s')
  {
    StepKeepsThreads(s, e, s');
    forall t, u, l, m, n | t in s' && u in s' && t != u && Holds(s'[t], l, m) && Holds(s'[u], l, n)
      ensures !Clash(m, n)
    {
      if t == e.t {
        HeldOrGranted(s, e, s', l, m);
        assert Grantable(s, t, l, m) ==> !HeldAgainst(s, t, l, m, u);
      } else if u == e.t {
        HeldOrGranted(s, e, s', l, n);
        assert Grantable(s, u, l, n) ==> !HeldAgainst(s, u, l, n, t);
      }
    }
  }

  lemma {:induction false} RunKeeps(run: seq<State>, events: seq<Event>, n: nat)
    requires Behavior(run, events) && n < |run|
    ensures Inv(run[n])
  {
    if n > 0 {
      RunKeeps(run, events, n - 1);
      assert StepAt(run, events, n - 1);
      StepKeeps(run[n - 1], events[n - 1], run[n]);
    }
  }

  // ------------------------------------------------------------------- exclusion

  /** The thread has access to the table: shared or exclusive. */
  ghost predicate Accesses(k: Thread, table: nat, m: Mode) {
    Ready(k) && m == k.mode && exists i :: 0 <= i < |k.order| && k.order[i].table == table
  }

  lemma WritersHoldAll(k: Thread, table: nat, index: nat)
    requires ThreadOk(k) && Accesses(k, table, Exclusive) && index < N
    ensures Holds(k, Container(table, index), Exclusive)
  {
    var x, y :| k.order == BothLocks(x, y);
    if table == x || x == y || y < x {
      var i := if x <= y && table == x then index else if x <= y then N + index else if table == y then index else N + index;
      assert k.order[i] == Container(table, index);
    } else {
      assert k.order[N + index] == Container(table, index);
    }
  }

  lemma EveryoneHoldsOne(k: Thread, table: nat, m: Mode) returns (index: nat)
    requires ThreadOk(k) && Accesses(k, table, m)
    ensures index < N && Holds(k, Container(table, index), m)
  {
    var i :| 0 <= i < |k.order| && k.order[i].table == table;
    index := k.order[i].index;
    if m == Exclusive {
      var x, y :| k.order == BothLocks(x, y);
    }
  }

  /** Exclusive access to a table excludes every other access to it, in every reachable state. */
  lemma ExclusiveExcludes(run: seq<State>, events: seq<Event>, n: nat, t: Tid, u: Tid, table: nat, m: Mode)
    requires Behavior(run, events) && n < |run| && t in run[n] && u in run[n] && t != u
    requires Accesses(run[n][t], table, Exclusive)
    ensures !Accesses(run[n][u], table, m)
  {
    RunKeeps(run, events, n);
    if Accesses(run[n][u], table, m) {
      var index := EveryoneHoldsOne(run[n][u], table, m);
      WritersHoldAll(run[n][t], table, index);
      NotBoth(run[n], t, u, Container(table, index), m);
    }
  }

  lemma NotBoth(s: State, t: Tid, u: Tid, l: Lock, m: Mode)
    requires Compatible(s) && t in s && u in s && t != u
    ensures !(Holds(s[t], l, Exclusive) && Holds(s[u], l, m))
  {
    assert Clash(Exclusive, m);
  }

  /** Nobody but t holds the lock exclusively, and nobody but t at all if t wants it exclusively. */
  ghost predicate FreeFor(s: State, t: Tid, l: Lock, m: Mode) {
    forall u :: u in s && u != t ==> !Holds(s[u], l, Exclusive) && (m == Exclusive ==> !Holds(s[u], l, Shared))
  }

  ghost predicate TakesNow(s: State, t: Tid, s': State) { Step(s, Take(t), s') || Step(s, TakeGroup(t), s') }

  lemma GrantableIs(s: State, t: Tid, l: Lock, m: Mode)
    ensures Grantable(s, t, l, m) <==> FreeFor(s, t, l, m)
  {
    if Grantable(s, t, l, m) {
      forall u | u in s && u != t ensures !Holds(s[u], l, Exclusive) && (m == Exclusive ==> !Holds(s[u], l, Shared)) {
        assert !HeldAgainst(s, t, l, m, u);
        assert Clash(m, Exclusive) && Clash(Exclusive, Shared);
      }
    }
    if FreeFor(s, t, l, m) {
      forall u ensures !HeldAgainst(s, t, l, m, u) {
        assert !Clash(Shared, Shared);
      }
    }
  }

  /** A thread can take the lock it wants exactly when nobody else is in the way: readers let each other in. */
  lemma GrantedExactly(run: seq<State>, events: seq<Event>, n: nat, t: Tid, l: Lock, m: Mode)
    requires Behavior(run, events) && n < |run| && t in run[n] && Wants(run[n][t], l, m)
    ensures (exists s': State :: TakesNow(run[n], t, s')) <==> FreeFor(run[n], t, l, m)
    ensures forall s': State :: TakesNow(run[n], t, s') ==> t in s' && Holds(s'[t], l, m)
  {
    RunKeeps(run, events, n);
    var s, k := run[n], run[n][t];
    GrantableIs(s, t, l, m);
    if Grantable(s, t, l, m) {
      if k.taken < |k.order| {
        assert TakesNow(s, t, s[t := k.(taken := k.taken + 1)]);
      } else {
        assert TakesNow(s, t, s[t := k.(group := Using(l, m))]);
      }
    }
    forall s': State | TakesNow(s, t, s') ensures t in s' && Holds(s'[t], l, m) {
      assert k.taken < |k.order| ==> s'[t].order[k.taken] == l;
    }
  }

  /** Two threads hold one lock at a time, of a table or of a group, only if both share it. */
  lemma LocksExclude(run: seq<State>, events: seq<Event>, n: nat, t: Tid, u: Tid, l: Lock, m: Mode, m': Mode)
    requires Behavior(run, events) && n < |run| && t in run[n] && u in run[n] && t != u
    requires Holds(run[n][t], l, m) && Holds(run[n][u], l, m')
    ensures m == Shared && m' == Shared
  {
    RunKeeps(run, events, n);
    assert !Clash(m, m');
  }

  // -------------------------------------------------------------- no circular wait

  /** t waits for u: u holds the lock t wants, or t is a reader and u a writer waiting for the same lock. */
  ghost predicate BlockedBy(s: State, t: Tid, u: Tid, l: Lock, m: Mode) {
    t in s && u in s && t != u && Wants(s[t], l, m)
    && ((exists n :: Holds(s[u], l, n) && Clash(m, n)) || (m == Shared && Wants(s[u], l, Exclusive)))
  }

  /** A later lock, or the same lock wanted by a writer. */
  predicate Later(a: Lock, m: Mode, b: Lock, n: Mode) {
    Before(a, b) || (a == b && m == Shared && n == Exclusive)
  }

  /** Whoever t waits for either waits for nothing or waits for something later. */
  lemma BlockersWaitForLater(s: State, t: Tid, u: Tid, l: Lock, m: Mode, l': Lock, m': Mode)
    requires Inv(s) && BlockedBy(s, t, u, l, m) && Wants(s[u], l', m')
    ensures Later(l, m, l', m')
  {
    assert ThreadOk(s[u]);
  }

  /** A chain of waiting threads. */
  ghost predicate Chain(s: State, ts: seq<Tid>, ls: seq<Lock>, ms: seq<Mode>) {
    |ts| == |ls| + 1 && |ls| == |ms| && forall i :: 0 <= i < |ls| ==> BlockedBy(s, ts[i], ts[i + 1], ls[i], ms[i])
  }

  lemma {:induction false} ChainsGoUp(s: State, ts: seq<Tid>, ls: seq<Lock>, ms: seq<Mode>, n: nat)
    requires Inv(s) && Chain(s, ts, ls, ms) && 0 < n < |ls|
    ensures Later(ls[0], ms[0], ls[n], ms[n])
  {
    assert BlockedBy(s, ts[n - 1], ts[n], ls[n - 1], ms[n - 1]) && BlockedBy(s, ts[n], ts[n + 1], ls[n], ms[n]);
    BlockersWaitForLater(s, ts[n - 1], ts[n], ls[n - 1], ms[n - 1], ls[n], ms[n]);
    if n > 1 {
      ChainsGoUp(s, ts, ls, ms, n - 1);
    }
  }

  /** No thread waits for itself through others. */
  lemma NoCircularWait(run: seq<State>, events: seq<Event>, n: nat, ts: seq<Tid>, ls: seq<Lock>, ms: seq<Mode>)
    requires Behavior(run, events) && n < |run|
    requires Chain(run[n], ts, ls, ms) && |ls| > 0
    ensures ts[|ls|] != ts[0]
  {
    RunKeeps(run, events, n);
    var s, last := run[n], |ls| - 1;
    assert BlockedBy(s, ts[0], ts[1], ls[0], ms[0]);
    assert BlockedBy(s, ts[last], ts[last + 1], ls[last], ms[last]);
    if ts[|ls|] == ts[0] {
      BlockersWaitForLater(s, ts[last], ts[0], ls[last], ms[last], ls[0], ms[0]);
      if last > 0 {
        ChainsGoUp(s, ts, ls, ms, last);
      }
    }
  }

  // ------------------------------------------------------------ someone can go on

  /** The thread can take its next step even if readers give way to every waiting writer. */
  ghost predicate CanGoOn(s: State, t: Tid) {
    t in s && s[t].Busy? && forall u, l, m :: !BlockedBy(s, t, u, l, m)
  }

  lemma CanGoOnSteps(s: State, t: Tid)
    requires Inv(s) && CanGoOn(s, t)
    ensures exists e: Event, s' :: e.t == t && Step(s, e, s')
  {
    var k := s[t];
    assert ThreadOk(k);
    if k.releasing {
      assert Step(s, Release(t), s[t := if k.taken > 1 then k.(taken := k.taken - 1) else Idle]);
    } else if k.taken < |k.order| {
      NothingInTheWay(s, t, k.order[k.taken], k.mode);
      assert Step(s, Take(t), s[t := k.(taken := k.taken + 1)]);
    } else if k.group.NoGroup? {
      assert Step(s, Finish(t), s[t := k.(releasing := true)]);
    } else if k.group.Using? {
      assert Step(s, DropGroup(t), s[t := k.(group := NoGroup)]);
    } else {
      NothingInTheWay(s, t, k.group.lock, k.group.how);
      assert Step(s, TakeGroup(t), s[t := k.(group := Using(k.group.lock, k.group.how))]);
    }
  }

  lemma NothingInTheWay(s: State, t: Tid, l: Lock, m: Mode)
    requires t in s && Wants(s[t], l, m) && CanGoOn(s, t)
    ensures Grantable(s, t, l, m)
  {
    forall u ensures !HeldAgainst(s, t, l, m, u) {
      assert !BlockedBy(s, t, u, l, m);
    }
  }

  /** The threads waiting for something later than (l, m). */
  ghost function WaitingLater(s: State, l: Lock, m: Mode): (us: set<Tid>)
    ensures forall u :: u in us <==> u in s && exists l', m' :: Wants(s[u], l', m') && Later(l, m, l', m')
  {
    set u | u in s && exists l', m' :: Wants(s[u], l', m') && Later(l, m, l', m')
  }

  lemma FewerWaitLater(s: State, u: Tid, l: Lock, m: Mode, l': Lock, m': Mode)
    requires u in s && Wants(s[u], l', m') && Later(l, m, l', m')
    ensures |WaitingLater(s, l', m')| < |WaitingLater(s, l, m)|
  {
    var here, there := WaitingLater(s, l, m), WaitingLater(s, l', m');
    assert u in here && u !in there;
    forall v | v in there ensures v in here {
      var a, b :| Wants(s[v], a, b) && Later(l', m', a, b);
      assert Later(l, m, a, b);
    }
    assert there < here;
    Smaller(there, here);
  }

  lemma Smaller(a: set<Tid>, b: set<Tid>)
    requires a < b
    ensures |a| < |b|
  {
    assert b == a + (b - a);
    assert |b - a| > 0;
  }

  /** Following the waits from any busy thread leads to one that can go on. */
  lemma {:induction false} SomeoneGoesOn(s: State, t: Tid, l: Lock, m: Mode) returns (r: Tid)
    requires Inv(s) && t in s && Wants(s[t], l, m)
    ensures CanGoOn(s, r)
    decreases |WaitingLater(s, l, m)|
  {
    if CanGoOn(s, t) {
      return t;
    }
    var u, l1, m1 :| BlockedBy(s, t, u, l1, m1);
    assert l1 == l && m1 == m;
    if l', m' :| Wants(s[u], l', m') {
      BlockersWaitForLater(s, t, u, l, m, l', m');
      FewerWaitLater(s, u, l, m, l', m');
      r := SomeoneGoesOn(s, u, l', m');
    } else {
      r := u;
    }
  }

  /** No reachable state is a deadlock: as long as a thread is in an operation, some thread can take a step. */
  lemma DeadlockFree(run: seq<State>, events: seq<Event>, n: nat, t: Tid) returns (r: Tid)
    requires Behavior(run, events) && n < |run| && t in run[n] && run[n][t].Busy?
    ensures CanGoOn(run[n], r)
    ensures exists e: Event, s' :: e.t == r && Step(run[n], e, s')
  {
    RunKeeps(run, events, n);
    r := t;
    if l, m :| Wants(run[n][t], l, m) {
      r := SomeoneGoesOn(run[n], t, l, m);
    }
    CanGoOnSteps(run[n], r);
  }
}

/** Progress of the concurrent table: some thread can always step, a lookup or an erasure
 *  ends after a bounded number of its own steps whatever the others do, and a call left
 *  alone ends with the one answer the table asks for.
 */
module ConcurrentProgress {
  import opened Prober
  import opened Hashing
  import opened TableLayout
  import opened Optional
  import opened ConcurrentModel
  import opened ConcurrentInvariant
  import opened ConcurrentTheorems
  import opened ConcurrentAnswers
  import opened ConcurrentLoad
  import TableCore

  // -------------------------------------------------------------- never stuck

  /** Only these steps wait, namely for the lock of a group. */
  predicate Waits(pc: Pc) { pc.Enter? || pc.Seek? }

  function AwaitedGroup(s: State, pc: Pc): nat
    requires Waits(pc)
  {
    if pc.Enter? then GroupOf(s, pc.p.Sought(), pc.j) else GroupOf(s, pc.e.key, pc.j)
  }

  lemma CompareCanStep(s: State, t: Tid) returns (s': State)
    requires Inv(s) && t in s.pc && s.pc[t].Compare?
    ensures ThreadStep(s, s', t)
  {
    assert ThreadOk(s, s.pc[t]);
    var Compare(p, j, excl, mask) := s.pc[t];
    TableCore.LeastExists(mask);
    var i: nat :| IsLeast(i, mask);
    var x := SlotAt(GroupOf(s, p.Sought(), j), i);
    if s.t.tags[x] != FREE && s.t.elems[x].Some? && s.t.elems[x].value.key == p.Sought() {
      s' := s.(pc := s.pc[t := Done(Present)]);
    } else {
      s' := s.(pc := s.pc[t := AfterReject(p, j, excl, mask - {i})]);
    }
    assert CompareStep(s, s', t, p, j, excl, mask);
  }

  lemma WalkCanStep(s: State, t: Tid) returns (s': State)
    requires Inv(s) && t in s.pc && (s.pc[t].Begin? || s.pc[t].Scan? || s.pc[t].Check?)
    ensures ThreadStep(s, s', t)
  {
    match s.pc[t]
    case Begin(e) => s' := s.(pc := s.pc[t := Scan(Insert(e, s.counter[HomeOf(s, e.key)]), 0, 0, {})]);
    case Scan(p, j, i, mask) =>
      if i < SLOTS {
        SlotInGroup(s, p.Sought(), j, i);
        var x := SlotAt(GroupOf(s, p.Sought(), j), i);
        s' := s.(pc := s.pc[t := Scan(p, j, i + 1, if s.t.tags[x] == Tag(s.h(p.Sought())) then mask + {i} else mask)]);
      } else {
        s' := s.(pc := s.pc[t := if mask == {} then Check(p, j) else Enter(p, j, mask)]);
      }
    case Check(p, j) =>
      if Bit(s.h(p.Sought())) !in s.t.overflow[GroupOf(s, p.Sought(), j)] || j + 1 >= Pow2(s.t.exp) {
        s' := s.(pc := s.pc[t := if p.Insert? then Reserve(p.e, p.c) else Done(Missing)]);
      } else {
        s' := s.(pc := s.pc[t := Scan(p, j + 1, 0, {})]);
      }
    assert WalkStep(s, s', t);
  }

  lemma CountCanStep(s: State, t: Tid) returns (s': State)
    requires Inv(s) && t in s.pc
    requires s.pc[t].Reserve? || s.pc[t].Reserved? || s.pc[t].Refused? || s.pc[t].Unwound?
    ensures ThreadStep(s, s', t)
  {
    match s.pc[t]
    case Reserve(e, c) => s' := s.(size := s.size + 1, pc := s.pc[t := Reserved(e, c, s.size + 1)]);
    case Reserved(e, c, snapshot) => s' := s.(pc := s.pc[t := if snapshot <= s.ml then Seek(e, c, 0) else Refused]);
    case Refused => s' := s.(size := s.size - 1, pc := s.pc[t := Done(Full)]);
    case Unwound(e) => s' := s.(size := s.size - 1, pc := s.pc[t := Begin(e)]);
    assert ReserveStep(s, s', t);
  }

  lemma EraseCanStep(s: State, t: Tid) returns (s': State)
    requires Inv(s) && t in s.pc && (s.pc[t].Destroyed? || s.pc[t].Lowered? || s.pc[t].Cleared?)
    ensures ThreadStep(s, s', t)
  {
    assert ThreadOk(s, s.pc[t]);
    match s.pc[t]
    case Destroyed(x) =>
      var dec := s.t.tags[x] % 8 in s.t.overflow[x / SLOTS];
      s' := s.(ml := if dec then s.ml - 1 else s.ml, pc := s.pc[t := Lowered(x, dec)]);
    case Lowered(x, _) => s' := s.(t := s.t.(tags := s.t.tags[x := FREE]), pc := s.pc[t := Cleared(x)]);
    case Cleared(_) => s' := s.(size := s.size - 1, pc := s.pc[t := Done(Erased)]);
    assert EraseStep(s, s', t);
  }

  lemma PlaceCanStep(s: State, t: Tid) returns (s': State)
    requires Inv(s) && t in s.pc
    requires s.pc[t].Held? || s.pc[t].Taking? || s.pc[t].Bump? || s.pc[t].Won? || s.pc[t].Lost?
    ensures ThreadStep(s, s', t)
  {
    assert ThreadOk(s, s.pc[t]);
    match s.pc[t]
    case Held(e, c, j) =>
      var g := GroupOf(s, e.key, j);
      if GroupHasFree(s, g) {
        var i: nat :| i < SLOTS && SlotAt(g, i) < |s.t.tags| && s.t.tags[SlotAt(g, i)] == FREE;
        s' := s.(pc := s.pc[t := Taking(e, c, SlotAt(g, i))]);
      } else {
        s' := s.(t := s.t.(overflow := s.t.overflow[g := s.t.overflow[g] + {Bit(s.h(e.key))}]), pc := s.pc[t := Seek(e, c, j + 1)]);
      }
    case Taking(e, c, x) =>
      s' := s.(t := s.t.(tags := s.t.tags[x := Tag(s.h(e.key))]), pc := s.pc[t := Bump(e, c, x)]);
    case Bump(e, c, x) =>
      var g := HomeOf(s, e.key);
      s' := s.(counter := s.counter[g := s.counter[g] + 1],
               claim := if s.counter[g] == c then s.claim[x := Some(e.key)] else s.claim,
               pc := s.pc[t := if s.counter[g] == c then Won(e, x) else Lost(e, x)]);
    case Won(e, x) => s' := s.(t := s.t.(elems := s.t.elems[x := Some(e)]), pc := s.pc[t := Done(Inserted)]);
    case Lost(e, x) => s' := s.(t := s.t.(tags := s.t.tags[x := FREE]), pc := s.pc[t := Unwound(e)]);
    assert PlaceStep(s, s', t);
  }

  /** Whoever is in a call and does not wait for a group can step. */
  lemma BusyCanStep(s: State, t: Tid) returns (s': State)
    requires Inv(s) && CallingAt(s, t) && !Waits(s.pc[t])
    ensures ThreadStep(s, s', t)
  {
    var pc := s.pc[t];
    if pc.Begin? || pc.Scan? || pc.Check? {
      s' := WalkCanStep(s, t);
    } else if pc.Compare? {
      s' := CompareCanStep(s, t);
    } else if pc.Destroyed? || pc.Lowered? || pc.Cleared? {
      s' := EraseCanStep(s, t);
    } else if pc.Reserve? || pc.Reserved? || pc.Refused? || pc.Unwound? {
      s' := CountCanStep(s, t);
    } else {
      s' := PlaceCanStep(s, t);
    }
  }

  /** Whoever waits for a group nobody else holds can step. */
  lemma WaiterCanStep(s: State, t: Tid) returns (s': State)
    requires Inv(s) && t in s.pc && Waits(s.pc[t]) && CanLock(s, t, AwaitedGroup(s, s.pc[t]), true)
    ensures ThreadStep(s, s', t)
  {
    match s.pc[t]
    case Enter(p, j, mask) =>
      s' := s.(pc := s.pc[t := Compare(p, j, true, mask)]);
      assert WalkStep(s, s', t);
    case Seek(e, c, j) =>
      s' := s.(pc := s.pc[t := Held(e, c, j)]);
      assert PlaceStep(s, s', t);
  }

  /** In no reachable state are all the threads that are in a call stuck: group locks never deadlock. */
  lemma NeverStuck(run: seq<State>, i: nat, t: Tid) returns (u: Tid, s': State)
    requires Behavior(run) && i < |run| && CallingAt(run[i], t)
    ensures CallingAt(run[i], u) && ThreadStep(run[i], s', u)
  {
    var s := run[i];
    RunKeepsInvariant(run, i);
    if v :| CallingAt(s, v) && !Waits(s.pc[v]) {
      u := v;
      s' := BusyCanStep(s, u);
    } else {
      assert forall v, g :: v in s.pc ==> !HoldsExclusive(s, s.pc[v], g) && !HoldsShared(s, s.pc[v], g) by {
        assert forall v :: v in s.pc ==> !CallingAt(s, v) || Waits(s.pc[v]);
      }
      u := t;
      s' := WaiterCanStep(s, u);
    }
  }

  /** A lookup or an insertion that has seen a tag enters its group beside others that share it. */
  lemma SharersEnter(run: seq<State>, i: nat, t: Tid) returns (s': State)
    requires Behavior(run) && i < |run| && t in run[i].pc && run[i].pc[t].Enter? && !run[i].pc[t].p.Erase?
    requires forall u :: u in run[i].pc && u != t ==> !HoldsExclusive(run[i], run[i].pc[u], AwaitedGroup(run[i], run[i].pc[t]))
    ensures ThreadStep(run[i], s', t) && t in s'.pc && s'.pc[t].Compare? && !s'.pc[t].excl
  {
    var s := run[i];
    RunKeepsInvariant(run, i);
    var Enter(p, j, mask) := s.pc[t];
    s' := s.(pc := s.pc[t := Compare(p, j, false, mask)]);
    assert CanLock(s, t, GroupOf(s, p.Sought(), j), false);
    assert WalkStep(s, s', t);
  }

  /** An erasure that has come to the slot of its key can take the key out of the table. */
  lemma FoundCanBeErased(run: seq<State>, i: nat, t: Tid, n: nat) returns (s': State)
    requires Behavior(run) && i < |run| && t in run[i].pc && run[i].pc[t].Compare? && run[i].pc[t].p.Erase?
    requires n < SLOTS && IsLeast(n, run[i].pc[t].mask)
    requires Stores(run[i], SlotAt(GroupOf(run[i], run[i].pc[t].p.k, run[i].pc[t].j), n), run[i].pc[t].p.k)
    ensures ThreadStep(run[i], s', t) && Leaves(run[i], s', run[i].pc[t].p.k)
  {
    var s := run[i];
    RunKeepsInvariant(run, i);
    assert ThreadOk(s, s.pc[t]);
    var Compare(p, j, excl, mask) := s.pc[t];
    var x := SlotAt(GroupOf(s, p.k, j), n);
    StoredIsClaimed(s, x, p.k);
    s' := s.(t := s.t.(elems := s.t.elems[x := None]), claim := s.claim[x := None], pc := s.pc[t := Destroyed(x)]);
    assert FoundStep(s, s', t, p, x);
    assert CompareStep(s, s', t, p, j, excl, mask);
    assert WalkStep(s, s', t);
    DestroyLeaves(s, s', t);
  }

  // ------------------------------------------------------------- bounded calls

  /** An upper bound on the steps of its own a thread has left in a group array of n groups,
   *  as long as no rival makes it start over.
   */
  function Rank(n: nat, pc: Pc): int {
    match pc
    case Begin(_) => 42 * n + 10
    case Scan(_, j, i, _) => 2 * n + 9 + (n - 1 - j) * 40 + (SLOTS - i) + 19
    case Enter(_, j, _) => 2 * n + 9 + (n - 1 - j) * 40 + 18
    case Compare(_, j, _, mask) => 2 * n + 9 + (n - 1 - j) * 40 + 2 + |mask|
    case Check(_, j) => 2 * n + 9 + (n - 1 - j) * 40 + 1
    case Destroyed(_) => 3
    case Lowered(_, _) => 2
    case Cleared(_) => 1
    case Reserve(_, _) => 2 * n + 8
    case Reserved(_, _, _) => 2 * n + 7
    case Refused => 1
    case Seek(_, _, j) => 2 * (n - j) + 5
    case Held(_, _, j) => 2 * (n - j) + 4
    case Taking(_, _, _) => 3
    case Bump(_, _, _) => 2
    case Won(_, _) => 1
    case _ => 0
  }

  lemma MaskIsSmall(mask: set<nat>)
    requires forall i :: i in mask ==> i < SLOTS
    ensures |mask| <= SLOTS
  {
    BelowCount(SLOTS);
    SubsetBound(mask, Below(SLOTS));
  }

  lemma RankIsNatural(s: State, pc: Pc)
    requires Sized(s) && ThreadOk(s, pc) && (pc.Seek? || pc.Held? ==> pc.j <= Pow2(s.t.exp))
    ensures Rank(Pow2(s.t.exp), pc) >= 0
  {
  }

  /** A comparison ends the walk or strikes one candidate. */
  lemma CompareLeaves(s: State, s': State, t: Tid, p: Purpose, j: nat, excl: bool, mask: set<nat>) returns (i: nat)
    requires Sized(s) && t in s.pc && CompareStep(s, s', t, p, j, excl, mask)
    ensures i in mask && t in s'.pc
    ensures s'.pc[t] == Done(Present) || s'.pc[t].Destroyed? || s'.pc[t] == AfterReject(p, j, excl, mask - {i})
  {
    i :| IsLeast(i, mask) && i < SLOTS &&
      var x := SlotAt(GroupOf(s, p.Sought(), j), i);
      x < |s.t.elems| &&
      if s.t.tags[x] != FREE && s.t.elems[x].Some? && s.t.elems[x].value.key == p.Sought() then
        FoundStep(s, s', t, p, x) && (p.Erase? ==> excl)
      else
        Goes(s, s', t, AfterReject(p, j, excl, mask - {i}));
  }

  lemma RejectRanks(n: nat, p: Purpose, j: nat, excl: bool, mask: set<nat>, i: nat)
    requires i in mask
    ensures Rank(n, AfterReject(p, j, excl, mask - {i})) < Rank(n, Compare(p, j, excl, mask))
  {
    assert |mask - {i}| == |mask| - 1;
  }

  lemma CompareRanks(s: State, s': State, t: Tid, p: Purpose, j: nat, excl: bool, mask: set<nat>)
    requires Sized(s) && t in s.pc && CompareStep(s, s', t, p, j, excl, mask) && j < Pow2(s.t.exp)
    ensures t in s'.pc && Rank(Pow2(s.t.exp), s'.pc[t]) < Rank(Pow2(s.t.exp), Compare(p, j, excl, mask))
  {
    var i := CompareLeaves(s, s', t, p, j, excl, mask);
    RejectRanks(Pow2(s.t.exp), p, j, excl, mask, i);
  }

  lemma WalkRanks(s: State, s': State, t: Tid)
    requires Inv(s) && t in s.pc && WalkStep(s, s', t)
    ensures Rank(Pow2(s.t.exp), s'.pc[t]) < Rank(Pow2(s.t.exp), s.pc[t])
  {
    assert ThreadOk(s, s.pc[t]);
    if s.pc[t].Compare? {
      CompareRanks(s, s', t, s.pc[t].p, s.pc[t].j, s.pc[t].excl, s.pc[t].mask);
    } else if s.pc[t].Enter? {
      MaskIsSmall(s.pc[t].mask);
    }
  }

  lemma StepRanks(s: State, s': State, t: Tid)
    requires Inv(s) && CallingAt(s, t) && ThreadStep(s, s', t)
    requires !s.pc[t].Lost? && !s.pc[t].Unwound? && (s.pc[t].Held? ==> s.pc[t].j < Pow2(s.t.exp))
    ensures t in s'.pc && Rank(Pow2(s.t.exp), s'.pc[t]) < Rank(Pow2(s.t.exp), s.pc[t])
  {
    StepOwnMove(s, s', t);
    if WalkStep(s, s', t) {
      WalkRanks(s, s', t);
    }
  }

  /** The steps before b at which thread t moves. */
  ghost function Moves(run: seq<State>, a: nat, b: nat, t: Tid): (moves: set<nat>)
    requires b < |run|
  {
    set i: nat | a <= i < b && MovesAt(run, i, t)
  }

  ghost predicate MovesAt(run: seq<State>, i: nat, t: Tid)
    requires i + 1 < |run|
  {
    t in run[i].pc && t in run[i + 1].pc && run[i + 1].pc[t] != run[i].pc[t]
  }

  lemma NextMove(run: seq<State>, a: nat, b: nat, t: Tid)
    requires a <= b && b + 1 < |run| && t in run[b].pc && t in run[b + 1].pc
    ensures |Moves(run, a, b + 1, t)| == |Moves(run, a, b, t)| + One(run[b + 1].pc[t] != run[b].pc[t])
  {
    var moves := Moves(run, a, b, t);
    assert Moves(run, a, b + 1, t) == if run[b + 1].pc[t] != run[b].pc[t] then moves + {b} else moves;
  }

  lemma NextRank(run: seq<State>, b: nat, t: Tid, call: Call)
    requires Behavior(run) && b + 1 < |run| && CallingAt(run[b], t) && Performs(run[b].pc[t], call) && !call.Put?
    ensures t in run[b + 1].pc && run[b + 1].t.exp == run[b].t.exp
    ensures Rank(Pow2(run[b].t.exp), run[b + 1].pc[t]) + One(run[b + 1].pc[t] != run[b].pc[t]) <= Rank(Pow2(run[b].t.exp), run[b].pc[t])
  {
    var u := CallStepIsThreads(run, b, t);
    if u == t {
      StepRanks(run[b], run[b + 1], t);
    }
  }

  lemma {:induction false} MovesAreRanked(run: seq<State>, a: nat, b: nat, t: Tid, call: Call)
    requires Behavior(run) && a <= b < |run| && Calls(run, a, b, t, call) && !call.Put?
    ensures t in run[b].pc && run[b].t.exp == run[a].t.exp
    ensures |Moves(run, a, b, t)| + Rank(Pow2(run[a].t.exp), run[b].pc[t]) <= Rank(Pow2(run[a].t.exp), run[a].pc[t])
    decreases b - a
  {
    if a == b {
      assert Moves(run, a, b, t) == {};
    } else {
      CallsPrefix(run, a, b - 1, t, call);
      MovesAreRanked(run, a, b - 1, t, call);
      CallPerforms(run, a, b - 1, t, call);
      NextRank(run, b - 1, t, call);
      NextMove(run, a, b - 1, t);
    }
  }

  /** Whatever the other threads do, a lookup or an erasure takes no more than so many steps. */
  lemma WalksEnd(run: seq<State>, a: nat, b: nat, t: Tid, call: Call)
    requires Behavior(run) && a <= b < |run| && Calls(run, a, b, t, call) && !call.Put?
    ensures |Moves(run, a, b, t)| <= 42 * Pow2(run[a].t.exp) + 10
  {
    MovesAreRanked(run, a, b, t, call);
    CallPerforms(run, a, b, t, call);
    RunKeepsInvariant(run, b);
    RankIsNatural(run[b], run[b].pc[t]);
  }

  // ------------------------------------------------------------ a call on its own

  /** From a to b only thread t takes steps. */
  ghost predicate Alone(run: seq<State>, a: nat, b: nat, t: Tid)
    requires b < |run|
  {
    forall i: nat :: a <= i < b ==> StepsAt(run, i, t)
  }

  ghost predicate StepsAt(run: seq<State>, i: nat, t: Tid)
    requires i + 1 < |run|
  {
    ThreadStep(run[i], run[i + 1], t)
  }

  ghost predicate SameTable(s0: State, s: State, extra: nat) {
    && s.h == s0.h && s.t == s0.t && s.counter == s0.counter
    && s.size == s0.size + extra && s.ml == s0.ml
  }

  /** An insertion that is placing its element: nothing stored has changed, there is room. */
  ghost predicate Placing(s0: State, s: State, e: Entry, c: nat) {
    && Sized(s) && s.h == s0.h && s.t.exp == s0.t.exp && s.t.elems == s0.t.elems
    && Current(s, e.key, c) && s0.size < s0.ml && !InTable(s0, e.key)
  }

  ghost predicate TriedBefore(s: State, k: Key, j: nat) {
    forall i: nat :: i < j ==> !GroupHasFree(s, GroupOf(s, k, i))
  }

  /** Where a call that started in s0 and runs alone has got to. */
  ghost predicate Solo(s0: State, s: State, pc: Pc, call: Call) {
    Sized(s) && s.t.exp == s0.t.exp &&
    match pc
    case Begin(_) => SameTable(s0, s, 0)
    case Scan(p, _, _, _) => SameTable(s0, s, 0) && (p.Insert? ==> Current(s, p.e.key, p.c))
    case Enter(p, _, _) => SameTable(s0, s, 0) && (p.Insert? ==> Current(s, p.e.key, p.c))
    case Compare(p, _, _, _) => SameTable(s0, s, 0) && (p.Insert? ==> Current(s, p.e.key, p.c))
    case Check(p, _) => SameTable(s0, s, 0) && (p.Insert? ==> Current(s, p.e.key, p.c))
    case Reserve(e, c) => SameTable(s0, s, 0) && Current(s, e.key, c) && !InTable(s0, e.key)
    case Reserved(e, c, snapshot) =>
      SameTable(s0, s, 1) && Current(s, e.key, c) && !InTable(s0, e.key) && snapshot == s0.size + 1
    case Refused => s.t.elems == s0.t.elems && s0.size >= s0.ml && !InTable(s0, call.Subject())
    case Seek(e, c, j) => Placing(s0, s, e, c) && TriedBefore(s, e.key, j)
    case Held(e, c, j) => Placing(s0, s, e, c) && TriedBefore(s, e.key, j)
    case Taking(e, c, _) => Placing(s0, s, e, c)
    case Bump(e, c, _) => Placing(s0, s, e, c)
    case Won(e, _) => s.t.elems == s0.t.elems && s0.size < s0.ml && !InTable(s0, e.key)
    case Destroyed(_) => InTable(s0, call.Subject())
    case Lowered(_, _) => InTable(s0, call.Subject())
    case Cleared(_) => InTable(s0, call.Subject())
    case Done(Inserted) => s0.size < s0.ml && !InTable(s0, call.Subject())
    case Done(Full) => s0.size >= s0.ml && !InTable(s0, call.Subject())
    case Done(Erased) => InTable(s0, call.Subject())
    case Done(_) => s.t.elems == s0.t.elems
    case _ => false
  }

  lemma SearchedIsAbsent(s: State, k: Key, c: nat)
    requires Inv(s) && Searched(s, k, c) && Current(s, k, c)
    ensures !InTable(s, k)
  {
    if InTable(s, k) {
      var x: nat :| Stores(s, x, k);
      StoredIsClaimed(s, x, k);
    }
  }

  function PurposeOf(pc: Pc): Purpose
    requires Walks(pc)
  {
    match pc
    case Scan(p, _, _, _) => p
    case Enter(p, _, _) => p
    case Compare(p, _, _, _) => p
    case Check(p, _) => p
  }

  /** A walk keeps its purpose, which an insertion takes on with the counter it has just read. */
  lemma WalkKeepsPurpose(s: State, s': State, t: Tid)
    requires Sized(s) && t in s.pc && WalkStep(s, s', t)
    ensures t in s'.pc
    ensures Walks(s.pc[t]) && Walks(s'.pc[t]) ==> PurposeOf(s'.pc[t]) == PurposeOf(s.pc[t])
    ensures s.pc[t].Begin? ==> s'.pc[t].Scan? && s'.pc[t].p.Insert? && Current(s, s'.pc[t].p.e.key, s'.pc[t].p.c)
    ensures s'.pc[t].Reserve? ==>
      s.pc[t].Check? && s.pc[t].p.Insert? && s'.pc[t].e == s.pc[t].p.e && s'.pc[t].c == s.pc[t].p.c
  {
  }

  lemma ReserveSolo(s0: State, s: State, e: Entry, c: nat, call: Call)
    requires Inv(s) && Searched(s, e.key, c) && Current(s, e.key, c) && SameTable(s0, s, 0)
    ensures Solo(s0, s, Reserve(e, c), call)
  {
    SearchedIsAbsent(s, e.key, c);
    SameElems(s0, s, e.key);
  }

  lemma DestroySolo(s0: State, s: State, x: nat, call: Call)
    requires Stores(s, x, call.Subject()) && s.t.elems == s0.t.elems
    ensures InTable(s0, call.Subject())
  {
    SameElems(s0, s, call.Subject());
  }

  lemma DestroysSought(s: State, s': State, t: Tid, call: Call)
    requires Sized(s) && t in s.pc && WalkStep(s, s', t) && Performs(s.pc[t], call) && t in s'.pc && s'.pc[t].Destroyed?
    ensures Stores(s, s'.pc[t].x, call.Subject())
  {
  }

  /** A walk that goes on, or ends without a change, leaves the table as it found it. */
  lemma OnwardSolo(s0: State, s: State, s': State, t: Tid, call: Call)
    requires Sized(s) && t in s.pc && t in s'.pc && s' == s.(pc := s'.pc)
    requires Walking(s.pc[t]) && Solo(s0, s, s.pc[t], call)
    requires Walks(s'.pc[t]) || s'.pc[t] == Done(Present) || s'.pc[t] == Done(Missing)
    requires Walks(s.pc[t]) && Walks(s'.pc[t]) ==> PurposeOf(s'.pc[t]) == PurposeOf(s.pc[t])
    requires s.pc[t].Begin? ==> s'.pc[t].Scan? && s'.pc[t].p.Insert? && Current(s, s'.pc[t].p.e.key, s'.pc[t].p.c)
    ensures Solo(s0, s', s'.pc[t], call)
  {
  }

  lemma WalkEndings(s: State, s': State, t: Tid)
    requires Sized(s) && t in s.pc && WalkStep(s, s', t)
    ensures t in s'.pc
    ensures Walks(s'.pc[t]) || s'.pc[t] == Done(Present) || s'.pc[t] == Done(Missing) || s'.pc[t].Reserve? || s'.pc[t].Destroyed?
  {
  }

  lemma WalkSolo(s0: State, s: State, s': State, t: Tid, call: Call)
    requires Sized(s) && Inv(s') && t in s.pc && WalkStep(s, s', t)
    requires Performs(s.pc[t], call) && Solo(s0, s, s.pc[t], call)
    ensures t in s'.pc && Solo(s0, s', s'.pc[t], call)
  {
    WalkMoves(s, s', t);
    WalkKeepsPurpose(s, s', t);
    WalkEndings(s, s', t);
    if s'.pc[t].Reserve? {
      assert ThreadOk(s', s'.pc[t]);
      ReserveSolo(s0, s', s'.pc[t].e, s'.pc[t].c, call);
    } else if s'.pc[t].Destroyed? {
      DestroysSought(s, s', t, call);
      DestroySolo(s0, s, s'.pc[t].x, call);
    } else {
      OnwardSolo(s0, s, s', t, call);
    }
  }

  lemma SameElems(s0: State, s: State, k: Key)
    requires s.t.elems == s0.t.elems
    ensures InTable(s, k) <==> InTable(s0, k)
  {
    assert forall x: nat :: Stores(s, x, k) <==> Stores(s0, x, k);
  }

  lemma SameTried(s: State, s': State, k: Key, j: nat)
    requires TriedBefore(s, k, j) && s'.h == s.h && s'.t.exp == s.t.exp && s'.t.tags == s.t.tags
    ensures TriedBefore(s', k, j)
  {
    forall i: nat | i < j ensures !GroupHasFree(s', GroupOf(s', k, i)) {
      assert !GroupHasFree(s, GroupOf(s, k, i));
    }
  }

  lemma SeekSolo(s0: State, s: State, s': State, t: Tid, call: Call)
    requires Sized(s) && t in s.pc && PlaceStep(s, s', t) && (s.pc[t].Seek? || s.pc[t].Held?)
    requires Sized(s') && Solo(s0, s, s.pc[t], call)
    ensures t in s'.pc && Solo(s0, s', s'.pc[t], call)
  {
    SameTried(s, s', s.pc[t].e.key, s.pc[t].j);
    if s'.pc[t].Seek? {
      assert !GroupHasFree(s, GroupOf(s, s.pc[t].e.key, s.pc[t].j));
      TriedOne(s', s.pc[t].e.key, s.pc[t].j);
    }
  }

  lemma PlaceSolo(s0: State, s: State, s': State, t: Tid, call: Call)
    requires Sized(s) && t in s.pc && PlaceStep(s, s', t) && !s.pc[t].Seek? && !s.pc[t].Held?
    requires Sized(s') && Performs(s.pc[t], call) && Solo(s0, s, s.pc[t], call)
    ensures t in s'.pc && Solo(s0, s', s'.pc[t], call)
  {
  }

  lemma TriedOne(s: State, k: Key, j: nat)
    requires TriedBefore(s, k, j) && !GroupHasFree(s, GroupOf(s, k, j))
    ensures TriedBefore(s, k, j + 1)
  {
  }

  lemma CountSolo(s0: State, s: State, s': State, t: Tid, call: Call)
    requires Inv(s) && Inv(s') && t in s.pc && (EraseStep(s, s', t) || ReserveStep(s, s', t))
    requires Performs(s.pc[t], call) && Solo(s0, s, s.pc[t], call)
    ensures t in s'.pc && Solo(s0, s', s'.pc[t], call)
  {
  }

  lemma StepSolo(s0: State, s: State, s': State, t: Tid, call: Call)
    requires Inv(s) && Inv(s') && CallingAt(s, t) && ThreadStep(s, s', t)
    requires Performs(s.pc[t], call) && Solo(s0, s, s.pc[t], call)
    ensures t in s'.pc && Solo(s0, s', s'.pc[t], call)
  {
    if WalkStep(s, s', t) {
      WalkSolo(s0, s, s', t, call);
    } else if PlaceStep(s, s', t) {
      if s.pc[t].Seek? || s.pc[t].Held? {
        SeekSolo(s0, s, s', t, call);
      } else {
        PlaceSolo(s0, s, s', t, call);
      }
    } else {
      CountSolo(s0, s, s', t, call);
    }
  }

  lemma StartsSolo(s: State, t: Tid, call: Call)
    requires Sized(s) && Starts(s, t, call)
    ensures SoloAt(s, s, t, call)
  {
  }

  ghost predicate SoloAt(s0: State, s: State, t: Tid, call: Call) {
    t in s.pc && Performs(s.pc[t], call) && Solo(s0, s, s.pc[t], call)
  }

  lemma NextSolo(run: seq<State>, s0: State, b: nat, t: Tid, call: Call)
    requires Behavior(run) && b + 1 < |run| && CallingAt(run[b], t) && StepsAt(run, b, t)
    requires SoloAt(s0, run[b], t, call) && t in run[b + 1].pc && Performs(run[b + 1].pc[t], call)
    ensures SoloAt(s0, run[b + 1], t, call)
  {
    RunKeepsInvariant(run, b);
    RunKeepsInvariant(run, b + 1);
    StepSolo(s0, run[b], run[b + 1], t, call);
  }

  lemma AlonePrefix(run: seq<State>, a: nat, b: nat, t: Tid)
    requires a <= b && b + 1 < |run| && Alone(run, a, b + 1, t)
    ensures Alone(run, a, b, t) && StepsAt(run, b, t)
  {
  }

  lemma BeginsSolo(run: seq<State>, a: nat, t: Tid, call: Call)
    requires Behavior(run) && a < |run| && Starts(run[a], t, call)
    ensures SoloAt(run[a], run[a], t, call)
  {
    RunKeepsInvariant(run, a);
    StartsSolo(run[a], t, call);
  }

  lemma {:induction false} RunSolo(run: seq<State>, a: nat, b: nat, t: Tid, call: Call)
    requires Behavior(run) && a <= b < |run| && Calls(run, a, b, t, call) && Alone(run, a, b, t)
    ensures SoloAt(run[a], run[b], t, call)
    decreases b - a
  {
    if a == b {
      BeginsSolo(run, a, t, call);
    } else {
      CallsPrefix(run, a, b - 1, t, call);
      AlonePrefix(run, a, b - 1, t);
      RunSolo(run, a, b - 1, t, call);
      CallPerforms(run, a, b, t, call);
      NextSolo(run, run[a], b - 1, t, call);
    }
  }

  /** There is a free slot, so the search for one that meets no competitor ends within one round. */
  lemma SeekEnds(run: seq<State>, i: nat, t: Tid)
    requires Behavior(run) && i < |run| && t in run[i].pc && (run[i].pc[t].Seek? || run[i].pc[t].Held?)
    requires TriedBefore(run[i], run[i].pc[t].e.key, run[i].pc[t].j)
    ensures run[i].pc[t].j < Pow2(run[i].t.exp)
  {
    var s, k := run[i], run[i].pc[t].e.key;
    RunKeepsInvariant(run, i);
    var x := AdmittedFindsRoom(run, i, t);
    GroupInRange(s.t, x);
    var m := ProbeMeets(s.t.exp, s.h(k), x / SLOTS);
    SlotOfGroup(x);
    assert GroupHasFree(s, GroupOf(s, k, m));
  }

  lemma SoloRanks(run: seq<State>, a: nat, b: nat, t: Tid, call: Call)
    requires Behavior(run) && a <= b && b + 1 < |run| && Calls(run, a, b, t, call) && Alone(run, a, b, t)
    requires CallingAt(run[b], t) && StepsAt(run, b, t)
    ensures t in run[b + 1].pc && run[b + 1].t.exp == run[b].t.exp
    ensures Rank(Pow2(run[b].t.exp), run[b + 1].pc[t]) < Rank(Pow2(run[b].t.exp), run[b].pc[t])
  {
    RunSolo(run, a, b, t, call);
    RunKeepsInvariant(run, b);
    if run[b].pc[t].Held? {
      SeekEnds(run, b, t);
    }
    StepRanks(run[b], run[b + 1], t);
    StepOwnMove(run[b], run[b + 1], t);
  }

  /** Between a and b the rank has fallen by at least one a step. */
  ghost predicate RankedAt(run: seq<State>, a: nat, b: nat, t: Tid)
    requires a <= b < |run|
  {
    && t in run[a].pc && t in run[b].pc && run[b].t.exp == run[a].t.exp
    && b - a + Rank(Pow2(run[a].t.exp), run[b].pc[t]) <= Rank(Pow2(run[a].t.exp), run[a].pc[t])
  }

  lemma NextRanked(run: seq<State>, a: nat, b: nat, t: Tid, call: Call)
    requires Behavior(run) && a <= b && b + 1 < |run| && Calls(run, a, b, t, call) && Alone(run, a, b, t)
    requires CallingAt(run[b], t) && StepsAt(run, b, t) && RankedAt(run, a, b, t)
    ensures RankedAt(run, a, b + 1, t)
  {
    SoloRanks(run, a, b, t, call);
  }

  lemma {:induction false} AloneIsRanked(run: seq<State>, a: nat, b: nat, t: Tid, call: Call)
    requires Behavior(run) && a <= b < |run| && Calls(run, a, b, t, call) && Alone(run, a, b, t)
    ensures RankedAt(run, a, b, t)
    decreases b - a
  {
    if a < b {
      CallsPrefix(run, a, b - 1, t, call);
      AlonePrefix(run, a, b - 1, t);
      AloneIsRanked(run, a, b - 1, t, call);
      NextRanked(run, a, b - 1, t, call);
    }
  }

  /** A call that runs alone never meets a rival and is over after so many steps. */
  lemma AloneEnds(run: seq<State>, a: nat, b: nat, t: Tid, call: Call)
    requires Behavior(run) && a <= b < |run| && Calls(run, a, b, t, call) && Alone(run, a, b, t)
    ensures t in run[b].pc && !run[b].pc[t].Lost? && !run[b].pc[t].Unwound?
    ensures b - a <= 42 * Pow2(run[a].t.exp) + 10
  {
    RunSolo(run, a, b, t, call);
    AloneIsRanked(run, a, b, t, call);
    RunKeepsInvariant(run, b);
    if run[b].pc[t].Seek? || run[b].pc[t].Held? {
      SeekEnds(run, b, t);
    }
    RankIsNatural(run[b], run[b].pc[t]);
  }

  predicate Erasing(pc: Pc) { pc.Destroyed? || pc.Lowered? || pc.Cleared? || pc == Done(Erased) }

  lemma {:induction false} ErasingGoesOn(run: seq<State>, a: nat, i: nat, b: nat, t: Tid, call: Call)
    requires Behavior(run) && a <= i <= b < |run| && Calls(run, a, b, t, call) && Alone(run, a, b, t)
    requires t in run[i].pc && Erasing(run[i].pc[t])
    ensures t in run[b].pc && Erasing(run[b].pc[t])
    decreases b - i
  {
    if i < b {
      assert CallingAt(run[i], t) && StepsAt(run, i, t);
      StepOwnMove(run[i], run[i + 1], t);
      ErasingGoesOn(run, a, i + 1, b, t, call);
    }
  }

  /** A call that runs alone and reports no change has left every element alone. */
  lemma ElemsUntilAnswer(run: seq<State>, a: nat, i: nat, b: nat, t: Tid, call: Call, out: Outcome)
    requires Behavior(run) && a <= i <= b < |run| && Answered(run, a, b, t, call, out) && Alone(run, a, b, t)
    requires out == Present || out == Missing
    ensures run[i].t.elems == run[a].t.elems
  {
    assert Calls(run, a, i, t, call) && Alone(run, a, i, t);
    RunSolo(run, a, i, t, call);
    if Erasing(run[i].pc[t]) {
      ErasingGoesOn(run, a, i, b, t, call);
    } else if i < b {
      assert CallingAt(run[i], t);
    }
  }

  /** What a call that runs alone found or missed it would have found or missed at its start. */
  lemma AloneFinds(run: seq<State>, a: nat, b: nat, t: Tid, call: Call, out: Outcome)
    requires Behavior(run) && a <= b < |run| && Answered(run, a, b, t, call, out) && Alone(run, a, b, t)
    requires out == Present || out == Missing
    ensures InTable(run[a], call.Subject()) <==> out == Present
  {
    AnswersAreTrue(run, a, b, t, call, out);
    var k := call.Subject();
    var i: nat :| a <= i <= b && (InTable(run[i], k) <==> out == Present);
    ElemsUntilAnswer(run, a, i, b, t, call, out);
    SameElems(run[a], run[i], k);
  }

  /** The table a call that runs alone finds decides its answer. */
  lemma AloneAnswers(run: seq<State>, a: nat, b: nat, t: Tid, call: Call, out: Outcome)
    requires Behavior(run) && a <= b < |run| && Answered(run, a, b, t, call, out) && Alone(run, a, b, t)
    ensures var there := InTable(run[a], call.Subject());
            match call
            case Visit(_) => out == if there then Present else Missing
            case Drop(_) => if there then out == Erased || out == Present else out == Missing
            case Put(_) => out == if there then Present else if run[a].size < run[a].ml then Inserted else Full
  {
    RunSolo(run, a, b, t, call);
    if out == Present || out == Missing {
      AloneFinds(run, a, b, t, call, out);
    }
  }
}

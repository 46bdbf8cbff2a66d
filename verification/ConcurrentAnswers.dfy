/** What the answers of the concurrent table mean: a finished call reads the map,
 *  or changes it by its own step, at one moment between its start and its end.
 */
module ConcurrentAnswers {
  import opened Prober
  import opened Hashing
  import opened TableLayout
  import opened Optional
  import opened ConcurrentModel
  import opened ConcurrentInvariant
  import opened ConcurrentTheorems

  datatype Call = Visit(k: Key) | Drop(k: Key) | Put(e: Entry) {
    function Subject(): Key {
      match this
      case Visit(k) => k
      case Drop(k) => k
      case Put(e) => e.key
    }
  }

  ghost predicate Starts(s: State, t: Tid, call: Call) {
    t in s.pc &&
    match call
    case Visit(k) => s.pc[t] == Scan(Lookup(k), 0, 0, {})
    case Drop(k) => s.pc[t] == Scan(Erase(k), 0, 0, {})
    case Put(e) => s.pc[t] == Begin(e)
  }

  predicate InCall(pc: Pc) { !pc.Idle? && !pc.Done? }

  ghost predicate CallingAt(s: State, t: Tid) { t in s.pc && InCall(s.pc[t]) }

  /** Thread t starts the call at state a and is still in it in every state before b. */
  ghost predicate Calls(run: seq<State>, a: nat, b: nat, t: Tid, call: Call)
    requires b < |run|
  {
    && a <= b && Starts(run[a], t, call)
    && forall i: nat :: a <= i < b ==> CallingAt(run[i], t)
  }

  /** The call that starts at a has just been answered at b. */
  ghost predicate Answered(run: seq<State>, a: nat, b: nat, t: Tid, call: Call, out: Outcome)
    requires b < |run|
  {
    Calls(run, a, b, t, call) && t in run[b].pc && run[b].pc[t] == Done(out)
  }

  // ------------------------------------------------------- effects on the map

  /** The entry was not in the map before the step and is all that the step adds. */
  ghost predicate Enters(s: State, s': State, e: Entry) {
    && Distinct(s.t.elems) && Distinct(s'.t.elems)
    && e.key !in ContentsOf(s.t.elems)
    && ContentsOf(s'.t.elems) == ContentsOf(s.t.elems)[e.key := e.value]
  }

  /** The key was in the map before the step and is all that the step takes away. */
  ghost predicate Leaves(s: State, s': State, k: Key) {
    && Distinct(s.t.elems) && Distinct(s'.t.elems)
    && k in ContentsOf(s.t.elems)
    && ContentsOf(s'.t.elems) == ContentsOf(s.t.elems) - {k}
  }

  ghost predicate EntersBy(run: seq<State>, i: nat, t: Tid, e: Entry)
    requires i + 1 < |run|
  {
    ThreadStep(run[i], run[i + 1], t) && Enters(run[i], run[i + 1], e)
  }

  ghost predicate LeavesBy(run: seq<State>, i: nat, t: Tid, k: Key)
    requires i + 1 < |run|
  {
    ThreadStep(run[i], run[i + 1], t) && Leaves(run[i], run[i + 1], k)
  }

  ghost predicate PresentWithin(run: seq<State>, a: nat, b: nat, k: Key)
    requires b < |run|
  {
    exists i: nat :: a <= i <= b && InTable(run[i], k)
  }

  ghost predicate AbsentWithin(run: seq<State>, a: nat, b: nat, k: Key)
    requires b < |run|
  {
    exists i: nat :: a <= i <= b && !InTable(run[i], k)
  }

  /** The size met at some moment of the call had reached the maximum load met later in it. */
  ghost predicate FullWithin(run: seq<State>, a: nat, b: nat)
    requires b < |run|
  {
    exists i: nat, j: nat :: a <= i < j < b && run[i].size >= run[j].ml
  }

  ghost predicate EntersWithin(run: seq<State>, a: nat, b: nat, t: Tid, e: Entry)
    requires b < |run|
  {
    exists i: nat :: a <= i < b && EntersBy(run, i, t, e)
  }

  ghost predicate LeavesWithin(run: seq<State>, a: nat, b: nat, t: Tid, k: Key)
    requires b < |run|
  {
    exists i: nat :: a <= i < b && LeavesBy(run, i, t, k)
  }

  /** What an answer says about the run between the start and the end of its call. */
  ghost predicate Truthful(run: seq<State>, a: nat, b: nat, t: Tid, call: Call, out: Outcome)
    requires b < |run|
  {
    match out
    case Present => PresentWithin(run, a, b, call.Subject())
    case Missing => !call.Put? && AbsentWithin(run, a, b, call.Subject())
    case Inserted => call.Put? && EntersWithin(run, a, b, t, call.e)
    case Full => call.Put? && FullWithin(run, a, b)
    case Erased => call.Drop? && LeavesWithin(run, a, b, t, call.k)
  }

  lemma InvDistinct(s: State)
    requires Inv(s)
    ensures Distinct(s.t.elems)
  {
    forall x: nat, y: nat, k: Key | HasKey(s.t.elems, x, k) && HasKey(s.t.elems, y, k) ensures x == y {
      assert Stores(s, x, k) && Stores(s, y, k);
      StoredIsClaimed(s, x, k);
      StoredIsClaimed(s, y, k);
    }
  }

  lemma InTableIsKey(s: State, k: Key)
    requires Distinct(s.t.elems)
    ensures InTable(s, k) <==> k in ContentsOf(s.t.elems)
  {
    if InTable(s, k) {
      var x: nat :| Stores(s, x, k);
      assert HasKey(s.t.elems, x, k);
    }
    if k in ContentsOf(s.t.elems) {
      var x: nat :| HasKey(s.t.elems, x, k);
      assert Stores(s, x, k);
    }
  }

  /** Constructing the element of a won slot adds exactly that entry. */
  lemma WonEnters(s: State, s': State, t: Tid)
    requires Inv(s) && t in s.pc && s.pc[t].Won? && PlaceStep(s, s', t)
    ensures s'.pc[t] == Done(Inserted) && Enters(s, s', s.pc[t].e)
  {
    var Won(e, x) := s.pc[t];
    InvDistinct(s);
    WinnerIsClaimed(s, t, x, e.key);
    if e.key in ContentsOf(s.t.elems) {
      var y: nat :| HasKey(s.t.elems, y, e.key);
      StoredIsClaimed(s, y, e.key);
    }
    ContentsPut(s.t.elems, x, e);
  }

  /** Destroying the element an erasure found takes exactly its key away. */
  lemma DestroyLeaves(s: State, s': State, t: Tid)
    requires Inv(s) && t in s.pc && s.pc[t].Compare? && WalkStep(s, s', t) && s'.pc[t].Destroyed?
    ensures Leaves(s, s', s.pc[t].p.Sought())
  {
    InvDistinct(s);
    var x := s'.pc[t].x;
    assert s.t.elems[x].Some? && s.t.elems[x].value.key == s.pc[t].p.Sought();
    assert HasKey(s.t.elems, x, s.pc[t].p.Sought());
    ContentsDrop(s.t.elems, x);
  }

  // ------------------------------------------------ what a thread is busy with

  predicate Serves(p: Purpose, call: Call) {
    match p
    case Lookup(k) => call == Visit(k)
    case Erase(k) => call == Drop(k)
    case Insert(e, _) => call == Put(e)
  }

  predicate Performs(pc: Pc, call: Call) {
    match pc
    case Idle => false
    case Begin(e) => call == Put(e)
    case Scan(p, _, _, _) => Serves(p, call)
    case Enter(p, _, _) => Serves(p, call)
    case Compare(p, _, _, _) => Serves(p, call)
    case Check(p, _) => Serves(p, call)
    case Destroyed(_) => call.Drop?
    case Lowered(_, _) => call.Drop?
    case Cleared(_) => call.Drop?
    case Reserve(e, _) => call == Put(e)
    case Reserved(e, _, _) => call == Put(e)
    case Refused => call.Put?
    case Seek(e, _, _) => call == Put(e)
    case Held(e, _, _) => call == Put(e)
    case Taking(e, _, _) => call == Put(e)
    case Bump(e, _, _) => call == Put(e)
    case Won(e, _) => call == Put(e)
    case Lost(e, _) => call == Put(e)
    case Unwound(e) => call == Put(e)
    case Done(out) =>
      || out == Present
      || (if call.Put? then out == Inserted || out == Full else out == Missing || (call.Drop? && out == Erased))
  }

  lemma WalkPerforms(s: State, s': State, t: Tid, call: Call)
    requires Sized(s) && t in s.pc && WalkStep(s, s', t) && Performs(s.pc[t], call)
    ensures t in s'.pc && Performs(s'.pc[t], call)
  {
  }

  lemma RestPerforms(s: State, s': State, t: Tid, call: Call)
    requires Sized(s) && t in s.pc && Performs(s.pc[t], call)
    requires EraseStep(s, s', t) || ReserveStep(s, s', t) || PlaceStep(s, s', t)
    ensures t in s'.pc && Performs(s'.pc[t], call)
  {
  }

  /** What has happened so far in a call, as far as its answer depends on it. */
  ghost predicate Backed(run: seq<State>, a: nat, n: nat, t: Tid, call: Call)
    requires n < |run|
  {
    t in run[n].pc && Performs(run[n].pc[t], call) &&
    match run[n].pc[t]
    case Scan(_, _, _, _) => call.Put? || WalkFrom(run, a, n, t, call.k)
    case Enter(_, _, _) => call.Put? || WalkFrom(run, a, n, t, call.k)
    case Compare(_, _, _, _) => call.Put? || WalkFrom(run, a, n, t, call.k)
    case Check(_, _) => call.Put? || WalkFrom(run, a, n, t, call.k)
    case Destroyed(_) => LeavesWithin(run, a, n, t, call.k)
    case Lowered(_, _) => LeavesWithin(run, a, n, t, call.k)
    case Cleared(_) => LeavesWithin(run, a, n, t, call.k)
    case Reserved(_, _, snapshot) => SizeMet(run, a, n, snapshot)
    case Refused => FullWithin(run, a, n)
    case Done(out) => Truthful(run, a, n, t, call, out)
    case _ => true
  }

  ghost predicate SizeMet(run: seq<State>, a: nat, n: nat, snapshot: int)
    requires n < |run|
  {
    exists i: nat :: a <= i < n && run[i].size + 1 == snapshot
  }

  /** Nothing that happened is undone by what the others do next. */
  lemma BackedStays(run: seq<State>, a: nat, n: nat, t: Tid, call: Call)
    requires a <= n && n + 1 < |run| && Backed(run, a, n, t, call) && InCall(run[n].pc[t])
    requires t in run[n + 1].pc && run[n + 1].pc[t] == run[n].pc[t]
    ensures Backed(run, a, n + 1, t, call)
  {
    if Walks(run[n].pc[t]) && !call.Put? {
      WalkGoesOn(run, a, n, t, call.k);
    }
  }

  lemma WalkGoesOn(run: seq<State>, a: nat, n: nat, t: Tid, k: Key)
    requires a <= n && n + 1 < |run| && WalkFrom(run, a, n, t, k) && WalkingAt(run[n], t)
    ensures WalkFrom(run, a, n + 1, t, k)
  {
  }

  /** A walk of a lookup or an erasure that ends: found, absent at some moment, or destroyed by its own step. */
  lemma WalkIsBacked(run: seq<State>, a: nat, n: nat, t: Tid, call: Call)
    requires Behavior(run) && a <= n && n + 1 < |run| && Backed(run, a, n, t, call)
    requires Inv(run[n]) && Walks(run[n].pc[t]) && ThreadStep(run[n], run[n + 1], t) && WalkStep(run[n], run[n + 1], t)
    ensures Backed(run, a, n + 1, t, call)
  {
    var s, s' := run[n], run[n + 1];
    WalkPerforms(s, s', t, call);
    if !call.Put? {
      WalkGoesOn(run, a, n, t, call.k);
    }
    if s'.pc[t] == Done(Present) {
      FoundIsStored(s, s', t);
      assert InTable(s, call.Subject());
    } else if s'.pc[t] == Done(Missing) {
      MissingIsAbsent(run, a, n + 1, t, call.k);
    } else if s'.pc[t].Destroyed? {
      DestroyLeaves(s, s', t);
      assert LeavesBy(run, n, t, call.k);
    }
  }

  lemma FoundIsStored(s: State, s': State, t: Tid)
    requires Inv(s) && t in s.pc && Walks(s.pc[t]) && WalkStep(s, s', t) && s'.pc[t] == Done(Present)
    ensures s.pc[t].Compare? && InTable(s, s.pc[t].p.Sought())
  {
    assert s.pc[t].Compare?;
    var p, j, mask := s.pc[t].p, s.pc[t].j, s.pc[t].mask;
    var i: nat :| IsLeast(i, mask) && i < SLOTS && Stores(s, SlotAt(GroupOf(s, p.Sought(), j), i), p.Sought());
  }

  lemma MissingIsAbsent(run: seq<State>, a: nat, b: nat, t: Tid, k: Key)
    requires Behavior(run) && a <= b < |run| && WalkFrom(run, a, b, t, k)
    requires t in run[b].pc && run[b].pc[t] == Done(Missing)
    ensures AbsentWithin(run, a, b, k)
  {
    if forall i: nat :: a <= i <= b ==> InTable(run[i], k) {
      NeverMisses(run, a, b, t, k);
    }
  }

  lemma EraseIsBacked(run: seq<State>, a: nat, n: nat, t: Tid, call: Call)
    requires a <= n && n + 1 < |run| && Backed(run, a, n, t, call)
    requires ThreadStep(run[n], run[n + 1], t) && EraseStep(run[n], run[n + 1], t)
    ensures Backed(run, a, n + 1, t, call)
  {
    var i: nat :| a <= i < n && LeavesBy(run, i, t, call.k);
  }

  lemma ReserveIsBacked(run: seq<State>, a: nat, n: nat, t: Tid, call: Call)
    requires a <= n && n + 1 < |run| && Backed(run, a, n, t, call)
    requires ThreadStep(run[n], run[n + 1], t) && ReserveStep(run[n], run[n + 1], t)
    ensures Backed(run, a, n + 1, t, call)
  {
    RestPerforms(run[n], run[n + 1], t, call);
    match run[n].pc[t]
    case Reserve(_, _) => assert run[n].size + 1 == run[n + 1].pc[t].snapshot;
    case Reserved(_, _, snapshot) =>
      var i: nat :| a <= i < n && run[i].size + 1 == snapshot;
      assert run[i].size >= run[n].ml || run[n + 1].pc[t].Seek?;
    case Refused =>
      var i: nat, j: nat :| a <= i < j < n && run[i].size >= run[j].ml;
    case _ =>
  }

  lemma PlaceIsBacked(run: seq<State>, a: nat, n: nat, t: Tid, call: Call)
    requires a <= n && n + 1 < |run| && Backed(run, a, n, t, call)
    requires Inv(run[n]) && ThreadStep(run[n], run[n + 1], t) && PlaceStep(run[n], run[n + 1], t)
    ensures Backed(run, a, n + 1, t, call)
  {
    RestPerforms(run[n], run[n + 1], t, call);
    if run[n].pc[t].Won? {
      WonEnters(run[n], run[n + 1], t);
      assert EntersBy(run, n, t, call.e);
    }
  }

  lemma StepIsBacked(run: seq<State>, a: nat, n: nat, t: Tid, call: Call)
    requires Behavior(run) && a <= n && n + 1 < |run| && Backed(run, a, n, t, call) && InCall(run[n].pc[t])
    requires Inv(run[n]) && ThreadStep(run[n], run[n + 1], t)
    ensures Backed(run, a, n + 1, t, call)
  {
    var s, s' := run[n], run[n + 1];
    assert !CallStep(s, s', t);
    if WalkStep(s, s', t) {
      if s.pc[t].Begin? {
        WalkPerforms(s, s', t, call);
      } else {
        WalkIsBacked(run, a, n, t, call);
      }
    } else if EraseStep(s, s', t) {
      EraseIsBacked(run, a, n, t, call);
    } else if ReserveStep(s, s', t) {
      ReserveIsBacked(run, a, n, t, call);
    } else {
      PlaceIsBacked(run, a, n, t, call);
    }
  }

  /** While some thread is inside an operation every step is a thread's. */
  lemma CallStepIsThreads(run: seq<State>, n: nat, t: Tid) returns (u: Tid)
    requires Behavior(run) && n + 1 < |run| && CallingAt(run[n], t)
    ensures Inv(run[n]) && ThreadStep(run[n], run[n + 1], u) && OwnMove(run[n], run[n + 1], u)
  {
    RunKeepsInvariant(run, n);
    assert NextAt(run, n);
    assert !ContainerStep(run[n], run[n + 1]);
    u :| ThreadStep(run[n], run[n + 1], u);
    StepOwnMove(run[n], run[n + 1], u);
  }

  lemma CallsPrefix(run: seq<State>, a: nat, b: nat, t: Tid, call: Call)
    requires a <= b && b + 1 < |run| && Calls(run, a, b + 1, t, call)
    ensures Calls(run, a, b, t, call) && CallingAt(run[b], t)
  {
  }

  lemma NextIsBacked(run: seq<State>, a: nat, n: nat, t: Tid, call: Call)
    requires Behavior(run) && a <= n && n + 1 < |run| && Backed(run, a, n, t, call) && CallingAt(run[n], t)
    ensures Backed(run, a, n + 1, t, call)
  {
    var u := CallStepIsThreads(run, n, t);
    if u == t {
      StepIsBacked(run, a, n, t, call);
    } else {
      BackedStays(run, a, n, t, call);
    }
  }

  lemma {:induction false} CallIsBacked(run: seq<State>, a: nat, b: nat, t: Tid, call: Call)
    requires Behavior(run) && a <= b < |run| && Calls(run, a, b, t, call)
    ensures Backed(run, a, b, t, call)
    decreases b - a
  {
    if a < b {
      CallsPrefix(run, a, b - 1, t, call);
      CallIsBacked(run, a, b - 1, t, call);
      NextIsBacked(run, a, b - 1, t, call);
    }
  }

  lemma CallPerforms(run: seq<State>, a: nat, b: nat, t: Tid, call: Call)
    requires Behavior(run) && a <= b < |run| && Calls(run, a, b, t, call)
    ensures t in run[b].pc && Performs(run[b].pc[t], call)
  {
    CallIsBacked(run, a, b, t, call);
  }

  /** Every answer is true of the map at some moment of its call, and every insertion and
   *  erasure reported has been made there by a step of the thread that reports it.
   */
  lemma AnswersAreTrue(run: seq<State>, a: nat, b: nat, t: Tid, call: Call, out: Outcome)
    requires Behavior(run) && b < |run| && Answered(run, a, b, t, call, out)
    ensures Truthful(run, a, b, t, call, out)
  {
    CallIsBacked(run, a, b, t, call);
  }

  lemma ThreadMapChange(s: State, s': State, t: Tid)
    requires Inv(s) && ThreadStep(s, s', t)
    ensures s'.t.elems == s.t.elems
         || (s.pc[t].Won? && s'.pc[t] == Done(Inserted) && Enters(s, s', s.pc[t].e))
         || (s.pc[t].Compare? && s.pc[t].p.Erase? && s'.pc[t].Destroyed? && Leaves(s, s', s.pc[t].p.k))
  {
    if PlaceStep(s, s', t) {
      if s.pc[t].Won? {
        WonEnters(s, s', t);
      }
    } else if WalkStep(s, s', t) {
      if s'.t.elems != s.t.elems {
        DestroyLeaves(s, s', t);
      }
    }
  }

  /** Every state of a run stands for a map, and a step changes it in one of four ways: an
   *  insertion reported by that very step, an erasure begun by it, a clear, or not at all.
   */
  lemma MapChangesByCalls(run: seq<State>, i: nat)
    requires Behavior(run) && i + 1 < |run|
    ensures Distinct(run[i].t.elems) && Distinct(run[i + 1].t.elems)
    ensures var m, m' := ContentsOf(run[i].t.elems), ContentsOf(run[i + 1].t.elems);
            || m' == m
            || (AllIdle(run[i]) && m' == map[])
            || (exists t :: t in run[i].pc && run[i].pc[t].Won? && run[i + 1].pc == run[i].pc[t := Done(Inserted)]
                            && EntersBy(run, i, t, run[i].pc[t].e))
            || (exists t :: t in run[i].pc && run[i].pc[t].Compare? && run[i].pc[t].p.Erase?
                            && LeavesBy(run, i, t, run[i].pc[t].p.k))
  {
    var s, s' := run[i], run[i + 1];
    RunKeepsInvariant(run, i);
    RunKeepsInvariant(run, i + 1);
    InvDistinct(s);
    InvDistinct(s');
    assert NextAt(run, i);
    if !ContainerStep(s, s') {
      var t :| ThreadStep(s, s', t);
      StepOwnMove(s, s', t);
      ThreadMapChange(s, s', t);
    }
  }
}

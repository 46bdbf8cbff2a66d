/** What every run of the concurrent table guarantees: keys stay unique, lookups
 *  never miss a key that stays, and nothing unconstructed is ever compared.
 */
module ConcurrentTheorems {
  import opened Prober
  import opened Hashing
  import opened TableLayout
  import opened Optional
  import opened ConcurrentModel
  import opened ConcurrentInvariant

  // --------------------------------------------------------------- uniqueness

  /** Slot x stores key k. */
  ghost predicate Stores(s: State, x: nat, k: Key) {
    HasKey(s.t.elems, x, k)
  }

  /** Thread t has won slot x for key k and is about to construct the element. */
  ghost predicate Winning(s: State, t: Tid, x: nat, k: Key) {
    t in s.pc && s.pc[t].Won? && s.pc[t].x == x && s.pc[t].e.key == k
  }

  lemma StoredIsClaimed(s: State, x: nat, k: Key)
    requires Inv(s) && Stores(s, x, k)
    ensures x < |s.claim| && s.claim[x] == Some(k) && s.t.tags[x] == Tag(s.h(k)) && !SentinelSlot(s.t, x)
    ensures Reachable(s.t.exp, s.t.overflow, s.h(k), x / SLOTS)
  {
    assert SlotOk(s, x);
  }

  lemma WinnerIsClaimed(s: State, t: Tid, x: nat, k: Key)
    requires Inv(s) && Winning(s, t, x, k)
    ensures x < |s.claim| && s.claim[x] == Some(k) && s.t.elems[x] == None && HoldsExclusive(s, s.pc[t], x / SLOTS)
  {
    assert ThreadOk(s, s.pc[t]);
  }

  /** In no state of no run do two places hold or win the same key. */
  lemma KeysStayUnique(run: seq<State>, i: nat, k: Key)
    requires Behavior(run) && i < |run|
    ensures forall x: nat, y: nat :: Stores(run[i], x, k) && Stores(run[i], y, k) ==> x == y
    ensures forall x: nat, y: nat, t :: Stores(run[i], x, k) ==> !Winning(run[i], t, y, k)
    ensures forall x: nat, y: nat, t, u :: Winning(run[i], t, x, k) && Winning(run[i], u, y, k) ==> t == u
  {
    var s := run[i];
    RunKeepsInvariant(run, i);
    forall x: nat | Stores(s, x, k) ensures x < |s.claim| && s.claim[x] == Some(k) {
      StoredIsClaimed(s, x, k);
    }
    forall t, y: nat | Winning(s, t, y, k)
      ensures y < |s.claim| && s.claim[y] == Some(k) && s.t.elems[y] == None && HoldsExclusive(s, s.pc[t], y / SLOTS)
    {
      WinnerIsClaimed(s, t, y, k);
    }
  }

  /** The increment that finds the recorded counter value: no equal key is stored or being won anywhere. */
  lemma WinnerHasNoRival(run: seq<State>, i: nat, t: Tid)
    requires Behavior(run) && i + 1 < |run|
    requires t in run[i].pc && t in run[i + 1].pc && run[i].pc[t].Bump? && run[i + 1].pc[t].Won?
    ensures forall x: nat :: !Stores(run[i], x, run[i].pc[t].e.key)
    ensures forall x: nat, u :: !Winning(run[i], u, x, run[i].pc[t].e.key)
  {
    var s, s', k := run[i], run[i + 1], run[i].pc[t].e.key;
    RunKeepsInvariant(run, i);
    assert NextAt(run, i);
    MoverIs(s, s', t);
    BumpKeeps(s, s', t);
    forall x: nat ensures !Stores(s, x, k) {
      if Stores(s, x, k) { StoredIsClaimed(s, x, k); }
    }
    forall x: nat, u ensures !Winning(s, u, x, k) {
      if Winning(s, u, x, k) { WinnerIsClaimed(s, u, x, k); }
    }
  }

  /** A thread's step moves only that thread and keeps the hash and the group array. */
  ghost predicate OwnMove(s: State, s': State, u: Tid) {
    u in s.pc && u in s'.pc && s'.pc == s.pc[u := s'.pc[u]] && s'.h == s.h && s'.t.exp == s.t.exp
  }

  lemma WalkOwnMove(s: State, s': State, u: Tid)
    requires Sized(s) && u in s.pc && WalkStep(s, s', u)
    ensures OwnMove(s, s', u)
  {
  }

  lemma EraseOwnMove(s: State, s': State, u: Tid)
    requires Sized(s) && u in s.pc && (EraseStep(s, s', u) || ReserveStep(s, s', u) || CallStep(s, s', u))
    ensures OwnMove(s, s', u)
  {
  }

  lemma PlaceOwnMove(s: State, s': State, u: Tid)
    requires Sized(s) && u in s.pc && PlaceStep(s, s', u)
    ensures OwnMove(s, s', u)
  {
  }

  lemma StepOwnMove(s: State, s': State, u: Tid)
    requires ThreadStep(s, s', u)
    ensures OwnMove(s, s', u)
  {
    if WalkStep(s, s', u) {
      WalkOwnMove(s, s', u);
    } else if PlaceStep(s, s', u) {
      PlaceOwnMove(s, s', u);
    } else {
      EraseOwnMove(s, s', u);
    }
  }

  /** Only a thread's own step changes where it is. */
  lemma MoverIs(s: State, s': State, t: Tid)
    requires Next(s, s') && t in s.pc && t in s'.pc && s'.pc[t] != s.pc[t]
    ensures ThreadStep(s, s', t)
  {
    var u :| ThreadStep(s, s', u);
    StepOwnMove(s, s', u);
  }

  // ------------------------------------------------------ comparing candidates

  /** Under a group lock every occupied candidate is a fully constructed element. */
  lemma ComparesOnlyConstructed(run: seq<State>, n: nat, t: Tid, i: nat)
    requires Behavior(run) && n < |run| && t in run[n].pc && run[n].pc[t].Compare? && i in run[n].pc[t].mask
    ensures var s, pc := run[n], run[n].pc[t];
            var x := SlotAt(GroupOf(s, pc.p.Sought(), pc.j), i);
            x < |s.t.elems| && x < |s.t.tags| && (s.t.tags[x] != FREE ==> s.t.elems[x].Some?)
  {
    RunKeepsInvariant(run, n);
    ComparedIsConstructed(run[n], t, i);
  }

  // ---------------------------------------------------------- lookups never miss

  predicate Walks(pc: Pc) { pc.Scan? || pc.Enter? || pc.Compare? || pc.Check? }

  ghost predicate NotMet(s: State, k: Key, j: nat, g: nat) {
    forall i: nat :: i < j ==> GroupOf(s, k, i) != g
  }

  /** A walk for key k has not gone past slot x. */
  ghost predicate StillAhead(s: State, pc: Pc, x: nat, k: Key) {
    match pc
    case Scan(p, j, i, mask) =>
      p.Sought() == k && NotMet(s, k, j, x / SLOTS)
      && (GroupOf(s, k, j) == x / SLOTS ==> x % SLOTS >= i || x % SLOTS in mask)
    case Enter(p, j, mask) =>
      p.Sought() == k && NotMet(s, k, j, x / SLOTS) && (GroupOf(s, k, j) == x / SLOTS ==> x % SLOTS in mask)
    case Compare(p, j, _, mask) =>
      p.Sought() == k && NotMet(s, k, j, x / SLOTS) && (GroupOf(s, k, j) == x / SLOTS ==> x % SLOTS in mask)
    case Check(p, j) => p.Sought() == k && NotMet(s, k, j + 1, x / SLOTS)
    case Done(out) => out == Present
    case Destroyed(y) => true
    case _ => false
  }

  lemma SlotOfGroup(x: nat)
    ensures x == SlotAt(x / SLOTS, x % SLOTS)
  {
  }

  lemma ScannedAhead(s: State, p: Purpose, j: nat, i: nat, mask: set<nat>, x: nat, k: Key)
    requires Sized(s) && StillAhead(s, Scan(p, j, i, mask), x, k) && x < |s.t.tags|
    requires s.t.tags[x] == Tag(s.h(k)) && x == SlotAt(x / SLOTS, x % SLOTS)
    ensures i < SLOTS ==>
      var y := SlotAt(GroupOf(s, k, j), i);
      y < |s.t.tags| ==> StillAhead(s, Scan(p, j, i + 1, if s.t.tags[y] == Tag(s.h(k)) then mask + {i} else mask), x, k)
    ensures i >= SLOTS ==> StillAhead(s, if mask == {} then Check(p, j) else Enter(p, j, mask), x, k)
  {
  }

  lemma ScanAhead(s: State, s': State, t: Tid, x: nat, k: Key)
    requires Inv(s) && t in s.pc && s.pc[t].Scan? && WalkStep(s, s', t)
    requires Stores(s, x, k) && StillAhead(s, s.pc[t], x, k)
    ensures StillAhead(s', s'.pc[t], x, k)
  {
    StoredIsClaimed(s, x, k);
    SlotOfGroup(x);
    var Scan(p, j, i, mask) := s.pc[t];
    ScannedAhead(s, p, j, i, mask, x, k);
    StayAhead(s, s', s'.pc[t], x, k);
  }

  lemma RestAhead(s: State, p: Purpose, j: nat, excl: bool, mask: set<nat>, x: nat, k: Key, i: nat)
    requires StillAhead(s, Compare(p, j, excl, mask), x, k)
    requires !(GroupOf(s, k, j) == x / SLOTS && i == x % SLOTS)
    ensures StillAhead(s, AfterReject(p, j, excl, mask - {i}), x, k)
  {
    assert GroupOf(s, k, j) == x / SLOTS ==> x % SLOTS in mask - {i};
  }

  lemma RejectAhead(s: State, s': State, t: Tid, x: nat, k: Key, i: nat)
    requires t in s.pc && s.pc[t].Compare? && StillAhead(s, s.pc[t], x, k)
    requires var Compare(p, j, excl, mask) := s.pc[t];
      i in mask && Goes(s, s', t, AfterReject(p, j, excl, mask - {i}))
      && !(GroupOf(s, k, j) == x / SLOTS && i == x % SLOTS)
    ensures StillAhead(s', s'.pc[t], x, k)
  {
    var Compare(p, j, excl, mask) := s.pc[t];
    RestAhead(s, p, j, excl, mask, x, k, i);
    StayAhead(s, s', AfterReject(p, j, excl, mask - {i}), x, k);
  }

  lemma CompareAhead(s: State, s': State, t: Tid, x: nat, k: Key)
    requires Inv(s) && t in s.pc && s.pc[t].Compare? && WalkStep(s, s', t)
    requires Stores(s, x, k) && StillAhead(s, s.pc[t], x, k)
    ensures StillAhead(s', s'.pc[t], x, k)
  {
    StoredIsClaimed(s, x, k);
    var Compare(p, j, excl, mask) := s.pc[t];
    var i: nat :| IsLeast(i, mask) && i < SLOTS &&
      var y := SlotAt(GroupOf(s, p.Sought(), j), i);
      y < |s.t.elems| &&
      if s.t.tags[y] != FREE && s.t.elems[y].Some? && s.t.elems[y].value.key == p.Sought() then
        FoundStep(s, s', t, p, y) && (p.Erase? ==> excl)
      else
        Goes(s, s', t, AfterReject(p, j, excl, mask - {i}));
    SlotOfGroup(x);
    if Goes(s, s', t, AfterReject(p, j, excl, mask - {i})) && !(s'.pc[t].Done? || s'.pc[t].Destroyed?) {
      RejectAhead(s, s', t, x, k, i);
    }
  }

  lemma StoredIsOnWalk(s: State, k: Key, x: nat, j: nat)
    requires Inv(s) && Stores(s, x, k)
    requires Bit(s.h(k)) !in s.t.overflow[GroupOf(s, k, j)] || j + 1 >= Pow2(s.t.exp)
    ensures !NotMet(s, k, j + 1, x / SLOTS)
  {
    StoredIsClaimed(s, x, k);
    var i := ClaimOnWalk(s, k, x, j);
    assert i < j + 1;
  }

  /** The overflow marks do not let a walk stop before the group of a stored key. */
  lemma CheckAhead(s: State, s': State, t: Tid, x: nat, k: Key)
    requires Inv(s) && t in s.pc && s.pc[t].Check? && WalkStep(s, s', t)
    requires Stores(s, x, k) && StillAhead(s, s.pc[t], x, k)
    ensures StillAhead(s', s'.pc[t], x, k)
  {
    StoredIsClaimed(s, x, k);
    assert forall j :: GroupOf(s', k, j) == GroupOf(s, k, j);
    var j := s.pc[t].j;
    if Bit(s.h(k)) !in s.t.overflow[GroupOf(s, k, j)] || j + 1 >= Pow2(s.t.exp) {
      StoredIsOnWalk(s, k, x, j);
    }
  }

  lemma EnterAhead(s: State, s': State, t: Tid, x: nat, k: Key)
    requires Sized(s) && t in s.pc && s.pc[t].Enter? && WalkStep(s, s', t)
    requires StillAhead(s, s.pc[t], x, k)
    ensures StillAhead(s', s'.pc[t], x, k)
  {
    assert forall j :: GroupOf(s', k, j) == GroupOf(s, k, j);
  }

  lemma WalkAhead(s: State, s': State, t: Tid, x: nat, k: Key)
    requires Inv(s) && t in s.pc && Walks(s.pc[t]) && ThreadStep(s, s', t)
    requires Stores(s, x, k) && StillAhead(s, s.pc[t], x, k)
    ensures StillAhead(s', s'.pc[t], x, k)
  {
    assert WalkStep(s, s', t);
    match s.pc[t]
    case Scan(_, _, _, _) => ScanAhead(s, s', t, x, k);
    case Enter(_, _, _) => EnterAhead(s, s', t, x, k);
    case Compare(_, _, _, _) => CompareAhead(s, s', t, x, k);
    case Check(_, _) => CheckAhead(s, s', t, x, k);
  }

  lemma StayAhead(s: State, s': State, pc: Pc, x: nat, k: Key)
    requires StillAhead(s, pc, x, k) && s'.h == s.h && s'.t.exp == s.t.exp
    ensures StillAhead(s', pc, x, k)
  {
    assert forall j :: GroupOf(s', k, j) == GroupOf(s, k, j);
  }

  lemma StepStaysAhead(s: State, s': State, t: Tid, x: nat, k: Key)
    requires Inv(s) && Next(s, s') && t in s.pc && t in s'.pc && Walks(s.pc[t])
    requires Stores(s, x, k) && StillAhead(s, s.pc[t], x, k)
    ensures StillAhead(s', s'.pc[t], x, k)
  {
    // while some thread is inside an operation the group array is not replaced
    assert !ContainerStep(s, s');
    var u :| ThreadStep(s, s', u);
    if u == t {
      WalkAhead(s, s', t, x, k);
    } else {
      StepOwnMove(s, s', u);
      StayAhead(s, s', s.pc[t], x, k);
    }
  }

  lemma AheadNext(run: seq<State>, n: nat, t: Tid, x: nat, k: Key)
    requires Behavior(run) && n + 1 < |run| && t in run[n].pc && t in run[n + 1].pc && Walks(run[n].pc[t])
    requires Stores(run[n], x, k) && StillAhead(run[n], run[n].pc[t], x, k)
    ensures StillAhead(run[n + 1], run[n + 1].pc[t], x, k)
  {
    RunKeepsInvariant(run, n);
    assert NextAt(run, n);
    StepStaysAhead(run[n], run[n + 1], t, x, k);
  }

  /** Slot x stores k, and thread t takes part, in every state from a to b. */
  ghost predicate KeptThroughout(run: seq<State>, a: nat, b: nat, t: Tid, x: nat, k: Key)
    requires b < |run|
  {
    forall i :: a <= i <= b ==> KeptAt(run[i], t, x, k)
  }

  ghost predicate KeptAt(s: State, t: Tid, x: nat, k: Key) { t in s.pc && Stores(s, x, k) }

  ghost predicate WalkingAt(s: State, t: Tid) { t in s.pc && Walks(s.pc[t]) }

  ghost predicate StartsWalk(s: State, t: Tid, k: Key) {
    t in s.pc && s.pc[t].Scan? && var p := s.pc[t].p; s.pc[t] == Scan(p, 0, 0, {}) && p.Sought() == k
  }

  /** Thread t starts a walk for k at state a and is still walking in every state before b. */
  ghost predicate WalkFrom(run: seq<State>, a: nat, b: nat, t: Tid, k: Key)
    requires b < |run|
  {
    && (forall i :: a <= i < b ==> WalkingAt(run[i], t))
    && a <= b && StartsWalk(run[a], t, k)
  }

  lemma StartIsAhead(s: State, t: Tid, x: nat, k: Key)
    requires StartsWalk(s, t, k)
    ensures StillAhead(s, s.pc[t], x, k)
  {
  }

  lemma {:induction false} WalkStaysAhead(run: seq<State>, a: nat, b: nat, t: Tid, x: nat, k: Key)
    requires Behavior(run) && a <= b < |run|
    requires KeptThroughout(run, a, b, t, x, k) && WalkFrom(run, a, b, t, k)
    ensures StillAhead(run[b], run[b].pc[t], x, k)
    decreases b - a
  {
    assert KeptAt(run[b], t, x, k);
    if a == b {
      StartIsAhead(run[a], t, x, k);
    } else {
      WalkStaysAhead(run, a, b - 1, t, x, k);
      assert KeptAt(run[b - 1], t, x, k) && WalkingAt(run[b - 1], t);
      AheadNext(run, b - 1, t, x, k);
    }
  }

  lemma NeverMissesSlot(run: seq<State>, a: nat, b: nat, t: Tid, x: nat, k: Key)
    requires Behavior(run) && a <= b < |run|
    requires KeptThroughout(run, a, b, t, x, k) && WalkFrom(run, a, b, t, k)
    ensures Walks(run[b].pc[t]) || run[b].pc[t] == Done(Present) || run[b].pc[t].Destroyed?
  {
    WalkStaysAhead(run, a, b, t, x, k);
  }

  ghost predicate InTable(s: State, k: Key) { exists x: nat :: Stores(s, x, k) }

  /** A key gets into a slot only by being constructed there. */
  lemma NewlyStored(s: State, s': State, u: Tid, y: nat, k: Key)
    requires ThreadStep(s, s', u) && Stores(s', y, k) && !Stores(s, y, k)
    ensures Winning(s, u, y, k)
  {
  }

  /** A step that leaves a key in the table leaves it in its slot. */
  lemma StaysPut(s: State, s': State, u: Tid, x: nat, y: nat, k: Key)
    requires Inv(s) && ThreadStep(s, s', u) && Stores(s, x, k) && Stores(s', y, k)
    ensures x == y
  {
    StoredIsClaimed(s, x, k);
    if Stores(s, y, k) {
      StoredIsClaimed(s, y, k);
    } else {
      NewlyStored(s, s', u, y, k);
      WinnerIsClaimed(s, u, y, k);
    }
  }

  lemma WalkStepIsThreads(run: seq<State>, n: nat, t: Tid) returns (u: Tid)
    requires Behavior(run) && n + 1 < |run| && WalkingAt(run[n], t)
    ensures Inv(run[n]) && ThreadStep(run[n], run[n + 1], u) && t in run[n + 1].pc
  {
    RunKeepsInvariant(run, n);
    assert NextAt(run, n);
    // while some thread is inside an operation the group array is not replaced
    assert !ContainerStep(run[n], run[n + 1]);
    u :| ThreadStep(run[n], run[n + 1], u);
    StepOwnMove(run[n], run[n + 1], u);
  }

  /** A key that is in the table all the time is in the same slot all the time, while somebody walks. */
  lemma {:induction false} SlotIsKept(run: seq<State>, a: nat, b: nat, t: Tid, x: nat, k: Key)
    requires Behavior(run) && a <= b < |run| && WalkFrom(run, a, b, t, k)
    requires Stores(run[a], x, k) && forall i :: a <= i <= b ==> InTable(run[i], k)
    ensures KeptThroughout(run, a, b, t, x, k)
    decreases b - a
  {
    if a < b {
      SlotIsKept(run, a, b - 1, t, x, k);
      assert KeptAt(run[b - 1], t, x, k) && WalkingAt(run[b - 1], t);
      var u := WalkStepIsThreads(run, b - 1, t);
      assert InTable(run[b], k);
      var y: nat :| Stores(run[b], y, k);
      StaysPut(run[b - 1], run[b], u, x, y, k);
      assert KeptAt(run[b], t, x, k);
    }
  }

  /** A walk for a key that stays in the table for the whole walk cannot end without finding it. */
  lemma NeverMisses(run: seq<State>, a: nat, b: nat, t: Tid, k: Key)
    requires Behavior(run) && a <= b < |run| && WalkFrom(run, a, b, t, k)
    requires forall i :: a <= i <= b ==> InTable(run[i], k)
    ensures t in run[b].pc
    ensures Walks(run[b].pc[t]) || run[b].pc[t] == Done(Present) || run[b].pc[t].Destroyed?
  {
    assert InTable(run[a], k);
    var x: nat :| Stores(run[a], x, k);
    SlotIsKept(run, a, b, t, x, k);
    assert KeptAt(run[b], t, x, k);
    NeverMissesSlot(run, a, b, t, x, k);
  }
}

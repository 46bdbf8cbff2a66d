/** The structural invariant of the concurrent table and its preservation. */
module ConcurrentInvariant {
  import opened Prober
  import opened Hashing
  import opened TableLayout
  import opened Optional
  import opened ConcurrentModel

  // ---------------------------------------------------------------- invariant

  ghost predicate NoClaimIn(s: State, k: Key, g: nat) {
    forall x: nat :: x < |s.claim| && x / SLOTS == g ==> s.claim[x] != Some(k)
  }

  ghost predicate NoClaim(s: State, k: Key) {
    forall x: nat :: x < |s.claim| ==> s.claim[x] != Some(k)
  }

  /** No insertion has bumped the counter of the home group since it was recorded. */
  ghost predicate Current(s: State, k: Key, c: nat)
    requires Sized(s)
  {
    s.counter[HomeOf(s, k)] == c
  }

  ghost predicate CounterSeen(s: State, k: Key, c: nat)
    requires Sized(s)
  {
    c <= s.counter[HomeOf(s, k)]
  }

  /** The groups walked so far hold no claim for the key, unless a rival has bumped the counter. */
  ghost predicate Walked(s: State, p: Purpose, j: nat)
    requires Sized(s)
  {
    && j <= Pow2(s.t.exp)
    && (p.Insert? ==>
          && CounterSeen(s, p.e.key, p.c)
          && (Current(s, p.e.key, p.c) ==> forall i: nat :: i < j ==> NoClaimIn(s, p.e.key, GroupOf(s, p.e.key, i))))
  }

  /** Slots of the current group below `upto` that are not candidates hold no claim for the key. */
  ghost predicate Sifted(s: State, p: Purpose, j: nat, upto: nat, mask: set<nat>)
    requires Sized(s)
  {
    var g := GroupOf(s, p.Sought(), j);
    && (forall i :: i in mask ==> i < upto && SlotAt(g, i) < |s.t.tags| && !SentinelSlot(s.t, SlotAt(g, i)))
    && (p.Insert? && Current(s, p.e.key, p.c) ==>
          forall i: nat :: i < upto && i !in mask && SlotAt(g, i) < |s.claim| ==> s.claim[SlotAt(g, i)] != Some(p.e.key))
  }

  ghost predicate Vacant(s: State, x: nat)
    requires Sized(s)
  {
    x < |s.t.tags| && !SentinelSlot(s.t, x) && s.claim[x] == None && s.t.elems[x] == None
  }

  ghost predicate Searched(s: State, k: Key, c: nat)
    requires Sized(s)
  {
    CounterSeen(s, k, c) && (Current(s, k, c) ==> NoClaim(s, k))
  }

  ghost predicate LedTo(s: State, k: Key, x: nat)
    requires Sized(s)
  {
    Reachable(s.t.exp, s.t.overflow, s.h(k), x / SLOTS)
  }

  ghost predicate ThreadOk(s: State, pc: Pc)
    requires Sized(s)
  {
    match pc
    case Scan(p, j, i, mask) => j < Pow2(s.t.exp) && i <= SLOTS && Walked(s, p, j) && Sifted(s, p, j, i, mask)
    case Enter(p, j, mask) => j < Pow2(s.t.exp) && mask != {} && Walked(s, p, j) && Sifted(s, p, j, SLOTS, mask)
    case Compare(p, j, excl, mask) =>
      j < Pow2(s.t.exp) && mask != {} && (p.Erase? ==> excl) && Walked(s, p, j) && Sifted(s, p, j, SLOTS, mask)
    case Check(p, j) => j < Pow2(s.t.exp) && Walked(s, p, j + 1)
    case Destroyed(x) => Vacant(s, x) && s.t.tags[x] >= 2
    case Lowered(x, _) => Vacant(s, x) && s.t.tags[x] >= 2
    case Cleared(x) => x < |s.t.tags|
    case Reserve(e, c) => Searched(s, e.key, c)
    case Reserved(e, c, _) => Searched(s, e.key, c)
    case Seek(e, c, j) => Searched(s, e.key, c) && Passed(s.t.exp, s.t.overflow, s.h(e.key), j)
    case Held(e, c, j) => Searched(s, e.key, c) && Passed(s.t.exp, s.t.overflow, s.h(e.key), j)
    case Taking(e, c, x) => Searched(s, e.key, c) && Vacant(s, x) && s.t.tags[x] == FREE && LedTo(s, e.key, x)
    case Bump(e, c, x) => Searched(s, e.key, c) && Vacant(s, x) && s.t.tags[x] == Tag(s.h(e.key)) && LedTo(s, e.key, x)
    case Won(e, x) => x < |s.t.tags| && !SentinelSlot(s.t, x) && s.claim[x] == Some(e.key) && s.t.elems[x] == None
    case Lost(e, x) => Vacant(s, x) && s.t.tags[x] == Tag(s.h(e.key))
    case _ => true
  }

  /** The slot a thread is working on while its tag is set without a live element. */
  predicate WorksOn(pc: Pc, x: nat) {
    match pc
    case Destroyed(y) => x == y
    case Lowered(y, _) => x == y
    case Bump(_, _, y) => x == y
    case Won(_, y) => x == y
    case Lost(_, y) => x == y
    case _ => false
  }

  ghost predicate HasWorker(s: State, x: nat) {
    exists t :: t in s.pc && WorksOn(s.pc[t], x)
  }

  ghost predicate SlotOk(s: State, x: nat)
    requires Sized(s) && x < |s.t.tags|
  {
    if SentinelSlot(s.t, x) then
      s.t.tags[x] == SENTINEL && s.t.elems[x] == None && s.claim[x] == None
    else
      && (s.t.elems[x].Some? ==> s.claim[x] == Some(s.t.elems[x].value.key))
      && (s.claim[x].Some? ==> s.t.tags[x] == Tag(s.h(s.claim[x].value)) && LedTo(s, s.claim[x].value, x))
      && (s.t.tags[x] == FREE || s.t.tags[x] >= 2)
      && (s.t.tags[x] != FREE && s.t.elems[x] == None ==> HasWorker(s, x))
  }

  ghost predicate ClaimsDistinct(s: State) {
    forall x: nat, y: nat :: x < |s.claim| && y < |s.claim| && s.claim[x].Some? && s.claim[x] == s.claim[y] ==> x == y
  }

  ghost predicate LocksExclude(s: State) {
    forall t, u, g :: t in s.pc && u in s.pc && t != u && HoldsExclusive(s, s.pc[t], g) ==>
      !HoldsExclusive(s, s.pc[u], g) && !HoldsShared(s, s.pc[u], g)
  }

  ghost predicate Inv(s: State) {
    && Sized(s)
    && (forall x: nat :: x < |s.t.tags| ==> SlotOk(s, x))
    && ClaimsDistinct(s)
    && LocksExclude(s)
    && (forall t :: t in s.pc ==> ThreadOk(s, s.pc[t]))
  }

  // --------------------------------------------------------- frame of one step

  /** What a step of thread t may change as far as the other threads can tell: the one
   *  slot y whose group t holds, overflow marks, counters and its own program counter.
   */
  ghost predicate Framed(s: State, s': State, t: Tid, y: nat) {
    && Sized(s) && Sized(s')
    && t in s.pc && t in s'.pc && s'.pc == s.pc[t := s'.pc[t]]
    && s'.h == s.h && s'.t.exp == s.t.exp && s'.t.dummy == s.t.dummy
    && (forall g :: 0 <= g < |s.t.overflow| ==> s.t.overflow[g] <= s'.t.overflow[g])
    && (forall g :: 0 <= g < |s.counter| ==> s.counter[g] <= s'.counter[g])
    && (forall x :: 0 <= x < |s.t.tags| && x != y ==>
          s'.t.tags[x] == s.t.tags[x] && s'.t.elems[x] == s.t.elems[x] && s'.claim[x] == s.claim[x])
    && (forall x :: 0 <= x < |s.t.tags| && s'.claim[x].Some? && s'.claim[x] != s.claim[x] ==>
          s'.counter[HomeOf(s, s'.claim[x].value)] > s.counter[HomeOf(s, s'.claim[x].value)])
    && (y < |s.t.tags| && !(s'.t.tags[y] == s.t.tags[y] && s'.t.elems[y] == s.t.elems[y] && s'.claim[y] == s.claim[y]) ==>
          HoldsExclusive(s, s.pc[t], y / SLOTS))
  }

  lemma PassedFrame(s: State, s': State, t: Tid, y: nat, hash: Hash64, j: nat)
    requires Framed(s, s', t, y) && Passed(s.t.exp, s.t.overflow, hash, j)
    ensures Passed(s'.t.exp, s'.t.overflow, hash, j)
  {
  }

  lemma LedToFrame(s: State, s': State, t: Tid, y: nat, k: Key, x: nat)
    requires Framed(s, s', t, y) && LedTo(s, k, x)
    ensures LedTo(s', k, x)
  {
    ReachableGrows(s.t.exp, s.t.overflow, s'.t.overflow, s.h(k), x / SLOTS);
  }

  /** While the counter stays put no claim for the key can appear anywhere. */
  lemma NoNewClaim(s: State, s': State, t: Tid, y: nat, k: Key, c: nat, x: nat)
    requires Framed(s, s', t, y)
    requires CounterSeen(s, k, c) && Current(s', k, c) && x < |s.claim|
    ensures Current(s, k, c)
    ensures s.claim[x] != Some(k) ==> s'.claim[x] != Some(k)
  {
  }

  lemma WalkedFrame(s: State, s': State, t: Tid, y: nat, p: Purpose, j: nat)
    requires Framed(s, s', t, y) && Walked(s, p, j)
    ensures Walked(s', p, j)
  {
    if p.Insert? && Current(s', p.e.key, p.c) {
      forall i: nat | i < j ensures NoClaimIn(s', p.e.key, GroupOf(s', p.e.key, i)) {
        assert Current(s, p.e.key, p.c);
        assert NoClaimIn(s, p.e.key, GroupOf(s, p.e.key, i));
        forall x: nat | x < |s.claim| && x / SLOTS == GroupOf(s, p.e.key, i) ensures s'.claim[x] != Some(p.e.key) {
          NoNewClaim(s, s', t, y, p.e.key, p.c, x);
        }
      }
    }
  }

  lemma SiftedFrame(s: State, s': State, t: Tid, y: nat, p: Purpose, j: nat, upto: nat, mask: set<nat>)
    requires Framed(s, s', t, y) && (p.Insert? ==> CounterSeen(s, p.e.key, p.c)) && Sifted(s, p, j, upto, mask)
    ensures Sifted(s', p, j, upto, mask)
  {
    if p.Insert? && Current(s', p.e.key, p.c) {
      var g := GroupOf(s, p.e.key, j);
      forall i: nat | i < upto && i !in mask && SlotAt(g, i) < |s.claim| ensures s'.claim[SlotAt(g, i)] != Some(p.e.key) {
        NoNewClaim(s, s', t, y, p.e.key, p.c, SlotAt(g, i));
      }
    }
  }

  lemma SearchedFrame(s: State, s': State, t: Tid, y: nat, k: Key, c: nat)
    requires Framed(s, s', t, y) && Searched(s, k, c)
    ensures Searched(s', k, c)
  {
    if Current(s', k, c) {
      forall x: nat | x < |s.claim| ensures s'.claim[x] != Some(k) {
        NoNewClaim(s, s', t, y, k, c, x);
      }
    }
  }

  /** The slot of a thread that holds its group is out of reach of the others. */
  lemma SlotUntouched(s: State, s': State, t: Tid, y: nat, u: Tid, x: nat)
    requires Framed(s, s', t, y) && LocksExclude(s)
    requires u in s.pc && u != t && x < |s.t.tags| && HoldsExclusive(s, s.pc[u], x / SLOTS)
    ensures s'.t.tags[x] == s.t.tags[x] && s'.t.elems[x] == s.t.elems[x] && s'.claim[x] == s.claim[x]
  {
    assert !HoldsExclusive(s, s.pc[t], x / SLOTS);
  }

  lemma WalkersUndisturbed(s: State, s': State, t: Tid, y: nat, pc: Pc)
    requires Framed(s, s', t, y) && ThreadOk(s, pc)
    requires pc.Scan? || pc.Enter? || pc.Compare? || pc.Check?
    ensures ThreadOk(s', pc)
  {
    match pc
    case Scan(p, j, i, mask) => WalkedFrame(s, s', t, y, p, j); SiftedFrame(s, s', t, y, p, j, i, mask);
    case Enter(p, j, mask) => WalkedFrame(s, s', t, y, p, j); SiftedFrame(s, s', t, y, p, j, SLOTS, mask);
    case Compare(p, j, _, mask) => WalkedFrame(s, s', t, y, p, j); SiftedFrame(s, s', t, y, p, j, SLOTS, mask);
    case Check(p, j) => WalkedFrame(s, s', t, y, p, j + 1);
  }

  lemma SeekersUndisturbed(s: State, s': State, t: Tid, y: nat, pc: Pc)
    requires Framed(s, s', t, y) && ThreadOk(s, pc)
    requires pc.Reserve? || pc.Reserved? || pc.Seek? || pc.Held?
    ensures ThreadOk(s', pc)
  {
    SearchedFrame(s, s', t, y, pc.e.key, pc.c);
    if pc.Seek? || pc.Held? {
      PassedFrame(s, s', t, y, s.h(pc.e.key), pc.j);
    }
  }

  lemma WorkersUndisturbed(s: State, s': State, t: Tid, y: nat, u: Tid)
    requires Framed(s, s', t, y) && LocksExclude(s) && u in s.pc && u != t && ThreadOk(s, s.pc[u])
    requires var pc := s.pc[u]; pc.Destroyed? || pc.Lowered? || pc.Taking? || pc.Bump? || pc.Won? || pc.Lost?
    ensures ThreadOk(s', s.pc[u])
  {
    var pc := s.pc[u];
    SlotUntouched(s, s', t, y, u, pc.x);
    if pc.Taking? || pc.Bump? {
      SearchedFrame(s, s', t, y, pc.e.key, pc.c);
      LedToFrame(s, s', t, y, pc.e.key, pc.x);
    }
  }

  /** A step leaves the facts about every other thread intact. */
  lemma OthersUndisturbed(s: State, s': State, t: Tid, y: nat, u: Tid)
    requires Framed(s, s', t, y) && LocksExclude(s) && u in s.pc && u != t && ThreadOk(s, s.pc[u])
    ensures ThreadOk(s', s'.pc[u])
  {
    var pc := s.pc[u];
    if pc.Scan? || pc.Enter? || pc.Compare? || pc.Check? {
      WalkersUndisturbed(s, s', t, y, pc);
    } else if pc.Reserve? || pc.Reserved? || pc.Seek? || pc.Held? {
      SeekersUndisturbed(s, s', t, y, pc);
    } else if pc.Destroyed? || pc.Lowered? || pc.Taking? || pc.Bump? || pc.Won? || pc.Lost? {
      WorkersUndisturbed(s, s', t, y, u);
    }
  }

  lemma WorkerKept(s: State, s': State, t: Tid, x: nat)
    requires t in s.pc && t in s'.pc && s'.pc == s.pc[t := s'.pc[t]]
    requires HasWorker(s, x) && (WorksOn(s.pc[t], x) ==> WorksOn(s'.pc[t], x))
    ensures HasWorker(s', x)
  {
    var u :| u in s.pc && WorksOn(s.pc[u], x);
    assert u in s'.pc && WorksOn(s'.pc[u], x);
  }

  /** Slots other than the one worked on stay in order. */
  lemma OtherSlotsKeep(s: State, s': State, t: Tid, y: nat, x: nat)
    requires Framed(s, s', t, y) && x < |s.t.tags| && SlotOk(s, x) && x != y
    requires WorksOn(s.pc[t], x) ==> WorksOn(s'.pc[t], x)
    ensures SlotOk(s', x)
  {
    if s.claim[x].Some? && !SentinelSlot(s.t, x) {
      LedToFrame(s, s', t, y, s.claim[x].value, x);
    }
    if HasWorker(s, x) {
      WorkerKept(s, s', t, x);
    }
  }

  /** Locks stay exclusive when a step keeps or drops its lock, or takes a free one. */
  lemma LocksKeep(s: State, s': State, t: Tid)
    requires LocksExclude(s) && t in s.pc && t in s'.pc && s'.pc == s.pc[t := s'.pc[t]]
    requires s'.h == s.h && s'.t.exp == s.t.exp
    requires forall g :: HoldsExclusive(s', s'.pc[t], g) ==> HoldsExclusive(s, s.pc[t], g) || CanLock(s, t, g, true)
    requires forall g :: HoldsShared(s', s'.pc[t], g) ==> HoldsShared(s, s.pc[t], g) || CanLock(s, t, g, false)
    ensures LocksExclude(s')
  {
    assert forall pc, g :: HoldsExclusive(s', pc, g) == HoldsExclusive(s, pc, g);
    assert forall pc, g :: HoldsShared(s', pc, g) == HoldsShared(s, pc, g);
  }

  /** Assembling the invariant after a framed step from what the step itself must establish. */
  lemma FramedKeeps(s: State, s': State, t: Tid, y: nat)
    requires Inv(s) && Framed(s, s', t, y)
    requires forall x :: x != y && WorksOn(s.pc[t], x) ==> WorksOn(s'.pc[t], x)
    requires y < |s.t.tags| ==> SlotOk(s', y)
    requires ClaimsDistinct(s')
    requires LocksExclude(s')
    requires ThreadOk(s', s'.pc[t])
    ensures Inv(s')
  {
    forall x: nat | x < |s'.t.tags| ensures SlotOk(s', x) {
      if x != y {
        assert SlotOk(s, x);
        OtherSlotsKeep(s, s', t, y, x);
      }
    }
    forall u | u in s'.pc ensures ThreadOk(s', s'.pc[u]) {
      if u != t {
        assert ThreadOk(s, s.pc[u]);
        OthersUndisturbed(s, s', t, y, u);
      }
    }
  }

  // -------------------------------------------------- steps that only walk

  /** A step that leaves table, claims and counters alone. */
  lemma QuietStep(s: State, s': State, t: Tid)
    requires Inv(s) && t in s.pc && t in s'.pc
    requires s' == s.(size := s'.size, ml := s'.ml, pc := s.pc[t := s'.pc[t]])
    requires forall x :: WorksOn(s.pc[t], x) ==> WorksOn(s'.pc[t], x)
    requires LocksExclude(s')
    requires ThreadOk(s', s'.pc[t])
    ensures Inv(s')
  {
    FramedKeeps(s, s', t, |s.t.tags|);
  }

  /** Thread facts only read the table, not the program counters. */
  lemma ThreadOkStable(s: State, s': State, t: Tid, pc: Pc)
    requires Sized(s) && ThreadOk(s, pc) && t in s.pc && t in s'.pc
    requires s' == s.(size := s'.size, ml := s'.ml, pc := s.pc[t := s'.pc[t]])
    ensures ThreadOk(s', pc)
  {
    if pc.Scan? || pc.Enter? || pc.Compare? || pc.Check? {
      WalkersUndisturbed(s, s', t, |s.t.tags|, pc);
    } else if pc.Reserve? || pc.Reserved? || pc.Seek? || pc.Held? {
      SeekersUndisturbed(s, s', t, |s.t.tags|, pc);
    } else if pc.Taking? || pc.Bump? {
      SearchedFrame(s, s', t, |s.t.tags|, pc.e.key, pc.c);
    }
  }

  lemma CallKeeps(s: State, s': State, t: Tid)
    requires Inv(s) && t in s.pc && CallStep(s, s', t)
    ensures Inv(s')
  {
    LocksKeep(s, s', t);
    QuietStep(s, s', t);
  }

  lemma SlotInGroup(s: State, k: Key, j: nat, i: nat)
    requires Sized(s) && i < SLOTS
    ensures SlotAt(GroupOf(s, k, j), i) < |s.t.tags|
    ensures SlotAt(GroupOf(s, k, j), i) / SLOTS == GroupOf(s, k, j)
    ensures SlotAt(GroupOf(s, k, j), i) % SLOTS == i
  {
  }

  /** Reading one more tag: a claimed slot for the key carries its tag and becomes a candidate. */
  lemma ScanOne(s: State, p: Purpose, j: nat, i: nat, mask: set<nat>)
    requires Inv(s) && i < SLOTS && Sifted(s, p, j, i, mask)
    ensures var x := SlotAt(GroupOf(s, p.Sought(), j), i);
            x < |s.t.tags| &&
            Sifted(s, p, j, i + 1, if s.t.tags[x] == Tag(s.h(p.Sought())) then mask + {i} else mask)
  {
    SlotInGroup(s, p.Sought(), j, i);
    assert SlotOk(s, SlotAt(GroupOf(s, p.Sought(), j), i));
  }

  /** When no candidate is left the group is known to hold no claim for the key. */
  lemma GroupCleared(s: State, p: Purpose, j: nat)
    requires Inv(s) && j < Pow2(s.t.exp) && Walked(s, p, j) && Sifted(s, p, j, SLOTS, {})
    ensures Walked(s, p, j + 1)
  {
    if p.Insert? && Current(s, p.e.key, p.c) {
      var g := GroupOf(s, p.e.key, j);
      forall x: nat | x < |s.claim| && x / SLOTS == g ensures s.claim[x] != Some(p.e.key) {
        assert x == SlotAt(g, x % SLOTS);
      }
    }
  }

  lemma ScanKeeps(s: State, s': State, t: Tid)
    requires Inv(s) && t in s.pc && s.pc[t].Scan? && WalkStep(s, s', t)
    ensures Inv(s')
  {
    var Scan(p, j, i, mask) := s.pc[t];
    assert ThreadOk(s, s.pc[t]);
    if i < SLOTS {
      ScanOne(s, p, j, i, mask);
    } else if mask == {} {
      GroupCleared(s, p, j);
    }
    ThreadOkStable(s, s', t, s'.pc[t]);
    LocksKeep(s, s', t);
    QuietStep(s, s', t);
  }

  lemma EnterKeeps(s: State, s': State, t: Tid)
    requires Inv(s) && t in s.pc && (s.pc[t].Enter? || s.pc[t].Begin?) && WalkStep(s, s', t)
    ensures Inv(s')
  {
    assert ThreadOk(s, s.pc[t]);
    ThreadOkStable(s, s', t, s'.pc[t]);
    LocksKeep(s, s', t);
    QuietStep(s, s', t);
  }

  /** A slot with a set tag but no live element is being worked on under its group's lock. */
  lemma WorkerHoldsGroup(s: State, x: nat) returns (u: Tid)
    requires Inv(s) && x < |s.t.tags| && !SentinelSlot(s.t, x) && s.t.tags[x] != FREE && s.t.elems[x] == None
    ensures u in s.pc && WorksOn(s.pc[u], x) && HoldsExclusive(s, s.pc[u], x / SLOTS)
  {
    assert SlotOk(s, x);
    u :| u in s.pc && WorksOn(s.pc[u], x);
  }

  /** Whoever compares under a group lock finds every occupied candidate fully constructed. */
  lemma ComparedIsConstructed(s: State, t: Tid, i: nat)
    requires Inv(s) && t in s.pc && s.pc[t].Compare? && i in s.pc[t].mask
    ensures var x := SlotAt(GroupOf(s, s.pc[t].p.Sought(), s.pc[t].j), i);
            x < |s.t.elems| && (s.t.tags[x] != FREE ==> s.t.elems[x].Some?)
  {
    assert ThreadOk(s, s.pc[t]);
    var k, j := s.pc[t].p.Sought(), s.pc[t].j;
    var x := SlotAt(GroupOf(s, k, j), i);
    SlotInGroup(s, k, j, i);
    if s.t.tags[x] != FREE && s.t.elems[x] == None {
      var u := WorkerHoldsGroup(s, x);
    }
  }

  /** A candidate rejected under the lock holds no claim for the key. */
  lemma RejectedHoldsNoClaim(s: State, t: Tid, i: nat)
    requires Inv(s) && t in s.pc && s.pc[t].Compare? && i in s.pc[t].mask
    requires var x := SlotAt(GroupOf(s, s.pc[t].p.Sought(), s.pc[t].j), i);
             x < |s.t.elems| &&
             !(s.t.tags[x] != FREE && s.t.elems[x].Some? && s.t.elems[x].value.key == s.pc[t].p.Sought())
    ensures s.claim[SlotAt(GroupOf(s, s.pc[t].p.Sought(), s.pc[t].j), i)] != Some(s.pc[t].p.Sought())
  {
    ComparedIsConstructed(s, t, i);
    assert SlotOk(s, SlotAt(GroupOf(s, s.pc[t].p.Sought(), s.pc[t].j), i));
  }

  lemma RejectKeeps(s: State, s': State, t: Tid, i: nat)
    requires Inv(s) && t in s.pc && s.pc[t].Compare? && i in s.pc[t].mask
    requires var x := SlotAt(GroupOf(s, s.pc[t].p.Sought(), s.pc[t].j), i);
             x < |s.t.elems| &&
             !(s.t.tags[x] != FREE && s.t.elems[x].Some? && s.t.elems[x].value.key == s.pc[t].p.Sought())
    requires Goes(s, s', t, AfterReject(s.pc[t].p, s.pc[t].j, s.pc[t].excl, s.pc[t].mask - {i}))
    ensures Inv(s')
  {
    var Compare(p, j, excl, mask) := s.pc[t];
    assert ThreadOk(s, s.pc[t]);
    RejectedHoldsNoClaim(s, t, i);
    assert Sifted(s, p, j, SLOTS, mask - {i});
    if mask - {i} == {} {
      GroupCleared(s, p, j);
    }
    ThreadOkStable(s, s', t, s'.pc[t]);
    LocksKeep(s, s', t);
    QuietStep(s, s', t);
  }

  lemma DestroyKeeps(s: State, s': State, t: Tid, x: nat)
    requires Inv(s) && t in s.pc && s.pc[t].Compare? && s.pc[t].excl
    requires x < |s.t.elems| && x / SLOTS == GroupOf(s, s.pc[t].p.Sought(), s.pc[t].j)
    requires s.t.elems[x].Some?
    requires s' == s.(t := s.t.(elems := s.t.elems[x := None]), claim := s.claim[x := None], pc := s.pc[t := Destroyed(x)])
    ensures Inv(s')
  {
    assert SlotOk(s, x);
    assert t in s'.pc && WorksOn(s'.pc[t], x);
    LocksKeep(s, s', t);
    FramedKeeps(s, s', t, x);
  }

  lemma CompareKeeps(s: State, s': State, t: Tid)
    requires Inv(s) && t in s.pc && s.pc[t].Compare? && WalkStep(s, s', t)
    ensures Inv(s')
  {
    var Compare(p, j, excl, mask) := s.pc[t];
    var i: nat :| IsLeast(i, mask) && i < SLOTS &&
      var x := SlotAt(GroupOf(s, p.Sought(), j), i);
      x < |s.t.elems| &&
      if s.t.tags[x] != FREE && s.t.elems[x].Some? && s.t.elems[x].value.key == p.Sought() then
        FoundStep(s, s', t, p, x) && (p.Erase? ==> excl)
      else
        Goes(s, s', t, AfterReject(p, j, excl, mask - {i}));
    var x := SlotAt(GroupOf(s, p.Sought(), j), i);
    SlotInGroup(s, p.Sought(), j, i);
    if !(s.t.tags[x] != FREE && s.t.elems[x].Some? && s.t.elems[x].value.key == p.Sought()) {
      RejectKeeps(s, s', t, i);
    } else if Goes(s, s', t, Done(Present)) {
      LocksKeep(s, s', t);
      QuietStep(s, s', t);
    } else {
      DestroyKeeps(s, s', t, x);
    }
  }

  /** A search that ends has seen every place a claim for the key could be. */
  lemma SearchEnds(s: State, e: Entry, c: nat, j: nat)
    requires Inv(s) && j < Pow2(s.t.exp) && Walked(s, Insert(e, c), j + 1)
    requires Bit(s.h(e.key)) !in s.t.overflow[GroupOf(s, e.key, j)] || j + 1 >= Pow2(s.t.exp)
    ensures Searched(s, e.key, c)
  {
    if Current(s, e.key, c) {
      forall x: nat | x < |s.claim| ensures s.claim[x] != Some(e.key) {
        if s.claim[x] == Some(e.key) {
          var i := ClaimOnWalk(s, e.key, x, j);
          ClaimSeen(s, e.key, x, GroupOf(s, e.key, i));
        }
      }
    }
  }

  lemma ClaimSeen(s: State, k: Key, x: nat, g: nat)
    requires x < |s.claim| && s.claim[x] == Some(k) && x / SLOTS == g
    ensures !NoClaimIn(s, k, g)
  {
  }

  /** A claimed slot lies in a group the walk for its key meets before it may stop. */
  lemma ClaimOnWalk(s: State, k: Key, x: nat, j: nat) returns (i: nat)
    requires Inv(s) && x < |s.claim| && s.claim[x] == Some(k)
    requires Bit(s.h(k)) !in s.t.overflow[GroupOf(s, k, j)] || j + 1 >= Pow2(s.t.exp)
    ensures i <= j && GroupOf(s, k, i) == x / SLOTS
  {
    assert SlotOk(s, x);
    i :| ProbeGroup(s.t.exp, s.h(k), i) == x / SLOTS && Passed(s.t.exp, s.t.overflow, s.h(k), i);
    if i > j {
      GroupInRange(s.t, x);
      i := ProbeMeets(s.t.exp, s.h(k), x / SLOTS);
    }
  }

  lemma CheckKeeps(s: State, s': State, t: Tid)
    requires Inv(s) && t in s.pc && s.pc[t].Check? && WalkStep(s, s', t)
    ensures Inv(s')
  {
    var Check(p, j) := s.pc[t];
    assert ThreadOk(s, s.pc[t]);
    if s'.pc[t].Reserve? {
      SearchEnds(s, p.e, p.c, j);
    }
    ThreadOkStable(s, s', t, s'.pc[t]);
    LocksKeep(s, s', t);
    QuietStep(s, s', t);
  }

  lemma WalkKeeps(s: State, s': State, t: Tid)
    requires Inv(s) && t in s.pc && WalkStep(s, s', t)
    ensures Inv(s')
  {
    if s.pc[t].Scan? {
      ScanKeeps(s, s', t);
    } else if s.pc[t].Compare? {
      CompareKeeps(s, s', t);
    } else if s.pc[t].Check? {
      CheckKeeps(s, s', t);
    } else {
      EnterKeeps(s, s', t);
    }
  }

  // ------------------------------------------------------- steps that write

  lemma FreeingKeeps(s: State, s': State, t: Tid, x: nat)
    requires Inv(s) && t in s.pc && t in s'.pc && Vacant(s, x) && HoldsExclusive(s, s.pc[t], x / SLOTS)
    requires s' == s.(t := s.t.(tags := s.t.tags[x := FREE]), pc := s.pc[t := s'.pc[t]])
    requires forall z :: z != x ==> !WorksOn(s.pc[t], z)
    requires s'.pc[t] == Cleared(x) || s'.pc[t].Unwound?
    ensures Inv(s')
  {
    assert SlotOk(s, x);
    LocksKeep(s, s', t);
    FramedKeeps(s, s', t, x);
  }

  lemma EraseKeeps(s: State, s': State, t: Tid)
    requires Inv(s) && t in s.pc && EraseStep(s, s', t)
    ensures Inv(s')
  {
    assert ThreadOk(s, s.pc[t]);
    if s.pc[t].Lowered? {
      FreeingKeeps(s, s', t, s.pc[t].x);
    } else {
      ThreadOkStable(s, s', t, s.pc[t]);
      LocksKeep(s, s', t);
      QuietStep(s, s', t);
    }
  }

  lemma ReserveKeeps(s: State, s': State, t: Tid)
    requires Inv(s) && t in s.pc && ReserveStep(s, s', t)
    ensures Inv(s')
  {
    assert ThreadOk(s, s.pc[t]);
    if s.pc[t].Reserve? || s.pc[t].Reserved? {
      SearchedFrame(s, s', t, |s.t.tags|, s.pc[t].e.key, s.pc[t].c);
    }
    LocksKeep(s, s', t);
    QuietStep(s, s', t);
  }

  lemma HeldKeeps(s: State, s': State, t: Tid)
    requires Inv(s) && t in s.pc && (s.pc[t].Seek? || s.pc[t].Held?) && PlaceStep(s, s', t)
    ensures Inv(s')
  {
    assert ThreadOk(s, s.pc[t]);
    var e, c, j := s.pc[t].e, s.pc[t].c, s.pc[t].j;
    if s.pc[t].Held? && s'.pc[t].Seek? {
      MarkKeeps(s, s', t);
    } else if s.pc[t].Held? {
      var x := s'.pc[t].x;
      var i: nat :| i < SLOTS && x == SlotAt(GroupOf(s, e.key, j), i);
      SlotInGroup(s, e.key, j, i);
      assert SlotOk(s, x);
      assert LedTo(s, e.key, x);
      ThreadOkStable(s, s', t, s'.pc[t]);
      LocksKeep(s, s', t);
      QuietStep(s, s', t);
    } else {
      ThreadOkStable(s, s', t, s'.pc[t]);
      LocksKeep(s, s', t);
      QuietStep(s, s', t);
    }
  }

  /** A full group is marked before the search for a slot moves past it. */
  lemma MarkKeeps(s: State, s': State, t: Tid)
    requires Inv(s) && t in s.pc && s.pc[t].Held?
    requires var Held(e, c, j) := s.pc[t]; var g := GroupOf(s, e.key, j);
             s' == s.(t := s.t.(overflow := s.t.overflow[g := s.t.overflow[g] + {Bit(s.h(e.key))}]),
                      pc := s.pc[t := Seek(e, c, j + 1)])
    ensures Inv(s')
  {
    var Held(e, c, j) := s.pc[t];
    assert ThreadOk(s, s.pc[t]);
    var y := |s.t.tags|;
    assert Framed(s, s', t, y);
    SearchedFrame(s, s', t, y, e.key, c);
    PassedFrame(s, s', t, y, s.h(e.key), j);
    assert Passed(s'.t.exp, s'.t.overflow, s.h(e.key), j + 1);
    LocksKeep(s, s', t);
    FramedKeeps(s, s', t, y);
  }

  lemma TakeKeeps(s: State, s': State, t: Tid)
    requires Inv(s) && t in s.pc && s.pc[t].Taking? && PlaceStep(s, s', t)
    ensures Inv(s')
  {
    var Taking(e, c, x) := s.pc[t];
    assert ThreadOk(s, s.pc[t]);
    assert SlotOk(s, x);
    assert t in s'.pc && WorksOn(s'.pc[t], x);
    SearchedFrame(s, s', t, x, e.key, c);
    LedToFrame(s, s', t, x, e.key, x);
    LocksKeep(s, s', t);
    FramedKeeps(s, s', t, x);
  }

  /** The decisive step: the increment that finds the recorded value meets no rival claim. */
  lemma BumpKeeps(s: State, s': State, t: Tid)
    requires Inv(s) && t in s.pc && s.pc[t].Bump? && PlaceStep(s, s', t)
    ensures Inv(s')
    ensures s'.pc[t].Won? ==> NoClaim(s, s.pc[t].e.key)
  {
    var Bump(e, c, x) := s.pc[t];
    assert ThreadOk(s, s.pc[t]);
    assert SlotOk(s, x);
    assert t in s'.pc && WorksOn(s'.pc[t], x);
    LedToFrame(s, s', t, x, e.key, x);
    LocksKeep(s, s', t);
    FramedKeeps(s, s', t, x);
  }

  lemma ConstructKeeps(s: State, s': State, t: Tid)
    requires Inv(s) && t in s.pc && s.pc[t].Won? && PlaceStep(s, s', t)
    ensures Inv(s')
  {
    var Won(e, x) := s.pc[t];
    assert ThreadOk(s, s.pc[t]);
    assert SlotOk(s, x);
    LedToFrame(s, s', t, x, e.key, x);
    LocksKeep(s, s', t);
    FramedKeeps(s, s', t, x);
  }

  lemma PlaceKeeps(s: State, s': State, t: Tid)
    requires Inv(s) && t in s.pc && PlaceStep(s, s', t)
    ensures Inv(s')
  {
    assert ThreadOk(s, s.pc[t]);
    match s.pc[t]
    case Seek(_, _, _) => HeldKeeps(s, s', t);
    case Held(_, _, _) => HeldKeeps(s, s', t);
    case Taking(_, _, _) => TakeKeeps(s, s', t);
    case Bump(_, _, _) => BumpKeeps(s, s', t);
    case Won(_, _) => ConstructKeeps(s, s', t);
    case Lost(_, x) => FreeingKeeps(s, s', t, x);
  }

  lemma RestIsOk(s: State)
    requires AtRest(s)
    ensures Inv(s)
  {
    forall x: nat | x < |s.t.tags| ensures SlotOk(s, x) {
      assert Settled(s.t, s.h, x);
    }
    forall x: nat, y: nat | x < |s.claim| && y < |s.claim| && s.claim[x].Some? && s.claim[x] == s.claim[y] ensures x == y {
      assert HasKey(s.t.elems, x, s.claim[x].value) && HasKey(s.t.elems, y, s.claim[x].value);
    }
  }

  lemma StepKeeps(s: State, s': State)
    requires Inv(s) && Next(s, s')
    ensures Inv(s')
  {
    if ContainerStep(s, s') {
      RestIsOk(s');
    } else {
      var t :| ThreadStep(s, s', t);
      if CallStep(s, s', t) {
        CallKeeps(s, s', t);
      } else if WalkStep(s, s', t) {
        WalkKeeps(s, s', t);
      } else if EraseStep(s, s', t) {
        EraseKeeps(s, s', t);
      } else if ReserveStep(s, s', t) {
        ReserveKeeps(s, s', t);
      } else {
        PlaceKeeps(s, s', t);
      }
    }
  }

  lemma {:induction false} RunKeepsInvariant(run: seq<State>, i: nat)
    requires Behavior(run) && i < |run|
    ensures Inv(run[i])
  {
    if i == 0 {
      RestIsOk(run[0]);
    } else {
      RunKeepsInvariant(run, i - 1);
      assert NextAt(run, i - 1);
      StepKeeps(run[i - 1], run[i]);
    }
  }
}

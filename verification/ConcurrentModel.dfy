/** The concurrent table as a transition system over any number of threads.
 *
 *  Each step is one atomic access to shared state, or one access made under a
 *  group lock that only the lock's holder can make.  Lookups read the tags of a
 *  group slot by slot without a lock.  Container-wide operations (rehash, clear)
 *  hold the container lock exclusively, so they are single steps taken when no
 *  thread is inside an operation.
 */
module ConcurrentModel {
  import opened Prober
  import opened Hashing
  import opened TableLayout
  import opened Optional

  type Tid = nat

  /** What a walk along the probe sequence is for.  An insertion carries the value the
   *  insertion counter of its home group had before the walk started.
   */
  datatype Purpose = Lookup(k: Key) | Erase(k: Key) | Insert(e: Entry, c: nat) {
    function Sought(): Key {
      match this
      case Lookup(k) => k
      case Erase(k) => k
      case Insert(e, _) => e.key
    }
  }

  datatype Outcome = Missing | Present | Inserted | Full | Erased

  datatype Pc =
    | Idle
    | Begin(e: Entry)                                      // about to record the insertion counter
    | Scan(p: Purpose, j: nat, i: nat, mask: set<nat>)     // reading the tag of slot i of probe j
    | Enter(p: Purpose, j: nat, mask: set<nat>)            // some tag matched; about to lock the group
    | Compare(p: Purpose, j: nat, excl: bool, mask: set<nat>) // holding the group; candidates left
    | Check(p: Purpose, j: nat)                            // about to test the overflow bit
    | Destroyed(x: nat)                                    // erasing: element destroyed, group held
    | Lowered(x: nat, dec: bool)                           // erasing: maximum load adjusted
    | Cleared(x: nat)                                      // erasing: tag reset
    | Reserve(e: Entry, c: nat)                            // nothing found; about to count the element
    | Reserved(e: Entry, c: nat, snapshot: int)            // counted; about to compare with the maximum load
    | Refused                                              // over the maximum load; about to uncount
    | Seek(e: Entry, c: nat, j: nat)                       // about to lock the j-th probed group
    | Held(e: Entry, c: nat, j: nat)                       // group held; about to look for a free slot
    | Taking(e: Entry, c: nat, x: nat)                     // free slot found; about to set its tag
    | Bump(e: Entry, c: nat, x: nat)                       // tag set; about to increment the counter
    | Won(e: Entry, x: nat)                                // no rival; about to construct the element
    | Lost(e: Entry, x: nat)                               // rival seen; about to reset the tag
    | Unwound(e: Entry)                                    // about to uncount and start over
    | Done(out: Outcome)

  /** `claim` is an auxiliary record: the key whose insertion has won the slot and whose
   *  element has not been destroyed yet.
   */
  datatype State = State(
    h: Hasher,
    t: Layout,
    claim: seq<Option<Key>>,
    counter: seq<nat>,
    size: int,
    ml: int,
    pc: map<Tid, Pc>)

  ghost predicate Sized(s: State) {
    && Shape(s.t)
    && |s.claim| == |s.t.tags|
    && |s.counter| == Pow2(s.t.exp)
  }

  function GroupOf(s: State, k: Key, j: nat): nat { ProbeGroup(s.t.exp, s.h(k), j) }

  function HomeOf(s: State, k: Key): nat { Home(s.h(k), s.t.exp) }

  // -------------------------------------------------------------- group locks

  predicate HoldsExclusive(s: State, pc: Pc, g: nat) {
    match pc
    case Compare(p, j, true, _) => GroupOf(s, p.Sought(), j) == g
    case Held(e, _, j) => GroupOf(s, e.key, j) == g
    case Destroyed(x) => x / SLOTS == g
    case Lowered(x, _) => x / SLOTS == g
    case Cleared(x) => x / SLOTS == g
    case Taking(_, _, x) => x / SLOTS == g
    case Bump(_, _, x) => x / SLOTS == g
    case Won(_, x) => x / SLOTS == g
    case Lost(_, x) => x / SLOTS == g
    case _ => false
  }

  predicate HoldsShared(s: State, pc: Pc, g: nat) {
    match pc
    case Compare(p, j, false, _) => GroupOf(s, p.Sought(), j) == g
    case _ => false
  }

  /** No other thread holds the group in a conflicting mode. */
  ghost predicate CanLock(s: State, t: Tid, g: nat, excl: bool) {
    forall u :: u in s.pc && u != t ==>
      !HoldsExclusive(s, s.pc[u], g) && (excl ==> !HoldsShared(s, s.pc[u], g))
  }

  // -------------------------------------------------------------------- steps

  ghost predicate Goes(s: State, s': State, t: Tid, pc: Pc) {
    s' == s.(pc := s.pc[t := pc])
  }

  ghost predicate CallStep(s: State, s': State, t: Tid)
    requires t in s.pc
  {
    match s.pc[t]
    case Idle =>
      || (exists e :: Goes(s, s', t, Begin(e)))
      || (exists k :: Goes(s, s', t, Scan(Lookup(k), 0, 0, {})))
      || (exists k :: Goes(s, s', t, Scan(Erase(k), 0, 0, {})))
    case Done(_) => Goes(s, s', t, Idle)
    case _ => false
  }

  /** A matched key: lookups and insertions report it, erasures destroy it or decline. */
  ghost predicate FoundStep(s: State, s': State, t: Tid, p: Purpose, x: nat)
    requires Sized(s) && x < |s.t.elems|
  {
    || Goes(s, s', t, Done(Present))
    || (p.Erase? && s' == s.(t := s.t.(elems := s.t.elems[x := None]), claim := s.claim[x := None],
                             pc := s.pc[t := Destroyed(x)]))
  }

  /** Where a candidate rejected under the lock leaves the walk. */
  function AfterReject(p: Purpose, j: nat, excl: bool, mask: set<nat>): Pc {
    if mask == {} then Check(p, j) else Compare(p, j, excl, mask)
  }

  ghost predicate CompareStep(s: State, s': State, t: Tid, p: Purpose, j: nat, excl: bool, mask: set<nat>)
    requires Sized(s)
  {
    exists i: nat :: IsLeast(i, mask) && i < SLOTS &&
      var x := SlotAt(GroupOf(s, p.Sought(), j), i);
      x < |s.t.elems| &&
      if s.t.tags[x] != FREE && s.t.elems[x].Some? && s.t.elems[x].value.key == p.Sought() then
        FoundStep(s, s', t, p, x) && (p.Erase? ==> excl)
      else
        Goes(s, s', t, AfterReject(p, j, excl, mask - {i}))
  }

  ghost predicate WalkStep(s: State, s': State, t: Tid)
    requires Sized(s) && t in s.pc
  {
    match s.pc[t]
    case Begin(e) => Goes(s, s', t, Scan(Insert(e, s.counter[HomeOf(s, e.key)]), 0, 0, {}))
    case Scan(p, j, i, mask) =>
      if i < SLOTS then
        var x := SlotAt(GroupOf(s, p.Sought(), j), i);
        x < |s.t.tags| &&
        Goes(s, s', t, Scan(p, j, i + 1, if s.t.tags[x] == Tag(s.h(p.Sought())) then mask + {i} else mask))
      else
        Goes(s, s', t, if mask == {} then Check(p, j) else Enter(p, j, mask))
    case Enter(p, j, mask) =>
      exists excl :: (p.Erase? ==> excl) && CanLock(s, t, GroupOf(s, p.Sought(), j), excl)
                     && Goes(s, s', t, Compare(p, j, excl, mask))
    case Compare(p, j, excl, mask) => CompareStep(s, s', t, p, j, excl, mask)
    case Check(p, j) =>
      if Bit(s.h(p.Sought())) !in s.t.overflow[GroupOf(s, p.Sought(), j)] || j + 1 >= Pow2(s.t.exp) then
        Goes(s, s', t, if p.Insert? then Reserve(p.e, p.c) else Done(Missing))
      else
        Goes(s, s', t, Scan(p, j + 1, 0, {}))
    case _ => false
  }

  ghost predicate EraseStep(s: State, s': State, t: Tid)
    requires Sized(s) && t in s.pc
  {
    match s.pc[t]
    case Destroyed(x) =>
      x < |s.t.tags| && x / SLOTS < |s.t.overflow| &&
      var dec := s.t.tags[x] % 8 in s.t.overflow[x / SLOTS];
      s' == s.(ml := if dec then s.ml - 1 else s.ml, pc := s.pc[t := Lowered(x, dec)])
    case Lowered(x, _) =>
      x < |s.t.tags| && s' == s.(t := s.t.(tags := s.t.tags[x := FREE]), pc := s.pc[t := Cleared(x)])
    case Cleared(_) => s' == s.(size := s.size - 1, pc := s.pc[t := Done(Erased)])
    case _ => false
  }

  ghost predicate GroupHasFree(s: State, g: nat) {
    exists i: nat :: i < SLOTS && SlotAt(g, i) < |s.t.tags| && s.t.tags[SlotAt(g, i)] == FREE
  }

  /** The reservation: count first, compare the snapshot with the maximum load afterwards. */
  ghost predicate ReserveStep(s: State, s': State, t: Tid)
    requires t in s.pc
  {
    match s.pc[t]
    case Reserve(e, c) => s' == s.(size := s.size + 1, pc := s.pc[t := Reserved(e, c, s.size + 1)])
    case Reserved(e, c, snapshot) => Goes(s, s', t, if snapshot <= s.ml then Seek(e, c, 0) else Refused)
    case Refused => s' == s.(size := s.size - 1, pc := s.pc[t := Done(Full)])
    case Unwound(e) => s' == s.(size := s.size - 1, pc := s.pc[t := Begin(e)])
    case _ => false
  }

  ghost predicate PlaceStep(s: State, s': State, t: Tid)
    requires Sized(s) && t in s.pc
  {
    match s.pc[t]
    case Seek(e, c, j) =>
      CanLock(s, t, GroupOf(s, e.key, j), true) && Goes(s, s', t, Held(e, c, j))
    case Held(e, c, j) =>
      var g := GroupOf(s, e.key, j);
      if GroupHasFree(s, g) then
        exists i: nat :: i < SLOTS && SlotAt(g, i) < |s.t.tags| && s.t.tags[SlotAt(g, i)] == FREE
                         && Goes(s, s', t, Taking(e, c, SlotAt(g, i)))
      else
        s' == s.(t := s.t.(overflow := s.t.overflow[g := s.t.overflow[g] + {Bit(s.h(e.key))}]),
                 pc := s.pc[t := Seek(e, c, j + 1)])
    case Taking(e, c, x) =>
      x < |s.t.tags| &&
      s' == s.(t := s.t.(tags := s.t.tags[x := Tag(s.h(e.key))]), pc := s.pc[t := Bump(e, c, x)])
    case Bump(e, c, x) =>
      var g := HomeOf(s, e.key);
      x < |s.claim| &&
      s' == s.(counter := s.counter[g := s.counter[g] + 1],
               claim := if s.counter[g] == c then s.claim[x := Some(e.key)] else s.claim,
               pc := s.pc[t := if s.counter[g] == c then Won(e, x) else Lost(e, x)])
    case Won(e, x) =>
      x < |s.t.elems| &&
      s' == s.(t := s.t.(elems := s.t.elems[x := Some(e)]), pc := s.pc[t := Done(Inserted)])
    case Lost(e, x) =>
      x < |s.t.tags| && s' == s.(t := s.t.(tags := s.t.tags[x := FREE]), pc := s.pc[t := Unwound(e)])
    case _ => false
  }

  ghost predicate ThreadStep(s: State, s': State, t: Tid) {
    && Sized(s) && t in s.pc
    && (CallStep(s, s', t) || WalkStep(s, s', t) || EraseStep(s, s', t) || ReserveStep(s, s', t) || PlaceStep(s, s', t))
  }

  ghost predicate AllIdle(s: State) {
    forall t :: t in s.pc ==> s.pc[t] == Idle
  }

  /** A table at rest, as the sequential operations leave it. */
  ghost predicate AtRest(s: State) {
    && Sized(s) && AllIdle(s)
    && WellPlaced(s.t, s.h)
    && (forall x :: 0 <= x < |s.claim| ==>
          s.claim[x] == if s.t.elems[x].Some? then Some(s.t.elems[x].value.key) else None)
    && s.size == |Live(s.t.elems)|
    && s.size <= s.ml <= Capacity(s.t)
  }

  /** Rehash keeps the elements, clear drops them all. */
  ghost predicate ContainerStep(s: State, s': State) {
    && AllIdle(s) && Sized(s) && Distinct(s.t.elems)
    && AtRest(s') && s'.pc == s.pc && s'.h == s.h
    && (ContentsOf(s'.t.elems) == ContentsOf(s.t.elems) || ContentsOf(s'.t.elems) == map[])
  }

  ghost predicate Init(s: State) {
    AtRest(s) && ContentsOf(s.t.elems) == map[]
  }

  ghost predicate Next(s: State, s': State) {
    ContainerStep(s, s') || exists t :: ThreadStep(s, s', t)
  }

  ghost predicate Behavior(run: seq<State>) {
    && |run| > 0 && Init(run[0])
    && forall i: nat :: i + 1 < |run| ==> NextAt(run, i)
  }

  ghost predicate NextAt(run: seq<State>, i: nat)
    requires i + 1 < |run|
  {
    Next(run[i], run[i + 1])
  }
}
